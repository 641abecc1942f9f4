/** The table of open handles (fuse_core.c): an inode that is open is not freed with its last
    name, but with its last handle. */
module OpenHandles {
  import opened Device
  import opened NameTree
  import opened Namespace

  /** The handles open on one inode. */
  datatype Handle = Handle(ino: nat, refs: int)

  ghost predicate Apart(open: seq<Handle>) {
    forall i, j {:trigger open[i], open[j]} :: 0 <= i < j < |open| ==> open[i].ino != open[j].ino
  }

  /** How many handles are open on an inode. */
  function RefsOf(open: seq<Handle>, ino: nat): int {
    if open == [] then 0 else if open[0].ino == ino then open[0].refs else RefsOf(open[1..], ino)
  }

  lemma {:induction false} RefsAt(open: seq<Handle>, i: nat)
    requires Apart(open) && i < |open|
    ensures RefsOf(open, open[i].ino) == open[i].refs
    decreases i
  {
    if i > 0 {
      ApartTail(open);
      RefsAt(open[1..], i - 1);
    }
  }

  lemma ApartTail(open: seq<Handle>)
    requires Apart(open) && |open| > 0
    ensures Apart(open[1..])
  {
  }

  lemma {:induction false} NoHandle(open: seq<Handle>, ino: nat)
    requires forall i {:trigger open[i]} :: 0 <= i < |open| ==> open[i].ino != ino
    ensures RefsOf(open, ino) == 0
    decreases |open|
  {
    if |open| > 0 {
      NoHandle(open[1..], ino);
    }
  }

  lemma {:induction false} RefsFrom(open: seq<Handle>, ino: nat)
    ensures RefsOf(open, ino) > 0 ==>
            exists i {:trigger open[i]} :: 0 <= i < |open| && open[i].ino == ino && open[i].refs > 0
    decreases |open|
  {
    if |open| > 0 && open[0].ino != ino {
      RefsFrom(open[1..], ino);
      if RefsOf(open, ino) > 0 {
        var i :| 0 <= i < |open[1..]| && open[1..][i].ino == ino && open[1..][i].refs > 0;
        assert open[i + 1] == open[1..][i];
      }
    }
  }

  /** Two tables with the same handles for ino, wherever they are. */
  lemma SameHandles(a: seq<Handle>, b: seq<Handle>, ino: nat)
    requires Apart(a) && Apart(b)
    requires forall i {:trigger a[i]} :: 0 <= i < |a| && a[i].ino == ino ==>
             exists j {:trigger b[j]} :: 0 <= j < |b| && b[j] == a[i]
    requires forall j {:trigger b[j]} :: 0 <= j < |b| && b[j].ino == ino ==>
             exists i {:trigger a[i]} :: 0 <= i < |a| && a[i] == b[j]
    ensures RefsOf(a, ino) == RefsOf(b, ino)
  {
    if i :| 0 <= i < |a| && a[i].ino == ino {
      var j :| 0 <= j < |b| && b[j] == a[i];
      RefsAt(a, i);
      RefsAt(b, j);
    } else {
      NoHandle(a, ino);
      NoHandle(b, ino);
    }
  }

  /** Every inode in the table is a file and not free; one without handles waits to be freed. */
  ghost predicate Pinned(t: Tree, open: seq<Handle>) {
    && Apart(open)
    && forall i {:trigger open[i]} :: 0 <= i < |open| ==>
         Live(t, open[i].ino) && !IsDir(t, open[i].ino) && (open[i].refs <= 0 ==> Link(t, open[i].ino) <= 0)
  }

  /** One handle on ino was closed: no other count changed, and nothing was freed but ino, if it
      had no name and no further handle. */
  ghost predicate Closed(t: Tree, open: seq<Handle>, t': Tree, open': seq<Handle>, ino: nat) {
    && (EntriesLive(t) ==> t'.ents == t.ents)
    && (if RefsOf(open, ino) > 0 then RefsOf(open', ino) == RefsOf(open, ino) - 1 else RefsOf(open', ino) <= 0)
    && (forall j: nat :: j != ino ==> RefsOf(open', j) == RefsOf(open, j))
    && (forall j: nat :: Live(t', j) ==> Live(t, j))
    && (forall j: nat :: Live(t, j) && !Live(t', j) ==> j == ino && RefsOf(open, ino) <= 1 && Link(t, ino) <= 0)
  }

  ghost predicate Tracked(open: seq<Handle>, ino: nat) {
    exists i {:trigger open[i]} :: 0 <= i < |open| && open[i].ino == ino
  }

  /** Closing a handle on ino tries to free it: it is the last one, and no links are left. */
  ghost predicate Frees(t: Tree, open: seq<Handle>, ino: nat) {
    Tracked(open, ino) && RefsOf(open, ino) <= 1 && Link(t, ino) <= 0
  }

  /** What open answers. */
  predicate Opens(t: Tree, dir: nat, name: Name, rc: Errno) {
    rc == if !Has(t, dir, name) then ENOENT else if IsDir(t, At(t, dir, name)) then EISDIR else OK
  }

  class Mount {
    const vol: Volume
    var open: seq<Handle>
    const fails: nat -> bool  // which inode reads and frees fail
    var tick: nat             // reads and frees so far

    ghost predicate Valid()
      reads this, vol
    {
      vol.Ok() && |vol.t.kind| <= 0x1_0000 && Pinned(vol.t, open)
    }

    constructor (vol: Volume, fails: nat -> bool)
      requires vol.Ok() && |vol.t.kind| <= 0x1_0000
      ensures this.vol == vol && this.fails == fails && open == [] && tick == 0 && Valid()
    {
      this.vol, this.fails := vol, fails;
      open, tick := [], 0;
    }

    /** The reads and writes that failed so far. */
    ghost function Faults(): nat
      reads this`tick
    {
      Failures(fails, tick)
    }

    lemma Unfailing()
      ensures Reliable(fails) ==> Faults() == 0
    {
      if Reliable(fails) {
        NoFailures(fails, tick);
      }
    }

    /** One read or write of the device. */
    method Ready() returns (ok: bool)
      modifies this`tick
      ensures Faults() == if ok then old(Faults()) else old(Faults()) + 1
      ensures ok == !fails(old(tick)) && tick == old(tick) + 1
    {
      ok := !fails(tick);
      tick := tick + 1;
    }

    /** One more handle on ino. */
    method Track(ino: nat)
      requires Pinned(vol.t, open) && Live(vol.t, ino) && !IsDir(vol.t, ino)
      modifies this`open
      ensures Pinned(vol.t, open) && (old(Valid()) ==> Valid())
      ensures RefsOf(open, ino) == RefsOf(old(open), ino) + 1
      ensures forall j: nat :: j != ino ==> RefsOf(open, j) == RefsOf(old(open), j)
    {
      ghost var was := open;
      for i := 0 to |open|
        invariant open == was && forall k {:trigger open[k]} :: 0 <= k < i ==> open[k].ino != ino
      {
        if open[i].ino == ino {
          RefsAt(open, i);
          open := open[i := Handle(ino, open[i].refs + 1)];
          RefsAt(open, i);
          forall j: nat | j != ino
            ensures RefsOf(open, j) == RefsOf(was, j)
          {
            assert forall k :: 0 <= k < |was| && k != i ==> open[k] == was[k];
            SameHandles(open, was, j);
          }
          return;
        }
      }
      NoHandle(open, ino);
      open := open + [Handle(ino, 1)];
      RefsAt(open, |was|);
      forall j: nat | j != ino
        ensures RefsOf(open, j) == RefsOf(was, j)
      {
        assert forall k :: 0 <= k < |was| ==> open[k] == was[k];
        SameHandles(open, was, j);
      }
    }

    method Refs(ino: nat) returns (n: int)
      requires Valid()
      ensures n == RefsOf(open, ino)
    {
      for i := 0 to |open|
        invariant forall k {:trigger open[k]} :: 0 <= k < i ==> open[k].ino != ino
      {
        if open[i].ino == ino {
          RefsAt(open, i);
          return open[i].refs;
        }
      }
      NoHandle(open, ino);
      return 0;
    }

    /** One handle less.  With the last one an inode whose count is 0 or less is freed, unless
        reading it or freeing it fails.  The answer is that of the free, and if that fails the
        entry stays, so that it can be tried again.  What is freed has no name if the counts are
        right. */
    method Release(ino: nat) returns (ok: bool)
      requires vol.Ready() && Pinned(vol.t, open)
      modifies this, vol
      ensures vol.Ready() && Pinned(vol.t, open) && (old(Valid()) ==> Valid())
      ensures Closed(old(vol.t), old(open), vol.t, open, ino)
      ensures old(Counted(vol.t)) ==> forall j: nat :: old(Live(vol.t, j)) && !Live(vol.t, j) ==>
              NameTree.Refs(old(vol.t), j) == {}
      ensures old(Faults()) <= Faults() && (!ok ==> old(Faults()) < Faults())
      ensures !ok <==> old(Frees(vol.t, open, ino)) && !fails(old(tick)) && fails(old(tick) + 1)
      ensures !ok ==> vol.t == old(vol.t) && Tracked(open, ino)
      ensures RefsOf(old(open), ino) == 1 && old(Link(vol.t, ino)) <= 0 && Faults() == old(Faults()) ==>
              !Live(vol.t, ino)
    {
      for i := 0 to |open|
        invariant open == old(open) && vol.t == old(vol.t) && tick == old(tick)
        invariant forall k {:trigger open[k]} :: 0 <= k < i ==> open[k].ino != ino
      {
        if open[i].ino == ino {
          ok := CloseAt(i);
          UncountedNames(old(vol.t));
          return;
        }
      }
      NoHandle(open, ino);
      return true;
    }

    method CloseAt(i: nat) returns (ok: bool)
      requires vol.Ready() && Pinned(vol.t, open) && i < |open|
      modifies this, vol
      ensures vol.Ready() && Pinned(vol.t, open) && (old(Valid()) ==> Valid())
      ensures Closed(old(vol.t), old(open), vol.t, open, old(open)[i].ino)
      ensures old(Faults()) <= Faults() && (!ok ==> old(Faults()) < Faults())
      ensures !ok <==> old(Frees(vol.t, open, open[i].ino)) && !fails(old(tick)) && fails(old(tick) + 1)
      ensures !ok ==> vol.t == old(vol.t) && Tracked(open, old(open)[i].ino)
      ensures var ino := old(open)[i].ino;
              RefsOf(old(open), ino) == 1 && old(Link(vol.t, ino)) <= 0 && Faults() == old(Faults()) ==>
                  !Live(vol.t, ino)
    {
      hide Good, Apart, RefsOf, Ranged, TakeAll, MayAll, EntriesLive;
      ghost var was := open;
      var ino := open[i].ino;
      RefsAt(open, i);
      var left := open[i].refs - 1;
      if left > 0 {
        open := open[i := Handle(ino, left)];
        Lowered(was, open, i);
        return true;
      }
      ok := true;
      var read := Ready();
      if read && Link(vol.t, ino) <= 0 {
        open := open[i := Handle(ino, left)];
        Lowered(was, open, i);
        var fine := Ready();
        ok := vol.FreeIno(ino, fine);
        assert open[i].ino == ino;
      }
      if ok {
        var last := open[|open| - 1];
        open := open[i := last][..|open| - 1];
        Dropped(was, open, i);
      }
    }

    /** Open a file by its directory entry. */
    method Open(dir: nat, name: Name) returns (rc: Errno, ino: nat)
      requires Valid()
      modifies this`open
      ensures Valid() && (rc != OK ==> open == old(open))
      ensures Opens(vol.t, dir, name, rc)
      ensures rc == OK ==>
              Has(vol.t, dir, name) && ino == At(vol.t, dir, name) &&
              RefsOf(open, ino) == RefsOf(old(open), ino) + 1 >= 1
      ensures rc == OK ==> forall j: nat :: j != ino ==> RefsOf(open, j) == RefsOf(old(open), j)
    {
      ino := 0;
      if !Has(vol.t, dir, name) {
        return ENOENT, ino;
      }
      ino := At(vol.t, dir, name);
      NamedLive(vol.t, vol.root, dir, name);
      if IsDir(vol.t, ino) {
        return EISDIR, ino;
      }
      NamedRefs(vol.t, vol.root, open, dir, name);
      Track(ino);
      return OK, ino;
    }

    /** Create a file and open it.  The number was free, so no handle was open on it. */
    method Create(dir: nat, name: Name) returns (rc: Errno, ino: nat)
      requires Valid()
      modifies this`open, vol
      ensures Valid() && (rc != OK ==> open == old(open) && vol.t == old(vol.t)) &&
              rc == CreateAnswer(old(vol.t), dir, name)
      ensures rc == OK ==>
              Has(vol.t, dir, name) && At(vol.t, dir, name) == ino && Live(vol.t, ino) && !IsDir(vol.t, ino)
      ensures rc == OK ==> Besides(old(vol.t), vol.t, dir, name) && Except(old(vol.t), vol.t, ino)
      ensures rc == OK ==> !old(Live(vol.t, ino)) && RefsOf(old(open), ino) == 0 && RefsOf(open, ino) == 1
      ensures forall j: nat :: old(Live(vol.t, j)) ==> Live(vol.t, j)
      ensures rc == OK ==> forall j: nat :: j != ino ==> RefsOf(open, j) == RefsOf(old(open), j)
    {
      hide Good, Apart, RefsOf;
      ghost var t0 := vol.t;
      rc, ino := vol.Create(dir, name);
      if rc != OK {
        return;
      }
      assert forall i {:trigger open[i]} :: 0 <= i < |open| ==> open[i].ino != ino;
      NoHandle(open, ino);
      PinsAfter(t0, vol.t, vol.root, open, 0);
      Track(ino);
    }

    /** Unlink; the free is deferred if a handle is open on the inode. */
    method Unlink(dir: nat, name: Name) returns (rc: Errno)
      requires Valid() && IsDir(vol.t, dir) && name.Plain? &&
               (Has(vol.t, dir, name) ==> !IsDir(vol.t, At(vol.t, dir, name)))
      modifies vol
      ensures Valid()
      ensures forall j: nat :: old(Live(vol.t, j)) && !Live(vol.t, j) ==> RefsOf(open, j) <= 0
      ensures forall j: nat :: RefsOf(open, j) > 0 ==> Live(vol.t, j)
      ensures rc == (if old(Has(vol.t, dir, name)) then OK else ENOENT) && (rc != OK ==> vol.t == old(vol.t))
      ensures rc == OK ==> !Has(vol.t, dir, name) && Besides(old(vol.t), vol.t, dir, name)
      ensures rc == OK ==> Except(old(vol.t), vol.t, old(At(vol.t, dir, name)))
      ensures rc == OK ==> var i := old(At(vol.t, dir, name)); Live(vol.t, i) <==>
              LivesOn(old(vol.t), i, RefsOf(open, i) > 0)
    {
      hide Good, Pinned, RefsOf;
      var defer := false;
      ghost var t0 := vol.t;
      if Has(vol.t, dir, name) {
        var n := Refs(At(vol.t, dir, name));
        defer := n > 0;
      }
      GoodLive(vol.t, vol.root);
      rc := vol.UnlinkIn(dir, name, defer);
      if rc == OK {
        NamedLive(t0, vol.root, dir, name);
        PinsAfter(t0, vol.t, vol.root, open, At(t0, dir, name));
      }
      PinnedLive(vol.t, open);
    }

    /** Rename; the free of a replaced target is deferred if a handle is open on it. */
    method Rename(sdir: nat, sname: Name, tdir: nat, tname: Name, noreplace: bool) returns (rc: Errno)
      requires Valid() && IsDir(vol.t, sdir) && IsDir(vol.t, tdir) && sname.Plain? && tname.Plain?
      modifies vol
      ensures Valid() <==> RenameFits(old(vol.t), vol.root, sdir, sname, tdir, tname, noreplace)
      ensures RenameFits(old(vol.t), vol.root, sdir, sname, tdir, tname, noreplace) ==>
              && (forall j: nat :: old(Live(vol.t, j)) && !Live(vol.t, j) ==> RefsOf(open, j) <= 0)
              && (forall j: nat :: RefsOf(open, j) > 0 ==> Live(vol.t, j))
              && rc == RenameAnswer(old(vol.t), vol.root, sdir, sname, tdir, tname, noreplace)
              && var defer := Has(old(vol.t), tdir, tname) && RefsOf(open, At(old(vol.t), tdir, tname)) > 0;
                 RenameDone(old(vol.t), vol.t, sdir, sname, tdir, tname, defer, rc)
    {
      hide Good, Pinned, RefsOf, RenameAnswer, LivesOn, RenameFits, RenameDone;
      var defer := false;
      ghost var t0 := vol.t;
      if Has(vol.t, tdir, tname) {
        var n := Refs(At(vol.t, tdir, tname));
        defer := n > 0;
        if defer {
          PinnedFile(vol.t, open, At(vol.t, tdir, tname));
        }
      }
      rc := vol.Rename(sdir, sname, tdir, tname, noreplace, defer);
      if RenameFits(t0, vol.root, sdir, sname, tdir, tname, noreplace) {
        PinsRenamed(t0, vol.t, vol.root, open, sdir, sname, tdir, tname, defer, rc);
        PinnedLive(vol.t, open);
      }
    }
  }

  /** Where the counts are right, no links are no names. */
  lemma UncountedNames(t: Tree)
    ensures Counted(t) ==> forall j: nat :: Live(t, j) && Link(t, j) <= 0 ==> NameTree.Refs(t, j) == {}
  {
    if Counted(t) {
      forall j: nat | Live(t, j) && Link(t, j) <= 0
        ensures NameTree.Refs(t, j) == {}
      {
        assert t.nlink[j] == |NameTree.Refs(t, j)|;
      }
    }
  }

  lemma Lowered(was: seq<Handle>, open: seq<Handle>, i: nat)
    requires Apart(was) && i < |was| == |open| && open == was[i := Handle(was[i].ino, open[i].refs)]
    ensures Apart(open) && RefsOf(open, was[i].ino) == open[i].refs
    ensures forall j: nat :: j != was[i].ino ==> RefsOf(open, j) == RefsOf(was, j)
  {
    RefsAt(open, i);
    forall j: nat | j != was[i].ino
      ensures RefsOf(open, j) == RefsOf(was, j)
    {
      assert forall k :: 0 <= k < |was| && k != i ==> open[k] == was[k];
      SameHandles(open, was, j);
    }
  }

  /** Moving the last entry into the place of the one that goes. */
  lemma Dropped(was: seq<Handle>, open: seq<Handle>, i: nat)
    requires Apart(was) && i < |was| && |open| == |was| - 1
    requires forall k {:trigger open[k]} :: 0 <= k < |open| ==> open[k] == if k == i then was[|was| - 1] else was[k]
    ensures Apart(open) && RefsOf(open, was[i].ino) == 0
    ensures forall j: nat :: j != was[i].ino ==> RefsOf(open, j) == RefsOf(was, j)
  {
    NoHandle(open, was[i].ino);
    forall j: nat | j != was[i].ino
      ensures RefsOf(open, j) == RefsOf(was, j)
    {
      forall k {:trigger was[k]} | 0 <= k < |was| && was[k].ino == j
        ensures exists l {:trigger open[l]} :: 0 <= l < |open| && open[l] == was[k]
      {
        assert open[if k == |was| - 1 then i else k] == was[k];
      }
      SameHandles(open, was, j);
    }
  }

  /** What can be opened by name has no entry that waits to be freed. */
  lemma NamedRefs(t: Tree, root: nat, open: seq<Handle>, d: nat, n: Name)
    requires Good(t, root) && Pinned(t, open) && Has(t, d, n)
    ensures RefsOf(open, At(t, d, n)) >= 0
  {
    var ino := At(t, d, n);
    NamedLive(t, root, d, n);
    if i :| 0 <= i < |open| && open[i].ino == ino {
      RefsAt(open, i);
    } else {
      NoHandle(open, ino);
    }
  }

  /** An open inode is live, and a file. */
  lemma PinnedFile(t: Tree, open: seq<Handle>, ino: nat)
    requires Pinned(t, open) && RefsOf(open, ino) > 0
    ensures Live(t, ino) && !IsDir(t, ino)
  {
    RefsFrom(open, ino);
  }

  lemma PinnedLive(t: Tree, open: seq<Handle>)
    requires Pinned(t, open)
    ensures forall j: nat :: RefsOf(open, j) > 0 ==> Live(t, j)
  {
    forall j: nat | RefsOf(open, j) > 0
      ensures Live(t, j)
    {
      PinnedFile(t, open, j);
    }
  }

  /** The table stays right if its inodes stay live and files, and those waiting to be freed
      get no name. */
  lemma Repin(t: Tree, t': Tree, root: nat, open: seq<Handle>)
    requires Pinned(t, open) && Good(t', root)
    requires forall i {:trigger open[i]} :: 0 <= i < |open| ==> Live(t', open[i].ino) && !IsDir(t', open[i].ino)
    requires forall i {:trigger open[i]} :: 0 <= i < |open| && open[i].refs <= 0 ==>
               forall d: nat, n: Name {:trigger Has(t', d, n)} :: Has(t', d, n) && n.Plain? ==>
                   At(t', d, n) != open[i].ino
    ensures Pinned(t', open)
  {
    forall i {:trigger open[i]} | 0 <= i < |open|
      ensures Live(t', open[i].ino) && !IsDir(t', open[i].ino) && (open[i].refs <= 0 ==> Link(t', open[i].ino) <= 0)
    {
      if open[i].refs <= 0 {
        Nameless(t', root, open[i].ino);
      }
    }
  }

  /** A file that no plain entry names has no links. */
  lemma Nameless(t: Tree, root: nat, i: nat)
    requires Good(t, root) && Live(t, i) && !IsDir(t, i)
    requires forall d: nat, n: Name {:trigger Has(t, d, n)} :: Has(t, d, n) && n.Plain? ==> At(t, d, n) != i
    ensures Link(t, i) == 0
  {
    forall k: Key | k in t.ents
      ensures t.ents[k] != i
    {
      assert Has(t, k.0, k.1);
      assert IsDir(t, k.0) && IsDir(t, Parent(t, k.0));
    }
    assert Refs(t, i) == {};
    assert Link(t, i) == t.nlink[i];
  }

  /** An inode waiting to be freed has no name. */
  lemma NoName(t: Tree, root: nat, i: nat)
    requires Good(t, root) && Link(t, i) <= 0
    ensures forall d: nat, n: Name {:trigger Has(t, d, n)} :: Has(t, d, n) ==> At(t, d, n) != i
  {
    forall d: nat, n: Name {:trigger Has(t, d, n)} | Has(t, d, n)
      ensures At(t, d, n) != i
    {
      NamedLive(t, root, d, n);
    }
  }

  /** After an operation that names no inode that had no name before, and frees at most the
      inode `gone`, which had a name and on which no handle is open. */
  lemma PinsAfter(t: Tree, t': Tree, root: nat, open: seq<Handle>, gone: nat)
    requires Pinned(t, open) && Good(t, root) && Good(t', root)
    requires forall j: nat {:trigger Live(t', j)} :: Live(t, j) ==>
             (Live(t', j) && (IsDir(t', j) <==> IsDir(t, j))) || (j == gone && Link(t, j) >= 1 && RefsOf(open, j) <= 0)
    requires forall d: nat, n: Name {:trigger Has(t', d, n)} :: Has(t', d, n) && n.Plain? ==>
               !Live(t, At(t', d, n)) || exists e: nat, m: Name {:trigger Has(t, e, m)} ::
                   Has(t, e, m) && At(t, e, m) == At(t', d, n)
    ensures Pinned(t', open)
  {
    hide Good;
    forall i {:trigger open[i]} | 0 <= i < |open|
      ensures Live(t', open[i].ino) && !IsDir(t', open[i].ino)
      ensures open[i].refs <= 0 ==> forall d: nat, n: Name {:trigger Has(t', d, n)} :: Has(t', d, n) && n.Plain? ==>
              At(t', d, n) != open[i].ino
    {
      RefsAt(open, i);
      assert Live(t, open[i].ino);
      if open[i].refs <= 0 {
        NoName(t, root, open[i].ino);
      }
    }
    Repin(t, t', root, open);
  }

  lemma PinsRenamed(t: Tree, t': Tree, root: nat, open: seq<Handle>, sdir: nat, sname: Name, tdir: nat, tname: Name,
      defer: bool, rc: Errno)
    requires Pinned(t, open) && Good(t, root) && Good(t', root) &&
             RenameDone(t, t', sdir, sname, tdir, tname, defer, rc)
    requires defer <==> Has(t, tdir, tname) && RefsOf(open, At(t, tdir, tname)) > 0
    ensures Pinned(t', open)
    ensures forall j: nat :: Live(t, j) && !Live(t', j) ==> RefsOf(open, j) <= 0
  {
    hide Good, Pinned, RefsOf, LivesOn;
    if t' != t {
      if Has(t, tdir, tname) {
        NamedLive(t, root, tdir, tname);
      }
      PinsAfter(t, t', root, open, At(t, tdir, tname));
    }
  }

  // ---- runs ----

  datatype Event =
    | Opened(dir: nat, name: Name)
    | Created(dir: nat, name: Name)
    | Unlinked(dir: nat, name: Name)
    | Moved(sdir: nat, sname: Name, tdir: nat, tname: Name, noreplace: bool)
    | Released(ino: nat)

  /** What a caller gets back: a result, and the inode that an open or create hands out. */
  datatype Answer = Answer(rc: Errno, ino: nat)

  /** The handles that callers hold after an event: one more for an open or create that
      succeeded, one less for a release. */
  function HeldAfter(held: multiset<nat>, ev: Event, a: Answer): multiset<nat> {
    if ev.Released? then held - multiset{ev.ino}
    else if (ev.Opened? || ev.Created?) && a.rc == OK then held + multiset{a.ino}
    else held
  }

  /** The handles that callers hold after the first k events. */
  function Held(script: seq<Event>, answers: seq<Answer>, k: nat): multiset<nat>
    requires k <= |script| && k <= |answers|
  {
    if k == 0 then multiset{} else HeldAfter(Held(script, answers, k - 1), script[k - 1], answers[k - 1])
  }

  /** What one event does, seen by callers who hold `held`.  `calm` says that no read or free
      failed. */
  ghost predicate Played(t: Tree, root: nat, held: multiset<nat>, ev: Event, a: Answer, t': Tree, calm: bool) {
    && (forall j: nat :: held[j] > 0 ==> Live(t, j) && (Live(t', j) || (ev.Released? && ev.ino == j && held[j] == 1)))
    && match ev
       case Opened(dir, name) => t' == t && Opens(t, dir, name, a.rc) && (a.rc == OK ==> a.ino == At(t, dir, name))
       case Created(dir, name) =>
         && a.rc == CreateAnswer(t, dir, name) && (a.rc != OK ==> t' == t)
         && (a.rc == OK ==>
              && held[a.ino] == 0 && !Live(t, a.ino) && Live(t', a.ino) && !IsDir(t', a.ino) && Has(t', dir, name)
              && At(t', dir, name) == a.ino && Besides(t, t', dir, name) && Except(t, t', a.ino))
       case Unlinked(dir, name) =>
         && a.rc == (if !Removes(t, dir, name) then EINVAL else if Has(t, dir, name) then OK else ENOENT)
         && (a.rc != OK ==> t' == t)
         && (a.rc == OK ==>
              var i := At(t, dir, name);
              && !Has(t', dir, name) && (Live(t', i) <==> LivesOn(t, i, held[i] > 0))
              && Besides(t, t', dir, name) && Except(t, t', i))
       case Moved(sdir, sname, tdir, tname, noreplace) =>
         && a.rc == (if !(IsDir(t, sdir) && IsDir(t, tdir) && sname.Plain? && tname.Plain?) then EINVAL
                     else RenameAnswer(t, root, sdir, sname, tdir, tname, noreplace))
         && var defer := Has(t, tdir, tname) && held[At(t, tdir, tname)] > 0;
            RenameDone(t, t', sdir, sname, tdir, tname, defer, a.rc)
       case Released(ino) =>
         && t'.ents == t.ents && (forall j: nat :: Live(t', j) ==> Live(t, j))
         && (forall j: nat :: Live(t, j) && !Live(t', j) ==> j == ino && held[ino] <= 1 && Refs(t, ino) == {})
         && (calm && held[ino] == 1 && Refs(t, ino) == {} ==> !Live(t', ino))
         && (calm ==> a.rc == OK) && a.rc in {OK, EIO}
         && (a.rc != OK ==> t' == t && held[ino] <= 1 && Live(t, ino) && Refs(t, ino) == {})
  }

  /** An unlink of something that is no directory; others are refused here. */
  predicate Removes(t: Tree, dir: nat, name: Name) {
    IsDir(t, dir) && name.Plain? && (Has(t, dir, name) ==> !IsDir(t, At(t, dir, name)))
  }

  /** The table counts the handles that are out. */
  ghost predicate Agree(held: multiset<nat>, open: seq<Handle>) {
    forall j: nat {:trigger held[j]} :: held[j] == if RefsOf(open, j) > 0 then RefsOf(open, j) else 0
  }

  lemma HeldLive(held: multiset<nat>, t: Tree, open: seq<Handle>)
    requires Agree(held, open) && Pinned(t, open)
    ensures forall j: nat :: held[j] > 0 ==> Live(t, j)
  {
    PinnedLive(t, open);
  }

  lemma AgreeMore(held: multiset<nat>, open: seq<Handle>, ino: nat, open': seq<Handle>)
    requires Agree(held, open) && RefsOf(open', ino) == RefsOf(open, ino) + 1 >= 1
    requires forall j: nat :: j != ino ==> RefsOf(open', j) == RefsOf(open, j)
    ensures Agree(held + multiset{ino}, open')
  {
    hide RefsOf;
  }

  lemma AgreeLess(held: multiset<nat>, t: Tree, open: seq<Handle>, ino: nat, t': Tree, open': seq<Handle>)
    requires Agree(held, open) && Closed(t, open, t', open', ino)
    ensures Agree(held - multiset{ino}, open')
  {
    hide RefsOf;
  }

  /** The event does not raise a link count past the largest. */
  predicate Roomy(t: Tree, ev: Event) {
    ev.Moved? ==> RenameRoom(t, ev.sdir, ev.sname, ev.tdir, ev.tname)
  }

  /** One event. */
  method PlayOne(m: Mount, ev: Event, ghost held: multiset<nat>) returns (a: Answer)
    requires m.Valid() && Agree(held, m.open) && Roomy(m.vol.t, ev)
    modifies m, m.vol
    ensures m.Valid() && old(m.Faults()) <= m.Faults() && Agree(HeldAfter(held, ev, a), m.open)
    ensures Played(old(m.vol.t), m.vol.root, held, ev, a, m.vol.t, m.Faults() == old(m.Faults()))
  {
    match ev {
      case Opened(dir, name) => a := PlayOpen(m, ev, held);
      case Created(dir, name) => a := PlayCreate(m, ev, held);
      case Unlinked(dir, name) => a := PlayUnlink(m, ev, held);
      case Moved(sdir, sname, tdir, tname, noreplace) => a := PlayRename(m, ev, held);
      case Released(ino) => a := PlayRelease(m, ev, held);
    }
  }

  method PlayOpen(m: Mount, ev: Event, ghost held: multiset<nat>) returns (a: Answer)
    requires m.Valid() && Agree(held, m.open) && ev.Opened?
    modifies m`open
    ensures m.Valid() && Agree(HeldAfter(held, ev, a), m.open)
    ensures Played(m.vol.t, m.vol.root, held, ev, a, m.vol.t, true)
  {
    hide Good, Pinned, RefsOf, Agree, Has, IsDir, At, Live;
    HeldLive(held, m.vol.t, m.open);
    var rc, ino := m.Open(ev.dir, ev.name);
    a := Answer(rc, ino);
    if rc == OK {
      AgreeMore(held, old(m.open), ino, m.open);
    }
  }

  method PlayCreate(m: Mount, ev: Event, ghost held: multiset<nat>) returns (a: Answer)
    requires m.Valid() && Agree(held, m.open) && ev.Created?
    modifies m`open, m.vol
    ensures m.Valid() && Agree(HeldAfter(held, ev, a), m.open)
    ensures Played(old(m.vol.t), m.vol.root, held, ev, a, m.vol.t, true)
  {
    hide Good, Pinned, RefsOf, Agree, Has, IsDir, At, Live, CreateAnswer, Besides, Except;
    HeldLive(held, m.vol.t, m.open);
    var rc, ino := m.Create(ev.dir, ev.name);
    a := Answer(rc, ino);
    if rc == OK {
      AgreeMore(held, old(m.open), ino, m.open);
    }
  }

  method PlayUnlink(m: Mount, ev: Event, ghost held: multiset<nat>) returns (a: Answer)
    requires m.Valid() && Agree(held, m.open) && ev.Unlinked?
    modifies m.vol
    ensures m.Valid() && Agree(HeldAfter(held, ev, a), m.open)
    ensures Played(old(m.vol.t), m.vol.root, held, ev, a, m.vol.t, true)
  {
    hide Good, Pinned, RefsOf, Has, IsDir, At, Live, LivesOn, Besides, Except;
    HeldLive(held, m.vol.t, m.open);
    a := Answer(EINVAL, 0);
    if Removes(m.vol.t, ev.dir, ev.name) {
      ghost var i := At(m.vol.t, ev.dir, ev.name);
      assert held[i] > 0 <==> RefsOf(m.open, i) > 0;
      var rc := m.Unlink(ev.dir, ev.name);
      a := Answer(rc, 0);
    }
    HeldLive(held, m.vol.t, m.open);
  }

  method PlayRename(m: Mount, ev: Event, ghost held: multiset<nat>) returns (a: Answer)
    requires m.Valid() && Agree(held, m.open) && ev.Moved? && Roomy(m.vol.t, ev)
    modifies m.vol
    ensures m.Valid() && Agree(HeldAfter(held, ev, a), m.open)
    ensures Played(old(m.vol.t), m.vol.root, held, ev, a, m.vol.t, true)
  {
    hide Good, Pinned, RefsOf, Has, IsDir, At, Live, MayRename, RenameRoom, RenameAnswer;
    HeldLive(held, m.vol.t, m.open);
    a := Answer(EINVAL, 0);
    if IsDir(m.vol.t, ev.sdir) && IsDir(m.vol.t, ev.tdir) && ev.sname.Plain? && ev.tname.Plain? {
      ghost var i := At(m.vol.t, ev.tdir, ev.tname);
      assert held[i] > 0 <==> RefsOf(m.open, i) > 0;
      var rc := m.Rename(ev.sdir, ev.sname, ev.tdir, ev.tname, ev.noreplace);
      a := Answer(rc, 0);
      hide RenameDone;
    }
    HeldLive(held, m.vol.t, m.open);
  }

  method PlayRelease(m: Mount, ev: Event, ghost held: multiset<nat>) returns (a: Answer)
    requires m.Valid() && Agree(held, m.open) && ev.Released?
    modifies m, m.vol
    ensures m.Valid() && old(m.Faults()) <= m.Faults() && Agree(HeldAfter(held, ev, a), m.open)
    ensures Played(old(m.vol.t), m.vol.root, held, ev, a, m.vol.t, m.Faults() == old(m.Faults()))
  {
    hide Good, Pinned, RefsOf, Has, IsDir, At, Live, Link, Refs, Counted;
    HeldLive(held, m.vol.t, m.open);
    ghost var open0, t0 := m.open, m.vol.t;
    assert held[ev.ino] == 1 ==> RefsOf(open0, ev.ino) == 1;
    assert RefsOf(open0, ev.ino) <= 1 ==> held[ev.ino] <= 1;
    var ok := m.Release(ev.ino);
    a := Answer(if ok then OK else EIO, 0);
    AgreeLess(held, t0, open0, ev.ino, m.vol.t, m.open);
    GoodLive(t0, m.vol.root);
    NoLinks(t0, ev.ino);
    if !ok {
      TrackedLive(t0, open0, ev.ino);
    }
    HeldLive(held - multiset{ev.ino}, m.vol.t, m.open);
  }

  lemma TrackedLive(t: Tree, open: seq<Handle>, ino: nat)
    requires Pinned(t, open) && Tracked(open, ino)
    ensures Live(t, ino)
  {
  }

  lemma NoLinks(t: Tree, ino: nat)
    requires Counted(t)
    ensures Live(t, ino) ==> (Link(t, ino) <= 0 <==> Refs(t, ino) == {})
  {
    if Live(t, ino) {
      assert Link(t, ino) == t.nlink[ino];
    }
  }

  /** Any sequence of events, from a mount without handles; it ends before a rename that would
      raise a link count past the largest.  `trees` is the namespace before each event and after
      the last.  At every step, what callers hold stays live unless the step releases the last
      handle on it, so its number is not handed out again; a create hands out a number nobody
      held; and an inode without names goes with its last handle, unless a read or free failed. */
  method Play(m: Mount, script: seq<Event>) returns (answers: seq<Answer>, ghost trees: seq<Tree>)
    requires m.Valid() && m.open == []
    modifies m, m.vol
    ensures m.Valid() && |answers| <= |script| && |trees| == |answers| + 1
    ensures trees[0] == old(m.vol.t) && trees[|answers|] == m.vol.t
    ensures |answers| < |script| ==> !Roomy(m.vol.t, script[|answers|])
    ensures Agree(Held(script, answers, |answers|), m.open) && (Reliable(m.fails) ==> m.Faults() == old(m.Faults()))
    ensures forall k {:trigger script[k]} :: 0 <= k < |answers| ==>
              Played(trees[k], m.vol.root, Held(script, answers, k), script[k], answers[k], trees[k + 1],
                  m.Faults() == old(m.Faults()))
    ensures forall j: nat :: Held(script, answers, |answers|)[j] > 0 ==> Live(m.vol.t, j)
  {
    hide Good, Pinned, RefsOf, Played, Agree, Roomy;
    answers, trees := [], [m.vol.t];
    EmptyAgree();
    m.Unfailing();
    while |answers| < |script| && Roomy(m.vol.t, script[|answers|])
      invariant m.Valid() && old(m.Faults()) <= m.Faults() && |answers| <= |script| && |trees| == |answers| + 1
      invariant trees[0] == old(m.vol.t) && trees[|answers|] == m.vol.t
      invariant Agree(Held(script, answers, |answers|), m.open)
      invariant forall k {:trigger script[k]} :: 0 <= k < |answers| ==>
                  Played(trees[k], m.vol.root, Held(script, answers, k), script[k], answers[k], trees[k + 1],
                      m.Faults() == old(m.Faults()))
      decreases |script| - |answers|
    {
      ghost var f1 := m.Faults();
      var i := |answers|;
      var a := PlayOne(m, script[i], Held(script, answers, i));
      ghost var was := answers;
      answers, trees := answers + [a], trees + [m.vol.t];
      forall k | 0 <= k <= i
        ensures Held(script, answers, k) == Held(script, was, k)
      {
        HeldSame(script, was, a, k);
      }
      forall k {:trigger script[k]} | 0 <= k <= i
        ensures Played(trees[k], m.vol.root, Held(script, answers, k), script[k], answers[k], trees[k + 1],
                m.Faults() == old(m.Faults()))
      {
        Calmer(trees[k], m.vol.root, Held(script, answers, k), script[k], answers[k], trees[k + 1],
               if k == i then m.Faults() == f1 else f1 == old(m.Faults()), m.Faults() == old(m.Faults()));
      }
    }
    m.Unfailing();
    HeldLive(Held(script, answers, |answers|), m.vol.t, m.open);
  }

  lemma Calmer(t: Tree, root: nat, held: multiset<nat>, ev: Event, a: Answer, t': Tree, calm: bool, calm': bool)
    requires Played(t, root, held, ev, a, t', calm) && (calm' ==> calm)
    ensures Played(t, root, held, ev, a, t', calm')
  {
    hide Live, Has, IsDir, At, CreateAnswer, RenameAnswer, LivesOn, RenameDone, Refs, Opens, Removes, Besides, Except;
  }

  lemma {:induction false} HeldSame(script: seq<Event>, answers: seq<Answer>, a: Answer, k: nat)
    requires k <= |script| && k <= |answers|
    ensures Held(script, answers + [a], k) == Held(script, answers, k)
    decreases k
  {
    hide HeldAfter;
    if k > 0 {
      HeldSame(script, answers, a, k - 1);
    }
  }

  lemma EmptyAgree()
    ensures Agree(multiset{}, [])
  {
  }
}
