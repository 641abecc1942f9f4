/** The namespace operations (filsys.c): create, mkdir, link, unlink, rmdir and rename, step by
    step, with every block read and write succeeding. */
module Namespace {
  import opened LinkWidth
  import opened NameTree
  import opened NameSteps
  import CheckSpec

  datatype Errno = OK | EIO | ENOENT | EEXIST | ENOTDIR | EISDIR | ENOTEMPTY | EINVAL | ENOSPC | ELOOP

  /** A climb visits as many directories as it has steps. */
  ghost function Visited(t: Tree, root: nat, d: nat, k: nat): set<nat>
    decreases k
  {
    if k == 0 then {d} else {d} + Visited(t, root, Parent(t, d), k - 1)
  }

  lemma {:induction false} ClimbUnique(t: Tree, root: nat, d: nat, k: nat, l: nat)
    requires Climbs(t, root, d, k) && Climbs(t, root, d, l)
    ensures k == l
    decreases k
  {
    if k > 0 && l > 0 {
      ClimbUnique(t, root, Parent(t, d), k - 1, l - 1);
    }
  }

  lemma {:induction false} VisitedDepth(t: Tree, root: nat, d: nat, k: nat, x: nat)
    requires Climbs(t, root, d, k) && x in Visited(t, root, d, k)
    ensures exists j: nat {:trigger Climbs(t, root, x, j)} :: j <= k && Climbs(t, root, x, j)
    decreases k
  {
    if x != d {
      VisitedDepth(t, root, Parent(t, d), k - 1, x);
    }
  }

  lemma {:induction false} VisitedCount(t: Tree, root: nat, d: nat, k: nat)
    requires Climbs(t, root, d, k)
    ensures |Visited(t, root, d, k)| == k + 1
    ensures forall x :: x in Visited(t, root, d, k) ==> x == root || IsDir(t, x)
    decreases k
  {
    if k > 0 {
      VisitedCount(t, root, Parent(t, d), k - 1);
      if d in Visited(t, root, Parent(t, d), k - 1) {
        VisitedDepth(t, root, Parent(t, d), k - 1, d);
        var j: nat :| j <= k - 1 && Climbs(t, root, d, j);
        ClimbUnique(t, root, d, k, j);
      }
    }
  }

  /** No directory is deeper than there are inodes. */
  lemma ClimbBound(t: Tree, root: nat, d: nat, k: nat)
    requires Climbs(t, root, d, k) && IsDir(t, root)
    ensures k < |t.kind|
  {
    VisitedCount(t, root, d, k);
    CheckSpec.Below(Visited(t, root, d, k), |t.kind|);
  }

  /** A directory ino was made under that name: it has its dots, and nothing else changed. */
  ghost predicate Made(t: Tree, t': Tree, dir: nat, name: Name, ino: nat) {
    && ino < |t.kind| && t'.kind == t.kind[ino := Dir]
    && Has(t', dir, name) && At(t', dir, name) == ino && Parent(t', ino) == dir && At(t', ino, Dot) == ino
    && forall d: nat, n: Name {:trigger Has(t', d, n)} :: (d, n) != (dir, name) && d != ino ==>
         (Has(t', d, n) <==> Has(t, d, n)) && (Has(t', d, n) ==> At(t', d, n) == At(t, d, n))
  }

  /** What create and mkdir need: a directory, a name that is free in it, and a free inode. */
  ghost predicate MayCreate(t: Tree, dir: nat, name: Name) {
    IsDir(t, dir) && name.Plain? && !Has(t, dir, name) && exists i: nat {:trigger t.kind[i]} ::
        2 <= i < |t.kind| && t.kind[i].Free?
  }

  /** What create and mkdir answer. */
  ghost function CreateAnswer(t: Tree, dir: nat, name: Name): Errno {
    if !IsDir(t, dir) then ENOTDIR
    else if !name.Plain? || Has(t, dir, name) then EEXIST
    else if MayCreate(t, dir, name) then OK
    else ENOSPC
  }

  /** What rmdir answers. */
  ghost function RmdirAnswer(t: Tree, dir: nat, name: Name): Errno {
    if !Has(t, dir, name) then ENOENT
    else if !IsDir(t, At(t, dir, name)) then ENOTDIR
    else if !Empty(t, At(t, dir, name)) then ENOTEMPTY
    else OK
  }

  /** d lies below the directory anc, or is it, and anc is not the root. */
  ghost predicate Beneath(t: Tree, root: nat, anc: nat, d: nat) {
    exists k: nat {:trigger Climbs(t, root, d, k)} :: Climbs(t, root, d, k) && Above(t, root, anc, d, k)
  }

  /** When a rename is possible: there is something of that name, no directory goes below itself,
      and a target may be replaced and is of the same type, empty if a directory. */
  ghost predicate MayRename(t: Tree, root: nat, sdir: nat, sname: Name, tdir: nat, tname: Name, noreplace: bool) {
    var s, x := At(t, sdir, sname), At(t, tdir, tname);
    || (sdir, sname) == (tdir, tname)
    || (&& Has(t, sdir, sname) && (IsDir(t, s) ==> !Beneath(t, root, s, tdir))
        && (Has(t, tdir, tname) ==>
              !noreplace && (x == s || ((IsDir(t, s) <==> IsDir(t, x)) && (IsDir(t, x) ==> Empty(t, x))))))
  }

  /** What rename answers: the first of the reasons that hold. */
  ghost function RenameAnswer(t: Tree, root: nat, sdir: nat, sname: Name, tdir: nat, tname: Name,
      noreplace: bool): Errno {
    var s, x, dir := At(t, sdir, sname), At(t, tdir, tname), IsDir(t, At(t, sdir, sname));
    if (sdir, sname) == (tdir, tname) then OK
    else if !Has(t, sdir, sname) then ENOENT
    else if dir && Beneath(t, root, s, tdir) then EINVAL
    else if !Has(t, tdir, tname) then OK
    else if noreplace then EEXIST
    else if x == s then OK
    else if dir && !IsDir(t, x) then ENOTDIR
    else if !dir && IsDir(t, x) then EISDIR
    else if IsDir(t, x) && !Empty(t, x) then ENOTEMPTY
    else OK
  }

  /** It is possible exactly if nothing speaks against it. */
  lemma MayIsOk(t: Tree, root: nat, sdir: nat, sname: Name, tdir: nat, tname: Name, noreplace: bool)
    ensures MayRename(t, root, sdir, sname, tdir, tname, noreplace) <==>
            RenameAnswer(t, root, sdir, sname, tdir, tname, noreplace) == OK
  {
    hide Beneath, Empty;
  }

  /** A file that loses a name stays if it has another or its free is deferred; a directory
      does not stay. */
  predicate LivesOn(t: Tree, i: nat, defer: bool) {
    !IsDir(t, i) && (Link(t, i) > 1 || defer)
  }

  /** A rename moves something: it is possible, and the new name is not the old one nor names
      the same inode already. */
  ghost predicate Moves(t: Tree, root: nat, sdir: nat, sname: Name, tdir: nat, tname: Name, noreplace: bool) {
    && MayRename(t, root, sdir, sname, tdir, tname, noreplace) && (sdir, sname) != (tdir, tname)
    && !(Has(t, tdir, tname) && At(t, tdir, tname) == At(t, sdir, sname))
  }

  /** The counts that a rename raises do not pass the largest: that of what is renamed, for the
      time it has both names, and that of a directory's new parent.  A word that was raised
      past the largest comes back when it is lowered; a byte does not. */
  predicate RenameRoom(t: Tree, sdir: nat, sname: Name, tdir: nat, tname: Name) {
    var s := At(t, sdir, sname);
    && (t.width.Word? || Link(t, s) < LinkMax(t.width))
    && (IsDir(t, s) && sdir != tdir ==> Link(t, tdir) < LinkMax(t.width))
  }

  ghost predicate RenameFits(t: Tree, root: nat, sdir: nat, sname: Name, tdir: nat, tname: Name, noreplace: bool) {
    Moves(t, root, sdir, sname, tdir, tname, noreplace) ==> RenameRoom(t, sdir, sname, tdir, tname)
  }

  /** What a rename does: what had the old name has the new one, all other plain entries are as
      before, and only a replaced target is freed, if it is a directory or lost its last name
      and is not deferred. */
  ghost predicate RenameDone(t: Tree, t': Tree, sdir: nat, sname: Name, tdir: nat, tname: Name, defer: bool,
      rc: Errno) {
    var x := At(t, tdir, tname);
    && (rc != OK ==> t' == t)
    && (rc == OK && (sdir, sname) != (tdir, tname) ==>
          Has(t, sdir, sname) && Has(t', tdir, tname) && At(t', tdir, tname) == At(t, sdir, sname))
    && (rc == OK && t' != t ==>
          !Has(t', sdir, sname) && (sdir, sname) != (tdir, tname) && Renamed(t, t', sdir, sname, tdir, tname))
    && (forall i: nat {:trigger Live(t', i)} :: Live(t, i) && !Live(t', i) ==>
          rc == OK && Has(t, tdir, tname) && i == x && !defer)
    && (t' != t && Has(t, tdir, tname) ==> (Live(t', x) <==> LivesOn(t, x, defer)))
    && (forall i: nat {:trigger Live(t', i)} :: Live(t', i) ==> Live(t, i) && (IsDir(t', i) <==> IsDir(t, i)))
  }

  /** All other entries are as before. */
  ghost predicate Besides(t: Tree, t': Tree, dir: nat, name: Name) {
    forall d: nat, n: Name {:trigger Has(t', d, n)} :: (d, n) != (dir, name) ==>
      (Has(t', d, n) <==> Has(t, d, n)) && (Has(t', d, n) ==> At(t', d, n) == At(t, d, n))
  }

  /** All other inodes are as before. */
  ghost predicate Except(t: Tree, t': Tree, i: nat) {
    forall j: nat {:trigger Live(t', j)} {:trigger IsDir(t', j)} :: j != i ==>
      (Live(t', j) <==> Live(t, j)) && (IsDir(t', j) <==> IsDir(t, j))
  }

  // ---- what link and unlink write, whatever the counts ----

  /** A further name for src, and its count raised. */
  function Linked(t: Tree, src: nat, dir: nat, name: Name): Tree {
    PutLink(AddEntry(t, dir, name, src), src, Link(t, src) + 1)
  }

  /** One name less, and the count lowered: at 0 or below the inode is freed, unless deferred. */
  function Unlinked(t: Tree, dir: nat, name: Name, defer: bool): Tree {
    var i, t1 := At(t, dir, name), RemoveEntry(t, dir, name);
    var left := Int16(Link(t, i) - 1);
    if left <= 0 && !defer then Cleared(t1, i) else PutLink(t1, i, left)
  }

  /** The counts of the parents, once a directory went from one to the other. */
  function Recounted(t: Tree, sdir: nat, tdir: nat, had: bool): Tree {
    var t1 := if sdir != tdir && Link(t, sdir) > 1 then PutLink(t, sdir, Link(t, sdir) - 1) else t;
    var t2 := if sdir != tdir then PutLink(t1, tdir, Link(t1, tdir) + 1) else t1;
    if had && Link(t2, tdir) > 1 then PutLink(t2, tdir, Link(t2, tdir) - 1) else t2
  }

  // ---- the writes of an operation, in their order ----

  /** The inode first, then its name. */
  function CreateSteps(t: Tree, dir: nat, name: Name, ino: nat): seq<Step> {
    [Make(ino, File, 1), Enter(dir, name, ino, Link(t, dir))]
  }

  /** The inode and its dots, then its name, then the parent's count. */
  function MkdirSteps(t: Tree, dir: nat, name: Name, ino: nat): seq<Step> {
    [Make(ino, Dir, 2), Enter(ino, Dot, ino, 2), Enter(ino, DotDot, dir, 2), Enter(dir, name, ino, Link(t, dir)),
     Count(dir, Link(t, dir) + 1)]
  }

  /** The name first, then the count. */
  function LinkSteps(t: Tree, src: nat, dir: nat, name: Name): seq<Step> {
    [Enter(dir, name, src, Link(t, dir)), Count(src, Link(t, src) + 1)]
  }

  /** The name goes first, then the count is lowered or the inode freed. */
  function UnlinkSteps(t: Tree, dir: nat, name: Name, defer: bool): seq<Step> {
    var i := At(t, dir, name);
    var left := Int16(Link(t, i) - 1);
    [Leave(dir, name, Link(t, dir)), if left <= 0 && !defer then Clear(i) else Count(i, left)]
  }

  /** The name goes with the parent's count, then the inode. */
  function RmdirSteps(t: Tree, dir: nat, name: Name): seq<Step> {
    [Leave(dir, name, Link(t, dir) - 1), Clear(At(t, dir, name))]
  }

  function Lower(t: Tree, i: nat): int {
    if Link(t, i) > 1 then Link(t, i) - 1 else Link(t, i)
  }

  /** The old parent's count, the new one's, and for a replaced directory the new one's again. */
  function RecountSteps(t: Tree, sdir: nat, tdir: nat, had: bool): seq<Step> {
    var t1 := if sdir != tdir then PutLink(t, sdir, Lower(t, sdir)) else t;
    var t2 := if sdir != tdir then PutLink(t1, tdir, Link(t1, tdir) + 1) else t1;
    (if sdir != tdir then [Count(sdir, Lower(t, sdir)), Count(tdir, Link(t1, tdir) + 1)] else [])
      + if had then [Count(tdir, Lower(t2, tdir))] else []
  }

  /** A file: the target's name and count go, then link, unlink, and last the target is freed. */
  function MoveFileSteps(t: Tree, sdir: nat, sname: Name, tdir: nat, tname: Name, defer: bool): seq<Step> {
    var s, x, had := At(t, sdir, sname), At(t, tdir, tname), Has(t, tdir, tname);
    var less := Int16(Link(t, x) - 1);
    var t1 := if had then PutLink(RemoveEntry(t, tdir, tname), x, less) else t;
    (if had then [Leave(tdir, tname, Link(t, tdir)), Count(x, less)] else [])
      + LinkSteps(t1, s, tdir, tname) + UnlinkSteps(Linked(t1, s, tdir, tname), sdir, sname, false)
      + if had && Link(t1, x) == 0 && !defer then [Clear(x)] else []
  }

  /** A directory: the target's name goes, then link, unlink, the parents' counts, "..", and last
      the target. */
  function MoveDirSteps(t: Tree, sdir: nat, sname: Name, tdir: nat, tname: Name): seq<Step> {
    var s, x, had := At(t, sdir, sname), At(t, tdir, tname), Has(t, tdir, tname);
    var t1 := if had then RemoveEntry(t, tdir, tname) else t;
    var t2 := Linked(t1, s, tdir, tname);
    var t3 := Unlinked(t2, sdir, sname, false);
    var t4 := Recounted(t3, sdir, tdir, had);
    (if had then [Leave(tdir, tname, Link(t, tdir))] else [])
      + LinkSteps(t1, s, tdir, tname) + UnlinkSteps(t2, sdir, sname, false) + RecountSteps(t3, sdir, tdir, had)
      + [Leave(s, DotDot, Link(t4, s)), Enter(s, DotDot, tdir, Link(t4, s))]
      + if had then [Clear(x)] else []
  }

  /** What a rename writes. */
  ghost function RenameWrites(t: Tree, root: nat, sdir: nat, sname: Name, tdir: nat, tname: Name, noreplace: bool,
      defer: bool): seq<Step>
  {
    if !Moves(t, root, sdir, sname, tdir, tname, noreplace) then []
    else if IsDir(t, At(t, sdir, sname)) then MoveDirSteps(t, sdir, sname, tdir, tname)
    else MoveFileSteps(t, sdir, sname, tdir, tname, defer)
  }

  class Volume {
    const root: nat
    var t: Tree
    ghost const start: Tree       // the namespace at first
    var steps: seq<Step>          // every write since

    ghost predicate Ok()
      reads this
    {
      Good(t, root) && Ready()
    }

    /** What every write keeps, also where link counts went wrong. */
    ghost predicate Ready()
      reads this
    {
      Ranged(t) && root != 0 && !Live(t, 0) && Traced()
    }

    /** The namespace is what the writes made of the first one. */
    ghost predicate Traced()
      reads this
    {
      MayAll(start, steps) && t == TakeAll(start, steps)
    }

    constructor (t: Tree, root: nat)
      requires Good(t, root) && Ranged(t) && root != 0 && !Live(t, 0)
      ensures this.t == start == t && this.root == root && steps == [] && Ok()
    {
      this.t, this.root, start, steps := t, root, t, [];
    }

    /** Each write goes through here. */
    method Write(s: Step)
      requires Ready() && May(t, s)
      modifies this
      ensures Ready() && t == Take(old(t), s) && steps == old(steps) + [s] && t.width == old(t).width
    {
      TakeMore(start, steps, s);
      TakeRanged(t, s);
      t := Take(t, s);
      steps := steps + [s];
    }

    method AddName(d: nat, n: Name, i: nat)
      requires Ready() && IsDir(t, d) && !Has(t, d, n) && 1 <= i < |t.kind|
      modifies this
      ensures Ready() && t == AddEntry(old(t), d, n, i) && t.kind == old(t).kind
      ensures steps == old(steps) + [Enter(d, n, i, Link(old(t), d))]
      ensures forall e: nat, m: Name {:trigger Has(t, e, m)} :: Has(t, e, m) <==> Has(old(t), e, m) || (e, m) == (d, n)
    {
      hide TakeAll, MayAll, PutLink;
      PutAgain(AddEntry(t, d, n, i), d);
      Write(Enter(d, n, i, Link(t, d)));
    }

    method DropName(d: nat, n: Name)
      requires Ready() && IsDir(t, d) && Has(t, d, n)
      modifies this
      ensures Ready() && t == RemoveEntry(old(t), d, n) && t.kind == old(t).kind
      ensures steps == old(steps) + [Leave(d, n, Link(old(t), d))]
      ensures forall e: nat, m: Name {:trigger Has(t, e, m)} :: Has(t, e, m) <==> Has(old(t), e, m) && (e, m) != (d, n)
    {
      hide TakeAll, MayAll, PutLink;
      PutAgain(RemoveEntry(t, d, n), d);
      Write(Leave(d, n, Link(t, d)));
    }

    method SetCount(i: nat, k: int)
      requires Ready() && Live(t, i)
      modifies this
      ensures Ready() && t == PutLink(old(t), i, k) && t.kind == old(t).kind && steps == old(steps) + [Count(i, k)]
      ensures t.ents == old(t).ents && t.width == old(t).width
      ensures forall e: nat, m: Name {:trigger Has(t, e, m)} :: Has(t, e, m) <==> Has(old(t), e, m)
    {
      hide TakeAll, MayAll;
      Write(Count(i, k));
    }

    method MakeInode(i: nat, kind: Kind, k: int)
      requires Ready() && 1 <= i < |t.kind| && !Live(t, i) && !kind.Free? && 0 <= k <= 255
      modifies this
      ensures Ready() && t == SetLink(SetKind(old(t), i, kind), i, k) && steps == old(steps) + [Make(i, kind, k)]
      ensures forall e: nat, m: Name {:trigger Has(t, e, m)} :: Has(t, e, m) <==> Has(old(t), e, m)
    {
      hide TakeAll, MayAll;
      PutSame(SetKind(t, i, kind), i, k);
      Write(Make(i, kind, k));
    }

    method ClearInode(i: nat)
      requires Ready() && Live(t, i)
      modifies this
      ensures Ready() && t == Cleared(old(t), i) && steps == old(steps) + [Clear(i)]
    {
      hide TakeAll, MayAll;
      Write(Clear(i));
    }

    /** Whether anc lies on the way from dir up to the root; -ELOOP past 65535 steps. */
    method DirAncestor(anc: nat, dir: nat, ghost k: nat) returns (rc: Errno, above: bool)
      requires Climbs(t, root, dir, k) && root != 0 && !Live(t, 0)
      ensures rc == OK ==> (above <==> Above(t, root, anc, dir, k))
      ensures k < 0x1_0000 ==> rc == OK
      ensures rc in {OK, ELOOP}
    {
      var cur, guard := dir, 0;
      ghost var left := k;
      while cur != root && cur != 0 && guard < 0x1_0000
        invariant Climbs(t, root, cur, left) && guard + left == k
        invariant Above(t, root, anc, dir, k) <==> Above(t, root, anc, cur, left)
        decreases left
      {
        guard := guard + 1;
        if cur == anc {
          return OK, true;
        }
        cur := At(t, cur, DotDot);
        left := left - 1;
      }
      if guard >= 0x1_0000 {
        return ELOOP, false;
      }
      return OK, false;
    }

    /** Some free inode, or none if there is none. */
    method Ialloc() returns (ok: bool, ino: nat)
      ensures ok ==> 2 <= ino < |t.kind| && t.kind[ino].Free?
      ensures !ok ==> forall i: nat :: 2 <= i < |t.kind| ==> !t.kind[i].Free?
    {
      ino := *;
      if 2 <= ino < |t.kind| && t.kind[ino].Free? {
        return true, ino;
      }
      var i := 2;
      while i < |t.kind|
        invariant i >= 2 && forall j: nat :: 2 <= j < i && j < |t.kind| ==> !t.kind[j].Free?
      {
        if t.kind[i].Free? {
          return true, i;
        }
        i := i + 1;
      }
      return false, 0;
    }

    method Preflight(dir: nat, name: Name) returns (rc: Errno)
      ensures rc == OK <==> IsDir(t, dir) && name.Plain? && !Has(t, dir, name)
      ensures rc in {OK, ENOTDIR, EEXIST} && (rc == ENOTDIR <==> !IsDir(t, dir))
    {
      if !IsDir(t, dir) {
        return ENOTDIR;
      }
      if name == Dot || name == DotDot {
        return EEXIST;
      }
      return if Has(t, dir, name) then EEXIST else OK;
    }

    /** Entries other than those of the listed keys are as before. */
    twostate predicate Elsewhere(keys: set<Key>)
      reads this
    {
      forall d: nat, n: Name {:trigger Has(t, d, n)} :: (d, n) !in keys ==>
        (Has(t, d, n) <==> old(Has(t, d, n))) && (Has(t, d, n) ==> At(t, d, n) == old(At(t, d, n)))
    }

    method Create(dir: nat, name: Name) returns (rc: Errno, ino: nat)
      requires Ok()
      modifies this
      ensures Ok() && (rc != OK ==> t == old(t)) && rc == CreateAnswer(old(t), dir, name)
      ensures rc == OK ==>
              ino < |old(t).kind| && !old(Live(t, ino)) && t.kind == old(t).kind[ino := File] &&
              At(t, dir, name) == ino && Has(t, dir, name)
      ensures rc == OK ==> !old(Has(t, dir, name)) && Elsewhere({(dir, name)})
      ensures steps == old(steps) + if rc == OK then CreateSteps(old(t), dir, name, ino) else []
    {
      hide Good, TakeAll, MayAll;
      ino := 0;
      rc := Preflight(dir, name);
      if rc != OK {
        return;
      }
      var ok;
      ok, ino := Ialloc();
      if !ok {
        return ENOSPC, 0;
      }
      ghost var t0 := t;
      MakeInode(ino, File, 1);
      AddName(dir, name, ino);
      LinkFile(t0, root, dir, name, ino, t);
    }

    method Mkdir(dir: nat, name: Name) returns (rc: Errno, ino: nat)
      requires Ok()
      modifies this
      ensures Ready() && (rc != OK ==> t == old(t)) && rc == CreateAnswer(old(t), dir, name)
      ensures Ok() <==> rc != OK || old(Link(t, dir)) < LinkMax(old(t).width)
      ensures Counted(t) <==> rc != OK || old(Link(t, dir)) < LinkMax(old(t).width)
      ensures rc == OK ==> !old(Live(t, ino)) && !old(Has(t, dir, name)) && Made(old(t), t, dir, name, ino)
      ensures steps == old(steps) + if rc == OK then MkdirSteps(old(t), dir, name, ino) else []
      ensures t.width == old(t).width
    {
      hide Good, TakeAll, MayAll;
      GoodLive(t, root);
      ino := 0;
      rc := Preflight(dir, name);
      if rc != OK {
        return;
      }
      var ok;
      ok, ino := Ialloc();
      if !ok {
        return ENOSPC, 0;
      }
      ghost var t0 := t;
      NoEntries(t, root, ino);
      MakeInode(ino, Dir, 2);
      AddName(ino, Dot, ino);
      AddName(ino, DotDot, dir);
      AddName(dir, name, ino);
      ghost var t1 := t;
      SetCount(dir, Link(t, dir) + 1);
      RaiseOne(t1, dir);
      if Link(t0, dir) < LinkMax(t0.width) {
        MakeDirGood(t0, root, dir, name, ino);
        GoodCounts(t, root);
      } else {
        Wrapped(t, dir, (ino, DotDot));
        NotGood(t, root);
      }
    }

    /** A further name for src.  The name must be free: the operation does not look. */
    method LinkIn(src: nat, dir: nat, name: Name) returns (rc: Errno)
      requires Ok() && Live(t, src) && IsDir(t, dir) && name.Plain? && !Has(t, dir, name)
      modifies this
      ensures rc == OK ==>
              Has(t, dir, name) && At(t, dir, name) == src && Elsewhere({(dir, name)}) && t.kind == old(t).kind
      ensures Ready() && (rc == OK ==> t == Linked(old(t), src, dir, name) && EntriesLive(t))
      ensures Counted(t) <==> rc != OK || old(Link(t, src)) < LinkMax(old(t).width)
      ensures rc == OK && !old(IsDir(t, src)) ==> (Ok() <==> old(Link(t, src)) < LinkMax(old(t).width))
      ensures rc != OK ==> t == old(t) && IsDir(t, src) && rc in {EINVAL, ELOOP}
      ensures |old(t).kind| <= 0x1_0000 ==> rc != ELOOP
      ensures |old(t).kind| <= 0x1_0000 ==> (rc == OK <==> !(old(IsDir(t, src)) && Beneath(old(t), root, src, dir)))
      ensures steps == old(steps) + if rc == OK then LinkSteps(old(t), src, dir, name) else []
    {
      hide Good, TakeAll, MayAll;
      GoodLive(t, root);
      if IsDir(t, src) {
        var above;
        ghost var k := Depth(t, root, dir);
        rc, above := DirAncestor(src, dir, k);
        BeneathIs(t, root, src, dir, k);
        if rc != OK {
          return;
        }
        if above {
          return EINVAL;
        }
      }
      ghost var t0 := t;
      AddName(dir, name, src);
      ghost var t1 := t;
      SetCount(src, Link(t, src) + 1);
      RaiseOne(t1, src);
      LinkedLive(t0, src, dir, name);
      if Link(t0, src) < LinkMax(t0.width) {
        LinkCounts(t0, dir, name, src);
        if !IsDir(t0, src) {
          KindIs(t0, src);
          LinkFile(t0, root, dir, name, src, t);
        }
      } else {
        Wrapped(t, src, (dir, name));
        NotGood(t, root);
      }
      rc := OK;
    }

    /** Drop a name.  An inode whose count comes to 0 is freed, unless that is deferred; that
        is one without names, if the counts are right. */
    method UnlinkIn(dir: nat, name: Name, defer: bool) returns (rc: Errno)
      requires Ready() && EntriesLive(t) && IsDir(t, dir)
      modifies this
      ensures Ready() && |t.kind| == |old(t).kind| && t.width == old(t).width
      ensures (rc == ENOENT <==> !old(Has(t, dir, name))) && rc in {OK, ENOENT}
      ensures t == if rc == OK then Unlinked(old(t), dir, name, defer) else old(t)
      ensures steps == old(steps) + if rc == OK then UnlinkSteps(old(t), dir, name, defer) else []
      ensures old(Ok()) ==> Counted(t) && (Ok() <==> rc != OK || !old(IsDir(t, At(t, dir, name))))
      ensures old(Ok()) && rc == OK ==> !Has(t, dir, name) && Elsewhere({(dir, name)})
      ensures old(Ok()) && rc == OK ==> forall i: nat {:trigger Live(t, i)} :: Live(t, i) <==>
              old(Live(t, i)) && !(i == old(At(t, dir, name)) && old(Link(t, i)) == 1 && !defer)
      ensures old(Ok()) ==> forall i: nat {:trigger IsDir(t, i)} :: IsDir(t, i) <==> old(IsDir(t, i))
    {
      hide Good, Counted, TakeAll, MayAll, PutLink, Int16, Cleared;
      if old(Ok()) {
        GoodCounts(t, root);
      }
      if !Has(t, dir, name) {
        return ENOENT;
      }
      ghost var t0 := t;
      var ino := At(t, dir, name);
      DropName(dir, name);
      var left := Int16(Link(t, ino) - 1);
      if left <= 0 && !defer {
        ClearInode(ino);
      } else {
        SetCount(ino, left);
      }
      if old(Ok()) {
        UnlinkedGood(t0, root, dir, name, defer);
      }
      ClearedSize(RemoveEntry(t0, dir, name), ino);
      rc := OK;
    }

    method Rmdir(dir: nat, name: Name) returns (rc: Errno)
      requires Ok() && IsDir(t, dir) && name.Plain?
      modifies this
      ensures Ok() && (rc != OK ==> t == old(t))
      ensures rc == RmdirAnswer(old(t), dir, name)
      ensures rc == OK ==> t.kind == old(t).kind[old(At(t, dir, name)) := Free] && !Has(t, dir, name)
      ensures rc == OK ==>
              forall d: nat, n: Name {:trigger Has(t, d, n)} :: d != old(At(t, dir, name)) && (d, n) != (dir, name) ==>
                (Has(t, d, n) <==> old(Has(t, d, n))) && (Has(t, d, n) ==> At(t, d, n) == old(At(t, d, n)))
      ensures steps == old(steps) + if rc == OK then RmdirSteps(old(t), dir, name) else []
    {
      hide Good, TakeAll, MayAll;
      if !Has(t, dir, name) {
        return ENOENT;
      }
      var ino := At(t, dir, name);
      if !IsDir(t, ino) {
        return ENOTDIR;
      }
      var e := IsEmpty(ino);
      if !e {
        return ENOTEMPTY;
      }
      ghost var t0 := t;
      ChildDir(t, root, dir, name);
      OneName(t, root, dir, name);
      var left := Int16(Link(t, ino) - 1);
      if left > 1 {
        assert false;
      }
      ParentLinks(t, root, dir, name);
      GoodLive(t, root);
      PutSame(RemoveEntry(t, dir, name), dir, Link(t, dir) - 1);
      Write(Leave(dir, name, Link(t, dir) - 1));
      ClearInode(ino);
      assert t == RemoveDir(t0, dir, name, Link(t0, ino));
      RemoveDirRelation(t0, root, dir, name, Link(t0, ino));
      RemoveDirGood(t0, root, dir, name, Link(t0, ino));
      return OK;
    }

    /** Free an inode that lost its last name while it was open; `fine` says whether the writes
        succeed. */
    method FreeIno(ino: nat, fine: bool) returns (ok: bool)
      requires Ready() && Live(t, ino) && !IsDir(t, ino)
      modifies this
      ensures Ready() && (old(Ok()) && old(Link(t, ino)) <= 0 ==> Ok()) &&
              (EntriesLive(old(t)) ==> t.ents == old(t).ents)
      ensures ok ==> t == Cleared(old(t), ino)
      ensures !ok ==> t == old(t)
      ensures ok == fine
    {
      hide Good, TakeAll, MayAll;
      ok := fine;
      if ok {
        if Ok() && Link(t, ino) <= 0 {
          FreeFile(t, root, ino);
        }
        if EntriesLive(t) {
          assert forall k :: k in t.ents ==> Has(t, k.0, k.1);
        }
        ClearInode(ino);
      }
    }

    method IsEmpty(x: nat) returns (e: bool)
      ensures e <==> Empty(t, x)
    {
      e := forall k | k in t.ents :: k.0 == x ==> !k.1.Plain?;
      if e {
        assert Empty(t, x);
      } else {
        var k :| k in t.ents && k.0 == x && k.1.Plain?;
        assert Has(t, x, k.1);
      }
    }

    /** Give what sname names the name tname, replacing a target of the same type; a replaced
        directory must be empty.  A directory is not moved below itself. */
    method Rename(sdir: nat, sname: Name, tdir: nat, tname: Name, noreplace: bool, defer: bool) returns (rc: Errno)
      requires Ok() && |t.kind| <= 0x1_0000 && IsDir(t, sdir) && IsDir(t, tdir) && sname.Plain? && tname.Plain?
      requires defer && Has(t, tdir, tname) ==> !IsDir(t, At(t, tdir, tname))
      modifies this
      ensures Ready() && |t.kind| == |old(t).kind| && t.width == old(t).width
      ensures Ok() <==> RenameFits(old(t), root, sdir, sname, tdir, tname, noreplace)
      ensures RenameFits(old(t), root, sdir, sname, tdir, tname, noreplace) ==>
              && rc == RenameAnswer(old(t), root, sdir, sname, tdir, tname, noreplace)
              && steps == old(steps) + RenameWrites(old(t), root, sdir, sname, tdir, tname, noreplace, defer)
              && RenameDone(old(t), t, sdir, sname, tdir, tname, defer, rc)
      ensures !Moves(old(t), root, sdir, sname, tdir, tname, noreplace) ==> t == old(t)
    {
      hide Good, TakeAll, MayAll;
      if sdir == tdir && sname == tname {
        return OK;
      }
      if !Has(t, sdir, sname) {
        return ENOENT;
      }
      var sino := At(t, sdir, sname);
      NamedLive(t, root, sdir, sname);
      ghost var k := Depth(t, root, tdir);
      if IsDir(t, sino) {
        var above;
        rc, above := DirAncestor(sino, tdir, k);
        BeneathIs(t, root, sino, tdir, k);
        if above {
          return EINVAL;
        }
      }
      if Has(t, tdir, tname) {
        var tino := At(t, tdir, tname);
        NamedLive(t, root, tdir, tname);
        if noreplace {
          return EEXIST;
        }
        if tino == sino {
          return OK;
        }
        if IsDir(t, sino) && !IsDir(t, tino) {
          return ENOTDIR;
        }
        if !IsDir(t, sino) && IsDir(t, tino) {
          return EISDIR;
        }
        if IsDir(t, tino) {
          var e := IsEmpty(tino);
          if !e {
            return ENOTEMPTY;
          }
        }
      }
      hide RenameDone, Empty, Climbs, Above, Beneath;
      if IsDir(t, sino) {
        rc := RenameDir(sdir, sname, tdir, tname, k);
        if RenameRoom(old(t), sdir, sname, tdir, tname) {
          DoneDefer(old(t), t, sdir, sname, tdir, tname, defer);
        }
      } else {
        RenameFile(sdir, sname, tdir, tname, defer);
        rc := OK;
      }
    }

    /** Link under the new name, then unlink the old one: what is renamed is freed if its count
        went wrong on the way. */
    method Shift(s: nat, sdir: nat, sname: Name, tdir: nat, tname: Name) returns (gone: bool)
      requires Ready() && IsDir(t, sdir) && IsDir(t, tdir) && Live(t, s) && 1 <= s < |t.nlink|
      requires (sdir, sname) != (tdir, tname)
      requires Has(t, sdir, sname) && At(t, sdir, sname) == s && !Has(t, tdir, tname)
      modifies this
      ensures Ready() && t == Unlinked(Linked(old(t), s, tdir, tname), sdir, sname, false)
      ensures steps == old(steps) + LinkSteps(old(t), s, tdir, tname) +
                       UnlinkSteps(Linked(old(t), s, tdir, tname), sdir, sname, false)
      ensures gone <==> Int16(LinkOf(old(t).width, Link(old(t), s) + 1) - 1) <= 0
    {
      hide TakeAll, MayAll, Int16, LinkOf, Cleared;
      AddName(tdir, tname, s);
      SetCount(s, Link(t, s) + 1);
      DropName(sdir, sname);
      var left := Int16(Link(t, s) - 1);
      gone := left <= 0;
      if gone {
        ClearInode(s);
      } else {
        SetCount(s, left);
      }
    }

    /** The steps of a rename of a file: drop the target's name, link, unlink, free. */
    method RenameFile(sdir: nat, sname: Name, tdir: nat, tname: Name, defer: bool)
      requires Ok() && IsDir(t, sdir) && IsDir(t, tdir) && sname.Plain? && tname.Plain? &&
               (sdir, sname) != (tdir, tname)
      requires Has(t, sdir, sname) && !IsDir(t, At(t, sdir, sname))
      requires Has(t, tdir, tname) ==> At(t, tdir, tname) != At(t, sdir, sname) && !IsDir(t, At(t, tdir, tname))
      modifies this
      ensures Ready() && |t.kind| == |old(t).kind| && t.width == old(t).width
      ensures steps == old(steps) + MoveFileSteps(old(t), sdir, sname, tdir, tname, defer)
      ensures Ok() <==> RenameRoom(old(t), sdir, sname, tdir, tname)
      ensures RenameRoom(old(t), sdir, sname, tdir, tname) ==>
              RenameDone(old(t), t, sdir, sname, tdir, tname, defer, OK)
    {
      hide Good, TakeAll, MayAll, PutLink, SetLink, Int16, LinkOf, Cleared, Linked, Unlinked, RenameDone;
      ghost var t0 := t;
      var sino := At(t, sdir, sname);
      var tino, freeTarget := 0, false;
      NamedLive(t, root, sdir, sname);
      SourceLive(t, root, sdir, sname);
      if Has(t, tdir, tname) {
        tino := At(t, tdir, tname);
        NamedLive(t, root, tdir, tname);
        LowerSame(t, root, tdir, tname);
        DropName(tdir, tname);
        SetCount(tino, Int16(Link(t, tino) - 1));
        UnlinkFile(t0, root, tdir, tname, t);
        freeTarget := Link(t, tino) == 0;
      }
      ghost var t1 := t;
      TargetDropped(t0, sdir, sname, tdir, tname, t1);
      var gone := Shift(sino, sdir, sname, tdir, tname);
      ghost var t2 := t;
      ShiftFile(t1, root, sino, sdir, sname, tdir, tname);
      if freeTarget && !defer {
        if !gone {
          FreeFile(t, root, tino);
        }
        ClearInode(tino);
      }
      RenamedFile(t0, t1, t2, t, root, sino, tino, sdir, sname, tdir, tname, freeTarget, defer, gone);
    }

    method Recount(sdir: nat, tdir: nat, had: bool)
      requires Ready() && Live(t, sdir) && Live(t, tdir)
      modifies this
      ensures Ready() && t == Recounted(old(t), sdir, tdir, had)
      ensures steps == old(steps) + RecountSteps(old(t), sdir, tdir, had)
      ensures t == old(t).(nlink := t.nlink) && |t.nlink| == |old(t).nlink|
    {
      hide TakeAll, MayAll, LinkOf;
      if sdir != tdir {
        PutAgain(t, sdir);
        SetCount(sdir, Lower(t, sdir));
        SetCount(tdir, Link(t, tdir) + 1);
      }
      if had {
        PutAgain(t, tdir);
        SetCount(tdir, Lower(t, tdir));
      }
    }

    /** The steps of a rename of a directory: drop the target's name, link, unlink, move the
        parents' counts, rewrite "..", free the target. */
    method RenameDir(sdir: nat, sname: Name, tdir: nat, tname: Name, ghost k: nat) returns (rc: Errno)
      requires Ok() && IsDir(t, sdir) && IsDir(t, tdir) && sname.Plain? && tname.Plain? &&
               (sdir, sname) != (tdir, tname)
      requires Has(t, sdir, sname) && IsDir(t, At(t, sdir, sname))
      requires Climbs(t, root, tdir, k) && !Above(t, root, At(t, sdir, sname), tdir, k)
      requires Has(t, tdir, tname) ==>
                 At(t, tdir, tname) != At(t, sdir, sname) && IsDir(t, At(t, tdir, tname)) &&
                     Empty(t, At(t, tdir, tname))
      modifies this
      ensures Ready() && |t.kind| == |old(t).kind| && t.width == old(t).width
      ensures Ok() <==> RenameRoom(old(t), sdir, sname, tdir, tname)
      ensures RenameRoom(old(t), sdir, sname, tdir, tname) ==>
              && rc == OK && RenameDone(old(t), t, sdir, sname, tdir, tname, false, OK)
              && steps == old(steps) + MoveDirSteps(old(t), sdir, sname, tdir, tname)
    {
      hide Good, Empty, Climbs, Above, PutLink, SetLink, Int16, LinkOf, Cleared, Linked, Unlinked, Recounted,
           RenameDone, RenameSteps, TakeAll, MayAll, LinkSteps, UnlinkSteps, RecountSteps, MoveDirSteps;
      ghost var t0 := t;
      var sino := At(t, sdir, sname);
      var tino, had := 0, Has(t, tdir, tname);
      RenameApart(t, root, sdir, sname, tdir, tname, k);
      GoodRenameable(t, root, sdir, sname, tdir, tname, k);
      if had {
        tino := At(t, tdir, tname);
        DropName(tdir, tname);
      }
      ghost var t1 := t;
      SourceLive(t0, root, sdir, sname);
      var gone := Shift(sino, sdir, sname, tdir, tname);
      ghost var t2 := t;
      ShiftFacts(t1, sino, sdir, sname, tdir, tname, gone);
      GoneRoom(t0, root, t1, sdir, sname, tdir, tname);
      Recount(sdir, tdir, had);
      ghost var t3 := t;
      if gone {
        DeadName(t3, root, sino, tdir, tname);
        return ENOENT;
      }
      DotDotStays(t0, root, t1, t2, t3, sino, sdir, sname, tdir, tname);
      DropName(sino, DotDot);
      AddName(sino, DotDot, tdir);
      ClearedSize(t, tino);
      if had {
        ClearInode(tino);
      }
      rc := OK;
      if RenameRoom(t0, sdir, sname, tdir, tname) {
        RenameAsSteps(t0, root, t1, t2, t3, t, sdir, sname, tdir, tname, k);
        RenameDirGood(t0, root, sdir, sname, tdir, tname, k);
        DirDone(t0, t, sdir, sname, tdir, tname);
        MoveDirIs(t0, sdir, sname, tdir, tname, old(steps), steps);
      } else {
        RenameWraps(t0, root, t1, t2, t3, t, sdir, sname, tdir, tname, k);
      }
    }
  }

  // ---- renames and their counts ----

  lemma MoveDirIs(t: Tree, sdir: nat, sname: Name, tdir: nat, tname: Name, a: seq<Step>, b: seq<Step>)
    requires var s, x, had := At(t, sdir, sname), At(t, tdir, tname), Has(t, tdir, tname);
             var t1 := if had then RemoveEntry(t, tdir, tname) else t;
             var t2 := Linked(t1, s, tdir, tname);
             var t3 := Unlinked(t2, sdir, sname, false);
             var t4 := Recounted(t3, sdir, tdir, had);
             var b1 := if had then a + [Leave(tdir, tname, Link(t, tdir))] else a;
             var b2 := b1 + LinkSteps(t1, s, tdir, tname) + UnlinkSteps(t2, sdir, sname, false);
             var b3 := b2 + RecountSteps(t3, sdir, tdir, had) + [Leave(s, DotDot, Link(t4, s))];
             var b4 := b3 + [Enter(s, DotDot, tdir, Link(t4, s))];
             b == if had then b4 + [Clear(x)] else b4
    ensures b == a + MoveDirSteps(t, sdir, sname, tdir, tname)
  {
    hide LinkSteps, UnlinkSteps, RecountSteps, Linked, Unlinked, Recounted, RemoveEntry;
  }

  lemma SourceLive(t: Tree, root: nat, d: nat, n: Name)
    requires Good(t, root) && Ranged(t) && !Live(t, 0) && Has(t, d, n)
    ensures var i := At(t, d, n);
            1 <= i < |t.kind| && |t.nlink| == |t.kind| && Live(t, i) && 1 <= Link(t, i) <= LinkMax(t.width)
  {
    hide Good;
    NamedLive(t, root, d, n);
    assert Link(t, At(t, d, n)) == t.nlink[At(t, d, n)];
  }

  lemma LowerSame(t: Tree, root: nat, d: nat, n: Name)
    requires Good(t, root) && Ranged(t) && !Live(t, 0) && Has(t, d, n)
    ensures var i, t1 := At(t, d, n), RemoveEntry(t, d, n);
            && Int16(Link(t, i) - 1) == Link(t, i) - 1 && Link(t1, i) == Link(t, i)
            && PutLink(t1, i, Link(t, i) - 1) == SetLink(t1, i, Link(t, i) - 1)
  {
    hide Good, LinkOf, Int16;
    SourceLive(t, root, d, n);
    PutSame(RemoveEntry(t, d, n), At(t, d, n), Link(t, At(t, d, n)) - 1);
  }

  /** A file that is replaced loses its name, and nothing else changes. */
  lemma TargetDropped(t: Tree, sdir: nat, sname: Name, tdir: nat, tname: Name, t1: Tree)
    requires Has(t, sdir, sname) && (sdir, sname) != (tdir, tname)
    requires var s, x := At(t, sdir, sname), At(t, tdir, tname);
             if Has(t, tdir, tname) then x != s && t1 == SetLink(RemoveEntry(t, tdir, tname), x, Link(t, x) - 1)
             else t1 == t
    ensures Has(t1, sdir, sname) && At(t1, sdir, sname) == At(t, sdir, sname) && !Has(t1, tdir, tname)
    ensures t1.kind == t.kind && t1.width == t.width && Link(t1, At(t, sdir, sname)) == Link(t, At(t, sdir, sname))
    ensures Has(t, tdir, tname) && At(t, tdir, tname) < |t.nlink| ==>
            Link(t1, At(t, tdir, tname)) == Link(t, At(t, tdir, tname)) - 1
  {
  }

  /** Where the count comes back, linking and unlinking leave it as it was. */
  lemma ShiftedRaw(t: Tree, s: nat, sdir: nat, sname: Name, tdir: nat, tname: Name)
    requires s < |t.nlink| && 1 <= Link(t, s) <= LinkMax(t.width) && (t.width.Word? || Link(t, s) < LinkMax(t.width))
    requires At(t, sdir, sname) == s && Has(t, sdir, sname) && (sdir, sname) != (tdir, tname)
    ensures var raised := SetLink(AddEntry(t, tdir, tname, s), s, Link(t, s) + 1);
            Unlinked(Linked(t, s, tdir, tname), sdir, sname, false) ==
            SetLink(RemoveEntry(raised, sdir, sname), s, Link(t, s))
  {
    hide LinkOf, Int16;
    UpDown(t.width, Link(t, s));
    var linked := Linked(t, s, tdir, tname);
    assert At(linked, sdir, sname) == s && Link(linked, s) == LinkOf(t.width, Link(t, s) + 1);
  }

  lemma ShiftFile(t: Tree, root: nat, s: nat, sdir: nat, sname: Name, tdir: nat, tname: Name)
    requires Good(t, root) && Ranged(t) && !Live(t, 0) && IsDir(t, tdir) && tname.Plain? && !IsDir(t, s)
    requires Has(t, sdir, sname) && At(t, sdir, sname) == s && !Has(t, tdir, tname)
    ensures var t', L := Unlinked(Linked(t, s, tdir, tname), sdir, sname, false), Link(t, s);
            && (t.width.Word? || L < LinkMax(t.width) ==>
                  && Good(t', root) && t'.kind == t.kind && Int16(LinkOf(t.width, L + 1) - 1) == L > 0
                  && t'.ents == RemoveEntry(AddEntry(t, tdir, tname, s), sdir, sname).ents && t'.nlink == t.nlink)
            && (t.width.Byte? && L >= LinkMax(t.width) ==>
                  && Int16(LinkOf(t.width, L + 1) - 1) <= 0
                  && t' == Cleared(RemoveEntry(Linked(t, s, tdir, tname), sdir, sname), s))
            && (forall j: nat {:trigger Live(t', j)} :: j != s ==> (Live(t', j) <==> Live(t, j)))
  {
    hide Good, LinkOf, Int16;
    SourceLive(t, root, sdir, sname);
    UpDown(t.width, Link(t, s));
    var linked := Linked(t, s, tdir, tname);
    assert At(linked, sdir, sname) == s && Link(linked, s) == LinkOf(t.width, Link(t, s) + 1);
    if t.width.Word? || Link(t, s) < LinkMax(t.width) {
      ShiftedRaw(t, s, sdir, sname, tdir, tname);
      var raised := SetLink(AddEntry(t, tdir, tname, s), s, Link(t, s) + 1);
      KindIs(t, s);
      LinkFile(t, root, tdir, tname, s, raised);
      UnlinkFile(raised, root, sdir, sname, SetLink(RemoveEntry(raised, sdir, sname), s, Link(t, s)));
    }
  }

  /** An entry that names a free inode: the tree is broken. */
  lemma DeadName(t: Tree, root: nat, s: nat, d: nat, n: Name)
    requires Has(t, d, n) && At(t, d, n) == s && !Live(t, s)
    ensures !Good(t, root)
  {
  }

  /** The outcome of a rename of a file. */
  lemma RenamedFile(t0: Tree, t1: Tree, t2: Tree, t: Tree, root: nat, s: nat, x: nat, sdir: nat, sname: Name, tdir: nat,
      tname: Name, free: bool, defer: bool, gone: bool)
    requires Good(t0, root) && Ranged(t0) && !Live(t0, 0) && IsDir(t0, tdir) && tname.Plain? && sname.Plain?
    requires Has(t0, sdir, sname) && At(t0, sdir, sname) == s && !IsDir(t0, s) && (sdir, sname) != (tdir, tname)
    requires if Has(t0, tdir, tname)
             then x == At(t0, tdir, tname) && x != s && !IsDir(t0, x) && (free <==> Link(t0, x) == 1)
                  && t1 == SetLink(RemoveEntry(t0, tdir, tname), x, Link(t0, x) - 1)
             else t1 == t0 && !free
    requires Good(t1, root) && Ranged(t1)
    requires t2 == Unlinked(Linked(t1, s, tdir, tname), sdir, sname, false)
    requires gone <==> Int16(LinkOf(t1.width, Link(t1, s) + 1) - 1) <= 0
    requires t == (if free && !defer then Cleared(t2, x) else t2) && (free && !defer && !gone ==> Good(t, root))
    ensures Good(t, root) <==> RenameRoom(t0, sdir, sname, tdir, tname)
    ensures RenameRoom(t0, sdir, sname, tdir, tname) ==> RenameDone(t0, t, sdir, sname, tdir, tname, defer, OK)
    ensures |t.kind| == |t0.kind| && t.width == t0.width
  {
    hide Good, LinkOf, Int16;
    TargetDropped(t0, sdir, sname, tdir, tname, t1);
    ShiftFile(t1, root, s, sdir, sname, tdir, tname);
    SourceLive(t0, root, sdir, sname);
    if Has(t0, tdir, tname) {
      SourceLive(t0, root, tdir, tname);
    }
    GoodLive(t0, root);
    if gone {
      assert Has(t, tdir, tname) && At(t, tdir, tname) == s && !Live(t, s);
      DeadName(t, root, s, tdir, tname);
    } else {
      FileDone(t0, t2, t, root, s, x, sdir, sname, tdir, tname, free, defer);
    }
  }

  lemma FileDone(t0: Tree, t2: Tree, t: Tree, root: nat, s: nat, x: nat, sdir: nat, sname: Name, tdir: nat, tname: Name,
      free: bool, defer: bool)
    requires Good(t0, root) && IsDir(t0, tdir) && tname.Plain? && sname.Plain? && |t0.nlink| == |t0.kind|
    requires Has(t0, sdir, sname) && At(t0, sdir, sname) == s && !IsDir(t0, s) && (sdir, sname) != (tdir, tname)
    requires Has(t0, tdir, tname) ==>
             x == At(t0, tdir, tname) && x != s && Live(t0, x) && !IsDir(t0, x) && (free <==> Link(t0, x) == 1) &&
                 Link(t0, x) >= 1
    requires !Has(t0, tdir, tname) ==> !free
    requires t2.kind == t0.kind
    requires t2.ents == RemoveEntry(AddEntry(RemoveEntry(t0, tdir, tname), tdir, tname, s), sdir, sname).ents
    requires t == (if free && !defer then Cleared(t2, x) else t2)
    ensures RenameDone(t0, t, sdir, sname, tdir, tname, defer, OK)
  {
    hide Counted, Dotted, NamedOnce, Acyclic;
    forall d: nat, n: Name {:trigger Has(t, d, n)}
      ensures (d, n) != (tdir, tname) && (d, n) != (sdir, sname) ==>
              (Has(t, d, n) <==> Has(t0, d, n)) && (Has(t, d, n) ==> At(t, d, n) == At(t0, d, n))
    {
      if Has(t0, d, n) {
        assert IsDir(t0, d);
      }
    }
  }

  lemma DoneDefer(t: Tree, t': Tree, sdir: nat, sname: Name, tdir: nat, tname: Name, defer: bool)
    requires RenameDone(t, t', sdir, sname, tdir, tname, false, OK) && (Has(t, tdir, tname) ==> !defer)
    ensures RenameDone(t, t', sdir, sname, tdir, tname, defer, OK)
  {
    hide Renamed;
  }

  /** A directory after the link and the unlink: freed if its count went wrong. */
  lemma ShiftFacts(t: Tree, s: nat, sdir: nat, sname: Name, tdir: nat, tname: Name, gone: bool)
    requires Has(t, sdir, sname) && At(t, sdir, sname) == s && s < |t.nlink| == |t.kind| &&
             (sdir, sname) != (tdir, tname)
    requires IsDir(t, sdir) && IsDir(t, tdir) && IsDir(t, s) && s != sdir && s != tdir
    requires gone <==> Int16(LinkOf(t.width, Link(t, s) + 1) - 1) <= 0
    ensures var t' := Unlinked(Linked(t, s, tdir, tname), sdir, sname, false);
            && t'.width == t.width && |t'.kind| == |t.kind| && |t'.nlink| == |t.nlink|
            && IsDir(t', sdir) && IsDir(t', tdir) && Has(t', tdir, tname) && At(t', tdir, tname) == s
            && (if gone then !Live(t', s) else t'.kind == t.kind)
            && (forall j: nat {:trigger Link(t', j)} :: j != s ==> Link(t', j) == Link(t, j))
            && (!gone ==> t'.ents == RemoveEntry(AddEntry(t, tdir, tname, s), sdir, sname).ents)
  {
    hide LinkOf, Int16;
    var linked := Linked(t, s, tdir, tname);
    assert At(linked, sdir, sname) == s && Link(linked, s) == LinkOf(t.width, Link(t, s) + 1);
  }

  /** What is freed on the way had the largest count of a byte. */
  lemma GoneRoom(t: Tree, root: nat, t1: Tree, sdir: nat, sname: Name, tdir: nat, tname: Name)
    requires Good(t, root) && Ranged(t) && !Live(t, 0) && Has(t, sdir, sname)
    requires t1 == if Has(t, tdir, tname) then RemoveEntry(t, tdir, tname) else t
    ensures var s := At(t, sdir, sname);
            Int16(LinkOf(t1.width, Link(t1, s) + 1) - 1) <= 0 <==> t.width.Byte? && Link(t, s) >= LinkMax(t.width)
  {
    hide Good, LinkOf, Int16;
    SourceLive(t, root, sdir, sname);
    UpDown(t.width, Link(t, At(t, sdir, sname)));
  }

  lemma DotDotStays(t0: Tree, root: nat, t1: Tree, t2: Tree, t3: Tree, s: nat, sdir: nat, sname: Name, tdir: nat,
      tname: Name)
    requires Has(t0, s, DotDot) && sname.Plain? && tname.Plain? && IsDir(t0, s) && IsDir(t0, tdir) && !Live(t0, 0)
    requires t1 == if Has(t0, tdir, tname) then RemoveEntry(t0, tdir, tname) else t0
    requires t2.kind == t1.kind && t2.ents == RemoveEntry(AddEntry(t1, tdir, tname, s), sdir, sname).ents
    requires t3 == t2.(nlink := t3.nlink)
    ensures Has(t3, s, DotDot) && t3.kind == t0.kind && 1 <= tdir < |t3.kind|
    ensures Has(t0, tdir, Dot) && At(t0, tdir, Dot) == tdir ==> Has(t3, tdir, Dot) && At(t3, tdir, Dot) == tdir
  {
  }

  /** The counts of the parents as far as they fit. */
  lemma RecountedRaw(t: Tree, sdir: nat, tdir: nat, had: bool)
    requires Ranged(t) && sdir < |t.nlink| && tdir < |t.nlink| && (sdir != tdir ==> Link(t, tdir) < LinkMax(t.width))
    ensures Recounted(t, sdir, tdir, had) == RawRecount(t, sdir, tdir, had)
  {
    hide PutLink, LinkOf;
    PutAt(t, sdir, -1);
    var t1 := if sdir != tdir && Link(t, sdir) > 1 then SetLink(t, sdir, Link(t, sdir) - 1) else t;
    PutAt(t1, tdir, 1);
    var t2 := if sdir != tdir then SetLink(t1, tdir, Link(t1, tdir) + 1) else t1;
    PutAt(t2, tdir, -1);
  }

  lemma PutAt(t: Tree, i: nat, k: int)
    ensures LinkMin(t.width) <= Link(t, i) + k <= LinkMax(t.width) ==>
            PutLink(t, i, Link(t, i) + k) == SetLink(t, i, Link(t, i) + k)
    ensures i < |t.nlink| && Ranged(t) ==> LinkMin(t.width) <= Link(t, i) <= LinkMax(t.width)
  {
    LinkSame(t.width, Link(t, i) + k);
  }

  lemma ShiftedAsSteps(t0: Tree, root: nat, t1: Tree, t2: Tree, sdir: nat, sname: Name, tdir: nat, tname: Name, k: nat)
    requires Renameable(t0, root, sdir, sname, tdir, tname, k) && Ranged(t0) && !Live(t0, 0)
    requires RenameRoom(t0, sdir, sname, tdir, tname)
    requires t1 == if Has(t0, tdir, tname) then RemoveEntry(t0, tdir, tname) else t0
    requires t2 == Unlinked(Linked(t1, At(t0, sdir, sname), tdir, tname), sdir, sname, false)
    ensures var s := At(t0, sdir, sname);
            t2 == SetLink(RemoveEntry(SetLink(AddEntry(t1, tdir, tname, s), s, Link(t1, s) + 1), sdir, sname), s,
                Link(t1, s))
    ensures Link(t2, tdir) == Link(t0, tdir) && tdir < |t2.nlink| && sdir < |t2.nlink| && t2.width == t0.width
    ensures sdir != tdir ==> Link(t0, tdir) < LinkMax(t0.width)
  {
    var s := At(t0, sdir, sname);
    RenameApart(t0, root, sdir, sname, tdir, tname, k);
    GoodRenameable(t0, root, sdir, sname, tdir, tname, k);
    hide Renameable, Good, Cleared, LinkOf, Int16;
    SourceLive(t0, root, sdir, sname);
    ShiftedRaw(t1, s, sdir, sname, tdir, tname);
    hide Linked, Unlinked, Ranged;
  }

  lemma RenameAsSteps(t0: Tree, root: nat, t1: Tree, t2: Tree, t3: Tree, t: Tree, sdir: nat, sname: Name, tdir: nat,
      tname: Name, k: nat)
    requires Renameable(t0, root, sdir, sname, tdir, tname, k) && Ranged(t0) && !Live(t0, 0) && Ranged(t2)
    requires RenameRoom(t0, sdir, sname, tdir, tname)
    requires t1 == if Has(t0, tdir, tname) then RemoveEntry(t0, tdir, tname) else t0
    requires var s, x, had := At(t0, sdir, sname), At(t0, tdir, tname), Has(t0, tdir, tname);
             && t2 == Unlinked(Linked(t1, s, tdir, tname), sdir, sname, false)
             && t3 == Recounted(t2, sdir, tdir, had)
             && var t9 := AddEntry(RemoveEntry(t3, s, DotDot), s, DotDot, tdir);
             t == if had then Cleared(t9, x) else t9
    ensures t == RenameSteps(t0, sdir, sname, tdir, tname)
  {
    hide Renameable, Good, Ranged, RenameRoom, Live, IsDir, Has, At, AddEntry, RemoveEntry, SetLink, Cleared, Link,
         Linked, Unlinked, Recounted, RawRecount, LinkMax;
    var s := At(t0, sdir, sname);
    ghost var raised := SetLink(AddEntry(t1, tdir, tname, s), s, Link(t1, s) + 1);
    assert t2 == SetLink(RemoveEntry(raised, sdir, sname), s, Link(t1, s)) && Link(t2, tdir) == Link(t0, tdir)
           && tdir < |t2.nlink| && sdir < |t2.nlink| && t2.width == t0.width
           && (sdir != tdir ==> Link(t0, tdir) < LinkMax(t0.width)) by {
      ShiftedAsSteps(t0, root, t1, t2, sdir, sname, tdir, tname, k);
    }
    RecountedRaw(t2, sdir, tdir, Has(t0, tdir, tname));
  }

  lemma GoodRenameable(t: Tree, root: nat, sdir: nat, sname: Name, tdir: nat, tname: Name, k: nat)
    requires Renameable(t, root, sdir, sname, tdir, tname, k)
    ensures Good(t, root) && Has(t, sdir, sname) && (sdir, sname) != (tdir, tname) && IsDir(t, tdir)
    ensures Has(t, tdir, Dot) && At(t, tdir, Dot) == tdir
  {
    hide Counted, EntriesLive, NamedOnce, Acyclic;
  }

  /** A new parent whose count was the largest counts none or less afterwards, though it names
      itself. */
  lemma RenameWraps(t0: Tree, root: nat, t1: Tree, t2: Tree, t3: Tree, t: Tree, sdir: nat, sname: Name, tdir: nat,
      tname: Name, k: nat)
    requires Renameable(t0, root, sdir, sname, tdir, tname, k) && Ranged(t0) && !Live(t0, 0)
    requires sdir != tdir && Link(t0, tdir) >= LinkMax(t0.width)
    requires var s, x, had := At(t0, sdir, sname), At(t0, tdir, tname), Has(t0, tdir, tname);
             && t2.width == t0.width && Ranged(t2) && |t2.nlink| == |t2.kind| && Link(t2, tdir) == Link(t0, tdir)
             && t3 == Recounted(t2, sdir, tdir, had) && t3.kind == t0.kind
             && Has(t3, tdir, Dot) && At(t3, tdir, Dot) == tdir
             && var t9 := AddEntry(RemoveEntry(t3, s, DotDot), s, DotDot, tdir);
             t == if had then Cleared(t9, x) else t9
    ensures !Good(t, root)
  {
    RenameApart(t0, root, sdir, sname, tdir, tname, k);
    GoodRenameable(t0, root, sdir, sname, tdir, tname, k);
    hide Renameable, Good, LinkOf, PutLink;
    RecountWraps(t2, sdir, tdir, Has(t0, tdir, tname));
    hide Recounted;
    assert Link(t, tdir) == Link(t3, tdir);
    Wrapped(t, tdir, (tdir, Dot));
    NotGood(t, root);
  }

  lemma RecountWraps(t: Tree, sdir: nat, tdir: nat, had: bool)
    requires Ranged(t) && sdir != tdir < |t.nlink| && Link(t, tdir) >= LinkMax(t.width)
    ensures var t' := Recounted(t, sdir, tdir, had);
            Link(t', tdir) <= 0 && t'.kind == t.kind && t'.ents == t.ents && |t'.nlink| == |t.nlink|
  {
    hide LinkOf, PutLink;
    var t1 := if Link(t, sdir) > 1 then PutLink(t, sdir, Link(t, sdir) - 1) else t;
    PutElsewhere(t, sdir, Link(t, sdir) - 1, tdir);
    RaiseOne(t1, tdir);
    PutElsewhere(t1, tdir, Link(t1, tdir) + 1, tdir);
  }

  lemma PutElsewhere(t: Tree, i: nat, k: int, j: nat)
    requires Ranged(t)
    ensures var t' := PutLink(t, i, k);
            t'.width == t.width && |t'.nlink| == |t.nlink| && Ranged(t') && t'.kind == t.kind && t'.ents == t.ents
            && (j != i ==> Link(t', j) == Link(t, j))
  {
    PutRanged(t, i, k);
  }

  lemma DirDone(t: Tree, t': Tree, sdir: nat, sname: Name, tdir: nat, tname: Name)
    requires Has(t, sdir, sname) && (sdir, sname) != (tdir, tname) && !Has(t', sdir, sname)
    requires Renamed(t, t', sdir, sname, tdir, tname) && (Has(t, tdir, tname) ==> IsDir(t, At(t, tdir, tname)))
    requires forall i: nat {:trigger Live(t', i)} :: Live(t', i) <==>
             Live(t, i) && !(Has(t, tdir, tname) && i == At(t, tdir, tname))
    requires forall i: nat {:trigger Live(t', i)} :: Live(t', i) ==> (IsDir(t', i) <==> IsDir(t, i))
    ensures RenameDone(t, t', sdir, sname, tdir, tname, false, OK)
  {
  }

  lemma NotGood(t: Tree, root: nat)
    requires !Counted(t)
    ensures !Good(t, root)
  {
  }

  lemma GoodLive(t: Tree, root: nat)
    requires Good(t, root)
    ensures Counted(t) && EntriesLive(t) && |t.nlink| == |t.kind|
  {
  }

  lemma ClearedSize(t: Tree, i: nat)
    ensures |Cleared(t, i).kind| == |t.kind| && Cleared(t, i).width == t.width
  {
  }

  lemma LinkedLive(t: Tree, src: nat, dir: nat, name: Name)
    requires EntriesLive(t) && Live(t, src) && IsDir(t, dir)
    ensures EntriesLive(Linked(t, src, dir, name))
  {
    var t' := Linked(t, src, dir, name);
    forall d: nat, n: Name {:trigger Has(t', d, n)} | Has(t', d, n)
      ensures IsDir(t', d) && Live(t', At(t', d, n))
    {
      if (d, n) != (dir, name) {
        assert Has(t, d, n);
      }
    }
  }

  /** Where the counts are right, unlink frees an inode exactly with its last name, and keeps the
      tree exactly if that was no directory. */
  lemma UnlinkedGood(t: Tree, root: nat, dir: nat, name: Name, defer: bool)
    requires Good(t, root) && Ranged(t) && Has(t, dir, name)
    ensures var t', i := Unlinked(t, dir, name, defer), At(t, dir, name);
            && Counted(t') && (Good(t', root) <==> !IsDir(t, i)) && !Has(t', dir, name)
            && (forall d: nat, n: Name {:trigger Has(t', d, n)} :: (d, n) != (dir, name) ==>
                  (Has(t', d, n) <==> Has(t, d, n)) && (Has(t', d, n) ==> At(t', d, n) == At(t, d, n)))
            && (forall j: nat {:trigger Live(t', j)} ::
                  Live(t', j) <==> Live(t, j) && !(j == i && Link(t, j) == 1 && !defer))
            && (forall j: nat {:trigger IsDir(t', j)} :: IsDir(t', j) <==> IsDir(t, j))
  {
    hide Good, Counted;
    var i, t1 := At(t, dir, name), RemoveEntry(t, dir, name);
    GoodCounts(t, root);
    NamedLive(t, root, dir, name);
    LinkSame(t.width, Link(t, i) - 1);
    assert LinkMin(t.width) <= 0 && Link(t, i) <= LinkMax(t.width) by {
      assert t.nlink[i] == Link(t, i);
    }
    PutSame(t1, i, Link(t, i) - 1);
    var left, t2 := Link(t, i) - 1, SetLink(t1, i, Link(t, i) - 1);
    hide PutLink, LinkOf, Int16;
    UnlinkCounts(t, dir, name);
    if IsDir(t, i) {
      SelfNamed(t, root, dir, name);
      Unnamed(t, root, dir, name, t2);
    } else {
      PlainFile(t, root, dir, name);
      UnlinkFile(t, root, dir, name, t2);
      if left <= 0 {
        FreeUncounted(t1, t2, root, i);
        GoodCounts(Cleared(t1, i), root);
      }
    }
  }

  /** A free inode has no entries. */
  lemma NoEntries(t: Tree, root: nat, i: nat)
    requires Good(t, root) && !Live(t, i)
    ensures forall n: Name :: !Has(t, i, n)
  {
    hide Counted, Dotted, NamedOnce, Acyclic;
  }

  /** Whether or not its last link count is written down, a file without names may be freed. */
  lemma FreeUncounted(t: Tree, t1: Tree, root: nat, i: nat)
    requires Good(t1, root) && t1 == t.(nlink := t1.nlink) && |t.nlink| == |t1.nlink| && Live(t, i) && !IsDir(t, i) &&
             Link(t1, i) <= 0
    requires forall j: nat :: j < |t.nlink| && j != i ==> t.nlink[j] == t1.nlink[j]
    ensures Good(Cleared(t, i), root) && Cleared(t, i).ents == t.ents
  {
    hide Dotted, NamedOnce, Acyclic, EntriesLive;
    FreeFile(t1, root, i);
    var c, c1 := Cleared(t, i), Cleared(t1, i);
    assert c == c1.(nlink := c.nlink);
    assert forall j: nat :: Refs(c, j) == Refs(c1, j);
    CountsElsewhere(c, c1, root, i);
  }

  lemma CountsElsewhere(c: Tree, c1: Tree, root: nat, i: nat)
    requires Good(c1, root) && c == c1.(nlink := c.nlink) && |c.nlink| == |c1.nlink| && !Live(c, i)
    requires forall j: nat :: j < |c.nlink| && j != i ==> c.nlink[j] == c1.nlink[j]
    ensures Good(c, root)
  {
    assert SameTree(c1, c);
    hide Dotted, NamedOnce, Acyclic;
    FilesOnly(c1, c, root);
    assert forall e: nat, m: Name {:trigger Has(c, e, m)} :: Has(c, e, m) ==>
           Has(c1, e, m) && At(c, e, m) == At(c1, e, m);
    forall j: nat {:trigger c.nlink[j]} | Live(c, j) && j < |c.nlink|
      ensures c.nlink[j] == |Refs(c, j)|
    {
      assert Refs(c, j) == Refs(c1, j);
      assert c1.nlink[j] == |Refs(c1, j)|;
    }
  }

  lemma BeneathIs(t: Tree, root: nat, anc: nat, d: nat, k: nat)
    requires Climbs(t, root, d, k)
    ensures Beneath(t, root, anc, d) <==> Above(t, root, anc, d, k)
  {
    if Beneath(t, root, anc, d) {
      var l: nat :| Climbs(t, root, d, l) && Above(t, root, anc, d, l);
      ClimbUnique(t, root, d, k, l);
    }
  }

  lemma Depth(t: Tree, root: nat, d: nat) returns (k: nat)
    requires Good(t, root) && IsDir(t, d)
    ensures Climbs(t, root, d, k) && k < |t.kind|
  {
    k :| Climbs(t, root, d, k);
    ClimbBound(t, root, d, k);
  }

  lemma GoodCounts(t: Tree, root: nat)
    requires Good(t, root)
    ensures Counted(t)
  {
  }

  /** A directory is linked at least twice: it names itself, and its parent or the root's own
      ".." names it. */
  lemma SelfNamed(t: Tree, root: nat, d: nat, n: Name)
    requires Good(t, root) && Has(t, d, n) && IsDir(t, At(t, d, n))
    ensures Link(t, At(t, d, n)) >= 2
  {
    hide Acyclic;
    var x := At(t, d, n);
    assert Has(t, x, Dot) && At(t, x, Dot) == x;
    var other: Key := (d, n);
    if n.Dot? {
      assert IsDir(t, d) && At(t, d, Dot) == d;
      if d == root {
        other := (d, DotDot);
      } else {
        var m: Name :| m.Plain? && Has(t, Parent(t, d), m) && At(t, Parent(t, d), m) == d;
        other := (Parent(t, d), m);
      }
    }
    assert {other, (x, Dot)} <= Refs(t, x);
    Subset({other, (x, Dot)}, Refs(t, x));
    assert Link(t, x) == t.nlink[x];
  }

  /** Only plain names name files. */
  lemma PlainFile(t: Tree, root: nat, d: nat, n: Name)
    requires Good(t, root) && Has(t, d, n) && !IsDir(t, At(t, d, n))
    ensures n.Plain?
  {
    hide Counted, NamedOnce, Acyclic;
    assert IsDir(t, d) && IsDir(t, Parent(t, d));
  }

  /** A directory that lost its name, or one of its dots, is not part of the tree any more. */
  lemma Unnamed(t: Tree, root: nat, d: nat, n: Name, t': Tree)
    requires Good(t, root) && Has(t, d, n) && IsDir(t, At(t, d, n))
    requires t'.kind == t.kind && t'.ents == t.ents - {(d, n)}
    ensures !Good(t', root)
  {
    hide Counted, Acyclic;
    var x := At(t, d, n);
    assert IsDir(t, d) && IsDir(t', d) && IsDir(t', x) && !Has(t', d, n);
    if n.Plain? {
      ChildDir(t, root, d, n);
      assert Parent(t', x) == d;
      forall m: Name {:trigger Has(t', d, m)} | m.Plain? && Has(t', d, m)
        ensures At(t', d, m) != x
      {
        assert Has(t, d, m) && m != n;
      }
    }
  }

  lemma KindIs(t: Tree, i: nat)
    requires Live(t, i) && !IsDir(t, i)
    ensures SetKind(t, i, File) == t
  {
  }

  lemma NamedLive(t: Tree, root: nat, d: nat, n: Name)
    requires Good(t, root) && Has(t, d, n)
    ensures Live(t, At(t, d, n)) && |t.nlink| == |t.kind|
    ensures Link(t, At(t, d, n)) >= 1
  {
    var i := At(t, d, n);
    assert Link(t, i) == t.nlink[i];
    assert (d, n) in Refs(t, i);
  }

  /** An empty directory of the tree has two links: its own and its name. */
  lemma OneName(t: Tree, root: nat, d: nat, n: Name)
    requires Good(t, root) && Has(t, d, n) && n.Plain? && IsDir(t, At(t, d, n)) && Empty(t, At(t, d, n))
    ensures Link(t, At(t, d, n)) == 2
  {
    var x := At(t, d, n);
    ChildDir(t, root, d, n);
    forall k: Key | k in Refs(t, x)
      ensures k == (d, n) || k == (x, Dot)
    {
      assert Has(t, k.0, k.1);
      if k.1.DotDot? {
        NoChild(t, root, x, k.0);
      }
    }
    assert Refs(t, x) == {(d, n), (x, Dot)};
    assert Link(t, x) == t.nlink[x];
  }

  /** The whole effect of a rename on the names: the plain entries are those of before, without
      the old name, and with the new one naming what the old one did. */
  ghost predicate Renamed(t: Tree, t': Tree, sdir: nat, sname: Name, tdir: nat, tname: Name) {
    && Has(t', tdir, tname) && At(t', tdir, tname) == At(t, sdir, sname)
    && forall d: nat, n: Name {:trigger Has(t', d, n)} ::
         n.Plain? && (d, n) != (tdir, tname) && (d, n) != (sdir, sname) ==>
         (Has(t', d, n) <==> Has(t, d, n)) && (Has(t', d, n) ==> At(t', d, n) == At(t, d, n))
  }

  /** The table after the steps of a rename of a directory, as values. */
  function RenameSteps(t: Tree, sdir: nat, sname: Name, tdir: nat, tname: Name): Tree {
    var sino, tino, had := At(t, sdir, sname), At(t, tdir, tname), Has(t, tdir, tname);
    var t1 := if had then RemoveEntry(t, tdir, tname) else t;
    var t3 := SetLink(AddEntry(t1, tdir, tname, sino), sino, Link(t1, sino) + 1);
    var t5 := SetLink(RemoveEntry(t3, sdir, sname), sino, Link(t1, sino));
    var t8 := RawRecount(t5, sdir, tdir, had);
    var t9 := AddEntry(RemoveEntry(t8, sino, DotDot), sino, DotDot, tdir);
    if had then Cleared(t9, tino) else t9
  }

  function RawRecount(t: Tree, sdir: nat, tdir: nat, had: bool): Tree {
    var t1 := if sdir != tdir && Link(t, sdir) > 1 then SetLink(t, sdir, Link(t, sdir) - 1) else t;
    var t2 := if sdir != tdir then SetLink(t1, tdir, Link(t1, tdir) + 1) else t1;
    if had && Link(t2, tdir) > 1 then SetLink(t2, tdir, Link(t2, tdir) - 1) else t2
  }

  ghost predicate Renameable(t: Tree, root: nat, sdir: nat, sname: Name, tdir: nat, tname: Name, k: nat) {
    && Good(t, root) && IsDir(t, tdir) && sname.Plain? && tname.Plain? && (sdir, sname) != (tdir, tname)
    && Has(t, sdir, sname) && IsDir(t, At(t, sdir, sname))
    && Climbs(t, root, tdir, k) && !Above(t, root, At(t, sdir, sname), tdir, k)
    && (Has(t, tdir, tname) ==>
         At(t, tdir, tname) != At(t, sdir, sname) && IsDir(t, At(t, tdir, tname)) && Empty(t, At(t, tdir, tname)))
  }

  /** Source, target and their parents do not coincide where it would matter. */
  lemma RenameApart(t: Tree, root: nat, sdir: nat, sname: Name, tdir: nat, tname: Name, k: nat)
    requires Renameable(t, root, sdir, sname, tdir, tname, k)
    ensures var s, x := At(t, sdir, sname), At(t, tdir, tname);
            && s != sdir && s != tdir && s < |t.nlink| && |t.nlink| == |t.kind|
            && (Has(t, tdir, tname) ==> x != tdir && x != sdir && x < |t.nlink| && Link(t, tdir) > 1)
            && Link(t, sdir) > 1 && IsDir(t, sdir) && Has(t, s, DotDot)
  {
    hide Counted, Refs, NamedOnce, Acyclic, EntriesLive, Dotted;
    var s, x := At(t, sdir, sname), At(t, tdir, tname);
    ChildDir(t, root, sdir, sname);
    RenameLinks(t, root, sdir, sname, tdir, tname);
    AboveSelf(t, root, s, tdir, k);
    ChildNotRoot(t, root, sdir, sname);
    if Has(t, tdir, tname) {
      ChildDir(t, root, tdir, tname);
      assert Has(t, sdir, sname);
    }
  }

  lemma ChildNotRoot(t: Tree, root: nat, d: nat, n: Name)
    requires Good(t, root) && Has(t, d, n) && n.Plain? && IsDir(t, At(t, d, n))
    ensures At(t, d, n) != root
  {
    ChildDir(t, root, d, n);
  }

  lemma AboveSelf(t: Tree, root: nat, s: nat, d: nat, k: nat)
    requires Climbs(t, root, d, k) && !Above(t, root, s, d, k)
    ensures d == s ==> s == root
  {
  }

  /** What is left of entry (e, m), and what it names. */
  predicate Left(t: Tree, sdir: nat, sname: Name, tdir: nat, tname: Name, e: nat, m: Name) {
    || (e == tdir && m == tname)
    || (Has(t, e, m) && !(e == sdir && m == sname) && !(Has(t, tdir, tname) && e == At(t, tdir, tname)))
  }

  function NowAt(t: Tree, sdir: nat, sname: Name, tdir: nat, tname: Name, e: nat, m: Name): nat {
    var s := At(t, sdir, sname);
    if e == tdir && m == tname then s else if e == s && m == DotDot then tdir else At(t, e, m)
  }

  lemma StepsEntries(t: Tree, sdir: nat, sname: Name, tdir: nat, tname: Name, e: nat, m: Name)
    requires var s, x := At(t, sdir, sname), At(t, tdir, tname);
             && s != sdir && s != tdir && Has(t, s, DotDot) &&
                  (Has(t, tdir, tname) ==> x != tdir && x != sdir && x != s)
             && (sdir, sname) != (tdir, tname) && sname.Plain? && tname.Plain?
    ensures var a := RenameSteps(t, sdir, sname, tdir, tname);
            && (Has(a, e, m) <==> Left(t, sdir, sname, tdir, tname, e, m))
            && (Has(a, e, m) ==> At(a, e, m) == NowAt(t, sdir, sname, tdir, tname, e, m))
  {
    var s, x, had := At(t, sdir, sname), At(t, tdir, tname), Has(t, tdir, tname);
    var t1 := if had then RemoveEntry(t, tdir, tname) else t;
    var t2 := AddEntry(t1, tdir, tname, s);
    var t4 := RemoveEntry(t2, sdir, sname);
    var t9 := AddEntry(RemoveEntry(t4, s, DotDot), s, DotDot, tdir);
    var t10 := if had then Cleared(t9, x) else t9;
    StepsEnts(t, sdir, sname, tdir, tname);
    hide RenameSteps, AddEntry, RemoveEntry, Cleared, Has, At;
    EntRemove(t, tdir, tname, e, m);
    EntAdd(t1, tdir, tname, s, e, m);
    EntRemove(t2, sdir, sname, e, m);
    EntRemove(t4, s, DotDot, e, m);
    EntAdd(RemoveEntry(t4, s, DotDot), s, DotDot, tdir, e, m);
    EntClear(t9, x, e, m);
    EntSame(t10, RenameSteps(t, sdir, sname, tdir, tname), e, m);
  }

  lemma StepsEnts(t: Tree, sdir: nat, sname: Name, tdir: nat, tname: Name)
    ensures var s, x, had := At(t, sdir, sname), At(t, tdir, tname), Has(t, tdir, tname);
            var t1 := if had then RemoveEntry(t, tdir, tname) else t;
            var t4 := RemoveEntry(AddEntry(t1, tdir, tname, s), sdir, sname);
            var t9 := AddEntry(RemoveEntry(t4, s, DotDot), s, DotDot, tdir);
            RenameSteps(t, sdir, sname, tdir, tname).ents == (if had then Cleared(t9, x) else t9).ents
  {
  }

  lemma EntAdd(t: Tree, d: nat, n: Name, i: nat, e: nat, m: Name)
    ensures var t' := AddEntry(t, d, n, i);
            && (Has(t', e, m) <==> Has(t, e, m) || (e == d && m == n))
            && At(t', e, m) == if e == d && m == n then i else At(t, e, m)
  {
  }

  lemma EntRemove(t: Tree, d: nat, n: Name, e: nat, m: Name)
    ensures var t' := RemoveEntry(t, d, n);
            && (Has(t', e, m) <==> Has(t, e, m) && !(e == d && m == n))
            && (Has(t', e, m) ==> At(t', e, m) == At(t, e, m))
  {
  }

  lemma EntClear(t: Tree, x: nat, e: nat, m: Name)
    ensures var t' := Cleared(t, x);
            && (Has(t', e, m) <==> Has(t, e, m) && e != x)
            && (Has(t', e, m) ==> At(t', e, m) == At(t, e, m))
  {
  }

  lemma EntSame(t: Tree, t': Tree, e: nat, m: Name)
    requires t'.ents == t.ents
    ensures Has(t', e, m) == Has(t, e, m) && At(t', e, m) == At(t, e, m)
  {
  }

  lemma EffectEntries(t: Tree, root: nat, sdir: nat, sname: Name, tdir: nat, tname: Name, t1: Tree, e: nat, m: Name)
    requires t1 == if Has(t, tdir, tname) then RemoveDir(t, tdir, tname, Link(t, At(t, tdir, tname))) else t
    requires Movable(t1, root, sdir, sname, tdir, tname) && (sdir, sname) != (tdir, tname) && sname.Plain?
    requires Has(t, tdir, tname) ==>
             Good(t, root) && tname.Plain? && IsDir(t, At(t, tdir, tname)) && Empty(t, At(t, tdir, tname)) &&
             At(t, tdir, tname) != tdir
    requires Has(t, sdir, sname) && (Has(t, tdir, tname) ==> At(t, tdir, tname) != sdir)
    ensures var b := MoveDir(t1, sdir, sname, tdir, tname);
            && (Has(b, e, m) <==> Left(t, sdir, sname, tdir, tname, e, m))
            && (Has(b, e, m) ==> At(b, e, m) == NowAt(t, sdir, sname, tdir, tname, e, m))
  {
    hide MoveDir, RemoveDir, Good, Climbs, Above;
    MoveDirRelation(t1, root, sdir, sname, tdir, tname);
    if Has(t, tdir, tname) {
      RemoveDirRelation(t, root, tdir, tname, Link(t, At(t, tdir, tname)));
    }
    assert Has(t1, sdir, sname);
    assert At(t1, sdir, sname) == At(t, sdir, sname);
  }

  lemma SameEntries(a: Tree, b: Tree)
    requires forall e: nat, m: Name :: (Has(a, e, m) <==> Has(b, e, m)) && (Has(a, e, m) ==> At(a, e, m) == At(b, e, m))
    ensures a.ents == b.ents
  {
    forall key: Key
      ensures key in a.ents <==> key in b.ents
      ensures key in a.ents ==> a.ents[key] == b.ents[key]
    {
      assert Has(a, key.0, key.1) <==> Has(b, key.0, key.1);
      assert Has(a, key.0, key.1) ==> At(a, key.0, key.1) == At(b, key.0, key.1);
    }
  }

  lemma RenameLinked(t: Tree, sdir: nat, sname: Name, tdir: nat, tname: Name, j: nat)
    requires var s, x := At(t, sdir, sname), At(t, tdir, tname);
             && s != sdir && s != tdir && s < |t.nlink| && |t.nlink| == |t.kind| && sdir < |t.nlink| && tdir < |t.nlink|
             && (Has(t, tdir, tname) ==> x != tdir && x != sdir && x != s && x < |t.nlink| && Link(t, tdir) > 1)
             && Link(t, sdir) > 1 && j < |t.nlink|
    ensures var a := RenameSteps(t, sdir, sname, tdir, tname);
            && a.kind == (if Has(t, tdir, tname) then t.kind[At(t, tdir, tname) := Free] else t.kind) &&
                 |a.nlink| == |t.nlink|
            && Link(a, j) == Link(t, j) - (if j == sdir then 1 else 0) +
                 (if j == tdir then 1 else 0) - (if j == tdir && Has(t, tdir, tname) then 1 else 0)
  {
  }

  /** The steps of a rename of a directory keep the tree, and do what a rename promises. */
  lemma RenameDirGood(t: Tree, root: nat, sdir: nat, sname: Name, tdir: nat, tname: Name, k: nat)
    requires Renameable(t, root, sdir, sname, tdir, tname, k)
    ensures var t' := RenameSteps(t, sdir, sname, tdir, tname);
            && Good(t', root) && |t'.kind| == |t.kind| && !Has(t', sdir, sname) &&
                 Renamed(t, t', sdir, sname, tdir, tname)
            && (forall i: nat {:trigger Live(t', i)} :: Live(t', i) <==>
                 Live(t, i) && !(Has(t, tdir, tname) && i == At(t, tdir, tname)))
            && (forall i: nat {:trigger Live(t', i)} :: Live(t', i) ==> (IsDir(t', i) <==> IsDir(t, i)))
  {
    hide Good, Climbs, Above, RenameSteps, MoveDir, RemoveDir, Empty;
    RenameApart(t, root, sdir, sname, tdir, tname, k);
    var t1, s, x := t, At(t, sdir, sname), At(t, tdir, tname);
    if Has(t, tdir, tname) {
      t1 := RemoveDir(t, tdir, tname, Link(t, x));
      RemoveDirRelation(t, root, tdir, tname, Link(t, x));
      RemoveDirGood(t, root, tdir, tname, Link(t, x));
      RemovedClimb(t, root, tdir, tname, Link(t, x), s, tdir, k);
      RemovedKinds(t, root, tdir, tname, Link(t, x));
    }
    assert Movable(t1, root, sdir, sname, tdir, tname);
    MoveDirRelation(t1, root, sdir, sname, tdir, tname);
    MoveDirGood(t1, root, sdir, sname, tdir, tname);
    var t2, t' := MoveDir(t1, sdir, sname, tdir, tname), RenameSteps(t, sdir, sname, tdir, tname);
    RenamedBoth(t, t1, t2, sdir, sname, tdir, tname);
    forall e: nat, m: Name
      ensures (Has(t', e, m) <==> Has(t2, e, m)) && (Has(t', e, m) ==> At(t', e, m) == At(t2, e, m))
    {
      StepsEntries(t, sdir, sname, tdir, tname, e, m);
      EffectEntries(t, root, sdir, sname, tdir, tname, t1, e, m);
    }
    SameEntries(t', t2);
    RenameLinked(t, sdir, sname, tdir, tname, s);
    forall j: nat | j < |t.nlink|
      ensures t'.nlink[j] == t2.nlink[j] || (Has(t, tdir, tname) && j == x)
    {
      RenameLinked(t, sdir, sname, tdir, tname, j);
      assert Link(t2, j) == t2.nlink[j] && Link(t', j) == t'.nlink[j];
    }
    SameButFree(t2, t', root);
  }

  lemma RemovedKinds(t: Tree, root: nat, d: nat, n: Name, link: int)
    requires At(t, d, n) < |t.kind|
    ensures RemoveDir(t, d, n, link).kind == t.kind[At(t, d, n) := Free]
  {
  }

  /** The link count of a free inode does not matter. */
  lemma SameButFree(t: Tree, t': Tree, root: nat)
    requires Good(t, root) && t'.kind == t.kind && t'.ents == t.ents && |t'.nlink| == |t.nlink|
    requires forall j: nat {:trigger t'.nlink[j]} :: j < |t.nlink| && Live(t, j) ==> t'.nlink[j] == t.nlink[j]
    ensures Good(t', root)
  {
    assert SameTree(t, t');
    FilesOnly(t, t', root);
    forall e: nat, m: Name {:trigger Has(t', e, m)} | Has(t', e, m)
      ensures IsDir(t', e) && Live(t', At(t', e, m))
    {
      assert Has(t, e, m);
    }
    forall j: nat {:trigger t'.nlink[j]} | Live(t', j) && j < |t'.nlink|
      ensures t'.nlink[j] == |Refs(t', j)|
    {
      SameRefs(t, t', j);
      assert t.nlink[j] == |Refs(t, j)|;
    }
  }

  lemma RenamedBoth(t: Tree, t1: Tree, t2: Tree, sdir: nat, sname: Name, tdir: nat, tname: Name)
    requires Has(t, sdir, sname) && At(t1, sdir, sname) == At(t, sdir, sname) && (sdir, sname) != (tdir, tname) &&
             tname.Plain?
    requires forall e: nat, m: Name {:trigger Has(t1, e, m)} :: m.Plain? && (e, m) != (tdir, tname) ==>
               (Has(t1, e, m) <==> Has(t, e, m)) && (Has(t1, e, m) ==> At(t1, e, m) == At(t, e, m))
    requires forall e: nat, m: Name {:trigger Has(t2, e, m)} :: Has(t2, e, m) <==>
             (Has(t1, e, m) && !(e == sdir && m == sname)) || (e == tdir && m == tname)
    requires forall e: nat, m: Name {:trigger At(t2, e, m)} :: Has(t2, e, m) && m.Plain? ==>
               At(t2, e, m) == if e == tdir && m == tname then At(t, sdir, sname) else At(t1, e, m)
    ensures Renamed(t, t2, sdir, sname, tdir, tname) && !Has(t2, sdir, sname)
  {
  }

  /** Removing an empty directory leaves every other way up, and what it meets. */
  lemma RemovedClimb(t: Tree, root: nat, d: nat, n: Name, link: int, s: nat, e: nat, k: nat)
    requires Good(t, root) && Has(t, d, n) && n.Plain? && IsDir(t, At(t, d, n)) && Empty(t, At(t, d, n))
    requires Climbs(t, root, e, k) && !Above(t, root, s, e, k) && e != At(t, d, n)
    ensures var t' := RemoveDir(t, d, n, link); Climbs(t', root, e, k) && !Above(t', root, s, e, k)
  {
    hide Counted, Refs, RemoveDir, Climbs, Above;
    var t', x := RemoveDir(t, d, n, link), At(t, d, n);
    ChildDir(t, root, d, n);
    RemoveDirRelation(t, root, d, n, link);
    forall c: nat {:trigger IsDir(t, c)} | IsDir(t, c) && c != x
      ensures IsDir(t', c) && Parent(t', c) == Parent(t, c) && Parent(t, c) != x
    {
      assert Has(t, c, DotDot);
      NoChild(t, root, x, c);
      assert Has(t', c, DotDot);
    }
    ClimbAvoid(t, t', root, x, e, k);
    AboveSame(t, t', root, s, x, e, k);
  }

  lemma {:induction false} AboveSame(t: Tree, t': Tree, root: nat, s: nat, x: nat, e: nat, k: nat)
    requires Climbs(t, root, e, k) && e != x && x != root
    requires forall c: nat {:trigger IsDir(t, c)} :: IsDir(t, c) && c != x ==>
             Parent(t', c) == Parent(t, c) && Parent(t, c) != x
    ensures Above(t', root, s, e, k) <==> Above(t, root, s, e, k)
    decreases k
  {
    if k > 0 {
      AboveSame(t, t', root, s, x, Parent(t, e), k - 1);
    }
  }

  /** The parents' link counts never drop below what the guards check. */
  lemma RenameLinks(t: Tree, root: nat, sdir: nat, sname: Name, tdir: nat, tname: Name)
    requires Good(t, root) && Has(t, sdir, sname) && sname.Plain? && IsDir(t, At(t, sdir, sname))
    ensures |t.nlink| == |t.kind| && Link(t, sdir) > 1 && At(t, sdir, sname) != sdir && IsDir(t, sdir) &&
            Has(t, At(t, sdir, sname), DotDot)
    ensures Has(t, tdir, tname) && tname.Plain? && IsDir(t, At(t, tdir, tname)) ==> Link(t, tdir) > 1
  {
    ParentLinks(t, root, sdir, sname);
    ChildDir(t, root, sdir, sname);
    if Has(t, tdir, tname) && tname.Plain? && IsDir(t, At(t, tdir, tname)) {
      ParentLinks(t, root, tdir, tname);
    }
  }

  lemma ParentLinks(t: Tree, root: nat, d: nat, n: Name)
    requires Good(t, root) && Has(t, d, n) && n.Plain? && IsDir(t, At(t, d, n))
    ensures |t.nlink| == |t.kind| && Link(t, d) > 1 && At(t, d, n) != d && IsDir(t, d)
  {
    var x := At(t, d, n);
    ChildDir(t, root, d, n);
    assert Has(t, d, Dot) && At(t, d, Dot) == d;
    assert {(d, Dot), (x, DotDot)} <= Refs(t, d);
    Subset({(d, Dot), (x, DotDot)}, Refs(t, d));
    assert Link(t, d) == t.nlink[d];
  }

  lemma Subset(a: set<Key>, b: set<Key>)
    requires a <= b
    ensures |a| <= |b|
  {
    assert b == a + (b - a);
  }
}
