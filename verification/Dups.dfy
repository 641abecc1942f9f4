/** Duplicate repair (filsys_resolve_dups): every direct reference to a block that is claimed
    already gets a copy of its own, then the free list is rebuilt. */
module Dups {
  import opened Device
  import opened Geometry
  import opened FreeChain
  import opened Image
  import opened Ownership
  import opened Consistency
  import opened Mapping
  import opened FileBytes
  import opened CheckSpec
  import opened Walks
  import opened Check
  import opened AllocSteps
  import opened Barrier
  import opened Salvage
  import opened Engine

  /** A direct slot whose block was claimed before. */
  datatype Dup = Dup(blk: nat, ino: nat, idx: nat)

  function SetAddr(ip: Inode, s: nat, a: nat): Inode {
    if s < |ip.addr| then ip.(addr := ip.addr[s := a]) else ip
  }

  function SetAt(inodes: seq<Inode>, ino: nat, s: nat, a: nat): seq<Inode> {
    if ino < |inodes| then inodes[ino := SetAddr(inodes[ino], s, a)] else inodes
  }

  /** Slots of an inode that differ only at s claim the same before s. */
  lemma {:induction false} UpToSame(g: Geometry, blocks: seq<Block>, ip: Inode, s: nat, a: nat, t: nat)
    requires t <= s
    ensures SlotsUpTo(g, blocks, SetAddr(ip, s, a), t) == SlotsUpTo(g, blocks, ip, t)
    decreases t
  {
    hide Claims, Height;
    if t > 0 {
      UpToSame(g, blocks, ip, s, a, t - 1);
    }
  }

  /** A data block that a direct slot names twice over. */
  ghost predicate DupOf(g: Geometry, ip: Inode, d: Dup) {
    && d.idx < g.niaddr && d.idx < |ip.addr| && ip.addr[d.idx] == d.blk != 0 && g.IsData(d.blk)
    && SlotLevel(g, ip.large, d.idx) < 0
  }

  /** The inode without the addresses of its duplicates. */
  ghost predicate Trimmed(g: Geometry, ino: nat, ip: Inode, kip: Inode, dups: seq<Dup>, i: nat) {
    && kip == ip.(addr := kip.addr) && |kip.addr| == |ip.addr|
    && (forall k {:trigger dups[k]} :: 0 <= k < |dups| ==>
         dups[k].ino == ino && dups[k].idx < i && DupOf(g, ip, dups[k]) && kip.addr[dups[k].idx] == 0)
    && (forall k, l {:trigger dups[k], dups[l]} :: 0 <= k < l < |dups| ==> dups[k].idx < dups[l].idx)
    && (forall s {:trigger kip.addr[s]} :: 0 <= s < |ip.addr| && kip.addr[s] != ip.addr[s] ==>
         exists k {:trigger dups[k]} :: 0 <= k < |dups| && dups[k].idx == s)
  }

  lemma TrimmedNone(g: Geometry, ino: nat, ip: Inode)
    ensures Trimmed(g, ino, ip, ip, [], 0)
  {
  }

  lemma TrimmedNext(g: Geometry, ino: nat, ip: Inode, kip: Inode, dups: seq<Dup>, i: nat)
    requires Trimmed(g, ino, ip, kip, dups, i)
    ensures Trimmed(g, ino, ip, kip, dups, i + 1)
  {
  }

  lemma TrimmedMore(g: Geometry, ino: nat, ip: Inode, kip: Inode, dups: seq<Dup>, i: nat)
    requires Trimmed(g, ino, ip, kip, dups, i) && i < g.niaddr && i < |ip.addr| && DupOf(g, ip, Dup(ip.addr[i], ino, i))
    ensures Trimmed(g, ino, ip, SetAddr(kip, i, 0), dups + [Dup(ip.addr[i], ino, i)], i + 1)
  {
    var kip', dups' := SetAddr(kip, i, 0), dups + [Dup(ip.addr[i], ino, i)];
    forall s {:trigger kip'.addr[s]} | 0 <= s < |ip.addr| && kip'.addr[s] != ip.addr[s]
      ensures exists k {:trigger dups'[k]} :: 0 <= k < |dups'| && dups'[k].idx == s
    {
      if s == i {
        assert dups'[|dups|].idx == s;
      } else {
        assert kip.addr[s] != ip.addr[s];
        var k :| 0 <= k < |dups| && dups[k].idx == s;
        assert dups'[k] == dups[k];
      }
    }
  }

  // ---- which images can be repaired ----

  /** With the blocks referenced so far: a direct address lies in the data area, and a tree
      references nothing again. */
  ghost predicate SlotFits(g: Geometry, blocks: seq<Block>, seen: set<nat>, ip: Inode, s: nat) {
    s < |ip.addr| && ip.addr[s] != 0 ==>
      if SlotLevel(g, ip.large, s) < 0 then g.IsData(ip.addr[s]) else Fresh(g, seen, SlotClaims(g, blocks, ip, s))
  }

  ghost predicate InodeFits(g: Geometry, blocks: seq<Block>, seen: set<nat>, ip: Inode, n: nat) {
    forall s {:trigger SlotsUpTo(g, blocks, ip, s)} :: 0 <= s < n ==>
        SlotFits(g, blocks, seen + SetOf(SlotsUpTo(g, blocks, ip, s)), ip, s)
  }

  ghost predicate InodesFit(g: Geometry, blocks: seq<Block>, inodes: seq<Inode>, n: nat)
    requires n <= |inodes|
  {
    forall i {:trigger inodes[i]} :: 1 <= i < n && inodes[i].kind.Data? ==>
      InodeFits(g, blocks, SetOf(InodesUpTo(g, blocks, inodes, i)), inodes[i], g.niaddr)
  }

  /** In the order of the slots: every reference to a block referenced before is a direct one,
      and no reference strays from the data area. */
  ghost predicate DirectDups(g: Geometry, img: Image) {
    InodesFit(g, img.blocks, img.inodes, |img.inodes|)
  }

  /** How a scan that started from the marks m0 stands after the references s, if `fits` says
      whether these fit: nothing was passed over or counted wrong, and all of s is marked. */
  ghost predicate Seen(m0: set<nat>, w0: nat, fits: bool, s: seq<nat>, marked: set<nat>, wrong: nat, stray: bool) {
    && w0 <= wrong
    && (!stray && wrong == w0 <==> fits)
    && (fits ==> marked == m0 + SetOf(s))
  }

  lemma SeenThen(m0: set<nat>, w0: nat, f1: bool, s: seq<nat>, m1: set<nat>, w1: nat, was: bool,
                 f2: bool, t: seq<nat>, m2: set<nat>, w2: nat, now: bool)
    requires Seen(m0, w0, f1, s, m1, w1, was) && Seen(m1, w1, f2, t, m2, w2, now)
    ensures Seen(m0, w0, f1 && f2, s + t, m2, w2, was || now)
  {
    assert SetOf(s + t) == SetOf(s) + SetOf(t);
  }

  lemma FitsNext(g: Geometry, blocks: seq<Block>, seen: set<nat>, ip: Inode, i: nat, now: set<nat>)
    requires InodeFits(g, blocks, seen, ip, i) ==> now == seen + SetOf(SlotsUpTo(g, blocks, ip, i))
    ensures InodeFits(g, blocks, seen, ip, i + 1) <==>
            InodeFits(g, blocks, seen, ip, i) && SlotFits(g, blocks, now, ip, i)
  {
    hide SlotFits, SlotsUpTo, SetOf;
    if InodeFits(g, blocks, seen, ip, i + 1) {
      var _ := SlotsUpTo(g, blocks, ip, i);
    }
  }

  lemma InodesFitNext(g: Geometry, blocks: seq<Block>, inodes: seq<Inode>, i: nat, now: set<nat>)
    requires 1 <= i < |inodes|
    requires InodesFit(g, blocks, inodes, i) ==> now == SetOf(InodesUpTo(g, blocks, inodes, i))
    ensures InodesFit(g, blocks, inodes, i + 1) <==>
      InodesFit(g, blocks, inodes, i) && (inodes[i].kind.Data? ==> InodeFits(g, blocks, now, inodes[i], g.niaddr))
  {
    hide InodeFits, InodesUpTo, SetOf;
  }

  /** A recorded slot: its block is marked already. */
  lemma SeenAgain(g: Geometry, blocks: seq<Block>, ip: Inode, i: nat, m: set<nat>, w: nat)
    requires i < |ip.addr| && DupOf(g, ip, Dup(ip.addr[i], 0, i)) && ip.addr[i] in m
    ensures SlotFits(g, blocks, m, ip, i) && Seen(m, w, true, SlotClaims(g, blocks, ip, i), m, w, false)
  {
    hide Fresh;
    SlotRoot(g, blocks, ip, i);
  }

  /** A direct address outside the data area. */
  lemma SeenAstray(g: Geometry, blocks: seq<Block>, ip: Inode, i: nat, m: set<nat>, w: nat)
    requires i < |ip.addr| && ip.addr[i] != 0 && SlotLevel(g, ip.large, i) < 0 && !g.IsData(ip.addr[i])
    ensures Seen(m, w, SlotFits(g, blocks, m, ip, i), SlotClaims(g, blocks, ip, i), m, w, true)
  {
  }

  /** A slot that was marked. */
  lemma SeenMarked(g: Geometry, blocks: seq<Block>, ip: Inode, i: nat, m: set<nat>, w: nat, m': set<nat>, w': nat)
    requires i < |ip.addr| && Marking(g, m, w, SlotClaims(g, blocks, ip, i), m', w')
    requires ip.addr[i] != 0 && SlotLevel(g, ip.large, i) < 0 ==> g.IsData(ip.addr[i]) && ip.addr[i] !in m
    ensures Seen(m, w, SlotFits(g, blocks, m, ip, i), SlotClaims(g, blocks, ip, i), m', w', false)
  {
    hide SetOf, Claims;
    if ip.addr[i] != 0 {
      SlotRoot(g, blocks, ip, i);
    } else {
      NoTree(g, blocks, Height(g, ip.large, i));
    }
  }

  /** Scan one slot. */
  method ScanSlot(cx: Checker, ip: Inode, ghost kip: Inode, i: nat, ghost m0: set<nat>, ghost w0: nat,
      ghost clean: bool)
    returns (dup: bool, ghost stray: bool)
    requires cx.Valid() && i < cx.g.niaddr == |ip.addr| == |kip.addr| && kip.addr[i] == ip.addr[i] &&
             kip.large == ip.large
    requires w0 <= cx.Wrong()
    requires clean ==> Marking(cx.g, m0, w0, SlotsUpTo(cx.g, cx.img.blocks, kip, i), cx.Marked(), cx.Wrong())
    modifies cx`tick, cx`used, cx`bad, cx`dup, cx`refs, cx`errors, cx`faults, cx.bmap
    ensures cx.Valid() && old(cx.faults) <= cx.faults && old(cx.Wrong()) <= cx.Wrong() &&
            old(cx.Marked()) <= cx.Marked()
    ensures dup ==>
            cx.Marked() == old(cx.Marked()) && cx.Wrong() == old(cx.Wrong()) && cx.faults == old(cx.faults) && !stray
    ensures dup ==> DupOf(cx.g, ip, Dup(ip.addr[i], 0, i)) && ip.addr[i] in cx.Marked()
    ensures !dup && cx.faults == old(cx.faults) && clean && !stray ==>
              Marking(cx.g, m0, w0, SlotsUpTo(cx.g, cx.img.blocks, kip, i + 1), cx.Marked(), cx.Wrong())
    ensures cx.faults == old(cx.faults) ==>
              Seen(old(cx.Marked()), old(cx.Wrong()), SlotFits(cx.g, cx.img.blocks, old(cx.Marked()), ip, i),
                   SlotClaims(cx.g, cx.img.blocks, ip, i), cx.Marked(), cx.Wrong(), stray)
  {
    hide Fresh, Claims, SlotsUpTo, Marking, MarkedIn, Height, Seen, SlotFits, Counts, Met;
    ghost var g, blocks, m1, w1 := cx.g, cx.img.blocks, cx.Marked(), cx.Wrong();
    ghost var before := SlotsUpTo(g, blocks, kip, i);
    dup, stray := false, false;
    var a := ip.addr[i];
    SlotsBefore(g, blocks, kip, i);
    NoTree(g, blocks, Height(g, ip.large, i));
    MarkingNone(g, m1, w1);
    if a != 0 {
      SlotRoot(g, blocks, kip, i);
      var level := SlotLevel(cx.g, ip.large, i);
      ghost var refs1 := cx.refs;
      if level >= 0 {
        cx.MarkTree(a, level);
        if cx.faults == old(cx.faults) {
          CountsTree(g, blocks, refs1, m1, old(cx.used), old(cx.free), old(cx.dup), old(cx.bad), a, level + 1,
                     cx.refs, cx.Marked(), cx.used, cx.free, cx.dup, cx.bad);
        }
      } else if a < cx.g.dstart || a >= cx.g.fsize {
        stray := true;
        SeenAstray(g, blocks, ip, i, m1, w1);
        return;
      } else {
        BitOf(g, cx.bmap[..], a);
        if cx.bmap[a - cx.g.dstart] {
          SeenAgain(g, blocks, ip, i, m1, w1);
          return true, stray;
        }
        var _ := cx.MarkBlock(a);
        OneMarking(g, m1, w1, a);
      }
    }
    if cx.faults == old(cx.faults) {
      SeenMarked(g, blocks, ip, i, m1, w1, cx.Marked(), cx.Wrong());
      if clean {
        MarkingThen(g, m0, w0, before, m1, w1, SlotClaims(g, blocks, kip, i), cx.Marked(), cx.Wrong());
      }
    }
  }

  /** Scan one inode: trees are marked as in a check, direct slots are marked or recorded.
      `stray` says that a direct address lies outside the data area, which is passed over. */
  method ScanSlots(cx: Checker, ino: nat, ip: Inode) returns (dups: seq<Dup>, ghost kip: Inode, ghost stray: bool)
    requires cx.Valid() && |ip.addr| == cx.g.niaddr && ip.kind.Data?
    modifies cx`tick, cx`used, cx`bad, cx`dup, cx`refs, cx`errors, cx`faults, cx.bmap
    ensures cx.Valid() && old(cx.faults) <= cx.faults && old(cx.Wrong()) <= cx.Wrong() &&
            old(cx.Marked()) <= cx.Marked()
    ensures Trimmed(cx.g, ino, ip, kip, dups, cx.g.niaddr)
    ensures forall k {:trigger dups[k]} :: 0 <= k < |dups| ==> dups[k].blk in cx.Marked()
    ensures cx.faults == old(cx.faults) && !stray ==>
              Marking(cx.g, old(cx.Marked()), old(cx.Wrong()), InodeClaims(cx.g, cx.img.blocks, kip), cx.Marked(),
                  cx.Wrong())
    ensures cx.faults == old(cx.faults) ==>
              Seen(old(cx.Marked()), old(cx.Wrong()), InodeFits(cx.g, cx.img.blocks, old(cx.Marked()), ip, cx.g.niaddr),
                   InodeClaims(cx.g, cx.img.blocks, ip), cx.Marked(), cx.Wrong(), stray)
    ensures |InodeClaims(cx.g, cx.img.blocks, kip)| + |dups| == |InodeClaims(cx.g, cx.img.blocks, ip)|
  {
    hide Fresh, Claims, SlotsUpTo, SlotsClaims, SlotClaims, Marking, MarkedIn, Height, Trimmed, Seen, SlotFits,
         InodeFits;
    ghost var g, blocks, m0, w0 := cx.g, cx.img.blocks, cx.Marked(), cx.Wrong();
    dups, kip, stray := [], ip, false;
    MarkingNone(g, m0, w0);
    NoSlotsBefore(g, blocks, ip);
    TrimmedNone(g, ino, ip);
    SeenNone(g, blocks, ip, m0, w0);
    for i := 0 to cx.g.niaddr
      invariant cx.Valid() && old(cx.faults) <= cx.faults && w0 <= cx.Wrong() && m0 <= cx.Marked()
      invariant Trimmed(g, ino, ip, kip, dups, i) && |kip.addr| == g.niaddr && kip.kind == ip.kind &&
                kip.large == ip.large
      invariant forall s {:trigger kip.addr[s]} :: i <= s < g.niaddr ==> kip.addr[s] == ip.addr[s]
      invariant forall k {:trigger dups[k]} :: 0 <= k < |dups| ==> dups[k].blk in cx.Marked()
      invariant cx.faults == old(cx.faults) && !stray ==>
                Marking(g, m0, w0, SlotsUpTo(g, blocks, kip, i), cx.Marked(), cx.Wrong())
      invariant cx.faults == old(cx.faults) ==>
                  Seen(m0, w0, InodeFits(g, blocks, m0, ip, i), SlotsUpTo(g, blocks, ip, i), cx.Marked(), cx.Wrong(),
                      stray)
      invariant |SlotsUpTo(g, blocks, kip, i)| + |dups| == |SlotsUpTo(g, blocks, ip, i)|
    {
      var dup;
      ghost var now, m1, w1 := false, cx.Marked(), cx.Wrong();
      dup, now := ScanSlot(cx, ip, kip, i, m0, w0, cx.faults == old(cx.faults) && !stray);
      if cx.faults == old(cx.faults) {
        SeenFits(m0, w0, InodeFits(g, blocks, m0, ip, i), SlotsUpTo(g, blocks, ip, i), m1, w1, stray);
        FitsNext(g, blocks, m0, ip, i, m1);
        SeenThen(m0, w0, InodeFits(g, blocks, m0, ip, i), SlotsUpTo(g, blocks, ip, i), m1, w1, stray,
                 SlotFits(g, blocks, m1, ip, i), SlotClaims(g, blocks, ip, i), cx.Marked(), cx.Wrong(), now);
      }
      stray := stray || now;
      TrimmedNext(g, ino, ip, kip, dups, i);
      SlotsBefore(g, blocks, ip, i);
      SlotsBefore(g, blocks, kip, i);
      SameSlot(g, blocks, ip, kip, i);
      if dup {
        TrimmedMore(g, ino, ip, kip, dups, i);
        UpToSame(g, blocks, kip, i, 0, i);
        SlotRoot(g, blocks, ip, i);
        dups := dups + [Dup(ip.addr[i], ino, i)];
        kip := SetAddr(kip, i, 0);
        SlotsBefore(g, blocks, kip, i);
        NoSlot(g, blocks, kip, i);
        assert SlotsUpTo(g, blocks, kip, i) + [] == SlotsUpTo(g, blocks, kip, i);
      }
    }
    SlotsDone(g, blocks, kip);
    SlotsDone(g, blocks, ip);
  }

  lemma SeenNone(g: Geometry, blocks: seq<Block>, ip: Inode, m: set<nat>, w: nat)
    ensures Seen(m, w, InodeFits(g, blocks, m, ip, 0), SlotsUpTo(g, blocks, ip, 0), m, w, false)
  {
  }

  lemma SeenFits(m0: set<nat>, w0: nat, fits: bool, s: seq<nat>, marked: set<nat>, wrong: nat, stray: bool)
    requires Seen(m0, w0, fits, s, marked, wrong, stray)
    ensures fits ==> marked == m0 + SetOf(s)
  {
  }

  lemma SameSlot(g: Geometry, blocks: seq<Block>, ip: Inode, kip: Inode, i: nat)
    requires i < |ip.addr| == |kip.addr| && ip.addr[i] == kip.addr[i] && ip.large == kip.large
    ensures SlotClaims(g, blocks, ip, i) == SlotClaims(g, blocks, kip, i)
  {
  }

  lemma NoSlot(g: Geometry, blocks: seq<Block>, ip: Inode, i: nat)
    requires i < |ip.addr| && ip.addr[i] == 0
    ensures SlotClaims(g, blocks, ip, i) == []
  {
  }

  // ---- all inodes ----

  /** The table without the addresses of the duplicates from k on; each of them is a different
      direct slot. */
  ghost predicate Pending(g: Geometry, inodes: seq<Inode>, kept: seq<Inode>, dups: seq<Dup>, k: nat) {
    && |kept| == |inodes|
    && (forall i {:trigger kept[i]} :: 0 <= i < |inodes| ==>
         kept[i] == inodes[i].(addr := kept[i].addr) && |kept[i].addr| == |inodes[i].addr|)
    && (forall j {:trigger dups[j]} :: k <= j < |dups| ==>
          1 <= dups[j].ino < |inodes| && inodes[dups[j].ino].kind.Data? && DupOf(g, inodes[dups[j].ino], dups[j]) &&
              kept[dups[j].ino].addr[dups[j].idx] == 0)
    && (forall j, l {:trigger dups[j], dups[l]} :: k <= j < l < |dups| ==>
         dups[j].ino != dups[l].ino || dups[j].idx != dups[l].idx)
    && (forall i, s {:trigger kept[i].addr[s]} ::
         0 <= i < |inodes| && 0 <= s < |inodes[i].addr| && kept[i].addr[s] != inodes[i].addr[s] ==>
          exists j {:trigger dups[j]} :: k <= j < |dups| && dups[j].ino == i && dups[j].idx == s)
  }

  lemma PendingNone(g: Geometry, inodes: seq<Inode>)
    ensures Pending(g, inodes, inodes, [], 0)
  {
  }

  /** One more inode scanned: nothing was recorded for it before. */
  lemma PendingMore(g: Geometry, inodes: seq<Inode>, kept: seq<Inode>, dups: seq<Dup>, ino: nat, kip: Inode,
      more: seq<Dup>, i: nat)
    requires Pending(g, inodes, kept, dups, 0) && 1 <= ino < |inodes| && inodes[ino].kind.Data? &&
             kept[ino] == inodes[ino]
    requires forall j {:trigger dups[j]} :: 0 <= j < |dups| ==> dups[j].ino < ino
    requires Trimmed(g, ino, inodes[ino], kip, more, i)
    ensures Pending(g, inodes, kept[ino := kip], dups + more, 0)
  {
    var kept', dups' := kept[ino := kip], dups + more;
    forall k, s {:trigger kept'[k].addr[s]} | 0 <= k < |inodes| && 0 <= s < |inodes[k].addr| &&
        kept'[k].addr[s] != inodes[k].addr[s]
      ensures exists j {:trigger dups'[j]} :: 0 <= j < |dups'| && dups'[j].ino == k && dups'[j].idx == s
    {
      if k == ino {
        var j :| 0 <= j < |more| && more[j].idx == s;
        assert dups'[|dups| + j] == more[j];
      } else {
        assert kept[k].addr[s] != inodes[k].addr[s];
        var j :| 0 <= j < |dups| && dups[j].ino == k && dups[j].idx == s;
        assert dups'[j] == dups[j];
      }
    }
  }

  lemma {:induction false} InodesUpToSame(g: Geometry, blocks: seq<Block>, kept: seq<Inode>, ino: nat, kip: Inode,
      i: nat)
    requires i <= ino < |kept|
    ensures InodesUpTo(g, blocks, kept[ino := kip], i) == InodesUpTo(g, blocks, kept, i)
    decreases i
  {
    hide InodeClaims;
    if i > 1 {
      InodesUpToSame(g, blocks, kept, ino, kip, i - 1);
    }
  }

  /** Scan all inodes.  If no tree met a block marked before, and no direct address strays, the
      references other than the recorded ones are distinct and exactly the blocks marked. */
  method ScanAll(cx: Checker) returns (dups: seq<Dup>, ghost kept: seq<Inode>, ghost stray: bool)
    requires cx.Valid() && cx.Marked() == {} && cx.Wrong() == 0 && |cx.img.inodes| >= 1
    modifies cx`tick, cx`used, cx`bad, cx`dup, cx`refs, cx`errors, cx`faults, cx.bmap
    ensures cx.Valid() && old(cx.faults) <= cx.faults
    ensures Pending(cx.g, cx.img.inodes, kept, dups, 0)
    ensures forall k {:trigger dups[k]} :: 0 <= k < |dups| ==> dups[k].blk in cx.Marked()
    ensures cx.faults == old(cx.faults) && !stray && cx.Wrong() == 0 ==>
              var claims := AllClaims(cx.g, cx.img.blocks, kept, 1);
              Fresh(cx.g, {}, claims) && cx.Marked() == SetOf(claims)
    ensures cx.faults == old(cx.faults) ==> (!stray && cx.Wrong() == 0 <==> DirectDups(cx.g, cx.img))
    ensures cx.faults == old(cx.faults) && DirectDups(cx.g, cx.img) ==>
            cx.Marked() == SetOf(AllClaims(cx.g, cx.img.blocks, cx.img.inodes, 1))
    ensures |AllClaims(cx.g, cx.img.blocks, kept, 1)| + |dups| == |AllClaims(cx.g, cx.img.blocks, cx.img.inodes, 1)|
  {
    hide Fresh, InodesUpTo, InodeClaims, AllClaims, Marking, MarkedIn, Pending, Trimmed, Seen, InodeFits, InodesFit,
         SetOf;
    ghost var g, blocks, inodes := cx.g, cx.img.blocks, cx.img.inodes;
    dups, kept, stray := [], cx.img.inodes, false;
    MarkingNone(g, {}, 0);
    NoInodesBefore(g, blocks, kept);
    PendingNone(g, kept);
    SeenNoInode(g, blocks, inodes);
    for ino := 1 to |cx.img.inodes|
      invariant cx.Valid() && old(cx.faults) <= cx.faults
      invariant Pending(g, inodes, kept, dups, 0) && |kept| == |inodes|
      invariant forall i {:trigger kept[i]} :: ino <= i < |kept| ==> kept[i] == inodes[i]
      invariant forall k {:trigger dups[k]} :: 0 <= k < |dups| ==> dups[k].ino < ino && dups[k].blk in cx.Marked()
      invariant cx.faults == old(cx.faults) && !stray ==>
                Marking(g, {}, 0, InodesUpTo(g, blocks, kept, ino), cx.Marked(), cx.Wrong())
      invariant cx.faults == old(cx.faults) ==>
                  Seen({}, 0, InodesFit(g, blocks, inodes, ino), InodesUpTo(g, blocks, inodes, ino), cx.Marked(),
                      cx.Wrong(), stray)
      invariant |InodesUpTo(g, blocks, kept, ino)| + |dups| == |InodesUpTo(g, blocks, inodes, ino)|
    {
      ghost var m1, w1, now := cx.Marked(), cx.Wrong(), false;
      InodesBefore(g, blocks, kept, ino);
      InodesBefore(g, blocks, inodes, ino);
      MarkingNone(g, m1, w1);
      SeenNothing(m1, w1);
      var ok := cx.Ready();
      if ok && cx.img.inodes[ino].kind.Data? {
        var more;
        ghost var kip;
        more, kip, now := ScanSlots(cx, ino, cx.img.inodes[ino]);
        PendingMore(g, inodes, kept, dups, ino, kip, more, g.niaddr);
        TrimmedIno(g, ino, inodes[ino], kip, more, g.niaddr);
        InodesUpToSame(g, blocks, kept, ino, kip, ino);
        dups, kept := dups + more, kept[ino := kip];
        InodesBefore(g, blocks, kept, ino);
      }
      if cx.faults == old(cx.faults) {
        if !stray && !now {
          MarkingThen(g, {}, 0, InodesUpTo(g, blocks, kept, ino), m1, w1, InodeClaims(g, blocks, kept[ino]),
              cx.Marked(), cx.Wrong());
        }
        SeenInode(g, blocks, inodes, ino, m1, w1, stray, cx.Marked(), cx.Wrong(), now);
      }
      stray := stray || now;
    }
    InodesDone(g, blocks, kept);
    InodesDone(g, blocks, inodes);
    if cx.faults == old(cx.faults) {
      SeenAll(g, cx.img, cx.Marked(), cx.Wrong(), stray);
      if !stray && cx.Wrong() == 0 {
        MarkingClean(g, AllClaims(g, blocks, kept, 1), cx.Marked());
      }
    }
  }

  lemma SeenNoInode(g: Geometry, blocks: seq<Block>, inodes: seq<Inode>)
    requires |inodes| >= 1
    ensures Seen({}, 0, InodesFit(g, blocks, inodes, 1), InodesUpTo(g, blocks, inodes, 1), {}, 0, false)
  {
  }

  lemma SeenNothing(m: set<nat>, w: nat)
    ensures Seen(m, w, true, [], m, w, false)
  {
  }

  lemma SeenInode(g: Geometry, blocks: seq<Block>, inodes: seq<Inode>, i: nat, m1: set<nat>, w1: nat, was: bool,
      m2: set<nat>, w2: nat, now: bool)
    requires 1 <= i < |inodes|
    requires Seen({}, 0, InodesFit(g, blocks, inodes, i), InodesUpTo(g, blocks, inodes, i), m1, w1, was)
    requires Seen(m1, w1, inodes[i].kind.Data? ==>
             InodeFits(g, blocks, m1, inodes[i], g.niaddr), InodeClaims(g, blocks, inodes[i]), m2, w2, now)
    ensures Seen({}, 0, InodesFit(g, blocks, inodes, i + 1), InodesUpTo(g, blocks, inodes, i + 1), m2, w2, was || now)
  {
    hide InodeFits, InodesFit, InodesUpTo, InodeClaims, Seen;
    SeenFits({}, 0, InodesFit(g, blocks, inodes, i), InodesUpTo(g, blocks, inodes, i), m1, w1, was);
    InodesFitNext(g, blocks, inodes, i, m1);
    InodesBefore(g, blocks, inodes, i);
    SeenThen({}, 0, InodesFit(g, blocks, inodes, i), InodesUpTo(g, blocks, inodes, i), m1, w1, was,
             inodes[i].kind.Data? ==>
                 InodeFits(g, blocks, m1, inodes[i], g.niaddr), InodeClaims(g, blocks, inodes[i]), m2, w2, now);
  }

  lemma SeenAll(g: Geometry, img: Image, m: set<nat>, w: nat, stray: bool)
    requires |img.inodes| >= 1
    requires Seen({}, 0, InodesFit(g, img.blocks, img.inodes, |img.inodes|),
             InodesUpTo(g, img.blocks, img.inodes, |img.inodes|), m, w, stray)
    ensures !stray && w == 0 <==> DirectDups(g, img)
    ensures DirectDups(g, img) ==> m == SetOf(AllClaims(g, img.blocks, img.inodes, 1))
  {
    hide InodesFit, InodesUpTo, AllClaims;
    InodesDone(g, img.blocks, img.inodes);
  }

  lemma TrimmedIno(g: Geometry, ino: nat, ip: Inode, kip: Inode, dups: seq<Dup>, i: nat)
    requires Trimmed(g, ino, ip, kip, dups, i)
    ensures forall k {:trigger dups[k]} :: 0 <= k < |dups| ==> dups[k].ino == ino
    ensures kip.kind == ip.kind
  {
  }

  lemma MarkingClean(g: Geometry, s: seq<nat>, marked: set<nat>)
    requires Marking(g, {}, 0, s, marked, 0)
    ensures Fresh(g, {}, s) && marked == SetOf(s)
  {
  }

  // ---- the claims after one more reference got a block of its own ----

  lemma {:induction false} SlotsInsert(g: Geometry, blocks: seq<Block>, ip: Inode, idx: nat, nb: nat, s: nat)
      returns (a: seq<nat>, b: seq<nat>)
    requires s <= idx < g.niaddr && idx < |ip.addr| && ip.addr[idx] == 0 && SlotLevel(g, ip.large, idx) < 0 && nb != 0
    ensures SlotsClaims(g, blocks, ip, s) == a + b && SlotsClaims(g, blocks, SetAddr(ip, idx, nb), s) == a + [nb] + b
    decreases idx - s
  {
    hide SlotClaims, SlotsClaims;
    var ip' := SetAddr(ip, idx, nb);
    SlotsStep(g, blocks, ip, s);
    SlotsStep(g, blocks, ip', s);
    if s == idx {
      a, b := [], SlotsClaims(g, blocks, ip, s + 1);
      SlotsAfter(g, blocks, ip, idx, nb, s + 1);
      NoSlot(g, blocks, ip, idx);
      SlotRoot(g, blocks, ip', idx);
    } else {
      var c;
      c, b := SlotsInsert(g, blocks, ip, idx, nb, s + 1);
      var x := SlotClaims(g, blocks, ip, s);
      a := x + c;
      OtherSlot(g, blocks, ip, idx, nb, s);
      assert x + (c + b) == a + b && x + (c + [nb] + b) == a + [nb] + b;
    }
  }

  lemma SlotsStep(g: Geometry, blocks: seq<Block>, ip: Inode, s: nat)
    requires s < g.niaddr
    ensures SlotsClaims(g, blocks, ip, s) == SlotClaims(g, blocks, ip, s) + SlotsClaims(g, blocks, ip, s + 1)
  {
  }

  lemma OtherSlot(g: Geometry, blocks: seq<Block>, ip: Inode, idx: nat, nb: nat, s: nat)
    requires s != idx
    ensures SlotClaims(g, blocks, SetAddr(ip, idx, nb), s) == SlotClaims(g, blocks, ip, s)
  {
  }

  lemma {:induction false} SlotsAfter(g: Geometry, blocks: seq<Block>, ip: Inode, idx: nat, nb: nat, s: nat)
    requires idx < s
    ensures SlotsClaims(g, blocks, SetAddr(ip, idx, nb), s) == SlotsClaims(g, blocks, ip, s)
    decreases g.niaddr - s
  {
    hide Claims;
    if s < g.niaddr {
      SlotsAfter(g, blocks, ip, idx, nb, s + 1);
    }
  }

  lemma {:induction false} AllInsert(g: Geometry, blocks: seq<Block>, kept: seq<Inode>, ino: nat, idx: nat, nb: nat,
      i: nat) returns (a: seq<nat>, b: seq<nat>)
    requires i <= ino < |kept| && kept[ino].kind.Data? && idx < g.niaddr && idx < |kept[ino].addr|
    requires kept[ino].addr[idx] == 0 && SlotLevel(g, kept[ino].large, idx) < 0 && nb != 0
    ensures AllClaims(g, blocks, kept, i) == a + b && AllClaims(g, blocks, SetAt(kept, ino, idx, nb), i) == a + [nb] + b
    decreases ino - i
  {
    hide SlotsClaims;
    var kept' := SetAt(kept, ino, idx, nb);
    if i == ino {
      var a0, b0 := SlotsInsert(g, blocks, kept[ino], idx, nb, 0);
      AllAfter(g, blocks, kept, ino, idx, nb, i + 1);
      a, b := a0, b0 + AllClaims(g, blocks, kept, i + 1);
    } else {
      a, b := AllInsert(g, blocks, kept, ino, idx, nb, i + 1);
      a := InodeClaims(g, blocks, kept[i]) + a;
    }
  }

  lemma {:induction false} AllAfter(g: Geometry, blocks: seq<Block>, kept: seq<Inode>, ino: nat, idx: nat, nb: nat,
      i: nat)
    requires ino < i
    ensures AllClaims(g, blocks, SetAt(kept, ino, idx, nb), i) == AllClaims(g, blocks, kept, i)
    decreases |kept| - i
  {
    hide InodeClaims;
    if i < |kept| {
      AllAfter(g, blocks, kept, ino, idx, nb, i + 1);
    }
  }

  lemma FreshInsert(g: Geometry, a: seq<nat>, b: seq<nat>, nb: nat)
    requires Fresh(g, {}, a + b) && g.IsData(nb) && nb !in a + b
    ensures Fresh(g, {}, a + [nb] + b) && forall x :: x in a + [nb] + b <==> x in a + b || x == nb
  {
    var t := a + [nb] + b;
    forall i, j | 0 <= i < j < |t|
      ensures t[i] != t[j]
    {
      var u := a + b;
      assert i < |a| ==> t[i] == u[i];
      assert j > |a| ==> t[j] == u[j - 1];
      assert i > |a| ==> t[i] == u[i - 1];
      assert j < |a| ==> t[j] == u[j];
    }
  }

  // ---- the state between two repairs ----

  /** The references that are settled are distinct and exactly the blocks of the map; what is
      listed free is not among them; the others are still to be repaired. */
  ghost predicate Mending(g: Geometry, disk: Image, tab: Table, bits: seq<bool>, kept: seq<Inode>, dups: seq<Dup>,
      k: nat) {
    && Pending(g, disk.inodes, kept, dups, k) && |tab| == g.fsize && |bits| == g.fsize - g.dstart &&
         |disk.blocks| == g.fsize
    && var claims := AllClaims(g, disk.blocks, kept, 1);
    && Fresh(g, {}, claims)
    && (forall b: nat {:trigger Bit(g, bits, b)} :: g.IsData(b) ==>
         (Bit(g, bits, b) <==> b in claims) && (Bit(g, bits, b) ==> !tab[b].Free?))
    && (forall j {:trigger dups[j]} :: k <= j < |dups| ==> dups[j].blk in claims)
  }

  /** Only free blocks changed: nothing settled is affected. */
  lemma MendingFrame(g: Geometry, disk: Image, tab: Table, disk': Image, tab': Table, bits: seq<bool>, kept: seq<Inode>,
      dups: seq<Dup>, k: nat)
    requires Mending(g, disk, tab, bits, kept, dups, k) && disk'.inodes == disk.inodes && |tab'| == |tab| &&
             |disk'.blocks| == |disk.blocks|
    requires forall b: nat {:trigger tab'[b]} {:trigger disk'.blocks[b]} :: b < |tab| && !tab[b].Free? ==>
             tab'[b] == tab[b] && disk'.blocks[b] == disk.blocks[b]
    ensures Mending(g, disk', tab', bits, kept, dups, k)
    ensures forall x :: x in AllClaims(g, disk.blocks, kept, 1) ==>
            x < |disk.blocks| && disk'.blocks[x] == disk.blocks[x]
  {
    hide AllClaims, Pending;
    var claims := AllClaims(g, disk.blocks, kept, 1);
    forall x | x in claims
      ensures x < |disk.blocks| && disk'.blocks[x] == disk.blocks[x]
    {
      assert Bit(g, bits, x);
    }
    AllSame(g, disk.blocks, disk'.blocks, kept, 1);
  }

  lemma PendingStep(g: Geometry, inodes: seq<Inode>, kept: seq<Inode>, dups: seq<Dup>, k: nat, nb: nat)
    requires Pending(g, inodes, kept, dups, k) && k < |dups| && nb != 0
    ensures var d := dups[k];
            Pending(g, SetAt(inodes, d.ino, d.idx, nb), SetAt(kept, d.ino, d.idx, nb), dups, k + 1)
  {
    var d := dups[k];
    var inodes', kept' := SetAt(inodes, d.ino, d.idx, nb), SetAt(kept, d.ino, d.idx, nb);
    forall i, s {:trigger kept'[i].addr[s]} | 0 <= i < |inodes'| && 0 <= s < |inodes'[i].addr| &&
        kept'[i].addr[s] != inodes'[i].addr[s]
      ensures exists j {:trigger dups[j]} :: k + 1 <= j < |dups| && dups[j].ino == i && dups[j].idx == s
    {
      assert kept[i].addr[s] != inodes[i].addr[s];
      var j :| k <= j < |dups| && dups[j].ino == i && dups[j].idx == s;
      assert j != k;
    }
  }

  /** A free block became the copy of a duplicate: one reference more is settled. */
  lemma MendingStep(g: Geometry, disk: Image, tab: Table, bits: seq<bool>, kept: seq<Inode>, dups: seq<Dup>, k: nat,
      nb: nat, disk': Image)
    requires Mending(g, disk, tab, bits, kept, dups, k) && k < |dups| && g.IsData(nb) && !Bit(g, bits, nb) && nb != 0 &&
             tab[nb].Alloc?
    requires |disk'.blocks| == |disk.blocks| && disk'.blocks == disk.blocks[nb := disk'.blocks[nb]] &&
             disk'.inodes == SetAt(disk.inodes, dups[k].ino, dups[k].idx, nb)
    ensures Mending(g, disk', tab, bits[nb - g.dstart := true], SetAt(kept, dups[k].ino, dups[k].idx, nb), dups, k + 1)
  {
    hide AllClaims, Fresh;
    var d, kept' := dups[k], SetAt(kept, dups[k].ino, dups[k].idx, nb);
    var claims := AllClaims(g, disk.blocks, kept, 1);
    assert nb !in claims;
    AllSame(g, disk.blocks, disk'.blocks, kept, 1);
    PendingStep(g, disk.inodes, kept, dups, k, nb);
    var a, b := AllInsert(g, disk'.blocks, kept, d.ino, d.idx, nb, 1);
    FreshInsert(g, a, b, nb);
    var bits' := bits[nb - g.dstart := true];
    forall c: nat {:trigger Bit(g, bits', c)} | g.IsData(c)
      ensures Bit(g, bits', c) <==> Bit(g, bits, c) || c == nb
    {
    }
  }

  // ---- contents ----

  /** The map of an inode leads into its claims, and depends on nothing else. */
  lemma {:induction false} WalkSame(g: Geometry, blocks: seq<Block>, blocks': seq<Block>, b: nat, h: nat, r: nat)
    requires g.nindir >= 1 && |blocks'| == |blocks| && SameAt(blocks, blocks', Claims(g, blocks, b, h))
    ensures Walk(g, blocks', b, h, r) == Walk(g, blocks, b, h, r)
    ensures Walk(g, blocks, b, h, r) == 0 || Walk(g, blocks, b, h, r) in Claims(g, blocks, b, h)
    decreases h
  {
    if b != 0 && h > 0 {
      var i := Digit(g, r, h);
      DigitSplit(g, r, h);
      assert b in Claims(g, blocks, b, h);
      var c := Cell(blocks, b, i);
      assert Cell(blocks', b, i) == c;
      forall x | x in Claims(g, blocks, c, h - 1)
        ensures x in Claims(g, blocks, b, h)
      {
        KidMember(g, blocks, b, h, 0, i, x);
      }
      WalkSame(g, blocks, blocks', c, h - 1, r);
    }
  }

  /** Bytes depend on the blocks an inode refers to alone. */
  lemma BytesSame(g: Geometry, blocks: seq<Block>, blocks': seq<Block>, ip: Inode, p: nat)
    requires g.nindir >= 1 && g.bsize >= 1 && |blocks'| == |blocks|
    requires forall s: nat {:trigger SlotClaims(g, blocks, ip, s)} :: s < g.niaddr ==>
             SameAt(blocks, blocks', SlotClaims(g, blocks, ip, s))
    ensures ByteAt(g, blocks', ip, p) == ByteAt(g, blocks, ip, p)
  {
    hide Walk, Claims, Base, SlotFor, Height;
    var k := p / g.bsize;
    var s := SlotFor(g, ip.large, k, 0);
    if s < g.niaddr && s < |ip.addr| && Base(g, ip.large, s) <= k {
      assert SameAt(blocks, blocks', SlotClaims(g, blocks, ip, s));
      WalkSame(g, blocks, blocks', ip.addr[s], Height(g, ip.large, s), k - Base(g, ip.large, s));
    }
  }

  /** All that any inode refers to is among the settled claims. */
  lemma RefsSettled(g: Geometry, disk: Image, tab: Table, bits: seq<bool>, kept: seq<Inode>, dups: seq<Dup>, k: nat,
      i: nat, s: nat, x: nat)
    requires Mending(g, disk, tab, bits, kept, dups, k) && 1 <= i < |disk.inodes| && disk.inodes[i].kind.Data? &&
             s < g.niaddr
    requires x in SlotClaims(g, disk.blocks, disk.inodes[i], s)
    ensures x in AllClaims(g, disk.blocks, kept, 1)
  {
    hide AllClaims, Fresh, KidClaims;
    var ip, kp := disk.inodes[i], kept[i];
    if kp.addr[s] == ip.addr[s] {
      SlotsHas(g, disk.blocks, kp, x, 0, s);
      InodeHas(g, disk.blocks, kept, x, 1, i);
    } else {
      var j :| k <= j < |dups| && dups[j].ino == i && dups[j].idx == s;
      assert x == dups[j].blk;
    }
  }

  /** Every file reads as before. */
  ghost predicate SameFiles(g: Geometry, disk: Image, disk': Image)
    requires g.nindir >= 1 && g.bsize >= 1
  {
    && |disk'.inodes| == |disk.inodes|
    && forall i {:trigger disk'.inodes[i]} :: 1 <= i < |disk.inodes| ==>
         && disk'.inodes[i] == disk.inodes[i].(addr := disk'.inodes[i].addr)
         && (disk.inodes[i].kind.Data? ==>
              Contents(g, disk'.blocks, disk'.inodes[i]) == Contents(g, disk.blocks, disk.inodes[i]))
  }

  lemma SameFilesThen(g: Geometry, disk0: Image, disk1: Image, disk2: Image)
    requires g.nindir >= 1 && g.bsize >= 1 && SameFiles(g, disk0, disk1) && SameFiles(g, disk1, disk2)
    ensures SameFiles(g, disk0, disk2)
  {
    hide Contents;
    forall i {:trigger disk2.inodes[i]} | 1 <= i < |disk0.inodes|
      ensures disk2.inodes[i] == disk0.inodes[i].(addr := disk2.inodes[i].addr)
      ensures disk0.inodes[i].kind.Data? ==>
              Contents(g, disk2.blocks, disk2.inodes[i]) == Contents(g, disk0.blocks, disk0.inodes[i])
    {
      assert disk1.inodes[i] == disk0.inodes[i].(addr := disk1.inodes[i].addr);
    }
  }

  /** Changes outside the settled claims do not show in any file. */
  lemma OutsideSame(g: Geometry, disk: Image, tab: Table, bits: seq<bool>, kept: seq<Inode>, dups: seq<Dup>, k: nat,
      disk': Image)
    requires g.Valid() && Mending(g, disk, tab, bits, kept, dups, k) && disk'.inodes == disk.inodes &&
             |disk'.blocks| == |disk.blocks|
    requires forall x :: x in AllClaims(g, disk.blocks, kept, 1) ==>
             x < |disk.blocks| && disk'.blocks[x] == disk.blocks[x]
    ensures SameFiles(g, disk, disk')
  {
    hide AllClaims, Fresh, ByteAt, SlotClaims;
    forall i {:trigger disk'.inodes[i]} | 1 <= i < |disk.inodes| && disk.inodes[i].kind.Data?
      ensures Contents(g, disk'.blocks, disk'.inodes[i]) == Contents(g, disk.blocks, disk.inodes[i])
    {
      var ip := disk.inodes[i];
      forall s: nat, x | s < g.niaddr && x in SlotClaims(g, disk.blocks, ip, s)
        ensures x < |disk.blocks| && disk'.blocks[x] == disk.blocks[x]
      {
        RefsSettled(g, disk, tab, bits, kept, dups, k, i, s, x);
      }
      forall p: nat
        ensures ByteAt(g, disk'.blocks, ip, p) == ByteAt(g, disk.blocks, ip, p)
      {
        BytesSame(g, disk.blocks, disk'.blocks, ip, p);
      }
    }
  }

  /** A direct slot may as well name a copy of its block. */
  lemma CopySame(g: Geometry, disk: Image, ino: nat, idx: nat, nb: nat, disk': Image)
    requires g.Valid() && 1 <= ino < |disk.inodes| && disk'.blocks == disk.blocks &&
             disk'.inodes == SetAt(disk.inodes, ino, idx, nb)
    requires var ip := disk.inodes[ino];
             && idx < |ip.addr| && SlotLevel(g, ip.large, idx) < 0 && 0 < ip.addr[idx] < |disk.blocks| &&
                  0 < nb < |disk.blocks|
             && disk.blocks[nb] == disk.blocks[ip.addr[idx]]
    ensures SameFiles(g, disk, disk')
  {
    hide ByteAt;
    var ip, ip' := disk.inodes[ino], disk'.inodes[ino];
    forall p: nat
      ensures ByteAt(g, disk'.blocks, ip', p) == ByteAt(g, disk.blocks, ip, p)
    {
      CopyByte(g, disk.blocks, ip, idx, nb, p);
    }
  }

  lemma CopyByte(g: Geometry, blocks: seq<Block>, ip: Inode, idx: nat, nb: nat, p: nat)
    requires g.Valid() && idx < |ip.addr| && SlotLevel(g, ip.large, idx) < 0 && 0 < ip.addr[idx] < |blocks| &&
             0 < nb < |blocks|
    requires blocks[nb] == blocks[ip.addr[idx]]
    ensures ByteAt(g, blocks, SetAddr(ip, idx, nb), p) == ByteAt(g, blocks, ip, p)
  {
    hide Base, SlotFor;
  }

  // ---- the repair ----

  /** A write to a block that is not listed leaves the list alone. */
  lemma ListWrite(g: Geometry, st: State, w: World, b: nat, v: Block)
    requires ListOk(g, st, w) && g.IsData(b) && w.tab[b].Alloc? && |v| == g.bsize
    ensures ListOk(g, st.(disk := st.disk.(blocks := st.disk.blocks[b := v])), w)
  {
    FreshlyFlushed(g, st, w.(segsD := w.segs), b);
    LinkedAgree(st.disk.blocks, st.disk.blocks[b := v], w.segs);
  }

  /** Copy a block into one that the list does not hold. */
  method CopyBlock(fs: Edition, from: nat, to: nat, ghost w: World) returns (ok: bool)
    requires ListOk(fs.g, fs.St(), w) && fs.g.IsData(from) && fs.g.IsData(to) && to < |w.tab| && w.tab[to].Alloc?
    modifies fs`tick, fs`disk, fs`log
    ensures ListOk(fs.g, fs.St(), w) && old(fs.Faults()) <= fs.Faults() && (!ok ==> old(fs.Faults()) < fs.Faults())
    ensures ok ==> from < |old(fs.disk).blocks| && to < |old(fs.disk).blocks|
                   && fs.disk == old(fs.disk).(blocks := old(fs.disk).blocks[to := old(fs.disk).blocks[from]])
  {
    hide ListOk;
    ghost var st1 := fs.St();
    Facts(fs.g, st1, w);
    var buf;
    ok, buf := fs.ReadBlock(from);
    if ok {
      ok := fs.WriteBlock(to, buf);
      if ok {
        ListWrite(fs.g, st1, w, to, buf);
      }
    }
  }

  /** Give duplicate k a block of its own.  Where that is not done, the state is the one it was,
      with those from j on still to be repaired. */
  method RepairOne(fs: Edition, dups: seq<Dup>, k: nat, bits: seq<bool>, ghost j: nat, ghost kept: seq<Inode>,
      ghost w: World)
    returns (done: bool, bits': seq<bool>, ghost kept': seq<Inode>, ghost w': World)
    requires ListOk(fs.g, fs.St(), w) && k < |dups| && |bits| == fs.g.fsize - fs.g.dstart && fs.g.IsData(dups[k].blk)
    modifies fs, fs.free
    ensures ListOk(fs.g, fs.St(), w') && |bits'| == |bits| && old(fs.Faults()) <= fs.Faults()
    ensures done && fs.Faults() == old(fs.Faults()) && Mending(fs.g, old(fs.disk), w.tab, bits, kept, dups, k) ==>
              Mending(fs.g, fs.disk, w'.tab, bits', kept', dups, k + 1) && SameFiles(fs.g, old(fs.disk), fs.disk)
    ensures fs.Faults() == old(fs.Faults()) && Mending(fs.g, old(fs.disk), w.tab, bits, kept, dups, k) ==>
              if Stack(w.segs) == [] then !done && Stack(w'.segs) == []
              else done && |Stack(w'.segs)| == |Stack(w.segs)| - 1
    ensures fs.Faults() == old(fs.Faults()) && Stack(w.segs) == [] ==> !done && Stack(w'.segs) == []
    ensures !done ==> bits' == bits && kept' == kept
    ensures !done && fs.Faults() == old(fs.Faults()) && Mending(fs.g, old(fs.disk), w.tab, bits, kept, dups, j) ==>
              Mending(fs.g, fs.disk, w'.tab, bits, kept, dups, j) && SameFiles(fs.g, old(fs.disk), fs.disk)
  {
    hide ListOk, Mending, SameFiles, Stack, Zeros, Sound, Guarded, NeverD, LogOk, AllClaims;
    ghost var g, st0 := fs.g, fs.St();
    Facts(g, st0, w);
    done, bits', kept', w' := false, bits, kept, w;
    var d := dups[k];
    if Mending(g, st0.disk, w.tab, bits, kept, dups, k) {
      DupShape(g, st0.disk, w.tab, bits, kept, dups, k);
    }
    var ok, ip := fs.ReadInode(d.ino);
    if !ok || d.idx >= |ip.addr| || ip.addr[d.idx] != d.blk {
      SameFilesSelf(g, fs.disk);
      return;
    }
    var rc, nb;
    rc, nb, w' := fs.Balloc(w);
    if rc != OK {
      if Mending(g, st0.disk, w.tab, bits, kept, dups, j) {
        Untouched(g, st0, w, fs.St(), w', bits, kept, dups, j);
      }
      return;
    }
    ghost var st1 := fs.St();
    Facts(g, st1, w');
    ok := CopyBlock(fs, d.blk, nb, w');
    if !ok {
      return;
    }
    ghost var st2, w2 := fs.St(), w';
    rc, w' := fs.WriteInode(d.ino, SetAddr(ip, d.idx, nb), w');
    bits' := bits[nb - fs.g.dstart := true];
    kept' := SetAt(kept, d.ino, d.idx, nb);
    done := true;
    if fs.Faults() == old(fs.Faults()) && Mending(g, st0.disk, w.tab, bits, kept, dups, k) {
      Repaired(g, st0, w, st1, w2, st2, fs.St(), w', bits, kept, dups, k, nb);
    }
  }

  lemma SameFilesSelf(g: Geometry, disk: Image)
    requires g.nindir >= 1 && g.bsize >= 1
    ensures SameFiles(g, disk, disk)
  {
    hide Contents;
  }

  /** An allocation that found nothing changes no file. */
  lemma Untouched(g: Geometry, st: State, w: World, st': State, w': World, bits: seq<bool>, kept: seq<Inode>,
      dups: seq<Dup>, j: nat)
    requires g.Valid() && AllocFrame(st, w, st', w') && Mending(g, st.disk, w.tab, bits, kept, dups, j)
    ensures Mending(g, st'.disk, w'.tab, bits, kept, dups, j) && SameFiles(g, st.disk, st'.disk)
  {
    hide SameFiles;
    MendingSizes(g, st.disk, w.tab, bits, kept, dups, j);
    hide Mending;
    MendingFrame(g, st.disk, w.tab, st'.disk, w'.tab, bits, kept, dups, j);
    OutsideSame(g, st.disk, w.tab, bits, kept, dups, j, st'.disk);
  }

  lemma MendingSizes(g: Geometry, disk: Image, tab: Table, bits: seq<bool>, kept: seq<Inode>, dups: seq<Dup>, k: nat)
    requires Mending(g, disk, tab, bits, kept, dups, k)
    ensures |tab| == |disk.blocks| == g.fsize
  {
    hide AllClaims, Pending, Fresh;
  }

  /** After the last rebuild, however many were repaired: every file reads as before. */
  lemma PartlyMended(g: Geometry, disk: Image, tab: Table, bits: seq<bool>, kept: seq<Inode>, dups: seq<Dup>, k: nat,
      disk': Image)
    requires g.Valid() && Mending(g, disk, tab, bits, kept, dups, k) && |disk'.blocks| == g.fsize &&
             disk'.inodes == disk.inodes
    requires forall b: nat :: b < g.fsize && !(g.IsData(b) && !Bit(g, bits, b)) ==> disk'.blocks[b] == disk.blocks[b]
    ensures SameFiles(g, disk, disk')
  {
    hide AllClaims, SameFiles, Fresh, Pending;
    assert forall x :: x in AllClaims(g, disk.blocks, kept, 1) ==>
           x < |disk.blocks| && disk'.blocks[x] == disk.blocks[x] by {
      ClaimsInRange(g, AllClaims(g, disk.blocks, kept, 1));
    }
    OutsideSame(g, disk, tab, bits, kept, dups, k, disk');
  }

  lemma Repaired(g: Geometry, st0: State, w0: World, st1: State, w1: World, st2: State, st3: State, w3: World,
                 bits: seq<bool>, kept: seq<Inode>, dups: seq<Dup>, k: nat, nb: nat)
    requires g.Valid() && k < |dups| && Mending(g, st0.disk, w0.tab, bits, kept, dups, k) &&
             |st0.disk.blocks| == g.fsize
    requires AllocFrame(st0, w0, st1, w1) && g.IsData(nb) && nb < |w0.tab| && w0.tab[nb].Free? &&
             w1.tab == w0.tab[nb := Alloc]
    requires |st1.disk.blocks| == g.fsize && dups[k].blk < |st1.disk.blocks| && 1 <= dups[k].ino < |st0.disk.inodes|
    requires st2.disk == st1.disk.(blocks := st1.disk.blocks[nb := st1.disk.blocks[dups[k].blk]])
    requires w3.tab == w1.tab && st3.disk.blocks == st2.disk.blocks &&
             st3.disk.inodes == SetAt(st2.disk.inodes, dups[k].ino, dups[k].idx, nb)
    ensures Mending(g, st3.disk, w3.tab, bits[nb - g.dstart := true], SetAt(kept, dups[k].ino, dups[k].idx, nb), dups,
            k + 1)
    ensures SameFiles(g, st0.disk, st3.disk)
  {
    hide AllClaims, Fresh, Pending, SameFiles, Bit;
    var d := dups[k];
    MendingFrame(g, st0.disk, w0.tab, st1.disk, w1.tab, bits, kept, dups, k);
    OutsideSame(g, st0.disk, w0.tab, bits, kept, dups, k, st1.disk);
    assert Bit(g, bits, d.blk) && !Bit(g, bits, nb) by {
      Settled0(g, st0.disk, w0.tab, bits, kept, dups, k, nb);
    }
    MendingStep(g, st1.disk, w1.tab, bits, kept, dups, k, nb, st3.disk);
    assert forall x :: x in AllClaims(g, st1.disk.blocks, kept, 1) ==> x != nb && x < |st1.disk.blocks| by {
      Settled1(g, st1.disk, w1.tab, bits, kept, dups, k, nb);
    }
    OutsideSame(g, st1.disk, w1.tab, bits, kept, dups, k, st2.disk);
    DupShape(g, st1.disk, w1.tab, bits, kept, dups, k);
    CopySame(g, st2.disk, d.ino, d.idx, nb, st3.disk);
    SameFilesThen(g, st0.disk, st1.disk, st2.disk);
    SameFilesThen(g, st0.disk, st2.disk, st3.disk);
  }

  lemma Settled0(g: Geometry, disk: Image, tab: Table, bits: seq<bool>, kept: seq<Inode>, dups: seq<Dup>, k: nat,
      nb: nat)
    requires Mending(g, disk, tab, bits, kept, dups, k) && k < |dups| && g.IsData(nb) && nb < |tab| && tab[nb].Free?
    ensures Bit(g, bits, dups[k].blk) && !Bit(g, bits, nb) && dups[k].blk != nb
  {
    hide AllClaims;
    assert dups[k].blk in AllClaims(g, disk.blocks, kept, 1);
  }

  lemma Settled1(g: Geometry, disk: Image, tab: Table, bits: seq<bool>, kept: seq<Inode>, dups: seq<Dup>, k: nat,
      nb: nat)
    requires Mending(g, disk, tab, bits, kept, dups, k) && g.IsData(nb) && !Bit(g, bits, nb)
    ensures forall x :: x in AllClaims(g, disk.blocks, kept, 1) ==> x != nb && x < |disk.blocks|
  {
    hide AllClaims, Pending;
  }

  lemma DupShape(g: Geometry, disk: Image, tab: Table, bits: seq<bool>, kept: seq<Inode>, dups: seq<Dup>, k: nat)
    requires Mending(g, disk, tab, bits, kept, dups, k) && k < |dups|
    ensures var d := dups[k];
            1 <= d.ino < |disk.inodes| && DupOf(g, disk.inodes[d.ino], d)
  {
    hide AllClaims, Fresh;
  }

  /** Nothing is pending any more: the settled references are all there are. */
  lemma NonePending(g: Geometry, inodes: seq<Inode>, kept: seq<Inode>, dups: seq<Dup>)
    requires Pending(g, inodes, kept, dups, |dups|)
    ensures kept == inodes
  {
    forall i | 0 <= i < |inodes|
      ensures kept[i] == inodes[i]
    {
      assert kept[i].addr == inodes[i].addr;
    }
  }

  /** After the first rebuild. */
  lemma MendingStart(g: Geometry, img: Image, disk: Image, st: State, w: World, bits: seq<bool>, kept: seq<Inode>,
      dups: seq<Dup>)
    requires g.Valid() && |img.blocks| == |disk.blocks| == g.fsize && disk.inodes == img.inodes &&
             |bits| == g.fsize - g.dstart
    requires Pending(g, img.inodes, kept, dups, 0) && ListOk(g, st, w)
    requires Fresh(g, {}, AllClaims(g, img.blocks, kept, 1)) &&
             MarkedIn(g, bits) == SetOf(AllClaims(g, img.blocks, kept, 1))
    requires forall k {:trigger dups[k]} :: 0 <= k < |dups| ==> dups[k].blk in MarkedIn(g, bits)
    requires forall b: nat :: b < g.fsize && !(g.IsData(b) && !Bit(g, bits, b)) ==> disk.blocks[b] == img.blocks[b]
    requires forall b: nat :: g.IsData(b) && Listed(w.segs, b) ==> !Bit(g, bits, b)
    ensures Mending(g, disk, w.tab, bits, kept, dups, 0) && SameFiles(g, img, disk)
  {
    hide AllClaims, Pending, Listed, SameFiles;
    var claims := AllClaims(g, img.blocks, kept, 1);
    forall b: nat | g.IsData(b)
      ensures Bit(g, bits, b) <==> b in claims
      ensures Bit(g, bits, b) ==> disk.blocks[b] == img.blocks[b] && !w.tab[b].Free?
    {
      assert b in MarkedIn(g, bits) <==> b in SetOf(claims);
      FreeListed(g, st, w, b);
    }
    AllSame(g, img.blocks, disk.blocks, kept, 1);
    var none := seq(g.fsize, _ => Lost);
    assert Mending(g, img, none, bits, kept, dups, 0);
    OutsideSame(g, img, none, bits, kept, dups, 0, disk);
  }

  lemma FreeListed(g: Geometry, st: State, w: World, b: nat)
    requires ListOk(g, st, w) && g.IsData(b)
    ensures w.tab[b].Free? ==> Listed(w.segs, b)
  {
    if w.tab[b].Free? {
      assert IsEntry(w.segs, w.tab[b].seg, w.tab[b].idx);
    }
  }

  /** After the last rebuild: the image is free of aliasing, no block is missing, and every file
      reads as before. */
  lemma Mended(g: Geometry, disk: Image, tab: Table, bits: seq<bool>, kept: seq<Inode>, dups: seq<Dup>, disk': Image,
      segs: seq<seq<nat>>)
    requires g.Valid() && Mending(g, disk, tab, bits, kept, dups, |dups|) && |disk'.blocks| == g.fsize &&
             disk'.inodes == disk.inodes
    requires forall b: nat :: b < g.fsize && !(g.IsData(b) && !Bit(g, bits, b)) ==> disk'.blocks[b] == disk.blocks[b]
    requires Intact(g, disk'.blocks, disk'.sbN, disk'.sbFree, segs)
    requires forall b: nat :: g.IsData(b) ==> (Listed(segs, b) <==> !Bit(g, bits, b))
    ensures NeverD(g, disk') && SameFiles(g, disk, disk')
    ensures forall b: nat :: g.IsData(b) ==> (Listed(segs, b) <==> b !in AllClaims(g, disk'.blocks, disk'.inodes, 1))
  {
    hide AllClaims, Listed, SameFiles, NeverD, Intact, Fresh;
    NonePending(g, disk.inodes, kept, dups);
    hide Pending;
    assert forall x :: x in AllClaims(g, disk.blocks, kept, 1) ==>
           x < |disk.blocks| && disk'.blocks[x] == disk.blocks[x] by {
      ClaimsInRange(g, AllClaims(g, disk.blocks, kept, 1));
    }
    OutsideSame(g, disk, tab, bits, kept, dups, |dups|, disk');
    Salvaged(g, disk, disk', bits, segs);
  }

  /** Only data blocks are recorded. */
  lemma DupBlocks(g: Geometry, inodes: seq<Inode>, kept: seq<Inode>, dups: seq<Dup>)
    requires Pending(g, inodes, kept, dups, 0)
    ensures forall k {:trigger dups[k]} :: 0 <= k < |dups| ==> g.IsData(dups[k].blk)
  {
  }

  lemma ClaimsInRange(g: Geometry, s: seq<nat>)
    requires Fresh(g, {}, s)
    ensures forall x :: x in s ==> g.IsData(x)
  {
  }

  /** What a repair must leave: an image free of aliasing whose list is exactly the data blocks
      that no file references, and every file as it was. */
  ghost predicate FreeOfDups(g: Geometry, before: Image, after: Image, segs: seq<seq<nat>>)
    requires g.Valid()
  {
    && NeverD(g, after) && SameFiles(g, before, after)
    && Intact(g, after.blocks, after.sbN, after.sbFree, segs)
    && forall b: nat :: g.IsData(b) ==> (Listed(segs, b) <==> b !in AllClaims(g, after.blocks, after.inodes, 1))
  }

  /** Resolve duplicate blocks.  If every block could be read and written and all duplicates are
      in direct slots, one is found for each reference beyond the first, the repair reports
      success exactly if there are no more references than data blocks, and then it leaves
      what it must; and every file reads as before, success or not.  `fails` says which reads of the scan fail. */
  method ResolveDups(fs: Edition, interleave: bool, m: nat, n: nat, fails: nat -> bool)
    returns (ok: bool, ndup: nat, ghost w: World)
    requires Shape(fs.g, fs.St()) && Sized(fs.g, fs.disk) && |fs.disk.inodes| >= 1
    modifies fs, fs.free
    ensures old(fs.Faults()) <= fs.Faults()
    ensures ndup == 0 ==> ok && fs.St() == old(fs.St())
    ensures fs.g.Valid()
    ensures fs.Faults() == old(fs.Faults()) && Reliable(fails) && DirectDups(fs.g, old(fs.disk)) ==>
              var claims := AllClaims(fs.g, old(fs.disk).blocks, old(fs.disk).inodes, 1);
              && ndup + |SetOf(claims)| == |claims|
              && (ok <==> |claims| <= fs.g.fsize - fs.g.dstart)
              && (ndup == 0 ==> Fresh(fs.g, {}, claims)) && SameFiles(fs.g, old(fs.disk), fs.disk)
              && (ndup > 0 && ok ==> FreeOfDups(fs.g, old(fs.disk), fs.disk, w.segs))
  {
    hide ListOk, Mending, SameFiles, Stack, Sound, Guarded, NeverD, LogOk, AllClaims, Pending, Intact, Listed, Fresh,
         Bit, MarkedIn, SetOf;
    ghost var g, img := fs.g, fs.disk;
    SizedValid(g, img);
    var cx := new Checker(fs.g, fs.disk, fails);
    var dups;
    ghost var kept, stray;
    dups, kept, stray := ScanAll(cx);
    ghost var avail, clean := 0, cx.faults == 0 && DirectDups(g, img);
    if clean {
      Counted(g, AllClaims(g, img.blocks, kept, 1), AllClaims(g, img.blocks, img.inodes, 1));
    }
    ok, ndup := true, |dups|;
    w := World([[]], [[]], [], true);
    if |dups| == 0 {
      NonePending(g, img.inodes, kept, dups);
      SameFilesSelf(g, img);
      return;
    }
    var bits := cx.bmap[..];
    var nf;
    nf, w := Makefree(fs, bits, interleave, m, n);
    avail := nf;
    if clean {
      MendingStart(g, img, fs.disk, fs.St(), w, bits, kept, dups);
    }
    DupBlocks(g, img.inodes, kept, dups);
    var resolved := 0;
    ghost var all := AllClaims(g, img.blocks, img.inodes, 1);
    for k := 0 to |dups|
      invariant ListOk(g, fs.St(), w) && |bits| == g.fsize - g.dstart && old(fs.Faults()) <= fs.Faults() &&
                resolved <= k
      invariant clean && fs.Faults() == old(fs.Faults()) ==>
                  && Mending(g, fs.disk, w.tab, bits, kept, dups, resolved) && SameFiles(g, img, fs.disk)
                  && |Stack(w.segs)| == avail - resolved && (resolved < k ==> Stack(w.segs) == [])
                  && avail + |SetOf(all)| == g.fsize - g.dstart
    {
      var done;
      ghost var disk1 := fs.disk;
      done, bits, kept, w := RepairOne(fs, dups, k, bits, resolved, kept, w);
      if clean && fs.Faults() == old(fs.Faults()) {
        SameFilesThen(g, img, disk1, fs.disk);
      }
      if done {
        resolved := resolved + 1;
      }
    }
    ghost var disk2, tab2 := fs.disk, w.tab;
    ListShape(g, fs.St(), w);
    nf, w := Makefree(fs, bits, interleave, m, n);
    ok := resolved == |dups|;
    if clean && fs.Faults() == old(fs.Faults()) {
      PartlyMended(g, disk2, tab2, bits, kept, dups, resolved, fs.disk);
      SameFilesThen(g, img, disk2, fs.disk);
      if ok {
        Mended(g, disk2, tab2, bits, kept, dups, fs.disk, w.segs);
        assert FreeOfDups(g, img, fs.disk, w.segs);
      }
    }
  }

  /** The references kept are as many as the blocks, and no more than there are data blocks. */
  lemma Counted(g: Geometry, kept: seq<nat>, all: seq<nat>)
    requires g.dstart <= g.fsize && Fresh(g, {}, kept) && SetOf(kept) == SetOf(all)
    ensures |kept| == |SetOf(all)| <= g.fsize - g.dstart
  {
    CardDistinct(kept);
    var data := set b: nat | b < g.fsize && g.IsData(b);
    Interval(data, g.dstart, g.fsize);
    Subset(SetOf(kept), data);
  }

  lemma {:induction false} Subset(a: set<nat>, b: set<nat>)
    requires a <= b
    ensures |a| <= |b|
    decreases |a|
  {
    if x :| x in a {
      Subset(a - {x}, b - {x});
    }
  }

  lemma SizedValid(g: Geometry, img: Image)
    requires Sized(g, img)
    ensures g.Valid() && |img.blocks| == g.fsize
  {
  }

  lemma ListShape(g: Geometry, st: State, w: World)
    requires ListOk(g, st, w)
    ensures Shape(g, st)
  {
  }
}
