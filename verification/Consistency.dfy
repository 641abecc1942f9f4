/** The invariant of a mounted volume and the atomic steps that keep it.

    `Sound` is what the in-core allocator, the trees and the ownership table keep at all
    times.  `Guarded` is the crash contract: what must hold of the image on disk so that it
    is free of aliasing if the process stops here.  Each lemma below is one step of the
    engine; every operation is a sequence of these steps. */
module Consistency {
  import opened Geometry
  import opened FreeChain
  import opened Image
  import opened Ownership

  /** The disk and the in-core allocator state. */
  datatype State = State(disk: Image, nfree: nat, free: seq<nat>, dirty: bool)

  /** The entry that the allocator takes next; 0 if there is none. */
  function Top(st: State): nat {
    if 0 < st.nfree <= |st.free| then st.free[st.nfree - 1] else 0
  }

  /** Ghost view: the segments of the in-core list and of the list on disk, the ownership
      table, and whether a pointer was ever stored past the flush barrier. */
  datatype World = World(segs: seq<seq<nat>>, segsD: seq<seq<nat>>, tab: Table, breach: bool)

  ghost predicate Shape(g: Geometry, st: State) {
    && g.Valid()
    && |st.disk.blocks| == g.fsize
    && (forall b {:trigger st.disk.blocks[b]} :: 0 <= b < g.fsize ==> |st.disk.blocks[b]| == g.bsize)
    && st.nfree <= |st.free| == g.nicfree
    && |st.disk.sbFree| == g.nicfree
  }

  /** The table and the in-core list agree on which blocks are free, and where. */
  ghost predicate Filed(g: Geometry, tab: Table, segs: seq<seq<nat>>)
    requires |tab| == g.fsize
  {
    && (forall j, i {:trigger segs[j][i]} :: IsEntry(segs, j, i) ==>
          g.IsData(segs[j][i]) && tab[segs[j][i]] == Free(j, i))
    && (forall b: nat {:trigger tab[b]} :: g.IsData(b) && tab[b].Free? ==>
          IsEntry(segs, tab[b].seg, tab[b].idx) && segs[tab[b].seg][tab[b].idx] == b)
  }

  /** The in-core list alone: what freeing a block relies on, and all a salvage has. */
  ghost predicate ListOk(g: Geometry, st: State, w: World) {
    && Shape(g, st)
    && |w.tab| == g.fsize
    && Segments(g, w.segs)
    && Cached(w.segs, st.nfree, st.free)
    && Linked(st.disk.blocks, w.segs)
    && Filed(g, w.tab, w.segs)
  }

  ghost predicate Sound(g: Geometry, st: State, w: World) {
    && ListOk(g, st, w)
    && TreesOk(g, st.disk.blocks, w.tab)
    && InodesOk(g, w.tab, st.disk.inodes)
  }

  /** b is a chain block of the list. */
  ghost predicate IsNode(segs: seq<seq<nat>>, b: nat) {
    exists j {:trigger segs[j]} :: 1 <= j < |segs| && |segs[j]| >= 1 && segs[j][0] == b
  }

  /** A chain block of the list on disk is never handed out: it is still at the bottom of
      an in-core segment, or it leaked. */
  ghost predicate Shielded(tab: Table, segsD: seq<seq<nat>>) {
    forall b {:trigger tab[b]} :: 0 <= b < |tab| && IsNode(segsD, b) ==>
        tab[b].Lost? || (tab[b].Free? && tab[b].idx == 0)
  }

  /** Nothing that was allocated since the last flush is listed free on disk. */
  ghost predicate Settled(tab: Table, segsD: seq<seq<nat>>) {
    forall b {:trigger tab[b]} :: 0 <= b < |tab| && Listed(segsD, b) ==> tab[b].Lost? || tab[b].Free?
  }

  /** No block is both referenced and listed free on disk. */
  ghost predicate Unaliased(g: Geometry, disk: Image, segsD: seq<seq<nat>>) {
    forall x: nat :: Claimed(g, disk.blocks, disk.inodes, x) ==> !Listed(segsD, x)
  }

  ghost predicate Guarded(g: Geometry, st: State, w: World) {
    && Intact(g, st.disk.blocks, st.disk.sbN, st.disk.sbFree, w.segsD)
    && Shielded(w.tab, w.segsD)
    && Unaliased(g, st.disk, w.segsD)
    && (!st.dirty ==> Settled(w.tab, w.segsD))
  }

  ghost predicate Inv(g: Geometry, st: State, w: World) {
    Sound(g, st, w) && (!w.breach ==> Guarded(g, st, w))
  }

  /** What allocator work leaves alone: the inode table and every block that was not free.
      It hands no block to a file. */
  ghost predicate AllocFrame(st: State, w: World, st': State, w': World) {
    && st'.disk.inodes == st.disk.inodes
    && |st'.disk.blocks| == |st.disk.blocks| && |w'.tab| == |w.tab|
    && w'.breach == w.breach
    && (forall b {:trigger w'.tab[b]} {:trigger st'.disk.blocks[b]} ::
          0 <= b < |w.tab| && b < |st.disk.blocks| && !w.tab[b].Free? ==>
          w'.tab[b] == w.tab[b] && st'.disk.blocks[b] == st.disk.blocks[b])
    && (forall b {:trigger w'.tab[b]} :: 0 <= b < |w.tab| && w'.tab[b].Owned? ==> w.tab[b].Owned?)
  }

  /** From w to w' at most k blocks left the list, and the total tf kept step with it. */
  ghost predicate Spent(w: World, tf: nat, w': World, tf': nat, k: nat) {
    && |Stack(w.segs)| <= |Stack(w'.segs)| + k
    && (tf == |Stack(w.segs)| ==> tf' == |Stack(w'.segs)|)
  }

  /** The total keeps step with the list. */
  ghost predicate InStep(w: World, tf: nat, w': World, tf': nat) {
    tf == |Stack(w.segs)| ==> tf' == |Stack(w'.segs)|
  }

  lemma SpentStep(w: World, tf: nat, w': World, tf': nat, k: nat)
    requires Spent(w, tf, w', tf', k)
    ensures InStep(w, tf, w', tf')
  {
    hide Stack;
  }

  lemma StepThen(w: World, tf: nat, w1: World, tf1: nat, w2: World, tf2: nat)
    requires InStep(w, tf, w1, tf1) && InStep(w1, tf1, w2, tf2)
    ensures InStep(w, tf, w2, tf2)
  {
    hide Stack;
  }

  lemma StepNone(w: World, w': World, tf: nat)
    requires w'.segs == w.segs
    ensures InStep(w, tf, w', tf)
  {
  }

  lemma SpentNone(w: World, w': World, tf: nat, k: nat)
    requires w'.segs == w.segs
    ensures Spent(w, tf, w', tf, k)
  {
  }

  lemma SpentThen(w: World, tf: nat, w1: World, tf1: nat, w2: World, tf2: nat, k: nat, l: nat)
    requires Spent(w, tf, w1, tf1, k) && Spent(w1, tf1, w2, tf2, l)
    ensures Spent(w, tf, w2, tf2, k + l)
  {
    hide Stack;
  }

  lemma SpentMore(w: World, tf: nat, w': World, tf': nat, k: nat, l: nat)
    requires Spent(w, tf, w', tf', k) && k <= l
    ensures Spent(w, tf, w', tf', l)
  {
    hide Stack;
  }

  /** No block leaked, and none is left in a caller's hands. */
  ghost predicate NoLoss(tab: Table, tab': Table) {
    && |tab'| == |tab|
    && forall b {:trigger tab'[b]} :: 0 <= b < |tab| && (tab'[b].Lost? || tab'[b].Alloc?) ==> tab'[b] == tab[b]
  }

  lemma NoLossSelf(tab: Table)
    ensures NoLoss(tab, tab)
  {
  }

  lemma NoLossThen(tab: Table, tab1: Table, tab2: Table)
    requires NoLoss(tab, tab1) && NoLoss(tab1, tab2)
    ensures NoLoss(tab, tab2)
  {
  }

  /** The sizes and the cache, without the rest of the invariant. */
  lemma Facts(g: Geometry, st: State, w: World)
    requires Sound(g, st, w) || ListOk(g, st, w)
    ensures g.Valid() && |st.disk.blocks| == g.fsize && |w.tab| == g.fsize
    ensures st.nfree <= |st.free| == g.nicfree && |w.segs| >= 1 && w.segs[|w.segs| - 1] == st.free[..st.nfree]
    ensures forall b {:trigger st.disk.blocks[b]} :: 0 <= b < g.fsize ==> |st.disk.blocks[b]| == g.bsize
    ensures Segments(g, w.segs)
    ensures st.nfree >= 1 && st.free[st.nfree - 1] != 0 ==>
              var b := st.free[st.nfree - 1];
              g.IsData(b) && w.tab[b] == Free(|w.segs| - 1, st.nfree - 1)
  {
    if st.nfree >= 1 && st.free[st.nfree - 1] != 0 {
      assert IsEntry(w.segs, |w.segs| - 1, st.nfree - 1);
    }
  }

  lemma SoundList(g: Geometry, st: State, w: World)
    requires Sound(g, st, w)
    ensures ListOk(g, st, w)
  {
  }

  lemma SoundAnyway(g: Geometry, st: State, w: World)
    requires Sound(g, st, w)
    ensures Sound(g, st, w.(breach := true))
  {
  }

  /** The crash contract implies "never class D". */
  lemma GuardedNeverD(g: Geometry, st: State, w: World)
    requires Sound(g, st, w) && Guarded(g, st, w)
    ensures NeverD(g, st.disk)
  {
    var disk := st.disk;
    AllDistinct(g, disk.blocks, w.tab, disk.inodes, 1);
    forall x | x in AllClaims(g, disk.blocks, disk.inodes, 1)
      ensures g.IsData(x) && !Listed(w.segsD, x)
    {
      MemberIsClaimed(g, disk.blocks, disk.inodes, x, 1);
    }
  }

  /** What an inode claims carries the inode's own labels. */
  lemma ClaimedOwned(g: Geometry, st: State, w: World, x: nat)
    requires Sound(g, st, w) && Claimed(g, st.disk.blocks, st.disk.inodes, x)
    ensures g.IsData(x) && w.tab[x].Owned?
  {
    var ino: nat, s: nat :| ClaimedAt(g, st.disk.blocks, st.disk.inodes, x, ino, s);
    var ip := st.disk.inodes[ino];
    ClaimsUnder(g, st.disk.blocks, w.tab, ip.addr[s], SlotOwner(g, ino, ip.large, s));
  }

  // ---- writes that leave every indirect and chain block alone ----

  lemma LinkedAgree(blocks: seq<Block>, blocks': seq<Block>, segs: seq<seq<nat>>)
    requires Linked(blocks, segs) && |blocks'| == |blocks|
    requires forall b: nat :: b < |blocks| && IsNode(segs, b) ==> blocks'[b] == blocks[b]
    ensures Linked(blocks', segs)
  {
    forall j | 1 <= j < |segs| && |segs[j]| >= 1
      ensures Stored(blocks', segs[j][0], segs[j - 1])
    {
      var c := segs[j][0];
      assert IsNode(segs, c);
      assert Stored(blocks, c, segs[j - 1]);
      assert forall i :: Cell(blocks', c, i) == Cell(blocks, c, i);
    }
  }

  /** Claims survive any change that is quiet on indirect blocks. */
  lemma ClaimedAgree(g: Geometry, blocks: seq<Block>, blocks': seq<Block>, tab: Table, inodes: seq<Inode>, x: nat)
    requires g.Valid() && TreesOk(g, blocks, tab) && InodesOk(g, tab, inodes)
    requires forall b: nat, i: nat {:trigger Cell(blocks', b, i)} :: IsIndirect(tab, b) ==>
             Cell(blocks', b, i) == Cell(blocks, b, i)
    ensures Claimed(g, blocks', inodes, x) ==> Claimed(g, blocks, inodes, x)
  {
    if Claimed(g, blocks', inodes, x) {
      var ino: nat, s: nat :| ClaimedAt(g, blocks', inodes, x, ino, s);
      ClaimsAgree(g, blocks, blocks', tab, inodes[ino].addr[s], SlotOwner(g, ino, inodes[ino].large, s));
      assert ClaimedAt(g, blocks, inodes, x, ino, s);
    }
  }

  /** Writing a block that is no indirect block and no chain block. */
  lemma WriteQuiet(g: Geometry, st: State, w: World, b: nat, v: Block) returns (st': State)
    requires Sound(g, st, w) && g.IsData(b) && |v| == g.bsize
    requires !IsIndirect(w.tab, b) && !IsNode(w.segs, b)
    ensures st' == st.(disk := st.disk.(blocks := st.disk.blocks[b := v]))
    ensures Sound(g, st', w)
    ensures Guarded(g, st, w) && !IsNode(w.segsD, b) ==> Guarded(g, st', w)
  {
    var blocks, blocks' := st.disk.blocks, st.disk.blocks[b := v];
    st' := st.(disk := st.disk.(blocks := blocks'));
    assert forall c: nat, i: nat {:trigger Cell(blocks', c, i)} :: c != b ==> Cell(blocks', c, i) == Cell(blocks, c, i);
    LinkedAgree(blocks, blocks', w.segs);
    if Guarded(g, st, w) && !IsNode(w.segsD, b) {
      LinkedAgree(blocks, blocks', w.segsD);
      forall x: nat | Claimed(g, blocks', st.disk.inodes, x)
        ensures !Listed(w.segsD, x)
      {
        ClaimedAgree(g, blocks, blocks', w.tab, st.disk.inodes, x);
      }
    }
  }

  // ---- relabelling a block that nothing references ----

  lemma Relabel(g: Geometry, st: State, tab: Table, b: nat, o: Own)
    requires g.Valid() && |tab| == g.fsize && TreesOk(g, st.disk.blocks, tab) && InodesOk(g, tab, st.disk.inodes)
    requires g.IsData(b) && !tab[b].Owned?
    requires o.Owned? && o.h >= 1 ==> EntriesOk(g, st.disk.blocks, tab, b, o)
    ensures TreesOk(g, st.disk.blocks, tab[b := o]) && InodesOk(g, tab[b := o], st.disk.inodes)
  {
    var blocks, tab' := st.disk.blocks, tab[b := o];
    forall c: nat, i: nat {:trigger Cell(blocks, c, i)} | IsIndirect(tab', c) && i < g.nindir
      ensures RefOk(g, tab', Cell(blocks, c, i), Child(g, tab'[c], i))
    {
      if c != b {
        assert RefOk(g, tab, Cell(blocks, c, i), Child(g, tab[c], i));
      } else {
        assert RefOk(g, tab, Cell(blocks, b, i), Child(g, o, i));
      }
    }
    forall ino {:trigger st.disk.inodes[ino]} | 1 <= ino < |st.disk.inodes|
      ensures InodeOk(g, tab', ino, st.disk.inodes[ino])
    {
      assert InodeOk(g, tab, ino, st.disk.inodes[ino]);
    }
  }

  /** The entries of b fit position o. */
  ghost predicate EntriesOk(g: Geometry, blocks: seq<Block>, tab: Table, b: nat, o: Own)
    requires o.Owned? && o.h >= 1
  {
    forall i: nat {:trigger Cell(blocks, b, i)} :: i < g.nindir ==> RefOk(g, tab, Cell(blocks, b, i), Child(g, o, i))
  }
}
