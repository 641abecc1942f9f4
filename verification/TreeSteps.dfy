/** The steps of the block-map tree (blocktree.c) and of the inode table: handing a block to
    a file, storing a pointer, dropping pointers, persisting an inode, releasing blocks. */
module TreeSteps {
  import opened Geometry
  import opened FreeChain
  import opened Image
  import opened Ownership
  import opened Consistency

  /** Writing an inode once the allocator state is on disk. */
  lemma PersistInode(g: Geometry, st: State, w: World, ino: nat, ip: Inode) returns (st': State)
    requires Sound(g, st, w) && 1 <= ino < |st.disk.inodes| && InodeOk(g, w.tab, ino, ip)
    ensures st' == st.(disk := st.disk.(inodes := st.disk.inodes[ino := ip]))
    ensures Sound(g, st', w)
    ensures Guarded(g, st, w) && !st.dirty ==> Guarded(g, st', w)
  {
    var blocks, inodes := st.disk.blocks, st.disk.inodes[ino := ip];
    st' := st.(disk := st.disk.(inodes := inodes));
    assert InodesOk(g, w.tab, inodes) by {
      forall k {:trigger inodes[k]} | 1 <= k < |inodes|
        ensures InodeOk(g, w.tab, k, inodes[k])
      {
        assert k != ino ==> inodes[k] == st.disk.inodes[k];
      }
    }
    if Guarded(g, st, w) && !st.dirty {
      forall x: nat | Claimed(g, blocks, inodes, x)
        ensures !Listed(w.segsD, x)
      {
        var k: nat, s: nat :| ClaimedAt(g, blocks, inodes, x, k, s);
        if k == ino {
          ClaimsUnder(g, blocks, w.tab, ip.addr[s], SlotOwner(g, ino, ip.large, s));
        } else {
          assert ClaimedAt(g, blocks, st.disk.inodes, x, k, s);
        }
      }
    }
  }

  ghost predicate NoEntries(g: Geometry, blocks: seq<Block>, b: nat) {
    forall i: nat {:trigger Cell(blocks, b, i)} :: i < g.nindir ==> Cell(blocks, b, i) == 0
  }

  /** Handing a block to a file: no pointer to it is stored yet. */
  lemma Assign(g: Geometry, st: State, w: World, b: nat, o: Own) returns (w': World)
    requires Sound(g, st, w) && g.IsData(b) && w.tab[b].Alloc? && o.Owned?
    requires NoEntries(g, st.disk.blocks, b) || (o.h >= 1 ==> EntriesOk(g, st.disk.blocks, w.tab, b, o))
    ensures w' == w.(tab := w.tab[b := o])
    ensures Sound(g, st, w')
    ensures Guarded(g, st, w) ==> Guarded(g, st, w')
  {
    Relabel(g, st, w.tab, b, o);
    w' := w.(tab := w.tab[b := o]);
  }

  lemma UpdateCell(blocks: seq<Block>, p: nat, v: Block)
    requires p < |blocks|
    ensures forall b: nat, i: nat {:trigger Cell(blocks[p := v], b, i)} :: b != p ==>
            Cell(blocks[p := v], b, i) == Cell(blocks, b, i)
    ensures forall i: nat {:trigger Cell(blocks[p := v], p, i)} ::
            Cell(blocks[p := v], p, i) == if i < |v| then v[i] else 0
  {
  }

  /** A write of an indirect block that keeps or zeroes entries, or stores `next` (already
      handed to the file) in one of them. */
  lemma WriteIndirect(g: Geometry, st: State, w: World, p: nat, v: Block, next: nat) returns (st': State)
    requires Sound(g, st, w) && g.IsData(p) && IsIndirect(w.tab, p) && |v| == g.bsize
    requires forall i: nat {:trigger v[i]} :: i < g.nindir ==>
               v[i] == Cell(st.disk.blocks, p, i) || v[i] == 0 ||
                   (v[i] == next && RefOk(g, w.tab, next, Child(g, w.tab[p], i)))
    requires next != 0 ==> next != p && NoEntries(g, st.disk.blocks, next)
    ensures st' == st.(disk := st.disk.(blocks := st.disk.blocks[p := v]))
    ensures Sound(g, st', w)
    ensures Guarded(g, st, w) && !(Claimed(g, st.disk.blocks, st.disk.inodes, p) && Listed(w.segsD, next))
            ==> Guarded(g, st', w)
  {
    var blocks, blocks' := st.disk.blocks, st.disk.blocks[p := v];
    st' := st.(disk := st.disk.(blocks := blocks'));
    UpdateCell(blocks, p, v);
    assert forall b: nat :: b < |blocks| && IsNode(w.segs, b) ==> blocks'[b] == blocks[b] by {
      forall b: nat | b < |blocks| && IsNode(w.segs, b)
        ensures b != p
      {
        var j :| 1 <= j < |w.segs| && |w.segs[j]| >= 1 && w.segs[j][0] == b;
        assert IsEntry(w.segs, j, 0);
      }
    }
    LinkedAgree(blocks, blocks', w.segs);
    assert TreesOk(g, blocks', w.tab);
    if Guarded(g, st, w) && !(Claimed(g, blocks, st.disk.inodes, p) && Listed(w.segsD, next)) {
      LinkedAgree(blocks, blocks', w.segsD);
      assert Evolves(g, w.tab, blocks, blocks', p, next);
      forall x: nat | Claimed(g, blocks', st.disk.inodes, x)
        ensures !Listed(w.segsD, x)
      {
        ClaimedEvolve(g, st, w, blocks', p, next, x);
      }
    }
  }

  lemma ClaimedEvolve(g: Geometry, st: State, w: World, blocks': seq<Block>, p: nat, next: nat, x: nat)
    requires Sound(g, st, w) && Evolves(g, w.tab, st.disk.blocks, blocks', p, next)
    requires Claimed(g, blocks', st.disk.inodes, x)
    ensures Claimed(g, st.disk.blocks, st.disk.inodes, x)
            || (x == next && Claimed(g, st.disk.blocks, st.disk.inodes, p))
  {
    var inodes := st.disk.inodes;
    var k: nat, s: nat :| ClaimedAt(g, blocks', inodes, x, k, s);
    ClaimsEvolve(g, st.disk.blocks, blocks', w.tab, inodes[k].addr[s], SlotOwner(g, k, inodes[k].large, s), p, next);
    if x in SlotClaims(g, st.disk.blocks, inodes[k], s) {
      assert ClaimedAt(g, st.disk.blocks, inodes, x, k, s);
    } else {
      assert ClaimedAt(g, st.disk.blocks, inodes, p, k, s);
    }
  }

  function ReleaseAll(tab: Table, dead: set<nat>): Table {
    seq(|tab|, b requires 0 <= b < |tab| => if b in dead then Alloc else tab[b])
  }

  /** Nothing outside `dead` refers into it. */
  ghost predicate Detached(g: Geometry, disk: Image, tab: Table, dead: set<nat>) {
    && (forall b: nat, i: nat {:trigger Cell(disk.blocks, b, i)} :: IsIndirect(tab, b) && b !in dead && i < g.nindir ==>
          Cell(disk.blocks, b, i) == 0 || Cell(disk.blocks, b, i) !in dead)
    && (forall ino, s {:trigger disk.inodes[ino].addr[s]} ::
          1 <= ino < |disk.inodes| && disk.inodes[ino].kind.Data? && 0 <= s < |disk.inodes[ino].addr| ==>
          disk.inodes[ino].addr[s] == 0 || disk.inodes[ino].addr[s] !in dead)
  }

  /** Dropping ownership of blocks that no reference on disk names any more. */
  lemma Release(g: Geometry, st: State, w: World, dead: set<nat>) returns (w': World)
    requires Sound(g, st, w) && Detached(g, st.disk, w.tab, dead)
    requires forall b :: b in dead ==> g.IsData(b) && w.tab[b].Owned?
    ensures w' == w.(tab := ReleaseAll(w.tab, dead))
    ensures Sound(g, st, w')
    ensures Guarded(g, st, w) ==> Guarded(g, st, w')
  {
    w' := w.(tab := ReleaseAll(w.tab, dead));
    ReleaseTrees(g, st, w, dead);
    ReleaseFiled(g, w.tab, w.segs, dead);
  }

  lemma ReleaseFiled(g: Geometry, tab: Table, segs: seq<seq<nat>>, dead: set<nat>)
    requires |tab| == g.fsize && Filed(g, tab, segs)
    requires forall b :: b in dead ==> g.IsData(b) && tab[b].Owned?
    ensures Filed(g, ReleaseAll(tab, dead), segs)
  {
    var tab' := ReleaseAll(tab, dead);
    forall b: nat {:trigger tab'[b]} | g.IsData(b) && tab'[b].Free?
      ensures IsEntry(segs, tab'[b].seg, tab'[b].idx) && segs[tab'[b].seg][tab'[b].idx] == b
    {
      assert tab'[b] == tab[b];
    }
  }

  lemma ReleaseTrees(g: Geometry, st: State, w: World, dead: set<nat>)
    requires Sound(g, st, w) && Detached(g, st.disk, w.tab, dead)
    ensures TreesOk(g, st.disk.blocks, ReleaseAll(w.tab, dead)) && InodesOk(g, ReleaseAll(w.tab, dead), st.disk.inodes)
  {
    var tab' := ReleaseAll(w.tab, dead);
    forall ino {:trigger st.disk.inodes[ino]} | 1 <= ino < |st.disk.inodes|
      ensures InodeOk(g, tab', ino, st.disk.inodes[ino])
    {
      assert InodeOk(g, w.tab, ino, st.disk.inodes[ino]);
    }
  }
}
