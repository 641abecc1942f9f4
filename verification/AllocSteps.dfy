/** The steps of the free-list allocator (alloc_freelist.c), each one keeping the invariant:
    flush, pop, reload, push and spill. */
module AllocSteps {
  import opened Geometry
  import opened FreeChain
  import opened Ownership
  import opened Consistency

  /** Flushing the superblock: the list on disk becomes the in-core list. */
  lemma Flush(g: Geometry, st: State, w: World) returns (st': State, w': World)
    requires ListOk(g, st, w)
    ensures st' == st.(disk := st.disk.(sbN := st.nfree, sbFree := st.free), dirty := false)
    ensures w' == w.(segsD := w.segs)
    ensures ListOk(g, st', w') && (Sound(g, st, w) ==> Sound(g, st', w') && Guarded(g, st', w'))
  {
    st' := st.(disk := st.disk.(sbN := st.nfree, sbFree := st.free), dirty := false);
    w' := w.(segsD := w.segs);
    if Sound(g, st, w) {
      forall x: nat | Claimed(g, st.disk.blocks, st.disk.inodes, x)
        ensures !Listed(w.segs, x)
      {
        ClaimedOwned(g, st, w, x);
      }
    }
  }

  /** Right after a flush the list on disk holds free blocks only. */
  lemma FreshlyFlushed(g: Geometry, st: State, w: World, b: nat)
    requires ListOk(g, st, w) && w.segsD == w.segs && g.IsData(b) && !w.tab[b].Free?
    ensures !IsNode(w.segsD, b)
  {
    if IsNode(w.segsD, b) {
      var j :| 1 <= j < |w.segs| && |w.segs[j]| >= 1 && w.segs[j][0] == b;
      assert IsEntry(w.segs, j, 0);
    }
  }

  /** The list without its last block, which is not the bottom of its segment. */
  ghost function DropLast(segs: seq<seq<nat>>): seq<seq<nat>>
    requires |segs| >= 1 && |segs[|segs| - 1]| >= 1
  {
    var top := |segs| - 1;
    segs[top := segs[top][..|segs[top]| - 1]]
  }

  lemma DropLastEntry(segs: seq<seq<nat>>, j: int, i: int)
    requires |segs| >= 1 && |segs[|segs| - 1]| >= 1
    ensures IsEntry(DropLast(segs), j, i) <==> IsEntry(segs, j, i) && !(j == |segs| - 1 && i == |segs[j]| - 1)
    ensures IsEntry(DropLast(segs), j, i) ==> DropLast(segs)[j][i] == segs[j][i]
  {
  }

  lemma DropLastList(g: Geometry, blocks: seq<Block>, tab: Table, segs: seq<seq<nat>>)
    requires |tab| == g.fsize && Segments(g, segs) && Linked(blocks, segs) && Filed(g, tab, segs)
    requires |segs[|segs| - 1]| >= 2
    ensures var top := |segs| - 1;
            var n := |segs[top]| - 1;
            var b := segs[top][n];
            && g.IsData(b) && tab[b] == Free(top, n)
            && Segments(g, DropLast(segs)) && Linked(blocks, DropLast(segs)) && Filed(g, tab[b := Lost], DropLast(segs))
  {
    var top := |segs| - 1;
    var n := |segs[top]| - 1;
    var b := segs[top][n];
    var segs' := DropLast(segs);
    var tab' := tab[b := Lost];
    assert IsEntry(segs, top, n);
    forall j, i {:trigger segs'[j][i]} | IsEntry(segs', j, i)
      ensures g.IsData(segs'[j][i]) && tab'[segs'[j][i]] == Free(j, i)
    {
      DropLastEntry(segs, j, i);
    }
    forall c: nat {:trigger tab'[c]} | g.IsData(c) && tab'[c].Free?
      ensures IsEntry(segs', tab'[c].seg, tab'[c].idx) && segs'[tab'[c].seg][tab'[c].idx] == c
    {
      DropLastEntry(segs, tab[c].seg, tab[c].idx);
    }
    forall j | 1 <= j < |segs'| && |segs'[j]| >= 1
      ensures Stored(blocks, segs'[j][0], segs'[j - 1])
    {
      assert Stored(blocks, segs[j][0], segs[j - 1]);
    }
  }

  /** The crash contract ignores the in-core list; it allows a free block to leak. */
  lemma LeakGuarded(g: Geometry, st: State, w: World, b: nat)
    requires |w.tab| == g.fsize && g.IsData(b) && w.tab[b].Free? && Guarded(g, st, w)
    ensures Guarded(g, st, w.(tab := w.tab[b := Lost]))
    ensures w.tab[b].idx > 0 ==> !IsNode(w.segsD, b)
  {
  }

  /** Popping a block that is not the bottom of the cache.  Until the caller takes it, it
      belongs to nobody. */
  lemma PopLeaf(g: Geometry, st: State, w: World) returns (st': State, w': World)
    requires ListOk(g, st, w) && st.nfree >= 2
    ensures var b := st.free[st.nfree - 1];
            && g.IsData(b) && w.tab[b] == Free(|w.segs| - 1, st.nfree - 1)
            && w.segs[|w.segs| - 1] == st.free[..st.nfree]
            && st' == st.(nfree := st.nfree - 1)
            && w' == w.(segs := DropLast(w.segs), tab := w.tab[b := Lost])
    ensures ListOk(g, st', w') && (Sound(g, st, w) ==> Sound(g, st', w'))
    ensures Guarded(g, st, w) ==> Guarded(g, st', w') && !IsNode(w'.segsD, st.free[st.nfree - 1])
  {
    var b := st.free[st.nfree - 1];
    DropLastList(g, st.disk.blocks, w.tab, w.segs);
    if Sound(g, st, w) {
      Relabel(g, st, w.tab, b, Lost);
    }
    st' := st.(nfree := st.nfree - 1);
    w' := w.(segs := DropLast(w.segs), tab := w.tab[b := Lost]);
    if Guarded(g, st, w) {
      LeakGuarded(g, st, w, b);
      assert Guarded(g, st, w.(tab := w'.tab));
    }
  }

  lemma DropSegmentList(g: Geometry, blocks: seq<Block>, tab: Table, segs: seq<seq<nat>>)
    requires |tab| == g.fsize && Segments(g, segs) && Linked(blocks, segs) && Filed(g, tab, segs)
    requires |segs| >= 2 && |segs[|segs| - 1]| == 1
    ensures var b := segs[|segs| - 1][0];
            && g.IsData(b)
            && Segments(g, segs[..|segs| - 1]) && Linked(blocks, segs[..|segs| - 1]) &&
                 Filed(g, tab[b := Lost], segs[..|segs| - 1])
  {
    var top := |segs| - 1;
    var b := segs[top][0];
    var segs' := segs[..top];
    assert IsEntry(segs, top, 0);
    forall j, i {:trigger segs'[j][i]} | IsEntry(segs', j, i)
      ensures g.IsData(segs'[j][i]) && tab[b := Lost][segs'[j][i]] == Free(j, i)
    {
      assert IsEntry(segs, j, i);
    }
  }

  /** Popping the 0 that ends the list. */
  lemma PopSentinel(g: Geometry, st: State, w: World) returns (st': State, w': World)
    requires ListOk(g, st, w) && st.nfree >= 1 && st.free[st.nfree - 1] == 0
    ensures st.nfree == 1 && w.segs == [[0]]
    ensures st' == st.(nfree := 0) && w' == w.(segs := [[]])
    ensures ListOk(g, st', w') && (Sound(g, st, w) ==> Sound(g, st', w'))
    ensures Guarded(g, st, w) ==> Guarded(g, st', w')
  {
    var top, n := |w.segs| - 1, st.nfree - 1;
    if top > 0 || n > 0 {
      assert IsEntry(w.segs, top, n);
    }
    assert w.segs == [[0]] by {
      assert w.segs[0] == [0];
    }
    st' := st.(nfree := 0);
    w' := w.(segs := [[]]);
    forall b: nat {:trigger w.tab[b]} | g.IsData(b)
      ensures !w.tab[b].Free?
    {
    }
  }

  /** Popping the bottom of the cache, a chain block, and reloading the cache from it. */
  lemma PopNode(g: Geometry, st: State, w: World, free: seq<nat>) returns (st': State, w': World)
    requires ListOk(g, st, w) && st.nfree == 1 && st.free[0] != 0
    requires |free| == g.nicfree
    requires forall i {:trigger free[i]} :: 0 <= i < g.nicfree ==> free[i] == Cell(st.disk.blocks, st.free[0], i + 1)
    ensures var b, n := st.free[0], Cell(st.disk.blocks, st.free[0], 0);
            && g.IsData(b) && |w.segs| >= 2 && w.tab[b] == Free(|w.segs| - 1, 0)
            && w.segs[|w.segs| - 1] == [b] && n <= g.nicfree
            && st' == st.(nfree := n, free := free)
            && w' == w.(segs := w.segs[..|w.segs| - 1], tab := w.tab[b := Lost])
    ensures ListOk(g, st', w') && (Sound(g, st, w) ==> Sound(g, st', w'))
    ensures Guarded(g, st, w) ==> Guarded(g, st', w')
  {
    var top, b := |w.segs| - 1, st.free[0];
    var segs', tab' := w.segs[..top], w.tab[b := Lost];
    assert w.segs[top] == [b];
    assert IsEntry(w.segs, top, 0);
    assert Stored(st.disk.blocks, b, w.segs[top - 1]);
    var n := Cell(st.disk.blocks, b, 0);
    assert free[..n] == w.segs[top - 1];
    if Sound(g, st, w) {
      Relabel(g, st, w.tab, b, Lost);
    }
    st' := st.(nfree := n, free := free);
    w' := w.(segs := segs', tab := tab');
    DropSegmentList(g, st.disk.blocks, w.tab, w.segs);
    if Guarded(g, st, w) {
      LeakGuarded(g, st, w, b);
    }
  }

  /** The cache became unreadable: every block of the in-core list leaks. */
  lemma PopUnreadable(g: Geometry, st: State, w: World) returns (st': State, w': World)
    requires ListOk(g, st, w)
    ensures st' == st.(nfree := 0)
    ensures w' == w.(segs := [[]], tab := LeakFree(w.tab))
    ensures ListOk(g, st', w') && (Sound(g, st, w) ==> Sound(g, st', w'))
    ensures Guarded(g, st, w) ==> Guarded(g, st', w')
  {
    hide TreesOk, InodesOk, Intact, Unaliased, Shielded, Settled;
    st' := st.(nfree := 0);
    w' := w.(segs := [[]], tab := LeakFree(w.tab));
    assert st'.free[..0] == [];
    if Sound(g, st, w) {
      LeakTrees(g, st, w);
    }
    if Guarded(g, st, w) {
      LeakAllGuarded(g, st, w);
    }
  }

  lemma LeakTrees(g: Geometry, st: State, w: World)
    requires Sound(g, st, w)
    ensures TreesOk(g, st.disk.blocks, LeakFree(w.tab)) && InodesOk(g, LeakFree(w.tab), st.disk.inodes)
  {
    var tab' := LeakFree(w.tab);
    forall ino {:trigger st.disk.inodes[ino]} | 1 <= ino < |st.disk.inodes|
      ensures InodeOk(g, tab', ino, st.disk.inodes[ino])
    {
      assert InodeOk(g, w.tab, ino, st.disk.inodes[ino]);
    }
  }

  lemma LeakAllGuarded(g: Geometry, st: State, w: World)
    requires Guarded(g, st, w)
    ensures Guarded(g, st, w.(tab := LeakFree(w.tab)))
  {
  }

  function LeakFree(tab: Table): Table {
    seq(|tab|, b requires 0 <= b < |tab| => if tab[b].Free? then Lost else tab[b])
  }

  /** A popped block was zeroed and handed to the caller. */
  lemma Adopt(g: Geometry, st: State, w: World, b: nat) returns (st': State, w': World)
    requires ListOk(g, st, w) && g.IsData(b) && w.tab[b].Lost?
    ensures st' == st.(disk := st.disk.(blocks := st.disk.blocks[b := Zeros(g.bsize)]), dirty := true)
    ensures w' == w.(tab := w.tab[b := Alloc])
    ensures ListOk(g, st', w') && (Sound(g, st, w) ==> Sound(g, st', w'))
    ensures Sound(g, st, w) && Guarded(g, st, w) && !IsNode(w.segsD, b) ==> Guarded(g, st', w')
  {
    FreshlyFlushed(g, st, w.(segsD := w.segs), b);
    var blocks := st.disk.blocks[b := Zeros(g.bsize)];
    var mid := st.(disk := st.disk.(blocks := blocks));
    LinkedAgree(st.disk.blocks, blocks, w.segs);
    if Sound(g, st, w) {
      var quiet := WriteQuiet(g, st, w, b, Zeros(g.bsize));
      Relabel(g, mid, w.tab, b, Alloc);
    }
    st' := mid.(dirty := true);
    w' := w.(tab := w.tab[b := Alloc]);
  }

  /** The block after which the list restarts when it is empty: a 0 at the bottom. */
  lemma PushSentinel(g: Geometry, st: State, w: World) returns (st': State, w': World)
    requires ListOk(g, st, w) && st.nfree == 0
    ensures w.segs == [[]]
    ensures st' == st.(nfree := 1, free := st.free[0 := 0]) && w' == w.(segs := [[0]])
    ensures ListOk(g, st', w') && (Sound(g, st, w) ==> Sound(g, st', w'))
    ensures Guarded(g, st, w) ==> Guarded(g, st', w')
  {
    assert w.segs == [[]] by {
      assert w.segs[|w.segs| - 1] == [];
    }
    st' := st.(nfree := 1, free := st.free[0 := 0]);
    w' := w.(segs := [[0]]);
    assert st'.free[..1] == [0];
    forall b: nat {:trigger w.tab[b]} | g.IsData(b)
      ensures !w.tab[b].Free?
    {
    }
  }

  ghost function AddLast(segs: seq<seq<nat>>, b: nat): seq<seq<nat>>
    requires |segs| >= 1
  {
    segs[|segs| - 1 := segs[|segs| - 1] + [b]]
  }

  lemma AddLastList(g: Geometry, blocks: seq<Block>, tab: Table, segs: seq<seq<nat>>, b: nat)
    requires |tab| == g.fsize && Segments(g, segs) && Linked(blocks, segs) && Filed(g, tab, segs)
    requires g.IsData(b) && !tab[b].Free? && 1 <= |segs[|segs| - 1]| < g.nicfree
    ensures var top := |segs| - 1;
            && Segments(g, AddLast(segs, b)) && Linked(blocks, AddLast(segs, b))
            && Filed(g, tab[b := Free(top, |segs[top]|)], AddLast(segs, b))
  {
    var top := |segs| - 1;
    var n := |segs[top]|;
    var segs', tab' := AddLast(segs, b), tab[b := Free(top, n)];
    forall j, i {:trigger segs'[j][i]} | IsEntry(segs', j, i)
      ensures g.IsData(segs'[j][i]) && tab'[segs'[j][i]] == Free(j, i)
    {
      if j == top && i == n {
        assert segs'[j][i] == b;
      } else {
        assert IsEntry(segs, j, i) && segs'[j][i] == segs[j][i];
      }
    }
    forall c: nat {:trigger tab'[c]} | g.IsData(c) && tab'[c].Free?
      ensures IsEntry(segs', tab'[c].seg, tab'[c].idx) && segs'[tab'[c].seg][tab'[c].idx] == c
    {
      if c != b {
        assert IsEntry(segs, tab[c].seg, tab[c].idx);
      }
    }
    forall j | 1 <= j < |segs'| && |segs'[j]| >= 1
      ensures Stored(blocks, segs'[j][0], segs'[j - 1])
    {
      assert Stored(blocks, segs[j][0], segs[j - 1]);
    }
  }

  /** Filing a block that its caller gave up keeps the crash contract. */
  lemma FileGuarded(g: Geometry, st: State, w: World, b: nat, seg: nat, idx: nat)
    requires |w.tab| == g.fsize && g.IsData(b) && w.tab[b].Alloc? && Guarded(g, st, w)
    ensures Guarded(g, st, w.(tab := w.tab[b := Free(seg, idx)]))
  {
  }

  /** Freeing a block into a cache with room. */
  lemma Push(g: Geometry, st: State, w: World, b: nat) returns (st': State, w': World)
    requires ListOk(g, st, w) && 1 <= st.nfree < g.nicfree
    requires g.IsData(b) && w.tab[b].Alloc?
    ensures st' == st.(nfree := st.nfree + 1, free := st.free[st.nfree := b])
    ensures w' == w.(segs := AddLast(w.segs, b), tab := w.tab[b := Free(|w.segs| - 1, st.nfree)])
    ensures ListOk(g, st', w') && (Sound(g, st, w) ==> Sound(g, st', w'))
    ensures Guarded(g, st, w) ==> Guarded(g, st', w')
  {
    AddLastList(g, st.disk.blocks, w.tab, w.segs, b);
    if Sound(g, st, w) {
      Relabel(g, st, w.tab, b, Free(|w.segs| - 1, st.nfree));
    }
    st' := st.(nfree := st.nfree + 1, free := st.free[st.nfree := b]);
    w' := w.(segs := AddLast(w.segs, b), tab := w.tab[b := Free(|w.segs| - 1, st.nfree)]);
    if Guarded(g, st, w) {
      FileGuarded(g, st, w, b, |w.segs| - 1, st.nfree);
    }
  }

  lemma NewSegmentList(g: Geometry, blocks: seq<Block>, tab: Table, segs: seq<seq<nat>>, b: nat)
    requires |tab| == g.fsize && Segments(g, segs) && Linked(blocks, segs) && Filed(g, tab, segs)
    requires g.nicfree >= 1 && g.IsData(b) && !tab[b].Free? && Stored(blocks, b, segs[|segs| - 1])
    ensures Segments(g, segs + [[b]]) && Linked(blocks, segs + [[b]]) &&
            Filed(g, tab[b := Free(|segs|, 0)], segs + [[b]])
  {
    var segs', tab' := segs + [[b]], tab[b := Free(|segs|, 0)];
    forall j, i {:trigger segs'[j][i]} | IsEntry(segs', j, i)
      ensures g.IsData(segs'[j][i]) && tab'[segs'[j][i]] == Free(j, i)
    {
      if j < |segs| {
        assert IsEntry(segs, j, i) && segs'[j][i] == segs[j][i];
      }
    }
    forall c: nat {:trigger tab'[c]} | g.IsData(c) && tab'[c].Free?
      ensures IsEntry(segs', tab'[c].seg, tab'[c].idx) && segs'[tab'[c].seg][tab'[c].idx] == c
    {
      if c != b {
        assert IsEntry(segs, tab[c].seg, tab[c].idx);
      }
    }
    forall j | 1 <= j < |segs'| && |segs'[j]| >= 1
      ensures Stored(blocks, segs'[j][0], segs'[j - 1])
    {
      if j < |segs| {
        assert Stored(blocks, segs[j][0], segs[j - 1]);
      }
    }
  }

  /** Freeing a block into a full cache: the cache is dumped into the block, which becomes
      the bottom of a new cache. */
  lemma Spill(g: Geometry, st: State, w: World, b: nat, dump: Block) returns (st': State, w': World)
    requires ListOk(g, st, w) && st.nfree == g.nicfree
    requires g.IsData(b) && w.tab[b].Alloc? && |dump| == g.bsize && dump[0] == st.nfree
    requires forall i {:trigger st.free[i]} :: 0 <= i < g.nicfree ==> dump[i + 1] == st.free[i]
    ensures st' == State(st.disk.(blocks := st.disk.blocks[b := dump]), 1, st.free[0 := b], st.dirty)
    ensures w' == w.(segs := w.segs + [[b]], tab := w.tab[b := Free(|w.segs|, 0)])
    ensures ListOk(g, st', w') && (Sound(g, st, w) ==> Sound(g, st', w'))
    ensures Sound(g, st, w) && Guarded(g, st, w) ==> Guarded(g, st', w')
  {
    FreshlyFlushed(g, st, w.(segsD := w.segs), b);
    var blocks := st.disk.blocks[b := dump];
    var mid := st.(disk := st.disk.(blocks := blocks));
    LinkedAgree(st.disk.blocks, blocks, w.segs);
    assert Stored(blocks, b, w.segs[|w.segs| - 1]) by {
      assert blocks[b] == dump;
    }
    NewSegmentList(g, blocks, w.tab, w.segs, b);
    if Sound(g, st, w) {
      var quiet := WriteQuiet(g, st, w, b, dump);
      Relabel(g, mid, w.tab, b, Free(|w.segs|, 0));
    }
    st' := mid.(nfree := 1, free := st.free[0 := b]);
    w' := w.(segs := w.segs + [[b]], tab := w.tab[b := Free(|w.segs|, 0)]);
    assert st'.free[..1] == [b];
    if Sound(g, st, w) && Guarded(g, st, w) {
      var quiet := WriteQuiet(g, st, w, b, dump);
      FileGuarded(g, mid, w, b, |w.segs|, 0);
    }
  }

  /** A block whose dump could not be written leaks. */
  lemma Abandon(g: Geometry, st: State, w: World, b: nat) returns (w': World)
    requires ListOk(g, st, w) && g.IsData(b) && w.tab[b].Alloc?
    ensures w' == w.(tab := w.tab[b := Lost])
    ensures ListOk(g, st, w') && (Sound(g, st, w) ==> Sound(g, st, w'))
    ensures Guarded(g, st, w) ==> Guarded(g, st, w')
  {
    if Sound(g, st, w) {
      Relabel(g, st, w.tab, b, Lost);
    }
    w' := w.(tab := w.tab[b := Lost]);
  }
}
