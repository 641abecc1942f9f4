/** Concrete volumes on which a promise fails: the store that the flush barrier does not
    cover, and the tail that a shrink does not zero. */
module Witness {
  import opened Geo = Geometry
  import LinkWidth
  import opened FreeChain
  import opened Img = Image
  import opened Ownership
  import opened Consistency
  import opened AllocSteps
  import opened TreeSteps
  import opened Barrier
  import opened Mapping
  import opened BlockMap
  import opened FileBytes
  import opened FileOps
  import opened CheckSpec
  import opened Walks
  import opened Check
  import opened Editions

  /** One direct and one single-indirect slot, two entries per indirect block, three data blocks. */
  const tiny := Geometry(4, 2, 1, 2, 2, false, 0, 0, 1, 4, LinkWidth.Word)

  /** Inode 1 maps logical block 1 through the indirect block 1 to block 3; block 2 is free. */
  const before := Image(
    [[0, 0, 0, 0], [3, 0, 0, 0], [0, 0, 0, 0], [7, 7, 7, 7]],
    [Inode(Unalloc, false, 0, 0, [0, 0]), Inode(Data, false, 1, 8, [0, 1])],
    2, [0, 2])

  const state := State(before, 2, [0, 2], false)

  const world := World([[0, 2]], [[0, 2]], [Lost, Owned(1, 1, 1), Free(0, 1), Owned(1, 0, 1)], false)

  lemma TinyPow()
    ensures Pow(2, 0) == 1 && Pow(2, 1) == 2
    ensures Base(tiny, false, 0) == 0 && Base(tiny, false, 1) == 1
    ensures Height(tiny, false, 0) == 0 && Height(tiny, false, 1) == 1
  {
    assert Pow(2, 1) == 2 * Pow(2, 0);
    assert Span(tiny, false, 0) == Pow(2, 0);
  }

  lemma SpansOf(g: Geo.Geometry, large: bool)
    requires !g.ilarg && g.nindir == 2 && g.ndaddr == 1
    ensures Base(g, large, 0) == 0 && Base(g, large, 1) == 1
    ensures Span(g, large, 0) == Span32(g, large, 0) == 1 && Span32(g, large, 1) == 2
  {
    hide Pow, Wrap32, Base;
    Powers(g.nindir);
    BaseZero(g, large);
    WrapSmall(1);
    WrapSmall(2);
  }

  lemma BaseZero(g: Geo.Geometry, large: bool)
    ensures Base(g, large, 0) == 0 && Base(g, large, 1) == Span(g, large, 0)
  {
    var one: nat := 1;
    assert Base(g, large, one) == Base(g, large, 0) + Span(g, large, 0);
  }

  lemma WrapSmall(x: nat)
    requires x < U32
    ensures Wrap32(x) == x
  {
    ModBelow(x, U32);
  }

  lemma TinyNarrow()
    ensures Narrow(tiny)
  {
    hide Base, Span, Span32, Pow;
    forall large: bool, s: nat {:trigger Base(tiny, large, s)} | s < tiny.niaddr
      ensures Base(tiny, large, s) + Span32(tiny, large, s) < U32 &&
              (s + 1 < tiny.niaddr ==> Span(tiny, large, s) < U32)
    {
      SpansOf(tiny, large);
      assert s == 0 || s == 1;
    }
  }

  lemma TinyTrees()
    ensures TreesOk(tiny, before.blocks, world.tab) && InodesOk(tiny, world.tab, before.inodes)
  {
    hide Pow, Base, Height;
    TinyPow();
    forall b: nat, i: nat {:trigger Cell(before.blocks, b, i)} | IsIndirect(world.tab, b) && i < tiny.nindir
      ensures RefOk(tiny, world.tab, Cell(before.blocks, b, i), Child(tiny, world.tab[b], i))
    {
      assert b == 1;
      assert Cell(before.blocks, 1, i) == if i == 0 then 3 else 0;
    }
    assert InodeOk(tiny, world.tab, 1, before.inodes[1]);
  }

  /** A list of one block: a 0 and the block in the cache. */
  lemma PairList(g: Geo.Geometry, blocks: seq<Block>, tab: Table, free: seq<nat>, b: nat, segs: seq<seq<nat>>)
    requires segs == [[0, b]] && free == [0, b] && g.IsData(b) && g.nicfree == 2 && |tab| == g.fsize &&
             tab[b] == Free(0, 1)
    requires forall c: nat :: c < |tab| && c != b ==> !tab[c].Free?
    ensures Segments(g, segs) && Cached(segs, 2, free) && Linked(blocks, segs)
    ensures DistinctEntries(segs) && Filed(g, tab, segs)
  {
    assert segs[0] == [0, b] && free[..2] == [0, b];
    forall j, i
      ensures IsEntry(segs, j, i) <==> j == 0 && i == 1
    {
    }
    hide IsEntry;
    forall c: nat {:trigger tab[c]} | g.IsData(c) && tab[c].Free?
      ensures IsEntry(segs, tab[c].seg, tab[c].idx) && segs[tab[c].seg][tab[c].idx] == c
    {
      assert c == b;
    }
  }

  lemma TinyList()
    ensures Segments(tiny, world.segs) && Cached(world.segs, 2, state.free) && Linked(before.blocks, world.segs)
    ensures DistinctEntries(world.segs) && Filed(tiny, world.tab, world.segs)
  {
    hide Segments, Cached, Linked, DistinctEntries, Filed;
    PairList(tiny, before.blocks, world.tab, state.free, 2, world.segs);
  }

  lemma TinySound()
    ensures Sound(tiny, state, world)
  {
    hide TreesOk, InodesOk, Segments, Cached, Linked, Filed;
    TinyTrees();
    TinyList();
  }

  lemma TinyClaims(x: nat)
    requires Claimed(tiny, before.blocks, before.inodes, x)
    ensures x != 2
  {
    TinySound();
    ClaimedOwned(tiny, state, world, x);
  }

  /** Before the write the volume is sound, flushed and free of aliasing. */
  lemma TinyGuarded()
    ensures Inv(tiny, state, world) && NeverD(tiny, before)
  {
    hide Sound, Claimed, Segments, Cached, Linked, DistinctEntries, NeverD, Filed;
    TinySound();
    TinyList();
    forall x: nat | Claimed(tiny, before.blocks, before.inodes, x)
      ensures !Listed(world.segsD, x)
    {
      TinyClaims(x);
      assert forall j, i :: IsEntry(world.segsD, j, i) ==> world.segsD[j][i] == 2;
    }
    GuardedNeverD(tiny, state, world);
  }

  /** Writing logical block 2 of inode 1 pops block 2, zeroes it and stores it in the indirect
      block, which is on disk: the superblock on disk still lists block 2. */
  const after := before.(blocks := before.blocks[1 := [3, 2, 0, 0]])

  lemma RootClaimed(g: Geo.Geometry, blocks: seq<Block>, b: nat, h: nat)
    requires b != 0
    ensures b in Claims(g, blocks, b, h)
  {
  }

  lemma IndirectClaimed()
    ensures Claimed(tiny, before.blocks, before.inodes, 1)
  {
    hide Pow, Base, Height, Claims;
    TinyPow();
    var ip := before.inodes[1];
    assert SlotClaims(tiny, before.blocks, ip, 1) == Claims(tiny, before.blocks, 1, 1);
    RootClaimed(tiny, before.blocks, 1, 1);
    assert ClaimedAt(tiny, before.blocks, before.inodes, 1, 1, 1);
  }

  /** The volume before the write is sound, flushed and free of aliasing.  Popping and zeroing
      block 2, and storing it in the indirect block, leads to the image `after`, which is not. */
  lemma BreachExample() returns (s1: State, w1: World, s2: State, w2: World)
    ensures Inv(tiny, state, world) && !state.dirty && NeverD(tiny, before)
    ensures s1 == state.(nfree := 1) && w1 == world.(segs := DropLast(world.segs), tab := world.tab[2 := Lost]) &&
            Sound(tiny, s1, w1)
    ensures s2.disk == s1.disk.(blocks := s1.disk.blocks[2 := Zeros(4)]) && w2.tab == w1.tab[2 := Alloc] &&
            Sound(tiny, s2, w2)
    ensures after == s2.disk.(blocks := s2.disk.blocks[1 := SetCell(s2.disk.blocks[1], 1, 2)]) && !NeverD(tiny, after)
  {
    hide Sound, ListOk, Guarded, NeverD, Claimed, IsNode, Claims, DropLast, NoEntries;
    TinyGuarded();
    SoundList(tiny, state, world);
    s1, w1 := PopLeaf(tiny, state, world);
    s2, w2 := Adopt(tiny, s1, w1, 2);
    assert Zeros(4) == [0, 0, 0, 0];
    assert s2.disk == before;
    ZerosNoEntries(tiny, before.blocks, 2);
    IndirectClaimed();
    assert Listed(w2.segsD, 2) by {
      assert IsEntry(w2.segsD, 0, 1) && w2.segsD[0][1] == 2;
    }
    assert SetCell([3, 0, 0, 0], 1, 2) == [3, 2, 0, 0];
    var s3 := s2.(disk := s2.disk.(blocks := s2.disk.blocks[1 := SetCell(s2.disk.blocks[1], 1, 2)]));
    BreachIsD(tiny, s2, w2, 1, 1, 2, s3);
    assert s3.disk == after;
  }

  /** Xenix takes a file of 4294967290 bytes.  With its blocks of 1024 the end of the last one
      wraps to 0, so a truncation to that size zeroes no tail; and if the file then grows by five
      bytes, what was past the end shows again. */
  lemma WrapExample(g: Geo.Geometry, dstart: nat, fsize: nat, disk: Img.Image, disk': Img.Image, disk'': Img.Image,
      ino: nat, p: nat)
    requires g == Of(Xenix, dstart, fsize) && 4294967290 <= p < 4294967295
    requires Resized(g, disk, disk', ino, 4294967290, EndFits(1024, 4294967290)) &&
             Resized(g, disk', disk'', ino, 4294967295, true)
    ensures 4294967290 <= MaxFile(Xenix) && 4294967295 <= MaxFile(Xenix)
    ensures Contents(g, disk''.blocks, disk''.inodes[ino])[p] == ByteAt(g, disk.blocks, disk.inodes[ino], p)
  {
    hide ByteAt;
    assert 4294967289 / 1024 == 4194303 && p / 1024 == 4194303;
    assert !EndFits(1024, 4294967290);
    assert ByteAt(g, disk'.blocks, disk'.inodes[ino], p) == ByteAt(g, disk.blocks, disk.inodes[ino], p);
    assert ByteAt(g, disk''.blocks, disk''.inodes[ino], p) == ByteAt(g, disk'.blocks, disk'.inodes[ino], p);
  }

  /** A write of four bytes at the end of inode 1, into a fresh block: all went well but the last
      inode write.  The rollback takes the block away again and leaves the file four bytes
      longer. */
  const grown := before.(inodes := [before.inodes[0], before.inodes[1].(size := 12)])

  lemma LateExample()
    ensures RolledBack(tiny, before, grown, 1, 8, [5, 5, 5, 5], true)
    ensures Contents(tiny, grown.blocks, grown.inodes[1])
            == Contents(tiny, before.blocks, before.inodes[1]) + [0, 0, 0, 0]
    ensures forall disk' :: RolledBack(tiny, before, disk', 1, 8, [5, 5, 5, 5], true) ==> disk'.inodes[1].size == 12
  {
    hide ByteAt, Contents, RolledBack;
    LateRolled();
    LateContents();
    forall disk' | RolledBack(tiny, before, disk', 1, 8, [5, 5, 5, 5], true)
      ensures |disk'.inodes| > 1 && disk'.inodes[1].size == 12
    {
      LateSize(disk');
    }
  }

  lemma LateByte(p: nat)
    ensures ByteAt(tiny, grown.blocks, grown.inodes[1], p) == ByteAt(tiny, before.blocks, before.inodes[1], p)
    ensures p >= 8 ==> ByteAt(tiny, before.blocks, before.inodes[1], p) == 0
  {
    hide ByteAt;
    SizeOnly(tiny, before.blocks, world.tab, 1, before.inodes[1], 12);
    if p >= 8 {
      TinyHole(p);
    }
  }

  lemma LateRolled()
    ensures RolledBack(tiny, before, grown, 1, 8, [5, 5, 5, 5], true)
  {
    hide ByteAt;
    assert FirstFree(4, 8) == 2;
    forall p: nat {:trigger ByteAt(tiny, grown.blocks, grown.inodes[1], p)}
      ensures ByteAt(tiny, grown.blocks, grown.inodes[1], p) ==
              if p / 4 >= 2 then 0 else ByteAt(tiny, before.blocks, before.inodes[1], p)
    {
      LateByte(p);
    }
  }

  lemma LateContents()
    ensures Contents(tiny, grown.blocks, grown.inodes[1])
            == Contents(tiny, before.blocks, before.inodes[1]) + [0, 0, 0, 0]
  {
    hide ByteAt;
    forall p: nat
      ensures ByteAt(tiny, grown.blocks, grown.inodes[1], p) == ByteAt(tiny, before.blocks, before.inodes[1], p)
      ensures p >= 8 ==> ByteAt(tiny, before.blocks, before.inodes[1], p) == 0
    {
      LateByte(p);
    }
  }

  lemma LateSize(disk': Img.Image)
    requires RolledBack(tiny, before, disk', 1, 8, [5, 5, 5, 5], true)
    ensures |disk'.inodes| > 1 && disk'.inodes[1].size == 12
  {
    hide ByteAt;
  }

  /** Past the first two blocks inode 1 maps nothing. */
  lemma TinyHole(p: nat)
    requires p >= 8
    ensures ByteAt(tiny, before.blocks, before.inodes[1], p) == 0
  {
    hide Sound, Narrow, InodeOk, MapOf;
    TinySound();
    TinyNarrow();
    TinyInode();
    var ip, lbn := before.inodes[1], p / 4;
    assert lbn >= 2;
    MapLabel(tiny, state, world, 1, ip, lbn);
  }

  lemma TinyInode()
    ensures InodeOk(tiny, world.tab, 1, before.inodes[1])
  {
    TinyTrees();
  }

  /** A list with a 0 above its bottom: block 3, the 0, and below it block 2, which inode 1
      claims. */
  const hollow := Image(
    [[0, 0, 0, 0, 0], [0, 0, 0, 0, 0], [7, 7, 7, 7, 7], [0, 0, 0, 0, 0]],
    [Inode(Unalloc, false, 0, 0, [0]), Inode(Data, false, 1, 5, [2])],
    3, [2, 0, 3])

  const flat := Geometry(5, 3, 1, 1, 2, false, 0, 0, 2, 4, LinkWidth.Word)

  lemma HollowMet()
    ensures MetAll(flat, hollow) == [2] && DataOf(flat, [2]) == [2]
  {
    var ip := hollow.inodes[1];
    assert Height(flat, false, 0) == 0;
    assert MetSlot(flat, hollow.blocks, {}, ip, 0) == [2];
    var m := SetOf(DataOf(flat, [2]));
    assert MetSlots(flat, hollow.blocks, m, ip, 1) == [];
    assert MetInode(flat, hollow.blocks, {}, ip) == [2];
    assert MetInodes(flat, hollow.blocks, m, hollow.inodes, 2) == [];
    DataOne(flat, 2);
  }

  lemma HollowTrail()
    ensures FreeTrail(flat, hollow) == Trail([3], Sentinel)
  {
    hide TrailFrom;
    var left := DataBlocks(flat);
    assert 3 in left;
    TrailStep(flat, hollow.blocks, hollow.sbFree, 3, left);
    TrailStop(flat, hollow.blocks, hollow.sbFree, 2, left - {3});
  }

  /** The check of such an image reports nothing: block 2 in use, block 3 free, none missing,
      duplicate or bad, and the walk of the list without complaint.  But it stopped at the 0,
      and the allocator takes block 3, then the 0, on which it answers "no space", and then
      block 2, which inode 1 claims. */
  lemma SentinelExample()
    ensures Reports(flat, hollow, true, Report(1, 1, 0, 0, 0, 0))
    ensures !EndsAtBottom(flat, hollow) && !NeverD(flat, hollow)
    ensures var st := State(hollow, hollow.sbN, hollow.sbFree, false);
            Top(st) == 3 && Top(st.(nfree := 2)) == 0 && Top(st.(nfree := 1)) == 2 && 2 in MetAll(flat, hollow)
  {
    hide MetAll, FreeTrail, DataOf;
    HollowMet();
    HollowTrail();
    assert SetOf([2]) == {2} && SetOf([2] + [3]) == {2, 3};
    assert hollow.sbFree[..3] == [2, 0, 3];
    forall segs | Cached(segs, hollow.sbN, hollow.sbFree)
      ensures !Segments(flat, segs)
    {
      var top := |segs| - 1;
      assert IsEntry(segs, top, 1) && segs[top][1] == 0;
    }
  }
}
