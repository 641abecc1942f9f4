/** Small-to-large promotion (V6, V1, PDP-7): the direct addresses of a small file move into
    the first indirect block of the large layout. */
module Promotion {
  import opened Geometry
  import opened FreeChain
  import opened Image
  import opened Ownership
  import opened Consistency
  import opened TreeSteps
  import opened Mapping
  import opened Descent
  import opened BlockMap

  /** The contents of the new indirect block. */
  ghost predicate HoldsAddr(g: Geometry, ip: Inode, v: Block) {
    && |v| == g.bsize && |ip.addr| == g.niaddr
    && forall i {:trigger v[i]} :: 0 <= i < g.bsize ==> v[i] == if i < g.ndaddr && i < |ip.addr| then ip.addr[i] else 0
  }

  function PromotedInode(g: Geometry, ip: Inode, b: nat): Inode {
    ip.(large := true, addr := seq(g.niaddr, s => if s == 0 then b else 0))
  }

  lemma SmallMap(g: Geometry, blocks: seq<Block>, ip: Inode, k: nat)
    requires g.Valid() && g.ilarg && !ip.large && |ip.addr| == g.niaddr
    ensures MapOf(g, blocks, ip, k) == if k < g.niaddr then ip.addr[k] else 0
  {
    SmallSlot(g, k, 0);
    if k < g.niaddr {
      SmallBase(g, k);
    }
  }

  lemma FirstSlot(g: Geometry, k: nat)
    requires g.Valid() && g.ilarg
    ensures Height(g, true, 0) == 1 && Span(g, true, 0) == g.nindir
    ensures SlotFor(g, true, k, 0) == 0 <==> k < g.nindir
    ensures k < g.nindir ==> Digit(g, k, 1) == k
  {
    assert Pow(g.nindir, 1) == g.nindir * Pow(g.nindir, 0);
    ModBelow(g.nindir, U32);
    assert Base(g, true, 0) == 0;
    if k < g.nindir {
      ModBelow(k, g.nindir);
    }
  }

  /** Both layouts map the same blocks. */
  lemma PromotedMap(g: Geometry, blocks: seq<Block>, blocks': seq<Block>, ip: Inode, b: nat, k: nat)
    requires g.Valid() && g.ilarg && !ip.large && |ip.addr| == g.niaddr
    requires b != 0 && b < |blocks'| && HoldsAddr(g, ip, blocks'[b])
    ensures MapOf(g, blocks', PromotedInode(g, ip, b), k) == MapOf(g, blocks, ip, k)
  {
    hide Digit, Pow, Span, Span32, Base, SlotFor, Height;
    SmallMap(g, blocks, ip, k);
    FirstSlot(g, k);
    if k < g.nindir {
      assert Walk(g, blocks', b, 1, k) == Cell(blocks', b, k);
      FirstBase(g);
    }
  }

  lemma FirstBase(g: Geometry)
    ensures Base(g, true, 0) == 0
  {
  }

  lemma PromotedEntries(g: Geometry, blocks: seq<Block>, tab: Table, ino: nat, ip: Inode, b: nat)
    requires g.Valid() && g.ilarg && !ip.large && ip.kind.Data? && InodeOk(g, tab, ino, ip)
    requires b < |blocks| && HoldsAddr(g, ip, blocks[b])
    ensures EntriesOk(g, blocks, tab, b, Owned(ino, 1, 0))
  {
    forall i: nat {:trigger Cell(blocks, b, i)} | i < g.nindir
      ensures RefOk(g, tab, Cell(blocks, b, i), Child(g, Owned(ino, 1, 0), i))
    {
      if i < g.ndaddr {
        SmallBase(g, i);
        assert RefOk(g, tab, ip.addr[i], SlotOwner(g, ino, false, i));
      }
    }
  }

  /** The effect of a promotion: allocate b, write the addresses into it, reinterpret. */
  lemma Promoted(g: Geometry, s0: State, w0: World, s1: State, w1: World, ino: nat, ip: Inode, b: nat, v: Block,
      lbn: nat)
    returns (s2: State, w2: World)
    requires Sound(g, s0, w0) && Sound(g, s1, w1) && AllocFrame(s0, w0, s1, w1) && Narrow(g)
    requires g.ilarg && !ip.large && ip.kind.Data? && InodeOk(g, w0.tab, ino, ip)
    requires g.IsData(b) && w0.tab[b].Free? && w1.tab[b] == Alloc && HoldsAddr(g, ip, v)
    ensures s2 == s1.(disk := s1.disk.(blocks := s1.disk.blocks[b := v])) &&
            w2 == w1.(tab := w1.tab[b := Owned(ino, 1, 0)])
    ensures Sound(g, s2, w2)
    ensures Guarded(g, s1, w1) ==> Guarded(g, s2, w2)
    ensures BmapFailed(g, s0, w0, s2, w2, ino, ip, PromotedInode(g, ip, b), lbn)
    ensures !w0.breach ==> w2.breach == w0.breach
  {
    hide MapsKept, Hidden;
    assert !IsNode(w1.segs, b) && (Guarded(g, s1, w1) ==> !IsNode(w1.segsD, b)) by {
      NotNode(g, s1, w1, b);
    }
    s2 := WriteQuiet(g, s1, w1, b, v);
    InodeKept(g, w0.tab, w1.tab, ino, ip);
    PromotedEntries(g, s2.disk.blocks, w1.tab, ino, ip, b);
    w2 := Assign(g, s2, w1, b, Owned(ino, 1, 0));
    PromotedEffect(g, s0, w0, s1, w1, s2, w2, ino, ip, b, v, lbn);
  }

  lemma NotNode(g: Geometry, st: State, w: World, b: nat)
    requires Sound(g, st, w) && g.IsData(b) && (w.tab[b].Alloc? || w.tab[b].Owned?)
    ensures !IsNode(w.segs, b) && (Guarded(g, st, w) ==> !IsNode(w.segsD, b))
  {
    if IsNode(w.segs, b) {
      var j :| 1 <= j < |w.segs| && |w.segs[j]| >= 1 && w.segs[j][0] == b;
      assert IsEntry(w.segs, j, 0);
    }
  }

  lemma PromotedEffect(g: Geometry, s0: State, w0: World, s1: State, w1: World, s2: State, w2: World, ino: nat,
      ip: Inode, b: nat, v: Block, lbn: nat)
    requires Sound(g, s0, w0) && AllocFrame(s0, w0, s1, w1) && Narrow(g) && |s1.disk.blocks| == g.fsize
    requires g.ilarg && !ip.large && ip.kind.Data? && InodeOk(g, w0.tab, ino, ip)
    requires g.IsData(b) && w0.tab[b].Free? && w1.tab[b] == Alloc && HoldsAddr(g, ip, v)
    requires s2 == s1.(disk := s1.disk.(blocks := s1.disk.blocks[b := v])) &&
             w2 == w1.(tab := w1.tab[b := Owned(ino, 1, 0)])
    ensures BmapFailed(g, s0, w0, s2, w2, ino, ip, PromotedInode(g, ip, b), lbn)
  {
    var blocks, blocks', ip' := s0.disk.blocks, s2.disk.blocks, PromotedInode(g, ip, b);
    var s2x := s2;
    assert AllocFrame(s0, w0, s2, w1);
    AllocGrows(g, s0, w0, s2, w1, ino, -1);
    AllocNoNewClaims(g, s0, w0, s2, w1);
    forall k: nat {:trigger MapOf(g, blocks', ip', k)}
      ensures MapOf(g, blocks', ip', k) == MapOf(g, blocks, ip, k)
    {
      PromotedMap(g, blocks, blocks', ip, b, k);
    }
    forall jno: nat, jp: Inode, k: nat {:trigger InodeOk(g, w0.tab, jno, jp), MapOf(g, blocks', jp, k)}
      | jno != ino && jp.kind.Data? && InodeOk(g, w0.tab, jno, jp)
      ensures MapOf(g, blocks', jp, k) == MapOf(g, blocks, jp, k)
    {
      GrowsMap(g, s0, w0, s2, w1, ino, -1, jno, jp, k);
    }
    PromotedInodeOk(g, w2.tab, ino, ip, b);
    if Tidy(g, blocks, w0.tab, ino, ip) {
      PromotedTidy(g, s0, w0, s2, w2, ino, ip, b);
    }
  }

  lemma PromotedTidy(g: Geometry, s0: State, w0: World, s2: State, w2: World, ino: nat, ip: Inode, b: nat)
    requires g.Valid() && g.ilarg && !ip.large && ip.kind.Data? && InodeOk(g, w0.tab, ino, ip)
    requires Tidy(g, s0.disk.blocks, w0.tab, ino, ip) && |w2.tab| == |w0.tab|
    requires b != 0 && b < |s2.disk.blocks| && HoldsAddr(g, ip, s2.disk.blocks[b])
    requires forall x {:trigger w2.tab[x]} :: 0 <= x < |w2.tab| && w2.tab[x].Owned? && x != b ==> w0.tab[x] == w2.tab[x]
    ensures Tidy(g, s2.disk.blocks, w2.tab, ino, PromotedInode(g, ip, b))
  {
    hide SlotsClaims;
    var blocks, ip' := s2.disk.blocks, PromotedInode(g, ip, b);
    forall x: nat {:trigger w2.tab[x]} | x < |w2.tab| && w2.tab[x].Owned? && w2.tab[x].ino == ino
      ensures x in InodeClaims(g, blocks, ip')
    {
      if x != b {
        var t := SlotsMember(g, s0.disk.blocks, ip, x, 0);
        assert ip.addr[t] == x && x in Claims(g, blocks, Cell(blocks, b, t), 0);
        KidMember(g, blocks, b, 1, 0, t, x);
      }
      assert x in SlotClaims(g, blocks, ip', 0);
      SlotsHas(g, blocks, ip', x, 0, 0);
    }
  }

  lemma PromotedInodeOk(g: Geometry, tab: Table, ino: nat, ip: Inode, b: nat)
    requires g.Valid() && g.ilarg && g.IsData(b) && b < |tab| && tab[b] == Owned(ino, 1, 0)
    ensures InodeOk(g, tab, ino, PromotedInode(g, ip, b))
  {
  }

  /** A bmap that ran after a promotion is one bmap. */
  lemma BmapAfter(g: Geometry, s0: State, w0: World, s1: State, w1: World, s2: State, w2: World,
                  ino: nat, ip: Inode, ip1: Inode, ip2: Inode, lbn: nat, out: nat)
    requires Sound(g, s0, w0) && BmapFailed(g, s0, w0, s1, w1, ino, ip, ip1, lbn) &&
             BmapDone(g, s1, w1, s2, w2, ino, ip1, ip2, lbn, out)
    requires MapOf(g, s0.disk.blocks, ip, lbn) == 0
    requires w0.breach ==> w1.breach
    requires Hidden(g, s0.disk, w0.tab, ino, lbn) ==> Hidden(g, s1.disk, w1.tab, ino, lbn)
    ensures BmapDone(g, s0, w0, s2, w2, ino, ip, ip2, lbn, out)
  {
    MapsThen(g, s0, w0, s1, w1, s2, ino, ip, ip1, ip2, lbn);
  }

  lemma BmapFailedAfter(g: Geometry, s0: State, w0: World, s1: State, w1: World, s2: State, w2: World, ino: nat,
      ip: Inode, ip1: Inode, ip2: Inode, lbn: nat)
    requires Sound(g, s0, w0) && BmapFailed(g, s0, w0, s1, w1, ino, ip, ip1, lbn) &&
             BmapFailed(g, s1, w1, s2, w2, ino, ip1, ip2, lbn)
    requires MapOf(g, s0.disk.blocks, ip, lbn) == 0
    requires Hidden(g, s0.disk, w0.tab, ino, lbn) ==> Hidden(g, s1.disk, w1.tab, ino, lbn)
    ensures BmapFailed(g, s0, w0, s2, w2, ino, ip, ip2, lbn)
  {
    MapsThen(g, s0, w0, s1, w1, s2, ino, ip, ip1, ip2, -1);
  }

  lemma MapsThen(g: Geometry, s0: State, w0: World, s1: State, w1: World, s2: State, ino: nat, ip: Inode, ip1: Inode,
      ip2: Inode, lbn: int)
    requires g.nindir >= 1 && Keeps(s0, w0, s1, w1, ino)
    requires MapsKept(g, w0.tab, s0.disk.blocks, s1.disk.blocks, ino, ip, ip1, -1)
    requires MapsKept(g, w1.tab, s1.disk.blocks, s2.disk.blocks, ino, ip1, ip2, lbn)
    ensures MapsKept(g, w0.tab, s0.disk.blocks, s2.disk.blocks, ino, ip, ip2, lbn)
  {
    hide MapOf;
    forall k: nat {:trigger MapOf(g, s2.disk.blocks, ip2, k)} | k != lbn
      ensures MapOf(g, s2.disk.blocks, ip2, k) == MapOf(g, s0.disk.blocks, ip, k)
    {
      assert MapOf(g, s1.disk.blocks, ip1, k) == MapOf(g, s0.disk.blocks, ip, k);
    }
    forall jno: nat, jp: Inode, k: nat {:trigger InodeOk(g, w0.tab, jno, jp), MapOf(g, s2.disk.blocks, jp, k)}
      | jno != ino && jp.kind.Data? && InodeOk(g, w0.tab, jno, jp)
      ensures MapOf(g, s2.disk.blocks, jp, k) == MapOf(g, s0.disk.blocks, jp, k)
    {
      InodeKept(g, w0.tab, w1.tab, jno, jp);
      assert MapOf(g, s1.disk.blocks, jp, k) == MapOf(g, s0.disk.blocks, jp, k);
    }
  }

  /** Blocks taken since keep an inode hidden. */
  lemma HiddenKept(g: Geometry, s0: State, w0: World, s1: State, w1: World, ino: nat, lbn: nat)
    requires Sound(g, s0, w0) && Keeps(s0, w0, s1, w1, ino) && NoNewClaims(g, s0.disk, s1.disk) &&
             Hidden(g, s0.disk, w0.tab, ino, lbn)
    ensures Hidden(g, s1.disk, w1.tab, ino, lbn)
  {
    forall x: nat {:trigger w1.tab[x]} | x < |w1.tab| && Covers(g, w1.tab[x], lbn) && w1.tab[x].ino == ino
      ensures !Claimed(g, s1.disk.blocks, s1.disk.inodes, x)
    {
      if Claimed(g, s1.disk.blocks, s1.disk.inodes, x) {
        assert Claimed(g, s0.disk.blocks, s0.disk.inodes, x);
        ClaimedOwned(g, s0, w0, x);
      }
    }
  }

  /** A promotion neither fills the hole at lbn nor puts an indirect block on disk. */
  lemma PromotedHole(g: Geometry, s0: State, w0: World, s1: State, w1: World, ino: nat, ip: Inode, ip1: Inode, lbn: nat)
    requires Sound(g, s0, w0) && g.ilarg && !ip.large && lbn >= g.ndaddr && InodeOk(g, w0.tab, ino, ip)
    requires BmapFailed(g, s0, w0, s1, w1, ino, ip, ip1, lbn)
    ensures MapOf(g, s0.disk.blocks, ip, lbn) == 0
    ensures InodeOk(g, w1.tab, ino, ip1) && ip1.kind == ip.kind
    ensures Hidden(g, s0.disk, w0.tab, ino, lbn) ==> Hidden(g, s1.disk, w1.tab, ino, lbn)
  {
    SmallMap(g, s0.disk.blocks, ip, lbn);
    if Hidden(g, s0.disk, w0.tab, ino, lbn) {
      HiddenKept(g, s0, w0, s1, w1, ino, lbn);
    }
  }

  lemma SmallHole(g: Geometry, st: State, w: World, ino: nat, ip: Inode, lbn: nat)
    requires Sound(g, st, w) && g.ilarg && !ip.large && lbn >= g.ndaddr && InodeOk(g, w.tab, ino, ip)
    ensures MapOf(g, st.disk.blocks, ip, lbn) == 0
  {
    SmallMap(g, st.disk.blocks, ip, lbn);
  }

  lemma NoSlot(g: Geometry, blocks: seq<Block>, ip: Inode, lbn: nat)
    requires g.nindir >= 1 && SlotFor(g, ip.large, lbn, 0) >= g.niaddr
    ensures MapOf(g, blocks, ip, lbn) == 0
  {
  }

  lemma AddrCount(g: Geometry, tab: Table, ino: nat, ip: Inode)
    requires g.Valid() && InodeOk(g, tab, ino, ip)
    ensures |ip.addr| == g.niaddr >= g.ndaddr
  {
  }
}
