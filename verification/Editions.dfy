/** The editions' geometries: below an edition's maximum file size the 32-bit arithmetic of
    bmap is exact and always finds a slot. */
module Editions {
  import opened Geo = Geometry
  import opened LinkWidth
  import FileOps

  /** One descriptor row, as far as the address slots and the size limit go.  The free-list
      depth is 0 where the edition has another allocator. */
  datatype Row = Row(bsize: nat, nicfree: nat, ndaddr: nat, niaddr: nat, nindir: nat,
                     ilarg: bool, largeSingle: nat, largeDouble: nat, sizeBits: nat, link: Width)

  const Pdp7 := Row(128, 0, 7, 7, 64, true, 7, 0, 0, Word)
  const V1 := Row(512, 0, 8, 8, 256, true, 8, 0, 16, Byte)
  const V6 := Row(512, 100, 8, 8, 256, true, 7, 1, 24, Byte)
  const V7 := Row(512, 50, 10, 13, 128, false, 0, 0, 0, Word)
  const Coherent := Row(512, 64, 10, 13, 128, false, 0, 0, 0, Word)
  const Xenix := Row(1024, 100, 10, 13, 256, false, 0, 0, 0, Word)
  const Bsd29 := Row(1024, 50, 4, 7, 256, false, 0, 0, 0, Word)
  const Bsd211 := Row(1024, 50, 4, 7, 256, false, 0, 0, 0, Word)
  const SysV2048 := Row(2048, 50, 10, 13, 512, false, 0, 0, 0, Word)
  const V8 := Row(1024, 178, 10, 13, 256, false, 0, 0, 0, Word)
  const V10Bitmap := Row(4096, 178, 10, 13, 1024, false, 0, 0, 0, Word)
  const V9 := Row(8192, 946, 10, 13, 2048, false, 0, 0, 0, Word)

  const Rows := [Pdp7, V1, V6, V7, Coherent, Xenix, Bsd29, Bsd211, SysV2048, V8, V10Bitmap, V9]

  /** The geometry of a volume of that edition. */
  function Of(r: Row, dstart: nat, fsize: nat): Geo.Geometry {
    Geometry(r.bsize, r.nicfree, r.ndaddr, r.niaddr, r.nindir, r.ilarg, r.largeSingle, r.largeDouble,
             dstart, fsize, r.link)
  }

  /** Largest file in bytes: what the slots map, capped by the 32-bit size and by a narrower
      size field.  The PDP-7 has its own constant. */
  function MaxFile(r: Row): nat {
    if r == Pdp7 then 7 * 64 * 64 * 2
    else
      var n := r.nindir;
      var cap := (r.ndaddr + n + n * n + n * n * n) * r.bsize;
      var cap32 := if cap > U32 - 1 then U32 - 1 else cap;
      if r.sizeBits == 24 && cap32 > 0xFF_FFFF then 0xFF_FFFF
      else if r.sizeBits == 16 && cap32 > 0xFFFF then 0xFFFF
      else cap32
  }

  lemma Powers(n: nat)
    ensures Pow(n, 0) == 1 && Pow(n, 1) == n && Pow(n, 2) == n * n && Pow(n, 3) == n * (n * n)
  {
    assert Pow(n, 1) == n * Pow(n, 0);
    assert Pow(n, 2) == n * Pow(n, 1);
    assert Pow(n, 3) == n * Pow(n, 2);
  }

  // ---- the layout with direct, single, double and triple slots ----

  predicate Triple(g: Geo.Geometry) {
    !g.ilarg && g.niaddr == g.ndaddr + 3
  }

  lemma TripleSlots(g: Geo.Geometry, large: bool)
    requires Triple(g)
    ensures var d, n := g.ndaddr, g.nindir;
            && (forall s: nat :: s < d ==> Base(g, large, s) == s && Span(g, large, s) == 1)
            && Base(g, large, d) == d && Span(g, large, d) == n
            && Base(g, large, d + 1) == d + n && Span(g, large, d + 1) == n * n
            && Base(g, large, d + 2) == d + n + n * n && Span(g, large, d + 2) == n * (n * n)
  {
    Powers(g.nindir);
    forall s: nat | s <= g.ndaddr
      ensures Base(g, large, s) == s
    {
      DirectBase(g, large, s);
    }
  }

  lemma {:induction false} DirectBase(g: Geo.Geometry, large: bool, s: nat)
    requires s <= g.ndaddr && !(g.ilarg && large)
    ensures Base(g, large, s) == s
  {
    if s > 0 {
      DirectBase(g, large, s - 1);
    }
  }

  lemma SquareAbove(n: nat)
    ensures n <= n * n
  {
    if n > 0 {
      MulMonotone(1, n, n);
    }
  }

  lemma TripleNarrow(g: Geo.Geometry)
    requires Triple(g) && g.nindir * g.nindir < U32
    requires g.ndaddr + g.nindir + g.nindir * g.nindir + Wrap32(g.nindir * (g.nindir * g.nindir)) < U32
    ensures Narrow(g)
  {
    hide Base, Span;
    var d, n := g.ndaddr, g.nindir;
    forall large: bool, s: nat {:trigger Base(g, large, s)} | s < g.niaddr
      ensures Base(g, large, s) + Span32(g, large, s) < U32 && (s + 1 < g.niaddr ==> Span(g, large, s) < U32)
    {
      TripleSlots(g, large);
      ModBelow(Span(g, large, s), U32);
      SquareAbove(n);
      if s >= d {
        assert s == d || s == d + 1 || s == d + 2;
      }
    }
  }

  /** Every logical block below the triple slots' 32-bit reach has a slot. */
  lemma TripleReach(g: Geo.Geometry, large: bool, lbn: nat)
    requires Triple(g) && Narrow(g)
    requires lbn < g.ndaddr + g.nindir + g.nindir * g.nindir + Wrap32(g.nindir * (g.nindir * g.nindir))
    ensures SlotFor(g, large, lbn, 0) < g.niaddr
  {
    hide Base, Span;
    TripleSlots(g, large);
    Reach(g, large, lbn, 0);
  }

  /** The search finds a slot if the last slot's range extends past lbn. */
  lemma {:induction false} Reach(g: Geo.Geometry, large: bool, lbn: nat, s: nat)
    requires s < g.niaddr && lbn < Base(g, large, g.niaddr - 1) + Span32(g, large, g.niaddr - 1)
    ensures SlotFor(g, large, lbn, s) < g.niaddr
    decreases g.niaddr - s
  {
    if lbn >= Base(g, large, s) + Span32(g, large, s) && s + 1 < g.niaddr {
      Reach(g, large, lbn, s + 1);
    }
  }

  // ---- the layouts with the small/large flag ----

  predicate Flagged(g: Geo.Geometry) {
    g.ilarg && g.ndaddr == g.niaddr == g.largeSingle + g.largeDouble && g.largeSingle >= 1 && g.largeDouble <= 1
  }

  lemma {:induction false} LargeBase(g: Geo.Geometry, s: nat)
    requires g.ilarg && s <= g.largeSingle
    ensures Base(g, true, s) == s * g.nindir
  {
    Powers(g.nindir);
    if s > 0 {
      LargeBase(g, s - 1);
      assert (s - 1) * g.nindir + g.nindir == s * g.nindir;
    }
  }

  lemma FlaggedSlots(g: Geo.Geometry)
    requires Flagged(g)
    ensures forall s: nat :: s < g.niaddr ==> Base(g, false, s) == s && Span(g, false, s) == 1
    ensures forall s: nat :: s < g.largeSingle ==> Base(g, true, s) == s * g.nindir && Span(g, true, s) == g.nindir
    ensures g.largeDouble == 1 ==>
            Base(g, true, g.largeSingle) == g.largeSingle * g.nindir &&
            Span(g, true, g.largeSingle) == g.nindir * g.nindir
  {
    Powers(g.nindir);
    forall s: nat | s < g.niaddr
      ensures Base(g, false, s) == s
    {
      DirectBase(g, false, s);
    }
    forall s: nat | s <= g.largeSingle
      ensures Base(g, true, s) == s * g.nindir
    {
      LargeBase(g, s);
    }
  }

  lemma FlaggedNarrow(g: Geo.Geometry)
    requires Flagged(g) && g.niaddr < 0x1_0000 && g.nindir < 0x1000
    ensures Narrow(g)
  {
    hide Base, Span;
    FlaggedSlots(g);
    forall large: bool, s: nat {:trigger Base(g, large, s)} | s < g.niaddr
      ensures Base(g, large, s) + Span32(g, large, s) < U32 && (s + 1 < g.niaddr ==> Span(g, large, s) < U32)
    {
      ModBelow(Span(g, large, s), U32);
      MulMonotone(s, 0x1_0000, g.nindir);
      MulMonotone(g.nindir, 0x1000, g.nindir);
    }
  }

  // ---- every row ----

  lemma RowShapes(r: Row, dstart: nat, fsize: nat)
    requires r in Rows
    ensures Triple(Of(r, dstart, fsize)) || Flagged(Of(r, dstart, fsize))
    ensures r.nicfree >= 1 && 1 <= dstart <= fsize ==> Of(r, dstart, fsize).Valid()
    ensures 1 <= r.bsize < U32 && 1 <= r.nindir
  {
  }

  /** In every edition only the last slot may cover more than 32 bits count. */
  lemma RowNarrow(r: Row, dstart: nat, fsize: nat)
    requires r in Rows
    ensures Narrow(Of(r, dstart, fsize))
  {
    var g := Of(r, dstart, fsize);
    RowShapes(r, dstart, fsize);
    if Flagged(g) {
      FlaggedNarrow(g);
    } else {
      TripleNarrow(g);
    }
  }

  /** The layout in which an inode of the edition maps lbn: a small file that grows past its
      direct slots is made large first. */
  predicate Layout(r: Row, large: bool, lbn: nat) {
    r.ilarg && !large ==> lbn < r.ndaddr
  }

  /** Below the maximum file size every byte has a slot, whose range holds it exactly: bmap
      never answers "file too big" there, although the V9 triple span is 0 in 32 bits. */
  lemma BelowMax(r: Row, dstart: nat, fsize: nat, large: bool, off: nat)
    requires r in Rows && off < MaxFile(r) && Layout(r, large, off / r.bsize)
    ensures var g, lbn := Of(r, dstart, fsize), off / r.bsize;
            var slot := SlotFor(g, large, lbn, 0);
            && slot < g.niaddr && lbn < U32
            && Base(g, large, slot) <= lbn < Base(g, large, slot) + Span(g, large, slot)
  {
    hide SlotFor, Base, Span, MaxFile;
    var g, lbn := Of(r, dstart, fsize), off / r.bsize;
    RowShapes(r, dstart, fsize);
    RowNarrow(r, dstart, fsize);
    MaxBlock(r, off);
    if Flagged(g) {
      FlaggedReach(g, large, lbn);
    } else {
      TripleReach(g, large, lbn);
    }
    SlotRange(g, large, lbn);
  }

  /** So a write below the maximum is never refused for want of a slot. */
  lemma AllReachable(r: Row, dstart: nat, fsize: nat)
    requires r in Rows
    ensures r.bsize >= 1 && FileOps.Reachable(Of(r, dstart, fsize), MaxFile(r))
  {
    hide SlotFor, MaxFile;
    var g := Of(r, dstart, fsize);
    assert r.bsize >= 1;
    forall off: nat {:trigger FileOps.Unreachable(g, off)} | off < MaxFile(r)
      ensures !FileOps.Unreachable(g, off)
    {
      forall large: bool | g.ilarg && !large ==> off / g.bsize < g.ndaddr
        ensures SlotFor(g, large, off / g.bsize, 0) < g.niaddr
      {
        BelowMax(r, dstart, fsize, large, off);
      }
    }
  }

  lemma FlaggedReach(g: Geo.Geometry, large: bool, lbn: nat)
    requires Flagged(g) && Narrow(g) && g.nindir < 0x1000
    requires if large then lbn < g.largeSingle * g.nindir + g.largeDouble * (g.nindir * g.nindir) else lbn < g.niaddr
    ensures SlotFor(g, large, lbn, 0) < g.niaddr
  {
    hide Base, Span;
    FlaggedSlots(g);
    var last := g.niaddr - 1;
    MulMonotone(g.nindir, 0x1000, g.nindir);
    ModBelow(Span(g, large, last), U32);
    assert last == g.largeSingle - 1 ==> last * g.nindir + g.nindir == g.largeSingle * g.nindir by {
      assert (g.largeSingle - 1) * g.nindir + g.nindir == g.largeSingle * g.nindir;
    }
    Reach(g, large, lbn, 0);
  }

  /** The last logical block of the largest file, row by row. */
  lemma MaxBlock(r: Row, off: nat)
    requires r in Rows && off < MaxFile(r)
    ensures var lbn, n := off / r.bsize, r.nindir;
            && lbn < U32
            && (r.ilarg ==> lbn < r.largeSingle * n + r.largeDouble * (n * n))
            && (!r.ilarg ==> lbn < r.ndaddr + n + n * n + Wrap32(n * (n * n)))
  {
    if r == V7 || r == Coherent {
      assert MaxFile(r) == 2113674 * 512;
    } else if r == V9 {
      assert Wrap32(2048 * (2048 * 2048)) == 0;
    }
  }

  /** How many sizes the edition's inode can hold. */
  function Sizes(r: Row): nat {
    if r.sizeBits == 16 then 0x1_0000 else if r.sizeBits == 24 then 0x100_0000 else U32
  }

  /** The maximum is the largest there can be: one more byte has no slot, or its size no room. */
  lemma MaxTight(r: Row, dstart: nat, fsize: nat)
    requires r in Rows
    ensures r.bsize >= 1 && (MaxFile(r) + 1 == Sizes(r) || FileOps.Unreachable(Of(r, dstart, fsize), MaxFile(r)))
  {
    var g, max := Of(r, dstart, fsize), MaxFile(r);
    RowNarrow(r, dstart, fsize);
    hide Narrow;
    if r == V7 || r == Coherent {
      assert max == 2113674 * 512;
      PastTriple(g, max / 512);
      assert FileOps.Unreachable(g, max);
    } else if r == Pdp7 {
      assert max / 128 == 448;
      PastSingle(g, 448);
      assert FileOps.Unreachable(g, max);
    }
  }

  lemma PastTriple(g: Geo.Geometry, lbn: nat)
    requires Triple(g) && Narrow(g) &&
             lbn >= g.ndaddr + g.nindir + g.nindir * g.nindir + g.nindir * (g.nindir * g.nindir)
    ensures SlotFor(g, true, lbn, 0) == g.niaddr
  {
    hide Base, Span, SlotFor;
    TripleSlots(g, true);
    SlotRange(g, true, lbn);
    var slot, d := SlotFor(g, true, lbn, 0), g.ndaddr;
    assert slot < d || slot == d || slot == d + 1 || slot == d + 2 || slot == g.niaddr;
  }

  lemma PastSingle(g: Geo.Geometry, lbn: nat)
    requires Flagged(g) && Narrow(g) && g.largeDouble == 0 && lbn >= g.niaddr * g.nindir
    ensures SlotFor(g, true, lbn, 0) == g.niaddr
  {
    hide Base, Span, SlotFor;
    FlaggedSlots(g);
    SlotRange(g, true, lbn);
    var slot := SlotFor(g, true, lbn, 0);
    if slot < g.niaddr {
      MulMonotone(slot + 1, g.niaddr, g.nindir);
      MulPlus(slot, 1, g.nindir);
      assert false;
    }
  }

  /** The V9 triple slot covers nothing in 32 bits. */
  lemma V9Wraps(dstart: nat, fsize: nat, large: bool)
    ensures Span32(Of(V9, dstart, fsize), large, 12) == 0
  {
    TripleSlots(Of(V9, dstart, fsize), large);
  }
}
