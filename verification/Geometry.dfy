/** The on-disk geometry of one mounted edition and the topology of the inode's
    address slots.

    A block is a sequence of `bsize` cells.  A block address occupies one cell, so the
    first `nindir` cells of an indirect block are its entries, and a free-list chain
    block holds its count in cell 0 and `nicfree` addresses after it. */
module Geometry {
  import opened LinkWidth

  const U32 := 0x1_0000_0000

  datatype Geometry = Geometry(
    bsize: nat,        // cells per block
    nicfree: nat,      // depth of the in-core free-block cache
    ndaddr: nat,       // direct slots of the small layout
    niaddr: nat,       // address slots per inode
    nindir: nat,       // entries per indirect block
    ilarg: bool,       // the edition has the small/large file flag
    largeSingle: nat,  // single-indirect slots of the large layout
    largeDouble: nat,  // double-indirect slots of the large layout
    dstart: nat,       // first data block
    fsize: nat,        // blocks in the volume
    link: Width)       // how link counts are stored
  {
    predicate Valid() {
      && 1 <= nindir <= bsize < U32
      && 1 <= nicfree < bsize
      && ndaddr <= niaddr && 1 <= niaddr
      && 1 <= dstart <= fsize
      && (ilarg ==> ndaddr == niaddr && ndaddr <= nindir && 1 <= largeSingle
                    && largeSingle + largeDouble == niaddr)
    }

    predicate IsData(b: nat) {
      dstart <= b < fsize
    }
  }

  function Pow(n: nat, h: nat): (p: nat)
    ensures n >= 1 ==> p >= 1
  {
    if h == 0 then 1 else n * Pow(n, h - 1)
  }

  lemma PowBelow(n: nat, h: nat)
    requires n >= 1
    ensures Pow(n, h) <= Pow(n, h + 1)
  {
    MulMonotone(1, n, Pow(n, h));
  }

  /** The level of an address slot: -1 direct, 0 single indirect, 1 double, 2 triple. */
  function SlotLevel(g: Geometry, large: bool, slot: nat): int {
    if g.ilarg && large then
      if slot < g.largeSingle then 0
      else if slot < g.largeSingle + g.largeDouble then 1
      else -1
    else if slot < g.ndaddr then -1
    else slot - g.ndaddr
  }

  /** Levels of blocks between a slot and its data: 0 for a direct slot. */
  function Height(g: Geometry, large: bool, slot: nat): nat {
    SlotLevel(g, large, slot) + 1
  }

  /** How many blocks it may take to map one logical block: one for every level of its slot, the
      data block, and one for the promotion of a small file. */
  function PerSlot(g: Geometry): nat {
    if g.ilarg then 3 else if g.ndaddr <= g.niaddr then g.niaddr - g.ndaddr + 1 else 0
  }

  function PerBlock(g: Geometry): nat {
    if g.ilarg then PerSlot(g) + 1 else PerSlot(g)
  }

  lemma HeightBound(g: Geometry, large: bool, slot: nat)
    requires g.Valid() && slot < g.niaddr
    ensures Height(g, large, slot) + 1 <= PerSlot(g)
  {
  }

  /** Logical blocks covered by a slot. */
  function Span(g: Geometry, large: bool, slot: nat): nat {
    Pow(g.nindir, Height(g, large, slot))
  }

  /** The first logical block covered by a slot. */
  function Base(g: Geometry, large: bool, slot: nat): nat {
    if slot == 0 then 0 else Base(g, large, slot - 1) + Span(g, large, slot - 1)
  }

  lemma {:induction false} BaseMonotone(g: Geometry, large: bool, s: nat, t: nat)
    requires s < t
    ensures Base(g, large, s) + Span(g, large, s) <= Base(g, large, t)
    decreases t
  {
    if s < t - 1 {
      BaseMonotone(g, large, s, t - 1);
    }
  }

  lemma DivMod(r: nat, s: nat)
    requires s >= 1
    ensures r == (r / s) * s + r % s
    ensures r % s < s
  {
  }

  lemma MulMonotone(a: int, b: int, s: nat)
    ensures a <= b ==> a * s <= b * s
  {
  }

  /** An index below n * s names an entry below n. */
  lemma DivBound(r: nat, n: nat, s: nat)
    requires s >= 1 && r < n * s
    ensures r / s < n
  {
    DivMod(r, s);
    MulMonotone(n, r / s, s);
  }

  /** Adding a multiple of m. */
  lemma ModPlus(k: nat, x: nat, m: nat)
    requires m >= 1
    ensures (k * m + x) % m == x % m && (k * m + x) / m == k + x / m
  {
    DivMod(x, m);
    MulPlus(k, x / m, m);
    DivUnique(k * m + x, m, k + x / m, x % m);
  }

  lemma MulPlus(a: int, b: int, m: int)
    ensures (a + b) * m == a * m + b * m
  {
  }

  lemma MulAssoc(a: int, b: int, c: int)
    ensures a * (b * c) == (a * b) * c
  {
  }

  lemma ModMod(r: nat, a: nat, n: nat)
    requires a >= 1 && n >= 1
    ensures n * a >= 1
    ensures (r % (n * a)) % a == r % a
    ensures (r % (n * a)) / a == (r / a) % n
  {
    MulMonotone(1, n, a);
    var q, m := r / (n * a), r % (n * a);
    DivMod(r, n * a);
    MulAssoc(q, n, a);
    ModPlus(q * n, m, a);
    DivBound(m, n, a);
    ModPlus(q, m / a, n);
    ModBelow(m / a, n);
  }

  lemma DivUnique(r: nat, a: nat, q: nat, e: nat)
    requires a >= 1 && r == q * a + e && e < a
    ensures r / a == q && r % a == e
  {
    DivMod(r, a);
    MulMonotone(q + 1, r / a, a);
    MulMonotone(r / a + 1, q, a);
    assert (q + 1) * a == q * a + a && (r / a + 1) * a == (r / a) * a + a;
  }

  /** The entry that index r selects in a block of height k: bmap's per-level index. */
  function Digit(g: Geometry, r: nat, k: nat): nat
    requires g.nindir >= 1 && k >= 1
  {
    (r / Pow(g.nindir, k - 1)) % g.nindir
  }

  /** The index of r within a subtree of height k. */
  function Residue(g: Geometry, r: nat, k: nat): nat
    requires g.nindir >= 1
  {
    r % Pow(g.nindir, k)
  }

  lemma DigitSplit(g: Geometry, r: nat, k: nat)
    requires g.nindir >= 1 && k >= 1
    ensures Digit(g, r, k) < g.nindir
    ensures Residue(g, r, k) == Digit(g, r, k) * Pow(g.nindir, k - 1) + Residue(g, r, k - 1)
  {
    var sub := Pow(g.nindir, k - 1);
    ModMod(r, sub, g.nindir);
    DivMod(r % (g.nindir * sub), sub);
  }

  /** 32-bit arithmetic wraps around. */
  function Wrap32(a: nat): nat {
    a % U32
  }

  /** The span as the 32-bit product computes it. */
  function Span32(g: Geometry, large: bool, slot: nat): nat {
    Wrap32(Span(g, large, slot))
  }

  /** The slot that logical block lbn falls in, searching from slot s with 32-bit spans;
      niaddr if there is none. */
  function SlotFor(g: Geometry, large: bool, lbn: nat, s: nat): (slot: nat)
    ensures slot <= g.niaddr || slot == s
    ensures s <= slot
    ensures slot < g.niaddr ==> lbn < Base(g, large, slot) + Span32(g, large, slot)
    decreases g.niaddr - s
  {
    if s >= g.niaddr then s
    else if lbn < Base(g, large, s) + Span32(g, large, s) then s
    else SlotFor(g, large, lbn, s + 1)
  }

  /** Only the last slot of an inode may cover more than 32 bits can count. */
  ghost predicate Narrow(g: Geometry) {
    forall large: bool, s: nat {:trigger Base(g, large, s)} :: s < g.niaddr ==>
      && Base(g, large, s) + Span32(g, large, s) < U32
      && (s + 1 < g.niaddr ==> Span(g, large, s) < U32)
  }

  lemma SpanNarrow(g: Geometry, large: bool, s: nat)
    requires Narrow(g) && s < g.niaddr
    ensures Span32(g, large, s) <= Span(g, large, s)
    ensures s + 1 < g.niaddr ==> Span32(g, large, s) == Span(g, large, s)
  {
    assert Base(g, large, s) + Span32(g, large, s) < U32;
    ModBelow(Span(g, large, s), U32);
  }

  lemma ModBelow(a: nat, m: nat)
    requires m >= 1
    ensures a % m <= a && (a < m ==> a % m == a)
  {
  }

  /** The search finds the slot whose exact range holds lbn. */
  lemma {:induction false} SlotForBase(g: Geometry, large: bool, lbn: nat, s: nat)
    requires Narrow(g) && s < g.niaddr && Base(g, large, s) <= lbn
    ensures var slot := SlotFor(g, large, lbn, s);
            slot < g.niaddr ==> Base(g, large, slot) <= lbn < Base(g, large, slot) + Span(g, large, slot)
    decreases g.niaddr - s
  {
    SpanNarrow(g, large, s);
    if lbn >= Base(g, large, s) + Span32(g, large, s) && s + 1 < g.niaddr {
      SlotForBase(g, large, lbn, s + 1);
    }
  }

  lemma SlotRange(g: Geometry, large: bool, lbn: nat)
    requires Narrow(g)
    ensures var slot := SlotFor(g, large, lbn, 0);
            slot < g.niaddr ==> Base(g, large, slot) <= lbn < Base(g, large, slot) + Span(g, large, slot)
  {
    if 0 < g.niaddr {
      SlotForBase(g, large, lbn, 0);
    }
  }

  /** The small layout maps logical block s through slot s. */
  lemma {:induction false} SmallBase(g: Geometry, s: nat)
    requires s <= g.ndaddr
    ensures Base(g, false, s) == s
  {
    if s > 0 {
      SmallBase(g, s - 1);
    }
  }

  lemma {:induction false} SmallSlot(g: Geometry, k: nat, s: nat)
    requires g.ndaddr == g.niaddr && s <= k && s <= g.niaddr
    ensures SlotFor(g, false, k, s) == if k < g.niaddr then k else g.niaddr
    decreases g.niaddr - s
  {
    if s < g.niaddr {
      SmallBase(g, s);
      if s < k {
        SmallSlot(g, k, s + 1);
      }
    }
  }

  lemma WrapMul(a: nat, n: nat)
    ensures Wrap32(Wrap32(a) * n) == Wrap32(n * a)
  {
    ModMul(a, n, U32);
  }

  lemma ModMul(a: nat, n: nat, m: nat)
    requires m >= 1
    ensures ((a % m) * n) % m == (n * a) % m
  {
    var q, e := a / m, a % m;
    DivMod(a, m);
    MulPlus(q * m, e, n);
    MulAssoc(n, q, m);
    assert n * a == (n * q) * m + e * n;
    ModPlus(n * q, e * n, m);
  }

  lemma SlotForStep(g: Geometry, large: bool, lbn: nat, s: nat)
    ensures s >= g.niaddr ==> SlotFor(g, large, lbn, s) == s
    ensures s < g.niaddr && lbn < Base(g, large, s) + Span32(g, large, s) ==> SlotFor(g, large, lbn, s) == s
    ensures s < g.niaddr && lbn >= Base(g, large, s) + Span32(g, large, s) ==>
              SlotFor(g, large, lbn, s) == SlotFor(g, large, lbn, s + 1)
    ensures SlotFor(g, large, lbn, 0) <= g.niaddr
  {
  }

  /** The 32-bit running sum of the search is exact. */
  lemma SlotAdvance(g: Geometry, large: bool, s: nat, span: nat)
    requires Narrow(g) && s < g.niaddr
    requires span == if SlotLevel(g, large, s) < 0 then 1 else Wrap32(Pow(g.nindir, SlotLevel(g, large, s) + 1))
    ensures span == Span32(g, large, s)
    ensures Wrap32(Base(g, large, s) + span) == Base(g, large, s) + span
    ensures s + 1 < g.niaddr ==> Base(g, large, s + 1) == Base(g, large, s) + span
  {
    SpanNarrow(g, large, s);
    assert Base(g, large, s) + Span32(g, large, s) < U32;
    assert SlotLevel(g, large, s) < 0 ==> Span(g, large, s) == 1;
    hide Narrow, Pow;
    ModBelow(Base(g, large, s) + span, U32);
  }
}
