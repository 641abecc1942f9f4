/** Rebuilding the free list from a map of used blocks (v7fs_makefree), with Coherent's
    interleave. */
module Salvage {
  import opened Geometry
  import opened FreeChain
  import opened Image
  import opened Ownership
  import opened Consistency
  import opened CheckSpec
  import opened Engine

  // ---- the interleave ----

  predicate Divides(m: nat, n: nat)
    requires m >= 1
  {
    n % m == 0
  }

  function Columns(m: nat, n: nat): (k: nat)
    requires 1 <= m <= n
    ensures k >= 1
  {
    DivMod(n, m);
    n / m
  }

  function Times(a: nat, b: nat): nat {
    a * b
  }

  /** Entry i of the interleave table for factors m and n: n / m columns of m rows, read by
      columns. */
  function MapTab(m: nat, n: nat, i: nat): nat
    requires 1 <= m <= n
  {
    i / Columns(m, n) + Times(i % Columns(m, n), m)
  }

  function UnmapTab(m: nat, n: nat, j: nat): nat
    requires 1 <= m <= n
  {
    Times(j % m, Columns(m, n)) + j / m
  }

  lemma Ratio(m: nat, n: nat)
    requires 1 <= m <= n && Divides(m, n)
    ensures n == Columns(m, n) * m
  {
    DivMod(n, m);
  }

  /** The table is a permutation of 0 to n - 1 when m divides n. */
  lemma TabRound(m: nat, n: nat, i: nat)
    requires 1 <= m <= n && Divides(m, n) && i < n
    ensures MapTab(m, n, i) < n && UnmapTab(m, n, MapTab(m, n, i)) == i
    ensures UnmapTab(m, n, i) < n && MapTab(m, n, UnmapTab(m, n, i)) == i
  {
    hide Columns;
    Ratio(m, n);
    var k := Columns(m, n);
    MulSwap(k, m);
    Transpose(m, k, i);
    Transpose(k, m, i);
  }

  lemma MulSwap(a: int, b: int)
    ensures a * b == b * a
  {
  }

  /** Row q and column r, read by columns. */
  lemma Cross(m: nat, k: nat, q: nat, r: nat)
    requires q < m && r < k
    ensures var j := q + Times(r, m);
            j < Times(k, m) && j % m == q && j / m == r
  {
    MulMonotone(r + 1, k, m);
    MulPlus(r, 1, m);
    DivUnique(r * m + q, m, r, q);
  }

  lemma Transpose(m: nat, k: nat, i: nat)
    requires m >= 1 && k >= 1 && i < m * k
    ensures var j := i / k + Times(i % k, m);
            j < Times(k, m) && j % m == i / k && j / m == i % k && Times(j % m, k) + j / m == i
  {
    assert i == Times(i / k, k) + i % k && i % k < k by {
      DivMod(i, k);
    }
    DivBound(i, m, k);
    hide Times;
    Cross(m, k, i / k, i % k);
  }

  /** Where block bn of the sweep lies: permuted within the part of the data area that is
      aligned to n. */
  function Phys(m: nat, n: nat, bot: nat, top: nat, bn: nat): nat
    requires 1 <= m <= n
  {
    if bot <= bn < top then Times(bn / n, n) + MapTab(m, n, bn % n) else bn
  }

  function Unphys(m: nat, n: nat, bot: nat, top: nat, b: nat): nat
    requires 1 <= m <= n
  {
    if bot <= b < top then Times(b / n, n) + UnmapTab(m, n, b % n) else b
  }

  /** A bijection of the data area onto itself. */
  lemma PhysRound(m: nat, n: nat, lo: nat, hi: nat, bn: nat)
    requires 1 <= m <= n && Divides(m, n) && lo <= bn < hi
    ensures var bot, top := ((lo + n - 1) / n) * n, (hi / n) * n;
            && lo <= Phys(m, n, bot, top, bn) < hi && Unphys(m, n, bot, top, Phys(m, n, bot, top, bn)) == bn
            && lo <= Unphys(m, n, bot, top, bn) < hi && Phys(m, n, bot, top, Unphys(m, n, bot, top, bn)) == bn
  {
    hide MapTab, UnmapTab;
    var bot, top := ((lo + n - 1) / n) * n, (hi / n) * n;
    DivMod(lo + n - 1, n);
    DivMod(hi, n);
    if bot <= bn < top {
      DivMod(bn, n);
      TabRound(m, n, bn % n);
      Aligned(n, (lo + n - 1) / n, hi / n, bn, MapTab(m, n, bn % n));
      Aligned(n, (lo + n - 1) / n, hi / n, bn, UnmapTab(m, n, bn % n));
    }
  }

  lemma Aligned(n: nat, a: nat, b: nat, bn: nat, i: nat)
    requires n >= 1 && a * n <= bn < b * n && i < n
    ensures var x := (bn / n) * n + i;
            a * n <= x < b * n && x / n == bn / n && x % n == i
  {
    DivMod(bn, n);
    var q := bn / n;
    MulMonotone(q + 1, a, n);
    MulMonotone(a, q, n);
    MulMonotone(b, q, n);
    MulMonotone(q + 1, b, n);
    assert (q + 1) * n == q * n + n;
    DivUnique(q * n + i, n, q, i);
  }

  // ---- the sweep ----

  /** The block whose turn is bn in the sweep, and back. */
  ghost function Spot(g: Geometry, m: nat, n: nat, bn: nat): nat
    requires 1 <= m <= n
  {
    Phys(m, n, ((g.dstart + n - 1) / n) * n, (g.fsize / n) * n, bn)
  }

  ghost function Turn(g: Geometry, m: nat, n: nat, b: nat): nat
    requires 1 <= m <= n
  {
    Unphys(m, n, ((g.dstart + n - 1) / n) * n, (g.fsize / n) * n, b)
  }

  lemma SpotTurn(g: Geometry, m: nat, n: nat, b: nat)
    requires 1 <= m <= n && Divides(m, n) && g.IsData(b)
    ensures g.IsData(Spot(g, m, n, b)) && Turn(g, m, n, Spot(g, m, n, b)) == b
    ensures g.IsData(Turn(g, m, n, b)) && Spot(g, m, n, Turn(g, m, n, b)) == b
  {
    PhysRound(m, n, g.dstart, g.fsize, b);
  }

  /** Before the sweep: every unused block is at hand, nothing is listed. */
  ghost function SweepTable(g: Geometry, bits: seq<bool>): (tab: Table)
    ensures |tab| == g.fsize
  {
    seq(g.fsize, b requires 0 <= b < g.fsize => if g.IsData(b) && !Bit(g, bits, b) then Alloc else Lost)
  }

  /** Before turn bn: unused blocks whose turn has come are listed, or leaked; the others are
      still at hand; used blocks are as they were. */
  ghost predicate Swept(g: Geometry, m: nat, n: nat, bits: seq<bool>, blocks0: seq<Block>, st: State, w: World, bn: nat,
      leaked: bool)
    requires 1 <= m <= n
  {
    && |w.tab| == g.fsize && |st.disk.blocks| == |blocks0|
    && (forall b: nat {:trigger w.tab[b]} :: g.IsData(b) && !Bit(g, bits, b) ==>
          if Turn(g, m, n, b) < bn then w.tab[b].Free? || (leaked && w.tab[b].Lost?) else w.tab[b].Alloc?)
    && (forall b: nat {:trigger w.tab[b]} :: b < g.fsize && !(g.IsData(b) && !Bit(g, bits, b)) ==> w.tab[b].Lost?)
    && (forall b: nat {:trigger st.disk.blocks[b]} :: b < |blocks0| && !(g.IsData(b) && !Bit(g, bits, b)) ==>
         st.disk.blocks[b] == blocks0[b])
  }

  lemma SweepStart(g: Geometry, m: nat, n: nat, bits: seq<bool>, st: State)
    requires 1 <= m <= n && Divides(m, n) && Shape(g, st) && st.nfree == 0
    ensures ListOk(g, st, World([[]], [[]], SweepTable(g, bits), true))
    ensures Swept(g, m, n, bits, st.disk.blocks, st, World([[]], [[]], SweepTable(g, bits), true), g.dstart, false)
  {
    hide Bit, Turn, Divides;
    var w := World([[]], [[]], SweepTable(g, bits), true);
    forall b: nat | g.IsData(b)
      ensures Turn(g, m, n, b) >= g.dstart
    {
      SpotTurn(g, m, n, b);
    }
    assert st.free[..0] == [];
  }

  lemma SweepNext(g: Geometry, m: nat, n: nat, bits: seq<bool>, blocks0: seq<Block>, st: State, w: World, bn: nat,
      leaked: bool)
    requires 1 <= m <= n && Divides(m, n) && g.dstart <= bn < g.fsize &&
             Swept(g, m, n, bits, blocks0, st, w, bn, leaked)
    ensures var b := Spot(g, m, n, bn);
            && g.IsData(b) && b < |w.tab|
            && (Bit(g, bits, b) ==> Swept(g, m, n, bits, blocks0, st, w, bn + 1, leaked))
            && (!Bit(g, bits, b) ==> w.tab[b].Alloc?)
  {
    hide Bit, Spot, Turn, Divides;
    SweepTurn(g, m, n, bn);
  }

  lemma SweepTurn(g: Geometry, m: nat, n: nat, bn: nat)
    requires 1 <= m <= n && Divides(m, n) && g.dstart <= bn < g.fsize
    ensures var b := Spot(g, m, n, bn);
            g.IsData(b) && forall c: nat {:trigger Turn(g, m, n, c)} :: g.IsData(c) ==>
                (Turn(g, m, n, c) == bn <==> c == b)
  {
    hide Spot, Turn, Divides;
    SpotTurn(g, m, n, bn);
    forall c: nat {:trigger Turn(g, m, n, c)} | g.IsData(c)
      ensures Turn(g, m, n, c) == bn ==> c == Spot(g, m, n, bn)
    {
      SpotTurn(g, m, n, c);
    }
  }

  lemma SweepFreed(g: Geometry, m: nat, n: nat, bits: seq<bool>, blocks0: seq<Block>, st: State, w: World, st': State,
      w': World, bn: nat, leaked: bool, leak: bool)
    requires 1 <= m <= n && Divides(m, n) && g.dstart <= bn < g.fsize &&
             Swept(g, m, n, bits, blocks0, st, w, bn, leaked)
    requires var b := Spot(g, m, n, bn);
             && b < |w.tab| && |w'.tab| == |w.tab| && !Bit(g, bits, b)
             && w'.tab == w.tab[b := w'.tab[b]] && (w'.tab[b].Free? || (leak && w'.tab[b].Lost?))
             && |st'.disk.blocks| == |st.disk.blocks|
             && forall c :: 0 <= c < |st'.disk.blocks| && c != b ==> st'.disk.blocks[c] == st.disk.blocks[c]
    ensures Swept(g, m, n, bits, blocks0, st', w', bn + 1, leaked || leak)
  {
    hide Bit, Spot, Turn, Divides;
    SweepTurn(g, m, n, bn);
  }

  const MaxInterleave: nat := 255

  predicate GoodFactors(m: nat, n: nat) {
    1 <= m <= n <= MaxInterleave && Divides(m, n)
  }

  /** The unused blocks in the order of the interleaved sweep, up to turn bn. */
  ghost function SweepOrder(g: Geometry, bits: seq<bool>, m: nat, n: nat, bn: nat): seq<nat>
    requires 1 <= m <= n
    decreases bn
  {
    if bn <= g.dstart then []
    else SweepOrder(g, bits, m, n, bn - 1) + Due(g, bits, m, n, bn - 1)
  }

  /** The block whose turn it is, if it is unused. */
  ghost function Due(g: Geometry, bits: seq<bool>, m: nat, n: nat, bn: nat): seq<nat>
    requires 1 <= m <= n
  {
    if Bit(g, bits, Spot(g, m, n, bn)) then [] else [Spot(g, m, n, bn)]
  }

  lemma OrderStart(g: Geometry, bits: seq<bool>, m: nat, n: nat)
    requires 1 <= m <= n
    ensures SweepOrder(g, bits, m, n, g.dstart) == []
  {
  }

  lemma OrderNext(g: Geometry, bits: seq<bool>, m: nat, n: nat, bn: nat)
    requires 1 <= m <= n && g.dstart <= bn
    ensures SweepOrder(g, bits, m, n, bn + 1) == SweepOrder(g, bits, m, n, bn) + Due(g, bits, m, n, bn)
  {
  }

  /** Rebuild the free list from the map of used blocks.  Whatever the map says: if no write
      failed, every unused block is listed once and no used block is; used blocks are not
      touched; the list is on disk, intact, and in the order of the sweep, interleaved by m0 and
      n0 if the edition has it and these are factors. */
  method Makefree(fs: Edition, bits: seq<bool>, interleave: bool, m0: nat, n0: nat) returns (nfree: nat, ghost w: World)
    requires Shape(fs.g, fs.St()) && |bits| == fs.g.fsize - fs.g.dstart
    modifies fs, fs.free
    ensures old(fs.Faults()) <= fs.Faults() && |fs.disk.blocks| == fs.g.fsize && fs.disk.inodes == old(fs.disk).inodes
    ensures ListOk(fs.g, fs.St(), w) && |w.tab| == fs.g.fsize
    ensures forall b: nat :: b < fs.g.fsize && !(fs.g.IsData(b) && !Bit(fs.g, bits, b)) ==>
            fs.disk.blocks[b] == old(fs.disk).blocks[b]
    ensures forall b: nat :: fs.g.IsData(b) && Listed(w.segs, b) ==> !Bit(fs.g, bits, b)
    ensures fs.Faults() == old(fs.Faults()) ==>
              && Intact(fs.g, fs.disk.blocks, fs.disk.sbN, fs.disk.sbFree, w.segs)
              && (forall b: nat :: fs.g.IsData(b) ==> (Listed(w.segs, b) <==> !Bit(fs.g, bits, b)))
              && fs.tfree == nfree == |Stack(w.segs)| && nfree + |MarkedIn(fs.g, bits)| == fs.g.fsize - fs.g.dstart
              && Stack(w.segs) == (if interleave && GoodFactors(m0, n0) then SweepOrder(fs.g, bits, m0, n0, fs.g.fsize)
                                   else SweepOrder(fs.g, bits, 1, 1, fs.g.fsize))
  {
    hide Bit, Listed, Intact, Stack, ListOk, MapTab, Swept, Spot, Turn, SweepTable, Banded, Divides, SweepOrder, Due;
    ghost var g := fs.g;
    var m, n := Factors(interleave, m0, n0);
    var maptab := Table(m, n);
    var bot, top := Band(fs.g, n);
    fs.nfree := 0;
    fs.tfree := 0;
    nfree := 0;
    ghost var leaked := false;
    w := World([[]], [[]], SweepTable(g, bits), true);
    ghost var blocks0 := fs.disk.blocks;
    SweepStart(g, m, n, bits, fs.St());
    StackOfNothing();
    OrderStart(g, bits, m, n);
    for bn := fs.g.dstart to fs.g.fsize
      invariant ListOk(g, fs.St(), w) && Swept(g, m, n, bits, blocks0, fs.St(), w, bn, leaked)
      invariant fs.disk.inodes == old(fs.disk).inodes && old(fs.Faults()) <= fs.Faults() &&
                (leaked ==> old(fs.Faults()) < fs.Faults())
      invariant !leaked ==> fs.tfree == nfree == |Stack(w.segs)| && Stack(w.segs) == SweepOrder(g, bits, m, n, bn)
    {
      OrderNext(g, bits, m, n, bn);
      ghost var leak := false;
      var freed;
      freed, leak, w := SweepOne(fs, maptab, m, n, bot, top, bn, bits, blocks0, leaked, w);
      leaked := leaked || leak;
      nfree := if freed then nfree + 1 else nfree;
    }
    ghost var st2 := fs.St();
    SweepDone(g, m, n, bits, blocks0, st2, w, leaked);
    var ok := fs.SuperWrite();
    ListFlushed(g, st2, fs.St(), w);
    if fs.Faults() == old(fs.Faults()) {
      FreeCount(g, fs.St(), w.segs, bits);
    }
  }

  /** The stack holds each listed block once. */
  lemma {:induction false} StackIs(segs: seq<seq<nat>>)
    requires |segs| >= 1 && DistinctEntries(segs)
    ensures Distinct(Stack(segs)) && forall b :: b in Stack(segs) <==> Listed(segs, b)
    decreases |segs|
  {
    hide Stack, Listed, DistinctEntries, Distinct;
    var n := |segs| - 1;
    var below, top := segs[..n], segs[n];
    assert segs == below + [top];
    StackTop(below, top);
    if n == 0 {
      BottomOnly(segs, top);
    } else {
      BelowApart(segs, below, top);
      StackIs(below);
      TopApart(segs, below, top, Stack(below));
    }
  }

  lemma BottomOnly(segs: seq<seq<nat>>, top: seq<nat>)
    requires segs == [top] && DistinctEntries(segs)
    ensures var s := if top == [] then [] else top[1..];
            Distinct(s) && forall b :: b in s <==> Listed(segs, b)
  {
    var s := if top == [] then [] else top[1..];
    assert forall i {:trigger s[i]} :: 0 <= i < |s| ==> IsEntry(segs, 0, i + 1) && segs[0][i + 1] == s[i];
    forall b | Listed(segs, b)
      ensures b in s
    {
      var j, i :| IsEntry(segs, j, i) && segs[j][i] == b;
      assert s[i - 1] == b;
    }
  }

  lemma BelowApart(segs: seq<seq<nat>>, below: seq<seq<nat>>, top: seq<nat>)
    requires segs == below + [top] && DistinctEntries(segs)
    ensures DistinctEntries(below)
  {
    assert forall j, i :: IsEntry(below, j, i) ==> IsEntry(segs, j, i) && segs[j][i] == below[j][i];
  }

  lemma TopApart(segs: seq<seq<nat>>, below: seq<seq<nat>>, top: seq<nat>, s: seq<nat>)
    requires |segs| >= 2 && segs == below + [top] && DistinctEntries(segs)
    requires Distinct(s) && forall b :: b in s <==> Listed(below, b)
    ensures Distinct(s + top) && forall b :: b in s + top <==> Listed(segs, b)
  {
    var n := |segs| - 1;
    assert forall i :: 0 <= i < |top| ==> IsEntry(segs, n, i) && segs[n][i] == top[i];
    assert forall j, i :: IsEntry(below, j, i) ==> IsEntry(segs, j, i) && j < n && segs[j][i] == below[j][i];
    forall b
      ensures Listed(segs, b) <==> b in s || b in top
      ensures !(b in s && b in top)
    {
      if Listed(segs, b) {
        var j, i :| IsEntry(segs, j, i) && segs[j][i] == b;
        if j < n {
          assert IsEntry(below, j, i) && below[j][i] == b;
        }
      }
    }
    assert forall i, j :: 0 <= i < j < |top| ==> top[i] != top[j] by {
      assert forall i, j :: 0 <= i < j < |top| ==> IsEntry(segs, n, i) && IsEntry(segs, n, j);
    }
    hide Listed, DistinctEntries;
    var u := s + top;
    forall i, j | 0 <= i < j < |u|
      ensures u[i] != u[j]
    {
      if i < |s| <= j {
        assert u[i] in s && u[j] in top;
      }
    }
  }

  lemma {:induction false} Interval(m: set<nat>, lo: nat, hi: nat)
    requires lo <= hi && forall x: nat :: x in m <==> lo <= x < hi
    ensures |m| == hi - lo
    decreases hi
  {
    if lo == hi {
      assert m == {};
    } else {
      Interval(m - {hi - 1}, lo, hi - 1);
    }
  }

  /** A list of exactly the unused blocks has the data area less the used ones. */
  lemma FreeCount(g: Geometry, st: State, segs: seq<seq<nat>>, bits: seq<bool>)
    requires g.dstart <= g.fsize && Intact(g, st.disk.blocks, st.disk.sbN, st.disk.sbFree, segs)
    requires forall b: nat :: g.IsData(b) ==> (Listed(segs, b) <==> !Bit(g, bits, b))
    ensures |Stack(segs)| + |MarkedIn(g, bits)| == g.fsize - g.dstart
  {
    hide Stack, Linked, Cached;
    StackIs(segs);
    CardDistinct(Stack(segs));
    var a, b := SetOf(Stack(segs)), MarkedIn(g, bits);
    forall x: nat
      ensures x in a + b <==> g.dstart <= x < g.fsize
      ensures !(x in a && x in b)
    {
    }
    Interval(a + b, g.dstart, g.fsize);
    assert a !! b;
  }

  lemma ListFlushed(g: Geometry, st: State, st': State, w: World)
    requires ListOk(g, st, w) && st'.disk == st.disk.(sbN := st'.disk.sbN, sbFree := st'.disk.sbFree)
    requires st'.nfree == st.nfree && st'.free == st.free && |st'.disk.sbFree| == |st.disk.sbFree|
    ensures ListOk(g, st', w)
  {
  }

  /** One turn of the sweep. */
  method SweepOne(fs: Edition, maptab: seq<nat>, m: nat, n: nat, bot: nat, top: nat, bn: nat, bits: seq<bool>,
                  ghost blocks0: seq<Block>, ghost leaked: bool, ghost w: World)
    returns (freed: bool, ghost leak: bool, ghost w': World)
    requires ListOk(fs.g, fs.St(), w) && |bits| == fs.g.fsize - fs.g.dstart && fs.g.dstart <= bn < fs.g.fsize
    requires 1 <= m <= n && Divides(m, n) && Banded(fs.g, n, bot, top)
    requires |maptab| == n && forall i {:trigger maptab[i]} :: 0 <= i < n ==> maptab[i] == MapTab(m, n, i)
    requires Swept(fs.g, m, n, bits, blocks0, fs.St(), w, bn, leaked)
    modifies fs, fs.free
    ensures ListOk(fs.g, fs.St(), w') && Swept(fs.g, m, n, bits, blocks0, fs.St(), w', bn + 1, leaked || leak)
    ensures fs.disk.inodes == old(fs.disk).inodes && old(fs.Faults()) <= fs.Faults() &&
            (leak ==> old(fs.Faults()) < fs.Faults())
    ensures !leak ==>
            && Stack(w'.segs) == Stack(w.segs) + Due(fs.g, bits, m, n, bn)
            && |Stack(w'.segs)| == |Stack(w.segs)| + (if freed then 1 else 0)
            && fs.tfree == old(fs.tfree) + (if freed then 1 else 0)
  {
    hide Bit, Stack, ListOk, MapTab, Swept, Spot, Turn, Banded, Divides, Phys;
    ghost var g, st0 := fs.g, fs.St();
    freed, leak, w' := false, false, w;
    var blk := At(maptab, m, n, bot, top, bn);
    PhysSpot(g, m, n, bot, top, bn);
    SweepNext(g, m, n, bits, blocks0, st0, w, bn, leaked);
    BitAt(g, bits, blk);
    if !bits[blk - fs.g.dstart] {
      freed := true;
      leak, w' := fs.Bfree(blk, w);
      SweepFreed(g, m, n, bits, blocks0, st0, w, fs.St(), w', bn, leaked, leak);
    }
  }

  method Factors(interleave: bool, m0: nat, n0: nat) returns (m: nat, n: nat)
    ensures 1 <= m <= n && Divides(m, n)
    ensures if interleave && GoodFactors(m0, n0) then m == m0 && n == n0 else m == n == 1
  {
    m, n := 1, 1;
    if interleave {
      m, n := m0, n0;
      if n < 1 || n > MaxInterleave || m < 1 || m > n || n % m != 0 {
        m, n := 1, 1;
      }
    }
  }

  /** The part of the data area aligned to n. */
  predicate Banded(g: Geometry, n: nat, bot: nat, top: nat)
    requires n >= 1
  {
    bot == ((g.dstart + n - 1) / n) * n && top == (g.fsize / n) * n
  }

  method Band(g: Geometry, n: nat) returns (bot: nat, top: nat)
    requires n >= 1
    ensures Banded(g, n, bot, top)
  {
    bot, top := ((g.dstart + n - 1) / n) * n, (g.fsize / n) * n;
  }

  method At(maptab: seq<nat>, m: nat, n: nat, bot: nat, top: nat, bn: nat) returns (blk: nat)
    requires 1 <= m <= n && |maptab| == n && forall i {:trigger maptab[i]} :: 0 <= i < n ==>
             maptab[i] == MapTab(m, n, i)
    ensures blk == Phys(m, n, bot, top, bn)
  {
    hide MapTab;
    blk := bn;
    if bot <= bn < top {
      blk := Times(bn / n, n) + maptab[bn % n];
    }
  }

  lemma PhysSpot(g: Geometry, m: nat, n: nat, bot: nat, top: nat, bn: nat)
    requires 1 <= m <= n && Banded(g, n, bot, top)
    ensures Phys(m, n, bot, top, bn) == Spot(g, m, n, bn)
  {
    hide Phys;
  }

  lemma BitAt(g: Geometry, bits: seq<bool>, b: nat)
    requires g.IsData(b) && |bits| == g.fsize - g.dstart
    ensures Bit(g, bits, b) <==> bits[b - g.dstart]
  {
  }

  method Table(m: nat, n: nat) returns (tab: seq<nat>)
    requires 1 <= m <= n && Divides(m, n)
    ensures |tab| == n && forall i {:trigger tab[i]} :: 0 <= i < n ==> tab[i] == MapTab(m, n, i)
  {
    tab := [];
    Ratio(m, n);
    var ratio := Columns(m, n);
    for i := 0 to n
      invariant |tab| == i && forall k {:trigger tab[k]} :: 0 <= k < i ==> tab[k] == MapTab(m, n, k)
    {
      var x := i / ratio + Times(i % ratio, m);
      assert x == MapTab(m, n, i);
      hide MapTab;
      tab := tab + [x];
    }
  }

  lemma SweepDone(g: Geometry, m: nat, n: nat, bits: seq<bool>, blocks0: seq<Block>, st: State, w: World, leaked: bool)
    requires 1 <= m <= n && Divides(m, n) && ListOk(g, st, w) && Swept(g, m, n, bits, blocks0, st, w, g.fsize, leaked)
    ensures Shape(g, st) && Intact(g, st.disk.blocks, st.nfree, st.free, w.segs) && |blocks0| == |st.disk.blocks| &&
            |w.tab| == g.fsize
    ensures forall b: nat :: g.IsData(b) && Listed(w.segs, b) ==> !Bit(g, bits, b)
    ensures !leaked ==> forall b: nat :: g.IsData(b) ==> (Listed(w.segs, b) <==> !Bit(g, bits, b))
    ensures forall b: nat :: b < g.fsize && !(g.IsData(b) && !Bit(g, bits, b)) ==> st.disk.blocks[b] == blocks0[b]
  {
    hide Bit, Spot, Turn, Divides;
    forall b: nat | g.IsData(b)
      ensures Turn(g, m, n, b) < g.fsize
      ensures Listed(w.segs, b) <==> w.tab[b].Free?
    {
      SpotTurn(g, m, n, b);
      if w.tab[b].Free? {
        assert IsEntry(w.segs, w.tab[b].seg, w.tab[b].idx);
      }
    }
  }

  // ---- the image after a salvage ----

  ghost predicate SameAt(blocks: seq<Block>, blocks': seq<Block>, s: seq<nat>) {
    forall x :: x in s && x < |blocks| && x < |blocks'| ==> blocks'[x] == blocks[x]
  }

  /** The claims of a tree depend on the claimed blocks alone. */
  lemma {:induction false} ClaimsSame(g: Geometry, blocks: seq<Block>, blocks': seq<Block>, b: nat, h: nat)
    requires |blocks'| == |blocks| && SameAt(blocks, blocks', Claims(g, blocks, b, h))
    ensures Claims(g, blocks', b, h) == Claims(g, blocks, b, h)
    decreases h, 1, 0
  {
    if b != 0 && h > 0 {
      assert b in Claims(g, blocks, b, h);
      KidsSame(g, blocks, blocks', b, h, 0);
    }
  }

  lemma {:induction false} KidsSame(g: Geometry, blocks: seq<Block>, blocks': seq<Block>, b: nat, h: nat, i: nat)
    requires h >= 1 && |blocks'| == |blocks| && SameAt(blocks, blocks', [b] + KidClaims(g, blocks, b, h, i))
    ensures KidClaims(g, blocks', b, h, i) == KidClaims(g, blocks, b, h, i)
    decreases h, 0, g.nindir - i
  {
    if i < g.nindir {
      var c := Cell(blocks, b, i);
      assert b in [b];
      assert Cell(blocks', b, i) == c;
      ClaimsSame(g, blocks, blocks', c, h - 1);
      KidsSame(g, blocks, blocks', b, h, i + 1);
    }
  }

  lemma {:induction false} SlotsSame(g: Geometry, blocks: seq<Block>, blocks': seq<Block>, ip: Inode, s: nat)
    requires |blocks'| == |blocks| && SameAt(blocks, blocks', SlotsClaims(g, blocks, ip, s))
    ensures SlotsClaims(g, blocks', ip, s) == SlotsClaims(g, blocks, ip, s)
    decreases g.niaddr - s
  {
    if s < g.niaddr {
      if s < |ip.addr| {
        ClaimsSame(g, blocks, blocks', ip.addr[s], Height(g, ip.large, s));
      }
      SlotsSame(g, blocks, blocks', ip, s + 1);
    }
  }

  lemma {:induction false} AllSame(g: Geometry, blocks: seq<Block>, blocks': seq<Block>, inodes: seq<Inode>, ino: nat)
    requires |blocks'| == |blocks| && SameAt(blocks, blocks', AllClaims(g, blocks, inodes, ino))
    ensures AllClaims(g, blocks', inodes, ino) == AllClaims(g, blocks, inodes, ino)
    decreases |inodes| - ino
  {
    if ino < |inodes| {
      if inodes[ino].kind.Data? {
        SlotsSame(g, blocks, blocks', inodes[ino], 0);
      }
      AllSame(g, blocks, blocks', inodes, ino + 1);
    }
  }

  /** A salvage from the marks of a clean pass leaves an image free of aliasing in which no
      block is missing. */
  lemma Salvaged(g: Geometry, img: Image, img': Image, bits: seq<bool>, segs: seq<seq<nat>>)
    requires |img.blocks| == |img'.blocks| == g.fsize && img'.inodes == img.inodes
    requires Fresh(g, {}, AllClaims(g, img.blocks, img.inodes, 1))
    requires forall b: nat :: g.IsData(b) ==> (Bit(g, bits, b) <==> b in AllClaims(g, img.blocks, img.inodes, 1))
    requires forall b: nat :: b < g.fsize && !(g.IsData(b) && !Bit(g, bits, b)) ==> img'.blocks[b] == img.blocks[b]
    requires Intact(g, img'.blocks, img'.sbN, img'.sbFree, segs)
    requires forall b: nat :: g.IsData(b) ==> (Listed(segs, b) <==> !Bit(g, bits, b))
    ensures NeverD(g, img')
    ensures forall b: nat :: g.IsData(b) ==> (Listed(segs, b) <==> b !in AllClaims(g, img'.blocks, img'.inodes, 1))
  {
    hide AllClaims, Listed, Bit, Intact;
    AllSame(g, img.blocks, img'.blocks, img.inodes, 1);
  }
}
