/** What truncation keeps and what it collects: the claims before are the claims after plus
    the collected blocks, each once. */
module Truncation {
  import opened Geometry
  import opened FreeChain
  import opened Image
  import opened Ownership
  import opened Consistency
  import opened TreeSteps

  /** Only indirect blocks under position o change, and only by zeroing entries that start at
      or past logical block `cut`. */
  ghost predicate CutUnder(g: Geometry, tab: Table, o: Own, cut: nat, blocks: seq<Block>, blocks': seq<Block>)
    requires o.Owned?
  {
    && |blocks'| == |blocks|
    && (forall b: nat {:trigger blocks'[b]} :: b < |blocks| && !(IsIndirect(tab, b) && Under(g, tab, b, o)) ==>
         blocks'[b] == blocks[b])
    && (forall b: nat, i: nat {:trigger Cell(blocks', b, i)} :: IsIndirect(tab, b) && i < g.nindir ==>
          Cell(blocks', b, i) == Cell(blocks, b, i) || (Cell(blocks', b, i) == 0 && cut <= Child(g, tab[b], i).base))
  }

  lemma CutSelf(g: Geometry, tab: Table, o: Own, cut: nat, blocks: seq<Block>)
    requires o.Owned?
    ensures CutUnder(g, tab, o, cut, blocks, blocks)
  {
  }

  lemma ClaimsOfNone(g: Geometry, blocks: seq<Block>, h: nat)
    ensures Claims(g, blocks, 0, h) == []
  {
  }

  lemma AgreeSelf(g: Geometry, tab: Table, o: Own, blocks: seq<Block>)
    requires o.Owned?
    ensures AgreeUnder(g, tab, o, blocks, blocks)
  {
  }

  /** Cutting below one entry leaves the subtrees of the other entries alone. */
  lemma CutSiblings(g: Geometry, tab: Table, o: Own, e: nat, j: nat, cut: nat, blocks: seq<Block>, blocks': seq<Block>)
    requires o.Owned? && o.h >= 1 && e < g.nindir && j < g.nindir && j != e
    requires CutUnder(g, tab, Child(g, o, e), cut, blocks, blocks')
    ensures AgreeUnder(g, tab, Child(g, o, j), blocks, blocks')
  {
    ChildSpan(g, o, e);
    ChildSpan(g, o, j);
    var sub := Pow(g.nindir, o.h - 1);
    MulMonotone(e + 1, j, sub);
    MulMonotone(j + 1, e, sub);
    forall b: nat, i: nat {:trigger Cell(blocks', b, i)} | IsIndirect(tab, b) && Under(g, tab, b, Child(g, o, j)) &&
        i < g.nindir
      ensures Cell(blocks', b, i) == Cell(blocks, b, i)
    {
      assert !Under(g, tab, b, Child(g, o, e));
      assert b < |blocks| ==> blocks'[b] == blocks[b];
    }
  }

  lemma CutChild(g: Geometry, tab: Table, o: Own, e: nat, cut: nat, blocks: seq<Block>, blocks': seq<Block>)
    requires o.Owned? && o.h >= 1 && e < g.nindir
    requires CutUnder(g, tab, Child(g, o, e), cut, blocks, blocks')
    ensures CutUnder(g, tab, o, cut, blocks, blocks')
    ensures forall b: nat :: b < |tab| && tab[b] == o && b < |blocks| ==> blocks'[b] == blocks[b]
  {
    ChildSpan(g, o, e);
    forall b: nat | b < |blocks| && !(IsIndirect(tab, b) && Under(g, tab, b, o))
      ensures blocks'[b] == blocks[b]
    {
      assert !(IsIndirect(tab, b) && Under(g, tab, b, Child(g, o, e)));
    }
  }

  /** The claims of entries 0 to i of an indirect block whose contents are buf. */
  function PrefixClaims(g: Geometry, blocks: seq<Block>, buf: Block, h: nat, i: nat): seq<nat>
    requires h >= 1
    decreases i
  {
    if i == 0 then []
    else PrefixClaims(g, blocks, buf, h, i - 1) + (if i <= |buf| then Claims(g, blocks, buf[i - 1], h - 1) else [])
  }

  lemma PrefixStep(g: Geometry, blocks: seq<Block>, buf: Block, h: nat, i: nat)
    requires h >= 1 && i < |buf|
    ensures PrefixClaims(g, blocks, buf, h, i + 1) == PrefixClaims(g, blocks, buf, h, i) +
            Claims(g, blocks, buf[i], h - 1)
  {
  }

  lemma PrefixNone(g: Geometry, blocks: seq<Block>, buf: Block, h: nat)
    requires h >= 1
    ensures PrefixClaims(g, blocks, buf, h, 0) == []
  {
  }

  lemma KidStep(g: Geometry, blocks: seq<Block>, b: nat, h: nat, i: nat)
    requires h >= 1 && i < g.nindir
    ensures KidClaims(g, blocks, b, h, i) == Claims(g, blocks, Cell(blocks, b, i), h - 1) +
            KidClaims(g, blocks, b, h, i + 1)
  {
  }

  ghost predicate BufOk(g: Geometry, tab: Table, o: Own, buf: Block)
    requires o.Owned? && o.h >= 1
  {
    |buf| == g.bsize && forall j: nat {:trigger buf[j]} :: j < g.nindir && j < |buf| ==>
        RefOk(g, tab, buf[j], Child(g, o, j))
  }

  lemma {:induction false} PrefixAgree(g: Geometry, blocks: seq<Block>, blocks': seq<Block>, tab: Table, o: Own,
      buf: Block, buf': Block, i: nat)
    requires g.Valid() && TreesOk(g, blocks, tab) && o.Owned? && o.h >= 1 && BufOk(g, tab, o, buf) && i <= g.nindir
    requires |buf'| == |buf| && forall j :: 0 <= j < i ==> buf'[j] == buf[j]
    requires forall j: nat :: j < i ==> AgreeUnder(g, tab, Child(g, o, j), blocks, blocks')
    ensures PrefixClaims(g, blocks', buf', o.h, i) == PrefixClaims(g, blocks, buf, o.h, i)
    decreases i
  {
    hide Claims, TreesOk, AgreeUnder, PrefixClaims, RefOk, Pow;
    if i == 0 {
      PrefixNone(g, blocks, buf, o.h);
      PrefixNone(g, blocks', buf', o.h);
    } else {
      PrefixAgree(g, blocks, blocks', tab, o, buf, buf', i - 1);
      PrefixStep(g, blocks, buf, o.h, i - 1);
      PrefixStep(g, blocks', buf', o.h, i - 1);
      assert RefOk(g, tab, buf[i - 1], Child(g, o, i - 1));
      ClaimsAgree(g, blocks, blocks', tab, buf[i - 1], Child(g, o, i - 1));
    }
  }

  lemma {:induction false} PrefixKids(g: Geometry, blocks: seq<Block>, b: nat, buf: Block, h: nat, i: nat)
    requires h >= 1 && i <= g.nindir <= |buf|
    requires forall j: nat {:trigger Cell(blocks, b, j)} :: j < g.nindir ==> Cell(blocks, b, j) == buf[j]
    ensures PrefixClaims(g, blocks, buf, h, i) + KidClaims(g, blocks, b, h, i) == KidClaims(g, blocks, b, h, 0)
    decreases i
  {
    hide Claims;
    if i > 0 {
      PrefixKids(g, blocks, b, buf, h, i - 1);
      assert Cell(blocks, b, i - 1) == buf[i - 1];
      assert KidClaims(g, blocks, b, h, i - 1) == Claims(g, blocks, buf[i - 1], h - 1) + KidClaims(g, blocks, b, h, i);
    }
  }

  /** Entries of the partly cut block: whole ones before e, e itself if it straddles. */
  ghost predicate KeepsEntry(e: nat, partial: bool, j: nat) {
    j < e || (j == e && partial)
  }

  /** The state of a partial truncation of block b, labelled o, before entry i. */
  ghost predicate Cutting(g: Geometry, tab: Table, o: Own, b: nat, e: nat, partial: bool, cut: nat,
                          blocks0: seq<Block>, blocks: seq<Block>, buf: Block, i: nat, bl0: seq<nat>, bl: seq<nat>)
    requires o.Owned? && o.h >= 1
  {
    && i <= g.nindir && e < g.nindir && BufOk(g, tab, o, buf)
    && (if partial && i > e then CutUnder(g, tab, Child(g, o, e), cut, blocks0, blocks) else blocks == blocks0)
    && (forall j: nat {:trigger buf[j]} :: j < |buf| ==>
          buf[j] == if j < i && !KeepsEntry(e, partial, j) then 0 else Cell(blocks0, b, j))
    && Balanced(g, blocks0, blocks, b, o.h, buf, i, bl0, bl)
  }

  /** Collected, kept and still to be looked at add up. */
  ghost predicate Balanced(g: Geometry, blocks0: seq<Block>, blocks: seq<Block>, b: nat, h: nat, buf: Block, i: nat,
      bl0: seq<nat>, bl: seq<nat>)
    requires h >= 1
  {
    multiset(bl) + multiset(PrefixClaims(g, blocks, buf, h, i)) + multiset(KidClaims(g, blocks0, b, h, i))
    == multiset(bl0) + multiset(KidClaims(g, blocks0, b, h, 0))
  }

  lemma BalancedNext(g: Geometry, blocks0: seq<Block>, blocks: seq<Block>, blocks': seq<Block>, b: nat, h: nat,
      buf: Block, buf': Block,
                     i: nat, bl0: seq<nat>, bl: seq<nat>, bl': seq<nat>)
    requires h >= 1 && i < g.nindir && i < |buf'| && Balanced(g, blocks0, blocks, b, h, buf, i, bl0, bl)
    requires PrefixClaims(g, blocks', buf', h, i) == PrefixClaims(g, blocks, buf, h, i)
    requires multiset(bl') + multiset(Claims(g, blocks', buf'[i], h - 1)) == multiset(bl) +
             multiset(Claims(g, blocks0, Cell(blocks0, b, i), h - 1))
    ensures Balanced(g, blocks0, blocks', b, h, buf', i + 1, bl0, bl')
  {
    hide Claims, KidClaims, PrefixClaims, Cell;
    var p, k := PrefixClaims(g, blocks, buf, h, i), KidClaims(g, blocks0, b, h, i + 1);
    var c0, c := Claims(g, blocks0, Cell(blocks0, b, i), h - 1), Claims(g, blocks', buf'[i], h - 1);
    KidStep(g, blocks0, b, h, i);
    PrefixStep(g, blocks', buf', h, i);
    assert multiset(p + c) == multiset(p) + multiset(c);
    assert multiset(c0 + k) == multiset(c0) + multiset(k);
    Shift(multiset(bl), multiset(bl'), multiset(p), multiset(c), multiset(c0), multiset(k));
  }

  lemma Shift(a: multiset<nat>, a': multiset<nat>, p: multiset<nat>, c: multiset<nat>, c0: multiset<nat>,
      k: multiset<nat>)
    requires a' + c == a + c0
    ensures a' + (p + c) + k == a + p + (c0 + k)
  {
    assert a' + (p + c) + k == (a' + c) + p + k;
    assert (a + c0) + p + k == a + p + (c0 + k);
  }

  lemma CuttingStart(g: Geometry, tab: Table, o: Own, b: nat, e: nat, partial: bool, cut: nat, blocks: seq<Block>,
      bl: seq<nat>)
    requires g.Valid() && TreesOk(g, blocks, tab) && o.Owned? && o.h >= 1 && b < |tab| && tab[b] == o && e < g.nindir
    requires b < |blocks| && |blocks[b]| == g.bsize
    ensures Cutting(g, tab, o, b, e, partial, cut, blocks, blocks, blocks[b], 0, bl, bl)
  {
    forall j: nat | j < g.nindir
      ensures RefOk(g, tab, blocks[b][j], Child(g, o, j))
    {
      assert Cell(blocks, b, j) == blocks[b][j];
    }
  }

  /** An entry past e is still as it was. */
  lemma EntryClaims(g: Geometry, tab: Table, o: Own, b: nat, e: nat, partial: bool, cut: nat,
                    blocks0: seq<Block>, blocks: seq<Block>, buf: Block, i: nat, bl0: seq<nat>, bl: seq<nat>)
    requires g.Valid() && TreesOk(g, blocks0, tab) && o.Owned? && o.h >= 1 && i < g.nindir
    requires Cutting(g, tab, o, b, e, partial, cut, blocks0, blocks, buf, i, bl0, bl)
    ensures buf[i] == Cell(blocks0, b, i) && RefOk(g, tab, buf[i], Child(g, o, i))
    ensures Claims(g, blocks, buf[i], o.h - 1) == Claims(g, blocks0, buf[i], o.h - 1)
  {
    hide Claims, Balanced, TreesOk, Pow;
    if partial && i > e {
      CutSiblings(g, tab, o, e, i, cut, blocks0, blocks);
      ClaimsAgree(g, blocks0, blocks, tab, buf[i], Child(g, o, i));
    }
  }

  /** A kept entry, untouched. */
  lemma CuttingKeep(g: Geometry, tab: Table, o: Own, b: nat, e: nat, partial: bool, cut: nat,
                    blocks0: seq<Block>, blocks: seq<Block>, buf: Block, i: nat, bl0: seq<nat>, bl: seq<nat>)
    requires g.Valid() && TreesOk(g, blocks0, tab) && o.Owned? && o.h >= 1 && i < g.nindir
    requires Cutting(g, tab, o, b, e, partial, cut, blocks0, blocks, buf, i, bl0, bl)
    requires i < e || buf[i] == 0
    ensures Cutting(g, tab, o, b, e, partial, cut, blocks0, blocks, buf, i + 1, bl0, bl)
  {
    hide Balanced, TreesOk, CutUnder, Claims, RefOk, Pow;
    EntryClaims(g, tab, o, b, e, partial, cut, blocks0, blocks, buf, i, bl0, bl);
    BalancedNext(g, blocks0, blocks, blocks, b, o.h, buf, buf, i, bl0, bl, bl);
    if partial && i == e {
      CutSelf(g, tab, Child(g, o, e), cut, blocks0);
    }
  }

  /** A dropped entry, its subtree collected. */
  lemma CuttingDrop(g: Geometry, tab: Table, o: Own, b: nat, e: nat, partial: bool, cut: nat,
                    blocks0: seq<Block>, blocks: seq<Block>, buf: Block, i: nat, bl0: seq<nat>, bl: seq<nat>,
                        bl': seq<nat>)
    requires g.Valid() && TreesOk(g, blocks0, tab) && TreesOk(g, blocks, tab) && o.Owned? && o.h >= 1 && i < g.nindir
    requires Cutting(g, tab, o, b, e, partial, cut, blocks0, blocks, buf, i, bl0, bl)
    requires !KeepsEntry(e, partial, i)
    requires multiset(bl') == multiset(bl) + multiset(Claims(g, blocks, buf[i], o.h - 1))
    ensures Cutting(g, tab, o, b, e, partial, cut, blocks0, blocks, SetCell(buf, i, 0), i + 1, bl0, bl')
  {
    hide Balanced, TreesOk, CutUnder, KidClaims, PrefixClaims, Pow, AgreeUnder, Claims;
    ClaimsOfNone(g, blocks, o.h - 1);
    EntryClaims(g, tab, o, b, e, partial, cut, blocks0, blocks, buf, i, bl0, bl);
    var buf' := SetCell(buf, i, 0);
    forall j: nat | j < i
      ensures AgreeUnder(g, tab, Child(g, o, j), blocks, blocks)
    {
      AgreeSelf(g, tab, Child(g, o, j), blocks);
    }
    PrefixAgree(g, blocks, blocks, tab, o, buf, buf', i);
    BalancedNext(g, blocks0, blocks, blocks, b, o.h, buf, buf', i, bl0, bl, bl');
  }

  /** The straddling entry, its subtree cut in place. */
  lemma CuttingPartial(g: Geometry, tab: Table, o: Own, b: nat, e: nat, cut: nat,
                       blocks: seq<Block>, blocks': seq<Block>, buf: Block, bl0: seq<nat>, bl: seq<nat>, bl': seq<nat>)
    requires g.Valid() && TreesOk(g, blocks, tab) && o.Owned? && o.h >= 1 && e < g.nindir
    requires Cutting(g, tab, o, b, e, true, cut, blocks, blocks, buf, e, bl0, bl)
    requires CutUnder(g, tab, Child(g, o, e), cut, blocks, blocks')
    requires multiset(bl') + multiset(Claims(g, blocks', buf[e], o.h - 1)) == multiset(bl) +
             multiset(Claims(g, blocks, buf[e], o.h - 1))
    ensures Cutting(g, tab, o, b, e, true, cut, blocks, blocks', buf, e + 1, bl0, bl')
  {
    hide Balanced, TreesOk, CutUnder, Claims, KidClaims, PrefixClaims, RefOk, Pow, AgreeUnder;
    EntryClaims(g, tab, o, b, e, true, cut, blocks, blocks, buf, e, bl0, bl);
    forall j: nat | j < e
      ensures AgreeUnder(g, tab, Child(g, o, j), blocks, blocks')
    {
      CutSiblings(g, tab, o, e, j, cut, blocks, blocks');
    }
    PrefixAgree(g, blocks, blocks', tab, o, buf, buf, e);
    hide Balanced, TreesOk, CutUnder, Claims, KidClaims, PrefixClaims, RefOk, BufOk, Pow, AgreeUnder;
    BalancedNext(g, blocks, blocks, blocks', b, o.h, buf, buf, e, bl0, bl, bl');
  }

  /** Nothing is mapped from index skip on. */
  ghost predicate ZeroFrom(g: Geometry, blocks: seq<Block>, b: nat, h: nat, skip: nat)
    requires g.nindir >= 1
  {
    forall r: nat {:trigger Walk(g, blocks, b, h, r)} :: Residue(g, r, h) >= skip ==> Walk(g, blocks, b, h, r) == 0
  }

  /** The entry that `skip` falls in, as positions see it. */
  lemma CutEntries(g: Geometry, o: Own, skip: nat, j: nat)
    requires g.nindir >= 1 && o.Owned? && o.h >= 1
    ensures var sub := Pow(g.nindir, o.h - 1);
            var e, partial := skip / sub, skip % sub > 0;
            && (!KeepsEntry(e, partial, j) ==> o.base + skip <= Child(g, o, j).base)
            && Child(g, o, e).base + skip % sub == o.base + skip
            && (j < e ==> Child(g, o, j).base + sub <= o.base + skip)
  {
    var sub := Pow(g.nindir, o.h - 1);
    var e := skip / sub;
    DivMod(skip, sub);
    MulMonotone(e + 1, j, sub);
    MulMonotone(j + 1, e, sub);
    assert (e + 1) * sub == e * sub + sub && (j + 1) * sub == j * sub + sub;
  }

  /** The block is written back: the effect of the whole partial truncation. */
  lemma CuttingEnd(g: Geometry, tab: Table, o: Own, b: nat, skip: nat,
                   blocks0: seq<Block>, blocks: seq<Block>, buf: Block, bl0: seq<nat>, bl: seq<nat>)
    requires g.Valid() && TreesOk(g, blocks0, tab) && TreesOk(g, blocks, tab) && o.Owned? && o.h >= 1
    requires b != 0 && g.IsData(b) && b < |tab| && tab[b] == o && b < |blocks0| && |blocks0[b]| == g.bsize
    requires Cutting(g, tab, o, b, skip / Pow(g.nindir, o.h - 1), skip % Pow(g.nindir, o.h - 1) > 0, o.base + skip,
                     blocks0, blocks, buf, g.nindir, bl0, bl)
    ensures |blocks| == |blocks0| && CutUnder(g, tab, o, o.base + skip, blocks0, blocks[b := buf])
    ensures multiset(bl) + multiset(Claims(g, blocks[b := buf], b, o.h)) == multiset(bl0) +
            multiset(Claims(g, blocks0, b, o.h))
  {
    hide Balanced, Pow, TreesOk, Claims;
    var sub := Pow(g.nindir, o.h - 1);
    var e, partial, cut := skip / sub, skip % sub > 0, o.base + skip;
    CutSelf(g, tab, o, cut, blocks0);
    if partial {
      CutChild(g, tab, o, e, cut, blocks0, blocks);
    }
    CuttingWritten(g, tab, o, b, skip, blocks0, blocks, buf);
    CuttingClaims(g, tab, o, b, blocks, buf);
    assert Balanced(g, blocks0, blocks, b, o.h, buf, g.nindir, bl0, bl);
    assert KidClaims(g, blocks0, b, o.h, g.nindir) == [];
    EndBalance(g, blocks0, blocks[b := buf], blocks, b, o.h, buf, bl0, bl);
  }

  lemma EndBalance(g: Geometry, blocks0: seq<Block>, final: seq<Block>, blocks: seq<Block>, b: nat, h: nat, buf: Block,
      bl0: seq<nat>, bl: seq<nat>)
    requires h >= 1 && b != 0 && Balanced(g, blocks0, blocks, b, h, buf, g.nindir, bl0, bl)
    requires KidClaims(g, blocks0, b, h, g.nindir) == []
    requires KidClaims(g, final, b, h, 0) == PrefixClaims(g, blocks, buf, h, g.nindir)
    ensures multiset(bl) + multiset(Claims(g, final, b, h)) == multiset(bl0) + multiset(Claims(g, blocks0, b, h))
  {
    hide KidClaims, PrefixClaims;
    var k0, k := KidClaims(g, blocks0, b, h, 0), KidClaims(g, final, b, h, 0);
    assert Claims(g, blocks0, b, h) == [b] + k0 && Claims(g, final, b, h) == [b] + k;
    assert multiset([b] + k0) == multiset([b]) + multiset(k0);
    assert multiset([b] + k) == multiset([b]) + multiset(k);
    assert multiset(bl) + multiset(k) == multiset(bl0) + multiset(k0);
    assert multiset(bl) + (multiset([b]) + multiset(k)) == (multiset(bl) + multiset(k)) + multiset([b]);
  }

  lemma CuttingClaims(g: Geometry, tab: Table, o: Own, b: nat, blocks: seq<Block>, buf: Block)
    requires g.Valid() && TreesOk(g, blocks, tab) && o.Owned? && o.h >= 1 && b < |blocks| && b < |tab| && tab[b] == o
    requires BufOk(g, tab, o, buf)
    ensures KidClaims(g, blocks[b := buf], b, o.h, 0) == PrefixClaims(g, blocks, buf, o.h, g.nindir)
  {
    hide KidClaims, PrefixClaims, TreesOk, Pow, BufOk, Child;
    var final := blocks[b := buf];
    UpdateCell(blocks, b, buf);
    forall j: nat | j < g.nindir
      ensures AgreeUnder(g, tab, ChildAt(g, o, j), blocks, final)
    {
    }
    BufLength(g, tab, o, buf);
    ChildrenAre(g, o);
    PrefixAgree(g, blocks, final, tab, o, buf, buf, g.nindir);
    PrefixKids(g, final, b, buf, o.h, g.nindir);
    NoKids(g, final, b, o.h);
  }

  ghost function ChildAt(g: Geometry, o: Own, j: nat): (c: Own)
    requires o.Owned? && o.h >= 1
    ensures c.Owned? && c.h < o.h
  {
    Child(g, o, j)
  }

  lemma ChildrenAre(g: Geometry, o: Own)
    requires o.Owned? && o.h >= 1
    ensures forall j: nat {:trigger Child(g, o, j)} :: ChildAt(g, o, j) == Child(g, o, j)
  {
  }

  lemma BufLength(g: Geometry, tab: Table, o: Own, buf: Block)
    requires o.Owned? && o.h >= 1 && BufOk(g, tab, o, buf)
    ensures |buf| == g.bsize
  {
  }

  lemma NoKids(g: Geometry, blocks: seq<Block>, b: nat, h: nat)
    requires h >= 1
    ensures KidClaims(g, blocks, b, h, g.nindir) == []
  {
  }

  lemma CuttingWritten(g: Geometry, tab: Table, o: Own, b: nat, skip: nat, blocks0: seq<Block>, blocks: seq<Block>,
      buf: Block)
    requires g.Valid() && o.Owned? && o.h >= 1 && g.IsData(b) && b < |tab| && tab[b] == o && b < |blocks0|
    requires |buf| == g.bsize == |blocks0[b]|
    requires CutUnder(g, tab, o, o.base + skip, blocks0, blocks)
    requires var sub := Pow(g.nindir, o.h - 1);
             forall j: nat {:trigger buf[j]} :: j < |buf| ==>
               buf[j] == if j < g.nindir && !KeepsEntry(skip / sub, skip % sub > 0, j) then 0 else Cell(blocks0, b, j)
    ensures CutUnder(g, tab, o, o.base + skip, blocks0, blocks[b := buf])
  {
    var final := blocks[b := buf];
    UpdateCell(blocks, b, buf);
    forall c: nat, i: nat {:trigger Cell(final, c, i)} | IsIndirect(tab, c) && i < g.nindir
      ensures Cell(final, c, i) == Cell(blocks0, c, i) ||
              (Cell(final, c, i) == 0 && o.base + skip <= Child(g, tab[c], i).base)
    {
      if c == b {
        CutEntries(g, o, skip, i);
        assert Cell(final, c, i) == buf[i];
      } else {
        assert Cell(final, c, i) == Cell(blocks, c, i);
      }
    }
    assert Under(g, tab, b, o);
  }

  /** What a cut block still maps lies before the cut. */
  lemma CuttingZero(g: Geometry, tab: Table, o: Own, b: nat, skip: nat, blocks0: seq<Block>, blocks: seq<Block>,
      buf: Block, final: seq<Block>)
    requires g.Valid() && TreesOk(g, blocks, tab) && o.Owned? && o.h >= 1 && b < |tab| && tab[b] == o && b < |blocks|
    requires BufOk(g, tab, o, buf) && skip / Pow(g.nindir, o.h - 1) < g.nindir
    requires var sub := Pow(g.nindir, o.h - 1);
             && (forall j: nat {:trigger buf[j]} ::
                  j < g.nindir && j < |buf| && !KeepsEntry(skip / sub, skip % sub > 0, j) ==> buf[j] == 0)
             && (skip % sub > 0 ==> ZeroFrom(g, blocks, buf[skip / sub], o.h - 1, skip % sub))
    requires final == blocks[b := buf]
    ensures ZeroFrom(g, final, b, o.h, skip)
  {
    hide Pow, Residue, Digit, TreesOk, KeepsEntry;
    var sub := Pow(g.nindir, o.h - 1);
    var e, sp := skip / sub, skip % sub;
    UpdateCell(blocks, b, buf);
    forall r: nat {:trigger Walk(g, final, b, o.h, r)} | Residue(g, r, o.h) >= skip
      ensures Walk(g, final, b, o.h, r) == 0
    {
      var d := Digit(g, r, o.h);
      CutDigit(g, o.h, skip, r);
      assert b != 0 ==> Walk(g, final, b, o.h, r) == Walk(g, final, buf[d], o.h - 1, r);
      if KeepsEntry(e, sp > 0, d) {
        KeptEntry(e, sp > 0, d);
        assert Walk(g, blocks, buf[d], o.h - 1, r) == 0;
        WalkAgree(g, blocks, final, tab, buf[d], Child(g, o, d), r);
      }
    }
  }

  lemma KeptEntry(e: nat, partial: bool, d: nat)
    requires KeepsEntry(e, partial, d) && d >= e
    ensures d == e && partial
  {
  }

  lemma CutDigit(g: Geometry, h: nat, skip: nat, r: nat)
    requires g.nindir >= 1 && h >= 1 && Residue(g, r, h) >= skip
    ensures var sub := Pow(g.nindir, h - 1);
            && skip / sub <= Digit(g, r, h) < g.nindir
            && (Digit(g, r, h) == skip / sub ==> Residue(g, r, h - 1) >= skip % sub)
  {
    var sub := Pow(g.nindir, h - 1);
    var d, e := Digit(g, r, h), skip / sub;
    DigitSplit(g, r, h);
    DivMod(skip, sub);
    assert Residue(g, r, h - 1) < sub by {
      DivMod(r, sub);
    }
    MulMonotone(d + 1, e, sub);
    assert (d + 1) * sub == d * sub + sub;
  }

  // ---- the same, for a sound volume ----

  lemma CutPlan(g: Geometry, st: State, w: World, o: Own, b: nat, skip: nat, bl: seq<nat>)
    requires Sound(g, st, w) && o.Owned? && o.h >= 1 && b != 0 && RefOk(g, w.tab, b, o) && skip < Pow(g.nindir, o.h)
    ensures var sub := Pow(g.nindir, o.h - 1);
            && sub >= 1 && skip / sub < g.nindir
            && Cutting(g, w.tab, o, b, skip / sub, skip % sub > 0, o.base + skip, st.disk.blocks, st.disk.blocks,
                 st.disk.blocks[b], 0, bl, bl)
  {
    var sub := Pow(g.nindir, o.h - 1);
    DivBound(skip, g.nindir, sub);
    CuttingStart(g, w.tab, o, b, skip / sub, skip % sub > 0, o.base + skip, st.disk.blocks, bl);
  }

  lemma CutEntry(g: Geometry, st: State, w: World, o: Own, b: nat, e: nat, partial: bool, cut: nat,
                 st0: State, buf: Block, i: nat, bl0: seq<nat>, bl: seq<nat>)
    requires Sound(g, st0, w) && Sound(g, st, w) && o.Owned? && o.h >= 1 && i < g.nindir
    requires Cutting(g, w.tab, o, b, e, partial, cut, st0.disk.blocks, st.disk.blocks, buf, i, bl0, bl)
    ensures TreesOk(g, st0.disk.blocks, w.tab) && TreesOk(g, st.disk.blocks, w.tab)
    ensures |buf| == g.bsize && RefOk(g, w.tab, buf[i], Child(g, o, i))
    ensures i <= e || !partial ==> st.disk.blocks == st0.disk.blocks
  {
    hide Balanced;
    EntryClaims(g, w.tab, o, b, e, partial, cut, st0.disk.blocks, st.disk.blocks, buf, i, bl0, bl);
  }

  lemma ZeroHole(g: Geometry, blocks: seq<Block>, h: nat, skip: nat)
    requires g.nindir >= 1
    ensures ZeroFrom(g, blocks, 0, h, skip)
  {
  }

  /** The part of skip that falls into the straddling entry. */
  lemma CutBelow(g: Geometry, o: Own, skip: nat)
    requires g.nindir >= 1 && o.Owned? && o.h >= 1
    ensures var sub := Pow(g.nindir, o.h - 1);
            && Child(g, o, skip / sub).base + skip % sub == o.base + skip
            && skip % sub < sub
            && (skip % sub > 0 ==> o.h >= 2)
  {
    CutEntries(g, o, skip, 0);
    DivMod(skip, Pow(g.nindir, o.h - 1));
  }

  lemma ClaimsOfLeaf(g: Geometry, blocks: seq<Block>, b: nat)
    requires b != 0
    ensures Claims(g, blocks, b, 0) == [b]
  {
  }

  lemma CutDone(g: Geometry, st0: State, st: State, w: World, o: Own, b: nat, skip: nat, buf: Block, bl0: seq<nat>,
      bl: seq<nat>)
    requires Sound(g, st0, w) && Sound(g, st, w) && o.Owned? && o.h >= 1 && b != 0 && RefOk(g, w.tab, b, o)
    requires var sub := Pow(g.nindir, o.h - 1);
             && Cutting(g, w.tab, o, b, skip / sub, skip % sub > 0, o.base + skip, st0.disk.blocks, st.disk.blocks, buf,
                  g.nindir, bl0, bl)
             && skip / sub < g.nindir && |buf| == g.bsize
             && (skip % sub > 0 ==> ZeroFrom(g, st.disk.blocks, buf[skip / sub], o.h - 1, skip % sub))
    ensures |buf| == g.bsize && |st.disk.blocks| == |st0.disk.blocks|
    ensures forall i: nat {:trigger buf[i]} :: i < g.nindir ==> buf[i] == Cell(st.disk.blocks, b, i) || buf[i] == 0
    ensures CutUnder(g, w.tab, o, o.base + skip, st0.disk.blocks, st.disk.blocks[b := buf])
    ensures multiset(bl) + multiset(Claims(g, st.disk.blocks[b := buf], b, o.h)) == multiset(bl0) +
            multiset(Claims(g, st0.disk.blocks, b, o.h))
    ensures ZeroFrom(g, st.disk.blocks[b := buf], b, o.h, skip)
  {
    hide Balanced, ZeroFrom, Claims;
    var sub := Pow(g.nindir, o.h - 1);
    CuttingEnd(g, w.tab, o, b, skip, st0.disk.blocks, st.disk.blocks, buf, bl0, bl);
    CuttingZero(g, w.tab, o, b, skip, st0.disk.blocks, st.disk.blocks, buf, st.disk.blocks[b := buf]);
    if skip % sub > 0 {
      CutChild(g, w.tab, o, skip / sub, o.base + skip, st0.disk.blocks, st.disk.blocks);
    }
  }

  // ---- collecting a whole subtree ----

  ghost predicate Collected(g: Geometry, blocks: seq<Block>, b: nat, h: nat, i: nat, bl0: seq<nat>, bl: seq<nat>)
    requires h >= 1
  {
    multiset(bl) + multiset(KidClaims(g, blocks, b, h, i)) == multiset(bl0) + multiset(KidClaims(g, blocks, b, h, 0))
  }

  lemma CollectedNone(g: Geometry, blocks: seq<Block>, b: nat, h: nat, bl: seq<nat>)
    requires h >= 1
    ensures Collected(g, blocks, b, h, 0, bl, bl)
  {
  }

  lemma CollectedStep(g: Geometry, blocks: seq<Block>, b: nat, h: nat, i: nat, bl0: seq<nat>, bl: seq<nat>,
      bl': seq<nat>)
    requires h >= 1 && i < g.nindir && Collected(g, blocks, b, h, i, bl0, bl)
    requires multiset(bl') == multiset(bl) + multiset(Claims(g, blocks, Cell(blocks, b, i), h - 1))
    ensures Collected(g, blocks, b, h, i + 1, bl0, bl')
  {
    hide Claims, KidClaims;
    KidStep(g, blocks, b, h, i);
    var c, k := Claims(g, blocks, Cell(blocks, b, i), h - 1), KidClaims(g, blocks, b, h, i + 1);
    assert multiset(c + k) == multiset(c) + multiset(k);
    Shift(multiset(bl), multiset(bl'), multiset{}, multiset{}, multiset(c), multiset(k));
  }

  lemma CollectedAll(g: Geometry, blocks: seq<Block>, b: nat, h: nat, bl0: seq<nat>, bl: seq<nat>)
    requires h >= 1 && b != 0 && Collected(g, blocks, b, h, g.nindir, bl0, bl)
    ensures multiset(bl + [b]) == multiset(bl0) + multiset(Claims(g, blocks, b, h))
  {
    hide KidClaims;
    NoKids(g, blocks, b, h);
    var k := KidClaims(g, blocks, b, h, 0);
    assert Claims(g, blocks, b, h) == [b] + k;
    assert multiset(bl) == multiset(bl0) + multiset(k);
    assert multiset([b] + k) == multiset([b]) + multiset(k);
    assert multiset(bl + [b]) == multiset(bl) + multiset([b]);
    assert multiset(bl0) + multiset(k) + multiset([b]) == multiset(bl0) + (multiset([b]) + multiset(k));
  }
}
