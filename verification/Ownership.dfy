/** The block-ownership table (instrument.c) as ghost state, and the local invariant that
    makes aliasing impossible: every reference to a block is found at the one position its
    table entry names. */
module Ownership {
  import opened Geometry
  import opened FreeChain
  import opened Image

  /** The state of one block.  `Lost` is a leak: a block no list, inode or caller holds.
      `Free` records the place in the free list, `Owned` the position in a file: the
      inode, the height above the data and the first logical block covered. */
  datatype Own = Lost | Free(seg: nat, idx: nat) | Alloc | Owned(ino: nat, h: nat, base: nat)

  type Table = seq<Own>

  /** The position of entry i of the indirect block at position `o`. */
  function Child(g: Geometry, o: Own, i: nat): Own
    requires o.Owned? && o.h >= 1
  {
    Owned(o.ino, o.h - 1, o.base + i * Pow(g.nindir, o.h - 1))
  }

  predicate RefOk(g: Geometry, tab: Table, x: nat, o: Own) {
    x == 0 || (g.IsData(x) && x < |tab| && tab[x] == o)
  }

  predicate IsIndirect(tab: Table, b: nat) {
    b < |tab| && tab[b].Owned? && tab[b].h >= 1
  }

  /** Every entry of every indirect block names a block at the entry's own position. */
  ghost predicate TreesOk(g: Geometry, blocks: seq<Block>, tab: Table) {
    forall b: nat, i: nat {:trigger Cell(blocks, b, i)} ::
      IsIndirect(tab, b) && i < g.nindir ==> RefOk(g, tab, Cell(blocks, b, i), Child(g, tab[b], i))
  }

  function SlotOwner(g: Geometry, ino: nat, large: bool, s: nat): Own {
    Owned(ino, Height(g, large, s), Base(g, large, s))
  }

  /** Every address of an inode names a block at the slot's own position. */
  ghost predicate InodeOk(g: Geometry, tab: Table, ino: nat, ip: Inode) {
    && |ip.addr| == g.niaddr
    && (ip.kind.Data? ==> forall s {:trigger ip.addr[s]} ::
          0 <= s < g.niaddr ==> RefOk(g, tab, ip.addr[s], SlotOwner(g, ino, ip.large, s)))
  }

  ghost predicate InodesOk(g: Geometry, tab: Table, inodes: seq<Inode>) {
    forall ino {:trigger inodes[ino]} :: 1 <= ino < |inodes| ==> InodeOk(g, tab, ino, inodes[ino])
  }

  /** x sits in the subtree of position o. */
  predicate Under(g: Geometry, tab: Table, x: nat, o: Own)
    requires o.Owned?
  {
    && g.IsData(x) && x < |tab|
    && tab[x].Owned? && tab[x].ino == o.ino
    && tab[x].h <= o.h && o.base <= tab[x].base < o.base + Pow(g.nindir, o.h)
  }

  // ---- every claim of a labelled subtree is labelled inside it, and claimed once ----

  lemma {:induction false} ClaimsUnder(g: Geometry, blocks: seq<Block>, tab: Table, b: nat, o: Own)
    requires g.Valid() && TreesOk(g, blocks, tab)
    requires o.Owned? && RefOk(g, tab, b, o)
    ensures forall x :: x in Claims(g, blocks, b, o.h) ==> Under(g, tab, x, o)
    ensures Distinct(Claims(g, blocks, b, o.h))
    decreases o.h, 1, 0
  {
    if b != 0 && o.h > 0 {
      KidClaimsUnder(g, blocks, tab, b, o, 0);
      var kids := KidClaims(g, blocks, b, o.h, 0);
      assert Claims(g, blocks, b, o.h) == [b] + kids;
      assert b !in kids;
    }
  }

  /** The position range of the entries from i on of the indirect block b. */
  predicate UnderFrom(g: Geometry, tab: Table, x: nat, o: Own, i: nat)
    requires o.Owned? && o.h >= 1
  {
    && Under(g, tab, x, o) && tab[x].h < o.h
    && o.base + i * Pow(g.nindir, o.h - 1) <= tab[x].base
  }

  lemma ChildSpan(g: Geometry, o: Own, i: nat)
    requires o.Owned? && o.h >= 1 && i < g.nindir
    ensures i * Pow(g.nindir, o.h - 1) + Pow(g.nindir, o.h - 1) == (i + 1) * Pow(g.nindir, o.h - 1)
    ensures (i + 1) * Pow(g.nindir, o.h - 1) <= Pow(g.nindir, o.h)
  {
    MulMonotone(i + 1, g.nindir, Pow(g.nindir, o.h - 1));
  }

  lemma {:induction false} KidClaimsUnder(g: Geometry, blocks: seq<Block>, tab: Table, b: nat, o: Own, i: nat)
    requires g.Valid() && TreesOk(g, blocks, tab)
    requires o.Owned? && o.h >= 1 && b < |tab| && tab[b] == o
    ensures forall x :: x in KidClaims(g, blocks, b, o.h, i) ==> UnderFrom(g, tab, x, o, i)
    ensures Distinct(KidClaims(g, blocks, b, o.h, i))
    decreases o.h, 0, g.nindir - i
  {
    if i < g.nindir {
      var c := Cell(blocks, b, i);
      var first, rest := Claims(g, blocks, c, o.h - 1), KidClaims(g, blocks, b, o.h, i + 1);
      ClaimsUnder(g, blocks, tab, c, Child(g, o, i));
      KidClaimsUnder(g, blocks, tab, b, o, i + 1);
      ChildSpan(g, o, i);
      forall x | x in first + rest
        ensures UnderFrom(g, tab, x, o, i)
      {
      }
      DistinctConcat(first, rest);
    }
  }

  lemma DistinctConcat(s: seq<nat>, t: seq<nat>)
    requires Distinct(s) && Distinct(t)
    requires forall x :: x in s ==> x !in t
    ensures Distinct(s + t)
  {
    forall i, j | 0 <= i < j < |s + t|
      ensures (s + t)[i] != (s + t)[j]
    {
      if i < |s| <= j {
        assert s[i] in s;
        assert t[j - |s|] in t;
      }
    }
  }

  // ---- the claims of a whole image ----

  predicate OwnedBy(g: Geometry, tab: Table, x: nat, ino: nat) {
    g.IsData(x) && x < |tab| && tab[x].Owned? && tab[x].ino == ino
  }

  lemma {:induction false} SlotsDistinct(g: Geometry, blocks: seq<Block>, tab: Table, ino: nat, ip: Inode, s: nat)
    requires g.Valid() && TreesOk(g, blocks, tab) && InodeOk(g, tab, ino, ip) && ip.kind.Data?
    ensures forall x :: x in SlotsClaims(g, blocks, ip, s) ==>
              OwnedBy(g, tab, x, ino) && Base(g, ip.large, s) <= tab[x].base
    ensures Distinct(SlotsClaims(g, blocks, ip, s))
    decreases g.niaddr - s
  {
    hide Base, Height, Claims, TreesOk, Pow;
    if s < g.niaddr {
      ClaimsUnder(g, blocks, tab, ip.addr[s], SlotOwner(g, ino, ip.large, s));
      SlotsDistinct(g, blocks, tab, ino, ip, s + 1);
      BaseMonotone(g, ip.large, s, s + 1);
      DistinctConcat(SlotClaims(g, blocks, ip, s), SlotsClaims(g, blocks, ip, s + 1));
    }
  }

  lemma InodeDistinct(g: Geometry, blocks: seq<Block>, tab: Table, ino: nat, ip: Inode)
    requires g.Valid() && TreesOk(g, blocks, tab) && InodeOk(g, tab, ino, ip)
    ensures forall x :: x in InodeClaims(g, blocks, ip) ==> OwnedBy(g, tab, x, ino)
    ensures Distinct(InodeClaims(g, blocks, ip))
  {
    if ip.kind.Data? {
      SlotsDistinct(g, blocks, tab, ino, ip, 0);
    }
  }

  /** A labelled image claims no block twice. */
  lemma {:induction false} AllDistinct(g: Geometry, blocks: seq<Block>, tab: Table, inodes: seq<Inode>, ino: nat)
    requires g.Valid() && TreesOk(g, blocks, tab) && InodesOk(g, tab, inodes) && ino >= 1
    ensures forall x :: x in AllClaims(g, blocks, inodes, ino) ==>
              g.IsData(x) && x < |tab| && tab[x].Owned? && ino <= tab[x].ino < |inodes|
    ensures Distinct(AllClaims(g, blocks, inodes, ino))
    decreases |inodes| - ino
  {
    if ino < |inodes| {
      var mine, rest := InodeClaims(g, blocks, inodes[ino]), AllClaims(g, blocks, inodes, ino + 1);
      InodeDistinct(g, blocks, tab, ino, inodes[ino]);
      AllDistinct(g, blocks, tab, inodes, ino + 1);
      assert forall x :: x in mine ==> tab[x].ino == ino;
      DistinctConcat(mine, rest);
    }
  }

  // ---- membership in the claims of an image, slot by slot ----

  ghost predicate ClaimedAt(g: Geometry, blocks: seq<Block>, inodes: seq<Inode>, x: nat, ino: nat, s: nat) {
    && 1 <= ino < |inodes| && inodes[ino].kind.Data? && s < g.niaddr
    && x in SlotClaims(g, blocks, inodes[ino], s)
  }

  ghost predicate Claimed(g: Geometry, blocks: seq<Block>, inodes: seq<Inode>, x: nat) {
    exists ino: nat, s: nat :: ClaimedAt(g, blocks, inodes, x, ino, s)
  }

  lemma {:induction false} SlotsMember(g: Geometry, blocks: seq<Block>, ip: Inode, x: nat, s: nat) returns (t: nat)
    requires x in SlotsClaims(g, blocks, ip, s)
    ensures s <= t < g.niaddr && x in SlotClaims(g, blocks, ip, t)
    decreases g.niaddr - s
  {
    if x in SlotClaims(g, blocks, ip, s) {
      t := s;
    } else {
      t := SlotsMember(g, blocks, ip, x, s + 1);
    }
  }

  lemma {:induction false} SlotsHas(g: Geometry, blocks: seq<Block>, ip: Inode, x: nat, s: nat, t: nat)
    requires s <= t < g.niaddr && x in SlotClaims(g, blocks, ip, t)
    ensures x in SlotsClaims(g, blocks, ip, s)
    decreases t - s
  {
    hide SlotClaims;
    if s < t {
      SlotsHas(g, blocks, ip, x, s + 1, t);
    }
  }

  lemma {:induction false} MemberIsClaimed(g: Geometry, blocks: seq<Block>, inodes: seq<Inode>, x: nat, ino: nat)
    requires ino >= 1 && x in AllClaims(g, blocks, inodes, ino)
    ensures Claimed(g, blocks, inodes, x)
    decreases |inodes| - ino
  {
    hide SlotsClaims, SlotClaims;
    if x in InodeClaims(g, blocks, inodes[ino]) {
      var t := SlotsMember(g, blocks, inodes[ino], x, 0);
      assert ClaimedAt(g, blocks, inodes, x, ino, t);
    } else {
      MemberIsClaimed(g, blocks, inodes, x, ino + 1);
    }
  }

  // ---- how claims change under writes ----

  /** The indirect blocks under position o read the same in both block arrays. */
  ghost predicate AgreeUnder(g: Geometry, tab: Table, o: Own, blocks: seq<Block>, blocks': seq<Block>)
    requires o.Owned?
  {
    forall b: nat, i: nat {:trigger Cell(blocks', b, i)} ::
      IsIndirect(tab, b) && Under(g, tab, b, o) && i < g.nindir ==> Cell(blocks', b, i) == Cell(blocks, b, i)
  }

  /** The block mapped at index r of the subtree under b, or 0 for a hole. */
  function Walk(g: Geometry, blocks: seq<Block>, b: nat, h: nat, r: nat): nat
    requires g.nindir >= 1
    decreases h
  {
    if b == 0 || h == 0 then b else Walk(g, blocks, Cell(blocks, b, Digit(g, r, h)), h - 1, r)
  }

  lemma AgreeBelow(g: Geometry, tab: Table, o: Own, i: nat, blocks: seq<Block>, blocks': seq<Block>)
    requires o.Owned? && o.h >= 1 && i < g.nindir && AgreeUnder(g, tab, o, blocks, blocks')
    ensures AgreeUnder(g, tab, Child(g, o, i), blocks, blocks')
  {
    hide Cell;
    ChildSpan(g, o, i);
    hide Pow;
  }

  lemma {:induction false} ClaimsAgree(g: Geometry, blocks: seq<Block>, blocks': seq<Block>, tab: Table, b: nat, o: Own)
    requires g.Valid() && TreesOk(g, blocks, tab)
    requires o.Owned? && RefOk(g, tab, b, o) && AgreeUnder(g, tab, o, blocks, blocks')
    ensures Claims(g, blocks', b, o.h) == Claims(g, blocks, b, o.h)
    decreases o.h, 1, 0
  {
    if b != 0 && o.h > 0 {
      KidClaimsAgree(g, blocks, blocks', tab, b, o, 0);
    }
  }

  lemma {:induction false} KidClaimsAgree(g: Geometry, blocks: seq<Block>, blocks': seq<Block>, tab: Table, b: nat,
      o: Own, i: nat)
    requires g.Valid() && TreesOk(g, blocks, tab)
    requires o.Owned? && o.h >= 1 && b != 0 && RefOk(g, tab, b, o) && AgreeUnder(g, tab, o, blocks, blocks')
    ensures KidClaims(g, blocks', b, o.h, i) == KidClaims(g, blocks, b, o.h, i)
    decreases o.h, 0, g.nindir - i
  {
    if i < g.nindir {
      var c := Cell(blocks, b, i);
      assert Cell(blocks', b, i) == c;
      AgreeBelow(g, tab, o, i, blocks, blocks');
      ClaimsAgree(g, blocks, blocks', tab, c, Child(g, o, i));
      KidClaimsAgree(g, blocks, blocks', tab, b, o, i + 1);
    }
  }

  lemma {:induction false} WalkAgree(g: Geometry, blocks: seq<Block>, blocks': seq<Block>, tab: Table, b: nat, o: Own,
      r: nat)
    requires g.Valid() && TreesOk(g, blocks, tab)
    requires o.Owned? && RefOk(g, tab, b, o) && AgreeUnder(g, tab, o, blocks, blocks')
    ensures Walk(g, blocks', b, o.h, r) == Walk(g, blocks, b, o.h, r)
    decreases o.h
  {
    if b != 0 && o.h > 0 {
      var i := Digit(g, r, o.h);
      DigitSplit(g, r, o.h);
      assert Cell(blocks', b, i) == Cell(blocks, b, i);
      AgreeBelow(g, tab, o, i, blocks, blocks');
      WalkAgree(g, blocks, blocks', tab, Cell(blocks, b, i), Child(g, o, i), r);
    }
  }

  /** Each entry is kept or zeroed, or is the entry of p that now holds `next`, a block
      without entries of its own. */
  ghost predicate Evolves(g: Geometry, tab: Table, blocks: seq<Block>, blocks': seq<Block>, p: nat, next: nat) {
    && (forall b: nat, i: nat {:trigger Cell(blocks', b, i)} :: IsIndirect(tab, b) && i < g.nindir ==>
          Cell(blocks', b, i) == Cell(blocks, b, i) || Cell(blocks', b, i) == 0 ||
              (b == p && Cell(blocks', b, i) == next))
    && (next != 0 ==> forall i: nat {:trigger Cell(blocks', next, i)} :: i < g.nindir ==> Cell(blocks', next, i) == 0)
  }

  lemma {:induction false} EmptyKids(g: Geometry, blocks: seq<Block>, b: nat, h: nat, i: nat)
    requires h >= 1 && forall j: nat {:trigger Cell(blocks, b, j)} :: j < g.nindir ==> Cell(blocks, b, j) == 0
    ensures KidClaims(g, blocks, b, h, i) == []
    decreases g.nindir - i
  {
    if i < g.nindir {
      EmptyKids(g, blocks, b, h, i + 1);
      assert Cell(blocks, b, i) == 0;
    }
  }

  lemma {:induction false} ClaimsEvolve(g: Geometry, blocks: seq<Block>, blocks': seq<Block>, tab: Table,
                                        b: nat, o: Own, p: nat, next: nat)
    requires g.Valid() && TreesOk(g, blocks, tab)
    requires o.Owned? && RefOk(g, tab, b, o) && Evolves(g, tab, blocks, blocks', p, next)
    ensures forall x :: x in Claims(g, blocks', b, o.h) ==>
              x in Claims(g, blocks, b, o.h) || (x == next && p in Claims(g, blocks, b, o.h))
    decreases o.h, 1, 0
  {
    if b != 0 && o.h > 0 {
      KidClaimsEvolve(g, blocks, blocks', tab, b, o, p, next, 0);
    }
  }

  lemma {:induction false} KidClaimsEvolve(g: Geometry, blocks: seq<Block>, blocks': seq<Block>, tab: Table,
                                           b: nat, o: Own, p: nat, next: nat, i: nat)
    requires g.Valid() && TreesOk(g, blocks, tab)
    requires o.Owned? && o.h >= 1 && b != 0 && RefOk(g, tab, b, o) && Evolves(g, tab, blocks, blocks', p, next)
    ensures forall x :: x in KidClaims(g, blocks', b, o.h, i) ==>
              x in KidClaims(g, blocks, b, o.h, i) || (x == next && (p == b || p in KidClaims(g, blocks, b, o.h, i)))
    decreases o.h, 0, g.nindir - i
  {
    if i < g.nindir {
      var c, c' := Cell(blocks, b, i), Cell(blocks', b, i);
      KidClaimsEvolve(g, blocks, blocks', tab, b, o, p, next, i + 1);
      if c' == c {
        ClaimsEvolve(g, blocks, blocks', tab, c, Child(g, o, i), p, next);
      } else if c' != 0 {
        assert b == p && c' == next;
        if o.h > 1 {
          EmptyKids(g, blocks', next, o.h - 1, 0);
        }
        assert Claims(g, blocks', c', o.h - 1) == [next];
      }
    }
  }

  lemma WalkFresh(g: Geometry, blocks: seq<Block>, b: nat, h: nat, r: nat)
    requires g.nindir >= 1
    requires forall i: nat {:trigger Cell(blocks, b, i)} :: i < g.nindir ==> Cell(blocks, b, i) == 0
    ensures Walk(g, blocks, b, h, r) == if h == 0 then b else 0
  {
    if h > 0 {
      DigitSplit(g, r, h);
      assert Cell(blocks, b, Digit(g, r, h)) == 0;
    }
  }

  /** Entry pi of p, a hole before, now holds `next`, a block without entries. */
  ghost predicate Links(g: Geometry, tab: Table, blocks: seq<Block>, blocks': seq<Block>, p: nat, pi: nat, next: nat) {
    && IsIndirect(tab, p) && pi < g.nindir && next != 0 && Cell(blocks, p, pi) == 0
    && (forall b: nat, i: nat {:trigger Cell(blocks', b, i)} :: IsIndirect(tab, b) && i < g.nindir ==>
          Cell(blocks', b, i) == if b == p && i == pi then next else Cell(blocks, b, i))
    && (forall i: nat {:trigger Cell(blocks', next, i)} :: i < g.nindir ==> Cell(blocks', next, i) == 0)
  }

  /** A walk is unchanged unless it ends in the entry that now holds `next`. */
  lemma {:induction false} WalkLink(g: Geometry, blocks: seq<Block>, blocks': seq<Block>, tab: Table,
                                    b: nat, o: Own, r: nat, p: nat, pi: nat, next: nat)
    requires g.Valid() && TreesOk(g, blocks, tab) && Links(g, tab, blocks, blocks', p, pi, next)
    requires o.Owned? && RefOk(g, tab, b, o)
    ensures Walk(g, blocks', b, o.h, r) == Walk(g, blocks, b, o.h, r)
            || (Walk(g, blocks, b, o.h, r) == 0 && Walk(g, blocks', b, o.h, r) == next && tab[p].h == 1
                && o.ino == tab[p].ino && o.base + Residue(g, r, o.h) == tab[p].base + pi)
    decreases o.h
  {
    if b != 0 && o.h > 0 {
      var i := Digit(g, r, o.h);
      DigitSplit(g, r, o.h);
      var c := Cell(blocks, b, i);
      if b == p && i == pi {
        WalkFresh(g, blocks', next, o.h - 1, r);
      } else {
        assert Cell(blocks', b, i) == c;
        WalkLink(g, blocks, blocks', tab, c, Child(g, o, i), r, p, pi, next);
      }
    }
  }

  /** Zeroing only entries whose subtree starts at or past `cut` keeps every walk before it. */
  lemma {:induction false} WalkCut(g: Geometry, blocks: seq<Block>, blocks': seq<Block>, tab: Table,
                                   b: nat, o: Own, r: nat, cut: nat)
    requires g.Valid() && TreesOk(g, blocks, tab)
    requires o.Owned? && RefOk(g, tab, b, o) && o.base + Residue(g, r, o.h) < cut
    requires CutFrom(g, tab, o.ino, cut, blocks, blocks')
    ensures Walk(g, blocks', b, o.h, r) == Walk(g, blocks, b, o.h, r)
    decreases o.h
  {
    if b != 0 && o.h > 0 {
      var i := Digit(g, r, o.h);
      DigitSplit(g, r, o.h);
      assert Cell(blocks', b, i) == Cell(blocks, b, i);
      WalkCut(g, blocks, blocks', tab, Cell(blocks, b, i), Child(g, o, i), r, cut);
    }
  }

  /** Only entries of inode `ino` that start at or past logical block `cut` change, to 0. */
  ghost predicate CutFrom(g: Geometry, tab: Table, ino: nat, cut: nat, blocks: seq<Block>, blocks': seq<Block>) {
    forall b: nat, i: nat {:trigger Cell(blocks', b, i)} :: IsIndirect(tab, b) && i < g.nindir ==>
      || Cell(blocks', b, i) == Cell(blocks, b, i)
      || (Cell(blocks', b, i) == 0 && tab[b].ino == ino && cut <= Child(g, tab[b], i).base)
  }
}
