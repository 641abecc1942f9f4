/** Logical-to-physical block mapping: the path of a logical block through a tree, and what
    allocation leaves of every other mapping. */
module Mapping {
  import opened Geometry
  import opened FreeChain
  import opened Image
  import opened Ownership
  import opened Consistency
  import opened TreeSteps

  /** Following r from b at height h arrives at c at height k, through allocated blocks. */
  ghost predicate OnPath(g: Geometry, blocks: seq<Block>, b: nat, h: nat, r: nat, c: nat, k: nat)
    requires g.nindir >= 1
    decreases h
  {
    if h <= k then h == k && b == c
    else b != 0 && OnPath(g, blocks, Cell(blocks, b, Digit(g, r, h)), h - 1, r, c, k)
  }

  lemma {:induction false} PathWalk(g: Geometry, blocks: seq<Block>, b: nat, h: nat, r: nat, c: nat, k: nat)
    requires g.nindir >= 1 && OnPath(g, blocks, b, h, r, c, k)
    ensures Walk(g, blocks, b, h, r) == Walk(g, blocks, c, k, r)
    decreases h
  {
    if h > k {
      PathWalk(g, blocks, Cell(blocks, b, Digit(g, r, h)), h - 1, r, c, k);
    }
  }

  lemma {:induction false} PathStep(g: Geometry, blocks: seq<Block>, b: nat, h: nat, r: nat, c: nat, k: nat)
    requires g.nindir >= 1 && k >= 1 && c != 0 && OnPath(g, blocks, b, h, r, c, k)
    ensures OnPath(g, blocks, b, h, r, Cell(blocks, c, Digit(g, r, k)), k - 1)
    decreases h
  {
    if h > k {
      PathStep(g, blocks, Cell(blocks, b, Digit(g, r, h)), h - 1, r, c, k);
    }
  }

  /** The block a path arrives at carries the position of the path. */
  lemma {:induction false} PathOwner(g: Geometry, blocks: seq<Block>, tab: Table, b: nat, o: Own, r: nat, c: nat,
      k: nat) returns (at: Own)
    requires g.Valid() && TreesOk(g, blocks, tab)
    requires o.Owned? && RefOk(g, tab, b, o) && OnPath(g, blocks, b, o.h, r, c, k)
    ensures at.Owned? && RefOk(g, tab, c, at) && at.ino == o.ino && at.h == k
    ensures o.base + Residue(g, r, o.h) == at.base + Residue(g, r, k)
    ensures c != 0 ==> c in Claims(g, blocks, b, o.h)
    decreases o.h
  {
    if o.h > k {
      var i := Digit(g, r, o.h);
      DigitSplit(g, r, o.h);
      at := PathOwner(g, blocks, tab, Cell(blocks, b, i), Child(g, o, i), r, c, k);
      if c != 0 {
        KidMember(g, blocks, b, o.h, 0, i, c);
      }
    } else {
      at := o;
    }
  }

  lemma {:induction false} KidMember(g: Geometry, blocks: seq<Block>, b: nat, h: nat, i: nat, k: nat, x: nat)
    requires h >= 1 && i <= k < g.nindir && x in Claims(g, blocks, Cell(blocks, b, k), h - 1)
    ensures x in KidClaims(g, blocks, b, h, i)
    decreases k - i
  {
    if i < k {
      KidMember(g, blocks, b, h, i + 1, k, x);
    }
  }

  /** A path survives any change to blocks no higher than the block it arrives at. */
  lemma {:induction false} PathAgree(g: Geometry, blocks: seq<Block>, blocks': seq<Block>, tab: Table, b: nat, o: Own,
      r: nat, c: nat, k: nat)
    requires g.Valid() && TreesOk(g, blocks, tab)
    requires o.Owned? && RefOk(g, tab, b, o) && OnPath(g, blocks, b, o.h, r, c, k)
    requires forall x: nat, i: nat {:trigger Cell(blocks', x, i)} ::
               IsIndirect(tab, x) && tab[x].h > k && i < g.nindir ==> Cell(blocks', x, i) == Cell(blocks, x, i)
    ensures OnPath(g, blocks', b, o.h, r, c, k)
    decreases o.h
  {
    if o.h > k {
      var i := Digit(g, r, o.h);
      DigitSplit(g, r, o.h);
      assert Cell(blocks', b, i) == Cell(blocks, b, i);
      PathAgree(g, blocks, blocks', tab, Cell(blocks, b, i), Child(g, o, i), r, c, k);
    }
  }

  // ---- what growing a file leaves alone ----

  /** The walk for r under b, labelled o, keeps its result, unless it is the one of logical
      block `lbn` of inode `ino`. */
  ghost predicate WalkKept(g: Geometry, tab: Table, blocks: seq<Block>, blocks': seq<Block>, ino: nat, lbn: int, b: nat,
      o: Own, r: nat)
    requires g.nindir >= 1
  {
    o.Owned? && RefOk(g, tab, b, o) && !(o.ino == ino && o.base + Residue(g, r, o.h) == lbn) ==>
      Walk(g, blocks', b, o.h, r) == Walk(g, blocks, b, o.h, r)
  }

  ghost predicate WalksKept(g: Geometry, tab: Table, blocks: seq<Block>, blocks': seq<Block>, ino: nat, lbn: int)
    requires g.nindir >= 1
  {
    forall b: nat, o: Own, r: nat :: WalkKept(g, tab, blocks, blocks', ino, lbn, b, o, r)
  }

  /** The inode table and the owned blocks stay, data blocks keep their contents, and so do
      all blocks of files other than `ino`, which alone may come to own more. */
  ghost predicate Keeps(st: State, w: World, st': State, w': World, ino: nat) {
    && st'.disk.inodes == st.disk.inodes
    && |st'.disk.blocks| == |st.disk.blocks| && |w'.tab| == |w.tab| <= |st.disk.blocks|
    && (forall b {:trigger w'.tab[b]} :: 0 <= b < |w.tab| && w.tab[b].Owned? ==> w'.tab[b] == w.tab[b])
    && (forall b {:trigger st'.disk.blocks[b]} ::
         0 <= b < |w.tab| && w.tab[b].Owned? && (w.tab[b].h == 0 || w.tab[b].ino != ino) ==>
          st'.disk.blocks[b] == st.disk.blocks[b])
    && (forall b {:trigger w'.tab[b]} :: 0 <= b < |w.tab| && w'.tab[b].Owned? && w'.tab[b].ino != ino ==>
         w'.tab[b] == w.tab[b])
  }

  /** What the subtree under b, labelled o, claims stays claimed. */
  ghost predicate ClaimsKept(g: Geometry, tab: Table, blocks: seq<Block>, blocks': seq<Block>, b: nat, o: Own) {
    o.Owned? && RefOk(g, tab, b, o) ==>
      forall x :: x in Claims(g, blocks, b, o.h) ==> x in Claims(g, blocks', b, o.h)
  }

  ghost predicate ClaimsGrow(g: Geometry, tab: Table, blocks: seq<Block>, blocks': seq<Block>) {
    forall b: nat, o: Own :: ClaimsKept(g, tab, blocks, blocks', b, o)
  }

  /** Growth of inode `ino` at `lbn`: no other logical block of any file is mapped
      differently, no data block changes, and no tree loses a block. */
  ghost predicate Grows(g: Geometry, st: State, w: World, st': State, w': World, ino: nat, lbn: int)
    requires g.nindir >= 1
  {
    && Keeps(st, w, st', w', ino)
    && WalksKept(g, w.tab, st.disk.blocks, st'.disk.blocks, ino, lbn)
    && ClaimsGrow(g, w.tab, st.disk.blocks, st'.disk.blocks)
  }

  /** No block became owned. */
  ghost predicate NoneOwned(w: World, w': World) {
    forall x {:trigger w'.tab[x]} :: 0 <= x < |w.tab| && x < |w'.tab| && w'.tab[x].Owned? ==> w.tab[x].Owned?
  }

  /** Every block that became owned is claimed by the subtree under b. */
  ghost predicate Accounted(g: Geometry, w0: World, st: State, w: World, b: nat, h: nat) {
    forall x: nat {:trigger w.tab[x]} :: x < |w.tab| && x < |w0.tab| && w.tab[x].Owned? && !w0.tab[x].Owned? ==>
      x in Claims(g, st.disk.blocks, b, h)
  }

  lemma GrowsSelf(g: Geometry, st: State, w: World, ino: nat, lbn: int)
    requires g.nindir >= 1 && |w.tab| <= |st.disk.blocks|
    ensures Grows(g, st, w, st, w, ino, lbn)
  {
  }

  lemma RefKept(g: Geometry, tab: Table, tab': Table, b: nat, o: Own)
    requires o.Owned? && RefOk(g, tab, b, o) && |tab'| == |tab|
    requires forall c {:trigger tab'[c]} :: 0 <= c < |tab| && tab[c].Owned? ==> tab'[c] == tab[c]
    ensures RefOk(g, tab', b, o)
  {
  }

  lemma GrowsTransitive(g: Geometry, s0: State, w0: World, s1: State, w1: World, s2: State, w2: World, ino: nat,
      lbn: int)
    requires g.nindir >= 1 && Grows(g, s0, w0, s1, w1, ino, lbn) && Grows(g, s1, w1, s2, w2, ino, lbn)
    ensures Grows(g, s0, w0, s2, w2, ino, lbn)
  {
    forall b: nat, o: Own, r: nat
      ensures WalkKept(g, w0.tab, s0.disk.blocks, s2.disk.blocks, ino, lbn, b, o, r)
    {
      if o.Owned? && RefOk(g, w0.tab, b, o) {
        RefKept(g, w0.tab, w1.tab, b, o);
        assert WalkKept(g, w0.tab, s0.disk.blocks, s1.disk.blocks, ino, lbn, b, o, r);
        assert WalkKept(g, w1.tab, s1.disk.blocks, s2.disk.blocks, ino, lbn, b, o, r);
      }
    }
    forall b: nat, o: Own
      ensures ClaimsKept(g, w0.tab, s0.disk.blocks, s2.disk.blocks, b, o)
    {
      if o.Owned? && RefOk(g, w0.tab, b, o) {
        RefKept(g, w0.tab, w1.tab, b, o);
        assert ClaimsKept(g, w0.tab, s0.disk.blocks, s1.disk.blocks, b, o);
        assert ClaimsKept(g, w1.tab, s1.disk.blocks, s2.disk.blocks, b, o);
      }
    }
  }

  /** Allocator work changes no mapping: there is no logical block -1. */
  lemma AllocGrows(g: Geometry, st: State, w: World, st': State, w': World, ino: nat, lbn: int)
    requires Sound(g, st, w) && AllocFrame(st, w, st', w')
    ensures Grows(g, st, w, st', w', ino, lbn)
  {
    forall b: nat, o: Own, r: nat
      ensures WalkKept(g, w.tab, st.disk.blocks, st'.disk.blocks, ino, lbn, b, o, r)
    {
      if o.Owned? && RefOk(g, w.tab, b, o) {
        assert AgreeUnder(g, w.tab, o, st.disk.blocks, st'.disk.blocks);
        WalkAgree(g, st.disk.blocks, st'.disk.blocks, w.tab, b, o, r);
      }
    }
    forall b: nat, o: Own
      ensures ClaimsKept(g, w.tab, st.disk.blocks, st'.disk.blocks, b, o)
    {
      if o.Owned? && RefOk(g, w.tab, b, o) {
        ClaimsAgree(g, st.disk.blocks, st'.disk.blocks, w.tab, b, o);
      }
    }
  }

  lemma {:induction false} LinkClaimsGrow(g: Geometry, blocks: seq<Block>, blocks': seq<Block>, tab: Table,
                                          b: nat, o: Own, p: nat, pi: nat, next: nat)
    requires g.Valid() && TreesOk(g, blocks, tab) && Links(g, tab, blocks, blocks', p, pi, next)
    requires o.Owned? && RefOk(g, tab, b, o)
    ensures forall x :: x in Claims(g, blocks, b, o.h) ==> x in Claims(g, blocks', b, o.h)
    decreases o.h, 1, 0
  {
    if b != 0 && o.h > 0 {
      LinkKidsGrow(g, blocks, blocks', tab, b, o, p, pi, next, 0);
    }
  }

  lemma {:induction false} LinkKidsGrow(g: Geometry, blocks: seq<Block>, blocks': seq<Block>, tab: Table,
                                        b: nat, o: Own, p: nat, pi: nat, next: nat, i: nat)
    requires g.Valid() && TreesOk(g, blocks, tab) && Links(g, tab, blocks, blocks', p, pi, next)
    requires o.Owned? && o.h >= 1 && b != 0 && RefOk(g, tab, b, o)
    ensures forall x :: x in KidClaims(g, blocks, b, o.h, i) ==> x in KidClaims(g, blocks', b, o.h, i)
    decreases o.h, 0, g.nindir - i
  {
    if i < g.nindir {
      var c := Cell(blocks, b, i);
      LinkKidsGrow(g, blocks, blocks', tab, b, o, p, pi, next, i + 1);
      if b != p || i != pi {
        assert Cell(blocks', b, i) == c;
        LinkClaimsGrow(g, blocks, blocks', tab, c, Child(g, o, i), p, pi, next);
      }
    }
  }

  /** Storing a fresh block maps at most one logical block. */
  lemma LinkGrows(g: Geometry, st: State, w: World, st': State, w': World, p: nat, pi: nat, next: nat, lbn: int)
    requires Sound(g, st, w) && |w'.tab| == |w.tab| && st'.disk.inodes == st.disk.inodes
    requires Links(g, w.tab, st.disk.blocks, st'.disk.blocks, p, pi, next)
    requires w.tab[p].h == 1 ==> w.tab[p].base + pi == lbn
    requires |st'.disk.blocks| == |st.disk.blocks|
    requires forall b {:trigger w'.tab[b]} ::
             0 <= b < |w.tab| && (w.tab[b].Owned? || (w'.tab[b].Owned? && b != next)) ==> w'.tab[b] == w.tab[b]
    requires next < |w'.tab| && w'.tab[next].Owned? && w'.tab[next].ino == w.tab[p].ino
    requires forall b {:trigger st'.disk.blocks[b]} :: 0 <= b < |w.tab| && b != p ==>
             st'.disk.blocks[b] == st.disk.blocks[b]
    ensures Grows(g, st, w, st', w', w.tab[p].ino, lbn)
  {
    forall b: nat, o: Own, r: nat
      ensures WalkKept(g, w.tab, st.disk.blocks, st'.disk.blocks, w.tab[p].ino, lbn, b, o, r)
    {
      if o.Owned? && RefOk(g, w.tab, b, o) {
        WalkLink(g, st.disk.blocks, st'.disk.blocks, w.tab, b, o, r, p, pi, next);
      }
    }
    forall b: nat, o: Own
      ensures ClaimsKept(g, w.tab, st.disk.blocks, st'.disk.blocks, b, o)
    {
      if o.Owned? && RefOk(g, w.tab, b, o) {
        LinkClaimsGrow(g, st.disk.blocks, st'.disk.blocks, w.tab, b, o, p, pi, next);
      }
    }
  }

  lemma GrowsWeaken(g: Geometry, st: State, w: World, st': State, w': World, ino: nat, lbn: int)
    requires g.nindir >= 1 && Grows(g, st, w, st', w', ino, -1)
    ensures Grows(g, st, w, st', w', ino, lbn)
  {
    forall b: nat, o: Own, r: nat
      ensures WalkKept(g, w.tab, st.disk.blocks, st'.disk.blocks, ino, lbn, b, o, r)
    {
      assert WalkKept(g, w.tab, st.disk.blocks, st'.disk.blocks, ino, -1, b, o, r);
    }
  }

  /** No block is referenced on disk that was not before. */
  ghost predicate NoNewClaims(g: Geometry, disk: Image, disk': Image) {
    forall x: nat :: Claimed(g, disk'.blocks, disk'.inodes, x) ==> Claimed(g, disk.blocks, disk.inodes, x)
  }

  lemma AllocNoNewClaims(g: Geometry, st: State, w: World, st': State, w': World)
    requires Sound(g, st, w) && AllocFrame(st, w, st', w')
    ensures NoNewClaims(g, st.disk, st'.disk)
  {
    forall x: nat | Claimed(g, st'.disk.blocks, st'.disk.inodes, x)
      ensures Claimed(g, st.disk.blocks, st.disk.inodes, x)
    {
      ClaimedAgree(g, st.disk.blocks, st'.disk.blocks, w.tab, st.disk.inodes, x);
    }
  }

  lemma LinkNoNewClaims(g: Geometry, st: State, w: World, st': State, p: nat, pi: nat, next: nat)
    requires Sound(g, st, w) && st'.disk.inodes == st.disk.inodes
    requires Links(g, w.tab, st.disk.blocks, st'.disk.blocks, p, pi, next)
    requires !Claimed(g, st.disk.blocks, st.disk.inodes, p)
    ensures NoNewClaims(g, st.disk, st'.disk)
  {
    assert Evolves(g, w.tab, st.disk.blocks, st'.disk.blocks, p, next);
    forall x: nat | Claimed(g, st'.disk.blocks, st'.disk.inodes, x)
      ensures Claimed(g, st.disk.blocks, st.disk.inodes, x)
    {
      ClaimedEvolve(g, st, w, st'.disk.blocks, p, next, x);
    }
  }

  /** A block was popped and zeroed, then stored as entry pi of p: the whole effect. */
  ghost predicate Extended(g: Geometry, st: State, w: World, st': State, w': World, p: nat, pi: nat, next: nat)
    requires g.nindir >= 1 && IsIndirect(w.tab, p)
  {
    var o := w.tab[p];
    && Grows(g, st, w, st', w', o.ino, if o.h == 1 then o.base + pi else -1)
    && g.IsData(next) && next < |w.tab| && !w.tab[next].Owned? && w'.tab[next] == Child(g, o, pi)
    && Cell(st'.disk.blocks, p, pi) == next
    && next < |st'.disk.blocks| && st'.disk.blocks[next] == Zeros(g.bsize) && NoEntries(g, st'.disk.blocks, next)
    && (forall x: nat, i: nat {:trigger Cell(st'.disk.blocks, x, i)} ::
          IsIndirect(w.tab, x) && x != p ==> Cell(st'.disk.blocks, x, i) == Cell(st.disk.blocks, x, i))
    && (!Claimed(g, st.disk.blocks, st.disk.inodes, p) ==> NoNewClaims(g, st.disk, st'.disk))
    && (forall x {:trigger w'.tab[x]} :: 0 <= x < |w.tab| && w'.tab[x].Owned? && !w.tab[x].Owned? ==> x == next)
  }

  lemma ZerosNoEntries(g: Geometry, blocks: seq<Block>, b: nat)
    requires b < |blocks| && blocks[b] == Zeros(g.bsize)
    ensures NoEntries(g, blocks, b)
  {
  }

  lemma ExtendEffect(g: Geometry, s0: State, w0: World, s1: State, w1: World, s2: State, w2: World, p: nat, pi: nat,
      next: nat)
    requires Sound(g, s0, w0) && Sound(g, s1, w1) && AllocFrame(s0, w0, s1, w1)
    requires g.IsData(p) && IsIndirect(w0.tab, p) && pi < g.nindir && Cell(s0.disk.blocks, p, pi) == 0
    requires g.IsData(next) && w0.tab[next].Free? && w1.tab[next] == Alloc && s1.disk.blocks[next] == Zeros(g.bsize)
    requires s2.disk == s1.disk.(blocks := s1.disk.blocks[p := SetCell(s1.disk.blocks[p], pi, next)])
    requires w2.tab == w1.tab[next := Child(g, w1.tab[p], pi)]
    ensures Extended(g, s0, w0, s2, w2, p, pi, next)
  {
    hide Sound, Grows, Claimed, Pow;
    Facts(g, s0, w0);
    var o := w0.tab[p];
    var lbn := if o.h == 1 then o.base + pi else -1;
    AllocGrows(g, s0, w0, s1, w1, o.ino, lbn);
    UpdateCell(s1.disk.blocks, p, SetCell(s1.disk.blocks[p], pi, next));
    ZerosNoEntries(g, s1.disk.blocks, next);
    assert Links(g, w1.tab, s1.disk.blocks, s2.disk.blocks, p, pi, next);
    LinkGrows(g, s1, w1, s2, w2, p, pi, next, lbn);
    GrowsTransitive(g, s0, w0, s1, w1, s2, w2, o.ino, lbn);
    AllocNoNewClaims(g, s0, w0, s1, w1);
    if !Claimed(g, s0.disk.blocks, s0.disk.inodes, p) {
      LinkNoNewClaims(g, s1, w1, s2, p, pi, next);
    }
  }

  /** The indirect block at position o maps logical block lbn. */
  predicate Covers(g: Geometry, o: Own, lbn: nat) {
    o.Owned? && o.h >= 1 && o.base <= lbn < o.base + Pow(g.nindir, o.h)
  }

  /** The position of the block a path arrives at. */
  lemma PathLabel(g: Geometry, st: State, w: World, b: nat, o: Own, r: nat, c: nat, k: nat)
    requires Sound(g, st, w) && o.Owned? && RefOk(g, w.tab, b, o)
    requires k >= 1 && c != 0 && OnPath(g, st.disk.blocks, b, o.h, r, c, k)
    ensures g.IsData(c) && IsIndirect(w.tab, c) && w.tab[c].h == k && w.tab[c].ino == o.ino
    ensures c in Claims(g, st.disk.blocks, b, o.h)
    ensures k == 1 ==> w.tab[c].base + Digit(g, r, 1) == o.base + Residue(g, r, o.h)
    ensures Digit(g, r, k) < g.nindir && Covers(g, w.tab[c], o.base + Residue(g, r, o.h))
  {
    var at := PathOwner(g, st.disk.blocks, w.tab, b, o, r, c, k);
    DivMod(r, Pow(g.nindir, k));
    DigitSplit(g, r, k);
  }

  /** Extending the end of a path prolongs the path. */
  lemma PathExtend(g: Geometry, st: State, w: World, st': State, w': World, b: nat, o: Own, r: nat, c: nat, k: nat,
      next: nat)
    requires Sound(g, st, w) && o.Owned? && RefOk(g, w.tab, b, o)
    requires k >= 1 && c != 0 && OnPath(g, st.disk.blocks, b, o.h, r, c, k)
    requires IsIndirect(w.tab, c) && w.tab[c].h == k && w.tab[c].ino == o.ino
    requires Extended(g, st, w, st', w', c, Digit(g, r, k), next)
    ensures OnPath(g, st'.disk.blocks, b, o.h, r, next, k - 1) && RefOk(g, w'.tab, b, o)
    ensures k == 1 ==> Walk(g, st'.disk.blocks, b, o.h, r) == next
  {
    PathAgree(g, st.disk.blocks, st'.disk.blocks, w.tab, b, o, r, c, k);
    PathStep(g, st'.disk.blocks, b, o.h, r, c, k);
    RefKept(g, w.tab, w'.tab, b, o);
    if k == 1 {
      PathWalk(g, st'.disk.blocks, b, o.h, r, next, 0);
    }
  }

  /** A hole under a freshly allocated root: no mapping changes. */
  lemma RootGrows(g: Geometry, s0: State, w0: World, s1: State, w1: World, o: Own, r: nat, b: nat, w2: World)
    requires Sound(g, s0, w0) && AllocFrame(s0, w0, s1, w1)
    requires g.IsData(b) && w0.tab[b].Free? && s1.disk.blocks[b] == Zeros(g.bsize) && |s1.disk.blocks| == g.fsize
    requires o.Owned? && w2 == w1.(tab := w1.tab[b := o])
    ensures Grows(g, s0, w0, s1, w2, o.ino, -1) && NoNewClaims(g, s0.disk, s1.disk)
    ensures RefOk(g, w2.tab, b, o) && NoEntries(g, s1.disk.blocks, b)
    ensures o.h >= 1 ==> Walk(g, s1.disk.blocks, b, o.h, r) == 0
  {
    AllocGrows(g, s0, w0, s1, w1, o.ino, -1);
    AllocNoNewClaims(g, s0, w0, s1, w1);
    ZerosNoEntries(g, s1.disk.blocks, b);
    WalkFresh(g, s1.disk.blocks, b, o.h, r);
  }
}
