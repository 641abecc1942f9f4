/** The invariant of bmap's walk down one slot: so far nothing was allocated, or the walk is
    in blocks allocated on the way, which are still empty. */
module Descent {
  import opened Geometry
  import opened FreeChain
  import opened Image
  import opened Ownership
  import opened Consistency
  import opened TreeSteps
  import opened Mapping

  /** No indirect block on the way to logical block lbn of inode `ino` is on disk yet: none
      is referenced there. */
  ghost predicate Hidden(g: Geometry, disk: Image, tab: Table, ino: nat, lbn: nat) {
    forall x: nat {:trigger tab[x]} :: x < |tab| && Covers(g, tab[x], lbn) && tab[x].ino == ino ==>
        !Claimed(g, disk.blocks, disk.inodes, x)
  }

  /** No index but r is mapped under b. */
  ghost predicate OnlyAt(g: Geometry, blocks: seq<Block>, b: nat, h: nat, r: int)
    requires g.nindir >= 1
  {
    forall q: nat {:trigger Walk(g, blocks, b, h, q)} :: Residue(g, q, h) != r ==> Walk(g, blocks, b, h, q) == 0
  }

  ghost predicate Descending(g: Geometry, st0: State, w0: World, st: State, w: World,
                             slot: nat, slot': nat, o: Own, r: nat, blk: nat, k: nat)
    requires g.nindir >= 1 && o.Owned?
  {
    && RefOk(g, w.tab, slot', o) && (slot != 0 ==> slot' == slot)
    && (slot == 0 ==> OnlyAt(g, st.disk.blocks, slot', o.h, -1))
    && blk != 0 && OnPath(g, st.disk.blocks, slot', o.h, r, blk, k)
    && Grows(g, st0, w0, st, w, o.ino, -1) && Accounted(g, w0, st, w, slot', o.h)
    && (Hidden(g, st0.disk, w0.tab, o.ino, o.base + Residue(g, r, o.h)) ==>
         w.breach == w0.breach && NoNewClaims(g, st0.disk, st.disk))
    && ((st == st0 && w == w0 && slot' == slot)
        || (Walk(g, st0.disk.blocks, slot, o.h, r) == 0 && NoEntries(g, st.disk.blocks, blk)
            && blk < |w0.tab| && !w0.tab[blk].Owned?))
  }

  /** The outcome of a creating walk that failed: what it allocated is mapped nowhere. */
  ghost predicate Aborted(g: Geometry, st0: State, w0: World, st: State, w: World, slot: nat, slot': nat, o: Own,
      r: nat)
    requires g.nindir >= 1 && o.Owned?
  {
    && Grows(g, st0, w0, st, w, o.ino, -1) && Accounted(g, w0, st, w, slot', o.h)
    && RefOk(g, w.tab, slot', o) && (slot != 0 ==> slot' == slot)
    && (slot == 0 ==> OnlyAt(g, st.disk.blocks, slot', o.h, -1))
    && (Hidden(g, st0.disk, w0.tab, o.ino, o.base + Residue(g, r, o.h)) || Walk(g, st0.disk.blocks, slot, o.h, r) != 0
        ==> w.breach == w0.breach && NoNewClaims(g, st0.disk, st.disk))
  }

  /** The outcome of a creating walk: index r is mapped to `out`, an existing block found
      unchanged or a fresh one, and no other logical block is mapped differently. */
  ghost predicate Mapped(g: Geometry, st0: State, w0: World, st: State, w: World, slot: nat, slot': nat, o: Own, r: nat,
      out: nat)
    requires g.nindir >= 1 && o.Owned?
  {
    var was := Walk(g, st0.disk.blocks, slot, o.h, r);
    && Grows(g, st0, w0, st, w, o.ino, o.base + Residue(g, r, o.h)) && Accounted(g, w0, st, w, slot', o.h)
    && RefOk(g, w.tab, slot', o) && (slot != 0 ==> slot' == slot)
    && (slot == 0 ==> OnlyAt(g, st.disk.blocks, slot', o.h, Residue(g, r, o.h)))
    && out != 0 && out == Walk(g, st.disk.blocks, slot', o.h, r)
    && (was != 0 ==> out == was && st == st0 && w == w0 && slot' == slot)
    && (was == 0 ==> g.IsData(out) && out < |w0.tab| && !w0.tab[out].Owned?
                     && out < |st.disk.blocks| && st.disk.blocks[out] == Zeros(g.bsize))
    && (Hidden(g, st0.disk, w0.tab, o.ino, o.base + Residue(g, r, o.h)) ==>
         w.breach == w0.breach && NoNewClaims(g, st0.disk, st.disk))
  }

  /** Nothing happened: the claims, breaches and mappings are as before. */
  lemma Nothing(g: Geometry, st: State, w: World, slot: nat, o: Own, r: nat)
    requires Sound(g, st, w) && o.Owned? && RefOk(g, w.tab, slot, o)
    ensures Aborted(g, st, w, st, w, slot, slot, o, r)
    ensures Grows(g, st, w, st, w, o.ino, -1) && NoNewClaims(g, st.disk, st.disk)
    ensures slot == 0 ==> Walk(g, st.disk.blocks, slot, o.h, r) == 0
  {
    GrowsSelf(g, st, w, o.ino, -1);
  }

  lemma DescendStart(g: Geometry, st: State, w: World, slot: nat, o: Own, r: nat)
    requires Sound(g, st, w) && o.Owned? && RefOk(g, w.tab, slot, o) && slot != 0
    ensures Descending(g, st, w, st, w, slot, slot, o, r, slot, o.h)
  {
    GrowsSelf(g, st, w, o.ino, -1);
  }

  lemma DescendRoot(g: Geometry, s0: State, w0: World, s1: State, w1: World, o: Own, r: nat, b: nat, w2: World)
    requires Sound(g, s0, w0) && AllocFrame(s0, w0, s1, w1) && |s1.disk.blocks| == g.fsize
    requires g.IsData(b) && w0.tab[b].Free? && s1.disk.blocks[b] == Zeros(g.bsize)
    requires o.Owned? && o.h >= 1 && w2 == w1.(tab := w1.tab[b := o])
    ensures Descending(g, s0, w0, s1, w2, 0, b, o, r, b, o.h)
  {
    RootGrows(g, s0, w0, s1, w1, o, r, b, w2);
    forall q: nat {:trigger Walk(g, s1.disk.blocks, b, o.h, q)}
      ensures Walk(g, s1.disk.blocks, b, o.h, q) == 0
    {
      WalkFresh(g, s1.disk.blocks, b, o.h, q);
    }
  }

  /** An empty tree stays empty but for the logical block that grows. */
  lemma OnlyAtKept(g: Geometry, st: State, w: World, st': State, w': World, b: nat, o: Own, at: int)
    requires g.nindir >= 1 && o.Owned? && RefOk(g, w.tab, b, o) && OnlyAt(g, st.disk.blocks, b, o.h, -1)
    requires Grows(g, st, w, st', w', o.ino, if at < 0 then -1 else o.base + at)
    ensures OnlyAt(g, st'.disk.blocks, b, o.h, at)
  {
    forall q: nat {:trigger Walk(g, st'.disk.blocks, b, o.h, q)} | Residue(g, q, o.h) != at
      ensures Walk(g, st'.disk.blocks, b, o.h, q) == 0
    {
      assert Walk(g, st.disk.blocks, b, o.h, q) == 0;
      assert WalkKept(g, w.tab, st.disk.blocks, st'.disk.blocks, o.ino, if at < 0 then -1 else o.base + at, b, o, q);
    }
  }

  /** The block reached is an indirect block of the file; in a hidden subtree it is not
      referenced on disk. */
  lemma DescendAt(g: Geometry, st0: State, w0: World, st: State, w: World,
                  slot: nat, slot': nat, o: Own, r: nat, blk: nat, k: nat)
    requires Sound(g, st0, w0) && Sound(g, st, w) && o.Owned? && k >= 1
    requires Descending(g, st0, w0, st, w, slot, slot', o, r, blk, k)
    ensures g.IsData(blk) && IsIndirect(w.tab, blk) && w.tab[blk].h == k && w.tab[blk].ino == o.ino
    ensures Digit(g, r, k) < g.nindir
    ensures k == 1 ==> w.tab[blk].base + Digit(g, r, 1) == o.base + Residue(g, r, o.h)
    ensures Hidden(g, st0.disk, w0.tab, o.ino, o.base + Residue(g, r, o.h)) ==>
            !Claimed(g, st.disk.blocks, st.disk.inodes, blk)
  {
    hide Sound, Claimed, NoNewClaims, Hidden, Covers, Residue, WalksKept, ClaimsGrow, Keeps, OnlyAt, Accounted;
    PathLabel(g, st, w, slot', o, r, blk, k);
    if Hidden(g, st0.disk, w0.tab, o.ino, o.base + Residue(g, r, o.h)) {
      HiddenAt(g, st0, w0, st, w, o.ino, o.base + Residue(g, r, o.h), blk);
    }
  }

  lemma HiddenAt(g: Geometry, st0: State, w0: World, st: State, w: World, ino: nat, lbn: nat, x: nat)
    requires Sound(g, st0, w0) && Keeps(st0, w0, st, w, ino) && NoNewClaims(g, st0.disk, st.disk)
    requires Hidden(g, st0.disk, w0.tab, ino, lbn)
    requires x < |w.tab| && w.tab[x].Owned? && Covers(g, w.tab[x], lbn) && w.tab[x].ino == ino
    ensures !Claimed(g, st.disk.blocks, st.disk.inodes, x)
  {
    hide Claimed, Covers;
    if Claimed(g, st.disk.blocks, st.disk.inodes, x) {
      ClaimedOwned(g, st0, w0, x);
    }
  }

  /** An entry that is there was there before. */
  lemma DescendFound(g: Geometry, st0: State, w0: World, st: State, w: World,
                     slot: nat, slot': nat, o: Own, r: nat, blk: nat, k: nat)
    requires Sound(g, st, w) && o.Owned? && k >= 1
    requires Descending(g, st0, w0, st, w, slot, slot', o, r, blk, k)
    requires Digit(g, r, k) < g.nindir && Cell(st.disk.blocks, blk, Digit(g, r, k)) != 0
    ensures var next := Cell(st.disk.blocks, blk, Digit(g, r, k));
            && Descending(g, st0, w0, st, w, slot, slot', o, r, next, k - 1)
            && (k == 1 ==> Mapped(g, st0, w0, st, w, slot, slot', o, r, next))
  {
    var next := Cell(st.disk.blocks, blk, Digit(g, r, k));
    PathStep(g, st.disk.blocks, slot', o.h, r, blk, k);
    if k == 1 {
      PathWalk(g, st.disk.blocks, slot', o.h, r, next, 0);
      GrowsWeaken(g, st0, w0, st, w, o.ino, o.base + Residue(g, r, o.h));
    }
  }

  /** An entry that is missing means that the walk found a hole before. */
  lemma DescendHole(g: Geometry, st0: State, w0: World, st: State, w: World,
                    slot: nat, slot': nat, o: Own, r: nat, blk: nat, k: nat)
    requires Sound(g, st, w) && o.Owned? && k >= 1
    requires Descending(g, st0, w0, st, w, slot, slot', o, r, blk, k)
    requires Cell(st.disk.blocks, blk, Digit(g, r, k)) == 0
    ensures Walk(g, st0.disk.blocks, slot, o.h, r) == 0
  {
    PathWalk(g, st.disk.blocks, slot', o.h, r, blk, k);
  }

  lemma AccountedExtended(g: Geometry, w0: World, st: State, w: World, st': State, w': World,
                          b: nat, o: Own, r: nat, k: nat, next: nat, blk: nat)
    requires Sound(g, st', w') && o.Owned? && k >= 1 && RefOk(g, w.tab, b, o) && RefOk(g, w'.tab, b, o)
    requires Accounted(g, w0, st, w, b, o.h) && |w0.tab| == |w.tab|
    requires IsIndirect(w.tab, blk) && Extended(g, st, w, st', w', blk, Digit(g, r, k), next)
    requires OnPath(g, st'.disk.blocks, b, o.h, r, next, k - 1)
    ensures Accounted(g, w0, st', w', b, o.h)
  {
    hide Keeps, WalksKept, Segments, Linked, Filed, Cached, InodesOk, NoNewClaims, Claims, Pow, NoEntries;
    var at := PathOwner(g, st'.disk.blocks, w'.tab, b, o, r, next, k - 1);
    assert ClaimsKept(g, w.tab, st.disk.blocks, st'.disk.blocks, b, o);
  }

  /** A missing entry was allocated and stored. */
  lemma DescendExtended(g: Geometry, st0: State, w0: World, st: State, w: World, st': State, w': World,
                        slot: nat, slot': nat, o: Own, r: nat, blk: nat, k: nat, next: nat)
    requires Sound(g, st0, w0) && Sound(g, st, w) && Sound(g, st', w') && o.Owned? && k >= 1
    requires Descending(g, st0, w0, st, w, slot, slot', o, r, blk, k)
    requires Cell(st.disk.blocks, blk, Digit(g, r, k)) == 0
    requires IsIndirect(w.tab, blk) && Extended(g, st, w, st', w', blk, Digit(g, r, k), next)
    requires !Claimed(g, st.disk.blocks, st.disk.inodes, blk) ==> w'.breach == w.breach
    ensures k > 1 ==> Descending(g, st0, w0, st', w', slot, slot', o, r, next, k - 1)
    ensures k == 1 ==> Mapped(g, st0, w0, st', w', slot, slot', o, r, next)
  {
    if k > 1 {
      DescendDeeper(g, st0, w0, st, w, st', w', slot, slot', o, r, blk, k, next);
    } else {
      DescendLast(g, st0, w0, st, w, st', w', slot, slot', o, r, blk, k, next);
    }
  }

  lemma DescendDeeper(g: Geometry, st0: State, w0: World, st: State, w: World, st': State, w': World,
                      slot: nat, slot': nat, o: Own, r: nat, blk: nat, k: nat, next: nat)
    requires Sound(g, st0, w0) && Sound(g, st, w) && Sound(g, st', w') && o.Owned? && k > 1
    requires Descending(g, st0, w0, st, w, slot, slot', o, r, blk, k)
    requires Cell(st.disk.blocks, blk, Digit(g, r, k)) == 0
    requires IsIndirect(w.tab, blk) && Extended(g, st, w, st', w', blk, Digit(g, r, k), next)
    requires !Claimed(g, st.disk.blocks, st.disk.inodes, blk) ==> w'.breach == w.breach
    ensures Descending(g, st0, w0, st', w', slot, slot', o, r, next, k - 1)
  {
    hide Pow, Digit, Residue, Claims, Claimed, Sound, WalksKept, ClaimsGrow, Accounted, OnlyAt;
    Facts(g, st, w);
    DescendAt(g, st0, w0, st, w, slot, slot', o, r, blk, k);
    DescendHole(g, st0, w0, st, w, slot, slot', o, r, blk, k);
    PathExtend(g, st, w, st', w', slot', o, r, blk, k, next);
    GrowsTransitive(g, st0, w0, st, w, st', w', o.ino, -1);
    AccountedExtended(g, w0, st, w, st', w', slot', o, r, k, next, blk);
    if slot == 0 {
      OnlyAtKept(g, st, w, st', w', slot', o, -1);
    }
  }

  lemma DescendLast(g: Geometry, st0: State, w0: World, st: State, w: World, st': State, w': World,
                    slot: nat, slot': nat, o: Own, r: nat, blk: nat, k: nat, next: nat)
    requires Sound(g, st0, w0) && Sound(g, st, w) && Sound(g, st', w') && o.Owned? && k == 1
    requires Descending(g, st0, w0, st, w, slot, slot', o, r, blk, k)
    requires Cell(st.disk.blocks, blk, Digit(g, r, k)) == 0
    requires IsIndirect(w.tab, blk) && Extended(g, st, w, st', w', blk, Digit(g, r, k), next)
    requires !Claimed(g, st.disk.blocks, st.disk.inodes, blk) ==> w'.breach == w.breach
    ensures Mapped(g, st0, w0, st', w', slot, slot', o, r, next)
  {
    hide Pow, Digit, Residue, Claims, Claimed, Sound, WalksKept, ClaimsGrow, Accounted, OnlyAt;
    Facts(g, st, w);
    DescendAt(g, st0, w0, st, w, slot, slot', o, r, blk, k);
    DescendHole(g, st0, w0, st, w, slot, slot', o, r, blk, k);
    var lbn := o.base + Residue(g, r, o.h);
    PathExtend(g, st, w, st', w', slot', o, r, blk, k, next);
    GrowsWeaken(g, st0, w0, st, w, o.ino, lbn);
    GrowsTransitive(g, st0, w0, st, w, st', w', o.ino, lbn);
    AccountedExtended(g, w0, st, w, st', w', slot', o, r, k, next, blk);
    if slot == 0 {
      OnlyAtKept(g, st, w, st', w', slot', o, Residue(g, r, o.h));
    }
  }

  /** What a walk that fails on the way leaves behind. */
  lemma DescendFailed(g: Geometry, st0: State, w0: World, st: State, w: World, st': State, w': World,
                      slot: nat, slot': nat, o: Own, r: nat, blk: nat, k: nat)
    requires g.nindir >= 1 && o.Owned?
    requires Descending(g, st0, w0, st, w, slot, slot', o, r, blk, k)
    requires Grows(g, st, w, st', w', o.ino, -1) && NoNewClaims(g, st.disk, st'.disk) && w'.breach == w.breach
    requires NoneOwned(w, w')
    ensures Aborted(g, st0, w0, st', w', slot, slot', o, r)
  {
    GrowsTransitive(g, st0, w0, st, w, st', w', o.ino, -1);
    RefKept(g, w.tab, w'.tab, slot', o);
    assert ClaimsKept(g, w.tab, st.disk.blocks, st'.disk.blocks, slot', o);
    if slot == 0 {
      OnlyAtKept(g, st, w, st', w', slot', o, -1);
    }
  }

  /** An allocation that failed, or whose block was never used, is such an outcome too. */
  lemma AllocAborted(g: Geometry, st0: State, w0: World, st: State, w: World, slot: nat, o: Own, r: nat)
    requires Sound(g, st0, w0) && AllocFrame(st0, w0, st, w) && o.Owned? && RefOk(g, w0.tab, slot, o)
    ensures Aborted(g, st0, w0, st, w, slot, slot, o, r)
  {
    AllocGrows(g, st0, w0, st, w, o.ino, -1);
    AllocNoNewClaims(g, st0, w0, st, w);
    RefKept(g, w0.tab, w.tab, slot, o);
  }

  /** A direct slot that was empty now names a fresh block. */
  lemma DirectMapped(g: Geometry, s0: State, w0: World, s1: State, w1: World, o: Own, r: nat, b: nat, w2: World)
    requires Sound(g, s0, w0) && AllocFrame(s0, w0, s1, w1) && |s1.disk.blocks| == g.fsize
    requires g.IsData(b) && w0.tab[b].Free? && s1.disk.blocks[b] == Zeros(g.bsize)
    requires o.Owned? && o.h == 0 && w2 == w1.(tab := w1.tab[b := o])
    ensures Mapped(g, s0, w0, s1, w2, 0, b, o, r, b)
  {
    RootGrows(g, s0, w0, s1, w1, o, r, b, w2);
    GrowsWeaken(g, s0, w0, s1, w2, o.ino, o.base + Residue(g, r, o.h));
    forall q: nat
      ensures Residue(g, q, 0) == 0
    {
    }
  }

  lemma DirectFound(g: Geometry, st: State, w: World, a: nat, o: Own, r: nat)
    requires Sound(g, st, w) && o.Owned? && o.h == 0 && RefOk(g, w.tab, a, o) && a != 0
    ensures Mapped(g, st, w, st, w, a, a, o, r, a)
  {
    GrowsSelf(g, st, w, o.ino, o.base + Residue(g, r, o.h));
  }
}
