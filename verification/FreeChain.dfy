/** The free-block list: an in-core cache that spills into, and reloads from, chain
    blocks on disk (alloc_freelist.c).

    A list is described by its segments, bottom first: the last segment is the cache,
    and segment j is stored in the chain block that segment j+1 holds at index 0.  The
    bottom segment is empty or starts with the 0 that ends the list. */
module FreeChain {
  import opened Geometry

  type Block = seq<nat>

  /** A read that is total on any image: what lies outside reads as 0. */
  function Cell(blocks: seq<Block>, b: nat, i: nat): nat {
    if b < |blocks| && i < |blocks[b]| then blocks[b][i] else 0
  }

  function SetCell(v: Block, i: nat, x: nat): Block {
    if i < |v| then v[..i] + [x] + v[i + 1..] else v
  }

  function Zeros(n: nat): Block {
    seq(n, _ => 0)
  }

  /** Chain block `c` holds the segment `seg`. */
  ghost predicate Stored(blocks: seq<Block>, c: nat, seg: seq<nat>) {
    && Cell(blocks, c, 0) == |seg|
    && forall i {:trigger seg[i]} :: 0 <= i < |seg| ==> Cell(blocks, c, i + 1) == seg[i]
  }

  /** Entry i of segment j names a block: it is not the 0 ending the list. */
  ghost predicate IsEntry(segs: seq<seq<nat>>, j: int, i: int) {
    0 <= j < |segs| && 0 <= i < |segs[j]| && (j > 0 || i > 0)
  }

  ghost predicate Segments(g: Geometry, segs: seq<seq<nat>>) {
    && |segs| >= 1
    && (forall j {:trigger segs[j]} :: 0 <= j < |segs| ==> |segs[j]| <= g.nicfree)
    && (forall j {:trigger segs[j]} :: 1 <= j < |segs| ==> |segs[j]| >= 1)
    && (|segs[0]| >= 1 ==> segs[0][0] == 0)
    && (forall j, i :: IsEntry(segs, j, i) ==> g.IsData(segs[j][i]))
  }

  ghost predicate Linked(blocks: seq<Block>, segs: seq<seq<nat>>) {
    forall j :: 1 <= j < |segs| && |segs[j]| >= 1 ==> Stored(blocks, segs[j][0], segs[j - 1])
  }

  ghost predicate Cached(segs: seq<seq<nat>>, n: nat, free: seq<nat>) {
    |segs| >= 1 && n <= |free| && segs[|segs| - 1] == free[..n]
  }

  /** No block is listed twice. */
  ghost predicate DistinctEntries(segs: seq<seq<nat>>) {
    forall j, i, k, l :: IsEntry(segs, j, i) && IsEntry(segs, k, l) && segs[j][i] == segs[k][l]
      ==> j == k && i == l
  }

  /** The list that starts from the cache (n, free) is intact: it terminates, stays in
      the data area and repeats nothing. */
  ghost predicate Intact(g: Geometry, blocks: seq<Block>, n: nat, free: seq<nat>, segs: seq<seq<nat>>) {
    && Segments(g, segs)
    && Cached(segs, n, free)
    && Linked(blocks, segs)
    && DistinctEntries(segs)
  }

  ghost predicate Listed(segs: seq<seq<nat>>, b: nat) {
    exists j, i :: IsEntry(segs, j, i) && segs[j][i] == b
  }

  /** The listed blocks as a stack, top last. */
  function Stack(segs: seq<seq<nat>>): seq<nat> {
    var f := Flatten(segs);
    if |segs| >= 1 && |segs[0]| >= 1 && |f| >= 1 then f[1..] else f
  }

  function Flatten(segs: seq<seq<nat>>): seq<nat> {
    if |segs| == 0 then [] else Flatten(segs[..|segs| - 1]) + segs[|segs| - 1]
  }

  lemma {:induction false} FlattenStarts(segs: seq<seq<nat>>)
    requires |segs| >= 1
    ensures segs[0] <= Flatten(segs)
    decreases |segs|
  {
    if |segs| > 1 {
      FlattenStarts(segs[..|segs| - 1]);
    } else {
      assert Flatten(segs) == segs[0];
    }
  }

  /** The last segment, taken apart from what lies below it. */
  lemma StackTop(below: seq<seq<nat>>, top: seq<nat>)
    ensures Stack(below + [top]) ==
      if below == [] then (if top == [] then [] else top[1..]) else Stack(below) + top
  {
    var segs := below + [top];
    assert segs[..|segs| - 1] == below;
    assert Flatten(segs) == Flatten(below) + top;
    if below != [] {
      FlattenStarts(below);
    }
  }

  /** The stack is empty exactly when the cache is empty or shows the 0 that ends the list. */
  lemma StackEmpty(g: Geometry, segs: seq<seq<nat>>)
    requires g.Valid() && Segments(g, segs)
    ensures var top := segs[|segs| - 1];
            Stack(segs) == [] <==> top == [] || top[|top| - 1] == 0
  {
    var n := |segs| - 1;
    var top := segs[n];
    assert segs == segs[..n] + [top];
    StackTop(segs[..n], top);
    if |top| >= 1 && (n > 0 || |top| > 1) {
      assert IsEntry(segs, n, |top| - 1);
    }
  }

  lemma StackOfNothing()
    ensures Stack([[]]) == [] && Stack([[0]]) == []
  {
    var none: seq<seq<nat>> := [];
    StackTop(none, []);
    StackTop(none, [0]);
    assert none + [[]] == [[]] && none + [[0]] == [[0]];
  }

  /** Pop and push, as the segments see them. */
  lemma StackPush(segs: seq<seq<nat>>, b: nat)
    requires |segs| >= 1 && |segs[|segs| - 1]| >= 1
    ensures Stack(segs[|segs| - 1 := segs[|segs| - 1] + [b]]) == Stack(segs) + [b]
  {
    var n := |segs| - 1;
    assert segs == segs[..n] + [segs[n]];
    StackTop(segs[..n], segs[n]);
    assert segs[n := segs[n] + [b]] == segs[..n] + [segs[n] + [b]];
    StackTop(segs[..n], segs[n] + [b]);
  }
}
