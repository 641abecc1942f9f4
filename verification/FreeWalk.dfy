/** The walk of the free list (v7_walk_free), segment by segment from the cache down. */
module FreeWalk {
  import opened Geometry
  import opened FreeChain
  import opened Image
  import opened Walks

  /** Entry i of segment j was popped: it lies in a segment above, or past the first n. */
  predicate Popped(segs: seq<seq<nat>>, n: nat, j: int, i: int) {
    0 <= j < |segs| && 0 <= i < |segs[j]| && (j >= 1 || i >= n)
  }

  /** The part of the list seen so far: `segs` from the current segment up, of which the
      first n entries are still to be popped, and the blocks popped from it. */
  ghost predicate Walking(g: Geometry, img: Image, segs: seq<seq<nat>>, n: nat, walked: seq<nat>) {
    && |segs| >= 1 && n <= |segs[0]|
    && segs[|segs| - 1] == img.sbFree[..if img.sbN <= |img.sbFree| then img.sbN else |img.sbFree|]
    && (forall j {:trigger segs[j]} :: 0 <= j < |segs| ==> |segs[j]| <= g.nicfree)
    && (forall j {:trigger segs[j]} :: 1 <= j < |segs| ==> |segs[j]| >= 1)
    && Linked(img.blocks, segs)
    && Seen(g, segs, n, walked)
  }

  /** The entries popped are data blocks, each once, and `walked` holds exactly these. */
  ghost predicate Seen(g: Geometry, segs: seq<seq<nat>>, n: nat, walked: seq<nat>) {
    && (forall j, i {:trigger segs[j][i]} :: Popped(segs, n, j, i) ==> g.IsData(segs[j][i]) && segs[j][i] in walked)
    && (forall x {:trigger x in walked} :: x in walked ==>
         exists j, i {:trigger Popped(segs, n, j, i)} :: Popped(segs, n, j, i) && segs[j][i] == x)
    && (forall j, i, k, l :: Popped(segs, n, j, i) && Popped(segs, n, k, l) && segs[j][i] == segs[k][l] ==>
         j == k && i == l)
  }

  lemma WalkStart(g: Geometry, img: Image)
    requires img.sbN <= |img.sbFree| == g.nicfree
    ensures Walking(g, img, [img.sbFree[..img.sbN]], img.sbN, [])
  {
    var segs := [img.sbFree[..img.sbN]];
    assert forall j, i :: !Popped(segs, img.sbN, j, i);
  }

  lemma WalkPop(g: Geometry, img: Image, segs: seq<seq<nat>>, n: nat, walked: seq<nat>)
    requires Walking(g, img, segs, n, walked) && n >= 1 && g.IsData(segs[0][n - 1]) && segs[0][n - 1] !in walked
    ensures Walking(g, img, segs, n - 1, walked + [segs[0][n - 1]])
  {
    var b := segs[0][n - 1];
    var walked' := walked + [b];
    forall j, i
      ensures Popped(segs, n - 1, j, i) <==> Popped(segs, n, j, i) || (j == 0 && i == n - 1)
    {
    }
    forall x {:trigger x in walked'} | x in walked'
      ensures exists j, i {:trigger Popped(segs, n - 1, j, i)} :: Popped(segs, n - 1, j, i) && segs[j][i] == x
    {
      if x in walked {
        var j, i :| Popped(segs, n, j, i) && segs[j][i] == x;
        assert Popped(segs, n - 1, j, i);
      } else {
        assert Popped(segs, n - 1, 0, n - 1);
      }
    }
  }

  lemma WalkReload(g: Geometry, img: Image, segs: seq<seq<nat>>, walked: seq<nat>, next: seq<nat>)
    requires Walking(g, img, segs, 0, walked) && |segs[0]| >= 1 && |next| <= g.nicfree &&
             Stored(img.blocks, segs[0][0], next)
    ensures Walking(g, img, [next] + segs, |next|, walked)
  {
    hide Seen;
    var segs' := [next] + segs;
    forall j | 1 <= j < |segs'| && |segs'[j]| >= 1
      ensures Stored(img.blocks, segs'[j][0], segs'[j - 1])
    {
      if j > 1 {
        assert Stored(img.blocks, segs[j - 1][0], segs[j - 2]);
      }
    }
    SeenReload(g, segs, walked, next);
  }

  lemma SeenReload(g: Geometry, segs: seq<seq<nat>>, walked: seq<nat>, next: seq<nat>)
    requires Seen(g, segs, 0, walked)
    ensures Seen(g, [next] + segs, |next|, walked)
  {
    var segs' := [next] + segs;
    forall j, i
      ensures Popped(segs', |next|, j, i) <==> Popped(segs, 0, j - 1, i)
      ensures Popped(segs', |next|, j, i) ==> segs'[j][i] == segs[j - 1][i]
    {
    }
    forall x {:trigger x in walked} | x in walked
      ensures exists j, i {:trigger Popped(segs', |next|, j, i)} :: Popped(segs', |next|, j, i) && segs'[j][i] == x
    {
      var j, i :| Popped(segs, 0, j, i) && segs[j][i] == x;
      assert Popped(segs', |next|, j + 1, i);
    }
  }

  /** The walk came to the bottom of the list, an empty segment or the 0 at its start: the
      list is intact, and the blocks popped are those listed. */
  lemma WalkWhole(g: Geometry, img: Image, segs: seq<seq<nat>>, n: nat, walked: seq<nat>)
    requires Walking(g, img, segs, n, walked) && img.sbN <= |img.sbFree|
    requires if n == 0 then segs[0] == [] else n == 1 && segs[0][0] == 0
    ensures Intact(g, img.blocks, img.sbN, img.sbFree, segs)
    ensures forall x :: x in walked <==> Listed(segs, x)
  {
    forall j, i
      ensures IsEntry(segs, j, i) <==> Popped(segs, n, j, i)
    {
    }
    forall x
      ensures x in walked <==> Listed(segs, x)
    {
      if x in walked {
        var j, i :| Popped(segs, n, j, i) && segs[j][i] == x;
        assert IsEntry(segs, j, i);
      }
      if Listed(segs, x) {
        var j, i :| IsEntry(segs, j, i) && segs[j][i] == x;
        assert Popped(segs, n, j, i);
      }
    }
  }

  /** segs is the upper part of the list s. */
  ghost predicate Upper(s: seq<seq<nat>>, segs: seq<seq<nat>>) {
    |segs| <= |s| && s[|s| - |segs|..] == segs
  }

  lemma UpperStart(g: Geometry, img: Image, s: seq<seq<nat>>)
    requires Intact(g, img.blocks, img.sbN, img.sbFree, s)
    ensures Upper(s, [img.sbFree[..img.sbN]])
  {
    assert s[|s| - 1..] == [s[|s| - 1]];
  }

  /** On an intact list the next entry is a block not seen before, or the 0 at the bottom. */
  lemma UpperPop(g: Geometry, img: Image, s: seq<seq<nat>>, segs: seq<seq<nat>>, n: nat, walked: seq<nat>)
    requires Intact(g, img.blocks, img.sbN, img.sbFree, s) && Walking(g, img, segs, n, walked) && Upper(s, segs) &&
             n >= 1 && g.dstart >= 1
    ensures segs[0][n - 1] == 0 ==> n == 1
    ensures segs[0][n - 1] != 0 ==> g.IsData(segs[0][n - 1]) && segs[0][n - 1] !in walked && (n == 1 ==> |segs| < |s|)
  {
    var d := |s| - |segs|;
    assert s[d..][0] == s[d];
    assert s[d] == segs[0];
    var b := segs[0][n - 1];
    if d > 0 || n > 1 {
      assert IsEntry(s, d, n - 1);
      forall j, i | Popped(segs, n, j, i)
        ensures segs[j][i] != b
      {
        assert s[d..][j] == s[d + j];
        assert IsEntry(s, d + j, i);
      }
    }
  }

  lemma UpperReload(g: Geometry, img: Image, s: seq<seq<nat>>, segs: seq<seq<nat>>, n: nat, walked: seq<nat>)
    requires Intact(g, img.blocks, img.sbN, img.sbFree, s) && Walking(g, img, segs, n, walked) && Upper(s, segs) &&
             |segs| < |s| && |segs[0]| >= 1
    ensures var next := s[|s| - |segs| - 1];
            |next| <= g.nicfree && Stored(img.blocks, segs[0][0], next) && Upper(s, [next] + segs)
  {
    var d := |s| - |segs|;
    assert s[d..][0] == s[d];
    assert Stored(img.blocks, s[d][0], s[d - 1]);
    assert s[d - 1..] == [s[d - 1]] + s[d..];
  }

  lemma StoredCells(blocks: seq<Block>, b: nat, n: nat, cur: seq<nat>, next: seq<nat>)
    requires b < |blocks| && Stored(blocks, b, next) && n == |next| <= |cur| && |cur| < |blocks[b]| &&
             cur == blocks[b][1..1 + |cur|]
    ensures cur[..n] == next
  {
    forall i | 0 <= i < n
      ensures cur[i] == next[i]
    {
      assert Cell(blocks, b, i + 1) == next[i];
    }
  }

  // ---- the walk as a function, and what it finds ----

  /** The walk stands before entry n of the current segment, whose entries are in cur. */
  ghost predicate Flow(g: Geometry, img: Image, cur: seq<nat>, n: nat, segs: seq<seq<nat>>, walked: seq<nat>,
      left: set<nat>) {
    && n <= g.nicfree == |cur| && |segs| >= 1 && n <= |segs[0]| && cur[..n] == segs[0][..n]
    && (n == 0 ==> segs[0] == []) && Walking(g, img, segs, n, walked)
    && forall b: nat :: b in left <==> g.IsData(b) && b !in walked
  }

  ghost predicate Readable(g: Geometry, img: Image) {
    && g.Valid() && |img.blocks| == g.fsize && img.sbN <= |img.sbFree| == g.nicfree
    && forall b {:trigger img.blocks[b]} :: 0 <= b < g.fsize ==> |img.blocks[b]| == g.bsize
  }

  /** The walk on from a point ends at the bottom exactly if the list is intact, and then has
      met exactly the blocks listed. */
  lemma {:induction false} TrailDown(g: Geometry, img: Image, cur: seq<nat>, n: nat, segs: seq<seq<nat>>,
      walked: seq<nat>, left: set<nat>, s: seq<seq<nat>>)
    returns (segs': seq<seq<nat>>)
    requires Readable(g, img) && Flow(g, img, cur, n, segs, walked, left)
    ensures var t := TrailFrom(g, img.blocks, cur, n, left);
            && (t.end.Bottom? ==>
                 Intact(g, img.blocks, img.sbN, img.sbFree, segs') && forall x :: x in walked + t.blocks <==>
                 Listed(segs', x))
            && (Intact(g, img.blocks, img.sbN, img.sbFree, s) && Upper(s, segs) ==> t.end.Bottom?)
            && Distinct(t.blocks) && forall x :: x in t.blocks ==> x in left
    decreases left, 0
  {
    hide Walking, Upper, Intact, Listed, Stored, TrailFrom;
    segs' := segs;
    if n == 0 {
      TrailBottom(g, img.blocks, cur, left);
      WalkWhole(g, img, segs, 0, walked);
      assert walked + [] == walked;
      return;
    }
    var b := cur[n - 1];
    assert segs[0][n - 1] == b by {
      assert cur[..n][n - 1] == segs[0][..n][n - 1];
    }
    TrailStop(g, img.blocks, cur, n, left);
    if Intact(g, img.blocks, img.sbN, img.sbFree, s) && Upper(s, segs) {
      UpperPop(g, img, s, segs, n, walked);
    }
    if b == 0 {
      if n == 1 {
        WalkWhole(g, img, segs, n, walked);
      }
      assert walked + [] == walked;
      return;
    }
    if b !in left {
      return;
    }
    TrailStep(g, img.blocks, cur, n, left);
    WalkPop(g, img, segs, n, walked);
    var walked', left' := walked + [b], left - {b};
    if n > 1 {
      segs' := TrailDown(g, img, cur, n - 1, segs, walked', left', s);
      TrailJoin(walked, b, TrailFrom(g, img.blocks, cur, n - 1, left').blocks, left');
    } else {
      segs' := TrailReload(g, img, segs, walked', left', s, b);
      if img.blocks[b][0] <= g.nicfree {
        TrailJoin(walked, b, TrailFrom(g, img.blocks, img.blocks[b][1..1 + g.nicfree], img.blocks[b][0], left').blocks,
            left');
      }
    }
  }

  lemma TrailJoin(walked: seq<nat>, b: nat, rest: seq<nat>, left: set<nat>)
    requires Distinct(rest) && (forall x :: x in rest ==> x in left) && b !in left
    ensures Distinct([b] + rest) && walked + [b] + rest == walked + ([b] + rest)
  {
  }

  /** From a chain block down. */
  lemma {:induction false} TrailReload(g: Geometry, img: Image, segs: seq<seq<nat>>, walked: seq<nat>, left: set<nat>,
      s: seq<seq<nat>>, b: nat)
    returns (segs': seq<seq<nat>>)
    requires Readable(g, img) && Walking(g, img, segs, 0, walked) && |segs| >= 1 && |segs[0]| >= 1 && segs[0][0] == b &&
             g.IsData(b)
    requires forall x: nat :: x in left <==> g.IsData(x) && x !in walked
    requires Intact(g, img.blocks, img.sbN, img.sbFree, s) && Upper(s, segs) ==> |segs| < |s|
    ensures img.blocks[b][0] > g.nicfree ==> !(Intact(g, img.blocks, img.sbN, img.sbFree, s) && Upper(s, segs))
    ensures img.blocks[b][0] <= g.nicfree ==>
              var t := TrailFrom(g, img.blocks, img.blocks[b][1..1 + g.nicfree], img.blocks[b][0], left);
              && (t.end.Bottom? ==>
                   Intact(g, img.blocks, img.sbN, img.sbFree, segs') && forall x :: x in walked + t.blocks <==>
                   Listed(segs', x))
              && (Intact(g, img.blocks, img.sbN, img.sbFree, s) && Upper(s, segs) ==> t.end.Bottom?)
              && Distinct(t.blocks) && forall x :: x in t.blocks ==> x in left
    decreases left, 1
  {
    hide Walking, Upper, Intact, Listed, TrailFrom;
    segs' := segs;
    var n, cur := img.blocks[b][0], img.blocks[b][1..1 + g.nicfree];
    if Intact(g, img.blocks, img.sbN, img.sbFree, s) && Upper(s, segs) {
      UpperReload(g, img, s, segs, 0, walked);
      var next := s[|s| - |segs| - 1];
      assert n == |next|;
      StoredCells(img.blocks, b, n, cur, next);
    }
    if n <= g.nicfree {
      assert Stored(img.blocks, b, cur[..n]);
      WalkReload(g, img, segs, walked, cur[..n]);
      segs' := TrailDown(g, img, cur, n, [cur[..n]] + segs, walked, left, s);
    }
  }

  /** The walk of a list ends at its bottom exactly if the list is intact, and has then met
      exactly the blocks listed, each once. */
  lemma TrailIntact(g: Geometry, img: Image) returns (segs: seq<seq<nat>>)
    requires Readable(g, img)
    ensures FreeTrail(g, img).end.Bottom? <==> exists s :: Intact(g, img.blocks, img.sbN, img.sbFree, s)
    ensures FreeTrail(g, img).end.Bottom? ==>
              Intact(g, img.blocks, img.sbN, img.sbFree, segs) && forall x :: x in FreeTrail(g, img).blocks <==>
                  Listed(segs, x)
    ensures Distinct(FreeTrail(g, img).blocks) && forall x :: x in FreeTrail(g, img).blocks ==> g.IsData(x)
  {
    hide Walking, Upper, Intact, Listed, TrailFrom;
    WalkStart(g, img);
    var s: seq<seq<nat>> := [];
    if t :| Intact(g, img.blocks, img.sbN, img.sbFree, t) {
      s := t;
      UpperStart(g, img, s);
    }
    segs := TrailDown(g, img, img.sbFree, img.sbN, [img.sbFree[..img.sbN]], [], DataBlocks(g), s);
    assert forall t: seq<nat> :: [] + t == t;
  }
}
