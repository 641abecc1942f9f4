/** What the checker's walks mean, on any image. */
module CheckSpec {
  import opened Geometry
  import opened FreeChain
  import opened Image
  import opened Ownership

  /** The blocks of s are data blocks, claimed for the first time. */
  ghost predicate Fresh(g: Geometry, marked: set<nat>, s: seq<nat>) {
    && Distinct(s)
    && forall x :: x in s ==> g.IsData(x) && x !in marked
  }

  ghost function SetOf(s: seq<nat>): set<nat> {
    set x | x in s
  }

  lemma FreshConcat(g: Geometry, marked: set<nat>, s: seq<nat>, t: seq<nat>)
    ensures Fresh(g, marked, s + t) <==> Fresh(g, marked, s) && Fresh(g, marked + SetOf(s), t)
    ensures SetOf(s + t) == SetOf(s) + SetOf(t)
  {
    if Fresh(g, marked, s + t) {
      forall i, j | 0 <= i < j < |s|
        ensures s[i] != s[j]
      {
        assert (s + t)[i] == s[i] && (s + t)[j] == s[j];
      }
      forall i, j | 0 <= i < j < |t|
        ensures t[i] != t[j]
      {
        assert (s + t)[|s| + i] == t[i] && (s + t)[|s| + j] == t[j];
      }
      forall x | x in t
        ensures x !in s
      {
        var j :| 0 <= j < |t| && t[j] == x;
        forall i | 0 <= i < |s|
          ensures s[i] != x
        {
          assert (s + t)[i] != (s + t)[|s| + j];
        }
      }
    }
    if Fresh(g, marked, s) && Fresh(g, marked + SetOf(s), t) {
      DistinctConcat(s, t);
    }
  }

  /** The state of a marking pass over the claims s: either nothing was wrong so far, and
      exactly s was marked, or something was counted bad or duplicate. */
  ghost predicate Marking(g: Geometry, marked0: set<nat>, wrong0: nat, s: seq<nat>, marked: set<nat>, wrong: nat) {
    && wrong0 <= wrong
    && (wrong == wrong0 <==> Fresh(g, marked0, s))
    && (wrong == wrong0 ==> marked == marked0 + SetOf(s))
  }

  lemma MarkingNone(g: Geometry, marked: set<nat>, wrong: nat)
    ensures Marking(g, marked, wrong, [], marked, wrong)
  {
    assert SetOf([]) == {};
  }

  lemma MarkingThen(g: Geometry, m0: set<nat>, w0: nat, s: seq<nat>, m1: set<nat>, w1: nat, t: seq<nat>, m2: set<nat>,
      w2: nat)
    requires Marking(g, m0, w0, s, m1, w1) && Marking(g, m1, w1, t, m2, w2)
    ensures Marking(g, m0, w0, s + t, m2, w2)
  {
    FreshConcat(g, m0, s, t);
  }

  lemma {:induction false} KidsBefore(g: Geometry, blocks: seq<Block>, b: nat, h: nat, i: nat)
    requires h >= 1 && i < g.nindir
    ensures KidsUpTo(g, blocks, b, h, i + 1) == KidsUpTo(g, blocks, b, h, i) +
            Claims(g, blocks, Cell(blocks, b, i), h - 1)
  {
  }

  /** The claims of the entries before i. */
  ghost function KidsUpTo(g: Geometry, blocks: seq<Block>, b: nat, h: nat, i: nat): seq<nat>
    requires h >= 1
  {
    if i == 0 then [] else KidsUpTo(g, blocks, b, h, i - 1) + Claims(g, blocks, Cell(blocks, b, i - 1), h - 1)
  }

  lemma {:induction false} KidsAll(g: Geometry, blocks: seq<Block>, b: nat, h: nat, i: nat)
    requires h >= 1 && i <= g.nindir
    ensures KidsUpTo(g, blocks, b, h, i) + KidClaims(g, blocks, b, h, i) == KidClaims(g, blocks, b, h, 0)
    decreases i
  {
    hide Claims;
    if i > 0 {
      KidsAll(g, blocks, b, h, i - 1);
      assert KidClaims(g, blocks, b, h, i - 1) == Claims(g, blocks, Cell(blocks, b, i - 1), h - 1) +
             KidClaims(g, blocks, b, h, i);
    }
  }

  ghost function SlotsUpTo(g: Geometry, blocks: seq<Block>, ip: Inode, s: nat): seq<nat> {
    if s == 0 then [] else SlotsUpTo(g, blocks, ip, s - 1) + SlotClaims(g, blocks, ip, s - 1)
  }

  lemma {:induction false} SlotsAll(g: Geometry, blocks: seq<Block>, ip: Inode, s: nat)
    requires s <= g.niaddr
    ensures SlotsUpTo(g, blocks, ip, s) + SlotsClaims(g, blocks, ip, s) == SlotsClaims(g, blocks, ip, 0)
    decreases s
  {
    hide SlotClaims;
    if s > 0 {
      SlotsAll(g, blocks, ip, s - 1);
      assert SlotsClaims(g, blocks, ip, s - 1) == SlotClaims(g, blocks, ip, s - 1) + SlotsClaims(g, blocks, ip, s);
    }
  }

  ghost function InodesUpTo(g: Geometry, blocks: seq<Block>, inodes: seq<Inode>, ino: nat): seq<nat>
    requires ino <= |inodes|
  {
    if ino <= 1 then [] else InodesUpTo(g, blocks, inodes, ino - 1) + InodeClaims(g, blocks, inodes[ino - 1])
  }

  lemma {:induction false} InodesAll(g: Geometry, blocks: seq<Block>, inodes: seq<Inode>, ino: nat)
    requires 1 <= ino <= |inodes|
    ensures InodesUpTo(g, blocks, inodes, ino) + AllClaims(g, blocks, inodes, ino) == AllClaims(g, blocks, inodes, 1)
    decreases ino
  {
    hide InodeClaims;
    if ino > 1 {
      InodesAll(g, blocks, inodes, ino - 1);
      assert AllClaims(g, blocks, inodes, ino - 1) == InodeClaims(g, blocks, inodes[ino - 1]) +
             AllClaims(g, blocks, inodes, ino);
    }
  }

  // ---- the bitmap ----

  predicate Bit(g: Geometry, bits: seq<bool>, b: nat) {
    g.dstart <= b < g.fsize && b - g.dstart < |bits| && bits[b - g.dstart]
  }

  /** The data blocks whose bit is set. */
  ghost function MarkedIn(g: Geometry, bits: seq<bool>): (m: set<nat>)
    ensures forall b: nat :: b in m <==> Bit(g, bits, b)
  {
    set b: nat | b < g.fsize && Bit(g, bits, b)
  }

  lemma BitSet(g: Geometry, bits: seq<bool>, b: nat)
    requires g.dstart <= g.fsize && |bits| == g.fsize - g.dstart && g.IsData(b) && !bits[b - g.dstart]
    ensures var m := MarkedIn(g, bits);
            && b !in m && MarkedIn(g, bits[b - g.dstart := true]) == m + {b}
            && |MarkedIn(g, bits[b - g.dstart := true])| == |m| + 1
  {
    var m, bits' := MarkedIn(g, bits), bits[b - g.dstart := true];
    forall c: nat
      ensures c in MarkedIn(g, bits') <==> c in m + {b}
    {
    }
    assert MarkedIn(g, bits') == m + {b};
  }

  lemma {:induction false} CardBound(s: seq<nat>)
    ensures |SetOf(s)| <= |s|
    decreases |s|
  {
    if |s| > 0 {
      var n := |s| - 1;
      CardBound(s[..n]);
      assert SetOf(s) == SetOf(s[..n]) + {s[n]} by {
        assert s == s[..n] + [s[n]];
      }
    }
  }

  /** As many different blocks as references: none is referenced twice. */
  lemma {:induction false} CardDistinct(s: seq<nat>)
    ensures |SetOf(s)| == |s| <==> Distinct(s)
    decreases |s|
  {
    if |s| > 0 {
      var n := |s| - 1;
      var t := s[..n];
      CardDistinct(t);
      CardBound(t);
      assert s == t + [s[n]];
      assert SetOf(s) == SetOf(t) + {s[n]};
      if Distinct(s) {
        assert s[n] !in t;
      } else if Distinct(t) {
        assert s[n] in t;
      }
    }
  }

  /** Block numbers below a bound: there are not more than the bound. */
  lemma {:induction false} Below(m: set<nat>, bound: nat)
    requires forall x :: x in m ==> x < bound
    ensures |m| <= bound
    decreases bound
  {
    if bound > 0 {
      Below(m - {bound - 1}, bound - 1);
      assert m <= (m - {bound - 1}) + {bound - 1};
      if bound - 1 in m {
        assert |m| == |m - {bound - 1}| + 1;
      } else {
        assert m == m - {bound - 1};
      }
    } else {
      assert m == {};
    }
  }
}
