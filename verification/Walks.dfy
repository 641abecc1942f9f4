/** What the checker's walks meet on an image, damaged or not, as functions of the image. */
module Walks {
  import opened Geometry
  import opened FreeChain
  import opened Image
  import opened CheckSpec

  // ---- references of inodes ----

  /** The references to data blocks among s. */
  function DataOf(g: Geometry, s: seq<nat>): seq<nat> {
    if s == [] then []
    else DataOf(g, s[..|s| - 1]) + (if g.IsData(s[|s| - 1]) then [s[|s| - 1]] else [])
  }

  /** The references that the mark walk meets under b, if m is marked: a block outside the data
      area, or one marked before, is met but not chased. */
  ghost function Met(g: Geometry, blocks: seq<Block>, m: set<nat>, b: nat, h: nat): seq<nat>
    decreases h, 1, 0
  {
    if b == 0 then []
    else if h == 0 || !g.IsData(b) || b in m then [b]
    else [b] + MetKids(g, blocks, m + {b}, b, h, 0)
  }

  ghost function MetKids(g: Geometry, blocks: seq<Block>, m: set<nat>, b: nat, h: nat, i: nat): seq<nat>
    requires h >= 1
    decreases h, 0, g.nindir - i
  {
    if i >= g.nindir then []
    else
      var k := Met(g, blocks, m, Cell(blocks, b, i), h - 1);
      k + MetKids(g, blocks, m + SetOf(DataOf(g, k)), b, h, i + 1)
  }

  ghost function MetSlot(g: Geometry, blocks: seq<Block>, m: set<nat>, ip: Inode, s: nat): seq<nat> {
    if s < |ip.addr| then Met(g, blocks, m, ip.addr[s], Height(g, ip.large, s)) else []
  }

  ghost function MetSlots(g: Geometry, blocks: seq<Block>, m: set<nat>, ip: Inode, s: nat): seq<nat>
    decreases g.niaddr - s
  {
    if s >= g.niaddr then []
    else
      var k := MetSlot(g, blocks, m, ip, s);
      k + MetSlots(g, blocks, m + SetOf(DataOf(g, k)), ip, s + 1)
  }

  ghost function MetInode(g: Geometry, blocks: seq<Block>, m: set<nat>, ip: Inode): seq<nat> {
    if ip.kind.Data? then MetSlots(g, blocks, m, ip, 0) else []
  }

  ghost function MetInodes(g: Geometry, blocks: seq<Block>, m: set<nat>, inodes: seq<Inode>, ino: nat): seq<nat>
    decreases |inodes| - ino
  {
    if ino >= |inodes| then []
    else
      var k := MetInode(g, blocks, m, inodes[ino]);
      k + MetInodes(g, blocks, m + SetOf(DataOf(g, k)), inodes, ino + 1)
  }

  /** Every reference the check of an image meets in its inodes. */
  ghost function MetAll(g: Geometry, img: Image): seq<nat> {
    MetInodes(g, img.blocks, {}, img.inodes, 1)
  }

  // ---- the claims within the data area, without any state ----

  /** The claims of the subtree under b, without the subtrees under blocks outside the data area. */
  ghost function Pruned(g: Geometry, blocks: seq<Block>, b: nat, h: nat): (p: seq<nat>)
    ensures forall x :: x in p ==> g.IsData(x)
    decreases h, 1, 0
  {
    if b == 0 || !g.IsData(b) then [] else if h == 0 then [b] else [b] + PrunedKids(g, blocks, b, h, 0)
  }

  ghost function PrunedKids(g: Geometry, blocks: seq<Block>, b: nat, h: nat, i: nat): (p: seq<nat>)
    requires h >= 1
    ensures forall x :: x in p ==> g.IsData(x)
    decreases h, 0, g.nindir - i
  {
    if i >= g.nindir then []
    else Pruned(g, blocks, Cell(blocks, b, i), h - 1) + PrunedKids(g, blocks, b, h, i + 1)
  }

  ghost function PrunedSlots(g: Geometry, blocks: seq<Block>, ip: Inode, s: nat): (p: seq<nat>)
    ensures forall x :: x in p ==> g.IsData(x)
    decreases g.niaddr - s
  {
    if s >= g.niaddr then []
    else
      var q := if s < |ip.addr| then Pruned(g, blocks, ip.addr[s], Height(g, ip.large, s)) else [];
      q + PrunedSlots(g, blocks, ip, s + 1)
  }

  ghost function PrunedInodes(g: Geometry, blocks: seq<Block>, inodes: seq<Inode>, ino: nat): (p: seq<nat>)
    ensures forall x :: x in p ==> g.IsData(x)
    decreases |inodes| - ino
  {
    if ino >= |inodes| then []
    else
      var q := if inodes[ino].kind.Data? then PrunedSlots(g, blocks, inodes[ino], 0) else [];
      q + PrunedInodes(g, blocks, inodes, ino + 1)
  }

  // ---- lemmas about sequences of references ----

  lemma {:induction false} DataConcat(g: Geometry, s: seq<nat>, t: seq<nat>)
    ensures DataOf(g, s + t) == DataOf(g, s) + DataOf(g, t)
    decreases |t|
  {
    if t == [] {
      assert s + t == s;
    } else {
      DataConcat(g, s, t[..|t| - 1]);
      assert (s + t)[..|s + t| - 1] == s + t[..|t| - 1];
    }
  }

  lemma DataOne(g: Geometry, b: nat)
    ensures DataOf(g, [b]) == if g.IsData(b) then [b] else []
  {
    assert [b][..0] == [];
  }

  lemma DataMarked(g: Geometry, s: seq<nat>, t: seq<nat>)
    ensures SetOf(DataOf(g, s + t)) == SetOf(DataOf(g, s)) + SetOf(DataOf(g, t))
    ensures |DataOf(g, s + t)| == |DataOf(g, s)| + |DataOf(g, t)|
  {
    hide DataOf;
    DataConcat(g, s, t);
  }

  lemma {:induction false} DataAll(g: Geometry, s: seq<nat>)
    ensures forall x :: x in DataOf(g, s) <==> x in s && g.IsData(x)
    ensures (forall x :: x in s ==> g.IsData(x)) <==> DataOf(g, s) == s
    ensures |DataOf(g, s)| <= |s|
    ensures |DataOf(g, s)| == |s| <==> DataOf(g, s) == s
    decreases |s|
  {
    if s != [] {
      var t, b := s[..|s| - 1], s[|s| - 1];
      assert s == t + [b];
      DataAll(g, t);
    }
  }

  /** References add at most as many marks, and exactly as many if all are new data blocks. */
  lemma {:induction false} Growth(g: Geometry, m: set<nat>, s: seq<nat>)
    ensures |m + SetOf(DataOf(g, s))| <= |m| + |s|
    ensures |m + SetOf(DataOf(g, s))| == |m| + |s| <==> Fresh(g, m, s)
    decreases |s|
  {
    if s == [] {
      assert m + SetOf(DataOf(g, s)) == m;
    } else {
      hide Fresh, SetOf, DataOf;
      var t, b := s[..|s| - 1], s[|s| - 1];
      assert s == t + [b];
      Growth(g, m, t);
      FreshConcat(g, m, t, [b]);
      FreshOne(g, m + SetOf(t), b);
      MarkedBy(g, m, t);
      DataLast(g, m, t, b);
      OneMore(m + SetOf(DataOf(g, t)), b);
    }
  }

  lemma DataLast(g: Geometry, m: set<nat>, t: seq<nat>, b: nat)
    ensures var n := m + SetOf(DataOf(g, t));
            m + SetOf(DataOf(g, t + [b])) == if g.IsData(b) then n + {b} else n
  {
    hide DataOf;
    DataMarked(g, t, [b]);
    DataOne(g, b);
    FreshOne(g, m, b);
    assert SetOf([]) == {};
  }

  lemma OneMore(n: set<nat>, b: nat)
    ensures |n + {b}| == |n| + if b in n then 0 else 1
  {
    if b in n {
      assert n + {b} == n;
    }
  }

  lemma FreshOne(g: Geometry, m: set<nat>, b: nat)
    ensures Fresh(g, m, [b]) <==> g.IsData(b) && b !in m
    ensures SetOf([b]) == {b}
  {
    assert [b][0] in [b];
  }

  // ---- the references met are the claims, as long as nothing is wrong ----

  /** s is as new to m as t, and if they are new they are the same. */
  ghost predicate Alike(g: Geometry, m: set<nat>, s: seq<nat>, t: seq<nat>) {
    (Fresh(g, m, s) <==> Fresh(g, m, t)) && (Fresh(g, m, s) ==> s == t)
  }

  lemma AlikeThen(g: Geometry, m: set<nat>, m1: set<nat>, s: seq<nat>, t: seq<nat>, s': seq<nat>, t': seq<nat>)
    requires Alike(g, m, s, t) && Alike(g, m1, s', t') && (Fresh(g, m, s) ==> m1 == m + SetOf(s))
    ensures Alike(g, m, s + s', t + t')
  {
    hide Fresh, SetOf;
    FreshConcat(g, m, s, s');
    FreshConcat(g, m, t, t');
  }

  lemma MarkedBy(g: Geometry, m: set<nat>, s: seq<nat>)
    ensures Fresh(g, m, s) ==> m + SetOf(DataOf(g, s)) == m + SetOf(s)
  {
    if Fresh(g, m, s) {
      DataAll(g, s);
    }
  }

  lemma {:induction false} MetTree(g: Geometry, blocks: seq<Block>, m: set<nat>, b: nat, h: nat)
    ensures Alike(g, m, Met(g, blocks, m, b, h), Claims(g, blocks, b, h))
    decreases h, 1, 0
  {
    hide Fresh, SetOf;
    if b != 0 && h > 0 {
      FreshOne(g, m, b);
      FreshConcat(g, m, [b], KidClaims(g, blocks, b, h, 0));
      if g.IsData(b) && b !in m {
        MetTrees(g, blocks, m + {b}, b, h, 0);
        AlikeThen(g, m, m + {b}, [b], [b], MetKids(g, blocks, m + {b}, b, h, 0), KidClaims(g, blocks, b, h, 0));
      }
    }
  }

  lemma {:induction false} MetTrees(g: Geometry, blocks: seq<Block>, m: set<nat>, b: nat, h: nat, i: nat)
    requires h >= 1
    ensures Alike(g, m, MetKids(g, blocks, m, b, h, i), KidClaims(g, blocks, b, h, i))
    decreases h, 0, g.nindir - i
  {
    hide Fresh, SetOf, Met, Claims, DataOf;
    if i < g.nindir {
      var k := Met(g, blocks, m, Cell(blocks, b, i), h - 1);
      var m1 := m + SetOf(DataOf(g, k));
      MetTree(g, blocks, m, Cell(blocks, b, i), h - 1);
      MetTrees(g, blocks, m1, b, h, i + 1);
      MarkedBy(g, m, k);
      AlikeThen(g, m, m1, k, Claims(g, blocks, Cell(blocks, b, i), h - 1),
                MetKids(g, blocks, m1, b, h, i + 1), KidClaims(g, blocks, b, h, i + 1));
    }
  }

  lemma {:induction false} MetSlotsAlike(g: Geometry, blocks: seq<Block>, m: set<nat>, ip: Inode, s: nat)
    ensures Alike(g, m, MetSlots(g, blocks, m, ip, s), SlotsClaims(g, blocks, ip, s))
    decreases g.niaddr - s
  {
    hide Fresh, SetOf, Met, Claims, DataOf;
    if s < g.niaddr {
      var k := MetSlot(g, blocks, m, ip, s);
      var m1 := m + SetOf(DataOf(g, k));
      if s < |ip.addr| {
        MetTree(g, blocks, m, ip.addr[s], Height(g, ip.large, s));
      }
      MetSlotsAlike(g, blocks, m1, ip, s + 1);
      MarkedBy(g, m, k);
      AlikeThen(g, m, m1, k, SlotClaims(g, blocks, ip, s), MetSlots(g, blocks, m1, ip, s + 1),
          SlotsClaims(g, blocks, ip, s + 1));
    }
  }

  lemma {:induction false} MetInodesAlike(g: Geometry, blocks: seq<Block>, m: set<nat>, inodes: seq<Inode>, ino: nat)
    ensures Alike(g, m, MetInodes(g, blocks, m, inodes, ino), AllClaims(g, blocks, inodes, ino))
    decreases |inodes| - ino
  {
    hide Fresh, SetOf, MetSlots, SlotsClaims, DataOf;
    if ino < |inodes| {
      var k := MetInode(g, blocks, m, inodes[ino]);
      var m1 := m + SetOf(DataOf(g, k));
      MetSlotsAlike(g, blocks, m, inodes[ino], 0);
      MetInodesAlike(g, blocks, m1, inodes, ino + 1);
      MarkedBy(g, m, k);
      AlikeThen(g, m, m1, k, InodeClaims(g, blocks, inodes[ino]),
                MetInodes(g, blocks, m1, inodes, ino + 1), AllClaims(g, blocks, inodes, ino + 1));
    }
  }

  // ---- the data blocks met are the pruned claims, as long as none is met again ----

  lemma {:induction false} PrunedTree(g: Geometry, blocks: seq<Block>, m: set<nat>, b: nat, h: nat)
    ensures Alike(g, m, DataOf(g, Met(g, blocks, m, b, h)), Pruned(g, blocks, b, h))
    decreases h, 1, 0
  {
    hide Fresh, SetOf, DataOf;
    DataNone(g);
    DataOne(g, b);
    FreshOne(g, m, b);
    if b != 0 && h > 0 && g.IsData(b) {
      FreshConcat(g, m, [b], PrunedKids(g, blocks, b, h, 0));
      if b !in m {
        PrunedTrees(g, blocks, m + {b}, b, h, 0);
        DataConcat(g, [b], MetKids(g, blocks, m + {b}, b, h, 0));
        AlikeThen(g, m, m + {b}, [b], [b], DataOf(g, MetKids(g, blocks, m + {b}, b, h, 0)),
            PrunedKids(g, blocks, b, h, 0));
      }
    }
  }

  lemma DataNone(g: Geometry)
    ensures DataOf(g, []) == []
  {
  }

  lemma {:induction false} PrunedTrees(g: Geometry, blocks: seq<Block>, m: set<nat>, b: nat, h: nat, i: nat)
    requires h >= 1
    ensures Alike(g, m, DataOf(g, MetKids(g, blocks, m, b, h, i)), PrunedKids(g, blocks, b, h, i))
    decreases h, 0, g.nindir - i
  {
    hide Fresh, SetOf, Met, Pruned, DataOf;
    DataNone(g);
    if i < g.nindir {
      var k := Met(g, blocks, m, Cell(blocks, b, i), h - 1);
      var m1 := m + SetOf(DataOf(g, k));
      PrunedTree(g, blocks, m, Cell(blocks, b, i), h - 1);
      PrunedTrees(g, blocks, m1, b, h, i + 1);
      DataConcat(g, k, MetKids(g, blocks, m1, b, h, i + 1));
      AlikeThen(g, m, m1, DataOf(g, k), Pruned(g, blocks, Cell(blocks, b, i), h - 1),
                DataOf(g, MetKids(g, blocks, m1, b, h, i + 1)), PrunedKids(g, blocks, b, h, i + 1));
    }
  }

  lemma {:induction false} PrunedSlotsAlike(g: Geometry, blocks: seq<Block>, m: set<nat>, ip: Inode, s: nat)
    ensures Alike(g, m, DataOf(g, MetSlots(g, blocks, m, ip, s)), PrunedSlots(g, blocks, ip, s))
    decreases g.niaddr - s
  {
    hide Fresh, SetOf, Met, Pruned, DataOf;
    DataNone(g);
    if s < g.niaddr {
      var k := MetSlot(g, blocks, m, ip, s);
      var m1 := m + SetOf(DataOf(g, k));
      var p := if s < |ip.addr| then Pruned(g, blocks, ip.addr[s], Height(g, ip.large, s)) else [];
      if s < |ip.addr| {
        PrunedTree(g, blocks, m, ip.addr[s], Height(g, ip.large, s));
      }
      PrunedSlotsAlike(g, blocks, m1, ip, s + 1);
      DataConcat(g, k, MetSlots(g, blocks, m1, ip, s + 1));
      AlikeThen(g, m, m1, DataOf(g, k), p, DataOf(g, MetSlots(g, blocks, m1, ip, s + 1)),
          PrunedSlots(g, blocks, ip, s + 1));
    }
  }

  lemma {:induction false} PrunedInodesAlike(g: Geometry, blocks: seq<Block>, m: set<nat>, inodes: seq<Inode>, ino: nat)
    ensures Alike(g, m, DataOf(g, MetInodes(g, blocks, m, inodes, ino)), PrunedInodes(g, blocks, inodes, ino))
    decreases |inodes| - ino
  {
    hide Fresh, SetOf, MetSlots, PrunedSlots, DataOf;
    DataNone(g);
    if ino < |inodes| {
      var k := MetInode(g, blocks, m, inodes[ino]);
      var m1 := m + SetOf(DataOf(g, k));
      var p := if inodes[ino].kind.Data? then PrunedSlots(g, blocks, inodes[ino], 0) else [];
      PrunedSlotsAlike(g, blocks, m, inodes[ino], 0);
      PrunedInodesAlike(g, blocks, m1, inodes, ino + 1);
      DataConcat(g, k, MetInodes(g, blocks, m1, inodes, ino + 1));
      AlikeThen(g, m, m1, DataOf(g, k), p, DataOf(g, MetInodes(g, blocks, m1, inodes, ino + 1)),
          PrunedInodes(g, blocks, inodes, ino + 1));
    }
  }

  // ---- the free list ----

  /** How a walk of the free list ends: at its bottom, at a 0 above it, or with a complaint. */
  datatype End = Bottom | Sentinel | Complaint

  datatype Trail = Trail(blocks: seq<nat>, end: End)

  /** The walk down the list from the first n entries of cur.  `left` are the data blocks not
      met yet. */
  ghost function TrailFrom(g: Geometry, blocks: seq<Block>, cur: seq<nat>, n: nat, left: set<nat>): Trail
    requires n <= |cur|
    decreases left
  {
    if n == 0 then Trail([], Bottom)
    else if cur[n - 1] == 0 then Trail([], if n == 1 then Bottom else Sentinel)
    else if cur[n - 1] !in left then Trail([], Complaint)
    else
      var b := cur[n - 1];
      var rest :=
        if n > 1 then TrailFrom(g, blocks, cur, n - 1, left - {b})
        else if b >= |blocks| || |blocks[b]| < 1 + g.nicfree || blocks[b][0] > g.nicfree then Trail([], Complaint)
        else TrailFrom(g, blocks, blocks[b][1..1 + g.nicfree], blocks[b][0], left - {b});
      Trail([b] + rest.blocks, rest.end)
  }

  ghost function DataBlocks(g: Geometry): set<nat> {
    set b: nat | b < g.fsize && g.IsData(b)
  }

  /** The walk of the free list of an image. */
  ghost function FreeTrail(g: Geometry, img: Image): Trail
    requires img.sbN <= |img.sbFree|
  {
    TrailFrom(g, img.blocks, img.sbFree, img.sbN, DataBlocks(g))
  }

  /** The walk does not stop at a 0 that has entries below it. */
  ghost predicate EndsAtBottom(g: Geometry, img: Image)
    requires img.sbN <= |img.sbFree|
  {
    !FreeTrail(g, img).end.Sentinel?
  }

  /** One entry further; `rest` is the walk from there. */
  lemma TrailStep(g: Geometry, blocks: seq<Block>, cur: seq<nat>, n: nat, left: set<nat>)
    requires 1 <= n <= |cur| && cur[n - 1] != 0 && cur[n - 1] in left
    ensures var t, b := TrailFrom(g, blocks, cur, n, left), cur[n - 1];
            && (n > 1 ==>
                 var rest := TrailFrom(g, blocks, cur, n - 1, left - {b}); t == Trail([b] + rest.blocks, rest.end))
            && (n == 1 && b < |blocks| && |blocks[b]| >= 1 + g.nicfree ==>
                  if blocks[b][0] > g.nicfree then t == Trail([b], Complaint)
                  else var rest := TrailFrom(g, blocks, blocks[b][1..1 + g.nicfree], blocks[b][0], left - {b});
                       t == Trail([b] + rest.blocks, rest.end))
  {
  }

  lemma TrailStop(g: Geometry, blocks: seq<Block>, cur: seq<nat>, n: nat, left: set<nat>)
    requires 1 <= n <= |cur|
    ensures var t := TrailFrom(g, blocks, cur, n, left);
            && (cur[n - 1] == 0 ==> t == Trail([], if n == 1 then Bottom else Sentinel))
            && (cur[n - 1] != 0 && cur[n - 1] !in left ==> t == Trail([], Complaint))
  {
  }

  lemma TrailBottom(g: Geometry, blocks: seq<Block>, cur: seq<nat>, left: set<nat>)
    ensures TrailFrom(g, blocks, cur, 0, left) == Trail([], Bottom)
  {
  }
}
