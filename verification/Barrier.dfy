/** What the flush barrier does not cover: a pointer stored into an indirect block that the
    image on disk already reaches, to a block the list on disk still offers, makes that
    image class D. */
module Barrier {
  import opened Geometry
  import opened FreeChain
  import opened Image
  import opened Ownership
  import opened Consistency
  import opened TreeSteps

  /** The image determines its free list. */
  lemma {:induction false} ListUnique(g: Geometry, blocks: seq<Block>, a: seq<seq<nat>>, b: seq<seq<nat>>)
    requires g.Valid() && Segments(g, a) && Segments(g, b) && Linked(blocks, a) && Linked(blocks, b)
    requires a[|a| - 1] == b[|b| - 1]
    ensures a == b
    decreases |a|
  {
    var m, n := |a| - 1, |b| - 1;
    if m > 0 {
      assert IsEntry(a, m, 0);
      assert g.IsData(b[n][0]);
    }
    if n > 0 {
      assert IsEntry(b, n, 0);
      assert g.IsData(a[m][0]);
    }
    if m > 0 && n > 0 {
      var c := a[m][0];
      assert Stored(blocks, c, a[m - 1]) && Stored(blocks, c, b[n - 1]);
      assert a[m - 1] == b[n - 1];
      PrefixList(g, blocks, a);
      PrefixList(g, blocks, b);
      ListUnique(g, blocks, a[..m], b[..n]);
      assert a == a[..m] + [a[m]] && b == b[..n] + [b[n]];
    }
  }

  lemma PrefixList(g: Geometry, blocks: seq<Block>, a: seq<seq<nat>>)
    requires Segments(g, a) && Linked(blocks, a) && |a| >= 2
    ensures Segments(g, a[..|a| - 1]) && Linked(blocks, a[..|a| - 1])
  {
    var p := a[..|a| - 1];
    forall j, i | IsEntry(p, j, i)
      ensures g.IsData(p[j][i])
    {
      assert IsEntry(a, j, i);
    }
  }

  /** The claims of a subtree after entry pi of its block p came to hold `next`. */
  lemma {:induction false} LinkClaims(g: Geometry, blocks: seq<Block>, blocks': seq<Block>, tab: Table,
                                      b: nat, o: Own, p: nat, pi: nat, next: nat)
    requires g.Valid() && TreesOk(g, blocks, tab) && Links(g, tab, blocks, blocks', p, pi, next)
    requires o.Owned? && RefOk(g, tab, b, o) && p in Claims(g, blocks, b, o.h)
    ensures next in Claims(g, blocks', b, o.h)
    decreases o.h, 1, 0
  {
    if b == p {
      KidClaimsHas(g, blocks', b, o.h, 0, pi, next);
    } else {
      LinkKidClaims(g, blocks, blocks', tab, b, o, p, pi, next, 0);
    }
  }

  lemma {:induction false} LinkKidClaims(g: Geometry, blocks: seq<Block>, blocks': seq<Block>, tab: Table,
                                         b: nat, o: Own, p: nat, pi: nat, next: nat, i: nat)
    requires g.Valid() && TreesOk(g, blocks, tab) && Links(g, tab, blocks, blocks', p, pi, next)
    requires o.Owned? && o.h >= 1 && b != 0 && b != p && RefOk(g, tab, b, o) && p in KidClaims(g, blocks, b, o.h, i)
    ensures next in KidClaims(g, blocks', b, o.h, i)
    decreases o.h, 0, g.nindir - i
  {
    var c := Cell(blocks, b, i);
    assert Cell(blocks', b, i) == c;
    if p in Claims(g, blocks, c, o.h - 1) {
      LinkClaims(g, blocks, blocks', tab, c, Child(g, o, i), p, pi, next);
    } else {
      LinkKidClaims(g, blocks, blocks', tab, b, o, p, pi, next, i + 1);
    }
  }

  lemma {:induction false} KidClaimsHas(g: Geometry, blocks: seq<Block>, b: nat, h: nat, i: nat, k: nat, x: nat)
    requires h >= 1 && i <= k < g.nindir && Cell(blocks, b, k) == x && x != 0
    ensures x in KidClaims(g, blocks, b, h, i)
    decreases k - i
  {
    if i < k {
      KidClaimsHas(g, blocks, b, h, i + 1, k, x);
    } else {
      assert x in Claims(g, blocks, x, h - 1);
    }
  }

  lemma {:induction false} InodeHas(g: Geometry, blocks: seq<Block>, inodes: seq<Inode>, x: nat, ino: nat, k: nat)
    requires ino <= k < |inodes| && x in InodeClaims(g, blocks, inodes[k])
    ensures x in AllClaims(g, blocks, inodes, ino)
    decreases k - ino
  {
    hide InodeClaims;
    if ino < k {
      InodeHas(g, blocks, inodes, x, ino + 1, k);
    }
  }

  lemma ClaimedIsMember(g: Geometry, blocks: seq<Block>, inodes: seq<Inode>, x: nat, k: nat, s: nat)
    requires ClaimedAt(g, blocks, inodes, x, k, s)
    ensures x in AllClaims(g, blocks, inodes, 1)
  {
    SlotsHas(g, blocks, inodes[k], x, 0, s);
    InodeHas(g, blocks, inodes, x, 1, k);
  }

  lemma LinkIsClaimed(g: Geometry, disk: Image, blocks': seq<Block>, tab: Table, p: nat, pi: nat, next: nat)
    requires g.Valid() && TreesOk(g, disk.blocks, tab) && InodesOk(g, tab, disk.inodes)
    requires Links(g, tab, disk.blocks, blocks', p, pi, next)
    requires Claimed(g, disk.blocks, disk.inodes, p)
    ensures next in AllClaims(g, blocks', disk.inodes, 1)
  {
    var k: nat, s: nat :| ClaimedAt(g, disk.blocks, disk.inodes, p, k, s);
    var ip := disk.inodes[k];
    assert InodeOk(g, tab, k, ip);
    LinkClaims(g, disk.blocks, blocks', tab, ip.addr[s], SlotOwner(g, k, ip.large, s), p, pi, next);
    assert ClaimedAt(g, blocks', disk.inodes, next, k, s);
    ClaimedIsMember(g, blocks', disk.inodes, next, k, s);
  }

  /** A block both claimed and on the list makes the image class D. */
  lemma AliasIsD(g: Geometry, disk: Image, segs: seq<seq<nat>>, x: nat)
    requires g.Valid() && Segments(g, segs) && Cached(segs, disk.sbN, disk.sbFree) && Linked(disk.blocks, segs)
    requires Listed(segs, x) && x in AllClaims(g, disk.blocks, disk.inodes, 1)
    ensures !NeverD(g, disk)
  {
    hide AllClaims, Listed, DistinctEntries;
    forall other | Intact(g, disk.blocks, disk.sbN, disk.sbFree, other)
      ensures other == segs
    {
      ListUnique(g, disk.blocks, other, segs);
    }
  }

  /** Storing past the barrier: the image just written is class D. */
  lemma BreachIsD(g: Geometry, st: State, w: World, p: nat, pi: nat, next: nat, st': State)
    requires Sound(g, st, w) && Guarded(g, st, w)
    requires g.IsData(p) && IsIndirect(w.tab, p) && pi < g.nindir && Cell(st.disk.blocks, p, pi) == 0
    requires g.IsData(next) && next != p && NoEntries(g, st.disk.blocks, next)
    requires st' == st.(disk := st.disk.(blocks := st.disk.blocks[p := SetCell(st.disk.blocks[p], pi, next)]))
    requires Claimed(g, st.disk.blocks, st.disk.inodes, p) && Listed(w.segsD, next)
    ensures !NeverD(g, st'.disk)
  {
    hide Claimed, Listed, NeverD, Filed, InodesOk, DistinctEntries, AllClaims, Unaliased, Pow;
    var disk, disk' := st.disk, st'.disk;
    UpdateCell(disk.blocks, p, SetCell(disk.blocks[p], pi, next));
    assert Links(g, w.tab, disk.blocks, disk'.blocks, p, pi, next);
    LinkIsClaimed(g, disk, disk'.blocks, w.tab, p, pi, next);
    LinkedAgree(disk.blocks, disk'.blocks, w.segsD);
    AliasIsD(g, disk', w.segsD, next);
  }
}
