/** Between operations the data area is partitioned, and which writes the flush barrier
    covers, in terms a caller can check. */
module Conservation {
  import opened Geometry
  import opened FreeChain
  import opened Image
  import opened Ownership
  import opened Consistency
  import opened Barrier
  import opened Mapping
  import opened Descent
  import opened Accounting

  /** Every block of the data area is listed free, claimed by an inode, or leaked: exactly
      one of the three.  No block is listed twice, and none is claimed twice. */
  lemma Partition(g: Geometry, st: State, w: World, b: nat)
    requires Sound(g, st, w) && Clean(g, st.disk, w.tab) && g.IsData(b)
    ensures Listed(w.segs, b) <==> w.tab[b].Free?
    ensures b in AllClaims(g, st.disk.blocks, st.disk.inodes, 1) <==> w.tab[b].Owned?
    ensures !Listed(w.segs, b) && b !in AllClaims(g, st.disk.blocks, st.disk.inodes, 1) <==> w.tab[b].Lost?
    ensures Distinct(AllClaims(g, st.disk.blocks, st.disk.inodes, 1)) && DistinctEntries(w.segs)
  {
    hide AllClaims, InodeClaims;
    AllDistinct(g, st.disk.blocks, w.tab, st.disk.inodes, 1);
    assert Stays(g, st.disk, w.tab, b);
    if w.tab[b].Owned? {
      InodeHas(g, st.disk.blocks, st.disk.inodes, b, 1, w.tab[b].ino);
    }
    if w.tab[b].Free? {
      assert IsEntry(w.segs, w.tab[b].seg, w.tab[b].idx) && w.segs[w.tab[b].seg][w.tab[b].idx] == b;
    }
  }

  /** A reference on disk to an indirect block over lbn comes from the slot that lbn falls in. */
  lemma CoverSlot(g: Geometry, st: State, w: World, x: nat, ino: nat, lbn: nat, s: nat)
    requires Sound(g, st, w) && Claimed(g, st.disk.blocks, st.disk.inodes, x)
    requires x < |w.tab| && Covers(g, w.tab[x], lbn) && w.tab[x].ino == ino
    requires 1 <= ino < |st.disk.inodes|
    requires var ip := st.disk.inodes[ino];
             Base(g, ip.large, s) <= lbn < Base(g, ip.large, s) + Span(g, ip.large, s)
    ensures var ip := st.disk.inodes[ino];
            ip.kind.Data? && s < |ip.addr| && ip.addr[s] != 0 && Height(g, ip.large, s) >= 1
  {
    var k: nat, t: nat :| ClaimedAt(g, st.disk.blocks, st.disk.inodes, x, k, t);
    CoverAt(g, st, w, x, k, t);
    hide Sound, Claimed, ClaimedAt, Pow, Base, Height;
    var ip := st.disk.inodes[k];
    if s < t {
      BaseMonotone(g, ip.large, s, t);
    } else if t < s {
      BaseMonotone(g, ip.large, t, s);
    }
  }

  /** What is claimed through a slot lies in the slot's range, no higher than the slot. */
  lemma CoverAt(g: Geometry, st: State, w: World, x: nat, k: nat, t: nat)
    requires Sound(g, st, w) && ClaimedAt(g, st.disk.blocks, st.disk.inodes, x, k, t) && x < |w.tab|
    ensures var ip, o := st.disk.inodes[k], SlotOwner(g, k, st.disk.inodes[k].large, t);
            && ip.kind.Data? && t < |ip.addr| && ip.addr[t] != 0 && Within(g, w.tab, x, o)
            && w.tab[x].ino == k && w.tab[x].h <= o.h && Span(g, ip.large, t) == Pow(g.nindir, o.h)
  {
    var ip := st.disk.inodes[k];
    assert InodeOk(g, w.tab, k, ip);
    var o := SlotOwner(g, k, ip.large, t);
    hide Base, Height;
    ClaimsUnder(g, st.disk.blocks, w.tab, ip.addr[t], o);
    CoverUnder(g, st.disk.blocks, w.tab, ip.addr[t], o, x);
  }

  predicate Within(g: Geometry, tab: Table, x: nat, o: Own)
    requires o.Owned?
  {
    x < |tab| && tab[x].Owned? && o.base <= tab[x].base &&
        tab[x].base + Pow(g.nindir, tab[x].h) <= o.base + Pow(g.nindir, o.h)
  }

  lemma WithinChild(g: Geometry, tab: Table, x: nat, o: Own, i: nat)
    requires o.Owned? && o.h >= 1 && i < g.nindir && Within(g, tab, x, Child(g, o, i))
    ensures Within(g, tab, x, o)
  {
    ChildSpan(g, o, i);
  }

  /** The range of an indirect block of a subtree is within the subtree's range. */
  lemma {:induction false} CoverUnder(g: Geometry, blocks: seq<Block>, tab: Table, b: nat, o: Own, x: nat)
    requires g.Valid() && TreesOk(g, blocks, tab) && o.Owned? && RefOk(g, tab, b, o) && x in Claims(g, blocks, b, o.h)
    ensures Within(g, tab, x, o)
    decreases o.h, 1, 0
  {
    if x != b {
      CoverKids(g, blocks, tab, b, o, x, 0);
    }
  }

  lemma EntryRef(g: Geometry, blocks: seq<Block>, tab: Table, b: nat, i: nat)
    requires TreesOk(g, blocks, tab) && IsIndirect(tab, b) && i < g.nindir
    ensures RefOk(g, tab, Cell(blocks, b, i), Child(g, tab[b], i))
  {
  }

  lemma {:induction false} CoverKids(g: Geometry, blocks: seq<Block>, tab: Table, b: nat, o: Own, x: nat, i: nat)
    requires g.Valid() && TreesOk(g, blocks, tab) && o.Owned? && o.h >= 1 && b != 0 && RefOk(g, tab, b, o) &&
             x in KidClaims(g, blocks, b, o.h, i)
    ensures Within(g, tab, x, o)
    decreases o.h, 0, g.nindir - i
  {
    hide TreesOk, Pow, Within, Claims;
    var c := Cell(blocks, b, i);
    assert RefOk(g, tab, c, Child(g, o, i)) by {
      EntryRef(g, blocks, tab, b, i);
    }
    if x in Claims(g, blocks, c, o.h - 1) {
      CoverUnder(g, blocks, tab, c, Child(g, o, i), x);
      WithinChild(g, tab, x, o, i);
    } else {
      CoverKids(g, blocks, tab, b, o, x, i + 1);
    }
  }

  /** Growth into a direct slot, or into a slot that is empty on disk, is covered. */
  lemma HiddenWhen(g: Geometry, st: State, w: World, ino: nat, lbn: nat, s: nat)
    requires Sound(g, st, w) && 1 <= ino < |st.disk.inodes|
    requires var ip := st.disk.inodes[ino];
             && Base(g, ip.large, s) <= lbn < Base(g, ip.large, s) + Span(g, ip.large, s)
             && (SlotLevel(g, ip.large, s) < 0 || s >= |ip.addr| || ip.addr[s] == 0)
    ensures Hidden(g, st.disk, w.tab, ino, lbn)
  {
    hide Claimed;
    forall x: nat {:trigger w.tab[x]} | x < |w.tab| && Covers(g, w.tab[x], lbn) && w.tab[x].ino == ino
      ensures !Claimed(g, st.disk.blocks, st.disk.inodes, x)
    {
      if Claimed(g, st.disk.blocks, st.disk.inodes, x) {
        CoverSlot(g, st, w, x, ino, lbn, s);
      }
    }
  }

  /** A small file of an edition with the large flag has no indirect block on disk, so its
      growth, promotion included, is covered. */
  lemma HiddenSmall(g: Geometry, st: State, w: World, ino: nat, lbn: nat)
    requires Sound(g, st, w) && 1 <= ino < |st.disk.inodes| && g.ilarg && !st.disk.inodes[ino].large
    ensures Hidden(g, st.disk, w.tab, ino, lbn)
  {
    var ip := st.disk.inodes[ino];
    forall x: nat {:trigger w.tab[x]} | x < |w.tab| && Covers(g, w.tab[x], lbn) && w.tab[x].ino == ino
      ensures !Claimed(g, st.disk.blocks, st.disk.inodes, x)
    {
      if Claimed(g, st.disk.blocks, st.disk.inodes, x) {
        var k: nat, t: nat :| ClaimedAt(g, st.disk.blocks, st.disk.inodes, x, k, t);
        assert InodeOk(g, w.tab, k, st.disk.inodes[k]);
        ClaimsUnder(g, st.disk.blocks, w.tab, st.disk.inodes[k].addr[t], SlotOwner(g, k, st.disk.inodes[k].large, t));
      }
    }
  }
}
