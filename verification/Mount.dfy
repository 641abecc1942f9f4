/** Mounting: any image that is free of aliasing, as the checker decides it, gives the engine
    its invariant.  The ownership table is read off the image. */
module Mount {
  import opened Geometry
  import opened FreeChain
  import opened Image
  import opened Ownership
  import opened Consistency
  import opened Accounting
  import opened Barrier
  import opened Check

  /** A reference: the block, and the position it is found at. */
  datatype Place = Place(block: nat, at: Own)

  /** The places under block b at position o, in the order of the claims. */
  ghost function Places(g: Geometry, blocks: seq<Block>, b: nat, o: Own): seq<Place>
    requires o.Owned?
    decreases o.h, 1, 0
  {
    if b == 0 then [] else if o.h == 0 then [Place(b, o)] else [Place(b, o)] + KidPlaces(g, blocks, b, o, 0)
  }

  ghost function KidPlaces(g: Geometry, blocks: seq<Block>, b: nat, o: Own, i: nat): seq<Place>
    requires o.Owned? && o.h >= 1
    decreases o.h, 0, g.nindir - i
  {
    if i >= g.nindir then []
    else Places(g, blocks, Cell(blocks, b, i), Child(g, o, i)) + KidPlaces(g, blocks, b, o, i + 1)
  }

  ghost function SlotsPlaces(g: Geometry, blocks: seq<Block>, ino: nat, ip: Inode, s: nat): seq<Place>
    decreases g.niaddr - s
  {
    if s >= g.niaddr then []
    else
      var p := if s < |ip.addr| then Places(g, blocks, ip.addr[s], SlotOwner(g, ino, ip.large, s)) else [];
      p + SlotsPlaces(g, blocks, ino, ip, s + 1)
  }

  ghost function AllPlaces(g: Geometry, blocks: seq<Block>, inodes: seq<Inode>, ino: nat): seq<Place>
    decreases |inodes| - ino
  {
    if ino >= |inodes| then []
    else
      var p := if inodes[ino].kind.Data? then SlotsPlaces(g, blocks, ino, inodes[ino], 0) else [];
      p + AllPlaces(g, blocks, inodes, ino + 1)
  }

  function Blocks(p: seq<Place>): (s: seq<nat>)
    ensures |s| == |p| && forall i {:trigger s[i]} :: 0 <= i < |p| ==> s[i] == p[i].block
  {
    seq(|p|, i requires 0 <= i < |p| => p[i].block)
  }

  lemma BlocksConcat(p: seq<Place>, q: seq<Place>)
    ensures Blocks(p + q) == Blocks(p) + Blocks(q)
  {
  }

  // ---- the places are the claims, with their positions ----

  lemma {:induction false} PlacesAre(g: Geometry, blocks: seq<Block>, b: nat, o: Own)
    requires o.Owned?
    ensures Blocks(Places(g, blocks, b, o)) == Claims(g, blocks, b, o.h)
    decreases o.h, 1, 0
  {
    if b != 0 && o.h > 0 {
      KidPlacesAre(g, blocks, b, o, 0);
      BlocksConcat([Place(b, o)], KidPlaces(g, blocks, b, o, 0));
    }
  }

  lemma {:induction false} KidPlacesAre(g: Geometry, blocks: seq<Block>, b: nat, o: Own, i: nat)
    requires o.Owned? && o.h >= 1
    ensures Blocks(KidPlaces(g, blocks, b, o, i)) == KidClaims(g, blocks, b, o.h, i)
    decreases o.h, 0, g.nindir - i
  {
    if i < g.nindir {
      var c := Cell(blocks, b, i);
      PlacesAre(g, blocks, c, Child(g, o, i));
      KidPlacesAre(g, blocks, b, o, i + 1);
      BlocksConcat(Places(g, blocks, c, Child(g, o, i)), KidPlaces(g, blocks, b, o, i + 1));
    }
  }

  lemma {:induction false} SlotsPlacesAre(g: Geometry, blocks: seq<Block>, ino: nat, ip: Inode, s: nat)
    ensures Blocks(SlotsPlaces(g, blocks, ino, ip, s)) == SlotsClaims(g, blocks, ip, s)
    decreases g.niaddr - s
  {
    if s < g.niaddr {
      var here := if s < |ip.addr| then Places(g, blocks, ip.addr[s], SlotOwner(g, ino, ip.large, s)) else [];
      if s < |ip.addr| {
        PlacesAre(g, blocks, ip.addr[s], SlotOwner(g, ino, ip.large, s));
      }
      SlotsPlacesAre(g, blocks, ino, ip, s + 1);
      BlocksConcat(here, SlotsPlaces(g, blocks, ino, ip, s + 1));
    }
  }

  lemma {:induction false} AllPlacesAre(g: Geometry, blocks: seq<Block>, inodes: seq<Inode>, ino: nat)
    ensures Blocks(AllPlaces(g, blocks, inodes, ino)) == AllClaims(g, blocks, inodes, ino)
    decreases |inodes| - ino
  {
    if ino < |inodes| {
      var here := if inodes[ino].kind.Data? then SlotsPlaces(g, blocks, ino, inodes[ino], 0) else [];
      SlotsPlacesAre(g, blocks, ino, inodes[ino], 0);
      AllPlacesAre(g, blocks, inodes, ino + 1);
      BlocksConcat(here, AllPlaces(g, blocks, inodes, ino + 1));
    }
  }

  // ---- places are closed under following pointers ----

  lemma {:induction false} KidPlace(g: Geometry, blocks: seq<Block>, b: nat, o: Own, i: nat, k: nat, p: Place)
    requires o.Owned? && o.h >= 1 && i <= k < g.nindir && p in Places(g, blocks, Cell(blocks, b, k), Child(g, o, k))
    ensures p in KidPlaces(g, blocks, b, o, i)
    decreases k - i
  {
    if i < k {
      KidPlace(g, blocks, b, o, i + 1, k, p);
    }
  }

  lemma {:induction false} PlacesClosed(g: Geometry, blocks: seq<Block>, b: nat, o: Own, p: Place, k: nat)
    requires o.Owned? && p in Places(g, blocks, b, o) && p.at.Owned? && p.at.h >= 1 && k < g.nindir &&
             Cell(blocks, p.block, k) != 0
    ensures Place(Cell(blocks, p.block, k), Child(g, p.at, k)) in Places(g, blocks, b, o)
    decreases o.h, 1, 0
  {
    var q := Place(Cell(blocks, p.block, k), Child(g, p.at, k));
    if p == Place(b, o) {
      RootPlace(g, blocks, q.block, q.at);
      KidPlace(g, blocks, b, o, 0, k, q);
    } else {
      KidPlacesClosed(g, blocks, b, o, p, k, 0);
    }
  }

  lemma {:induction false} KidPlacesClosed(g: Geometry, blocks: seq<Block>, b: nat, o: Own, p: Place, k: nat, i: nat)
    requires o.Owned? && o.h >= 1 && p in KidPlaces(g, blocks, b, o, i) && p.at.Owned? && p.at.h >= 1 && k < g.nindir &&
             Cell(blocks, p.block, k) != 0
    ensures Place(Cell(blocks, p.block, k), Child(g, p.at, k)) in KidPlaces(g, blocks, b, o, i)
    decreases o.h, 0, g.nindir - i
  {
    if p in Places(g, blocks, Cell(blocks, b, i), Child(g, o, i)) {
      PlacesClosed(g, blocks, Cell(blocks, b, i), Child(g, o, i), p, k);
    } else {
      KidPlacesClosed(g, blocks, b, o, p, k, i + 1);
    }
  }

  lemma RootPlace(g: Geometry, blocks: seq<Block>, b: nat, o: Own)
    requires o.Owned? && b != 0
    ensures Place(b, o) in Places(g, blocks, b, o)
  {
  }

  lemma {:induction false} SlotsPlace(g: Geometry, blocks: seq<Block>, ino: nat, ip: Inode, s: nat, t: nat, p: Place)
    requires s <= t < g.niaddr && t < |ip.addr| && p in Places(g, blocks, ip.addr[t], SlotOwner(g, ino, ip.large, t))
    ensures p in SlotsPlaces(g, blocks, ino, ip, s)
    decreases t - s
  {
    hide Places, Base, Height;
    if s < t {
      SlotsPlace(g, blocks, ino, ip, s + 1, t, p);
    }
  }

  lemma {:induction false} SlotsPlacesClosed(g: Geometry, blocks: seq<Block>, ino: nat, ip: Inode, s: nat, p: Place,
      k: nat)
    requires p in SlotsPlaces(g, blocks, ino, ip, s) && p.at.Owned? && p.at.h >= 1 && k < g.nindir &&
             Cell(blocks, p.block, k) != 0
    ensures Place(Cell(blocks, p.block, k), Child(g, p.at, k)) in SlotsPlaces(g, blocks, ino, ip, s)
    decreases g.niaddr - s
  {
    hide Places, Base, Height;
    if s < |ip.addr| && p in Places(g, blocks, ip.addr[s], SlotOwner(g, ino, ip.large, s)) {
      PlacesClosed(g, blocks, ip.addr[s], SlotOwner(g, ino, ip.large, s), p, k);
    } else {
      SlotsPlacesClosed(g, blocks, ino, ip, s + 1, p, k);
    }
  }

  lemma {:induction false} AllPlacesClosed(g: Geometry, blocks: seq<Block>, inodes: seq<Inode>, ino: nat, p: Place,
      k: nat)
    requires p in AllPlaces(g, blocks, inodes, ino) && p.at.Owned? && p.at.h >= 1 && k < g.nindir &&
             Cell(blocks, p.block, k) != 0
    ensures Place(Cell(blocks, p.block, k), Child(g, p.at, k)) in AllPlaces(g, blocks, inodes, ino)
    decreases |inodes| - ino
  {
    hide SlotsPlaces;
    if inodes[ino].kind.Data? && p in SlotsPlaces(g, blocks, ino, inodes[ino], 0) {
      SlotsPlacesClosed(g, blocks, ino, inodes[ino], 0, p, k);
    } else {
      AllPlacesClosed(g, blocks, inodes, ino + 1, p, k);
    }
  }

  lemma {:induction false} AllPlace(g: Geometry, blocks: seq<Block>, inodes: seq<Inode>, ino: nat, k: nat, p: Place)
    requires ino <= k < |inodes| && inodes[k].kind.Data? && p in SlotsPlaces(g, blocks, k, inodes[k], 0)
    ensures p in AllPlaces(g, blocks, inodes, ino)
    decreases k - ino
  {
    hide SlotsPlaces;
    if ino < k {
      AllPlace(g, blocks, inodes, ino + 1, k, p);
    }
  }

  // ---- whose place it is ----

  lemma {:induction false} PlacesOwner(g: Geometry, blocks: seq<Block>, b: nat, o: Own)
    requires o.Owned?
    ensures forall p {:trigger p in Places(g, blocks, b, o)} :: p in Places(g, blocks, b, o) ==>
            p.at.Owned? && p.at.ino == o.ino
    decreases o.h, 1, 0
  {
    if b != 0 && o.h > 0 {
      KidPlacesOwner(g, blocks, b, o, 0);
    }
  }

  lemma {:induction false} KidPlacesOwner(g: Geometry, blocks: seq<Block>, b: nat, o: Own, i: nat)
    requires o.Owned? && o.h >= 1
    ensures forall p {:trigger p in KidPlaces(g, blocks, b, o, i)} :: p in KidPlaces(g, blocks, b, o, i) ==>
            p.at.Owned? && p.at.ino == o.ino
    decreases o.h, 0, g.nindir - i
  {
    if i < g.nindir {
      PlacesOwner(g, blocks, Cell(blocks, b, i), Child(g, o, i));
      KidPlacesOwner(g, blocks, b, o, i + 1);
    }
  }

  lemma {:induction false} SlotsOwner(g: Geometry, blocks: seq<Block>, ino: nat, ip: Inode, s: nat)
    ensures forall p {:trigger p in SlotsPlaces(g, blocks, ino, ip, s)} :: p in SlotsPlaces(g, blocks, ino, ip, s) ==>
            p.at.Owned? && p.at.ino == ino
    decreases g.niaddr - s
  {
    hide Places, Base, Height;
    if s < g.niaddr {
      if s < |ip.addr| {
        PlacesOwner(g, blocks, ip.addr[s], SlotOwner(g, ino, ip.large, s));
      }
      SlotsOwner(g, blocks, ino, ip, s + 1);
    }
  }

  /** A place belongs to an inode that claims the block. */
  lemma {:induction false} AllOwner(g: Geometry, blocks: seq<Block>, inodes: seq<Inode>, ino: nat, p: Place)
    requires ino >= 1 && p in AllPlaces(g, blocks, inodes, ino)
    ensures p.at.Owned? && 1 <= p.at.ino < |inodes| && p.block in InodeClaims(g, blocks, inodes[p.at.ino])
    decreases |inodes| - ino
  {
    hide SlotsPlaces, SlotsClaims;
    if inodes[ino].kind.Data? && p in SlotsPlaces(g, blocks, ino, inodes[ino], 0) {
      SlotsOwner(g, blocks, ino, inodes[ino], 0);
      SlotsPlacesAre(g, blocks, ino, inodes[ino], 0);
      InBlocks(SlotsPlaces(g, blocks, ino, inodes[ino], 0), p);
    } else {
      AllOwner(g, blocks, inodes, ino + 1, p);
    }
  }

  lemma InBlocks(s: seq<Place>, p: Place)
    requires p in s
    ensures p.block in Blocks(s)
  {
    var i :| 0 <= i < |s| && s[i] == p;
    assert Blocks(s)[i] == p.block;
  }

  lemma OnePlace(s: seq<Place>, p: Place, q: Place)
    requires Distinct(Blocks(s)) && p in s && q in s && p.block == q.block
    ensures p == q
  {
    var i :| 0 <= i < |s| && s[i] == p;
    var j :| 0 <= j < |s| && s[j] == q;
    assert Blocks(s)[i] == Blocks(s)[j];
  }

  // ---- the table ----

  ghost function Label(segs: seq<seq<nat>>, places: seq<Place>, b: nat): Own {
    if Listed(segs, b) then
      var j, i :| IsEntry(segs, j, i) && segs[j][i] == b;
      Free(j, i)
    else if p :| p in places && p.block == b then p.at
    else Lost
  }

  ghost function TableOf(g: Geometry, segs: seq<seq<nat>>, places: seq<Place>): (tab: Table)
    ensures |tab| == g.fsize && forall b {:trigger tab[b]} :: 0 <= b < g.fsize ==> tab[b] == Label(segs, places, b)
  {
    seq(g.fsize, b requires 0 <= b < g.fsize => Label(segs, places, b))
  }

  /** What a label says: the places are distinct and none of them is listed. */
  lemma LabelPlace(segs: seq<seq<nat>>, places: seq<Place>, p: Place)
    requires Distinct(Blocks(places)) && p in places && !Listed(segs, p.block)
    ensures Label(segs, places, p.block) == p.at
  {
    forall q | q in places && q.block == p.block
      ensures q == p
    {
      OnePlace(places, p, q);
    }
  }

  lemma LabelOwned(segs: seq<seq<nat>>, places: seq<Place>, b: nat)
    requires Label(segs, places, b).Owned?
    ensures Place(b, Label(segs, places, b)) in places && !Listed(segs, b)
  {
  }

  lemma LabelFree(segs: seq<seq<nat>>, places: seq<Place>, j: nat, i: nat)
    requires DistinctEntries(segs) && IsEntry(segs, j, i)
    ensures Label(segs, places, segs[j][i]) == Free(j, i)
  {
    assert Listed(segs, segs[j][i]);
  }

  lemma LabelListed(segs: seq<seq<nat>>, places: seq<Place>, b: nat)
    requires forall p :: p in places ==> p.at.Owned?
    ensures Label(segs, places, b).Free? <==> Listed(segs, b)
    ensures Label(segs, places, b).Free? ==>
              var o := Label(segs, places, b); IsEntry(segs, o.seg, o.idx) && segs[o.seg][o.idx] == b
    ensures !Label(segs, places, b).Alloc?
  {
  }

  /** An image free of aliasing, of the right size, with the list and the places read off it. */
  ghost predicate Readable(g: Geometry, img: Image, segs: seq<seq<nat>>, places: seq<Place>) {
    && Sized(g, img) && Intact(g, img.blocks, img.sbN, img.sbFree, segs)
    && places == AllPlaces(g, img.blocks, img.inodes, 1) && Distinct(Blocks(places))
    && (forall p {:trigger p in places} :: p in places ==> p.at.Owned? && g.IsData(p.block) && !Listed(segs, p.block))
  }

  lemma MountTrees(g: Geometry, img: Image, segs: seq<seq<nat>>, places: seq<Place>)
    requires Readable(g, img, segs, places)
    ensures TreesOk(g, img.blocks, TableOf(g, segs, places)) && InodesOk(g, TableOf(g, segs, places), img.inodes)
  {
    hide Label, AllPlaces, Listed, Intact, Base, Height;
    var tab := TableOf(g, segs, places);
    forall b: nat, i: nat {:trigger Cell(img.blocks, b, i)} | IsIndirect(tab, b) && i < g.nindir
      ensures RefOk(g, tab, Cell(img.blocks, b, i), Child(g, tab[b], i))
    {
      var c := Cell(img.blocks, b, i);
      LabelOwned(segs, places, b);
      if c != 0 {
        AllPlacesClosed(g, img.blocks, img.inodes, 1, Place(b, tab[b]), i);
        LabelPlace(segs, places, Place(c, Child(g, tab[b], i)));
      }
    }
    forall ino {:trigger img.inodes[ino]} | 1 <= ino < |img.inodes|
      ensures InodeOk(g, tab, ino, img.inodes[ino])
    {
      MountInode(g, img, segs, places, ino);
    }
  }

  lemma MountInode(g: Geometry, img: Image, segs: seq<seq<nat>>, places: seq<Place>, ino: nat)
    requires Readable(g, img, segs, places) && 1 <= ino < |img.inodes|
    ensures InodeOk(g, TableOf(g, segs, places), ino, img.inodes[ino])
  {
    hide Label, AllPlaces, Listed, Intact, Base, Height, SlotsPlaces, Places;
    var tab, ip := TableOf(g, segs, places), img.inodes[ino];
    if ip.kind.Data? {
      forall s {:trigger ip.addr[s]} | 0 <= s < g.niaddr
        ensures RefOk(g, tab, ip.addr[s], SlotOwner(g, ino, ip.large, s))
      {
        var p := Place(ip.addr[s], SlotOwner(g, ino, ip.large, s));
        if p.block != 0 {
          RootPlace(g, img.blocks, p.block, p.at);
          SlotsPlace(g, img.blocks, ino, ip, 0, s, p);
          AllPlace(g, img.blocks, img.inodes, 1, ino, p);
          LabelPlace(segs, places, p);
        }
      }
    }
  }

  lemma MountFiled(g: Geometry, img: Image, segs: seq<seq<nat>>, places: seq<Place>)
    requires Readable(g, img, segs, places)
    ensures Filed(g, TableOf(g, segs, places), segs)
  {
    hide Label, AllPlaces, Listed, Blocks;
    var tab := TableOf(g, segs, places);
    forall j, i {:trigger segs[j][i]} | IsEntry(segs, j, i)
      ensures g.IsData(segs[j][i]) && tab[segs[j][i]] == Free(j, i)
    {
      LabelFree(segs, places, j, i);
    }
    forall b: nat {:trigger tab[b]} | g.IsData(b) && tab[b].Free?
      ensures IsEntry(segs, tab[b].seg, tab[b].idx) && segs[tab[b].seg][tab[b].idx] == b
    {
      LabelListed(segs, places, b);
    }
  }

  lemma MountGuarded(g: Geometry, img: Image, segs: seq<seq<nat>>, places: seq<Place>)
    requires Readable(g, img, segs, places)
    ensures Guarded(g, State(img, img.sbN, img.sbFree, false), World(segs, segs, TableOf(g, segs, places), false))
  {
    hide Label, AllPlaces, Listed;
    var tab := TableOf(g, segs, places);
    forall b {:trigger tab[b]} | 0 <= b < |tab| && IsNode(segs, b)
      ensures tab[b].Lost? || (tab[b].Free? && tab[b].idx == 0)
    {
      var j :| 1 <= j < |segs| && |segs[j]| >= 1 && segs[j][0] == b;
      assert IsEntry(segs, j, 0);
      LabelFree(segs, places, j, 0);
    }
    forall b {:trigger tab[b]} | 0 <= b < |tab| && Listed(segs, b)
      ensures tab[b].Free?
    {
      LabelListed(segs, places, b);
    }
    forall x: nat | Claimed(g, img.blocks, img.inodes, x)
      ensures !Listed(segs, x)
    {
      var k: nat, s: nat :| ClaimedAt(g, img.blocks, img.inodes, x, k, s);
      ClaimedIsMember(g, img.blocks, img.inodes, x, k, s);
      AllPlacesAre(g, img.blocks, img.inodes, 1);
      HasPlace(places, x);
    }
  }

  lemma HasPlace(places: seq<Place>, x: nat)
    requires x in Blocks(places)
    ensures exists p {:trigger p in places} :: p in places && p.block == x
  {
    var i :| 0 <= i < |places| && Blocks(places)[i] == x;
    assert places[i] in places;
  }

  /** Mounting an image free of aliasing: the volume is sound, covered and accounted for, and
      what is neither listed nor claimed counts as leaked. */
  lemma Mounted(g: Geometry, img: Image) returns (w: World)
    requires Sized(g, img) && NeverD(g, img)
    ensures !w.breach && w.segsD == w.segs && Inv(g, State(img, img.sbN, img.sbFree, false), w) && Clean(g, img, w.tab)
  {
    hide Listed, AllClaims, AllPlaces, Label;
    var segs :| Intact(g, img.blocks, img.sbN, img.sbFree, segs)
                && var claims := AllClaims(g, img.blocks, img.inodes, 1);
                Distinct(claims) && forall x :: x in claims ==> g.IsData(x) && !Listed(segs, x);
    var places := AllPlaces(g, img.blocks, img.inodes, 1);
    AllPlacesAre(g, img.blocks, img.inodes, 1);
    forall p {:trigger p in places} | p in places
      ensures p.at.Owned? && g.IsData(p.block) && !Listed(segs, p.block)
    {
      AllOwner(g, img.blocks, img.inodes, 1, p);
      InBlocks(places, p);
    }
    assert Readable(g, img, segs, places);
    w := World(segs, segs, TableOf(g, segs, places), false);
    hide Readable, Intact;
    MountedSound(g, img, segs, places);
    MountGuarded(g, img, segs, places);
    MountClean(g, img, segs, places);
  }

  lemma MountedSound(g: Geometry, img: Image, segs: seq<seq<nat>>, places: seq<Place>)
    requires Readable(g, img, segs, places)
    ensures Sound(g, State(img, img.sbN, img.sbFree, false), World(segs, segs, TableOf(g, segs, places), false))
  {
    MountTrees(g, img, segs, places);
    MountFiled(g, img, segs, places);
    hide TreesOk, InodesOk, Filed, Label, AllPlaces, Listed, DistinctEntries;
  }

  lemma MountClean(g: Geometry, img: Image, segs: seq<seq<nat>>, places: seq<Place>)
    requires Readable(g, img, segs, places)
    ensures Clean(g, img, TableOf(g, segs, places))
  {
    hide Label, AllPlaces, Listed, Intact, InodeClaims;
    var tab := TableOf(g, segs, places);
    forall b: nat {:trigger tab[b]} | b < |tab|
      ensures !tab[b].Alloc? && (tab[b].Owned? ==> Held(g, img, tab, b))
    {
      LabelListed(segs, places, b);
      if tab[b].Owned? {
        LabelOwned(segs, places, b);
        AllOwner(g, img.blocks, img.inodes, 1, Place(b, tab[b]));
      }
    }
  }
}
