/** Salvage as fsck runs it: what a rebuilt list looks like to a walk that follows, and which
    images a salvage repairs. */
module Fsck {
  import opened Device
  import opened Geometry
  import opened FreeChain
  import opened Image
  import opened Consistency
  import opened CheckSpec
  import opened Walks
  import opened FreeWalk
  import opened Barrier
  import opened Check
  import opened Salvage
  import opened Engine

  /** The volume with the list in core, as the walk of a mounted volume reads it. */
  ghost function InCore(st: State): Image {
    st.disk.(sbN := st.nfree, sbFree := st.free)
  }

  lemma InCoreSized(g: Geometry, img: Image, st: State, w: World)
    requires Sized(g, img) && st.disk.inodes == img.inodes && ListOk(g, st, w)
    ensures Sized(g, InCore(st)) && Intact(g, st.disk.blocks, st.nfree, st.free, w.segs)
  {
    hide Linked, Segments;
  }

  /** A walk of a list of exactly the unused blocks: it ends at the bottom, meets no used block
      and leaves none unmet. */
  lemma ListedTrail(g: Geometry, img: Image, bits: seq<bool>, segs: seq<seq<nat>>)
    requires Sized(g, img) && Intact(g, img.blocks, img.sbN, img.sbFree, segs)
    requires forall b: nat :: g.IsData(b) ==> (Listed(segs, b) <==> !Bit(g, bits, b))
    ensures var trail := FreeTrail(g, img);
            trail.end.Bottom? && forall b: nat :: b in trail.blocks <==> g.IsData(b) && !Bit(g, bits, b)
  {
    hide FreeTrail, Intact, Listed;
    var t := TrailIntact(g, img);
    SameList(g, img, segs, t);
  }

  lemma SameList(g: Geometry, img: Image, s: seq<seq<nat>>, t: seq<seq<nat>>)
    requires g.Valid() && Intact(g, img.blocks, img.sbN, img.sbFree, s) && Intact(g, img.blocks, img.sbN, img.sbFree, t)
    ensures s == t
  {
    ListUnique(g, img.blocks, s, t);
  }

  /** Rebuild the free list from any map of used blocks, then walk it on that map: without
      faults the walk has nothing to report, and no block is missing. */
  method RebuildAndWalk(fs: Edition, bits: seq<bool>, interleave: bool, m: nat, n: nat, fails: nat -> bool)
    returns (nfree: nat, free: nat, dup: nat, errors: nat, missing: nat)
    requires Shape(fs.g, fs.St()) && Sized(fs.g, fs.disk) && |bits| == fs.g.fsize - fs.g.dstart
    modifies fs, fs.free
    ensures fs.Faults() == old(fs.Faults()) && Reliable(fails) ==>
              && errors == dup == missing == 0
              && free == nfree == fs.tfree && nfree + |MarkedIn(fs.g, bits)| == fs.g.fsize - fs.g.dstart
    ensures fs.Faults() == old(fs.Faults()) ==>
              Sized(fs.g, InCore(fs.St())) && var trail := FreeTrail(fs.g, InCore(fs.St()));
              trail.end.Bottom? && forall b: nat :: b in trail.blocks <==> fs.g.IsData(b) && !Bit(fs.g, bits, b)
    ensures Reliable(fs.fails) ==> fs.Faults() == old(fs.Faults())
  {
    hide MarkedIn, Intact, Listed, ListOk, Bit, Counts, FreeTrail, Reliable, Sized, Distinct;
    ghost var img, g := fs.disk, fs.g;
    ghost var w;
    fs.Unfailing();
    nfree, w := Makefree(fs, bits, interleave, m, n);
    fs.Unfailing();
    InCoreSized(g, img, fs.St(), w);
    var core := fs.disk.(sbN := fs.nfree, sbFree := fs.free[..]);
    var cx := new Checker(fs.g, core, fails);
    cx.Load(bits);
    ghost var refs1, u1 := cx.refs, cx.used;
    ghost var walked := cx.WalkFree();
    missing := cx.Missing();
    free, dup, errors := cx.free, cx.dup, cx.errors;
    if fs.Faults() == old(fs.Faults()) {
      ListedTrail(g, core, bits, w.segs);
    }
    if fs.Faults() == old(fs.Faults()) && Reliable(fails) {
      WalkCounts(g, refs1, MarkedIn(g, bits), u1, walked, cx.refs, cx.Marked(), free, dup);
    }
  }

  /** A walk over exactly the unmarked data blocks: each counts as free, and all are marked. */
  lemma WalkCounts(g: Geometry, refs: seq<nat>, m: set<nat>, used: nat, walked: seq<nat>, refs': seq<nat>, m': set<nat>,
      free: nat, dup: nat)
    requires g.dstart <= g.fsize && Counts(g, refs, m, used, 0, 0, 0) && Counts(g, refs', m', used, free, dup, 0) &&
             refs' == refs + walked
    requires Distinct(walked) && forall b: nat :: b in walked <==> g.IsData(b) && b !in m
    ensures used == |m| && dup == 0 && forall b: nat :: g.IsData(b) ==> b in m'
  {
    hide DataOf;
    PassMarking(g, refs, m, used, 0, 0, 0, walked, refs', m', used, free, dup, 0);
  }

  // ---- which images a salvage repairs ----

  /** Both images hold the same in the blocks of m. */
  ghost predicate Agree(a: seq<Block>, b: seq<Block>, m: set<nat>) {
    |a| == |b| && forall x {:trigger a[x]} :: x in m && x < |a| ==> b[x] == a[x]
  }

  /** The references met depend on the data blocks met alone. */
  lemma {:induction false} MetSame(g: Geometry, a: seq<Block>, c: seq<Block>, m: set<nat>, b: nat, h: nat,
      all: set<nat>)
    requires Agree(a, c, all) && SetOf(DataOf(g, Met(g, a, m, b, h))) <= all
    ensures Met(g, c, m, b, h) == Met(g, a, m, b, h)
    decreases h, 1, 0
  {
    hide DataOf;
    if b != 0 && h > 0 && g.IsData(b) && b !in m {
      DataMarked(g, [b], MetKids(g, a, m + {b}, b, h, 0));
      DataOne(g, b);
      assert b in [b];
      MetKidsSame(g, a, c, m + {b}, b, h, 0, all);
    }
  }

  lemma {:induction false} MetKidsSame(g: Geometry, a: seq<Block>, c: seq<Block>, m: set<nat>, b: nat, h: nat, i: nat,
      all: set<nat>)
    requires h >= 1 && b in all && Agree(a, c, all) && SetOf(DataOf(g, MetKids(g, a, m, b, h, i))) <= all
    ensures MetKids(g, c, m, b, h, i) == MetKids(g, a, m, b, h, i)
    decreases h, 0, g.nindir - i
  {
    hide DataOf, Met, SetOf;
    if i < g.nindir {
      assert Cell(c, b, i) == Cell(a, b, i);
      var k := Met(g, a, m, Cell(a, b, i), h - 1);
      var m1 := m + SetOf(DataOf(g, k));
      DataMarked(g, k, MetKids(g, a, m1, b, h, i + 1));
      MetSame(g, a, c, m, Cell(a, b, i), h - 1, all);
      MetKidsSame(g, a, c, m1, b, h, i + 1, all);
    }
  }

  lemma {:induction false} MetSlotsSame(g: Geometry, a: seq<Block>, c: seq<Block>, m: set<nat>, ip: Inode, s: nat,
      all: set<nat>)
    requires Agree(a, c, all) && SetOf(DataOf(g, MetSlots(g, a, m, ip, s))) <= all
    ensures MetSlots(g, c, m, ip, s) == MetSlots(g, a, m, ip, s)
    decreases g.niaddr - s
  {
    hide DataOf, Met, SetOf;
    if s < g.niaddr {
      var k := MetSlot(g, a, m, ip, s);
      var m1 := m + SetOf(DataOf(g, k));
      DataMarked(g, k, MetSlots(g, a, m1, ip, s + 1));
      if s < |ip.addr| {
        MetSame(g, a, c, m, ip.addr[s], Height(g, ip.large, s), all);
      }
      MetSlotsSame(g, a, c, m1, ip, s + 1, all);
    }
  }

  lemma {:induction false} MetInodesSame(g: Geometry, a: seq<Block>, c: seq<Block>, m: set<nat>, inodes: seq<Inode>,
      ino: nat, all: set<nat>)
    requires Agree(a, c, all) && SetOf(DataOf(g, MetInodes(g, a, m, inodes, ino))) <= all
    ensures MetInodes(g, c, m, inodes, ino) == MetInodes(g, a, m, inodes, ino)
    decreases |inodes| - ino
  {
    hide DataOf, MetSlots, SetOf;
    if ino < |inodes| {
      var k := MetInode(g, a, m, inodes[ino]);
      var m1 := m + SetOf(DataOf(g, k));
      DataMarked(g, k, MetInodes(g, a, m1, inodes, ino + 1));
      if inodes[ino].kind.Data? {
        MetSlotsSame(g, a, c, m, inodes[ino], 0, all);
      }
      MetInodesSame(g, a, c, m1, inodes, ino + 1, all);
    }
  }

  /** After a salvage from the marks of an inode pass, the same references are met, and the
      image is free of aliasing exactly if they were distinct data blocks. */
  lemma SalvageVerdict(g: Geometry, img: Image, img': Image, bits: seq<bool>, segs: seq<seq<nat>>)
    requires Sized(g, img) && |img'.blocks| == g.fsize && img'.inodes == img.inodes
    requires MarkedIn(g, bits) == SetOf(DataOf(g, MetAll(g, img)))
    requires forall b: nat :: b < g.fsize && !(g.IsData(b) && !Bit(g, bits, b)) ==> img'.blocks[b] == img.blocks[b]
    requires Intact(g, img'.blocks, img'.sbN, img'.sbFree, segs)
    requires forall b: nat :: g.IsData(b) ==> (Listed(segs, b) <==> !Bit(g, bits, b))
    ensures MetAll(g, img') == MetAll(g, img)
    ensures NeverD(g, img') <==> Fresh(g, {}, AllClaims(g, img.blocks, img.inodes, 1))
  {
    hide AllClaims, Listed, Intact, MetInodes, DataOf, Fresh, SetOf, NeverD;
    var all := MarkedIn(g, bits);
    MetInodesSame(g, img.blocks, img'.blocks, {}, img.inodes, 1, all);
    MetInodesAlike(g, img.blocks, {}, img.inodes, 1);
    MetInodesAlike(g, img'.blocks, {}, img.inodes, 1);
    if NeverD(g, img') {
      NeverDFresh(g, img');
    }
    if Fresh(g, {}, AllClaims(g, img.blocks, img.inodes, 1)) {
      FreshMet(g, MetAll(g, img));
      Salvaged(g, img, img', bits, segs);
    }
  }

  lemma FreshMet(g: Geometry, met: seq<nat>)
    requires Fresh(g, {}, met)
    ensures DataOf(g, met) == met && forall b: nat :: b in SetOf(DataOf(g, met)) <==> b in met
  {
    FreshData(g, {}, met);
  }

  /** The salvage of fsck: mark what the inodes reference, then rebuild the list from the marks.
      Without faults the list is exactly the blocks not met, and the image that results is free
      of aliasing exactly if the references of all inodes were distinct data blocks.  `sound` says
      that the marking found nothing bad, duplicate or unreadable, and then, whatever reads failed,
      they were. */
  method SalvageImage(fs: Edition, interleave: bool, m: nat, n: nat, fails: nat -> bool)
      returns (completed: bool, sound: bool, nfree: nat, ghost segs: seq<seq<nat>>)
    requires Shape(fs.g, fs.St()) && Sized(fs.g, fs.disk) && |fs.disk.inodes| >= 1
    modifies fs, fs.free
    ensures !completed ==> fs.St() == old(fs.St()) && nfree == 0 && !sound
    ensures sound ==> Fresh(fs.g, {}, AllClaims(fs.g, old(fs.disk).blocks, old(fs.disk).inodes, 1))
    ensures Reliable(fails) ==>
            (sound <==> Fresh(fs.g, {}, AllClaims(fs.g, old(fs.disk).blocks, old(fs.disk).inodes, 1)))
    ensures Reliable(fails) ==>
              var met := MetAll(fs.g, old(fs.disk)); completed <==> |met| <= |DataOf(fs.g, met)| + MaxBadOk
    ensures completed && fs.Faults() == old(fs.Faults()) && (Reliable(fails) || sound) ==>
              && nfree == |Stack(segs)| == fs.tfree
              && MetAll(fs.g, fs.disk) == MetAll(fs.g, old(fs.disk))
              && Intact(fs.g, fs.disk.blocks, fs.disk.sbN, fs.disk.sbFree, segs)
              && (forall b: nat :: fs.g.IsData(b) ==> (Listed(segs, b) <==> b !in DataOf(fs.g, MetAll(fs.g, fs.disk))))
              && (NeverD(fs.g, fs.disk) <==>
                   Fresh(fs.g, {}, AllClaims(fs.g, old(fs.disk).blocks, old(fs.disk).inodes, 1)))
  {
    hide MarkedIn, Intact, Listed, ListOk, Bit, Counts, Reliable, MetAll, DataOf, AllClaims, Fresh, NeverD, SetOf;
    ghost var g, img := fs.g, fs.disk;
    nfree, segs := 0, [];
    var cx := new Checker(fs.g, fs.disk, fails);
    NoneMet(g, img);
    ghost var unread := cx.MarkInodes();
    ghost var met := MetAll(g, img);
    sound := cx.bad == 0 && cx.dup == 0 && cx.errors == 0;
    if cx.faults == 0 {
      assert cx.refs == met;
      CountsFacts(g, met, cx.Marked(), cx.used, cx.free, cx.dup, cx.bad);
      MarkedFresh(g, img, cx.Marked(), cx.used, cx.free, cx.dup, cx.bad);
    }
    completed := cx.bad <= MaxBadOk;
    if completed {
      ghost var w;
      nfree, w := Makefree(fs, cx.bmap[..], interleave, m, n);
      segs := w.segs;
      if fs.Faults() == old(fs.Faults()) && cx.faults == 0 {
        SalvageVerdict(g, img, fs.disk, cx.bmap[..], w.segs);
        InMarks(g, cx.bmap[..], met);
      }
    }
  }

  /** Nothing was counted bad or duplicate exactly if the claims are distinct data blocks. */
  lemma MarkedFresh(g: Geometry, img: Image, m: set<nat>, u: nat, f: nat, d: nat, b: nat)
    requires Counts(g, MetAll(g, img), m, u, f, d, b) && f == 0
    ensures b == 0 && d == 0 <==> Fresh(g, {}, AllClaims(g, img.blocks, img.inodes, 1))
  {
    hide AllClaims, MetInodes, DataOf, SetOf;
    var met := MetAll(g, img);
    NoneMet(g, img);
    MetInodesAlike(g, img.blocks, {}, img.inodes, 1);
    DataAll(g, met);
    CardDistinct(DataOf(g, met));
    if Fresh(g, {}, met) {
      FreshData(g, {}, met);
    }
    if b == 0 && d == 0 {
      DistinctFresh(g, met);
    }
  }

  lemma CountsFacts(g: Geometry, refs: seq<nat>, m: set<nat>, u: nat, f: nat, d: nat, b: nat)
    requires Counts(g, refs, m, u, f, d, b)
    ensures m == SetOf(DataOf(g, refs)) && |refs| == |DataOf(g, refs)| + b
  {
  }

  lemma InMarks(g: Geometry, bits: seq<bool>, met: seq<nat>)
    requires MarkedIn(g, bits) == SetOf(DataOf(g, met))
    ensures forall b: nat :: Bit(g, bits, b) <==> b in DataOf(g, met)
  {
    hide DataOf;
    forall b: nat
      ensures Bit(g, bits, b) <==> b in DataOf(g, met)
    {
      assert b in MarkedIn(g, bits) <==> b in SetOf(DataOf(g, met));
    }
  }
}
