/** The consistency checker (check.c, blocktree.c, alloc_freelist.c): it walks any image and
    decides whether it is free of aliasing. */
module Check {
  import opened Device
  import opened Geometry
  import opened FreeChain
  import opened Image
  import opened Ownership
  import opened CheckSpec
  import opened Walks
  import opened FreeWalk
  import opened Barrier

  /** An image of the right size; what its blocks and inodes hold is arbitrary. */
  ghost predicate Sized(g: Geometry, img: Image) {
    && g.Valid() && |img.blocks| == g.fsize
    && (forall b {:trigger img.blocks[b]} :: 0 <= b < g.fsize ==> |img.blocks[b]| == g.bsize)
    && (forall k {:trigger img.inodes[k]} :: 0 <= k < |img.inodes| ==> |img.inodes[k].addr| == g.niaddr)
    && img.sbN <= |img.sbFree| == g.nicfree
  }

  /** What the counters say of the references met: the blocks marked are the data blocks among
      them. */
  ghost predicate Counts(g: Geometry, refs: seq<nat>, marked: set<nat>, used: nat, free: nat, dup: nat, bad: nat) {
    && marked == SetOf(DataOf(g, refs)) && used + free == |marked|
    && |DataOf(g, refs)| == used + free + dup && |refs| == used + free + dup + bad
  }

  lemma CountsOne(g: Geometry, refs: seq<nat>, marked: set<nat>, used: nat, free: nat, dup: nat, bad: nat, b: nat)
    requires Counts(g, refs, marked, used, free, dup, bad)
    ensures !g.IsData(b) ==> Counts(g, refs + [b], marked, used, free, dup, bad + 1)
    ensures g.IsData(b) && b in marked ==> Counts(g, refs + [b], marked, used, free, dup + 1, bad)
    ensures g.IsData(b) && b !in marked ==>
              Counts(g, refs + [b], marked + {b}, used + 1, free, dup, bad) &&
                  Counts(g, refs + [b], marked + {b}, used, free + 1, dup, bad)
  {
    hide DataOf;
    DataMarked(g, refs, [b]);
    DataOne(g, b);
    FreshOne(g, marked, b);
    assert SetOf([]) == {};
  }

  /** With the references `rest` to come, those met will be `all` more than at first. */
  ghost predicate Ahead(refs: seq<nat>, rest: seq<nat>, refs0: seq<nat>, all: seq<nat>) {
    refs + rest == refs0 + all
  }

  lemma AheadFirst(refs: seq<nat>, first: seq<nat>, rest: seq<nat>)
    ensures Ahead(refs + first, rest, refs, first + rest)
  {
  }

  lemma AheadNext(refs: seq<nat>, k: seq<nat>, rest: seq<nat>, refs0: seq<nat>, all: seq<nat>, refs': seq<nat>)
    requires Ahead(refs, k + rest, refs0, all) && refs' == refs + k
    ensures Ahead(refs', rest, refs0, all)
  {
  }

  lemma AheadDone(refs: seq<nat>, refs0: seq<nat>, all: seq<nat>)
    requires Ahead(refs, [], refs0, all)
    ensures refs == refs0 + all
  {
  }

  /** The marks that further references leave. */
  lemma CountsMore(g: Geometry, refs: seq<nat>, m: set<nat>, u: nat, f: nat, d: nat, b: nat,
                   k: seq<nat>, refs': seq<nat>, m': set<nat>, u': nat, f': nat, d': nat, b': nat)
    requires Counts(g, refs, m, u, f, d, b) && Counts(g, refs', m', u', f', d', b') && refs' == refs + k
    ensures m' == m + SetOf(DataOf(g, k))
  {
    hide DataOf, SetOf;
    DataMarked(g, refs, k);
  }

  /** All the addresses were met. */
  predicate MetEach(addrs: seq<nat>, refs: seq<nat>) {
    forall i {:trigger addrs[i]} :: 0 <= i < |addrs| && addrs[i] != 0 ==> addrs[i] in refs
  }

  /** All addresses of the inodes below k were met, but for those that could not be read. */
  ghost predicate MetBelow(inodes: seq<Inode>, k: nat, unread: set<nat>, refs: seq<nat>) {
    forall i {:trigger inodes[i]} :: 1 <= i < k && i < |inodes| && inodes[i].kind.Data? && i !in unread ==>
      MetEach(inodes[i].addr, refs)
  }

  lemma MetBelowNone(inodes: seq<Inode>, refs: seq<nat>)
    ensures MetBelow(inodes, 1, {}, refs)
  {
  }

  lemma MetBelowNext(inodes: seq<Inode>, k: nat, unread: set<nat>, refs: seq<nat>, unread': set<nat>, refs': seq<nat>)
    requires MetBelow(inodes, k, unread, refs) && refs <= refs' && unread <= unread' && k < |inodes|
    requires inodes[k].kind.Data? && k !in unread' ==> MetEach(inodes[k].addr, refs')
    ensures MetBelow(inodes, k + 1, unread', refs')
  {
    hide MetEach;
    forall i {:trigger inodes[i]} | 1 <= i < k && inodes[i].kind.Data? && i !in unread'
      ensures MetEach(inodes[i].addr, refs')
    {
      MetEachMore(inodes[i].addr, refs, refs');
    }
  }

  lemma MetEachMore(addrs: seq<nat>, refs: seq<nat>, refs': seq<nat>)
    requires MetEach(addrs, refs) && refs <= refs'
    ensures MetEach(addrs, refs')
  {
  }

  lemma MetEachNone(addrs: seq<nat>, refs: seq<nat>)
    ensures MetEach(addrs[..0], refs)
  {
  }

  lemma MetEachOne(addrs: seq<nat>, i: nat, refs: seq<nat>)
    requires i < |addrs| && MetEach(addrs[..i], refs) && (addrs[i] != 0 ==> addrs[i] in refs)
    ensures MetEach(addrs[..i + 1], refs)
  {
    assert forall k :: 0 <= k < i ==> addrs[..i][k] == addrs[k];
  }

  class Checker {
    const g: Geometry
    const img: Image
    const fails: nat -> bool  // which reads fail
    const bmap: array<bool>   // one bit per data block: accounted for
    var tick: nat            // reads so far
    var used: nat
    var free: nat
    var bad: nat
    var dup: nat
    var errors: nat           // the other complaints
    ghost var faults: nat     // reads that failed
    ghost var refs: seq<nat>  // every reference the walks came across

    ghost predicate Valid()
      reads this, bmap
    {
      && Sized(g, img) && bmap.Length == g.fsize - g.dstart && (Reliable(fails) ==> faults == 0)
      && Counts(g, refs, Marked(), used, free, dup, bad)
    }

    ghost function Marked(): (m: set<nat>)
      reads this, bmap
    {
      MarkedIn(g, bmap[..])
    }

    ghost function Wrong(): nat
      reads this
    {
      bad + dup
    }

    constructor (g: Geometry, img: Image, fails: nat -> bool)
      requires Sized(g, img)
      ensures this.g == g && this.img == img && this.fails == fails && fresh(bmap)
      ensures Valid() && Marked() == {} && used == free == bad == dup == errors == faults == 0 && refs == []
    {
      this.g, this.img, this.fails := g, img, fails;
      bmap := new bool[g.fsize - g.dstart](_ => false);
      tick, used, free, bad, dup, errors, faults, refs := 0, 0, 0, 0, 0, 0, 0, [];
    }

    /** One read of the device. */
    method Ready() returns (ok: bool)
      modifies this`tick, this`faults
      ensures faults == if ok then old(faults) else old(faults) + 1
      ensures (Reliable(fails) ==> ok) && ok == !fails(old(tick))
    {
      ok := !fails(tick);
      tick := tick + 1;
      if !ok {
        faults := faults + 1;
      }
    }

    method ReadBlock(b: nat) returns (ok: bool, buf: Block)
      requires Sized(g, img) && g.IsData(b)
      modifies this`tick, this`faults
      ensures faults == if ok then old(faults) else old(faults) + 1
      ensures b < |img.blocks| && (ok ==> buf == img.blocks[b] && |buf| == g.bsize) && g.Valid()
      ensures (Reliable(fails) ==> ok) && ok == !fails(old(tick))
    {
      ok := Ready();
      buf := img.blocks[b];
    }

    /** Set the bit of a data block that was not accounted for. */
    method SetBit(b: nat)
      requires Sized(g, img) && bmap.Length == g.fsize - g.dstart && g.IsData(b) && !bmap[b - g.dstart]
      modifies bmap
      ensures b !in old(Marked()) && Marked() == old(Marked()) + {b} && |Marked()| == |old(Marked())| + 1
    {
      BitSet(g, bmap[..], b);
      ghost var bits := bmap[..];
      bmap[b - g.dstart] := true;
      assert bmap[..] == bits[b - g.dstart := true];
    }

    /** Account for one reference to block b. */
    method MarkBlock(b: nat) returns (first: bool)
      requires Valid()
      modifies this`used, this`bad, this`dup, this`refs, bmap
      ensures Valid() && free == old(free) && old(Marked()) <= Marked() && old(Wrong()) <= Wrong()
      ensures refs == old(refs) + (if b == 0 then [] else [b])
      ensures first <==> b == 0 || (g.IsData(b) && b !in old(Marked()))
      ensures first ==> Wrong() == old(Wrong()) && Marked() == old(Marked()) + (if b == 0 then {} else {b})
    {
      hide MarkedIn, Counts, Reliable, Sized;
      if b == 0 {
        assert refs == old(refs) + [];
        return true;
      }
      ghost var m0 := Marked();
      CountsOne(g, refs, m0, used, free, dup, bad, b);
      refs := refs + [b];
      if b < g.dstart || b >= g.fsize {
        bad := bad + 1;
        return false;
      }
      BitOf(g, bmap[..], b);
      assert b in m0 <==> bmap[b - g.dstart];
      if bmap[b - g.dstart] {
        dup := dup + 1;
        return false;
      }
      SetBit(b);
      assert Marked() == m0 + {b};
      used := used + 1;
      return true;
    }

    /** Start from a map of used blocks. */
    method Load(bits: seq<bool>)
      requires Valid() && |bits| == g.fsize - g.dstart && Marked() == {} && Wrong() == 0
      modifies this`used, this`bad, this`dup, this`refs, bmap
      ensures Valid() && Marked() == MarkedIn(g, bits) && Wrong() == 0 && free == old(free)
    {
      hide MarkedIn, Counts, Reliable;
      for off := 0 to |bits|
        invariant Valid() && Wrong() == 0 && free == old(free)
        invariant forall b :: b in Marked() <==> b in MarkedIn(g, bits) && b < g.dstart + off
      {
        BitOf(g, bits, g.dstart + off);
        if bits[off] {
          var _ := MarkBlock(g.dstart + off);
        }
      }
      assert forall b :: b in MarkedIn(g, bits) ==> b < g.fsize;
    }

    /** Account for an indirect block and everything beneath it.  A bad or duplicate block is
        not chased; each read that fails counts as an error. */
    method MarkTree(b: nat, level: nat)
      requires Valid()
      modifies this`tick, this`used, this`bad, this`dup, this`refs, this`errors, this`faults, bmap
      ensures Valid() && free == old(free) && old(faults) <= faults && old(Marked()) <= Marked() &&
              old(Wrong()) <= Wrong()
      ensures errors + old(faults) == old(errors) + faults
      ensures faults == old(faults) ==> refs == old(refs) + Met(g, img.blocks, old(Marked()), b, level + 1)
      ensures old(refs) <= refs && (b != 0 ==> b in refs)
      ensures g.IsData(b) && b != 0 && b !in old(Marked()) && !fails(old(tick)) ==>
              b < |img.blocks| && g.nindir <= |img.blocks[b]| && MetEach(img.blocks[b][..g.nindir], refs)
      decreases level, 1
    {
      hide MetEach, Met, MetKids, DataOf, MarkedIn, Reliable, SetOf, Counts, Sized, Ahead;
      MetRoot(g, img.blocks, Marked(), b, level + 1);
      if b == 0 {
        return;
      }
      ghost var m0 := Marked();
      var first := MarkBlock(b);
      if !first {
        return;
      }
      ghost var all := Met(g, img.blocks, m0, b, level + 1);
      AheadFirst(old(refs), [b], MetKids(g, img.blocks, Marked(), b, level + 1, 0));
      var ok, buf := ReadBlock(b);
      if !ok {
        errors := errors + 1;
        return;
      }
      ghost var entries := img.blocks[b][..g.nindir];
      MetEachNone(entries, refs);
      for i := 0 to g.nindir
        invariant old(refs) <= refs && b in refs && MetEach(entries[..i], refs)
        invariant Valid() && free == old(free) && old(faults) <= faults && m0 <= Marked() && old(Wrong()) <= Wrong()
        invariant errors + old(faults) == old(errors) + faults
        invariant faults == old(faults) ==>
                  Ahead(refs, MetKids(g, img.blocks, Marked(), b, level + 1, i), old(refs), all)
      {
        ghost var m1, r1 := Marked(), refs;
        var nb := buf[i];
        assert Cell(img.blocks, b, i) == nb;
        MetKid(g, img.blocks, m1, b, level + 1, i);
        MarkKid(nb, level);
        MetEachMore(entries[..i], r1, refs);
        MetEachOne(entries, i, refs);
        if faults == old(faults) {
          AheadNext(r1, Met(g, img.blocks, m1, nb, level), MetKids(g, img.blocks, Marked(), b, level + 1, i + 1),
                    old(refs), all, refs);
        }
      }
      assert entries[..g.nindir] == entries;
      MetKidsEnd(g, img.blocks, Marked(), b, level + 1);
      if faults == old(faults) {
        AheadDone(refs, old(refs), all);
      }
    }

    /** Account for one entry of an indirect block, and what is beneath it. */
    method MarkKid(nb: nat, level: nat)
      requires Valid()
      modifies this`tick, this`used, this`bad, this`dup, this`refs, this`errors, this`faults, bmap
      ensures Valid() && free == old(free) && old(faults) <= faults && old(Marked()) <= Marked()
              && old(Wrong()) <= Wrong()
      ensures faults == old(faults) ==>
                var k := Met(g, img.blocks, old(Marked()), nb, level);
                refs == old(refs) + k && Marked() == old(Marked()) + SetOf(DataOf(g, k))
      ensures errors + old(faults) == old(errors) + faults && old(refs) <= refs && (nb != 0 ==> nb in refs)
      decreases level, 0
    {
      hide Met, DataOf, MarkedIn, Reliable, SetOf, Counts;
      ghost var m1, r1, u1, d1, b1 := Marked(), refs, used, dup, bad;
      ghost var k := Met(g, img.blocks, m1, nb, level);
      MetLeaf(g, img.blocks, m1, nb, level);
      if nb != 0 {
        if level > 0 {
          MarkTree(nb, level - 1);
        } else {
          var _ := MarkBlock(nb);
        }
      }
      if faults == old(faults) {
        CountsMore(g, r1, m1, u1, free, d1, b1, k, refs, Marked(), used, free, dup, bad);
      }
    }

    /** Account for every block of one inode. */
    method MarkBlocks(ip: Inode)
      requires Valid() && |ip.addr| == g.niaddr && ip.kind.Data?
      modifies this`tick, this`used, this`bad, this`dup, this`refs, this`errors, this`faults, bmap
      ensures Valid() && free == old(free) && old(faults) <= faults
      ensures errors + old(faults) == old(errors) + faults
      ensures faults == old(faults) ==> refs == old(refs) + MetInode(g, img.blocks, old(Marked()), ip)
      ensures old(refs) <= refs && MetEach(ip.addr, refs)
    {
      hide MetEach, Met, MetSlot, MetSlots, DataOf, MarkedIn, Reliable, SetOf, Height, Counts, Ahead;
      ghost var all := MetInode(g, img.blocks, Marked(), ip);
      AheadFirst(refs, [], all);
      assert refs + [] == refs && [] + all == all;
      MetEachNone(ip.addr, refs);
      for i := 0 to g.niaddr
        invariant old(refs) <= refs && MetEach(ip.addr[..i], refs)
        invariant Valid() && free == old(free) && old(faults) <= faults
        invariant errors + old(faults) == old(errors) + faults
        invariant faults == old(faults) ==> Ahead(refs, MetSlots(g, img.blocks, Marked(), ip, i), old(refs), all)
      {
        ghost var m1, r1, u1, d1, b1 := Marked(), refs, used, dup, bad;
        var a := ip.addr[i];
        MetSlotNext(g, img.blocks, m1, ip, i);
        if a != 0 {
          var level := SlotLevel(g, ip.large, i);
          if level < 0 {
            var _ := MarkBlock(a);
          } else {
            MarkTree(a, level);
          }
        }
        MetEachMore(ip.addr[..i], r1, refs);
        MetEachOne(ip.addr, i, refs);
        if faults == old(faults) {
          CountsMore(g, r1, m1, u1, free, d1, b1, MetSlot(g, img.blocks, m1, ip, i), refs, Marked(), used, free, dup,
              bad);
          AheadNext(r1, MetSlot(g, img.blocks, m1, ip, i), MetSlots(g, img.blocks, Marked(), ip, i + 1),
                    old(refs), all, refs);
        }
      }
      assert ip.addr[..g.niaddr] == ip.addr;
      MetSlotsEnd(g, img.blocks, Marked(), ip);
      if faults == old(faults) {
        AheadDone(refs, old(refs), all);
      }
    }

    /** Pass 1: account for every block that a live inode refers to.  An inode that cannot be read,
        `unread`, is an error; whatever else fails, all addresses of the others are accounted for. */
    method MarkInodes() returns (ghost unread: set<nat>)
      requires Valid() && |img.inodes| >= 1
      modifies this`tick, this`used, this`bad, this`dup, this`refs, this`errors, this`faults, bmap
      ensures Valid() && free == old(free) && old(faults) <= faults
      ensures errors + old(faults) == old(errors) + faults
      ensures faults == old(faults) ==> refs == old(refs) + MetInodes(g, img.blocks, old(Marked()), img.inodes, 1)
      ensures |unread| <= errors - old(errors) && MetBelow(img.inodes, |img.inodes|, unread, refs)
    {
      hide MetEach, MetBelow, MetInode, MetInodes, DataOf, MarkedIn, Reliable, SetOf, Counts, Ahead;
      ghost var all := MetInodes(g, img.blocks, Marked(), img.inodes, 1);
      AheadFirst(refs, [], all);
      assert refs + [] == refs && [] + all == all;
      unread := {};
      MetBelowNone(img.inodes, refs);
      for ino := 1 to |img.inodes|
        invariant |unread| <= errors - old(errors) && MetBelow(img.inodes, ino, unread, refs)
        invariant Valid() && free == old(free) && old(faults) <= faults
        invariant errors + old(faults) == old(errors) + faults
        invariant faults == old(faults) ==>
                  Ahead(refs, MetInodes(g, img.blocks, Marked(), img.inodes, ino), old(refs), all)
      {
        ghost var m1, r1, u1, d1, b1 := Marked(), refs, used, dup, bad;
        ghost var was := unread;
        MetInodeNext(g, img.blocks, m1, img.inodes, ino);
        var ok := Ready();
        if !ok {
          errors := errors + 1;
          unread := unread + {ino};
        } else if img.inodes[ino].kind.Data? {
          MarkBlocks(img.inodes[ino]);
        }
        MetBelowNext(img.inodes, ino, was, r1, unread, refs);
        if faults == old(faults) {
          CountsMore(g, r1, m1, u1, free, d1, b1, MetInode(g, img.blocks, m1, img.inodes[ino]), refs, Marked(), used,
              free, dup, bad);
          AheadNext(r1, MetInode(g, img.blocks, m1, img.inodes[ino]),
                    MetInodes(g, img.blocks, Marked(), img.inodes, ino + 1), old(refs), all, refs);
        }
      }
      MetInodesEnd(g, img.blocks, Marked(), img.inodes);
      if faults == old(faults) {
        AheadDone(refs, old(refs), all);
      }
    }

    /** Account for a block of the free list; a block already in use is a duplicate. */
    method Account(b: nat)
      requires Valid() && g.IsData(b)
      modifies this`free, this`dup, this`refs, bmap
      ensures Valid() && refs == old(refs) + [b]
    {
      hide MarkedIn, Counts, Reliable, Sized;
      BitOf(g, bmap[..], b);
      CountsOne(g, refs, Marked(), used, free, dup, bad, b);
      refs := refs + [b];
      if bmap[b - g.dstart] {
        dup := dup + 1;
      } else {
        SetBit(b);
        free := free + 1;
      }
    }

    /** The next segment of the list, from the chain block just popped. */
    method NextSegment(b: nat) returns (ok: bool, n: nat, cur: seq<nat>)
      requires Sized(g, img) && g.IsData(b) && (Reliable(fails) ==> faults == 0)
      modifies this`tick, this`faults
      ensures old(faults) <= faults <= old(faults) + 1 && (ok ==> faults == old(faults)) &&
              (Reliable(fails) ==> faults == 0)
      ensures ok ==> n == img.blocks[b][0] <= g.nicfree && cur == img.blocks[b][1..1 + g.nicfree]
      ensures !ok && faults == old(faults) ==> img.blocks[b][0] > g.nicfree
    {
      hide Reliable;
      n, cur := 0, [];
      var blk;
      ok, blk := ReadBlock(b);
      if ok {
        n, cur := blk[0], blk[1..1 + g.nicfree];
        ok := n <= g.nicfree;
      }
    }

    /** Walk the free list as the allocator would hand it out, accounting for each block. */
    method WalkFree() returns (ghost walked: seq<nat>)
      requires Valid()
      modifies this`tick, this`free, this`dup, this`refs, this`errors, this`faults, bmap
      ensures Valid() && used == old(used) && bad == old(bad)
      ensures faults == old(faults) || (faults == old(faults) + 1 && errors == old(errors) + 1)
      ensures refs == old(refs) + walked && Distinct(walked) && forall x :: x in walked ==> g.IsData(x)
      ensures walked <= FreeTrail(g, img).blocks
      ensures faults == old(faults) ==>
                && walked == FreeTrail(g, img).blocks
                && errors == old(errors) + if FreeTrail(g, img).end.Complaint? then 1 else 0
    {
      hide MarkedIn, Counts, TrailFrom, Reliable, SeenAre, OnTrail, Distinct;
      var seen := new bool[g.fsize](_ => false);
      var n: nat, cur: seq<nat> := img.sbN, img.sbFree;
      walked := [];
      ghost var left, trail := DataBlocks(g), FreeTrail(g, img);
      SeenStart(g, seen[..]);
      TrailStart(g, img);
      while n > 0
        invariant Valid() && used == old(used) && faults == old(faults) && errors == old(errors)
        invariant n <= |cur| && refs == old(refs) + walked && SeenAre(g, seen[..], walked, left)
        invariant OnTrail(g, img.blocks, trail, walked, cur, n, left)
        decreases left
      {
        var b := cur[n - 1];
        SeenFacts(g, seen[..], walked, left);
        TrailEnds(g, img.blocks, trail, walked, cur, n, left);
        if b == 0 {
          return;
        }
        if b < g.dstart || b >= g.fsize || seen[b] {
          errors := errors + 1;
          return;
        }
        TrailOn(g, img.blocks, trail, walked, cur, n, left);
        n := n - 1;
        SeenMore(g, seen[..], walked, left, b);
        ghost var flags := seen[..];
        seen[b] := true;
        assert seen[..] == flags[b := true];
        Account(b);
        walked, left := walked + [b], left - {b};
        if n == 0 {
          var ok;
          ok, n, cur := NextSegment(b);
          if !ok {
            errors := errors + 1;
            return;
          }
        }
      }
      SeenFacts(g, seen[..], walked, left);
      TrailDone(g, img.blocks, trail, walked, cur, left);
    }

    /** Count the data blocks that nothing accounts for. */
    method Missing() returns (missing: nat)
      requires Valid()
      ensures missing + used + free == g.fsize - g.dstart
      ensures missing == 0 <==> forall b: nat :: g.IsData(b) ==> b in Marked()
    {
      hide SetOf, Reliable, Sized;
      missing := 0;
      var off := 0;
      ghost var below: set<nat> := {};
      while off < g.fsize - g.dstart
        invariant 0 <= off <= g.fsize - g.dstart
        invariant forall b :: b in below <==> b in Marked() && b < g.dstart + off
        invariant missing + |below| == off
        invariant missing == 0 <==> forall b: nat :: g.dstart <= b < g.dstart + off ==> b in Marked()
      {
        BitOf(g, bmap[..], g.dstart + off);
        if !bmap[off] {
          missing := missing + 1;
        } else {
          below := below + {g.dstart + off};
        }
        off := off + 1;
      }
      assert below == Marked();
    }
  }

  lemma BitOf(g: Geometry, bits: seq<bool>, b: nat)
    requires g.IsData(b) && |bits| == g.fsize - g.dstart
    ensures b in MarkedIn(g, bits) <==> bits[b - g.dstart]
  {
  }

  lemma NoTree(g: Geometry, blocks: seq<Block>, h: nat)
    ensures Claims(g, blocks, 0, h) == []
  {
  }

  lemma TreeOf(g: Geometry, blocks: seq<Block>, b: nat, h: nat)
    requires b != 0 && h >= 1
    ensures Claims(g, blocks, b, h) == [b] + KidClaims(g, blocks, b, h, 0)
  {
  }

  lemma LeafOf(g: Geometry, blocks: seq<Block>, b: nat)
    requires b != 0
    ensures Claims(g, blocks, b, 0) == [b]
  {
  }

  lemma NoKidsBefore(g: Geometry, blocks: seq<Block>, b: nat, h: nat)
    requires h >= 1
    ensures KidsUpTo(g, blocks, b, h, 0) == []
  {
  }

  lemma KidsDone(g: Geometry, blocks: seq<Block>, b: nat, h: nat)
    requires h >= 1
    ensures KidsUpTo(g, blocks, b, h, g.nindir) == KidClaims(g, blocks, b, h, 0)
  {
    KidsAll(g, blocks, b, h, g.nindir);
    assert KidClaims(g, blocks, b, h, g.nindir) == [];
  }

  lemma NoSlotsBefore(g: Geometry, blocks: seq<Block>, ip: Inode)
    ensures SlotsUpTo(g, blocks, ip, 0) == []
  {
  }

  lemma SlotsBefore(g: Geometry, blocks: seq<Block>, ip: Inode, s: nat)
    requires s < g.niaddr == |ip.addr|
    ensures SlotsUpTo(g, blocks, ip, s + 1) == SlotsUpTo(g, blocks, ip, s) + SlotClaims(g, blocks, ip, s)
  {
  }

  lemma SlotRoot(g: Geometry, blocks: seq<Block>, ip: Inode, s: nat)
    requires s < |ip.addr| && ip.addr[s] != 0
    ensures SlotLevel(g, ip.large, s) < 0 ==> SlotClaims(g, blocks, ip, s) == [ip.addr[s]]
    ensures SlotLevel(g, ip.large, s) >= 0 ==>
            SlotClaims(g, blocks, ip, s) == Claims(g, blocks, ip.addr[s], SlotLevel(g, ip.large, s) + 1)
    ensures Height(g, ip.large, s) == if SlotLevel(g, ip.large, s) < 0 then 0 else SlotLevel(g, ip.large, s) + 1
  {
  }

  lemma SlotsDone(g: Geometry, blocks: seq<Block>, ip: Inode)
    requires ip.kind.Data?
    ensures SlotsUpTo(g, blocks, ip, g.niaddr) == InodeClaims(g, blocks, ip)
  {
    SlotsAll(g, blocks, ip, g.niaddr);
    assert SlotsClaims(g, blocks, ip, g.niaddr) == [];
  }

  lemma NoInodesBefore(g: Geometry, blocks: seq<Block>, inodes: seq<Inode>)
    requires |inodes| >= 1
    ensures InodesUpTo(g, blocks, inodes, 1) == []
  {
  }

  lemma InodesBefore(g: Geometry, blocks: seq<Block>, inodes: seq<Inode>, ino: nat)
    requires 1 <= ino < |inodes|
    ensures InodesUpTo(g, blocks, inodes, ino + 1) == InodesUpTo(g, blocks, inodes, ino) +
            InodeClaims(g, blocks, inodes[ino])
    ensures !inodes[ino].kind.Data? ==> InodeClaims(g, blocks, inodes[ino]) == []
  {
  }

  lemma InodesDone(g: Geometry, blocks: seq<Block>, inodes: seq<Inode>)
    requires |inodes| >= 1
    ensures InodesUpTo(g, blocks, inodes, |inodes|) == AllClaims(g, blocks, inodes, 1)
  {
    InodesAll(g, blocks, inodes, |inodes|);
    assert AllClaims(g, blocks, inodes, |inodes|) == [];
  }

  // ---- one step of each walk ----

  lemma MetRoot(g: Geometry, blocks: seq<Block>, m: set<nat>, b: nat, h: nat)
    requires h >= 1
    ensures Met(g, blocks, m, b, h) == if b == 0 then [] else if !g.IsData(b) ||
            b in m then [b] else [b] + MetKids(g, blocks, m + {b}, b, h, 0)
  {
  }

  lemma MetLeaf(g: Geometry, blocks: seq<Block>, m: set<nat>, b: nat, h: nat)
    ensures b == 0 ==> Met(g, blocks, m, b, h) == []
    ensures b != 0 && h == 0 ==> Met(g, blocks, m, b, h) == [b]
  {
  }

  lemma MetKid(g: Geometry, blocks: seq<Block>, m: set<nat>, b: nat, h: nat, i: nat)
    requires h >= 1 && i < g.nindir
    ensures var k := Met(g, blocks, m, Cell(blocks, b, i), h - 1);
            MetKids(g, blocks, m, b, h, i) == k + MetKids(g, blocks, m + SetOf(DataOf(g, k)), b, h, i + 1)
  {
  }

  lemma MetKidsEnd(g: Geometry, blocks: seq<Block>, m: set<nat>, b: nat, h: nat)
    requires h >= 1
    ensures MetKids(g, blocks, m, b, h, g.nindir) == []
  {
  }

  lemma MetSlotNext(g: Geometry, blocks: seq<Block>, m: set<nat>, ip: Inode, s: nat)
    requires s < g.niaddr == |ip.addr|
    ensures var k := MetSlot(g, blocks, m, ip, s);
            && MetSlots(g, blocks, m, ip, s) == k + MetSlots(g, blocks, m + SetOf(DataOf(g, k)), ip, s + 1)
            && (ip.addr[s] == 0 ==> k == [])
            && (ip.addr[s] != 0 && SlotLevel(g, ip.large, s) < 0 ==> k == [ip.addr[s]])
            && (SlotLevel(g, ip.large, s) >= 0 ==> k == Met(g, blocks, m, ip.addr[s], SlotLevel(g, ip.large, s) + 1))
  {
  }

  lemma MetSlotsEnd(g: Geometry, blocks: seq<Block>, m: set<nat>, ip: Inode)
    ensures MetSlots(g, blocks, m, ip, g.niaddr) == []
  {
  }

  lemma MetInodeNext(g: Geometry, blocks: seq<Block>, m: set<nat>, inodes: seq<Inode>, ino: nat)
    requires ino < |inodes|
    ensures var k := MetInode(g, blocks, m, inodes[ino]);
            && MetInodes(g, blocks, m, inodes, ino) == k +
                 MetInodes(g, blocks, m + SetOf(DataOf(g, k)), inodes, ino + 1)
            && (!inodes[ino].kind.Data? ==> k == [])
  {
  }

  lemma MetInodesEnd(g: Geometry, blocks: seq<Block>, m: set<nat>, inodes: seq<Inode>)
    ensures MetInodes(g, blocks, m, inodes, |inodes|) == []
  {
  }

  /** After the references s: something was counted bad or duplicate exactly if s is not all
      new data blocks. */
  lemma PassMarking(g: Geometry, refs: seq<nat>, m: set<nat>, u: nat, f: nat, d: nat, b: nat,
                    s: seq<nat>, refs': seq<nat>, m': set<nat>, u': nat, f': nat, d': nat, b': nat)
    requires Counts(g, refs, m, u, f, d, b) && Counts(g, refs', m', u', f', d', b') && refs' == refs + s
    ensures Marking(g, m, b + d, s, m', b' + d')
  {
    hide DataOf, Fresh, SetOf;
    DataMarked(g, refs, s);
    Growth(g, m, s);
    MarkedBy(g, m, s);
  }

  /** The mark walk of a subtree: nothing was counted bad or duplicate exactly if its claims are
      new data blocks, and then these were marked. */
  lemma CountsTree(g: Geometry, blocks: seq<Block>, refs: seq<nat>, m: set<nat>, u: nat, f: nat, d: nat, b: nat,
                   root: nat, h: nat, refs': seq<nat>, m': set<nat>, u': nat, f': nat, d': nat, b': nat)
    requires Counts(g, refs, m, u, f, d, b) && Counts(g, refs', m', u', f', d', b')
    requires refs' == refs + Met(g, blocks, m, root, h)
    ensures Marking(g, m, b + d, Claims(g, blocks, root, h), m', b' + d')
  {
    hide Met, Claims, Fresh, Counts, SetOf;
    PassMarking(g, refs, m, u, f, d, b, Met(g, blocks, m, root, h), refs', m', u', f', d', b');
    MetTree(g, blocks, m, root, h);
  }

  lemma OneMarking(g: Geometry, m: set<nat>, wrong: nat, b: nat)
    requires g.IsData(b) && b !in m
    ensures Marking(g, m, wrong, [b], m + {b}, wrong)
  {
    FreshOne(g, m, b);
  }

  // ---- the whole check ----

  datatype Report = Report(used: nat, free: nat, missing: nat, dup: nat, bad: nat, errors: nat)

  const MaxBadOk: nat := 10

  /** What a check of the image reports if every read succeeds. */
  ghost predicate Reports(g: Geometry, img: Image, completed: bool, rep: Report)
    requires img.sbN <= |img.sbFree|
  {
    var met, trail := MetAll(g, img), FreeTrail(g, img);
    var inside := DataOf(g, met);
    && rep.bad + |inside| == |met|
    && (completed <==> rep.bad <= MaxBadOk)
    && rep.used == |SetOf(inside)|
    && (!completed ==> rep.used + rep.dup == |inside| && rep.free == rep.missing == rep.errors == 0)
    && (completed ==>
          && rep.used + rep.free == |SetOf(inside + trail.blocks)|
          && rep.used + rep.free + rep.dup == |inside| + |trail.blocks|
          && rep.errors == if trail.end.Complaint? then 1 else 0)
  }

  /** Check any image, whatever reads fail.  A check that completes accounts for every data block,
      and each read that failed is an error; so a report without complaint, of a list not cut short
      by a 0, is always one of an image free of aliasing.  If every read succeeds, or no error is
      reported: it reports what is there; it counts no duplicate exactly if the claims within the
      data area and the walked list repeat nothing; and it reports nothing bad, duplicate or
      wrong, with the walk of the list not cut short by a 0, exactly if the image is free of
      aliasing. */
  method CheckImage(g: Geometry, img: Image, fails: nat -> bool) returns (completed: bool, rep: Report)
    requires Sized(g, img) && |img.inodes| >= 1
    ensures completed ==> rep.used + rep.free + rep.missing == g.fsize - g.dstart
    ensures !completed ==> rep.bad > MaxBadOk
    ensures completed && rep.bad == rep.dup == rep.errors == 0 && EndsAtBottom(g, img) ==> NeverD(g, img)
    ensures Reliable(fails) || rep.errors == 0 ==>
              && Reports(g, img, completed, rep)
              && (completed ==>
                   (rep.dup == 0 <==> Distinct(PrunedInodes(g, img.blocks, img.inodes, 1) + FreeTrail(g, img).blocks)))
              && (completed && rep.bad == rep.dup == rep.errors == 0 && EndsAtBottom(g, img) <==> NeverD(g, img))
  {
    hide MarkedIn, DataOf, MetAll, FreeTrail, NeverD, SetOf, Distinct, PrunedInodes, Counts, Reliable, EndsAtBottom,
         Reports;
    var cx := new Checker(g, img, fails);
    NoneMet(g, img);
    ghost var unread := cx.MarkInodes();
    rep := Report(cx.used, 0, 0, cx.dup, cx.bad, cx.errors);
    if cx.bad > MaxBadOk {
      if cx.faults == 0 {
        FirstPass(g, img, cx.refs, cx.Marked(), rep);
        BadIsD(g, img, rep.bad);
      }
      return false, rep;
    }
    completed := true;
    ghost var refs1, m1, d1 := cx.refs, cx.Marked(), cx.dup;
    ghost var walked := cx.WalkFree();
    var missing := cx.Missing();
    rep := Report(cx.used, cx.free, missing, cx.dup, cx.bad, cx.errors);
    if cx.faults == 0 {
      SecondPass(g, img, refs1, m1, d1, cx.refs, cx.Marked(), rep);
      DupFree(g, img, rep);
      Verdict(g, img, rep);
    }
  }

  lemma FirstPass(g: Geometry, img: Image, refs: seq<nat>, m: set<nat>, rep: Report)
    requires img.sbN <= |img.sbFree| && refs == MetAll(g, img) && Counts(g, refs, m, rep.used, 0, rep.dup, rep.bad)
    ensures rep.bad + |DataOf(g, MetAll(g, img))| == |MetAll(g, img)|
    ensures rep.bad > MaxBadOk && rep.free == rep.missing == rep.errors == 0 ==> Reports(g, img, false, rep)
  {
    hide DataOf, MetAll, FreeTrail;
  }

  lemma SecondPass(g: Geometry, img: Image, refs: seq<nat>, m: set<nat>, dup: nat, refs': seq<nat>, m': set<nat>,
      rep: Report)
    requires img.sbN <= |img.sbFree| && refs == MetAll(g, img) && Counts(g, refs, m, rep.used, 0, dup, rep.bad)
    requires refs' == refs + FreeTrail(g, img).blocks && Counts(g, refs', m', rep.used, rep.free, rep.dup, rep.bad)
    requires forall x :: x in FreeTrail(g, img).blocks ==> g.IsData(x)
    requires rep.errors == (if FreeTrail(g, img).end.Complaint? then 1 else 0) && rep.bad <= MaxBadOk
    ensures Reports(g, img, true, rep)
  {
    hide DataOf, MetAll, FreeTrail, SetOf;
    DataConcat(g, refs, FreeTrail(g, img).blocks);
    DataAll(g, FreeTrail(g, img).blocks);
  }

  /** The flags say which data blocks were walked, each once; the others are left. */
  ghost predicate SeenAre(g: Geometry, seen: seq<bool>, walked: seq<nat>, left: set<nat>) {
    && |seen| == g.fsize && Distinct(walked) && (forall x :: x in walked ==> g.IsData(x))
    && (forall b: nat :: b < g.fsize ==> (seen[b] <==> b in walked))
    && forall b: nat :: b in left <==> g.IsData(b) && b !in walked
  }

  lemma SeenStart(g: Geometry, seen: seq<bool>)
    requires |seen| == g.fsize && forall b :: 0 <= b < g.fsize ==> !seen[b]
    ensures SeenAre(g, seen, [], DataBlocks(g))
  {
  }

  lemma SeenFacts(g: Geometry, seen: seq<bool>, walked: seq<nat>, left: set<nat>)
    requires SeenAre(g, seen, walked, left)
    ensures |seen| == g.fsize && Distinct(walked) && forall x :: x in walked ==> g.IsData(x)
    ensures forall b: nat :: b in left <==> g.IsData(b) && !seen[b]
  {
  }

  lemma SeenMore(g: Geometry, seen: seq<bool>, walked: seq<nat>, left: set<nat>, b: nat)
    requires SeenAre(g, seen, walked, left) && g.IsData(b) && !seen[b]
    ensures SeenAre(g, seen[b := true], walked + [b], left - {b})
    ensures Distinct(walked + [b]) && forall x :: x in walked + [b] ==> g.IsData(x)
  {
  }

  /** The walk has met `walked` of the trail and goes on from entry n of cur. */
  ghost predicate OnTrail(g: Geometry, blocks: seq<Block>, trail: Trail, walked: seq<nat>, cur: seq<nat>, n: nat,
      left: set<nat>)
    requires n <= |cur|
  {
    var rest := TrailFrom(g, blocks, cur, n, left);
    trail.blocks == walked + rest.blocks && trail.end == rest.end
  }

  lemma TrailStart(g: Geometry, img: Image)
    requires img.sbN <= |img.sbFree|
    ensures OnTrail(g, img.blocks, FreeTrail(g, img), [], img.sbFree, img.sbN, DataBlocks(g))
  {
  }

  lemma TrailEnds(g: Geometry, blocks: seq<Block>, trail: Trail, walked: seq<nat>, cur: seq<nat>, n: nat,
      left: set<nat>)
    requires 1 <= n <= |cur| && OnTrail(g, blocks, trail, walked, cur, n, left)
    ensures cur[n - 1] == 0 ==> trail == Trail(walked, if n == 1 then Bottom else Sentinel)
    ensures cur[n - 1] != 0 && cur[n - 1] !in left ==> trail == Trail(walked, Complaint)
  {
    hide TrailFrom;
    TrailStop(g, blocks, cur, n, left);
  }

  lemma TrailOn(g: Geometry, blocks: seq<Block>, trail: Trail, walked: seq<nat>, cur: seq<nat>, n: nat, left: set<nat>)
    requires 1 <= n <= |cur| && OnTrail(g, blocks, trail, walked, cur, n, left) && cur[n - 1] != 0 && cur[n - 1] in left
    requires cur[n - 1] < |blocks| && |blocks[cur[n - 1]]| >= 1 + g.nicfree
    ensures var b := cur[n - 1];
            var walked', left', blk := walked + [b], left - {b}, blocks[b];
            && walked' <= trail.blocks && (n > 1 ==> OnTrail(g, blocks, trail, walked', cur, n - 1, left'))
            && (n == 1 && blk[0] > g.nicfree ==> trail == Trail(walked', Complaint))
            && (n == 1 && blk[0] <= g.nicfree ==>
                 OnTrail(g, blocks, trail, walked', blk[1..1 + g.nicfree], blk[0], left'))
  {
    hide TrailFrom;
    TrailStep(g, blocks, cur, n, left);
    var b := cur[n - 1];
    assert forall t: seq<nat> :: walked + ([b] + t) == walked + [b] + t;
  }

  lemma TrailDone(g: Geometry, blocks: seq<Block>, trail: Trail, walked: seq<nat>, cur: seq<nat>, left: set<nat>)
    requires OnTrail(g, blocks, trail, walked, cur, 0, left)
    ensures trail == Trail(walked, Bottom)
  {
    TrailBottom(g, blocks, cur, left);
  }

  lemma NoneMet(g: Geometry, img: Image)
    ensures MetAll(g, img) == MetInodes(g, img.blocks, {}, img.inodes, 1) && DataOf(g, []) == [] && SetOf([]) == {}
  {
  }

  lemma BadIsD(g: Geometry, img: Image, bad: nat)
    requires bad + |DataOf(g, MetAll(g, img))| == |MetAll(g, img)| && bad > 0
    ensures !NeverD(g, img)
  {
    hide AllClaims, Intact, Listed, DataOf, MetInodes, Fresh;
    var met := MetAll(g, img);
    DataAll(g, met);
    MetInodesAlike(g, img.blocks, {}, img.inodes, 1);
    if NeverD(g, img) {
      NeverDFresh(g, img);
      FreshData(g, {}, met);
    }
  }

  lemma FreshData(g: Geometry, m: set<nat>, s: seq<nat>)
    requires Fresh(g, m, s)
    ensures DataOf(g, s) == s && Distinct(s)
  {
    DataAll(g, s);
  }

  lemma NeverDFresh(g: Geometry, img: Image)
    requires NeverD(g, img)
    ensures Fresh(g, {}, AllClaims(g, img.blocks, img.inodes, 1))
  {
    hide AllClaims, Intact, Listed;
  }

  /** No duplicate: nothing repeats among the claims within the data area and the list. */
  lemma DupFree(g: Geometry, img: Image, rep: Report)
    requires img.sbN <= |img.sbFree| && Reports(g, img, true, rep)
    ensures rep.dup == 0 <==> Distinct(DataOf(g, MetAll(g, img)) + FreeTrail(g, img).blocks)
    ensures rep.dup == 0 <==> Distinct(PrunedInodes(g, img.blocks, img.inodes, 1) + FreeTrail(g, img).blocks)
  {
    hide DataOf, MetInodes, PrunedInodes, FreeTrail, SetOf;
    var inside, pruned, list := DataOf(g, MetAll(g, img)), PrunedInodes(g, img.blocks, img.inodes, 1),
        FreeTrail(g, img).blocks;
    CardDistinct(inside + list);
    PrunedInodesAlike(g, img.blocks, {}, img.inodes, 1);
    DataAll(g, MetAll(g, img));
    if Distinct(inside + list) {
      PrefixDistinct(inside, list);
    }
    if Distinct(pruned + list) {
      PrefixDistinct(pruned, list);
    }
    assert Fresh(g, {}, inside) <==> Distinct(inside);
    assert Fresh(g, {}, pruned) <==> Distinct(pruned);
  }

  lemma PrefixDistinct(s: seq<nat>, t: seq<nat>)
    requires Distinct(s + t)
    ensures Distinct(s)
  {
    assert forall i :: 0 <= i < |s| ==> (s + t)[i] == s[i];
  }

  lemma ApartFrom(s: seq<nat>, t: seq<nat>)
    requires Distinct(s + t)
    ensures forall x :: x in s ==> x !in t
  {
    forall i, j | 0 <= i < |s| && 0 <= j < |t|
      ensures s[i] != t[j]
    {
      assert (s + t)[i] == s[i] && (s + t)[|s| + j] == t[j];
    }
  }

  /** What the counts say about the image. */
  lemma Verdict(g: Geometry, img: Image, rep: Report)
    requires Sized(g, img) && Reports(g, img, true, rep)
    requires rep.dup == 0 <==> Distinct(DataOf(g, MetAll(g, img)) + FreeTrail(g, img).blocks)
    ensures rep.bad == rep.dup == rep.errors == 0 && EndsAtBottom(g, img) <==> NeverD(g, img)
  {
    hide AllClaims, Listed, DataOf, MetInodes, TrailFrom, Fresh, Distinct, SetOf;
    var met, trail := MetAll(g, img), FreeTrail(g, img);
    var claims := AllClaims(g, img.blocks, img.inodes, 1);
    DataAll(g, met);
    MetInodesAlike(g, img.blocks, {}, img.inodes, 1);
    var segs := TrailIntact(g, img);
    if rep.bad == rep.dup == rep.errors == 0 && EndsAtBottom(g, img) {
      PrefixDistinct(met, trail.blocks);
      ApartFrom(met, trail.blocks);
      DistinctFresh(g, met);
    }
    if NeverD(g, img) {
      NeverDFresh(g, img);
      FreshData(g, {}, claims);
      var t :| Intact(g, img.blocks, img.sbN, img.sbFree, t) && forall x :: x in claims ==>
          g.IsData(x) && !Listed(t, x);
      ListUnique(g, img.blocks, t, segs);
      DistinctConcat(claims, trail.blocks);
    }
  }

  /** A report without a complaint, of a list that was walked to its bottom, is one of an image
      free of aliasing; and the other way around. */
  lemma CleanReport(g: Geometry, img: Image, rep: Report)
    requires Sized(g, img) && Reports(g, img, true, rep)
    ensures rep.bad == rep.dup == rep.errors == 0 && EndsAtBottom(g, img) <==> NeverD(g, img)
  {
    hide NeverD, EndsAtBottom, Reports;
    DupFree(g, img, rep);
    Verdict(g, img, rep);
  }

  lemma DistinctFresh(g: Geometry, s: seq<nat>)
    requires Distinct(s) && forall x :: x in s ==> g.IsData(x)
    ensures Fresh(g, {}, s)
  {
  }

  // ---- the count walk ----

  /** Read a block: fails(k) says whether the k-th read fails, and `tick` counts them. */
  method Read(g: Geometry, img: Image, b: nat, fails: nat -> bool, tick: nat) returns (ok: bool, buf: Block, tick': nat)
    requires Sized(g, img)
    ensures ok ==> b < g.fsize && buf == img.blocks[b]
    ensures Reliable(fails) ==> (ok <==> b < g.fsize)
  {
    ok, buf, tick' := b < |img.blocks| && !fails(tick), [], tick + 1;
    if ok {
      buf := img.blocks[b];
    }
  }

  /** Every indirect block of the tree of height h under b can be read. */
  ghost predicate Readable(g: Geometry, blocks: seq<Block>, b: nat, h: nat)
    decreases h
  {
    b == 0 || h == 0 ||
    (b < |blocks| && forall i {:trigger Cell(blocks, b, i)} :: 0 <= i < g.nindir ==>
       Readable(g, blocks, Cell(blocks, b, i), h - 1))
  }

  /** Count an indirect block and everything beneath it: the third walk over the same tree
      finds as many blocks as the mark walk claims. */
  method CountIndirect(g: Geometry, img: Image, b: nat, levels: nat, fails: nat -> bool, tick: nat)
      returns (ok: bool, n: nat, tick': nat)
    requires Sized(g, img)
    ensures ok ==> n == |Claims(g, img.blocks, b, levels + 1)|
    ensures Reliable(fails) ==> (ok <==> Readable(g, img.blocks, b, levels + 1))
    decreases levels
  {
    hide Claims, KidsUpTo;
    NoTree(g, img.blocks, levels + 1);
    if b == 0 {
      return true, 0, tick;
    }
    var buf;
    ok, buf, tick' := Read(g, img, b, fails, tick);
    n := 1;
    if !ok {
      return;
    }
    TreeOf(g, img.blocks, b, levels + 1);
    NoKidsBefore(g, img.blocks, b, levels + 1);
    for i := 0 to g.nindir
      invariant ok && n == 1 + |KidsUpTo(g, img.blocks, b, levels + 1, i)|
      invariant Reliable(fails) ==> forall k {:trigger Cell(img.blocks, b, k)} :: 0 <= k < i ==>
                  Readable(g, img.blocks, Cell(img.blocks, b, k), levels)
    {
      var sub := buf[i];
      assert Cell(img.blocks, b, i) == sub;
      KidsBefore(g, img.blocks, b, levels + 1, i);
      NoTree(g, img.blocks, levels);
      if sub != 0 {
        if levels == 0 {
          LeafOf(g, img.blocks, sub);
          n := n + 1;
        } else {
          var m;
          ok, m, tick' := CountIndirect(g, img, sub, levels - 1, fails, tick');
          if !ok {
            return;
          }
          n := n + m;
        }
      }
    }
    KidsDone(g, img.blocks, b, levels + 1);
  }

  method AllocatedBlocks(g: Geometry, img: Image, ip: Inode, fails: nat -> bool) returns (ok: bool, n: nat)
    requires Sized(g, img) && |ip.addr| == g.niaddr
    ensures ok ==> n == |InodeClaims(g, img.blocks, ip)|
    ensures Reliable(fails) ==>
            (ok <==> ip.kind.Data? ==> forall i {:trigger ip.addr[i]} :: 0 <= i < g.niaddr ==>
               Readable(g, img.blocks, ip.addr[i], Height(g, ip.large, i)))
  {
    hide Claims, SlotsUpTo, SlotsClaims, Height;
    ok, n := true, 0;
    if !ip.kind.Data? {
      return;
    }
    NoSlotsBefore(g, img.blocks, ip);
    var tick := 0;
    for i := 0 to g.niaddr
      invariant ok && n == |SlotsUpTo(g, img.blocks, ip, i)|
      invariant Reliable(fails) ==> forall k {:trigger ip.addr[k]} :: 0 <= k < i ==>
                  Readable(g, img.blocks, ip.addr[k], Height(g, ip.large, k))
    {
      var a := ip.addr[i];
      SlotsBefore(g, img.blocks, ip, i);
      NoTree(g, img.blocks, Height(g, ip.large, i));
      if a != 0 {
        SlotRoot(g, img.blocks, ip, i);
        var level := SlotLevel(g, ip.large, i);
        if level < 0 {
          n := n + 1;
        } else {
          var m;
          ok, m, tick := CountIndirect(g, img, a, level, fails, tick);
          if !ok {
            return;
          }
          n := n + m;
        }
      }
    }
    SlotsDone(g, img.blocks, ip);
  }
}
