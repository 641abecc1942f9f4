/** A file as a plain byte sequence: what its block map and data blocks spell out. */
module FileBytes {
  import opened Geometry
  import opened FreeChain
  import opened Image
  import opened Ownership
  import opened Consistency
  import opened TreeSteps
  import opened Mapping
  import opened Descent
  import opened BlockMap
  import opened Promotion
  import opened Accounting

  /** Position off is byte boff of logical block lbn. */
  predicate Locates(bsize: nat, off: nat, lbn: nat, boff: nat) {
    off == lbn * bsize + boff && boff < bsize && off / bsize == lbn
  }

  lemma Locate(off: nat, bsize: nat)
    requires bsize >= 1 && off < U32
    ensures Locates(bsize, off, off / bsize, off % bsize) && off / bsize < U32
  {
    DivMod(off, bsize);
    MulMonotone(U32, off / bsize, bsize);
    MulMonotone(1, bsize, U32);
  }

  /** The byte at position p, as a read finds it: a hole reads as zero. */
  function ByteAt(g: Geometry, blocks: seq<Block>, ip: Inode, p: nat): nat
    requires g.nindir >= 1 && g.bsize >= 1
  {
    var b := MapOf(g, blocks, ip, p / g.bsize);
    if b == 0 then 0 else Cell(blocks, b, p % g.bsize)
  }

  function Contents(g: Geometry, blocks: seq<Block>, ip: Inode): seq<nat>
    requires g.nindir >= 1 && g.bsize >= 1
  {
    seq(ip.size, p requires 0 <= p => ByteAt(g, blocks, ip, p))
  }

  /** Nothing shows past the end of the file: extending it exposes only zeros. */
  ghost predicate TailZero(g: Geometry, blocks: seq<Block>, ip: Inode)
    requires g.nindir >= 1 && g.bsize >= 1
  {
    forall p: nat {:trigger ByteAt(g, blocks, ip, p)} :: ip.size <= p ==> ByteAt(g, blocks, ip, p) == 0
  }

  // ---- the block behind a logical block ----

  lemma {:induction false} WalkLabel(g: Geometry, blocks: seq<Block>, tab: Table, b: nat, o: Own, r: nat)
    requires g.Valid() && TreesOk(g, blocks, tab) && o.Owned? && RefOk(g, tab, b, o)
    ensures RefOk(g, tab, Walk(g, blocks, b, o.h, r), Owned(o.ino, 0, o.base + Residue(g, r, o.h)))
    decreases o.h
  {
    if b != 0 && o.h > 0 {
      var i := Digit(g, r, o.h);
      DigitSplit(g, r, o.h);
      WalkLabel(g, blocks, tab, Cell(blocks, b, i), Child(g, o, i), r);
    } else if o.h == 0 {
      assert Pow(g.nindir, 0) == 1;
    }
  }

  lemma MapLabel(g: Geometry, st: State, w: World, ino: nat, ip: Inode, k: nat)
    requires Sound(g, st, w) && Narrow(g) && InodeOk(g, w.tab, ino, ip) && ip.kind.Data?
    ensures RefOk(g, w.tab, MapOf(g, st.disk.blocks, ip, k), Owned(ino, 0, k))
  {
    hide SlotFor, Base, Height, Narrow, Pow, Residue;
    var s := SlotFor(g, ip.large, k, 0);
    SlotRange(g, ip.large, k);
    if s < g.niaddr {
      var o := SlotOwner(g, ino, ip.large, s);
      var r := k - Base(g, ip.large, s);
      ResidueSmall(g, r, o.h);
      WalkLabel(g, st.disk.blocks, w.tab, ip.addr[s], o, r);
    }
  }

  /** Growth at lbn gives every byte but those of a fresh zero block, which read as before. */
  lemma BmapBytes(g: Geometry, st0: State, w0: World, st: State, w: World, ino: nat, ip: Inode, ip': Inode, lbn: nat,
      out: nat, p: nat)
    requires Sound(g, st0, w0) && Narrow(g) && InodeOk(g, w0.tab, ino, ip) && ip.kind.Data?
    requires BmapDone(g, st0, w0, st, w, ino, ip, ip', lbn, out)
    ensures ByteAt(g, st.disk.blocks, ip', p) == ByteAt(g, st0.disk.blocks, ip, p)
  {
    hide MapOf, Narrow, Tidy, Hidden, NoNewClaims;
    var k := p / g.bsize;
    MapLabel(g, st0, w0, ino, ip, k);
    if k != lbn {
      assert MapOf(g, st.disk.blocks, ip', k) == MapOf(g, st0.disk.blocks, ip, k);
    }
  }

  lemma FailedBytes(g: Geometry, st0: State, w0: World, st: State, w: World, ino: nat, ip: Inode, ip': Inode, lbn: nat,
      p: nat)
    requires Sound(g, st0, w0) && Narrow(g) && InodeOk(g, w0.tab, ino, ip) && ip.kind.Data?
    requires BmapFailed(g, st0, w0, st, w, ino, ip, ip', lbn)
    ensures ByteAt(g, st.disk.blocks, ip', p) == ByteAt(g, st0.disk.blocks, ip, p)
  {
    hide MapOf, Narrow, Tidy, Hidden, NoNewClaims;
    MapLabel(g, st0, w0, ino, ip, p / g.bsize);
    assert MapOf(g, st.disk.blocks, ip', p / g.bsize) == MapOf(g, st0.disk.blocks, ip, p / g.bsize);
  }

  /** Other files read the same, byte for byte. */
  lemma OtherBytes(g: Geometry, st: State, w: World, st': State, w': World, ino: nat, jno: nat, jp: Inode, p: nat)
    requires Sound(g, st, w) && Narrow(g) && OthersKept(st, w, st', w', ino)
    requires jno != ino && InodeOk(g, w.tab, jno, jp) && jp.kind.Data?
    ensures ByteAt(g, st'.disk.blocks, jp, p) == ByteAt(g, st.disk.blocks, jp, p)
  {
    hide MapOf, Narrow;
    MapLabel(g, st, w, jno, jp, p / g.bsize);
    OtherMap(g, st, w, st', w', ino, jno, jp, p / g.bsize);
  }

  lemma OtherContents(g: Geometry, st: State, w: World, st': State, w': World, ino: nat, jno: nat)
    requires Sound(g, st, w) && Narrow(g) && OthersKept(st, w, st', w', ino)
    requires jno != ino && 1 <= jno < |st.disk.inodes| && st.disk.inodes[jno].kind.Data?
    ensures st'.disk.inodes[jno] == st.disk.inodes[jno]
    ensures Contents(g, st'.disk.blocks, st.disk.inodes[jno]) == Contents(g, st.disk.blocks, st.disk.inodes[jno])
    ensures TailZero(g, st.disk.blocks, st.disk.inodes[jno]) ==> TailZero(g, st'.disk.blocks, st.disk.inodes[jno])
  {
    hide ByteAt, Narrow;
    var jp := st.disk.inodes[jno];
    assert InodeOk(g, w.tab, jno, jp);
    forall p: nat
      ensures ByteAt(g, st'.disk.blocks, jp, p) == ByteAt(g, st.disk.blocks, jp, p)
    {
      OtherBytes(g, st, w, st', w', ino, jno, jp, p);
    }
  }

  // ---- writing a data block ----

  lemma {:induction false} WalkQuiet(g: Geometry, blocks: seq<Block>, tab: Table, c: nat, v: Block, b: nat, o: Own,
      r: nat)
    requires g.Valid() && TreesOk(g, blocks, tab) && c < |blocks| && !IsIndirect(tab, c)
    requires o.Owned? && RefOk(g, tab, b, o)
    ensures Walk(g, blocks[c := v], b, o.h, r) == Walk(g, blocks, b, o.h, r)
  {
    UpdateCell(blocks, c, v);
    WalkAgree(g, blocks, blocks[c := v], tab, b, o, r);
  }

  lemma MapQuiet(g: Geometry, st: State, w: World, c: nat, v: Block, ino: nat, ip: Inode, k: nat)
    requires Sound(g, st, w) && c < |st.disk.blocks| && !IsIndirect(w.tab, c) && InodeOk(g, w.tab, ino, ip) &&
             ip.kind.Data?
    ensures MapOf(g, st.disk.blocks[c := v], ip, k) == MapOf(g, st.disk.blocks, ip, k)
  {
    hide Height, Base, SlotFor;
    var s := SlotFor(g, ip.large, k, 0);
    if s < g.niaddr && Base(g, ip.large, s) <= k {
      WalkQuiet(g, st.disk.blocks, w.tab, c, v, ip.addr[s], SlotOwner(g, ino, ip.large, s), k - Base(g, ip.large, s));
    }
  }

  /** Writing the block behind lbn changes the bytes of that logical block alone. */
  lemma DataBytes(g: Geometry, st: State, w: World, ino: nat, ip: Inode, lbn: nat, v: Block, p: nat)
    requires Sound(g, st, w) && Narrow(g) && InodeOk(g, w.tab, ino, ip) && ip.kind.Data? && |v| == g.bsize
    requires MapOf(g, st.disk.blocks, ip, lbn) != 0
    ensures var c := MapOf(g, st.disk.blocks, ip, lbn);
            && c < |st.disk.blocks|
            && ByteAt(g, st.disk.blocks[c := v], ip, p) ==
               if p / g.bsize == lbn then v[p % g.bsize] else ByteAt(g, st.disk.blocks, ip, p)
  {
    hide MapOf, Narrow;
    var c, k := MapOf(g, st.disk.blocks, ip, lbn), p / g.bsize;
    MapLabel(g, st, w, ino, ip, lbn);
    MapLabel(g, st, w, ino, ip, k);
    MapQuiet(g, st, w, c, v, ino, ip, k);
    DivMod(p, g.bsize);
  }

  lemma {:induction false} ClaimsQuiet(g: Geometry, st: State, w: World, c: nat, v: Block, ino: nat, ip: Inode, s: nat)
    requires Sound(g, st, w) && c < |st.disk.blocks| && !IsIndirect(w.tab, c) && InodeOk(g, w.tab, ino, ip) &&
             ip.kind.Data?
    ensures SlotsClaims(g, st.disk.blocks[c := v], ip, s) == SlotsClaims(g, st.disk.blocks, ip, s)
    decreases g.niaddr - s
  {
    hide Height, Base, Claims;
    if s < g.niaddr {
      UpdateCell(st.disk.blocks, c, v);
      ClaimsAgree(g, st.disk.blocks, st.disk.blocks[c := v], w.tab, ip.addr[s], SlotOwner(g, ino, ip.large, s));
      ClaimsQuiet(g, st, w, c, v, ino, ip, s + 1);
    }
  }

  // ---- the effect of a write ----

  /** Writing logical block k stores no pointer past the flush barrier: the block is there
      already, or no indirect block on the way to it is on disk yet. */
  ghost predicate Covered(g: Geometry, disk: Image, tab: Table, ino: nat, ip: Inode, k: nat)
    requires g.nindir >= 1
  {
    Hidden(g, disk, tab, ino, k) || MapOf(g, disk.blocks, ip, k) != 0
  }

  /** The same for the blocks of n bytes at off. */
  ghost predicate AllCovered(g: Geometry, disk: Image, tab: Table, ino: nat, ip: Inode, off: nat, n: nat)
    requires g.nindir >= 1 && g.bsize >= 1
  {
    forall p: nat {:trigger p / g.bsize} :: off <= p < off + n ==> Covered(g, disk, tab, ino, ip, p / g.bsize)
  }

  /** The bytes at off are now `data`, or, if the write failed, some of them still as before;
      nothing else changed. */
  ghost predicate Overwritten(g: Geometry, blocks0: seq<Block>, ip0: Inode, blocks: seq<Block>, ip: Inode, off: nat,
      data: seq<nat>, ok: bool)
    requires g.nindir >= 1 && g.bsize >= 1
  {
    forall p: nat {:trigger ByteAt(g, blocks, ip, p)} ::
      var was, now := ByteAt(g, blocks0, ip0, p), ByteAt(g, blocks, ip, p);
      if off <= p < off + |data| then now == data[p - off] || (!ok && now == was) else now == was
  }

  /** What is mapped stays mapped to the same block. */
  ghost predicate MappedKept(g: Geometry, blocks: seq<Block>, ip: Inode, blocks': seq<Block>, ip': Inode)
    requires g.nindir >= 1
  {
    forall k: nat {:trigger MapOf(g, blocks, ip, k)} {:trigger MapOf(g, blocks', ip', k)} ::
      MapOf(g, blocks, ip, k) != 0 ==> MapOf(g, blocks', ip', k) == MapOf(g, blocks, ip, k)
  }

  ghost predicate AllMapped(g: Geometry, blocks: seq<Block>, ip: Inode, off: nat, n: nat)
    requires g.nindir >= 1 && g.bsize >= 1
  {
    forall p: nat {:trigger p / g.bsize} :: off <= p < off + n ==> MapOf(g, blocks, ip, p / g.bsize) != 0
  }

  lemma AllMappedThen(g: Geometry, blocks: seq<Block>, ip: Inode, blocks': seq<Block>, ip': Inode, off: nat, n: nat,
      done: nat)
    requires g.nindir >= 1 && g.bsize >= 1 && done < n && off + n < U32 && AllMapped(g, blocks, ip, off, n) &&
             MappedKept(g, blocks, ip, blocks', ip')
    ensures MapOf(g, blocks', ip', (off + done) / g.bsize) != 0
  {
    hide MapOf;
    assert MapOf(g, blocks, ip, (off + done) / g.bsize) != 0;
  }

  /** What writing into inode ino, in core ip0 before and ip now, leaves of the volume. */
  ghost predicate Grown(g: Geometry, st0: State, w0: World, st: State, w: World, ino: nat, ip0: Inode, ip: Inode,
      off: nat, n: nat)
    requires g.nindir >= 1 && g.bsize >= 1
  {
    && OthersKept(st0, w0, st, w, ino) && st.disk.inodes == st0.disk.inodes
    && InodeOk(g, w.tab, ino, ip) && ip == ip0.(addr := ip.addr, large := ip.large)
    && (Tidy(g, st0.disk.blocks, w0.tab, ino, ip0) ==> Tidy(g, st.disk.blocks, w.tab, ino, ip))
    && MappedKept(g, st0.disk.blocks, ip0, st.disk.blocks, ip)
    && (AllCovered(g, st0.disk, w0.tab, ino, ip0, off, n) ==>
          w.breach == w0.breach
          && forall k: nat {:trigger Covered(g, st.disk, w.tab, ino, ip, k)} ::
               Covered(g, st0.disk, w0.tab, ino, ip0, k) ==> Covered(g, st.disk, w.tab, ino, ip, k))
  }

  lemma GrownSelf(g: Geometry, st: State, w: World, ino: nat, ip: Inode, off: nat)
    requires Sound(g, st, w) && InodeOk(g, w.tab, ino, ip)
    ensures Grown(g, st, w, st, w, ino, ip, ip, off, 0)
  {
  }

  lemma GrownThen(g: Geometry, s0: State, w0: World, s1: State, w1: World, s2: State, w2: World, ino: nat, ip0: Inode,
      ip1: Inode, ip2: Inode, off: nat, n: nat, m: nat)
    requires g.nindir >= 1 && g.bsize >= 1 && Grown(g, s0, w0, s1, w1, ino, ip0, ip1, off, n) &&
             Grown(g, s1, w1, s2, w2, ino, ip1, ip2, off + n, m)
    ensures Grown(g, s0, w0, s2, w2, ino, ip0, ip2, off, n + m)
  {
    hide Covered, Tidy, InodeOk, OthersKept, MapOf;
    OthersThen(s0, w0, s1, w1, s2, w2, ino);
    if AllCovered(g, s0.disk, w0.tab, ino, ip0, off, n + m) {
      assert AllCovered(g, s0.disk, w0.tab, ino, ip0, off, n);
      assert AllCovered(g, s1.disk, w1.tab, ino, ip1, off + n, m);
    }
  }

  lemma OverwrittenThen(g: Geometry, blocks0: seq<Block>, ip0: Inode, blocks1: seq<Block>, ip1: Inode,
      blocks2: seq<Block>, ip2: Inode,
                        off: nat, data: seq<nat>, more: seq<nat>, ok: bool)
    requires g.nindir >= 1 && g.bsize >= 1
    requires Overwritten(g, blocks0, ip0, blocks1, ip1, off, data, true) &&
             Overwritten(g, blocks1, ip1, blocks2, ip2, off + |data|, more, ok)
    ensures Overwritten(g, blocks0, ip0, blocks2, ip2, off, data + more, ok)
  {
    hide ByteAt;
    forall p: nat {:trigger ByteAt(g, blocks2, ip2, p)}
      ensures var was, now := ByteAt(g, blocks0, ip0, p), ByteAt(g, blocks2, ip2, p);
              if off <= p < off + |data + more| then now == (data + more)[p - off] ||
                  (!ok && now == was) else now == was
    {
      var mid := ByteAt(g, blocks1, ip1, p);
    }
  }

  /** A bmap, successful or not, as the first half of a write. */
  lemma BmapGrown(g: Geometry, st0: State, w0: World, st: State, w: World, ino: nat, ip: Inode, ip': Inode, lbn: nat,
      boff: nat, off: nat, n: nat)
    requires Sound(g, st0, w0) && Sound(g, st, w) && n >= 1 && Locates(g.bsize, off, lbn, boff)
    requires (exists out :: BmapDone(g, st0, w0, st, w, ino, ip, ip', lbn, out)) ||
             BmapFailed(g, st0, w0, st, w, ino, ip, ip', lbn)
    ensures Grown(g, st0, w0, st, w, ino, ip, ip', off, n)
  {
    hide Hidden, Tidy, InodeOk, NoNewClaims, MapOf;
    KeepsOthers(st0, w0, st, w, ino);
    forall k: nat {:trigger MapOf(g, st0.disk.blocks, ip, k)} | MapOf(g, st0.disk.blocks, ip, k) != 0
      ensures MapOf(g, st.disk.blocks, ip', k) == MapOf(g, st0.disk.blocks, ip, k)
    {
      assert MapOf(g, st.disk.blocks, ip', k) == MapOf(g, st0.disk.blocks, ip, k) || k == lbn;
    }
    if AllCovered(g, st0.disk, w0.tab, ino, ip, off, n) {
      assert Covered(g, st0.disk, w0.tab, ino, ip, off / g.bsize);
      forall k: nat {:trigger Covered(g, st.disk, w.tab, ino, ip', k)} | Covered(g, st0.disk, w0.tab, ino, ip, k)
        ensures Covered(g, st.disk, w.tab, ino, ip', k)
      {
        assert MapOf(g, st.disk.blocks, ip', k) == MapOf(g, st0.disk.blocks, ip, k) || k == lbn;
        if Hidden(g, st0.disk, w0.tab, ino, k) && !(st == st0 && w == w0) {
          HiddenKept(g, st0, w0, st, w, ino, k);
        }
      }
    }
  }

  /** Writing a data block of the file, as the second half. */
  lemma DataGrown(g: Geometry, st: State, w: World, ino: nat, ip: Inode, c: nat, v: Block, st': State, off: nat)
    requires Sound(g, st, w) && InodeOk(g, w.tab, ino, ip) && ip.kind.Data?
    requires c < |st.disk.blocks| && c < |w.tab| && w.tab[c].Owned? && w.tab[c].ino == ino && w.tab[c].h == 0
    requires st'.disk == st.disk.(blocks := st.disk.blocks[c := v])
    ensures Grown(g, st, w, st', w, ino, ip, ip, off, 0)
  {
    hide Hidden, InodeClaims, Claimed, MapOf;
    var blocks' := st'.disk.blocks;
    UpdateCell(st.disk.blocks, c, v);
    assert InodeClaims(g, blocks', ip) == InodeClaims(g, st.disk.blocks, ip) by {
      InodeQuiet(g, st, w, c, v, ino, ip);
    }
    forall x: nat | Claimed(g, blocks', st.disk.inodes, x)
      ensures Claimed(g, st.disk.blocks, st.disk.inodes, x)
    {
      ClaimedAgree(g, st.disk.blocks, blocks', w.tab, st.disk.inodes, x);
    }
    forall k: nat {:trigger MapOf(g, blocks', ip, k)}
      ensures MapOf(g, blocks', ip, k) == MapOf(g, st.disk.blocks, ip, k)
    {
      MapQuiet(g, st, w, c, v, ino, ip, k);
    }
    forall k: nat {:trigger Covered(g, st'.disk, w.tab, ino, ip, k)} | Covered(g, st.disk, w.tab, ino, ip, k)
      ensures Covered(g, st'.disk, w.tab, ino, ip, k)
    {
      MapQuiet(g, st, w, c, v, ino, ip, k);
      if Hidden(g, st.disk, w.tab, ino, k) {
        HiddenSame(g, st, st', w, ino, k);
      }
    }
  }

  lemma InodeQuiet(g: Geometry, st: State, w: World, c: nat, v: Block, ino: nat, ip: Inode)
    requires Sound(g, st, w) && c < |st.disk.blocks| && !IsIndirect(w.tab, c) && InodeOk(g, w.tab, ino, ip) &&
             ip.kind.Data?
    ensures InodeClaims(g, st.disk.blocks[c := v], ip) == InodeClaims(g, st.disk.blocks, ip)
  {
    ClaimsQuiet(g, st, w, c, v, ino, ip, 0);
  }

  lemma HiddenSame(g: Geometry, st: State, st': State, w: World, ino: nat, k: nat)
    requires NoNewClaims(g, st.disk, st'.disk) && Hidden(g, st.disk, w.tab, ino, k)
    ensures Hidden(g, st'.disk, w.tab, ino, k)
  {
    hide Claimed;
  }

  /** A block with part of it replaced. */
  function Patched(v: Block, at: nat, chunk: seq<nat>): (r: Block)
    requires at + |chunk| <= |v|
    ensures |r| == |v|
  {
    v[..at] + chunk + v[at + |chunk|..]
  }

  /** Bmap, then read, patch and write: the bytes of one chunk. */
  lemma ChunkBytes(g: Geometry, st0: State, w0: World, st1: State, w1: World, ino: nat, ip: Inode, ip1: Inode,
                   lbn: nat, c: nat, boff: nat, off: nat, chunk: seq<nat>)
    requires Locates(g.bsize, off, lbn, boff)
    requires Sound(g, st0, w0) && Sound(g, st1, w1) && Narrow(g) && InodeOk(g, w0.tab, ino, ip) && ip.kind.Data?
    requires BmapDone(g, st0, w0, st1, w1, ino, ip, ip1, lbn, c) && boff + |chunk| <= g.bsize
    ensures c < |st1.disk.blocks| && |st1.disk.blocks[c]| == g.bsize && c < |w1.tab|
    ensures g.IsData(c) && w1.tab[c] == Owned(ino, 0, lbn) && InodeOk(g, w1.tab, ino, ip1) && ip1.kind.Data?
    ensures Overwritten(g, st0.disk.blocks, ip, st1.disk.blocks[c := Patched(st1.disk.blocks[c], boff, chunk)], ip1,
            off, chunk, true)
  {
    hide MapOf, Narrow, Tidy, Hidden, NoNewClaims, BmapDone, ByteAt;
    BmapOut(g, st0, w0, st1, w1, ino, ip, ip1, lbn, c);
    MapLabel(g, st1, w1, ino, ip1, lbn);
    var blk := st1.disk.blocks[c];
    var v := Patched(blk, boff, chunk);
    forall p: nat {:trigger ByteAt(g, st1.disk.blocks[c := v], ip1, p)}
      ensures var was, now := ByteAt(g, st0.disk.blocks, ip, p), ByteAt(g, st1.disk.blocks[c := v], ip1, p);
              if off <= p < off + |chunk| then now == chunk[p - off] else now == was
    {
      BmapBytes(g, st0, w0, st1, w1, ino, ip, ip1, lbn, c, p);
      DataBytes(g, st1, w1, ino, ip1, lbn, v, p);
      PatchedByte(g, st1.disk.blocks, ip1, lbn, c, boff, chunk, p);
    }
  }

  lemma BmapOut(g: Geometry, st0: State, w0: World, st1: State, w1: World, ino: nat, ip: Inode, ip1: Inode, lbn: nat,
      c: nat)
    requires g.nindir >= 1 && BmapDone(g, st0, w0, st1, w1, ino, ip, ip1, lbn, c)
    ensures c != 0 && c == MapOf(g, st1.disk.blocks, ip1, lbn) && InodeOk(g, w1.tab, ino, ip1) && ip1.kind == ip.kind
  {
  }

  lemma PatchedByte(g: Geometry, blocks: seq<Block>, ip: Inode, lbn: nat, c: nat, boff: nat, chunk: seq<nat>, p: nat)
    requires g.nindir >= 1 && g.bsize >= 1 && c == MapOf(g, blocks, ip, lbn) && 0 < c < |blocks| &&
             |blocks[c]| == g.bsize
    requires boff + |chunk| <= g.bsize
    ensures var at := lbn * g.bsize + boff;
            && (at <= p < at + |chunk| ==>
                 p / g.bsize == lbn && Patched(blocks[c], boff, chunk)[p % g.bsize] == chunk[p - at])
            && (p / g.bsize == lbn && !(at <= p < at + |chunk|) ==>
                 Patched(blocks[c], boff, chunk)[p % g.bsize] == ByteAt(g, blocks, ip, p))
  {
    hide MapOf;
    var at := lbn * g.bsize + boff;
    DivMod(p, g.bsize);
    if at <= p < at + |chunk| {
      DivUnique(p, g.bsize, lbn, p - lbn * g.bsize);
    }
  }

  lemma GrownWiden(g: Geometry, st0: State, w0: World, st: State, w: World, ino: nat, ip0: Inode, ip: Inode, off: nat,
      n: nat, m: nat)
    requires g.nindir >= 1 && g.bsize >= 1 && n <= m && Grown(g, st0, w0, st, w, ino, ip0, ip, off, n)
    ensures Grown(g, st0, w0, st, w, ino, ip0, ip, off, m)
  {
    hide Covered, OthersKept, Tidy, InodeOk;
    if AllCovered(g, st0.disk, w0.tab, ino, ip0, off, m) {
      assert AllCovered(g, st0.disk, w0.tab, ino, ip0, off, n);
    }
  }

  lemma OverwrittenWiden(g: Geometry, blocks0: seq<Block>, ip0: Inode, blocks: seq<Block>, ip: Inode, off: nat,
      data: seq<nat>, all: seq<nat>)
    requires g.nindir >= 1 && g.bsize >= 1 && data <= all && Overwritten(g, blocks0, ip0, blocks, ip, off, data, false)
    ensures Overwritten(g, blocks0, ip0, blocks, ip, off, all, false)
  {
    hide ByteAt;
  }

  lemma OverwrittenNone(g: Geometry, blocks: seq<Block>, ip: Inode, off: nat)
    requires g.nindir >= 1 && g.bsize >= 1
    ensures Overwritten(g, blocks, ip, blocks, ip, off, [], true)
  {
  }

  /** The size is no part of the block map. */
  lemma {:induction false} SizeClaims(g: Geometry, blocks: seq<Block>, ip: Inode, n: nat, s: nat)
    ensures SlotsClaims(g, blocks, ip.(size := n), s) == SlotsClaims(g, blocks, ip, s)
    decreases g.niaddr - s
  {
    if s < g.niaddr {
      SizeClaims(g, blocks, ip, n, s + 1);
    }
  }

  lemma SizeOnly(g: Geometry, blocks: seq<Block>, tab: Table, ino: nat, ip: Inode, n: nat)
    requires g.nindir >= 1 && g.bsize >= 1
    ensures InodeClaims(g, blocks, ip.(size := n)) == InodeClaims(g, blocks, ip)
    ensures InodeOk(g, tab, ino, ip) ==> InodeOk(g, tab, ino, ip.(size := n))
    ensures forall p: nat {:trigger ByteAt(g, blocks, ip.(size := n), p)} ::
            ByteAt(g, blocks, ip.(size := n), p) == ByteAt(g, blocks, ip, p)
  {
    SizeClaims(g, blocks, ip, n, 0);
  }

  /** The outcome of a file write, the inode included. */
  ghost predicate FileWritten(g: Geometry, st0: State, w0: World, st: State, w: World, ino: nat, ip0: Inode, ip: Inode,
                              off: nat, data: seq<nat>, ok: bool)
    requires g.nindir >= 1 && g.bsize >= 1
  {
    var end := if off + |data| > ip0.size then off + |data| else ip0.size;
    && OthersKept(st0, w0, st, w, ino)
    && InodeOk(g, w.tab, ino, ip) && ip == ip0.(addr := ip.addr, large := ip.large, size := ip.size)
    && (Tidy(g, st0.disk.blocks, w0.tab, ino, ip0) ==> Tidy(g, st.disk.blocks, w.tab, ino, ip))
    && Overwritten(g, st0.disk.blocks, ip0, st.disk.blocks, ip, off, data, ok)
    && (if ok then 1 <= ino < |st.disk.inodes| && st.disk.inodes[ino] == ip && ip.size == end && NoLoss(w0.tab, w.tab)
        else st.disk.inodes == st0.disk.inodes && (ip.size == ip0.size || ip.size == end))
    && (AllCovered(g, st0.disk, w0.tab, ino, ip0, off, |data|) ==> w.breach == w0.breach)
  }

  /** The data is written; the inode still has to be. */
  lemma WriteFailed(g: Geometry, st0: State, w0: World, st: State, w: World, ino: nat, ip0: Inode, ip: Inode, off: nat,
      data: seq<nat>)
    requires g.nindir >= 1 && g.bsize >= 1 && Grown(g, st0, w0, st, w, ino, ip0, ip, off, |data|)
    requires Overwritten(g, st0.disk.blocks, ip0, st.disk.blocks, ip, off, data, false)
    ensures FileWritten(g, st0, w0, st, w, ino, ip0, ip, off, data, false)
  {
  }

  /** Setting the size and writing the inode ends the write. */
  lemma WriteEnds(g: Geometry, st0: State, w0: World, st: State, w: World, st': State, w': World, ino: nat, ip0: Inode,
      ip: Inode,
                  off: nat, data: seq<nat>, ok: bool)
    requires g.nindir >= 1 && g.bsize >= 1 && Grown(g, st0, w0, st, w, ino, ip0, ip, off, |data|) &&
             NoLoss(w0.tab, w.tab)
    requires Overwritten(g, st0.disk.blocks, ip0, st.disk.blocks, ip, off, data, true)
    requires st'.disk.blocks == st.disk.blocks && w'.tab == w.tab && w'.breach == w.breach
    requires var ip' := ip.(size := if off + |data| > ip0.size then off + |data| else ip0.size);
             if ok then 1 <= ino < |st.disk.inodes| &&
                 st'.disk.inodes == st.disk.inodes[ino := ip'] else st'.disk.inodes == st.disk.inodes
    ensures FileWritten(g, st0, w0, st', w', ino, ip0,
            ip.(size := if off + |data| > ip0.size then off + |data| else ip0.size), off, data, ok)
  {
    hide ByteAt, AllCovered, InodeClaims;
    SizeOnly(g, st.disk.blocks, w.tab, ino, ip, if off + |data| > ip0.size then off + |data| else ip0.size);
  }
}
