/** File data and inode lifetime: reading, writing, truncating and destroying
    (v7fs.c, filsys.c), over the mounted volume. */
module FileOps {
  import opened LinkWidth
  import opened Geometry
  import opened FreeChain
  import opened Image
  import opened Ownership
  import opened Consistency
  import opened TreeSteps
  import opened Descent
  import opened BlockMap
  import opened Promotion
  import opened SlotTruncation
  import opened Accounting
  import opened FileBytes
  import opened Engine

  /** Write a data block of a file. */
  method PutData(fs: Edition, b: nat, v: Block, ghost w: World) returns (ok: bool)
    requires fs.Ok(w) && fs.g.IsData(b) && b < |w.tab| && w.tab[b].Owned? && w.tab[b].h == 0 && |v| == fs.g.bsize
    modifies fs`tick, fs`disk, fs`log
    ensures old(fs.Faults()) <= fs.Faults() && (!ok <==> old(fs.Faults()) < fs.Faults())
    ensures fs.Ok(w)
    ensures ok ==> b < |old(fs.disk).blocks| && fs.disk == old(fs.disk).(blocks := old(fs.disk).blocks[b := v])
    ensures !ok ==> fs.disk == old(fs.disk)
  {
    hide Sound, Guarded, LogOk, NeverD, IsNode;
    ghost var st0, log0 := fs.St(), fs.log;
    Facts(fs.g, st0, w);
    ok := fs.WriteBlock(b, v);
    if ok {
      NotNode(fs.g, st0, w, b);
      ghost var st1 := WriteQuiet(fs.g, st0, w, b, v);
      fs.Logged(w, w, log0);
    }
  }

  /** One block's worth of a write: map, read, patch, write back. */
  method WriteChunk(fs: Edition, ino: nat, ip: Inode, lbn: nat, boff: nat, chunk: seq<nat>, ghost off: nat,
      ghost w: World)
    returns (rc: Errno, ip': Inode, ghost w': World)
    requires fs.Ok(w) && Narrow(fs.g) && InodeOk(fs.g, w.tab, ino, ip) && ip.kind.Data?
    requires lbn < U32 && Locates(fs.g.bsize, off, lbn, boff) && 1 <= |chunk| && boff + |chunk| <= fs.g.bsize
    modifies fs, fs.free
    ensures old(fs.Faults()) <= fs.Faults() && (rc == EIO <==> old(fs.Faults()) < fs.Faults())
    ensures fs.Ok(w') && Grown(fs.g, old(fs.St()), w, fs.St(), w', ino, ip, ip', off, |chunk|)
    ensures Overwritten(fs.g, old(fs.disk).blocks, ip, fs.disk.blocks, ip', off, chunk, rc == OK)
    ensures rc == OK ==> NoLoss(w.tab, w'.tab)
    ensures rc in {ENOSPC, EFBIG} ==> MapOf(fs.g, old(fs.disk).blocks, ip, lbn) == 0
    ensures rc in {OK, ENOSPC, EIO, EFBIG}
    ensures fs.Faults() == old(fs.Faults()) ==> Spent(w, old(fs.tfree), w', fs.tfree, PerBlock(fs.g))
    ensures rc == ENOSPC ==> Stack(w'.segs) == []
    ensures rc == EFBIG ==> Unreachable(fs.g, off)
  {
    hide Sound, Guarded, LogOk, NeverD, Narrow, InodeOk, BmapDone, BmapFailed, Grown, Overwritten, MapOf, Locates,
         Patched, Spent, Stack, Unreachable;
    ghost var st0, g := fs.St(), fs.g;
    Facts(fs.g, st0, w);
    var bno;
    rc, ip', bno, w' := fs.Bmap(ino, ip, lbn, true, w);
    ghost var st1 := fs.St();
    BmapGrown(g, st0, w, st1, w', ino, ip, ip', lbn, boff, off, |chunk|);
    if rc != OK {
      if rc == EFBIG {
        NoSlotAt(g, ip'.large, lbn, boff, off);
      }
      BmapFailedBytes(g, st0, w, st1, w', ino, ip, ip', lbn, off, chunk);
      return;
    }
    ChunkBytes(g, st0, w, st1, w', ino, ip, ip', lbn, bno, boff, off, chunk);
    BmapDoneBytes(g, st0, w, st1, w', ino, ip, ip', lbn, bno, off, chunk);
    var ok, blk := PatchBlock(fs, bno, boff, chunk, w');
    if !ok {
      return EIO, ip', w';
    }
    DataGrown(g, st1, w', ino, ip', bno, blk, fs.St(), off + |chunk|);
    GrownThen(g, st0, w, st1, w', fs.St(), w', ino, ip, ip', ip', off, |chunk|, 0);
    rc := OK;
  }

  /** Read a data block of a file, patch it and write it back. */
  method PatchBlock(fs: Edition, b: nat, boff: nat, chunk: seq<nat>, ghost w: World) returns (ok: bool, blk: Block)
    requires fs.Ok(w) && fs.g.IsData(b) && b < |w.tab| && w.tab[b].Owned? && w.tab[b].h == 0
    requires boff + |chunk| <= fs.g.bsize
    modifies fs`tick, fs`disk, fs`log
    ensures old(fs.Faults()) <= fs.Faults() && (!ok <==> old(fs.Faults()) < fs.Faults())
    ensures fs.Ok(w) && (!ok ==> fs.disk == old(fs.disk))
    ensures ok ==> b < |old(fs.disk).blocks| && boff + |chunk| <= |old(fs.disk).blocks[b]|
                   && blk == Patched(old(fs.disk).blocks[b], boff, chunk)
                   && fs.disk == old(fs.disk).(blocks := old(fs.disk).blocks[b := blk])
  {
    hide Sound, Guarded, LogOk, NeverD;
    Facts(fs.g, fs.St(), w);
    ok, blk := fs.ReadBlock(b);
    if ok {
      blk := Patched(blk, boff, chunk);
      ok := PutData(fs, b, blk, w);
    }
  }

  lemma BmapFailedBytes(g: Geometry, st0: State, w0: World, st: State, w: World, ino: nat, ip: Inode, ip': Inode,
      lbn: nat, off: nat, data: seq<nat>)
    requires Sound(g, st0, w0) && Narrow(g) && InodeOk(g, w0.tab, ino, ip) && ip.kind.Data?
    requires BmapFailed(g, st0, w0, st, w, ino, ip, ip', lbn)
    ensures Overwritten(g, st0.disk.blocks, ip, st.disk.blocks, ip', off, data, false)
  {
    hide BmapFailed, ByteAt, Narrow, InodeOk;
    forall p: nat
      ensures ByteAt(g, st.disk.blocks, ip', p) == ByteAt(g, st0.disk.blocks, ip, p)
    {
      FailedBytes(g, st0, w0, st, w, ino, ip, ip', lbn, p);
    }
  }

  lemma BmapDoneBytes(g: Geometry, st0: State, w0: World, st: State, w: World, ino: nat, ip: Inode, ip': Inode,
      lbn: nat, out: nat, off: nat, data: seq<nat>)
    requires Sound(g, st0, w0) && Narrow(g) && InodeOk(g, w0.tab, ino, ip) && ip.kind.Data?
    requires BmapDone(g, st0, w0, st, w, ino, ip, ip', lbn, out)
    ensures Overwritten(g, st0.disk.blocks, ip, st.disk.blocks, ip', off, data, false)
  {
    hide BmapDone, ByteAt, Narrow, InodeOk;
    forall p: nat
      ensures ByteAt(g, st.disk.blocks, ip', p) == ByteAt(g, st0.disk.blocks, ip, p)
    {
      BmapBytes(g, st0, w0, st, w, ino, ip, ip', lbn, out, p);
    }
  }

  /** The loop of a file write: chunk by chunk, each within one block. */
  method WriteLoop(fs: Edition, ino: nat, ip: Inode, buf: seq<nat>, off: nat, ghost w: World)
      returns (rc: Errno, ip': Inode, ghost w': World)
    requires fs.Ok(w) && Narrow(fs.g) && InodeOk(fs.g, w.tab, ino, ip) && ip.kind.Data? && off + |buf| < U32
    modifies fs, fs.free
    ensures old(fs.Faults()) <= fs.Faults() && (rc == EIO <==> old(fs.Faults()) < fs.Faults())
    ensures fs.Ok(w') && Grown(fs.g, old(fs.St()), w, fs.St(), w', ino, ip, ip', off, |buf|)
    ensures Overwritten(fs.g, old(fs.disk).blocks, ip, fs.disk.blocks, ip', off, buf, rc == OK)
    ensures rc == OK ==> NoLoss(w.tab, w'.tab)
    ensures AllMapped(fs.g, old(fs.disk).blocks, ip, off, |buf|) ==> rc in {OK, EIO}
    ensures rc in {OK, ENOSPC, EIO, EFBIG}
    ensures fs.Faults() == old(fs.Faults()) ==> Spent(w, old(fs.tfree), w', fs.tfree, Need(fs.g, off, |buf|))
    ensures rc == ENOSPC ==> Stack(w'.segs) == []
    ensures rc == EFBIG ==>
            exists p: nat {:trigger Unreachable(fs.g, p)} :: off <= p < off + |buf| && Unreachable(fs.g, p)
  {
    hide Sound, Guarded, LogOk, NeverD, Narrow, InodeOk, Grown, Overwritten, Locates, NoLoss, MapOf, AllMapped, Spent,
         Stack, Unreachable, Need;
    ghost var st0, g := fs.St(), fs.g;
    Facts(fs.g, st0, w);
    NoLossSelf(w.tab);
    rc, ip', w' := OK, ip, w;
    var done := 0;
    GrownSelf(g, st0, w, ino, ip, off);
    TouchedNone(g, off);
    SpentNone(w, w, fs.tfree, 0);
    OverwrittenNone(g, fs.disk.blocks, ip, off);
    while done < |buf|
      invariant 0 <= done <= |buf| && fs.Ok(w') && rc == OK && fs.Faults() == old(fs.Faults())
      invariant Grown(g, st0, w, fs.St(), w', ino, ip, ip', off, done)
      invariant Overwritten(g, st0.disk.blocks, ip, fs.disk.blocks, ip', off, buf[..done], true)
      invariant NoLoss(w.tab, w'.tab) && (done == 0 || done == |buf| || (off + done) % g.bsize == 0)
      invariant fs.Faults() == old(fs.Faults()) ==> Spent(w, old(fs.tfree), w', fs.tfree, Need(g, off, done))
    {
      ghost var st1, w1, ip1, tf1 := fs.St(), w', ip', fs.tfree;
      GrownInode(g, st0, w, st1, w1, ino, ip, ip1, off, done);
      var lbn, boff, n := ChunkAt(fs.g.bsize, off + done, |buf| - done);
      var chunk := buf[done..done + n];
      rc, ip', w' := WriteChunk(fs, ino, ip', lbn, boff, chunk, off + done, w');
      if fs.Faults() == old(fs.Faults()) {
        SpentThen(w, old(fs.tfree), w1, tf1, w', fs.tfree, Need(g, off, done), PerBlock(g));
        NeedMore(g, off, done, n, |buf|, boff, lbn);
        SpentMore(w, old(fs.tfree), w', fs.tfree, Need(g, off, done) + PerBlock(g), Need(g, off, |buf|));
      }
      ChunkEnd(g.bsize, off + done, lbn, boff, n);
      GrownThen(g, st0, w, st1, w1, fs.St(), w', ino, ip, ip1, ip', off, done, n);
      OverwrittenThen(g, st0.disk.blocks, ip, st1.disk.blocks, ip1, fs.disk.blocks, ip', off, buf[..done], chunk,
          rc == OK);
      assert buf[..done] + chunk == buf[..done + n];
      if rc != OK {
        if rc != EIO && AllMapped(g, st0.disk.blocks, ip, off, |buf|) {
          assert Grown(g, st0, w, st1, w1, ino, ip, ip1, off, done);
          StillMapped(g, st0, w, st1, w1, ino, ip, ip1, off, done, |buf|, lbn, boff);
        }
        GrownWiden(g, st0, w, fs.St(), w', ino, ip, ip', off, done + n, |buf|);
        OverwrittenWiden(g, st0.disk.blocks, ip, fs.disk.blocks, ip', off, buf[..done + n], buf);
        return;
      }
      NoLossThen(w.tab, w1.tab, w'.tab);
      done := done + n;
    }
    assert buf[..done] == buf;
  }

  /** Where position pos lies, and how much of a transfer of `left` bytes falls into its block. */
  method ChunkAt(bsize: nat, pos: nat, left: nat) returns (lbn: nat, boff: nat, n: nat)
    requires bsize >= 1 && left >= 1 && pos < U32
    ensures Locates(bsize, pos, lbn, boff) && lbn < U32
    ensures 1 <= n <= left && boff + n <= bsize
    ensures n == left || boff + n == bsize
  {
    Locate(pos, bsize);
    lbn, boff := pos / bsize, pos % bsize;
    n := bsize - boff;
    if n > left {
      n := left;
    }
  }

  /** No slot covers the block at position off, in the layout a write there finds or makes. */
  ghost predicate Unreachable(g: Geometry, off: nat)
    requires g.bsize >= 1
  {
    exists large :: (g.ilarg && !large ==> off / g.bsize < g.ndaddr) && SlotFor(g, large, off / g.bsize, 0) == g.niaddr
  }

  /** Every byte below maxfile has a slot. */
  ghost predicate Reachable(g: Geometry, maxfile: nat)
    requires g.bsize >= 1
  {
    forall off: nat {:trigger Unreachable(g, off)} :: off < maxfile ==> !Unreachable(g, off)
  }

  lemma NoSlotAt(g: Geometry, large: bool, lbn: nat, boff: nat, off: nat)
    requires g.bsize >= 1 && Locates(g.bsize, off, lbn, boff)
    requires SlotFor(g, large, lbn, 0) == g.niaddr && (g.ilarg && !large ==> lbn < g.ndaddr)
    ensures Unreachable(g, off)
  {
  }

  /** How many blocks n bytes at off touch. */
  function Touched(bsize: nat, off: nat, n: nat): nat
    requires bsize >= 1
  {
    if n == 0 then 0
    else
      DivOrder(off, off + n - 1, bsize);
      (off + n - 1) / bsize - off / bsize + 1
  }

  lemma DivOrder(a: nat, b: nat, m: nat)
    requires a <= b && m >= 1
    ensures a / m <= b / m
  {
    DivMod(a, m);
    DivMod(b, m);
    MulMonotone(b / m + 1, a / m, m);
    MulPlus(b / m, 1, m);
  }

  /** The blocks that n bytes at off may take from the list. */
  function Need(g: Geometry, off: nat, n: nat): nat
    requires g.bsize >= 1
  {
    PerBlock(g) * Touched(g.bsize, off, n)
  }

  lemma TouchedNone(g: Geometry, off: nat)
    requires g.bsize >= 1
    ensures Need(g, off, 0) == 0
  {
  }

  lemma ChunkEnd(bsize: nat, pos: nat, lbn: nat, boff: nat, n: nat)
    requires bsize >= 1 && Locates(bsize, pos, lbn, boff) && boff + n <= bsize
    ensures boff + n == bsize ==> (pos + n) % bsize == 0
  {
    if boff + n == bsize {
      MulPlus(lbn, 1, bsize);
      DivUnique(pos + n, bsize, lbn + 1, 0);
    }
  }

  /** A chunk touches one block more. */
  lemma TouchedMore(bsize: nat, off: nat, done: nat, n: nat, all: nat, boff: nat, lbn: nat)
    requires bsize >= 1 && Locates(bsize, off + done, lbn, boff) && 1 <= n && boff + n <= bsize && done + n <= all
    requires done == 0 || (off + done) % bsize == 0
    ensures Touched(bsize, off, done) + 1 == Touched(bsize, off, done + n) <= Touched(bsize, off, all)
  {
    DivUnique(off + done + n - 1, bsize, lbn, boff + n - 1);
    if done > 0 {
      DivUnique(off + done, bsize, lbn, boff);
      MulPlus(lbn - 1, 1, bsize);
      DivUnique(off + done - 1, bsize, lbn - 1, bsize - 1);
    }
    DivOrder(off + done + n - 1, off + all - 1, bsize);
  }

  lemma NeedMore(g: Geometry, off: nat, done: nat, n: nat, all: nat, boff: nat, lbn: nat)
    requires g.bsize >= 1 && Locates(g.bsize, off + done, lbn, boff) && 1 <= n && boff + n <= g.bsize && done + n <= all
    requires done == 0 || (off + done) % g.bsize == 0
    ensures Need(g, off, done) + PerBlock(g) == Need(g, off, done + n) <= Need(g, off, all)
  {
    hide Touched;
    TouchedMore(g.bsize, off, done, n, all, boff, lbn);
    MulPlus(Touched(g.bsize, off, done), 1, PerBlock(g));
    MulMonotone(Touched(g.bsize, off, done + n), Touched(g.bsize, off, all), PerBlock(g));
  }

  lemma StillMapped(g: Geometry, st0: State, w0: World, st: State, w: World, ino: nat, ip0: Inode, ip: Inode, off: nat,
      done: nat, n: nat, lbn: nat, boff: nat)
    requires g.nindir >= 1 && g.bsize >= 1 && Grown(g, st0, w0, st, w, ino, ip0, ip, off, done) && done < n &&
             off + n < U32
    requires AllMapped(g, st0.disk.blocks, ip0, off, n) && Locates(g.bsize, off + done, lbn, boff)
    ensures MapOf(g, st.disk.blocks, ip, lbn) != 0
  {
    AllMappedThen(g, st0.disk.blocks, ip0, st.disk.blocks, ip, off, n, done);
  }

  lemma GrownInode(g: Geometry, st0: State, w0: World, st: State, w: World, ino: nat, ip0: Inode, ip: Inode, off: nat,
      n: nat)
    requires g.nindir >= 1 && g.bsize >= 1 && Grown(g, st0, w0, st, w, ino, ip0, ip, off, n)
    ensures InodeOk(g, w.tab, ino, ip) && ip == ip0.(addr := ip.addr, large := ip.large)
    ensures st.disk.inodes == st0.disk.inodes
  {
  }

  /** Write buf at off and persist the inode. */
  method FileWrite(fs: Edition, ino: nat, ip: Inode, buf: seq<nat>, off: nat, ghost w: World)
      returns (rc: Errno, ip': Inode, ghost late: bool, ghost w': World)
    requires fs.Ok(w) && Narrow(fs.g) && InodeOk(fs.g, w.tab, ino, ip) && ip.kind.Data? && off + |buf| < U32
    modifies fs, fs.free
    ensures old(fs.Faults()) <= fs.Faults() && (rc == EIO <==> old(fs.Faults()) < fs.Faults())
    ensures fs.Ok(w') && FileWritten(fs.g, old(fs.St()), w, fs.St(), w', ino, ip, ip', off, buf, rc == OK)
    ensures AllMapped(fs.g, old(fs.disk).blocks, ip, off, |buf|) ==> rc in {OK, EIO, EINVAL}
    ensures rc == EINVAL ==> !(1 <= ino < |old(fs.disk).inodes|)
    ensures fs.Faults() == old(fs.Faults()) ==> Spent(w, old(fs.tfree), w', fs.tfree, Need(fs.g, off, |buf|))
    ensures rc == ENOSPC ==> Stack(w'.segs) == []
    ensures rc == EFBIG ==>
            exists p: nat {:trigger Unreachable(fs.g, p)} :: off <= p < off + |buf| && Unreachable(fs.g, p)
    ensures ip'.size == if (rc == OK || late) && off + |buf| > ip.size then off + |buf| else ip.size
    ensures late ==>
            rc in {EIO, EINVAL} && Overwritten(fs.g, old(fs.disk).blocks, ip, fs.disk.blocks, ip', off, buf, true)
    ensures rc in {OK, EIO, ENOSPC, EFBIG, EINVAL}
  {
    hide Sound, Guarded, LogOk, NeverD, Narrow, InodeOk, Grown, Overwritten, FileWritten, AllMapped, Spent, Stack,
         Unreachable, Need;
    ghost var st0, g := fs.St(), fs.g;
    Facts(fs.g, st0, w);
    late := false;
    rc, ip', w' := WriteLoop(fs, ino, ip, buf, off, w);
    ghost var st1, w1, ip1, tf1 := fs.St(), w', ip', fs.tfree;
    GrownInode(g, st0, w, st1, w1, ino, ip, ip1, off, |buf|);
    if rc != OK {
      WriteFailed(g, st0, w, st1, w1, ino, ip, ip1, off, buf);
      return;
    }
    if off + |buf| > ip'.size {
      ip' := ip'.(size := off + |buf|);
    }
    SizeOnly(g, st1.disk.blocks, w1.tab, ino, ip1, ip'.size);
    rc, w' := fs.WriteInode(ino, ip', w');
    late := rc != OK;
    SpentNone(w1, w', tf1, 0);
    if fs.Faults() == old(fs.Faults()) {
      SpentThen(w, old(fs.tfree), w1, tf1, w', fs.tfree, Need(g, off, |buf|), 0);
    }
    OverwrittenSize(g, st0.disk.blocks, ip, st1.disk.blocks, ip1, ip'.size, off, buf);
    WriteEnds(g, st0, w, st1, w1, fs.St(), w', ino, ip, ip1, off, buf, rc == OK);
  }

  lemma OverwrittenSize(g: Geometry, blocks0: seq<Block>, ip0: Inode, blocks: seq<Block>, ip: Inode, n: nat, off: nat,
      data: seq<nat>)
    requires g.nindir >= 1 && g.bsize >= 1 && Overwritten(g, blocks0, ip0, blocks, ip, off, data, true)
    ensures Overwritten(g, blocks0, ip0, blocks, ip.(size := n), off, data, true)
  {
    hide ByteAt;
    SizeOnly(g, blocks, [], 0, ip, n);
  }

  /** Free every collected block. */
  method Drain(fs: Edition, bl: seq<nat>, ghost w: World) returns (ghost leaked: bool, ghost w': World)
    requires fs.Ok(w) && Distinct(bl) && |w.tab| == fs.g.fsize && forall b :: b in bl ==>
             fs.g.IsData(b) && w.tab[b].Alloc?
    modifies fs, fs.free
    ensures old(fs.Faults()) <= fs.Faults() && (leaked ==> old(fs.Faults()) < fs.Faults())
    ensures fs.Ok(w') && Drained(old(fs.St()), w, fs.St(), w', bl, |bl|, leaked)
    ensures fs.Faults() == old(fs.Faults()) ==> Spent(w, old(fs.tfree), w', fs.tfree, 0)
  {
    hide Sound, ListOk, Guarded, LogOk, NeverD, Stack, Spent;
    ghost var st0 := fs.St();
    leaked, w' := false, w;
    DrainedNone(st0, w, bl);
    SpentNone(w, w, fs.tfree, 0);
    for i := 0 to |bl|
      invariant fs.Ok(w') && Drained(st0, w, fs.St(), w', bl, i, leaked)
      invariant old(fs.Faults()) <= fs.Faults() && (leaked ==> old(fs.Faults()) < fs.Faults())
      invariant fs.Faults() == old(fs.Faults()) ==> Spent(w, old(fs.tfree), w', fs.tfree, 0)
    {
      assert bl[i] !in bl[..i];
      assert bl[i] in bl;
      ghost var st1, w1, tf1, leak := fs.St(), w', fs.tfree, false;
      SoundList(fs.g, st1, w1);
      leak, w' := fs.Bfree(bl[i], w');
      if fs.Faults() == old(fs.Faults()) {
        SpentGiven(w1, tf1, w', fs.tfree, bl[i]);
        SpentThen(w, old(fs.tfree), w1, tf1, w', fs.tfree, 0, 0);
      }
      DrainedStep(st0, w, st1, w1, fs.St(), w', bl, i, leaked, leak);
      leaked := leaked || leak;
    }
  }

  lemma SpentGiven(w: World, tf: nat, w': World, tf': nat, b: nat)
    requires Stack(w'.segs) == Stack(w.segs) + [b] && tf' == tf + 1
    ensures Spent(w, tf, w', tf', 0)
  {
    hide Stack;
  }

  /** The steps before w1 left the list alone. */
  lemma SpentFrom(w: World, w1: World, w2: World, tf: nat, tf': nat, k: nat)
    requires w1.segs == w.segs
    ensures Spent(w1, tf, w2, tf', k) ==> Spent(w, tf, w2, tf', k)
  {
  }

  lemma StepSegs(w: World, w1: World, w2: World, tf: nat, tf': nat)
    requires w2.segs == w1.segs
    ensures InStep(w, tf, w1, tf') ==> InStep(w, tf, w2, tf')
  {
  }

  lemma StepFrom(w: World, w1: World, w2: World, w3: World, tf: nat, tf': nat)
    requires w1.segs == w.segs && w3.segs == w2.segs
    ensures InStep(w1, tf, w2, tf') ==> InStep(w, tf, w3, tf')
  {
  }

  /** Once the shorter inode is on disk: drop ownership of what was collected, and free it. */
  method ReleaseDrain(fs: Edition, ino: nat, bl: seq<nat>, ghost blocks0: seq<Block>, ghost ip0: Inode, ghost ip: Inode,
      ghost w: World)
    returns (ghost leaked: bool, ghost w': World)
    requires fs.Ok(w) && 1 <= ino < |fs.disk.inodes| && fs.disk.inodes[ino] == ip
    requires TreesOk(fs.g, blocks0, w.tab) && InodeOk(fs.g, w.tab, ino, ip0) && Tidy(fs.g, blocks0, w.tab, ino, ip0)
    requires Narrow(fs.g) &&
             multiset(bl) + multiset(InodeClaims(fs.g, fs.disk.blocks, ip)) == multiset(InodeClaims(fs.g, blocks0, ip0))
    modifies fs, fs.free
    ensures old(fs.Faults()) <= fs.Faults() && (leaked ==> old(fs.Faults()) < fs.Faults())
    ensures fs.Ok(w') && w'.breach == w.breach && fs.disk.inodes == old(fs.disk).inodes
    ensures OthersKept(old(fs.St()), w, fs.St(), w', ino) && Tidy(fs.g, fs.disk.blocks, w'.tab, ino, ip)
    ensures SameBytes(fs.g, old(fs.disk).blocks, fs.disk.blocks, ip)
    ensures !leaked ==> NoLoss(w.tab, w'.tab)
    ensures fs.Faults() == old(fs.Faults()) ==> Spent(w, old(fs.tfree), w', fs.tfree, 0)
  {
    hide Sound, Guarded, LogOk, NeverD, Stack, TreesOk, InodeClaims, Tidy, OthersKept, InodeOk, Drained, NoLoss, Spent;
    ghost var st0, g := fs.St(), fs.g;
    Facts(g, st0, w);
    Severed(g, st0, w, ino, blocks0, ip0, ip, bl);
    ghost var dead := set b | b in bl;
    ghost var w1 := Release(g, st0, w, dead);
    InodeOnDisk(g, st0, w1, ino);
    leaked, w' := Drain(fs, bl, w1);
    SpentFrom(w, w1, w', old(fs.tfree), fs.tfree, 0);
    ReleasedTidy(g, st0, w, fs.St(), w1, w', ino, ip, bl, leaked);
    DrainedBytes(g, st0, w1, fs.St(), w', ino, ip, bl, leaked);
  }

  lemma InodeOnDisk(g: Geometry, st: State, w: World, ino: nat)
    requires Sound(g, st, w) && 1 <= ino < |st.disk.inodes|
    ensures InodeOk(g, w.tab, ino, st.disk.inodes[ino]) && g.Valid()
  {
  }

  ghost predicate SameBytes(g: Geometry, blocks: seq<Block>, blocks': seq<Block>, ip: Inode)
  {
    g.nindir >= 1 && g.bsize >= 1 && ip.kind.Data? ==>
      forall p: nat {:trigger ByteAt(g, blocks', ip, p)} :: ByteAt(g, blocks', ip, p) == ByteAt(g, blocks, ip, p)
  }

  lemma DrainedBytes(g: Geometry, st: State, w: World, st': State, w': World, ino: nat, ip: Inode, bl: seq<nat>,
      leaked: bool)
    requires Sound(g, st, w) && Narrow(g) && OwnedKept(st, w, st', w') && 1 <= ino && InodeOk(g, w.tab, ino, ip)
    requires Drained(st, w, st', w', bl, |bl|, leaked)
    ensures w'.breach == w.breach && st'.disk.inodes == st.disk.inodes
    ensures SameBytes(g, st.disk.blocks, st'.disk.blocks, ip)
  {
    hide ByteAt, Narrow;
    if ip.kind.Data? {
      OwnedOthers(st, w, st', w', 0);
      forall p: nat
        ensures ByteAt(g, st'.disk.blocks, ip, p) == ByteAt(g, st.disk.blocks, ip, p)
      {
        OtherBytes(g, st, w, st', w', 0, ino, ip, p);
      }
    }
  }

  /** The bytes of the first `cut` blocks are kept; past them everything reads as zero. */
  ghost predicate CutBytes(g: Geometry, blocks0: seq<Block>, ip0: Inode, blocks: seq<Block>, ip: Inode, cut: nat)
    requires g.nindir >= 1 && g.bsize >= 1
  {
    forall p: nat {:trigger ByteAt(g, blocks, ip, p)} ::
      ByteAt(g, blocks, ip, p) == if p / g.bsize < cut then ByteAt(g, blocks0, ip0, p) else 0
  }

  lemma TruncatedBytes(g: Geometry, st0: State, w: World, st: State, ino: nat, cut: nat, ip0: Inode, ip: Inode,
      bl: seq<nat>, n: nat)
    requires Sound(g, st0, w) && Narrow(g) && InodeOk(g, w.tab, ino, ip0) && ip0.kind.Data?
    requires Truncated(g, w.tab, ino, cut, st0.disk.blocks, ip0, st.disk.blocks, ip, bl) &&
             Shorn(g, w.tab, ino, cut, st0.disk.blocks, st.disk.blocks)
    ensures CutBytes(g, st0.disk.blocks, ip0, st.disk.blocks, ip.(size := n), cut)
    ensures InodeOk(g, w.tab, ino, ip.(size := n))
    ensures multiset(bl) + multiset(InodeClaims(g, st.disk.blocks, ip.(size := n))) ==
            multiset(InodeClaims(g, st0.disk.blocks, ip0))
  {
    hide MapOf, Narrow, InodeClaims, CutFrom;
    SizeOnly(g, st.disk.blocks, w.tab, ino, ip, n);
    forall p: nat {:trigger ByteAt(g, st.disk.blocks, ip.(size := n), p)}
      ensures ByteAt(g, st.disk.blocks, ip.(size := n), p) == if p / g.bsize < cut
              then ByteAt(g, st0.disk.blocks, ip0, p) else 0
    {
      MapLabel(g, st0, w, ino, ip0, p / g.bsize);
      assert ByteAt(g, st.disk.blocks, ip.(size := n), p) == ByteAt(g, st.disk.blocks, ip, p);
      assert MapOf(g, st.disk.blocks, ip, p / g.bsize) == if p / g.bsize < cut
             then MapOf(g, st0.disk.blocks, ip0, p / g.bsize) else 0;
    }
  }

  /** Drop the blocks from `first` on, persist the inode with size n, then free them. */
  method CutAndFree(fs: Edition, ino: nat, ip: Inode, first: nat, n: nat, ghost w: World)
      returns (rc: Errno, ghost ip': Inode, ghost leaked: bool, ghost w': World)
    requires fs.Ok(w) && Narrow(fs.g) && InodeOk(fs.g, w.tab, ino, ip) && ip.kind.Data? && first < U32
    requires Tidy(fs.g, fs.disk.blocks, w.tab, ino, ip)
    modifies fs, fs.free
    ensures old(fs.Faults()) <= fs.Faults() && (rc == EIO ==> old(fs.Faults()) < fs.Faults())
    ensures fs.Ok(w') && w'.breach == w.breach && OthersKept(old(fs.St()), w, fs.St(), w', ino)
    ensures rc != OK ==> fs.disk.inodes == old(fs.disk).inodes
    ensures rc == OK ==> CutDown(fs.g, old(fs.disk), fs.disk, ino, ip, ip', first, n)
    ensures rc == OK ==> Tidy(fs.g, fs.disk.blocks, w'.tab, ino, ip') && (!leaked ==> NoLoss(w.tab, w'.tab))
    ensures leaked ==> old(fs.Faults()) < fs.Faults()
    ensures rc in {OK, EIO, EINVAL} && (rc == EINVAL ==> !(1 <= ino < |old(fs.disk).inodes|))
    ensures fs.Faults() == old(fs.Faults()) ==> Spent(w, old(fs.tfree), w', fs.tfree, 0)
  {
    hide Sound, Guarded, LogOk, NeverD, Narrow, TreesOk, InodeClaims, Tidy, OthersKept, InodeOk, NoLoss, Shorn,
         Truncated, CutBytes, ByteAt, Spent, Stack;
    ghost var st0, g := fs.St(), fs.g;
    Facts(g, st0, w);
    SoundTrees(g, st0, w);
    w', leaked, ip' := w, false, ip;
    SpentNone(w, w, fs.tfree, 0);
    var ok, ipc, bl := fs.ItruncFrom(ino, ip, first, w);
    ghost var st1 := fs.St();
    ShornOthers(g, st0, w, st1, ino, first);
    if !ok {
      return EIO, ip', leaked, w';
    }
    TruncatedKind(g, w.tab, ino, first, st0.disk.blocks, ip, st1.disk.blocks, ipc, bl);
    ipc := ipc.(size := n);
    TruncatedBytes(g, st0, w, st1, ino, first, ip, ipc.(size := ip.size), bl, n);
    rc, w' := fs.WriteInode(ino, ipc, w);
    ghost var st2, w2 := fs.St(), w';
    SpentNone(w, w2, fs.tfree, 0);
    WroteInode(st0, w, st1, w, st2, w2, ino, ipc);
    if rc != OK {
      return;
    }
    ip' := ipc;
    leaked, w' := ReleaseDrain(fs, ino, bl, st0.disk.blocks, ip, ipc, w2);
    OthersThen(st0, w, st2, w2, fs.St(), w', ino);
    SpentFrom(w, w2, w', old(fs.tfree), fs.tfree, 0);
    CutDrained(g, st0.disk.blocks, ip, st2.disk.blocks, fs.disk.blocks, ipc, first);
  }

  lemma SoundTrees(g: Geometry, st: State, w: World)
    requires Sound(g, st, w)
    ensures TreesOk(g, st.disk.blocks, w.tab)
  {
  }

  lemma TruncatedKind(g: Geometry, tab: Table, ino: nat, cut: nat, blocks0: seq<Block>, ip0: Inode, blocks: seq<Block>,
      ip: Inode, bl: seq<nat>)
    requires g.nindir >= 1 && Truncated(g, tab, ino, cut, blocks0, ip0, blocks, ip, bl)
    ensures ip == ip0.(addr := ip.addr)
  {
  }

  lemma WroteInode(st0: State, w0: World, st1: State, w1: World, st2: State, w2: World, ino: nat, ip: Inode)
    requires OthersKept(st0, w0, st1, w1, ino) && st2.disk.blocks == st1.disk.blocks && w2.tab == w1.tab
    requires st2.disk.inodes == st1.disk.inodes ||
             (ino < |st1.disk.inodes| && st2.disk.inodes == st1.disk.inodes[ino := ip])
    ensures OthersKept(st0, w0, st2, w2, ino)
  {
  }

  /** The whole effect on the inode: its size is n, its first blocks are kept, and past them
      everything reads as zero. */
  ghost predicate CutDown(g: Geometry, disk: Image, disk': Image, ino: nat, ip: Inode, ip': Inode, first: nat, n: nat)
    requires g.nindir >= 1 && g.bsize >= 1
  {
    && 1 <= ino < |disk.inodes| && disk'.inodes == disk.inodes[ino := ip']
    && ip' == ip.(addr := ip'.addr, size := n)
    && CutBytes(g, disk.blocks, ip, disk'.blocks, ip', first)
  }

  lemma CutDrained(g: Geometry, blocks0: seq<Block>, ip0: Inode, blocks1: seq<Block>, blocks2: seq<Block>, ip: Inode,
      cut: nat)
    requires g.nindir >= 1 && g.bsize >= 1 && ip.kind.Data?
    requires CutBytes(g, blocks0, ip0, blocks1, ip, cut) && SameBytes(g, blocks1, blocks2, ip)
    ensures CutBytes(g, blocks0, ip0, blocks2, ip, cut)
  {
    hide ByteAt;
  }

  // ---- truncate ----

  /** Where the tail that a shrink to n zeroes ends: 32-bit arithmetic, as in the source. */
  function TailEnd(bsize: nat, n: nat, oldsize: nat): nat
    requires bsize >= 1
  {
    var end := if n == 0 then 0 else Wrap32(((n - 1) / bsize + 1) * bsize);
    if oldsize < end then oldsize else end
  }

  /** The end of the last surviving block is within 32 bits. */
  predicate EndFits(bsize: nat, n: nat)
    requires bsize >= 1
  {
    n == 0 || ((n - 1) / bsize + 1) * bsize < U32
  }

  /** The tail: all in the last surviving block, and complete unless the end wraps. */
  lemma TailRange(bsize: nat, n: nat, oldsize: nat, p: nat)
    requires 1 <= bsize < U32 && n < oldsize < U32
    ensures n <= p < TailEnd(bsize, n, oldsize) ==> n > 0 && p / bsize == (n - 1) / bsize
    ensures n > 0 && p < n ==> p / bsize <= (n - 1) / bsize
    ensures EndFits(bsize, n) && n <= p < oldsize && n > 0 && p / bsize <= (n - 1) / bsize ==>
            p < TailEnd(bsize, n, oldsize)
    ensures !EndFits(bsize, n) ==> TailEnd(bsize, n, oldsize) <= n
    ensures !EndFits(bsize, n) && n <= p < oldsize ==> p / bsize == (n - 1) / bsize
  {
    if n > 0 {
      var last := (n - 1) / bsize;
      var end := (last + 1) * bsize;
      DivMod(n - 1, bsize);
      DivMod(p, bsize);
      assert end == last * bsize + bsize;
      MulMonotone(p / bsize, last, bsize);
      MulMonotone(last + 1, p / bsize, bsize);
      MulMonotone(p / bsize + 1, last, bsize);
      assert (p / bsize + 1) * bsize == (p / bsize) * bsize + bsize;
      WrapEnd(end, n, bsize);
    }
  }

  lemma WrapEnd(end: nat, n: nat, bsize: nat)
    requires n <= end < n + bsize && n < U32 && bsize < U32
    ensures Wrap32(end) == if end < U32 then end else end - U32
  {
    if end >= U32 {
      DivUnique(end, U32, 1, end - U32);
    } else {
      ModBelow(end, U32);
    }
  }

  /** The bytes of the tail are zero, and no other byte changed. */
  ghost predicate TailZeroed(g: Geometry, blocks0: seq<Block>, ip0: Inode, blocks: seq<Block>, ip: Inode, n: nat)
    requires g.nindir >= 1 && g.bsize >= 1
  {
    forall p: nat {:trigger ByteAt(g, blocks, ip, p)} ::
      ByteAt(g, blocks, ip, p) == if n <= p < TailEnd(g.bsize, n, ip0.size) then 0 else ByteAt(g, blocks0, ip0, p)
  }

  /** Zero the partial tail of the last surviving block, unless it is a hole or the block map
      could not be read. */
  method ZeroTail(fs: Edition, ino: nat, ip: Inode, n: nat, ghost w: World)
      returns (rc: Errno, ip': Inode, ghost unread: bool, ghost w': World)
    requires fs.Ok(w) && Narrow(fs.g) && InodeOk(fs.g, w.tab, ino, ip) && ip.kind.Data? && n < ip.size < U32
    requires Tidy(fs.g, fs.disk.blocks, w.tab, ino, ip) && 1 <= ino < |fs.disk.inodes| && fs.disk.inodes[ino] == ip
    modifies fs, fs.free
    ensures old(fs.Faults()) <= fs.Faults() && (rc == EIO ==> old(fs.Faults()) < fs.Faults())
    ensures fs.Ok(w') && w'.breach == w.breach && OthersKept(old(fs.St()), w, fs.St(), w', ino)
    ensures InodeOk(fs.g, w'.tab, ino, ip') && ip' == ip.(addr := ip'.addr, large := ip'.large) &&
            Tidy(fs.g, fs.disk.blocks, w'.tab, ino, ip')
    ensures rc == OK ==>
            NoLoss(w.tab, w'.tab) && |fs.disk.inodes| == |old(fs.disk).inodes| && fs.disk.inodes[ino] == ip'
    ensures rc == OK ==> if unread then ip' == ip && fs.disk.blocks == old(fs.disk).blocks
                         else TailZeroed(fs.g, old(fs.disk).blocks, ip, fs.disk.blocks, ip', n)
    ensures rc in {OK, EIO} && (unread ==> old(fs.Faults()) < fs.Faults())
    ensures |fs.disk.inodes| == |old(fs.disk).inodes| &&
            (rc != OK ==> fs.disk.inodes[ino].size == old(fs.disk).inodes[ino].size)
    ensures fs.Faults() == old(fs.Faults()) ==> InStep(w, old(fs.tfree), w', fs.tfree)
  {
    hide Sound, Guarded, LogOk, NeverD, Narrow, Tidy, OthersKept, InodeOk, NoLoss, ByteAt, FileWritten, TailEnd, MapOf,
         TailZeroed, AllCovered, AllMapped, Spent, InStep, Stack, Need;
    ghost var st0, g := fs.St(), fs.g;
    Facts(g, st0, w);
    rc, ip', w', unread := OK, ip, w, false;
    NoLossSelf(w.tab);
    OthersSelf(st0, w, ino);
    StepNone(w, w, fs.tfree);
    var tail := TailEnd(fs.g.bsize, n, ip.size);
    if n < tail {
      TailLast(fs.g.bsize, n, ip.size);
      var last := (n - 1) / fs.g.bsize;
      var rcb, ipb, bno;
      ghost var wb;
      rcb, ipb, bno, wb := fs.Bmap(ino, ip, last, false, w);
      if rcb == OK && bno != 0 {
        TailCovered(g, st0, w, ino, ip, n);
        ghost var late;
        rc, ip', late, w' := FileWrite(fs, ino, ip, Zeros(tail - n), n, w);
        if fs.Faults() == old(fs.Faults()) {
          SpentStep(w, old(fs.tfree), w', fs.tfree, Need(g, n, tail - n));
        }
        TailWritten(g, st0, w, fs.St(), w', ino, ip, ip', n, rc == OK);
        return;
      }
      unread := rcb != OK;
    }
    if !unread {
      TailHole(g, fs.disk.blocks, ip, n);
    }
  }

  lemma OthersCount(st: State, w: World, st': State, w': World, ino: nat)
    requires OthersKept(st, w, st', w', ino)
    ensures |st'.disk.inodes| == |st.disk.inodes|
  {
  }

  lemma OthersSelf(st: State, w: World, ino: nat)
    ensures OthersKept(st, w, st, w, ino)
  {
  }

  lemma TailLast(bsize: nat, n: nat, oldsize: nat)
    requires 1 <= bsize < U32 && n < oldsize < U32 && n < TailEnd(bsize, n, oldsize)
    ensures n > 0 && (n - 1) / bsize < U32 && TailEnd(bsize, n, oldsize) <= oldsize
  {
    TailRange(bsize, n, oldsize, n);
    Locate(n - 1, bsize);
  }

  lemma TailCovered(g: Geometry, st: State, w: World, ino: nat, ip: Inode, n: nat)
    requires 1 <= g.bsize < U32 && g.nindir >= 1 && n < ip.size < U32 && n < TailEnd(g.bsize, n, ip.size) && n > 0
    requires MapOf(g, st.disk.blocks, ip, (n - 1) / g.bsize) != 0
    ensures AllCovered(g, st.disk, w.tab, ino, ip, n, TailEnd(g.bsize, n, ip.size) - n)
    ensures AllMapped(g, st.disk.blocks, ip, n, TailEnd(g.bsize, n, ip.size) - n)
  {
    hide MapOf, Hidden, TailEnd, EndFits, Covered;
    var last := (n - 1) / g.bsize;
    assert Covered(g, st.disk, w.tab, ino, ip, last) by {
      CoveredMapped(g, st, w, ino, ip, last);
    }
    forall p: nat {:trigger p / g.bsize} | n <= p < TailEnd(g.bsize, n, ip.size)
      ensures Covered(g, st.disk, w.tab, ino, ip, p / g.bsize) && MapOf(g, st.disk.blocks, ip, p / g.bsize) != 0
    {
      TailRange(g.bsize, n, ip.size, p);
    }
  }

  lemma CoveredMapped(g: Geometry, st: State, w: World, ino: nat, ip: Inode, k: nat)
    requires g.nindir >= 1 && MapOf(g, st.disk.blocks, ip, k) != 0
    ensures Covered(g, st.disk, w.tab, ino, ip, k)
  {
  }

  lemma TailWritten(g: Geometry, st0: State, w0: World, st: State, w: World, ino: nat, ip0: Inode, ip: Inode, n: nat,
      ok: bool)
    requires g.nindir >= 1 && g.bsize >= 1 && n < TailEnd(g.bsize, n, ip0.size) <= ip0.size
    requires FileWritten(g, st0, w0, st, w, ino, ip0, ip, n, Zeros(TailEnd(g.bsize, n, ip0.size) - n), ok)
    requires AllCovered(g, st0.disk, w0.tab, ino, ip0, n, TailEnd(g.bsize, n, ip0.size) - n) &&
             Tidy(g, st0.disk.blocks, w0.tab, ino, ip0)
    ensures w.breach == w0.breach && OthersKept(st0, w0, st, w, ino) && |st.disk.inodes| == |st0.disk.inodes|
    ensures !ok ==> st.disk.inodes == st0.disk.inodes
    ensures InodeOk(g, w.tab, ino, ip) && ip == ip0.(addr := ip.addr, large := ip.large) &&
            Tidy(g, st.disk.blocks, w.tab, ino, ip)
    ensures ok ==>
            NoLoss(w0.tab, w.tab) && 1 <= ino < |st.disk.inodes| && st.disk.inodes[ino] == ip &&
            TailZeroed(g, st0.disk.blocks, ip0, st.disk.blocks, ip, n)
  {
    hide MapOf, Hidden, TailEnd, ByteAt, Tidy, AllCovered;
  }

  lemma TailHole(g: Geometry, blocks: seq<Block>, ip: Inode, n: nat)
    requires 1 <= g.bsize < U32 && g.nindir >= 1 && n < ip.size < U32
    requires n < TailEnd(g.bsize, n, ip.size) ==> n > 0 && MapOf(g, blocks, ip, (n - 1) / g.bsize) == 0
    ensures TailZeroed(g, blocks, ip, blocks, ip, n)
  {
    hide MapOf, TailEnd;
    forall p: nat {:trigger ByteAt(g, blocks, ip, p)} | n <= p < TailEnd(g.bsize, n, ip.size)
      ensures ByteAt(g, blocks, ip, p) == 0
    {
      TailRange(g.bsize, n, ip.size, p);
    }
  }

  /** The first block that a file of n bytes has no use for. */
  function FirstFree(bsize: nat, n: nat): nat
    requires bsize >= 1
  {
    if n == 0 then 0 else (n - 1) / bsize + 1
  }

  /** Inode ino now has n bytes: the first ones are kept.  If `zeroed`, what was past the end
      can never show again; if not, the rest of the last surviving block is still there. */
  ghost predicate Resized(g: Geometry, disk: Image, disk': Image, ino: nat, n: nat, zeroed: bool)
    requires g.nindir >= 1 && g.bsize >= 1
  {
    && 1 <= ino < |disk.inodes| == |disk'.inodes|
    && var ip, ip' := disk.inodes[ino], disk'.inodes[ino];
    && ip' == ip.(addr := ip'.addr, large := ip'.large, size := n)
    && (forall p: nat {:trigger ByteAt(g, disk'.blocks, ip', p)} :: p < n ==>
         ByteAt(g, disk'.blocks, ip', p) == ByteAt(g, disk.blocks, ip, p))
    && (zeroed && TailZero(g, disk.blocks, ip) ==> TailZero(g, disk'.blocks, ip'))
    && (!zeroed ==> forall p: nat {:trigger ByteAt(g, disk'.blocks, ip', p)} :: n <= p ==>
          ByteAt(g, disk'.blocks, ip', p) == if p / g.bsize < FirstFree(g.bsize, n) then ByteAt(g, disk.blocks, ip, p)
              else 0)
  }

  lemma FirstFreeBlock(bsize: nat, n: nat, p: nat)
    requires bsize >= 1
    ensures p / bsize < FirstFree(bsize, n) <==> n > 0 && p / bsize <= (n - 1) / bsize
  {
  }

  lemma ShrinkBytes(g: Geometry, disk0: Image, disk1: Image, disk2: Image, ino: nat, n: nat, unread: bool)
    requires 1 <= g.bsize < U32 && g.nindir >= 1 && 1 <= ino < |disk0.inodes| == |disk1.inodes| &&
             n < disk0.inodes[ino].size < U32
    requires disk1.inodes[ino] == disk0.inodes[ino].(addr := disk1.inodes[ino].addr, large := disk1.inodes[ino].large)
    requires if unread then disk1.inodes[ino] == disk0.inodes[ino] && disk1.blocks == disk0.blocks
             else TailZeroed(g, disk0.blocks, disk0.inodes[ino], disk1.blocks, disk1.inodes[ino], n)
    requires |disk2.inodes| == |disk1.inodes| &&
             CutDown(g, disk1, disk2, ino, disk1.inodes[ino], disk2.inodes[ino], FirstFree(g.bsize, n), n)
    ensures Resized(g, disk0, disk2, ino, n, !unread && EndFits(g.bsize, n))
  {
    hide ByteAt, TailEnd;
    var ip0, ip1, ip2 := disk0.inodes[ino], disk1.inodes[ino], disk2.inodes[ino];
    forall p: nat {:trigger ByteAt(g, disk2.blocks, ip2, p)}
      ensures p < n ==> ByteAt(g, disk2.blocks, ip2, p) == ByteAt(g, disk0.blocks, ip0, p)
      ensures n <= p && TailZero(g, disk0.blocks, ip0) && !unread && EndFits(g.bsize, n) ==>
              ByteAt(g, disk2.blocks, ip2, p) == 0
      ensures n <= p && !(!unread && EndFits(g.bsize, n)) ==>
                ByteAt(g, disk2.blocks, ip2, p) == if p / g.bsize < FirstFree(g.bsize, n)
                    then ByteAt(g, disk0.blocks, ip0, p) else 0
    {
      hide EndFits, FirstFree;
      TailRange(g.bsize, n, ip0.size, p);
      FirstFreeBlock(g.bsize, n, p);
      assert ByteAt(g, disk2.blocks, ip2, p) == if p / g.bsize < FirstFree(g.bsize, n)
             then ByteAt(g, disk1.blocks, ip1, p) else 0;
    }
  }

  /** Shrink a file, and end the operation. */
  method Shrink(fs: Edition, ino: nat, ip: Inode, n: nat, ghost w: World)
      returns (rc: Errno, ghost zeroed: bool, ghost leaked: bool, ghost w': World)
    requires fs.Ok(w) && Narrow(fs.g) && 1 <= ino < |fs.disk.inodes| && fs.disk.inodes[ino] == ip && ip.kind.Data? &&
             n < ip.size < U32
    requires Clean(fs.g, fs.disk, w.tab)
    modifies fs, fs.free
    ensures old(fs.Faults()) <= fs.Faults() && (rc == EIO ==> old(fs.Faults()) < fs.Faults())
    ensures fs.Ok(w') && w'.breach == w.breach && Clean(fs.g, fs.disk, w'.tab) &&
            OthersKept(old(fs.St()), w, fs.St(), w', ino)
    ensures rc == OK ==> Resized(fs.g, old(fs.disk), fs.disk, ino, n, zeroed) && (!leaked ==> NoLoss(w.tab, w'.tab))
    ensures rc in {OK, EIO}
    ensures fs.Faults() == old(fs.Faults()) ==> !leaked && (zeroed <==> EndFits(fs.g.bsize, n))
    ensures |fs.disk.inodes| == |old(fs.disk).inodes| &&
            (rc != OK ==> fs.disk.inodes[ino].size == old(fs.disk).inodes[ino].size)
    ensures fs.Faults() == old(fs.Faults()) ==> InStep(w, old(fs.tfree), w', fs.tfree)
  {
    hide Sound, Guarded, LogOk, NeverD, Narrow, Tidy, OthersKept, InodeOk, NoLoss, ByteAt, TailEnd, MapOf, TailZeroed,
         Clean, CutDown, Resized, Spent, InStep, Stack;
    ghost var st0, g := fs.St(), fs.g;
    StartOp(g, st0, w, ino);
    leaked, zeroed := false, true;
    var ip1;
    ghost var unread, ip2;
    rc, ip1, unread, w' := ZeroTail(fs, ino, ip, n, w);
    ghost var st1, w1, tf1 := fs.St(), w', fs.tfree;
    zeroed := !unread && EndFits(g.bsize, n);
    if rc == OK {
      FirstBelow(fs.g.bsize, n);
      rc, ip2, leaked, w' := CutAndFree(fs, ino, ip1, FirstFree(fs.g.bsize, n), n, w1);
      OthersThen(st0, w, st1, w1, fs.St(), w', ino);
      if fs.Faults() == old(fs.Faults()) {
        SpentStep(w1, tf1, w', fs.tfree, 0);
        StepThen(w, old(fs.tfree), w1, tf1, w', fs.tfree);
      }
      if rc == OK {
        CutInode(g, st1.disk, fs.disk, ino, ip1, ip2, FirstFree(g.bsize, n), n);
        ShrinkBytes(g, st0.disk, st1.disk, fs.disk, ino, n, unread);
        if !leaked {
          NoLossThen(w.tab, w1.tab, w'.tab);
        }
      }
    }
    ghost var w2 := w';
    w' := Finish(g, st0, w, fs.St(), w', ino);
    StepSegs(w, w2, w', old(fs.tfree), fs.tfree);
  }

  lemma FirstBelow(bsize: nat, n: nat)
    requires 1 <= bsize && n < U32
    ensures FirstFree(bsize, n) < U32
  {
    if n > 0 {
      Locate(n - 1, bsize);
      MulMonotone(1, bsize, (n - 1) / bsize);
    }
  }

  lemma CutInode(g: Geometry, disk: Image, disk': Image, ino: nat, ip: Inode, ip': Inode, first: nat, n: nat)
    requires g.nindir >= 1 && g.bsize >= 1 && CutDown(g, disk, disk', ino, ip, ip', first, n)
    ensures |disk'.inodes| == |disk.inodes| && 1 <= ino < |disk.inodes| && disk'.inodes[ino] == ip'
  {
  }

  /** What an operation on inode ino starts from. */
  lemma StartOp(g: Geometry, st: State, w: World, ino: nat)
    requires Sound(g, st, w) && Clean(g, st.disk, w.tab) && 1 <= ino < |st.disk.inodes|
    ensures g.Valid() && InodeOk(g, w.tab, ino, st.disk.inodes[ino]) &&
            Tidy(g, st.disk.blocks, w.tab, ino, st.disk.inodes[ino])
  {
    hide InodeClaims;
    forall x: nat {:trigger w.tab[x]} | x < |w.tab| && w.tab[x].Owned? && w.tab[x].ino == ino
      ensures x in InodeClaims(g, st.disk.blocks, st.disk.inodes[ino])
    {
      assert Held(g, st.disk, w.tab, x);
    }
  }

  /** Set the size of an inode: shrink, or leave a hole at the end. */
  method TruncateIno(fs: Edition, ino: nat, size: int, maxfile: nat, ghost w: World)
      returns (rc: Errno, ghost zeroed: bool, ghost leaked: bool, ghost w': World)
    requires fs.Ok(w) && Narrow(fs.g) && Clean(fs.g, fs.disk, w.tab) && maxfile < U32
    requires 1 <= ino < |fs.disk.inodes| && fs.disk.inodes[ino].kind.Data? && fs.disk.inodes[ino].size < U32
    modifies fs, fs.free
    ensures old(fs.Faults()) <= fs.Faults() && (rc == EIO || leaked ==> old(fs.Faults()) < fs.Faults())
    ensures fs.Ok(w') && w'.breach == w.breach && Clean(fs.g, fs.disk, w'.tab) &&
            OthersKept(old(fs.St()), w, fs.St(), w', ino)
    ensures rc == OK ==>
            0 <= size <= maxfile && Resized(fs.g, old(fs.disk), fs.disk, ino, size, zeroed) &&
            (!leaked ==> NoLoss(w.tab, w'.tab))
    ensures rc == EFBIG ==> !(0 <= size <= maxfile) && fs.St() == old(fs.St()) && w' == w
    ensures rc in {OK, EIO, EFBIG}
    ensures fs.Faults() == old(fs.Faults()) && size >= 0 ==>
            (zeroed <==> size >= old(fs.disk).inodes[ino].size || EndFits(fs.g.bsize, size))
    ensures |fs.disk.inodes| == |old(fs.disk).inodes| &&
            (rc != OK ==> fs.disk.inodes[ino].size == old(fs.disk).inodes[ino].size)
    ensures fs.Faults() == old(fs.Faults()) ==> InStep(w, old(fs.tfree), w', fs.tfree)
    ensures fs.Faults() == old(fs.Faults()) ==> (rc == OK <==> 0 <= size <= maxfile)
  {
    hide Sound, Guarded, LogOk, NeverD, Narrow, OthersKept, NoLoss, Clean, Resized, EndFits, InStep, Stack;
    ghost var st0, g := fs.St(), fs.g;
    StartOp(g, st0, w, ino);
    OthersSelf(st0, w, ino);
    StepNone(w, w, fs.tfree);
    leaked, w' := false, w;
    zeroed := size < 0 || size >= fs.disk.inodes[ino].size || EndFits(fs.g.bsize, size);
    var ok, ip := fs.ReadInode(ino);
    if !ok {
      return EIO, zeroed, leaked, w';
    }
    if size < 0 || size > maxfile {
      return EFBIG, zeroed, leaked, w';
    }
    var n: nat := size;
    if n == ip.size {
      NoLossSelf(w.tab);
      ResizedSelf(g, fs.disk, ino);
      return OK, zeroed, leaked, w';
    }
    if n < ip.size {
      rc, zeroed, leaked, w' := Shrink(fs, ino, ip, n, w);
      return;
    }
    SizeOnly(g, fs.disk.blocks, w.tab, ino, ip, n);
    rc, w' := fs.WriteInode(ino, ip.(size := n), w);
    ghost var st1 := fs.St();
    WroteInode(st0, w, st0, w, st1, w', ino, ip.(size := n));
    NoLossSelf(w.tab);
    if rc == OK {
      ResizedUp(g, st0.disk, st1.disk, w.tab, ino, n);
      ResizedTidy(g, st0, w, st1, w', ino, n);
    }
    w' := Finish(g, st0, w, st1, w', ino);
    StepNone(w, w', old(fs.tfree));
  }

  lemma ResizedTidy(g: Geometry, st0: State, w0: World, st: State, w: World, ino: nat, n: nat)
    requires g.Valid() && 1 <= ino < |st0.disk.inodes| && w.tab == w0.tab && st.disk.blocks == st0.disk.blocks
    requires st.disk.inodes == st0.disk.inodes[ino := st0.disk.inodes[ino].(size := n)]
    requires Tidy(g, st0.disk.blocks, w0.tab, ino, st0.disk.inodes[ino])
    ensures Tidy(g, st.disk.blocks, w.tab, ino, st.disk.inodes[ino])
  {
    SizeOnly(g, st0.disk.blocks, w0.tab, ino, st0.disk.inodes[ino], n);
  }

  lemma ResizedSelf(g: Geometry, disk: Image, ino: nat)
    requires g.Valid() && 1 <= ino < |disk.inodes|
    ensures Resized(g, disk, disk, ino, disk.inodes[ino].size, true)
  {
  }

  lemma ResizedUp(g: Geometry, disk: Image, disk': Image, tab: Table, ino: nat, n: nat)
    requires g.Valid() && 1 <= ino < |disk.inodes| && n >= disk.inodes[ino].size && disk'.blocks == disk.blocks
    requires disk'.inodes == disk.inodes[ino := disk.inodes[ino].(size := n)]
    ensures Resized(g, disk, disk', ino, n, true)
  {
    hide ByteAt;
    SizeOnly(g, disk.blocks, tab, ino, disk.inodes[ino], n);
    forall p: nat {:trigger ByteAt(g, disk'.blocks, disk'.inodes[ino], p)}
      ensures ByteAt(g, disk'.blocks, disk'.inodes[ino], p) == ByteAt(g, disk.blocks, disk.inodes[ino], p)
    {
    }
  }

  // ---- write with rollback ----

  /** The inode took the bytes at off, and grew to hold them. */
  ghost predicate Written(g: Geometry, disk: Image, disk': Image, ino: nat, off: nat, data: seq<nat>)
    requires g.nindir >= 1 && g.bsize >= 1
  {
    && 1 <= ino < |disk.inodes| == |disk'.inodes|
    && var ip, ip' := disk.inodes[ino], disk'.inodes[ino];
    && ip' == ip.(addr := ip'.addr, large := ip'.large, size := if off + |data| > ip.size then off + |data|
         else ip.size)
    && Overwritten(g, disk.blocks, ip, disk'.blocks, ip', off, data, true)
  }

  /** A failed write was undone as far as it goes: of the blocks the file had before, only
      bytes of the written range may differ, and every later block is gone.  The size is the
      old one, unless the write failed `late`, at the inode: then the data is stored in what
      is left of it, and the size is the end of the write. */
  ghost predicate RolledBack(g: Geometry, disk: Image, disk': Image, ino: nat, off: nat, data: seq<nat>, late: bool)
    requires g.nindir >= 1 && g.bsize >= 1
  {
    && 1 <= ino < |disk.inodes| == |disk'.inodes|
    && var ip, ip' := disk.inodes[ino], disk'.inodes[ino];
    && ip' == ip.(addr := ip'.addr, large := ip'.large, size := if late &&
         off + |data| > ip.size then off + |data| else ip.size)
    && forall p: nat {:trigger ByteAt(g, disk'.blocks, ip', p)} ::
         var was, now := ByteAt(g, disk.blocks, ip, p), ByteAt(g, disk'.blocks, ip', p);
         if p / g.bsize >= FirstFree(g.bsize, ip.size) then now == 0
         else if off <= p < off + |data| then now == data[p - off] || (!late && now == was)
         else now == was
  }

  /** Write into an inode; a write that fails partway is rolled back. */
  method WriteIno(fs: Edition, ino: nat, buf: seq<nat>, off: int, maxfile: nat, ghost w: World)
    returns (rc: Errno, ghost rolled: bool, ghost late: bool, ghost w': World)
    requires fs.Ok(w) && Narrow(fs.g) && Clean(fs.g, fs.disk, w.tab) && maxfile < U32
    requires 1 <= ino < |fs.disk.inodes| && fs.disk.inodes[ino].kind.Data? && fs.disk.inodes[ino].size < U32
    modifies fs, fs.free
    ensures old(fs.Faults()) <= fs.Faults() && (rc == EIO ==> old(fs.Faults()) < fs.Faults()) &&
            (rc == OK ==> fs.Faults() == old(fs.Faults()))
    ensures fs.Ok(w') && Clean(fs.g, fs.disk, w'.tab) && OthersKept(old(fs.St()), w, fs.St(), w', ino)
    ensures (off >= 0 ==> AllCovered(fs.g, old(fs.disk), w.tab, ino, old(fs.disk).inodes[ino], off, |buf|)) ==>
            w'.breach == w.breach
    ensures rc == OK ==>
            off >= 0 && off + |buf| <= maxfile && Written(fs.g, old(fs.disk), fs.disk, ino, off, buf) &&
            NoLoss(w.tab, w'.tab)
    ensures rc != OK && rolled ==>
            off >= 0 && off + |buf| <= maxfile && RolledBack(fs.g, old(fs.disk), fs.disk, ino, off, buf, late)
    ensures rc != OK && !rolled ==> fs.disk.inodes == old(fs.disk).inodes
    ensures off < 0 && fs.Faults() == old(fs.Faults()) ==> rc == EINVAL && fs.St() == old(fs.St()) && w' == w
    ensures off >= 0 && off + |buf| > maxfile && fs.Faults() == old(fs.Faults()) ==>
            rc == EFBIG && fs.St() == old(fs.St()) && w' == w
    ensures rc != OK && fs.Faults() == old(fs.Faults()) && 0 <= off && off + |buf| <= maxfile ==>
            rolled && rc in {ENOSPC, EFBIG}
    ensures fs.Faults() == old(fs.Faults()) || rc in {ENOSPC, EFBIG} ==> !late
    ensures rc == ENOSPC ==> off >= 0 && off + |buf| <= maxfile && |Stack(w.segs)| <= Need(fs.g, off, |buf|)
    ensures (rc == EINVAL ==> off < 0) && (off < 0 ==> rc in {EINVAL, EIO}) && (rc == EFBIG ==> off >= 0)
    ensures off >= 0 && off + |buf| > maxfile ==> rc in {EFBIG, EIO}
    ensures rc in {OK, EIO, ENOSPC, EFBIG, EINVAL}
    ensures rc == EFBIG && 0 <= off && off + |buf| <= maxfile ==> !Reachable(fs.g, maxfile)
    ensures |fs.disk.inodes| == |old(fs.disk).inodes|
    ensures fs.Faults() == old(fs.Faults()) ==> InStep(w, old(fs.tfree), w', fs.tfree)
  {
    hide Sound, Guarded, LogOk, NeverD, Narrow, OthersKept, NoLoss, Clean, Written, RolledBack, AllCovered, FileWritten,
         Tidy, InodeOk, AllMapped, CutDown, Spent, InStep, Stack, Need, Unreachable;
    ghost var st0, g := fs.St(), fs.g;
    StartOp(g, st0, w, ino);
    OthersSelf(st0, w, ino);
    rolled, late, w' := false, false, w;
    StepNone(w, w, fs.tfree);
    var ok, ip := fs.ReadInode(ino);
    if !ok {
      return EIO, rolled, late, w';
    }
    if off < 0 {
      return EINVAL, rolled, late, w';
    }
    if off + |buf| > maxfile {
      return EFBIG, rolled, late, w';
    }
    var ip1;
    rc, ip1, late, w' := FileWrite(fs, ino, ip, buf, off, w);
    ghost var st1, w1, tf1, need := fs.St(), w', fs.tfree, Need(fs.g, off, |buf|);
    if fs.Faults() == old(fs.Faults()) {
      SpentStep(w, old(fs.tfree), w1, tf1, need);
      SpentDry(w, old(fs.tfree), w1, tf1, need);
    }
    WrittenFacts(g, st0, w, st1, w1, ino, ip, ip1, off, buf, rc == OK);
    if rc != OK {
      var rc2;
      ghost var ip2, leaked;
      FirstBelow(fs.g.bsize, ip.size);
      rc2, ip2, leaked, w' := CutAndFree(fs, ino, ip1, FirstFree(fs.g.bsize, ip.size), ip1.size, w1);
      OthersThen(st0, w, st1, w1, fs.St(), w', ino);
      if fs.Faults() == old(fs.Faults()) {
        SpentStep(w1, tf1, w', fs.tfree, 0);
        StepThen(w, old(fs.tfree), w1, tf1, w', fs.tfree);
      }
      if rc2 != OK {
        rc := rc2;
      } else {
        rolled := true;
        RollBack(g, st0, w, st1, w1, fs.St(), ino, ip, ip1, ip2, off, buf, late);
      }
    }
    ghost var w2 := w';
    w' := Finish(g, st0, w, fs.St(), w2, ino);
    StepSegs(w, w2, w', old(fs.tfree), fs.tfree);
  }

  lemma WrittenFacts(g: Geometry, st0: State, w0: World, st: State, w: World, ino: nat, ip0: Inode, ip: Inode, off: nat,
      data: seq<nat>, ok: bool)
    requires g.nindir >= 1 && g.bsize >= 1 && 1 <= ino < |st0.disk.inodes| && st0.disk.inodes[ino] == ip0
    requires FileWritten(g, st0, w0, st, w, ino, ip0, ip, off, data, ok) && Tidy(g, st0.disk.blocks, w0.tab, ino, ip0)
    ensures OthersKept(st0, w0, st, w, ino) && InodeOk(g, w.tab, ino, ip) && Tidy(g, st.disk.blocks, w.tab, ino, ip) &&
            ip.kind == ip0.kind
    ensures AllCovered(g, st0.disk, w0.tab, ino, ip0, off, |data|) ==> w.breach == w0.breach
    ensures |st.disk.inodes| == |st0.disk.inodes|
    ensures ok ==>
            Written(g, st0.disk, st.disk, ino, off, data) && NoLoss(w0.tab, w.tab) &&
            Tidy(g, st.disk.blocks, w.tab, ino, st.disk.inodes[ino])
    ensures !ok ==> st.disk.inodes == st0.disk.inodes
  {
    hide AllCovered, Tidy, ByteAt;
  }

  lemma RollBack(g: Geometry, st0: State, w0: World, st1: State, w1: World, st2: State, ino: nat, ip0: Inode,
      ip1: Inode, ip2: Inode, off: nat, data: seq<nat>, late: bool)
    requires g.nindir >= 1 && g.bsize >= 1 && 1 <= ino < |st0.disk.inodes| && st0.disk.inodes[ino] == ip0
    requires FileWritten(g, st0, w0, st1, w1, ino, ip0, ip1, off, data, false)
    requires ip1.size == if late && off + |data| > ip0.size then off + |data| else ip0.size
    requires late ==> Overwritten(g, st0.disk.blocks, ip0, st1.disk.blocks, ip1, off, data, true)
    requires CutDown(g, st1.disk, st2.disk, ino, ip1, ip2, FirstFree(g.bsize, ip0.size), ip1.size)
    ensures RolledBack(g, st0.disk, st2.disk, ino, off, data, late)
  {
    hide ByteAt, AllCovered, FirstFree;
    forall p: nat {:trigger ByteAt(g, st2.disk.blocks, ip2, p)}
      ensures var was, now := ByteAt(g, st0.disk.blocks, ip0, p), ByteAt(g, st2.disk.blocks, ip2, p);
              if p / g.bsize >= FirstFree(g.bsize, ip0.size) then now == 0
              else if off <= p < off + |data| then now == data[p - off] || (!late && now == was)
              else now == was
    {
      var mid := ByteAt(g, st1.disk.blocks, ip1, p);
    }
  }

  /** A list that ran dry had no more than was spent. */
  lemma SpentDry(w: World, tf: nat, w': World, tf': nat, k: nat)
    requires Spent(w, tf, w', tf', k)
    ensures Stack(w'.segs) == [] ==> |Stack(w.segs)| <= k
  {
    hide Stack;
  }

  // ---- directory and link-count writes ----

  /** The link count is part of neither the claims nor the bytes. */
  lemma LinksOnly(g: Geometry, blocks: seq<Block>, tab: Table, ino: nat, ip: Inode, k: int)
    requires g.nindir >= 1 && g.bsize >= 1
    ensures InodeClaims(g, blocks, ip.(nlink := k)) == InodeClaims(g, blocks, ip)
    ensures InodeOk(g, tab, ino, ip) ==> InodeOk(g, tab, ino, ip.(nlink := k))
    ensures forall l: nat {:trigger MapOf(g, blocks, ip.(nlink := k), l)} ::
            MapOf(g, blocks, ip.(nlink := k), l) == MapOf(g, blocks, ip, l)
    ensures forall p: nat {:trigger ByteAt(g, blocks, ip.(nlink := k), p)} ::
            ByteAt(g, blocks, ip.(nlink := k), p) == ByteAt(g, blocks, ip, p)
  {
    LinkClaims(g, blocks, ip, k, 0);
  }

  lemma {:induction false} LinkClaims(g: Geometry, blocks: seq<Block>, ip: Inode, k: int, s: nat)
    ensures SlotsClaims(g, blocks, ip.(nlink := k), s) == SlotsClaims(g, blocks, ip, s)
    decreases g.niaddr - s
  {
    hide Claims, Height;
    if s < g.niaddr {
      LinkClaims(g, blocks, ip, k, s + 1);
    }
  }

  /** The inode took the bytes at off, grew to hold them, and stores k links. */
  ghost predicate Relinked(g: Geometry, disk: Image, disk': Image, ino: nat, off: nat, data: seq<nat>, k: int)
    requires g.nindir >= 1 && g.bsize >= 1
  {
    && 1 <= ino < |disk.inodes| == |disk'.inodes|
    && var ip, ip' := disk.inodes[ino], disk'.inodes[ino];
    && ip' == ip.(addr := ip'.addr, large := ip'.large, nlink := LinkOf(g.link, k), size := ip'.size)
    && ip'.size == (if off + |data| > ip.size then off + |data| else ip.size)
    && Overwritten(g, disk.blocks, ip, disk'.blocks, ip', off, data, true)
  }

  /** Write into an inode and set its link count with the same inode write, as the directory
      operations do.  What a failed one allocated is not collected. */
  method PatchIno(fs: Edition, ino: nat, data: seq<nat>, off: nat, k: int, ghost w: World)
      returns (rc: Errno, ghost w': World)
    requires fs.Ok(w) && Narrow(fs.g) && Clean(fs.g, fs.disk, w.tab) && off + |data| < U32
    requires 1 <= ino < |fs.disk.inodes| && fs.disk.inodes[ino].kind.Data?
    modifies fs, fs.free
    ensures old(fs.Faults()) <= fs.Faults() && (rc == EIO <==> old(fs.Faults()) < fs.Faults())
    ensures fs.Ok(w') && Clean(fs.g, fs.disk, w'.tab) && OthersKept(old(fs.St()), w, fs.St(), w', ino)
    ensures AllCovered(fs.g, old(fs.disk), w.tab, ino, old(fs.disk).inodes[ino], off, |data|) ==> w'.breach == w.breach
    ensures rc == OK ==> Relinked(fs.g, old(fs.disk), fs.disk, ino, off, data, k) && NoLoss(w.tab, w'.tab)
    ensures rc != OK ==> fs.disk.inodes == old(fs.disk).inodes
    ensures rc in {OK, EIO, ENOSPC, EFBIG}
    ensures fs.Faults() == old(fs.Faults()) ==> InStep(w, old(fs.tfree), w', fs.tfree)
    ensures rc == ENOSPC ==> |Stack(w.segs)| <= Need(fs.g, off, |data|)
    ensures rc == EFBIG ==>
            exists p: nat {:trigger Unreachable(fs.g, p)} :: off <= p < off + |data| && Unreachable(fs.g, p)
  {
    hide Sound, Guarded, LogOk, NeverD, Narrow, OthersKept, NoLoss, Clean, AllCovered, FileWritten, Tidy, InodeOk,
         AllMapped, Relinked, Spent, InStep, Stack, Need, Unreachable, LinkOf;
    ghost var st0, g := fs.St(), fs.g;
    StartOp(g, st0, w, ino);
    OthersSelf(st0, w, ino);
    StepNone(w, w, fs.tfree);
    w' := w;
    var ok, ip := fs.ReadInode(ino);
    if !ok {
      return EIO, w';
    }
    LinksOnly(g, fs.disk.blocks, w.tab, ino, ip, LinkOf(g.link, k));
    var ip1;
    ghost var late;
    rc, ip1, late, w' := FileWrite(fs, ino, ip.(nlink := LinkOf(fs.g.link, k)), data, off, w);
    ghost var st1, w1, tf1 := fs.St(), w', fs.tfree;
    PatchFacts(g, st0, w, st1, w1, ino, ip, ip1, off, data, k, rc == OK);
    if fs.Faults() == old(fs.Faults()) {
      SpentStep(w, old(fs.tfree), w1, tf1, Need(g, off, |data|));
      SpentDry(w, old(fs.tfree), w1, tf1, Need(g, off, |data|));
    }
    w' := Finish(g, st0, w, fs.St(), w1, ino);
    StepSegs(w, w1, w', old(fs.tfree), fs.tfree);
  }

  lemma PatchFacts(g: Geometry, st0: State, w0: World, st: State, w: World, ino: nat, ip0: Inode, ip: Inode, off: nat,
      data: seq<nat>, k: int, ok: bool)
    requires g.nindir >= 1 && g.bsize >= 1 && 1 <= ino < |st0.disk.inodes| && st0.disk.inodes[ino] == ip0
    requires FileWritten(g, st0, w0, st, w, ino, ip0.(nlink := LinkOf(g.link, k)), ip, off, data, ok) &&
             Tidy(g, st0.disk.blocks, w0.tab, ino, ip0)
    ensures OthersKept(st0, w0, st, w, ino) && |st.disk.inodes| == |st0.disk.inodes|
    ensures AllCovered(g, st0.disk, w0.tab, ino, ip0, off, |data|) ==> w.breach == w0.breach
    ensures ok ==>
            Relinked(g, st0.disk, st.disk, ino, off, data, k) && NoLoss(w0.tab, w.tab) &&
            Tidy(g, st.disk.blocks, w.tab, ino, st.disk.inodes[ino])
    ensures !ok ==> st.disk.inodes == st0.disk.inodes
  {
    hide Hidden, ByteAt, MapOf;
    LinksOnly(g, st0.disk.blocks, w0.tab, ino, ip0, LinkOf(g.link, k));
  }

  /** Set the link count of an inode, as far as its width goes. */
  method SetLinks(fs: Edition, ino: nat, k: int, ghost w: World) returns (rc: Errno, ghost w': World)
    requires fs.Ok(w) && Clean(fs.g, fs.disk, w.tab) && 1 <= ino < |fs.disk.inodes|
    modifies fs, fs.free
    ensures old(fs.Faults()) <= fs.Faults() && (rc == EIO <==> old(fs.Faults()) < fs.Faults()) && rc in {OK, EIO}
    ensures fs.Ok(w') && Clean(fs.g, fs.disk, w'.tab) && OthersKept(old(fs.St()), w, fs.St(), w', ino)
    ensures w'.breach == w.breach && w'.tab == w.tab && w'.segs == w.segs && fs.tfree == old(fs.tfree) &&
            fs.disk.blocks == old(fs.disk).blocks
    ensures rc != OK ==> fs.disk.inodes == old(fs.disk).inodes
    ensures rc == OK ==>
            fs.disk.inodes == old(fs.disk).inodes[ino := old(fs.disk).inodes[ino].(nlink := LinkOf(fs.g.link, k))]
  {
    hide Sound, Guarded, LogOk, NeverD, OthersKept, Clean, InodeOk, LinkOf;
    ghost var st0, g := fs.St(), fs.g;
    StartOp(g, st0, w, ino);
    OthersSelf(st0, w, ino);
    w' := w;
    var ok, ip := fs.ReadInode(ino);
    if !ok {
      return EIO, w';
    }
    LinksOnly(g, fs.disk.blocks, w.tab, ino, ip, LinkOf(g.link, k));
    var ip1 := ip.(nlink := LinkOf(fs.g.link, k));
    rc, w' := fs.WriteInode(ino, ip1, w);
    WroteInode(st0, w, st0, w, fs.St(), w', ino, ip1);
    LinksClean(g, st0.disk, fs.disk, w.tab, ino, ip1.nlink);
  }

  lemma LinksClean(g: Geometry, disk: Image, disk': Image, tab: Table, ino: nat, k: int)
    requires g.nindir >= 1 && g.bsize >= 1 && Clean(g, disk, tab) && 1 <= ino < |disk.inodes| &&
             disk'.blocks == disk.blocks
    requires disk'.inodes == disk.inodes || disk'.inodes == disk.inodes[ino := disk.inodes[ino].(nlink := k)]
    ensures Clean(g, disk', tab)
  {
    hide InodeClaims;
    LinksOnly(g, disk.blocks, tab, ino, disk.inodes[ino], k);
    forall b: nat {:trigger tab[b]} | b < |tab|
      ensures !tab[b].Alloc? && (tab[b].Owned? ==> Held(g, disk', tab, b))
    {
      assert tab[b].Owned? ==> Held(g, disk, tab, b);
    }
  }

  // ---- the lifetime of an inode ----

  /** Inode ino is free, and owns no block. */
  ghost predicate Destroyed(disk: Image, tab: Table, ino: nat) {
    && ino < |disk.inodes| && disk.inodes[ino].kind.Unalloc?
    && forall x: nat {:trigger tab[x]} :: x < |tab| && tab[x].Owned? ==> tab[x].ino != ino
  }

  /** Tear an inode down: collect its blocks, persist the cleared inode, free the blocks. */
  method InodeDestroy(fs: Edition, ino: nat, ghost w: World) returns (rc: Errno, ghost leaked: bool, ghost w': World)
    requires fs.Ok(w) && Narrow(fs.g) && Clean(fs.g, fs.disk, w.tab) && 1 <= ino < |fs.disk.inodes|
    modifies fs, fs.free
    ensures old(fs.Faults()) <= fs.Faults() && (rc == EIO || leaked ==> old(fs.Faults()) < fs.Faults()) &&
            rc in {OK, EIO}
    ensures fs.Ok(w') && w'.breach == w.breach && Clean(fs.g, fs.disk, w'.tab) &&
            OthersKept(old(fs.St()), w, fs.St(), w', ino)
    ensures rc == OK ==> Destroyed(fs.disk, w'.tab, ino) && (!leaked ==> NoLoss(w.tab, w'.tab))
    ensures rc != OK ==> fs.disk.inodes == old(fs.disk).inodes
    ensures |fs.disk.inodes| == |old(fs.disk).inodes| && fs.disk.inodes[ino].size <= old(fs.disk).inodes[ino].size
    ensures fs.Faults() == old(fs.Faults()) ==> InStep(w, old(fs.tfree), w', fs.tfree)
    ensures fs.Faults() == old(fs.Faults()) ==> rc == OK
  {
    hide Sound, Guarded, LogOk, NeverD, Narrow, OthersKept, NoLoss, Clean, Tidy, InodeOk, TreesOk, SlotsClaims, Spent,
         InStep, Stack;
    ghost var st0, g := fs.St(), fs.g;
    StartOp(g, st0, w, ino);
    SoundTrees(g, st0, w);
    OthersSelf(st0, w, ino);
    StepNone(w, w, fs.tfree);
    leaked, w' := false, w;
    var ok, ip := fs.ReadInode(ino);
    if !ok {
      return EIO, leaked, w';
    }
    var ip1, bl;
    ok, ip1, bl := fs.Itrunc(ino, ip, w);
    if !ok {
      return EIO, leaked, w';
    }
    ip1 := ip1.(kind := Unalloc, large := false);
    ClearedInode(g, w.tab, ino, ip, ip1);
    rc, w' := fs.WriteInode(ino, ip1, w);
    ghost var st1, w1 := fs.St(), w';
    WroteInode(st0, w, st0, w, st1, w1, ino, ip1);
    StepNone(w, w1, old(fs.tfree));
    if rc == OK {
      assert multiset(bl) + multiset(InodeClaims(g, fs.disk.blocks, ip1)) ==
             multiset(InodeClaims(g, st0.disk.blocks, ip));
      leaked, w' := ReleaseDrain(fs, ino, bl, st0.disk.blocks, ip, ip1, w1);
      OthersThen(st0, w, st1, w1, fs.St(), w', ino);
      if fs.Faults() == old(fs.Faults()) {
        SpentStep(w1, old(fs.tfree), w', fs.tfree, 0);
      }
      NoneLeft(g, fs.disk, w'.tab, ino, ip1);
    }
    ghost var w2 := w';
    w' := Finish(g, st0, w, fs.St(), w2, ino);
    if fs.Faults() == old(fs.Faults()) {
      StepFrom(w, w1, w2, w', old(fs.tfree), fs.tfree);
    }
    if rc == OK {
      StillDestroyed(g, fs.disk, w2, w', ino);
    }
  }

  lemma ClearedInode(g: Geometry, tab: Table, ino: nat, ip: Inode, ip1: Inode)
    requires InodeOk(g, tab, ino, ip) && ip1.kind.Unalloc? && (|ip1.addr| == g.niaddr || ip1.addr == ip.addr)
    ensures InodeOk(g, tab, ino, ip1)
  {
  }

  lemma NoneLeft(g: Geometry, disk: Image, tab: Table, ino: nat, ip: Inode)
    requires ino < |disk.inodes| && disk.inodes[ino] == ip && ip.kind.Unalloc? && Tidy(g, disk.blocks, tab, ino, ip)
    ensures Destroyed(disk, tab, ino)
  {
  }

  lemma StillDestroyed(g: Geometry, disk: Image, w: World, w': World, ino: nat)
    requires Destroyed(disk, w.tab, ino) && Clean(g, disk, w'.tab)
    ensures Destroyed(disk, w'.tab, ino)
  {
    forall x: nat {:trigger w'.tab[x]} | x < |w'.tab| && w'.tab[x].Owned?
      ensures w'.tab[x].ino != ino
    {
      assert Held(g, disk, w'.tab, x);
    }
  }

  /** What comes of asking for an inode: one, none as all are in use, a read that failed, or a
      search that goes round for ever. */
  datatype Inum = Taken(ino: nat) | NoneFree | Unread | Spins

  /** Inode j is free. */
  predicate FreeAt(disk: Image, j: nat) {
    2 <= j < |disk.inodes| && disk.inodes[j].kind.Unalloc?
  }

  /** The free inodes below j in their order, as far as the cache goes, in 16 bits. */
  ghost function ScanTo(disk: Image, j: nat, n: nat): (cache: seq<nat>)
    decreases j
  {
    if j == 0 then []
    else
      var before := ScanTo(disk, j - 1, n);
      if |before| < n && FreeAt(disk, j - 1) then before + [(j - 1) % 0x1_0000] else before
  }

  lemma ScanStep(disk: Image, j: nat, n: nat)
    ensures ScanTo(disk, j + 1, n) ==
            ScanTo(disk, j, n) + if |ScanTo(disk, j, n)| < n && FreeAt(disk, j) then [j % 0x1_0000] else []
  {
  }

  lemma {:induction false} ScanNone(disk: Image, j: nat, n: nat)
    requires j <= 2
    ensures ScanTo(disk, j, n) == []
    decreases j
  {
    if j > 0 {
      ScanNone(disk, j - 1, n);
    }
  }

  /** A full cache takes no more. */
  lemma {:induction false} ScanFull(disk: Image, j: nat, k: nat, n: nat)
    requires j <= k && |ScanTo(disk, j, n)| >= n
    ensures ScanTo(disk, k, n) == ScanTo(disk, j, n)
    decreases k
  {
    if j < k {
      ScanFull(disk, j, k - 1, n);
    }
  }

  /** The last entries down to `left` of them name no free inode. */
  ghost predicate Skipped(disk: Image, cache: seq<nat>, left: nat) {
    left <= |cache| && forall k {:trigger cache[k]} :: left <= k < |cache| ==> !FreeAt(disk, cache[k])
  }

  /** The last entry that names a free inode was taken, with those above it. */
  ghost predicate Popped(disk: Image, cache: seq<nat>, ino: nat, cache': seq<nat>) {
    |cache'| < |cache| && cache' == cache[..|cache'|] && ino == cache[|cache'|] && Skipped(disk, cache, |cache'| + 1)
  }

  /** Take a free inode number from the in-core cache, refilling it by a scan of the i-list
      when it runs out.  Cache entries are hints: the inode itself decides.  They have 16 bits,
      so that a free inode above 65535 is entered as another, which is in use if no free inode
      is below; the next scan enters the same again. */
  method Ialloc(fs: Edition, cache: seq<nat>, nicinod: nat, ghost w: World) returns (r: Inum, cache': seq<nat>)
    requires fs.Ok(w) && nicinod >= 1 && forall k :: 0 <= k < |cache| ==> cache[k] < 0x1_0000
    modifies fs`tick
    ensures old(fs.Faults()) <= fs.Faults() && (r.Unread? <==> old(fs.Faults()) < fs.Faults())
    ensures r.Taken? ==> FreeAt(fs.disk, r.ino)
    ensures !r.Unread? ==> (r.NoneFree? <==> forall j: nat :: !FreeAt(fs.disk, j))
    ensures !r.Unread? ==> (r.Taken? <==> exists j: nat :: FreeAt(fs.disk, j) && j < 0x1_0000)
    ensures r.Taken? && !Skipped(fs.disk, cache, 0) ==> Popped(fs.disk, cache, r.ino, cache')
    ensures r.Taken? && Skipped(fs.disk, cache, 0) ==>
            Popped(fs.disk, ScanTo(fs.disk, |fs.disk.inodes|, nicinod), r.ino, cache')
    ensures r.NoneFree? || r.Spins? ==> cache' == []
  {
    hide Sound, Guarded, LogOk, NeverD, ScanTo;
    cache' := cache;
    var scanned := false;
    ghost var from, disk := cache, fs.disk;
    while true
      invariant fs.Faults() == old(fs.Faults()) && forall k :: 0 <= k < |cache'| ==> cache'[k] < 0x1_0000
      invariant |cache'| <= |from| && cache' == from[..|cache'|] && Skipped(disk, from, |cache'|)
      invariant from == if scanned then ScanTo(disk, |disk.inodes|, nicinod) else cache
      invariant scanned ==> (exists j: nat :: FreeAt(disk, j)) && Skipped(disk, cache, 0)
      invariant scanned && (exists j: nat :: FreeAt(disk, j) && j < 0x1_0000) ==>
                |cache'| >= 1 && FreeAt(disk, cache'[0])
      decreases !scanned, |cache'|
    {
      if |cache'| > 0 {
        var cand := cache'[|cache'| - 1];
        cache' := cache'[..|cache'| - 1];
        if cand < 2 || cand >= |fs.disk.inodes| {
          continue;
        }
        var ok, ip := fs.ReadInode(cand);
        if !ok {
          return Unread, cache';
        }
        if !ip.kind.Unalloc? {
          continue;
        }
        assert FreeAt(disk, cand) && from[|cache'|] == cand;
        return Taken(cand), cache';
      }
      if scanned {
        return Spins, cache';
      }
      var more;
      more, cache' := Rescan(fs, nicinod, w);
      if !more {
        return Unread, cache';
      }
      if |cache'| == 0 {
        return NoneFree, cache';
      }
      scanned, from := true, cache';
    }
  }

  /** Fill the empty cache by a scan. */
  method Rescan(fs: Edition, nicinod: nat, ghost w: World) returns (ok: bool, cache: seq<nat>)
    requires fs.Ok(w) && nicinod >= 1
    modifies fs`tick
    ensures old(fs.Faults()) <= fs.Faults() && (!ok <==> old(fs.Faults()) < fs.Faults())
    ensures forall k :: 0 <= k < |cache| ==> cache[k] < 0x1_0000
    ensures ok ==> cache == ScanTo(fs.disk, |fs.disk.inodes|, nicinod)
    ensures ok && cache == [] ==> forall j: nat :: !FreeAt(fs.disk, j)
    ensures ok && cache != [] ==> exists j: nat :: FreeAt(fs.disk, j)
    ensures ok && (exists j: nat :: FreeAt(fs.disk, j) && j < 0x1_0000) ==> cache != [] && FreeAt(fs.disk, cache[0])
  {
    hide Sound, Guarded, LogOk, NeverD, ScanTo;
    cache := [];
    var j := 2;
    ghost var first: nat, disk := 0, fs.disk;
    ScanNone(disk, 2, nicinod);
    if |disk.inodes| < 2 {
      ScanNone(disk, |disk.inodes|, nicinod);
    }
    while j < |fs.disk.inodes| && |cache| < nicinod
      invariant fs.Faults() == old(fs.Faults()) && 2 <= j && forall k :: 0 <= k < |cache| ==> cache[k] < 0x1_0000
      invariant cache == ScanTo(disk, j, nicinod) && (j <= |disk.inodes| || j == 2)
      invariant forall k: nat :: k < (if cache == [] then j else first) ==> !FreeAt(disk, k)
      invariant cache != [] ==> FreeAt(disk, first) && cache[0] == first % 0x1_0000
    {
      var ok, ip := fs.ReadInode(j);
      if !ok {
        return false, cache;
      }
      ScanStep(disk, j, nicinod);
      if ip.kind.Unalloc? {
        first := if cache == [] then j else first;
        cache := cache + [j % 0x1_0000];
      }
      j := j + 1;
    }
    if j < |disk.inodes| {
      ScanFull(disk, j, |disk.inodes|, nicinod);
    }
    ok := true;
  }

  function FreshInode(g: Geometry, kind: Kind, nlink: int, rdev: nat): Inode {
    Inode(kind, false, LinkOf(g.link, nlink), 0, seq(g.niaddr, s => if s == 0 && kind.Device? then rdev else 0))
  }

  /** Initialise a free inode and persist it.  It owns nothing yet. */
  method InodeCreate(fs: Edition, ino: nat, kind: Kind, nlink: int, rdev: nat, ghost w: World)
      returns (rc: Errno, ghost w': World)
    requires fs.Ok(w) && Clean(fs.g, fs.disk, w.tab) && 1 <= ino < |fs.disk.inodes| && fs.disk.inodes[ino].kind.Unalloc?
    modifies fs, fs.free
    ensures old(fs.Faults()) <= fs.Faults() && (rc == EIO ==> old(fs.Faults()) < fs.Faults()) && rc in {OK, EIO}
    ensures fs.Ok(w') && w'.breach == w.breach && w'.tab == w.tab && w'.segs == w.segs && Clean(fs.g, fs.disk, w'.tab)
    ensures OthersKept(old(fs.St()), w, fs.St(), w', ino)
    ensures rc == OK ==> fs.disk.inodes == old(fs.disk).inodes[ino := FreshInode(fs.g, kind, nlink, rdev)]
    ensures rc != OK ==>
            fs.disk.inodes == old(fs.disk).inodes ||
            fs.disk.inodes == old(fs.disk).inodes[ino := FreshInode(fs.g, Unalloc, 0, 0)]
    ensures fs.tfree == old(fs.tfree)
    ensures fs.Faults() == old(fs.Faults()) ==> rc == OK
  {
    hide Sound, Guarded, LogOk, NeverD, OthersKept, Clean, InodeOk;
    ghost var st0, g := fs.St(), fs.g;
    OthersSelf(st0, w, ino);
    FreshOk(g, w.tab, ino, Unalloc, 0, 0);
    FreshOk(g, w.tab, ino, kind, nlink, rdev);
    var ignored;
    ignored, w' := fs.WriteInode(ino, FreshInode(fs.g, Unalloc, 0, 0), w);
    ghost var st1, w1 := fs.St(), w';
    WroteInode(st0, w, st0, w, st1, w1, ino, FreshInode(g, Unalloc, 0, 0));
    fs.dirty := true;
    DirtyOk(g, st1, fs.St(), w1);
    rc, w' := fs.WriteInode(ino, FreshInode(fs.g, kind, nlink, rdev), w1);
    WroteInode(st0, w, st1, w1, fs.St(), w', ino, FreshInode(g, kind, nlink, rdev));
    CreatedClean(g, st0, w, fs.St(), w', ino);
  }

  lemma FreshOk(g: Geometry, tab: Table, ino: nat, kind: Kind, nlink: int, rdev: nat)
    ensures InodeOk(g, tab, ino, FreshInode(g, kind, nlink, rdev))
  {
  }

  lemma DirtyOk(g: Geometry, st: State, st': State, w: World)
    requires Inv(g, st, w) && st' == st.(dirty := true)
    ensures Inv(g, st', w)
  {
  }

  lemma CreatedClean(g: Geometry, st0: State, w0: World, st: State, w: World, ino: nat)
    requires Sound(g, st0, w0) && Clean(g, st0.disk, w0.tab) && 1 <= ino < |st0.disk.inodes| &&
             st0.disk.inodes[ino].kind.Unalloc?
    requires OthersKept(st0, w0, st, w, ino) && w.tab == w0.tab
    ensures Clean(g, st.disk, w.tab)
  {
    hide OthersKept, SlotsClaims;
    CleanOthers(g, st0, w0, st, w, ino);
    forall b: nat {:trigger w.tab[b]} | b < |w.tab|
      ensures !w.tab[b].Alloc? && (w.tab[b].Owned? ==> Held(g, st.disk, w.tab, b))
    {
      assert w.tab[b].Owned? ==> Held(g, st0.disk, w0.tab, b);
    }
  }

  // ---- read ----

  function Slice(s: seq<nat>, off: nat, n: nat): seq<nat> {
    if off >= |s| then [] else if off + n > |s| then s[off..] else s[off..off + n]
  }

  /** Read n bytes at off.  Nothing is written, whatever happens. */
  method FileRead(fs: Edition, ino: nat, ip: Inode, n: nat, off: int, ghost w: World)
      returns (rc: Errno, data: seq<nat>)
    requires fs.Ok(w) && Narrow(fs.g) && InodeOk(fs.g, w.tab, ino, ip) && ip.kind.Data? && ip.size < U32
    modifies fs, fs.free
    ensures fs.St() == old(fs.St()) && fs.log == old(fs.log) && fs.tfree == old(fs.tfree)
    ensures old(fs.Faults()) <= fs.Faults() && (rc == EIO <==> old(fs.Faults()) < fs.Faults()) &&
            rc in {OK, EIO, EINVAL}
    ensures rc == EINVAL <==> off < 0
    ensures rc == OK ==> data == Slice(Contents(fs.g, fs.disk.blocks, ip), off, n)
  {
    hide Sound, Guarded, LogOk, NeverD, Narrow, InodeOk, ByteAt, Locates, MapOf;
    ghost var st0, g := fs.St(), fs.g;
    Facts(g, st0, w);
    data := [];
    if off < 0 {
      return EINVAL, data;
    }
    if off >= ip.size {
      return OK, data;
    }
    var size := if n > ip.size - off then ip.size - off else n;
    var done := 0;
    while done < size
      invariant 0 <= done <= size && |data| == done && fs.Faults() == old(fs.Faults())
      invariant fs.St() == st0 && fs.log == old(fs.log) && fs.tfree == old(fs.tfree)
      invariant forall k {:trigger data[k]} :: 0 <= k < done ==> data[k] == ByteAt(g, st0.disk.blocks, ip, off + k)
    {
      var lbn, boff, m := ChunkAt(fs.g.bsize, off + done, size - done);
      ghost var was := data;
      var chunk;
      rc, chunk := ReadChunk(fs, ino, ip, lbn, boff, m, off + done, w);
      if rc != OK {
        return;
      }
      data := data + chunk;
      done := done + m;
    }
    rc := OK;
    assert data == Slice(Contents(g, st0.disk.blocks, ip), off, n);
  }

  method ReadChunk(fs: Edition, ino: nat, ip: Inode, lbn: nat, boff: nat, m: nat, ghost pos: nat, ghost w: World)
      returns (rc: Errno, chunk: seq<nat>)
    requires fs.Ok(w) && Narrow(fs.g) && InodeOk(fs.g, w.tab, ino, ip) && ip.kind.Data?
    requires lbn < U32 && Locates(fs.g.bsize, pos, lbn, boff) && boff + m <= fs.g.bsize
    modifies fs, fs.free
    ensures fs.St() == old(fs.St()) && fs.log == old(fs.log) && fs.tfree == old(fs.tfree)
    ensures old(fs.Faults()) <= fs.Faults() && (rc == EIO <==> old(fs.Faults()) < fs.Faults()) && rc in {OK, EIO}
    ensures rc == OK ==> |chunk| == m && forall k :: 0 <= k < m ==>
            chunk[k] == ByteAt(fs.g, fs.disk.blocks, ip, pos + k)
  {
    hide Sound, Guarded, LogOk, NeverD, Narrow, InodeOk, ByteAt, Locates, MapOf;
    ghost var st0, g := fs.St(), fs.g;
    Facts(g, st0, w);
    MapLabel(g, st0, w, ino, ip, lbn);
    var ip', pbn, blk;
    ghost var w';
    chunk := [];
    rc, ip', pbn, w' := fs.Bmap(ino, ip, lbn, false, w);
    if rc != OK {
      return;
    }
    if pbn == 0 {
      blk := Zeros(fs.g.bsize);
    } else {
      var ok;
      ok, blk := fs.ReadBlock(pbn);
      if !ok {
        return EIO, chunk;
      }
    }
    chunk := blk[boff..boff + m];
    forall k | 0 <= k < m
      ensures chunk[k] == ByteAt(g, fs.disk.blocks, ip, pos + k)
    {
      ChunkByte(g, fs.disk.blocks, ip, lbn, boff, pos, k, blk);
    }
  }

  lemma ChunkByte(g: Geometry, blocks: seq<Block>, ip: Inode, lbn: nat, boff: nat, pos: nat, k: nat, blk: Block)
    requires g.nindir >= 1 && Locates(g.bsize, pos, lbn, boff) && boff + k < g.bsize == |blk|
    requires var b := MapOf(g, blocks, ip, lbn);
             if b == 0 then blk == Zeros(g.bsize) else b < |blocks| && blk == blocks[b]
    ensures blk[boff + k] == ByteAt(g, blocks, ip, pos + k)
  {
    hide MapOf;
    DivUnique(pos + k, g.bsize, lbn, boff + k);
  }
}
