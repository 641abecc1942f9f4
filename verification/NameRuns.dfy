/** The namespace on a mounted volume: every operation of the namespace is a run of operations
    on the volume, so what holds of runs holds of it. */
module NameRuns {
  import opened LinkWidth
  import opened Device
  import opened Geometry
  import opened FreeChain
  import opened Consistency
  import opened Accounting
  import opened FileBytes
  import opened FileOps
  import opened Engine
  import opened Runs
  import opened NameTree
  import opened DirSlots
  import NameSteps
  import Namespace

  // ---- scanning a directory ----

  /** The entry that a write looks for: a free one to enter a name, the name's own to remove it. */
  ghost predicate Wanted(size: nat, e: seq<nat>, s: Step) {
    && |e| == size >= 3
    && match s
       case Enter(_, _, _, _) => InoOf(e) == 0
       case Leave(_, n, _) => InoOf(e) != 0 && SameName(e[2..], Text(n))
       case _ => false
  }

  method IsWanted(size: nat, e: seq<nat>, s: Step) returns (yes: bool)
    requires |e| == size >= 3 && (s.Leave? ==> Fits(size, s.n))
    ensures yes <==> Wanted(size, e, s)
  {
    match s {
      case Enter(_, _, _, _) => yes := InoOf(e) == 0;
      case Leave(_, n, _) =>
        var eq := FixedNameEq(e[2..], Text(n));
        yes := InoOf(e) != 0 && eq;
      case _ => yes := false;
    }
  }

  ghost predicate WantedAt(size: nat, c: seq<nat>, slots: nat, i: nat, s: Step)
    requires Whole(size, c, slots)
  {
    i < slots && (SlotIn(size, c, slots, i); Wanted(size, Slot(size, c, i), s))
  }

  /** The first wanted entry of a chunk of whole entries. */
  method ScanChunk(size: nat, data: seq<nat>, m: nat, s: Step) returns (hit: bool, j: nat)
    requires Whole(size, data, m) && (s.Leave? ==> Fits(size, s.n))
    ensures if hit then WantedAt(size, data, m, j, s) && j < m else j == m
    ensures forall i: nat {:trigger WantedAt(size, data, m, i, s)} :: i < j ==> !WantedAt(size, data, m, i, s)
  {
    hide Wanted;
    j := 0;
    while j < m
      invariant 0 <= j <= m
      invariant forall i: nat {:trigger WantedAt(size, data, m, i, s)} :: i < j ==> !WantedAt(size, data, m, i, s)
    {
      SlotIn(size, data, m, j);
      hit := IsWanted(size, Slot(size, data, j), s);
      if hit {
        return;
      }
      j := j + 1;
    }
    return false, j;
  }

  /** The first wanted entry of a directory with contents c, or their number if there is none. */
  ghost predicate Found(size: nat, c: seq<nat>, slots: nat, s: Step, k: nat)
    requires Whole(size, c, slots)
  {
    && k <= slots
    && (k < slots ==> WantedAt(size, c, slots, k, s))
    && (forall i: nat {:trigger WantedAt(size, c, slots, i, s)} :: i < k ==> !WantedAt(size, c, slots, i, s))
  }

  lemma ChunkSlot(size: nat, c: seq<nat>, slots: nat, k: nat, m: nat, data: seq<nat>, i: nat)
    requires Whole(size, c, slots) && Whole(size, data, m) && k + m <= slots && i < m
    requires k * size + |data| <= |c| && data == c[k * size..k * size + |data|]
    ensures (i + 1) * size <= |data| && (k + i + 1) * size <= |c| && Slot(size, data, i) == Slot(size, c, k + i)
  {
    SlotIn(size, data, m, i);
    SlotIn(size, c, slots, k + i);
    MulPlus(k, i, size);
    MulPlus(k, i + 1, size);
    SliceOfSlice(c, k * size, |data|, i * size, (i + 1) * size);
  }

  lemma SliceOfSlice(c: seq<nat>, lo: nat, n: nat, a: nat, b: nat)
    requires a <= b <= n && lo + n <= |c|
    ensures c[lo..lo + n][a..b] == c[lo + a..lo + b]
  {
    var l, r := c[lo..lo + n][a..b], c[lo + a..lo + b];
    assert |l| == |r|;
    assert forall j :: 0 <= j < |l| ==> l[j] == r[j];
  }

  function Offset(size: nat, k: nat): nat {
    k * size
  }

  lemma OffsetOrder(size: nat, c: seq<nat>, slots: nat, k: nat)
    requires Whole(size, c, slots) && k <= slots
    ensures Offset(size, k) < |c| <==> k < slots
  {
    MulMonotone(slots, k, size);
    MulMonotone(k + 1, slots, size);
    MulPlus(k, 1, size);
  }

  /** What scanning a chunk says about the directory. */
  lemma ChunkScanned(size: nat, c: seq<nat>, slots: nat, k: nat, per: nat, data: seq<nat>, s: Step)
    requires Whole(size, c, slots) && k < slots && per >= 1 && data == Slice(c, Offset(size, k), Offset(size, per))
    ensures var m := |data| / size;
            && 1 <= m && k + m <= slots && Whole(size, data, m)
            && (forall i: nat {:trigger WantedAt(size, c, slots, i, s)} :: k <= i < k + m ==>
                  (WantedAt(size, c, slots, i, s) <==> WantedAt(size, data, m, i - k, s)))
  {
    hide Wanted, Slot;
    ChunkSize(size, c, slots, k, per);
    var m := if k + per <= slots then per else slots - k;
    WholeSlots(size, data, m);
    forall i: nat {:trigger WantedAt(size, c, slots, i, s)} | k <= i < k + m
      ensures WantedAt(size, c, slots, i, s) <==> WantedAt(size, data, m, i - k, s)
    {
      ChunkSlot(size, c, slots, k, m, data, i - k);
    }
  }

  /** Find the entry to use, a chunk of `per` entries at a time. */
  method FindEntry(fs: Edition, d: nat, ip: Img.Inode, size: nat, per: nat, s: Step, ghost slots: nat, ghost w: World)
      returns (rc: Errno, k: nat)
    requires fs.Ok(w) && Narrow(fs.g) && Ownership.InodeOk(fs.g, w.tab, d, ip) && ip.kind.Data? && ip.size < U32
    requires per >= 1 && (s.Leave? ==> Fits(size, s.n)) && fs.g.nindir >= 1 && fs.g.bsize >= 1
    requires Whole(size, Contents(fs.g, fs.disk.blocks, ip), slots)
    modifies fs, fs.free
    ensures fs.St() == old(fs.St()) && fs.log == old(fs.log) && fs.tfree == old(fs.tfree) &&
            old(fs.Faults()) <= fs.Faults()
    ensures rc in {OK, EIO} && (rc == EIO ==> old(fs.Faults()) < fs.Faults())
    ensures rc == OK ==> Found(size, Contents(fs.g, fs.disk.blocks, ip), slots, s, k)
  {
    hide Sound, Guarded, LogOk, Narrow, Ownership.InodeOk, WantedAt, Contents, Offset, Whole, Slice, Fits;
    ghost var c := Contents(fs.g, fs.disk.blocks, ip);
    ContentsSize(fs.g, fs.disk.blocks, ip);
    k := 0;
    EntrySize(size, c, slots);
    OffsetOrder(size, c, slots, k);
    while Offset(size, k) < ip.size
      invariant fs.St() == old(fs.St()) && fs.log == old(fs.log) && fs.tfree == old(fs.tfree) &&
                old(fs.Faults()) <= fs.Faults()
      invariant k <= slots && (Offset(size, k) < |c| <==> k < slots)
      invariant forall i: nat {:trigger WantedAt(size, c, slots, i, s)} :: i < k ==> !WantedAt(size, c, slots, i, s)
      decreases slots - k
    {
      var data;
      rc, data := FileRead(fs, d, ip, Offset(size, per), Offset(size, k), w);
      if rc != OK {
        return;
      }
      ChunkScanned(size, c, slots, k, per, data, s);
      var hit, j := ScanChunk(size, data, |data| / size, s);
      if hit {
        k := k + j;
        return;
      }
      k := k + |data| / size;
      OffsetOrder(size, c, slots, k);
    }
    rc := OK;
  }

  lemma EntrySize(size: nat, data: seq<nat>, m: nat)
    requires Whole(size, data, m)
    ensures size >= 3
  {
  }

  lemma ContentsSize(g: Geometry, blocks: seq<Block>, ip: Img.Inode)
    requires g.nindir >= 1 && g.bsize >= 1
    ensures |Contents(g, blocks, ip)| == ip.size
  {
  }

  lemma ChunkSize(size: nat, c: seq<nat>, slots: nat, k: nat, per: nat)
    requires Whole(size, c, slots) && k < slots && per >= 1
    ensures var m := if k + per <= slots then per else slots - k;
            var data := Slice(c, k * size, per * size);
            m >= 1 && Whole(size, data, m) && k * size + |data| <= |c| && data == c[k * size..k * size + |data|]
  {
    MulPlus(k, per, size);
    MulPlus(k, slots - k, size);
    MulMonotone(k + 1, slots, size);
    MulPlus(k, 1, size);
    MulMonotone(k + per, slots, size);
    MulMonotone(slots, k + per, size);
  }

  // ---- one write of the namespace ----

  /** The first wanted entry is the right one. */
  lemma FoundRight(size: nat, t: Tree, v: seq<File>, s: Step, k: nat)
    requires Shows(size, t, v) && May(t, s) && (s.Enter? || s.Leave?) && Fits(size, s.n)
    requires s.d < |v| && v[s.d].Bytes?
    requires var c := v[s.d].bytes; Whole(size, c, |c| / size) && Found(size, c, |c| / size, s, k)
    ensures RightSlot(size, t, v, s, k)
  {
    hide Fits, Enc, SameName, Slot;
    var d, c := s.d, v[s.d].bytes;
    var slots := |c| / size;
    assert ShowsAt(size, t, v[d], d);
    if s.Enter? {
      forall j: nat | j < k
        ensures Used(size, c, slots, j)
      {
        assert !WantedAt(size, c, slots, j, s);
      }
    }
    if s.Leave? {
      var i := At(t, d, s.n);
      var j :| Used(size, c, slots, j) && Holds(size, c, slots, j, s.n, i);
      NameRound(size, s.n, i, s.n);
      assert WantedAt(size, c, slots, j, s);
      assert Used(size, c, slots, k);
      var m: Name :| Has(t, d, m) && Holds(size, c, slots, k, m, At(t, d, m));
      NameRound(size, m, At(t, d, m), s.n);
    }
  }

  lemma DirWhole(size: nat, t: Tree, v: seq<File>, d: nat)
    requires Shows(size, t, v) && IsDir(t, d)
    ensures 1 <= d < |v| && v[d].Bytes? && Whole(size, v[d].bytes, |v[d].bytes| / size)
  {
    assert ShowsAt(size, t, v[d], d);
  }

  /** The operation makes the write s of the names t on the volume as it is: in a free or new
      entry, or in the name's own. */
  ghost predicate IsOp(g: Geometry, size: nat, t: Tree, disk: Img.Image, s: Step, op: Op)
    requires g.nindir >= 1 && g.bsize >= 1
  {
    && Shows(size, t, View(g, disk)) && May(t, s) && (s.Enter? ==> Fits(size, s.n))
    && exists k: nat {:trigger OpOf(size, s, k)} :: RightSlot(size, t, View(g, disk), s, k) && op == OpOf(size, s, k)
  }

  /** What is answered for a name that does not fit an entry. */
  function NameError(size: nat, n: Name): Errno {
    if 1 <= |Text(n)| && |Text(n)| + 2 <= size then EINVAL else ENAMETOOLONG
  }

  /** A name to enter does not fit an entry, or the directory has no room for one in 32 bits. */
  predicate NoFit(size: nat, disk: Img.Image, s: Step, rc: Errno) {
    && s.Enter?
    && if Fits(size, s.n) then rc == EINVAL && s.d < |disk.inodes| && disk.inodes[s.d].size + size >= U32
       else rc == NameError(size, s.n)
  }

  /** A write into a directory that cannot be made: the list holds no more blocks than it may
      need, or no slot reaches one of its bytes. */
  ghost predicate Short(g: Geometry, w: World, op: Op, rc: Errno)
    requires g.nindir >= 1 && g.bsize >= 1
  {
    && op.Patch? && op.off >= 0
    && (|| (rc == ENOSPC && |Stack(w.segs)| <= Need(g, op.off, |op.data|))
        || (rc == EFBIG && exists p: nat {:trigger Unreachable(g, p)} ::
              op.off <= p < op.off + |op.data| && Unreachable(g, p)))
  }

  lemma OkOrShort(g: Geometry, size: nat, s: Step, k: nat, w: World, maxfile: nat, rc: Errno)
    requires g.nindir >= 1 && g.bsize >= 1 && (s.Enter? ==> Fits(size, s.n))
    requires Answers(g, w, maxfile, OpOf(size, s, k), rc)
    ensures rc == OK || Short(g, w, OpOf(size, s, k), rc)
  {
  }

  /** Make one write of the namespace on the volume: find the entry, and do the operation.  A
      name that does not fit an entry is refused. */
  method StepOnDisk(fs: Edition, s: Step, size: nat, per: nat, maxfile: nat, ghost t: Tree, ghost w: World)
    returns (rc: Errno, ops: seq<Op>, ghost done: bool, ghost w': World)
    requires fs.Ok(w) && Narrow(fs.g) && Clean(fs.g, fs.disk, w.tab) && SizesOk(fs.disk) && maxfile < U32 && per >= 1
    requires fs.g.nindir >= 1 && fs.g.bsize >= 1 && fs.g.Valid() && t.width == fs.g.link
    requires TailsZero(fs.g, fs.disk) && Shows(size, t, View(fs.g, fs.disk)) && May(t, s)
    modifies fs, fs.free
    ensures fs.Ok(w') && Clean(fs.g, fs.disk, w'.tab) && SizesOk(fs.disk) && old(fs.Faults()) <= fs.Faults()
    ensures ops == [] ==> rc != OK && fs.St() == old(fs.St()) && w' == w
    ensures rc == EIO ==> old(fs.Faults()) < fs.Faults()
    ensures ops == [] ==> rc == EIO || NoFit(size, fs.disk, s, rc)
    ensures ops != [] ==>
              && |ops| == 1 && !ops[0].Truncate? && Applies(old(fs.disk), ops[0])
              && IsOp(fs.g, size, t, old(fs.disk), s, ops[0])
              && StepOk(fs.g, old(fs.St()), w, fs.St(), w', ops[0].ino)
              && (CoveredOp(fs.g, old(fs.disk), w.tab, ops[0]) ==> w'.breach == w.breach)
              && (rc == OK || rc == EIO || Short(fs.g, w, ops[0], rc))
    ensures rc == OK ==> TailsZero(fs.g, fs.disk) && Shows(size, Take(t, s), View(fs.g, fs.disk))
    ensures rc == OK ==> |ops| == 1 && View(fs.g, fs.disk) == Apply(fs.g.link, View(fs.g, old(fs.disk)), ops[0])
    ensures done ==> rc == OK && NoLoss(w.tab, w'.tab)
    ensures fs.Faults() == old(fs.Faults()) ==> (done <==> rc == OK)
  {
    hide Sound, Guarded, LogOk, Narrow, Clean, SizesOk, TailsZero, Shows, View, Apply, Take, NoLoss, Stack, InStep,
         Answers, OpOf, Applies, CoveredOp, TailFits, RightSlot, Found, Fits, Whole, Short, Refines, NoFit;
    ops, done, w' := [], false, w;
    var k := 0;
    ghost var v, st0, g := View(fs.g, fs.disk), fs.St(), fs.g;
    if s.Enter? && !Fits(size, s.n) {
      Unfit(size, fs.disk, s);
      return NameError(size, s.n), ops, done, w';
    }
    if s.Enter? || s.Leave? {
      DirWhole(size, t, v, s.d);
      ViewDir(g, fs.disk, s.d);
      StartOp(g, st0, w, s.d);
      var ok, ip := fs.ReadInode(s.d);
      if !ok {
        return EIO, ops, done, w';
      }
      SizeBelow(fs.disk, s.d);
      if s.Leave? {
        LeaveFits(size, t, v, s);
      }
      rc, k := FindEntry(fs, s.d, ip, size, per, s, |v[s.d].bytes| / size, w);
      if rc != OK {
        return rc, ops, done, w';
      }
      FoundRight(size, t, v, s, k);
    } else {
      AnySlot(size, t, v, s, k);
    }
    var op := OpOf(size, s, k);
    if !Applies(fs.disk, op) {
      ApplyOrFull(g, size, t, fs.disk, s, k);
      return EINVAL, ops, done, w';
    }
    ops := [op];
    rc, done, w' := Do(fs, op, maxfile, w);
    NoTail(g, size, s, k);
    if rc == OK {
      Shown(g, size, t, st0.disk, s, k, fs.disk);
    }
    if rc != EIO {
      OkOrShort(g, size, s, k, w, maxfile, rc);
    }
  }

  lemma Shown(g: Geometry, size: nat, t: Tree, disk: Img.Image, s: Step, k: nat, disk': Img.Image)
    requires g.nindir >= 1 && g.bsize >= 1 && t.width == g.link && (s.Enter? ==> Fits(size, s.n))
    requires TailsZero(g, disk) && Shows(size, t, View(g, disk)) && May(t, s) && RightSlot(size, t, View(g, disk), s, k)
    requires Refines(g, disk, disk', OpOf(size, s, k))
    ensures TailsZero(g, disk') && Shows(size, Take(t, s), View(g, disk'))
    ensures View(g, disk') == Apply(g.link, View(g, disk), OpOf(size, s, k))
  {
    hide TailsZero, Shows, View, Apply, Take, May, RightSlot, Fits, OpOf;
    StepShows(size, t, View(g, disk), s, k);
  }

  lemma Unfit(size: nat, disk: Img.Image, s: Step)
    requires s.Enter? && !Fits(size, s.n)
    ensures NoFit(size, disk, s, NameError(size, s.n))
  {
  }

  /** The operation of a write applies, unless a directory would grow past 32 bits. */
  lemma ApplyOrFull(g: Geometry, size: nat, t: Tree, disk: Img.Image, s: Step, k: nat)
    requires g.nindir >= 1 && g.bsize >= 1 && SizesOk(disk) && Shows(size, t, View(g, disk)) && May(t, s)
    requires (s.Enter? ==> Fits(size, s.n)) && RightSlot(size, t, View(g, disk), s, k)
    ensures Applies(disk, OpOf(size, s, k)) || NoFit(size, disk, s, EINVAL)
  {
    hide Contents, Fits, Enc, Holds, Used, DirShows;
    var v := View(g, disk);
    match s
    case Enter(d, _, _, _) =>
      DirWhole(size, t, v, d);
      ViewContents(g, disk, d);
      SlotOrder(size, k, |v[d].bytes| / size);
    case Leave(d, n, _) =>
      DirWhole(size, t, v, d);
      ViewContents(g, disk, d);
      SizeBelow(disk, d);
      HoldsBelow(size, v[d].bytes, |v[d].bytes| / size, k, n, At(t, d, n));
    case Count(i, _) => assert ShowsAt(size, t, v[i], i);
    case Make(i, _, _) => assert ShowsAt(size, t, v[i], i);
    case Clear(i) => assert ShowsAt(size, t, v[i], i);
  }

  lemma HoldsBelow(size: nat, c: seq<nat>, slots: nat, k: nat, n: Name, i: nat)
    requires Whole(size, c, slots) && Holds(size, c, slots, k, n, i)
    ensures k * size + size <= |c|
  {
    SlotIn(size, c, slots, k);
  }

  lemma ViewDir(g: Geometry, disk: Img.Image, d: nat)
    requires g.nindir >= 1 && g.bsize >= 1 && 1 <= d < |disk.inodes| && View(g, disk)[d].Bytes?
    ensures disk.inodes[d].kind.Data? && View(g, disk)[d].bytes == Contents(g, disk.blocks, disk.inodes[d])
  {
    hide Contents;
  }

  lemma SizeBelow(disk: Img.Image, d: nat)
    requires SizesOk(disk) && 1 <= d < |disk.inodes|
    ensures disk.inodes[d].size < U32
  {
  }

  /** A name that is there fits an entry. */
  lemma LeaveFits(size: nat, t: Tree, v: seq<File>, s: Step)
    requires Shows(size, t, v) && May(t, s) && s.Leave?
    ensures Fits(size, s.n)
  {
    hide Fits;
    assert ShowsAt(size, t, v[s.d], s.d);
    var c := v[s.d].bytes;
    var j :| Used(size, c, |c| / size, j) && Holds(size, c, |c| / size, j, s.n, At(t, s.d, s.n));
  }

  lemma AnySlot(size: nat, t: Tree, v: seq<File>, s: Step, k: nat)
    requires Shows(size, t, v) && May(t, s) && !s.Enter? && !s.Leave?
    ensures RightSlot(size, t, v, s, k)
  {
  }

  lemma NoTail(g: Geometry, size: nat, s: Step, k: nat)
    requires g.bsize >= 1 && (s.Enter? ==> Fits(size, s.n))
    ensures TailFits(g, OpOf(size, s, k)) && !OpOf(size, s, k).Truncate?
  {
  }

  // ---- whole operations ----

  lemma TraceStep(g: Geometry, ops: seq<Op>, t: seq<Moment>, op: Op, m: Moment)
    requires Trace(g, ops, t) && Applies(t[|ops|].st.disk, op) && StepOk(g, t[|ops|].st, t[|ops|].w, m.st, m.w, op.ino)
    ensures Trace(g, ops + [op], t + [m])
  {
    hide Applies, StepOk;
    TraceMore(g, ops, op, t, m);
  }

  /** The operations are those of the first writes of `steps`, each made on the volume as the
      ones before left it. */
  ghost predicate OpsOf(g: Geometry, size: nat, t: Tree, steps: seq<Step>, ops: seq<Op>, trace: seq<Moment>)
    requires g.nindir >= 1 && g.bsize >= 1
  {
    && |ops| <= |steps| && |trace| == |ops| + 1
    && forall i {:trigger ops[i]} :: 0 <= i < |ops| ==>
         IsOp(g, size, TakeAll(t, steps[..i]), trace[i].st.disk, steps[i], ops[i])
  }

  /** What the operations did that were done: all, or all but the last. */
  ghost predicate Effects(g: Geometry, ops: seq<Op>, trace: seq<Moment>, all: bool)
    requires g.nindir >= 1 && g.bsize >= 1 && |trace| == |ops| + 1
  {
    forall i {:trigger ops[i]} :: 0 <= i < |ops| && (all || i < |ops| - 1) ==>
      View(g, trace[i + 1].st.disk) == Apply(g.link, View(g, trace[i].st.disk), ops[i])
  }

  /** Why writes stop though nothing failed: the next one does not fit, or there was no room for
      the last one. */
  ghost predicate Blocked(g: Geometry, size: nat, steps: seq<Step>, ops: seq<Op>, trace: seq<Moment>, rc: Errno)
    requires g.nindir >= 1 && g.bsize >= 1 && |trace| == |ops| + 1
  {
    || (|ops| < |steps| && NoFit(size, trace[|ops|].st.disk, steps[|ops|], rc))
    || (ops != [] && Short(g, trace[|ops| - 1].w, ops[|ops| - 1], rc))
  }

  /** What is said of writes made on the volume: which operations they are and what they did, that
      all were made if the result is OK, and why not if it is not EIO, which only a fault makes. */
  ghost predicate Carried(g: Geometry, size: nat, t: Tree, steps: seq<Step>, ops: seq<Op>, trace: seq<Moment>,
      rc: Errno,
      calm: bool)
    requires g.nindir >= 1 && g.bsize >= 1
  {
    && OpsOf(g, size, t, steps, ops, trace) && Trace(g, ops, trace)
    && Effects(g, ops, trace, rc == OK) && (rc == OK ==> |ops| == |steps|) && (rc == EIO ==> !calm)
    && (rc != OK && rc != EIO ==> Blocked(g, size, steps, ops, trace, rc))
  }

  lemma CarriedNone(g: Geometry, size: nat, t: Tree, m: Moment, calm: bool)
    requires g.nindir >= 1 && g.bsize >= 1
    ensures Carried(g, size, t, [], [], [m], OK, calm)
  {
    TraceNone(g, m);
  }

  /** One more write that was made, well or not. */
  lemma CarriedMore(g: Geometry, size: nat, t: Tree, a: seq<Step>, ops: seq<Op>, trace: seq<Moment>, calm: bool,
      steps: seq<Step>, op: Op, m: Moment, rc: Errno, calm': bool)
    requires g.nindir >= 1 && g.bsize >= 1 && Carried(g, size, t, a, ops, trace, OK, calm) && |a| < |steps|
    requires a == steps[..|a|] && IsOp(g, size, TakeAll(t, a), trace[|ops|].st.disk, steps[|a|], op)
    requires Trace(g, ops + [op], trace + [m])
    requires (rc == OK || rc == EIO || Short(g, trace[|ops|].w, op, rc)) && (rc == EIO ==> !calm')
    requires rc == OK ==> View(g, m.st.disk) == Apply(g.link, View(g, trace[|ops|].st.disk), op)
    ensures rc != OK ==> Carried(g, size, t, steps, ops + [op], trace + [m], rc, calm')
    ensures rc == OK ==> Carried(g, size, t, steps[..|a| + 1], ops + [op], trace + [m], rc, calm')
  {
    hide IsOp, Trace, TakeAll, Short, NoFit, View, Apply;
    var ops', trace' := ops + [op], trace + [m];
    forall i {:trigger ops'[i]} | 0 <= i < |ops'|
      ensures IsOp(g, size, TakeAll(t, steps[..i]), trace'[i].st.disk, steps[i], ops'[i])
    {
      if i < |ops| {
        assert ops'[i] == ops[i] && a[..i] == steps[..i] && a[i] == steps[i] && trace'[i] == trace[i];
      }
    }
    assert forall i {:trigger ops'[i]} :: 0 <= i < |ops'| ==> steps[..|a| + 1][..i] == steps[..i];
    forall i {:trigger ops'[i]} | 0 <= i < |ops'| && (rc == OK || i < |ops|)
      ensures View(g, trace'[i + 1].st.disk) == Apply(g.link, View(g, trace'[i].st.disk), ops'[i])
    {
      if i < |ops| {
        assert ops'[i] == ops[i] && trace'[i] == trace[i] && trace'[i + 1] == trace[i + 1];
      }
    }
  }

  /** The next write was not made. */
  lemma CarriedStop(g: Geometry, size: nat, t: Tree, a: seq<Step>, ops: seq<Op>, trace: seq<Moment>, calm: bool,
      steps: seq<Step>, rc: Errno, calm': bool)
    requires g.nindir >= 1 && g.bsize >= 1 && Carried(g, size, t, a, ops, trace, OK, calm) && |a| < |steps|
    requires a == steps[..|a|] && rc != OK
    requires (rc == EIO || NoFit(size, trace[|ops|].st.disk, steps[|a|], rc)) && (rc == EIO ==> !calm')
    ensures Carried(g, size, t, steps, ops, trace, rc, calm')
  {
    hide IsOp, Trace, TakeAll, Short, NoFit, View, Apply;
    forall i {:trigger ops[i]} | 0 <= i < |ops|
      ensures IsOp(g, size, TakeAll(t, steps[..i]), trace[i].st.disk, steps[i], ops[i])
    {
      assert a[..i] == steps[..i] && a[i] == steps[i];
    }
  }

  /** The writes of a namespace operation, made on the volume one after the other until one fails.
      However it ends, they are a run of operations on the volume; and if all are done, the
      volume shows the namespace that the writes make. */
  method StepsOnDisk(fs: Edition, steps: seq<Step>, size: nat, per: nat, maxfile: nat, ghost t: Tree, ghost w: World)
    returns (rc: Errno, ops: seq<Op>, ghost trace: seq<Moment>, ghost done: bool, ghost w': World)
    requires fs.Ok(w) && Narrow(fs.g) && Clean(fs.g, fs.disk, w.tab) && SizesOk(fs.disk) && maxfile < U32 && per >= 1
    requires fs.g.nindir >= 1 && fs.g.bsize >= 1 && fs.g.Valid() && t.width == fs.g.link
    requires TailsZero(fs.g, fs.disk) && Shows(size, t, View(fs.g, fs.disk)) && MayAll(t, steps)
    modifies fs, fs.free
    ensures fs.Ok(w') && Clean(fs.g, fs.disk, w'.tab) && SizesOk(fs.disk) && old(fs.Faults()) <= fs.Faults()
    ensures |trace| == |ops| + 1 && Carried(fs.g, size, t, steps, ops, trace, rc, fs.Faults() == old(fs.Faults()))
    ensures trace[0] == Moment(old(fs.St()), w) && trace[|ops|] == Moment(fs.St(), w')
    ensures !w'.breach <==> AllNeverD(fs.g, fs.log)
    ensures CoveredRun(fs.g, ops, trace) ==> w'.breach == w.breach
    ensures rc == OK ==> TailsZero(fs.g, fs.disk) && Shows(size, TakeAll(t, steps), View(fs.g, fs.disk))
    ensures done ==> rc == OK && NoLoss(w.tab, w'.tab)
    ensures fs.Faults() == old(fs.Faults()) ==> (done <==> rc == OK)
  {
    hide Sound, Guarded, Narrow, Clean, SizesOk, TailsZero, Shows, View, Take, NoLoss, Stack, InStep, Applies,
         CoveredOp, CoveredRun, Trace, StepOk, May, MayAll, TakeAll, AllNeverD, IsOp, NoFit, Short, Carried, Apply;
    ghost var g := fs.g;
    rc, ops, done, w' := OK, [], true, w;
    trace := [Moment(fs.St(), w)];
    CarriedNone(g, size, t, trace[0], true);
    NoLossSelf(w.tab);
    NoSteps(t);
    assert steps[..0] == [];
    for i := 0 to |steps|
      invariant fs.Ok(w') && Clean(g, fs.disk, w'.tab) && SizesOk(fs.disk) && old(fs.Faults()) <= fs.Faults()
      invariant |trace| == |ops| + 1 && |ops| == i && Carried(g, size, t, steps[..i], ops, trace, OK, true)
      invariant trace[0] == Moment(old(fs.St()), w) && trace[|ops|] == Moment(fs.St(), w')
      invariant CoveredRun(g, ops, trace) ==> w'.breach == w.breach
      invariant rc == OK && TailsZero(g, fs.disk) && Shows(size, TakeAll(t, steps[..i]), View(g, fs.disk))
      invariant (done ==> NoLoss(w.tab, w'.tab)) && (fs.Faults() == old(fs.Faults()) ==> done)
      invariant TakeAll(t, steps[..i]).width == g.link
    {
      ghost var was, ops0, trace0, did, ti := w', ops, trace, done, TakeAll(t, steps[..i]);
      var more;
      assert steps[..i + 1] == steps[..i] + [steps[i]];
      MayAt(t, steps, i);
      rc, more, did, w' := StepOnDisk(fs, steps[i], size, per, maxfile, ti, w');
      ghost var calm := fs.Faults() == old(fs.Faults());
      TakeMore(t, steps[..i], steps[i]);
      TakeWidth(ti, steps[i]);
      if done && did {
        NoLossThen(w.tab, was.tab, w'.tab);
      }
      done := done && did;
      if more == [] {
        CarriedStop(g, size, t, steps[..i], ops, trace, true, steps, rc, calm);
        return;
      }
      assert more == [more[0]];
      ops, trace := ops + more, trace + [Moment(fs.St(), w')];
      CarriedTrace(g, size, t, steps[..i], ops0, trace0, OK, true);
      TraceStep(g, ops0, trace0, more[0], trace[|ops|]);
      CarriedMore(g, size, t, steps[..i], ops0, trace0, true, steps, more[0], trace[|ops|], rc, calm);
      if CoveredRun(g, ops, trace) {
        CoveredMore(g, ops0, more[0], trace0, trace[|ops|]);
      }
      if rc != OK {
        return;
      }
      CarriedCalm(g, size, t, steps[..i + 1], ops, trace, calm);
    }
    assert steps[..|steps|] == steps;
    CarriedCalm(g, size, t, steps, ops, trace, true);
  }

  lemma CarriedTrace(g: Geometry, size: nat, t: Tree, steps: seq<Step>, ops: seq<Op>, trace: seq<Moment>, rc: Errno,
      calm: bool)
    requires g.nindir >= 1 && g.bsize >= 1 && Carried(g, size, t, steps, ops, trace, rc, calm)
    ensures Trace(g, ops, trace) && |trace| == |ops| + 1
  {
  }

  lemma CarriedCalm(g: Geometry, size: nat, t: Tree, steps: seq<Step>, ops: seq<Op>, trace: seq<Moment>, calm: bool)
    requires g.nindir >= 1 && g.bsize >= 1 && Carried(g, size, t, steps, ops, trace, OK, calm)
    ensures Carried(g, size, t, steps, ops, trace, OK, true) && Carried(g, size, t, steps, ops, trace, OK, false)
  {
    hide IsOp, Trace, TakeAll;
  }

  lemma TakeWidth(t: Tree, s: Step)
    ensures Take(t, s).width == t.width
  {
  }

  lemma {:induction false} TakeAllWidth(t: Tree, steps: seq<Step>)
    ensures TakeAll(t, steps).width == t.width
    decreases |steps|
  {
    hide Take;
    if steps != [] {
      TakeAllWidth(t, steps[..|steps| - 1]);
      TakeWidth(TakeAll(t, steps[..|steps| - 1]), steps[|steps| - 1]);
    }
  }

  lemma NoSteps(t: Tree)
    ensures TakeAll(t, []) == t
  {
  }

  lemma {:induction false} MayAt(t: Tree, steps: seq<Step>, i: nat)
    requires MayAll(t, steps) && i < |steps|
    ensures May(TakeAll(t, steps[..i]), steps[i])
    decreases |steps|
  {
    hide May, TakeAll;
    var n := |steps| - 1;
    if i < n {
      MayAt(t, steps[..n], i);
      assert steps[..n][..i] == steps[..i];
    }
  }

  lemma {:induction false} TakeSplit(t: Tree, a: seq<Step>, b: seq<Step>)
    ensures TakeAll(t, a + b) == TakeAll(TakeAll(t, a), b)
    ensures MayAll(t, a + b) <==> MayAll(t, a) && MayAll(TakeAll(t, a), b)
    decreases |b|
  {
    hide Take, May;
    if b == [] {
      assert a + b == a;
    } else {
      var n := |b| - 1;
      TakeSplit(t, a, b[..n]);
      assert (a + b)[..|a + b| - 1] == a + b[..n];
    }
  }

  // ---- calls ----

  datatype Call =
    | CreateFile(dir: nat, name: Name)
    | MakeDir(dir: nat, name: Name)
    | LinkTo(src: nat, dir: nat, name: Name)
    | Unlink(dir: nat, name: Name, defer: bool)
    | RemoveDir(dir: nat, name: Name)
    | Move(sdir: nat, sname: Name, tdir: nat, tname: Name, noreplace: bool, defer: bool)

  /** What the results about the namespace ask of a call: directories where directories belong,
      plain names, and no link to or unlink of a directory. */
  predicate Proper(t: Tree, call: Call) {
    match call
    case CreateFile(_, _) => true
    case MakeDir(_, _) => true
    case LinkTo(src, dir, name) => Live(t, src) && !IsDir(t, src) && IsDir(t, dir) && name.Plain? && !Has(t, dir, name)
    case Unlink(dir, name, _) => IsDir(t, dir) && name.Plain? && !IsDir(t, At(t, dir, name))
    case RemoveDir(dir, name) => IsDir(t, dir) && name.Plain?
    case Move(sdir, sname, tdir, tname, _, defer) =>
      IsDir(t, sdir) && IsDir(t, tdir) && sname.Plain? && tname.Plain? &&
          (defer && Has(t, tdir, tname) ==> !IsDir(t, At(t, tdir, tname)))
  }

  /** The call raises no link count past the largest. */
  predicate Room(t: Tree, call: Call) {
    match call
    case MakeDir(dir, name) => Has(t, dir, name) || Link(t, dir) < LinkMax(t.width)
    case LinkTo(src, _, _) => Link(t, src) < LinkMax(t.width)
    case Move(sdir, sname, tdir, tname, _, _) => Namespace.RenameRoom(t, sdir, sname, tdir, tname)
    case _ => true
  }

  /** What a proper call answers. */
  ghost function CallAnswer(t: Tree, root: nat, call: Call): Namespace.Errno {
    match call
    case CreateFile(dir, name) => Namespace.CreateAnswer(t, dir, name)
    case MakeDir(dir, name) => Namespace.CreateAnswer(t, dir, name)
    case LinkTo(_, _, _) => Namespace.OK
    case Unlink(dir, name, _) => if Has(t, dir, name) then Namespace.OK else Namespace.ENOENT
    case RemoveDir(dir, name) => Namespace.RmdirAnswer(t, dir, name)
    case Move(sdir, sname, tdir, tname, noreplace, _) =>
      Namespace.RenameAnswer(t, root, sdir, sname, tdir, tname, noreplace)
  }

  /** The writes of a call that succeeds, in their order.  A new inode is the one that its name
      names afterwards, in t'. */
  ghost function CallSteps(t: Tree, root: nat, call: Call, t': Tree): seq<Step> {
    match call
    case CreateFile(dir, name) => Namespace.CreateSteps(t, dir, name, At(t', dir, name))
    case MakeDir(dir, name) => Namespace.MkdirSteps(t, dir, name, At(t', dir, name))
    case LinkTo(src, dir, name) => Namespace.LinkSteps(t, src, dir, name)
    case Unlink(dir, name, defer) => Namespace.UnlinkSteps(t, dir, name, defer)
    case RemoveDir(dir, name) => Namespace.RmdirSteps(t, dir, name)
    case Move(sdir, sname, tdir, tname, noreplace, defer) =>
      Namespace.RenameWrites(t, root, sdir, sname, tdir, tname, noreplace, defer)
  }

  /** What a call that succeeds does to the names. */
  ghost predicate Effected(t: Tree, call: Call, t': Tree) {
    match call
    case CreateFile(dir, name) =>
      var i := At(t', dir, name);
      && Has(t', dir, name) && !Live(t, i) && Live(t', i) && !IsDir(t', i)
      && Namespace.Besides(t, t', dir, name) && Namespace.Except(t, t', i)
    case MakeDir(dir, name) => var i := At(t', dir, name); !Live(t, i) && Namespace.Made(t, t', dir, name, i)
    case LinkTo(src, dir, name) =>
      Has(t', dir, name) && At(t', dir, name) == src && t'.kind == t.kind && Namespace.Besides(t, t', dir, name)
    case Unlink(dir, name, defer) =>
      var i := At(t, dir, name);
      && !Has(t', dir, name) && (Live(t', i) <==> Namespace.LivesOn(t, i, defer))
      && Namespace.Besides(t, t', dir, name) && Namespace.Except(t, t', i)
    case RemoveDir(dir, name) =>
      var i := At(t, dir, name);
      && !Has(t', dir, name) && t'.kind == (if i < |t.kind| then t.kind[i := Free] else t.kind)
      && forall d: nat, n: Name {:trigger Has(t', d, n)} :: d != i && (d, n) != (dir, name) ==>
           (Has(t', d, n) <==> Has(t, d, n)) && (Has(t', d, n) ==> At(t', d, n) == At(t, d, n))
    case Move(sdir, sname, tdir, tname, noreplace, defer) =>
      Namespace.RenameDone(t, t', sdir, sname, tdir, tname, defer, Namespace.OK)
  }

  /** What a proper call answers, what it writes, and what it does to the names. */
  ghost predicate Answered(t: Tree, root: nat, call: Call, rc: Namespace.Errno, t': Tree, steps: seq<Step>) {
    && |t'.kind| == |t.kind| && rc == CallAnswer(t, root, call)
    && steps == (if rc == Namespace.OK then CallSteps(t, root, call, t') else []) && t' == TakeAll(t, steps)
    && (rc == Namespace.OK ==> Effected(t, call, t'))
  }

  /** One call on the tree of names alone. */
  method Ask(vol: Namespace.Volume, call: Call) returns (rc: Namespace.Errno)
    requires vol.Ok() && |vol.t.kind| <= 0x1_0000 && Proper(vol.t, call) && Room(vol.t, call)
    modifies vol
    ensures vol.Ok() && |vol.t.kind| == |old(vol.t).kind| && rc == CallAnswer(old(vol.t), vol.root, call)
    ensures vol.steps == old(vol.steps) +
                         if rc == Namespace.OK then CallSteps(old(vol.t), vol.root, call, vol.t) else []
    ensures rc == Namespace.OK ==> Effected(old(vol.t), call, vol.t)
  {
    hide Good, TakeAll, MayAll, Namespace.RenameAnswer, Namespace.RenameDone, NameSteps.Empty, Namespace.RenameRoom,
         Namespace.Linked, Namespace.Unlinked, Namespace.CreateAnswer, Namespace.RmdirAnswer, Namespace.CreateSteps,
         Namespace.MkdirSteps, Namespace.LinkSteps, Namespace.UnlinkSteps, Namespace.RmdirSteps, Namespace.RenameWrites;
    match call {
      case CreateFile(dir, name) =>
        var ino;
        rc, ino := vol.Create(dir, name);
      case MakeDir(dir, name) =>
        var ino;
        MkdirRoom(vol.t, dir, name);
        rc, ino := vol.Mkdir(dir, name);
      case LinkTo(src, dir, name) => rc := vol.LinkIn(src, dir, name);
      case Unlink(dir, name, defer) =>
        Namespace.GoodLive(vol.t, vol.root);
        if Has(vol.t, dir, name) {
          Namespace.NamedLive(vol.t, vol.root, dir, name);
        }
        rc := vol.UnlinkIn(dir, name, defer);
      case RemoveDir(dir, name) =>
        if Has(vol.t, dir, name) {
          Namespace.NamedLive(vol.t, vol.root, dir, name);
        }
        rc := vol.Rmdir(dir, name);
      case Move(sdir, sname, tdir, tname, noreplace, defer) =>
        rc := vol.Rename(sdir, sname, tdir, tname, noreplace, defer);
        RefusedWrites(old(vol.t), vol.root, sdir, sname, tdir, tname, noreplace, defer);
    }
  }

  /** A rename that is refused writes nothing. */
  lemma RefusedWrites(t: Tree, root: nat, sdir: nat, sname: Name, tdir: nat, tname: Name, noreplace: bool, defer: bool)
    ensures Namespace.RenameAnswer(t, root, sdir, sname, tdir, tname, noreplace) != Namespace.OK ==>
            Namespace.RenameWrites(t, root, sdir, sname, tdir, tname, noreplace, defer) == []
  {
    hide Namespace.MayRename, Namespace.RenameAnswer;
    Namespace.MayIsOk(t, root, sdir, sname, tdir, tname, noreplace);
  }

  lemma MkdirRoom(t: Tree, dir: nat, name: Name)
    ensures Namespace.CreateAnswer(t, dir, name) == Namespace.OK ==> !Has(t, dir, name)
  {
  }

  /** The entries of a directory are all in use. */
  ghost predicate AllUsed(size: nat, c: seq<nat>) {
    size >= 1 && Whole(size, c, |c| / size) && forall k: nat :: k < |c| / size ==> Used(size, c, |c| / size, k)
  }

  /** A directory with a free entry keeps its length when a name is entered; another grows by one
      entry. */
  ghost predicate GrewFor(size: nat, v: seq<File>, v': seq<File>, d: nat) {
    && d < |v| == |v'| && v[d].Bytes? && v'[d].Bytes?
    && |v'[d].bytes| == |v[d].bytes| + if AllUsed(size, v[d].bytes) then size else 0
  }

  /** Entering a name. */
  lemma EnterGrows(g: Geometry, size: nat, t: Tree, disk: Img.Image, s: Step, op: Op)
    requires g.nindir >= 1 && g.bsize >= 1 && s.Enter? && IsOp(g, size, t, disk, s, op)
    ensures GrewFor(size, View(g, disk), Apply(g.link, View(g, disk), op), s.d) && op.Patch? && op.ino == s.d
  {
    hide Shows, View, Used, Enc;
    var v := View(g, disk);
    var k: nat :| RightSlot(size, t, v, s, k) && op == OpOf(size, s, k);
    DirWhole(size, t, v, s.d);
    var c := v[s.d].bytes;
    var slots := |c| / size;
    SlotOrder(size, k, slots);
    assert AllUsed(size, c) <==> k == slots;
  }

  /** A create or a link enters one name into its directory, and changes nothing else there. */
  lemma CallGrows(g: Geometry, size: nat, t: Tree, root: nat, call: Call, t': Tree, steps: seq<Step>, ops: seq<Op>,
      trace: seq<Moment>, calm: bool)
    requires g.nindir >= 1 && g.bsize >= 1 && (call.CreateFile? || call.LinkTo?) && Proper(t, call)
    requires Answered(t, root, call, Namespace.OK, t', steps) && Carried(g, size, t, steps, ops, trace, OK, calm)
    ensures GrewFor(size, View(g, trace[0].st.disk), View(g, trace[|ops|].st.disk), call.dir)
  {
    hide IsOp, View, Used, Namespace.Besides, Namespace.Except, TakeAll, Trace, Blocked;
    var d, e := call.dir, if call.CreateFile? then 1 else 0;
    assert |steps| == 2 && steps[e].Enter? && steps[e].d == d;
    assert IsOp(g, size, TakeAll(t, steps[..e]), trace[e].st.disk, steps[e], ops[e]);
    EnterGrows(g, size, TakeAll(t, steps[..e]), trace[e].st.disk, steps[e], ops[e]);
    var o := 1 - e;
    assert IsOp(g, size, TakeAll(t, steps[..o]), trace[o].st.disk, steps[o], ops[o]);
    OtherOp(g, size, TakeAll(t, steps[..o]), trace[o].st.disk, steps[o], ops[o], d);
  }

  /** A new inode or a count leaves the bytes of a directory alone. */
  lemma OtherOp(g: Geometry, size: nat, t: Tree, disk: Img.Image, s: Step, op: Op, d: nat)
    requires g.nindir >= 1 && g.bsize >= 1 && IsOp(g, size, t, disk, s, op) && d < |disk.inodes|
    requires (s.Make? && s.i != d) || s.Count?
    ensures var v, v' := View(g, disk), Apply(g.link, View(g, disk), op);
            |v'| == |v| && (v'[d].Bytes? <==> v[d].Bytes?) && (v[d].Bytes? ==> v'[d].bytes == v[d].bytes)
  {
    hide Shows, View, RightSlot;
  }

  /** One call, with its writes made on the volume.  A create or a link into a directory with a
      free entry leaves its length as it is. */
  method Perform(vol: Namespace.Volume, fs: Edition, call: Call, size: nat, per: nat, maxfile: nat, ghost w: World)
    returns (rc: Errno, answer: Namespace.Errno, ops: seq<Op>, ghost steps: seq<Step>, ghost trace: seq<Moment>,
        ghost done: bool, ghost w': World)
    requires vol.Ok() && |vol.t.kind| <= 0x1_0000 && Proper(vol.t, call) && Room(vol.t, call)
    requires fs.Ok(w) && Narrow(fs.g) && Clean(fs.g, fs.disk, w.tab) && SizesOk(fs.disk) && maxfile < U32 && per >= 1
    requires fs.g.nindir >= 1 && fs.g.bsize >= 1 && fs.g.Valid() && vol.t.width == fs.g.link
    requires TailsZero(fs.g, fs.disk) && Shows(size, vol.t, View(fs.g, fs.disk))
    modifies vol, fs, fs.free
    ensures vol.Ok() && Answered(old(vol.t), vol.root, call, answer, vol.t, steps) && vol.t.width == old(vol.t).width
    ensures fs.Ok(w') && Clean(fs.g, fs.disk, w'.tab) && SizesOk(fs.disk) && old(fs.Faults()) <= fs.Faults()
    ensures |trace| == |ops| + 1
    ensures Carried(fs.g, size, old(vol.t), steps, ops, trace, rc, fs.Faults() == old(fs.Faults()))
    ensures trace[0] == Moment(old(fs.St()), w) && trace[|ops|] == Moment(fs.St(), w')
    ensures !w'.breach <==> AllNeverD(fs.g, fs.log)
    ensures CoveredRun(fs.g, ops, trace) ==> w'.breach == w.breach
    ensures rc == OK ==> TailsZero(fs.g, fs.disk) && Shows(size, vol.t, View(fs.g, fs.disk))
    ensures rc == OK && answer == Namespace.OK && (call.CreateFile? || call.LinkTo?) ==>
              GrewFor(size, View(fs.g, old(fs.disk)), View(fs.g, fs.disk), call.dir)
    ensures done ==> rc == OK && NoLoss(w.tab, w'.tab)
    ensures fs.Faults() == old(fs.Faults()) ==> (done <==> rc == OK)
  {
    hide Sound, Guarded, Narrow, Clean, SizesOk, TailsZero, Shows, View, NoLoss, CoveredRun, Carried, TakeAll, MayAll,
         AllNeverD, Good, Proper, Room, CallAnswer, CallSteps, Effected, GrewFor;
    ghost var t0, steps0 := vol.t, vol.steps;
    var n := |vol.steps|;
    answer := Ask(vol, call);
    var more := vol.steps[n..];
    steps := more;
    assert vol.steps == steps0 + more;
    TakeSplit(vol.start, steps0, more);
    TakeAllWidth(t0, more);
    rc, ops, trace, done, w' := StepsOnDisk(fs, more, size, per, maxfile, t0, w);
    if rc == OK && answer == Namespace.OK && (call.CreateFile? || call.LinkTo?) {
      CallGrows(fs.g, size, t0, vol.root, call, vol.t, steps, ops, trace, fs.Faults() == old(fs.Faults()));
    }
  }

  lemma TraceJoin(g: Geometry, a: seq<Op>, s: seq<Moment>, b: seq<Op>, t: seq<Moment>)
    requires Trace(g, a, s) && Trace(g, b, t) && s[|a|] == t[0]
    ensures Trace(g, a + b, s + t[1..])
  {
    hide StepOk, Applies;
    var u := s + t[1..];
    assert forall k {:trigger t[k]} :: 0 <= k <= |b| ==> u[|a| + k] == t[k];
    forall k {:trigger (a + b)[k]} | 0 <= k < |a + b|
      ensures if Applies(u[k].st.disk, (a + b)[k])
              then StepOk(g, u[k].st, u[k].w, u[k + 1].st, u[k + 1].w, (a + b)[k].ino) else u[k + 1] == u[k]
    {
      if k < |a| {
        assert (a + b)[k] == a[k] && u[k] == s[k] && u[k + 1] == s[k + 1];
      } else {
        assert (a + b)[k] == b[k - |a|] && u[k] == t[k - |a|] && u[k + 1] == t[k - |a| + 1];
      }
    }
  }

  lemma CoveredJoin(g: Geometry, a: seq<Op>, s: seq<Moment>, b: seq<Op>, t: seq<Moment>)
    requires g.Valid() && |s| == |a| + 1 && |t| == |b| + 1 && s[|a|] == t[0] && CoveredRun(g, a + b, s + t[1..])
    ensures CoveredRun(g, a, s) && CoveredRun(g, b, t)
  {
    hide CoveredOp, Applies;
    var u := s + t[1..];
    forall k {:trigger a[k]} | 0 <= k < |a| && Applies(s[k].st.disk, a[k])
      ensures CoveredOp(g, s[k].st.disk, s[k].w.tab, a[k])
    {
      assert (a + b)[k] == a[k] && u[k] == s[k];
    }
    forall k {:trigger b[k]} | 0 <= k < |b| && Applies(t[k].st.disk, b[k])
      ensures CoveredOp(g, t[k].st.disk, t[k].w.tab, b[k])
    {
      assert (a + b)[|a| + k] == b[k] && u[|a| + k] == t[k];
    }
  }

  lemma CarriedJoin(g: Geometry, size: nat, t: Tree, a: seq<Step>, ops: seq<Op>, trace: seq<Moment>, b: seq<Step>,
      more: seq<Op>, u: seq<Moment>, rc: Errno, calm: bool, calm': bool)
    requires g.nindir >= 1 && g.bsize >= 1 && Carried(g, size, t, a, ops, trace, OK, true) && (calm' ==> calm)
    requires Carried(g, size, TakeAll(t, a), b, more, u, rc, calm) && trace[|ops|] == u[0]
    ensures Carried(g, size, t, a + b, ops + more, trace + u[1..], rc, calm')
    ensures rc == OK ==> Carried(g, size, t, a + b, ops + more, trace + u[1..], OK, true)
    ensures TakeAll(t, a + b) == TakeAll(TakeAll(t, a), b) && (trace + u[1..])[|ops + more|] == u[|more|]
  {
    hide IsOp, Trace, TakeAll, Short, NoFit, View, Apply;
    var ops', trace', steps := ops + more, trace + u[1..], a + b;
    TraceJoin(g, ops, trace, more, u);
    TakeSplit(t, a, b);
    assert forall k {:trigger u[k]} :: 0 <= k <= |more| ==> trace'[|ops| + k] == u[k];
    forall i {:trigger ops'[i]} | 0 <= i < |ops'|
      ensures IsOp(g, size, TakeAll(t, steps[..i]), trace'[i].st.disk, steps[i], ops'[i])
    {
      if i < |ops| {
        assert ops'[i] == ops[i] && a[..i] == steps[..i] && a[i] == steps[i] && trace'[i] == trace[i];
      } else {
        var k := i - |ops|;
        assert ops'[i] == more[k] && steps[..i] == a + b[..k] && steps[i] == b[k] && trace'[i] == u[k];
        TakeSplit(t, a, b[..k]);
      }
    }
    forall i {:trigger ops'[i]} | 0 <= i < |ops'| && (rc == OK || i < |ops'| - 1)
      ensures View(g, trace'[i + 1].st.disk) == Apply(g.link, View(g, trace'[i].st.disk), ops'[i])
    {
      if i < |ops| {
        assert ops'[i] == ops[i] && trace'[i] == trace[i] && trace'[i + 1] == trace[i + 1];
      } else {
        var k := i - |ops|;
        assert ops'[i] == more[k] && trace'[i] == u[k] && trace'[i + 1] == u[k + 1];
      }
    }
  }

  /** What a call of a run did to the names; what is not proper is refused. */
  ghost predicate Asked(t: Tree, root: nat, call: Call, answer: Namespace.Errno, t': Tree, steps: seq<Step>) {
    if Proper(t, call) then Answered(t, root, call, answer, t', steps)
    else answer == Namespace.EINVAL && t' == t && steps == []
  }

  /** All the writes of a run, call after call. */
  ghost function Flat(writes: seq<seq<Step>>): seq<Step> {
    if writes == [] then [] else Flat(writes[..|writes| - 1]) + writes[|writes| - 1]
  }

  lemma FlatMore(writes: seq<seq<Step>>, b: seq<Step>)
    ensures Flat(writes + [b]) == Flat(writes) + b
  {
    assert (writes + [b])[..|writes + [b]| - 1] == writes;
  }

  /** What is said of a run of calls: each was answered on the names as the ones before left
      them, `trees` being those before each call and after the last, and `writes` what it wrote;
      and the operations on the volume, from moment m0 to moment m, are those of the writes. */
  ghost predicate Performed(g: Geometry, size: nat, root: nat, calls: seq<Call>, answers: seq<Namespace.Errno>,
      trees: seq<Tree>, writes: seq<seq<Step>>, ops: seq<Op>, trace: seq<Moment>, m0: Moment, m: Moment, rc: Errno,
      calm: bool)
    requires g.nindir >= 1 && g.bsize >= 1 && g.Valid()
  {
    && |answers| == |writes| <= |calls| && |trees| == |answers| + 1
    && (forall k {:trigger calls[k]} :: 0 <= k < |answers| ==>
          Asked(trees[k], root, calls[k], answers[k], trees[k + 1], writes[k]))
    && trees[|answers|] == TakeAll(trees[0], Flat(writes))
    && Carried(g, size, trees[0], Flat(writes), ops, trace, rc, calm) && trace[0] == m0 && trace[|ops|] == m
    && (CoveredRun(g, ops, trace) ==> m.w.breach == m0.w.breach)
  }

  lemma PerformedNone(g: Geometry, size: nat, root: nat, calls: seq<Call>, t: Tree, m: Moment)
    requires g.nindir >= 1 && g.bsize >= 1 && g.Valid()
    ensures Performed(g, size, root, calls, [], [t], [], [], [m], m, m, OK, true)
  {
    hide Carried, CoveredRun;
    CarriedNone(g, size, t, m, true);
  }

  lemma PerformedCalm(g: Geometry, size: nat, root: nat, calls: seq<Call>, answers: seq<Namespace.Errno>,
      trees: seq<Tree>, writes: seq<seq<Step>>, ops: seq<Op>, trace: seq<Moment>, m0: Moment, m: Moment, calm: bool,
      calm': bool)
    requires g.nindir >= 1 && g.bsize >= 1 && g.Valid()
    requires Performed(g, size, root, calls, answers, trees, writes, ops, trace, m0, m, OK, calm)
    ensures Performed(g, size, root, calls, answers, trees, writes, ops, trace, m0, m, OK, calm')
  {
    hide Carried, CoveredRun, Asked, TakeAll, Flat;
    CarriedCalm(g, size, trees[0], Flat(writes), ops, trace, calm);
  }

  /** One call that is refused. */
  lemma PerformedRefusal(g: Geometry, size: nat, root: nat, calls: seq<Call>, answers: seq<Namespace.Errno>,
      trees: seq<Tree>, writes: seq<seq<Step>>, ops: seq<Op>, trace: seq<Moment>, m0: Moment, m: Moment)
    requires g.nindir >= 1 && g.bsize >= 1 && g.Valid() && |answers| < |calls|
    requires Performed(g, size, root, calls, answers, trees, writes, ops, trace, m0, m, OK, true)
    requires !Proper(trees[|answers|], calls[|answers|])
    ensures Performed(g, size, root, calls, answers + [Namespace.EINVAL], trees + [trees[|answers|]], writes + [[]],
            ops,
                trace, m0, m, OK, true)
  {
    hide Carried, CoveredRun, TakeAll, Proper, Answered, Flat;
    FlatMore(writes, []);
    assert Flat(writes) + [] == Flat(writes);
  }

  /** One call with its writes. */
  lemma PerformedMore(g: Geometry, size: nat, root: nat, calls: seq<Call>, answers: seq<Namespace.Errno>,
      trees: seq<Tree>, writes: seq<seq<Step>>, ops: seq<Op>, trace: seq<Moment>, m0: Moment, m: Moment,
      answer: Namespace.Errno, t: Tree, b: seq<Step>, more: seq<Op>, u: seq<Moment>, m': Moment, rc: Errno, calm: bool,
      calm': bool)
    requires g.nindir >= 1 && g.bsize >= 1 && g.Valid() && |answers| < |calls| && (calm' ==> calm)
    requires Performed(g, size, root, calls, answers, trees, writes, ops, trace, m0, m, OK, true)
    requires Proper(trees[|answers|], calls[|answers|])
    requires Answered(trees[|answers|], root, calls[|answers|], answer, t, b)
    requires Carried(g, size, trees[|answers|], b, more, u, rc, calm) && u[0] == m && u[|more|] == m'
    requires CoveredRun(g, more, u) ==> m'.w.breach == m.w.breach
    ensures Performed(g, size, root, calls, answers + [answer], trees + [t], writes + [b], ops + more, trace + u[1..],
                m0, m', rc, calm')
    ensures |t.kind| == |trees[|answers|].kind|
  {
    hide CoveredRun, TakeAll, Proper, CallAnswer, CallSteps, Effected, Carried, Flat;
    FlatMore(writes, b);
    CarriedTrace(g, size, trees[0], Flat(writes), ops, trace, OK, true);
    CarriedTrace(g, size, trees[|answers|], b, more, u, rc, calm);
    CarriedJoin(g, size, trees[0], Flat(writes), ops, trace, b, more, u, rc, calm, calm');
    if CoveredRun(g, ops + more, trace + u[1..]) {
      CoveredJoin(g, ops, trace, more, u);
    }
  }

  /** Any sequence of calls; it ends with one whose writes fail, or before one that would raise a
      link count past the largest.  All the writes together are a run of operations on the
      volume: every image written is free of aliasing if and only if no pointer was stored past
      the flush barrier, every block is accounted for, and as long as all went well the volume
      shows the names, whose link counts and tree are right.  If nothing failed, the writes stop
      only at a name that does not fit or for want of room. */
  method PerformAll(vol: Namespace.Volume, fs: Edition, calls: seq<Call>, size: nat, per: nat, maxfile: nat,
      ghost w: World)
    returns (rc: Errno, answers: seq<Namespace.Errno>, ops: seq<Op>, ghost trees: seq<Tree>,
        ghost writes: seq<seq<Step>>, ghost trace: seq<Moment>, ghost done: bool, ghost w': World)
    requires vol.Ok() && |vol.t.kind| <= 0x1_0000
    requires fs.Ok(w) && Narrow(fs.g) && Clean(fs.g, fs.disk, w.tab) && SizesOk(fs.disk) && maxfile < U32 && per >= 1
    requires fs.g.nindir >= 1 && fs.g.bsize >= 1 && fs.g.Valid() && vol.t.width == fs.g.link
    requires TailsZero(fs.g, fs.disk) && Shows(size, vol.t, View(fs.g, fs.disk))
    modifies vol, fs, fs.free
    ensures vol.Ok() && fs.Ok(w') && Clean(fs.g, fs.disk, w'.tab) && old(fs.Faults()) <= fs.Faults()
    ensures Reliable(fs.fails) ==> fs.Faults() == old(fs.Faults())
    ensures Performed(fs.g, size, vol.root, calls, answers, trees, writes, ops, trace, Moment(old(fs.St()), w),
                Moment(fs.St(), w'), rc, fs.Faults() == old(fs.Faults()))
    ensures |trees| == |answers| + 1 && trees[0] == old(vol.t) && trees[|answers|] == vol.t
    ensures rc == OK && |answers| < |calls| ==> Proper(vol.t, calls[|answers|]) && !Room(vol.t, calls[|answers|])
    ensures !w'.breach <==> AllNeverD(fs.g, fs.log)
    ensures rc == OK ==> TailsZero(fs.g, fs.disk) && Shows(size, vol.t, View(fs.g, fs.disk))
    ensures done ==> rc == OK && NoLoss(w.tab, w'.tab)
    ensures fs.Faults() == old(fs.Faults()) ==> (done <==> rc == OK)
  {
    hide Sound, Guarded, Narrow, Clean, SizesOk, TailsZero, Shows, View, NoLoss, CoveredRun, Carried, TakeAll, MayAll,
         AllNeverD, Good, Proper, Room, Answered, Performed, GrewFor;
    ghost var g, m0, m := fs.g, Moment(fs.St(), w), Moment(fs.St(), w);
    rc, answers, ops, done, w' := OK, [], [], true, w;
    trace, trees, writes := [m0], [vol.t], [];
    PerformedNone(g, size, vol.root, calls, vol.t, m0);
    NoLossSelf(w.tab);
    fs.Unfailing();
    while |answers| < |calls|
      invariant vol.Ok() && |vol.t.kind| <= 0x1_0000 && vol.t.width == g.link
      invariant |answers| <= |calls| && |trees| == |answers| + 1 && trees[0] == old(vol.t) && trees[|answers|] == vol.t
      invariant fs.Ok(w') && Clean(g, fs.disk, w'.tab) && SizesOk(fs.disk) && old(fs.Faults()) <= fs.Faults()
      invariant Performed(g, size, vol.root, calls, answers, trees, writes, ops, trace, m0, m, OK, true)
      invariant m == Moment(fs.St(), w') && rc == OK && TailsZero(g, fs.disk) && Shows(size, vol.t, View(g, fs.disk))
      invariant (done ==> NoLoss(w.tab, w'.tab)) && (fs.Faults() == old(fs.Faults()) ==> done)
      decreases |calls| - |answers|
    {
      var call := calls[|answers|];
      if !Proper(vol.t, call) {
        PerformedRefusal(g, size, vol.root, calls, answers, trees, writes, ops, trace, m0, m);
        answers, trees, writes := answers + [Namespace.EINVAL], trees + [vol.t], writes + [[]];
        continue;
      }
      if !Room(vol.t, call) {
        break;
      }
      ghost var was, f1, u, did, b := w', fs.Faults(), trace, done, [];
      var answer, more;
      rc, answer, more, b, u, did, w' := Perform(vol, fs, call, size, per, maxfile, w');
      ghost var calm, m' := fs.Faults() == old(fs.Faults()), Moment(fs.St(), w');
      PerformedMore(g, size, vol.root, calls, answers, trees, writes, ops, trace, m0, m, answer, vol.t, b, more, u, m',
          rc, fs.Faults() == f1, calm);
      if done && did {
        NoLossThen(w.tab, was.tab, w'.tab);
      }
      answers, trees, ops := answers + [answer], trees + [vol.t], ops + more;
      trace, writes, m, done := trace + u[1..], writes + [b], m', done && did;
      if rc != OK {
        fs.Unfailing();
        return;
      }
      PerformedCalm(g, size, vol.root, calls, answers, trees, writes, ops, trace, m0, m, calm, true);
    }
    PerformedCalm(g, size, vol.root, calls, answers, trees, writes, ops, trace, m0, m, true,
        fs.Faults() == old(fs.Faults()));
    fs.Unfailing();
  }
}
