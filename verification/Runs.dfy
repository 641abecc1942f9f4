/** Whole runs: any sequence of operations, with any block I/O failing, against a volume of
    plain byte sequences. */
module Runs {
  import opened LinkWidth
  import opened Device
  import opened Geometry
  import opened FreeChain
  import opened Image
  import opened Ownership
  import opened Consistency
  import opened Accounting
  import opened FileBytes
  import opened FileOps
  import opened Engine
  import opened Walks
  import opened Check
  import opened Mount

  // ---- the reference: a volume of byte sequences ----

  /** What an inode is: nothing, a device with its number, or bytes; and the links it counts. */
  datatype File = Absent | Special(links: int, rdev: nat) | Bytes(links: int, bytes: seq<nat>)

  datatype Op =
    | Write(ino: nat, off: int, data: seq<nat>)
    | Truncate(ino: nat, size: int)
    | Destroy(ino: nat)
    | Create(ino: nat, kind: Kind, nlink: int, rdev: nat)
    | Patch(ino: nat, off: int, data: seq<nat>, nlink: int)   // a write into a directory
    | Relink(ino: nat, nlink: int)                            // a link count alone

  /** Overwrite at off, extending with zeros as needed. */
  function Overlay(s: seq<nat>, off: nat, data: seq<nat>): seq<nat> {
    var n := if off + |data| > |s| then off + |data| else |s|;
    seq(n, p requires 0 <= p < n => if off <= p < off + |data| then data[p - off] else if p < |s| then s[p] else 0)
  }

  function Resize(s: seq<nat>, n: nat): seq<nat> {
    if n <= |s| then s[..n] else s + Zeros(n - |s|)
  }

  function Apply(l: Width, v: seq<File>, op: Op): seq<File> {
    if op.ino == 0 || op.ino >= |v| then v
    else match op
      case Write(ino, off, data) =>
        if v[ino].Bytes? && off >= 0 then v[ino := v[ino].(bytes := Overlay(v[ino].bytes, off, data))] else v
      case Truncate(ino, size) =>
        if v[ino].Bytes? && size >= 0 then v[ino := v[ino].(bytes := Resize(v[ino].bytes, size))] else v
      case Destroy(ino) => v[ino := Absent]
      case Create(ino, kind, nlink, rdev) =>
        v[ino := match kind
                 case Unalloc => Absent
                 case Device => Special(LinkOf(l, nlink), rdev)
                 case Data => Bytes(LinkOf(l, nlink), [])]
      case Patch(ino, off, data, nlink) =>
        if v[ino].Bytes? && off >= 0 then v[ino := Bytes(LinkOf(l, nlink), Overlay(v[ino].bytes, off, data))] else v
      case Relink(ino, nlink) =>
        if v[ino].Absent? then v else v[ino := v[ino].(links := LinkOf(l, nlink))]
  }

  function ApplyAll(l: Width, v: seq<File>, ops: seq<Op>): seq<File>
    decreases |ops|
  {
    if ops == [] then v else Apply(l, ApplyAll(l, v, ops[..|ops| - 1]), ops[|ops| - 1])
  }

  /** Shrinking and growing again shows zeros, never the old bytes. */
  lemma ShrinkGrow(l: Width, v: seq<File>, ino: nat, n: nat, m: nat)
    requires 1 <= ino < |v| && v[ino].Bytes? && n <= |v[ino].bytes| && n <= m
    ensures ApplyAll(l, v, [Truncate(ino, n), Truncate(ino, m)]) ==
            v[ino := v[ino].(bytes := v[ino].bytes[..n] + Zeros(m - n))]
  {
    var a, b := Truncate(ino, n), Truncate(ino, m);
    assert [a, b][..1] == [a] && [a][..0] == [];
    assert ApplyAll(l, v, [a]) == Apply(l, ApplyAll(l, v, []), a);
    assert ApplyAll(l, v, [a, b]) == Apply(l, ApplyAll(l, v, [a]), b);
    assert Resize(Resize(v[ino].bytes, n), m) == v[ino].bytes[..n] + Zeros(m - n);
  }

  /** A device keeps its number until its inode is destroyed or made anew. */
  lemma {:induction false} DeviceKept(l: Width, v: seq<File>, ops: seq<Op>, ino: nat)
    requires ino < |v| && v[ino].Special?
    requires forall k {:trigger ops[k]} :: 0 <= k < |ops| && ops[k].ino == ino ==> !ops[k].Destroy? && !ops[k].Create?
    ensures var v' := ApplyAll(l, v, ops);
            |v'| == |v| && v'[ino].Special? && v'[ino].rdev == v[ino].rdev
    decreases |ops|
  {
    hide LinkOf, Overlay, Resize;
    if ops != [] {
      var n := |ops| - 1;
      var some := ops[..n];
      assert forall k {:trigger some[k]} :: 0 <= k < n ==> some[k] == ops[k];
      DeviceKept(l, v, some, ino);
      ApplyOthers(l, ApplyAll(l, v, some), ops[n]);
    }
  }

  // ---- the volume on disk, seen that way ----

  ghost function FileOf(g: Geometry, blocks: seq<Block>, ip: Inode): File
    requires g.nindir >= 1 && g.bsize >= 1
  {
    match ip.kind
    case Unalloc => Absent
    case Device => Special(ip.nlink, if ip.addr == [] then 0 else ip.addr[0])
    case Data => Bytes(ip.nlink, Contents(g, blocks, ip))
  }

  ghost function View(g: Geometry, disk: Image): (v: seq<File>)
    requires g.nindir >= 1 && g.bsize >= 1
    ensures |v| == |disk.inodes|
  {
    seq(|disk.inodes|, j requires 0 <= j < |disk.inodes| => if j == 0 then Absent
        else FileOf(g, disk.blocks, disk.inodes[j]))
  }

  /** No file hides anything past its end. */
  ghost predicate TailsZero(g: Geometry, disk: Image)
    requires g.nindir >= 1 && g.bsize >= 1
  {
    forall j {:trigger disk.inodes[j]} :: 1 <= j < |disk.inodes| && disk.inodes[j].kind.Data? ==>
        TailZero(g, disk.blocks, disk.inodes[j])
  }

  ghost predicate SizesOk(disk: Image) {
    forall j {:trigger disk.inodes[j]} :: 1 <= j < |disk.inodes| ==> disk.inodes[j].size < U32
  }

  /** The operation did to the volume what it does to the byte sequences. */
  ghost predicate Refines(g: Geometry, disk: Image, disk': Image, op: Op)
    requires g.nindir >= 1 && g.bsize >= 1
  {
    TailsZero(g, disk) ==> TailsZero(g, disk') && View(g, disk') == Apply(g.link, View(g, disk), op)
  }

  /** Files other than the one worked on are as before: whatever happened. */
  lemma OthersView(g: Geometry, st: State, w: World, st': State, w': World, ino: nat, j: nat)
    requires Sound(g, st, w) && Narrow(g) && OthersKept(st, w, st', w', ino) && j != ino && 1 <= j < |st.disk.inodes|
    ensures |st'.disk.inodes| == |st.disk.inodes| && st'.disk.inodes[j] == st.disk.inodes[j]
    ensures View(g, st'.disk)[j] == View(g, st.disk)[j]
    ensures st.disk.inodes[j].kind.Data? && TailZero(g, st.disk.blocks, st.disk.inodes[j]) ==>
            TailZero(g, st'.disk.blocks, st'.disk.inodes[j])
  {
    hide Sound, Narrow, TailZero, Contents;
    Facts(g, st, w);
    if st.disk.inodes[j].kind.Data? {
      OtherContents(g, st, w, st', w', ino, j);
    }
  }

  /** It suffices to look at the inode the operation worked on. */
  lemma RefinesAt(g: Geometry, st: State, w: World, st': State, w': World, op: Op)
    requires Sound(g, st, w) && Narrow(g) && OthersKept(st, w, st', w', op.ino) && 1 <= op.ino < |st.disk.inodes|
    requires |st'.disk.inodes| == |st.disk.inodes| && g.nindir >= 1 && g.bsize >= 1
    requires var ip, ip' := st.disk.inodes[op.ino], st'.disk.inodes[op.ino];
             (ip.kind.Data? ==> TailZero(g, st.disk.blocks, ip)) ==>
               && (ip'.kind.Data? ==> TailZero(g, st'.disk.blocks, ip'))
               && FileOf(g, st'.disk.blocks, ip') == Apply(g.link, View(g, st.disk), op)[op.ino]
    ensures Refines(g, st.disk, st'.disk, op)
  {
    hide Sound, Narrow, TailZero, Contents, OthersKept, Apply;
    if TailsZero(g, st.disk) {
      var v, v' := View(g, st.disk), View(g, st'.disk);
      forall j | 1 <= j < |st.disk.inodes| && j != op.ino
        ensures v'[j] == v[j]
        ensures st'.disk.inodes[j].kind.Data? ==> TailZero(g, st'.disk.blocks, st'.disk.inodes[j])
      {
        OthersView(g, st, w, st', w', op.ino, j);
      }
      ApplyOthers(g.link, v, op);
      assert v' == Apply(g.link, v, op);
    }
  }

  lemma ApplyOthers(l: Width, v: seq<File>, op: Op)
    ensures forall j {:trigger Apply(l, v, op)[j]} :: 0 <= j < |v| && j != op.ino ==> Apply(l, v, op)[j] == v[j]
    ensures |Apply(l, v, op)| == |v|
  {
  }

  lemma WriteRefines(g: Geometry, st: State, w: World, st': State, w': World, ino: nat, off: nat, data: seq<nat>)
    requires Sound(g, st, w) && Narrow(g) && OthersKept(st, w, st', w', ino) && g.nindir >= 1 && g.bsize >= 1
    requires Written(g, st.disk, st'.disk, ino, off, data) && st.disk.inodes[ino].kind.Data?
    ensures Refines(g, st.disk, st'.disk, Write(ino, off, data))
  {
    hide Sound, Narrow, OthersKept, ByteAt;
    var ip, ip' := st.disk.inodes[ino], st'.disk.inodes[ino];
    if TailZero(g, st.disk.blocks, ip) {
      var c, c' := Contents(g, st.disk.blocks, ip), Contents(g, st'.disk.blocks, ip');
      forall p: nat
        ensures ByteAt(g, st'.disk.blocks, ip', p) == if off <= p < off + |data| then data[p - off]
                else ByteAt(g, st.disk.blocks, ip, p)
      {
      }
      assert c' == Overlay(c, off, data);
    }
    RefinesAt(g, st, w, st', w', Write(ino, off, data));
  }

  lemma TruncateRefines(g: Geometry, st: State, w: World, st': State, w': World, ino: nat, size: nat)
    requires Sound(g, st, w) && Narrow(g) && OthersKept(st, w, st', w', ino) && g.nindir >= 1 && g.bsize >= 1
    requires Resized(g, st.disk, st'.disk, ino, size, true) && st.disk.inodes[ino].kind.Data?
    ensures Refines(g, st.disk, st'.disk, Truncate(ino, size))
  {
    hide Sound, Narrow, OthersKept, ByteAt;
    var ip, ip' := st.disk.inodes[ino], st'.disk.inodes[ino];
    if TailZero(g, st.disk.blocks, ip) {
      var c, c' := Contents(g, st.disk.blocks, ip), Contents(g, st'.disk.blocks, ip');
      forall p: nat
        ensures ByteAt(g, st'.disk.blocks, ip', p) == if p < size then ByteAt(g, st.disk.blocks, ip, p) else 0
      {
      }
      assert c' == Resize(c, size);
    }
    RefinesAt(g, st, w, st', w', Truncate(ino, size));
  }

  lemma {:induction false} FreshBytes(g: Geometry, blocks: seq<Block>, ino: nat, kind: Kind, nlink: int, rdev: nat)
    requires g.Valid() && kind.Data?
    ensures Contents(g, blocks, FreshInode(g, kind, nlink, rdev)) == [] &&
            TailZero(g, blocks, FreshInode(g, kind, nlink, rdev))
  {
    hide Base, Height, SlotFor;
  }

  lemma CreateRefines(g: Geometry, st: State, w: World, st': State, w': World, ino: nat, kind: Kind, nlink: int,
      rdev: nat)
    requires Sound(g, st, w) && Narrow(g) && OthersKept(st, w, st', w', ino) && 1 <= ino < |st.disk.inodes|
    requires st'.disk.inodes == st.disk.inodes[ino := FreshInode(g, kind, nlink, rdev)] && g.Valid()
    ensures Refines(g, st.disk, st'.disk, Create(ino, kind, nlink, rdev))
  {
    hide Sound, Narrow, OthersKept, TailZero, Contents;
    if kind.Data? {
      FreshBytes(g, st'.disk.blocks, ino, kind, nlink, rdev);
    }
    RefinesAt(g, st, w, st', w', Create(ino, kind, nlink, rdev));
  }

  lemma DestroyRefines(g: Geometry, st: State, w: World, st': State, w': World, ino: nat)
    requires Sound(g, st, w) && Narrow(g) && OthersKept(st, w, st', w', ino) && 1 <= ino < |st.disk.inodes| && g.Valid()
    requires Destroyed(st'.disk, w'.tab, ino) && |st'.disk.inodes| == |st.disk.inodes|
    ensures Refines(g, st.disk, st'.disk, Destroy(ino))
  {
    hide Sound, Narrow, OthersKept, TailZero, Contents;
    RefinesAt(g, st, w, st', w', Destroy(ino));
  }

  lemma PatchRefines(g: Geometry, st: State, w: World, st': State, w': World, ino: nat, off: nat, data: seq<nat>,
      k: int)
    requires Sound(g, st, w) && Narrow(g) && OthersKept(st, w, st', w', ino) && g.nindir >= 1 && g.bsize >= 1
    requires Relinked(g, st.disk, st'.disk, ino, off, data, k) && st.disk.inodes[ino].kind.Data?
    ensures Refines(g, st.disk, st'.disk, Patch(ino, off, data, k))
  {
    hide Sound, Narrow, OthersKept, ByteAt;
    var ip, ip' := st.disk.inodes[ino], st'.disk.inodes[ino];
    if TailZero(g, st.disk.blocks, ip) {
      var c, c' := Contents(g, st.disk.blocks, ip), Contents(g, st'.disk.blocks, ip');
      forall p: nat
        ensures ByteAt(g, st'.disk.blocks, ip', p) == if off <= p < off + |data| then data[p - off]
                else ByteAt(g, st.disk.blocks, ip, p)
      {
      }
      assert c' == Overlay(c, off, data);
    }
    RefinesAt(g, st, w, st', w', Patch(ino, off, data, k));
  }

  lemma RelinkRefines(g: Geometry, st: State, w: World, st': State, w': World, ino: nat, k: int)
    requires Sound(g, st, w) && Narrow(g) && OthersKept(st, w, st', w', ino) && g.nindir >= 1 && g.bsize >= 1
    requires 1 <= ino < |st.disk.inodes| && !st.disk.inodes[ino].kind.Unalloc? && st'.disk.blocks == st.disk.blocks
    requires st'.disk.inodes == st.disk.inodes[ino := st.disk.inodes[ino].(nlink := LinkOf(g.link, k))]
    ensures Refines(g, st.disk, st'.disk, Relink(ino, k))
  {
    hide Sound, Narrow, OthersKept, ByteAt, LinkOf;
    var ip := st.disk.inodes[ino];
    LinksOnly(g, st.disk.blocks, w.tab, ino, ip, LinkOf(g.link, k));
    assert Contents(g, st.disk.blocks, ip.(nlink := LinkOf(g.link, k))) == Contents(g, st.disk.blocks, ip);
    assert TailZero(g, st.disk.blocks, ip) ==> TailZero(g, st.disk.blocks, ip.(nlink := LinkOf(g.link, k)));
    RefinesAt(g, st, w, st', w', Relink(ino, k));
  }

  // ---- runs ----

  /** Whether the volume accepts the operation at all. */
  predicate Applies(disk: Image, op: Op) {
    && 1 <= op.ino < |disk.inodes|
    && match op
       case Write(ino, off, data) => disk.inodes[ino].kind.Data?
       case Truncate(ino, size) => disk.inodes[ino].kind.Data?
       case Destroy(ino) => true
       case Create(ino, kind, nlink, rdev) => disk.inodes[ino].kind.Unalloc?
       case Patch(ino, off, data, nlink) => disk.inodes[ino].kind.Data? && 0 <= off && off + |data| < U32
       case Relink(ino, nlink) => !disk.inodes[ino].kind.Unalloc?
  }

  /** The operation stores no pointer past the flush barrier: it is no write, or it writes
      where blocks are mapped already or no indirect block on the way is on disk. */
  ghost predicate CoveredOp(g: Geometry, disk: Image, tab: Table, op: Op)
    requires g.Valid() && Applies(disk, op)
  {
    (op.Write? || op.Patch?) && op.off >= 0 ==> AllCovered(g, disk, tab, op.ino, disk.inodes[op.ino], op.off, |op.data|)
  }

  /** What an operation answers if no read or write fails: only a write can fail then, and only
      if it is out of range or the list holds no more than it may need. */
  ghost predicate Answers(g: Geometry, w: World, maxfile: nat, op: Op, rc: Errno)
    requires g.bsize >= 1
  {
    match op
    case Write(ino, off, data) =>
      if off < 0 then rc == EINVAL
      else if off + |data| > maxfile then rc == EFBIG
      else
        || rc == OK
        || (rc == ENOSPC && |Stack(w.segs)| <= Need(g, off, |data|))
        || (rc == EFBIG && !Reachable(g, maxfile))
    case Truncate(ino, size) => rc == if 0 <= size <= maxfile then OK else EFBIG
    case Patch(ino, off, data, nlink) =>
      && off >= 0
      && (|| rc == OK || (rc == ENOSPC && |Stack(w.segs)| <= Need(g, off, |data|))
          || (rc == EFBIG && exists p: nat {:trigger Unreachable(g, p)} ::
               off <= p < off + |data| && Unreachable(g, p)))
    case _ => rc == OK
  }

  /** The tail that a truncation zeroes does not end past 32 bits. */
  predicate TailFits(g: Geometry, op: Op)
    requires g.bsize >= 1
  {
    op.Truncate? && 0 <= op.size ==> EndFits(g.bsize, op.size)
  }

  /** One operation without a fault: it answers as it should, and success means its effect. */
  ghost predicate Calm(g: Geometry, disk: Image, w: World, maxfile: nat, op: Op, rc: Errno, disk': Image)
    requires g.bsize >= 1 && g.nindir >= 1
  {
    Answers(g, w, maxfile, op, rc) && (rc == OK && TailFits(g, op) ==> Refines(g, disk, disk', op))
  }

  /** One operation, whatever failed: it answers EIO or what it would without a fault, and OK
      means its effect, of a truncation up to whether the tail was zeroed. */
  ghost predicate Surely(g: Geometry, disk: Image, w: World, maxfile: nat, op: Op, rc: Errno, disk': Image)
    requires g.bsize >= 1 && g.nindir >= 1
  {
    && (rc == EIO || Answers(g, w, maxfile, op, rc)) && (rc == OK && !op.Truncate? ==> Refines(g, disk, disk', op))
    && (rc == OK && op.Truncate? ==>
          op.size >= 0 &&
              (Resized(g, disk, disk', op.ino, op.size, true) || Resized(g, disk, disk', op.ino, op.size, false)))
  }

  /** The outcome of one operation, whatever failed on the way. */
  ghost predicate StepOk(g: Geometry, st: State, w: World, st': State, w': World, ino: nat) {
    && Clean(g, st'.disk, w'.tab) && SizesOk(st'.disk) && |st'.disk.inodes| == |st.disk.inodes|
    && OthersKept(st, w, st', w', ino)
  }

  /** One operation.  `done` says that it succeeded without leaking a block or leaving bytes
      past the end of the file. */
  method Do(fs: Edition, op: Op, maxfile: nat, ghost w: World) returns (rc: Errno, ghost done: bool, ghost w': World)
    requires fs.Ok(w) && Narrow(fs.g) && Clean(fs.g, fs.disk, w.tab) && SizesOk(fs.disk) && maxfile < U32 &&
             Applies(fs.disk, op)
    modifies fs, fs.free
    ensures fs.Ok(w') && StepOk(fs.g, old(fs.St()), w, fs.St(), w', op.ino) && old(fs.Faults()) <= fs.Faults()
    ensures done ==> rc == OK && Refines(fs.g, old(fs.disk), fs.disk, op) && NoLoss(w.tab, w'.tab)
    ensures (rc == EIO ==> old(fs.Faults()) < fs.Faults()) && Surely(fs.g, old(fs.disk), w, maxfile, op, rc, fs.disk)
    ensures rc == OK && fs.Faults() == old(fs.Faults()) && TailFits(fs.g, op) ==> done
    ensures fs.Faults() == old(fs.Faults()) ==>
            Calm(fs.g, old(fs.disk), w, maxfile, op, rc, fs.disk) && InStep(w, old(fs.tfree), w', fs.tfree)
    ensures CoveredOp(fs.g, old(fs.disk), w.tab, op) ==> w'.breach == w.breach
  {
    hide Sound, Guarded, LogOk, NeverD, Narrow, Clean, OthersKept, NoLoss, Refines, AllCovered, EndFits, Written,
         RolledBack, Resized, Destroyed, Relinked, Stack, Need, Unreachable, Reachable, InStep;
    ghost var st0, g := fs.St(), fs.g;
    Facts(g, st0, w);
    match op {
      case Patch(ino, off, data, nlink) =>
        rc, w' := PatchIno(fs, ino, data, off, nlink, w);
        done := rc == OK;
        if done {
          PatchRefines(g, st0, w, fs.St(), w', ino, off, data, nlink);
        }
        PatchSizes(g, st0, w, fs.St(), w', ino, off, data, nlink, done);
      case Relink(ino, nlink) =>
        rc, w' := SetLinks(fs, ino, nlink, w);
        NoLossSelf(w.tab);
        StepNone(w, w', old(fs.tfree));
        done := rc == OK;
        if done {
          RelinkRefines(g, st0, w, fs.St(), w', ino, nlink);
        }
        OtherSizes(g, st0, w, fs.St(), w', ino);
      case Write(ino, off, data) =>
        ghost var rolled, late;
        rc, rolled, late, w' := WriteIno(fs, ino, data, off, maxfile, w);
        done := rc == OK;
        if rc == OK {
          WriteRefines(g, st0, w, fs.St(), w', ino, off, data);
        }
        WriteSizes(g, st0, w, fs.St(), w', ino, off, data, maxfile, rc == OK, rolled, late);
      case Truncate(ino, size) =>
        ghost var zeroed, leaked;
        rc, zeroed, leaked, w' := TruncateIno(fs, ino, size, maxfile, w);
        done := rc == OK && zeroed && !leaked;
        if rc == OK {
          TruncateSure(g, st0.disk, w, maxfile, op, fs.disk, zeroed);
        }
        if done {
          TruncateRefines(g, st0, w, fs.St(), w', ino, size);
        }
        TruncateSizes(g, st0, w, fs.St(), w', ino, size, maxfile, rc == OK, zeroed);
      case Destroy(ino) =>
        ghost var leaked;
        rc, leaked, w' := InodeDestroy(fs, ino, w);
        OthersCount(st0, w, fs.St(), w', ino);
        done := rc == OK && !leaked;
        if rc == OK {
          DestroyRefines(g, st0, w, fs.St(), w', ino);
        }
        OtherSizes(g, st0, w, fs.St(), w', ino);
      case Create(ino, kind, nlink, rdev) =>
        rc, w' := InodeCreate(fs, ino, kind, nlink, rdev, w);
        StepNone(w, w', old(fs.tfree));
        NoLossSelf(w.tab);
        done := rc == OK;
        if done {
          CreateRefines(g, st0, w, fs.St(), w', ino, kind, nlink, rdev);
        }
        OtherSizes(g, st0, w, fs.St(), w', ino);
    }
  }

  lemma TruncateSure(g: Geometry, disk: Image, w: World, maxfile: nat, op: Op, disk': Image, zeroed: bool)
    requires g.bsize >= 1 && g.nindir >= 1 && op.Truncate? && 0 <= op.size <= maxfile
    requires Resized(g, disk, disk', op.ino, op.size, zeroed)
    ensures Surely(g, disk, w, maxfile, op, OK, disk')
  {
    hide Resized;
    if zeroed {
      assert Resized(g, disk, disk', op.ino, op.size, true);
    }
  }

  lemma OtherSizes(g: Geometry, st: State, w: World, st': State, w': World, ino: nat)
    requires OthersKept(st, w, st', w', ino) && SizesOk(st.disk) && 1 <= ino < |st.disk.inodes|
    ensures |st'.disk.inodes| == |st.disk.inodes|
    ensures st'.disk.inodes[ino].size < U32 ==> SizesOk(st'.disk)
  {
  }

  lemma PatchSizes(g: Geometry, st: State, w: World, st': State, w': World, ino: nat, off: nat, data: seq<nat>, k: int,
      ok: bool)
    requires OthersKept(st, w, st', w', ino) && SizesOk(st.disk) && 1 <= ino < |st.disk.inodes| && off + |data| < U32 &&
             g.nindir >= 1 && g.bsize >= 1
    requires if ok then Relinked(g, st.disk, st'.disk, ino, off, data, k) else st'.disk.inodes == st.disk.inodes
    ensures SizesOk(st'.disk) && |st'.disk.inodes| == |st.disk.inodes|
  {
    hide Overwritten, ByteAt;
    OtherSizes(g, st, w, st', w', ino);
  }

  lemma WriteSizes(g: Geometry, st: State, w: World, st': State, w': World, ino: nat, off: int, data: seq<nat>,
      maxfile: nat, ok: bool, rolled: bool, late: bool)
    requires OthersKept(st, w, st', w', ino) && SizesOk(st.disk) && 1 <= ino < |st.disk.inodes| && maxfile < U32 &&
             g.nindir >= 1 && g.bsize >= 1
    requires ok ==> off >= 0 && off + |data| <= maxfile && Written(g, st.disk, st'.disk, ino, off, data)
    requires !ok && rolled ==>
             off >= 0 && off + |data| <= maxfile && RolledBack(g, st.disk, st'.disk, ino, off, data, late)
    requires !ok && !rolled ==> st'.disk.inodes == st.disk.inodes
    ensures SizesOk(st'.disk)
  {
    hide Overwritten, ByteAt;
    OtherSizes(g, st, w, st', w', ino);
  }

  lemma TruncateSizes(g: Geometry, st: State, w: World, st': State, w': World, ino: nat, size: int, maxfile: nat,
      ok: bool, zeroed: bool)
    requires OthersKept(st, w, st', w', ino) && SizesOk(st.disk) && 1 <= ino < |st.disk.inodes| && maxfile < U32 &&
             g.nindir >= 1 && g.bsize >= 1
    requires |st'.disk.inodes| == |st.disk.inodes|
    requires ok ==> 0 <= size <= maxfile && Resized(g, st.disk, st'.disk, ino, size, zeroed)
    requires !ok ==> st'.disk.inodes[ino].size == st.disk.inodes[ino].size
    ensures SizesOk(st'.disk)
  {
    hide ByteAt, TailZero;
    OtherSizes(g, st, w, st', w', ino);
  }

  /** A volume between two operations. */
  datatype Moment = Moment(st: State, w: World)

  /** The volume before each operation and after the last.  An operation that does not apply
      changes nothing. */
  ghost predicate Trace(g: Geometry, ops: seq<Op>, t: seq<Moment>) {
    && |t| == |ops| + 1
    && forall k {:trigger ops[k]} :: 0 <= k < |ops| ==>
         if Applies(t[k].st.disk, ops[k]) then StepOk(g, t[k].st, t[k].w, t[k + 1].st, t[k + 1].w, ops[k].ino)
             else t[k + 1] == t[k]
  }

  /** No operation of the run stores a pointer past the flush barrier. */
  ghost predicate CoveredRun(g: Geometry, ops: seq<Op>, t: seq<Moment>)
    requires g.Valid() && |t| >= |ops|
  {
    forall k {:trigger ops[k]} :: 0 <= k < |ops| && Applies(t[k].st.disk, ops[k]) ==>
        CoveredOp(g, t[k].st.disk, t[k].w.tab, ops[k])
  }

  /** No new size of the run has a last block that ends past 32 bits. */
  predicate TailsFit(g: Geometry, ops: seq<Op>)
    requires g.bsize >= 1
  {
    forall k {:trigger ops[k]} :: 0 <= k < |ops| ==> TailFits(g, ops[k])
  }

  /** A run without a fault, step by step: what does not apply is refused. */
  ghost predicate CalmRun(g: Geometry, maxfile: nat, ops: seq<Op>, rcs: seq<Errno>, t: seq<Moment>)
    requires g.bsize >= 1 && g.nindir >= 1 && |rcs| == |ops| && |t| == |ops| + 1
  {
    forall k {:trigger ops[k]} :: 0 <= k < |ops| ==>
      if Applies(t[k].st.disk, ops[k]) then Calm(g, t[k].st.disk, t[k].w, maxfile, ops[k], rcs[k], t[k + 1].st.disk)
      else rcs[k] == EINVAL
  }

  /** A run under any faults, step by step. */
  ghost predicate SureRun(g: Geometry, maxfile: nat, ops: seq<Op>, rcs: seq<Errno>, t: seq<Moment>)
    requires g.bsize >= 1 && g.nindir >= 1 && |rcs| == |ops| && |t| == |ops| + 1
  {
    forall k {:trigger ops[k]} :: 0 <= k < |ops| ==>
      if Applies(t[k].st.disk, ops[k]) then Surely(g, t[k].st.disk, t[k].w, maxfile, ops[k], rcs[k], t[k + 1].st.disk)
      else rcs[k] == EINVAL
  }

  lemma SureMore(g: Geometry, maxfile: nat, ops: seq<Op>, op: Op, rcs: seq<Errno>, rc: Errno, t: seq<Moment>, m: Moment)
    requires g.bsize >= 1 && g.nindir >= 1 && |rcs| == |ops| && |t| == |ops| + 1 && SureRun(g, maxfile, ops, rcs, t)
    requires if Applies(t[|ops|].st.disk, op) then Surely(g, t[|ops|].st.disk, t[|ops|].w, maxfile, op, rc, m.st.disk)
             else rc == EINVAL
    ensures SureRun(g, maxfile, ops + [op], rcs + [rc], t + [m])
  {
    hide Surely, Applies;
  }

  lemma CalmMore(g: Geometry, maxfile: nat, ops: seq<Op>, op: Op, rcs: seq<Errno>, rc: Errno, t: seq<Moment>, m: Moment)
    requires g.bsize >= 1 && g.nindir >= 1 && |rcs| == |ops| && |t| == |ops| + 1 && CalmRun(g, maxfile, ops, rcs, t)
    requires if Applies(t[|ops|].st.disk, op) then Calm(g, t[|ops|].st.disk, t[|ops|].w, maxfile, op, rc, m.st.disk)
             else rc == EINVAL
    ensures CalmRun(g, maxfile, ops + [op], rcs + [rc], t + [m])
  {
    hide Calm, Applies;
  }

  predicate AllOk(rcs: seq<Errno>) {
    forall k :: 0 <= k < |rcs| ==> rcs[k] == OK
  }

  lemma AllOkMore(rcs: seq<Errno>, rc: Errno)
    ensures AllOk(rcs + [rc]) <==> AllOk(rcs) && rc == OK
  {
    assert forall k :: 0 <= k < |rcs| ==> (rcs + [rc])[k] == rcs[k];
    assert (rcs + [rc])[|rcs|] == rc;
  }

  lemma TraceMore(g: Geometry, ops: seq<Op>, op: Op, t: seq<Moment>, m: Moment)
    requires Trace(g, ops, t)
    requires if Applies(t[|ops|].st.disk, op) then StepOk(g, t[|ops|].st, t[|ops|].w, m.st, m.w, op.ino)
             else m == t[|ops|]
    ensures Trace(g, ops + [op], t + [m])
  {
    hide StepOk, Applies;
  }

  lemma CoveredMore(g: Geometry, ops: seq<Op>, op: Op, t: seq<Moment>, m: Moment)
    requires g.Valid() && |t| == |ops| + 1 && CoveredRun(g, ops + [op], t + [m])
    ensures CoveredRun(g, ops, t)
    ensures Applies(t[|ops|].st.disk, op) ==> CoveredOp(g, t[|ops|].st.disk, t[|ops|].w.tab, op)
  {
    hide Applies, CoveredOp;
    forall k {:trigger ops[k]} | 0 <= k < |ops| && Applies(t[k].st.disk, ops[k])
      ensures CoveredOp(g, t[k].st.disk, t[k].w.tab, ops[k])
    {
      assert (ops + [op])[k] == ops[k];
    }
    assert (ops + [op])[|ops|] == op;
  }

  predicate NoWrites(ops: seq<Op>) {
    forall k {:trigger ops[k]} :: 0 <= k < |ops| ==> !ops[k].Write? && !ops[k].Patch?
  }

  /** Operations other than writes never grow a tree. */
  lemma CoveredUnlessWrite(g: Geometry, ops: seq<Op>, t: seq<Moment>)
    requires g.Valid() && |t| >= |ops| && NoWrites(ops)
    ensures CoveredRun(g, ops, t)
  {
    hide AllCovered, Applies;
  }

  /** Any run.  However many block reads and writes fail, and wherever: the volume stays
      sound, each operation answers EIO or what it would without a fault, and the images written
      are all free of aliasing exactly if no pointer was stored past the flush barrier.  If every operation was done,
          the volume is what the same
      operations make of plain byte sequences, and no block leaked; without a fault, done means
      that every operation returned OK and no tail wrapped. */
  method Run(fs: Edition, ops: seq<Op>, maxfile: nat, ghost w: World)
      returns (rcs: seq<Errno>, ghost done: bool, ghost t: seq<Moment>, ghost w': World)
    requires fs.Ok(w) && Narrow(fs.g) && Clean(fs.g, fs.disk, w.tab) && SizesOk(fs.disk) && maxfile < U32
    modifies fs, fs.free
    ensures fs.Ok(w') && Clean(fs.g, fs.disk, w'.tab) && SizesOk(fs.disk) && old(fs.Faults()) <= fs.Faults()
    ensures Reliable(fs.fails) ==> fs.Faults() == old(fs.Faults())
    ensures fs.g.Valid() && fs.g.bsize >= 1 && |rcs| == |ops| && |t| == |ops| + 1
    ensures SureRun(fs.g, maxfile, ops, rcs, t)
    ensures fs.Faults() == old(fs.Faults()) ==>
            CalmRun(fs.g, maxfile, ops, rcs, t) && InStep(w, old(fs.tfree), w', fs.tfree)
    ensures Trace(fs.g, ops, t) && t[0] == Moment(old(fs.St()), w) && t[|ops|] == Moment(fs.St(), w')
    ensures !w'.breach <==> AllNeverD(fs.g, fs.log)
    ensures CoveredRun(fs.g, ops, t) || NoWrites(ops) ==> w'.breach == w.breach
    ensures AllOk(rcs) && fs.Faults() == old(fs.Faults()) && TailsFit(fs.g, ops) ==> done
    ensures done && TailsZero(fs.g, old(fs.disk)) ==>
              && TailsZero(fs.g, fs.disk) && View(fs.g, fs.disk) == ApplyAll(fs.g.link, View(fs.g, old(fs.disk)), ops)
              && NoLoss(w.tab, w'.tab)
  {
    hide Sound, Guarded, NeverD, Narrow, Clean, OthersKept, NoLoss, AllCovered, EndFits, SizesOk, AllNeverD, TailsZero,
         Apply, Applies, CoveredOp, CoveredRun, Trace, AllOk, Calm, CalmRun, InStep, Stack, NoWrites, SureRun, Surely,
         Failures;
    ghost var st0, g := fs.St(), fs.g;
    Facts(g, st0, w);
    fs.Unfailing();
    NoLossSelf(w.tab);
    TraceNone(g, Moment(st0, w));
    CalmNone(g, maxfile, Moment(st0, w));
    StepNone(w, w, fs.tfree);
    rcs, done, t, w' := [], true, [Moment(st0, w)], w;
    for i := 0 to |ops|
      invariant fs.Ok(w') && Clean(g, fs.disk, w'.tab) && SizesOk(fs.disk) && old(fs.Faults()) <= fs.Faults()
      invariant |rcs| == i && |t| == i + 1 && Trace(g, ops[..i], t) && t[0] == Moment(st0, w) &&
                t[i] == Moment(fs.St(), w') && SureRun(g, maxfile, ops[..i], rcs, t)
      invariant CoveredRun(g, ops[..i], t) ==> w'.breach == w.breach
      invariant fs.Faults() == old(fs.Faults()) ==>
                CalmRun(g, maxfile, ops[..i], rcs, t) && InStep(w, old(fs.tfree), w', fs.tfree)
      invariant AllOk(rcs) && fs.Faults() == old(fs.Faults()) && TailsFit(g, ops) ==> done
      invariant done && TailsZero(g, st0.disk) ==>
          TailsZero(g, fs.disk) && View(g, fs.disk) == ApplyAll(g.link, View(g, st0.disk), ops[..i]) &&
              NoLoss(w.tab, w'.tab)
    {
      ghost var was, t0, rcs0, tf1 := w', t, rcs, fs.tfree;
      assert ops[..i + 1] == ops[..i] + [ops[i]] && ops[..i + 1][..i] == ops[..i];
      if Applies(fs.disk, ops[i]) {
        ghost var d;
        var rc;
        rc, d, w' := Do(fs, ops[i], maxfile, w');
        if done && d && NoLoss(w.tab, was.tab) {
          NoLossThen(w.tab, was.tab, w'.tab);
        }
        AllOkMore(rcs, rc);
        if fs.Faults() == old(fs.Faults()) {
          StepThen(w, old(fs.tfree), was, tf1, w', fs.tfree);
        }
        rcs, done := rcs + [rc], done && d;
      } else {
        AllOkMore(rcs, EINVAL);
        rcs, done := rcs + [EINVAL], false;
      }
      t := t + [Moment(fs.St(), w')];
      TraceMore(g, ops[..i], ops[i], t0, t[i + 1]);
      SureMore(g, maxfile, ops[..i], ops[i], rcs0, rcs[i], t0, t[i + 1]);
      if fs.Faults() == old(fs.Faults()) {
        CalmMore(g, maxfile, ops[..i], ops[i], rcs0, rcs[i], t0, t[i + 1]);
      }
      if CoveredRun(g, ops[..i + 1], t) {
        CoveredMore(g, ops[..i], ops[i], t0, t[i + 1]);
      }
    }
    fs.Unfailing();
    assert ops[..|ops|] == ops;
    if NoWrites(ops) {
      CoveredUnlessWrite(g, ops, t);
    }
  }

  /** Shrink a file and let it grow again: it shows zeros, never the old bytes. */
  method ShrinkAndGrow(fs: Edition, ino: nat, n: nat, m: nat, maxfile: nat, ghost w: World)
      returns (rcs: seq<Errno>, ghost w': World)
    requires fs.Ok(w) && Narrow(fs.g) && Clean(fs.g, fs.disk, w.tab) && SizesOk(fs.disk) && maxfile < U32
    requires fs.g.nindir >= 1 && fs.g.bsize >= 1 && 1 <= ino < |fs.disk.inodes| && fs.disk.inodes[ino].kind.Data?
    requires n <= fs.disk.inodes[ino].size && n <= m <= maxfile && EndFits(fs.g.bsize, n) && EndFits(fs.g.bsize, m) &&
             TailsZero(fs.g, fs.disk)
    modifies fs, fs.free
    ensures fs.Ok(w') && w'.breach == w.breach && |fs.disk.inodes| == |old(fs.disk).inodes|
    ensures fs.Faults() == old(fs.Faults()) ==>
              AllOk(rcs) && Contents(fs.g, fs.disk.blocks, fs.disk.inodes[ino]) ==
                            Contents(fs.g, old(fs.disk).blocks, old(fs.disk).inodes[ino])[..n] + Zeros(m - n)
  {
    hide Sound, Guarded, Narrow, Clean, SizesOk, TailsZero, Contents, LogOk, View, ApplyAll, CalmRun, Trace, EndFits,
         AllNeverD, CoveredRun, AllOk, TailsFit, InStep, NoLoss;
    ghost var g, img := fs.g, fs.disk;
    var ops := [Truncate(ino, n), Truncate(ino, m)];
    ghost var done, t;
    rcs, done, t, w' := Run(fs, ops, maxfile, w);
    TwoSteps(g, ops, t);
    Truncations(ino, n, m);
    if fs.Faults() == old(fs.Faults()) {
      BothOk(g, maxfile, ops, rcs, t, ino, n, m);
      ViewContents(g, img, ino);
      ShrinkGrow(g.link, View(g, img), ino, n, m);
      ViewData(g, fs.disk, ino);
      ViewContents(g, fs.disk, ino);
    }
  }

  lemma Truncations(ino: nat, n: nat, m: nat)
    ensures NoWrites([Truncate(ino, n), Truncate(ino, m)])
  {
  }

  lemma TwoSteps(g: Geometry, ops: seq<Op>, t: seq<Moment>)
    requires |ops| == 2 && Trace(g, ops, t)
    ensures |t[2].st.disk.inodes| == |t[0].st.disk.inodes|
  {
    hide Applies, Clean, SizesOk, OthersKept;
    assert ops[0] == ops[0] && ops[1] == ops[1];
  }

  lemma BothOk(g: Geometry, maxfile: nat, ops: seq<Op>, rcs: seq<Errno>, t: seq<Moment>, ino: nat, n: nat, m: nat)
    requires g.bsize >= 1 && g.nindir >= 1 && ops == [Truncate(ino, n), Truncate(ino, m)] && |rcs| == 2 && |t| == 3
    requires CalmRun(g, maxfile, ops, rcs, t) && Trace(g, ops, t) && n <= maxfile && m <= maxfile &&
             EndFits(g.bsize, n) && EndFits(g.bsize, m)
    requires 1 <= ino < |t[0].st.disk.inodes| && t[0].st.disk.inodes[ino].kind.Data? && TailsZero(g, t[0].st.disk)
    ensures AllOk(rcs) && TailsFit(g, ops)
  {
    hide TailsZero, View, EndFits, Clean, SizesOk, OthersKept, Contents;
    assert ops[0].Truncate? && ops[1].Truncate?;
    assert Applies(t[0].st.disk, ops[0]);
    assert rcs[0] == OK;
    assert View(g, t[1].st.disk) == Apply(g.link, View(g, t[0].st.disk), ops[0]);
    ViewContents(g, t[0].st.disk, ino);
    ViewData(g, t[1].st.disk, ino);
    assert Applies(t[1].st.disk, ops[1]);
  }

  lemma ViewContents(g: Geometry, disk: Image, ino: nat)
    requires g.bsize >= 1 && g.nindir >= 1 && 1 <= ino < |disk.inodes| && disk.inodes[ino].kind.Data?
    ensures View(g, disk)[ino] == Bytes(disk.inodes[ino].nlink, Contents(g, disk.blocks, disk.inodes[ino]))
    ensures |Contents(g, disk.blocks, disk.inodes[ino])| == disk.inodes[ino].size
  {
  }

  lemma ViewData(g: Geometry, disk: Image, ino: nat)
    requires g.bsize >= 1 && g.nindir >= 1 && 1 <= ino < |disk.inodes| && View(g, disk)[ino].Bytes?
    ensures disk.inodes[ino].kind.Data?
  {
  }

  lemma CalmNone(g: Geometry, maxfile: nat, m: Moment)
    requires g.bsize >= 1 && g.nindir >= 1
    ensures CalmRun(g, maxfile, [], [], [m]) && SureRun(g, maxfile, [], [], [m])
  {
  }

  lemma TraceNone(g: Geometry, m: Moment)
    ensures Trace(g, [], [m])
  {
  }

  /** A whole session on an image of which the checker's report `rep` has no complaint, and
      whose list it walked to the bottom: mounted, and any operations, with any faults.  As long
      as the operations keep to what the flush barrier covers, every image on the way is free of
      aliasing, so the checker would accept it again. */
  method Session(g: Geometry, img: Image, ghost rep: Report, tfree: nat, fails: nat -> bool, ops: seq<Op>, maxfile: nat)
    returns (fs: Edition, rcs: seq<Errno>, ghost t: seq<Moment>, ghost w: World)
    requires Sized(g, img) && Narrow(g) && SizesOk(img) && maxfile < U32
    requires Reports(g, img, true, rep) && rep.bad == rep.dup == rep.errors == 0 && EndsAtBottom(g, img)
    ensures fs.g == g && fs.Ok(w) && Clean(g, fs.disk, w.tab) && g.Valid() && g.bsize >= 1 && |rcs| == |ops| &&
            |t| == |ops| + 1
    ensures Trace(g, ops, t) && t[0].st.disk == img && t[|ops|].st.disk == fs.disk
    ensures CoveredRun(g, ops, t) ==> AllNeverD(g, fs.log) && NeverD(g, fs.disk)
    ensures SureRun(g, maxfile, ops, rcs, t) && (Reliable(fails) ==> CalmRun(g, maxfile, ops, rcs, t))
    ensures Reliable(fails) && AllOk(rcs) && TailsFit(g, ops) && TailsZero(g, img) ==>
              TailsZero(g, fs.disk) && View(g, fs.disk) == ApplyAll(g.link, View(g, img), ops)
  {
    hide Sized, NeverD, Narrow, Inv, Clean, SizesOk, TailsZero, ApplyAll, View, Trace, CoveredRun, TailsFit, Reports,
         EndsAtBottom, CalmRun, InStep, SureRun;
    SizedValid(g, img);
    CleanReport(g, img, rep);
    w := Mounted(g, img);
    fs := new Edition(g, img, tfree, fails);
    fs.Unfailing();
    FirstImage(g, img);
    assert fs.Ok(w);
    ghost var done;
    rcs, done, t, w := Run(fs, ops, maxfile, w);
    fs.Unfailing();
    if CoveredRun(g, ops, t) {
      NowNeverD(g, fs.St(), w);
    }
  }

  lemma SizedValid(g: Geometry, img: Image)
    requires Sized(g, img)
    ensures g.Valid() && img.sbN <= |img.sbFree|
  {
  }

  lemma FirstImage(g: Geometry, img: Image)
    requires NeverD(g, img)
    ensures LogOk(g, [img], false)
  {
  }

  lemma NowNeverD(g: Geometry, st: State, w: World)
    requires Inv(g, st, w) && !w.breach
    ensures NeverD(g, st.disk)
  {
    GuardedNeverD(g, st, w);
  }
}
