/** The mounted volume: block I/O that may fail at any call, the free-list allocator, the
    block-map tree and the inode table, as one object updated in place. */
module Engine {
  import opened Device
  import opened Geometry
  import opened FreeChain
  import opened Image
  import opened Ownership
  import opened Consistency
  import opened AllocSteps
  import opened TreeSteps
  import opened Barrier
  import opened Mapping
  import opened Descent
  import opened BlockMap
  import opened Promotion
  import opened Truncation
  import opened SlotTruncation

  datatype Errno = OK | ENOSPC | EIO | EFBIG | EINVAL | ENAMETOOLONG

  ghost predicate AllNeverD(g: Geometry, log: seq<Image>) {
    forall k {:trigger log[k]} :: 0 <= k < |log| ==> NeverD(g, log[k])
  }

  /** Every image ever written is alias-free, exactly as long as no pointer was stored past
      the flush barrier. */
  ghost predicate LogOk(g: Geometry, log: seq<Image>, breach: bool) {
    !breach <==> AllNeverD(g, log)
  }

  class Edition {
    const g: Geometry
    var disk: Image           // the image on disk
    var nfree: nat            // in-core free-block cache
    const free: array<nat>
    var tfree: nat            // total of free blocks
    var dirty: bool           // allocations not yet flushed
    ghost var log: seq<Image> // every image the volume has been through
    const fails: nat -> bool  // which reads and writes fail
    var tick: nat             // reads and writes so far

    /** Mount an image: the cache is the superblock's. */
    constructor (g: Geometry, img: Image, tfree: nat, fails: nat -> bool)
      ensures this.g == g && this.tfree == tfree && fresh(free) && log == [img] && this.fails == fails && tick == 0
      ensures St() == State(img, img.sbN, img.sbFree, false)
    {
      this.g, disk, nfree, this.tfree, dirty, log := g, img, img.sbN, tfree, false, [img];
      this.fails, tick := fails, 0;
      var cache := new nat[|img.sbFree|](i requires 0 <= i < |img.sbFree| => img.sbFree[i]);
      free := cache;
      new;
      assert free[..] == img.sbFree;
    }

    ghost function St(): State
      reads this, free
    {
      State(disk, nfree, free[..], dirty)
    }

    ghost predicate Ok(w: World)
      reads this, free
    {
      Inv(g, St(), w) && LogOk(g, log, w.breach)
    }

    /** The reads and writes that failed so far. */
    ghost function Faults(): nat
      reads this`tick
    {
      Failures(fails, tick)
    }

    lemma Unfailing()
      ensures Reliable(fails) ==> Faults() == 0
    {
      if Reliable(fails) {
        NoFailures(fails, tick);
      }
    }

    // ---- block I/O ----

    /** One read or write of the device. */
    method Ready() returns (ok: bool)
      modifies this`tick
      ensures Faults() == if ok then old(Faults()) else old(Faults()) + 1
    {
      ok := !fails(tick);
      tick := tick + 1;
    }

    method ReadBlock(b: nat) returns (ok: bool, buf: Block)
      requires b < |disk.blocks|
      modifies this`tick
      ensures Faults() == if ok then old(Faults()) else old(Faults()) + 1
      ensures ok ==> buf == disk.blocks[b]
    {
      ok := Ready();
      buf := disk.blocks[b];
    }

    method WriteBlock(b: nat, buf: Block) returns (ok: bool)
      requires b < |disk.blocks|
      modifies this`tick, this`disk, this`log
      ensures ok ==>
              disk == old(disk).(blocks := old(disk).blocks[b := buf]) && log == old(log) + [disk]
      ensures !ok ==> disk == old(disk) && log == old(log)
      ensures Faults() == if ok then old(Faults()) else old(Faults()) + 1
    {
      ok := Ready();
      if ok {
        disk := disk.(blocks := disk.blocks[b := buf]);
        log := log + [disk];
      }
    }

    method SuperWrite() returns (ok: bool)
      modifies this`tick, this`disk, this`log, this`dirty
      ensures ok ==> disk == old(disk).(sbN := nfree, sbFree := free[..]) && !dirty && log == old(log) + [disk]
      ensures !ok ==> disk == old(disk) && log == old(log) && dirty == old(dirty)
      ensures Faults() == if ok then old(Faults()) else old(Faults()) + 1
    {
      ok := Ready();
      if ok {
        disk := disk.(sbN := nfree, sbFree := free[..]);
        log := log + [disk];
        dirty := false;
      }
    }

    // ---- the free-list allocator ----

    /** The log after a write that kept the crash contract. */
    lemma Logged(w: World, w': World, before: seq<Image>)
      requires LogOk(g, before, w.breach) && w'.breach == w.breach && log == before + [disk]
      requires Sound(g, St(), w') && (!w'.breach ==> Guarded(g, St(), w'))
      ensures Ok(w')
    {
      if !w'.breach {
        GuardedNeverD(g, St(), w');
      } else {
        var k :| 0 <= k < |before| && !NeverD(g, before[k]);
        assert log[k] == before[k];
      }
    }

    /** Refill the cache from chain block b and commit it before b can be reused. */
    method Reload(b: nat, ghost st0: State, ghost w: World) returns (ok: bool, ghost w': World)
      requires ListOk(g, st0, w)
      requires st0.nfree == 1 && st0.free[0] == b && b != 0
      requires St() == st0.(nfree := 0)
      modifies this, free
      ensures old(Faults()) <= Faults() && (!ok <==> old(Faults()) < Faults())
      ensures ListOk(g, St(), w') && (Inv(g, st0, w) && LogOk(g, old(log), w.breach) ==> Ok(w')) &&
              tfree == old(tfree) && AllocFrame(st0, w, St(), w')
      ensures g.IsData(b) && w.tab[b].Free? && w'.tab[b] == Lost
      ensures ok ==> w'.tab == w.tab[b := Lost]
      ensures ok ==> !IsNode(w'.segsD, b) && Stack(w.segs) == Stack(w'.segs) + [b]
    {
      hide Sound, ListOk, Guarded, NeverD, Segments, Stack, LogOk, IsNode;
      Facts(g, st0, w);
      var buf;
      ok, buf := ReadBlock(b);
      if !ok {
        ghost var st1, w1 := PopUnreadable(g, st0, w);
        return false, w1;
      }
      nfree := buf[0];
      for i := 0 to g.nicfree
        modifies free
        invariant forall k :: 0 <= k < i ==> free[k] == buf[k + 1]
      {
        free[i] := buf[i + 1];
      }
      ghost var st1, w1 := PopNode(g, st0, w, free[..]);
      ghost var log0 := log;
      ok := SuperWrite();
      w' := w1;
      if ok {
        ghost var st2;
        st2, w' := Flush(g, st1, w1);
        if Inv(g, st0, w) && LogOk(g, old(log), w.breach) {
          Logged(w1, w', log0);
        }
        FreshlyFlushed(g, st2, w', b);
        ReloadStack(g, w.segs, b);
      }
    }

    /** Take the top of the free list and zero it. */
    method Balloc(ghost w: World) returns (rc: Errno, b: nat, ghost w': World)
      requires Ok(w) || ListOk(g, St(), w)
      modifies this, free
      ensures old(Faults()) <= Faults() && (rc == EIO <==> old(Faults()) < Faults())
      ensures ListOk(g, St(), w') && (old(Ok(w)) ==> Ok(w')) && AllocFrame(old(St()), w, St(), w')
      ensures rc == ENOSPC <==> Stack(w.segs) == []
      ensures rc == ENOSPC ==> Stack(w'.segs) == [] && tfree == old(tfree)
      ensures rc == OK ==> Stack(w.segs) == Stack(w'.segs) + [b]
      ensures (rc == OK ==> b == Top(old(St()))) && (rc == ENOSPC ==> Top(old(St())) == 0)
      ensures rc == OK ==>
              g.IsData(b) && w.tab[b].Free? && w'.tab == w.tab[b := Alloc] && disk.blocks[b] == Zeros(g.bsize)
      ensures rc == OK ==> old(tfree) == |Stack(w.segs)| ==> tfree == |Stack(w'.segs)|
      ensures Faults() == old(Faults()) ==> Spent(w, old(tfree), w', tfree, 1)
      ensures rc in {OK, ENOSPC, EIO}
    {
      hide Sound, ListOk, Guarded, NeverD, Segments, IsNode, LogOk, DropLast, Zeros, Stack, Failures;
      ghost var safe := Ok(w);
      if safe {
        SoundList(g, St(), w);
      }
      Facts(g, St(), w);
      StackEmpty(g, w.segs);
      if nfree == 0 {
        return ENOSPC, 0, w;
      }
      ghost var st0 := St();
      nfree := nfree - 1;
      b := free[nfree];
      if b == 0 {
        ghost var st1;
        st1, w' := PopSentinel(g, st0, w);
        StackOfNothing();
        return ENOSPC, 0, w';
      }
      if b < g.dstart || b >= g.fsize {
        assert false;
      }
      if nfree == 0 {
        var ok;
        ok, w' := Reload(b, st0, w);
        if !ok {
          return EIO, b, w';
        }
      } else {
        ghost var st1;
        st1, w' := PopLeaf(g, st0, w);
        StackPop(g, w.segs);
      }
      rc, w' := ZeroTaken(b, safe, w');
    }

    /** Zero a block just popped; only then is it the caller's. */
    method ZeroTaken(b: nat, ghost safe: bool, ghost w: World) returns (rc: Errno, ghost w': World)
      requires ListOk(g, St(), w) && g.IsData(b) && w.tab[b].Lost? &&
               (safe ==> Ok(w) && (!w.breach ==> !IsNode(w.segsD, b)))
      modifies this
      ensures old(Faults()) <= Faults() && (rc == EIO <==> old(Faults()) < Faults())
      ensures ListOk(g, St(), w') && (safe ==> Ok(w')) && w'.segs == w.segs
      ensures rc in {OK, EIO}
      ensures St().disk.inodes == old(St()).disk.inodes && w'.breach == w.breach
      ensures rc == EIO ==> disk == old(disk) && w' == w
      ensures rc == OK ==> w'.tab == w.tab[b := Alloc] && disk.blocks == old(disk).blocks[b := Zeros(g.bsize)]
      ensures rc == OK ==> tfree == if old(tfree) == 0 then 0 else old(tfree) - 1
    {
      hide Sound, ListOk, Guarded, NeverD, LogOk, IsNode, Zeros;
      Facts(g, St(), w);
      ghost var st0, log0 := St(), log;
      var ok := WriteBlock(b, Zeros(g.bsize));
      if !ok {
        return EIO, w;
      }
      if tfree > 0 {
        tfree := tfree - 1;
      }
      dirty := true;
      ghost var st1;
      st1, w' := Adopt(g, st0, w, b);
      if safe {
        Logged(w, w', log0);
      }
      rc := OK;
    }

    /** Return a block to the free list.  A number outside the data area is ignored; a dump
        that cannot be written leaks the block. */
    method Bfree(b: nat, ghost w: World) returns (ghost leaked: bool, ghost w': World)
      requires ListOk(g, St(), w) && (g.IsData(b) ==> w.tab[b].Alloc?)
      modifies this, free
      ensures old(Faults()) <= Faults() && (leaked ==> old(Faults()) < Faults())
      ensures ListOk(g, St(), w') && (old(Ok(w)) ==> Ok(w')) && w'.breach == w.breach && |w'.tab| == |w.tab| &&
              disk.inodes == old(disk).inodes
      ensures !g.IsData(b) ==> w' == w && disk == old(disk) && tfree == old(tfree)
      ensures g.IsData(b) && leaked ==>
              w'.tab == w.tab[b := Lost] && Stack(w'.segs) == Stack(w.segs) && disk == old(disk)
      ensures g.IsData(b) && !leaked ==>
                && w'.tab[b].Free? && w'.tab == w.tab[b := w'.tab[b]]
                && Stack(w'.segs) == Stack(w.segs) + [b] && tfree == old(tfree) + 1
      ensures |disk.blocks| == |old(disk).blocks|
      ensures forall c :: 0 <= c < |disk.blocks| && c != b ==> disk.blocks[c] == old(disk).blocks[c]
    {
      hide Sound, ListOk, Guarded, NeverD, LogOk, IsNode, Segments, Flatten, Stack;
      Facts(g, St(), w);
      leaked := false;
      w' := w;
      if b < g.dstart || b >= g.fsize {
        return false, w;
      }
      if nfree == 0 {
        ghost var st1;
        st1, w' := PushSentinel(g, St(), w);
        nfree := 1;
        free[0] := 0;
        StackOfNothing();
      }
      var ok := true;
      if nfree >= g.nicfree {
        ok, w' := SpillInto(b, w');
      } else {
        w' := PutLast(b, w');
      }
      leaked := !ok;
      if ok {
        tfree := tfree + 1;
      }
    }

    method PutLast(b: nat, ghost w: World) returns (ghost w': World)
      requires ListOk(g, St(), w) && g.IsData(b) && w.tab[b].Alloc? && 1 <= nfree < g.nicfree
      modifies this, free
      ensures Faults() == old(Faults())
      ensures ListOk(g, St(), w') && (old(Ok(w)) ==> Ok(w')) && w'.breach == w.breach && disk == old(disk) &&
              tfree == old(tfree)
      ensures w'.tab[b].Free? && w'.tab == w.tab[b := w'.tab[b]] && Stack(w'.segs) == Stack(w.segs) + [b]
    {
      hide Sound, ListOk, Guarded, NeverD, LogOk, Segments, Flatten, Stack;
      Facts(g, St(), w);
      ghost var st1;
      st1, w' := Push(g, St(), w, b);
      StackPush(w.segs, b);
      free[nfree] := b;
      nfree := nfree + 1;
    }

    /** Dump the full cache into b, which becomes the only entry of the new cache. */
    method SpillInto(b: nat, ghost w: World) returns (ok: bool, ghost w': World)
      requires ListOk(g, St(), w) && g.IsData(b) && w.tab[b].Alloc? && nfree == g.nicfree
      modifies this, free
      ensures old(Faults()) <= Faults() && (!ok <==> old(Faults()) < Faults())
      ensures ListOk(g, St(), w') && (old(Ok(w)) ==> Ok(w')) && w'.breach == w.breach &&
              disk.inodes == old(disk).inodes && tfree == old(tfree)
      ensures !ok ==> w'.tab == w.tab[b := Lost] && Stack(w'.segs) == Stack(w.segs) && disk == old(disk)
      ensures ok ==>
                && w'.tab[b].Free? && w'.tab == w.tab[b := w'.tab[b]] && Stack(w'.segs) == Stack(w.segs) + [b]
                && |disk.blocks| == |old(disk).blocks|
                && forall c :: 0 <= c < |disk.blocks| && c != b ==> disk.blocks[c] == old(disk).blocks[c]
    {
      hide Sound, ListOk, Guarded, NeverD, LogOk, IsNode, Segments, Flatten, Stack;
      Facts(g, St(), w);
      ghost var st0, log0 := St(), log;
      var dump: Block := [nfree] + free[..] + Zeros(g.bsize - g.nicfree - 1);
      ok := WriteBlock(b, dump);
      if !ok {
        w' := Abandon(g, st0, w, b);
        return false, w';
      }
      nfree := 0;
      free[nfree] := b;
      nfree := nfree + 1;
      ghost var st1;
      st1, w' := Spill(g, st0, w, b, dump);
      if old(Ok(w)) {
        Logged(w, w', log0);
      }
      StackTop(w.segs, [b]);
    }

    // ---- pointers and inodes ----

    /** Store `next`, a fresh block, as entry pi of the indirect block p, whose contents are
        in buf.  This is the one write that the flush barrier does not cover. */
    method Store(p: nat, buf: Block, pi: nat, next: nat, ghost w: World) returns (ok: bool, ghost w': World)
      requires Ok(w) && g.IsData(p) && IsIndirect(w.tab, p) && buf == disk.blocks[p]
      requires pi < g.nindir && Cell(disk.blocks, p, pi) == 0
      requires g.IsData(next) && w.tab[next].Alloc? && disk.blocks[next] == Zeros(g.bsize)
      modifies this`tick, this`disk, this`log
      ensures old(Faults()) <= Faults() && (!ok <==> old(Faults()) < Faults())
      ensures Ok(w')
      ensures !ok ==> w' == w && disk == old(disk)
      ensures ok ==> disk == old(disk).(blocks := old(disk).blocks[p := SetCell(buf, pi, next)])
      ensures ok ==> w'.tab == w.tab[next := Child(g, w.tab[p], pi)] && w'.segs == w.segs && w'.segsD == w.segsD
      ensures ok ==>
              (w'.breach <==> w.breach || (Claimed(g, old(disk).blocks, old(disk).inodes, p) && Listed(w.segsD, next)))
    {
      hide Sound, Guarded, NeverD, IsNode, Listed, Claimed, Zeros, LogOk, Child, Cell, SetCell;
      Facts(g, St(), w);
      ghost var st1;
      st1, w' := StoreStep(g, St(), w, p, pi, next, log);
      ok := WriteBlock(p, SetCell(buf, pi, next));
      if !ok {
        return false, w;
      }
    }

    /** Allocate a block and store it as entry pi of p. */
    method Extend(p: nat, buf: Block, pi: nat, ghost w: World) returns (rc: Errno, next: nat, ghost w': World)
      requires Ok(w) && g.IsData(p) && IsIndirect(w.tab, p) && buf == disk.blocks[p]
      requires pi < g.nindir && Cell(disk.blocks, p, pi) == 0
      modifies this, free
      ensures old(Faults()) <= Faults() && (rc == EIO <==> old(Faults()) < Faults())
      ensures Ok(w')
      ensures rc == OK ==> Extended(g, old(St()), w, St(), w', p, pi, next)
      ensures rc != OK ==>
              Grows(g, old(St()), w, St(), w', w.tab[p].ino, -1) && NoNewClaims(g, old(disk), disk) && NoneOwned(w, w')
      ensures !Claimed(g, old(disk).blocks, old(disk).inodes, p) || rc != OK ==> w'.breach == w.breach
      ensures rc == OK ==> NoLoss(w.tab, w'.tab)
      ensures Faults() == old(Faults()) ==> Spent(w, old(tfree), w', tfree, 1)
      ensures rc == ENOSPC ==> Stack(w'.segs) == []
      ensures rc in {OK, ENOSPC, EIO}
    {
      hide Sound, Guarded, NeverD, IsNode, Listed, Claimed, Zeros, Stack, LogOk, Grows, NoNewClaims, Spent, Failures;
      ghost var st0 := St();
      Facts(g, st0, w);
      rc, next, w' := Balloc(w);
      ghost var st1, w1 := St(), w';
      AllocGrows(g, st0, w, st1, w1, w.tab[p].ino, -1);
      AllocNoNewClaims(g, st0, w, st1, w1);
      if rc != OK {
        return;
      }
      var ok;
      ok, w' := Store(p, buf, pi, next, w1);
      if !ok {
        return EIO, next, w';
      }
      SpentSegs(w, w1, w', old(tfree), tfree, 1);
      ExtendEffect(g, st0, w, st1, w1, St(), w', p, pi, next);
      UnclaimedStays(g, st0, st1, p);
    }

    method ReadInode(ino: nat) returns (ok: bool, ip: Inode)
      modifies this`tick
      ensures 1 <= ino < |disk.inodes| ==> Faults() == if ok then old(Faults()) else old(Faults()) + 1
      ensures old(Faults()) <= Faults()
      ensures ok ==> 1 <= ino < |disk.inodes| && ip == disk.inodes[ino]
    {
      ok, ip := false, Inode(Unalloc, false, 0, 0, []);
      if 1 <= ino < |disk.inodes| {
        ok := Ready();
        ip := disk.inodes[ino];
      }
    }

    /** Write an inode, the allocator state first. */
    method WriteInode(ino: nat, ip: Inode, ghost w: World) returns (rc: Errno, ghost w': World)
      requires (Ok(w) && InodeOk(g, w.tab, ino, ip)) || ListOk(g, St(), w)
      modifies this`tick, this`disk, this`log, this`dirty
      ensures old(Faults()) <= Faults() && (rc == EIO <==> old(Faults()) < Faults())
      ensures ListOk(g, St(), w') && (old(Ok(w)) && InodeOk(g, w.tab, ino, ip) ==> Ok(w')) && w'.tab == w.tab &&
              w'.segs == w.segs && w'.breach == w.breach
      ensures disk.blocks == old(disk).blocks
      ensures rc == OK ==> 1 <= ino < |old(disk).inodes| && disk.inodes == old(disk).inodes[ino := ip]
      ensures rc != OK ==> disk.inodes == old(disk).inodes
      ensures rc in {OK, EIO, EINVAL} && (rc == EINVAL ==> !(1 <= ino < |old(disk).inodes|))
    {
      hide Sound, ListOk, Guarded, NeverD, LogOk, InodeOk;
      w' := w;
      ghost var safe := Ok(w) && InodeOk(g, w.tab, ino, ip);
      if Ok(w) {
        SoundList(g, St(), w);
      }
      if ino == 0 {
        return EINVAL, w;
      }
      if dirty {
        var ok;
        ok, w' := FlushFirst(w);
        if !ok {
          return EIO, w;
        }
      }
      if ino >= |disk.inodes| {
        return EINVAL, w';
      }
      var ok := PutInode(ino, ip, safe, w');
      rc := if ok then OK else EIO;
    }

    /** Allocator state before reference. */
    method FlushFirst(ghost w: World) returns (ok: bool, ghost w': World)
      requires ListOk(g, St(), w)
      modifies this`disk, this`log, this`dirty, this`tick
      ensures ListOk(g, St(), w') && (old(Ok(w)) ==> Ok(w')) && w' == w.(segsD := w'.segsD)
      ensures disk.blocks == old(disk).blocks && disk.inodes == old(disk).inodes
      ensures ok ==> !dirty && Faults() == old(Faults())
      ensures !ok ==> w' == w && St() == old(St()) && Faults() == old(Faults()) + 1
    {
      hide Sound, ListOk, Guarded, NeverD, LogOk;
      ghost var log0, st0 := log, St();
      w' := w;
      ghost var st1, w1 := Flush(g, st0, w);
      ok := SuperWrite();
      if ok {
        w' := w1;
        if old(Ok(w)) {
          Logged(w, w', log0);
        }
      }
    }

    method PutInode(ino: nat, ip: Inode, ghost safe: bool, ghost w: World) returns (ok: bool)
      requires ListOk(g, St(), w) && 1 <= ino < |disk.inodes| && !dirty &&
               (safe ==> Ok(w) && InodeOk(g, w.tab, ino, ip))
      modifies this`disk, this`log, this`tick
      ensures ListOk(g, St(), w) && (safe ==> Ok(w))
      ensures disk == old(disk).(inodes := if ok then old(disk).inodes[ino := ip] else old(disk).inodes)
      ensures Faults() == if ok then old(Faults()) else old(Faults()) + 1
    {
      hide Sound, ListOk, Guarded, NeverD, LogOk, InodeOk;
      ok := Ready();
      if !ok {
        return;
      }
      ghost var log1 := log;
      if safe {
        ghost var st2 := PersistInode(g, St(), w, ino, ip);
      }
      ListInodes(g, St(), w, ino, ip);
      disk := disk.(inodes := disk.inodes[ino := ip]);
      log := log + [disk];
      if safe {
        Logged(w, w, log1);
      }
    }

    // ---- block map ----

    /** One level of the walk: the entry of blk, allocated if it is missing and wanted. */
    method BmapLevel(blk: nat, index: nat, create: bool, ghost st0: State, ghost w0: World,
                     ghost slot: nat, ghost slot': nat, ghost o: Own, ghost r: nat, ghost k: nat, ghost w: World)
      returns (rc: Errno, next: nat, ghost w': World)
      requires Ok(w) && Sound(g, st0, w0) && o.Owned? && 1 <= k <= o.h && index == Digit(g, r, k)
      requires Descending(g, st0, w0, St(), w, slot, slot', o, r, blk, k)
      modifies this, free
      ensures old(Faults()) <= Faults() && (rc == EIO <==> old(Faults()) < Faults())
      ensures Ok(w')
      ensures !create ==> St() == old(St()) && log == old(log) && tfree == old(tfree) && w' == w
      ensures rc != OK ==> Aborted(g, st0, w0, St(), w', slot, slot', o, r)
      ensures rc == OK && next == 0 ==> !create && Walk(g, st0.disk.blocks, slot, o.h, r) == 0
      ensures rc == OK && next != 0 && k > 1 ==> Descending(g, st0, w0, St(), w', slot, slot', o, r, next, k - 1)
      ensures rc == OK && next != 0 && k == 1 ==> Mapped(g, st0, w0, St(), w', slot, slot', o, r, next)
      ensures rc == OK ==> NoLoss(w.tab, w'.tab)
      ensures rc == ENOSPC ==> Walk(g, st0.disk.blocks, slot, o.h, r) == 0
      ensures !create ==> rc in {OK, EIO}
      ensures Faults() == old(Faults()) ==> Spent(w, old(tfree), w', tfree, 1)
      ensures rc == ENOSPC ==> Stack(w'.segs) == []
      ensures rc in {OK, ENOSPC, EIO}
    {
      hide Sound, Guarded, NeverD, Claimed, LogOk, Grows, NoNewClaims, Walk, Hidden, Descending, Aborted, Mapped, RefOk,
           NoneOwned, Spent, Stack;
      ghost var st := St();
      Facts(g, st, w);
      DescendAt(g, st0, w0, st, w, slot, slot', o, r, blk, k);
      w' := w;
      SpentNone(w, w, tfree, 1);
      var ok, buf := ReadBlock(blk);
      if !ok {
        Quiet(g, st, w, o.ino);
        DescendFailed(g, st0, w0, st, w, st, w, slot, slot', o, r, blk, k);
        return EIO, 0, w';
      }
      next := buf[index];
      if next != 0 {
        DescendFound(g, st0, w0, st, w, slot, slot', o, r, blk, k);
        return OK, next, w';
      }
      DescendHole(g, st0, w0, st, w, slot, slot', o, r, blk, k);
      if !create {
        return OK, 0, w';
      }
      rc, next, w' := Extend(blk, buf, index, w);
      if rc != OK {
        DescendFailed(g, st0, w0, st, w, St(), w', slot, slot', o, r, blk, k);
      } else {
        DescendExtended(g, st0, w0, st, w, St(), w', slot, slot', o, r, blk, k, next);
      }
    }

    /** Follow `slot` down to the entry named by the indices, allocating what is missing if
        `create`.  The slot is the root of a tree labelled o, and r the index within it. */
    method BmapIndFollow(slot: nat, levels: nat, indices: seq<nat>, create: bool, ghost o: Own, ghost r: nat,
        ghost w: World)
      returns (rc: Errno, slot': nat, out: nat, ghost w': World)
      requires Ok(w) && o.Owned? && o.h == levels >= 1 && RefOk(g, w.tab, slot, o)
      requires |indices| == levels && forall l :: 0 <= l < levels ==> indices[l] == Digit(g, r, levels - l)
      modifies this, free
      ensures old(Faults()) <= Faults() && (rc == EIO <==> old(Faults()) < Faults())
      ensures Ok(w')
      ensures !create ==> St() == old(St()) && log == old(log) && tfree == old(tfree) && w' == w && slot' == slot
      ensures !create && rc == OK ==> out == Walk(g, disk.blocks, slot, levels, r)
      ensures create && rc == OK ==> Mapped(g, old(St()), w, St(), w', slot, slot', o, r, out)
      ensures create && rc != OK ==> Aborted(g, old(St()), w, St(), w', slot, slot', o, r)
      ensures rc == OK ==> NoLoss(w.tab, w'.tab)
      ensures rc == ENOSPC ==> Walk(g, old(disk).blocks, slot, levels, r) == 0
      ensures !create ==> rc in {OK, EIO}
      ensures Faults() == old(Faults()) ==> Spent(w, old(tfree), w', tfree, levels + 1)
      ensures rc == ENOSPC ==> Stack(w'.segs) == []
      ensures rc in {OK, ENOSPC, EIO}
    {
      hide Sound, Guarded, NeverD, Claimed, Zeros, Stack, LogOk, Grows, NoNewClaims, Walk, Hidden, Descending, Aborted,
           RefOk, Spent;
      ghost var st0 := St();
      Facts(g, st0, w);
      Nothing(g, st0, w, slot, o, r);
      slot', w' := slot, w;
      SpentNone(w, w, tfree, levels + 1);
      SpentNone(w, w, tfree, 1);
      var blk := slot;
      if blk == 0 {
        if !create {
          return OK, slot', 0, w';
        }
        rc, blk, w' := RootBlock(o, r, w);
        if rc != OK {
          if Faults() == old(Faults()) {
            SpentMore(w, old(tfree), w', tfree, 1, levels + 1);
          }
          return rc, slot', 0, w';
        }
        slot' := blk;
      } else {
        DescendStart(g, st0, w, slot, o, r);
      }
      var l := 0;
      while true
        invariant 0 <= l < levels
        invariant Ok(w') && Descending(g, st0, w, St(), w', slot, slot', o, r, blk, levels - l)
        invariant !create ==> St() == st0 && log == old(log) && tfree == old(tfree) && w' == w && slot' == slot
        invariant NoLoss(w.tab, w'.tab) && Faults() == old(Faults())
        invariant Spent(w, old(tfree), w', tfree, l + 1)
        decreases levels - l
      {
        ghost var w1, tf1 := w', tfree;
        rc, out, w' := BmapLevel(blk, indices[l], create, st0, w, slot, slot', o, r, levels - l, w');
        if Faults() == old(Faults()) {
          SpentThen(w, old(tfree), w1, tf1, w', tfree, l + 1, 1);
          SpentMore(w, old(tfree), w', tfree, l + 2, levels + 1);
        }
        if rc != OK || out == 0 || l == levels - 1 {
          return;
        }
        blk, l := out, l + 1;
      }
    }

    /** A fresh indirect block for an empty slot. */
    method RootBlock(ghost o: Own, ghost r: nat, ghost w: World) returns (rc: Errno, blk: nat, ghost w': World)
      requires Ok(w) && o.Owned? && o.h >= 1
      modifies this, free
      ensures old(Faults()) <= Faults() && (rc == EIO <==> old(Faults()) < Faults())
      ensures Ok(w')
      ensures rc == OK ==> Descending(g, old(St()), w, St(), w', 0, blk, o, r, blk, o.h)
      ensures rc != OK ==> Aborted(g, old(St()), w, St(), w', 0, 0, o, r)
      ensures rc == OK ==> NoLoss(w.tab, w'.tab)
      ensures Faults() == old(Faults()) ==> Spent(w, old(tfree), w', tfree, 1)
      ensures rc == ENOSPC ==> Stack(w'.segs) == []
      ensures rc in {OK, ENOSPC, EIO}
    {
      hide Sound, Guarded, NeverD, Claimed, Stack, LogOk, Grows, NoNewClaims, Walk, Hidden, Descending, Aborted, Spent;
      ghost var st0 := St();
      rc, blk, w' := Balloc(w);
      ghost var w1 := w';
      Facts(g, St(), w1);
      if rc != OK {
        AllocAborted(g, st0, w, St(), w', 0, o, r);
        return;
      }
      ZerosNoEntries(g, disk.blocks, blk);
      w' := Assign(g, St(), w1, blk, o);
      SpentSegs(w, w1, w', old(tfree), tfree, 1);
      DescendRoot(g, st0, w, St(), w1, o, r, blk, w');
    }

    /** Logical blocks covered by a slot of a level, as the 32-bit product computes it. */
    method SlotSpan(level: nat) returns (span: nat)
      ensures span == Wrap32(Pow(g.nindir, level + 1))
    {
      span := 1;
      for l := 0 to level + 1
        invariant span == Wrap32(Pow(g.nindir, l))
      {
        WrapMul(Pow(g.nindir, l), g.nindir);
        span := Wrap32(span * g.nindir);
      }
    }

    /** The address slot that logical block lbn falls in, and the first block it covers. */
    method FindSlot(large: bool, lbn: nat) returns (slot: nat, base: nat)
      requires g.Valid() && Narrow(g) && lbn < U32
      ensures slot == SlotFor(g, large, lbn, 0) <= g.niaddr
      ensures slot < g.niaddr ==> base == Base(g, large, slot) <= lbn
    {
      hide Narrow, SlotFor, Pow, Span32, Wrap32;
      base := 0;
      slot := 0;
      SlotForStep(g, large, lbn, 0);
      while slot < g.niaddr
        invariant slot <= g.niaddr
        invariant slot < g.niaddr ==> base == Base(g, large, slot) <= lbn
        invariant SlotFor(g, large, lbn, 0) == SlotFor(g, large, lbn, slot)
      {
        SlotForStep(g, large, lbn, slot);
        var level := SlotLevel(g, large, slot);
        var span := 1;
        if level >= 0 {
          span := SlotSpan(level);
        }
        SlotAdvance(g, large, slot, span);
        if lbn < Wrap32(base + span) {
          return;
        }
        base := Wrap32(base + span);
        slot := slot + 1;
      }
      SlotForStep(g, large, lbn, slot);
    }

    /** The entry to follow at each level, top first. */
    method Indices(r: nat, level: nat) returns (idx: seq<nat>)
      requires g.nindir >= 1
      ensures |idx| == level + 1 && forall l :: 0 <= l <= level ==> idx[l] == Digit(g, r, level + 1 - l)
    {
      idx := [];
      for l := 0 to level + 1
        invariant |idx| == l && forall k :: 0 <= k < l ==> idx[k] == Digit(g, r, level + 1 - k)
      {
        var div := 1;
        for d := 0 to level - l
          invariant div == Pow(g.nindir, d)
        {
          div := g.nindir * div;
        }
        idx := idx + [(r / div) % g.nindir];
      }
    }

    /** Map a logical block to a physical block, allocating on `create`. */
    method Bmap(ino: nat, ip: Inode, lbn: nat, create: bool, ghost w: World)
        returns (rc: Errno, ip': Inode, bno: nat, ghost w': World)
      requires Ok(w) && Narrow(g) && InodeOk(g, w.tab, ino, ip) && ip.kind.Data? && lbn < U32
      modifies this, free
      ensures old(Faults()) <= Faults() && (rc == EIO <==> old(Faults()) < Faults())
      ensures Ok(w')
      ensures !create ==>
              St() == old(St()) && log == old(log) && tfree == old(tfree) && w' == w && ip' == ip &&
              (rc == OK ==> bno == MapOf(g, disk.blocks, ip, lbn))
      ensures create && rc == OK ==> BmapDone(g, old(St()), w, St(), w', ino, ip, ip', lbn, bno)
      ensures create && rc != OK ==> BmapFailed(g, old(St()), w, St(), w', ino, ip, ip', lbn)
      ensures rc == EFBIG ==>
              create && SlotFor(g, ip'.large, lbn, 0) == g.niaddr && (g.ilarg && !ip'.large ==> lbn < g.ndaddr)
      ensures create && SlotFor(g, ip'.large, lbn, 0) == g.niaddr ==> rc != OK
      ensures rc == OK ==> NoLoss(w.tab, w'.tab)
      ensures rc in {ENOSPC, EFBIG} ==> MapOf(g, old(disk).blocks, ip, lbn) == 0
      ensures !create ==> rc in {OK, EIO}
      ensures Faults() == old(Faults()) ==> Spent(w, old(tfree), w', tfree, PerBlock(g))
      ensures rc == ENOSPC ==> Stack(w'.segs) == []
      ensures rc in {OK, ENOSPC, EIO, EFBIG}
    {
      hide Sound, Guarded, NeverD, LogOk, BmapDone, BmapFailed, MapOf, InodeOk, Narrow, SlotFor, Spent, Stack;
      ghost var st0 := St();
      if create && g.ilarg && !ip.large && lbn >= g.ndaddr {
        SmallHole(g, st0, w, ino, ip, lbn);
        rc, ip', w' := Promote(ino, ip, lbn, w);
        if rc != OK {
          if Faults() == old(Faults()) {
            SpentMore(w, old(tfree), w', tfree, 1, PerBlock(g));
          }
          bno := 0;
          return;
        }
        ghost var st1, w1, ip1, tf1 := St(), w', ip', tfree;
        PromotedHole(g, st0, w, st1, w1, ino, ip, ip1, lbn);
        rc, ip', bno, w' := BmapSlot(ino, ip', lbn, true, w');
        if Faults() == old(Faults()) {
          SpentThen(w, old(tfree), w1, tf1, w', tfree, 1, PerSlot(g));
        }
        if rc == OK {
          BmapAfter(g, st0, w, st1, w1, St(), w', ino, ip, ip1, ip', lbn, bno);
        } else {
          BmapFailedAfter(g, st0, w, st1, w1, St(), w', ino, ip, ip1, ip', lbn);
        }
      } else {
        rc, ip', bno, w' := BmapSlot(ino, ip, lbn, create, w);
        if Faults() == old(Faults()) {
          SpentMore(w, old(tfree), w', tfree, PerSlot(g), PerBlock(g));
        }
      }
    }

    /** The slot search and the walk of bmap. */
    method BmapSlot(ino: nat, ip: Inode, lbn: nat, create: bool, ghost w: World)
        returns (rc: Errno, ip': Inode, bno: nat, ghost w': World)
      requires Ok(w) && Narrow(g) && InodeOk(g, w.tab, ino, ip) && ip.kind.Data? && lbn < U32
      modifies this, free
      ensures old(Faults()) <= Faults() && (rc == EIO <==> old(Faults()) < Faults())
      ensures Ok(w')
      ensures !create ==>
              St() == old(St()) && log == old(log) && tfree == old(tfree) && w' == w && ip' == ip &&
              (rc == OK ==> bno == MapOf(g, disk.blocks, ip, lbn))
      ensures create && rc == OK ==> BmapDone(g, old(St()), w, St(), w', ino, ip, ip', lbn, bno)
      ensures create && rc != OK ==> BmapFailed(g, old(St()), w, St(), w', ino, ip, ip', lbn)
      ensures ip'.large == ip.large
      ensures rc == EFBIG <==> create && SlotFor(g, ip.large, lbn, 0) == g.niaddr
      ensures rc == OK ==> NoLoss(w.tab, w'.tab)
      ensures rc in {ENOSPC, EFBIG} ==> MapOf(g, old(disk).blocks, ip, lbn) == 0
      ensures !create ==> rc in {OK, EIO}
      ensures Faults() == old(Faults()) ==> Spent(w, old(tfree), w', tfree, PerSlot(g))
      ensures rc == ENOSPC ==> Stack(w'.segs) == []
      ensures rc in {OK, ENOSPC, EIO, EFBIG}
    {
      hide Sound, Guarded, NeverD, LogOk, BmapDone, BmapFailed, Narrow, SlotFor, Mapped, Aborted, Walk, Base, Spent,
           Stack;
      ghost var st0 := St();
      Facts(g, st0, w);
      var slot, base := FindSlot(ip.large, lbn);
      ip', w' := ip, w;
      SpentNone(w, w, tfree, PerSlot(g));
      if slot == g.niaddr {
        Unmapped(g, st0, w, ino, ip, lbn);
        NoSlot(g, disk.blocks, ip, lbn);
        return if create then EFBIG else OK, ip, 0, w;
      }
      var root;
      rc, root, bno,
          w' := SlotWalk(ip.addr[slot], SlotLevel(g, ip.large, slot), lbn - base, create,
          SlotOwner(g, ino, ip.large, slot), w);
      HeightBound(g, ip.large, slot);
      if Faults() == old(Faults()) {
        SpentMore(w, old(tfree), w', tfree, SlotLevel(g, ip.large, slot) + 2, PerSlot(g));
      }
      if !create {
        return;
      }
      ip' := ip.(addr := ip.addr[slot := root]);
      if rc == OK {
        SlotMapped(g, st0, w, St(), w', ino, ip, lbn, slot, root, bno);
      } else {
        SlotAborted(g, st0, w, St(), w', ino, ip, lbn, slot, root);
      }
    }

    /** The block at index r of one slot, direct or indirect. */
    method SlotWalk(a: nat, level: int, r: nat, create: bool, ghost o: Own, ghost w: World)
        returns (rc: Errno, root: nat, bno: nat, ghost w': World)
      requires Ok(w) && o.Owned? && -1 <= level && o.h == level + 1 && RefOk(g, w.tab, a, o)
      modifies this, free
      ensures old(Faults()) <= Faults() && (rc == EIO <==> old(Faults()) < Faults())
      ensures Ok(w')
      ensures !create ==> St() == old(St()) && log == old(log) && tfree == old(tfree) && w' == w && root == a
      ensures !create && rc == OK ==> bno == Walk(g, disk.blocks, a, o.h, r)
      ensures create && rc == OK ==> Mapped(g, old(St()), w, St(), w', a, root, o, r, bno)
      ensures create && rc != OK ==> Aborted(g, old(St()), w, St(), w', a, root, o, r)
      ensures rc == OK ==> NoLoss(w.tab, w'.tab)
      ensures rc == ENOSPC ==> Walk(g, old(disk).blocks, a, o.h, r) == 0
      ensures !create ==> rc in {OK, EIO}
      ensures Faults() == old(Faults()) ==> Spent(w, old(tfree), w', tfree, level + 2)
      ensures rc == ENOSPC ==> Stack(w'.segs) == []
      ensures rc in {OK, ENOSPC, EIO}
    {
      hide Sound, Guarded, NeverD, LogOk, Mapped, Aborted, Walk, NoLoss, Spent, Stack;
      Facts(g, St(), w);
      if level < 0 {
        WalkDirect(g, disk.blocks, a, r);
        rc, root, w' := DirectBlock(a, create, o, r, w);
        bno := root;
      } else {
        var idx := Indices(r, level);
        rc, root, bno, w' := BmapIndFollow(a, level + 1, idx, create, o, r, w);
      }
    }

    /** A direct slot: its block, or a fresh one. */
    method DirectBlock(a: nat, create: bool, ghost o: Own, ghost r: nat, ghost w: World)
        returns (rc: Errno, b: nat, ghost w': World)
      requires Ok(w) && o.Owned? && o.h == 0 && RefOk(g, w.tab, a, o)
      modifies this, free
      ensures old(Faults()) <= Faults() && (rc == EIO <==> old(Faults()) < Faults())
      ensures Ok(w')
      ensures !create ==> St() == old(St()) && log == old(log) && tfree == old(tfree) && w' == w && b == a && rc == OK
      ensures create && rc == OK ==> Mapped(g, old(St()), w, St(), w', a, b, o, r, b)
      ensures create && rc != OK ==> Aborted(g, old(St()), w, St(), w', a, b, o, r)
      ensures rc == OK ==> NoLoss(w.tab, w'.tab)
      ensures rc == ENOSPC ==> a == 0
      ensures Faults() == old(Faults()) ==> Spent(w, old(tfree), w', tfree, 1)
      ensures rc == ENOSPC ==> Stack(w'.segs) == []
      ensures rc in {OK, ENOSPC, EIO}
    {
      hide Sound, Guarded, NeverD, LogOk, Mapped, Aborted, Stack, Spent;
      ghost var st0 := St();
      if a != 0 || !create {
        if a != 0 {
          DirectFound(g, st0, w, a, o, r);
        }
        SpentNone(w, w, tfree, 1);
        return OK, a, w;
      }
      rc, b, w' := Balloc(w);
      ghost var w1 := w';
      Facts(g, St(), w1);
      if rc != OK {
        AllocAborted(g, st0, w, St(), w', 0, o, r);
        return rc, 0, w';
      }
      ZerosNoEntries(g, disk.blocks, b);
      w' := Assign(g, St(), w1, b, o);
      SpentSegs(w, w1, w', old(tfree), tfree, 1);
      DirectMapped(g, st0, w, St(), w1, o, r, b, w');
    }

    /** Move the direct addresses of a small file into the first indirect block. */
    method Promote(ino: nat, ip: Inode, ghost lbn: nat, ghost w: World) returns (rc: Errno, ip': Inode, ghost w': World)
      requires Ok(w) && Narrow(g) && InodeOk(g, w.tab, ino, ip) && ip.kind.Data? && g.ilarg && !ip.large
      modifies this, free
      ensures old(Faults()) <= Faults() && (rc == EIO <==> old(Faults()) < Faults())
      ensures Ok(w') && BmapFailed(g, old(St()), w, St(), w', ino, ip, ip', lbn)
      ensures rc == OK ==> ip'.large && (w.breach ==> w'.breach)
      ensures rc == OK ==> NoLoss(w.tab, w'.tab)
      ensures Faults() == old(Faults()) ==> Spent(w, old(tfree), w', tfree, 1)
      ensures rc == ENOSPC ==> Stack(w'.segs) == []
      ensures rc in {OK, ENOSPC, EIO}
    {
      hide Sound, Guarded, NeverD, LogOk, Stack, BmapFailed, Narrow, InodeOk, Spent, Failures;
      ghost var st0 := St();
      var iblk;
      rc, iblk, w' := Balloc(w);
      ghost var st1, w1, log1 := St(), w', log;
      Facts(g, st1, w1);
      AllocUnmapped(g, st0, w, st1, w1, ino, ip, lbn);
      ip' := ip;
      if rc != OK {
        return;
      }
      AddrCount(g, w.tab, ino, ip);
      var buf := DirectCells(ip);
      var ok := WriteBlock(iblk, buf);
      if !ok {
        return EIO, ip, w';
      }
      ghost var s2;
      s2, w' := Promoted(g, st0, w, st1, w1, ino, ip, iblk, buf, lbn);
      SpentSegs(w, w1, w', old(tfree), tfree, 1);
      Logged(w1, w', log1);
      ip' := PromotedInode(g, ip, iblk);
    }

    /** An indirect block that holds the direct addresses. */
    method DirectCells(ip: Inode) returns (buf: Block)
      requires g.ndaddr <= g.bsize && g.ndaddr <= |ip.addr|
      ensures |buf| == g.bsize
      ensures forall k {:trigger buf[k]} :: 0 <= k < g.bsize ==> buf[k] == if k < g.ndaddr then ip.addr[k] else 0
    {
      buf := Zeros(g.bsize);
      for i := 0 to g.ndaddr
        invariant |buf| == g.bsize
        invariant forall k {:trigger buf[k]} :: 0 <= k < g.bsize ==> buf[k] == if k < i then ip.addr[k] else 0
      {
        buf := SetCell(buf, i, ip.addr[i]);
      }
    }

    // ---- truncation ----

    /** Collect a whole subtree, the children first, the block itself last. */
    method CollectSubtree(blk: nat, level: nat, bl: seq<nat>, ghost o: Own, ghost w: World)
        returns (ok: bool, bl': seq<nat>)
      requires Ok(w) && o.Owned? && o.h == level + 1 && RefOk(g, w.tab, blk, o)
      modifies this`tick
      ensures old(Faults()) <= Faults() && (!ok <==> old(Faults()) < Faults())
      ensures ok ==> multiset(bl') == multiset(bl) + multiset(Claims(g, disk.blocks, blk, o.h))
      decreases level
    {
      hide Sound, Guarded, LogOk, KidClaims, Pow, Claims, Collected, Failures;
      bl' := bl;
      ClaimsOfNone(g, disk.blocks, o.h);
      if blk == 0 {
        return true, bl;
      }
      Facts(g, St(), w);
      var buf;
      ok, buf := ReadBlock(blk);
      if !ok {
        return;
      }
      EntryRefs(g, St(), w, blk);
      CollectedNone(g, disk.blocks, blk, o.h, bl);
      for i := 0 to g.nindir
        invariant Collected(g, disk.blocks, blk, o.h, i, bl, bl') && ok && Faults() == old(Faults())
      {
        var nb := buf[i];
        ghost var was := bl';
        ClaimsOfNone(g, disk.blocks, o.h - 1);
        if nb != 0 {
          if level > 0 {
            ok, bl' := CollectSubtree(nb, level - 1, bl', Child(g, o, i), w);
            if !ok {
              return;
            }
          } else {
            ClaimsOfLeaf(g, disk.blocks, nb);
            bl' := bl' + [nb];
          }
        }
        CollectedStep(g, disk.blocks, blk, o.h, i, bl, was, bl');
      }
      CollectedAll(g, disk.blocks, blk, o.h, bl, bl');
      bl' := bl' + [blk];
    }

    /** Collect the leaves from index skip on of the subtree under blk, zeroing the dropped
        entries on disk before returning.  The block itself is kept. */
    method CollectSubtreeFrom(blk: nat, level: nat, skip: nat, bl: seq<nat>, ghost o: Own, ghost w: World)
        returns (ok: bool, bl': seq<nat>)
      requires Ok(w) && o.Owned? && o.h == level + 1 && blk != 0 && RefOk(g, w.tab, blk, o)
      requires 0 < skip < Pow(g.nindir, level + 1) && Pow(g.nindir, level) < U32
      modifies this`tick, this`disk, this`log
      ensures old(Faults()) <= Faults() && (!ok <==> old(Faults()) < Faults())
      ensures Ok(w) && disk == old(disk).(blocks := disk.blocks)
      ensures CutUnder(g, w.tab, o, o.base + skip, old(disk).blocks, disk.blocks)
      ensures ok ==> ZeroFrom(g, disk.blocks, blk, o.h, skip)
      ensures ok ==>
              multiset(bl') + multiset(Claims(g, disk.blocks, blk, o.h)) == multiset(bl) +
              multiset(Claims(g, old(disk).blocks, blk, o.h))
      decreases level, 2
    {
      hide Sound, Guarded, LogOk, NeverD, Claims, Cutting, CutUnder, ZeroFrom, BufOk, Pow, TreesOk, Listed;
      ghost var st0 := St();
      bl' := bl;
      Facts(g, st0, w);
      CutSelf(g, w.tab, o, o.base + skip, disk.blocks);
      var buf;
      ok, buf := ReadBlock(blk);
      if !ok {
        return;
      }
      var sub := EntrySpan(level);
      var se, sp := skip / sub, skip % sub;
      CutPlan(g, st0, w, o, blk, skip, bl);
      ok, buf, bl' := CutAll(blk, level, skip, se, sp, buf, bl, o, w);
      if !ok {
        return;
      }
      CutDone(g, st0, St(), w, o, blk, skip, buf, bl, bl');
      ok := PutEntries(blk, buf, w);
    }

    /** All entries of a block that straddles the new end. */
    method CutAll(blk: nat, level: nat, skip: nat, se: nat, sp: nat, buf0: Block, bl: seq<nat>, ghost o: Own,
        ghost w: World)
      returns (ok: bool, buf: Block, bl': seq<nat>)
      requires Ok(w) && o.Owned? && o.h == level + 1 && |buf0| == g.bsize
      requires Pow(g.nindir, level) < U32 && se == skip / Pow(g.nindir, level) < g.nindir &&
               sp == skip % Pow(g.nindir, level)
      requires Cutting(g, w.tab, o, blk, se, sp > 0, o.base + skip, disk.blocks, disk.blocks, buf0, 0, bl, bl)
      modifies this`tick, this`disk, this`log
      ensures old(Faults()) <= Faults() && (!ok <==> old(Faults()) < Faults())
      ensures Ok(w) && disk == old(disk).(blocks := disk.blocks)
      ensures CutUnder(g, w.tab, o, o.base + skip, old(disk).blocks, disk.blocks)
      ensures ok ==>
              |buf| == g.bsize &&
              Cutting(g, w.tab, o, blk, se, sp > 0, o.base + skip, old(disk).blocks, disk.blocks, buf, g.nindir, bl,
              bl')
      ensures ok && sp > 0 ==> se < |buf| && ZeroFrom(g, disk.blocks, buf[se], o.h - 1, sp)
      decreases level, 1
    {
      hide Sound, Guarded, LogOk, NeverD, Claims, Cutting, CutUnder, ZeroFrom, BufOk, Pow, TreesOk, Listed;
      ghost var st0 := St();
      bl', buf, ok := bl, buf0, true;
      Facts(g, st0, w);
      CutSelf(g, w.tab, o, o.base + skip, disk.blocks);
      for i := 0 to g.nindir
        invariant Ok(w) && St() == st0.(disk := st0.disk.(blocks := disk.blocks)) && |buf| == g.bsize &&
                  Faults() == old(Faults())
        invariant Cutting(g, w.tab, o, blk, se, sp > 0, o.base + skip, st0.disk.blocks, disk.blocks, buf, i, bl, bl')
        invariant sp > 0 && i > se ==> ZeroFrom(g, disk.blocks, buf[se], o.h - 1, sp)
        invariant CutUnder(g, w.tab, o, o.base + skip, st0.disk.blocks, disk.blocks)
      {
        ok, buf, bl' := CutOne(blk, level, skip, se, sp, i, buf, bl', st0, bl, o, w);
        if !ok {
          return;
        }
      }
      ok := true;
    }

    /** Leaves per entry of a block at `level`. */
    method EntrySpan(level: nat) returns (sub: nat)
      requires Pow(g.nindir, level) < U32
      ensures sub == Pow(g.nindir, level)
    {
      sub := 1;
      if level > 0 {
        sub := SlotSpan(level - 1);
        ModBelow(Pow(g.nindir, level), U32);
      }
    }

    /** Write back an indirect block some of whose entries were dropped. */
    method PutEntries(blk: nat, buf: Block, ghost w: World) returns (ok: bool)
      requires Ok(w) && g.IsData(blk) && IsIndirect(w.tab, blk) && |buf| == g.bsize
      requires forall i: nat {:trigger buf[i]} :: i < g.nindir && i < |buf| ==>
               buf[i] == Cell(disk.blocks, blk, i) || buf[i] == 0
      modifies this`tick, this`disk, this`log
      ensures old(Faults()) <= Faults() && (!ok <==> old(Faults()) < Faults())
      ensures Ok(w)
      ensures ok ==> blk < |old(disk).blocks| && disk == old(disk).(blocks := old(disk).blocks[blk := buf])
      ensures !ok ==> disk == old(disk)
    {
      hide Sound, Guarded, LogOk, NeverD, Claims, TreesOk, Listed, RefOk;
      ghost var st1, log1 := St(), log;
      Facts(g, st1, w);
      ok := WriteBlock(blk, buf);
      if ok {
        ghost var st2 := WriteIndirect(g, st1, w, blk, buf, 0);
        Dropped(g, st1, w);
        Logged(w, w, log1);
      }
    }

    /** One entry of a block that straddles the new end: kept, cut in place, or dropped. */
    method CutOne(blk: nat, level: nat, skip: nat, se: nat, sp: nat, i: nat, buf: Block, bl: seq<nat>,
                  ghost st0: State, ghost bl0: seq<nat>, ghost o: Own, ghost w: World)
                      returns (ok: bool, buf': Block, bl': seq<nat>)
      requires Ok(w) && Sound(g, st0, w) && St() == st0.(disk := st0.disk.(blocks := disk.blocks))
      requires o.Owned? && o.h == level + 1 && i < g.nindir && |buf| == g.bsize
      requires Pow(g.nindir, level) < U32 && se == skip / Pow(g.nindir, level) < g.nindir &&
               sp == skip % Pow(g.nindir, level)
      requires Cutting(g, w.tab, o, blk, se, sp > 0, o.base + skip, st0.disk.blocks, disk.blocks, buf, i, bl0, bl)
      requires sp > 0 && i > se ==> ZeroFrom(g, disk.blocks, buf[se], o.h - 1, sp)
      requires CutUnder(g, w.tab, o, o.base + skip, st0.disk.blocks, disk.blocks)
      modifies this`tick, this`disk, this`log
      ensures old(Faults()) <= Faults() && (!ok <==> old(Faults()) < Faults())
      ensures Ok(w) && St() == st0.(disk := st0.disk.(blocks := disk.blocks))
      ensures CutUnder(g, w.tab, o, o.base + skip, st0.disk.blocks, disk.blocks)
      ensures ok ==>
              |buf'| == g.bsize &&
              Cutting(g, w.tab, o, blk, se, sp > 0, o.base + skip, st0.disk.blocks, disk.blocks, buf', i + 1, bl0, bl')
      ensures ok && sp > 0 && i + 1 > se ==> ZeroFrom(g, disk.blocks, buf'[se], o.h - 1, sp)
      decreases level, 0
    {
      hide Sound, Guarded, LogOk, NeverD, Claims, Cutting, CutUnder, ZeroFrom, BufOk, Pow, TreesOk, RefOk;
      ghost var cut := o.base + skip;
      ok, buf', bl' := true, buf, bl;
      Facts(g, st0, w);
      var nb := buf[i];
      CutEntry(g, St(), w, o, blk, se, sp > 0, cut, st0, buf, i, bl0, bl);
      if nb == 0 || i < se {
        CuttingKeep(g, w.tab, o, blk, se, sp > 0, cut, st0.disk.blocks, disk.blocks, buf, i, bl0, bl);
        ZeroHole(g, disk.blocks, o.h - 1, sp);
      } else if i == se && sp > 0 {
        CutBelow(g, o, skip);
        PowBelow(g.nindir, level - 1);
        ok, bl' := CollectSubtreeFrom(nb, level - 1, sp, bl, Child(g, o, i), w);
        CutChild(g, w.tab, o, i, cut, st0.disk.blocks, disk.blocks);
        if ok {
          CuttingPartial(g, w.tab, o, blk, se, cut, st0.disk.blocks, disk.blocks, buf, bl0, bl, bl');
        }
      } else {
        if level == 0 {
          ClaimsOfLeaf(g, disk.blocks, nb);
          bl' := bl + [nb];
        } else {
          ok, bl' := CollectSubtree(nb, level - 1, bl, Child(g, o, i), w);
        }
        if ok {
          CuttingDrop(g, w.tab, o, blk, se, sp > 0, cut, st0.disk.blocks, disk.blocks, buf, i, bl0, bl, bl');
          buf' := SetCell(buf, i, 0);
        }
      }
    }


    /** Collect the blocks from logical block firstBlk on. */
    method ItruncFrom(ino: nat, ip: Inode, firstBlk: nat, ghost w: World) returns (ok: bool, ip': Inode, bl: seq<nat>)
      requires Ok(w) && Narrow(g) && InodeOk(g, w.tab, ino, ip) && ip.kind.Data? && firstBlk < U32
      modifies this`tick, this`disk, this`log
      ensures old(Faults()) <= Faults() && (!ok <==> old(Faults()) < Faults())
      ensures Ok(w) && disk == old(disk).(blocks := disk.blocks) &&
              Shorn(g, w.tab, ino, firstBlk, old(disk).blocks, disk.blocks)
      ensures ok ==> Truncated(g, w.tab, ino, firstBlk, old(disk).blocks, ip, disk.blocks, ip', bl)
    {
      hide Sound, Guarded, LogOk, NeverD, Shorn, Shearing, Base, Narrow, Height, Truncated, InodeOk, Span32, TreesOk;
      ghost var st0 := St();
      Facts(g, st0, w);
      ok, ip', bl := true, ip, [];
      var lbn := 0;
      ShornSelf(g, w.tab, ino, firstBlk, disk.blocks);
      ShearingStart(g, w.tab, ino, firstBlk, disk.blocks, ip, []);
      BaseOfFirst(g, ip.large);
      for i := 0 to g.niaddr
        invariant Ok(w) && St() == st0.(disk := st0.disk.(blocks := disk.blocks)) && Faults() == old(Faults())
        invariant Shearing(g, w.tab, ino, firstBlk, st0.disk.blocks, ip, [], disk.blocks, ip', bl, i)
        invariant i < g.niaddr ==> lbn == Base(g, ip.large, i)
        invariant ip'.large == ip.large && ip'.kind == ip.kind
      {
        var level := SlotLevel(g, ip.large, i);
        var span := 1;
        if level >= 0 {
          span := SlotSpan(level);
        }
        SlotAdvance(g, ip.large, i, span);
        if Wrap32(lbn + span) <= firstBlk {
          KeepSlot(g, w.tab, ino, firstBlk, st0.disk.blocks, ip, [], disk.blocks, ip', bl, i);
        } else {
          ok, ip', bl := ItruncSlot(ino, ip, ip', firstBlk, i, lbn, level, bl, st0, w);
          if !ok {
            return;
          }
        }
        lbn := Wrap32(lbn + span);
      }
      ok := true;
      TruncatedAll(g, st0, w, ino, firstBlk, ip, St(), ip', bl);
    }

    /** One slot that reaches past firstBlk. */
    method ItruncSlot(ino: nat, ip0: Inode, ip: Inode, firstBlk: nat, i: nat, lbn: nat, level: int, bl: seq<nat>,
        ghost st0: State, ghost w: World)
      returns (ok: bool, ip': Inode, bl': seq<nat>)
      requires Ok(w) && Narrow(g) && ip.kind.Data? && i < g.niaddr &&
               St() == st0.(disk := st0.disk.(blocks := disk.blocks))
      requires Shearing(g, w.tab, ino, firstBlk, st0.disk.blocks, ip0, [], disk.blocks, ip, bl, i)
      requires lbn == Base(g, ip.large, i) && level == SlotLevel(g, ip.large, i)
      requires firstBlk < lbn + Span32(g, ip.large, i)
      modifies this`tick, this`disk, this`log
      ensures old(Faults()) <= Faults() && (!ok <==> old(Faults()) < Faults())
      ensures Ok(w) && St() == st0.(disk := st0.disk.(blocks := disk.blocks)) && ip'.large == ip.large &&
              ip'.kind == ip.kind
      ensures Shorn(g, w.tab, ino, firstBlk, st0.disk.blocks, disk.blocks)
      ensures ok ==> Shearing(g, w.tab, ino, firstBlk, st0.disk.blocks, ip0, [], disk.blocks, ip', bl', i + 1)
    {
      hide Sound, Guarded, LogOk, NeverD, Shorn, Shearing, Base, Narrow, Claims, TreesOk, ZeroFrom, CutUnder, Pow,
           Span32;
      ok, ip', bl' := true, ip, bl;
      ghost var blocks0 := disk.blocks;
      Facts(g, St(), w);
      SlotAt(g, St(), w, ino, firstBlk, st0.disk.blocks, ip0, ip, bl, i);
      var a := ip.addr[i];
      if a == 0 {
        KeepSlot(g, w.tab, ino, firstBlk, st0.disk.blocks, ip0, [], disk.blocks, ip, bl, i);
      } else if level < 0 {
        DirectSpan(g, ip.large, i);
        ClaimsOfLeaf(g, disk.blocks, a);
        bl' := bl + [a];
        DropSlot(g, w.tab, ino, firstBlk, st0.disk.blocks, ip0, [], disk.blocks, ip, bl, i, bl');
        ip' := ip.(addr := ip.addr[i := 0]);
      } else if lbn >= firstBlk {
        ok, bl' := CollectSubtree(a, level, bl, SlotOwner(g, ino, ip.large, i), w);
        if ok {
          DropSlot(g, w.tab, ino, firstBlk, st0.disk.blocks, ip0, [], disk.blocks, ip, bl, i, bl');
          ip' := ip.(addr := ip.addr[i := 0]);
        }
      } else {
        StraddleSpan(g, ip.large, i, firstBlk);
        ok, bl' := CollectSubtreeFrom(a, level, firstBlk - lbn, bl, SlotOwner(g, ino, ip.large, i), w);
        ShornThen(g, w.tab, SlotOwner(g, ino, ip.large, i), firstBlk, st0.disk.blocks, blocks0, disk.blocks);
        if ok {
          CutSlot(g, w.tab, ino, firstBlk, st0.disk.blocks, ip0, [], blocks0, ip, bl, i, disk.blocks, bl');
        }
      }
    }

    /** Collect every block of an inode, the last slot first.  A device inode is left alone. */
    method Itrunc(ino: nat, ip: Inode, ghost w: World) returns (ok: bool, ip': Inode, bl: seq<nat>)
      requires Ok(w) && InodeOk(g, w.tab, ino, ip)
      modifies this`tick
      ensures old(Faults()) <= Faults() && (!ok <==> old(Faults()) < Faults())
      ensures ok && ip.kind.Data? ==> ip' == ip.(size := 0, addr := seq(g.niaddr, _ => 0))
      ensures ok && !ip.kind.Data? ==> ip' == ip
      ensures ok ==> multiset(bl) == multiset(InodeClaims(g, disk.blocks, ip))
    {
      hide Sound, Guarded, LogOk, NeverD, Claims, TreesOk, Pow, SlotsClaims, Height;
      Facts(g, St(), w);
      ok, ip', bl := true, ip, [];
      if !ip.kind.Data? {
        return;
      }
      var i := g.niaddr;
      while i > 0
        invariant ok && Faults() == old(Faults()) && i <= g.niaddr && ip' == ip.(addr := ip'.addr) &&
                  |ip'.addr| == g.niaddr
        invariant forall s {:trigger ip'.addr[s]} :: 0 <= s < g.niaddr ==>
                  ip'.addr[s] == if s < i then ip.addr[s] else 0
        invariant multiset(bl) + multiset(InodeClaims(g, disk.blocks, ip')) == multiset(InodeClaims(g, disk.blocks, ip))
      {
        i := i - 1;
        var bn := ip'.addr[i];
        if bn != 0 {
          ghost var was, bl0 := ip', bl;
          ip' := ip'.(addr := ip'.addr[i := 0]);
          ok, bl := CollectSlot(ino, ip, i, bn, bl, w);
          if !ok {
            return;
          }
          EmptySlot(g, disk.blocks, ip, was, i, bl0, bl);
        }
      }
      assert ip'.addr == seq(g.niaddr, _ => 0);
      NoClaims(g, disk.blocks, ip', 0);
      ip' := ip'.(size := 0);
    }

    method CollectSlot(ino: nat, ip: Inode, i: nat, bn: nat, bl: seq<nat>, ghost w: World)
        returns (ok: bool, bl': seq<nat>)
      requires Ok(w) && InodeOk(g, w.tab, ino, ip) && ip.kind.Data? && i < g.niaddr && bn == ip.addr[i] != 0
      modifies this`tick
      ensures old(Faults()) <= Faults() && (!ok <==> old(Faults()) < Faults())
      ensures ok ==> multiset(bl') == multiset(bl) + multiset(Claims(g, disk.blocks, bn, Height(g, ip.large, i)))
    {
      hide Sound, Guarded, LogOk, NeverD, Claims, TreesOk, Pow;
      var level := SlotLevel(g, ip.large, i);
      if level < 0 {
        ClaimsOfLeaf(g, disk.blocks, bn);
        return true, bl + [bn];
      }
      ok, bl' := CollectSubtree(bn, level, bl, SlotOwner(g, ino, ip.large, i), w);
    }
  }

  /** The list does not depend on the inode table. */
  lemma ListInodes(g: Geometry, st: State, w: World, ino: nat, ip: Inode)
    requires ListOk(g, st, w) && ino < |st.disk.inodes|
    ensures ListOk(g, st.(disk := st.disk.(inodes := st.disk.inodes[ino := ip])), w)
  {
  }

  /** 0 is never listed, so a write that only zeroes entries is covered by the barrier. */
  lemma Dropped(g: Geometry, st: State, w: World)
    requires Inv(g, st, w)
    ensures !w.breach ==> !Listed(w.segsD, 0)
  {
  }

  lemma EntryRefs(g: Geometry, st: State, w: World, b: nat)
    requires Sound(g, st, w) && IsIndirect(w.tab, b) && b < |st.disk.blocks|
    ensures forall i: nat {:trigger st.disk.blocks[b][i]} :: i < g.nindir && i < |st.disk.blocks[b]| ==>
              RefOk(g, w.tab, st.disk.blocks[b][i], Child(g, w.tab[b], i)) &&
                  Cell(st.disk.blocks, b, i) == st.disk.blocks[b][i]
  {
    forall i: nat {:trigger st.disk.blocks[b][i]} | i < g.nindir && i < |st.disk.blocks[b]|
      ensures RefOk(g, w.tab, st.disk.blocks[b][i], Child(g, w.tab[b], i))
    {
      assert RefOk(g, w.tab, Cell(st.disk.blocks, b, i), Child(g, w.tab[b], i));
    }
  }

  lemma Quiet(g: Geometry, st: State, w: World, ino: nat)
    requires Sound(g, st, w)
    ensures Grows(g, st, w, st, w, ino, -1) && NoNewClaims(g, st.disk, st.disk) && NoneOwned(w, w)
  {
    GrowsSelf(g, st, w, ino, -1);
  }

  lemma UnclaimedStays(g: Geometry, st: State, st': State, p: nat)
    requires NoNewClaims(g, st.disk, st'.disk)
    ensures !Claimed(g, st.disk.blocks, st.disk.inodes, p) ==> !Claimed(g, st'.disk.blocks, st'.disk.inodes, p)
  {
  }

  lemma StoreStep(g: Geometry, st: State, w: World, p: nat, pi: nat, next: nat, log: seq<Image>)
      returns (st': State, w': World)
    requires Inv(g, st, w) && LogOk(g, log, w.breach)
    requires g.IsData(p) && IsIndirect(w.tab, p) && pi < g.nindir && Cell(st.disk.blocks, p, pi) == 0
    requires g.IsData(next) && w.tab[next].Alloc? && st.disk.blocks[next] == Zeros(g.bsize)
    ensures st' == st.(disk := st.disk.(blocks := st.disk.blocks[p := SetCell(st.disk.blocks[p], pi, next)]))
    ensures Inv(g, st', w') && LogOk(g, log + [st'.disk], w'.breach)
    ensures w'.tab == w.tab[next := Child(g, w.tab[p], pi)] && w'.segs == w.segs && w'.segsD == w.segsD
    ensures w'.breach <==> w.breach || (Claimed(g, st.disk.blocks, st.disk.inodes, p) && Listed(w.segsD, next))
  {
    hide Sound, Guarded, NeverD, IsNode, Listed, Claimed, LogOk, Pow, Zeros, NoEntries, EntriesOk;
    Facts(g, st, w);
    ZerosNoEntries(g, st.disk.blocks, next);
    var v := SetCell(st.disk.blocks[p], pi, next);
    var w1 := Assign(g, st, w, next, Child(g, w.tab[p], pi));
    st' := WriteIndirect(g, st, w1, p, v, next);
    if Claimed(g, st.disk.blocks, st.disk.inodes, p) && Listed(w.segsD, next) {
      w' := w1.(breach := true);
      SoundAnyway(g, st', w1);
      if !w.breach {
        BreachIsD(g, st, w, p, pi, next, st');
      }
      LogAppend(g, log, st'.disk, w.breach, true);
    } else {
      w' := w1;
      if !w.breach {
        GuardedNeverD(g, st', w1);
      }
      LogAppend(g, log, st'.disk, w.breach, w.breach);
    }
  }

  lemma LogAppend(g: Geometry, log: seq<Image>, img: Image, breach: bool, breach': bool)
    requires LogOk(g, log, breach) && if breach then breach' else breach' <==> !NeverD(g, img)
    ensures LogOk(g, log + [img], breach')
  {
    var log' := log + [img];
    if breach {
      var k :| 0 <= k < |log| && !NeverD(g, log[k]);
      assert log'[k] == log[k];
    } else {
      assert log'[|log|] == img;
    }
  }

  lemma StackPop(g: Geometry, segs: seq<seq<nat>>)
    requires Segments(g, segs) && |segs[|segs| - 1]| >= 2
    ensures var top := segs[|segs| - 1];
            Stack(segs) == Stack(DropLast(segs)) + [top[|top| - 1]]
  {
    var n := |segs| - 1;
    var rest := segs[n][..|segs[n]| - 1];
    StackPush(DropLast(segs), segs[n][|segs[n]| - 1]);
    assert rest + [segs[n][|segs[n]| - 1]] == segs[n];
    assert DropLast(segs)[n := segs[n]] == segs;
  }

  lemma SpentSegs(w: World, w1: World, w2: World, tf: nat, tf': nat, k: nat)
    requires w2.segs == w1.segs
    ensures Spent(w, tf, w1, tf', k) ==> Spent(w, tf, w2, tf', k)
  {
  }

  lemma ReloadStack(g: Geometry, segs: seq<seq<nat>>, b: nat)
    requires |segs| >= 2 && segs[|segs| - 1] == [b]
    ensures Stack(segs) == Stack(segs[..|segs| - 1]) + [b]
  {
    var n := |segs| - 1;
    assert segs == segs[..n] + [[b]];
    StackTop(segs[..n], [b]);
  }
}
