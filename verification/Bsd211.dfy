/** 2.11BSD directories (dir_bsd211.c): variable-length records that tile the directory and
    never cross a 512-byte boundary. */
module Bsd211 {
  import opened Geometry
  import Runs

  type Bytes = seq<nat>

  const Chunk: nat := 512
  const Header: nat := 6
  const MinSize: nat := 8
  const MaxName: nat := 63

  datatype Errno = OK | ENOENT | ENAMETOOLONG | EINVAL | EIO

  function Get16(b: Bytes, at: nat): nat
    requires at + 2 <= |b|
  {
    b[at] + 256 * b[at + 1]
  }

  function Put16(b: Bytes, at: nat, v: nat): (r: Bytes)
    requires at + 2 <= |b| && v < 0x1_0000
    ensures |r| == |b| && Get16(r, at) == v
    ensures forall i :: 0 <= i < |b| && i != at && i != at + 1 ==> r[i] == b[i]
  {
    DivMod(v, 256);
    b[..at] + [v % 256, v / 256] + b[at + 2..]
  }

  function Ino(b: Bytes, off: nat): nat
    requires off + Header <= |b|
  {
    Get16(b, off)
  }

  function RecLen(b: Bytes, off: nat): nat
    requires off + Header <= |b|
  {
    Get16(b, off + 2)
  }

  function NamLen(b: Bytes, off: nat): nat
    requires off + Header <= |b|
  {
    Get16(b, off + 4)
  }

  /** A record at off that a walk accepts. */
  predicate Record(b: Bytes, off: nat) {
    && off % 4 == 0 && off + Header <= |b|
    && var reclen, namlen := RecLen(b, off), NamLen(b, off);
    && MinSize <= reclen && reclen % 4 == 0 && off + reclen <= |b|
    && namlen + 7 <= reclen && namlen <= MaxName
    && off % Chunk + reclen <= Chunk
  }

  function Name(b: Bytes, off: nat): Bytes
    requires Record(b, off)
  {
    b[off + Header..off + Header + NamLen(b, off)]
  }

  function Next(b: Bytes, off: nat): (next: nat)
    requires Record(b, off)
    ensures off < next <= |b|
  {
    off + RecLen(b, off)
  }

  datatype Entry = Entry(ino: nat, name: Bytes)

  /** What the record at off lists: nothing if it is free. */
  function Listed(b: Bytes, off: nat): seq<Entry>
    requires Record(b, off)
  {
    if Ino(b, off) == 0 then [] else [Entry(Ino(b, off), Name(b, off))]
  }

  /** The entries from off on, up to the first record that is not acceptable. */
  function Entries(b: Bytes, off: nat): seq<Entry>
    decreases |b| - off
  {
    if Record(b, off) then Listed(b, off) + Entries(b, Next(b, off)) else []
  }

  /** The records from off on tile the directory to its end. */
  predicate Tiles(b: Bytes, off: nat)
    decreases |b| - off
  {
    off == |b| || (Record(b, off) && Tiles(b, Next(b, off)))
  }

  /** A walk from off comes to the record at `at`. */
  predicate Reaches(b: Bytes, off: nat, at: nat)
    decreases |b| - off
  {
    off == at || (Record(b, off) && Reaches(b, Next(b, off), at))
  }

  /** Where the whole-buffer walk from off ends. */
  function End(b: Bytes, off: nat): nat
    decreases |b| - off
  {
    if Record(b, off) then End(b, Next(b, off)) else off
  }

  lemma {:induction false} EndReached(b: Bytes, off: nat, at: nat)
    requires Reaches(b, off, at) && !Record(b, at)
    ensures End(b, off) == at
    decreases |b| - off
  {
    if off != at {
      EndReached(b, Next(b, off), at);
    }
  }

  lemma {:induction false} ReachesLater(b: Bytes, off: nat, at: nat)
    requires Reaches(b, off, at)
    ensures off <= at
    decreases |b| - off
  {
    if off != at {
      ReachesLater(b, Next(b, off), at);
    }
  }

  lemma {:induction false} ReachesStep(b: Bytes, off: nat, at: nat)
    requires Reaches(b, off, at) && Record(b, at)
    ensures Reaches(b, off, Next(b, at))
    decreases |b| - off
  {
    if off != at {
      ReachesStep(b, Next(b, off), at);
    }
  }

  // ---- what a walk sees depends on the bytes it passes ----

  ghost predicate Agree(b: Bytes, b': Bytes, lo: nat, hi: nat) {
    hi <= |b| && hi <= |b'| && forall i {:trigger b'[i]} :: lo <= i < hi ==> b'[i] == b[i]
  }

  lemma RecordAgree(b: Bytes, b': Bytes, off: nat)
    requires Record(b, off) && Agree(b, b', off, Next(b, off))
    ensures Record(b', off) && Next(b', off) == Next(b, off) && Listed(b', off) == Listed(b, off)
  {
    assert Get16(b', off) == Get16(b, off) && Get16(b', off + 2) == Get16(b, off + 2) &&
           Get16(b', off + 4) == Get16(b, off + 4);
    assert Name(b', off) == Name(b, off);
  }

  lemma {:induction false} WalkAgree(b: Bytes, b': Bytes, off: nat)
    requires |b'| == |b| && Agree(b, b', off, |b|)
    ensures Entries(b', off) == Entries(b, off) && (Tiles(b, off) ==> Tiles(b', off))
    decreases |b| - off
  {
    if Record(b, off) {
      RecordAgree(b, b', off);
      WalkAgree(b, b', Next(b, off));
    } else if Record(b', off) {
      RecordAgree(b', b, off);
      assert false;
    }
  }

  /** What the records from off up to the one at `at` list. */
  function Until(b: Bytes, off: nat, at: nat): seq<Entry>
    requires Reaches(b, off, at)
    decreases |b| - off
  {
    if off == at then [] else Listed(b, off) + Until(b, Next(b, off), at)
  }

  /** The listing up to a record, and from there. */
  lemma {:induction false} EntriesAt(b: Bytes, off: nat, at: nat)
    requires Reaches(b, off, at)
    ensures Entries(b, off) == Until(b, off, at) + Entries(b, at)
    decreases |b| - off
  {
    hide Record, Listed;
    if off != at {
      EntriesAt(b, Next(b, off), at);
      assert Listed(b, off) + (Until(b, Next(b, off), at) + Entries(b, at)) == Until(b, off, at) + Entries(b, at);
    }
  }

  /** The bytes before a record decide how the walk gets there. */
  lemma {:induction false} UntilAgree(b: Bytes, b': Bytes, off: nat, at: nat)
    requires Reaches(b, off, at) && Agree(b, b', 0, at)
    ensures Reaches(b', off, at) && Until(b', off, at) == Until(b, off, at)
    ensures Tiles(b', at) ==> Tiles(b', off)
    decreases |b| - off
  {
    hide Record, Listed, Agree;
    if off != at {
      ReachesLater(b, Next(b, off), at);
      AgreePart(b, b', off, at);
      RecordAgree(b, b', off);
      UntilAgree(b, b', Next(b, off), at);
    }
  }

  /** One record is rewritten in place, with the length it had: what it lists is replaced in the
      listing, and nothing else changes. */
  lemma RewriteAt(b: Bytes, b': Bytes, at: nat)
    requires Reaches(b, 0, at) && Record(b, at) && Record(b', at) && |b'| == |b| && Next(b', at) == Next(b, at)
    requires Agree(b, b', 0, at) && Agree(b, b', Next(b, at), |b|)
    ensures Tiles(b, 0) ==> Tiles(b', 0)
    ensures Entries(b, 0) == Until(b, 0, at) + (Listed(b, at) + Entries(b, Next(b, at)))
    ensures Entries(b', 0) == Until(b, 0, at) + (Listed(b', at) + Entries(b, Next(b, at)))
  {
    hide Record, Listed, Agree, Reaches, Until;
    EntriesAt(b, 0, at);
    UntilAgree(b, b', 0, at);
    EntriesAt(b', 0, at);
    WalkAgree(b, b', Next(b, at));
    if Tiles(b, 0) {
      TilesFrom(b, 0, at);
    }
  }

  lemma AgreePart(b: Bytes, b': Bytes, off: nat, at: nat)
    requires Record(b, off) && Next(b, off) <= at && Agree(b, b', 0, at)
    ensures Agree(b, b', off, Next(b, off))
  {
  }

  /** The last record of a walk may be lengthened, and one record is written after it.  What
      follows that one, on a directory with a damaged tail, is listed after it. */
  lemma AppendAt(b: Bytes, b': Bytes, last: nat, slot: nat)
    requires Reaches(b, 0, last) && Record(b, last) && !Record(b, Next(b, last))
    requires Record(b', last) && Next(b', last) == slot && Listed(b', last) == Listed(b, last)
    requires Record(b', slot) && Agree(b, b', 0, last)
    ensures Entries(b', 0) == Entries(b, 0) + Listed(b', slot) + Entries(b', Next(b', slot))
    ensures Next(b', slot) == |b'| ==> Tiles(b', 0)
  {
    hide Record, Listed, Agree, Reaches, Until, Entries, Tiles;
    EntriesAt(b, 0, last);
    UntilAgree(b, b', 0, last);
    EntriesAt(b', 0, last);
    EntriesStep(b, last, []);
    EntriesEnd(b, Next(b, last));
    EntriesStep(b', last, []);
    EntriesStep(b', slot, []);
    TilesStep(b', last);
    TilesStep(b', slot);
    var u, l, x, y := Until(b, 0, last), Listed(b, last), Listed(b', slot), Entries(b', Next(b', slot));
    assert u + (l + []) == u + l && u + (l + (x + y)) == (u + l) + x + y;
  }

  lemma TilesStep(b: Bytes, off: nat)
    requires Record(b, off)
    ensures Tiles(b, Next(b, off)) ==> Tiles(b, off)
    ensures Tiles(b, |b|)
  {
  }

  // ---- making a record ----

  function DirSiz(namlen: nat): (r: nat)
    ensures r % 4 == 0 && namlen + 7 <= r <= namlen + 10
  {
    (7 + namlen + 3) / 4 * 4
  }

  function Zeros(n: nat): Bytes {
    seq(n, _ => 0)
  }

  function Half(v: nat): Bytes {
    [v % 256, v / 256]
  }

  function Made(ino: nat, reclen: nat, name: Bytes): (r: Bytes)
    requires |name| + Header <= reclen
    ensures |r| == reclen
  {
    Half(ino) + Half(reclen) + Half(|name|) + name + Zeros(reclen - Header - |name|)
  }

  lemma HalfGet(b: Bytes, at: nat, v: nat)
    requires at + 2 <= |b| && b[at] == v % 256 && b[at + 1] == v / 256
    ensures Get16(b, at) == v
  {
    DivMod(v, 256);
  }

  lemma MadeRecord(b: Bytes, off: nat, ino: nat, reclen: nat, name: Bytes)
    requires off % 4 == 0 && |name| + 7 <= reclen && |name| <= MaxName && MinSize <= reclen && reclen % 4 == 0
    requires off + reclen <= |b| && off % Chunk + reclen <= Chunk && b[off..off + reclen] == Made(ino, reclen, name)
    ensures Record(b, off) && Next(b, off) == off + reclen && Ino(b, off) == ino && Name(b, off) == name
  {
    var r := Made(ino, reclen, name);
    forall i | 0 <= i < reclen
      ensures b[off + i] == r[i]
    {
      assert b[off..off + reclen][i] == r[i];
    }
    HalfGet(b, off, ino);
    HalfGet(b, off + 2, reclen);
    HalfGet(b, off + 4, |name|);
    forall i | 0 <= i < |name|
      ensures b[off + Header + i] == name[i]
    {
      assert r[Header + i] == name[i];
    }
    assert b[off + Header..off + Header + |name|] == name;
  }

  // ---- what each edit does ----

  /** Clearing the inode number of a record. */
  lemma Freed(b: Bytes, b': Bytes, off: nat)
    requires Reaches(b, 0, off) && Record(b, off) && Ino(b, off) != 0 && b' == Put16(b, off, 0)
    ensures Tiles(b, 0) ==> Tiles(b', 0)
    ensures var u, rest := Until(b, 0, off), Entries(b, Next(b, off));
            Entries(b, 0) == u + [Entry(Ino(b, off), Name(b, off))] + rest && Entries(b', 0) == u + rest
  {
    hide Until, Entries, Tiles, Reaches;
    assert Get16(b', off + 2) == Get16(b, off + 2) && Get16(b', off + 4) == Get16(b, off + 4);
    RewriteAt(b, b', off);
    var u, x, rest := Until(b, 0, off), [Entry(Ino(b, off), Name(b, off))], Entries(b, Next(b, off));
    assert Listed(b', off) == [] && Listed(b, off) == x;
    assert u + (x + rest) == u + x + rest && u + ([] + rest) == u + rest;
  }

  /** Filling a free record. */
  lemma Reused(b: Bytes, b': Bytes, off: nat, ino: nat, name: Bytes)
    requires Reaches(b, 0, off) && Record(b, off) && Ino(b, off) == 0 && DirSiz(|name|) <= RecLen(b, off)
    requires 1 <= ino && |name| <= MaxName
    requires b' == b[..off] + Made(ino, RecLen(b, off), name) + b[Next(b, off)..]
    ensures Tiles(b, 0) ==> Tiles(b', 0)
    ensures var u, rest := Until(b, 0, off), Entries(b, Next(b, off));
            Entries(b, 0) == u + rest && Entries(b', 0) == u + [Entry(ino, name)] + rest
  {
    hide Until, Entries, Tiles, Reaches;
    var reclen := RecLen(b, off);
    assert b'[off..off + reclen] == Made(ino, reclen, name);
    MadeRecord(b', off, ino, reclen, name);
    RewriteAt(b, b', off);
    var u, x, rest := Until(b, 0, off), [Entry(ino, name)], Entries(b, Next(b, off));
    assert Listed(b, off) == [] && Listed(b', off) == x;
    assert u + (x + rest) == u + x + rest && u + ([] + rest) == u + rest;
  }

  lemma {:induction false} TilesFrom(b: Bytes, off: nat, at: nat)
    requires Tiles(b, off) && Reaches(b, off, at)
    ensures Tiles(b, at)
    decreases |b| - off
  {
    if off != at {
      TilesFrom(b, Next(b, off), at);
    }
  }

  /** The last record fits its chunk when it is lengthened up to the boundary. */
  lemma PadFits(b: Bytes, prev: nat, end: nat)
    requires Record(b, prev) && Next(b, prev) == end && end % Chunk != 0
    ensures var slot := end + (Chunk - end % Chunk);
            prev % Chunk + (slot - prev) == Chunk && slot % Chunk == 0 && slot % 4 == 0 && (slot - prev) % 4 == 0
  {
    RecordShape(b, prev);
    hide Record;
    PadArith(prev, end);
  }

  lemma RecordShape(b: Bytes, off: nat)
    requires Record(b, off)
    ensures off % 4 == 0 && off + Header <= |b| && off < Next(b, off) && Next(b, off) % 4 == 0 &&
            off % Chunk + (Next(b, off) - off) <= Chunk
    ensures NamLen(b, off) + 7 <= Next(b, off) - off
  {
  }

  lemma PadArith(prev: nat, end: nat)
    requires prev < end && prev % 4 == 0 && end % 4 == 0 && prev % 512 + (end - prev) <= 512 && end % 512 != 0
    ensures var slot := end + (512 - end % 512);
            prev % 512 + (slot - prev) == 512 && slot % 512 == 0 && slot % 4 == 0 && (slot - prev) % 4 == 0
  {
    var q, r := prev / 512, prev % 512;
    DivMod(prev, 512);
    var e := r + (end - prev);
    if e == 512 {
      DivUnique(end, 512, q + 1, 0);
    }
    DivUnique(end, 512, q, e);
    var slot := (q + 1) * 512;
    DivUnique(slot, 512, q + 1, 0);
    DivMod(prev, 4);
    DivUnique(slot, 4, 128 * (q + 1), 0);
    DivUnique(slot - prev, 4, 128 * (q + 1) - prev / 4, 0);
  }

  lemma ModOf(q: nat, e: nat)
    requires e < 512
    ensures (512 * q + e) % 512 == e
  {
    DivUnique(512 * q + e, 512, q, e);
  }

  lemma {:induction false} ReachesWithin(b: Bytes, off: nat, at: nat)
    requires Reaches(b, off, at) && off <= |b|
    ensures at <= |b|
    decreases |b| - off
  {
    if off != at {
      ReachesWithin(b, Next(b, off), at);
    }
  }

  /** A record at the end of the walk: it is listed last, before what followed in the bytes. */
  lemma Appended(b: Bytes, b1: Bytes, b': Bytes, ino: nat, name: Bytes, need: nat, prev: nat, end: nat, slot: nat)
    requires Reaches(b, 0, end) && !Record(b, end) && end % 4 == 0
    requires end > 0 ==> Reaches(b, 0, prev) && Record(b, prev) && Next(b, prev) == end
    requires 1 <= ino && Legal(name) && need == DirSiz(|name|)
    requires if end % Chunk != 0 && end % Chunk + need > Chunk
             then end > 0 && slot == end + (Chunk - end % Chunk) && slot - prev < 0x1_0000 &&
                 b1 == Put16(b, prev + 2, slot - prev)
             else slot == end && b1 == b
    requires b' == Runs.Overlay(b1, slot, Made(ino, need, name))
    ensures Entries(b', 0) == Entries(b, 0) + [Entry(ino, name)] + Entries(b', slot + need)
    ensures Tiles(b, 0) ==> Tiles(b', 0) && Entries(b', slot + need) == []
  {
    hide Tiles, Entries, Record, Reaches, Made, Get16;
    ReachesWithin(b, 0, end);
    var r := Made(ino, need, name);
    assert |b1| == |b|;
    OverlayAt(b1, slot, r, end);
    assert slot % 4 == 0 && slot % Chunk + need <= Chunk by {
      if end % Chunk != 0 && end % Chunk + need > Chunk {
        PadFits(b, prev, end);
      }
    }
    MadeRecord(b', slot, ino, need, name);
    MadeListed(b', slot, ino, name);
    if Tiles(b, 0) {
      TilesFrom(b, 0, end);
      AtEnd(b, end);
      PastEnd(b', slot + need);
    }
    if end == 0 {
      Single(b, b');
    } else {
      if slot != end {
        PadFits(b, prev, end);
      }
      RecordShape(b, prev);
      Lengthened(b, b1, b', prev, end, slot);
      AppendAt(b, b', prev, slot);
    }
  }

  lemma OverlayAt(b: Bytes, slot: nat, r: Bytes, end: nat)
    requires end <= |b| && end <= slot
    ensures var b' := Runs.Overlay(b, slot, r);
            && |b'| == (if slot + |r| > |b| then slot + |r| else |b|)
            && b'[slot..slot + |r|] == r && Agree(b, b', 0, end)
  {
  }

  lemma PastEnd(b: Bytes, off: nat)
    requires off >= |b|
    ensures Entries(b, off) == []
  {
  }

  lemma MadeListed(b: Bytes, off: nat, ino: nat, name: Bytes)
    requires Record(b, off) && ino != 0 && Ino(b, off) == ino && Name(b, off) == name
    ensures Listed(b, off) == [Entry(ino, name)]
  {
  }

  lemma AtEnd(b: Bytes, end: nat)
    requires Tiles(b, end) && !Record(b, end)
    ensures end == |b|
  {
  }

  lemma Single(b: Bytes, b': Bytes)
    requires !Record(b, 0) && Record(b', 0)
    ensures Entries(b', 0) == Entries(b, 0) + Listed(b', 0) + Entries(b', Next(b', 0))
    ensures Next(b', 0) == |b'| ==> Tiles(b', 0)
  {
    hide Record, Listed;
    assert Entries(b, 0) + Listed(b', 0) == Listed(b', 0);
  }

  /** The last record, its length changed or not, still lists what it did. */
  lemma Lengthened(b: Bytes, b1: Bytes, b': Bytes, prev: nat, end: nat, slot: nat)
    requires Record(b, prev) && Next(b, prev) == end <= slot <= |b'| && |b1| == |b| && slot - prev < 0x1_0000
    requires slot == end ==> b1 == b
    requires slot != end ==>
             prev % Chunk + (slot - prev) == Chunk && (slot - prev) % 4 == 0 && b1 == Put16(b, prev + 2, slot - prev)
    requires Agree(b1, b', 0, end)
    ensures Record(b', prev) && Next(b', prev) == slot && Listed(b', prev) == Listed(b, prev) && Agree(b, b', 0, prev)
  {
    assert Get16(b', prev) == Get16(b1, prev) && Get16(b', prev + 2) == Get16(b1, prev + 2) &&
           Get16(b', prev + 4) == Get16(b1, prev + 4);
    assert Get16(b1, prev) == Get16(b, prev) && Get16(b1, prev + 4) == Get16(b, prev + 4);
    assert Get16(b1, prev + 2) == slot - prev;
    assert Name(b', prev) == Name(b, prev);
  }

  lemma EntriesStep(b: Bytes, off: nat, name: Bytes)
    requires Record(b, off)
    ensures Entries(b, off) == Listed(b, off) + Entries(b, Next(b, off))
    ensures !(Ino(b, off) != 0 && Name(b, off) == name) ==> Absent(Listed(b, off), name)
  {
  }

  lemma EntriesEnd(b: Bytes, off: nat)
    requires !Record(b, off)
    ensures Entries(b, off) == []
  {
  }

  lemma ReachesSelf(b: Bytes, off: nat)
    ensures Reaches(b, off, off)
  {
  }

  // ---- the operations ----

  predicate Legal(name: Bytes) {
    1 <= |name| <= MaxName && 47 !in name
  }

  ghost predicate Absent(e: seq<Entry>, name: Bytes) {
    forall i {:trigger e[i]} :: 0 <= i < |e| ==> e[i].name != name
  }

  /** Entry k is x, and the first one of that name. */
  ghost predicate First(e: seq<Entry>, k: nat, x: Entry) {
    k < |e| && e[k] == x && Absent(e[..k], x.name)
  }

  /** The record at off is free, and large enough. */
  predicate Spare(b: Bytes, off: nat, need: nat)
    requires Record(b, off)
  {
    Ino(b, off) == 0 && RecLen(b, off) >= need
  }

  /** No record from off up to the one at `at` is. */
  predicate NoSpare(b: Bytes, off: nat, at: nat, need: nat)
    requires Reaches(b, off, at)
    decreases |b| - off
  {
    off == at || (!Spare(b, off, need) && NoSpare(b, Next(b, off), at, need))
  }

  lemma {:induction false} NoSpareStep(b: Bytes, off: nat, at: nat, need: nat)
    requires Reaches(b, off, at) && Record(b, at) && NoSpare(b, off, at, need) && !Spare(b, at, need)
    ensures Reaches(b, off, Next(b, at)) && NoSpare(b, off, Next(b, at), need)
    decreases |b| - off
  {
    hide Spare, Record;
    if off != at {
      NoSpareStep(b, Next(b, off), at, need);
    }
    ReachesStep(b, off, at);
  }

  lemma NoSpareSelf(b: Bytes, need: nat)
    ensures Reaches(b, 0, 0) && NoSpare(b, 0, 0, need)
  {
  }

  /** Where a record of that size goes after the last one: it crosses no boundary. */
  function SlotAfter(end: nat, need: nat): nat {
    if end % Chunk != 0 && end % Chunk + need > Chunk then end + (Chunk - end % Chunk) else end
  }

  /** The first record that is free and large enough was filled, in its place of the listing. */
  ghost predicate Filled(b: Bytes, b': Bytes, x: Entry, at: nat) {
    var need := DirSiz(|x.name|);
    && Reaches(b, 0, at) && Record(b, at) && NoSpare(b, 0, at, need) && Spare(b, at, need) && |b'| == |b|
    && Entries(b, 0) == Until(b, 0, at) + Entries(b, Next(b, at))
    && Entries(b', 0) == Until(b, 0, at) + [x] + Entries(b, Next(b, at))
  }

  /** There was none, and a record was written after the last one.  On a directory whose records
      tile it, nothing follows. */
  ghost predicate Extended(b: Bytes, b': Bytes, x: Entry) {
    var need, end, e, e' := DirSiz(|x.name|), End(b, 0), Entries(b, 0), Entries(b', 0);
    && Reaches(b, 0, end) && NoSpare(b, 0, end, need)
    && |b'| == (if SlotAfter(end, need) + need > |b| then SlotAfter(end, need) + need else |b|)
    && |e| < |e'| && e'[..|e| + 1] == e + [x] && (Tiles(b, 0) ==> |e'| == |e| + 1)
  }

  class Directory {
    var buf: Bytes

    /** The inode of the first entry of that name. */
    method Lookup(name: Bytes) returns (rc: Errno, ino: nat)
      ensures rc == ENOENT <==> Absent(Entries(buf, 0), name)
      ensures rc == OK ==> exists k: nat :: First(Entries(buf, 0), k, Entry(ino, name))
      ensures rc in {OK, ENOENT}
    {
      var off: nat := 0;
      ghost var seen: seq<Entry> := [];
      while Record(buf, off)
        invariant Entries(buf, 0) == seen + Entries(buf, off) && Absent(seen, name)
        decreases |buf| - off
      {
        ghost var here, rest := Listed(buf, off), Entries(buf, Next(buf, off));
        EntriesStep(buf, off, name);
        assert seen + (here + rest) == (seen + here) + rest;
        if Ino(buf, off) != 0 && Name(buf, off) == name {
          ino := Ino(buf, off);
          ghost var all := Entries(buf, 0);
          assert all[|seen|] == Entry(ino, name) && all[..|seen|] == seen;
          assert First(all, |seen|, Entry(ino, name));
          return OK, ino;
        }
        seen := seen + here;
        off := Next(buf, off);
      }
      EntriesEnd(buf, off);
      assert Entries(buf, 0) == seen;
      return ENOENT, 0;
    }

    /** Free the first record of that name. */
    method Remove(name: Bytes) returns (rc: Errno, ghost ino: nat)
      modifies this
      ensures rc == ENOENT <==> Absent(Entries(old(buf), 0), name)
      ensures rc == ENOENT ==> buf == old(buf)
      ensures rc == OK ==> exists k: nat ::
                && First(Entries(old(buf), 0), k, Entry(ino, name))
                && Entries(buf, 0) == Entries(old(buf), 0)[..k] + Entries(old(buf), 0)[k + 1..]
      ensures |buf| == |old(buf)| && (Tiles(old(buf), 0) ==> Tiles(buf, 0))
      ensures rc in {OK, ENOENT}
    {
      hide Entries, Listed, Tiles, Reaches;
      var off: nat := 0;
      ino := 0;
      ghost var seen: seq<Entry> := [];
      ReachesSelf(buf, 0);
      while Record(buf, off)
        invariant buf == old(buf) && Reaches(buf, 0, off)
        invariant Entries(buf, 0) == seen + Entries(buf, off) && Absent(seen, name)
        decreases |buf| - off
      {
        ghost var here, rest := Listed(buf, off), Entries(buf, Next(buf, off));
        EntriesStep(buf, off, name);
        assert seen + (here + rest) == (seen + here) + rest;
        if Ino(buf, off) != 0 && Name(buf, off) == name {
          ino := Ino(buf, off);
          MadeListed(buf, off, ino, name);
          ghost var all, u := Entries(buf, 0), Until(buf, 0, off);
          EntriesAt(buf, 0, off);
          assert |u| == |seen|;
          assert u == all[..|u|] && seen == all[..|seen|];
          buf := Put16(buf, off, 0);
          Freed(old(buf), buf, off);
          assert all == seen + [Entry(ino, name)] + rest;
          assert all[|seen|] == Entry(ino, name) && all[|seen| + 1..] == rest;
          assert First(all, |seen|, Entry(ino, name));
          return OK, ino;
        }
        seen := seen + here;
        ReachesStep(buf, 0, off);
        off := Next(buf, off);
      }
      EntriesEnd(buf, off);
      assert Entries(buf, 0) == seen;
      return ENOENT, 0;
    }

    /** Add an entry: into the first free record that is large enough, or at the end of the walk if
        there is none.  On a directory whose tail is damaged, records that the damage hid may follow again. */
    method Add(ino: nat, name: Bytes) returns (rc: Errno)
      requires 1 <= ino < 0x1_0000
      modifies this
      ensures rc == (if !(1 <= |name| <= MaxName) then ENAMETOOLONG else if 47 in name then EINVAL else OK)
      ensures rc != OK ==> buf == old(buf)
      ensures rc == OK ==>
              var x := Entry(ino, name); (exists at: nat :: Filled(old(buf), buf, x, at)) || Extended(old(buf), buf, x)
      ensures Tiles(old(buf), 0) ==> Tiles(buf, 0)
    {
      if |name| == 0 || |name| > MaxName {
        return ENAMETOOLONG;
      }
      if 47 in name {
        return EINVAL;
      }
      var need := DirSiz(|name|);
      hide Entries, Listed, Tiles, Reaches, Made, Name, Get16, Absent, Record, NoSpare, Filled, Extended;
      var off: nat, prev: nat := 0, 0;
      NoSpareSelf(buf, need);
      while Record(buf, off)
        invariant buf == old(buf) && Reaches(buf, 0, off) && off % 4 == 0 && NoSpare(buf, 0, off, need)
        invariant off > 0 ==> Reaches(buf, 0, prev) && Record(buf, prev) && Next(buf, prev) == off
        decreases |buf| - off
      {
        RecordShape(buf, off);
        if Ino(buf, off) == 0 && RecLen(buf, off) >= need {
          Fill(off, ino, name);
          return OK;
        }
        NoSpareStep(buf, 0, off, need);
        prev, off := off, Next(buf, off);
      }
      if off % 4 != 0 {
        assert false;
      }
      Append(ino, name, need, prev, off);
      return OK;
    }

    /** Fill the free record at off, which keeps its length. */
    method Fill(off: nat, ino: nat, name: Bytes)
      requires Reaches(buf, 0, off) && Record(buf, off) && Ino(buf, off) == 0 && DirSiz(|name|) <= RecLen(buf, off)
      requires 1 <= ino && |name| <= MaxName && NoSpare(buf, 0, off, DirSiz(|name|))
      modifies this
      ensures Filled(old(buf), buf, Entry(ino, name), off)
      ensures Tiles(old(buf), 0) ==> Tiles(buf, 0)
    {
      hide Entries, Listed, Tiles, Reaches, Made, Name, NoSpare;
      var r := Made(ino, RecLen(buf, off), name);
      buf := buf[..off] + r + buf[off + |r|..];
      Reused(old(buf), buf, off, ino, name);
    }

    /** Write a new last record at `end`, the end of the last valid record, which lies at prev.
        If it would cross a boundary, the last record is padded up to the boundary first. */
    method Append(ino: nat, name: Bytes, need: nat, prev: nat, end: nat)
      requires 1 <= ino < 0x1_0000 && Legal(name) && need == DirSiz(|name|) && end % 4 == 0 && !Record(buf, end)
      requires Reaches(buf, 0, end) &&
               (end > 0 ==> Reaches(buf, 0, prev) && Record(buf, prev) && Next(buf, prev) == end)
      requires NoSpare(buf, 0, end, need)
      modifies this
      ensures Extended(old(buf), buf, Entry(ino, name))
      ensures Tiles(old(buf), 0) ==> Tiles(buf, 0)
    {
      hide Entries, Tiles, Made, Record, Reaches, NoSpare, Get16;
      var slot := end;
      var inChunk := end % Chunk;
      ghost var b0 := buf;
      if inChunk != 0 && inChunk + need > Chunk {
        slot := end + (Chunk - inChunk);
        PadFits(b0, prev, end);
        buf := Put16(buf, prev + 2, slot - prev);
      }
      ghost var b1 := buf;
      buf := Runs.Overlay(buf, slot, Made(ino, need, name));
      Appended(b0, b1, buf, ino, name, need, prev, end, slot);
      EndReached(b0, 0, end);
      ghost var e, x := Entries(b0, 0), Entry(ino, name);
      assert (e + [x] + Entries(buf, slot + need))[..|e| + 1] == e + [x];
    }
  }

  // ---- the resumable walk ----

  /** The rest of a chunk at off is too short for a header, and there is another chunk. */
  predicate Skips(b: Bytes, off: nat) {
    off % Chunk == 508 && off + 4 < |b|
  }

  /** What the resumable walk lists from an aligned offset on: where the other walk stops at such
      a rest, this one goes on with the next chunk. */
  function Resumed(b: Bytes, off: nat): seq<Entry>
    decreases |b| - off
  {
    if Record(b, off) then Listed(b, off) + Resumed(b, Next(b, off))
    else if Skips(b, off) then Resumed(b, off + 4)
    else []
  }

  lemma {:induction false} ResumedIs(b: Bytes, off: nat)
    ensures Resumed(b, off) == Entries(b, off) + if Skips(b, End(b, off)) then Resumed(b, End(b, off) + 4) else []
    decreases |b| - off
  {
    hide Record, Listed, Next, Skips;
    if Record(b, off) {
      NextLater(b, off);
      ResumedIs(b, Next(b, off));
    }
  }

  lemma NextLater(b: Bytes, off: nat)
    requires Record(b, off)
    ensures off < Next(b, off) <= |b|
  {
  }

  /** The two walks list the same exactly if the whole-buffer walk does not stop at a short rest
      of a chunk, or nothing is listed past it. */
  lemma WalksAgree(b: Bytes)
    ensures Resumed(b, 0) == Entries(b, 0) <==> !Skips(b, End(b, 0)) || Resumed(b, End(b, 0) + 4) == []
  {
    ResumedIs(b, 0);
  }

  /** On a directory whose records tile it they always do. */
  lemma {:induction false} TiledEnd(b: Bytes, off: nat)
    requires Tiles(b, off)
    ensures End(b, off) == |b| && !Skips(b, End(b, off))
    decreases |b| - off
  {
    if off != |b| {
      TiledEnd(b, Next(b, off));
    }
  }

  predicate Aligned(off: nat) {
    off % 4 == 0
  }

  /** The next entry from nextOff on, reading one 512-byte chunk at a time. */
  method IterNext(buf: Bytes, nextOff: nat) returns (found: bool, e: Entry, nextOff': nat)
    ensures found ==> nextOff < nextOff' <= |buf|
    ensures Aligned(nextOff) ==> (found <==> Resumed(buf, nextOff) != [])
    ensures Aligned(nextOff) && found ==> Aligned(nextOff') && Resumed(buf, nextOff) == [e] + Resumed(buf, nextOff')
  {
    hide Aligned, Resumed, Record, Listed, Name, Get16, Skips;
    var off := nextOff;
    e := Entry(0, []);
    while off < |buf|
      invariant nextOff <= off && (Aligned(nextOff) ==> Aligned(off) && Resumed(buf, nextOff) == Resumed(buf, off))
      decreases |buf| - off
    {
      var chunkOff, rel := ChunkOf(off);
      var n := if Chunk > |buf| - chunkOff then |buf| - chunkOff else Chunk;
      var chunk := buf[chunkOff..chunkOff + n];
      while rel + Header <= n
        invariant 0 <= rel <= n && off <= chunkOff + rel
        invariant Aligned(nextOff) ==>
                  Aligned(chunkOff + rel) && Resumed(buf, nextOff) == Resumed(buf, chunkOff + rel)
        decreases n - rel
      {
        ghost var at := chunkOff + rel;
        ChunkWindow(buf, chunkOff, n, rel);
        var ino, reclen, namlen := Get16(chunk, rel), Get16(chunk, rel + 2), Get16(chunk, rel + 4);
        if Aligned(nextOff) {
          ResumedRecord(buf, chunkOff, n, rel);
        }
        if reclen < MinSize || reclen % 4 != 0 || rel + reclen > n {
          return false, e, off;
        }
        if namlen + 7 > reclen || namlen > MaxName {
          return false, e, off;
        }
        if ino != 0 {
          e := Entry(ino, chunk[rel + Header..rel + Header + namlen]);
          SubChunk(buf, chunkOff, n, rel + Header, namlen);
          return true, e, chunkOff + rel + reclen;
        }
        rel := rel + reclen;
      }
      if Aligned(nextOff) {
        ChunkDone(buf, chunkOff, n, rel);
      }
      off := chunkOff + Chunk;
    }
    ResumedPast(buf, off);
    return false, e, off;
  }

  method ChunkOf(off: nat) returns (chunkOff: nat, rel: nat)
    ensures chunkOff % Chunk == 0 && off == chunkOff + rel && rel < Chunk
  {
    chunkOff := off / Chunk * Chunk;
    rel := off - chunkOff;
    ModOf(off / Chunk, 0);
    assert chunkOff == 512 * (off / 512) + 0;
  }

  lemma SubChunk(b: Bytes, chunkOff: nat, n: nat, from: nat, len: nat)
    requires chunkOff + n <= |b| && from + len <= n
    ensures b[chunkOff..chunkOff + n][from..from + len] == b[chunkOff + from..chunkOff + from + len]
  {
    var chunk := b[chunkOff..chunkOff + n];
    var part, whole := chunk[from..from + len], b[chunkOff + from..chunkOff + from + len];
    forall i | 0 <= i < len
      ensures part[i] == whole[i]
    {
      assert chunk[from + i] == b[chunkOff + (from + i)];
    }
  }

  lemma ChunkWindow(b: Bytes, chunkOff: nat, n: nat, rel: nat)
    requires chunkOff + n <= |b| && rel + Header <= n
    ensures var chunk := b[chunkOff..chunkOff + n];
            && Get16(chunk, rel) == Get16(b, chunkOff + rel) && Get16(chunk, rel + 2) == Get16(b, chunkOff + rel + 2)
            && Get16(chunk, rel + 4) == Get16(b, chunkOff + rel + 4)
  {
  }

  /** What the chunk-wise tests accept is a record, and what they refuse ends the walk. */
  lemma ResumedRecord(b: Bytes, chunkOff: nat, n: nat, rel: nat)
    requires chunkOff % Chunk == 0 && chunkOff <= |b| && n == (if Chunk > |b| - chunkOff then |b| - chunkOff else Chunk)
    requires rel + Header <= n && Aligned(chunkOff + rel)
    ensures var at := chunkOff + rel;
            var reclen, namlen := RecLen(b, at), NamLen(b, at);
            if MinSize <= reclen && reclen % 4 == 0 && rel + reclen <= n && namlen + 7 <= reclen &&
                namlen <= MaxName then
              && (Ino(b, at) == 0 ==> Resumed(b, at) == Resumed(b, at + reclen))
              && (Ino(b, at) != 0 ==>
                   Resumed(b, at) == [Entry(Ino(b, at), b[at + Header..at + Header + namlen])] +
                   Resumed(b, at + reclen))
            else Resumed(b, at) == []
    ensures RecLen(b, chunkOff + rel) % 4 == 0 ==> Aligned(chunkOff + rel + RecLen(b, chunkOff + rel))
  {
    hide Resumed, Record, Get16, Skips;
    var at := chunkOff + rel;
    ModAdd(chunkOff, rel);
    RecordIff(b, chunkOff, n, rel);
    ResumedStep(b, at);
    NoSkip(b, at);
  }

  lemma RecordIff(b: Bytes, chunkOff: nat, n: nat, rel: nat)
    requires chunkOff <= |b| && n == (if Chunk > |b| - chunkOff then |b| - chunkOff else Chunk)
    requires rel + Header <= n && (chunkOff + rel) % 4 == 0 && (chunkOff + rel) % Chunk == rel
    ensures var at := chunkOff + rel;
            var reclen, namlen := RecLen(b, at), NamLen(b, at);
            Record(b, at) <==>
                MinSize <= reclen && reclen % 4 == 0 && rel + reclen <= n && namlen + 7 <= reclen && namlen <= MaxName
  {
    hide Get16;
  }

  lemma ResumedStep(b: Bytes, at: nat)
    ensures if Record(b, at) then Resumed(b, at) == Listed(b, at) + Resumed(b, Next(b, at))
            else !Skips(b, at) ==> Resumed(b, at) == []
  {
  }

  lemma NoSkip(b: Bytes, at: nat)
    requires at % Chunk <= 506
    ensures !Skips(b, at)
  {
  }

  lemma ModAdd(a: nat, r: nat)
    requires a % 512 == 0 && r < 512
    ensures (a + r) % 512 == r
  {
    ModOf(a / 512, r);
  }

  lemma ChunkDone(b: Bytes, chunkOff: nat, n: nat, rel: nat)
    requires chunkOff % Chunk == 0 && chunkOff <= |b| && n == (if Chunk > |b| - chunkOff then |b| - chunkOff else Chunk)
    requires rel <= n < rel + Header && Aligned(chunkOff + rel)
    ensures Resumed(b, chunkOff + rel) == Resumed(b, chunkOff + Chunk) && Aligned(chunkOff + Chunk)
  {
    var at := chunkOff + rel;
    ResumedPast(b, chunkOff + Chunk);
    ChunkAligned(chunkOff, rel);
    hide Aligned;
    if rel < Chunk {
      ModAdd(chunkOff, rel);
      if n == Chunk {
        NoRecord(b, at);
      }
    }
  }

  lemma ChunkAligned(chunkOff: nat, rel: nat)
    requires chunkOff % Chunk == 0 && Aligned(chunkOff + rel)
    ensures Aligned(chunkOff + Chunk) && (506 < rel < 512 ==> rel == 508)
  {
    DivMod(chunkOff, 512);
    DivUnique(chunkOff + 512, 4, 128 * (chunkOff / 512 + 1), 0);
    DivMod(chunkOff + rel, 4);
  }

  /** A record has no room at the end of a chunk. */
  lemma NoRecord(b: Bytes, at: nat)
    requires at % Chunk == 508
    ensures !Record(b, at)
  {
  }

  lemma ResumedPast(b: Bytes, off: nat)
    ensures off >= |b| ==> Resumed(b, off) == []
  {
  }

  /** The whole listing, one resumed step after the other.  It is that of the whole-buffer walk
      exactly if that does not stop at a short rest of a chunk with entries past it. */
  method ListAll(buf: Bytes) returns (all: seq<Entry>)
    ensures all == Resumed(buf, 0)
    ensures all == Entries(buf, 0) <==> !Skips(buf, End(buf, 0)) || Resumed(buf, End(buf, 0) + 4) == []
    ensures Tiles(buf, 0) ==> all == Entries(buf, 0)
  {
    hide Entries, Resumed, Tiles, Skips;
    all := [];
    var off: nat := 0;
    while true
      invariant off <= |buf| && Aligned(off) && Resumed(buf, 0) == all + Resumed(buf, off)
      decreases |buf| - off
    {
      var found, e, next := IterNext(buf, off);
      if !found {
        break;
      }
      all := all + [e];
      off := next;
    }
    WalksAgree(buf);
    if Tiles(buf, 0) {
      TiledEnd(buf, 0);
    }
  }

  // ---- a directory on which they differ ----

  /** Two chunks: a record of 508 bytes in the first, one of 512 in the second. */
  const gap: Bytes := seq(1024, i =>
    if i == 0 then 2 else if i == 2 then 252 else if i == 3 || i == 4 || i == 516 then 1 else if i == 6 then 97
    else if i == 512 then 3 else if i == 515 then 2 else if i == 518 then 98 else 0)

  lemma GapRecords()
    ensures Record(gap, 0) && Next(gap, 0) == 508 && Listed(gap, 0) == [Entry(2, [97])]
    ensures !Record(gap, 508) && Skips(gap, 508) && |gap| == 1024
    ensures Record(gap, 512) && Next(gap, 512) == 1024 && Listed(gap, 512) == [Entry(3, [98])]
  {
    assert gap[6..7] == [97] && gap[518..519] == [98];
  }

  lemma GapExample()
    ensures Entries(gap, 0) == [Entry(2, [97])] && Resumed(gap, 0) == [Entry(2, [97]), Entry(3, [98])]
  {
    hide Record, Next, Listed, Skips, gap;
    GapRecords();
    ResumedPast(gap, 1024);
    var a, b, c := 508, 512, 1024;
    assert Entries(gap, a) == [];
    assert Entries(gap, 0) == Listed(gap, 0) + Entries(gap, a);
    assert Resumed(gap, b) == Listed(gap, b) + Resumed(gap, c);
    assert Resumed(gap, a) == Resumed(gap, b);
    assert Resumed(gap, 0) == Listed(gap, 0) + Resumed(gap, a);
  }

  // ---- an entry that comes back ----

  /** Three records of twelve bytes, the second without a length: the walk ends there. */
  const torn := Made(5, 12, [65]) + Zeros(12) + Made(6, 12, [66])

  lemma TornRecords()
    ensures var r, mended := Made(7, DirSiz(2), [67, 68]), Runs.Overlay(torn, 12, Made(7, DirSiz(2), [67, 68]));
            && |torn| == |mended| == 36 && torn[0..12] == mended[0..12] == Made(5, 12, [65]) && !Record(torn, 12)
            && mended[12..24] == r && mended[24..36] == Made(6, 12, [66])
  {
    var r, mended := Made(7, DirSiz(2), [67, 68]), Runs.Overlay(torn, 12, Made(7, DirSiz(2), [67, 68]));
    assert RecLen(torn, 12) == 0;
    hide Made;
    assert mended == Made(5, 12, [65]) + r + Made(6, 12, [66]);
  }

  /** A name added after the first record takes the place of the damaged one, and the third
      record is listed again. */
  lemma TornExample()
    ensures var mended := Runs.Overlay(torn, 12, Made(7, DirSiz(2), [67, 68]));
            && Entries(torn, 0) == [Entry(5, [65])]
            && Entries(mended, 0) == [Entry(5, [65]), Entry(7, [67, 68]), Entry(6, [66])]
  {
    hide torn, Made, Runs.Overlay, Record, Entries, Name;
    var mended := Runs.Overlay(torn, 12, Made(7, DirSiz(2), [67, 68]));
    TornRecords();
    MadeRecord(torn, 0, 5, 12, [65]);
    MadeRecord(mended, 0, 5, 12, [65]);
    MadeRecord(mended, 12, 7, 12, [67, 68]);
    MadeRecord(mended, 24, 6, 12, [66]);
    PastEnd(mended, 36);
    EntriesEnd(torn, 12);
    EntriesStep(torn, 0, []);
    EntriesStep(mended, 24, []);
    EntriesStep(mended, 12, []);
    EntriesStep(mended, 0, []);
  }
}
