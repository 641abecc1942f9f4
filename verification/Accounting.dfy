/** Conservation: between operations every block of the data area is on the free list, is
    claimed by exactly one inode, or leaked; and what an operation on one inode leaves alone. */
module Accounting {
  import opened Geometry
  import opened FreeChain
  import opened Image
  import opened Ownership
  import opened Consistency
  import opened TreeSteps
  import opened Barrier
  import opened Mapping
  import opened BlockMap
  import opened SlotTruncation

  /** b is owned, and the inode on disk that owns it claims it. */
  ghost predicate Held(g: Geometry, disk: Image, tab: Table, b: nat)
    requires b < |tab|
  {
    tab[b].Owned? && 1 <= tab[b].ino < |disk.inodes| && b in InodeClaims(g, disk.blocks, disk.inodes[tab[b].ino])
  }

  /** No block is in a caller's hands, and every owned block is claimed by its owner. */
  ghost predicate Clean(g: Geometry, disk: Image, tab: Table) {
    forall b: nat {:trigger tab[b]} :: b < |tab| ==> !tab[b].Alloc? && (tab[b].Owned? ==> Held(g, disk, tab, b))
  }

  /** The same, for every file but `ino`. */
  ghost predicate CleanBut(g: Geometry, disk: Image, tab: Table, ino: nat) {
    forall b: nat {:trigger tab[b]} :: b < |tab| && tab[b].Owned? && tab[b].ino != ino ==> Held(g, disk, tab, b)
  }

  /** What an operation on inode `ino` leaves alone: every other inode and its blocks. */
  ghost predicate OthersKept(st: State, w: World, st': State, w': World, ino: nat) {
    && |st'.disk.inodes| == |st.disk.inodes| && |st'.disk.blocks| == |st.disk.blocks| && |w'.tab| == |w.tab|
    && (forall j {:trigger st'.disk.inodes[j]} :: 0 <= j < |st.disk.inodes| && j != ino ==>
         st'.disk.inodes[j] == st.disk.inodes[j])
    && (forall b {:trigger w'.tab[b]} :: 0 <= b < |w.tab| && w'.tab[b].Owned? && w'.tab[b].ino != ino ==>
         w'.tab[b] == w.tab[b])
    && (forall b {:trigger w'.tab[b]} :: 0 <= b < |w.tab| && w.tab[b].Owned? && w.tab[b].ino != ino ==>
         w'.tab[b] == w.tab[b])
    && (forall b {:trigger st'.disk.blocks[b]} ::
         0 <= b < |w.tab| && b < |st.disk.blocks| && w.tab[b].Owned? && w.tab[b].ino != ino ==>
          st'.disk.blocks[b] == st.disk.blocks[b])
  }

  lemma OthersThen(s0: State, w0: World, s1: State, w1: World, s2: State, w2: World, ino: nat)
    requires OthersKept(s0, w0, s1, w1, ino) && OthersKept(s1, w1, s2, w2, ino)
    ensures OthersKept(s0, w0, s2, w2, ino)
  {
  }

  lemma KeepsOthers(st: State, w: World, st': State, w': World, ino: nat)
    requires Keeps(st, w, st', w', ino)
    ensures OthersKept(st, w, st', w', ino)
  {
  }

  lemma ShornOthers(g: Geometry, st: State, w: World, st': State, ino: nat, cut: nat)
    requires st'.disk.inodes == st.disk.inodes && |w.tab| <= |st.disk.blocks|
    requires Shorn(g, w.tab, ino, cut, st.disk.blocks, st'.disk.blocks)
    ensures OthersKept(st, w, st', w, ino)
  {
  }

  /** The indirect blocks of another file read the same. */
  lemma OthersAgree(g: Geometry, st: State, w: World, st': State, w': World, ino: nat, o: Own)
    requires OthersKept(st, w, st', w', ino) && |w.tab| <= |st.disk.blocks| && o.Owned? && o.ino != ino
    ensures AgreeUnder(g, w.tab, o, st.disk.blocks, st'.disk.blocks)
  {
    forall b: nat, i: nat {:trigger Cell(st'.disk.blocks, b, i)} | IsIndirect(w.tab, b) && Under(g, w.tab, b, o) &&
        i < g.nindir
      ensures Cell(st'.disk.blocks, b, i) == Cell(st.disk.blocks, b, i)
    {
      assert st'.disk.blocks[b] == st.disk.blocks[b];
    }
  }

  lemma {:induction false} OtherClaims(g: Geometry, st: State, w: World, st': State, w': World, ino: nat, jno: nat,
      jp: Inode, s: nat)
    requires Sound(g, st, w) && OthersKept(st, w, st', w', ino) && jno != ino && InodeOk(g, w.tab, jno, jp) &&
             jp.kind.Data?
    ensures SlotsClaims(g, st'.disk.blocks, jp, s) == SlotsClaims(g, st.disk.blocks, jp, s)
    decreases g.niaddr - s
  {
    hide Claims, OthersKept, Height, Base;
    if s < g.niaddr {
      OtherClaims(g, st, w, st', w', ino, jno, jp, s + 1);
      var o := SlotOwner(g, jno, jp.large, s);
      OthersAgree(g, st, w, st', w', ino, o);
      ClaimsAgree(g, st.disk.blocks, st'.disk.blocks, w.tab, jp.addr[s], o);
    }
  }

  lemma OtherMap(g: Geometry, st: State, w: World, st': State, w': World, ino: nat, jno: nat, jp: Inode, k: nat)
    requires Sound(g, st, w) && OthersKept(st, w, st', w', ino) && jno != ino && InodeOk(g, w.tab, jno, jp) &&
             jp.kind.Data?
    ensures MapOf(g, st'.disk.blocks, jp, k) == MapOf(g, st.disk.blocks, jp, k)
  {
    hide OthersKept, Height, Base, SlotFor;
    var s := SlotFor(g, jp.large, k, 0);
    if s < g.niaddr && Base(g, jp.large, s) <= k {
      var o := SlotOwner(g, jno, jp.large, s);
      OthersAgree(g, st, w, st', w', ino, o);
      WalkAgree(g, st.disk.blocks, st'.disk.blocks, w.tab, jp.addr[s], o, k - Base(g, jp.large, s));
    }
  }

  lemma CleanOthers(g: Geometry, st: State, w: World, st': State, w': World, ino: nat)
    requires Sound(g, st, w) && OthersKept(st, w, st', w', ino) && CleanBut(g, st.disk, w.tab, ino)
    ensures CleanBut(g, st'.disk, w'.tab, ino)
  {
    hide InodeClaims;
    forall b: nat {:trigger w'.tab[b]} | b < |w'.tab| && w'.tab[b].Owned? && w'.tab[b].ino != ino
      ensures Held(g, st'.disk, w'.tab, b)
    {
      var jno := w.tab[b].ino;
      assert Held(g, st.disk, w.tab, b);
      OtherInode(g, st, w, st', w', ino, jno);
    }
  }

  lemma OtherInode(g: Geometry, st: State, w: World, st': State, w': World, ino: nat, jno: nat)
    requires Sound(g, st, w) && OthersKept(st, w, st', w', ino) && jno != ino && 1 <= jno < |st.disk.inodes|
    ensures InodeClaims(g, st'.disk.blocks, st'.disk.inodes[jno]) == InodeClaims(g, st.disk.blocks, st.disk.inodes[jno])
  {
    var jp := st.disk.inodes[jno];
    assert InodeOk(g, w.tab, jno, jp);
    if jp.kind.Data? {
      OtherClaims(g, st, w, st', w', ino, jno, jp, 0);
    }
  }

  // ---- claims are closed under following pointers ----

  lemma {:induction false} ClaimsClosed(g: Geometry, blocks: seq<Block>, tab: Table, b: nat, o: Own, x: nat, i: nat)
    requires g.Valid() && TreesOk(g, blocks, tab) && o.Owned? && RefOk(g, tab, b, o)
    requires x in Claims(g, blocks, b, o.h) && IsIndirect(tab, x) && i < g.nindir && Cell(blocks, x, i) != 0
    ensures Cell(blocks, x, i) in Claims(g, blocks, b, o.h)
    decreases o.h, 1, 0
  {
    if x == b {
      KidClaimsHas(g, blocks, b, o.h, 0, i, Cell(blocks, x, i));
    } else {
      KidClaimsClosed(g, blocks, tab, b, o, x, i, 0);
    }
  }

  lemma {:induction false} KidClaimsClosed(g: Geometry, blocks: seq<Block>, tab: Table, b: nat, o: Own, x: nat, i: nat,
      k: nat)
    requires g.Valid() && TreesOk(g, blocks, tab) && o.Owned? && o.h >= 1 && b != 0 && RefOk(g, tab, b, o)
    requires x in KidClaims(g, blocks, b, o.h, k) && IsIndirect(tab, x) && i < g.nindir && Cell(blocks, x, i) != 0
    ensures Cell(blocks, x, i) in KidClaims(g, blocks, b, o.h, k)
    decreases o.h, 0, g.nindir - k
  {
    var c := Cell(blocks, b, k);
    if x in Claims(g, blocks, c, o.h - 1) {
      ClaimsClosed(g, blocks, tab, c, Child(g, o, k), x, i);
    } else {
      KidClaimsClosed(g, blocks, tab, b, o, x, i, k + 1);
    }
  }

  lemma InodeClosed(g: Geometry, blocks: seq<Block>, tab: Table, ino: nat, ip: Inode, x: nat, i: nat)
    requires g.Valid() && TreesOk(g, blocks, tab) && InodeOk(g, tab, ino, ip)
    requires x in InodeClaims(g, blocks, ip) && IsIndirect(tab, x) && i < g.nindir && Cell(blocks, x, i) != 0
    ensures Cell(blocks, x, i) in InodeClaims(g, blocks, ip)
  {
    hide Height, Base, Claims;
    var t := SlotsMember(g, blocks, ip, x, 0);
    ClaimsClosed(g, blocks, tab, ip.addr[t], SlotOwner(g, ino, ip.large, t), x, i);
    SlotsHas(g, blocks, ip, Cell(blocks, x, i), 0, t);
  }

  lemma AddrClaimed(g: Geometry, blocks: seq<Block>, ip: Inode, s: nat)
    requires ip.kind.Data? && s < |ip.addr| && s < g.niaddr && ip.addr[s] != 0
    ensures ip.addr[s] in InodeClaims(g, blocks, ip)
  {
    SlotsHas(g, blocks, ip, ip.addr[s], 0, s);
  }

  // ---- giving up what an operation took and no inode on disk claims ----

  ghost predicate Stays(g: Geometry, disk: Image, tab: Table, b: nat)
    requires b < |tab|
  {
    !tab[b].Alloc? && (tab[b].Owned? ==> Held(g, disk, tab, b))
  }

  ghost function Forgotten(g: Geometry, disk: Image, tab: Table): (tab': Table)
    ensures |tab'| == |tab|
    ensures forall b: nat {:trigger tab'[b]} :: b < |tab| ==> tab'[b] == if Stays(g, disk, tab, b) then tab[b] else Lost
  {
    seq(|tab|, b requires 0 <= b < |tab| => if Stays(g, disk, tab, b) then tab[b] else Lost)
  }

  /** Blocks taken by an operation whose inode never reached the disk leak. */
  lemma Forget(g: Geometry, st: State, w: World) returns (w': World)
    requires Sound(g, st, w)
    ensures w' == w.(tab := Forgotten(g, st.disk, w.tab))
    ensures Sound(g, st, w') && (Guarded(g, st, w) ==> Guarded(g, st, w'))
    ensures Clean(g, st.disk, w'.tab)
  {
    hide TreesOk, InodesOk, Intact, Unaliased, InodeClaims;
    w' := w.(tab := Forgotten(g, st.disk, w.tab));
    ForgetTrees(g, st, w);
    ForgetFiled(g, st, w);
  }

  lemma ForgetFiled(g: Geometry, st: State, w: World)
    requires |w.tab| == g.fsize && Filed(g, w.tab, w.segs)
    ensures Filed(g, Forgotten(g, st.disk, w.tab), w.segs)
  {
    var tab' := Forgotten(g, st.disk, w.tab);
    forall b: nat {:trigger tab'[b]} | g.IsData(b) && tab'[b].Free?
      ensures IsEntry(w.segs, tab'[b].seg, tab'[b].idx) && w.segs[tab'[b].seg][tab'[b].idx] == b
    {
      assert tab'[b] == w.tab[b];
    }
  }

  lemma ForgetTrees(g: Geometry, st: State, w: World)
    requires Sound(g, st, w)
    ensures TreesOk(g, st.disk.blocks, Forgotten(g, st.disk, w.tab)) &&
            InodesOk(g, Forgotten(g, st.disk, w.tab), st.disk.inodes)
  {
    hide InodeClaims, Height, Base;
    var blocks, inodes, tab' := st.disk.blocks, st.disk.inodes, Forgotten(g, st.disk, w.tab);
    forall b: nat, i: nat {:trigger Cell(blocks, b, i)} | IsIndirect(tab', b) && i < g.nindir
      ensures RefOk(g, tab', Cell(blocks, b, i), Child(g, tab'[b], i))
    {
      var c, ino := Cell(blocks, b, i), w.tab[b].ino;
      assert RefOk(g, w.tab, c, Child(g, w.tab[b], i));
      if c != 0 {
        InodeClosed(g, blocks, w.tab, ino, inodes[ino], b, i);
        assert Held(g, st.disk, w.tab, c);
      }
    }
    forall ino {:trigger inodes[ino]} | 1 <= ino < |inodes|
      ensures InodeOk(g, tab', ino, inodes[ino])
    {
      ForgetInode(g, st, w, ino);
    }
  }

  lemma ForgetInode(g: Geometry, st: State, w: World, ino: nat)
    requires Sound(g, st, w) && 1 <= ino < |st.disk.inodes|
    ensures InodeOk(g, Forgotten(g, st.disk, w.tab), ino, st.disk.inodes[ino])
  {
    hide InodeClaims, Height, Base;
    var ip, tab' := st.disk.inodes[ino], Forgotten(g, st.disk, w.tab);
    assert InodeOk(g, w.tab, ino, ip);
    if ip.kind.Data? {
      forall s {:trigger ip.addr[s]} | 0 <= s < g.niaddr
        ensures RefOk(g, tab', ip.addr[s], SlotOwner(g, ino, ip.large, s))
      {
        assert RefOk(g, w.tab, ip.addr[s], SlotOwner(g, ino, ip.large, s));
        if ip.addr[s] != 0 {
          AddrClaimed(g, st.disk.blocks, ip, s);
          assert Held(g, st.disk, w.tab, ip.addr[s]);
        }
      }
    }
  }

  // ---- releasing what a truncation collected ----

  lemma MultisetMember(bl: seq<nat>, kept: seq<nat>, all: seq<nat>, x: nat)
    requires multiset(bl) + multiset(kept) == multiset(all)
    ensures x in all <==> x in bl || x in kept
    ensures Distinct(all) ==> !(x in bl && x in kept)
  {
    assert (multiset(bl) + multiset(kept))[x] == multiset(all)[x];
    if Distinct(all) {
      DistinctOnce(all, x);
    }
  }

  lemma {:induction false} DistinctOnce(s: seq<nat>, x: nat)
    requires Distinct(s)
    ensures multiset(s)[x] <= 1
    decreases |s|
  {
    if |s| > 0 {
      var n := |s| - 1;
      assert s == s[..n] + [s[n]];
      DistinctOnce(s[..n], x);
      if s[n] == x {
        assert x !in s[..n];
      }
    }
  }

  lemma DistinctPart(bl: seq<nat>, kept: seq<nat>, all: seq<nat>)
    requires multiset(bl) + multiset(kept) == multiset(all) && Distinct(all)
    ensures Distinct(bl)
  {
    forall i, j | 0 <= i < j < |bl|
      ensures bl[i] != bl[j]
    {
      if bl[i] == bl[j] {
        var x := bl[i];
        assert bl == bl[..j] + [bl[j]] + bl[j + 1..];
        assert multiset(bl)[x] == multiset(bl[..j])[x] + 1 + multiset(bl[j + 1..])[x];
        assert bl[..j][i] == x;
        assert (multiset(bl) + multiset(kept))[x] == multiset(all)[x];
        DistinctOnce(all, x);
      }
    }
  }

  /** The blocks a truncation collected are the file's own, each once, and once the shorter
      inode is on disk nothing names them any more. */
  lemma Severed(g: Geometry, st: State, w: World, ino: nat, blocks0: seq<Block>, ip0: Inode, ip: Inode, bl: seq<nat>)
    requires Sound(g, st, w) && 1 <= ino < |st.disk.inodes| && st.disk.inodes[ino] == ip
    requires TreesOk(g, blocks0, w.tab) && InodeOk(g, w.tab, ino, ip0) && Tidy(g, blocks0, w.tab, ino, ip0)
    requires multiset(bl) + multiset(InodeClaims(g, st.disk.blocks, ip)) == multiset(InodeClaims(g, blocks0, ip0))
    ensures Distinct(bl) && forall b :: b in bl ==> OwnedBy(g, w.tab, b, ino)
    ensures Detached(g, st.disk, w.tab, set b | b in bl)
    ensures forall x: nat {:trigger w.tab[x]} :: x < |w.tab| && x !in bl && w.tab[x].Owned? && w.tab[x].ino == ino ==>
            x in InodeClaims(g, st.disk.blocks, ip)
  {
    hide InodeClaims, Height, Base;
    var all, kept := InodeClaims(g, blocks0, ip0), InodeClaims(g, st.disk.blocks, ip);
    InodeDistinct(g, blocks0, w.tab, ino, ip0);
    DistinctPart(bl, kept, all);
    forall x: nat
      ensures x in all <==> x in bl || x in kept
      ensures !(x in bl && x in kept)
    {
      MultisetMember(bl, kept, all, x);
    }
    var dead := set b | b in bl;
    forall b: nat, i: nat {:trigger Cell(st.disk.blocks, b, i)} | IsIndirect(w.tab, b) && b !in dead && i < g.nindir
      ensures Cell(st.disk.blocks, b, i) == 0 || Cell(st.disk.blocks, b, i) !in dead
    {
      var c := Cell(st.disk.blocks, b, i);
      assert RefOk(g, w.tab, c, Child(g, w.tab[b], i));
      if c != 0 && w.tab[b].ino == ino {
        InodeClosed(g, st.disk.blocks, w.tab, ino, ip, b, i);
      }
    }
    SeveredAddr(g, st, w, ino, ip, dead);
  }

  lemma SeveredAddr(g: Geometry, st: State, w: World, ino: nat, ip: Inode, dead: set<nat>)
    requires Sound(g, st, w) && 1 <= ino < |st.disk.inodes| && st.disk.inodes[ino] == ip
    requires forall x :: x in dead ==> OwnedBy(g, w.tab, x, ino) && x !in InodeClaims(g, st.disk.blocks, ip)
    ensures forall k, s {:trigger st.disk.inodes[k].addr[s]} ::
              1 <= k < |st.disk.inodes| && st.disk.inodes[k].kind.Data? && 0 <= s < |st.disk.inodes[k].addr| ==>
              st.disk.inodes[k].addr[s] == 0 || st.disk.inodes[k].addr[s] !in dead
  {
    hide InodeClaims, Height, Base;
    forall k, s {:trigger st.disk.inodes[k].addr[s]} |
      1 <= k < |st.disk.inodes| && st.disk.inodes[k].kind.Data? && 0 <= s < |st.disk.inodes[k].addr|
      ensures st.disk.inodes[k].addr[s] == 0 || st.disk.inodes[k].addr[s] !in dead
    {
      var jp := st.disk.inodes[k];
      assert InodeOk(g, w.tab, k, jp);
      if jp.addr[s] != 0 && k == ino {
        AddrClaimed(g, st.disk.blocks, jp, s);
      }
    }
  }

  // ---- freeing the released blocks ----

  /** Every owned block stays as it is, and nothing else becomes owned. */
  ghost predicate OwnedKept(st: State, w: World, st': State, w': World) {
    && st'.disk.inodes == st.disk.inodes && |st'.disk.blocks| == |st.disk.blocks| && |w'.tab| == |w.tab|
    && (forall b {:trigger w'.tab[b]} :: 0 <= b < |w.tab| && (w.tab[b].Owned? || w'.tab[b].Owned?) ==>
         w'.tab[b] == w.tab[b])
    && (forall b {:trigger st'.disk.blocks[b]} :: 0 <= b < |w.tab| && b < |st.disk.blocks| && w.tab[b].Owned? ==>
         st'.disk.blocks[b] == st.disk.blocks[b])
  }

  lemma OwnedOthers(st: State, w: World, st': State, w': World, ino: nat)
    requires OwnedKept(st, w, st', w')
    ensures OthersKept(st, w, st', w', ino)
  {
  }

  /** The first i blocks of the list went to the free list, or leaked. */
  ghost predicate Drained(st0: State, w0: World, st: State, w: World, bl: seq<nat>, i: nat, leaked: bool)
    requires i <= |bl|
  {
    && st.disk.inodes == st0.disk.inodes && |st.disk.blocks| == |st0.disk.blocks| && |w.tab| == |w0.tab| &&
         w.breach == w0.breach
    && (forall x: nat {:trigger w.tab[x]} :: x < |w.tab| && x !in bl[..i] ==> w.tab[x] == w0.tab[x])
    && (forall x: nat {:trigger st.disk.blocks[x]} :: x < |st.disk.blocks| && x !in bl[..i] ==>
         st.disk.blocks[x] == st0.disk.blocks[x])
    && (forall x: nat {:trigger w.tab[x]} :: x < |w.tab| && x in bl[..i] ==>
         w.tab[x].Free? || (leaked && w.tab[x].Lost?))
    && (!leaked ==> Stack(w.segs) == Stack(w0.segs) + bl[..i])
  }

  lemma DrainedNone(st: State, w: World, bl: seq<nat>)
    ensures Drained(st, w, st, w, bl, 0, false)
  {
    assert bl[..0] == [];
  }

  lemma DrainedStep(st0: State, w0: World, st: State, w: World, st': State, w': World, bl: seq<nat>, i: nat,
      leaked: bool, leak: bool)
    requires i < |bl| && Drained(st0, w0, st, w, bl, i, leaked) && bl[i] < |w.tab| == |w'.tab|
    requires st'.disk.inodes == st.disk.inodes && |st'.disk.blocks| == |st.disk.blocks| && w'.breach == w.breach
    requires w'.tab == w.tab[bl[i] := w'.tab[bl[i]]] &&
             (if leak then w'.tab[bl[i]].Lost? else w'.tab[bl[i]].Free? && Stack(w'.segs) == Stack(w.segs) + [bl[i]])
    requires forall c :: 0 <= c < |st.disk.blocks| && c != bl[i] ==> st'.disk.blocks[c] == st.disk.blocks[c]
    ensures Drained(st0, w0, st', w', bl, i + 1, leaked || leak)
  {
    hide Stack;
    assert bl[..i + 1] == bl[..i] + [bl[i]];
  }

  lemma DrainedKept(st0: State, w0: World, st: State, w: World, bl: seq<nat>, leaked: bool)
    requires Drained(st0, w0, st, w, bl, |bl|, leaked) && |w0.tab| <= |st0.disk.blocks|
    requires forall b :: b in bl ==> b < |w0.tab| && w0.tab[b].Alloc?
    ensures OwnedKept(st0, w0, st, w)
  {
    hide Stack;
    assert bl[..|bl|] == bl;
  }

  /** After the collected blocks were released and freed, the file owns what it claims. */
  lemma ReleasedTidy(g: Geometry, st: State, w: World, st': State, w': World, w'': World, ino: nat, ip: Inode,
      bl: seq<nat>, leaked: bool)
    requires Sound(g, st, w') && w'.tab == ReleaseAll(w.tab, set b | b in bl) && |w.tab| == g.fsize
    requires 1 <= ino && InodeOk(g, w'.tab, ino, ip) && Drained(st, w', st', w'', bl, |bl|, leaked)
    requires forall b :: b in bl ==> OwnedBy(g, w.tab, b, ino)
    requires forall x: nat {:trigger w.tab[x]} :: x < |w.tab| && x !in bl && w.tab[x].Owned? && w.tab[x].ino == ino ==>
             x in InodeClaims(g, st.disk.blocks, ip)
    ensures Tidy(g, st'.disk.blocks, w''.tab, ino, ip) && OwnedKept(st, w', st', w'')
    ensures OthersKept(st, w, st', w'', ino)
    ensures !leaked ==> NoLoss(w.tab, w''.tab)
  {
    hide InodeClaims, Stack;
    assert bl[..|bl|] == bl;
    assert |st.disk.blocks| == g.fsize by {
      Facts(g, st, w');
    }
    DrainedKept(st, w', st', w'', bl, leaked);
    KeptClaims(g, st, w', st', w'', ino, ip);
  }

  lemma KeptClaims(g: Geometry, st: State, w: World, st': State, w': World, ino: nat, ip: Inode)
    requires Sound(g, st, w) && OwnedKept(st, w, st', w') && 1 <= ino && InodeOk(g, w.tab, ino, ip)
    ensures InodeClaims(g, st'.disk.blocks, ip) == InodeClaims(g, st.disk.blocks, ip)
  {
    if ip.kind.Data? {
      OwnedOthers(st, w, st', w', 0);
      OtherClaims(g, st, w, st', w', 0, ino, ip, 0);
    }
  }

  // ---- the end of an operation ----

  lemma ForgetOthers(g: Geometry, st: State, w: World, ino: nat)
    requires CleanBut(g, st.disk, w.tab, ino)
    ensures OthersKept(st, w, st, w.(tab := Forgotten(g, st.disk, w.tab)), ino)
  {
    hide InodeClaims;
  }

  /** An operation on inode `ino` ends: what it still holds leaks, which is nothing if the
      inode on disk claims all it owns. */
  lemma Finish(g: Geometry, st0: State, w0: World, st: State, w: World, ino: nat) returns (w': World)
    requires Sound(g, st0, w0) && Clean(g, st0.disk, w0.tab) && Sound(g, st, w) && OthersKept(st0, w0, st, w, ino)
    ensures Sound(g, st, w') && (Guarded(g, st, w) ==> Guarded(g, st, w'))
    ensures w' == w.(tab := w'.tab) && Clean(g, st.disk, w'.tab) && OthersKept(st0, w0, st, w', ino)
    ensures 1 <= ino < |st.disk.inodes| && Tidy(g, st.disk.blocks, w.tab, ino, st.disk.inodes[ino])
            && NoLoss(w0.tab, w.tab)
            ==> w' == w
  {
    hide Sound, Guarded, InodeClaims, OthersKept;
    w' := Forget(g, st, w);
    CleanOthers(g, st0, w0, st, w, ino);
    ForgetOthers(g, st, w, ino);
    OthersThen(st0, w0, st, w, st, w', ino);
    if 1 <= ino < |st.disk.inodes| && Tidy(g, st.disk.blocks, w.tab, ino, st.disk.inodes[ino]) &&
        NoLoss(w0.tab, w.tab) {
      assert w'.tab == w.tab;
    }
  }
}
