/** Truncating an inode slot by slot: which mappings survive, and that the claims before are
    the claims after plus the collected blocks. */
module SlotTruncation {
  import opened Geometry
  import opened FreeChain
  import opened Image
  import opened Ownership
  import opened Consistency
  import opened BlockMap
  import opened Truncation

  /** Only indirect blocks of inode `ino` change, and only by zeroing entries that start at
      or past logical block `cut`. */
  ghost predicate Shorn(g: Geometry, tab: Table, ino: nat, cut: nat, blocks: seq<Block>, blocks': seq<Block>) {
    && |blocks'| == |blocks|
    && (forall b: nat {:trigger blocks'[b]} :: b < |blocks| && !(IsIndirect(tab, b) && tab[b].ino == ino) ==>
         blocks'[b] == blocks[b])
    && CutFrom(g, tab, ino, cut, blocks, blocks')
  }

  lemma ShornSelf(g: Geometry, tab: Table, ino: nat, cut: nat, blocks: seq<Block>)
    ensures Shorn(g, tab, ino, cut, blocks, blocks)
  {
  }

  lemma ShornThen(g: Geometry, tab: Table, o: Own, cut: nat, blocks0: seq<Block>, blocks1: seq<Block>,
      blocks2: seq<Block>)
    requires o.Owned? && Shorn(g, tab, o.ino, cut, blocks0, blocks1) && CutUnder(g, tab, o, cut, blocks1, blocks2)
    ensures Shorn(g, tab, o.ino, cut, blocks0, blocks2)
  {
    assert forall b: nat, i: nat {:trigger Cell(blocks2, b, i)} ::
           IsIndirect(tab, b) && i < g.nindir && tab[b].ino != o.ino ==>
        Cell(blocks2, b, i) == Cell(blocks1, b, i) by {
      forall b: nat, i: nat {:trigger Cell(blocks2, b, i)} | IsIndirect(tab, b) && i < g.nindir && tab[b].ino != o.ino
        ensures Cell(blocks2, b, i) == Cell(blocks1, b, i)
      {
        if b < |blocks1| {
          assert blocks2[b] == blocks1[b];
        }
      }
    }
  }

  /** Cutting below one slot leaves the other slots' subtrees alone. */
  lemma CutSlots(g: Geometry, tab: Table, ino: nat, large: bool, s: nat, t: nat, cut: nat, blocks: seq<Block>,
      blocks': seq<Block>)
    requires s != t && CutUnder(g, tab, SlotOwner(g, ino, large, s), cut, blocks, blocks')
    ensures AgreeUnder(g, tab, SlotOwner(g, ino, large, t), blocks, blocks')
  {
    if s < t {
      BaseMonotone(g, large, s, t);
    } else {
      BaseMonotone(g, large, t, s);
    }
    var o := SlotOwner(g, ino, large, t);
    forall b: nat, i: nat {:trigger Cell(blocks', b, i)} | IsIndirect(tab, b) && Under(g, tab, b, o) && i < g.nindir
      ensures Cell(blocks', b, i) == Cell(blocks, b, i)
    {
      assert !Under(g, tab, b, SlotOwner(g, ino, large, s));
      assert b < |blocks| ==> blocks'[b] == blocks[b];
    }
  }

  /** Slot s maps nothing at or past logical block `cut`. */
  ghost predicate SlotCut(g: Geometry, blocks: seq<Block>, ip: Inode, cut: nat, s: nat)
    requires g.nindir >= 1
  {
    || Base(g, ip.large, s) + Span32(g, ip.large, s) <= cut
    || (s < |ip.addr| &&
         ZeroFrom(g, blocks, ip.addr[s], Height(g, ip.large, s), if Base(g, ip.large, s) < cut
         then cut - Base(g, ip.large, s) else 0))
  }

  /** The truncation of ip0 from `cut` on, before slot i. */
  ghost predicate Shearing(g: Geometry, tab: Table, ino: nat, cut: nat, blocks0: seq<Block>, ip0: Inode, bl0: seq<nat>,
                           blocks: seq<Block>, ip: Inode, bl: seq<nat>, i: nat)
    requires g.nindir >= 1
  {
    && InodeOk(g, tab, ino, ip) && ip == ip0.(addr := ip.addr) && |ip0.addr| == g.niaddr
    && Shorn(g, tab, ino, cut, blocks0, blocks)
    && (forall s {:trigger ip.addr[s]} :: 0 <= s < g.niaddr ==>
         ip.addr[s] == ip0.addr[s] || (ip.addr[s] == 0 && cut <= Base(g, ip.large, s)))
    && (forall s: nat {:trigger SlotCut(g, blocks, ip, cut, s)} :: s < i ==> SlotCut(g, blocks, ip, cut, s))
    && multiset(bl) + multiset(InodeClaims(g, blocks, ip)) == multiset(bl0) + multiset(InodeClaims(g, blocks0, ip0))
  }

  lemma ShearingStart(g: Geometry, tab: Table, ino: nat, cut: nat, blocks: seq<Block>, ip: Inode, bl: seq<nat>)
    requires g.nindir >= 1 && InodeOk(g, tab, ino, ip)
    ensures Shearing(g, tab, ino, cut, blocks, ip, bl, blocks, ip, bl, 0)
  {
  }

  lemma SlotsStep(g: Geometry, blocks: seq<Block>, ip: Inode, s: nat)
    requires s < g.niaddr
    ensures SlotsClaims(g, blocks, ip, s) == SlotClaims(g, blocks, ip, s) + SlotsClaims(g, blocks, ip, s + 1)
  {
  }

  /** Replacing what one slot claims. */
  lemma {:induction false} SlotsSwap(g: Geometry, blocks: seq<Block>, ip: Inode, blocks': seq<Block>, ip': Inode,
      i: nat, s: nat)
    requires i < g.niaddr
    requires forall t: nat {:trigger SlotClaims(g, blocks', ip', t)} :: t < g.niaddr && t != i ==>
             SlotClaims(g, blocks', ip', t) == SlotClaims(g, blocks, ip, t)
    ensures s <= i ==> multiset(SlotsClaims(g, blocks', ip', s)) + multiset(SlotClaims(g, blocks, ip, i))
                       == multiset(SlotsClaims(g, blocks, ip, s)) + multiset(SlotClaims(g, blocks', ip', i))
    ensures s > i ==> SlotsClaims(g, blocks', ip', s) == SlotsClaims(g, blocks, ip, s)
    decreases g.niaddr - s
  {
    hide SlotClaims;
    if s < g.niaddr {
      SlotsSwap(g, blocks, ip, blocks', ip', i, s + 1);
      hide SlotsClaims;
      SlotsStep(g, blocks, ip, s);
      SlotsStep(g, blocks', ip', s);
      var c, c' := SlotClaims(g, blocks, ip, s), SlotClaims(g, blocks', ip', s);
      var r, r' := SlotsClaims(g, blocks, ip, s + 1), SlotsClaims(g, blocks', ip', s + 1);
      assert multiset(c + r) == multiset(c) + multiset(r) && multiset(c' + r') == multiset(c') + multiset(r');
      if s < i {
        var d, d' := SlotClaims(g, blocks, ip, i), SlotClaims(g, blocks', ip', i);
        assert (multiset(c) + multiset(r')) + multiset(d) == multiset(c) + (multiset(r') + multiset(d));
        assert multiset(c) + (multiset(r) + multiset(d')) == (multiset(c) + multiset(r)) + multiset(d');
      }
    }
  }

  lemma SlotKept(g: Geometry, tab: Table, ino: nat, ip: Inode, blocks: seq<Block>, blocks': seq<Block>, ip': Inode,
      cut: nat, i: nat, t: nat)
    requires g.Valid() && TreesOk(g, blocks, tab) && InodeOk(g, tab, ino, ip) && ip.kind.Data? && t != i &&
             i < g.niaddr && t < g.niaddr
    requires CutUnder(g, tab, SlotOwner(g, ino, ip.large, i), cut, blocks, blocks')
    requires ip'.large == ip.large && |ip'.addr| == g.niaddr && ip'.addr[t] == ip.addr[t]
    ensures SlotClaims(g, blocks', ip', t) == SlotClaims(g, blocks, ip, t)
    ensures SlotCut(g, blocks, ip, cut, t) ==> SlotCut(g, blocks', ip', cut, t)
  {
    hide Base, Height, Pow, CutUnder, TreesOk, AgreeUnder, Claims, Walk;
    var o := SlotOwner(g, ino, ip.large, t);
    CutSlots(g, tab, ino, ip.large, i, t, cut, blocks, blocks');
    ClaimsAgree(g, blocks, blocks', tab, ip.addr[t], o);
    forall r: nat
      ensures Walk(g, blocks', ip.addr[t], o.h, r) == Walk(g, blocks, ip.addr[t], o.h, r)
    {
      WalkAgree(g, blocks, blocks', tab, ip.addr[t], o, r);
    }
  }

  /** One slot was cut: it now holds a, and its claims moved to the list as far as dropped. */
  lemma ShearingStep(g: Geometry, tab: Table, ino: nat, cut: nat, blocks0: seq<Block>, ip0: Inode, bl0: seq<nat>,
                     blocks: seq<Block>, ip: Inode, bl: seq<nat>, i: nat, blocks': seq<Block>, a: nat, bl': seq<nat>)
    requires g.Valid() && TreesOk(g, blocks, tab) && ip.kind.Data? && i < g.niaddr
    requires Shearing(g, tab, ino, cut, blocks0, ip0, bl0, blocks, ip, bl, i)
    requires CutUnder(g, tab, SlotOwner(g, ino, ip.large, i), cut, blocks, blocks')
    requires a == ip.addr[i] || (a == 0 && cut <= Base(g, ip.large, i))
    requires SlotCut(g, blocks', ip.(addr := ip.addr[i := a]), cut, i)
    requires var h := Height(g, ip.large, i);
             multiset(bl') + multiset(Claims(g, blocks', a, h)) == multiset(bl) +
                 multiset(Claims(g, blocks, ip.addr[i], h))
    ensures Shearing(g, tab, ino, cut, blocks0, ip0, bl0, blocks', ip.(addr := ip.addr[i := a]), bl', i + 1)
  {
    hide Base, Height, SlotCut, Claims, CutUnder, TreesOk, SlotsClaims, Shorn, Pow, CutFrom;
    var ip' := ip.(addr := ip.addr[i := a]);
    ShornThen(g, tab, SlotOwner(g, ino, ip.large, i), cut, blocks0, blocks, blocks');
    forall t: nat {:trigger SlotClaims(g, blocks', ip', t)} | t < g.niaddr && t != i
      ensures SlotClaims(g, blocks', ip', t) == SlotClaims(g, blocks, ip, t)
    {
      SlotKept(g, tab, ino, ip, blocks, blocks', ip', cut, i, t);
    }
    forall t: nat {:trigger SlotCut(g, blocks', ip', cut, t)} | t < i + 1
      ensures SlotCut(g, blocks', ip', cut, t)
    {
      if t < i {
        assert SlotCut(g, blocks, ip, cut, t);
        SlotKept(g, tab, ino, ip, blocks, blocks', ip', cut, i, t);
      }
    }
    SlotsSwap(g, blocks, ip, blocks', ip', i, 0);
    hide *;
    Regroup(multiset(bl), multiset(bl'), multiset(SlotsClaims(g, blocks, ip, 0)),
        multiset(SlotsClaims(g, blocks', ip', 0)),
            multiset(SlotClaims(g, blocks, ip, i)), multiset(SlotClaims(g, blocks', ip', i)));
  }

  lemma Regroup(l: multiset<nat>, l': multiset<nat>, c: multiset<nat>, c': multiset<nat>, d: multiset<nat>,
      d': multiset<nat>)
    requires l' + d' == l + d && c' + d == c + d'
    ensures l' + c' == l + c
  {
    forall x
      ensures (l' + c')[x] == (l + c)[x]
    {
      assert (l' + d')[x] == (l + d)[x] && (c' + d)[x] == (c + d')[x];
    }
  }

  /** The mapping below `cut` is kept; from `cut` on there are only holes. */
  lemma ShornMap(g: Geometry, tab: Table, ino: nat, cut: nat, blocks0: seq<Block>, ip0: Inode, bl0: seq<nat>,
                 blocks: seq<Block>, ip: Inode, bl: seq<nat>, k: nat)
    requires g.Valid() && Narrow(g) && TreesOk(g, blocks0, tab) && InodeOk(g, tab, ino, ip0) && ip0.kind.Data?
    requires Shearing(g, tab, ino, cut, blocks0, ip0, bl0, blocks, ip, bl, g.niaddr)
    ensures MapOf(g, blocks, ip, k) == if k < cut then MapOf(g, blocks0, ip0, k) else 0
  {
    hide Base, Height, TreesOk, Narrow, SlotFor, Pow, SlotsClaims, Residue;
    var s := SlotFor(g, ip.large, k, 0);
    SlotRange(g, ip.large, k);
    if s < g.niaddr {
      var base, h := Base(g, ip.large, s), Height(g, ip.large, s);
      var r := k - base;
      ResidueSmall(g, r, h);
      if k < cut {
        assert RefOk(g, tab, ip0.addr[s], SlotOwner(g, ino, ip.large, s));
        WalkCut(g, blocks0, blocks, tab, ip0.addr[s], SlotOwner(g, ino, ip.large, s), r, cut);
      } else {
        assert SlotCut(g, blocks, ip, cut, s);
        assert k < base + Span32(g, ip.large, s);
      }
    }
  }

  /** A slot that is kept whole, or is empty. */
  lemma KeepSlot(g: Geometry, tab: Table, ino: nat, cut: nat, blocks0: seq<Block>, ip0: Inode, bl0: seq<nat>,
                 blocks: seq<Block>, ip: Inode, bl: seq<nat>, i: nat)
    requires g.Valid() && i < g.niaddr && Shearing(g, tab, ino, cut, blocks0, ip0, bl0, blocks, ip, bl, i)
    requires Base(g, ip.large, i) + Span32(g, ip.large, i) <= cut || ip.addr[i] == 0
    ensures Shearing(g, tab, ino, cut, blocks0, ip0, bl0, blocks, ip, bl, i + 1)
  {
    hide Base, Height, Span32, Shorn, InodeClaims, ZeroFrom;
    if ip.addr[i] == 0 {
      ZeroHole(g, blocks, Height(g, ip.large, i), if Base(g, ip.large, i) < cut then cut - Base(g, ip.large, i) else 0);
    }
    assert SlotCut(g, blocks, ip, cut, i);
  }

  /** A slot wholly past the cut, its subtree collected. */
  lemma DropSlot(g: Geometry, tab: Table, ino: nat, cut: nat, blocks0: seq<Block>, ip0: Inode, bl0: seq<nat>,
                 blocks: seq<Block>, ip: Inode, bl: seq<nat>, i: nat, bl': seq<nat>)
    requires g.Valid() && TreesOk(g, blocks, tab) && ip.kind.Data? && i < g.niaddr
    requires Shearing(g, tab, ino, cut, blocks0, ip0, bl0, blocks, ip, bl, i)
    requires cut <= Base(g, ip.large, i)
    requires multiset(bl') == multiset(bl) + multiset(Claims(g, blocks, ip.addr[i], Height(g, ip.large, i)))
    ensures Shearing(g, tab, ino, cut, blocks0, ip0, bl0, blocks, ip.(addr := ip.addr[i := 0]), bl', i + 1)
  {
    hide Base, Height, Span32, Shorn, InodeClaims, ZeroFrom, Shearing, CutUnder, Claims, TreesOk;
    var h := Height(g, ip.large, i);
    ShearingFacts(g, tab, ino, cut, blocks0, ip0, bl0, blocks, ip, bl, i);
    CutSelf(g, tab, SlotOwner(g, ino, ip.large, i), cut, blocks);
    ZeroHole(g, blocks, h, 0);
    ClaimsOfNone(g, blocks, h);
    ShearingStep(g, tab, ino, cut, blocks0, ip0, bl0, blocks, ip, bl, i, blocks, 0, bl');
  }

  /** The slot that straddles the cut, its subtree cut in place. */
  lemma CutSlot(g: Geometry, tab: Table, ino: nat, cut: nat, blocks0: seq<Block>, ip0: Inode, bl0: seq<nat>,
                blocks: seq<Block>, ip: Inode, bl: seq<nat>, i: nat, blocks': seq<Block>, bl': seq<nat>)
    requires g.Valid() && TreesOk(g, blocks, tab) && ip.kind.Data? && i < g.niaddr
    requires Shearing(g, tab, ino, cut, blocks0, ip0, bl0, blocks, ip, bl, i)
    requires Base(g, ip.large, i) < cut
    requires var h := Height(g, ip.large, i);
             && CutUnder(g, tab, SlotOwner(g, ino, ip.large, i), cut, blocks, blocks')
             && ZeroFrom(g, blocks', ip.addr[i], h, cut - Base(g, ip.large, i))
             && multiset(bl') + multiset(Claims(g, blocks', ip.addr[i], h)) == multiset(bl) +
                  multiset(Claims(g, blocks, ip.addr[i], h))
    ensures Shearing(g, tab, ino, cut, blocks0, ip0, bl0, blocks', ip, bl', i + 1)
  {
    hide Base, Height, Span32, Shorn, InodeClaims, ZeroFrom, Shearing, CutUnder, Claims, TreesOk;
    ShearingFacts(g, tab, ino, cut, blocks0, ip0, bl0, blocks, ip, bl, i);
    ShearingStep(g, tab, ino, cut, blocks0, ip0, bl0, blocks, ip, bl, i, blocks', ip.addr[i], bl');
    assert ip.(addr := ip.addr[i := ip.addr[i]]) == ip;
  }

  lemma ShearingFacts(g: Geometry, tab: Table, ino: nat, cut: nat, blocks0: seq<Block>, ip0: Inode, bl0: seq<nat>,
                      blocks: seq<Block>, ip: Inode, bl: seq<nat>, i: nat)
    requires g.nindir >= 1 && Shearing(g, tab, ino, cut, blocks0, ip0, bl0, blocks, ip, bl, i)
    ensures InodeOk(g, tab, ino, ip) && |ip.addr| == g.niaddr && ip == ip0.(addr := ip.addr)
    ensures Shorn(g, tab, ino, cut, blocks0, blocks)
    ensures multiset(bl) + multiset(InodeClaims(g, blocks, ip)) == multiset(bl0) +
            multiset(InodeClaims(g, blocks0, ip0))
  {
  }

  /** The outcome of a truncation from logical block `cut` on: nothing before it is mapped
      differently, nothing is mapped from it on, and the list holds exactly what the inode
      claimed before and does not any more, each block once. */
  ghost predicate Truncated(g: Geometry, tab: Table, ino: nat, cut: nat, blocks0: seq<Block>, ip0: Inode,
                            blocks: seq<Block>, ip: Inode, bl: seq<nat>)
    requires g.nindir >= 1
  {
    && InodeOk(g, tab, ino, ip) && ip == ip0.(addr := ip.addr)
    && (forall k: nat {:trigger MapOf(g, blocks, ip, k)} ::
         MapOf(g, blocks, ip, k) == if k < cut then MapOf(g, blocks0, ip0, k) else 0)
    && multiset(bl) + multiset(InodeClaims(g, blocks, ip)) == multiset(InodeClaims(g, blocks0, ip0))
  }

  lemma TruncatedAll(g: Geometry, st0: State, w: World, ino: nat, cut: nat, ip0: Inode, st: State, ip: Inode,
      bl: seq<nat>)
    requires Sound(g, st0, w) && Narrow(g) && InodeOk(g, w.tab, ino, ip0) && ip0.kind.Data?
    requires Shearing(g, w.tab, ino, cut, st0.disk.blocks, ip0, [], st.disk.blocks, ip, bl, g.niaddr)
    ensures Truncated(g, w.tab, ino, cut, st0.disk.blocks, ip0, st.disk.blocks, ip, bl)
    ensures Shorn(g, w.tab, ino, cut, st0.disk.blocks, st.disk.blocks)
  {
    hide MapOf, Narrow, Shorn, InodeClaims;
    ShearingFacts(g, w.tab, ino, cut, st0.disk.blocks, ip0, [], st.disk.blocks, ip, bl, g.niaddr);
    forall k: nat
      ensures MapOf(g, st.disk.blocks, ip, k) == if k < cut then MapOf(g, st0.disk.blocks, ip0, k) else 0
    {
      ShornMap(g, w.tab, ino, cut, st0.disk.blocks, ip0, [], st.disk.blocks, ip, bl, k);
    }
  }

  /** What the slot loop knows before slot i. */
  lemma SlotAt(g: Geometry, st: State, w: World, ino: nat, cut: nat, blocks0: seq<Block>, ip0: Inode, ip: Inode,
      bl: seq<nat>, i: nat)
    requires Sound(g, st, w) && i < g.niaddr && ip.kind.Data?
    requires Shearing(g, w.tab, ino, cut, blocks0, ip0, [], st.disk.blocks, ip, bl, i)
    ensures TreesOk(g, st.disk.blocks, w.tab) && Shorn(g, w.tab, ino, cut, blocks0, st.disk.blocks)
    ensures |ip.addr| == g.niaddr && RefOk(g, w.tab, ip.addr[i], SlotOwner(g, ino, ip.large, i))
  {
  }

  lemma BaseOfFirst(g: Geometry, large: bool)
    ensures Base(g, large, 0) == 0
  {
  }

  lemma DirectSpan(g: Geometry, large: bool, i: nat)
    requires SlotLevel(g, large, i) < 0
    ensures Span32(g, large, i) == 1 && Height(g, large, i) == 0
  {
  }

  /** The 32-bit spans below the straddling slot are exact. */
  lemma StraddleSpan(g: Geometry, large: bool, i: nat, cut: nat)
    requires g.Valid() && Narrow(g) && i < g.niaddr && SlotLevel(g, large, i) >= 0
    requires Base(g, large, i) < cut < Base(g, large, i) + Span32(g, large, i)
    ensures var level := SlotLevel(g, large, i);
            && cut - Base(g, large, i) < Pow(g.nindir, level + 1)
            && Pow(g.nindir, level) < U32
  {
    var level: nat := SlotLevel(g, large, i);
    SpanNarrow(g, large, i);
    if level > 0 {
      PreviousSpan(g, large, i);
    }
  }

  lemma PreviousSpan(g: Geometry, large: bool, i: nat)
    requires g.Valid() && Narrow(g) && i < g.niaddr && SlotLevel(g, large, i) > 0
    ensures Pow(g.nindir, SlotLevel(g, large, i)) < U32
  {
    if g.ilarg && large {
      assert SlotLevel(g, large, 0) == 0;
      assert Base(g, large, 0) + Span32(g, large, 0) < U32;
    } else {
      assert SlotLevel(g, large, i - 1) == SlotLevel(g, large, i) - 1;
      assert Base(g, large, i - 1) + Span32(g, large, i - 1) < U32;
    }
  }

  /** Emptying one slot moves its claims to the list. */
  lemma EmptySlot(g: Geometry, blocks: seq<Block>, ip0: Inode, ip: Inode, i: nat, bl: seq<nat>, bl': seq<nat>)
    requires i < g.niaddr == |ip.addr| && ip.kind.Data?
    requires multiset(bl) + multiset(InodeClaims(g, blocks, ip)) == multiset(InodeClaims(g, blocks, ip0))
    requires multiset(bl') == multiset(bl) + multiset(Claims(g, blocks, ip.addr[i], Height(g, ip.large, i)))
    ensures multiset(bl') + multiset(InodeClaims(g, blocks, ip.(addr := ip.addr[i := 0]))) ==
            multiset(InodeClaims(g, blocks, ip0))
  {
    hide Claims, SlotsClaims, Height;
    var ip' := ip.(addr := ip.addr[i := 0]);
    SlotsSwap(g, blocks, ip, blocks, ip', i, 0);
    ClaimsOfNone(g, blocks, Height(g, ip.large, i));
    var c0, d := SlotsClaims(g, blocks, ip0, 0), Claims(g, blocks, ip.addr[i], Height(g, ip.large, i));
    var none: seq<nat> := [];
    Regroup(multiset(bl), multiset(bl'), multiset(SlotsClaims(g, blocks, ip, 0)),
        multiset(SlotsClaims(g, blocks, ip', 0)),
            multiset(d), multiset(none));
  }

  /** An inode without addresses claims nothing. */
  lemma {:induction false} NoClaims(g: Geometry, blocks: seq<Block>, ip: Inode, s: nat)
    requires forall t {:trigger ip.addr[t]} :: 0 <= t < |ip.addr| ==> ip.addr[t] == 0
    ensures SlotsClaims(g, blocks, ip, s) == []
    decreases g.niaddr - s
  {
    if s < g.niaddr {
      NoClaims(g, blocks, ip, s + 1);
    }
  }
}
