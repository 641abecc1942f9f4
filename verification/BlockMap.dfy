/** The block map of an inode: logical block to physical block, over all its slots. */
module BlockMap {
  import opened Geometry
  import opened FreeChain
  import opened Image
  import opened Ownership
  import opened Consistency
  import opened Mapping
  import opened Descent

  /** The block that logical block lbn of an inode is mapped to, or 0. */
  function MapOf(g: Geometry, blocks: seq<Block>, ip: Inode, lbn: nat): nat
    requires g.nindir >= 1
  {
    var s := SlotFor(g, ip.large, lbn, 0);
    if s < g.niaddr && s < |ip.addr| && Base(g, ip.large, s) <= lbn then
      Walk(g, blocks, ip.addr[s], Height(g, ip.large, s), lbn - Base(g, ip.large, s))
    else 0
  }

  /** Every file but `ino` keeps its map, and `ino`, now ip', keeps its own except at lbn. */
  ghost predicate MapsKept(g: Geometry, tab: Table, blocks: seq<Block>, blocks': seq<Block>, ino: nat, ip: Inode,
      ip': Inode, lbn: int)
    requires g.nindir >= 1
  {
    && (forall k: nat {:trigger MapOf(g, blocks', ip', k)} :: k != lbn ==>
         MapOf(g, blocks', ip', k) == MapOf(g, blocks, ip, k))
    && (forall jno: nat, jp: Inode, k: nat {:trigger InodeOk(g, tab, jno, jp), MapOf(g, blocks', jp, k)} ::
          jno != ino && jp.kind.Data? && InodeOk(g, tab, jno, jp) ==>
              MapOf(g, blocks', jp, k) == MapOf(g, blocks, jp, k))
  }

  /** No leak in this file: every block the table gives to `ino` is claimed by the inode. */
  ghost predicate Tidy(g: Geometry, blocks: seq<Block>, tab: Table, ino: nat, ip: Inode) {
    forall x: nat {:trigger tab[x]} :: x < |tab| && tab[x].Owned? && tab[x].ino == ino ==>
        x in InodeClaims(g, blocks, ip)
  }

  lemma ResidueSmall(g: Geometry, r: nat, h: nat)
    requires g.nindir >= 1 && r < Pow(g.nindir, h)
    ensures Residue(g, r, h) == r
  {
    DivUnique(r, Pow(g.nindir, h), 0, r);
  }

  /** Growth at a logical block keeps the map of every other one. */
  lemma GrowsMap(g: Geometry, st: State, w: World, st': State, w': World, ino: nat, lbn: int, jno: nat, jp: Inode,
      k: nat)
    requires g.Valid() && Narrow(g) && Grows(g, st, w, st', w', ino, lbn)
    requires InodeOk(g, w.tab, jno, jp) && jp.kind.Data? && (jno == ino ==> k != lbn)
    ensures MapOf(g, st'.disk.blocks, jp, k) == MapOf(g, st.disk.blocks, jp, k)
  {
    hide SlotFor, Base, Residue, Pow, Height, Narrow, Keeps;
    var s := SlotFor(g, jp.large, k, 0);
    if s < g.niaddr && s < |jp.addr| && Base(g, jp.large, s) <= k {
      SlotRange(g, jp.large, k);
      var r := k - Base(g, jp.large, s);
      ResidueSmall(g, r, Height(g, jp.large, s));
      assert WalkKept(g, w.tab, st.disk.blocks, st'.disk.blocks, ino, lbn, jp.addr[s], SlotOwner(g, jno, jp.large, s),
             r);
    }
  }

  /** The outcome of a creating bmap at lbn: the block is mapped, fresh and zero if there was
      none, and no other logical block of this or any other file is mapped differently. */
  ghost predicate BmapDone(g: Geometry, st0: State, w0: World, st: State, w: World, ino: nat, ip: Inode, ip': Inode,
      lbn: nat, out: nat)
    requires g.nindir >= 1
  {
    var was := MapOf(g, st0.disk.blocks, ip, lbn);
    && Keeps(st0, w0, st, w, ino)
    && InodeOk(g, w.tab, ino, ip') && ip' == ip.(addr := ip'.addr, large := ip'.large)
    && MapsKept(g, w0.tab, st0.disk.blocks, st.disk.blocks, ino, ip, ip', lbn)
    && (Tidy(g, st0.disk.blocks, w0.tab, ino, ip) ==> Tidy(g, st.disk.blocks, w.tab, ino, ip'))
    && out != 0 && out == MapOf(g, st.disk.blocks, ip', lbn)
    && (was != 0 ==> out == was && st == st0 && w == w0 && ip' == ip)
    && (was == 0 ==> g.IsData(out) && out < |w0.tab| && !w0.tab[out].Owned?
                     && out < |st.disk.blocks| && st.disk.blocks[out] == Zeros(g.bsize))
    && (Hidden(g, st0.disk, w0.tab, ino, lbn) ==> w.breach == w0.breach && NoNewClaims(g, st0.disk, st.disk))
  }

  /** The outcome of a bmap that failed: no logical block is mapped differently. */
  ghost predicate BmapFailed(g: Geometry, st0: State, w0: World, st: State, w: World, ino: nat, ip: Inode, ip': Inode,
      lbn: nat)
    requires g.nindir >= 1
  {
    && Keeps(st0, w0, st, w, ino)
    && InodeOk(g, w.tab, ino, ip') && ip' == ip.(addr := ip'.addr, large := ip'.large)
    && MapsKept(g, w0.tab, st0.disk.blocks, st.disk.blocks, ino, ip, ip', -1)
    && (Tidy(g, st0.disk.blocks, w0.tab, ino, ip) ==> Tidy(g, st.disk.blocks, w.tab, ino, ip'))
    && (Hidden(g, st0.disk, w0.tab, ino, lbn) || MapOf(g, st0.disk.blocks, ip, lbn) != 0 ==>
         w.breach == w0.breach && NoNewClaims(g, st0.disk, st.disk))
  }

  lemma InodeKept(g: Geometry, tab: Table, tab': Table, ino: nat, ip: Inode)
    requires InodeOk(g, tab, ino, ip) && |tab'| == |tab|
    requires forall c {:trigger tab'[c]} :: 0 <= c < |tab| && tab[c].Owned? ==> tab'[c] == tab[c]
    ensures InodeOk(g, tab', ino, ip)
  {
  }

  /** The map of an inode whose slot s changed from a to b, one logical block at a time. */
  lemma SlotMap(g: Geometry, st0: State, w0: World, st: State, w: World, ino: nat, ip: Inode, s: nat, b: nat, at: int,
      k: nat)
    requires g.Valid() && Narrow(g) && InodeOk(g, w0.tab, ino, ip) && ip.kind.Data? && s < g.niaddr
    requires Grows(g, st0, w0, st, w, ino, if at < 0 then -1 else Base(g, ip.large, s) + at)
    requires ip.addr[s] != 0 ==> b == ip.addr[s]
    requires ip.addr[s] == 0 ==> OnlyAt(g, st.disk.blocks, b, Height(g, ip.large, s), at)
    requires at < 0 || k != Base(g, ip.large, s) + at
    ensures MapOf(g, st.disk.blocks, ip.(addr := ip.addr[s := b]), k) == MapOf(g, st0.disk.blocks, ip, k)
  {
    hide Grows, Narrow, SlotFor, Base, Residue, Height;
    var ip' := ip.(addr := ip.addr[s := b]);
    var t := SlotFor(g, ip.large, k, 0);
    GrowsMap(g, st0, w0, st, w, ino, if at < 0 then -1 else Base(g, ip.large, s) + at, ino, ip, k);
    if t == s && ip.addr[s] == 0 && Base(g, ip.large, s) <= k {
      SlotRange(g, ip.large, k);
      var r := k - Base(g, ip.large, s);
      ResidueSmall(g, r, Height(g, ip.large, s));
      assert Walk(g, st.disk.blocks, b, Height(g, ip.large, s), r) == 0;
    }
  }

  lemma SlotMaps(g: Geometry, st0: State, w0: World, st: State, w: World, ino: nat, ip: Inode, s: nat, b: nat, at: int)
    requires g.Valid() && Narrow(g) && InodeOk(g, w0.tab, ino, ip) && ip.kind.Data? && s < g.niaddr
    requires Grows(g, st0, w0, st, w, ino, if at < 0 then -1 else Base(g, ip.large, s) + at)
    requires ip.addr[s] != 0 ==> b == ip.addr[s]
    requires ip.addr[s] == 0 ==> OnlyAt(g, st.disk.blocks, b, Height(g, ip.large, s), at)
    requires RefOk(g, w.tab, b, SlotOwner(g, ino, ip.large, s))
    ensures InodeOk(g, w.tab, ino, ip.(addr := ip.addr[s := b]))
    ensures MapsKept(g, w0.tab, st0.disk.blocks, st.disk.blocks, ino, ip, ip.(addr := ip.addr[s := b]), if at < 0
            then -1 else Base(g, ip.large, s) + at)
  {
    hide Grows, Narrow, OnlyAt, SlotFor, Base, Residue, Pow, Height, Walk, MapOf;
    GrowsKeeps(g, st0, w0, st, w, ino, if at < 0 then -1 else Base(g, ip.large, s) + at);
    var ip' := ip.(addr := ip.addr[s := b]);
    var lbn := if at < 0 then -1 else Base(g, ip.large, s) + at;
    InodeKept(g, w0.tab, w.tab, ino, ip);
    forall k: nat {:trigger MapOf(g, st.disk.blocks, ip', k)} | k != lbn
      ensures MapOf(g, st.disk.blocks, ip', k) == MapOf(g, st0.disk.blocks, ip, k)
    {
      SlotMap(g, st0, w0, st, w, ino, ip, s, b, at, k);
    }
    forall jno: nat, jp: Inode, k: nat {:trigger InodeOk(g, w0.tab, jno, jp), MapOf(g, st.disk.blocks, jp, k)}
      | jno != ino && jp.kind.Data? && InodeOk(g, w0.tab, jno, jp)
      ensures MapOf(g, st.disk.blocks, jp, k) == MapOf(g, st0.disk.blocks, jp, k)
    {
      GrowsMap(g, st0, w0, st, w, ino, lbn, jno, jp, k);
    }
  }

  /** What the walk down slot s took is claimed through the slot. */
  lemma SlotTidy(g: Geometry, st0: State, w0: World, st: State, w: World, ino: nat, ip: Inode, s: nat, b: nat, lbn: int)
    requires g.Valid() && InodeOk(g, w0.tab, ino, ip) && ip.kind.Data? && s < g.niaddr
    requires Grows(g, st0, w0, st, w, ino, lbn) && Accounted(g, w0, st, w, b, Height(g, ip.large, s))
    requires ip.addr[s] != 0 ==> b == ip.addr[s]
    requires Tidy(g, st0.disk.blocks, w0.tab, ino, ip)
    ensures Tidy(g, st.disk.blocks, w.tab, ino, ip.(addr := ip.addr[s := b]))
  {
    hide SlotsClaims, WalksKept, Height, Base;
    var ip' := ip.(addr := ip.addr[s := b]);
    forall x: nat {:trigger w.tab[x]} | x < |w.tab| && w.tab[x].Owned? && w.tab[x].ino == ino
      ensures x in InodeClaims(g, st.disk.blocks, ip')
    {
      var t: nat := s;
      if w0.tab[x].Owned? {
        assert x in InodeClaims(g, st0.disk.blocks, ip);
        t := SlotsMember(g, st0.disk.blocks, ip, x, 0);
        assert ClaimsKept(g, w0.tab, st0.disk.blocks, st.disk.blocks, ip.addr[t], SlotOwner(g, ino, ip.large, t));
        assert t == s && ip.addr[s] == 0 ==> x !in SlotClaims(g, st0.disk.blocks, ip, t);
      }
      assert x in SlotClaims(g, st.disk.blocks, ip', t);
      SlotsHas(g, st.disk.blocks, ip', x, 0, t);
    }
  }

  /** The walk down slot s, as an outcome of bmap. */
  lemma SlotMapped(g: Geometry, st0: State, w0: World, st: State, w: World, ino: nat, ip: Inode, lbn: nat, s: nat,
      b: nat, out: nat)
    requires g.Valid() && Narrow(g) && InodeOk(g, w0.tab, ino, ip) && ip.kind.Data?
    requires s == SlotFor(g, ip.large, lbn, 0) && s < g.niaddr && Base(g, ip.large, s) <= lbn
    requires Mapped(g, st0, w0, st, w, ip.addr[s], b, SlotOwner(g, ino, ip.large, s), lbn - Base(g, ip.large, s), out)
    ensures BmapDone(g, st0, w0, st, w, ino, ip, ip.(addr := ip.addr[s := b]), lbn, out)
  {
    hide Grows, Narrow, OnlyAt, Hidden, NoNewClaims, MapsKept, SlotFor, Base, Residue, Pow, Height, Walk, Keeps, Tidy,
         Accounted;
    SlotRange(g, ip.large, lbn);
    var r := lbn - Base(g, ip.large, s);
    ResidueSmall(g, r, Height(g, ip.large, s));
    GrowsKeeps(g, st0, w0, st, w, ino, lbn);
    SlotMaps(g, st0, w0, st, w, ino, ip, s, b, r);
    if Tidy(g, st0.disk.blocks, w0.tab, ino, ip) {
      SlotTidy(g, st0, w0, st, w, ino, ip, s, b, lbn);
    }
  }

  lemma GrowsKeeps(g: Geometry, st0: State, w0: World, st: State, w: World, ino: nat, lbn: int)
    requires g.nindir >= 1 && Grows(g, st0, w0, st, w, ino, lbn)
    ensures Keeps(st0, w0, st, w, ino)
  {
  }

  lemma SlotAborted(g: Geometry, st0: State, w0: World, st: State, w: World, ino: nat, ip: Inode, lbn: nat, s: nat,
      b: nat)
    requires g.Valid() && Narrow(g) && InodeOk(g, w0.tab, ino, ip) && ip.kind.Data?
    requires s == SlotFor(g, ip.large, lbn, 0) && s < g.niaddr && Base(g, ip.large, s) <= lbn
    requires Aborted(g, st0, w0, st, w, ip.addr[s], b, SlotOwner(g, ino, ip.large, s), lbn - Base(g, ip.large, s))
    ensures BmapFailed(g, st0, w0, st, w, ino, ip, ip.(addr := ip.addr[s := b]), lbn)
  {
    hide Grows, Narrow, OnlyAt, Hidden, NoNewClaims, MapsKept, SlotFor, Base, Residue, Pow, Height, Walk, Keeps, Tidy,
         Accounted;
    SlotRange(g, ip.large, lbn);
    ResidueSmall(g, lbn - Base(g, ip.large, s), Height(g, ip.large, s));
    GrowsKeeps(g, st0, w0, st, w, ino, -1);
    SlotMaps(g, st0, w0, st, w, ino, ip, s, b, -1);
    if Tidy(g, st0.disk.blocks, w0.tab, ino, ip) {
      SlotTidy(g, st0, w0, st, w, ino, ip, s, b, -1);
    }
  }

  /** Allocator work maps nothing. */
  lemma AllocUnmapped(g: Geometry, st0: State, w0: World, st: State, w: World, ino: nat, ip: Inode, lbn: nat)
    requires Sound(g, st0, w0) && AllocFrame(st0, w0, st, w) && Narrow(g) && InodeOk(g, w0.tab, ino, ip) &&
             ip.kind.Data?
    ensures BmapFailed(g, st0, w0, st, w, ino, ip, ip, lbn)
  {
    hide Narrow, InodeOk;
    AllocGrows(g, st0, w0, st, w, ino, -1);
    AllocNoNewClaims(g, st0, w0, st, w);
    GrowsKeeps(g, st0, w0, st, w, ino, -1);
    InodeKept(g, w0.tab, w.tab, ino, ip);
    forall jno: nat, jp: Inode, k: nat {:trigger InodeOk(g, w0.tab, jno, jp), MapOf(g, st.disk.blocks, jp, k)}
      | jp.kind.Data? && InodeOk(g, w0.tab, jno, jp)
      ensures MapOf(g, st.disk.blocks, jp, k) == MapOf(g, st0.disk.blocks, jp, k)
    {
      GrowsMap(g, st0, w0, st, w, ino, -1, jno, jp, k);
    }
    forall k: nat {:trigger MapOf(g, st.disk.blocks, ip, k)}
      ensures MapOf(g, st.disk.blocks, ip, k) == MapOf(g, st0.disk.blocks, ip, k)
    {
      GrowsMap(g, st0, w0, st, w, ino, -1, ino, ip, k);
    }
    if Tidy(g, st0.disk.blocks, w0.tab, ino, ip) {
      AllocTidy(g, st0, w0, st, w, ino, ip);
    }
  }

  lemma AllocTidy(g: Geometry, st0: State, w0: World, st: State, w: World, ino: nat, ip: Inode)
    requires Sound(g, st0, w0) && AllocFrame(st0, w0, st, w) && InodeOk(g, w0.tab, ino, ip) && ip.kind.Data?
    requires Tidy(g, st0.disk.blocks, w0.tab, ino, ip)
    ensures Tidy(g, st.disk.blocks, w.tab, ino, ip)
  {
    AllocGrows(g, st0, w0, st, w, ino, -1);
    forall x: nat {:trigger w.tab[x]} | x < |w.tab| && w.tab[x].Owned? && w.tab[x].ino == ino
      ensures x in InodeClaims(g, st.disk.blocks, ip)
    {
      var t := SlotsMember(g, st0.disk.blocks, ip, x, 0);
      assert ClaimsKept(g, w0.tab, st0.disk.blocks, st.disk.blocks, ip.addr[t], SlotOwner(g, ino, ip.large, t));
      SlotsHas(g, st.disk.blocks, ip, x, 0, t);
    }
  }

  lemma Unmapped(g: Geometry, st: State, w: World, ino: nat, ip: Inode, lbn: nat)
    requires Sound(g, st, w) && InodeOk(g, w.tab, ino, ip)
    ensures BmapFailed(g, st, w, st, w, ino, ip, ip, lbn)
  {
  }

  lemma WalkDirect(g: Geometry, blocks: seq<Block>, b: nat, r: nat)
    requires g.nindir >= 1
    ensures Walk(g, blocks, b, 0, r) == b
  {
  }
}
