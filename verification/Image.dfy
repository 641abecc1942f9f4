/** Disk images, the block claims of their inodes, and the "never class D" contract. */
module Image {
  import opened Geometry
  import opened FreeChain

  datatype Kind = Unalloc | Device | Data

  datatype Inode = Inode(kind: Kind, large: bool, nlink: int, size: nat, addr: seq<nat>)

  datatype Image = Image(blocks: seq<Block>, inodes: seq<Inode>, sbN: nat, sbFree: seq<nat>)

  /** The blocks claimed by the subtree under `b`, the block itself first, in the order of
      the mark walk.  Height 0 is a data block. */
  function Claims(g: Geometry, blocks: seq<Block>, b: nat, h: nat): seq<nat>
    decreases h, 1, 0
  {
    if b == 0 then [] else if h == 0 then [b] else [b] + KidClaims(g, blocks, b, h, 0)
  }

  function KidClaims(g: Geometry, blocks: seq<Block>, b: nat, h: nat, i: nat): seq<nat>
    requires h >= 1
    decreases h, 0, g.nindir - i
  {
    if i >= g.nindir then []
    else Claims(g, blocks, Cell(blocks, b, i), h - 1) + KidClaims(g, blocks, b, h, i + 1)
  }

  function SlotClaims(g: Geometry, blocks: seq<Block>, ip: Inode, s: nat): seq<nat> {
    if s < |ip.addr| then Claims(g, blocks, ip.addr[s], Height(g, ip.large, s)) else []
  }

  function SlotsClaims(g: Geometry, blocks: seq<Block>, ip: Inode, s: nat): seq<nat>
    decreases g.niaddr - s
  {
    if s >= g.niaddr then [] else SlotClaims(g, blocks, ip, s) + SlotsClaims(g, blocks, ip, s + 1)
  }

  function InodeClaims(g: Geometry, blocks: seq<Block>, ip: Inode): seq<nat> {
    if ip.kind.Data? then SlotsClaims(g, blocks, ip, 0) else []
  }

  function AllClaims(g: Geometry, blocks: seq<Block>, inodes: seq<Inode>, ino: nat): seq<nat>
    decreases |inodes| - ino
  {
    if ino >= |inodes| then []
    else InodeClaims(g, blocks, inodes[ino]) + AllClaims(g, blocks, inodes, ino + 1)
  }

  predicate Distinct(s: seq<nat>) {
    forall i, j :: 0 <= i < j < |s| ==> s[i] != s[j]
  }

  /** The integrity contract of an image: its free list is intact, and no block is claimed
      twice, be it by two references or by a reference and the free list. */
  ghost predicate NeverD(g: Geometry, img: Image) {
    exists segs ::
      && Intact(g, img.blocks, img.sbN, img.sbFree, segs)
      && var claims := AllClaims(g, img.blocks, img.inodes, 1);
      && Distinct(claims)
      && forall x :: x in claims ==> g.IsData(x) && !Listed(segs, x)
  }
}
