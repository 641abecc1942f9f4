/** The PDP-7 free list (pdp7fs.c): nodes of nine slots, each node a free block itself.  It is
    the same last-in-first-out stack as the V7 list. */
module Pdp7List {
  import opened Device
  import opened Image

  datatype Errno = OK | ENOSPC | EIO

  /** A node: its own block, and the blocks in its used slots, which come first. */
  datatype Node = Node(block: nat, slots: seq<nat>)

  const Slots: nat := 9
  const MaxWord: nat := 0x3FFFF  // 18 bits

  /** The listed blocks as a stack, top last: a node lies below the blocks in its slots. */
  function Stack(nodes: seq<Node>): seq<nat> {
    if nodes == [] then []
    else Stack(nodes[..|nodes| - 1]) + [nodes[|nodes| - 1].block] + nodes[|nodes| - 1].slots
  }

  /** The words of block b are those of a node with these slots, above `next`. */
  ghost predicate Holds(disk: seq<seq<nat>>, n: Node, next: nat) {
    && 1 <= n.block < |disk| && |disk[n.block]| > Slots && |n.slots| <= Slots
    && disk[n.block][0] == next
    && forall i {:trigger disk[n.block][i]} :: 1 <= i <= Slots ==>
         disk[n.block][i] == if i <= |n.slots| then n.slots[i - 1] else 0
  }

  ghost predicate Chained(disk: seq<seq<nat>>, nodes: seq<Node>) {
    forall j {:trigger nodes[j]} :: 0 <= j < |nodes| ==> Holds(disk, nodes[j], if j == 0 then 0 else nodes[j - 1].block)
  }

  ghost predicate InRange(disk: seq<seq<nat>>, s: seq<nat>) {
    forall i {:trigger s[i]} :: 0 <= i < |s| ==> 1 <= s[i] < |disk| && s[i] <= MaxWord
  }

  lemma {:induction false} InStack(nodes: seq<Node>, j: nat) returns (at: nat)
    requires j < |nodes|
    ensures at + |nodes[j].slots| < |Stack(nodes)| && Stack(nodes)[at] == nodes[j].block
    ensures forall i {:trigger nodes[j].slots[i]} :: 0 <= i < |nodes[j].slots| ==>
            Stack(nodes)[at + 1 + i] == nodes[j].slots[i]
    decreases |nodes|
  {
    var n := |nodes| - 1;
    if j < n {
      at := InStack(nodes[..n], j);
    } else {
      at := |Stack(nodes[..n])|;
    }
  }

  /** The stack with its top node taken apart. */
  lemma StackTop(below: seq<Node>, top: Node)
    ensures Stack(below + [top]) == Stack(below) + [top.block] + top.slots
  {
    assert (below + [top])[..|below|] == below;
  }

  /** Nodes below are untouched by a write to a block that is not one of them. */
  lemma ChainedAgree(disk: seq<seq<nat>>, disk': seq<seq<nat>>, nodes: seq<Node>, b: nat)
    requires Chained(disk, nodes) && |disk'| == |disk|
    requires forall c {:trigger disk'[c]} :: 0 <= c < |disk| && c != b ==> disk'[c] == disk[c]
    requires b !in Stack(nodes)
    ensures Chained(disk', nodes)
  {
    forall j {:trigger nodes[j]} | 0 <= j < |nodes|
      ensures Holds(disk', nodes[j], if j == 0 then 0 else nodes[j - 1].block)
    {
      assert Holds(disk, nodes[j], if j == 0 then 0 else nodes[j - 1].block);
      var at := InStack(nodes, j);
      assert Stack(nodes)[at] in Stack(nodes);
    }
  }

  function SetWord(v: seq<nat>, i: nat, x: nat): seq<nat> {
    if i < |v| then v[i := x] else v
  }

  function Zeros(n: nat): seq<nat> {
    seq(n, _ => 0)
  }

  lemma ZerosLength(n: nat)
    ensures |Zeros(n)| == n
  {
  }

  /** The list on disk that starts at `freelist` is the chain of these nodes. */
  ghost predicate Listing(freelist: nat, disk: seq<seq<nat>>, nodes: seq<Node>) {
    && Chained(disk, nodes)
    && Distinct(Stack(nodes)) && InRange(disk, Stack(nodes))
    && (forall b {:trigger disk[b]} :: 0 <= b < |disk| ==> |disk[b]| > Slots)
    && freelist == if nodes == [] then 0 else nodes[|nodes| - 1].block
  }

  class Volume {
    var freelist: nat
    var disk: seq<seq<nat>>   // blocks of words

    const fails: nat -> bool  // which reads and writes fail
    var tick: nat             // reads and writes so far

    constructor (freelist: nat, disk: seq<seq<nat>>, fails: nat -> bool)
      ensures this.freelist == freelist && this.disk == disk && this.fails == fails && tick == 0
    {
      this.freelist, this.disk, this.fails, tick := freelist, disk, fails, 0;
    }

    /** The reads and writes that failed so far. */
    ghost function Faults(): nat
      reads this`tick
    {
      Failures(fails, tick)
    }

    lemma Unfailing()
      ensures Reliable(fails) ==> Faults() == 0
    {
      if Reliable(fails) {
        NoFailures(fails, tick);
      }
    }

    /** One read or write of the device. */
    method Ready() returns (ok: bool)
      modifies this`tick
      ensures Faults() == if ok then old(Faults()) else old(Faults()) + 1
    {
      ok := !fails(tick);
      tick := tick + 1;
    }

    method ReadWords(b: nat) returns (ok: bool, words: seq<nat>)
      requires b < |disk|
      modifies this`tick
      ensures Faults() == if ok then old(Faults()) else old(Faults()) + 1
      ensures ok ==> words == disk[b]
    {
      ok := Ready();
      words := disk[b];
    }

    method WriteWords(b: nat, words: seq<nat>) returns (ok: bool)
      requires b < |disk|
      modifies this`tick, this`disk
      ensures Faults() == if ok then old(Faults()) else old(Faults()) + 1
      ensures disk == if ok then old(disk)[b := words] else old(disk)
    {
      ok := Ready();
      if ok {
        disk := disk[b := words];
      }
    }

    /** Take the block in the last used slot of the head node, or the node itself.  Whatever
        fails, the list stays intact; a block that could not be zeroed is lost to it. */
    method Balloc(ghost nodes: seq<Node>) returns (rc: Errno, bno: nat, ghost nodes': seq<Node>)
      requires Listing(freelist, disk, nodes)
      modifies this
      ensures Listing(freelist, disk, nodes') && |disk| == |old(disk)|
      ensures old(Faults()) <= Faults() && (rc == EIO <==> old(Faults()) < Faults())
      ensures rc == ENOSPC <==> Stack(nodes) == []
      ensures rc == ENOSPC ==> nodes' == nodes && disk == old(disk)
      ensures rc == OK ==> Stack(nodes) == Stack(nodes') + [bno] && bno < |disk| && disk[bno] == Zeros(|disk[bno]|)
      ensures rc == EIO ==> Stack(nodes') == Stack(nodes) || exists b :: Stack(nodes) == Stack(nodes') + [b]
      ensures rc != ENOSPC ==>
              forall c :: 0 <= c < |disk| && (rc == OK ==> c != bno) && (c == 0 || c != old(freelist)) ==>
              disk[c] == old(disk)[c]
    {
      hide Listing, Stack, Zeros;
      Head(freelist, disk, nodes);
      nodes' := nodes;
      var h := freelist;
      if h == 0 {
        return ENOSPC, 0, nodes';
      }
      var ok, words := ReadWords(h);
      if !ok {
        return EIO, 0, nodes';
      }
      var last := LastUsed(words, nodes[|nodes| - 1]);
      ghost var popped;
      if last == 0 {
        popped := PopNode(freelist, disk, nodes);
        freelist := words[0] % (MaxWord + 1);
        bno := h;
      } else {
        popped := PopSlot(freelist, disk, nodes);
        bno := words[last];
        ok := WriteWords(h, SetWord(words, last, 0));
        if !ok {
          return EIO, bno, nodes';
        }
      }
      nodes' := popped;
      ghost var disk1 := disk;
      ZerosLength(|disk[bno]|);
      ok := WriteWords(bno, Zeros(|disk[bno]|));
      if !ok {
        Unzeroed(freelist, disk1, old(disk), old(freelist), nodes, nodes', bno);
        return EIO, bno, nodes';
      }
      rc := OK;
    }

    /** Free a block: into the first empty slot of the head node, or as a new head.  Failed reads
        and writes go unnoticed: the block is lost to the list, and if it is a new head that
        could not be written, `torn`, the list is from now on what that block happened to hold.
        `good` says that the list is intact before. */
    method Bfree(bno: nat, ghost good: bool, ghost nodes: seq<Node>) returns (ghost torn: bool, ghost nodes': seq<Node>)
      requires good ==> Listing(freelist, disk, nodes) && (bno != 0 ==> bno <= MaxWord && bno !in Stack(nodes))
      requires freelist < |disk| && bno < |disk| && forall b {:trigger disk[b]} :: 0 <= b < |disk| ==> |disk[b]| > Slots
      modifies this
      ensures |disk| == |old(disk)| && old(Faults()) <= Faults() && freelist in {old(freelist), bno}
      ensures forall b {:trigger disk[b]} :: 0 <= b < |disk| ==> |disk[b]| > Slots
      ensures good && !torn ==> Listing(freelist, disk, nodes')
      ensures Faults() == old(Faults()) ==> !torn
      ensures good && Faults() == old(Faults()) ==>
              Stack(nodes') == if bno == 0 then Stack(nodes) else Stack(nodes) + [bno]
      ensures Faults() > old(Faults()) ==> disk == old(disk) && nodes' == nodes
      ensures good ==> (torn <==> Faults() > old(Faults()) && freelist != old(freelist))
      ensures good && torn ==> nodes == [] || |nodes[|nodes| - 1].slots| == Slots
      ensures forall c :: 0 <= c < |disk| && c != bno && (c == 0 || c != old(freelist)) ==> disk[c] == old(disk)[c]
    {
      hide Listing, Stack, Zeros;
      if good {
        Head(freelist, disk, nodes);
      }
      nodes', torn := nodes, false;
      if bno == 0 {
        return;
      }
      ZerosLength(|disk[bno]|);
      var h := freelist;
      if h == 0 {
        ghost var pushed := nodes;
        if good {
          pushed := PushFirst(freelist, disk, nodes, bno);
        }
        freelist := bno;
        var ok := WriteWords(bno, Zeros(|disk[bno]|));
        torn, nodes' := !ok, if ok then pushed else nodes;
        return;
      }
      var ok, words := ReadWords(h);
      if !ok {
        return;
      }
      for i := 1 to Slots + 1
        invariant disk == old(disk) && freelist == h && Faults() == old(Faults()) &&
                  (good ==> i <= |nodes[|nodes| - 1].slots| + 1)
      {
        if words[i] == 0 {
          ghost var pushed := nodes;
          if good {
            pushed := PushSlot(freelist, disk, nodes, bno);
          }
          ok := WriteWords(h, SetWord(words, i, bno));
          nodes' := if ok then pushed else nodes;
          return;
        }
      }
      ghost var pushed := nodes;
      if good {
        pushed := PushNode(freelist, disk, nodes, bno);
      }
      ok := WriteWords(bno, SetWord(Zeros(|disk[bno]|), 0, h));
      freelist := bno;
      torn, nodes' := !ok, if ok then pushed else nodes;
    }

    /** Rebuild the list from a map of used blocks, from the last block down: every unused
        block from lo to hi is listed once, the lowest on top. */
    method Makefree(used: seq<bool>, lo: nat, hi: nat) returns (nfree: nat, ghost nodes: seq<Node>)
      requires 1 <= lo <= hi <= |disk| && hi <= MaxWord && |used| == hi - lo
      requires forall b {:trigger disk[b]} :: 0 <= b < |disk| ==> |disk[b]| > Slots
      modifies this
      ensures |disk| == |old(disk)| && old(Faults()) <= Faults()
      ensures Faults() == old(Faults()) ==>
                Listing(freelist, disk, nodes) && Stack(nodes) == Unused(used, lo, hi, lo) && nfree == |Stack(nodes)|
      ensures forall b :: 0 <= b < |disk| && !(lo <= b < hi && !used[b - lo]) ==> disk[b] == old(disk)[b]
    {
      hide Stack, Zeros, Listing, Unused;
      freelist := 0;
      UnusedNone(used, lo, hi);
      nfree, nodes := 0, [];
      EmptyList(disk);
      var b := hi;
      while b > lo
        invariant lo <= b <= hi && |disk| == |old(disk)| && old(Faults()) <= Faults()
        invariant freelist == 0 || (lo <= freelist < hi && !used[freelist - lo])
        invariant forall c {:trigger disk[c]} :: 0 <= c < |disk| ==> |disk[c]| > Slots
        invariant Faults() == old(Faults()) ==>
                    nfree == |Stack(nodes)| && Listing(freelist, disk, nodes) && Stack(nodes) == Unused(used, lo, hi, b)
        invariant forall c :: 0 <= c < |disk| && !(lo <= c < hi && !used[c - lo]) ==> disk[c] == old(disk)[c]
      {
        UnusedOnes(used, lo, hi, b);
        UnusedStep(used, lo, hi, b - 1);
        b := b - 1;
        if !used[b - lo] {
          ghost var torn;
          torn, nodes := Bfree(b, Faults() == old(Faults()), nodes);
          nfree := nfree + 1;
        }
      }
    }
  }

  /** A block popped but not zeroed: the list does not reach it. */
  lemma Unzeroed(freelist: nat, disk: seq<seq<nat>>, disk0: seq<seq<nat>>, freelist0: nat, nodes: seq<Node>,
      nodes': seq<Node>, b: nat)
    requires Listing(freelist0, disk0, nodes) && Stack(nodes) == Stack(nodes') + [b] && b < |disk|
    requires Listing(freelist, disk[b := Zeros(|disk[b]|)], nodes') && |disk[b]| > Slots
    ensures Listing(freelist, disk, nodes')
  {
    hide Stack, Zeros;
    var n := |Stack(nodes')|;
    assert Stack(nodes)[n] == b;
    assert forall i :: 0 <= i < n ==> Stack(nodes)[i] == Stack(nodes')[i];
    assert b !in Stack(nodes');
    var d := disk[b := Zeros(|disk[b]|)];
    ChainedAgree(d, disk, nodes', b);
    forall c {:trigger disk[c]} | 0 <= c < |disk|
      ensures |disk[c]| > Slots
    {
      assert c != b ==> d[c] == disk[c];
    }
  }

  /** The unused blocks from b to hi, highest first. */
  function Unused(used: seq<bool>, lo: nat, hi: nat, b: nat): seq<nat>
    requires lo <= b <= hi && |used| == hi - lo
    decreases hi - b
  {
    if b == hi then [] else Unused(used, lo, hi, b + 1) + if used[b - lo] then [] else [b]
  }

  lemma {:induction false} UnusedOnes(used: seq<bool>, lo: nat, hi: nat, b: nat)
    requires lo <= b <= hi && |used| == hi - lo
    ensures forall x :: x in Unused(used, lo, hi, b) <==> b <= x < hi && !used[x - lo]
    decreases hi - b
  {
    if b < hi {
      UnusedOnes(used, lo, hi, b + 1);
    }
  }

  lemma UnusedNone(used: seq<bool>, lo: nat, hi: nat)
    requires lo <= hi && |used| == hi - lo
    ensures Unused(used, lo, hi, hi) == []
  {
  }

  lemma UnusedStep(used: seq<bool>, lo: nat, hi: nat, b: nat)
    requires lo <= b < hi && |used| == hi - lo
    ensures Unused(used, lo, hi, b) == Unused(used, lo, hi, b + 1) + if used[b - lo] then [] else [b]
  {
  }

  lemma EmptyList(disk: seq<seq<nat>>)
    requires forall b {:trigger disk[b]} :: 0 <= b < |disk| ==> |disk[b]| > Slots
    ensures Listing(0, disk, []) && Stack([]) == []
  {
  }

  lemma Head(freelist: nat, disk: seq<seq<nat>>, nodes: seq<Node>)
    requires Listing(freelist, disk, nodes)
    ensures freelist == 0 <==> nodes == []
    ensures Stack(nodes) == [] <==> nodes == []
    ensures forall b {:trigger disk[b]} :: 0 <= b < |disk| ==> |disk[b]| > Slots
    ensures nodes != [] ==>
              var head := nodes[|nodes| - 1];
              && head.block == freelist < |disk| && |head.slots| <= Slots
              && (freelist in Stack(nodes))
              && (forall i {:trigger disk[freelist][i]} :: 1 <= i <= Slots ==>
                   disk[freelist][i] == if i <= |head.slots| then head.slots[i - 1] else 0)
              && (forall i {:trigger head.slots[i]} :: 0 <= i < |head.slots| ==>
                   head.slots[i] != 0 && head.slots[i] < |disk|)
  {
    if nodes != [] {
      TopHolds(disk, nodes);
      var at := InStack(nodes, |nodes| - 1);
      assert Stack(nodes)[at] in Stack(nodes);
    }
  }

  function Link(nodes: seq<Node>): nat {
    if nodes == [] then 0 else nodes[|nodes| - 1].block
  }

  ghost predicate Wide(disk: seq<seq<nat>>) {
    forall b {:trigger disk[b]} :: 0 <= b < |disk| ==> |disk[b]| > Slots
  }

  /** A list that is not empty, taken apart. */
  lemma Apart(freelist: nat, disk: seq<seq<nat>>, nodes: seq<Node>) returns (below: seq<Node>, head: Node)
    requires Listing(freelist, disk, nodes) && nodes != []
    ensures nodes == below + [head] && head == nodes[|nodes| - 1] && head.block == freelist
    ensures Chained(disk, below) && Holds(disk, head, Link(below)) && Wide(disk)
    ensures Stack(nodes) == Stack(below) + [head.block] + head.slots && Distinct(Stack(nodes)) &&
            InRange(disk, Stack(nodes))
    ensures Link(below) <= MaxWord
  {
    hide Stack, Chained, Distinct, InRange, Holds;
    var n := |nodes| - 1;
    head, below := nodes[n], nodes[..n];
    assert nodes == below + [head];
    StackTop(below, head);
    TopHolds(disk, nodes);
    ChainPrefix(disk, nodes);
    if n > 0 {
      NodeBound(disk, nodes, n - 1);
    }
  }

  lemma NodeBound(disk: seq<seq<nat>>, nodes: seq<Node>, j: nat)
    requires InRange(disk, Stack(nodes)) && j < |nodes|
    ensures nodes[j].block <= MaxWord
  {
    hide Stack;
    var at := InStack(nodes, j);
    assert Stack(nodes)[at] <= MaxWord;
  }

  /** A list put together from a new head and the nodes below it. */
  lemma Together(disk: seq<seq<nat>>, below: seq<Node>, top: Node)
    requires Chained(disk, below) && Holds(disk, top, Link(below)) && Wide(disk)
    requires Distinct(Stack(below) + [top.block] + top.slots) && InRange(disk, Stack(below) + [top.block] + top.slots)
    ensures Listing(top.block, disk, below + [top]) && Stack(below + [top]) == Stack(below) + [top.block] + top.slots
  {
    hide Stack, Distinct, InRange, Holds, Chained;
    StackTop(below, top);
    ChainPush(disk, below, top);
  }

  /** An exhausted head node yields its own block. */
  lemma PopNode(freelist: nat, disk: seq<seq<nat>>, nodes: seq<Node>) returns (nodes': seq<Node>)
    requires Listing(freelist, disk, nodes) && nodes != [] && nodes[|nodes| - 1].slots == []
    ensures freelist < |disk| && |disk[freelist]| > Slots
    ensures Stack(nodes) == Stack(nodes') + [freelist]
    ensures Listing(disk[freelist][0] % (MaxWord + 1), disk[freelist := Zeros(|disk[freelist]|)], nodes')
  {
    hide Stack, Distinct, InRange, Chained, Listing;
    var below, head := Apart(freelist, disk, nodes);
    nodes' := below;
    assert Stack(nodes) == Stack(below) + [freelist];
    Shorter(Stack(below), freelist, disk);
    var disk' := disk[freelist := Zeros(|disk[freelist]|)];
    ChainedAgree(disk, disk', below, freelist);
    Remainder(disk, disk', below);
  }

  lemma Remainder(disk: seq<seq<nat>>, disk': seq<seq<nat>>, below: seq<Node>)
    requires Chained(disk', below) && Distinct(Stack(below)) && InRange(disk, Stack(below)) && |disk'| == |disk| &&
             Wide(disk')
    ensures Listing(Link(below), disk', below)
  {
    hide Stack, Distinct, Chained;
  }

  lemma PopSlot(freelist: nat, disk: seq<seq<nat>>, nodes: seq<Node>) returns (nodes': seq<Node>)
    requires Listing(freelist, disk, nodes) && nodes != [] && nodes[|nodes| - 1].slots != []
    ensures var last := |nodes[|nodes| - 1].slots|;
            && freelist < |disk| && |disk[freelist]| > Slots >= last && disk[freelist][last] < |disk|
            && var b := disk[freelist][last];
            && Stack(nodes) == Stack(nodes') + [b] && b != freelist
            && Listing(freelist, disk[freelist := SetWord(disk[freelist], last, 0)][b := Zeros(|disk[b]|)], nodes')
  {
    hide Stack, Distinct, InRange, Chained, Listing;
    var below, head := Apart(freelist, disk, nodes);
    var last := |head.slots|;
    var b := disk[freelist][last];
    var top := Node(head.block, head.slots[..last - 1]);
    nodes' := below + [top];
    var rest := Stack(below) + [head.block] + top.slots;
    assert Stack(nodes) == rest + [b];
    Shorter(rest, b, disk);
    Pieces(Stack(below), head.block, top.slots, b);
    var d1 := disk[freelist := SetWord(disk[freelist], last, 0)];
    var d2 := d1[b := Zeros(|disk[b]|)];
    ChainedAgree(disk, d1, below, freelist);
    ChainedAgree(d1, d2, below, b);
    StillInRange(disk, d2, rest);
    Together(d2, below, top);
  }

  lemma StillInRange(disk: seq<seq<nat>>, disk': seq<seq<nat>>, s: seq<nat>)
    requires InRange(disk, s) && |disk'| == |disk|
    ensures InRange(disk', s)
  {
  }

  lemma PushFirst(freelist: nat, disk: seq<seq<nat>>, nodes: seq<Node>, b: nat) returns (nodes': seq<Node>)
    requires Listing(freelist, disk, nodes) && nodes == [] && 1 <= b < |disk| && b <= MaxWord
    ensures Stack(nodes') == Stack(nodes) + [b] && Listing(b, disk[b := Zeros(|disk[b]|)], nodes')
  {
    var top := Node(b, []);
    nodes' := [top];
    assert [] + [top] == [top];
    StackTop([], top);
    assert Stack(nodes') == [b];
  }

  lemma PushSlot(freelist: nat, disk: seq<seq<nat>>, nodes: seq<Node>, b: nat) returns (nodes': seq<Node>)
    requires Listing(freelist, disk, nodes) && nodes != [] && 1 <= b < |disk| && b <= MaxWord && b !in Stack(nodes)
    requires |nodes[|nodes| - 1].slots| < Slots
    ensures freelist < |disk| && |disk[freelist]| > Slots
    ensures Stack(nodes') == Stack(nodes) + [b]
    ensures Listing(freelist, disk[freelist := SetWord(disk[freelist], |nodes[|nodes| - 1].slots| + 1, b)], nodes')
  {
    hide Stack, Distinct, InRange, Chained, Listing;
    var below, head := Apart(freelist, disk, nodes);
    var top := Node(head.block, head.slots + [b]);
    nodes' := below + [top];
    Longer(Stack(nodes), b, disk);
    assert Stack(nodes) + [b] == Stack(below) + [head.block] + top.slots;
    Pieces(Stack(below), head.block, head.slots, b);
    var d1 := disk[freelist := SetWord(disk[freelist], |head.slots| + 1, b)];
    ChainedAgree(disk, d1, below, freelist);
    StillInRange(disk, d1, Stack(nodes) + [b]);
    Together(d1, below, top);
  }

  /** A full head node: the freed block becomes the new head. */
  lemma PushNode(freelist: nat, disk: seq<seq<nat>>, nodes: seq<Node>, b: nat) returns (nodes': seq<Node>)
    requires Listing(freelist, disk, nodes) && nodes != [] && 1 <= b < |disk| && b <= MaxWord && b !in Stack(nodes)
    ensures Stack(nodes') == Stack(nodes) + [b] && |disk[b]| > Slots
    ensures Listing(b, disk[b := SetWord(Zeros(|disk[b]|), 0, freelist)], nodes')
  {
    var top := Node(b, []);
    nodes' := nodes + [top];
    StackTop(nodes, top);
    Longer(Stack(nodes), b, disk);
    var d1 := disk[b := SetWord(Zeros(|disk[b]|), 0, freelist)];
    ChainedAgree(disk, d1, nodes, b);
    ChainPush(d1, nodes, top);
  }

  method LastUsed(words: seq<nat>, ghost head: Node) returns (last: nat)
    requires |words| > Slots && |head.slots| <= Slots
    requires forall i {:trigger words[i]} :: 1 <= i <= Slots ==>
             words[i] == if i <= |head.slots| then head.slots[i - 1] else 0
    requires forall i {:trigger head.slots[i]} :: 0 <= i < |head.slots| ==> head.slots[i] != 0
    ensures last == |head.slots|
  {
    last := 0;
    for i := 1 to Slots + 1
      invariant last == if i - 1 <= |head.slots| then i - 1 else |head.slots|
    {
      if words[i] != 0 {
        last := i;
      }
    }
  }

  lemma TopHolds(disk: seq<seq<nat>>, nodes: seq<Node>)
    requires nodes != [] && Chained(disk, nodes) && InRange(disk, Stack(nodes))
    ensures var n := |nodes| - 1;
            && Holds(disk, nodes[n], if n == 0 then 0 else nodes[n - 1].block)
            && forall i {:trigger nodes[n].slots[i]} :: 0 <= i < |nodes[n].slots| ==> nodes[n].slots[i] != 0
  {
    var n := |nodes| - 1;
    var at := InStack(nodes, n);
    forall i {:trigger nodes[n].slots[i]} | 0 <= i < |nodes[n].slots|
      ensures nodes[n].slots[i] != 0
    {
      assert Stack(nodes)[at + 1 + i] == nodes[n].slots[i];
    }
  }

  lemma ChainPrefix(disk: seq<seq<nat>>, nodes: seq<Node>)
    requires nodes != [] && Chained(disk, nodes)
    ensures Chained(disk, nodes[..|nodes| - 1])
  {
    var p := nodes[..|nodes| - 1];
    forall j {:trigger p[j]} | 0 <= j < |p|
      ensures Holds(disk, p[j], if j == 0 then 0 else p[j - 1].block)
    {
      assert p[j] == nodes[j];
    }
  }

  lemma ChainPush(disk: seq<seq<nat>>, below: seq<Node>, top: Node)
    requires Chained(disk, below) && Holds(disk, top, if below == [] then 0 else below[|below| - 1].block)
    ensures Chained(disk, below + [top])
  {
    var nodes := below + [top];
    forall j {:trigger nodes[j]} | 0 <= j < |nodes|
      ensures Holds(disk, nodes[j], if j == 0 then 0 else nodes[j - 1].block)
    {
      if j < |below| {
        assert nodes[j] == below[j];
      }
    }
  }

  lemma Shorter(s: seq<nat>, b: nat, disk: seq<seq<nat>>)
    requires Distinct(s + [b]) && InRange(disk, s + [b])
    ensures Distinct(s) && InRange(disk, s) && b !in s && 1 <= b < |disk|
  {
    var t := s + [b];
    assert t[|s|] == b;
    forall i | 0 <= i < |s|
      ensures s[i] != b && 1 <= s[i] < |disk| && s[i] <= MaxWord
    {
      assert t[i] == s[i];
    }
    forall i, j | 0 <= i < j < |s|
      ensures s[i] != s[j]
    {
      assert t[i] == s[i] && t[j] == s[j];
    }
  }

  lemma Longer(s: seq<nat>, b: nat, disk: seq<seq<nat>>)
    requires Distinct(s) && InRange(disk, s) && b !in s && 1 <= b < |disk| && b <= MaxWord
    ensures Distinct(s + [b]) && InRange(disk, s + [b])
  {
  }

  /** The head block, its slots and a further block are all different from what lies below. */
  lemma Pieces(below: seq<nat>, h: nat, slots: seq<nat>, b: nat)
    requires Distinct(below + [h] + slots + [b])
    ensures h !in below && b !in below && h != b && h !in slots
  {
    var t := below + [h] + slots + [b];
    assert t[|below|] == h && t[|t| - 1] == b;
    forall i | 0 <= i < |below|
      ensures below[i] != h && below[i] != b
    {
      assert t[i] == below[i];
    }
    forall i | 0 <= i < |slots|
      ensures slots[i] != h
    {
      assert t[|below| + 1 + i] == slots[i];
    }
  }
}
