/** Any sequence of allocations and frees against a plain stack of block numbers. */
module AllocRuns {
  import opened Geometry
  import opened FreeChain
  import opened Image
  import opened Ownership
  import opened Consistency
  import opened Engine

  /** Take a block, or give back the k-th block taken and not given back yet. */
  datatype AllocOp = Take | Give(k: nat)

  /** The reference: a stack, top last, and the blocks held. */
  datatype Machine = Machine(stack: seq<nat>, held: seq<nat>)

  function Without(s: seq<nat>, k: nat): seq<nat> {
    if k < |s| then s[..k] + s[k + 1..] else s
  }

  function Step(m: Machine, op: AllocOp): Machine {
    match op
    case Take =>
      if m.stack == [] then m
      else Machine(m.stack[..|m.stack| - 1], m.held + [m.stack[|m.stack| - 1]])
    case Give(k) =>
      if k >= |m.held| then m
      else Machine(m.stack + [m.held[k]], Without(m.held, k))
  }

  function Steps(m: Machine, ops: seq<AllocOp>): Machine
    decreases |ops|
  {
    if ops == [] then m else Step(Steps(m, ops[..|ops| - 1]), ops[|ops| - 1])
  }

  /** The blocks held are the caller's, each once. */
  ghost predicate Holds(g: Geometry, tab: Table, held: seq<nat>) {
    Distinct(held) && forall i {:trigger held[i]} :: 0 <= i < |held| ==>
        g.IsData(held[i]) && held[i] < |tab| && tab[held[i]].Alloc?
  }

  lemma HoldsMore(g: Geometry, tab: Table, held: seq<nat>, b: nat)
    requires Holds(g, tab, held) && g.IsData(b) && b < |tab| && tab[b].Free?
    ensures Holds(g, tab[b := Alloc], held + [b])
  {
  }

  lemma HoldsLess(g: Geometry, tab: Table, held: seq<nat>, k: nat, o: Own)
    requires Holds(g, tab, held) && k < |held|
    ensures Holds(g, tab[held[k] := o], Without(held, k))
  {
    var b, rest := held[k], Without(held, k);
    forall i | 0 <= i < |rest|
      ensures rest[i] == held[if i < k then i else i + 1] && rest[i] != b
    {
    }
  }

  lemma HoldsFrame(g: Geometry, st: State, w: World, st': State, w': World, held: seq<nat>)
    requires Holds(g, w.tab, held) && AllocFrame(st, w, st', w') && |w.tab| <= |st.disk.blocks|
    ensures Holds(g, w'.tab, held)
  {
  }

  lemma NoneHeld(g: Geometry, tab: Table)
    ensures Holds(g, tab, [])
  {
  }

  lemma HeldAt(g: Geometry, tab: Table, held: seq<nat>, k: nat)
    requires Holds(g, tab, held) && k < |held|
    ensures g.IsData(held[k]) && held[k] < |tab| && tab[held[k]].Alloc?
  {
  }

  /** Across spills and reloads the list is the stack, its total is the stack's height, and an
      allocation finds no space exactly when the stack is empty. */
  method Churn(fs: Edition, ops: seq<AllocOp>, ghost w: World) returns (held: seq<nat>, ghost w': World)
    requires fs.Ok(w) && fs.tfree == |Stack(w.segs)|
    modifies fs, fs.free
    ensures fs.Ok(w') && old(fs.Faults()) <= fs.Faults()
    ensures fs.Faults() == old(fs.Faults()) ==> Machine(Stack(w'.segs), held) == Steps(Machine(Stack(w.segs), []), ops)
    ensures Holds(fs.g, w'.tab, held) && (fs.Faults() == old(fs.Faults()) ==> fs.tfree == |Stack(w'.segs)|)
  {
    hide Sound, ListOk, Guarded, LogOk, NeverD, Stack, Zeros, AllocFrame, Holds, Without;
    held, w' := [], w;
    ghost var start := Machine(Stack(w.segs), []);
    NoneHeld(fs.g, w.tab);
    for i := 0 to |ops|
      invariant fs.Ok(w') && old(fs.Faults()) <= fs.Faults() && Holds(fs.g, w'.tab, held)
      invariant fs.Faults() == old(fs.Faults()) ==>
                Machine(Stack(w'.segs), held) == Steps(start, ops[..i]) && fs.tfree == |Stack(w'.segs)|
    {
      assert ops[..i + 1][..i] == ops[..i];
      ghost var was, st := w', fs.St();
      Facts(fs.g, st, was);
      match ops[i] {
        case Take =>
          var rc, b;
          rc, b, w' := fs.Balloc(w');
          if rc == OK {
            assert Stack(was.segs)[..|Stack(was.segs)| - 1] == Stack(w'.segs);
            HoldsMore(fs.g, was.tab, held, b);
            held := held + [b];
          } else {
            HoldsFrame(fs.g, st, was, fs.St(), w', held);
          }
        case Give(k) =>
          if k < |held| {
            HeldAt(fs.g, was.tab, held, k);
            SoundList(fs.g, st, was);
            ghost var leaked;
            leaked, w' := fs.Bfree(held[k], w');
            HoldsLess(fs.g, was.tab, held, k, w'.tab[held[k]]);
            held := Without(held, k);
          }
      }
    }
    assert ops[..|ops|] == ops;
  }
}
