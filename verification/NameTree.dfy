/** The namespace: directory entries, link counts, and the tree they must form. */
module NameTree {
  import opened LinkWidth

  /** A directory entry's name: ".", ".." or any other. */
  datatype Name = Dot | DotDot | Plain(text: string)

  datatype Kind = Free | File | Dir

  type Key = (nat, Name)

  /** The inodes' kinds and link counts, which are stored in so many bits, and the inode that
      each directory's entry names. */
  datatype Tree = Tree(width: Width, kind: seq<Kind>, nlink: seq<int>, ents: map<Key, nat>)

  predicate IsDir(t: Tree, d: nat) {
    d < |t.kind| && t.kind[d].Dir?
  }

  predicate Live(t: Tree, i: nat) {
    i < |t.kind| && !t.kind[i].Free?
  }

  predicate Has(t: Tree, d: nat, n: Name) {
    (d, n) in t.ents
  }

  function At(t: Tree, d: nat, n: Name): nat {
    if (d, n) in t.ents then t.ents[(d, n)] else 0
  }

  /** The entries that name inode i. */
  ghost function Refs(t: Tree, i: nat): set<Key> {
    set k | k in t.ents && t.ents[k] == i
  }

  /** Every link count is the number of entries, the dots included, that name the inode. */
  ghost predicate Counted(t: Tree) {
    && |t.nlink| == |t.kind|
    && forall i: nat {:trigger t.nlink[i]} :: Live(t, i) && i < |t.nlink| ==> t.nlink[i] == |Refs(t, i)|
  }

  /** Entries are those of directories, and name live inodes. */
  ghost predicate EntriesLive(t: Tree) {
    forall d: nat, n: Name {:trigger Has(t, d, n)} :: Has(t, d, n) ==> IsDir(t, d) && Live(t, At(t, d, n))
  }

  function Parent(t: Tree, d: nat): nat {
    At(t, d, DotDot)
  }

  /** Every directory has its dots. */
  ghost predicate Dotted(t: Tree, root: nat) {
    && IsDir(t, root) && Parent(t, root) == root
    && (forall d: nat {:trigger IsDir(t, d)} :: IsDir(t, d) ==>
          Has(t, d, Dot) && At(t, d, Dot) == d && Has(t, d, DotDot))
    && (forall d: nat {:trigger Parent(t, d)} :: IsDir(t, d) ==> IsDir(t, Parent(t, d)))
  }

  /** A directory other than the root has a name in its parent, and no other name anywhere.
      The root has none. */
  ghost predicate NamedOnce(t: Tree, root: nat) {
    && (forall d: nat, n: Name {:trigger Has(t, d, n)} :: Has(t, d, n) && n.Plain? && IsDir(t, At(t, d, n)) ==>
          At(t, d, n) != root && Parent(t, At(t, d, n)) == d)
    && (forall d: nat, n: Name, m: Name {:trigger Has(t, d, n), Has(t, d, m)} ::
          Has(t, d, n) && Has(t, d, m) && n.Plain? && m.Plain? && At(t, d, n) == At(t, d, m) && IsDir(t, At(t, d, n))
          ==> n == m)
    && (forall d: nat {:trigger IsDir(t, d)} :: IsDir(t, d) && d != root ==>
          exists n: Name {:trigger Has(t, Parent(t, d), n)} ::
              n.Plain? && Has(t, Parent(t, d), n) && At(t, Parent(t, d), n) == d)
  }

  /** d reaches the root in k steps upward. */
  predicate Climbs(t: Tree, root: nat, d: nat, k: nat)
    decreases k
  {
    if k == 0 then d == root else d != root && IsDir(t, d) && Climbs(t, root, Parent(t, d), k - 1)
  }

  ghost predicate Acyclic(t: Tree, root: nat) {
    forall d: nat {:trigger IsDir(t, d)} :: IsDir(t, d) ==> exists k: nat :: Climbs(t, root, d, k)
  }

  ghost predicate Good(t: Tree, root: nat) {
    Counted(t) && EntriesLive(t) && Dotted(t, root) && NamedOnce(t, root) && Acyclic(t, root)
  }

  // ---- primitive steps ----

  function SetLink(t: Tree, i: nat, k: int): Tree {
    if i < |t.nlink| then t.(nlink := t.nlink[i := k]) else t
  }

  /** Write a link count: it reads back as far as its width goes. */
  function PutLink(t: Tree, i: nat, k: int): Tree {
    SetLink(t, i, LinkOf(t.width, k))
  }

  /** Every link count is one that can be stored. */
  ghost predicate Ranged(t: Tree) {
    forall i {:trigger t.nlink[i]} :: 0 <= i < |t.nlink| ==> LinkMin(t.width) <= t.nlink[i] <= LinkMax(t.width)
  }

  lemma PutSame(t: Tree, i: nat, k: int)
    requires LinkMin(t.width) <= k <= LinkMax(t.width)
    ensures PutLink(t, i, k) == SetLink(t, i, k) && Int16(k) == k
  {
    LinkSame(t.width, k);
  }

  lemma PutRanged(t: Tree, i: nat, k: int)
    requires Ranged(t)
    ensures Ranged(PutLink(t, i, k))
  {
    LinkRange(t.width, k);
  }

  lemma PutAgain(t: Tree, i: nat)
    requires Ranged(t)
    ensures PutLink(t, i, Link(t, i)) == t
  {
    if i < |t.nlink| {
      LinkSame(t.width, t.nlink[i]);
    }
  }

  function Link(t: Tree, i: nat): int {
    if i < |t.nlink| then t.nlink[i] else 0
  }

  function SetKind(t: Tree, i: nat, k: Kind): Tree {
    if i < |t.kind| then t.(kind := t.kind[i := k]) else t
  }

  function AddEntry(t: Tree, d: nat, n: Name, i: nat): Tree {
    t.(ents := t.ents[(d, n) := i])
  }

  function RemoveEntry(t: Tree, d: nat, n: Name): Tree {
    t.(ents := t.ents - {(d, n)})
  }

  /** A freed inode takes the entries it held as a directory with it. */
  function Cleared(t: Tree, x: nat): Tree {
    SetKind(t, x, Free).(ents := map k | k in t.ents && k.0 != x :: t.ents[k])
  }

  // ---- the writes they are made by ----

  /** One write of the namespace: an entry added to or removed from a directory, whose inode is
      rewritten with k links; a link count; an inode made or cleared. */
  datatype Step =
    | Enter(d: nat, n: Name, i: nat, k: int)
    | Leave(d: nat, n: Name, k: int)
    | Count(i: nat, k: int)
    | Make(i: nat, kind: Kind, k: int)
    | Clear(i: nat)

  function Take(t: Tree, s: Step): Tree {
    match s
    case Enter(d, n, i, k) => PutLink(AddEntry(t, d, n, i), d, k)
    case Leave(d, n, k) => PutLink(RemoveEntry(t, d, n), d, k)
    case Count(i, k) => PutLink(t, i, k)
    case Make(i, kind, k) => PutLink(SetKind(t, i, kind), i, k)
    case Clear(i) => Cleared(t, i)
  }

  /** The step makes sense: names are added where they are free and removed where they are. */
  predicate May(t: Tree, s: Step) {
    match s
    case Enter(d, n, i, k) => IsDir(t, d) && !Has(t, d, n) && 1 <= i < |t.kind|
    case Leave(d, n, k) => IsDir(t, d) && Has(t, d, n)
    case Count(i, k) => Live(t, i)
    case Make(i, kind, k) => 1 <= i < |t.kind| && !Live(t, i) && !kind.Free?
    case Clear(i) => Live(t, i)
  }

  function TakeAll(t: Tree, steps: seq<Step>): Tree {
    if steps == [] then t else Take(TakeAll(t, steps[..|steps| - 1]), steps[|steps| - 1])
  }

  predicate MayAll(t: Tree, steps: seq<Step>) {
    steps == [] ||
    (MayAll(t, steps[..|steps| - 1]) && May(TakeAll(t, steps[..|steps| - 1]), steps[|steps| - 1]))
  }

  lemma TakeMore(t: Tree, steps: seq<Step>, s: Step)
    ensures TakeAll(t, steps + [s]) == Take(TakeAll(t, steps), s)
    ensures MayAll(t, steps + [s]) <==> MayAll(t, steps) && May(TakeAll(t, steps), s)
  {
    assert (steps + [s])[..|steps + [s]| - 1] == steps;
  }

  lemma TakeRanged(t: Tree, s: Step)
    requires Ranged(t)
    ensures Ranged(Take(t, s)) && Take(t, s).width == t.width
  {
    hide LinkOf;
    match s
    case Enter(d, n, i, k) => PutRanged(AddEntry(t, d, n, i), d, k);
    case Leave(d, n, k) => PutRanged(RemoveEntry(t, d, n), d, k);
    case Count(i, k) => PutRanged(t, i, k);
    case Make(i, kind, k) => PutRanged(SetKind(t, i, kind), i, k);
    case Clear(i) =>
  }

  /** A count raised by one: past the largest it reads back as none or less. */
  lemma RaiseOne(t: Tree, i: nat)
    requires Ranged(t) && i < |t.nlink|
    ensures Link(t, i) < LinkMax(t.width) ==> PutLink(t, i, Link(t, i) + 1) == SetLink(t, i, Link(t, i) + 1)
    ensures Link(t, i) >= LinkMax(t.width) ==> Link(PutLink(t, i, Link(t, i) + 1), i) <= 0
  {
    hide LinkOf;
    LinkSame(t.width, Link(t, i) + 1);
    LinkPast(t.width);
  }

  /** A count of a live inode with a name that is 0 or less is wrong. */
  lemma Wrapped(t: Tree, i: nat, k: Key)
    requires Live(t, i) && |t.nlink| == |t.kind| && Link(t, i) <= 0 && k in t.ents && t.ents[k] == i
    ensures !Counted(t)
  {
    assert k in Refs(t, i);
    assert Link(t, i) == t.nlink[i];
  }

  // ---- their effect on the references ----

  lemma AddRefs(t: Tree, d: nat, n: Name, i: nat, j: nat)
    requires !Has(t, d, n)
    ensures var t' := AddEntry(t, d, n, i);
            && (j == i ==> Refs(t', j) == Refs(t, j) + {(d, n)} && |Refs(t', j)| == |Refs(t, j)| + 1)
            && (j != i ==> Refs(t', j) == Refs(t, j))
  {
    var t' := AddEntry(t, d, n, i);
    forall k: Key
      ensures k in Refs(t', j) <==> k in Refs(t, j) || (j == i && k == (d, n))
    {
    }
    assert j == i ==> Refs(t', j) == Refs(t, j) + {(d, n)};
  }

  lemma RemoveRefs(t: Tree, d: nat, n: Name, j: nat)
    requires Has(t, d, n)
    ensures var t', i := RemoveEntry(t, d, n), At(t, d, n);
            && (j == i ==>
                 (d, n) in Refs(t, j) && Refs(t', j) == Refs(t, j) - {(d, n)} && |Refs(t', j)| == |Refs(t, j)| - 1)
            && (j != i ==> Refs(t', j) == Refs(t, j))
  {
    var t', i := RemoveEntry(t, d, n), At(t, d, n);
    if j == i {
      assert Refs(t', j) == Refs(t, j) - {(d, n)};
    } else {
      assert Refs(t', j) == Refs(t, j);
    }
  }

  /** Nothing names a free inode. */
  lemma NoRefs(t: Tree, i: nat)
    requires EntriesLive(t) && !Live(t, i)
    ensures Refs(t, i) == {}
  {
    forall k | k in t.ents
      ensures t.ents[k] != i
    {
      assert Has(t, k.0, k.1);
    }
  }

  /** The climb of d is unchanged if the parents on the way are. */
  lemma {:induction false} ClimbSame(t: Tree, t': Tree, root: nat, d: nat, k: nat)
    requires Climbs(t, root, d, k)
    requires forall e: nat {:trigger IsDir(t, e)} :: IsDir(t, e) ==> IsDir(t', e) && Parent(t', e) == Parent(t, e)
    ensures Climbs(t', root, d, k)
    decreases k
  {
    if k > 0 {
      ClimbSame(t, t', root, Parent(t, d), k - 1);
    }
  }
}
