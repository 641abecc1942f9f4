/** What becomes of a file whose link count went past the largest. */
module LinkLoss {
  import opened LinkWidth
  import opened Device
  import opened NameTree
  import opened NameSteps
  import opened Namespace
  import OpenHandles

  /** A file of a good tree that has as many names as can be counted, and a name that is free. */
  ghost predicate Full(t: Tree, root: nat, src: nat, dir: nat, name: Name) {
    && Good(t, root) && Ranged(t) && Live(t, src) && !IsDir(t, src) && Link(t, src) == LinkMax(t.width)
    && IsDir(t, dir) && name.Plain? && !Has(t, dir, name)
  }

  /** A file, in the sense that nothing is named in it. */
  ghost predicate Holds(t: Tree, src: nat, refs: nat) {
    src < |t.nlink| && |Refs(t, src)| == refs && forall n: Name {:trigger Has(t, src, n)} :: !Has(t, src, n)
  }

  lemma FullHolds(t: Tree, root: nat, src: nat, dir: nat, name: Name)
    requires Full(t, root, src, dir, name)
    ensures Holds(t, src, LinkMax(t.width)) && dir != src
  {
    hide Dotted, NamedOnce, Acyclic, Refs;
    assert Link(t, src) == t.nlink[src];
  }

  lemma LinkedHolds(t: Tree, src: nat, dir: nat, name: Name, refs: nat)
    requires Holds(t, src, refs) && !Has(t, dir, name) && dir != src
    ensures var t' := Linked(t, src, dir, name);
            && Holds(t', src, refs + 1) && t'.kind == t.kind && t'.width == t.width
            && Has(t', dir, name) && At(t', dir, name) == src && Link(t', src) == LinkOf(t.width, Link(t, src) + 1)
            && forall n: Name {:trigger Has(t', dir, n)} :: n != name ==> (Has(t', dir, n) <==> Has(t, dir, n))
  {
    hide Refs, LinkOf;
    AddRefs(t, dir, name, src, src);
    SameRefs(AddEntry(t, dir, name, src), Linked(t, src, dir, name), src);
    var t' := Linked(t, src, dir, name);
    forall n: Name {:trigger Has(t', src, n)}
      ensures !Has(t', src, n)
    {
      assert !Has(t, src, n);
    }
  }

  /** A count that comes to 0 or less frees the file, and the other names stay. */
  lemma FreedHolds(t: Tree, src: nat, dir: nat, name: Name, refs: nat)
    requires Holds(t, src, refs) && Has(t, dir, name) && At(t, dir, name) == src && Int16(Link(t, src) - 1) <= 0
    ensures var t' := Unlinked(t, dir, name, false);
            !Live(t', src) && |Refs(t', src)| == refs - 1
  {
    hide Int16;
    RemoveRefs(t, dir, name, src);
    var t1 := RemoveEntry(t, dir, name);
    assert forall k: Key :: k in t1.ents ==> k in t.ents && Has(t, k.0, k.1);
    assert Cleared(t1, src).ents == t1.ents;
    SameRefs(t1, Cleared(t1, src), src);
  }

  /** Where counts are bytes: one name more, and the same name removed, frees the file with all
      the names it had before. */
  lemma ByteLoss(t: Tree, root: nat, src: nat, dir: nat, name: Name)
    requires Full(t, root, src, dir, name) && t.width.Byte?
    ensures var linked := Linked(t, src, dir, name);
            var gone := Unlinked(linked, dir, name, false);
            && Link(linked, src) == 0 && |Refs(linked, src)| == 256
            && Live(t, src) && !Live(gone, src) && |Refs(gone, src)| == 255
  {
    hide Good, Linked, Unlinked;
    FullHolds(t, root, src, dir, name);
    LinkedHolds(t, src, dir, name, 255);
    FreedHolds(Linked(t, src, dir, name), src, dir, name, 256);
  }

  /** Where they are words: two names more, and one of them removed. */
  lemma WordLoss(t: Tree, root: nat, src: nat, dir: nat, name: Name, other: Name)
    requires Full(t, root, src, dir, name) && t.width.Word? && other != name && !Has(t, dir, other)
    ensures var linked := Linked(Linked(t, src, dir, name), src, dir, other);
            var gone := Unlinked(linked, dir, other, false);
            && Link(linked, src) == -32767 && |Refs(linked, src)| == 32769
            && Live(t, src) && !Live(gone, src) && |Refs(gone, src)| == 32768
  {
    hide Good, Linked, Unlinked, Has;
    FullHolds(t, root, src, dir, name);
    LinkedHolds(t, src, dir, name, 32767);
    var t1 := Linked(t, src, dir, name);
    assert !Has(t1, dir, other);
    LinkedHolds(t1, src, dir, other, 32768);
    FreedHolds(Linked(t1, src, dir, other), src, dir, other, 32769);
  }

  /** A file with a name more than a byte counts, opened and closed: it is freed with all its
      names. */
  method CloseLoss(m: OpenHandles.Mount, src: nat, dir: nat, name: Name) returns (rc: Errno, ok: bool)
    requires m.Valid() && m.open == [] && Reliable(m.fails)
    requires Full(m.vol.t, m.vol.root, src, dir, name) && m.vol.t.width.Byte?
    modifies m, m.vol
    ensures rc == OK && !Live(m.vol.t, src) && |Refs(m.vol.t, src)| == 256
  {
    hide Good, Full, Counted, OpenHandles.RefsOf, Linked;
    ghost var t := m.vol.t;
    ByteLoss(t, m.vol.root, src, dir, name);
    FullNow(t, m.vol.root, src, dir, name);
    rc := m.vol.LinkIn(src, dir, name);
    assert OpenHandles.Pinned(m.vol.t, m.open);
    OpenHandles.NoHandle(m.open, src);
    m.Track(src);
    m.Unfailing();
    ghost var linked := m.vol.t;
    ok := m.Release(src);
    m.Unfailing();
    SameRefs(linked, m.vol.t, src);
  }

  lemma FullNow(t: Tree, root: nat, src: nat, dir: nat, name: Name)
    requires Full(t, root, src, dir, name)
    ensures Live(t, src) && !IsDir(t, src) && IsDir(t, dir) && name.Plain? && !Has(t, dir, name)
  {
  }

  // ---- such a tree exists ----

  /** A name for each number. */
  function Label(i: nat): Name {
    Plain(seq(i + 1, _ => 'a'))
  }

  /** A root, 1, in which a file, 2, has n names. */
  function Star(w: Width, n: nat): Tree {
    if n == 0 then Tree(w, [Free, Dir, File], [0, 2, 0], map[(1, Dot) := 1, (1, DotDot) := 1])
    else SetLink(AddEntry(Star(w, n - 1), 1, Label(n - 1), 2), 2, n)
  }

  lemma {:induction false} StarIs(w: Width, n: nat)
    ensures var t := Star(w, n);
            && Good(t, 1) && t.width == w && t.kind == [Free, Dir, File] && t.nlink == [0, 2, n]
            && forall i: nat {:trigger Label(i)} :: Has(t, 1, Label(i)) ==> i < n
    decreases n
  {
    hide Good;
    if n == 0 {
      StarBase(w);
    } else {
      StarIs(w, n - 1);
      var t := Star(w, n - 1);
      assert SetKind(t, 2, File) == t;
      LinkFile(t, 1, 1, Label(n - 1), 2, Star(w, n));
      forall i: nat {:trigger Label(i)} | Has(Star(w, n), 1, Label(i))
        ensures i < n
      {
        assert |Label(i).text| == i + 1;
      }
    }
  }

  lemma StarBase(w: Width)
    ensures Good(Star(w, 0), 1) && forall i: nat {:trigger Label(i)} :: !Has(Star(w, 0), 1, Label(i))
  {
    var t := Star(w, 0);
    assert Refs(t, 1) == {(1, Dot), (1, DotDot)};
    assert Refs(t, 2) == {};
    assert Climbs(t, 1, 1, 0);
  }

  /** For either width there is a file with as many names as it counts. */
  lemma FullStar(w: Width)
    ensures Full(Star(w, LinkMax(w)), 1, 2, 1, Label(LinkMax(w)))
  {
    hide Good, Star;
    StarIs(w, LinkMax(w));
  }
}
