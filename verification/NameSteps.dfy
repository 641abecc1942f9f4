/** What each operation of the namespace keeps. */
module NameSteps {
  import opened NameTree

  // ---- link counts ----

  /** The counts moved as the references did. */
  lemma Recount(t: Tree, t': Tree)
    requires Counted(t) && |t'.nlink| == |t'.kind| == |t.kind|
    requires forall j: nat {:trigger Link(t', j)} :: Live(t', j) ==>
               Link(t', j) - (if Live(t, j) then Link(t, j) else 0) ==
                   |Refs(t', j)| - (if Live(t, j) then |Refs(t, j)| else 0)
    ensures Counted(t')
  {
    forall j: nat {:trigger t'.nlink[j]} | Live(t', j) && j < |t'.nlink|
      ensures t'.nlink[j] == |Refs(t', j)|
    {
      assert Link(t', j) == t'.nlink[j];
    }
  }

  lemma SameRefs(t: Tree, t': Tree, j: nat)
    requires t'.ents == t.ents
    ensures Refs(t', j) == Refs(t, j)
  {
  }

  // ---- files ----

  /** The same directories with the same parents, and the same entries naming directories. */
  ghost predicate SameTree(t: Tree, t': Tree) {
    && (forall d: nat {:trigger IsDir(t, d)} {:trigger IsDir(t', d)} :: IsDir(t', d) <==> IsDir(t, d))
    && (forall d: nat, n: Name {:trigger Has(t, d, n)} :: Has(t, d, n) && IsDir(t, At(t, d, n)) ==>
         Has(t', d, n) && At(t', d, n) == At(t, d, n))
    && (forall d: nat, n: Name {:trigger Has(t', d, n)} :: Has(t', d, n) && IsDir(t, At(t', d, n)) ==>
         Has(t, d, n) && At(t', d, n) == At(t, d, n))
  }

  /** Changes to files leave the tree of directories alone. */
  lemma FilesOnly(t: Tree, t': Tree, root: nat)
    requires Dotted(t, root) && NamedOnce(t, root) && Acyclic(t, root) && SameTree(t, t')
    ensures Dotted(t', root) && NamedOnce(t', root) && Acyclic(t', root)
  {
    forall d: nat {:trigger IsDir(t', d)} | IsDir(t', d)
      ensures Parent(t', d) == Parent(t, d) && Has(t', d, Dot) && At(t', d, Dot) == d && Has(t', d, DotDot) &&
              IsDir(t', Parent(t', d))
    {
      assert IsDir(t, d);
      assert Has(t, d, Dot) && Has(t, d, DotDot);
    }
    assert Parent(t', root) == root by {
      assert IsDir(t', root);
    }
    FilesNamed(t, t', root);
    forall d: nat {:trigger IsDir(t', d)} | IsDir(t', d)
      ensures exists k: nat :: Climbs(t', root, d, k)
    {
      assert IsDir(t, d);
      var k: nat :| Climbs(t, root, d, k);
      ClimbSame(t, t', root, d, k);
    }
  }

  lemma FilesNamed(t: Tree, t': Tree, root: nat)
    requires NamedOnce(t, root) && SameTree(t, t')
    requires forall d: nat {:trigger IsDir(t', d)} :: IsDir(t', d) ==> Parent(t', d) == Parent(t, d)
    ensures NamedOnce(t', root)
  {
    forall d: nat {:trigger IsDir(t', d)} | IsDir(t', d) && d != root
      ensures exists n: Name {:trigger Has(t', Parent(t', d), n)} ::
              n.Plain? && Has(t', Parent(t', d), n) && At(t', Parent(t', d), n) == d
    {
      assert IsDir(t, d);
      var n: Name :| n.Plain? && Has(t, Parent(t, d), n) && At(t, Parent(t, d), n) == d;
      assert Has(t', Parent(t', d), n);
    }
  }

  /** A further name for an inode that is no directory, or the first one of a new file. */
  lemma LinkFile(t: Tree, root: nat, d: nat, n: Name, i: nat, t': Tree)
    requires Good(t, root) && IsDir(t, d) && !Has(t, d, n) && n.Plain? && i < |t.kind| && !IsDir(t, i)
    requires t' == SetLink(AddEntry(SetKind(t, i, File), d, n, i), i, (if Live(t, i) then Link(t, i) else 0) + 1)
    ensures Good(t', root)
  {
    hide Dotted, NamedOnce, Acyclic, Refs;
    assert SameTree(t, t');
    FilesOnly(t, t', root);
    if !Live(t, i) {
      NoRefs(t, i);
    }
    forall e: nat, m: Name {:trigger Has(t', e, m)} | Has(t', e, m)
      ensures IsDir(t', e) && Live(t', At(t', e, m))
    {
      assert Has(t, e, m) || (e == d && m == n);
    }
    var t1 := AddEntry(t, d, n, i);
    forall j: nat {:trigger Link(t', j)} | Live(t', j)
      ensures Link(t', j) - (if Live(t, j) then Link(t, j) else 0) ==
              |Refs(t', j)| - (if Live(t, j) then |Refs(t, j)| else 0)
    {
      AddRefs(t, d, n, i, j);
      SameRefs(t1, t', j);
    }
    Recount(t, t');
  }

  /** One name less for an inode that is no directory. */
  lemma UnlinkFile(t: Tree, root: nat, d: nat, n: Name, t': Tree)
    requires Good(t, root) && Has(t, d, n) && !IsDir(t, At(t, d, n))
    requires t' == SetLink(RemoveEntry(t, d, n), At(t, d, n), Link(t, At(t, d, n)) - 1)
    ensures Good(t', root)
  {
    hide Dotted, NamedOnce, Acyclic, Refs;
    var i := At(t, d, n);
    assert SameTree(t, t');
    FilesOnly(t, t', root);
    forall e: nat, m: Name {:trigger Has(t', e, m)} | Has(t', e, m)
      ensures IsDir(t', e) && Live(t', At(t', e, m))
    {
      assert Has(t, e, m);
    }
    var t1 := RemoveEntry(t, d, n);
    forall j: nat {:trigger Link(t', j)} | Live(t', j)
      ensures Link(t', j) - (if Live(t, j) then Link(t, j) else 0) ==
              |Refs(t', j)| - (if Live(t, j) then |Refs(t, j)| else 0)
    {
      RemoveRefs(t, d, n, j);
      SameRefs(t1, t', j);
    }
    Recount(t, t');
  }

  /** A further name, or one name less, with the count moved: the counts stay right whatever
      is named. */
  lemma LinkCounts(t: Tree, d: nat, n: Name, i: nat)
    requires Counted(t) && Live(t, i) && !Has(t, d, n)
    ensures Counted(SetLink(AddEntry(t, d, n, i), i, Link(t, i) + 1))
  {
    hide Refs;
    var t1 := AddEntry(t, d, n, i);
    var t' := SetLink(t1, i, Link(t, i) + 1);
    forall j: nat {:trigger Link(t', j)} | Live(t', j)
      ensures Link(t', j) - (if Live(t, j) then Link(t, j) else 0) ==
              |Refs(t', j)| - (if Live(t, j) then |Refs(t, j)| else 0)
    {
      AddRefs(t, d, n, i, j);
      SameRefs(t1, t', j);
    }
    Recount(t, t');
  }

  lemma UnlinkCounts(t: Tree, d: nat, n: Name)
    requires Counted(t) && Has(t, d, n) && Live(t, At(t, d, n))
    ensures Counted(SetLink(RemoveEntry(t, d, n), At(t, d, n), Link(t, At(t, d, n)) - 1))
  {
    hide Refs;
    var i, t1 := At(t, d, n), RemoveEntry(t, d, n);
    var t' := SetLink(t1, i, Link(t, i) - 1);
    forall j: nat {:trigger Link(t', j)} | Live(t', j)
      ensures Link(t', j) - (if Live(t, j) then Link(t, j) else 0) ==
              |Refs(t', j)| - (if Live(t, j) then |Refs(t, j)| else 0)
    {
      RemoveRefs(t, d, n, j);
      SameRefs(t1, t', j);
    }
    Recount(t, t');
  }

  /** An inode that is no directory, and that nothing names, may be freed. */
  lemma FreeFile(t: Tree, root: nat, i: nat)
    requires Good(t, root) && Live(t, i) && !IsDir(t, i) && Link(t, i) <= 0
    ensures Good(Cleared(t, i), root) && Cleared(t, i).ents == t.ents
  {
    hide Dotted, NamedOnce, Acyclic;
    var t' := Cleared(t, i);
    assert t'.ents == t.ents by {
      forall k | k in t.ents
        ensures k.0 != i
      {
        assert Has(t, k.0, k.1);
      }
    }
    assert SameTree(t, t');
    FilesOnly(t, t', root);
    assert Link(t, i) == t.nlink[i];
    forall e: nat, m: Name {:trigger Has(t', e, m)} | Has(t', e, m)
      ensures IsDir(t', e) && Live(t', At(t', e, m))
    {
      assert Has(t, e, m);
      assert (e, m) in Refs(t, At(t, e, m));
    }
    forall j: nat {:trigger Link(t', j)} | Live(t', j)
      ensures Link(t', j) - (if Live(t, j) then Link(t, j) else 0) ==
              |Refs(t', j)| - (if Live(t, j) then |Refs(t, j)| else 0)
    {
      SameRefs(t, t', j);
    }
    Recount(t, t');
  }

  // ---- a new directory ----

  function MakeDir(t: Tree, d: nat, n: Name, x: nat): Tree {
    var t1 := SetLink(SetKind(t, x, Dir), x, 2);
    var t2 := AddEntry(AddEntry(t1, x, Dot, x), x, DotDot, d);
    var t3 := AddEntry(t2, d, n, x);
    SetLink(t3, d, Link(t3, d) + 1)
  }

  lemma MakeDirCounts(t: Tree, root: nat, d: nat, n: Name, x: nat)
    requires Good(t, root) && IsDir(t, d) && !Has(t, d, n) && n.Plain? && x < |t.kind| && !Live(t, x)
    ensures Counted(MakeDir(t, d, n, x)) && EntriesLive(MakeDir(t, d, n, x))
  {
    hide Dotted, NamedOnce, Acyclic, Refs;
    var t' := MakeDir(t, d, n, x);
    NoRefs(t, x);
    assert !Has(t, x, Dot) && !Has(t, x, DotDot);
    var t1 := AddEntry(t, x, Dot, x);
    var t2 := AddEntry(t1, x, DotDot, d);
    var t3 := AddEntry(t2, d, n, x);
    forall e: nat, m: Name {:trigger Has(t', e, m)} | Has(t', e, m)
      ensures IsDir(t', e) && Live(t', At(t', e, m))
    {
      assert Has(t, e, m) || e == x || (e == d && m == n);
    }
    forall j: nat {:trigger Link(t', j)} | Live(t', j)
      ensures Link(t', j) - (if Live(t, j) then Link(t, j) else 0) ==
              |Refs(t', j)| - (if Live(t, j) then |Refs(t, j)| else 0)
    {
      AddRefs(t, x, Dot, x, j);
      AddRefs(t1, x, DotDot, d, j);
      AddRefs(t2, d, n, x, j);
      SameRefs(t3, t', j);
    }
    Recount(t, t');
  }

  lemma MakeDirGood(t: Tree, root: nat, d: nat, n: Name, x: nat)
    requires Good(t, root) && IsDir(t, d) && !Has(t, d, n) && n.Plain? && x < |t.kind| && !Live(t, x)
    ensures Good(MakeDir(t, d, n, x), root)
  {
    hide Counted, EntriesLive, NamedOnce, Acyclic, MakeDir, Refs;
    MakeDirCounts(t, root, d, n, x);
    var t' := MakeDir(t, d, n, x);
    MakeDirRelation(t, root, d, n, x);
    forall e: nat {:trigger IsDir(t', e)} | IsDir(t', e)
      ensures Has(t', e, Dot) && At(t', e, Dot) == e && Has(t', e, DotDot) && IsDir(t', Parent(t', e))
    {
      if e != x {
        assert IsDir(t, e);
        assert Has(t, e, Dot) && Has(t, e, DotDot);
      }
    }
    MakeDirNamed(t, root, d, n, x, t');
    MakeDirClimbs(t, root, d, x, t');
  }

  lemma MakeDirRelation(t: Tree, root: nat, d: nat, n: Name, x: nat)
    requires EntriesLive(t) && Dotted(t, root) && IsDir(t, d) && !Has(t, d, n) && n.Plain? && x < |t.kind| &&
             !Live(t, x)
    ensures var t' := MakeDir(t, d, n, x);
            && (forall e: nat {:trigger IsDir(t', e)} :: IsDir(t', e) <==> IsDir(t, e) || e == x)
            && (forall e: nat, m: Name {:trigger Has(t', e, m)} :: Has(t', e, m) <==>
                 Has(t, e, m) || (e == x && !m.Plain?) || (e == d && m == n))
            && (forall e: nat, m: Name {:trigger At(t', e, m)} :: Has(t, e, m) ==> At(t', e, m) == At(t, e, m))
            && At(t', d, n) == x && Parent(t', x) == d && At(t', x, Dot) == x && x != root && x != d
            && (forall e: nat {:trigger IsDir(t, e)} :: IsDir(t, e) ==> Parent(t', e) == Parent(t, e))
  {
    assert !Has(t, x, Dot) && !Has(t, x, DotDot);
    assert IsDir(t, root);
  }

  lemma MakeDirNamed(t: Tree, root: nat, d: nat, n: Name, x: nat, t': Tree)
    requires NamedOnce(t, root) && Dotted(t, root) && EntriesLive(t) && IsDir(t, d) && !Live(t, x) && n.Plain? &&
             !Has(t, d, n)
    requires forall e: nat {:trigger IsDir(t', e)} :: IsDir(t', e) <==> IsDir(t, e) || e == x
    requires forall e: nat, m: Name {:trigger Has(t', e, m)} :: Has(t', e, m) <==>
             Has(t, e, m) || (e == x && !m.Plain?) || (e == d && m == n)
    requires forall e: nat, m: Name {:trigger At(t', e, m)} :: Has(t, e, m) ==> At(t', e, m) == At(t, e, m)
    requires At(t', d, n) == x && Parent(t', x) == d
    ensures NamedOnce(t', root)
  {
    forall e: nat {:trigger IsDir(t', e)} | IsDir(t', e) && e != x
      ensures Parent(t', e) == Parent(t, e)
    {
      assert IsDir(t, e);
    }
    forall e: nat, m: Name {:trigger Has(t', e, m)} | Has(t', e, m) && m.Plain? && IsDir(t', At(t', e, m))
      ensures At(t', e, m) != root && Parent(t', At(t', e, m)) == e
    {
      if !(e == d && m == n) {
        assert Has(t, e, m);
      }
    }
    forall e: nat, m: Name, l: Name {:trigger Has(t', e, m), Has(t', e, l)}
      | Has(t', e, m) && Has(t', e, l) && m.Plain? && l.Plain? && At(t', e, m) == At(t', e, l) &&
          IsDir(t', At(t', e, m))
      ensures m == l
    {
      assert Has(t, e, m) || (e == d && m == n);
      assert Has(t, e, l) || (e == d && l == n);
    }
    forall e: nat {:trigger IsDir(t', e)} | IsDir(t', e) && e != root
      ensures exists m: Name {:trigger Has(t', Parent(t', e), m)} ::
              m.Plain? && Has(t', Parent(t', e), m) && At(t', Parent(t', e), m) == e
    {
      if e == x {
        assert Has(t', d, n);
      } else {
        assert IsDir(t, e);
        var m: Name :| m.Plain? && Has(t, Parent(t, e), m) && At(t, Parent(t, e), m) == e;
        assert Has(t', Parent(t', e), m);
      }
    }
  }

  lemma MakeDirClimbs(t: Tree, root: nat, d: nat, x: nat, t': Tree)
    requires Acyclic(t, root) && IsDir(t, d) && x != root && IsDir(t', x) && Parent(t', x) == d
    requires forall e: nat {:trigger IsDir(t', e)} :: IsDir(t', e) <==> IsDir(t, e) || e == x
    requires forall e: nat {:trigger IsDir(t, e)} :: IsDir(t, e) ==> Parent(t', e) == Parent(t, e)
    ensures Acyclic(t', root)
  {
    forall e: nat {:trigger IsDir(t', e)} | IsDir(t', e)
      ensures exists k: nat :: Climbs(t', root, e, k)
    {
      var from := if IsDir(t, e) then e else d;
      var k: nat :| Climbs(t, root, from, k);
      ClimbSame(t, t', root, from, k);
      if !IsDir(t, e) {
        assert Climbs(t', root, e, k + 1);
      }
    }
  }

  // ---- removing a directory ----

  /** Directory x holds nothing but its dots. */
  ghost predicate Empty(t: Tree, x: nat) {
    forall n: Name {:trigger Has(t, x, n)} :: Has(t, x, n) ==> !n.Plain?
  }

  function RemoveDir(t: Tree, d: nat, n: Name, k: int): Tree {
    var x := At(t, d, n);
    var t1 := RemoveEntry(t, d, n);
    Cleared(SetLink(SetLink(t1, x, k), d, Link(t1, d) - 1), x)
  }

  /** The directory that entry n of d names: a child of d. */
  lemma ChildDir(t: Tree, root: nat, d: nat, n: Name)
    requires Good(t, root) && Has(t, d, n) && n.Plain? && IsDir(t, At(t, d, n))
    ensures var x := At(t, d, n);
            && IsDir(t, d) && x != root && Parent(t, x) == d && x != d
            && Has(t, x, Dot) && At(t, x, Dot) == x && Has(t, x, DotDot)
  {
    hide Counted, Refs;
    var x := At(t, d, n);
    assert IsDir(t, x);
    if x == d {
      var k: nat :| Climbs(t, root, x, k);
      NoSelfClimb(t, root, x, k);
    }
  }

  lemma {:induction false} NoSelfClimb(t: Tree, root: nat, x: nat, k: nat)
    requires Climbs(t, root, x, k) && Parent(t, x) == x
    ensures x == root
    decreases k
  {
    if k > 0 {
      NoSelfClimb(t, root, x, k - 1);
    }
  }

  lemma RemoveDirRelation(t: Tree, root: nat, d: nat, n: Name, k: int)
    requires Good(t, root) && Has(t, d, n) && n.Plain? && IsDir(t, At(t, d, n)) && Empty(t, At(t, d, n))
    ensures var t', x := RemoveDir(t, d, n, k), At(t, d, n);
            && |t'.kind| == |t.kind| && |t'.nlink| == |t.nlink|
            && (forall e: nat {:trigger IsDir(t', e)} :: IsDir(t', e) <==> IsDir(t, e) && e != x)
            && (forall e: nat {:trigger Live(t', e)} :: Live(t', e) <==> Live(t, e) && e != x)
            && (forall e: nat, m: Name {:trigger Has(t', e, m)} :: Has(t', e, m) <==>
                 Has(t, e, m) && e != x && !(e == d && m == n))
            && (forall e: nat, m: Name {:trigger At(t', e, m)} :: Has(t', e, m) ==> At(t', e, m) == At(t, e, m))
            && t'.ents == RemoveEntry(RemoveEntry(RemoveEntry(t, d, n), x, Dot), x, DotDot).ents
            && (forall j: nat {:trigger Link(t', j)} :: j != x && j < |t.nlink| ==>
                 Link(t', j) == Link(t, j) - (if j == d then 1 else 0))
  {
    hide Counted, Refs, NamedOnce, Acyclic, EntriesLive, Dotted;
    ChildDir(t, root, d, n);
    var t', x := RemoveDir(t, d, n, k), At(t, d, n);
    var u := RemoveEntry(RemoveEntry(RemoveEntry(t, d, n), x, Dot), x, DotDot);
    forall key: Key
      ensures key in t'.ents <==> key in u.ents
    {
      assert key in t.ents ==> Has(t, key.0, key.1);
    }
    assert t'.ents == u.ents;
  }

  lemma RemoveDirCounts(t: Tree, root: nat, d: nat, n: Name, k: int)
    requires Good(t, root) && Has(t, d, n) && n.Plain? && IsDir(t, At(t, d, n)) && Empty(t, At(t, d, n))
    ensures Counted(RemoveDir(t, d, n, k))
  {
    hide NamedOnce, Acyclic, EntriesLive, Dotted, Refs, RemoveDir;
    ChildDir(t, root, d, n);
    RemoveDirRelation(t, root, d, n, k);
    var t', x := RemoveDir(t, d, n, k), At(t, d, n);
    var t1 := RemoveEntry(t, d, n);
    var t2 := RemoveEntry(t1, x, Dot);
    var t3 := RemoveEntry(t2, x, DotDot);
    forall j: nat {:trigger Link(t', j)} | Live(t', j)
      ensures Link(t', j) - (if Live(t, j) then Link(t, j) else 0) ==
              |Refs(t', j)| - (if Live(t, j) then |Refs(t, j)| else 0)
    {
      RemoveRefs(t, d, n, j);
      RemoveRefs(t1, x, Dot, j);
      RemoveRefs(t2, x, DotDot, j);
      SameRefs(t3, t', j);
    }
    Recount(t, t');
  }

  lemma RemoveDirGood(t: Tree, root: nat, d: nat, n: Name, k: int)
    requires Good(t, root) && Has(t, d, n) && n.Plain? && IsDir(t, At(t, d, n)) && Empty(t, At(t, d, n))
    ensures Good(RemoveDir(t, d, n, k), root)
  {
    hide Counted, Refs, RemoveDir;
    ChildDir(t, root, d, n);
    RemoveDirRelation(t, root, d, n, k);
    RemoveDirCounts(t, root, d, n, k);
    var t', x := RemoveDir(t, d, n, k), At(t, d, n);
    forall e: nat {:trigger IsDir(t', e)} | IsDir(t', e)
      ensures Parent(t', e) == Parent(t, e) && Parent(t, e) != x && Has(t', e, Dot) && At(t', e, Dot) == e &&
              Has(t', e, DotDot) && IsDir(t', Parent(t', e))
    {
      assert IsDir(t, e);
      assert Has(t, e, Dot) && Has(t, e, DotDot);
      NoChild(t, root, x, e);
    }
    assert IsDir(t', root);
    RemoveDirEntries(t, d, n, x, t');
    RemoveDirNamed(t, root, d, n, x, t');
    RemoveDirClimbs(t, root, x, t');
  }

  lemma RemoveDirEntries(t: Tree, d: nat, n: Name, x: nat, t': Tree)
    requires EntriesLive(t) && |t'.kind| == |t.kind| && x == At(t, d, n)
    requires forall e: nat {:trigger IsDir(t', e)} :: IsDir(t', e) <==> IsDir(t, e) && e != x
    requires forall e: nat {:trigger Live(t', e)} :: Live(t', e) <==> Live(t, e) && e != x
    requires forall e: nat, m: Name {:trigger Has(t', e, m)} :: Has(t', e, m) <==>
             Has(t, e, m) && e != x && !(e == d && m == n)
    requires forall e: nat, m: Name {:trigger At(t', e, m)} :: Has(t', e, m) ==> At(t', e, m) == At(t, e, m)
    requires forall e: nat, m: Name {:trigger Has(t, e, m)} :: Has(t, e, m) && At(t, e, m) == x ==>
             e == x || (e == d && m == n)
    ensures EntriesLive(t')
  {
    forall e: nat, m: Name {:trigger Has(t', e, m)} | Has(t', e, m)
      ensures IsDir(t', e) && Live(t', At(t', e, m))
    {
      assert Has(t, e, m);
    }
  }

  /** An empty directory is nobody's parent. */
  lemma NoChild(t: Tree, root: nat, x: nat, e: nat)
    requires NamedOnce(t, root) && Dotted(t, root) && Empty(t, x) && IsDir(t, e) && x != root
    ensures Parent(t, e) != x
  {
    if e != root {
      var n: Name :| n.Plain? && Has(t, Parent(t, e), n) && At(t, Parent(t, e), n) == e;
      assert Has(t, Parent(t, e), n);
    }
  }

  lemma RemoveDirNamed(t: Tree, root: nat, d: nat, n: Name, x: nat, t': Tree)
    requires NamedOnce(t, root) && x == At(t, d, n)
    requires forall e: nat {:trigger IsDir(t', e)} :: IsDir(t', e) <==> IsDir(t, e) && e != x
    requires forall e: nat, m: Name {:trigger Has(t', e, m)} :: Has(t', e, m) <==>
             Has(t, e, m) && e != x && !(e == d && m == n)
    requires forall e: nat, m: Name {:trigger At(t', e, m)} :: Has(t', e, m) ==> At(t', e, m) == At(t, e, m)
    requires forall e: nat {:trigger IsDir(t', e)} :: IsDir(t', e) ==>
             Parent(t', e) == Parent(t, e) && Parent(t, e) != x
    ensures NamedOnce(t', root)
  {
    forall e: nat {:trigger IsDir(t', e)} | IsDir(t', e) && e != root
      ensures exists m: Name {:trigger Has(t', Parent(t', e), m)} ::
              m.Plain? && Has(t', Parent(t', e), m) && At(t', Parent(t', e), m) == e
    {
      assert IsDir(t, e);
      var m: Name :| m.Plain? && Has(t, Parent(t, e), m) && At(t, Parent(t, e), m) == e;
      assert Has(t', Parent(t', e), m);
    }
    forall e: nat, m: Name {:trigger Has(t', e, m)} | Has(t', e, m) && m.Plain? && IsDir(t', At(t', e, m))
      ensures At(t', e, m) != root && Parent(t', At(t', e, m)) == e
    {
      assert Has(t, e, m);
    }
  }

  lemma {:induction false} ClimbAvoid(t: Tree, t': Tree, root: nat, x: nat, e: nat, k: nat)
    requires Climbs(t, root, e, k) && e != x && x != root
    requires forall c: nat {:trigger IsDir(t, c)} :: IsDir(t, c) && c != x ==>
             IsDir(t', c) && Parent(t', c) == Parent(t, c) && Parent(t, c) != x
    ensures Climbs(t', root, e, k)
    decreases k
  {
    if k > 0 {
      ClimbAvoid(t, t', root, x, Parent(t, e), k - 1);
    }
  }

  lemma RemoveDirClimbs(t: Tree, root: nat, x: nat, t': Tree)
    requires Acyclic(t, root) && x != root
    requires forall e: nat {:trigger IsDir(t', e)} :: IsDir(t', e) <==> IsDir(t, e) && e != x
    requires forall e: nat {:trigger IsDir(t', e)} :: IsDir(t', e) ==>
             Parent(t', e) == Parent(t, e) && Parent(t, e) != x
    ensures Acyclic(t', root)
  {
    forall e: nat {:trigger IsDir(t', e)} | IsDir(t', e)
      ensures exists k: nat :: Climbs(t', root, e, k)
    {
      assert IsDir(t, e);
      var k: nat :| Climbs(t, root, e, k);
      forall c: nat {:trigger IsDir(t, c)} | IsDir(t, c) && c != x
        ensures IsDir(t', c) && Parent(t', c) == Parent(t, c) && Parent(t, c) != x
      {
        assert IsDir(t', c);
      }
      ClimbAvoid(t, t', root, x, e, k);
    }
  }

  // ---- moving a directory ----

  /** anc is met on the way up from d, before the root. */
  predicate Above(t: Tree, root: nat, anc: nat, d: nat, k: nat)
    decreases k
  {
    k > 0 && (d == anc || Above(t, root, anc, Parent(t, d), k - 1))
  }

  function MoveDir(t: Tree, sd: nat, sn: Name, td: nat, tn: Name): Tree {
    var s := At(t, sd, sn);
    var t1 := AddEntry(RemoveEntry(t, sd, sn), td, tn, s);
    var t2 := AddEntry(RemoveEntry(t1, s, DotDot), s, DotDot, td);
    var t3 := SetLink(t2, sd, Link(t2, sd) - 1);
    SetLink(t3, td, Link(t3, td) + 1)
  }

  ghost predicate Movable(t: Tree, root: nat, sd: nat, sn: Name, td: nat, tn: Name) {
    && Good(t, root) && Has(t, sd, sn) && sn.Plain? && tn.Plain? && IsDir(t, At(t, sd, sn))
    && IsDir(t, td) && !Has(t, td, tn)
    && exists k: nat :: Climbs(t, root, td, k) && !Above(t, root, At(t, sd, sn), td, k)
  }

  lemma MoveDirRelation(t: Tree, root: nat, sd: nat, sn: Name, td: nat, tn: Name)
    requires Movable(t, root, sd, sn, td, tn)
    ensures var t', s := MoveDir(t, sd, sn, td, tn), At(t, sd, sn);
            && |t'.kind| == |t.kind| && |t'.nlink| == |t.nlink| && t'.kind == t.kind && s != td && s != root
            && (forall e: nat, m: Name {:trigger Has(t', e, m)} :: Has(t', e, m) <==>
                 (Has(t, e, m) && !(e == sd && m == sn)) || (e == td && m == tn))
            && (forall e: nat, m: Name {:trigger At(t', e, m)} :: Has(t', e, m) ==>
                  At(t', e, m) == if e == td && m == tn then s else if e == s && m == DotDot then td else At(t, e, m))
            && (forall j: nat {:trigger Link(t', j)} :: j < |t.nlink| ==>
                 Link(t', j) == Link(t, j) - (if j == sd then 1 else 0) + (if j == td then 1 else 0))
  {
    hide Counted, Refs, NamedOnce, Acyclic, EntriesLive, Dotted;
    ChildDir(t, root, sd, sn);
    var k: nat :| Climbs(t, root, td, k) && !Above(t, root, At(t, sd, sn), td, k);
  }

  lemma MoveDirCounts(t: Tree, root: nat, sd: nat, sn: Name, td: nat, tn: Name)
    requires Movable(t, root, sd, sn, td, tn)
    ensures Counted(MoveDir(t, sd, sn, td, tn))
  {
    hide NamedOnce, Acyclic, EntriesLive, Dotted, Refs;
    ChildDir(t, root, sd, sn);
    MoveDirRelation(t, root, sd, sn, td, tn);
    var t', s := MoveDir(t, sd, sn, td, tn), At(t, sd, sn);
    var t1 := RemoveEntry(t, sd, sn);
    var t2 := AddEntry(t1, td, tn, s);
    var t3 := RemoveEntry(t2, s, DotDot);
    var t4 := AddEntry(t3, s, DotDot, td);
    forall j: nat {:trigger Link(t', j)} | Live(t', j)
      ensures Link(t', j) - (if Live(t, j) then Link(t, j) else 0) ==
              |Refs(t', j)| - (if Live(t, j) then |Refs(t, j)| else 0)
    {
      RemoveRefs(t, sd, sn, j);
      AddRefs(t1, td, tn, s, j);
      RemoveRefs(t2, s, DotDot, j);
      AddRefs(t3, s, DotDot, td, j);
      SameRefs(t4, t', j);
    }
    Recount(t, t');
  }

  /** Moving a directory below a directory it is not above keeps the tree. */
  lemma MoveDirGood(t: Tree, root: nat, sd: nat, sn: Name, td: nat, tn: Name)
    requires Movable(t, root, sd, sn, td, tn)
    ensures Good(MoveDir(t, sd, sn, td, tn), root)
  {
    hide Counted, Refs, MoveDir, Acyclic, NamedOnce;
    ChildDir(t, root, sd, sn);
    MoveDirRelation(t, root, sd, sn, td, tn);
    MoveDirCounts(t, root, sd, sn, td, tn);
    var t', s := MoveDir(t, sd, sn, td, tn), At(t, sd, sn);
    forall e: nat {:trigger IsDir(t', e)} | IsDir(t', e)
      ensures Has(t', e, Dot) && At(t', e, Dot) == e && Has(t', e, DotDot)
      ensures Parent(t', e) == if e == s then td else Parent(t, e)
    {
      assert IsDir(t, e);
      assert Has(t, e, Dot) && Has(t, e, DotDot);
    }
    assert IsDir(t', root);
    forall e: nat, m: Name {:trigger Has(t', e, m)} | Has(t', e, m)
      ensures IsDir(t', e) && Live(t', At(t', e, m))
    {
      assert Has(t, e, m) || (e == td && m == tn);
    }
    MoveDirNamed(t, root, sd, sn, td, tn, t');
    MoveDirClimbs(t, root, s, td, t');
  }

  lemma MoveDirNamed(t: Tree, root: nat, sd: nat, sn: Name, td: nat, tn: Name, t': Tree)
    requires Has(t, sd, sn) && NamedOnce(t, root) && sn.Plain? && tn.Plain? && !Has(t, td, tn)
    requires var s := At(t, sd, sn);
             && t'.kind == t.kind && s != root && IsDir(t, s)
             && (forall e: nat, m: Name {:trigger Has(t', e, m)} :: Has(t', e, m) <==>
                  (Has(t, e, m) && !(e == sd && m == sn)) || (e == td && m == tn))
             && (forall e: nat, m: Name {:trigger At(t', e, m)} :: Has(t', e, m) ==>
                   At(t', e, m) == if e == td && m == tn then s else if e == s && m == DotDot then td else At(t, e, m))
             && (forall e: nat {:trigger IsDir(t', e)} :: IsDir(t', e) ==>
                  Parent(t', e) == if e == s then td else Parent(t, e))
    ensures NamedOnce(t', root)
  {
    var s := At(t, sd, sn);
    forall e: nat, m: Name {:trigger Has(t', e, m)} | Has(t', e, m) && m.Plain? && IsDir(t', At(t', e, m))
      ensures At(t', e, m) != root && Parent(t', At(t', e, m)) == e
      ensures !(e == td && m == tn) ==> At(t', e, m) != s
    {
      if !(e == td && m == tn) {
        assert Has(t, e, m) && Has(t, sd, sn);
      }
    }
    forall e: nat, m: Name, l: Name {:trigger Has(t', e, m), Has(t', e, l)}
      | Has(t', e, m) && Has(t', e, l) && m.Plain? && l.Plain? && At(t', e, m) == At(t', e, l) &&
          IsDir(t', At(t', e, m))
      ensures m == l
    {
      if !(e == td && (m == tn || l == tn)) {
        assert Has(t, e, m) && Has(t, e, l);
      }
    }
    forall e: nat {:trigger IsDir(t', e)} | IsDir(t', e) && e != root
      ensures exists m: Name {:trigger Has(t', Parent(t', e), m)} ::
              m.Plain? && Has(t', Parent(t', e), m) && At(t', Parent(t', e), m) == e
    {
      if e == s {
        assert Has(t', td, tn);
      } else {
        assert IsDir(t, e);
        var m: Name :| m.Plain? && Has(t, Parent(t, e), m) && At(t, Parent(t, e), m) == e;
        assert Has(t', Parent(t', e), m);
      }
    }
  }

  /** A way up that does not meet s is unchanged. */
  lemma {:induction false} ClimbPast(t: Tree, t': Tree, root: nat, s: nat, e: nat, k: nat)
    requires Climbs(t, root, e, k) && !Above(t, root, s, e, k) && t'.kind == t.kind
    requires forall c: nat {:trigger Parent(t', c)} :: IsDir(t, c) && c != s ==> Parent(t', c) == Parent(t, c)
    ensures Climbs(t', root, e, k)
    decreases k
  {
    if k > 0 {
      ClimbPast(t, t', root, s, Parent(t, e), k - 1);
    }
  }

  /** Any way up now leads on from s through its new parent. */
  lemma {:induction false} ClimbOver(t: Tree, t': Tree, root: nat, s: nat, e: nat, k: nat, ks: nat) returns (k': nat)
    requires Climbs(t, root, e, k) && Climbs(t', root, s, ks) && t'.kind == t.kind
    requires forall c: nat {:trigger Parent(t', c)} :: IsDir(t, c) && c != s ==> Parent(t', c) == Parent(t, c)
    ensures Climbs(t', root, e, k')
    decreases k
  {
    if e == s {
      k' := ks;
    } else if k == 0 {
      k' := 0;
    } else {
      k' := ClimbOver(t, t', root, s, Parent(t, e), k - 1, ks);
      k' := k' + 1;
    }
  }

  lemma MoveDirClimbs(t: Tree, root: nat, s: nat, td: nat, t': Tree)
    requires Acyclic(t, root) && t'.kind == t.kind && s != root && IsDir(t, s) && Parent(t', s) == td
    requires forall c: nat {:trigger Parent(t', c)} :: IsDir(t, c) && c != s ==> Parent(t', c) == Parent(t, c)
    requires exists k: nat :: Climbs(t, root, td, k) && !Above(t, root, s, td, k)
    ensures Acyclic(t', root)
  {
    var k: nat :| Climbs(t, root, td, k) && !Above(t, root, s, td, k);
    ClimbPast(t, t', root, s, td, k);
    assert Climbs(t', root, s, k + 1);
    forall e: nat {:trigger IsDir(t', e)} | IsDir(t', e)
      ensures exists k: nat :: Climbs(t', root, e, k)
    {
      assert IsDir(t, e);
      var ke: nat :| Climbs(t, root, e, ke);
      var k' := ClimbOver(t, t', root, s, e, ke, k + 1);
    }
  }
}
