/** Fixed-size directory entries (dir_fixed.c), and what a volume shows of a namespace: every
    write of the namespace is one operation on the volume. */
module DirSlots {
  import opened Geometry
  import opened FreeChain
  import Img = Image
  import opened NameTree
  import opened Runs

  // ---- one entry ----

  function Text(n: Name): string {
    match n
    case Dot => "."
    case DotDot => ".."
    case Plain(text) => text
  }

  /** The name fits an entry of `size` cells, two of which hold the inode number. */
  predicate Fits(size: nat, n: Name) {
    && 1 <= |Text(n)| && |Text(n)| + 2 <= size
    && (forall i :: 0 <= i < |Text(n)| ==> Text(n)[i] != '\0' && Text(n)[i] != '/')
    && (n.Plain? ==> n.text != "." && n.text != "..")
  }

  function Cells(s: string): (c: seq<nat>)
    ensures |c| == |s|
  {
    seq(|s|, i requires 0 <= i < |s| => s[i] as nat)
  }

  /** An entry: the inode number in two bytes, the name, and zeros. */
  function Enc(size: nat, n: Name, i: nat): (e: seq<nat>)
    requires Fits(size, n)
    ensures |e| == size
  {
    [i % 256, i / 256] + Cells(Text(n)) + Zeros(size - 2 - |Text(n)|)
  }

  function InoOf(e: seq<nat>): nat
    requires |e| >= 2
  {
    e[0] + 256 * e[1]
  }

  lemma InoRound(size: nat, n: Name, i: nat)
    requires Fits(size, n)
    ensures InoOf(Enc(size, n, i)) == i
  {
  }

  /** What the comparison of a stored name with a name accepts: of a longer name only what the
      field has room for counts. */
  ghost predicate SameName(stored: seq<nat>, s: string) {
    if |s| <= |stored| then stored[..|s|] == Cells(s) && (|s| < |stored| ==> stored[|s|] == 0)
    else stored == Cells(s)[..|stored|]
  }

  method FixedNameEq(stored: seq<nat>, s: string) returns (eq: bool)
    requires forall i :: 0 <= i < |s| ==> s[i] != '\0'
    ensures eq <==> SameName(stored, s)
  {
    for i := 0 to |stored|
      invariant i <= |s| && stored[..i] == Cells(s)[..i]
    {
      if i == |s| {
        assert stored[..i] == Cells(s);
        return stored[i] == 0;
      }
      if stored[i] != s[i] as nat {
        assert |s| <= |stored| ==> stored[..|s|][i] != Cells(s)[i];
        assert |s| > |stored| ==> stored[i] != Cells(s)[..|stored|][i];
        return false;
      }
      assert stored[..i + 1] == stored[..i] + [stored[i]] && Cells(s)[..i + 1] == Cells(s)[..i] + [Cells(s)[i]];
    }
    assert stored[..|stored|] == stored;
    return true;
  }

  /** An entry's name is recognised, and no other. */
  lemma NameRound(size: nat, n: Name, i: nat, m: Name)
    requires Fits(size, n) && Fits(size, m)
    ensures SameName(Enc(size, n, i)[2..], Text(m)) <==> n == m
  {
    var stored, s, u := Enc(size, n, i)[2..], Text(n), Text(m);
    assert stored == Cells(s) + Zeros(size - 2 - |s|);
    assert |u| < |s| ==> stored[|u|] != 0;
    if |s| < |u| {
      assert stored[..|u|][|s|] == 0 && Cells(u)[|s|] != 0;
    }
    if |s| == |u| {
      assert stored[..|u|] == Cells(s);
      CellsInjective(s, u);
    }
    if n == m {
      assert stored[..|u|] == Cells(u);
    }
  }

  lemma CellsInjective(s: string, u: string)
    ensures Cells(s) == Cells(u) <==> s == u
  {
    if Cells(s) == Cells(u) {
      forall j | 0 <= j < |s|
        ensures s[j] == u[j]
      {
        assert Cells(s)[j] == Cells(u)[j];
      }
    }
  }

  lemma EncInjective(size: nat, n: Name, i: nat, m: Name, j: nat)
    requires Fits(size, n) && Fits(size, m) && Enc(size, n, i) == Enc(size, m, j)
    ensures n == m && i == j
  {
    hide Enc;
    InoRound(size, n, i);
    InoRound(size, m, j);
    NameRound(size, n, i, m);
    NameRound(size, m, j, m);
  }

  // ---- one directory ----

  /** Entry k of the bytes c of a directory. */
  function Slot(size: nat, c: seq<nat>, k: nat): (e: seq<nat>)
    requires (k + 1) * size <= |c|
    ensures |e| == size
  {
    c[k * size..(k + 1) * size]
  }

  predicate Whole(size: nat, c: seq<nat>, slots: nat) {
    size >= 3 && |c| == slots * size
  }

  lemma SlotIn(size: nat, c: seq<nat>, slots: nat, k: nat)
    requires Whole(size, c, slots) && k < slots
    ensures (k + 1) * size <= |c| && k * size + size == (k + 1) * size
  {
    MulMonotone(k + 1, slots, size);
    MulPlus(k, 1, size);
  }

  ghost predicate Used(size: nat, c: seq<nat>, slots: nat, k: nat)
    requires Whole(size, c, slots)
  {
    k < slots && (SlotIn(size, c, slots, k); InoOf(Slot(size, c, k)) != 0)
  }

  /** Entry k holds name n for inode i. */
  ghost predicate Holds(size: nat, c: seq<nat>, slots: nat, k: nat, n: Name, i: nat)
    requires Whole(size, c, slots)
  {
    k < slots && Fits(size, n) && (SlotIn(size, c, slots, k); Slot(size, c, k) == Enc(size, n, i))
  }

  /** The used entries of directory d are those of the tree, each once. */
  ghost predicate DirShows(size: nat, c: seq<nat>, slots: nat, t: Tree, d: nat) {
    && Whole(size, c, slots)
    && (forall k {:trigger Used(size, c, slots, k)} :: Used(size, c, slots, k) ==>
          exists n: Name {:trigger Has(t, d, n)} :: Has(t, d, n) && Holds(size, c, slots, k, n, At(t, d, n)))
    && (forall n: Name {:trigger Has(t, d, n)} :: Has(t, d, n) ==>
          exists k {:trigger Used(size, c, slots, k)} ::
              Used(size, c, slots, k) && Holds(size, c, slots, k, n, At(t, d, n)))
    && (forall j, k,
         n: Name {:trigger Holds(size, c, slots, j, n, At(t, d, n)), Holds(size, c, slots, k, n, At(t, d, n))} ::
          Holds(size, c, slots, j, n, At(t, d, n)) && Holds(size, c, slots, k, n, At(t, d, n)) && Has(t, d, n) ==>
              j == k)
  }

  lemma OverlaySlice(c: seq<nat>, off: nat, e: seq<nat>, lo: nat, hi: nat)
    requires off <= |c| && lo <= hi
    ensures var c' := Overlay(c, off, e);
            && |c'| == (if off + |e| > |c| then off + |e| else |c|)
            && (hi <= off ==> c'[lo..hi] == c[lo..hi])
            && (lo == off && hi == off + |e| ==> c'[lo..hi] == e)
            && (off + |e| <= lo && hi <= |c| ==> c'[lo..hi] == c[lo..hi])
  {
  }

  lemma SlotOrder(size: nat, j: nat, k: nat)
    ensures j < k ==> (j + 1) * size <= k * size
    ensures (j + 1) * size == j * size + size
  {
    MulPlus(j, 1, size);
    MulMonotone(j + 1, k, size);
  }

  lemma SlotsAfter(size: nat, c: seq<nat>, slots: nat, k: nat, e: seq<nat>, j: nat)
    requires Whole(size, c, slots) && k <= slots && |e| == size
    ensures var c', slots' := Overlay(c, k * size, e), if k == slots then slots + 1 else slots;
            && Whole(size, c', slots')
            && (j < slots' ==> (j + 1) * size <= |c'|)
            && (j < slots' && j == k ==> Slot(size, c', j) == e)
            && (j < slots' && j != k ==>
                  j < slots && (j + 1) * size <= |c| && Slot(size, c', j) == Slot(size, c, j))
  {
    hide Overlay;
    SlotOrder(size, k, slots);
    SlotOrder(size, slots, slots);
    SlotOrder(size, j, slots);
    SlotOrder(size, j, k);
    SlotOrder(size, k, j);
    OverlaySlice(c, k * size, e, j * size, (j + 1) * size);
  }

  /** Entry k was overwritten with e, and the others are as before. */
  ghost predicate Edited(size: nat, c: seq<nat>, slots: nat, k: nat, e: seq<nat>, c': seq<nat>, slots': nat) {
    && Whole(size, c, slots) && Whole(size, c', slots') && k < slots' && slots <= slots' <= slots + 1
    && (forall j: nat {:trigger Used(size, c', slots', j)} {:trigger Used(size, c, slots, j)} ::
          j != k ==> (Used(size, c', slots', j) <==> Used(size, c, slots, j)))
    && (forall j: nat, n: Name,
         i: nat {:trigger Holds(size, c', slots', j, n, i)} {:trigger Holds(size, c, slots, j, n, i)} ::
          j != k ==> (Holds(size, c', slots', j, n, i) <==> Holds(size, c, slots, j, n, i)))
    && (|e| >= 2 ==> (Used(size, c', slots', k) <==> InoOf(e) != 0))
    && (forall n: Name, i: nat {:trigger Holds(size, c', slots', k, n, i)} ::
          Holds(size, c', slots', k, n, i) <==> Fits(size, n) && e == Enc(size, n, i))
  }

  lemma EditSlot(size: nat, c: seq<nat>, slots: nat, k: nat, e: seq<nat>)
    requires Whole(size, c, slots) && k <= slots && |e| == size
    ensures Edited(size, c, slots, k, e, Overlay(c, k * size, e), if k == slots then slots + 1 else slots)
  {
    hide Overlay, Slot, Enc, Fits;
    var c', slots' := Overlay(c, k * size, e), if k == slots then slots + 1 else slots;
    SlotsAfter(size, c, slots, k, e, k);
    forall j: nat {:trigger Used(size, c', slots', j)} {:trigger Used(size, c, slots, j)} | j != k
      ensures Used(size, c', slots', j) <==> Used(size, c, slots, j)
    {
      SlotsAfter(size, c, slots, k, e, j);
    }
    forall j: nat, n: Name,
        i: nat {:trigger Holds(size, c', slots', j, n, i)} {:trigger Holds(size, c, slots, j, n, i)} | j != k
      ensures Holds(size, c', slots', j, n, i) <==> Holds(size, c, slots, j, n, i)
    {
      SlotsAfter(size, c, slots, k, e, j);
    }
  }

  /** A name that is not there yet, entered in an entry that is free or new. */
  lemma DirEnter(size: nat, c: seq<nat>, slots: nat, t: Tree, d: nat, n: Name, i: nat, k: nat, c': seq<nat>,
      slots': nat, t': Tree)
    requires DirShows(size, c, slots, t, d) && !Has(t, d, n) && Fits(size, n) && i >= 1 && !Used(size, c, slots, k)
    requires Edited(size, c, slots, k, Enc(size, n, i), c', slots')
    requires forall m: Name {:trigger Has(t', d, m)} {:trigger Has(t, d, m)} :: Has(t', d, m) <==>
             Has(t, d, m) || m == n
    requires forall m: Name {:trigger At(t', d, m)} :: Has(t', d, m) ==>
             At(t', d, m) == if m == n then i else At(t, d, m)
    ensures DirShows(size, c', slots', t', d)
  {
    hide Enc, Fits, Holds, Used, Has, At;
    InoRound(size, n, i);
    forall m: Name, j: nat | Has(t', d, m) && Holds(size, c', slots', j, m, At(t', d, m))
      ensures j == k <==> m == n
    {
      if j == k {
        EncInjective(size, n, i, m, At(t', d, m));
      } else if m == n {
        HoldsUsed(size, c, slots, j, n, i);
        var l: Name :| Has(t, d, l) && Holds(size, c, slots, j, l, At(t, d, l));
        HoldsOne(size, c, slots, j, n, i, l, At(t, d, l));
      }
    }
    forall j | Used(size, c', slots', j)
      ensures exists m: Name {:trigger Has(t', d, m)} :: Has(t', d, m) && Holds(size, c', slots', j, m, At(t', d, m))
    {
      if j == k {
        assert Has(t', d, n) && Holds(size, c', slots', j, n, At(t', d, n));
      } else {
        var m: Name :| Has(t, d, m) && Holds(size, c, slots, j, m, At(t, d, m));
        assert Has(t', d, m) && Holds(size, c', slots', j, m, At(t', d, m));
      }
    }
    forall m: Name | Has(t', d, m)
      ensures exists j {:trigger Used(size, c', slots', j)} ::
              Used(size, c', slots', j) && Holds(size, c', slots', j, m, At(t', d, m))
    {
      if m == n {
        assert Used(size, c', slots', k) && Holds(size, c', slots', k, m, At(t', d, m));
      } else {
        var j :| Used(size, c, slots, j) && Holds(size, c, slots, j, m, At(t, d, m));
        assert Used(size, c', slots', j) && Holds(size, c', slots', j, m, At(t', d, m));
      }
    }
  }

  lemma HoldsUsed(size: nat, c: seq<nat>, slots: nat, j: nat, n: Name, i: nat)
    requires Whole(size, c, slots) && Holds(size, c, slots, j, n, i) && i >= 1
    ensures Used(size, c, slots, j)
  {
    InoRound(size, n, i);
  }

  lemma HoldsOne(size: nat, c: seq<nat>, slots: nat, j: nat, n: Name, i: nat, m: Name, l: nat)
    requires Whole(size, c, slots) && Holds(size, c, slots, j, n, i) && Holds(size, c, slots, j, m, l)
    ensures n == m && i == l
  {
    EncInjective(size, n, i, m, l);
  }

  /** Entry k, which held name n, was cleared, and the tree lost that name. */
  ghost predicate Left(size: nat, c: seq<nat>, slots: nat, t: Tree, d: nat, n: Name, k: nat, c': seq<nat>, slots': nat,
      t': Tree)
  {
    && DirShows(size, c, slots, t, d) && Has(t, d, n) && Holds(size, c, slots, k, n, At(t, d, n))
    && Edited(size, c, slots, k, Zeros(size), c', slots')
    && (forall m: Name {:trigger Has(t', d, m)} {:trigger Has(t, d, m)} :: Has(t', d, m) <==> Has(t, d, m) && m != n)
    && (forall m: Name {:trigger At(t', d, m)} :: Has(t', d, m) ==> At(t', d, m) == At(t, d, m))
  }

  lemma LeftUsed(size: nat, c: seq<nat>, slots: nat, t: Tree, d: nat, n: Name, k: nat, c': seq<nat>, slots': nat,
      t': Tree, j: nat)
    requires Left(size, c, slots, t, d, n, k, c', slots', t') && Whole(size, c', slots') && Used(size, c', slots', j)
    ensures exists m: Name {:trigger Has(t', d, m)} :: Has(t', d, m) && Holds(size, c', slots', j, m, At(t', d, m))
  {
    hide Enc, Fits, Holds, Used, Has, At;
    assert InoOf(Zeros(size)) == 0;
    var m: Name :| Has(t, d, m) && Holds(size, c, slots, j, m, At(t, d, m));
    assert Has(t', d, m) && Holds(size, c', slots', j, m, At(t', d, m));
  }

  lemma LeftNamed(size: nat, c: seq<nat>, slots: nat, t: Tree, d: nat, n: Name, k: nat, c': seq<nat>, slots': nat,
      t': Tree, m: Name)
    requires Left(size, c, slots, t, d, n, k, c', slots', t') && Whole(size, c', slots') && Has(t', d, m)
    ensures exists j {:trigger Used(size, c', slots', j)} ::
            Used(size, c', slots', j) && Holds(size, c', slots', j, m, At(t', d, m))
  {
    hide Enc, Fits, Holds, Used, Has, At;
    var j :| Used(size, c, slots, j) && Holds(size, c, slots, j, m, At(t, d, m));
    if j == k {
      HoldsOne(size, c, slots, j, n, At(t, d, n), m, At(t, d, m));
    }
    assert Used(size, c', slots', j) && Holds(size, c', slots', j, m, At(t', d, m));
  }

  /** A name removed by clearing its entry. */
  lemma DirLeave(size: nat, c: seq<nat>, slots: nat, t: Tree, d: nat, n: Name, k: nat, c': seq<nat>, slots': nat,
      t': Tree)
    requires Left(size, c, slots, t, d, n, k, c', slots', t')
    ensures DirShows(size, c', slots', t', d)
  {
    EditedWhole(size, c, slots, k, Zeros(size), c', slots');
    hide Enc, Fits, Holds, Used, Has, At, Left;
    forall j | Used(size, c', slots', j)
      ensures exists m: Name {:trigger Has(t', d, m)} :: Has(t', d, m) && Holds(size, c', slots', j, m, At(t', d, m))
    {
      LeftUsed(size, c, slots, t, d, n, k, c', slots', t', j);
    }
    forall m: Name | Has(t', d, m)
      ensures exists j {:trigger Used(size, c', slots', j)} ::
              Used(size, c', slots', j) && Holds(size, c', slots', j, m, At(t', d, m))
    {
      LeftNamed(size, c, slots, t, d, n, k, c', slots', t', m);
    }
    forall j, l,
        m: Name {:trigger Holds(size, c', slots', j, m, At(t', d, m)), Holds(size, c', slots', l, m, At(t', d, m))} |
        Has(t', d, m) && Holds(size, c', slots', j, m, At(t', d, m)) && Holds(size, c', slots', l, m, At(t', d, m))
      ensures j == l
    {
      LeftOnce(size, c, slots, t, d, n, k, c', slots', t', m, j, l);
    }
  }

  lemma LeftOnce(size: nat, c: seq<nat>, slots: nat, t: Tree, d: nat, n: Name, k: nat, c': seq<nat>, slots': nat,
      t': Tree, m: Name, j: nat, l: nat)
    requires Left(size, c, slots, t, d, n, k, c', slots', t') && Whole(size, c', slots') && Has(t', d, m)
    requires Holds(size, c', slots', j, m, At(t', d, m)) && Holds(size, c', slots', l, m, At(t', d, m))
    ensures j == l
  {
    hide Enc, Fits, Holds, Used, Has, At;
    NotCleared(size, m, At(t', d, m));
    assert Has(t, d, m) && At(t', d, m) == At(t, d, m);
  }

  lemma NotCleared(size: nat, m: Name, i: nat)
    ensures Fits(size, m) ==> Zeros(size) != Enc(size, m, i)
  {
    if Fits(size, m) {
      assert Enc(size, m, i)[2] == Text(m)[0] as nat;
    }
  }

  // ---- the whole volume ----

  /** Inode i of the volume is what the tree says: its kind, its link count, and the entries if it
      is a directory. */
  ghost predicate ShowsAt(size: nat, t: Tree, f: File, i: nat)
    requires size >= 3 && i < |t.kind| == |t.nlink|
  {
    match t.kind[i]
    case Free => f.Absent?
    case File => !f.Absent? && f.links == t.nlink[i]
    case Dir => f.Bytes? && f.links == t.nlink[i] && DirShows(size, f.bytes, |f.bytes| / size, t, i)
  }

  ghost predicate Shows(size: nat, t: Tree, v: seq<File>) {
    && size >= 3 && |v| == |t.kind| == |t.nlink| && !Live(t, 0)
    && (forall i {:trigger v[i]} :: 1 <= i < |v| ==> ShowsAt(size, t, v[i], i))
    && (forall d: nat, n: Name {:trigger Has(t, d, n)} :: Has(t, d, n) ==> IsDir(t, d) && At(t, d, n) >= 1)
  }

  /** Both trees agree on everything but inode x and its entries. */
  ghost predicate ApartFrom(t: Tree, t': Tree, x: nat) {
    && |t'.kind| == |t.kind| && |t'.nlink| == |t.nlink|
    && (forall i {:trigger t'.kind[i]} :: 0 <= i < |t.kind| && i != x ==> t'.kind[i] == t.kind[i])
    && (forall i {:trigger t'.nlink[i]} :: 0 <= i < |t.nlink| && i != x ==> t'.nlink[i] == t.nlink[i])
    && (forall d: nat, n: Name {:trigger Has(t', d, n)} {:trigger Has(t, d, n)} :: d != x ==>
         (Has(t', d, n) <==> Has(t, d, n)))
    && (forall d: nat, n: Name {:trigger At(t', d, n)} :: d != x ==> At(t', d, n) == At(t, d, n))
  }

  lemma DirSame(size: nat, c: seq<nat>, slots: nat, t: Tree, t': Tree, d: nat, x: nat)
    requires DirShows(size, c, slots, t, d) && ApartFrom(t, t', x) && d != x
    ensures DirShows(size, c, slots, t', d)
  {
    hide Holds, Used, Has, At;
    forall k | Used(size, c, slots, k)
      ensures exists n: Name {:trigger Has(t', d, n)} :: Has(t', d, n) && Holds(size, c, slots, k, n, At(t', d, n))
    {
      var n: Name :| Has(t, d, n) && Holds(size, c, slots, k, n, At(t, d, n));
      assert Has(t', d, n);
    }
  }

  /** A change of one inode shows if that inode shows it. */
  lemma ShowsChange(size: nat, t: Tree, v: seq<File>, t': Tree, v': seq<File>, x: nat)
    requires Shows(size, t, v) && ApartFrom(t, t', x) && 1 <= x < |v| == |v'|
    requires forall i {:trigger v'[i]} :: 0 <= i < |v| && i != x ==> v'[i] == v[i]
    requires ShowsAt(size, t', v'[x], x)
    requires forall n: Name {:trigger Has(t', x, n)} :: Has(t', x, n) ==> IsDir(t', x) && At(t', x, n) >= 1
    ensures Shows(size, t', v')
  {
    hide DirShows, Has, At;
    assert t'.kind[0] == t.kind[0];
    forall i {:trigger v'[i]} | 1 <= i < |v'|
      ensures ShowsAt(size, t', v'[i], i)
    {
      if i != x {
        assert ShowsAt(size, t, v[i], i) && t'.kind[i] == t.kind[i] && t'.nlink[i] == t.nlink[i];
        if t.kind[i].Dir? {
          DirSame(size, v[i].bytes, |v[i].bytes| / size, t, t', i, x);
        }
      }
    }
    forall d: nat, n: Name {:trigger Has(t', d, n)} | Has(t', d, n)
      ensures IsDir(t', d) && At(t', d, n) >= 1
    {
      if d != x {
        assert Has(t, d, n) && At(t', d, n) == At(t, d, n);
        assert t'.kind[d] == t.kind[d];
      }
    }
  }

  /** The operation on the volume that makes a write of the namespace; k is the entry it uses. */
  function OpOf(size: nat, s: Step, k: nat): Op
    requires s.Enter? ==> Fits(size, s.n)
  {
    match s
    case Enter(d, n, i, l) => Patch(d, k * size, Enc(size, n, i), l)
    case Leave(d, n, l) => Patch(d, k * size, Zeros(size), l)
    case Count(i, l) => Relink(i, l)
    case Make(i, kind, l) => Create(i, Img.Data, l, 0)
    case Clear(i) => Destroy(i)
  }

  /** Entry k is the one to use: for a name to enter the first that is free, or a new one if none
      is; for one to leave the name's own. */
  ghost predicate RightSlot(size: nat, t: Tree, v: seq<File>, s: Step, k: nat)
    requires Shows(size, t, v) && May(t, s)
  {
    s.Enter? || s.Leave? ==>
      s.d < |v| && v[s.d].Bytes? &&
      var c := v[s.d].bytes; var slots := |c| / size;
      && Whole(size, c, slots)
      && (s.Enter? ==> k <= slots && !Used(size, c, slots, k) && forall j: nat :: j < k ==> Used(size, c, slots, j))
      && (s.Leave? ==> Holds(size, c, slots, k, s.n, At(t, s.d, s.n)))
  }

  lemma WholeSlots(size: nat, c: seq<nat>, slots: nat)
    requires Whole(size, c, slots)
    ensures |c| / size == slots
  {
    DivUnique(|c|, size, slots, 0);
  }

  lemma EnterShows(size: nat, t: Tree, v: seq<File>, s: Step, k: nat)
    requires Shows(size, t, v) && May(t, s) && s.Enter? && Fits(size, s.n) && RightSlot(size, t, v, s, k)
    ensures Shows(size, Take(t, s), Apply(t.width, v, OpOf(size, s, k)))
  {
    hide DirShows, Used, Holds, Enc, Overlay, Edited;
    var d, n, t' := s.d, s.n, Take(t, s);
    var c := v[d].bytes;
    var slots, e := |c| / size, Enc(size, n, s.i);
    var c', slots' := Overlay(c, k * size, e), if k == slots then slots + 1 else slots;
    assert ShowsAt(size, t, v[d], d);
    EditSlot(size, c, slots, k, e);
    EditedWhole(size, c, slots, k, e, c', slots');
    WholeSlots(size, c', slots');
    DirEnter(size, c, slots, t, d, n, s.i, k, c', slots', t');
    ShowsChange(size, t, v, t', Apply(t.width, v, OpOf(size, s, k)), d);
  }

  lemma EditedWhole(size: nat, c: seq<nat>, slots: nat, k: nat, e: seq<nat>, c': seq<nat>, slots': nat)
    requires Edited(size, c, slots, k, e, c', slots')
    ensures Whole(size, c', slots')
  {
  }

  lemma LeaveShows(size: nat, t: Tree, v: seq<File>, s: Step, k: nat)
    requires Shows(size, t, v) && May(t, s) && s.Leave? && RightSlot(size, t, v, s, k)
    ensures Shows(size, Take(t, s), Apply(t.width, v, OpOf(size, s, k)))
  {
    hide DirShows, Used, Enc, Overlay, Edited;
    var d, n, t' := s.d, s.n, Take(t, s);
    var c := v[d].bytes;
    var slots := |c| / size;
    var c' := Overlay(c, k * size, Zeros(size));
    assert ShowsAt(size, t, v[d], d);
    EditSlot(size, c, slots, k, Zeros(size));
    EditedWhole(size, c, slots, k, Zeros(size), c', slots);
    WholeSlots(size, c', slots);
    DirLeave(size, c, slots, t, d, n, k, c', slots, t');
    ShowsChange(size, t, v, t', Apply(t.width, v, OpOf(size, s, k)), d);
  }

  lemma CountShows(size: nat, t: Tree, v: seq<File>, s: Step, k: nat)
    requires Shows(size, t, v) && May(t, s) && s.Count?
    ensures Shows(size, Take(t, s), Apply(t.width, v, OpOf(size, s, k)))
  {
    hide DirShows;
    var t' := Take(t, s);
    assert ShowsAt(size, t, v[s.i], s.i);
    assert forall n: Name {:trigger Has(t', s.i, n)} :: Has(t', s.i, n) ==> Has(t, s.i, n);
    if t.kind[s.i].Dir? {
      DirAgain(size, v[s.i].bytes, |v[s.i].bytes| / size, t, t', s.i);
    }
    ShowsChange(size, t, v, t', Apply(t.width, v, OpOf(size, s, k)), s.i);
  }

  lemma DirAgain(size: nat, c: seq<nat>, slots: nat, t: Tree, t': Tree, d: nat)
    requires DirShows(size, c, slots, t, d) && t'.ents == t.ents
    ensures DirShows(size, c, slots, t', d)
    ensures forall n: Name {:trigger Has(t', d, n)} :: Has(t', d, n) ==> Has(t, d, n) && At(t', d, n) == At(t, d, n)
  {
    assert forall n: Name {:trigger Has(t', d, n)} {:trigger Has(t, d, n)} :: Has(t', d, n) <==> Has(t, d, n);
    assert forall n: Name {:trigger At(t', d, n)} {:trigger At(t, d, n)} :: At(t', d, n) == At(t, d, n);
    hide Holds, Used, Has, At;
    forall k | Used(size, c, slots, k)
      ensures exists n: Name {:trigger Has(t', d, n)} :: Has(t', d, n) && Holds(size, c, slots, k, n, At(t', d, n))
    {
      var n: Name :| Has(t, d, n) && Holds(size, c, slots, k, n, At(t, d, n));
      assert Has(t', d, n);
    }
    forall n: Name | Has(t', d, n)
      ensures exists k {:trigger Used(size, c, slots, k)} ::
              Used(size, c, slots, k) && Holds(size, c, slots, k, n, At(t', d, n))
    {
      assert Has(t, d, n) && At(t', d, n) == At(t, d, n);
    }
  }

  lemma MakeShows(size: nat, t: Tree, v: seq<File>, s: Step, k: nat)
    requires Shows(size, t, v) && May(t, s) && s.Make?
    ensures Shows(size, Take(t, s), Apply(t.width, v, OpOf(size, s, k)))
  {
    var t' := Take(t, s);
    assert forall n: Name :: !Has(t, s.i, n) && !Has(t', s.i, n);
    ShowsChange(size, t, v, t', Apply(t.width, v, OpOf(size, s, k)), s.i);
  }

  lemma ClearShows(size: nat, t: Tree, v: seq<File>, s: Step, k: nat)
    requires Shows(size, t, v) && May(t, s) && s.Clear?
    ensures Shows(size, Take(t, s), Apply(t.width, v, OpOf(size, s, k)))
  {
    hide DirShows;
    var t' := Take(t, s);
    ShowsChange(size, t, v, t', Apply(t.width, v, OpOf(size, s, k)), s.i);
  }

  /** Every write of the namespace is one operation on the volume. */
  lemma StepShows(size: nat, t: Tree, v: seq<File>, s: Step, k: nat)
    requires Shows(size, t, v) && May(t, s) && (s.Enter? ==> Fits(size, s.n)) && RightSlot(size, t, v, s, k)
    ensures Shows(size, Take(t, s), Apply(t.width, v, OpOf(size, s, k)))
  {
    hide Shows, Take, Apply, RightSlot, Fits;
    match s
    case Enter(_, _, _, _) => EnterShows(size, t, v, s, k);
    case Leave(_, _, _) => LeaveShows(size, t, v, s, k);
    case Count(_, _) => CountShows(size, t, v, s, k);
    case Make(_, _, _) => MakeShows(size, t, v, s, k);
    case Clear(_) => ClearShows(size, t, v, s, k);
  }
}
