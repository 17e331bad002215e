/** A new second-level index block keeps the old contents of the block taken
    (main.c:1276-1282): exactly when a file survives taking it. */
module StaleIndex {
  import opened Layout
  import opened State
  import opened AttachProofs
  import opened FileWrite
  import opened WriteProofs
  import opened WriteLoops

  /** Word x of the old contents of blocks bs, one block after the other. */
  function Word(st: Store, bs: seq<nat>, x: nat): nat
    requires x < 256 * |bs|
  {
    PtrAt(st.blocks, bs[x / 256], x % 256)
  }

  /** The old contents of bs can serve as index blocks of a file that may use
      their first n entries: every entry is null or, among those, names a block
      that is marked allocated and held by nobody, each one once. */
  ghost predicate Adopts(st: Store, ow: Owners, bs: seq<nat>, n: int)
    requires Sized(st)
  {
    && (forall x :: 0 <= x < 256 * |bs| && Word(st, bs, x) != 0 ==> x < n && Word(st, bs, x) in Leaked(st, ow))
    && (forall x, y :: 0 <= x < y < 256 * |bs| && Word(st, bs, x) != 0 ==> Word(st, bs, x) != Word(st, bs, y))
  }

  /** The same of one block, all of whose entries may be used. */
  ghost predicate Adoptable(st: Store, ow: Owners, c: Block)
    requires Sized(st)
  {
    && (forall e :: 0 <= e < 256 && Ptr(c, e) != 0 ==> Ptr(c, e) in Leaked(st, ow))
    && (forall e, f :: 0 <= e < f < 256 && Ptr(c, e) != 0 ==> Ptr(c, e) != Ptr(c, f))
  }

  /** Every pointer after block b was taken, contents and all, as second-level
      block k of file i. */
  ghost function StaleT(st: Store, i: nat, k: nat, b: nat, c: Block, j: nat, m: Loc): nat
    requires j < |st.inodes|
  {
    if j == i && m == Outer(k) then b
    else if j == i && m.Data? && FirstOf(k) <= m.l < FirstOf(k) + 256 then Ptr(c, m.l - FirstOf(k))
    else T(st, j, m)
  }

  ghost predicate StaleIs(st: Store, i: nat, k: nat, b: nat, j: nat, m: Loc)
    requires i < |st.inodes| && j < |st.inodes| && k < 256 && b < |st.blocks| && b < |st.blockMap|
  {
    T(Attach(st, i, Outer(k), b, st.blocks[b]), j, m) == StaleT(st, i, k, b, st.blocks[b], j, m)
  }

  lemma OuterParent(k: nat, m: Loc)
    requires LocOk(m) && k < 256 && CellOf(m).InBlock?
    ensures CellOf(m).parent == Outer(k) <==> m.Data? && FirstOf(k) <= m.l < FirstOf(k) + 256
    ensures CellOf(m).parent == Outer(k) ==> CellOf(m).k == m.l - FirstOf(k)
  {
  }

  lemma StaleEntry(st: Store, ow: Owners, i: nat, k: nat, b: nat, j: nat, m: Loc)
    requires Good(st, ow) && k < 256 && CanAttach(st, i, Outer(k), b)
    requires Live(st, j) && LocOk(m) && CellOf(m).InBlock? && StaleIs(st, i, k, b, j, CellOf(m).parent)
    ensures StaleIs(st, i, k, b, j, m)
  {
    hide Attach;
    var c := st.blocks[b];
    var st' := Attach(st, i, Outer(k), b, c);
    var parent, e := CellOf(m).parent, CellOf(m).k;
    AttachBlocks(st, ow, i, Outer(k), b, c);
    var p, q := T(st, i, Ind2), T(st', j, parent);
    TargetCell(st.inodes[j], st.blocks, m);
    TargetCell(st'.inodes[j], st'.blocks, m);
    OuterParent(k, m);
    PtrAtAfter(st.blocks, p, k, b, c, q, e);
    hide Target, CellOf;
    if parent == Outer(k) && j == i {
      assert q == b;
    } else {
      assert q == T(st, j, parent);
      assert q != 0 ==> q in ow && q != b;
      if q == p && e == k { OuterCellOnly(st, ow, i, j, m, k); }
    }
  }

  /** Entry k of i's double-indirect block is the cell of Outer(k) only. */
  lemma OuterCellOnly(st: Store, ow: Owners, i: nat, j: nat, m: Loc, k: nat)
    requires Good(st, ow) && Live(st, i) && Live(st, j) && LocOk(m) && k < 256 && CellOf(m).InBlock? && CellOf(m).k == k
    requires T(st, j, CellOf(m).parent) == T(st, i, Ind2) != 0
    ensures j == i && m == Outer(k)
  {
    var parent := CellOf(m).parent;
    assert (j, parent) == (i, Ind2) by { hide Target; assert ow[T(st, i, Ind2)] == (i, Ind2); }
    CellInjective(m, Outer(k));
  }

  lemma {:induction false} StaleTarget(st: Store, ow: Owners, i: nat, k: nat, b: nat, j: nat, m: Loc)
    requires Good(st, ow) && k < 256 && CanAttach(st, i, Outer(k), b) && Live(st, j)
    ensures StaleIs(st, i, k, b, j, m)
    decreases Depth(m)
  {
    if !LocOk(m) {
    } else if CellOf(m).InBlock? {
      StaleTarget(st, ow, i, k, b, j, CellOf(m).parent);
      StaleEntry(st, ow, i, k, b, j, m);
    } else {
      AttachBlocks(st, ow, i, Outer(k), b, st.blocks[b]);
    }
  }

  // ---- taking the block ----

  /** The owners when the first n entries of c are adopted. */
  ghost function AdoptedUpTo(ow: Owners, i: nat, k: nat, c: Block, n: nat): Owners
    requires n <= 256
  {
    if n == 0 then ow
    else
      var o := AdoptedUpTo(ow, i, k, c, n - 1);
      if Ptr(c, n - 1) != 0 then o[Ptr(c, n - 1) := (i, Data(FirstOf(k) + n - 1))] else o
  }

  ghost function AdoptedOw(ow: Owners, i: nat, k: nat, b: nat, c: Block): Owners {
    AdoptedUpTo(ow[b := (i, Outer(k))], i, k, c, 256)
  }

  ghost function Named(c: Block): set<nat> { set e | 0 <= e < 256 && Ptr(c, e) != 0 :: Ptr(c, e) }

  lemma {:induction false} AdoptedIs(ow: Owners, i: nat, k: nat, c: Block, n: nat)
    requires n <= 256 && forall e, f :: 0 <= e < f < 256 && Ptr(c, e) != 0 ==> Ptr(c, e) != Ptr(c, f)
    ensures var o := AdoptedUpTo(ow, i, k, c, n);
            && (forall e :: 0 <= e < n && Ptr(c, e) != 0 ==> Ptr(c, e) in o && o[Ptr(c, e)] == (i, Data(FirstOf(k) + e)))
            && (forall x :: x in o ==> (x in ow && o[x] == ow[x]) || exists e :: 0 <= e < n && Ptr(c, e) == x != 0)
            && (forall x :: x in ow ==> x in o)
            && (forall x :: x in ow && (forall e :: 0 <= e < n ==> Ptr(c, e) != x) ==> o[x] == ow[x])
  {
    hide Ptr;
    if n > 0 { AdoptedIs(ow, i, k, c, n - 1); }
  }

  lemma AdoptGood(st: Store, ow: Owners, i: nat, k: nat, b: nat)
    requires Good(st, ow) && k < 256 && CanAttach(st, i, Outer(k), b) && Adoptable(st, ow, st.blocks[b])
    ensures Good(Attach(st, i, Outer(k), b, st.blocks[b]), AdoptedOw(ow, i, k, b, st.blocks[b]))
  {
    hide Attach, Target, Adoptable, AdoptedOw, Ptr, StaleT;
    var s := Attach(st, i, Outer(k), b, st.blocks[b]);
    AttachFields(st, ow, i, Outer(k), b, st.blocks[b]);
    var ow' := AdoptedOw(ow, i, k, b, st.blocks[b]);
    forall j: nat, m | Live(s, j) && T(s, j, m) != 0
      ensures LocOk(m) && s.start <= T(s, j, m) < |s.blocks| && s.blockMap[T(s, j, m)]
      ensures T(s, j, m) in ow' && ow'[T(s, j, m)] == (j, m)
    {
      AdoptHolds(st, ow, i, k, b, j, m);
    }
    forall x | x in ow' ensures x != 0 && Live(s, ow'[x].0) && T(s, ow'[x].0, ow'[x].1) == x {
      AdoptHeld(st, ow, i, k, b, x);
    }
  }

  lemma AdoptHolds(st: Store, ow: Owners, i: nat, k: nat, b: nat, j: nat, m: Loc)
    requires Good(st, ow) && k < 256 && CanAttach(st, i, Outer(k), b) && Adoptable(st, ow, st.blocks[b]) && Live(st, j)
    ensures var x, ow' := StaleT(st, i, k, b, st.blocks[b], j, m), AdoptedOw(ow, i, k, b, st.blocks[b]);
            && T(Attach(st, i, Outer(k), b, st.blocks[b]), j, m) == x
            && (x != 0 ==> && LocOk(m) && st.start <= x < |st.blocks| && (st.blockMap[x] || x == b)
                           && x in ow' && ow'[x] == (j, m))
  {
    hide Attach, Target, Adoptable, Ptr, AdoptedUpTo;
    StaleTarget(st, ow, i, k, b, j, m);
    AdoptedEntries(st, ow, i, k, b);
    AdoptedIs(ow[b := (i, Outer(k))], i, k, st.blocks[b], 256);
    if m.Data? && FirstOf(k) <= m.l < FirstOf(k) + 256 {
      assert FirstOf(k) + (m.l - FirstOf(k)) == m.l;
    }
  }

  lemma AdoptHeld(st: Store, ow: Owners, i: nat, k: nat, b: nat, x: nat)
    requires Good(st, ow) && k < 256 && CanAttach(st, i, Outer(k), b) && Adoptable(st, ow, st.blocks[b])
    requires x in AdoptedOw(ow, i, k, b, st.blocks[b])
    ensures var ow' := AdoptedOw(ow, i, k, b, st.blocks[b]);
            && x != 0 && Live(st, ow'[x].0)
            && T(Attach(st, i, Outer(k), b, st.blocks[b]), ow'[x].0, ow'[x].1) == x
  {
    hide Attach, Target, Adoptable, Ptr, Owned, AdoptedUpTo;
    var ow' := AdoptedOw(ow, i, k, b, st.blocks[b]);
    AdoptedEntries(st, ow, i, k, b);
    AdoptedIs(ow[b := (i, Outer(k))], i, k, st.blocks[b], 256);
    NullChildren(st, i, k);
    if x != b && x in ow { OwnedAt(st, ow, x); }
    StaleTarget(st, ow, i, k, b, ow'[x].0, ow'[x].1);
  }

  lemma OwnedAt(st: Store, ow: Owners, x: nat)
    requires Good(st, ow) && x in ow
    ensures x != 0 && Live(st, ow[x].0) && T(st, ow[x].0, ow[x].1) == x
  {
    hide Target;
  }

  lemma AdoptedEntries(st: Store, ow: Owners, i: nat, k: nat, b: nat)
    requires Good(st, ow) && k < 256 && CanAttach(st, i, Outer(k), b) && Adoptable(st, ow, st.blocks[b])
    ensures forall e :: 0 <= e < 256 && Ptr(st.blocks[b], e) != 0 ==>
              var p := Ptr(st.blocks[b], e);
              st.start <= p < |st.blocks| && st.blockMap[p] && p !in ow && p != b
    ensures forall e, f :: 0 <= e < f < 256 && Ptr(st.blocks[b], e) != 0 ==> Ptr(st.blocks[b], e) != Ptr(st.blocks[b], f)
    ensures b !in ow && b != 0
  {
    hide Ptr, Target;
  }

  /** The blocks adopted are no longer leaked; all others that were, are. */
  lemma AdoptLeaks(st: Store, ow: Owners, i: nat, k: nat, b: nat)
    requires Good(st, ow) && k < 256 && CanAttach(st, i, Outer(k), b) && Adoptable(st, ow, st.blocks[b])
    ensures var s := Attach(st, i, Outer(k), b, st.blocks[b]);
            Sized(s) && Leaked(s, AdoptedOw(ow, i, k, b, st.blocks[b])) == Leaked(st, ow) - Named(st.blocks[b])
  {
    hide Attach, Target, Adoptable, Ptr, Owned, AdoptedUpTo, Leaked, Named;
    AttachFields(st, ow, i, Outer(k), b, st.blocks[b]);
    AdoptedEntries(st, ow, i, k, b);
    var s, ow' := Attach(st, i, Outer(k), b, st.blocks[b]), AdoptedOw(ow, i, k, b, st.blocks[b]);
    forall x: nat ensures x in Leaked(s, ow') <==> x in Leaked(st, ow) && x !in Named(st.blocks[b]) {
      InLeaked(st, ow, x);
      InLeaked(s, ow', x);
      InNamed(st.blocks[b], x);
      InAdopted(st, ow, i, k, b, x);
    }
  }

  lemma InAdopted(st: Store, ow: Owners, i: nat, k: nat, b: nat, x: nat)
    requires Sized(st) && b < |st.blocks| && Adoptable(st, ow, st.blocks[b])
    ensures x in AdoptedOw(ow, i, k, b, st.blocks[b]) <==>
              x == b || x in ow || exists e :: 0 <= e < 256 && Ptr(st.blocks[b], e) == x != 0
  {
    hide Ptr, AdoptedUpTo, Leaked;
    var c, o1 := st.blocks[b], ow[b := (i, Outer(k))];
    var o := AdoptedUpTo(o1, i, k, c, 256);
    AdoptedIs(o1, i, k, st.blocks[b], 256);
    assert AdoptedOw(ow, i, k, b, c) == o;
    assert x in o1 <==> x == b || x in ow;
    assert x in o1 ==> x in o;
    if x in o && x !in o1 { assert exists e :: 0 <= e < 256 && Ptr(c, e) == x != 0; }
    if e :| 0 <= e < 256 && Ptr(st.blocks[b], e) == x != 0 { assert Ptr(c, e) in o; }
  }

  lemma InNamed(c: Block, x: nat)
    ensures x in Named(c) <==> exists e :: 0 <= e < 256 && Ptr(c, e) == x != 0
  {
    hide Ptr;
  }

  lemma InLeaked(st: Store, ow: Owners, x: nat)
    requires Sized(st)
    ensures x in Leaked(st, ow) <==> st.start <= x < |st.blocks| && st.blockMap[x] && x !in ow
  {
  }

  /** Nothing hangs below a null pointer. */
  lemma NullChildren(st: Store, i: nat, k: nat)
    requires i < |st.inodes| && k < 256 && T(st, i, Outer(k)) == 0
    ensures forall l: nat :: FirstOf(k) <= l < FirstOf(k) + 256 ==> T(st, i, Data(l)) == 0
  {
    forall l: nat | FirstOf(k) <= l < FirstOf(k) + 256 ensures T(st, i, Data(l)) == 0 {
      TargetCell(st.inodes[i], st.blocks, Data(l));
      OuterParent(k, Data(l));
    }
  }

  /** The other direction: whatever the file's pointers name is its own. */
  lemma OnlyAdopts(st: Store, ow: Owners, i: nat, k: nat, b: nat, ow': Owners)
    requires Good(st, ow) && k < 256 && CanAttach(st, i, Outer(k), b)
    requires Good(Attach(st, i, Outer(k), b, st.blocks[b]), ow') && i < |Attach(st, i, Outer(k), b, st.blocks[b]).inodes|
    requires Shape(Attach(st, i, Outer(k), b, st.blocks[b]), i) && st.inodes[i].size == FirstOf(k) * 1024
    ensures Adopts(st, ow, [b], 1)
  {
    hide Target, Attach, Ptr, Owned, Leaked, Shape;
    forall e: nat | e < 256 && Ptr(st.blocks[b], e) != 0 ensures e < 1 && Ptr(st.blocks[b], e) in Leaked(st, ow) {
      OnlyAdopted(st, ow, i, k, b, e, ow');
    }
  }

  lemma OnlyAdopted(st: Store, ow: Owners, i: nat, k: nat, b: nat, e: nat, ow': Owners)
    requires Good(st, ow) && k < 256 && CanAttach(st, i, Outer(k), b) && e < 256 && Ptr(st.blocks[b], e) != 0
    requires Good(Attach(st, i, Outer(k), b, st.blocks[b]), ow') && i < |Attach(st, i, Outer(k), b, st.blocks[b]).inodes|
    requires Shape(Attach(st, i, Outer(k), b, st.blocks[b]), i) && st.inodes[i].size == FirstOf(k) * 1024
    ensures Sized(st) && e < 1 && Ptr(st.blocks[b], e) in Leaked(st, ow)
  {
    hide Target, Attach, Ptr, Owned, Leaked;
    var s, loc := Attach(st, i, Outer(k), b, st.blocks[b]), Data(FirstOf(k) + e);
    AttachBlocks(st, ow, i, Outer(k), b, st.blocks[b]);
    NullChildren(st, i, k);
    StaleTarget(st, ow, i, k, b, i, loc);
    assert T(s, i, loc) == Ptr(st.blocks[b], e);
    assert FirstBlock(loc) * 1024 <= s.inodes[i].size;
    HeldOnce(st, s, ow, ow', i, k, b, loc);
  }

  /** A pointer adopted from the old contents names a block nobody held. */
  lemma HeldOnce(st: Store, s: Store, ow: Owners, ow': Owners, i: nat, k: nat, b: nat, loc: Loc)
    requires Good(st, ow) && k < 256 && CanAttach(st, i, Outer(k), b) && s == Attach(st, i, Outer(k), b, st.blocks[b])
    requires Good(s, ow') && i < |s.inodes| && T(st, i, loc) == 0 != T(s, i, loc) && loc != Outer(k)
    ensures Sized(st) && T(s, i, loc) in Leaked(st, ow)
  {
    AttachFields(st, ow, i, Outer(k), b, st.blocks[b]);
    StaleTarget(st, ow, i, k, b, i, Outer(k));
    hide Target, Attach, Ptr;
    var p := T(s, i, loc);
    assert T(s, i, Outer(k)) == b;
    if p in ow {
      var (j, m) := ow[p];
      AttachTarget(st, ow, i, Outer(k), b, st.blocks[b], j, m);
    }
  }

  /** Taking the first free block as a new second-level index block leaves the
      file well formed and every block exclusively held exactly when the block
      read as null pointers, but perhaps for a first entry that names a leaked
      block: the file then adopts it. */
  lemma NewIndexBlockIff(st: Store, ow: Owners, i: nat, k: nat)
    requires Good(st, ow) && Live(st, i) && Shape(st, i) && k < 256
    requires st.inodes[i].size == FirstOf(k) * 1024 && T(st, i, Ind2) != 0 && T(st, i, Outer(k)) == 0
    requires FirstFree(st.blockMap, st.start, |st.blocks|) < |st.blocks|
    ensures var c := st.blocks[FirstFree(st.blockMap, st.start, |st.blocks|)];
            WellOwned(Grow(st, i, Outer(k)).st, i) <==>
              && (forall e :: 1 <= e < 256 ==> Ptr(c, e) == 0)
              && (Ptr(c, 0) == 0 || Ptr(c, 0) in Leaked(st, ow))
  {
    hide Owned, Target, Ptr, Attach, Leaked, Shape;
    var b := FirstFree(st.blockMap, st.start, |st.blocks|);
    var s := Grow(st, i, Outer(k)).st;
    assert s == Attach(st, i, Outer(k), b, st.blocks[b]);
    OneWord(st, b);
    if Adopts(st, ow, [b], 1) {
      AdoptGood(st, ow, i, k, b);
      AdoptShape(st, ow, i, k, b);
    }
    forall ow' | Good(s, ow') && Shape(s, i) ensures Adopts(st, ow, [b], 1) {
      OnlyAdopts(st, ow, i, k, b, ow');
    }
  }

  lemma OneWord(st: Store, b: nat)
    requires 0 < b < |st.blocks|
    ensures forall e: nat :: e < 256 ==> Word(st, [b], e) == Ptr(st.blocks[b], e)
  {
    hide Ptr;
  }

  lemma AdoptShape(st: Store, ow: Owners, i: nat, k: nat, b: nat)
    requires Good(st, ow) && k < 256 && CanAttach(st, i, Outer(k), b) && Adopts(st, ow, [b], 1)
    requires Shape(st, i) && st.inodes[i].size == FirstOf(k) * 1024
    ensures var s := Attach(st, i, Outer(k), b, st.blocks[b]); i < |s.inodes| && Shape(s, i)
  {
    var s := Attach(st, i, Outer(k), b, st.blocks[b]);
    OneWord(st, b);
    AttachBlocks(st, ow, i, Outer(k), b, st.blocks[b]);
    hide Target, Attach, Owned, Leaked, Ptr;
    forall m ensures T(s, i, m) == StaleT(st, i, k, b, st.blocks[b], i, m) { StaleTarget(st, ow, i, k, b, i, m); }
    forall m | T(s, i, m) != 0 ensures FirstBlock(m) * 1024 <= s.inodes[i].size { }
    forall l: nat | l < 65798 && l * 1024 < s.inodes[i].size ensures T(s, i, Data(l)) != 0 {
      assert T(st, i, Data(l)) != 0;
    }
  }
}
