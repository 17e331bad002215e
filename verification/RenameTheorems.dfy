/** When fs_rename does what its comment says, and what it does otherwise. */
module RenameTheorems {
  import opened Layout
  import opened State
  import opened FileWrite
  import opened WriteProofs
  import opened Ops
  import opened Tree
  import opened TreeProofs
  import opened OpProofs
  import opened TruncProofs
  import opened TreeTheorems
  import opened OpTheorems

  /** The source is there, the destination has the same parent, and no slot of
      it, used or not, holds the new name: the rename goes through. */
  ghost predicate GoesThrough(st: Store, p: Path, q: Path) {
    && p != [] && q != [] && NameOk(Last(q)) && Init(p) == Init(q) && Resolve(st, 1, p) >= 0
    && ParentOf(st, 1, p) >= 0 && Scan(DirBlock(st, ParentOf(st, 1, p)), AnyNamed(Last(q)), 0) == 32
  }

  // ---- the clash test ----

  /** EEXIST is reported for exactly the existing destinations if and only if
      no unused slot of the directory still holds the new name. */
  lemma ClashMeetsPromiseIff(st: Store, w: Wit, p: Path, q: Path)
    requires InvW(st, w) && p != [] && q != [] && NameOk(Last(q)) && Init(p) == Init(q) && p in TreeOf(st)
    ensures var d := ParentOf(st, 1, p);
            && d >= 0
            && ((Rename(st, p, q).rc == EEXIST <==> q in TreeOf(st))
                <==> (q in TreeOf(st) || forall s :: 0 <= s < 32 ==> E(st, d, s).valid || E(st, d, s).name != Last(q)))
  {
    hide InvW, TreeOf, Resolve, ParentOf, Walk, Scan, NoneNamed, DirBlock, E, NameOk, RenameEnt, SetDirBlock, Padded;
    var c := Resolved(st, w, p);
    var d, s, c' := EntryOf(st, w, p);
    SameParent(st, w, p, q);
    RenameClash(st, p, q);
    NameFree(st, w, p, d, Last(q));
    assert Init(q) + [Last(q)] == q;
    AnyNamedIff(st, d, Last(q));
  }

  lemma AnyNamedIff(st: Store, d: nat, n: Name)
    ensures Scan(DirBlock(st, d), AnyNamed(n), 0) < 32 <==>
              !NoneNamed(st, d, n) || exists s :: 0 <= s < 32 && !E(st, d, s).valid && E(st, d, s).name == n
  {
    hide Ent, DirBlock;
    var s := Scan(DirBlock(st, d), AnyNamed(n), 0);
    if s < 32 { assert E(st, d, s).name == n; }
    else {
      forall t | 0 <= t < 32 ensures E(st, d, t).name != n { assert !Hit(Ent(DirBlock(st, d), t), AnyNamed(n)); }
    }
  }

  lemma RenameClash(st: Store, p: Path, q: Path)
    requires p != [] && q != [] && NameOk(Last(q)) && Resolve(st, 1, p) >= 0
    requires ParentOf(st, 1, p) == ParentOf(st, 1, q) >= 0
    ensures Rename(st, p, q).rc == EEXIST <==> Scan(DirBlock(st, ParentOf(st, 1, p)), AnyNamed(Last(q)), 0) < 32
  {
    hide Resolve, ParentOf, Scan, SetDirBlock, RenameEnt, DirBlock;
  }

  // ---- the new name ----

  /** The name the slot holds afterwards: the new one over the old one, whose
      tail stays when it was longer. */
  function NewName(p: Path, q: Path): Name
    requires p != [] && q != []
  {
    Overwritten(Last(p), Last(q))
  }

  /** What a rename that goes through leaves. */
  lemma RenameDone(st: Store, w: Wit, p: Path, q: Path) returns (d: nat, s: nat)
    requires InvW(st, w) && GoesThrough(st, p, q)
    ensures d == ParentOf(st, 1, p) && Walk(st, Init(p)) == d && LiveDir(st, d) && s < 32 && |Last(q)| < 26
    ensures E(st, d, s).valid && E(st, d, s).name == Last(p) && Padded(DirBlock(st, d), s)
    ensures NoneNamed(st, d, Last(q)) && ParentOf(st, 1, q) == d
    ensures Rename(st, p, q) == Result(SetDirBlock(st, d, RenameEnt(DirBlock(st, d), s, Last(q))), 0)
  {
    hide InvW, Resolve, ParentOf, Walk, Scan, NoneNamed, DirBlock, E, NameOk, RenameEnt, SetDirBlock, Padded;
    var c;
    d, s, c := EntryOf(st, w, p);
    SameParent(st, w, p, q);
    ShortName(Last(q));
    NotAnyNamed(st, d, Last(q));
    RenameStores(st, p, q, d, s, c);
  }

  /** Only the renamed slot of d changed. */
  lemma OnlySlot(st: Store, w: Wit, d: nat, s: nat, n: Name)
    requires InvW(st, w) && LiveDir(st, d) && s < 32 && Padded(DirBlock(st, d), s) && NameOk(n)
    ensures var st' := SetDirBlock(st, d, RenameEnt(DirBlock(st, d), s, n));
            && st'.inodes == st.inodes && st'.inodeMap == st.inodeMap && d < |st.inodes|
            && OneEntry(st, st', d, s) && OthersSame(st, st', d)
            && E(st', d, s) == E(st, d, s).(name := Overwritten(E(st, d, s).name, n))
            && (forall e: nat :: LiveDir(st, e) && e != d ==> DirBlock(st', e) == DirBlock(st, e))
  {
    hide Target, Owned, Ent, SetDirBlock, Shapes, TreeInv, OthersSame, RenameEnt, Padded, DirPointers;
    var b' := RenameEnt(DirBlock(st, d), s, n);
    var st' := SetDirBlock(st, d, b');
    AllDirPointers(st, w);
    SetDirBlockOk(st, w.ow, d, b');
    EntRenameEnt(DirBlock(st, d), s, n);
    hide DirBlock;
    forall e: nat | LiveDir(st, e) && e != d ensures DirBlock(st', e) == DirBlock(st, e) {
      OtherDirBlock(st, st', d, e);
    }
  }

  /** The walk to d itself does not depend on d's slots. */
  lemma {:induction false} WalkAbove(st: Store, st': Store, w: Wit, d: nat, p: Path, n: Name, pre: Path, q: Path)
    requires TreeInv(st, w) && Walk(st, p) == d && LiveDir(st, d) && st'.inodes == st.inodes && st'.inodeMap == st.inodeMap
    requires forall e: nat :: LiveDir(st, e) && e != d ==> DirBlock(st', e) == DirBlock(st, e)
    requires q != [] && pre + q == p + [n] && Walk(st, pre) >= 0 && LiveDir(st, Walk(st, pre))
    ensures Resolve(st', Walk(st, pre), q) == Lookup(st', d, n)
    decreases |q|
  {
    hide TreeInv, Walk, Resolve, Lookup, DirBlock, NamedDir;
    var e := Walk(st, pre);
    SplitAt(pre, q, p, n);
    if |q| == 1 {
      ResolveFirst(st', d, q);
      assert q[1..] == [];
      ResolveNil(st', Lookup(st', d, n));
    } else {
      var x := q[0];
      PrefixLive(st, w, p, |pre| + 1);
      if e == d { WalkInjective(st, w, p, pre); }
      AboveStep(st, st', w, pre, e, q);
      assert (pre + [x]) + q[1..] == pre + q;
      WalkAbove(st, st', w, d, p, n, pre + [x], q[1..]);
    }
  }

  lemma SplitAt(pre: Path, q: Path, p: Path, n: Name)
    requires pre + q == p + [n] && q != []
    ensures |q| == 1 ==> q == [n] && pre == p
    ensures |q| > 1 ==> |pre| < |p| && p[..|pre| + 1] == pre + [q[0]]
  {
    assert (pre + q)[..|pre|] == pre && (pre + q)[|pre|..] == q;
    if |q| == 1 {
      assert (p + [n])[..|p|] == p && (p + [n])[|p|..] == [n];
    } else {
      assert (p + [n])[..|pre| + 1] == p[..|pre| + 1];
      assert (pre + q)[..|pre| + 1] == pre + [q[0]];
    }
  }

  lemma AboveStep(st: Store, st': Store, w: Wit, pre: Path, e: nat, q: Path)
    requires TreeInv(st, w) && Walk(st, pre) == e && LiveDir(st, e) && |q| > 1
    requires DirBlock(st', e) == DirBlock(st, e) && Walk(st, pre + [q[0]]) >= 0 && LiveDir(st, Walk(st, pre + [q[0]]))
    ensures Resolve(st', e, q) == Resolve(st', Walk(st, pre + [q[0]]), q[1..])
  {
    hide TreeInv, Walk, Resolve, Scan;
    WalkSnoc(st, pre, q[0]);
    LookupLive(st, w, e, q[0]);
    ResolveFirst(st', e, q);
  }

  /** Every proper prefix of a path to a directory leads to a directory. */
  lemma {:induction false} PrefixLive(st: Store, w: Wit, p: Path, k: nat)
    requires TreeInv(st, w) && k <= |p| && Walk(st, p) >= 0 && LiveDir(st, Walk(st, p))
    ensures Walk(st, p[..k]) >= 0 && LiveDir(st, Walk(st, p[..k]))
    decreases |p|
  {
    hide TreeInv, Walk;
    if k == |p| {
      assert p[..k] == p;
    } else {
      WalkParent(st, w, p);
      assert Init(p)[..k] == p[..k];
      PrefixLive(st, w, Init(p), k);
    }
  }

  /** After a rename to a shorter name the destination does not exist. */
  lemma ShortNameMissing(st: Store, w: Wit, p: Path, q: Path)
    requires InvW(st, w) && GoesThrough(st, p, q) && |Last(q)| < |Last(p)|
    ensures q !in TreeOf(Rename(st, p, q).st)
  {
    hide InvW, TreeOf, Resolve, ParentOf, Walk, NoneNamed, DirBlock, E, NameOk, RenameEnt, SetDirBlock, Padded, GoesThrough,
      OneEntry, OthersSame, Lookup;
    var d, s := RenameDone(st, w, p, q);
    GoesName(st, p, q);
    OnlySlot(st, w, d, s, Last(q));
    var st' := Rename(st, p, q).st;
    StillMissing(st, st', d, s, Last(q));
    ResolvesInParent(st, st', w, d, p, q);
    NotInTree(st', q);
  }

  lemma NotInTree(st: Store, q: Path)
    requires Resolve(st, 1, q) < 0
    ensures q !in TreeOf(st)
  {
    hide Resolve, NodeOf;
  }

  lemma GoesName(st: Store, p: Path, q: Path)
    requires GoesThrough(st, p, q)
    ensures p != [] && q != [] && NameOk(Last(q)) && Init(p) == Init(q) && Init(q) + [Last(q)] == q
  {
    hide NameOk, Scan, Resolve, ParentOf, DirBlock;
  }

  lemma StillMissing(st: Store, st': Store, d: nat, s: nat, n: Name)
    requires s < 32 && NoneNamed(st, d, n) && LiveDir(st, d) && OneEntry(st, st', d, s)
    requires E(st', d, s).name == Overwritten(E(st, d, s).name, n) && |n| < |E(st, d, s).name|
    ensures Lookup(st', d, n) < 0
  {
    hide E, Lookup;
    forall t | 0 <= t < 32 ensures !(E(st', d, t).valid && E(st', d, t).name == n) {
      if t != s { assert EntrySame(st, st', d, t); }
    }
    LookupNone(st', d, n);
  }

  lemma ResolvesInParent(st: Store, st': Store, w: Wit, d: nat, p: Path, q: Path)
    requires InvW(st, w) && p != [] && q != [] && Init(p) == Init(q) && Walk(st, Init(p)) == d && LiveDir(st, d)
    requires st'.inodes == st.inodes && st'.inodeMap == st.inodeMap
    requires forall e: nat :: LiveDir(st, e) && e != d ==> DirBlock(st', e) == DirBlock(st, e)
    ensures Resolve(st', 1, q) == Lookup(st', d, Last(q))
  {
    hide Good, Shapes, TreeInv, Walk, Resolve, Lookup, DirBlock;
    PrefixLive(st, w, Init(p), 0);
    assert Init(p)[..0] == [];
    WalkNil(st);
    assert [] + q == Init(p) + [Last(q)];
    WalkAbove(st, st', w, d, Init(p), Last(q), [], q);
  }

  // ---- exactly when a rename keeps its promise ----

  lemma DstMoved(t: AbsTree, p: Path, q: Path)
    requires p != [] && q != [] && Init(p) == Init(q) && p in t && q !in t
    ensures q in Moved(t, Init(p), Last(p), Last(q))
  {
    assert Init(p) + [Last(p)] == p && Init(q) + [Last(q)] == q;
    assert Back(Init(p), Last(p), Last(q), q) == p;
  }

  /** A rename that goes through moves the subtree to the destination exactly
      when the new name is not shorter than the old one. */
  lemma RenameMeetsPromiseIff(st: Store, w: Wit, p: Path, q: Path)
    requires InvW(st, w) && GoesThrough(st, p, q)
    ensures TreeOf(Rename(st, p, q).st) == Moved(TreeOf(st), Init(p), Last(p), Last(q)) <==> |Last(q)| >= |Last(p)|
  {
    hide InvW, TreeOf, Resolve, ParentOf, Walk, NoneNamed, DirBlock, E, NameOk, RenameEnt, SetDirBlock, Padded, Lookup, Scan,
      Moved, Rename;
    SourceThere(st, w, p, q);
    if |Last(q)| >= |Last(p)| {
      Rejoin(p, q);
      var w' := RenameCase(st, w, p, q);
    } else {
      ShortNameMissing(st, w, p, q);
      DstMoved(TreeOf(st), p, q);
    }
  }

  lemma Rejoin(p: Path, q: Path)
    requires p != [] && q != [] && Init(p) == Init(q) && |Last(q)| >= |Last(p)|
    ensures Init(p) + [NewName(p, q)] == q
  {
  }

  lemma SourceThere(st: Store, w: Wit, p: Path, q: Path)
    requires InvW(st, w) && GoesThrough(st, p, q)
    ensures p in TreeOf(st) && q !in TreeOf(st) && ParentOf(st, 1, p) == ParentOf(st, 1, q)
  {
    hide InvW, TreeOf, Resolve, ParentOf, Walk, NoneNamed, DirBlock, NameOk, Scan;
    var c := Resolved(st, w, p);
    SameParent(st, w, p, q);
    DstFree(st, w, p, q);
  }

  /** It keeps the invariant exactly when the slot's new name is the old one or
      free; and then the subtree is found under that name. */
  lemma RenameKeepsIff(st: Store, w: Wit, p: Path, q: Path)
    requires InvW(st, w) && GoesThrough(st, p, q)
    ensures var st' := Rename(st, p, q).st;
            var free := Init(p) + [NewName(p, q)] !in TreeOf(st);
            && (Inv(st') <==> NewName(p, q) == Last(p) || free)
            && (free ==> TreeOf(st') == Moved(TreeOf(st), Init(p), Last(p), NewName(p, q)))
            && (NewName(p, q) == Last(p) ==> st' == st)
  {
    hide InvW, TreeOf, Resolve, ParentOf, Walk, NoneNamed, DirBlock, E, NameOk, RenameEnt, SetDirBlock, Padded, Lookup, Scan,
      Moved, Rename, NewName;
    SourceThere(st, w, p, q);
    if NewName(p, q) == Last(p) { SameNameSame(st, w, p, q); }
    if Init(p) + [NewName(p, q)] !in TreeOf(st) {
      NewNameIs(p, q);
      var w' := RenameCase(st, w, p, q);
    } else if NewName(p, q) != Last(p) {
      TwoOfOneName(st, w, p, q);
    }
  }

  lemma NewNameIs(p: Path, q: Path)
    requires p != [] && q != []
    ensures NewName(p, q) == Overwritten(Last(p), Last(q))
  {
  }

  /** The new name is a prefix of the old one: nothing changes. */
  lemma SameNameSame(st: Store, w: Wit, p: Path, q: Path)
    requires InvW(st, w) && GoesThrough(st, p, q) && NewName(p, q) == Last(p)
    ensures Rename(st, p, q).st == st
  {
    hide InvW, TreeOf, Resolve, ParentOf, Walk, NoneNamed, NameOk, RenameEnt, SetDirBlock, Padded, Lookup, Scan, GoesThrough,
      Overwritten, Rename, DirBlock, Ent;
    var d, s := RenameDone(st, w, p, q);
    GoesName(st, p, q);
    NewNameIs(p, q);
    SameBytesRename(DirBlock(st, d), s, Last(q));
    SetSame(st, d);
  }

  lemma SetSame(st: Store, d: nat)
    ensures SetDirBlock(st, d, DirBlock(st, d)) == st
  {
    var p := InodeAt(st, d).direct[0];
    if p < |st.blocks| { assert st.blocks[p := st.blocks[p]] == st.blocks; }
  }

  lemma SameBytesRename(b: Block, s: nat, n: Name)
    requires s < 32 && NameOk(n) && Overwritten(Ent(b, s).name, n) == Ent(b, s).name
    ensures RenameEnt(b, s, n) == b
  {
    hide Ptr;
    var f := NameField(b, s);
    var o := CString(f);
    assert Ent(b, s).name == o;
    assert |n| <= |o| && n == o[..|n|];
    forall x | 0 <= x < |n| ensures b[32 * s + 4 + x] == n[x] {
      assert f[x] == o[x];
    }
    assert forall x :: 0 <= x < 1024 ==> RenameEnt(b, s, n)[x] == b[x];
  }

  /** Otherwise, if another used slot already has that name, two have it. */
  lemma TwoOfOneName(st: Store, w: Wit, p: Path, q: Path)
    requires InvW(st, w) && GoesThrough(st, p, q) && NewName(p, q) != Last(p)
    requires Init(p) + [NewName(p, q)] in TreeOf(st)
    ensures !Inv(Rename(st, p, q).st)
  {
    hide InvW, TreeOf, Resolve, ParentOf, Walk, NameOk, RenameEnt, SetDirBlock, Padded, Lookup, Scan, GoesThrough, Overwritten,
      Rename, DirBlock, E, OthersSame, OneEntry, NoneNamed;
    var d, s := RenameDone(st, w, p, q);
    GoesName(st, p, q);
    var m := NewName(p, q);
    NameFree(st, w, p, d, m);
    OnlySlot(st, w, d, s, Last(q));
    TwoUsed(st, Rename(st, p, q).st, d, s, m);
  }

  lemma TwoUsed(st: Store, st': Store, d: nat, s: nat, m: Name)
    requires LiveDir(st, d) && s < 32 && OneEntry(st, st', d, s) && !NoneNamed(st, d, m) && E(st, d, s).name != m
    requires E(st, d, s).valid && E(st', d, s) == E(st, d, s).(name := m)
    requires st'.inodes == st.inodes && st'.inodeMap == st.inodeMap
    ensures !Inv(st')
  {
    hide E;
    var t :| 0 <= t < 32 && E(st, d, t).valid && E(st, d, t).name == m;
    assert t != s && EntrySame(st, st', d, t);
    assert !UniqueNames(st', d);
    forall w' ensures !InvW(st', w') { DirNamesUnique(st', w', d); }
  }

  lemma DirNamesUnique(st: Store, w: Wit, d: nat)
    requires LiveDir(st, d)
    ensures InvW(st, w) ==> UniqueNames(st, d)
  {
    hide UniqueNames, FirstFit, EntryOk, DirPointers, Placed, RootOk, Shapes, Owned;
    if InvW(st, w) { assert DirOk(st, w, d); }
  }

  // ---- a name left behind by unlink ----

  /** The slot of an unlinked file keeps its name, in the same directory. */
  lemma NameStays(st: Store, w: Wit, p: Path) returns (w': Wit, d: nat, s: nat)
    requires Roomy(st) && InvW(st, w) && p != [] && Resolve(st, 1, p) >= 0 && !InodeAt(st, Resolve(st, 1, p)).isDir
    ensures var st' := Unlink(st, p).st;
            && Unlink(st, p).rc == 0 && InvW(st', w') && p in TreeOf(st) && TreeOf(st') == TreeOf(st) - {p}
            && Walk(st', Init(p)) == d && s < 32 && !E(st', d, s).valid && E(st', d, s).name == Last(p)
  {
    hide InvW, TreeOf, Resolve, ParentOf, Walk, Scan, Cleared, Killed, Good, Shape, Unlinked, E, DirBlock, Unlink, Invalidate,
      Without, Removed, SetDirBlock;
    var c;
    d, s, c := EntryOf(st, w, p);
    ShapeOf(st, w, c);
    UnlinkedKilled(st, w.ow, c);
    var b' := Invalidate(DirBlock(st, d), s);
    InvalidateClears(DirBlock(st, d), s, c);
    TruncSameParent(st, w, c, p);
    UnlinkIs(st, p, d, s, c);
    w' := RemoveMeets(st, w, Unlinked(st, c), p, d, s, c, b');
    RemovedHere(st, w, w', Unlinked(st, c), p, d, s, c, b');
    KeptName(st, Unlinked(st, c), w, d, s, c);
  }

  lemma RemovedHere(st: Store, w: Wit, w': Wit, k: Store, p: Path, d: nat, s: nat, c: nat, b': Block)
    requires InvW(st, w) && Killed(st, k, c) && Good(k, Without(w.ow, c)) && p != []
    requires LiveDir(st, d) && d != c && s < 32 && E(st, d, s).valid && E(st, d, s).inode == c && Live(st, c) && c > 1
    requires E(st, d, s).name == Last(p) && Walk(st, Init(p)) == d && Cleared(DirBlock(st, d), b', s, c)
    requires !st.inodes[c].isDir && InvW(SetDirBlock(k, d, b'), w')
    ensures Walk(SetDirBlock(k, d, b'), Init(p)) == d
  {
    hide Target, Owned, Cleared, Removed, SetDirBlock, TreeInv, OthersSame, Shapes, Walk, E, Without;
    RemoveCompletes(st, w, k, Without(w.ow, c), d, s, c, b');
    RemovedWalk(st, SetDirBlock(k, d, b'), w, w', d, s, c, Init(p), Init(p));
    Longer(Init(p), Last(p));
  }

  lemma Longer(p: Path, n: Name)
    ensures !(p + [n] <= p)
  {
  }

  lemma KeptName(st: Store, k: Store, w: Wit, d: nat, s: nat, c: nat)
    requires InvW(st, w) && Killed(st, k, c) && LiveDir(st, d) && d != c && s < 32
    ensures var st' := SetDirBlock(k, d, Invalidate(DirBlock(st, d), s));
            !E(st', d, s).valid && E(st', d, s).name == E(st, d, s).name
  {
    hide Target, Owned, TreeInv, Shapes, Invalidate, Ent, DirPointers;
    AllDirPointers(st, w);
    DirBlockOwned(st, w.ow, d);
    EntInvalidate(DirBlock(st, d), s);
    assert DirBlock(SetDirBlock(k, d, Invalidate(DirBlock(st, d), s)), d) == Invalidate(DirBlock(st, d), s);
  }

  /** Unlinking a file and renaming a neighbour to its name always fails with
      EEXIST, though nothing of that name exists. */
  lemma UnlinkedNameClashes(st: Store, w: Wit, p: Path, q: Path)
    requires Roomy(st) && InvW(st, w) && p != [] && q != [] && p != q && Init(p) == Init(q) && NameOk(Last(p))
    requires p in TreeOf(st) && TreeOf(st)[p].FileNode? && q in TreeOf(st)
    ensures var st' := Unlink(st, p).st;
            && Unlink(st, p).rc == 0 && p !in TreeOf(st') && q in TreeOf(st')
            && Rename(st', q, p) == Result(st', EEXIST)
  {
    hide InvW, TreeOf, Resolve, ParentOf, Walk, Scan, E, DirBlock, Unlink, Rename, NameOk, NoneNamed, Padded;
    var c := Resolved(st, w, p);
    var w', d, s := NameStays(st, w, p);
    var st' := Unlink(st, p).st;
    var c' := Resolved(st', w', q);
    var d', s', c'' := EntryOf(st', w', q);
    SameParent(st', w', q, p);
    AnyNamedIff(st', d, Last(p));
    ClashKeeps(st', q, p);
  }

  lemma ClashKeeps(st: Store, p: Path, q: Path)
    requires p != [] && q != [] && NameOk(Last(q)) && Resolve(st, 1, p) >= 0
    requires ParentOf(st, 1, p) == ParentOf(st, 1, q) >= 0
    requires Scan(DirBlock(st, ParentOf(st, 1, p)), AnyNamed(Last(q)), 0) < 32
    ensures Rename(st, p, q) == Result(st, EEXIST)
  {
    hide Resolve, ParentOf, Scan, SetDirBlock, RenameEnt, DirBlock;
  }
}
