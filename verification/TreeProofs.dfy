/** Adding, removing and renaming one directory entry: the tree invariant and
    the result of every path walk. */
module TreeProofs {
  import opened Layout
  import opened State
  import opened Ops
  import opened Tree

  ghost predicate EntrySame(st: Store, st': Store, d: nat, s: nat)
    requires s < 32
  {
    E(st', d, s) == E(st, d, s) && (Padded(DirBlock(st', d), s) <==> Padded(DirBlock(st, d), s))
  }

  /** Every entry of every directory but slot s of d is the same. */
  ghost predicate OneEntry(st: Store, st': Store, d: nat, s: nat) {
    && s < 32 && |st'.inodes| == |st.inodes|
    && forall e: nat, t :: LiveDir(st, e) && 0 <= t < 32 && (e, t) != (d, s) ==> EntrySame(st, st', e, t)
  }

  ghost predicate SameInode(st: Store, st': Store, j: nat)
  {
    && (Live(st', j) <==> Live(st, j))
    && (Live(st, j) ==> st'.inodes[j].isDir == st.inodes[j].isDir)
    && (Live(st, j) && st.inodes[j].isDir ==> (DirPointers(st, j) ==> DirPointers(st', j)))
  }

  // ---- create ----

  ghost predicate Created(st: Store, st': Store, d: nat, s: nat, i: nat, n: Name, isDir: bool) {
    && s < 32 && OneEntry(st, st', d, s) && LiveDir(st, d)
    && i > 1 && !Live(st, i) && Live(st', i) && st'.inodes[i].isDir == isDir
    && (forall j: nat :: j != i ==> SameInode(st, st', j)) && st'.inodes[0] == st.inodes[0]
    && E(st', d, s) == Dirent(true, isDir, i, n) && Padded(DirBlock(st', d), s)
    && (isDir ==> DirPointers(st', i) && forall t :: 0 <= t < 32 ==> !E(st', i, t).valid)
  }

  ghost function AddedWit(w: Wit, ow: Owners, d: nat, s: nat, i: nat): Wit
    requires d in w.depth
  {
    Wit(ow, w.par[i := (d, s)], w.depth[i := w.depth[d] + 1])
  }

  lemma DirDepth(st: Store, w: Wit, d: nat)
    requires TreeInv(st, w) && LiveDir(st, d)
    ensures d in w.depth
  {
    if d > 1 {
      assert Placed(st, w, d);
      var (p, s) := w.par[d];
      assert EntryOk(st, w, p, s);
    }
  }

  /** Slot s is where a new entry called n goes. */
  ghost predicate SlotFor(st: Store, d: nat, s: nat, n: Name) {
    && s < 32 && !E(st, d, s).valid
    && (forall t :: 0 <= t < s ==> E(st, d, t).valid)
    && (forall t :: 0 <= t < 32 ==> !(E(st, d, t).valid && E(st, d, t).name == n))
  }

  lemma ScanSlotFor(st: Store, d: nat, n: Name)
    requires Lookup(st, d, n) < 0
    ensures var s := Scan(DirBlock(st, d), Unused, 0); s < 32 ==> SlotFor(st, d, s, n)
  {
    hide Ent, Lookup, Scan, DirBlock;
    LookupNone(st, d, n);
    var s := Scan(DirBlock(st, d), Unused, 0);
    forall t | 0 <= t < s ensures E(st, d, t).valid { assert !Hit(Ent(DirBlock(st, d), t), Unused); }
  }

  lemma CreatedEntries(st: Store, st': Store, w: Wit, ow: Owners, d: nat, s: nat, i: nat, n: Name, isDir: bool, e: nat, t: nat)
    requires TreeInv(st, w) && Created(st, st', d, s, i, n, isDir) && d in w.depth
    requires NameOk(n) && LiveDir(st, e) && t < 32
    ensures EntryOk(st', AddedWit(w, ow, d, s, i), e, t)
  {
    hide Padded, NameOk, E, DirPointers, DirBlock, UniqueNames, FirstFit, Placed, RootOk;
    assert SameInode(st, st', e);
    assert EntryOk(st, w, e, t);
    if (e, t) != (d, s) {
      assert EntrySame(st, st', e, t);
      assert SameInode(st, st', E(st, e, t).inode) || !E(st, e, t).valid;
    }
  }

  lemma CreatedNames(st: Store, st': Store, w: Wit, d: nat, s: nat, i: nat, n: Name, isDir: bool, e: nat)
    requires TreeInv(st, w) && Created(st, st', d, s, i, n, isDir) && SlotFor(st, d, s, n) && LiveDir(st, e)
    ensures UniqueNames(st', e) && FirstFit(st', e)
  {
    hide Padded, NameOk, DirPointers, EntryOk, DirBlock, E, Placed, RootOk, SameInode;
    assert DirOk(st, w, e);
    forall t | 0 <= t < 32 && (e, t) != (d, s) ensures E(st', e, t) == E(st, e, t) {
      assert EntrySame(st, st', e, t);
    }
    hide TreeInv, DirOk, Created;
  }

  lemma CreatedDir(st: Store, st': Store, w: Wit, ow: Owners, d: nat, s: nat, i: nat, n: Name, isDir: bool, e: nat)
    requires TreeInv(st, w) && Created(st, st', d, s, i, n, isDir) && d in w.depth
    requires NameOk(n) && SlotFor(st, d, s, n) && LiveDir(st', e)
    ensures DirOk(st', AddedWit(w, ow, d, s, i), e)
  {
    hide Padded, NameOk, E, DirPointers, DirBlock, Placed, RootOk, OneEntry, AddedWit, SlotFor;
    if e != i {
      assert SameInode(st, st', e);
      assert DirOk(st, w, e);
      forall t | 0 <= t < 32 ensures EntryOk(st', AddedWit(w, ow, d, s, i), e, t) {
        CreatedEntries(st, st', w, ow, d, s, i, n, isDir, e, t);
      }
      CreatedNames(st, st', w, d, s, i, n, isDir, e);
    }
  }

  lemma CreatedPlaced(st: Store, st': Store, w: Wit, ow: Owners, d: nat, s: nat, i: nat, n: Name, isDir: bool, j: nat)
    requires TreeInv(st, w) && Created(st, st', d, s, i, n, isDir) && d in w.depth
    requires SlotFor(st, d, s, n) && Live(st', j) && j > 1
    ensures Placed(st', AddedWit(w, ow, d, s, i), j)
  {
    hide DirOk, Padded, NameOk, DirPointers, DirBlock, E, RootOk;
    assert SameInode(st, st', d);
    if j != i {
      assert SameInode(st, st', j);
      assert Placed(st, w, j);
      var (p, t) := w.par[j];
      assert SameInode(st, st', p);
      assert EntrySame(st, st', p, t);
    }
  }

  lemma CreatedTree(st: Store, st': Store, w: Wit, ow: Owners, d: nat, s: nat, i: nat, n: Name, isDir: bool)
    requires TreeInv(st, w) && Created(st, st', d, s, i, n, isDir) && d in w.depth
    requires NameOk(n) && SlotFor(st, d, s, n)
    ensures TreeInv(st', AddedWit(w, ow, d, s, i))
  {
    var w' := AddedWit(w, ow, d, s, i);
    forall e: nat | LiveDir(st', e) ensures DirOk(st', w', e) {
      CreatedDir(st, st', w, ow, d, s, i, n, isDir, e);
    }
    forall j: nat | Live(st', j) && j > 1 ensures Placed(st', w', j) {
      CreatedPlaced(st, st', w, ow, d, s, i, n, isDir, j);
    }
    hide DirOk, Placed, E, OneEntry, SlotFor, Padded, DirPointers;
    assert SameInode(st, st', 0) && SameInode(st, st', 1);
  }

  lemma LookupAt(st: Store, d: nat, t: nat, n: Name)
    requires UniqueNames(st, d) && t < 32 && E(st, d, t).valid && E(st, d, t).name == n
    ensures Lookup(st, d, n) == E(st, d, t).inode
  {
    var s := Scan(DirBlock(st, d), Named(n), 0);
    assert s < 32;
    assert E(st, d, s).valid && E(st, d, s).name == n;
  }

  ghost predicate NoneNamed(st: Store, d: nat, n: Name) {
    forall t :: 0 <= t < 32 ==> !(E(st, d, t).valid && E(st, d, t).name == n)
  }

  lemma LookupNone(st: Store, d: nat, n: Name)
    ensures NoneNamed(st, d, n) <==> Lookup(st, d, n) < 0
    ensures NoneNamed(st, d, n) ==> Lookup(st, d, n) == ENOENT
  {
    var s := Scan(DirBlock(st, d), Named(n), 0);
    if s < 32 { assert E(st, d, s).valid && E(st, d, s).name == n; }
  }

  /** A lookup is decided by the used entries of that name. */
  lemma LookupSame(st: Store, st': Store, d: nat, n: Name)
    requires UniqueNames(st, d) && UniqueNames(st', d)
    requires forall t :: 0 <= t < 32 && E(st, d, t).valid && E(st, d, t).name == n ==> E(st', d, t) == E(st, d, t)
    requires forall t :: 0 <= t < 32 && E(st', d, t).valid && E(st', d, t).name == n ==> E(st', d, t) == E(st, d, t)
    ensures Lookup(st', d, n) == Lookup(st, d, n)
  {
    hide E, Lookup, UniqueNames;
    LookupNone(st, d, n);
    LookupNone(st', d, n);
    if !NoneNamed(st, d, n) {
      var t :| 0 <= t < 32 && E(st, d, t).valid && E(st, d, t).name == n;
      LookupAt(st, d, t, n);
      LookupAt(st', d, t, n);
    }
  }

  lemma CreatedLookup(st: Store, st': Store, w: Wit, w': Wit, d: nat, s: nat, i: nat, n: Name, isDir: bool, r: nat, x: Name)
    requires TreeInv(st, w) && TreeInv(st', w') && Created(st, st', d, s, i, n, isDir) && SlotFor(st, d, s, n)
    requires LiveDir(st, r)
    ensures Lookup(st', r, x) == if r == d && x == n then i else Lookup(st, r, x)
  {
    hide Padded, DirPointers, EntryOk, DirBlock, E, Placed, RootOk, Lookup, FirstFit, UniqueNames;
    assert SameInode(st, st', r);
    assert DirOk(st, w, r) && DirOk(st', w', r);
    forall t | 0 <= t < 32 && (r, t) != (d, s) ensures E(st', r, t) == E(st, r, t) {
      assert EntrySame(st, st', r, t);
    }
    if r == d && x == n {
      LookupAt(st', d, s, n);
    } else {
      LookupSame(st, st', r, x);
    }
  }

  /** After creating P/n: that path resolves to the new inode, nothing below
      it resolves, and every other path resolves as before. */
  lemma {:induction false} CreatedWalk(st: Store, st': Store, w: Wit, w': Wit, d: nat, s: nat, i: nat, n: Name, isDir: bool,
                                       p: Path, q: Path)
    requires TreeInv(st, w) && TreeInv(st', w') && Created(st, st', d, s, i, n, isDir) && SlotFor(st, d, s, n)
    requires Walk(st, p) == d
    ensures if q == p + [n] then Walk(st', q) == i
            else if p + [n] <= q then Walk(st', q) < 0
            else Walk(st', q) == Walk(st, q)
    decreases |q|
  {
    hide TreeInv, DirOk, Placed, E, OneEntry, SlotFor, Padded, DirPointers, Lookup, Walk, NoneNamed;
    if q == [] {
      WalkNil(st);
      WalkNil(st');
    } else {
      var q0, x := Init(q), Last(q);
      assert q == q0 + [x];
      CreatedWalk(st, st', w, w', d, s, i, n, isDir, p, q0);
      WalkSnoc(st, q0, x);
      WalkSnoc(st', q0, x);
      var r := Walk(st, q0);
      if p + [n] <= q0 {
        if q0 == p + [n] { NewDirEmpty(st, st', d, s, i, n, isDir, x); }
      } else {
        WalkLive(st, w, q0);
        if r >= 0 && st.inodes[r].isDir {
          assert SameInode(st, st', r);
          CreatedLookup(st, st', w, w', d, s, i, n, isDir, r, x);
          if r == d { WalkInjective(st, w, p, q0); }
        } else if r >= 0 {
          assert SameInode(st, st', r);
        }
        assert p + [n] <= q <==> q == p + [n];
      }
    }
  }

  lemma WalkNil(st: Store) ensures Walk(st, []) == 1 { }

  lemma NewDirEmpty(st: Store, st': Store, d: nat, s: nat, i: nat, n: Name, isDir: bool, x: Name)
    requires Created(st, st', d, s, i, n, isDir)
    ensures isDir ==> Lookup(st', i, x) < 0
  {
    hide E;
    LookupNone(st', i, x);
  }

  // ---- remove ----

  /** The same, leaving out directory c. */
  ghost predicate OneEntryBut(st: Store, st': Store, d: nat, s: nat, c: nat) {
    && s < 32 && |st'.inodes| == |st.inodes|
    && forall e: nat, t ::
         LiveDir(st, e) && e != c && 0 <= t < 32 && (e, t) != (d, s) ==> EntrySame(st, st', e, t)
  }

  ghost predicate Removed(st: Store, st': Store, d: nat, s: nat, c: nat) {
    && s < 32 && OneEntryBut(st, st', d, s, c) && LiveDir(st, d)
    && c > 1 && Live(st, c) && !Live(st', c)
    && (forall j: nat :: j != c ==> SameInode(st, st', j)) && st'.inodes[0] == st.inodes[0]
    && E(st, d, s).valid && E(st, d, s).inode == c
    && !E(st', d, s).valid && (E(st', d, s).inode == c || E(st', d, s).inode == 0)
    && (st.inodes[c].isDir ==> forall t :: 0 <= t < 32 ==> !E(st, c, t).valid)
  }

  ghost function RemovedWit(w: Wit, ow: Owners, c: nat): Wit { Wit(ow, w.par - {c}, w.depth) }

  /** The removed inode is neither its own parent nor named by another entry. */
  lemma RemovedApart(st: Store, st': Store, w: Wit, d: nat, s: nat, c: nat, e: nat, t: nat)
    requires TreeInv(st, w) && Removed(st, st', d, s, c) && LiveDir(st, e) && t < 32 && E(st, e, t).valid
    ensures d != c && e != c && 1 < E(st, e, t).inode
    ensures E(st, e, t).inode == c <==> (e, t) == (d, s)
  {
    hide Padded, NameOk, E, DirPointers, DirBlock, UniqueNames, FirstFit, Placed, RootOk, SameInode, OneEntryBut;
    assert DirOk(st, w, e) && DirOk(st, w, d);
    assert EntryOk(st, w, e, t);
    assert EntryOk(st, w, d, s);
  }

  lemma RemovedEntries(st: Store, st': Store, w: Wit, ow: Owners, d: nat, s: nat, c: nat, e: nat, t: nat)
    requires TreeInv(st, w) && Removed(st, st', d, s, c) && LiveDir(st', e) && t < 32
    ensures EntryOk(st', RemovedWit(w, ow, c), e, t)
  {
    hide Padded, NameOk, E, DirPointers, DirBlock, UniqueNames, FirstFit, Placed, RootOk;
    assert SameInode(st, st', e);
    assert DirOk(st, w, e);
    assert EntryOk(st, w, e, t);
    if (e, t) != (d, s) {
      assert EntrySame(st, st', e, t);
      if E(st, e, t).valid {
        RemovedApart(st, st', w, d, s, c, e, t);
        assert SameInode(st, st', E(st, e, t).inode);
      }
    }
  }

  lemma RemovedNames(st: Store, st': Store, w: Wit, d: nat, s: nat, c: nat, e: nat)
    requires TreeInv(st, w) && Removed(st, st', d, s, c) && LiveDir(st, e) && e != c
    ensures UniqueNames(st', e) && FirstFit(st', e)
  {
    hide Padded, NameOk, DirPointers, EntryOk, DirBlock, E, Placed, RootOk, SameInode;
    assert DirOk(st, w, e);
    forall t | 0 <= t < 32
      ensures (e, t) != (d, s) ==> E(st', e, t) == E(st, e, t)
      ensures E(st, e, t).valid ==> 1 < E(st, e, t).inode && (E(st, e, t).inode == c <==> (e, t) == (d, s))
    {
      if (e, t) != (d, s) { assert EntrySame(st, st', e, t); }
      if E(st, e, t).valid { RemovedApart(st, st', w, d, s, c, e, t); }
    }
    hide TreeInv, DirOk, OneEntryBut;
  }

  lemma RemovedDir(st: Store, st': Store, w: Wit, ow: Owners, d: nat, s: nat, c: nat, e: nat)
    requires TreeInv(st, w) && Removed(st, st', d, s, c) && LiveDir(st', e)
    ensures DirOk(st', RemovedWit(w, ow, c), e)
  {
    hide Padded, NameOk, E, DirPointers, DirBlock, Placed, RootOk, OneEntryBut, RemovedWit;
    assert SameInode(st, st', e);
    assert DirOk(st, w, e);
    forall t | 0 <= t < 32 ensures EntryOk(st', RemovedWit(w, ow, c), e, t) {
      RemovedEntries(st, st', w, ow, d, s, c, e, t);
    }
    RemovedNames(st, st', w, d, s, c, e);
  }

  lemma RemovedPlaced(st: Store, st': Store, w: Wit, ow: Owners, d: nat, s: nat, c: nat, j: nat)
    requires TreeInv(st, w) && Removed(st, st', d, s, c) && Live(st', j) && j > 1
    ensures Placed(st', RemovedWit(w, ow, c), j)
  {
    hide DirOk, Padded, NameOk, DirPointers, DirBlock, E, RootOk;
    assert SameInode(st, st', j);
    assert Placed(st, w, j);
    var (p, t) := w.par[j];
    RemovedApart(st, st', w, d, s, c, p, t);
    assert SameInode(st, st', p);
    assert EntrySame(st, st', p, t);
  }

  lemma RemovedTree(st: Store, st': Store, w: Wit, ow: Owners, d: nat, s: nat, c: nat)
    requires TreeInv(st, w) && Removed(st, st', d, s, c)
    ensures TreeInv(st', RemovedWit(w, ow, c))
  {
    var w' := RemovedWit(w, ow, c);
    forall e: nat | LiveDir(st', e) ensures DirOk(st', w', e) {
      RemovedDir(st, st', w, ow, d, s, c, e);
    }
    forall j: nat | Live(st', j) && j > 1 ensures Placed(st', w', j) {
      RemovedPlaced(st, st', w, ow, d, s, c, j);
    }
    hide DirOk, Placed, E, OneEntryBut, Padded, DirPointers;
    assert SameInode(st, st', 0) && SameInode(st, st', 1);
  }

  lemma RemovedLookup(st: Store, st': Store, w: Wit, w': Wit, d: nat, s: nat, c: nat, r: nat, x: Name)
    requires TreeInv(st, w) && TreeInv(st', w') && Removed(st, st', d, s, c)
    requires LiveDir(st', r)
    ensures if r == d && x == E(st, d, s).name then Lookup(st', r, x) == ENOENT && Lookup(st, r, x) == c
            else Lookup(st', r, x) == Lookup(st, r, x)
  {
    hide Padded, DirPointers, EntryOk, DirBlock, E, Placed, RootOk, Lookup, FirstFit;
    assert SameInode(st, st', r);
    assert DirOk(st, w, r) && DirOk(st', w', r);
    forall t | 0 <= t < 32 && (r, t) != (d, s) ensures E(st', r, t) == E(st, r, t) {
      assert EntrySame(st, st', r, t);
    }
    if r == d && x == E(st, d, s).name {
      LookupAt(st, d, s, x);
      assert NoneNamed(st', d, x);
      LookupNone(st', d, x);
    } else {
      LookupSame(st, st', r, x);
    }
  }

  /** After removing P/n nothing at or below that path resolves, and every
      other path resolves as before. */
  lemma {:induction false} RemovedWalk(st: Store, st': Store, w: Wit, w': Wit, d: nat, s: nat, c: nat, p: Path, q: Path)
    requires TreeInv(st, w) && TreeInv(st', w') && Removed(st, st', d, s, c)
    requires Walk(st, p) == d
    ensures var pn := p + [E(st, d, s).name];
            if pn <= q then Walk(st', q) < 0 else Walk(st', q) == Walk(st, q) && Walk(st, q) != c
    decreases |q|
  {
    hide TreeInv, DirOk, Placed, E, OneEntryBut, Padded, DirPointers, Lookup, Walk, NoneNamed;
    var pn := p + [E(st, d, s).name];
    if q == [] {
      WalkNil(st);
      WalkNil(st');
    } else {
      var q0, x := Init(q), Last(q);
      assert q == q0 + [x];
      RemovedWalk(st, st', w, w', d, s, c, p, q0);
      WalkSnoc(st, q0, x);
      WalkSnoc(st', q0, x);
      var r := Walk(st, q0);
      if !(pn <= q0) {
        WalkLive(st, w, q0);
        if r >= 0 {
          assert SameInode(st, st', r);
          if st.inodes[r].isDir {
            RemovedLookup(st, st', w, w', d, s, c, r, x);
            if r == d { WalkInjective(st, w, p, q0); }
            if Lookup(st, r, x) == c { RemovedElsewhere(st, w, d, s, c, r, x); }
          }
        }
        assert pn <= q <==> q == pn;
      }
    }
  }

  /** A lookup that finds c finds it at its only entry. */
  lemma RemovedElsewhere(st: Store, w: Wit, d: nat, s: nat, c: nat, r: nat, x: Name)
    requires TreeInv(st, w) && LiveDir(st, d) && s < 32 && E(st, d, s).valid && E(st, d, s).inode == c
    requires LiveDir(st, r) && Lookup(st, r, x) == c
    ensures r == d && x == E(st, d, s).name
  {
    hide Padded, NameOk, DirPointers, DirBlock, UniqueNames, FirstFit, RootOk, Lookup, E;
    assert EntryOk(st, w, d, s);
    LookupLive(st, w, r, x);
  }

  // ---- rename ----

  ghost predicate Renamed(st: Store, st': Store, d: nat, s: nat, m: Name) {
    && s < 32 && OneEntry(st, st', d, s) && LiveDir(st, d)
    && (forall j: nat :: SameInode(st, st', j)) && st'.inodes[0] == st.inodes[0]
    && E(st, d, s).valid && E(st', d, s) == E(st, d, s).(name := m) && Padded(DirBlock(st', d), s)
    && NameOk(m) && NoneNamed(st, d, m)
  }

  lemma RenamedDir(st: Store, st': Store, w: Wit, ow: Owners, d: nat, s: nat, m: Name, e: nat)
    requires TreeInv(st, w) && Renamed(st, st', d, s, m) && LiveDir(st', e)
    ensures DirOk(st', w.(ow := ow), e)
  {
    hide Padded, NameOk, E, DirPointers, DirBlock, Placed, RootOk;
    assert SameInode(st, st', e);
    assert DirOk(st, w, e);
    forall t | 0 <= t < 32 ensures EntryOk(st', w.(ow := ow), e, t) {
      assert EntryOk(st, w, e, t);
      assert SameInode(st, st', E(st, e, t).inode);
      if (e, t) != (d, s) { assert EntrySame(st, st', e, t); }
    }
    RenamedNames(st, st', w, d, s, m, e);
  }

  lemma RenamedNames(st: Store, st': Store, w: Wit, d: nat, s: nat, m: Name, e: nat)
    requires TreeInv(st, w) && Renamed(st, st', d, s, m) && LiveDir(st, e)
    ensures UniqueNames(st', e) && FirstFit(st', e)
  {
    hide Padded, NameOk, DirPointers, EntryOk, DirBlock, E, Placed, RootOk, SameInode;
    assert DirOk(st, w, e);
    forall t | 0 <= t < 32 && (e, t) != (d, s) ensures E(st', e, t) == E(st, e, t) {
      assert EntrySame(st, st', e, t);
    }
    hide TreeInv, DirOk, OneEntry;
  }

  lemma RenamedTree(st: Store, st': Store, w: Wit, ow: Owners, d: nat, s: nat, m: Name)
    requires TreeInv(st, w) && Renamed(st, st', d, s, m)
    ensures TreeInv(st', w.(ow := ow))
  {
    forall e: nat | LiveDir(st', e) ensures DirOk(st', w.(ow := ow), e) {
      RenamedDir(st, st', w, ow, d, s, m, e);
    }
    forall j: nat | Live(st', j) && j > 1 ensures Placed(st', w.(ow := ow), j) {
      RenamedPlaced(st, st', w, ow, d, s, m, j);
    }
    hide DirOk, Placed, E, OneEntry, Padded, DirPointers;
    assert SameInode(st, st', 0) && SameInode(st, st', 1);
  }

  lemma RenamedPlaced(st: Store, st': Store, w: Wit, ow: Owners, d: nat, s: nat, m: Name, j: nat)
    requires TreeInv(st, w) && Renamed(st, st', d, s, m) && Live(st', j) && j > 1
    ensures Placed(st', w.(ow := ow), j)
  {
    hide DirOk, Padded, NameOk, DirPointers, DirBlock, E, RootOk, NoneNamed;
    assert SameInode(st, st', j);
    assert Placed(st, w, j);
    var (p, t) := w.par[j];
    assert SameInode(st, st', p);
    if (p, t) != (d, s) { assert EntrySame(st, st', p, t); }
  }

  lemma RenamedLookup(st: Store, st': Store, w: Wit, w': Wit, d: nat, s: nat, m: Name, r: nat, x: Name)
    requires TreeInv(st, w) && TreeInv(st', w') && Renamed(st, st', d, s, m)
    requires LiveDir(st, r)
    ensures var o := E(st, d, s).name;
            Lookup(st', r, x) == if r == d && x == m then Lookup(st, r, o)
                                 else if r == d && x == o then ENOENT else Lookup(st, r, x)
  {
    hide Padded, DirPointers, EntryOk, DirBlock, E, Placed, RootOk, Lookup, FirstFit, NameOk;
    assert SameInode(st, st', r);
    assert DirOk(st, w, r) && DirOk(st', w', r);
    forall t | 0 <= t < 32 && (r, t) != (d, s) ensures E(st', r, t) == E(st, r, t) {
      assert EntrySame(st, st', r, t);
    }
    if r == d && x == m {
      LookupAt(st, d, s, E(st, d, s).name);
      LookupAt(st', d, s, m);
    } else if r == d && x == E(st, d, s).name {
      assert NoneNamed(st', d, x);
      LookupNone(st', d, x);
    } else {
      LookupSame(st, st', r, x);
    }
  }

  lemma NamedNot(st: Store, d: nat, s: nat, m: Name)
    requires s < 32 && E(st, d, s).valid && NoneNamed(st, d, m)
    ensures E(st, d, s).name != m
  {
  }

  lemma RenamedStep(st: Store, st': Store, w: Wit, w': Wit, d: nat, s: nat, m: Name, p: Path, q0: Path, z0: Path, x: Name)
    requires TreeInv(st, w) && TreeInv(st', w') && Renamed(st, st', d, s, m)
    requires Walk(st, p) == d && Walk(st', q0) == Walk(st, z0)
    ensures var o := E(st, d, s).name;
            && o != m
            && Walk(st', q0 + [x]) == if z0 == p && x == m then Walk(st, p + [o])
                                      else if z0 == p && x == o then ENOENT else Walk(st, z0 + [x])
  {
    NamedNot(st, d, s, m);
    hide TreeInv, DirOk, Placed, E, OneEntry, Padded, DirPointers, Lookup, Walk, NoneNamed;
    WalkSnoc(st', q0, x);
    WalkSnoc(st, z0, x);
    WalkSnoc(st, p, E(st, d, s).name);
    WalkLive(st, w, z0);
    var r := Walk(st, z0);
    if r >= 0 {
      assert SameInode(st, st', r);
      if st.inodes[r].isDir {
        RenamedLookup(st, st', w, w', d, s, m, r, x);
        if r == d { WalkInjective(st, w, p, z0); }
      }
    }
  }

  /** The old path of a new path. */
  function Back(p: Path, o: Name, m: Name, q: Path): Path {
    if p + [m] <= q then p + [o] + q[|p| + 1..] else q
  }

  /** After renaming P/o to P/m the whole subtree is found under the new name,
      nothing under the old one, and every other path resolves as before. */
  lemma {:induction false} RenamedWalk(st: Store, st': Store, w: Wit, w': Wit, d: nat, s: nat, m: Name, p: Path, q: Path)
    requires TreeInv(st, w) && TreeInv(st', w') && Renamed(st, st', d, s, m)
    requires Walk(st, p) == d
    ensures var o := E(st, d, s).name;
            if p + [o] <= q then Walk(st', q) < 0
            else Walk(st', q) == Walk(st, Back(p, o, m, q))
    decreases |q|
  {
    hide TreeInv, Renamed, E, Walk;
    var o := SlotName(st, st', d, s, m);
    if q == [] {
      WalkNil(st);
      WalkNil(st');
    } else {
      var q0, x := Init(q), Last(q);
      assert q == q0 + [x];
      RenamedWalk(st, st', w, w', d, s, m, p, q0);
      if p + [o] <= q0 {
        WalkSnoc(st', q0, x);
      } else {
        var z0 := Back(p, o, m, q0);
        RenamedStep(st, st', w, w', d, s, m, p, q0, z0, x);
        if p + [m] <= q0 {
          assert Back(p, o, m, q) == z0 + [x];
          assert !(p + [o] <= q);
        } else {
          assert p + [o] <= q <==> q == p + [o];
          assert p + [m] <= q <==> q == p + [m];
          if q == p + [m] {
            assert q0 == p && x == m;
            assert Back(p, o, m, q) == p + [o];
          }
        }
      }
    }
  }

  lemma SlotName(st: Store, st': Store, d: nat, s: nat, m: Name) returns (o: Name)
    requires Renamed(st, st', d, s, m)
    ensures s < 32 && o == E(st, d, s).name && o != m
  {
    NamedNot(st, d, s, m);
    o := E(st, d, s).name;
  }

  // ---- operations that touch no directory ----

  ghost predicate SameDirs(st: Store, st': Store) {
    && |st'.inodes| == |st.inodes| > 0 && st'.inodes[0] == st.inodes[0]
    && (forall j: nat :: SameInode(st, st', j))
    && (forall e: nat :: LiveDir(st, e) ==> DirBlock(st', e) == DirBlock(st, e))
  }

  lemma SameDirsTree(st: Store, st': Store, w: Wit, ow: Owners)
    requires TreeInv(st, w) && SameDirs(st, st')
    ensures TreeInv(st', w.(ow := ow))
  {
    hide DirPointers, Padded, DirBlock;
    var w' := w.(ow := ow);
    forall e: nat | LiveDir(st', e) ensures DirOk(st', w', e) {
      assert SameInode(st, st', e);
      SameDirsDir(st, st', w, ow, e);
    }
    forall j: nat | Live(st', j) && j > 1 ensures Placed(st', w', j) {
      assert SameInode(st, st', j);
      assert Placed(st, w, j);
      assert SameInode(st, st', w.par[j].0);
    }
    assert SameInode(st, st', 0) && SameInode(st, st', 1);
  }

  lemma SameDirsDir(st: Store, st': Store, w: Wit, ow: Owners, e: nat)
    requires TreeInv(st, w) && SameDirs(st, st') && LiveDir(st, e) && LiveDir(st', e)
    ensures DirOk(st', w.(ow := ow), e)
  {
    hide DirPointers, Padded, DirBlock, NameOk, Placed, Ent;
    assert DirOk(st, w, e) && SameInode(st, st', e);
    assert DirBlock(st', e) == DirBlock(st, e);
    assert forall t :: 0 <= t < 32 ==> E(st', e, t) == E(st, e, t);
    forall t | 0 <= t < 32 ensures EntryOk(st', w.(ow := ow), e, t) {
      assert EntryOk(st, w, e, t);
      assert SameInode(st, st', E(st, e, t).inode);
    }
  }

  lemma {:induction false} SameDirsWalk(st: Store, st': Store, w: Wit, q: Path)
    requires TreeInv(st, w) && SameDirs(st, st')
    ensures Walk(st', q) == Walk(st, q)
    decreases |q|
  {
    hide TreeInv, Scan, DirBlock, NamedDir;
    if q != [] {
      SameDirsWalk(st, st', w, Init(q));
      WalkLive(st, w, Init(q));
      var r := Walk(st, Init(q));
      if r >= 0 { assert SameInode(st, st', r); }
    }
  }
}
