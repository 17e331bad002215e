/** The invariant main.c keeps implies the global check of read-img. */
module CheckerTheorems {
  import opened Layout
  import opened State
  import opened WriteProofs
  import opened Ops
  import opened Tree
  import opened OpProofs
  import opened TruncProofs
  import opened OpTheorems
  import opened Checker

  /** A reached item is a live inode called what it is. */
  ghost predicate Faithful(st: Store, x: Item) {
    Live(st, x.inum) && st.inodes[x.inum].isDir == x.dir && x.inum >= 1
  }

  lemma RefIsEntry(st: Store, w: Wit, x: Item, s: nat)
    requires TreeInv(st, w) && Faithful(st, x) && IsRef(st, x, s)
    ensures s < 32
    ensures var y := RefTarget(st, x, s);
            Faithful(st, y) && y.inum > 1 && y.inum in w.par && w.par[y.inum] == (x.inum, s)
  {
    hide E, UniqueNames, FirstFit, DirPointers, Placed, Padded, NameOk;
    assert DirOk(st, w, x.inum);
    assert EntryOk(st, w, x.inum, s);
  }

  lemma {:induction false} ChainFaithful(st: Store, w: Wit, xs: seq<Item>, slots: seq<nat>)
    requires TreeInv(st, w) && IsChain(st, xs, slots)
    ensures Faithful(st, xs[|xs| - 1])
    decreases |slots|
  {
    hide E, DirOk, Placed, IsRef, RefTarget;
    if slots != [] {
      var l := |slots| - 1;
      ChainFaithful(st, w, xs[..l + 1], slots[..l]);
      RefIsEntry(st, w, xs[l], slots[l]);
    }
  }

  lemma ReachFaithful(st: Store, w: Wit, x: Item)
    requires TreeInv(st, w) && Reach(st, x)
    ensures Faithful(st, x)
  {
    hide TreeInv, IsRef, RefTarget;
    var xs, slots :| IsChain(st, xs, slots) && xs[|xs| - 1] == x;
    ChainFaithful(st, w, xs, slots);
  }

  lemma NoLoop(st: Store, w: Wit)
    requires TreeInv(st, w)
    ensures !ReachedTwice(st)
  {
    hide TreeInv, Reach, E, InodeAt;
    forall x, s: nat, y, t: nat |
      && Reach(st, x) && IsRef(st, x, s) && Reach(st, y) && IsRef(st, y, t)
      && RefTarget(st, x, s).inum == RefTarget(st, y, t).inum
      ensures (x, s) == (y, t) && RefTarget(st, x, s).inum != 1
    {
      ReachFaithful(st, w, x);
      ReachFaithful(st, w, y);
      RefIsEntry(st, w, x, s);
      RefIsEntry(st, w, y, t);
    }
  }

  lemma OwnedIsSet(st: Store, ow: Owners, i: nat, loc: Loc)
    requires Good(st, ow) && Live(st, i) && T(st, i, loc) != 0
    ensures BitSet(st.blockMap, T(st, i, loc)) && T(st, i, loc) < |st.blocks|
  {
    hide Target;
  }

  lemma IndirectFine(st: Store, ow: Owners, i: nat, b: Block, base: nat)
    requires Good(st, ow) && Live(st, i) && Lists(st, i, b, base)
    ensures EntriesAllocated(st, b)
  {
    hide Target, Ptr, Good, BitSet;
    forall k | 0 <= k < 256 && Ptr(b, k) != 0 ensures BitSet(st.blockMap, Ptr(b, k)) {
      assert T(st, i, Data(base + k)) == Ptr(b, k);
      OwnedIsSet(st, ow, i, Data(base + k));
    }
  }

  lemma Ind1Lists(st: Store, i: nat)
    requires i < |st.inodes| && 0 < st.inodes[i].indir1 < |st.blocks|
    ensures Lists(st, i, BlockAt(st.blocks, st.inodes[i].indir1), 6)
  {
    hide Ptr;
  }

  lemma Ind2Is(st: Store, i: nat, k: nat)
    requires i < |st.inodes| && 0 < st.inodes[i].indir2 < |st.blocks| && k < 256
    ensures T(st, i, Outer(k)) == Ptr(BlockAt(st.blocks, st.inodes[i].indir2), k)
  {
    hide Ptr;
  }

  lemma OwnedFileFine(st: Store, ow: Owners, i: nat)
    requires Good(st, ow) && Live(st, i)
    ensures FileFine(st, st.inodes[i])
  {
    hide Target, Ptr, Good, BitSet, Lists, EntriesAllocated, BlockAt;
    var n := st.inodes[i];
    InodePointers(st, i);
    forall k | 0 <= k < 6 && n.direct[k] != 0 ensures BitSet(st.blockMap, n.direct[k]) {
      OwnedIsSet(st, ow, i, Data(k));
    }
    if n.indir1 != 0 {
      OwnedIsSet(st, ow, i, Ind1);
      Ind1Lists(st, i);
      IndirectFine(st, ow, i, BlockAt(st.blocks, n.indir1), 6);
    }
    if n.indir2 != 0 {
      OwnedIsSet(st, ow, i, Ind2);
      var b2 := BlockAt(st.blocks, n.indir2);
      forall k | 0 <= k < 256 && Ptr(b2, k) != 0 ensures EntriesAllocated(st, BlockAt(st.blocks, Ptr(b2, k))) {
        Ind2Is(st, i, k);
        OwnedIsSet(st, ow, i, Outer(k));
        OuterEntries(st, i, k);
        IndirectFine(st, ow, i, BlockAt(st.blocks, Ptr(b2, k)), 262 + 256 * k);
      }
    }
  }

  lemma DirIsFine(st: Store, w: Wit, x: Item)
    requires InvW(st, w) && Faithful(st, x) && x.dir
    ensures DirFine(st, x)
  {
    hide Target, UniqueNames, FirstFit, Placed, Padded, NameOk, E, Shapes, Owned;
    assert DirOk(st, w, x.inum);
    DirBlockOwned(st, w.ow, x.inum);
    OwnedIsSet(st, w.ow, x.inum, Data(0));
    DirectZero(st, x.inum);
    hide DirPointers;
    forall s | 0 <= s < 32 ensures SlotFine(st, x, s) { assert EntryOk(st, w, x.inum, s); }
  }

  /** Every inode marked used, but 0, is reached. */
  lemma {:induction false} AllReached(st: Store, w: Wit, i: nat) returns (x: Item)
    requires TreeInv(st, w) && Live(st, i) && i >= 1 && (i in w.depth)
    ensures Reach(st, x) && x.inum == i && Faithful(st, x)
    decreases w.depth[i]
  {
    hide E, DirOk, IsChain;
    if i == 1 {
      x := Root;
      RootReached(st);
    } else {
      assert Placed(st, w, i);
      var (d, s) := w.par[i];
      EntryDepth(st, w, d, s);
      var y := AllReached(st, w, d);
      x := RefTarget(st, y, s);
      ReachStep(st, y, s);
      ReachFaithful(st, w, x);
    }
  }

  lemma RootReached(st: Store)
    ensures Reach(st, Root)
  {
    assert IsChain(st, [Root], []);
  }

  lemma EntryDepth(st: Store, w: Wit, d: nat, s: nat)
    requires TreeInv(st, w) && LiveDir(st, d) && s < 32 && E(st, d, s).valid
    ensures var i := E(st, d, s).inode;
            d >= 1 && d in w.depth && i in w.depth && w.depth[i] == w.depth[d] + 1 && w.depth[d] >= 0
  {
    hide UniqueNames, FirstFit, DirPointers, Placed, Padded, NameOk, E;
    assert DirOk(st, w, d);
    assert EntryOk(st, w, d, s);
  }

  lemma LiveDepth(st: Store, w: Wit, i: nat)
    requires TreeInv(st, w) && Live(st, i) && i >= 1
    ensures i in w.depth
  {
    hide DirOk, E;
    if i > 1 {
      assert Placed(st, w, i);
      var (d, s) := w.par[i];
      EntryDepth(st, w, d, s);
    }
  }

  /** In every state that satisfies the invariant the checker finds no loop,
      prints no error line and lists no unreachable inode. */
  lemma CheckerAccepts(st: Store, w: Wit)
    requires InvW(st, w)
    ensures !ReachedTwice(st)
    ensures forall x :: Reach(st, x) ==> Fine(st, x)
    ensures forall i: nat :: 1 <= i < |st.inodes| && BitSet(st.inodeMap, i) ==> exists x :: Reach(st, x) && x.inum == i
  {
    NoLoop(st, w);
    hide TreeInv, ReachedTwice, Reach, Shapes, Owned, DirFine, FileFine;
    forall x | Reach(st, x) ensures Fine(st, x) {
      ReachFaithful(st, w, x);
      if x.dir { DirIsFine(st, w, x); } else { OwnedFileFine(st, w.ow, x.inum); }
    }
    forall i: nat | 1 <= i < |st.inodes| && BitSet(st.inodeMap, i) ensures exists x :: Reach(st, x) && x.inum == i {
      LiveDepth(st, w, i);
      var x := AllReached(st, w, i);
    }
  }

  /** After a truncation as written the checker reports the file's blocks as
      free exactly when the file reached its single-indirect block. */
  lemma TruncateCheckedIff(st: Store, w: Wit, i: nat)
    requires InvW(st, w) && Live(st, i) && !st.inodes[i].isDir
    ensures FileFine(TruncFile(st, i), TruncFile(st, i).inodes[i]) <==> T(st, i, Data(6)) == 0
  {
    var t := TruncFile(st, i);
    ShapeOf(st, w, i);
    TruncDirect(st, i);
    if T(st, i, Data(6)) == 0 {
      TruncatedFine(st, w.ow, i);
    } else {
      TruncatedDangles(st, w.ow, i);
    }
  }

  lemma TruncatedDangles(st: Store, ow: Owners, i: nat)
    requires Good(st, ow) && Live(st, i) && Shape(st, i) && T(st, i, Data(6)) != 0
    ensures !FileFine(TruncFile(st, i), TruncFile(st, i).inodes[i])
  {
    var x := T(st, i, Data(6));
    TargetCell(st.inodes[i], st.blocks, Data(6));
    InodePointers(st, i);
    OwnedIsSet(st, ow, i, Data(6));
    TruncDirect(st, i);
    TruncBitsAt(st, ow, i, x);
    hide TruncBits, ClearDirect, Ptr, Target;
    assert ow[x] == (i, Data(6));
    assert Ptr(BlockAt(st.blocks, st.inodes[i].indir1), 0) == x;
  }

  lemma TruncatedFine(st: Store, ow: Owners, i: nat)
    requires Good(st, ow) && Live(st, i) && Shape(st, i) && T(st, i, Data(6)) == 0
    ensures FileFine(TruncFile(st, i), TruncFile(st, i).inodes[i])
  {
    TruncDirect(st, i);
    InodePointers(st, i);
    var n := st.inodes[i];
    assert st.inodes[i].size <= 6 * 1024;
    assert T(st, i, Ind2) == 0 by { assert FirstBlock(Ind2) == 262; }
    if n.indir1 != 0 {
      assert T(st, i, Ind1) < |st.blocks|;
      Ind1Lists(st, i);
      forall k: nat | k < 256 ensures Ptr(BlockAt(st.blocks, n.indir1), k) == 0 {
        assert T(st, i, Data(6 + k)) == 0 by { if k > 0 { assert FirstBlock(Data(6 + k)) == 6 + k; } }
      }
    }
    hide TruncBits, ClearDirect, Ptr, Target;
  }
}
