/** The directory operations keep the invariant. */
module OpProofs {
  import opened Layout
  import opened State
  import opened AttachProofs
  import opened FileWrite
  import opened WriteProofs
  import opened Ops
  import opened Tree
  import opened TreeProofs

  lemma DirBlockOwned(st: Store, ow: Owners, d: nat)
    requires Good(st, ow) && LiveDir(st, d) && DirPointers(st, d)
    ensures var p := InodeAt(st, d).direct[0];
            p == T(st, d, Data(0)) && 4 <= p < |st.blocks| && p in ow && ow[p] == (d, Data(0))
  {
    hide Target;
    DirectZero(st, d);
    assert T(st, d, Data(0)) != 0;
  }

  lemma DirectZero(st: Store, d: nat)
    requires d < |st.inodes|
    ensures T(st, d, Data(0)) == st.inodes[d].direct[0] == InodeAt(st, d).direct[0]
  {
  }

  /** Rewriting a directory block: no pointer moves, nothing else changes. */
  lemma SetDirBlockOk(st: Store, ow: Owners, d: nat, b: Block)
    requires Good(st, ow) && LiveDir(st, d) && DirPointers(st, d)
    ensures var s := SetDirBlock(st, d, b);
            && Good(s, ow) && SameSizes(st, s) && s.inodes == st.inodes && s.blockMap == st.blockMap
            && (forall j: nat, m :: Live(st, j) ==> T(s, j, m) == T(st, j, m))
            && OthersSame(st, s, d) && DirBlock(s, d) == b
            && Leaked(s, ow) == Leaked(st, ow)
  {
    var s := SetDirBlock(st, d, b);
    DirBlockOwned(st, ow, d);
    forall j: nat, m | Live(st, j) ensures T(s, j, m) == T(st, j, m) {
      DataBlockTargets(st, ow, d, 0, b, j, m);
    }
    hide Target;
  }

  /** The blocks of two directories are different blocks. */
  lemma OtherDirBlock(st: Store, st': Store, d: nat, e: nat)
    requires d < |st.inodes| && OthersSame(st, st', d) && LiveDir(st, e) && e != d && DirPointers(st, e)
    ensures DirBlock(st', e) == DirBlock(st, e)
  {
    hide Target;
    DirectZero(st, e);
    DirectZero(st', e);
  }

  // ---- create ----

  /** Marking a free inode used and initialising it. */
  lemma WithNewInode(st: Store, ow: Owners, i: nat, isDir: bool)
    requires Good(st, ow) && i < |st.inodes| && !Live(st, i)
    ensures var s := WithInode(st, i, true, NewInode(isDir));
            && Good(s, ow) && Live(s, i) && (forall m :: T(s, i, m) == 0)
            && (forall j: nat :: j != i ==> (Live(s, j) <==> Live(st, j)))
            && (forall j: nat, m :: Live(st, j) ==> T(s, j, m) == T(st, j, m))
  {
    var s := WithInode(st, i, true, NewInode(isDir));
    assert forall m :: T(s, i, m) == 0;
    assert forall j: nat, m :: Live(st, j) ==> T(s, j, m) == T(st, j, m);
    hide Target;
  }

  function Created2(st: Store, i: nat, b: nat, isDir: bool): Store
    requires Roomy(st) && i < 64 && (isDir ==> b < |st.blocks|)
  {
    var st1 := WithInode(st, i, true, NewInode(isDir));
    if isDir then Attach(st1, i, Data(0), b, ZeroBlock) else st1
  }

  ghost predicate FreshInode(st: Store, st2: Store, i: nat, b: nat, isDir: bool)
    requires i < |st.inodes|
  {
    && SameSizes(st.(inodeMap := st2.inodeMap), st2) && |st2.inodeMap| == |st.inodeMap|
    && !Live(st, i) && Live(st2, i)
    && (forall j: nat :: j != i ==> (Live(st2, j) <==> Live(st, j)))
    && (forall j :: 0 <= j < |st.inodes| && j != i ==> st2.inodes[j] == st.inodes[j])
    && (forall j :: |st.inodes| <= j < |st.inodeMap| ==> st2.inodeMap[j] == st.inodeMap[j])
    && st2.inodes[i].isDir == isDir && st2.inodes[i].size == 0
    && (forall j: nat, m :: Live(st, j) ==> T(st2, j, m) == T(st, j, m))
    && (forall m :: T(st2, i, m) == if isDir && m == Data(0) then b else 0)
    && (forall j: nat, l :: Live(st, j) && T(st, j, Data(l)) != 0 ==>
          BlockAt(st2.blocks, T(st, j, Data(l))) == BlockAt(st.blocks, T(st, j, Data(l))))
    && (isDir ==> b != 0 && BlockAt(st2.blocks, b) == ZeroBlock)
  }

  lemma NewDirBlock(st1: Store, ow: Owners, i: nat, b: nat)
    requires Good(st1, ow) && Live(st1, i) && (forall m :: T(st1, i, m) == 0)
    requires st1.start <= b < |st1.blocks| && !st1.blockMap[b]
    ensures var s := Attach(st1, i, Data(0), b, ZeroBlock);
            && Good(s, ow[b := (i, Data(0))]) && Extends(st1, s, i)
            && (forall m :: T(s, i, m) == if m == Data(0) then b else 0)
            && BlockAt(s.blocks, b) == ZeroBlock
            && Sized(s) && Leaked(s, ow[b := (i, Data(0))]) == Leaked(st1, ow)
  {
    AttachBlocks(st1, ow, i, Data(0), b, ZeroBlock);
    hide Target, NoPointers, Attach;
    AttachOwned(st1, ow, i, Data(0), b, ZeroBlock);
    AttachExtends(st1, ow, i, Data(0), b, ZeroBlock);
    AttachTargets(st1, ow, i, Data(0), b, ZeroBlock);
    AttachLeaks(st1, ow, i, Data(0), b, ZeroBlock);
  }

  lemma CreateInode(st: Store, ow: Owners, i: nat, b: nat, isDir: bool) returns (ow': Owners)
    requires Good(st, ow) && i < 64 && !st.inodeMap[i]
    requires isDir ==> st.start <= b < |st.blocks| && !st.blockMap[b]
    ensures var s := Created2(st, i, b, isDir);
            && Good(s, ow') && FreshInode(st, s, i, b, isDir)
            && Leaked(s, ow') == Leaked(st, ow)
  {
    hide Target, Owned, Attach;
    var st1 := WithInode(st, i, true, NewInode(isDir));
    WithNewInode(st, ow, i, isDir);
    ow' := ow;
    if isDir {
      NewDirBlock(st1, ow, i, b);
      ow' := ow[b := (i, Data(0))];
      forall j: nat, l | Live(st, j) && T(st, j, Data(l)) != 0
        ensures BlockAt(Created2(st, i, b, isDir).blocks, T(st, j, Data(l))) == BlockAt(st.blocks, T(st, j, Data(l)))
      {
        assert Live(st1, j) && T(st1, j, Data(l)) == T(st, j, Data(l));
      }
    }
  }

  lemma FreshDirBlock(st: Store, st2: Store, i: nat, b: nat, isDir: bool, e: nat)
    requires i < |st.inodes| && FreshInode(st, st2, i, b, isDir)
    requires LiveDir(st, e) && DirPointers(st, e)
    ensures e != i && LiveDir(st2, e) && DirPointers(st2, e) && DirBlock(st2, e) == DirBlock(st, e)
  {
    hide Target;
    DirectZero(st, e);
    DirectZero(st2, e);
    assert T(st2, e, Data(0)) == T(st, e, Data(0));
  }

  lemma FreshEmpty(st: Store, st2: Store, i: nat, b: nat)
    requires i < |st.inodes| && FreshInode(st, st2, i, b, true)
    ensures LiveDir(st2, i) && DirPointers(st2, i) && DirBlock(st2, i) == ZeroBlock
  {
    hide Target;
    DirectZero(st2, i);
    assert T(st2, i, Data(0)) == b;
  }

  lemma CreatedEntry(b: Block, s: nat, e: Dirent, b': Block)
    requires s < 32 && NameOk(e.name) && e.inode < 64 && b' == PutEnt(b, s, e)
    ensures Ent(b', s) == e && Padded(b', s)
    ensures forall t :: 0 <= t < 32 && t != s ==> Ent(b', t) == Ent(b, t) && (Padded(b', t) <==> Padded(b, t))
  {
    EntPutEnt(b, s, e);
  }

  /** What the last write of fs_mknod, the parent's directory block, completes. */
  lemma CreateCompletes(st: Store, st2: Store, ow: Owners, d: nat, s: nat, i: nat, b: nat, n: Name, isDir: bool)
    requires i < |st.inodes| && FreshInode(st, st2, i, b, isDir) && Good(st2, ow)
    requires forall e: nat :: LiveDir(st, e) ==> DirPointers(st, e)
    requires LiveDir(st, d) && s < 32 && NameOk(n) && 1 < i < 64 && Live(st, 0)
    ensures var st' := SetDirBlock(st2, d, PutEnt(DirBlock(st, d), s, Dirent(true, isDir, i, n)));
            && Good(st', ow) && Created(st, st', d, s, i, n, isDir)
            && OthersSame(st2, st', d) && st'.inodes == st2.inodes
            && Leaked(st', ow) == Leaked(st2, ow)
            && (forall j: nat, m :: Live(st2, j) ==> T(st', j, m) == T(st2, j, m))
  {
    hide Target, Owned, PutEnt, Padded, Ent;
    var e := Dirent(true, isDir, i, n);
    var b' := PutEnt(DirBlock(st, d), s, e);
    var st' := SetDirBlock(st2, d, b');
    FreshDirBlock(st, st2, i, b, isDir, d);
    SetDirBlockOk(st2, ow, d, b');
    CreatedEntry(DirBlock(st, d), s, e, b');
    hide SetDirBlock;
    forall x: nat, t | LiveDir(st, x) && 0 <= t < 32 && (x, t) != (d, s) ensures EntrySame(st, st', x, t) {
      FreshDirBlock(st, st2, i, b, isDir, x);
      if x != d { OtherDirBlock(st2, st', d, x); }
    }
    forall j: nat | j != i ensures SameInode(st, st', j) { }
    if isDir {
      FreshEmpty(st, st2, i, b);
      OtherDirBlock(st2, st', d, i);
      forall t | 0 <= t < 32 ensures !E(st', i, t).valid { EntZeroBlock(t); }
    }
  }

  /** Shape depends only on the size and the pointers. */
  lemma ShapeSame(a: Store, b: Store, j: nat)
    requires j < |a.inodes| && j < |b.inodes| && Shape(a, j) && b.inodes[j].size == a.inodes[j].size
    requires forall m :: T(b, j, m) == T(a, j, m)
    ensures Shape(b, j)
  {
    hide Target;
    forall m | T(b, j, m) != 0 ensures FirstBlock(m) * 1024 <= b.inodes[j].size { assert T(a, j, m) != 0; }
    forall l: nat | l < 65798 && l * 1024 < b.inodes[j].size ensures T(b, j, Data(l)) != 0 {
      assert T(a, j, Data(l)) != 0;
    }
  }

  lemma FreshShapes(st: Store, st': Store, i: nat, b: nat, isDir: bool)
    requires i < |st.inodes| && Shapes(st) && FreshInode(st, st', i, b, isDir)
    ensures Shapes(st')
  {
    hide Target, Shape;
    forall j: nat | Live(st', j) ensures Shape(st', j) {
      if j != i {
        assert Shape(st, j);
        ShapeSame(st, st', j);
      } else {
        FreshShape(st, st', i, b, isDir);
      }
    }
  }

  lemma FreshShape(st: Store, st': Store, i: nat, b: nat, isDir: bool)
    requires i < |st.inodes| && FreshInode(st, st', i, b, isDir)
    ensures Shape(st', i)
  {
    hide Target;
  }

  lemma SameShapes(a: Store, b: Store)
    requires Shapes(a) && b.inodes == a.inodes && b.inodeMap == a.inodeMap
    requires forall j: nat, m :: Live(a, j) ==> T(b, j, m) == T(a, j, m)
    ensures Shapes(b)
  {
    hide Target, Shape;
    forall j: nat | Live(b, j) ensures Shape(b, j) {
      assert Shape(a, j);
      ShapeSame(a, b, j);
    }
  }

  /** A successful create keeps the invariant. */
  lemma CreateInv(st: Store, w: Wit, d: nat, s: nat, i: nat, b: nat, n: Name, isDir: bool) returns (w': Wit)
    requires InvW(st, w) && LiveDir(st, d) && NameOk(n) && SlotFor(st, d, s, n)
    requires i < 64 && !st.inodeMap[i]
    requires isDir ==> st.start <= b < |st.blocks| && !st.blockMap[b]
    ensures var st' := Create(st, d, s, i, b, n, isDir);
            && InvW(st', w') && Created(st, st', d, s, i, n, isDir)
            && FreshInode(st, Created2(st, i, b, isDir), i, b, isDir)
            && OthersSame(Created2(st, i, b, isDir), st', d)
            && st'.inodes == Created2(st, i, b, isDir).inodes
            && Leaked(st', w'.ow) == Leaked(st, w.ow)
  {
    hide Target, Owned, Created, FreshInode, PutEnt, SlotFor, NameOk, SetDirBlock, Shapes, OthersSame, DirOk, Placed;
    DirDepth(st, w, d);
    var st2 := Created2(st, i, b, isDir);
    var ow2 := CreateInode(st, w.ow, i, b, isDir);
    AllDirPointers(st, w);
    SlotInRange(st, d, s, n);
    CreateCompletes(st, st2, ow2, d, s, i, b, n, isDir);
    var st' := Create(st, d, s, i, b, n, isDir);
    FreshShapes(st, st2, i, b, isDir);
    SameMaps(st, st2, st', i, b, d, isDir);
    SameShapes(st2, st');
    CreatedTree(st, st', w, ow2, d, s, i, n, isDir);
    w' := AddedWit(w, ow2, d, s, i);
  }

  lemma AllDirPointers(st: Store, w: Wit)
    requires TreeInv(st, w)
    ensures forall e: nat :: LiveDir(st, e) ==> DirPointers(st, e)
  {
    forall e: nat | LiveDir(st, e) ensures DirPointers(st, e) { assert DirOk(st, w, e); }
  }

  lemma SlotInRange(st: Store, d: nat, s: nat, n: Name)
    requires SlotFor(st, d, s, n)
    ensures s < 32 && |DirBlock(st, d)| == 1024
  {
  }

  lemma SameMaps(st: Store, st2: Store, st': Store, i: nat, b: nat, d: nat, isDir: bool)
    requires i < 64 && Geometry(st) && FreshInode(st, st2, i, b, isDir) && d < |st.inodes| && OthersSame(st2, st', d) && MapOk(st)
    ensures MapOk(st') && st'.inodeMap == st2.inodeMap
  {
  }
}
