/** Every operation keeps the invariant and does to the tree what it promises. */
module OpTheorems {
  import opened Layout
  import opened State
  import opened FileWrite
  import opened WriteProofs
  import opened WriteTheorems
  import opened Ops
  import opened Tree
  import opened TreeProofs
  import opened OpProofs
  import opened TruncProofs
  import opened TreeTheorems
  import opened Spec

  /** The abstract walk computes the error codes of the concrete one. */
  lemma {:induction false} AbsWalkIs(st: Store, w: Wit, q: Path)
    requires TreeInv(st, w)
    ensures AbsWalk(TreeOf(st), q) == if Walk(st, q) >= 0 then 0 else Walk(st, q)
    ensures AbsEnter(TreeOf(st), q) == if Enter(st, Walk(st, q)) >= 0 then 0 else Enter(st, Walk(st, q))
    decreases |q|
  {
    hide TreeOf, TreeInv, Lookup;
    InTree(st, w, q);
    if q != [] {
      AbsWalkIs(st, w, Init(q));
      assert q == Init(q) + [Last(q)];
      WalkSnoc(st, Init(q), Last(q));
      if Enter(st, Walk(st, Init(q))) >= 0 { LookupCode(st, w, Walk(st, Init(q)), Last(q)); WalkLive(st, w, Init(q)); }
    }
  }

  lemma LookupCode(st: Store, w: Wit, d: nat, n: Name)
    ensures Lookup(st, d, n) >= 0 || Lookup(st, d, n) == ENOENT
  {
  }

  // ---- operations that touch one file ----

  /** When nothing but file i changed, neither did any directory. */
  lemma FileOnlySameDirs(st: Store, st': Store, w: Wit, i: nat)
    requires TreeInv(st, w) && Live(st, i) && !st.inodes[i].isDir && i > 1 && OthersSame(st, st', i)
    ensures SameDirs(st, st')
  {
    hide Target, EntryOk, UniqueNames, FirstFit, Placed, DirPointers, DirBlock;
    AllDirPointers(st, w);
    forall e: nat | LiveDir(st, e) ensures DirBlock(st', e) == DirBlock(st, e) {
      OtherDirBlock(st, st', i, e);
    }
    forall j: nat ensures SameInode(st, st', j) {
      if LiveDir(st, j) { DirPointersSame(st, st', j); }
    }
  }

  lemma DirPointersSame(st: Store, st': Store, j: nat)
    requires j < |st.inodes| && j < |st'.inodes| && forall m :: T(st', j, m) == T(st, j, m)
    ensures DirPointers(st, j) ==> DirPointers(st', j)
  {
    hide Target;
    if DirPointers(st, j) {
      forall m | T(st', j, m) != 0 ensures m == Data(0) { assert T(st, j, m) != 0; }
    }
  }

  lemma FileOnlyTree(st: Store, st': Store, w: Wit, w': Wit, i: nat, p: Path)
    requires InvW(st, w) && TreeInv(st', w') && Live(st, i) && !st.inodes[i].isDir && OthersSame(st, st', i)
    requires SameDirs(st, st') && Walk(st, p) == i
    ensures TreeOf(st') == TreeOf(st)[p := NodeOf(st', i)]
  {
    hide TreeInv, TreeOf, Walk, NodeOf, OthersSame, SameDirs, Shapes;
    forall q: Path
      ensures q in TreeOf(st') <==> q == p || q in TreeOf(st)
      ensures q in TreeOf(st') ==> TreeOf(st')[q] == if q == p then NodeOf(st', i) else TreeOf(st)[q]
    {
      InTree(st, w, q);
      InTree(st', w', q);
      SameDirsWalk(st, st', w, q);
      if q in TreeOf(st) && q != p {
        if Walk(st, q) == i { WalkInjective(st, w, p, q); }
        OtherNode(st, st', w, i, Walk(st, q));
      }
    }
    assert TreeOf(st').Keys == TreeOf(st)[p := NodeOf(st', i)].Keys;
  }

  lemma OtherNode(st: Store, st': Store, w: Wit, i: nat, j: nat)
    requires InvW(st, w) && i < |st.inodes| && OthersSame(st, st', i) && Live(st, j) && j != i
    ensures NodeOf(st', j) == NodeOf(st, j)
  {
    hide Target, TreeInv, Shape;
    assert Shape(st, j);
    OthersContents(st, st', i, j);
  }

  lemma OthersShapes(st: Store, st': Store, i: nat)
    requires Shapes(st) && i < |st.inodes| && OthersSame(st, st', i) && Shape(st', i)
    ensures Shapes(st')
  {
    hide Target, Shape;
    forall j: nat | Live(st', j) ensures Shape(st', j) {
      assert Live(st, j);
      assert Shape(st, j);
      if j != i { OthersContents(st, st', i, j); }
    }
  }

  /** A file whose data alone changed: invariant and tree. */
  lemma FileOnly(st: Store, st': Store, w: Wit, ow: Owners, i: nat, p: Path) returns (w': Wit)
    requires InvW(st, w) && Live(st, i) && !st.inodes[i].isDir && OthersSame(st, st', i)
    requires Good(st', ow) && Shape(st', i) && Walk(st, p) == i
    ensures InvW(st', w') && TreeOf(st') == TreeOf(st)[p := NodeOf(st', i)] && w'.ow == ow
  {
    hide TreeInv, TreeOf, Walk, NodeOf, Owned, Shapes, Shape;
    WalkLive(st, w, p);
    NotRoot(st, w, i);
    FileOnlySameDirs(st, st', w, i);
    w' := w.(ow := ow);
    SameDirsTree(st, st', w, ow);
    OthersShapes(st, st', i);
    FileOnlyTree(st, st', w, w', i, p);
  }

  lemma NotRoot(st: Store, w: Wit, i: nat)
    requires TreeInv(st, w) && Live(st, i) && !st.inodes[i].isDir
    ensures i != 1 && (forall q: Path :: Walk(st, q) == i ==> i > 1)
  {
    ZeroUnreached(st, w);
    hide DirOk, Placed, Walk;
  }

  /** What a path that resolves leads to. */
  lemma Resolved(st: Store, w: Wit, p: Path) returns (r: int)
    requires InvW(st, w)
    ensures r == Resolve(st, 1, p) == Walk(st, p)
    ensures AbsWalk(TreeOf(st), p) == if r >= 0 then 0 else r
    ensures r >= 0 <==> p in TreeOf(st)
    ensures r >= 0 ==> Live(st, r) && InodeAt(st, r) == st.inodes[r] && TreeOf(st)[p] == NodeOf(st, r)
    ensures r >= 0 ==> (st.inodes[r].isDir <==> TreeOf(st)[p].DirNode?)
  {
    hide TreeInv, TreeOf, Walk, Resolve, Owned, Shapes;
    r := Resolve(st, 1, p);
    ResolveIsWalk(st, w, p);
    AbsWalkIs(st, w, p);
    InTree(st, w, p);
    WalkLive(st, w, p);
  }

  /** If the call gets past its checks the file has no single-indirect block. */
  predicate TruncateOk(st: Store, p: Path, len: int) {
    var i := Resolve(st, 1, p);
    len == 0 && i >= 0 ==> InodeAt(st, i).isDir || InodeAt(st, i).indir1 == 0
  }

  /** fs_truncate of a file without single-indirect block, and all its errors. */
  lemma TruncateMeetsSpec(st: Store, w: Wit, p: Path, len: int) returns (w': Wit)
    requires InvW(st, w) && TruncateOk(st, p, len)
    ensures var r := Truncate(st, p, len);
            && InvW(r.st, w') && TruncateSpec(TreeOf(st), p, len, r.rc, TreeOf(r.st))
            && (r.rc < 0 ==> r.st == st && w' == w)
            && (r.rc >= 0 ==> Resolve(st, 1, p) >= 0 && r.st.blockMap == st.blockMap && r.st.blocks == st.blocks
                              && r.st.start == st.start && w'.ow == Without(w.ow, Resolve(st, 1, p)))
  {
    hide TreeInv, TreeOf, Walk, Resolve, Owned, TruncFile, Shape, Contents, OthersSame;
    w' := w;
    var i := Resolved(st, w, p);
    if len == 0 && i >= 0 && !InodeAt(st, i).isDir {
      assert Shape(st, i);
      TruncShortGood(st, w.ow, i);
      TruncOthers(st, i);
      w' := FileOnly(st, TruncFile(st, i), w, Without(w.ow, i), i, p);
    }
  }

  lemma TruncOthers(st: Store, i: nat)
    requires i < |st.inodes|
    ensures OthersSame(st, TruncFile(st, i), i)
             && NodeOf(TruncFile(st, i), i) == if st.inodes[i].isDir then DirNode else FileNode([])
  {
    hide TruncBits, ClearDirect;
    assert forall j: nat, m :: j < |st.inodes| && j != i ==> T(TruncFile(st, i), j, m) == T(st, j, m);
    hide Target;
    EmptyContents(TruncFile(st, i), i);
  }

  /** If the call gets past its checks it is an append to a file not yet of
      maximal size that takes no stale index block. */
  ghost predicate AppendOk(st: Store, i: int, data: seq<byte>, off: nat)
    requires Sized(st)
  {
    0 <= i < |st.inodes| && !st.inodes[i].isDir && off <= st.inodes[i].size ==>
      off == st.inodes[i].size < MAX_BYTES && WriteClean(st, i, off / 1024, off, data)
  }

  /** fs_write at the end of a file, and all its errors. */
  lemma AppendMeetsSpec(st: Store, w: Wit, p: Path, data: seq<byte>, off: nat) returns (w': Wit)
    requires Roomy(st) && InvW(st, w)
    requires AppendOk(st, Resolve(st, 1, p), data, off)
    ensures var r := Write(st, p, data, off);
            && InvW(r.st, w') && AppendSpec(TreeOf(st), p, data, off, r.rc, TreeOf(r.st))
            && Leaked(r.st, w'.ow) == Leaked(st, w.ow)
  {
    hide InvW, Appended, AppendSpec, TreeOf, Walk, Resolve, WriteFile, WriteClean, Contents, AbsWalk, Leaked;
    w' := w;
    var i := Resolved(st, w, p);
    if i >= 0 && !InodeAt(st, i).isDir && off <= InodeAt(st, i).size {
      w' := AppendCase(st, w, i, p, data);
      AppendSpecHolds(TreeOf(st), p, data, off, WriteFile(st, i, off, data).rc, TreeOf(WriteFile(st, i, off, data).st));
    } else {
      AppendRefused(st, w, p, data, off);
    }
  }

  lemma AppendSpecHolds(t: AbsTree, p: Path, data: seq<byte>, off: nat, rc: int, t': AbsTree)
    requires p in t && t[p].FileNode? && off <= |t[p].bytes| && AbsWalk(t, p) == 0
    requires exists k: nat :: Appended(t, p, t[p].bytes, data, k, rc, t')
    ensures AppendSpec(t, p, data, off, rc, t')
  {
    hide AbsWalk, Appended;
  }

  lemma AppendRefused(st: Store, w: Wit, p: Path, data: seq<byte>, off: nat)
    requires InvW(st, w) && Sized(st)
    requires var i := Resolve(st, 1, p); i < 0 || InodeAt(st, i).isDir || off > InodeAt(st, i).size
    ensures var r := Write(st, p, data, off);
            r.st == st && AppendSpec(TreeOf(st), p, data, off, r.rc, TreeOf(st))
  {
    hide InvW, Appended, TreeOf, Walk, Resolve, WriteFile, WriteClean, Contents, AbsWalk;
    var i := Resolved(st, w, p);
  }

  lemma InvGood(st: Store, w: Wit)
    requires InvW(st, w)
    ensures Good(st, w.ow) && Sized(st)
  {
    hide TreeInv, Shapes, Owned;
  }

  lemma RoomToWrite(st: Store, w: Wit)
    requires InvW(st, w)
    ensures Roomy(st)
  {
    hide TreeInv, Owned, Shapes;
  }

  lemma AppendCase(st: Store, w: Wit, i: nat, p: Path, data: seq<byte>) returns (w': Wit)
    requires InvW(st, w) && Live(st, i) && !st.inodes[i].isDir && Walk(st, p) == i && p in TreeOf(st)
    requires st.inodes[i].size < MAX_BYTES && TreeOf(st)[p] == NodeOf(st, i)
    requires WriteClean(st, i, st.inodes[i].size / 1024, st.inodes[i].size, data)
    ensures var r := WriteFile(st, i, st.inodes[i].size, data);
            && InvW(r.st, w') && TreeOf(st)[p].FileNode? && |TreeOf(st)[p].bytes| == st.inodes[i].size
            && (exists k: nat :: Appended(TreeOf(st), p, TreeOf(st)[p].bytes, data, k, r.rc, TreeOf(r.st)))
            && Sized(st) && Leaked(r.st, w'.ow) == Leaked(st, w.ow)
  {
    hide TreeInv, TreeOf, Walk, Owned, WriteFile, WriteFrom, WriteClean, Contents, Shape, OthersSame, Appended, Leaked;
    var off := st.inodes[i].size;
    assert Shape(st, i);
    var r := WriteFile(st, i, off, data);
    var ow' := WriteFileOwned(st, w.ow, i, off, data);
    AppendFile(st, w.ow, i, data);
    AppendedNode(st, r, i, data);
    w' := FileOnly(st, r.st, w, ow', i, p);
    AppendedNow(TreeOf(st), p, Contents(st, i), data, r.st.inodes[i].size - off, r.rc, TreeOf(r.st));
  }

  lemma AppendedNow(t: AbsTree, p: Path, bytes: seq<byte>, data: seq<byte>, k: nat, rc: int, t': AbsTree)
    requires k <= |data| && t' == t[p := FileNode(bytes + data[..k])]
    requires rc == ENOSPC || (rc == k && (k == |data| || |bytes| + k == MAX_BYTES))
    ensures Appended(t, p, bytes, data, k, rc, t')
  {
  }

  lemma WriteFileOwned(st: Store, ow: Owners, i: nat, off: nat, data: seq<byte>) returns (ow': Owners)
    requires Good(st, ow) && Live(st, i) && off / 1024 < 65798 && WriteClean(st, i, off / 1024, off, data)
    ensures var r := WriteFile(st, i, off, data);
            && Good(r.st, ow') && OthersSame(st, r.st, i) && r.st.inodes[i].isDir == st.inodes[i].isDir
            && Leaked(r.st, ow') == Leaked(st, ow)
  {
    hide Owned, Leaked, WriteClean, WriteFrom;
    ow' := WriteKeepsOwnership(st, ow, i, off / 1024, off, data, 0);
  }

  lemma AppendedNode(st: Store, r: Result, i: nat, data: seq<byte>)
    requires i < |st.inodes| && AppendedPrefix(st, r, i, data, 0)
    requires st.inodes[i].isDir == r.st.inodes[i].isDir == false
    ensures var k: nat := r.st.inodes[i].size - st.inodes[i].size;
            && NodeOf(st, i) == FileNode(Contents(st, i)) && |Contents(st, i)| == st.inodes[i].size
            && k <= |data| && NodeOf(r.st, i) == FileNode(Contents(st, i) + data[..k])
            && (r.rc == ENOSPC || (r.rc == k && (k == |data| || |Contents(st, i)| + k == MAX_BYTES)))
  {
  }

  // ---- create ----

  lemma ParentIs(st: Store, w: Wit, p: Path) returns (d: int)
    requires InvW(st, w) && p != []
    ensures d == ParentOf(st, 1, p) == Enter(st, Walk(st, Init(p)))
    ensures AbsEnter(TreeOf(st), Init(p)) == if d >= 0 then 0 else d
    ensures d >= 0 ==> LiveDir(st, d) && Walk(st, Init(p)) == d && Lookup(st, d, Last(p)) == Resolve(st, 1, p)
    ensures d < 0 ==> Resolve(st, 1, p) == d
  {
    hide TreeInv, TreeOf, Walk, Resolve, Owned, Shapes, Lookup;
    d := ParentOf(st, 1, p);
    ResolveIsWalk(st, w, p);
    AbsWalkIs(st, w, Init(p));
    WalkLive(st, w, Init(p));
  }

  /** fs_mknod and fs_mkdir. */
  lemma MknodMeetsSpec(st: Store, w: Wit, p: Path, isDir: bool) returns (w': Wit)
    requires Roomy(st) && InvW(st, w) && p != [] && NameOk(Last(p))
    ensures var r := Mknod(st, p, isDir);
            && InvW(r.st, w') && MknodSpec(TreeOf(st), p, isDir, r.rc, TreeOf(r.st))
            && Sized(r.st) && Leaked(r.st, w'.ow) == Leaked(st, w.ow)
  {
    hide InvW, TreeOf, Walk, Resolve, ParentOf, Lookup, Create, AbsEnter, NameOk, Scan, Leaked;
    w' := w;
    var c := Resolved(st, w, p);
    var d := ParentIs(st, w, p);
    if d >= 0 && c <= 0 {
      NotZero(st, w, p);
      var i := FirstFree(st.inodeMap, 0, 64);
      var s := Scan(DirBlock(st, d), Unused, 0);
      var b := FirstFree(st.blockMap, st.start, |st.blocks|);
      if i < 64 && s < 32 && (isDir ==> b < |st.blocks|) {
        ScanSlotFor(st, d, Last(p));
        w' := CreateMeets(st, w, p, d, s, i, b, isDir);
      }
    }
  }

  /** A create whose parent is there and whose name is new fails with ENOSPC
      exactly when the first 64 inodes are taken, the 32 slots of the parent
      are used, or a directory is wanted and no block is free. */
  lemma MknodFullIff(st: Store, w: Wit, p: Path, isDir: bool)
    requires Roomy(st) && InvW(st, w) && p != [] && NameOk(Last(p))
    requires AbsEnter(TreeOf(st), Init(p)) >= 0 && p !in TreeOf(st)
    ensures var d := ParentOf(st, 1, p);
            && d >= 0
            && (Mknod(st, p, isDir).rc == ENOSPC <==>
                  || (forall i :: 0 <= i < 64 ==> st.inodeMap[i])
                  || (forall s :: 0 <= s < 32 ==> E(st, d, s).valid)
                  || (isDir && forall b :: st.start <= b < |st.blocks| ==> st.blockMap[b]))
  {
    hide InvW, TreeOf, Walk, Resolve, ParentOf, Lookup, Create, AbsEnter, NameOk, DirBlock, Ent, Scan, FirstFree;
    var c := Resolved(st, w, p);
    var d := ParentIs(st, w, p);
    var s := Scan(DirBlock(st, d), Unused, 0);
    if s == 32 {
      forall t | 0 <= t < 32 ensures E(st, d, t).valid { assert !Hit(Ent(DirBlock(st, d), t), Unused); }
    } else {
      assert Hit(Ent(DirBlock(st, d), s), Unused) && !E(st, d, s).valid;
    }
  }

  lemma NotZero(st: Store, w: Wit, p: Path)
    requires InvW(st, w)
    ensures Resolve(st, 1, p) != 0
  {
    hide TreeInv, Walk, Resolve;
    ResolveIsWalk(st, w, p);
    ZeroUnreached(st, w);
  }

  lemma CreateMeets(st: Store, w: Wit, p: Path, d: nat, s: nat, i: nat, b: nat, isDir: bool) returns (w': Wit)
    requires Roomy(st) && InvW(st, w) && p != [] && NameOk(Last(p)) && SlotFor(st, d, s, Last(p)) && s < 32
    requires LiveDir(st, d) && Walk(st, Init(p)) == d && i < 64 && !st.inodeMap[i]
    requires isDir ==> st.start <= b < |st.blocks| && !st.blockMap[b]
    ensures var st' := Create(st, d, s, i, b, Last(p), isDir);
            && InvW(st', w') && p !in TreeOf(st)
            && TreeOf(st') == TreeOf(st)[p := if isDir then DirNode else FileNode([])]
            && Sized(st') && Leaked(st', w'.ow) == Leaked(st, w.ow)
  {
    hide TreeOf, Walk, Create, NameOk, Scan, TreeInv, Leaked, Created, FreshInode, OthersSame, SlotFor, Owned, NodeOf, Created2;
    w' := CreateInv(st, w, d, s, i, b, Last(p), isDir);
    var st' := Create(st, d, s, i, b, Last(p), isDir);
    CreateNodes(st, Created2(st, i, b, isDir), st', d, i, b, isDir);
    assert Init(p) + [Last(p)] == p;
    CreatedTreeOf(st, st', w, w', d, s, i, Last(p), isDir, Init(p));
  }

  // ---- remove ----

  /** The scans of fs_rmdir and fs_rename for an inode number do not test
      valid, and still stop at the entry the path lookup found: an unused slot
      with that number never comes first. */
  lemma InodeScanHitsEntry(st: Store, w: Wit, d: nat, n: Name)
    requires TreeInv(st, w) && LiveDir(st, d) && Lookup(st, d, n) >= 0
    ensures var c, s := Lookup(st, d, n), Scan(DirBlock(st, d), Named(n), 0);
            && s < 32 && E(st, d, s).valid && E(st, d, s).inode == c && E(st, d, s).name == n
            && Scan(DirBlock(st, d), OfInode(c), 0) == s
  {
    hide Padded, NameOk, DirPointers, UniqueNames, Placed, RootOk;
    var c, s := Lookup(st, d, n), Scan(DirBlock(st, d), Named(n), 0);
    var r := Scan(DirBlock(st, d), OfInode(c), 0);
    assert s < 32 && E(st, d, s).inode == c;
    assert r <= s;
    FirstHit(st, w, d, r, s);
  }

  lemma FirstHit(st: Store, w: Wit, d: nat, r: nat, s: nat)
    requires TreeInv(st, w) && LiveDir(st, d) && r <= s < 32
    requires E(st, d, s).valid && E(st, d, r).inode == E(st, d, s).inode
    ensures r == s
  {
    hide Padded, NameOk, DirPointers, UniqueNames, Placed, RootOk, E;
    assert DirOk(st, w, d);
    assert EntryOk(st, w, d, s) && EntryOk(st, w, d, r);
  }

  /** k is st with inode c taken out, its entry not yet cleared. */
  ghost predicate Killed(st: Store, k: Store, c: nat) {
    && k.start == st.start && k.blocks == st.blocks && |k.blockMap| == |st.blockMap|
    && |k.inodes| == |st.inodes| && c < |st.inodes| <= |st.inodeMap| && k.inodeMap == st.inodeMap[c := false]
    && (forall j :: 0 <= j < |st.inodes| && j != c ==> k.inodes[j] == st.inodes[j])
  }

  /** What the entry looks like afterwards: unused, other slots untouched. */
  ghost predicate Cleared(b: Block, b': Block, s: nat, c: nat)
    requires s < 32
  {
    && !Ent(b', s).valid && (Ent(b', s).inode == c || Ent(b', s).inode == 0)
    && forall t :: 0 <= t < 32 && t != s ==> Ent(b', t) == Ent(b, t) && (Padded(b', t) <==> Padded(b, t))
  }

  lemma KilledTargets(st: Store, k: Store, c: nat)
    requires Killed(st, k, c)
    ensures forall j: nat, m :: j < |st.inodes| && j != c ==> T(k, j, m) == T(st, j, m)
    ensures forall j: nat :: j != c ==> (Live(k, j) <==> Live(st, j))
    ensures forall j: nat :: j < |st.inodes| && j != c ==> DirBlock(k, j) == DirBlock(st, j) && Contents(k, j) == Contents(st, j)
    ensures forall j: nat :: j < |st.inodes| && j != c && Shape(st, j) ==> Shape(k, j)
    ensures forall j: nat :: j < |st.inodes| && j != c && DirPointers(st, j) ==> DirPointers(k, j)
  {
    assert forall j: nat, m :: j < |st.inodes| && j != c ==> T(k, j, m) == T(st, j, m);
    hide Target;
    forall j: nat | j < |st.inodes| && j != c
      ensures DirBlock(k, j) == DirBlock(st, j) && Contents(k, j) == Contents(st, j)
      ensures Shape(st, j) ==> Shape(k, j)
      ensures DirPointers(st, j) ==> DirPointers(k, j)
    {
      SameBytes(st, k, j);
      if Shape(st, j) { ShapeSame(st, k, j); }
      DirPointersSame(st, k, j);
    }
  }

  lemma KilledDir(st: Store, w: Wit, k: Store, c: nat, e: nat)
    requires TreeInv(st, w) && Killed(st, k, c) && LiveDir(st, e) && e != c
    ensures LiveDir(k, e) && DirPointers(k, e) && DirBlock(k, e) == DirBlock(st, e)
  {
    AllDirPointers(st, w);
    KilledTargets(st, k, c);
  }

  lemma RemoveEntries(st: Store, w: Wit, k: Store, st': Store, d: nat, s: nat, c: nat, b': Block)
    requires TreeInv(st, w) && Killed(st, k, c) && LiveDir(st, d) && d != c && s < 32
    requires OthersSame(k, st', d) && DirBlock(st', d) == b' && Cleared(DirBlock(st, d), b', s, c)
    ensures OneEntryBut(st, st', d, s, c)
  {
    hide Target, Padded, Ent, Contents, Shape, TreeInv, DirPointers, DirBlock, OthersSame;
    assert |st'.inodes| == |st.inodes| by { OthersSizes(k, st', d); }
    forall e: nat, t | LiveDir(st, e) && e != c && 0 <= t < 32 && (e, t) != (d, s) ensures EntrySame(st, st', e, t) {
      KilledDir(st, w, k, c, e);
      if e != d { OtherDirBlock(k, st', d, e); }
    }
  }

  lemma OthersSizes(a: Store, b: Store, i: nat)
    requires i < |a.inodes| && OthersSame(a, b, i)
    ensures SameSizes(a, b)
  {
  }

  /** Clearing the entry completes the removal. */
  lemma RemoveCompletes(st: Store, w: Wit, k: Store, ow: Owners, d: nat, s: nat, c: nat, b': Block)
    requires TreeInv(st, w) && Killed(st, k, c) && Good(k, ow)
    requires LiveDir(st, d) && d != c && s < 32 && E(st, d, s).valid && E(st, d, s).inode == c && Live(st, c) && c > 1
    requires Cleared(DirBlock(st, d), b', s, c)
    requires st.inodes[c].isDir ==> forall t :: 0 <= t < 32 ==> !E(st, c, t).valid
    ensures var st' := SetDirBlock(k, d, b');
            && Good(st', ow) && Removed(st, st', d, s, c) && OthersSame(k, st', d) && st'.inodes == k.inodes
            && (forall j: nat, m :: Live(k, j) ==> T(st', j, m) == T(k, j, m)) && st'.blockMap == k.blockMap
            && st'.start == st.start && |st'.blocks| == |st.blocks|
  {
    hide Target, Owned, Padded, Ent, SetDirBlock, Contents, Shape, TreeInv, DirPointers, DirBlock, OneEntryBut, OthersSame;
    var st' := SetDirBlock(k, d, b');
    KilledDir(st, w, k, c, d);
    KilledTargets(st, k, c);
    SetDirBlockOk(k, ow, d, b');
    RemoveEntries(st, w, k, st', d, s, c, b');
    assert E(st', d, s) == Ent(b', s);
    forall j: nat | j != c ensures SameInode(st, st', j) {
      if LiveDir(st, j) { KilledDir(st, w, k, c, j); DirPointersSame(k, st', j); }
    }
  }

  lemma RemoveKeeps(st: Store, k: Store, st': Store, d: nat, c: nat)
    requires Killed(st, k, c) && MapOk(st) && Shapes(st) && LiveDir(st, d) && d != c
    requires OthersSame(k, st', d) && st'.inodes == k.inodes
    requires forall j: nat, m :: Live(k, j) ==> T(st', j, m) == T(k, j, m)
    ensures MapOk(st') && Shapes(st') && NodesKept(st, st', c)
  {
    hide Target, Contents, Shape;
    KilledTargets(st, k, c);
    forall j: nat | Live(k, j) ensures Shape(st', j) {
      assert Shape(st, j);
      ShapeSame(k, st', j);
    }
    forall j: nat | Live(st, j) && j != c ensures NodeOf(st', j) == NodeOf(st, j) {
      assert Shape(st, j);
      if j != d { OthersContents(k, st', d, j); }
    }
  }

  /** The directory, slot and inode a path that resolves stands for. */
  lemma EntryOf(st: Store, w: Wit, p: Path) returns (d: nat, s: nat, c: nat)
    requires InvW(st, w) && p != [] && Resolve(st, 1, p) >= 0
    ensures c == Resolve(st, 1, p) && d == ParentOf(st, 1, p) && Walk(st, Init(p)) == d
    ensures LiveDir(st, d) && Live(st, c) && d != c && c > 1
    ensures s == Scan(DirBlock(st, d), Named(Last(p)), 0) == Scan(DirBlock(st, d), OfInode(c), 0)
    ensures s < 32 && E(st, d, s).valid && E(st, d, s).inode == c && E(st, d, s).name == Last(p)
    ensures E(st, d, s).isDir == st.inodes[c].isDir && Padded(DirBlock(st, d), s)
  {
    hide TreeInv, Walk, Resolve, Owned, Shapes, Lookup, Padded, E;
    c := Resolved(st, w, p);
    var e := ParentIs(st, w, p);
    d := e;
    s := Scan(DirBlock(st, d), Named(Last(p)), 0);
    InodeScanHitsEntry(st, w, d, Last(p));
    EntryFacts(st, w, d, s);
  }

  lemma EntryFacts(st: Store, w: Wit, d: nat, s: nat)
    requires TreeInv(st, w) && LiveDir(st, d) && s < 32 && E(st, d, s).valid
    ensures var e := E(st, d, s);
            d != e.inode && Live(st, e.inode) && e.inode > 1 && e.isDir == st.inodes[e.inode].isDir && Padded(DirBlock(st, d), s)
  {
    hide Padded, NameOk, DirPointers, UniqueNames, FirstFit, Placed, RootOk, E;
    assert DirOk(st, w, d);
    assert EntryOk(st, w, d, s);
  }

  /** Taking an entry and its inode out. */
  lemma RemoveMeets(st: Store, w: Wit, k: Store, p: Path, d: nat, s: nat, c: nat, b': Block) returns (w': Wit)
    requires InvW(st, w) && Killed(st, k, c) && Good(k, Without(w.ow, c)) && p != []
    requires LiveDir(st, d) && d != c && s < 32 && E(st, d, s).valid && E(st, d, s).inode == c && Live(st, c) && c > 1
    requires E(st, d, s).name == Last(p) && Walk(st, Init(p)) == d
    requires Cleared(DirBlock(st, d), b', s, c)
    requires st.inodes[c].isDir ==> forall t :: 0 <= t < 32 ==> !E(st, c, t).valid
    ensures var st' := SetDirBlock(k, d, b');
            && InvW(st', w') && w'.ow == Without(w.ow, c) && st'.blockMap == k.blockMap
            && p in TreeOf(st) && TreeOf(st') == TreeOf(st) - {p}
            && st'.start == st.start && |st'.blocks| == |st.blocks|
  {
    hide Target, Owned, Cleared, Removed, SetDirBlock, TreeInv, OthersSame, Shapes, TreeOf, NodesKept, Walk, E, Without, RemovedWit;
    var ow' := Without(w.ow, c);
    var st' := SetDirBlock(k, d, b');
    RemoveCompletes(st, w, k, ow', d, s, c, b');
    RemoveKeeps(st, k, st', d, c);
    RemovedTree(st, st', w, ow', d, s, c);
    w' := Wit(ow', w.par - {c}, w.depth);
    assert w' == RemovedWit(w, ow', c) by { RemovedWitIs(w, ow', c); }
    assert Init(p) + [Last(p)] == p;
    RemovedTreeOf(st, st', w, w', d, s, c, Init(p));
  }

  lemma RemovedWitIs(w: Wit, ow: Owners, c: nat)
    ensures RemovedWit(w, ow, c) == Wit(ow, w.par - {c}, w.depth)
  {
  }

  // ---- unlink ----

  /** The store of fs_unlink between the truncation and the entry update. */
  function Unlinked(st: Store, c: nat): Store
    requires c < |st.inodes| && c < |st.inodeMap|
  {
    var t := TruncFile(st, c);
    WithInode(t, c, false, t.inodes[c].(size := 0))
  }

  lemma UnlinkedKilled(st: Store, ow: Owners, c: nat)
    requires Good(st, ow) && Live(st, c) && Shape(st, c)
    ensures Killed(st, Unlinked(st, c), c) && Good(Unlinked(st, c), Without(ow, c))
    ensures |Unlinked(st, c).blockMap| == |st.blockMap|
    ensures forall x :: 0 <= x < |st.blockMap| ==> Unlinked(st, c).blockMap[x] == (st.blockMap[x] && !Released(ow, c, x))
  {
    hide Target, Owned, TruncBits, ClearDirect, Shape;
    var k := Unlinked(st, c);
    forall x | 0 <= x < |st.blockMap|
      ensures k.blockMap[x] == (st.blockMap[x] && !Released(ow, c, x))
    {
      TruncBitsAt(st, ow, c, x);
    }
    KillGood(st, ow, c, k);
  }

  lemma InvalidateClears(b: Block, s: nat, c: nat)
    requires s < 32 && Ent(b, s).inode == c
    ensures Cleared(b, Invalidate(b, s), s, c)
  {
    hide Ent, Padded, Invalidate;
    EntInvalidate(b, s);
  }

  /** After the truncation the parent directory is still found. */
  lemma TruncSameParent(st: Store, w: Wit, c: nat, p: Path)
    requires InvW(st, w) && Live(st, c) && !st.inodes[c].isDir && c > 1 && p != []
    ensures var t := TruncFile(st, c);
            && ParentOf(t, 1, p) == ParentOf(st, 1, p)
            && forall d: nat :: LiveDir(st, d) ==> DirBlock(t, d) == DirBlock(st, d)
  {
    hide Target, Owned, TruncFile, TreeInv, Walk, ParentOf, DirBlock;
    var t := TruncFile(st, c);
    TruncOthers(st, c);
    FileOnlySameDirs(st, t, w, c);
    SameDirsTree(st, t, w, w.ow);
    ResolveIsWalk(st, w, p);
    ResolveIsWalk(t, w.(ow := w.ow), p);
    SameDirsWalk(st, t, w, Init(p));
    hide OthersSame;
    assert SameInode(st, t, 1);
    if Walk(st, Init(p)) >= 0 { WalkLive(st, w, Init(p)); assert SameInode(st, t, Walk(st, Init(p))); }
  }

  /** fs_unlink removes exactly the named file. */
  lemma UnlinkMeetsSpec(st: Store, w: Wit, p: Path) returns (w': Wit)
    requires Roomy(st) && InvW(st, w)
    ensures var r := Unlink(st, p);
            && InvW(r.st, w') && UnlinkSpec(TreeOf(st), p, r.rc, TreeOf(r.st))
            && (r.rc < 0 ==> r.st == st && w' == w)
            && (r.rc >= 0 ==> Resolve(st, 1, p) >= 0 && UnlinkBits(st, w, w', Resolve(st, 1, p), r.st))
  {
    hide InvW, TreeOf, Resolve, AbsWalk, UnlinkBits, TruncFile, ParentOf;
    w' := w;
    var i := Resolved(st, w, p);
    if i >= 0 && !InodeAt(st, i).isDir {
      PathNotRoot(st, w, p);
      w' := UnlinkCase(st, w, p);
    }
  }

  lemma PathNotRoot(st: Store, w: Wit, p: Path)
    requires InvW(st, w)
    ensures p == [] ==> Resolve(st, 1, p) == 1 && InodeAt(st, 1).isDir
  {
    hide DirOk, Placed, Owned, Shapes;
  }

  /** The block bitmap and owners after an unlink of inode c. */
  ghost predicate UnlinkBits(st: Store, w: Wit, w': Wit, c: nat, st': Store) {
    && st'.start == st.start && |st'.blocks| == |st.blocks|
    && |st'.blockMap| == |st.blockMap| && w'.ow == Without(w.ow, c)
    && forall x :: 0 <= x < |st.blockMap| ==> st'.blockMap[x] == (st.blockMap[x] && !Released(w.ow, c, x))
  }

  lemma UnlinkCase(st: Store, w: Wit, p: Path) returns (w': Wit)
    requires Roomy(st) && InvW(st, w) && p != []
    requires Resolve(st, 1, p) >= 0 && !InodeAt(st, Resolve(st, 1, p)).isDir
    ensures var r := Unlink(st, p);
            && r.rc == 0 && InvW(r.st, w') && p in TreeOf(st) && TreeOf(r.st) == TreeOf(st) - {p}
            && UnlinkBits(st, w, w', Resolve(st, 1, p), r.st)
  {
    hide InvW, TreeOf, Resolve, ParentOf, Walk, Scan, Cleared, Killed, UnlinkBits, Good, Shape, Unlinked, E, DirBlock, Unlink,
      Invalidate;
    var d, s, c := EntryOf(st, w, p);
    ShapeOf(st, w, c);
    UnlinkedKilled(st, w.ow, c);
    InvalidateClears(DirBlock(st, d), s, c);
    TruncSameParent(st, w, c, p);
    UnlinkIs(st, p, d, s, c);
    w' := RemoveMeets(st, w, Unlinked(st, c), p, d, s, c, Invalidate(DirBlock(st, d), s));
    UnlinkBitsNow(st, w, w', c, Unlink(st, p).st);
  }

  lemma UnlinkBitsNow(st: Store, w: Wit, w': Wit, c: nat, st': Store)
    requires st'.start == st.start && |st'.blocks| == |st.blocks|
    requires c < |st.inodes| && c < |st.inodeMap| && st'.blockMap == Unlinked(st, c).blockMap && w'.ow == Without(w.ow, c)
    requires |Unlinked(st, c).blockMap| == |st.blockMap|
    requires forall x :: 0 <= x < |st.blockMap| ==> Unlinked(st, c).blockMap[x] == (st.blockMap[x] && !Released(w.ow, c, x))
    ensures UnlinkBits(st, w, w', c, st')
  {
    hide TruncBits, ClearDirect, Released, Without;
  }

  lemma ShapeOf(st: Store, w: Wit, c: nat)
    requires InvW(st, w) && Live(st, c)
    ensures Shape(st, c) && Good(st, w.ow)
  {
    hide TreeInv, Owned, Shape;
  }

  /** The function Unlink computes what the two halves do. */
  lemma UnlinkIs(st: Store, p: Path, d: nat, s: nat, c: nat)
    requires Roomy(st) && p != [] && c == Resolve(st, 1, p) && c < |st.inodes| && c < |st.inodeMap| && st.inodeMap[c]
    requires !st.inodes[c].isDir && ParentOf(TruncFile(st, c), 1, p) == d
    requires DirBlock(TruncFile(st, c), d) == DirBlock(st, d)
    requires s == Scan(DirBlock(st, d), Named(Last(p)), 0) < 32
    requires E(st, d, s).inode == c && !E(st, d, s).isDir
    ensures Unlink(st, p) == Result(SetDirBlock(Unlinked(st, c), d, Invalidate(DirBlock(st, d), s)), 0)
  {
    hide Resolve, ParentOf, Scan, TruncFile, SetDirBlock, Invalidate;
    TruncMaps(st, c);
  }

  lemma TruncMaps(st: Store, c: nat)
    requires c < |st.inodes|
    ensures TruncFile(st, c).inodeMap == st.inodeMap && |TruncFile(st, c).inodes| == |st.inodes|
  {
  }

  // ---- rmdir ----

  function Rmdired(st: Store, c: nat): Store
    requires c < |st.inodes| && c < |st.inodeMap|
  {
    WithInode(st.(blockMap := FreeBit(st.blockMap, st.start, st.inodes[c].direct[0])), c, false, NoInode)
  }

  lemma RmdiredKilled(st: Store, ow: Owners, c: nat)
    requires Good(st, ow) && LiveDir(st, c) && DirPointers(st, c)
    ensures Killed(st, Rmdired(st, c), c) && Good(Rmdired(st, c), Without(ow, c))
  {
    DirBlockOwned(st, ow, c);
    hide Target, Owned;
    KillGood(st, ow, c, Rmdired(st, c));
  }

  lemma ClearEntClears(b: Block, s: nat, c: nat)
    requires s < 32
    ensures Cleared(b, ClearEnt(b, s), s, c)
  {
    hide Ent, Padded, ClearEnt;
    EntClearEnt(b, s);
  }

  /** A directory has a child exactly when a slot of its block is used. */
  lemma ChildIffUsed(st: Store, w: Wit, p: Path, c: nat)
    requires InvW(st, w) && Walk(st, p) == c && LiveDir(st, c)
    ensures HasChild(TreeOf(st), p) <==> Scan(DirBlock(st, c), Used, 0) < 32
  {
    hide TreeInv, Owned, Shapes, Walk, Scan, TreeOf, Lookup;
    var s := Scan(DirBlock(st, c), Used, 0);
    if s < 32 {
      UsedSlot(st, w, c);
      var n := E(st, c, s).name;
      WalkSnoc(st, p, n);
      InTree(st, w, p + [n]);
    }
    if HasChild(TreeOf(st), p) {
      var n: Name :| p + [n] in TreeOf(st);
      InTree(st, w, p + [n]);
      WalkSnoc(st, p, n);
      UsedByName(st, c, n);
    }
  }

  lemma UsedSlot(st: Store, w: Wit, c: nat)
    requires TreeInv(st, w) && LiveDir(st, c) && Scan(DirBlock(st, c), Used, 0) < 32
    ensures Lookup(st, c, E(st, c, Scan(DirBlock(st, c), Used, 0)).name) >= 0
  {
    hide EntryOk, FirstFit, DirPointers, Placed;
    assert DirOk(st, w, c);
    var s := Scan(DirBlock(st, c), Used, 0);
    LookupAt(st, c, s, E(st, c, s).name);
  }

  lemma UsedByName(st: Store, c: nat, n: Name)
    requires Lookup(st, c, n) >= 0
    ensures Scan(DirBlock(st, c), Used, 0) < 32
  {
    var s := Scan(DirBlock(st, c), Named(n), 0);
    assert Hit(Ent(DirBlock(st, c), s), Used);
  }

  lemma NoneUsed(st: Store, c: nat)
    requires Scan(DirBlock(st, c), Used, 0) == 32
    ensures forall t :: 0 <= t < 32 ==> !E(st, c, t).valid
  {
    hide Scan;
    forall t | 0 <= t < 32 ensures !E(st, c, t).valid {
      assert !Hit(Ent(DirBlock(st, c), t), Used);
    }
  }

  /** fs_rmdir removes exactly the named directory, if it is empty. */
  lemma RmdirMeetsSpec(st: Store, w: Wit, p: Path) returns (w': Wit)
    requires Sized(st) && InvW(st, w) && p != []
    ensures var r := Rmdir(st, p);
            && InvW(r.st, w') && RmdirSpec(TreeOf(st), p, r.rc, TreeOf(r.st))
            && (r.rc < 0 ==> r.st == st)
            && Sized(r.st) && Leaked(r.st, w'.ow) == Leaked(st, w.ow)
  {
    RoomToWrite(st, w);
    hide InvW, Leaked, TreeOf, Resolve, AbsWalk, ParentOf, HasChild, Scan, DirBlock;
    w' := w;
    var c := Resolved(st, w, p);
    if c >= 0 && InodeAt(st, c).isDir {
      ChildIffUsed(st, w, p, c);
      if Scan(DirBlock(st, c), Used, 0) == 32 {
        w' := RmdirCase(st, w, p);
      }
    }
  }

  lemma RmdirCase(st: Store, w: Wit, p: Path) returns (w': Wit)
    requires InvW(st, w) && p != []
    requires var c := Resolve(st, 1, p); c >= 0 && InodeAt(st, c).isDir && Scan(DirBlock(st, c), Used, 0) == 32
    ensures var r := Rmdir(st, p);
            && r.rc == 0 && InvW(r.st, w') && p in TreeOf(st) && TreeOf(r.st) == TreeOf(st) - {p}
            && Sized(r.st) && Sized(st) && Leaked(r.st, w'.ow) == Leaked(st, w.ow)
  {
    RoomToWrite(st, w);
    hide TreeInv, Owned, Shapes, Leaked, TreeOf, Resolve, ParentOf, Walk, Scan, Cleared, Killed, Without, DirPointers, Padded;
    var d, s, c := EntryOf(st, w, p);
    AllDirPointers(st, w);
    RmdiredKilled(st, w.ow, c);
    ClearEntClears(DirBlock(st, d), s, c);
    NoneUsed(st, c);
    RmdirIs(st, p, d, s, c);
    w' := RemoveMeets(st, w, Rmdired(st, c), p, d, s, c, ClearEnt(DirBlock(st, d), s));
    RmdirLeaks(st, w.ow, c, Rmdir(st, p).st);
  }

  /** A removed directory gives its only block back. */
  lemma RmdirLeaks(st: Store, ow: Owners, c: nat, st': Store)
    requires Good(st, ow) && LiveDir(st, c) && DirPointers(st, c)
    requires st'.blockMap == FreeBit(st.blockMap, st.start, st.inodes[c].direct[0])
    requires st'.start == st.start && |st'.blocks| == |st.blocks|
    ensures Sized(st') && Leaked(st', Without(ow, c)) == Leaked(st, ow)
  {
    DirBlockOwned(st, ow, c);
    hide Target;
    forall x | x in ow && ow[x].0 == c ensures x == st.inodes[c].direct[0] {
      assert T(st, c, ow[x].1) == x;
    }
  }

  lemma RmdirIs(st: Store, p: Path, d: nat, s: nat, c: nat)
    requires p != [] && c == Resolve(st, 1, p) && c < |st.inodes| && c < |st.inodeMap|
    requires st.inodes[c].isDir && ParentOf(st, 1, p) == d && Scan(DirBlock(st, c), Used, 0) == 32
    requires s == Scan(DirBlock(st, d), OfInode(c), 0) < 32
    ensures Rmdir(st, p) == Result(SetDirBlock(Rmdired(st, c), d, ClearEnt(DirBlock(st, d), s)), 0)
  {
    hide Resolve, ParentOf, Scan, SetDirBlock, ClearEnt, FreeBit;
  }

  // ---- rename ----

  lemma RenameCompletes(st: Store, w: Wit, d: nat, s: nat, n: Name)
    requires InvW(st, w) && LiveDir(st, d) && s < 32 && E(st, d, s).valid && Padded(DirBlock(st, d), s)
    requires NameOk(n) && NameOk(Overwritten(E(st, d, s).name, n)) && NoneNamed(st, d, Overwritten(E(st, d, s).name, n))
    ensures var st' := SetDirBlock(st, d, RenameEnt(DirBlock(st, d), s, n));
            && Good(st', w.ow) && Renamed(st, st', d, s, Overwritten(E(st, d, s).name, n)) && MapOk(st') && Shapes(st')
               && NodesKept(st, st', 0)
            && Sized(st) && Leaked(st', w.ow) == Leaked(st, w.ow)
  {
    hide Target, Owned, Ent, SetDirBlock, Contents, Shape, TreeInv, OthersSame, RenameEnt, Padded, NoneNamed;
    var b' := RenameEnt(DirBlock(st, d), s, n);
    var st' := SetDirBlock(st, d, b');
    AllDirPointers(st, w);
    SetDirBlockOk(st, w.ow, d, b');
    EntRenameEnt(DirBlock(st, d), s, n);
    SameShapes(st, st');
    hide DirBlock;
    forall e: nat, t | LiveDir(st, e) && 0 <= t < 32 && (e, t) != (d, s) ensures EntrySame(st, st', e, t) {
      if e != d { OtherDirBlock(st, st', d, e); }
    }
    forall j: nat ensures SameInode(st, st', j) {
      if LiveDir(st, j) { DirPointersSame(st, st', j); }
    }
    forall j: nat | Live(st, j) && j != 0 ensures NodeOf(st', j) == NodeOf(st, j) {
      assert Shape(st, j);
      if j != d { OthersContents(st, st', d, j); }
    }
  }

  /** Both paths have the same parent exactly when their prefixes are equal. */
  lemma SameParent(st: Store, w: Wit, p: Path, q: Path)
    requires InvW(st, w) && p != [] && q != [] && Resolve(st, 1, p) >= 0
    ensures ParentOf(st, 1, p) == ParentOf(st, 1, q) <==> Init(p) == Init(q)
  {
    hide TreeInv, Owned, Shapes, Walk, Resolve, ParentOf;
    var d := ParentIs(st, w, p);
    var e := ParentIs(st, w, q);
    if d == e { WalkInjective(st, w, Init(p), Init(q)); }
  }

  /** fs_rename within a directory, to a name not shorter than the old one. */
  lemma RenameMeetsSpec(st: Store, w: Wit, p: Path, q: Path) returns (w': Wit)
    requires Sized(st) && InvW(st, w) && p != [] && q != [] && NameOk(Last(q)) && |Last(q)| >= |Last(p)|
    ensures var r := Rename(st, p, q);
            && InvW(r.st, w') && RenameSpec(TreeOf(st), p, q, r.rc, TreeOf(r.st))
            && (r.rc < 0 ==> r.st == st)
            && Sized(r.st) && Leaked(r.st, w'.ow) == Leaked(st, w.ow)
  {
    hide InvW, Leaked, TreeOf, Resolve, AbsWalk, ParentOf, Moved, Scan, DirBlock, NameOk, RenameEnt;
    w' := w;
    var c := Resolved(st, w, p);
    if c >= 0 {
      SameParent(st, w, p, q);
      var d := ParentIs(st, w, p);
      if Init(p) == Init(q) && Scan(DirBlock(st, d), AnyNamed(Last(q)), 0) == 32 {
        DstFree(st, w, p, q);
        assert Init(p) + [Last(q)] == q;
        w' := RenameCase(st, w, p, q);
      }
    }
  }

  lemma NotAnyNamed(st: Store, d: nat, n: Name)
    requires Scan(DirBlock(st, d), AnyNamed(n), 0) == 32
    ensures NoneNamed(st, d, n)
  {
    hide Scan;
    forall t | 0 <= t < 32 ensures !(E(st, d, t).valid && E(st, d, t).name == n) {
      assert !Hit(Ent(DirBlock(st, d), t), AnyNamed(n));
    }
  }

  /** Past the clash test the destination is not in the tree. */
  lemma DstFree(st: Store, w: Wit, p: Path, q: Path)
    requires InvW(st, w) && p != [] && q != [] && Init(p) == Init(q) && Resolve(st, 1, p) >= 0
    requires ParentOf(st, 1, p) >= 0 && Scan(DirBlock(st, ParentOf(st, 1, p)), AnyNamed(Last(q)), 0) == 32
    ensures q !in TreeOf(st)
  {
    hide InvW, TreeOf, Resolve, ParentOf, Walk, Scan, NoneNamed, DirBlock, E, Padded;
    var d, s, c := EntryOf(st, w, p);
    NotAnyNamed(st, d, Last(q));
    NameFree(st, w, p, d, Last(q));
    Rejoined(q);
  }

  lemma NameFree(st: Store, w: Wit, p: Path, d: nat, n: Name)
    requires InvW(st, w) && p != [] && Walk(st, Init(p)) == d && LiveDir(st, d)
    ensures NoneNamed(st, d, n) <==> Init(p) + [n] !in TreeOf(st)
  {
    hide TreeInv, Owned, Shapes, TreeOf, Walk, NoneNamed, DirBlock, Lookup;
    LookupNone(st, d, n);
    WalkSnoc(st, Init(p), n);
    InTree(st, w, Init(p) + [n]);
  }

  lemma SlotNameOk(st: Store, w: Wit, d: nat, s: nat)
    requires TreeInv(st, w) && LiveDir(st, d) && s < 32 && E(st, d, s).valid
    ensures NameOk(E(st, d, s).name)
  {
    hide Padded, DirPointers, UniqueNames, FirstFit, Placed, RootOk, E;
    assert EntryOk(st, w, d, s);
  }

  lemma ShortName(n: Name)
    requires NameOk(n)
    ensures 0 < |n| < 26
  {
  }

  lemma OverwrittenOk(o: Name, n: Name)
    requires NameOk(o) && NameOk(n)
    ensures NameOk(Overwritten(o, n))
  {
  }

  /** A rename that goes through moves the subtree to the name the slot then holds. */
  lemma RenameCase(st: Store, w: Wit, p: Path, q: Path) returns (w': Wit)
    requires InvW(st, w) && p != [] && q != [] && NameOk(Last(q)) && Init(p) == Init(q)
    requires Resolve(st, 1, p) >= 0 && ParentOf(st, 1, p) == ParentOf(st, 1, q) >= 0
    requires Scan(DirBlock(st, ParentOf(st, 1, p)), AnyNamed(Last(q)), 0) == 32
    requires Init(p) + [Overwritten(Last(p), Last(q))] !in TreeOf(st)
    ensures var r := Rename(st, p, q);
            && r.rc == 0 && InvW(r.st, w')
            && TreeOf(r.st) == Moved(TreeOf(st), Init(p), Last(p), Overwritten(Last(p), Last(q)))
            && Sized(r.st) && Sized(st) && Leaked(r.st, w'.ow) == Leaked(st, w.ow)
  {
    hide Leaked, TreeInv, Owned, Shapes, TreeOf, Resolve, ParentOf, Walk, Scan, Renamed, Moved, NoneNamed, RenameEnt,
      SetDirBlock, Padded, DirBlock, NameOk, Overwritten;
    var d, s, c := EntryOf(st, w, p);
    var m := Overwritten(Last(p), Last(q));
    NameFree(st, w, p, d, m);
    SlotNameOk(st, w, d, s);
    OverwrittenOk(Last(p), Last(q));
    ShortName(Last(q));
    RenameCompletes(st, w, d, s, Last(q));
    var st' := SetDirBlock(st, d, RenameEnt(DirBlock(st, d), s, Last(q)));
    RenamedTree(st, st', w, w.ow, d, s, m);
    w' := w.(ow := w.ow);
    RenamedTreeOf(st, st', w, w', d, s, m, Init(p));
    RenameStores(st, p, q, d, s, c);
  }

  lemma RenameStores(st: Store, p: Path, q: Path, d: nat, s: nat, c: nat)
    requires p != [] && q != [] && NameOk(Last(q)) && ParentOf(st, 1, p) == ParentOf(st, 1, q) == d && Resolve(st, 1, p) == c
    requires Scan(DirBlock(st, d), AnyNamed(Last(q)), 0) == 32 && Scan(DirBlock(st, d), OfInode(c), 0) == s < 32
    ensures Rename(st, p, q) == Result(SetDirBlock(st, d, RenameEnt(DirBlock(st, d), s, Last(q))), 0)
  {
    hide Resolve, ParentOf, Scan, SetDirBlock, RenameEnt, DirBlock;
  }
}
