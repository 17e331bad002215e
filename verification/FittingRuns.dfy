/** Whole runs with the free blocks counted: which creates and appends run out of
    space, exactly. */
module FittingRuns {
  import opened Layout
  import opened State
  import opened FileWrite
  import opened WriteProofs
  import opened WriteCost
  import opened Crash
  import O = Ops
  import opened Tree
  import opened OpProofs
  import opened TruncProofs
  import opened Spec
  import opened OpTheorems
  import opened Accounts
  import opened Runs
  import opened CarefulRuns
  import opened CopyProofs
  import opened Capacity
  import opened Witnesses
  import R = StaleRun
  import F = FileSystem
  import C = CrashRemovals
  import Device
  import Mkfs

  // ---- what a call does to the tree and the number of free blocks ----

  ghost predicate CreateExact(t: AbsTree, free: int, p: O.Path, isDir: bool, rc: int, free': int)
    requires p != []
  {
    && (rc == ENOSPC <==> AbsEnter(t, Init(p)) >= 0 && p !in t && (InodesFull(t) || DirFull(t, Init(p)) || (isDir && free == 0)))
    && free' == if rc == 0 && isDir then free - 1 else free
  }

  ghost predicate AppendExact(t: AbsTree, free: int, p: O.Path, data: seq<byte>, off: nat, rc: int, t': AbsTree, free': int) {
    if !IsFile(t, p) || off > |t[p].bytes| then free' == free
    else
      var bytes, price := t[p].bytes, Price(|t[p].bytes|, |t[p].bytes| + |data|);
      && (rc == ENOSPC <==> price > free)
      && (rc != ENOSPC ==> rc == |data| && free' == free - price)
      && (rc == ENOSPC ==> TreePrefix(t', t, p, bytes, data, free + TotalBlocks(DataBlocks(|bytes|))))
  }

  /** What a file without spare blocks gives back when it is unlinked. */
  function Returned(n: nat): int { TotalBlocks(DataBlocks(n)) - StrandedBlocks(DataBlocks(n)) }

  /** The answer a and the effect of op on a tree with so many free blocks. */
  ghost predicate Exact(t: AbsTree, free: int, op: Op, a: Reply, t': AbsTree, free': int) {
    && AbsStep(t, op, a, t')
    && match op
       case Mknod(p) => a.Rc? && CreateExact(t, free, p, false, a.rc, free')
       case Mkdir(p) => a.Rc? && CreateExact(t, free, p, true, a.rc, free')
       case Append(p, data, off) => a.Rc? && AppendExact(t, free, p, data, off, a.rc, t', free')
       case Unlink(p) => a.Rc? && free' == free + if a.rc == 0 && IsFile(t, p) then Returned(|t[p].bytes|) else 0
       case Rmdir(p) => a.Rc? && free' == free + if a.rc == 0 then 1 else 0
       case _ => free' == free
  }

  /** Appends of some bytes, within the maximal size. */
  ghost predicate Countable(t: AbsTree, op: Op) {
    op.Append? && IsFile(t, op.path) && op.off <= |t[op.path].bytes| ==>
      op.data != [] && |t[op.path].bytes| + |op.data| <= MAX_BYTES
  }

  predicate RanOut(op: Op, a: Reply) { op.Append? && a == Rc(ENOSPC) }

  /** The abstract run with the free blocks counted.  Once an append has run out
      of space, or adds nothing, a file may have spare blocks and the count ends:
      from there on it is the run without it. */
  ghost predicate CountedRun(t: AbsTree, free: int, ops: seq<Op>, replies: seq<Reply>, t': AbsTree)
    decreases |ops|
  {
    if ops == [] || replies == [] || !Countable(t, ops[0]) then AbsRun(t, ops, replies, t')
    else exists m: AbsTree, free': int ::
      && Exact(t, free, ops[0], replies[0], m, free')
      && if RanOut(ops[0], replies[0]) then AbsRun(m, ops[1..], replies[1..], t')
         else CountedRun(m, free', ops[1..], replies[1..], t')
  }

  // ---- one call ----

  /** No file has spare blocks, and only the first 64 inodes are in use. */
  ghost predicate Snug(st: Store) {
    LowInodes(st) && forall j: nat :: Live(st, j) && !st.inodes[j].isDir ==> Tight(st, j)
  }

  /** Files other than c are as they were, and c, if it is one, has no spare blocks. */
  lemma SnugKept(st: Store, st': Store, c: nat)
    requires Snug(st) && LowInodes(st')
    requires forall j: nat :: Live(st', j) && !st'.inodes[j].isDir && j != c ==> R.FileKept(st, st', j) && !st.inodes[j].isDir
    requires Live(st', c) && !st'.inodes[c].isDir ==> Tight(st', c)
    ensures Snug(st')
  {
    hide Target;
    forall j: nat | Live(st', j) && !st'.inodes[j].isDir && j != c ensures Tight(st', j) {
      assert R.FileKept(st, st', j);
      assert Tight(st, j);
    }
  }

  // ---- create ----

  lemma MknodSnug(st: Store, w: Wit, p: O.Path, isDir: bool)
    requires O.Roomy(st) && InvW(st, w) && Snug(st) && p != [] && NameOk(O.Last(p)) && O.Mknod(st, p, isDir).rc == 0
    ensures var st' := O.Mknod(st, p, isDir).st;
            Snug(st') && Sized(st') && Sized(st) && FreeBlocks(st') == FreeBlocks(st) - if isDir then 1 else 0
  {
    hide InvW, O.Mknod, NameOk, O.Create, Walk, R.FilesKept, R.WalksKept, PutEnt, O.Scan, O.DirBlock, Tight, FirstFree, FreeBlocks;
    var w', d, s, i, b := R.CreateStep(st, w, p, isDir);
    CreateFields(st, d, s, i, b, O.Last(p), isDir);
    var st' := O.Mknod(st, p, isDir).st;
    if isDir { FreeTaken(st, st', b); } else { FreeSame(st, st'); }
    forall j: nat | Live(st', j) && !st'.inodes[j].isDir && j != i ensures R.FileKept(st, st', j) && !st.inodes[j].isDir {
      R.KeptOne(st, st', i, j);
    }
    if !isDir { NewTight(st, p, i); }
    SnugKept(st, st', i);
  }

  lemma NewTight(st: Store, p: O.Path, i: nat)
    requires O.Roomy(st) && Inv(st) && p != [] && NameOk(O.Last(p)) && O.Mknod(st, p, false).rc == 0
    requires Walk(O.Mknod(st, p, false).st, p) == i && i < |O.Mknod(st, p, false).st.inodes|
    ensures Tight(O.Mknod(st, p, false).st, i)
  {
    hide InvW, O.Mknod, NameOk, O.Resolve, Tight, Walk, TreeOf;
    MknodHolds(st, p, 0);
    var st' := O.Mknod(st, p, false).st;
    var w' :| InvW(st', w');
    var r := Resolved(st', w', p);
  }

  lemma FreeSame(st: Store, st': Store)
    requires Sized(st) && st'.blockMap == st.blockMap && st'.start == st.start && |st'.blocks| == |st.blocks|
    ensures Sized(st') && FreeBlocks(st') == FreeBlocks(st)
  {
  }

  lemma FreeTaken(st: Store, st': Store, b: nat)
    requires Sized(st) && b == FirstFree(st.blockMap, st.start, |st.blocks|) < |st.blocks|
    requires st'.blockMap == st.blockMap[b := true] && st'.start == st.start && |st'.blocks| == |st.blocks|
    ensures Sized(st') && FreeBlocks(st') == FreeBlocks(st) - 1
  {
    CountTake(st.blockMap, st.start, |st.blocks|);
  }

  lemma NoneFree(st: Store)
    requires Sized(st)
    ensures FreeBlocks(st) == 0 <==> forall b :: st.start <= b < |st.blocks| ==> st.blockMap[b]
  {
    CountTake(st.blockMap, st.start, |st.blocks|);
    var f := FirstFree(st.blockMap, st.start, |st.blocks|);
    hide CountFree;
  }

  lemma CreateFails(st: Store, p: O.Path, isDir: bool)
    requires O.Roomy(st) && p != [] && NameOk(O.Last(p)) && O.Mknod(st, p, isDir).rc != 0
    ensures O.Mknod(st, p, isDir).st == st
  {
    hide O.Resolve, O.ParentOf, O.Scan, O.Create, O.DirBlock, FirstFree, NameOk, F.MknodWrites;
    F.MknodIs(st, p, isDir);
  }

  lemma SnugLow(st: Store)
    requires Snug(st)
    ensures LowInodes(st)
  {
  }

  lemma MknodExact(st: Store, w: Wit, p: O.Path, isDir: bool)
    requires O.Roomy(st) && InvW(st, w) && Snug(st) && p != [] && NameOk(O.Last(p))
    ensures var r := O.Mknod(st, p, isDir);
            && Sized(st) && Sized(r.st) && Snug(r.st)
            && CreateExact(TreeOf(st), FreeBlocks(st), p, isDir, r.rc, FreeBlocks(r.st))
  {
    hide InvW, O.Mknod, NameOk, TreeOf, Walk, FreeBlocks, Snug, InodesFull, DirFull, AbsEnter, O.ParentOf, O.E;
    var r := O.Mknod(st, p, isDir);
    var w' := MknodMeetsSpec(st, w, p, isDir);
    if r.rc != 0 { CreateFails(st, p, isDir); }
    if r.rc == 0 { MknodSnug(st, w, p, isDir); }
    if AbsEnter(TreeOf(st), Init(p)) >= 0 && p !in TreeOf(st) {
      MknodFullIff(st, w, p, isDir);
      var d := ParentIs(st, w, p);
      DirFullIff(st, w, d, Init(p));
      SnugLow(st);
      InodesFullIff(st, w);
      NoneFree(st);
    } else {
      EnterCodes(st, w, p);
    }
  }

  lemma EnterCodes(st: Store, w: Wit, p: O.Path)
    requires InvW(st, w) && p != []
    ensures AbsEnter(TreeOf(st), Init(p)) >= 0 || AbsEnter(TreeOf(st), Init(p)) in {O.ENOENT, O.ENOTDIR}
  {
    hide TreeInv, TreeOf, Walk, Owned, Shapes, AbsEnter;
    var d := ParentIs(st, w, p);
    WalkLive(st, w, Init(p));
  }

  // ---- truncate, unlink, rmdir ----

  lemma TruncateExact(st: Store, w: Wit, p: O.Path, len: int)
    requires O.Roomy(st) && InvW(st, w) && Snug(st) && TruncateOk(st, p, len)
    ensures var r := O.Truncate(st, p, len); Sized(st) && Sized(r.st) && Snug(r.st) && FreeBlocks(r.st) == FreeBlocks(st)
  {
    hide InvW, TreeOf, O.Resolve, FreeBlocks, O.TruncFile, Tight;
    var w' := TruncateMeetsSpec(st, w, p, len);
    var r := O.Truncate(st, p, len);
    if r.rc >= 0 {
      var c := Resolved(st, w, p);
      FreeSame(st, r.st);
      ShapeOf(st, w, c);
      CutSnug(st, c);
    }
  }

  lemma CutSnug(st: Store, c: nat)
    requires Live(st, c) && Shape(st, c) && Snug(st) && !st.inodes[c].isDir && st.inodes[c].indir1 == 0
    ensures Snug(O.TruncFile(st, c))
  {
    hide Target, O.TruncBits, O.ClearDirect;
    var t := O.TruncFile(st, c);
    assert Tight(st, c);
    IndirectNone(st, c);
    forall m | LocOk(m) ensures T(t, c, m) == 0 { C.TruncPointers(st, c, m); }
    forall j: nat | Live(st, j) && j != c ensures R.FileKept(st, t, j) { }
    SnugKept(st, t, c);
  }

  lemma IndirectNone(st: Store, c: nat)
    requires c < |st.inodes| && Tight(st, c) && st.inodes[c].indir1 == 0
    ensures st.inodes[c].size <= 6 * 1024
  {
    assert T(st, c, Ind1) == st.inodes[c].indir1;
  }

  /** Taking file or directory c out leaves the others without spare blocks. */
  lemma GoneSnug(st: Store, w: Wit, k: Store, d: nat, s: nat, c: nat, b': Block)
    requires InvW(st, w) && Snug(st) && Killed(st, k, c) && Good(k, Without(w.ow, c))
    requires LiveDir(st, d) && d != c && s < 32 && O.E(st, d, s).valid && O.E(st, d, s).inode == c && Live(st, c) && c > 1
    requires Cleared(O.DirBlock(st, d), b', s, c)
    requires st.inodes[c].isDir ==> R.NoneValid(st, c)
    ensures Snug(O.SetDirBlock(k, d, b'))
  {
    hide InvW, Cleared, Tight, O.E, Without, O.DirBlock, Good, R.FileKept;
    R.RemoveKeeps(st, w, k, d, s, c, b');
    var st' := O.SetDirBlock(k, d, b');
    assert st'.inodeMap == st.inodeMap[c := false] && st'.inodes == k.inodes;
    forall j: nat | Live(st', j) && !st'.inodes[j].isDir && j != c ensures R.FileKept(st, st', j) && !st.inodes[j].isDir {
      R.KeptOne(st, st', c, j);
    }
    SnugKept(st, st', c);
  }

  lemma UnlinkSnug(st: Store, w: Wit, p: O.Path, c: nat)
    requires O.Roomy(st) && InvW(st, w) && Snug(st) && p != [] && O.Resolve(st, 1, p) == c && Live(st, c) && !st.inodes[c].isDir
    ensures Snug(O.Unlink(st, p).st)
  {
    hide InvW, O.Unlink, O.Resolve, O.ParentOf, O.Scan, O.DirBlock, Invalidate, Cleared, Killed, Without, O.SetDirBlock,
      Unlinked, O.E, Walk, Snug, Shape, Padded, Good;
    var d, s, g := EntryOf(st, w, p);
    ShapeOf(st, w, c);
    InvGood(st, w);
    UnlinkedKilled(st, w.ow, c);
    InvalidateClears(O.DirBlock(st, d), s, c);
    TruncSameParent(st, w, c, p);
    UnlinkIs(st, p, d, s, c);
    GoneSnug(st, w, Unlinked(st, c), d, s, c, Invalidate(O.DirBlock(st, d), s));
  }

  lemma UnlinkExact(st: Store, w: Wit, p: O.Path)
    requires O.Roomy(st) && InvW(st, w) && Snug(st)
    ensures var r, t := O.Unlink(st, p), TreeOf(st);
            && Sized(st) && Sized(r.st) && Snug(r.st)
            && FreeBlocks(r.st) == FreeBlocks(st) + if r.rc == 0 && IsFile(t, p) then Returned(|t[p].bytes|) else 0
  {
    hide InvW, TreeOf, O.Resolve, FreeBlocks, O.Unlink, Snug, Returned, UnlinkSpec, UnlinkBits, Good;
    var w' := UnlinkMeetsSpec(st, w, p);
    var r := O.Unlink(st, p);
    InvGood(st, w);
    InvGood(r.st, w');
    var c := FileAt(st, w, p);
    var x := Resolved(st, w, p);
    PathNotRoot(st, w, p);
    if r.rc >= 0 {
      UnlinkNamesFile(TreeOf(st), p, r.rc, TreeOf(r.st));
      SnugTight(st, c);
      UnlinkReturns(st, w, w', c, r.st);
      UnlinkSnug(st, w, p, c);
      ReturnedIs(st.inodes[c].size);
    }
  }

  lemma ReturnedIs(n: nat)
    ensures Returned(n) == TotalBlocks(DataBlocks(n)) - StrandedBlocks(DataBlocks(n))
  {
    hide TotalBlocks, StrandedBlocks, DataBlocks;
  }

  lemma UnlinkNamesFile(t: AbsTree, p: O.Path, rc: int, t': AbsTree)
    requires UnlinkSpec(t, p, rc, t') && rc >= 0 && p in t
    ensures t[p].FileNode? && rc == 0
  {
  }

  lemma SnugTight(st: Store, c: nat)
    requires Snug(st) && Live(st, c) && !st.inodes[c].isDir
    ensures Tight(st, c)
  {
    hide Tight;
  }

  lemma FreedOne(st: Store, st': Store, b: nat)
    requires Sized(st) && st.start <= b < |st.blocks| && st.blockMap[b]
    requires st'.blockMap == st.blockMap[b := false] && st'.start == st.start && |st'.blocks| == |st.blocks|
    ensures Sized(st') && FreeBlocks(st') == FreeBlocks(st) + 1
  {
    FreedCount(st.blockMap, st.start, |st.blocks|, b);
  }

  lemma {:induction false} FreedCount(bm: seq<bool>, i: nat, n: nat, b: nat)
    requires i <= b < n <= |bm| && bm[b]
    ensures CountFree(bm[b := false], i, n) == CountFree(bm, i, n) + 1
    decreases n - i
  {
    if i == b { CountSame(bm, bm[b := false], i + 1, n); } else { FreedCount(bm, i + 1, n, b); }
  }

  lemma RmdirSnug(st: Store, w: Wit, p: O.Path)
    requires O.Roomy(st) && InvW(st, w) && Snug(st) && p != [] && O.Rmdir(st, p).rc == 0
    ensures var st' := O.Rmdir(st, p).st; Snug(st') && Sized(st) && Sized(st') && FreeBlocks(st') == FreeBlocks(st) + 1
  {
    hide InvW, O.Rmdir, O.Resolve, O.ParentOf, O.Scan, O.DirBlock, ClearEnt, Cleared, Killed, Without, O.SetDirBlock, Rmdired,
      O.E, Walk, Snug, Padded, Good, DirPointers, FreeBlocks;
    RmdirGone(st, p);
    InvGood(st, w);
    var d, s, c := EntryOf(st, w, p);
    R2(st, w, c);
    RmdiredKilled(st, w.ow, c);
    ClearEntClears(O.DirBlock(st, d), s, c);
    NoneUsed(st, c);
    RmdirIs(st, p, d, s, c);
    GoneSnug(st, w, Rmdired(st, c), d, s, c, ClearEnt(O.DirBlock(st, d), s));
    DirPlace(st, w, c);
    var b := st.inodes[c].direct[0];
    RmdiredMap(st, c, d, ClearEnt(O.DirBlock(st, d), s));
    FreedOne(st, O.Rmdir(st, p).st, b);
  }

  lemma RmdirGone(st: Store, p: O.Path)
    requires p != [] && O.Rmdir(st, p).rc == 0
    ensures var c := O.Resolve(st, 1, p); c >= 0 && O.InodeAt(st, c).isDir && O.Scan(O.DirBlock(st, c), O.Used, 0) == 32
  {
    hide O.Resolve, O.ParentOf, O.Scan, O.DirBlock, O.SetDirBlock, ClearEnt;
  }

  lemma R2(st: Store, w: Wit, c: nat)
    requires InvW(st, w) && Live(st, c)
    ensures st.inodes[c].isDir ==> DirPointers(st, c)
  {
    hide Shapes, Owned, DirPointers;
    if st.inodes[c].isDir { AllDirPointers(st, w); }
  }

  lemma DirPlace(st: Store, w: Wit, c: nat)
    requires InvW(st, w) && LiveDir(st, c)
    ensures st.start <= st.inodes[c].direct[0] < |st.blocks| <= |st.blockMap| && st.blockMap[st.inodes[c].direct[0]]
  {
    hide TreeInv, Shapes, Target;
    R2(st, w, c);
    assert T(st, c, Data(0)) == st.inodes[c].direct[0] by { InodePointers(st, c); }
    assert T(st, c, Data(0)) != 0 by { hide T; }
  }

  lemma RmdiredMap(st: Store, c: nat, d: nat, b': Block)
    requires c < |st.inodes| && c < |st.inodeMap| && st.start <= st.inodes[c].direct[0] < |st.blockMap|
    ensures var st' := O.SetDirBlock(Rmdired(st, c), d, b');
            && st'.blockMap == st.blockMap[st.inodes[c].direct[0] := false] && st'.start == st.start && |st'.blocks| == |st.blocks|
  {
  }

  lemma RmdirExact(st: Store, w: Wit, p: O.Path)
    requires O.Roomy(st) && InvW(st, w) && Snug(st) && p != []
    ensures var r := O.Rmdir(st, p);
            && Sized(st) && Sized(r.st) && Snug(r.st) && FreeBlocks(r.st) == FreeBlocks(st) + if r.rc == 0 then 1 else 0
  {
    hide InvW, TreeOf, O.Resolve, FreeBlocks, O.Rmdir, Snug, RmdirSpec, Good;
    InvGood(st, w);
    var w' := RmdirMeetsSpec(st, w, p);
    var r := O.Rmdir(st, p);
    if r.rc == 0 { RmdirSnug(st, w, p); }
    else { RmdirOther(st, p); }
  }

  lemma RmdirOther(st: Store, p: O.Path)
    requires p != [] && O.Rmdir(st, p).rc != 0
    ensures O.Rmdir(st, p).st == st
  {
    hide O.Resolve, O.ParentOf, O.Scan, O.DirBlock, O.SetDirBlock, ClearEnt;
  }

  // ---- rename ----

  lemma RenameExact(st: Store, w: Wit, p: O.Path, q: O.Path)
    requires O.Roomy(st) && InvW(st, w) && Snug(st) && p != [] && q != [] && NameOk(O.Last(q)) && |O.Last(q)| >= |O.Last(p)|
    ensures var r := O.Rename(st, p, q); Sized(st) && Sized(r.st) && Snug(r.st) && FreeBlocks(r.st) == FreeBlocks(st)
  {
    hide InvW, NameOk, FreeBlocks, Snug, O.Resolve, O.ParentOf, O.Scan, O.DirBlock, RenameEnt, Padded, O.E, O.SetDirBlock, Good;
    InvGood(st, w);
    if O.Rename(st, p, q).st != st {
      assert O.Resolve(st, 1, p) >= 0;
      var d, s, c := EntryOf(st, w, p);
      ShortName(O.Last(q));
      RenameStores(st, p, q, d, s, c);
      RewrittenSnug(st, w, d, RenameEnt(O.DirBlock(st, d), s, O.Last(q)));
    }
  }

  lemma RewrittenSnug(st: Store, w: Wit, d: nat, b: Block)
    requires InvW(st, w) && LiveDir(st, d) && Snug(st) && Sized(st)
    ensures var st' := O.SetDirBlock(st, d, b); Sized(st') && Snug(st') && FreeBlocks(st') == FreeBlocks(st)
  {
    hide TreeInv, Shapes, Owned, FreeBlocks, O.SetDirBlock, Tight, Target, Leaked, OthersSame;
    R2(st, w, d);
    SetDirBlockOk(st, w.ow, d, b);
    var st' := O.SetDirBlock(st, d, b);
    FreeSame(st, st');
    SnugKept(st, st', d);
  }

  // ---- append ----

  lemma WrittenSnug(st: Store, s: Store, i: nat)
    requires Snug(st) && Live(st, i) && OthersSame(st, s, i) && Tight(s, i)
    ensures Snug(s)
  {
    hide Target, Tight;
    OthersSizes(st, s, i);
    forall j: nat | Live(s, j) && !s.inodes[j].isDir && j != i ensures R.FileKept(st, s, j) && !st.inodes[j].isDir { }
    SnugKept(st, s, i);
  }

  lemma AppendExactly(st: Store, w: Wit, p: O.Path, data: seq<byte>, off: nat)
    requires O.Roomy(st) && InvW(st, w) && Snug(st) && AppendOk(st, O.Resolve(st, 1, p), data, off)
    requires Countable(TreeOf(st), Append(p, data, off))
    ensures var r := O.Write(st, p, data, off);
            && Sized(st) && Sized(r.st)
            && AppendExact(TreeOf(st), FreeBlocks(st), p, data, off, r.rc, TreeOf(r.st), FreeBlocks(r.st))
            && (r.rc != ENOSPC ==> Snug(r.st))
  {
    hide InvW, TreeOf, O.Resolve, FreeBlocks, Snug, WriteFile, Price, TotalBlocks, DataBlocks, Good, TreePrefix, WriteClean, Shape;
    InvGood(st, w);
    var i := FileAt(st, w, p);
    var x := Resolved(st, w, p);
    var t := TreeOf(st);
    if i >= 0 && !st.inodes[i].isDir && off <= st.inodes[i].size {
      SnugTight(st, i);
      AppendCounted(st, w, p, i, data);
      assert O.Write(st, p, data, off) == WriteFile(st, i, off, data);
    } else {
      AppendNothing(st, w, p, data, off);
    }
  }

  lemma AppendNothing(st: Store, w: Wit, p: O.Path, data: seq<byte>, off: nat)
    requires InvW(st, w) && Sized(st)
    requires var i := O.Resolve(st, 1, p); i < 0 || O.InodeAt(st, i).isDir || off > O.InodeAt(st, i).size
    ensures O.Write(st, p, data, off).st == st && (!IsFile(TreeOf(st), p) || off > |TreeOf(st)[p].bytes|)
  {
    hide InvW, TreeOf, O.Resolve, WriteFile;
    var i := FileAt(st, w, p);
    var x := Resolved(st, w, p);
  }

  lemma AppendCounted(st: Store, w: Wit, p: O.Path, i: nat, data: seq<byte>)
    requires InvW(st, w) && Sized(st) && Snug(st) && O.Resolve(st, 1, p) == i && Live(st, i) && !st.inodes[i].isDir && Tight(st, i)
    requires data != [] && st.inodes[i].size + |data| <= MAX_BYTES && IsFile(TreeOf(st), p)
    requires WriteClean(st, i, st.inodes[i].size / 1024, st.inodes[i].size, data)
    ensures var r, t := WriteFile(st, i, st.inodes[i].size, data), TreeOf(st);
            && |t[p].bytes| == st.inodes[i].size && Sized(r.st)
            && AppendExact(t, FreeBlocks(st), p, data, st.inodes[i].size, r.rc, TreeOf(r.st), FreeBlocks(r.st))
            && (r.rc != ENOSPC ==> Snug(r.st))
  {
    hide TreeInv, TreeOf, Walk, O.Resolve, Owned, WriteFile, WriteFrom, WriteClean, Contents, Tight, OthersSame, FreeBlocks,
      Shapes, T, Shape, Appended, TotalBlocks, DataBlocks, Snug, TreeIs, AllThatFits;
    var off := st.inodes[i].size;
    var z := Resolved(st, w, p);
    assert |Contents(st, i)| == off;
    var t := TreeOf(st);
    var bytes := t[p].bytes;
    AtItsEnd(st, i);
    var w' := AppendCase(st, w, i, p, data);
    var r := WriteFile(st, i, off, data);
    ChunkCost(st, w.ow, i, data);
    ChunkResolve(st, w, i, p, data);
    var k: nat :| Appended(t, p, bytes, data, k, r.rc, TreeOf(r.st));
    ChunkTree(t, p, bytes, data, k, r.rc, TreeOf(r.st), |data|);
    if r.rc < 0 {
      ChunkStops(st, w, w', i, p, bytes, data, k);
    } else {
      var ow' := WriteFileOwned(st, w.ow, i, off, data);
      WrittenSnug(st, r.st, i);
    }
  }

  lemma AtItsEnd(st: Store, i: nat)
    requires i < |st.inodes| && st.inodes[i].size < MAX_BYTES
    ensures AtEnd(st, i, st.inodes[i].size / 1024, st.inodes[i].size)
  {
  }

  // ---- whole runs ----

  lemma StepExact(st: Store, w: Wit, op: Op, a: Reply) returns (w': Wit)
    requires O.Roomy(st) && InvW(st, w) && Snug(st) && Allowed(st, op) && Answers(st, op, a) && Countable(TreeOf(st), op)
    ensures var st' := Exec(st, op).st;
            && O.Roomy(st') && InvW(st', w') && Sized(st) && Sized(st')
            && Exact(TreeOf(st), FreeBlocks(st), op, a, TreeOf(st'), FreeBlocks(st'))
            && (!RanOut(op, a) ==> Snug(st'))
  {
    hide InvW, TreeOf, O.Resolve, FreeBlocks, Snug, NameOk, O.Mknod, O.Truncate, O.Unlink, O.Rmdir, O.Rename, O.Write, AppendOk,
      TruncateOk, CreateExact, AppendExact, IsFile, Returned, Countable, OpSpec;
    w' := StepOk(st, w, op, a);
    match op {
      case Mknod(p) => MknodExact(st, w, p, false);
      case Mkdir(p) => MknodExact(st, w, p, true);
      case Truncate(p, len) => TruncateExact(st, w, p, len);
      case Unlink(p) => UnlinkExact(st, w, p);
      case Rmdir(p) => RmdirExact(st, w, p);
      case Rename(p, q) => RenameExact(st, w, p, q);
      case Append(p, data, off) => AppendExactly(st, w, p, data, off);
      case Read(_, _, _) => InvGood(st, w);
    }
  }

  /** Every allowed run refines the abstract run with its blocks counted. */
  lemma {:induction false} RunCounted(st: Store, w: Wit, ops: seq<Op>, replies: seq<Reply>)
    requires InvW(st, w) && Snug(st) && AllowedRun(st, ops) && RunAnswers(st, ops, replies)
    ensures Sized(st) && CountedRun(TreeOf(st), FreeBlocks(st), ops, replies, TreeOf(RunStore(st, ops)))
    decreases |ops|
  {
    hide InvW, TreeOf, Exec, OpSpec, Allowed, Answers, Snug, FreeBlocks, Exact, Countable, AbsRun;
    InvGood(st, w);
    RunRefines(st, w, ops, replies);
    if ops != [] && Countable(TreeOf(st), ops[0]) {
      AllowedArgs(st, ops[0]);
      var st1 := Exec(st, ops[0]).st;
      var w1 := StepExact(st, w, ops[0], replies[0]);
      var t', m, free' := TreeOf(RunStore(st, ops)), TreeOf(st1), FreeBlocks(st1);
      if RanOut(ops[0], replies[0]) {
        RunRefines(st1, w1, ops[1..], replies[1..]);
      } else {
        RunCounted(st1, w1, ops[1..], replies[1..]);
      }
      assert Exact(TreeOf(st), FreeBlocks(st), ops[0], replies[0], m, free');
    }
  }

  /** From a formatted image: careful runs, which need no hypothesis on the
      disk, start with the empty tree and all blocks but the root's free. */
  lemma FormattedRunCounted(n: nat, ops: seq<Op>, small: bool, replies: seq<Reply>)
    requires 196 <= n < 0x20_0000 && CarefulRun(Device.Mount(Mkfs.FormattedDisk(n)), ops, small)
    ensures var st := Device.Mount(Mkfs.FormattedDisk(n));
            && AllowedRun(st, ops)
            && (RunAnswers(st, ops, replies) ==>
                  CountedRun(imap[[] := DirNode], n - Mkfs.LayoutOf(n).rootdirBase - 1, ops, replies, TreeOf(RunStore(st, ops))))
  {
    hide InvW, TreeOf, AllowedRun, Mkfs.FormattedDisk, RunStore, RunAnswers, CountedRun, CarefulRun, Mkfs.FormattedWit,
      Mkfs.LayoutOf, Snug, FreeBlocks;
    var st, w0 := Device.Mount(Mkfs.FormattedDisk(n)), Mkfs.FormattedWit(n);
    Mkfs.FormattedInv(n);
    Mkfs.FormattedIsEmpty(n);
    var w := FormattedCarefulRun(n, ops, small, replies);
    FreshFree(n);
    FreshSnug(n);
    if RunAnswers(st, ops, replies) { RunCounted(st, w0, ops, replies); }
  }

  lemma FreshSnug(n: nat)
    requires 196 <= n < 0x20_0000
    ensures Snug(Fresh(n))
  {
    hide Mkfs.LayoutOf, Mkfs.SuperBytes;
    Mkfs.LayoutOkIff(n);
  }
}
