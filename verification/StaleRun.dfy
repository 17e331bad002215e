/** A run that leaves a stale block first in line: a directory that held a file
    is removed, and the next second-level index block is that block. */
module StaleRun {
  import opened Layout
  import opened State
  import opened FileWrite
  import opened WriteProofs
  import O = Ops
  import opened Tree
  import opened TreeProofs
  import opened OpProofs
  import opened TruncProofs
  import opened OpTheorems
  import opened Crash
  import F = FileSystem

  /** File j is as it was: inode and every pointer. */
  ghost predicate FileKept(st: Store, st': Store, j: nat) {
    && Live(st, j) && Live(st', j) && st'.inodes[j] == st.inodes[j]
    && forall m :: T(st', j, m) == T(st, j, m)
  }

  ghost predicate FilesKept(st: Store, st': Store, gone: nat) {
    forall j: nat :: Live(st, j) && !st.inodes[j].isDir && j != gone ==> FileKept(st, st', j)
  }

  /** Every path that is not at or below p leads where it led. */
  ghost predicate WalksKept(st: Store, st': Store, p: O.Path) {
    forall q: O.Path :: !(p <= q) ==> Walk(st', q) == Walk(st, q)
  }

  /** A successful create, field by field, with its new inode i. */
  lemma CreateStep(st: Store, w: Wit, p: O.Path, isDir: bool) returns (w': Wit, d: nat, s: nat, i: nat, b: nat)
    requires O.Roomy(st) && InvW(st, w) && p != [] && NameOk(O.Last(p)) && O.Mknod(st, p, isDir).rc == 0
    ensures var st' := O.Mknod(st, p, isDir).st;
            && InvW(st', w') && Live(st', i) && st'.inodes[i].isDir == isDir && Walk(st', p) == i && 1 < i < 64 && i != d
            && LiveDir(st, d) && Walk(st, Init(p)) == d && s == O.Scan(O.DirBlock(st, d), O.Unused, 0) < 32 && FilesKept(st, st', i)
            && WalksKept(st, st', p) && !Live(st, i)
            && b == FirstFree(st.blockMap, st.start, |st.blocks|) && (isDir ==> b < |st.blocks|)
            && st.inodes[d].direct[0] < |st.blocks| && st' == O.Create(st, d, s, i, b, O.Last(p), isDir)
  {
    hide TreeInv, Shapes, Owned, O.Mknod, NameOk, O.Resolve, O.ParentOf, O.Scan, FirstFree, O.DirBlock, O.Create, Walk,
      F.MknodWrites, Created, SlotFor, FreshInode, OthersSame, Created2, DirPointers;
    F.MknodIs(st, p, isDir);
    var pd := ParentIs(st, w, p);
    NotZero(st, w, p);
    d := pd;
    s := O.Scan(O.DirBlock(st, d), O.Unused, 0);
    i, b := FirstFree(st.inodeMap, 0, 64), FirstFree(st.blockMap, st.start, |st.blocks|);
    ScanSlotFor(st, d, O.Last(p));
    w' := CreateInv(st, w, d, s, i, b, O.Last(p), isDir);
    CreateKeeps(st, w, w', p, d, s, i, b, isDir);
    AllDirPointers(st, w);
    DirBlockOwned(st, w.ow, d);
  }

  lemma CreateKeeps(st: Store, w: Wit, w': Wit, p: O.Path, d: nat, s: nat, i: nat, b: nat, isDir: bool)
    requires O.Roomy(st) && InvW(st, w) && p != [] && i < 64 && (isDir ==> b < |st.blocks|) && LiveDir(st, d)
    requires s < 32 && NameOk(O.Last(p)) && Walk(st, Init(p)) == d && SlotFor(st, d, s, O.Last(p))
    requires var st' := O.Create(st, d, s, i, b, O.Last(p), isDir);
             && InvW(st', w') && Created(st, st', d, s, i, O.Last(p), isDir)
             && FreshInode(st, Created2(st, i, b, isDir), i, b, isDir)
             && OthersSame(Created2(st, i, b, isDir), st', d) && st'.inodes == Created2(st, i, b, isDir).inodes
    ensures var st' := O.Create(st, d, s, i, b, O.Last(p), isDir);
            && FilesKept(st, st', i) && Walk(st', p) == i && i > 1 && i != d && Live(st', i) && st'.inodes[i].isDir == isDir
            && WalksKept(st, st', p) && !Live(st, i)
  {
    hide TreeInv, Shapes, Owned, NameOk, O.Create, Walk, SlotFor, Created2, Target, OneEntry, Padded, O.E;
    Rejoined(p);
    var st' := O.Create(st, d, s, i, b, O.Last(p), isDir);
    CreatedWalk(st, st', w, w', d, s, i, O.Last(p), isDir, Init(p), p);
    forall q: O.Path | !(p <= q) ensures Walk(st', q) == Walk(st, q) {
      CreatedWalk(st, st', w, w', d, s, i, O.Last(p), isDir, Init(p), q);
    }
  }

  // ---- the four calls ----

  /** mkdir: the first free block is zeroed and becomes the directory's. */
  lemma MkdirStep(st: Store, w: Wit, p: O.Path) returns (w': Wit, c: nat, b: nat)
    requires O.Roomy(st) && InvW(st, w) && p != [] && NameOk(O.Last(p)) && O.Mknod(st, p, true).rc == 0
    ensures var st' := O.Mknod(st, p, true).st;
            && O.Roomy(st') && InvW(st', w') && LiveDir(st', c) && Walk(st', p) == c && FilesKept(st, st', c) && 1 < c
            && WalksKept(st, st', p) && !Live(st, c)
            && b == FirstFree(st.blockMap, st.start, |st.blocks|) < |st'.blocks| && !st.blockMap[b]
            && st'.blockMap == st.blockMap[b := true] && st'.start == st.start && |st'.blocks| == |st.blocks|
            && st'.inodes[c].direct[0] == b && st'.blocks[b] == ZeroBlock
  {
    hide InvW, O.Mknod, NameOk, O.Create, Walk, FilesKept, PutEnt, O.Scan, O.DirBlock;
    var d, s;
    w', d, s, c, b := CreateStep(st, w, p, true);
    CreateFields(st, d, s, c, b, O.Last(p), true);
    OtherBlock(st, w, d, b);
    RoomToWrite(O.Mknod(st, p, true).st, w');
  }

  lemma OtherBlock(st: Store, w: Wit, d: nat, b: nat)
    requires InvW(st, w) && LiveDir(st, d) && b < |st.blocks|
    ensures |st.blocks| <= |st.blockMap| && (!st.blockMap[b] ==> st.inodes[d].direct[0] != b)
  {
    hide TreeInv, Shapes, Target;
    AllDirPointers(st, w);
    DirBlockOwned(st, w.ow, d);
    assert st.blockMap[T(st, d, Data(0))];
  }

  /** mknod in it: the block now holds an entry in slot 0. */
  lemma MknodStep(st: Store, w: Wit, p: O.Path, x: Name, c: nat, b: nat) returns (w': Wit, e: nat)
    requires O.Roomy(st) && InvW(st, w) && NameOk(x) && O.Mknod(st, p + [x], false).rc == 0
    requires LiveDir(st, c) && Walk(st, p) == c && st.inodes[c].direct[0] == b < |st.blocks| && st.blocks[b] == ZeroBlock
    ensures var st' := O.Mknod(st, p + [x], false).st;
            && O.Roomy(st') && InvW(st', w') && Live(st', e) && !st'.inodes[e].isDir && Walk(st', p + [x]) == e && 1 < e < 64
            && FilesKept(st, st', e) && st'.blockMap == st.blockMap && st'.start == st.start && |st'.blocks| == |st.blocks|
            && WalksKept(st, st', p + [x]) && !Live(st, e) && LiveDir(st', c) && Walk(st', p) == c && st'.inodes[c].direct[0] == b
            && st'.blocks[b] == PutEnt(ZeroBlock, 0, Dirent(true, false, e, x))
            && st'.inodes[e].indir1 == 0 == st'.inodes[e].indir2
  {
    hide InvW, O.Mknod, NameOk, O.Create, Walk, FilesKept, PutEnt, O.Scan, O.DirBlock;
    assert Init(p + [x]) == p;
    var d, s, b2;
    w', d, s, e, b2 := CreateStep(st, w, p + [x], false);
    ShortName(x);
    CreateFields(st, d, s, e, b2, x, false);
    ZeroSlot(st, c);
    LongerThan(p, x);
    RoomToWrite(O.Mknod(st, p + [x], false).st, w');
  }

  lemma ZeroSlot(st: Store, c: nat)
    requires c < |st.inodes| && st.inodes[c].direct[0] < |st.blocks| && st.blocks[st.inodes[c].direct[0]] == ZeroBlock
    ensures O.DirBlock(st, c) == ZeroBlock && O.Scan(O.DirBlock(st, c), O.Unused, 0) == 0
  {
    EntZeroBlock(0);
  }

  /** What the removal of c, a file or directory, leaves alone. */
  lemma RemoveKeeps(st: Store, w: Wit, k: Store, d: nat, s: nat, c: nat, b': Block)
    requires InvW(st, w) && Killed(st, k, c) && Good(k, Without(w.ow, c))
    requires LiveDir(st, d) && d != c && s < 32 && O.E(st, d, s).valid && O.E(st, d, s).inode == c && Live(st, c) && c > 1
    requires Cleared(O.DirBlock(st, d), b', s, c)
    requires st.inodes[c].isDir ==> forall t :: 0 <= t < 32 ==> !O.E(st, c, t).valid
    ensures FilesKept(st, O.SetDirBlock(k, d, b'), c)
  {
    hide Shapes, Owned, Target, Cleared, O.SetDirBlock, O.E, TreeInv, Without, Removed, O.DirBlock;
    RemoveCompletes(st, w, k, Without(w.ow, c), d, s, c, b');
    KilledTargets(st, k, c);
  }

  /** unlink: the slot is only marked unused. */
  lemma UnlinkStep(st: Store, w: Wit, p: O.Path, x: Name, c: nat, e: nat, b: nat) returns (w': Wit)
    requires O.Roomy(st) && InvW(st, w) && NameOk(x) && Walk(st, p + [x]) == e && Live(st, e) && !st.inodes[e].isDir && e > 1
    requires LiveDir(st, c) && Walk(st, p) == c && st.inodes[c].direct[0] == b < |st.blocks|
    requires st.blocks[b] == PutEnt(ZeroBlock, 0, Dirent(true, false, e, x)) && e < 64
    requires st.inodes[e].indir1 == 0 == st.inodes[e].indir2
    ensures var r := O.Unlink(st, p + [x]);
            var st' := r.st;
            && r.rc == 0 && InvW(st', w') && FilesKept(st, st', e) && LiveDir(st', c) && Walk(st', p) == c && c != e
            && WalksKept(st, st', p + [x])
            && st'.blockMap == st.blockMap && st'.start == st.start && |st'.blocks| == |st.blocks|
            && st'.inodes[c].direct[0] == b && st'.blocks[b] == Invalidate(st.blocks[b], 0)
  {
    hide TreeInv, Shapes, Owned, O.Unlink, NameOk, Walk, FilesKept, PutEnt, O.Scan, O.DirBlock, Invalidate, O.Resolve,
      O.ParentOf, Cleared, Killed, Without, O.SetDirBlock, Unlinked, O.E, Target, TreeOf;
    assert Init(p + [x]) == p;
    ResolveIsWalk(st, w, p + [x]);
    var d, s, g := EntryOf(st, w, p + [x]);
    FirstNamed(st, c, b, e, x);
    ShapeOf(st, w, e);
    UnlinkedKilled(st, w.ow, e);
    var b' := Invalidate(O.DirBlock(st, c), 0);
    InvalidateClears(O.DirBlock(st, c), 0, e);
    TruncSameParent(st, w, e, p + [x]);
    UnlinkIs(st, p + [x], c, 0, e);
    w' := RemoveMeets(st, w, Unlinked(st, e), p + [x], c, 0, e, b');
    RemoveKeeps(st, w, Unlinked(st, e), c, 0, e, b');
    WalkAfter(st, w, w', Unlinked(st, e), p, c, e, b');
    RemoveWalks(st, w, w', Unlinked(st, e), p + [x], c, 0, e, b');
    UnlinkedFields(st, e, c, b');
  }

  lemma FirstNamed(st: Store, c: nat, b: nat, e: nat, x: Name)
    requires c < |st.inodes| && st.inodes[c].direct[0] == b < |st.blocks| && NameOk(x) && e < 64
    requires st.blocks[b] == PutEnt(ZeroBlock, 0, Dirent(true, false, e, x))
    ensures O.DirBlock(st, c) == st.blocks[b] && O.E(st, c, 0) == Dirent(true, false, e, x)
    ensures O.Scan(O.DirBlock(st, c), O.Named(x), 0) == 0
  {
    hide Ent, PutEnt;
    EntPutEnt(ZeroBlock, 0, Dirent(true, false, e, x));
  }

  lemma WalkAfter(st: Store, w: Wit, w': Wit, k: Store, p: O.Path, d: nat, c: nat, b': Block)
    requires InvW(st, w) && Killed(st, k, c) && Good(k, Without(w.ow, c)) && InvW(O.SetDirBlock(k, d, b'), w')
    requires LiveDir(st, d) && d != c && O.E(st, d, 0).valid && O.E(st, d, 0).inode == c && Live(st, c) && c > 1
    requires Cleared(O.DirBlock(st, d), b', 0, c) && !st.inodes[c].isDir && Walk(st, p) == d
    ensures Walk(O.SetDirBlock(k, d, b'), p) == d
  {
    hide InvW, Cleared, Killed, Good, O.SetDirBlock, Walk, O.E, WalksKept, Without, O.DirBlock, Live, LiveDir, NoneValid;
    RemoveWalks(st, w, w', k, p + [O.E(st, d, 0).name], d, 0, c, b');
    LongerThan(p, O.E(st, d, 0).name);
    KeptWalk(st, O.SetDirBlock(k, d, b'), p + [O.E(st, d, 0).name], p);
  }

  lemma KeptWalk(st: Store, st': Store, p: O.Path, q: O.Path)
    requires WalksKept(st, st', p) && !(p <= q)
    ensures Walk(st', q) == Walk(st, q)
  {
  }

  ghost predicate NoneValid(st: Store, c: nat) { forall t :: 0 <= t < 32 ==> !O.E(st, c, t).valid }

  /** Paths not at or below the removed one. */
  lemma RemoveWalks(st: Store, w: Wit, w': Wit, k: Store, p: O.Path, d: nat, s: nat, c: nat, b': Block)
    requires InvW(st, w) && Killed(st, k, c) && Good(k, Without(w.ow, c)) && InvW(O.SetDirBlock(k, d, b'), w') && p != []
    requires LiveDir(st, d) && d != c && s < 32 && O.E(st, d, s).valid && O.E(st, d, s).inode == c && Live(st, c) && c > 1
    requires Cleared(O.DirBlock(st, d), b', s, c) && Walk(st, Init(p)) == d && O.E(st, d, s).name == O.Last(p)
    requires st.inodes[c].isDir ==> NoneValid(st, c)
    ensures WalksKept(st, O.SetDirBlock(k, d, b'), p)
  {
    hide TreeInv, Shapes, Owned, Target, Cleared, O.SetDirBlock, Without, Removed, Walk, O.E;
    RemoveCompletes(st, w, k, Without(w.ow, c), d, s, c, b');
    Rejoined(p);
    forall q: O.Path | !(p <= q) ensures Walk(O.SetDirBlock(k, d, b'), q) == Walk(st, q) {
      RemovedWalk(st, O.SetDirBlock(k, d, b'), w, w', d, s, c, Init(p), q);
    }
  }

  lemma LongerThan(p: O.Path, n: Name)
    ensures !(p + [n] <= p)
  {
  }

  lemma UnlinkedFields(st: Store, e: nat, c: nat, b': Block)
    requires e < |st.inodes| && e < |st.inodeMap| && c < |st.inodes| && c != e && st.inodes[c].direct[0] < |st.blocks|
             && 0 < st.start
    requires st.inodes[e].indir1 == 0 == st.inodes[e].indir2 && Live(st, c)
    ensures var st' := O.SetDirBlock(Unlinked(st, e), c, b');
            && st'.blockMap == st.blockMap && st'.start == st.start && |st'.blocks| == |st.blocks| && Live(st', c)
            && st'.inodes[c] == st.inodes[c] && st'.blocks[st.inodes[c].direct[0]] == b'
  {
  }

  /** rmdir: the block is given back as it is. */
  lemma RmdirStep(st: Store, w: Wit, p: O.Path, c: nat, b: nat) returns (w': Wit)
    requires O.Roomy(st) && InvW(st, w) && p != [] && LiveDir(st, c) && Walk(st, p) == c
             && st.inodes[c].direct[0] == b < |st.blocks|
    requires O.Scan(st.blocks[b], O.Used, 0) == 32
    ensures var r := O.Rmdir(st, p);
            var st' := r.st;
            && r.rc == 0 && O.Roomy(st') && InvW(st', w') && FilesKept(st, st', c) && st.start <= b && WalksKept(st, st', p)
            && st'.blockMap == st.blockMap[b := false] && st'.start == st.start && |st'.blocks| == |st.blocks|
            && st'.blocks[b] == st.blocks[b]
  {
    hide TreeInv, Shapes, Owned, O.Rmdir, Walk, FilesKept, O.Scan, ClearEnt, O.Resolve, O.ParentOf, Cleared, Killed, Without,
      O.SetDirBlock, Rmdired, O.E, Target, TreeOf, DirPointers;
    ResolveIsWalk(st, w, p);
    var d, s, g := EntryOf(st, w, p);
    AllDirPointers(st, w);
    RmdiredKilled(st, w.ow, c);
    ClearEntClears(O.DirBlock(st, d), s, c);
    NoneUsed(st, c);
    RmdirIs(st, p, d, s, c);
    var b' := ClearEnt(O.DirBlock(st, d), s);
    w' := RemoveMeets(st, w, Rmdired(st, c), p, d, s, c, b');
    RemoveKeeps(st, w, Rmdired(st, c), d, s, c, b');
    RemoveWalks(st, w, w', Rmdired(st, c), p, d, s, c, b');
    DirBlockOwned(st, w.ow, c);
    DirBlockOwned(st, w.ow, d);
    HeldStart(st, w.ow, c);
    RmdiredFields(st, c, d, b, b');
    RoomToWrite(O.Rmdir(st, p).st, w');
  }

  lemma HeldStart(st: Store, ow: Owners, c: nat)
    requires Good(st, ow) && LiveDir(st, c) && T(st, c, Data(0)) != 0
    ensures st.start <= T(st, c, Data(0)) < |st.blockMap|
  {
    hide Target;
  }

  lemma RmdiredFields(st: Store, c: nat, d: nat, b: nat, b': Block)
    requires c < |st.inodes| && c < |st.inodeMap| && d < |st.inodes| && c != d && st.inodes[c].direct[0] == b
    requires st.start <= b < |st.blocks| && b < |st.blockMap| && st.inodes[d].direct[0] != b
    ensures var st' := O.SetDirBlock(Rmdired(st, c), d, b');
            && st'.blockMap == st.blockMap[b := false] && st'.start == st.start && |st'.blocks| == |st.blocks|
            && st'.blocks[b] == st.blocks[b]
  {
  }

  // ---- all four ----

  lemma KeptFour(a: Store, b: Store, c: Store, d: Store, e: Store, j: nat)
    requires FileKept(a, b, j) && FileKept(b, c, j) && FileKept(c, d, j) && FileKept(d, e, j)
    ensures FileKept(a, e, j)
  {
    hide T;
    forall m ensures T(e, j, m) == T(a, j, m) {
      assert T(b, j, m) == T(a, j, m) && T(c, j, m) == T(b, j, m) && T(d, j, m) == T(c, j, m);
    }
  }

  lemma KeptOne(st: Store, st': Store, gone: nat, j: nat)
    requires FilesKept(st, st', gone) && Live(st, j) && !st.inodes[j].isDir && j != gone
    ensures FileKept(st, st', j)
  {
  }

  /** What is left in the block: no used slot, and two non-null words. */
  lemma StaleWords(e: nat, x: Name)
    requires 0 < e < 64 && NameOk(x)
    ensures var c := Invalidate(PutEnt(ZeroBlock, 0, Dirent(true, false, e, x)), 0);
            O.Scan(c, O.Used, 0) == 32 && 0 < Ptr(c, 0) < 256 && Ptr(c, 1) != 0
  {
    var b0 := PutEnt(ZeroBlock, 0, Dirent(true, false, e, x));
    var c := Invalidate(b0, 0);
    EntPutEnt(ZeroBlock, 0, Dirent(true, false, e, x));
    EntInvalidate(b0, 0);
    NoSlotUsed(c, b0);
    SlotWord(b0, e);
    PtrBound(b0, 0);
    PtrSetPtr(b0, 0, Ptr(b0, 0) / 2 * 2);
    NameWord(b0, e, x);
  }

  lemma NoSlotUsed(c: Block, b0: Block)
    requires !Ent(c, 0).valid && forall t :: 0 < t < 32 ==> Ent(c, t) == Ent(b0, t) && Ent(b0, t) == Ent(ZeroBlock, t)
    ensures O.Scan(c, O.Used, 0) == 32
  {
    hide Ent;
    var s := O.Scan(c, O.Used, 0);
    if s < 32 { EntZeroBlock(s); }
  }

  lemma SlotWord(b: Block, e: nat)
    requires Ent(b, 0).inode == e && 0 < e < 64
    ensures 0 < Ptr(b, 0) / 2 * 2 < 256
  {
    hide Ptr;
  }

  /** The second word of a slot holds the first bytes of the name. */
  lemma NameWord(b: Block, e: nat, x: Name)
    requires e < 64 && NameOk(x) && b == PutEnt(ZeroBlock, 0, Dirent(true, false, e, x))
    ensures Ptr(b, 1) != 0
  {
    assert b[4] == x[0] != 0;
    LowByte(b, 4);
  }

  lemma LowByte(b: Block, i: nat)
    requires i + 4 <= 1024 && b[i] != 0
    ensures LittleEndian(b, i, 4) != 0
  {
  }

  /** mkdir, mknod inside, unlink and rmdir leave the bitmap as it was, every
      file untouched, and the first free block with non-null words. */
  lemma DirectoryCycle(st: Store, w: Wit, p: O.Path, x: Name) returns (w': Wit, s1: Store, s2: Store, s3: Store, s4: Store, b: nat)
    requires O.Roomy(st) && InvW(st, w) && p != [] && NameOk(O.Last(p)) && NameOk(x)
    requires O.Mknod(st, p, true).rc == 0
    requires O.Roomy(O.Mknod(st, p, true).st) ==> O.Mknod(O.Mknod(st, p, true).st, p + [x], false).rc == 0
    ensures s1 == O.Mknod(st, p, true).st && O.Roomy(s1) && s2 == O.Mknod(s1, p + [x], false).st
    ensures O.Roomy(s2) && O.Unlink(s2, p + [x]) == Result(s3, 0) && O.Rmdir(s3, p) == Result(s4, 0)
    ensures O.Roomy(s4) && InvW(s4, w') && s4.blockMap == st.blockMap && s4.start == st.start && |s4.blocks| == |st.blocks|
    ensures b == FirstFree(st.blockMap, st.start, |st.blocks|) < |st.blocks|
    ensures 0 < Ptr(s4.blocks[b], 0) < 256 && Ptr(s4.blocks[b], 1) != 0
    ensures forall j: nat :: Live(st, j) && !st.inodes[j].isDir ==> FileKept(st, s4, j)
    ensures WalksKept(st, s4, p)
  {
    hide InvW, O.Mknod, O.Unlink, O.Rmdir, NameOk, Walk, FilesKept, FileKept, WalksKept, PutEnt, Invalidate, O.Scan, FirstFree, Ptr;
    s1 := O.Mknod(st, p, true).st;
    var w1, c, e, w2, w3;
    w1, c, b := MkdirStep(st, w, p);
    s2 := O.Mknod(s1, p + [x], false).st;
    w2, e := MknodStep(s1, w1, p, x, c, b);
    s3 := O.Unlink(s2, p + [x]).st;
    w3 := UnlinkStep(s2, w2, p, x, c, e, b);
    RoomToWrite(s3, w3);
    StaleWords(e, x);
    s4 := O.Rmdir(s3, p).st;
    w' := RmdirStep(s3, w3, p, c, b);
    assert st.blockMap[b := true][b := false] == st.blockMap;
    CycleFiles(st, s1, s2, s3, s4, c, e);
    CycleWalks(st, s1, s2, s3, s4, p, x);
  }

  lemma CycleFiles(st: Store, s1: Store, s2: Store, s3: Store, s4: Store, c: nat, e: nat)
    requires FilesKept(st, s1, c) && FilesKept(s1, s2, e) && FilesKept(s2, s3, e) && FilesKept(s3, s4, c)
    requires !Live(st, c) && !Live(s1, e)
    ensures forall j: nat :: Live(st, j) && !st.inodes[j].isDir ==> FileKept(st, s4, j)
  {
    hide T;
    forall j: nat | Live(st, j) && !st.inodes[j].isDir ensures FileKept(st, s4, j) {
      KeptOne(st, s1, c, j);
      KeptOne(s1, s2, e, j);
      KeptOne(s2, s3, e, j);
      KeptOne(s3, s4, c, j);
      KeptFour(st, s1, s2, s3, s4, j);
    }
  }

  lemma CycleWalks(st: Store, s1: Store, s2: Store, s3: Store, s4: Store, p: O.Path, x: Name)
    requires WalksKept(st, s1, p) && WalksKept(s1, s2, p + [x]) && WalksKept(s2, s3, p + [x]) && WalksKept(s3, s4, p)
    ensures WalksKept(st, s4, p)
  {
    hide Walk;
    forall q: O.Path | !(p <= q) ensures Walk(s4, q) == Walk(st, q) {
      assert p <= p + [x];
      KeptWalk(st, s1, p, q);
      KeptWalk(s1, s2, p + [x], q);
      KeptWalk(s2, s3, p + [x], q);
      KeptWalk(s3, s4, p, q);
    }
  }
}
