/** What the calls that change a directory write on the disk, byte by byte. */
module EntryBytes {
  import opened Layout
  import opened State
  import opened FileWrite
  import opened Bytes
  import opened Crash
  import O = Ops
  import opened Tree
  import opened TruncProofs
  import opened OpTheorems
  import CarefulRuns
  import F = FileSystem
  import CrashRemovals
  import FittingRuns

  /** Byte x of block q lies in slot s of directory d. */
  predicate InSlot(st: Store, d: nat, s: nat, q: nat, x: nat) {
    q == O.InodeAt(st, d).direct[0] && 32 * s <= x < 32 * s + 32
  }

  /** Slot s is the entry that path p leads through, for inode c. */
  ghost predicate EntryFor(st: Store, p: O.Path, d: nat, s: nat, c: nat)
    requires p != []
  {
    && O.ParentOf(st, 1, p) == d && O.Resolve(st, 1, p) == c && LiveDir(st, d) && Live(st, c) && s < 32
    && O.E(st, d, s) == Dirent(true, st.inodes[c].isDir, c, O.Last(p)) && st.inodes[d].direct[0] < |st.blocks|
  }

  lemma EntryAt(st: Store, w: Wit, p: O.Path) returns (d: nat, s: nat, c: nat)
    requires InvW(st, w) && p != [] && O.Resolve(st, 1, p) >= 0
    ensures EntryFor(st, p, d, s, c) && c > 1 && d != c
    ensures s == O.Scan(O.DirBlock(st, d), O.Named(O.Last(p)), 0) == O.Scan(O.DirBlock(st, d), O.OfInode(c), 0)
  {
    hide InvW, O.Resolve, O.ParentOf, O.Scan, O.DirBlock, Padded, Walk, Ent;
    d, s, c := EntryOf(st, w, p);
    CarefulRuns.DirTaken(st, w, d);
    assert O.E(st, d, s) == Ent(O.DirBlock(st, d), s);
  }

  // ---- rmdir ----

  /** Everything an rmdir changes. */
  ghost predicate RmdirWrote(st: Store, st': Store, d: nat, s: nat, c: nat) {
    && c < |st.inodes| && c < |st.inodeMap| && st.inodes[c].direct[0] < |st.blockMap|
    && st'.start == st.start && st'.inodeMap == st.inodeMap[c := false]
    && st'.inodes == st.inodes[c := Inode(false, 0, [0, 0, 0, 0, 0, 0], 0, 0)]
    && st'.blockMap == st.blockMap[st.inodes[c].direct[0] := false]
    && |st'.blocks| == |st.blocks|
    && forall q, x :: 0 <= q < |st.blocks| && 0 <= x < 1024 ==>
         st'.blocks[q][x] == if InSlot(st, d, s, q, x) then 0 else st.blocks[q][x]
  }

  /** A removed directory: its bit and its inode are cleared, its block is given
      back, and of all the blocks' bytes exactly the 32 of its entry become 0. */
  lemma RmdirBytes(st: Store, w: Wit, p: O.Path) returns (d: nat, s: nat, c: nat)
    requires O.Roomy(st) && InvW(st, w) && p != [] && O.Rmdir(st, p).rc == 0
    ensures var st' := O.Rmdir(st, p).st;
            EntryFor(st, p, d, s, c) && st.inodes[c].isDir && RmdirWrote(st, st', d, s, c)
  {
    hide InvW, O.Rmdir, O.Resolve, O.ParentOf, O.Scan, O.DirBlock, ClearEnt, O.SetDirBlock, Rmdired, EntryFor, Ent, RmdirWrote;
    FittingRuns.RmdirGone(st, p);
    d, s, c := EntryAt(st, w, p);
    EntryParts(st, p, d, s, c);
    RmdirIs(st, p, d, s, c);
    FittingRuns.DirPlace(st, w, c);
    RmdiredStore(st, d, s, c);
  }

  lemma EntryParts(st: Store, p: O.Path, d: nat, s: nat, c: nat)
    requires p != [] && EntryFor(st, p, d, s, c)
    ensures LiveDir(st, d) && Live(st, c) && s < 32 && st.inodes[d].direct[0] < |st.blocks|
    ensures O.ParentOf(st, 1, p) == d && O.Resolve(st, 1, p) == c
    ensures O.E(st, d, s).valid && O.E(st, d, s).inode == c && O.E(st, d, s).isDir == st.inodes[c].isDir
    ensures O.E(st, d, s).name == O.Last(p)
  {
    hide O.Resolve, O.ParentOf, O.DirBlock, Ent;
  }

  lemma RmdiredStore(st: Store, d: nat, s: nat, c: nat)
    requires d < |st.inodes| && st.inodes[d].direct[0] < |st.blocks| && s < 32
    requires Live(st, c) && st.start <= st.inodes[c].direct[0] < |st.blockMap| && d != c
    ensures RmdirWrote(st, O.SetDirBlock(Rmdired(st, c), d, ClearEnt(O.DirBlock(st, d), s)), d, s, c)
  {
    hide ClearEnt;
    forall x | 0 <= x < 1024
      ensures ClearEnt(O.DirBlock(st, d), s)[x] == if 32 * s <= x < 32 * s + 32 then 0 else O.DirBlock(st, d)[x]
    {
      ClearEntBytes(O.DirBlock(st, d), s, x);
    }
  }

  // ---- unlink ----

  /** Everything an unlink changes but the block bitmap. */
  ghost predicate UnlinkWrote(st: Store, st': Store, d: nat, s: nat, c: nat) {
    && c < |st.inodes| && c < |st.inodeMap|
    && st'.start == st.start && st'.inodeMap == st.inodeMap[c := false]
    && st'.inodes == st.inodes[c := st.inodes[c].(size := 0, direct := [0, 0, 0, 0, 0, 0])]
    && |st'.blocks| == |st.blocks|
    && forall q, x :: 0 <= q < |st.blocks| && 0 <= x < 1024 ==>
         st'.blocks[q][x] == if InSlot(st, d, s, q, x) && x == 32 * s then st.blocks[q][x] / 2 * 2 else st.blocks[q][x]
  }

  /** A removed file: its inode's bit is cleared, its size and direct pointers are
      zero, and of all the blocks' bytes exactly the one with the valid bit of its
      entry changes, to the even number below it. */
  lemma UnlinkBytes(st: Store, w: Wit, p: O.Path) returns (d: nat, s: nat, c: nat)
    requires O.Roomy(st) && InvW(st, w) && p != [] && O.Unlink(st, p).rc == 0
    ensures var st' := O.Unlink(st, p).st;
            EntryFor(st, p, d, s, c) && !st.inodes[c].isDir && UnlinkWrote(st, st', d, s, c)
  {
    hide InvW, O.Unlink, O.Resolve, O.ParentOf, O.DirBlock, Invalidate, O.SetDirBlock, Unlinked, EntryFor, Ent, Shape, UnlinkWrote;
    d, s, c := UnlinkIsOf(st, w, p);
    EntryParts(st, p, d, s, c);
    ShapeOf(st, w, c);
    UnlinkedStore(st, d, s, c);
  }

  lemma UnlinkIsOf(st: Store, w: Wit, p: O.Path) returns (d: nat, s: nat, c: nat)
    requires O.Roomy(st) && InvW(st, w) && p != [] && O.Unlink(st, p).rc == 0
    ensures EntryFor(st, p, d, s, c) && c != d && !st.inodes[c].isDir
    ensures O.Unlink(st, p).st == O.SetDirBlock(Unlinked(st, c), d, Invalidate(O.DirBlock(st, d), s))
  {
    hide InvW, O.Unlink, O.Resolve, O.ParentOf, O.Scan, O.DirBlock, Invalidate, O.SetDirBlock, Unlinked, EntryFor, Ent, Walk,
      O.TruncFile;
    UnlinkNames(st, w, p);
    d, s, c := EntryAt(st, w, p);
    EntryParts(st, p, d, s, c);
    TruncSameParent(st, w, c, p);
    UnlinkIs(st, p, d, s, c);
  }

  lemma UnlinkNames(st: Store, w: Wit, p: O.Path)
    requires O.Roomy(st) && InvW(st, w) && p != [] && O.Unlink(st, p).rc == 0
    ensures O.Resolve(st, 1, p) >= 0 && !O.InodeAt(st, O.Resolve(st, 1, p)).isDir
  {
    hide InvW, O.Resolve, O.UnlinkEntry, O.TruncFile;
    var i := Resolved(st, w, p);
  }

  lemma UnlinkedStore(st: Store, d: nat, s: nat, c: nat)
    requires d < |st.inodes| && st.inodes[d].direct[0] < |st.blocks| && s < 32 && O.E(st, d, s).valid
    requires Live(st, c) && Shape(st, c) && d != c
    ensures UnlinkWrote(st, O.SetDirBlock(Unlinked(st, c), d, Invalidate(O.DirBlock(st, d), s)), d, s, c)
  {
    hide Invalidate, Shape, O.ClearDirect, O.TruncBits, Ent;
    TruncDirect(st, c);
    var b := O.DirBlock(st, d);
    EntBytes(b, s);
    forall x | 0 <= x < 1024 ensures Invalidate(b, s)[x] == if x == 32 * s then b[x] / 2 * 2 else b[x] {
      InvalidateBytes(b, s, x);
    }
  }

  // ---- rename ----

  /** A rename: of everything in the store exactly the first bytes of the name
      field change, to those of the new name; no NUL is written after them. */
  lemma RenameBytes(st: Store, w: Wit, p: O.Path, q: O.Path) returns (d: nat, s: nat, c: nat)
    requires InvW(st, w) && p != [] && q != [] && NameOk(O.Last(q)) && O.Rename(st, p, q).rc == 0
    ensures var st', n := O.Rename(st, p, q).st, O.Last(q);
            && EntryFor(st, p, d, s, c)
            && st' == st.(blocks := st'.blocks) && |st'.blocks| == |st.blocks|
            && forall y, x :: 0 <= y < |st.blocks| && 0 <= x < 1024 ==>
                 st'.blocks[y][x] == if InSlot(st, d, s, y, x) && 4 <= x - 32 * s < 4 + |n| then n[x - 32 * s - 4]
                                     else st.blocks[y][x]
  {
    hide InvW, O.Rename, O.Resolve, O.ParentOf, O.Scan, O.DirBlock, RenameEnt, O.SetDirBlock, EntryFor, Ent, NameOk;
    CrashRemovals.RenameGoes(st, p, q);
    d, s, c := EntryAt(st, w, p);
    EntryParts(st, p, d, s, c);
    ShortName(O.Last(q));
    RenameStores(st, p, q, d, s, c);
    RenamedStore(st, d, s, O.Last(q));
  }

  lemma RenamedStore(st: Store, d: nat, s: nat, n: Name)
    requires d < |st.inodes| && st.inodes[d].direct[0] < |st.blocks| && s < 32 && |n| < 26
    ensures var st' := O.SetDirBlock(st, d, RenameEnt(O.DirBlock(st, d), s, n));
            && st' == st.(blocks := st'.blocks) && |st'.blocks| == |st.blocks|
            && forall y, x :: 0 <= y < |st.blocks| && 0 <= x < 1024 ==>
                 st'.blocks[y][x] == if InSlot(st, d, s, y, x) && 4 <= x - 32 * s < 4 + |n| then n[x - 32 * s - 4]
                                     else st.blocks[y][x]
  {
    hide RenameEnt;
    var b := O.DirBlock(st, d);
    forall x | 0 <= x < 1024
      ensures RenameEnt(b, s, n)[x] == if 32 * s + 4 <= x < 32 * s + 4 + |n| then n[x - 32 * s - 4] else b[x]
    {
      RenameEntBytes(b, s, n, x);
    }
  }

  // ---- create ----

  /** The first slot of directory d without the valid bit. */
  ghost predicate FirstUnused(st: Store, d: nat, s: nat) {
    && s < 32 && O.DirBlock(st, d)[32 * s] % 2 == 0
    && forall t :: 0 <= t < s ==> O.DirBlock(st, d)[32 * t] % 2 == 1
  }

  ghost predicate FirstClear(bm: seq<bool>, a: nat, i: nat) {
    a <= i < |bm| && !bm[i] && forall j :: a <= j < i ==> bm[j]
  }

  /** Everything a create changes: the bitmaps, the new inode, and the bytes of
      the blocks. */
  ghost predicate CreateWrote(st: Store, st': Store, d: nat, s: nat, i: nat, b: nat, n: Name, isDir: bool) {
    && i < 64 <= |st.inodes| <= |st.inodeMap| && (isDir ==> b < |st.blockMap|)
    && st'.start == st.start && st'.inodeMap == st.inodeMap[i := true]
    && st'.blockMap == (if isDir then st.blockMap[b := true] else st.blockMap)
    && st'.inodes == st.inodes[i := Inode(isDir, 0, [if isDir then b else 0, 0, 0, 0, 0, 0], 0, 0)]
    && |st'.blocks| == |st.blocks|
    && forall q, x :: 0 <= q < |st.blocks| && 0 <= x < 1024 ==>
         st'.blocks[q][x] == if InSlot(st, d, s, q, x) then EntByte(Dirent(true, isDir, i, n), x - 32 * s)
                             else if isDir && q == b then 0 else st.blocks[q][x]
  }

  /** The 32 bytes of slot s: flags and number in the first, three zeros, the
      name, and zeros. */
  ghost predicate SlotHolds(b: Block, s: nat, first: nat, n: Name) {
    && s < 32 && |n| < 26 && b[32 * s] == first && b[32 * s + 1] == b[32 * s + 2] == b[32 * s + 3] == 0
    && b[32 * s + 4..32 * s + 4 + |n|] == n
    && forall x :: 32 * s + 4 + |n| <= x < 32 * s + 32 ==> b[x] == 0
  }

  /** A create: the first free inode number, the first unused slot and, for a
      directory, the first free block are taken; of all the blocks' bytes exactly
      the 32 of the slot are written, and those of a new directory's block zeroed. */
  lemma MknodBytes(st: Store, w: Wit, p: O.Path, isDir: bool) returns (d: nat, s: nat, i: nat, b: nat)
    requires O.Roomy(st) && InvW(st, w) && p != [] && NameOk(O.Last(p)) && O.Mknod(st, p, isDir).rc == 0
    ensures var st' := O.Mknod(st, p, isDir).st;
            && O.ParentOf(st, 1, p) == d && LiveDir(st, d) && st.inodes[d].direct[0] < |st.blocks|
            && FirstUnused(st, d, s) && FirstClear(st.inodeMap, 0, i) && i < 64
            && (isDir ==> FirstClear(st.blockMap, st.start, b) && b < |st.blocks|)
            && CreateWrote(st, st', d, s, i, b, O.Last(p), isDir)
            && SlotHolds(st'.blocks[st.inodes[d].direct[0]], s, 1 + (if isDir then 2 else 0) + 4 * i, O.Last(p))
  {
    hide InvW, O.Mknod, NameOk, O.Resolve, O.ParentOf, O.Scan, FirstFree, O.DirBlock, O.Create, Walk, EntByte, Ent, FirstUnused,
      FirstClear, CreateWrote, F.MknodWrites, SlotHolds;
    F.MknodIs(st, p, isDir);
    d := ParentDir(st, w, p);
    s := O.Scan(O.DirBlock(st, d), O.Unused, 0);
    i, b := FirstFree(st.inodeMap, 0, 64), FirstFree(st.blockMap, st.start, |st.blocks|);
    FirstUnusedIs(st, d, s);
    FirstClearIs(st.inodeMap, 0, 64);
    FirstClearIs(st.blockMap, st.start, |st.blocks|);
    CarefulRuns.DirTaken(st, w, d);
    NotFree(st, w, d);
    ShortName(O.Last(p));
    CreatedStore(st, d, s, i, b, O.Last(p), isDir);
    SlotNow(st, O.Mknod(st, p, isDir).st, d, s, i, b, O.Last(p), isDir);
  }

  lemma SlotNow(st: Store, st': Store, d: nat, s: nat, i: nat, b: nat, n: Name, isDir: bool)
    requires CreateWrote(st, st', d, s, i, b, n, isDir) && |n| < 26 && s < 32
    requires d < |st.inodes| && st.inodes[d].direct[0] < |st.blocks|
    ensures SlotHolds(st'.blocks[st.inodes[d].direct[0]], s, 1 + (if isDir then 2 else 0) + 4 * i, n)
  {
    hide EntByte;
    var q, e := st.inodes[d].direct[0], Dirent(true, isDir, i, n);
    forall x | 32 * s <= x < 32 * s + 32 ensures st'.blocks[q][x] == EntByte(e, x - 32 * s) {
      assert InSlot(st, d, s, q, x);
    }
    SmallEntry(e);
    assert st'.blocks[q][32 * s + 4..32 * s + 4 + |n|] == n;
  }

  lemma SmallEntry(e: Dirent)
    requires e.inode < 64 && e.valid && |e.name| < 26
    ensures EntByte(e, 0) == 1 + (if e.isDir then 2 else 0) + 4 * e.inode
    ensures EntByte(e, 1) == EntByte(e, 2) == EntByte(e, 3) == 0
    ensures forall k :: 4 <= k < 32 ==> EntByte(e, k) == if k - 4 < |e.name| then e.name[k - 4] else 0
  {
  }

  lemma ParentDir(st: Store, w: Wit, p: O.Path) returns (d: nat)
    requires InvW(st, w) && p != [] && O.ParentOf(st, 1, p) >= 0
    ensures d == O.ParentOf(st, 1, p) && LiveDir(st, d)
  {
    hide InvW, O.Resolve, O.ParentOf, Walk;
    var e := ParentIs(st, w, p);
    d := e;
  }

  lemma NotFree(st: Store, w: Wit, d: nat)
    requires InvW(st, w) && Live(st, d)
    ensures forall i :: FirstClear(st.inodeMap, 0, i) ==> i != d
  {
  }

  lemma FirstUnusedIs(st: Store, d: nat, s: nat)
    requires s == O.Scan(O.DirBlock(st, d), O.Unused, 0) < 32
    ensures FirstUnused(st, d, s)
  {
    hide O.DirBlock, Ent;
    var b := O.DirBlock(st, d);
    EntBytes(b, s);
    forall t | 0 <= t < s ensures b[32 * t] % 2 == 1 {
      assert !O.Hit(Ent(b, t), O.Unused);
      EntBytes(b, t);
    }
  }

  lemma FirstClearIs(bm: seq<bool>, a: nat, n: nat)
    requires a <= n <= |bm|
    ensures FirstFree(bm, a, n) < n ==> FirstClear(bm, a, FirstFree(bm, a, n))
  {
  }

  lemma CreatedStore(st: Store, d: nat, s: nat, i: nat, b: nat, n: Name, isDir: bool)
    requires O.Roomy(st) && s < 32 && i < 64 && NameOk(n) && d < |st.inodes| && d != i && st.inodes[d].direct[0] < |st.blocks|
    requires isDir ==> b < |st.blocks| && b != st.inodes[d].direct[0]
    ensures CreateWrote(st, O.Create(st, d, s, i, b, n, isDir), d, s, i, b, n, isDir)
  {
    hide O.Create, EntByte, PutEnt;
    CreateFields(st, d, s, i, b, n, isDir);
    var e := Dirent(true, isDir, i, n);
    var f := O.DirBlock(st, d);
    forall x | 0 <= x < 1024 ensures PutEnt(f, s, e)[x] == if 32 * s <= x < 32 * s + 32 then EntByte(e, x - 32 * s) else f[x] {
      PutEntBytes(f, s, e, x);
    }
  }
}
