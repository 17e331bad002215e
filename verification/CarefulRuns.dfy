/** What a caller can check, call by call on the tree alone, for a run to do
    all it promises. */
module CarefulRuns {
  import opened Layout
  import opened State
  import opened FileWrite
  import opened WriteProofs
  import opened WriteTheorems
  import opened Crash
  import O = Ops
  import opened Tree
  import opened OpProofs
  import opened TruncProofs
  import opened OpTheorems
  import opened Runs
  import opened StaleFill
  import F = FileSystem
  import StaleRun
  import Device
  import Mkfs

  ghost predicate IsFile(t: AbsTree, p: O.Path) { p in t && t[p].FileNode? }

  /** Truncations of files below six blocks, new names not shorter, and writes
      at the end of the file. */
  ghost predicate CallerOk(t: AbsTree, op: Op) {
    && ArgsOk(op)
    && match op
       case Truncate(p, len) => len == 0 && IsFile(t, p) ==> |t[p].bytes| < 6 * 1024
       case Rename(p, q) => |O.Last(q)| >= |O.Last(p)|
       case Append(p, data, off) => IsFile(t, p) && off <= |t[p].bytes| ==> off == |t[p].bytes| < MAX_BYTES
       case _ => true
  }

  /** Nothing that puts a used block back among the free ones: no rmdir, and
      unlink only below six blocks. */
  ghost predicate FreesNothing(t: AbsTree, op: Op) {
    match op
    case Rmdir(_) => false
    case Unlink(p) => IsFile(t, p) ==> |t[p].bytes| < 6 * 1024
    case _ => true
  }

  /** No file grows beyond 262 blocks. */
  ghost predicate StaysSmall(t: AbsTree, op: Op) {
    match op
    case Append(p, data, off) => IsFile(t, p) && off <= |t[p].bytes| ==> off < 262 * 1024 && off + |data| <= 262 * 1024
    case _ => true
  }

  ghost predicate Careful(t: AbsTree, op: Op, small: bool) {
    CallerOk(t, op) && if small then StaysSmall(t, op) else FreesNothing(t, op)
  }

  /** Every call is careful in the tree it is made in. */
  ghost predicate CarefulRun(st: Store, ops: seq<Op>, small: bool)
    decreases |ops|
  {
    ops != [] ==> Careful(TreeOf(st), ops[0], small) && (O.Roomy(st) ==> CarefulRun(Exec(st, ops[0]).st, ops[1..], small))
  }

  // ---- one call ----

  lemma FileAt(st: Store, w: Wit, p: O.Path) returns (i: int)
    requires InvW(st, w)
    ensures i == O.Resolve(st, 1, p)
    ensures i >= 0 ==> Live(st, i) && O.InodeAt(st, i) == st.inodes[i] && Shape(st, i) && Good(st, w.ow)
    ensures i >= 0 && !st.inodes[i].isDir ==> IsFile(TreeOf(st), p) && |TreeOf(st)[p].bytes| == st.inodes[i].size
  {
    hide TreeInv, TreeOf, Shape, Owned, O.Resolve;
    i := Resolved(st, w, p);
    if i >= 0 {
      assert Shape(st, i);
      assert |Contents(st, i)| == st.inodes[i].size;
    }
  }

  lemma CarefulAllowed(st: Store, w: Wit, op: Op, small: bool)
    requires O.Roomy(st) && InvW(st, w) && Careful(TreeOf(st), op, small) && (small || FreeClean(st))
    ensures Allowed(st, op)
  {
    hide InvW, TreeOf, O.Resolve, NameOk, WriteClean, Shape, FreeClean, Good;
    match op {
      case Truncate(p, len) =>
        var i := FileAt(st, w, p);
        if i >= 0 && len == 0 && !st.inodes[i].isDir { NoIndirectBlock(st, i); }
      case Append(p, data, off) =>
        var i := FileAt(st, w, p);
        if i >= 0 && !st.inodes[i].isDir && off <= st.inodes[i].size {
          if small { SmallClean(st, w.ow, i, data); } else { FreeCleanIsEnough(st, w.ow, i, off / 1024, off, data, 0); }
        }
      case _ =>
    }
  }

  lemma NoIndirectBlock(st: Store, i: nat)
    requires i < |st.inodes| && Shape(st, i) && st.inodes[i].size < 6 * 1024
    ensures st.inodes[i].indir1 == 0
  {
    assert T(st, i, Ind1) == st.inodes[i].indir1;
  }

  lemma SmallClean(st: Store, ow: Owners, i: nat, data: seq<byte>)
    requires Good(st, ow) && Live(st, i) && Shape(st, i)
    requires st.inodes[i].size < 262 * 1024 && st.inodes[i].size + |data| <= 262 * 1024
    ensures WriteClean(st, i, st.inodes[i].size / 1024, st.inodes[i].size, data)
  {
    hide WriteClean, Owned;
    SmallAppendIsClean(st, ow, i, st.inodes[i].size / 1024, st.inodes[i].size, data);
  }

  // ---- free blocks stay clean ----

  /** What is free afterwards was free before, with the same contents. */
  ghost predicate FreeStays(st: Store, st': Store) { Sized(st) && Sized(st') && FreeKept(st, st') }

  lemma StaysClean(st: Store, st': Store)
    requires FreeStays(st, st') && FreeClean(st)
    ensures FreeClean(st')
  {
    hide NoPointers;
  }

  lemma CreateClean(st: Store, w: Wit, p: O.Path, isDir: bool)
    requires O.Roomy(st) && InvW(st, w) && p != [] && NameOk(O.Last(p)) && O.Mknod(st, p, isDir).rc == 0
    ensures FreeStays(st, O.Mknod(st, p, isDir).st)
  {
    hide InvW, O.Mknod, NameOk, O.Create, Walk, PutEnt, O.Scan, O.DirBlock, StaleRun.FilesKept, StaleRun.WalksKept;
    var w', d, s, i, b := StaleRun.CreateStep(st, w, p, isDir);
    CreateFields(st, d, s, i, b, O.Last(p), isDir);
    DirTaken(st, w, d);
  }

  lemma DirTaken(st: Store, w: Wit, d: nat)
    requires InvW(st, w) && LiveDir(st, d)
    ensures Sized(st) && st.inodes[d].direct[0] < |st.blocks| && st.blockMap[st.inodes[d].direct[0]]
  {
    hide TreeInv, Shapes, Target;
    AllDirPointers(st, w);
    DirBlockOwned(st, w.ow, d);
    assert st.blockMap[T(st, d, Data(0))];
  }

  /** Rewriting a directory's block touches no free block. */
  lemma SetDirClean(st: Store, w: Wit, k: Store, d: nat, b: Block)
    requires InvW(st, w) && LiveDir(st, d) && d < |k.inodes| && k.inodes[d] == st.inodes[d]
    requires k.blocks == st.blocks && k.blockMap == st.blockMap && k.start == st.start
    ensures FreeStays(st, O.SetDirBlock(k, d, b))
  {
    hide InvW;
    DirTaken(st, w, d);
  }

  lemma MknodClean(st: Store, w: Wit, p: O.Path, isDir: bool)
    requires O.Roomy(st) && InvW(st, w) && p != [] && NameOk(O.Last(p)) && FreeClean(st)
    ensures Sized(O.Mknod(st, p, isDir).st) && FreeClean(O.Mknod(st, p, isDir).st)
  {
    hide InvW, NameOk, FreeClean, FreeStays, O.Create, O.Resolve, O.ParentOf, O.Scan, FirstFree, O.DirBlock, F.MknodWrites;
    F.MknodIs(st, p, isDir);
    if O.Mknod(st, p, isDir).rc == 0 {
      CreateClean(st, w, p, isDir);
      KeptClean(st, O.Mknod(st, p, isDir).st);
    }
  }

  lemma KeptClean(st: Store, st': Store)
    requires FreeStays(st, st') && Sized(st) && FreeClean(st)
    ensures Sized(st') && FreeClean(st')
  {
    StaysClean(st, st');
  }

  lemma RenameClean(st: Store, w: Wit, p: O.Path, q: O.Path)
    requires O.Roomy(st) && InvW(st, w) && p != [] && q != [] && NameOk(O.Last(q)) && FreeClean(st)
    ensures Sized(O.Rename(st, p, q).st) && FreeClean(O.Rename(st, p, q).st)
  {
    hide InvW, NameOk, FreeClean, O.Resolve, O.ParentOf, O.Scan, O.DirBlock, RenameEnt, Padded, O.E, O.SetDirBlock, FreeStays;
    if O.Rename(st, p, q).st != st {
      assert O.Resolve(st, 1, p) >= 0;
      var d, s, c := EntryOf(st, w, p);
      ShortName(O.Last(q));
      RenameStores(st, p, q, d, s, c);
      SetDirClean(st, w, st, d, RenameEnt(O.DirBlock(st, d), s, O.Last(q)));
      KeptClean(st, O.Rename(st, p, q).st);
    }
  }

  lemma UnlinkClean(st: Store, w: Wit, p: O.Path)
    requires O.Roomy(st) && InvW(st, w) && FreeClean(st) && FreesNothing(TreeOf(st), Unlink(p))
    ensures Sized(O.Unlink(st, p).st) && FreeClean(O.Unlink(st, p).st)
  {
    hide InvW, FreeClean, O.Unlink, TreeOf, O.Resolve, FreeStays, Shape, UnlinkBits;
    var i := FileAt(st, w, p);
    var w' := UnlinkMeetsSpec(st, w, p);
    if i >= 0 && !st.inodes[i].isDir {
      PathNotRoot(st, w, p);
      SmallUnlink(st, w, p, i);
      KeptClean(st, O.Unlink(st, p).st);
    } else {
      UnlinkRefused(st, w, p);
    }
  }

  lemma UnlinkRefused(st: Store, w: Wit, p: O.Path)
    requires O.Roomy(st) && InvW(st, w)
    requires var i := O.Resolve(st, 1, p); i < 0 || O.InodeAt(st, i).isDir
    ensures O.Unlink(st, p).st == st
  {
    hide InvW, O.Resolve, O.TruncFile, O.UnlinkEntry;
    var i := Resolved(st, w, p);
    if i < 0 { assert O.Truncate(st, p, 0) == Result(st, i); } else { assert O.Truncate(st, p, 0) == Result(st, O.EISDIR); }
  }

  lemma SmallUnlink(st: Store, w: Wit, p: O.Path, c: nat)
    requires O.Roomy(st) && InvW(st, w) && p != [] && O.Resolve(st, 1, p) == c && Live(st, c) && !st.inodes[c].isDir
    requires Shape(st, c) && st.inodes[c].size < 6 * 1024
    ensures FreeStays(st, O.Unlink(st, p).st)
  {
    hide InvW, O.Unlink, O.Resolve, O.ParentOf, O.Scan, O.DirBlock, Invalidate, Padded, O.E, FreeStays, Unlinked, Shape, Walk,
      O.SetDirBlock;
    var d, s, e := EntryOf(st, w, p);
    TruncSameParent(st, w, c, p);
    UnlinkIs(st, p, d, s, c);
    NoIndirects(st, c);
    StartPositive(st, w);
    UnlinkedSmall(st, c, d);
    SetDirClean(st, w, Unlinked(st, c), d, Invalidate(O.DirBlock(st, d), s));
  }

  lemma NoIndirects(st: Store, c: nat)
    requires c < |st.inodes| && Shape(st, c) && st.inodes[c].size < 6 * 1024
    ensures st.inodes[c].indir1 == 0 == st.inodes[c].indir2
  {
    assert T(st, c, Ind1) == st.inodes[c].indir1 && T(st, c, Ind2) == st.inodes[c].indir2;
  }

  lemma StartPositive(st: Store, w: Wit)
    requires InvW(st, w)
    ensures 0 < st.start
  {
    hide TreeInv, Shapes, Owned;
  }

  lemma UnlinkedSmall(st: Store, c: nat, d: nat)
    requires Sized(st) && 0 < st.start && c < |st.inodes| && c < |st.inodeMap| && d < |st.inodes| && d != c
    requires st.inodes[c].indir1 == 0 == st.inodes[c].indir2
    ensures var k := Unlinked(st, c);
            && |k.inodes| == |st.inodes| && k.inodes[d] == st.inodes[d]
            && k.blocks == st.blocks && k.blockMap == st.blockMap && k.start == st.start
  {
    hide O.ClearDirect;
  }

  lemma AppendClean(st: Store, w: Wit, p: O.Path, data: seq<byte>, off: nat)
    requires O.Roomy(st) && InvW(st, w) && FreeClean(st) && AppendOk(st, O.Resolve(st, 1, p), data, off)
    ensures Sized(O.Write(st, p, data, off).st) && FreeClean(O.Write(st, p, data, off).st)
  {
    hide InvW, O.Resolve, FreeClean, WriteFrom, WriteClean, Shape;
    var i := FileAt(st, w, p);
    if i >= 0 && !st.inodes[i].isDir && off <= st.inodes[i].size {
      FreeCleanIsEnough(st, w.ow, i, off / 1024, off, data, 0);
    }
  }

  lemma TruncateClean(st: Store, w: Wit, p: O.Path, len: int)
    requires O.Roomy(st) && InvW(st, w) && FreeClean(st) && TruncateOk(st, p, len)
    ensures Sized(O.Truncate(st, p, len).st) && FreeClean(O.Truncate(st, p, len).st)
  {
    hide InvW, O.Resolve, TreeOf, O.Truncate, TruncateOk, NoPointers, Without;
    var w' := TruncateMeetsSpec(st, w, p, len);
  }

  lemma StepStaysClean(st: Store, w: Wit, op: Op)
    requires O.Roomy(st) && InvW(st, w) && Careful(TreeOf(st), op, false) && FreeClean(st) && Allowed(st, op)
    ensures Sized(Exec(st, op).st) && FreeClean(Exec(st, op).st)
  {
    hide InvW, TreeOf, O.Resolve, NameOk, FreeClean, AppendOk, TruncateOk, Sized, O.Mknod, O.Truncate, O.Unlink, O.Rmdir,
      O.Rename, O.Write;
    match op {
      case Mknod(p) => MknodClean(st, w, p, false);
      case Mkdir(p) => MknodClean(st, w, p, true);
      case Truncate(p, len) => TruncateClean(st, w, p, len);
      case Unlink(p) => UnlinkClean(st, w, p);
      case Rename(p, q) => RenameClean(st, w, p, q);
      case Append(p, data, off) => AppendClean(st, w, p, data, off);
      case Read(_, _, _) =>
    }
  }

  // ---- whole runs ----

  /** A careful run never meets a stale index block, nor any other departure:
      no call needs a hypothesis about the blocks on the disk. */
  lemma {:induction false} CarefulRunAllowed(st: Store, w: Wit, ops: seq<Op>, small: bool)
    requires O.Roomy(st) && InvW(st, w) && CarefulRun(st, ops, small) && (small || FreeClean(st))
    ensures AllowedRun(st, ops)
    ensures small || (Sized(RunStore(st, ops)) && FreeClean(RunStore(st, ops)))
    decreases |ops|
  {
    hide InvW, TreeOf, Exec, Careful, Allowed, FreeClean, Leaked, Lost, OpSpec;
    if ops != [] {
      CarefulAllowed(st, w, ops[0], small);
      AllowedArgs(st, ops[0]);
      var w1 := StepKeeps(st, w, ops[0]);
      if !small { StepStaysClean(st, w, ops[0]); }
      CarefulRunAllowed(Exec(st, ops[0]).st, w1, ops[1..], small);
    }
  }

  /** From a formatted image: every careful run keeps the invariant, its return
      codes and the data it reads match the abstract tree, and it leaks exactly
      what it loses. */
  lemma FormattedCarefulRun(n: nat, ops: seq<Op>, small: bool, replies: seq<Reply>) returns (w: Wit)
    requires 196 <= n < 0x20_0000 && CarefulRun(Device.Mount(Mkfs.FormattedDisk(n)), ops, small)
    ensures var st := Device.Mount(Mkfs.FormattedDisk(n));
            && AllowedRun(st, ops) && InvW(RunStore(st, ops), w) && Sized(RunStore(st, ops))
            && Leaked(RunStore(st, ops), w.ow) == RunLost(st, ops)
            && (RunAnswers(st, ops, replies) ==> AbsRun(imap[[] := DirNode], ops, replies, TreeOf(RunStore(st, ops))))
  {
    hide InvW, TreeOf, AllowedRun, Leaked, Mkfs.FormattedDisk, RunStore, RunAnswers, RunLost, AbsRun, FreeClean, CarefulRun,
      Mkfs.FormattedWit;
    var st, w0 := Device.Mount(Mkfs.FormattedDisk(n)), Mkfs.FormattedWit(n);
    Mkfs.FormattedInv(n);
    Mkfs.FormattedIsEmpty(n);
    Mkfs.FormattedGood(n);
    RoomToWrite(st, w0);
    CarefulRunAllowed(st, w0, ops, small);
    w := RunKeeps(st, w0, ops);
    if RunAnswers(st, ops, replies) { RunRefines(st, w0, ops, replies); }
  }
}
