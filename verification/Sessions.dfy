/** Whole sessions of the file system object: format, mount, any careful run of
    calls, and the checker over the disk that is left. */
module Sessions {
  import opened Layout
  import opened State
  import opened WriteProofs
  import opened Device
  import O = Ops
  import opened Tree
  import opened Spec
  import opened OpTheorems
  import opened ReadTheorems
  import opened FrameTheorems
  import opened WriteTheorems
  import opened Runs
  import opened CarefulRuns
  import opened Checker
  import opened CheckerTheorems
  import Mkfs
  import F = FileSystem
  import WriteLoops
  import WriteLog

  /** One call. */
  method Perform(fs: F.FileSystem, op: Op) returns (a: Reply)
    requires fs.Valid() && O.Roomy(fs.St()) && Allowed(fs.St(), op)
    modifies fs`disk, fs`log, fs.inodeMap, fs.blockMap, fs.inodes
    ensures fs.Valid() && O.Roomy(old(fs.St())) && ArgsOk(op)
    ensures Answers(old(fs.St()), op, a) && fs.St() == Exec(old(fs.St()), op).st
  {
    hide F.FileSystem.Shaped, F.FileSystem.Synced, Inv, F.FileSystem.St, TreeOf, NameOk, O.Resolve, AppendOk, TruncateOk,
      ReadResult, ReadSpec, MknodSpec, TruncateSpec, UnlinkSpec, RmdirSpec, RenameSpec, AppendSpec, WriteFrame, F.WriteReady,
      O.Mknod, O.Truncate, O.Unlink, O.Rmdir, O.Rename, O.Write, WriteLoops.Write, WriteLog.WriteWrites, F.Adopting;
    match op {
      case Mknod(p) => var rc := fs.Mknod(p, false); a := Rc(rc);
      case Mkdir(p) => var rc := fs.Mknod(p, true); a := Rc(rc);
      case Truncate(p, len) => var rc := fs.Truncate(p, len); a := Rc(rc);
      case Unlink(p) => var rc := fs.Unlink(p); a := Rc(rc);
      case Rmdir(p) => var rc := fs.Rmdir(p); a := Rc(rc);
      case Rename(p, q) => var rc := fs.Rename(p, q); a := Rc(rc);
      case Append(p, data, off) =>
        F.Ready(fs.St(), p, data, off);
        var _, rc := fs.Write(p, data, off);
        a := Rc(rc);
      case Read(p, count, off) => var r := fs.Read(p, count, off); a := Got(r);
    }
  }

  /** A run: the object answers as the store functions say, so what it answers
      matches the abstract tree. */
  method PerformAll(fs: F.FileSystem, ops: seq<Op>) returns (replies: seq<Reply>)
    requires fs.Valid() && AllowedRun(fs.St(), ops)
    modifies fs`disk, fs`log, fs.inodeMap, fs.blockMap, fs.inodes
    ensures fs.Valid() && AllowedRun(old(fs.St()), ops)
    ensures RunAnswers(old(fs.St()), ops, replies) && fs.St() == RunStore(old(fs.St()), ops)
    ensures AbsRun(TreeOf(old(fs.St())), ops, replies, TreeOf(fs.St()))
    decreases |ops|
  {
    hide F.FileSystem.Shaped, F.FileSystem.Synced, Inv, F.FileSystem.St, TreeOf, Allowed, Exec, Answers, AbsRun;
    ghost var st := fs.St();
    if ops == [] {
      replies := [];
    } else {
      var a := Perform(fs, ops[0]);
      var rest := PerformAll(fs, ops[1..]);
      replies := [a] + rest;
      assert replies[1..] == rest;
    }
    RefinesNow(st, ops, replies);
  }

  lemma RefinesNow(st: Store, ops: seq<Op>, replies: seq<Reply>)
    requires Inv(st) && AllowedRun(st, ops) && RunAnswers(st, ops, replies)
    ensures AbsRun(TreeOf(st), ops, replies, TreeOf(RunStore(st, ops)))
  {
    hide InvW, TreeOf, AllowedRun, RunAnswers, AbsRun, RunStore;
    var w :| InvW(st, w);
    RunRefines(st, w, ops, replies);
  }

  /** Format an image, mount it, make any careful run of calls, and check the
      disk: the replies match the abstract tree grown from the empty one, and
      the checker finds no loop, no error and no unreachable inode. */
  method FormatRunCheck(n: nat, ops: seq<Op>, ghost small: bool) returns (replies: seq<Reply>, v: Verdict, clean: bool)
    requires 196 <= n < 0x20_0000 && CarefulRun(Mount(Mkfs.FormattedDisk(n)), ops, small)
    ensures AllowedRun(Mount(Mkfs.FormattedDisk(n)), ops)
    ensures AbsRun(imap[[] := DirNode], ops, replies, TreeOf(RunStore(Mount(Mkfs.FormattedDisk(n)), ops)))
    ensures v.Done? && clean && v.unreachable == []
  {
    hide F.FileSystem.Shaped, Inv, TreeOf, AllowedRun, RunAnswers, AbsRun, RunStore, CarefulRun, Mkfs.FormattedDisk,
      ReachedTwice, Reach, Fine, BitSet;
    var d := Mkfs.Format(n);
    FormattedAllowed(n, ops, small);
    var fs := new F.FileSystem(d);
    replies := PerformAll(fs, ops);
    SoundForChecker(Mount(fs.disk));
    v, clean := Check(Mount(fs.disk));
    NoneUnreachable(Mount(fs.disk), v);
  }

  lemma NoneUnreachable(im: Store, v: Verdict)
    requires v.Done? && |v.imap_| == |im.inodes|
    requires forall i :: 0 <= i < |im.inodes| ==> (v.imap_[i] <==> exists x :: Reach(im, x) && x.inum == i)
    requires forall i: nat :: 1 <= i < |im.inodes| && BitSet(im.inodeMap, i) ==> exists x :: Reach(im, x) && x.inum == i
    requires forall i :: i in v.unreachable <==> 1 <= i < |im.inodes| && !v.imap_[i] && BitSet(im.inodeMap, i)
    ensures v.unreachable == []
  {
    hide Reach, BitSet;
    if v.unreachable != [] { Unreached(im, v, v.unreachable[0]); }
  }

  lemma Unreached(im: Store, v: Verdict, i: nat)
    requires v.Done? && |v.imap_| == |im.inodes|
    requires forall i :: 0 <= i < |im.inodes| ==> (v.imap_[i] <==> exists x :: Reach(im, x) && x.inum == i)
    requires forall i: nat :: 1 <= i < |im.inodes| && BitSet(im.inodeMap, i) ==> exists x :: Reach(im, x) && x.inum == i
    requires forall i :: i in v.unreachable <==> 1 <= i < |im.inodes| && !v.imap_[i] && BitSet(im.inodeMap, i)
    ensures i !in v.unreachable
  {
    hide Reach, BitSet;
  }

  lemma FormattedAllowed(n: nat, ops: seq<Op>, small: bool)
    requires 196 <= n < 0x20_0000 && CarefulRun(Mount(Mkfs.FormattedDisk(n)), ops, small)
    ensures var st := Mount(Mkfs.FormattedDisk(n)); Inv(st) && AllowedRun(st, ops) && TreeOf(st) == imap[[] := DirNode]
  {
    hide InvW, TreeOf, AllowedRun, Leaked, Mkfs.FormattedDisk, RunStore, RunLost, FreeClean, CarefulRun, Mkfs.FormattedWit;
    Mkfs.FormattedInv(n);
    Mkfs.FormattedIsEmpty(n);
    var w := FormattedCarefulRun(n, ops, small, []);
  }

  lemma SoundForChecker(st: Store)
    requires Inv(st)
    ensures 1 < |st.inodes| && !ReachedTwice(st)
    ensures forall x :: Reach(st, x) ==> Fine(st, x)
    ensures forall i: nat :: 1 <= i < |st.inodes| && BitSet(st.inodeMap, i) ==> exists x :: Reach(st, x) && x.inum == i
  {
    hide InvW, ReachedTwice, Reach, Fine;
    var w :| InvW(st, w);
    RoomToWrite(st, w);
    CheckerAccepts(st, w);
  }
}
