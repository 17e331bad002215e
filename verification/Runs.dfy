/** Whole runs: from a formatted image, any sequence of operations agrees with
    the tree of names and byte strings, keeps the invariant and leaks exactly
    what its unlinks and truncations strand. */
module Runs {
  import opened Layout
  import opened State
  import opened FileWrite
  import opened WriteProofs
  import O = Ops
  import opened Tree
  import opened TruncProofs
  import opened Spec
  import opened OpTheorems
  import opened FileRead
  import opened ReadTheorems
  import opened Leaks
  import Device
  import Mkfs

  datatype Op =
    | Mknod(path: O.Path)
    | Mkdir(path: O.Path)
    | Truncate(path: O.Path, len: int)
    | Unlink(path: O.Path)
    | Rmdir(path: O.Path)
    | Rename(src: O.Path, dst: O.Path)
    | Append(path: O.Path, data: seq<byte>, off: nat)
    | Read(path: O.Path, count: nat, off: nat)

  /** What the caller gets back. */
  datatype Reply = Rc(rc: int) | Got(r: Outcome)

  /** What main.c assumes of its arguments: a last component where one is
      needed, and a new name that fits its buffer. */
  predicate ArgsOk(op: Op) {
    match op
    case Mknod(p) => p != [] && NameOk(O.Last(p))
    case Mkdir(p) => p != [] && NameOk(O.Last(p))
    case Rmdir(p) => p != []
    case Rename(p, q) => p != [] && q != [] && NameOk(O.Last(q))
    case _ => true
  }

  /** The store after a call, with its return code; a read has none. */
  function Exec(st: Store, op: Op): (r: Result)
    requires O.Roomy(st) && ArgsOk(op)
  {
    match op
    case Mknod(p) => O.Mknod(st, p, false)
    case Mkdir(p) => O.Mknod(st, p, true)
    case Truncate(p, len) => O.Truncate(st, p, len)
    case Unlink(p) => O.Unlink(st, p)
    case Rmdir(p) => O.Rmdir(st, p)
    case Rename(p, q) => O.Rename(st, p, q)
    case Append(p, data, off) => O.Write(st, p, data, off)
    case Read(_, _, _) => Result(st, 0)
  }

  /** a is what main.c may answer to op. */
  ghost predicate Answers(st: Store, op: Op, a: Reply)
    requires O.Roomy(st) && ArgsOk(op)
  {
    match op
    case Read(p, len, off) => a.Got? && ReadResult(st, p, len, off, a.r)
    case _ => a == Rc(Exec(st, op).rc)
  }

  /** The calls that do what they promise: truncation of a file without
      single-indirect block, a new name not shorter than the old one, and
      writes that are appends below the maximal size (see README). */
  ghost predicate Allowed(st: Store, op: Op)
    requires O.Roomy(st)
  {
    && ArgsOk(op)
    && match op
       case Truncate(p, len) => TruncateOk(st, p, len)
       case Rename(p, q) => |O.Last(q)| >= |O.Last(p)|
       case Append(p, data, off) => AppendOk(st, O.Resolve(st, 1, p), data, off)
       case _ => true
  }

  ghost predicate OpSpec(t: AbsTree, op: Op, a: Reply, t': AbsTree)
    requires ArgsOk(op)
  {
    match op
    case Mknod(p) => a.Rc? && MknodSpec(t, p, false, a.rc, t')
    case Mkdir(p) => a.Rc? && MknodSpec(t, p, true, a.rc, t')
    case Truncate(p, len) => a.Rc? && TruncateSpec(t, p, len, a.rc, t')
    case Unlink(p) => a.Rc? && UnlinkSpec(t, p, a.rc, t')
    case Rmdir(p) => a.Rc? && RmdirSpec(t, p, a.rc, t')
    case Rename(p, q) => a.Rc? && RenameSpec(t, p, q, a.rc, t')
    case Append(p, data, off) => a.Rc? && AppendSpec(t, p, data, off, a.rc, t')
    case Read(p, len, off) => a.Got? && ReadSpec(t, p, len, off, a.r) && t' == t
  }

  /** The blocks a call fails to give back: those the inode of an unlinked or
      truncated file points to itself. */
  ghost function Lost(st: Store, op: Op): set<nat>
    requires O.Roomy(st) && ArgsOk(op)
  {
    if (op.Unlink? || op.Truncate?) && Exec(st, op).rc >= 0 && O.Resolve(st, 1, op.path) >= 0
    then InodeBlocks(O.InodeAt(st, O.Resolve(st, 1, op.path))) else {}
  }

  /** One operation: the invariant and the exact block account. */
  lemma StepKeeps(st: Store, w: Wit, op: Op) returns (w': Wit)
    requires O.Roomy(st) && InvW(st, w) && Allowed(st, op)
    ensures var r := Exec(st, op);
            && O.Roomy(r.st) && InvW(r.st, w') && Leaked(r.st, w'.ow) == Leaked(st, w.ow) + Lost(st, op)
            && (!op.Read? ==> OpSpec(TreeOf(st), op, Rc(r.rc), TreeOf(r.st)))
  {
    hide InvW, TreeOf, NameOk, O.Resolve, AppendOk, Leaked, InodeBlocks, MknodSpec, TruncateSpec, UnlinkSpec, RmdirSpec,
      RenameSpec, AppendSpec, O.Mknod, O.Truncate, O.Unlink, O.Rmdir, O.Rename, O.Write;
    match op {
      case Mknod(p) => w' := MknodMeetsSpec(st, w, p, false);
      case Mkdir(p) => w' := MknodMeetsSpec(st, w, p, true);
      case Truncate(p, len) =>
        w' := TruncateMeetsSpec(st, w, p, len);
        TruncateAccount(st, w, w', p, len);
      case Unlink(p) =>
        w' := UnlinkMeetsSpec(st, w, p);
        UnlinkAccount(st, w, w', p);
      case Rmdir(p) => w' := RmdirMeetsSpec(st, w, p);
      case Rename(p, q) => w' := RenameMeetsSpec(st, w, p, q);
      case Append(p, data, off) => w' := AppendMeetsSpec(st, w, p, data, off);
      case Read(_, _, _) => w' := w;
    }
    RoomToWrite(Exec(st, op).st, w');
  }

  /** ... and the promise, for every answer the code may give. */
  lemma StepOk(st: Store, w: Wit, op: Op, a: Reply) returns (w': Wit)
    requires O.Roomy(st) && InvW(st, w) && Allowed(st, op) && Answers(st, op, a)
    ensures var st' := Exec(st, op).st;
            && O.Roomy(st') && InvW(st', w') && OpSpec(TreeOf(st), op, a, TreeOf(st'))
            && Leaked(st', w'.ow) == Leaked(st, w.ow) + Lost(st, op)
  {
    hide InvW, TreeOf, Leaked, Lost, O.Mknod, O.Truncate, O.Unlink, O.Rmdir, O.Rename, O.Write, AppendOk, TruncateOk, MknodSpec,
      TruncateSpec, UnlinkSpec, RmdirSpec, RenameSpec, AppendSpec, ReadSpec, ReadResult, NameOk;
    w' := StepKeeps(st, w, op);
    if op.Read? {
      assert Inv(st);
      ReadMeetsSpec(st, op.path, op.count, op.off, a.r);
    }
  }

  lemma UnlinkAccount(st: Store, w: Wit, w': Wit, p: O.Path)
    requires O.Roomy(st) && InvW(st, w)
    requires var r := O.Unlink(st, p);
             && (r.rc < 0 ==> r.st == st && w' == w)
             && (r.rc >= 0 ==> O.Resolve(st, 1, p) >= 0 && UnlinkBits(st, w, w', O.Resolve(st, 1, p), r.st))
    ensures Sized(O.Unlink(st, p).st)
    ensures Leaked(O.Unlink(st, p).st, w'.ow) == Leaked(st, w.ow) + Lost(st, Unlink(p))
  {
    hide TreeInv, Shapes, O.Unlink, O.Resolve, Leaked, Stranded, InodeBlocks, UnlinkBits, Owned, TreeOf;
    var r := O.Unlink(st, p);
    if r.rc >= 0 {
      var c := Resolved(st, w, p);
      UnlinkLeaks(st, w, w', c, r.st);
      StrandedIs(st, w.ow, c);
    }
  }

  lemma TruncateAccount(st: Store, w: Wit, w': Wit, p: O.Path, len: int)
    requires O.Roomy(st) && InvW(st, w) && Allowed(st, Truncate(p, len))
    requires var r := O.Truncate(st, p, len);
             && (r.rc < 0 ==> r.st == st && w' == w)
             && (r.rc >= 0 ==> O.Resolve(st, 1, p) >= 0 && r.st.blockMap == st.blockMap && r.st.blocks == st.blocks
                               && r.st.start == st.start && w'.ow == Without(w.ow, O.Resolve(st, 1, p)))
    ensures Sized(O.Truncate(st, p, len).st)
    ensures Leaked(O.Truncate(st, p, len).st, w'.ow) == Leaked(st, w.ow) + Lost(st, Truncate(p, len))
  {
    hide TreeInv, O.Resolve, Leaked, Stranded, InodeBlocks, O.TruncFile, Owned, TreeOf, NodeOf, Shape;
    var r := O.Truncate(st, p, len);
    if r.rc >= 0 {
      var c := Resolved(st, w, p);
      assert Shape(st, c);
      TruncateLeaks(st, w.ow, c, r.st);
      StrandedIs(st, w.ow, c);
    }
  }

  // ---- runs ----

  /** The store after each prefix is one the next operation is allowed in. */
  ghost predicate AllowedRun(st: Store, ops: seq<Op>)
    decreases |ops|
  {
    O.Roomy(st) && (ops != [] ==> Allowed(st, ops[0]) && AllowedRun(Exec(st, ops[0]).st, ops[1..]))
  }

  ghost function RunStore(st: Store, ops: seq<Op>): Store
    requires AllowedRun(st, ops)
    decreases |ops|
  {
    if ops == [] then st else RunStore(Exec(st, ops[0]).st, ops[1..])
  }

  /** replies is what main.c may answer to ops, one reply each. */
  ghost predicate RunAnswers(st: Store, ops: seq<Op>, replies: seq<Reply>)
    requires AllowedRun(st, ops)
    decreases |ops|
  {
    && |replies| == |ops|
    && (ops != [] ==> Answers(st, ops[0], replies[0]) && RunAnswers(Exec(st, ops[0]).st, ops[1..], replies[1..]))
  }

  /** All the blocks a run loses. */
  ghost function RunLost(st: Store, ops: seq<Op>): set<nat>
    requires AllowedRun(st, ops)
    decreases |ops|
  {
    if ops == [] then {} else Lost(st, ops[0]) + RunLost(Exec(st, ops[0]).st, ops[1..])
  }

  /** The abstract tree may answer ops with these replies and end as t'. */
  ghost predicate AbsRun(t: AbsTree, ops: seq<Op>, replies: seq<Reply>, t': AbsTree)
    decreases |ops|
  {
    && |replies| == |ops|
    && if ops == [] then t' == t
       else exists m: AbsTree :: AbsStep(t, ops[0], replies[0], m) && AbsRun(m, ops[1..], replies[1..], t')
  }

  ghost predicate AbsStep(t: AbsTree, op: Op, a: Reply, m: AbsTree) {
    ArgsOk(op) && OpSpec(t, op, a, m)
  }

  /** Every run keeps the invariant and leaks exactly what it loses. */
  lemma {:induction false} RunKeeps(st: Store, w: Wit, ops: seq<Op>) returns (w': Wit)
    requires InvW(st, w) && AllowedRun(st, ops)
    ensures InvW(RunStore(st, ops), w') && Sized(RunStore(st, ops))
    ensures Leaked(RunStore(st, ops), w'.ow) == Leaked(st, w.ow) + RunLost(st, ops)
    decreases |ops|
  {
    hide InvW, TreeOf, Exec, OpSpec, Allowed, Leaked, Lost;
    w' := w;
    if ops != [] {
      AllowedArgs(st, ops[0]);
      var w1 := StepKeeps(st, w, ops[0]);
      w' := RunKeeps(Exec(st, ops[0]).st, w1, ops[1..]);
    }
  }

  /** Every run refines the abstract tree: return codes and data read. */
  lemma {:induction false} RunRefines(st: Store, w: Wit, ops: seq<Op>, replies: seq<Reply>)
    requires InvW(st, w) && AllowedRun(st, ops) && RunAnswers(st, ops, replies)
    ensures AbsRun(TreeOf(st), ops, replies, TreeOf(RunStore(st, ops)))
    decreases |ops|
  {
    hide InvW, TreeOf, Exec, OpSpec, Allowed, Leaked, Lost, Answers;
    if ops != [] {
      AllowedArgs(st, ops[0]);
      var st1 := Exec(st, ops[0]).st;
      var w1 := StepOk(st, w, ops[0], replies[0]);
      RunRefines(st1, w1, ops[1..], replies[1..]);
      assert AbsStep(TreeOf(st), ops[0], replies[0], TreeOf(st1));
    }
  }

  lemma AllowedArgs(st: Store, op: Op)
    requires O.Roomy(st) && Allowed(st, op)
    ensures ArgsOk(op)
  {
  }

  // ---- from a formatted image ----

  /** The abstract run starts from the empty tree, and what is leaked at the
      end is what the run lost. */
  lemma FormattedRunRefines(n: nat, ops: seq<Op>, replies: seq<Reply>) returns (w: Wit)
    requires 196 <= n < 0x20_0000
    requires var st := Device.Mount(Mkfs.FormattedDisk(n)); AllowedRun(st, ops) && RunAnswers(st, ops, replies)
    ensures var st := Device.Mount(Mkfs.FormattedDisk(n));
            && InvW(RunStore(st, ops), w) && Sized(RunStore(st, ops))
            && AbsRun(imap[[] := DirNode], ops, replies, TreeOf(RunStore(st, ops)))
            && Leaked(RunStore(st, ops), w.ow) == RunLost(st, ops)
  {
    hide InvW, TreeOf, AllowedRun, Leaked, Mkfs.FormattedDisk, RunStore, RunAnswers, RunLost, AbsRun;
    var st := Device.Mount(Mkfs.FormattedDisk(n));
    Mkfs.FormattedInv(n);
    Mkfs.FormattedIsEmpty(n);
    Mkfs.FormattedGood(n);
    w := RunKeeps(st, Mkfs.FormattedWit(n), ops);
    RunRefines(st, Mkfs.FormattedWit(n), ops, replies);
  }

  /** In every reachable store a bit of the block map is set exactly when the
      block is metadata, was lost by an unlink or truncation of the run, or is
      held by a pointer of a used inode; and it is only one of these, and held
      by one pointer only. */
  lemma ReachableOwnership(n: nat, ops: seq<Op>, x: nat)
    requires 196 <= n < 0x20_0000 && AllowedRun(Device.Mount(Mkfs.FormattedDisk(n)), ops)
    requires x < |RunStore(Device.Mount(Mkfs.FormattedDisk(n)), ops).blocks|
    ensures var st0 := Device.Mount(Mkfs.FormattedDisk(n));
            var st := RunStore(st0, ops);
            && x < |st.blockMap|
            && (st.blockMap[x] <==> x < st.start || x in RunLost(st0, ops) || Held(st, x))
            && !(x < st.start && (x in RunLost(st0, ops) || Held(st, x))) && !(x in RunLost(st0, ops) && Held(st, x))
            && (Held(st, x) ==> forall i: nat, j: nat, l, m :: HeldBy(st, x, i, l) && HeldBy(st, x, j, m) ==> i == j && l == m)
  {
    hide InvW, TreeOf, AllowedRun, Mkfs.FormattedDisk, RunStore, RunLost;
    var st0 := Device.Mount(Mkfs.FormattedDisk(n));
    Mkfs.FormattedInv(n);
    Mkfs.FormattedGood(n);
    var w := RunKeeps(st0, Mkfs.FormattedWit(n), ops);
    AccountOf(RunStore(st0, ops), w, RunLost(st0, ops), x);
  }

  ghost predicate Held(st: Store, x: nat) { x != 0 && exists i: nat, loc :: HeldBy(st, x, i, loc) }

  lemma AccountOf(st: Store, w: Wit, lost: set<nat>, x: nat)
    requires InvW(st, w) && Sized(st) && Leaked(st, w.ow) == lost && x < |st.blocks|
    ensures x < |st.blockMap|
    ensures st.blockMap[x] <==> x < st.start || x in lost || Held(st, x)
    ensures !(x < st.start && (x in lost || Held(st, x))) && !(x in lost && Held(st, x))
    ensures Held(st, x) ==> forall i: nat, j: nat, l, m :: HeldBy(st, x, i, l) && HeldBy(st, x, j, m) ==> i == j && l == m
  {
    hide TreeInv, Shapes, Target, MapOk;
    ExactOwnership(st, w.ow, x);
    if Held(st, x) {
      var i: nat, loc :| HeldBy(st, x, i, loc);
      assert T(st, i, loc) == x;
    }
  }
}
