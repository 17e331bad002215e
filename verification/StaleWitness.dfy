/** The stale index block on a formatted image: fill a file to 518 blocks, make
    and remove a directory that held a file, append one byte. */
module StaleWitness {
  import opened Layout
  import opened State
  import opened FileWrite
  import opened WriteProofs
  import opened WriteCost
  import opened Mkfs
  import O = Ops
  import opened Tree
  import opened TreeProofs
  import opened Spec
  import opened OpTheorems
  import opened Crash
  import opened CopyProofs
  import opened WriteLoops
  import opened StaleAppends
  import opened StaleWrites
  import opened StaleStops
  import opened StaleRun
  import opened Witnesses
  import opened FreedBlocks

  lemma {:induction false} FreeExists(bm: seq<bool>, i: nat, n: nat)
    requires i <= n <= |bm| && CountFree(bm, i, n) > 0
    ensures exists b :: i <= b < n && !bm[b]
    decreases n - i
  {
    if bm[i] { FreeExists(bm, i + 1, n); }
  }

  /** Inodes 0 and 1 and one more are in use. */
  lemma FilledInodes(n: nat, m: Name, content: seq<byte>) returns (i: nat)
    requires 196 <= n < 0x20_0000 && NameOk(m)
    requires content != [] && |content| <= MAX_BYTES && TotalBlocks(DataBlocks(|content|)) < n - LayoutOf(n).rootdirBase
    ensures O.Roomy(Filled(n, m, content)) && Filled(n, m, content).start == LayoutOf(n).rootdirBase
    ensures forall t :: 2 <= t < 64 && t != i ==> !Filled(n, m, content).inodeMap[t]
  {
    hide Inv, TreeOf, WithFile, NameOk, Clean, FreeBlocks, LayoutOf, O.Resolve, TotalBlocks, DataBlocks;
    var j := FilledHolds(n, m, content);
    i := WithFileInodes(n, m);
    WriteKeepsMap(WithFile(n, m), [m], content);
  }

  lemma WriteKeepsMap(st: Store, p: O.Path, data: seq<byte>)
    requires Sized(st)
    ensures O.Write(st, p, data, 0).st.inodeMap == st.inodeMap && O.Write(st, p, data, 0).st.start == st.start
  {
    hide WriteFrom, O.Resolve;
    var i := O.Resolve(st, 1, p);
    if 0 <= i < |st.inodes| { FromKeepsMap(st, i, 0, 0, data, 0); }
  }

  lemma {:induction false} FromKeepsMap(st: Store, i: nat, l: nat, off: nat, data: seq<byte>, done: nat)
    requires Sized(st) && i < |st.inodes|
    ensures WriteFrom(st, i, l, off, data, done).st.inodeMap == st.inodeMap
             && WriteFrom(st, i, l, off, data, done).st.start == st.start
    decreases |data|, if l < 65798 then 65798 - l else 0
  {
    if l < 65798 {
      StepKeepsMap(st, i, l, off, data);
      hide WriteStep;
      var s := WriteStep(st, i, l, off, data);
      if s.Wrote? && s.k < |data| { FromKeepsMap(s.st, i, l + 1, NextOff(l, off, s.tb), data[s.k..], done + s.k); }
    }
  }

  lemma StepKeepsMap(st: Store, i: nat, l: nat, off: nat, data: seq<byte>)
    requires Sized(st) && i < |st.inodes| && l < 65798
    ensures WriteStep(st, i, l, off, data).st.inodeMap == st.inodeMap && WriteStep(st, i, l, off, data).st.start == st.start
  {
    hide Target, Grow;
    GrowKeepsMap(st, i, Ind1);
    GrowKeepsMap(st, i, Ind2);
    if 262 <= l { GrowKeepsMap(Grow(st, i, Ind2).st, i, OuterOf(l)); }
    GrowKeepsMap(GrowIndex(st, i, l).st, i, Data(l));
  }

  lemma GrowKeepsMap(st: Store, i: nat, loc: Loc)
    requires Sized(st) && i < |st.inodes| && LocOk(loc)
    ensures Grow(st, i, loc).st.inodeMap == st.inodeMap && Grow(st, i, loc).st.start == st.start
  {
    hide Target;
  }

  lemma WithFileInodes(n: nat, m: Name) returns (i: nat)
    requires 196 <= n < 0x20_0000 && NameOk(m)
    ensures O.Roomy(WithFile(n, m)) && WithFile(n, m).start == LayoutOf(n).rootdirBase
    ensures forall t :: 2 <= t < 64 && t != i ==> !WithFile(n, m).inodeMap[t]
  {
    hide InvW, TreeOf, FormattedDisk, FormattedWit, O.Mknod, NameOk, Fresh, O.Create, O.Scan, O.DirBlock, Walk, FilesKept,
      WalksKept;
    FreshInv(n);
    FirstCreate(n, m);
    FreshMap(n);
    var w', d, s, b;
    w', d, s, i, b := CreateStep(Fresh(n), FormattedWit(n), [m], false);
    CreatedMap(Fresh(n), d, s, i, b, m);
    RoomToWrite(WithFile(n, m), w');
  }

  lemma CreatedMap(st: Store, d: nat, s: nat, i: nat, b: nat, m: Name)
    requires O.Roomy(st) && s < 32 && i < 64 && NameOk(m)
    ensures var st' := O.Create(st, d, s, i, b, m, false); st'.inodeMap == st.inodeMap[i := true] && st'.start == st.start
  {
    hide PutEnt;
  }

  lemma FreshMap(n: nat)
    requires 196 <= n < 0x20_0000
    ensures O.Roomy(Fresh(n)) && Fresh(n).start == LayoutOf(n).rootdirBase
    ensures forall t :: 2 <= t < 64 ==> !Fresh(n).inodeMap[t]
  {
    FreshInv(n);
    LayoutOkIff(n);
    MountAgrees(n);
    hide InvW, TreeOf, SuperBytes, LayoutOf;
  }

  /** With one file below the root, one of its first two slots is unused. */
  lemma RootHasRoom(st: Store, w: Wit, m: Name, node: Node)
    requires InvW(st, w) && TreeOf(st) == imap[[] := DirNode, [m] := node]
    ensures !O.E(st, 1, 0).valid || !O.E(st, 1, 1).valid
  {
    hide TreeOf, O.E, Good, Shapes, Walk, DirPointers, FirstFit, Lookup;
    assert RootOk(st, w);
    assert DirOk(st, w, 1);
    hide TreeInv;
    if O.E(st, 1, 0).valid && O.E(st, 1, 1).valid {
      ChildNamed(st, w, 0, m);
      ChildNamed(st, w, 1, m);
    }
  }

  lemma ChildNamed(st: Store, w: Wit, s: nat, m: Name)
    requires InvW(st, w) && s < 32 && LiveDir(st, 1) && O.E(st, 1, s).valid
    requires forall q :: q in TreeOf(st) ==> q == [] || q == [m]
    ensures O.E(st, 1, s).name == m
  {
    hide TreeOf, O.E, InvW, Walk, NoneNamed;
    var n := O.E(st, 1, s).name;
    WalkNil(st);
    assert Init([n]) == [];
    NameFree(st, w, [n], 1, n);
    assert !NoneNamed(st, 1, n) by { Named1(st, s, n); }
    assert [] + [n] == [n];
    assert [n] in TreeOf(st);
  }

  lemma Named1(st: Store, s: nat, n: Name)
    requires s < 32 && O.E(st, 1, s).valid && O.E(st, 1, s).name == n
    ensures !NoneNamed(st, 1, n)
  {
    hide O.E;
  }

  // ---- the run ----

  /** mkdir and mknod inside it succeed on an image with one file and room. */
  lemma CreatesSucceed(st: Store, w: Wit, m: Name, node: Node, o: Name, x: Name, i: nat)
    requires O.Roomy(st) && InvW(st, w) && TreeOf(st) == imap[[] := DirNode, [m] := node] && o != m
    requires NameOk(o) && NameOk(x) && FreeBlocks(st) > 0 && forall t :: 2 <= t < 64 && t != i ==> !st.inodeMap[t]
    ensures O.Mknod(st, [o], true).rc == 0
    ensures var s1 := O.Mknod(st, [o], true).st; O.Roomy(s1) && O.Mknod(s1, [o] + [x], false).rc == 0
  {
    hide InvW, TreeOf, O.Mknod, NameOk, AbsEnter, O.E, FilesKept, WalksKept, Walk, O.DirBlock, O.ParentOf, O.Scan;
    CreateBeside(st, w, m, node, o, i, true);
    var w1, c, b := MkdirStep(st, w, [o]);
    var s1 := O.Mknod(st, [o], true).st;
    OneInodeLess(st, w, o, i);
    var v := MknodMeetsSpec(st, w, [o], true);
    RootEntered(TreeOf(st), o);
    SecondMknod(s1, w1, o, x, c);
  }

  lemma CreateBeside(st: Store, w: Wit, m: Name, node: Node, o: Name, i: nat, isDir: bool)
    requires O.Roomy(st) && InvW(st, w) && TreeOf(st) == imap[[] := DirNode, [m] := node] && o != m
    requires NameOk(o) && FreeBlocks(st) > 0 && forall t :: 2 <= t < 64 && t != i ==> !st.inodeMap[t]
    ensures O.Mknod(st, [o], isDir).rc == 0
  {
    hide InvW, TreeOf, O.Mknod, NameOk, AbsEnter, O.E, O.ParentOf;
    RootEntered(TreeOf(st), o);
    var w1 := MknodMeetsSpec(st, w, [o], isDir);
    assert [o] !in TreeOf(st);
    MknodFullIff(st, w, [o], isDir);
    RootParent(st, o);
    RootHasRoom(st, w, m, node);
    FreeExists(st.blockMap, st.start, |st.blocks|);
    assert !st.inodeMap[2] || !st.inodeMap[3];
  }

  /** After the mkdir an inode is still free. */
  lemma OneInodeLess(st: Store, w: Wit, o: Name, i: nat)
    requires O.Roomy(st) && InvW(st, w) && NameOk(o) && O.Mknod(st, [o], true).rc == 0
    requires forall t :: 2 <= t < 64 && t != i ==> !st.inodeMap[t]
    ensures var s1 := O.Mknod(st, [o], true).st; O.Roomy(s1) && exists t :: 2 <= t < 64 && !s1.inodeMap[t]
  {
    hide InvW, O.Mknod, NameOk, O.Create, Walk, FilesKept, WalksKept, PutEnt, O.Scan, O.DirBlock;
    var w', d, s, j, b := CreateStep(st, w, [o], true);
    CreateFields(st, d, s, j, b, o, true);
    var s1 := O.Mknod(st, [o], true).st;
    RoomToWrite(s1, w');
    assert !s1.inodeMap[2] || !s1.inodeMap[3] || !s1.inodeMap[4];
  }

  lemma SecondMknod(s1: Store, w1: Wit, o: Name, x: Name, c: nat)
    requires O.Roomy(s1) && InvW(s1, w1) && NameOk(x) && Walk(s1, [o]) == c && LiveDir(s1, c)
    requires s1.inodes[c].direct[0] < |s1.blocks| && s1.blocks[s1.inodes[c].direct[0]] == ZeroBlock
    requires exists t :: 2 <= t < 64 && !s1.inodeMap[t]
    ensures O.Mknod(s1, [o] + [x], false).rc == 0
  {
    hide InvW, O.Mknod, NameOk, O.E, Walk, O.ParentOf, O.Resolve, AbsEnter, TreeOf, Lookup, O.DirBlock, O.Scan;
    var p := [o] + [x];
    assert Init(p) == [o];
    var w2 := MknodMeetsSpec(s1, w1, p, false);
    var d := ParentIs(s1, w1, p);
    ResolveParent(s1, w1, p, c);
    EmptyHasNone(s1, c, x);
    var r := Resolved(s1, w1, p);
    MknodFullIff(s1, w1, p, false);
  }

  lemma ResolveParent(st: Store, w: Wit, p: O.Path, c: nat)
    requires InvW(st, w) && p != [] && Walk(st, Init(p)) == c && LiveDir(st, c)
    ensures O.ParentOf(st, 1, p) == c && O.Resolve(st, 1, p) == Lookup(st, c, O.Last(p))
  {
    hide TreeInv, Good, Shapes, Walk, Lookup, O.Resolve, O.ParentOf;
    ResolveIsWalk(st, w, p);
  }

  lemma EmptyHasNone(st: Store, c: nat, x: Name)
    requires c < |st.inodes| && st.inodes[c].direct[0] < |st.blocks| && st.blocks[st.inodes[c].direct[0]] == ZeroBlock
    ensures Lookup(st, c, x) < 0 && !O.E(st, c, 0).valid
  {
    ZeroSlot(st, c);
    hide Ent;
    forall t | 0 <= t < 32 ensures !O.E(st, c, t).valid { EntZeroBlock(t); }
    LookupNone(st, c, x);
  }

  /** A file of 518 blocks is broken by one appended byte once a directory that
      held a file has come and gone. */
  lemma StaleIndexRun(n: nat, m: Name, o: Name, x: Name)
    returns (st: Store, i: nat, s1: Store, s2: Store, s3: Store, s4: Store)
    requires n == 20000 && NameOk(m) && NameOk(o) && NameOk(x) && o != m
    ensures st == Filled(n, m, Zeros(518 * 1024)) && Holds(st, [m], i, Zeros(518 * 1024))
    ensures O.Roomy(st) && O.Mknod(st, [o], true) == Result(s1, 0)
    ensures O.Roomy(s1) && O.Mknod(s1, [o] + [x], false) == Result(s2, 0)
    ensures O.Roomy(s2) && O.Unlink(s2, [o] + [x]) == Result(s3, 0) && O.Rmdir(s3, [o]) == Result(s4, 0)
    ensures O.Roomy(s4) && Inv(s4)
    ensures var r := WriteLoops.Write(s4, [m], [9], 518 * 1024);
            r.Ended? && r.rc == 1 && r.torn && i < |r.st.inodes| && !WellOwned(r.st, i)
  {
    hide InvW, TreeOf, O.Mknod, O.Unlink, O.Rmdir, O.Write, NameOk, Walk, FilesKept, FileKept, WalksKept, Filled, Zeros,
      LayoutOf, TotalBlocks, DataBlocks, Holds, FreeBlocks, WellOwned, Ptr, O.Resolve, FirstFree;
    BigEnough(n);
    ZerosLength(518 * 1024);
    i := FilledHolds(n, m, Zeros(518 * 1024));
    st := Filled(n, m, Zeros(518 * 1024));
    var j := FilledInodes(n, m, Zeros(518 * 1024));
    var w := HeldWit(st, [m], i, Zeros(518 * 1024));
    CreatesSucceed(st, w, m, FileNode(Zeros(518 * 1024)), o, x, j);
    var w4, b;
    w4, s1, s2, s3, s4, b := StaleRun.DirectoryCycle(st, w, [o], x);
    BrokenByOneByte(st, w, s4, w4, m, o, i, b, Zeros(518 * 1024));
  }

  lemma BigEnough(n: nat)
    requires n == 20000
    ensures LayoutOf(n).rootdirBase == 318 && TotalBlocks(DataBlocks(518 * 1024)) == 521
  {
  }

  lemma HeldWit(st: Store, path: O.Path, i: int, bytes: seq<byte>) returns (w: Wit)
    requires Holds(st, path, i, bytes)
    ensures InvW(st, w) && 0 <= i && Live(st, i) && !st.inodes[i].isDir
  {
    hide InvW;
    w :| InvW(st, w);
  }

  lemma BrokenByOneByte(st: Store, w: Wit, s4: Store, w4: Wit, m: Name, o: Name, i: nat, b: nat, bytes: seq<byte>)
    requires InvW(st, w) && Holds(st, [m], i, bytes) && |bytes| == 518 * 1024 && InvW(s4, w4) && O.Roomy(s4) && o != m
    requires FileKept(st, s4, i) && WalksKept(st, s4, [o]) && s4.blockMap == st.blockMap && s4.start == st.start >= 256
    requires |s4.blocks| == |st.blocks| && O.Roomy(st) && b == FirstFree(st.blockMap, st.start, |st.blocks|) < |st.blocks|
    requires 0 < Ptr(s4.blocks[b], 0) < 256 && Ptr(s4.blocks[b], 1) != 0
    ensures var r := WriteLoops.Write(s4, [m], [9], 518 * 1024);
            r.Ended? && r.rc == 1 && r.torn && i < |r.st.inodes| && !WellOwned(r.st, i)
  {
    hide InvW, Holds, FileKept, WalksKept, Ptr, LoopsFile, O.Resolve, FirstFree, Shape, AtIndexEnd, WriteLoops.Write;
    LiveStill(st, s4, i);
    ShapeOf(s4, w4, i);
    EndKept(st, s4, m, i, b, bytes);
    PathKept(st, w, s4, w4, m, o, i, bytes);
    BreaksAtEnd(s4, w4.ow, i, b);
    WriteIs(s4, m, i, [9]);
  }

  lemma LiveStill(st: Store, st': Store, i: nat)
    requires FileKept(st, st', i)
    ensures Live(st', i)
  {
  }

  lemma EndKept(st: Store, s4: Store, m: Name, i: nat, b: nat, bytes: seq<byte>)
    requires Holds(st, [m], i, bytes) && |bytes| == 518 * 1024 && FileKept(st, s4, i) && Shape(s4, i)
    requires Sized(s4) && b == FirstFree(s4.blockMap, s4.start, |s4.blocks|) < |s4.blocks|
    ensures Live(s4, i) && AtIndexEnd(s4, i, 1, b) && !s4.inodes[i].isDir && s4.inodes[i].size == 518 * 1024
  {
    hide Inv, O.Resolve, Contents, T, FirstFree, Shape, Boundary;
    assert |Contents(st, i)| == st.inodes[i].size;
    assert T(st, i, Ind2) != 0 && T(st, i, Outer(1)) == 0;
    BoundaryIs(s4, i, 518);
  }

  lemma PathKept(st: Store, w: Wit, s4: Store, w4: Wit, m: Name, o: Name, i: nat, bytes: seq<byte>)
    requires InvW(st, w) && Holds(st, [m], i, bytes) && InvW(s4, w4) && WalksKept(st, s4, [o]) && o != m
    ensures O.Resolve(s4, 1, [m]) == i
  {
    hide TreeInv, Good, Shapes, Walk, O.Resolve, Contents, Tight;
    ResolveIsWalk(st, w, [m]);
    KeptWalk(st, s4, [o], [m]);
    ResolveIsWalk(s4, w4, [m]);
  }

  lemma BreaksAtEnd(st: Store, ow: Owners, i: nat, b: nat)
    requires Good(st, ow) && Live(st, i) && AtIndexEnd(st, i, 1, b) && st.start >= 256
    requires 0 < Ptr(st.blocks[b], 0) < 256 && Ptr(st.blocks[b], 1) != 0
    ensures var r := LoopsFile(st, i, st.inodes[i].size, [9]);
            r.Ended? && r.rc == 1 && r.torn && i < |r.st.inodes| && !WellOwned(r.st, i)
  {
    hide Owned, T, Ptr, LoopsFile, FirstFree, Shape, Boundary, Takes;
    StaleWriteIs(st, ow, i, 1, b, [9]);
    TakeFacts(st, ow, i, 1, b);
    IndirectBeyond(st, ow, i);
    StaleBreaks(st, ow, i, 1, b, [9], 1);
  }

  lemma WriteIs(st: Store, m: Name, i: nat, data: seq<byte>)
    requires Sized(st) && i < |st.inodes| && O.Resolve(st, 1, [m]) == i && !st.inodes[i].isDir && st.inodes[i].size == 518 * 1024
    ensures WriteLoops.Write(st, [m], data, 518 * 1024) == LoopsFile(st, i, 518 * 1024, data)
  {
    hide O.Resolve, LoopsFile;
  }

  lemma IndirectBeyond(st: Store, ow: Owners, i: nat)
    requires Good(st, ow) && Live(st, i) && st.inodes[i].indir2 != 0
    ensures st.inodes[i].indir2 >= st.start
  {
    hide Target;
    InodePointers(st, i);
    assert T(st, i, Ind2) >= st.start;
  }

  // ---- a run the device stops ----

  /** A file of 518 blocks cannot be appended to once a file of seven blocks, of
      which the last began with a number off any disk, has come and gone: the
      device stops the program. */
  lemma StaleStopRun(n: nat, m: Name, o: Name, six: seq<byte>, c: Block)
    returns (st: Store, i: nat, s1: Store, s2: Store, s3: Store, s4: Store, j: nat)
    requires n == 20000 && NameOk(m) && NameOk(o) && o != m && |six| == 6144 && Ptr(c, 0) >= 0x20_0000
    ensures st == Filled(n, m, Zeros(518 * 1024)) && Holds(st, [m], i, Zeros(518 * 1024))
    ensures O.Roomy(st) && Made(st, [o], six, c, s1, s2, s3, j) && O.Roomy(s3) && O.Unlink(s3, [o]) == Result(s4, 0)
    ensures Inv(s4) && O.Roomy(s4) && WriteLoops.Write(s4, [m], [9], 518 * 1024).Stopped?
  {
    hide InvW, TreeOf, O.Mknod, O.Unlink, NameOk, Walk, FileKept, WalksKept, Filled, Zeros, LayoutOf, TotalBlocks, DataBlocks,
      Holds, FreeBlocks, Ptr, O.Resolve, FirstFree, Made, WriteLoops.Write;
    BigEnough(n);
    ZerosLength(518 * 1024);
    i := FilledHolds(n, m, Zeros(518 * 1024));
    st := Filled(n, m, Zeros(518 * 1024));
    var k := FilledInodes(n, m, Zeros(518 * 1024));
    var w := HeldWit(st, [m], i, Zeros(518 * 1024));
    CreateBeside(st, w, m, FileNode(Zeros(518 * 1024)), o, k, false);
    var w4, y;
    w4, s1, s2, s3, s4, j, y := FileCycle(st, w, [o], six, c);
    RoomToWrite(s4, w4);
    SmallDisk(s4, w4);
    StopsAtEnd(st, w, s4, w4, m, o, i, y, Zeros(518 * 1024));
  }

  lemma SmallDisk(st: Store, w: Wit)
    requires InvW(st, w)
    ensures |st.blocks| < 0x20_0000
  {
    hide TreeInv, Shapes, Owned;
  }

  lemma StopsAtEnd(st: Store, w: Wit, s4: Store, w4: Wit, m: Name, o: Name, i: nat, b: nat, bytes: seq<byte>)
    requires InvW(st, w) && Holds(st, [m], i, bytes) && |bytes| == 518 * 1024 && InvW(s4, w4) && O.Roomy(s4) && o != m
    requires FileKept(st, s4, i) && WalksKept(st, s4, [o]) && b == FirstFree(s4.blockMap, s4.start, |s4.blocks|) < |s4.blocks|
    requires Ptr(s4.blocks[b], 0) >= |s4.blocks|
    ensures WriteLoops.Write(s4, [m], [9], 518 * 1024).Stopped?
  {
    hide InvW, Holds, FileKept, WalksKept, Ptr, LoopsFile, O.Resolve, FirstFree, Shape, AtIndexEnd, WriteLoops.Write,
      OneBlockWritten;
    LiveStill(st, s4, i);
    ShapeOf(s4, w4, i);
    EndKept(st, s4, m, i, b, bytes);
    PathKept(st, w, s4, w4, m, o, i, bytes);
    WriteIs(s4, m, i, [9]);
    StaleWriteIs(s4, w4.ow, i, 1, b, [9]);
    Stops(s4, i, 1, b, [9], LoopsFile(s4, i, 518 * 1024, [9]));
  }

  lemma Stops(st: Store, i: nat, k: nat, b: nat, data: seq<byte>, r: Loop)
    requires CanTake(st, i, k, b) && |data| <= 1024 && OneBlockWritten(st, i, k, b, data, r) && Ptr(st.blocks[b], 0) >= |st.blocks|
    ensures r.Stopped?
  {
    hide Ptr;
  }
}
