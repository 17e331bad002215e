/** One chunk of do_put, and when do_get meets the end of a file. */
module CopyProofs {
  import opened Layout
  import opened State
  import opened FileWrite
  import opened WriteProofs
  import opened WriteTheorems
  import opened WriteCost
  import O = Ops
  import opened Tree
  import opened TreeProofs
  import opened OpProofs
  import opened TreeTheorems
  import opened Spec
  import opened OpTheorems
  import opened FileRead
  import opened Crash

  /** Enough is known about free blocks for a file of n bytes to be written. */
  ghost predicate Clean(st: Store, n: nat)
    requires Sized(st)
  {
    n <= 262 * 1024 || FreeClean(st)
  }

  /** path names file i, which holds exactly bytes and no block beyond them. */
  ghost predicate Holds(st: Store, path: O.Path, i: int, bytes: seq<byte>) {
    && 0 <= i && Inv(st) && O.Roomy(st) && O.Resolve(st, 1, path) == i && Live(st, i) && !st.inodes[i].isDir
    && Contents(st, i) == bytes && Tight(st, i)
  }

  /** t is tree with a file of these bytes at path. */
  ghost predicate TreeIs(t: AbsTree, tree: AbsTree, path: O.Path, bytes: seq<byte>) {
    t == tree[path := FileNode(bytes)]
  }

  /** n bytes are as many as free blocks pay for. */
  ghost predicate AllThatFits(n: nat, free: int) { TotalBlocks(DataBlocks(n)) <= free < TotalBlocks(DataBlocks(n + 1)) }

  /** ... or with bytes followed by the part of chunk that free blocks pay for. */
  ghost predicate TreePrefix(t: AbsTree, tree: AbsTree, path: O.Path, bytes: seq<byte>, chunk: seq<byte>, free: int) {
    exists k: nat :: k <= |chunk| && AllThatFits(|bytes| + k, free) && TreeIs(t, tree, path, bytes + chunk[..k])
  }

  /** A chunk that fits costs exactly the difference in blocks; otherwise it
      fails with ENOSPC and leaves a prefix. */
  lemma ChunkStep(st: Store, path: O.Path, i: nat, bytes: seq<byte>, chunk: seq<byte>, n: nat)
    requires Holds(st, path, i, bytes) && chunk != [] && |bytes| + |chunk| <= n <= MAX_BYTES && Clean(st, n)
    ensures AppendOk(st, O.Resolve(st, 1, path), chunk, |bytes|)
    ensures var r := O.Write(st, path, chunk, |bytes|);
            var price := Price(|bytes|, |bytes| + |chunk|);
            && O.Roomy(r.st) && Clean(r.st, n)
            && (r.rc >= 0 <==> price <= FreeBlocks(st))
            && (r.rc >= 0 ==> && r.rc == |chunk| && Holds(r.st, path, i, bytes + chunk)
                              && FreeBlocks(r.st) == FreeBlocks(st) - price
                              && TreeIs(TreeOf(r.st), TreeOf(st), path, bytes + chunk))
            && (r.rc < 0 ==> && r.rc == ENOSPC && Inv(r.st)
                             && TreePrefix(TreeOf(r.st), TreeOf(st), path, bytes, chunk,
                                           FreeBlocks(st) + TotalBlocks(DataBlocks(|bytes|))))
  {
    hide TreeInv, TreeOf, Walk, O.Resolve, Owned, WriteFile, WriteFrom, WriteClean, Contents, Tight, OthersSame, FreeBlocks,
      FreeClean, Shapes, Price, T, Shape, Appended, TreeIs;
    var w :| InvW(st, w);
    var p := Resolved(st, w, path);
    assert |Contents(st, i)| == st.inodes[i].size;
    var off := |bytes|;
    ChunkClean(st, w.ow, i, chunk, n);
    var r := WriteFile(st, i, off, chunk);
    assert O.Write(st, path, chunk, off) == r;
    var w' := AppendCase(st, w, i, path, chunk);
    ChunkCost(st, w.ow, i, chunk);
    ChunkResolve(st, w, i, path, chunk);
    RoomToWrite(r.st, w');
    TightShape(st, i);
    AppendFile(st, w.ow, i, chunk);
    AppendedNode(st, r, i, chunk);
    assert st.inodes[i].isDir == r.st.inodes[i].isDir;
    var k: nat :| Appended(TreeOf(st), path, TreeOf(st)[path].bytes, chunk, k, r.rc, TreeOf(r.st));
    ChunkTree(TreeOf(st), path, bytes, chunk, k, r.rc, TreeOf(r.st), |chunk|);
    if r.rc >= 0 {
      assert chunk[..|chunk|] == chunk;
    } else {
      ChunkStops(st, w, w', i, path, bytes, chunk, k);
    }
  }

  /** The prefix kept is all that fits. */
  lemma ChunkStops(st: Store, w: Wit, w': Wit, i: nat, path: O.Path, bytes: seq<byte>, chunk: seq<byte>, k: nat)
    requires InvW(st, w) && Sized(st) && Live(st, i) && Tight(st, i) && chunk != [] && k <= |chunk| && Contents(st, i) == bytes
    requires |bytes| + |chunk| <= MAX_BYTES && AtEnd(st, i, |bytes| / 1024, |bytes|)
             && WriteClean(st, i, |bytes| / 1024, |bytes|, chunk)
    requires var r := WriteFile(st, i, |bytes|, chunk);
             && r.rc < 0 && InvW(r.st, w') && O.Resolve(r.st, 1, path) == i && !r.st.inodes[i].isDir
             && TreeIs(TreeOf(r.st), TreeOf(st), path, bytes + chunk[..k])
    ensures AllThatFits(|bytes| + k, FreeBlocks(st) + TotalBlocks(DataBlocks(|bytes|)))
  {
    hide TreeInv, TreeOf, Walk, O.Resolve, Owned, WriteFrom, WriteClean, Contents, Tight, FreeBlocks, Shapes, T, TotalBlocks,
      DataBlocks;
    var r := WriteFile(st, i, |bytes|, chunk);
    assert |Contents(st, i)| == st.inodes[i].size;
    AppendStops(st, w.ow, i, |bytes| / 1024, |bytes|, chunk, 0);
    var p := Resolved(r.st, w', path);
    assert |Contents(r.st, i)| == r.st.inodes[i].size;
  }

  lemma ChunkTree(t: AbsTree, path: O.Path, bytes: seq<byte>, chunk: seq<byte>, k: nat, rc: int, t': AbsTree, n: nat)
    requires Appended(t, path, bytes, chunk, k, rc, t') && |bytes| + |chunk| <= MAX_BYTES && n == |chunk|
    ensures k <= |chunk| && TreeIs(t', t, path, bytes + chunk[..k])
    ensures rc >= 0 ==> rc == k == |chunk| && TreeIs(t', t, path, bytes + chunk)
    ensures rc < 0 ==> rc == ENOSPC
  {
    assert chunk[..|chunk|] == chunk;
  }

  lemma ChunkClean(st: Store, ow: Owners, i: nat, chunk: seq<byte>, n: nat)
    requires Good(st, ow) && Sized(st) && Live(st, i) && Tight(st, i) && Clean(st, n)
    requires chunk != [] && st.inodes[i].size + |chunk| <= n <= MAX_BYTES
    ensures AtEnd(st, i, st.inodes[i].size / 1024, st.inodes[i].size)
    ensures WriteClean(st, i, st.inodes[i].size / 1024, st.inodes[i].size, chunk)
    ensures Clean(WriteFile(st, i, st.inodes[i].size, chunk).st, n)
  {
    hide WriteClean, WriteFrom, FreeClean, Owned, T;
    var size := st.inodes[i].size;
    TightShape(st, i);
    if FreeClean(st) {
      FreeCleanIsEnough(st, ow, i, size / 1024, size, chunk, 0);
    } else {
      SmallAppendIsClean(st, ow, i, size / 1024, size, chunk);
    }
  }

  lemma ChunkCost(st: Store, ow: Owners, i: nat, chunk: seq<byte>)
    requires Good(st, ow) && Sized(st) && Live(st, i) && Tight(st, i) && chunk != []
    requires st.inodes[i].size + |chunk| <= MAX_BYTES
    requires AtEnd(st, i, st.inodes[i].size / 1024, st.inodes[i].size)
    requires WriteClean(st, i, st.inodes[i].size / 1024, st.inodes[i].size, chunk)
    ensures var r := WriteFile(st, i, st.inodes[i].size, chunk);
            var price := Price(st.inodes[i].size, st.inodes[i].size + |chunk|);
            && (r.rc >= 0 <==> price <= FreeBlocks(st))
            && (r.rc >= 0 ==> FreeBlocks(r.st) == FreeBlocks(st) - price && Tight(r.st, i))
  {
    hide WriteClean, WriteFrom, Owned, T, FreeBlocks, Tight, Price;
    AppendCost(st, ow, i, st.inodes[i].size / 1024, st.inodes[i].size, chunk, 0);
  }

  lemma ChunkResolve(st: Store, w: Wit, i: nat, path: O.Path, chunk: seq<byte>)
    requires InvW(st, w) && Sized(st) && Live(st, i) && !st.inodes[i].isDir && O.Resolve(st, 1, path) == i
    requires st.inodes[i].size / 1024 < 65798
    requires WriteClean(st, i, st.inodes[i].size / 1024, st.inodes[i].size, chunk)
    ensures var r := WriteFile(st, i, st.inodes[i].size, chunk);
            O.Resolve(r.st, 1, path) == i && Live(r.st, i) && !r.st.inodes[i].isDir
  {
    hide TreeInv, Walk, O.Resolve, Owned, WriteFile, WriteClean, Shapes, Leaked;
    var r := WriteFile(st, i, st.inodes[i].size, chunk);
    var ow' := WriteFileOwned(st, w.ow, i, st.inodes[i].size, chunk);
    OthersSizes(st, r.st, i);
    ResolveIsWalk(st, w, path);
    WalkLive(st, w, path);
    NotRoot(st, w, i);
    FileOnlySameDirs(st, r.st, w, i);
    SameDirsTree(st, r.st, w, ow');
    SameDirsWalk(st, r.st, w, path);
    ResolveIsWalk(r.st, w.(ow := ow'), path);
  }

  /** A file just created is empty and takes no block. */
  lemma MknodHolds(st: Store, path: O.Path, n: nat)
    requires O.Roomy(st) && Inv(st) && path != [] && NameOk(O.Last(path)) && Clean(st, n)
    ensures var r := O.Mknod(st, path, false);
            r.rc == 0 ==> && O.Roomy(r.st) && Holds(r.st, path, O.Resolve(r.st, 1, path), [])
                          && FreeBlocks(r.st) == FreeBlocks(st) && Clean(r.st, n)
  {
    hide InvW, O.Mknod, O.Resolve, Holds, FreeBlocks, Clean, NameOk, O.Create, O.Scan, O.DirBlock, FirstFree;
    var w :| InvW(st, w);
    if O.Mknod(st, path, false).rc == 0 {
      MknodSucceeds(st, path);
      CreateHolds(st, w, path, n);
    }
  }

  lemma MknodSucceeds(st: Store, path: O.Path)
    requires O.Roomy(st) && path != [] && NameOk(O.Last(path)) && O.Mknod(st, path, false).rc == 0
    ensures var d, i := O.ParentOf(st, 1, path), FirstFree(st.inodeMap, 0, 64);
            && d >= 0 && O.Resolve(st, 1, path) <= 0 && i < 64
            && O.Scan(O.DirBlock(st, d), O.Unused, 0) < 32
            && O.Mknod(st, path, false).st ==
               O.Create(st, d, O.Scan(O.DirBlock(st, d), O.Unused, 0), i, FirstFree(st.blockMap, st.start, |st.blocks|),
                        O.Last(path), false)
  {
    hide O.Resolve, O.ParentOf, O.Scan, O.Create, O.DirBlock, FirstFree, NameOk;
  }

  lemma CreateHolds(st: Store, w: Wit, path: O.Path, n: nat)
    requires O.Roomy(st) && InvW(st, w) && path != [] && NameOk(O.Last(path)) && Clean(st, n)
    requires O.ParentOf(st, 1, path) >= 0 && O.Resolve(st, 1, path) <= 0 && FirstFree(st.inodeMap, 0, 64) < 64
    requires O.Scan(O.DirBlock(st, O.ParentOf(st, 1, path)), O.Unused, 0) < 32
    ensures var d := O.ParentOf(st, 1, path);
            var st' := O.Create(st, d, O.Scan(O.DirBlock(st, d), O.Unused, 0), FirstFree(st.inodeMap, 0, 64),
                                FirstFree(st.blockMap, st.start, |st.blocks|), O.Last(path), false);
            && O.Roomy(st') && Holds(st', path, O.Resolve(st', 1, path), [])
            && FreeBlocks(st') == FreeBlocks(st) && Clean(st', n)
  {
    hide TreeInv, TreeOf, Walk, O.Resolve, O.ParentOf, O.Scan, Owned, Shapes, FreeBlocks, Holds, O.Create, NameOk, Created,
      FreshInode, SlotFor, OthersSame, Clean, O.DirBlock, Lookup, Created2, Leaked;
    var d := ParentIs(st, w, path);
    NotZero(st, w, path);
    var i := FirstFree(st.inodeMap, 0, 64);
    var s := O.Scan(O.DirBlock(st, d), O.Unused, 0);
    var b := FirstFree(st.blockMap, st.start, |st.blocks|);
    ScanSlotFor(st, d, O.Last(path));
    var w' := CreateInv(st, w, d, s, i, b, O.Last(path), false);
    var st' := O.Create(st, d, s, i, b, O.Last(path), false);
    RoomToWrite(st', w');
    NewFile(st, w, w', d, s, i, b, path, st');
    NewFileBlocks(st, w, d, s, i, b, O.Last(path), n);
  }

  lemma NewFile(st: Store, w: Wit, w': Wit, d: nat, s: nat, i: nat, b: nat, path: O.Path, st': Store)
    requires InvW(st, w) && InvW(st', w') && path != [] && Walk(st, Init(path)) == d
    requires Created(st, st', d, s, i, O.Last(path), false) && SlotFor(st, d, s, O.Last(path))
    requires O.Roomy(st) && i < 64 && FreshInode(st, Created2(st, i, b, false), i, b, false)
    requires OthersSame(Created2(st, i, b, false), st', d) && st'.inodes == Created2(st, i, b, false).inodes && LiveDir(st, d)
    ensures Holds(st', path, i, []) && O.Resolve(st', 1, path) == i
  {
    hide TreeInv, Walk, O.Resolve, Owned, Shapes, SlotFor, FreeBlocks;
    assert Init(path) + [O.Last(path)] == path;
    CreatedWalk(st, st', w, w', d, s, i, O.Last(path), false, Init(path), path);
    ResolveIsWalk(st', w', path);
    RoomToWrite(st', w');
    hide OneEntry, O.E;
    EmptyContents(st', i);
    assert i != d;
    FreshTight(Created2(st, i, b, false), st', d, i);
  }

  lemma FreshTight(st2: Store, st': Store, d: nat, i: nat)
    requires d < |st2.inodes| && OthersSame(st2, st', d) && i != d && Live(st2, i) && st2.inodes[i].size == 0
    requires forall m :: T(st2, i, m) == 0
    ensures Tight(st', i)
  {
    hide Target;
  }

  lemma NewFileBlocks(st: Store, w: Wit, d: nat, s: nat, i: nat, b: nat, n: Name, k: nat)
    requires O.Roomy(st) && InvW(st, w) && LiveDir(st, d) && s < 32 && i < 64 && NameOk(n) && !st.inodeMap[i] && Clean(st, k)
    ensures var st' := O.Create(st, d, s, i, b, n, false);
            Sized(st') && FreeBlocks(st') == FreeBlocks(st) && Clean(st', k)
  {
    hide TreeInv, Owned, Shapes, NameOk, PutEnt, NoPointers;
    AllDirPointers(st, w);
    DirBlockOwned(st, w.ow, d);
    DirTaken(st, w.ow, d);
    CreateFields(st, d, s, i, b, n, false);
  }

  lemma DirTaken(st: Store, ow: Owners, d: nat)
    requires Good(st, ow) && LiveDir(st, d) && DirPointers(st, d)
    ensures st.blockMap[st.inodes[d].direct[0]]
  {
    DirBlockOwned(st, ow, d);
    hide Target;
  }

  // ---- reading to the end ----

  /** For a file without spare blocks these are exactly the sizes at which the
      index block of the end is missing. */
  lemma TightBoundary(st: Store, i: nat)
    requires i < |st.inodes| && Tight(st, i)
    ensures IndexMissing(st, i, st.inodes[i].size / 1024) <==> BoundarySize(st.inodes[i].size)
  {
    hide T;
    var l := st.inodes[i].size / 1024;
    if 6 <= l < 65798 {
      var p := CellOf(Data(l)).parent;
      assert T(st, i, p) != 0 <==> FirstBlock(p) * 1024 < st.inodes[i].size;
      if l >= 262 { assert FirstBlock(p) == l - (l - 262) % 256; }
    }
  }

  // ---- beyond the maximal size ----

  /** The loops stop at the last logical block: data beyond it makes no difference. */
  lemma {:induction false} OnlyWhatFits(st: Store, ow: Owners, i: nat, l: nat, off: nat, data: seq<byte>, done: nat)
    requires Good(st, ow) && Live(st, i) && Shape(st, i) && AtEnd(st, i, l, off) && FreeClean(st)
    requires st.inodes[i].size + |data| > MAX_BYTES
    ensures var fits := data[..MAX_BYTES - st.inodes[i].size];
            WriteFrom(st, i, l, off, data, done) == WriteFrom(st, i, l, off, fits, done)
    decreases |data|
  {
    hide WriteStep, Owned, OthersSame, Contents, Shape, T, StepClean, FreeClean;
    var n := MAX_BYTES - st.inodes[i].size;
    var fits := data[..n];
    StepFreeClean(st, ow, i, l, off, data);
    StepAppend(st, ow, i, l, off, data);
    SameChunk(st, i, l, off, data, fits);
    var s := WriteStep(st, i, l, off, data);
    var ow' := StepOwned(st, ow, i, l, off, data);
    StepSize(st, i, l, off, data);
    if s.Wrote? {
      assert s.k < |data|;
      if s.k < n {
        assert fits[s.k..] == data[s.k..][..n - s.k];
        EndAgain(st, s.st, i, l, off, s.tb);
        OnlyWhatFits(s.st, ow', i, l + 1, NextOff(l, off, s.tb), data[s.k..], done + s.k);
      } else {
        assert l + 1 == 65798;
      }
    }
  }

  lemma EndAgain(st: Store, s: Store, i: nat, l: nat, off: nat, tb: nat)
    requires i < |s.inodes| && s.inodes[i].size == (l + 1) * 1024 && l + 1 < 65798 && T(s, i, Data(l + 1)) == 0
    ensures AtEnd(s, i, l + 1, NextOff(l, off, tb))
  {
    hide T;
  }

  /** The same step for two lengths that both fill the block. */
  lemma SameChunk(st: Store, i: nat, l: nat, off: nat, data: seq<byte>, fits: seq<byte>)
    requires Sized(st) && i < |st.inodes| && l < 65798 && fits <= data
    requires WriteStep(st, i, l, off, data).Wrote? ==> |fits| >= 1024 - WriteStep(st, i, l, off, data).tb
    ensures WriteStep(st, i, l, off, fits) == WriteStep(st, i, l, off, data)
    ensures var s := WriteStep(st, i, l, off, data); s.Wrote? ==> s.k == 1024 - s.tb
  {
    hide GrowIndex, Grow, PutBytes, T;
    var g := GrowIndex(st, i, l);
    if g.Ok? {
      var tb := if T(g.st, i, Data(l)) == 0 then 0 else off % 1024;
      if Grow(g.st, i, Data(l)).Ok? { assert data[..1024 - tb] == fits[..1024 - tb]; }
    }
  }

  /** ... and so for the whole call. */
  lemma WriteOnlyFits(st: Store, path: O.Path, i: nat, bytes: seq<byte>, data: seq<byte>)
    requires Holds(st, path, i, bytes) && FreeClean(st) && |bytes| < MAX_BYTES < |bytes| + |data|
    ensures O.Write(st, path, data, |bytes|) == O.Write(st, path, data[..MAX_BYTES - |bytes|], |bytes|)
    ensures WriteClean(st, i, |bytes| / 1024, |bytes|, data)
  {
    hide TreeInv, O.Resolve, Owned, WriteFrom, WriteClean, Contents, Tight, FreeClean, Shape, T;
    var w :| InvW(st, w);
    assert |Contents(st, i)| == st.inodes[i].size;
    TightShape(st, i);
    FreeCleanIsEnough(st, w.ow, i, |bytes| / 1024, |bytes|, data, 0);
    OnlyWhatFits(st, w.ow, i, |bytes| / 1024, |bytes|, data, 0);
  }

  /** The loop of do_put from offset on, and what the call returns. */
  function CopyLoop(st: Store, path: O.Path, content: seq<byte>, blksiz: nat, offset: nat): Result
    requires Sized(st) && 0 < blksiz
    decreases |content| - offset
  {
    if offset >= |content| then Result(st, 0)
    else
      var len := Min(blksiz, |content| - offset);
      var r := O.Write(st, path, content[offset..offset + len], offset);
      WriteSized(st, path, content[offset..offset + len], offset);
      if r.rc != len then Result(r.st, if r.rc >= 0 then 0 else r.rc) else CopyLoop(r.st, path, content, blksiz, offset + len)
  }

  lemma CopyTurn(st: Store, path: O.Path, content: seq<byte>, blksiz: nat, offset: nat)
    requires Sized(st) && 0 < blksiz
    ensures offset >= |content| ==> CopyLoop(st, path, content, blksiz, offset) == Result(st, 0)
    ensures offset < |content| ==>
              var len := Min(blksiz, |content| - offset);
              var r := O.Write(st, path, content[offset..offset + len], offset);
              Sized(r.st) && CopyLoop(st, path, content, blksiz, offset) ==
                             if r.rc != len then Result(r.st, if r.rc >= 0 then 0 else r.rc)
                             else CopyLoop(r.st, path, content, blksiz, offset + len)
  {
    hide O.Write;
    if offset < |content| { WriteSized(st, path, content[offset..offset + Min(blksiz, |content| - offset)], offset); }
  }

  lemma WriteSized(st: Store, path: O.Path, data: seq<byte>, off: nat)
    requires Sized(st)
    ensures Sized(O.Write(st, path, data, off).st)
  {
    hide O.Resolve, WriteFile;
  }
}
