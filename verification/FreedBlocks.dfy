/** A file of seven blocks that is unlinked leaves its last block first in line,
    with the bytes it held: any bytes can be where a second-level block is taken. */
module FreedBlocks {
  import opened Layout
  import opened State
  import opened AttachProofs
  import opened FileWrite
  import opened WriteProofs
  import opened WriteTheorems
  import opened WriteCost
  import O = Ops
  import opened Tree
  import opened TreeProofs
  import opened OpProofs
  import opened TruncProofs
  import opened OpTheorems
  import opened CopyProofs
  import opened StaleRun
  import W = WriteLoops

  /** All blocks of the data region below y are marked. */
  ghost predicate MarkedBelow(st: Store, y: nat) { forall x :: st.start <= x < y && x < |st.blockMap| ==> st.blockMap[x] }

  /** A block taken is the first free one. */
  lemma GrowFirst(st: Store, ow: Owners, i: nat, loc: Loc)
    requires Good(st, ow) && Live(st, i) && LocOk(loc) && T(st, i, loc) == 0 && Grow(st, i, loc).Ok?
    requires CellOf(loc).InBlock? ==> T(st, i, CellOf(loc).parent) != 0
    requires !loc.Outer?
    ensures var s := Grow(st, i, loc).st;
            && i < |s.inodes| && s.start == st.start && MarkedBelow(s, T(s, i, loc)) && |s.blockMap| == |st.blockMap|
            && forall x :: 0 <= x < |st.blockMap| && st.blockMap[x] ==> s.blockMap[x]
  {
    hide Owned;
    var b := FirstFree(st.blockMap, st.start, |st.blocks|);
    ZeroNoPointers();
    AttachTarget(st, ow, i, loc, b, ZeroBlock, i, loc);
    AttachFields(st, ow, i, loc, b, ZeroBlock);
    hide Target, Attach;
    assert forall x :: st.start <= x < b ==> st.blockMap[x];
  }

  /** The seventh block of a file is taken when all below it are. */
  lemma SeventhBlock(st: Store, ow: Owners, i: nat, c: seq<byte>)
    requires Good(st, ow) && Sized(st) && Live(st, i) && Tight(st, i) && st.inodes[i].size == 6144 && |c| == 1024
    requires WriteFile(st, i, 6144, c).rc >= 0
    ensures var r := WriteFile(st, i, 6144, c).st; i < |r.inodes| && MarkedBelow(r, T(r, i, Data(6)))
  {
    hide Owned, Tight, Target, Grow, PutBytes, Extends, Leaked;
    assert T(st, i, Ind1) == 0 && T(st, i, Data(6)) == 0 by { hide T; SixOnly(st, i); }
    var s := WriteStep(st, i, 6, 6144, c);
    assert WriteFile(st, i, 6144, c) == WriteFrom(st, i, 6, 6144, c, 0);
    assert s.Wrote?;
    var ow1 := GrowIndexOk(st, ow, i, 6);
    var g := GrowIndex(st, i, 6);
    ExtendsLive(st, g.st, i);
    GrowFirst(g.st, ow1, i, Data(6));
    var ow2 := GrowOk(g.st, ow1, i, Data(6));
    var h := Grow(g.st, i, Data(6)).st;
    ExtendsLive(g.st, h, i);
    PutOk(h, ow2, i, 6, 0, c[..1024]);
    PutMap(h, i, 6, 0, c[..1024]);
    assert s.k == |c|;
  }

  lemma SixOnly(st: Store, i: nat)
    requires i < |st.inodes| && Tight(st, i) && st.inodes[i].size == 6144
    ensures T(st, i, Ind1) == 0 && T(st, i, Data(6)) == 0
  {
    hide T;
  }

  lemma PutMap(st: Store, i: nat, l: nat, tb: nat, c: seq<byte>)
    requires i < |st.inodes| && tb + |c| <= 1024
    ensures PutBytes(st, i, l, tb, c).blockMap == st.blockMap && PutBytes(st, i, l, tb, c).start == st.start
  {
  }

  /** unlink of any file: what it leaves alone, and the block map. */
  lemma UnlinkAny(st: Store, w: Wit, p: O.Path, e: nat) returns (w': Wit)
    requires O.Roomy(st) && InvW(st, w) && p != [] && Walk(st, p) == e && Live(st, e) && !st.inodes[e].isDir && e > 1
    ensures var r := O.Unlink(st, p);
            && r.rc == 0 && InvW(r.st, w') && FilesKept(st, r.st, e) && WalksKept(st, r.st, p)
            && r.st.start == st.start && |r.st.blocks| == |st.blocks| && |r.st.blockMap| == |st.blockMap|
            && (forall x :: 0 <= x < |st.blockMap| ==> r.st.blockMap[x] == (st.blockMap[x] && !Released(w.ow, e, x)))
            && (forall x :: x in w.ow && w.ow[x].0 == e && x < |st.blocks| ==> r.st.blocks[x] == st.blocks[x])
  {
    hide TreeInv, Shapes, Owned, O.Unlink, Walk, FilesKept, O.Scan, O.DirBlock, Invalidate, O.Resolve, O.ParentOf, Cleared,
      Killed, Without, O.SetDirBlock, Unlinked, O.E, Target, TreeOf, Released, Padded;
    ResolveIsWalk(st, w, p);
    var d, s, g := EntryOf(st, w, p);
    ShapeOf(st, w, e);
    UnlinkedKilled(st, w.ow, e);
    var b' := Invalidate(O.DirBlock(st, d), s);
    InvalidateClears(O.DirBlock(st, d), s, e);
    TruncSameParent(st, w, e, p);
    UnlinkIs(st, p, d, s, e);
    w' := RemoveMeets(st, w, Unlinked(st, e), p, d, s, e, b');
    StaleRun.RemoveKeeps(st, w, Unlinked(st, e), d, s, e, b');
    RemoveWalks(st, w, w', Unlinked(st, e), p, d, s, e, b');
    DirectoryBlock(st, w, d, e);
    OneBlockSet(st, Unlinked(st, e), e, d, b');
  }

  /** The directory's block is not one of the file's. */
  lemma DirectoryBlock(st: Store, w: Wit, d: nat, e: nat)
    requires InvW(st, w) && LiveDir(st, d) && d != e
    ensures forall x :: x in w.ow && w.ow[x].0 == e ==> x != st.inodes[d].direct[0]
  {
    hide TreeInv, Shapes, Target;
    AllDirPointers(st, w);
    DirBlockOwned(st, w.ow, d);
    assert w.ow[T(st, d, Data(0))] == (d, Data(0));
  }

  lemma OneBlockSet(st: Store, k: Store, e: nat, d: nat, b: Block)
    requires Killed(st, k, e) && d < |st.inodes| && d != e
    ensures var s := O.SetDirBlock(k, d, b);
            && s.blockMap == k.blockMap && s.start == st.start && |s.blocks| == |st.blocks|
            && forall x :: 0 <= x < |st.blocks| && x != st.inodes[d].direct[0] ==> s.blocks[x] == st.blocks[x]
  {
  }

  /** The bytes of the seventh block, and that it is the only one unlink gives back. */
  lemma SeventhHeld(st: Store, w: Wit, i: nat, bytes: seq<byte>)
    requires InvW(st, w) && Live(st, i) && Tight(st, i) && Contents(st, i) == bytes && |bytes| == 7168
    ensures var y := T(st, i, Data(6));
            && st.start <= y < |st.blocks| <= |st.blockMap| && st.blockMap[y] && st.blocks[y] == bytes[6144..]
            && y in w.ow && w.ow[y] == (i, Data(6)) && forall x :: Released(w.ow, i, x) <==> x == y
  {
    hide TreeInv, Shapes, Target, Geometry;
    var y := T(st, i, Data(6));
    assert |Contents(st, i)| == st.inodes[i].size;
    assert y != 0;
    assert |st.blocks| <= |st.blockMap| by { InvGood(st, w); }
    forall k | 0 <= k < 1024 ensures st.blocks[y][k] == bytes[6144..][k] {
      assert bytes[6144 + k] == ByteAt(st, i, 6144 + k);
    }
    forall x ensures Released(w.ow, i, x) <==> x == y {
      if Released(w.ow, i, x) {
        var m := w.ow[x].1;
        assert T(st, i, m) == x != 0 && LocOk(m);
        assert FirstBlock(m) * 1024 < 7168;
      }
    }
  }

  /** A write touches no other file, and no path. */
  lemma WriteStepKeeps(st: Store, w: Wit, w': Wit, p: O.Path, i: nat, data: seq<byte>, off: nat)
    requires InvW(st, w) && Sized(st) && O.Resolve(st, 1, p) == i && Live(st, i) && !st.inodes[i].isDir && st.inodes[i].size == off
    requires off / 1024 < 65798 && WriteClean(st, i, off / 1024, off, data)
    ensures var s := O.Write(st, p, data, off).st; FilesKept(st, s, i) && forall q: O.Path :: Walk(s, q) == Walk(st, q)
    ensures O.Write(st, p, data, off) == WriteFile(st, i, off, data)
  {
    hide TreeInv, Shapes, Owned, O.Resolve, Walk, WriteFile, WriteClean, Leaked, T, OthersSame;
    var ow' := WriteFileOwned(st, w.ow, i, off, data);
    var s := WriteFile(st, i, off, data).st;
    assert O.Write(st, p, data, off).st == s;
    NotRoot(st, w, i);
    var z := Resolved(st, w, p);
    FileOnlySameDirs(st, s, w, i);
    forall q: O.Path ensures Walk(s, q) == Walk(st, q) { SameDirsWalk(st, s, w, q); }
    OthersAreKept(st, s, i);
  }

  lemma OthersAreKept(st: Store, s: Store, i: nat)
    requires i < |st.inodes| && OthersSame(st, s, i)
    ensures FilesKept(st, s, i)
  {
    hide T;
  }

  // ---- the whole cycle ----

  lemma SmallPrices()
    ensures Price(0, 6144) == 6 && Price(6144, 7168) == 2
  {
  }

  /** One of the two writes: the file holds more, and nothing else changes. */
  lemma ChunkKeeps(st: Store, p: O.Path, i: nat, bytes: seq<byte>, chunk: seq<byte>)
    requires Holds(st, p, i, bytes) && chunk != [] && |bytes| + |chunk| <= 7168
             && Price(|bytes|, |bytes| + |chunk|) <= FreeBlocks(st)
    ensures var r := O.Write(st, p, chunk, |bytes|);
            && r.rc == |chunk| && O.Roomy(r.st) && Holds(r.st, p, i, bytes + chunk)
            && FreeBlocks(r.st) == FreeBlocks(st) - Price(|bytes|, |bytes| + |chunk|)
            && FilesKept(st, r.st, i) && r == WriteFile(st, i, |bytes|, chunk) && forall q: O.Path :: Walk(r.st, q) == Walk(st, q)
  {
    hide InvW, O.Resolve, O.Write, AppendOk, Price, FreeBlocks, Tight, Contents, WriteFile, FilesKept, Walk, TreePrefix, TreeIs,
      TreeOf, WriteClean;
    var w :| InvW(st, w);
    assert |Contents(st, i)| == st.inodes[i].size;
    ChunkStep(st, p, i, bytes, chunk, 7168);
    InvGood(st, w);
    ChunkClean(st, w.ow, i, chunk, 7168);
    var r := O.Write(st, p, chunk, |bytes|);
    var w' :| InvW(r.st, w');
    WriteStepKeeps(st, w, w', p, i, chunk, |bytes|);
  }

  /** The store after the three calls that make the file. */
  ghost predicate Made(st: Store, p: O.Path, six: seq<byte>, c: seq<byte>, s1: Store, s2: Store, s3: Store, j: nat)
    requires O.Roomy(st) && p != [] && NameOk(O.Last(p)) && |six| == 6144 && |c| == 1024
  {
    && O.Mknod(st, p, false) == Result(s1, 0) && O.Roomy(s1) && O.Write(s1, p, six, 0) == Result(s2, 6144)
    && O.Roomy(s2) && O.Write(s2, p, c, 6144) == Result(s3, 1024) && O.Roomy(s3)
    && !Live(st, j) && FilesKept(st, s1, j) && FilesKept(s1, s2, j) && FilesKept(s2, s3, j) && WalksKept(st, s3, p)
    && Holds(s3, p, j, six + c) && SeventhFirst(s3, j)
  }

  /** The seventh block of file i was the first free one. */
  ghost predicate SeventhFirst(s: Store, j: nat) { j < |s.inodes| && MarkedBelow(s, T(s, j, Data(6))) }

  lemma MakeFile(st: Store, w: Wit, p: O.Path, six: seq<byte>, c: seq<byte>) returns (s1: Store, s2: Store, s3: Store, j: nat)
    requires O.Roomy(st) && InvW(st, w) && p != [] && NameOk(O.Last(p)) && O.Mknod(st, p, false).rc == 0
    requires |six| == 6144 && |c| == 1024 && Sized(st) && FreeBlocks(st) >= 8
    ensures Made(st, p, six, c, s1, s2, s3, j)
  {
    hide InvW, O.Mknod, NameOk, O.Resolve, O.Write, FreeBlocks, Tight, Contents, WriteFile, FilesKept, WalksKept, Walk,
      O.Create, O.Scan, O.DirBlock, FirstFree, Holds, MarkedBelow, T, FreeClean, TreeOf;
    SmallPrices();
    var w1, d, s, i, b := CreateStep(st, w, p, false);
    j := i;
    s1 := O.Mknod(st, p, false).st;
    MknodHolds(st, p, 7168);
    HoldsIs(s1, w1, p, j);
    ChunkKeeps(s1, p, j, [], six);
    assert [] + six == six;
    s2 := O.Write(s1, p, six, 0).st;
    ChunkKeeps(s2, p, j, six, c);
    s3 := O.Write(s2, p, c, 6144).st;
    HeldSeventh(s2, p, j, six, c);
    MadeWalks(st, s1, s2, s3, p);
  }

  lemma HoldsIs(s: Store, w: Wit, p: O.Path, j: nat)
    requires InvW(s, w) && Walk(s, p) == j
    ensures O.Resolve(s, 1, p) == j
  {
    hide TreeInv, Shapes, Good, Walk, O.Resolve;
    ResolveIsWalk(s, w, p);
  }

  lemma HeldSeventh(st: Store, p: O.Path, j: nat, six: seq<byte>, c: seq<byte>)
    requires Holds(st, p, j, six) && |six| == 6144 && |c| == 1024 && Sized(st) && WriteFile(st, j, 6144, c).rc >= 0
    ensures SeventhFirst(WriteFile(st, j, 6144, c).st, j)
  {
    hide InvW, O.Resolve, Tight, Contents, WriteFile, MarkedBelow, T, Good;
    var w :| InvW(st, w);
    InvGood(st, w);
    assert |Contents(st, j)| == st.inodes[j].size;
    SeventhBlock(st, w.ow, j, c);
  }

  lemma MadeWalks(st: Store, s1: Store, s2: Store, s3: Store, p: O.Path)
    requires WalksKept(st, s1, p) && (forall q: O.Path :: Walk(s2, q) == Walk(s1, q))
             && forall q: O.Path :: Walk(s3, q) == Walk(s2, q)
    ensures WalksKept(st, s3, p)
  {
    hide Walk;
  }

  /** mknod, two writes of six blocks and of block c, and unlink: the first free
      block is then the one that holds c, and every other file is untouched. */
  lemma FileCycle(st: Store, w: Wit, p: O.Path, six: seq<byte>, c: seq<byte>)
    returns (w': Wit, s1: Store, s2: Store, s3: Store, s4: Store, j: nat, y: nat)
    requires O.Roomy(st) && InvW(st, w) && p != [] && NameOk(O.Last(p)) && O.Mknod(st, p, false).rc == 0
    requires |six| == 6144 && |c| == 1024 && Sized(st) && FreeBlocks(st) >= 8
    ensures Made(st, p, six, c, s1, s2, s3, j) && O.Roomy(s3) && O.Unlink(s3, p) == Result(s4, 0) && InvW(s4, w')
    ensures Sized(s4) && y == FirstFree(s4.blockMap, s4.start, |s4.blocks|) < |s4.blocks| && s4.blocks[y] == c
    ensures forall i: nat :: Live(st, i) && !st.inodes[i].isDir ==> FileKept(st, s4, i)
    ensures WalksKept(st, s4, p)
  {
    hide InvW, O.Mknod, O.Unlink, NameOk, O.Write, FreeBlocks, FilesKept, FileKept, WalksKept, Walk, Released, FirstFree, Made,
      T, MarkedBelow, Tight, Contents, O.Resolve;
    s1, s2, s3, j := MakeFile(st, w, p, six, c);
    var w3 := MadeHeld(st, p, six, c, s1, s2, s3, j);
    w' := UnlinkAny(s3, w3, p, j);
    s4 := O.Unlink(s3, p).st;
    SeventhHeld(s3, w3, j, six + c);
    y := T(s3, j, Data(6));
    InvGood(s4, w');
    FirstIs(s3, s4, y);
    assert (six + c)[6144..] == c;
    CycleKept(st, p, six, c, s1, s2, s3, s4, j);
  }

  lemma MadeHeld(st: Store, p: O.Path, six: seq<byte>, c: seq<byte>, s1: Store, s2: Store, s3: Store, j: nat) returns (w: Wit)
    requires O.Roomy(st) && p != [] && NameOk(O.Last(p)) && |six| == 6144 && |c| == 1024 && Made(st, p, six, c, s1, s2, s3, j)
    ensures O.Roomy(s3) && InvW(s3, w) && Walk(s3, p) == j && Live(s3, j) && !s3.inodes[j].isDir && j > 1 && Tight(s3, j)
    ensures Contents(s3, j) == six + c && MarkedBelow(s3, T(s3, j, Data(6)))
  {
    hide TreeInv, Shapes, Good, O.Mknod, O.Write, FilesKept, WalksKept, Walk, MarkedBelow, Tight, T, Contents, O.Resolve, TreeOf;
    w :| InvW(s3, w);
    var r := Resolved(s3, w, p);
    NotRoot(s3, w, j);
  }

  lemma FirstIs(s3: Store, s4: Store, y: nat)
    requires MarkedBelow(s3, y) && s4.start == s3.start <= y < |s4.blocks| == |s3.blocks| && Sized(s4)
             && |s4.blockMap| == |s3.blockMap|
    requires !s4.blockMap[y] && forall x :: s3.start <= x < y ==> s4.blockMap[x] == s3.blockMap[x]
    ensures FirstFree(s4.blockMap, s4.start, |s4.blocks|) == y
  {
    FirstOfMap(s4.blockMap, s4.start, |s4.blocks|, y);
  }

  lemma FirstOfMap(bm: seq<bool>, i: nat, n: nat, y: nat)
    requires i <= y < n <= |bm| && !bm[y] && forall x :: i <= x < y ==> bm[x]
    ensures FirstFree(bm, i, n) == y
  {
    var f := FirstFree(bm, i, n);
    hide FirstFree;
    W.FreeIsFree(bm, i, n);
  }

  lemma CycleKept(st: Store, p: O.Path, six: seq<byte>, c: seq<byte>, s1: Store, s2: Store, s3: Store, s4: Store, j: nat)
    requires O.Roomy(st) && p != [] && NameOk(O.Last(p)) && |six| == 6144 && |c| == 1024 && Made(st, p, six, c, s1, s2, s3, j)
    requires FilesKept(s3, s4, j) && WalksKept(s3, s4, p)
    ensures forall i: nat :: Live(st, i) && !st.inodes[i].isDir ==> FileKept(st, s4, i)
    ensures WalksKept(st, s4, p)
  {
    hide O.Mknod, O.Write, Holds, T, Walk, SeventhFirst, FilesKept;
    forall i: nat | Live(st, i) && !st.inodes[i].isDir ensures FileKept(st, s4, i) {
      KeptOne(st, s1, j, i);
      KeptOne(s1, s2, j, i);
      KeptOne(s2, s3, j, i);
      KeptOne(s3, s4, j, i);
      KeptFour(st, s1, s2, s3, s4, i);
    }
  }
}
