/** Concrete runs from a formatted image on which an operation departs from
    what its comment promises. */
module Witnesses {
  import opened Layout
  import opened State
  import opened FileWrite
  import opened WriteProofs
  import opened WriteTheorems
  import opened WriteCost
  import opened Device
  import opened Mkfs
  import O = Ops
  import opened Tree
  import opened TreeProofs
  import opened OpProofs
  import opened TreeTheorems
  import opened Spec
  import opened OpTheorems
  import opened TruncProofs
  import opened FileRead
  import opened CopyProofs
  import opened RenameTheorems
  import opened Accounts

  function Fresh(n: nat): Store
    requires n >= 5
  {
    Mount(FormattedDisk(n))
  }

  // ---- a formatted image ----

  lemma {:induction false} CountRun(bm: seq<bool>, i: nat, n: nat)
    requires i <= n <= |bm| && forall x :: i <= x < n ==> !bm[x]
    ensures CountFree(bm, i, n) == n - i
    decreases n - i
  {
    if i < n { CountRun(bm, i + 1, n); }
  }

  lemma CountFresh(st: Store)
    requires Sized(st) && st.start < |st.blocks| && forall b :: st.start <= b < |st.blocks| ==> st.blockMap[b] == (b == st.start)
    ensures FreeBlocks(st) == |st.blocks| - st.start - 1
  {
    CountRun(st.blockMap, st.start + 1, |st.blocks|);
  }

  /** Everything but the metadata and the root directory block is free. */
  lemma FreshFree(n: nat)
    requires 196 <= n < 0x20_0000
    ensures Sized(Fresh(n)) && FreeBlocks(Fresh(n)) == n - LayoutOf(n).rootdirBase - 1
    ensures Clean(Fresh(n), MAX_BYTES)
  {
    hide TreeOf, FreeClean, FormattedDisk, LayoutOf, Geometry, FreeBlocks, FormattedWit;
    FormattedIsEmpty(n);
    FormattedGeometry(n);
    MountAgrees(n);
    CountFresh(Fresh(n));
  }

  lemma FreshInv(n: nat)
    requires 196 <= n < 0x20_0000
    ensures O.Roomy(Fresh(n)) && InvW(Fresh(n), FormattedWit(n)) && Inv(Fresh(n))
    ensures TreeOf(Fresh(n)) == imap[[] := DirNode]
  {
    hide TreeOf, FreeClean, FormattedDisk, LayoutOf, InvW, FormattedWit;
    FormattedIsEmpty(n);
    FormattedInv(n);
    RoomToWrite(Fresh(n), FormattedWit(n));
  }

  /** The inode map and the root directory leave room for a first entry. */
  lemma FreshSlots(n: nat)
    requires 196 <= n < 0x20_0000
    ensures O.Roomy(Fresh(n)) && !Fresh(n).inodeMap[2] && !O.E(Fresh(n), 1, 0).valid
  {
    FreshInv(n);
    LayoutOkIff(n);
    InodesCoverScanIff(n);
    hide Ent, InvW, TreeOf, SuperBytes;
    var st := Fresh(n);
    assert st.inodes[1] == RootInode(LayoutOf(n).rootdirBase);
    assert O.DirBlock(st, 1) == ZeroBlock;
    EntZeroBlock(0);
  }

  // ---- a first file ----

  function WithFile(n: nat, m: Name): Store
    requires 196 <= n < 0x20_0000 && NameOk(m)
  {
    FreshInv(n);
    O.Mknod(Fresh(n), [m], false).st
  }

  lemma FirstCreate(n: nat, m: Name)
    requires 196 <= n < 0x20_0000 && NameOk(m)
    ensures O.Roomy(Fresh(n)) && O.Mknod(Fresh(n), [m], false).rc == 0
  {
    hide InvW, TreeOf, FormattedDisk, FormattedWit, O.Mknod, Inv, FirstFree, Ent, NameOk, Fresh;
    FreshInv(n);
    FreshSlots(n);
    var st, w := Fresh(n), FormattedWit(n);
    var w' := MknodMeetsSpec(st, w, [m], false);
    assert Init([m]) == [];
    MknodFullIff(st, w, [m], false);
    RootParent(st, m);
  }

  lemma RootParent(st: Store, m: Name)
    ensures O.ParentOf(st, 1, [m]) == 1
  {
  }

  lemma FirstFile(n: nat, m: Name) returns (i: nat)
    requires 196 <= n < 0x20_0000 && NameOk(m)
    ensures var st := WithFile(n, m);
            && O.Roomy(st) && Holds(st, [m], i, []) && i == O.Resolve(st, 1, [m])
            && FreeBlocks(st) == n - LayoutOf(n).rootdirBase - 1 && Clean(st, MAX_BYTES)
  {
    hide Inv, TreeOf, FormattedDisk, FormattedWit, O.Mknod, FirstFree, NameOk, Fresh, Clean, FreeBlocks, LayoutOf, O.Resolve;
    FirstCreate(n, m);
    FreshFree(n);
    FreshInv(n);
    MknodHolds(Fresh(n), [m], MAX_BYTES);
    i := O.Resolve(WithFile(n, m), 1, [m]);
  }

  lemma WithFileSized(n: nat, m: Name)
    requires 196 <= n < 0x20_0000 && NameOk(m)
    ensures Sized(WithFile(n, m))
  {
    var i := FirstFile(n, m);
  }

  /** ... filled with content by one write. */
  function Filled(n: nat, m: Name, content: seq<byte>): Store
    requires 196 <= n < 0x20_0000 && NameOk(m)
  {
    WithFileSized(n, m);
    O.Write(WithFile(n, m), [m], content, 0).st
  }

  lemma FilledHolds(n: nat, m: Name, content: seq<byte>) returns (i: nat)
    requires 196 <= n < 0x20_0000 && NameOk(m) && content != [] && |content| <= MAX_BYTES
    requires TotalBlocks(DataBlocks(|content|)) < n - LayoutOf(n).rootdirBase
    ensures O.Roomy(Filled(n, m, content)) && Holds(Filled(n, m, content), [m], i, content)
    ensures FreeBlocks(Filled(n, m, content)) == n - LayoutOf(n).rootdirBase - 1 - TotalBlocks(DataBlocks(|content|))
    ensures TreeOf(Filled(n, m, content)) == imap[[] := DirNode, [m] := FileNode(content)]
  {
    hide Inv, TreeOf, WithFile, NameOk, Clean, FreeBlocks, LayoutOf, O.Resolve, Holds, O.Write, AppendOk, TotalBlocks, DataBlocks;
    i := FirstFile(n, m);
    assert [] + content == content;
    ChunkStep(WithFile(n, m), [m], i, [], content, MAX_BYTES);
    FirstTree(n, m);
    assert TotalBlocks(DataBlocks(0)) == 0 by { NothingTaken(); }
  }

  lemma FirstTree(n: nat, m: Name)
    requires 196 <= n < 0x20_0000 && NameOk(m)
    ensures TreeOf(WithFile(n, m)) == imap[[] := DirNode, [m] := FileNode([])]
  {
    hide InvW, TreeOf, FormattedDisk, FormattedWit, O.Mknod, NameOk, Fresh, AbsEnter;
    FreshInv(n);
    FirstCreate(n, m);
    var w' := MknodMeetsSpec(Fresh(n), FormattedWit(n), [m], false);
    assert [m] !in TreeOf(Fresh(n));
    RootEntered(TreeOf(Fresh(n)), m);
  }

  lemma RootEntered(t: AbsTree, m: Name)
    requires [] in t && t[[]].DirNode?
    ensures AbsEnter(t, Init([m])) == 0
  {
    assert Init([m]) == [];
  }

  lemma NothingTaken()
    ensures TotalBlocks(DataBlocks(0)) == 0
  {
  }

  // ---- departures ----

  /** One byte over a block that is there. */
  lemma OneByte(st: Store, i: nat, l: nat, off: nat, v: byte)
    requires Sized(st) && Live(st, i) && l <= 6 && off % 1024 == 0 && T(st, i, Data(l)) != 0
    requires l == 6 ==> T(st, i, Ind1) != 0
    ensures WriteFrom(st, i, l, off, [v], 0).rc == 1 && WriteClean(st, i, l, off, [v])
  {
    hide Target, PutBytes, Splice;
    assert GrowIndex(st, i, l) == Ok(st);
    assert Grow(st, i, Data(l)) == Ok(st);
    assert WriteStep(st, i, l, off, [v]).k == 1;
  }

  /** Writing one byte at the start of a three-byte file makes it four bytes long. */
  lemma OverwriteGrows(m: Name) returns (st: Store, i: nat)
    requires NameOk(m)
    ensures st == Filled(196, m, [1, 2, 3]) && Holds(st, [m], i, [1, 2, 3]) && Sized(st)
    ensures var r := O.Write(st, [m], [9], 0);
            r.rc == 1 && i < |r.st.inodes| && |Contents(r.st, i)| == 4 && Contents(r.st, i) != Overlay([1, 2, 3], 0, [9])
  {
    hide NameOk, Inv, LayoutOf, O.Resolve, T, Contents, Filled;
    SmallLayout();
    i := FilledHolds(196, m, [1, 2, 3]);
    st := Filled(196, m, [1, 2, 3]);
    assert |Contents(st, i)| == 3 && T(st, i, Data(0)) != 0;
    OneByte(st, i, 0, 0, 9);
    assert O.Write(st, [m], [9], 0) == WriteFile(st, i, 0, [9]);
    WriteFileGrows(st, i, 0, [9]);
  }

  lemma SmallLayout()
    ensures LayoutOf(196).rootdirBase == 7
  {
  }

  /** Truncating a file of seven blocks leaves pointers beyond its end. */
  lemma TruncateDangles(m: Name) returns (st: Store, i: nat)
    requires NameOk(m)
    ensures st == Filled(196, m, Zeros(6145)) && Holds(st, [m], i, Zeros(6145))
    ensures var r := O.Truncate(st, [m], 0); r.rc == 0 && i < |r.st.inodes| && !WellOwned(r.st, i)
  {
    hide NameOk, Holds, LayoutOf, O.Truncate, Filled, WellOwned;
    SmallLayout();
    i := FilledHolds(196, m, Zeros(6145));
    st := Filled(196, m, Zeros(6145));
    TruncateBreaks(st, [m], i, Zeros(6145));
  }

  lemma TruncateBreaks(st: Store, path: O.Path, i: nat, bytes: seq<byte>)
    requires Holds(st, path, i, bytes) && |bytes| > 6144
    ensures var r := O.Truncate(st, path, 0); r.rc == 0 && i < |r.st.inodes| && !WellOwned(r.st, i)
  {
    hide InvW, O.Resolve, Contents, O.TruncFile, WellOwned, T;
    assert |Contents(st, i)| == |bytes|;
    assert T(st, i, Ind1) == st.inodes[i].indir1 by { IndirectOne(st, i); }
    var w :| InvW(st, w);
    HeldShape(st, w, i);
    TruncateKeepsIff(st, w.ow, i);
    TruncSizes(st, i);
  }

  lemma IndirectOne(st: Store, i: nat)
    requires i < |st.inodes|
    ensures T(st, i, Ind1) == st.inodes[i].indir1
  {
  }

  lemma TruncSizes(st: Store, i: nat)
    requires i < |st.inodes|
    ensures |O.TruncFile(st, i).inodes| == |st.inodes|
  {
  }

  lemma HeldShape(st: Store, w: Wit, i: nat)
    requires InvW(st, w) && Live(st, i)
    ensures Good(st, w.ow) && Shape(st, i)
  {
    hide TreeInv, Owned, Shape;
  }

  /** Reading a file of exactly six blocks to its end stops at the device's assertion. */
  lemma ReadOfSixBlocksAborts(m: Name) returns (st: Store, i: nat)
    requires NameOk(m)
    ensures st == Filled(196, m, Zeros(6144)) && Holds(st, [m], i, Zeros(6144)) && st.inodes[i].size == 6144
    ensures forall off, len :: 0 <= off && off + len == 6144 && 0 <= len ==> ReadAborts(st, i, off, len)
  {
    hide NameOk, Inv, LayoutOf, O.Resolve, Contents, Filled, T;
    SmallLayout();
    i := FilledHolds(196, m, Zeros(6144));
    st := Filled(196, m, Zeros(6144));
    TightBoundary(st, i);
    assert |Contents(st, i)| == 6144;
  }

  /** A file of the maximal size can be built ... */
  lemma FullFileExists(n: nat, m: Name) returns (st: Store, i: nat)
    requires n == 0x2_0000 && NameOk(m)
    ensures st == Filled(n, m, Zeros(MAX_BYTES)) && Holds(st, [m], i, Zeros(MAX_BYTES)) && |Zeros(MAX_BYTES)| == MAX_BYTES
  {
    hide NameOk, Inv, LayoutOf, O.Resolve, Contents, Filled, Holds, O.Write, Zeros, TotalBlocks, DataBlocks;
    LargeLayout();
    ZerosLength(MAX_BYTES);
    LargeTotal();
    i := FilledHolds(n, m, Zeros(MAX_BYTES));
    st := Filled(n, m, Zeros(MAX_BYTES));
  }

  lemma ZerosLength(n: nat)
    ensures |Zeros(n)| == n && (n > 0 ==> Zeros(n) != [])
  {
  }

  lemma LargeTotal()
    ensures TotalBlocks(DataBlocks(MAX_BYTES)) == 66056
  {
  }

  /** ... and writing at its end goes to block 6 and leaves a size no set of
      blocks can back. */
  lemma FullFileWraps(st: Store, m: Name, i: nat, bytes: seq<byte>)
    requires Holds(st, [m], i, bytes) && |bytes| == MAX_BYTES && Sized(st)
    ensures i < |st.inodes| && var r := O.Write(st, [m], [9], MAX_BYTES); r.rc == 1 && !Shape(r.st, i)
  {
    hide InvW, O.Resolve, Contents, WriteFrom, Shape, T;
    assert |Contents(st, i)| == MAX_BYTES;
    assert T(st, i, Ind1) != 0 && T(st, i, Data(6)) != 0;
    OneByte(st, i, 6, 0, 9);
    var w :| InvW(st, w);
    HeldShape(st, w, i);
    FullFileWriteIff(st, w.ow, i, [9]);
    assert O.Write(st, [m], [9], MAX_BYTES) == WriteFile(st, i, MAX_BYTES, [9]);
  }

  lemma LargeLayout()
    ensures LayoutOf(0x2_0000).rootdirBase == 2069
  {
  }

  // ---- renaming to a shorter name ----

  /** The root directory's slots after the first create. */
  lemma FirstSlots(n: nat, m: Name)
    requires 196 <= n < 0x20_0000 && NameOk(m)
    ensures forall t :: 0 <= t < 32 ==> O.E(WithFile(n, m), 1, t).name == if t == 0 then m else []
  {
    hide InvW, TreeOf, FormattedDisk, FormattedWit, O.Mknod, Inv, FirstFree, Ent, NameOk, Fresh, O.Create, O.Scan, O.DirBlock,
      O.Resolve;
    FirstCreate(n, m);
    FreshInv(n);
    var st, w := Fresh(n), FormattedWit(n);
    MknodSucceeds(st, [m]);
    RootParent(st, m);
    var s, i := O.Scan(O.DirBlock(st, 1), O.Unused, 0), FirstFree(st.inodeMap, 0, 64);
    FreshSlots(n);
    FreshNames(n);
    FirstUnused(st);
    CreatedSlots(st, w, m, s, i);
  }

  lemma FirstUnused(st: Store)
    ensures !O.E(st, 1, 0).valid ==> O.Scan(O.DirBlock(st, 1), O.Unused, 0) == 0
  {
  }

  lemma FreshNames(n: nat)
    requires 196 <= n < 0x20_0000
    ensures forall t :: 0 <= t < 32 ==> O.E(Fresh(n), 1, t).name == []
  {
    LayoutOkIff(n);
    InodesCoverScanIff(n);
    hide Ent, SuperBytes;
    assert Fresh(n).inodes[1] == RootInode(LayoutOf(n).rootdirBase);
    assert O.DirBlock(Fresh(n), 1) == ZeroBlock;
    forall t | 0 <= t < 32 ensures O.E(Fresh(n), 1, t).name == [] { EntZeroBlock(t); }
  }

  lemma CreatedSlots(st: Store, w: Wit, m: Name, s: nat, i: nat)
    requires InvW(st, w) && O.Roomy(st) && NameOk(m) && s == O.Scan(O.DirBlock(st, 1), O.Unused, 0) < 32
    requires i < 64 && !st.inodeMap[i] && O.Resolve(st, 1, [m]) <= 0 && O.ParentOf(st, 1, [m]) == 1
    ensures var st' := O.Create(st, 1, s, i, FirstFree(st.blockMap, st.start, |st.blocks|), m, false);
            O.E(st', 1, s).name == m && forall t :: 0 <= t < 32 && t != s ==> O.E(st', 1, t) == O.E(st, 1, t)
  {
    hide InvW, NameOk, O.Create, O.Scan, O.DirBlock, O.Resolve, O.ParentOf, Lookup, FirstFree, SlotFor, Leaked, Walk, O.E, Padded;
    var d := ParentIs(st, w, [m]);
    NotZero(st, w, [m]);
    ScanSlotFor(st, 1, m);
    var st' := O.Create(st, 1, s, i, FirstFree(st.blockMap, st.start, |st.blocks|), m, false);
    var w' := CreateInv(st, w, 1, s, i, FirstFree(st.blockMap, st.start, |st.blocks|), m, false);
    forall t | 0 <= t < 32 && t != s ensures O.E(st', 1, t) == O.E(st, 1, t) {
      assert EntrySame(st, st', 1, t);
    }
  }

  /** Renaming the only file to a shorter name goes through, and does not move
      it to the new name: what the slot then holds ends with the old tail. */
  lemma ShortRename(o: Name, m: Name)
    requires NameOk(o) && NameOk(m) && |m| < |o|
    ensures var st := WithFile(196, o);
            && GoesThrough(st, [o], [m]) && NewName([o], [m]) == m + o[|m|..]
            && TreeOf(O.Rename(st, [o], [m]).st) != Moved(TreeOf(st), [], o, m)
  {
    hide InvW, NameOk, O.Scan, O.DirBlock, O.Resolve, O.ParentOf, TreeOf, WithFile, Clean, FreeBlocks, Moved, O.Rename;
    var st := WithFile(196, o);
    var i := FirstFile(196, o);
    FirstSlots(196, o);
    RootParent(st, o);
    assert Init([o]) == Init([m]) == [];
    ShortName(m);
    NoneHit(st, m);
    var w :| InvW(st, w);
    RenameMeetsPromiseIff(st, w, [o], [m]);
  }

  lemma NoneHit(st: Store, m: Name)
    requires forall t :: 0 <= t < 32 ==> O.E(st, 1, t).name != m
    ensures O.Scan(O.DirBlock(st, 1), O.AnyNamed(m), 0) == 32
  {
    hide Ent, O.DirBlock;
    var s := O.Scan(O.DirBlock(st, 1), O.AnyNamed(m), 0);
    assert s < 32 ==> O.E(st, 1, s).name == m;
  }

  // ---- a leaked block ----

  /** Writing a one-byte file and unlinking it leaves the empty tree with one
      block less than before. */
  lemma UnlinkLosesBlock(m: Name) returns (st: Store, st': Store)
    requires NameOk(m)
    ensures st == Filled(196, m, [7]) && O.Roomy(st) && O.Unlink(st, [m]) == Result(st', 0)
    ensures Sized(Fresh(196)) && Sized(st') && TreeOf(st') == TreeOf(Fresh(196)) == imap[[] := DirNode]
    ensures FreeBlocks(Fresh(196)) == 188 && FreeBlocks(st') == 187
  {
    hide InvW, NameOk, LayoutOf, O.Unlink, O.Resolve, Filled, Fresh, TreeOf, FreeBlocks, FormattedWit, Contents, UnlinkBits,
      AbsWalk;
    SmallLayout();
    FreshFree(196);
    FreshInv(196);
    var i := FilledHolds(196, m, [7]);
    st := Filled(196, m, [7]);
    assert |Contents(st, i)| == 1;
    var w :| InvW(st, w);
    var w' := UnlinkMeetsSpec(st, w, [m]);
    st' := O.Unlink(st, [m]).st;
    var r := Resolved(st, w, [m]);
    BothGood(st, w, st', w', i);
    UnlinkReturns(st, w, w', i, st');
    assert TreeOf(st) - {[m]} == imap[[] := DirNode];
  }

  lemma BothGood(st: Store, w: Wit, st': Store, w': Wit, i: nat)
    requires InvW(st, w) && InvW(st', w')
    ensures Good(st, w.ow) && Good(st', w'.ow) && Sized(st) && Sized(st')
  {
    hide TreeInv, Shapes, Owned;
  }
}
