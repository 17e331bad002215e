/** Stopping a rename, rmdir or unlink after any of its device writes, and any
    number of creates in a row. */
module CrashRemovals {
  import opened Layout
  import opened State
  import opened FileWrite
  import opened WriteProofs
  import opened Device
  import O = Ops
  import opened Tree
  import opened TreeProofs
  import opened OpProofs
  import opened TruncProofs
  import opened Spec
  import opened OpTheorems
  import opened FrameTheorems
  import opened Crash
  import opened CrashTheorems
  import F = FileSystem

  // ---- creates in a row ----

  /** One create after the other, all successful. */
  ghost predicate AllCreated(st: Store, ps: seq<(O.Path, bool)>)
    decreases |ps|
  {
    ps != [] ==>
      && O.Roomy(st) && ps[0].0 != [] && NameOk(O.Last(ps[0].0)) && O.Mknod(st, ps[0].0, ps[0].1).rc == 0
      && AllCreated(O.Mknod(st, ps[0].0, ps[0].1).st, ps[1..])
  }

  /** The store after the first j of them. */
  ghost function AfterCreates(st: Store, ps: seq<(O.Path, bool)>, j: nat): Store
    requires AllCreated(st, ps) && j <= |ps|
    decreases j
  {
    if j == 0 then st else AfterCreates(O.Mknod(st, ps[0].0, ps[0].1).st, ps[1..], j - 1)
  }

  ghost function CreatesWrites(st: Store, ps: seq<(O.Path, bool)>): seq<DevWrite>
    requires AllCreated(st, ps)
    decreases |ps|
  {
    if ps == [] then []
    else F.MknodWrites(st, ps[0].0, ps[0].1) + CreatesWrites(O.Mknod(st, ps[0].0, ps[0].1).st, ps[1..])
  }

  /** How many device writes the first j of them make. */
  ghost function WritesOf(st: Store, ps: seq<(O.Path, bool)>, j: nat): nat
    requires AllCreated(st, ps) && j <= |ps|
    decreases j
  {
    if j == 0 then 0
    else |F.MknodWrites(st, ps[0].0, ps[0].1)| + WritesOf(O.Mknod(st, ps[0].0, ps[0].1).st, ps[1..], j - 1)
  }

  /** Cutting any number of creates short after any k device writes leaves the
      tree of the store after just those whose writes are all among the k, with
      everything a path leads to marked allocated and held once. */
  lemma {:induction false} CreatesCrash(disk: Disk, st: Store, ps: seq<(O.Path, bool)>, k: nat) returns (j: nat)
    requires Mount(disk) == st && Inv(st) && O.Roomy(st) && AllCreated(st, ps) && k <= |CreatesWrites(st, ps)|
    ensures j <= |ps| && WritesOf(st, ps, j) <= k && (if j == |ps| then k == WritesOf(st, ps, j) else k < WritesOf(st, ps, j + 1))
    ensures var m := Mount(Replay(disk, CreatesWrites(st, ps)[..k])); Marked(m) && TreeOf(m) == TreeOf(AfterCreates(st, ps, j))
    decreases |ps|
  {
    hide Inv, O.Mknod, F.MknodWrites, Marked, TreeOf, Replay, NameOk;
    if ps == [] {
      j := 0;
      NothingWritten(disk, st);
      assert CreatesWrites(st, ps)[..k] == [];
    } else {
      var ws, st1 := F.MknodWrites(st, ps[0].0, ps[0].1), O.Mknod(st, ps[0].0, ps[0].1).st;
      var rest := CreatesWrites(st1, ps[1..]);
      CreateAll(disk, st, ps[0].0, ps[0].1);
      if k < |ws| {
        j := 0;
        assert (ws + rest)[..k] == ws[..k];
        CreateCrash(disk, st, ps[0].0, ps[0].1, k);
      } else {
        assert (ws + rest)[..k] == ws + rest[..k - |ws|];
        ReplayTwo(disk, ws, rest[..k - |ws|]);
        var j' := CreatesCrash(Replay(disk, ws), st1, ps[1..], k - |ws|);
        j := j' + 1;
      }
    }
  }

  lemma NothingWritten(disk: Disk, st: Store)
    requires Mount(disk) == st && Inv(st)
    ensures Mount(Replay(disk, [])) == st && Marked(st)
  {
    hide InvW, Marked;
    var w :| InvW(st, w);
    InvMarked(st, w);
  }

  lemma CreateAll(disk: Disk, st: Store, path: O.Path, isDir: bool)
    requires Mount(disk) == st && Inv(st) && O.Roomy(st) && path != [] && NameOk(O.Last(path)) && O.Mknod(st, path, isDir).rc == 0
    ensures var st' := O.Mknod(st, path, isDir).st;
            Mount(Replay(disk, F.MknodWrites(st, path, isDir))) == st' && Inv(st') && O.Roomy(st')
  {
    hide InvW, F.MknodWrites, O.Mknod, TreeOf, NameOk, Replay, O.Resolve, O.ParentOf, O.Scan, FirstFree, O.DirBlock, O.Create,
      CreateWrites;
    var w :| InvW(st, w);
    F.MknodIs(st, path, isDir);
    var d, s := O.ParentOf(st, 1, path), O.Scan(O.DirBlock(st, O.ParentOf(st, 1, path)), O.Unused, 0);
    var i, b := FirstFree(st.inodeMap, 0, 64), FirstFree(st.blockMap, st.start, |st.blocks|);
    CreateApart(st, w, path);
    AllWrites(disk, st, d, s, i, b, O.Last(path), isDir);
    var w' := MknodMeetsSpec(st, w, path, isDir);
    RoomToWrite(O.Mknod(st, path, isDir).st, w');
  }

  // ---- rename ----

  /** A rename is atomic: before its last write the store is the old one, after
      it the new one. */
  lemma RenameCrash(disk: Disk, st: Store, src: O.Path, dst: O.Path, k: nat)
    requires Mount(disk) == st && Inv(st) && O.Roomy(st) && src != [] && dst != [] && NameOk(O.Last(dst))
    requires O.Rename(st, src, dst).rc == 0 && k <= |RenameWrites(st, src, dst)|
    ensures Mount(Replay(disk, RenameWrites(st, src, dst)[..k])) == if k < 2 then st else O.Rename(st, src, dst).st
  {
    hide InvW, O.Rename, NameOk, O.Resolve, O.ParentOf, O.Scan, O.DirBlock, RenameEnt, Padded, O.E, Replay, Walk;
    var w :| InvW(st, w);
    var ws := RenameWrites(st, src, dst);
    RenameGoes(st, src, dst);
    var d, s, c := EntryOf(st, w, src);
    ShortName(O.Last(dst));
    RenameStores(st, src, dst, d, s, c);
    DirOnDisk(st, w, d);
    ReplayPrefix(disk, ws, k);
    if k > 0 { ReplayPrefix(disk, ws, k - 1); }
    assert ws[..0] == [];
  }

  lemma RenameGoes(st: Store, src: O.Path, dst: O.Path)
    requires src != [] && dst != [] && NameOk(O.Last(dst)) && O.Rename(st, src, dst).rc == 0
    ensures O.Resolve(st, 1, src) >= 0 && O.ParentOf(st, 1, src) == O.ParentOf(st, 1, dst)
    ensures O.ParentOf(st, 1, src) >= 0 ==> O.Scan(O.DirBlock(st, O.ParentOf(st, 1, src)), O.AnyNamed(O.Last(dst)), 0) == 32
  {
    hide O.Resolve, O.ParentOf, O.Scan, O.DirBlock, RenameEnt, O.SetDirBlock, NameOk;
  }

  lemma DirOnDisk(st: Store, w: Wit, d: nat)
    requires InvW(st, w) && LiveDir(st, d)
    ensures O.InodeAt(st, d).direct[0] < |st.blocks|
  {
    hide TreeInv, Shapes, Target;
    AllDirPointers(st, w);
    DirBlockOwned(st, w.ow, d);
  }

  // ---- what the bitmaps do not decide ----

  lemma {:induction false} ResolveIgnoresMaps(st: Store, m: Store, i: nat, q: O.Path)
    requires m.inodes == st.inodes && m.blocks == st.blocks
    ensures O.Resolve(m, i, q) == O.Resolve(st, i, q)
    decreases |q|
  {
    hide O.Scan, Ent;
    if q != [] {
      var s := O.Scan(O.DirBlock(st, i), O.Named(q[0]), 0);
      if s < 32 { ResolveIgnoresMaps(st, m, O.E(st, i, s).inode, q[1..]); }
    }
  }

  lemma TreeIgnoresMaps(st: Store, m: Store)
    requires m.inodes == st.inodes && m.blocks == st.blocks
    ensures TreeOf(m) == TreeOf(st)
  {
    hide O.Resolve, ByteAt;
    forall q: O.Path ensures O.Resolve(m, 1, q) == O.Resolve(st, 1, q) { ResolveIgnoresMaps(st, m, 1, q); }
    forall i: nat | i < |st.inodes| ensures NodeOf(m, i) == NodeOf(st, i) { SameByMaps(st, m, i); }
  }

  lemma SameByMaps(st: Store, m: Store, i: nat)
    requires m.inodes == st.inodes && m.blocks == st.blocks && i < |st.inodes|
    ensures NodeOf(m, i) == NodeOf(st, i)
  {
    assert forall x: nat :: ByteAt(m, i, x) == ByteAt(st, i, x);
    assert Contents(m, i) == Contents(st, i);
  }

  /** A path to a block marked free. */
  lemma NotMarked(m: Store, q: O.Path, r: nat, loc: Loc)
    requires O.Resolve(m, 1, q) == r < |m.inodes| && T(m, r, loc) != 0
    requires T(m, r, loc) < |m.blockMap| && !m.blockMap[T(m, r, loc)]
    ensures !Marked(m)
  {
    hide O.Resolve, T, NotShared;
    assert !InUseBy(m, r, loc);
  }

  // ---- rmdir ----

  /** What a successful rmdir of directory c, with block b, makes of the store. */
  ghost predicate Rmdirs(st: Store, path: O.Path, c: nat, b: nat, st': Store) {
    && O.Resolve(st, 1, path) == c && Live(st, c) && T(st, c, Data(0)) == b != 0 && b < |st.blockMap|
    && c < |st.inodeMap| && ParentBlock(st, path) < |st.blocks| && |st'.blocks| == |st.blocks|
    && st'.start == st.start && st'.inodeMap == st.inodeMap[c := false]
    && st'.blockMap == st.blockMap[b := false] && st'.inodes == st.inodes[c := NoInode]
    && st'.blocks == st.blocks[ParentBlock(st, path) := st'.blocks[ParentBlock(st, path)]]
  }

  lemma RmdirStores(st: Store, w: Wit, path: O.Path) returns (c: nat, b: nat, w': Wit)
    requires InvW(st, w) && O.Roomy(st) && path != [] && O.Rmdir(st, path).rc == 0
    ensures var st' := O.Rmdir(st, path).st;
            Rmdirs(st, path, c, b, st') && InvW(st', w') && TreeOf(st') == TreeOf(st) - {path}
  {
    hide InvW, O.Rmdir, O.Resolve, O.ParentOf, O.Scan, Walk, TreeOf, O.SetDirBlock, Rmdired, Padded, O.E, ClearEnt, O.DirBlock;
    w' := RmdirMeetsSpec(st, w, path);
    RmdirGoes(st, path);
    var d, s, g := EntryOf(st, w, path);
    c := g;
    RmdirIs(st, path, d, s, c);
    b := DirBlockIs(st, w, c);
    DirOnDisk(st, w, d);
    RmdirFields(st, c, d, b, ClearEnt(O.DirBlock(st, d), s));
  }

  lemma RmdirGoes(st: Store, path: O.Path)
    requires path != [] && O.Rmdir(st, path).rc == 0
    ensures var c := O.Resolve(st, 1, path);
            c >= 0 && O.InodeAt(st, c).isDir && O.Scan(O.DirBlock(st, c), O.Used, 0) == 32
  {
    hide O.Resolve, O.ParentOf, O.Scan, O.SetDirBlock, ClearEnt, O.DirBlock;
  }

  lemma DirBlockIs(st: Store, w: Wit, c: nat) returns (b: nat)
    requires InvW(st, w) && LiveDir(st, c)
    ensures b == T(st, c, Data(0)) == st.inodes[c].direct[0] != 0 && st.start <= b < |st.blockMap|
  {
    hide TreeInv, Shapes, Target;
    AllDirPointers(st, w);
    DirBlockOwned(st, w.ow, c);
    DirectZero(st, c);
    b := T(st, c, Data(0));
  }

  lemma RmdirFields(st: Store, c: nat, d: nat, b: nat, x: Block)
    requires c < |st.inodes| && c < |st.inodeMap| && d < |st.inodes| && c != d && st.inodes[c].direct[0] == b
    requires st.start <= b < |st.blockMap| && O.InodeAt(st, d).direct[0] < |st.blocks|
    ensures var st', p := O.SetDirBlock(Rmdired(st, c), d, x), O.InodeAt(st, d).direct[0];
            && st'.start == st.start && st'.inodeMap == st.inodeMap[c := false] && |st'.blocks| == |st.blocks|
            && st'.blockMap == st.blockMap[b := false] && st'.inodes == st.inodes[c := NoInode]
            && st'.blocks == st.blocks[p := st'.blocks[p]]
  {
  }

  lemma RmdirPrefix(disk: Disk, st: Store, path: O.Path, c: nat, b: nat, k: nat)
    requires Mount(disk) == st && path != [] && k <= 4 && Rmdirs(st, path, c, b, O.Rmdir(st, path).st)
    ensures var st' := O.Rmdir(st, path).st;
            Mount(Replay(disk, RmdirWrites(st, path)[..k])) ==
              Store(st.start, if k >= 2 then st'.inodeMap else st.inodeMap, if k >= 1 then st'.blockMap else st.blockMap,
                    if k >= 4 then st'.inodes else st.inodes, if k >= 3 then st'.blocks else st.blocks)
  {
    hide O.Rmdir, O.Resolve, O.ParentOf, Replay, ParentBlock;
    FourWrites(disk, RmdirWrites(st, path), k);
  }

  /** Until its third write a stopped rmdir leaves the old tree, from then on the
      new one; but after the first the directory's block is already free while a
      path still leads to it. */
  lemma RmdirCrash(disk: Disk, st: Store, path: O.Path, k: nat)
    requires Mount(disk) == st && Inv(st) && O.Roomy(st) && path != [] && O.Rmdir(st, path).rc == 0 && k <= 4
    ensures var m := Mount(Replay(disk, RmdirWrites(st, path)[..k]));
            && TreeOf(m) == (if k < 3 then TreeOf(st) else TreeOf(st) - {path})
            && (Marked(m) <==> k == 0 || k >= 3)
  {
    hide InvW, O.Rmdir, O.Resolve, O.ParentOf, Replay, Walk, TreeOf, Marked, T, OnlyFree, ParentBlock, RmdirWrites;
    var w :| InvW(st, w);
    var st' := O.Rmdir(st, path).st;
    var c, b, w' := RmdirStores(st, w, path);
    RmdirPrefix(disk, st, path, c, b, k);
    var m := Mount(Replay(disk, RmdirWrites(st, path)[..k]));
    if k == 0 {
      InvMarked(st, w);
    } else if k < 3 {
      TreeIgnoresMaps(st, m);
      ResolveIgnoresMaps(st, m, 1, path);
      SameTargets(st, m, c, Data(0));
      NotMarked(m, path, c, Data(0));
    } else {
      OnlyFreeInode(st', m, c);
      FreeTree(st', m, w', c);
    }
  }

  lemma SameTargets(st: Store, m: Store, c: nat, loc: Loc)
    requires m.inodes == st.inodes && m.blocks == st.blocks && c < |st.inodes|
    ensures T(m, c, loc) == T(st, c, loc)
  {
  }

  /** m and st' differ in the inode of c at most, which is not in use in st'. */
  lemma OnlyFreeInode(st': Store, m: Store, c: nat)
    requires m.start == st'.start && m.blocks == st'.blocks && m.blockMap == st'.blockMap && |m.inodes| == |st'.inodes|
    requires |m.inodeMap| == |st'.inodeMap| && c < |m.inodes| && c < |m.inodeMap| && !st'.inodeMap[c]
    requires m.inodeMap == st'.inodeMap || m.inodeMap == st'.inodeMap[c := true]
    requires forall j :: 0 <= j < |st'.inodes| && j != c ==> m.inodes[j] == st'.inodes[j]
    ensures OnlyFree(st', m, c)
  {
  }

  lemma FourWrites(disk: Disk, ws: seq<DevWrite>, k: nat)
    requires k <= |ws| == 4
    ensures var d1 := Apply(disk, ws[0]);
            var d2 := Apply(d1, ws[1]);
            var d3 := Apply(d2, ws[2]);
            Replay(disk, ws[..k]) ==
            if k == 0 then disk else if k == 1 then d1 else if k == 2 then d2 else if k == 3 then d3 else Apply(d3, ws[3])
  {
    hide Replay;
    assert ws[..0] == [];
    ReplayPrefix(disk, ws, 0);
    if k >= 1 { ReplayPrefix(disk, ws, 1); }
    if k >= 2 { ReplayPrefix(disk, ws, 2); }
    if k >= 3 { ReplayPrefix(disk, ws, 3); }
    if k >= 4 { ReplayPrefix(disk, ws, 4); }
  }

  // ---- unlink ----

  /** What a successful unlink of file c makes of the store, over the truncation t. */
  ghost predicate Unlinks(st: Store, path: O.Path, c: nat, t: Store, st': Store) {
    && O.Resolve(st, 1, path) == c && Live(st, c) && !st.inodes[c].isDir && c < |st.inodeMap|
    && O.Truncate(st, path, 0).st == t == O.TruncFile(st, c) && ParentBlock(st, path) < |st.blocks|
    && st'.start == st.start && st'.inodeMap == st.inodeMap[c := false] && st'.blockMap == t.blockMap
    && |st'.blocks| == |st.blocks| && |st'.inodes| == |st.inodes|
    && (forall j :: 0 <= j < |st.inodes| && j != c ==> st'.inodes[j] == st.inodes[j])
    && st'.blocks == st.blocks[ParentBlock(st, path) := st'.blocks[ParentBlock(st, path)]]
  }

  lemma UnlinkStores(st: Store, w: Wit, path: O.Path) returns (c: nat, w': Wit)
    requires InvW(st, w) && O.Roomy(st) && O.Unlink(st, path).rc == 0
    ensures var t, st' := O.Truncate(st, path, 0).st, O.Unlink(st, path).st;
            Unlinks(st, path, c, t, st') && InvW(st', w') && TreeOf(st') == TreeOf(st) - {path} && path != []
  {
    hide InvW, O.Unlink, O.Resolve, O.ParentOf, O.Scan, Walk, TreeOf, O.SetDirBlock, Unlinked, Padded, O.E, Invalidate,
      O.DirBlock, O.TruncFile, UnlinkBits;
    w' := UnlinkMeetsSpec(st, w, path);
    PathNotRoot(st, w, path);
    var r := Resolved(st, w, path);
    var d, s, g := EntryOf(st, w, path);
    c := g;
    TruncSameParent(st, w, c, path);
    UnlinkIs(st, path, d, s, c);
    DirOnDisk(st, w, d);
    UnlinkFields(st, c, d, Invalidate(O.DirBlock(st, d), s));
  }

  lemma UnlinkFields(st: Store, c: nat, d: nat, x: Block)
    requires c < |st.inodes| && c < |st.inodeMap| && d < |st.inodes| && c != d && O.InodeAt(st, d).direct[0] < |st.blocks|
    ensures var st', p := O.SetDirBlock(Unlinked(st, c), d, x), O.InodeAt(st, d).direct[0];
            && st'.start == st.start && st'.inodeMap == st.inodeMap[c := false] && st'.blockMap == O.TruncFile(st, c).blockMap
            && |st'.blocks| == |st.blocks| && |st'.inodes| == |st.inodes|
            && (forall j :: 0 <= j < |st.inodes| && j != c ==> st'.inodes[j] == st.inodes[j])
            && st'.blocks == st.blocks[p := st'.blocks[p]]
  {
    hide O.TruncBits, O.ClearDirect;
  }

  lemma UnlinkPrefix(disk: Disk, st: Store, path: O.Path, c: nat, t: Store, k: nat)
    requires Mount(disk) == st && O.Roomy(st) && k <= 5 && Unlinks(st, path, c, t, O.Unlink(st, path).st)
    ensures var st' := O.Unlink(st, path).st;
            Mount(Replay(disk, UnlinkWrites(st, path)[..k])) ==
              Store(st.start, if k >= 5 then st'.inodeMap else st.inodeMap, if k >= 1 then t.blockMap else st.blockMap,
                    if k >= 4 then st'.inodes else if k >= 2 then t.inodes else st.inodes, if k >= 3 then st'.blocks else st.blocks)
  {
    hide O.Unlink, O.Truncate, O.Resolve, O.ParentOf, Replay, ParentBlock, O.TruncFile;
    var ws := UnlinkWrites(st, path);
    if k == 5 {
      FourWrites(disk, ws[..4], 4);
      assert ws[..4][..4] == ws[..4];
      ReplayPrefix(disk, ws, 5);
    } else {
      FourWrites(disk, ws[..4], k);
      assert ws[..4][..k] == ws[..k];
    }
  }

  lemma ReleasedDeep(st: Store, ow: Owners, c: nat, x: nat)
    requires Good(st, ow) && Live(st, c) && Shape(st, c)
    ensures Released(ow, c, x) ==> T(st, c, Data(6)) != 0
  {
    hide Target;
    if Released(ow, c, x) {
      var m := ow[x].1;
      assert T(st, c, m) == x;
      assert m != Data(6) ==> 6 * 1024 < st.inodes[c].size;
    }
  }

  /** The file reaches its seventh block exactly when a truncation frees one. */
  lemma NothingReleased(st: Store, ow: Owners, c: nat)
    requires Good(st, ow) && Live(st, c) && Shape(st, c)
    ensures T(st, c, Data(6)) == 0 ==> O.TruncBits(st, st.inodes[c]) == st.blockMap
    ensures T(st, c, Data(6)) != 0 ==> var x := T(st, c, Data(6)); x < |st.blockMap| && !O.TruncBits(st, st.inodes[c])[x]
  {
    hide O.TruncBits, Target;
    if T(st, c, Data(6)) == 0 {
      forall x: nat | x < |st.blockMap| ensures O.TruncBits(st, st.inodes[c])[x] == st.blockMap[x] {
        TruncBitsAt(st, ow, c, x);
        ReleasedDeep(st, ow, c, x);
      }
    } else {
      TruncBitsAt(st, ow, c, T(st, c, Data(6)));
    }
  }

  /** The truncated file still points to what it reached through index blocks. */
  lemma TruncPointers(st: Store, c: nat, m: Loc)
    requires c < |st.inodes| && Shape(st, c)
    ensures c < |O.TruncFile(st, c).inodes|
    ensures T(O.TruncFile(st, c), c, m) == if m.Data? && m.l < 6 then 0 else T(st, c, m)
  {
    TruncDirect(st, c);
    hide O.TruncBits, O.ClearDirect;
  }

  /** A stopped unlink leaves the old tree, after its second write the tree with
      the file emptied, and from its third on the new one.  What paths lead to
      is marked allocated throughout exactly when the file never reached its
      single-indirect entries; otherwise it is not after the first two writes. */
  lemma UnlinkCrash(disk: Disk, st: Store, path: O.Path, k: nat)
    requires Mount(disk) == st && Inv(st) && O.Roomy(st) && O.Unlink(st, path).rc == 0 && k <= 5
    ensures var m, c := Mount(Replay(disk, UnlinkWrites(st, path)[..k])), O.Resolve(st, 1, path);
            && TreeOf(m) == (if k < 2 then TreeOf(st)
                             else if k == 2 then TreeOf(st)[path := FileNode([])] else TreeOf(st) - {path})
            && 0 <= c < |st.inodes| && (Marked(m) <==> k == 0 || k >= 3 || T(st, c, Data(6)) == 0)
  {
    hide InvW, O.Unlink, O.Resolve, O.ParentOf, Replay, Walk, TreeOf, Marked, T, OnlyFree, ParentBlock, UnlinkWrites,
      O.TruncFile, O.Truncate, Shape, Good, TruncateSpec;
    var w :| InvW(st, w);
    var t, st' := O.Truncate(st, path, 0).st, O.Unlink(st, path).st;
    var c, w' := UnlinkStores(st, w, path);
    UnlinkPrefix(disk, st, path, c, t, k);
    var m := Mount(Replay(disk, UnlinkWrites(st, path)[..k]));
    ShapeOf(st, w, c);
    TruncFields(st, c);
    if k == 0 {
      InvMarked(st, w);
    } else if k == 1 {
      FreedEarly(st, w, path, c, m);
    } else if k == 2 {
      Emptied(st, w, path, c, m);
    } else {
      OnlyFreeInode(st', m, c);
      FreeTree(st', m, w', c);
    }
  }

  lemma TruncFields(st: Store, c: nat)
    requires c < |st.inodes|
    ensures var t := O.TruncFile(st, c);
            && t.start == st.start && t.blocks == st.blocks && t.inodeMap == st.inodeMap && |t.inodes| == |st.inodes|
            && t.blockMap == O.TruncBits(st, st.inodes[c]) && |t.blockMap| == |st.blockMap|
            && forall j :: 0 <= j < |st.inodes| && j != c ==> t.inodes[j] == st.inodes[j]
  {
  }

  lemma FreedEarly(st: Store, w: Wit, path: O.Path, c: nat, m: Store)
    requires InvW(st, w) && O.Resolve(st, 1, path) == c && Live(st, c) && Shape(st, c)
    requires m == st.(blockMap := O.TruncBits(st, st.inodes[c]))
    ensures TreeOf(m) == TreeOf(st) && (Marked(m) <==> T(st, c, Data(6)) == 0)
  {
    hide TreeInv, Shapes, O.Resolve, TreeOf, Marked, T, Owned, O.TruncBits, Shape;
    NothingReleased(st, w.ow, c);
    TreeIgnoresMaps(st, m);
    if T(st, c, Data(6)) == 0 {
      assert m == st;
      InvMarked(st, w);
    } else {
      ResolveIgnoresMaps(st, m, 1, path);
      SameTargets(st, m, c, Data(6));
      NotMarked(m, path, c, Data(6));
    }
  }

  lemma Emptied(st: Store, w: Wit, path: O.Path, c: nat, m: Store)
    requires InvW(st, w) && O.Resolve(st, 1, path) == c && Live(st, c) && Shape(st, c) && !st.inodes[c].isDir
    requires m == O.TruncFile(st, c) && O.Truncate(st, path, 0).st == m && m.inodeMap == st.inodeMap
    ensures TreeOf(m) == TreeOf(st)[path := FileNode([])] && (Marked(m) <==> T(st, c, Data(6)) == 0)
  {
    hide TreeInv, Shapes, O.Resolve, TreeOf, Marked, T, Owned, O.TruncBits, Shape, O.TruncFile, Walk;
    EmptiedTree(st, w, path, c, m);
    NothingReleased(st, w.ow, c);
    TruncFields(st, c);
    if T(st, c, Data(6)) == 0 {
      EmptiedMarked(st, w, c, m);
    } else {
      EmptiedWalk(st, w, path, c, m);
      TruncPointers(st, c, Data(6));
      NotMarked(m, path, c, Data(6));
    }
  }

  lemma EmptiedTree(st: Store, w: Wit, path: O.Path, c: nat, m: Store)
    requires InvW(st, w) && O.Resolve(st, 1, path) == c && Live(st, c) && !st.inodes[c].isDir && O.Truncate(st, path, 0).st == m
    ensures TreeOf(m) == TreeOf(st)[path := FileNode([])]
  {
    hide InvW, O.Resolve, TreeOf, O.TruncFile, AbsWalk;
    TruncateMeetsTree(st, w, path, 0);
    var r := Resolved(st, w, path);
  }

  /** The walks of the truncated store. */
  lemma EmptiedWalk(st: Store, w: Wit, q: O.Path, c: nat, m: Store)
    requires InvW(st, w) && Live(st, c) && !st.inodes[c].isDir && m == O.TruncFile(st, c)
    requires exists p: O.Path :: O.Resolve(st, 1, p) == c
    ensures O.Resolve(m, 1, q) == O.Resolve(st, 1, q)
    ensures O.Resolve(st, 1, q) >= 0 ==> Live(st, O.Resolve(st, 1, q))
  {
    hide TreeInv, Shapes, Good, O.Resolve, O.TruncFile, Walk, OthersSame;
    var p: O.Path :| O.Resolve(st, 1, p) == c;
    ResolveIsWalk(st, w, p);
    NotRoot(st, w, c);
    TruncOthers(st, c);
    FileOnlySameDirs(st, m, w, c);
    SameDirsTree(st, m, w, w.ow);
    SameDirsWalk(st, m, w, q);
    ResolveIsWalk(st, w, q);
    ResolveIsWalk(m, w.(ow := w.ow), q);
    WalkLive(st, w, q);
  }

  /** Without released blocks the truncated store only lost pointers. */
  lemma EmptiedMarked(st: Store, w: Wit, c: nat, m: Store)
    requires InvW(st, w) && Live(st, c) && !st.inodes[c].isDir && Shape(st, c) && m == O.TruncFile(st, c)
    requires exists p: O.Path :: O.Resolve(st, 1, p) == c
    requires m.blockMap == st.blockMap && m.blocks == st.blocks && m.start == st.start && m.inodeMap == st.inodeMap
    ensures Marked(m)
  {
    hide TreeInv, Shapes, O.Resolve, O.TruncFile, T, Owned, InUseBy, NotShared;
    forall q: O.Path ensures O.Resolve(m, 1, q) == O.Resolve(st, 1, q)
      && (O.Resolve(st, 1, q) >= 0 ==> Live(m, O.Resolve(st, 1, q))) {
      EmptiedWalk(st, w, q, c, m);
      TruncFields(st, c);
    }
    forall q: O.Path, l | O.Resolve(m, 1, q) >= 0 ensures InUseBy(m, O.Resolve(m, 1, q), l) {
      EmptiedHeld(st, w, c, m, O.Resolve(m, 1, q), l);
    }
    forall q, q': O.Path, l, l' | O.Resolve(m, 1, q) >= 0 && O.Resolve(m, 1, q') >= 0
      ensures NotShared(m, O.Resolve(m, 1, q), l, O.Resolve(m, 1, q'), l')
    {
      EmptiedHeld(st, w, c, m, O.Resolve(m, 1, q), l);
      EmptiedHeld(st, w, c, m, O.Resolve(m, 1, q'), l');
      EmptiedApart(st, w, m, O.Resolve(m, 1, q), l, O.Resolve(m, 1, q'), l');
    }
  }

  lemma EmptiedHeld(st: Store, w: Wit, c: nat, m: Store, r: nat, l: Loc)
    requires InvW(st, w) && Live(st, c) && Shape(st, c) && m == O.TruncFile(st, c) && Live(m, r)
    requires m.blockMap == st.blockMap && m.blocks == st.blocks && m.start == st.start && m.inodeMap == st.inodeMap
    ensures Live(st, r) && (T(m, r, l) == 0 || T(m, r, l) == T(st, r, l)) && InUseBy(m, r, l)
  {
    hide TreeInv, Shapes, O.TruncFile, Target;
    TruncFields(st, c);
    if r == c {
      TruncPointers(st, c, l);
    } else {
      OthersTargets(st, c, r, l);
    }
    if T(m, r, l) != 0 { InRegion(st, w.ow, r, l); }
  }

  lemma OthersTargets(st: Store, c: nat, r: nat, l: Loc)
    requires c < |st.inodes| && r < |st.inodes| && r != c
    ensures r < |O.TruncFile(st, c).inodes| && T(O.TruncFile(st, c), r, l) == T(st, r, l)
  {
    hide O.TruncBits, O.ClearDirect;
  }

  lemma EmptiedApart(st: Store, w: Wit, m: Store, r: nat, l: Loc, r': nat, l': Loc)
    requires InvW(st, w) && Live(st, r) && Live(st, r') && r < |m.inodes| && r' < |m.inodes|
    requires T(m, r, l) == 0 || T(m, r, l) == T(st, r, l)
    requires T(m, r', l') == 0 || T(m, r', l') == T(st, r', l')
    ensures NotShared(m, r, l, r', l')
  {
    hide TreeInv, Shapes, Target;
  }

  // ---- truncate ----

  /** A stopped truncation leaves the old tree until its second write, and then
      the file empty; from the first write on paths lead to blocks marked free if
      and only if the file reached its single-indirect entries. */
  lemma TruncateCrash(disk: Disk, st: Store, path: O.Path, k: nat)
    requires Mount(disk) == st && Inv(st) && O.Roomy(st) && O.Truncate(st, path, 0).rc == 0 && k <= 2
    ensures var m, c := Mount(Replay(disk, TruncateWrites(O.Truncate(st, path, 0).st)[..k])), O.Resolve(st, 1, path);
            && TreeOf(m) == (if k < 2 then TreeOf(st) else TreeOf(st)[path := FileNode([])])
            && 0 <= c < |st.inodes| && (Marked(m) <==> k == 0 || T(st, c, Data(6)) == 0)
  {
    hide InvW, O.Resolve, Replay, Walk, TreeOf, Marked, T, O.TruncFile, Shape, Good, TruncateSpec;
    var w :| InvW(st, w);
    var t := O.Truncate(st, path, 0).st;
    var c := Resolved(st, w, path);
    ShapeOf(st, w, c);
    TruncFields(st, c);
    TruncatePrefix(disk, st, t, k);
    if k == 0 {
      InvMarked(st, w);
    } else if k == 1 {
      FreedEarly(st, w, path, c, Mount(Replay(disk, TruncateWrites(t)[..k])));
    } else {
      Emptied(st, w, path, c, t);
    }
  }

  lemma TruncatePrefix(disk: Disk, st: Store, t: Store, k: nat)
    requires Mount(disk) == st && k <= 2 && t.start == st.start && t.blocks == st.blocks && t.inodeMap == st.inodeMap
    ensures Mount(Replay(disk, TruncateWrites(t)[..k])) ==
            if k == 0 then st else if k == 1 then st.(blockMap := t.blockMap) else t
  {
    var ws := TruncateWrites(t);
    assert ws[..0] == [] && ws[..1] == [ws[0]] && ws[..2] == [ws[0]] + [ws[1]];
    ReplayOne(disk, [], ws[0]);
    ReplayOne(disk, [ws[0]], ws[1]);
    assert [] + [ws[0]] == [ws[0]];
  }
}
