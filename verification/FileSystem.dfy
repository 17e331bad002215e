/** main.c: the mounted file system with its in-memory bitmaps and inode table
    and the device writes it makes. */
module FileSystem {
  import opened Layout
  import opened State
  import opened FileWrite
  import opened WriteProofs
  import opened Device
  import opened Crash
  import opened OpProofs
  import O = Ops
  import opened Tree
  import opened TreeProofs
  import opened Spec
  import opened OpTheorems
  import opened WriteSteps
  import opened WriteLoops
  import opened WriteLog
  import opened StaleTrees
  import opened FileRead
  import opened ReadTheorems
  import opened FrameTheorems
  import opened Checker
  import opened CheckerTheorems

  // ---- facts about valid stores the methods need ----

  /** The directory tree is intact and its blocks are on the disk. */
  ghost predicate WalkableW(st: Store, w: Wit) {
    TreeInv(st, w) && forall d: nat :: LiveDir(st, d) ==> st.inodes[d].direct[0] < |st.blocks|
  }

  ghost predicate Walkable(st: Store) { exists w :: WalkableW(st, w) }

  lemma InvWalkable(st: Store)
    requires Inv(st)
    ensures Walkable(st)
  {
    var w :| InvW(st, w);
    hide TreeInv, Shapes, Owned;
    AllDirPointers(st, w);
    forall d: nat | LiveDir(st, d) ensures st.inodes[d].direct[0] < |st.blocks| { DirBlockOwned(st, w.ow, d); }
    assert WalkableW(st, w);
  }

  lemma DirReadable(st: Store, d: nat)
    requires Walkable(st) && LiveDir(st, d)
    ensures d < |st.inodes| && st.inodes[d].direct[0] < |st.blocks|
    ensures O.DirBlock(st, d) == st.blocks[st.inodes[d].direct[0]]
  {
    hide TreeInv;
  }

  lemma EntryLive(st: Store, d: nat, s: nat)
    requires Walkable(st) && LiveDir(st, d) && s < 32 && O.E(st, d, s).valid
    ensures var e := O.E(st, d, s); Live(st, e.inode) && (LiveDir(st, e.inode) <==> e.isDir)
  {
    var w :| WalkableW(st, w);
    hide TreeInv, O.E;
    EntryFacts(st, w, d, s);
  }

  lemma RootIsDir(st: Store)
    requires Walkable(st)
    ensures LiveDir(st, 1)
  {
    hide DirOk, Placed;
  }

  lemma InvRoomy(st: Store)
    requires Inv(st)
    ensures O.Roomy(st)
  {
    var w :| InvW(st, w);
    RoomToWrite(st, w);
  }

  /** How one of the loops of fs_write ends. */
  datatype LoopEnd = Finished(rc: int) | Halted | Unfinished

  class FileSystem {
    const inodeMap: array<bool>
    const blockMap: array<bool>
    const inodes: array<Inode>
    var startBlock: nat
    var disk: Disk
    /** Every write sent to the device since mounting, and the disk before them. */
    ghost var log: seq<DevWrite>
    ghost const base: Disk

    /** The state as a value. */
    ghost function St(): Store
      reads this, inodeMap, blockMap, inodes
    {
      Store(startBlock, inodeMap[..], blockMap[..], inodes[..], disk.blocks)
    }

    ghost predicate Shaped()
      reads this
    {
      && inodeMap != blockMap
      && startBlock <= |disk.blocks| <= blockMap.Length
      && 64 <= inodes.Length <= inodeMap.Length
      && disk == Replay(base, log)
    }

    /** The memory copies agree with the disk. */
    ghost predicate Synced()
      reads this, inodeMap, blockMap, inodes
    {
      && disk.inodeMap == inodeMap[..] && disk.blockMap == blockMap[..] && disk.inodes == inodes[..]
      && StartBlock(disk.super) == startBlock
    }

    ghost predicate Valid()
      reads this, inodeMap, blockMap, inodes
    {
      Shaped() && Synced() && Inv(St())
    }

    /** fs_init, of any image. */
    constructor (d: Disk)
      ensures Synced() && St() == Mount(d) && disk == d && base == d && log == []
      ensures O.Roomy(Mount(d)) ==> Shaped()
      ensures Inv(Mount(d)) ==> Valid()
      ensures fresh(inodeMap) && fresh(blockMap) && fresh(inodes)
    {
      hide Inv, Replay;
      disk, base, log := d, d, [];
      inodeMap := new bool[|d.inodeMap|](i requires 0 <= i < |d.inodeMap| => d.inodeMap[i]);
      blockMap := new bool[|d.blockMap|](i requires 0 <= i < |d.blockMap| => d.blockMap[i]);
      inodes := new Inode[|d.inodes|](i requires 0 <= i < |d.inodes| => d.inodes[i]);
      startBlock := 1 + d.super.inodeMapSz + d.super.blockMapSz + d.super.inodeRegionSz;
      new;
      assert inodeMap[..] == d.inodeMap && blockMap[..] == d.blockMap && inodes[..] == d.inodes;
      ReplayNone(d);
      if Inv(Mount(d)) { InvRoomy(Mount(d)); }
    }

    /** Mounting the disk of a running file system again rebuilds the same
        bitmaps and inode table, whatever the calls before it left. */
    method Remount() returns (fs: FileSystem)
      requires Shaped() && Synced()
      ensures fresh(fs) && fs.Shaped() && fs.Synced() && fs.St() == St() && fs.disk == disk
      ensures Valid() ==> fs.Valid()
    {
      hide Inv, Replay;
      fs := new FileSystem(disk);
    }

    // ---- device calls ----

    method ReadBlock(p: nat) returns (b: Block)
      requires p < |disk.blocks|
      ensures b == disk.blocks[p]
    {
      b := disk.blocks[p];
    }

    method WriteBlock(p: nat, b: Block)
      requires Shaped() && p < |disk.blocks|
      modifies this`disk, this`log
      ensures Shaped() && log == old(log) + [ToBlock(p, b)]
      ensures disk == old(disk).(blocks := old(disk.blocks)[p := b])
    {
      ReplayOne(base, log, ToBlock(p, b));
      disk := disk.(blocks := disk.blocks[p := b]);
      log := log + [ToBlock(p, b)];
    }

    method WriteInodeMap()
      requires Shaped()
      modifies this`disk, this`log
      ensures Shaped() && log == old(log) + [ToInodeMap(inodeMap[..])]
      ensures disk == old(disk).(inodeMap := inodeMap[..])
    {
      ReplayOne(base, log, ToInodeMap(inodeMap[..]));
      disk := disk.(inodeMap := inodeMap[..]);
      log := log + [ToInodeMap(inodeMap[..])];
    }

    method WriteBlockMap()
      requires Shaped()
      modifies this`disk, this`log
      ensures Shaped() && log == old(log) + [ToBlockMap(blockMap[..])]
      ensures disk == old(disk).(blockMap := blockMap[..])
    {
      ReplayOne(base, log, ToBlockMap(blockMap[..]));
      disk := disk.(blockMap := blockMap[..]);
      log := log + [ToBlockMap(blockMap[..])];
    }

    method WriteAllInodes()
      requires Shaped()
      modifies this`disk, this`log
      ensures Shaped() && log == old(log) + [ToInodes(inodes[..])]
      ensures disk == old(disk).(inodes := inodes[..])
    {
      ReplayOne(base, log, ToInodes(inodes[..]));
      disk := disk.(inodes := inodes[..]);
      log := log + [ToInodes(inodes[..])];
    }

    // ---- allocation ----

    method FreeABlock(bit: nat)
      requires Shaped() && bit < blockMap.Length
      modifies blockMap
      ensures blockMap[..] == O.FreeBit(old(blockMap[..]), startBlock, bit)
      ensures forall x :: 0 <= x < blockMap.Length ==> blockMap[x] == (old(blockMap[x]) && !(x == bit >= startBlock))
    {
      if bit >= startBlock { blockMap[bit] := false; }
    }

    method GetFreeBlock() returns (r: int)
      requires Shaped()
      modifies blockMap
      ensures var b := FirstFree(old(blockMap[..]), startBlock, |disk.blocks|);
              if b == |disk.blocks| then r == ENOSPC && blockMap[..] == old(blockMap[..])
              else r == b && blockMap[..] == old(blockMap[..])[b := true]
    {
      var i := startBlock;
      while i < |disk.blocks|
        invariant startBlock <= i <= |disk.blocks| && blockMap[..] == old(blockMap[..])
        invariant FirstFree(blockMap[..], startBlock, |disk.blocks|) == FirstFree(blockMap[..], i, |disk.blocks|)
      {
        if !blockMap[i] {
          blockMap[i] := true;
          return i;
        }
        i := i + 1;
      }
      return ENOSPC;
    }

    method GetFreeInode() returns (r: int)
      requires Shaped()
      modifies inodeMap
      ensures var i := FirstFree(old(inodeMap[..]), 0, 64);
              if i == 64 then r == ENOSPC && inodeMap[..] == old(inodeMap[..])
              else r == i && inodeMap[..] == old(inodeMap[..])[i := true]
    {
      var i := 0;
      while i < 64
        invariant 0 <= i <= 64 && inodeMap[..] == old(inodeMap[..])
        invariant FirstFree(inodeMap[..], 0, 64) == FirstFree(inodeMap[..], i, 64)
      {
        if !inodeMap[i] {
          inodeMap[i] := true;
          return i;
        }
        i := i + 1;
      }
      return ENOSPC;
    }

    // ---- path walking ----

    /** The loop over the 32 slots of a directory block. */
    static method Search(b: Block, p: O.Probe) returns (s: nat)
      ensures s == O.Scan(b, p, 0)
    {
      hide Ent;
      s := 0;
      while s < 32
        invariant 0 <= s <= 32 && O.Scan(b, p, 0) == O.Scan(b, p, s)
      {
        if O.Hit(Ent(b, s), p) { return; }
        s := s + 1;
      }
    }

    method TranslatePathToInum(path: O.Path) returns (r: int)
      requires Shaped() && Walkable(St())
      ensures r == O.Resolve(St(), 1, path)
      ensures r >= 0 ==> r < inodes.Length && Live(St(), r)
    {
      hide Walkable, O.Scan, Ent;
      RootIsDir(St());
      var inum: nat := 1;
      var i := 0;
      while i < |path|
        invariant 0 <= i <= |path| && Live(St(), inum)
        invariant i < |path| ==> LiveDir(St(), inum)
        invariant O.Resolve(St(), 1, path) == O.Resolve(St(), inum, path[i..])
      {
        DirReadable(St(), inum);
        var block := ReadBlock(inodes[inum].direct[0]);
        var s := Search(block, O.Named(path[i]));
        if s == 32 { return O.ENOENT; }
        var e := Ent(block, s);
        if i + 1 < |path| && !e.isDir { return O.ENOTDIR; }
        EntryLive(St(), inum, s);
        assert path[i..][1..] == path[i + 1..];
        inum := e.inode;
        i := i + 1;
      }
      return inum;
    }

    method GetParentInum(path: O.Path) returns (r: int)
      requires Shaped() && Walkable(St())
      ensures r == O.ParentOf(St(), 1, path)
      ensures r >= 0 ==> LiveDir(St(), r)
    {
      hide Walkable, O.Scan, Ent;
      if path == [] { return O.EINVAL; }
      RootIsDir(St());
      var inum: nat := 1;
      var i := 0;
      while i + 1 < |path|
        invariant 0 <= i < |path| && LiveDir(St(), inum)
        invariant O.ParentOf(St(), 1, path) == O.ParentOf(St(), inum, path[i..])
      {
        DirReadable(St(), inum);
        var block := ReadBlock(inodes[inum].direct[0]);
        var s := Search(block, O.Named(path[i]));
        if s == 32 { return O.ENOENT; }
        var e := Ent(block, s);
        if !e.isDir { return O.ENOTDIR; }
        EntryLive(St(), inum, s);
        assert path[i..][1..] == path[i + 1..];
        inum := e.inode;
        i := i + 1;
      }
      return inum;
    }
  
    // ---- fs_mknod and fs_mkdir ----

    /** fs_mknod, and fs_mkdir when isDir. */
    method Mknod(path: O.Path, isDir: bool) returns (rc: int)
      requires Valid() && path != [] && NameOk(O.Last(path))
      modifies this`disk, this`log, inodeMap, blockMap, inodes
      ensures Valid() && O.Roomy(old(St()))
      ensures var r := O.Mknod(old(St()), path, isDir); St() == r.st && rc == r.rc
      ensures MknodSpec(TreeOf(old(St())), path, isDir, rc, TreeOf(St()))
      ensures rc == 0 ==> log == old(log) + MknodWrites(old(St()), path, isDir)
    {
      hide Inv, O.Mknod, TreeOf, MknodSpec, MknodWrites, NameOk, Replay;
      InvRoomy(St());
      MknodKeeps(St(), path, isDir);
      rc := MakeNode(path, isDir);
    }

    method MakeNode(path: O.Path, isDir: bool) returns (rc: int)
      requires Valid() && path != [] && NameOk(O.Last(path))
      modifies this`disk, this`log, inodeMap, blockMap, inodes
      ensures Shaped() && Synced() && O.Roomy(old(St()))
      ensures var r := O.Mknod(old(St()), path, isDir); St() == r.st && rc == r.rc
      ensures rc == 0 ==> log == old(log) + MknodWrites(old(St()), path, isDir)
    {
      hide Inv, Walkable, O.Scan, Ent, O.Resolve, O.ParentOf, O.Create, CreateWrites, FirstFree, O.DirBlock, Replay, NameOk,
        MknodWrites, O.Mknod, Ptr;
      ghost var st := St();
      InvRoomy(st);
      InvWalkable(st);
      var child := TranslatePathToInum(path);
      var parent := GetParentInum(path);
      ParentCode(st, path);
      MknodIs(st, path, isDir);
      if parent == O.ENOTDIR || parent == O.ENOENT { return parent; }
      if !inodes[parent].isDir { return O.ENOTDIR; }
      if child > 0 { return O.EEXIST; }
      DirReadable(st, parent);
      var newInum := GetFreeInode();
      if newInum == ENOSPC { return ENOSPC; }
      rc := FillSlot(st, parent, newInum, O.Last(path), isDir);
    }

    /** The rest of fs_mknod: find an unused slot in the parent's block. */
    method FillSlot(ghost st: Store, parent: nat, newInum: nat, n: Name, isDir: bool) returns (rc: int)
      requires Shaped() && O.Roomy(st) && LiveDir(st, parent) && newInum < 64 && NameOk(n)
      requires Took(st, newInum) && st.inodes[parent].direct[0] < |st.blocks|
      modifies this`disk, this`log, inodeMap, blockMap, inodes
      ensures Shaped() && Synced()
      ensures var s, b := O.Scan(O.DirBlock(st, parent), O.Unused, 0), FirstFree(st.blockMap, st.start, |st.blocks|);
              if s == 32 || (isDir && b == |st.blocks|) then rc == ENOSPC && St() == st
              else && rc == 0 && St() == O.Create(st, parent, s, newInum, b, n, isDir)
                   && log == old(log) + CreateWrites(st, parent, s, newInum, b, n, isDir)
    {
      hide O.Scan, Ent, O.Create, CreateWrites, FirstFree, Replay, NameOk;
      var block := ReadBlock(inodes[parent].direct[0]);
      var i := Search(block, O.Unused);
      if i == 32 {
        UndoInode(st, newInum);
        return ENOSPC;
      }
      rc := AddEntry(st, parent, newInum, i, block, n, isDir);
    }

    /** The store is st but for the inode just taken, which the disk does not show. */
    ghost predicate Took(st: Store, newInum: nat)
      reads this, inodeMap, blockMap, inodes
    {
      && newInum < |st.inodeMap| == inodeMap.Length && !st.inodeMap[newInum]
      && St() == st.(inodeMap := st.inodeMap[newInum := true])
      && disk.inodeMap == st.inodeMap && disk.blockMap == st.blockMap && disk.inodes == st.inodes
      && StartBlock(disk.super) == startBlock
    }

    /** The error path: give the inode back. */
    method UndoInode(ghost st: Store, newInum: nat)
      requires Shaped() && Took(st, newInum)
      modifies this`disk, this`log, inodeMap
      ensures Shaped() && Synced() && St() == st
    {
      hide Replay;
      inodeMap[newInum] := false;
      WriteInodeMap();
      Undo(st.inodeMap, newInum);
      assert inodeMap[..] == st.inodeMap;
    }

    /** The body of fs_mknod once slot i of the parent is found unused. */
    method AddEntry(ghost st: Store, parent: nat, newInum: nat, i: nat, block: Block, n: Name, isDir: bool) returns (rc: int)
      requires Shaped() && O.Roomy(st) && LiveDir(st, parent) && newInum < 64 && i < 32 && NameOk(n)
      requires Took(st, newInum)
      requires st.inodes[parent].direct[0] < |st.blocks| && block == O.DirBlock(st, parent)
      modifies this`disk, this`log, inodeMap, blockMap, inodes
      ensures Shaped() && Synced()
      ensures var b := FirstFree(st.blockMap, st.start, |st.blocks|);
              if isDir && b == |st.blocks| then rc == ENOSPC && St() == st
              else && rc == 0 && St() == O.Create(st, parent, i, newInum, b, n, isDir)
                   && log == old(log) + CreateWrites(st, parent, i, newInum, b, n, isDir)
    {
      hide PutEnt, O.Create, FirstFree, Replay, O.DirBlock, NameOk;
      ShortName(n);
      var p := inodes[parent].direct[0];
      var newInode := Inode(isDir, 0, [0, 0, 0, 0, 0, 0], 0, 0);
      ghost var b := FirstFree(st.blockMap, st.start, |st.blocks|);
      if isDir {
        var blockNum := GetFreeBlock();
        if blockNum == ENOSPC {
          UndoInode(st, newInum);
          return ENOSPC;
        }
        newInode := newInode.(direct := [blockNum, 0, 0, 0, 0, 0]);
        WriteBlockMap();
        WriteBlock(blockNum, ZeroBlock);
      }
      WriteInodeMap();
      inodes[newInum] := newInode;
      WriteAllInodes();
      WriteBlock(p, PutEnt(block, i, Dirent(true, isDir, newInum, n)));
      CreateFields(st, parent, i, newInum, b, n, isDir);
      return 0;
    }

    // ---- fs_truncate ----

    /** Free what an index block lists, up to the first null entry. */
    method FreeEntries(b: Block)
      requires Shaped() && forall k :: 0 <= k < 256 ==> Ptr(b, k) < blockMap.Length
      modifies blockMap
      ensures blockMap[..] == O.FreeRun(old(blockMap[..]), startBlock, b, 0)
    {
      hide Ptr, Replay;
      var k := 0;
      while k < 256
        invariant 0 <= k <= 256
        invariant O.FreeRun(old(blockMap[..]), startBlock, b, 0) == O.FreeRun(blockMap[..], startBlock, b, k)
      {
        if Ptr(b, k) == 0 { return; }
        FreeABlock(Ptr(b, k));
        k := k + 1;
      }
    }

    /** The same through the double-indirect block. */
    method FreeSecondLevel(b: Block)
      requires Shaped() && |disk.blocks| <= blockMap.Length
      requires forall k :: 0 <= k < 256 ==> Ptr(b, k) < |disk.blocks|
      requires forall k, j :: 0 <= k < 256 && 0 <= j < 256 && Ptr(b, k) != 0 ==>
                 Ptr(BlockAt(disk.blocks, Ptr(b, k)), j) < blockMap.Length
      modifies blockMap
      ensures blockMap[..] == O.FreeOuter(old(blockMap[..]), startBlock, disk.blocks, b, 0)
    {
      hide Ptr, Replay, O.FreeRun;
      var k := 0;
      while k < 256
        invariant 0 <= k <= 256
        invariant O.FreeOuter(old(blockMap[..]), startBlock, disk.blocks, b, 0) ==
                  O.FreeOuter(blockMap[..], startBlock, disk.blocks, b, k)
      {
        var p := Ptr(b, k);
        if p == 0 || p < startBlock { return; }
        var inner := ReadBlock(p);
        assert inner == BlockAt(disk.blocks, p);
        FreeEntries(inner);
        FreeABlock(p);
        k := k + 1;
      }
    }

    method Truncate(path: O.Path, len: int) returns (rc: int)
      requires Valid()
      modifies this`disk, this`log, blockMap, inodes
      ensures Shaped() && Synced()
      ensures var r := O.Truncate(old(St()), path, len); St() == r.st && rc == r.rc
      ensures TruncateSpec(TreeOf(old(St())), path, len, rc, TreeOf(St()))
      ensures TruncateOk(old(St()), path, len) ==> Valid()
      ensures rc >= 0 ==> log == old(log) + TruncateWrites(St())
    {
      hide Inv, TreeOf, Walkable, Replay, O.Resolve, O.TruncFile, TruncateOk, TruncateSpec;
      TruncateKeeps(St(), path, len);
      if len != 0 { return O.EINVAL; }
      InvWalkable(St());
      var inum := TranslatePathToInum(path);
      if inum < 0 { return inum; }
      if inodes[inum].isDir { return O.EISDIR; }
      TruncateInode(inum);
      return 0;
    }

    method TruncateInode(inum: nat)
      requires Valid() && inum < inodes.Length && Live(St(), inum)
      modifies this`disk, this`log, blockMap, inodes
      ensures Shaped() && Synced() && St() == O.TruncFile(old(St()), inum)
      ensures log == old(log) + TruncateWrites(St())
    {
      ghost var st := St();
      TruncReadable(st, inum);
      hide Inv, Replay, O.TruncBits, O.ClearDirect, BlocksKnown;
      var inode := inodes[inum];
      var direct := ClearDirectPointers(inode);
      FreeIndirect(inode);
      WriteBlockMap();
      inodes[inum] := inode.(size := 0, direct := direct);
      WriteAllInodes();
    }

    /** Each direct pointer is zeroed before it is handed to free_a_block,
        which therefore sees block 0 and does nothing. */
    method ClearDirectPointers(inode: Inode) returns (direct: seq<nat>)
      requires Shaped() && 0 < startBlock
      modifies blockMap
      ensures blockMap[..] == old(blockMap[..]) && direct == O.ClearDirect(inode.direct, 0) && |direct| == 6
    {
      direct := inode.direct;
      var i := 0;
      while i < 6
        invariant 0 <= i <= 6 == |direct| && blockMap[..] == old(blockMap[..])
        invariant O.ClearDirect(inode.direct, 0) == O.ClearDirect(direct, i)
      {
        if direct[i] == 0 { break; }
        direct := direct[i := 0];
        FreeABlock(direct[i]);
        i := i + 1;
      }
    }

    method FreeIndirect(inode: Inode)
      requires Shaped() && 0 < startBlock && BlocksKnown(St(), inode)
      modifies blockMap
      ensures blockMap[..] == O.TruncBits(old(St()), inode)
    {
      hide Replay, Ptr, O.FreeRun, O.FreeOuter, BlockAt;
      if inode.indir1 >= startBlock {
        var b1 := ReadBlock(inode.indir1);
        assert b1 == BlockAt(disk.blocks, inode.indir1) by { BlockIs(disk.blocks, inode.indir1); }
        FreeEntries(b1);
      }
      if inode.indir2 >= startBlock {
        var b2 := ReadBlock(inode.indir2);
        assert b2 == BlockAt(disk.blocks, inode.indir2) by { BlockIs(disk.blocks, inode.indir2); }
        FreeSecondLevel(b2);
      }
    }

    // ---- fs_unlink ----

    method Unlink(path: O.Path) returns (rc: int)
      requires Valid()
      modifies this`disk, this`log, inodeMap, blockMap, inodes
      ensures Valid() && O.Roomy(old(St()))
      ensures var r := O.Unlink(old(St()), path); St() == r.st && rc == r.rc
      ensures UnlinkSpec(TreeOf(old(St())), path, rc, TreeOf(St()))
      ensures rc == 0 ==> log == old(log) + UnlinkWrites(old(St()), path)
    {
      hide Inv, TreeOf, Walkable, Replay, O.Unlink, O.Truncate, O.ParentOf, UnlinkSpec, TruncateSpec, TruncateOk, TruncateWrites;
      ghost var st := St();
      InvRoomy(st);
      UnlinkKeeps(st, path);
      rc := Truncate(path, 0);
      UnlinkStart(st, path);
      if rc < 0 { return; }
      ghost var t, p := St(), ParentBlock(St(), path);
      var parent := GetParentInum(path);
      rc := RemoveFileEntry(path, parent);
      UnlinkWritesAre(st, path, t, p, St());
      LogTwice(old(log), TruncateWrites(t), [ToBlock(p, BlockAt(St().blocks, p)), ToInodes(St().inodes),
          ToInodeMap(St().inodeMap)]);
    }

    /** The second half of fs_unlink: the entry and the inode. */
    method RemoveFileEntry(path: O.Path, parent: int) returns (rc: int)
      requires Shaped() && Synced() && Walkable(St()) && path != []
      requires 0 <= parent == O.ParentOf(St(), 1, path) && LiveDir(St(), parent)
      modifies this`disk, this`log, inodeMap, inodes
      ensures Shaped() && Synced()
      ensures var r := O.UnlinkEntry(old(St()), path); St() == r.st && rc == r.rc
      ensures var p := ParentBlock(old(St()), path);
              rc == 0 ==> log == old(log) + [ToBlock(p, BlockAt(St().blocks, p)), ToInodes(St().inodes), ToInodeMap(St().inodeMap)]
    {
      hide Walkable, Replay, Ent, O.Scan, O.ParentOf, Invalidate;
      DirReadable(St(), parent);
      var p := inodes[parent].direct[0];
      var block := ReadBlock(p);
      var s := Search(block, O.Named(O.Last(path)));
      if s == 32 { return O.ENOENT; }
      var e := Ent(block, s);
      if e.isDir { return O.EISDIR; }
      EntryLive(St(), parent, s);
      inodeMap[e.inode] := false;
      inodes[e.inode] := inodes[e.inode].(size := 0);
      WriteBlock(p, Invalidate(block, s));
      WriteAllInodes();
      WriteInodeMap();
      return 0;
    }

    // ---- fs_rmdir ----

    method Rmdir(path: O.Path) returns (rc: int)
      requires Valid() && path != []
      modifies this`disk, this`log, inodeMap, blockMap, inodes
      ensures Valid() && O.Roomy(old(St()))
      ensures var r := O.Rmdir(old(St()), path); St() == r.st && rc == r.rc
      ensures RmdirSpec(TreeOf(old(St())), path, rc, TreeOf(St()))
      ensures rc == 0 ==> log == old(log) + RmdirWrites(old(St()), path)
    {
      hide Inv, TreeOf, Walkable, Replay, O.Rmdir, RmdirSpec, RmdirWrites;
      InvRoomy(St());
      RmdirKeeps(St(), path);
      rc := RemoveDirectory(path);
    }

    method RemoveDirectory(path: O.Path) returns (rc: int)
      requires Valid() && path != []
      modifies this`disk, this`log, inodeMap, blockMap, inodes
      ensures Shaped() && Synced()
      ensures var r := O.Rmdir(old(St()), path); St() == r.st && rc == r.rc
      ensures rc == 0 ==> log == old(log) + RmdirWrites(old(St()), path)
    {
      hide Inv, Walkable, Replay, Ent, O.Scan, O.ParentOf, O.Resolve, O.Rmdir, Dropped, O.DirBlock, Ptr;
      InvWalkable(St());
      RmdirCases(St(), path);
      var child := TranslatePathToInum(path);
      var parent := GetParentInum(path);
      ParentOfResolved(St(), path);
      if child < 0 { return child; }
      if !inodes[child].isDir { return O.ENOTDIR; }
      DirReadable(St(), child);
      var block := ReadBlock(inodes[child].direct[0]);
      var u := Search(block, O.Used);
      if u < 32 { return O.ENOTEMPTY; }
      DirReadable(St(), parent);
      ghost var st := St();
      DropDirectory(child, inodes[parent].direct[0]);
      RmdirDropped(st, path, child, parent, St());
      return 0;
    }

    /** st without directory c, whose entry is in block p. */
    static ghost predicate Dropped(st: Store, c: nat, p: nat, st': Store)
      requires c < |st.inodes| && c < |st.inodeMap| && p < |st.blocks|
    {
      var s := O.Scan(st.blocks[p], O.OfInode(c), 0);
      && st'.start == st.start && st'.inodes == st.inodes[c := NoInode]
      && st'.blockMap == O.FreeBit(st.blockMap, st.start, st.inodes[c].direct[0])
      && st'.inodeMap == (if s < 32 then st.inodeMap[c := false] else st.inodeMap)
      && st'.blocks == st.blocks[p := if s < 32 then ClearEnt(st.blocks[p], s) else st.blocks[p]]
    }

    /** fs_rmdir once the directory is known to be empty. */
    method DropDirectory(child: nat, p: nat)
      requires Shaped() && Synced() && child < inodes.Length && p < |disk.blocks|
      requires inodes[child].direct[0] < blockMap.Length
      modifies this`disk, this`log, inodeMap, blockMap, inodes
      ensures Shaped() && Synced() && Dropped(old(St()), child, p, St())
      ensures O.Scan(old(disk.blocks[p]), O.OfInode(child), 0) < 32 ==>
                log == old(log) + [ToBlockMap(St().blockMap), ToInodeMap(St().inodeMap),
                                   ToBlock(p, BlockAt(St().blocks, p)), ToInodes(St().inodes)]
    {
      hide Replay, Ent, O.Scan, ClearEnt, O.FreeBit;
      FreeABlock(inodes[child].direct[0]);
      WriteBlockMap();
      inodes[child] := NoInode;
      ClearSlot(child, p);
      WriteAllInodes();
    }

    method ClearSlot(child: nat, p: nat)
      requires Shaped() && child < inodeMap.Length && p < |disk.blocks| && disk.inodeMap == inodeMap[..]
      modifies this`disk, this`log, inodeMap
      ensures var s, b := O.Scan(old(disk.blocks[p]), O.OfInode(child), 0), old(disk.blocks[p]);
              && Shaped() && disk == old(disk).(inodeMap := inodeMap[..],
                                                blocks := old(disk.blocks)[p := if s < 32 then ClearEnt(b, s) else b])
              && inodeMap[..] == (if s < 32 then old(inodeMap[..])[child := false] else old(inodeMap[..]))
              && (s < 32 ==> log == old(log) + [ToInodeMap(inodeMap[..]), ToBlock(p, disk.blocks[p])])
    {
      hide Replay, Ent, O.Scan, ClearEnt;
      var block := ReadBlock(p);
      var s := Search(block, O.OfInode(child));
      if s < 32 {
        block := ClearEnt(block, s);
        inodeMap[child] := false;
        WriteInodeMap();
      }
      WriteBlock(p, block);
    }

    // ---- fs_rename ----

    method Rename(src: O.Path, dst: O.Path) returns (rc: int)
      requires Valid() && src != [] && dst != [] && NameOk(O.Last(dst))
      modifies this`disk, this`log, inodes
      ensures Shaped() && Synced()
      ensures var r := O.Rename(old(St()), src, dst); St() == r.st && rc == r.rc
      ensures |O.Last(dst)| >= |O.Last(src)| ==>
                Valid() && RenameSpec(TreeOf(old(St())), src, dst, rc, TreeOf(St()))
      ensures rc == 0 ==> log == old(log) + RenameWrites(old(St()), src, dst)
    {
      hide Inv, TreeOf, Replay, O.Rename, RenameSpec, NameOk, Walkable, RenameWrites;
      InvWalkable(St());
      if |O.Last(dst)| >= |O.Last(src)| { RenameKeeps(St(), src, dst); }
      rc := RenameEntry(src, dst);
    }

    method RenameEntry(src: O.Path, dst: O.Path) returns (rc: int)
      requires Valid() && Walkable(St()) && src != [] && dst != [] && NameOk(O.Last(dst))
      modifies this`disk, this`log, inodes
      ensures Shaped() && Synced()
      ensures var r := O.Rename(old(St()), src, dst); St() == r.st && rc == r.rc
      ensures rc == 0 ==> log == old(log) + RenameWrites(old(St()), src, dst)
    {
      ghost var st := St();
      hide Inv, Walkable, Replay, Ent, O.Scan, O.ParentOf, O.Resolve, O.Rename, NameOk, O.DirBlock, RenameEnt;
      var prev := GetParentInum(src);
      var curr := TranslatePathToInum(src);
      var next := GetParentInum(dst);
      ParentOfResolved(st, src);
      RenameIs(st, src, dst);
      if curr < 0 { return curr; }
      if prev != next { return O.EINVAL; }
      DirReadable(st, prev);
      var p := inodes[prev].direct[0];
      var block := ReadBlock(p);
      var clash := Search(block, O.AnyNamed(O.Last(dst)));
      if clash < 32 { return O.EEXIST; }
      rc := MoveEntry(curr, p, block, O.Last(dst));
    }

    method MoveEntry(curr: nat, p: nat, block: Block, n: Name) returns (rc: int)
      requires Shaped() && Synced() && p < |disk.blocks| && block == disk.blocks[p] && curr < inodes.Length && NameOk(n)
      modifies this`disk, this`log, inodes
      ensures Shaped() && Synced() && rc == 0
      ensures var s := O.Scan(block, O.OfInode(curr), 0);
              St() == if s == 32 then old(St()) else old(St()).(blocks := old(disk.blocks)[p := RenameEnt(block, s, n)])
      ensures O.Scan(block, O.OfInode(curr), 0) < 32 ==>
                log == old(log) + [ToInodes(St().inodes), ToBlock(p, BlockAt(St().blocks, p))]
    {
      hide Replay, Ent, O.Scan, RenameEnt;
      ghost var st := St();
      var s := Search(block, O.OfInode(curr));
      var block' := block;
      if s < 32 {
        block' := RenameEnt(block, s, n);
        inodes[curr] := inodes[curr];
        assert inodes[..] == st.inodes;
        WriteAllInodes();
      } else {
        assert disk.blocks[p := block] == disk.blocks;
      }
      WriteBlock(p, block');
      return 0;
    }

    // ---- fs_write ----

    /** What the loops of fs_write rely on and keep. */
    ghost predicate Writing(inum: nat)
      reads this, inodeMap, blockMap, inodes
    {
      Shaped() && Synced() && Sound(St()) && inum < inodes.Length && Live(St(), inum)
    }

    /** get_free_block followed by write_block_map. */
    method TakeBlock() returns (r: int)
      requires Shaped()
      modifies this`disk, this`log, blockMap
      ensures Shaped() && (old(Synced()) ==> Synced()) && Sized(old(St()))
      ensures var st, b := old(St()), FirstFree(old(St()).blockMap, old(St()).start, |old(St()).blocks|);
              if b == |st.blocks| then r == ENOSPC && St() == st && log == old(log)
              else r == b && St() == st.(blockMap := st.blockMap[b := true]) && log == old(log) + [ToBlockMap(St().blockMap)]
    {
      hide Replay, FirstFree;
      r := GetFreeBlock();
      if r != ENOSPC { WriteBlockMap(); }
    }

    method GetInode(inum: nat) returns (n: Inode)
      requires inum < |St().inodes|
      ensures n == St().inodes[inum]
    {
      n := inodes[inum];
    }

    method PutInode(inum: nat, n: Inode)
      requires Shaped() && inum < |St().inodes|
      modifies this`disk, this`log, inodes
      ensures Shaped() && (old(Synced()) ==> Synced()) && St() == old(St()).(inodes := old(St()).inodes[inum := n])
      ensures log == old(log) + [ToInodes(St().inodes)]
    {
      hide Replay;
      inodes[inum] := n;
      WriteAllInodes();
    }

    method GetBlock(p: nat) returns (b: Block)
      requires p < |St().blocks|
      ensures b == St().blocks[p]
    {
      b := ReadBlock(p);
    }

    /** Data written over a bitmap or inode block; what the region then decodes to
        is left open. */
    method OverwriteMetadata(p: nat)
      requires Shaped()
      modifies this`disk, this`log
      ensures Shaped() && St() == old(St())
    {
      var m: seq<bool>, b: seq<bool>, t: seq<Inode> := *, *, *;
      var w := OverMetadata(p, m, b, t);
      ReplayOne(base, log, w);
      disk := Apply(disk, w);
      log := log + [w];
    }

    method PutBlock(p: nat, b: Block)
      requires Shaped() && p < |St().blocks|
      modifies this`disk, this`log
      ensures Shaped() && (old(Synced()) ==> Synced()) && St() == old(St()).(blocks := old(St()).blocks[p := b])
      ensures log == old(log) + [ToBlock(p, b)]
    {
      hide Replay;
      WriteBlock(p, b);
    }

    /** One iteration of the direct loop. */
    method StoreDirect(inum: nat, l: nat, off: nat, data: seq<byte>) returns (full: bool, tb: nat, k: nat)
      requires Writing(inum) && l < 6
      modifies this`disk, this`log, blockMap, inodes
      ensures Shaped() && Synced() && Sized(old(St()))
      ensures var s := WriteStep(old(St()), inum, l, off, data);
              if full then s == Stop(St()) else s == Wrote(St(), tb, k)
      ensures log == old(log) + DirectWrites(old(St()), inum, l, off, data)
    {
      hide St, Shaped, Synced, Sound, WriteStep, FirstFree, Splice, T;
      ghost var st := St();
      SoundSized(st);
      DirectOnDisk(st, inum, l);
      DirectStepIs(st, inum, l, off, data);
      full := false;
      var inode := GetInode(inum);
      var block;
      if inode.direct[l] == 0 {
        var r := TakeBlock();
        if r == ENOSPC { return true, 0, 0; }
        block := ZeroBlock;
        inode := inode.(direct := inode.direct[l := r]);
        tb := 0;
      } else {
        block := GetBlock(inode.direct[l]);
        inode := inode.(direct := inode.direct[l := inode.direct[l]]);
        tb := off % 1024;
      }
      k := Min(1024 - tb, |data|);
      block := Splice(block, tb, data[..k]);
      inode := inode.(size := inode.size + k);
      PutInode(inum, inode);
      PutBlock(inode.direct[l], block);
    }

    /** The direct loop; unfinished data goes on at logical block 6. */
    method DirectTier(inum: nat, l0: nat, off0: nat, data0: seq<byte>, done0: nat)
      returns (finished: bool, rc: int, data: seq<byte>, done: nat)
      requires Writing(inum) && l0 < 6 && Sized(St())
      modifies this`disk, this`log, blockMap, inodes
      ensures Writing(inum) && Sized(St()) && Sized(old(St()))
      ensures LoopsFrom(old(St()), inum, l0, off0, data0, done0) ==
              if finished then Ended(St(), rc, false) else LoopsFrom(St(), inum, 6, 0, data, done)
      ensures old(log) + LoopWrites(old(St()), inum, l0, off0, data0) ==
              log + if finished then [] else LoopWrites(St(), inum, 6, 0, data)
    {
      hide Replay, Sound, WriteStep, LoopsFrom, LoopWrites, DirectWrites;
      finished, rc, data, done := false, 0, data0, done0;
      var l, off := l0, off0;
      while l < 6
        invariant l0 <= l <= 6 && Writing(inum) && Sized(St())
        invariant l == 6 ==> off == 0
        invariant LoopsFrom(old(St()), inum, l0, off0, data0, done0) == LoopsFrom(St(), inum, l, off, data, done)
        invariant old(log) + LoopWrites(old(St()), inum, l0, off0, data0) == log + LoopWrites(St(), inum, l, off, data)
      {
        LowStep(St(), inum, l, off, data, done);
        LowTurn(St(), inum, l, off, data);
        ThreeParts(log, DirectWrites(St(), inum, l, off, data), RestWrites(St(), inum, l, off, data));
        var full, tb, k := StoreDirect(inum, l, off, data);
        if full { return true, ENOSPC, data, done; }
        if k == |data| { return true, done + k, data, done; }
        off := if l + 1 == 6 || tb == 0 then 0 else off;
        data, done, l := data[k..], done + k, l + 1;
      }
    }

    /** One iteration of the single-indirect loop: index is the buffer that holds
        block q. */
    method StoreIndexed(inum: nat, l: nat, ghost parent: Loc, e: nat, q: nat, index0: Block, off: nat, data: seq<byte>)
      returns (full: bool, index: Block, tb: nat, k: nat)
      requires Writing(inum) && Through(St(), inum, l, parent, e, q) && e < 256 && index0 == St().blocks[q]
      modifies this`disk, this`log, blockMap, inodes
      ensures Shaped() && Synced() && Sized(old(St()))
      ensures var s := WriteStep(old(St()), inum, l, off, data);
              if full then s == Stop(St()) else s == Wrote(St(), tb, k)
      ensures q < |St().blocks| && (!full ==> index == St().blocks[q])
      ensures log == old(log) + IndexedWrites(old(St()), inum, l, e, q, off, data)
    {
      hide St, Shaped, Synced, Sound, WriteStep, FirstFree, Splice, T, Ptr, SetPtr, Through, IndexedWrites;
      ghost var st := St();
      SoundSized(st);
      ThroughRange(st, inum, l, parent, e, q);
      IndexedStepIs(st, inum, l, parent, e, q, off, data);
      IndexedWritesAre(st, inum, l, parent, e, q, off, data);
      full, index := false, index0;
      var p, block;
      if Ptr(index, e) == 0 {
        var r := TakeBlock();
        if r == ENOSPC { return true, index, 0, 0; }
        block := ZeroBlock;
        index := SetPtr(index, e, r);
        p, tb := r, 0;
      } else {
        p := Ptr(index, e);
        block := GetBlock(p);
        tb := off % 1024;
      }
      k := Min(1024 - tb, |data|);
      block := Splice(block, tb, data[..k]);
      var inode := GetInode(inum);
      PutInode(inum, inode.(size := inode.size + k));
      PutBlock(q, index);
      PutBlock(p, block);
    }

    /** A missing indir_1 or indir_2 is taken and zeroed. */
    method NeedIndirect(inum: nat, loc: Loc) returns (full: bool)
      requires Writing(inum) && loc in {Ind1, Ind2}
      modifies this`disk, this`log, blockMap, inodes
      ensures Shaped() && Synced() && Sized(old(St()))
      ensures Grow(old(St()), inum, loc) == if full then Full(St()) else Ok(St())
      ensures log == old(log) + NeedWrites(old(St()), inum, loc)
    {
      hide St, Shaped, Synced, Sound, Grow, FirstFree;
      ghost var st := St();
      SoundSized(st);
      GrowFull(st, inum, loc);
      full := false;
      var inode := GetInode(inum);
      if (if loc.Ind1? then inode.indir1 else inode.indir2) == 0 {
        GrowIndirect(st, inum, loc);
        var r := TakeBlock();
        if r == ENOSPC { return true; }
        PutInode(inum, if loc.Ind1? then inode.(indir1 := r) else inode.(indir2 := r));
        PutBlock(r, ZeroBlock);
      }
    }

    /** The single-indirect loop; unfinished data goes on at logical block 262. */
    method IndirectTier(inum: nat, l0: nat, off0: nat, data0: seq<byte>, done0: nat)
      returns (finished: bool, rc: int, data: seq<byte>, done: nat)
      requires Writing(inum) && 6 <= l0 < 262 && Sized(St())
      modifies this`disk, this`log, blockMap, inodes
      ensures Writing(inum) && Sized(St()) && Sized(old(St()))
      ensures LoopsFrom(old(St()), inum, l0, off0, data0, done0) ==
              if finished then Ended(St(), rc, false) else LoopsFrom(St(), inum, 262, 0, data, done)
      ensures old(log) + LoopWrites(old(St()), inum, l0, off0, data0) ==
              log + if finished then [] else LoopWrites(St(), inum, 262, 0, data)
    {
      hide St, Shaped, Synced, Sound, WriteStep, LoopsFrom, Grow, Target, LoopWrites, NeedWrites, IndexedWrites;
      finished, rc, data, done := false, 0, data0, done0;
      LowIndex(St(), inum, l0, off0, data0, done0);
      IndexFirst(St(), inum, l0, off0, data0);
      var none := NeedIndirect(inum, Ind1);
      if none { return true, ENOSPC, data, done; }
      assert Writing(inum);
      SoundSized(St());
      InUse(St(), inum, Ind1);
      var inode := GetInode(inum);
      InodePointers(St(), inum);
      var q := inode.indir1;
      var index := GetBlock(q);
      var l, off := l0, off0;
      while l < 262
        invariant l0 <= l <= 262 && Writing(inum) && Sized(St()) && q < |St().blocks|
        invariant l == 262 ==> off == 0
        invariant T(St(), inum, Ind1) == q && q != 0 && index == St().blocks[q]
        invariant LoopsFrom(old(St()), inum, l0, off0, data0, done0) == LoopsFrom(St(), inum, l, off, data, done)
        invariant old(log) + LoopWrites(old(St()), inum, l0, off0, data0) == log + LoopWrites(St(), inum, l, off, data)
      {
        ghost var st := St();
        LowStep(st, inum, l, off, data, done);
        IndexedTurn(st, inum, l, off, data);
        InodePointers(st, inum);
        ThreeParts(log, IndexedWrites(st, inum, l, l - 6, q, off, data), RestWrites(st, inum, l, off, data));
        var full, tb, k;
        full, index, tb, k := StoreIndexed(inum, l, Ind1, l - 6, q, index, off, data);
        if full { return true, ENOSPC, data, done; }
        if k == |data| { return true, done + k, data, done; }
        StepKeepsCell(st, inum, l, off, data, Ind1);
        off := if l + 1 == 262 || tb == 0 then 0 else off;
        data, done, l := data[k..], done + k, l + 1;
      }
    }

    /** What a loop of fs_write leaves: the store of r, and memory equal to disk
        unless a bitmap or inode block was written over. */
    ghost predicate Left(r: Loop)
      reads this, inodeMap, blockMap, inodes
    {
      Shaped() && St() == r.st && (!r.torn ==> Synced())
    }

    /** One iteration of the inner double-indirect loop: data block first, then
        the index block b from its buffer. */
    method StoreEntry(inum: nat, b: nat, index0: Block, e: nat, off: nat, data: seq<byte>)
      returns (full: bool, stopped: bool, index: Block, k: nat, over: bool)
      requires Shaped() && Sized(St()) && inum < |St().inodes| && b < |St().blocks| && e < 256
      modifies this`disk, this`log, blockMap, inodes
      ensures Sized(St()) && Sized(old(St()))
      ensures FillOne(old(St()), inum, b, index0, e, off, data) ==
              if full then NoSpace else if stopped then OffDisk else Entry(St(), index, k, over)
      ensures full || stopped ==> St() == old(St()) && !over
      ensures Shaped() && (old(Synced()) && !over ==> Synced())
      ensures !over ==> log == old(log) + EntryWrites(old(St()), inum, b, index0, e, off, data)
    {
      hide St, Shaped, Synced, FirstFree, Splice, Ptr, SetPtr;
      full, stopped, index, over := false, false, index0, false;
      var p, tb, block := 0, 0, ZeroBlock;
      var isNew := Ptr(index, e) == 0;
      if isNew {
        var f := TakeBlock();
        if f == ENOSPC { return true, false, index, 0, false; }
        index := SetPtr(index, e, f);
        p := f;
      } else {
        p := Ptr(index, e);
        var total := CountBlocks();
        if p >= total { return false, true, index, 0, false; }
        block := GetBlock(p);
        tb := off % 1024;
      }
      k := Min(1024 - tb, |data|);
      block := Splice(block, tb, data[..k]);
      over := PutEntry(inum, b, index, p, block, k);
    }

    /** The writes of one iteration: inode table, data block, index block. */
    method PutEntry(inum: nat, b: nat, index: Block, p: nat, block: Block, k: nat) returns (over: bool)
      requires Shaped() && inum < |St().inodes| && b < |St().blocks| && p < |St().blocks|
      modifies this`disk, this`log, inodes
      ensures Shaped() && (old(Synced()) && !over ==> Synced()) && over == (p < old(St()).start)
      ensures var st := old(St());
              var n := st.inodes[inum];
              St() == st.(inodes := st.inodes[inum := n.(size := n.size + k)],
                          blocks := (if st.start <= p then st.blocks[p := block] else st.blocks)[b := index])
      ensures !over ==> log == old(log) + [ToInodes(St().inodes), ToBlock(p, block), ToBlock(b, index)]
    {
      hide St, Shaped, Synced;
      var inode := GetInode(inum);
      PutInode(inum, inode.(size := inode.size + k));
      var start := FirstDataBlock();
      over := p < start;
      if over { OverwriteMetadata(p); } else { PutBlock(p, block); }
      PutBlock(b, index);
    }

    method CountBlocks() returns (n: nat)
      ensures n == |St().blocks|
    {
      n := |disk.blocks|;
    }

    method FirstDataBlock() returns (n: nat)
      ensures n == St().start
    {
      n := startBlock;
    }

    /** The inner loop: the entries of index block b from e0 on. */
    method SecondLevel(inum: nat, b: nat, e0: nat, off: nat, data0: seq<byte>, done0: nat, ghost torn0: bool)
      returns (r: LoopEnd, data: seq<byte>, done: nat, ghost torn: bool)
      requires Shaped() && (!torn0 ==> Synced()) && Sized(St()) && inum < |St().inodes| && b < |St().blocks| && e0 <= 256
      modifies this`disk, this`log, blockMap, inodes
      ensures Sized(old(St())) && old(b < |St().blocks|) && Shaped() && (!torn ==> Synced())
      ensures FillEntries(old(St()), inum, b, old(St()).blocks[b], e0, off, data0, done0, torn0) ==
              LoopOf(r, St(), data, done, torn)
      ensures torn0 ==> torn
      ensures !torn ==> log == old(log) + EntriesWrites(old(St()), inum, b, old(St()).blocks[b], e0, off, data0)
    {
      hide St, Shaped, Synced, FillOne, EntriesWrites, EntryWrites;
      var index := GetBlock(b);
      data, done, torn := data0, done0, torn0;
      var e := e0;
      while e < 256
        invariant e0 <= e <= 256 && Shaped() && (!torn ==> Synced()) && Sized(St())
        invariant inum < |St().inodes| && b < |St().blocks|
        invariant FillEntries(old(St()), inum, b, old(St()).blocks[b], e0, off, data0, done0, torn0) ==
                  FillEntries(St(), inum, b, index, e, off, data, done, torn)
        invariant torn0 ==> torn
        invariant !torn ==> old(log) + EntriesWrites(old(St()), inum, b, old(St()).blocks[b], e0, off, data0) ==
                              log + EntriesWrites(St(), inum, b, index, e, off, data)
      {
        ghost var st, c, log0 := St(), index, log;
        EntriesTurn(st, inum, b, c, e, off, data);
        var full, stopped, k, over;
        full, stopped, index, k, over := StoreEntry(inum, b, index, e, off, data);
        if full { return Finished(ENOSPC), data, done, torn; }
        if stopped { return Halted, data, done, torn; }
        torn := torn || over;
        if k == |data| { return Finished(done + k), data, done, torn; }
        ThreeParts(log0, EntryWrites(st, inum, b, c, e, off, data), EntriesWrites(St(), inum, b, index, e + 1, off, data[k..]));
        data, done, e := data[k..], done + k, e + 1;
      }
      LoopsOver(St(), inum, b, index, off, data, done, torn);
      EntriesOver(St(), inum, b, index, off, data);
      r := Unfinished;
    }

    /** A missing second-level block is taken; its zeroed copy in memory is
        replaced by a read of the block before it is ever written. */
    method NeedOuter(inum: nat, q: nat, outer0: Block, k: nat) returns (full: bool, outer: Block)
      requires Shaped() && Sized(St()) && inum < |St().inodes| && St().inodes[inum].indir2 == q < |St().blocks| < 0x20_0000
      requires k < 256
      modifies this`disk, this`log, blockMap
      ensures Shaped() && (old(Synced()) ==> Synced()) && Sized(old(St()))
      ensures var st, f := old(St()), FirstFree(old(St()).blockMap, old(St()).start, |old(St()).blocks|);
              && (full <==> Ptr(outer0, k) == 0 && f == |st.blocks|) && (full ==> St() == st)
              && (!full ==> if Ptr(outer0, k) != 0 then outer == outer0 && St() == st
                            else outer == SetPtr(outer0, k, f) && St() == TakeOuter(st, inum, outer0, k, f) && Ptr(outer, k) == f)
      ensures log == old(log) + if Ptr(outer0, k) != 0 || full then [] else [ToBlockMap(St().blockMap), ToBlock(q, outer)]
    {
      hide St, Shaped, Synced, FirstFree, Ptr, SetPtr;
      full, outer := false, outer0;
      if Ptr(outer, k) == 0 {
        NewEntry(St(), outer, k);
        var f := TakeBlock();
        if f == ENOSPC { return true, outer; }
        outer := SetPtr(outer, k, f);
        PutBlock(q, outer);
      }
    }

    /** One turn of the outer loop; outer is the buffer of double-indirect block q. */
    method OuterOnce(inum: nat, q: nat, outer0: Block, i: nat, j: nat, off: nat, data0: seq<byte>, done0: nat, ghost torn0: bool)
      returns (r: LoopEnd, outer: Block, data: seq<byte>, done: nat, ghost torn: bool)
      requires Shaped() && (!torn0 ==> Synced()) && Sized(St()) && inum < |St().inodes|
      requires St().inodes[inum].indir2 == q < |St().blocks| < 0x20_0000 && i < 256 && j < 256
      modifies this`disk, this`log, blockMap, inodes
      ensures Sized(old(St())) && old(inum < |St().inodes| && St().inodes[inum].indir2 == q < |St().blocks|)
      ensures Shaped() && (!torn ==> Synced()) && Sized(St()) && |St().inodes| == |old(St()).inodes|
      ensures St().inodes[inum].indir2 == q < |St().blocks| < 0x20_0000
      ensures var x := FillOuter(old(St()), inum, outer0, i, j, off, data0, done0, torn0);
              if r.Unfinished? then x == FillOuter(St(), inum, outer, i + 1, 0, off, data, done, torn)
              else Left(x) && EndOf(x) == r && x.torn == torn
      ensures torn0 ==> torn
      ensures !torn ==> old(log) + OuterWrites(old(St()), inum, outer0, i, j, off, data0) ==
                          log + if r.Unfinished? then OuterWrites(St(), inum, outer, i + 1, 0, off, data) else []
    {
      hide St, Shaped, Synced, FillOuter, FillEntries, SetPtr, Ptr, FirstFree, OuterWrites, EntriesWrites;
      OuterUnfolds(St(), inum, outer0, i, j, off, data0, done0, torn0);
      OuterTurn(St(), inum, outer0, i, j, off, data0, done0, torn0);
      data, done, torn := data0, done0, torn0;
      var none;
      none, outer := NeedOuter(inum, q, outer0, i);
      if none { return Finished(ENOSPC), outer, data, done, torn; }
      var b := Ptr(outer, i);
      var total := CountBlocks();
      if b >= total { return Halted, outer, data, done, torn; }
      ghost var l0, s0 := log, St();
      r, data, done, torn := SecondLevel(inum, b, j, off, data, done, torn);
      if !torn && r.Unfinished? {
        ThreeParts(l0, EntriesWrites(s0, inum, b, s0.blocks[b], j, off, data0),
                   OuterWrites(St(), inum, outer, i + 1, 0, off, data));
      }
    }

    /** The outer loop: the buffer of the double-indirect block is read once, and
        written whenever a second-level block is taken. */
    method OuterLoop(inum: nat, q: nat, i0: nat, j0: nat, off: nat, data0: seq<byte>, done0: nat)
      returns (r: LoopEnd)
      requires Shaped() && Synced() && Sized(St()) && inum < |St().inodes|
      requires St().inodes[inum].indir2 == q < |St().blocks| < 0x20_0000 && i0 <= 256 && j0 < 256
      modifies this`disk, this`log, blockMap, inodes
      ensures Sized(old(St())) && !r.Unfinished?
      ensures old(inum < |St().inodes| && St().inodes[inum].indir2 == q < |St().blocks|)
      ensures var x := FillOuter(old(St()), inum, old(St()).blocks[q], i0, j0, off, data0, done0, false);
              && Left(x) && EndOf(x) == r
              && (!x.torn ==> log == old(log) + OuterWrites(old(St()), inum, old(St()).blocks[q], i0, j0, off, data0))
    {
      hide St, Shaped, Synced, FillOuter, OuterWrites;
      var outer := GetBlock(q);
      ghost var torn := false;
      var i, j, data, done := i0, j0, data0, done0;
      while i < 256
        invariant i <= 256 && j < 256 && Shaped() && (!torn ==> Synced()) && Sized(St())
        invariant inum < |St().inodes| && St().inodes[inum].indir2 == q < |St().blocks| < 0x20_0000
        invariant FillOuter(old(St()), inum, old(St()).blocks[q], i0, j0, off, data0, done0, false) ==
                  FillOuter(St(), inum, outer, i, j, off, data, done, torn)
        invariant !torn ==> old(log) + OuterWrites(old(St()), inum, old(St()).blocks[q], i0, j0, off, data0) ==
                              log + OuterWrites(St(), inum, outer, i, j, off, data)
      {
        r, outer, data, done, torn := OuterOnce(inum, q, outer, i, j, off, data, done, torn);
        if !r.Unfinished? { return; }
        i, j := i + 1, 0;
      }
      OuterOver(St(), inum, outer, j, off, data, done, torn);
      OuterEnd(St(), inum, outer, j, off, data);
      r := Finished(done);
    }

    /** The double-indirect tier. */
    method DoubleTier(inum: nat, l0: nat, off: nat, data0: seq<byte>, done0: nat) returns (r: LoopEnd)
      requires Writing(inum) && 262 <= l0 < 65798 && Sized(St())
      modifies this`disk, this`log, blockMap, inodes
      ensures Sized(old(St())) && !r.Unfinished?
      ensures var x := DoubleLoops(old(St()), inum, l0, off, data0, done0);
              && Left(x) && EndOf(x) == r && (!x.torn ==> log == old(log) + DoubleWrites(old(St()), inum, l0, off, data0))
    {
      hide St, Shaped, Synced, Sound, Grow, Target, FillOuter, NeedWrites, OuterWrites;
      GrowsSound(St(), inum, Ind2);
      var none := NeedIndirect(inum, Ind2);
      if none { return Finished(ENOSPC); }
      SoundSized(St());
      InUse(St(), inum, Ind2);
      InodePointers(St(), inum);
      var inode := GetInode(inum);
      r := OuterLoop(inum, inode.indir2, (l0 - 262) / 256, (l0 - 262) % 256, off, data0, done0);
    }

    /** fs_write. */
    method Write(path: O.Path, data: seq<byte>, off: nat) returns (stopped: bool, rc: int)
      requires Valid()
      modifies this`disk, this`log, blockMap, inodes
      ensures Sized(old(St()))
      ensures var r := WriteLoops.Write(old(St()), path, data, off);
              && Left(r) && EndOf(r) == (if stopped then Halted else Finished(rc))
              && (!r.torn ==> log == old(log) + WriteWrites(old(St()), path, data, off))
      ensures WriteReady(old(St()), path, data, off) ==>
                var r := O.Write(old(St()), path, data, off);
                && !stopped && Shaped() && Synced() && St() == r.st && rc == r.rc
                && log == old(log) + WriteWrites(old(St()), path, data, off)
                && WriteFrame(TreeOf(old(St())), path, off, rc, TreeOf(St()))
      ensures AppendOk(old(St()), O.Resolve(old(St()), 1, path), data, off) ==>
                Valid() && AppendSpec(TreeOf(old(St())), path, data, off, rc, TreeOf(St()))
      ensures Adopting(old(St()), path, data, off) ==>
                !stopped && Valid() && AppendSpec(TreeOf(old(St())), path, data, off, rc, TreeOf(St()))
    {
      hide Inv, TreeOf, Replay, O.Write, O.Resolve, AppendOk, AppendSpec, Walkable, WriteReady, WriteFrame, WriteLoops.Write,
        Adopting, WriteWrites;
      InvRoomy(St());
      InvSound(St());
      if AppendOk(St(), O.Resolve(St(), 1, path), data, off) { Ready(St(), path, data, off); }
      if Adopting(St(), path, data, off) { AdoptingKeeps(St(), path, data, off); }
      if WriteReady(St(), path, data, off) {
        WriteStays(St(), path, data, off);
        ReadyWrite(St(), path, data, off);
        if AppendOk(St(), O.Resolve(St(), 1, path), data, off) { AppendKeeps(St(), path, data, off); }
      }
      InvWalkable(St());
      var r := WriteData(path, data, off);
      stopped, rc := r.Halted?, if r.Finished? then r.rc else 0;
    }

    method WriteData(path: O.Path, data: seq<byte>, off: nat) returns (r: LoopEnd)
      requires Valid() && Walkable(St()) && Sized(St())
      modifies this`disk, this`log, blockMap, inodes
      ensures Sized(old(St())) && !r.Unfinished?
      ensures var x := WriteLoops.Write(old(St()), path, data, off);
              Left(x) && EndOf(x) == r && (!x.torn ==> log == old(log) + WriteWrites(old(St()), path, data, off))
    {
      hide Inv, Replay, Walkable, O.Resolve, LoopsFile, LoopWrites;
      var inum := TranslatePathToInum(path);
      if inum < 0 { return Finished(inum); }
      var inode := inodes[inum];
      if inode.isDir { return Finished(O.EISDIR); }
      if off > inode.size { return Finished(O.EINVAL); }
      InvSound(St());
      r := WriteTiers(inum, off, data);
      if r.Finished? { WriteAllInodes(); }  // fs_utime
    }

    /** The dispatch on the first logical block and the three loops. */
    method WriteTiers(inum: nat, off: nat, data: seq<byte>) returns (r: LoopEnd)
      requires Writing(inum) && Sized(St())
      modifies this`disk, this`log, blockMap, inodes
      ensures Sized(old(St())) && !r.Unfinished?
      ensures var x, l := LoopsFile(old(St()), inum, off, data), off / 1024;
              && Left(x) && EndOf(x) == r
              && (!x.torn ==> log == old(log) + if l < 65798 then LoopWrites(old(St()), inum, l, off, data)
                                                else LoopWrites(old(St()), inum, 6, 0, data))
    {
      hide St, Shaped, Synced, Sound, LoopsFrom, LoopWrites, DoubleWrites;
      var n := off / 1024;
      var o, rest, done, finished, rc := off, data, 0, false, 0;
      if n >= 65798 {
        n, o := 6, 0;
      } else if n < 6 {
        finished, rc, rest, done := DirectTier(inum, n, o, rest, done);
        if finished { return Finished(rc); }
        n, o := 6, 0;
      }
      if n < 262 {
        finished, rc, rest, done := IndirectTier(inum, n, o, rest, done);
        if finished { return Finished(rc); }
        n, o := 262, 0;
      }
      LoopsDouble(St(), inum, n, o, rest, done);
      LoopsDoubleWrites(St(), inum, n, o, rest);
      r := DoubleTier(inum, n, o, rest, done);
    }

    // ---- fs_read ----

    /** The byte loop over one block. */
    static method CopyBytes(block: Block, cnt0: nat, off: nat, len0: nat, num: nat, size: nat)
      returns (s: seq<byte>, cnt: nat, stopped: bool)
      requires cnt0 < off ==> off - cnt0 < 1024
      ensures var skip := if cnt0 < off then off - cnt0 else 0;
              var want := Wanted(len0, size, off + num);
              && cnt == (if cnt0 < off then off else cnt0)
              && (stopped <==> want < 1024 - skip)
              && s == block[skip..skip + Min(want, 1024 - skip)]
    {
      s, cnt, stopped := [], cnt0, false;
      var len := len0;
      ghost var skip := if cnt0 < off then off - cnt0 else 0;
      var j := 0;
      while j < 1024
        invariant 0 <= j <= 1024 && len + |s| == len0
        invariant j <= skip ==> s == [] && cnt == cnt0 + j
        invariant j >= skip ==> s == block[skip..j] && cnt == cnt0 + skip
        invariant |s| <= Wanted(len0, size, off + num)
      {
        if cnt < off {
          cnt := cnt + 1;
        } else if len > 0 && off + num + |s| < size {
          assert block[skip..j + 1] == block[skip..j] + [block[j]];
          s := s + [block[j]];
          len := len - 1;
        } else {
          stopped := true;
          return;
        }
        j := j + 1;
      }
    }

    /** Read block p for logical block l and copy from it. */
    method ReadOne(inum: nat, l: nat, p: nat, off: nat, ghost len0: nat, out0: seq<byte>, left0: nat, cnt0: nat)
      returns (r: Outcome, more: bool, out: seq<byte>, left: nat, cnt: nat)
      requires inum < inodes.Length && Reading(St(), inum) && l < 65798
      requires Progress(St(), inum, off, len0, out0, left0, l, cnt0)
      requires p == DataFetch(St(), St().inodes[inum], l)
      requires p < |disk.blocks| ==> InRange(St(), Fetches(St(), St().inodes[inum], l))
      ensures !more ==> ReadMeets(St(), inum, off, len0, r)
      ensures more ==> Progress(St(), inum, off, len0, out, left, l + 1, cnt)
      ensures more && l + 1 == 65798 ==> ReadMeets(St(), inum, off, len0, Bytes(out))
    {
      hide Reading, ReadMeets, DataFetch, Fetches, Contents, Sound;
      r, more, out, left, cnt := Aborted, false, out0, left0, cnt0;
      if p >= |disk.blocks| {
        LastOutOfRange(St(), St().inodes[inum], l);
        AbortMeets(St(), inum, off, len0, out0, left0, l, cnt0);
        return;
      }
      var block := disk.blocks[p];
      BlockIs(disk.blocks, p);
      var s, stopped;
      s, cnt, stopped := CopyBytes(block, cnt0, off, left0, |out0|, inodes[inum].size);
      if stopped {
        StopMeets(St(), inum, off, len0, out0, left0, l, cnt0, s);
        return Bytes(out0 + s), false, out0 + s, left0, cnt;
      }
      FullBlock(St(), inum, off, len0, out0, left0, l, cnt0, cnt, s);
      more, out, left := true, out0 + s, left0 - |s|;
    }

    method ReadDirect(inum: nat, l0: nat, off: nat, len0: nat, out0: seq<byte>, left0: nat, cnt0: nat)
      returns (r: Outcome, more: bool, out: seq<byte>, left: nat, cnt: nat)
      requires inum < inodes.Length && Reading(St(), inum) && l0 < 6
      requires Progress(St(), inum, off, len0, out0, left0, l0, cnt0)
      ensures !more ==> ReadMeets(St(), inum, off, len0, r)
      ensures more ==> Progress(St(), inum, off, len0, out, left, 6, cnt)
    {
      hide Reading, ReadMeets, Contents, Sound;
      r, more, out, left, cnt := Aborted, true, out0, left0, cnt0;
      var l := l0;
      while l < 6
        invariant l0 <= l <= 6 && Progress(St(), inum, off, len0, out, left, l, cnt)
      {
        r, more, out, left, cnt := ReadOne(inum, l, inodes[inum].direct[l], off, len0, out, left, cnt);
        if !more { return; }
        l := l + 1;
      }
      more := true;
    }

    method ReadIndirect(inum: nat, l0: nat, off: nat, len0: nat, out0: seq<byte>, left0: nat, cnt0: nat)
      returns (r: Outcome, more: bool, out: seq<byte>, left: nat, cnt: nat)
      requires inum < inodes.Length && Reading(St(), inum) && 6 <= l0 < 262
      requires Progress(St(), inum, off, len0, out0, left0, l0, cnt0)
      ensures !more ==> ReadMeets(St(), inum, off, len0, r)
      ensures more ==> Progress(St(), inum, off, len0, out, left, 262, cnt)
    {
      hide Reading, ReadMeets, Contents, Sound, Ptr;
      r, more, out, left, cnt := Aborted, true, out0, left0, cnt0;
      IndirectOnDisk(St(), inum);
      var q := inodes[inum].indir1;
      var index := ReadBlock(q);
      BlockIs(disk.blocks, q);
      var l := l0;
      while l < 262
        invariant l0 <= l <= 262 && Progress(St(), inum, off, len0, out, left, l, cnt)
      {
        r, more, out, left, cnt := ReadOne(inum, l, Ptr(index, l - 6), off, len0, out, left, cnt);
        if !more { return; }
        l := l + 1;
      }
      more := true;
    }

    method ReadDouble(inum: nat, l0: nat, off: nat, len0: nat, out0: seq<byte>, left0: nat, cnt0: nat)
      returns (r: Outcome)
      requires inum < inodes.Length && Reading(St(), inum) && 262 <= l0 < 65798
      requires Progress(St(), inum, off, len0, out0, left0, l0, cnt0)
      ensures ReadMeets(St(), inum, off, len0, r)
    {
      hide Reading, ReadMeets, Contents, Sound, Ptr;
      var more, out, left, cnt := true, out0, left0, cnt0;
      IndirectOnDisk(St(), inum);
      var q2 := inodes[inum].indir2;
      var outer := ReadBlock(q2);
      BlockIs(disk.blocks, q2);
      var l := l0;
      while l < 65798
        invariant l0 <= l <= 65798 && Progress(St(), inum, off, len0, out, left, l, cnt)
        invariant l == 65798 ==> ReadMeets(St(), inum, off, len0, Bytes(out))
        decreases 65798 - l
      {
        r, more, l, out, left, cnt := ReadSecondLevel(inum, outer, l, off, len0, out, left, cnt);
        if !more { return; }
      }
      return Bytes(out);
    }

    /** The rest of one second-level block. */
    method ReadSecondLevel(inum: nat, outer: Block, l0: nat, off: nat, len0: nat, out0: seq<byte>, left0: nat, cnt0: nat)
      returns (r: Outcome, more: bool, l: nat, out: seq<byte>, left: nat, cnt: nat)
      requires inum < inodes.Length && Reading(St(), inum) && 262 <= l0 < 65798
      requires inodes[inum].indir2 < |disk.blocks| && outer == BlockAt(disk.blocks, inodes[inum].indir2)
      requires Progress(St(), inum, off, len0, out0, left0, l0, cnt0)
      ensures !more ==> ReadMeets(St(), inum, off, len0, r)
      ensures more ==> l0 < l <= 65798 && Progress(St(), inum, off, len0, out, left, l, cnt)
      ensures more && l == 65798 ==> ReadMeets(St(), inum, off, len0, Bytes(out))
    {
      hide Reading, ReadMeets, Contents, Sound, Ptr, BlockAt;
      r, more, l, out, left, cnt := Aborted, true, l0, out0, left0, cnt0;
      var k := (l0 - 262) / 256;
      var q := Ptr(outer, k);
      if q >= |disk.blocks| {
        AbortMeets(St(), inum, off, len0, out0, left0, l0, cnt0) by {
          assert Fetches(St(), St().inodes[inum], l0)[1] == q;
        }
        more := false;
        return;
      }
      var index := ReadBlock(q);
      BlockIs(disk.blocks, q);
      var next := 262 + 256 * (k + 1);
      while l < next
        invariant l0 <= l <= next <= 65798 && Progress(St(), inum, off, len0, out, left, l, cnt)
        invariant l == 65798 ==> ReadMeets(St(), inum, off, len0, Bytes(out))
      {
        assert (l - 262) / 256 == k;
        r, more, out, left, cnt := ReadOne(inum, l, Ptr(index, (l - 262) % 256), off, len0, out, left, cnt);
        if !more { return; }
        l := l + 1;
      }
      more := true;
    }

    /** fs_read: the bytes, an error code, or the device's assertion. */
    method Read(path: O.Path, len: nat, off: nat) returns (r: Outcome)
      requires Valid()
      ensures ReadResult(St(), path, len, off, r)
      ensures ReadSpec(TreeOf(St()), path, len, off, r)
    {
      hide Inv, Walkable, O.Resolve, ReadMeets, Reading, Contents, ReadSpec, TreeOf, ReadResult;
      r := ReadAt(path, len, off);
      ReadMeetsSpec(St(), path, len, off, r);
    }

    method ReadAt(path: O.Path, len: nat, off: nat) returns (r: Outcome)
      requires Valid()
      ensures ReadResult(St(), path, len, off, r)
    {
      hide Inv, Walkable, O.Resolve, ReadMeets, Reading, Contents;
      InvWalkable(St());
      var inum := TranslatePathToInum(path);
      if inum < 0 { return Code(inum); }
      if off / 1024 >= 65798 { return Bytes([]); }
      if inodes[inum].isDir { return Code(O.EISDIR); }
      InvReading(St(), inum);
      r := ReadTiers(inum, len, off);
    }

    method ReadTiers(inum: nat, len: nat, off: nat) returns (r: Outcome)
      requires inum < inodes.Length && Reading(St(), inum) && off / 1024 < 65798
      ensures ReadMeets(St(), inum, off, len, r)
    {
      ReadStarts(St(), inum, off, len);
      hide Reading, ReadMeets, Contents, Progress;
      var n := off / 1024;
      var more, out, left, cnt := true, [], len, n * 1024;
      if n < 6 {
        r, more, out, left, cnt := ReadDirect(inum, n, off, len, out, left, cnt);
        if !more { return; }
        n := 6;
      }
      if n < 262 {
        r, more, out, left, cnt := ReadIndirect(inum, n, off, len, out, left, cnt);
        if !more { return; }
        n := 262;
      }
      r := ReadDouble(inum, n, off, len, out, left, cnt);
    }
  }

  lemma LastOutOfRange(st: Store, n: Inode, l: nat)
    requires l < 65798 && DataFetch(st, n, l) >= |st.blocks|
    ensures !InRange(st, Fetches(st, n, l))
  {
    hide Fetches;
    var ps := Fetches(st, n, l);
    assert ps[|ps| - 1] >= |st.blocks|;
  }

  lemma IndirectOnDisk(st: Store, i: nat)
    requires Reading(st, i)
    ensures i < |st.inodes| && st.inodes[i].indir1 < |st.blocks| && st.inodes[i].indir2 < |st.blocks|
  {
    hide Sound, Shape;
    InodePointers(st, i);
    if T(st, i, Ind1) != 0 { InUse(st, i, Ind1); }
    if T(st, i, Ind2) != 0 { InUse(st, i, Ind2); }
  }

  lemma InvReading(st: Store, i: nat)
    requires Inv(st) && Live(st, i)
    ensures Reading(st, i)
  {
    var w :| InvW(st, w);
    hide TreeInv, Owned, Shape;
  }

  lemma ReadStarts(st: Store, i: nat, off: nat, len: nat)
    requires i < |st.inodes|
    ensures Progress(st, i, off, len, [], len, off / 1024, off / 1024 * 1024)
  {
    if off <= st.inodes[i].size { assert Contents(st, i)[off..off] == []; }
  }

  /** No stale second-level index block will be picked up. */
  ghost predicate WriteReady(st: Store, path: O.Path, data: seq<byte>, off: nat) {
    var i := O.Resolve(st, 1, path);
    Sized(st) && 0 <= i < |st.inodes| && !st.inodes[i].isDir && off <= st.inodes[i].size ==> NoStaleIndex(st, i, off, data)
  }

  lemma InvSound(st: Store)
    requires Inv(st)
    ensures Sound(st)
  {
    var w :| InvW(st, w);
    hide TreeInv, Shapes, Owned;
  }

  lemma WriteStays(st: Store, path: O.Path, data: seq<byte>, off: nat)
    requires Inv(st) && Sized(st) && WriteReady(st, path, data, off)
    ensures var r := O.Write(st, path, data, off); WriteFrame(TreeOf(st), path, off, r.rc, TreeOf(r.st))
  {
    hide InvW, WriteFrame, TreeOf, O.Write, O.Resolve, NoStaleIndex;
    var w :| InvW(st, w);
    WriteTouchesOneFile(st, w, path, data, off);
  }

  /** An append that may take stale index blocks, but can adopt what they name. */
  ghost predicate Adopting(st: Store, path: O.Path, data: seq<byte>, off: nat)
    requires Sized(st)
  {
    var i := O.Resolve(st, 1, path);
    0 <= i < |st.inodes| && !st.inodes[i].isDir && off == st.inodes[i].size < MAX_BYTES && Adoptive(st, i, data)
  }

  lemma AdoptingKeeps(st: Store, path: O.Path, data: seq<byte>, off: nat)
    requires O.Roomy(st) && Inv(st) && Adopting(st, path, data, off)
    ensures var r := WriteLoops.Write(st, path, data, off);
            r.Ended? && !r.torn && Inv(r.st) && AppendSpec(TreeOf(st), path, data, off, r.rc, TreeOf(r.st))
  {
    hide InvW, AppendSpec, TreeOf, WriteLoops.Write, Adoptive, O.Resolve;
    var w :| InvW(st, w);
    var w' := AdoptiveAppend(st, w, path, data);
  }

  lemma AppendKeeps(st: Store, path: O.Path, data: seq<byte>, off: nat)
    requires O.Roomy(st) && Inv(st) && AppendOk(st, O.Resolve(st, 1, path), data, off)
    ensures var r := O.Write(st, path, data, off);
            Inv(r.st) && AppendSpec(TreeOf(st), path, data, off, r.rc, TreeOf(r.st))
  {
    hide InvW, AppendSpec, TreeOf, O.Write, AppendOk;
    var w :| InvW(st, w);
    var w' := AppendMeetsSpec(st, w, path, data, off);
  }

  function EndOf(r: Loop): LoopEnd {
    match r case Ended(_, rc, _) => Finished(rc) case Stopped(_, _) => Halted case More(_, _, _, _) => Unfinished
  }

  function LoopOf(r: LoopEnd, st: Store, data: seq<byte>, done: nat, torn: bool): Loop {
    match r case Finished(rc) => Ended(st, rc, torn) case Halted => Stopped(st, torn) case Unfinished => More(st, data, done, torn)
  }

  lemma LoopsDouble(st: Store, i: nat, l: nat, off: nat, data: seq<byte>, done: nat)
    requires Sized(st) && i < |st.inodes| && 262 <= l < 65798
    ensures LoopsFrom(st, i, l, off, data, done) == DoubleLoops(st, i, l, off, data, done)
  {
  }

  /** An indirect block taken keeps blocks exclusively owned. */
  lemma GrowsSound(st: Store, i: nat, loc: Loc)
    requires Sound(st) && Sized(st) && Live(st, i) && loc in {Ind1, Ind2}
    ensures var g := Grow(st, i, loc);
            && (g.Full? ==> g.st == st)
            && (g.Ok? ==> Sound(g.st) && Live(g.st, i) && T(g.st, i, loc) != 0)
  {
    hide Owned, Target, Extends, Leaked;
    var ow :| Good(st, ow);
    var ow' := GrowOk(st, ow, i, loc);
    if Grow(st, i, loc).Ok? { assert Live(Grow(st, i, loc).st, i) by { assert SameSizes(st, Grow(st, i, loc).st); } }
  }

  /** One iteration of the direct and single-indirect loops. */
  lemma LowStep(st: Store, i: nat, l: nat, off: nat, data: seq<byte>, done: nat)
    requires Sound(st) && Sized(st) && Live(st, i) && l < 262
    ensures StepClean(st, i, l)
    ensures var s := WriteStep(st, i, l, off, data);
            && Sound(s.st) && Live(s.st, i)
            && LoopsFrom(st, i, l, off, data, done) ==
               if s.Stop? then Ended(s.st, ENOSPC, false)
               else if s.k == |data| then Ended(s.st, done + s.k, false)
               else LoopsFrom(s.st, i, l + 1, NextOff(l, off, s.tb), data[s.k..], done + s.k)
  {
    hide WriteStep, Owned, OthersSame, Leaked, DoubleLoops;
    var ow :| Good(st, ow);
    var ow' := StepOwned(st, ow, i, l, off, data);
  }

  /** The single-indirect block first. */
  lemma LowIndex(st: Store, i: nat, l: nat, off: nat, data: seq<byte>, done: nat)
    requires Sound(st) && Sized(st) && Live(st, i) && 6 <= l < 262
    ensures var g := Grow(st, i, Ind1);
            && (g.Full? ==> g.st == st && LoopsFrom(st, i, l, off, data, done) == Ended(st, ENOSPC, false))
            && (g.Ok? ==> && Sound(g.st) && Live(g.st, i) && T(g.st, i, Ind1) != 0
                          && LoopsFrom(st, i, l, off, data, done) == LoopsFrom(g.st, i, l, off, data, done))
  {
    hide Target, DoubleLoops, Sound;
    GrowsSound(st, i, Ind1);
    var g := Grow(st, i, Ind1);
    if g.Ok? {
      GrowFull(g.st, i, Ind1);
      hide Grow;
      assert GrowIndex(g.st, i, l) == GrowIndex(st, i, l) == g;
      hide GrowIndex, PutBytes;
      assert WriteStep(g.st, i, l, off, data) == WriteStep(st, i, l, off, data);
    }
  }

  /** A write that meets no stale index block is the block-by-block form. */
  lemma ReadyWrite(st: Store, path: O.Path, data: seq<byte>, off: nat)
    requires Sized(st) && Sound(st) && WriteReady(st, path, data, off) && Inv(st)
    ensures var r := O.Write(st, path, data, off); WriteLoops.Write(st, path, data, off) == Ended(r.st, r.rc, false)
  {
    hide Sound, WriteFrom, LoopsFrom, O.Resolve, WriteClean, Inv;
    var i := O.Resolve(st, 1, path);
    if 0 <= i < |st.inodes| && !st.inodes[i].isDir && off <= st.inodes[i].size {
      ResolvedLive(st, path);
      if off / 1024 < 65798 { LoopsAgree(st, i, off / 1024, off, data, 0); } else { LoopsAgree(st, i, 6, 0, data, 0); }
    }
  }

  lemma ResolvedLive(st: Store, path: O.Path)
    requires Inv(st) && O.Resolve(st, 1, path) >= 0
    ensures Live(st, O.Resolve(st, 1, path))
  {
    hide InvW, O.Resolve;
    var w :| InvW(st, w);
    var i := Resolved(st, w, path);
  }

  lemma Ready(st: Store, p: O.Path, data: seq<byte>, off: nat)
    requires O.Roomy(st) && AppendOk(st, O.Resolve(st, 1, p), data, off)
    ensures WriteReady(st, p, data, off)
  {
    hide O.Resolve, WriteClean;
  }

  lemma BlockIs(bl: seq<Block>, p: nat)
    requires p < |bl|
    ensures BlockAt(bl, p) == bl[p]
  {
  }

  /** Every block number truncation of inode n meets is on the disk. */
  ghost predicate BlocksKnown(st: Store, n: Inode) {
    && n.indir1 < |st.blocks| <= |st.blockMap| && n.indir2 < |st.blocks|
    && (n.indir1 != 0 ==> forall k :: 0 <= k < 256 ==> Ptr(BlockAt(st.blocks, n.indir1), k) < |st.blockMap|)
    && (n.indir2 != 0 ==> forall k :: 0 <= k < 256 ==> Ptr(BlockAt(st.blocks, n.indir2), k) < |st.blocks|)
    && (n.indir2 != 0 ==>
          forall k, j :: 0 <= k < 256 && 0 <= j < 256 && Ptr(BlockAt(st.blocks, n.indir2), k) != 0 ==>
            Ptr(BlockAt(st.blocks, Ptr(BlockAt(st.blocks, n.indir2), k)), j) < |st.blockMap|)
  }

  lemma TruncReadable(st: Store, i: nat)
    requires Inv(st) && Live(st, i)
    ensures 4 <= st.start && BlocksKnown(st, st.inodes[i])
  {
    var w :| InvW(st, w);
    hide TreeInv, Shapes, Target, Owned, BlockAt, FileFine, Ptr;
    OwnedFileFine(st, w.ow, i);
    FineEntries(st, st.inodes[i]);
    IndirectRange(st, w.ow, i);
  }

  lemma FineEntries(st: Store, n: Inode)
    requires FileFine(st, n) && 0 < |st.blockMap|
    ensures n.indir1 != 0 ==> forall k :: 0 <= k < 256 ==> Ptr(BlockAt(st.blocks, n.indir1), k) < |st.blockMap|
    ensures n.indir2 != 0 ==>
              forall k, j :: 0 <= k < 256 && 0 <= j < 256 && Ptr(BlockAt(st.blocks, n.indir2), k) != 0 ==>
                Ptr(BlockAt(st.blocks, Ptr(BlockAt(st.blocks, n.indir2), k)), j) < |st.blockMap|
  {
    hide Ptr, BlockAt;
  }

  lemma IndirectRange(st: Store, ow: Owners, i: nat)
    requires Good(st, ow) && Live(st, i)
    ensures st.inodes[i].indir1 < |st.blocks| && st.inodes[i].indir2 < |st.blocks|
    ensures st.inodes[i].indir2 != 0 ==>
              forall k :: 0 <= k < 256 ==> Ptr(BlockAt(st.blocks, st.inodes[i].indir2), k) < |st.blocks|
  {
    hide Ptr, Target, Owned, BlockAt;
    var n := st.inodes[i];
    InodePointers(st, i);
    if n.indir1 != 0 { OwnedIsSet(st, ow, i, Ind1); }
    if n.indir2 != 0 {
      OwnedIsSet(st, ow, i, Ind2);
      forall k: nat | k < 256 ensures Ptr(BlockAt(st.blocks, n.indir2), k) < |st.blocks| {
        Ind2Is(st, i, k);
        if T(st, i, Outer(k)) != 0 { OwnedIsSet(st, ow, i, Outer(k)); }
      }
    }
  }

  lemma ThroughRange(st: Store, i: nat, l: nat, parent: Loc, e: nat, q: nat)
    requires i < |st.inodes| && Through(st, i, l, parent, e, q)
    ensures q < |st.blocks|
  {
  }

  lemma DirectOnDisk(st: Store, i: nat, l: nat)
    requires Sound(st) && Live(st, i) && l < 6
    ensures st.inodes[i].direct[l] < |st.blocks|
  {
    hide Sound;
    InodePointers(st, i);
    SoundSized(st);
    if T(st, i, Data(l)) != 0 { InUse(st, i, Data(l)); }
  }

  /** The writes of fs_mknod when it succeeds. */
  function MknodWrites(st: Store, path: O.Path, isDir: bool): seq<DevWrite>
    requires O.Roomy(st) && path != [] && NameOk(O.Last(path)) && O.Mknod(st, path, isDir).rc == 0
  {
    var d := O.ParentOf(st, 1, path);
    CreateWrites(st, d, O.Scan(O.DirBlock(st, d), O.Unused, 0), FirstFree(st.inodeMap, 0, 64),
                 FirstFree(st.blockMap, st.start, |st.blocks|), O.Last(path), isDir)
  }

  lemma MknodIs(st: Store, path: O.Path, isDir: bool)
    requires O.Roomy(st) && path != [] && NameOk(O.Last(path))
    ensures var child, parent := O.Resolve(st, 1, path), O.ParentOf(st, 1, path);
            var r := O.Mknod(st, path, isDir);
            if parent < 0 then r == Result(st, parent)
            else if !O.InodeAt(st, parent).isDir then r == Result(st, O.ENOTDIR)
            else if child > 0 then r == Result(st, O.EEXIST)
            else
              var i, s := FirstFree(st.inodeMap, 0, 64), O.Scan(O.DirBlock(st, parent), O.Unused, 0);
              var b := FirstFree(st.blockMap, st.start, |st.blocks|);
              if i == 64 || s == 32 || (isDir && b == |st.blocks|) then r == Result(st, ENOSPC)
              else && r == Result(O.Create(st, parent, s, i, b, O.Last(path), isDir), 0)
                   && MknodWrites(st, path, isDir) == CreateWrites(st, parent, s, i, b, O.Last(path), isDir)
  {
    hide O.Resolve, O.ParentOf, O.Create, FirstFree, O.Scan, CreateWrites, O.DirBlock;
  }

  lemma MknodKeeps(st: Store, path: O.Path, isDir: bool)
    requires O.Roomy(st) && Inv(st) && path != [] && NameOk(O.Last(path))
    ensures var r := O.Mknod(st, path, isDir);
            Inv(r.st) && MknodSpec(TreeOf(st), path, isDir, r.rc, TreeOf(r.st))
  {
    hide InvW, MknodSpec, TreeOf, O.Mknod;
    var w :| InvW(st, w);
    var w' := MknodMeetsSpec(st, w, path, isDir);
  }

  lemma TruncateKeeps(st: Store, path: O.Path, len: int)
    requires Inv(st)
    ensures var r := O.Truncate(st, path, len);
            TruncateSpec(TreeOf(st), path, len, r.rc, TreeOf(r.st)) && (TruncateOk(st, path, len) ==> Inv(r.st))
  {
    hide InvW, TruncateSpec, TreeOf, O.Truncate, TruncateOk;
    var w :| InvW(st, w);
    TruncateMeetsTree(st, w, path, len);
    if TruncateOk(st, path, len) { var w' := TruncateMeetsSpec(st, w, path, len); }
  }

  lemma UnlinkKeeps(st: Store, path: O.Path)
    requires O.Roomy(st) && Inv(st)
    ensures var r := O.Unlink(st, path);
            Inv(r.st) && UnlinkSpec(TreeOf(st), path, r.rc, TreeOf(r.st))
  {
    hide InvW, UnlinkSpec, TreeOf, O.Unlink, UnlinkBits;
    var w :| InvW(st, w);
    var w' := UnlinkMeetsSpec(st, w, path);
  }

  /** After the truncation inside fs_unlink the tree can still be walked. */
  lemma UnlinkStart(st: Store, path: O.Path)
    requires O.Roomy(st) && Inv(st)
    ensures var t := O.Truncate(st, path, 0);
            if t.rc < 0 then O.Unlink(st, path) == t
            else path != [] && Walkable(t.st) && O.ParentOf(t.st, 1, path) >= 0
                 && O.Roomy(t.st) && O.Unlink(st, path) == O.UnlinkEntry(t.st, path)
                 && ParentBlock(t.st, path) == ParentBlock(st, path)
  {
    hide InvW, TreeOf, O.Resolve, O.TruncFile, O.ParentOf, O.UnlinkEntry, Walk, Walkable, WalkableW, O.Scan, O.DirBlock, O.E,
      Padded, ParentBlock;
    var w :| InvW(st, w);
    var i := Resolved(st, w, path);
    PathNotRoot(st, w, path);
    if i >= 0 && !O.InodeAt(st, i).isDir {
      var d, s, c := EntryOf(st, w, path);
      TruncSameParent(st, w, c, path);
      TruncWalkable(st, w, c);
      SameParentBlock(st, O.TruncFile(st, c), path, d, c);
    }
  }

  lemma SameParentBlock(st: Store, t: Store, path: O.Path, d: nat, c: nat)
    requires c < |st.inodes| && d != c && d < |st.inodes| && t == O.TruncFile(st, c)
    requires O.ParentOf(st, 1, path) == O.ParentOf(t, 1, path) == d
    ensures ParentBlock(t, path) == ParentBlock(st, path)
  {
    hide O.ParentOf, O.TruncBits, O.ClearDirect;
  }

  lemma TruncWalkable(st: Store, w: Wit, c: nat)
    requires InvW(st, w) && Live(st, c) && !st.inodes[c].isDir && c > 1
    ensures WalkableW(O.TruncFile(st, c), w) && Walkable(O.TruncFile(st, c)) && O.Roomy(O.TruncFile(st, c))
  {
    hide TreeInv, Shapes, Owned, O.TruncBits, O.ClearDirect;
    var t := O.TruncFile(st, c);
    TruncOthers(st, c);
    FileOnlySameDirs(st, t, w, c);
    SameDirsTree(st, t, w, w.ow);
    assert w.(ow := w.ow) == w;
    AllDirPointers(st, w);
    forall d: nat | LiveDir(t, d) ensures t.inodes[d].direct[0] < |t.blocks| {
      assert SameInode(st, t, d);
      DirBlockOwned(st, w.ow, d);
    }
    RoomToWrite(st, w);
  }

  lemma RmdirKeeps(st: Store, path: O.Path)
    requires O.Roomy(st) && Inv(st) && path != []
    ensures var r := O.Rmdir(st, path);
            Inv(r.st) && RmdirSpec(TreeOf(st), path, r.rc, TreeOf(r.st))
  {
    hide InvW, RmdirSpec, TreeOf, O.Rmdir;
    var w :| InvW(st, w);
    var w' := RmdirMeetsSpec(st, w, path);
  }

  lemma RenameKeeps(st: Store, src: O.Path, dst: O.Path)
    requires Inv(st) && src != [] && dst != [] && NameOk(O.Last(dst)) && |O.Last(dst)| >= |O.Last(src)|
    ensures var r := O.Rename(st, src, dst);
            Inv(r.st) && RenameSpec(TreeOf(st), src, dst, r.rc, TreeOf(r.st))
  {
    InvRoomy(st);
    hide InvW, RenameSpec, TreeOf, O.Rename, NameOk;
    var w :| InvW(st, w);
    var w' := RenameMeetsSpec(st, w, src, dst);
  }

  /** A path that resolves has a parent directory, which it is not itself. */
  lemma ParentOfResolved(st: Store, path: O.Path)
    requires Inv(st) && path != []
    ensures O.Resolve(st, 1, path) >= 0 ==>
              O.ParentOf(st, 1, path) >= 0 && LiveDir(st, O.ParentOf(st, 1, path))
              && O.ParentOf(st, 1, path) != O.Resolve(st, 1, path)
              && O.Scan(O.DirBlock(st, O.ParentOf(st, 1, path)), O.OfInode(O.Resolve(st, 1, path)), 0) < 32
  {
    hide InvW, O.Resolve, O.ParentOf, O.Scan, Walk, O.E, O.DirBlock, Padded;
    var w :| InvW(st, w);
    if O.Resolve(st, 1, path) >= 0 { var d, s, c := EntryOf(st, w, path); }
  }

  lemma RenameIs(st: Store, src: O.Path, dst: O.Path)
    requires src != [] && dst != [] && NameOk(O.Last(dst))
    ensures var d, c, d' := O.ParentOf(st, 1, src), O.Resolve(st, 1, src), O.ParentOf(st, 1, dst);
            var r := O.Rename(st, src, dst);
            if c < 0 then r == Result(st, c)
            else if d != d' then r == Result(st, O.EINVAL)
            else 0 <= d < |st.inodes| && st.inodes[d].direct[0] < |st.blocks| ==>
              var p := st.inodes[d].direct[0];
              var b := st.blocks[p];
              var s := O.Scan(b, O.OfInode(c), 0);
              if O.Scan(b, O.AnyNamed(O.Last(dst)), 0) < 32 then r == Result(st, O.EEXIST)
              else if s == 32 then r == Result(st, 0)
              else r == Result(st.(blocks := st.blocks[p := RenameEnt(b, s, O.Last(dst))]), 0)
  {
    hide O.Scan, O.ParentOf, O.Resolve, RenameEnt;
  }

  lemma RmdirCases(st: Store, path: O.Path)
    requires path != []
    ensures var c, r := O.Resolve(st, 1, path), O.Rmdir(st, path);
            if c < 0 then r == Result(st, c)
            else if !O.InodeAt(st, c).isDir then r == Result(st, O.ENOTDIR)
            else O.Scan(O.DirBlock(st, c), O.Used, 0) < 32 ==> r == Result(st, O.ENOTEMPTY)
  {
    hide O.Scan, O.ParentOf, O.Resolve, O.DirBlock, ClearEnt;
  }

  /** Dropping directory c from the table and its entry from directory d. */
  lemma RmdirDropped(st: Store, path: O.Path, c: nat, d: nat, st': Store)
    requires path != [] && c == O.Resolve(st, 1, path) && d == O.ParentOf(st, 1, path)
    requires c < |st.inodes| && c < |st.inodeMap| && st.inodes[c].isDir && d < |st.inodes| && c != d
    requires O.Scan(O.DirBlock(st, c), O.Used, 0) == 32 && st.inodes[d].direct[0] < |st.blocks|
    requires FileSystem.Dropped(st, c, st.inodes[d].direct[0], st')
    ensures O.Rmdir(st, path) == Result(st', 0)
  {
    hide O.Scan, O.ParentOf, O.Resolve, ClearEnt, O.FreeBit;
    assert st.blocks[st.inodes[d].direct[0] := st.blocks[st.inodes[d].direct[0]]] == st.blocks;
  }

  lemma UnlinkWritesAre(st: Store, path: O.Path, t: Store, p: nat, st': Store)
    requires O.Roomy(st) && t == O.Truncate(st, path, 0).st && p == ParentBlock(st, path) && st' == O.Unlink(st, path).st
    ensures UnlinkWrites(st, path) ==
            TruncateWrites(t) + [ToBlock(p, BlockAt(st'.blocks, p)), ToInodes(st'.inodes), ToInodeMap(st'.inodeMap)]
  {
    hide O.Unlink, O.Truncate, ParentBlock, TruncateWrites;
  }

  lemma LogTwice(a: seq<DevWrite>, b: seq<DevWrite>, c: seq<DevWrite>)
    ensures (a + b) + c == a + (b + c)
  {
  }

  lemma Undo(m: seq<bool>, i: nat)
    requires i < |m| && !m[i]
    ensures m[i := true][i := false] == m
  {
  }

  /** The parent walk fails with these codes only. */
  lemma ParentCode(st: Store, path: O.Path)
    requires Inv(st) && path != []
    ensures var r := O.ParentOf(st, 1, path);
            if r < 0 then r == O.ENOENT || r == O.ENOTDIR else r < |st.inodes|
  {
    var w :| InvW(st, w);
    hide TreeInv, Shapes, Owned, Walk, O.ParentOf;
    ResolveIsWalk(st, w, path);
    WalkLive(st, w, Init(path));
  }
}
