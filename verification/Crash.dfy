/** The device writes of successful calls, in order. */
module Crash {
  import opened Layout
  import opened State
  import opened Device
  import O = Ops

  function CreateWrites(st: Store, d: nat, s: nat, i: nat, b: nat, n: Name, isDir: bool): seq<DevWrite>
    requires O.Roomy(st) && s < 32 && i < 64 && NameOk(n) && (isDir ==> b < |st.blocks|)
  {
    var st' := O.Create(st, d, s, i, b, n, isDir);
    (if isDir then [ToBlockMap(st'.blockMap), ToBlock(b, ZeroBlock)] else []) +
    [ToInodeMap(st'.inodeMap), ToInodes(st'.inodes),
     ToBlock(O.InodeAt(st, d).direct[0], PutEnt(O.DirBlock(st, d), s, Dirent(true, isDir, i, n)))]
  }

  /** fs_truncate: the bitmap, then the inode table. */
  function TruncateWrites(st': Store): seq<DevWrite> { [ToBlockMap(st'.blockMap), ToInodes(st'.inodes)] }

  /** The block of the directory a path is in. */
  function ParentBlock(st: Store, path: O.Path): nat {
    var d := O.ParentOf(st, 1, path);
    if d < 0 then 0 else O.InodeAt(st, d).direct[0]
  }

  /** fs_unlink: the truncation, then the directory, the inode table and the
      inode bitmap. */
  function UnlinkWrites(st: Store, path: O.Path): (ws: seq<DevWrite>)
    requires O.Roomy(st)
    ensures |ws| == 5
  {
    var st', p := O.Unlink(st, path).st, ParentBlock(st, path);
    TruncateWrites(O.Truncate(st, path, 0).st) +
    [ToBlock(p, BlockAt(st'.blocks, p)), ToInodes(st'.inodes), ToInodeMap(st'.inodeMap)]
  }

  /** fs_rmdir: the block bitmap, the inode bitmap, the parent, the inode table. */
  function RmdirWrites(st: Store, path: O.Path): (ws: seq<DevWrite>)
    requires path != []
    ensures |ws| == 4
  {
    var st', p := O.Rmdir(st, path).st, ParentBlock(st, path);
    [ToBlockMap(st'.blockMap), ToInodeMap(st'.inodeMap), ToBlock(p, BlockAt(st'.blocks, p)), ToInodes(st'.inodes)]
  }

  /** fs_rename: the inode table, then the directory. */
  function RenameWrites(st: Store, src: O.Path, dst: O.Path): seq<DevWrite>
    requires dst != [] && NameOk(O.Last(dst))
  {
    var st', p := O.Rename(st, src, dst).st, ParentBlock(st, src);
    [ToInodes(st'.inodes), ToBlock(p, BlockAt(st'.blocks, p))]
  }

  /** What a create looks like from the outside, on a store of the right sizes. */
  lemma CreateFields(st: Store, d: nat, s: nat, i: nat, b: nat, n: Name, isDir: bool)
    requires O.Roomy(st) && s < 32 && i < 64 && NameOk(n) && (isDir ==> b < |st.blocks|)
    requires d < |st.inodes| && d != i && st.inodes[d].direct[0] < |st.blocks|
    ensures var st' := O.Create(st, d, s, i, b, n, isDir);
            && st'.start == st.start && st'.inodeMap == st.inodeMap[i := true]
            && st'.blockMap == (if isDir then st.blockMap[b := true] else st.blockMap)
            && st'.inodes == st.inodes[i := Inode(isDir, 0, [if isDir then b else 0, 0, 0, 0, 0, 0], 0, 0)]
            && st'.blocks == (if isDir then st.blocks[b := ZeroBlock] else st.blocks)
                               [st.inodes[d].direct[0] := PutEnt(O.DirBlock(st, d), s, Dirent(true, isDir, i, n))]
  {
    hide PutEnt;
    assert NoInode.direct[0 := b] == [b, 0, 0, 0, 0, 0];
    var st1 := O.WithInode(st, i, true, O.NewInode(isDir));
    if isDir {
      var n' := Inode(true, 0, [b, 0, 0, 0, 0, 0], 0, 0);
      assert st1.inodes[i := n'] == st.inodes[i := n'];
      assert Attach(st1, i, Data(0), b, ZeroBlock).inodes == st.inodes[i := n'];
    }
  }
}
