/** The directory and file operations of main.c as functions of the store. */
module Ops {
  import opened Layout
  import opened State
  import opened FileWrite

  type Path = seq<Name>

  const ENOENT: int := -2
  const EEXIST: int := -17
  const ENOTDIR: int := -20
  const EISDIR: int := -21
  const EINVAL: int := -22
  const ENOTEMPTY: int := -39

  // ---- directory scans ----

  /** What the loops over the 32 slots of a directory block look for. */
  datatype Probe = Named(n: Name) | Unused | OfInode(i: nat) | AnyNamed(n: Name) | Used

  predicate Hit(e: Dirent, p: Probe) {
    match p
    case Named(n) => e.valid && e.name == n
    case Unused => !e.valid
    case OfInode(i) => e.inode == i
    case AnyNamed(n) => e.name == n
    case Used => e.valid
  }

  /** The first slot from s on that is hit, 32 when there is none. */
  function Scan(b: Block, p: Probe, s: nat): (r: nat)
    requires s <= 32
    ensures s <= r <= 32 && (r < 32 ==> Hit(Ent(b, r), p))
    ensures forall x :: s <= x < r ==> !Hit(Ent(b, x), p)
    decreases 32 - s
  {
    if s == 32 || Hit(Ent(b, s), p) then s else Scan(b, p, s + 1)
  }

  function InodeAt(st: Store, i: nat): Inode { if i < |st.inodes| then st.inodes[i] else NoInode }

  function DirBlock(st: Store, d: nat): Block { BlockAt(st.blocks, InodeAt(st, d).direct[0]) }

  function E(st: Store, d: nat, s: nat): Dirent
    requires s < 32
  {
    Ent(DirBlock(st, d), s)
  }

  // ---- path walking ----

  /** translate_path_to_inum from inode inum on. */
  function Resolve(st: Store, inum: nat, path: Path): int
    decreases |path|
  {
    if path == [] then inum
    else
      var s := Scan(DirBlock(st, inum), Named(path[0]), 0);
      if s == 32 then ENOENT
      else if |path| > 1 && !E(st, inum, s).isDir then ENOTDIR
      else Resolve(st, E(st, inum, s).inode, path[1..])
  }

  /** get_parent_inum from inode inum on: every component but the last. */
  function ParentOf(st: Store, inum: nat, path: Path): int
    decreases |path|
  {
    if path == [] then EINVAL
    else if |path| == 1 then inum
    else
      var s := Scan(DirBlock(st, inum), Named(path[0]), 0);
      if s == 32 then ENOENT
      else if !E(st, inum, s).isDir then ENOTDIR
      else ParentOf(st, E(st, inum, s).inode, path[1..])
  }

  // ---- the operations ----

  function SetDirBlock(st: Store, d: nat, b: Block): Store {
    var p := InodeAt(st, d).direct[0];
    if p < |st.blocks| then st.(blocks := st.blocks[p := b]) else st
  }

  function NewInode(isDir: bool): Inode { NoInode.(isDir := isDir) }

  function WithInode(st: Store, i: nat, used: bool, n: Inode): Store
    requires i < |st.inodes| && i < |st.inodeMap|
  {
    st.(inodeMap := st.inodeMap[i := used], inodes := st.inodes[i := n])
  }

  ghost predicate Roomy(st: Store) { Sized(st) && 64 <= |st.inodes| <= |st.inodeMap| }

  function Last(path: Path): Name
    requires path != []
  {
    path[|path| - 1]
  }

  /** fs_mknod, and fs_mkdir when isDir. */
  function Mknod(st: Store, path: Path, isDir: bool): (r: Result)
    requires Roomy(st) && path != [] && NameOk(Last(path))
  {
    var child := Resolve(st, 1, path);
    var parent := ParentOf(st, 1, path);
    if parent < 0 then Result(st, parent)
    else if !InodeAt(st, parent).isDir then Result(st, ENOTDIR)
    else if child > 0 then Result(st, EEXIST)
    else
      var i := FirstFree(st.inodeMap, 0, 64);
      var s := Scan(DirBlock(st, parent), Unused, 0);
      var b := FirstFree(st.blockMap, st.start, |st.blocks|);
      if i == 64 || s == 32 || (isDir && b == |st.blocks|) then Result(st, ENOSPC)
      else Result(Create(st, parent, s, i, b, Last(path), isDir), 0)
  }

  /** The store after a successful create: the inode, the block of a new
      directory, and the entry in slot s of the parent. */
  function Create(st: Store, d: nat, s: nat, i: nat, b: nat, n: Name, isDir: bool): Store
    requires Roomy(st) && s < 32 && i < 64 && NameOk(n) && (isDir ==> b < |st.blocks|)
  {
    var st1 := WithInode(st, i, true, NewInode(isDir));
    var st2 := if isDir then Attach(st1, i, Data(0), b, ZeroBlock) else st1;
    SetDirBlock(st2, d, PutEnt(DirBlock(st, d), s, Dirent(true, isDir, i, n)))
  }

  // ---- truncate as written: see README ----

  function FreeBit(bm: seq<bool>, start: nat, b: nat): (r: seq<bool>)
    ensures |r| == |bm|
  {
    if start <= b < |bm| then bm[b := false] else bm
  }

  /** Free the entries of an index block up to the first null one. */
  function FreeRun(bm: seq<bool>, start: nat, b: Block, k: nat): (r: seq<bool>)
    requires k <= 256
    ensures |r| == |bm|
    decreases 256 - k
  {
    if k == 256 || Ptr(b, k) == 0 then bm
    else FreeRun(FreeBit(bm, start, Ptr(b, k)), start, b, k + 1)
  }

  /** The same for the double-indirect block, each second-level block with its entries. */
  function FreeOuter(bm: seq<bool>, start: nat, bl: seq<Block>, b: Block, k: nat): (r: seq<bool>)
    requires k <= 256
    ensures |r| == |bm|
    decreases 256 - k
  {
    if k == 256 || Ptr(b, k) < start || Ptr(b, k) == 0 then bm
    else
      var p := Ptr(b, k);
      FreeOuter(FreeBit(FreeRun(bm, start, BlockAt(bl, p), 0), start, p), start, bl, b, k + 1)
  }

  function TruncBits(st: Store, n: Inode): (r: seq<bool>)
    ensures |r| == |st.blockMap|
  {
    var bm1 := if n.indir1 >= st.start then FreeRun(st.blockMap, st.start, BlockAt(st.blocks, n.indir1), 0)
               else st.blockMap;
    if n.indir2 >= st.start then FreeOuter(bm1, st.start, st.blocks, BlockAt(st.blocks, n.indir2), 0) else bm1
  }

  /** Direct pointers are zeroed up to the first null one, before the call
      that would have freed them. */
  function ClearDirect(direct: seq<nat>, k: nat): (r: seq<nat>)
    requires k <= |direct|
    ensures |r| == |direct|
    decreases |direct| - k
  {
    if k == |direct| || direct[k] == 0 then direct else ClearDirect(direct[k := 0], k + 1)
  }

  function TruncFile(st: Store, i: nat): Store
    requires i < |st.inodes|
  {
    var n := st.inodes[i];
    st.(blockMap := TruncBits(st, n),
        inodes := st.inodes[i := n.(size := 0, direct := ClearDirect(n.direct, 0))])
  }

  function Truncate(st: Store, path: Path, len: int): (r: Result)
  {
    var i := Resolve(st, 1, path);
    if len != 0 then Result(st, EINVAL)
    else if i < 0 then Result(st, i)
    else if InodeAt(st, i).isDir then Result(st, EISDIR)
    else if i < |st.inodes| then Result(TruncFile(st, i), 0)
    else Result(st, 0)
  }

  function Unlink(st: Store, path: Path): (r: Result)
    requires Roomy(st)
  {
    var t := Truncate(st, path, 0);
    if t.rc < 0 || path == [] then t else UnlinkEntry(t.st, path)
  }

  /** fs_unlink after the truncation. */
  function UnlinkEntry(st: Store, path: Path): (r: Result)
    requires path != []
  {
    var d := ParentOf(st, 1, path);
    if d < 0 then Result(st, d)
    else
      var s := Scan(DirBlock(st, d), Named(Last(path)), 0);
      if s == 32 then Result(st, ENOENT)
      else
        var e := E(st, d, s);
        if e.isDir then Result(st, EISDIR)
        else if e.inode < |st.inodes| && e.inode < |st.inodeMap| && st.inodeMap[e.inode] then
          Result(SetDirBlock(WithInode(st, e.inode, false, st.inodes[e.inode].(size := 0)),
                             d, Invalidate(DirBlock(st, d), s)), 0)
        else Result(st, ENOENT)
  }

  function Rmdir(st: Store, path: Path): (r: Result)
    requires path != []
  {
    var c := Resolve(st, 1, path);
    var d := ParentOf(st, 1, path);
    if c < 0 then Result(st, c)
    else if !InodeAt(st, c).isDir then Result(st, ENOTDIR)
    else if Scan(DirBlock(st, c), Used, 0) < 32 then Result(st, ENOTEMPTY)
    else if c < |st.inodes| && c < |st.inodeMap| && 0 <= d then
      var st1 := st.(blockMap := FreeBit(st.blockMap, st.start, st.inodes[c].direct[0]));
      var s := Scan(DirBlock(st, d), OfInode(c), 0);
      if s == 32 then Result(st1.(inodes := st1.inodes[c := NoInode]), 0)
      else Result(SetDirBlock(WithInode(st1, c, false, NoInode), d, ClearEnt(DirBlock(st, d), s)), 0)
    else Result(st, 0)
  }

  /** fs_rename as written: the clash test looks at unused slots too, and the
      new name is copied over the old one without clearing it. */
  function Rename(st: Store, src: Path, dst: Path): (r: Result)
    requires src != [] || dst != []
    requires dst != [] ==> NameOk(Last(dst))
  {
    var d := ParentOf(st, 1, src);
    var c := Resolve(st, 1, src);
    if c < 0 then Result(st, c)
    else if d != ParentOf(st, 1, dst) then Result(st, EINVAL)
    else if d < 0 || dst == [] then Result(st, d)
    else if Scan(DirBlock(st, d), AnyNamed(Last(dst)), 0) < 32 then Result(st, EEXIST)
    else
      var s := Scan(DirBlock(st, d), OfInode(c), 0);
      if s == 32 then Result(st, 0)
      else Result(SetDirBlock(st, d, RenameEnt(DirBlock(st, d), s, Last(dst))), 0)
  }

  function Write(st: Store, path: Path, data: seq<byte>, off: nat): (r: Result)
    requires Sized(st)
  {
    var i := Resolve(st, 1, path);
    if i < 0 then Result(st, i)
    else if InodeAt(st, i).isDir then Result(st, EISDIR)
    else if off > InodeAt(st, i).size then Result(st, EINVAL)
    else if i < |st.inodes| then WriteFile(st, i, off, data)
    else Result(st, 0)
  }
}
