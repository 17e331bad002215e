/** What each operation promises on the tree of names and byte strings: its
    return code and the tree after it. */
module Spec {
  import opened Layout
  import opened State
  import opened FileWrite
  import opened Ops
  import opened Tree
  import opened TreeTheorems

  /** 0 when the path is there, otherwise the error of the first prefix that is
      missing or not a directory. */
  ghost function AbsWalk(t: AbsTree, q: Path): int
    decreases |q|, 0
  {
    if q == [] then 0
    else
      var d := AbsEnter(t, Init(q));
      if d < 0 then d else if q in t then 0 else ENOENT
  }

  ghost function AbsEnter(t: AbsTree, q: Path): int
    decreases |q|, 1
  {
    var r := AbsWalk(t, q);
    if r < 0 then r else if q in t && t[q].DirNode? then 0 else ENOTDIR
  }

  ghost predicate MknodSpec(t: AbsTree, path: Path, isDir: bool, rc: int, t': AbsTree)
    requires path != []
  {
    var e := AbsEnter(t, Init(path));
    if e < 0 then rc == e && t' == t
    else if path in t then rc == EEXIST && t' == t
    else (rc == ENOSPC && t' == t) ||
         (rc == 0 && t' == t[path := if isDir then DirNode else FileNode([])])
  }

  ghost predicate TruncateSpec(t: AbsTree, path: Path, len: int, rc: int, t': AbsTree) {
    if len != 0 then rc == EINVAL && t' == t
    else if AbsWalk(t, path) < 0 then rc == AbsWalk(t, path) && t' == t
    else path in t && if t[path].DirNode? then rc == EISDIR && t' == t
                      else rc == 0 && t' == t[path := FileNode([])]
  }

  ghost predicate UnlinkSpec(t: AbsTree, path: Path, rc: int, t': AbsTree) {
    if AbsWalk(t, path) < 0 then rc == AbsWalk(t, path) && t' == t
    else path in t && if t[path].DirNode? then rc == EISDIR && t' == t
                      else rc == 0 && t' == t - {path}
  }

  ghost predicate HasChild(t: AbsTree, path: Path) { exists n: Name :: path + [n] in t }

  ghost predicate RmdirSpec(t: AbsTree, path: Path, rc: int, t': AbsTree) {
    if AbsWalk(t, path) < 0 then rc == AbsWalk(t, path) && t' == t
    else path in t && if !t[path].DirNode? then rc == ENOTDIR && t' == t
                      else if HasChild(t, path) then rc == ENOTEMPTY && t' == t
                      else rc == 0 && t' == t - {path}
  }

  /** A name clash is reported for every existing destination; an unused slot
      may cause one more. */
  ghost predicate RenameSpec(t: AbsTree, src: Path, dst: Path, rc: int, t': AbsTree)
    requires src != [] && dst != []
  {
    if AbsWalk(t, src) < 0 then rc == AbsWalk(t, src) && t' == t
    else if Init(src) != Init(dst) then rc == EINVAL && t' == t
    else (rc == EEXIST && t' == t) ||
         (rc == 0 && dst !in t && t' == Moved(t, Init(src), Last(src), Last(dst)))
  }

  /** Appending: all of the data unless space or the last logical block runs out. */
  ghost predicate AppendSpec(t: AbsTree, path: Path, data: seq<byte>, off: nat, rc: int, t': AbsTree) {
    if AbsWalk(t, path) < 0 then rc == AbsWalk(t, path) && t' == t
    else path in t && match t[path]
         case DirNode => rc == EISDIR && t' == t
         case FileNode(bytes) =>
           if off > |bytes| then rc == EINVAL && t' == t
           else exists k: nat :: Appended(t, path, bytes, data, k, rc, t')
  }

  /** k bytes of data were added to the file. */
  ghost predicate Appended(t: AbsTree, path: Path, bytes: seq<byte>, data: seq<byte>, k: nat, rc: int, t': AbsTree) {
    && k <= |data| && t' == t[path := FileNode(bytes + data[..k])]
    && (rc == ENOSPC || (rc == k && (k == |data| || |bytes| + k == MAX_BYTES)))
  }
}
