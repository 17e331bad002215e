/** Writes and truncations of every kind touch one file only. */
module FrameTheorems {
  import opened Layout
  import opened State
  import opened FileWrite
  import opened WriteProofs
  import opened WriteTheorems
  import O = Ops
  import opened Tree
  import opened TreeProofs
  import opened Spec
  import opened OpTheorems

  /** What every write leaves alone: each other path, and whether this one is a file. */
  ghost predicate WriteFrame(t: AbsTree, path: O.Path, off: nat, rc: int, t': AbsTree) {
    if AbsWalk(t, path) < 0 then rc == AbsWalk(t, path) && t' == t
    else path in t && match t[path]
         case DirNode => rc == O.EISDIR && t' == t
         case FileNode(bytes) =>
           if off > |bytes| then rc == O.EINVAL && t' == t
           else path in t' && t'[path].FileNode? && t' == t[path := t'[path]]
  }

  /** Where the write starts; past the last logical block it falls back to block 6. */
  ghost predicate NoStaleIndex(st: Store, i: nat, off: nat, data: seq<byte>)
    requires Sized(st) && i < |st.inodes|
  {
    if off / 1024 < 65798 then WriteClean(st, i, off / 1024, off, data) else WriteClean(st, i, 6, 0, data)
  }

  lemma AnyWriteOwned(st: Store, ow: Owners, i: nat, off: nat, data: seq<byte>)
    requires Good(st, ow) && Sized(st) && Live(st, i) && NoStaleIndex(st, i, off, data)
    ensures var r := WriteFile(st, i, off, data);
            OthersSame(st, r.st, i) && r.st.inodes[i].isDir == st.inodes[i].isDir && i < |r.st.inodes|
  {
    hide Owned, Leaked, WriteClean, WriteFrom;
    if off / 1024 < 65798 {
      var ow' := WriteKeepsOwnership(st, ow, i, off / 1024, off, data, 0);
    } else {
      var ow' := WriteKeepsOwnership(st, ow, i, 6, 0, data, 0);
    }
  }

  /** One file changed, whatever became of its shape: the tree at other paths is the same. */
  lemma OneFileTree(st: Store, st': Store, w: Wit, i: nat, p: O.Path)
    requires InvW(st, w) && Live(st, i) && !st.inodes[i].isDir && OthersSame(st, st', i) && Walk(st, p) == i
    ensures TreeOf(st') == TreeOf(st)[p := NodeOf(st', i)]
  {
    hide TreeInv, TreeOf, Walk, NodeOf, Owned, Shapes, SameDirs, OthersSame;
    WalkLive(st, w, p);
    NotRoot(st, w, i);
    FileOnlySameDirs(st, st', w, i);
    SameDirsTree(st, st', w, w.ow);
    FileOnlyTree(st, st', w, w.(ow := w.ow), i, p);
  }

  /** Every write, append or not, successful or not. */
  lemma WriteTouchesOneFile(st: Store, w: Wit, p: O.Path, data: seq<byte>, off: nat)
    requires InvW(st, w) && Sized(st)
    requires var i := O.Resolve(st, 1, p);
             0 <= i < |st.inodes| && !st.inodes[i].isDir && off <= st.inodes[i].size ==> NoStaleIndex(st, i, off, data)
    ensures var r := O.Write(st, p, data, off); WriteFrame(TreeOf(st), p, off, r.rc, TreeOf(r.st))
  {
    hide TreeInv, TreeOf, Walk, O.Resolve, Owned, Shapes, WriteFile, NoStaleIndex, Contents, AbsWalk, OthersSame;
    var i := Resolved(st, w, p);
    if i >= 0 && !st.inodes[i].isDir && off <= st.inodes[i].size {
      AnyWriteOwned(st, w.ow, i, off, data);
      OneFileTree(st, WriteFile(st, i, off, data).st, w, i, p);
      assert NodeOf(WriteFile(st, i, off, data).st, i).FileNode?;
    }
  }

  /** Every truncation empties the named file and nothing else. */
  lemma TruncateMeetsTree(st: Store, w: Wit, p: O.Path, len: int)
    requires InvW(st, w)
    ensures var r := O.Truncate(st, p, len); TruncateSpec(TreeOf(st), p, len, r.rc, TreeOf(r.st))
  {
    hide TreeInv, TreeOf, Walk, O.Resolve, Owned, O.TruncFile, Shapes, Contents, OthersSame;
    var i := Resolved(st, w, p);
    if len == 0 && i >= 0 && !O.InodeAt(st, i).isDir {
      TruncOthers(st, i);
      OneFileTree(st, O.TruncFile(st, i), w, i, p);
    }
  }
}
