/** What fs_read returns, in terms of the tree of names and byte strings. */
module ReadTheorems {
  import opened State
  import opened FileWrite
  import opened WriteProofs
  import O = Ops
  import opened Tree
  import opened Spec
  import opened OpTheorems
  import opened WriteSteps
  import opened FileRead

  /** The slice asked for.  The device's assertion may stop a read instead, but
      only one that runs to the end of a file whose size is a boundary. */
  ghost predicate ReadSpec(t: AbsTree, path: O.Path, len: nat, off: nat, r: Outcome) {
    if AbsWalk(t, path) < 0 then r == Code(AbsWalk(t, path))
    else if off / 1024 >= 65798 then r == Bytes([])
    else path in t && match t[path]
         case DirNode => r == Code(O.EISDIR)
         case FileNode(bytes) =>
           if off > |bytes| then r == Aborted || r == Bytes([])
           else || r == Bytes(bytes[off..off + Min(len, |bytes| - off)])
                || (r == Aborted && off + len >= |bytes| && BoundarySize(|bytes|))
  }

  /** What the method promises of the store. */
  ghost predicate ReadResult(st: Store, path: O.Path, len: nat, off: nat, r: Outcome) {
    var i := O.Resolve(st, 1, path);
    if i < 0 then r == Code(i)
    else if off / 1024 >= 65798 then r == Bytes([])
    else if O.InodeAt(st, i).isDir then r == Code(O.EISDIR)
    else i < |st.inodes| && ReadMeets(st, i, off, len, r)
  }

  /** fs_read delivers exactly the slice of the file at that path. */
  lemma ReadMeetsSpec(st: Store, path: O.Path, len: nat, off: nat, r: Outcome)
    requires Inv(st) && ReadResult(st, path, len, off, r)
    ensures ReadSpec(TreeOf(st), path, len, off, r)
  {
    hide InvW, TreeOf, O.Resolve, AbsWalk, Contents, ReadMeets;
    var w :| InvW(st, w);
    var i := Resolved(st, w, path);
    if i >= 0 && !st.inodes[i].isDir && off / 1024 < 65798 {
      FileReading(st, w, i);
      SliceOrBoundary(st, i, len, off, r);
    }
  }

  lemma FileReading(st: Store, w: Wit, i: nat)
    requires InvW(st, w) && Live(st, i)
    ensures Sound(st) && Shape(st, i)
  {
    hide TreeInv, Shape, Owned;
    assert Good(st, w.ow);
  }

  lemma SliceOrBoundary(st: Store, i: nat, len: nat, off: nat, r: Outcome)
    requires Sound(st) && Live(st, i) && Shape(st, i) && ReadMeets(st, i, off, len, r) && off / 1024 < 65798
    ensures var bytes := Contents(st, i);
            if off > |bytes| then r == Aborted || r == Bytes([])
            else || r == Bytes(bytes[off..off + Min(len, |bytes| - off)])
                 || (r == Aborted && off + len >= |bytes| && BoundarySize(|bytes|))
  {
    hide Sound, Shape, IndexMissing;
    assert |Contents(st, i)| == st.inodes[i].size;
    hide Contents;
    if off <= st.inodes[i].size && ReadAborts(st, i, off, len) {
      AbortsAtIndexBoundary(st, i, off, len);
      MissingIndexed(st, i, ReadEnd(st.inodes[i].size, off, len) / 1024);
    }
  }

  lemma MissingIndexed(st: Store, i: nat, l: nat)
    requires i < |st.inodes| && IndexMissing(st, i, l)
    ensures 6 <= l < 65798
  {
  }
}
