/** Appends that adopt leaked blocks, seen from the tree. */
module StaleTrees {
  import opened Layout
  import opened State
  import opened FileWrite
  import opened WriteProofs
  import opened WriteTheorems
  import O = Ops
  import opened Tree
  import opened Spec
  import opened OpTheorems
  import opened WriteLoops
  import opened StaleIndex
  import opened StaleAppends
  import opened StaleNeeds
  import opened StaleWrites

  /** The old words of the second-level blocks the append will take are null or,
      where the file will reach, name leaked blocks, each one once. */
  ghost predicate Adoptive(st: Store, i: nat, data: seq<byte>)
    requires Sized(st) && i < |st.inodes|
  {
    var size := st.inodes[i].size;
    var bs := FileTakes(st, i, size, data);
    && (Aligned(st, i) || NullWords(st, bs))
    && exists ow :: Good(st, ow) && Adopts(st, ow, bs, Usable(st, i, LoopsFile(st, i, size, data).st.inodes[i].size))
  }

  /** Such an append keeps the invariant and its promise on the tree, whatever
      its length; the device does not stop it and no metadata is written over. */
  lemma AdoptiveAppend(st: Store, w: Wit, p: O.Path, data: seq<byte>) returns (w': Wit)
    requires O.Roomy(st) && InvW(st, w)
    requires var i := O.Resolve(st, 1, p);
             0 <= i < |st.inodes| && !st.inodes[i].isDir && st.inodes[i].size < MAX_BYTES && Adoptive(st, i, data)
    ensures var off := st.inodes[O.Resolve(st, 1, p)].size;
            var r := WriteLoops.Write(st, p, data, off);
            r.Ended? && !r.torn && InvW(r.st, w') && AppendSpec(TreeOf(st), p, data, off, r.rc, TreeOf(r.st))
  {
    hide TreeInv, TreeOf, Walk, Owned, Contents, Shape, OthersSame, Spec.Appended, Adopts, FileTakes, LoopsFile, O.Resolve,
      Aligned, NullWords, Usable, FirstMissing, AbsWalk;
    var i: nat := O.Resolve(st, 1, p);
    var off := st.inodes[i].size;
    var z := Resolved(st, w, p);
    ShapeOf(st, w, i);
    var bs := FileTakes(st, i, off, data);
    var r := LoopsFile(st, i, off, data);
    var ow :| Good(st, ow) && Adopts(st, ow, bs, Usable(st, i, r.st.inodes[i].size));
    AppendNeedsAndFills(st, ow, i, data);
    assert StaleWrites.Appended(st, i, r, bs, data) && Reported(st, i, r, data);
    w' := ReportedTree(st, w, p, i, r, bs, data);
    assert WriteLoops.Write(st, p, data, off) == r;
    AppendSpecHolds(TreeOf(st), p, data, off, r.rc, TreeOf(r.st));
  }

  lemma ReportedTree(st: Store, w: Wit, p: O.Path, i: nat, r: Loop, bs: seq<nat>, data: seq<byte>) returns (w': Wit)
    requires InvW(st, w) && O.Resolve(st, 1, p) == i && Live(st, i) && !st.inodes[i].isDir && FirstMissing(st, i) <= 256
    requires StaleWrites.Appended(st, i, r, bs, data) && Reported(st, i, r, data)
    ensures InvW(r.st, w') && p in TreeOf(st) && TreeOf(st)[p].FileNode? && |TreeOf(st)[p].bytes| == st.inodes[i].size
    ensures exists k: nat :: Spec.Appended(TreeOf(st), p, TreeOf(st)[p].bytes, data, k, r.rc, TreeOf(r.st))
  {
    hide TreeInv, TreeOf, Walk, Owned, Contents, Shape, OthersSame, Spec.Appended, O.Resolve, FirstMissing, TakenStay, Shapes;
    var z := Resolved(st, w, p);
    var ow' :| Good(r.st, ow');
    assert |Contents(st, i)| == st.inodes[i].size;
    var k := r.st.inodes[i].size - st.inodes[i].size;
    w' := FileOnly(st, r.st, w, ow', i, p);
    SameKind(st, r.st, i);
    AppendedNow(TreeOf(st), p, Contents(st, i), data, k, r.rc, TreeOf(r.st));
  }

  lemma SameKind(a: Store, b: Store, i: nat)
    requires i < |a.inodes| && OthersSame(a, b, i)
    ensures i < |b.inodes| && b.inodes[i].isDir == a.inodes[i].isDir
  {
  }
}
