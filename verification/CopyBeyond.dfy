/** do_put beyond the maximal size, when a chunk starts exactly there: the call
    reports success and the file is broken. */
module CopyBeyond {
  import opened Layout
  import opened State
  import opened FileWrite
  import opened WriteProofs
  import opened WriteTheorems
  import opened WriteCost
  import O = Ops
  import opened Tree
  import opened TreeProofs
  import opened OpTheorems
  import opened CopyProofs
  import opened Overwrites
  import opened Misc
  import F = FileSystem

  /** Every logical block is there. */
  ghost predicate AllThere(st: Store, i: nat)
    requires i < |st.inodes|
  {
    forall l: nat :: l < 65798 ==> T(st, i, Data(l)) != 0
  }

  lemma StepThere(st: Store, ow: Owners, i: nat, l: nat, off: nat, data: seq<byte>) returns (ow': Owners)
    requires Good(st, ow) && Live(st, i) && AllThere(st, i) && l < 65798
    ensures StepClean(st, i, l)
    ensures var r := WriteStep(st, i, l, off, data);
            && r.Wrote? && Good(r.st, ow') && OthersSame(st, r.st, i) && Live(r.st, i) && AllThere(r.st, i)
            && r.st.inodes[i].size == st.inodes[i].size + r.k
  {
    hide Owned, Target, Leaked, Grow, GrowIndex, PutBytes, OthersSame;
    assert T(st, i, Data(l)) != 0;
    IndexThere(st, i, l);
    IsClean(st, i, l);
    ow' := StepOwned(st, ow, i, l, off, data);
    DataThere(st, i, l);
    StepSize(st, i, l, off, data);
    StepBlocks(st, ow, i, l, off, data);
  }

  lemma IsClean(st: Store, i: nat, l: nat)
    requires Sized(st) && i < |st.inodes| && l < 65798 && T(st, i, Data(l)) != 0
    ensures StepClean(st, i, l)
  {
    TargetCell(st.inodes[i], st.blocks, Data(l));
    if 262 <= l { TargetCell(st.inodes[i], st.blocks, OuterOf(l)); }
  }

  lemma DataThere(st: Store, i: nat, l: nat)
    requires Sized(st) && i < |st.inodes| && l < 65798 && T(st, i, Data(l)) != 0
    ensures Grow(st, i, Data(l)) == Ok(st)
  {
    hide Target;
  }

  /** A write over blocks that are all there runs to the end of the data or of
      the blocks. */
  lemma {:induction false} WriteThere(st: Store, ow: Owners, i: nat, l: nat, off: nat, data: seq<byte>,
                                      done: nat) returns (ow': Owners)
    requires Good(st, ow) && Sized(st) && Live(st, i) && AllThere(st, i)
    ensures var r := WriteFrom(st, i, l, off, data, done);
            && r.rc >= done && Good(r.st, ow') && OthersSame(st, r.st, i) && Live(r.st, i) && AllThere(r.st, i)
            && r.st.inodes[i].size == st.inodes[i].size + (r.rc - done)
            && (l < 65798 && data != [] ==> r.rc > done)
    decreases |data|, if l < 65798 then 65798 - l else 0
  {
    hide WriteStep, StepClean, Good, OthersSame, AllThere;
    ow' := ow;
    OthersRefl(st, i);
    if l < 65798 {
      ow' := StepThere(st, ow, i, l, off, data);
      var s := WriteStep(st, i, l, off, data);
      GoodSized(s.st, ow');
      OthersSizes(st, s.st, i);
      if s.k < |data| {
        ow' := WriteThere(s.st, ow', i, l + 1, NextOff(l, off, s.tb), data[s.k..], done + s.k);
        OthersSameTrans(st, s.st, WriteFrom(s.st, i, l + 1, NextOff(l, off, s.tb), data[s.k..], done + s.k).st, i);
      }
    }
  }

  /** path names file i, which has every block and at least the maximal size. */
  ghost predicate Overfull(st: Store, w: Wit, path: O.Path, i: nat, n: nat) {
    && Good(st, w.ow) && Sized(st) && TreeInv(st, w) && Live(st, i) && !st.inodes[i].isDir && O.Resolve(st, 1, path) == i
    && st.inodes[i].size == n >= MAX_BYTES && AllThere(st, i)
  }

  lemma OverfullWrite(st: Store, w: Wit, path: O.Path, i: nat, n: nat, chunk: seq<byte>) returns (w': Wit)
    requires Overfull(st, w, path, i, n) && chunk != []
    ensures var r := O.Write(st, path, chunk, n); r.rc > 0 && Overfull(r.st, w', path, i, n + r.rc)
  {
    hide TreeInv, Walk, O.Resolve, Good, WriteFrom, AllThere, OthersSame, SameDirs;
    var ow' := WriteThere(st, w.ow, i, 6, 0, chunk, 0);
    var r := WriteFrom(st, i, 6, 0, chunk, 0);
    w' := w.(ow := ow');
    assert O.Write(st, path, chunk, n) == r by { OverfullIs(st, w, path, i, n, chunk); }
    OthersSizes(st, r.st, i);
    OverfullResolve(st, w, path, i, r.st, ow');
    GoodSized(r.st, ow');
    OthersKind(st, r.st, i);
  }

  lemma OthersKind(a: Store, b: Store, i: nat)
    requires i < |a.inodes| && OthersSame(a, b, i)
    ensures i < |b.inodes| && b.inodes[i].isDir == a.inodes[i].isDir
  {
  }

  lemma OverfullIs(st: Store, w: Wit, path: O.Path, i: nat, n: nat, chunk: seq<byte>)
    requires Overfull(st, w, path, i, n)
    ensures O.Write(st, path, chunk, n) == WriteFrom(st, i, 6, 0, chunk, 0)
  {
    hide O.Resolve, Good, TreeInv, WriteFrom, AllThere;
    assert n / 1024 >= 65798;
  }

  lemma OverfullResolve(st: Store, w: Wit, path: O.Path, i: nat, s: Store, ow': Owners)
    requires TreeInv(st, w) && Live(st, i) && !st.inodes[i].isDir && O.Resolve(st, 1, path) == i && OthersSame(st, s, i)
    ensures TreeInv(s, w.(ow := ow')) && O.Resolve(s, 1, path) == i
  {
    hide TreeInv, Walk, O.Resolve, OthersSame;
    ResolveIsWalk(st, w, path);
    NotRoot(st, w, i);
    FileOnlySameDirs(st, s, w, i);
    SameDirsTree(st, s, w, ow');
    SameDirsWalk(st, s, w, path);
    ResolveIsWalk(s, w.(ow := ow'), path);
  }

  /** The loop goes on to report success; the file ends up longer than it can be. */
  lemma {:induction false} BeyondLoop(st: Store, w: Wit, path: O.Path, i: nat, content: seq<byte>, blksiz: nat, offset: nat)
    requires Overfull(st, w, path, i, offset) && 0 < blksiz && offset < |content|
    ensures var r := CopyLoop(st, path, content, blksiz, offset); r.rc == 0 && i < |r.st.inodes| && r.st.inodes[i].size > MAX_BYTES
    decreases |content| - offset
  {
    hide TreeInv, O.Resolve, Good, AllThere, O.Write, CopyLoop;
    var len := Min(blksiz, |content| - offset);
    var chunk := content[offset..offset + len];
    CopyTurn(st, path, content, blksiz, offset);
    var w' := OverfullWrite(st, w, path, i, offset, chunk);
    var r := O.Write(st, path, chunk, offset);
    if r.rc == len {
      if offset + len < |content| { BeyondLoop(r.st, w', path, i, content, blksiz, offset + len); }
      else { CopyTurn(r.st, path, content, blksiz, offset + len); }
    }
  }

  lemma CopiedFull(st: Store, path: O.Path, i: nat, content: seq<byte>, tree: AbsTree, free: int) returns (w: Wit)
    requires Copied(st, path, i, content, MAX_BYTES, tree, free)
    ensures Overfull(st, w, path, i, MAX_BYTES)
  {
    hide TreeInv, TreeOf, FreeBlocks, Clean, Owned, O.Resolve, Contents, Tight, TotalBlocks, DataBlocks, T, Shape;
    w :| InvW(st, w);
    assert |Contents(st, i)| == st.inodes[i].size;
    ShapeOf(st, w, i);
    FullShape(st, i);
  }

  lemma FullShape(st: Store, i: nat)
    requires i < |st.inodes| && Shape(st, i) && st.inodes[i].size == MAX_BYTES
    ensures AllThere(st, i)
  {
    hide T;
  }

  /** The copy loop of do_put over a content beyond the maximal size, when the
      chunk size divides that: it returns 0 exactly when the blocks suffice for
      the part that fits, and then leaves a file longer than it can be. */
  lemma {:induction false} PutBeyond(st: Store, path: O.Path, i: nat, content: seq<byte>, blksiz: nat, offset: nat,
                                     tree: AbsTree, free: int)
    requires Copied(st, path, i, Kept(content), offset, tree, free) && 0 < blksiz && |content| > MAX_BYTES
    requires MAX_BYTES % blksiz == 0 && offset % blksiz == 0 && offset <= MAX_BYTES && TotalBlocks(DataBlocks(offset)) <= free
    ensures Sized(st)
    ensures var r := CopyLoop(st, path, content, blksiz, offset);
            && (r.rc == 0 <==> TotalBlocks(DataBlocks(MAX_BYTES)) <= free)
            && (r.rc == 0 ==> i < |r.st.inodes| && !Shape(r.st, i))
            && (r.rc != 0 ==> r.rc == ENOSPC)
    decreases MAX_BYTES - offset
  {
    hide Copied, Kept, TreeOf, Partial, CopyLoop, O.Write, TotalBlocks, DataBlocks, F.WriteReady, AppendOk, O.Resolve, Overfull;
    KeptFits(content);
    CopiedSized(st, path, i, Kept(content), offset, tree, free);
    if offset == MAX_BYTES {
      var w := CopiedFull(st, path, i, Kept(content), tree, free);
      BeyondLoop(st, w, path, i, content, blksiz, offset);
      TooLong(CopyLoop(st, path, content, blksiz, offset).st, i);
    } else {
      WholeChunk(offset, blksiz);
      NextMultiple(offset, blksiz);
      CopyTurn(st, path, content, blksiz, offset);
      ChunkGoes(st, path, i, content, offset, blksiz, tree, free);
      var r := O.Write(st, path, content[offset..offset + blksiz], offset);
      MoreBlocks(offset + blksiz, MAX_BYTES);
      if r.rc >= 0 { PutBeyond(r.st, path, i, content, blksiz, offset + blksiz, tree, free); }
    }
  }

  lemma TooLong(st: Store, i: nat)
    requires i < |st.inodes| && st.inodes[i].size > MAX_BYTES
    ensures !Shape(st, i)
  {
  }

  lemma WholeChunk(offset: nat, blksiz: nat)
    requires 0 < blksiz && MAX_BYTES % blksiz == 0 && offset % blksiz == 0 && offset < MAX_BYTES
    ensures offset + blksiz <= MAX_BYTES
  {
    var d := MAX_BYTES / blksiz - offset / blksiz;
    assert blksiz * d == MAX_BYTES - offset;
    if d <= 0 { Multiple(blksiz, d - 1); assert false; }
    Multiple(blksiz, d);
  }

  /** The whole do_put. */
  lemma DoPutBeyond(st: Store, path: O.Path, content: seq<byte>, blksiz: nat)
    requires Inv(st) && O.Roomy(st) && path != [] && NameOk(O.Last(path)) && Clean(st, MAX_BYTES) && 0 < blksiz
    requires |content| > MAX_BYTES && MAX_BYTES % blksiz == 0 && O.Mknod(st, path, false).rc == 0
    ensures Sized(O.Mknod(st, path, false).st)
    ensures var s := O.Mknod(st, path, false).st;
            var r, i := CopyLoop(s, path, content, blksiz, 0), O.Resolve(s, 1, path);
            && (r.rc == 0 <==> TotalBlocks(DataBlocks(MAX_BYTES)) <= FreeBlocks(st))
            && (r.rc == 0 ==> 0 <= i < |r.st.inodes| && !Shape(r.st, i))
            && (r.rc != 0 ==> r.rc == ENOSPC)
  {
    hide Inv, O.Mknod, O.Resolve, NameOk, Clean, TreeOf, FreeBlocks, CopyLoop, Holds, Copied, TotalBlocks, DataBlocks, Kept;
    MknodHolds(st, path, MAX_BYTES);
    KeptFits(content);
    var s := O.Mknod(st, path, false).st;
    var i := O.Resolve(s, 1, path);
    CreatedNode(s, path, i);
    CopyStart(s, path, i, Kept(content), TreeOf(s), FreeBlocks(st));
    NothingYet();
    PutBeyond(s, path, i, content, blksiz, 0, TreeOf(s), FreeBlocks(st));
  }

  lemma CreatedNode(s: Store, path: O.Path, i: int)
    requires Holds(s, path, i, [])
    ensures TreeOf(s) == TreeOf(s)[path := FileNode([])] && i >= 0
  {
    hide InvW, TreeOf, O.Resolve, Tight, Contents;
    var w :| InvW(s, w);
    var r := Resolved(s, w, path);
  }
}
