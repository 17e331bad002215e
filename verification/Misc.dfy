/** do_put and do_get of misc.c: copying a file in and out in chunks. */
module Misc {
  import opened Layout
  import opened State
  import opened FileWrite
  import opened WriteTheorems
  import opened WriteCost
  import O = Ops
  import opened Tree
  import opened Spec
  import opened OpTheorems
  import opened FileRead
  import opened FrameTheorems
  import opened CopyProofs
  import F = FileSystem
  import WriteLoops
  import WriteLog

  /** The state of the copy loop after offset bytes of content. */
  ghost predicate Copied(st: Store, path: O.Path, i: int, content: seq<byte>, offset: nat, tree: AbsTree, free: int) {
    && offset <= |content| && Holds(st, path, i, content[..offset]) && Clean(st, |content|)
    && TreeIs(TreeOf(st), tree, path, content[..offset])
    && FreeBlocks(st) == free - TotalBlocks(DataBlocks(offset))
  }

  /** tree with the prefix of content at path that free blocks pay for. */
  ghost predicate Partial(t: AbsTree, path: O.Path, content: seq<byte>, tree: AbsTree, free: int) {
    TreePrefix(t, tree, path, [], content, free)
  }

  lemma ChunkCopied(st: Store, path: O.Path, i: int, content: seq<byte>, offset: nat, n: nat, tree: AbsTree, free: int)
    requires Copied(st, path, i, content, offset, tree, free)
    requires 0 < n && offset + n <= |content| <= MAX_BYTES
    ensures var chunk := content[offset..offset + n];
            var r := O.Write(st, path, chunk, offset);
            && O.Roomy(st) && AppendOk(st, O.Resolve(st, 1, path), chunk, offset) && F.WriteReady(st, path, chunk, offset)
            && (r.rc >= 0 <==> TotalBlocks(DataBlocks(offset + n)) <= free)
            && (r.rc >= 0 ==> r.rc == n && Copied(r.st, path, i, content, offset + n, tree, free))
            && (r.rc < 0 ==> r.rc == ENOSPC && Partial(TreeOf(r.st), path, content, tree, free))
  {
    hide Holds, Clean, TreeOf, FreeBlocks, O.Write, O.Resolve, AppendOk, TotalBlocks, DataBlocks, Partial, TreeIs, TreePrefix,
      F.WriteReady;
    var chunk := content[offset..offset + n];
    HoldsRoomy(st, path, i, content[..offset]);
    HeldIsFile(st, path, i, content[..offset]);
    ChunkOutcome(st, path, i, content, offset, n, tree, free);
    ChunkPrice(st, path, i, content, offset, n);
    ReadyToWrite(st, path, chunk, offset);
    assert content[..offset] + chunk == content[..offset + n];
  }

  lemma ChunkPrice(st: Store, path: O.Path, i: nat, content: seq<byte>, offset: nat, n: nat)
    requires 0 < n && offset + n <= |content| <= MAX_BYTES && Holds(st, path, i, content[..offset]) && O.Roomy(st)
    requires Clean(st, |content|)
    ensures O.Write(st, path, content[offset..offset + n], offset).rc >= 0 <==> Price(offset, offset + n) <= FreeBlocks(st)
  {
    hide Holds, Clean, TreeOf, FreeBlocks, O.Write, O.Resolve, AppendOk, Price, Partial, TreeIs, TreePrefix;
    var bytes, chunk := content[..offset], content[offset..offset + n];
    assert |bytes| == offset && |bytes| + |chunk| == offset + n;
    ChunkPriceOf(st, path, i, bytes, chunk, |content|, O.Write(st, path, chunk, offset).rc);
  }

  lemma ChunkPriceOf(st: Store, path: O.Path, i: nat, bytes: seq<byte>, chunk: seq<byte>, n: nat, rc: int)
    requires Holds(st, path, i, bytes) && O.Roomy(st) && chunk != [] && |bytes| + |chunk| <= n <= MAX_BYTES && Clean(st, n)
    requires rc == O.Write(st, path, chunk, |bytes|).rc
    ensures rc >= 0 <==> Price(|bytes|, |bytes| + |chunk|) <= FreeBlocks(st)
  {
    hide Holds, Clean, TreeOf, FreeBlocks, O.Write, O.Resolve, AppendOk, Price, Partial, TreeIs, TreePrefix;
    ChunkStep(st, path, i, bytes, chunk, n);
  }

  lemma ChunkOutcome(st: Store, path: O.Path, i: nat, content: seq<byte>, offset: nat, n: nat, tree: AbsTree, free: int)
    requires 0 < n && offset + n <= |content| <= MAX_BYTES && Holds(st, path, i, content[..offset]) && O.Roomy(st)
    requires free == FreeBlocks(st) + TotalBlocks(DataBlocks(offset))
    requires Clean(st, |content|) && TreeIs(TreeOf(st), tree, path, content[..offset])
    ensures var chunk := content[offset..offset + n];
            var r := O.Write(st, path, chunk, offset);
            var price := Price(offset, offset + n);
            && AppendOk(st, O.Resolve(st, 1, path), chunk, offset)
            && O.Roomy(r.st) && Clean(r.st, |content|)
            && (r.rc >= 0 ==> && r.rc == n && Holds(r.st, path, i, content[..offset] + chunk)
                              && FreeBlocks(r.st) == FreeBlocks(st) - price
                              && TreeIs(TreeOf(r.st), tree, path, content[..offset + n]))
            && (r.rc < 0 ==> r.rc == ENOSPC && Partial(TreeOf(r.st), path, content, tree, free))
  {
    hide Holds, Clean, TreeOf, FreeBlocks, O.Write, O.Resolve, AppendOk, Price, Partial, TreeIs, TreePrefix, TotalBlocks,
      DataBlocks;
    var bytes, chunk := content[..offset], content[offset..offset + n];
    assert |bytes| == offset && |chunk| == n;
    var r := O.Write(st, path, chunk, offset);
    ChunkIs(st, path, i, bytes, chunk, offset, |content|, r);
    ChunkTrees(TreeOf(r.st), TreeOf(st), tree, path, content, offset, n, r.rc, free);
  }

  lemma ChunkIs(st: Store, path: O.Path, i: nat, bytes: seq<byte>, chunk: seq<byte>, offset: nat, m: nat, r: Result)
    requires Holds(st, path, i, bytes) && O.Roomy(st) && chunk != [] && offset == |bytes| && offset + |chunk| <= m <= MAX_BYTES
    requires Clean(st, m) && r == O.Write(st, path, chunk, offset)
    ensures AppendOk(st, O.Resolve(st, 1, path), chunk, offset)
    ensures O.Roomy(r.st) && Clean(r.st, m) && (r.rc < 0 ==> r.rc == ENOSPC)
    ensures r.rc >= 0 ==> && r.rc == |chunk| && Holds(r.st, path, i, bytes + chunk)
                          && FreeBlocks(r.st) == FreeBlocks(st) - Price(offset, offset + |chunk|)
                          && TreeIs(TreeOf(r.st), TreeOf(st), path, bytes + chunk)
    ensures r.rc < 0 ==> TreePrefix(TreeOf(r.st), TreeOf(st), path, bytes, chunk, FreeBlocks(st) + TotalBlocks(DataBlocks(offset)))
  {
    hide Holds, Clean, TreeOf, FreeBlocks, O.Write, O.Resolve, AppendOk, TreeIs, TreePrefix, TotalBlocks, DataBlocks, Inv,
      O.Roomy, AllThatFits;
    ChunkStep(st, path, i, bytes, chunk, m);
  }

  lemma ChunkTrees(t: AbsTree, t0: AbsTree, tree: AbsTree, path: O.Path, content: seq<byte>, offset: nat, n: nat, rc: int,
                    free: int)
    requires offset + n <= |content| && TreeIs(t0, tree, path, content[..offset])
    requires rc >= 0 ==> TreeIs(t, t0, path, content[..offset] + content[offset..offset + n])
    requires rc < 0 ==> TreePrefix(t, t0, path, content[..offset], content[offset..offset + n], free)
    ensures rc >= 0 ==> TreeIs(t, tree, path, content[..offset + n])
    ensures rc < 0 ==> Partial(t, path, content, tree, free)
  {
    hide TreeIs, TreePrefix, Partial;
    if rc >= 0 { Override(t, t0, tree, path, content, offset, n); }
    else { PartialNow(t, t0, tree, path, content, offset, n, free); }
  }

  lemma Override(t: AbsTree, t0: AbsTree, tree: AbsTree, path: O.Path, content: seq<byte>, offset: nat, n: nat)
    requires offset + n <= |content| && TreeIs(t0, tree, path, content[..offset])
    requires TreeIs(t, t0, path, content[..offset] + content[offset..offset + n])
    ensures TreeIs(t, tree, path, content[..offset + n])
  {
    assert content[..offset] + content[offset..offset + n] == content[..offset + n];
  }

  lemma PartialNow(t: AbsTree, t0: AbsTree, tree: AbsTree, path: O.Path, content: seq<byte>, offset: nat, n: nat, free: int)
    requires offset + n <= |content| && TreeIs(t0, tree, path, content[..offset])
    requires TreePrefix(t, t0, path, content[..offset], content[offset..offset + n], free)
    ensures Partial(t, path, content, tree, free)
  {
    hide TreeIs, AllThatFits;
    var bytes, chunk := content[..offset], content[offset..offset + n];
    var k: nat :| k <= |chunk| && AllThatFits(|bytes| + k, free) && TreeIs(t, t0, path, bytes + chunk[..k]);
    assert chunk[..k] == content[offset..offset + k];
    Override(t, t0, tree, path, content, offset, k);
    assert [] + content[..offset + k] == content[..offset + k];
    assert offset + k <= |content| && AllThatFits(0 + (offset + k), free) && TreeIs(t, tree, path, [] + content[..offset + k]);
  }

  lemma HoldsRoomy(st: Store, path: O.Path, i: int, bytes: seq<byte>)
    requires Holds(st, path, i, bytes)
    ensures O.Roomy(st) && Inv(st)
  {
    hide Inv;
  }

  lemma ReadyToWrite(st: Store, path: O.Path, data: seq<byte>, off: nat)
    requires O.Roomy(st) && AppendOk(st, O.Resolve(st, 1, path), data, off)
    requires var i := O.Resolve(st, 1, path); 0 <= i < |st.inodes| && !st.inodes[i].isDir
    ensures F.WriteReady(st, path, data, off)
  {
    hide O.Resolve, WriteClean;
  }

  lemma HeldIsFile(st: Store, path: O.Path, i: int, bytes: seq<byte>)
    requires Holds(st, path, i, bytes)
    ensures i == O.Resolve(st, 1, path) && 0 <= i < |st.inodes| && !st.inodes[i].isDir
  {
    hide Inv;
  }

  lemma MoreBlocks(a: nat, b: nat)
    requires a <= b
    ensures TotalBlocks(DataBlocks(a)) <= TotalBlocks(DataBlocks(b))
  {
    TotalMonotone(DataBlocks(a), DataBlocks(b));
  }

  /** What fits of content. */
  function Kept(content: seq<byte>): seq<byte> { content[..Min(|content|, MAX_BYTES)] }

  /** do_put: create path and copy content in chunks of blksiz.  It reports
      success exactly when the create does and the free blocks cover what fits
      of the content, and then the file is just that: beyond the maximal size a
      short count ends the loop and counts as success.  (A chunk that starts
      exactly at the maximal size is another matter: see CopyBeyond.) */
  method DoPut(fs: F.FileSystem, path: O.Path, content: seq<byte>, blksiz: nat) returns (rc: int)
    requires fs.Valid() && path != [] && NameOk(O.Last(path)) && 0 < blksiz
    requires |content| <= MAX_BYTES || MAX_BYTES % blksiz != 0
    requires O.Roomy(fs.St()) && Clean(fs.St(), |Kept(content)|)
    modifies fs`disk, fs`log, fs.inodeMap, fs.blockMap, fs.inodes
    ensures fs.Valid() && O.Roomy(old(fs.St()))
    ensures rc == 0 <==> O.Mknod(old(fs.St()), path, false).rc == 0 &&
                         TotalBlocks(DataBlocks(|Kept(content)|)) <= FreeBlocks(old(fs.St()))
    ensures rc == 0 ==> && TreeOf(fs.St()) == TreeOf(old(fs.St()))[path := FileNode(Kept(content))]
                        && Holds(fs.St(), path, O.Resolve(fs.St(), 1, path), Kept(content)) && O.Roomy(fs.St())
                        && FreeBlocks(fs.St()) == FreeBlocks(old(fs.St())) - TotalBlocks(DataBlocks(|Kept(content)|))
    ensures rc != 0 ==>
              var m := O.Mknod(old(fs.St()), path, false);
              if m.rc != 0 then rc == m.rc && fs.St() == m.st && TreeOf(fs.St()) == TreeOf(old(fs.St()))
              else rc == ENOSPC && Partial(TreeOf(fs.St()), path, Kept(content), TreeOf(old(fs.St())), FreeBlocks(old(fs.St())))
  {
    hide F.FileSystem.Shaped, F.FileSystem.Synced, Inv, F.FileSystem.St, Holds, Copied, Partial, Clean, TreeOf, FreeBlocks,
      O.Mknod, O.Write, O.Resolve, AppendOk, TotalBlocks, DataBlocks, NameOk, F.WriteReady, Kept;
    ghost var st, kept := fs.St(), Kept(content);
    MknodHolds(st, path, |kept|);
    KeptFits(content);
    rc := fs.Mknod(path, false);
    if rc != 0 { return; }
    ghost var i := O.Resolve(fs.St(), 1, path);
    CopyStart(fs.St(), path, i, kept, TreeOf(st), FreeBlocks(st));
    rc := PutChunks(fs, path, content, blksiz, i, TreeOf(st), FreeBlocks(st));
    if rc == 0 { CopyEnd(fs.St(), path, i, kept, TreeOf(st), FreeBlocks(st)); }
  }

  lemma KeptFits(content: seq<byte>)
    ensures |Kept(content)| <= MAX_BYTES && Kept(content) <= content
    ensures |content| <= MAX_BYTES ==> Kept(content) == content
    ensures |content| > MAX_BYTES ==> |Kept(content)| == MAX_BYTES
  {
  }

  /** The loop of do_put. */
  method PutChunks(fs: F.FileSystem, path: O.Path, content: seq<byte>, blksiz: nat,
                   ghost i: int, ghost tree: AbsTree, ghost free: nat) returns (rc: int)
    requires fs.Valid() && 0 < blksiz && (|content| <= MAX_BYTES || MAX_BYTES % blksiz != 0)
    requires Copied(fs.St(), path, i, Kept(content), 0, tree, free)
    modifies fs`disk, fs`log, fs.blockMap, fs.inodes
    ensures fs.Valid() && Sized(old(fs.St()))
    ensures CopyLoop(old(fs.St()), path, content, blksiz, 0) == Result(fs.St(), rc)
    ensures rc == 0 <==> TotalBlocks(DataBlocks(|Kept(content)|)) <= free
    ensures rc == 0 ==> Copied(fs.St(), path, i, Kept(content), |Kept(content)|, tree, free)
    ensures rc != 0 ==> rc == ENOSPC && Partial(TreeOf(fs.St()), path, Kept(content), tree, free)
  {
    hide F.FileSystem.Shaped, F.FileSystem.Synced, Inv, F.FileSystem.St, Copied, Partial, TreeOf, O.Write, O.Resolve, AppendOk,
      AppendSpec, WriteFrame, TotalBlocks, DataBlocks, F.WriteReady, Kept, CopyLoop, WriteLoops.Write, WriteLog.WriteWrites,
      F.Adopting;
    ghost var kept := Kept(content);
    KeptFits(content);
    var offset := 0;
    NothingYet();
    CopiedSized(fs.St(), path, i, kept, offset, tree, free);
    while offset < |content|
      invariant offset <= |kept| && fs.Valid() && (offset % blksiz == 0 || offset == |content|)
      invariant Copied(fs.St(), path, i, kept, offset, tree, free) && Sized(fs.St())
      invariant CopyLoop(old(fs.St()), path, content, blksiz, 0) == CopyLoop(fs.St(), path, content, blksiz, offset)
      invariant TotalBlocks(DataBlocks(offset)) <= free
      decreases |content| - offset
    {
      var len := Min(blksiz, |content| - offset);
      ChunkGoes(fs.St(), path, i, content, offset, len, tree, free);
      NextMultiple(offset, blksiz);
      CopyTurn(fs.St(), path, content, blksiz, offset);
      var _, val := fs.Write(path, content[offset..offset + len], offset);
      if val != len { return if val >= 0 then 0 else val; }
      offset := offset + len;
    }
    CopyTurn(fs.St(), path, content, blksiz, offset);
    return 0;
  }

  lemma CopiedSized(st: Store, path: O.Path, i: int, content: seq<byte>, offset: nat, tree: AbsTree, free: int)
    requires Copied(st, path, i, content, offset, tree, free)
    ensures Sized(st)
  {
    hide Inv, TreeOf, FreeBlocks, TotalBlocks, DataBlocks;
  }

  lemma NextMultiple(a: nat, b: nat)
    requires b > 0
    ensures (a + b) % b == a % b
  {
    var d := 1 + a / b - (a + b) / b;
    assert b * d == (a + b) % b - a % b;
    Multiple(b, d);
  }

  lemma Multiple(b: nat, d: int)
    requires b > 0
    ensures (d >= 1 ==> b * d >= b) && (d <= -1 ==> b * d + b <= 0)
  {
  }

  /** One iteration, whether or not the chunk reaches beyond the maximal size. */
  lemma ChunkGoes(st: Store, path: O.Path, i: int, content: seq<byte>, offset: nat, len: nat, tree: AbsTree, free: int)
    requires Copied(st, path, i, Kept(content), offset, tree, free) && offset < |Kept(content)|
    requires 0 < len && offset + len <= |content|
    ensures var n := Min(len, |Kept(content)| - offset);
            var chunk := content[offset..offset + len];
            var r := O.Write(st, path, chunk, offset);
            && O.Roomy(st) && AppendOk(st, O.Resolve(st, 1, path), chunk, offset) && F.WriteReady(st, path, chunk, offset)
            && (r.rc >= 0 <==> TotalBlocks(DataBlocks(offset + n)) <= free)
            && (r.rc >= 0 ==> r.rc == n && Copied(r.st, path, i, Kept(content), offset + n, tree, free))
            && (r.rc < 0 ==> && r.rc == ENOSPC && TotalBlocks(DataBlocks(|Kept(content)|)) > free
                             && Partial(TreeOf(r.st), path, Kept(content), tree, free))
  {
    hide Copied, Partial, TreeOf, O.Write, O.Resolve, AppendOk, TotalBlocks, DataBlocks, F.WriteReady, Kept;
    var n := Min(len, |Kept(content)| - offset);
    KeptFits(content);
    ChunkCopied(st, path, i, Kept(content), offset, n, tree, free);
    ChunkFits(st, path, i, content, offset, len, tree, free);
    MoreBlocks(offset + n, |Kept(content)|);
  }

  /** A chunk that reaches beyond the maximal size is written like what fits of it. */
  lemma ChunkFits(st: Store, path: O.Path, i: int, content: seq<byte>, offset: nat, len: nat, tree: AbsTree, free: int)
    requires Copied(st, path, i, Kept(content), offset, tree, free) && Sized(st) && offset < |Kept(content)|
    requires 0 < len && offset + len <= |content|
    ensures var n := Min(len, |Kept(content)| - offset);
            && O.Write(st, path, content[offset..offset + len], offset) == O.Write(st, path, Kept(content)[offset..offset + n],
                 offset)
            && (n == len ==> content[offset..offset + len] == Kept(content)[offset..offset + n])
            && (n < len ==> F.WriteReady(st, path, content[offset..offset + len], offset)
                            && AppendOk(st, O.Resolve(st, 1, path), content[offset..offset + len], offset))
  {
    hide Holds, TreeOf, FreeBlocks, O.Write, O.Resolve, TotalBlocks, DataBlocks, TreeIs, FreeClean, F.WriteReady, AppendOk;
    var kept := Kept(content);
    var n, chunk := Min(len, |kept| - offset), content[offset..offset + len];
    SliceOf(content, |kept|, offset, len, n);
    if n < len {
      HeldIsFile(st, path, i, kept[..offset]);
      WriteOnlyFits(st, path, i, kept[..offset], chunk);
      ReadyBeyond(st, path, i, kept[..offset], chunk);
    } else {
      assert chunk[..n] == chunk;
    }
  }

  lemma SliceOf(content: seq<byte>, m: nat, offset: nat, len: nat, n: nat)
    requires offset + n <= m <= |content| && n <= len && offset + len <= |content|
    ensures content[offset..offset + len][..n] == content[..m][offset..offset + n]
  {
  }

  lemma ReadyBeyond(st: Store, path: O.Path, i: nat, bytes: seq<byte>, chunk: seq<byte>)
    requires Holds(st, path, i, bytes) && |bytes| < MAX_BYTES && Sized(st) && i < |st.inodes|
    requires WriteClean(st, i, |bytes| / 1024, |bytes|, chunk)
    ensures F.WriteReady(st, path, chunk, |bytes|) && AppendOk(st, O.Resolve(st, 1, path), chunk, |bytes|)
  {
    hide Inv, O.Resolve, WriteClean, Tight;
    assert |Contents(st, i)| == st.inodes[i].size;
  }

  lemma NothingYet()
    ensures TotalBlocks(DataBlocks(0)) == 0
  {
  }

  lemma CopyStart(st: Store, path: O.Path, i: int, content: seq<byte>, tree: AbsTree, free: int)
    requires Sized(st) && Holds(st, path, i, []) && Clean(st, |content|) && free == FreeBlocks(st)
    requires TreeOf(st) == tree[path := FileNode([])]
    ensures Copied(st, path, i, content, 0, tree, free)
  {
    hide Holds, TreeOf, FreeBlocks, Clean;
    assert content[..0] == [];
    HoldsRoomy(st, path, i, []);
  }

  lemma CopyEnd(st: Store, path: O.Path, i: int, content: seq<byte>, tree: AbsTree, free: int)
    requires Copied(st, path, i, content, |content|, tree, free)
    ensures TreeOf(st) == tree[path := FileNode(content)] && i == O.Resolve(st, 1, path) && Holds(st, path, i, content)
    ensures O.Roomy(st) && FreeBlocks(st) == free - TotalBlocks(DataBlocks(|content|))
  {
    hide TreeOf, FreeBlocks, Clean, Inv;
    assert content[..|content|] == content;
  }

  // ---- do_get ----

  /** do_get: read chunks of blksiz until none comes.  Either the whole file
      arrives, or the device's assertion ends the copy: that happens exactly
      when the index block of the block after the last byte is missing. */
  method DoGet(fs: F.FileSystem, path: O.Path, blksiz: nat) returns (r: Outcome)
    requires fs.Valid() && 0 < blksiz
    ensures var i := O.Resolve(fs.St(), 1, path);
            if i < 0 then r == Code(i)
            else if O.InodeAt(fs.St(), i).isDir then r == Code(O.EISDIR)
            else && i < |fs.St().inodes|
                 && r == if IndexMissing(fs.St(), i, fs.St().inodes[i].size / 1024) then Aborted
                         else Bytes(Contents(fs.St(), i))
  {
    hide F.FileSystem.Shaped, F.FileSystem.Synced, Inv, Contents, O.Resolve, T, Shape;
    ghost var i := O.Resolve(fs.St(), 1, path);
    ResolvedFile(fs.St(), path);
    var out, offset := [], 0;
    while true
      invariant offset == |out|
      invariant offset > 0 ==> 0 <= i < |fs.St().inodes| && !fs.St().inodes[i].isDir
      invariant 0 <= i < |fs.St().inodes| && !fs.St().inodes[i].isDir ==>
                  offset <= fs.St().inodes[i].size <= MAX_BYTES && out == Contents(fs.St(), i)[..offset]
      decreases (if 0 <= i < |fs.St().inodes| then fs.St().inodes[i].size else 0) - offset
    {
      var c := fs.Read(path, blksiz, offset);
      if c.Code? { return c; }
      if 0 <= i < |fs.St().inodes| && !fs.St().inodes[i].isDir {
        ChunkRead(fs.St(), i, offset, blksiz, c);
      }
      if c.Aborted? { return Aborted; }
      if c.s == [] { break; }
      out := out + c.s;
      offset := offset + |c.s|;
    }
    return Bytes(out);
  }

  lemma ResolvedFile(st: Store, path: O.Path)
    requires Inv(st)
    ensures var i := O.Resolve(st, 1, path);
            i >= 0 ==> i < |st.inodes| && O.InodeAt(st, i) == st.inodes[i] && st.inodes[i].size <= MAX_BYTES && Shape(st, i)
  {
    var w :| InvW(st, w);
    hide TreeInv, Owned, O.Resolve;
    var i := Resolved(st, w, path);
    if i >= 0 { assert Shape(st, i); }
  }

  /** One read of the copy loop. */
  lemma ChunkRead(st: Store, i: nat, offset: nat, n: nat, c: Outcome)
    requires i < |st.inodes| && 0 < n && offset <= st.inodes[i].size <= MAX_BYTES && Shape(st, i)
    requires if offset / 1024 >= 65798 then c == Bytes([]) else ReadMeets(st, i, offset, n, c)
    ensures c.Bytes? ==> && offset + |c.s| <= st.inodes[i].size
                         && Contents(st, i)[..offset] + c.s == Contents(st, i)[..offset + |c.s|]
    ensures c == Aborted ==> IndexMissing(st, i, st.inodes[i].size / 1024)
    ensures c == Bytes([]) ==> offset == st.inodes[i].size && !IndexMissing(st, i, st.inodes[i].size / 1024)
    ensures !c.Code?
  {
    hide T, Contents, Shape;
    if c == Aborted { MissingBoundary(st, i, ReadEnd(st.inodes[i].size, offset, n) / 1024); }
  }

  /** Putting a file and getting it back, with any two chunk sizes, gives the
      same bytes; at the sizes where the file ends on an index boundary the
      get aborts instead. */
  method PutThenGet(fs: F.FileSystem, path: O.Path, content: seq<byte>, put: nat, get: nat) returns (rc: int, r: Outcome)
    requires fs.Valid() && path != [] && NameOk(O.Last(path)) && 0 < put && 0 < get
    requires |content| <= MAX_BYTES || MAX_BYTES % put != 0
    requires O.Roomy(fs.St()) && Clean(fs.St(), |Kept(content)|)
    modifies fs`disk, fs`log, fs.inodeMap, fs.blockMap, fs.inodes
    ensures rc == 0 <==> O.Mknod(old(fs.St()), path, false).rc == 0 &&
                         TotalBlocks(DataBlocks(|Kept(content)|)) <= FreeBlocks(old(fs.St()))
    ensures rc == 0 ==> r == if BoundarySize(|Kept(content)|) then Aborted else Bytes(Kept(content))
  {
    hide F.FileSystem.Shaped, F.FileSystem.Synced, Inv, F.FileSystem.St, Holds, Partial, Clean, TreeOf, FreeBlocks, O.Mknod,
      O.Resolve, TotalBlocks, DataBlocks, NameOk, Contents, T, Kept;
    r := Aborted;
    rc := DoPut(fs, path, content, put);
    if rc == 0 {
      HeldReads(fs.St(), path, O.Resolve(fs.St(), 1, path), Kept(content));
      r := DoGet(fs, path, get);
    }
  }

  lemma HeldReads(st: Store, path: O.Path, i: int, bytes: seq<byte>)
    requires Holds(st, path, i, bytes)
    ensures i == O.Resolve(st, 1, path) && 0 <= i < |st.inodes| && !O.InodeAt(st, i).isDir
    ensures Contents(st, i) == bytes && st.inodes[i].size == |bytes|
    ensures IndexMissing(st, i, |bytes| / 1024) <==> BoundarySize(|bytes|)
  {
    hide Inv, T;
    TightBoundary(st, i);
  }
}
