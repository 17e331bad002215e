/** mkfs-x6: the layout it computes and the image it writes. */
module Mkfs {
  import opened Layout
  import opened Bytes
  import opened State
  import opened FileWrite
  import opened WriteProofs
  import opened WriteTheorems
  import opened Ops
  import opened Tree
  import opened Device

  function DivRoundUp(n: nat, m: nat): nat
    requires m > 0
  {
    (n + m - 1) / m
  }

  datatype Bases = Bases(mapBlks: nat, inos: nat, inoMapBlks: nat, inoBlks: nat,
                         inodeMapBase: nat, blockMapBase: nat, inodeBase: nat, rootdirBase: nat)

  function LayoutOf(n: nat): Bases {
    var mapBlks := DivRoundUp(n, 8192);
    var inos := n / 4;
    var inoMapBlks := DivRoundUp(inos, 8192);
    var inoBlks := DivRoundUp(inos * 64, 1024);
    Bases(mapBlks, inos, inoMapBlks, inoBlks,
          1, 1 + inoMapBlks, 1 + inoMapBlks + mapBlks, 1 + inoMapBlks + mapBlks + inoBlks)
  }

  /** Every region is non-empty, they follow each other without overlap, the
      root directory block exists, and each bitmap and the inode region cover
      what they have to. */
  predicate LayoutOk(n: nat) {
    var l := LayoutOf(n);
    && 0 < l.inodeMapBase < l.blockMapBase < l.inodeBase < l.rootdirBase < n
    && l.blockMapBase - l.inodeMapBase == l.inoMapBlks && l.inodeBase - l.blockMapBase == l.mapBlks
    && l.rootdirBase - l.inodeBase == l.inoBlks
    && n <= l.mapBlks * 8192 && l.inos <= l.inoBlks * 16 <= l.inoMapBlks * 8192
  }

  /** The layout is sound for exactly the images of at least five blocks. */
  lemma LayoutOkIff(n: nat)
    ensures LayoutOk(n) <==> n >= 5
  {
    hide DivRoundUp;
    RoundUpBounds(n, 8192);
    RoundUpBounds(n / 4, 8192);
    RoundUpBounds(n / 4 * 64, 1024);
  }

  /** No region has a block more than it needs, for every size. */
  lemma LayoutLeast(n: nat)
    ensures var l := LayoutOf(n);
            && 4 * l.inos <= n < 4 * l.inos + 4 && l.mapBlks * 8192 < n + 8192
            && l.inoMapBlks * 8192 < l.inos + 8192 && l.inoBlks * 16 < l.inos + 16
  {
    hide DivRoundUp;
    RoundUpBounds(n, 8192);
    RoundUpBounds(n / 4, 8192);
    RoundUpBounds(n / 4 * 64, 1024);
  }

  lemma RoundUpBounds(n: nat, m: nat)
    requires m > 0
    ensures n <= DivRoundUp(n, m) * m < n + m
  {
  }

  /** The inode region covers every number get_free_inode can return exactly
      from 196 blocks on. */
  lemma InodesCoverScanIff(n: nat)
    ensures LayoutOf(n).inoBlks * 16 >= 64 <==> n >= 196
  {
  }

  function SuperOf(n: nat): Super {
    var l := LayoutOf(n);
    Super(FS_MAGIC, l.inoMapBlks, l.inoBlks, l.mapBlks, n, 1)
  }

  /** The super block as bytes. */
  function SuperBytes(s: Super): Block {
    SetPtr(SetPtr(SetPtr(SetPtr(SetPtr(SetPtr(ZeroBlock, 0, s.magic), 1, s.inodeMapSz), 2, s.inodeRegionSz),
                         3, s.blockMapSz), 4, s.numBlocks), 5, s.rootInode)
  }

  function RootInode(base: nat): Inode { Inode(true, 1024, [base, 0, 0, 0, 0, 0], 0, 0) }

  function FormattedBlock(n: nat, i: int): Block {
    if i == 0 then SuperBytes(SuperOf(n)) else ZeroBlock
  }

  function FormattedDisk(n: nat): (d: Disk)
    requires n >= 5
    ensures Sane(d)
  {
    LayoutOkIff(n);
    var l := LayoutOf(n);
    Disk(SuperOf(n),
         seq(l.inoMapBlks * 8192, i => i <= 1),
         seq(l.mapBlks * 8192, i => i <= l.rootdirBase),
         seq(l.inoBlks * 16, i => if i == 1 then RootInode(l.rootdirBase) else NoInode),
         seq(n, i => FormattedBlock(n, i)))
  }

  lemma LayoutFits(n: nat)
    requires n >= 5
    ensures var l := LayoutOf(n);
            l.rootdirBase < n <= l.mapBlks * 8192 && 2 <= l.inoBlks * 16 <= l.inoMapBlks * 8192
  {
    hide DivRoundUp;
    LayoutOkIff(n);
  }

  /** The formatter: bitmap bits set one by one in the zeroed image. */
  method Format(n: nat) returns (d: Disk)
    requires 5 <= n
    ensures d == FormattedDisk(n)
  {
    hide SuperBytes, LayoutOk, DivRoundUp;
    LayoutFits(n);
    var mapBlks := DivRoundUp(n, 8192);
    var inos := n / 4;
    var inoMapBlks := DivRoundUp(inos, 8192);
    var inoBlks := DivRoundUp(inos * 64, 1024);
    var inodeMap := new bool[inoMapBlks * 8192](_ => false);
    var blockMap := new bool[mapBlks * 8192](_ => false);
    var inodes := new Inode[inoBlks * 16](_ => NoInode);
    var blocks := new Block[n](_ => ZeroBlock);
    var inodeMapBase := 1;
    var blockMapBase := inodeMapBase + inoMapBlks;
    var inodeBase := blockMapBase + mapBlks;
    var rootdirBase := inodeBase + inoBlks;
    var super := Super(FS_MAGIC, inoMapBlks, inoBlks, mapBlks, n, 1);
    blocks[0] := SuperBytes(super);
    inodeMap[0] := true;
    inodeMap[1] := true;
    var i := 0;
    while i <= rootdirBase
      modifies blockMap
      invariant 0 <= i <= rootdirBase + 1
      invariant forall x :: 0 <= x < blockMap.Length ==> blockMap[x] == (x < i)
    {
      blockMap[i] := true;
      i := i + 1;
    }
    inodes[1] := RootInode(rootdirBase);
    d := Disk(super, inodeMap[..], blockMap[..], inodes[..], blocks[..]);
    FormattedIs(n, d);
  }

  lemma FormattedIs(n: nat, d: Disk)
    requires n >= 5 && d.super == SuperOf(n) && |d.blocks| == n
    requires |d.inodeMap| == LayoutOf(n).inoMapBlks * 8192 && |d.blockMap| == LayoutOf(n).mapBlks * 8192
    requires |d.inodes| == LayoutOf(n).inoBlks * 16
    requires forall i :: 0 <= i < |d.inodeMap| ==> d.inodeMap[i] == (i <= 1)
    requires forall i :: 0 <= i < |d.blockMap| ==> d.blockMap[i] == (i <= LayoutOf(n).rootdirBase)
    requires forall i :: 0 <= i < |d.inodes| ==> d.inodes[i] == if i == 1 then RootInode(LayoutOf(n).rootdirBase) else NoInode
    requires forall i :: 0 <= i < n ==> d.blocks[i] == if i == 0 then SuperBytes(SuperOf(n)) else ZeroBlock
    ensures d == FormattedDisk(n)
  {
    hide SuperBytes, LayoutOf;
    var f := FormattedDisk(n);
    assert d.blocks == f.blocks;
    assert d.inodes == f.inodes;
    assert d.blockMap == f.blockMap && d.inodeMap == f.inodeMap;
  }

  // ---- the invariant holds ----

  ghost function FormattedWit(n: nat): Wit {
    Wit(map[LayoutOf(n).rootdirBase := (1, Data(0))], map[], map[1 := 0])
  }

  lemma LayoutSmall(n: nat)
    requires n < 0x20_0000
    ensures var l := LayoutOf(n); l.inoMapBlks < 0x1_0000_0000 && l.inoBlks < 0x1_0000_0000 && l.mapBlks < 0x1_0000_0000
  {
    hide DivRoundUp;
    RoundUpBounds(n, 8192);
    RoundUpBounds(n / 4, 8192);
    RoundUpBounds(n / 4 * 64, 1024);
  }

  /** The words of block 0, in the order of struct fs_super; the rest is zero. */
  lemma SuperWords(n: nat)
    requires n < 0x20_0000
    ensures var b, l := SuperBytes(SuperOf(n)), LayoutOf(n);
            && Ptr(b, 0) == FS_MAGIC && Ptr(b, 1) == l.inoMapBlks && Ptr(b, 2) == l.inoBlks && Ptr(b, 3) == l.mapBlks
            && Ptr(b, 4) == n && Ptr(b, 5) == 1 && forall k :: 6 <= k < 256 ==> Ptr(b, k) == 0
  {
    LayoutSmall(n);
    hide Ptr, SuperBytes, LayoutOf;
    FieldWords(SuperOf(n));
  }

  lemma FieldWords(s: Super)
    requires s.magic < 0x1_0000_0000 && s.inodeMapSz < 0x1_0000_0000 && s.inodeRegionSz < 0x1_0000_0000
    requires s.blockMapSz < 0x1_0000_0000 && s.numBlocks < 0x1_0000_0000 && s.rootInode < 0x1_0000_0000
    ensures var b := SuperBytes(s);
            && Ptr(b, 0) == s.magic && Ptr(b, 1) == s.inodeMapSz && Ptr(b, 2) == s.inodeRegionSz && Ptr(b, 3) == s.blockMapSz
            && Ptr(b, 4) == s.numBlocks && Ptr(b, 5) == s.rootInode && forall k :: 6 <= k < 256 ==> Ptr(b, k) == 0
  {
    hide Ptr, SetPtr;
    var b := SetPtr(SetPtr(SetPtr(ZeroBlock, 0, s.magic), 1, s.inodeMapSz), 2, s.inodeRegionSz);
    var c := SetPtr(SetPtr(SetPtr(b, 3, s.blockMapSz), 4, s.numBlocks), 5, s.rootInode);
    assert SuperBytes(s) == c;
    ThreeWords(ZeroBlock, 0, 1, 2, s.magic, s.inodeMapSz, s.inodeRegionSz);
    ThreeWords(b, 3, 4, 5, s.blockMapSz, s.numBlocks, s.rootInode);
    ZeroNoPointers();
  }

  lemma ThreeWords(b: Block, k: nat, l: nat, m: nat, u: nat, v: nat, w: nat)
    requires k < l < m < 256 && u < 0x1_0000_0000 && v < 0x1_0000_0000 && w < 0x1_0000_0000
    ensures forall j :: 0 <= j < 256 ==>
              Ptr(SetPtr(SetPtr(SetPtr(b, k, u), l, v), m, w), j) ==
              if j == k then u else if j == l then v else if j == m then w else Ptr(b, j)
  {
    hide Ptr, SetPtr;
    PtrSetPtr(b, k, u);
    PtrSetPtr(SetPtr(b, k, u), l, v);
    PtrSetPtr(SetPtr(SetPtr(b, k, u), l, v), m, w);
  }

  /** Reading the formatted block 0 gives back the layout, and from it fs_init
      computes the formatter's root directory block as start_block; the image
      begins with the bytes 30 30 36 37. */
  lemma FormattedReadable(n: nat)
    requires 5 <= n < 0x20_0000
    ensures var d, l := FormattedDisk(n), LayoutOf(n);
            && Readable(d) && SuperAt(d.blocks[0]) == Super(FS_MAGIC, l.inoMapBlks, l.inoBlks, l.mapBlks, n, 1)
            && StartBlock(SuperAt(d.blocks[0])) == l.rootdirBase
            && d.blocks[0][..4] == [0x30, 0x30, 0x36, 0x37]
  {
    SuperWords(n);
    PtrBytes(SuperBytes(SuperOf(n)), 0);
    MagicBytes(SuperBytes(SuperOf(n)));
    hide SuperBytes, Ptr, DivRoundUp;
    assert FormattedDisk(n).blocks[0] == SuperBytes(SuperOf(n));
  }

  /** The rest of the image: inodes 0 and 1 and all blocks up to the root
      directory's are marked, inode 1 is a directory of one block, every other
      inode and every byte of a block after block 0 is zero. */
  lemma FormattedRest(n: nat)
    requires n >= 5
    ensures var d, l := FormattedDisk(n), LayoutOf(n);
            && (forall i :: 0 <= i < |d.inodeMap| ==> d.inodeMap[i] == (i < 2))
            && (forall b :: 0 <= b < |d.blockMap| ==> d.blockMap[b] == (b <= l.rootdirBase))
            && 2 <= |d.inodes| && d.inodes[1] == Inode(true, 1024, [l.rootdirBase, 0, 0, 0, 0, 0], 0, 0)
            && (forall i :: 0 <= i < |d.inodes| && i != 1 ==> d.inodes[i] == Inode(false, 0, [0, 0, 0, 0, 0, 0], 0, 0))
            && |d.blocks| == n && (forall b, x :: 1 <= b < n && 0 <= x < 1024 ==> d.blocks[b][x] == 0)
  {
    hide SuperBytes, LayoutOf;
    LayoutFits(n);
  }

  lemma MagicBytes(b: Block)
    requires At(b, 0) + 256 * At(b, 1) + 65536 * At(b, 2) + 16777216 * At(b, 3) == FS_MAGIC
    ensures b[..4] == [0x30, 0x30, 0x36, 0x37]
  {
    WordParts(At(b, 0), At(b, 1), At(b, 2), At(b, 3));
    assert FS_MAGIC == 0x30 + 256 * 0x30 + 65536 * 0x36 + 16777216 * 0x37;
  }

  /** fs_init recomputes the bases of the formatter, with start_block the root
      directory block. */
  lemma MountAgrees(n: nat)
    requires n >= 5
    ensures var st := Mount(FormattedDisk(n));
            && st.start == LayoutOf(n).rootdirBase == st.inodes[1].direct[0]
            && |st.blocks| == n
  {
    LayoutOkIff(n);
  }

  lemma FormattedTargets(n: nat, i: nat, loc: Loc)
    requires n >= 196
    ensures var st := Mount(FormattedDisk(n));
            Live(st, i) ==> (i < |st.inodes| && i <= 1 &&
              T(st, i, loc) == if i == 1 && loc == Data(0) then LayoutOf(n).rootdirBase else 0)
  {
    InodesCoverScanIff(n);
    var st := Mount(FormattedDisk(n));
    if Live(st, i) {
      assert i <= 1;
      assert st.inodes[i].indir1 == 0 && st.inodes[i].indir2 == 0;
    }
  }

  lemma FormattedGeometry(n: nat)
    requires 196 <= n < 0x20_0000
    ensures var st := Mount(FormattedDisk(n));
            && Geometry(st) && MapOk(st) && Live(st, 1)
            && LayoutOf(n).rootdirBase == st.start < |st.blocks|
            && (forall b :: 0 <= b < |st.blockMap| ==> st.blockMap[b] == (b <= LayoutOf(n).rootdirBase))
  {
    LayoutOkIff(n);
    InodesCoverScanIff(n);
    SuperWords(n);
    hide Target, SuperBytes, Ptr;
  }

  lemma FormattedGood(n: nat)
    requires 196 <= n < 0x20_0000
    ensures Good(Mount(FormattedDisk(n)), FormattedWit(n).ow) && MapOk(Mount(FormattedDisk(n)))
    ensures Leaked(Mount(FormattedDisk(n)), FormattedWit(n).ow) == {}
  {
    hide Target, SuperBytes, Ptr, FormattedDisk, LayoutOf, MapOk;
    FormattedGeometry(n);
    var st := Mount(FormattedDisk(n));
    forall i: nat, loc | Live(st, i)
      ensures i <= 1 && T(st, i, loc) == if i == 1 && loc == Data(0) then LayoutOf(n).rootdirBase else 0
    {
      FormattedTargets(n, i, loc);
    }
  }

  lemma FormattedTree(n: nat)
    requires 196 <= n < 0x20_0000
    ensures TreeInv(Mount(FormattedDisk(n)), FormattedWit(n)) && Shapes(Mount(FormattedDisk(n)))
  {
    LayoutOkIff(n);
    InodesCoverScanIff(n);
    var st := Mount(FormattedDisk(n));
    forall i: nat, loc | Live(st, i)
      ensures i <= 1 && T(st, i, loc) == if i == 1 && loc == Data(0) then LayoutOf(n).rootdirBase else 0
    {
      FormattedTargets(n, i, loc);
    }
    hide Target, SuperBytes, Ptr, Ent;
    assert st.inodes[0] == NoInode && st.inodes[1] == RootInode(LayoutOf(n).rootdirBase);
    assert DirBlock(st, 1) == ZeroBlock;
    forall s | 0 <= s < 32 ensures !E(st, 1, s).valid { EntZeroBlock(s); }
  }

  /** Formatting establishes the invariant. */
  lemma FormattedInv(n: nat)
    requires 196 <= n < 0x20_0000
    ensures InvW(Mount(FormattedDisk(n)), FormattedWit(n))
  {
    hide TreeInv, Shapes, Good, MapOk, FormattedWit;
    FormattedGood(n);
    FormattedTree(n);
  }

  /** ... of the empty tree, with clean free blocks. */
  lemma FormattedIsEmpty(n: nat)
    requires 196 <= n < 0x20_0000
    ensures TreeOf(Mount(FormattedDisk(n))) == imap[[] := DirNode]
    ensures Sized(Mount(FormattedDisk(n))) && FreeClean(Mount(FormattedDisk(n)))
  {
    hide TreeInv, Walk, FormattedDisk, Resolve, FormattedWit, Shapes, NodeOf;
    FormattedFree(n);
    var st := Mount(FormattedDisk(n));
    FormattedInv(n);
    forall q: Path ensures Resolve(st, 1, q) >= 0 <==> q == [] {
      ResolveIsWalk(st, FormattedWit(n), q);
      RootOnly(n, q);
    }
    RootNode(n);
    ResolveNil(st, 1);
  }

  /** Every block beyond the super block is zeroed. */
  lemma FormattedFree(n: nat)
    requires 196 <= n < 0x20_0000
    ensures Sized(Mount(FormattedDisk(n))) && FreeClean(Mount(FormattedDisk(n)))
  {
    hide DivRoundUp, NoPointers, SuperBytes;
    LayoutFits(n);
    LayoutOkIff(n);
    ZeroNoPointers();
  }

  lemma RootNode(n: nat)
    requires 196 <= n
    ensures NodeOf(Mount(FormattedDisk(n)), 1) == DirNode
  {
    InodesCoverScanIff(n);
  }

  lemma RootOnly(n: nat, q: Path)
    requires 196 <= n < 0x20_0000
    ensures Walk(Mount(FormattedDisk(n)), q) >= 0 <==> q == []
  {
    var st := Mount(FormattedDisk(n));
    FormattedInv(n);
    InodesCoverScanIff(n);
    assert forall i: nat :: Live(st, i) ==> i <= 1;
    hide TreeInv, FormattedDisk, Walk;
    WalkLive(st, FormattedWit(n), q);
    WalkLive(st, FormattedWit(n), []);
    if q != [] && Walk(st, q) >= 0 { WalkParent(st, FormattedWit(n), q); NotRootChild(st, FormattedWit(n), q); }
    WalkEmpty(st);
  }

  lemma WalkEmpty(st: Store) ensures Walk(st, []) == 1 { }

  lemma NotRootChild(st: Store, w: Wit, q: Path)
    requires TreeInv(st, w) && q != [] && Walk(st, q) >= 0
    ensures Walk(st, q) > 1
  {
    hide DirOk, Placed, Lookup;
    WalkParent(st, w, q);
    LookupLive(st, w, Walk(st, Init(q)), Last(q));
  }
}
