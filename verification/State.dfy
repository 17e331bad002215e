/** The state main.c keeps: allocation bitmaps, inode table and device blocks,
    and the pointer tree that leads from an inode to its blocks. */
module State {
  import opened Layout

  const MAX_BYTES: nat := 67377152

  datatype RawInode = Inode(isDir: bool, size: nat, direct: seq<nat>, indir1: nat, indir2: nat)

  type Inode = n: RawInode | |n.direct| == 6 witness NoInode

  const NoInode := Inode(false, 0, [0, 0, 0, 0, 0, 0], 0, 0)

  /** start is start_block, the first block after the inode region. */
  datatype Store = Store(start: nat, inodeMap: seq<bool>, blockMap: seq<bool>,
                         inodes: seq<Inode>, blocks: seq<Block>)

  // ---- the pointer tree of one inode ----

  /** The places where an inode, directly or through index blocks, holds a
      block number: Data(l) for logical block l, the two indirect pointers,
      and the entries of the double-indirect block. */
  datatype Loc = Data(l: nat) | Ind1 | Ind2 | Outer(k: nat)

  predicate LocOk(loc: Loc) {
    match loc
    case Data(l) => l < 65798
    case Outer(k) => k < 256
    case _ => true
  }

  /** Where the pointer itself is stored. */
  datatype Cell = InInode | InBlock(parent: Loc, k: nat)

  function CellOf(loc: Loc): (c: Cell)
    requires LocOk(loc)
    ensures c.InBlock? ==> c.k < 256 && LocOk(c.parent) && !c.parent.Data?
  {
    match loc
    case Ind1 => InInode
    case Ind2 => InInode
    case Outer(k) => InBlock(Ind2, k)
    case Data(l) =>
      if l < 6 then InInode
      else if l < 262 then InBlock(Ind1, l - 6)
      else InBlock(Outer((l - 262) / 256), (l - 262) % 256)
  }

  function PtrAt(bl: seq<Block>, p: nat, k: nat): nat
    requires k < 256
  {
    if 0 < p < |bl| then Ptr(bl[p], k) else 0
  }

  function Target(n: Inode, bl: seq<Block>, loc: Loc): nat
  {
    match loc
    case Ind1 => n.indir1
    case Ind2 => n.indir2
    case Outer(k) => if k < 256 then PtrAt(bl, n.indir2, k) else 0
    case Data(l) =>
      if l < 6 then n.direct[l]
      else if l < 262 then PtrAt(bl, n.indir1, l - 6)
      else if l < 65798 then PtrAt(bl, PtrAt(bl, n.indir2, (l - 262) / 256), (l - 262) % 256)
      else 0
  }

  /** The first logical block that needs this pointer. */
  function FirstBlock(loc: Loc): nat {
    match loc
    case Data(l) => l
    case Ind1 => 6
    case Ind2 => 262
    case Outer(k) => 262 + 256 * k
  }

  ghost predicate Live(st: Store, i: nat) { i < |st.inodeMap| && i < |st.inodes| && st.inodeMap[i] }

  function T(st: Store, i: nat, loc: Loc): nat
    requires i < |st.inodes|
  {
    Target(st.inodes[i], st.blocks, loc)
  }

  lemma InodePointers(st: Store, i: nat)
    requires i < |st.inodes|
    ensures T(st, i, Ind1) == st.inodes[i].indir1 && T(st, i, Ind2) == st.inodes[i].indir2
    ensures forall l: nat :: l < 6 ==> T(st, i, Data(l)) == st.inodes[i].direct[l]
  {
  }

  // ---- ownership ----

  type Owners = map<nat, (nat, Loc)>

  /** Sizes of the regions; metadata blocks marked allocated; block 0 the super block. */
  ghost predicate Geometry(st: Store)
  {
    && 4 <= st.start <= |st.blocks| < 0x20_0000
    && |st.blocks| <= |st.blockMap|
    && 64 <= |st.inodes| <= |st.inodeMap| && |st.inodes| < 0x4000_0000
    && (forall b :: 0 <= b < st.start ==> st.blockMap[b])
    && Ptr(st.blocks[0], 0) == FS_MAGIC
  }

  /** ow maps every block in use to the one pointer that holds it: every
      non-null pointer of a live inode names an allocated data-region block,
      and no two pointers name the same one. */
  ghost predicate Owned(st: Store, ow: Owners)
    requires |st.blocks| <= |st.blockMap|
  {
    && (forall i: nat, loc :: Live(st, i) && T(st, i, loc) != 0 ==>
          && LocOk(loc)
          && st.start <= T(st, i, loc) < |st.blocks|
          && st.blockMap[T(st, i, loc)]
          && T(st, i, loc) in ow && ow[T(st, i, loc)] == (i, loc))
    && (forall b :: b in ow ==> b != 0 && Live(st, ow[b].0) && T(st, ow[b].0, ow[b].1) == b)
  }

  // ---- attaching a block at a null pointer ----

  function SetCell(st: Store, i: nat, loc: Loc, b: nat): Store
    requires i < |st.inodes| && LocOk(loc)
  {
    var n := st.inodes[i];
    match CellOf(loc)
    case InInode =>
      var n' := if loc.Ind1? then n.(indir1 := b)
                else if loc.Ind2? then n.(indir2 := b)
                else n.(direct := n.direct[loc.l := b]);
      st.(inodes := st.inodes[i := n'])
    case InBlock(parent, k) =>
      var p := T(st, i, parent);
      if 0 < p < |st.blocks| then st.(blocks := st.blocks[p := SetPtr(st.blocks[p], k, b)]) else st
  }

  function Attach(st: Store, i: nat, loc: Loc, b: nat, fill: Block): Store
    requires i < |st.inodes| && LocOk(loc) && b < |st.blocks| && b < |st.blockMap|
  {
    SetCell(st.(blockMap := st.blockMap[b := true], blocks := st.blocks[b := fill]), i, loc, b)
  }

  ghost predicate NoPointers(b: Block) { forall k :: 0 <= k < 256 ==> Ptr(b, k) == 0 }

  /** loc is null, the block that holds it exists, and b is free. */
  ghost predicate CanAttach(st: Store, i: nat, loc: Loc, b: nat)
    requires Geometry(st)
  {
    && Live(st, i) && LocOk(loc) && T(st, i, loc) == 0
    && (CellOf(loc).InBlock? ==> T(st, i, CellOf(loc).parent) != 0)
    && st.start <= b < |st.blocks| && !st.blockMap[b]
  }

  lemma TargetCell(n: Inode, bl: seq<Block>, loc: Loc)
    requires LocOk(loc)
    ensures CellOf(loc).InBlock? ==>
              Target(n, bl, loc) == PtrAt(bl, Target(n, bl, CellOf(loc).parent), CellOf(loc).k)
  {
  }

  lemma CellInjective(a: Loc, b: Loc)
    requires LocOk(a) && LocOk(b) && CellOf(a).InBlock? && CellOf(a) == CellOf(b)
    ensures a == b
  {
  }

  /** The three tiers divide the logical blocks: every entry of every index block
      is the cell of exactly one location, and the entries of one block serve
      consecutive logical blocks. */
  lemma CellOnto(parent: Loc, k: nat) returns (m: Loc)
    requires LocOk(parent) && !parent.Data? && k < 256
    ensures LocOk(m) && CellOf(m) == InBlock(parent, k)
    ensures FirstBlock(m) == FirstBlock(parent) + k * (if parent.Ind2? then 256 else 1)
    ensures forall n :: LocOk(n) && CellOf(n) == InBlock(parent, k) ==> n == m
  {
    m := match parent case Ind1 => Data(6 + k) case Ind2 => Outer(k) case Outer(j) => Data(262 + 256 * j + k);
    forall n | LocOk(n) && CellOf(n) == InBlock(parent, k) ensures n == m { CellInjective(n, m); }
  }

  /** The pointer read at cell k of block q after block b was filled and
      pointer b stored at cell pk of block p. */
  lemma PtrAtAfter(bl: seq<Block>, p: nat, pk: nat, b: nat, fill: Block, q: nat, k: nat)
    requires 0 < p < |bl| && 0 < b < |bl| && p != b && pk < 256 && k < 256 && b < 0x1_0000_0000
    ensures var bl' := bl[b := fill][p := SetPtr(bl[p], pk, b)];
            PtrAt(bl', q, k) == if q == p && k == pk then b
                                else if q == b then Ptr(fill, k) else PtrAt(bl, q, k)
  {
    PtrSetPtr(bl[p], pk, b);
  }

  // ---- file contents ----

  function BlockAt(bl: seq<Block>, p: nat): Block { if p < |bl| then bl[p] else ZeroBlock }

  function ByteAt(st: Store, i: nat, x: nat): byte
    requires i < |st.inodes|
  {
    BlockAt(st.blocks, T(st, i, Data(x / 1024)))[x % 1024]
  }

  function Contents(st: Store, i: nat): (s: seq<byte>)
    requires i < |st.inodes|
    ensures |s| == st.inodes[i].size
  {
    seq(st.inodes[i].size, x requires 0 <= x => ByteAt(st, i, x))
  }

  /** Every logical block below the size is present, and no pointer serves only
      blocks beyond the one the next byte goes to. */
  ghost predicate Shape(st: Store, i: nat)
    requires i < |st.inodes|
  {
    && st.inodes[i].size <= MAX_BYTES
    && (forall loc :: T(st, i, loc) != 0 ==> FirstBlock(loc) * 1024 <= st.inodes[i].size)
    && (forall l: nat :: l < 65798 && l * 1024 < st.inodes[i].size ==> T(st, i, Data(l)) != 0)
  }
}
