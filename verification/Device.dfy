/** The disk image: super block, bitmaps, inode table and blocks, the writes
    main.c sends to it, and what fs_init reads back. */
module Device {
  import opened Layout
  import opened State

  datatype Super = Super(magic: nat, inodeMapSz: nat, inodeRegionSz: nat, blockMapSz: nat,
                         numBlocks: nat, rootInode: nat)

  /** The bitmaps and the inode table are kept as values of their own; blocks
      holds the raw bytes of the super block and of the data region. */
  datatype Disk = Disk(super: Super, inodeMap: seq<bool>, blockMap: seq<bool>,
                       inodes: seq<Inode>, blocks: seq<Block>)

  /** One call of the device's write operation; the last one puts file data over
      bitmap or inode block p, and carries what the regions decode to after it. */
  datatype DevWrite =
    | ToInodeMap(bits: seq<bool>)
    | ToBlockMap(bits: seq<bool>)
    | ToInodes(table: seq<Inode>)
    | ToBlock(p: nat, b: Block)
    | OverMetadata(p: nat, inodeMap: seq<bool>, blockMap: seq<bool>, table: seq<Inode>)

  function Apply(d: Disk, w: DevWrite): Disk {
    match w
    case ToInodeMap(m) => d.(inodeMap := m)
    case ToBlockMap(m) => d.(blockMap := m)
    case ToInodes(t) => d.(inodes := t)
    case OverMetadata(_, m, b, t) => d.(inodeMap := m, blockMap := b, inodes := t)
    case ToBlock(p, b) => if p < |d.blocks| then d.(blocks := d.blocks[p := b]) else d
  }

  /** The disk after a sequence of writes. */
  function Replay(d: Disk, ws: seq<DevWrite>): Disk {
    if ws == [] then d else Apply(Replay(d, ws[..|ws| - 1]), ws[|ws| - 1])
  }

  lemma ReplayNone(d: Disk)
    ensures Replay(d, []) == d
  {
  }

  lemma ReplayOne(d: Disk, ws: seq<DevWrite>, w: DevWrite)
    ensures Replay(d, ws + [w]) == Apply(Replay(d, ws), w)
  {
    assert (ws + [w])[..|ws|] == ws;
  }

  lemma {:induction false} ReplayTwo(d: Disk, a: seq<DevWrite>, b: seq<DevWrite>)
    ensures Replay(d, a + b) == Replay(Replay(d, a), b)
    decreases |b|
  {
    if b == [] {
      assert a + b == a;
    } else {
      var b0 := b[..|b| - 1];
      assert (a + b)[..|a + b| - 1] == a + b0;
      ReplayTwo(d, a, b0);
    }
  }

  /** The super block as fs_init and read-img read it from the bytes of block 0. */
  function SuperAt(b: Block): Super {
    Super(Ptr(b, 0), Ptr(b, 1), Ptr(b, 2), Ptr(b, 3), Ptr(b, 4), Ptr(b, 5))
  }

  /** The record kept with the image is what its block 0 says. */
  predicate Readable(d: Disk) { |d.blocks| > 0 && SuperAt(d.blocks[0]) == d.super }

  /** start_block as fs_init computes it. */
  function StartBlock(s: Super): nat { 1 + s.inodeMapSz + s.blockMapSz + s.inodeRegionSz }

  /** The state fs_init builds from a disk. */
  function Mount(d: Disk): Store {
    Store(StartBlock(d.super), d.inodeMap, d.blockMap, d.inodes, d.blocks)
  }

  /** The disk's regions have the sizes the super block gives. */
  predicate Sane(d: Disk) {
    && |d.inodeMap| == d.super.inodeMapSz * 8192
    && |d.blockMap| == d.super.blockMapSz * 8192
    && |d.inodes| == d.super.inodeRegionSz * 16
    && |d.blocks| == d.super.numBlocks
  }
}
