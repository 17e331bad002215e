/** When a write is stopped by the device on an old word of a second-level block
    it took, what a write of one block does, and when an old word breaks the file. */
module StaleStops {
  import opened Layout
  import opened State
  import opened FileWrite
  import opened WriteProofs
  import opened WriteCost
  import opened WriteLoops
  import opened StaleAppends
  import opened StaleNeeds
  import opened StaleWrites

  /** How many entries of c from e on and below x are null. */
  function Nulls(c: Block, e: nat, x: nat): nat
    requires e <= x <= 256
    decreases x - e
  {
    if e == x then 0 else (if Ptr(c, e) == 0 then 1 else 0) + Nulls(c, e + 1, x)
  }

  lemma {:induction false} NullsSame(c: Block, c': Block, e: nat, x: nat)
    requires e <= x <= 256 && forall y :: e <= y < x ==> Ptr(c', y) == Ptr(c, y)
    ensures Nulls(c', e, x) == Nulls(c, e, x)
    decreases x - e
  {
    hide Ptr;
    if e < x { NullsSame(c, c', e + 1, x); }
  }

  /** Entry x is the first from e on that is off the disk, and a write of len
      bytes reaches it: enough bytes, and a free block for each null entry before. */
  ghost predicate StopsAt(c: Block, e: nat, x: nat, blocks: nat, free: nat, len: nat) {
    && e <= x < 256 && Ptr(c, x) >= blocks && (forall y :: e <= y < x ==> Ptr(c, y) < blocks)
    && Nulls(c, e, x) <= free && (x == e || 1024 * (x - e) < len)
  }

  /** What one entry leaves of the buffer and of the free blocks. */
  lemma FillOneCount(st: Store, i: nat, b: nat, c: Block, e: nat, off: nat, data: seq<byte>)
    requires Sized(st) && i < |st.inodes| && b < |st.blocks| < 0x20_0000 && e < 256 && 0 < st.start && off % 1024 == 0
    ensures var x, isNew := FillOne(st, i, b, c, e, off, data), Ptr(c, e) == 0;
            && (x.NoSpace? <==> isNew && FreeBlocks(st) == 0)
            && (x.OffDisk? <==> Ptr(c, e) >= |st.blocks|)
            && (x.Entry? ==> && x.k == Min(1024, |data|) && FreeBlocks(x.st) == FreeBlocks(st) - (if isNew then 1 else 0)
                             && x.st.start == st.start
                             && (forall y :: 0 <= y < 256 && y != e ==> Ptr(x.c, y) == Ptr(c, y)))
  {
    hide FirstFree, Ptr, SetPtr, Splice;
    var f := FirstFree(st.blockMap, st.start, |st.blocks|);
    FreeIsFree(st.blockMap, st.start, |st.blocks|);
    CountTake(st.blockMap, st.start, |st.blocks|);
    PtrSetPtr(c, e, f);
  }

  lemma {:induction false} EntriesStopIff(st: Store, i: nat, b: nat, c: Block, e: nat, off: nat, data: seq<byte>, done: nat,
                                        torn: bool)
    requires Sized(st) && i < |st.inodes| && b < |st.blocks| < 0x20_0000 && e <= 256 && 0 < st.start && off % 1024 == 0
    ensures FillEntries(st, i, b, c, e, off, data, done, torn).Stopped?
            <==> exists x :: StopsAt(c, e, x, |st.blocks|, FreeBlocks(st), |data|)
    decreases 256 - e
  {
    hide FillOne, Ptr, FreeBlocks;
    if e < 256 {
      FillOneCount(st, i, b, c, e, off, data);
      var x := FillOne(st, i, b, c, e, off, data);
      match x {
        case NoSpace => NoneStops(c, e, |st.blocks|, FreeBlocks(st), |data|);
        case OffDisk => assert StopsAt(c, e, e, |st.blocks|, FreeBlocks(st), |data|);
        case Entry(s, c', k, over) =>
          if k < |data| {
            EntriesStopIff(s, i, b, c', e + 1, off, data[k..], done + k, torn || over);
            StopsOn(c, c', e, e + 1, |st.blocks|, FreeBlocks(st), FreeBlocks(s), |data|, |data[k..]|);
          } else {
            NoneStops(c, e, |st.blocks|, FreeBlocks(st), |data|);
          }
      }
    }
  }

  lemma NoneStops(c: Block, e: nat, blocks: nat, free: nat, len: nat)
    requires e < 256 && Ptr(c, e) < blocks && (len <= 1024 || (Ptr(c, e) == 0 && free == 0))
    ensures forall x :: !StopsAt(c, e, x, blocks, free, len)
  {
    hide Ptr;
  }

  lemma StopsOn(c: Block, c': Block, e: nat, e': nat, blocks: nat, free: nat, free': nat, len: nat, len': nat)
    requires e < 256 && e' == e + 1 && Ptr(c, e) < blocks && len == len' + 1024 > 1024
    requires free' == free - (if Ptr(c, e) == 0 then 1 else 0)
    requires forall y :: 0 <= y < 256 && y != e ==> Ptr(c', y) == Ptr(c, y)
    ensures (exists x :: StopsAt(c, e, x, blocks, free, len)) <==> exists x :: StopsAt(c', e', x, blocks, free', len')
  {
    hide Ptr;
    forall x ensures StopsAt(c, e, x, blocks, free, len) <==> StopsAt(c', e', x, blocks, free', len') {
      if e < x < 256 { NullsSame(c, c', e', x); }
    }
    hide StopsAt;
    if x :| StopsAt(c, e, x, blocks, free, len) { assert StopsAt(c', e', x, blocks, free', len'); }
    if x :| StopsAt(c', e', x, blocks, free', len') { assert StopsAt(c, e, x, blocks, free, len); }
  }

  // ---- a write at the end of a file that lacks the next second-level block ----

  /** The file ends where second-level block k begins, and b, the first free
      block, will be taken for it. */
  ghost predicate AtIndexEnd(st: Store, i: nat, k: nat, b: nat)
    requires i < |st.inodes|
  {
    Sized(st) && Boundary(st, i, k) && k < 256 && b == FirstFree(st.blockMap, st.start, |st.blocks|) < |st.blocks|
  }

  /** The call is the outer loop from there. */
  lemma FileIsOuter(st: Store, ow: Owners, i: nat, k: nat, b: nat, data: seq<byte>)
    requires Good(st, ow) && Live(st, i) && AtIndexEnd(st, i, k, b)
    ensures 0 < st.inodes[i].indir2 < |st.blocks| && Ptr(st.blocks[st.inodes[i].indir2], k) == 0
    ensures LoopsFile(st, i, st.inodes[i].size, data) ==
            FillOuter(st, i, st.blocks[st.inodes[i].indir2], k, 0, st.inodes[i].size, data, 0, false)
  {
    hide FillOuter, Ptr, Target;
    BoundaryOpensAt(st, ow, i, k);
    BoundaryNull(st, i, k);
    OuterIs(st, i, k);
    InodePointers(st, i);
    assert st.inodes[i].size / 1024 == FirstOf(k);
    assert Grow(st, i, Ind2) == Ok(st);
  }

  /** Data for one second-level block ends within it. */
  lemma {:induction false} EntriesDone(st: Store, i: nat, b: nat, c: Block, e: nat, off: nat, data: seq<byte>, done: nat,
                                       torn: bool)
    requires Sized(st) && i < |st.inodes| && b < |st.blocks| && e < 256 && off % 1024 == 0 && |data| <= (256 - e) * 1024
    ensures !FillEntries(st, i, b, c, e, off, data, done, torn).More?
    decreases 256 - e
  {
    FillOneLength(st, i, b, c, e, off, data);
    hide FillOne;
    var x := FillOne(st, i, b, c, e, off, data);
    if x.Entry? && x.k < |data| && e < 255 { EntriesDone(x.st, i, b, x.c, e + 1, off, data[x.k..], done + x.k, torn || x.over); }
  }

  lemma FillOneLength(st: Store, i: nat, b: nat, c: Block, e: nat, off: nat, data: seq<byte>)
    requires Sized(st) && i < |st.inodes| && b < |st.blocks| && e < 256 && off % 1024 == 0
    ensures var x := FillOne(st, i, b, c, e, off, data); x.Entry? ==> x.k == Min(1024, |data|)
  {
    hide FirstFree, Ptr, SetPtr, Splice;
  }

  lemma TakeFacts(st: Store, ow: Owners, i: nat, k: nat, b: nat)
    requires Good(st, ow) && Live(st, i) && AtIndexEnd(st, i, k, b)
    ensures 0 < st.inodes[i].indir2 < |st.blocks| && Ptr(st.blocks[st.inodes[i].indir2], k) == 0
    ensures var t, q := TakenNow(st, i, st.blocks[st.inodes[i].indir2], k), st.inodes[i].indir2;
            && t.blocks[b] == st.blocks[b] && t.start == st.start && 0 < b && b != q && 0 < st.start && |st.blocks| < 0x20_0000
            && st.blockMap[q] && t.blockMap[q] && t.blocks[q] == SetPtr(st.blocks[q], k, b)
            && FreeBlocks(t) == FreeBlocks(st) - 1
  {
    hide Ptr, SetPtr, FirstFree, Target, Owned, CountFree, FillOuter;
    BoundaryNull(st, i, k);
    hide Boundary;
    FileIsOuter(st, ow, i, k, b, []);
    TakeIs(st, ow, i, k, b);
    CountTake(st.blockMap, st.start, |st.blocks|);
    FreeIsFree(st.blockMap, st.start, |st.blocks|);
  }

  lemma FileIsEntries(st: Store, ow: Owners, i: nat, k: nat, b: nat, data: seq<byte>)
    requires Good(st, ow) && Live(st, i) && AtIndexEnd(st, i, k, b) && |data| <= 256 * 1024
    ensures st.inodes[i].indir2 < |st.blocks|
    ensures var t := TakenNow(st, i, st.blocks[st.inodes[i].indir2], k);
            LoopsFile(st, i, st.inodes[i].size, data) == FillEntries(t, i, b, st.blocks[b], 0, st.inodes[i].size, data, 0, false)
  {
    hide FillOuter, FillEntries, Ptr, SetPtr, Takes, FirstFree, LoopsFile, Good, FreeBlocks, TakenEntries, TakenNow, Boundary;
    FileIsOuter(st, ow, i, k, b, data);
    TakeFacts(st, ow, i, k, b);
    var d, off := st.blocks[st.inodes[i].indir2], st.inodes[i].size;
    OuterTurn(st, i, d, k, off, data, 0, false);
    EndAligned(st, i, k);
    TurnEnds(st, i, d, k, b, off, data);
  }

  lemma EndAligned(st: Store, i: nat, k: nat)
    requires i < |st.inodes| && Boundary(st, i, k)
    ensures st.inodes[i].size % 1024 == 0
  {
    BoundaryNull(st, i, k);
  }

  lemma TurnEnds(st: Store, i: nat, d: Block, k: nat, b: nat, off: nat, data: seq<byte>)
    requires Sized(st) && i < |st.inodes| && st.inodes[i].indir2 < |st.blocks| && k < 256 && |data| <= 256 * 1024 && off % 1024 == 0
    requires b == FirstFree(st.blockMap, st.start, |st.blocks|) < |st.blocks|
    ensures var t := TakenNow(st, i, d, k);
            && TakenEntries(st, i, d, k, off, data, 0, false) == FillEntries(t, i, b, t.blocks[b], 0, off, data, 0, false)
            && !TakenEntries(st, i, d, k, off, data, 0, false).More?
  {
    hide FillEntries, FirstFree, SetPtr;
    var t := TakenNow(st, i, d, k);
    EntriesDone(t, i, b, t.blocks[b], 0, off, data, 0, false);
  }

  /** Block b can be taken as second-level block k. */
  ghost predicate CanTake(st: Store, i: nat, k: nat, b: nat) {
    && Sized(st) && i < |st.inodes| && st.inodes[i].indir2 < |st.blocks| && k < 256
    && b == FirstFree(st.blockMap, st.start, |st.blocks|) < |st.blocks|
  }

  lemma IndexEndTakes(st: Store, ow: Owners, i: nat, k: nat, b: nat)
    requires Good(st, ow) && Live(st, i) && AtIndexEnd(st, i, k, b)
    ensures CanTake(st, i, k, b)
  {
    hide Boundary, FirstFree;
    FileIsOuter(st, ow, i, k, b, []);
  }

  /** One of the entries a write of len bytes reaches is off the disk. */
  ghost predicate ReachesOffDisk(st: Store, i: nat, k: nat, b: nat, len: nat)
    requires CanTake(st, i, k, b)
  {
    var free := FreeBlocks(TakenNow(st, i, st.blocks[st.inodes[i].indir2], k));
    exists x :: StopsAt(st.blocks[b], 0, x, |st.blocks|, free, len)
  }

  /** A write of up to one second-level block is stopped by the device exactly
      when an entry it reaches is off the disk. */
  lemma StaleStopIff(st: Store, ow: Owners, i: nat, k: nat, b: nat, data: seq<byte>)
    requires Good(st, ow) && Live(st, i) && AtIndexEnd(st, i, k, b) && |data| <= 256 * 1024
    ensures CanTake(st, i, k, b)
    ensures LoopsFile(st, i, st.inodes[i].size, data).Stopped? <==> ReachesOffDisk(st, i, k, b, |data|)
  {
    hide FillEntries, Ptr, LoopsFile, Boundary, StopsAt, FreeBlocks, Good, Live;
    IndexEndTakes(st, ow, i, k, b);
    FileIsEntries(st, ow, i, k, b, data);
    TakeFacts(st, ow, i, k, b);
    BoundaryNull(st, i, k);
    var t := TakenNow(st, i, st.blocks[st.inodes[i].indir2], k);
    EntriesStopIff(t, i, b, st.blocks[b], 0, st.inodes[i].size, data, 0, false);
  }

  /** What a write of up to one block comes to when block b, with its old contents
      c, is taken: r is stopped if entry 0 is off the disk; the data goes to a
      fresh block if it is null, and otherwise over the block it names; that may
      be a bitmap or inode block, and index block b is written last. */
  ghost predicate OneBlockWritten(st: Store, i: nat, k: nat, b: nat, data: seq<byte>, r: Loop)
    requires CanTake(st, i, k, b) && |data| <= 1024
  {
    var t, c := TakenNow(st, i, st.blocks[st.inodes[i].indir2], k), st.blocks[b];
    var p, f := Ptr(c, 0), FirstFree(t.blockMap, t.start, |t.blocks|);
    var longer := t.inodes[i := t.inodes[i].(size := t.inodes[i].size + |data|)];
    && (r.Stopped? <==> p >= |st.blocks|)
    && (p >= |st.blocks| ==> r == Stopped(t, false))
    && (p == 0 && f == |st.blocks| ==> r == Ended(t, ENOSPC, false))
    && (p == 0 && f < |st.blocks| ==>
          r == Ended(t.(inodes := longer, blockMap := t.blockMap[f := true],
                        blocks := t.blocks[f := Splice(ZeroBlock, 0, data)][b := SetPtr(c, 0, f)]), |data|, false))
    && (0 < p < st.start ==> r == Ended(t.(inodes := longer), |data|, true))
    && (st.start <= p < |st.blocks| ==>
          r == Ended(t.(inodes := longer, blocks := t.blocks[p := Splice(t.blocks[p], 0, data)][b := c]), |data|, false))
  }

  lemma StaleWriteIs(st: Store, ow: Owners, i: nat, k: nat, b: nat, data: seq<byte>)
    requires Good(st, ow) && Live(st, i) && AtIndexEnd(st, i, k, b) && 0 < |data| <= 1024
    ensures CanTake(st, i, k, b) && OneBlockWritten(st, i, k, b, data, LoopsFile(st, i, st.inodes[i].size, data))
  {
    hide Ptr, SetPtr, LoopsFile, Boundary, Splice, FirstFree, FreeBlocks, Good, Live;
    IndexEndTakes(st, ow, i, k, b);
    FileIsEntries(st, ow, i, k, b, data);
    TakeFacts(st, ow, i, k, b);
    BoundaryNull(st, i, k);
    var t, c := TakenNow(st, i, st.blocks[st.inodes[i].indir2], k), st.blocks[b];
    FreeIsFree(t.blockMap, t.start, |t.blocks|);
    assert data[..|data|] == data && st.inodes[i].size % 1024 == 0;
    assert t.blocks[b := c] == t.blocks;
  }

  // ---- old words the file does not reach ----

  /** A marked block that no entry reached by the write names is not touched, and
      the entries of the index block that were not null stay. */
  lemma {:induction false} EntriesSpare(st: Store, i: nat, b: nat, c: Block, e: nat, off: nat, data: seq<byte>, done: nat,
                                        torn: bool, y: nat)
    requires Sized(st) && i < |st.inodes| && b < |st.blocks| < 0x20_0000 && e <= 256 && 0 < st.start && st.blocks[b] == c
    requires off % 1024 == 0 && y < |st.blocks| && y != b && st.blockMap[y]
    requires forall x :: e <= x < 256 && (x == e || (x - e) * 1024 < |data|) ==> Ptr(c, x) != y
    ensures var r := FillEntries(st, i, b, c, e, off, data, done, torn);
            r.st.blocks[y] == st.blocks[y] && EntriesStay(c, r.st.blocks[b])
    decreases 256 - e
  {
    hide FillOne, Ptr, EntriesStay;
    BetweenNone(st, map[], i, 0, b, c, e);
    if e < 256 && FillOne(st, i, b, c, e, off, data).Entry? {
      var x := FillOne(st, i, b, c, e, off, data);
      var p := FillOneFields(st, i, b, c, e, off, data);
      FillOneLength(st, i, b, c, e, off, data);
      if x.k < |data| {
        EntriesSpare(x.st, i, b, x.c, e + 1, off, data[x.k..], done + x.k, torn || x.over, y);
      } else {
        BetweenNone(x.st, map[], i, 0, b, x.c, e);
      }
      EntriesStayOn(st, x.st, b, c, x.c, e, p, FillEntries(st, i, b, c, e, off, data, done, torn).st.blocks[b]);
    }
  }

  /** An old word beyond the blocks the file reaches breaks it, unless an entry
      the write reaches named the double-indirect block. */
  lemma StaleBreaks(st: Store, ow: Owners, i: nat, k: nat, b: nat, data: seq<byte>, e: nat)
    requires Good(st, ow) && Live(st, i) && AtIndexEnd(st, i, k, b) && |data| <= 256 * 1024
    requires |data| / 1024 + 1 <= e < 256 && Ptr(st.blocks[b], e) != 0
    requires forall x :: 0 <= x < 256 && (x == 0 || x * 1024 < |data|) ==> Ptr(st.blocks[b], x) != st.inodes[i].indir2
    ensures var f := LoopsFile(st, i, st.inodes[i].size, data).st; i < |f.inodes| && !Shape(f, i)
  {
    hide FillEntries, Ptr, SetPtr, LoopsFile, Boundary, FreeBlocks, Good, Live, EntriesStay, Counted, Shape;
    FileIsEntries(st, ow, i, k, b, data);
    EndKnown(st, ow, i, k, b);
    TakeFacts(st, ow, i, k, b);
    var q := st.inodes[i].indir2;
    var t, off := TakenNow(st, i, st.blocks[q], k), st.inodes[i].size;
    EntriesSpare(t, i, b, st.blocks[b], 0, off, data, 0, false, q);
    EntriesCounted(t, i, b, st.blocks[b], 0, off, data, 0, false);
    var r := LoopsFile(st, i, off, data);
    var n := CountedIs(t, i, r, data, 0);
    NewEntry(st, st.blocks[q], k);
    StaysReachable(r.st, i, k, q, b, e, st.blocks[b]);
  }

  lemma EndKnown(st: Store, ow: Owners, i: nat, k: nat, b: nat)
    requires Good(st, ow) && Live(st, i) && AtIndexEnd(st, i, k, b)
    ensures Sized(st) && i < |st.inodes| && st.inodes[i].size == FirstOf(k) * 1024
  {
    BoundaryNull(st, i, k);
  }

  lemma StaysReachable(f: Store, i: nat, k: nat, q: nat, b: nat, e: nat, c: Block)
    requires i < |f.inodes| && k < 256 && f.inodes[i].indir2 == q && 0 < q < |f.blocks| && Ptr(f.blocks[q], k) == b
             && 0 < b < |f.blocks|
    requires e < 256 && EntriesStay(c, f.blocks[b]) && Ptr(c, e) != 0 && f.inodes[i].size < (FirstOf(k) + e) * 1024
    ensures !Shape(f, i)
  {
    hide Ptr;
    OuterIs(f, i, k);
    var m := Data(FirstOf(k) + e);
    TargetCell(f.inodes[i], f.blocks, m);
    assert CellOf(m) == InBlock(Outer(k), e);
    assert T(f, i, m) == Ptr(c, e) != 0;
    assert FirstBlock(m) * 1024 > f.inodes[i].size;
  }
}
