/** What bytes a write leaves: over old blocks and in new ones, to any length. */
module Overwrites {
  import opened Layout
  import opened State
  import opened FileWrite
  import opened WriteProofs
  import opened AttachProofs
  import opened WriteTheorems

  /** Writing within one existing block: every byte under the data is replaced,
      every other is as it was, and the size grows by the whole length, so that
      bytes of the blocks beyond the old end become part of the file. */
  lemma OverwriteBytes(st: Store, ow: Owners, i: nat, off: nat, data: seq<byte>)
    requires Good(st, ow) && Live(st, i) && Shape(st, i) && off < st.inodes[i].size && off % 1024 + |data| <= 1024
    ensures var r := WriteFile(st, i, off, data);
            && r.rc == |data| && i < |r.st.inodes| && r.st.inodes[i].size == st.inodes[i].size + |data|
            && forall x: nat :: ByteAt(r.st, i, x) == PutByte(st, i, off, data, x)
  {
    hide Shape, Good, Target, PutBytes;
    InsideBlock(st, ow, i, off, data);
    BytesPut(st, ow, i, off / 1024, off % 1024, data);
  }

  lemma InsideBlock(st: Store, ow: Owners, i: nat, off: nat, data: seq<byte>)
    requires Good(st, ow) && Live(st, i) && Shape(st, i) && off < st.inodes[i].size && off % 1024 + |data| <= 1024
    ensures Sized(st) && T(st, i, Data(off / 1024)) != 0
    ensures WriteFile(st, i, off, data) == Result(PutBytes(st, i, off / 1024, off % 1024, data), |data|)
  {
    hide Target, PutBytes, Owned, GrowIndex, WriteStep;
    var l := off / 1024;
    assert T(st, i, Data(l)) != 0;
    IndexThere(st, i, l);
    StepInside(st, i, l, off, data);
  }

  lemma IndexThere(st: Store, i: nat, l: nat)
    requires Sized(st) && i < |st.inodes| && l < 65798 && T(st, i, Data(l)) != 0
    ensures GrowIndex(st, i, l) == Ok(st)
  {
    TargetCell(st.inodes[i], st.blocks, Data(l));
    if 262 <= l { TargetCell(st.inodes[i], st.blocks, OuterOf(l)); }
  }

  lemma StepInside(st: Store, i: nat, l: nat, off: nat, data: seq<byte>)
    requires Sized(st) && i < |st.inodes| && l < 65798 && T(st, i, Data(l)) != 0 && GrowIndex(st, i, l) == Ok(st)
    requires off % 1024 + |data| <= 1024
    ensures WriteStep(st, i, l, off, data) == Wrote(PutBytes(st, i, l, off % 1024, data), off % 1024, |data|)
  {
    hide Target, PutBytes, GrowIndex;
    assert Grow(st, i, Data(l)) == Ok(st);
    assert data[..|data|] == data;
  }

  lemma BytesPut(st: Store, ow: Owners, i: nat, l: nat, tb: nat, data: seq<byte>)
    requires Good(st, ow) && Live(st, i) && tb + |data| <= 1024 && T(st, i, Data(l)) != 0
    ensures var s := PutBytes(st, i, l, tb, data);
            && |s.inodes| == |st.inodes| && s.inodes[i].size == st.inodes[i].size + |data|
            && forall x: nat :: ByteAt(s, i, x) == PutByte(st, i, l * 1024 + tb, data, x)
  {
    hide Owned, Target, ByteAt, PutByte, Splice;
    forall x: nat ensures ByteAt(PutBytes(st, i, l, tb, data), i, x) == PutByte(st, i, l * 1024 + tb, data, x) {
      BytePut(st, ow, i, l, tb, data, x);
    }
  }

  /** Byte x of the blocks of file i once data lies at off. */
  function PutByte(st: Store, i: nat, off: nat, data: seq<byte>, x: nat): byte
    requires i < |st.inodes|
  {
    if off <= x < off + |data| then data[x - off] else ByteAt(st, i, x)
  }

  lemma BytePut(st: Store, ow: Owners, i: nat, l: nat, tb: nat, data: seq<byte>, x: nat)
    requires Good(st, ow) && Live(st, i) && tb + |data| <= 1024 && T(st, i, Data(l)) != 0
    ensures i < |PutBytes(st, i, l, tb, data).inodes|
    ensures ByteAt(PutBytes(st, i, l, tb, data), i, x) == PutByte(st, i, l * 1024 + tb, data, x)
  {
    var s, p := PutBytes(st, i, l, tb, data), T(st, i, Data(l));
    PutOk(st, ow, i, l, tb, data);
    assert T(s, i, Data(x / 1024)) == T(st, i, Data(x / 1024));
    PutPlace(st, ow, i, l, tb, data);
    hide Target, T, PutBytes, Owned, Splice;
    ByteOf(st, i, x);
    ByteOf(s, i, x);
    hide ByteAt;
    if x / 1024 == l {
      assert x % 1024 == x - l * 1024;
      SplicedByte(st.blocks[p], tb, data, x % 1024);
    }
  }

  lemma SplicedByte(b: Block, tb: nat, data: seq<byte>, y: nat)
    requires tb + |data| <= 1024 && y < 1024
    ensures Splice(b, tb, data)[y] == if tb <= y < tb + |data| then data[y - tb] else b[y]
  {
  }

  lemma ByteOf(st: Store, i: nat, x: nat)
    requires i < |st.inodes|
    ensures ByteAt(st, i, x) == BlockAt(st.blocks, T(st, i, Data(x / 1024)))[x % 1024]
  {
  }

  /** Only block l changes. */
  lemma PutPlace(st: Store, ow: Owners, i: nat, l: nat, tb: nat, data: seq<byte>)
    requires Good(st, ow) && Live(st, i) && tb + |data| <= 1024 && T(st, i, Data(l)) != 0
    ensures var s, p := PutBytes(st, i, l, tb, data), T(st, i, Data(l));
            && |s.inodes| == |st.inodes| && p < |st.blocks| && s.blocks == st.blocks[p := Splice(st.blocks[p], tb, data)]
            && forall m: Loc :: m != Data(l) ==> T(st, i, m) != p
  {
    hide Target, Splice;
  }

  /** Seen from the file: it starts with what a write should leave, and then has
      as many bytes too many as the data had over old ones. */
  lemma OverwriteContents(st: Store, ow: Owners, i: nat, off: nat, data: seq<byte>)
    requires Good(st, ow) && Live(st, i) && Shape(st, i) && off < st.inodes[i].size && off % 1024 + |data| <= 1024
    ensures var r, want := WriteFile(st, i, off, data), Overlay(Contents(st, i), off, data);
            && i < |r.st.inodes| && want <= Contents(r.st, i)
            && |Contents(r.st, i)| - |want| == Min(|data|, st.inodes[i].size - off)
  {
    hide Shape, Owned, ByteAt, WriteFile;
    OverwriteBytes(st, ow, i, off, data);
    var r, old_ := WriteFile(st, i, off, data), Contents(st, i);
    assert |old_| == st.inodes[i].size;
    var want := Overlay(old_, off, data);
    forall x | 0 <= x < |want| ensures want[x] == Contents(r.st, i)[x] {
      assert want[x] == if off <= x < off + |data| then data[x - off] else old_[x];
    }
  }

  // ---- to any length ----

  /** A byte of the file's blocks; a block that is not there counts as zeros. */
  function BlockByte(st: Store, i: nat, x: nat): byte
    requires i < |st.inodes|
  {
    if T(st, i, Data(x / 1024)) == 0 then 0 else ByteAt(st, i, x)
  }

  /** Byte x after data is written from block l on: each block that is there
      takes its share at offset off % 1024, each new one at its start. */
  function NewByte(st: Store, i: nat, l: nat, off: nat, data: seq<byte>, x: nat): byte
    requires i < |st.inodes|
    decreases |data|
  {
    var tb := if T(st, i, Data(l)) == 0 then 0 else off % 1024;
    var k := Min(1024 - tb, |data|);
    if l * 1024 + tb <= x < l * 1024 + tb + k then data[x - (l * 1024 + tb)]
    else if k == |data| then BlockByte(st, i, x)
    else NewByte(st, i, l + 1, NextOff(l, off, tb), data[k..], x)
  }

  ghost predicate BytesAre(st: Store, s: Store, i: nat, l: nat, off: nat, data: seq<byte>)
    requires i < |st.inodes|
  {
    && i < |s.inodes|
    && forall x: nat :: BlockByte(s, i, x) == NewByte(st, i, l, off, data, x)
  }

  /** A data block taken is zeroed. */
  lemma GrowZero(st: Store, ow: Owners, i: nat, l: nat)
    requires Good(st, ow) && Live(st, i) && l < 65798 && Grow(st, i, Data(l)).Ok?
    requires CellOf(Data(l)).InBlock? ==> T(st, i, CellOf(Data(l)).parent) != 0
    ensures var s := Grow(st, i, Data(l)).st;
            i < |s.inodes| && forall x: nat :: x / 1024 == l ==> ByteAt(s, i, x) == BlockByte(st, i, x)
  {
    hide Owned;
    if T(st, i, Data(l)) == 0 {
      var b := FirstFree(st.blockMap, st.start, |st.blocks|);
      AttachBlocks(st, ow, i, Data(l), b, ZeroBlock);
      AttachTarget(st, ow, i, Data(l), b, ZeroBlock, i, Data(l));
      hide Target, Attach;
    }
  }

  /** All that is allocated in one iteration, seen from the bytes. */
  lemma GrownBytes(st: Store, ow: Owners, i: nat, l: nat, x: nat)
    requires Good(st, ow) && Live(st, i) && l < 65798 && StepClean(st, i, l)
    ensures var g := GrowIndex(st, i, l);
            g.Ok? ==>
              var h := Grow(g.st, i, Data(l));
              h.Ok? ==> BlockByte(h.st, i, x) == BlockByte(st, i, x) && T(h.st, i, Data(l)) != 0
                        && (x / 1024 != l ==> T(h.st, i, Data(x / 1024)) == T(st, i, Data(x / 1024)))
  {
    hide Owned, Target, Extends, StepClean, Leaked, ByteAt;
    StepGrownAt(st, ow, i, l, Data(if x / 1024 == l then l + 1 else x / 1024));
    var ow1 := GrowIndexOk(st, ow, i, l);
    var g := GrowIndex(st, i, l);
    if g.Ok? {
      ExtendsLive(st, g.st, i);
      ExtendsByte(st, g.st, i, x);
      var ow2 := GrowOk(g.st, ow1, i, Data(l));
      var h := Grow(g.st, i, Data(l));
      if h.Ok? {
        if x / 1024 == l { GrowZero(g.st, ow1, i, l); } else { ExtendsByte(g.st, h.st, i, x); }
      }
    }
  }

  lemma ExtendsByte(a: Store, b: Store, i: nat, x: nat)
    requires Live(a, i) && Extends(a, b, i)
    ensures i < |b.inodes| && (T(a, i, Data(x / 1024)) != 0 ==> T(b, i, Data(x / 1024)) != 0 && ByteAt(b, i, x) == ByteAt(a, i, x))
  {
    hide Target;
  }

  /** One iteration. */
  lemma StepBytes(st: Store, ow: Owners, i: nat, l: nat, off: nat, data: seq<byte>, x: nat)
    requires Good(st, ow) && Live(st, i) && l < 65798 && StepClean(st, i, l)
    ensures var r := WriteStep(st, i, l, off, data);
            r.Wrote? ==>
              && i < |r.st.inodes| && r.tb == (if T(st, i, Data(l)) == 0 then 0 else off % 1024)
              && (x / 1024 != l ==> T(r.st, i, Data(x / 1024)) == T(st, i, Data(x / 1024)))
              && BlockByte(r.st, i, x) == if l * 1024 + r.tb <= x < l * 1024 + r.tb + r.k then data[x - (l * 1024 + r.tb)]
                                          else BlockByte(st, i, x)
  {
    hide Owned, Target, StepClean, Leaked, Grow, GrowIndex, Extends, ByteAt, PutBytes;
    var g := GrowIndex(st, i, l);
    var ow' := StepGrown(st, ow, i, l);
    StepGrownAt(st, ow, i, l, Data(if x / 1024 == l then l + 1 else x / 1024));
    GrownBytes(st, ow, i, l, x);
    if g.Ok? && Grow(g.st, i, Data(l)).Ok? {
      var h := Grow(g.st, i, Data(l)).st;
      var tb := if T(g.st, i, Data(l)) == 0 then 0 else off % 1024;
      ExtendsLive(st, h, i);
      BytePut(h, ow', i, l, tb, data[..Min(1024 - tb, |data|)], x);
      PutOk(h, ow', i, l, tb, data[..Min(1024 - tb, |data|)]);
    }
  }

  /** Bytes below the first block written to. */
  lemma {:induction false} NewBelow(st: Store, i: nat, l: nat, off: nat, data: seq<byte>, x: nat)
    requires i < |st.inodes| && x / 1024 < l
    ensures NewByte(st, i, l, off, data, x) == BlockByte(st, i, x)
    decreases |data|
  {
    hide BlockByte, Target;
    var tb := if T(st, i, Data(l)) == 0 then 0 else off % 1024;
    var k := Min(1024 - tb, |data|);
    if k < |data| { NewBelow(st, i, l + 1, NextOff(l, off, tb), data[k..], x); }
  }

  /** NewByte depends on which blocks are there and on the old byte only. */
  lemma {:induction false} NewSame(st: Store, s: Store, i: nat, l: nat, off: nat, data: seq<byte>, x: nat)
    requires i < |st.inodes| && i < |s.inodes| && (forall m: nat :: m >= l ==> T(s, i, Data(m)) == T(st, i, Data(m)))
    requires BlockByte(s, i, x) == BlockByte(st, i, x)
    ensures NewByte(s, i, l, off, data, x) == NewByte(st, i, l, off, data, x)
    decreases |data|
  {
    hide BlockByte, Target;
    var tb := if T(st, i, Data(l)) == 0 then 0 else off % 1024;
    var k := Min(1024 - tb, |data|);
    if k < |data| { NewSame(st, s, i, l + 1, NextOff(l, off, tb), data[k..], x); }
  }

  /** Every byte of the file's blocks after a complete write, whatever its offset
      and length. */
  lemma {:induction false} WriteBytes(st: Store, ow: Owners, i: nat, l: nat, off: nat, data: seq<byte>, done: nat)
    requires Good(st, ow) && Sized(st) && Live(st, i) && l < 65798 && WriteClean(st, i, l, off, data)
    requires WriteFrom(st, i, l, off, data, done).rc == done + |data|
    ensures BytesAre(st, WriteFrom(st, i, l, off, data, done).st, i, l, off, data)
    decreases |data|
  {
    hide WriteStep, StepClean, Owned, Target, OthersSame, Leaked, BlockByte, ByteAt;
    var s := WriteStep(st, i, l, off, data);
    var r := WriteFrom(st, i, l, off, data, done).st;
    WriteGrows(st, i, l, off, data, done);
    var ow' := StepOwned(st, ow, i, l, off, data);
    if s.Wrote? && s.k < |data| && l + 1 < 65798 {
      WriteBytes(s.st, ow', i, l + 1, NextOff(l, off, s.tb), data[s.k..], done + s.k);
    }
    if s.Wrote? {
      forall x: nat ensures BlockByte(r, i, x) == NewByte(st, i, l, off, data, x) {
        NewByteStep(st, ow, s, r, i, l, off, data, x);
      }
    }
  }

  lemma NewByteStep(st: Store, ow: Owners, s: Stepped, r: Store, i: nat, l: nat, off: nat, data: seq<byte>, x: nat)
    requires Good(st, ow) && Sized(st) && Live(st, i) && l < 65798 && StepClean(st, i, l)
    requires s == WriteStep(st, i, l, off, data) && s.Wrote? && i < |r.inodes|
    requires s.k == |data| ==> r == s.st
    requires s.k < |data| ==> BytesAre(s.st, r, i, l + 1, NextOff(l, off, s.tb), data[s.k..])
    ensures BlockByte(r, i, x) == NewByte(st, i, l, off, data, x)
  {
    hide WriteStep, StepClean, Owned, Target, BlockByte, BytesAre, NewByte;
    NewByteIs(st, i, l, off, data, x);
    StepBytes(st, ow, i, l, off, data, x);
    if s.k < |data| {
      var off', rest := NextOff(l, off, s.tb), data[s.k..];
      BytesAt(s.st, r, i, l + 1, off', rest, x);
      if x / 1024 <= l {
        NewBelow(s.st, i, l + 1, off', rest, x);
        NewBelow(st, i, l + 1, off', rest, x);
      } else {
        SamePlaces(st, ow, i, l, off, data);
        NewSame(st, s.st, i, l + 1, off', rest, x);
      }
    }
  }

  lemma NewByteIs(st: Store, i: nat, l: nat, off: nat, data: seq<byte>, x: nat)
    requires i < |st.inodes|
    ensures var tb := if T(st, i, Data(l)) == 0 then 0 else off % 1024;
            var k := Min(1024 - tb, |data|);
            NewByte(st, i, l, off, data, x) ==
            if l * 1024 + tb <= x < l * 1024 + tb + k then data[x - (l * 1024 + tb)]
            else if k == |data| then BlockByte(st, i, x)
            else NewByte(st, i, l + 1, NextOff(l, off, tb), data[k..], x)
  {
  }

  lemma SamePlaces(st: Store, ow: Owners, i: nat, l: nat, off: nat, data: seq<byte>)
    requires Good(st, ow) && Live(st, i) && l < 65798 && StepClean(st, i, l) && WriteStep(st, i, l, off, data).Wrote?
    ensures var s := WriteStep(st, i, l, off, data).st; forall m: nat :: m >= l + 1 ==> T(s, i, Data(m)) == T(st, i, Data(m))
  {
    hide WriteStep, StepClean, Owned, Target, BlockByte;
    forall m: nat | m >= l + 1 ensures T(WriteStep(st, i, l, off, data).st, i, Data(m)) == T(st, i, Data(m)) {
      StepBytes(st, ow, i, l, off, data, m * 1024);
    }
  }

  lemma BytesAt(st: Store, s: Store, i: nat, l: nat, off: nat, data: seq<byte>, x: nat)
    requires i < |st.inodes| && BytesAre(st, s, i, l, off, data)
    ensures i < |s.inodes| && BlockByte(s, i, x) == NewByte(st, i, l, off, data, x)
  {
    hide BlockByte, NewByte;
  }

  // ---- in closed form ----

  /** Old blocks stay, and every block the data reaches is there. */
  ghost predicate BlocksThere(st: Store, s: Store, i: nat, l: nat, len: nat)
    requires i < |st.inodes|
  {
    && i < |s.inodes|
    && forall m: nat :: T(st, i, Data(m)) != 0 || (l <= m && (m - l) * 1024 < len) ==> T(s, i, Data(m)) != 0
  }

  lemma {:induction false} WriteBlocks(st: Store, ow: Owners, i: nat, l: nat, off: nat, data: seq<byte>, done: nat)
    requires Good(st, ow) && Sized(st) && Live(st, i) && l < 65798 && WriteClean(st, i, l, off, data) && data != []
    requires WriteFrom(st, i, l, off, data, done).rc == done + |data|
    ensures BlocksThere(st, WriteFrom(st, i, l, off, data, done).st, i, l, |data|)
    decreases |data|
  {
    hide WriteStep, StepClean, Owned, Target, OthersSame, Leaked, BlockByte;
    var s := WriteStep(st, i, l, off, data);
    WriteGrows(st, i, l, off, data, done);
    var ow' := StepOwned(st, ow, i, l, off, data);
    if s.Wrote? {
      StepBlocks(st, ow, i, l, off, data);
      if s.k < |data| && l + 1 < 65798 {
        WriteBlocks(s.st, ow', i, l + 1, NextOff(l, off, s.tb), data[s.k..], done + s.k);
      }
    }
  }

  lemma StepBlocks(st: Store, ow: Owners, i: nat, l: nat, off: nat, data: seq<byte>)
    requires Good(st, ow) && Live(st, i) && l < 65798 && StepClean(st, i, l) && WriteStep(st, i, l, off, data).Wrote?
    ensures var s := WriteStep(st, i, l, off, data).st;
            && i < |s.inodes| && T(s, i, Data(l)) != 0
            && forall m: nat :: m != l ==> T(s, i, Data(m)) == T(st, i, Data(m))
  {
    hide Owned, Target, StepClean, Leaked, Grow, GrowIndex, Extends, ByteAt, PutBytes;
    var g := GrowIndex(st, i, l);
    var ow' := StepGrown(st, ow, i, l);
    var h := Grow(g.st, i, Data(l)).st;
    var tb := if T(g.st, i, Data(l)) == 0 then 0 else off % 1024;
    ExtendsLive(st, h, i);
    PutOk(h, ow', i, l, tb, data[..Min(1024 - tb, |data|)]);
    forall m: nat | m != l ensures T(WriteStep(st, i, l, off, data).st, i, Data(m)) == T(st, i, Data(m)) {
      StepGrownAt(st, ow, i, l, Data(m));
    }
  }

  /** From a block boundary the bytes go where they should. */
  lemma {:induction false} AlignedByte(st: Store, i: nat, l: nat, off: nat, data: seq<byte>, x: nat)
    requires i < |st.inodes| && off % 1024 == 0
    ensures NewByte(st, i, l, off, data, x) ==
            if l * 1024 <= x < l * 1024 + |data| then data[x - l * 1024] else BlockByte(st, i, x)
    decreases |data|
  {
    hide BlockByte, Target;
    if |data| > 1024 { AlignedByte(st, i, l + 1, NextOff(l, off, 0), data[1024..], x); }
  }

  predicate SameTier(l: nat, m: nat) { (l < 6 <==> m < 6) && (l < 262 <==> m < 262) }

  /** The j-th run of k bytes of the data. */
  function Run(data: seq<byte>, k: nat, j: nat): seq<byte> {
    if j == 0 then data[..Min(k, |data|)] else if |data| <= k then [] else Run(data[k..], k, j - 1)
  }

  /** From inside a block, within one tier of blocks that are all there, they do
      not: each block takes its run of 1024 - t bytes from offset t on. */
  lemma {:induction false} StridedByte(st: Store, i: nat, l: nat, off: nat, data: seq<byte>, j: nat, m: nat)
    requires i < |st.inodes| && off % 1024 > 0 && m < |Run(data, 1024 - off % 1024, j)|
    requires SameTier(l, l + j) && forall n: nat :: l <= n <= l + j ==> T(st, i, Data(n)) != 0
    ensures NewByte(st, i, l, off, data, (l + j) * 1024 + off % 1024 + m) == Run(data, 1024 - off % 1024, j)[m]
    decreases j
  {
    hide BlockByte, Target, NewByte;
    var t := off % 1024;
    NewByteIs(st, i, l, off, data, (l + j) * 1024 + t + m);
    if j > 0 {
      StridedByte(st, i, l + 1, off, data[1024 - t..], j - 1, m);
      assert (l + 1) + (j - 1) == l + j;
    }
  }

  /** The bytes in n runs of k. */
  function RunBytes(n: nat, k: nat): nat { n * k }

  lemma OneRunMore(n: nat, k: nat)
    requires n > 0
    ensures RunBytes(n, k) == k + RunBytes(n - 1, k)
  {
    assert n * k == k + (n - 1) * k;
  }

  /** What is left for the next tier, which starts at block e, goes there in one
      piece from the start of its first block on: the offset is dropped there. */
  lemma {:induction false} NextTierByte(st: Store, i: nat, l: nat, off: nat, data: seq<byte>, e: nat, x: nat)
    requires i < |st.inodes| && l < e && (e == 6 || e == 262) && SameTier(l, e - 1) && e * 1024 <= x
    requires off % 1024 > 0 && RunBytes(e - l, 1024 - off % 1024) < |data|
    requires forall n: nat :: l <= n < e ==> T(st, i, Data(n)) != 0
    ensures var rest := data[RunBytes(e - l, 1024 - off % 1024)..];
            NewByte(st, i, l, off, data, x) == if x < e * 1024 + |rest| then rest[x - e * 1024] else BlockByte(st, i, x)
    decreases e - l
  {
    hide BlockByte, Target, NewByte, RunBytes;
    var k := 1024 - off % 1024;
    OneRunMore(e - l, k);
    AfterFirst(st, i, l, off, data, x);
    if l + 1 < e {
      NextTierByte(st, i, l + 1, off, data[k..], e, x);
      assert data[k..][RunBytes(e - l - 1, k)..] == data[RunBytes(e - l, k)..];
    } else {
      assert RunBytes(0, k) == 0 by { NoRuns(k); }
      AlignedByte(st, i, e, 0, data[k..], x);
    }
  }

  lemma NoRuns(k: nat) ensures RunBytes(0, k) == 0 { }

  lemma AfterFirst(st: Store, i: nat, l: nat, off: nat, data: seq<byte>, x: nat)
    requires i < |st.inodes| && T(st, i, Data(l)) != 0 && off % 1024 > 0 && 1024 - off % 1024 < |data| && (l + 1) * 1024 <= x
    ensures NewByte(st, i, l, off, data, x) ==
            NewByte(st, i, l + 1, if l + 1 == 6 || l + 1 == 262 then 0 else off, data[1024 - off % 1024..], x)
  {
    hide BlockByte, Target, NewByte;
    NewByteIs(st, i, l, off, data, x);
  }

  /** A complete write from a block boundary, to any length: the file starts with
      what it should leave, and is longer by what the data had over old bytes. */
  lemma AlignedOverwrite(st: Store, ow: Owners, i: nat, off: nat, data: seq<byte>)
    requires Good(st, ow) && Live(st, i) && Shape(st, i) && off <= st.inodes[i].size < MAX_BYTES && off % 1024 == 0 && data != []
    requires WriteClean(st, i, off / 1024, off, data) && WriteFile(st, i, off, data).rc == |data|
    ensures var r, want := WriteFile(st, i, off, data), Overlay(Contents(st, i), off, data);
            && i < |r.st.inodes| && want <= Contents(r.st, i)
            && |Contents(r.st, i)| - |want| == Min(|data|, st.inodes[i].size - off)
  {
    hide Good, ByteAt, WriteFrom, WriteClean, NewByte, Target;
    GoodSized(st, ow);
    var r, old_, l := WriteFile(st, i, off, data), Contents(st, i), off / 1024;
    WriteBytes(st, ow, i, l, off, data, 0);
    WriteBlocks(st, ow, i, l, off, data, 0);
    WriteFileGrows(st, i, off, data);
    assert |old_| == st.inodes[i].size;
    var want := Overlay(old_, off, data);
    forall x: nat | x < |want| ensures want[x] == Contents(r.st, i)[x] {
      AlignedByte(st, i, l, off, data, x);
      assert x < st.inodes[i].size ==> T(st, i, Data(x / 1024)) != 0;
      assert T(r.st, i, Data(x / 1024)) != 0;
      assert BlockByte(r.st, i, x) == NewByte(st, i, l, off, data, x);
    }
  }
}
