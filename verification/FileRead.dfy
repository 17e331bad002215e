/** fs_read: which block numbers it fetches, when the device's range assertion
    stops it, and which bytes it copies. */
module FileRead {
  import opened Layout
  import opened State
  import opened FileWrite
  import opened WriteSteps

  datatype Outcome = Bytes(s: seq<byte>) | Code(rc: int) | Aborted

  /** The block numbers fetched on the way to logical block l.  A null index
      pointer is followed like any other: it leads to block 0, the super block. */
  function Fetches(st: Store, n: Inode, l: nat): (ps: seq<nat>)
    requires l < 65798
    ensures |ps| > 0
  {
    if l < 6 then [n.direct[l]]
    else if l < 262 then [n.indir1, Ptr(BlockAt(st.blocks, n.indir1), l - 6)]
    else
      var q := Ptr(BlockAt(st.blocks, n.indir2), (l - 262) / 256);
      [n.indir2, q, Ptr(BlockAt(st.blocks, q), (l - 262) % 256)]
  }

  predicate InRange(st: Store, ps: seq<nat>) { forall k :: 0 <= k < |ps| ==> ps[k] < |st.blocks| }

  function DataFetch(st: Store, n: Inode, l: nat): nat
    requires l < 65798
  {
    Fetches(st, n, l)[|Fetches(st, n, l)| - 1]
  }

  /** The index block above logical block l is missing. */
  predicate IndexMissing(st: Store, i: nat, l: nat)
    requires i < |st.inodes|
  {
    6 <= l < 65798 && T(st, i, CellOf(Data(l)).parent) == 0
  }

  lemma PresentFetch(st: Store, i: nat, l: nat)
    requires Sound(st) && Live(st, i) && l < 65798 && T(st, i, Data(l)) != 0
    ensures InRange(st, Fetches(st, st.inodes[i], l)) && DataFetch(st, st.inodes[i], l) == T(st, i, Data(l))
  {
    hide Ptr, Sound;
    InUse(st, i, Data(l));
    TargetCell(st.inodes[i], st.blocks, Data(l));
    if 6 <= l {
      InUse(st, i, CellOf(Data(l)).parent);
      if 262 <= l {
        TargetCell(st.inodes[i], st.blocks, CellOf(Data(l)).parent);
        InUse(st, i, Ind2);
      }
    }
  }

  /** Fetching the block just past the end: the walk survives exactly when the
      index block is there. */
  lemma EndFetch(st: Store, i: nat, l: nat)
    requires Sound(st) && Geometry(st) && Live(st, i) && Shape(st, i) && l < 65798
    requires l * 1024 <= st.inodes[i].size
    ensures InRange(st, Fetches(st, st.inodes[i], l)) <==> !IndexMissing(st, i, l)
  {
    hide Ptr, Sound;
    var n := st.inodes[i];
    if T(st, i, Data(l)) != 0 {
      PresentFetch(st, i, l);
      if 6 <= l { TargetCell(n, st.blocks, Data(l)); }
    } else {
      assert st.inodes[i].size == l * 1024;
      if 262 <= l { EndFetchDouble(st, i, l); }
      else if 6 <= l { EndFetchSingle(st, i, l); }
      else { assert n.direct[l] == 0; }
    }
  }

  lemma EndFetchSingle(st: Store, i: nat, l: nat)
    requires Sound(st) && Geometry(st) && Live(st, i) && Shape(st, i) && 6 <= l < 262
    requires l * 1024 == st.inodes[i].size && T(st, i, Data(l)) == 0
    ensures InRange(st, Fetches(st, st.inodes[i], l)) <==> !IndexMissing(st, i, l)
  {
    hide Ptr, Sound;
    var n := st.inodes[i];
    if n.indir1 == 0 {
      assert T(st, i, Data(6)) == 0;
      assert l == 6;
      assert Fetches(st, n, l)[1] == Ptr(BlockAt(st.blocks, 0), 0) == FS_MAGIC;
    } else {
      InUse(st, i, Ind1);
      assert Fetches(st, n, l)[1] == 0;
    }
  }

  lemma EndFetchDouble(st: Store, i: nat, l: nat)
    requires Sound(st) && Geometry(st) && Live(st, i) && Shape(st, i) && 262 <= l < 65798
    requires l * 1024 == st.inodes[i].size && T(st, i, Data(l)) == 0
    ensures InRange(st, Fetches(st, st.inodes[i], l)) <==> !IndexMissing(st, i, l)
  {
    hide Ptr, Sound;
    var n := st.inodes[i];
    var k := (l - 262) / 256;
    TargetCell(n, st.blocks, Data(l));
    TargetCell(n, st.blocks, Outer(k));
    FirstOfOuter(st, i, l);
    if n.indir2 == 0 {
      assert T(st, i, Ind2) == 0;
      assert T(st, i, Data(262)) == 0;
      assert l == 262;
      assert Fetches(st, n, l)[1] == Ptr(BlockAt(st.blocks, 0), 0) == FS_MAGIC;
    } else {
      InUse(st, i, Ind2);
      if T(st, i, Outer(k)) == 0 {
        assert Fetches(st, n, l)[2] == Ptr(BlockAt(st.blocks, 0), 0) == FS_MAGIC;
      } else {
        InUse(st, i, Outer(k));
        assert Fetches(st, n, l)[2] == 0;
      }
    }
  }

  /** If the second-level block of the end is missing, the end is its first entry. */
  lemma FirstOfOuter(st: Store, i: nat, l: nat)
    requires i < |st.inodes| && Shape(st, i) && 262 <= l < 65798 && l * 1024 == st.inodes[i].size
    ensures T(st, i, Outer((l - 262) / 256)) == 0 ==> (l - 262) % 256 == 0
  {
    var k := (l - 262) / 256;
    var f := 262 + 256 * k;
    if f < l { assert T(st, i, Data(f)) != 0; TargetCell(st.inodes[i], st.blocks, Data(f)); }
  }

  // ---- what a read returns ----

  /** The sizes at which the next byte would need a new index block. */
  predicate BoundarySize(size: nat) {
    var l := size / 1024;
    size % 1024 == 0 && l < 65798 && (l == 6 || (l >= 262 && (l - 262) % 256 == 0))
  }

  function ReadEnd(size: nat, off: nat, len: nat): nat
    requires off <= size
  {
    off + Min(len, size - off)
  }

  /** The device assertion fails: the read runs up to the end of the file, and
      the file ends where the next index block would be needed. */
  predicate ReadAborts(st: Store, i: nat, off: nat, len: nat)
    requires i < |st.inodes| && off <= st.inodes[i].size
  {
    IndexMissing(st, i, ReadEnd(st.inodes[i].size, off, len) / 1024)
  }

  /** One of the index blocks fetched is a bitmap or inode block, whose bytes
      the store does not hold as a block. */
  predicate ThroughMetadata(st: Store, ps: seq<nat>) {
    exists k :: 0 <= k < |ps| - 1 && 0 < ps[k] < st.start
  }

  /** What fs_read returns: the slice, or the device's assertion where the walk
      leaves the disk.  Past the end nothing is copied, but the walk is made;
      what it finds in metadata blocks is left open. */
  ghost predicate ReadMeets(st: Store, i: nat, off: nat, len: nat, r: Outcome)
    requires i < |st.inodes|
  {
    var size := st.inodes[i].size;
    if off > size then
      off / 1024 < 65798 ==>
        var ps := Fetches(st, st.inodes[i], off / 1024);
        (r == Aborted || r == Bytes([])) && (!ThroughMetadata(st, ps) ==> (r == Bytes([]) <==> InRange(st, ps)))
    else r == if ReadAborts(st, i, off, len) then Aborted
              else Bytes(Contents(st, i)[off..ReadEnd(size, off, len)])
  }

  /** ... and only there. */
  lemma AbortsAtIndexBoundary(st: Store, i: nat, off: nat, len: nat)
    requires Sound(st) && Live(st, i) && Shape(st, i) && off <= st.inodes[i].size
    ensures ReadAborts(st, i, off, len) ==>
              var l := st.inodes[i].size / 1024;
              && ReadEnd(st.inodes[i].size, off, len) == st.inodes[i].size == l * 1024
              && (l == 6 || (l >= 262 && (l - 262) % 256 == 0))
  {
    hide T;
    if ReadAborts(st, i, off, len) {
      MissingBoundary(st, i, ReadEnd(st.inodes[i].size, off, len) / 1024);
    }
  }

  lemma MissingBoundary(st: Store, i: nat, l: nat)
    requires i < |st.inodes| && Shape(st, i) && IndexMissing(st, i, l)
    ensures st.inodes[i].size <= l * 1024
    ensures l * 1024 <= st.inodes[i].size ==> l == 6 || (l >= 262 && (l - 262) % 256 == 0)
  {
    var f := BoundaryBelow(l);
    SameParentCell(l);
    BoundaryMissing(st, i, l, f);
    hide Target, T, Shape, IndexMissing;
    assert st.inodes[i].size <= f * 1024;
  }

  /** The first logical block with the same index block. */
  function BoundaryBelow(l: nat): (f: nat)
    requires 6 <= l < 65798
    ensures 6 <= f <= l && (f == l ==> l == 6 || (l >= 262 && (l - 262) % 256 == 0))
  {
    if l < 262 then 6 else 262 + 256 * ((l - 262) / 256)
  }

  lemma SameParentCell(l: nat)
    requires 6 <= l < 65798
    ensures CellOf(Data(BoundaryBelow(l))).InBlock? && CellOf(Data(BoundaryBelow(l))).parent == CellOf(Data(l)).parent
  {
    if l >= 262 {
      var k := (l - 262) / 256;
      assert (256 * k) / 256 == k;
    }
  }

  lemma BoundaryMissing(st: Store, i: nat, l: nat, f: nat)
    requires i < |st.inodes| && Shape(st, i) && IndexMissing(st, i, l) && 6 <= f <= l
    requires CellOf(Data(f)).InBlock? && CellOf(Data(f)).parent == CellOf(Data(l)).parent
    ensures st.inodes[i].size <= f * 1024
  {
    hide CellOf;
    TargetCell(st.inodes[i], st.blocks, Data(f));
    hide Target;
    assert T(st, i, Data(f)) == 0;
  }

  // ---- one block ----

  /** The bytes one block contributes: skip is the part before the offset. */
  function Wanted(len: nat, size: nat, at: nat): nat { if at < size then Min(len, size - at) else 0 }

  lemma BlockBytes(st: Store, i: nat, l: nat, at: nat, k: nat)
    requires i < |st.inodes| && l * 1024 <= at <= at + k <= (l + 1) * 1024 && at + k <= st.inodes[i].size
    requires T(st, i, Data(l)) < |st.blocks|
    ensures Contents(st, i)[at..at + k] == st.blocks[T(st, i, Data(l))][at - l * 1024..at - l * 1024 + k]
  {
    hide Target;
    forall x | at <= x < at + k ensures Contents(st, i)[x] == st.blocks[T(st, i, Data(l))][x - l * 1024] {
      assert x / 1024 == l && x % 1024 == x - l * 1024;
    }
  }

  /** Between two blocks: out is what has been copied, len what is still asked
      for, cnt the variable cnt_offset; block l is next. */
  ghost predicate Progress(st: Store, i: nat, off: nat, len0: nat, out: seq<byte>, len: nat, l: nat, cnt: nat)
    requires i < |st.inodes|
  {
    var size := st.inodes[i].size;
    var at := off + |out|;
    && len + |out| == len0
    && l * 1024 <= at < (l + 1) * 1024 && at - l * 1024 == (if cnt < off then off - cnt else 0)
    && (out != [] ==> at <= size)
    && (off <= size && at <= size ==> out == Contents(st, i)[off..at])
  }

  ghost predicate Reading(st: Store, i: nat) { Geometry(st) && Sound(st) && Live(st, i) && Shape(st, i) }

  /** A fetch out of range only happens where the read is said to abort. */
  lemma AbortMeets(st: Store, i: nat, off: nat, len0: nat, out: seq<byte>, len: nat, l: nat, cnt: nat)
    requires Reading(st, i) && Progress(st, i, off, len0, out, len, l, cnt) && l < 65798
    requires !InRange(st, Fetches(st, st.inodes[i], l))
    ensures ReadMeets(st, i, off, len0, Aborted)
  {
    hide InRange, Fetches, Contents, T, Sound, Geometry;
    var size, at := st.inodes[i].size, off + |out|;
    if off <= size {
      if l * 1024 < size { assert T(st, i, Data(l)) != 0; PresentFetch(st, i, l); }
      EndFetch(st, i, l);
      hide IndexMissing;
      assert at == size;
    }
  }

  /** The copy stops inside block l. */
  lemma StopMeets(st: Store, i: nat, off: nat, len0: nat, out: seq<byte>, len: nat, l: nat, cnt: nat, s: seq<byte>)
    requires Reading(st, i) && Progress(st, i, off, len0, out, len, l, cnt) && l < 65798
    requires InRange(st, Fetches(st, st.inodes[i], l))
    requires var at := off + |out|;
             var want := Wanted(len, st.inodes[i].size, at);
             var skip := at - l * 1024;
             want < 1024 - skip && s == BlockAt(st.blocks, DataFetch(st, st.inodes[i], l))[skip..skip + want]
    ensures ReadMeets(st, i, off, len0, Bytes(out + s))
  {
    hide InRange, Fetches, DataFetch, T, Sound, Geometry, BlockAt, Contents, IndexMissing, Shape;
    var size, at := st.inodes[i].size, off + |out|;
    var want := Wanted(len, size, at);
    if off > size {
      assert out == [] && s == [] && off / 1024 == l;
    } else if want == 0 {
      StopAtEnd(st, i, l, at);
      assert out + s == out;
    } else {
      StopInside(st, i, off, out, len, l, s);
    }
  }

  lemma StopAtEnd(st: Store, i: nat, l: nat, at: nat)
    requires Reading(st, i) && l < 65798 && InRange(st, Fetches(st, st.inodes[i], l))
    requires l * 1024 <= at <= st.inodes[i].size
    ensures !IndexMissing(st, i, l)
  {
    hide InRange, Fetches, Sound, Geometry, IndexMissing, Shape;
    EndFetch(st, i, l);
  }

  lemma StopInside(st: Store, i: nat, off: nat, out: seq<byte>, len: nat, l: nat, s: seq<byte>)
    requires Reading(st, i) && l < 65798 && off + |out| <= st.inodes[i].size
    requires var at := off + |out|;
             var want := Wanted(len, st.inodes[i].size, at);
             var skip := at - l * 1024;
             && l * 1024 <= at && 0 < want <= 1024 - skip
             && s == BlockAt(st.blocks, DataFetch(st, st.inodes[i], l))[skip..skip + want]
             && out == Contents(st, i)[off..at]
    ensures out + s == Contents(st, i)[off..off + |out| + |s|] && !IndexMissing(st, i, l)
  {
    hide InRange, Fetches, DataFetch, Sound, Geometry, Contents;
    var at := off + |out|;
    assert T(st, i, Data(l)) != 0;
    PresentNotMissing(st, i, l);
    hide T, IndexMissing;
    PresentFetch(st, i, l);
    InUse(st, i, Data(l));
    BlockBytes(st, i, l, at, |s|);
    Joined(Contents(st, i), off, at, at + |s|);
  }

  lemma PresentNotMissing(st: Store, i: nat, l: nat)
    requires i < |st.inodes| && l < 65798 && T(st, i, Data(l)) != 0
    ensures !IndexMissing(st, i, l)
  {
    if 6 <= l { TargetCell(st.inodes[i], st.blocks, Data(l)); }
  }

  lemma Joined(c: seq<byte>, a: nat, b: nat, d: nat)
    requires a <= b <= d <= |c|
    ensures c[a..b] + c[b..d] == c[a..d]
  {
  }

  /** The copy takes the whole rest of block l and goes on. */
  lemma FullBlock(st: Store, i: nat, off: nat, len0: nat, out: seq<byte>, len: nat, l: nat, cnt: nat, cnt': nat, s: seq<byte>)
    requires Reading(st, i) && Progress(st, i, off, len0, out, len, l, cnt) && l < 65798 && cnt' >= off
    requires var at := off + |out|;
             var skip := at - l * 1024;
             1024 - skip <= Wanted(len, st.inodes[i].size, at)
             && s == BlockAt(st.blocks, DataFetch(st, st.inodes[i], l))[skip..]
    ensures |s| <= len && Progress(st, i, off, len0, out + s, len - |s|, l + 1, cnt')
    ensures l + 1 == 65798 ==> ReadMeets(st, i, off, len0, Bytes(out + s))
  {
    hide InRange, Fetches, DataFetch, Sound, Geometry, Contents;
    var size, at := st.inodes[i].size, off + |out|;
    assert T(st, i, Data(l)) != 0;
    hide T;
    PresentFetch(st, i, l);
    InUse(st, i, Data(l));
    BlockBytes(st, i, l, at, |s|);
    Joined(Contents(st, i), off, at, at + |s|);
    assert out + s == Contents(st, i)[off..at + |s|];
  }
}
