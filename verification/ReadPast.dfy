/** What a read beyond the end of a file comes upon: nothing is copied, but the
    walk is made, through the super block where an index block is missing. */
module ReadPast {
  import opened Layout
  import opened State
  import opened WriteProofs
  import opened WriteSteps
  import O = Ops
  import opened Tree
  import opened OpTheorems
  import opened FileRead
  import opened ReadTheorems
  import opened Runs
  import opened SuperBlock
  import Device
  import Mkfs

  /** A read of file i at off, beyond its end but within the reach of its index. */
  ghost predicate Past(st: Store, i: nat, off: nat) {
    Reading(st, i) && st.inodes[i].size < off && off / 1024 < 65798
  }

  /** Word k of the super block is the number of a block. */
  predicate WordOnDisk(st: Store, k: nat)
    requires st.blocks != [] && k < 256
  {
    Ptr(st.blocks[0], k) < |st.blocks|
  }

  lemma InData(st: Store, i: nat, loc: Loc)
    requires Sound(st) && Live(st, i) && T(st, i, loc) != 0
    ensures 4 <= st.start <= T(st, i, loc) < |st.blocks|
  {
    var ow :| Good(st, ow);
    OwnedHigh(st, ow, i, loc);
    hide Target, Owned;
  }

  lemma OneFetch(st: Store, a: nat)
    ensures !ThroughMetadata(st, [a])
  {
  }

  lemma TwoFetches(st: Store, a: nat, b: nat)
    ensures InRange(st, [a, b]) <==> a < |st.blocks| && b < |st.blocks|
    ensures ThroughMetadata(st, [a, b]) <==> 0 < a < st.start
  {
    assert [a, b][0] == a && [a, b][1] == b;
  }

  lemma ThreeFetches(st: Store, a: nat, b: nat, c: nat)
    ensures InRange(st, [a, b, c]) <==> a < |st.blocks| && b < |st.blocks| && c < |st.blocks|
    ensures ThroughMetadata(st, [a, b, c]) <==> 0 < a < st.start || 0 < b < st.start
  {
    assert [a, b, c][0] == a && [a, b, c][1] == b && [a, b, c][2] == c;
  }

  /** With the index block there, or none needed, no bytes are read. */
  lemma PastPresent(st: Store, i: nat, off: nat, len: nat, r: Outcome)
    requires Past(st, i, off) && ReadMeets(st, i, off, len, r) && !IndexMissing(st, i, off / 1024)
    ensures r == Bytes([])
  {
    hide Contents;
    var l := off / 1024;
    PresentFetches(st, i, l);
    PresentThrough(st, i, l);
    hide Fetches, Sound, IndexMissing;
  }

  lemma PresentFetches(st: Store, i: nat, l: nat)
    requires Reading(st, i) && l < 65798 && !IndexMissing(st, i, l) && st.inodes[i].size < (l + 1) * 1024
    ensures InRange(st, Fetches(st, st.inodes[i], l))
  {
    hide Ptr, Sound;
    var n := st.inodes[i];
    if T(st, i, Data(l)) != 0 {
      PresentFetch(st, i, l);
    } else if 262 <= l {
      var k := (l - 262) / 256;
      TargetCell(n, st.blocks, Data(l));
      InData(st, i, Outer(k));
      TargetCell(n, st.blocks, Outer(k));
      InData(st, i, Ind2);
      assert Fetches(st, n, l)[1] == T(st, i, Outer(k));
      assert Fetches(st, n, l)[2] == 0;
    } else if 6 <= l {
      InData(st, i, Ind1);
      TargetCell(n, st.blocks, Data(l));
      assert Fetches(st, n, l)[1] == 0;
    }
  }

  /** ... and the walk stays in the data region. */
  lemma PresentThrough(st: Store, i: nat, l: nat)
    requires Reading(st, i) && l < 65798 && !IndexMissing(st, i, l)
    ensures !ThroughMetadata(st, Fetches(st, st.inodes[i], l))
  {
    hide Ptr, Sound, Shape, InRange, ThroughMetadata;
    var n := st.inodes[i];
    if 262 <= l {
      var k := (l - 262) / 256;
      InData(st, i, Outer(k));
      TargetCell(n, st.blocks, Outer(k));
      InData(st, i, Ind2);
      var p := Ptr(BlockAt(st.blocks, T(st, i, Outer(k))), (l - 262) % 256);
      assert Fetches(st, n, l) == [n.indir2, T(st, i, Outer(k)), p];
      ThreeFetches(st, n.indir2, T(st, i, Outer(k)), p);
    } else if 6 <= l {
      InData(st, i, Ind1);
      TwoFetches(st, n.indir1, Ptr(BlockAt(st.blocks, n.indir1), l - 6));
    } else {
      assert !ThroughMetadata(st, [n.direct[l]]) by { OneFetch(st, n.direct[l]); }
    }
  }

  /** Without the single-indirect block: word l - 6 of the super block is taken
      for the block number. */
  lemma PastSingle(st: Store, i: nat, off: nat, len: nat, r: Outcome)
    requires Past(st, i, off) && ReadMeets(st, i, off, len, r)
    requires 6 <= off / 1024 < 262 && st.inodes[i].indir1 == 0
    ensures r == if WordOnDisk(st, off / 1024 - 6) then Bytes([]) else Aborted
  {
    hide Contents, Ptr, Sound, Shape, InRange, ThroughMetadata;
    var ps := Fetches(st, st.inodes[i], off / 1024);
    assert ps == [0, Ptr(st.blocks[0], off / 1024 - 6)];
    TwoFetches(st, 0, Ptr(st.blocks[0], off / 1024 - 6));
  }

  /** Without the second-level block of a double-indirect block that is there:
      the word at the block's place in the second-level block. */
  lemma PastOuter(st: Store, i: nat, off: nat, len: nat, r: Outcome)
    requires Past(st, i, off) && ReadMeets(st, i, off, len, r)
    requires 262 <= off / 1024 && st.inodes[i].indir2 != 0 && T(st, i, Outer((off / 1024 - 262) / 256)) == 0
    ensures r == if WordOnDisk(st, (off / 1024 - 262) % 256) then Bytes([]) else Aborted
  {
    hide Contents, Ptr, Sound, Shape, InRange, ThroughMetadata;
    var n, l := st.inodes[i], off / 1024;
    assert T(st, i, Ind2) != 0;
    InData(st, i, Ind2);
    TargetCell(n, st.blocks, Outer((l - 262) / 256));
    var ps := Fetches(st, n, l);
    assert ps == [n.indir2, 0, Ptr(st.blocks[0], (l - 262) % 256)];
    ThreeFetches(st, n.indir2, 0, Ptr(st.blocks[0], (l - 262) % 256));
  }

  /** Without the double-indirect block: a word q of the super block is taken for
      the second-level block, and a word of block q for the block number.  What a
      bitmap or inode block q holds is left open. */
  lemma PastDouble(st: Store, i: nat, off: nat, len: nat, r: Outcome)
    requires Past(st, i, off) && ReadMeets(st, i, off, len, r)
    requires 262 <= off / 1024 && st.inodes[i].indir2 == 0
    ensures var k, e := (off / 1024 - 262) / 256, (off / 1024 - 262) % 256;
            var q := Ptr(st.blocks[0], k);
            && (q >= |st.blocks| ==> r == Aborted)
            && (q == 0 || st.start <= q < |st.blocks| ==> r == if Ptr(st.blocks[q], e) < |st.blocks| then Bytes([]) else Aborted)
            && (r == Bytes([]) || r == Aborted)
  {
    hide Contents, Ptr, Sound, Shape, InRange, ThroughMetadata;
    var l := off / 1024;
    var k, e := (l - 262) / 256, (l - 262) % 256;
    var q := Ptr(st.blocks[0], k);
    var ps := Fetches(st, st.inodes[i], l);
    assert ps == [0, q, Ptr(BlockAt(st.blocks, q), e)];
    ThreeFetches(st, 0, q, Ptr(BlockAt(st.blocks, q), e));
  }

  // ---- stores of runs from a formatted image ----

  /** Two words of the super block are not the number of a block: the magic
      number and the number of blocks. */
  lemma SuperWordsOnDisk(n: nat, ops: seq<Op>, k: nat)
    requires 196 <= n < 0x20_0000 && AllowedRun(Device.Mount(Mkfs.FormattedDisk(n)), ops) && k < 256
    ensures var st := RunStore(Device.Mount(Mkfs.FormattedDisk(n)), ops);
            && |st.blocks| == n && (WordOnDisk(st, k) <==> k != 0 && k != 4)
            && (6 <= k ==> Ptr(st.blocks[0], k) == 0)
  {
    hide AllowedRun, Mkfs.FormattedDisk, RunStore, Mkfs.SuperBytes, Ptr, Mkfs.DivRoundUp;
    SuperStays(n, ops);
    Mkfs.SuperWords(n);
    Mkfs.LayoutOkIff(n);
  }

  /** The call reads a file beyond its end. */
  ghost predicate PastRead(st: Store, path: O.Path, len: nat, off: nat, r: Outcome, i: nat) {
    && ReadResult(st, path, len, off, r) && O.Resolve(st, 1, path) == i && i < |st.inodes|
    && !st.inodes[i].isDir && st.inodes[i].size < off && off / 1024 < 65798
  }

  /** In every store of a run from a formatted image, a read beyond the end of a
      file gives no bytes, and is stopped by the device precisely here: at blocks
      6 and 10 of a file without single-indirect block; without double-indirect
      block, in the second-level blocks number 0 and 4 and, from number 6 on, at
      entries 0 and 4; and at entries 0 and 4 of a second-level block that is
      missing from a double-indirect block. */
  lemma FormattedPast(n: nat, ops: seq<Op>, path: O.Path, len: nat, off: nat, r: Outcome, i: nat)
    requires 196 <= n < 0x20_0000 && AllowedRun(Device.Mount(Mkfs.FormattedDisk(n)), ops)
    requires PastRead(RunStore(Device.Mount(Mkfs.FormattedDisk(n)), ops), path, len, off, r, i)
    ensures var st, l := RunStore(Device.Mount(Mkfs.FormattedDisk(n)), ops), off / 1024;
            && (r == Bytes([]) || r == Aborted)
            && (!IndexMissing(st, i, l) ==> r == Bytes([]))
            && (6 <= l < 262 && st.inodes[i].indir1 == 0 ==> (r == Aborted <==> l == 6 || l == 10))
            && (262 <= l ==>
                  var k, e := (l - 262) / 256, (l - 262) % 256;
                  if st.inodes[i].indir2 == 0 then
                    && (k == 0 || k == 4 ==> r == Aborted)
                    && (6 <= k ==> (r == Aborted <==> e == 0 || e == 4))
                  else T(st, i, Outer(k)) == 0 ==> (r == Aborted <==> e == 0 || e == 4))
  {
    hide InvW, AllowedRun, Mkfs.FormattedDisk, RunStore, Mkfs.FormattedWit, Ptr, Leaked, RunLost, O.Resolve, T, IndexMissing,
      Reading, ReadMeets, WordOnDisk;
    var st := RunStore(Device.Mount(Mkfs.FormattedDisk(n)), ops);
    Mkfs.FormattedInv(n);
    Mkfs.FormattedGood(n);
    var w := RunKeeps(Device.Mount(Mkfs.FormattedDisk(n)), Mkfs.FormattedWit(n), ops);
    PastOf(st, w, path, len, off, r, i);
    var l := off / 1024;
    if !IndexMissing(st, i, l) { PastPresent(st, i, off, len, r); }
    if 6 <= l < 262 && st.inodes[i].indir1 == 0 {
      PastSingle(st, i, off, len, r);
      SuperWordsOnDisk(n, ops, l - 6);
    }
    if 262 <= l {
      var k, e := (l - 262) / 256, (l - 262) % 256;
      SuperWordsOnDisk(n, ops, k);
      SuperWordsOnDisk(n, ops, e);
      WordIs(st, k);
      WordIs(st, e);
      if st.inodes[i].indir2 == 0 {
        PastDouble(st, i, off, len, r);
      } else if T(st, i, Outer(k)) == 0 {
        PastOuter(st, i, off, len, r);
      }
    }
  }

  lemma WordIs(st: Store, k: nat)
    requires st.blocks != [] && k < 256
    ensures WordOnDisk(st, k) <==> Ptr(st.blocks[0], k) < |st.blocks|
  {
  }

  lemma PastOf(st: Store, w: Wit, path: O.Path, len: nat, off: nat, r: Outcome, i: nat)
    requires InvW(st, w) && PastRead(st, path, len, off, r, i)
    ensures Past(st, i, off) && ReadMeets(st, i, off, len, r) && st.blocks != [] && (r == Bytes([]) || r == Aborted)
  {
    hide TreeInv, TreeOf, O.Resolve, Owned, Shape;
    var x := Resolved(st, w, path);
    FileReading(st, w, i);
  }
}
