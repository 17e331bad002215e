/** fs_write as a whole: what it keeps on every call, and what an append does. */
module WriteTheorems {
  import opened Layout
  import opened State
  import opened AttachProofs
  import opened FileWrite
  import opened WriteProofs

  /** Exclusive ownership survives every write, overwrite or append, that does
      not pick up a stale second-level index block; nothing else is touched. */
  lemma {:induction false} WriteKeepsOwnership(st: Store, ow: Owners, i: nat, l: nat, off: nat, data: seq<byte>, done: nat)
    returns (ow': Owners)
    requires Good(st, ow) && Live(st, i) && WriteClean(st, i, l, off, data)
    ensures var r := WriteFrom(st, i, l, off, data, done);
            && Good(r.st, ow') && OthersSame(st, r.st, i)
            && Leaked(r.st, ow') == Leaked(st, ow)
    decreases |data|, if l < 65798 then 65798 - l else 0
  {
    hide WriteStep, StepClean, Owned, OthersSame, Leaked;
    OthersRefl(st, i);
    ow' := ow;
    if l < 65798 {
      ow' := StepOwned(st, ow, i, l, off, data);
      var s := WriteStep(st, i, l, off, data);
      if s.Wrote? && s.k < |data| {
        ow' := WriteKeepsOwnership(s.st, ow', i, l + 1, NextOff(l, off, s.tb), data[s.k..], done + s.k);
        OthersSameTrans(st, s.st, WriteFrom(s.st, i, l + 1, NextOff(l, off, s.tb), data[s.k..], done + s.k).st, i);
      }
    }
  }

  ghost predicate AppendedPrefix(st: Store, r: Result, i: nat, data: seq<byte>, done: nat)
    requires i < |st.inodes|
  {
    && |r.st.inodes| == |st.inodes|
    && 0 <= r.st.inodes[i].size - st.inodes[i].size <= |data|
    && (var k := r.st.inodes[i].size - st.inodes[i].size;
        && Contents(r.st, i) == Contents(st, i) + data[..k]
        && (r.rc == ENOSPC || (r.rc == done + k && (k == |data| || r.st.inodes[i].size == MAX_BYTES))))
  }

  lemma AppendedCompose(st: Store, s: Store, r: Result, i: nat, data: seq<byte>, k: nat, done: nat)
    requires i < |st.inodes| == |s.inodes| && k < |data|
    requires Contents(s, i) == Contents(st, i) + data[..k]
    requires AppendedPrefix(s, r, i, data[k..], done + k)
    ensures AppendedPrefix(st, r, i, data, done)
  {
    assert |Contents(s, i)| == s.inodes[i].size;
    var n := r.st.inodes[i].size - s.inodes[i].size;
    assert data[..k] + data[k..][..n] == data[..k + n];
    assert Contents(r.st, i) == Contents(st, i) + data[..k + n];
  }

  lemma AppendedOne(st: Store, s: Store, i: nat, data: seq<byte>, rc: int, done: nat)
    requires i < |st.inodes| == |s.inodes|
    requires (rc == ENOSPC && Contents(s, i) == Contents(st, i)) ||
             (rc == done + |data| && Contents(s, i) == Contents(st, i) + data)
    ensures AppendedPrefix(st, Result(s, rc), i, data, done)
  {
    assert |Contents(s, i)| == s.inodes[i].size;
    assert Contents(st, i) + data[..0] == Contents(st, i) && data[..|data|] == data;
  }

  lemma {:induction false} AppendFrom(st: Store, ow: Owners, i: nat, l: nat, off: nat, data: seq<byte>, done: nat)
    requires Good(st, ow) && Live(st, i) && Shape(st, i) && WriteClean(st, i, l, off, data)
    requires if l < 65798 then AtEnd(st, i, l, off) else st.inodes[i].size == MAX_BYTES
    ensures var r := WriteFrom(st, i, l, off, data, done);
            Shape(r.st, i) && AppendedPrefix(st, r, i, data, done)
    decreases |data|, if l < 65798 then 65798 - l else 0
  {
    hide WriteStep, StepClean, Owned, OthersSame, Shape, Contents, AppendedPrefix, T;
    if l < 65798 {
      var ow' := StepOwned(st, ow, i, l, off, data);
      StepAppend(st, ow, i, l, off, data);
      var s := WriteStep(st, i, l, off, data);
      if s.Stop? {
        AppendedOne(st, s.st, i, data, ENOSPC, done);
      } else if s.k == |data| {
        assert data[..s.k] == data;
        AppendedOne(st, s.st, i, data, done + s.k, done);
      } else {
        ContentsSize(st, s.st, i, data[..s.k]);
        AppendFrom(s.st, ow', i, l + 1, NextOff(l, off, s.tb), data[s.k..], done + s.k);
        AppendedCompose(st, s.st, WriteFrom(s.st, i, l + 1, NextOff(l, off, s.tb), data[s.k..], done + s.k),
                        i, data, s.k, done);
      }
    } else {
      AppendedNone(st, i, data, done);
    }
  }

  lemma AppendedNone(st: Store, i: nat, data: seq<byte>, done: nat)
    requires i < |st.inodes| && st.inodes[i].size == MAX_BYTES
    ensures AppendedPrefix(st, Result(st, done), i, data, done)
  {
    assert Contents(st, i) + data[..0] == Contents(st, i);
  }

  lemma ContentsSize(st: Store, s: Store, i: nat, c: seq<byte>)
    requires i < |st.inodes| == |s.inodes| && Contents(s, i) == Contents(st, i) + c
    ensures s.inodes[i].size == st.inodes[i].size + |c|
  {
    assert |Contents(s, i)| == s.inodes[i].size;
  }

  // ---- fs_write on a file, from its offset ----

  /** An append below the maximal size adds a prefix of the data, all of it
      unless space or the last logical block runs out. */
  lemma AppendFile(st: Store, ow: Owners, i: nat, data: seq<byte>)
    requires Good(st, ow) && Live(st, i) && Shape(st, i) && st.inodes[i].size < MAX_BYTES
    requires WriteClean(st, i, st.inodes[i].size / 1024, st.inodes[i].size, data)
    ensures var r := WriteFile(st, i, st.inodes[i].size, data);
            Shape(r.st, i) && AppendedPrefix(st, r, i, data, 0)
  {
    AppendFrom(st, ow, i, st.inodes[i].size / 1024, st.inodes[i].size, data, 0);
  }

  /** The size grows by the number of bytes written, wherever they went. */
  lemma {:induction false} WriteGrows(st: Store, i: nat, l: nat, off: nat, data: seq<byte>, done: nat)
    requires Sized(st) && i < |st.inodes|
    ensures var r := WriteFrom(st, i, l, off, data, done);
            && r.st.inodes[i].size >= st.inodes[i].size
            && (r.rc >= 0 ==> r.st.inodes[i].size - st.inodes[i].size == r.rc - done <= |data|)
            && (r.rc >= 0 && l < 65798 && data != [] ==> r.rc > done)
    decreases |data|, if l < 65798 then 65798 - l else 0
  {
    hide WriteStep;
    if l < 65798 {
      StepSize(st, i, l, off, data);
      var s := WriteStep(st, i, l, off, data);
      if s.Wrote? && s.k < |data| {
        WriteGrows(s.st, i, l + 1, NextOff(l, off, s.tb), data[s.k..], done + s.k);
      }
    }
  }

  lemma GrowSize(st: Store, i: nat, loc: Loc)
    requires Sized(st) && i < |st.inodes| && LocOk(loc)
    ensures Grow(st, i, loc).st.inodes[i].size == st.inodes[i].size
  {
    hide Target;
  }

  lemma StepSize(st: Store, i: nat, l: nat, off: nat, data: seq<byte>)
    requires Sized(st) && i < |st.inodes| && l < 65798
    ensures var r := WriteStep(st, i, l, off, data);
            r.st.inodes[i].size == st.inodes[i].size + if r.Wrote? then r.k else 0
  {
    hide Target, Grow;
    GrowSize(st, i, Ind1);
    GrowSize(st, i, Ind2);
    if 262 <= l { GrowSize(Grow(st, i, Ind2).st, i, OuterOf(l)); }
    GrowSize(GrowIndex(st, i, l).st, i, Data(l));
  }

  /** What POSIX promises of a write at off: the bytes replaced, the rest kept. */
  function Overlay(old_: seq<byte>, off: nat, data: seq<byte>): seq<byte>
    requires off <= |old_|
  {
    old_[..off] + data + if off + |data| < |old_| then old_[off + |data|..] else []
  }

  lemma EmptyStep(st: Store, i: nat, off: nat)
    requires Sized(st) && i < |st.inodes| && Shape(st, i) && off < st.inodes[i].size
    ensures WriteFile(st, i, off, []).st == st
  {
    var l := off / 1024;
    assert T(st, i, Data(l)) != 0;
    TargetCell(st.inodes[i], st.blocks, Data(l));
    if 262 <= l { TargetCell(st.inodes[i], st.blocks, OuterOf(l)); }
    assert GrowIndex(st, i, l) == Ok(st);
    assert Grow(st, i, Data(l)) == Ok(st);
    assert WriteStep(st, i, l, off, []) == Wrote(st, off % 1024, 0) by {
      var p := T(st, i, Data(l));
      var n := st.inodes[i];
      assert st.inodes[i := n.(size := n.size + 0)] == st.inodes;
      if p < |st.blocks| {
        assert Splice(st.blocks[p], off % 1024, []) == st.blocks[p];
        assert st.blocks[p := st.blocks[p]] == st.blocks;
      }
    }
  }

  /** A complete write does what is promised exactly when it is empty or an
      append: the size is advanced by the byte count even over old bytes. */
  lemma WriteMeetsPromiseIff(st: Store, ow: Owners, i: nat, off: nat, data: seq<byte>)
    requires Good(st, ow) && Live(st, i) && Shape(st, i) && off <= st.inodes[i].size < MAX_BYTES
    requires WriteClean(st, i, off / 1024, off, data)
    requires WriteFile(st, i, off, data).rc == |data|
    ensures Contents(WriteFile(st, i, off, data).st, i) == Overlay(Contents(st, i), off, data)
            <==> data == [] || off == st.inodes[i].size
  {
    hide WriteFile, WriteFrom, WriteClean, Owned, Shape, T;
    var size := st.inodes[i].size;
    var r := WriteFile(st, i, off, data);
    if off == size {
      AppendFile(st, ow, i, data);
      AppendedIsOverlay(st, r, i, data);
    } else if data == [] {
      EmptyStep(st, i, off);
      assert Overlay(Contents(st, i), off, []) == Contents(st, i);
    } else {
      WriteFileGrows(st, i, off, data);
      assert |Contents(r.st, i)| > |Overlay(Contents(st, i), off, data)|;
    }
  }

  lemma AppendedIsOverlay(st: Store, r: Result, i: nat, data: seq<byte>)
    requires i < |st.inodes| && AppendedPrefix(st, r, i, data, 0) && r.rc == |data|
    ensures Contents(r.st, i) == Overlay(Contents(st, i), st.inodes[i].size, data)
  {
    assert |Contents(st, i)| == st.inodes[i].size;
    assert data[..|data|] == data;
  }

  lemma WriteFileGrows(st: Store, i: nat, off: nat, data: seq<byte>)
    requires Sized(st) && i < |st.inodes| && WriteFile(st, i, off, data).rc >= 0 && off / 1024 < 65798
    ensures var r := WriteFile(st, i, off, data);
            r.st.inodes[i].size == st.inodes[i].size + r.rc
  {
    WriteGrows(st, i, off / 1024, off, data, 0);
  }

  /** At the maximal size the dispatch falls through to logical block 6, so a
      file is left well formed exactly when nothing is written there. */
  lemma FullFileWriteIff(st: Store, ow: Owners, i: nat, data: seq<byte>)
    requires Good(st, ow) && Live(st, i) && Shape(st, i) && st.inodes[i].size == MAX_BYTES
    requires WriteFile(st, i, MAX_BYTES, data).rc >= 0
    ensures Shape(WriteFile(st, i, MAX_BYTES, data).st, i) <==> data == []
  {
    if data == [] {
      EmptyStep(st, i, 6 * 1024);
      assert WriteFile(st, i, 6 * 1024, []) == WriteFrom(st, i, 6, 6 * 1024, [], 0);
      EmptyAtSix(st, i);
    } else {
      WriteGrows(st, i, 6, 0, data, 0);
    }
  }

  lemma EmptyAtSix(st: Store, i: nat)
    requires Sized(st) && i < |st.inodes|
    ensures WriteFrom(st, i, 6, 6 * 1024, [], 0) == WriteFrom(st, i, 6, 0, [], 0)
  {
    hide GrowIndex, Grow, PutBytes, Target;
    assert WriteStep(st, i, 6, 6 * 1024, []) == WriteStep(st, i, 6, 0, []);
  }

  // ---- when second-level index blocks are picked up clean ----

  /** Every free block reads as null pointers: a freshly formatted disk from
      which nothing has been freed. */
  ghost predicate FreeClean(st: Store)
    requires Sized(st)
  {
    forall b :: st.start <= b < |st.blocks| && !st.blockMap[b] ==> NoPointers(st.blocks[b])
  }

  lemma GrowFreeClean(st: Store, ow: Owners, i: nat, loc: Loc)
    requires Good(st, ow) && Live(st, i) && LocOk(loc) && FreeClean(st)
    requires CellOf(loc).InBlock? ==> T(st, i, CellOf(loc).parent) != 0
    ensures FreeClean(Grow(st, i, loc).st)
  {
    hide Target, NoPointers, Extends, Owned, SetPtr;
    var g := Grow(st, i, loc);
    if g.Ok? && T(st, i, loc) == 0 {
      var b := FirstFree(st.blockMap, st.start, |st.blocks|);
      var fill := if loc.Outer? then st.blocks[b] else ZeroBlock;
      AttachFields(st, ow, i, loc, b, fill);
      AttachOtherBlocks(st, ow, i, loc, b, fill);
    }
  }

  lemma AttachOtherBlocks(st: Store, ow: Owners, i: nat, loc: Loc, b: nat, fill: Block)
    requires Good(st, ow) && CanAttach(st, i, loc, b)
    ensures var s := Attach(st, i, loc, b, fill);
            && |s.blocks| == |st.blocks|
            && forall x :: 0 <= x < |st.blocks| && x != b && !st.blockMap[x] ==> s.blocks[x] == st.blocks[x]
  {
    AttachBlocks(st, ow, i, loc, b, fill);
  }

  lemma StepFreeClean(st: Store, ow: Owners, i: nat, l: nat, off: nat, data: seq<byte>)
    requires Good(st, ow) && Live(st, i) && l < 65798 && FreeClean(st)
    ensures StepClean(st, i, l) && FreeClean(WriteStep(st, i, l, off, data).st)
  {
    hide Target, NoPointers, Extends, Owned, Grow;
    if 262 <= l {
      GrowFreeClean(st, ow, i, Ind2);
    }
    var ow1 := GrowIndexOk(st, ow, i, l);
    if 6 <= l < 262 {
      GrowFreeClean(st, ow, i, Ind1);
    } else if 262 <= l {
      var o := GrowOk(st, ow, i, Ind2);
      if Grow(st, i, Ind2).Ok? {
        ExtendsLive(st, Grow(st, i, Ind2).st, i);
        GrowFreeClean(Grow(st, i, Ind2).st, o, i, OuterOf(l));
      }
    }
    var g := GrowIndex(st, i, l);
    assert FreeClean(g.st);
    if g.Ok? {
      ExtendsLive(st, g.st, i);
      GrowFreeClean(g.st, ow1, i, Data(l));
      var ow2 := GrowOk(g.st, ow1, i, Data(l));
      var h := Grow(g.st, i, Data(l));
      if h.Ok? {
        ExtendsLive(g.st, h.st, i);
        var tb := if T(g.st, i, Data(l)) == 0 then 0 else off % 1024;
        PutFreeClean(h.st, ow2, i, l, tb, data[..Min(1024 - tb, |data|)]);
      }
    }
  }

  lemma ExtendsLive(a: Store, b: Store, i: nat)
    requires i < |a.inodes| && Extends(a, b, i)
    ensures Live(a, i) ==> Live(b, i)
  {
  }

  lemma PutFreeClean(st: Store, ow: Owners, i: nat, l: nat, tb: nat, c: seq<byte>)
    requires Good(st, ow) && Live(st, i) && tb + |c| <= 1024 && T(st, i, Data(l)) != 0 && FreeClean(st)
    ensures FreeClean(PutBytes(st, i, l, tb, c))
  {
    hide Target, NoPointers, Splice;
    assert st.blockMap[T(st, i, Data(l))];
  }

  /** On a disk whose free blocks are clean every write is clean. */
  lemma {:induction false} FreeCleanIsEnough(st: Store, ow: Owners, i: nat, l: nat, off: nat, data: seq<byte>, done: nat)
    requires Good(st, ow) && Live(st, i) && FreeClean(st)
    ensures WriteClean(st, i, l, off, data) && FreeClean(WriteFrom(st, i, l, off, data, done).st)
    decreases |data|, if l < 65798 then 65798 - l else 0
  {
    hide StepClean, WriteStep, Owned, OthersSame;
    if l < 65798 {
      StepFreeClean(st, ow, i, l, off, data);
      var s := WriteStep(st, i, l, off, data);
      var ow' := StepOwned(st, ow, i, l, off, data);
      if s.Wrote? && s.k < |data| {
        FreeCleanIsEnough(s.st, ow', i, l + 1, NextOff(l, off, s.tb), data[s.k..], done + s.k);
      }
    }
  }

  /** So is every append that stays below the double-indirect tier. */
  lemma {:induction false} SmallAppendIsClean(st: Store, ow: Owners, i: nat, l: nat, off: nat, data: seq<byte>)
    requires Good(st, ow) && Live(st, i) && Shape(st, i) && AtEnd(st, i, l, off)
    requires st.inodes[i].size < 262 * 1024 && st.inodes[i].size + |data| <= 262 * 1024
    ensures WriteClean(st, i, l, off, data)
    decreases |data|
  {
    hide WriteStep, Owned, OthersSame, Contents, Shape, Target;
    var ow' := StepOwned(st, ow, i, l, off, data);
    StepAppend(st, ow, i, l, off, data);
    var s := WriteStep(st, i, l, off, data);
    if s.Wrote? && s.k < |data| {
      ContentsSize(st, s.st, i, data[..s.k]);
      SmallAppendIsClean(s.st, ow', i, l + 1, NextOff(l, off, s.tb), data[s.k..]);
    }
  }
}
