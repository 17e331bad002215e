/** fs_write with the buffers of its double-indirect loops: the index blocks are
    read once and written back, whatever the data went over in between.  While
    every block has one owner this is the block-by-block form of FileWrite. */
module WriteLoops {
  import opened Layout
  import opened State
  import opened FileWrite
  import opened WriteProofs
  import opened WriteTheorems
  import opened WriteSteps
  import O = Ops

  /** How a loop of fs_write ends: the call returns, the device's assertion stops
      the program, or the next second-level block is due.  torn says that a bitmap
      or inode block was written over on the disk. */
  datatype Loop =
    | Ended(st: Store, rc: int, torn: bool)
    | Stopped(st: Store, torn: bool)
    | More(st: Store, data: seq<byte>, done: nat, torn: bool)

  /** Data block p, then index block b from its buffer c.  The store does not hold
      the bytes of bitmap and inode blocks. */
  function EntryStored(st: Store, i: nat, b: nat, c: Block, p: nat, isNew: bool, tb: nat, chunk: seq<byte>): Store
    requires Sized(st) && i < |st.inodes| && b < |st.blocks| && p < |st.blocks| && tb + |chunk| <= 1024
  {
    var n := st.inodes[i];
    var written := if st.start <= p then st.blocks[p := Stored(st.blocks[p], isNew, tb, chunk)] else st.blocks;
    st.(blockMap := if isNew then st.blockMap[p := true] else st.blockMap,
        inodes := st.inodes[i := n.(size := n.size + |chunk|)],
        blocks := written[b := c])
  }

  /** What one entry of an index block comes to: no free block for it, a block
      number off the disk, or k bytes written, with the buffer after it. */
  datatype Entered = NoSpace | OffDisk | Entry(st: Store, c: Block, k: nat, over: bool)

  function FillOne(st: Store, i: nat, b: nat, c: Block, e: nat, off: nat, data: seq<byte>): (x: Entered)
    requires Sized(st) && i < |st.inodes| && b < |st.blocks| && e < 256
    ensures x.Entry? ==> Sized(x.st) && |x.st.inodes| == |st.inodes| && |x.st.blocks| == |st.blocks| && x.k <= |data|
    ensures x.Entry? ==> x.st.inodes[i].indir2 == st.inodes[i].indir2
  {
    var old_, f := Ptr(c, e), FirstFree(st.blockMap, st.start, |st.blocks|);
    var p := if old_ == 0 then f else old_;
    if old_ == 0 && f == |st.blocks| then NoSpace
    else if p >= |st.blocks| then OffDisk
    else
      var tb := if old_ == 0 then 0 else off % 1024;
      var k := Min(1024 - tb, |data|);
      var c' := if old_ == 0 then SetPtr(c, e, f) else c;
      Entry(EntryStored(st, i, b, c', p, old_ == 0, tb, data[..k]), c', k, p < st.start)
  }

  /** The inner loop from entry e of index block b, whose buffer is c. */
  function FillEntries(st: Store, i: nat, b: nat, c: Block, e: nat, off: nat, data: seq<byte>, done: nat, torn: bool): (r: Loop)
    requires Sized(st) && i < |st.inodes| && b < |st.blocks| && e <= 256
    ensures Sized(r.st) && |r.st.inodes| == |st.inodes| && |r.st.blocks| == |st.blocks|
    ensures r.st.inodes[i].indir2 == st.inodes[i].indir2
    decreases 256 - e
  {
    if e == 256 then More(st, data, done, torn)
    else match FillOne(st, i, b, c, e, off, data)
      case NoSpace => Ended(st, ENOSPC, torn)
      case OffDisk => Stopped(st, torn)
      case Entry(s, c', k, over) =>
        if k == |data| then Ended(s, done + k, torn || over)
        else FillEntries(s, i, b, c', e + 1, off, data[k..], done + k, torn || over)
  }

  /** A second-level block that is taken keeps its old contents: its zeroed copy
      in memory is replaced by a read before it is ever written. */
  function TakeOuter(st: Store, i: nat, d: Block, k: nat, f: nat): (s: Store)
    requires Sized(st) && i < |st.inodes| && st.inodes[i].indir2 < |st.blocks| && k < 256 && f < |st.blocks|
    ensures Sized(s) && s.inodes == st.inodes && |s.blocks| == |st.blocks|
  {
    st.(blockMap := st.blockMap[f := true], blocks := st.blocks[st.inodes[i].indir2 := SetPtr(d, k, f)])
  }

  /** The outer loop from second-level block k, entry e; d is the buffer of the
      double-indirect block. */
  function FillOuter(st: Store, i: nat, d: Block, k: nat, e: nat, off: nat, data: seq<byte>, done: nat, torn: bool): (r: Loop)
    requires Sized(st) && i < |st.inodes| && st.inodes[i].indir2 < |st.blocks| && k <= 256 && e < 256
    ensures Sized(r.st) && |r.st.inodes| == |st.inodes| && |r.st.blocks| == |st.blocks| && !r.More?
    decreases 256 - k
  {
    if k == 256 then Ended(st, done, torn)
    else
      var isNew, f := Ptr(d, k) == 0, FirstFree(st.blockMap, st.start, |st.blocks|);
      var b := if isNew then f else Ptr(d, k);
      if isNew && f == |st.blocks| then Ended(st, ENOSPC, torn)
      else if b >= |st.blocks| then Stopped(st, torn)
      else
        var s := if isNew then TakeOuter(st, i, d, k, f) else st;
        match FillEntries(s, i, b, s.blocks[b], e, off, data, done, torn)
        case More(s', data', done', t') =>
          FillOuter(s', i, if isNew then SetPtr(d, k, f) else d, k + 1, 0, off, data', done', t')
        case r => r
  }

  function DoubleLoops(st: Store, i: nat, l: nat, off: nat, data: seq<byte>, done: nat): (r: Loop)
    requires Sized(st) && i < |st.inodes| && 262 <= l < 65798
    ensures Sized(r.st) && |r.st.inodes| == |st.inodes| && !r.More?
  {
    match Grow(st, i, Ind2)
    case Full(s) => Ended(s, ENOSPC, false)
    case Ok(s) =>
      var q := s.inodes[i].indir2;
      if q >= |s.blocks| then Stopped(s, false)
      else FillOuter(s, i, s.blocks[q], (l - 262) / 256, (l - 262) % 256, off, data, done, false)
  }

  /** The three chained loops from logical block l on. */
  function LoopsFrom(st: Store, i: nat, l: nat, off: nat, data: seq<byte>, done: nat): (r: Loop)
    requires Sized(st) && i < |st.inodes| && l < 65798
    ensures Sized(r.st) && |r.st.inodes| == |st.inodes| && !r.More?
    decreases if l < 262 then 262 - l else 0
  {
    if l >= 262 then DoubleLoops(st, i, l, off, data, done)
    else match WriteStep(st, i, l, off, data)
      case Stop(s) => Ended(s, ENOSPC, false)
      case Wrote(s, tb, k) =>
        if k == |data| then Ended(s, done + k, false)
        else LoopsFrom(s, i, l + 1, NextOff(l, off, tb), data[k..], done + k)
  }

  /** fs_write after its argument checks. */
  function LoopsFile(st: Store, i: nat, off: nat, data: seq<byte>): (r: Loop)
    requires Sized(st) && i < |st.inodes|
    ensures Sized(r.st) && |r.st.inodes| == |st.inodes| && !r.More?
  {
    if off / 1024 < 65798 then LoopsFrom(st, i, off / 1024, off, data, 0) else LoopsFrom(st, i, 6, 0, data, 0)
  }

  /** fs_write. */
  function Write(st: Store, path: O.Path, data: seq<byte>, off: nat): (r: Loop)
    requires Sized(st)
    ensures Sized(r.st) && !r.More?
  {
    var i := O.Resolve(st, 1, path);
    if i < 0 then Ended(st, i, false)
    else if O.InodeAt(st, i).isDir then Ended(st, O.EISDIR, false)
    else if off > O.InodeAt(st, i).size then Ended(st, O.EINVAL, false)
    else if i < |st.inodes| then LoopsFile(st, i, off, data)
    else Ended(st, 0, false)
  }

  // ---- the block-by-block form ----

  /** Entry e of second-level block b, number k of the file, is in reach. */
  ghost predicate InPlace(st: Store, i: nat, k: nat, b: nat) {
    && Sound(st) && Sized(st) && Live(st, i) && k < 256 && T(st, i, Ind2) != 0 && T(st, i, Outer(k)) == b != 0
    && b < |st.blocks|
  }

  function FirstOf(k: nat): nat { 262 + 256 * k }

  lemma InPlaceThrough(st: Store, i: nat, k: nat, b: nat, e: nat)
    requires InPlace(st, i, k, b) && e < 256
    ensures Through(st, i, FirstOf(k) + e, Outer(k), e, b) && StepClean(st, i, FirstOf(k) + e)
    ensures Ptr(st.blocks[b], e) == T(st, i, Data(FirstOf(k) + e))
    ensures b != st.inodes[i].indir2 && st.inodes[i].indir2 == T(st, i, Ind2) < |st.blocks|
  {
    hide Sound, NoPointers, Ptr;
    InUse(st, i, Ind2);
    var l := FirstOf(k) + e;
    assert Grow(st, i, Ind2) == Ok(st) && OuterOf(l) == Outer(k);
    EntryIs(st, i, l, Outer(k), e, b);
  }

  /** While blocks have one owner, an iteration of the inner loop is a step of
      the block-by-block form... */
  lemma FillOneStep(st: Store, i: nat, k: nat, b: nat, e: nat, off: nat, data: seq<byte>)
    requires InPlace(st, i, k, b) && e < 256
    ensures var s := WriteStep(st, i, FirstOf(k) + e, off, data);
            && |s.st.blocks| == |st.blocks| && (s.Stop? ==> s.st == st)
            && FillOne(st, i, b, st.blocks[b], e, off, data) ==
               if s.Stop? then NoSpace else Entry(s.st, s.st.blocks[b], s.k, false)
  {
    hide Target, Owned, Splice, SetPtr, Ptr, FirstFree, WriteStep, Sound, Through, StepClean;
    var l := FirstOf(k) + e;
    InPlaceThrough(st, i, k, b, e);
    IndexedStepIs(st, i, l, Outer(k), e, b, off, data);
    SoundSized(st);
    StartsAbove(st, i, l);
    var old_, f := Ptr(st.blocks[b], e), FirstFree(st.blockMap, st.start, |st.blocks|);
    var p := if old_ == 0 then f else old_;
    if p < |st.blocks| {
      var tb := if old_ == 0 then 0 else off % 1024;
      var c' := if old_ == 0 then SetPtr(st.blocks[b], e, f) else st.blocks[b];
      var y := Stored(st.blocks[p], old_ == 0, tb, data[..Min(1024 - tb, |data|)]);
      assert st.blocks[b := c'][p := y] == st.blocks[p := y][b := c'];
    }
  }

  lemma EntryStep(st: Store, i: nat, k: nat, b: nat, e: nat, off: nat, data: seq<byte>, done: nat, torn: bool)
    requires InPlace(st, i, k, b) && e < 256
    ensures var s := WriteStep(st, i, FirstOf(k) + e, off, data);
            && |s.st.blocks| == |st.blocks|
            && FillEntries(st, i, b, st.blocks[b], e, off, data, done, torn) ==
               if s.Stop? then Ended(s.st, ENOSPC, torn)
               else if s.k == |data| then Ended(s.st, done + s.k, torn)
               else FillEntries(s.st, i, b, s.st.blocks[b], e + 1, off, data[s.k..], done + s.k, torn)
  {
    hide InPlace, FillOne, WriteStep;
    InPlaceSized(st, i, k, b);
    FillOneStep(st, i, k, b, e, off, data);
  }

  lemma InPlaceSized(st: Store, i: nat, k: nat, b: nat)
    requires InPlace(st, i, k, b)
    ensures Sized(st) && Live(st, i) && k < 256 && b < |st.blocks|
  {
  }

  /** ... that leaves the double-indirect block alone. */
  lemma EntryKeeps(st: Store, i: nat, k: nat, b: nat, e: nat, off: nat, data: seq<byte>)
    requires InPlace(st, i, k, b) && e < 256
    ensures var s := WriteStep(st, i, FirstOf(k) + e, off, data);
            var q := st.inodes[i].indir2;
            && InPlace(s.st, i, k, b) && s.st.inodes[i].indir2 == q < |st.blocks| == |s.st.blocks|
            && s.st.blocks[q] == st.blocks[q]
  {
    hide Target, Owned, Splice, SetPtr, Ptr, FirstFree, WriteStep, Through, StepClean, OthersSame, Leaked;
    var l := FirstOf(k) + e;
    InPlaceThrough(st, i, k, b, e);
    IndexedStepIs(st, i, l, Outer(k), e, b, off, data);
    StepKeepsCell(st, i, l, off, data, Ind2);
    StepKeepsCell(st, i, l, off, data, Outer(k));
    IndirectFree(st, i, l);
    var ow :| Good(st, ow);
    var ow' := StepOwned(st, ow, i, l, off, data);
    SoundSized(WriteStep(st, i, l, off, data).st);
  }

  /** Data pointers are in the data region. */
  lemma StartsAbove(st: Store, i: nat, l: nat)
    requires Sound(st) && Live(st, i)
    ensures T(st, i, Data(l)) != 0 ==> T(st, i, Data(l)) >= st.start
  {
    hide Target;
  }

  /** The double-indirect block is neither a data block nor free. */
  lemma IndirectFree(st: Store, i: nat, l: nat)
    requires Sound(st) && Sized(st) && Live(st, i) && T(st, i, Ind2) != 0
    ensures T(st, i, Data(l)) != T(st, i, Ind2) && FirstFree(st.blockMap, st.start, |st.blocks|) != T(st, i, Ind2)
  {
    hide Target, FirstFree;
    InUse(st, i, Ind2);
    FreeIsFree(st.blockMap, st.start, |st.blocks|);
  }

  lemma FreeIsFree(bm: seq<bool>, i: nat, n: nat)
    requires i <= n <= |bm|
    ensures var b := FirstFree(bm, i, n); i <= b <= n && (b < n ==> !bm[b])
  {
  }

  ghost predicate EntriesGive(st: Store, i: nat, k: nat, b: nat, e: nat, off: nat, data: seq<byte>, done: nat, torn: bool, r: Loop)
    requires Sized(st) && i < |st.inodes| && st.inodes[i].indir2 < |st.blocks|
  {
    var l := FirstOf(k) + e;
    match r
    case Stopped(_, _) => false
    case Ended(s, rc, t) => t == torn && Sized(s) && WriteFrom(st, i, l, off, data, done) == Result(s, rc)
    case More(s, data', done', t) =>
      && t == torn && InPlace(s, i, k, b) && s.inodes[i].indir2 == st.inodes[i].indir2 < |s.blocks|
      && s.blocks[s.inodes[i].indir2] == st.blocks[st.inodes[i].indir2]
      && WriteFrom(st, i, l, off, data, done) == WriteFrom(s, i, FirstOf(k + 1), off, data', done')
      && (WriteClean(st, i, l, off, data) ==> WriteClean(s, i, FirstOf(k + 1), off, data'))
  }

  lemma StepUnfolds(st: Store, i: nat, l: nat, off: nat, data: seq<byte>, done: nat)
    requires Sized(st) && i < |st.inodes| && 262 <= l < 65798
    ensures var s := WriteStep(st, i, l, off, data);
            WriteFrom(st, i, l, off, data, done) ==
            if s.Stop? then Result(s.st, ENOSPC) else if s.k == |data| then Result(s.st, done + s.k)
            else WriteFrom(s.st, i, l + 1, off, data[s.k..], done + s.k)
    ensures var s := WriteStep(st, i, l, off, data);
            s.Wrote? && s.k < |data| && WriteClean(st, i, l, off, data) ==> WriteClean(s.st, i, l + 1, off, data[s.k..])
  {
    hide WriteStep, StepClean;
  }

  /** The inner loop does what the block-by-block form does. */
  lemma {:induction false} EntriesAgree(st: Store, i: nat, k: nat, b: nat, e: nat, off: nat, data: seq<byte>, done: nat, torn: bool)
    requires InPlace(st, i, k, b) && e <= 256
    ensures st.inodes[i].indir2 < |st.blocks|
    ensures EntriesGive(st, i, k, b, e, off, data, done, torn,
                        FillEntries(st, i, b, st.blocks[b], e, off, data, done, torn))
    decreases 256 - e
  {
    hide WriteStep, Sound, Target, WriteFrom, WriteClean, FillEntries;
    InPlaceThrough(st, i, k, b, 0);
    if e < 256 {
      var l := FirstOf(k) + e;
      EntryStep(st, i, k, b, e, off, data, done, torn);
      EntryKeeps(st, i, k, b, e, off, data);
      StepUnfolds(st, i, l, off, data, done);
      var s := WriteStep(st, i, l, off, data);
      if s.Wrote? && s.k < |data| { EntriesAgree(s.st, i, k, b, e + 1, off, data[s.k..], done + s.k, torn); }
    } else {
      LoopsOver(st, i, b, st.blocks[b], off, data, done, torn);
    }
  }

  lemma LoopsOver(st: Store, i: nat, b: nat, c: Block, off: nat, data: seq<byte>, done: nat, torn: bool)
    requires Sized(st) && i < |st.inodes| && b < |st.blocks|
    ensures FillEntries(st, i, b, c, 256, off, data, done, torn) == More(st, data, done, torn)
  {
  }

  /** The index block of one turn of the outer loop, taken or there already. */
  lemma OuterGrown(st: Store, i: nat, k: nat) returns (b: nat)
    requires Sound(st) && Sized(st) && Live(st, i) && k < 256 && T(st, i, Ind2) != 0
    requires Grow(st, i, Outer(k)).Ok? ==> Live(Grow(st, i, Outer(k)).st, i) && Sound(Grow(st, i, Outer(k)).st)
    requires Grow(st, i, Outer(k)).Ok? ==> T(Grow(st, i, Outer(k)).st, i, Outer(k)) != 0
    requires Grow(st, i, Outer(k)).Ok? ==> T(Grow(st, i, Outer(k)).st, i, Ind2) == T(st, i, Ind2)
    ensures 0 < st.inodes[i].indir2 < |st.blocks|
    ensures var d, f, g := st.blocks[st.inodes[i].indir2], FirstFree(st.blockMap, st.start, |st.blocks|), Grow(st, i, Outer(k));
            && (g.Full? <==> Ptr(d, k) == 0 && f == |st.blocks|)
            && (g.Full? ==> g.st == st)
            && (g.Ok? ==> b == (if Ptr(d, k) == 0 then f else Ptr(d, k)) && InPlace(g.st, i, k, b)
                          && g.st == (if Ptr(d, k) == 0 then TakeOuter(st, i, d, k, f) else st)
                          && g.st.inodes[i].indir2 == st.inodes[i].indir2
                          && g.st.blocks[st.inodes[i].indir2] == (if Ptr(d, k) == 0 then SetPtr(d, k, f) else d))
  {
    hide Sound, Target, FirstFree, SetPtr, Ptr, Grow;
    InUse(st, i, Ind2);
    InodePointers(st, i);
    OuterIs(st, i, k);
    GrowFull(st, i, Outer(k));
    if T(st, i, Outer(k)) == 0 { GrowOuterIs(st, i, k); }
    var g := Grow(st, i, Outer(k));
    b := T(g.st, i, Outer(k));
    if g.Ok? {
      SoundSized(g.st);
      InUse(g.st, i, Outer(k));
      InodePointers(g.st, i);
      OuterIs(g.st, i, k);
      if T(st, i, Outer(k)) == 0 { NewEntry(st, st.blocks[st.inodes[i].indir2], k); }
    }
  }

  lemma NewEntry(st: Store, d: Block, k: nat)
    requires Sized(st) && |st.blocks| < 0x20_0000 && k < 256
    ensures var f := FirstFree(st.blockMap, st.start, |st.blocks|); Ptr(SetPtr(d, k, f), k) == f
  {
    PtrSetPtr(d, k, FirstFree(st.blockMap, st.start, |st.blocks|));
  }

  lemma OuterUnfolds(st: Store, i: nat, d: Block, k: nat, e: nat, off: nat, data: seq<byte>, done: nat, torn: bool)
    requires Sized(st) && i < |st.inodes| && st.inodes[i].indir2 < |st.blocks| && k < 256 && e < 256
    ensures var isNew, f := Ptr(d, k) == 0, FirstFree(st.blockMap, st.start, |st.blocks|);
            var b := if isNew then f else Ptr(d, k);
            && (isNew && f == |st.blocks| ==> FillOuter(st, i, d, k, e, off, data, done, torn) == Ended(st, ENOSPC, torn))
            && (!isNew && b >= |st.blocks| ==> FillOuter(st, i, d, k, e, off, data, done, torn) == Stopped(st, torn))
            && (b < |st.blocks| ==>
                  var s := if isNew then TakeOuter(st, i, d, k, f) else st;
                  var r := FillEntries(s, i, b, s.blocks[b], e, off, data, done, torn);
                  && s.inodes[i].indir2 == st.inodes[i].indir2 && r.st.inodes[i].indir2 == st.inodes[i].indir2
                  && FillOuter(st, i, d, k, e, off, data, done, torn) ==
                     if r.More? then FillOuter(r.st, i, if isNew then SetPtr(d, k, f) else d, k + 1, 0, off, r.data, r.done, r.torn)
                     else r)
  {
    hide FillEntries, FirstFree, Ptr, SetPtr;
  }

  lemma OuterOver(st: Store, i: nat, d: Block, e: nat, off: nat, data: seq<byte>, done: nat, torn: bool)
    requires Sized(st) && i < |st.inodes| && st.inodes[i].indir2 < |st.blocks| && e < 256
    ensures FillOuter(st, i, d, 256, e, off, data, done, torn) == Ended(st, done, torn)
  {
  }

  /** So do both loops together when no index block taken is stale. */
  lemma {:induction false} OuterAgrees(st: Store, i: nat, k: nat, e: nat, off: nat, data: seq<byte>, done: nat)
    requires Sound(st) && Sized(st) && Live(st, i) && k <= 256 && e < 256 && (k == 256 ==> e == 0) && T(st, i, Ind2) != 0
    requires WriteClean(st, i, FirstOf(k) + e, off, data)
    ensures st.inodes[i].indir2 < |st.blocks|
    ensures var r := WriteFrom(st, i, FirstOf(k) + e, off, data, done);
            FillOuter(st, i, st.blocks[st.inodes[i].indir2], k, e, off, data, done, false) == Ended(r.st, r.rc, false)
    decreases 256 - k
  {
    hide FillOuter, FillEntries, WriteStep, Sound, Target, FirstFree, SetPtr, Ptr, StepClean, WriteClean, Grow;
    InUse(st, i, Ind2);
    InodePointers(st, i);
    var d := st.blocks[st.inodes[i].indir2];
    if k == 256 {
      OuterOver(st, i, d, e, off, data, done, false);
      return;
    }
    var l := FirstOf(k) + e;
    OuterUnfolds(st, i, d, k, e, off, data, done, false);
    IndexContinues(st, i, l, Outer(k), off, data, done);
    var b := OuterGrown(st, i, k);
    var g := Grow(st, i, Outer(k));
    if g.Ok? {
      hide WriteFrom;
      EntriesAgree(g.st, i, k, b, e, off, data, done, false);
      var r := FillEntries(g.st, i, b, g.st.blocks[b], e, off, data, done, false);
      if r.More? { OuterAgrees(r.st, i, k + 1, 0, off, r.data, r.done); }
    }
  }

  lemma OuterIs(st: Store, i: nat, k: nat)
    requires i < |st.inodes| && k < 256 && 0 < st.inodes[i].indir2 < |st.blocks|
    ensures T(st, i, Outer(k)) == Ptr(st.blocks[st.inodes[i].indir2], k)
  {
    hide Ptr;
  }

  /** One turn of the direct and single-indirect loops. */
  lemma LoopsTurn(st: Store, i: nat, l: nat, off: nat, data: seq<byte>, done: nat)
    requires Sized(st) && i < |st.inodes| && l < 262
    ensures var s := WriteStep(st, i, l, off, data);
            LoopsFrom(st, i, l, off, data, done) ==
            if s.Stop? then Ended(s.st, ENOSPC, false)
            else if s.k == |data| then Ended(s.st, done + s.k, false)
            else LoopsFrom(s.st, i, l + 1, NextOff(l, off, s.tb), data[s.k..], done + s.k)
  {
    hide WriteStep, DoubleLoops;
  }

  lemma DoubleAgrees(st: Store, i: nat, l: nat, off: nat, data: seq<byte>, done: nat)
    requires Sound(st) && Sized(st) && Live(st, i) && 262 <= l < 65798 && WriteClean(st, i, l, off, data)
    ensures var r := WriteFrom(st, i, l, off, data, done); DoubleLoops(st, i, l, off, data, done) == Ended(r.st, r.rc, false)
  {
    hide FillOuter, WriteStep, WriteFrom, Sound, Target, FirstFree, StepClean, WriteClean, Grow;
    IndexContinues(st, i, l, Ind2, off, data, done);
    var g := Grow(st, i, Ind2);
    if g.Ok? {
      InodePointers(g.st, i);
      assert FirstOf((l - 262) / 256) + (l - 262) % 256 == l;
      OuterAgrees(g.st, i, (l - 262) / 256, (l - 262) % 256, off, data, done);
    }
  }

  /** fs_write is the block-by-block form whenever no index block it takes is stale. */
  lemma {:induction false} LoopsAgree(st: Store, i: nat, l: nat, off: nat, data: seq<byte>, done: nat)
    requires Sound(st) && Sized(st) && Live(st, i) && l < 65798 && WriteClean(st, i, l, off, data)
    ensures var r := WriteFrom(st, i, l, off, data, done); LoopsFrom(st, i, l, off, data, done) == Ended(r.st, r.rc, false)
    decreases if l < 262 then 262 - l else 0
  {
    hide DoubleLoops, WriteStep, WriteFrom, Sound, StepClean, WriteClean;
    if l < 262 {
      hide LoopsFrom;
      LoopsTurn(st, i, l, off, data, done);
      StepContinues(st, i, l, off, data, done);
      var s := WriteStep(st, i, l, off, data);
      SoundSized(s.st);
      if s.Wrote? && s.k < |data| { LoopsAgree(s.st, i, l + 1, NextOff(l, off, s.tb), data[s.k..], done + s.k); }
    } else {
      DoubleAgrees(st, i, l, off, data, done);
    }
  }

  // ---- what every write does to the inode table ----

  /** Only the size of inode i changed, and grew by what was written. */
  ghost predicate OnlySize(a: Store, b: Store, i: nat, n: int)
    requires i < |a.inodes|
  {
    && b.start == a.start && b.inodeMap == a.inodeMap && n >= 0
    && b.inodes == a.inodes[i := a.inodes[i].(size := a.inodes[i].size + n)]
  }

  /** ... which is what the call reports. */
  ghost predicate Counted(st: Store, i: nat, r: Loop, data: seq<byte>, done: nat)
    requires i < |st.inodes|
  {
    && i < |r.st.inodes|
    && (var n := r.st.inodes[i].size - st.inodes[i].size;
        && n <= |data| && OnlySize(st, r.st, i, n)
        && (r.Ended? && r.rc != ENOSPC ==> r.rc == done + n)
        && (r.More? ==> r.done == done + n && |r.data| == |data| - n))
  }

  lemma CountedOn(st: Store, s: Store, i: nat, n: nat, r: Loop, data: seq<byte>, done: nat)
    requires i < |st.inodes| && OnlySize(st, s, i, n) && n <= |data| && Counted(s, i, r, data[n..], done + n)
    ensures Counted(st, i, r, data, done)
  {
  }

  lemma FillOneCounted(st: Store, i: nat, b: nat, c: Block, e: nat, off: nat, data: seq<byte>)
    requires Sized(st) && i < |st.inodes| && b < |st.blocks| && e < 256
    ensures var x := FillOne(st, i, b, c, e, off, data); x.Entry? ==> x.k <= |data| && OnlySize(st, x.st, i, x.k)
  {
    hide FirstFree, Ptr, SetPtr, Splice;
  }

  lemma {:induction false} EntriesCounted(st: Store, i: nat, b: nat, c: Block, e: nat, off: nat, data: seq<byte>, done: nat,
                                        torn: bool)
    requires Sized(st) && i < |st.inodes| && b < |st.blocks| && e <= 256
    ensures Counted(st, i, FillEntries(st, i, b, c, e, off, data, done, torn), data, done)
    decreases 256 - e
  {
    hide FillOne;
    if e < 256 {
      FillOneCounted(st, i, b, c, e, off, data);
      var x := FillOne(st, i, b, c, e, off, data);
      if x.Entry? && x.k < |data| {
        EntriesCounted(x.st, i, b, x.c, e + 1, off, data[x.k..], done + x.k, torn || x.over);
        CountedOn(st, x.st, i, x.k, FillEntries(x.st, i, b, x.c, e + 1, off, data[x.k..], done + x.k, torn || x.over), data, done);
      }
    }
  }

  lemma CountedMore(st: Store, i: nat, x: Loop, r: Loop, data: seq<byte>, done: nat)
    requires i < |st.inodes| && Counted(st, i, x, data, done) && x.More? && Counted(x.st, i, r, x.data, x.done)
    ensures Counted(st, i, r, data, done)
  {
  }

  lemma CountedNot(st: Store, i: nat, rc: int, data: seq<byte>, done: nat, torn: bool)
    requires i < |st.inodes|
    ensures rc == ENOSPC || rc == done ==> Counted(st, i, Ended(st, rc, torn), data, done)
    ensures Counted(st, i, Stopped(st, torn), data, done)
  {
  }

  lemma {:induction false} OuterCounted(st: Store, i: nat, d: Block, k: nat, e: nat, off: nat, data: seq<byte>, done: nat,
                                        torn: bool)
    requires Sized(st) && i < |st.inodes| && st.inodes[i].indir2 < |st.blocks| && k <= 256 && e < 256
    ensures Counted(st, i, FillOuter(st, i, d, k, e, off, data, done, torn), data, done)
    decreases 256 - k
  {
    hide FillEntries, FirstFree, Ptr, SetPtr, Counted;
    CountedNot(st, i, ENOSPC, data, done, torn);
    CountedNot(st, i, done, data, done, torn);
    if k < 256 {
      var isNew, f := Ptr(d, k) == 0, FirstFree(st.blockMap, st.start, |st.blocks|);
      var b := if isNew then f else Ptr(d, k);
      if b < |st.blocks| {
        var s := if isNew then TakeOuter(st, i, d, k, f) else st;
        EntriesCounted(s, i, b, s.blocks[b], e, off, data, done, torn);
        var r := FillEntries(s, i, b, s.blocks[b], e, off, data, done, torn);
        CountedSame(st, s, i, r, data, done);
        if r.More? {
          OuterCounted(r.st, i, if isNew then SetPtr(d, k, f) else d, k + 1, 0, off, r.data, r.done, r.torn);
          CountedMore(st, i, r, FillOuter(st, i, d, k, e, off, data, done, torn), data, done);
        }
      }
    }
  }

  lemma CountedSame(st: Store, s: Store, i: nat, r: Loop, data: seq<byte>, done: nat)
    requires i < |st.inodes| && s.inodes == st.inodes && s.inodeMap == st.inodeMap && s.start == st.start
    ensures Counted(s, i, r, data, done) ==> Counted(st, i, r, data, done)
  {
  }

  /** Every write lengthens the file by the bytes it reports, whatever its offset
      and whatever blocks it meets. */
  lemma {:induction false} LoopsGrow(st: Store, i: nat, l: nat, off: nat, data: seq<byte>, done: nat)
    requires Sized(st) && i < |st.inodes| && l < 65798
    ensures var r := LoopsFrom(st, i, l, off, data, done);
            && r.st.inodes[i].size >= st.inodes[i].size
            && (r.Ended? && r.rc != ENOSPC ==> r.st.inodes[i].size - st.inodes[i].size == r.rc - done)
    decreases if l < 262 then 262 - l else 0
  {
    hide WriteStep, FillOuter, Grow;
    if l < 262 {
      StepSize(st, i, l, off, data);
      var s := WriteStep(st, i, l, off, data);
      if s.Wrote? && s.k < |data| { LoopsGrow(s.st, i, l + 1, NextOff(l, off, s.tb), data[s.k..], done + s.k); }
    } else {
      GrowSize(st, i, Ind2);
      var g := Grow(st, i, Ind2);
      if g.Ok? {
        var q := g.st.inodes[i].indir2;
        if q < |g.st.blocks| { OuterCounted(g.st, i, g.st.blocks[q], (l - 262) / 256, (l - 262) % 256, off, data, done, false); }
      }
    }
  }

  /** So a complete write of some bytes before the end of the file never leaves
      what it should: the file is too long. */
  lemma OverwriteTooLong(st: Store, i: nat, off: nat, data: seq<byte>)
    requires Sized(st) && i < |st.inodes| && off < st.inodes[i].size && data != []
    requires var r := LoopsFile(st, i, off, data); r.Ended? && r.rc == |data|
    ensures Contents(LoopsFile(st, i, off, data).st, i) != Overlay(Contents(st, i), off, data)
  {
    hide LoopsFrom;
    LoopsGrow(st, i, if off / 1024 < 65798 then off / 1024 else 6, if off / 1024 < 65798 then off else 0, data, 0);
    assert |Contents(st, i)| == st.inodes[i].size;
    assert |Contents(LoopsFile(st, i, off, data).st, i)| == st.inodes[i].size + |data|;
  }
}
