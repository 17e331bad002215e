/** While no index block taken is stale, the device writes of fs_write are those
    of its block-by-block form, one logical block after the other. */
module StepLog {
  import opened Layout
  import opened State
  import opened FileWrite
  import opened WriteSteps
  import opened WriteLoops
  import opened WriteLog
  import opened Device

  /** A missing second-level block: the bitmap, and the double-indirect block
      with the new pointer. */
  function OuterNeed(st: Store, i: nat, k: nat): seq<DevWrite>
    requires Sized(st) && i < |st.inodes| && k < 256
  {
    if T(st, i, Outer(k)) != 0 || Grow(st, i, Outer(k)).Full? then []
    else
      var s, q := Grow(st, i, Outer(k)).st, st.inodes[i].indir2;
      [ToBlockMap(s.blockMap), ToBlock(q, BlockAt(s.blocks, q))]
  }

  /** One entry of the second-level block number k, which is there. */
  function InnerWrites(st: Store, i: nat, k: nat, e: nat, off: nat, data: seq<byte>): seq<DevWrite>
    requires Sized(st) && i < |st.inodes| && e < 256
  {
    var b := T(st, i, Outer(k));
    if b < |st.blocks| then EntryWrites(st, i, b, st.blocks[b], e, off, data) else []
  }

  /** All that is written for logical block l. */
  function StepWrites(st: Store, i: nat, l: nat, off: nat, data: seq<byte>): seq<DevWrite>
    requires Sized(st) && i < |st.inodes| && l < 65798
  {
    if l < 262 then LowWrites(st, i, l, off, data)
    else
      var k, e := (l - 262) / 256, (l - 262) % 256;
      NeedWrites(st, i, Ind2) + match Grow(st, i, Ind2)
        case Full(_) => []
        case Ok(s) => OuterNeed(s, i, k) + match Grow(s, i, Outer(k))
          case Full(_) => []
          case Ok(g) => InnerWrites(g, i, k, e, off, data)
  }

  function WritesFrom(st: Store, i: nat, l: nat, off: nat, data: seq<byte>): seq<DevWrite>
    requires Sized(st) && i < |st.inodes|
    decreases |data|, if l < 65798 then 65798 - l else 0
  {
    if l >= 65798 then []
    else StepWrites(st, i, l, off, data) + match WriteStep(st, i, l, off, data)
      case Stop(_) => []
      case Wrote(s, tb, k) => if k == |data| then [] else WritesFrom(s, i, l + 1, NextOff(l, off, tb), data[k..])
  }

  lemma WritesTurn(st: Store, i: nat, l: nat, off: nat, data: seq<byte>)
    requires Sized(st) && i < |st.inodes| && l < 65798
    ensures var s := WriteStep(st, i, l, off, data);
            WritesFrom(st, i, l, off, data) == StepWrites(st, i, l, off, data) +
            if s.Wrote? && s.k < |data| then WritesFrom(s.st, i, l + 1, NextOff(l, off, s.tb), data[s.k..]) else []
  {
    hide StepWrites, WriteStep;
  }

  // ---- the inner loop ----

  lemma InPlaceWrites(st: Store, i: nat, k: nat, b: nat, e: nat, off: nat, data: seq<byte>)
    requires InPlace(st, i, k, b) && e < 256
    ensures StepWrites(st, i, FirstOf(k) + e, off, data) == EntryWrites(st, i, b, st.blocks[b], e, off, data)
  {
    hide EntryWrites, Target, Sound;
    NeedNothing(st, i, Ind2);
    GrowFull(st, i, Ind2);
    GrowFull(st, i, Outer(k));
    hide NeedWrites, Grow;
  }

  lemma {:induction false} EntriesLog(st: Store, i: nat, k: nat, b: nat, e: nat, off: nat, data: seq<byte>, done: nat, torn: bool)
    requires InPlace(st, i, k, b) && e <= 256
    ensures var r := FillEntries(st, i, b, st.blocks[b], e, off, data, done, torn);
            WritesFrom(st, i, FirstOf(k) + e, off, data) == EntriesWrites(st, i, b, st.blocks[b], e, off, data) +
            if r.More? then WritesFrom(r.st, i, FirstOf(k + 1), off, r.data) else []
    decreases 256 - e
  {
    hide WriteStep, Sound, Target, FillEntries, WritesFrom, EntriesWrites, EntryWrites, StepWrites, FillOne;
    if e < 256 {
      var l := FirstOf(k) + e;
      EntryStep(st, i, k, b, e, off, data, done, torn);
      FillOneStep(st, i, k, b, e, off, data);
      EntryKeeps(st, i, k, b, e, off, data);
      EntriesTurn(st, i, b, st.blocks[b], e, off, data);
      WritesTurn(st, i, l, off, data);
      InPlaceWrites(st, i, k, b, e, off, data);
      var s := WriteStep(st, i, l, off, data);
      if s.Wrote? && s.k < |data| { EntriesLog(s.st, i, k, b, e + 1, off, data[s.k..], done + s.k, torn); }
    } else {
      LoopsOver(st, i, b, st.blocks[b], off, data, done, torn);
      EntriesOver(st, i, b, st.blocks[b], off, data);
    }
  }

  // ---- the outer loop ----

  lemma SameStepHere(st: Store, i: nat, l: nat, loc: Loc, off: nat, data: seq<byte>)
    requires Sound(st) && Sized(st) && Live(st, i) && NextIndex(st, i, l, loc) && WriteClean(st, i, l, off, data)
    requires Grow(st, i, loc).Ok? && T(Grow(st, i, loc).st, i, loc) != 0
    requires loc != Ind2 ==> T(Grow(st, i, loc).st, i, Ind2) == T(st, i, Ind2)
    ensures l < 65798 && WriteStep(st, i, l, off, data) == WriteStep(Grow(st, i, loc).st, i, l, off, data)
  {
    hide Target, NoPointers, Grow, Sound, StepClean, PutBytes;
    SameIndex(st, i, l, loc);
    hide GrowIndex;
  }

  /** What is written for logical block l, seen from the store with its index
      block loc. */
  lemma OuterStep(st: Store, i: nat, k: nat, e: nat, off: nat, data: seq<byte>)
    requires Sized(st) && i < |st.inodes| && k < 256 && e < 256 && T(st, i, Ind2) != 0
    ensures var g := Grow(st, i, Outer(k));
            && (g.Full? ==> StepWrites(st, i, FirstOf(k) + e, off, data) == [])
            && (g.Ok? && T(g.st, i, Outer(k)) != 0 && T(g.st, i, Ind2) != 0 ==>
                  StepWrites(st, i, FirstOf(k) + e, off, data) ==
                  OuterNeed(st, i, k) + StepWrites(g.st, i, FirstOf(k) + e, off, data))
  {
    hide T, InnerWrites, Attach, FirstFree;
    NeedNothing(st, i, Ind2);
    GrowFull(st, i, Ind2);
    var g := Grow(st, i, Outer(k));
    if g.Ok? && T(g.st, i, Outer(k)) != 0 && T(g.st, i, Ind2) != 0 {
      NeedNothing(g.st, i, Ind2);
      GrowFull(g.st, i, Ind2);
      GrowFull(g.st, i, Outer(k));
      hide NeedWrites, Grow;
      assert OuterNeed(g.st, i, k) == [];
    }
  }

  lemma OuterFirst(st: Store, i: nat, k: nat, e: nat, off: nat, data: seq<byte>)
    requires Sound(st) && Sized(st) && Live(st, i) && k < 256 && e < 256 && T(st, i, Ind2) != 0
    requires WriteClean(st, i, FirstOf(k) + e, off, data)
    ensures var g := Grow(st, i, Outer(k));
            && (g.Full? ==> WritesFrom(st, i, FirstOf(k) + e, off, data) == [])
            && (g.Ok? ==> WritesFrom(st, i, FirstOf(k) + e, off, data) ==
                          OuterNeed(st, i, k) + WritesFrom(g.st, i, FirstOf(k) + e, off, data))
  {
    hide Target, WritesFrom, StepWrites, OuterNeed, WriteStep, Sound, Grow, WriteClean, StepClean, WriteFrom, T;
    var l := FirstOf(k) + e;
    var g := Grow(st, i, Outer(k));
    IndexContinues(st, i, l, Outer(k), off, data, 0);
    OuterStep(st, i, k, e, off, data);
    WritesTurn(st, i, l, off, data);
    if g.Ok? {
      SameStepHere(st, i, l, Outer(k), off, data);
      WritesTurn(g.st, i, l, off, data);
    } else {
      StopsFull(st, i, l);
      FullStops(st, i, l, off, data);
    }
  }

  lemma StopsFull(st: Store, i: nat, l: nat)
    requires Sized(st) && i < |st.inodes| && 262 <= l < 65798 && T(st, i, Ind2) != 0
    ensures Grow(st, i, OuterOf(l)).Full? ==> GrowIndex(st, i, l).Full?
  {
    hide T;
    GrowFull(st, i, Ind2);
  }

  lemma FullStops(st: Store, i: nat, l: nat, off: nat, data: seq<byte>)
    requires Sized(st) && i < |st.inodes| && l < 65798
    ensures GrowIndex(st, i, l).Full? ==> WriteStep(st, i, l, off, data).Stop?
  {
    hide GrowIndex;
  }

  lemma {:induction false} OuterLog(st: Store, i: nat, k: nat, e: nat, off: nat, data: seq<byte>)
    requires Sound(st) && Sized(st) && Live(st, i) && k <= 256 && e < 256 && (k == 256 ==> e == 0) && T(st, i, Ind2) != 0
    requires WriteClean(st, i, FirstOf(k) + e, off, data)
    ensures st.inodes[i].indir2 < |st.blocks|
    ensures OuterWrites(st, i, st.blocks[st.inodes[i].indir2], k, e, off, data) == WritesFrom(st, i, FirstOf(k) + e, off, data)
    decreases 256 - k
  {
    hide FillEntries, WriteStep, Sound, Target, FirstFree, SetPtr, Ptr, StepClean, WriteClean, Grow, WritesFrom, OuterWrites,
      EntriesWrites;
    InUse(st, i, Ind2);
    InodePointers(st, i);
    var d := st.blocks[st.inodes[i].indir2];
    if k == 256 {
      OuterEnd(st, i, d, e, off, data);
      NoneBeyond(st, i, off, data);
      return;
    }
    var l := FirstOf(k) + e;
    OuterTurn(st, i, d, k, e, off, data, 0, false);
    IndexContinues(st, i, l, Outer(k), off, data, 0);
    var b := OuterGrown(st, i, k);
    OuterFirst(st, i, k, e, off, data);
    var g := Grow(st, i, Outer(k));
    if g.Ok? {
      hide WriteFrom;
      NeedIs(st, i, k);
      EntriesAgree(g.st, i, k, b, e, off, data, 0, false);
      EntriesLog(g.st, i, k, b, e, off, data, 0, false);
      var r := FillEntries(g.st, i, b, g.st.blocks[b], e, off, data, 0, false);
      if r.More? { OuterLog(r.st, i, k + 1, 0, off, r.data); }
    }
  }

  lemma NoneBeyond(st: Store, i: nat, off: nat, data: seq<byte>)
    requires Sized(st) && i < |st.inodes|
    ensures WritesFrom(st, i, FirstOf(256), off, data) == []
  {
  }

  lemma NeedIs(st: Store, i: nat, k: nat)
    requires Sized(st) && i < |st.inodes| && k < 256 && 0 < st.inodes[i].indir2 < |st.blocks|
    requires var g, d := Grow(st, i, Outer(k)), st.blocks[st.inodes[i].indir2];
             && g.Ok? && |g.st.blocks| == |st.blocks|
             && g.st.blocks[st.inodes[i].indir2] ==
                (if Ptr(d, k) == 0 then SetPtr(d, k, FirstFree(st.blockMap, st.start, |st.blocks|)) else d)
    ensures var g, d := Grow(st, i, Outer(k)), st.blocks[st.inodes[i].indir2];
            OuterNeed(st, i, k) ==
            if Ptr(d, k) != 0 then []
            else [ToBlockMap(g.st.blockMap),
                  ToBlock(st.inodes[i].indir2, SetPtr(d, k, FirstFree(st.blockMap, st.start, |st.blocks|)))]
  {
    hide Target, Grow, Ptr, SetPtr, FirstFree;
    OuterIs(st, i, k);
  }

  // ---- the whole call ----

  lemma DoubleLog(st: Store, i: nat, l: nat, off: nat, data: seq<byte>)
    requires Sound(st) && Sized(st) && Live(st, i) && 262 <= l < 65798 && WriteClean(st, i, l, off, data)
    ensures DoubleWrites(st, i, l, off, data) == WritesFrom(st, i, l, off, data)
  {
    hide WriteStep, WriteFrom, Sound, Target, FirstFree, StepClean, WriteClean, Grow, WritesFrom, OuterWrites, NeedWrites;
    IndexContinues(st, i, l, Ind2, off, data, 0);
    NeedFirst(st, i, l, off, data);
    var g := Grow(st, i, Ind2);
    if g.Ok? {
      InodePointers(g.st, i);
      assert FirstOf((l - 262) / 256) + (l - 262) % 256 == l;
      OuterLog(g.st, i, (l - 262) / 256, (l - 262) % 256, off, data);
    }
  }

  lemma NeedFirst(st: Store, i: nat, l: nat, off: nat, data: seq<byte>)
    requires Sound(st) && Sized(st) && Live(st, i) && 262 <= l < 65798 && WriteClean(st, i, l, off, data)
    ensures var g := Grow(st, i, Ind2);
            && (g.Full? ==> WritesFrom(st, i, l, off, data) == [] == NeedWrites(st, i, Ind2))
            && (g.Ok? ==> WritesFrom(st, i, l, off, data) == NeedWrites(st, i, Ind2) + WritesFrom(g.st, i, l, off, data))
  {
    hide Target, WritesFrom, OuterNeed, WriteStep, Sound, Grow, WriteClean, StepClean, WriteFrom, T, InnerWrites, NeedWrites;
    var g := Grow(st, i, Ind2);
    IndexContinues(st, i, l, Ind2, off, data, 0);
    WritesTurn(st, i, l, off, data);
    GrowFullNeed(st, i);
    if g.Ok? {
      SameStepHere(st, i, l, Ind2, off, data);
      WritesTurn(g.st, i, l, off, data);
      NeedNothing(g.st, i, Ind2);
      GrowFull(g.st, i, Ind2);
    } else {
      assert GrowIndex(st, i, l).Full?;
      FullStops(st, i, l, off, data);
    }
  }

  lemma GrowFullNeed(st: Store, i: nat)
    requires Sized(st) && i < |st.inodes|
    ensures Grow(st, i, Ind2).Full? ==> NeedWrites(st, i, Ind2) == []
  {
    hide T, FirstFree, Attach;
  }

  lemma {:induction false} LoopsLog(st: Store, i: nat, l: nat, off: nat, data: seq<byte>)
    requires Sound(st) && Sized(st) && Live(st, i) && l < 65798 && WriteClean(st, i, l, off, data)
    ensures LoopWrites(st, i, l, off, data) == WritesFrom(st, i, l, off, data)
    decreases if l < 262 then 262 - l else 0
  {
    hide DoubleWrites, WriteStep, WriteFrom, Sound, StepClean, WriteClean, LowWrites;
    if l < 262 {
      hide LoopWrites, WritesFrom;
      LowTurn(st, i, l, off, data);
      WritesTurn(st, i, l, off, data);
      StepContinues(st, i, l, off, data, 0);
      var s := WriteStep(st, i, l, off, data);
      SoundSized(s.st);
      if s.Wrote? && s.k < |data| { LoopsLog(s.st, i, l + 1, NextOff(l, off, s.tb), data[s.k..]); }
    } else {
      LoopsDoubleWrites(st, i, l, off, data);
      DoubleLog(st, i, l, off, data);
    }
  }
}
