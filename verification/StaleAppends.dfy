/** Appends that take second-level index blocks with whatever old contents, to
    any length: if those can be adopted, all is well. */
module StaleAppends {
  import opened Layout
  import opened State
  import opened AttachProofs
  import opened FileWrite
  import opened WriteProofs
  import opened WriteTheorems
  import opened WriteSteps
  import opened WriteLoops
  import opened StaleIndex
  import opened StaleFill

  /** The blocks the outer loop takes as second-level blocks, in order. */
  function Takes(st: Store, i: nat, d: Block, k: nat, e: nat, off: nat, data: seq<byte>, done: nat, torn: bool): seq<nat>
    requires Sized(st) && i < |st.inodes| && st.inodes[i].indir2 < |st.blocks| && k <= 256 && e < 256
    decreases 256 - k
  {
    var f := FirstFree(st.blockMap, st.start, |st.blocks|);
    if k == 256 then []
    else if Ptr(d, k) == 0 then
      if f == |st.blocks| then []
      else
        var s := TakeOuter(st, i, d, k, f);
        [f] + (match FillEntries(s, i, f, s.blocks[f], e, off, data, done, torn)
               case More(s', data', done', t') => Takes(s', i, SetPtr(d, k, f), k + 1, 0, off, data', done', t')
               case _ => [])
    else if Ptr(d, k) >= |st.blocks| then []
    else
      match FillEntries(st, i, Ptr(d, k), st.blocks[Ptr(d, k)], e, off, data, done, torn)
      case More(s', data', done', t') => Takes(s', i, d, k + 1, 0, off, data', done', t')
      case _ => []
  }

  /** The file ends where second-level block k begins, with all blocks there and
      no second-level block from k on. */
  ghost predicate Boundary(st: Store, i: nat, k: nat)
    requires i < |st.inodes|
  {
    && k <= 256 && st.inodes[i].size == FirstOf(k) * 1024 && T(st, i, Ind2) != 0 && Complete(st, i)
    && (forall m :: T(st, i, m) != 0 ==> FirstBlock(m) * 1024 <= st.inodes[i].size)
    && (forall m: Loc :: m.Outer? && m.k >= k ==> T(st, i, m) == 0)
  }

  /** Block f, contents and all, becomes second-level block k: as a store. */
  lemma TakeIs(st: Store, ow: Owners, i: nat, k: nat, f: nat)
    requires Good(st, ow) && Live(st, i) && k < 256 && T(st, i, Ind2) != 0 && T(st, i, Outer(k)) == 0
    requires Sized(st) && f == FirstFree(st.blockMap, st.start, |st.blocks|) < |st.blocks|
    ensures var q := st.inodes[i].indir2;
            && CanAttach(st, i, Outer(k), f) && 0 < q < |st.blocks| && q != f && st.blockMap[q] && q == T(st, i, Ind2)
            && Attach(st, i, Outer(k), f, st.blocks[f]) == TakeOuter(st, i, st.blocks[q], k, f)
            && TakeOuter(st, i, st.blocks[q], k, f).blocks[f] == st.blocks[f] && 0 < f
            && Ptr(st.blocks[q], k) == 0
  {
    AttachBlocks(st, ow, i, Outer(k), f, st.blocks[f]);
    AttachFields(st, ow, i, Outer(k), f, st.blocks[f]);
    InodePointers(st, i);
    OuterIs(st, i, k);
    hide Target, SetPtr, Attach, Ptr;
    assert st.blocks[f := st.blocks[f]] == st.blocks;
    assert Attach(st, i, Outer(k), f, st.blocks[f]) == TakeOuter(st, i, st.blocks[st.inodes[i].indir2], k, f);
  }

  /** ... and when its old contents can be adopted. */
  ghost predicate Adopted(st: Store, ow: Owners, i: nat, k: nat, f: nat, t: Store, ow': Owners)
    requires i < |st.inodes| && f < |st.blocks|
  {
    && Good(t, ow') && InPlace(t, i, k, f) && OthersSame(st, t, i) && FreeKept(st, t) && Complete(t, i) && Live(t, i)
    && Sized(st) && t.inodes == st.inodes && Contents(t, i) == Contents(st, i)
    && Leaked(t, ow') == Leaked(st, ow) - Named(st.blocks[f]) && t.blocks[f] == st.blocks[f]
    && forall m :: T(t, i, m) == StaleT(st, i, k, f, st.blocks[f], i, m)
  }

  /** No data block in use changes. */
  lemma TakeData(st: Store, ow: Owners, i: nat, k: nat, f: nat, j: nat, l: nat)
    requires Good(st, ow) && Live(st, i) && k < 256 && CanAttach(st, i, Outer(k), f) && Live(st, j) && T(st, j, Data(l)) != 0
    ensures var t := Attach(st, i, Outer(k), f, st.blocks[f]);
            && j < |t.inodes| && T(t, j, Data(l)) == T(st, j, Data(l))
            && BlockAt(t.blocks, T(st, j, Data(l))) == BlockAt(st.blocks, T(st, j, Data(l)))
  {
    AttachDataBlocks(st, ow, i, Outer(k), f, st.blocks[f], j, l);
    AttachTarget(st, ow, i, Outer(k), f, st.blocks[f], j, Data(l));
    AttachFields(st, ow, i, Outer(k), f, st.blocks[f]);
    InRange(st, ow, j, Data(l));
  }

  lemma InRange(st: Store, ow: Owners, i: nat, m: Loc)
    requires Good(st, ow) && Live(st, i) && T(st, i, m) != 0
    ensures T(st, i, m) < |st.blocks|
  {
    hide Target;
  }

  lemma TakeContents(st: Store, ow: Owners, i: nat, k: nat, f: nat)
    requires Good(st, ow) && Live(st, i) && k < 256 && CanAttach(st, i, Outer(k), f)
    requires Complete(st, i) && st.inodes[i].size <= MAX_BYTES
    ensures var t := Attach(st, i, Outer(k), f, st.blocks[f]);
            i < |t.inodes| && t.inodes == st.inodes && Contents(t, i) == Contents(st, i) && Complete(t, i)
  {
    hide Target, Attach, Owned;
    var t := Attach(st, i, Outer(k), f, st.blocks[f]);
    AttachBlocks(st, ow, i, Outer(k), f, st.blocks[f]);
    forall x: nat | x < st.inodes[i].size ensures ByteAt(t, i, x) == ByteAt(st, i, x) {
      assert T(st, i, Data(x / 1024)) != 0;
      TakeData(st, ow, i, k, f, i, x / 1024);
    }
    SameBytes(st, t, i);
    forall l: nat | l < 65798 && l * 1024 < t.inodes[i].size ensures T(t, i, Data(l)) != 0 {
      assert T(st, i, Data(l)) != 0;
      TakeData(st, ow, i, k, f, i, l);
    }
  }

  lemma TakeOthers(st: Store, ow: Owners, i: nat, k: nat, f: nat)
    requires Good(st, ow) && Live(st, i) && k < 256 && CanAttach(st, i, Outer(k), f)
    ensures OthersSame(st, Attach(st, i, Outer(k), f, st.blocks[f]), i)
  {
    hide Target, Attach, Owned;
    var t := Attach(st, i, Outer(k), f, st.blocks[f]);
    AttachBlocks(st, ow, i, Outer(k), f, st.blocks[f]);
    AttachFields(st, ow, i, Outer(k), f, st.blocks[f]);
    forall j: nat, m | Live(st, j) && j != i ensures T(t, j, m) == T(st, j, m) { StaleTarget(st, ow, i, k, f, j, m); }
    forall j: nat, l | Live(st, j) && j != i && T(st, j, Data(l)) != 0
      ensures BlockAt(t.blocks, T(st, j, Data(l))) == BlockAt(st.blocks, T(st, j, Data(l)))
    {
      TakeData(st, ow, i, k, f, j, l);
    }
  }

  lemma AdoptTake(st: Store, ow: Owners, i: nat, k: nat, f: nat) returns (ow': Owners)
    requires Good(st, ow) && Live(st, i) && k < 256 && Boundary(st, i, k) && Sized(st)
    requires f == FirstFree(st.blockMap, st.start, |st.blocks|) < |st.blocks| && Adoptable(st, ow, st.blocks[f])
    ensures st.inodes[i].indir2 < |st.blocks|
    ensures Adopted(st, ow, i, k, f, TakeOuter(st, i, st.blocks[st.inodes[i].indir2], k, f), ow')
  {
    hide Target, Attach, Owned, Leaked, Contents, Ptr, SetPtr, Adoptable, AdoptedOw, Named, StaleT, FirstFree;
    TakeIs(st, ow, i, k, f);
    var t := TakeOuter(st, i, st.blocks[st.inodes[i].indir2], k, f);
    ow' := AdoptedOw(ow, i, k, f, st.blocks[f]);
    AdoptGood(st, ow, i, k, f);
    AdoptLeaks(st, ow, i, k, f);
    TakeOthers(st, ow, i, k, f);
    TakeContents(st, ow, i, k, f);
    forall m ensures T(t, i, m) == StaleT(st, i, k, f, st.blocks[f], i, m) { StaleTarget(st, ow, i, k, f, i, m); }
    TakeInPlace(st, t, ow', i, k, f);
    assert FreeKept(st, t) by { hide InPlace; }
  }

  lemma TakeInPlace(st: Store, t: Store, ow': Owners, i: nat, k: nat, f: nat)
    requires Live(st, i) && k < 256 && T(st, i, Ind2) != 0 && f < |st.blocks| && Sized(t) && t.inodeMap == st.inodeMap
    requires Good(t, ow') && t.inodes == st.inodes && |t.blocks| == |st.blocks| && 0 < f
    requires forall m :: T(t, i, m) == StaleT(st, i, k, f, st.blocks[f], i, m)
    ensures InPlace(t, i, k, f) && Live(t, i)
  {
    hide Target, Owned;
    assert Sound(t);
  }

  /** The store after taking block f, and what the inner loop makes of it. */
  function TakenNow(st: Store, i: nat, d: Block, k: nat): (t: Store)
    requires Sized(st) && i < |st.inodes| && st.inodes[i].indir2 < |st.blocks| && k < 256
    requires FirstFree(st.blockMap, st.start, |st.blocks|) < |st.blocks|
    ensures Sized(t) && t.inodes == st.inodes && |t.blocks| == |st.blocks|
  {
    TakeOuter(st, i, d, k, FirstFree(st.blockMap, st.start, |st.blocks|))
  }

  function TakenEntries(st: Store, i: nat, d: Block, k: nat, off: nat, data: seq<byte>, done: nat, torn: bool): (r: Loop)
    requires Sized(st) && i < |st.inodes| && st.inodes[i].indir2 < |st.blocks| && k < 256
    requires FirstFree(st.blockMap, st.start, |st.blocks|) < |st.blocks|
    ensures Sized(r.st) && |r.st.inodes| == |st.inodes| && |r.st.blocks| == |st.blocks|
             && r.st.inodes[i].indir2 == st.inodes[i].indir2
  {
    var f, t := FirstFree(st.blockMap, st.start, |st.blocks|), TakenNow(st, i, d, k);
    FillEntries(t, i, f, t.blocks[f], 0, off, data, done, torn)
  }

  /** One turn of the outer loop where a second-level block is taken. */
  lemma OuterTurn(st: Store, i: nat, d: Block, k: nat, off: nat, data: seq<byte>, done: nat, torn: bool)
    requires Sized(st) && i < |st.inodes| && st.inodes[i].indir2 < |st.blocks| && k < 256 && Ptr(d, k) == 0
    ensures var f := FirstFree(st.blockMap, st.start, |st.blocks|);
            if f == |st.blocks| then
              FillOuter(st, i, d, k, 0, off, data, done, torn) == Ended(st, ENOSPC, torn)
                && Takes(st, i, d, k, 0, off, data, done, torn) == []
            else
              var r := TakenEntries(st, i, d, k, off, data, done, torn);
              && FillOuter(st, i, d, k, 0, off, data, done, torn) ==
                 (if r.More? then FillOuter(r.st, i, SetPtr(d, k, f), k + 1, 0, off, r.data, r.done, r.torn) else r)
              && Takes(st, i, d, k, 0, off, data, done, torn) ==
                 [f] + (if r.More? then Takes(r.st, i, SetPtr(d, k, f), k + 1, 0, off, r.data, r.done, r.torn) else [])
  {
    hide FillEntries, FirstFree, SetPtr, Ptr;
  }

  ghost predicate PointersKept(a: Store, b: Store, i: nat)
    requires i < |a.inodes|
  {
    i < |b.inodes| && forall m :: T(a, i, m) != 0 ==> T(b, i, m) == T(a, i, m)
  }

  ghost predicate LoopsGrew(st: Store, i: nat, r: Loop, ow': Owners, data: seq<byte>, done: nat, torn: bool)
    requires i < |st.inodes|
  {
    && r.Ended? && r.torn == torn && i < |r.st.inodes|
    && Good(r.st, ow') && OthersSame(st, r.st, i) && Shape(r.st, i) && PointersKept(st, r.st, i)
    && 0 <= r.st.inodes[i].size - st.inodes[i].size <= |data|
    && (var n := r.st.inodes[i].size - st.inodes[i].size;
        && Contents(r.st, i) == Contents(st, i) + data[..n]
        && (r.rc == ENOSPC || (r.rc == done + n && (n == |data| || r.st.inodes[i].size == MAX_BYTES))))
  }

  /** The first block's words, when all can be adopted. */
  lemma FirstAdopts(st: Store, ow: Owners, bs: seq<nat>, n: int)
    requires Sized(st) && Adopts(st, ow, bs, n) && bs != [] && 0 < bs[0] < |st.blocks|
    ensures Adoptable(st, ow, st.blocks[bs[0]])
    ensures forall e :: 0 <= e < 256 && Ptr(st.blocks[bs[0]], e) != 0 ==> e < n
  {
    hide Leaked, Ptr;
    forall e | 0 <= e < 256 ensures Word(st, bs, e) == Ptr(st.blocks[bs[0]], e) { }
  }

  /** The old words of f that are not null belong to blocks the file reaches. */
  ghost predicate WordsReached(c: Block, size: nat, r: Loop, i: nat)
    requires i < |r.st.inodes|
  {
    forall e :: 0 <= e < 256 && Ptr(c, e) != 0 ==> e < (r.st.inodes[i].size - size) / 1024 + 1 || r.More?
  }

  /** Where the pointers of the file are, once the block is taken and filled. */
  lemma TurnPointers(st: Store, ow: Owners, i: nat, k: nat, f: nat, t: Store, ow1: Owners, r: Loop, ow2: Owners, data: seq<byte>,
                     done: nat, torn: bool, m: Loc)
    requires i < |st.inodes| && k < 256 && Boundary(st, i, k) && f < |st.blocks| && i < |t.inodes|
             && t.inodes[i].indir2 < |t.blocks|
    requires Adopted(st, ow, i, k, f, t, ow1) && EntriesGrew(t, ow1, i, k, f, r, ow2, data, done, torn)
    requires WordsReached(st.blocks[f], st.inodes[i].size, r, i)
    ensures T(r.st, i, m) != 0 ==> FirstBlock(m) * 1024 <= r.st.inodes[i].size && (m.Outer? ==> m.k <= k)
    ensures T(r.st, i, Ind2) != 0 && (T(st, i, m) != 0 ==> T(r.st, i, m) == T(st, i, m)) && T(r.st, i, Outer(k)) == f
  {
    hide Good, Contents, Target, Leaked, OthersSame, Named, Ptr, Complete, FreeKept, Sound;
    NullChildren(st, i, k);
    assert T(t, i, Outer(k)) == f != 0;
    assert T(t, i, m) == StaleT(st, i, k, f, st.blocks[f], i, m);
    assert T(t, i, Ind2) == StaleT(st, i, k, f, st.blocks[f], i, Ind2);
    if m.Data? && FirstOf(k) <= m.l < FirstOf(k) + 256 && T(t, i, m) != 0 {
      assert Ptr(st.blocks[f], m.l - FirstOf(k)) != 0;
    }
  }

  /** The rest of what taking and filling keep. */
  lemma TurnKeeps(st: Store, ow: Owners, i: nat, k: nat, f: nat, t: Store, ow1: Owners, r: Loop, ow2: Owners, data: seq<byte>,
                  done: nat, torn: bool)
    requires i < |st.inodes| && f < |st.blocks| && i < |t.inodes| && t.inodes[i].indir2 < |t.blocks|
    requires Adopted(st, ow, i, k, f, t, ow1) && EntriesGrew(t, ow1, i, k, f, r, ow2, data, done, torn)
    ensures Good(r.st, ow2) && OthersSame(st, r.st, i) && Live(r.st, i) && Complete(r.st, i)
    ensures Contents(r.st, i) == Contents(st, i) + data[..r.st.inodes[i].size - st.inodes[i].size]
    ensures FreeKept(st, r.st) && Sized(r.st) && Sized(st) && Leaked(r.st, ow2) == Leaked(st, ow) - Named(st.blocks[f])
  {
    hide Good, Contents, Target, Leaked, OthersSame, Named, InPlace, Complete, StaleT;
    OthersSameTrans(st, t, r.st, i);
    assert Sized(r.st) by { GoodSized(r.st, ow2); }
  }

  /** Taken and filled, the block leaves the file at the next boundary, or done. */
  lemma TurnGrew(st: Store, ow: Owners, i: nat, k: nat, f: nat, t: Store, ow1: Owners, r: Loop, ow2: Owners, data: seq<byte>,
                 done: nat, torn: bool)
    requires i < |st.inodes| && k < 256 && Boundary(st, i, k) && f < |st.blocks| && i < |t.inodes|
             && t.inodes[i].indir2 < |t.blocks|
    requires Adopted(st, ow, i, k, f, t, ow1) && EntriesGrew(t, ow1, i, k, f, r, ow2, data, done, torn)
    requires WordsReached(st.blocks[f], st.inodes[i].size, r, i)
    ensures r.Ended? ==> LoopsGrew(st, i, r, ow2, data, done, torn)
    ensures r.More? ==> Boundary(r.st, i, k + 1) && PointersKept(st, r.st, i)
    ensures T(r.st, i, Outer(k)) == f
  {
    hide Good, Contents, Target, Leaked, OthersSame, Named, Ptr, InPlace, StaleT, WordsReached, FreeKept, Advanced;
    TurnKeeps(st, ow, i, k, f, t, ow1, r, ow2, data, done, torn);
    forall m
      ensures T(r.st, i, m) != 0 ==> FirstBlock(m) * 1024 <= r.st.inodes[i].size && (m.Outer? ==> m.k <= k)
      ensures T(r.st, i, Ind2) != 0 && (T(st, i, m) != 0 ==> T(r.st, i, m) == T(st, i, m)) && T(r.st, i, Outer(k)) == f
    {
      TurnPointers(st, ow, i, k, f, t, ow1, r, ow2, data, done, torn, m);
    }
    assert t.inodes[i].size == st.inodes[i].size by { hide InPlace; }
  }

  // ---- the blocks taken are free before ----

  ghost predicate MarksKept(a: Store, b: Store) {
    && b.start == a.start && |b.blocks| == |a.blocks| && |b.blockMap| == |a.blockMap|
    && forall y :: 0 <= y < |a.blockMap| && a.blockMap[y] ==> b.blockMap[y]
  }

  lemma EnterMarks(st: Store, i: nat, b: nat, c: Block, e: nat, off: nat, data: seq<byte>)
    requires Sized(st) && i < |st.inodes| && b < |st.blocks| && e < 256
    ensures var x := FillOne(st, i, b, c, e, off, data); x.Entry? ==> MarksKept(st, x.st)
  {
    hide FirstFree, Ptr, SetPtr, Splice;
  }

  lemma {:induction false} EntriesMarks(st: Store, i: nat, b: nat, c: Block, e: nat, off: nat, data: seq<byte>, done: nat,
                                        torn: bool)
    requires Sized(st) && i < |st.inodes| && b < |st.blocks| && e <= 256
    ensures MarksKept(st, FillEntries(st, i, b, c, e, off, data, done, torn).st)
    decreases 256 - e
  {
    hide FillOne;
    if e < 256 {
      EnterMarks(st, i, b, c, e, off, data);
      var x := FillOne(st, i, b, c, e, off, data);
      if x.Entry? && x.k < |data| { EntriesMarks(x.st, i, b, x.c, e + 1, off, data[x.k..], done + x.k, torn || x.over); }
    }
  }

  lemma {:induction false} TakesFree(st: Store, i: nat, d: Block, k: nat, e: nat, off: nat, data: seq<byte>, done: nat, torn: bool)
    requires Sized(st) && i < |st.inodes| && st.inodes[i].indir2 < |st.blocks| && k <= 256 && e < 256
    ensures forall b :: b in Takes(st, i, d, k, e, off, data, done, torn) ==> st.start <= b < |st.blocks| && !st.blockMap[b]
    decreases 256 - k
  {
    hide FillEntries, Ptr, SetPtr, FirstFree;
    var f := FirstFree(st.blockMap, st.start, |st.blocks|);
    FreeIsFree(st.blockMap, st.start, |st.blocks|);
    if k < 256 && Ptr(d, k) == 0 && f < |st.blocks| {
      var s := TakeOuter(st, i, d, k, f);
      var r := FillEntries(s, i, f, s.blocks[f], e, off, data, done, torn);
      EntriesMarks(s, i, f, s.blocks[f], e, off, data, done, torn);
      if r.More? { TakesFree(r.st, i, SetPtr(d, k, f), k + 1, 0, off, r.data, r.done, r.torn); }
    } else if k < 256 && 0 < Ptr(d, k) < |st.blocks| {
      var b := Ptr(d, k);
      var r := FillEntries(st, i, b, st.blocks[b], e, off, data, done, torn);
      EntriesMarks(st, i, b, st.blocks[b], e, off, data, done, torn);
      if r.More? { TakesFree(r.st, i, d, k + 1, 0, off, r.data, r.done, r.torn); }
    }
  }

  /** What is left to adopt after the first block. */
  lemma RestAdopts(st: Store, ow: Owners, s: Store, ow': Owners, f: nat, bs: seq<nat>, n: int)
    requires Sized(st) && Sized(s) && FreeKept(st, s) && 0 < f < |st.blocks| && Adopts(st, ow, [f] + bs, n)
    requires Leaked(s, ow') == Leaked(st, ow) - Named(st.blocks[f])
    requires forall b :: b in bs ==> s.start <= b < |s.blocks| && !s.blockMap[b]
    ensures Adopts(s, ow', bs, n - 256)
  {
    hide Leaked, Ptr, Named;
    forall x: nat | x < 256 * |bs| ensures Word(s, bs, x) == Word(st, [f] + bs, x + 256) {
      assert bs[x / 256] in bs;
      assert ([f] + bs)[(x + 256) / 256] == bs[x / 256];
    }
    forall x: nat | x < 256 * |bs| && Word(s, bs, x) != 0
      ensures x < n - 256 && Word(s, bs, x) in Leaked(s, ow')
    {
      var w := Word(st, [f] + bs, x + 256);
      InNamed(st.blocks[f], w);
      forall e | 0 <= e < 256 ensures Ptr(st.blocks[f], e) != w {
        assert Word(st, [f] + bs, e) == Ptr(st.blocks[f], e);
      }
    }
    forall x: nat, y: nat | x < y < 256 * |bs| && Word(s, bs, x) != 0 ensures Word(s, bs, x) != Word(s, bs, y) {
      assert Word(st, [f] + bs, x + 256) != Word(st, [f] + bs, y + 256);
    }
  }

  /** All the old words are null. */
  ghost predicate NullWords(st: Store, bs: seq<nat>) { forall x :: 0 <= x < 256 * |bs| ==> Word(st, bs, x) == 0 }

  lemma NullRest(st: Store, s: Store, f: nat, bs: seq<nat>)
    requires NullWords(st, [f] + bs) && 0 < f < |st.blocks|
    ensures NoPointers(st.blocks[f])
    ensures (FreeKept(st, s) && |s.blocks| <= |s.blockMap| && forall b :: b in bs ==> b < |s.blocks| && !s.blockMap[b])
            ==> NullWords(s, bs)
  {
    hide Ptr;
    forall e | 0 <= e < 256 ensures Ptr(st.blocks[f], e) == 0 { assert Word(st, [f] + bs, e) == 0; }
    if FreeKept(st, s) && |s.blocks| <= |s.blockMap| && (forall b :: b in bs ==> b < |s.blocks| && !s.blockMap[b]) {
      forall x: nat | x < 256 * |bs| ensures Word(s, bs, x) == 0 {
        assert ([f] + bs)[(x + 256) / 256] == bs[x / 256];
        assert Word(st, [f] + bs, x + 256) == 0;
        assert bs[x / 256] in bs;
        assert s.blocks[bs[x / 256]] == st.blocks[bs[x / 256]];
      }
    }
  }

  // ---- to any length ----

  lemma NothingMore(st: Store, ow: Owners, i: nat, k: nat, rc: int, data: seq<byte>, done: nat, torn: bool)
    requires Good(st, ow) && i < |st.inodes| && Boundary(st, i, k) && (rc == ENOSPC || (k == 256 && rc == done))
    ensures LoopsGrew(st, i, Ended(st, rc, torn), ow, data, done, torn)
  {
    hide Good, Contents, Target;
    OthersRefl(st, i);
    assert Contents(st, i) + data[..0] == Contents(st, i);
  }

  lemma GrewOn(st: Store, ow: Owners, i: nat, s: Store, r: Loop, ow': Owners, data: seq<byte>, n: nat, done: nat, torn: bool)
    requires i < |st.inodes| == |s.inodes| && n <= |data| && OthersSame(st, s, i) && Contents(s, i) == Contents(st, i) + data[..n]
    requires LoopsGrew(s, i, r, ow', data[n..], done + n, torn) && PointersKept(st, s, i)
    ensures LoopsGrew(st, i, r, ow', data, done, torn)
  {
    hide Good, OthersSame, Shape, T;
    ContentsSize(st, s, i, data[..n]);
    OthersSameTrans(st, s, r.st, i);
    var m := r.st.inodes[i].size - s.inodes[i].size;
    hide Contents;
    assert data[..n] + data[n..][..m] == data[..n + m];
    assert Contents(st, i) + data[..n] + data[n..][..m] == Contents(st, i) + (data[..n] + data[n..][..m]);
  }

  /** The next boundary, reached from st through t, with blocks bs still to adopt. */
  ghost predicate TurnedTo(st: Store, i: nat, k: nat, t: Store, r: Loop, ow: Owners, bs: seq<nat>, n: int, data: seq<byte>,
                           done: nat)
    requires i < |st.inodes| && r.More?
  {
    && i < |r.st.inodes| && Sized(r.st) && st.inodes[i].indir2 < |r.st.blocks| == |t.blocks|
    && Good(r.st, ow) && OthersSame(st, r.st, i) && Live(r.st, i) && Boundary(r.st, i, k + 1)
    && Adopts(r.st, ow, bs, n - 256) && r.st.inodes[i].size == FirstOf(k + 1) * 1024 && PointersKept(st, r.st, i)
    && r.st.blocks[st.inodes[i].indir2] == t.blocks[st.inodes[i].indir2]
    && 0 <= r.st.inodes[i].size - st.inodes[i].size <= |data|
    && (var m := r.st.inodes[i].size - st.inodes[i].size;
        Contents(r.st, i) == Contents(st, i) + data[..m] && r.data == data[m..] && r.done == done + m)
  }

  /** One turn: the block is adopted and filled. */
  lemma TurnFills(st: Store, ow: Owners, i: nat, k: nat, off: nat, data: seq<byte>, done: nat, torn: bool, bs: seq<nat>, n: int)
    returns (ow2: Owners)
    requires Good(st, ow) && Live(st, i) && Sized(st) && k < 256 && Boundary(st, i, k)
    requires off % 1024 == 0 || NullWords(st, [FirstFree(st.blockMap, st.start, |st.blocks|)] + bs)
    requires 0 < st.inodes[i].indir2 < |st.blocks| && FirstFree(st.blockMap, st.start, |st.blocks|) < |st.blocks|
    requires Adopts(st, ow, [FirstFree(st.blockMap, st.start, |st.blocks|)] + bs, n)
    requires var r := TakenEntries(st, i, st.blocks[st.inodes[i].indir2], k, off, data, done, torn);
             && (!r.More? ==> n == (r.st.inodes[i].size - st.inodes[i].size) / 1024 + 1)
             && (r.More? ==> forall b :: b in bs ==> r.st.start <= b < |r.st.blocks| && !r.st.blockMap[b])
    ensures var r := TakenEntries(st, i, st.blocks[st.inodes[i].indir2], k, off, data, done, torn);
            && (r.Ended? ==> LoopsGrew(st, i, r, ow2, data, done, torn))
            && !r.Stopped? && r.torn == torn && T(r.st, i, Outer(k)) == FirstFree(st.blockMap, st.start, |st.blocks|) != 0
            && (r.More? ==> off % 1024 == 0 || NullWords(r.st, bs))
            && (r.More? ==> TurnedTo(st, i, k, TakenNow(st, i, st.blocks[st.inodes[i].indir2], k), r, ow2, bs, n, data, done))
  {
    hide Good, Contents, Target, OthersSame, FillEntries, Adopts, LoopsGrew, Ptr, SetPtr, Adoptable, Adopted, EntriesGrew,
      WordsReached, InPlace, Leaked, Named, FirstFree, StaleT, Complete, TakenEntries, Takes, Boundary, NoPointers, NullWords;
    var f := FirstFree(st.blockMap, st.start, |st.blocks|);
    BoundaryNull(st, i, k);
    TakeIs(st, ow, i, k, f);
    FirstAdopts(st, ow, [f] + bs, n);
    var ow1 := AdoptTake(st, ow, i, k, f);
    var d := st.blocks[st.inodes[i].indir2];
    var t, r := TakenNow(st, i, d, k), TakenEntries(st, i, d, k, off, data, done, torn);
    if off % 1024 != 0 { NullRest(st, r.st, f, bs); }
    ow2 := TakenFills(st, ow, i, k, off, data, done, torn, ow1);
    EntriesEnd(t, ow1, i, k, f, r, ow2, data, done, torn);
    Reached(st.blocks[f], st.inodes[i].size, n, r, i);
    TurnKeeps(st, ow, i, k, f, t, ow1, r, ow2, data, done, torn);
    TurnGrew(st, ow, i, k, f, t, ow1, r, ow2, data, done, torn);
    if r.More? {
      TurnMore(t, ow1, i, k, f, r, ow2, data, done, torn);
      RestAdopts(st, ow, r.st, ow2, f, bs, n);
    }
  }

  lemma BoundaryNull(st: Store, i: nat, k: nat)
    requires i < |st.inodes| && Boundary(st, i, k)
    ensures T(st, i, Ind2) != 0 && T(st, i, Outer(k)) == 0 && k <= 256 && st.inodes[i].size == FirstOf(k) * 1024
  {
  }

  lemma EntriesEnd(t: Store, ow1: Owners, i: nat, k: nat, f: nat, r: Loop, ow2: Owners, data: seq<byte>, done: nat, torn: bool)
    requires i < |t.inodes| && t.inodes[i].indir2 < |t.blocks| && EntriesGrew(t, ow1, i, k, f, r, ow2, data, done, torn)
    ensures !r.Stopped? && r.torn == torn
  {
  }

  /** The file from a boundary on: every second-level block taken is adopted,
      and the data appended as far as there is room. */
  lemma {:induction false} OuterFills(st: Store, ow: Owners, i: nat, k: nat, off: nat, data: seq<byte>, done: nat, torn: bool)
    returns (ow': Owners)
    requires Good(st, ow) && Live(st, i) && Sized(st) && Boundary(st, i, k) && 0 < st.inodes[i].indir2 < |st.blocks|
    requires k <= 256
             && (off % 1024 == 0 || NullWords(st, Takes(st, i, st.blocks[st.inodes[i].indir2], k, 0, off, data, done, torn)))
    requires var d := st.blocks[st.inodes[i].indir2];
             var r := FillOuter(st, i, d, k, 0, off, data, done, torn);
             Adopts(st, ow, Takes(st, i, d, k, 0, off, data, done, torn), (r.st.inodes[i].size - st.inodes[i].size) / 1024 + 1)
    ensures LoopsGrew(st, i, FillOuter(st, i, st.blocks[st.inodes[i].indir2], k, 0, off, data, done, torn), ow', data, done, torn)
    ensures var d := st.blocks[st.inodes[i].indir2];
            TakenStay(FillOuter(st, i, d, k, 0, off, data, done, torn).st, i, k, Takes(st, i, d, k, 0, off, data, done, torn))
    decreases 256 - k
  {
    hide Good, Contents, Target, OthersSame, FillEntries, Adopts, LoopsGrew, Ptr, SetPtr, FirstFree, TakenEntries, Takes,
      Boundary, FillOuter;
    ow' := ow;
    BoundaryNull(st, i, k);
    if k == 256 {
      LastOuter(st, i, off, data, done, torn);
      NothingMore(st, ow, i, k, done, data, done, torn);
      return;
    }
    var q, f := st.inodes[i].indir2, FirstFree(st.blockMap, st.start, |st.blocks|);
    var d := st.blocks[q];
    OuterIs(st, i, k);
    InodePointers(st, i);
    OuterTurn(st, i, d, k, off, data, done, torn);
    if f == |st.blocks| {
      NothingMore(st, ow, i, k, ENOSPC, data, done, torn);
      return;
    }
    var all := FillOuter(st, i, d, k, 0, off, data, done, torn);
    var r := TakenEntries(st, i, st.blocks[st.inodes[i].indir2], k, off, data, done, torn);
    var bs := if r.More? then Takes(r.st, i, SetPtr(d, k, f), k + 1, 0, off, r.data, r.done, r.torn) else [];
    if r.More? { TakesFree(r.st, i, SetPtr(d, k, f), k + 1, 0, off, r.data, r.done, r.torn); }
    ow' := TurnFills(st, ow, i, k, off, data, done, torn, bs, (all.st.inodes[i].size - st.inodes[i].size) / 1024 + 1);
    if r.More? {
      ow' := OuterFills(r.st, ow', i, k + 1, off, r.data, r.done, torn);
      GrewOn(st, ow, i, r.st, all, ow', data, r.st.inodes[i].size - st.inodes[i].size, done, torn);
      OuterStays(r.st, i, all, ow', r.data, r.done, torn, k, f);
    }
    StayJoin(all.st, i, k, f, bs);
  }

  /** The blocks taken are the second-level blocks of the file. */
  ghost predicate TakenStay(f: Store, i: nat, k: nat, bs: seq<nat>) {
    i < |f.inodes| && forall j :: 0 <= j < |bs| ==> T(f, i, Outer(k + j)) == bs[j]
  }

  lemma OuterStays(s: Store, i: nat, r: Loop, ow: Owners, data: seq<byte>, done: nat, torn: bool, k: nat, b: nat)
    requires i < |s.inodes| && LoopsGrew(s, i, r, ow, data, done, torn) && T(s, i, Outer(k)) == b != 0
    ensures i < |r.st.inodes| && T(r.st, i, Outer(k)) == b
  {
    hide Target, Good, OthersSame, Shape, Contents;
  }

  lemma StayJoin(f: Store, i: nat, k: nat, b: nat, bs: seq<nat>)
    requires i < |f.inodes| && T(f, i, Outer(k)) == b && TakenStay(f, i, k + 1, bs)
    ensures TakenStay(f, i, k, [b] + bs)
  {
    hide Target;
    forall j | 0 <= j < |bs| + 1 ensures T(f, i, Outer(k + j)) == ([b] + bs)[j] {
      if j > 0 { assert T(f, i, Outer(k + 1 + (j - 1))) == bs[j - 1]; }
    }
  }

  lemma LastOuter(st: Store, i: nat, off: nat, data: seq<byte>, done: nat, torn: bool)
    requires Sized(st) && i < |st.inodes| && st.inodes[i].indir2 < |st.blocks|
    ensures forall d :: FillOuter(st, i, d, 256, 0, off, data, done, torn) == Ended(st, done, torn)
    ensures forall d :: Takes(st, i, d, 256, 0, off, data, done, torn) == []
  {
  }

  lemma Reached(c: Block, size: nat, n: int, r: Loop, i: nat)
    requires i < |r.st.inodes| && forall e :: 0 <= e < 256 && Ptr(c, e) != 0 ==> e < n
    requires r.More? || n == (r.st.inodes[i].size - size) / 1024 + 1
    ensures WordsReached(c, size, r, i)
  {
    hide Ptr;
  }

  lemma TurnMore(t: Store, ow1: Owners, i: nat, k: nat, f: nat, r: Loop, ow2: Owners, data: seq<byte>, done: nat, torn: bool)
    requires i < |t.inodes| && t.inodes[i].indir2 < |t.blocks| && EntriesGrew(t, ow1, i, k, f, r, ow2, data, done, torn) && r.More?
    requires |r.st.blocks| == |t.blocks|
    ensures i < |r.st.inodes| && r.st.inodes[i].indir2 == t.inodes[i].indir2 < |r.st.blocks|
    ensures r.st.blocks[t.inodes[i].indir2] == t.blocks[t.inodes[i].indir2] && r.torn == torn
    ensures r.st.inodes[i].size == FirstOf(k + 1) * 1024
    ensures 0 <= r.st.inodes[i].size - t.inodes[i].size <= |data| && r.done == done + (r.st.inodes[i].size - t.inodes[i].size)
    ensures r.data == data[r.st.inodes[i].size - t.inodes[i].size..]
  {
    hide InPlace, Advanced;
  }

  lemma TakenFills(st: Store, ow: Owners, i: nat, k: nat, off: nat, data: seq<byte>, done: nat, torn: bool, ow1: Owners)
    returns (ow2: Owners)
    requires Sized(st) && i < |st.inodes| && st.inodes[i].indir2 < |st.blocks| && k < 256 && Boundary(st, i, k)
    requires FirstFree(st.blockMap, st.start, |st.blocks|) < |st.blocks|
    requires off % 1024 == 0 || NoPointers(st.blocks[FirstFree(st.blockMap, st.start, |st.blocks|)])
    requires Adopted(st, ow, i, k, FirstFree(st.blockMap, st.start, |st.blocks|),
                     TakenNow(st, i, st.blocks[st.inodes[i].indir2], k), ow1)
    ensures EntriesGrew(TakenNow(st, i, st.blocks[st.inodes[i].indir2], k), ow1, i, k,
                        FirstFree(st.blockMap, st.start, |st.blocks|),
                        TakenEntries(st, i, st.blocks[st.inodes[i].indir2], k, off, data, done, torn), ow2, data, done, torn)
  {
    hide Good, Contents, Target, OthersSame, FillEntries, Leaked, Named, FirstFree, EntriesGrew, InPlace, Ptr;
    var t, f := TakenNow(st, i, st.blocks[st.inodes[i].indir2], k), FirstFree(st.blockMap, st.start, |st.blocks|);
    forall m: nat | FirstOf(k) <= m < 65798 && T(t, i, Data(m)) != 0
      ensures off % 1024 == if m == FirstOf(k) then t.inodes[i].size % 1024 else 0
    {
      assert T(t, i, Data(m)) == StaleT(st, i, k, f, st.blocks[f], i, Data(m)) by { hide StaleT; }
    }
    assert Filling(t, i, FirstOf(k), off);
    InPlaceStart(t, i, k, f);
    ow2 := EntriesFill(t, ow1, i, k, f, 0, off, data, done, torn);
  }
}
