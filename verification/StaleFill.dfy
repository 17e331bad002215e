/** Appends through second-level index blocks, adopted or clean: what the loops
    with their buffers leave when every block keeps one owner. */
module StaleFill {
  import opened Layout
  import opened State
  import opened FileWrite
  import opened WriteProofs
  import opened WriteTheorems
  import opened WriteSteps
  import opened WriteLoops

  /** Free blocks of b were free in a and are as they were. */
  ghost predicate FreeKept(a: Store, b: Store) {
    && |b.blocks| == |a.blocks| && |b.blockMap| == |a.blockMap| && b.start == a.start
    && forall y :: 0 <= y < |a.blocks| && y < |a.blockMap| && !b.blockMap[y] ==> !a.blockMap[y] && b.blocks[y] == a.blocks[y]
  }

  /** Every logical block below the size is there. */
  ghost predicate Complete(st: Store, i: nat)
    requires i < |st.inodes|
  {
    forall l: nat :: l < 65798 && l * 1024 < st.inodes[i].size ==> T(st, i, Data(l)) != 0
  }

  /** From a to b file i grew by the bytes c, and nothing else changed hands. */
  ghost predicate Advanced(a: Store, owa: Owners, b: Store, owb: Owners, i: nat, c: seq<byte>)
    requires i < |a.inodes|
  {
    && Good(a, owa) && Good(b, owb) && Live(b, i) && OthersSame(a, b, i) && Complete(b, i) && FreeKept(a, b)
    && b.inodes[i].size == a.inodes[i].size + |c| && Contents(b, i) == Contents(a, i) + c
    && Leaked(b, owb) == Leaked(a, owa)
    && (forall m :: T(b, i, m) == T(a, i, m) || (T(a, i, m) == 0 && m.Data? && FirstBlock(m) * 1024 <= b.inodes[i].size))
  }

  lemma AdvancedNot(a: Store, ow: Owners, i: nat)
    requires Good(a, ow) && Live(a, i) && Complete(a, i)
    ensures Advanced(a, ow, a, ow, i, [])
  {
    hide Owned, Contents, Target, Leaked;
    OthersRefl(a, i);
    assert Contents(a, i) + [] == Contents(a, i);
  }

  lemma AdvancedTrans(a: Store, owa: Owners, b: Store, owb: Owners, d: Store, owd: Owners, i: nat, c1: seq<byte>, c2: seq<byte>)
    requires i < |a.inodes| && Advanced(a, owa, b, owb, i, c1) && Advanced(b, owb, d, owd, i, c2)
    ensures Advanced(a, owa, d, owd, i, c1 + c2)
  {
    hide Good, Contents, Target, Leaked, OthersSame;
    OthersSameTrans(a, b, d, i);
    assert Contents(a, i) + c1 + c2 == Contents(a, i) + (c1 + c2);
    forall m ensures T(d, i, m) == T(a, i, m) || (T(a, i, m) == 0 && m.Data? && FirstBlock(m) * 1024 <= d.inodes[i].size) {
      assert T(b, i, m) == T(a, i, m) || (T(a, i, m) == 0 && m.Data? && FirstBlock(m) * 1024 <= b.inodes[i].size);
    }
  }

  /** Ready to go on at logical block l, the end of the file, with variable
      offset off. */
  ghost predicate Filling(st: Store, i: nat, l: nat, off: nat)
    requires i < |st.inodes|
  {
    && Complete(st, i) && l == st.inodes[i].size / 1024
    && (forall m: nat :: l <= m < 65798 && T(st, i, Data(m)) != 0 ==> off % 1024 == if m == l then st.inodes[i].size % 1024 else 0)
  }

  lemma FullContents(a: Store, b: Store, i: nat)
    requires Live(a, i) && Extends(a, b, i) && Complete(a, i) && a.inodes[i].size <= MAX_BYTES
    ensures Contents(b, i) == Contents(a, i)
  {
    forall x: nat | x < a.inodes[i].size ensures ByteAt(b, i, x) == ByteAt(a, i, x) {
      assert T(a, i, Data(x / 1024)) != 0;
    }
    SameBytes(a, b, i);
  }

  /** What the iteration does to the file itself. */
  lemma StepFillsFile(st: Store, ow: Owners, i: nat, k: nat, b: nat, e: nat, off: nat, data: seq<byte>)
    requires Good(st, ow) && InPlace(st, i, k, b) && e < 256 && Filling(st, i, FirstOf(k) + e, off)
    ensures var l, r := FirstOf(k) + e, WriteStep(st, i, FirstOf(k) + e, off, data);
            r.Wrote? ==>
              && r.tb == st.inodes[i].size % 1024 && r.st.inodes[i].size == st.inodes[i].size + r.k
              && Contents(r.st, i) == Contents(st, i) + data[..r.k] && T(r.st, i, Data(l)) != 0
              && (T(st, i, Data(l)) != 0 ==> T(r.st, i, Data(l)) == T(st, i, Data(l)))
              && forall m :: m != Data(l) ==> T(r.st, i, m) == T(st, i, m)
  {
    hide Target, Owned, Splice, SetPtr, Ptr, FirstFree, Through, StepClean, Leaked, Contents, GrowIndex, Grow, PutBytes, Sound,
      Extends;
    var l := FirstOf(k) + e;
    InPlaceThrough(st, i, k, b, e);
    GrowIndexDone(st, i, l, Outer(k), e, b);
    InPlaceParent(st, i, k, b, e);
    var ow' := GrowOk(st, ow, i, Data(l));
    var h := Grow(st, i, Data(l));
    if h.Ok? {
      var tb := if T(st, i, Data(l)) == 0 then 0 else off % 1024;
      var c := data[..Min(1024 - tb, |data|)];
      assert l * 1024 < st.inodes[i].size ==> T(st, i, Data(l)) != 0;
      FullContents(st, h.st, i);
      ExtendsInode(st, h.st, i);
      forall m: nat | m < l ensures T(h.st, i, Data(m)) != 0 { assert T(st, i, Data(m)) != 0; }
      PutAppends(h.st, ow', i, l, tb, c);
      PutOk(h.st, ow', i, l, tb, c);
      ContentsSize(h.st, PutBytes(h.st, i, l, tb, c), i, c);
      ExtendsCell(st, h.st, i, Data(l));
    }
  }

  lemma ExtendsCell(a: Store, b: Store, i: nat, m: Loc)
    requires Live(a, i) && Extends(a, b, i)
    ensures |b.inodes| == |a.inodes| && (T(a, i, m) != 0 ==> T(b, i, m) == T(a, i, m))
  {
  }

  lemma ExtendsInode(a: Store, b: Store, i: nat)
    requires i < |a.inodes| && Extends(a, b, i)
    ensures |b.inodes| == |a.inodes| && b.inodes[i].size == a.inodes[i].size && (Live(a, i) ==> Live(b, i))
  {
  }

  lemma InPlaceParent(st: Store, i: nat, k: nat, b: nat, e: nat)
    requires InPlace(st, i, k, b) && e < 256
    ensures CellOf(Data(FirstOf(k) + e)) == InBlock(Outer(k), e) && T(st, i, Outer(k)) != 0
  {
    hide Sound, Target;
  }

  lemma StepFreeKept(st: Store, i: nat, k: nat, b: nat, e: nat, off: nat, data: seq<byte>)
    requires InPlace(st, i, k, b) && e < 256
    ensures FreeKept(st, WriteStep(st, i, FirstOf(k) + e, off, data).st)
  {
    hide Target, Splice, SetPtr, Ptr, Through, StepClean, WriteStep, Sound, FirstFree;
    var l := FirstOf(k) + e;
    InPlaceThrough(st, i, k, b, e);
    IndexedStepIs(st, i, l, Outer(k), e, b, off, data);
    InUse(st, i, Outer(k));
    if T(st, i, Data(l)) != 0 { InUse(st, i, Data(l)); }
  }

  /** One iteration at the end of the file. */
  lemma StepFills(st: Store, ow: Owners, i: nat, k: nat, b: nat, e: nat, off: nat, data: seq<byte>) returns (ow': Owners)
    requires Good(st, ow) && InPlace(st, i, k, b) && e < 256 && Filling(st, i, FirstOf(k) + e, off)
    ensures var r := WriteStep(st, i, FirstOf(k) + e, off, data);
            && (r.Stop? ==> r.st == st)
            && (r.Wrote? ==> && Advanced(st, ow, r.st, ow', i, data[..r.k]) && r.st.inodes[i].size <= (FirstOf(k) + e + 1) * 1024
                             && (r.k < |data| ==> && Filling(r.st, i, FirstOf(k) + e + 1, off)
                                                  && r.st.inodes[i].size == (FirstOf(k) + e + 1) * 1024))
  {
    hide Target, Owned, Splice, SetPtr, Ptr, FirstFree, Through, StepClean, OthersSame, Leaked, Contents, GrowIndex, Grow,
      PutBytes, Sound;
    var l := FirstOf(k) + e;
    InPlaceThrough(st, i, k, b, e);
    GrowIndexDone(st, i, l, Outer(k), e, b);
    ow' := ow;
    var r := WriteStep(st, i, l, off, data);
    IndexedStepIs(st, i, l, Outer(k), e, b, off, data);
    if r.Wrote? {
      ow' := StepOwned(st, ow, i, l, off, data);
      StepFillsFile(st, ow, i, k, b, e, off, data);
      StepFreeKept(st, i, k, b, e, off, data);
      assert Complete(r.st, i) by {
        forall m: nat | m < 65798 && m * 1024 < r.st.inodes[i].size ensures T(r.st, i, Data(m)) != 0 {
          assert m <= l;
          if m < l { assert T(st, i, Data(m)) != 0; }
        }
      }
    }
  }

  /** What the inner loop leaves. */
  ghost predicate EntriesGrew(st: Store, ow: Owners, i: nat, k: nat, b: nat, r: Loop, ow': Owners, data: seq<byte>, done: nat,
                              torn: bool)
    requires i < |st.inodes| && st.inodes[i].indir2 < |st.blocks|
  {
    && !r.Stopped? && r.torn == torn && i < |r.st.inodes|
    && 0 <= r.st.inodes[i].size - st.inodes[i].size <= |data| && r.st.inodes[i].size <= FirstOf(k + 1) * 1024
    && (var n := r.st.inodes[i].size - st.inodes[i].size;
        && Advanced(st, ow, r.st, ow', i, data[..n])
        && r.st.inodes[i].indir2 == st.inodes[i].indir2 && r.st.blocks[st.inodes[i].indir2] == st.blocks[st.inodes[i].indir2]
        && (r.Ended? ==> r.rc == ENOSPC || (r.rc == done + n && n == |data|))
        && (r.More? ==> && n < |data| && r.data == data[n..] && r.done == done + n && InPlace(r.st, i, k, b)
                        && r.st.inodes[i].size == FirstOf(k + 1) * 1024))
  }

  lemma AdvancedFacts(a: Store, owa: Owners, b: Store, owb: Owners, i: nat, c: seq<byte>)
    requires i < |a.inodes| && Advanced(a, owa, b, owb, i, c)
    ensures Good(a, owa) && Good(b, owb) && Live(b, i) && i < |b.inodes| && Complete(b, i)
             && b.inodes[i].size == a.inodes[i].size + |c|
  {
  }

  lemma FillingFull(st: Store, i: nat, l: nat, off: nat)
    requires i < |st.inodes|
    ensures Filling(st, i, l, off) ==> Complete(st, i) && l == st.inodes[i].size / 1024
  {
  }

  lemma InPlaceStart(st: Store, i: nat, k: nat, b: nat)
    requires InPlace(st, i, k, b)
    ensures Live(st, i) && Sized(st) && k < 256 && b < |st.blocks| && st.inodes[i].indir2 < |st.blocks|
  {
    InPlaceThrough(st, i, k, b, 0);
  }

  lemma EntriesOn(st: Store, ow: Owners, i: nat, k: nat, b: nat, s: Store, ow1: Owners, n: nat, r: Loop, ow': Owners,
                  data: seq<byte>, done: nat, torn: bool)
    requires i < |st.inodes| && st.inodes[i].indir2 < |st.blocks| && n < |data| && i < |s.inodes|
    requires Advanced(st, ow, s, ow1, i, data[..n])
    requires s.inodes[i].indir2 == st.inodes[i].indir2 < |s.blocks|
             && s.blocks[st.inodes[i].indir2] == st.blocks[st.inodes[i].indir2]
    requires EntriesGrew(s, ow1, i, k, b, r, ow', data[n..], done + n, torn)
    ensures EntriesGrew(st, ow, i, k, b, r, ow', data, done, torn)
  {
    hide InPlace;
    assert s.inodes[i].size == st.inodes[i].size + n;
    var m := r.st.inodes[i].size - s.inodes[i].size;
    hide Advanced;
    assert data[..n] + data[n..][..m] == data[..n + m];
    AdvancedTrans(st, ow, s, ow1, r.st, ow', i, data[..n], data[n..][..m]);
    if r.More? { assert data[n..][m..] == data[n + m..]; }
  }

  lemma EntriesNone(st: Store, ow: Owners, i: nat, k: nat, b: nat, data: seq<byte>, done: nat, torn: bool)
    requires Good(st, ow) && Live(st, i) && Complete(st, i) && st.inodes[i].indir2 < |st.blocks|
    requires st.inodes[i].size <= FirstOf(k + 1) * 1024
    ensures EntriesGrew(st, ow, i, k, b, Ended(st, ENOSPC, torn), ow, data, done, torn)
    ensures InPlace(st, i, k, b) && st.inodes[i].size == FirstOf(k + 1) * 1024 && data != [] ==>
              EntriesGrew(st, ow, i, k, b, More(st, data, done, torn), ow, data, done, torn)
  {
    hide Good, Advanced, Complete, InPlace;
    AdvancedNot(st, ow, i);
    assert data[..0] == [] && data[0..] == data;
  }

  lemma EntriesLast(st: Store, ow: Owners, i: nat, k: nat, b: nat, s: Store, ow': Owners, data: seq<byte>, done: nat, torn: bool)
    requires i < |st.inodes| && st.inodes[i].indir2 < |st.blocks| && Advanced(st, ow, s, ow', i, data)
    requires s.inodes[i].indir2 == st.inodes[i].indir2 < |s.blocks|
             && s.blocks[st.inodes[i].indir2] == st.blocks[st.inodes[i].indir2]
    requires s.inodes[i].size <= FirstOf(k + 1) * 1024
    ensures EntriesGrew(st, ow, i, k, b, Ended(s, done + |data|, torn), ow', data, done, torn)
  {
    AdvancedFacts(st, ow, s, ow', i, data);
    hide Advanced;
    assert data[..|data|] == data;
  }

  lemma {:induction false} EntriesFill(st: Store, ow: Owners, i: nat, k: nat, b: nat, e: nat, off: nat, data: seq<byte>,
                                       done: nat, torn: bool)
    returns (ow': Owners)
    requires Good(st, ow) && InPlace(st, i, k, b) && e <= 256
    requires if e < 256 then Filling(st, i, FirstOf(k) + e, off)
             else Complete(st, i) && st.inodes[i].size == FirstOf(k + 1) * 1024 && data != []
    ensures st.inodes[i].indir2 < |st.blocks|
    ensures EntriesGrew(st, ow, i, k, b, FillEntries(st, i, b, st.blocks[b], e, off, data, done, torn), ow', data, done, torn)
    decreases 256 - e
  {
    hide WriteStep, Sound, Target, FillEntries, Advanced, Good, Filling, InPlace, Complete, EntriesGrew;
    ow' := ow;
    InPlaceStart(st, i, k, b);
    FillingFull(st, i, FirstOf(k) + e, off);
    EntriesNone(st, ow, i, k, b, data, done, torn);
    if e < 256 {
      EntryStep(st, i, k, b, e, off, data, done, torn);
      EntryKeeps(st, i, k, b, e, off, data);
      ow' := StepFills(st, ow, i, k, b, e, off, data);
      var s := WriteStep(st, i, FirstOf(k) + e, off, data);
      if s.Wrote? {
        AdvancedFacts(st, ow, s.st, ow', i, data[..s.k]);
        if s.k < |data| {
          var ow1 := ow';
          ow' := EntriesFill(s.st, ow1, i, k, b, e + 1, off, data[s.k..], done + s.k, torn);
          var r := FillEntries(s.st, i, b, s.st.blocks[b], e + 1, off, data[s.k..], done + s.k, torn);
          EntriesOn(st, ow, i, k, b, s.st, ow1, s.k, r, ow', data, done, torn);
        } else {
          assert data[..s.k] == data;
          EntriesLast(st, ow, i, k, b, s.st, ow', data, done, torn);
        }
      } else {
        ow' := ow;
      }
    } else {
      LoopsOver(st, i, b, st.blocks[b], off, data, done, torn);
    }
  }
}
