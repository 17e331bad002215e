/** The other direction: an append that took stale index blocks and left the file
    well formed can only have adopted leaked blocks. */
module StaleNeeds {
  import opened Layout
  import opened State
  import opened AttachProofs
  import opened FileWrite
  import opened WriteProofs
  import opened WriteLoops
  import opened StaleIndex
  import opened StaleAppends

  // ---- the inner loop, as the final owners see it ----

  /** Every non-null entry of c is held as entry of second-level block k. */
  ghost predicate HoldsEntries(ow: Owners, i: nat, k: nat, c: Block) {
    forall x :: 0 <= x < 256 && Ptr(c, x) != 0 ==> Ptr(c, x) in ow && ow[Ptr(c, x)] == (i, Data(FirstOf(k) + x))
  }

  ghost predicate EntriesStay(c: Block, c': Block) { forall x :: 0 <= x < 256 && Ptr(c, x) != 0 ==> Ptr(c', x) == Ptr(c, x) }

  /** What changed between a and b, other than index block p, is held by entries
      from e on; what was newly marked, by entries that were null in c. */
  ghost predicate Between(a: Store, b: Store, ow: Owners, i: nat, k: nat, p: nat, c: Block, e: nat) {
    && b.start == a.start && |b.blocks| == |a.blocks| && |b.blockMap| == |a.blockMap|
    && (forall y :: 0 <= y < |a.blocks| && y != p && b.blocks[y] != a.blocks[y] ==>
          y in ow && ow[y].0 == i && ow[y].1.Data? && FirstOf(k) + e <= ow[y].1.l < FirstOf(k) + 256)
    && (forall y :: 0 <= y < |a.blockMap| && b.blockMap[y] != a.blockMap[y] ==>
          y in ow && ow[y].0 == i && ow[y].1.Data? && FirstOf(k) + e <= ow[y].1.l < FirstOf(k) + 256
          && Ptr(c, ow[y].1.l - FirstOf(k)) == 0)
  }

  /** From a to b entry e of index block q, buffers c and c', came to p. */
  ghost predicate EntryChange(a: Store, b: Store, q: nat, c: Block, c': Block, e: nat, p: nat)
    requires e < 256
  {
    && 0 < p < |a.blocks| == |b.blocks| && Ptr(c', e) == p && (Ptr(c, e) != 0 ==> p == Ptr(c, e))
    && (forall y :: 0 <= y < 256 && y != e ==> Ptr(c', y) == Ptr(c, y))
    && b.start == a.start && |b.blockMap| == |a.blockMap| && p < |a.blockMap|
    && (forall y :: 0 <= y < |a.blocks| && y != q && y != p ==> b.blocks[y] == a.blocks[y])
    && b.blockMap == (if Ptr(c, e) == 0 then a.blockMap[p := true] else a.blockMap) && (Ptr(c, e) == 0 ==> !a.blockMap[p])
  }

  lemma FillOneFields(st: Store, i: nat, b: nat, c: Block, e: nat, off: nat, data: seq<byte>) returns (p: nat)
    requires Sized(st) && i < |st.inodes| && b < |st.blocks| < 0x20_0000 && e < 256 && 0 < st.start && st.blocks[b] == c
    requires FillOne(st, i, b, c, e, off, data).Entry?
    ensures var x := FillOne(st, i, b, c, e, off, data); EntryChange(st, x.st, b, c, x.c, e, p) && x.st.blocks[b] == x.c
  {
    hide FirstFree, Ptr, SetPtr, Splice;
    var f := FirstFree(st.blockMap, st.start, |st.blocks|);
    p := if Ptr(c, e) == 0 then f else Ptr(c, e);
    PtrSetPtr(c, e, f);
    FreeIsFree(st.blockMap, st.start, |st.blocks|);
  }

  lemma BetweenStep(st: Store, s: Store, r: Store, ow: Owners, i: nat, k: nat, b: nat, c: Block, c': Block, e: nat, p: nat)
    requires e < 256 && EntryChange(st, s, b, c, c', e, p) && Between(s, r, ow, i, k, b, c', e + 1)
    requires p in ow && ow[p] == (i, Data(FirstOf(k) + e))
    ensures Between(st, r, ow, i, k, b, c, e)
  {
    hide Ptr;
    forall y | 0 <= y < |st.blocks| && y != b && r.blocks[y] != st.blocks[y]
      ensures y in ow && ow[y].0 == i && ow[y].1.Data? && FirstOf(k) + e <= ow[y].1.l < FirstOf(k) + 256
    {
      if y != p { assert s.blocks[y] == st.blocks[y]; }
    }
    forall y | 0 <= y < |st.blockMap| && r.blockMap[y] != st.blockMap[y]
      ensures y in ow && ow[y].0 == i && ow[y].1.Data? && FirstOf(k) + e <= ow[y].1.l < FirstOf(k) + 256
      ensures Ptr(c, ow[y].1.l - FirstOf(k)) == 0
    {
      if y != p || Ptr(c, e) != 0 { assert s.blockMap[y] == st.blockMap[y]; }
    }
  }

  lemma EntriesStayOn(st: Store, s: Store, b: nat, c: Block, c': Block, e: nat, p: nat, d: Block)
    requires e < 256 && EntryChange(st, s, b, c, c', e, p) && EntriesStay(c', d)
    ensures EntriesStay(c, d) && Ptr(d, e) == p != 0
  {
    hide Ptr;
  }

  lemma {:induction false} EntriesBetween(st: Store, i: nat, k: nat, b: nat, c: Block, e: nat, off: nat, data: seq<byte>, done: nat,
                                          torn: bool, ow: Owners)
    requires Sized(st) && i < |st.inodes| && b < |st.blocks| < 0x20_0000 && e <= 256 && 0 < st.start && st.blocks[b] == c
    requires !FillEntries(st, i, b, c, e, off, data, done, torn).Stopped?
    requires HoldsEntries(ow, i, k, FillEntries(st, i, b, c, e, off, data, done, torn).st.blocks[b])
    ensures var r := FillEntries(st, i, b, c, e, off, data, done, torn);
            Between(st, r.st, ow, i, k, b, c, e) && EntriesStay(c, r.st.blocks[b])
    decreases 256 - e
  {
    hide FillOne, Ptr, EntryChange, Between, EntriesStay;
    var r := FillEntries(st, i, b, c, e, off, data, done, torn);
    if e < 256 && FillOne(st, i, b, c, e, off, data).Entry? {
      var x := FillOne(st, i, b, c, e, off, data);
      var p := FillOneFields(st, i, b, c, e, off, data);
      FillOneSizes(st, x.st, b, c, x.c, e, p);
      if x.k < |data| {
        EntriesBetween(x.st, i, k, b, x.c, e + 1, off, data[x.k..], done + x.k, torn || x.over, ow);
      } else {
        BetweenNone(x.st, ow, i, k, b, x.c, e + 1);
      }
      EntriesStayOn(st, x.st, b, c, x.c, e, p, r.st.blocks[b]);
      BetweenStep(st, x.st, r.st, ow, i, k, b, c, x.c, e, p);
    } else {
      BetweenNone(st, ow, i, k, b, c, e);
    }
  }

  lemma FillOneSizes(a: Store, b: Store, q: nat, c: Block, c': Block, e: nat, p: nat)
    requires e < 256 && EntryChange(a, b, q, c, c', e, p)
    ensures |b.blocks| == |a.blocks| && b.start == a.start
  {
  }

  lemma BetweenNone(st: Store, ow: Owners, i: nat, k: nat, b: nat, c: Block, e: nat)
    ensures Between(st, st, ow, i, k, b, c, e) && EntriesStay(c, c)
  {
  }

  // ---- the outer loop ----

  /** A pointer of a logical block from l on, or of a second-level block for these. */
  predicate From(m: Loc, l: nat) { (m.Data? && m.l >= l) || (m.Outer? && FirstOf(m.k) >= l) }

  /** What changed between a and b, other than block q, is held by such pointers. */
  ghost predicate Later(a: Store, b: Store, ow: Owners, i: nat, q: nat, l: nat) {
    && b.start == a.start && |b.blocks| == |a.blocks| && |b.blockMap| == |a.blockMap|
    && (forall y :: 0 <= y < |a.blocks| && y != q && b.blocks[y] != a.blocks[y] ==> y in ow && ow[y].0 == i && From(ow[y].1, l))
    && (forall y :: 0 <= y < |a.blockMap| && b.blockMap[y] != a.blockMap[y] ==> y in ow && ow[y].0 == i && From(ow[y].1, l))
  }

  /** The blocks taken are in place, with everything their entries name. */
  ghost predicate TakenHeld(f: Store, ow: Owners, i: nat, k: nat, bs: seq<nat>) {
    forall j :: 0 <= j < |bs| ==>
      bs[j] < |f.blocks| && bs[j] in ow && ow[bs[j]] == (i, Outer(k + j)) && HoldsEntries(ow, i, k + j, f.blocks[bs[j]])
  }

  /** Their old words are held by the pointers they became, and were marked. */
  ghost predicate WordsHeld(st: Store, ow: Owners, i: nat, k: nat, bs: seq<nat>) {
    forall x :: 0 <= x < 256 * |bs| && Word(st, bs, x) != 0 ==>
      var w := Word(st, bs, x);
      w in ow && ow[w] == (i, Data(FirstOf(k) + x)) && w < |st.blockMap| && st.blockMap[w]
  }

  ghost predicate AllMarked(f: Store, ow: Owners) { forall y :: y in ow ==> y < |f.blockMap| && f.blockMap[y] }

  /** The setting of one turn of the outer loop that takes a block. */
  ghost predicate Turning(st: Store, i: nat, k: nat, q: nat, ow: Owners) {
    && Sized(st) && i < |st.inodes| && 0 < st.inodes[i].indir2 == q < |st.blocks| < 0x20_0000 && k < 256 && 0 < st.start
    && st.blockMap[q] && FirstFree(st.blockMap, st.start, |st.blocks|) < |st.blocks| && q in ow && ow[q] == (i, Ind2)
  }

  /** The inner loop of the turn, and the buffer of the double-indirect block. */
  lemma TurnBetween(st: Store, i: nat, d: Block, k: nat, off: nat, data: seq<byte>, done: nat, torn: bool, q: nat, ow: Owners,
                    f: Store)
    requires Turning(st, i, k, q, ow) && !TakenEntries(st, i, d, k, off, data, done, torn).Stopped?
    requires TakenHeld(f, ow, i, k, [FirstFree(st.blockMap, st.start, |st.blocks|)])
    requires var r := TakenEntries(st, i, d, k, off, data, done, torn);
             f == r.st || Later(r.st, f, ow, i, q, FirstOf(k + 1))
    ensures var b, t := FirstFree(st.blockMap, st.start, |st.blocks|), TakenNow(st, i, d, k);
            var r := TakenEntries(st, i, d, k, off, data, done, torn);
            && b != q && t.blocks[b] == st.blocks[b] && Between(t, r.st, ow, i, k, b, st.blocks[b], 0)
            && EntriesStay(st.blocks[b], f.blocks[b]) && r.st.blocks[q] == t.blocks[q]
  {
    hide FillEntries, FirstFree, Ptr, SetPtr, EntriesStay, HoldsEntries;
    var b, t := FirstFree(st.blockMap, st.start, |st.blocks|), TakenNow(st, i, d, k);
    var r := TakenEntries(st, i, d, k, off, data, done, torn);
    FreeIsFree(st.blockMap, st.start, |st.blocks|);
    assert [b][0] == b;
    assert f.blocks[b] == r.st.blocks[b];
    EntriesBetween(t, i, k, b, t.blocks[b], 0, off, data, done, torn, ow);
  }

  /** ... so what changed in the turn is held by later pointers in the end, */
  lemma TurnLater(st: Store, i: nat, d: Block, k: nat, q: nat, ow: Owners, b: nat, t: Store, r: Store, f: Store)
    requires Turning(st, i, k, q, ow) && b == FirstFree(st.blockMap, st.start, |st.blocks|) && t == TakenNow(st, i, d, k)
    requires Between(t, r, ow, i, k, b, st.blocks[b], 0) && b in ow && ow[b] == (i, Outer(k))
    requires f == r || Later(r, f, ow, i, q, FirstOf(k + 1))
    ensures Later(st, f, ow, i, q, FirstOf(k))
  {
    hide FirstFree, Ptr, SetPtr;
  }

  /** ... the old words of the block taken are held by their entries, */
  lemma TurnWords(st: Store, i: nat, d: Block, k: nat, q: nat, ow: Owners, b: nat, t: Store, r: Store, f: Store)
    requires Turning(st, i, k, q, ow) && b == FirstFree(st.blockMap, st.start, |st.blocks|) && t == TakenNow(st, i, d, k)
    requires Between(t, r, ow, i, k, b, st.blocks[b], 0) && b in ow && ow[b] == (i, Outer(k)) && AllMarked(f, ow)
    requires f == r || Later(r, f, ow, i, q, FirstOf(k + 1))
    requires EntriesStay(st.blocks[b], f.blocks[b]) && b < |f.blocks| && HoldsEntries(ow, i, k, f.blocks[b])
    ensures WordsHeld(st, ow, i, k, [b])
  {
    hide FirstFree, Ptr, SetPtr;
    forall x: nat | x < 256 && Word(st, [b], x) != 0
      ensures var w := Word(st, [b], x); w in ow && ow[w] == (i, Data(FirstOf(k) + x)) && w < |st.blockMap| && st.blockMap[w]
    {
      var w := Word(st, [b], x);
      assert w == Ptr(st.blocks[b], x) == Ptr(f.blocks[b], x);
      assert f.blockMap[w];
      assert r.blockMap[w];
      assert t.blockMap[w];
    }
  }

  /** ... and so are those of the blocks taken later, as they were before the turn. */
  lemma RestWords(st: Store, i: nat, d: Block, k: nat, q: nat, ow: Owners, b: nat, t: Store, r: Store, bs: seq<nat>, f: Store)
    requires Turning(st, i, k, q, ow) && b == FirstFree(st.blockMap, st.start, |st.blocks|) && t == TakenNow(st, i, d, k)
    requires Between(t, r, ow, i, k, b, st.blocks[b], 0) && b in ow && ow[b] == (i, Outer(k))
    requires WordsHeld(r, ow, i, k + 1, bs) && TakenHeld(f, ow, i, k + 1, bs) && |f.blocks| == |st.blocks|
    requires forall x :: x in bs ==> 0 < x < |r.blocks| && !r.blockMap[x]
    ensures forall x :: 0 <= x < 256 * |bs| && Word(st, bs, x) != 0 ==>
              var w := Word(st, bs, x);
              w in ow && ow[w] == (i, Data(FirstOf(k + 1) + x)) && w < |st.blockMap| && st.blockMap[w]
  {
    hide FirstFree, Ptr, SetPtr, HoldsEntries;
    forall x: nat | x < 256 * |bs| && Word(st, bs, x) != 0
      ensures var w := Word(st, bs, x);
              w in ow && ow[w] == (i, Data(FirstOf(k + 1) + x)) && w < |st.blockMap| && st.blockMap[w]
    {
      var y := bs[x / 256];
      assert y in bs && ow[y].1.Outer?;
      assert y != q && y != b;
      assert r.blocks[y] == t.blocks[y] == st.blocks[y];
      assert Word(st, bs, x) == Word(r, bs, x);
      var w := Word(st, bs, x);
      assert t.blockMap[w];
    }
  }

  /** The setting of the outer loop: the double-indirect block is marked and held,
      and its buffer has no second-level block from k on. */
  ghost predicate Opening(st: Store, i: nat, d: Block, k: nat, q: nat, ow: Owners) {
    && Sized(st) && i < |st.inodes| && 0 < st.inodes[i].indir2 == q < |st.blocks| < 0x20_0000 && k <= 256 && 0 < st.start
    && st.blockMap[q] && q in ow && ow[q] == (i, Ind2) && (forall x :: k <= x < 256 ==> Ptr(d, x) == 0)
  }

  /** Seen from the end, all that the outer loop changed is held by pointers it
      made, and the old words of the blocks it took are among them. */
  lemma {:induction false} OuterLater(st: Store, i: nat, d: Block, k: nat, off: nat, data: seq<byte>, done: nat, torn: bool, q: nat,
                                      ow: Owners)
    requires Opening(st, i, d, k, q, ow) && !FillOuter(st, i, d, k, 0, off, data, done, torn).Stopped?
    requires var f := FillOuter(st, i, d, k, 0, off, data, done, torn).st;
             TakenHeld(f, ow, i, k, Takes(st, i, d, k, 0, off, data, done, torn)) && AllMarked(f, ow)
    ensures var f, bs := FillOuter(st, i, d, k, 0, off, data, done, torn).st, Takes(st, i, d, k, 0, off, data, done, torn);
            && Later(st, f, ow, i, q, FirstOf(k)) && WordsHeld(st, ow, i, k, bs)
            && (st.blocks[q] == d || bs != [] ==> EntriesStay(d, f.blocks[q]))
    decreases 256 - k
  {
    hide FillEntries, FillOuter, Takes, Ptr, SetPtr, FirstFree, TakenEntries, EntriesStay, HoldsEntries, Between, Later,
      WordsHeld, AllMarked, TakenHeld;
    var b := FirstFree(st.blockMap, st.start, |st.blocks|);
    LaterNone(st, ow, i, k, q, d);
    if k == 256 {
      LastOuter(st, i, off, data, done, torn);
      return;
    }
    OuterTurn(st, i, d, k, off, data, done, torn);
    if b < |st.blocks| {
      var r, t := TakenEntries(st, i, d, k, off, data, done, torn), TakenNow(st, i, d, k);
      var f, d' := FillOuter(st, i, d, k, 0, off, data, done, torn).st, SetPtr(d, k, b);
      var bs1 := if r.More? then Takes(r.st, i, d', k + 1, 0, off, r.data, r.done, r.torn) else [];
      HeldSplit(f, ow, i, k, b, bs1);
      NextOpening(st, i, d, k, off, data, done, torn, q, ow);
      if r.More? { OuterLater(r.st, i, d', k + 1, off, r.data, r.done, r.torn, q, ow); }
      TurnBetween(st, i, d, k, off, data, done, torn, q, ow, f);
      TurnLater(st, i, d, k, q, ow, b, t, r.st, f);
      TurnWords(st, i, d, k, q, ow, b, t, r.st, f);
      if r.More? {
        TakesFree(r.st, i, d', k + 1, 0, off, r.data, r.done, r.torn);
        RestWords(st, i, d, k, q, ow, b, t, r.st, bs1, f);
      }
      JoinWords(st, ow, i, k, b, bs1);
      LaterNone(st, ow, i, k, q, d');
      assert r.st.blocks[q] == d';
      EntryKept(d, d', k, b, f.blocks[q]);
    }
  }

  lemma LaterNone(st: Store, ow: Owners, i: nat, k: nat, q: nat, d: Block)
    ensures Later(st, st, ow, i, q, FirstOf(k)) && WordsHeld(st, ow, i, k, []) && EntriesStay(d, d)
  {
  }

  lemma HeldSplit(f: Store, ow: Owners, i: nat, k: nat, b: nat, bs: seq<nat>)
    requires TakenHeld(f, ow, i, k, [b] + bs)
    ensures TakenHeld(f, ow, i, k, [b]) && TakenHeld(f, ow, i, k + 1, bs)
    ensures b < |f.blocks| && b in ow && ow[b] == (i, Outer(k)) && HoldsEntries(ow, i, k, f.blocks[b])
  {
    hide HoldsEntries;
    assert ([b] + bs)[0] == b;
    forall j | 0 <= j < |bs|
      ensures bs[j] < |f.blocks| && bs[j] in ow && ow[bs[j]] == (i, Outer(k + 1 + j))
               && HoldsEntries(ow, i, k + 1 + j, f.blocks[bs[j]])
    {
      assert ([b] + bs)[j + 1] == bs[j];
    }
  }

  lemma NextOpening(st: Store, i: nat, d: Block, k: nat, off: nat, data: seq<byte>, done: nat, torn: bool, q: nat, ow: Owners)
    requires Opening(st, i, d, k, q, ow) && k < 256 && FirstFree(st.blockMap, st.start, |st.blocks|) < |st.blocks|
    ensures Turning(st, i, k, q, ow)
    ensures Opening(TakenEntries(st, i, d, k, off, data, done, torn).st, i,
                    SetPtr(d, k, FirstFree(st.blockMap, st.start, |st.blocks|)), k + 1, q, ow)
  {
    hide FillEntries, FirstFree, Ptr, SetPtr;
    var b, t := FirstFree(st.blockMap, st.start, |st.blocks|), TakenNow(st, i, d, k);
    EntriesMarks(t, i, b, t.blocks[b], 0, off, data, done, torn);
    PtrSetPtr(d, k, b);
  }

  lemma JoinWords(st: Store, ow: Owners, i: nat, k: nat, b: nat, bs: seq<nat>)
    requires WordsHeld(st, ow, i, k, [b])
    requires forall x :: 0 <= x < 256 * |bs| && Word(st, bs, x) != 0 ==>
               var w := Word(st, bs, x);
               w in ow && ow[w] == (i, Data(FirstOf(k + 1) + x)) && w < |st.blockMap| && st.blockMap[w]
    ensures WordsHeld(st, ow, i, k, [b] + bs)
  {
    hide Ptr;
    var all := [b] + bs;
    forall x: nat | x < 256 * |all| && Word(st, all, x) != 0
      ensures var w := Word(st, all, x); w in ow && ow[w] == (i, Data(FirstOf(k) + x)) && w < |st.blockMap| && st.blockMap[w]
    {
      if x < 256 {
        assert Word(st, all, x) == Word(st, [b], x);
      } else {
        assert all[x / 256] == bs[(x - 256) / 256];
        assert Word(st, all, x) == Word(st, bs, x - 256);
      }
    }
  }

  lemma EntryKept(d: Block, d': Block, k: nat, b: nat, c: Block)
    requires k < 256 && b < 0x1_0000_0000 && d' == SetPtr(d, k, b) && Ptr(d, k) == 0
    ensures EntriesStay(d', c) ==> EntriesStay(d, c)
  {
    hide Ptr, SetPtr;
    PtrSetPtr(d, k, b);
  }

  // ---- from the final store back to the first ----

  /** The file is well formed and owned, has the new bytes at its end, and the
      blocks bs are its second-level blocks from k on. */
  ghost predicate Appends(st: Store, f: Store, i: nat, k: nat, bs: seq<nat>, data: seq<byte>) {
    && i < |st.inodes| && i < |f.inodes|
    && WellOwned(f, i) && Contents(f, i) == Contents(st, i) + data
    && TakenStay(f, i, k, bs)
  }

  /** Entries of an index block in use, which the end finds in use too, stay. */
  lemma IndexStays(st: Store, f: Store, ow': Owners, i: nat, k: nat, q: nat, j: nat, parent: Loc, y: nat, e: nat)
    requires i < |st.inodes| && Boundary(st, i, k) && Later(st, f, ow', i, q, FirstOf(k)) && q < |st.blocks|
    requires EntriesStay(st.blocks[q], f.blocks[q]) && j < |st.inodes| && T(st, j, parent) == y != 0 && !parent.Data? && e < 256
    requires y < |st.blocks| && y in ow' && ow'[y] == (j, parent) && Ptr(st.blocks[y], e) != 0
    ensures Ptr(f.blocks[y], e) == Ptr(st.blocks[y], e)
  {
    hide Target, Ptr;
  }

  /** Pointers in use are still there in the end. */
  lemma {:induction false} PointerStays(st: Store, ow: Owners, f: Store, ow': Owners, i: nat, k: nat, q: nat, n: int, j: nat,
                                        m: Loc)
    requires Good(st, ow) && Live(st, i) && Boundary(st, i, k) && q == st.inodes[i].indir2 && OnlySize(st, f, i, n) && Good(f, ow')
    requires Later(st, f, ow', i, q, FirstOf(k)) && q < |st.blocks| && EntriesStay(st.blocks[q], f.blocks[q])
    requires Live(st, j) && T(st, j, m) != 0
    ensures T(f, j, m) == T(st, j, m)
    decreases Depth(m)
  {
    assert LocOk(m) by { hide Target, Boundary; }
    if CellOf(m).InBlock? {
      var parent, e := CellOf(m).parent, CellOf(m).k;
      var y := T(st, j, parent);
      TargetCell(st.inodes[j], st.blocks, m);
      TargetCell(f.inodes[j], f.blocks, m);
      ParentDepth(m);
      LaterSizes(st, f, ow', i, q, FirstOf(k));
      hide Target, Ptr, Boundary, EntriesStay, Later, CellOf;
      PointerStays(st, ow, f, ow', i, k, q, n, j, parent);
      assert T(f, j, parent) == y && Live(f, j);
      assert y in ow' && ow'[y] == (j, parent);
      IndexStays(st, f, ow', i, k, q, j, parent, y, e);
    } else {
      SameInodePointers(st, f, i, n, j);
    }
  }

  lemma SameInodePointers(st: Store, f: Store, i: nat, n: int, j: nat)
    requires i < |st.inodes| && OnlySize(st, f, i, n) && j < |st.inodes|
    ensures j < |f.inodes| && f.inodes[j].direct == st.inodes[j].direct
    ensures f.inodes[j].indir1 == st.inodes[j].indir1 && f.inodes[j].indir2 == st.inodes[j].indir2
  {
  }

  lemma ParentDepth(m: Loc)
    requires LocOk(m) && CellOf(m).InBlock?
    ensures Depth(CellOf(m).parent) < Depth(m) && !CellOf(m).parent.Data?
  {
  }

  /** No pointer of the file serves blocks from a boundary on. */
  lemma BeyondNull(st: Store, i: nat, k: nat, x: nat)
    requires i < |st.inodes| && Boundary(st, i, k)
    ensures T(st, i, Data(FirstOf(k) + x)) == 0
  {
    var l := FirstOf(k) + x;
    if l < 65798 {
      assert T(st, i, Outer((l - 262) / 256)) == 0 && (l - 262) / 256 >= k;
      TargetCell(st.inodes[i], st.blocks, Data(l));
      hide Target;
      assert CellOf(Data(l)).parent == OuterOf(l);
    }
  }

  lemma TakenAre(f: Store, ow': Owners, i: nat, k: nat, bs: seq<nat>)
    requires Good(f, ow') && Live(f, i) && (forall j :: 0 <= j < |bs| ==> 0 < bs[j] < |f.blocks| && T(f, i, Outer(k + j)) == bs[j])
    ensures TakenHeld(f, ow', i, k, bs) && AllMarked(f, ow')
  {
    forall j | 0 <= j < |bs|
      ensures bs[j] < |f.blocks| && bs[j] in ow' && ow'[bs[j]] == (i, Outer(k + j)) && HoldsEntries(ow', i, k + j, f.blocks[bs[j]])
    {
      assert T(f, i, Outer(k + j)) == bs[j];
      EntriesAre(f, ow', i, k + j, bs[j]);
    }
    hide Target;
    forall y | y in ow' ensures y < |f.blockMap| && f.blockMap[y] { assert T(f, ow'[y].0, ow'[y].1) == y; }
  }

  lemma EntriesAre(f: Store, ow': Owners, i: nat, k: nat, b: nat)
    requires Good(f, ow') && Live(f, i) && 0 < b < |f.blocks| && T(f, i, Outer(k)) == b
    ensures b in ow' && ow'[b] == (i, Outer(k)) && HoldsEntries(ow', i, k, f.blocks[b])
  {
    hide Ptr;
    assert k < 256;
    forall x: nat | x < 256 && Ptr(f.blocks[b], x) != 0
      ensures Ptr(f.blocks[b], x) in ow' && ow'[Ptr(f.blocks[b], x)] == (i, Data(FirstOf(k) + x))
    {
      var m := Data(FirstOf(k) + x);
      TargetCell(f.inodes[i], f.blocks, m);
      assert CellOf(m) == InBlock(Outer(k), x);
      assert T(f, i, m) == Ptr(f.blocks[b], x);
    }
  }

  /** An old word that became a pointer of a well-formed file named a leaked block. */
  lemma WordLeaked(st: Store, ow: Owners, f: Store, ow': Owners, i: nat, k: nat, q: nat, n: int, bs: seq<nat>, x: nat)
    requires Good(st, ow) && Live(st, i) && Boundary(st, i, k) && q == st.inodes[i].indir2 && OnlySize(st, f, i, n) && Good(f, ow')
    requires Later(st, f, ow', i, q, FirstOf(k)) && q < |st.blocks| && EntriesStay(st.blocks[q], f.blocks[q])
    requires WordsHeld(st, ow', i, k, bs) && x < 256 * |bs| && Word(st, bs, x) != 0 && Shape(f, i)
    ensures Sized(st) && Word(st, bs, x) in Leaked(st, ow) && x < n / 1024 + 1
  {
    hide Target, Boundary, Shape, Later, Word, EntriesStay;
    var w: nat := Word(st, bs, x);
    var m := Data(FirstOf(k) + x);
    assert ow'[w] == (i, m);
    assert T(f, i, m) == w && Live(f, i);
    assert w >= f.start;
    ReachedBy(f, i, m);
    BoundaryNull(st, i, k);
    assert f.start == st.start && |f.blocks| == |st.blocks| by { LaterSizes(st, f, ow', i, q, FirstOf(k)); }
    if w in ow {
      PointerStays(st, ow, f, ow', i, k, q, n, ow[w].0, ow[w].1);
      BeyondNull(st, i, k, x);
    }
  }

  lemma ReachedBy(f: Store, i: nat, m: Loc)
    requires i < |f.inodes| && Shape(f, i) && T(f, i, m) != 0
    ensures FirstBlock(m) * 1024 <= f.inodes[i].size
  {
  }

  lemma LaterSizes(a: Store, b: Store, ow: Owners, i: nat, q: nat, l: nat)
    requires Later(a, b, ow, i, q, l)
    ensures b.start == a.start && |b.blocks| == |a.blocks| && |b.blockMap| == |a.blockMap|
  {
  }

  /** So the blocks it took could be adopted. */
  lemma AppendsAdopts(st: Store, ow: Owners, i: nat, k: nat, off: nat, data: seq<byte>, done: nat, n: nat)
    requires Good(st, ow) && Live(st, i) && Sized(st) && Boundary(st, i, k) && 0 < st.inodes[i].indir2 < |st.blocks| && n <= |data|
    requires var d := st.blocks[st.inodes[i].indir2];
             k <= 256 &&
             var r, bs := FillOuter(st, i, d, k, 0, off, data, done, false), Takes(st, i, d, k, 0, off, data, done, false);
             r.Ended? && OnlySize(st, r.st, i, n) && Appends(st, r.st, i, k, bs, data[..n])
    ensures var bs := Takes(st, i, st.blocks[st.inodes[i].indir2], k, 0, off, data, done, false);
            Adopts(st, ow, bs, n / 1024 + 1)
  {
    hide Target, Owned, Contents, FillOuter, Takes, Boundary, Shape, Ptr, Leaked, Later, EntriesStay, WordsHeld, TakenHeld,
      AllMarked, Word;
    BoundaryNull(st, i, k);
    var q := st.inodes[i].indir2;
    var d := st.blocks[q];
    var f, bs := FillOuter(st, i, d, k, 0, off, data, done, false).st, Takes(st, i, d, k, 0, off, data, done, false);
    var ow' :| Good(f, ow');
    TakesFree(st, i, d, k, 0, off, data, done, false);
    assert forall j :: 0 <= j < |bs| ==> bs[j] in bs;
    TakenAre(f, ow', i, k, bs);
    BoundaryOpens(st, ow, f, ow', i, k, n);
    OuterLater(st, i, d, k, off, data, done, false, q, ow');
    forall x: nat | x < 256 * |bs| && Word(st, bs, x) != 0
      ensures x < n / 1024 + 1 && Word(st, bs, x) in Leaked(st, ow) && Word(st, bs, x) in ow'
      ensures ow'[Word(st, bs, x)] == (i, Data(FirstOf(k) + x))
    {
      WordLeaked(st, ow, f, ow', i, k, q, n, bs, x);
      WordHeld(st, ow', i, k, bs, x);
    }
  }

  lemma WordHeld(st: Store, ow: Owners, i: nat, k: nat, bs: seq<nat>, x: nat)
    requires WordsHeld(st, ow, i, k, bs) && x < 256 * |bs| && Word(st, bs, x) != 0
    ensures Word(st, bs, x) in ow && ow[Word(st, bs, x)] == (i, Data(FirstOf(k) + x))
  {
  }

  lemma BoundaryOpens(st: Store, ow: Owners, f: Store, ow': Owners, i: nat, k: nat, n: int)
    requires Good(st, ow) && Live(st, i) && Boundary(st, i, k) && Good(f, ow') && OnlySize(st, f, i, n)
    ensures st.inodes[i].indir2 < |st.blocks| && Opening(st, i, st.blocks[st.inodes[i].indir2], k, st.inodes[i].indir2, ow')
  {
    hide Target, Ptr;
    var q := st.inodes[i].indir2;
    InodePointers(st, i);
    InodePointers(f, i);
    assert T(f, i, Ind2) == q && Live(f, i);
    forall x: nat | k <= x < 256 ensures Ptr(st.blocks[q], x) == 0 { OuterIs(st, i, x); }
  }

  /** From a boundary on, an append that takes second-level blocks with whatever
      old contents leaves the file well formed, exclusively owned and with exactly
      the bytes written at its end if and only if the old words of those blocks
      are null or, where the file reaches, name leaked blocks, each one once. */
  lemma StaleAppendIff(st: Store, ow: Owners, i: nat, k: nat, off: nat, data: seq<byte>, done: nat)
    requires Good(st, ow) && Live(st, i) && Boundary(st, i, k) && off % 1024 == 0
    ensures Sized(st) && 0 < st.inodes[i].indir2 < |st.blocks| && k <= 256
    ensures var d := st.blocks[st.inodes[i].indir2];
            var r, bs := FillOuter(st, i, d, k, 0, off, data, done, false), Takes(st, i, d, k, 0, off, data, done, false);
            var n := r.st.inodes[i].size - st.inodes[i].size;
            && 0 <= n <= |data|
            && (r.Ended? && Appends(st, r.st, i, k, bs, data[..n]) <==> Adopts(st, ow, bs, n / 1024 + 1))
  {
    hide Contents, FillOuter, Takes, Shape, Ptr, Adopts, Target, Owned, OthersSame;
    BoundaryOpensAt(st, ow, i, k);
    hide Boundary;
    var d := st.blocks[st.inodes[i].indir2];
    var r, bs := FillOuter(st, i, d, k, 0, off, data, done, false), Takes(st, i, d, k, 0, off, data, done, false);
    OuterCounted(st, i, d, k, 0, off, data, done, false);
    var n := r.st.inodes[i].size - st.inodes[i].size;
    if r.Ended? && Appends(st, r.st, i, k, bs, data[..n]) { AppendsAdopts(st, ow, i, k, off, data, done, n); }
    if Adopts(st, ow, bs, n / 1024 + 1) {
      var ow' := OuterFills(st, ow, i, k, off, data, done, false);
    }
  }

  lemma BoundaryOpensAt(st: Store, ow: Owners, i: nat, k: nat)
    requires Good(st, ow) && Live(st, i) && Boundary(st, i, k)
    ensures Sized(st) && 0 < st.inodes[i].indir2 < |st.blocks| && k <= 256
  {
    hide Target;
    InodePointers(st, i);
    assert T(st, i, Ind2) < |st.blocks|;
  }
}
