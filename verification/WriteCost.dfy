/** How many blocks an append takes, exactly, and when it runs out of space. */
module WriteCost {
  import opened Layout
  import opened State
  import opened AttachProofs
  import opened FileWrite
  import opened WriteProofs
  import opened WriteTheorems

  function CountFree(bm: seq<bool>, i: nat, n: nat): (c: nat)
    requires i <= n <= |bm|
    decreases n - i
  {
    if i == n then 0 else (if bm[i] then 0 else 1) + CountFree(bm, i + 1, n)
  }

  function FreeBlocks(st: Store): nat
    requires Sized(st)
  {
    CountFree(st.blockMap, st.start, |st.blocks|)
  }

  lemma {:induction false} CountSame(a: seq<bool>, b: seq<bool>, i: nat, n: nat)
    requires i <= n <= |a| && n <= |b| && forall x :: i <= x < n ==> a[x] == b[x]
    ensures CountFree(a, i, n) == CountFree(b, i, n)
    decreases n - i
  {
    if i < n { CountSame(a, b, i + 1, n); }
  }

  lemma {:induction false} CountTake(bm: seq<bool>, i: nat, n: nat)
    requires i <= n <= |bm|
    ensures var b := FirstFree(bm, i, n);
            CountFree(bm, i, n) == if b == n then 0 else 1 + CountFree(bm[b := true], i, n)
    decreases n - i
  {
    if i < n {
      var b := FirstFree(bm, i, n);
      if bm[i] {
        CountTake(bm, i + 1, n);
      } else {
        CountSame(bm, bm[i := true], i + 1, n);
      }
    }
  }

  function Missing(st: Store, i: nat, loc: Loc): nat
    requires i < |st.inodes|
  {
    if T(st, i, loc) == 0 then 1 else 0
  }

  lemma GrowCount(st: Store, ow: Owners, i: nat, loc: Loc)
    requires Good(st, ow) && Live(st, i) && LocOk(loc)
    requires CellOf(loc).InBlock? ==> T(st, i, CellOf(loc).parent) != 0
    ensures var g := Grow(st, i, loc);
            && (g.Ok? <==> Missing(st, i, loc) <= FreeBlocks(st))
            && (g.Ok? ==> FreeBlocks(g.st) == FreeBlocks(st) - Missing(st, i, loc))
  {
    hide Target, Owned, NoPointers;
    CountTake(st.blockMap, st.start, |st.blocks|);
    var b := FirstFree(st.blockMap, st.start, |st.blocks|);
    if T(st, i, loc) == 0 && b < |st.blocks| {
      AttachFields(st, ow, i, loc, b, if loc.Outer? then st.blocks[b] else ZeroBlock);
      hide Attach;
    }
  }

  /** A file without blocks beyond its size, as left by non-empty appends. */
  ghost predicate Tight(st: Store, i: nat)
    requires i < |st.inodes|
  {
    && st.inodes[i].size <= MAX_BYTES
    && forall loc :: LocOk(loc) ==> (T(st, i, loc) != 0 <==> FirstBlock(loc) * 1024 < st.inodes[i].size)
  }

  /** Blocks of a file with d data blocks: the data, the single-indirect block,
      the double-indirect block and its second-level blocks. */
  function TotalBlocks(d: nat): nat {
    d + (if d > 6 then 1 else 0) + (if d > 262 then 1 + (d - 262 + 255) / 256 else 0)
  }

  function DataBlocks(size: nat): nat { (size + 1023) / 1024 }

  /** What growing a file from a to b bytes takes. */
  function Price(a: nat, b: nat): int { TotalBlocks(DataBlocks(b)) - TotalBlocks(DataBlocks(a)) }

  function StepCost(l: nat): nat {
    1 + (if l == 6 || l == 262 then 1 else 0) + (if l >= 262 && (l - 262) % 256 == 0 then 1 else 0)
  }

  lemma StepCostIs(l: nat)
    ensures TotalBlocks(l + 1) == TotalBlocks(l) + StepCost(l)
  {
  }

  /** What one iteration must allocate. */
  function StepNeeds(st: Store, i: nat, l: nat): nat
    requires i < |st.inodes|
  {
    Missing(st, i, Data(l)) +
    (if l < 6 then 0 else if l < 262 then Missing(st, i, Ind1)
     else Missing(st, i, Ind2) + Missing(st, i, OuterOf(l)))
  }

  lemma GrowIndexCount(st: Store, ow: Owners, i: nat, l: nat)
    requires Good(st, ow) && Live(st, i) && l < 65798 && StepClean(st, i, l)
    ensures var g := GrowIndex(st, i, l);
            var need := StepNeeds(st, i, l) - Missing(st, i, Data(l));
            && (g.Ok? <==> need <= FreeBlocks(st))
            && (g.Ok? ==> FreeBlocks(g.st) == FreeBlocks(st) - need)
  {
    hide Target, Owned, NoPointers, Grow, FreeBlocks;
    if 6 <= l < 262 {
      GrowCount(st, ow, i, Ind1);
    } else if 262 <= l {
      GrowCount(st, ow, i, Ind2);
      var o := GrowOk(st, ow, i, Ind2);
      if Grow(st, i, Ind2).Ok? {
        GrowCount(Grow(st, i, Ind2).st, o, i, OuterOf(l));
      }
    }
  }

  lemma StepCount(st: Store, ow: Owners, i: nat, l: nat, off: nat, data: seq<byte>)
    requires Good(st, ow) && Live(st, i) && l < 65798 && StepClean(st, i, l)
    ensures var r := WriteStep(st, i, l, off, data);
            && (r.Wrote? <==> StepNeeds(st, i, l) <= FreeBlocks(st))
            && (r.Wrote? ==> FreeBlocks(r.st) == FreeBlocks(st) - StepNeeds(st, i, l))
  {
    hide Target, Owned, NoPointers, Grow, GrowIndex, StepClean;
    var ow' := GrowIndexOk(st, ow, i, l);
    GrowIndexCount(st, ow, i, l);
    var g := GrowIndex(st, i, l);
    if g.Ok? {
      GrowCount(g.st, ow', i, Data(l));
    }
  }

  lemma TightNeeds(st: Store, i: nat, l: nat)
    requires i < |st.inodes| && Tight(st, i) && l < 65798 && l == st.inodes[i].size / 1024
    ensures StepNeeds(st, i, l) == if st.inodes[i].size % 1024 == 0 then StepCost(l) else 0
  {
    hide Target;
    if l >= 262 {
      assert FirstBlock(OuterOf(l)) == l - (l - 262) % 256;
    }
  }

  lemma TightShape(st: Store, i: nat)
    requires i < |st.inodes| && Tight(st, i)
    ensures Shape(st, i)
  {
    forall loc | T(st, i, loc) != 0 ensures FirstBlock(loc) * 1024 <= st.inodes[i].size {
      assert LocOk(loc);
    }
  }

  lemma StepTight(st: Store, ow: Owners, i: nat, l: nat, off: nat, data: seq<byte>)
    requires Good(st, ow) && Live(st, i) && Tight(st, i) && AtEnd(st, i, l, off) && StepClean(st, i, l)
    requires WriteStep(st, i, l, off, data).Wrote? && data != []
    ensures Tight(WriteStep(st, i, l, off, data).st, i)
  {
    TightShape(st, i);
    StepAppend(st, ow, i, l, off, data);
    var r := WriteStep(st, i, l, off, data);
    ContentsSize(st, r.st, i, data[..r.k]);
    forall loc | LocOk(loc)
      ensures T(r.st, i, loc) != 0 <==> FirstBlock(loc) * 1024 < r.st.inodes[i].size
    {
      StepPointers(st, ow, i, l, off, data, loc);
    }
  }

  /** After a step exactly the pointers serving blocks up to l are set. */
  lemma StepPointers(st: Store, ow: Owners, i: nat, l: nat, off: nat, data: seq<byte>, loc: Loc)
    requires Good(st, ow) && Live(st, i) && Tight(st, i) && AtEnd(st, i, l, off) && StepClean(st, i, l)
    requires WriteStep(st, i, l, off, data).Wrote? && LocOk(loc)
    ensures T(WriteStep(st, i, l, off, data).st, i, loc) != 0 <==> FirstBlock(loc) <= l
  {
    hide Target, Owned, Grow, GrowIndex, StepClean, Extends;
    var ow' := StepGrown(st, ow, i, l);
    var g := GrowIndex(st, i, l);
    var h := Grow(g.st, i, Data(l));
    ExtendsLive(st, h.st, i);
    var tb := if T(g.st, i, Data(l)) == 0 then 0 else off % 1024;
    PutOk(h.st, ow', i, l, tb, data[..Min(1024 - tb, |data|)]);
    if FirstBlock(loc) > l {
      StepGrownAt(st, ow, i, l, loc);
    } else {
      GrownPointers(st, ow, i, l, loc);
    }
  }

  lemma GrownPointers(st: Store, ow: Owners, i: nat, l: nat, loc: Loc)
    requires Good(st, ow) && Live(st, i) && Tight(st, i) && l == st.inodes[i].size / 1024
    requires l < 65798 && StepClean(st, i, l) && LocOk(loc) && FirstBlock(loc) <= l
    requires GrowIndex(st, i, l).Ok? && Grow(GrowIndex(st, i, l).st, i, Data(l)).Ok?
    ensures T(Grow(GrowIndex(st, i, l).st, i, Data(l)).st, i, loc) != 0
  {
    hide Owned, Grow, GrowIndex, StepClean, Target;
    var h := Grow(GrowIndex(st, i, l).st, i, Data(l)).st;
    var ow' := StepGrown(st, ow, i, l);
    if FirstBlock(loc) < l || st.inodes[i].size % 1024 != 0 {
      assert T(st, i, loc) != 0;
    } else {
      ParentsPresent(h, i, l, loc);
    }
  }

  lemma ParentsPresent(h: Store, i: nat, l: nat, loc: Loc)
    requires i < |h.inodes| && l < 65798 && T(h, i, Data(l)) != 0 && LocOk(loc) && FirstBlock(loc) == l
    ensures T(h, i, loc) != 0
  {
  }

  /** The exact price: a non-empty append within the maximal size succeeds
      exactly when the free blocks cover the difference, and takes just that. */
  lemma {:induction false} AppendCost(st: Store, ow: Owners, i: nat, l: nat, off: nat, data: seq<byte>, done: nat)
    requires Good(st, ow) && Live(st, i) && Tight(st, i) && AtEnd(st, i, l, off)
    requires WriteClean(st, i, l, off, data)
    requires data != [] && st.inodes[i].size + |data| <= MAX_BYTES
    ensures var r := WriteFrom(st, i, l, off, data, done);
            var price := Price(st.inodes[i].size, st.inodes[i].size + |data|);
            && (r.rc >= 0 <==> price <= FreeBlocks(st))
            && (r.rc >= 0 ==> FreeBlocks(r.st) == FreeBlocks(st) - price && Tight(r.st, i))
    decreases |data|
  {
    hide WriteStep, Owned, OthersSame, Contents, Shape, Target, T, StepClean, FreeBlocks, TotalBlocks, DataBlocks, Tight,
      Leaked, StepNeeds, StepCost;
    var size := st.inodes[i].size;
    var s := WriteStep(st, i, l, off, data);
    var ow' := StepOwned(st, ow, i, l, off, data);
    TightShape(st, i);
    StepAppend(st, ow, i, l, off, data);
    StepCount(st, ow, i, l, off, data);
    TightNeeds(st, i, l);
    PriceOfStep(size, l, |data|);
    if s.Wrote? {
      StepTight(st, ow, i, l, off, data);
      ContentsSize(st, s.st, i, data[..s.k]);
      if s.k < |data| {
        AppendCost(s.st, ow', i, l + 1, NextOff(l, off, s.tb), data[s.k..], done + s.k);
      }
    }
  }

  /** How far an append gets that runs out of space: exactly as many bytes as
      the free blocks pay for. */
  lemma {:induction false} AppendStops(st: Store, ow: Owners, i: nat, l: nat, off: nat, data: seq<byte>, done: nat)
    requires Good(st, ow) && Live(st, i) && Tight(st, i) && AtEnd(st, i, l, off)
    requires WriteClean(st, i, l, off, data)
    requires data != [] && st.inodes[i].size + |data| <= MAX_BYTES && WriteFrom(st, i, l, off, data, done).rc < 0
    ensures var size := st.inodes[i].size;
            var k := WriteFrom(st, i, l, off, data, done).st.inodes[i].size - size;
            && 0 <= k < |data| && Price(size, size + k) <= FreeBlocks(st) < Price(size, size + k + 1)
    decreases |data|
  {
    hide WriteStep, Owned, OthersSame, Contents, Shape, Target, T, StepClean, FreeBlocks, TotalBlocks, DataBlocks, Tight,
      Leaked, StepNeeds, StepCost;
    var size := st.inodes[i].size;
    var s := WriteStep(st, i, l, off, data);
    var ow' := StepOwned(st, ow, i, l, off, data);
    TightShape(st, i);
    StepAppend(st, ow, i, l, off, data);
    StepCount(st, ow, i, l, off, data);
    TightNeeds(st, i, l);
    StepSize(st, i, l, off, data);
    PriceOfStep(size, l, 1);
    if s.Wrote? {
      PriceOfStep(size, l, |data|);
      StepTight(st, ow, i, l, off, data);
      AppendStops(s.st, ow', i, l + 1, NextOff(l, off, s.tb), data[s.k..], done + s.k);
    }
  }

  lemma PriceOfStep(size: nat, l: nat, n: nat)
    requires l == size / 1024 && n > 0
    ensures var k := Min(1024 - size % 1024, n);
            && TotalBlocks(DataBlocks(size + k)) == TotalBlocks(DataBlocks(size)) + (if size % 1024 == 0 then StepCost(l) else 0)
            && TotalBlocks(DataBlocks(size + n)) >= TotalBlocks(DataBlocks(size + k))
  {
    StepCostIs(l);
    var k := Min(1024 - size % 1024, n);
    assert DataBlocks(size + k) == l + 1;
    assert size % 1024 == 0 ==> DataBlocks(size) == l;
    assert size % 1024 != 0 ==> DataBlocks(size) == l + 1;
    TotalMonotone(DataBlocks(size + k), DataBlocks(size + n));
  }

  lemma TotalMonotone(a: nat, b: nat)
    requires a <= b
    ensures TotalBlocks(a) <= TotalBlocks(b)
  {
  }
}
