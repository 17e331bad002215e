/** What truncation as written releases, and removing an inode. */
module TruncProofs {
  import opened Layout
  import opened State
  import opened WriteProofs
  import opened Ops

  /** x is an entry of index block b at or after k, before the first null one. */
  ghost predicate InRun(b: Block, k: nat, x: nat)
    requires k <= 256
    decreases 256 - k
  {
    k < 256 && Ptr(b, k) != 0 && (Ptr(b, k) == x || InRun(b, k + 1, x))
  }

  lemma {:induction false} FreeRunIs(bm: seq<bool>, start: nat, b: Block, k: nat, x: nat)
    requires k <= 256 && x < |bm|
    ensures FreeRun(bm, start, b, k)[x] == (bm[x] && !(start <= x && InRun(b, k, x)))
    decreases 256 - k
  {
    hide Ptr;
    if k < 256 && Ptr(b, k) != 0 {
      FreeRunIs(FreeBit(bm, start, Ptr(b, k)), start, b, k + 1, x);
    }
  }

  ghost predicate InOuter(bl: seq<Block>, start: nat, b: Block, k: nat, x: nat)
    requires k <= 256
    decreases 256 - k
  {
    k < 256 && Ptr(b, k) != 0 && start <= Ptr(b, k)
    && (Ptr(b, k) == x || InRun(BlockAt(bl, Ptr(b, k)), 0, x) || InOuter(bl, start, b, k + 1, x))
  }

  lemma {:induction false} FreeOuterIs(bm: seq<bool>, start: nat, bl: seq<Block>, b: Block, k: nat, x: nat)
    requires k <= 256 && x < |bm|
    ensures FreeOuter(bm, start, bl, b, k)[x] == (bm[x] && !(start <= x && InOuter(bl, start, b, k, x)))
    decreases 256 - k
  {
    hide Ptr, InRun;
    if k < 256 && Ptr(b, k) != 0 && start <= Ptr(b, k) {
      var p := Ptr(b, k);
      FreeRunIs(bm, start, BlockAt(bl, p), 0, x);
      FreeOuterIs(FreeBit(FreeRun(bm, start, BlockAt(bl, p), 0), start, p), start, bl, b, k + 1, x);
    }
  }

  lemma {:induction false} InRunWitness(b: Block, k: nat, x: nat) returns (j: nat)
    requires k <= 256 && InRun(b, k, x)
    ensures k <= j < 256 && Ptr(b, j) == x
    decreases 256 - k
  {
    if Ptr(b, k) == x { j := k; } else { j := InRunWitness(b, k + 1, x); }
  }

  lemma {:induction false} InRunAll(b: Block, k: nat, j: nat)
    requires k <= j < 256 && forall m :: k <= m <= j ==> Ptr(b, m) != 0
    ensures InRun(b, k, Ptr(b, j))
    decreases j - k
  {
    if k < j { InRunAll(b, k + 1, j); }
  }

  lemma {:induction false} InOuterWitness(bl: seq<Block>, start: nat, b: Block, k: nat, x: nat) returns (j: nat)
    requires k <= 256 && InOuter(bl, start, b, k, x)
    ensures k <= j < 256 && Ptr(b, j) != 0 && (Ptr(b, j) == x || InRun(BlockAt(bl, Ptr(b, j)), 0, x))
    decreases 256 - k
  {
    if Ptr(b, k) == x || InRun(BlockAt(bl, Ptr(b, k)), 0, x) { j := k; }
    else { j := InOuterWitness(bl, start, b, k + 1, x); }
  }

  lemma {:induction false} InOuterAll(bl: seq<Block>, start: nat, b: Block, k: nat, j: nat, x: nat)
    requires k <= j < 256 && (forall m :: k <= m <= j ==> Ptr(b, m) != 0 && start <= Ptr(b, m))
    requires Ptr(b, j) == x || InRun(BlockAt(bl, Ptr(b, j)), 0, x)
    ensures InOuter(bl, start, b, k, x)
    decreases j - k
  {
    if k < j { InOuterAll(bl, start, b, k + 1, j, x); }
  }

  // ---- in terms of ownership ----

  /** The blocks a truncation of inode i frees: what its index blocks list and
      the second-level blocks, never the direct blocks, indir_1 or indir_2. */
  ghost predicate Released(ow: Owners, i: nat, x: nat) {
    x in ow && ow[x].0 == i && (ow[x].1.Outer? || (ow[x].1.Data? && ow[x].1.l >= 6))
  }

  /** Index block b lists the logical blocks from base on. */
  ghost predicate Lists(st: Store, i: nat, b: Block, base: nat)
    requires i < |st.inodes|
  {
    forall k: nat :: k < 256 ==> T(st, i, Data(base + k)) == Ptr(b, k)
  }

  ghost predicate OwnsData(ow: Owners, i: nat, x: nat, base: nat) {
    x in ow && ow[x].0 == i && ow[x].1.Data? && base <= ow[x].1.l < base + 256
  }

  lemma RunSound(st: Store, ow: Owners, i: nat, b: Block, base: nat, x: nat)
    requires Good(st, ow) && Live(st, i) && st.start <= x && Lists(st, i, b, base) && InRun(b, 0, x)
    ensures OwnsData(ow, i, x, base)
  {
    hide Ptr, Target, InRun;
    var k := InRunWitness(b, 0, x);
    assert T(st, i, Data(base + k)) == x;
  }

  lemma RunComplete(st: Store, ow: Owners, i: nat, b: Block, base: nat, x: nat)
    requires Good(st, ow) && Live(st, i) && Shape(st, i) && Lists(st, i, b, base) && OwnsData(ow, i, x, base)
    requires base + 256 <= 65798
    ensures InRun(b, 0, x)
  {
    hide Ptr, Target, InRun;
    var l := ow[x].1.l;
    assert T(st, i, Data(l)) == x;
    assert FirstBlock(Data(l)) * 1024 <= st.inodes[i].size;
    forall m | 0 <= m <= l - base ensures Ptr(b, m) != 0 {
      assert T(st, i, Data(base + m)) == Ptr(b, m);
    }
    InRunAll(b, 0, l - base);
    assert T(st, i, Data(base + (l - base))) == Ptr(b, l - base);
  }

  lemma RunIs(st: Store, ow: Owners, i: nat, b: Block, base: nat, x: nat)
    requires Good(st, ow) && Live(st, i) && Shape(st, i) && Lists(st, i, b, base) && base + 256 <= 65798 && st.start <= x
    ensures InRun(b, 0, x) <==> OwnsData(ow, i, x, base)
  {
    hide Good, Lists, OwnsData, InRun, Shape;
    if InRun(b, 0, x) { RunSound(st, ow, i, b, base, x); }
    if OwnsData(ow, i, x, base) { RunComplete(st, ow, i, b, base, x); }
  }

  lemma Run1Is(st: Store, ow: Owners, i: nat, x: nat)
    requires Good(st, ow) && Live(st, i) && Shape(st, i) && st.inodes[i].indir1 >= st.start && st.start <= x
    ensures InRun(BlockAt(st.blocks, st.inodes[i].indir1), 0, x) <==> OwnsData(ow, i, x, 6)
  {
    assert T(st, i, Ind1) < |st.blocks|;
    hide Ptr, InRun, OwnsData;
    RunIs(st, ow, i, BlockAt(st.blocks, st.inodes[i].indir1), 6, x);
  }

  /** An outer entry in use has all earlier ones in use. */
  lemma OuterPrefix(st: Store, i: nat, k: nat, m: nat)
    requires i < |st.inodes| && Shape(st, i) && m <= k < 256 && T(st, i, Outer(k)) != 0
    ensures T(st, i, Outer(m)) != 0
  {
    if m < k {
      assert FirstBlock(Outer(k)) * 1024 <= st.inodes[i].size;
      assert T(st, i, Data(262 + 256 * m)) != 0;
      TargetCell(st.inodes[i], st.blocks, Data(262 + 256 * m));
    }
  }

  lemma OuterEntries(st: Store, i: nat, k: nat)
    requires i < |st.inodes| && k < 256 && 0 < T(st, i, Outer(k)) < |st.blocks|
    ensures Lists(st, i, BlockAt(st.blocks, T(st, i, Outer(k))), 262 + 256 * k)
  {
    hide Ptr;
    forall j: nat | j < 256
      ensures T(st, i, Data(262 + 256 * k + j)) == Ptr(BlockAt(st.blocks, T(st, i, Outer(k))), j)
    {
      TargetCell(st.inodes[i], st.blocks, Data(262 + 256 * k + j));
    }
  }

  /** The entries of second-level block k are released with it. */
  lemma Run2Is(st: Store, ow: Owners, i: nat, k: nat, x: nat)
    requires Good(st, ow) && Live(st, i) && Shape(st, i) && k < 256 && T(st, i, Outer(k)) != 0 && st.start <= x
    ensures InRun(BlockAt(st.blocks, T(st, i, Outer(k))), 0, x) <==> OwnsData(ow, i, x, 262 + 256 * k)
  {
    hide Ptr, Target, InRun, OwnsData;
    OuterEntries(st, i, k);
    RunIs(st, ow, i, BlockAt(st.blocks, T(st, i, Outer(k))), 262 + 256 * k, x);
  }

  lemma OuterIs(st: Store, ow: Owners, i: nat, x: nat)
    requires Good(st, ow) && Live(st, i) && Shape(st, i) && st.inodes[i].indir2 >= st.start && st.start <= x
    ensures InOuter(st.blocks, st.start, BlockAt(st.blocks, st.inodes[i].indir2), 0, x)
            <==> x in ow && ow[x].0 == i && (ow[x].1.Outer? || (ow[x].1.Data? && ow[x].1.l >= 262))
  {
    hide Ptr, InRun;
    var b := BlockAt(st.blocks, st.inodes[i].indir2);
    assert T(st, i, Ind2) < |st.blocks|;
    forall k: nat | k < 256 ensures T(st, i, Outer(k)) == Ptr(b, k) { }
    hide Target;
    if InOuter(st.blocks, st.start, b, 0, x) {
      var k := InOuterWitness(st.blocks, st.start, b, 0, x);
      assert T(st, i, Outer(k)) == Ptr(b, k);
      Run2Is(st, ow, i, k, x);
    }
    if x in ow && ow[x].0 == i && (ow[x].1.Outer? || (ow[x].1.Data? && ow[x].1.l >= 262)) {
      OuterOwned(st, ow, i, b, x);
    }
  }

  lemma OuterOwned(st: Store, ow: Owners, i: nat, b: Block, x: nat)
    requires Good(st, ow) && Live(st, i) && Shape(st, i)
    requires forall k: nat :: k < 256 ==> T(st, i, Outer(k)) == Ptr(b, k)
    requires x in ow && ow[x].0 == i && (ow[x].1.Outer? || (ow[x].1.Data? && ow[x].1.l >= 262))
    ensures InOuter(st.blocks, st.start, b, 0, x)
  {
    hide Ptr, InRun, InOuter, Target;
    var loc := ow[x].1;
    assert T(st, i, loc) == x;
    OwnedLoc(st, ow, x);
    var k := if loc.Outer? then loc.k else (loc.l - 262) / 256;
    if loc.Data? {
      ParentOfData(st, i, loc.l);
      Run2Is(st, ow, i, k, x);
    }
    forall m: nat | m <= k ensures Ptr(b, m) != 0 && st.start <= Ptr(b, m) {
      OuterPrefix(st, i, k, m);
      assert T(st, i, Outer(m)) == Ptr(b, m);
    }
    assert T(st, i, Outer(k)) == Ptr(b, k);
    InOuterAll(st.blocks, st.start, b, 0, k, x);
  }

  lemma OwnedLoc(st: Store, ow: Owners, x: nat)
    requires Good(st, ow) && x in ow
    ensures LocOk(ow[x].1)
  {
    hide Target;
    assert T(st, ow[x].0, ow[x].1) != 0;
  }

  lemma ParentOfData(st: Store, i: nat, l: nat)
    requires i < |st.inodes| && 262 <= l < 65798 && T(st, i, Data(l)) != 0
    ensures T(st, i, Outer((l - 262) / 256)) != 0
  {
    TargetCell(st.inodes[i], st.blocks, Data(l));
  }

  lemma NoIndirect(st: Store, ow: Owners, i: nat, x: nat)
    requires Good(st, ow) && Live(st, i) && x in ow && ow[x].0 == i
    ensures st.inodes[i].indir1 < st.start ==> !(ow[x].1.Data? && 6 <= ow[x].1.l < 262)
    ensures st.inodes[i].indir2 < st.start ==> !(ow[x].1.Outer? || (ow[x].1.Data? && ow[x].1.l >= 262))
  {
    OwnedLoc(st, ow, x);
    assert T(st, i, Ind1) == 0 || st.start <= T(st, i, Ind1);
    assert T(st, i, Ind2) == 0 || st.start <= T(st, i, Ind2);
    assert T(st, i, ow[x].1) == x;
  }

  /** Truncation clears exactly the bits of the released blocks. */
  lemma TruncBitsAt(st: Store, ow: Owners, i: nat, x: nat)
    requires Good(st, ow) && Live(st, i) && Shape(st, i) && x < |st.blockMap|
    ensures TruncBits(st, st.inodes[i])[x] == (st.blockMap[x] && !Released(ow, i, x))
  {
    hide Target, InRun, InOuter, FreeRun, FreeOuter, Shape;
    var n := st.inodes[i];
    if x in ow && ow[x].0 == i { NoIndirect(st, ow, i, x); }
    OwnedStart(st, ow, x);
    var bm1 := if n.indir1 >= st.start then FreeRun(st.blockMap, st.start, BlockAt(st.blocks, n.indir1), 0) else st.blockMap;
    if n.indir1 >= st.start {
      FreeRunIs(st.blockMap, st.start, BlockAt(st.blocks, n.indir1), 0, x);
      if st.start <= x { Run1Is(st, ow, i, x); }
    }
    if n.indir2 >= st.start {
      FreeOuterIs(bm1, st.start, st.blocks, BlockAt(st.blocks, n.indir2), 0, x);
      if st.start <= x { OuterIs(st, ow, i, x); }
    }
  }

  lemma OwnedStart(st: Store, ow: Owners, x: nat)
    requires Good(st, ow)
    ensures x in ow ==> st.start <= x < |st.blocks| && st.blockMap[x]
  {
    hide Target;
    if x in ow { assert T(st, ow[x].0, ow[x].1) == x; }
  }

  // ---- the store after a truncation ----

  lemma {:induction false} ClearDirectIs(direct: seq<nat>, k: nat)
    requires k <= |direct|
    requires forall m :: 0 <= m < k ==> direct[m] == 0
    requires forall m, l :: k <= m < l < |direct| && direct[l] != 0 ==> direct[m] != 0
    ensures forall m :: 0 <= m < |direct| ==> ClearDirect(direct, k)[m] == 0
    decreases |direct| - k
  {
    if k < |direct| && direct[k] != 0 { ClearDirectIs(direct[k := 0], k + 1); }
  }

  lemma TruncDirect(st: Store, i: nat)
    requires i < |st.inodes| && Shape(st, i)
    ensures TruncFile(st, i).inodes[i] == st.inodes[i].(size := 0, direct := [0, 0, 0, 0, 0, 0])
  {
    var dir := st.inodes[i].direct;
    forall m, l | 0 <= m < l < 6 && dir[l] != 0 ensures dir[m] != 0 {
      assert T(st, i, Data(l)) == dir[l] && T(st, i, Data(m)) == dir[m];
      assert FirstBlock(Data(l)) * 1024 <= st.inodes[i].size;
    }
    ClearDirectIs(dir, 0);
    assert ClearDirect(dir, 0) == [0, 0, 0, 0, 0, 0];
  }

  ghost function Without(ow: Owners, i: nat): Owners { map x | x in ow && ow[x].0 != i :: ow[x] }

  /** Removing an inode: its blocks may be freed, nobody else's are. */
  lemma KillGood(st: Store, ow: Owners, i: nat, st': Store)
    requires Good(st, ow) && i < |st.inodes|
    requires st'.start == st.start && st'.blocks == st.blocks && |st'.blockMap| == |st.blockMap|
    requires |st'.inodes| == |st.inodes| && st'.inodeMap == st.inodeMap[i := false]
    requires forall j :: 0 <= j < |st.inodes| && j != i ==> st'.inodes[j] == st.inodes[j]
    requires forall x :: 0 <= x < |st.blockMap| ==>
               st'.blockMap[x] == st.blockMap[x] || (x in ow && ow[x].0 == i)
    ensures Good(st', Without(ow, i))
    ensures forall j: nat, m :: Live(st, j) && j != i ==> T(st', j, m) == T(st, j, m)
  {
    hide Target;
    forall x | 0 <= x < st.start ensures st'.blockMap[x] { OwnedStart(st, ow, x); }
    assert forall j: nat, m :: j < |st.inodes| && j != i ==> T(st', j, m) == T(st, j, m);
  }

  lemma ShortFile(st: Store, i: nat, loc: Loc)
    requires i < |st.inodes| && Shape(st, i) && st.inodes[i].indir1 == 0
    ensures T(st, i, loc) != 0 ==> loc.Data? && loc.l < 6
  {
    assert T(st, i, Data(6)) == 0;
    assert st.inodes[i].size <= 6 * 1024;
  }

  lemma TruncShortGood(st: Store, ow: Owners, i: nat)
    requires Good(st, ow) && Live(st, i) && Shape(st, i) && st.inodes[i].indir1 == 0
    ensures var s := TruncFile(st, i);
            && Good(s, Without(ow, i)) && Shape(s, i)
            && s.blockMap == st.blockMap && s.blocks == st.blocks && s.start == st.start
            && (forall m :: T(s, i, m) == 0)
            && (forall j: nat, m :: Live(st, j) && j != i ==> T(s, j, m) == T(st, j, m))
  {
    var s := TruncFile(st, i);
    TruncDirect(st, i);
    forall x | 0 <= x < |st.blockMap| ensures s.blockMap[x] == st.blockMap[x] {
      TruncBitsAt(st, ow, i, x);
      if Released(ow, i, x) { ShortFile(st, i, ow[x].1); assert T(st, i, ow[x].1) == x; }
    }
    ShortFile(st, i, Ind2);
    forall m ensures T(s, i, m) == 0 { }
    assert forall j: nat, m :: j < |st.inodes| && j != i ==> T(s, j, m) == T(st, j, m);
    hide Target;
    assert s.blockMap == st.blockMap;
  }

  /** Truncation as written leaves a well-formed file exactly when the file
      never had a single-indirect block. */
  lemma TruncateKeepsIff(st: Store, ow: Owners, i: nat)
    requires Good(st, ow) && Live(st, i) && Shape(st, i)
    ensures Contents(TruncFile(st, i), i) == []
    ensures WellOwned(TruncFile(st, i), i) <==> st.inodes[i].indir1 == 0
  {
    var s := TruncFile(st, i);
    if st.inodes[i].indir1 == 0 {
      TruncShortGood(st, ow, i);
    } else {
      hide TruncBits;
      assert T(s, i, Ind1) != 0 && FirstBlock(Ind1) * 1024 > s.inodes[i].size;
    }
  }
}
