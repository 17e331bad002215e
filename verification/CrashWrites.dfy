/** Stopping an append after any of its device writes. */
module CrashWrites {
  import opened Layout
  import opened State
  import opened FileWrite
  import opened WriteProofs
  import opened WriteTheorems
  import opened WriteSteps
  import opened WriteLoops
  import opened WriteLog
  import opened StepLog
  import opened Device
  import O = Ops
  import opened Tree
  import opened TreeProofs
  import opened OpTheorems
  import opened CrashTheorems
  import opened CrashSteps

  lemma NextIndexOk(st: Store, i: nat, l: nat, loc: Loc)
    requires i < |st.inodes| && NextIndex(st, i, l, loc)
    ensures l < 65798 && LocOk(loc) && !loc.Data? && FirstBlock(loc) <= l
    ensures CellOf(loc).InBlock? ==> T(st, i, CellOf(loc).parent) != 0
  {
    hide T;
  }

  lemma CleanToGrow(st: Store, i: nat, l: nat, loc: Loc)
    requires Sized(st) && i < |st.inodes| && NextIndex(st, i, l, loc) && StepClean(st, i, l)
    ensures T(st, i, loc) == 0 ==> GrowClean(st, loc)
  {
    hide T, NoPointers, FirstFree;
    if loc.Outer? { GrowFull(st, i, Ind2); }
  }

  /** With that index block the append goes on as it would have. */
  lemma IndexGrown(st: Store, ow: Owners, i: nat, l: nat, loc: Loc, off: nat, data: seq<byte>) returns (ow': Owners)
    requires Appending(st, ow, i, l, off) && NextIndex(st, i, l, loc) && Grow(st, i, loc).Ok?
    ensures var g := Grow(st, i, loc).st;
            && Appending(g, ow', i, l, off) && Kept(st, g, i) && T(g, i, loc) != 0
            && (loc != Ind2 ==> T(g, i, Ind2) == T(st, i, Ind2))
            && l < 65798 && WriteStep(g, i, l, off, data) == WriteStep(st, i, l, off, data)
  {
    hide Shape, Owned, Extends, Target, T, Grow, StepClean, GrowClean, Leaked, Kept, FirstBlock;
    NextIndexOk(st, i, l, loc);
    CleanToGrow(st, i, l, loc);
    ow' := GrowOk(st, ow, i, loc);
    var g := Grow(st, i, loc).st;
    ShapeGrown(st, g, i, l, loc);
    ExtendsKept(st, g, i);
    SoundClean(st, ow);
    SameIndex(st, i, l, loc);
    StepSame(st, g, i, l, off, data);
  }

  lemma StepSame(st: Store, g: Store, i: nat, l: nat, off: nat, data: seq<byte>)
    requires Sized(st) && Sized(g) && i < |st.inodes| == |g.inodes| && l < 65798 && GrowIndex(st, i, l) == GrowIndex(g, i, l)
    ensures WriteStep(st, i, l, off, data) == WriteStep(g, i, l, off, data)
  {
    hide Grow, GrowIndex, PutBytes, T;
  }

  // ---- one logical block ----

  lemma LowCuts(st: Store, ow: Owners, i: nat, l: nat, off: nat, data: seq<byte>, n: nat, clean: bool)
    requires Appending(st, ow, i, l, off) && l < 262 && (clean ==> FreeClean(st))
    requires var s := WriteStep(st, i, l, off, data); s.Wrote? ==> n == s.k
    ensures Cuts(st, st, LowWrites(st, i, l, off, data), i, n, clean)
    ensures ShownAll(st, LowWrites(st, i, l, off, data)) == WriteStep(st, i, l, off, data).st
  {
    hide Appending, Cuts, ShownAll, DirectWrites, IndexedWrites, NeedWrites, WriteStep, Grow, Kept, FreeClean, T;
    AppendingIs(st, ow, i, l, off);
    if l < 6 {
      DirectCuts(st, ow, i, l, off, data, n, clean);
    } else {
      var g := Grow(st, i, Ind1);
      NeedCuts(st, ow, i, Ind1, n, clean);
      if g.Ok? {
        var ow' := IndexGrown(st, ow, i, l, Ind1, off, data);
        AppendingIs(g.st, ow', i, l, off);
        var q := g.st.inodes[i].indir1;
        ThroughIndex(g.st, ow', i, l);
        IndexedCuts(g.st, ow', i, l, Ind1, l - 6, q, off, data, n, clean);
        CutsFrom(st, g.st, g.st, IndexedWrites(g.st, i, l, l - 6, q, off, data), i, n, clean);
        CutsJoin(st, st, NeedWrites(st, i, Ind1), IndexedWrites(g.st, i, l, l - 6, q, off, data), i, n, clean);
      } else {
        StopFull(st, i, l, off, data);
        assert NeedWrites(st, i, Ind1) + [] == NeedWrites(st, i, Ind1);
      }
    }
  }

  lemma AppendingIs(st: Store, ow: Owners, i: nat, l: nat, off: nat)
    requires Appending(st, ow, i, l, off)
    ensures Good(st, ow) && Live(st, i) && Shape(st, i) && l < 65798 && Sound(st) && Sized(st) && StepClean(st, i, l)
    ensures i < |st.inodes| && l == st.inodes[i].size / 1024
  {
    SoundClean(st, ow);
    hide Owned, Shape, StepClean;
  }

  lemma ThroughIndex(st: Store, ow: Owners, i: nat, l: nat)
    requires Good(st, ow) && Live(st, i) && 6 <= l < 262 && T(st, i, Ind1) != 0
    ensures Through(st, i, l, Ind1, l - 6, st.inodes[i].indir1)
  {
    InodePointers(st, i);
    hide Target;
    assert T(st, i, Ind1) < |st.blocks|;
  }

  lemma StopFull(st: Store, i: nat, l: nat, off: nat, data: seq<byte>)
    requires Sized(st) && i < |st.inodes| && 6 <= l < 262 && Grow(st, i, Ind1).Full?
    ensures WriteStep(st, i, l, off, data) == Stop(Grow(st, i, Ind1).st)
  {
    hide Grow;
  }

  lemma HighCuts(st: Store, ow: Owners, i: nat, l: nat, off: nat, data: seq<byte>, n: nat, clean: bool)
    requires Appending(st, ow, i, l, off) && 262 <= l && (clean ==> FreeClean(st))
    requires var s := WriteStep(st, i, l, off, data); s.Wrote? ==> n == s.k
    ensures Cuts(st, st, StepWrites(st, i, l, off, data), i, n, clean)
    ensures ShownAll(st, StepWrites(st, i, l, off, data)) == WriteStep(st, i, l, off, data).st
  {
    hide Appending, Cuts, ShownAll, NeedWrites, WriteStep, Grow, Kept, FreeClean, T, OuterNeed, InnerWrites;
    AppendingIs(st, ow, i, l, off);
    var g := Grow(st, i, Ind2);
    NeedCuts(st, ow, i, Ind2, n, clean);
    if g.Ok? {
      var ow' := IndexGrown(st, ow, i, l, Ind2, off, data);
      var k, e := (l - 262) / 256, (l - 262) % 256;
      assert l == FirstOf(k) + e;
      OuterStepCuts(g.st, ow', i, k, e, off, data, n, clean);
      AppendingIs(g.st, ow', i, l, off);
      var ws := OuterStepWrites(g.st, i, k, e, off, data);
      CutsFrom(st, g.st, g.st, ws, i, n, clean);
      CutsJoin(st, st, NeedWrites(st, i, Ind2), ws, i, n, clean);
    } else {
      StopFullDouble(st, i, l, off, data);
      assert NeedWrites(st, i, Ind2) + [] == NeedWrites(st, i, Ind2);
    }
  }

  lemma StopFullDouble(st: Store, i: nat, l: nat, off: nat, data: seq<byte>)
    requires Sized(st) && i < |st.inodes| && 262 <= l < 65798 && Grow(st, i, Ind2).Full?
    ensures WriteStep(st, i, l, off, data) == Stop(Grow(st, i, Ind2).st)
  {
    hide Grow;
  }

  /** What is written with the double-indirect block there. */
  function OuterStepWrites(st: Store, i: nat, k: nat, e: nat, off: nat, data: seq<byte>): seq<DevWrite>
    requires Sized(st) && i < |st.inodes| && k < 256 && e < 256
  {
    OuterNeed(st, i, k) + match Grow(st, i, Outer(k))
      case Full(_) => []
      case Ok(g) => InnerWrites(g, i, k, e, off, data)
  }

  lemma OuterStepCuts(st: Store, ow: Owners, i: nat, k: nat, e: nat, off: nat, data: seq<byte>, n: nat, clean: bool)
    requires k < 256 && e < 256 && Appending(st, ow, i, FirstOf(k) + e, off) && T(st, i, Ind2) != 0
    requires var s := WriteStep(st, i, FirstOf(k) + e, off, data); s.Wrote? ==> n == s.k
    ensures Cuts(st, st, OuterStepWrites(st, i, k, e, off, data), i, n, clean)
    ensures ShownAll(st, OuterStepWrites(st, i, k, e, off, data)) == WriteStep(st, i, FirstOf(k) + e, off, data).st
  {
    hide Appending, Cuts, ShownAll, WriteStep, Grow, Kept, T, OuterNeed, EntryWrites, GrowClean, StepClean, InPlace, FirstOf,
      NextIndex;
    var l := FirstOf(k) + e;
    AppendingIs(st, ow, i, l, off);
    OuterNext(st, i, k, e);
    var g := Grow(st, i, Outer(k));
    CleanToGrow(st, i, l, Outer(k));
    OuterCuts(st, ow, i, k, n, clean);
    if g.Ok? {
      var ow' := IndexGrown(st, ow, i, l, Outer(k), off, data);
      AppendingIs(g.st, ow', i, l, off);
      var b := T(g.st, i, Outer(k));
      PlaceIs(g.st, ow', i, k);
      EntryCuts(g.st, ow', i, k, b, e, off, data, n, clean);
      var ws := EntryWrites(g.st, i, b, g.st.blocks[b], e, off, data);
      CutsFrom(st, g.st, g.st, ws, i, n, clean);
      CutsJoin(st, st, OuterNeed(st, i, k), ws, i, n, clean);
    } else {
      StopFullOuter(st, i, k, e, off, data);
      assert OuterNeed(st, i, k) + [] == OuterNeed(st, i, k);
    }
  }

  lemma OuterNext(st: Store, i: nat, k: nat, e: nat)
    requires i < |st.inodes| && k < 256 && e < 256 && T(st, i, Ind2) != 0
    ensures NextIndex(st, i, FirstOf(k) + e, Outer(k))
  {
    hide T;
  }

  lemma StopFullOuter(st: Store, i: nat, k: nat, e: nat, off: nat, data: seq<byte>)
    requires Sized(st) && i < |st.inodes| && k < 256 && e < 256 && Grow(st, i, Outer(k)).Full? && T(st, i, Ind2) != 0
    ensures WriteStep(st, i, FirstOf(k) + e, off, data) == Stop(Grow(st, i, Outer(k)).st)
  {
    GrowFull(st, i, Ind2);
    hide Grow, T;
    assert OuterOf(FirstOf(k) + e) == Outer(k);
  }

  lemma PlaceIs(st: Store, ow: Owners, i: nat, k: nat)
    requires Good(st, ow) && Live(st, i) && k < 256 && T(st, i, Ind2) != 0 && T(st, i, Outer(k)) != 0
    ensures T(st, i, Outer(k)) < |st.blocks| && InPlace(st, i, k, T(st, i, Outer(k)))
  {
    SoundClean(st, ow);
    hide Target;
    assert T(st, i, Outer(k)) < |st.blocks|;
  }

  /** Between any two device writes made for one logical block of an append the
      rest of the store is as it was, the file has its old bytes, and it is as
      long as before or already as long as after. */
  lemma StepCuts(st: Store, ow: Owners, i: nat, l: nat, off: nat, data: seq<byte>, n: nat, clean: bool)
    requires Appending(st, ow, i, l, off) && (clean ==> FreeClean(st))
    requires var s := WriteStep(st, i, l, off, data); s.Wrote? ==> n == s.k
    ensures Cuts(st, st, StepWrites(st, i, l, off, data), i, n, clean)
    ensures ShownAll(st, StepWrites(st, i, l, off, data)) == WriteStep(st, i, l, off, data).st
  {
    hide Appending, Cuts, ShownAll, WriteStep, FreeClean, LowWrites;
    if l < 262 {
      LowCuts(st, ow, i, l, off, data, n, clean);
    } else {
      HighCuts(st, ow, i, l, off, data, n, clean);
    }
  }

  // ---- the whole call ----

  /** Only file i differs, and it has its old bytes, then a prefix of the data,
      then at most one block of bytes counted before they were written. */
  ghost predicate Ahead(st: Store, m: Store, i: nat, data: seq<byte>, clean: bool)
    requires i < |st.inodes|
  {
    && OthersSame(st, m, i) && (clean ==> Sound(m))
    && exists n: nat, s: seq<byte> :: PartWritten(st, m, i, data, n, s)
  }

  ghost predicate PartWritten(st: Store, m: Store, i: nat, data: seq<byte>, n: nat, s: seq<byte>)
    requires i < |st.inodes|
  {
    n + |s| <= |data| && |s| <= 1024 && i < |m.inodes| && Contents(m, i) == Contents(st, i) + data[..n] + s
  }

  lemma CutAhead(st: Store, m: Store, i: nat, data: seq<byte>, n: nat, clean: bool)
    requires i < |st.inodes| && Cut(st, m, i, n, clean) && n <= |data| && n <= 1024
    ensures Ahead(st, m, i, data, clean)
  {
    hide OthersSame, Sound, ByteAt;
    assert i < |m.inodes| by { SameLength(st, m, i); }
    var size := st.inodes[i].size;
    var s := Contents(m, i)[size..];
    assert |Contents(m, i)| == m.inodes[i].size && |Contents(st, i)| == size;
    forall x | 0 <= x < size ensures Contents(m, i)[x] == Contents(st, i)[x] {
      assert ByteAt(m, i, x) == ByteAt(st, i, x);
    }
    hide Contents;
    assert Contents(m, i) == Contents(st, i) + data[..0] + s;
    assert PartWritten(st, m, i, data, 0, s);
  }

  lemma SameLength(st: Store, m: Store, i: nat)
    requires i < |st.inodes| && OthersSame(st, m, i)
    ensures i < |m.inodes|
  {
  }

  lemma AheadOn(st: Store, a: Store, m: Store, i: nat, data: seq<byte>, k: nat, clean: bool)
    requires i < |st.inodes| && OthersSame(st, a, i) && i < |a.inodes| && k <= |data|
    requires Contents(a, i) == Contents(st, i) + data[..k] && Ahead(a, m, i, data[k..], clean)
    ensures Ahead(st, m, i, data, clean)
  {
    OthersSameTrans(st, a, m, i);
    hide OthersSame, Sound, Contents, PartWritten;
    var n: nat, s: seq<byte> :| PartWritten(a, m, i, data[k..], n, s);
    PartOn(st, a, m, i, data, k, n, s);
  }

  lemma PartOn(st: Store, a: Store, m: Store, i: nat, data: seq<byte>, k: nat, n: nat, s: seq<byte>)
    requires i < |st.inodes| && i < |a.inodes| && k <= |data| && PartWritten(a, m, i, data[k..], n, s)
    requires Contents(a, i) == Contents(st, i) + data[..k]
    ensures PartWritten(st, m, i, data, k + n, s)
  {
    hide Contents;
    PartsJoin(Contents(st, i), data, k, n, s);
  }

  lemma PartsJoin(c: seq<byte>, data: seq<byte>, k: nat, n: nat, s: seq<byte>)
    requires k + n <= |data|
    ensures c + data[..k] + data[k..][..n] + s == c + data[..k + n] + s
  {
    assert data[..k] + data[k..][..n] == data[..k + n];
  }

  lemma {:induction false} ShownTwo(st: Store, a: seq<DevWrite>, b: seq<DevWrite>)
    ensures ShownAll(st, a + b) == ShownAll(ShownAll(st, a), b)
    decreases |a|
  {
    if a == [] {
      assert a + b == b;
    } else {
      ShownTwo(Shown(st, a[0]), a[1..], b);
      assert (a + b)[1..] == a[1..] + b;
    }
  }

  ghost predicate AtPlace(st: Store, i: nat, l: nat, off: nat)
    requires i < |st.inodes|
  {
    if l < 65798 then AtEnd(st, i, l, off) else st.inodes[i].size == MAX_BYTES
  }

  lemma StepGoesOn(st: Store, ow: Owners, i: nat, l: nat, off: nat, data: seq<byte>) returns (ow': Owners)
    requires Appending(st, ow, i, l, off) && WriteClean(st, i, l, off, data)
    ensures var s := WriteStep(st, i, l, off, data);
            && OthersSame(st, s.st, i) && Good(s.st, ow') && Live(s.st, i) && Shape(s.st, i)
            && (s.Stop? ==> Contents(s.st, i) == Contents(st, i))
            && (s.Wrote? ==> Contents(s.st, i) == Contents(st, i) + data[..s.k] && s.k <= 1024)
            && (s.Wrote? && s.k < |data| ==>
                  && AtPlace(s.st, i, l + 1, NextOff(l, off, s.tb))
                  && WriteClean(s.st, i, l + 1, NextOff(l, off, s.tb), data[s.k..]))
            && (FreeClean(st) ==> FreeClean(s.st))
  {
    hide WriteStep, StepClean, Owned, OthersSame, Shape, Contents, T, FreeClean, Leaked;
    ow' := StepOwned(st, ow, i, l, off, data);
    StepAppend(st, ow, i, l, off, data);
    var s := WriteStep(st, i, l, off, data);
    if s.Wrote? { ContentsSize(st, s.st, i, data[..s.k]); }
    if FreeClean(st) { StepFreeClean(st, ow, i, l, off, data); }
  }

  lemma {:induction false} WriteCuts(st: Store, ow: Owners, i: nat, l: nat, off: nat, data: seq<byte>, clean: bool, k: nat)
    requires Good(st, ow) && Live(st, i) && Shape(st, i) && AtPlace(st, i, l, off) && WriteClean(st, i, l, off, data)
    requires (clean ==> FreeClean(st)) && k <= |WritesFrom(st, i, l, off, data)|
    ensures Ahead(st, ShownAll(st, WritesFrom(st, i, l, off, data)[..k]), i, data, clean)
    decreases |data|, if l < 65798 then 65798 - l else 0
  {
    hide WriteStep, StepClean, Owned, OthersSame, Shape, Contents, T, FreeClean, Cuts, Cut, ShownAll, WritesFrom, StepWrites,
      Ahead, AtEnd;
    SoundClean(st, ow);
    if l < 65798 {
      CleanFirst(st, i, l, off, data);
      var s := WriteStep(st, i, l, off, data);
      var n := if s.Wrote? then s.k else 0;
      StepCuts(st, ow, i, l, off, data, n, clean);
      WritesTurn(st, i, l, off, data);
      var a := StepWrites(st, i, l, off, data);
      var ow' := StepGoesOn(st, ow, i, l, off, data);
      if k <= |a| {
        assert WritesFrom(st, i, l, off, data)[..k] == a[..k];
        CutsAt(st, st, a, i, n, clean, k);
        CutAhead(st, ShownAll(st, a[..k]), i, data, n, clean);
      } else {
        var off' := NextOff(l, off, s.tb);
        var b := WritesFrom(s.st, i, l + 1, off', data[s.k..]);
        assert WritesFrom(st, i, l, off, data)[..k] == a + b[..k - |a|];
        ShownTwo(st, a, b[..k - |a|]);
        WriteCuts(s.st, ow', i, l + 1, off', data[s.k..], clean, k - |a|);
        AheadOn(st, s.st, ShownAll(s.st, b[..k - |a|]), i, data, s.k, clean);
      }
    } else {
      NoneLeft(st, i, l, off, data);
      SelfCut(st, i, 0, clean);
      CutAhead(st, st, i, data, 0, clean);
    }
  }

  lemma NoneLeft(st: Store, i: nat, l: nat, off: nat, data: seq<byte>)
    requires Sized(st) && i < |st.inodes| && l >= 65798
    ensures WritesFrom(st, i, l, off, data) == [] && ShownAll(st, WritesFrom(st, i, l, off, data)[..0]) == st
  {
  }

  lemma CleanFirst(st: Store, i: nat, l: nat, off: nat, data: seq<byte>)
    requires Sized(st) && i < |st.inodes| && l < 65798 && WriteClean(st, i, l, off, data)
    ensures StepClean(st, i, l)
  {
    hide StepClean, WriteStep;
  }

  /** All of them leave the store of the specification. */
  lemma {:induction false} AllShown(st: Store, ow: Owners, i: nat, l: nat, off: nat, data: seq<byte>, done: nat)
    requires Good(st, ow) && Live(st, i) && Shape(st, i) && AtPlace(st, i, l, off) && WriteClean(st, i, l, off, data)
    ensures ShownAll(st, WritesFrom(st, i, l, off, data)) == WriteFrom(st, i, l, off, data, done).st
    decreases |data|, if l < 65798 then 65798 - l else 0
  {
    hide WriteStep, StepClean, Owned, OthersSame, Shape, Contents, T, FreeClean, Cuts, Cut, ShownAll, WritesFrom, StepWrites, AtEnd;
    SoundClean(st, ow);
    if l < 65798 {
      CleanFirst(st, i, l, off, data);
      var s := WriteStep(st, i, l, off, data);
      StepCuts(st, ow, i, l, off, data, if s.Wrote? then s.k else 0, false);
      WritesTurn(st, i, l, off, data);
      var ow' := StepGoesOn(st, ow, i, l, off, data);
      var a := StepWrites(st, i, l, off, data);
      if s.Wrote? && s.k < |data| {
        var b := WritesFrom(s.st, i, l + 1, NextOff(l, off, s.tb), data[s.k..]);
        ShownTwo(st, a, b);
        AllShown(s.st, ow', i, l + 1, NextOff(l, off, s.tb), data[s.k..], done + s.k);
      } else {
        assert a + [] == a;
      }
    } else {
      NoneShown(st, i, l, off, data);
    }
  }

  lemma NoneShown(st: Store, i: nat, l: nat, off: nat, data: seq<byte>)
    requires Sized(st) && i < |st.inodes| && l >= 65798
    ensures ShownAll(st, WritesFrom(st, i, l, off, data)) == st
  {
  }

  // ---- on the tree ----

  /** While blocks have one owner everything a path leads to is marked. */
  lemma SoundMarked(m: Store, w: Wit)
    requires TreeInv(m, w) && Sound(m)
    ensures Marked(m)
  {
    hide TreeInv, O.Resolve, Target, Walk;
    forall q: O.Path ensures O.Resolve(m, 1, q) >= 0 ==> Live(m, O.Resolve(m, 1, q)) {
      ResolveIsWalk(m, w, q);
      WalkLive(m, w, q);
    }
    var ow :| Good(m, ow);
  }

  lemma AheadTree(st: Store, w: Wit, m: Store, i: nat, p: O.Path) returns (w': Wit)
    requires InvW(st, w) && Live(st, i) && !st.inodes[i].isDir && OthersSame(st, m, i) && Walk(st, p) == i
    ensures TreeInv(m, w') && i < |m.inodes| && TreeOf(m) == TreeOf(st)[p := NodeOf(m, i)]
    ensures NodeOf(m, i) == FileNode(Contents(m, i))
  {
    hide TreeInv, TreeOf, Walk, Shapes, Contents;
    FileStays(st, m, i);
    hide OthersSame;
    NotRoot(st, w, i);
    FileOnlySameDirs(st, m, w, i);
    SameDirsTree(st, m, w, w.ow);
    w' := w.(ow := w.ow);
    FileOnlyTree(st, m, w, w', i, p);
  }

  lemma FileStays(st: Store, m: Store, i: nat)
    requires i < |st.inodes| && !st.inodes[i].isDir && OthersSame(st, m, i)
    ensures i < |m.inodes| && NodeOf(m, i) == FileNode(Contents(m, i))
  {
    hide Contents;
  }

  /** The bytes of the file at path are followed by n bytes of the data and some
      bytes s. */
  ghost predicate PartTree(t: AbsTree, path: O.Path, data: seq<byte>, n: nat, s: seq<byte>, t': AbsTree) {
    && path in t && t[path].FileNode? && n + |s| <= |data| && |s| <= 1024
    && t' == t[path := FileNode(t[path].bytes + data[..n] + s)]
  }

  /** The writes of a call that is not refused. */
  lemma AppendWrites(st: Store, ow: Owners, i: nat, data: seq<byte>)
    requires Good(st, ow) && Live(st, i) && Shape(st, i) && st.inodes[i].size < MAX_BYTES
    requires WriteClean(st, i, st.inodes[i].size / 1024, st.inodes[i].size, data)
    ensures var off, l := st.inodes[i].size, st.inodes[i].size / 1024;
            && Sized(st) && l < 65798 && AtEnd(st, i, l, off)
            && FileWrites(st, i, off, data) == WritesFrom(st, i, l, off, data) + [ToInodes(WriteFile(st, i, off, data).st.inodes)]
  {
    hide WriteFrom, LoopWrites, WritesFrom, LoopsFrom, WriteClean, Shape, Owned, Sound;
    SoundClean(st, ow);
    var off, l := st.inodes[i].size, st.inodes[i].size / 1024;
    LoopsLog(st, i, l, off, data);
    LoopsAgree(st, i, l, off, data, 0);
  }

  /** Stopping it after k of them: the last one changes nothing any more. */
  lemma FileCuts(st: Store, ow: Owners, i: nat, data: seq<byte>, clean: bool, k: nat)
    requires Good(st, ow) && Live(st, i) && Shape(st, i) && st.inodes[i].size < MAX_BYTES && (clean ==> FreeClean(st))
    requires WriteClean(st, i, st.inodes[i].size / 1024, st.inodes[i].size, data)
    requires Sized(st) && k <= |FileWrites(st, i, st.inodes[i].size, data)|
    ensures var off, ws := st.inodes[i].size, FileWrites(st, i, st.inodes[i].size, data);
            && Ahead(st, ShownAll(st, ws[..k]), i, data, clean)
            && (k == |ws| ==> ShownAll(st, ws[..k]) == WriteFile(st, i, off, data).st)
  {
    hide WriteFrom, FileWrites, WritesFrom, WriteClean, Shape, Owned, Ahead, ShownAll, FreeClean, Shown;
    AppendWrites(st, ow, i, data);
    var off, l := st.inodes[i].size, st.inodes[i].size / 1024;
    var a, r := WritesFrom(st, i, l, off, data), WriteFile(st, i, off, data);
    var ws := FileWrites(st, i, off, data);
    if k <= |a| {
      assert ws[..k] == a[..k];
      WriteCuts(st, ow, i, l, off, data, clean, k);
    } else {
      assert ws[..k] == a + [ToInodes(r.st.inodes)] && a[..|a|] == a;
      WriteCuts(st, ow, i, l, off, data, clean, |a|);
      AllShown(st, ow, i, l, off, data, 0);
      ShownTwo(st, a, [ToInodes(r.st.inodes)]);
      TableAgain(r.st);
    }
  }

  lemma TableAgain(st: Store)
    ensures ShownAll(st, [ToInodes(st.inodes)]) == st
  {
    assert [ToInodes(st.inodes)][1..] == [];
  }

  /** An append cut short after any k of its device writes, and the disk mounted
      again: the tree is the old one but for the file written to, which has its
      old bytes, a prefix of the data, and then at most one block of bytes that
      were counted in its size before they were written.  All writes together
      leave the store of the specification.  If the free blocks held no old
      words, everything a path leads to is marked allocated and held once. */
  lemma AppendCrash(disk: Disk, st: Store, path: O.Path, data: seq<byte>, off: nat, k: nat) returns (n: nat, s: seq<byte>)
    requires Mount(disk) == st && Inv(st) && O.Roomy(st) && AppendOk(st, O.Resolve(st, 1, path), data, off)
    requires k <= |WriteWrites(st, path, data, off)|
    ensures var ws := WriteWrites(st, path, data, off);
            var m := Mount(Replay(disk, ws[..k]));
            && (if ws == [] then m == st else PartTree(TreeOf(st), path, data, n, s, TreeOf(m)))
            && (k == |ws| ==> m == O.Write(st, path, data, off).st)
            && (FreeClean(st) ==> Marked(m))
  {
    hide InvW, FileWrites, WriteFile, TreeOf, Marked, O.Resolve, Replay, FreeClean, WriteClean, ShownAll;
    var w :| InvW(st, w);
    n, s := 0, [];
    var i := Resolved(st, w, path);
    var ws := WriteWrites(st, path, data, off);
    MountReplay(disk, ws[..k]);
    if i >= 0 && !st.inodes[i].isDir && off <= st.inodes[i].size {
      n, s := AppendCut(st, w, path, i, data, k);
    } else {
      assert ws == [] && ws[..k] == [];
      NothingShown(st);
      InvMarked(st, w);
    }
  }

  lemma NothingShown(st: Store)
    ensures ShownAll(st, []) == st
  {
  }

  lemma AppendCut(st: Store, w: Wit, path: O.Path, i: nat, data: seq<byte>, k: nat) returns (n: nat, s: seq<byte>)
    requires InvW(st, w) && Sized(st) && O.Resolve(st, 1, path) == i && Live(st, i) && !st.inodes[i].isDir
    requires st.inodes[i].size < MAX_BYTES && WriteClean(st, i, st.inodes[i].size / 1024, st.inodes[i].size, data)
    requires k <= |FileWrites(st, i, st.inodes[i].size, data)|
    ensures var off, ws := st.inodes[i].size, FileWrites(st, i, st.inodes[i].size, data);
            var m := ShownAll(st, ws[..k]);
            && ws != [] && PartTree(TreeOf(st), path, data, n, s, TreeOf(m))
            && (k == |ws| ==> m == WriteFile(st, i, off, data).st) && (FreeClean(st) ==> Marked(m))
  {
    hide TreeInv, Shapes, Owned, FileWrites, WriteFile, TreeOf, Marked, O.Resolve, FreeClean, WriteClean, ShownAll, Shape, Walk,
      OthersSame, Sound, Contents, PartTree;
    assert Good(st, w.ow);
    ShapeOf(st, w, i);
    var x := Resolved(st, w, path);
    AppendWrites(st, w.ow, i, data);
    FileCuts(st, w.ow, i, data, FreeClean(st), k);
    var m := ShownAll(st, FileWrites(st, i, st.inodes[i].size, data)[..k]);
    var w' := AheadTree(st, w, m, i, path);
    if FreeClean(st) { SoundMarked(m, w'); }
    n, s :| PartWritten(st, m, i, data, n, s);
    PartOfTree(st, m, path, i, data, n, s);
  }

  lemma PartOfTree(st: Store, m: Store, path: O.Path, i: nat, data: seq<byte>, n: nat, s: seq<byte>)
    requires i < |st.inodes| && !st.inodes[i].isDir && PartWritten(st, m, i, data, n, s)
    requires path in TreeOf(st) && TreeOf(st)[path] == NodeOf(st, i)
    requires TreeOf(m) == TreeOf(st)[path := NodeOf(m, i)] && NodeOf(m, i) == FileNode(Contents(m, i))
    ensures PartTree(TreeOf(st), path, data, n, s, TreeOf(m))
  {
    hide TreeOf, Contents;
  }

  /** Those bytes are real: after two of the four writes of an append to an empty
      file, the file has as many bytes as the data, and they are the old ones of
      the block that was taken. */
  lemma CountedEarly(st: Store, i: nat, data: seq<byte>)
    requires Sized(st) && i < |st.inodes| && st.inodes[i].size == 0 && st.inodes[i].direct[0] == 0 && 0 < |data| <= 1024
    requires FirstFree(st.blockMap, st.start, |st.blocks|) < |st.blocks|
    ensures var ws, b := FileWrites(st, i, 0, data), FirstFree(st.blockMap, st.start, |st.blocks|);
            |ws| == 4 && i < |ShownAll(st, ws[..2]).inodes| && Contents(ShownAll(st, ws[..2]), i) == st.blocks[b][..|data|]
  {
    hide FirstFree, Contents, FileWrites, ShownAll;
    FirstWrites(st, i, data);
    var b, n, ws := FirstFree(st.blockMap, st.start, |st.blocks|), st.inodes[i], FileWrites(st, i, 0, data);
    var u, v := ToBlockMap(st.blockMap[b := true]), ToInodes(st.inodes[i := n.(size := |data|, direct := n.direct[0 := b])]);
    assert ws[..2] == [u, v];
    FirstTwo(st, u, v);
    EarlyBytes(Shown(Shown(st, u), v), i, b, |data|);
  }

  lemma FirstWrites(st: Store, i: nat, data: seq<byte>)
    requires Sized(st) && i < |st.inodes| && st.inodes[i].size == 0 && st.inodes[i].direct[0] == 0 && 0 < |data| <= 1024
    requires FirstFree(st.blockMap, st.start, |st.blocks|) < |st.blocks|
    ensures var ws, b, n := FileWrites(st, i, 0, data), FirstFree(st.blockMap, st.start, |st.blocks|), st.inodes[i];
            && |ws| == 4 && ws[0] == ToBlockMap(st.blockMap[b := true])
            && ws[1] == ToInodes(st.inodes[i := n.(size := |data|, direct := n.direct[0 := b])])
  {
    hide FirstFree, Stored, LoopWrites, LoopsFrom, WriteStep, DirectWrites;
    DirectWritesAre(st, i, 0, 0, data);
    OneTurn(st, i, data);
  }

  lemma OneTurn(st: Store, i: nat, data: seq<byte>)
    requires Sized(st) && i < |st.inodes| && st.inodes[i].direct[0] == 0 && 0 < |data| <= 1024
    requires FirstFree(st.blockMap, st.start, |st.blocks|) < |st.blocks|
    ensures LoopWrites(st, i, 0, 0, data) == DirectWrites(st, i, 0, 0, data) && LoopsFrom(st, i, 0, 0, data, 0).Ended?
  {
    hide FirstFree, LoopWrites, LoopsFrom, DirectWrites, Stored;
    LowTurn(st, i, 0, 0, data);
    LoopsTurn(st, i, 0, 0, data, 0);
    DirectStepIs(st, i, 0, 0, data);
    hide WriteStep;
    assert DirectWrites(st, i, 0, 0, data) + [] == DirectWrites(st, i, 0, 0, data);
  }

  lemma FirstTwo(st: Store, u: DevWrite, v: DevWrite)
    ensures ShownAll(st, [u, v]) == Shown(Shown(st, u), v)
  {
    assert [u, v][1..] == [v] && [v][1..] == [];
    assert ShownAll(Shown(st, u), [v]) == ShownAll(Shown(Shown(st, u), v), []);
  }

  lemma EarlyBytes(m: Store, i: nat, b: nat, n: nat)
    requires i < |m.inodes| && m.inodes[i].size == n <= 1024 && m.inodes[i].direct[0] == b < |m.blocks|
    ensures Contents(m, i) == m.blocks[b][..n]
  {
    InodePointers(m, i);
    hide Target;
    forall x | 0 <= x < n ensures Contents(m, i)[x] == m.blocks[b][..n][x] { assert x / 1024 == 0; }
  }
}
