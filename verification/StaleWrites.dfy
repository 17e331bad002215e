/** fs_write as an append, from any size and to any length: exactly when it does
    what it should, whatever the second-level blocks it takes used to hold. */
module StaleWrites {
  import opened Layout
  import opened State
  import opened AttachProofs
  import opened FileWrite
  import opened WriteProofs
  import opened WriteTheorems
  import opened WriteSteps
  import opened WriteLoops
  import opened StaleIndex
  import opened StaleFill
  import opened StaleAppends
  import opened StaleNeeds

  /** The blocks a write takes as second-level blocks, in order. */
  function TakesFrom(st: Store, i: nat, l: nat, off: nat, data: seq<byte>, done: nat): seq<nat>
    requires Sized(st) && i < |st.inodes| && l < 65798
    decreases if l < 262 then 262 - l else 0
  {
    if l < 262 then
      match WriteStep(st, i, l, off, data)
      case Stop(_) => []
      case Wrote(s, tb, k) => if k == |data| then [] else TakesFrom(s, i, l + 1, NextOff(l, off, tb), data[k..], done + k)
    else
      match Grow(st, i, Ind2)
      case Full(_) => []
      case Ok(s) =>
        var q := s.inodes[i].indir2;
        if q >= |s.blocks| then []
        else Takes(s, i, s.blocks[q], (l - 262) / 256, (l - 262) % 256, off, data, done, false)
  }

  function FileTakes(st: Store, i: nat, off: nat, data: seq<byte>): seq<nat>
    requires Sized(st) && i < |st.inodes|
  {
    if off / 1024 < 65798 then TakesFrom(st, i, off / 1024, off, data, 0) else TakesFrom(st, i, 6, 0, data, 0)
  }

  /** The first second-level block the end of the file has not. */
  function FirstMissing(st: Store, i: nat): nat
    requires i < |st.inodes|
  {
    var l := st.inodes[i].size / 1024;
    if l < 262 then 0
    else if T(st, i, Outer((l - 262) / 256)) == 0 then (l - 262) / 256 else (l - 262) / 256 + 1
  }

  // ---- the part before the first block is taken ----

  /** From a to b well-formed file i grew by c, and nothing else changed hands. */
  ghost predicate Reaches(a: Store, owa: Owners, b: Store, owb: Owners, i: nat, c: seq<byte>)
    requires i < |a.inodes|
  {
    && Good(b, owb) && Live(b, i) && Shape(b, i) && OthersSame(a, b, i) && FreeKept(a, b) && Sized(a) && Sized(b)
    && Contents(b, i) == Contents(a, i) + c && Leaked(b, owb) == Leaked(a, owa)
  }

  lemma ReachesNot(a: Store, ow: Owners, i: nat)
    requires Good(a, ow) && Live(a, i) && Shape(a, i)
    ensures Reaches(a, ow, a, ow, i, [])
  {
    hide Owned, Contents, Target, Leaked;
    OthersRefl(a, i);
    assert Contents(a, i) + [] == Contents(a, i);
  }

  lemma ReachesTrans(a: Store, owa: Owners, b: Store, owb: Owners, d: Store, owd: Owners, i: nat, c1: seq<byte>, c2: seq<byte>)
    requires i < |a.inodes| && Reaches(a, owa, b, owb, i, c1) && Reaches(b, owb, d, owd, i, c2)
    ensures Reaches(a, owa, d, owd, i, c1 + c2)
  {
    hide Good, Contents, Target, Leaked, OthersSame, Shape;
    OthersSameTrans(a, b, d, i);
    assert Contents(a, i) + c1 + c2 == Contents(a, i) + (c1 + c2);
  }

  lemma ReachesFacts(a: Store, owa: Owners, b: Store, owb: Owners, i: nat, c: seq<byte>)
    requires i < |a.inodes| && Reaches(a, owa, b, owb, i, c)
    ensures Good(b, owb) && Live(b, i) && Shape(b, i) && Sized(b) && |b.inodes| == |a.inodes|
    ensures b.inodes[i].size == a.inodes[i].size + |c| && Contents(b, i) == Contents(a, i) + c
  {
    hide Good, Target, Leaked, Shape, Contents;
    ContentsSize(a, b, i, c);
  }

  /** Free blocks are not touched when one is taken for a pointer. */
  lemma GrowFreeKept(st: Store, ow: Owners, i: nat, loc: Loc)
    requires Good(st, ow) && Live(st, i) && LocOk(loc) && !loc.Outer?
    requires CellOf(loc).InBlock? ==> T(st, i, CellOf(loc).parent) != 0
    ensures FreeKept(st, Grow(st, i, loc).st)
  {
    hide Target, Owned, SetPtr;
    var g := Grow(st, i, loc);
    if g.Ok? && T(st, i, loc) == 0 {
      var b := FirstFree(st.blockMap, st.start, |st.blocks|);
      AttachFields(st, ow, i, loc, b, ZeroBlock);
      AttachOtherBlocks(st, ow, i, loc, b, ZeroBlock);
    }
  }

  lemma PutFreeKept(st: Store, ow: Owners, i: nat, l: nat, tb: nat, c: seq<byte>)
    requires Good(st, ow) && Live(st, i) && tb + |c| <= 1024 && T(st, i, Data(l)) != 0
    ensures FreeKept(st, PutBytes(st, i, l, tb, c))
  {
    hide Target, Splice;
    assert st.blockMap[T(st, i, Data(l))];
  }

  lemma LowFreeKept(st: Store, ow: Owners, i: nat, l: nat, off: nat, data: seq<byte>)
    requires Good(st, ow) && Live(st, i) && l < 262
    ensures FreeKept(st, WriteStep(st, i, l, off, data).st)
  {
    hide Target, NoPointers, Extends, Owned, Grow, PutBytes, FreeKept;
    KeptRefl(st);
    if 6 <= l { GrowFreeKept(st, ow, i, Ind1); }
    var ow1 := GrowIndexOk(st, ow, i, l);
    var g := GrowIndex(st, i, l);
    if g.Ok? {
      ExtendsLive(st, g.st, i);
      GrowFreeKept(g.st, ow1, i, Data(l));
      var ow2 := GrowOk(g.st, ow1, i, Data(l));
      var h := Grow(g.st, i, Data(l));
      KeptTrans(st, g.st, h.st);
      if h.Ok? {
        ExtendsLive(g.st, h.st, i);
        var tb := if T(g.st, i, Data(l)) == 0 then 0 else off % 1024;
        PutFreeKept(h.st, ow2, i, l, tb, data[..Min(1024 - tb, |data|)]);
        KeptTrans(st, h.st, PutBytes(h.st, i, l, tb, data[..Min(1024 - tb, |data|)]));
      }
    }
  }

  lemma KeptRefl(st: Store)
    ensures FreeKept(st, st)
  {
  }

  lemma KeptTrans(a: Store, b: Store, c: Store)
    requires FreeKept(a, b) && FreeKept(b, c)
    ensures FreeKept(a, c)
  {
  }

  /** The double-indirect tier is not touched below it. */
  lemma LowOuter(st: Store, ow: Owners, i: nat, l: nat, off: nat, data: seq<byte>)
    requires Good(st, ow) && Live(st, i) && l < 262
    ensures var r := WriteStep(st, i, l, off, data); T(r.st, i, Outer(0)) == T(st, i, Outer(0))
  {
    hide Target, Owned, Grow, GrowIndex, StepClean, PutBytes, Leaked, Extends;
    StepGrownAt(st, ow, i, l, Outer(0));
    var g := GrowIndex(st, i, l);
    var ow' := StepGrown(st, ow, i, l);
    if g.Ok? {
      var h := Grow(g.st, i, Data(l));
      if h.Ok? {
        ExtendsLive(st, h.st, i);
        var tb := if T(g.st, i, Data(l)) == 0 then 0 else off % 1024;
        PutOk(h.st, ow', i, l, tb, data[..Min(1024 - tb, |data|)]);
      }
    }
  }

  /** One iteration of the direct and single-indirect loops. */
  lemma LowReaches(st: Store, ow: Owners, i: nat, l: nat, off: nat, data: seq<byte>) returns (ow': Owners)
    requires Good(st, ow) && Live(st, i) && Shape(st, i) && l < 262 && AtEnd(st, i, l, off)
    ensures var r := WriteStep(st, i, l, off, data);
            && Reaches(st, ow, r.st, ow', i, if r.Stop? then [] else data[..r.k])
            && T(r.st, i, Outer(0)) == T(st, i, Outer(0))
            && (r.Wrote? && r.k < |data| ==> && r.st.inodes[i].size == (l + 1) * 1024
                                             && AtEnd(r.st, i, l + 1, NextOff(l, off, r.tb)))
  {
    hide Owned, Contents, Target, Leaked, WriteStep, Shape, OthersSame, FreeKept;
    ow' := StepOwned(st, ow, i, l, off, data);
    StepAppend(st, ow, i, l, off, data);
    LowFreeKept(st, ow, i, l, off, data);
    LowOuter(st, ow, i, l, off, data);
    StepSize(st, i, l, off, data);
    assert Contents(st, i) + [] == Contents(st, i);
  }

  /** The loops are over: r ends at s, with m bytes of the data written. */
  ghost predicate Over(r: Loop, bs: seq<nat>, s: Store, data: seq<byte>, m: nat, done: nat) {
    bs == [] && r.Ended? && r.st == s && !r.torn && (r.rc == ENOSPC || (r.rc == done + m && m == |data|))
  }

  /** Where the direct and single-indirect loops, which give r and take bs, lead:
      to an end, or to logical block 262 with data to spare. */
  ghost predicate LowDone(st: Store, ow: Owners, i: nat, r: Loop, bs: seq<nat>, s: Store, ow': Owners, m: nat, data: seq<byte>,
                          done: nat)
    requires i < |st.inodes|
  {
    && m <= |data| && Reaches(st, ow, s, ow', i, data[..m]) && i < |s.inodes| && T(s, i, Outer(0)) == T(st, i, Outer(0))
    && (|| Over(r, bs, s, data, m, done)
        || (m < |data| && Sized(s) && i < |s.inodes| && s.inodes[i].size == 262 * 1024
            && r == LoopsFrom(s, i, 262, 0, data[m..], done + m) && bs == TakesFrom(s, i, 262, 0, data[m..], done + m)))
  }

  lemma LowOn(st: Store, ow: Owners, i: nat, x: Store, ow1: Owners, k: nat, r: Loop, bs: seq<nat>, s: Store, ow': Owners, m: nat,
              data: seq<byte>, done: nat)
    requires i < |st.inodes| && k <= |data| && Reaches(st, ow, x, ow1, i, data[..k]) && i < |x.inodes|
    requires T(x, i, Outer(0)) == T(st, i, Outer(0))
    requires LowDone(x, ow1, i, r, bs, s, ow', m, data[k..], done + k)
    ensures LowDone(st, ow, i, r, bs, s, ow', k + m, data, done)
  {
    hide Reaches, LoopsFrom, TakesFrom, T;
    assert data[..k] + data[k..][..m] == data[..k + m];
    ReachesTrans(st, ow, x, ow1, s, ow', i, data[..k], data[k..][..m]);
    assert data[k..][m..] == data[k + m..];
  }

  lemma TakesTurn(st: Store, i: nat, l: nat, off: nat, data: seq<byte>, done: nat)
    requires Sized(st) && i < |st.inodes| && l < 262
    ensures var s := WriteStep(st, i, l, off, data);
            TakesFrom(st, i, l, off, data, done) ==
            if s.Stop? || s.k == |data| then [] else TakesFrom(s.st, i, l + 1, NextOff(l, off, s.tb), data[s.k..], done + s.k)
  {
    hide WriteStep, Takes, Grow;
  }

  /** Up to logical block 262. */
  lemma {:induction false} LowFills(st: Store, ow: Owners, i: nat, l: nat, off: nat, data: seq<byte>, done: nat)
    returns (s: Store, ow': Owners, m: nat)
    requires Good(st, ow) && Sized(st) && Live(st, i) && Shape(st, i) && l <= 262 && AtEnd(st, i, l, off)
    requires l == 262 ==> st.inodes[i].size == 262 * 1024 && off == 0 && data != []
    ensures LowDone(st, ow, i, LoopsFrom(st, i, l, off, data, done), TakesFrom(st, i, l, off, data, done), s, ow', m, data, done)
    decreases 262 - l
  {
    hide Good, Target, WriteStep, Shape, Reaches, AtEnd, LoopsFrom, TakesFrom;
    s, ow', m := st, ow, 0;
    ReachesNot(st, ow, i);
    assert data[..0] == [] && data[0..] == data;
    if l < 262 {
      LoopsTurn(st, i, l, off, data, done);
      TakesTurn(st, i, l, off, data, done);
      ow' := LowReaches(st, ow, i, l, off, data);
      var x := WriteStep(st, i, l, off, data);
      s := x.st;
      if x.Wrote? {
        m := x.k;
        ReachesFacts(st, ow, s, ow', i, data[..m]);
        if m < |data| {
          var ow1, m1 := ow', 0;
          hide LowDone;
          s, ow', m1 := LowFills(x.st, ow1, i, l + 1, NextOff(l, off, x.tb), data[m..], done + m);
          LowOn(st, ow, i, x.st, ow1, m, LoopsFrom(st, i, l, off, data, done), TakesFrom(st, i, l, off, data, done), s, ow', m1,
              data, done);
          m := m + m1;
        }
      }
    }
  }

  // ---- the double-indirect tier ----

  /** The double-indirect block is there, or taken and zeroed. */
  lemma IndirectStarts(st: Store, ow: Owners, i: nat, l: nat, off: nat, data: seq<byte>, done: nat) returns (s: Store, ow': Owners)
    requires Good(st, ow) && Sized(st) && Live(st, i) && Shape(st, i) && 262 <= l < 65798 && AtEnd(st, i, l, off)
    ensures Reaches(st, ow, s, ow', i, [])
    ensures var r, bs := LoopsFrom(st, i, l, off, data, done), TakesFrom(st, i, l, off, data, done);
            || Over(r, bs, s, data, 0, done)
            || (&& Sized(s) && i < |s.inodes| && T(s, i, Ind2) != 0 && AtEnd(s, i, l, off)
               && FirstMissing(s, i) == FirstMissing(st, i)
                && s.inodes[i].indir2 < |s.blocks|
                && r == FillOuter(s, i, s.blocks[s.inodes[i].indir2], (l - 262) / 256, (l - 262) % 256, off, data, done, false)
                && bs == Takes(s, i, s.blocks[s.inodes[i].indir2], (l - 262) / 256, (l - 262) % 256, off, data, done, false))
  {
    hide Good, Target, Reaches, FillOuter, Takes, Grow, Shape;
    var g := Grow(st, i, Ind2);
    s, ow' := g.st, ow;
    ReachesNot(st, ow, i);
    if g.Ok? {
      ow' := GrownReaches(st, ow, i);
      InodePointers(s, i);
      IndirectInRange(s, ow', i);
    } else {
      GrowFull(st, i, Ind2);
      FullSame(st, i);
    }
  }

  lemma FullSame(st: Store, i: nat)
    requires Sized(st) && i < |st.inodes| && Grow(st, i, Ind2).Full?
    ensures Grow(st, i, Ind2).st == st
  {
    hide Target;
  }

  lemma IndirectInRange(st: Store, ow: Owners, i: nat)
    requires Good(st, ow) && Live(st, i)
    ensures T(st, i, Ind2) != 0 ==> T(st, i, Ind2) < |st.blocks|
  {
    hide Target;
  }

  lemma GrownReaches(st: Store, ow: Owners, i: nat) returns (ow': Owners)
    requires Good(st, ow) && Sized(st) && Live(st, i) && Shape(st, i) && st.inodes[i].size >= 262 * 1024 && Grow(st, i, Ind2).Ok?
    ensures var s := Grow(st, i, Ind2).st;
            && Reaches(st, ow, s, ow', i, []) && i < |s.inodes| && s.inodes[i].size == st.inodes[i].size && T(s, i, Ind2) != 0
            && Good(s, ow') && Live(s, i)
            && forall m :: m != Ind2 ==> T(s, i, m) == T(st, i, m)
  {
    hide Owned, Target, Grow, Contents, Leaked, Extends, FreeKept;
    ow' := GrowOk(st, ow, i, Ind2);
    var s := Grow(st, i, Ind2).st;
    GrowFreeKept(st, ow, i, Ind2);
    ExtendsOthers(st, s, i);
    ExtendsInode(st, s, i);
    ExtendsContents(st, s, i, i);
    assert Contents(st, i) + [] == Contents(st, i);
  }

  /** A block of the double-indirect tier hangs from a second-level block. */
  lemma IndexAbove(st: Store, i: nat, l: nat)
    requires i < |st.inodes| && 262 <= l < 65798 && T(st, i, Data(l)) != 0
    ensures T(st, i, OuterOf(l)) != 0
  {
    TargetCell(st.inodes[i], st.blocks, Data(l));
  }

  lemma BoundaryIs(st: Store, i: nat, l: nat)
    requires i < |st.inodes| && Shape(st, i) && 262 <= l < 65798 && l == st.inodes[i].size / 1024 && T(st, i, Ind2) != 0
    requires T(st, i, OuterOf(l)) == 0
    ensures (l - 262) % 256 == 0 && Boundary(st, i, (l - 262) / 256)
  {
    hide Target;
    var k, e := (l - 262) / 256, (l - 262) % 256;
    if e > 0 || st.inodes[i].size % 1024 > 0 {
      var l' := if e > 0 then l - 1 else l;
      assert T(st, i, Data(l')) != 0;
      IndexAbove(st, i, l');
    }
  }

  /** The rest of a second-level block that is there. */
  lemma PresentFills(st: Store, ow: Owners, i: nat, l: nat, off: nat, data: seq<byte>, done: nat)
    returns (s: Store, ow': Owners, m: nat)
    requires Good(st, ow) && Sized(st) && Live(st, i) && Shape(st, i) && 262 <= l < 65798 && AtEnd(st, i, l, off)
    requires T(st, i, Ind2) != 0 && T(st, i, OuterOf(l)) != 0 && st.inodes[i].indir2 < |st.blocks|
    ensures m <= |data| && Reaches(st, ow, s, ow', i, data[..m])
    ensures var d, k := st.blocks[st.inodes[i].indir2], (l - 262) / 256;
            var r := FillOuter(st, i, d, k, (l - 262) % 256, off, data, done, false);
            var bs := Takes(st, i, d, k, (l - 262) % 256, off, data, done, false);
            || Over(r, bs, s, data, m, done)
            || (&& Sized(s) && i < |s.inodes| && Boundary(s, i, k + 1) && s.inodes[i].indir2 < |s.blocks|
                && r == FillOuter(s, i, s.blocks[s.inodes[i].indir2], k + 1, 0, off, data[m..], done + m, false)
                && bs == Takes(s, i, s.blocks[s.inodes[i].indir2], k + 1, 0, off, data[m..], done + m, false))
  {
    hide Good, Target, Reaches, FillEntries, Contents, Leaked, OthersSame, EntriesGrew, Shape, FirstFree;
    var d, k, e := st.blocks[st.inodes[i].indir2], (l - 262) / 256, (l - 262) % 256;
    var b := T(st, i, Outer(k));
    PresentPlace(st, ow, i, l, off, b);
    OuterIs(st, i, k);
    ow' := EntriesFill(st, ow, i, k, b, e, off, data, done, false);
    var r := FillEntries(st, i, b, st.blocks[b], e, off, data, done, false);
    s := r.st;
    PresentGrew(st, ow, i, k, b, r, ow', data, done);
    m := s.inodes[i].size - st.inodes[i].size;
  }

  lemma PresentPlace(st: Store, ow: Owners, i: nat, l: nat, off: nat, b: nat)
    requires Good(st, ow) && Sized(st) && Live(st, i) && Shape(st, i) && 262 <= l < 65798 && AtEnd(st, i, l, off)
    requires T(st, i, Ind2) != 0 && T(st, i, OuterOf(l)) == b != 0
    ensures InPlace(st, i, (l - 262) / 256, b) && Filling(st, i, l, off) && 0 < st.inodes[i].indir2 < |st.blocks|
    ensures FirstOf((l - 262) / 256) + (l - 262) % 256 == l
  {
    hide Target;
    assert Sound(st);
    InodePointers(st, i);
    assert T(st, i, Ind2) < |st.blocks| && b < |st.blocks|;
    hide Owned;
    forall m: nat | l <= m < 65798 && T(st, i, Data(m)) != 0
      ensures off % 1024 == if m == l then st.inodes[i].size % 1024 else 0
    {
      assert FirstBlock(Data(m)) * 1024 <= st.inodes[i].size;
    }
  }

  lemma PresentGrew(st: Store, ow: Owners, i: nat, k: nat, b: nat, r: Loop, ow': Owners, data: seq<byte>, done: nat)
    requires Good(st, ow) && Sized(st) && Live(st, i) && Shape(st, i) && k < 256
             && st.inodes[i].indir2 < |st.blocks| == |r.st.blocks|
    requires EntriesGrew(st, ow, i, k, b, r, ow', data, done, false) && T(st, i, Ind2) != 0 && InPlace(st, i, k, b)
    requires st.inodes[i].size < FirstOf(k + 1) * 1024
    ensures i < |r.st.inodes| && 0 <= r.st.inodes[i].size - st.inodes[i].size <= |data|
    ensures var m := r.st.inodes[i].size - st.inodes[i].size;
            && Reaches(st, ow, r.st, ow', i, data[..m]) && !r.Stopped? && !r.torn
            && (r.Ended? ==> r.rc == ENOSPC || (r.rc == done + m && m == |data|))
            && (r.More? ==> && Boundary(r.st, i, k + 1) && r.data == data[m..] && r.done == done + m
                            && r.st.inodes[i].indir2 == st.inodes[i].indir2
                            && r.st.blocks[st.inodes[i].indir2] == st.blocks[st.inodes[i].indir2])
  {
    hide Good, Target, Contents, Leaked, OthersSame, FreeKept, Sound;
    GoodSized(r.st, ow');
    var s := r.st;
    forall m | T(s, i, m) != 0 ensures FirstBlock(m) * 1024 <= s.inodes[i].size && (m.Outer? ==> m.k <= k) {
      assert T(s, i, m) == T(st, i, m) || (m.Data? && FirstBlock(m) * 1024 <= s.inodes[i].size);
    }
  }

  // ---- the whole write ----

  /** Whether the variable offset is 0 within blocks once a block is taken: it is
      kept through the double-indirect loops (main.c:1281-1330). */
  predicate Aligned(st: Store, i: nat)
    requires i < |st.inodes|
  {
    st.inodes[i].size < 262 * 1024 || st.inodes[i].size % 1024 == 0
  }

  /** How many words of the blocks taken a file of that size may use. */
  function Usable(st: Store, i: nat, size: nat): int
    requires i < |st.inodes|
  {
    size / 1024 + 1 - FirstOf(FirstMissing(st, i))
  }

  /** Where the loops lead before any block is taken. */
  ghost predicate Arrives(st: Store, ow: Owners, i: nat, r: Loop, bs: seq<nat>, s: Store, ow': Owners, off: nat, m: nat,
                          data: seq<byte>, done: nat)
    requires i < |st.inodes|
  {
    && m <= |data| && Reaches(st, ow, s, ow', i, data[..m])
    && (|| Over(r, bs, s, data, m, done)
        || (var k := FirstMissing(st, i);
            && i < |s.inodes| && Boundary(s, i, k) && s.inodes[i].indir2 < |s.blocks| && Sized(s)
            && r == FillOuter(s, i, s.blocks[s.inodes[i].indir2], k, 0, off, data[m..], done + m, false)
            && bs == Takes(s, i, s.blocks[s.inodes[i].indir2], k, 0, off, data[m..], done + m, false)))
  }

  lemma DoubleArrives(st: Store, ow: Owners, i: nat, l: nat, off: nat, data: seq<byte>, done: nat)
    returns (s: Store, ow': Owners, m: nat)
    requires Good(st, ow) && Sized(st) && Live(st, i) && Shape(st, i) && 262 <= l < 65798 && AtEnd(st, i, l, off)
    ensures Arrives(st, ow, i, LoopsFrom(st, i, l, off, data, done), TakesFrom(st, i, l, off, data, done), s, ow', off, m, data,
               done)
  {
    hide Good, Target, Reaches, FillOuter, Takes, Shape, LoopsFrom, TakesFrom, Boundary;
    var s1, ow1 := IndirectStarts(st, ow, i, l, off, data, done);
    ReachesFacts(st, ow, s1, ow1, i, []);
    s, ow', m := s1, ow1, 0;
    assert data[..0] == [] && data[0..] == data;
    if !Over(LoopsFrom(st, i, l, off, data, done), TakesFrom(st, i, l, off, data, done), s1, data, 0, done) {
      if T(s1, i, OuterOf(l)) == 0 {
        BoundaryIs(s1, i, l);
      } else {
        s, ow', m := PresentFills(s1, ow1, i, l, off, data, done);
        assert [] + data[..m] == data[..m];
        ReachesTrans(st, ow, s1, ow1, s, ow', i, [], data[..m]);
      }
    }
  }

  lemma FileArrives(st: Store, ow: Owners, i: nat, data: seq<byte>) returns (s: Store, ow': Owners, off: nat, m: nat)
    requires Good(st, ow) && Sized(st) && Live(st, i) && Shape(st, i) && st.inodes[i].size < MAX_BYTES
    ensures Arrives(st, ow, i, LoopsFile(st, i, st.inodes[i].size, data), FileTakes(st, i, st.inodes[i].size, data), s, ow', off,
               m, data, 0)
    ensures Aligned(st, i) ==> off % 1024 == 0
  {
    hide Good, Target, Reaches, FillOuter, Takes, Shape, LoopsFrom, TakesFrom, Boundary;
    off := st.inodes[i].size;
    if off / 1024 >= 262 {
      s, ow', m := DoubleArrives(st, ow, i, off / 1024, off, data, 0);
    } else {
      s, ow', m := LowFills(st, ow, i, off / 1024, off, data, 0);
      off := 0;
      var r, bs := LoopsFile(st, i, st.inodes[i].size, data), FileTakes(st, i, st.inodes[i].size, data);
      if !Over(r, bs, s, data, m, 0) {
        var s1, ow1, m1 := s, ow', 0;
        ReachesFacts(st, ow, s1, ow1, i, data[..m]);
        FirstOuterNull(st, i);
        s, ow', m1 := DoubleArrives(s1, ow1, i, 262, 0, data[m..], m);
        ArrivesOn(st, ow, i, s1, ow1, m, r, bs, s, ow', 0, m1, data);
        m := m + m1;
      }
    }
  }

  lemma FirstOuterNull(st: Store, i: nat)
    requires i < |st.inodes| && Shape(st, i) && st.inodes[i].size < 262 * 1024
    ensures T(st, i, Outer(0)) == 0
  {
    hide Target;
  }

  lemma ArrivesOn(st: Store, ow: Owners, i: nat, s1: Store, ow1: Owners, k: nat, r: Loop, bs: seq<nat>, s: Store, ow': Owners,
                  off: nat,
                  m: nat, data: seq<byte>)
    requires i < |st.inodes| && i < |s1.inodes| && k <= |data| && Reaches(st, ow, s1, ow1, i, data[..k])
    requires Arrives(s1, ow1, i, r, bs, s, ow', off, m, data[k..], k) && FirstMissing(s1, i) == FirstMissing(st, i)
    ensures Arrives(st, ow, i, r, bs, s, ow', off, k + m, data, 0)
  {
    hide Reaches, FillOuter, Takes, Boundary, FirstMissing;
    assert data[..k] + data[k..][..m] == data[..k + m];
    ReachesTrans(st, ow, s1, ow1, s, ow', i, data[..k], data[k..][..m]);
    assert data[k..][m..] == data[k + m..];
  }

  /** The call did what an append should, with n bytes. */
  ghost predicate Appended(st: Store, i: nat, r: Loop, bs: seq<nat>, data: seq<byte>)
    requires i < |st.inodes| && FirstMissing(st, i) <= 256
  {
    && r.Ended? && i < |r.st.inodes| && 0 <= r.st.inodes[i].size - st.inodes[i].size <= |data|
    && Appends(st, r.st, i, FirstMissing(st, i), bs, data[..r.st.inodes[i].size - st.inodes[i].size])
  }

  /** What else it left alone and reports. */
  ghost predicate Reported(st: Store, i: nat, r: Loop, data: seq<byte>)
    requires i < |st.inodes|
  {
    && r.Ended? && !r.torn && OthersSame(st, r.st, i)
    && (var n := r.st.inodes[i].size - st.inodes[i].size;
        r.rc == ENOSPC || (r.rc == n && (n == |data| || r.st.inodes[i].size == MAX_BYTES)))
  }

  /** The words and the leaked blocks are as they were before the call. */
  lemma AdoptsSame(st: Store, ow: Owners, s: Store, ow': Owners, i: nat, c: seq<byte>, bs: seq<nat>, n: int, n': int)
    requires i < |st.inodes| && Reaches(st, ow, s, ow', i, c) && n == n'
    requires forall b :: b in bs ==> b < |s.blocks| && !s.blockMap[b]
    ensures Adopts(st, ow, bs, n) <==> Adopts(s, ow', bs, n')
    ensures NullWords(st, bs) <==> NullWords(s, bs)
  {
    hide Good, Shape, OthersSame, Contents, Leaked, Ptr;
    forall x: nat | x < 256 * |bs| ensures Word(s, bs, x) == Word(st, bs, x) {
      assert bs[x / 256] in bs;
      assert s.blocks[bs[x / 256]] == st.blocks[bs[x / 256]];
    }
    hide FreeKept, Word;
  }

  lemma AppendsOver(st: Store, ow: Owners, s: Store, ow': Owners, i: nat, r: Loop, bs: seq<nat>, m: nat, data: seq<byte>)
    requires i < |st.inodes| && FirstMissing(st, i) <= 256 && m <= |data| && Reaches(st, ow, s, ow', i, data[..m])
    requires Over(r, bs, s, data, m, 0)
    ensures Appended(st, i, r, bs, data) && Reported(st, i, r, data) && forall n :: Adopts(st, ow, bs, n)
  {
    ReachesFacts(st, ow, s, ow', i, data[..m]);
    hide Good, Shape, OthersSame, Contents, Leaked, Word, FreeKept, FirstMissing;
    assert WellOwned(s, i);
  }

  lemma AppendsOn(st: Store, ow: Owners, s: Store, ow': Owners, i: nat, k: nat, f: Store, bs: seq<nat>, m: nat, n: nat,
                  data: seq<byte>)
    requires i < |st.inodes| && m <= |data| && n <= |data| - m && Reaches(st, ow, s, ow', i, data[..m])
    ensures Appends(s, f, i, k, bs, data[m..][..n]) <==> Appends(st, f, i, k, bs, data[..m + n])
  {
    ReachesFacts(st, ow, s, ow', i, data[..m]);
    hide Reaches, Good, Shape, Contents, WellOwned, TakenStay;
    assert data[..m + n] == data[..m] + data[m..][..n];
    if i < |f.inodes| {
      assert Contents(st, i) + data[..m] + data[m..][..n] == Contents(st, i) + (data[..m] + data[m..][..n]);
    }
  }

  lemma CleanOn(st: Store, ow: Owners, s: Store, ow': Owners, i: nat, r: Loop, ow2: Owners, m: nat, data: seq<byte>)
    requires i < |st.inodes| && m <= |data| && Reaches(st, ow, s, ow', i, data[..m]) && i < |s.inodes|
    requires LoopsGrew(s, i, r, ow2, data[m..], m, false)
    ensures Reported(st, i, r, data)
  {
    ReachesFacts(st, ow, s, ow', i, data[..m]);
    hide Good, Shape, Contents, PointersKept, FreeKept;
    OthersSameTrans(st, s, r.st, i);
  }

  lemma MissingBound(st: Store, i: nat)
    requires i < |st.inodes| && st.inodes[i].size < MAX_BYTES
    ensures FirstMissing(st, i) <= 256
  {
    hide Target;
  }

  /** The part from the boundary on. */
  ghost predicate AtBoundary(st: Store, ow: Owners, i: nat, data: seq<byte>, r: Loop, bs: seq<nat>, s: Store, ow': Owners,
                             off: nat, m: nat)
    requires i < |st.inodes|
  {
    var k := FirstMissing(st, i);
    && m <= |data| && Reaches(st, ow, s, ow', i, data[..m]) && (Aligned(st, i) ==> off % 1024 == 0)
    && i < |s.inodes| && Boundary(s, i, k) && 0 < s.inodes[i].indir2 < |s.blocks| && Sized(s) && k <= 256
    && r == FillOuter(s, i, s.blocks[s.inodes[i].indir2], k, 0, off, data[m..], m, false)
    && bs == Takes(s, i, s.blocks[s.inodes[i].indir2], k, 0, off, data[m..], m, false)
  }

  lemma BoundaryCounts(st: Store, ow: Owners, i: nat, data: seq<byte>, r: Loop, bs: seq<nat>, s: Store, ow': Owners, off: nat,
                       m: nat)
    returns (n: nat)
    requires i < |st.inodes| && AtBoundary(st, ow, i, data, r, bs, s, ow', off, m)
    ensures m + n <= |data| && i < |r.st.inodes| && OnlySize(s, r.st, i, n) && |s.inodes| == |st.inodes|
    ensures r.st.inodes[i].size == st.inodes[i].size + m + n && Usable(st, i, r.st.inodes[i].size) == n / 1024 + 1
    ensures Good(s, ow') && Live(s, i) && forall b :: b in bs ==> b < |s.blocks| && !s.blockMap[b]
  {
    hide Good, Reaches, FillOuter, Takes, Aligned, Boundary, FirstMissing, Usable, Counted, OnlySize;
    ReachesFacts(st, ow, s, ow', i, data[..m]);
    var d, k := s.blocks[s.inodes[i].indir2], FirstMissing(st, i);
    OuterCounted(s, i, d, k, 0, off, data[m..], m, false);
    n := CountedIs(s, i, r, data[m..], m);
    TakesFree(s, i, d, k, 0, off, data[m..], m, false);
    BoundaryNull(s, i, k);
    UsableIs(st, i, m, n);
  }

  lemma CountedIs(s: Store, i: nat, r: Loop, data: seq<byte>, done: nat) returns (n: nat)
    requires i < |s.inodes| && Counted(s, i, r, data, done)
    ensures n <= |data| && i < |r.st.inodes| && OnlySize(s, r.st, i, n) && r.st.inodes[i].size == s.inodes[i].size + n
  {
    n := r.st.inodes[i].size - s.inodes[i].size;
  }

  lemma UsableIs(st: Store, i: nat, m: nat, n: nat)
    requires i < |st.inodes| && st.inodes[i].size + m == FirstOf(FirstMissing(st, i)) * 1024
    ensures Usable(st, i, st.inodes[i].size + m + n) == n / 1024 + 1
  {
    hide FirstMissing;
  }

  lemma BoundaryNeeds(st: Store, ow: Owners, i: nat, data: seq<byte>, r: Loop, bs: seq<nat>, s: Store, ow': Owners, off: nat,
                      m: nat)
    requires i < |st.inodes| && AtBoundary(st, ow, i, data, r, bs, s, ow', off, m) && Appended(st, i, r, bs, data)
    ensures Sized(st) && Adopts(st, ow, bs, Usable(st, i, r.st.inodes[i].size))
  {
    hide Good, Reaches, FillOuter, Takes, Boundary, Adopts, Aligned, FirstMissing, Usable, Appends, OnlySize;
    var n := BoundaryCounts(st, ow, i, data, r, bs, s, ow', off, m);
    var k := FirstMissing(st, i);
    AppendsOn(st, ow, s, ow', i, k, r.st, bs, m, n, data);
    AppendsAdopts(s, ow', i, k, off, data[m..], m, n);
    ReachesSized(st, ow, s, ow', i, data[..m]);
    AdoptsSame(st, ow, s, ow', i, data[..m], bs, Usable(st, i, r.st.inodes[i].size), n / 1024 + 1);
  }

  lemma ReachesSized(st: Store, ow: Owners, s: Store, ow': Owners, i: nat, c: seq<byte>)
    requires i < |st.inodes| && Reaches(st, ow, s, ow', i, c)
    ensures Sized(st)
  {
  }

  lemma BoundaryFills(st: Store, ow: Owners, i: nat, data: seq<byte>, r: Loop, bs: seq<nat>, s: Store, ow': Owners, off: nat,
                      m: nat)
    requires i < |st.inodes| && AtBoundary(st, ow, i, data, r, bs, s, ow', off, m) && Sized(st) && i < |r.st.inodes|
    requires Adopts(st, ow, bs, Usable(st, i, r.st.inodes[i].size)) && (Aligned(st, i) || NullWords(st, bs))
    ensures Appended(st, i, r, bs, data) && Reported(st, i, r, data)
  {
    hide Good, Reaches, FillOuter, Takes, Boundary, Adopts, Aligned, FirstMissing, Usable, OnlySize, NullWords, LoopsGrew, Reported;
    var n := BoundaryCounts(st, ow, i, data, r, bs, s, ow', off, m);
    var k := FirstMissing(st, i);
    AdoptsSame(st, ow, s, ow', i, data[..m], bs, Usable(st, i, r.st.inodes[i].size), n / 1024 + 1);
    SizeOf(s, r.st, i, n);
    var ow2 := OuterFills(s, ow', i, k, off, data[m..], m, false);
    GrewAppends(s, i, k, r, ow2, data[m..], m, bs, n);
    AppendsOn(st, ow, s, ow', i, k, r.st, bs, m, n, data);
    CleanOn(st, ow, s, ow', i, r, ow2, m, data);
  }

  lemma SizeOf(a: Store, b: Store, i: nat, n: int)
    requires i < |a.inodes| && OnlySize(a, b, i, n)
    ensures i < |b.inodes| && b.inodes[i].size == a.inodes[i].size + n
  {
  }

  lemma GrewAppends(s: Store, i: nat, k: nat, r: Loop, ow: Owners, data: seq<byte>, done: nat, bs: seq<nat>, n: nat)
    requires i < |s.inodes| && LoopsGrew(s, i, r, ow, data, done, false) && TakenStay(r.st, i, k, bs)
    requires i < |r.st.inodes| && r.st.inodes[i].size == s.inodes[i].size + n
    ensures n <= |data| && Appends(s, r.st, i, k, bs, data[..n]) && r.Ended?
  {
    hide Good, Shape, Contents, PointersKept, TakenStay, OthersSame;
  }

  /** Whatever the second-level blocks an append takes used to hold: it leaves the
      file well formed and exclusively owned, with the bytes it wrote at the end
      and the blocks it took in place, only if their old words are null or, where
      the file reaches, name leaked blocks, each one once; and this is enough, if
      the writing starts at a block's end or below the double-indirect tier, or
      if the words are null. */
  lemma AppendNeedsAndFills(st: Store, ow: Owners, i: nat, data: seq<byte>)
    requires Good(st, ow) && Live(st, i) && Shape(st, i) && st.inodes[i].size < MAX_BYTES
    ensures Sized(st) && FirstMissing(st, i) <= 256
    ensures var r, bs := LoopsFile(st, i, st.inodes[i].size, data), FileTakes(st, i, st.inodes[i].size, data);
            && i < |r.st.inodes|
            && (Appended(st, i, r, bs, data) ==> Adopts(st, ow, bs, Usable(st, i, r.st.inodes[i].size)))
            && (Adopts(st, ow, bs, Usable(st, i, r.st.inodes[i].size)) && (Aligned(st, i) || NullWords(st, bs)) ==>
                  Appended(st, i, r, bs, data) && Reported(st, i, r, data))
  {
    hide Good, Target, Reaches, FillOuter, Takes, Shape, LoopsFile, FileTakes, Boundary, Adopts, NullWords, Appended, Reported,
      Aligned, FirstMissing, OthersSame, Contents, LoopsGrew;
    GoodSized(st, ow);
    MissingBound(st, i);
    var r, bs := LoopsFile(st, i, st.inodes[i].size, data), FileTakes(st, i, st.inodes[i].size, data);
    var s, ow', off, m := FileArrives(st, ow, i, data);
    if Over(r, bs, s, data, m, 0) {
      AppendsOver(st, ow, s, ow', i, r, bs, m, data);
    } else {
      ReachesFacts(st, ow, s, ow', i, data[..m]);
      BoundaryOpensAt(s, ow', i, FirstMissing(st, i));
      assert AtBoundary(st, ow, i, data, r, bs, s, ow', off, m);
      var n := BoundaryCounts(st, ow, i, data, r, bs, s, ow', off, m);
      if Appended(st, i, r, bs, data) { BoundaryNeeds(st, ow, i, data, r, bs, s, ow', off, m); }
      if Adopts(st, ow, bs, Usable(st, i, r.st.inodes[i].size)) && (Aligned(st, i) || NullWords(st, bs)) {
        BoundaryFills(st, ow, i, data, r, bs, s, ow', off, m);
      }
    }
  }

  /** So, for appends that start at a block's end or below the double-indirect
      tier, of any length, complete or out of space: */
  lemma AppendIff(st: Store, ow: Owners, i: nat, data: seq<byte>)
    requires Good(st, ow) && Live(st, i) && Shape(st, i) && st.inodes[i].size < MAX_BYTES && Aligned(st, i)
    ensures Sized(st) && FirstMissing(st, i) <= 256
    ensures var r, bs := LoopsFile(st, i, st.inodes[i].size, data), FileTakes(st, i, st.inodes[i].size, data);
            && i < |r.st.inodes|
            && (Appended(st, i, r, bs, data) <==> Adopts(st, ow, bs, Usable(st, i, r.st.inodes[i].size)))
  {
    hide Good, Shape, Aligned, LoopsFile, FileTakes, Appended, Adopts, NullWords, Usable, FirstMissing;
    AppendNeedsAndFills(st, ow, i, data);
  }
}
