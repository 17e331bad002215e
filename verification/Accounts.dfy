/** Counting blocks: free, held and leaked ones, and what an unlink returns. */
module Accounts {
  import opened State
  import opened FileWrite
  import opened WriteProofs
  import opened WriteCost
  import opened Tree
  import opened OpTheorems
  import opened Leaks

  // ---- free + held + leaked ----

  ghost function FreeSet(st: Store): set<nat>
    requires Sized(st)
  {
    set b: nat | st.start <= b < |st.blocks| && !st.blockMap[b]
  }

  lemma {:induction false} CountIsSet(bm: seq<bool>, i: nat, n: nat, s: set<nat>)
    requires i <= n <= |bm| && forall b: nat :: b in s <==> i <= b < n && !bm[b]
    ensures |s| == CountFree(bm, i, n)
    decreases n - i
  {
    if i == n {
      assert s == {};
    } else if bm[i] {
      CountIsSet(bm, i + 1, n, s);
    } else {
      CountIsSet(bm, i + 1, n, s - {i});
      assert s == s - {i} + {i};
    }
  }

  lemma {:induction false} RangeCount(i: nat, n: nat, s: set<nat>)
    requires i <= n && forall b: nat :: b in s <==> i <= b < n
    ensures |s| == n - i
    decreases n - i
  {
    if i == n {
      assert s == {};
    } else {
      RangeCount(i + 1, n, s - {i});
      assert s == s - {i} + {i};
    }
  }

  /** Every block of the data region is free, held or leaked, and only one of these. */
  lemma Conservation(st: Store, ow: Owners)
    requires Good(st, ow)
    ensures Sized(st) && FreeBlocks(st) + |ow.Keys| + |Leaked(st, ow)| == |st.blocks| - st.start
  {
    var free, held, leaked := FreeSet(st), ow.Keys, Leaked(st, ow);
    CountIsSet(st.blockMap, st.start, |st.blocks|, free);
    HeldInRegion(st, ow);
    var all := free + held + leaked;
    assert forall b: nat :: b in all <==> st.start <= b < |st.blocks|;
    RangeCount(st.start, |st.blocks|, all);
    assert free !! held && free !! leaked && held !! leaked;
    assert |free + held| == |free| + |held|;
    assert (free + held) !! leaked;
  }

  lemma HeldInRegion(st: Store, ow: Owners)
    requires Good(st, ow)
    ensures forall x :: x in ow ==> st.start <= x < |st.blocks| && st.blockMap[x]
  {
    hide Target;
    forall x | x in ow ensures st.start <= x < |st.blocks| && st.blockMap[x] { assert T(st, ow[x].0, ow[x].1) == x; }
  }

  // ---- the blocks of one file ----

  ghost predicate Distinct(s: seq<nat>) { forall i, j :: 0 <= i < j < |s| ==> s[i] != s[j] }

  lemma {:induction false} DistinctCount(s: seq<nat>, t: set<nat>)
    requires Distinct(s) && forall x: nat :: x in t <==> x in s
    ensures |t| == |s|
    decreases |s|
  {
    if s == [] {
      assert t == {};
    } else {
      var x := s[|s| - 1];
      var r := s[..|s| - 1];
      assert s == r + [x];
      DistinctCount(r, t - {x});
      assert t == t - {x} + {x};
    }
  }

  /** The blocks file c holds. */
  ghost function HeldSet(ow: Owners, c: nat): set<nat> { set x | x in ow && ow[x].0 == c }

  /** The pointers of a file of d data blocks without spare ones. */
  function PointersOf(d: nat): seq<Loc>
    requires d <= 65798
  {
    seq(d, l requires 0 <= l => Data(l)) + (if d > 6 then [Ind1] else []) + (if d > 262 then [Ind2] else [])
    + seq(if d > 262 then (d - 262 + 255) / 256 else 0, k requires 0 <= k => Outer(k))
  }

  lemma PointersFacts(d: nat)
    requires d <= 65798
    ensures |PointersOf(d)| == TotalBlocks(d)
    ensures forall i, j :: 0 <= i < j < |PointersOf(d)| ==> PointersOf(d)[i] != PointersOf(d)[j]
    ensures forall m :: m in PointersOf(d) <==> LocOk(m) && FirstBlock(m) < d
  {
    var n := if d > 262 then (d - 262 + 255) / 256 else 0;
    var a, b, c, e := seq(d, l requires 0 <= l => Data(l)), if d > 6 then [Ind1] else [], if d > 262 then [Ind2] else [],
      seq(n, k requires 0 <= k => Outer(k));
    assert PointersOf(d) == a + b + c + e;
    forall m ensures m in PointersOf(d) <==> LocOk(m) && FirstBlock(m) < d {
      match m {
        case Data(l) => assert l < d ==> a[l] == m;
        case Outer(k) => assert k < n ==> e[k] == m;
        case _ =>
      }
    }
  }

  /** As many blocks as pointers in use: no two pointers name one block. */
  lemma PointedCount(st: Store, ow: Owners, c: nat, ps: seq<Loc>, s: set<nat>)
    requires Good(st, ow) && Live(st, c) && forall i, j :: 0 <= i < j < |ps| ==> ps[i] != ps[j]
    requires forall m :: m in ps ==> T(st, c, m) in s && T(st, c, m) != 0
    requires forall x :: x in s ==> exists m :: m in ps && T(st, c, m) == x
    ensures |s| == |ps|
  {
    hide Target, Geometry;
    var ts := seq(|ps|, i requires 0 <= i < |ps| => T(st, c, ps[i]));
    forall i | 0 <= i < |ps| ensures ts[i] in s && ts[i] in ow && ow[ts[i]] == (c, ps[i]) { assert ps[i] in ps; }
    hide Owned;
    forall x: nat ensures x in s <==> x in ts {
      if x in s {
        var m :| m in ps && T(st, c, m) == x;
        var i :| 0 <= i < |ps| && ps[i] == m;
        assert ts[i] == x;
      }
    }
    DistinctCount(ts, s);
  }

  /** A file without spare blocks holds exactly its price. */
  lemma HeldCount(st: Store, ow: Owners, c: nat)
    requires Good(st, ow) && Live(st, c) && Tight(st, c)
    ensures |HeldSet(ow, c)| == TotalBlocks(DataBlocks(st.inodes[c].size))
  {
    var d := DataBlocks(st.inodes[c].size);
    PointersFacts(d);
    hide PointersOf, Target, TotalBlocks, Tight, Geometry;
    forall m | m in PointersOf(d) ensures T(st, c, m) in HeldSet(ow, c) && T(st, c, m) != 0 { NeededIff(st, c, m); }
    forall x | x in HeldSet(ow, c) ensures exists m :: m in PointersOf(d) && T(st, c, m) == x {
      var m := ow[x].1;
      assert T(st, c, m) == x != 0 && LocOk(m);
      NeededIff(st, c, m);
    }
    PointedCount(st, ow, c, PointersOf(d), HeldSet(ow, c));
  }

  lemma NeededIff(st: Store, c: nat, m: Loc)
    requires c < |st.inodes| && Tight(st, c) && LocOk(m)
    ensures T(st, c, m) != 0 <==> FirstBlock(m) < DataBlocks(st.inodes[c].size)
  {
    hide Target;
  }

  /** Blocks unlink does not return: the direct ones and up to two index blocks. */
  function StrandedBlocks(d: nat): nat {
    Min(d, 6) + (if d > 6 then 1 else 0) + (if d > 262 then 1 else 0)
  }

  /** The pointers in the inode itself of a file of d data blocks. */
  function InodePointersOf(d: nat): (ps: seq<Loc>)
    ensures |ps| == StrandedBlocks(d)
  {
    [Data(0), Data(1), Data(2), Data(3), Data(4), Data(5)][..Min(d, 6)]
    + (if d > 6 then [Ind1] else []) + (if d > 262 then [Ind2] else [])
  }

  predicate InInodeLoc(m: Loc) { m.Ind1? || m.Ind2? || (m.Data? && m.l < 6) }

  lemma InodePointersFacts(d: nat)
    ensures forall m :: m in InodePointersOf(d) <==> InInodeLoc(m) && FirstBlock(m) < d
    ensures forall i, j :: 0 <= i < j < |InodePointersOf(d)| ==> InodePointersOf(d)[i] != InodePointersOf(d)[j]
  {
    var six := [Data(0), Data(1), Data(2), Data(3), Data(4), Data(5)];
    assert forall i :: 0 <= i < 6 ==> six[i] == Data(i);
    var a, b, c := six[..Min(d, 6)], if d > 6 then [Ind1] else [], if d > 262 then [Ind2] else [];
    assert InodePointersOf(d) == a + b + c;
    forall m ensures m in InodePointersOf(d) <==> InInodeLoc(m) && FirstBlock(m) < d {
      match m {
        case Data(l) => if l < 6 && l < d { assert a[l] == m; }
        case _ =>
      }
    }
  }

  lemma StrandedCount(st: Store, ow: Owners, c: nat)
    requires Good(st, ow) && Live(st, c) && Tight(st, c)
    ensures |InodeBlocks(st.inodes[c])| == StrandedBlocks(DataBlocks(st.inodes[c].size))
  {
    var d := DataBlocks(st.inodes[c].size);
    InodePointersFacts(d);
    hide InodePointersOf, Target, Tight, Good, InodeBlocks, StrandedBlocks, DataBlocks, FirstBlock;
    forall m | m in InodePointersOf(d) ensures T(st, c, m) in InodeBlocks(st.inodes[c]) && T(st, c, m) != 0 {
      NeededIff(st, c, m);
      PointsInto(st, c, m);
    }
    forall x | x in InodeBlocks(st.inodes[c]) ensures exists m :: m in InodePointersOf(d) && T(st, c, m) == x {
      var m := PointerTo(st, c, x);
      NeededIff(st, c, m);
    }
    PointedCount(st, ow, c, InodePointersOf(d), InodeBlocks(st.inodes[c]));
  }

  lemma PointsInto(st: Store, c: nat, m: Loc)
    requires c < |st.inodes| && InInodeLoc(m) && T(st, c, m) != 0
    ensures T(st, c, m) in InodeBlocks(st.inodes[c])
  {
    InodePointers(st, c);
  }

  lemma PointerTo(st: Store, c: nat, x: nat) returns (m: Loc)
    requires c < |st.inodes| && x in InodeBlocks(st.inodes[c])
    ensures x != 0 && T(st, c, m) == x && InInodeLoc(m) && LocOk(m)
  {
    InodePointers(st, c);
    var n := st.inodes[c];
    hide Target;
    if x == n.indir1 { m := Ind1; }
    else if x == n.indir2 { m := Ind2; }
    else { var l: nat :| l < 6 && n.direct[l] == x; m := Data(l); }
  }

  // ---- unlink ----

  /** Unlinking a file of d data blocks and no spare one returns all its blocks
      but the stranded ones. */
  lemma UnlinkReturns(st: Store, w: Wit, w': Wit, c: nat, st': Store)
    requires Good(st, w.ow) && Good(st', w'.ow) && Live(st, c) && Tight(st, c) && UnlinkBits(st, w, w', c, st')
    ensures Sized(st) && Sized(st')
    ensures var d := DataBlocks(st.inodes[c].size);
            FreeBlocks(st') == FreeBlocks(st) + TotalBlocks(d) - StrandedBlocks(d)
  {
    hide Owned, UnlinkBits, Leaked, Stranded, InodeBlocks, Tight, TotalBlocks, StrandedBlocks, FreeBlocks;
    Conservation(st, w.ow);
    Conservation(st', w'.ow);
    HeldCount(st, w.ow, c);
    StrandedCount(st, w.ow, c);
    StrandedIs(st, w.ow, c);
    UnlinkLeaks(st, w, w', c, st');
    KeysWithout(st, w, w', c, st');
    StrandedApart(st, w.ow, c);
    assert |Leaked(st, w.ow) + Stranded(w.ow, c)| == |Leaked(st, w.ow)| + |Stranded(w.ow, c)|;
  }

  lemma KeysWithout(st: Store, w: Wit, w': Wit, c: nat, st': Store)
    requires UnlinkBits(st, w, w', c, st')
    ensures |w.ow.Keys| == |w'.ow.Keys| + |HeldSet(w.ow, c)| && st'.start == st.start && |st'.blocks| == |st.blocks|
  {
    assert w.ow.Keys == w'.ow.Keys + HeldSet(w.ow, c);
    assert w'.ow.Keys !! HeldSet(w.ow, c);
  }

  lemma StrandedApart(st: Store, ow: Owners, c: nat)
    requires Sized(st)
    ensures Leaked(st, ow) !! Stranded(ow, c)
  {
  }
}
