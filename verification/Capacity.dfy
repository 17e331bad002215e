/** When a create runs out of inodes or slots, as seen from the tree. */
module Capacity {
  import opened Layout
  import opened State
  import opened WriteProofs
  import O = Ops
  import opened Tree
  import opened TreeProofs
  import opened TreeTheorems
  import Accounts

  ghost predicate Differ<X>(s: seq<X>) { forall i, j :: 0 <= i < j < |s| ==> s[i] != s[j] }

  /** The tree has 62 nodes below the root: the scan of 64 inodes is at its end. */
  ghost predicate InodesFull(t: AbsTree) {
    exists ps: seq<O.Path> :: |ps| == 62 && Differ(ps) && forall p :: p in ps ==> p in t && p != []
  }

  /** Directory p has 32 entries. */
  ghost predicate DirFull(t: AbsTree, p: O.Path) {
    exists ns: seq<Name> :: |ns| == 32 && Differ(ns) && forall n :: n in ns ==> p + [n] in t
  }

  /** No inode beyond those the scan looks at is in use. */
  ghost predicate LowInodes(st: Store) { forall j :: 64 <= j < |st.inodeMap| ==> !st.inodeMap[j] }

  /** n different numbers among n are all of them. */
  lemma Fills(s: seq<nat>, lo: nat, n: nat)
    requires |s| == n && Differ(s) && forall x :: x in s ==> lo <= x < lo + n
    ensures forall x: nat :: lo <= x < lo + n ==> x in s
  {
    var t := RangeSet(lo, n);
    var u := set x | x in s;
    assert Accounts.Distinct(s);
    Accounts.DistinctCount(s, u);
    assert u <= t;
    if u != t {
      assert u < t;
      SmallerSet(u, t);
    }
  }

  lemma {:induction false} RangeSet(lo: nat, n: nat) returns (t: set<nat>)
    ensures |t| == n && forall x: nat :: x in t <==> lo <= x < lo + n
  {
    t := {};
    if n > 0 {
      t := RangeSet(lo, n - 1);
      t := t + {lo + n - 1};
    }
  }

  lemma SmallerSet(u: set<nat>, t: set<nat>)
    requires u < t
    ensures |u| < |t|
  {
    var x :| x in t && x !in u;
    assert u <= t - {x};
    SubsetCount(u, t - {x});
  }

  lemma {:induction false} SubsetCount(u: set<nat>, t: set<nat>)
    requires u <= t
    ensures |u| <= |t|
    decreases |u|
  {
    if u != {} {
      var x :| x in u;
      SubsetCount(u - {x}, t - {x});
    }
  }

  /** Every inode in use beyond the first two has a path. */
  lemma {:induction false} PathOf(st: Store, w: Wit, i: nat) returns (p: O.Path)
    requires TreeInv(st, w) && Live(st, i) && i >= 1
    ensures Walk(st, p) == i
    decreases if i in w.depth then w.depth[i] else 0
  {
    hide Walk, DirPointers, Padded, FirstFit, Lookup, O.E;
    if i == 1 {
      p := [];
      WalkNil(st);
    } else {
      var d, s := ParentSlot(st, w, i);
      var q := PathOf(st, w, d);
      p := q + [O.E(st, d, s).name];
      WalkSnoc(st, q, O.E(st, d, s).name);
      SlotFound(st, w, d, s);
    }
  }

  lemma ParentSlot(st: Store, w: Wit, i: nat) returns (d: nat, s: nat)
    requires TreeInv(st, w) && Live(st, i) && i > 1
    ensures LiveDir(st, d) && s < 32 && O.E(st, d, s).valid && O.E(st, d, s).inode == i && d >= 1
    ensures i in w.depth && d in w.depth && w.depth[d] < w.depth[i]
  {
    hide DirPointers, Padded, FirstFit, UniqueNames, O.E;
    assert Placed(st, w, i);
    d, s := w.par[i].0, w.par[i].1;
    assert DirOk(st, w, d);
    assert EntryOk(st, w, d, s);
  }

  /** A used slot is found by its name, and leads to a path. */
  lemma SlotFound(st: Store, w: Wit, d: nat, s: nat)
    requires TreeInv(st, w) && LiveDir(st, d) && s < 32 && O.E(st, d, s).valid
    ensures Lookup(st, d, O.E(st, d, s).name) == O.E(st, d, s).inode && Enter(st, d) == d
  {
    hide EntryOk, FirstFit, DirPointers, Placed;
    assert DirOk(st, w, d);
    var n := O.E(st, d, s).name;
    var t := O.Scan(O.DirBlock(st, d), O.Named(n), 0);
    assert O.Hit(Ent(O.DirBlock(st, d), s), O.Named(n));
    assert t < 32 && O.E(st, d, t).valid && O.E(st, d, t).name == n;
  }

  /** All 64 inodes the scan looks at are in use exactly when the tree has 62
      nodes below the root. */
  lemma InodesFullIff(st: Store, w: Wit)
    requires InvW(st, w) && LowInodes(st) && |st.inodeMap| >= 64
    ensures (forall i :: 0 <= i < 64 ==> st.inodeMap[i]) <==> InodesFull(TreeOf(st))
  {
    hide TreeInv, TreeOf, Walk, Shapes, Good, MapOk;
    if forall i :: 0 <= i < 64 ==> st.inodeMap[i] { ManyPaths(st, w); }
    if InodesFull(TreeOf(st)) {
      var ps: seq<O.Path> :| |ps| == 62 && Differ(ps) && forall p :: p in ps ==> p in TreeOf(st) && p != [];
      ManyInodes(st, w, ps);
    }
  }

  lemma ManyPaths(st: Store, w: Wit)
    requires InvW(st, w) && |st.inodeMap| >= 64 && forall i :: 0 <= i < 64 ==> st.inodeMap[i]
    ensures InodesFull(TreeOf(st))
  {
    hide TreeInv, TreeOf, Walk, Shapes, Good;
    var ps := PathsUpTo(st, w, 62);
    assert Differ(ps);
    forall p | p in ps ensures p in TreeOf(st) && p != [] {
      InTree(st, w, p);
      WalkNil(st);
    }
  }

  lemma {:induction false} PathsUpTo(st: Store, w: Wit, n: nat) returns (ps: seq<O.Path>)
    requires InvW(st, w) && n <= 62 && |st.inodeMap| >= 64 && forall i :: 0 <= i < 64 ==> st.inodeMap[i]
    ensures |ps| == n && forall i :: 0 <= i < n ==> Walk(st, ps[i]) == i + 2
  {
    hide TreeInv, Walk, Shapes, Good;
    ps := [];
    if n > 0 {
      ps := PathsUpTo(st, w, n - 1);
      var p := PathOf(st, w, n + 1);
      ps := ps + [p];
    }
  }

  lemma ManyInodes(st: Store, w: Wit, ps: seq<O.Path>)
    requires InvW(st, w) && LowInodes(st) && |st.inodeMap| >= 64
    requires |ps| == 62 && Differ(ps) && forall p :: p in ps ==> p in TreeOf(st) && p != []
    ensures forall i :: 0 <= i < 64 ==> st.inodeMap[i]
  {
    hide TreeInv, TreeOf, Walk, Shapes, Good, MapOk;
    forall k | 0 <= k < 62 ensures 2 <= Walk(st, ps[k]) < 64 && st.inodeMap[Walk(st, ps[k])] {
      assert ps[k] in ps;
      InTree(st, w, ps[k]);
      BelowRoot(st, w, ps[k]);
    }
    var s: seq<nat> := seq(62, k requires 0 <= k < 62 => Walk(st, ps[k]));
    forall j, k | 0 <= j < k < 62 ensures s[j] != s[k] {
      if s[j] == s[k] { WalkInjective(st, w, ps[j], ps[k]); }
    }
    Fills(s, 2, 62);
    forall i: nat | i < 64 ensures st.inodeMap[i] {
      if i >= 2 {
        assert i in s;
      } else {
        FirstTwo(st, w);
      }
    }
  }

  lemma FirstTwo(st: Store, w: Wit)
    requires TreeInv(st, w)
    ensures Live(st, 0) && Live(st, 1)
  {
    hide DirOk, Placed;
  }

  lemma BelowRoot(st: Store, w: Wit, q: O.Path)
    requires TreeInv(st, w) && q != [] && Walk(st, q) >= 0
    ensures Walk(st, q) > 1
  {
    hide DirOk, Placed, Lookup;
    WalkParent(st, w, q);
    LookupLive(st, w, Walk(st, Init(q)), O.Last(q));
  }

  /** All 32 slots are used exactly when the directory has 32 entries. */
  lemma DirFullIff(st: Store, w: Wit, d: nat, p: O.Path)
    requires InvW(st, w) && Walk(st, p) == d && LiveDir(st, d)
    ensures (forall s :: 0 <= s < 32 ==> O.E(st, d, s).valid) <==> DirFull(TreeOf(st), p)
  {
    hide TreeInv, TreeOf, Walk, Shapes, Good, MapOk, O.E;
    if forall s :: 0 <= s < 32 ==> O.E(st, d, s).valid { ManyNames(st, w, d, p); }
    if DirFull(TreeOf(st), p) {
      var ns: seq<Name> :| |ns| == 32 && Differ(ns) && forall n :: n in ns ==> p + [n] in TreeOf(st);
      ManySlots(st, w, d, p, ns);
    }
  }

  lemma ManyNames(st: Store, w: Wit, d: nat, p: O.Path)
    requires InvW(st, w) && Walk(st, p) == d && LiveDir(st, d) && forall s :: 0 <= s < 32 ==> O.E(st, d, s).valid
    ensures DirFull(TreeOf(st), p)
  {
    hide TreeInv, TreeOf, Walk, Shapes, Good, MapOk, O.E, Lookup;
    var ns := seq(32, s requires 0 <= s < 32 => O.E(st, d, s).name);
    NamesDiffer(st, w, d);
    forall n | n in ns ensures p + [n] in TreeOf(st) {
      var s :| 0 <= s < 32 && ns[s] == n;
      SlotFound(st, w, d, s);
      WalkSnoc(st, p, n);
      InTree(st, w, p + [n]);
    }
    assert Differ(ns);
  }

  lemma NamesDiffer(st: Store, w: Wit, d: nat)
    requires TreeInv(st, w) && LiveDir(st, d)
    ensures UniqueNames(st, d)
  {
    hide EntryOk, FirstFit, DirPointers, Placed;
    assert DirOk(st, w, d);
  }

  lemma ManySlots(st: Store, w: Wit, d: nat, p: O.Path, ns: seq<Name>)
    requires InvW(st, w) && Walk(st, p) == d && LiveDir(st, d)
    requires |ns| == 32 && Differ(ns) && forall n :: n in ns ==> p + [n] in TreeOf(st)
    ensures forall s :: 0 <= s < 32 ==> O.E(st, d, s).valid
  {
    hide TreeInv, TreeOf, Walk, Shapes, Good, MapOk, O.E, O.Scan;
    forall k | 0 <= k < 32
      ensures var s := O.Scan(O.DirBlock(st, d), O.Named(ns[k]), 0);
              s < 32 && O.E(st, d, s).valid && O.E(st, d, s).name == ns[k]
    {
      assert ns[k] in ns;
      InTree(st, w, p + [ns[k]]);
      WalkSnoc(st, p, ns[k]);
      NamedSlot(st, d, ns[k]);
    }
    var s: seq<nat> := seq(32, k requires 0 <= k < 32 => O.Scan(O.DirBlock(st, d), O.Named(ns[k]), 0));
    Fills(s, 0, 32);
    forall t: nat | t < 32 ensures O.E(st, d, t).valid { assert t in s; }
  }

  lemma NamedSlot(st: Store, d: nat, n: Name)
    ensures var s := O.Scan(O.DirBlock(st, d), O.Named(n), 0);
            Lookup(st, d, n) >= 0 ==> s < 32 && O.E(st, d, s).valid && O.E(st, d, s).name == n
  {
  }
}
