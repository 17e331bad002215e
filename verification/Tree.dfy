/** The invariant of the directory tree, and the tree of names and byte strings
    that a store stands for. */
module Tree {
  import opened Layout
  import opened State
  import opened WriteProofs
  import opened Ops

  // ---- the invariant ----

  /** The unique holder of each block, the unique entry (directory, slot) of
      each inode, and the depth of each inode below the root. */
  datatype Wit = Wit(ow: Owners, par: map<nat, (nat, nat)>, depth: map<nat, nat>)

  ghost predicate LiveDir(st: Store, d: nat) { Live(st, d) && st.inodes[d].isDir }

  /** A directory holds one block and nothing else. */
  ghost predicate DirPointers(st: Store, d: nat)
    requires d < |st.inodes|
  {
    T(st, d, Data(0)) != 0 && forall loc :: T(st, d, loc) != 0 ==> loc == Data(0)
  }

  /** A used slot names a live inode of the recorded kind, whose only entry it is. */
  ghost predicate EntryOk(st: Store, w: Wit, d: nat, s: nat)
    requires d < |st.inodes| && s < 32
  {
    var e := E(st, d, s);
    e.valid ==>
      && 1 < e.inode && Live(st, e.inode) && st.inodes[e.inode].isDir == e.isDir
      && NameOk(e.name) && Padded(DirBlock(st, d), s)
      && e.inode in w.par && w.par[e.inode] == (d, s)
      && d in w.depth && e.inode in w.depth && w.depth[e.inode] == w.depth[d] + 1
  }

  ghost predicate UniqueNames(st: Store, d: nat) {
    forall s, t ::
      (0 <= s < 32 && 0 <= t < 32 && E(st, d, s).valid && E(st, d, t).valid
       && E(st, d, s).name == E(st, d, t).name) ==> s == t
  }

  /** No unused slot before a used one still holds its inode number. */
  ghost predicate FirstFit(st: Store, d: nat) {
    forall s, t :: 0 <= t < s < 32 && E(st, d, s).valid && !E(st, d, t).valid ==>
                     E(st, d, t).inode != E(st, d, s).inode
  }

  ghost predicate Placed(st: Store, w: Wit, i: nat)
  {
    && i in w.par && Live(st, i)
    && var (d, s) := w.par[i];
       LiveDir(st, d) && s < 32 && E(st, d, s).valid && E(st, d, s).inode == i
  }

  ghost predicate RootOk(st: Store, w: Wit) {
    && Live(st, 0) && st.inodes[0] == NoInode
    && LiveDir(st, 1) && 1 in w.depth && w.depth[1] == 0
  }

  ghost predicate DirOk(st: Store, w: Wit, d: nat)
    requires d < |st.inodes|
  {
    && DirPointers(st, d) && UniqueNames(st, d) && FirstFit(st, d)
    && (forall s :: 0 <= s < 32 ==> EntryOk(st, w, d, s))
  }

  ghost predicate TreeInv(st: Store, w: Wit) {
    && RootOk(st, w)
    && (forall d: nat :: LiveDir(st, d) ==> DirOk(st, w, d))
    && (forall i: nat :: Live(st, i) && i > 1 ==> Placed(st, w, i))
  }

  ghost predicate Shapes(st: Store) { forall i: nat :: Live(st, i) ==> Shape(st, i) }

  /** Only inodes of the inode region are ever marked used. */
  ghost predicate MapOk(st: Store) {
    forall i :: |st.inodes| <= i < |st.inodeMap| ==> !st.inodeMap[i]
  }

  /** The invariant, with its witnesses. */
  ghost predicate InvW(st: Store, w: Wit) {
    Good(st, w.ow) && MapOk(st) && Shapes(st) && TreeInv(st, w)
  }

  ghost predicate Inv(st: Store) { exists w :: InvW(st, w) }

  // ---- the abstract tree ----

  datatype Node = DirNode | FileNode(bytes: seq<byte>)

  type AbsTree = imap<Path, Node>

  ghost function NodeOf(st: Store, i: nat): Node {
    if i >= |st.inodes| then FileNode([])
    else if st.inodes[i].isDir then DirNode else FileNode(Contents(st, i))
  }

  /** Every path that resolves, and what is there. */
  ghost function TreeOf(st: Store): AbsTree {
    imap q: Path | Resolve(st, 1, q) >= 0 :: NodeOf(st, Resolve(st, 1, q))
  }

  // ---- walking from the end of the path ----

  /** Look the last component up in the directory of the others. */
  function Lookup(st: Store, d: nat, n: Name): int {
    var s := Scan(DirBlock(st, d), Named(n), 0);
    if s == 32 then ENOENT else E(st, d, s).inode
  }

  /** The isDir bit of the entry found by name. */
  function NamedDir(st: Store, d: nat, n: Name): bool {
    var s := Scan(DirBlock(st, d), Named(n), 0);
    s < 32 && E(st, d, s).isDir
  }

  function Enter(st: Store, r: int): int {
    if r < 0 then r else if InodeAt(st, r).isDir then r else ENOTDIR
  }

  function Init(q: Path): Path requires q != [] { q[..|q| - 1] }

  /** The recursive resolver: resolve all but the last component, which must
      be a directory, then look the last one up. */
  function Walk(st: Store, q: Path): (r: int)
    decreases |q|
  {
    if q == [] then 1
    else
      var d := Enter(st, Walk(st, Init(q)));
      if d < 0 then d else Lookup(st, d, Last(q))
  }

  /** Every directory entry reachable by name agrees with its inode's kind. */
  lemma LookupLive(st: Store, w: Wit, d: nat, n: Name)
    requires TreeInv(st, w) && LiveDir(st, d)
    ensures var r := Lookup(st, d, n);
            if r < 0 then r == ENOENT
            else r > 1 && Live(st, r) && Placed(st, w, r)
                 && w.par[r].0 == d && E(st, d, w.par[r].1).name == n
                 && d in w.depth && r in w.depth && w.depth[r] == w.depth[d] + 1
                 && st.inodes[r].isDir == NamedDir(st, d, n)
  {
    hide UniqueNames, FirstFit, DirPointers, Padded;
    var s := Scan(DirBlock(st, d), Named(n), 0);
    if s < 32 { assert EntryOk(st, w, d, s); }
  }

  lemma {:induction false} WalkLive(st: Store, w: Wit, q: Path)
    requires TreeInv(st, w)
    ensures var r := Walk(st, q);
            if r < 0 then r == ENOENT || r == ENOTDIR
            else Live(st, r) && r in w.depth && w.depth[r] == |q| && (q == [] <==> r == 1)
    decreases |q|
  {
    hide Lookup, DirOk, Placed;
    if q != [] {
      WalkLive(st, w, Init(q));
      var d := Enter(st, Walk(st, Init(q)));
      if d >= 0 { LookupLive(st, w, d, Last(q)); }
    }
  }

  lemma WalkParent(st: Store, w: Wit, q: Path)
    requires TreeInv(st, w) && q != [] && Walk(st, q) >= 0
    ensures var d, r := Walk(st, Init(q)), Walk(st, q);
            && d >= 0 && LiveDir(st, d) && r == Lookup(st, d, Last(q))
            && Placed(st, w, r) && w.par[r].0 == d && E(st, d, w.par[r].1).name == Last(q)
  {
    hide Lookup, DirOk, Placed, E;
    WalkLive(st, w, Init(q));
    LookupLive(st, w, Walk(st, Init(q)), Last(q));
  }

  /** Two walks that end at one inode are equally long, ... */
  lemma SameDepth(st: Store, w: Wit, p: Path, q: Path)
    requires TreeInv(st, w) && Walk(st, p) == Walk(st, q) >= 0
    ensures |p| == |q|
  {
    hide TreeInv, Walk, Live;
    WalkLive(st, w, p);
    WalkLive(st, w, q);
  }

  /** ... came through one directory and took one name there. */
  lemma SamePlace(st: Store, w: Wit, p: Path, q: Path)
    requires TreeInv(st, w) && p != [] && q != [] && Walk(st, p) == Walk(st, q) >= 0
    ensures Walk(st, Init(p)) == Walk(st, Init(q)) >= 0 && Last(p) == Last(q)
  {
    hide TreeInv, Walk, Placed, E, Lookup, Enter;
    WalkParent(st, w, p);
    WalkParent(st, w, q);
  }

  lemma Rejoined(p: Path)
    requires p != []
    ensures p == Init(p) + [Last(p)]
  {
  }

  /** No two paths lead to the same inode. */
  lemma {:induction false} WalkInjective(st: Store, w: Wit, p: Path, q: Path)
    requires TreeInv(st, w) && Walk(st, p) == Walk(st, q) >= 0
    ensures p == q
    decreases |p|
  {
    hide TreeInv, Walk, Last;
    SameDepth(st, w, p, q);
    if p != [] {
      SamePlace(st, w, p, q);
      WalkInjective(st, w, Init(p), Init(q));
      Rejoined(p);
      Rejoined(q);
    }
  }

  /** The front-to-back walk of main.c from an inner directory continues the
      recursive resolver. */
  lemma {:induction false} ResolveContinues(st: Store, w: Wit, p: Path, q: Path)
    requires TreeInv(st, w) && Walk(st, p) >= 0 && (q != [] ==> LiveDir(st, Walk(st, p)))
    ensures Resolve(st, Walk(st, p), q) == Walk(st, p + q)
    ensures q != [] ==> ParentOf(st, Walk(st, p), q) == Enter(st, Walk(st, p + Init(q)))
    decreases |q|, 2
  {
    hide Resolve, ParentOf, Walk, Lookup, TreeInv, NamedDir, Placed;
    if q == [] {
      assert p + q == p;
      ResolveNil(st, Walk(st, p));
    } else {
      var p1 := p + [q[0]];
      assert p1 + q[1..] == p + q;
      LookupLive(st, w, Walk(st, p), q[0]);
      ResolveFirst(st, Walk(st, p), q);
      WalkSnoc(st, p, q[0]);
      if |q| == 1 {
        assert Init(q) == [] && p + [] == p && q[1..] == [] && p1 + [] == p1;
        ResolveNil(st, Lookup(st, Walk(st, p), q[0]));
      } else {
        assert p + Init(q) == p1 + Init(q[1..]);
        ContinueFrom(st, w, p1, q[1..]);
      }
    }
  }

  lemma ResolveNil(st: Store, r: int)
    ensures r >= 0 ==> Resolve(st, r, []) == r
  {
  }

  lemma WalkSnoc(st: Store, p: Path, n: Name)
    ensures Walk(st, p + [n]) == var d := Enter(st, Walk(st, p)); if d < 0 then d else Lookup(st, d, n)
  {
    assert Init(p + [n]) == p;
  }

  /** One step of both loops. */
  lemma ResolveFirst(st: Store, d: nat, q: Path)
    requires q != []
    ensures var r := Lookup(st, d, q[0]);
            var dir := NamedDir(st, d, q[0]);
            && Resolve(st, d, q) == (if r < 0 then r else if |q| > 1 && !dir then ENOTDIR else Resolve(st, r, q[1..]))
            && ParentOf(st, d, q) == (if |q| == 1 then d else if r < 0 then r else if !dir then ENOTDIR else ParentOf(st, r,
                 q[1..]))
  {
    var s := Scan(DirBlock(st, d), Named(q[0]), 0);
    if s < 32 {
      var e := E(st, d, s);
      assert Lookup(st, d, q[0]) == e.inode;
      assert Resolve(st, d, q) == if |q| > 1 && !e.isDir then ENOTDIR else Resolve(st, e.inode, q[1..]);
    }
  }

  lemma {:induction false} ContinueFrom(st: Store, w: Wit, p1: Path, q: Path)
    requires TreeInv(st, w) && q != []
    requires Walk(st, p1) >= 0 ==> Live(st, Walk(st, p1))
    ensures var r := Enter(st, Walk(st, p1));
            if r < 0 then Walk(st, p1 + q) == r && Enter(st, Walk(st, p1 + Init(q))) == r
            else Resolve(st, r, q) == Walk(st, p1 + q) && ParentOf(st, r, q) == Enter(st, Walk(st, p1 + Init(q)))
    decreases |q|, 3
  {
    hide DirOk, Placed, Lookup;
    if Enter(st, Walk(st, p1)) < 0 {
      WalkStuck(st, p1, q);
      if |q| > 1 { WalkStuck(st, p1, Init(q)); } else { assert Init(q) == [] && p1 + [] == p1; }
    } else {
      ResolveContinues(st, w, p1, q);
    }
  }

  /** A missing or non-directory prefix decides the result of every longer path. */
  lemma {:induction false} WalkStuck(st: Store, p: Path, q: Path)
    requires Enter(st, Walk(st, p)) < 0 && q != []
    ensures Walk(st, p + q) == Enter(st, Walk(st, p))
    decreases |q|
  {
    assert Init(p + q) == p + Init(q);
    if |q| == 1 {
      assert p + Init(q) == p;
    } else {
      WalkStuck(st, p, Init(q));
    }
  }

  /** Path walking refines the recursive resolver: the result is the look-up
      of the last component in the directory get_parent_inum gives, and both
      fail alike when a prefix does. */
  lemma ResolveIsWalk(st: Store, w: Wit, q: Path)
    requires TreeInv(st, w)
    ensures Resolve(st, 1, q) == Walk(st, q)
    ensures q != [] ==> ParentOf(st, 1, q) == Enter(st, Walk(st, Init(q)))
    ensures q != [] ==>
              var d := ParentOf(st, 1, q);
              Resolve(st, 1, q) == if d < 0 then d else Lookup(st, d, Last(q))
  {
    assert [] + q == q;
    ResolveContinues(st, w, [], q);
    if q != [] { assert [] + Init(q) == Init(q); }
  }
}
