/** What each directory operation does to the tree of names and byte strings. */
module TreeTheorems {
  import opened Layout
  import opened State
  import opened WriteProofs
  import opened Ops
  import opened Tree
  import opened TreeProofs
  import opened OpProofs

  ghost predicate NodesKept(st: Store, st': Store, gone: nat) {
    forall j: nat :: Live(st, j) && j != gone ==> NodeOf(st', j) == NodeOf(st, j)
  }

  lemma InTree(st: Store, w: Wit, q: Path)
    requires TreeInv(st, w)
    ensures q in TreeOf(st) <==> Walk(st, q) >= 0
    ensures q in TreeOf(st) ==> Live(st, Walk(st, q)) && TreeOf(st)[q] == NodeOf(st, Walk(st, q))
  {
    ResolveIsWalk(st, w, q);
    WalkLive(st, w, q);
  }

  lemma FreshContents(st: Store, st2: Store, i: nat, b: nat, isDir: bool, j: nat)
    requires i < |st.inodes| && FreshInode(st, st2, i, b, isDir) && Live(st, j) && Shape(st, j)
    ensures Contents(st2, j) == Contents(st, j) && Shape(st2, j)
  {
    hide Target;
    forall x: nat | x < st.inodes[j].size ensures ByteAt(st2, j, x) == ByteAt(st, j, x) {
      assert T(st, j, Data(x / 1024)) != 0;
    }
    SameBytes(st, st2, j);
    ShapeSame(st, st2, j);
  }

  lemma CreateNodes(st: Store, st2: Store, st': Store, d: nat, i: nat, b: nat, isDir: bool)
    requires i < |st.inodes| && FreshInode(st, st2, i, b, isDir) && Shapes(st)
    requires LiveDir(st, d) && OthersSame(st2, st', d) && st'.inodes == st2.inodes
    ensures NodesKept(st, st', i) && NodeOf(st', i) == if isDir then DirNode else FileNode([])
  {
    hide Target, Shape, Contents;
    forall j: nat | Live(st, j) && j != i ensures NodeOf(st', j) == NodeOf(st, j) {
      assert Shape(st, j);
      FreshContents(st, st2, i, b, isDir, j);
      if j != d { OthersContents(st2, st', d, j); }
    }
    EmptyContents(st', i);
  }

  lemma EmptyContents(st: Store, i: nat)
    requires i < |st.inodes|
    ensures st.inodes[i].size == 0 ==> Contents(st, i) == []
  {
  }

  lemma CreatedTreeOf(st: Store, st': Store, w: Wit, w': Wit, d: nat, s: nat, i: nat, n: Name, isDir: bool, p: Path)
    requires TreeInv(st, w) && TreeInv(st', w') && Created(st, st', d, s, i, n, isDir) && SlotFor(st, d, s, n)
    requires Walk(st, p) == d && NodesKept(st, st', i)
    ensures TreeOf(st') == TreeOf(st)[p + [n] := NodeOf(st', i)]
    ensures p + [n] !in TreeOf(st)
  {
    hide TreeInv, Created, SlotFor, TreeOf, Walk, NodeOf, Live;
    var pn := p + [n];
    forall q: Path
      ensures q in TreeOf(st') <==> q == pn || q in TreeOf(st)
      ensures q in TreeOf(st') ==> TreeOf(st')[q] == if q == pn then NodeOf(st', i) else TreeOf(st)[q]
    {
      InTree(st, w, q);
      InTree(st', w', q);
      CreatedWalk(st, st', w, w', d, s, i, n, isDir, p, q);
      if pn <= q { NotThere(st, st', w, d, s, i, n, isDir, p, q); }
      else if q in TreeOf(st) { FreeNode(st, st', d, s, i, n, isDir, Walk(st, q)); }
    }
    InTree(st, w, pn);
    NotThere(st, st', w, d, s, i, n, isDir, p, pn);
    assert TreeOf(st').Keys == TreeOf(st)[pn := NodeOf(st', i)].Keys;
  }

  lemma FreeNode(st: Store, st': Store, d: nat, s: nat, i: nat, n: Name, isDir: bool, j: nat)
    requires Created(st, st', d, s, i, n, isDir) && Live(st, j)
    ensures j != i
  {
    hide OneEntry, E;
  }

  /** Nothing was at or below the new path before. */
  lemma {:induction false} NotThere(st: Store, st': Store, w: Wit, d: nat, s: nat, i: nat, n: Name, isDir: bool, p: Path, q: Path)
    requires TreeInv(st, w) && SlotFor(st, d, s, n) && Created(st, st', d, s, i, n, isDir)
    requires Walk(st, p) == d && p + [n] <= q
    ensures Walk(st, q) < 0
    decreases |q|
  {
    hide E, TreeInv, OneEntry, Created, Lookup, Walk;
    var q0, x := Init(q), Last(q);
    assert q == q0 + [x];
    WalkSnoc(st, q0, x);
    if q == p + [n] {
      assert q0 == p && x == n;
      assert NoneNamed(st, d, n);
      LookupNone(st, d, n);
    } else {
      NotThere(st, st', w, d, s, i, n, isDir, p, q0);
    }
  }

  // ---- remove ----

  lemma RemovedTreeOf(st: Store, st': Store, w: Wit, w': Wit, d: nat, s: nat, c: nat, p: Path)
    requires TreeInv(st, w) && TreeInv(st', w') && Removed(st, st', d, s, c)
    requires Walk(st, p) == d && NodesKept(st, st', c)
    ensures TreeOf(st') == TreeOf(st) - {p + [E(st, d, s).name]}
    ensures p + [E(st, d, s).name] in TreeOf(st)
  {
    hide TreeInv, Removed, TreeOf, Walk, NodeOf, Live, E, Lookup;
    var n := RemovedName(st, st', w, d, s, c);
    var pn := p + [n];
    forall q: Path
      ensures q in TreeOf(st') <==> q != pn && q in TreeOf(st)
      ensures q in TreeOf(st') ==> TreeOf(st')[q] == TreeOf(st)[q]
    {
      InTree(st, w, q);
      InTree(st', w', q);
      RemovedWalk(st, st', w, w', d, s, c, p, q);
      RemovedHere(st, st', w, d, s, c, p, q);
    }
    WalkSnoc(st, p, n);
    InTree(st, w, pn);
    WalkDirHere(st, st', d, s, c);
    assert TreeOf(st').Keys == (TreeOf(st) - {pn}).Keys;
  }

  lemma WalkDirHere(st: Store, st': Store, d: nat, s: nat, c: nat)
    requires Removed(st, st', d, s, c)
    ensures Enter(st, d) == d && c > 1
  {
    hide E, OneEntryBut;
  }

  lemma RemovedName(st: Store, st': Store, w: Wit, d: nat, s: nat, c: nat) returns (n: Name)
    requires TreeInv(st, w) && Removed(st, st', d, s, c)
    ensures s < 32 && n == E(st, d, s).name && Lookup(st, d, n) == c
  {
    n := E(st, d, s).name;
    hide E, OneEntryBut, EntryOk, FirstFit, DirPointers, Lookup, UniqueNames;
    assert DirOk(st, w, d);
    LookupAt(st, d, s, n);
  }

  /** Only leaves are removed. */
  lemma {:induction false} BelowRemoved(st: Store, st': Store, w: Wit, d: nat, s: nat, c: nat, p: Path, q: Path)
    requires TreeInv(st, w) && Removed(st, st', d, s, c) && Walk(st, p) == d
    requires p + [E(st, d, s).name] <= q && q != p + [E(st, d, s).name]
    ensures Walk(st, q) < 0
    decreases |q|
  {
    hide E, TreeInv, OneEntryBut, Removed, Lookup, Walk;
    var n := RemovedName(st, st', w, d, s, c);
    WalkDirHere(st, st', d, s, c);
    RemovedLeaf(st, st', d, s, c, Last(q));
    var q0, x := Init(q), Last(q);
    assert q == q0 + [x];
    WalkSnoc(st, q0, x);
    if q0 == p + [n] {
      WalkSnoc(st, p, n);
    } else {
      BelowRemoved(st, st', w, d, s, c, p, q0);
    }
  }

  lemma RemovedHere(st: Store, st': Store, w: Wit, d: nat, s: nat, c: nat, p: Path, q: Path)
    requires TreeInv(st, w) && Removed(st, st', d, s, c) && Walk(st, p) == d
    ensures p + [E(st, d, s).name] <= q && q != p + [E(st, d, s).name] ==> Walk(st, q) < 0
  {
    if p + [E(st, d, s).name] <= q && q != p + [E(st, d, s).name] {
      BelowRemoved(st, st', w, d, s, c, p, q);
    }
  }

  lemma RemovedLeaf(st: Store, st': Store, d: nat, s: nat, c: nat, x: Name)
    requires Removed(st, st', d, s, c)
    ensures Enter(st, c) < 0 || Lookup(st, c, x) < 0
  {
    hide E, OneEntryBut, Lookup;
    if st.inodes[c].isDir {
      assert NoneNamed(st, c, x);
      LookupNone(st, c, x);
    }
  }

  // ---- rename ----

  /** The whole subtree moves; everything else stays. */
  ghost function Moved(t: AbsTree, p: Path, o: Name, m: Name): AbsTree {
    imap q: Path | !(p + [o] <= q) && Back(p, o, m, q) in t :: t[Back(p, o, m, q)]
  }

  lemma RenamedTreeOf(st: Store, st': Store, w: Wit, w': Wit, d: nat, s: nat, m: Name, p: Path)
    requires TreeInv(st, w) && TreeInv(st', w') && Renamed(st, st', d, s, m)
    requires Walk(st, p) == d && NodesKept(st, st', 0)
    ensures TreeOf(st') == Moved(TreeOf(st), p, E(st, d, s).name, m)
  {
    var o := SlotName(st, st', d, s, m);
    ZeroUnreached(st, w);
    hide TreeInv, Renamed, TreeOf, Walk, NodeOf, Live, E, Back, Moved;
    forall q: Path
      ensures q in TreeOf(st') <==> !(p + [o] <= q) && Back(p, o, m, q) in TreeOf(st)
      ensures q in TreeOf(st') ==> TreeOf(st')[q] == TreeOf(st)[Back(p, o, m, q)]
    {
      InTree(st, w, Back(p, o, m, q));
      InTree(st', w', q);
      RenamedWalk(st, st', w, w', d, s, m, p, q);
    }
    MovedIs(TreeOf(st), TreeOf(st'), p, o, m);
  }

  lemma MovedIs(t: AbsTree, t': AbsTree, p: Path, o: Name, m: Name)
    requires forall q: Path :: q in t' <==> !(p + [o] <= q) && Back(p, o, m, q) in t
    requires forall q: Path :: q in t' ==> t'[q] == t[Back(p, o, m, q)]
    ensures t' == Moved(t, p, o, m)
  {
    hide Back;
  }

  lemma ZeroUnreached(st: Store, w: Wit)
    requires TreeInv(st, w)
    ensures forall q: Path :: Walk(st, q) != 0
  {
    forall q: Path ensures Walk(st, q) != 0 {
      hide Lookup, DirOk;
      WalkLive(st, w, q);
      if q != [] && Walk(st, q) >= 0 { WalkParent(st, w, q); LookupLive(st, w, Walk(st, Init(q)), Last(q)); }
    }
  }
}
