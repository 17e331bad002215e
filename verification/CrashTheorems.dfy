/** Stopping a create after any of its device writes: the disk mounts to the
    old tree until the last write and to the new tree after it. */
module CrashTheorems {
  import opened Layout
  import opened State
  import opened FileWrite
  import opened WriteProofs
  import opened Device
  import O = Ops
  import opened Tree
  import opened OpProofs
  import opened OpTheorems
  import opened Crash
  import F = FileSystem

  /** st' differs from st only in the free inode i, in bits that are set
      besides those of st, and in blocks st has free. */
  ghost predicate OnlyFree(st: Store, st': Store, i: nat) {
    && st'.start == st.start && |st'.blocks| == |st.blocks| && |st'.inodes| == |st.inodes|
    && |st'.inodeMap| == |st.inodeMap| && |st'.blockMap| == |st.blockMap| && !Live(st, i)
    && (forall j :: 0 <= j < |st.inodes| && j != i ==> st'.inodes[j] == st.inodes[j])
    && (forall j :: 0 <= j < |st.inodeMap| && st.inodeMap[j] ==> st'.inodeMap[j])
    && (forall p :: 0 <= p < |st.blockMap| && st.blockMap[p] ==> st'.blockMap[p])
    && (forall p :: 0 <= p < |st.blocks| && p < |st.blockMap| && st.blockMap[p] ==> st'.blocks[p] == st.blocks[p])
  }

  /** No block a path leads to is free, out of the data region or held twice,
      and no inode a path leads to is free. */
  ghost predicate Marked(st: Store) {
    && (forall q: O.Path :: O.Resolve(st, 1, q) >= 0 ==> Live(st, O.Resolve(st, 1, q)))
    && (forall q: O.Path, m :: O.Resolve(st, 1, q) >= 0 ==> InUseBy(st, O.Resolve(st, 1, q), m))
    && (forall q, q': O.Path, m, m' :: O.Resolve(st, 1, q) >= 0 && O.Resolve(st, 1, q') >= 0 ==>
          NotShared(st, O.Resolve(st, 1, q), m, O.Resolve(st, 1, q'), m'))
  }

  ghost predicate InUseBy(st: Store, r: nat, m: Loc) {
    r < |st.inodes| && T(st, r, m) != 0 ==>
      st.start <= T(st, r, m) < |st.blocks| && T(st, r, m) < |st.blockMap| && st.blockMap[T(st, r, m)]
  }

  ghost predicate NotShared(st: Store, r: nat, m: Loc, r': nat, m': Loc) {
    r < |st.inodes| && r' < |st.inodes| && T(st, r, m) == T(st, r', m') != 0 ==> r == r' && m == m'
  }

  lemma FreeTargets(st: Store, st': Store, ow: Owners, i: nat, j: nat, m: Loc)
    requires Good(st, ow) && OnlyFree(st, st', i) && Live(st, j)
    ensures Live(st', j) && st'.inodes[j] == st.inodes[j] && T(st', j, m) == T(st, j, m)
    ensures |st'.blocks| == |st.blocks|
    ensures T(st, j, m) != 0 ==> st'.blocks[T(st, j, m)] == st.blocks[T(st, j, m)]
    decreases if m.Data? then 2 else if m.Outer? then 1 else 0
  {
    if LocOk(m) {
      TargetCell(st.inodes[j], st.blocks, m);
      TargetCell(st.inodes[j], st'.blocks, m);
      match CellOf(m)
      case InInode =>
      case InBlock(parent, k) =>
        FreeTargets(st, st', ow, i, j, parent);
    }
  }

  lemma FreeContents(st: Store, st': Store, ow: Owners, i: nat, j: nat)
    requires Good(st, ow) && OnlyFree(st, st', i) && Live(st, j) && Shape(st, j)
    ensures j < |st'.inodes| && NodeOf(st', j) == NodeOf(st, j)
  {
    hide Target, Owned, OnlyFree;
    FreeTargets(st, st', ow, i, j, Ind1);
    forall x: nat | x < st.inodes[j].size ensures ByteAt(st', j, x) == ByteAt(st, j, x) {
      FreeTargets(st, st', ow, i, j, Data(x / 1024));
      assert T(st, j, Data(x / 1024)) != 0;
      InRegion(st, ow, j, Data(x / 1024));
    }
    assert Contents(st', j) == Contents(st, j);
  }

  lemma InRegion(st: Store, ow: Owners, j: nat, m: Loc)
    requires Good(st, ow) && Live(st, j) && T(st, j, m) != 0
    ensures st.start <= T(st, j, m) < |st.blocks| <= |st.blockMap| && st.blockMap[T(st, j, m)]
    ensures T(st, j, m) in ow && ow[T(st, j, m)] == (j, m)
  {
    hide Target;
  }

  lemma FreeDir(st: Store, st': Store, w: Wit, i: nat, d: nat)
    requires Good(st, w.ow) && TreeInv(st, w) && OnlyFree(st, st', i) && LiveDir(st, d)
    ensures O.DirBlock(st', d) == O.DirBlock(st, d)
  {
    hide Target, Owned, OnlyFree;
    AllDirPointers(st, w);
    DirBlockOwned(st, w.ow, d);
    FreeTargets(st, st', w.ow, i, d, Data(0));
    DirectZero(st, d);
  }

  /** Every path still leads where it led. */
  lemma {:induction false} FreeResolve(st: Store, st': Store, w: Wit, i: nat, d: nat, q: O.Path)
    requires Good(st, w.ow) && TreeInv(st, w) && OnlyFree(st, st', i) && (q != [] ==> LiveDir(st, d))
    ensures O.Resolve(st', d, q) == O.Resolve(st, d, q)
    decreases |q|
  {
    hide Good, OnlyFree, TreeInv, O.Resolve, Lookup, NamedDir;
    if q == [] {
      ResolveNil(st, d);
      ResolveNil(st', d);
    } else {
      FreeDir(st, st', w, i, d);
      ResolveFirst(st, d, q);
      ResolveFirst(st', d, q);
      SameBlockSameLookup(st, st', d, q[0]);
      LookupLive(st, w, d, q[0]);
      var r := Lookup(st, d, q[0]);
      if r >= 0 && (|q| > 1 ==> NamedDir(st, d, q[0])) { FreeResolve(st, st', w, i, r, q[1..]); }
    }
  }

  lemma SameBlockSameLookup(st: Store, st': Store, d: nat, n: Name)
    requires O.DirBlock(st', d) == O.DirBlock(st, d)
    ensures Lookup(st', d, n) == Lookup(st, d, n) && NamedDir(st', d, n) == NamedDir(st, d, n)
  {
  }

  /** Touching only what is free changes neither the tree nor what it rests on. */
  lemma FreeTree(st: Store, st': Store, w: Wit, i: nat)
    requires InvW(st, w) && OnlyFree(st, st', i)
    ensures TreeOf(st') == TreeOf(st) && Marked(st')
  {
    hide Good, OnlyFree, TreeInv, O.Resolve, Shapes, NodeOf, InUseBy, NotShared;
    forall q: O.Path
      ensures O.Resolve(st', 1, q) == O.Resolve(st, 1, q)
      ensures O.Resolve(st, 1, q) >= 0 ==> Live(st', O.Resolve(st, 1, q))
      ensures O.Resolve(st, 1, q) >= 0 ==> NodeOf(st', O.Resolve(st, 1, q)) == NodeOf(st, O.Resolve(st, 1, q))
    {
      FreePath(st, st', w, i, q);
    }
    assert TreeOf(st') == TreeOf(st);
    forall q: O.Path, m | O.Resolve(st', 1, q) >= 0 ensures InUseBy(st', O.Resolve(st', 1, q), m) {
      FreeHeld(st, st', w, i, q, m);
    }
    forall q, q': O.Path, m, m' | O.Resolve(st', 1, q) >= 0 && O.Resolve(st', 1, q') >= 0
      ensures NotShared(st', O.Resolve(st', 1, q), m, O.Resolve(st', 1, q'), m')
    {
      FreeApart(st, st', w, i, q, m, q', m');
    }
  }

  lemma FreePath(st: Store, st': Store, w: Wit, i: nat, q: O.Path)
    requires InvW(st, w) && OnlyFree(st, st', i)
    ensures var r := O.Resolve(st, 1, q);
            && O.Resolve(st', 1, q) == r
            && (r >= 0 ==> Live(st, r) && Live(st', r) && NodeOf(st', r) == NodeOf(st, r))
  {
    hide Owned, OnlyFree, O.Resolve, NodeOf, Target, Shape;
    assert RootOk(st, w);
    hide TreeInv;
    FreeResolve(st, st', w, i, 1, q);
    var r := Resolved(st, w, q);
    if r >= 0 {
      FreeTargets(st, st', w.ow, i, r, Ind1);
      assert Shape(st, r);
      FreeContents(st, st', w.ow, i, r);
    }
  }

  lemma FreeHeld(st: Store, st': Store, w: Wit, i: nat, q: O.Path, m: Loc)
    requires InvW(st, w) && OnlyFree(st, st', i)
    ensures O.Resolve(st', 1, q) == O.Resolve(st, 1, q)
    ensures O.Resolve(st, 1, q) >= 0 ==> InUseBy(st', O.Resolve(st, 1, q), m)
  {
    hide Owned, O.Resolve, NodeOf, Target, TreeInv, Shapes;
    FreePath(st, st', w, i, q);
    var r := O.Resolve(st, 1, q);
    if r >= 0 {
      FreeTargets(st, st', w.ow, i, r, m);
      if T(st, r, m) != 0 { InRegion(st, w.ow, r, m); }
    }
  }

  lemma FreeApart(st: Store, st': Store, w: Wit, i: nat, q: O.Path, m: Loc, q': O.Path, m': Loc)
    requires InvW(st, w) && OnlyFree(st, st', i)
    ensures var r, r' := O.Resolve(st', 1, q), O.Resolve(st', 1, q');
            r >= 0 && r' >= 0 ==> NotShared(st', r, m, r', m')
  {
    hide Owned, O.Resolve, NodeOf, Target, TreeInv, Shapes, OnlyFree;
    FreePath(st, st', w, i, q);
    FreePath(st, st', w, i, q');
    var r, r' := O.Resolve(st, 1, q), O.Resolve(st, 1, q');
    if r >= 0 && r' >= 0 {
      FreeTargets(st, st', w.ow, i, r, m);
      FreeTargets(st, st', w.ow, i, r', m');
      if T(st, r, m) == T(st, r', m') != 0 {
        InRegion(st, w.ow, r, m);
        InRegion(st, w.ow, r', m');
      }
    }
  }

  /** Under the invariant itself everything a path leads to is marked. */
  lemma InvMarked(st: Store, w: Wit)
    requires InvW(st, w)
    ensures Marked(st)
  {
    hide Good, TreeInv, Shapes, Marked, OnlyFree;
    var i := |st.inodes|;
    Unchanged(st, i);
    FreeTree(st, st, w, i);
  }

  lemma Unchanged(st: Store, i: nat)
    requires i >= |st.inodes|
    ensures OnlyFree(st, st, i)
  {
  }

  // ---- the writes of a create ----

  /** What the disk holds after the first k writes of a create. */
  lemma {:induction false} PrefixStores(disk: Disk, st: Store, d: nat, s: nat, i: nat, b: nat, n: Name, isDir: bool, k: nat)
    requires Mount(disk) == st && O.Roomy(st) && s < 32 && i < 64 && NameOk(n) && (isDir ==> b < |st.blocks|)
    requires d < |st.inodes| && d != i && st.inodes[d].direct[0] < |st.blocks|
    requires k <= |CreateWrites(st, d, s, i, b, n, isDir)|
    decreases k
    ensures var ws := CreateWrites(st, d, s, i, b, n, isDir);
            var st' := O.Create(st, d, s, i, b, n, isDir);
            var m := Mount(Replay(disk, ws[..k]));
            var k' := if isDir then k else k + 2;
            && |m.blocks| == |st.blocks| && m == Store(st.start, if k' >= 3 then st'.inodeMap else st.inodeMap,
                          if k' >= 1 then st'.blockMap else st.blockMap,
                          if k' >= 4 then st'.inodes else st.inodes,
                          if k' >= 5 then st'.blocks
                          else if k' >= 2 && isDir then st.blocks[b := ZeroBlock] else st.blocks)
  {
    hide PutEnt, O.Create, Replay;
    CreateFields(st, d, s, i, b, n, isDir);
    var ws := CreateWrites(st, d, s, i, b, n, isDir);
    ReplayPrefix(disk, ws, k);
    if k > 0 { PrefixStores(disk, st, d, s, i, b, n, isDir, k - 1); }
    else { assert ws[..0] == []; }
  }

  lemma ReplayPrefix(disk: Disk, ws: seq<DevWrite>, k: nat)
    requires k <= |ws|
    ensures var d0 := Replay(disk, []);
            d0 == disk && (k > 0 ==> Replay(disk, ws[..k]) == Apply(Replay(disk, ws[..k - 1]), ws[k - 1]))
  {
    if k > 0 { assert ws[..k][..k - 1] == ws[..k - 1]; }
  }

  /** Before the last write only free things have been touched. */
  lemma PrefixTouchesFree(disk: Disk, st: Store, d: nat, s: nat, i: nat, b: nat, n: Name, isDir: bool, k: nat)
    requires Mount(disk) == st && O.Roomy(st) && s < 32 && i < 64 && NameOk(n)
    requires isDir ==> b < |st.blocks| && !st.blockMap[b]
    requires d < |st.inodes| && d != i && st.inodes[d].direct[0] < |st.blocks| && !Live(st, i)
    requires k < |CreateWrites(st, d, s, i, b, n, isDir)|
    ensures OnlyFree(st, Mount(Replay(disk, CreateWrites(st, d, s, i, b, n, isDir)[..k])), i)
  {
    hide PutEnt, O.Create, Replay;
    PrefixStores(disk, st, d, s, i, b, n, isDir, k);
    CreateFields(st, d, s, i, b, n, isDir);
  }

  lemma AllWrites(disk: Disk, st: Store, d: nat, s: nat, i: nat, b: nat, n: Name, isDir: bool)
    requires Mount(disk) == st && O.Roomy(st) && s < 32 && i < 64 && NameOk(n) && (isDir ==> b < |st.blocks|)
    requires d < |st.inodes| && d != i && st.inodes[d].direct[0] < |st.blocks|
    ensures Mount(Replay(disk, CreateWrites(st, d, s, i, b, n, isDir))) == O.Create(st, d, s, i, b, n, isDir)
  {
    hide PutEnt, O.Create, Replay;
    var ws := CreateWrites(st, d, s, i, b, n, isDir);
    PrefixStores(disk, st, d, s, i, b, n, isDir, |ws|);
    assert ws[..|ws|] == ws;
    CreateFields(st, d, s, i, b, n, isDir);
  }

  /** Cutting a create short after any k of its device writes and mounting the
      disk again gives the old tree, or, once all are done, the new one; and
      everything a path leads to is marked allocated and held once. */
  lemma CreateCrash(disk: Disk, st: Store, path: O.Path, isDir: bool, k: nat)
    requires Mount(disk) == st && Inv(st) && O.Roomy(st) && path != [] && NameOk(O.Last(path))
    requires O.Mknod(st, path, isDir).rc == 0 && k <= |F.MknodWrites(st, path, isDir)|
    ensures var ws := F.MknodWrites(st, path, isDir);
            var m := Mount(Replay(disk, ws[..k]));
            && Marked(m)
            && TreeOf(m) == if k < |ws| then TreeOf(st)
                            else TreeOf(st)[path := if isDir then DirNode else FileNode([])]
  {
    hide InvW, F.MknodWrites, O.Mknod, Marked, TreeOf, NameOk, Replay, O.Resolve, O.ParentOf, O.Scan, FirstFree, O.DirBlock,
      O.Create, CreateWrites;
    var w :| InvW(st, w);
    F.MknodIs(st, path, isDir);
    var d, s := O.ParentOf(st, 1, path), O.Scan(O.DirBlock(st, O.ParentOf(st, 1, path)), O.Unused, 0);
    var i, b := FirstFree(st.inodeMap, 0, 64), FirstFree(st.blockMap, st.start, |st.blocks|);
    CreateApart(st, w, path);
    var ws := F.MknodWrites(st, path, isDir);
    if k < |ws| {
      PrefixTouchesFree(disk, st, d, s, i, b, O.Last(path), isDir, k);
      FreeTree(st, Mount(Replay(disk, ws[..k])), w, i);
    } else {
      assert ws[..k] == ws;
      AllWrites(disk, st, d, s, i, b, O.Last(path), isDir);
      CreateDone(st, w, path, isDir);
    }
  }

  lemma CreateApart(st: Store, w: Wit, path: O.Path)
    requires InvW(st, w) && O.Roomy(st) && path != [] && O.ParentOf(st, 1, path) >= 0
    ensures var d, i := O.ParentOf(st, 1, path), FirstFree(st.inodeMap, 0, 64);
            && LiveDir(st, d) && st.inodes[d].direct[0] < |st.blocks| && (i < 64 ==> d != i && !Live(st, i))
  {
    hide TreeInv, Shapes, O.ParentOf, Owned, DirPointers;
    var d := ParentIs(st, w, path);
    AllDirPointers(st, w);
    DirBlockOwned(st, w.ow, d);
  }

  lemma CreateDone(st: Store, w: Wit, path: O.Path, isDir: bool)
    requires InvW(st, w) && O.Roomy(st) && path != [] && NameOk(O.Last(path)) && O.Mknod(st, path, isDir).rc == 0
    ensures var st' := O.Mknod(st, path, isDir).st;
            Marked(st') && TreeOf(st') == TreeOf(st)[path := if isDir then DirNode else FileNode([])]
  {
    hide InvW, O.Mknod, Marked, TreeOf, NameOk;
    var w' := MknodMeetsSpec(st, w, path, isDir);
    InvMarked(O.Mknod(st, path, isDir).st, w');
  }
}
