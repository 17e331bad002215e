/** Stopping an append after any device write made for one logical block. */
module CrashSteps {
  import opened Layout
  import opened State
  import opened AttachProofs
  import opened FileWrite
  import opened WriteProofs
  import opened WriteTheorems
  import opened WriteSteps
  import opened WriteLoops
  import opened WriteLog
  import opened StepLog
  import opened Device
  import opened CrashTheorems

  // ---- the mounted store, write by write ----

  function Shown(st: Store, w: DevWrite): Store {
    match w
    case ToInodeMap(m) => st.(inodeMap := m)
    case ToBlockMap(m) => st.(blockMap := m)
    case ToInodes(t) => st.(inodes := t)
    case OverMetadata(_, m, b, t) => st.(inodeMap := m, blockMap := b, inodes := t)
    case ToBlock(p, b) => if p < |st.blocks| then st.(blocks := st.blocks[p := b]) else st
  }

  function ShownAll(st: Store, ws: seq<DevWrite>): Store
    decreases |ws|
  {
    if ws == [] then st else ShownAll(Shown(st, ws[0]), ws[1..])
  }

  /** Mounting after some writes shows them one by one. */
  lemma {:induction false} MountReplay(d: Disk, ws: seq<DevWrite>)
    ensures Mount(Replay(d, ws)) == ShownAll(Mount(d), ws)
    decreases |ws|
  {
    if ws != [] {
      assert ws == [ws[0]] + ws[1..];
      ReplayTwo(d, [ws[0]], ws[1..]);
      ReplayOne(d, [], ws[0]);
      assert [] + [ws[0]] == [ws[0]];
      MountReplay(Apply(d, ws[0]), ws[1..]);
    }
  }

  /** m is what an append to file i may leave of st: all else is as it was, the
      file is as long as before or n bytes longer, and its old bytes are there. */
  ghost predicate Cut(st: Store, m: Store, i: nat, n: nat, clean: bool)
    requires i < |st.inodes|
  {
    && OthersSame(st, m, i)
    && (m.inodes[i].size == st.inodes[i].size || m.inodes[i].size == st.inodes[i].size + n)
    && (forall x: nat :: x < st.inodes[i].size ==> ByteAt(m, i, x) == ByteAt(st, i, x))
    && (clean ==> Sound(m))
  }

  /** So is every store shown on the way through ws. */
  ghost predicate Cuts(st: Store, cur: Store, ws: seq<DevWrite>, i: nat, n: nat, clean: bool)
    requires i < |st.inodes|
    decreases |ws|
  {
    Cut(st, cur, i, n, clean) && (ws != [] ==> Cuts(st, Shown(cur, ws[0]), ws[1..], i, n, clean))
  }

  lemma {:induction false} CutsAt(st: Store, cur: Store, ws: seq<DevWrite>, i: nat, n: nat, clean: bool, k: nat)
    requires i < |st.inodes| && Cuts(st, cur, ws, i, n, clean) && k <= |ws|
    ensures Cut(st, ShownAll(cur, ws[..k]), i, n, clean)
    decreases k
  {
    hide Cut, Shown;
    if k > 0 {
      CutsAt(st, Shown(cur, ws[0]), ws[1..], i, n, clean, k - 1);
      assert ws[..k][1..] == ws[1..][..k - 1];
    }
  }

  lemma {:induction false} CutsJoin(st: Store, cur: Store, a: seq<DevWrite>, b: seq<DevWrite>, i: nat, n: nat, clean: bool)
    requires i < |st.inodes| && Cuts(st, cur, a, i, n, clean) && Cuts(st, ShownAll(cur, a), b, i, n, clean)
    ensures Cuts(st, cur, a + b, i, n, clean) && ShownAll(cur, a + b) == ShownAll(ShownAll(cur, a), b)
    decreases |a|
  {
    hide Cut, Shown;
    if a == [] {
      assert a + b == b;
    } else {
      CutsJoin(st, Shown(cur, a[0]), a[1..], b, i, n, clean);
      assert (a + b)[1..] == a[1..] + b;
    }
  }

  lemma CutsOne(st: Store, a: Store, w: DevWrite, b: Store, i: nat, n: nat, clean: bool)
    requires i < |st.inodes| && Cut(st, a, i, n, clean) && b == Shown(a, w) && Cut(st, b, i, n, clean)
    ensures Cuts(st, a, [w], i, n, clean) && ShownAll(a, [w]) == b
  {
    hide Cut, Shown;
    assert [w][1..] == [];
    assert Cuts(st, b, [], i, n, clean);
  }

  lemma CutsMore(st: Store, a: Store, ws: seq<DevWrite>, b: Store, w: DevWrite, c: Store, i: nat, n: nat, clean: bool)
    requires i < |st.inodes| && Cuts(st, a, ws, i, n, clean) && ShownAll(a, ws) == b
    requires Cut(st, b, i, n, clean) && c == Shown(b, w) && Cut(st, c, i, n, clean)
    ensures Cuts(st, a, ws + [w], i, n, clean) && ShownAll(a, ws + [w]) == c
  {
    hide Cut, Shown, Cuts, ShownAll;
    CutsOne(st, b, w, c, i, n, clean);
    CutsJoin(st, a, ws, [w], i, n, clean);
  }

  lemma CutsTwo(st: Store, a: Store, u: DevWrite, b: Store, v: DevWrite, c: Store, i: nat, n: nat, clean: bool)
    requires i < |st.inodes| && Cut(st, a, i, n, clean) && Cut(st, b, i, n, clean) && Cut(st, c, i, n, clean)
    requires b == Shown(a, u) && c == Shown(b, v)
    ensures Cuts(st, a, [u, v], i, n, clean) && ShownAll(a, [u, v]) == c
  {
    hide Cut, Shown, Cuts, ShownAll;
    CutsOne(st, a, u, b, i, n, clean);
    CutsMore(st, a, [u], b, v, c, i, n, clean);
    assert [u] + [v] == [u, v];
  }

  lemma CutsThree(st: Store, a: Store, u: DevWrite, b: Store, v: DevWrite, c: Store, w: DevWrite, d: Store, i: nat, n: nat,
                  clean: bool)
    requires i < |st.inodes| && Cut(st, a, i, n, clean) && Cut(st, b, i, n, clean) && Cut(st, c, i, n, clean)
    requires Cut(st, d, i, n, clean) && b == Shown(a, u) && c == Shown(b, v) && d == Shown(c, w)
    ensures Cuts(st, a, [u, v, w], i, n, clean) && ShownAll(a, [u, v, w]) == d
  {
    hide Cut, Shown, Cuts, ShownAll;
    CutsTwo(st, a, u, b, v, c, i, n, clean);
    CutsMore(st, a, [u, v], c, w, d, i, n, clean);
    assert [u, v] + [w] == [u, v, w];
  }

  // ---- what keeps a file's bytes ----

  /** a is st but for things file i has in addition. */
  ghost predicate Kept(st: Store, a: Store, i: nat)
    requires i < |st.inodes|
  {
    && OthersSame(st, a, i) && a.inodes[i].size == st.inodes[i].size
    && forall x: nat :: x < st.inodes[i].size ==> ByteAt(a, i, x) == ByteAt(st, i, x)
  }

  lemma KeptCut(st: Store, a: Store, i: nat, n: nat, clean: bool)
    requires i < |st.inodes| && Kept(st, a, i) && (clean ==> Sound(a))
    ensures Cut(st, a, i, n, clean)
  {
    hide OthersSame, ByteAt, Sound;
  }

  lemma CutFrom(st: Store, g: Store, m: Store, i: nat, n: nat, clean: bool)
    requires i < |st.inodes| && Kept(st, g, i) && i < |g.inodes| && Cut(g, m, i, n, clean)
    ensures Cut(st, m, i, n, clean)
  {
    OthersSameTrans(st, g, m, i);
    hide OthersSame, ByteAt, Sound;
  }

  lemma {:induction false} CutsFrom(st: Store, g: Store, cur: Store, ws: seq<DevWrite>, i: nat, n: nat, clean: bool)
    requires i < |st.inodes| && Kept(st, g, i) && i < |g.inodes| && Cuts(g, cur, ws, i, n, clean)
    ensures Cuts(st, cur, ws, i, n, clean)
    decreases |ws|
  {
    hide Kept, Cut, Shown;
    CutFrom(st, g, cur, i, n, clean);
    if ws != [] { CutsFrom(st, g, Shown(cur, ws[0]), ws[1..], i, n, clean); }
  }

  lemma ExtendsKept(st: Store, a: Store, i: nat)
    requires Live(st, i) && Shape(st, i) && Extends(st, a, i)
    ensures Kept(st, a, i)
  {
    ExtendsOthers(st, a, i);
    hide OthersSame;
    forall x: nat | x < st.inodes[i].size ensures ByteAt(a, i, x) == ByteAt(st, i, x) { assert T(st, i, Data(x / 1024)) != 0; }
  }

  /** The size of inode i, n more. */
  function Longer(a: Store, i: nat, n: nat): Store
    requires i < |a.inodes|
  {
    a.(inodes := a.inodes[i := a.inodes[i].(size := a.inodes[i].size + n)])
  }

  lemma LongerTargets(a: Store, i: nat, n: nat)
    requires i < |a.inodes|
    ensures forall j: nat, m :: j < |a.inodes| ==> T(Longer(a, i, n), j, m) == T(a, j, m)
  {
  }

  lemma LongerCut(st: Store, a: Store, i: nat, n: nat, clean: bool)
    requires i < |st.inodes| && Kept(st, a, i) && i < |a.inodes| && (clean ==> Sound(a))
    ensures Cut(st, Longer(a, i, n), i, n, clean)
  {
    hide Target, Sound;
    LongerTargets(a, i, n);
    if clean { LongerSound(a, i, n); }
  }

  lemma LongerSound(a: Store, i: nat, n: nat)
    requires i < |a.inodes| && Sound(a)
    ensures Sound(Longer(a, i, n))
  {
    hide Target;
    LongerTargets(a, i, n);
    var ow :| Good(a, ow);
    assert Good(Longer(a, i, n), ow);
  }

  // ---- a bit more, a pointer more ----

  lemma BitKept(st: Store, i: nat, b: nat)
    requires Sized(st) && i < |st.inodes| && b < |st.blockMap|
    ensures var a := st.(blockMap := st.blockMap[b := true]); Kept(st, a, i) && (Sound(st) ==> Sound(a))
  {
    var a := st.(blockMap := st.blockMap[b := true]);
    assert forall j: nat, m :: j < |st.inodes| ==> T(a, j, m) == T(st, j, m);
    hide Target;
    if Sound(st) {
      var ow :| Good(st, ow);
      assert Good(a, ow);
    }
  }

  /** A pointer to block b stored while b still has its old contents. */
  lemma PointerKept(st: Store, ow: Owners, i: nat, loc: Loc, b: nat)
    requires Good(st, ow) && CanAttach(st, i, loc, b) && Shape(st, i)
    requires loc.Data? || NoPointers(st.blocks[b])
    ensures var a := Attach(st, i, loc, b, st.blocks[b]); Kept(st, a, i) && Sound(a)
  {
    hide Shape, Target, NoPointers, Owned, Attach, Kept, Extends;
    AttachOwned(st, ow, i, loc, b, st.blocks[b]);
    AttachExtends(st, ow, i, loc, b, st.blocks[b]);
    ExtendsKept(st, Attach(st, i, loc, b, st.blocks[b]), i);
    assert Good(Attach(st, i, loc, b, st.blocks[b]), ow[b := (i, loc)]);
  }

  /** An index pointer to a block with old words: the file's bytes do not go
      through it. */
  lemma IndexKept(st: Store, i: nat, loc: Loc, b: nat)
    requires Live(st, i) && Shape(st, i) && loc in {Ind1, Ind2} && T(st, i, loc) == 0
    ensures var n := st.inodes[i];
            Kept(st, st.(inodes := st.inodes[i := if loc.Ind1? then n.(indir1 := b) else n.(indir2 := b)]), i)
  {
    var n := st.inodes[i];
    var a := st.(inodes := st.inodes[i := if loc.Ind1? then n.(indir1 := b) else n.(indir2 := b)]);
    forall x: nat | x < n.size ensures ByteAt(a, i, x) == ByteAt(st, i, x) { assert T(st, i, Data(x / 1024)) != 0; }
    assert forall j: nat, m :: j < |st.inodes| && j != i ==> T(a, j, m) == T(st, j, m);
    hide Target;
  }

  lemma ShapeGrown(st: Store, g: Store, i: nat, l: nat, loc: Loc)
    requires Live(st, i) && Shape(st, i) && l < 65798 && l == st.inodes[i].size / 1024 && FirstBlock(loc) <= l
    requires Extends(st, g, i) && forall m :: m != loc ==> T(g, i, m) == T(st, i, m)
    ensures Shape(g, i) && Live(g, i) && g.inodes[i].size == st.inodes[i].size
  {
    hide Target, FirstBlock;
    ShapeKept(st, g, i, l, st.inodes[i].size);
  }

  lemma SoundClean(st: Store, ow: Owners)
    requires Good(st, ow)
    ensures Sound(st) && Sized(st)
  {
  }

  // ---- the writes for an index block ----

  lemma NeedCuts(st: Store, ow: Owners, i: nat, loc: Loc, n: nat, clean: bool)
    requires Good(st, ow) && Live(st, i) && Shape(st, i) && loc in {Ind1, Ind2} && (clean ==> FreeClean(st))
    ensures Cuts(st, st, NeedWrites(st, i, loc), i, n, clean)
    ensures ShownAll(st, NeedWrites(st, i, loc)) == Grow(st, i, loc).st
  {
    hide FreeClean, Target, Kept, Cut, Cuts, ShownAll, FirstFree, NoPointers, Shape, Extends, Owned, Sound, Leaked, Attach;
    SoundClean(st, ow);
    GrowFull(st, i, loc);
    var b := FirstFree(st.blockMap, st.start, |st.blocks|);
    var g := Grow(st, i, loc).st;
    SelfCut(st, i, n, clean);
    if T(st, i, loc) == 0 && b < |st.blocks| {
      FreeIsFree(st.blockMap, st.start, |st.blocks|);
      GrowIndirect(st, i, loc);
      hide Grow;
      var a1 := st.(blockMap := st.blockMap[b := true]);
      var a2 := a1.(inodes := g.inodes);
      BitKept(st, i, b);
      KeptCut(st, a1, i, n, clean);
      NeedPointer(st, ow, i, loc, b, n, clean);
      GrownCut(st, ow, i, loc, n, clean);
      CutsThree(st, st, ToBlockMap(g.blockMap), a1, ToInodes(g.inodes), a2, ToBlock(b, ZeroBlock), g, i, n, clean);
      assert NeedWrites(st, i, loc) == [ToBlockMap(g.blockMap), ToInodes(g.inodes), ToBlock(b, ZeroBlock)];
    } else {
      NothingCuts(st, i, n, clean);
    }
  }

  lemma SelfCut(st: Store, i: nat, n: nat, clean: bool)
    requires i < |st.inodes| && (clean ==> Sound(st))
    ensures Cut(st, st, i, n, clean)
  {
    OthersRefl(st, i);
    hide OthersSame, Sound, ByteAt;
  }

  lemma NothingCuts(st: Store, i: nat, n: nat, clean: bool)
    requires i < |st.inodes| && Cut(st, st, i, n, clean)
    ensures Cuts(st, st, [], i, n, clean) && ShownAll(st, []) == st
  {
    hide Cut;
  }

  lemma GrownCut(st: Store, ow: Owners, i: nat, loc: Loc, n: nat, clean: bool)
    requires Good(st, ow) && Live(st, i) && Shape(st, i) && LocOk(loc) && (loc.Outer? && T(st, i, loc) == 0 ==> GrowClean(st, loc))
    requires CellOf(loc).InBlock? ==> T(st, i, CellOf(loc).parent) != 0
    ensures Kept(st, Grow(st, i, loc).st, i) && Cut(st, Grow(st, i, loc).st, i, n, clean) && Sound(Grow(st, i, loc).st)
  {
    hide Target, Shape, Extends, Owned, Leaked, Grow, Kept, Cut, GrowClean;
    if T(st, i, loc) == 0 && !loc.Outer? { CleanAnyway(st, loc); }
    var ow' := GrowOk(st, ow, i, loc);
    var g := Grow(st, i, loc).st;
    SoundClean(g, ow');
    ExtendsKept(st, g, i);
    KeptCut(st, g, i, n, clean);
  }

  lemma CleanAnyway(st: Store, loc: Loc)
    requires Sized(st) && !loc.Outer?
    ensures GrowClean(st, loc)
  {
  }

  /** The store with the pointer to an index block that is not yet zeroed. */
  lemma NeedPointer(st: Store, ow: Owners, i: nat, loc: Loc, b: nat, n: nat, clean: bool)
    requires Good(st, ow) && Live(st, i) && Shape(st, i) && loc in {Ind1, Ind2} && T(st, i, loc) == 0
    requires st.start <= b < |st.blocks| && !st.blockMap[b] && (clean ==> FreeClean(st))
    ensures var s := st.inodes[i];
            var a := st.(blockMap := st.blockMap[b := true],
                         inodes := st.inodes[i := if loc.Ind1? then s.(indir1 := b) else s.(indir2 := b)]);
            Cut(st, a, i, n, clean)
  {
    hide Target, Shape, Kept, Cut, Owned, Sound, NoPointers;
    var s := st.inodes[i];
    var a1 := st.(blockMap := st.blockMap[b := true]);
    var a := a1.(inodes := st.inodes[i := if loc.Ind1? then s.(indir1 := b) else s.(indir2 := b)]);
    SoundClean(st, ow);
    BitKept(st, i, b);
    SameShape(st, a1, i);
    IndexKept(a1, i, loc, b);
    KeptTrans(st, a1, a, i);
    if clean {
      PointerKept(st, ow, i, loc, b);
      assert Attach(st, i, loc, b, st.blocks[b]) == a by { AttachIndirect(st, i, loc, b); }
    }
    KeptCut(st, a, i, n, clean);
  }

  lemma AttachIndirect(st: Store, i: nat, loc: Loc, b: nat)
    requires i < |st.inodes| && loc in {Ind1, Ind2} && b < |st.blocks| <= |st.blockMap|
    ensures var s := st.inodes[i];
            Attach(st, i, loc, b, st.blocks[b]) ==
            st.(blockMap := st.blockMap[b := true],
                inodes := st.inodes[i := if loc.Ind1? then s.(indir1 := b) else s.(indir2 := b)])
  {
    assert st.blocks[b := st.blocks[b]] == st.blocks;
  }

  lemma SameShape(st: Store, a: Store, i: nat)
    requires Live(st, i) && Shape(st, i) && a == st.(blockMap := a.blockMap)
    ensures Live(a, i) && Shape(a, i) && forall m :: T(a, i, m) == T(st, i, m)
  {
    assert forall m :: T(a, i, m) == T(st, i, m);
    hide Target;
  }

  lemma KeptTrans(st: Store, a: Store, b: Store, i: nat)
    requires i < |st.inodes| && Kept(st, a, i) && i < |a.inodes| && Kept(a, b, i)
    ensures Kept(st, b, i)
  {
    OthersSameTrans(st, a, b, i);
    hide OthersSame, ByteAt;
  }

  lemma OuterCuts(st: Store, ow: Owners, i: nat, k: nat, n: nat, clean: bool)
    requires Good(st, ow) && Live(st, i) && Shape(st, i) && k < 256 && T(st, i, Ind2) != 0
    requires T(st, i, Outer(k)) == 0 ==> GrowClean(st, Outer(k))
    ensures Cuts(st, st, OuterNeed(st, i, k), i, n, clean)
    ensures ShownAll(st, OuterNeed(st, i, k)) == Grow(st, i, Outer(k)).st
  {
    hide GrowClean, Target, Kept, Cut, Cuts, ShownAll, FirstFree, NoPointers, Shape, Extends, Owned, Sound, Attach, SetPtr, Ptr;
    SoundClean(st, ow);
    GrowFull(st, i, Outer(k));
    var b := FirstFree(st.blockMap, st.start, |st.blocks|);
    var g := Grow(st, i, Outer(k)).st;
    SelfCut(st, i, n, clean);
    if T(st, i, Outer(k)) == 0 && b < |st.blocks| {
      GrowOuterIs(st, i, k);
      hide Grow;
      var q := st.inodes[i].indir2;
      var a1 := st.(blockMap := st.blockMap[b := true]);
      BitKept(st, i, b);
      KeptCut(st, a1, i, n, clean);
      GrownCut(st, ow, i, Outer(k), n, clean);
      CutsTwo(st, st, ToBlockMap(g.blockMap), a1, ToBlock(q, BlockAt(g.blocks, q)), g, i, n, clean);
      assert OuterNeed(st, i, k) == [ToBlockMap(g.blockMap), ToBlock(q, BlockAt(g.blocks, q))];
    } else {
      NothingCuts(st, i, n, clean);
    }
  }

  // ---- the writes for a data block ----

  ghost predicate Appending(st: Store, ow: Owners, i: nat, l: nat, off: nat) {
    Good(st, ow) && Live(st, i) && Shape(st, i) && l < 65798 && AtEnd(st, i, l, off) && StepClean(st, i, l)
  }

  /** Once all is written. */
  lemma LastCut(st: Store, ow: Owners, i: nat, l: nat, off: nat, data: seq<byte>, n: nat, clean: bool)
    requires Appending(st, ow, i, l, off)
    requires var s := WriteStep(st, i, l, off, data); s.Wrote? ==> n == s.k
    ensures Cut(st, WriteStep(st, i, l, off, data).st, i, n, clean)
  {
    hide Owned, Shape, Contents, WriteStep, StepClean, OthersSame, AtEnd, Leaked, ByteAt;
    var ow' := StepOwned(st, ow, i, l, off, data);
    StepAppend(st, ow, i, l, off, data);
    var s := WriteStep(st, i, l, off, data);
    SoundClean(s.st, ow');
    ContentsBytes(st, s.st, i, if s.Wrote? then data[..s.k] else []);
  }

  lemma ContentsBytes(st: Store, s: Store, i: nat, c: seq<byte>)
    requires i < |st.inodes| == |s.inodes| && Contents(s, i) == Contents(st, i) + c
    ensures s.inodes[i].size == st.inodes[i].size + |c|
    ensures forall x: nat :: x < st.inodes[i].size ==> ByteAt(s, i, x) == ByteAt(st, i, x)
  {
    hide ByteAt;
    assert |Contents(s, i)| == s.inodes[i].size;
    forall x: nat | x < st.inodes[i].size ensures ByteAt(s, i, x) == ByteAt(st, i, x) {
      assert Contents(s, i)[x] == Contents(st, i)[x];
    }
  }

  /** The pointer to a data block is there and the size grown, but not the data. */
  lemma HalfCut(st: Store, ow: Owners, i: nat, loc: Loc, b: nat, k: nat, clean: bool)
    requires Good(st, ow) && CanAttach(st, i, loc, b) && Shape(st, i) && loc.Data?
    ensures i < |Attach(st, i, loc, b, st.blocks[b]).inodes|
    ensures Cut(st, Longer(Attach(st, i, loc, b, st.blocks[b]), i, k), i, k, clean)
  {
    hide Shape, Owned, Kept, Cut, Attach, Sound, Target, NoPointers;
    AttachFields(st, ow, i, loc, b, st.blocks[b]);
    PointerKept(st, ow, i, loc, b);
    LongerCut(st, Attach(st, i, loc, b, st.blocks[b]), i, k, clean);
  }

  /** The size is grown and nothing else, perhaps with a bit for the new block. */
  lemma SizeCut(st: Store, ow: Owners, i: nat, b: nat, k: nat, clean: bool)
    requires Good(st, ow) && Live(st, i)
    ensures Cut(st, Longer(st, i, k), i, k, clean)
    ensures b < |st.blockMap| ==>
              var a := st.(blockMap := st.blockMap[b := true]);
              Cut(st, a, i, k, clean) && Cut(st, Longer(a, i, k), i, k, clean)
  {
    hide Owned, Kept, Cut, Sound, Target;
    SoundClean(st, ow);
    SelfKept(st, i);
    LongerCut(st, st, i, k, clean);
    if b < |st.blockMap| {
      var a := st.(blockMap := st.blockMap[b := true]);
      BitKept(st, i, b);
      KeptCut(st, a, i, k, clean);
      LongerCut(st, a, i, k, clean);
    }
  }

  lemma SelfKept(st: Store, i: nat)
    requires i < |st.inodes|
    ensures Kept(st, st, i)
  {
    OthersRefl(st, i);
    hide OthersSame, ByteAt;
  }

  lemma DirectCuts(st: Store, ow: Owners, i: nat, l: nat, off: nat, data: seq<byte>, n: nat, clean: bool)
    requires Appending(st, ow, i, l, off) && l < 6
    requires var s := WriteStep(st, i, l, off, data); s.Wrote? ==> n == s.k
    ensures Cuts(st, st, DirectWrites(st, i, l, off, data), i, n, clean)
    ensures ShownAll(st, DirectWrites(st, i, l, off, data)) == WriteStep(st, i, l, off, data).st
  {
    hide Shape, Target, Owned, Cut, Cuts, ShownAll, FirstFree, Attach, Sound, AtEnd, StepClean, Stored;
    SoundClean(st, ow);
    DirectHere(st, ow, i, l);
    DirectStepIs(st, i, l, off, data);
    LastCut(st, ow, i, l, off, data, n, clean);
    SelfCut(st, i, n, clean);
    var s := WriteStep(st, i, l, off, data);
    hide WriteStep;
    var b := FirstFree(st.blockMap, st.start, |st.blocks|);
    if s.Stop? {
      NothingCuts(st, i, n, clean);
    } else {
      var p := s.st.inodes[i].direct[l];
      SizeCut(st, ow, i, b, n, clean);
      if st.inodes[i].direct[l] == 0 {
        FreeIsFree(st.blockMap, st.start, |st.blocks|);
        InodePointers(st, i);
        HalfCut(st, ow, i, Data(l), b, n, clean);
        AttachDirect(st, i, l, b, n);
        var a1 := st.(blockMap := st.blockMap[b := true]);
        var a2 := Longer(Attach(st, i, Data(l), b, st.blocks[b]), i, n);
        CutsThree(st, st, ToBlockMap(s.st.blockMap), a1, ToInodes(s.st.inodes), a2, ToBlock(p, BlockAt(s.st.blocks, p)), s.st,
                  i, n, clean);
        assert DirectWrites(st, i, l, off, data)
            == [ToBlockMap(s.st.blockMap), ToInodes(s.st.inodes), ToBlock(p, BlockAt(s.st.blocks, p))];
      } else {
        assert st.inodes[i].direct[l := p] == st.inodes[i].direct;
        CutsTwo(st, st, ToInodes(s.st.inodes), Longer(st, i, n), ToBlock(p, BlockAt(s.st.blocks, p)), s.st, i, n, clean);
        assert DirectWrites(st, i, l, off, data) == [ToInodes(s.st.inodes), ToBlock(p, BlockAt(s.st.blocks, p))];
      }
    }
  }

  lemma DirectHere(st: Store, ow: Owners, i: nat, l: nat)
    requires Good(st, ow) && Live(st, i) && l < 6
    ensures st.inodes[i].direct[l] < |st.blocks|
  {
    InodePointers(st, i);
    hide Target;
    if T(st, i, Data(l)) != 0 { assert T(st, i, Data(l)) < |st.blocks|; }
  }

  lemma AttachDirect(st: Store, i: nat, l: nat, b: nat, k: nat)
    requires i < |st.inodes| && l < 6 && b < |st.blocks| <= |st.blockMap|
    ensures var n := st.inodes[i];
            i < |Attach(st, i, Data(l), b, st.blocks[b]).inodes| &&
            Longer(Attach(st, i, Data(l), b, st.blocks[b]), i, k) ==
            st.(blockMap := st.blockMap[b := true],
                inodes := st.inodes[i := n.(size := n.size + k, direct := n.direct[l := b])])
  {
    assert st.blocks[b := st.blocks[b]] == st.blocks;
    var n := st.inodes[i];
    var t := st.inodes[i := n.(direct := n.direct[l := b])];
    assert t[i := t[i].(size := t[i].size + k)] == st.inodes[i := n.(size := n.size + k, direct := n.direct[l := b])];
  }

  /** A pointer stored in index block q, from which only it was missing. */
  lemma AttachEntryIs(st: Store, ow: Owners, i: nat, l: nat, parent: Loc, e: nat, q: nat, b: nat, k: nat)
    requires Good(st, ow) && Live(st, i) && Through(st, i, l, parent, e, q) && CanAttach(st, i, Data(l), b)
    ensures e < 256 && i < |Attach(st, i, Data(l), b, st.blocks[b]).inodes|
    ensures Longer(Attach(st, i, Data(l), b, st.blocks[b]), i, k) ==
            st.(blockMap := st.blockMap[b := true], inodes := st.inodes[i := st.inodes[i].(size := st.inodes[i].size + k)],
                blocks := st.blocks[q := SetPtr(st.blocks[q], e, b)])
  {
    hide Target, Owned, SetPtr;
    AttachBlocks(st, ow, i, Data(l), b, st.blocks[b]);
    AttachFields(st, ow, i, Data(l), b, st.blocks[b]);
    hide Attach;
    assert st.blocks[b := st.blocks[b]] == st.blocks;
  }

  lemma FourWrites(st: Store, a: Store, t: DevWrite, b: Store, u: DevWrite, c: Store, v: DevWrite, d: Store, w: DevWrite, e: Store,
                   i: nat, n: nat, clean: bool)
    requires i < |st.inodes| && Cut(st, a, i, n, clean) && Cut(st, b, i, n, clean) && Cut(st, c, i, n, clean)
    requires Cut(st, d, i, n, clean) && Cut(st, e, i, n, clean)
    requires b == Shown(a, t) && c == Shown(b, u) && d == Shown(c, v) && e == Shown(d, w)
    ensures Cuts(st, a, [t] + [u, v, w], i, n, clean) && ShownAll(a, [t] + [u, v, w]) == e
  {
    hide Cut, Shown, Cuts, ShownAll;
    CutsThree(st, a, t, b, u, c, v, d, i, n, clean);
    CutsMore(st, a, [t, u, v], d, w, e, i, n, clean);
    assert [t, u, v] + [w] == [t] + [u, v, w];
  }

  lemma ThreeWrites(st: Store, a: Store, u: DevWrite, b: Store, v: DevWrite, c: Store, w: DevWrite, d: Store, i: nat, n: nat,
                    clean: bool)
    requires i < |st.inodes| && Cut(st, a, i, n, clean) && Cut(st, b, i, n, clean) && Cut(st, c, i, n, clean)
    requires Cut(st, d, i, n, clean) && b == Shown(a, u) && c == Shown(b, v) && d == Shown(c, w)
    ensures Cuts(st, a, [] + [u, v, w], i, n, clean) && ShownAll(a, [] + [u, v, w]) == d
  {
    hide Cut, Shown, Cuts, ShownAll;
    CutsThree(st, a, u, b, v, c, w, d, i, n, clean);
    assert [] + [u, v, w] == [u, v, w];
  }

  lemma ThroughOnDisk(st: Store, i: nat, l: nat, parent: Loc, e: nat, q: nat)
    requires i < |st.inodes| && Through(st, i, l, parent, e, q)
    ensures q < |st.blocks|
  {
  }

  lemma IndexedCuts(st: Store, ow: Owners, i: nat, l: nat, parent: Loc, e: nat, q: nat, off: nat, data: seq<byte>, n: nat,
                    clean: bool)
    requires Appending(st, ow, i, l, off) && Through(st, i, l, parent, e, q) && e < 256
    requires var s := WriteStep(st, i, l, off, data); s.Wrote? ==> n == s.k
    ensures Cuts(st, st, IndexedWrites(st, i, l, e, q, off, data), i, n, clean)
    ensures ShownAll(st, IndexedWrites(st, i, l, e, q, off, data)) == WriteStep(st, i, l, off, data).st
  {
    hide Shape, Target, Owned, Cut, Cuts, ShownAll, FirstFree, Attach, Sound, AtEnd, StepClean, Stored, Ptr, SetPtr, Through,
      IndexedWrites;
    SoundClean(st, ow);
    ThroughOnDisk(st, i, l, parent, e, q);
    IndexedWritesAre(st, i, l, parent, e, q, off, data);
    IndexedStepIs(st, i, l, parent, e, q, off, data);
    LastCut(st, ow, i, l, off, data, n, clean);
    SelfCut(st, i, n, clean);
    var s := WriteStep(st, i, l, off, data);
    hide WriteStep;
    var b := FirstFree(st.blockMap, st.start, |st.blocks|);
    var old_ := Ptr(st.blocks[q], e);
    if s.Stop? {
      NothingCuts(st, i, n, clean);
    } else {
      SizeCut(st, ow, i, b, n, clean);
      var y := Stored(st.blocks[if old_ == 0 then b else old_], old_ == 0, s.tb, data[..s.k]);
      if old_ == 0 {
        FreeIsFree(st.blockMap, st.start, |st.blocks|);
        EntryNull(st, i, l, parent, e, q, b);
        HalfCut(st, ow, i, Data(l), b, n, clean);
        AttachEntryIs(st, ow, i, l, parent, e, q, b, n);
        var a1 := st.(blockMap := st.blockMap[b := true]);
        FourWrites(st, st, ToBlockMap(a1.blockMap), a1, ToInodes(Longer(st, i, n).inodes), Longer(a1, i, n),
                   ToBlock(q, SetPtr(st.blocks[q], e, b)), Longer(Attach(st, i, Data(l), b, st.blocks[b]), i, n),
                   ToBlock(b, y), s.st, i, n, clean);
      } else {
        assert st.blocks[q := st.blocks[q]] == st.blocks;
        ThreeWrites(st, st, ToInodes(Longer(st, i, n).inodes), Longer(st, i, n), ToBlock(q, st.blocks[q]), Longer(st, i, n),
                    ToBlock(old_, y), s.st, i, n, clean);
      }
    }
  }

  lemma EntryNull(st: Store, i: nat, l: nat, parent: Loc, e: nat, q: nat, b: nat)
    requires Sound(st) && Live(st, i) && Through(st, i, l, parent, e, q) && e < 256 && Ptr(st.blocks[q], e) == 0
    requires Geometry(st) && st.start <= b < |st.blocks| && !st.blockMap[b]
    ensures CanAttach(st, i, Data(l), b)
  {
    hide Target, Ptr, Sound;
    EntryIs(st, i, l, parent, e, q);
  }

  // ---- the inner double-indirect loop: data first ----

  /** Writing to a block that is free changes no file. */
  lemma FreeBlockKept(st: Store, ow: Owners, i: nat, b: nat, y: Block)
    requires Good(st, ow) && Live(st, i) && Shape(st, i) && st.start <= b < |st.blocks| && !st.blockMap[b]
    ensures var a := st.(blockMap := st.blockMap[b := true], blocks := st.blocks[b := y]); Kept(st, a, i) && Sound(a)
  {
    var a := st.(blockMap := st.blockMap[b := true], blocks := st.blocks[b := y]);
    forall j: nat, m | Live(st, j)
      ensures T(a, j, m) == T(st, j, m)
      ensures T(st, j, m) != 0 ==> BlockAt(a.blocks, T(st, j, m)) == BlockAt(st.blocks, T(st, j, m))
    {
      FreeTargets(st, a, ow, |st.inodes|, j, m);
      if T(st, j, m) != 0 { OnDisk(st, ow, j, m); }
    }
    hide Target;
    assert Extends(st, a, i);
    ExtendsKept(st, a, i);
    assert Good(a, ow);
  }

  lemma OnDisk(st: Store, ow: Owners, j: nat, m: Loc)
    requires Good(st, ow) && Live(st, j) && T(st, j, m) != 0
    ensures T(st, j, m) < |st.blocks|
  {
    hide Target;
  }

  /** The writes and the store of one entry, spelled out. */
  lemma EntryIsStep(st: Store, i: nat, k: nat, b: nat, e: nat, off: nat, data: seq<byte>)
    requires InPlace(st, i, k, b) && e < 256
    ensures b < |st.blocks| && Ptr(st.blocks[b], e) < |st.blocks| && Ptr(st.blocks[b], e) != b
    ensures Ptr(st.blocks[b], e) != 0 ==> st.start <= Ptr(st.blocks[b], e)
    ensures var s, f, c := WriteStep(st, i, FirstOf(k) + e, off, data), FirstFree(st.blockMap, st.start, |st.blocks|), st.blocks[b];
            var isNew := Ptr(c, e) == 0;
            if s.Stop? then EntryWrites(st, i, b, c, e, off, data) == [] && s.st == st
            else
              var p, c' := if isNew then f else Ptr(c, e), if isNew then SetPtr(c, e, f) else c;
              && p < |st.blocks|
              && s.k == Min(1024 - (if isNew then 0 else off % 1024), |data|)
              && (var y := Stored(st.blocks[p], isNew, if isNew then 0 else off % 1024, data[..s.k]);
                  && EntryWrites(st, i, b, c, e, off, data) == (if isNew then [ToBlockMap(s.st.blockMap)] else [])
                     + [ToInodes(Longer(st, i, s.k).inodes), ToBlock(p, y), ToBlock(b, c')]
                  && s.st == Longer(st, i, s.k).(blockMap := if isNew then st.blockMap[p := true] else st.blockMap,
                                                 blocks := st.blocks[p := y][b := c']))
  {
    hide Target, FirstFree, Sound, Stored, Ptr, SetPtr;
    FillOneStep(st, i, k, b, e, off, data);
    InPlaceApart(st, i, k, b, e);
    InPlaceSized(st, i, k, b);
    FreeIsFree(st.blockMap, st.start, |st.blocks|);
    hide WriteStep, InPlace;
  }

  lemma EntryCuts(st: Store, ow: Owners, i: nat, k: nat, b: nat, e: nat, off: nat, data: seq<byte>, n: nat, clean: bool)
    requires InPlace(st, i, k, b) && e < 256 && Appending(st, ow, i, FirstOf(k) + e, off)
    requires var s := WriteStep(st, i, FirstOf(k) + e, off, data); s.Wrote? ==> n == s.k
    ensures Cuts(st, st, EntryWrites(st, i, b, st.blocks[b], e, off, data), i, n, clean)
    ensures ShownAll(st, EntryWrites(st, i, b, st.blocks[b], e, off, data)) == WriteStep(st, i, FirstOf(k) + e, off, data).st
  {
    hide Shape, Target, Owned, Cut, Cuts, ShownAll, FirstFree, Sound, AtEnd, StepClean, Stored, Ptr, SetPtr, Kept, EntryWrites,
      WriteStep;
    var l := FirstOf(k) + e;
    SoundClean(st, ow);
    EntryIsStep(st, i, k, b, e, off, data);
    LastCut(st, ow, i, l, off, data, n, clean);
    SelfCut(st, i, n, clean);
    var s := WriteStep(st, i, l, off, data);
    var f, c := FirstFree(st.blockMap, st.start, |st.blocks|), st.blocks[b];
    if s.Stop? {
      NothingCuts(st, i, n, clean);
    } else {
      SizeCut(st, ow, i, f, n, clean);
      var p := if Ptr(c, e) == 0 then f else Ptr(c, e);
      var y := Stored(st.blocks[p], Ptr(c, e) == 0, if Ptr(c, e) == 0 then 0 else off % 1024, data[..s.k]);
      if Ptr(c, e) == 0 {
        FreeIsFree(st.blockMap, st.start, |st.blocks|);
        FreeBlockKept(st, ow, i, f, y);
        var a1 := st.(blockMap := st.blockMap[f := true]);
        var a2 := a1.(blocks := st.blocks[f := y]);
        LongerCut(st, a2, i, n, clean);
        FourWrites(st, st, ToBlockMap(a1.blockMap), a1, ToInodes(Longer(st, i, n).inodes), Longer(a1, i, n),
                   ToBlock(f, y), Longer(a2, i, n), ToBlock(b, SetPtr(c, e, f)), s.st, i, n, clean);
      } else {
        assert st.blocks[p := y][b := c] == st.blocks[p := y];
        ThreeWrites(st, st, ToInodes(Longer(st, i, n).inodes), Longer(st, i, n), ToBlock(p, y), s.st,
                    ToBlock(b, c), s.st, i, n, clean);
      }
    }
  }

  lemma InPlaceApart(st: Store, i: nat, k: nat, b: nat, e: nat)
    requires InPlace(st, i, k, b) && e < 256
    ensures b < |st.blocks| && Ptr(st.blocks[b], e) != b
    ensures Ptr(st.blocks[b], e) < |st.blocks| && (Ptr(st.blocks[b], e) != 0 ==> st.start <= Ptr(st.blocks[b], e))
  {
    hide Target, Ptr, Sound, StepClean, Through;
    InPlaceThrough(st, i, k, b, e);
    SoundSized(st);
    StartsAbove(st, i, FirstOf(k) + e);
    if T(st, i, Data(FirstOf(k) + e)) != 0 { InUse(st, i, Data(FirstOf(k) + e)); }
  }
}
