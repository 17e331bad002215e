/** What fs_write keeps and what it adds: ownership, the bytes of other files,
    and, for appends, exactly the new bytes at the end. */
module WriteProofs {
  import opened Layout
  import opened State
  import opened AttachProofs
  import opened FileWrite

  ghost predicate SameSizes(st: Store, st': Store) {
    && st'.start == st.start && st'.inodeMap == st.inodeMap
    && |st'.blocks| == |st.blocks| && |st'.blockMap| == |st.blockMap| && |st'.inodes| == |st.inodes|
  }

  /** st' has only more blocks attached to inode i than st. */
  ghost predicate Extends(st: Store, st': Store, i: nat)
    requires i < |st.inodes|
  {
    && SameSizes(st, st')
    && (forall j :: 0 <= j < |st.inodes| && j != i ==> st'.inodes[j] == st.inodes[j])
    && st'.inodes[i].size == st.inodes[i].size && st'.inodes[i].isDir == st.inodes[i].isDir
    && (forall j: nat, m :: Live(st, j) && T(st, j, m) != 0 ==> T(st', j, m) == T(st, j, m))
    && (forall j: nat, m :: Live(st, j) && j != i ==> T(st', j, m) == T(st, j, m))
    && (forall j: nat, l :: Live(st, j) && T(st, j, Data(l)) != 0 ==>
          BlockAt(st'.blocks, T(st, j, Data(l))) == BlockAt(st.blocks, T(st, j, Data(l))))
  }

  ghost predicate Good(st: Store, ow: Owners) { Geometry(st) && Owned(st, ow) }

  lemma GoodSized(st: Store, ow: Owners)
    requires Good(st, ow)
    ensures Sized(st)
  {
  }

  /** The file is well formed and every block in use has one owner. */
  ghost predicate WellOwned(st: Store, i: nat)
    requires i < |st.inodes|
  {
    Shape(st, i) && exists ow :: Good(st, ow)
  }

  lemma ZeroNoPointers()
    ensures NoPointers(ZeroBlock)
  {
    forall k | 0 <= k < 256 ensures Ptr(ZeroBlock, k) == 0 { PtrZero(k); }
  }

  /** Blocks marked allocated that no inode holds. */
  ghost function Leaked(st: Store, ow: Owners): set<nat>
    requires Sized(st)
  {
    set b: nat | st.start <= b < |st.blocks| && st.blockMap[b] && b !in ow
  }

  lemma AttachLeaks(st: Store, ow: Owners, i: nat, loc: Loc, b: nat, fill: Block)
    requires Good(st, ow) && CanAttach(st, i, loc, b)
    ensures Sized(Attach(st, i, loc, b, fill))
    ensures Leaked(Attach(st, i, loc, b, fill), ow[b := (i, loc)]) == Leaked(st, ow)
  {
    AttachFields(st, ow, i, loc, b, fill);
    hide Target, Attach;
  }

  ghost predicate GrowClean(st: Store, loc: Loc)
    requires Sized(st)
  {
    var b := FirstFree(st.blockMap, st.start, |st.blocks|);
    loc.Outer? && b < |st.blocks| ==> NoPointers(st.blocks[b])
  }

  lemma AttachExtends(st: Store, ow: Owners, i: nat, loc: Loc, b: nat, fill: Block)
    requires Good(st, ow) && CanAttach(st, i, loc, b)
    requires !loc.Data? ==> NoPointers(fill)
    ensures Extends(st, Attach(st, i, loc, b, fill), i)
  {
    var g := Attach(st, i, loc, b, fill);
    AttachBlocks(st, ow, i, loc, b, fill);
    AttachTargets(st, ow, i, loc, b, fill);
    forall j: nat, l | Live(st, j) && T(st, j, Data(l)) != 0
      ensures BlockAt(g.blocks, T(st, j, Data(l))) == BlockAt(st.blocks, T(st, j, Data(l)))
    {
      AttachDataBlocks(st, ow, i, loc, b, fill, j, l);
    }
    hide Target, NoPointers;
  }

  lemma GrowOk(st: Store, ow: Owners, i: nat, loc: Loc) returns (ow': Owners)
    requires Good(st, ow) && Live(st, i) && LocOk(loc)
    requires CellOf(loc).InBlock? ==> T(st, i, CellOf(loc).parent) != 0
    requires T(st, i, loc) == 0 ==> GrowClean(st, loc)
    ensures var g := Grow(st, i, loc);
            && Good(g.st, ow') && Extends(st, g.st, i)
            && (g.Full? ==> g.st == st)
            && (g.Ok? ==> T(g.st, i, loc) != 0)
            && (forall m :: m != loc ==> T(g.st, i, m) == T(st, i, m))
            && Leaked(g.st, ow') == Leaked(st, ow)
  {
    hide Target, NoPointers, Attach, Extends, Owned, Leaked;
    ow' := ow;
    var g := Grow(st, i, loc);
    if g.Ok? && T(st, i, loc) == 0 {
      var b := FirstFree(st.blockMap, st.start, |st.blocks|);
      var fill := if loc.Outer? then st.blocks[b] else ZeroBlock;
      ZeroNoPointers();
      ow' := ow[b := (i, loc)];
      AttachOwned(st, ow, i, loc, b, fill);
      AttachTargets(st, ow, i, loc, b, fill);
      AttachExtends(st, ow, i, loc, b, fill);
      AttachLeaks(st, ow, i, loc, b, fill);
    } else {
      ExtendsRefl(st, i);
    }
  }

  lemma ExtendsRefl(st: Store, i: nat)
    requires i < |st.inodes|
    ensures Extends(st, st, i)
  {
  }

  lemma ExtendsTrans(a: Store, b: Store, c: Store, i: nat)
    requires i < |a.inodes| && Extends(a, b, i) && Extends(b, c, i)
    ensures Extends(a, c, i)
  {
    forall j: nat, l | Live(a, j) && T(a, j, Data(l)) != 0
      ensures BlockAt(c.blocks, T(a, j, Data(l))) == BlockAt(a.blocks, T(a, j, Data(l)))
    {
      var p := T(a, j, Data(l));
      assert Live(b, j) && T(b, j, Data(l)) == p;
      assert BlockAt(c.blocks, T(b, j, Data(l))) == BlockAt(b.blocks, T(b, j, Data(l)));
    }
  }

  lemma GrowIndexOk(st: Store, ow: Owners, i: nat, l: nat) returns (ow': Owners)
    requires Good(st, ow) && Live(st, i) && l < 65798 && StepClean(st, i, l)
    ensures var g := GrowIndex(st, i, l);
            && Good(g.st, ow') && Extends(st, g.st, i)
            && (g.Ok? && CellOf(Data(l)).InBlock? ==> T(g.st, i, CellOf(Data(l)).parent) != 0)
            && (forall m: Loc :: m.Data? || FirstBlock(m) > l ==> T(g.st, i, m) == T(st, i, m))
            && Leaked(g.st, ow') == Leaked(st, ow)
  {
    hide Owned, Extends, Target, Leaked;
    ow' := ow;
    ExtendsRefl(st, i);
    if 6 <= l < 262 {
      ow' := GrowOk(st, ow, i, Ind1);
    } else if 262 <= l {
      ow' := GrowOk(st, ow, i, Ind2);
      var g := Grow(st, i, Ind2);
      if g.Ok? {
        ow' := GrowOk(g.st, ow', i, OuterOf(l));
        ExtendsTrans(st, g.st, Grow(g.st, i, OuterOf(l)).st, i);
      }
    }
  }

  /** Rewriting an owned data block moves no pointer. */
  lemma {:induction false} DataBlockTargets(st: Store, ow: Owners, i: nat, l: nat, x: Block, j: nat, m: Loc)
    requires Good(st, ow) && Live(st, i) && T(st, i, Data(l)) != 0 && Live(st, j)
    ensures Target(st.inodes[j], st.blocks[T(st, i, Data(l)) := x], m) == T(st, j, m)
    decreases Depth(m)
  {
    if LocOk(m) && CellOf(m).InBlock? {
      var parent := CellOf(m).parent;
      DataBlockTargets(st, ow, i, l, x, j, parent);
      TargetCell(st.inodes[j], st.blocks, m);
      TargetCell(st.inodes[j], st.blocks[T(st, i, Data(l)) := x], m);
      assert T(st, j, parent) != 0 ==> T(st, j, parent) != T(st, i, Data(l));
    }
  }

  lemma PutTargets(st: Store, ow: Owners, i: nat, l: nat, tb: nat, c: seq<byte>, j: nat, m: Loc)
    requires Good(st, ow) && Live(st, i) && tb + |c| <= 1024 && T(st, i, Data(l)) != 0
    requires Live(st, j)
    ensures T(PutBytes(st, i, l, tb, c), j, m) == T(st, j, m)
  {
    DataBlockTargets(st, ow, i, l, Splice(st.blocks[T(st, i, Data(l))], tb, c), j, m);
  }

  lemma PutOk(st: Store, ow: Owners, i: nat, l: nat, tb: nat, c: seq<byte>)
    requires Good(st, ow) && Live(st, i) && tb + |c| <= 1024 && T(st, i, Data(l)) != 0
    ensures var s := PutBytes(st, i, l, tb, c);
            && Good(s, ow) && SameSizes(st, s)
            && (forall j: nat, m :: Live(st, j) ==> T(s, j, m) == T(st, j, m))
            && Leaked(s, ow) == Leaked(st, ow)
  {
    var s := PutBytes(st, i, l, tb, c);
    forall j: nat, m | Live(st, j) ensures T(s, j, m) == T(st, j, m) {
      PutTargets(st, ow, i, l, tb, c, j, m);
    }
  }

  // ---- appends ----

  /** Nothing of any other file or directory changed. */
  ghost predicate OthersSame(st: Store, st': Store, i: nat)
    requires i < |st.inodes|
  {
    && SameSizes(st, st')
    && st'.inodes[i].isDir == st.inodes[i].isDir
    && (forall j :: 0 <= j < |st.inodes| && j != i ==> st'.inodes[j] == st.inodes[j])
    && (forall j: nat, m :: Live(st, j) && j != i ==> T(st', j, m) == T(st, j, m))
    && (forall j: nat, l :: Live(st, j) && j != i && T(st, j, Data(l)) != 0 ==>
          BlockAt(st'.blocks, T(st, j, Data(l))) == BlockAt(st.blocks, T(st, j, Data(l))))
  }

  lemma OthersRefl(st: Store, i: nat)
    requires i < |st.inodes|
    ensures OthersSame(st, st, i)
  {
  }

  lemma OthersSameTrans(a: Store, b: Store, c: Store, i: nat)
    requires i < |a.inodes| && OthersSame(a, b, i) && OthersSame(b, c, i)
    ensures OthersSame(a, c, i)
  {
    forall j: nat, l | Live(a, j) && j != i && T(a, j, Data(l)) != 0
      ensures BlockAt(c.blocks, T(a, j, Data(l))) == BlockAt(a.blocks, T(a, j, Data(l)))
    {
      var p := T(a, j, Data(l));
      assert Live(b, j) && T(b, j, Data(l)) == p;
      assert BlockAt(c.blocks, T(b, j, Data(l))) == BlockAt(b.blocks, T(b, j, Data(l)));
    }
  }

  lemma ExtendsOthers(a: Store, b: Store, i: nat)
    requires i < |a.inodes| && Extends(a, b, i)
    ensures OthersSame(a, b, i) && SameSizes(a, b)
  {
  }

  lemma PutOthers(st: Store, ow: Owners, i: nat, l: nat, tb: nat, c: seq<byte>)
    requires Good(st, ow) && Live(st, i) && tb + |c| <= 1024 && T(st, i, Data(l)) != 0
    ensures OthersSame(st, PutBytes(st, i, l, tb, c), i) && SameSizes(st, PutBytes(st, i, l, tb, c))
  {
    PutOk(st, ow, i, l, tb, c);
  }

  /** All the allocation of one iteration, and its effect on every pointer. */
  lemma StepGrown(st: Store, ow: Owners, i: nat, l: nat) returns (ow': Owners)
    requires Good(st, ow) && Live(st, i) && l < 65798 && StepClean(st, i, l)
    ensures var g := GrowIndex(st, i, l);
            && Extends(st, g.st, i)
            && (g.Full? ==> Good(g.st, ow') && Leaked(g.st, ow') == Leaked(st, ow))
            && (g.Ok? ==>
                  var h := Grow(g.st, i, Data(l));
                  && Good(h.st, ow') && Extends(st, h.st, i) && Leaked(h.st, ow') == Leaked(st, ow)
                  && (h.Ok? ==> T(h.st, i, Data(l)) != 0))
  {
    ow' := GrowIndexOk(st, ow, i, l);
    var g := GrowIndex(st, i, l);
    if g.Ok? {
      ow' := GrowOk(g.st, ow', i, Data(l));
      ExtendsTrans(st, g.st, Grow(g.st, i, Data(l)).st, i);
    }
  }

  /** ... and where the new pointers are: none serves a block beyond l. */
  lemma StepGrownAt(st: Store, ow: Owners, i: nat, l: nat, m: Loc)
    requires Good(st, ow) && Live(st, i) && l < 65798 && StepClean(st, i, l)
    requires FirstBlock(m) > l || (m.Data? && m != Data(l))
    ensures var g := GrowIndex(st, i, l);
            && T(g.st, i, m) == T(st, i, m)
            && T(g.st, i, Data(l)) == T(st, i, Data(l))
            && (g.Ok? ==> T(Grow(g.st, i, Data(l)).st, i, m) == T(st, i, m))
  {
    var ow' := GrowIndexOk(st, ow, i, l);
    var g := GrowIndex(st, i, l);
    if g.Ok? { ow' := GrowOk(g.st, ow', i, Data(l)); }
  }

  lemma StepOwned(st: Store, ow: Owners, i: nat, l: nat, off: nat, data: seq<byte>) returns (ow': Owners)
    requires Good(st, ow) && Live(st, i) && l < 65798 && StepClean(st, i, l)
    ensures var r := WriteStep(st, i, l, off, data);
            && Good(r.st, ow') && OthersSame(st, r.st, i) && Live(r.st, i)
            && Leaked(r.st, ow') == Leaked(st, ow)
  {
    hide Owned, Target, Leaked, Grow, GrowIndex, StepClean, Extends, OthersSame;
    var g := GrowIndex(st, i, l);
    ow' := StepGrown(st, ow, i, l);
    ExtendsOthers(st, g.st, i);
    if g.Ok? {
      var h := Grow(g.st, i, Data(l));
      ExtendsOthers(st, h.st, i);
      if h.Ok? {
        var tb := if T(g.st, i, Data(l)) == 0 then 0 else off % 1024;
        var c := data[..Min(1024 - tb, |data|)];
        PutOk(h.st, ow', i, l, tb, c);
        PutOthers(h.st, ow', i, l, tb, c);
        OthersSameTrans(st, h.st, PutBytes(h.st, i, l, tb, c), i);
      }
    }
  }

  lemma SameBytes(a: Store, b: Store, j: nat)
    requires j < |a.inodes| == |b.inodes| && a.inodes[j].size == b.inodes[j].size
    requires forall x: nat :: x < a.inodes[j].size ==> ByteAt(b, j, x) == ByteAt(a, j, x)
    ensures Contents(b, j) == Contents(a, j)
  {
  }

  lemma ExtendsContents(a: Store, b: Store, i: nat, j: nat)
    requires i < |a.inodes| && Live(a, j) && Extends(a, b, i) && Shape(a, j)
    ensures Contents(b, j) == Contents(a, j)
  {
    forall x: nat | x < a.inodes[j].size ensures ByteAt(b, j, x) == ByteAt(a, j, x) {
      assert T(a, j, Data(x / 1024)) != 0;
    }
    SameBytes(a, b, j);
  }

  lemma OthersContents(a: Store, b: Store, i: nat, j: nat)
    requires i < |a.inodes| && Live(a, j) && j != i && OthersSame(a, b, i) && Shape(a, j)
    ensures Contents(b, j) == Contents(a, j) && Shape(b, j)
  {
    forall x: nat | x < a.inodes[j].size ensures ByteAt(b, j, x) == ByteAt(a, j, x) {
      assert T(a, j, Data(x / 1024)) != 0;
    }
    SameBytes(a, b, j);
  }

  /** Copying at the end of the file appends. */
  lemma PutAppends(st: Store, ow: Owners, i: nat, l: nat, tb: nat, c: seq<byte>)
    requires Good(st, ow) && Live(st, i) && tb + |c| <= 1024 && T(st, i, Data(l)) != 0
    requires st.inodes[i].size == l * 1024 + tb && tb < 1024
    requires forall m: nat :: m < l ==> T(st, i, Data(m)) != 0
    ensures Contents(PutBytes(st, i, l, tb, c), i) == Contents(st, i) + c
  {
    var s := PutBytes(st, i, l, tb, c);
    PutOk(st, ow, i, l, tb, c);
    var p := T(st, i, Data(l));
    forall x: nat | x < st.inodes[i].size + |c|
      ensures ByteAt(s, i, x) == (Contents(st, i) + c)[x]
    {
      assert T(s, i, Data(x / 1024)) == T(st, i, Data(x / 1024));
      if x / 1024 == l {
        assert x % 1024 == x - l * 1024;
      } else {
        assert x / 1024 < l;
        assert T(st, i, Data(x / 1024)) != p;
      }
    }
    assert |Contents(s, i)| == |Contents(st, i) + c|;
  }

  /** The file keeps its shape when the step only added pointers up to block l
      and the size stays within that block. */
  lemma ShapeKept(st: Store, s: Store, i: nat, l: nat, size: nat)
    requires i < |st.inodes| == |s.inodes| && Shape(st, i) && s.inodes[i].size == size
    requires l < 65798 && l == st.inodes[i].size / 1024 && st.inodes[i].size <= size <= (l + 1) * 1024
    requires forall m: Loc :: T(st, i, m) != 0 ==> T(s, i, m) == T(st, i, m)
    requires forall m: Loc :: FirstBlock(m) > l ==> T(s, i, m) == T(st, i, m)
    requires st.inodes[i].size < size ==> T(s, i, Data(l)) != 0
    ensures Shape(s, i)
  {
    forall m: Loc | T(s, i, m) != 0 ensures FirstBlock(m) * 1024 <= size { }
    forall m: nat | m < 65798 && m * 1024 < size ensures T(s, i, Data(m)) != 0 {
      if m * 1024 < st.inodes[i].size { assert T(st, i, Data(m)) != 0; }
    }
  }

  ghost predicate AtEnd(st: Store, i: nat, l: nat, off: nat)
    requires i < |st.inodes|
  {
    && l < 65798 && l == st.inodes[i].size / 1024
    && (T(st, i, Data(l)) != 0 ==> off % 1024 == st.inodes[i].size % 1024)
  }

  /** h is st with pointers added to inode i, none serving a block beyond l. */
  ghost predicate GrownFor(st: Store, h: Store, i: nat, l: nat)
    requires i < |st.inodes|
  {
    && |h.inodes| == |st.inodes|
    && h.inodes[i].size == st.inodes[i].size && Contents(h, i) == Contents(st, i)
    && (forall m: Loc :: T(st, i, m) != 0 ==> T(h, i, m) == T(st, i, m))
    && (forall m: Loc :: FirstBlock(m) > l ==> T(h, i, m) == T(st, i, m))
  }

  lemma StepGrownFor(st: Store, ow: Owners, i: nat, l: nat)
    requires Good(st, ow) && Live(st, i) && Shape(st, i) && l < 65798 && StepClean(st, i, l)
    ensures var g := GrowIndex(st, i, l);
            && GrownFor(st, g.st, i, l) && T(g.st, i, Data(l)) == T(st, i, Data(l))
            && (g.Ok? ==> GrownFor(st, Grow(g.st, i, Data(l)).st, i, l))
  {
    var g := GrowIndex(st, i, l);
    var ow' := StepGrown(st, ow, i, l);
    forall m: Loc | FirstBlock(m) > l
      ensures T(g.st, i, m) == T(st, i, m)
      ensures g.Ok? ==> T(Grow(g.st, i, Data(l)).st, i, m) == T(st, i, m)
    {
      StepGrownAt(st, ow, i, l, m);
    }
    StepGrownAt(st, ow, i, l, Data(l + 1));
    ExtendsContents(st, g.st, i, i);
    if g.Ok? { ExtendsContents(st, Grow(g.st, i, Data(l)).st, i, i); }
  }

  lemma StepAppendPut(st: Store, h: Store, ow: Owners, i: nat, l: nat, tb: nat, c: seq<byte>)
    requires Live(st, i) && Shape(st, i) && l < 65798 && GrownFor(st, h, i, l)
    requires Good(h, ow) && Live(h, i) && T(h, i, Data(l)) != 0
    requires st.inodes[i].size == l * 1024 + tb && tb + |c| <= 1024 && tb < 1024
    ensures var s := PutBytes(h, i, l, tb, c);
            Shape(s, i) && Contents(s, i) == Contents(st, i) + c && T(s, i, Data(l + 1)) == 0
  {
    var s := PutBytes(h, i, l, tb, c);
    forall m: nat | m < l ensures T(h, i, Data(m)) != 0 { assert T(st, i, Data(m)) != 0; }
    PutAppends(h, ow, i, l, tb, c);
    PutOk(h, ow, i, l, tb, c);
    assert T(st, i, Data(l + 1)) == 0;
    assert FirstBlock(Data(l + 1)) > l;
    ShapeKept(st, s, i, l, st.inodes[i].size + |c|);
  }

  lemma StepAppend(st: Store, ow: Owners, i: nat, l: nat, off: nat, data: seq<byte>)
    requires Good(st, ow) && Live(st, i) && Shape(st, i) && AtEnd(st, i, l, off) && StepClean(st, i, l)
    ensures var r := WriteStep(st, i, l, off, data);
            && Shape(r.st, i)
            && (r.Stop? ==> Contents(r.st, i) == Contents(st, i))
            && (r.Wrote? ==>
                  && r.tb == st.inodes[i].size % 1024
                  && Contents(r.st, i) == Contents(st, i) + data[..r.k]
                  && T(r.st, i, Data(l + 1)) == 0)
  {
    hide Owned, Contents, Target, Grow, GrowIndex, StepClean;
    var size := st.inodes[i].size;
    var g := GrowIndex(st, i, l);
    var ow' := StepGrown(st, ow, i, l);
    StepGrownFor(st, ow, i, l);
    if g.Full? {
      ShapeKept(st, g.st, i, l, size);
    } else {
      var h := Grow(g.st, i, Data(l));
      if h.Full? {
        ShapeKept(st, h.st, i, l, size);
      } else {
        var tb := if T(g.st, i, Data(l)) == 0 then 0 else off % 1024;
        assert l * 1024 < size ==> T(st, i, Data(l)) != 0;
        assert Live(h.st, i);
        StepAppendPut(st, h.st, ow', i, l, tb, data[..Min(1024 - tb, |data|)]);
      }
    }
  }
}
