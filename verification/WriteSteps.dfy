/** One iteration of each of the three loops of fs_write, field by field. */
module WriteSteps {
  import opened Layout
  import opened State
  import opened AttachProofs
  import opened FileWrite
  import opened WriteProofs
  import opened WriteTheorems

  /** Every block in use has one owner. */
  ghost predicate Sound(st: Store) { exists ow :: Good(st, ow) }

  lemma SoundSized(st: Store)
    requires Sound(st)
    ensures Sized(st) && 4 <= st.start && |st.blocks| < 0x20_0000
  {
    var ow :| Good(st, ow);
    hide Owned;
  }

  /** The pointer cell of a block in use is on the disk, in another block. */
  lemma InUse(st: Store, i: nat, loc: Loc)
    requires Sound(st) && Live(st, i) && T(st, i, loc) != 0
    ensures 4 <= T(st, i, loc) < |st.blocks| && |st.blocks| <= |st.blockMap| && st.blockMap[T(st, i, loc)]
    ensures forall m: Loc :: m != loc ==> T(st, i, m) != T(st, i, loc)
  {
    var ow :| Good(st, ow);
    hide Target;
  }

  // ---- direct blocks ----

  /** Storing c at offset tb of a block: a fresh one, or the one at p. */
  function Stored(old_: Block, isNew: bool, tb: nat, c: seq<byte>): Block
    requires tb + |c| <= 1024
  {
    Splice(if isNew then ZeroBlock else old_, tb, c)
  }

  lemma DirectStepIs(st: Store, i: nat, l: nat, off: nat, data: seq<byte>)
    requires Sized(st) && i < |st.inodes| && l < 6 && st.inodes[i].direct[l] < |st.blocks|
    ensures var n := st.inodes[i];
            var b := FirstFree(st.blockMap, st.start, |st.blocks|);
            var isNew := n.direct[l] == 0;
            var tb := if isNew then 0 else off % 1024;
            var k := Min(1024 - tb, |data|);
            var p := if isNew then b else n.direct[l];
            if isNew && b == |st.blocks| then WriteStep(st, i, l, off, data) == Stop(st)
            else WriteStep(st, i, l, off, data) == Wrote(
              st.(blockMap := if isNew then st.blockMap[b := true] else st.blockMap,
                  inodes := st.inodes[i := n.(size := n.size + k, direct := n.direct[l := p])],
                  blocks := st.blocks[p := Stored(st.blocks[p], isNew, tb, data[..k])]), tb, k)
  {
    hide FirstFree, Splice;
    var n := st.inodes[i];
    assert n.direct[l := n.direct[l]] == n.direct;
    var b := FirstFree(st.blockMap, st.start, |st.blocks|);
    if n.direct[l] == 0 && b < |st.blocks| {
      var g := Grow(st, i, Data(l)).st;
      assert g == st.(blockMap := st.blockMap[b := true], blocks := st.blocks[b := ZeroBlock],
                      inodes := st.inodes[i := n.(direct := n.direct[l := b])]);
      assert T(g, i, Data(l)) == b;
      var k := Min(1024, |data|);
      assert st.blocks[b := ZeroBlock][b := Splice(ZeroBlock, 0, data[..k])] == st.blocks[b := Splice(ZeroBlock, 0, data[..k])];
    }
  }

  // ---- blocks reached through an index block at q, whose own cell is `parent` ----

  ghost predicate Through(st: Store, i: nat, l: nat, parent: Loc, e: nat, q: nat)
    requires i < |st.inodes|
  {
    && 6 <= l < 65798 && CellOf(Data(l)) == InBlock(parent, e)
    && T(st, i, parent) == q && 0 < q < |st.blocks|
  }

  lemma EntryIs(st: Store, i: nat, l: nat, parent: Loc, e: nat, q: nat)
    requires i < |st.inodes| && Through(st, i, l, parent, e, q)
    ensures e < 256 && T(st, i, Data(l)) == Ptr(st.blocks[q], e)
  {
    TargetCell(st.inodes[i], st.blocks, Data(l));
  }

  /** Attaching a fresh block at entry e of q. */
  lemma IndexedGrow(st: Store, i: nat, l: nat, parent: Loc, e: nat, q: nat, b: nat)
    requires Sound(st) && Live(st, i) && Through(st, i, l, parent, e, q) && T(st, i, Data(l)) == 0
    requires b == FirstFree(st.blockMap, st.start, |st.blocks|) && Sized(st) && b < |st.blocks|
    ensures e < 256 && b != q && T(Grow(st, i, Data(l)).st, i, Data(l)) == b && T(Grow(st, i, Data(l)).st, i, parent) == q
    ensures Grow(st, i, Data(l)) == Ok(st.(blockMap := st.blockMap[b := true],
                                          blocks := st.blocks[b := ZeroBlock][q := SetPtr(st.blocks[q], e, b)]))
  {
    var ow :| Good(st, ow);
    InUse(st, i, parent);
    EntryIs(st, i, l, parent, e, q);
    AttachBlocks(st, ow, i, Data(l), b, ZeroBlock);
    AttachTarget(st, ow, i, Data(l), b, ZeroBlock, i, Data(l));
    AttachTarget(st, ow, i, Data(l), b, ZeroBlock, i, parent);
    AttachFields(st, ow, i, Data(l), b, ZeroBlock);
    hide Target, Attach, Owned;
  }

  lemma GrowIndexDone(st: Store, i: nat, l: nat, parent: Loc, e: nat, q: nat)
    requires Sized(st) && i < |st.inodes| && Through(st, i, l, parent, e, q)
    ensures GrowIndex(st, i, l) == Ok(st)
  {
    if 262 <= l {
      TargetCell(st.inodes[i], st.blocks, parent);
    }
  }

  lemma IndexedStepIs(st: Store, i: nat, l: nat, parent: Loc, e: nat, q: nat, off: nat, data: seq<byte>)
    requires Sound(st) && Sized(st) && Live(st, i) && Through(st, i, l, parent, e, q)
    ensures e < 256 && Ptr(st.blocks[q], e) < |st.blocks| && Ptr(st.blocks[q], e) != q
    ensures var b := FirstFree(st.blockMap, st.start, |st.blocks|);
            var old_ := Ptr(st.blocks[q], e);
            var tb := if old_ == 0 then 0 else off % 1024;
            var k := Min(1024 - tb, |data|);
            if old_ == 0 && b == |st.blocks| then WriteStep(st, i, l, off, data) == Stop(st)
            else
              var p := if old_ == 0 then b else old_;
              p != q && WriteStep(st, i, l, off, data) == Wrote(
                st.(blockMap := if old_ == 0 then st.blockMap[b := true] else st.blockMap,
                    inodes := st.inodes[i := st.inodes[i].(size := st.inodes[i].size + k)],
                    blocks := st.blocks[q := if old_ == 0 then SetPtr(st.blocks[q], e, b) else st.blocks[q]]
                                       [p := Stored(st.blocks[p], old_ == 0, tb, data[..k])]), tb, k)
  {
    hide FirstFree, Splice, Ptr, SetPtr, Target;
    EntryIs(st, i, l, parent, e, q);
    GrowIndexDone(st, i, l, parent, e, q);
    SoundSized(st);
    var b := FirstFree(st.blockMap, st.start, |st.blocks|);
    var old_ := Ptr(st.blocks[q], e);
    InUse(st, i, parent);
    if old_ != 0 {
      InUse(st, i, Data(l));
      assert st.blocks[q := st.blocks[q]] == st.blocks;
    } else if b < |st.blocks| {
      IndexedGrow(st, i, l, parent, e, q, b);
      var k := Min(1024, |data|);
      var z := SetPtr(st.blocks[q], e, b);
      assert st.blocks[b := ZeroBlock][q := z][b := Splice(ZeroBlock, 0, data[..k])] ==
             st.blocks[q := z][b := Splice(ZeroBlock, 0, data[..k])];
    }
  }

  // ---- index blocks ----

  lemma GrowFull(st: Store, i: nat, loc: Loc)
    requires Sized(st) && i < |st.inodes| && LocOk(loc)
    ensures T(st, i, loc) != 0 ==> Grow(st, i, loc) == Ok(st)
    ensures T(st, i, loc) == 0 && FirstFree(st.blockMap, st.start, |st.blocks|) == |st.blocks| ==> Grow(st, i, loc) == Full(st)
  {
    hide Target, FirstFree;
  }

  /** A fresh indir_1 or indir_2 block is zeroed. */
  lemma GrowIndirect(st: Store, i: nat, loc: Loc)
    requires Sized(st) && i < |st.inodes| && loc in {Ind1, Ind2} && T(st, i, loc) == 0
    ensures var b := FirstFree(st.blockMap, st.start, |st.blocks|);
            var n := st.inodes[i];
            b < |st.blocks| ==>
              Grow(st, i, loc) == Ok(st.(blockMap := st.blockMap[b := true], blocks := st.blocks[b := ZeroBlock],
                                         inodes := st.inodes[i := if loc.Ind1? then n.(indir1 := b) else n.(indir2 := b)]))
  {
    hide FirstFree;
  }

  /** A fresh second-level block keeps its old contents. */
  lemma GrowOuterIs(st: Store, i: nat, k: nat)
    requires Sound(st) && Sized(st) && Live(st, i) && k < 256 && T(st, i, Ind2) != 0 && T(st, i, Outer(k)) == 0
    ensures var b := FirstFree(st.blockMap, st.start, |st.blocks|);
            var q := st.inodes[i].indir2;
            && 0 < q < |st.blocks|
            && (b < |st.blocks| ==>
                  Grow(st, i, Outer(k)) == Ok(st.(blockMap := st.blockMap[b := true],
                                                  blocks := st.blocks[q := SetPtr(st.blocks[q], k, b)])))
  {
    hide FirstFree, SetPtr;
    InUse(st, i, Ind2);
    var b := FirstFree(st.blockMap, st.start, |st.blocks|);
    if b < |st.blocks| { assert st.blocks[b := st.blocks[b]] == st.blocks; }
  }

  /** One step of building the index blocks above l, the first that is missing. */
  predicate NextIndex(st: Store, i: nat, l: nat, loc: Loc)
    requires i < |st.inodes|
  {
    && 6 <= l < 65798
    && if l < 262 then loc == Ind1
       else loc == Ind2 || (loc == OuterOf(l) && T(st, i, Ind2) != 0)
  }

  lemma IndexContinues(st: Store, i: nat, l: nat, loc: Loc, off: nat, data: seq<byte>, done: nat)
    requires Sound(st) && Sized(st) && Live(st, i) && NextIndex(st, i, l, loc) && WriteClean(st, i, l, off, data)
    ensures LocOk(loc)
    ensures var g := Grow(st, i, loc);
            && (g.Full? ==> g.st == st && WriteFrom(st, i, l, off, data, done) == Result(st, ENOSPC))
            && (g.Ok? ==> && Sound(g.st) && Live(g.st, i) && T(g.st, i, loc) != 0
                          && (loc != Ind2 ==> T(g.st, i, Ind2) == T(st, i, Ind2))
                          && WriteClean(g.st, i, l, off, data)
                          && WriteFrom(st, i, l, off, data, done) == WriteFrom(g.st, i, l, off, data, done))
  {
    hide Owned, Target, NoPointers, Extends, Attach;
    var ow :| Good(st, ow);
    var g := Grow(st, i, loc);
    if loc.Outer? { GrowFull(st, i, Ind2); }
    var ow' := GrowOk(st, ow, i, loc);
    if g.Ok? {
      assert Live(g.st, i) by { ExtendsLive(st, g.st, i); }
      SameIndex(st, i, l, loc);
      SameStep(st, g.st, i, l, off, data, done);
    } else {
      assert GrowIndex(st, i, l) == Full(st);
    }
  }

  lemma SameIndex(st: Store, i: nat, l: nat, loc: Loc)
    requires Sized(st) && i < |st.inodes| && NextIndex(st, i, l, loc) && LocOk(loc) && StepClean(st, i, l)
    requires Grow(st, i, loc).Ok? && T(Grow(st, i, loc).st, i, loc) != 0
    requires loc != Ind2 ==> T(Grow(st, i, loc).st, i, Ind2) == T(st, i, Ind2)
    ensures var g := Grow(st, i, loc).st;
            GrowIndex(st, i, l) == GrowIndex(g, i, l) && StepClean(g, i, l)
  {
    hide Target, NoPointers, Attach, Grow;
    var g := Grow(st, i, loc).st;
    GrowFull(g, i, loc);
    if loc.Outer? { GrowFull(st, i, Ind2); GrowFull(g, i, Ind2); }
  }

  lemma SameStep(st: Store, g: Store, i: nat, l: nat, off: nat, data: seq<byte>, done: nat)
    requires Sized(st) && Sized(g) && i < |st.inodes| == |g.inodes| && l < 65798
    requires GrowIndex(st, i, l) == GrowIndex(g, i, l) && StepClean(g, i, l) && WriteClean(st, i, l, off, data)
    ensures WriteClean(g, i, l, off, data)
    ensures WriteFrom(st, i, l, off, data, done) == WriteFrom(g, i, l, off, data, done)
  {
    hide Grow, GrowIndex, StepClean, PutBytes, Target;
    assert WriteStep(st, i, l, off, data) == WriteStep(g, i, l, off, data);
    hide WriteStep;
  }

  /** After an iteration the rest of the write remains to be done. */
  lemma StepContinues(st: Store, i: nat, l: nat, off: nat, data: seq<byte>, done: nat)
    requires Sound(st) && Sized(st) && Live(st, i) && l < 65798 && WriteClean(st, i, l, off, data)
    ensures var s := WriteStep(st, i, l, off, data);
            && Sound(s.st) && Live(s.st, i)
            && (s.Stop? ==> WriteFrom(st, i, l, off, data, done) == Result(s.st, ENOSPC))
            && (s.Wrote? && s.k == |data| ==> WriteFrom(st, i, l, off, data, done) == Result(s.st, done + s.k))
            && (s.Wrote? && s.k < |data| ==>
                  && WriteClean(s.st, i, l + 1, NextOff(l, off, s.tb), data[s.k..])
                  && WriteFrom(st, i, l, off, data, done) ==
                     WriteFrom(s.st, i, l + 1, NextOff(l, off, s.tb), data[s.k..], done + s.k))
  {
    hide WriteStep, Owned, OthersSame, StepClean, Leaked;
    var ow :| Good(st, ow);
    var ow' := StepOwned(st, ow, i, l, off, data);
  }

  /** A pointer in use stays in place while the file is written. */
  lemma StepKeepsCell(st: Store, i: nat, l: nat, off: nat, data: seq<byte>, m: Loc)
    requires Sound(st) && Sized(st) && Live(st, i) && l < 65798 && StepClean(st, i, l) && T(st, i, m) != 0
    ensures var r := WriteStep(st, i, l, off, data);
            T(r.st, i, m) == T(st, i, m)
  {
    hide Owned, Target, Leaked, Grow, GrowIndex, StepClean;
    var ow :| Good(st, ow);
    var g := GrowIndex(st, i, l);
    var ow' := StepGrown(st, ow, i, l);
    if g.Ok? {
      var h := Grow(g.st, i, Data(l));
      if h.Ok? {
        var tb := if T(g.st, i, Data(l)) == 0 then 0 else off % 1024;
        ExtendsLive(st, h.st, i);
        PutOk(h.st, ow', i, l, tb, data[..Min(1024 - tb, |data|)]);
      }
    }
  }
}
