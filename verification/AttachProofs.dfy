/** What attaching a free block does to every pointer of every inode. */
module AttachProofs {
  import opened Layout
  import opened State

  function Depth(m: Loc): nat { match m case Data(_) => 2 case Outer(_) => 1 case _ => 0 }

  ghost predicate Expected(st: Store, i: nat, loc: Loc, b: nat, fill: Block, j: nat, m: Loc)
    requires i < |st.inodes| && LocOk(loc) && b < |st.blocks| && b < |st.blockMap| && j < |st.inodes|
  {
    T(Attach(st, i, loc, b, fill), j, m) == if j == i && m == loc then b else T(st, j, m)
  }

  /** The blocks after Attach, and that the written index block is not b. */
  lemma AttachBlocks(st: Store, ow: Owners, i: nat, loc: Loc, b: nat, fill: Block)
    requires Geometry(st) && Owned(st, ow) && CanAttach(st, i, loc, b)
    ensures CellOf(loc).InInode? ==> Attach(st, i, loc, b, fill).blocks == st.blocks[b := fill]
    ensures CellOf(loc).InBlock? ==>
              var p := T(st, i, CellOf(loc).parent);
              && 0 < p < |st.blocks| && p != b && p in ow && ow[p] == (i, CellOf(loc).parent)
              && Attach(st, i, loc, b, fill).inodes == st.inodes
              && Attach(st, i, loc, b, fill).blocks ==
                 st.blocks[b := fill][p := SetPtr(st.blocks[p], CellOf(loc).k, b)]
  {
    if CellOf(loc).InBlock? {
      var parent := CellOf(loc).parent;
      var p := T(st, i, parent);
      var s1 := st.(blockMap := st.blockMap[b := true], blocks := st.blocks[b := fill]);
      assert T(s1, i, parent) == p by {
        if parent.Outer? {
          assert T(st, i, Ind2) != 0;
          assert T(st, i, Ind2) != b;
        }
      }
      assert s1.blocks[p] == st.blocks[p];
    }
  }

  /** One level down: if the index block Q of inode j is as expected, so is each entry. */
  lemma AttachEntry(st: Store, ow: Owners, i: nat, loc: Loc, b: nat, fill: Block, j: nat, m: Loc)
    requires Geometry(st) && Owned(st, ow) && CanAttach(st, i, loc, b)
    requires Live(st, j) && LocOk(m) && CellOf(m).InBlock?
    requires !loc.Data? && T(st, j, m) == 0 ==> NoPointers(fill)
    requires Expected(st, i, loc, b, fill, j, CellOf(m).parent)
    ensures Expected(st, i, loc, b, fill, j, m)
  {
    var st' := Attach(st, i, loc, b, fill);
    var parent, k := CellOf(m).parent, CellOf(m).k;
    var q := T(st, j, parent);
    AttachBlocks(st, ow, i, loc, b, fill);
    TargetCell(st.inodes[j], st.blocks, m);
    TargetCell(st'.inodes[j], st'.blocks, m);
    if CellOf(loc).InBlock? {
      var p := T(st, i, CellOf(loc).parent);
      PtrAtAfter(st.blocks, p, CellOf(loc).k, b, fill, T(st', j, parent), k);
      if CellOf(m) == CellOf(loc) { CellInjective(m, loc); }
    }
  }

  /** Attaching a block changes exactly one pointer of one inode (a pointer
      already in use even when the new index block holds garbage). */
  lemma {:induction false} AttachTarget(st: Store, ow: Owners, i: nat, loc: Loc, b: nat, fill: Block, j: nat, m: Loc)
    requires Geometry(st) && Owned(st, ow) && CanAttach(st, i, loc, b)
    requires Live(st, j)
    requires !loc.Data? && T(st, j, m) == 0 ==> NoPointers(fill)
    ensures Expected(st, i, loc, b, fill, j, m)
    decreases Depth(m)
  {
    if !LocOk(m) {
    } else if CellOf(m).InBlock? {
      TargetCell(st.inodes[j], st.blocks, m);
      AttachTarget(st, ow, i, loc, b, fill, j, CellOf(m).parent);
      AttachEntry(st, ow, i, loc, b, fill, j, m);
    } else {
      AttachBlocks(st, ow, i, loc, b, fill);
    }
  }

  lemma AttachTargets(st: Store, ow: Owners, i: nat, loc: Loc, b: nat, fill: Block)
    requires Geometry(st) && Owned(st, ow) && CanAttach(st, i, loc, b)
    requires !loc.Data? ==> NoPointers(fill)
    ensures forall j: nat, m :: Live(st, j) ==>
              T(Attach(st, i, loc, b, fill), j, m) == if j == i && m == loc then b else T(st, j, m)
  {
    forall j: nat, m | Live(st, j)
      ensures T(Attach(st, i, loc, b, fill), j, m) == if j == i && m == loc then b else T(st, j, m)
    {
      AttachTarget(st, ow, i, loc, b, fill, j, m);
    }
  }

  lemma AttachFields(st: Store, ow: Owners, i: nat, loc: Loc, b: nat, fill: Block)
    requires Geometry(st) && Owned(st, ow) && CanAttach(st, i, loc, b)
    ensures var s := Attach(st, i, loc, b, fill);
            && s.start == st.start && s.inodeMap == st.inodeMap && s.blockMap == st.blockMap[b := true]
            && |s.inodes| == |st.inodes| && |s.blocks| == |st.blocks| && s.blocks[0] == st.blocks[0]
  {
    AttachBlocks(st, ow, i, loc, b, fill);
  }

  lemma AttachOwned(st: Store, ow: Owners, i: nat, loc: Loc, b: nat, fill: Block)
    requires Geometry(st) && Owned(st, ow) && CanAttach(st, i, loc, b)
    requires !loc.Data? ==> NoPointers(fill)
    ensures Geometry(Attach(st, i, loc, b, fill))
    ensures Owned(Attach(st, i, loc, b, fill), ow[b := (i, loc)])
  {
    hide Target, NoPointers, Attach, CellOf;
    AttachFields(st, ow, i, loc, b, fill);
    AttachTargets(st, ow, i, loc, b, fill);
    var st' := Attach(st, i, loc, b, fill);
    var ow' := ow[b := (i, loc)];
    assert b !in ow;
    forall x | x in ow'
      ensures x != 0 && Live(st', ow'[x].0) && T(st', ow'[x].0, ow'[x].1) == x
    {
      if x != b { assert ow[x] != (i, loc); }
    }
  }

  /** Attaching leaves the content of every data block of every file alone. */
  lemma AttachDataBlocks(st: Store, ow: Owners, i: nat, loc: Loc, b: nat, fill: Block, j: nat, l: nat)
    requires Geometry(st) && Owned(st, ow) && CanAttach(st, i, loc, b)
    requires Live(st, j) && T(st, j, Data(l)) != 0
    ensures Attach(st, i, loc, b, fill).blocks[T(st, j, Data(l))] == st.blocks[T(st, j, Data(l))]
  {
    AttachBlocks(st, ow, i, loc, b, fill);
  }
}
