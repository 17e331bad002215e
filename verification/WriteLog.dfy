/** The device writes of fs_write, in the order in which its loops make them. */
module WriteLog {
  import opened Layout
  import opened State
  import opened FileWrite
  import opened WriteSteps
  import opened WriteLoops
  import opened Device
  import O = Ops

  /** A missing indir_1 or indir_2: the bitmap, the inode table with the new
      pointer, and only then the zeroed block. */
  function NeedWrites(st: Store, i: nat, loc: Loc): seq<DevWrite>
    requires Sized(st) && i < |st.inodes| && loc in {Ind1, Ind2}
  {
    var b := FirstFree(st.blockMap, st.start, |st.blocks|);
    if T(st, i, loc) != 0 || b == |st.blocks| then []
    else
      var s := Grow(st, i, loc).st;
      [ToBlockMap(s.blockMap), ToInodes(s.inodes), ToBlock(b, ZeroBlock)]
  }

  /** A direct block: the bitmap if it is new, the inode table, the data. */
  function DirectWrites(st: Store, i: nat, l: nat, off: nat, data: seq<byte>): seq<DevWrite>
    requires Sized(st) && i < |st.inodes| && l < 6
  {
    match WriteStep(st, i, l, off, data)
    case Stop(_) => []
    case Wrote(s, _, _) =>
      var p := s.inodes[i].direct[l];
      (if st.inodes[i].direct[l] == 0 then [ToBlockMap(s.blockMap)] else [])
      + [ToInodes(s.inodes), ToBlock(p, BlockAt(s.blocks, p))]
  }

  /** A block behind index block q: the bitmap, the inode table, the index block,
      the data. */
  function IndexedWrites(st: Store, i: nat, l: nat, e: nat, q: nat, off: nat, data: seq<byte>): seq<DevWrite>
    requires Sized(st) && i < |st.inodes| && l < 65798 && e < 256
  {
    match WriteStep(st, i, l, off, data)
    case Stop(_) => []
    case Wrote(s, _, _) =>
      var c := BlockAt(s.blocks, q);
      var p := Ptr(c, e);
      (if PtrAt(st.blocks, q, e) == 0 then [ToBlockMap(s.blockMap)] else [])
      + [ToInodes(s.inodes), ToBlock(q, c), ToBlock(p, BlockAt(s.blocks, p))]
  }

  /** One turn of the first two loops. */
  function LowWrites(st: Store, i: nat, l: nat, off: nat, data: seq<byte>): seq<DevWrite>
    requires Sized(st) && i < |st.inodes| && l < 262
  {
    if l < 6 then DirectWrites(st, i, l, off, data)
    else NeedWrites(st, i, Ind1) + match Grow(st, i, Ind1)
      case Full(_) => []
      case Ok(s) => IndexedWrites(s, i, l, l - 6, s.inodes[i].indir1, off, data)
  }

  /** One entry of a second-level block: the bitmap, the inode table, the data,
      the index block. */
  function EntryWrites(st: Store, i: nat, b: nat, c: Block, e: nat, off: nat, data: seq<byte>): seq<DevWrite>
    requires Sized(st) && i < |st.inodes| && b < |st.blocks| && e < 256
  {
    match FillOne(st, i, b, c, e, off, data)
    case NoSpace => []
    case OffDisk => []
    case Entry(s, c', k, _) =>
      var isNew := Ptr(c, e) == 0;
      var p := if isNew then FirstFree(st.blockMap, st.start, |st.blocks|) else Ptr(c, e);
      (if isNew then [ToBlockMap(s.blockMap)] else [])
      + [ToInodes(s.inodes),
         ToBlock(p, Stored(BlockAt(st.blocks, p), isNew, if isNew then 0 else off % 1024, data[..k])),
         ToBlock(b, c')]
  }

  function EntriesWrites(st: Store, i: nat, b: nat, c: Block, e: nat, off: nat, data: seq<byte>): seq<DevWrite>
    requires Sized(st) && i < |st.inodes| && b < |st.blocks| && e <= 256
    decreases 256 - e
  {
    if e == 256 then []
    else EntryWrites(st, i, b, c, e, off, data) + match FillOne(st, i, b, c, e, off, data)
      case NoSpace => []
      case OffDisk => []
      case Entry(s, c', k, _) => if k == |data| then [] else EntriesWrites(s, i, b, c', e + 1, off, data[k..])
  }

  /** A second-level block that is taken: the bitmap and the double-indirect
      block; the new block itself is not written. */
  function OuterWrites(st: Store, i: nat, d: Block, k: nat, e: nat, off: nat, data: seq<byte>): seq<DevWrite>
    requires Sized(st) && i < |st.inodes| && st.inodes[i].indir2 < |st.blocks| && k <= 256 && e < 256
    decreases 256 - k
  {
    if k == 256 then []
    else
      var isNew, f := Ptr(d, k) == 0, FirstFree(st.blockMap, st.start, |st.blocks|);
      var b := if isNew then f else Ptr(d, k);
      if b >= |st.blocks| then []
      else
        var s, d' := if isNew then TakeOuter(st, i, d, k, f) else st, if isNew then SetPtr(d, k, f) else d;
        (if isNew then [ToBlockMap(s.blockMap), ToBlock(st.inodes[i].indir2, d')] else [])
        + EntriesWrites(s, i, b, s.blocks[b], e, off, data)
        + match FillEntries(s, i, b, s.blocks[b], e, off, data, 0, false)
          case More(s', data', _, _) => OuterWrites(s', i, d', k + 1, 0, off, data')
          case _ => []
  }

  function DoubleWrites(st: Store, i: nat, l: nat, off: nat, data: seq<byte>): seq<DevWrite>
    requires Sized(st) && i < |st.inodes| && 262 <= l < 65798
  {
    NeedWrites(st, i, Ind2) + match Grow(st, i, Ind2)
      case Full(_) => []
      case Ok(s) =>
        var q := s.inodes[i].indir2;
        if q >= |s.blocks| then []
        else OuterWrites(s, i, s.blocks[q], (l - 262) / 256, (l - 262) % 256, off, data)
  }

  /** The three chained loops from logical block l on. */
  function LoopWrites(st: Store, i: nat, l: nat, off: nat, data: seq<byte>): seq<DevWrite>
    requires Sized(st) && i < |st.inodes| && l < 65798
    decreases if l < 262 then 262 - l else 0
  {
    if l >= 262 then DoubleWrites(st, i, l, off, data)
    else LowWrites(st, i, l, off, data) + match WriteStep(st, i, l, off, data)
      case Stop(_) => []
      case Wrote(s, tb, k) => if k == |data| then [] else LoopWrites(s, i, l + 1, NextOff(l, off, tb), data[k..])
  }

  /** All of fs_write once its arguments are checked; fs_utime writes the inode
      table once more at the end. */
  function FileWrites(st: Store, i: nat, off: nat, data: seq<byte>): seq<DevWrite>
    requires Sized(st) && i < |st.inodes|
  {
    (if off / 1024 < 65798 then LoopWrites(st, i, off / 1024, off, data) else LoopWrites(st, i, 6, 0, data))
    + match LoopsFile(st, i, off, data)
      case Ended(s, _, _) => [ToInodes(s.inodes)]
      case _ => []
  }

  function WriteWrites(st: Store, path: O.Path, data: seq<byte>, off: nat): seq<DevWrite>
    requires Sized(st)
  {
    var i := O.Resolve(st, 1, path);
    if i < 0 || O.InodeAt(st, i).isDir || off > O.InodeAt(st, i).size || i >= |st.inodes| then []
    else FileWrites(st, i, off, data)
  }

  // ---- turn by turn ----

  lemma ThreeParts(a: seq<DevWrite>, b: seq<DevWrite>, c: seq<DevWrite>)
    ensures (a + b) + c == a + (b + c)
  {
  }

  /** What one turn of the first two loops leaves to be written. */
  function RestWrites(st: Store, i: nat, l: nat, off: nat, data: seq<byte>): seq<DevWrite>
    requires Sized(st) && i < |st.inodes| && l < 262
  {
    match WriteStep(st, i, l, off, data)
    case Stop(_) => []
    case Wrote(s, tb, k) => if k == |data| then [] else LoopWrites(s, i, l + 1, NextOff(l, off, tb), data[k..])
  }

  lemma LowTurn(st: Store, i: nat, l: nat, off: nat, data: seq<byte>)
    requires Sized(st) && i < |st.inodes| && l < 262
    ensures LoopWrites(st, i, l, off, data) == LowWrites(st, i, l, off, data) + RestWrites(st, i, l, off, data)
  {
    hide LowWrites, WriteStep;
  }

  /** The single-indirect block is seen to first. */
  lemma IndexFirst(st: Store, i: nat, l: nat, off: nat, data: seq<byte>)
    requires Sized(st) && i < |st.inodes| && 6 <= l < 262
    ensures var g := Grow(st, i, Ind1);
            && (g.Full? ==> LoopWrites(st, i, l, off, data) == [] == NeedWrites(st, i, Ind1))
            && (g.Ok? && T(g.st, i, Ind1) != 0 ==>
                  LoopWrites(st, i, l, off, data) == NeedWrites(st, i, Ind1) + LoopWrites(g.st, i, l, off, data))
  {
    hide T, LoopWrites, IndexedWrites, PutBytes, FirstFree;
    LowTurn(st, i, l, off, data);
    GrowFull(st, i, Ind1);
    var g := Grow(st, i, Ind1);
    if g.Ok? && T(g.st, i, Ind1) != 0 {
      GrowFull(g.st, i, Ind1);
      IndexSameStep(st, i, l, off, data);
      LowTurn(g.st, i, l, off, data);
      NeedNothing(g.st, i, Ind1);
      hide Grow, NeedWrites, WriteStep;
      ThreeParts(NeedWrites(st, i, Ind1), IndexedWrites(g.st, i, l, l - 6, g.st.inodes[i].indir1, off, data),
                 RestWrites(st, i, l, off, data));
    }
  }

  lemma NeedNothing(st: Store, i: nat, loc: Loc)
    requires Sized(st) && i < |st.inodes| && loc in {Ind1, Ind2} && T(st, i, loc) != 0
    ensures NeedWrites(st, i, loc) == []
  {
  }

  lemma IndexSameStep(st: Store, i: nat, l: nat, off: nat, data: seq<byte>)
    requires Sized(st) && i < |st.inodes| && 6 <= l < 262
    requires var g := Grow(st, i, Ind1); g.Ok? && Grow(g.st, i, Ind1) == Ok(g.st)
    ensures WriteStep(Grow(st, i, Ind1).st, i, l, off, data) == WriteStep(st, i, l, off, data)
  {
    hide T, FirstFree;
    var g := Grow(st, i, Ind1);
    hide Grow;
    assert GrowIndex(g.st, i, l) == GrowIndex(st, i, l) == g;
    hide GrowIndex, PutBytes;
  }

  /** With the single-indirect block there. */
  lemma IndexedTurn(st: Store, i: nat, l: nat, off: nat, data: seq<byte>)
    requires Sized(st) && i < |st.inodes| && 6 <= l < 262 && T(st, i, Ind1) != 0
    ensures LoopWrites(st, i, l, off, data) ==
            IndexedWrites(st, i, l, l - 6, st.inodes[i].indir1, off, data) + RestWrites(st, i, l, off, data)
  {
    hide T, LoopWrites, IndexedWrites, PutBytes, FirstFree, WriteStep, RestWrites;
    LowTurn(st, i, l, off, data);
    GrowFull(st, i, Ind1);
    NeedNothing(st, i, Ind1);
    hide Grow, NeedWrites;
  }

  // ---- the writes spelled out ----

  lemma NeedWritesAre(st: Store, i: nat, loc: Loc)
    requires Sized(st) && i < |st.inodes| && loc in {Ind1, Ind2} && T(st, i, loc) == 0
    ensures var b, n := FirstFree(st.blockMap, st.start, |st.blocks|), st.inodes[i];
            NeedWrites(st, i, loc) ==
            if b == |st.blocks| then []
            else [ToBlockMap(st.blockMap[b := true]),
                  ToInodes(st.inodes[i := if loc.Ind1? then n.(indir1 := b) else n.(indir2 := b)]),
                  ToBlock(b, ZeroBlock)]
  {
    hide FirstFree, T;
    GrowIndirect(st, i, loc);
  }

  lemma DirectWritesAre(st: Store, i: nat, l: nat, off: nat, data: seq<byte>)
    requires Sized(st) && i < |st.inodes| && l < 6 && st.inodes[i].direct[l] < |st.blocks|
    ensures var b, n := FirstFree(st.blockMap, st.start, |st.blocks|), st.inodes[i];
            var isNew := n.direct[l] == 0;
            var p, tb := if isNew then b else n.direct[l], if isNew then 0 else off % 1024;
            var k := Min(1024 - tb, |data|);
            DirectWrites(st, i, l, off, data) ==
            if p == |st.blocks| then []
            else (if isNew then [ToBlockMap(st.blockMap[b := true])] else [])
                 + [ToInodes(st.inodes[i := n.(size := n.size + k, direct := n.direct[l := p])]),
                    ToBlock(p, Stored(st.blocks[p], isNew, tb, data[..k]))]
  {
    hide FirstFree, Stored, WriteStep;
    DirectStepIs(st, i, l, off, data);
  }

  lemma IndexedWritesAre(st: Store, i: nat, l: nat, parent: Loc, e: nat, q: nat, off: nat, data: seq<byte>)
    requires Sound(st) && Sized(st) && Live(st, i) && Through(st, i, l, parent, e, q)
    ensures e < 256 && Ptr(st.blocks[q], e) < |st.blocks|
    ensures var b, old_ := FirstFree(st.blockMap, st.start, |st.blocks|), Ptr(st.blocks[q], e);
            var tb := if old_ == 0 then 0 else off % 1024;
            var k := Min(1024 - tb, |data|);
            if old_ == 0 && b == |st.blocks| then IndexedWrites(st, i, l, e, q, off, data) == []
            else
              var p := if old_ == 0 then b else old_;
              IndexedWrites(st, i, l, e, q, off, data) ==
              (if old_ == 0 then [ToBlockMap(st.blockMap[b := true])] else [])
              + [ToInodes(st.inodes[i := st.inodes[i].(size := st.inodes[i].size + k)]),
                 ToBlock(q, if old_ == 0 then SetPtr(st.blocks[q], e, b) else st.blocks[q]),
                 ToBlock(p, Stored(st.blocks[p], old_ == 0, tb, data[..k]))]
  {
    hide FirstFree, Splice, Ptr, SetPtr, Target, WriteStep, Sound, Stored;
    SoundSized(st);
    IndexedStepIs(st, i, l, parent, e, q, off, data);
    PtrSetPtr(st.blocks[q], e, FirstFree(st.blockMap, st.start, |st.blocks|));
  }

  // ---- the double-indirect loops ----

  lemma EntriesTurn(st: Store, i: nat, b: nat, c: Block, e: nat, off: nat, data: seq<byte>)
    requires Sized(st) && i < |st.inodes| && b < |st.blocks| && e < 256
    ensures var x := FillOne(st, i, b, c, e, off, data);
            EntriesWrites(st, i, b, c, e, off, data) == EntryWrites(st, i, b, c, e, off, data) +
            if x.Entry? && x.k < |data| then EntriesWrites(x.st, i, b, x.c, e + 1, off, data[x.k..]) else []
  {
    hide EntryWrites, FillOne;
  }

  lemma EntriesOver(st: Store, i: nat, b: nat, c: Block, off: nat, data: seq<byte>)
    requires Sized(st) && i < |st.inodes| && b < |st.blocks|
    ensures EntriesWrites(st, i, b, c, 256, off, data) == []
  {
  }

  /** Where the loop ends does not depend on the counts it carries. */
  lemma {:induction false} SameEnd(st: Store, i: nat, b: nat, c: Block, e: nat, off: nat, data: seq<byte>, done: nat, torn: bool,
                                   done': nat, torn': bool)
    requires Sized(st) && i < |st.inodes| && b < |st.blocks| && e <= 256
    ensures var r, r' := FillEntries(st, i, b, c, e, off, data, done, torn), FillEntries(st, i, b, c, e, off, data, done', torn');
            (r.More? <==> r'.More?) && (r.More? ==> r.st == r'.st && r.data == r'.data)
    decreases 256 - e
  {
    hide FillOne;
    if e < 256 {
      var x := FillOne(st, i, b, c, e, off, data);
      if x.Entry? && x.k < |data| {
        SameEnd(x.st, i, b, x.c, e + 1, off, data[x.k..], done + x.k, torn || x.over, done' + x.k, torn' || x.over);
      }
    }
  }

  lemma OuterTurn(st: Store, i: nat, d: Block, k: nat, e: nat, off: nat, data: seq<byte>, done: nat, torn: bool)
    requires Sized(st) && i < |st.inodes| && st.inodes[i].indir2 < |st.blocks| && k < 256 && e < 256
    ensures var isNew, f := Ptr(d, k) == 0, FirstFree(st.blockMap, st.start, |st.blocks|);
            var b := if isNew then f else Ptr(d, k);
            if b >= |st.blocks| then OuterWrites(st, i, d, k, e, off, data) == []
            else
              var s, d' := if isNew then TakeOuter(st, i, d, k, f) else st, if isNew then SetPtr(d, k, f) else d;
              var r := FillEntries(s, i, b, s.blocks[b], e, off, data, done, torn);
              s.inodes[i].indir2 == st.inodes[i].indir2 && r.st.inodes[i].indir2 == st.inodes[i].indir2 &&
              OuterWrites(st, i, d, k, e, off, data) ==
              (if isNew then [ToBlockMap(s.blockMap), ToBlock(st.inodes[i].indir2, d')] else [])
              + (EntriesWrites(s, i, b, s.blocks[b], e, off, data)
                 + if r.More? then OuterWrites(r.st, i, d', k + 1, 0, off, r.data) else [])
  {
    hide FillEntries, FirstFree, Ptr, SetPtr, EntriesWrites;
    var isNew, f := Ptr(d, k) == 0, FirstFree(st.blockMap, st.start, |st.blocks|);
    var b := if isNew then f else Ptr(d, k);
    if b < |st.blocks| {
      var s := if isNew then TakeOuter(st, i, d, k, f) else st;
      SameEnd(s, i, b, s.blocks[b], e, off, data, done, torn, 0, false);
    }
  }

  lemma OuterEnd(st: Store, i: nat, d: Block, e: nat, off: nat, data: seq<byte>)
    requires Sized(st) && i < |st.inodes| && st.inodes[i].indir2 < |st.blocks| && e < 256
    ensures OuterWrites(st, i, d, 256, e, off, data) == []
  {
  }

  lemma LoopsDoubleWrites(st: Store, i: nat, l: nat, off: nat, data: seq<byte>)
    requires Sized(st) && i < |st.inodes| && 262 <= l < 65798
    ensures LoopWrites(st, i, l, off, data) == DoubleWrites(st, i, l, off, data)
  {
  }
}
