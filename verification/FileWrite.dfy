/** fs_write as main.c performs it, one logical block at a time. */
module FileWrite {
  import opened Layout
  import opened State

  const ENOSPC: int := -28

  ghost predicate Sized(st: Store) { st.start <= |st.blocks| <= |st.blockMap| }

  /** get_free_block: the first clear bit, n when there is none. */
  function FirstFree(bm: seq<bool>, i: nat, n: nat): (r: nat)
    requires i <= n <= |bm|
    ensures i <= r <= n && (r < n ==> !bm[r])
    ensures forall x :: i <= x < r ==> bm[x]
    decreases n - i
  {
    if i == n || !bm[i] then i else FirstFree(bm, i + 1, n)
  }

  datatype Grown = Ok(st: Store) | Full(st: Store)

  /** Allocate a block for a pointer that is still null.  A second-level index
      block keeps its old contents: the zeroed copy is overwritten by a read
      before anything is written (main.c:1276-1282). */
  function Grow(st: Store, i: nat, loc: Loc): (g: Grown)
    requires Sized(st) && i < |st.inodes| && LocOk(loc)
    ensures Sized(g.st) && |g.st.inodes| == |st.inodes|
  {
    if T(st, i, loc) != 0 then Ok(st)
    else
      var b := FirstFree(st.blockMap, st.start, |st.blocks|);
      if b == |st.blocks| then Full(st)
      else Ok(Attach(st, i, loc, b, if loc.Outer? then st.blocks[b] else ZeroBlock))
  }

  function OuterOf(l: nat): Loc requires 262 <= l { Outer((l - 262) / 256) }

  /** The index blocks above logical block l. */
  function GrowIndex(st: Store, i: nat, l: nat): (g: Grown)
    requires Sized(st) && i < |st.inodes| && l < 65798
    ensures Sized(g.st) && |g.st.inodes| == |st.inodes|
  {
    if l < 6 then Ok(st)
    else if l < 262 then Grow(st, i, Ind1)
    else match Grow(st, i, Ind2)
      case Full(s) => Full(s)
      case Ok(s) => Grow(s, i, OuterOf(l))
  }

  /** Copy c into logical block l at offset tb; the size grows by |c| whether
      or not the bytes are new (main.c:1149, 1222, 1317). */
  function PutBytes(st: Store, i: nat, l: nat, tb: nat, c: seq<byte>): Store
    requires i < |st.inodes| && tb + |c| <= 1024
  {
    var p := T(st, i, Data(l));
    var n := st.inodes[i];
    var st' := st.(inodes := st.inodes[i := n.(size := n.size + |c|)]);
    if p < |st.blocks| then st'.(blocks := st.blocks[p := Splice(st.blocks[p], tb, c)]) else st'
  }

  function Min(a: nat, b: nat): nat { if a <= b then a else b }

  /** The variable offset of main.c after logical block l. */
  function NextOff(l: nat, off: nat, tb: nat): nat {
    if l + 1 == 6 || l + 1 == 262 then 0 else if l < 262 && tb == 0 then 0 else off
  }

  /** One loop iteration: what logical block l becomes, where in it the bytes
      went and how many. */
  datatype Stepped = Stop(st: Store) | Wrote(st: Store, tb: nat, k: nat)

  function WriteStep(st: Store, i: nat, l: nat, off: nat, data: seq<byte>): (r: Stepped)
    requires Sized(st) && i < |st.inodes| && l < 65798
    ensures Sized(r.st) && |r.st.inodes| == |st.inodes|
    ensures r.Wrote? ==> r.tb < 1024 && r.k == Min(1024 - r.tb, |data|)
  {
    match GrowIndex(st, i, l)
    case Full(s) => Stop(s)
    case Ok(s) =>
      var tb := if T(s, i, Data(l)) == 0 then 0 else off % 1024;
      match Grow(s, i, Data(l))
      case Full(s') => Stop(s')
      case Ok(s') =>
        var k := Min(1024 - tb, |data|);
        Wrote(PutBytes(s', i, l, tb, data[..k]), tb, k)
  }

  datatype Result = Result(st: Store, rc: int)

  /** The three chained loops of fs_write from logical block l on. */
  function WriteFrom(st: Store, i: nat, l: nat, off: nat, data: seq<byte>, done: nat): (r: Result)
    requires Sized(st) && i < |st.inodes|
    ensures Sized(r.st) && |r.st.inodes| == |st.inodes|
    decreases |data|, if l < 65798 then 65798 - l else 0
  {
    if l >= 65798 then Result(st, done)
    else match WriteStep(st, i, l, off, data)
      case Stop(s) => Result(s, ENOSPC)
      case Wrote(s, tb, k) =>
        if k == |data| then Result(s, done + k)
        else WriteFrom(s, i, l + 1, NextOff(l, off, tb), data[k..], done + k)
  }

  /** fs_write after its argument checks.  At the maximal offset none of the
      three gotos is taken and control falls into the single-indirect tier. */
  function WriteFile(st: Store, i: nat, off: nat, data: seq<byte>): (r: Result)
    requires Sized(st) && i < |st.inodes|
    ensures Sized(r.st) && |r.st.inodes| == |st.inodes|
  {
    var l := off / 1024;
    if l < 65798 then WriteFrom(st, i, l, off, data, 0) else WriteFrom(st, i, 6, 0, data, 0)
  }

  // ---- the one allocation that is not initialised ----

  /** If this step takes a new second-level index block, that block reads as null pointers. */
  ghost predicate StepClean(st: Store, i: nat, l: nat)
    requires Sized(st) && i < |st.inodes| && l < 65798
  {
    262 <= l ==>
      match Grow(st, i, Ind2)
      case Full(_) => true
      case Ok(s) =>
        var b := FirstFree(s.blockMap, s.start, |s.blocks|);
        T(s, i, OuterOf(l)) == 0 && b < |s.blocks| ==> NoPointers(s.blocks[b])
  }

  ghost predicate WriteClean(st: Store, i: nat, l: nat, off: nat, data: seq<byte>)
    requires Sized(st) && i < |st.inodes|
    decreases |data|, if l < 65798 then 65798 - l else 0
  {
    l < 65798 ==>
      && StepClean(st, i, l)
      && match WriteStep(st, i, l, off, data)
         case Stop(_) => true
         case Wrote(s, tb, k) =>
           k < |data| ==> WriteClean(s, i, l + 1, NextOff(l, off, tb), data[k..])
  }
}
