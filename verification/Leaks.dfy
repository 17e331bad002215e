/** Exact block accounting: what is allocated is metadata, held by exactly one
    pointer, or among the blocks earlier removals failed to give back. */
module Leaks {
  import opened State
  import opened FileWrite
  import opened WriteProofs
  import opened Tree
  import opened TruncProofs
  import opened OpTheorems

  /** The owner map is determined by the store. */
  lemma OwnersUnique(st: Store, a: Owners, b: Owners)
    requires Good(st, a) && Good(st, b)
    ensures a == b
  {
    hide Target;
    forall x | x in a ensures x in b && b[x] == a[x] { assert T(st, a[x].0, a[x].1) == x; }
    forall x | x in b ensures x in a && a[x] == b[x] { assert T(st, b[x].0, b[x].1) == x; }
  }

  ghost predicate HeldBy(st: Store, x: nat, i: nat, loc: Loc) { Live(st, i) && T(st, i, loc) == x }

  /** A bit of the block map is set exactly when the block is metadata, leaked,
      or held by a pointer of a live inode, and then by one pointer only. */
  lemma ExactOwnership(st: Store, ow: Owners, x: nat)
    requires Good(st, ow) && x < |st.blocks|
    ensures st.blockMap[x] <==> x < st.start || x in Leaked(st, ow) || exists i: nat, loc :: HeldBy(st, x, i, loc) && x != 0
    ensures x >= st.start ==> forall i: nat, j: nat, l, m :: HeldBy(st, x, i, l) && HeldBy(st, x, j, m) ==> i == j && l == m
  {
    hide Target;
    if st.blockMap[x] && x >= st.start && x !in Leaked(st, ow) {
      assert HeldBy(st, x, ow[x].0, ow[x].1);
    }
  }

  /** The blocks of inode c that unlink does not give back. */
  ghost function Stranded(ow: Owners, c: nat): set<nat> {
    set x | x in ow && ow[x].0 == c && !Released(ow, c, x)
  }

  /** Unlink leaks exactly these. */
  lemma UnlinkLeaks(st: Store, w: Wit, w': Wit, c: nat, st': Store)
    requires Good(st, w.ow) && UnlinkBits(st, w, w', c, st')
    ensures Sized(st') && Leaked(st', w'.ow) == Leaked(st, w.ow) + Stranded(w.ow, c)
  {
    hide Target, Released;
    forall x | x in w.ow ensures st.start <= x < |st.blocks| && st.blockMap[x] { OwnedStart(st, w.ow, x); }
    forall x: nat ensures x in Leaked(st', w'.ow) <==> x in Leaked(st, w.ow) + Stranded(w.ow, c) {
      if Released(w.ow, c, x) { ReleasedOwned(w.ow, c, x); }
    }
  }

  lemma ReleasedOwned(ow: Owners, c: nat, x: nat)
    requires Released(ow, c, x)
    ensures x in ow && ow[x].0 == c
  {
  }

  /** They are the direct blocks and the two indirect blocks. */
  lemma StrandedAre(st: Store, ow: Owners, c: nat, x: nat)
    requires Good(st, ow) && Live(st, c)
    ensures x in Stranded(ow, c) <==>
            x != 0 && (x == st.inodes[c].indir1 || x == st.inodes[c].indir2 || x in st.inodes[c].direct)
  {
    var n := st.inodes[c];
    assert T(st, c, Ind1) == n.indir1 && T(st, c, Ind2) == n.indir2;
    assert forall l: nat :: l < 6 ==> T(st, c, Data(l)) == n.direct[l];
    hide Target;
    if x in Stranded(ow, c) { assert T(st, c, ow[x].1) == x; }
    if x != 0 && x in n.direct {
      var l: nat :| l < 6 && n.direct[l] == x;
      assert T(st, c, Data(l)) == x;
    }
  }

  /** The blocks an inode itself points to. */
  ghost function InodeBlocks(n: Inode): set<nat> {
    set x | x in n.direct + [n.indir1, n.indir2] && x != 0
  }

  lemma StrandedIs(st: Store, ow: Owners, c: nat)
    requires Good(st, ow) && Live(st, c)
    ensures Stranded(ow, c) == InodeBlocks(st.inodes[c])
  {
    hide Good, Released;
    forall x ensures x in Stranded(ow, c) <==> x in InodeBlocks(st.inodes[c]) { StrandedAre(st, ow, c, x); }
  }

  /** Unlink restores the block map exactly when the file holds no block. */
  lemma UnlinkLeaksNothingIff(st: Store, ow: Owners, c: nat)
    requires Good(st, ow) && Live(st, c) && Shape(st, c)
    ensures Stranded(ow, c) == {} <==> st.inodes[c].direct[0] == 0
  {
    StrandedAre(st, ow, c, st.inodes[c].direct[0]);
    if st.inodes[c].direct[0] == 0 {
      assert T(st, c, Data(0)) == 0;
      forall x | x in ow ensures ow[x].0 != c {
        EmptyHolds(st, c, ow[x].1);
      }
    }
  }

  lemma EmptyHolds(st: Store, c: nat, loc: Loc)
    requires c < |st.inodes| && Shape(st, c) && T(st, c, Data(0)) == 0
    ensures T(st, c, loc) == 0
  {
    assert st.inodes[c].size == 0;
  }

  /** Truncating a file of at most six blocks leaks them all. */
  lemma TruncateLeaks(st: Store, ow: Owners, c: nat, st': Store)
    requires Good(st, ow) && Live(st, c) && Shape(st, c) && st.inodes[c].indir1 == 0
    requires st'.blockMap == st.blockMap && st'.blocks == st.blocks && st'.start == st.start
    ensures Leaked(st', Without(ow, c)) == Leaked(st, ow) + Stranded(ow, c)
  {
    hide Target;
    forall x | x in ow
      ensures st.start <= x < |st.blocks| && st.blockMap[x]
      ensures ow[x].0 == c ==> x in Stranded(ow, c)
    {
      OwnedStart(st, ow, x);
      if ow[x].0 == c { ShortFile(st, c, ow[x].1); assert T(st, c, ow[x].1) == x; }
    }
  }
}
