/** read-img: the breadth-first walk over an image, with its error lines. */
module Checker {
  import opened Layout
  import opened State
  import opened Ops

  /** A queue element: an inode and what its directory entry calls it. */
  datatype Item = Item(dir: bool, inum: nat)

  const Root := Item(true, 1)

  predicate BitSet(bm: seq<bool>, x: nat) { x < |bm| && bm[x] }

  // ---- the graph of directory entries ----

  /** Slot s of item x is a used entry with an inode number in range. */
  predicate IsRef(im: Store, x: Item, s: nat) {
    && x.dir && InodeAt(im, x.inum).isDir && s < 32
    && E(im, x.inum, s).valid && E(im, x.inum, s).inode < |im.inodes|
  }

  function RefTarget(im: Store, x: Item, s: nat): Item
    requires s < 32
  {
    Item(E(im, x.inum, s).isDir, E(im, x.inum, s).inode)
  }

  /** A chain of entries from the root. */
  ghost predicate IsChain(im: Store, xs: seq<Item>, slots: seq<nat>) {
    && |xs| == |slots| + 1 && xs[0] == Root
    && forall k :: 0 <= k < |slots| ==> IsRef(im, xs[k], slots[k]) && xs[k + 1] == RefTarget(im, xs[k], slots[k])
  }

  ghost predicate Reach(im: Store, x: Item) {
    exists xs, slots :: IsChain(im, xs, slots) && xs[|xs| - 1] == x
  }

  /** Slot s of item x leads to an inode that another reached entry leads to, or
      to the root. */
  ghost predicate SecondRef(im: Store, x: Item, s: nat) {
    && Reach(im, x) && IsRef(im, x, s)
    && exists y, t: nat ::
         && Reach(im, y) && IsRef(im, y, t) && RefTarget(im, x, s).inum == RefTarget(im, y, t).inum
         && ((x, s) != (y, t) || RefTarget(im, x, s).inum == 1)
  }

  /** Some inode is reached by two entries, or the root by one. */
  ghost predicate ReachedTwice(im: Store) {
    exists x, s: nat, y, t: nat ::
      && Reach(im, x) && IsRef(im, x, s) && Reach(im, y) && IsRef(im, y, t)
      && RefTarget(im, x, s).inum == RefTarget(im, y, t).inum
      && ((x, s) != (y, t) || RefTarget(im, x, s).inum == 1)
  }

  // ---- what the error lines are about ----

  predicate EntriesAllocated(im: Store, b: Block) {
    forall k :: 0 <= k < 256 && Ptr(b, k) != 0 ==> BitSet(im.blockMap, Ptr(b, k))
  }

  /** Every data block of a file is marked allocated. */
  predicate FileFine(im: Store, n: Inode) {
    && (forall k :: 0 <= k < 6 && n.direct[k] != 0 ==> BitSet(im.blockMap, n.direct[k]))
    && (n.indir1 != 0 ==> EntriesAllocated(im, BlockAt(im.blocks, n.indir1)))
    && (n.indir2 != 0 ==>
          forall k :: 0 <= k < 256 && Ptr(BlockAt(im.blocks, n.indir2), k) != 0 ==>
            EntriesAllocated(im, BlockAt(im.blocks, Ptr(BlockAt(im.blocks, n.indir2), k))))
  }

  predicate SlotFine(im: Store, x: Item, s: nat)
    requires s < 32
  {
    var e := E(im, x.inum, s);
    e.valid ==> e.inode < |im.inodes| && BitSet(im.inodeMap, e.inode)
  }

  predicate DirFine(im: Store, x: Item) {
    && InodeAt(im, x.inum).isDir && BitSet(im.blockMap, InodeAt(im, x.inum).direct[0])
    && forall s :: 0 <= s < 32 ==> SlotFine(im, x, s)
  }

  predicate Fine(im: Store, x: Item) {
    if x.dir then DirFine(im, x) else FileFine(im, InodeAt(im, x.inum))
  }

  /** The same of the pointer tree: no block a file's 65798 pointers lead to is
      marked free. */
  ghost predicate DataMarked(im: Store, n: Inode) {
    forall l: nat :: l < 65798 && Target(n, im.blocks, Data(l)) != 0 ==> BitSet(im.blockMap, Target(n, im.blocks, Data(l)))
  }

  lemma EntriesMarked(im: Store, p: nat)
    requires p != 0
    ensures EntriesAllocated(im, BlockAt(im.blocks, p)) <==>
            forall k :: 0 <= k < 256 && PtrAt(im.blocks, p, k) != 0 ==> BitSet(im.blockMap, PtrAt(im.blocks, p, k))
  {
    hide Ptr, BitSet;
    forall k | 0 <= k < 256 ensures PtrAt(im.blocks, p, k) == Ptr(BlockAt(im.blocks, p), k) { PtrZero(k); }
  }

  lemma FileFineIff(im: Store, n: Inode)
    ensures FileFine(im, n) <==> DataMarked(im, n)
  {
    hide Ptr, BitSet, EntriesAllocated, BlockAt;
    if FileFine(im, n) {
      forall l: nat | l < 65798 && Target(n, im.blocks, Data(l)) != 0 ensures BitSet(im.blockMap, Target(n, im.blocks, Data(l))) {
        FineMarked(im, n, l);
      }
    }
    if DataMarked(im, n) { MarkedFine(im, n); }
  }

  lemma SecondLevel(im: Store, n: Inode, k: nat)
    requires k < 256
    ensures n.indir2 != 0 ==> PtrAt(im.blocks, n.indir2, k) == Ptr(BlockAt(im.blocks, n.indir2), k)
    ensures n.indir2 == 0 ==> PtrAt(im.blocks, n.indir2, k) == 0
  {
    hide Ptr;
    PtrZero(k);
  }

  lemma FineMarked(im: Store, n: Inode, l: nat)
    requires FileFine(im, n) && l < 65798 && Target(n, im.blocks, Data(l)) != 0
    ensures BitSet(im.blockMap, Target(n, im.blocks, Data(l)))
  {
    hide Ptr, BitSet, EntriesAllocated, BlockAt;
    if 262 <= l {
      var k := (l - 262) / 256;
      SecondLevel(im, n, k);
      EntriesMarked(im, PtrAt(im.blocks, n.indir2, k));
    } else if 6 <= l {
      EntriesMarked(im, n.indir1);
    }
  }

  lemma MarkedFine(im: Store, n: Inode)
    requires DataMarked(im, n)
    ensures FileFine(im, n)
  {
    hide Ptr, BitSet, EntriesAllocated, BlockAt, PtrAt, DataMarked;
    forall k | 0 <= k < 6 && n.direct[k] != 0 ensures BitSet(im.blockMap, n.direct[k]) {
      MarkedAt(im, n, k);
    }
    if n.indir1 != 0 {
      forall k | 0 <= k < 256 && PtrAt(im.blocks, n.indir1, k) != 0 ensures BitSet(im.blockMap, PtrAt(im.blocks, n.indir1, k)) {
        MarkedAt(im, n, 6 + k);
      }
      EntriesMarked(im, n.indir1);
    }
    if n.indir2 != 0 {
      forall k | 0 <= k < 256 && Ptr(BlockAt(im.blocks, n.indir2), k) != 0
        ensures EntriesAllocated(im, BlockAt(im.blocks, Ptr(BlockAt(im.blocks, n.indir2), k)))
      {
        SecondLevel(im, n, k);
        var p := PtrAt(im.blocks, n.indir2, k);
        forall e | 0 <= e < 256 && PtrAt(im.blocks, p, e) != 0 ensures BitSet(im.blockMap, PtrAt(im.blocks, p, e)) {
          MarkedAt(im, n, 262 + 256 * k + e);
        }
        EntriesMarked(im, p);
      }
    }
  }

  lemma MarkedAt(im: Store, n: Inode, l: nat)
    requires DataMarked(im, n) && l < 65798
    ensures var p := Target(n, im.blocks, Data(l)); p != 0 ==> BitSet(im.blockMap, p)
    ensures 6 <= l < 262 ==> Target(n, im.blocks, Data(l)) == PtrAt(im.blocks, n.indir1, l - 6)
    ensures 262 <= l ==>
              Target(n, im.blocks, Data(l)) == PtrAt(im.blocks, PtrAt(im.blocks, n.indir2, (l - 262) / 256), (l - 262) % 256)
    ensures l < 6 ==> Target(n, im.blocks, Data(l)) == n.direct[l]
  {
    hide Ptr, BitSet, PtrAt;
  }

  /** Nothing the walk reaches is wrong: no file has a block marked free, what is
      called a directory is one with its block marked, and every used entry names
      an inode that exists and is marked. */
  ghost predicate ReachedMarked(im: Store) {
    && (forall x :: Reach(im, x) && !x.dir ==> DataMarked(im, InodeAt(im, x.inum)))
    && (forall x :: Reach(im, x) && x.dir ==>
          InodeAt(im, x.inum).isDir && BitSet(im.blockMap, Target(InodeAt(im, x.inum), im.blocks, Data(0))))
    && (forall x, s: nat :: Reach(im, x) && x.dir && s < 32 && E(im, x.inum, s).valid ==>
          E(im, x.inum, s).inode < |im.inodes| && BitSet(im.inodeMap, E(im, x.inum, s).inode))
  }

  lemma ReachedMarkedIff(im: Store)
    ensures ReachedMarked(im) <==> forall x :: Reach(im, x) ==> Fine(im, x)
  {
    hide Reach, DataMarked, FileFine, E, InodeAt, BitSet;
    forall x | Reach(im, x)
      ensures !x.dir ==> (Fine(im, x) <==> DataMarked(im, InodeAt(im, x.inum)))
      ensures x.dir ==> (Fine(im, x) <==>
                && InodeAt(im, x.inum).isDir && BitSet(im.blockMap, Target(InodeAt(im, x.inum), im.blocks, Data(0)))
                && forall s: nat :: s < 32 && E(im, x.inum, s).valid ==>
                     E(im, x.inum, s).inode < |im.inodes| && BitSet(im.inodeMap, E(im, x.inum, s).inode))
    {
      FileFineIff(im, InodeAt(im, x.inum));
      FineDirIff(im, x);
    }
    hide Fine;
  }

  lemma FineDirIff(im: Store, x: Item)
    ensures DirFine(im, x) <==>
            && InodeAt(im, x.inum).isDir && BitSet(im.blockMap, Target(InodeAt(im, x.inum), im.blocks, Data(0)))
            && forall s: nat :: s < 32 && E(im, x.inum, s).valid ==>
                 E(im, x.inum, s).inode < |im.inodes| && BitSet(im.inodeMap, E(im, x.inum, s).inode)
  {
    hide E, InodeAt, BitSet;
    forall s: nat | s < 32
      ensures SlotFine(im, x, s) <==>
              (E(im, x.inum, s).valid ==> E(im, x.inum, s).inode < |im.inodes| && BitSet(im.inodeMap, E(im, x.inum, s).inode))
    {
      SlotFineIs(im, x, s);
    }
    hide SlotFine;
  }

  // ---- the walk ----

  method CheckEntries(im: Store, b: Block) returns (ok: bool)
    ensures ok <==> EntriesAllocated(im, b)
  {
    ok := true;
    var k := 0;
    while k < 256
      invariant 0 <= k <= 256
      invariant ok <==> forall j :: 0 <= j < k && Ptr(b, j) != 0 ==> BitSet(im.blockMap, Ptr(b, j))
    {
      if Ptr(b, k) != 0 && !BitSet(im.blockMap, Ptr(b, k)) { ok := false; }
      k := k + 1;
    }
  }

  method CheckFile(im: Store, n: Inode) returns (ok: bool)
    ensures ok <==> FileFine(im, n)
    ensures ok <==> DataMarked(im, n)
  {
    FileFineIff(im, n);
    hide Ptr, BlockAt, EntriesAllocated, DataMarked;
    ok := true;
    var i := 0;
    while i < 6
      invariant 0 <= i <= 6
      invariant ok <==> forall j :: 0 <= j < i && n.direct[j] != 0 ==> BitSet(im.blockMap, n.direct[j])
    {
      if n.direct[i] != 0 && !BitSet(im.blockMap, n.direct[i]) { ok := false; }
      i := i + 1;
    }
    if n.indir1 != 0 {
      var ok1 := CheckEntries(im, BlockAt(im.blocks, n.indir1));
      ok := ok && ok1;
    }
    if n.indir2 != 0 {
      var b2 := BlockAt(im.blocks, n.indir2);
      ghost var before := ok;
      i := 0;
      while i < 256
        invariant 0 <= i <= 256
        invariant ok <==> before && forall j :: 0 <= j < i && Ptr(b2, j) != 0 ==>
                            EntriesAllocated(im, BlockAt(im.blocks, Ptr(b2, j)))
      {
        if Ptr(b2, i) != 0 {
          var ok2 := CheckEntries(im, BlockAt(im.blocks, Ptr(b2, i)));
          ok := ok && ok2;
        }
        i := i + 1;
      }
    }
  }

  // ---- the queue ----

  /** Slot s of element k has been looked at when the walk is at slot cur of element t. */
  predicate Before(k: nat, s: nat, t: nat, cur: nat) { k < t || (k == t && s < cur) }

  /** Element m > 0 was put in the queue by the entry origin[m]. */
  ghost predicate Origins(im: Store, q: seq<Item>, origin: seq<(nat, nat)>, t: nat, cur: nat) {
    && |origin| == |q|
    && forall m :: 0 < m < |q| ==>
         && origin[m].0 < m && origin[m].1 < 32 && Before(origin[m].0, origin[m].1, t, cur)
         && IsRef(im, q[origin[m].0], origin[m].1)
         && q[m] == RefTarget(im, q[origin[m].0], origin[m].1)
  }

  /** Every entry looked at put its target in the queue. */
  ghost predicate Followed(im: Store, q: seq<Item>, origin: seq<(nat, nat)>, t: nat, cur: nat)
    requires |origin| == |q|
  {
    forall k, s :: 0 <= k < |q| && 0 <= s < 32 && Before(k, s, t, cur) && IsRef(im, q[k], s) ==>
                     exists m :: 0 < m < |q| && origin[m] == (k, s)
  }

  /** imap marks exactly the inodes in the queue, each once. */
  ghost predicate Marked(im: Store, q: seq<Item>, imap_: seq<bool>) {
    && |imap_| == |im.inodes| && |q| > 0 && q[0] == Root
    && (forall m :: 0 <= m < |q| ==> q[m].inum < |imap_| && imap_[q[m].inum])
    && (forall i :: 0 <= i < |imap_| && imap_[i] ==> exists m :: 0 <= m < |q| && q[m].inum == i)
    && (forall m, n :: 0 <= m < n < |q| ==> q[m].inum != q[n].inum)
  }

  ghost predicate QueueInv(im: Store, q: seq<Item>, imap_: seq<bool>, origin: seq<(nat, nat)>, t: nat, cur: nat) {
    Marked(im, q, imap_) && Origins(im, q, origin, t, cur) && Followed(im, q, origin, t, cur)
  }

  /** Distinct numbers below n are at most n: the queue never overflows. */
  lemma {:induction false} QueueBound(q: seq<Item>, n: nat)
    requires forall m :: 0 <= m < |q| ==> q[m].inum < n
    requires forall m, k :: 0 <= m < k < |q| ==> q[m].inum != q[k].inum
    ensures |q| <= n
    decreases n
  {
    if |q| > 0 {
      assert q[0].inum < n;
      if j :| 0 <= j < |q| && q[j].inum == n - 1 {
        var r := q[..j] + q[j + 1..];
        QueueBound(r, n - 1);
      } else {
        QueueBound(q, n - 1);
      }
    }
  }

  lemma Enqueue(im: Store, q: seq<Item>, imap_: seq<bool>, origin: seq<(nat, nat)>, t: nat, s: nat)
    requires QueueInv(im, q, imap_, origin, t, s) && t < |q| && IsRef(im, q[t], s)
    requires !imap_[RefTarget(im, q[t], s).inum]
    ensures var x := RefTarget(im, q[t], s);
            QueueInv(im, q + [x], imap_[x.inum := true], origin + [(t, s)], t, s + 1)
  {
    var x := RefTarget(im, q[t], s);
    EnqueueOrigins(im, q, origin, t, s);
    EnqueueFollowed(im, q, origin, t, s, x);
    hide Origins, Followed, E, InodeAt;
    EnqueueMarked(im, q, imap_, x);
  }

  lemma EnqueueOrigins(im: Store, q: seq<Item>, origin: seq<(nat, nat)>, t: nat, s: nat)
    requires Origins(im, q, origin, t, s) && t < |q| && IsRef(im, q[t], s)
    ensures Origins(im, q + [RefTarget(im, q[t], s)], origin + [(t, s)], t, s + 1)
  {
    assert s < 32;
    hide E, InodeAt, IsRef, RefTarget;
    var q', o' := q + [RefTarget(im, q[t], s)], origin + [(t, s)];
    forall m | 0 < m < |q'|
      ensures o'[m].0 < m && o'[m].1 < 32 && Before(o'[m].0, o'[m].1, t, s + 1)
      ensures IsRef(im, q'[o'[m].0], o'[m].1) && q'[m] == RefTarget(im, q'[o'[m].0], o'[m].1)
    {
      if m < |q| { assert o'[m] == origin[m] && q'[m] == q[m] && q'[origin[m].0] == q[origin[m].0]; }
    }
  }

  lemma EnqueueFollowed(im: Store, q: seq<Item>, origin: seq<(nat, nat)>, t: nat, s: nat, x: Item)
    requires |origin| == |q| > t && Followed(im, q, origin, t, s)
    ensures Followed(im, q + [x], origin + [(t, s)], t, s + 1)
  {
    hide IsRef, RefTarget;
    var q', o' := q + [x], origin + [(t, s)];
    forall k, z | 0 <= k < |q'| && 0 <= z < 32 && Before(k, z, t, s + 1) && IsRef(im, q'[k], z)
      ensures exists m :: 0 < m < |q'| && o'[m] == (k, z)
    {
      assert k <= t && q'[k] == q[k];
      if (k, z) == (t, s) {
        assert o'[|q|] == (k, z);
      } else {
        var m :| 0 < m < |q| && origin[m] == (k, z);
        assert o'[m] == (k, z);
      }
    }
  }

  lemma EnqueueMarked(im: Store, q: seq<Item>, imap_: seq<bool>, x: Item)
    requires Marked(im, q, imap_) && x.inum < |imap_| && !imap_[x.inum]
    ensures Marked(im, q + [x], imap_[x.inum := true])
  {
    var q', i' := q + [x], imap_[x.inum := true];
    forall i | 0 <= i < |i'| && i'[i] ensures exists m :: 0 <= m < |q'| && q'[m].inum == i {
      if i == x.inum {
        assert q'[|q|].inum == i;
      } else {
        var m :| 0 <= m < |q| && q[m].inum == i;
        assert q'[m].inum == i;
      }
    }
  }

  lemma SkipSlot(im: Store, q: seq<Item>, imap_: seq<bool>, origin: seq<(nat, nat)>, t: nat, s: nat)
    requires QueueInv(im, q, imap_, origin, t, s) && t < |q| && s < 32 && !IsRef(im, q[t], s)
    ensures QueueInv(im, q, imap_, origin, t, s + 1)
  {
    hide E, IsRef, RefTarget;
  }

  lemma NextItem(im: Store, q: seq<Item>, imap_: seq<bool>, origin: seq<(nat, nat)>, t: nat, cur: nat)
    requires QueueInv(im, q, imap_, origin, t, cur) && t < |q|
    requires cur == 32 || forall s :: 0 <= s < 32 ==> !IsRef(im, q[t], s)
    ensures QueueInv(im, q, imap_, origin, t + 1, 0)
  {
    hide E, IsRef, RefTarget;
  }

  lemma {:induction false} QueuedReach(im: Store, q: seq<Item>, imap_: seq<bool>, origin: seq<(nat, nat)>, t: nat, cur: nat, m: nat)
    requires QueueInv(im, q, imap_, origin, t, cur) && m < |q|
    ensures Reach(im, q[m])
    decreases m
  {
    hide E, IsRef, RefTarget, Marked, Followed;
    if m == 0 {
      assert q[0] == Root by { RootFirst(im, q, imap_); }
      assert IsChain(im, [Root], []);
    } else {
      var (k, s) := origin[m];
      QueuedReach(im, q, imap_, origin, t, cur, k);
      ReachStep(im, q[k], s);
    }
  }

  lemma RootFirst(im: Store, q: seq<Item>, imap_: seq<bool>)
    requires Marked(im, q, imap_)
    ensures q[0] == Root
  {
  }

  lemma ReachStep(im: Store, x: Item, s: nat)
    requires Reach(im, x) && IsRef(im, x, s)
    ensures Reach(im, RefTarget(im, x, s))
  {
    hide E, IsRef, RefTarget;
    var xs, slots :| IsChain(im, xs, slots) && xs[|xs| - 1] == x;
    assert s < 32 by { RefSlot(im, x, s); }
    var y := RefTarget(im, x, s);
    assert IsChain(im, xs + [y], slots + [s]);
    assert (xs + [y])[|xs + [y]| - 1] == y;
  }

  lemma RefSlot(im: Store, x: Item, s: nat)
    requires IsRef(im, x, s)
    ensures s < 32 && RefTarget(im, x, s).inum < |im.inodes|
  {
  }

  /** A mark already set is a second way to reach that inode. */
  lemma LoopIsReal(im: Store, q: seq<Item>, imap_: seq<bool>, origin: seq<(nat, nat)>, t: nat, s: nat)
    requires QueueInv(im, q, imap_, origin, t, s) && t < |q| && IsRef(im, q[t], s)
    requires imap_[RefTarget(im, q[t], s).inum]
    ensures SecondRef(im, q[t], s)
  {
    hide E, IsRef, Followed;
    RefSlot(im, q[t], s);
    QueuedReach(im, q, imap_, origin, t, s, t);
    var i := RefTarget(im, q[t], s).inum;
    var m :| 0 <= m < |q| && q[m].inum == i;
    if m == 0 {
      assert i == 1;
    } else {
      var (k, z) := origin[m];
      QueuedReach(im, q, imap_, origin, t, s, k);
      if q[k] == q[t] { assert k == t; }
      assert (q[k], z) != (q[t], s);
    }
  }

  // ---- when the queue is exhausted ----

  /** The queue holds everything that can be reached. */
  lemma {:induction false} ChainQueued(im: Store, q: seq<Item>, imap_: seq<bool>, origin: seq<(nat, nat)>, xs: seq<Item>,
                                       slots: seq<nat>)
    returns (m: nat)
    requires QueueInv(im, q, imap_, origin, |q|, 0) && IsChain(im, xs, slots)
    ensures m < |q| && q[m] == xs[|xs| - 1]
    decreases |slots|
  {
    hide E, IsRef, RefTarget, Marked;
    if slots == [] {
      RootFirst(im, q, imap_);
      NonEmpty(im, q, imap_);
      m := 0;
    } else {
      var l := |slots| - 1;
      var k := ChainQueued(im, q, imap_, origin, xs[..|xs| - 1], slots[..l]);
      RefSlot(im, q[k], slots[l]);
      m :| 0 < m < |q| && origin[m] == (k, slots[l]);
    }
  }

  lemma NonEmpty(im: Store, q: seq<Item>, imap_: seq<bool>)
    requires Marked(im, q, imap_)
    ensures |q| > 0
  {
  }

  lemma ReachQueued(im: Store, q: seq<Item>, imap_: seq<bool>, origin: seq<(nat, nat)>, x: Item) returns (m: nat)
    requires QueueInv(im, q, imap_, origin, |q|, 0) && Reach(im, x)
    ensures m < |q| && q[m] == x
  {
    hide QueueInv;
    var xs, slots :| IsChain(im, xs, slots) && xs[|xs| - 1] == x;
    m := ChainQueued(im, q, imap_, origin, xs, slots);
  }

  lemma NotReachedTwice(im: Store, q: seq<Item>, imap_: seq<bool>, origin: seq<(nat, nat)>)
    requires QueueInv(im, q, imap_, origin, |q|, 0)
    ensures !ReachedTwice(im)
  {
    hide E, InodeAt, Reach;
    forall x, s: nat, y, t: nat |
      && Reach(im, x) && IsRef(im, x, s) && Reach(im, y) && IsRef(im, y, t)
      && RefTarget(im, x, s).inum == RefTarget(im, y, t).inum
      ensures (x, s) == (y, t) && RefTarget(im, x, s).inum != 1
    {
      RefSlot(im, x, s);
      RefSlot(im, y, t);
      var k := ReachQueued(im, q, imap_, origin, x);
      var l := ReachQueued(im, q, imap_, origin, y);
      var m :| 0 < m < |q| && origin[m] == (k, s);
      var n :| 0 < n < |q| && origin[n] == (l, t);
      assert m == n;
      assert q[0].inum == 1;
    }
  }

  /** What the walk established when it ends without finding a loop. */
  lemma WalkDone(im: Store, q: seq<Item>, imap_: seq<bool>, origin: seq<(nat, nat)>)
    requires QueueInv(im, q, imap_, origin, |q|, 0)
    ensures !ReachedTwice(im)
    ensures forall i :: 0 <= i < |im.inodes| ==> (imap_[i] <==> exists x :: Reach(im, x) && x.inum == i)
    ensures (forall m :: 0 <= m < |q| ==> Fine(im, q[m])) <==> forall x :: Reach(im, x) ==> Fine(im, x)
  {
    NotReachedTwice(im, q, imap_, origin);
    hide Fine, Reach, ReachedTwice, Followed, Origins;
    forall m | 0 <= m < |q| ensures Reach(im, q[m]) { QueuedReach(im, q, imap_, origin, |q|, 0, m); }
    forall x | Reach(im, x) ensures exists m :: 0 <= m < |q| && q[m] == x {
      var m := ReachQueued(im, q, imap_, origin, x);
    }
  }

  lemma QueueStart(im: Store, imap_: seq<bool>)
    requires 1 < |im.inodes| == |imap_| && forall i :: 0 <= i < |imap_| ==> imap_[i] == (i == 1)
    ensures QueueInv(im, [Root], imap_, [(0, 0)], 0, 0)
  {
    hide IsRef, E;
    assert [Root][0].inum == 1;
  }

  lemma QueueFits(im: Store, q: seq<Item>, imap_: seq<bool>, origin: seq<(nat, nat)>, t: nat, cur: nat)
    requires QueueInv(im, q, imap_, origin, t, cur)
    ensures |q| <= |im.inodes| == |imap_| && |origin| == |q|
    ensures forall m :: 0 <= m < |q| ==> q[m].inum < |im.inodes|
  {
    hide IsRef, RefTarget, Followed;
    QueueBound(q, |imap_|);
  }

  lemma NoRefs(im: Store, x: Item)
    requires !x.dir || !InodeAt(im, x.inum).isDir
    ensures forall s :: 0 <= s < 32 ==> !IsRef(im, x, s)
  {
  }

  // ---- the program ----

  datatype Verdict = LoopFound(at: nat) | Done(imap_: seq<bool>, unreachable: seq<nat>)

  /** main of read-img: clean says that no error line was printed. */
  method Check(im: Store) returns (v: Verdict, clean: bool)
    requires 1 < |im.inodes|
    ensures v.LoopFound? <==> ReachedTwice(im)
    ensures v.LoopFound? ==> !clean && exists x: Item, s: nat :: x.inum == v.at && SecondRef(im, x, s)
    ensures clean <==> v.Done? && ReachedMarked(im)
    ensures v.Done? ==>
              && |v.imap_| == |im.inodes|
              && (forall i :: 0 <= i < |im.inodes| ==> (v.imap_[i] <==> exists x :: Reach(im, x) && x.inum == i))
              && (clean <==> forall x :: Reach(im, x) ==> Fine(im, x))
              && (forall i :: i in v.unreachable <==> 1 <= i < |im.inodes| && !v.imap_[i] && BitSet(im.inodeMap, i))
              && (forall a, b :: 0 <= a < b < |v.unreachable| ==> v.unreachable[a] < v.unreachable[b])
  {
    hide QueueInv, E, InodeAt, FileFine, SlotFine, ReachedTwice, Reach, IsRef, RefTarget, BitSet, SecondRef, DataMarked,
      ReachedMarked;
    var imap_ := new bool[|im.inodes|](_ => false);
    var list := new Item[|im.inodes| + 100](_ => Root);
    var head, tail := 0, 0;
    list[head] := Root;
    head := head + 1;
    imap_[1] := true;
    clean := true;
    ghost var origin: seq<(nat, nat)> := [(0, 0)];
    QueueStart(im, imap_[..]);
    assert list[..head] == [Root];
    while head != tail
      invariant 0 <= tail <= head <= |im.inodes| && head == |origin|
      invariant QueueInv(im, list[..head], imap_[..], origin, tail, 0)
      invariant clean <==> forall k :: 0 <= k < tail ==> Fine(im, list[k])
      decreases |im.inodes| - tail
    {
      var e := list[tail];
      ghost var q0, t := list[..head], tail;
      tail := tail + 1;
      if !e.dir {
        var ok := CheckFile(im, InodeAt(im, e.inum));
        clean := clean && ok;
        NoRefs(im, e);
        NextItem(im, list[..head], imap_[..], origin, t, 0);
      } else if !InodeAt(im, e.inum).isDir {
        clean := false;
        NoRefs(im, e);
        NextItem(im, list[..head], imap_[..], origin, t, 0);
      } else {
        var loop_, ok, head', origin' := CheckDir(im, e, list, imap_, head, t, origin);
        if loop_ {
          LoopTwice(im, e);
          return LoopFound(e.inum), false;
        }
        clean := clean && ok;
        assert list[..t] == q0[..t];
        head, origin := head', origin';
        NextItem(im, list[..head], imap_[..], origin, t, 32);
      }
    }
    WalkDone(im, list[..head], imap_[..], origin);
    ReachedMarkedIff(im);
    var unreachable := Unreachable(im, imap_[..]);
    v := Done(imap_[..], unreachable);
  }

  /** The 32 slots of the directory at position t of the queue. */
  method CheckDir(im: Store, e: Item, list: array<Item>, imap_: array<bool>, head: nat, ghost t: nat, ghost origin: seq<(nat, nat)>)
    returns (loop_: bool, ok: bool, head': nat, ghost origin': seq<(nat, nat)>)
    requires t < head <= |im.inodes| && list.Length == |im.inodes| + 100 && list[t] == e
    requires e.dir && InodeAt(im, e.inum).isDir
    requires QueueInv(im, list[..head], imap_[..], origin, t, 0)
    modifies list, imap_
    ensures loop_ ==> exists s: nat :: SecondRef(im, e, s)
    ensures !loop_ ==>
              && head <= head' <= |im.inodes| && head' == |origin'|
              && QueueInv(im, list[..head'], imap_[..], origin', t, 32)
              && list[..head] == old(list[..head])
              && (ok <==> Fine(im, e))
  {
    hide QueueInv, E, InodeAt, SlotFine, SecondRef, RefTarget, BitSet;
    loop_, head', origin' := false, head, origin;
    ok := BitSet(im.blockMap, InodeAt(im, e.inum).direct[0]);
    QueueFits(im, list[..head'], imap_[..], origin', t, 0);
    var i := 0;
    while i < 32
      invariant 0 <= i <= 32 && head <= head' <= |im.inodes| == imap_.Length && head' == |origin'|
      invariant QueueInv(im, list[..head'], imap_[..], origin', t, i)
      invariant list[..head] == old(list[..head])
      invariant ok <==> BitSet(im.blockMap, InodeAt(im, e.inum).direct[0]) && forall s :: 0 <= s < i ==> SlotFine(im, e, s)
    {
      var de := E(im, e.inum, i);
      assert list[..head'][t] == e by { assert list[..head][t] == old(list[..head])[t]; }
      SlotFineIs(im, e, i);
      if de.valid {
        var j := de.inode;
        if j >= |im.inodes| {
          ok := false;
          SkipSlot(im, list[..head'], imap_[..], origin', t, i);
        } else {
          TargetIs(im, e, i);
          if imap_[j] {
            LoopIsReal(im, list[..head'], imap_[..], origin', t, i);
            loop_ := true;
            return;
          }
          Enqueue(im, list[..head'], imap_[..], origin', t, i);
          imap_[j] := true;
          if !BitSet(im.inodeMap, j) { ok := false; }
          ghost var q := list[..head'];
          list[head'] := Item(de.isDir, j);
          head' := head' + 1;
          assert list[..head'] == q + [Item(de.isDir, j)];
          origin' := origin' + [(t, i)];
          QueueFits(im, list[..head'], imap_[..], origin', t, i + 1);
        }
      } else {
        SkipSlot(im, list[..head'], imap_[..], origin', t, i);
      }
      i := i + 1;
    }
  }

  lemma LoopTwice(im: Store, e: Item)
    requires exists s: nat :: SecondRef(im, e, s)
    ensures ReachedTwice(im)
  {
    hide Reach, IsRef, RefTarget;
  }

  lemma SlotFineIs(im: Store, x: Item, s: nat)
    requires s < 32
    ensures SlotFine(im, x, s) <==>
            (E(im, x.inum, s).valid ==> E(im, x.inum, s).inode < |im.inodes| && BitSet(im.inodeMap, E(im, x.inum, s).inode))
  {
  }

  lemma TargetIs(im: Store, x: Item, s: nat)
    requires s < 32
    ensures RefTarget(im, x, s) == Item(E(im, x.inum, s).isDir, E(im, x.inum, s).inode)
  {
  }

  method Unreachable(im: Store, imap_: seq<bool>) returns (u: seq<nat>)
    requires |imap_| == |im.inodes| > 0
    ensures forall i :: i in u <==> 1 <= i < |im.inodes| && !imap_[i] && BitSet(im.inodeMap, i)
    ensures forall a, b :: 0 <= a < b < |u| ==> u[a] < u[b]
  {
    u := [];
    var i := 1;
    while i < |im.inodes|
      invariant 1 <= i <= |im.inodes|
      invariant forall j :: j in u <==> 1 <= j < i && !imap_[j] && BitSet(im.inodeMap, j)
      invariant forall a :: 0 <= a < |u| ==> u[a] < i
      invariant forall a, b :: 0 <= a < b < |u| ==> u[a] < u[b]
    {
      if !imap_[i] && BitSet(im.inodeMap, i) { u := u + [i]; }
      i := i + 1;
    }
  }
}
