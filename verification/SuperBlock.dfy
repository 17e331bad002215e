/** No call writes to a block before start_block: in particular the super block
    stays what the formatter wrote. */
module SuperBlock {
  import opened Layout
  import opened State
  import opened AttachProofs
  import opened FileWrite
  import opened WriteProofs
  import O = Ops
  import opened Tree
  import opened OpTheorems
  import opened EntryBytes
  import opened CarefulRuns
  import opened Runs
  import opened Device
  import FittingRuns
  import Mkfs

  /** The blocks before the data region are the same. */
  ghost predicate LowKept(st: Store, st': Store) {
    && st'.start == st.start && |st'.blocks| == |st.blocks|
    && forall x :: 0 <= x < st.start && x < |st.blocks| ==> st'.blocks[x] == st.blocks[x]
  }

  // ---- writing ----

  lemma AttachLow(st: Store, ow: Owners, i: nat, loc: Loc, b: nat, fill: Block)
    requires Good(st, ow) && CanAttach(st, i, loc, b)
    ensures LowKept(st, Attach(st, i, loc, b, fill))
  {
    AttachBlocks(st, ow, i, loc, b, fill);
    AttachFields(st, ow, i, loc, b, fill);
    hide Target, Attach;
    if CellOf(loc).InBlock? { OwnedHigh(st, ow, i, CellOf(loc).parent); }
  }

  lemma OwnedHigh(st: Store, ow: Owners, i: nat, loc: Loc)
    requires Good(st, ow) && Live(st, i) && T(st, i, loc) != 0
    ensures st.start <= T(st, i, loc) < |st.blocks|
  {
    hide Target;
  }

  lemma GrowLow(st: Store, ow: Owners, i: nat, loc: Loc)
    requires Good(st, ow) && Live(st, i) && LocOk(loc)
    requires CellOf(loc).InBlock? ==> T(st, i, CellOf(loc).parent) != 0
    ensures LowKept(st, Grow(st, i, loc).st)
  {
    hide Target, Attach, Owned;
    if T(st, i, loc) == 0 && FirstFree(st.blockMap, st.start, |st.blocks|) < |st.blocks| {
      var b := FirstFree(st.blockMap, st.start, |st.blocks|);
      AttachLow(st, ow, i, loc, b, if loc.Outer? then st.blocks[b] else ZeroBlock);
    }
  }

  lemma StepLow(st: Store, ow: Owners, i: nat, l: nat, off: nat, data: seq<byte>)
    requires Good(st, ow) && Live(st, i) && l < 65798 && StepClean(st, i, l)
    ensures LowKept(st, WriteStep(st, i, l, off, data).st)
  {
    hide Owned, Target, Leaked, Grow, GrowIndex, StepClean, Extends, LowKept, PutBytes;
    var g := GrowIndex(st, i, l);
    IndexLow(st, ow, i, l);
    var ow1 := GrowIndexOk(st, ow, i, l);
    if g.Ok? {
      LiveStays(st, g.st, i);
      DataLow(g.st, ow1, i, l);
      var h := Grow(g.st, i, Data(l));
      LowTrans(st, g.st, h.st);
      var ow2 := StepGrown(st, ow, i, l);
      if h.Ok? {
        LiveStays(st, h.st, i);
        var tb := if T(g.st, i, Data(l)) == 0 then 0 else off % 1024;
        PutLow(h.st, ow2, i, l, tb, data[..Min(1024 - tb, |data|)]);
        LowTrans(st, h.st, WriteStep(st, i, l, off, data).st);
      }
    }
  }

  lemma PutLow(st: Store, ow: Owners, i: nat, l: nat, tb: nat, c: seq<byte>)
    requires Good(st, ow) && Live(st, i) && tb + |c| <= 1024 && T(st, i, Data(l)) != 0
    ensures LowKept(st, PutBytes(st, i, l, tb, c))
  {
    OwnedHigh(st, ow, i, Data(l));
    hide Target;
  }

  lemma LiveStays(st: Store, g: Store, i: nat)
    requires Live(st, i) && Extends(st, g, i)
    ensures Live(g, i)
  {
  }

  lemma DataLow(st: Store, ow: Owners, i: nat, l: nat)
    requires Good(st, ow) && Live(st, i) && l < 65798
    requires CellOf(Data(l)).InBlock? ==> T(st, i, CellOf(Data(l)).parent) != 0
    ensures LowKept(st, Grow(st, i, Data(l)).st)
  {
    GrowLow(st, ow, i, Data(l));
  }

  lemma IndexLow(st: Store, ow: Owners, i: nat, l: nat)
    requires Good(st, ow) && Live(st, i) && l < 65798 && StepClean(st, i, l)
    ensures LowKept(st, GrowIndex(st, i, l).st)
  {
    hide Owned, Target, Leaked, Grow, Extends, LowKept;
    LowRefl(st);
    if 6 <= l < 262 {
      GrowLow(st, ow, i, Ind1);
    } else if 262 <= l {
      GrowLow(st, ow, i, Ind2);
      var ow1 := GrowOk(st, ow, i, Ind2);
      var g := Grow(st, i, Ind2);
      if g.Ok? {
        LiveStays(st, g.st, i);
        GrowLow(g.st, ow1, i, OuterOf(l));
        LowTrans(st, g.st, Grow(g.st, i, OuterOf(l)).st);
      }
    }
  }

  lemma LowRefl(st: Store) ensures LowKept(st, st) { }

  lemma LowTrans(a: Store, b: Store, c: Store)
    requires LowKept(a, b) && LowKept(b, c)
    ensures LowKept(a, c)
  {
  }

  lemma {:induction false} WriteLow(st: Store, ow: Owners, i: nat, l: nat, off: nat, data: seq<byte>, done: nat)
    requires Good(st, ow) && Live(st, i) && WriteClean(st, i, l, off, data)
    ensures LowKept(st, WriteFrom(st, i, l, off, data, done).st)
    decreases |data|, if l < 65798 then 65798 - l else 0
  {
    hide WriteStep, StepClean, Owned, OthersSame, Leaked, LowKept;
    LowRefl(st);
    if l < 65798 {
      StepLow(st, ow, i, l, off, data);
      var ow' := StepOwned(st, ow, i, l, off, data);
      var s := WriteStep(st, i, l, off, data);
      if s.Wrote? && s.k < |data| {
        WriteLow(s.st, ow', i, l + 1, NextOff(l, off, s.tb), data[s.k..], done + s.k);
        LowTrans(st, s.st, WriteFrom(s.st, i, l + 1, NextOff(l, off, s.tb), data[s.k..], done + s.k).st);
      }
    }
  }

  lemma AppendLow(st: Store, w: Wit, p: O.Path, data: seq<byte>, off: nat)
    requires O.Roomy(st) && InvW(st, w) && AppendOk(st, O.Resolve(st, 1, p), data, off)
    ensures LowKept(st, O.Write(st, p, data, off).st)
  {
    hide InvW, O.Resolve, WriteFrom, WriteClean, Shape, Good, LowKept;
    LowRefl(st);
    var i := FileAt(st, w, p);
    if i >= 0 && !st.inodes[i].isDir && off <= st.inodes[i].size { WriteLow(st, w.ow, i, off / 1024, off, data, 0); }
  }

  // ---- the other calls ----

  lemma SameBytesSame(a: Block, b: Block)
    requires forall x :: 0 <= x < 1024 ==> a[x] == b[x]
    ensures a == b
  {
  }

  lemma DirHigh(st: Store, w: Wit, d: nat)
    requires InvW(st, w) && LiveDir(st, d)
    ensures st.start <= st.inodes[d].direct[0] && O.InodeAt(st, d) == st.inodes[d]
  {
    hide InvW;
    FittingRuns.DirPlace(st, w, d);
  }

  lemma RmdirLow(st: Store, w: Wit, p: O.Path)
    requires O.Roomy(st) && InvW(st, w) && p != []
    ensures LowKept(st, O.Rmdir(st, p).st)
  {
    hide InvW, O.Rmdir, O.Resolve, O.ParentOf, Ent;
    if O.Rmdir(st, p).rc == 0 {
      var d, s, c := RmdirBytes(st, w, p);
      DirHigh(st, w, d);
      var st' := O.Rmdir(st, p).st;
      forall q | 0 <= q < st.start && q < |st.blocks| ensures st'.blocks[q] == st.blocks[q] {
        SameBytesSame(st'.blocks[q], st.blocks[q]);
      }
    } else {
      FittingRuns.RmdirOther(st, p);
    }
  }

  lemma UnlinkLow(st: Store, w: Wit, p: O.Path)
    requires O.Roomy(st) && InvW(st, w)
    ensures LowKept(st, O.Unlink(st, p).st)
  {
    hide InvW, O.Unlink, O.Resolve, O.ParentOf, Ent, TreeOf;
    var i := Resolved(st, w, p);
    PathNotRoot(st, w, p);
    if i >= 0 && !O.InodeAt(st, i).isDir {
      UnlinkZero(st, w, p);
      var d, s, c := UnlinkBytes(st, w, p);
      DirHigh(st, w, d);
      var st' := O.Unlink(st, p).st;
      forall q | 0 <= q < st.start && q < |st.blocks| ensures st'.blocks[q] == st.blocks[q] {
        SameBytesSame(st'.blocks[q], st.blocks[q]);
      }
    } else {
      UnlinkRefused(st, w, p);
    }
  }

  lemma UnlinkZero(st: Store, w: Wit, p: O.Path)
    requires O.Roomy(st) && InvW(st, w) && p != [] && O.Resolve(st, 1, p) >= 0 && !O.InodeAt(st, O.Resolve(st, 1, p)).isDir
    ensures O.Unlink(st, p).rc == 0
  {
    hide InvW, O.Unlink, O.Resolve, TreeOf, UnlinkBits;
    var w' := UnlinkCase(st, w, p);
  }

  lemma RenameLow(st: Store, w: Wit, p: O.Path, q: O.Path)
    requires InvW(st, w) && p != [] && q != [] && NameOk(O.Last(q))
    ensures LowKept(st, O.Rename(st, p, q).st)
  {
    hide InvW, O.Rename, O.Resolve, O.ParentOf, Ent, NameOk;
    if O.Rename(st, p, q).rc == 0 {
      ShortName(O.Last(q));
      var d, s, c := RenameBytes(st, w, p, q);
      DirHigh(st, w, d);
      var st' := O.Rename(st, p, q).st;
      forall y | 0 <= y < st.start && y < |st.blocks| ensures st'.blocks[y] == st.blocks[y] {
        SameBytesSame(st'.blocks[y], st.blocks[y]);
      }
    } else {
      RenameOther(st, p, q);
    }
  }

  lemma RenameOther(st: Store, p: O.Path, q: O.Path)
    requires p != [] && q != [] && NameOk(O.Last(q)) && O.Rename(st, p, q).rc != 0
    ensures O.Rename(st, p, q).st == st
  {
    hide O.Resolve, O.ParentOf, O.Scan, O.DirBlock, O.SetDirBlock, RenameEnt, NameOk;
    ShortName(O.Last(q));
  }

  lemma MknodLow(st: Store, w: Wit, p: O.Path, isDir: bool)
    requires O.Roomy(st) && InvW(st, w) && p != [] && NameOk(O.Last(p))
    ensures LowKept(st, O.Mknod(st, p, isDir).st)
  {
    hide InvW, O.Mknod, O.Resolve, O.ParentOf, Ent, NameOk, FirstUnused, Bytes.EntByte;
    if O.Mknod(st, p, isDir).rc == 0 {
      ShortName(O.Last(p));
      var d, s, i, b := MknodBytes(st, w, p, isDir);
      DirHigh(st, w, d);
      var st' := O.Mknod(st, p, isDir).st;
      forall y | 0 <= y < st.start && y < |st.blocks| ensures st'.blocks[y] == st.blocks[y] {
        SameBytesSame(st'.blocks[y], st.blocks[y]);
      }
    } else {
      FittingRuns.CreateFails(st, p, isDir);
    }
  }

  // ---- runs ----

  lemma StepKeepsLow(st: Store, w: Wit, op: Op)
    requires O.Roomy(st) && InvW(st, w) && Allowed(st, op)
    ensures LowKept(st, Exec(st, op).st)
  {
    hide InvW, O.Mknod, O.Unlink, O.Rmdir, O.Rename, O.Write, O.Resolve, NameOk, AppendOk, LowKept;
    LowRefl(st);
    match op {
      case Mknod(p) => MknodLow(st, w, p, false);
      case Mkdir(p) => MknodLow(st, w, p, true);
      case Truncate(p, len) => TruncateLow(st, p, len);
      case Unlink(p) => UnlinkLow(st, w, p);
      case Rmdir(p) => RmdirLow(st, w, p);
      case Rename(p, q) => RenameLow(st, w, p, q);
      case Append(p, data, off) => AppendLow(st, w, p, data, off);
      case Read(_, _, _) =>
    }
  }

  lemma TruncateLow(st: Store, p: O.Path, len: int)
    ensures LowKept(st, O.Truncate(st, p, len).st)
  {
    hide O.Resolve;
  }

  /** No run writes to a block before the data region. */
  lemma {:induction false} RunKeepsLow(st: Store, w: Wit, ops: seq<Op>)
    requires InvW(st, w) && AllowedRun(st, ops)
    ensures LowKept(st, RunStore(st, ops))
    decreases |ops|
  {
    hide InvW, TreeOf, Exec, OpSpec, Allowed, Leaked, Lost, LowKept;
    LowRefl(st);
    if ops != [] {
      AllowedArgs(st, ops[0]);
      StepKeepsLow(st, w, ops[0]);
      var w1 := StepKeeps(st, w, ops[0]);
      RunKeepsLow(Exec(st, ops[0]).st, w1, ops[1..]);
      LowTrans(st, Exec(st, ops[0]).st, RunStore(st, ops));
    }
  }

  /** After any allowed run from a formatted image block 0 still reads as the
      formatter's super block, and so gives the same start_block. */
  lemma SuperStays(n: nat, ops: seq<Op>)
    requires 196 <= n < 0x20_0000 && AllowedRun(Mount(Mkfs.FormattedDisk(n)), ops)
    ensures var st, l := RunStore(Mount(Mkfs.FormattedDisk(n)), ops), Mkfs.LayoutOf(n);
            && |st.blocks| == n && st.blocks[0] == Mkfs.SuperBytes(Mkfs.SuperOf(n))
            && SuperAt(st.blocks[0]) == Super(FS_MAGIC, l.inoMapBlks, l.inoBlks, l.mapBlks, n, 1)
            && StartBlock(SuperAt(st.blocks[0])) == st.start
  {
    hide InvW, AllowedRun, Mkfs.FormattedDisk, RunStore, Mkfs.FormattedWit, Mkfs.LayoutOf, SuperAt, Mkfs.SuperBytes;
    var st0 := Mount(Mkfs.FormattedDisk(n));
    Mkfs.FormattedInv(n);
    RunKeepsLow(st0, Mkfs.FormattedWit(n), ops);
    Mkfs.FormattedReadable(n);
    Mkfs.MountAgrees(n);
    FirstBlockIs(n);
  }

  lemma FirstBlockIs(n: nat)
    requires n >= 5
    ensures Mkfs.FormattedDisk(n).blocks != [] && Mkfs.FormattedDisk(n).blocks[0] == Mkfs.SuperBytes(Mkfs.SuperOf(n))
    ensures 0 < Mkfs.LayoutOf(n).rootdirBase
  {
    hide Mkfs.SuperBytes;
    Mkfs.LayoutOkIff(n);
  }
}
