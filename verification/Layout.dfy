/** The bytes of an fsx600 block: little-endian words, index pointers and
    directory entries. */
module Layout {
  const FS_MAGIC: nat := 0x37363030

  type byte = x: int | 0 <= x < 256

  type Block = b: seq<byte> | |b| == 1024 witness seq(1024, _ => 0)

  function Zeros(n: nat): seq<byte> { seq(n, _ => 0) }

  const ZeroBlock: Block := Zeros(1024)

  /** The n-byte little-endian number at offset i. */
  function LittleEndian(b: seq<byte>, i: nat, n: nat): (v: nat)
    requires i + n <= |b|
    decreases n
  {
    if n == 0 then 0 else b[i] + 256 * LittleEndian(b, i + 1, n - 1)
  }

  function ToBytes(v: nat, n: nat): (s: seq<byte>)
    ensures |s| == n
  {
    if n == 0 then [] else [v % 256] + ToBytes(v / 256, n - 1)
  }

  function Pow256(n: nat): nat { if n == 0 then 1 else 256 * Pow256(n - 1) }

  lemma {:induction false} LittleEndianAgree(a: seq<byte>, b: seq<byte>, i: nat, j: nat, n: nat)
    requires i + n <= |a| && j + n <= |b|
    requires a[i..i + n] == b[j..j + n]
    ensures LittleEndian(a, i, n) == LittleEndian(b, j, n)
    decreases n
  {
    if n > 0 {
      assert a[i] == a[i..i + n][0] && b[j] == b[j..j + n][0];
      assert a[i + 1..i + n] == a[i..i + n][1..] && b[j + 1..j + n] == b[j..j + n][1..];
      LittleEndianAgree(a, b, i + 1, j + 1, n - 1);
    }
  }

  lemma {:induction false} LittleEndianOfBytes(v: nat, n: nat)
    requires v < Pow256(n)
    ensures LittleEndian(ToBytes(v, n), 0, n) == v
  {
    if n > 0 {
      var t := ToBytes(v / 256, n - 1);
      LittleEndianOfBytes(v / 256, n - 1);
      LittleEndianAgree([v % 256] + t, t, 1, 0, n - 1);
    }
  }

  /** b with the bytes s written at offset i. */
  function Splice(b: Block, i: nat, s: seq<byte>): (r: Block)
    requires i + |s| <= 1024
    ensures forall x :: 0 <= x < 1024 ==> r[x] == if i <= x < i + |s| then s[x - i] else b[x]
  {
    b[..i] + s + b[i + |s|..]
  }

  /** The k-th 32-bit word of a block. */
  function Ptr(b: Block, k: nat): nat
    requires k < 256
  {
    LittleEndian(b, 4 * k, 4)
  }

  function SetPtr(b: Block, k: nat, v: nat): Block
    requires k < 256
  {
    Splice(b, 4 * k, ToBytes(v, 4))
  }

  lemma WordRoundTrip(b: seq<byte>, i: nat, v: nat)
    requires i + 4 <= |b| && v < 0x1_0000_0000
    requires b[i..i + 4] == ToBytes(v, 4)
    ensures LittleEndian(b, i, 4) == v
  {
    assert Pow256(4) == 0x1_0000_0000 by { assert Pow256(2) == 65536; }
    LittleEndianOfBytes(v, 4);
    LittleEndianAgree(b, ToBytes(v, 4), i, 0, 4);
  }

  lemma PtrSetPtr(b: Block, k: nat, v: nat)
    requires k < 256 && v < 0x1_0000_0000
    ensures forall j :: 0 <= j < 256 ==> Ptr(SetPtr(b, k, v), j) == if j == k then v else Ptr(b, j)
  {
    var r := SetPtr(b, k, v);
    assert r[4 * k..4 * k + 4] == ToBytes(v, 4);
    WordRoundTrip(r, 4 * k, v);
    forall j | 0 <= j < 256 && j != k
      ensures Ptr(r, j) == Ptr(b, j)
    {
      assert r[4 * j..4 * j + 4] == b[4 * j..4 * j + 4];
      LittleEndianAgree(r, b, 4 * j, 4 * j, 4);
    }
  }

  lemma PtrZero(k: nat)
    requires k < 256
    ensures Ptr(ZeroBlock, k) == 0
  {
    LittleEndianZero(ZeroBlock, 4 * k, 4);
  }

  lemma {:induction false} LittleEndianZero(b: seq<byte>, i: nat, n: nat)
    requires i + n <= |b|
    requires forall x :: i <= x < i + n ==> b[x] == 0
    ensures LittleEndian(b, i, n) == 0
    decreases n
  {
    if n > 0 { LittleEndianZero(b, i + 1, n - 1); }
  }

  // ---- directory entries: eight words, the first holding valid, isDir and inode ----

  type Name = seq<byte>

  datatype Dirent = Dirent(valid: bool, isDir: bool, inode: nat, name: Name)

  /** A C string: the bytes before the first NUL. */
  function CString(f: seq<byte>): (s: Name)
    ensures |s| <= |f| && s == f[..|s|] && 0 !in s
    ensures |s| < |f| ==> f[|s|] == 0
  {
    if |f| == 0 || f[0] == 0 then [] else [f[0]] + CString(f[1..])
  }

  lemma {:induction false} CStringUnique(f: seq<byte>, s: Name)
    requires |s| <= |f| && s == f[..|s|] && 0 !in s
    requires |s| < |f| ==> f[|s|] == 0
    ensures CString(f) == s
    decreases |s|
  {
    if |s| > 0 {
      assert f[0] == s[0] && s[0] in s;
      CStringUnique(f[1..], s[1..]);
    }
  }

  function NameField(b: Block, s: nat): (f: seq<byte>)
    requires s < 32
    ensures |f| == 28
  {
    b[32 * s + 4..32 * s + 32]
  }

  function Ent(b: Block, s: nat): Dirent
    requires s < 32
  {
    var w := Ptr(b, 8 * s);
    Dirent(w % 2 == 1, (w / 2) % 2 == 1, w / 4, CString(NameField(b, s)))
  }

  /** The name is followed by NULs only (mknod clears the slot first). */
  predicate Padded(b: Block, s: nat)
    requires s < 32
  {
    forall x :: |CString(NameField(b, s))| <= x < 28 ==> NameField(b, s)[x] == 0
  }

  /** Names the fixed 26-byte name buffers of main.c hold with their NUL. */
  predicate NameOk(n: Name) { 0 < |n| < 26 && 0 !in n && 47 !in n }

  function EntWord(e: Dirent): nat
  {
    (if e.valid then 1 else 0) + (if e.isDir then 2 else 0) + 4 * e.inode
  }

  function PutEnt(b: Block, s: nat, e: Dirent): Block
    requires s < 32 && |e.name| < 28
  {
    Splice(b, 32 * s, ToBytes(EntWord(e), 4) + e.name + Zeros(28 - |e.name|))
  }

  function Invalidate(b: Block, s: nat): Block
    requires s < 32
  {
    SetPtr(b, 8 * s, Ptr(b, 8 * s) / 2 * 2)
  }

  function ClearEnt(b: Block, s: nat): Block
    requires s < 32
  {
    Splice(b, 32 * s, Zeros(32))
  }

  function RenameEnt(b: Block, s: nat, n: Name): Block
    requires s < 32 && |n| < 26
  {
    Splice(b, 32 * s + 4, n)
  }

  lemma EntSame(a: Block, b: Block, s: nat)
    requires s < 32
    requires a[32 * s..32 * s + 32] == b[32 * s..32 * s + 32]
    ensures Ent(a, s) == Ent(b, s) && (Padded(a, s) <==> Padded(b, s))
  {
    var c, d := a[32 * s..32 * s + 32], b[32 * s..32 * s + 32];
    assert a[32 * s..32 * s + 4] == c[..4] == d[..4] == b[32 * s..32 * s + 4];
    LittleEndianAgree(a, b, 4 * (8 * s), 4 * (8 * s), 4);
    assert NameField(a, s) == c[4..] == d[4..] == NameField(b, s);
  }

  /** Writing inside slot s leaves every other slot alone. */
  lemma EntOthers(b: Block, s: nat, i: nat, t: seq<byte>)
    requires s < 32 && 32 * s <= i && i + |t| <= 32 * s + 32
    ensures forall j :: 0 <= j < 32 && j != s ==>
              Ent(Splice(b, i, t), j) == Ent(b, j) && (Padded(Splice(b, i, t), j) <==> Padded(b, j))
  {
    var r := Splice(b, i, t);
    forall j | 0 <= j < 32 && j != s
      ensures Ent(r, j) == Ent(b, j) && (Padded(r, j) <==> Padded(b, j))
    {
      assert r[32 * j..32 * j + 32] == b[32 * j..32 * j + 32];
      EntSame(r, b, j);
    }
  }

  lemma EntWordParts(e: Dirent)
    requires e.inode < 0x4000_0000
    ensures EntWord(e) < 0x1_0000_0000
    ensures EntWord(e) % 2 == 1 <==> e.valid
    ensures (EntWord(e) / 2) % 2 == 1 <==> e.isDir
    ensures EntWord(e) / 4 == e.inode
  {
  }

  lemma EntWordDecodes(b: Block, s: nat, e: Dirent)
    requires s < 32 && e.inode < 0x4000_0000
    requires b[32 * s..32 * s + 4] == ToBytes(EntWord(e), 4)
    ensures Ent(b, s) == e.(name := CString(NameField(b, s)))
  {
    EntWordParts(e);
    WordRoundTrip(b, 4 * (8 * s), EntWord(e));
  }

  lemma EntPutEnt(b: Block, s: nat, e: Dirent)
    requires s < 32 && NameOk(e.name) && e.inode < 0x4000_0000
    ensures Ent(PutEnt(b, s, e), s) == e && Padded(PutEnt(b, s, e), s)
    ensures forall j :: 0 <= j < 32 && j != s ==>
              Ent(PutEnt(b, s, e), j) == Ent(b, j) && (Padded(PutEnt(b, s, e), j) <==> Padded(b, j))
  {
    hide LittleEndian, ToBytes, EntWord, Ptr, CString, Ent;
    var t := ToBytes(EntWord(e), 4);
    var r := PutEnt(b, s, e);
    EntOthers(b, s, 32 * s, t + e.name + Zeros(28 - |e.name|));
    assert r[32 * s..32 * s + 4] == t;
    EntWordDecodes(r, s, e);
    assert NameField(r, s) == e.name + Zeros(28 - |e.name|);
    CStringUnique(NameField(r, s), e.name);
  }

  lemma PtrBound(b: Block, k: nat)
    requires k < 256
    ensures Ptr(b, k) < 0x1_0000_0000
  {
    assert Pow256(4) == 0x1_0000_0000 by { assert Pow256(2) == 65536; }
    LittleEndianBound(b, 4 * k, 4);
  }

  lemma {:induction false} LittleEndianBound(b: seq<byte>, i: nat, n: nat)
    requires i + n <= |b|
    ensures LittleEndian(b, i, n) < Pow256(n)
    decreases n
  {
    if n > 0 { LittleEndianBound(b, i + 1, n - 1); }
  }

  lemma EvenWord(e: Dirent, w: nat)
    requires !e.valid && e.isDir == ((w / 2) % 2 == 1) && e.inode == w / 4
    ensures EntWord(e) == w / 2 * 2
  {
    var h := w / 2;
    assert w / 4 == h / 2;
    assert h == 2 * (h / 2) + h % 2;
  }

  lemma EntInvalidate(b: Block, s: nat)
    requires s < 32
    ensures Ent(Invalidate(b, s), s) == Ent(b, s).(valid := false)
    ensures forall j :: 0 <= j < 32 && j != s ==>
              Ent(Invalidate(b, s), j) == Ent(b, j) && (Padded(Invalidate(b, s), j) <==> Padded(b, j))
  {
    hide LittleEndian, ToBytes, Ptr, CString, Padded;
    var e := Ent(b, s).(valid := false);
    var r := Invalidate(b, s);
    PtrBound(b, 8 * s);
    EvenWord(e, Ptr(b, 8 * s));
    var t := ToBytes(EntWord(e), 4);
    EntOthers(b, s, 32 * s, t);
    assert r[32 * s..32 * s + 4] == t;
    EntWordDecodes(r, s, e);
    assert NameField(r, s) == NameField(b, s);
  }

  lemma EntClearEnt(b: Block, s: nat)
    requires s < 32
    ensures Ent(ClearEnt(b, s), s) == Dirent(false, false, 0, [])
    ensures forall j :: 0 <= j < 32 && j != s ==>
              Ent(ClearEnt(b, s), j) == Ent(b, j) && (Padded(ClearEnt(b, s), j) <==> Padded(b, j))
  {
    var r := ClearEnt(b, s);
    LittleEndianZero(r, 4 * (8 * s), 4);
    assert NameField(r, s)[0] == 0;
    EntOthers(b, s, 32 * s, Zeros(32));
  }

  lemma EntZeroBlock(s: nat)
    requires s < 32
    ensures Ent(ZeroBlock, s) == Dirent(false, false, 0, [])
  {
    PtrZero(8 * s);
    assert NameField(ZeroBlock, s)[0] == 0;
  }

  /** The name a slot holds after strncpy(name, n, |n|) over an old name: the
      old tail stays when the old name was longer. */
  function Overwritten(old_: Name, n: Name): Name
  {
    if |n| < |old_| then n + old_[|n|..] else n
  }

  lemma RenamedSlot(b: Block, s: nat, n: Name)
    requires s < 32 && NameOk(n) && Padded(b, s)
    ensures Ent(RenameEnt(b, s, n), s) == Ent(b, s).(name := Overwritten(Ent(b, s).name, n))
    ensures Padded(RenameEnt(b, s, n), s)
  {
    hide LittleEndian;
    var r := RenameEnt(b, s, n);
    assert r[32 * s..32 * s + 4] == b[32 * s..32 * s + 4];
    LittleEndianAgree(r, b, 4 * (8 * s), 4 * (8 * s), 4);
    var f, g := NameField(r, s), NameField(b, s);
    assert f == n + g[|n|..];
    OverwrittenString(g, n);
  }

  lemma OverwrittenString(g: seq<byte>, n: Name)
    requires |n| < |g| && 0 !in n
    requires forall x :: |CString(g)| <= x < |g| ==> g[x] == 0
    ensures CString(n + g[|n|..]) == Overwritten(CString(g), n)
  {
    var m := Overwritten(CString(g), n);
    var f := n + g[|n|..];
    assert m == f[..|m|];
    CStringUnique(f, m);
  }

  lemma EntRenameEnt(b: Block, s: nat, n: Name)
    requires s < 32 && NameOk(n) && Padded(b, s)
    ensures Ent(RenameEnt(b, s, n), s) == Ent(b, s).(name := Overwritten(Ent(b, s).name, n))
    ensures Padded(RenameEnt(b, s, n), s)
    ensures forall j :: 0 <= j < 32 && j != s ==>
              Ent(RenameEnt(b, s, n), j) == Ent(b, j) && (Padded(RenameEnt(b, s, n), j) <==> Padded(b, j))
  {
    hide Ent, Padded;
    RenamedSlot(b, s, n);
    EntOthers(b, s, 32 * s + 4, n);
  }
}
