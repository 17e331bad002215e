/** Which byte of a block holds which part of a word, an entry or the super block. */
module Bytes {
  import opened Layout

  /** Byte x as a number. */
  function At(b: Block, x: nat): nat
    requires x < 1024
  {
    b[x]
  }

  /** Least significant byte first. */
  lemma PtrBytes(b: Block, k: nat)
    requires k < 256
    ensures Ptr(b, k) == At(b, 4 * k) + 256 * At(b, 4 * k + 1) + 65536 * At(b, 4 * k + 2) + 16777216 * At(b, 4 * k + 3)
  {
    var i := 4 * k;
    assert LittleEndian(b, i + 3, 1) == At(b, i + 3);
    assert LittleEndian(b, i + 2, 2) == At(b, i + 2) + 256 * LittleEndian(b, i + 3, 1);
    assert LittleEndian(b, i + 1, 3) == At(b, i + 1) + 256 * LittleEndian(b, i + 2, 2);
  }

  /** Byte k of a word. */
  function WordByte(v: nat, k: nat): byte
    requires k < 4
  {
    match k
    case 0 => v % 256
    case 1 => v / 256 % 256
    case 2 => v / 65536 % 256
    case 3 => v / 16777216 % 256
  }

  lemma ToBytesAre(v: nat, k: nat)
    requires k < 4
    ensures ToBytes(v, 4)[k] == WordByte(v, k)
  {
    var a := v / 256;
    var b := a / 256;
    assert b == v / 65536 && b / 256 == v / 16777216;
    assert ToBytes(v, 4) == [v % 256] + ToBytes(a, 3);
    assert ToBytes(a, 3) == [a % 256] + ToBytes(b, 2);
    assert ToBytes(b, 2) == [b % 256] + ToBytes(b / 256, 1);
    assert ToBytes(b / 256, 1)[0] == b / 256 % 256;
  }

  /** Storing a pointer writes its four bytes and no other. */
  lemma SetPtrBytes(b: Block, k: nat, v: nat, x: nat)
    requires k < 256 && x < 1024
    ensures SetPtr(b, k, v)[x] == if 4 * k <= x < 4 * k + 4 then WordByte(v, x - 4 * k) else b[x]
  {
    hide ToBytes, WordByte;
    if 4 * k <= x < 4 * k + 4 { ToBytesAre(v, x - 4 * k); }
  }

  // ---- directory entries ----

  /** One slot, byte by byte: the valid and kind bits, the 30-bit inode number
      above them, and the name up to its NUL. */
  lemma EntBytes(b: Block, s: nat)
    requires s < 32
    ensures Ent(b, s).valid <==> b[32 * s] % 2 == 1
    ensures Ent(b, s).isDir <==> b[32 * s] / 2 % 2 == 1
    ensures Ent(b, s).inode
            == At(b, 32 * s) / 4 + 64 * At(b, 32 * s + 1) + 16384 * At(b, 32 * s + 2) + 4194304 * At(b, 32 * s + 3)
    ensures |Ent(b, s).name| <= 28
    ensures forall x :: 0 <= x < |Ent(b, s).name| ==> Ent(b, s).name[x] == b[32 * s + 4 + x] != 0
    ensures |Ent(b, s).name| < 28 ==> b[32 * s + 4 + |Ent(b, s).name|] == 0
  {
    PtrBytes(b, 8 * s);
    EntryWord(Ptr(b, 8 * s), At(b, 32 * s), At(b, 32 * s + 1), At(b, 32 * s + 2), At(b, 32 * s + 3));
    hide Ptr, At, NameField, CString;
    NameBytes(b, s);
  }

  lemma EntryWord(w: nat, b0: nat, b1: nat, b2: nat, b3: nat)
    requires w == b0 + 256 * b1 + 65536 * b2 + 16777216 * b3
    ensures w % 2 == b0 % 2 && w / 2 % 2 == b0 / 2 % 2 && w / 4 == b0 / 4 + 64 * b1 + 16384 * b2 + 4194304 * b3
  {
    Halved(w, b0, 128 * b1 + 32768 * b2 + 8388608 * b3);
    Halved(w / 2, b0 / 2, 64 * b1 + 16384 * b2 + 4194304 * b3);
    assert w / 4 == w / 2 / 2 && b0 / 4 == b0 / 2 / 2;
  }

  lemma Halved(w: nat, a: nat, c: nat)
    requires w == a + 2 * c
    ensures w % 2 == a % 2 && w / 2 == a / 2 + c
  {
  }

  lemma NameBytes(b: Block, s: nat)
    requires s < 32
    ensures var n := CString(NameField(b, s));
            && (forall x :: 0 <= x < |n| ==> n[x] == b[32 * s + 4 + x] != 0)
            && |n| <= 28 && (|n| < 28 ==> b[32 * s + 4 + |n|] == 0)
  {
    var f := NameField(b, s);
    var n := CString(f);
    forall x | 0 <= x < |n| ensures n[x] == b[32 * s + 4 + x] != 0 {
      assert n[x] == f[..|n|][x] && n[x] in n;
    }
  }

  /** Byte k of a written entry. */
  function EntByte(e: Dirent, k: nat): byte
    requires k < 32 && e.inode < 0x4000_0000
  {
    if k == 0 then (if e.valid then 1 else 0) + (if e.isDir then 2 else 0) + 4 * (e.inode % 64)
    else if k == 1 then e.inode / 64 % 256
    else if k == 2 then e.inode / 16384 % 256
    else if k == 3 then e.inode / 4194304
    else if k - 4 < |e.name| then e.name[k - 4]
    else 0
  }

  lemma EntWordBytes(e: Dirent, k: nat)
    requires k < 4 && e.inode < 0x4000_0000
    ensures WordByte(EntWord(e), k) == EntByte(e, k)
  {
    var f := (if e.valid then 1 else 0) + (if e.isDir then 2 else 0);
    var i := e.inode;
    assert EntWord(e) == f + 4 * i;
    if k == 0 { FlagByte(f, i); }
    else { UpperByte(f, i); }
  }

  lemma FlagByte(f: nat, i: nat)
    requires f < 4
    ensures (f + 4 * i) % 256 == f + 4 * (i % 64)
  {
    assert i == 64 * (i / 64) + i % 64;
  }

  lemma UpperByte(f: nat, i: nat)
    requires f < 4
    ensures (f + 4 * i) / 256 == i / 64 && (f + 4 * i) / 65536 == i / 16384 && (f + 4 * i) / 16777216 == i / 4194304
  {
  }

  lemma PutEntBytes(b: Block, s: nat, e: Dirent, x: nat)
    requires s < 32 && |e.name| < 28 && e.inode < 0x4000_0000 && x < 1024
    ensures PutEnt(b, s, e)[x] == if 32 * s <= x < 32 * s + 32 then EntByte(e, x - 32 * s) else b[x]
  {
    hide ToBytes, EntWord, WordByte;
    var t := ToBytes(EntWord(e), 4) + e.name + Zeros(28 - |e.name|);
    if 32 * s <= x < 32 * s + 4 {
      ToBytesAre(EntWord(e), x - 32 * s);
      EntWordBytes(e, x - 32 * s);
    }
  }

  /** Clearing valid changes one bit of the block. */
  lemma InvalidateBytes(b: Block, s: nat, x: nat)
    requires s < 32 && x < 1024
    ensures Invalidate(b, s)[x] == if x == 32 * s then b[x] / 2 * 2 else b[x]
  {
    var w := Ptr(b, 8 * s);
    PtrBytes(b, 8 * s);
    hide Ptr, SetPtr, WordByte;
    SetPtrBytes(b, 8 * s, w / 2 * 2, x);
    if 32 * s <= x < 32 * s + 4 { EvenBytes(w, At(b, 32 * s), At(b, 32 * s + 1), At(b, 32 * s + 2), At(b, 32 * s + 3)); }
  }

  lemma EvenBytes(w: nat, b0: nat, b1: nat, b2: nat, b3: nat)
    requires w == b0 + 256 * b1 + 65536 * b2 + 16777216 * b3 && b0 < 256 && b1 < 256 && b2 < 256 && b3 < 256
    ensures WordByte(w / 2 * 2, 0) == b0 / 2 * 2 && WordByte(w / 2 * 2, 1) == b1
    ensures WordByte(w / 2 * 2, 2) == b2 && WordByte(w / 2 * 2, 3) == b3
  {
    var c := b0 / 2 * 2;
    hide WordByte;
    assert w / 2 * 2 == c + 256 * b1 + 65536 * b2 + 16777216 * b3;
    WordParts(c, b1, b2, b3);
  }

  lemma WordParts(b0: nat, b1: nat, b2: nat, b3: nat)
    requires b0 < 256 && b1 < 256 && b2 < 256 && b3 < 256
    ensures var v := b0 + 256 * b1 + 65536 * b2 + 16777216 * b3;
            WordByte(v, 0) == b0 && WordByte(v, 1) == b1 && WordByte(v, 2) == b2 && WordByte(v, 3) == b3
  {
    var v := b0 + 256 * b1 + 65536 * b2 + 16777216 * b3;
    assert v / 256 == b1 + 256 * b2 + 65536 * b3;
    assert v / 65536 == b2 + 256 * b3;
    assert v / 16777216 == b3;
  }

  /** Clearing a slot zeroes its 32 bytes. */
  lemma ClearEntBytes(b: Block, s: nat, x: nat)
    requires s < 32 && x < 1024
    ensures ClearEnt(b, s)[x] == if 32 * s <= x < 32 * s + 32 then 0 else b[x]
  {
  }

  /** Renaming writes the bytes of the new name and no other, no NUL either. */
  lemma RenameEntBytes(b: Block, s: nat, n: Name, x: nat)
    requires s < 32 && |n| < 26 && x < 1024
    ensures RenameEnt(b, s, n)[x] == if 32 * s + 4 <= x < 32 * s + 4 + |n| then n[x - 32 * s - 4] else b[x]
  {
  }
}
