/** Bits of a byte and the free-block bitmap of kernel/fs.c. */
module Bitmap {
  import opened Prelude
  import opened Blocks

  /** x & (1 << i) != 0 */
  predicate Bit(x: nat, i: nat) {
    if i == 0 then x % 2 == 1 else Bit(x / 2, i - 1)
  }

  /** x | (1 << i) when `on`, x & ~(1 << i) otherwise. */
  function WithBit(x: nat, i: nat, on: bool): (r: nat) {
    if i == 0 then x - x % 2 + (if on then 1 else 0) else 2 * WithBit(x / 2, i - 1, on) + x % 2
  }

  lemma {:induction false} WithBitBit(x: nat, i: nat, on: bool, j: nat)
    ensures Bit(WithBit(x, i, on), j) == if i == j then on else Bit(x, j)
  {
    var r := WithBit(x, i, on);
    if i > 0 {
      assert r / 2 == WithBit(x / 2, i - 1, on) && r % 2 == x % 2;
      if j > 0 {
        WithBitBit(x / 2, i - 1, on, j - 1);
      }
    } else {
      assert r / 2 == x / 2;
    }
  }

  /** x >> k */
  function Shift(x: nat, k: nat): (r: nat) {
    if k == 0 then x else Shift(x / 2, k - 1)
  }

  lemma {:induction false} WithBitShift(x: nat, i: nat, on: bool, k: nat)
    requires i < k
    ensures Shift(WithBit(x, i, on), k) == Shift(x, k)
  {
    var r := WithBit(x, i, on);
    if i == 0 {
      assert r / 2 == x / 2;
    } else {
      assert r / 2 == WithBit(x / 2, i - 1, on);
      WithBitShift(x / 2, i - 1, on, k - 1);
    }
  }

  lemma ShiftTwo(x: nat, k: nat)
    requires k >= 2
    ensures Shift(x, k) == Shift(x / 4, k - 2)
  {
    assert Shift(x, k) == Shift(x / 2, k - 1) && x / 2 / 2 == x / 4;
  }

  lemma Shift8(x: nat)
    ensures Shift(x, 8) == 0 <==> x < 256
  {
    var x2 := x / 4;
    var x4 := x2 / 4;
    var x6 := x4 / 4;
    ShiftTwo(x, 8);
    ShiftTwo(x2, 6);
    ShiftTwo(x4, 4);
    ShiftTwo(x6, 2);
    assert Shift(x6 / 4, 0) == x6 / 4;
  }

  function ByteWithBit(x: Byte, i: nat, on: bool): (r: Byte)
    requires i < 8
    ensures forall j: nat :: Bit(r, j) == if i == j then on else Bit(x, j)
  {
    WithBitShift(x, i, on, 8);
    Shift8(x);
    Shift8(WithBit(x, i, on));
    assert forall j: nat :: Bit(WithBit(x, i, on), j) == if i == j then on else Bit(x, j) by {
      forall j: nat ensures Bit(WithBit(x, i, on), j) == if i == j then on else Bit(x, j) {
        WithBitBit(x, i, on, j);
      }
    }
    WithBit(x, i, on)
  }

  const MASKS := [1, 2, 4, 8, 16, 32, 64, 128]

  lemma {:induction false} BitIs(x: nat, i: nat)
    requires i < 8
    ensures Bit(x, i) <==> x / MASKS[i] % 2 == 1
  {
    if i > 0 {
      BitIs(x / 2, i - 1);
      DivTwice(x, MASKS[i - 1]);
      assert MASKS[i] == 2 * MASKS[i - 1];
    }
  }

  lemma DivTwice(x: nat, m: nat)
    requires m in [1, 2, 4, 8, 16, 32, 64]
    ensures x / 2 / m == x / (2 * m)
  {
    assert x / 2 / 1 == x / 2;
    assert x / 2 / 2 == x / 4;
    assert x / 2 / 4 == x / 8;
    assert x / 2 / 8 == x / 16;
    assert x / 2 / 16 == x / 32;
    assert x / 2 / 32 == x / 64;
    assert x / 2 / 64 == x / 128;
  }

  /** Bits per bitmap block. */
  const BPB := 8192

  /** Where the inodes, the bitmap and the data blocks start on a disk of `size` blocks. */
  datatype Super = Super(size: nat, inodestart: nat, bmapstart: nat, datastart: nat) {
    predicate Valid() {
      1 <= inodestart < bmapstart && bmapstart + size / BPB + 1 <= datastart <= size < 0x8000_0000
    }
  }

  /** The bit for block `b`. */
  predicate Used(sb: Super, d: Disk, b: nat)
    requires sb.Valid() && |d| == sb.size && b < sb.size
  {
    Bit(d[sb.bmapstart + b / BPB][b % BPB / 8], b % 8)
  }

  /** The bitmap is an array of bytes from block bmapstart on: block `b` has bit b % 8 of byte b / 8. */
  lemma UsedIs(sb: Super, d: Disk, b: nat)
    requires sb.Valid() && |d| == sb.size && b < sb.size
    ensures Used(sb, d, b)
            <==> d[sb.bmapstart + b / 8 / 1024][b / 8 % 1024] / [1, 2, 4, 8, 16, 32, 64, 128][b % 8] % 2 == 1
  {
    assert b / 8 / 1024 == b / BPB && b / 8 % 1024 == b % BPB / 8;
    BitIs(d[sb.bmapstart + b / BPB][b % BPB / 8], b % 8);
  }

  lemma OneBitEach(x: nat, b: nat)
    ensures x / BPB == b / BPB && x % BPB / 8 == b % BPB / 8 && x % 8 == b % 8 ==> x == b
  {
    assert x % BPB % 8 == x % 8 && b % BPB % 8 == b % 8;
  }

  /** Setting or clearing one bit changes no other bit and no block outside the bitmap. */
  function Mark(sb: Super, d: Disk, b: nat, on: bool): (r: Disk)
    requires sb.Valid() && |d| == sb.size && b < sb.size
    ensures |r| == |d|
    ensures forall x: nat | x < sb.size :: Used(sb, r, x) == if x == b then on else Used(sb, d, x)
    ensures forall x: nat | x < sb.size && x != sb.bmapstart + b / BPB :: r[x] == d[x]
  {
    var i, j := sb.bmapstart + b / BPB, b % BPB / 8;
    assert forall x: nat | x < sb.size && x != b :: x / BPB != b / BPB || x % BPB / 8 != j || x % 8 != b % 8 by {
      forall x: nat | x < sb.size && x != b ensures x / BPB != b / BPB || x % BPB / 8 != j || x % 8 != b % 8 {
        OneBitEach(x, b);
      }
    }
    d[i := d[i][j := ByteWithBit(d[i][j], b % 8, on)]]
  }
}
