/** What the checksum is good for: no single damaged byte goes unnoticed. */
module Checksums {
  import opened Prelude
  import opened Crc
  import opened BootRecord

  // ----- Every step of the checksum is reversible -----

  lemma ShiftInjective(c: bv32, d: bv32)
    requires Shift(c) == Shift(d)
    ensures c == d
  {
  }

  lemma {:induction false} ShiftsInjective(c: bv32, d: bv32, n: nat)
    requires Shifts(c, n) == Shifts(d, n)
    ensures c == d
    decreases n
  {
    hide Shift;
    if n > 0 {
      ShiftsInjective(Shift(c), Shift(d), n - 1);
      ShiftInjective(c, d);
    }
  }

  lemma XorCancels(c: bv32, d: bv32, x: bv32)
    ensures c ^ x == d ^ x ==> c == d
    ensures x ^ c == x ^ d ==> c == d
  {
  }

  /** Bit `n` of a word is the same in equal words. */
  lemma SameBits(x: Byte, y: Byte)
    requires Widened(x) == Widened(y)
    ensures x % 2 == y % 2 && x / 2 % 2 == y / 2 % 2 && x / 4 % 2 == y / 4 % 2 && x / 8 % 2 == y / 8 % 2
    ensures x / 16 % 2 == y / 16 % 2 && x / 32 % 2 == y / 32 % 2 && x / 64 % 2 == y / 64 % 2 && x / 128 % 2 == y / 128 % 2
  {
    BitsOf(x);
    BitsOf(y);
  }

  lemma BitsOf(x: Byte)
    ensures Widened(x) & 0x1 == 0x1 <==> x % 2 == 1
    ensures Widened(x) & 0x2 == 0x2 <==> x / 2 % 2 == 1
    ensures Widened(x) & 0x4 == 0x4 <==> x / 4 % 2 == 1
    ensures Widened(x) & 0x8 == 0x8 <==> x / 8 % 2 == 1
    ensures Widened(x) & 0x10 == 0x10 <==> x / 16 % 2 == 1
    ensures Widened(x) & 0x20 == 0x20 <==> x / 32 % 2 == 1
    ensures Widened(x) & 0x40 == 0x40 <==> x / 64 % 2 == 1
    ensures Widened(x) & 0x80 == 0x80 <==> x / 128 % 2 == 1
  {
  }

  /** A byte is the sum of its bits. */
  lemma BitSum(x: Byte)
    ensures x == x % 2 + 2 * (x / 2 % 2) + 4 * (x / 4 % 2) + 8 * (x / 8 % 2) + 16 * (x / 16 % 2) + 32 * (x / 32 % 2) + 64 * (x / 64 % 2) + 128 * (x / 128 % 2)
  {
    assert x / 2 / 2 == x / 4 && x / 4 / 2 == x / 8 && x / 8 / 2 == x / 16 && x / 16 / 2 == x / 32 && x / 32 / 2 == x / 64 && x / 64 / 2 == x / 128;
  }

  lemma WidenedInjective(x: Byte, y: Byte)
    requires Widened(x) == Widened(y)
    ensures x == y
  {
    hide Widened;
    SameBits(x, y);
    BitSum(x);
    BitSum(y);
  }

  lemma FeedUndone(c: bv32, d: bv32, x: Byte, y: Byte)
    requires Feed(c, x) == Feed(d, y)
    ensures c ^ Widened(x) == d ^ Widened(y)
  {
    hide Shifts;
    hide Widened;
    ShiftsInjective(c ^ Widened(x), d ^ Widened(y), 8);
  }

  /** One byte takes different states apart, and one state different bytes. */
  lemma FeedState(c: bv32, d: bv32, x: Byte)
    requires Feed(c, x) == Feed(d, x)
    ensures c == d
  {
    hide Feed;
    hide Widened;
    FeedUndone(c, d, x, x);
    XorCancels(c, d, Widened(x));
  }

  lemma FeedByte(c: bv32, x: Byte, y: Byte)
    requires Feed(c, x) == Feed(c, y)
    ensures x == y
  {
    hide Feed;
    hide Widened;
    FeedUndone(c, c, x, y);
    XorCancels(Widened(x), Widened(y), c);
    WidenedInjective(x, y);
  }

  lemma {:induction false} UpdateInjective(c: bv32, d: bv32, bytes: seq<Byte>)
    requires Update(c, bytes) == Update(d, bytes)
    ensures c == d
    decreases |bytes|
  {
    hide Feed;
    if bytes != [] {
      UpdateInjective(Feed(c, bytes[0]), Feed(d, bytes[0]), bytes[1..]);
      FeedState(c, d, bytes[0]);
    }
  }

  lemma WordBack(x: bv32)
    ensures (x as nat) as bv32 == x
  {
  }

  lemma FinishInjective(c: bv32, d: bv32)
    requires Finish(c) == Finish(d)
    ensures c == d
  {
    WordBack(!c);
    WordBack(!d);
    Complement(c, d);
  }

  lemma Complement(c: bv32, d: bv32)
    requires !c == !d
    ensures c == d
  {
  }

  /** Changing one byte anywhere changes the checksum. */
  lemma OneByteChanges(bytes: seq<Byte>, k: nat, b: Byte)
    requires k < |bytes| && b != bytes[k]
    ensures Crc32(bytes[k := b]) != Crc32(bytes)
  {
    hide Update;
    hide Feed;
    hide Finish;
    var front, back := bytes[..k], bytes[k + 1..];
    var damaged := bytes[k := b];
    assert bytes == front + ([bytes[k]] + back) && damaged == front + ([b] + back);
    var c := Update(0xffff_ffff, front);
    UpdateAppend(0xffff_ffff, front, [bytes[k]] + back);
    UpdateAppend(0xffff_ffff, front, [b] + back);
    FirstByte(c, bytes[k], back);
    FirstByte(c, b, back);
    if Crc32(damaged) == Crc32(bytes) {
      FinishInjective(Update(0xffff_ffff, damaged), Update(0xffff_ffff, bytes));
      UpdateInjective(Feed(c, b), Feed(c, bytes[k]), back);
      FeedByte(c, b, bytes[k]);
    }
  }

  lemma FirstByte(c: bv32, b: Byte, back: seq<Byte>)
    ensures Update(c, [b] + back) == Update(Feed(c, b), back)
  {
    assert ([b] + back)[1..] == back;
  }

  /** The polynomial, bit order and final complement are those of CRC-32: the check value of
      the ASCII digits 1 to 9. */
  lemma CheckValue()
    ensures Crc32([0x31, 0x32, 0x33, 0x34, 0x35, 0x36, 0x37, 0x38, 0x39]) == 0xcbf4_3926
  {
    hide Update;
    hide Feed;
    hide Finish;
    Digits();
    FirstByte(0xffff_ffff, 0x31, [0x32, 0x33, 0x34, 0x35, 0x36, 0x37, 0x38, 0x39]);
    assert [0x31, 0x32, 0x33, 0x34, 0x35, 0x36, 0x37, 0x38, 0x39] == [0x31] + [0x32, 0x33, 0x34, 0x35, 0x36, 0x37, 0x38, 0x39];
    FirstByte(0x7c23_1048, 0x32, [0x33, 0x34, 0x35, 0x36, 0x37, 0x38, 0x39]);
    assert [0x32, 0x33, 0x34, 0x35, 0x36, 0x37, 0x38, 0x39] == [0x32] + [0x33, 0x34, 0x35, 0x36, 0x37, 0x38, 0x39];
    FirstByte(0xb0ac_bb32, 0x33, [0x34, 0x35, 0x36, 0x37, 0x38, 0x39]);
    assert [0x33, 0x34, 0x35, 0x36, 0x37, 0x38, 0x39] == [0x33] + [0x34, 0x35, 0x36, 0x37, 0x38, 0x39];
    FirstByte(0x77b7_9c2d, 0x34, [0x35, 0x36, 0x37, 0x38, 0x39]);
    assert [0x34, 0x35, 0x36, 0x37, 0x38, 0x39] == [0x34] + [0x35, 0x36, 0x37, 0x38, 0x39];
    FirstByte(0x641c_1f5c, 0x35, [0x36, 0x37, 0x38, 0x39]);
    assert [0x35, 0x36, 0x37, 0x38, 0x39] == [0x35] + [0x36, 0x37, 0x38, 0x39];
    FirstByte(0x340a_c5e3, 0x36, [0x37, 0x38, 0x39]);
    assert [0x36, 0x37, 0x38, 0x39] == [0x36] + [0x37, 0x38, 0x39];
    FirstByte(0xf68d_2c9e, 0x37, [0x38, 0x39]);
    assert [0x37, 0x38, 0x39] == [0x37] + [0x38, 0x39];
    FirstByte(0xaffc_9660, 0x38, [0x39]);
    assert [0x38, 0x39] == [0x38] + [0x39];
    FirstByte(0x651f_2550, 0x39, []);
    assert [0x39] == [0x39] + [];
    Final();
  }

  lemma Digits()
    ensures Feed(0xffff_ffff, 0x31) == 0x7c23_1048
    ensures Feed(0x7c23_1048, 0x32) == 0xb0ac_bb32
    ensures Feed(0xb0ac_bb32, 0x33) == 0x77b7_9c2d
    ensures Feed(0x77b7_9c2d, 0x34) == 0x641c_1f5c
    ensures Feed(0x641c_1f5c, 0x35) == 0x340a_c5e3
    ensures Feed(0x340a_c5e3, 0x36) == 0xf68d_2c9e
    ensures Feed(0xf68d_2c9e, 0x37) == 0xaffc_9660
    ensures Feed(0xaffc_9660, 0x38) == 0x651f_2550
    ensures Feed(0x651f_2550, 0x39) == 0x340b_c6d9
  {
    hide Shifts;
    hide Widened;
    WidenedDigits();
    ShiftedDigits();
    assert (0xffff_ffff as bv32) ^ 0x31 == 0xffff_ffce;
    assert (0x7c23_1048 as bv32) ^ 0x32 == 0x7c23_107a;
    assert (0xb0ac_bb32 as bv32) ^ 0x33 == 0xb0ac_bb01;
    assert (0x77b7_9c2d as bv32) ^ 0x34 == 0x77b7_9c19;
    assert (0x641c_1f5c as bv32) ^ 0x35 == 0x641c_1f69;
    assert (0x340a_c5e3 as bv32) ^ 0x36 == 0x340a_c5d5;
    assert (0xf68d_2c9e as bv32) ^ 0x37 == 0xf68d_2ca9;
    assert (0xaffc_9660 as bv32) ^ 0x38 == 0xaffc_9658;
    assert (0x651f_2550 as bv32) ^ 0x39 == 0x651f_2569;
  }

  lemma WidenedDigits()
    ensures Widened(0x31) == 0x31 && Widened(0x32) == 0x32 && Widened(0x33) == 0x33 && Widened(0x34) == 0x34
    ensures Widened(0x35) == 0x35 && Widened(0x36) == 0x36 && Widened(0x37) == 0x37 && Widened(0x38) == 0x38 && Widened(0x39) == 0x39
  {
    hide Widened;
    LowDigits();
    HighDigits();
  }

  lemma LowDigits()
    ensures Widened(0x31) == 0x31 && Widened(0x32) == 0x32 && Widened(0x33) == 0x33 && Widened(0x34) == 0x34
  {
  }

  lemma HighDigits()
    ensures Widened(0x35) == 0x35 && Widened(0x36) == 0x36 && Widened(0x37) == 0x37 && Widened(0x38) == 0x38 && Widened(0x39) == 0x39
  {
  }

  lemma ShiftedDigits()
    ensures Shifts(0xffff_ffce, 8) == 0x7c23_1048
    ensures Shifts(0x7c23_107a, 8) == 0xb0ac_bb32
    ensures Shifts(0xb0ac_bb01, 8) == 0x77b7_9c2d
    ensures Shifts(0x77b7_9c19, 8) == 0x641c_1f5c
    ensures Shifts(0x641c_1f69, 8) == 0x340a_c5e3
    ensures Shifts(0x340a_c5d5, 8) == 0xf68d_2c9e
    ensures Shifts(0xf68d_2ca9, 8) == 0xaffc_9660
    ensures Shifts(0xaffc_9658, 8) == 0x651f_2550
    ensures Shifts(0x651f_2569, 8) == 0x340b_c6d9
  {
  }

  lemma Final()
    ensures Update(0x340b_c6d9, []) == 0x340b_c6d9 && Finish(0x340b_c6d9) == 0xcbf4_3926
  {
  }

  // ----- Damaged records -----

  /** A sealed record with one byte changed, in its body or in its checksum, no longer
      matches. */
  lemma SealBroken(bytes: seq<Byte>, n: nat, k: nat, b: Byte)
    requires n <= |bytes| && Crc32(bytes[..n]) == FromLe(bytes[n..]) && k < |bytes| && b != bytes[k]
    ensures Crc32(bytes[k := b][..n]) != FromLe(bytes[k := b][n..])
  {
    hide Crc32;
    var damaged := bytes[k := b];
    if k < n {
      assert damaged[..n] == bytes[..n][k := b] && damaged[n..] == bytes[n..];
      OneByteChanges(bytes[..n], k, b);
    } else {
      assert damaged[..n] == bytes[..n] && damaged[n..][k - n] != bytes[n..][k - n];
      LeBytesBack(damaged[n..]);
      LeBytesBack(bytes[n..]);
    }
  }

  /** So a stored boot record with any one byte damaged is rejected. */
  lemma DamageRejected(bytes: seq<Byte>, k: nat, b: Byte)
    requires |bytes| == RECORD_SIZE && DecodeRecord(bytes).Some? && k < RECORD_SIZE && b != bytes[k]
    ensures DecodeRecord(bytes[k := b]).None?
  {
    hide Crc32;
    hide FromLe;
    SealBroken(bytes, CHECKSUM_OFFSET, k, b);
  }
}
