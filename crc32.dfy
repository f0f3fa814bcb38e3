/**
 * The CRC computed by the image checksum tool: `boost::crc_basic<32>` configured with
 * polynomial 0x04C11DB7, initial remainder 0xFFFFFFFF, final XOR 0 and neither input nor
 * output reflection (the parameter set catalogued as CRC-32/MPEG-2, the CRC of
 * ISO/IEC 13818-1 Annex A).
 *
 * The parameters are written as bit-vector literals in the bodies below: polynomial
 * 0x04C1_1DB7, initial remainder 0xFFFF_FFFF, final XOR 0, register top bit 0x8000_0000.
 */
module Crc32 {
  import opened Common

  /** Whether the top bit of the register is set. */
  function Top(r: bv32): bool {
    r & 0x8000_0000 != 0
  }

  /** The register shifted left by one place; the top bit falls out. */
  function Shl1(r: bv32): bv32 {
    r << 1
  }

  /** Bitwise exclusive or (addition of polynomials over GF(2)). */
  function Xor(a: bv32, b: bv32): bv32 {
    a ^ b
  }

  /**
   * One division step: the remainder shifts left by one, and the polynomial is subtracted
   * (XORed in) when the bit shifted out was a one.
   */
  function Step(r: bv32): bv32 {
    if Top(r) then Xor(Shl1(r), 0x04C1_1DB7) else Shl1(r)
  }

  /** The register's top bit if `bit` is set, else nothing. */
  function BitMask(bit: bool): bv32 {
    if bit then 0x8000_0000 else 0
  }

  /**
   * `crc_basic::process_bit`: the incoming bit is XORed into the top of the remainder, then
   * one division step is taken.
   */
  function ProcessBit(rem: bv32, bit: bool): (r: bv32)
    ensures r == if Top(rem) != bit then Xor(Shl1(rem), 0x04C1_1DB7) else Shl1(rem)
  {
    MaskedTop(rem, bit);
    Step(Xor(rem, BitMask(bit)))
  }

  /** XORing the incoming bit into the top flips the bit tested, and the shift drops it again. */
  lemma MaskedTop(rem: bv32, bit: bool)
    ensures Top(Xor(rem, BitMask(bit))) == (Top(rem) != bit)
    ensures Shl1(Xor(rem, BitMask(bit))) == Shl1(rem)
  {
    if bit {
      assert Xor(rem, BitMask(bit)) == rem ^ 0x8000_0000;
    } else {
      assert Xor(rem, BitMask(bit)) == rem;
    }
  }

  /** The most significant bit of a byte: the next one `process_bits` reads. */
  function TopBit(b: Byte): bool {
    b & 0x80 != 0
  }

  /** The byte with the bit just read shifted out. */
  function NextBits(b: Byte): Byte {
    b << 1
  }

  /**
   * The top `n` bits of `bits`, most significant first (no reflection). When the bits below
   * those `n` are zero, feeding them one at a time is the same as XORing them into the top of
   * the register and taking `n` division steps. `crc_basic::process_bits` takes the LOW `n`
   * bits instead (it shifts them up first), so the two agree at `n = 8`, the only width
   * `ProcessByte` uses.
   */
  function ProcessBits(rem: bv32, bits: Byte, n: nat): (r: bv32)
    ensures n <= 8 && Unconsumed(bits, n) ==> r == Steps(Xor(rem, Spread(bits)), n)
    decreases n
  {
    if n == 0 then
      SpreadNothing(bits, rem);
      rem
    else
      OneBitStep(rem, bits);
      UnreadAfterShift(bits, n);
      ProcessBits(ProcessBit(rem, TopBit(bits)), NextBits(bits), n - 1)
  }

  /**
   * `crc_basic::process_byte`: all eight bits of one byte. The bit-serial engine agrees with the
   * byte-at-a-time reference update `UpdateByte` on every register and byte.
   */
  function ProcessByte(rem: bv32, b: Byte): (r: bv32)
    ensures r == UpdateByte(rem, b)
  {
    assert Unread(8) == 0;
    ProcessBits(rem, b, 8)
  }

  /** `crc_basic::process_bytes`: a left fold of the byte step over the input. */
  function ProcessBytes(rem: bv32, s: seq<Byte>): bv32
    decreases |s|
  {
    if |s| == 0 then rem else ProcessBytes(ProcessByte(rem, s[0]), s[1..])
  }

  /**
   * `crc_basic::checksum` after processing `s` from a fresh register: no reflection, XOR with 0.
   * The result is the byte-at-a-time reference CRC of `s` from the initial value 0xFFFFFFFF.
   */
  function Checksum(s: seq<Byte>): (r: bv32)
    ensures r == UpdateBytes(0xFFFF_FFFF, s)
  {
    ProcessBytesIsReference(0xFFFF_FFFF, s);
    ProcessBytes(0xFFFF_FFFF, s) ^ 0
  }

  // ---------------------------------------------------------------------------
  // Independent reference: the byte-at-a-time formulation
  // ---------------------------------------------------------------------------

  function Steps(r: bv32, n: nat): bv32
    decreases n
  {
    if n == 0 then r else Steps(Step(r), n - 1)
  }

  /** A byte placed in the top eight bits of the register. */
  function Spread(b: Byte): bv32 {
    (b as bv32) << 24
  }

  /**
   * The usual table-free non-reflected update: XOR the whole byte into the top eight bits of
   * the register, then take eight division steps.
   */
  function UpdateByte(rem: bv32, b: Byte): bv32 {
    Steps(Xor(rem, Spread(b)), 8)
  }

  /** The reference update over a sequence: a left fold of `UpdateByte`. */
  function UpdateBytes(rem: bv32, s: seq<Byte>): bv32
    decreases |s|
  {
    if |s| == 0 then rem else UpdateBytes(UpdateByte(rem, s[0]), s[1..])
  }

  /** The bit-serial engine and the byte-at-a-time reference agree on every input sequence. */
  lemma {:induction false} ProcessBytesIsReference(rem: bv32, s: seq<Byte>)
    ensures ProcessBytes(rem, s) == UpdateBytes(rem, s)
    decreases |s|
  {
    if |s| > 0 {
      ProcessBytesIsReference(ProcessByte(rem, s[0]), s[1..]);
    }
  }

  /** The seven bits below the top one. */
  function LowBits(b: Byte): Byte {
    b & 0x7F
  }

  lemma SpreadSplit(b: Byte)
    ensures Spread(b) == Xor(BitMask(TopBit(b)), Spread(LowBits(b)))
    ensures !Top(Spread(LowBits(b)))
    ensures Shl1(Spread(LowBits(b))) == Spread(NextBits(b))
  {
  }

  lemma XorAssoc(a: bv32, b: bv32, c: bv32)
    ensures Xor(Xor(a, b), c) == Xor(a, Xor(b, c))
  {
    assert Xor(Xor(a, b), c) == (a ^ b) ^ c;
    assert Xor(a, Xor(b, c)) == a ^ (b ^ c);
  }

  lemma XorComm(a: bv32, b: bv32)
    ensures Xor(a, b) == Xor(b, a)
  {
  }

  lemma TopXor(r: bv32, x: bv32)
    requires !Top(x)
    ensures Top(Xor(r, x)) == Top(r)
  {
  }

  lemma Shl1Xor(r: bv32, x: bv32)
    ensures Shl1(Xor(r, x)) == Xor(Shl1(r), Shl1(x))
  {
  }

  /** A division step is linear in the bits below the top bit. */
  lemma StepXor(r: bv32, x: bv32)
    requires !Top(x)
    ensures Step(Xor(r, x)) == Xor(Step(r), Shl1(x))
  {
    TopXor(r, x);
    Shl1Xor(r, x);
    if Top(r) {
      XorAssoc(Shl1(r), Shl1(x), 0x04C1_1DB7);
      XorComm(Shl1(x), 0x04C1_1DB7);
      XorAssoc(Shl1(r), 0x04C1_1DB7, Shl1(x));
    }
  }

  /** Feeding the top bit of `bits` is one division step with the whole byte XORed in on top. */
  lemma OneBitStep(rem: bv32, bits: Byte)
    ensures Step(Xor(rem, Spread(bits))) == Xor(ProcessBit(rem, TopBit(bits)), Spread(NextBits(bits)))
  {
    SpreadSplit(bits);
    XorAssoc(rem, BitMask(TopBit(bits)), Spread(LowBits(bits)));
    StepXor(Xor(rem, BitMask(TopBit(bits))), Spread(LowBits(bits)));
  }

  /** Mask of the low `8 - n` bits of a byte: the bits that `n` bit steps leave unread. */
  function Unread(n: nat): Byte
    requires n <= 8
  {
    match n
    case 0 => 0xFF
    case 1 => 0x7F
    case 2 => 0x3F
    case 3 => 0x1F
    case 4 => 0x0F
    case 5 => 0x07
    case 6 => 0x03
    case 7 => 0x01
    case _ => 0x00
  }

  /** After `n` bit steps, the bits of `bits` still to be read are all zero. */
  predicate Unconsumed(bits: Byte, n: nat)
    requires n <= 8
  {
    bits & Unread(n) == 0
  }

  lemma UnreadAfterShift(bits: Byte, n: nat)
    requires 0 < n
    ensures n <= 8 && Unconsumed(bits, n) ==> Unconsumed(NextBits(bits), n - 1)
  {
  }

  lemma SpreadNothing(bits: Byte, r: bv32)
    ensures Unconsumed(bits, 0) ==> Xor(r, Spread(bits)) == r
  {
  }

  // ---------------------------------------------------------------------------
  // Properties
  // ---------------------------------------------------------------------------

  /** The register update is a left fold: processing `x + y` continues from the state after `x`. */
  lemma {:induction false} ProcessBytesAppend(rem: bv32, x: seq<Byte>, y: seq<Byte>)
    ensures ProcessBytes(rem, x + y) == ProcessBytes(ProcessBytes(rem, x), y)
    decreases |x|
  {
    if |x| > 0 {
      assert (x + y)[0] == x[0];
      assert (x + y)[1..] == x[1..] + y;
      ProcessBytesAppend(ProcessByte(rem, x[0]), x[1..], y);
    } else {
      assert x + y == y;
    }
  }

  /** The checksum of a concatenation is the register after the first part run on over the second. */
  lemma ChecksumAppend(x: seq<Byte>, y: seq<Byte>)
    ensures Checksum(x + y) == ProcessBytes(ProcessBytes(0xFFFF_FFFF, x), y)
  {
    ProcessBytesAppend(0xFFFF_FFFF, x, y);
  }

  /** Feeding one more byte is one more byte step on the register. */
  lemma ProcessBytesSnoc(rem: bv32, s: seq<Byte>, b: Byte)
    ensures ProcessBytes(rem, s + [b]) == ProcessByte(ProcessBytes(rem, s), b)
  {
    ProcessBytesAppend(rem, s, [b]);
    assert ProcessBytes(ProcessBytes(rem, s), [b]) == ProcessBytes(ProcessByte(ProcessBytes(rem, s), b), []);
  }

  /** No input: the initial remainder comes out unchanged (no final XOR, no reflection). */
  lemma ChecksumEmpty()
    ensures Checksum([]) == 0xFFFF_FFFF
  {
  }

  /** The catalogue check value of the parameter set: the checksum of the ASCII string "123456789". */
  lemma CheckValue()
    ensures Checksum([0x31, 0x32, 0x33, 0x34, 0x35, 0x36, 0x37, 0x38, 0x39]) == 0x0376_E6E7
  {
    FoldBytes123();
    FoldBytes456();
    FoldBytes789();
  }

  // The fold over "123456789", three bytes at a time, with the register after each byte.

  lemma FoldBytes123()
    ensures ProcessBytes(0xFFFF_FFFF, [0x31, 0x32, 0x33, 0x34, 0x35, 0x36, 0x37, 0x38, 0x39])
         == ProcessBytes(0xD952_F164, [0x34, 0x35, 0x36, 0x37, 0x38, 0x39])
  {
    CheckByte1();
    CheckByte2();
    CheckByte3();
    assert ProcessBytes(0xFFFF_FFFF, [0x31, 0x32, 0x33, 0x34, 0x35, 0x36, 0x37, 0x38, 0x39])
        == ProcessBytes(0x9EFB_CF93, [0x32, 0x33, 0x34, 0x35, 0x36, 0x37, 0x38, 0x39]);
    assert ProcessBytes(0x9EFB_CF93, [0x32, 0x33, 0x34, 0x35, 0x36, 0x37, 0x38, 0x39])
        == ProcessBytes(0x3FEC_5E6A, [0x33, 0x34, 0x35, 0x36, 0x37, 0x38, 0x39]);
  }

  lemma FoldBytes456()
    ensures ProcessBytes(0xD952_F164, [0x34, 0x35, 0x36, 0x37, 0x38, 0x39])
         == ProcessBytes(0xD8F0_6C8F, [0x37, 0x38, 0x39])
  {
    CheckByte4();
    CheckByte5();
    CheckByte6();
    assert ProcessBytes(0xD952_F164, [0x34, 0x35, 0x36, 0x37, 0x38, 0x39])
        == ProcessBytes(0xA695_C4AA, [0x35, 0x36, 0x37, 0x38, 0x39]);
    assert ProcessBytes(0xA695_C4AA, [0x35, 0x36, 0x37, 0x38, 0x39])
        == ProcessBytes(0xBD9A_B747, [0x36, 0x37, 0x38, 0x39]);
  }

  lemma FoldBytes789()
    ensures ProcessBytes(0xD8F0_6C8F, [0x37, 0x38, 0x39]) == 0x0376_E6E7
  {
    CheckByte7();
    CheckByte8();
    CheckByte9();
    assert ProcessBytes(0xD8F0_6C8F, [0x37, 0x38, 0x39]) == ProcessBytes(0x0D8A_14C4, [0x38, 0x39]);
    assert ProcessBytes(0x0D8A_14C4, [0x38, 0x39]) == ProcessBytes(0x49E3_C2FB, [0x39]);
    assert ProcessBytes(0x49E3_C2FB, [0x39]) == ProcessBytes(0x0376_E6E7, []);
  }

  /** The register after the byte '1', four bits at a time. */
  lemma CheckByte1()
    ensures ProcessByte(0xFFFF_FFFF, 0x31) == 0x9EFB_CF93
  {
    assert ProcessBits(0xFFFF_FFFF, 0x31, 8) == ProcessBits(0xCAF3_6494, 0x10, 4);
    assert ProcessBits(0xCAF3_6494, 0x10, 4) == 0x9EFB_CF93;
  }

  /** The register after the byte '2', four bits at a time. */
  lemma CheckByte2()
    ensures ProcessByte(0x9EFB_CF93, 0x32) == 0x3FEC_5E6A
  {
    assert ProcessBits(0x9EFB_CF93, 0x32, 8) == ProcessBits(0xC036_2FE6, 0x20, 4);
    assert ProcessBits(0xC036_2FE6, 0x20, 4) == 0x3FEC_5E6A;
  }

  /** The register after the byte '3', four bits at a time. */
  lemma CheckByte3()
    ensures ProcessByte(0x3FEC_5E6A, 0x33) == 0xD952_F164
  {
    assert ProcessBits(0x3FEC_5E6A, 0x33, 8) == ProcessBits(0xFEC5_E6A0, 0x30, 4);
    assert ProcessBits(0xFEC5_E6A0, 0x30, 4) == 0xD952_F164;
  }

  /** The register after the byte '4', four bits at a time. */
  lemma CheckByte4()
    ensures ProcessByte(0xD952_F164, 0x34) == 0xA695_C4AA
  {
    assert ProcessBits(0xD952_F164, 0x34, 8) == ProcessBits(0xA9A1_B64A, 0x40, 4);
    assert ProcessBits(0xA9A1_B64A, 0x40, 4) == 0xA695_C4AA;
  }

  /** The register after the byte '5', four bits at a time. */
  lemma CheckByte5()
    ensures ProcessByte(0xA695_C4AA, 0x35) == 0xBD9A_B747
  {
    assert ProcessBits(0xA695_C4AA, 0x35, 8) == ProcessBits(0x4B95_BAAF, 0x50, 4);
    assert ProcessBits(0x4B95_BAAF, 0x50, 4) == 0xBD9A_B747;
  }

  /** The register after the byte '6', four bits at a time. */
  lemma CheckByte6()
    ensures ProcessByte(0xBD9A_B747, 0x36) == 0xD8F0_6C8F
  {
    assert ProcessBits(0xBD9A_B747, 0x36, 8) == ProcessBits(0xFFA3_99C8, 0x60, 4);
    assert ProcessBits(0xFFA3_99C8, 0x60, 4) == 0xD8F0_6C8F;
  }

  /** The register after the byte '7', four bits at a time. */
  lemma CheckByte7()
    ensures ProcessByte(0xD8F0_6C8F, 0x37) == 0x0D8A_14C4
  {
    assert ProcessBits(0xD8F0_6C8F, 0x37, 8) == ProcessBits(0xB388_68FA, 0x70, 4);
    assert ProcessBits(0xB388_68FA, 0x70, 4) == 0x0D8A_14C4;
  }

  /** The register after the byte '8', four bits at a time. */
  lemma CheckByte8()
    ensures ProcessByte(0x0D8A_14C4, 0x38) == 0x49E3_C2FB
  {
    assert ProcessBits(0x0D8A_14C4, 0x38, 8) == ProcessBits(0xD5E2_6A99, 0x80, 4);
    assert ProcessBits(0xD5E2_6A99, 0x80, 4) == 0x49E3_C2FB;
  }

  /** The register after the byte '9', four bits at a time. */
  lemma CheckByte9()
    ensures ProcessByte(0x49E3_C2FB, 0x39) == 0x0376_E6E7
  {
    assert ProcessBits(0x49E3_C2FB, 0x39, 8) == ProcessBits(0x807B_7FB5, 0x90, 4);
    assert ProcessBits(0x807B_7FB5, 0x90, 4) == 0x0376_E6E7;
  }
}
