/** Machine-level value types shared by the bootloader model and the image checksum tool. */
module Common {
  /** One octet, as `uint8_t`. */
  type Byte = bv8

  /** `uint8_t`, `uint16_t` and `uint32_t` as bounded integers (used where the C code does arithmetic). */
  type U8 = x: int | 0 <= x < 0x100
  type U16 = x: int | 0 <= x < 0x1_0000
  type U32 = x: int | 0 <= x < 0x1_0000_0000

  /** A pointer that may be NULL. */
  datatype Option<+T> = None | Some(value: T)

  /** `n` copies of `x`: the effect of `memset(p, x, n)`, or of zero-filled static memory when `x` is 0. */
  function Fill<T>(n: nat, x: T): (s: seq<T>)
    ensures |s| == n
    ensures forall i :: 0 <= i < n ==> s[i] == x
  {
    seq(n, _ => x)
  }

  /** The four bytes of `w` as a little-endian host stores them in memory. */
  function LeBytes(w: bv32): (b: seq<Byte>)
    ensures |b| == 4
  {
    [(w & 0xFF) as Byte, ((w >> 8) & 0xFF) as Byte, ((w >> 16) & 0xFF) as Byte, (w >> 24) as Byte]
  }

  /** The word whose bytes, least significant first, are `b0, b1, b2, b3`. */
  function Word(b0: Byte, b1: Byte, b2: Byte, b3: Byte): bv32 {
    (b0 as bv32) | ((b1 as bv32) << 8) | ((b2 as bv32) << 16) | ((b3 as bv32) << 24)
  }

  /** The 32-bit word a little-endian host reads from four bytes of memory. */
  function FromLe(b: seq<Byte>): bv32
    requires |b| == 4
  {
    Word(b[0], b[1], b[2], b[3])
  }

  /** Storing a word assembled from four bytes gives those bytes back. */
  lemma LeBytesOfWord(b0: Byte, b1: Byte, b2: Byte, b3: Byte)
    ensures LeBytes(Word(b0, b1, b2, b3)) == [b0, b1, b2, b3]
  {
  }

  /** Storing a word and reading it back gives the word. */
  lemma LeRoundTrip(w: bv32)
    ensures FromLe(LeBytes(w)) == w
  {
  }

  /** Reading four bytes as a word and storing it gives the bytes back. */
  lemma LeBytesOfFromLe(b: seq<Byte>)
    requires |b| == 4
    ensures LeBytes(FromLe(b)) == b
  {
    LeBytesOfWord(b[0], b[1], b[2], b[3]);
  }
}
