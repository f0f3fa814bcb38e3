/**
 * The offline image checksum tool (`crctool [-w] [-S start] file`), with the file taken as a
 * byte sequence and the command-line options as parameters. The tool copies the bytes from
 * `start` to the end of the file, byte-swaps every 32-bit word of the copy, runs the CRC of
 * module Crc32 over it, and then either prints the result or writes it back into the file at
 * offset `start + 8`.
 */
module CrcTool {
  import opened Common
  import Crc32

  // ---------------------------------------------------------------------------
  // The word flip
  // ---------------------------------------------------------------------------

  /** `htonl` on a little-endian host: the byte order of the word is swapped. */
  function Htonl(w: bv32): (r: bv32)
    ensures LeBytes(r) == [LeBytes(w)[3], LeBytes(w)[2], LeBytes(w)[1], LeBytes(w)[0]]
  {
    ((w & 0xFF) << 24) | ((w & 0xFF00) << 8) | ((w >> 8) & 0xFF00) | (w >> 24)
  }

  /** `htonl` of an assembled word is the word assembled from the same bytes in reverse order. */
  lemma HtonlOfWord(b0: Byte, b1: Byte, b2: Byte, b3: Byte)
    ensures Htonl(Word(b0, b1, b2, b3)) == Word(b3, b2, b1, b0)
  {
  }

  /** Reading a word, applying `htonl` and storing it back reverses its four bytes in memory. */
  lemma HtonlReversesBytes(b: seq<Byte>)
    requires |b| == 4
    ensures LeBytes(Htonl(FromLe(b))) == [b[3], b[2], b[1], b[0]]
  {
    HtonlOfWord(b[0], b[1], b[2], b[3]);
    LeBytesOfWord(b[3], b[2], b[1], b[0]);
  }

  /** Every 4-byte group `[a, b, c, d]` of `s` becomes `[d, c, b, a]`. */
  function FlipWords(s: seq<Byte>): (r: seq<Byte>)
    requires |s| % 4 == 0
    ensures |r| == |s|
    decreases |s|
  {
    if |s| == 0 then [] else [s[3], s[2], s[1], s[0]] + FlipWords(s[4..])
  }

  /** The flip works group by group, so it distributes over concatenation at a word boundary. */
  lemma {:induction false} FlipWordsAppend(x: seq<Byte>, y: seq<Byte>)
    requires |x| % 4 == 0 && |y| % 4 == 0
    ensures FlipWords(x + y) == FlipWords(x) + FlipWords(y)
    decreases |x|
  {
    if |x| > 0 {
      assert (x + y)[4..] == x[4..] + y;
      FlipWordsAppend(x[4..], y);
    } else {
      assert x + y == y;
    }
  }

  /** Byte `k` of the flipped sequence is the mirror of `k` within its word. */
  lemma {:induction false} FlipWordsAt(s: seq<Byte>, k: nat)
    requires |s| % 4 == 0 && k < |s|
    ensures FlipWords(s)[k] == s[k - k % 4 + 3 - k % 4]
    decreases |s|
  {
    var w := [s[3], s[2], s[1], s[0]];
    assert FlipWords(s) == w + FlipWords(s[4..]);
    if k >= 4 {
      FlipWordsAt(s[4..], k - 4);
      assert (k - 4) % 4 == k % 4;
    } else {
      assert k % 4 == k;
    }
  }

  /** Flipping twice gives the input back. */
  lemma {:induction false} FlipWordsInvolution(s: seq<Byte>)
    requires |s| % 4 == 0
    ensures FlipWords(FlipWords(s)) == s
    decreases |s|
  {
    if |s| > 0 {
      var w := [s[3], s[2], s[1], s[0]];
      FlipWordsAppend(w, FlipWords(s[4..]));
      FlipWordsInvolution(s[4..]);
      assert FlipWords(w) == s[..4];
      assert s == s[..4] + s[4..];
    }
  }

  /** One iteration of the flip loop: `ptr[i] = htonl(ptr[i])` for the word at byte offset `p`. */
  method FlipWordAt(a: array<Byte>, p: nat)
    requires p + 4 <= a.Length
    modifies a
    ensures a[..p] == old(a[..p])
    ensures a[p..p + 4] == FlipWords(old(a[p..p + 4]))
    ensures a[p + 4..] == old(a[p + 4..])
  {
    var word := a[p..p + 4];
    var swapped := LeBytes(Htonl(FromLe(word)));
    HtonlReversesBytes(word);
    a[p], a[p + 1], a[p + 2], a[p + 3] := swapped[0], swapped[1], swapped[2], swapped[3];
    assert FlipWords(word) == [word[3], word[2], word[1], word[0]] + FlipWords([]);
  }

  /** The flip loop of the tool: every word of the buffer is byte-swapped in place. */
  method FlipWordsInPlace(a: array<Byte>)
    requires a.Length % 4 == 0
    modifies a
    ensures a[..] == FlipWords(old(a[..]))
  {
    ghost var orig := a[..];
    var count := a.Length / 4;
    var i := 0;
    while i < count
      invariant 0 <= i <= count
      invariant a[..4 * i] == FlipWords(orig[..4 * i])
      invariant a[4 * i..] == orig[4 * i..]
    {
      var p := 4 * i;
      ghost var before := a[..];
      FlipWordAt(a, p);
      FlipStep(orig, before, a[..], p);
      i := i + 1;
    }
    assert orig[..4 * count] == orig;
  }

  /**
   * The loop invariant is kept: when the words before `p` are flipped and the rest is as it
   * was, flipping the word at `p` leaves the words up to `p + 4` flipped and the rest as it was.
   */
  lemma FlipStep(orig: seq<Byte>, before: seq<Byte>, after: seq<Byte>, p: nat)
    requires |before| == |orig| && |after| == |orig| && p % 4 == 0 && p + 4 <= |orig|
    requires before[..p] == FlipWords(orig[..p]) && before[p..] == orig[p..]
    requires after[..p] == before[..p]
    requires after[p..p + 4] == FlipWords(before[p..p + 4])
    requires after[p + 4..] == before[p + 4..]
    ensures after[..p + 4] == FlipWords(orig[..p + 4])
    ensures after[p + 4..] == orig[p + 4..]
  {
    assert before[p..p + 4] == orig[p..p + 4] by {
      assert before[p..p + 4] == before[p..][..4];
      assert orig[p..p + 4] == orig[p..][..4];
    }
    FlipWordsAppend(orig[..p], orig[p..p + 4]);
    assert orig[..p + 4] == orig[..p] + orig[p..p + 4];
    assert after[..p + 4] == after[..p] + after[p..p + 4];
    assert before[p + 4..] == before[p..][4..];
    assert orig[p + 4..] == orig[p..][4..];
  }

  // ---------------------------------------------------------------------------
  // Writing the result back
  // ---------------------------------------------------------------------------

  /**
   * `fseek(f, off, SEEK_SET)` followed by `fwrite(bytes)`: the bytes at `off` are replaced,
   * and a file shorter than `off + |bytes|` grows, with zeros in any gap past its old end.
   */
  function Overwrite(file: seq<Byte>, off: nat, bytes: seq<Byte>): (r: seq<Byte>)
    ensures |r| == if off + |bytes| <= |file| then |file| else off + |bytes|
    ensures forall k :: 0 <= k < |r| ==>
      r[k] == if off <= k < off + |bytes| then bytes[k - off] else if k < |file| then file[k] else 0
  {
    if off + |bytes| <= |file| then file[..off] + bytes + file[off + |bytes|..]
    else if off <= |file| then file[..off] + bytes
    else file + Fill(off - |file|, 0) + bytes
  }

  /** After the write, the window at `off` reads back as the bytes written. */
  lemma OverwriteWindow(file: seq<Byte>, off: nat, bytes: seq<Byte>)
    ensures Overwrite(file, off, bytes)[off..off + |bytes|] == bytes
  {
    var r := Overwrite(file, off, bytes);
    assert forall j :: 0 <= j < |bytes| ==> r[off..off + |bytes|][j] == r[off + j] == bytes[j];
  }

  // ---------------------------------------------------------------------------
  // The tool
  // ---------------------------------------------------------------------------

  /** Why the tool stops without a result: exit status 1, or `abort()` for the failed assert. */
  datatype ToolError =
    | OutOfMemory      // start beyond the end: the negative size makes malloc fail
    | ShortRead        // the region is empty, or start is negative: fread does not return 1
    | NotWordMultiple  // the region is not a whole number of words: the assert aborts

  /** What the tool leaves behind: the file's contents and what it printed on stdout. */
  datatype ToolOutput = ToolOutput(file: seq<Byte>, printed: Option<bv32>)

  datatype Outcome = Done(output: ToolOutput) | Failed(error: ToolError)

  /** The CRC the tool computes for the region from `start` to the end of the file. */
  function RegionCrc(file: seq<Byte>, start: nat): bv32
    requires start <= |file| && (|file| - start) % 4 == 0
  {
    Crc32.Checksum(FlipWords(file[start..]))
  }

  /** The tool's effect on a file, given `-S start` (default 0) and whether `-w` was passed. */
  function Tool(file: seq<Byte>, start: int, write: bool): (r: Outcome)
    ensures r.Done? <==> 0 <= start < |file| && (|file| - start) % 4 == 0
    ensures r.Failed? ==> (r.error == NotWordMultiple <==> 0 <= start < |file|)
  {
    var size := |file| - start;
    if size < 0 then Failed(OutOfMemory)
    else if start < 0 || size == 0 then Failed(ShortRead)
    else if size % 4 != 0 then Failed(NotWordMultiple)
    else
      var result := RegionCrc(file, start);
      if write then Done(ToolOutput(Overwrite(file, start + 8, LeBytes(result)), None))
      else Done(ToolOutput(file, Some(result)))
  }

  /** `malloc(size)` followed by `fread`: a fresh buffer holding the bytes from `start` to the end. */
  method ReadRegion(file: seq<Byte>, start: nat) returns (data: array<Byte>)
    requires start <= |file|
    ensures fresh(data) && data[..] == file[start..]
  {
    data := new Byte[|file| - start];
    forall i | 0 <= i < data.Length {
      data[i] := file[start + i];
    }
  }

  /** The loop over the buffer that swaps each word to big-endian order, then `crc.checksum(buf, size)`. */
  method FlipAndChecksum(data: array<Byte>, ghost region: seq<Byte>) returns (result: bv32)
    requires data[..] == region && |region| % 4 == 0
    modifies data
    ensures data[..] == FlipWords(region)
    ensures result == Crc32.Checksum(FlipWords(region))
  {
    FlipWordsInPlace(data);
    result := Crc32.Checksum(data[..]);
  }

  /** The body of the tool's `main` after option parsing and opening the file. */
  method RunTool(file: seq<Byte>, start: int, write: bool) returns (outcome: Outcome)
    ensures outcome == Tool(file, start, write)
  {
    var size := |file| - start;
    if size < 0 {
      return Failed(OutOfMemory);
    }
    if start < 0 || size == 0 {
      return Failed(ShortRead);
    }
    assert size % 4 != 0 ==> Tool(file, start, write) == Failed(NotWordMultiple);
    var data := ReadRegion(file, start);
    if size % 4 != 0 {
      return Failed(NotWordMultiple);
    }
    var result := FlipAndChecksum(data, file[start..]);
    outcome := Report(file, start, write, result);
  }

  /** The end of `main`: with `-w` the checksum is written at `start + 8`, otherwise it is printed. */
  method Report(file: seq<Byte>, start: int, write: bool, result: bv32) returns (outcome: Outcome)
    requires 0 <= start < |file| && (|file| - start) % 4 == 0
    requires result == RegionCrc(file, start)
    ensures outcome == Tool(file, start, write)
  {
    if write {
      outcome := Done(ToolOutput(Overwrite(file, start + 8, LeBytes(result)), None));
    } else {
      outcome := Done(ToolOutput(file, Some(result)));
    }
  }

  // ---------------------------------------------------------------------------
  // Properties
  // ---------------------------------------------------------------------------

  /** Without `-w` the file is left as it was and the checksum of the flipped region is printed. */
  lemma ReadOnlyWithoutWrite(file: seq<Byte>, start: int)
    requires 0 <= start < |file| && (|file| - start) % 4 == 0
    ensures Tool(file, start, false).Done?
    ensures Tool(file, start, false).output.file == file
    ensures Tool(file, start, false).output.printed == Some(RegionCrc(file, start))
  {
  }

  /**
   * With `-w` nothing is printed and exactly the four bytes at `start + 8` change: they hold the
   * checksum in host (little-endian) byte order; every other byte of the file is as before.
   */
  lemma WriteTouchesOnlyField(file: seq<Byte>, start: int)
    requires 0 <= start < |file| && (|file| - start) % 4 == 0
    ensures Tool(file, start, true).Done?
    ensures Tool(file, start, true).output.printed == None
    ensures var out := Tool(file, start, true).output.file;
      |out| == if start + 12 <= |file| then |file| else start + 12
    ensures var out := Tool(file, start, true).output.file;
      forall k :: 0 <= k < |file| && !(start + 8 <= k < start + 12) ==> out[k] == file[k]
    ensures var out := Tool(file, start, true).output.file;
      start + 12 <= |out| && FromLe(out[start + 8..start + 12]) == RegionCrc(file, start)
  {
    var bytes := LeBytes(RegionCrc(file, start));
    assert Tool(file, start, true) == Done(ToolOutput(Overwrite(file, start + 8, bytes), None));
    OverwriteKeepsOthers(file, start + 8, bytes);
    WriteWordReadsBack(file, start + 8, RegionCrc(file, start));
  }

  /** Bytes of the file outside the written window keep their values. */
  lemma OverwriteKeepsOthers(file: seq<Byte>, off: nat, bytes: seq<Byte>)
    ensures forall k :: 0 <= k < |file| && !(off <= k < off + |bytes|) ==> Overwrite(file, off, bytes)[k] == file[k]
  {
  }

  /** A word written at `off` in host byte order reads back from `off` as the same word. */
  lemma WriteWordReadsBack(file: seq<Byte>, off: nat, w: bv32)
    ensures off + 4 <= |Overwrite(file, off, LeBytes(w))|
    ensures FromLe(Overwrite(file, off, LeBytes(w))[off..off + 4]) == w
  {
    OverwriteWindow(file, off, LeBytes(w));
    LeRoundTrip(w);
  }

  /** Bytes before `start` play no part in the checksum. */
  lemma PrefixIgnored(f1: seq<Byte>, f2: seq<Byte>, start: int)
    requires 0 <= start <= |f1| && 0 <= start <= |f2|
    requires f1[start..] == f2[start..]
    ensures Tool(f1, start, false).Done? == Tool(f2, start, false).Done?
    ensures Tool(f1, start, false).Done? ==>
      Tool(f1, start, false).output.printed == Tool(f2, start, false).output.printed
  {
    assert |f1| - start == |f1[start..]| == |f2[start..]| == |f2| - start;
  }

  /**
   * The checksum field at `start + 8` is hashed as it is in the file, not zeroed: the CRC
   * input holds the field's four bytes, reversed, at offsets 8 to 11.
   */
  lemma FieldHashedAsRead(file: seq<Byte>, start: int)
    requires 0 <= start && start + 12 <= |file| && (|file| - start) % 4 == 0
    ensures FlipWords(file[start..])[8..12]
         == [file[start + 11], file[start + 10], file[start + 9], file[start + 8]]
  {
    var region := file[start..];
    FlipWordsAt(region, 8);
    FlipWordsAt(region, 9);
    FlipWordsAt(region, 10);
    FlipWordsAt(region, 11);
  }
}
