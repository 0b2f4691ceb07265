/** The 64-bit constants of the fast path and the byte-layout facts that make
    it correct. The eight-byte buffer is read as one big-endian word, so byte 0
    is the most significant byte. */
module Masks {
  import opened LineEndings

  // The word a carried CR is seeded from; its byte 0 is LF, not CR.
  const crXXX: bv64 := 0x0a00000000000000

  // crlfK holds CR in byte K and LF in byte K+1; crlf7 holds a CR in byte 7.
  const crlf0: bv64 := 0x0d0a000000000000
  const crlf1: bv64 := 0x000d0a0000000000
  const crlf2: bv64 := 0x00000d0a00000000
  const crlf3: bv64 := 0x0000000d0a000000
  const crlf4: bv64 := 0x000000000d0a0000
  const crlf5: bv64 := 0x00000000000d0a00
  const crlf6: bv64 := 0x0000000000000d0a
  const crlf7: bv64 := 0x000000000000000d

  // maskK selects bytes K and K+1; mask7 selects byte 7 alone.
  const mask0: bv64 := 0xffff000000000000
  const mask1: bv64 := 0x00ffff0000000000
  const mask2: bv64 := 0x0000ffff00000000
  const mask3: bv64 := 0x000000ffff000000
  const mask4: bv64 := 0x00000000ffff0000
  const mask5: bv64 := 0x0000000000ffff00
  const mask6: bv64 := 0x000000000000ffff
  const mask7: bv64 := 0x00000000000000ff

  // leftK keeps bytes 0 .. K-1.
  const left1: bv64 := 0xff00000000000000
  const left2: bv64 := 0xffff000000000000
  const left3: bv64 := 0xffffff0000000000
  const left4: bv64 := 0xffffffff00000000
  const left5: bv64 := 0xffffffffff000000
  const left6: bv64 := 0xffffffffffff0000
  const left7: bv64 := 0xffffffffffffff00
  const left8: bv64 := 0xffffffffffffffff

  // rghtK keeps bytes K+1 .. 7.
  const rght1: bv64 := 0x0000ffffffffffff
  const rght2: bv64 := 0x000000ffffffffff
  const rght3: bv64 := 0x00000000ffffffff
  const rght4: bv64 := 0x0000000000ffffff
  const rght5: bv64 := 0x000000000000ffff
  const rght6: bv64 := 0x00000000000000ff

  /** The table lefts: entry k keeps the first k bytes. */
  const lefts: seq<bv64> := [0, left1, left2, left3, left4, left5, left6, left7, left8]

  /** Big-endian byte k of a word. */
  function ByteOf(x: bv64, k: nat): (b: bv8)
    requires k < 8
  {
    match k
    case 0 => (x >> 56) as bv8
    case 1 => ((x >> 48) & 0xff) as bv8
    case 2 => ((x >> 40) & 0xff) as bv8
    case 3 => ((x >> 32) & 0xff) as bv8
    case 4 => ((x >> 24) & 0xff) as bv8
    case 5 => ((x >> 16) & 0xff) as bv8
    case 6 => ((x >> 8) & 0xff) as bv8
    case _ => (x & 0xff) as bv8
  }

  /** binary.BigEndian.PutUint64: the eight bytes of a word, most significant first. */
  function ToBytes(x: bv64): (s: seq<bv8>)
    ensures |s| == 8
  {
    [ByteOf(x, 0), ByteOf(x, 1), ByteOf(x, 2), ByteOf(x, 3),
     ByteOf(x, 4), ByteOf(x, 5), ByteOf(x, 6), ByteOf(x, 7)]
  }

  /** binary.BigEndian.Uint64: the word whose bytes, most significant first, are s. */
  function FromBytes(s: seq<bv8>): (x: bv64)
    requires |s| == 8
  {
    ((s[0] as bv64) << 56) | ((s[1] as bv64) << 48) | ((s[2] as bv64) << 40) | ((s[3] as bv64) << 32)
    | ((s[4] as bv64) << 24) | ((s[5] as bv64) << 16) | ((s[6] as bv64) << 8) | (s[7] as bv64)
  }

  /** Reading a buffer as a word and writing the word back are inverse. */
  lemma BytesRoundTrip(x: bv64, s: seq<bv8>)
    requires |s| == 8
    ensures FromBytes(ToBytes(x)) == x
    ensures ToBytes(FromBytes(s)) == s
  {
  }

  /** mask7 and crlf7 test byte 7 alone, for a CR. */
  lemma LastByteTest(x: bv64)
    ensures (x & mask7) == crlf7 <==> ByteOf(x, 7) == CR
  {
  }

  // The lemmas below are stated one byte position at a time, the way the
  // constants are: one lemma covering all positions leaves the solver with
  // every position's bit-vector problem at once.

  // PairK: (x & maskK) == crlfK holds exactly when bytes K, K+1 are CR, LF.

  lemma Pair0(x: bv64)
    ensures (x & mask0) == crlf0 <==> ByteOf(x, 0) == CR && ByteOf(x, 1) == LF
  {
  }

  lemma Pair1(x: bv64)
    ensures (x & mask1) == crlf1 <==> ByteOf(x, 1) == CR && ByteOf(x, 2) == LF
  {
  }

  lemma Pair2(x: bv64)
    ensures (x & mask2) == crlf2 <==> ByteOf(x, 2) == CR && ByteOf(x, 3) == LF
  {
  }

  lemma Pair3(x: bv64)
    ensures (x & mask3) == crlf3 <==> ByteOf(x, 3) == CR && ByteOf(x, 4) == LF
  {
  }

  lemma Pair4(x: bv64)
    ensures (x & mask4) == crlf4 <==> ByteOf(x, 4) == CR && ByteOf(x, 5) == LF
  {
  }

  lemma Pair5(x: bv64)
    ensures (x & mask5) == crlf5 <==> ByteOf(x, 5) == CR && ByteOf(x, 6) == LF
  {
  }

  lemma Pair6(x: bv64)
    ensures (x & mask6) == crlf6 <==> ByteOf(x, 6) == CR && ByteOf(x, 7) == LF
  {
  }

  // KeepK: x & leftK (entry K of lefts) keeps bytes 0 .. K-1 and zeroes the rest.

  lemma Keep0(x: bv64)
    ensures ToBytes(x & 0) == [0, 0, 0, 0, 0, 0, 0, 0]
  {}

  lemma Keep1(x: bv64)
    ensures ToBytes(x & left1) == [ByteOf(x, 0), 0, 0, 0, 0, 0, 0, 0]
  {}

  lemma Keep2(x: bv64)
    ensures ToBytes(x & left2) == [ByteOf(x, 0), ByteOf(x, 1), 0, 0, 0, 0, 0, 0]
  {}

  lemma Keep3(x: bv64)
    ensures ToBytes(x & left3) == [ByteOf(x, 0), ByteOf(x, 1), ByteOf(x, 2), 0, 0, 0, 0, 0]
  {}

  lemma Keep4(x: bv64)
    ensures ToBytes(x & left4) == [ByteOf(x, 0), ByteOf(x, 1), ByteOf(x, 2), ByteOf(x, 3), 0, 0, 0, 0]
  {}

  lemma Keep5(x: bv64)
    ensures ToBytes(x & left5) == [ByteOf(x, 0), ByteOf(x, 1), ByteOf(x, 2), ByteOf(x, 3), ByteOf(x, 4), 0, 0, 0]
  {}

  lemma Keep6(x: bv64)
    ensures ToBytes(x & left6) == [ByteOf(x, 0), ByteOf(x, 1), ByteOf(x, 2), ByteOf(x, 3), ByteOf(x, 4), ByteOf(x, 5), 0, 0]
  {}

  lemma Keep7(x: bv64)
    ensures ToBytes(x & left7) == [ByteOf(x, 0), ByteOf(x, 1), ByteOf(x, 2), ByteOf(x, 3), ByteOf(x, 4), ByteOf(x, 5), ByteOf(x, 6), 0]
  {}

  lemma Keep8(x: bv64)
    ensures ToBytes(x & left8) == [ByteOf(x, 0), ByteOf(x, 1), ByteOf(x, 2), ByteOf(x, 3), ByteOf(x, 4), ByteOf(x, 5), ByteOf(x, 6), ByteOf(x, 7)]
  {
    assert x & left8 == x;
  }

  // DeleteK: the rewrite for a pair at byte K, (x & leftK) | ((x & rghtK) << 8),
  // or x << 8 for K = 0, deletes byte K, moves the later bytes one place
  // towards the front and shifts a zero byte in at the end.

  lemma Delete0(x: bv64)
    ensures ToBytes(x << 8) == [ByteOf(x, 1), ByteOf(x, 2), ByteOf(x, 3), ByteOf(x, 4), ByteOf(x, 5), ByteOf(x, 6), ByteOf(x, 7), 0]
  {
  }

  lemma Delete1(x: bv64)
    ensures ToBytes((x & left1) | ((x & rght1) << 8)) == [ByteOf(x, 0), ByteOf(x, 2), ByteOf(x, 3), ByteOf(x, 4), ByteOf(x, 5), ByteOf(x, 6), ByteOf(x, 7), 0]
  {
  }

  lemma Delete2(x: bv64)
    ensures ToBytes((x & left2) | ((x & rght2) << 8)) == [ByteOf(x, 0), ByteOf(x, 1), ByteOf(x, 3), ByteOf(x, 4), ByteOf(x, 5), ByteOf(x, 6), ByteOf(x, 7), 0]
  {
  }

  lemma Delete3(x: bv64)
    ensures ToBytes((x & left3) | ((x & rght3) << 8)) == [ByteOf(x, 0), ByteOf(x, 1), ByteOf(x, 2), ByteOf(x, 4), ByteOf(x, 5), ByteOf(x, 6), ByteOf(x, 7), 0]
  {
  }

  lemma Delete4(x: bv64)
    ensures ToBytes((x & left4) | ((x & rght4) << 8)) == [ByteOf(x, 0), ByteOf(x, 1), ByteOf(x, 2), ByteOf(x, 3), ByteOf(x, 5), ByteOf(x, 6), ByteOf(x, 7), 0]
  {
  }

  lemma Delete5(x: bv64)
    ensures ToBytes((x & left5) | ((x & rght5) << 8)) == [ByteOf(x, 0), ByteOf(x, 1), ByteOf(x, 2), ByteOf(x, 3), ByteOf(x, 4), ByteOf(x, 6), ByteOf(x, 7), 0]
  {
  }

  lemma Delete6(x: bv64)
    ensures ToBytes((x & left6) | ((x & rght6) << 8)) == [ByteOf(x, 0), ByteOf(x, 1), ByteOf(x, 2), ByteOf(x, 3), ByteOf(x, 4), ByteOf(x, 5), ByteOf(x, 7), 0]
  {
  }

  /** The byte lists the KeepK lemmas spell out are a prefix padded with zeros. */
  lemma KeepShape(s: seq<bv8>, k: nat)
    requires |s| == 8 && k <= 8
    ensures s[..k] + Zeros(8 - k) == match k
      case 0 => [0, 0, 0, 0, 0, 0, 0, 0]
      case 1 => [s[0], 0, 0, 0, 0, 0, 0, 0]
      case 2 => [s[0], s[1], 0, 0, 0, 0, 0, 0]
      case 3 => [s[0], s[1], s[2], 0, 0, 0, 0, 0]
      case 4 => [s[0], s[1], s[2], s[3], 0, 0, 0, 0]
      case 5 => [s[0], s[1], s[2], s[3], s[4], 0, 0, 0]
      case 6 => [s[0], s[1], s[2], s[3], s[4], s[5], 0, 0]
      case 7 => [s[0], s[1], s[2], s[3], s[4], s[5], s[6], 0]
      case _ => [s[0], s[1], s[2], s[3], s[4], s[5], s[6], s[7]]
  {
  }

  /** The byte lists the DeleteK lemmas spell out are the buffer with byte k
      removed and a zero byte appended. */
  lemma DeleteShape(s: seq<bv8>, k: nat)
    requires |s| == 8 && k <= 6
    ensures s[..k] + s[k + 1..] + [0] == match k
      case 0 => [s[1], s[2], s[3], s[4], s[5], s[6], s[7], 0]
      case 1 => [s[0], s[2], s[3], s[4], s[5], s[6], s[7], 0]
      case 2 => [s[0], s[1], s[3], s[4], s[5], s[6], s[7], 0]
      case 3 => [s[0], s[1], s[2], s[4], s[5], s[6], s[7], 0]
      case 4 => [s[0], s[1], s[2], s[3], s[5], s[6], s[7], 0]
      case 5 => [s[0], s[1], s[2], s[3], s[4], s[6], s[7], 0]
      case _ => [s[0], s[1], s[2], s[3], s[4], s[5], s[7], 0]
  {
  }

  // PrefixK: masking with leftK, seen as bytes: the first K bytes padded with zeros.
  // K is passed as k, pinned by the requires, so that the case split in
  // Word.LeftsKeepPrefix meets each lemma's contract without any bit-vector
  // reasoning of its own: stated with the literal K instead, that split needs
  // the solver to relate lefts[k] to lefts[K] inside one large bit-vector
  // problem, and it runs out of resource.
  lemma Prefix0(x: bv64, y: bv64, k: nat)
    requires k == 0 && y == x & lefts[k]
    ensures ToBytes(y) == ToBytes(x)[..k] + Zeros(8 - k)
  {
    Keep0(x);
    KeepShape(ToBytes(x), 0);
  }

  lemma Prefix1(x: bv64, y: bv64, k: nat)
    requires k == 1 && y == x & lefts[k]
    ensures ToBytes(y) == ToBytes(x)[..k] + Zeros(8 - k)
  {
    Keep1(x);
    KeepShape(ToBytes(x), 1);
  }

  lemma Prefix2(x: bv64, y: bv64, k: nat)
    requires k == 2 && y == x & lefts[k]
    ensures ToBytes(y) == ToBytes(x)[..k] + Zeros(8 - k)
  {
    Keep2(x);
    KeepShape(ToBytes(x), 2);
  }

  lemma Prefix3(x: bv64, y: bv64, k: nat)
    requires k == 3 && y == x & lefts[k]
    ensures ToBytes(y) == ToBytes(x)[..k] + Zeros(8 - k)
  {
    Keep3(x);
    KeepShape(ToBytes(x), 3);
  }

  lemma Prefix4(x: bv64, y: bv64, k: nat)
    requires k == 4 && y == x & lefts[k]
    ensures ToBytes(y) == ToBytes(x)[..k] + Zeros(8 - k)
  {
    Keep4(x);
    KeepShape(ToBytes(x), 4);
  }

  lemma Prefix5(x: bv64, y: bv64, k: nat)
    requires k == 5 && y == x & lefts[k]
    ensures ToBytes(y) == ToBytes(x)[..k] + Zeros(8 - k)
  {
    Keep5(x);
    KeepShape(ToBytes(x), 5);
  }

  lemma Prefix6(x: bv64, y: bv64, k: nat)
    requires k == 6 && y == x & lefts[k]
    ensures ToBytes(y) == ToBytes(x)[..k] + Zeros(8 - k)
  {
    Keep6(x);
    KeepShape(ToBytes(x), 6);
  }

  lemma Prefix7(x: bv64, y: bv64, k: nat)
    requires k == 7 && y == x & lefts[k]
    ensures ToBytes(y) == ToBytes(x)[..k] + Zeros(8 - k)
  {
    Keep7(x);
    KeepShape(ToBytes(x), 7);
  }

  lemma Prefix8(x: bv64, y: bv64, k: nat)
    requires k == 8 && y == x & lefts[k]
    ensures ToBytes(y) == ToBytes(x)[..k] + Zeros(8 - k)
  {
    Keep8(x);
    KeepShape(ToBytes(x), 8);
  }

  // DropK: the rewrite for a pair at byte K removes byte K of the buffer.

  lemma Drop0(x: bv64, y: bv64)
    requires y == x << 8
    ensures ToBytes(y) == ToBytes(x)[..0] + ToBytes(x)[1..] + [0]
  {
    Delete0(x);
    DeleteShape(ToBytes(x), 0);
  }

  lemma Drop1(x: bv64, y: bv64)
    requires y == (x & left1) | ((x & rght1) << 8)
    ensures ToBytes(y) == ToBytes(x)[..1] + ToBytes(x)[2..] + [0]
  {
    Delete1(x);
    DeleteShape(ToBytes(x), 1);
  }

  lemma Drop2(x: bv64, y: bv64)
    requires y == (x & left2) | ((x & rght2) << 8)
    ensures ToBytes(y) == ToBytes(x)[..2] + ToBytes(x)[3..] + [0]
  {
    Delete2(x);
    DeleteShape(ToBytes(x), 2);
  }

  lemma Drop3(x: bv64, y: bv64)
    requires y == (x & left3) | ((x & rght3) << 8)
    ensures ToBytes(y) == ToBytes(x)[..3] + ToBytes(x)[4..] + [0]
  {
    Delete3(x);
    DeleteShape(ToBytes(x), 3);
  }

  lemma Drop4(x: bv64, y: bv64)
    requires y == (x & left4) | ((x & rght4) << 8)
    ensures ToBytes(y) == ToBytes(x)[..4] + ToBytes(x)[5..] + [0]
  {
    Delete4(x);
    DeleteShape(ToBytes(x), 4);
  }

  lemma Drop5(x: bv64, y: bv64)
    requires y == (x & left5) | ((x & rght5) << 8)
    ensures ToBytes(y) == ToBytes(x)[..5] + ToBytes(x)[6..] + [0]
  {
    Delete5(x);
    DeleteShape(ToBytes(x), 5);
  }

  lemma Drop6(x: bv64, y: bv64)
    requires y == (x & left6) | ((x & rght6) << 8)
    ensures ToBytes(y) == ToBytes(x)[..6] + ToBytes(x)[7..] + [0]
  {
    Delete6(x);
    DeleteShape(ToBytes(x), 6);
  }

  /** For k = 1 .. 6, leftK, the byte-k mask and rghtK are pairwise disjoint
      and together cover all 64 bits; and the byte masks of maskK are the
      bytes k and k+1 exactly. */
  lemma Partition()
    ensures left1 & rght1 == 0 && left1 & 0x00ff000000000000 == 0 && rght1 & 0x00ff000000000000 == 0
    ensures left1 | 0x00ff000000000000 | rght1 == left8
    ensures left2 & rght2 == 0 && left2 & 0x0000ff0000000000 == 0 && rght2 & 0x0000ff0000000000 == 0
    ensures left2 | 0x0000ff0000000000 | rght2 == left8
    ensures left3 & rght3 == 0 && left3 & 0x000000ff00000000 == 0 && rght3 & 0x000000ff00000000 == 0
    ensures left3 | 0x000000ff00000000 | rght3 == left8
    ensures left4 & rght4 == 0 && left4 & 0x00000000ff000000 == 0 && rght4 & 0x00000000ff000000 == 0
    ensures left4 | 0x00000000ff000000 | rght4 == left8
    ensures left5 & rght5 == 0 && left5 & 0x0000000000ff0000 == 0 && rght5 & 0x0000000000ff0000 == 0
    ensures left5 | 0x0000000000ff0000 | rght5 == left8
    ensures left6 & rght6 == 0 && left6 & 0x000000000000ff00 == 0 && rght6 & 0x000000000000ff00 == 0
    ensures left6 | 0x000000000000ff00 | rght6 == left8
    ensures mask0 == 0xff00000000000000 | 0x00ff000000000000
    ensures mask1 == 0x00ff000000000000 | 0x0000ff0000000000
    ensures mask2 == 0x0000ff0000000000 | 0x000000ff00000000
    ensures mask3 == 0x000000ff00000000 | 0x00000000ff000000
    ensures mask4 == 0x00000000ff000000 | 0x0000000000ff0000
    ensures mask5 == 0x0000000000ff0000 | 0x000000000000ff00
    ensures mask6 == 0x000000000000ff00 | 0x00000000000000ff
  {
  }

  /** crXXX with byte 0 overwritten by CR is a CR followed by seven zero
      bytes: the buffer a carried CR starts the next turn with. */
  lemma CarrySeed()
    ensures ToBytes(crXXX)[0] == LF
    ensures ToBytes(crXXX)[0 := CR] == [CR] + Zeros(7)
  {
    assert ToBytes(crXXX)[0 := CR] == [CR, 0, 0, 0, 0, 0, 0, 0];
  }
}
