/** The loop body of dos2unix64 as filter.go writes it: the eight-byte buffer
    is read as a big-endian 64-bit word, masked, tested against the crlfK
    constants and rewritten with shifts. Each step is shown to do exactly what
    the byte-level Chunk.Step does, so everything proved about the byte-level
    model holds for the word arithmetic. */
module Word {
  import opened LineEndings
  import opened Masks
  import opened Chunk

  /** ANDing with lefts[k] keeps the first k bytes and zeroes the rest. The
      masked word is the parameter y so that each case goes to a small lemma. */
  lemma LeftsKeepPrefix(x: bv64, y: bv64, k: nat)
    requires k <= 8 && y == x & lefts[k]
    ensures ToBytes(y) == ToBytes(x)[..k] + Zeros(8 - k)
  {
    if k == 0 {
      Prefix0(x, y, k);
    } else if k == 1 {
      Prefix1(x, y, k);
    } else if k == 2 {
      Prefix2(x, y, k);
    } else if k == 3 {
      Prefix3(x, y, k);
    } else if k == 4 {
      Prefix4(x, y, k);
    } else if k == 5 {
      Prefix5(x, y, k);
    } else if k == 6 {
      Prefix6(x, y, k);
    } else if k == 7 {
      Prefix7(x, y, k);
    } else {
      Prefix8(x, y, k);
    }
  }

  /** Line 61: the buffer read as a word, with the bytes beyond the filled
      prefix masked off. */
  method Load(bb: seq<bv8>, filled: nat) returns (ival: bv64)
    requires |bb| == 8 && filled <= 8
    ensures ToBytes(ival) == Mask(bb, filled)
  {
    ival := FromBytes(bb) & lefts[filled];
    BytesRoundTrip(0, bb);
    LeftsKeepPrefix(FromBytes(bb), ival, filled);
  }

  /** Lines 66-70: the trailing-CR test on byte 7 of the snapshot. */
  method HoldBack(orig: bv64, filled: nat) returns (len: int, carry: bool)
    ensures carry <==> ToBytes(orig)[7] == CR
    ensures len == if carry then filled - 1 else filled
  {
    len := filled;
    carry := false;
    LastByteTest(orig);
    if (orig & mask7) == crlf7 {
      len := len - 1;
      carry := true;
    }
  }

  // FoldK: the test of the snapshot at byte K and the rewrite of the working
  // word, one step of the byte-level scan.
  method Fold6(orig: bv64, ival: bv64, len: int) returns (ival': bv64, len': int)
    ensures Scan(ToBytes(orig), ToBytes(ival), len, 7) == Scan(ToBytes(orig), ToBytes(ival'), len', 6)
  {
    ival', len' := ival, len;
    Pair6(orig);
    if (orig & mask6) == crlf6 {
      ival' := (ival & left6) | ((ival & rght6) << 8);
      Drop6(ival, ival');
      len' := len - 1;
    }
  }

  method Fold5(orig: bv64, ival: bv64, len: int) returns (ival': bv64, len': int)
    ensures Scan(ToBytes(orig), ToBytes(ival), len, 6) == Scan(ToBytes(orig), ToBytes(ival'), len', 5)
  {
    ival', len' := ival, len;
    Pair5(orig);
    if (orig & mask5) == crlf5 {
      ival' := (ival & left5) | ((ival & rght5) << 8);
      Drop5(ival, ival');
      len' := len - 1;
    }
  }

  method Fold4(orig: bv64, ival: bv64, len: int) returns (ival': bv64, len': int)
    ensures Scan(ToBytes(orig), ToBytes(ival), len, 5) == Scan(ToBytes(orig), ToBytes(ival'), len', 4)
  {
    ival', len' := ival, len;
    Pair4(orig);
    if (orig & mask4) == crlf4 {
      ival' := (ival & left4) | ((ival & rght4) << 8);
      Drop4(ival, ival');
      len' := len - 1;
    }
  }

  method Fold3(orig: bv64, ival: bv64, len: int) returns (ival': bv64, len': int)
    ensures Scan(ToBytes(orig), ToBytes(ival), len, 4) == Scan(ToBytes(orig), ToBytes(ival'), len', 3)
  {
    ival', len' := ival, len;
    Pair3(orig);
    if (orig & mask3) == crlf3 {
      ival' := (ival & left3) | ((ival & rght3) << 8);
      Drop3(ival, ival');
      len' := len - 1;
    }
  }

  method Fold2(orig: bv64, ival: bv64, len: int) returns (ival': bv64, len': int)
    ensures Scan(ToBytes(orig), ToBytes(ival), len, 3) == Scan(ToBytes(orig), ToBytes(ival'), len', 2)
  {
    ival', len' := ival, len;
    Pair2(orig);
    if (orig & mask2) == crlf2 {
      ival' := (ival & left2) | ((ival & rght2) << 8);
      Drop2(ival, ival');
      len' := len - 1;
    }
  }

  method Fold1(orig: bv64, ival: bv64, len: int) returns (ival': bv64, len': int)
    ensures Scan(ToBytes(orig), ToBytes(ival), len, 2) == Scan(ToBytes(orig), ToBytes(ival'), len', 1)
  {
    ival', len' := ival, len;
    Pair1(orig);
    if (orig & mask1) == crlf1 {
      ival' := (ival & left1) | ((ival & rght1) << 8);
      Drop1(ival, ival');
      len' := len - 1;
    }
  }

  method Fold0(orig: bv64, ival: bv64, len: int) returns (ival': bv64, len': int)
    ensures Scan(ToBytes(orig), ToBytes(ival), len, 1) == Scan(ToBytes(orig), ToBytes(ival'), len', 0)
  {
    ival', len' := ival, len;
    Pair0(orig);
    if (orig & mask0) == crlf0 {
      ival' := ival << 8;
      Drop0(ival, ival');
      len' := len - 1;
    }
  }

  /** Lines 58-104 of filter.go, from the masking of the freshly read buffer
      to the write-back of the rewritten word: the result is the byte-level
      step of the as-written variant, byte for byte. */
  method Turn(bb: seq<bv8>, filled: nat) returns (word: seq<bv8>, len: int, carry: bool)
    requires |bb| == 8 && filled <= 8
    ensures StepResult(word, len, carry) == Step(AsWritten, bb, filled)
    ensures carry <==> filled == 8 && bb[7] == CR
    ensures |word| == 8 && 0 <= len <= 8
    ensures word[..len] == Collapse(if carry then bb[..filled - 1] else bb[..filled])
  {
    var ival := Load(bb, filled);
    var orig := ival;
    len, carry := HoldBack(orig, filled);
    ghost var o := ToBytes(orig);
    assert carry == CarryTest(AsWritten, o, filled);
    ival, len := Fold6(orig, ival, len);
    ival, len := Fold5(orig, ival, len);
    ival, len := Fold4(orig, ival, len);
    ival, len := Fold3(orig, ival, len);
    ival, len := Fold2(orig, ival, len);
    ival, len := Fold1(orig, ival, len);
    ival, len := Fold0(orig, ival, len);
    word := ToBytes(ival);
    StepWrites(AsWritten, bb, filled);
  }
}
