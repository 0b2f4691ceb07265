/** The reference behaviour of the transcoder, independent of any buffering:
    every carriage return that is immediately followed by a line feed is
    deleted, and every other byte is passed through unchanged. */
module LineEndings {

  const CR: bv8 := 0x0D
  const LF: bv8 := 0x0A

  /** Position i of s holds a CR whose next byte is an LF. */
  predicate PairAt(s: seq<bv8>, i: int) {
    0 <= i && i + 1 < |s| && s[i] == CR && s[i + 1] == LF
  }

  /** s with every CR that precedes an LF deleted (the pair becomes a lone LF). */
  function Collapse(s: seq<bv8>): (r: seq<bv8>)
    ensures |r| <= |s|
  {
    if |s| == 0 then []
    else if PairAt(s, 0) then Collapse(s[1..])
    else [s[0]] + Collapse(s[1..])
  }

  /** The test oracle: strings.ReplaceAll(s, "\r\n", "\n"), one left-to-right
      pass that replaces each non-overlapping CR LF occurrence by an LF. */
  function ReplaceAll(s: seq<bv8>): (r: seq<bv8>)
    ensures |r| <= |s|
  {
    if |s| < 2 then s
    else if s[0] == CR && s[1] == LF then [LF] + ReplaceAll(s[2..])
    else [s[0]] + ReplaceAll(s[1..])
  }

  /** strings.Count(s, "\r\n"): the number of non-overlapping CR LF
      occurrences found scanning left to right. */
  function Occurrences(s: seq<bv8>): (n: nat)
    ensures 2 * n <= |s|
  {
    if |s| < 2 then 0
    else if s[0] == CR && s[1] == LF then 1 + Occurrences(s[2..])
    else Occurrences(s[1..])
  }

  /** The number of times byte b occurs in s. */
  function CountOf(s: seq<bv8>, b: bv8): (n: nat)
    ensures n <= |s|
  {
    if |s| == 0 then 0 else (if s[0] == b then 1 else 0) + CountOf(s[1..], b)
  }

  /** Deleting the CR of every pair is the same as the test oracle's replace-all. */
  lemma {:induction false} CollapseIsReplaceAll(s: seq<bv8>)
    ensures Collapse(s) == ReplaceAll(s)
  {
    if |s| == 0 {
    } else if |s| == 1 {
      assert Collapse(s) == [s[0]] + Collapse(s[1..]);
    } else if s[0] == CR && s[1] == LF {
      CollapseIsReplaceAll(s[2..]);
      var t := s[1..];
      assert t[1..] == s[2..];
      assert !PairAt(t, 0);
      assert Collapse(s) == Collapse(t) == [LF] + Collapse(s[2..]);
    } else {
      CollapseIsReplaceAll(s[1..]);
    }
  }

  /** Length law: each CR LF occurrence costs exactly one byte. */
  lemma {:induction false} LengthLaw(s: seq<bv8>)
    ensures |Collapse(s)| == |s| - Occurrences(s)
  {
    if |s| < 2 {
      if |s| == 1 {
        assert Collapse(s) == [s[0]] + Collapse(s[1..]);
      }
    } else if s[0] == CR && s[1] == LF {
      LengthLaw(s[2..]);
      var t := s[1..];
      assert t[1..] == s[2..];
      assert !PairAt(t, 0);
      assert Collapse(s) == [LF] + Collapse(s[2..]);
    } else {
      LengthLaw(s[1..]);
      assert !PairAt(s, 0);
      var t := s[1..];
      if !(|t| >= 2 && t[0] == CR && t[1] == LF) {
        assert Occurrences(s) == Occurrences(t);
      }
    }
  }

  /** Input with no CR LF occurrence passes through byte for byte, and only
      such input does: the output equals the input exactly when there is
      nothing to collapse. */
  lemma {:induction false} PassThrough(s: seq<bv8>)
    ensures Collapse(s) == s <==> Occurrences(s) == 0
  {
    LengthLaw(s);
    if Occurrences(s) == 0 {
      NoPairIsIdentity(s);
    }
  }

  lemma {:induction false} NoPairIsIdentity(s: seq<bv8>)
    requires Occurrences(s) == 0
    ensures Collapse(s) == s
  {
    if |s| >= 2 {
      assert !(s[0] == CR && s[1] == LF);
      NoPairIsIdentity(s[1..]);
    } else if |s| == 1 {
      assert Collapse(s) == [s[0]] + Collapse(s[1..]);
    }
  }

  /** Only CRs are ever removed: every other byte value keeps its count, and
      the CR count drops by the number of collapsed pairs. */
  lemma {:induction false} ContentsPreserved(s: seq<bv8>, b: bv8)
    ensures CountOf(Collapse(s), b) == CountOf(s, b) - (if b == CR then Occurrences(s) else 0)
  {
    if |s| == 0 {
    } else if |s| == 1 {
      assert Collapse(s) == [s[0]] + Collapse(s[1..]);
      assert CountOf(s, b) == (if s[0] == b then 1 else 0);
    } else if s[0] == CR && s[1] == LF {
      ContentsPreserved(s[2..], b);
      var t := s[1..];
      assert t[1..] == s[2..];
      assert !PairAt(t, 0);
      assert Collapse(s) == [LF] + Collapse(s[2..]);
      assert CountOf(s, b) == (if b == CR then 1 else 0) + CountOf(t, b);
      assert CountOf(t, b) == (if b == LF then 1 else 0) + CountOf(s[2..], b);
    } else {
      ContentsPreserved(s[1..], b);
      var t := s[1..];
      assert Collapse(s) == [s[0]] + Collapse(t);
      assert CountOf([s[0]] + Collapse(t), b) == (if s[0] == b then 1 else 0) + CountOf(Collapse(t), b) by {
        assert ([s[0]] + Collapse(t))[1..] == Collapse(t);
      }
      if !(|t| >= 2 && t[0] == CR && t[1] == LF) {
        assert Occurrences(s) == Occurrences(t);
      }
    }
  }

  /** Collapsing distributes over concatenation unless a CR LF pair straddles
      the seam: this is what lets the stream be transcoded chunk by chunk. */
  lemma {:induction false} CollapseAppend(a: seq<bv8>, b: seq<bv8>)
    requires |a| == 0 || |b| == 0 || a[|a| - 1] != CR || b[0] != LF
    ensures Collapse(a + b) == Collapse(a) + Collapse(b)
  {
    if |a| == 0 {
      assert a + b == b;
    } else {
      var ab := a + b;
      assert ab[1..] == a[1..] + b;
      CollapseAppend(a[1..], b);
      assert PairAt(ab, 0) <==> PairAt(a, 0);
    }
  }

  /** A CR at the very end of the input is never deleted. */
  lemma TrailingCrSurvives(a: seq<bv8>)
    ensures Collapse(a + [CR]) == Collapse(a) + [CR]
  {
    CollapseAppend(a, [CR]);
    assert Collapse([CR]) == [CR] + Collapse([]);
  }

  /** A run of zero bytes contains neither CR nor LF and passes through. */
  lemma ZerosPassThrough(a: seq<bv8>, n: nat)
    ensures Collapse(a + Zeros(n)) == Collapse(a) + Zeros(n)
  {
    ZerosUnchanged(n);
    if n > 0 {
      CollapseAppend(a, Zeros(n));
    } else {
      assert a + Zeros(n) == a;
    }
  }

  function Zeros(n: nat): (z: seq<bv8>)
    ensures |z| == n && forall i :: 0 <= i < n ==> z[i] == 0
  {
    seq(n, _ => 0)
  }

  lemma {:induction false} ZerosUnchanged(n: nat)
    ensures Collapse(Zeros(n)) == Zeros(n)
  {
    if n > 0 {
      assert Zeros(n)[1..] == Zeros(n - 1);
      ZerosUnchanged(n - 1);
      assert Zeros(n) == [0] + Zeros(n - 1);
    }
  }

  /** The cases spelled out by the unit tests whose outcome is not a plain
      pass-through: a doubled CR keeps one CR. */
  lemma ShortExamples()
    ensures Collapse([]) == []
    ensures Collapse([CR, LF]) == [LF]
    ensures Collapse([CR, CR, LF]) == [CR, LF]
  {
    assert Collapse([LF]) == [LF];
    assert Collapse([CR, LF]) == [LF];
    assert Collapse([CR, CR, LF]) == [CR] + Collapse([CR, LF]);
  }

  /** A pair in the last two bytes of the input collapses, whether it ends
      the first eight-byte chunk or straddles two. */
  lemma PairAtChunkEndExample()
    ensures Collapse([0x31, 0x32, 0x33, 0x34, 0x35, 0x36, CR, LF]) == [0x31, 0x32, 0x33, 0x34, 0x35, 0x36, LF]
    ensures Collapse([0x30, 0x31, 0x32, 0x33, 0x34, 0x35, 0x36, CR, LF]) == [0x30, 0x31, 0x32, 0x33, 0x34, 0x35, 0x36, LF]
  {
    var p: seq<bv8> := [0x31, 0x32, 0x33, 0x34, 0x35, 0x36];
    NoPairIsIdentity(p);
    CollapseAppend(p, [CR, LF]);
    assert Collapse([CR, LF]) == [LF];
    assert p + [CR, LF] == [0x31, 0x32, 0x33, 0x34, 0x35, 0x36, CR, LF];
    var q: seq<bv8> := [0x30] + p;
    NoPairIsIdentity(q);
    CollapseAppend(q, [CR, LF]);
    assert q + [CR, LF] == [0x30, 0x31, 0x32, 0x33, 0x34, 0x35, 0x36, CR, LF];
  }

  /** A CR at the very end of the input survives, whether it ends the first
      eight-byte chunk or sits alone in the second. */
  lemma CrAtEndExample()
    ensures Collapse([0x31, 0x32, 0x33, 0x34, 0x35, 0x36, 0x37, CR]) == [0x31, 0x32, 0x33, 0x34, 0x35, 0x36, 0x37, CR]
    ensures Collapse([0x30, 0x31, 0x32, 0x33, 0x34, 0x35, 0x36, 0x37, CR]) == [0x30, 0x31, 0x32, 0x33, 0x34, 0x35, 0x36, 0x37, CR]
  {
    var q: seq<bv8> := [0x31, 0x32, 0x33, 0x34, 0x35, 0x36, 0x37];
    NoPairIsIdentity(q);
    TrailingCrSurvives(q);
    assert q + [CR] == [0x31, 0x32, 0x33, 0x34, 0x35, 0x36, 0x37, CR];
    var r: seq<bv8> := [0x30] + q;
    NoPairIsIdentity(r);
    TrailingCrSurvives(r);
    assert r + [CR] == [0x30, 0x31, 0x32, 0x33, 0x34, 0x35, 0x36, 0x37, CR];
  }
}
