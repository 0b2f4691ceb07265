/** One turn of the transcoder's loop on its eight-byte buffer, at the level
    of bytes: mask the stale tail, take a snapshot, hold back a trailing CR,
    and collapse the interior CR LF pairs from right to left. */
module Chunk {
  import opened LineEndings

  /** Which trailing-CR test a step uses. AsWritten looks only at byte 7 of
      the buffer, as filter.go does; Corrected looks at the last byte that
      was actually filled, which differs only after a short read. */
  datatype Variant = AsWritten | Corrected

  /** What one step leaves behind: the rewritten buffer, the number of its
      leading bytes to write, and whether a CR is carried into the next turn. */
  datatype StepResult = StepResult(word: seq<bv8>, len: int, carry: bool)

  /** The buffer with every byte at position len or beyond zeroed, so that
      bytes left over from an earlier, longer fill cannot take part in a test. */
  function Mask(bb: seq<bv8>, len: nat): (m: seq<bv8>)
    requires |bb| == 8 && len <= 8
    ensures |m| == 8
    ensures forall i :: 0 <= i < len ==> m[i] == bb[i]
    ensures forall i :: len <= i < 8 ==> m[i] == 0
  {
    bb[..len] + Zeros(8 - len)
  }

  /** The buffer with byte k removed, the later bytes moved one place towards
      the front, and a zero byte shifted in at the end. */
  function DeleteAt(x: seq<bv8>, k: nat): (r: seq<bv8>)
    requires |x| == 8 && k < 8
    ensures |r| == 8
    ensures forall i :: 0 <= i < k ==> r[i] == x[i]
    ensures forall i :: k <= i < 7 ==> r[i] == x[i + 1]
    ensures r[7] == 0
  {
    x[..k] + x[k + 1..] + [0]
  }

  /** The right-to-left pass over positions k-1 down to 0: each test reads the
      snapshot orig, each rewrite applies to the working copy ival, and each
      pair found takes one byte off len. */
  function Scan(orig: seq<bv8>, ival: seq<bv8>, len: int, k: nat): (r: (seq<bv8>, int))
    ensures |r.0| == 8 && len - k <= r.1 <= len
    requires |orig| == 8 && |ival| == 8 && k <= 7
    decreases k
  {
    if k == 0 then (ival, len)
    else if PairAt(orig, k - 1) then Scan(orig, DeleteAt(ival, k - 1), len - 1, k - 1)
    else Scan(orig, ival, len, k - 1)
  }

  /** The trailing-CR test of each variant, applied to the masked snapshot. */
  predicate CarryTest(v: Variant, orig: seq<bv8>, len: nat)
    requires |orig| == 8 && len <= 8
  {
    match v
    case AsWritten => orig[7] == CR
    case Corrected => len >= 1 && orig[len - 1] == CR
  }

  /** One turn of the loop on a buffer whose first len bytes are valid; see
      StepWrites for what it writes. */
  function Step(v: Variant, bb: seq<bv8>, len: nat): (r: StepResult)
    requires |bb| == 8 && len <= 8
    ensures |r.word| == 8 && 0 <= r.len <= 8
  {
    var orig := Mask(bb, len);
    var carry := CarryTest(v, orig, len);
    StepCollapses(v, bb, len, orig, carry);
    var (ival, n) := Scan(orig, orig, if carry then len - 1 else len, 7);
    StepResult(ival, n, carry)
  }

  /** The bytes a step writes are exactly the collapse of the valid bytes,
      less a held back trailing CR; the stale tail beyond len never matters.
      Each variant's carry test is stated on the buffer itself. */
  lemma StepWrites(v: Variant, bb: seq<bv8>, len: nat)
    requires |bb| == 8 && len <= 8
    ensures var r := Step(v, bb, len);
      && (v == AsWritten ==> (r.carry <==> len == 8 && bb[7] == CR))
      && (v == Corrected ==> (r.carry <==> len >= 1 && bb[len - 1] == CR))
      && (r.carry ==> r.word[..r.len] == Collapse(bb[..len - 1]))
      && (!r.carry ==> r.word[..r.len] == Collapse(bb[..len]))
  {
    var orig := Mask(bb, len);
    StepCollapses(v, bb, len, orig, CarryTest(v, orig, len));
  }

  /** The invariant of the scan at position k: the bytes before k untouched,
      then the collapse of the bytes from k on, then zero padding. */
  predicate ScanInv(orig: seq<bv8>, ival: seq<bv8>, k: nat)
    requires |orig| == 8 && k <= 8
  {
    ival == orig[..k] + Collapse(orig[k..]) + Zeros(8 - k - |Collapse(orig[k..])|)
  }

  /** Scanning from position k down keeps ScanInv and ends with the collapse
      of the whole snapshot; len loses one for each pair deleted. */
  lemma {:induction false} ScanCollapses(orig: seq<bv8>, ival: seq<bv8>, len: int, k: nat)
    requires |orig| == 8 && |ival| == 8 && k <= 7
    requires ScanInv(orig, ival, k)
    ensures Scan(orig, ival, len, k).0 == Collapse(orig) + Zeros(8 - |Collapse(orig)|)
    ensures Scan(orig, ival, len, k).1 == len - (|Collapse(orig[k..])| + k - |Collapse(orig)|)
    decreases k
  {
    if k == 0 {
      assert orig[..0] + Collapse(orig[0..]) == Collapse(orig);
    } else if PairAt(orig, k - 1) {
      DeleteStep(orig, ival, k);
      ScanCollapses(orig, DeleteAt(ival, k - 1), len - 1, k - 1);
    } else {
      KeepStep(orig, ival, k);
      ScanCollapses(orig, ival, len, k - 1);
    }
  }

  /** A pair at k-1: deleting its CR from the working copy moves the
      invariant one position down without changing the collapsed length. */
  lemma DeleteStep(orig: seq<bv8>, ival: seq<bv8>, k: nat)
    requires |orig| == 8 && |ival| == 8 && 1 <= k <= 7
    requires ScanInv(orig, ival, k) && PairAt(orig, k - 1)
    ensures ScanInv(orig, DeleteAt(ival, k - 1), k - 1)
    ensures |Collapse(orig[k - 1..])| == |Collapse(orig[k..])|
  {
    var c := Collapse(orig[k..]);
    var t := orig[k - 1..];
    assert t[1..] == orig[k..];
    assert PairAt(t, 0);
    assert Collapse(t) == c;
    assert DeleteAt(ival, k - 1) == orig[..k - 1] + c + Zeros(8 - k - |c|) + [0];
    assert Zeros(8 - k - |c|) + [0] == Zeros(8 - (k - 1) - |c|);
  }

  /** No pair at k-1: the working copy already satisfies the invariant one
      position down, with one more byte in the collapsed part. */
  lemma KeepStep(orig: seq<bv8>, ival: seq<bv8>, k: nat)
    requires |orig| == 8 && |ival| == 8 && 1 <= k <= 7
    requires ScanInv(orig, ival, k) && !PairAt(orig, k - 1)
    ensures ScanInv(orig, ival, k - 1)
    ensures |Collapse(orig[k - 1..])| == |Collapse(orig[k..])| + 1
  {
    var c := Collapse(orig[k..]);
    var t := orig[k - 1..];
    assert t[1..] == orig[k..];
    assert !PairAt(t, 0);
    assert Collapse(t) == [orig[k - 1]] + c;
    assert orig[..k] == orig[..k - 1] + [orig[k - 1]];
  }

  /** The whole scan of a snapshot: its collapse, padded with zeros, and one
      byte taken off len for each pair deleted. */
  lemma ScanWhole(orig: seq<bv8>, len: int)
    requires |orig| == 8
    ensures Scan(orig, orig, len, 7).0 == Collapse(orig) + Zeros(8 - |Collapse(orig)|)
    ensures Scan(orig, orig, len, 7).1 == len - (8 - |Collapse(orig)|)
  {
    assert orig[7..] == [orig[7]];
    assert Collapse([orig[7]]) == [orig[7]] + Collapse([]);
    assert ScanInv(orig, orig, 7);
    ScanCollapses(orig, orig, len, 7);
  }

  /** The zero padding of a masked buffer passes through the collapse. */
  lemma MaskCollapse(bb: seq<bv8>, len: nat)
    requires |bb| == 8 && len <= 8
    ensures Collapse(Mask(bb, len)) == Collapse(bb[..len]) + Zeros(8 - len)
  {
    ZerosPassThrough(bb[..len], 8 - len);
  }

  /** The heart of Step's contract, kept as a lemma so that Step reads like
      the loop body it models. */
  lemma StepCollapses(v: Variant, bb: seq<bv8>, len: nat, orig: seq<bv8>, carry: bool)
    requires |bb| == 8 && len <= 8
    requires orig == Mask(bb, len) && carry == CarryTest(v, orig, len)
    ensures var (ival, n) := Scan(orig, orig, if carry then len - 1 else len, 7);
      && |ival| == 8 && 0 <= n <= 8
      && (carry ==> len >= 1 && bb[len - 1] == CR && ival[..n] == Collapse(bb[..len - 1]))
      && (!carry ==> ival[..n] == Collapse(bb[..len]))
    ensures v == AsWritten ==> (carry <==> len == 8 && bb[7] == CR)
    ensures v == Corrected ==> (carry <==> len >= 1 && bb[len - 1] == CR)
  {
    var l := if carry then len - 1 else len;
    ScanWhole(orig, l);
    MaskCollapse(bb, len);
    var c := Collapse(bb[..len]);
    var (ival, n) := Scan(orig, orig, l, 7);
    assert ival == c + Zeros(8 - len) + Zeros(len - |c|);
    assert n == l - (len - |c|);
    if carry {
      assert bb[..len] == bb[..len - 1] + [CR];
      TrailingCrSurvives(bb[..len - 1]);
    }
    assert ival[..|c|] == c;
  }
}
