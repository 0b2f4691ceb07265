/** Two ways in which filter.go's dos2unix64 misses its oracle,
    strings.ReplaceAll(input, "\r\n", "\n"), on readers that io.Reader
    allows but strings.Reader never is: a short read that ends in CR, and
    bytes returned together with io.EOF. Each is shown on a concrete input
    for the loop as written, next to the corrected loop on the same input. */
module Findings {
  import opened LineEndings
  import opened Chunk
  import opened Stream
  import opened Filter
  import opened Theorems

  // ---------------------------------------------------------------------
  // A short read that ends in CR

  /** A reader that returns the CR of a CR LF pair on its own: line 67 looks
      for a CR in byte 7 only, so the CR at byte 0 of a one-byte read is
      written out, and the LF of the next read cannot delete it. The writer
      receives CR LF where strings.ReplaceAll gives LF. */
  lemma ShortReadKeepsPair()
    ensures var o := Dos2unix64(AsWritten, Source([CR, LF], [Short(1)]), Sink(None));
      && o == Outcome(2, None, Log([CR, LF], 2), [CR, LF])
      && o.log.written != ReplaceAll(o.consumed)
  {
    var st1 := LoneCrRead(Start(), Source([CR, LF], [Short(1)]), Source([LF], []));
    var st2 := LfRead(st1, Source([LF], []), Source([], []));
    RunAtEnd(AsWritten, Sink(None), st2);
    ShortExamples();
    CollapseIsReplaceAll([CR, LF]);
  }

  /** The first turn: the one-byte read of the CR is written as it is. */
  lemma LoneCrRead(st: State, src: Source, next: Source) returns (st': State)
    requires Valid(st) && st.offset == 0
    requires src == Source([CR, LF], [Short(1)]) && next == Source([LF], [])
    ensures Valid(st') && st'.offset == 0 && st'.total == st.total + 1
    ensures st'.log == Log(st.log.written + [CR], st.log.calls + 1) && st'.done == st.done + [CR]
    ensures Run(AsWritten, src, Sink(None), st) == Run(AsWritten, next, Sink(None), st')
  {
    assert Read(src, 8) == ReadResult([CR], Ok, next);
    assert st.bb[..0] + [CR] == [CR];
    assert Collapse([CR]) == [CR];
    st' := RunOnce(AsWritten, src, Sink(None), st);
  }

  /** A turn on a lone LF read with nothing carried writes the LF. */
  lemma LfRead(st: State, src: Source, next: Source) returns (st': State)
    requires Valid(st) && st.offset == 0
    requires src == Source([LF], []) && next == Source([], [])
    ensures Valid(st') && st'.offset == 0 && st'.total == st.total + 1
    ensures st'.log == Log(st.log.written + [LF], st.log.calls + 1) && st'.done == st.done + [LF]
    ensures Run(AsWritten, src, Sink(None), st) == Run(AsWritten, next, Sink(None), st')
  {
    assert Read(src, 8) == ReadResult([LF], Ok, next);
    assert st.bb[..0] + [LF] == [LF];
    st' := RunOnce(AsWritten, src, Sink(None), st);
  }

  /** A reader that returns nothing, without error, while a CR is carried:
      the turn sees one valid byte, byte 7 is not a CR, and the carried CR is
      written before the LF that follows it is read. */
  lemma EmptyReadFlushesCr()
    ensures var input := Zeros(7) + [CR, LF];
      var o := Dos2unix64(AsWritten, Source(input, [Short(8), Short(0)]), Sink(None));
      && o == Outcome(9, None, Log(input, 3), input)
      && o.log.written != ReplaceAll(o.consumed)
  {
    var input := Zeros(7) + [CR, LF];
    var st1 := FullCrRead(input, Source([LF], [Short(0)]));
    var st2 := EmptyRead(st1, Source([LF], [Short(0)]), Source([LF], []));
    var st3 := LfRead(st2, Source([LF], []), Source([], []));
    assert Zeros(7) + [CR] + [LF] == input;
    RunAtEnd(AsWritten, Sink(None), st3);
    PairInZeros();
    CollapseIsReplaceAll(input);
  }

  /** The first turn: a full buffer ending in CR; the CR is carried. */
  lemma FullCrRead(input: seq<bv8>, next: Source) returns (st1: State)
    requires input == Zeros(7) + [CR, LF] && next == Source([LF], [Short(0)])
    ensures Valid(st1) && st1.offset == 1 && st1.bb[0] == CR && st1.total == 7
    ensures st1.log == Log(Zeros(7), 1) && st1.done == Zeros(7)
    ensures Dos2unix64(AsWritten, Source(input, [Short(8), Short(0)]), Sink(None))
      == Run(AsWritten, next, Sink(None), st1)
  {
    var first := Zeros(7) + [CR];
    var src := Source(input, [Short(8), Short(0)]);
    assert input[..8] == first && input[8..] == [LF];
    var r := Read(src, 8);
    assert r.data == first && r.status == Ok;
    assert r.next == next;
    assert Start().bb[..0] + first == first;
    assert Part(true, first) == Zeros(7);
    ZerosUnchanged(7);
    st1 := RunOnce(AsWritten, src, Sink(None), Start());
    assert Dos2unix64(AsWritten, src, Sink(None)) == Run(AsWritten, src, Sink(None), Start());
  }

  /** The empty read: the turn sees the carried CR alone and writes it. */
  lemma EmptyRead(st: State, src: Source, next: Source) returns (st': State)
    requires Valid(st) && st.offset == 1 && st.bb[0] == CR
    requires src == Source([LF], [Short(0)]) && next == Source([LF], [])
    ensures Valid(st') && st'.offset == 0 && st'.total == st.total + 1
    ensures st'.log == Log(st.log.written + [CR], st.log.calls + 1) && st'.done == st.done + [CR]
    ensures Run(AsWritten, src, Sink(None), st) == Run(AsWritten, next, Sink(None), st')
  {
    assert Read(src, 7) == ReadResult([], Ok, next);
    assert st.bb[..1] + [] == [CR];
    assert Collapse([CR]) == [CR];
    st' := RunOnce(AsWritten, src, Sink(None), st);
  }

  /** The collapse of seven zero bytes and a CR LF: the pair's CR goes. */
  lemma PairInZeros()
    ensures Collapse(Zeros(7) + [CR, LF]) == Zeros(7) + [LF]
  {
    CollapseAppend(Zeros(7), [CR, LF]);
    ZerosUnchanged(7);
    ShortExamples();
  }

  /** The corrected loop on the first reader writes LF: the CR of the
      one-byte read is held back and deleted with the LF that follows. */
  lemma ShortReadCorrected()
    ensures var o := Dos2unix64(Corrected, Source([CR, LF], [Short(1)]), Sink(None));
      o.err == None && o.log.written == [LF] && o.total == 1
  {
    CorrectedShortReads(Source([CR, LF], [Short(1)]));
    ShortExamples();
    CollapseIsReplaceAll([CR, LF]);
  }

  /** The corrected loop on the second reader: the carried CR stays held
      back over the empty read, and the pair collapses. */
  lemma EmptyReadCorrected()
    ensures var o := Dos2unix64(Corrected, Source(Zeros(7) + [CR, LF], [Short(8), Short(0)]), Sink(None));
      o.err == None && o.log.written == Zeros(7) + [LF] && o.total == 8
  {
    CorrectedShortReads(Source(Zeros(7) + [CR, LF], [Short(8), Short(0)]));
    PairInZeros();
    CollapseIsReplaceAll(Zeros(7) + [CR, LF]);
    LengthLaw(Zeros(7) + [CR, LF]);
  }

  // ---------------------------------------------------------------------
  // Data returned with io.EOF

  /** io.Reader allows a final read to return bytes together with io.EOF;
      lines 52-54 leave the loop without looking at them. Whatever the
      first read returns with io.EOF is read but never written, and no
      error is returned. */
  lemma EofDataDropped(data: seq<bv8>)
    requires 0 < |data| <= 8
    ensures var o := Dos2unix64(AsWritten, Source(data, [EofWith(|data|)]), Sink(None));
      && o == Outcome(0, None, Log([], 0), data)
      && o.log.written != ReplaceAll(o.consumed)
  {
    var src := Source(data, [EofWith(|data|)]);
    assert data[..|data|] == data;
    var r := Read(src, 8);
    assert r == ReadResult(data, Eof, Source([], []));
    assert Run(AsWritten, src, Sink(None), Start()) == Finish(Sink(None), Start(), data);
    assert Consumed(Start()) + data == data;
    CollapseNonEmpty(data);
    CollapseIsReplaceAll(data);
  }

  /** Something always survives the collapse of a non-empty sequence: its
      last byte. */
  lemma {:induction false} CollapseNonEmpty(s: seq<bv8>)
    requires s != []
    ensures Collapse(s) != []
  {
    if PairAt(s, 0) {
      CollapseNonEmpty(s[1..]);
    }
  }

  /** The corrected loop transcodes a byte that comes with io.EOF: it is
      written, and the count is 1. CorrectedTranscodes states the same for
      every reader: without an error, the writer holds the collapse of all
      that was read. */
  lemma EofDataKept(b: bv8)
    requires b != CR
    ensures var o := Dos2unix64(Corrected, Source([b], [EofWith(1)]), Sink(None));
      o == Outcome(1, None, Log([b], 1), [b])
  {
    var src := Source([b], [EofWith(1)]);
    assert Read(src, 8) == ReadResult([b], Eof, Source([], []));
    assert Start().bb[..0] + [b] == [b];
    assert Collapse([b]) == [b];
    CycleWrites(Corrected, Sink(None), Start(), [b]);
    var st1 := Cycle(Corrected, Sink(None), Start(), [b]).st;
    assert Run(Corrected, src, Sink(None), Start()) == Finish(Sink(None), st1, []);
    assert Consumed(st1) + [] == [b];
  }
}
