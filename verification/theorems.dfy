/** What dos2unix64 promises its callers, from a fresh buffer: the filter
    tests' oracle (strings.ReplaceAll of "\r\n" by "\n") for a reader that
    fills the buffer, the count it returns, and where its errors come from. */
module Theorems {
  import opened LineEndings
  import opened Chunk
  import opened Stream
  import opened Filter

  /** Over a reader like strings.Reader (a source without unusual replies)
      and a writer that accepts every call, filter.go writes exactly
      strings.ReplaceAll(input, "\r\n", "\n"), reads all of its input,
      returns no error, and returns as its count the input's length less one
      byte per CRLF pair. */
  lemma TranscodesFullReads(src: Source)
    requires src.plan == []
    ensures var o := Dos2unix64(AsWritten, src, Sink(None));
      && o.err == None
      && o.consumed == src.rest
      && o.log.written == ReplaceAll(src.rest)
      && o.total == |src.rest| - Occurrences(src.rest)
  {
    StartInv(AsWritten, src.rest);
    RunSound(AsWritten, src, Sink(None), Start());
    assert NoFail(src.plan) && OnlyShort(src.plan);
    CollapseIsReplaceAll(src.rest);
    LengthLaw(src.rest);
  }

  /** The buffer-boundary cases of the filter tests, run through dos2unix64
      over strings.Reader: a CR LF ending the first eight-byte read
      ("123456\r\n") and one whose CR ends the first read and is carried
      into the second ("0123456\r\n") both become LF, with the counts the
      tests expect. */
  lemma PairAtBufferEnd(a: Source, b: Source)
    requires a == Source([0x31, 0x32, 0x33, 0x34, 0x35, 0x36, CR, LF], [])
    requires b == Source([0x30, 0x31, 0x32, 0x33, 0x34, 0x35, 0x36, CR, LF], [])
    ensures var o := Dos2unix64(AsWritten, a, Sink(None));
      o.err == None && o.log.written == [0x31, 0x32, 0x33, 0x34, 0x35, 0x36, LF] && o.total == 7
    ensures var o := Dos2unix64(AsWritten, b, Sink(None));
      o.err == None && o.log.written == [0x30, 0x31, 0x32, 0x33, 0x34, 0x35, 0x36, LF] && o.total == 8
  {
    PairAtChunkEndExample();
    BufferCase(a);
    BufferCase(b);
  }

  /** The companion cases: a CR ending the input, whether it ends the first
      read and is carried into an empty second one ("1234567\r") or comes
      alone in the second read ("01234567\r"), is written by the final
      flush or the last turn, and counted. */
  lemma CrAtInputEnd(a: Source, b: Source)
    requires a == Source([0x31, 0x32, 0x33, 0x34, 0x35, 0x36, 0x37, CR], [])
    requires b == Source([0x30, 0x31, 0x32, 0x33, 0x34, 0x35, 0x36, 0x37, CR], [])
    ensures var o := Dos2unix64(AsWritten, a, Sink(None));
      o.err == None && o.log.written == a.rest && o.total == 8
    ensures var o := Dos2unix64(AsWritten, b, Sink(None));
      o.err == None && o.log.written == b.rest && o.total == 9
  {
    CrAtEndExample();
    BufferCase(a);
    BufferCase(b);
  }

  /** Over strings.Reader and an accepting writer, the loop writes the
      collapse of the input and counts it. */
  lemma BufferCase(src: Source)
    requires src.plan == []
    ensures var o := Dos2unix64(AsWritten, src, Sink(None));
      o.err == None && o.log.written == Collapse(src.rest) && o.total == |Collapse(src.rest)|
  {
    TranscodesFullReads(src);
    CollapseIsReplaceAll(src.rest);
    LengthLaw(src.rest);
  }

  /** Over a reader like strings.Reader and any writer: the count returned
      is the number of bytes the writer accepted, those are the start of
      the transcoded input, and the only error is a write error, which only a
      writer refusing the last call made can cause. */
  lemma WriteErrorsOnly(src: Source, sink: Sink)
    requires src.plan == []
    ensures var o := Dos2unix64(AsWritten, src, sink);
      && o.total == |o.log.written|
      && o.consumed <= src.rest
      && o.log.written <= ReplaceAll(o.consumed)
      && (o.err != None ==> o.err == Some(WriteError) && sink.failAt == Some(o.log.calls))
      && (o.err == None ==> o.consumed == src.rest && o.log.written == ReplaceAll(src.rest))
      && (sink.failAt == None ==> o.err == None)
  {
    StartInv(AsWritten, src.rest);
    RunSound(AsWritten, src, sink, Start());
    var o := Dos2unix64(AsWritten, src, sink);
    assert NoFail(src.plan) && OnlyShort(src.plan);
    CollapseIsReplaceAll(o.consumed);
    if o.err.Some? {
      assert !o.err.value.ReadError?;
    }
  }

  /** The loop as written over a reader that fills the buffer but may fail:
      whatever error comes back, the count is what the writer accepted, and
      those bytes are the start of the transcoded input read so far; with no
      error the writer holds the transcoded input read; a write error comes
      only from the writer refusing the last call made, and a read error
      only from a failing reader (ReadErrorOnAnyCall is the converse); and
      when neither fails, the writer holds strings.ReplaceAll of all the
      input. */
  lemma FullReadsSound(src: Source, sink: Sink)
    requires FullPlan(src.plan)
    ensures var o := Dos2unix64(AsWritten, src, sink);
      && o.total == |o.log.written|
      && o.consumed <= src.rest
      && o.log.written <= ReplaceAll(o.consumed)
      && (o.err == None ==> o.log.written == ReplaceAll(o.consumed))
      && (o.err == Some(WriteError) ==> sink.failAt == Some(o.log.calls))
      && (o.err.Some? && o.err.value.ReadError? ==> !NoFail(src.plan))
      && (sink.failAt == None && NoFail(src.plan) ==>
            o.err == None && o.consumed == src.rest && o.log.written == ReplaceAll(src.rest))
  {
    StartInv(AsWritten, src.rest);
    RunSound(AsWritten, src, sink, Start());
    var o := Dos2unix64(AsWritten, src, sink);
    CollapseIsReplaceAll(o.consumed);
    if sink.failAt == None && NoFail(src.plan) {
      assert OnlyShort(src.plan) by {
        forall i | 0 <= i < |src.plan| ensures src.plan[i].Short? {
          assert !src.plan[i].Fail?;
        }
      }
    }
  }

  /** An empty input reads io.EOF at once: nothing is written, the count
      is 0 and there is no error. */
  lemma EmptyInput(sink: Sink)
    ensures Dos2unix64(AsWritten, Source([], []), sink) == Outcome(0, None, Log([], 0), [])
    ensures Dos2unix64(Corrected, Source([], []), sink) == Outcome(0, None, Log([], 0), [])
  {
    assert Read(Source([], []), 8).status == Eof;
  }

  /** A read error on the first call is returned at once, with a count of
      0 and nothing written, whatever input remains. */
  lemma FirstReadFails(v: Variant, input: seq<bv8>, code: int, plan: seq<Reply>, sink: Sink)
    ensures Dos2unix64(v, Source(input, [Fail(code)] + plan), sink)
      == Outcome(0, Some(ReadError(code)), Log([], 0), [])
  {
    var src := Source(input, [Fail(code)] + plan);
    assert src.plan[0] == Fail(code);
    var r := Read(src, 8);
    assert r.status == Failed(code);
    assert Run(v, src, sink, Start()) == Handle(v, src, sink, Start(), r);
    assert Consumed(Start()) == [];
  }

  /** Either loop returns a reader's error on whichever call it comes: when
      the first pre reads succeed and the writer accepts the pre writes that
      follow them, read pre + 1 fails with code c, and dos2unix64 returns
      exactly that error after pre writes, counting what was written. */
  lemma ReadErrorOnAnyCall(v: Variant, src: Source, sink: Sink, pre: nat, c: int)
    requires pre < |src.plan| && src.plan[pre] == Fail(c)
    requires forall j :: 0 <= j < pre ==> src.plan[j].Short?
    requires AcceptsBelow(sink, pre)
    ensures var o := Dos2unix64(v, src, sink);
      && o.err == Some(ReadError(c))
      && o.log.calls == pre
      && o.total == |o.log.written|
  {
    ReadErrorReturned(v, src, sink, Start(), pre, c);
  }

  /** The corrected loop, over any reader and any writer: the count is what
      the writer accepted; that is the start of the collapse of the bytes
      read, and all of it when no error comes back; write errors come only
      from a refusing writer and read errors only from a failing reader;
      and a reader that never reports io.EOF early is read to the end. */
  lemma CorrectedTranscodes(src: Source, sink: Sink)
    ensures var o := Dos2unix64(Corrected, src, sink);
      && o.total == |o.log.written|
      && o.consumed <= src.rest
      && o.log.written <= Collapse(o.consumed)
      && (o.err == None ==> o.log.written == Collapse(o.consumed))
      && (o.err == Some(WriteError) ==> sink.failAt == Some(o.log.calls))
      && (o.err.Some? && o.err.value.ReadError? ==> !NoFail(src.plan))
      && (sink.failAt == None && NoFail(src.plan) ==> o.err == None)
      && (OnlyShort(src.plan) && o.err == None ==> o.consumed == src.rest)
  {
    StartInv(Corrected, src.rest);
    RunSound(Corrected, src, sink, Start());
  }

  /** The corrected loop over a reader that returns short reads and ends
      with io.EOF: strings.ReplaceAll of the whole input reaches the writer. */
  lemma CorrectedShortReads(src: Source)
    requires OnlyShort(src.plan)
    ensures var o := Dos2unix64(Corrected, src, Sink(None));
      && o.err == None
      && o.consumed == src.rest
      && o.log.written == ReplaceAll(src.rest)
      && o.total == |src.rest| - Occurrences(src.rest)
  {
    CorrectedTranscodes(src, Sink(None));
    assert NoFail(src.plan) by {
      forall i | 0 <= i < |src.plan| ensures !src.plan[i].Fail? {
        assert src.plan[i].Short?;
      }
    }
    CollapseIsReplaceAll(src.rest);
    LengthLaw(src.rest);
  }
}
