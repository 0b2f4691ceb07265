/** dos2unix64 as filter.go writes it: a loop over reads, with the word
    arithmetic of Word.Turn for each buffer. Its loop invariant ties the
    loop's variables to the recursive Filter model, so that everything
    proved there holds for this loop. */
module Loop {
  import opened LineEndings
  import opened Chunk
  import opened Word
  import opened Stream
  import opened Filter
  import opened Theorems

  /** Lines 58-113 on the bytes just read: the word arithmetic, the write
      and the re-seeding. The result is the byte-level turn, Filter.Cycle:
      stopped with a write error, or the next state of the loop. */
  method Spin(sink: Sink, st: State, data: seq<bv8>) returns (stopped: bool, st': State)
    requires Valid(st) && st.offset + |data| <= 8
    ensures stopped <==> Cycle(AsWritten, sink, st, data).Stop?
    ensures stopped ==> Cycle(AsWritten, sink, st, data).out == Outcome(st.total, Some(WriteError), st.log, Consumed(st) + data)
    ensures !stopped ==> Cycle(AsWritten, sink, st, data) == Continue(st') && Valid(st')
  {
    var filled := st.offset + |data|;
    var buf := Fill(st.bb, st.offset, data);
    var word, len, carry := Turn(buf, filled);
    var w := Write(sink, st.log, word[..len]);
    if w.None? {
      return true, st;
    }
    var done := st.done + Part(carry, st.bb[..st.offset] + data);
    if carry {
      st' := State(Seed(), 1, st.total + len, w.value, done);
    } else {
      st' := State(word, 0, st.total + len, w.value, done);
    }
    stopped := false;
  }

  /** Lines 116-124: the flush of a carried CR once the reader reports
      io.EOF; the result is Filter.Finish. */
  method Flush(sink: Sink, st: State, dropped: seq<bv8>) returns (total: int, err: Option<Error>, log: Log)
    requires Valid(st)
    ensures var o := Finish(sink, st, dropped);
      total == o.total && err == o.err && log == o.log
  {
    total, err, log := st.total, None, st.log;
    if st.offset == 1 {
      var w := Write(sink, log, st.bb[..1]);
      if w.None? {
        err := Some(WriteError);
        return;
      }
      log, total := w.value, total + 1;
    }
  }

  /** Lines 45-125. Returns the count, the error and the writer's log; they
      are those of the recursive model, and for a reader like strings.Reader
      and a writer that accepts every call, the writer holds
      strings.ReplaceAll(input, "\r\n", "\n"). */
  method Dos2unix64Loop(input: Source, sink: Sink) returns (total: int, err: Option<Error>, log: Log)
    ensures var o := Dos2unix64(AsWritten, input, sink);
      total == o.total && err == o.err && log == o.log
    ensures input.plan == [] && sink.failAt == None ==>
      && err == None
      && log.written == ReplaceAll(input.rest)
      && total == |input.rest| - Occurrences(input.rest)
  {
    ghost var goal := Dos2unix64(AsWritten, input, sink);
    var st := Start();
    var src := input;
    var r: ReadResult;
    while true
      invariant Valid(st) && Run(AsWritten, src, sink, st) == goal
      decreases |src.plan|, |src.rest|
    {
      r := Read(src, 8 - st.offset);
      if r.status == Eof {
        break;
      }
      if r.status.Failed? {
        return st.total, Some(ReadError(r.status.code)), st.log;
      }
      RunTurns(AsWritten, src, sink, st);
      ReadShrinks(src, 8 - st.offset);
      var stopped, st' := Spin(sink, st, r.data);
      if stopped {
        return st.total, Some(WriteError), st.log;
      }
      st, src := st', r.next;
    }
    total, err, log := Flush(sink, st, r.data);
    if input.plan == [] && sink.failAt == None {
      TranscodesFullReads(input);
    }
  }
}
