/** dos2unix64 (filter.go lines 45-125): the read-transcode-write loop around
    the eight-byte step, with its carried CR, its error returns and the final
    flush. The loop is a recursive function over a Source and a Sink; the main
    theorems say that what reaches the writer is the collapse of what was read,
    that the returned count is what the writer accepted, and which errors can
    come back. */
module Filter {
  import opened LineEndings
  import opened Masks
  import opened Chunk
  import opened Stream

  datatype Error = ReadError(code: int) | WriteError

  /** The loop's variables between two reads: the buffer, offset (1 when a CR
      is carried in bb[0]) and total, and, for the proofs, the writer's log
      and the bytes read so far less a carried CR. */
  datatype State = State(bb: seq<bv8>, offset: nat, total: int, log: Log, done: seq<bv8>)

  /** What dos2unix64 returns, with the writer's log and the bytes read. */
  datatype Outcome = Outcome(total: int, err: Option<Error>, log: Log, consumed: seq<bv8>)

  /** What happens after one turn: the loop goes on, or returns early. */
  datatype Next = Continue(st: State) | Stop(out: Outcome)

  predicate Valid(st: State) {
    |st.bb| == 8 && st.offset <= 1
  }

  /** Every byte the reader has handed out: done, then a carried CR. */
  function Consumed(st: State): (c: seq<bv8>)
    requires Valid(st)
  {
    st.done + st.bb[..st.offset]
  }

  /** Line 46: a zeroed buffer, nothing carried, nothing written. */
  function Start(): (st: State)
    ensures Valid(st) && st.offset == 0 && Consumed(st) == [] && st.log.written == []
  {
    State(Zeros(8), 0, 0, Log([], 0), [])
  }

  /** Lines 111-112: the buffer a carried CR starts the next turn with; see
      SeedIsCrXXX for its relation to crXXX. */
  function Seed(): (s: seq<bv8>)
    ensures |s| == 8 && s[0] == CR
  {
    [CR] + Zeros(7)
  }

  /** The seed is crXXX written back big-endian with byte 0 overwritten by CR. */
  lemma SeedIsCrXXX()
    ensures Seed() == ToBytes(crXXX)[0 := CR]
  {
    CarrySeed();
  }

  /** Line 51: Read(bb[offset:]) stores the bytes it returns from offset on
      and leaves the rest of the buffer as it was. */
  function Fill(bb: seq<bv8>, offset: nat, data: seq<bv8>): (r: seq<bv8>)
    requires |bb| == 8 && offset + |data| <= 8
    ensures |r| == 8 && r[..offset + |data|] == bb[..offset] + data
  {
    bb[..offset] + data + bb[offset + |data|..]
  }

  /** The part of a chunk a turn writes: all of it, or all but a carried CR. */
  function Part(carry: bool, chunk: seq<bv8>): (p: seq<bv8>)
    ensures p <= chunk
    ensures |p| == if carry && |chunk| > 0 then |chunk| - 1 else |chunk|
  {
    if carry && |chunk| > 0 then chunk[..|chunk| - 1] else chunk
  }

  /** Lines 58-113: one turn on the bytes just read (Chunk.Step), then its
      write and the re-seeding of the buffer. */
  function Cycle(v: Variant, sink: Sink, st: State, data: seq<bv8>): (next: Next)
    requires Valid(st) && st.offset + |data| <= 8
  {
    Emit(sink, st, data, Step(v, Fill(st.bb, st.offset, data), st.offset + |data|))
  }

  /** Lines 104-113: write the first len bytes of the rewritten word, count
      them, and either keep the word as the next buffer or re-seed it with
      the carried CR. */
  function Emit(sink: Sink, st: State, data: seq<bv8>, s: StepResult): (next: Next)
    requires Valid(st) && st.offset + |data| <= 8 && |s.word| == 8 && 0 <= s.len <= 8
  {
    match Write(sink, st.log, s.word[..s.len])
    case None => Stop(Outcome(st.total, Some(WriteError), st.log, Consumed(st) + data))
    case Some(log) =>
      var total := st.total + s.len;
      var done := st.done + Part(s.carry, st.bb[..st.offset] + data);
      if s.carry then Continue(State(Seed(), 1, total, log, done))
      else Continue(State(s.word, 0, total, log, done))
  }

  /** Lines 116-124: flush a carried CR, then return. The bytes dropped are
      those a read returned together with io.EOF and the loop discarded. */
  function Finish(sink: Sink, st: State, dropped: seq<bv8>): (o: Outcome)
    requires Valid(st)
  {
    var consumed := Consumed(st) + dropped;
    if st.offset == 1 then
      match Write(sink, st.log, st.bb[..1])
      case None => Outcome(st.total, Some(WriteError), st.log, consumed)
      case Some(log) => Outcome(st.total + 1, None, log, consumed)
    else Outcome(st.total, None, st.log, consumed)
  }

  /** Lines 50-114, the loop: read, then act on what the read returned. */
  function Run(v: Variant, src: Source, sink: Sink, st: State): (o: Outcome)
    requires Valid(st)
    decreases |src.plan|, |src.rest|, 1
  {
    Handle(v, src, sink, st, Read(src, 8 - st.offset))
  }

  /** Lines 52-57 and 110-114: a read error returns at once; io.EOF ends the
      loop, and AsWritten does so without looking at the bytes that came with
      it, as filter.go does, where Corrected transcodes them first; otherwise
      the loop turns once and goes on. */
  function Handle(v: Variant, src: Source, sink: Sink, st: State, r: ReadResult): (o: Outcome)
    requires Valid(st) && r == Read(src, 8 - st.offset)
    decreases |src.plan|, |src.rest|, 0
  {
    match r.status
    case Failed(c) => Outcome(st.total, Some(ReadError(c)), st.log, Consumed(st))
    case Eof =>
      if v == AsWritten || r.data == [] then Finish(sink, st, r.data)
      else (match Cycle(v, sink, st, r.data)
            case Stop(o) => o
            case Continue(st') => Finish(sink, st', []))
    case Ok => Resume(v, r.next, sink, Cycle(v, sink, st, r.data))
  }

  /** After a turn: the early return of a failed write, or the next read. */
  function Resume(v: Variant, src: Source, sink: Sink, n: Next): (o: Outcome)
    requires n.Continue? ==> Valid(n.st)
    decreases |src.plan|, |src.rest|, 2
  {
    match n
    case Stop(o) => o
    case Continue(st') => Run(v, src, sink, st')
  }

  /** dos2unix64(w, r) from a fresh buffer. */
  function Dos2unix64(v: Variant, src: Source, sink: Sink): (o: Outcome) {
    Run(v, src, sink, Start())
  }

  // ---------------------------------------------------------------------
  // The invariant of the loop

  predicate EndsInCr(s: seq<bv8>) {
    |s| > 0 && s[|s| - 1] == CR
  }

  /** Between two reads: a carried CR sits in bb[0]; the writer holds the
      collapse of the other bytes read; total counts the bytes written; and
      those bytes can end in a CR that is not carried only when the
      as-written loop has nothing left to read. */
  predicate Inv(v: Variant, st: State, rest: seq<bv8>) {
    && Valid(st)
    && (st.offset == 1 ==> st.bb[0] == CR)
    && st.log.written == Collapse(st.done)
    && st.total == |st.log.written|
    && (st.offset == 0 && EndsInCr(st.done) ==> v == AsWritten && rest == [])
  }

  /** A run's outcome is sound: the count is what the writer accepted, and
      that is a prefix of the collapse of the bytes read. */
  predicate Sound(o: Outcome) {
    o.total == |o.log.written| && o.log.written <= Collapse(o.consumed)
  }

  predicate NoFail(plan: seq<Reply>) {
    forall i :: 0 <= i < |plan| ==> !plan[i].Fail?
  }

  predicate OnlyShort(plan: seq<Reply>) {
    forall i :: 0 <= i < |plan| ==> plan[i].Short?
  }

  /** A reader whose every read fills the buffer as far as the input goes,
      or fails: each unusual reply is a read error or a read of at least
      eight bytes. */
  predicate FullPlan(plan: seq<Reply>) {
    forall i :: 0 <= i < |plan| ==> plan[i].Fail? || (plan[i].Short? && plan[i].n >= 8)
  }

  lemma StartInv(v: Variant, rest: seq<bv8>)
    ensures Inv(v, Start(), rest)
  {
  }

  /** What one turn writes, in terms of the chunk of valid bytes: the carried
      CR (if any) is the chunk's last byte, the rest is collapsed, and a chunk
      ending in CR is not carried only by the as-written test on a short one. */
  predicate Turned(v: Variant, chunk: seq<bv8>, s: StepResult) {
    && |s.word| == 8 && 0 <= s.len <= 8
    && s.word[..s.len] == Collapse(Part(s.carry, chunk))
    && (s.carry ==> EndsInCr(chunk))
    && (!s.carry && EndsInCr(chunk) ==> v == AsWritten && |chunk| < 8)
  }

  /** For the as-written loop a read must fill the buffer or exhaust the input. */
  predicate FullRead(v: Variant, st: State, data: seq<bv8>, rest: seq<bv8>) {
    v == AsWritten ==> |data| == 8 - st.offset || rest == []
  }

  lemma TurnWrites(v: Variant, st: State, data: seq<bv8>)
    requires Valid(st) && st.offset + |data| <= 8
    ensures Turned(v, st.bb[..st.offset] + data, Step(v, Fill(st.bb, st.offset, data), st.offset + |data|))
  {
    var filled := st.offset + |data|;
    var bb := Fill(st.bb, st.offset, data);
    StepWrites(v, bb, filled);
    if filled > 0 {
      assert bb[..filled][..filled - 1] == bb[..filled - 1];
    }
  }

  /** Appending the written part to done keeps "written is the collapse of
      done": only a CR LF pair could straddle the seam, and a CR at the end
      of done is either carried into the chunk or the end of the input. */
  lemma AppendPart(done: seq<bv8>, pending: seq<bv8>, data: seq<bv8>, carry: bool)
    requires pending == [] || pending == [CR]
    requires EndsInCr(done) && pending == [] ==> data == []
    ensures Collapse(done) + Collapse(Part(carry, pending + data)) == Collapse(done + Part(carry, pending + data))
  {
    var part := Part(carry, pending + data);
    if EndsInCr(done) && |part| > 0 {
      assert part[0] == CR;
    }
    CollapseAppend(done, part);
  }

  /** What was written before a turn stays a prefix of the collapse of all
      bytes read, whatever the turn does. */
  lemma WrittenStaysPrefix(done: seq<bv8>, pending: seq<bv8>, data: seq<bv8>)
    requires pending == [] || pending == [CR]
    requires EndsInCr(done) && pending == [] ==> data == []
    ensures Collapse(done) <= Collapse(done + pending + data)
  {
    var chunk := pending + data;
    if EndsInCr(done) && |chunk| > 0 {
      assert chunk[0] == CR;
    }
    CollapseAppend(done, chunk);
    assert done + pending + data == done + chunk;
  }

  /** A turn that carries a CR hands it on: the chunk is the part plus it. */
  lemma CarriedSplit(done: seq<bv8>, chunk: seq<bv8>)
    requires EndsInCr(chunk)
    ensures done + Part(true, chunk) + [CR] == done + chunk
  {
    assert chunk == chunk[..|chunk| - 1] + [CR];
  }

  /** A written history ending in CR without a carry means the input is
      exhausted. */
  lemma UncarriedEnd(v: Variant, done: seq<bv8>, pending: seq<bv8>, data: seq<bv8>, rest: seq<bv8>)
    requires pending == [] || pending == [CR]
    requires EndsInCr(done) && pending == [] ==> v == AsWritten && data + rest == []
    requires EndsInCr(pending + data) ==> v == AsWritten && |pending + data| < 8
    requires v == AsWritten ==> |pending + data| == 8 || rest == []
    requires EndsInCr(done + (pending + data))
    ensures v == AsWritten && rest == []
  {
    var chunk := pending + data;
    if |chunk| == 0 {
      assert done + chunk == done;
    } else {
      assert (done + chunk)[|done + chunk| - 1] == chunk[|chunk| - 1];
    }
  }

  /** Emit's result, spelled out for a writer that accepts the call. */
  lemma EmitContinues(sink: Sink, st: State, data: seq<bv8>, s: StepResult)
    requires Valid(st) && st.offset + |data| <= 8 && |s.word| == 8 && 0 <= s.len <= 8
    requires sink.failAt != Some(st.log.calls)
    ensures var st' := Emit(sink, st, data, s).st;
      && Emit(sink, st, data, s).Continue?
      && st'.bb == (if s.carry then Seed() else s.word)
      && st'.offset == (if s.carry then 1 else 0)
      && st'.total == st.total + s.len
      && st'.log.written == st.log.written + s.word[..s.len]
      && st'.done == st.done + Part(s.carry, st.bb[..st.offset] + data)
  {
  }

  /** The carry decision of each variant, on the chunk of valid bytes:
      filter.go holds back a CR only in byte 7 of a full buffer; the
      corrected test holds back any CR that ends the chunk. */
  predicate Carries(v: Variant, chunk: seq<bv8>) {
    match v
    case AsWritten => |chunk| == 8 && EndsInCr(chunk)
    case Corrected => EndsInCr(chunk)
  }

  /** What one turn does when the writer accepts the call: it writes the
      collapse of the chunk less a held back CR, counts those bytes, and
      carries the CR into the next buffer. */
  lemma CycleWrites(v: Variant, sink: Sink, st: State, data: seq<bv8>)
    requires Valid(st) && st.offset + |data| <= 8 && sink.failAt != Some(st.log.calls)
    ensures var chunk := st.bb[..st.offset] + data;
      var part := Part(Carries(v, chunk), chunk);
      var n := Cycle(v, sink, st, data);
      && n.Continue?
      && n.st.offset == (if Carries(v, chunk) then 1 else 0)
      && (Carries(v, chunk) ==> n.st.bb == Seed())
      && n.st.log == Log(st.log.written + Collapse(part), st.log.calls + 1)
      && n.st.total == st.total + |Collapse(part)|
      && n.st.done == st.done + part
  {
    var s := Step(v, Fill(st.bb, st.offset, data), st.offset + |data|);
    TurnWrites(v, st, data);
    CarryDecision(v, st, data);
    EmitWrites(sink, st, data, s);
  }

  /** The step's carry is the variant's decision on the chunk. */
  lemma CarryDecision(v: Variant, st: State, data: seq<bv8>)
    requires Valid(st) && st.offset + |data| <= 8
    ensures Step(v, Fill(st.bb, st.offset, data), st.offset + |data|).carry == Carries(v, st.bb[..st.offset] + data)
  {
    var filled := st.offset + |data|;
    var bb := Fill(st.bb, st.offset, data);
    var chunk := st.bb[..st.offset] + data;
    StepWrites(v, bb, filled);
    if filled > 0 {
      assert bb[filled - 1] == bb[..filled][filled - 1] == chunk[filled - 1];
    }
  }

  /** Emit's result for a writer that accepts the call, given what the
      step wrote. */
  lemma EmitWrites(sink: Sink, st: State, data: seq<bv8>, s: StepResult)
    requires Valid(st) && st.offset + |data| <= 8 && sink.failAt != Some(st.log.calls)
    requires Turned(Corrected, st.bb[..st.offset] + data, s) || Turned(AsWritten, st.bb[..st.offset] + data, s)
    ensures var part := Part(s.carry, st.bb[..st.offset] + data);
      var n := Emit(sink, st, data, s);
      && n.Continue?
      && n.st.offset == (if s.carry then 1 else 0)
      && (s.carry ==> n.st.bb == Seed())
      && n.st.log == Log(st.log.written + Collapse(part), st.log.calls + 1)
      && n.st.total == st.total + |Collapse(part)|
      && n.st.done == st.done + part
  {
  }

  /** One turn of the loop, when the read succeeds and the writer accepts
      the call: the run goes on from the state CycleWrites describes. */
  lemma RunOnce(v: Variant, src: Source, sink: Sink, st: State) returns (st': State)
    requires Valid(st) && Read(src, 8 - st.offset).status == Ok
    requires sink.failAt != Some(st.log.calls)
    ensures Valid(st')
    ensures Run(v, src, sink, st) == Run(v, Read(src, 8 - st.offset).next, sink, st')
    ensures var chunk := st.bb[..st.offset] + Read(src, 8 - st.offset).data;
      var part := Part(Carries(v, chunk), chunk);
      && st'.offset == (if Carries(v, chunk) then 1 else 0)
      && (Carries(v, chunk) ==> st'.bb == Seed())
      && st'.log == Log(st.log.written + Collapse(part), st.log.calls + 1)
      && st'.total == st.total + |Collapse(part)|
      && st'.done == st.done + part
  {
    var data := Read(src, 8 - st.offset).data;
    CycleWrites(v, sink, st, data);
    st' := Cycle(v, sink, st, data).st;
    RunGoesOn(v, src, sink, st, st');
  }

  /** The writer accepts every call made before the n-th. */
  predicate AcceptsBelow(sink: Sink, n: nat) {
    sink.failAt.None? || sink.failAt.value >= n
  }

  /** A read error is returned at once, on whichever call it comes: after
      pre reads without error, each followed by a write the writer accepts,
      the failing read ends the loop with its own error and no further
      write, and the count still matches what the writer accepted. */
  lemma {:induction false} ReadErrorReturned(v: Variant, src: Source, sink: Sink, st: State, pre: nat, c: int)
    requires Valid(st)
    requires pre < |src.plan| && src.plan[pre] == Fail(c)
    requires forall j :: 0 <= j < pre ==> src.plan[j].Short?
    requires AcceptsBelow(sink, st.log.calls + pre)
    ensures var o := Run(v, src, sink, st);
      && o.err == Some(ReadError(c))
      && o.log.calls == st.log.calls + pre
      && st.log.written <= o.log.written
      && o.total == st.total + |o.log.written| - |st.log.written|
    decreases pre
  {
    if pre == 0 {
      assert Read(src, 8 - st.offset).status == Failed(c);
    } else {
      assert src.plan[0].Short?;
      var r := Read(src, 8 - st.offset);
      assert r.status == Ok;
      var st' := RunOnce(v, src, sink, st);
      forall j | 0 <= j < pre - 1 ensures r.next.plan[j].Short? {
        assert r.next.plan[j] == src.plan[j + 1];
      }
      ReadErrorReturned(v, r.next, sink, st', pre - 1, c);
    }
  }

  /** With the input exhausted and nothing carried, the loop returns what it
      has: the count, no error. */
  lemma RunAtEnd(v: Variant, sink: Sink, st: State)
    requires Valid(st) && st.offset == 0
    ensures Run(v, Source([], []), sink, st) == Outcome(st.total, None, st.log, st.done)
  {
    assert Read(Source([], []), 8).status == Eof;
    assert Consumed(st) + [] == st.done;
  }

  /** What one turn ends in: the invariant for the next read, or a write
      error with a sound outcome. */
  predicate Kept(v: Variant, sink: Sink, st: State, data: seq<bv8>, rest: seq<bv8>, n: Next)
    requires Valid(st)
  {
    match n
    case Continue(st') => Inv(v, st', rest) && Consumed(st') == Consumed(st) + data
    case Stop(o) => Sound(o) && o.err == Some(WriteError) && sink.failAt == Some(st.log.calls)
                    && o.log == st.log && o.consumed == Consumed(st) + data
  }

  /** One turn keeps the invariant. For the as-written loop the read must
      have been a full one: it filled the buffer or exhausted the input. */
  lemma CycleKeepsInv(v: Variant, sink: Sink, st: State, data: seq<bv8>, rest: seq<bv8>)
    requires Inv(v, st, data + rest) && st.offset + |data| <= 8 && FullRead(v, st, data, rest)
    ensures Kept(v, sink, st, data, rest, Cycle(v, sink, st, data))
  {
    var s := Step(v, Fill(st.bb, st.offset, data), st.offset + |data|);
    TurnWrites(v, st, data);
    EmitKeepsInv(v, sink, st, data, s, rest);
  }

  lemma EmitKeepsInv(v: Variant, sink: Sink, st: State, data: seq<bv8>, s: StepResult, rest: seq<bv8>)
    requires Inv(v, st, data + rest) && st.offset + |data| <= 8 && FullRead(v, st, data, rest)
    requires Turned(v, st.bb[..st.offset] + data, s)
    ensures Kept(v, sink, st, data, rest, Emit(sink, st, data, s))
  {
    if sink.failAt == Some(st.log.calls) {
      EmitStopKept(v, sink, st, data, s, rest);
    } else if s.carry {
      EmitCarryKept(v, sink, st, data, s, rest);
    } else {
      EmitPlainKept(v, sink, st, data, s, rest);
    }
  }

  /** A failing write: the outcome is the count so far, and sound. */
  lemma EmitStopKept(v: Variant, sink: Sink, st: State, data: seq<bv8>, s: StepResult, rest: seq<bv8>)
    requires Inv(v, st, data + rest) && st.offset + |data| <= 8 && |s.word| == 8 && 0 <= s.len <= 8
    requires sink.failAt == Some(st.log.calls)
    ensures Kept(v, sink, st, data, rest, Emit(sink, st, data, s))
  {
    var pending := st.bb[..st.offset];
    assert pending == [] || pending == [CR];
    WrittenStaysPrefix(st.done, pending, data);
  }

  /** A turn that carries a CR: the part before it is written, the CR is
      handed on in the seed. */
  lemma EmitCarryKept(v: Variant, sink: Sink, st: State, data: seq<bv8>, s: StepResult, rest: seq<bv8>)
    requires Inv(v, st, data + rest) && st.offset + |data| <= 8
    requires Turned(v, st.bb[..st.offset] + data, s) && s.carry
    requires sink.failAt != Some(st.log.calls)
    ensures Kept(v, sink, st, data, rest, Emit(sink, st, data, s))
  {
    var pending := st.bb[..st.offset];
    assert pending == [] || pending == [CR];
    EmitContinues(sink, st, data, s);
    AppendPart(st.done, pending, data, s.carry);
    CarriedSplit(st.done, pending + data);
  }

  /** A turn that carries nothing: the whole chunk is written collapsed. */
  lemma EmitPlainKept(v: Variant, sink: Sink, st: State, data: seq<bv8>, s: StepResult, rest: seq<bv8>)
    requires Inv(v, st, data + rest) && st.offset + |data| <= 8 && FullRead(v, st, data, rest)
    requires Turned(v, st.bb[..st.offset] + data, s) && !s.carry
    requires sink.failAt != Some(st.log.calls)
    ensures Kept(v, sink, st, data, rest, Emit(sink, st, data, s))
  {
    var pending := st.bb[..st.offset];
    var chunk := pending + data;
    assert pending == [] || pending == [CR];
    EmitContinues(sink, st, data, s);
    AppendPart(st.done, pending, data, s.carry);
    assert Consumed(st) + data == st.done + chunk;
    if EndsInCr(st.done + chunk) {
      UncarriedEnd(v, st.done, pending, data, rest);
    }
  }

  /** The final flush keeps the outcome sound, and it is exact when no error
      comes back. */
  lemma FinishSound(v: Variant, sink: Sink, st: State, rest: seq<bv8>)
    requires Inv(v, st, rest)
    ensures var o := Finish(sink, st, []);
      && Sound(o) && o.consumed == Consumed(st)
      && (o.err == None <==> !(st.offset == 1 && sink.failAt == Some(st.log.calls)))
      && (o.err != None ==> o.err == Some(WriteError))
      && (o.err == None ==> o.log.written == Collapse(o.consumed))
  {
    assert Consumed(st) + [] == Consumed(st);
    if st.offset == 1 {
      assert st.bb[..1] == [CR];
      TrailingCrSurvives(st.done);
    } else {
      assert Consumed(st) == st.done;
    }
  }

  /** With a carried CR the written bytes are still a prefix of the collapse
      of everything read. */
  lemma InvSound(v: Variant, st: State, rest: seq<bv8>)
    requires Inv(v, st, rest)
    ensures st.log.written <= Collapse(Consumed(st))
  {
    if st.offset == 1 {
      assert st.bb[..1] == [CR];
      TrailingCrSurvives(st.done);
    } else {
      assert Consumed(st) == st.done;
    }
  }

  // ---------------------------------------------------------------------
  // Whole runs

  /** What a run from a state satisfying the invariant delivers: a sound
      outcome that reads on from where the state stands, and no further
      than the source goes; with no error the
      writer holds exactly the collapse of what was read; write errors only
      from a failing writer and read errors only from a failing reader; and
      with a reader that ends only when it runs dry, all input is read. */
  predicate Good(v: Variant, src: Source, sink: Sink, st: State, o: Outcome)
    requires Valid(st)
  {
    && Sound(o)
    && Consumed(st) <= o.consumed <= Consumed(st) + src.rest
    && (o.err == None ==> o.log.written == Collapse(o.consumed))
    && (o.err == Some(WriteError) ==> sink.failAt == Some(o.log.calls))
    && (o.err.Some? && o.err.value.ReadError? ==> !NoFail(src.plan))
    && (sink.failAt == None && NoFail(src.plan) ==> o.err == None)
    && (OnlyShort(src.plan) && o.err == None ==> o.consumed == Consumed(st) + src.rest)
  }

  /** The main property of the loop, from any state satisfying the invariant.
      The as-written loop is covered for strings.Reader-like sources, whose
      reads are always full; the corrected one for every source. */
  lemma {:induction false} RunSound(v: Variant, src: Source, sink: Sink, st: State)
    requires Inv(v, st, src.rest)
    requires v == AsWritten ==> FullPlan(src.plan)
    ensures Good(v, src, sink, st, Run(v, src, sink, st))
    decreases |src.plan|, |src.rest|, 1
  {
    var r := Read(src, 8 - st.offset);
    match r.status
    case Failed(c) =>
      RunFailedGood(v, src, sink, st);
    case Eof =>
      if v == AsWritten || r.data == [] {
        if v == AsWritten { FullPlanEof(src, 8 - st.offset); }
        RunEofGood(v, src, sink, st);
      } else {
        RunLastGood(v, src, sink, st);
      }
    case Ok =>
      RunOkSound(v, src, sink, st);
  }

  /** A read without error: one turn, then the rest of the run. */
  lemma {:induction false} RunOkSound(v: Variant, src: Source, sink: Sink, st: State)
    requires Inv(v, st, src.rest) && Read(src, 8 - st.offset).status == Ok
    requires v == AsWritten ==> FullPlan(src.plan)
    ensures Good(v, src, sink, st, Run(v, src, sink, st))
    decreases |src.plan|, |src.rest|, 0
  {
    var next := Read(src, 8 - st.offset).next;
    var n := TurnOnce(v, src, sink, st);
    if n.Some? {
      RunSound(v, next, sink, n.value);
      RunOkGood(v, src, next, sink, st, Read(src, 8 - st.offset).data, n.value, Run(v, next, sink, n.value));
    }
  }

  /** One turn after a read without error: either the run ends there with a
      good outcome, or it goes on from a state satisfying the invariant, one
      reply or at least one byte further on, and the read bytes are
      accounted for. */
  lemma TurnOnce(v: Variant, src: Source, sink: Sink, st: State) returns (n: Option<State>)
    requires Inv(v, st, src.rest) && Read(src, 8 - st.offset).status == Ok
    requires v == AsWritten ==> FullPlan(src.plan)
    ensures var r := Read(src, 8 - st.offset);
      && (n.None? ==> Good(v, src, sink, st, Run(v, src, sink, st)))
      && (n.Some? ==> && Inv(v, n.value, r.next.rest)
                      && Run(v, src, sink, st) == Run(v, r.next, sink, n.value)
                      && Consumed(n.value) == Consumed(st) + r.data
                      && src.rest == r.data + r.next.rest
                      && (|r.next.plan| < |src.plan| || (r.next.plan == src.plan && |r.next.rest| < |src.rest|))
                      && (v == AsWritten ==> FullPlan(r.next.plan)))
  {
    var r := Read(src, 8 - st.offset);
    if v == AsWritten {
      PlainReadIsFull(v, src, st);
      if src.plan != [] {
        PlanTail(src.plan);
      }
    }
    match Cycle(v, sink, st, r.data)
    case Stop(o) =>
      TurnStops(v, src, sink, st);
      n := None;
    case Continue(st') =>
      TurnGoesOn(v, src, sink, st, st');
      RunGoesOn(v, src, sink, st, st');
      ReadShrinks(src, 8 - st.offset);
      n := Some(st');
  }

  /** A read without error, and the following write fails. */
  lemma TurnStops(v: Variant, src: Source, sink: Sink, st: State)
    requires Inv(v, st, src.rest) && Read(src, 8 - st.offset).status == Ok
    requires FullRead(v, st, Read(src, 8 - st.offset).data, Read(src, 8 - st.offset).next.rest)
    requires Cycle(v, sink, st, Read(src, 8 - st.offset).data).Stop?
    ensures Good(v, src, sink, st, Run(v, src, sink, st))
  {
    var r := Read(src, 8 - st.offset);
    CycleKeepsInv(v, sink, st, r.data, r.next.rest);
    RunStopsAt(v, src, sink, st);
    StopGood(v, src, sink, st, r.data, Cycle(v, sink, st, r.data).out);
  }

  /** A read without error, and the following write succeeds. */
  lemma TurnGoesOn(v: Variant, src: Source, sink: Sink, st: State, st': State)
    requires Inv(v, st, src.rest) && Read(src, 8 - st.offset).status == Ok
    requires FullRead(v, st, Read(src, 8 - st.offset).data, Read(src, 8 - st.offset).next.rest)
    requires Cycle(v, sink, st, Read(src, 8 - st.offset).data) == Continue(st')
    ensures var r := Read(src, 8 - st.offset);
      && Inv(v, st', r.next.rest)
      && Consumed(st') == Consumed(st) + r.data
  {
    var r := Read(src, 8 - st.offset);
    CycleKeepsInv(v, sink, st, r.data, r.next.rest);
  }

  /** After a read without error the loop turns once and resumes. */
  lemma RunTurns(v: Variant, src: Source, sink: Sink, st: State)
    requires Valid(st) && Read(src, 8 - st.offset).status == Ok
    ensures var r := Read(src, 8 - st.offset);
      Run(v, src, sink, st) == Resume(v, r.next, sink, Cycle(v, sink, st, r.data))
  {
    var r := Read(src, 8 - st.offset);
    assert r.status == Ok;
  }

  /** A failed write ends the run with its outcome ... */
  lemma RunStopsAt(v: Variant, src: Source, sink: Sink, st: State)
    requires Valid(st) && Read(src, 8 - st.offset).status == Ok
    requires Cycle(v, sink, st, Read(src, 8 - st.offset).data).Stop?
    ensures Run(v, src, sink, st) == Cycle(v, sink, st, Read(src, 8 - st.offset).data).out
  {
    RunTurns(v, src, sink, st);
  }

  /** ... and a successful one goes on from the next state. */
  lemma RunGoesOn(v: Variant, src: Source, sink: Sink, st: State, st': State)
    requires Valid(st) && Read(src, 8 - st.offset).status == Ok
    requires Cycle(v, sink, st, Read(src, 8 - st.offset).data) == Continue(st')
    ensures Run(v, src, sink, st) == Run(v, Read(src, 8 - st.offset).next, sink, st')
  {
    RunTurns(v, src, sink, st);
  }

  /** A read without error uses up a reply of the plan or, from a plain
      source, at least one byte. */
  lemma ReadShrinks(src: Source, want: nat)
    requires want > 0 && Read(src, want).status == Ok
    ensures var r := Read(src, want);
      && src.rest == r.data + r.next.rest
      && (|r.next.plan| < |src.plan| || (r.next.plan == src.plan && |r.next.rest| < |src.rest|))
      && (src.plan == [] ==> r.next.plan == [])
  {
  }

  /** The plan's tail keeps the properties of the whole plan. */
  lemma PlanTail(plan: seq<Reply>)
    requires plan != []
    ensures NoFail(plan) ==> !plan[0].Fail? && NoFail(plan[1..])
    ensures OnlyShort(plan) ==> plan[0].Short? && OnlyShort(plan[1..])
    ensures FullPlan(plan) ==> FullPlan(plan[1..])
  {
  }

  /** A read without error from a reader that fills the buffer is a full
      one. */
  lemma PlainReadIsFull(v: Variant, src: Source, st: State)
    requires Valid(st) && FullPlan(src.plan) && Read(src, 8 - st.offset).status == Ok
    ensures var r := Read(src, 8 - st.offset);
      FullRead(v, st, r.data, r.next.rest)
  {
  }

  /** A reader that fills the buffer meets io.EOF only once the input is
      used up, so the end-of-file read brings no bytes. */
  lemma FullPlanEof(src: Source, want: nat)
    requires FullPlan(src.plan) && Read(src, want).status == Eof
    ensures Read(src, want).data == []
  {
  }

  /** A failed read returns the count so far with the reader's error. */
  lemma RunFailedGood(v: Variant, src: Source, sink: Sink, st: State)
    requires Inv(v, st, src.rest)
    requires Read(src, 8 - st.offset).status.Failed?
    ensures Good(v, src, sink, st, Run(v, src, sink, st))
  {
    InvSound(v, st, src.rest);
  }

  /** io.EOF with nothing to transcode: the final flush. */
  lemma RunEofGood(v: Variant, src: Source, sink: Sink, st: State)
    requires Inv(v, st, src.rest)
    requires var r := Read(src, 8 - st.offset); r.status == Eof && r.data == []
    ensures Good(v, src, sink, st, Run(v, src, sink, st))
  {
    assert Run(v, src, sink, st) == Finish(sink, st, []);
    FinishSound(v, sink, st, src.rest);
    PrefixExtend(Consumed(st), [], src.rest);
    assert Consumed(st) + [] == Consumed(st);
    if src.plan != [] {
      PlanTail(src.plan);
      assert !OnlyShort(src.plan);
    } else {
      assert src.rest == [];
    }
  }

  /** io.EOF together with bytes, in the corrected loop: one more turn, then
      the final flush. */
  lemma RunLastGood(v: Variant, src: Source, sink: Sink, st: State)
    requires Inv(v, st, src.rest) && v == Corrected
    requires var r := Read(src, 8 - st.offset); r.status == Eof && r.data != []
    ensures Good(v, src, sink, st, Run(v, src, sink, st))
  {
    var r := Read(src, 8 - st.offset);
    assert src.rest == r.data + r.next.rest;
    CycleKeepsInv(v, sink, st, r.data, r.next.rest);
    if src.plan != [] {
      PlanTail(src.plan);
    }
    PrefixExtend(Consumed(st), r.data, src.rest);
    match Cycle(v, sink, st, r.data)
    case Stop(o) =>
    case Continue(st') =>
      FinishSound(v, sink, st', r.next.rest);
  }

  /** A write error in a turn ends the run soundly. */
  lemma StopGood(v: Variant, src: Source, sink: Sink, st: State, data: seq<bv8>, o: Outcome)
    requires Valid(st) && st.offset + |data| <= 8 && data <= src.rest
    requires Kept(v, sink, st, data, src.rest, Stop(o))
    ensures Good(v, src, sink, st, o)
  {
    PrefixExtend(Consumed(st), data, src.rest);
  }

  lemma PrefixExtend(a: seq<bv8>, b: seq<bv8>, c: seq<bv8>)
    requires b <= c
    ensures a + b <= a + c
  {
    assert (a + c)[..|a + b|] == a + b;
  }

  /** A successful turn followed by a good run of the rest is a good run. */
  lemma RunOkGood(v: Variant, src: Source, next: Source, sink: Sink, st: State, data: seq<bv8>,
                  st': State, o: Outcome)
    requires Valid(st) && Valid(st')
    requires src.rest == data + next.rest
    requires next.plan == if src.plan == [] then [] else src.plan[1..]
    requires Consumed(st') == Consumed(st) + data
    requires Good(v, next, sink, st', o)
    ensures Good(v, src, sink, st, o)
  {
    if src.plan != [] {
      PlanTail(src.plan);
    }
    assert Consumed(st') + next.rest == Consumed(st) + src.rest;
  }
}
