/** The two io interfaces the transcoder talks to, as values. A Source is the
    remaining input plus a plan of unusual replies; with an empty plan it
    behaves like strings.Reader, which fills as much of the buffer as it can
    and reports io.EOF only once nothing is left. A Sink records what is
    written and fails on a chosen call. */
module Stream {

  datatype Option<T> = None | Some(value: T)

  function Min(a: nat, b: nat): (m: nat)
    ensures m <= a && m <= b && (m == a || m == b)
  {
    if a <= b then a else b
  }

  /** One scripted reply of Read, used before falling back to strings.Reader. */
  datatype Reply =
    | Short(n: nat)    // at most n bytes, no error; n = 0 is an empty read
    | EofWith(n: nat)  // at most n bytes together with io.EOF
    | Fail(code: int)  // no bytes and an error other than io.EOF

  datatype Source = Source(rest: seq<bv8>, plan: seq<Reply>)

  datatype Status = Ok | Eof | Failed(code: int)

  /** The bytes a call of Read delivers, its error, and the source afterwards. */
  datatype ReadResult = ReadResult(data: seq<bv8>, status: Status, next: Source)

  /** io.Reader.Read into a buffer of want bytes. */
  function Read(src: Source, want: nat): (r: ReadResult)
    ensures |r.data| <= want && r.data <= src.rest
    ensures r.next.rest == src.rest[|r.data|..]
    ensures r.status.Failed? ==> r.data == []
    ensures src.plan == [] ==> r.next.plan == [] && (r.status == Eof <==> src.rest == [])
    ensures src.plan == [] && src.rest != [] ==> |r.data| == Min(want, |src.rest|)
    ensures src.plan != [] ==> r.next.plan == src.plan[1..]
    ensures r.status.Failed? <==> src.plan != [] && src.plan[0].Fail?
    ensures src.plan != [] && src.plan[0].Fail? ==> r.status == Failed(src.plan[0].code)
    ensures src.plan != [] ==> (r.status == Eof <==> src.plan[0].EofWith?)
  {
    if src.plan == [] then
      if src.rest == [] then ReadResult([], Eof, src)
      else
        var n := Min(want, |src.rest|);
        ReadResult(src.rest[..n], Ok, Source(src.rest[n..], []))
    else
      var tail := src.plan[1..];
      match src.plan[0]
      case Short(k) =>
        var n := Min(Min(k, want), |src.rest|);
        ReadResult(src.rest[..n], Ok, Source(src.rest[n..], tail))
      case EofWith(k) =>
        var n := Min(Min(k, want), |src.rest|);
        ReadResult(src.rest[..n], Eof, Source(src.rest[n..], tail))
      case Fail(c) =>
        ReadResult([], Failed(c), Source(src.rest, tail))
  }

  /** A writer whose call number failAt (counting from 0) fails; every other
      call accepts all of its bytes. */
  datatype Sink = Sink(failAt: Option<nat>)

  /** The writer's side of a run: the bytes accepted and the calls made. */
  datatype Log = Log(written: seq<bv8>, calls: nat)

  /** io.Writer.Write: the new log, or None when this call fails. A failing
      call records nothing. */
  function Write(sink: Sink, log: Log, data: seq<bv8>): (r: Option<Log>)
    ensures r.None? <==> sink.failAt == Some(log.calls)
    ensures r.Some? ==> r.value == Log(log.written + data, log.calls + 1)
  {
    if sink.failAt == Some(log.calls) then None
    else Some(Log(log.written + data, log.calls + 1))
  }
}
