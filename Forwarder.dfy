/**
 * The body of the forwarder thread of crlfify-stdio: read a chunk of at most
 * 1024 bytes, write it to the sink byte by byte with a carriage return
 * inserted before every lone line feed, flush after every byte, and stop
 * with one exit code on end of stream or on the first error that is not an
 * interrupted read.  After the loop the sink gets one last flush whose
 * result is ignored, and the exit code is sent once.
 *
 * The specification is given by functions: `Plan` lists the sink calls a
 * chunk needs, `Exec` performs calls until the first failing one, and `Run`
 * is the whole read loop.  `ForwardStream` is the loop itself, proved to
 * behave as `Run` says.
 */
module Forwarder {
  import opened Crlf
  import opened Io

  /** The length of the read buffer. */
  const BufferSize: nat := 1024

  // ---------------------------------------------------------------------
  // Sink calls made for a chunk
  // ---------------------------------------------------------------------

  /** The calls made for byte `b` when `prev` came before it in the chunk. */
  function ByteCalls(prev: Option<bv8>, b: bv8): (r: seq<Call>)
    ensures |r| == |Expand(prev, b)| + 1
    ensures r[|r| - 2] == WriteCall(b) && r[|r| - 1] == FlushCall
    ensures NeedsCr(prev, b) ==> r[0] == WriteCall(CR)
  {
    (if NeedsCr(prev, b) then [WriteCall(CR)] else []) + [WriteCall(b), FlushCall]
  }

  /** The calls made for the bytes `s` of a chunk, `prev` being the byte before them. */
  function PlanFrom(prev: Option<bv8>, s: seq<bv8>): seq<Call>
    decreases |s|
  {
    if s == [] then [] else ByteCalls(prev, s[0]) + PlanFrom(Some(s[0]), s[1..])
  }

  /** The calls made for one chunk. */
  function Plan(chunk: seq<bv8>): (r: seq<Call>)
    ensures r == [] <==> chunk == []
  {
    PlanFrom(None, chunk)
  }

  /** The byte a single call writes, if any. */
  function CallWrites(c: Call): seq<bv8>
  {
    match c
    case WriteCall(b) => [b]
    case FlushCall => []
  }

  /** The bytes that the write calls among `calls` write, in order. */
  function Writes(calls: seq<Call>): seq<bv8>
    decreases |calls|
  {
    if calls == [] then [] else CallWrites(calls[0]) + Writes(calls[1..])
  }

  /** The number of flush calls among `calls`. */
  function FlushCount(calls: seq<Call>): nat
    decreases |calls|
  {
    if calls == [] then 0 else (if calls[0] == FlushCall then 1 else 0) + FlushCount(calls[1..])
  }

  // ---------------------------------------------------------------------
  // Performing sink calls
  // ---------------------------------------------------------------------

  /** Whether the forwarder goes on reading, or stops with an exit code. */
  datatype Stop = Continue | Exit(code: ExitCode)

  datatype Progress = Progress(stop: Stop, sink: SinkState)

  /** A failed write or flush: a closed pipe ends the forwarder normally, anything else is a failure. */
  function SinkExit(kind: ErrorKind): (code: ExitCode)
    ensures code == Success <==> kind == BrokenPipe
  {
    if kind == BrokenPipe then Success else Failure
  }

  /** A failed read: an interrupted read is retried (no code), the rest end the forwarder. */
  function ReadExit(kind: ErrorKind): (r: Option<ExitCode>)
    ensures r == None <==> kind == Interrupted
    ensures r == Some(Success) <==> kind == UnexpectedEof || kind == BrokenPipe
    ensures r == Some(Failure) <==> kind == Other
  {
    match kind
    case Interrupted => None
    case UnexpectedEof => Some(Success)
    case BrokenPipe => Some(Success)
    case Other => Some(Failure)
  }

  /** Performs `calls` in order, stopping right after the first one that fails. */
  function Exec(calls: seq<Call>, st: SinkState): Progress
    decreases |calls|
  {
    if calls == [] then Progress(Continue, st)
    else
      var (r, st') := Apply(st, calls[0]);
      if r.Err? then Progress(Exit(SinkExit(r.kind)), st')
      else Exec(calls[1..], st')
  }

  // ---------------------------------------------------------------------
  // The whole read loop
  // ---------------------------------------------------------------------

  /** How the read loop ended: the exit code and the sink before the final flush. */
  datatype End = End(code: ExitCode, sink: SinkState)

  /** The read loop, from a read of `pending` onwards. */
  function Run(pending: seq<ReadEvent>, st: SinkState): End
    decreases Size(pending), 0
  {
    var step := NextRead(pending, BufferSize);
    match step.outcome
    case ReadOk(n) =>
      if n == 0 then End(Success, st) else RunCalls(Plan(step.chunk), step.rest, st)
    case ReadErr(k) =>
      match ReadExit(k)
      case None => Run(step.rest, st)
      case Some(code) => End(code, st)
  }

  /** The read loop with `calls` of the current chunk still to be made. */
  function RunCalls(calls: seq<Call>, pending: seq<ReadEvent>, st: SinkState): End
    decreases Size(pending), 1
  {
    var p := Exec(calls, st);
    if p.stop.Exit? then End(p.stop.code, p.sink) else Run(pending, p.sink)
  }

  // ---------------------------------------------------------------------
  // The forwarder
  // ---------------------------------------------------------------------

  /** Performing `a + b` is performing `a`, then `b` unless `a` stopped. */
  lemma {:induction false} ExecAppend(a: seq<Call>, b: seq<Call>, st: SinkState)
    ensures Exec(a + b, st) == (var p := Exec(a, st); if p.stop.Exit? then p else Exec(b, p.sink))
    decreases |a|
  {
    if a == [] {
      assert a + b == b;
    } else {
      assert (a + b)[0] == a[0] && (a + b)[1..] == a[1..] + b;
      ExecAppend(a[1..], b, Apply(st, a[0]).1);
    }
  }

  // ---------------------------------------------------------------------
  // What a chunk's calls write
  // ---------------------------------------------------------------------

  lemma {:induction false} CallsAppend(a: seq<Call>, b: seq<Call>)
    ensures Writes(a + b) == Writes(a) + Writes(b)
    ensures FlushCount(a + b) == FlushCount(a) + FlushCount(b)
    decreases |a|
  {
    if a == [] {
      assert a + b == b;
    } else {
      assert (a + b)[0] == a[0] && (a + b)[1..] == a[1..] + b;
      CallsAppend(a[1..], b);
    }
  }

  lemma {:induction false} CallsCount(calls: seq<Call>)
    ensures |calls| == |Writes(calls)| + FlushCount(calls)
    decreases |calls|
  {
    if calls != [] {
      CallsCount(calls[1..]);
    }
  }

  lemma ByteCallsWrites(prev: Option<bv8>, b: bv8)
    ensures Writes(ByteCalls(prev, b)) == Expand(prev, b)
    ensures FlushCount(ByteCalls(prev, b)) == 1
  {
    var bc := ByteCalls(prev, b);
    var tail := [WriteCall(b), FlushCall];
    assert tail[1..] == [FlushCall] && [FlushCall][1..] == [];
    assert Writes([FlushCall]) == [] && FlushCount([FlushCall]) == 1;
    assert Writes(tail) == [b] && FlushCount(tail) == 1;
    if NeedsCr(prev, b) {
      assert bc == [WriteCall(CR)] + tail && bc[1..] == tail;
    } else {
      assert bc == tail;
    }
  }

  lemma {:induction false} PlanFromWrites(prev: Option<bv8>, s: seq<bv8>)
    ensures Writes(PlanFrom(prev, s)) == TransformFrom(prev, s)
    ensures FlushCount(PlanFrom(prev, s)) == |s|
    decreases |s|
  {
    if s != [] {
      var bc := ByteCalls(prev, s[0]);
      PlanFromWrites(Some(s[0]), s[1..]);
      CallsAppend(bc, PlanFrom(Some(s[0]), s[1..]));
      ByteCallsWrites(prev, s[0]);
    }
  }

  /**
   * The write calls made for a chunk write exactly the chunk's rewrite, and
   * there is one flush per input byte.
   */
  lemma ChunkPlan(chunk: seq<bv8>)
    ensures Writes(Plan(chunk)) == TransformChunk(chunk)
    ensures FlushCount(Plan(chunk)) == |chunk|
    ensures |Plan(chunk)| == |TransformChunk(chunk)| + |chunk|
  {
    PlanFromWrites(None, chunk);
    CallsCount(Plan(chunk));
  }

  /** Performing the first `n` calls writes the first bytes of what all the calls write. */
  lemma {:induction false} WritesOfPrefix(calls: seq<Call>, n: nat)
    requires n <= |calls|
    ensures Writes(calls[..n]) <= Writes(calls)
  {
    assert calls == calls[..n] + calls[n..];
    CallsAppend(calls[..n], calls[n..]);
  }

  // ---------------------------------------------------------------------
  // Performing calls
  // ---------------------------------------------------------------------

  /** A call that succeeds takes effect, and performing goes on with the next call. */
  lemma ExecStep(calls: seq<Call>, st: SinkState)
    requires calls != [] && NextOutcome(st.outcomes) == Ok
    ensures var st' := Apply(st, calls[0]).1;
      && Exec(calls, st) == Exec(calls[1..], st')
      && st'.written == st.written + CallWrites(calls[0])
      && st'.outcomes == LaterOutcomes(st.outcomes)
  {
  }

  /** The calls after the first see the outcomes after the first. */
  lemma ShiftAhead(outcomes: seq<IoResult>, n: nat)
    requires forall j :: 0 <= j < n + 1 ==> OutcomeAt(outcomes, j) == Ok
    ensures forall j :: 0 <= j < n ==> OutcomeAt(LaterOutcomes(outcomes), j) == Ok
  {
    forall j | 0 <= j < n ensures OutcomeAt(LaterOutcomes(outcomes), j) == Ok {
      LaterShift(outcomes, j);
      assert OutcomeAt(outcomes, j + 1) == Ok;
    }
  }

  lemma SeqAssoc<T>(a: seq<T>, b: seq<T>, c: seq<T>)
    ensures a + (b + c) == (a + b) + c
  {
  }

  /** When none of the calls fails, all of them take effect and the forwarder goes on. */
  lemma {:induction false} ExecNoFailure(calls: seq<Call>, st: SinkState)
    requires forall j :: 0 <= j < |calls| ==> OutcomeAt(st.outcomes, j) == Ok
    ensures var p := Exec(calls, st);
      && p.stop == Continue
      && p.sink.written == st.written + Writes(calls)
      && p.sink.outcomes == DropOutcomes(st.outcomes, |calls|)
    decreases |calls|
  {
    if calls == [] {
      assert st.written + [] == st.written;
    } else {
      var st' := Apply(st, calls[0]).1;
      var rest := calls[1..];
      assert Exec(calls, st) == Exec(rest, st')
          && st'.written == st.written + CallWrites(calls[0])
          && st'.outcomes == LaterOutcomes(st.outcomes) by {
        LaterShift(st.outcomes, 0);
        assert OutcomeAt(st.outcomes, 0) == Ok;
        ExecStep(calls, st);
      }
      ShiftAhead(st.outcomes, |rest|);
      ExecNoFailure(rest, st');
      assert DropOutcomes(st'.outcomes, |rest|) == DropOutcomes(st.outcomes, |calls|) by {
        LaterShift(st.outcomes, |rest|);
      }
      assert Writes(calls) == CallWrites(calls[0]) + Writes(rest);
      SeqAssoc(st.written, CallWrites(calls[0]), Writes(rest));
    }
  }

  /**
   * When call number `n` is the first that fails, the calls before it take
   * effect, nothing after it does, and the exit code is the one that
   * failure calls for: success for a closed pipe, failure otherwise.
   */
  lemma ExecFirstFailure(calls: seq<Call>, st: SinkState, n: nat)
    requires n < |calls|
    requires forall j :: 0 <= j < n ==> OutcomeAt(st.outcomes, j) == Ok
    requires OutcomeAt(st.outcomes, n).Err?
    ensures var p := Exec(calls, st);
      && p.stop == Exit(SinkExit(OutcomeAt(st.outcomes, n).kind))
      && p.sink.written == st.written + Writes(calls[..n])
      && p.sink.outcomes == DropOutcomes(st.outcomes, n + 1)
  {
    var head, tail := calls[..n], calls[n..];
    assert calls == head + tail;
    ExecAppend(head, tail, st);
    ExecNoFailure(head, st);
    var mid := Exec(head, st).sink;
    assert NextOutcome(mid.outcomes) == OutcomeAt(st.outcomes, n);
    assert LaterOutcomes(mid.outcomes) == DropOutcomes(st.outcomes, n + 1);
    assert Exec(tail, mid) == Progress(Exit(SinkExit(OutcomeAt(st.outcomes, n).kind)), Apply(mid, tail[0]).1);
  }

  /** If the inserted carriage return cannot be written, the line feed is not written either. */
  lemma InsertedCrFailure(prev: Option<bv8>, st: SinkState)
    requires prev != Some(CR) && NextOutcome(st.outcomes).Err?
    ensures Exec(ByteCalls(prev, LF), st) ==
      Progress(Exit(SinkExit(NextOutcome(st.outcomes).kind)), SinkState(st.written, st.flushed, LaterOutcomes(st.outcomes)))
  {
    assert ByteCalls(prev, LF)[0] == WriteCall(CR);
  }

  /** Performing a write then a flush, with at most one byte not yet flushed. */
  lemma WriteThenFlush(b: bv8, st: SinkState)
    requires st.flushed <= |st.written| <= st.flushed + 1
    ensures var p := Exec([WriteCall(b), FlushCall], st);
      && p.sink.flushed <= |p.sink.written| <= p.sink.flushed + 2
      && (p.stop == Continue ==> p.sink.flushed == |p.sink.written|)
  {
    var calls := [WriteCall(b), FlushCall];
    assert calls[1..] == [FlushCall] && [FlushCall][1..] == [];
    var st1 := Apply(st, WriteCall(b)).1;
    assert Exec([FlushCall], st1) == (var (r, st2) := Apply(st1, FlushCall); if r.Err? then Progress(Exit(SinkExit(r.kind)), st2) else Progress(Continue, st2));
  }

  lemma ByteCallsFlush(prev: Option<bv8>, b: bv8, st: SinkState)
    requires st.flushed == |st.written|
    ensures var p := Exec(ByteCalls(prev, b), st);
      && p.sink.flushed <= |p.sink.written| <= p.sink.flushed + 2
      && (p.stop == Continue ==> p.sink.flushed == |p.sink.written|)
  {
    var tail := [WriteCall(b), FlushCall];
    if NeedsCr(prev, b) {
      var bc := ByteCalls(prev, b);
      assert bc == [WriteCall(CR)] + tail && bc[1..] == tail;
      var (r, st1) := Apply(st, WriteCall(CR));
      if r.Ok? {
        WriteThenFlush(b, st1);
      }
    } else {
      assert ByteCalls(prev, b) == tail;
      WriteThenFlush(b, st);
    }
  }

  /**
   * Each input byte ends with a flush: when a chunk's calls all succeed,
   * everything written is flushed; when they stop early, at most the two
   * bytes written for the current input byte are not.
   */
  lemma {:induction false} PlanFlushes(prev: Option<bv8>, s: seq<bv8>, st: SinkState)
    requires st.flushed == |st.written|
    ensures var p := Exec(PlanFrom(prev, s), st);
      && p.sink.flushed <= |p.sink.written| <= p.sink.flushed + 2
      && (p.stop == Continue ==> p.sink.flushed == |p.sink.written|)
    decreases |s|
  {
    if s != [] {
      ExecAppend(ByteCalls(prev, s[0]), PlanFrom(Some(s[0]), s[1..]), st);
      ByteCallsFlush(prev, s[0], st);
      var q := Exec(ByteCalls(prev, s[0]), st);
      if q.stop == Continue {
        PlanFlushes(Some(s[0]), s[1..], q.sink);
      }
    }
  }

  /**
   * Writes one byte of a chunk: a carriage return first when the byte is a
   * line feed not preceded by one, then the byte, then a flush.  Stops at
   * the first call that fails, with the exit code that failure calls for.
   */
  method WriteByte(sink: Sink, prev: Option<bv8>, byte: bv8) returns (stop: Stop)
    modifies sink
    ensures Progress(stop, sink.State()) == Exec(ByteCalls(prev, byte), old(sink.State()))
    ensures stop == Continue ==> sink.flushed == |sink.written|
  {
    ghost var st := sink.State();
    ghost var tail := [WriteCall(byte), FlushCall];
    assert tail[0] == WriteCall(byte) && tail[1..] == [FlushCall] && [FlushCall][1..] == [];
    if NeedsCr(prev, byte) {
      assert ByteCalls(prev, byte) == [WriteCall(CR)] + tail;
      var res := sink.Write(CR);
      if res.Err? {
        stop := Exit(SinkExit(res.kind));
        return;
      }
    } else {
      assert ByteCalls(prev, byte) == tail;
    }
    assert Exec(ByteCalls(prev, byte), st) == Exec(tail, sink.State());

    var res := sink.Write(byte);
    if res.Err? {
      stop := Exit(SinkExit(res.kind));
      return;
    }
    assert Exec(ByteCalls(prev, byte), st) == Exec([FlushCall], sink.State());

    res := sink.Flush();
    if res.Err? {
      stop := Exit(SinkExit(res.kind));
      return;
    }
    stop := Continue;
  }

  /**
   * Writes the first `count` bytes of `buf` as one chunk, byte by byte,
   * stopping at the first call that fails.
   */
  method WriteChunk(sink: Sink, buf: array<bv8>, count: nat) returns (stop: Stop)
    requires count <= buf.Length
    requires sink.flushed == |sink.written|
    modifies sink
    ensures Progress(stop, sink.State()) == Exec(Plan(buf[..count]), old(sink.State()))
    ensures stop == Continue ==> sink.flushed == |sink.written|
  {
    ghost var chunk, start := buf[..count], sink.State();
    var prev: Option<bv8> := None;
    for i := 0 to count
      invariant prev == Before(None, chunk, i)
      invariant sink.flushed == |sink.written|
      invariant Exec(Plan(chunk), start) == Exec(PlanFrom(prev, chunk[i..]), sink.State())
    {
      var byte := buf[i];
      ghost var st, later := sink.State(), PlanFrom(Some(byte), chunk[i + 1..]);
      assert chunk[i..] == [byte] + chunk[i + 1..];
      ExecAppend(ByteCalls(prev, byte), later, st);
      stop := WriteByte(sink, prev, byte);
      if stop.Exit? {
        return;
      }
      prev := Some(byte);
    }
    assert chunk[count..] == [];
    stop := Continue;
  }

  /**
   * The forwarder thread's body.  It creates its sink over the given script
   * of write and flush results, forwards `source` to it, flushes it once
   * more, and sends its exit code on `exit`.
   */
  method ForwardStream(source: Source, sinkScript: seq<IoResult>, exit: Channel) returns (sink: Sink, code: ExitCode)
    modifies source, exit
    ensures fresh(sink)
    ensures var e := Run(old(source.pending), SinkState([], 0, sinkScript));
      && code == e.code
      && sink.written == e.sink.written
      && sink.flushed == (if NextOutcome(e.sink.outcomes).Ok? then |e.sink.written| else e.sink.flushed)
      && sink.outcomes == LaterOutcomes(e.sink.outcomes)
    ensures exit.sent == old(exit.sent) + [code]
  {
    sink := new Sink(sinkScript);
    var buf := new bv8[BufferSize];
    ghost var expected := Run(source.pending, sink.State());

    while true
      invariant fresh(sink) && fresh(buf)
      invariant exit.sent == old(exit.sent)
      invariant sink.flushed == |sink.written|
      invariant Run(source.pending, sink.State()) == expected
      decreases Size(source.pending)
    {
      ghost var before := source.pending;
      var r := source.Read(buf);
      var count: nat;
      match r {
        case ReadOk(n) =>
          if n == 0 {
            code := Success;
            break;
          }
          count := n;
        case ReadErr(kind) =>
          if kind == Interrupted {
            continue;
          } else if kind == UnexpectedEof || kind == BrokenPipe {
            code := Success;
            break;
          } else {
            code := Failure;
            break;
          }
      }

      ghost var st := sink.State();
      assert Size(source.pending) < Size(before);
      assert RunCalls(Plan(buf[..count]), source.pending, st) == expected;
      var stop := WriteChunk(sink, buf, count);
      if stop.Exit? {
        code := stop.code;
        break;
      }
    }

    ghost var last := sink.State();
    assert expected == End(code, last);
    var _ := sink.Flush();
    exit.Send(code);
  }

  // ---------------------------------------------------------------------
  // Properties of the read loop
  // ---------------------------------------------------------------------

  /** How each read outcome is handled before anything is written. */
  lemma ReadOutcomes(pending: seq<ReadEvent>, st: SinkState)
    ensures pending == [] ==> Run(pending, st) == End(Success, st)
    ensures pending != [] && pending[0] == Bytes([]) ==> Run(pending, st) == End(Success, st)
    ensures pending != [] && pending[0] == Fails(Interrupted) ==> Run(pending, st) == Run(pending[1..], st)
    ensures pending != [] && pending[0] in {Fails(UnexpectedEof), Fails(BrokenPipe)} ==> Run(pending, st) == End(Success, st)
    ensures pending != [] && pending[0] == Fails(Other) ==> Run(pending, st) == End(Failure, st)
  {
  }

  /** A read that delivers a whole nonempty chunk leads to that chunk's calls. */
  lemma RunOfChunk(pending: seq<ReadEvent>, st: SinkState)
    ensures var step := NextRead(pending, BufferSize);
      step.outcome.ReadOk? && step.outcome.count > 0 ==>
        Run(pending, st) == RunCalls(Plan(step.chunk), step.rest, st)
    ensures pending != [] && pending[0].Bytes? && 0 < |pending[0].data| <= BufferSize ==>
      && Run(pending, st) == RunCalls(Plan(pending[0].data), pending[1..], st)
      && ChunkwiseOutput(pending) == TransformChunk(pending[0].data) + ChunkwiseOutput(pending[1..])
    ensures pending != [] && pending[0].Bytes? && |pending[0].data| > BufferSize ==>
      var d := pending[0].data;
      Run(pending, st) == RunCalls(Plan(d[..BufferSize]), [Bytes(d[BufferSize..])] + pending[1..], st)
  {
  }

  /** A script of reads that each deliver between 1 and 1024 bytes, or are interrupted. */
  predicate CleanScript(pending: seq<ReadEvent>)
  {
    forall i :: 0 <= i < |pending| ==>
      pending[i] == Fails(Interrupted) || (pending[i].Bytes? && 0 < |pending[i].data| <= BufferSize)
  }

  /** The rewrites of the chunks of the script, one chunk at a time, concatenated. */
  function ChunkwiseOutput(pending: seq<ReadEvent>): seq<bv8>
    decreases |pending|
  {
    if pending == [] then []
    else (match pending[0] case Bytes(d) => TransformChunk(d) case Fails(_) => []) + ChunkwiseOutput(pending[1..])
  }

  /** No write or flush fails. */
  predicate AllOk(outcomes: seq<IoResult>)
  {
    forall j :: 0 <= j < |outcomes| ==> outcomes[j] == Ok
  }

  lemma AllOkAhead(outcomes: seq<IoResult>, n: nat)
    requires AllOk(outcomes)
    ensures forall j :: 0 <= j < n ==> OutcomeAt(outcomes, j) == Ok
    ensures AllOk(DropOutcomes(outcomes, n))
  {
    var later := DropOutcomes(outcomes, n);
    forall j | 0 <= j < |later| ensures later[j] == Ok {
      assert later[j] == outcomes[n + j];
    }
  }

  /**
   * With a script of short reads and a sink that never fails, the forwarder
   * ends with success, having written the rewrite of each chunk in turn,
   * all of it flushed.
   */
  lemma {:induction false} RunCleanScript(pending: seq<ReadEvent>, st: SinkState)
    requires CleanScript(pending) && AllOk(st.outcomes) && st.flushed == |st.written|
    ensures var e := Run(pending, st);
      && e.code == Success
      && e.sink.written == st.written + ChunkwiseOutput(pending)
      && e.sink.flushed == |e.sink.written|
    decreases |pending|, 0
  {
    ReadOutcomes(pending, st);
    if pending == [] {
      assert st.written + [] == st.written;
    } else {
      CleanScriptTail(pending);
      if pending[0] == Fails(Interrupted) {
        assert ChunkwiseOutput(pending) == ChunkwiseOutput(pending[1..]);
        RunCleanScript(pending[1..], st);
      } else {
        RunOfChunk(pending, st);
        CleanChunk(pending[0].data, pending[1..], st);
      }
    }
  }

  /** The chunk part of `RunCleanScript`: the chunk's calls, then the rest of the script. */
  lemma {:induction false} CleanChunk(d: seq<bv8>, rest: seq<ReadEvent>, st: SinkState)
    requires CleanScript(rest) && AllOk(st.outcomes) && st.flushed == |st.written|
    ensures var e := RunCalls(Plan(d), rest, st);
      && e.code == Success
      && e.sink.written == st.written + (TransformChunk(d) + ChunkwiseOutput(rest))
      && e.sink.flushed == |e.sink.written|
    decreases |rest|, 1
  {
    var plan := Plan(d);
    AllOkAhead(st.outcomes, |plan|);
    ExecNoFailure(plan, st);
    PlanFlushes(None, d, st);
    ChunkPlan(d);
    var st' := Exec(plan, st).sink;
    assert RunCalls(plan, rest, st) == Run(rest, st');
    RunCleanScript(rest, st');
    SeqAssoc(st.written, TransformChunk(d), ChunkwiseOutput(rest));
  }

  /**
   * A script of short reads followed by a read reporting end of stream, an
   * unexpected end of file, a closed pipe or another error, and then any
   * further events `more`, which are never read: with a sink that never
   * fails, the forwarder has written the rewrite of each chunk in turn, all
   * of it flushed, and ends with failure exactly for the other error.
   */
  lemma {:induction false} RunCleanThenStop(pending: seq<ReadEvent>, last: ReadEvent, more: seq<ReadEvent>, st: SinkState)
    requires CleanScript(pending) && last in {Bytes([]), Fails(UnexpectedEof), Fails(BrokenPipe), Fails(Other)}
    requires AllOk(st.outcomes) && st.flushed == |st.written|
    ensures var e := Run(pending + ([last] + more), st);
      && e.code == (if last == Fails(Other) then Failure else Success)
      && e.sink.written == st.written + ChunkwiseOutput(pending)
      && e.sink.flushed == |e.sink.written|
    decreases |pending|, 0
  {
    var script := pending + ([last] + more);
    ReadOutcomes(script, st);
    if pending == [] {
      assert script == [last] + more && script[0] == last;
      assert st.written + [] == st.written;
    } else {
      assert script[0] == pending[0] && script[1..] == pending[1..] + ([last] + more);
      CleanScriptTail(pending);
      if pending[0] == Fails(Interrupted) {
        assert ChunkwiseOutput(pending) == ChunkwiseOutput(pending[1..]);
        RunCleanThenStop(pending[1..], last, more, st);
      } else {
        RunOfChunk(script, st);
        RunOfChunk(pending, st);
        StopChunk(pending[0].data, pending[1..], last, more, st);
      }
    }
  }

  /** The chunk part of `RunCleanThenStop`. */
  lemma {:induction false} StopChunk(d: seq<bv8>, rest: seq<ReadEvent>, last: ReadEvent, more: seq<ReadEvent>, st: SinkState)
    requires CleanScript(rest) && last in {Bytes([]), Fails(UnexpectedEof), Fails(BrokenPipe), Fails(Other)}
    requires AllOk(st.outcomes) && st.flushed == |st.written|
    ensures var e := RunCalls(Plan(d), rest + ([last] + more), st);
      && e.code == (if last == Fails(Other) then Failure else Success)
      && e.sink.written == st.written + (TransformChunk(d) + ChunkwiseOutput(rest))
      && e.sink.flushed == |e.sink.written|
    decreases |rest|, 1
  {
    var plan := Plan(d);
    AllOkAhead(st.outcomes, |plan|);
    ExecNoFailure(plan, st);
    PlanFlushes(None, d, st);
    ChunkPlan(d);
    var st' := Exec(plan, st).sink;
    assert RunCalls(plan, rest + ([last] + more), st) == Run(rest + ([last] + more), st');
    RunCleanThenStop(rest, last, more, st');
    SeqAssoc(st.written, TransformChunk(d), ChunkwiseOutput(rest));
  }

  /** Some write or flush fails with an error other than a closed pipe. */
  predicate HasHardFailure(outcomes: seq<IoResult>)
  {
    exists j :: 0 <= j < |outcomes| && outcomes[j].Err? && outcomes[j].kind != BrokenPipe
  }

  lemma HardFailureOfLater(outcomes: seq<IoResult>, n: nat)
    requires HasHardFailure(DropOutcomes(outcomes, n))
    ensures HasHardFailure(outcomes)
  {
    var later := DropOutcomes(outcomes, n);
    var j :| 0 <= j < |later| && later[j].Err? && later[j].kind != BrokenPipe;
    assert outcomes[n + j] == later[j];
  }

  lemma CleanScriptTail(pending: seq<ReadEvent>)
    requires pending != [] && CleanScript(pending)
    ensures CleanScript(pending[1..])
    ensures pending[0] == Fails(Interrupted) || (pending[0].Bytes? && 0 < |pending[0].data| <= BufferSize)
  {
    forall i | 0 <= i < |pending[1..]| ensures pending[1..][i] == pending[i + 1] { }
  }

  /**
   * With a script of short reads and any sink results, what the forwarder
   * writes is a prefix of the chunk-by-chunk rewrite, and it only ends with
   * failure when some write or flush fails with an error other than a
   * closed pipe.
   */
  lemma {:induction false} RunWritesPrefix(pending: seq<ReadEvent>, st: SinkState)
    requires CleanScript(pending)
    ensures var e := Run(pending, st);
      && e.sink.written <= st.written + ChunkwiseOutput(pending)
      && (e.code == Failure ==> HasHardFailure(st.outcomes))
    decreases |pending|, 0
  {
    ReadOutcomes(pending, st);
    if pending == [] {
      assert st.written + [] == st.written;
    } else {
      CleanScriptTail(pending);
      if pending[0] == Fails(Interrupted) {
        assert ChunkwiseOutput(pending) == ChunkwiseOutput(pending[1..]);
        RunWritesPrefix(pending[1..], st);
      } else {
        RunOfChunk(pending, st);
        ChunkWritesPrefix(pending[0].data, pending[1..], st);
      }
    }
  }

  lemma {:induction false} ChunkWritesPrefix(d: seq<bv8>, rest: seq<ReadEvent>, st: SinkState)
    requires CleanScript(rest)
    ensures var e := RunCalls(Plan(d), rest, st);
      && e.sink.written <= st.written + (TransformChunk(d) + ChunkwiseOutput(rest))
      && (e.code == Failure ==> HasHardFailure(st.outcomes))
    decreases |rest|, 1
  {
    var plan := Plan(d);
    ChunkPlan(d);
    if n :| 0 <= n < |plan| && OutcomeAt(st.outcomes, n).Err? {
      FirstFailure(st.outcomes, n);
      var m :| 0 <= m <= n && OutcomeAt(st.outcomes, m).Err? && forall j :: 0 <= j < m ==> OutcomeAt(st.outcomes, j) == Ok;
      ChunkStops(d, rest, st, m);
    } else {
      ExecNoFailure(plan, st);
      var st' := Exec(plan, st).sink;
      assert RunCalls(plan, rest, st) == Run(rest, st');
      RunWritesPrefix(rest, st');
      SeqAssoc(st.written, TransformChunk(d), ChunkwiseOutput(rest));
      if RunCalls(plan, rest, st).code == Failure {
        HardFailureOfLater(st.outcomes, |plan|);
      }
    }
  }

  lemma ChunkStops(d: seq<bv8>, rest: seq<ReadEvent>, st: SinkState, m: nat)
    requires m < |Plan(d)|
    requires forall j :: 0 <= j < m ==> OutcomeAt(st.outcomes, j) == Ok
    requires OutcomeAt(st.outcomes, m).Err?
    ensures var e := RunCalls(Plan(d), rest, st);
      && e.sink.written <= st.written + (TransformChunk(d) + ChunkwiseOutput(rest))
      && (e.code == Failure ==> HasHardFailure(st.outcomes))
  {
    var plan := Plan(d);
    ChunkPlan(d);
    ExecFirstFailure(plan, st, m);
    WritesOfPrefix(plan, m);
    var part, whole := Writes(plan[..m]), st.written + (TransformChunk(d) + ChunkwiseOutput(rest));
    assert st.written + part == whole[..|st.written| + |part|];
    assert m < |st.outcomes|;
  }

  /**
   * For any script, when the read loop ends everything written is flushed
   * except at most the bytes written for the input byte being processed.
   */
  lemma {:induction false} RunFlushBound(pending: seq<ReadEvent>, st: SinkState)
    requires st.flushed == |st.written|
    ensures var e := Run(pending, st); e.sink.flushed <= |e.sink.written| <= e.sink.flushed + 2
    decreases Size(pending)
  {
    var step := NextRead(pending, BufferSize);
    match step.outcome
    case ReadOk(n) =>
      if n != 0 {
        PlanFlushes(None, step.chunk, st);
        var p := Exec(Plan(step.chunk), st);
        if p.stop == Continue {
          RunFlushBound(step.rest, p.sink);
        }
      }
    case ReadErr(k) =>
      if k == Interrupted {
        RunFlushBound(step.rest, st);
      }
  }

  /** A failing call has a first failing call at or before it. */
  lemma {:induction false} FirstFailure(outcomes: seq<IoResult>, n: nat)
    requires OutcomeAt(outcomes, n).Err?
    ensures exists m :: 0 <= m <= n && OutcomeAt(outcomes, m).Err? && forall j :: 0 <= j < m ==> OutcomeAt(outcomes, j) == Ok
    decreases n
  {
    if j :| 0 <= j < n && OutcomeAt(outcomes, j).Err? {
      FirstFailure(outcomes, j);
    } else {
      assert forall j :: 0 <= j < n ==> OutcomeAt(outcomes, j) == Ok;
    }
  }

  /**
   * The forwarder as written: a carriage return that ends one read and a
   * line feed that starts the next are written as CR CR LF.
   */
  lemma SplitCrLf()
    ensures Run([Bytes([CR]), Bytes([LF])], SinkState([], 0, [])).sink.written == [CR, CR, LF]
  {
    var script := [Bytes([CR]), Bytes([LF])];
    assert CleanScript(script) by {
      forall i | 0 <= i < |script| ensures script[i].Bytes? && 0 < |script[i].data| <= BufferSize { }
    }
    RunCleanScript(script, SinkState([], 0, []));
    ChunkBoundaryCounterexample();
    assert script[1..] == [Bytes([LF])] && script[1..][1..] == [];
    assert ChunkwiseOutput(script[1..]) == TransformChunk([LF]) + ChunkwiseOutput([]);
    assert ChunkwiseOutput(script) == TransformChunk([CR]) + ChunkwiseOutput(script[1..]);
  }
}
