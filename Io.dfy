/**
 * The endpoints a forwarder talks to: the child's output pipe it reads from,
 * the buffered writer it writes to, and the channel that carries its exit
 * code.  The operating system is not modelled: what each read, write and
 * flush returns is given in advance as a script.
 */
module Io {

  /** The error kinds the forwarder tells apart; `Other` stands for every remaining kind. */
  datatype ErrorKind = Interrupted | UnexpectedEof | BrokenPipe | Other

  /** The result of one write or flush call on the sink. */
  datatype IoResult = Ok | Err(kind: ErrorKind)

  /** The process exit code a forwarder reports. */
  datatype ExitCode = Success | Failure

  // ---------------------------------------------------------------------
  // Source
  // ---------------------------------------------------------------------

  /** What the source has in store: bytes that are ready, or an error for one read. */
  datatype ReadEvent = Bytes(data: seq<bv8>) | Fails(kind: ErrorKind)

  /** The result of one read: a byte count (0 means end of stream) or an error. */
  datatype ReadOutcome = ReadOk(count: nat) | ReadErr(kind: ErrorKind)

  /** One read: its outcome, the bytes it delivered and what the source still has in store. */
  datatype ReadStep = ReadStep(outcome: ReadOutcome, chunk: seq<bv8>, rest: seq<ReadEvent>)

  /** All the bytes the source has in store, in order. */
  function Data(pending: seq<ReadEvent>): seq<bv8>
    decreases |pending|
  {
    if pending == [] then []
    else (match pending[0] case Bytes(d) => d case Fails(_) => []) + Data(pending[1..])
  }

  /** A measure that every read except one reporting end of stream makes smaller. */
  function Size(pending: seq<ReadEvent>): nat
    decreases |pending|
  {
    if pending == [] then 0
    else (match pending[0] case Bytes(d) => 1 + |d| case Fails(_) => 1) + Size(pending[1..])
  }

  /** Ready bytes `d` that do not fit a buffer of `cap` bytes: the first `cap` are read, the rest stay ready. */
  lemma {:induction false} DataSplit(d: seq<bv8>, cap: nat, tail: seq<ReadEvent>)
    requires cap < |d|
    ensures Data([Bytes(d)] + tail) == d[..cap] + Data([Bytes(d[cap..])] + tail)
    ensures 0 < cap ==> Size([Bytes(d[cap..])] + tail) < Size([Bytes(d)] + tail)
  {
    assert ([Bytes(d[cap..])] + tail)[1..] == tail;
    assert ([Bytes(d)] + tail)[1..] == tail;
    assert Data([Bytes(d)] + tail) == d + Data(tail);
    assert Data([Bytes(d[cap..])] + tail) == d[cap..] + Data(tail);
    assert d == d[..cap] + d[cap..];
    assert d + Data(tail) == d[..cap] + (d[cap..] + Data(tail));
    assert Size([Bytes(d)] + tail) == 1 + |d| + Size(tail);
    assert Size([Bytes(d[cap..])] + tail) == 1 + |d[cap..]| + Size(tail);
  }

  /**
   * A read into a buffer of `cap` bytes.  An empty script, like ready bytes
   * of length zero, reads as end of stream; ready bytes that do not fit the
   * buffer are delivered in part and the remainder stays ready.
   */
  function NextRead(pending: seq<ReadEvent>, cap: nat): (r: ReadStep)
    ensures r.outcome.ReadOk? ==> r.outcome.count == |r.chunk| <= cap
    ensures r.outcome.ReadErr? ==> r.chunk == [] && pending != [] && pending[0] == Fails(r.outcome.kind)
    ensures Data(pending) == r.chunk + Data(r.rest)
    ensures r.outcome != ReadOk(0) ==> Size(r.rest) < Size(pending)
    ensures pending != [] && pending[0].Bytes? && 0 < |pending[0].data| <= cap ==>
              r.outcome == ReadOk(|pending[0].data|) && r.chunk == pending[0].data && r.rest == pending[1..]
  {
    if pending == [] then ReadStep(ReadOk(0), [], [])
    else
      match pending[0]
      case Fails(k) => ReadStep(ReadErr(k), [], pending[1..])
      case Bytes(d) =>
        if |d| <= cap then ReadStep(ReadOk(|d|), d, pending[1..])
        else
          assert pending == [Bytes(d)] + pending[1..];
          DataSplit(d, cap, pending[1..]);
          ReadStep(ReadOk(cap), d[..cap], [Bytes(d[cap..])] + pending[1..])
  }

  /** The child's output pipe, as a script of what successive reads find. */
  class Source {
    var pending: seq<ReadEvent>

    constructor (script: seq<ReadEvent>)
      ensures pending == script
    {
      pending := script;
    }

    /** Reads into `buf`, filling its first `count` bytes on success. */
    method Read(buf: array<bv8>) returns (r: ReadOutcome)
      modifies this, buf
      ensures var step := NextRead(old(pending), buf.Length);
        && r == step.outcome
        && pending == step.rest
        && (r.ReadOk? ==> buf[..r.count] == step.chunk && buf[r.count..] == old(buf[r.count..]))
        && (r.ReadErr? ==> buf[..] == old(buf[..]))
    {
      var step := NextRead(pending, buf.Length);
      var chunk := step.chunk;
      if step.outcome.ReadOk? {
        for j := 0 to |chunk|
          invariant buf[..j] == chunk[..j]
          invariant buf[|chunk|..] == old(buf[|chunk|..])
        {
          buf[j] := chunk[j];
        }
      }
      pending := step.rest;
      r := step.outcome;
    }
  }

  // ---------------------------------------------------------------------
  // Sink
  // ---------------------------------------------------------------------

  /** One call the forwarder makes on its sink. */
  datatype Call = WriteCall(b: bv8) | FlushCall

  /**
   * What the sink holds: the bytes it accepted, how many of them have been
   * flushed through to the destination, and the results of its later calls.
   */
  datatype SinkState = SinkState(written: seq<bv8>, flushed: nat, outcomes: seq<IoResult>)

  /** The result of the next call; when the script runs out, every call succeeds. */
  function NextOutcome(outcomes: seq<IoResult>): IoResult
  {
    if outcomes == [] then Ok else outcomes[0]
  }

  /** The script after one call. */
  function LaterOutcomes(outcomes: seq<IoResult>): seq<IoResult>
  {
    if outcomes == [] then [] else outcomes[1..]
  }

  /** The result of call number `j` from now. */
  function OutcomeAt(outcomes: seq<IoResult>, j: nat): IoResult
  {
    if j < |outcomes| then outcomes[j] else Ok
  }

  /** The script after `n` calls. */
  function DropOutcomes(outcomes: seq<IoResult>, n: nat): seq<IoResult>
  {
    if n <= |outcomes| then outcomes[n..] else []
  }

  /** After one call, the script seen from the next call is the old one shifted by one. */
  lemma LaterShift(outcomes: seq<IoResult>, j: nat)
    ensures OutcomeAt(LaterOutcomes(outcomes), j) == OutcomeAt(outcomes, j + 1)
    ensures DropOutcomes(LaterOutcomes(outcomes), j) == DropOutcomes(outcomes, j + 1)
    ensures NextOutcome(outcomes) == OutcomeAt(outcomes, 0)
  {
  }

  /**
   * One call on the sink.  A write of one byte either appends it or fails
   * and appends nothing; a flush that succeeds makes everything accepted so
   * far flushed.
   */
  function Apply(st: SinkState, c: Call): (r: (IoResult, SinkState))
    ensures r.0 == NextOutcome(st.outcomes) && r.1.outcomes == LaterOutcomes(st.outcomes)
    ensures r.0.Err? ==> r.1.written == st.written && r.1.flushed == st.flushed
    ensures r.0.Ok? && c.WriteCall? ==> r.1.written == st.written + [c.b] && r.1.flushed == st.flushed
    ensures r.0.Ok? && c.FlushCall? ==> r.1.written == st.written && r.1.flushed == |st.written|
  {
    var r := NextOutcome(st.outcomes);
    var outs := LaterOutcomes(st.outcomes);
    match c
    case WriteCall(b) =>
      (r, SinkState(if r.Ok? then st.written + [b] else st.written, st.flushed, outs))
    case FlushCall =>
      (r, SinkState(st.written, if r.Ok? then |st.written| else st.flushed, outs))
  }

  /** The buffered writer over the process's own output or error stream. */
  class Sink {
    var written: seq<bv8>
    var flushed: nat
    var outcomes: seq<IoResult>

    function State(): SinkState
      reads this
    {
      SinkState(written, flushed, outcomes)
    }

    constructor (script: seq<IoResult>)
      ensures written == [] && flushed == 0 && outcomes == script
    {
      written, flushed, outcomes := [], 0, script;
    }

    method Write(b: bv8) returns (r: IoResult)
      modifies this
      ensures (r, State()) == Apply(old(State()), WriteCall(b))
      ensures r == NextOutcome(old(outcomes)) && outcomes == LaterOutcomes(old(outcomes))
      ensures written == (if r.Ok? then old(written) + [b] else old(written)) && flushed == old(flushed)
    {
      r := NextOutcome(outcomes);
      if r.Ok? {
        written := written + [b];
      }
      outcomes := LaterOutcomes(outcomes);
    }

    method Flush() returns (r: IoResult)
      modifies this
      ensures (r, State()) == Apply(old(State()), FlushCall)
      ensures r == NextOutcome(old(outcomes)) && outcomes == LaterOutcomes(old(outcomes))
      ensures written == old(written) && flushed == (if r.Ok? then |written| else old(flushed))
    {
      r := NextOutcome(outcomes);
      if r.Ok? {
        flushed := |written|;
      }
      outcomes := LaterOutcomes(outcomes);
    }
  }

  // ---------------------------------------------------------------------
  // Exit channel
  // ---------------------------------------------------------------------

  /** The sending end of the exit channel: the codes sent on it, in order. */
  class Channel {
    var sent: seq<ExitCode>

    constructor ()
      ensures sent == []
    {
      sent := [];
    }

    method Send(code: ExitCode)
      modifies this
      ensures sent == old(sent) + [code]
    {
      sent := sent + [code];
    }
  }
}
