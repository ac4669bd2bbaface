# crlfify-stdio: the stream forwarder, in Dafny

crlfify-stdio runs a command and relays the command's standard output and
standard error to its own. On the way it rewrites line endings so that
downstream consumers see CRLF. Each stream is copied by a forwarder thread.
The forwarder loops as follows:

- It reads up to 1024 bytes from the child's pipe.
- It writes the chunk to a buffered writer, one byte at a time. When a byte
  is a line feed and the previous byte of the same chunk is not a carriage
  return, it writes a carriage return first.
- It flushes after every input byte.
- It stops with one exit code, SUCCESS or FAILURE, when the stream ends or
  a read, write or flush fails with an error other than an interrupted read.

After the loop it flushes once more, ignores the result of that flush, and
sends the exit code on the exit channel.

This project models that thread body (`src/main.rs`, lines 60-119). It has
three modules:

- `Crlf` (Crlf.dfy) is the pure rewrite of one chunk. `TransformChunk`
  processes bytes exactly as the inner `for` loop does, with `prev` starting
  as `None`.
- `Io` (Io.dfy) holds the endpoints.
  - `Source` is the child's pipe, driven by a script of read events. A read
    that finds more bytes than the buffer holds delivers the first part;
    the rest stays ready.
  - `Sink` is the buffered writer: the bytes it accepted, how many of them
    are flushed, and a script of results for its write and flush calls.
    Once the script runs out, every call succeeds.
  - `Channel` is the sending side of the exit channel.
  - `Apply` is the one definition of what a write or flush call does.
- `Forwarder` (Forwarder.dfy) holds the specification and the loop.
  - `Plan` lists the sink calls a chunk needs. `Exec` performs calls until
    the first one that fails. `Run` is the whole read loop as a function.
  - `ForwardStream` is the imperative loop: a `while` over reads into a
    1024-byte array. For a source given as a finite script of reads, it is
    proved to end in the state `Run` describes.
  - `WriteChunk` is the inner `for` over the bytes of one read, with a
    mutable `prev` that starts as `None`.
  - `WriteByte` is the per-byte body of the inner loop: the optional
    carriage return, the byte, and the flush.

## Chunk boundaries and flushing

`let mut prev = None;` (src/main.rs:82) sits inside the read loop, so the
check on line 84 sees only the bytes of the current read. Suppose one read
ends in a carriage return and the next starts with a line feed. Then a
carriage return is written before that line feed as well, so the output has
CR CR LF. `Crlf.ChunkingChangesOutputIff` states exactly when splitting the
input into reads changes the output. `Forwarder.SplitCrLf` shows the extra
carriage return for the whole loop.

The flush on line 104 runs once per input byte, after the inserted carriage
return (if any) and the byte itself.

## Model

| member | source | states |
|---|---|---|
| `Crlf.NeedsCr` | src/main.rs:84 | definition: a carriage return is written first exactly when the byte is a line feed and the previous byte of the chunk is not a carriage return; `Expand`, `ByteCalls` and `WriteByte` use it |
| `Crlf.Expand` | src/main.rs:84-102 | the bytes written for one input byte: that byte last, preceded by a carriage return exactly when it is a line feed whose previous byte in the chunk is not a carriage return |
| `Crlf.TransformFrom` | src/main.rs:83-113 | definition: the bytes of `s` expanded one by one, with `prev` set to each byte after it is handled (line 113); `TransformSplit`, `StripInsertedFrom`, `InsertedCountFrom`, `FixedPointFrom` and `PrevIrrelevant` are stated over it |
| `Crlf.TransformChunk` | src/main.rs:80-84 | a chunk that starts with a line feed is written starting with CR LF, because `prev` is `None` at the start of every chunk; any other first byte is written unchanged |
| `Crlf.TransformSplit` | src/main.rs:82-113 | rewriting `a + b` equals rewriting `a`, then rewriting `b` with `a`'s last byte as the previous byte (how `prev` is threaded through the inner loop) |
| `Crlf.EveryLfAfterCr` | src/main.rs:84-95 | in the output of one chunk, every line feed comes right after a carriage return |
| `Crlf.TransformLength` | src/main.rs:83-102 | output length equals chunk length plus the number of line feeds not preceded by a carriage return in the chunk |
| `Crlf.StripInserted` | src/main.rs:83-113 | deleting the inserted bytes from the output gives back the chunk exactly, in order; every inserted byte is a carriage return followed by a line feed; a lone carriage return is written unchanged |
| `Crlf.InsertedCount` | src/main.rs:84-93 | exactly one carriage return is inserted per lone line feed |
| `Crlf.FixedPoint` | src/main.rs:84 | the rewrite leaves a chunk unchanged if and only if every line feed in it already follows a carriage return |
| `Crlf.Idempotent` | src/main.rs:84 | rewriting a chunk's output again as one chunk gives the same bytes |
| `Crlf.ChunkingChangesOutputIff` | src/main.rs:64-84 | rewriting two reads one after the other gives different bytes from rewriting them as one read exactly when the first ends in CR and the second starts with LF |
| `Crlf.ChunkBoundaryCounterexample` | src/main.rs:82-84 | reads `\r` then `\n` give CR CR LF, while one read `\r\n` gives CR LF |
| `Crlf.WorkedExample` | src/main.rs:80-113 | the chunk `a\nb\r\nc` is written as `a\r\nb\r\nc` |
| `Io.NextRead` | src/main.rs:62-67 | a successful read delivers at most the buffer's length; no byte is lost or invented; a read error delivers nothing; every read except end of stream makes progress |
| `Io.Source.constructor` | src/main.rs:52 | a source holds exactly the given script of read events |
| `Io.Source.Read` | src/main.rs:65 | a read returns what the source has ready, fills exactly the first `count` bytes of the buffer, and leaves the rest of the buffer untouched |
| `Io.Sink.constructor` | src/main.rs:61 | a new writer holds no bytes and has flushed none |
| `Io.Apply` | src/main.rs:85-111 | one `write_all` or `flush` call: it returns the next scripted result and consumes it; a call that fails changes neither the bytes written nor the flushed count; a successful write appends its byte; a successful flush makes everything written flushed |
| `Io.Sink.Write` | src/main.rs:85-102 | a one-byte write either appends the byte or fails and appends nothing; the flushed count does not change |
| `Io.Sink.Flush` | src/main.rs:104-111 | a flush that succeeds makes everything written so far flushed; one that fails leaves the flushed count unchanged |
| `Io.Channel.constructor` | src/main.rs:42 | a new channel carries no codes |
| `Io.Channel.Send` | src/main.rs:118 | a send appends the code to what the channel carries |
| `Forwarder.ByteCalls` | src/main.rs:84-111 | the calls for one input byte: a carriage return write first when needed, then the byte's write, and a flush last |
| `Forwarder.PlanFrom` | src/main.rs:83-114 | definition: the calls for the bytes of a chunk, byte by byte, with `prev` threaded as line 113 does; `ChunkPlan` and `PlanFlushes` are stated over it |
| `Forwarder.Plan` | src/main.rs:80-114 | the calls for one chunk, with `prev` starting as `None`; an empty chunk needs no calls, and any other chunk needs some |
| `Forwarder.SinkExit` | src/main.rs:86-110 | the code after a failed write or flush is SUCCESS if and only if the error is a broken pipe |
| `Forwarder.ReadExit` | src/main.rs:68-77 | a failed read is retried if and only if it was interrupted; it ends with SUCCESS if and only if the error is an unexpected end of file or a broken pipe, and with FAILURE if and only if it is any other kind |
| `Forwarder.Exec` | src/main.rs:85-111 | definition: the calls are performed in order, and the first failing call stops the loop with `SinkExit` of its error; `ExecAppend`, `ExecNoFailure`, `ExecFirstFailure`, `WriteByte` and `WriteChunk` are stated over it |
| `Forwarder.Run` | src/main.rs:64-115 | definition: the whole read loop, one `NextRead` of at most 1024 bytes at a time, classified by `ReadExit`, a delivered chunk handled by `RunCalls`; `ForwardStream` is proved to end as it says, and `ReadOutcomes`, `RunOfChunk`, `RunCleanScript`, `RunCleanThenStop`, `RunWritesPrefix`, `RunFlushBound` and `SplitCrLf` are stated over it |
| `Forwarder.RunCalls` | src/main.rs:83-115 | definition: the rest of a chunk's calls, then the next read unless a call failed; `RunOfChunk` and an assertion in `ForwardStream`'s loop body are stated over it |
| `Forwarder.ChunkPlan` | src/main.rs:83-114 | the write calls made for a chunk write exactly `TransformChunk` of the chunk, and there is one flush per input byte |
| `Forwarder.ByteCallsWrites` | src/main.rs:84-102 | the calls for one byte write that byte's expansion and flush once |
| `Forwarder.ExecNoFailure` | src/main.rs:85-111 | when no write or flush fails, every call takes effect and the loop goes on |
| `Forwarder.ExecFirstFailure` | src/main.rs:85-111 | when call `n` is the first to fail, the calls before it take effect and none after it do; the exit code is SUCCESS for a broken pipe and FAILURE for any other kind |
| `Forwarder.InsertedCrFailure` | src/main.rs:84-93 | if the inserted carriage return cannot be written, the line feed is not written and the code follows the error kind |
| `Forwarder.PlanFlushes` | src/main.rs:104-113 | once every byte of a chunk has been handled without error, everything written is flushed; if handling stops early, at most the two bytes written for the current input byte are unflushed |
| `Forwarder.WriteByte` | src/main.rs:84-113 | the per-byte body does the optional CR write, the byte write and the flush, stopping at the first failure, as `Exec` of that byte's calls; when it goes on, everything written is flushed |
| `Forwarder.WriteChunk` | src/main.rs:80-114 | the inner loop over one chunk makes exactly the calls of `Plan` for that chunk, with `prev` reset before its first byte, and stops at the first failing call; when it runs to the end, everything written is flushed |
| `Forwarder.ForwardStream` | src/main.rs:60-119 | the thread body ends with the exit code and sink contents that `Run` gives for its read script and sink script; it then makes one last flush, whose result does not affect the code, and sends that code exactly once (log calls are taken to have no effect; see "Left out") |
| `Forwarder.ReadOutcomes` | src/main.rs:65-77 | end of stream ends with SUCCESS; an interrupted read is retried with no output and no code; `UnexpectedEof` and `BrokenPipe` end with SUCCESS; any other read error ends with FAILURE; none of these writes anything |
| `Forwarder.RunOfChunk` | src/main.rs:65-83 | any read that delivers a nonempty chunk (as `NextRead` gives it) leads to that chunk's sink calls, then to the next read of what remains; in particular a next event of 1 to 1024 ready bytes is delivered whole, and a longer one delivers its first 1024 bytes and leaves the rest ready |
| `Forwarder.RunCleanScript` | src/main.rs:64-115 | for reads of 1 to 1024 bytes (or interrupted reads) and a sink that never fails: the loop ends with SUCCESS; it has written the concatenation of `TransformChunk` of each chunk; all of it is flushed |
| `Forwarder.RunCleanThenStop` | src/main.rs:64-115 | for reads of 1 to 1024 bytes (or interrupted reads) followed by a read that returns 0, fails with `UnexpectedEof` or `BrokenPipe`, or fails with another kind, then any further events, which are never read, and a sink that never fails: the loop has written the concatenation of `TransformChunk` of each chunk, all of it flushed, and ends with FAILURE exactly for the other kind, SUCCESS otherwise |
| `Forwarder.RunWritesPrefix` | src/main.rs:64-115 | for reads of 1 to 1024 bytes and any sink results: what is written is a prefix of the chunk-by-chunk rewrite; the loop ends with FAILURE only if some write or flush fails with an error other than a broken pipe |
| `Forwarder.RunFlushBound` | src/main.rs:104-115 | for any read script, when the loop ends, at most the two bytes written for the current input byte are unflushed |
| `Forwarder.SplitCrLf` | src/main.rs:80-84 | reads `\r` then `\n` make the forwarder write CR CR LF |

## Left out

- Thread creation, the `mpsc` channel fan-in and "first signal wins" in `main` (src/main.rs:42-47, 60) are not modelled, because their point is concurrency. `Channel` only records what one forwarder sends.
- Spawning the child and setting up its pipes (src/main.rs:25-40) is operating-system I/O. Argument handling and the usage message (src/main.rs:18-23) are command-line plumbing.
- The `log!` macro (src/main.rs:11-15) and its calls at lines 74, 89, 99 and 108 are not modelled: the model treats every log call as doing nothing. In the source, `log!` is `println!`, which panics when it cannot write to stdout. A panic ends the thread before line 118, so no exit code is sent.
  - In the stdout forwarder, lines 89, 99 and 108 run right after a stdout write or flush failed with an error other than a broken pipe. That `println!` then likely fails as well.
  - Either forwarder's log call panics when stdout is a closed pipe.
  - In the stderr forwarder, `println!` waits for the stdout lock. The stdout forwarder holds that lock for its whole life, because its sink is `io::stdout().lock()` (lines 44 and 61).

  So `ForwardStream`'s "the code is sent exactly once" holds only under this assumption that logging has no effect.
- The internals of `BufWriter` and the locking of stdout/stderr (src/main.rs:61) are not modelled. The sink is the bytes accepted, the count flushed, and a script of call results. A failed one-byte write appends nothing.
- Error kinds are `Interrupted`, `UnexpectedEof`, `BrokenPipe` and `Other`. `Other` stands for every kind the code does not name.
- Sending on the channel always succeeds. The code ignores a send error (src/main.rs:118), so a dropped receiver is not modelled.
- The source is a finite script of read events, and every read except end of stream makes it smaller. So the model does not capture the loop at src/main.rs:64 running forever, on a stream that never ends or on an endless series of interrupted reads (line 69). `Run` and `ForwardStream` always terminate, because their source is finite.
- Forwarder.RunCleanScript: stated only for scripts whose ready data fits the 1024-byte buffer at each read, and that end by running out. A longer run of ready bytes is split by `Io.NextRead` (see `RunOfChunk`); `Run` covers that case. A script that ends on a zero-length read or a read error is covered by `RunCleanThenStop`.
- Forwarder.RunCleanThenStop: stated only for scripts whose ready data fits the 1024-byte buffer at each read before the final read.
- Forwarder.RunWritesPrefix: stated only for scripts whose ready data fits the buffer at each read, and with no read errors other than interrupted ones.
