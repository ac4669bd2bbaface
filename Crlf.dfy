/**
 * The per-chunk newline rewrite of the crlfify-stdio forwarder.
 *
 * Within one chunk, a line feed whose preceding byte in the same chunk is
 * not a carriage return gets a carriage return written before it; every
 * other byte is written unchanged.  The "previous byte" starts out absent
 * at the beginning of every chunk, so a chunk that starts with a line feed
 * always gets a carriage return, even when the previous chunk ended in one.
 */
module Crlf {

  datatype Option<T> = None | Some(value: T)

  const LF: bv8 := 0x0A
  const CR: bv8 := 0x0D

  /**
   * Whether a carriage return is written before `b`: `b` is a line feed and
   * the byte processed before it in the chunk is not a carriage return.
   */
  predicate NeedsCr(prev: Option<bv8>, b: bv8)
  {
    b == LF && prev != Some(CR)
  }

  /** The bytes written for `b`, given the byte processed before it in the chunk. */
  function Expand(prev: Option<bv8>, b: bv8): (r: seq<bv8>)
    ensures 1 <= |r| <= 2 && r[|r| - 1] == b
    ensures |r| == 2 <==> NeedsCr(prev, b)
    ensures |r| == 2 ==> r[0] == CR
  {
    if NeedsCr(prev, b) then [CR, b] else [b]
  }

  /** The rewrite of `s` when the byte before `s` is `prev`, byte by byte as the forwarder's inner loop does. */
  function TransformFrom(prev: Option<bv8>, s: seq<bv8>): seq<bv8>
    decreases |s|
  {
    if s == [] then [] else Expand(prev, s[0]) + TransformFrom(Some(s[0]), s[1..])
  }

  /** The rewrite of one chunk read from the source: `prev` starts as `None`. */
  function TransformChunk(chunk: seq<bv8>): (r: seq<bv8>)
    ensures chunk != [] && chunk[0] == LF ==> |r| >= 2 && r[0] == CR && r[1] == LF
    ensures chunk != [] && chunk[0] != LF ==> |r| >= 1 && r[0] == chunk[0]
  {
    TransformFrom(None, chunk)
  }

  /** The last byte of `s`, or `prev` when `s` is empty. */
  function LastOr(prev: Option<bv8>, s: seq<bv8>): Option<bv8>
  {
    if s == [] then prev else Some(s[|s| - 1])
  }

  /** Position `i` of `c` holds a line feed with no carriage return right before it in `c`. */
  predicate IsLoneLf(c: seq<bv8>, i: nat)
    requires i < |c|
  {
    c[i] == LF && (i == 0 || c[i - 1] != CR)
  }

  /** The number of lone line feeds in `c`, counted over its prefixes. */
  function LoneLfCount(c: seq<bv8>): nat
    decreases |c|
  {
    if c == [] then 0
    else LoneLfCount(c[..|c| - 1]) + (if IsLoneLf(c, |c| - 1) then 1 else 0)
  }

  /** Every line feed in `s` is right after a carriage return. */
  predicate NoLoneLf(s: seq<bv8>)
  {
    forall k :: 0 <= k < |s| && s[k] == LF ==> k > 0 && s[k - 1] == CR
  }

  /** Keeps the bytes of `s` whose mark is false, in order. */
  function Strip(s: seq<bv8>, marks: seq<bool>): seq<bv8>
    requires |marks| == |s|
    decreases |s|
  {
    if s == [] then [] else (if marks[0] then [] else [s[0]]) + Strip(s[1..], marks[1..])
  }

  /** The number of marks that are set. */
  function MarkCount(marks: seq<bool>): nat
    decreases |marks|
  {
    if marks == [] then 0 else (if marks[0] then 1 else 0) + MarkCount(marks[1..])
  }

  /** The marks for one byte: the inserted carriage return, if any, then the byte itself. */
  function ByteMarks(prev: Option<bv8>, b: bv8): seq<bool>
  {
    if NeedsCr(prev, b) then [true, false] else [false]
  }

  /** Marks the carriage returns that the rewrite of `s` (after `prev`) inserts. */
  function InsertedFrom(prev: Option<bv8>, s: seq<bv8>): seq<bool>
    decreases |s|
  {
    if s == [] then []
    else ByteMarks(prev, s[0]) + InsertedFrom(Some(s[0]), s[1..])
  }

  // ---------------------------------------------------------------------
  // Structure of the rewrite
  // ---------------------------------------------------------------------

  /** Rewriting `a + b` is rewriting `a`, then rewriting `b` after `a`'s last byte. */
  lemma {:induction false} TransformSplit(prev: Option<bv8>, a: seq<bv8>, b: seq<bv8>)
    ensures TransformFrom(prev, a + b) == TransformFrom(prev, a) + TransformFrom(LastOr(prev, a), b)
    decreases |a|
  {
    if a == [] {
      assert a + b == b;
    } else {
      assert (a + b)[0] == a[0];
      assert (a + b)[1..] == a[1..] + b;
      TransformSplit(Some(a[0]), a[1..], b);
      assert LastOr(Some(a[0]), a[1..]) == LastOr(prev, a);
    }
  }

  /** Appending one byte to a chunk appends that byte's expansion to the rewrite. */
  lemma TransformSnoc(c: seq<bv8>, b: bv8)
    ensures TransformChunk(c + [b]) == TransformChunk(c) + Expand(LastOr(None, c), b)
  {
    TransformSplit(None, c, [b]);
    assert TransformFrom(LastOr(None, c), [b]) == Expand(LastOr(None, c), b) + TransformFrom(Some(b), []);
  }

  // ---------------------------------------------------------------------
  // Properties of one chunk's output
  // ---------------------------------------------------------------------

  /** The byte before position `k` of `s`, where `prev` comes before `s`. */
  function Before(prev: Option<bv8>, s: seq<bv8>, k: nat): Option<bv8>
    requires k <= |s|
  {
    if k == 0 then prev else Some(s[k - 1])
  }

  /** Every line feed of `s` comes right after a carriage return, `prev` counting as the byte before `s`. */
  predicate LfsCovered(prev: Option<bv8>, s: seq<bv8>)
  {
    forall k :: 0 <= k < |s| && s[k] == LF ==> Before(prev, s, k) == Some(CR)
  }

  lemma {:induction false} EveryLfAfterCrFrom(prev: Option<bv8>, s: seq<bv8>)
    ensures LfsCovered(prev, TransformFrom(prev, s))
    decreases |s|
  {
    if s != [] {
      EveryLfAfterCrFrom(Some(s[0]), s[1..]);
      var e, t := Expand(prev, s[0]), TransformFrom(Some(s[0]), s[1..]);
      assert TransformFrom(prev, s) == e + t;
      forall k | 0 <= k < |e + t| && (e + t)[k] == LF
        ensures Before(prev, e + t, k) == Some(CR)
      {
        if k < |e| {
          assert (e + t)[k] == e[k];
          if |e| == 2 {
            assert e == [CR, s[0]];
            assert k == 1 && (e + t)[0] == CR;
          } else {
            assert e == [s[0]] && k == 0;
          }
        } else {
          assert t[k - |e|] == LF;
          assert Before(Some(s[0]), t, k - |e|) == Some(CR);
          if k - |e| == 0 {
            assert (e + t)[k - 1] == e[|e| - 1] == s[0];
          } else {
            assert (e + t)[k - 1] == t[k - |e| - 1];
          }
        }
      }
    }
  }

  /** Within the output of one chunk, every line feed is immediately preceded by a carriage return. */
  lemma EveryLfAfterCr(chunk: seq<bv8>)
    ensures NoLoneLf(TransformChunk(chunk))
  {
    EveryLfAfterCrFrom(None, chunk);
    var r := TransformChunk(chunk);
    forall k | 0 <= k < |r| && r[k] == LF ensures k > 0 && r[k - 1] == CR {
      assert Before(None, r, k) == Some(CR);
    }
  }

  /** The output of a chunk is the chunk plus one byte per lone line feed. */
  lemma {:induction false} TransformLength(chunk: seq<bv8>)
    ensures |TransformChunk(chunk)| == |chunk| + LoneLfCount(chunk)
    decreases |chunk|
  {
    if chunk != [] {
      var c, b := chunk[..|chunk| - 1], chunk[|chunk| - 1];
      assert chunk == c + [b];
      TransformLength(c);
      TransformSnoc(c, b);
      assert IsLoneLf(chunk, |chunk| - 1) <==> b == LF && LastOr(None, c) != Some(CR);
    }
  }

  lemma InsertedFromStep(prev: Option<bv8>, s: seq<bv8>)
    requires s != []
    ensures TransformFrom(prev, s) == Expand(prev, s[0]) + TransformFrom(Some(s[0]), s[1..])
    ensures InsertedFrom(prev, s) == ByteMarks(prev, s[0]) + InsertedFrom(Some(s[0]), s[1..])
    ensures |ByteMarks(prev, s[0])| == |Expand(prev, s[0])|
    ensures Strip(Expand(prev, s[0]), ByteMarks(prev, s[0])) == [s[0]]
  {
    var e, me := Expand(prev, s[0]), ByteMarks(prev, s[0]);
    if |e| == 2 {
      assert e[1..] == [s[0]] && me[1..] == [false];
      assert Strip(e, me) == Strip([s[0]], [false]) == [s[0]];
    } else {
      assert Strip(e, me) == [s[0]];
    }
  }

  /** Marks and output have the same length, and deleting the marked bytes gives back the input. */
  lemma {:induction false} StripInsertedFromInput(prev: Option<bv8>, s: seq<bv8>)
    ensures |InsertedFrom(prev, s)| == |TransformFrom(prev, s)|
    ensures Strip(TransformFrom(prev, s), InsertedFrom(prev, s)) == s
    decreases |s|
  {
    if s != [] {
      StripInsertedFromInput(Some(s[0]), s[1..]);
      InsertedFromStep(prev, s);
      StripAppend(Expand(prev, s[0]), ByteMarks(prev, s[0]),
                  TransformFrom(Some(s[0]), s[1..]), InsertedFrom(Some(s[0]), s[1..]));
      assert s == [s[0]] + s[1..];
    }
  }

  /** Every marked byte is a carriage return followed by a line feed. */
  lemma {:induction false} MarkedAreCrLf(prev: Option<bv8>, s: seq<bv8>)
    requires |InsertedFrom(prev, s)| == |TransformFrom(prev, s)|
    ensures var r, m := TransformFrom(prev, s), InsertedFrom(prev, s);
      forall k :: 0 <= k < |r| && m[k] ==> k + 1 < |r| && r[k] == CR && r[k + 1] == LF
    decreases |s|
  {
    if s != [] {
      InsertedFromStep(prev, s);
      StripInsertedFromInput(Some(s[0]), s[1..]);
      MarkedAreCrLf(Some(s[0]), s[1..]);
      var e, t := Expand(prev, s[0]), TransformFrom(Some(s[0]), s[1..]);
      var me, mt := ByteMarks(prev, s[0]), InsertedFrom(Some(s[0]), s[1..]);
      forall k | 0 <= k < |e + t| && (me + mt)[k]
        ensures k + 1 < |e + t| && (e + t)[k] == CR && (e + t)[k + 1] == LF
      {
        if k >= |me| {
          assert mt[k - |me|];
          assert (e + t)[k] == t[k - |e|] && (e + t)[k + 1] == t[k + 1 - |e|];
        }
      }
    }
  }

  lemma StripInsertedFrom(prev: Option<bv8>, s: seq<bv8>)
    ensures var r, m := TransformFrom(prev, s), InsertedFrom(prev, s);
      && |m| == |r|
      && Strip(r, m) == s
      && (forall k :: 0 <= k < |r| && m[k] ==> k + 1 < |r| && r[k] == CR && r[k + 1] == LF)
  {
    StripInsertedFromInput(prev, s);
    MarkedAreCrLf(prev, s);
  }

  lemma {:induction false} StripAppend(a: seq<bv8>, ma: seq<bool>, b: seq<bv8>, mb: seq<bool>)
    requires |ma| == |a| && |mb| == |b|
    ensures Strip(a + b, ma + mb) == Strip(a, ma) + Strip(b, mb)
    decreases |a|
  {
    if a == [] {
      assert a + b == b && ma + mb == mb;
    } else {
      assert (a + b)[1..] == a[1..] + b && (ma + mb)[1..] == ma[1..] + mb;
      StripAppend(a[1..], ma[1..], b, mb);
    }
  }

  /**
   * Deleting the inserted carriage returns from a chunk's output gives the
   * chunk back, in order; each inserted byte is a carriage return written
   * right before a line feed.
   */
  lemma StripInserted(chunk: seq<bv8>)
    ensures var r, m := TransformChunk(chunk), InsertedFrom(None, chunk);
      && |m| == |r|
      && Strip(r, m) == chunk
      && (forall k :: 0 <= k < |r| && m[k] ==> k + 1 < |r| && r[k] == CR && r[k + 1] == LF)
  {
    StripInsertedFrom(None, chunk);
  }

  lemma {:induction false} InsertedCountFrom(prev: Option<bv8>, s: seq<bv8>)
    ensures MarkCount(InsertedFrom(prev, s)) + |s| == |TransformFrom(prev, s)|
    decreases |s|
  {
    if s != [] {
      InsertedCountFrom(Some(s[0]), s[1..]);
      var me, mt := ByteMarks(prev, s[0]), InsertedFrom(Some(s[0]), s[1..]);
      MarkCountAppend(me, mt);
    }
  }

  lemma {:induction false} MarkCountAppend(a: seq<bool>, b: seq<bool>)
    ensures MarkCount(a + b) == MarkCount(a) + MarkCount(b)
    decreases |a|
  {
    if a == [] {
      assert a + b == b;
    } else {
      assert (a + b)[1..] == a[1..] + b;
      MarkCountAppend(a[1..], b);
    }
  }

  /** Exactly one carriage return is inserted per lone line feed of the chunk. */
  lemma InsertedCount(chunk: seq<bv8>)
    ensures MarkCount(InsertedFrom(None, chunk)) == LoneLfCount(chunk)
  {
    InsertedCountFrom(None, chunk);
    TransformLength(chunk);
  }

  // ---------------------------------------------------------------------
  // Idempotence
  // ---------------------------------------------------------------------

  lemma {:induction false} FixedPointFrom(prev: Option<bv8>, s: seq<bv8>)
    requires LfsCovered(prev, s)
    ensures TransformFrom(prev, s) == s
    decreases |s|
  {
    if s != [] {
      forall k | 0 <= k < |s[1..]| && s[1..][k] == LF
        ensures Before(Some(s[0]), s[1..], k) == Some(CR)
      {
        assert s[k + 1] == LF && Before(prev, s, k + 1) == Some(CR);
      }
      FixedPointFrom(Some(s[0]), s[1..]);
      if s[0] == LF {
        assert Before(prev, s, 0) == Some(CR);
      }
      assert Expand(prev, s[0]) == [s[0]];
      assert s == [s[0]] + s[1..];
    }
  }

  /** A chunk is left unchanged by the rewrite exactly when it has no lone line feed. */
  lemma FixedPoint(s: seq<bv8>)
    ensures TransformChunk(s) == s <==> NoLoneLf(s)
  {
    if NoLoneLf(s) {
      forall k | 0 <= k < |s| && s[k] == LF ensures Before(None, s, k) == Some(CR) {
      }
      FixedPointFrom(None, s);
    } else {
      EveryLfAfterCr(s);
    }
  }

  /** Rewriting a chunk's output again as a single chunk changes nothing. */
  lemma Idempotent(chunk: seq<bv8>)
    ensures TransformChunk(TransformChunk(chunk)) == TransformChunk(chunk)
  {
    EveryLfAfterCr(chunk);
    FixedPoint(TransformChunk(chunk));
  }

  // ---------------------------------------------------------------------
  // Chunk boundaries
  // ---------------------------------------------------------------------

  lemma PrevIrrelevant(p: Option<bv8>, b: seq<bv8>)
    ensures TransformFrom(p, b) == TransformFrom(None, b) <==> !(p == Some(CR) && b != [] && b[0] == LF)
  {
    if b != [] {
      var t := TransformFrom(Some(b[0]), b[1..]);
      assert TransformFrom(p, b) == Expand(p, b[0]) + t;
      assert TransformFrom(None, b) == Expand(None, b[0]) + t;
      if p == Some(CR) && b[0] == LF {
        assert |TransformFrom(p, b)| < |TransformFrom(None, b)|;
      }
    }
  }

  /**
   * Rewriting two reads separately gives different bytes from rewriting them
   * as one read exactly when the first ends in a carriage return and the
   * second starts with a line feed.  In that one case the separate rewrite
   * has an extra carriage return, because the previous byte is forgotten at
   * each read.
   */
  lemma ChunkingChangesOutputIff(a: seq<bv8>, b: seq<bv8>)
    ensures TransformChunk(a) + TransformChunk(b) != TransformChunk(a + b)
        <==> a != [] && b != [] && a[|a| - 1] == CR && b[0] == LF
  {
    TransformSplit(None, a, b);
    PrevIrrelevant(LastOr(None, a), b);
    var x, y := TransformFrom(LastOr(None, a), b), TransformFrom(None, b);
    if TransformChunk(a) + y == TransformChunk(a) + x {
      assert y == (TransformChunk(a) + y)[|TransformChunk(a)|..];
      assert x == (TransformChunk(a) + x)[|TransformChunk(a)|..];
    }
  }

  /** A carriage return that ends one read and a line feed that starts the next come out as CR CR LF. */
  lemma ChunkBoundaryCounterexample()
    ensures TransformChunk([CR]) + TransformChunk([LF]) == [CR, CR, LF]
    ensures TransformChunk([CR, LF]) == [CR, LF]
  {
    assert TransformFrom(Some(CR), []) == [];
    assert TransformFrom(None, [LF]) == [CR, LF];
    assert TransformFrom(None, [CR]) == [CR];
    assert [CR, LF][1..] == [LF];
    assert TransformFrom(Some(CR), [LF]) == [LF];
  }

  /** Rewriting a byte in front of `t`. */
  lemma TransformCons(prev: Option<bv8>, b: bv8, t: seq<bv8>)
    ensures TransformFrom(prev, [b] + t) == Expand(prev, b) + TransformFrom(Some(b), t)
  {
    assert ([b] + t)[0] == b && ([b] + t)[1..] == t;
  }

  /** The single chunk `a\nb\r\nc` is written as `a\r\nb\r\nc`. */
  lemma WorkedExample()
    ensures TransformChunk([0x61, LF, 0x62, CR, LF, 0x63]) == [0x61, CR, LF, 0x62, CR, LF, 0x63]
  {
    var t5: seq<bv8> := [0x63];
    var t4, t3 := [LF] + t5, [CR] + ([LF] + t5);
    var t2 := [0x62] + t3;
    var t1 := [LF] + t2;
    TransformCons(Some(LF), 0x63, []);
    assert [0x63] + [] == t5;
    assert TransformFrom(Some(LF), t5) == [0x63];
    TransformCons(Some(CR), LF, t5);
    assert TransformFrom(Some(CR), t4) == [LF, 0x63];
    TransformCons(Some(0x62), CR, t4);
    assert TransformFrom(Some(0x62), t3) == [CR, LF, 0x63];
    TransformCons(Some(LF), 0x62, t3);
    assert TransformFrom(Some(LF), t2) == [0x62, CR, LF, 0x63];
    TransformCons(Some(0x61), LF, t2);
    assert TransformFrom(Some(0x61), t1) == [CR, LF, 0x62, CR, LF, 0x63];
    TransformCons(None, 0x61, t1);
    assert [0x61] + t1 == [0x61, LF, 0x62, CR, LF, 0x63];
  }
}
