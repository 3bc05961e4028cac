/** The zlib writers as decoders of a content encoding: what a stack of writers asks of its decoders holds
    of them. */
module ZlibCodec {
  import opened CText
  import opened Wrappers
  import opened Zlib
  import opened GzipHeader
  import opened GzipWriter
  import opened ZlibWriter
  import D = DeflateWriter
  import S = ContentEncodingSpec

  /** All output of a writer that began as start, for all of its input. */
  function Decoded(start: Writer, f: Format, z: Library, x: seq<Byte>): seq<Byte> {
    z.out(f, Feed(start, x, Verdicts(z, f)).w.consumed)
  }

  function Accepted(start: Writer, f: Format, z: Library, x: seq<Byte>): bool {
    Feed(start, x, Verdicts(z, f)).code == CurlOk
  }

  /** The writer takes whatever enc makes, without a complaint, and gives back what it was made of. */
  ghost predicate Undoes(start: Writer, f: Format, z: Library, enc: seq<Byte> -> seq<Byte>) {
    forall x :: Accepted(start, f, z, enc(x)) && Decoded(start, f, z, enc(x)) == x
  }

  /** The codec c, with this writer for the encoding e. */
  function WithWriter(c: S.Codec, e: S.Encoding, start: Writer, f: Format, z: Library,
                      enc: seq<Byte> -> seq<Byte>): S.Codec
  {
    S.Codec((d: S.Encoding, x) => if d == e then enc(x) else c.enc(d, x),
            (d: S.Encoding, x) => if d == e then Decoded(start, f, z, x) else c.dec(d, x),
            (d: S.Encoding, x) => if d == e then Accepted(start, f, z, x) else c.ok(d, x))
  }

  /** More input only adds output, also behind an error. */
  lemma DecodedGrows(start: Writer, f: Format, z: Library, x: seq<Byte>, y: seq<Byte>)
    requires Lawful(z) && x <= y
    ensures Decoded(start, f, z, x) <= Decoded(start, f, z, y)
  {
    hide Feed;
    var inflate := Verdicts(z, f);
    var r := Feed(start, x, inflate);
    assert y == x + y[|x|..];
    FeedAppend(start, x, y[|x|..], inflate);
    FeedTakes(r.w, y[|x|..], inflate);
  }

  /** A beginning of accepted data is accepted. */
  lemma AcceptedBefore(start: Writer, f: Format, z: Library, x: seq<Byte>, y: seq<Byte>)
    requires x <= y && Accepted(start, f, z, y)
    ensures Accepted(start, f, z, x)
  {
    hide Feed;
    assert y == x + y[|x|..];
    FeedAppend(start, x, y[|x|..], Verdicts(z, f));
  }

  /** A writer that undoes an encoding is a lawful decoder for it. */
  lemma WriterIsLawful(c: S.Codec, e: S.Encoding, start: Writer, f: Format, z: Library, enc: seq<Byte> -> seq<Byte>)
    requires S.Lawful(c) && Lawful(z) && start.consumed == [] && Undoes(start, f, z, enc)
    ensures S.Lawful(WithWriter(c, e, start, f, z, enc))
  {
    hide Decoded, Accepted;
    var w := WithWriter(c, e, start, f, z, enc);
    NothingDecoded(start, f, z);
    forall d, x: seq<Byte>, y: seq<Byte> | x <= y
      ensures w.dec(d, x) <= w.dec(d, y)
    {
      DecodedGrows(start, f, z, x, y);
    }
    forall d, x: seq<Byte>, y: seq<Byte> | y <= w.enc(d, x)
      ensures w.ok(d, y)
    {
      if d == e {
        AcceptedBefore(start, f, z, y, enc(x));
      }
    }
  }

  lemma NothingDecoded(start: Writer, f: Format, z: Library)
    requires Lawful(z) && start.consumed == []
    ensures Decoded(start, f, z, []) == []
  {
  }

  // ---- the three kinds of writers --------------------------------------------------------------------

  /** What a server sends: a header, the deflate data, and eight bytes for check sum and size. */
  function GzipData(h: Header, deflate: seq<Byte> -> seq<Byte>, trailer: seq<Byte> -> seq<Byte>): seq<Byte> -> seq<Byte>
    requires Valid(h)
  {
    var header := Print(h);
    x => header + (deflate(x) + trailer(x))
  }

  /** enc writes streams of the format that inflate reads to their ends and turns into x again. */
  ghost predicate Streams(z: Library, f: Format, enc: seq<Byte> -> seq<Byte>) {
    forall x :: EndsWith(Verdicts(z, f), enc(x)) && z.out(f, enc(x)) == x
  }

  /** With an old zlib: the writer skips header and trailer and leaves the raw deflate data to inflate. */
  lemma GzipUndone(h: Header, deflate: seq<Byte> -> seq<Byte>, trailer: seq<Byte> -> seq<Byte>, z: Library)
    requires Valid(h) && Streams(z, RawDeflate, deflate) && forall x :: |trailer(x)| == TRAILER_LENGTH
    ensures Undoes(NEW_WRITER, RawDeflate, z, GzipData(h, deflate, trailer))
  {
    hide Print, EndsWith, Feed, FeedAll;
    forall x
      ensures var d := GzipData(h, deflate, trailer)(x);
        Accepted(NEW_WRITER, RawDeflate, z, d) && Decoded(NEW_WRITER, RawDeflate, z, d) == x
    {
      var d, inflate := GzipData(h, deflate, trailer)(x), Verdicts(z, RawDeflate);
      OnePiece(d);
      SplitIndependence(NEW_WRITER, [d], inflate);
      WholeStream(h, deflate(x), trailer(x), [d], inflate);
    }
  }

  lemma OnePiece(d: seq<Byte>)
    ensures Flatten([d]) == d
  {
    assert d + [] == d;
  }

  /** With a new zlib, which reads the gzip format as a whole, and for zlib data. */
  lemma StreamsUndone(start: Writer, f: Format, enc: seq<Byte> -> seq<Byte>, z: Library)
    requires IsInflating(start.init) && start.consumed == [] && start.header == [] && start.trailerlen == 0
    requires Streams(z, f, enc)
    ensures Undoes(start, f, z, enc)
  {
    hide EndsWith, Feed;
    forall x
      ensures Accepted(start, f, z, enc(x)) && Decoded(start, f, z, enc(x)) == x
    {
      FeedToTheEnd(start, enc(x), [], Verdicts(z, f));
      assert enc(x) + [] == enc(x);
    }
  }

  /** A body sent as gzip and perhaps under more encodings: with the gzip writer in its place among the
      decoders, the client gets the body back, whatever the pieces. */
  lemma GzipPipeline(header: string, body: seq<Byte>, chunks: seq<seq<Byte>>, c: S.Codec, z: Library,
                     h: Header, deflate: seq<Byte> -> seq<Byte>, trailer: seq<Byte> -> seq<Byte>)
    requires S.Lawful(c) && Lawful(z) && Valid(h) && Streams(z, RawDeflate, deflate)
    requires forall x :: |trailer(x)| == TRAILER_LENGTH
    requires S.Names(header) != [] && S.Recognised(S.Names(header))
    requires var g := WithWriter(c, S.Gzip, NEW_WRITER, RawDeflate, z, GzipData(h, deflate, trailer));
      Flatten(chunks) == S.EncodeAll(S.EncodingsOf(S.Names(header)), body, g)
    ensures var g := WithWriter(c, S.Gzip, NEW_WRITER, RawDeflate, z, GzipData(h, deflate, trailer));
      var w := S.WriteAll(S.Push([], S.Names(header), false), chunks, g);
      w.code == S.CurlOk && w.out == body
  {
    hide S.Lawful, Lawful, S.WriteAll, S.Push, S.EncodeAll, WithWriter, Undoes, Streams, GzipData, S.Names;
    var enc := GzipData(h, deflate, trailer);
    GzipUndone(h, deflate, trailer, z);
    WriterIsLawful(c, S.Gzip, NEW_WRITER, RawDeflate, z, enc);
    S.PipelineInverse(header, body, chunks, WithWriter(c, S.Gzip, NEW_WRITER, RawDeflate, z, enc));
  }

  /** The deflate writer once its first bytes have been taken. */
  const RUNNING_DEFLATER: Writer := Writer(Inflating, [], 0, [])

  // ---- the stage is this decoder -------------------------------------------------------------------------

  /** A transfer in pieces through one gzip writer: it fails exactly when the decoder does not accept the
      data, and else the next writer has received what is decoded from it. */
  method Transfer(stage: Stage, chunks: seq<seq<Byte>>) returns (code: Code)
    requires stage.Valid() && stage.downstream.received == []
    requires (stage.Abs() == NEW_WRITER && stage.format == RawDeflate) ||
      (stage.Abs() == NEW_TRANSPARENT && stage.format == GzipFormat)
    modifies stage, stage.downstream
    ensures var start, f, d := old(stage.Abs()), old(stage.format), Flatten(chunks);
      && (code == CurlOk ==>
            Accepted(start, f, stage.z, d) && stage.downstream.received == Decoded(start, f, stage.z, d))
      && (code == BadContentEncoding || code == WriteError ==> !Accepted(start, f, stage.z, d))
  {
    hide Feed, Verdicts, Lawful, Flatten;
    ghost var f, inflate := stage.format, Verdicts(stage.z, stage.format);
    ghost var target := Feed(stage.Abs(), Flatten(chunks), inflate);
    var k := 0;
    code := CurlOk;
    assert chunks[0..] == chunks;
    NothingYet(stage);
    while k < |chunks|
      invariant k <= |chunks| && code == CurlOk && stage.Valid() && stage.format == f && stage.zlibInit != Inflating
      invariant Feed(stage.Abs(), Flatten(chunks[k..]), inflate) == target
      invariant stage.downstream.received == stage.z.out(f, stage.consumed)
    {
      ghost var w := stage.Abs();
      NextPiece(w, chunks, k, inflate);
      if chunks[k] != [] {
        code := stage.GzipWrite(chunks[k]);
        if code != CurlOk {
          return;
        }
        FeedTakes(w, chunks[k], inflate);
        AllPassed(stage.z, f, w.consumed, stage.consumed);
      }
      k := k + 1;
    }
    NoMore(stage.Abs(), chunks, inflate);
  }

  lemma NothingYet(stage: Stage)
    requires stage.Valid() && stage.consumed == []
    ensures stage.z.out(stage.format, stage.consumed) == []
  {
  }

  lemma NextPiece(w: Writer, chunks: seq<seq<Byte>>, k: nat, inflate: Inflater)
    requires k < |chunks|
    ensures var r, rest := Feed(w, chunks[k], inflate), Flatten(chunks[k + 1..]);
      && Feed(w, Flatten(chunks[k..]), inflate) == (if r.code != CurlOk then r else Feed(r.w, rest, inflate))
      && (chunks[k] == [] ==> r == Result(w, CurlOk))
  {
    assert chunks[k..][1..] == chunks[k + 1..];
    FeedAppend(w, chunks[k], Flatten(chunks[k + 1..]), inflate);
  }

  lemma NoMore(w: Writer, chunks: seq<seq<Byte>>, inflate: Inflater)
    ensures Feed(w, Flatten(chunks[|chunks|..]), inflate) == Result(w, CurlOk)
  {
    assert chunks[|chunks|..] == [];
  }

  lemma AllPassed(z: Library, f: Format, x: seq<Byte>, y: seq<Byte>)
    requires Lawful(z) && x <= y
    ensures |z.out(f, x)| <= |z.out(f, y)| && z.out(f, x) + z.out(f, y)[|z.out(f, x)|..] == z.out(f, y)
  {
    assert z.out(f, x) <= z.out(f, y);
  }

  /** What a deflate stage has passed on: all the output there is, or after bad data a beginning of it. */
  ghost predicate Delivered(stage: Stage, code: Code)
    reads stage, stage.downstream
  {
    var all := stage.z.out(stage.format, stage.consumed);
    && (code == CurlOk || code == WriteError ==> stage.downstream.received == all)
    && (code == BadContentEncoding ==> stage.downstream.received <= all)
  }

  /** A transfer in pieces through one deflate writer: unless the next writer refuses, state, format and
      result are those of the specified writes, and their output has been delivered. */
  method DeflateTransfer(stage: Stage, chunks: seq<seq<Byte>>) returns (code: Code)
    requires stage.Valid() && stage.downstream.received == []
    requires stage.Abs() == D.NEW_DEFLATER.w && stage.format == ZlibFormat
    modifies stage, stage.downstream
    ensures code != DownstreamError ==>
      D.WriteAll(D.NEW_DEFLATER, chunks, stage.z) == D.Outcome(D.Deflater(stage.Abs(), stage.format), code)
    ensures Delivered(stage, code)
  {
    hide Feed, Verdicts, Lawful, D.WriteAll, D.Write, D.StartsAnew;
    ghost var target := D.WriteAll(D.NEW_DEFLATER, chunks, stage.z);
    var k := 0;
    code := CurlOk;
    assert chunks[0..] == chunks;
    NothingYet(stage);
    while k < |chunks|
      invariant k <= |chunks| && code == CurlOk && stage.Valid()
      invariant stage.zlibInit != GzipHeaderPart && stage.zlibInit != GzipInflating && stage.zlibInit != InitGzip
      invariant D.WriteAll(D.Deflater(stage.Abs(), stage.format), chunks[k..], stage.z) == target
      invariant stage.downstream.received == stage.z.out(stage.format, stage.consumed)
    {
      NextWrite(D.Deflater(stage.Abs(), stage.format), chunks, k, stage.z);
      if chunks[k] != [] {
        code := OneDeflateWrite(stage, chunks[k]);
        if code != CurlOk {
          return;
        }
      }
      k := k + 1;
    }
    NoWrite(D.Deflater(stage.Abs(), stage.format), chunks, stage.z);
  }

  method OneDeflateWrite(stage: Stage, buf: seq<Byte>) returns (code: Code)
    requires stage.Valid() && buf != []
    requires stage.zlibInit != GzipHeaderPart && stage.zlibInit != GzipInflating && stage.zlibInit != InitGzip
    requires stage.downstream.received == stage.z.out(stage.format, stage.consumed)
    modifies stage, stage.downstream
    ensures stage.Valid()
    ensures stage.zlibInit != GzipHeaderPart && stage.zlibInit != GzipInflating && stage.zlibInit != InitGzip
    ensures code != DownstreamError ==>
      D.Write(D.Deflater(old(stage.Abs()), old(stage.format)), buf, stage.z)
      == D.Outcome(D.Deflater(stage.Abs(), stage.format), code)
    ensures Delivered(stage, code)
  {
    hide Feed, Verdicts, Lawful, D.StartsAnew;
    ghost var restarted;
    ghost var w, f := stage.Abs(), stage.format;
    WriteTakes(D.Deflater(w, f), buf, stage.z);
    OnlyFromInit(D.Deflater(w, f), buf, stage.z);
    InitEmpty(stage);
    code, restarted := stage.DeflateWrite(buf);
    if code != DownstreamError && !restarted {
      Beginnings(stage.z, f, w.consumed, stage.consumed);
    }
  }

  lemma InitEmpty(stage: Stage)
    requires stage.Valid()
    ensures stage.zlibInit == Init ==> stage.z.out(stage.format, stage.consumed) == []
  {
  }

  lemma OnlyFromInit(s: D.Deflater, d: seq<Byte>, z: Library)
    ensures D.StartsAnew(s, d, z) ==> s.w.init == Init
  {
  }

  lemma NextWrite(s: D.Deflater, chunks: seq<seq<Byte>>, k: nat, z: Library)
    requires k < |chunks|
    ensures D.WriteAll(s, chunks[k..], z) ==
      if chunks[k] == [] then D.WriteAll(s, chunks[k + 1..], z)
      else
        var o := D.Write(s, chunks[k], z);
        if o.code != CurlOk then o else D.WriteAll(o.s, chunks[k + 1..], z)
  {
    hide D.Write;
    assert chunks[k..][1..] == chunks[k + 1..];
  }

  lemma NoWrite(s: D.Deflater, chunks: seq<seq<Byte>>, z: Library)
    ensures D.WriteAll(s, chunks[|chunks|..], z) == D.Outcome(s, CurlOk)
  {
    assert chunks[|chunks|..] == [];
  }

  /** Without a new start a write takes more of the same data. */
  lemma WriteTakes(s: D.Deflater, d: seq<Byte>, z: Library)
    ensures !D.StartsAnew(s, d, z) ==>
      s.w.consumed <= D.Write(s, d, z).s.w.consumed && D.Write(s, d, z).s.format == s.format
  {
    hide Feed;
    FeedTakes(if s.w.init == Init then s.w.(init := Inflating) else s.w, d, Verdicts(z, s.format));
  }

  /** The output behind a beginning of the data is what comes behind the output for it. */
  lemma Beginnings(z: Library, f: Format, x: seq<Byte>, y: seq<Byte>)
    requires Lawful(z) && x <= y
    ensures |z.out(f, x)| <= |z.out(f, y)|
    ensures forall n :: |z.out(f, x)| <= n <= |z.out(f, y)| ==>
      z.out(f, x) + z.out(f, y)[|z.out(f, x)|..n] == z.out(f, y)[..n]
  {
    assert z.out(f, x) <= z.out(f, y);
  }

  // ---- what the client gets from a deflate writer ------------------------------------------------------

  /** Zlib data in any pieces: with nothing behind it the transfer ends well, and its output is the body. */
  lemma ZlibDelivered(enc: seq<Byte> -> seq<Byte>, body: seq<Byte>, chunks: seq<seq<Byte>>, z: Library)
    requires Lawful(z) && Streams(z, ZlibFormat, enc) && Flatten(chunks) == enc(body)
    ensures var o := D.WriteAll(D.NEW_DEFLATER, chunks, z);
      o.code == CurlOk && z.out(o.s.format, o.s.w.consumed) == body
  {
    hide D.WriteAll, EndsWith, Verdicts, Lawful;
    assert EndsWith(Verdicts(z, ZlibFormat), enc(body));
    assert enc(body) + [] == enc(body);
    D.ZlibStream(enc(body), [], chunks, z);
  }

  /** Raw deflate data that zlib finds bad at some byte: the output is the body exactly when the first write
      leads to a new start. */
  lemma RawDelivered(enc: seq<Byte> -> seq<Byte>, body: seq<Byte>, chunks: seq<seq<Byte>>, b: nat, z: Library)
    requires Lawful(z) && Streams(z, RawDeflate, enc) && Flatten(chunks) == enc(body)
    requires BreaksAt(z, ZlibFormat, enc(body), b)
    ensures var o := D.WriteAll(D.NEW_DEFLATER, chunks, z); var first := enc(body)[..D.FirstLength(chunks)];
      if D.StartsAnew(D.NEW_DEFLATER, first, z)
      then o.code == CurlOk && z.out(o.s.format, o.s.w.consumed) == body
      else o.code == BadContentEncoding
  {
    hide D.WriteAll, EndsWith, Verdicts, Lawful, BreaksAt, D.StartsAnew;
    assert EndsWith(Verdicts(z, RawDeflate), enc(body));
    assert enc(body) + [] == enc(body);
    D.RawStream(enc(body), [], chunks, b, z);
  }

  /** Where inflate finds nothing bad in it, data passes the deflate writer as it passes a writer that has
      begun: of this writer the decoder of the stack is an instance. */
  lemma DeflaterIsRunning(chunks: seq<seq<Byte>>, z: Library)
    requires Lawful(z) && Accepted(RUNNING_DEFLATER, ZlibFormat, z, Flatten(chunks))
    ensures var o := D.WriteAll(D.NEW_DEFLATER, chunks, z);
      && o.code == CurlOk
      && z.out(o.s.format, o.s.w.consumed) == Decoded(RUNNING_DEFLATER, ZlibFormat, z, Flatten(chunks))
  {
    hide Feed, Verdicts, Lawful, D.WriteAll, Flatten, BreaksAt, D.StartsAnew;
    var d, n := Flatten(chunks), D.FirstLength(chunks);
    var inflate := Verdicts(z, ZlibFormat);
    NothingFed(RUNNING_DEFLATER, inflate);
    if d == [] {
      NothingWritten(D.NEW_DEFLATER, chunks, z);
    } else {
      D.FirstWrite(D.NEW_DEFLATER, chunks, z);
      assert d[..n] + d[n..] == d && d[..|d|] == d;
      FeedAppend(RUNNING_DEFLATER, d[..n], d[n..], inflate);
      if D.StartsAnew(D.NEW_DEFLATER, d[..n], z) {
        var k := D.NewStartBreaks(d, n, z);
        D.FeedBreaks(d, k, |d|, z);
        assert false;
      }
    }
  }

  lemma {:induction false} NothingWritten(s: D.Deflater, chunks: seq<seq<Byte>>, z: Library)
    requires Flatten(chunks) == []
    ensures D.WriteAll(s, chunks, z) == D.Outcome(s, CurlOk)
    decreases |chunks|
  {
    if chunks != [] {
      NothingWritten(s, chunks[1..], z);
    }
  }
}
