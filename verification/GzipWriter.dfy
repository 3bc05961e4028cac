/** The gzip writer of lib/content_encoding.c as a function. With old zlib versions it skips the header
    itself, and header, deflate data and trailer arrive in arbitrary pieces; with newer ones zlib reads
    the gzip format. ZlibWriter.dfy holds the code over mutable state that refines it. */
module GzipWriter {
  import opened CText
  import opened Wrappers
  import opened Zlib
  import opened GzipHeader

  const TRAILER_LENGTH: nat := 8

  datatype ZlibState = Uninit | Init | Inflating | ExternalTrailer | GzipHeaderPart | GzipInflating | InitGzip

  /** DownstreamError stands for whatever the next writer reports. */
  datatype Code = CurlOk | BadContentEncoding | WriteError | DownstreamError

  /** header is the part of the gzip header kept so far, consumed everything inflate has taken. */
  datatype Writer = Writer(init: ZlibState, header: seq<Byte>, trailerlen: nat, consumed: seq<Byte>)

  /** gzip_init_writer, with a zlib version that leaves header and trailer to the caller, */
  const NEW_WRITER: Writer := Writer(Init, [], TRAILER_LENGTH, [])

  /** and with one that does not. */
  const NEW_TRANSPARENT: Writer := Writer(InitGzip, [], 0, [])

  predicate IsInflating(st: ZlibState) { st == Inflating || st == GzipInflating || st == InitGzip }

  datatype Result = Result(w: Writer, code: Code)

  /** exit_zlib. */
  function Exit(w: Writer, code: Code): Result { Result(w.(init := Uninit, header := []), code) }

  // ---- one byte at a time -----------------------------------------------------------------------

  /** process_trailer on no more input: wait for the trailer, or finish when there is none. */
  function AtTrailer(w: Writer): Result {
    if w.trailerlen == 0 then Exit(w, CurlOk) else Result(w.(init := ExternalTrailer), CurlOk)
  }

  function InflateByte(w: Writer, b: Byte, inflate: Inflater): Result {
    var w1 := w.(consumed := w.consumed + [b]);
    match inflate(w1.consumed)
    case More => Result(w1, CurlOk)
    case StreamEnd => AtTrailer(w1)
    case DataError => Exit(w1, BadContentEncoding)
  }

  function HeaderByte(w: Writer, b: Byte): Result {
    var header := w.header + [b];
    match Check(header)
    case Ok(_) => Result(w.(init := GzipInflating, header := []), CurlOk)
    case Underflow => Result(w.(init := GzipHeaderPart, header := header), CurlOk)
    case Bad => Exit(w, BadContentEncoding)
  }

  function Step(w: Writer, b: Byte, inflate: Inflater): Result {
    match w.init
    case Init | GzipHeaderPart => HeaderByte(w, b)
    case Inflating | GzipInflating | InitGzip => InflateByte(w, b, inflate)
    case ExternalTrailer =>
      if w.trailerlen == 0 then Exit(w, WriteError) else AtTrailer(w.(trailerlen := w.trailerlen - 1))
    case Uninit => Exit(w, WriteError)
  }

  /** Bytes up to the first error. */
  function Feed(w: Writer, d: seq<Byte>, inflate: Inflater): Result
    decreases |d|
  {
    if d == [] then Result(w, CurlOk)
    else
      var r := Step(w, d[0], inflate);
      if r.code != CurlOk then r else Feed(r.w, d[1..], inflate)
  }

  /** A transfer writes piece after piece and stops at the first error. */
  function FeedAll(w: Writer, chunks: seq<seq<Byte>>, inflate: Inflater): Result
    decreases |chunks|
  {
    if chunks == [] then Result(w, CurlOk)
    else
      var r := Feed(w, chunks[0], inflate);
      if r.code != CurlOk then r else FeedAll(r.w, chunks[1..], inflate)
  }

  lemma {:induction false} FeedAppend(w: Writer, d: seq<Byte>, e: seq<Byte>, inflate: Inflater)
    ensures var r := Feed(w, d, inflate);
      Feed(w, d + e, inflate) == if r.code != CurlOk then r else Feed(r.w, e, inflate)
    decreases |d|
  {
    hide Step;
    if d == [] {
      assert d + e == e;
    } else {
      assert (d + e)[1..] == d[1..] + e;
      FeedAppend(Step(w, d[0], inflate).w, d[1..], e, inflate);
    }
  }

  /** The way the data is cut has no influence on the writer, on the result, or on the bytes that
      inflate gets to see. */
  lemma {:induction false} SplitIndependence(w: Writer, chunks: seq<seq<Byte>>, inflate: Inflater)
    ensures FeedAll(w, chunks, inflate) == Feed(w, Flatten(chunks), inflate)
    decreases |chunks|
  {
    hide Step;
    if chunks != [] {
      FeedAppend(w, chunks[0], Flatten(chunks[1..]), inflate);
      SplitIndependence(Feed(w, chunks[0], inflate).w, chunks[1..], inflate);
    }
  }

  // ---- several bytes at once: what the source does -------------------------------------------------

  /** Between two writes: a header is kept only while it is incomplete, and the trailer is waited
      for only while bytes of it are missing. */
  predicate Inv(w: Writer) {
    match w.init
    case Init => w.header == []
    case GzipHeaderPart => Check(w.header) == Underflow
    case Inflating | GzipInflating | InitGzip | Uninit => w.header == []
    case ExternalTrailer => w.header == [] && w.trailerlen > 0
  }

  lemma StepKeepsInv(w: Writer, b: Byte, inflate: Inflater)
    requires Inv(w)
    ensures Inv(Step(w, b, inflate).w)
  {
    hide Check;
  }

  lemma {:induction false} FeedKeepsInv(w: Writer, d: seq<Byte>, inflate: Inflater)
    requires Inv(w)
    ensures Inv(Feed(w, d, inflate).w)
    decreases |d|
  {
    hide Step, Inv;
    if d != [] {
      StepKeepsInv(w, d[0], inflate);
      FeedKeepsInv(Step(w, d[0], inflate).w, d[1..], inflate);
    }
  }

  predicate ReadingHeader(w: Writer) { w.init == Init || w.init == GzipHeaderPart }

  /** Feeding bytes of an incomplete header: all of them are kept; when a verdict is reached, it is
      that of all bytes together, and the rest goes on behind the header. */
  lemma {:induction false} FeedHeader(w: Writer, d: seq<Byte>, inflate: Inflater)
    requires Inv(w) && ReadingHeader(w) && d != [] && Check(w.header) == Underflow
    ensures var all := w.header + d;
      match Check(all)
      case Underflow => Feed(w, d, inflate) == Result(w.(init := GzipHeaderPart, header := all), CurlOk)
      case Bad => Feed(w, d, inflate) == Exit(w, BadContentEncoding)
      case Ok(h) =>
        (|w.header| < h <= |all| &&
         Feed(w, d, inflate) == Feed(w.(init := GzipInflating, header := []), all[h..], inflate))
    decreases |d|
  {
    hide Check;
    var one := w.header + [d[0]];
    var all := w.header + d;
    assert one + d[1..] == all;
    HeaderLengthAtVerdict(w.header, d[0]);
    if Check(one) != Underflow {
      VerdictStable(one, all);
      assert all[|one|..] == d[1..];
    } else if d[1..] != [] {
      FeedHeader(w.(init := GzipHeaderPart, header := one), d[1..], inflate);
    } else {
      assert one == all;
      assert Feed(Step(w, d[0], inflate).w, [], inflate) == Result(Step(w, d[0], inflate).w, CurlOk);
    }
  }

  /** The byte that completes a header is its last one. */
  lemma HeaderLengthAtVerdict(d: seq<Byte>, b: Byte)
    requires Check(d) == Underflow
    ensures Check(d + [b]).Ok? ==> Check(d + [b]).headerlen == |d| + 1
  {
    if Check(d + [b]).Ok? {
      var n := Check(d + [b]).headerlen;
      if n <= |d| {
        var h := HeaderFound(d + [b], n);
        assert Print(h) == d[..n];
        HeaderVerdict(h, d, d);
      }
    }
  }

  /** process_trailer: consume expected bytes, complain about unexpected ones. */
  function TrailerResult(w: Writer, d: seq<Byte>): Result {
    var len := if |d| < w.trailerlen then |d| else w.trailerlen;
    var w1 := w.(trailerlen := w.trailerlen - len);
    if len < |d| then Exit(w1, WriteError)
    else AtTrailer(w1)
  }

  /** Trailer bytes one by one come to the same as all of them at once. */
  lemma {:induction false} FeedTrailer(w: Writer, d: seq<Byte>, inflate: Inflater)
    requires w.header == [] && (w.init == ExternalTrailer || (w.init == Uninit && w.trailerlen == 0))
    requires w.init == ExternalTrailer ==> w.trailerlen > 0
    ensures w.init == ExternalTrailer ==> Feed(w, d, inflate) == TrailerResult(w, d)
    ensures w.init == Uninit ==> Feed(w, d, inflate) == if d == [] then Result(w, CurlOk) else Exit(w, WriteError)
    decreases |d|
  {
    if d != [] && w.init == ExternalTrailer {
      FeedTrailer(Step(w, d[0], inflate).w, d[1..], inflate);
    }
  }

  /** The end of the deflate data inside a write. */
  lemma FeedAfterEnd(w: Writer, d: seq<Byte>, inflate: Inflater)
    requires w.header == [] && IsInflating(w.init)
    ensures var r := AtTrailer(w); Feed(r.w, d, inflate) == TrailerResult(w, d)
  {
    var r := AtTrailer(w);
    FeedTrailer(r.w, d, inflate);
  }

  lemma EmptyUnderflows()
    ensures Check([]) == Underflow
  {
  }

  // ---- what a gzip stream comes to -----------------------------------------------------------------

  /** inflate wants more after every beginning of the data, the whole included. */
  predicate AllMore(inflate: Inflater, done: seq<Byte>, d: seq<Byte>) {
    forall k :: 0 < k <= |d| ==> inflate(done + d[..k]) == More
  }

  /** The deflate data ends exactly with d. */
  predicate EndsWith(inflate: Inflater, d: seq<Byte>) {
    d != [] && inflate(d) == StreamEnd && forall k :: 0 < k < |d| ==> inflate(d[..k]) == More
  }

  lemma {:induction false} FeedBody(w: Writer, d: seq<Byte>, inflate: Inflater)
    requires IsInflating(w.init) && AllMore(inflate, w.consumed, d)
    ensures Feed(w, d, inflate) == Result(w.(consumed := w.consumed + d), CurlOk)
    decreases |d|
  {
    if d == [] {
      assert w.consumed + d == w.consumed;
    } else {
      assert d[..1] == [d[0]];
      var w1 := w.(consumed := w.consumed + [d[0]]);
      assert Step(w, d[0], inflate) == Result(w1, CurlOk);
      forall k | 0 < k <= |d[1..]|
        ensures inflate(w1.consumed + d[1..][..k]) == More
      {
        assert w1.consumed + d[1..][..k] == w.consumed + d[..k + 1];
      }
      FeedBody(w1, d[1..], inflate);
      assert w1.consumed + d[1..] == w.consumed + d;
    }
  }

  lemma FeedWholeHeader(h: Header, inflate: Inflater)
    requires Valid(h)
    ensures Feed(NEW_WRITER, Print(h), inflate) == Result(NEW_WRITER.(init := GzipInflating), CurlOk)
  {
    hide Check, Print;
    var d := Print(h);
    EmptyUnderflows();
    HeaderVerdict(h, d, d);
    PrintNonEmpty(h);
    FeedHeader(NEW_WRITER, d, inflate);
    assert [] + d == d && d[|d|..] == [];
  }

  lemma PrintNonEmpty(h: Header)
    requires Valid(h)
    ensures |Print(h)| >= 10
  {
  }

  /** For any way of cutting a stream into writes, inflate is handed exactly what follows the
      header, as far as inflate still wants data. */
  lemma InflateSeesTheBody(h: Header, body: seq<Byte>, chunks: seq<seq<Byte>>, inflate: Inflater)
    requires Valid(h) && AllMore(inflate, [], body) && Flatten(chunks) == Print(h) + body
    ensures FeedAll(NEW_WRITER, chunks, inflate)
         == Result(NEW_WRITER.(init := GzipInflating, consumed := body), CurlOk)
  {
    hide Print, Feed, FeedAll, Flatten;
    SplitIndependence(NEW_WRITER, chunks, inflate);
    FeedAppend(NEW_WRITER, Print(h), body, inflate);
    FeedWholeHeader(h, inflate);
    FeedBody(NEW_WRITER.(init := GzipInflating), body, inflate);
    assert [] + body == body;
  }

  lemma FeedToTheEnd(w: Writer, d: seq<Byte>, rest: seq<Byte>, inflate: Inflater)
    requires IsInflating(w.init) && w.consumed == [] && w.header == [] && EndsWith(inflate, d)
    ensures Feed(w, d + rest, inflate) == TrailerResult(w.(consumed := d), rest)
  {
    hide Feed, TrailerResult, AtTrailer;
    var most, last := d[..|d| - 1], d[|d| - 1];
    forall k | 0 < k <= |most|
      ensures inflate(w.consumed + most[..k]) == More
    {
      assert w.consumed + most[..k] == d[..k];
    }
    assert d + rest == most + ([last] + rest);
    FeedBody(w, most, inflate);
    FeedAppend(w, most, [last] + rest, inflate);
    assert w.consumed + most == most && most + [last] == d;
    FeedLast(w.(consumed := most), last, rest, inflate);
  }

  /** The byte with which the stream ends, and what is behind it. */
  lemma FeedLast(w: Writer, last: Byte, rest: seq<Byte>, inflate: Inflater)
    requires IsInflating(w.init) && w.header == [] && inflate(w.consumed + [last]) == StreamEnd
    ensures Feed(w, [last] + rest, inflate) == TrailerResult(w.(consumed := w.consumed + [last]), rest)
  {
    var w1 := w.(consumed := w.consumed + [last]);
    assert ([last] + rest)[1..] == rest;
    FeedAfterEnd(w1, rest, inflate);
  }

  /** A complete stream, in any pieces: inflate sees the deflate data, exactly eight trailer bytes
      are taken, fewer leave the writer waiting, and anything more is a write error. */
  lemma WholeStream(h: Header, body: seq<Byte>, rest: seq<Byte>, chunks: seq<seq<Byte>>, inflate: Inflater)
    requires Valid(h) && EndsWith(inflate, body) && Flatten(chunks) == Print(h) + (body + rest)
    ensures var r := FeedAll(NEW_WRITER, chunks, inflate);
      && r.w.consumed == body
      && (|rest| < TRAILER_LENGTH ==>
            r.code == CurlOk && r.w.init == ExternalTrailer && r.w.trailerlen == TRAILER_LENGTH - |rest|)
      && (|rest| == TRAILER_LENGTH ==> r.code == CurlOk && r.w.init == Uninit)
      && (|rest| > TRAILER_LENGTH ==> r.code == WriteError && r.w.init == Uninit)
  {
    hide Print, Feed, FeedAll, Flatten;
    SplitIndependence(NEW_WRITER, chunks, inflate);
    FeedAppend(NEW_WRITER, Print(h), body + rest, inflate);
    FeedWholeHeader(h, inflate);
    FeedToTheEnd(NEW_WRITER.(init := GzipInflating), body, rest, inflate);
  }

  /** With a zlib that reads the gzip format: it sees the whole stream, and nothing may follow. */
  lemma WholeTransparentStream(stream: seq<Byte>, rest: seq<Byte>, chunks: seq<seq<Byte>>, inflate: Inflater)
    requires EndsWith(inflate, stream) && Flatten(chunks) == stream + rest
    ensures var r := FeedAll(NEW_TRANSPARENT, chunks, inflate);
      && r.w.consumed == stream && r.w.init == Uninit
      && r.code == if rest == [] then CurlOk else WriteError
  {
    hide Feed, FeedAll, Flatten;
    SplitIndependence(NEW_TRANSPARENT, chunks, inflate);
    FeedToTheEnd(NEW_TRANSPARENT, stream, rest, inflate);
  }
}
