/** The deflate writer of lib/content_encoding.c as a function: zlib data, or raw deflate data from
    servers that leave the zlib wrapping out. */
module DeflateWriter {
  import opened CText
  import opened Wrappers
  import opened Zlib
  import opened GzipWriter

  datatype Deflater = Deflater(w: Writer, format: Format)

  /** deflate_init_writer. */
  const NEW_DEFLATER: Deflater := Deflater(Writer(Init, [], 0, []), ZlibFormat)

  /** The new start in raw mode; up to four unknown bytes behind the data are tolerated. */
  const RAW_TRAILER: nat := 4
  const RAW_WRITER: Writer := Writer(Inflating, [], RAW_TRAILER, [])

  datatype Outcome = Outcome(s: Deflater, code: Code)

  function InFormat(r: Result, f: Format): Outcome { Outcome(Deflater(r.w, f), r.code) }

  /** Does the first write lead to a new start? Only before any output has been passed on. */
  predicate StartsAnew(s: Deflater, d: seq<Byte>, z: Library) {
    s.w.init == Init && QuietBreak(z, s.format, s.w.consumed, 0, d)
  }

  /** One write. The new start sees the data of this write only, so it is open to the first one alone. */
  function Write(s: Deflater, d: seq<Byte>, z: Library): Outcome {
    if StartsAnew(s, d, z) then InFormat(Feed(RAW_WRITER, d, Verdicts(z, RawDeflate)), RawDeflate)
    else
      var started := if s.w.init == Init then s.w.(init := Inflating) else s.w;
      InFormat(Feed(started, d, Verdicts(z, s.format)), s.format)
  }

  /** A transfer writes piece after piece and stops at the first error. Empty pieces are not passed on. */
  function WriteAll(s: Deflater, chunks: seq<seq<Byte>>, z: Library): Outcome
    decreases |chunks|
  {
    if chunks == [] then Outcome(s, CurlOk)
    else if chunks[0] == [] then WriteAll(s, chunks[1..], z)
    else
      var o := Write(s, chunks[0], z);
      if o.code != CurlOk then o else WriteAll(o.s, chunks[1..], z)
  }

  predicate Begun(w: Writer) { w.header == [] && w.init != Init && w.init != GzipHeaderPart }

  lemma {:induction false} FeedStaysBegun(w: Writer, d: seq<Byte>, inflate: Inflater)
    requires Begun(w)
    ensures Begun(Feed(w, d, inflate).w)
    decreases |d|
  {
    if d != [] {
      FeedStaysBegun(Step(w, d[0], inflate).w, d[1..], inflate);
    }
  }

  /** After the first write the cut has no influence any more. */
  lemma {:induction false} LaterWrites(s: Deflater, chunks: seq<seq<Byte>>, z: Library)
    requires Begun(s.w)
    ensures WriteAll(s, chunks, z) == InFormat(Feed(s.w, Flatten(chunks), Verdicts(z, s.format)), s.format)
    decreases |chunks|
  {
    hide Step, Verdicts;
    if chunks != [] {
      var inflate := Verdicts(z, s.format);
      var rest := Flatten(chunks[1..]);
      if chunks[0] == [] {
        assert [] + rest == rest;
        LaterWrites(s, chunks[1..], z);
      } else {
        FeedAppend(s.w, chunks[0], rest, inflate);
        FeedStaysBegun(s.w, chunks[0], inflate);
        LaterWrites(Write(s, chunks[0], z).s, chunks[1..], z);
      }
    }
  }

  /** How many bytes the first write gets. */
  function FirstLength(chunks: seq<seq<Byte>>): (n: nat)
    ensures n <= |Flatten(chunks)| && (n == 0 <==> Flatten(chunks) == [])
  {
    if chunks == [] then 0 else if chunks[0] == [] then FirstLength(chunks[1..]) else |chunks[0]|
  }

  /** The first write, and the rest of the data. */
  lemma {:induction false} FirstWrite(s: Deflater, chunks: seq<seq<Byte>>, z: Library)
    requires s.w.init == Init && s.w.header == [] && Flatten(chunks) != []
    ensures var d, n := Flatten(chunks), FirstLength(chunks); var o := Write(s, d[..n], z);
      WriteAll(s, chunks, z) ==
        if o.code != CurlOk then o else InFormat(Feed(o.s.w, d[n..], Verdicts(z, o.s.format)), o.s.format)
    decreases |chunks|
  {
    var rest := Flatten(chunks[1..]);
    if chunks[0] == [] {
      assert [] + rest == rest;
      FirstWrite(s, chunks[1..], z);
    } else {
      var d, n := Flatten(chunks), |chunks[0]|;
      assert d[..n] == chunks[0] && d[n..] == rest;
      var o := Write(s, chunks[0], z);
      FirstStaysBegun(s, chunks[0], z);
      hide Write, Verdicts, Feed;
      if o.code == CurlOk {
        LaterWrites(o.s, chunks[1..], z);
      }
    }
  }

  lemma FirstStaysBegun(s: Deflater, d: seq<Byte>, z: Library)
    requires s.w.init == Init && s.w.header == []
    ensures Begun(Write(s, d, z).s.w)
  {
    hide Feed;
    FeedStaysBegun(s.w.(init := Inflating), d, Verdicts(z, s.format));
    FeedStaysBegun(RAW_WRITER, d, Verdicts(z, RawDeflate));
  }

  // ---- zlib data -----------------------------------------------------------------------------------

  /** A new start comes from a byte that zlib finds bad, before any end of the stream. */
  lemma NewStartBreaks(d: seq<Byte>, n: nat, z: Library) returns (k: nat)
    requires Lawful(z) && n <= |d| && StartsAnew(NEW_DEFLATER, d[..n], z)
    ensures k <= n && BreaksAt(z, ZlibFormat, d, k)
  {
    k := BreakIsSeen(z, ZlibFormat, [], 0, d[..n]);
    assert forall j :: 0 <= j <= k ==> [] + d[..n][..j] == d[..j];
    assert forall j :: 0 <= j <= k ==> d[..j] == [] + d[..n][..j];
  }

  lemma NoNewStart(stream: seq<Byte>, rest: seq<Byte>, n: nat, z: Library)
    requires Lawful(z) && EndsWith(Verdicts(z, ZlibFormat), stream) && n <= |stream + rest|
    ensures !StartsAnew(NEW_DEFLATER, (stream + rest)[..n], z)
  {
    var d, e := stream + rest, |stream|;
    assert d[..e] == stream && forall j :: 0 <= j <= e ==> d[..j] == stream[..j];
    assert Verdicts(z, ZlibFormat)(stream) == z.verdict(ZlibFormat, stream);
    assert forall j :: 0 < j < e ==> Verdicts(z, ZlibFormat)(stream[..j]) == More;
    if StartsAnew(NEW_DEFLATER, d[..n], z) {
      var k := NewStartBreaks(d, n, z);
      assert false;
    }
  }

  /** Data in the zlib format, however it is cut: inflate sees all of it, and nothing may follow. */
  lemma ZlibStream(stream: seq<Byte>, rest: seq<Byte>, chunks: seq<seq<Byte>>, z: Library)
    requires Lawful(z) && EndsWith(Verdicts(z, ZlibFormat), stream) && Flatten(chunks) == stream + rest
    ensures var o := WriteAll(NEW_DEFLATER, chunks, z);
      && o.s.w.consumed == stream && o.s.format == ZlibFormat && o.s.w.init == Uninit
      && o.code == if rest == [] then CurlOk else WriteError
  {
    hide Feed, Verdicts, EndsWith, WriteAll, Flatten, StartsAnew, Lawful;
    var inflate := Verdicts(z, ZlibFormat);
    var w := NEW_DEFLATER.w.(init := Inflating);
    var d, n := stream + rest, FirstLength(chunks);
    EndsSomewhere(stream, inflate);
    FirstWrite(NEW_DEFLATER, chunks, z);
    NoNewStart(stream, rest, n, z);
    FeedToTheEnd(w, stream, rest, inflate);
    FeedAppend(w, d[..n], d[n..], inflate);
    assert d[..n] + d[n..] == d;
  }

  lemma EndsSomewhere(stream: seq<Byte>, inflate: Inflater)
    requires EndsWith(inflate, stream)
    ensures stream != []
  {
  }

  // ---- raw deflate data ----------------------------------------------------------------------------

  /** Up to the byte before, zlib asks for more; with it, the data is bad. */
  lemma FeedBreaks(d: seq<Byte>, b: nat, n: nat, z: Library)
    requires BreaksAt(z, ZlibFormat, d, b) && n <= |d|
    ensures var w := NEW_DEFLATER.w.(init := Inflating); var r := Feed(w, d[..n], Verdicts(z, ZlibFormat));
      if n < b then r == Result(w.(consumed := d[..n]), CurlOk) else r.code == BadContentEncoding
  {
    hide Feed;
    var w := NEW_DEFLATER.w.(init := Inflating);
    var inflate := Verdicts(z, ZlibFormat);
    var m := if n < b then n else b - 1;
    forall k | 0 < k <= |d[..m]|
      ensures inflate([] + d[..m][..k]) == More
    {
      assert [] + d[..m][..k] == d[..k];
    }
    FeedBody(w, d[..m], inflate);
    assert [] + d[..m] == d[..m];
    if n >= b {
      assert d[..n] == d[..m] + d[m..n];
      FeedAppend(w, d[..m], d[m..n], inflate);
      assert d[..m] + [d[m..n][0]] == d[..b];
      FeedBad(w.(consumed := d[..m]), d[m..n], inflate);
    }
  }

  lemma FeedBad(w: Writer, d: seq<Byte>, inflate: Inflater)
    requires IsInflating(w.init) && d != [] && inflate(w.consumed + [d[0]]) == DataError
    ensures Feed(w, d, inflate).code == BadContentEncoding
  {
  }

  /** A broken byte behind the first write is an error for good. */
  lemma FeedBreaksLater(d: seq<Byte>, b: nat, n: nat, z: Library)
    requires BreaksAt(z, ZlibFormat, d, b) && n < b
    ensures var w := Writer(Inflating, [], 0, d[..n]);
      Feed(w, d[n..], Verdicts(z, ZlibFormat)).code == BadContentEncoding
  {
    hide Feed;
    var w := NEW_DEFLATER.w.(init := Inflating);
    FeedBreaks(d, b, n, z);
    FeedBreaks(d, b, |d|, z);
    assert d[..|d|] == d && d[..n] + d[n..] == d;
    FeedAppend(w, d[..n], d[n..], Verdicts(z, ZlibFormat));
  }

  /** A first write that ends before the bad byte leads to no new start. */
  lemma TooShort(d: seq<Byte>, b: nat, n: nat, z: Library)
    requires Lawful(z) && BreaksAt(z, ZlibFormat, d, b) && n < b
    ensures !StartsAnew(NEW_DEFLATER, d[..n], z)
  {
    if StartsAnew(NEW_DEFLATER, d[..n], z) {
      var k := NewStartBreaks(d, n, z);
      assert false;
    }
  }

  /**
   * Raw deflate data. It is decoded exactly when the first write leads to a new start: it reaches the byte
   * by which zlib can tell that its own format is missing, and what the data gives as zlib data has not
   * been passed on by then. Otherwise the transfer fails, whatever follows.
   */
  lemma RawStream(body: seq<Byte>, rest: seq<Byte>, chunks: seq<seq<Byte>>, b: nat, z: Library)
    requires Lawful(z) && EndsWith(Verdicts(z, RawDeflate), body) && Flatten(chunks) == body + rest
    requires BreaksAt(z, ZlibFormat, body + rest, b)
    ensures var o := WriteAll(NEW_DEFLATER, chunks, z); var n := FirstLength(chunks);
      && n <= |body + rest|
      && if StartsAnew(NEW_DEFLATER, (body + rest)[..n], z) then
           && b <= n && o.s.w.consumed == body && o.s.format == RawDeflate
           && o.code == if |rest| <= RAW_TRAILER then CurlOk else WriteError
         else o.code == BadContentEncoding && o.s.format == ZlibFormat
  {
    hide Feed, Verdicts, EndsWith, WriteAll, Flatten, BreaksAt, Lawful, StartsAnew;
    var raw := Verdicts(z, RawDeflate);
    var d, n := body + rest, FirstLength(chunks);
    EndsSomewhere(body, raw);
    FirstWrite(NEW_DEFLATER, chunks, z);
    FeedBreaks(d, b, n, z);
    assert d[..n] + d[n..] == d;
    if n < b {
      TooShort(d, b, n, z);
      FeedBreaksLater(d, b, n, z);
    } else if StartsAnew(NEW_DEFLATER, d[..n], z) {
      FeedToTheEnd(RAW_WRITER, body, rest, raw);
      FeedAppend(RAW_WRITER, d[..n], d[n..], raw);
    }
  }

  /** Where zlib has no output for the data up to the bad byte, only the length of the first write counts. */
  lemma RawStreamSilent(body: seq<Byte>, rest: seq<Byte>, chunks: seq<seq<Byte>>, b: nat, z: Library)
    requires Lawful(z) && EndsWith(Verdicts(z, RawDeflate), body) && Flatten(chunks) == body + rest
    requires BreaksAt(z, ZlibFormat, body + rest, b) && z.out(ZlibFormat, (body + rest)[..b]) == []
    ensures var o := WriteAll(NEW_DEFLATER, chunks, z);
      if FirstLength(chunks) < b then o.code == BadContentEncoding
      else
        && o.s.w.consumed == body && o.s.format == RawDeflate
        && o.code == if |rest| <= RAW_TRAILER then CurlOk else WriteError
  {
    hide Feed, EndsWith, WriteAll, Flatten, BreaksAt, Lawful, QuietBreak;
    var d, n := body + rest, FirstLength(chunks);
    RawStream(body, rest, chunks, b, z);
    if n < b {
      TooShort(d, b, n, z);
    } else {
      SomeBreak(d, b, z);
      SilentBreak(z, ZlibFormat, d, b, 0, n);
      assert d[..0] == [] && d[0..n] == d[..n];
    }
  }

  lemma SomeBreak(d: seq<Byte>, b: nat, z: Library)
    requires BreaksAt(z, ZlibFormat, d, b)
    ensures 0 < b <= |d|
  {
  }
}
