/** A small library of the kind lib/content_encoding.c expects, with formats that end and that can be bad.
    It shows that what is asked of a library and of its formats can be met, and where the new start of
    the deflate writer fails. */
module ZlibSample {
  import opened CText
  import opened Wrappers
  import opened Zlib
  import opened GzipWriter
  import D = DeflateWriter
  import C = ZlibCodec

  // ---- any formats, read byte by byte -------------------------------------------------------------------

  /** A library that takes or gives one byte in each call. */
  function Bytewise(out: (Format, seq<Byte>) -> seq<Byte>, verdict: (Format, seq<Byte>) -> Inflate): Library {
    Library(out, verdict,
            (f, x, given, avail) =>
              if given < |out(f, x)| then
                Call(if verdict(f, x) == StreamEnd && given + 1 == |out(f, x)| then ZStreamEnd else ZOk, 0, 1)
              else if avail == [] then Call(ZBufError, 0, 0)
              else
                var now := x + [avail[0]];
                Call(if verdict(f, now) == DataError then ZDataError
                     else if verdict(f, now) == StreamEnd && given == |out(f, now)| then ZStreamEnd
                     else ZOk, 1, 0))
  }

  lemma BytewiseIsLawful(out: (Format, seq<Byte>) -> seq<Byte>, verdict: (Format, seq<Byte>) -> Inflate)
    requires forall f :: out(f, []) == [] && verdict(f, []) == More
    requires forall f, x: seq<Byte>, y: seq<Byte> :: x <= y ==> out(f, x) <= out(f, y)
    ensures Lawful(Bytewise(out, verdict))
  {
    var z := Bytewise(out, verdict);
    forall f, x: seq<Byte>, given: nat, avail: seq<Byte> | Open(z, f, x, given)
      ensures CallOk(z, f, x, given, avail, z.call(f, x, given, avail))
    {
      if given == |out(f, x)| && avail != [] {
        assert avail[..1] == [avail[0]];
        assert x <= x + avail[..1];
      } else {
        assert x + avail[..0] == x;
      }
    }
  }

  // ---- frames: each byte behind a 1, and a 0 at the end ---------------------------------------------------

  function Frame(x: seq<Byte>): seq<Byte> { if x == [] then [0] else [1, x[0]] + Frame(x[1..]) }

  function Unframed(d: seq<Byte>): seq<Byte> {
    if |d| < 2 || d[0] != 1 then [] else [d[1]] + Unframed(d[2..])
  }

  function Judged(d: seq<Byte>): Inflate {
    if d == [] then More
    else if d[0] == 0 then StreamEnd
    else if d[0] != 1 then DataError
    else if |d| == 1 then More
    else Judged(d[2..])
  }

  lemma {:induction false} UnframedGrows(x: seq<Byte>, y: seq<Byte>)
    requires x <= y
    ensures Unframed(x) <= Unframed(y)
    decreases |x|
  {
    if |x| >= 2 && x[0] == 1 {
      assert x[2..] <= y[2..];
      UnframedGrows(x[2..], y[2..]);
    }
  }

  /** A framed text is read to its end and not before, and gives the text. */
  lemma {:induction false} FrameRead(x: seq<Byte>, k: nat)
    requires k <= |Frame(x)|
    ensures Unframed(Frame(x)) == x
    ensures Judged(Frame(x)[..k]) == if k == |Frame(x)| then StreamEnd else More
    decreases |x|
  {
    var d := Frame(x);
    if x == [] {
      assert d[..0] == [];
    } else {
      assert d[2..] == Frame(x[1..]);
      FrameRead(x[1..], if k < 2 then 0 else k - 2);
      assert k >= 2 ==> d[..k][2..] == d[2..][..k - 2];
      assert x == [x[0]] + x[1..];
    }
  }

  // ---- the three formats: a byte in front of the frames, or none ---------------------------------------

  function Lead(f: Format, zlibByte: Byte): seq<Byte> {
    match f case RawDeflate => [] case ZlibFormat => [zlibByte] case GzipFormat => [0x1f]
  }

  function Out(f: Format, zlibByte: Byte, d: seq<Byte>): seq<Byte> {
    var lead := Lead(f, zlibByte);
    if lead <= d then Unframed(d[|lead|..]) else []
  }

  function Verdict(f: Format, zlibByte: Byte, d: seq<Byte>): Inflate {
    var lead := Lead(f, zlibByte);
    if d == [] then More else if lead <= d then Judged(d[|lead|..]) else DataError
  }

  function Framed(zlibByte: Byte): Library {
    Bytewise((f, d) => Out(f, zlibByte, d), (f, d) => Verdict(f, zlibByte, d))
  }

  function Encoder(f: Format, zlibByte: Byte): seq<Byte> -> seq<Byte> {
    var lead := Lead(f, zlibByte);
    x => lead + Frame(x)
  }

  lemma FramedIsLawful(zlibByte: Byte)
    ensures Lawful(Framed(zlibByte))
  {
    forall f, x: seq<Byte>, y: seq<Byte> | x <= y
      ensures Out(f, zlibByte, x) <= Out(f, zlibByte, y)
    {
      var lead := Lead(f, zlibByte);
      if lead <= x {
        assert lead <= y && x[|lead|..] <= y[|lead|..];
        UnframedGrows(x[|lead|..], y[|lead|..]);
      }
    }
    BytewiseIsLawful((f, d) => Out(f, zlibByte, d), (f, d) => Verdict(f, zlibByte, d));
  }

  /** Each format has encoders whose streams inflate reads to their ends and turns into the text again. */
  lemma FramedStreams(f: Format, zlibByte: Byte)
    ensures C.Streams(Framed(zlibByte), f, Encoder(f, zlibByte))
  {
    var z, lead := Framed(zlibByte), Lead(f, zlibByte);
    forall x
      ensures EndsWith(Verdicts(z, f), Encoder(f, zlibByte)(x)) && z.out(f, Encoder(f, zlibByte)(x)) == x
    {
      var d := lead + Frame(x);
      assert d[|lead|..] == Frame(x);
      FrameRead(x, |Frame(x)|);
      assert Frame(x)[..|Frame(x)|] == Frame(x);
      forall k | 0 < k < |d|
        ensures Verdicts(z, f)(d[..k]) == More
      {
        assert lead <= d[..k] && d[..k][|lead|..] == Frame(x)[..k - |lead|];
        FrameRead(x, k - |lead|);
      }
    }
  }

  /** With a first byte of its own, the zlib format is missing in raw data at once, and before any output. */
  lemma RawIsBad(zlibByte: Byte, x: seq<Byte>, rest: seq<Byte>)
    requires zlibByte > 1
    ensures var z, d := Framed(zlibByte), Frame(x) + rest;
      BreaksAt(z, ZlibFormat, d, 1) && z.out(ZlibFormat, d[..1]) == []
  {
    var d := Frame(x) + rest;
    assert d[..1] == [d[0]] && d[0] <= 1;
    assert !([zlibByte] <= d[..1]);
  }

  // ---- the new start that does not come --------------------------------------------------------------------

  /** Raw data that can pass for zlib data up to a byte of output. */
  const AMBIGUOUS: seq<Byte> := [1, 1, 1, 2, 0]

  /**
   * A lawful library and raw deflate data, all of it in the first write, which zlib finds bad at the fourth
   * byte. It is not decoded: a byte of output has been passed on by then.
   */
  lemma RestartIsMissed()
    ensures var z := Framed(1);
      && Lawful(z) && EndsWith(Verdicts(z, RawDeflate), AMBIGUOUS) && BreaksAt(z, ZlibFormat, AMBIGUOUS, 4)
      && z.out(RawDeflate, AMBIGUOUS) == [1, 2]
      && D.WriteAll(D.NEW_DEFLATER, [AMBIGUOUS], z).code == BadContentEncoding
  {
    var z, d := Framed(1), AMBIGUOUS;
    FramedIsLawful(1);
    FramedStreams(RawDeflate, 1);
    AmbiguousFrame();
    AmbiguousBreaks();
    LoudBreak();
    assert [] + Frame([1, 2]) == Frame([1, 2]);
    assert Encoder(RawDeflate, 1)([1, 2]) == d;
    assert Flatten([d]) == d by { C.OnePiece(d); }
    assert d + [] == d;
    D.RawStream(d, [], [d], 4, z);
    assert D.FirstLength([d]) == 5 && d[..5] == d;
  }

  lemma AmbiguousFrame()
    ensures Frame([1, 2]) == AMBIGUOUS
  {
    assert [1, 2][1..] == [2] && [2][1..] == [];
  }

  lemma AmbiguousBreaks()
    ensures BreaksAt(Framed(1), ZlibFormat, AMBIGUOUS, 4)
  {
    var d := AMBIGUOUS;
    assert d[..1] == [1] && d[..2] == [1, 1] && d[..3] == [1, 1, 1] && d[..4] == [1, 1, 1, 2];
    assert [1, 1][1..] == [1] && [1, 1, 1][1..] == [1, 1] && [1, 1, 1, 2][1..] == [1, 1, 2];
    assert [1, 1][2..] == [] && [1, 1, 2][2..] == [2];
  }

  /** The first three bytes are taken one by one, and then the byte of output comes. */
  lemma LoudBreak()
    ensures !D.StartsAnew(D.NEW_DEFLATER, AMBIGUOUS, Framed(1))
  {
    var z, d := Framed(1), AMBIGUOUS;
    assert [1][1..] == [] && [1, 1][1..] == [1] && [1, 1, 1][1..] == [1, 1];
    assert !QuietBreak(z, ZlibFormat, [1, 1, 1], 0, [2, 0]);
    assert [1, 1] + [1, 2, 0][..1] == [1, 1, 1] && [1, 2, 0][1..] == [2, 0];
    assert !QuietBreak(z, ZlibFormat, [1, 1], 0, [1, 2, 0]);
    assert [1] + [1, 1, 2, 0][..1] == [1, 1] && [1, 1, 2, 0][1..] == [1, 2, 0];
    assert !QuietBreak(z, ZlibFormat, [1], 0, [1, 1, 2, 0]);
    assert [] + d[..1] == [1] && d[1..] == [1, 1, 2, 0];
  }
}
