/** Content-Encoding headers and decoder stacks of lib/content_encoding.c, as functions. The
    decompressors themselves are abstract. */
module ContentEncodingSpec {
  import opened CText
  import opened Wrappers

  datatype Encoding = Identity | Deflate | Gzip | Brotli

  /** One writer of the stack; a decoder remembers all the bytes it has been given. */
  datatype Stage = ClientStage | ErrorStage | Decoder(e: Encoding, seen: seq<Byte>)

  datatype Code = CurlOk | BadContentEncoding

  /** The foreign codecs. dec gives all the output for all the input so far, ok says whether the
      decoder accepts that input as (the beginning of) a stream. */
  datatype Codec = Codec(enc: (Encoding, seq<Byte>) -> seq<Byte>, dec: (Encoding, seq<Byte>) -> seq<Byte>,
                         ok: (Encoding, seq<Byte>) -> bool)

  /** Decoders stream: more input only adds output. They undo the encoders and accept every
      beginning of an encoded stream. */
  ghost predicate Lawful(c: Codec) {
    && (forall e, x: seq<Byte>, y: seq<Byte> :: x <= y ==> c.dec(e, x) <= c.dec(e, y))
    && (forall e :: c.dec(e, []) == [])
    && (forall e, x: seq<Byte> :: c.dec(e, c.enc(e, x)) == x)
    && (forall e, x: seq<Byte>, y: seq<Byte> :: y <= c.enc(e, x) ==> c.ok(e, y))
  }

  // ---- names ------------------------------------------------------------------------------------

  /** find_encoding: names and aliases of the table. */
  function FindEncoding(name: string): Option<Encoding> {
    if SameNoCase(name, "identity") || SameNoCase(name, "none") then Some(Identity)
    else if SameNoCase(name, "deflate") then Some(Deflate)
    else if SameNoCase(name, "gzip") || SameNoCase(name, "x-gzip") then Some(Gzip)
    else if SameNoCase(name, "br") then Some(Brotli)
    else None
  }

  function NewStage(name: string): Stage {
    var e := FindEncoding(name);
    if e.Some? then Decoder(e.value, []) else ErrorStage
  }

  // ---- the header value: items between commas, without surrounding blanks, empty ones dropped ----

  function CommaAt(s: string): (j: nat)
    ensures j <= |s| && (j < |s| ==> s[j] == ',') && forall i :: 0 <= i < j ==> s[i] != ','
  {
    if s == "" || s[0] == ',' then 0 else 1 + CommaAt(s[1..])
  }

  function TrimLeft(s: string): string {
    if s != "" && IsSpace(s[0]) then TrimLeft(s[1..]) else s
  }

  function TrimRight(s: string): (r: string)
    ensures r <= s
    decreases |s|
  {
    if s != "" && IsSpace(s[|s| - 1]) then TrimRight(s[..|s| - 1]) else s
  }

  function Trim(s: string): string { TrimRight(TrimLeft(s)) }

  function Names(s: string): seq<string>
    decreases |s|
  {
    var j := CommaAt(s);
    var item := Trim(s[..j]);
    (if item == "" then [] else [item]) + (if j == |s| then [] else Names(s[j + 1..]))
  }

  lemma CommaShift(s: string)
    requires s != "" && s[0] != ','
    ensures CommaAt(s) == 1 + CommaAt(s[1..])
  {
  }

  /** Blanks and commas before a name do not matter. */
  lemma SkipSeparator(s: string)
    requires s != "" && (IsSpace(s[0]) || s[0] == ',')
    ensures Names(s) == Names(s[1..])
  {
    if s[0] == ',' {
      assert s[..0] == "";
    } else {
      CommaShift(s);
      var j := CommaAt(s);
      assert s[..j][1..] == s[1..][..j - 1];
      assert s[j..] == s[1..][j - 1..];
      if j < |s| {
        assert s[j + 1..] == s[1..][j..];
      }
    }
  }

  /** A name that starts at once: its text is followed by the rest of the header. */
  lemma FirstName(s: string)
    requires s != "" && !IsSpace(s[0]) && s[0] != ','
    ensures var j := CommaAt(s); var name := TrimRight(s[..j]);
      j > 0 && name != "" && Names(s) == [name] + Names(s[j..])
  {
    var j := CommaAt(s);
    assert s[..j][0] == s[0];
    KeepsFirst(s[..j]);
    if j < |s| {
      SkipSeparator(s[j..]);
      assert s[j..][1..] == s[j + 1..];
    } else {
      assert s[j..] == "";
      EmptyNames();
    }
  }

  lemma EmptyNames()
    ensures Names("") == []
  {
  }

  lemma {:induction false} KeepsFirst(s: string)
    requires s != "" && !IsSpace(s[0])
    ensures TrimRight(s) != ""
    decreases |s|
  {
    if IsSpace(s[|s| - 1]) {
      KeepsFirst(s[..|s| - 1]);
    }
  }

  // ---- the stack, top first -----------------------------------------------------------------------

  predicate IsChunked(name: string, maybechunked: bool) { maybechunked && SameNoCase(name, "chunked") }

  predicate AnyChunked(names: seq<string>, maybechunked: bool) {
    names != [] && (IsChunked(names[0], maybechunked) || AnyChunked(names[1..], maybechunked))
  }

  lemma {:induction false} AnyChunkedMore(names: seq<string>, name: string, mc: bool)
    ensures AnyChunked(names + [name], mc) <==> AnyChunked(names, mc) || IsChunked(name, mc)
    decreases |names|
  {
    if names != [] {
      assert (names + [name])[1..] == names[1..] + [name];
      AnyChunkedMore(names[1..], name, mc);
    }
  }

  /** The stack after the names have been pushed one by one. */
  function Push(stack: seq<Stage>, names: seq<string>, maybechunked: bool): seq<Stage>
    decreases |names|
  {
    if names == [] then stack
    else if IsChunked(names[0], maybechunked) then Push(stack, names[1..], maybechunked)
    else
      var bottom := if stack == [] then [ClientStage] else stack;
      Push([NewStage(names[0])] + bottom, names[1..], maybechunked)
  }

  lemma {:induction false} PushMore(stack: seq<Stage>, names: seq<string>, more: seq<string>, mc: bool)
    ensures Push(stack, names + more, mc) == Push(Push(stack, names, mc), more, mc)
    decreases |names|
  {
    if names == [] {
      assert names + more == more;
    } else {
      assert (names + more)[1..] == names[1..] + more;
      var bottom := if stack == [] then [ClientStage] else stack;
      if IsChunked(names[0], mc) {
        PushMore(stack, names[1..], more, mc);
      } else {
        PushMore([NewStage(names[0])] + bottom, names[1..], more, mc);
      }
    }
  }

  datatype Written = Written(stack: seq<Stage>, out: seq<Byte>, code: Code)

  function NewOutput(c: Codec, e: Encoding, seen: seq<Byte>, buf: seq<Byte>): seq<Byte> {
    var before, after := c.dec(e, seen), c.dec(e, seen + buf);
    if |before| <= |after| then after[|before|..] else []
  }

  /** Curl_unencode_write: out is what reaches the client. */
  function Write(stack: seq<Stage>, buf: seq<Byte>, c: Codec): (w: Written)
    ensures |w.stack| == |stack|
  {
    if stack == [] || buf == [] then Written(stack, [], CurlOk)
    else
      match stack[0]
      case ClientStage => Written(stack, buf, CurlOk)
      case ErrorStage => Written(stack, [], BadContentEncoding)
      case Decoder(e, seen) =>
        var top := Decoder(e, seen + buf);
        if !c.ok(e, seen + buf) then Written([top] + stack[1..], [], BadContentEncoding)
        else
          var w := Write(stack[1..], NewOutput(c, e, seen, buf), c);
          Written([top] + w.stack, w.out, w.code)
  }

  /** A body arrives in pieces; the transfer stops at the first error. */
  function WriteAll(stack: seq<Stage>, chunks: seq<seq<Byte>>, c: Codec): Written
    decreases |chunks|
  {
    if chunks == [] then Written(stack, [], CurlOk)
    else
      var w := Write(stack, chunks[0], c);
      if w.code != CurlOk then w
      else
        var rest := WriteAll(w.stack, chunks[1..], c);
        Written(rest.stack, w.out + rest.out, rest.code)
  }

  // ---- the inverse ----------------------------------------------------------------------------------

  /** What the sender does: the encodings in the order in which they are listed. */
  function EncodeAll(es: seq<Encoding>, body: seq<Byte>, c: Codec): seq<Byte>
    decreases |es|
  {
    if es == [] then body else EncodeAll(es[1..], c.enc(es[0], body), c)
  }

  /** A stack of decoders for the listed encodings: the last one is on top. */
  function Decoders(es: seq<Encoding>): seq<Stage> {
    if es == [] then [ClientStage] else [Decoder(es[|es| - 1], [])] + Decoders(es[..|es| - 1])
  }

  /** The stack has been given x in all: each decoder has seen what the one above made of it. */
  predicate Fed(stack: seq<Stage>, es: seq<Encoding>, x: seq<Byte>, c: Codec)
    decreases |es|
  {
    if es == [] then stack == [ClientStage]
    else
      && stack != [] && stack[0] == Decoder(es[|es| - 1], x)
      && Fed(stack[1..], es[..|es| - 1], c.dec(es[|es| - 1], x), c)
  }

  /** All decoders accept x, and what they make of it. */
  predicate Accepts(es: seq<Encoding>, x: seq<Byte>, c: Codec)
    decreases |es|
  {
    es == [] || (c.ok(es[|es| - 1], x) && Accepts(es[..|es| - 1], c.dec(es[|es| - 1], x), c))
  }

  function DecodeAll(es: seq<Encoding>, x: seq<Byte>, c: Codec): seq<Byte>
    decreases |es|
  {
    if es == [] then x else DecodeAll(es[..|es| - 1], c.dec(es[|es| - 1], x), c)
  }

  lemma {:induction false} EncodeLast(es: seq<Encoding>, e: Encoding, body: seq<Byte>, c: Codec)
    ensures EncodeAll(es + [e], body, c) == c.enc(e, EncodeAll(es, body, c))
    decreases |es|
  {
    if es == [] {
      assert (es + [e])[1..] == [];
    } else {
      assert (es + [e])[1..] == es[1..] + [e];
      EncodeLast(es[1..], e, c.enc(es[0], body), c);
    }
  }

  /** The decoders undo the encodings, and accept every beginning of the encoded body. */
  lemma {:induction false} DecodersInvert(es: seq<Encoding>, body: seq<Byte>, x: seq<Byte>, c: Codec)
    requires Lawful(c) && x <= EncodeAll(es, body, c)
    ensures Accepts(es, x, c)
    ensures x == EncodeAll(es, body, c) ==> DecodeAll(es, x, c) == body
    decreases |es|
  {
    if es != [] {
      var e, front := es[|es| - 1], es[..|es| - 1];
      assert es == front + [e];
      EncodeLast(front, e, body, c);
      DecodersInvert(front, body, c.dec(e, x), c);
    }
  }

  lemma {:induction false} FreshStackFed(es: seq<Encoding>, c: Codec)
    requires Lawful(c)
    ensures Fed(Decoders(es), es, [], c) && DecodeAll(es, [], c) == []
    decreases |es|
  {
    if es != [] {
      FreshStackFed(es[..|es| - 1], c);
    }
  }

  /** One write into a fed stack. */
  lemma {:induction false} WriteFed(stack: seq<Stage>, es: seq<Encoding>, x: seq<Byte>, buf: seq<Byte>, c: Codec)
    requires Lawful(c) && Fed(stack, es, x, c) && Accepts(es, x + buf, c)
    ensures var w := Write(stack, buf, c);
      w.code == CurlOk && Fed(w.stack, es, x + buf, c) && DecodeAll(es, x, c) + w.out == DecodeAll(es, x + buf, c)
    decreases |es|
  {
    if buf == [] {
      assert x + buf == x;
      assert DecodeAll(es, x, c) + [] == DecodeAll(es, x, c);
    } else if es != [] {
      var e, front := es[|es| - 1], es[..|es| - 1];
      var added := NewOutput(c, e, x, buf);
      assert x <= x + buf;
      assert c.dec(e, x) + added == c.dec(e, x + buf);
      WriteFed(stack[1..], front, c.dec(e, x), added, c);
      var w := Write(stack, buf, c);
      assert w.stack[1..] == Write(stack[1..], added, c).stack;
    }
  }

  lemma {:induction false} WriteAllFed(stack: seq<Stage>, es: seq<Encoding>, x: seq<Byte>, chunks: seq<seq<Byte>>,
                                       body: seq<Byte>, c: Codec)
    requires Lawful(c) && Fed(stack, es, x, c) && x + Flatten(chunks) == EncodeAll(es, body, c)
    ensures var w := WriteAll(stack, chunks, c); w.code == CurlOk && DecodeAll(es, x, c) + w.out == body
    decreases |chunks|
  {
    hide Lawful, Fed, Accepts, Write, DecodeAll, EncodeAll;
    if chunks == [] {
      assert x + [] == x;
      DecodersInvert(es, body, x, c);
      assert DecodeAll(es, x, c) + [] == DecodeAll(es, x, c);
    } else {
      var y := x + chunks[0];
      assert y + Flatten(chunks[1..]) == x + Flatten(chunks);
      DecodersInvert(es, body, y, c);
      WriteFed(stack, es, x, chunks[0], c);
      var w := Write(stack, chunks[0], c);
      WriteAllFed(w.stack, es, y, chunks[1..], body, c);
      var rest := WriteAll(w.stack, chunks[1..], c);
      assert DecodeAll(es, x, c) + (w.out + rest.out) == (DecodeAll(es, x, c) + w.out) + rest.out;
    }
  }

  /** Whatever the writes, the client gets the body of a message that was encoded with the listed
      encodings. */
  lemma StackInvertsEncoding(es: seq<Encoding>, body: seq<Byte>, chunks: seq<seq<Byte>>, c: Codec)
    requires Lawful(c) && Flatten(chunks) == EncodeAll(es, body, c)
    ensures var w := WriteAll(Decoders(es), chunks, c); w.code == CurlOk && w.out == body
  {
    FreshStackFed(es, c);
    assert [] + Flatten(chunks) == Flatten(chunks);
    WriteAllFed(Decoders(es), es, [], chunks, body, c);
    var w := WriteAll(Decoders(es), chunks, c);
    assert [] + w.out == w.out;
  }

  // ---- from the header to the stack -----------------------------------------------------------------

  predicate Recognised(names: seq<string>) {
    forall i :: 0 <= i < |names| ==> FindEncoding(names[i]).Some?
  }

  function EncodingsOf(names: seq<string>): (es: seq<Encoding>)
    requires Recognised(names)
    ensures |es| == |names|
  {
    if names == [] then [] else [FindEncoding(names[0]).value] + EncodingsOf(names[1..])
  }

  lemma {:induction false} EncodingsLast(names: seq<string>)
    requires Recognised(names) && names != []
    ensures var n := |names| - 1;
      EncodingsOf(names) == EncodingsOf(names[..n]) + [FindEncoding(names[n]).value]
    decreases |names|
  {
    var n := |names| - 1;
    if n > 0 {
      EncodingsLast(names[1..]);
      assert names[1..][..n - 1] == names[..n][1..];
    }
  }

  /** Pushing recognised names gives the decoders for their encodings, the last one on top. */
  lemma {:induction false} PushDecoders(names: seq<string>)
    requires Recognised(names) && names != []
    ensures Push([], names, false) == Decoders(EncodingsOf(names))
    decreases |names|
  {
    hide FindEncoding;
    var n := |names| - 1;
    EncodingsLast(names);
    assert names == names[..n] + [names[n]];
    PushMore([], names[..n], [names[n]], false);
    assert EncodingsOf(names)[..n] == EncodingsOf(names[..n]);
    if n > 0 {
      PushDecoders(names[..n]);
    }
  }

  /** The whole pipeline: for a header that lists recognised encodings, with any blanks and empty
      items in between, a body encoded in the listed order is delivered as it was. */
  lemma PipelineInverse(header: string, body: seq<Byte>, chunks: seq<seq<Byte>>, c: Codec)
    requires Lawful(c) && Names(header) != [] && Recognised(Names(header))
    requires Flatten(chunks) == EncodeAll(EncodingsOf(Names(header)), body, c)
    ensures var w := WriteAll(Push([], Names(header), false), chunks, c); w.code == CurlOk && w.out == body
  {
    PushDecoders(Names(header));
    StackInvertsEncoding(EncodingsOf(Names(header)), body, chunks, c);
  }

  // ---- unknown names --------------------------------------------------------------------------------

  /** Behind an unknown encoding the client never gets anything. */
  lemma {:induction false} NothingPassesError(stack: seq<Stage>, buf: seq<Byte>, c: Codec)
    requires ErrorStage in stack && forall i :: 0 <= i < |stack| - 1 ==> stack[i] != ClientStage
    ensures Write(stack, buf, c).out == []
    decreases |stack|
  {
    if buf != [] && stack[0].Decoder? {
      assert ErrorStage in stack[1..];
      NothingPassesError(stack[1..], NewOutput(c, stack[0].e, stack[0].seen, buf), c);
    }
  }

  /** An unknown last encoding makes every non-empty write fail, and no empty one. */
  lemma UnknownOnTop(names: seq<string>, unknown: string, buf: seq<Byte>, c: Codec)
    requires FindEncoding(unknown).None?
    ensures var w := Write(Push([], names + [unknown], false), buf, c);
      w.out == [] && (w.code == BadContentEncoding <==> buf != [])
  {
    PushMore([], names, [unknown], false);
  }
}
