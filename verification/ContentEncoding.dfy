/** The request's writer stack of lib/content_encoding.c: built while the header value is
    scanned, written to, and closed stage by stage. */
module ContentEncoding {
  import opened CText
  import opened Wrappers
  import opened ContentEncodingSpec

  class Request {
    var writerStack: seq<Stage>  // top first
    var chunk: bool              // chunked transfer is decoded by the reader
    var client: seq<Byte>        // what the client's write callback got
    var closed: seq<Stage>       // the stages whose close handler ran
    const codec: Codec

    constructor (codec: Codec)
      ensures writerStack == [] && !chunk && client == [] && closed == [] && this.codec == codec
    {
      writerStack, chunk, client, closed := [], false, [], [];
      this.codec := codec;
    }

    /** Curl_build_unencoding_stack. Unknown names are not an error here. */
    method BuildStack(enclist: string, maybechunked: bool)
      modifies this`writerStack, this`chunk
      ensures writerStack == Push(old(writerStack), Names(enclist), maybechunked)
      ensures chunk <==> old(chunk) || AnyChunked(Names(enclist), maybechunked)
    {
      hide Names, Push, IsChunked, AnyChunked;
      NothingYet(writerStack, maybechunked);
      var i := 0;
      ghost var done: seq<string> := [];
      assert done + Names(enclist[0..]) == Names(enclist) by {
        assert enclist[0..] == enclist;
      }
      var more := true;
      while more
        invariant 0 <= i <= |enclist|
        invariant done + Names(enclist[i..]) == Names(enclist)
        invariant writerStack == Push(old(writerStack), done, maybechunked)
        invariant chunk <==> old(chunk) || AnyChunked(done, maybechunked)
        invariant !more ==> i == |enclist|
        decreases |enclist| - i, more
      {
        var name;
        i, name := ParseName(enclist, i);
        if name != "" {
          PushMore(old(writerStack), done, [name], maybechunked);
          AnyChunkedMore(done, name, maybechunked);
          done := done + [name];
          PushName(name, maybechunked);
        }
        more := i < |enclist|;
      }
      EmptyNames();
      assert enclist[i..] == "" && done + [] == done;
    }

    lemma NothingYet(stack: seq<Stage>, mc: bool)
      ensures Push(stack, [], mc) == stack && !AnyChunked([], mc)
    {
    }

    /** Stack one unencoding stage; the client writer goes below the first one. */
    method PushName(name: string, maybechunked: bool)
      modifies this`writerStack, this`chunk
      ensures writerStack == Push(old(writerStack), [name], maybechunked)
      ensures chunk <==> old(chunk) || IsChunked(name, maybechunked)
    {
      if IsChunked(name, maybechunked) {
        chunk := true;
      } else {
        if writerStack == [] {
          writerStack := [ClientStage];
        }
        writerStack := [NewStage(name)] + writerStack;
      }
    }

    /** Parse a single encoding name: skip blanks and commas, then read up to the next comma. */
    method ParseName(s: string, i0: nat) returns (i: nat, name: string)
      requires i0 <= |s|
      ensures i0 <= i <= |s| && (i0 < |s| ==> i0 < i)
      ensures Names(s[i0..]) == (if name == "" then [] else [name]) + Names(s[i..])
    {
      hide TrimRight, Names, CommaAt;
      var start := SkipSeparators(s, i0);
      i, name := ReadName(s, start);
      if start < |s| {
        FirstName(s[start..]);
        assert s[start..][i - start..] == s[i..];
        assert s[start..][..i - start] == s[start..i];
      } else {
        EmptyTail(s, start, i);
      }
    }

    method SkipSeparators(s: string, i0: nat) returns (i: nat)
      requires i0 <= |s|
      ensures i0 <= i <= |s| && Names(s[i..]) == Names(s[i0..])
      ensures i < |s| ==> !IsSpace(s[i]) && s[i] != ','
    {
      hide Names;
      i := i0;
      while i < |s| && (IsSpace(s[i]) || s[i] == ',')
        invariant i0 <= i <= |s| && Names(s[i..]) == Names(s[i0..])
      {
        SkipSeparator(s[i..]);
        assert s[i..][1..] == s[i + 1..];
        i := i + 1;
      }
    }

    lemma EmptyTail(s: string, start: nat, i: nat)
      requires start == |s| == i
      ensures TrimRight(s[start..i]) == "" && Names(s[start..]) == Names(s[i..]) == []
    {
      assert s[start..] == "";
    }

    /** The text up to the next comma, its length counted up to the last character that is not
        blank. */
    method ReadName(s: string, start: nat) returns (i: nat, name: string)
      requires start <= |s|
      ensures start <= i <= |s| && i - start == CommaAt(s[start..])
      ensures name == TrimRight(s[start..i])
    {
      var namelen := 0;
      i := start;
      while i < |s| && s[i] != ','
        invariant start <= i <= |s| && 0 <= namelen <= i - start
        invariant i - start <= CommaAt(s[start..])
        invariant s[start..start + namelen] == TrimRight(s[start..i])
      {
        assert s[start..i + 1][..i - start] == s[start..i] && s[start..][i - start] == s[i];
        if !IsSpace(s[i]) {
          namelen := i - start + 1;
        }
        i := i + 1;
      }
      name := s[start..start + namelen];
      assert i < |s| ==> s[start..][i - start] == ',';
    }

    /** Curl_unencode_write into the stage at position k of the stack. */
    method WriteAt(k: nat, buf: seq<Byte>) returns (code: Code)
      requires k <= |writerStack|
      modifies this`writerStack, this`client
      ensures |writerStack| == |old(writerStack)| && writerStack[..k] == old(writerStack)[..k]
      ensures var w := ContentEncodingSpec.Write(old(writerStack)[k..], buf, codec);
        writerStack[k..] == w.stack && client == old(client) + w.out && code == w.code
      decreases |writerStack| - k
    {
      code := CurlOk;
      if k == |writerStack| || buf == [] {
        return;
      }
      match writerStack[k]
      case ClientStage =>
        client := client + buf;
      case ErrorStage =>
        code := BadContentEncoding;
      case Decoder(e, seen) =>
        writerStack := writerStack[k := Decoder(e, seen + buf)];
        if !codec.ok(e, seen + buf) {
          code := BadContentEncoding;
        } else {
          assert writerStack[k + 1..] == old(writerStack)[k..][1..];
          ghost var mid := writerStack;
          code := WriteAt(k + 1, NewOutput(codec, e, seen, buf));
          assert writerStack[k] == mid[..k + 1][k];
          assert writerStack[..k] == mid[..k + 1][..k];
          assert writerStack[k..] == [writerStack[k]] + writerStack[k + 1..];
        }
    }

    method Write(buf: seq<Byte>) returns (code: Code)
      modifies this`writerStack, this`client
      ensures var w := ContentEncodingSpec.Write(old(writerStack), buf, codec);
        writerStack == w.stack && client == old(client) + w.out && code == w.code
    {
      assert old(writerStack)[0..] == old(writerStack);
      code := WriteAt(0, buf);
      assert writerStack[0..] == writerStack;
    }

    /** Curl_unencode_cleanup: from the top down, every stage is closed once. */
    method Cleanup()
      modifies this`writerStack, this`closed
      ensures writerStack == [] && closed == old(closed) + old(writerStack)
    {
      while writerStack != []
        invariant closed + writerStack == old(closed) + old(writerStack)
        decreases |writerStack|
      {
        var writer := writerStack[0];
        writerStack := writerStack[1..];
        closed := closed + [writer];
      }
    }

    /** A response: its header value, then its body in pieces. When the listed encodings are
        known and the body was encoded with them, the client gets exactly the original body. */
    method Receive(header: string, chunks: seq<seq<Byte>>, ghost body: seq<Byte>) returns (code: Code)
      requires writerStack == [] && client == [] && Lawful(codec)
      requires Names(header) != [] && Recognised(Names(header))
      requires Flatten(chunks) == EncodeAll(EncodingsOf(Names(header)), body, codec)
      modifies this
      ensures code == CurlOk && client == body
    {
      hide WriteAll, ContentEncodingSpec.Write, Lawful, EncodeAll, Flatten, Pending;
      BuildStack(header, false);
      StartPending(writerStack, header, chunks, body, codec);
      var k := 0;
      while k < |chunks|
        invariant 0 <= k <= |chunks| && Pending(writerStack, chunks, k, client, body, codec)
      {
        NextPending(writerStack, chunks, k, client, body, codec);
        code := Write(chunks[k]);
        k := k + 1;
      }
      NonePending(writerStack, chunks, client, body, codec);
      code := CurlOk;
    }
  }

  /** What the client has got, with what the pieces from k on will add, is the body. */
  predicate Pending(stack: seq<Stage>, chunks: seq<seq<Byte>>, k: nat, client: seq<Byte>, body: seq<Byte>, c: Codec)
    requires k <= |chunks|
  {
    var rest := WriteAll(stack, chunks[k..], c);
    client + rest.out == body && rest.code == CurlOk
  }

  lemma StartPending(stack: seq<Stage>, header: string, chunks: seq<seq<Byte>>, body: seq<Byte>, c: Codec)
    requires Lawful(c) && Names(header) != [] && Recognised(Names(header)) && stack == Push([], Names(header), false)
    requires Flatten(chunks) == EncodeAll(EncodingsOf(Names(header)), body, c)
    ensures Pending(stack, chunks, 0, [], body, c)
  {
    hide WriteAll, Lawful, EncodeAll, Push, Flatten;
    PipelineInverse(header, body, chunks, c);
    assert chunks[0..] == chunks;
    var out := WriteAll(stack, chunks, c).out;
    assert [] + out == out;
  }

  lemma NextPending(stack: seq<Stage>, chunks: seq<seq<Byte>>, k: nat, client: seq<Byte>, body: seq<Byte>, c: Codec)
    requires k < |chunks| && Pending(stack, chunks, k, client, body, c)
    ensures var w := ContentEncodingSpec.Write(stack, chunks[k], c);
      w.code == CurlOk && Pending(w.stack, chunks, k + 1, client + w.out, body, c)
  {
    hide ContentEncodingSpec.Write;
    assert chunks[k..][1..] == chunks[k + 1..];
    var w := ContentEncodingSpec.Write(stack, chunks[k], c);
    var rest := WriteAll(w.stack, chunks[k + 1..], c);
    assert (client + w.out) + rest.out == client + (w.out + rest.out);
  }

  lemma NonePending(stack: seq<Stage>, chunks: seq<seq<Byte>>, client: seq<Byte>, body: seq<Byte>, c: Codec)
    requires Pending(stack, chunks, |chunks|, client, body, c)
    ensures client == body
  {
    assert chunks[|chunks|..] == [];
    assert client + [] == client;
  }
}
