/** The loops of lib/base64.c over their buffers. */
module Base64Codec {
  import opened CText
  import opened Base64

  datatype Code = OK | BadContentEncoding

  /** The masks and shifts of the code are the four 6-bit values of the group. */
  lemma MaskedSixes(a: Byte, b: Byte, c: Byte)
    ensures Sixes(Group([a, b, c])) == [a / 4, a % 4 * 16 + b / 16, b % 16 * 4 + c / 64, c % 64]
  {
    var n := Group([a, b, c]);
    hide Sixes;
    SixesUnique(n, a / 4, a % 4 * 16 + b / 16, b % 16 * 4 + c / 64, c % 64);
  }

  /** One quantum of up to three bytes, and the NUL that snprintf puts behind it. */
  method PutQuad(t: Table, d: seq<Byte>, out: array<char>, o: nat)
    requires 1 <= |d| <= 3 && o + 5 <= out.Length
    modifies out
    ensures out[..o + 4] == old(out[..o]) + Quad(t, d) && out[o + 4] == NUL
  {
    var a, b, c: Byte := d[0], if |d| > 1 then d[1] else 0, if |d| > 2 then d[2] else 0;
    MaskedSixes(a, b, c);
    assert Group(d) == Group([a, b, c]);
    hide Group, Sixes, CharOf;
    out[o] := CharOf(t, a / 4);
    out[o + 1] := CharOf(t, a % 4 * 16 + b / 16);
    out[o + 2] := if |d| > 1 then CharOf(t, b % 16 * 4 + c / 64) else PAD;
    out[o + 3] := if |d| > 2 then CharOf(t, c % 64) else PAD;
    out[o + 4] := NUL;
  }

  lemma {:induction false} NoNulEncoded(t: Table, d: seq<Byte>)
    ensures NUL !in Encode(t, d)
    decreases |d|
  {
    if |d| > 3 {
      NoNulEncoded(t, d[3..]);
    }
  }

  lemma EncodeStep(t: Table, inputbuff: seq<Byte>, d: seq<Byte>, i: nat, parts: nat)
    requires d <= inputbuff && i < |d| && parts == if |d| - i < 3 then |d| - i else 3
    ensures Encode(t, d[i..]) == Quad(t, inputbuff[i..i + parts]) + Encode(t, d[i + parts..])
  {
    hide Quad;
    var rest := d[i..];
    assert rest[..parts] == inputbuff[i..i + parts] && rest[parts..] == d[i + parts..];
    assert |rest| <= 3 ==> rest[..parts] == rest && Encode(t, rest[parts..]) == "";
  }

  lemma EncodeNone(t: Table)
    ensures Encode(t, []) == ""
  {
  }

  /** The whole input in quanta of three bytes. */
  method PutAll(t: Table, inputbuff: seq<Byte>, insize: nat, out: array<char>) returns (o: nat)
    requires insize <= |inputbuff| && |Encode(t, inputbuff[..insize])| < out.Length
    modifies out
    ensures o == |Encode(t, inputbuff[..insize])| && out[..o] == Encode(t, inputbuff[..insize]) && out[o] == NUL
  {
    hide Quad, Encode;
    EncodeNone(t);
    ghost var d := inputbuff[..insize];
    var left: nat, i: nat := insize, 0;
    o := 0;
    assert d[i..] == d && out[..o] == "";
    while left > 0
      invariant i + left == |d| && o + |Encode(t, d[i..])| == |Encode(t, d)|
      invariant out[..o] + Encode(t, d[i..]) == Encode(t, d)
    {
      var parts := if left < 3 then left else 3;
      EncodeStep(t, inputbuff, d, i, parts);
      PutQuad(t, inputbuff[i..i + parts], out, o);
      i, left, o := i + parts, left - parts, o + 4;
    }
    assert d[i..] == [] && out[..o] == Encode(t, d);
    out[o] := NUL;
    assert out[..o] == Encode(t, d);
  }

  /** The encoder: a buffer of insize * 4 / 3 + 4 is always enough. */
  method Base64Encode(t: Table, inputbuff: seq<Byte>, insize: nat) returns (out: array<char>, outlen: nat)
    requires insize <= |inputbuff| && (insize == 0 ==> 0 in inputbuff)
    ensures out.Length == |Data(inputbuff, insize)| * 4 / 3 + 4 && outlen < out.Length
    ensures out[..outlen] == Encode(t, Data(inputbuff, insize)) && out[outlen] == NUL
  {
    hide StrLen, Encode;
    var size := insize;
    if size == 0 {
      size := StrLen(inputbuff);
    }
    ghost var d := inputbuff[..size];
    BufferSuffices(t, d);
    NoNulEncoded(t, d);
    out := new char[size * 4 / 3 + 4];
    var o := PutAll(t, inputbuff, size, out);
    assert forall k :: 0 <= k < o ==> out[k] == out[..o][k] && out[..o][k] in Encode(t, d);
    outlen := TextLength(out, o);
  }

  method TextLength(a: array<char>, ghost end: nat) returns (n: nat)
    requires end < a.Length && a[end] == NUL && forall k :: 0 <= k < end ==> a[k] != NUL
    ensures n == end
  {
    n := 0;
    while a[n] != NUL
      invariant n <= end
      decreases end - n
    {
      n := n + 1;
    }
  }

  /** The table search of decodeQuantum. */
  method Lookup(c: char) returns (found: bool, v: nat)
    requires c != NUL
    ensures found <==> InAlphabet(c)
    ensures found ==> v == ValueOf(c)
  {
    v := 0;
    while v < 64 && CharOf(Standard, v) != c
      invariant v <= 64 && forall u: nat :: u < v ==> CharOf(Standard, u) != c
    {
      v := v + 1;
    }
    found := v < 64;
    assert CharOf(Standard, ValueOf(c)) != c ==> !InAlphabet(c);
    if found {
      TableInverse(v);
    }
  }

  /** Only the padding at the end of a quantum is "=". */
  predicate PadsAtEnd(q: string) {
    |q| == 4 && NUL !in q && forall k :: 0 <= k < 4 - PadOf(q) ==> q[k] != PAD
  }

  /** The number made of the first k characters. */
  function Partial(q: string, k: nat): (x: nat)
    requires k <= |q|
  {
    if k == 0 then 0 else Partial(q, k - 1) * 64 + ValueOf(q[k - 1])
  }

  /** How many of the characters are "=", wherever they stand. */
  function Pads(q: string): (n: nat)
    requires |q| == 4
    ensures n <= 4
  {
    PadAt(q, 0) + PadAt(q, 1) + PadAt(q, 2) + PadAt(q, 3)
  }

  function PadAt(q: string, k: nat): nat
    requires k < |q|
  {
    if q[k] == PAD then 1 else 0
  }

  /** Every character is of the alphabet or "=". */
  predicate Readable(q: string) { forall k :: 0 <= k < |q| ==> q[k] == PAD || InAlphabet(q[k]) }

  /** How many bytes a quantum writes: the first one always. */
  function Written(q: string): nat
    requires |q| == 4
  {
    if Pads(q) < 3 then 3 - Pads(q) else 1
  }

  /** The number of bytes is computed without a sign, and four "=" wrap it around. */
  const SIZE_T: nat := 0x1_0000_0000_0000_0000

  /** One quantum: "=" counts as zero bits and as one byte less, in any place. */
  method DecodeQuantum(dest: array<Byte>, pos: nat, q: string) returns (result: nat)
    requires |q| == 4 && NUL !in q && pos + Written(q) <= dest.Length
    modifies dest
    ensures result == if Readable(q) then (3 - Pads(q)) % SIZE_T else 0
    ensures if Readable(q) then dest[..pos + Written(q)] == old(dest[..pos]) + Bytes(Number(q))[..Written(q)]
      else dest[..] == old(dest[..])
  {
    hide ValueOf;
    PadValue();
    var padding, x, i := 0, 0, 0;
    while i < 4
      invariant i <= 4 && x == Partial(q, i) && dest[..] == old(dest[..])
      invariant padding == (if i > 0 then PadAt(q, 0) else 0) + (if i > 1 then PadAt(q, 1) else 0)
        + (if i > 2 then PadAt(q, 2) else 0) + (if i > 3 then PadAt(q, 3) else 0)
      invariant forall k :: 0 <= k < i ==> q[k] == PAD || InAlphabet(q[k])
    {
      if q[i] == PAD {
        x := x * 64;
        padding := padding + 1;
      } else {
        var found, v := Lookup(q[i]);
        if !found {
          return 0;
        }
        x := x * 64 + v;
      }
      i := i + 1;
    }
    PartialIsNumber(q);
    assert padding == Pads(q);
    result := PutBytes(dest, pos, x, padding);
  }

  /** With its padding at the end a quantum is well-formed if readable, and gives its bytes. */
  lemma PaddedQuantum(q: string)
    requires PadsAtEnd(q)
    ensures Pads(q) == PadOf(q) && Written(q) == 3 - PadOf(q) && (Readable(q) <==> WellFormed(q))
    ensures (3 - Pads(q)) % SIZE_T == 3 - PadOf(q) && Bytes(Number(q))[..Written(q)] == Unquad(q)
  {
    hide InAlphabet;
    assert forall k :: 4 - PadOf(q) <= k < 4 ==> q[k] == PAD;
    UnquadIs(q);
  }

  lemma UnquadIs(q: string)
    requires |q| == 4
    ensures Unquad(q) == Bytes(Number(q))[..3 - PadOf(q)]
  {
  }

  lemma PartialIsNumber(q: string)
    requires |q| == 4
    ensures Partial(q, 4) == Number(q)
  {
    hide ValueOf;
    assert Partial(q, 1) == ValueOf(q[0]);
    assert Partial(q, 2) == Partial(q, 1) * 64 + ValueOf(q[1]);
    assert Partial(q, 3) == Partial(q, 2) * 64 + ValueOf(q[2]);
  }

  /** The bytes of a 24-bit number, from the last to the first. */
  method PutBytes(dest: array<Byte>, pos: nat, number: nat, padding: nat) returns (result: nat)
    requires number < 0x1000000 && padding <= 4 && pos + (if padding < 3 then 3 - padding else 1) <= dest.Length
    modifies dest
    ensures result == (3 - padding) % SIZE_T
    ensures var n := if padding < 3 then 3 - padding else 1;
      dest[..pos + n] == old(dest[..pos]) + Bytes(number)[..n]
  {
    var x := number;
    if padding < 1 {
      dest[pos + 2] := x % 0x100;
    }
    x := x / 0x100;
    if padding < 2 {
      dest[pos + 1] := x % 0x100;
    }
    x := x / 0x100;
    dest[pos] := x % 0x100;
    result := (3 - padding) % SIZE_T;
  }

  /** The character at k, or the NUL behind the last. */
  function At(s: string, k: nat): char { if k < |s| then s[k] else NUL }

  /** Is the length good, and is the padding at the end and nowhere else? */
  method CheckPadding(src: string) returns (ok: bool, padding: nat)
    requires NUL !in src
    ensures ok ==> src != "" && |src| % 4 == 0 && padding == PadOf(src)
    ensures ok ==> forall k :: 0 <= k < |src| - padding ==> src[k] != PAD
    ensures !ok ==> !WellFormed(src)
  {
    hide InAlphabet;
    padding := 0;
    if src == "" || |src| % 4 != 0 {
      return false, 0;
    }
    var length := 0;
    while At(src, length) != PAD && length < |src|
      invariant length <= |src| && PAD !in src[..length]
      decreases |src| - length
    {
      length := length + 1;
    }
    if At(src, length) == PAD {
      padding := 1;
      if At(src, length + 1) == PAD {
        padding := 2;
      }
    }
    PaddingChecked(src, length, padding);
    ok := length + padding == |src|;
  }

  /** The quantums, one after the other, until one is bad. */
  method DecodeAll(src: string, quanta: nat, padding: nat, newstr: array<Byte>) returns (ok: bool)
    requires NUL !in src && src != "" && |src| == 4 * quanta && padding == PadOf(src)
    requires forall k :: 0 <= k < |src| - padding ==> src[k] != PAD
    requires newstr.Length == 3 * quanta - padding + 1
    modifies newstr
    ensures ok <==> WellFormed(src)
    ensures ok ==> newstr[..newstr.Length - 1] == Decode(src) && newstr[newstr.Length - 1] == 0
  {
    hide Unquad, InAlphabet, Decode, PadOf, WellFormed, PadsAtEnd, Pads, Written, Readable, Bytes, Number, Decoding;
    ghost var rawlen := 3 * quanta - padding;
    var pos: nat, i: nat := 0, 0;
    ghost var done := newstr[..0];
    DecodingStart(src, done);
    while i < quanta
      invariant i <= quanta && pos == (if i < quanta then 3 * i else rawlen)
      invariant newstr[..pos] == done && Decoding(src, i, done)
      invariant forall k :: 0 <= k < 4 * i && k < |src| - padding ==> InAlphabet(src[k])
    {
      var q := src[4 * i..4 * i + 4];
      QuantumOf(src, i, q);
      DecodingStep(src, i, q, done);
      PaddedQuantum(q);
      var result := DecodeQuantum(newstr, pos, q);
      if result == 0 {
        return false;
      }
      done := done + Unquad(q);
      pos, i := pos + result, i + 1;
    }
    AllGood(src);
    DecodingEnd(src, i, done);
    newstr[pos] := 0;
    assert newstr[..pos] == done;
    ok := true;
  }

  /** The first i quantums have been decoded to done. */
  ghost predicate Decoding(src: string, i: nat, done: seq<Byte>) {
    |src| % 4 == 0 && 4 * i <= |src| && Decode(src) == done + Decode(src[4 * i..])
  }

  lemma DecodingStart(src: string, done: seq<Byte>)
    requires done == [] && |src| % 4 == 0
    ensures Decoding(src, 0, done)
  {
    assert src[0..] == src;
  }

  lemma DecodingStep(src: string, i: nat, q: string, done: seq<Byte>)
    requires Decoding(src, i, done) && |src| % 4 == 0 && 4 * i < |src| && q == src[4 * i..4 * i + 4]
    ensures Decoding(src, i + 1, done + Unquad(q))
  {
    hide Decode, Unquad;
    DecodeStep(src, i, q);
    var rest := Decode(src[4 * (i + 1)..]);
    assert done + (Unquad(q) + rest) == (done + Unquad(q)) + rest;
  }

  lemma DecodingEnd(src: string, i: nat, done: seq<Byte>)
    requires Decoding(src, i, done) && 4 * i == |src| && src != ""
    ensures done == Decode(src)
  {
    AllGood(src);
    assert src[4 * i..] == src[|src|..];
  }

  /** Decoding succeeds exactly for well-formed input, and then fills exactly rawlen bytes. */
  method Base64Decode(src: string) returns (code: Code, out: array?<Byte>, outlen: nat)
    requires NUL !in src
    ensures code == OK <==> WellFormed(src)
    ensures if code == OK
      then out != null && out.Length == outlen + 1 && outlen == |src| / 4 * 3 - PadOf(src)
        && out[..outlen] == Decode(src) && out[outlen] == 0
      else out == null && outlen == 0
  {
    hide Decode, PadOf, WellFormed;
    code, out, outlen := BadContentEncoding, null, 0;
    var ok, padding := CheckPadding(src);
    if !ok {
      return;
    }
    var quanta := |src| / 4;
    var newstr := new Byte[quanta * 3 - padding + 1];
    ok := DecodeAll(src, quanta, padding, newstr);
    if ok {
      code, out, outlen := OK, newstr, quanta * 3 - padding;
    }
  }

  lemma AllGood(src: string)
    requires src != "" && |src| % 4 == 0
    ensures Decode(src[|src|..]) == []
    ensures (forall k :: 0 <= k < |src| - PadOf(src) ==> InAlphabet(src[k])) ==> WellFormed(src)
  {
  }

  lemma DecodeStep(src: string, i: nat, q: string)
    requires |src| % 4 == 0 && 4 * i < |src| && q == src[4 * i..4 * i + 4]
    ensures Decode(src[4 * i..]) == Unquad(q) + Decode(src[4 * (i + 1)..])
  {
    var rest := src[4 * i..];
    assert rest[..4] == q && rest[4..] == src[4 * (i + 1)..];
  }

  /** What the two tests on the padding establish. */
  lemma PaddingChecked(src: string, length: nat, padding: nat)
    requires length <= |src| && PAD !in src[..length] && (length < |src| ==> src[length] == PAD)
    requires padding == if At(src, length) != PAD then 0 else if At(src, length + 1) == PAD then 2 else 1
    requires src != "" && |src| % 4 == 0
    ensures length + padding == |src| ==> padding == PadOf(src) && forall k :: 0 <= k < length ==> src[k] != PAD
    ensures length + padding != |src| ==> !WellFormed(src)
  {
    assert forall k :: 0 <= k < length ==> src[k] == src[..length][k];
  }

  lemma QuantumOf(src: string, i: nat, q: string)
    requires |src| % 4 == 0 && 4 * i < |src| && q == src[4 * i..4 * i + 4] && NUL !in src
    requires forall k :: 0 <= k < |src| - PadOf(src) ==> src[k] != PAD
    ensures PadsAtEnd(q) && PadOf(q) == if 4 * i + 4 == |src| then PadOf(src) else 0
    ensures WellFormed(q) ==> forall k :: 4 * i <= k < 4 * i + 4 && k < |src| - PadOf(src) ==> InAlphabet(src[k])
    ensures WellFormed(src) ==> WellFormed(q)
  {
    hide InAlphabet;
    assert forall k :: 0 <= k < 4 ==> q[k] == src[4 * i + k];
    assert forall k :: 4 * i <= k < 4 * i + 4 ==> src[k] == q[k - 4 * i];
  }
}
