/** The loops of lib/escape.c, with the buffer that doubles. */
module EscapeCodec {
  import opened CText
  import opened Escape

  datatype Code = OK | UrlMalformat

  /** One character of the rest of the work. */
  lemma EscapedStep(s: seq<Byte>, i: nat)
    requires i < |s|
    ensures Escaped(s[i..]) == (if Unreserved(s[i]) then [s[i]] else Triplet(s[i])) + Escaped(s[i + 1..])
  {
    assert s[i..][1..] == s[i + 1..];
  }

  lemma MoveOn<T>(whole: seq<T>, done: seq<T>, t: seq<T>, rest: seq<T>)
    requires whole == done + (t + rest)
    ensures whole == (done + t) + rest
  {
  }

  /** A larger copy of the buffer, with what was written so far. */
  method Grow(ns: array<Byte>, alloc: nat, strindex: nat) returns (bigger: array<Byte>)
    requires strindex <= ns.Length <= alloc
    ensures fresh(bigger) && bigger.Length == alloc && bigger[..strindex] == ns[..strindex]
  {
    bigger := new Byte[alloc];
    var k := 0;
    while k < strindex
      invariant k <= strindex && bigger[..k] == ns[..k]
    {
      bigger[k] := ns[k];
      k := k + 1;
    }
  }

  /** The size of a buffer that started at this size and was doubled so many times. */
  predicate DoubledTo(size: nat, start: nat, doublings: nat) {
    if doublings == 0 then size == start
    else if doublings == 1 then size == 2 * start
    else doublings == 2 && size == 4 * start
  }

  /** The character at hand, with the buffer doubled first when it would not fit. */
  method PutEscaped(c: Byte, buf: array<Byte>, strindex: nat, newlen: nat) returns (buf': array<Byte>, newlen': nat)
    requires strindex + 2 <= newlen <= buf.Length
    modifies buf
    ensures var t := if Unreserved(c) then [c] else Triplet(c);
      && newlen' == newlen - 1 + |t| <= buf'.Length && strindex + |t| < buf'.Length
      && buf'[..strindex + |t|] == old(buf[..strindex]) + t
    ensures buf' == buf || (fresh(buf') && buf'.Length == buf.Length * 2 && newlen' > buf.Length)
  {
    hide Triplet;
    buf', newlen' := buf, newlen;
    if Unreserved(c) {
      buf[strindex] := c;
    } else {
      newlen' := newlen + 2;
      if newlen' > buf.Length {
        buf' := Grow(buf, buf.Length * 2, strindex);
      }
      PutTriplet(buf', strindex, c);
    }
  }

  /**
   * Escaping into a buffer of the length of the input, which is doubled when the result outgrows it:
   * once is always enough for the character at hand, and it happens twice at most. The result is NULL
   * for a negative length only.
   */
  method EasyEscape(text: seq<Byte>, inlength: int) returns (ns: array?<Byte>, ghost doublings: nat)
    requires inlength <= |text| && (inlength == 0 ==> 0 in text)
    ensures ns == null <==> inlength < 0
    ensures ns != null ==>
      var e := Escaped(Data(text, inlength)); |e| < ns.Length && ns[..|e|] == e && ns[|e|] == 0
    ensures ns != null ==> DoubledTo(ns.Length, |Data(text, inlength)| + 1, doublings)
  {
    hide Escaped, Triplet, StrLen, Unreserved, Halfway, DoubledTo;
    doublings := 0;
    if inlength < 0 {
      return null, 0;
    }
    var length: nat := if inlength != 0 then inlength else StrLen(text);
    ghost var s := text[..length];
    var newlen := length + 1;
    var buf := new Byte[length + 1];
    var strindex, i := 0, 0;
    ghost var done := buf[..0];
    HalfwayStart(s, done);
    NotDoubled(length + 1);
    while i < length
      invariant i <= length && newlen == strindex + (length - i) + 1 <= buf.Length && fresh(buf)
      invariant strindex <= 3 * i && DoubledTo(buf.Length, length + 1, doublings)
      invariant buf[..strindex] == done && Halfway(s, i, done)
    {
      ghost var t := if Unreserved(s[i]) then [s[i]] else Triplet(s[i]);
      HalfwayStep(s, i, done, t);
      done := done + t;
      var before := buf;
      buf, newlen := PutEscaped(text[i], before, strindex, newlen);
      if buf != before {
        DoubledAgain(before.Length, length + 1, doublings, newlen);
        doublings := doublings + 1;
      }
      strindex := strindex + if Unreserved(text[i]) then 1 else 3;
      i := i + 1;
    }
    HalfwayEnd(s, done);
    buf[strindex] := 0;
    assert buf[..strindex] == Escaped(s);
    ns := buf;
  }

  /** The first i bytes have been escaped to done. */
  ghost predicate Halfway(s: seq<Byte>, i: nat, done: seq<Byte>) {
    i <= |s| && Escaped(s) == done + Escaped(s[i..])
  }

  lemma HalfwayStart(s: seq<Byte>, done: seq<Byte>)
    requires done == []
    ensures Halfway(s, 0, done)
  {
    assert s[0..] == s;
  }

  lemma HalfwayStep(s: seq<Byte>, i: nat, done: seq<Byte>, t: seq<Byte>)
    requires Halfway(s, i, done) && i < |s| && t == if Unreserved(s[i]) then [s[i]] else Triplet(s[i])
    ensures Halfway(s, i + 1, done + t)
  {
    hide Escaped, Triplet;
    EscapedStep(s, i);
    MoveOn(Escaped(s), done, t, Escaped(s[i + 1..]));
  }

  lemma HalfwayEnd(s: seq<Byte>, done: seq<Byte>)
    requires Halfway(s, |s|, done)
    ensures done == Escaped(s)
  {
    NoneLeft();
    assert s[|s|..] == [];
  }

  lemma NotDoubled(start: nat)
    ensures DoubledTo(start, start, 0)
  {
  }

  /** No more than three bytes for one: the third doubling never comes. */
  lemma DoubledAgain(size: nat, start: nat, doublings: nat, needed: nat)
    requires DoubledTo(size, start, doublings) && size < needed <= 3 * start
    ensures DoubledTo(2 * size, start, doublings + 1)
  {
  }

  lemma NoneLeft()
    ensures Escaped([]) == [] && Unescaped([]) == []
  {
  }

  /** snprintf of "%%%02X", which writes a NUL as well. */
  method PutTriplet(buf: array<Byte>, at: nat, b: Byte)
    requires at + 4 <= buf.Length
    modifies buf
    ensures buf[..at + 3] == old(buf[..at]) + Triplet(b) && buf[at + 3] == 0
  {
    buf[at], buf[at + 1], buf[at + 2], buf[at + 3] := PERCENT, Hex(b / 16), Hex(b % 16), 0;
  }

  /** Are there byte codes below 32? */
  predicate Controls(s: seq<Byte>) { exists k :: 0 <= k < |s| && s[k] < 0x20 }

  lemma ControlsAfter(whole: seq<Byte>, done: seq<Byte>, c: Byte, rest: seq<Byte>)
    requires whole == (done + [c]) + rest
    ensures c < 0x20 ==> Controls(whole)
    ensures Controls(done + [c]) <==> Controls(done) || c < 0x20
  {
    var t := done + [c];
    assert whole[|done|] == c == t[|done|];
    if Controls(done) {
      var k :| 0 <= k < |done| && done[k] < 0x20;
      assert t[k] < 0x20;
    }
  }

  /** Decoding; control characters in the result are an error when the caller does not want them. */
  method UrlDecode(text: seq<Byte>, length: nat, rejectCtrl: bool)
    returns (code: Code, ns: array?<Byte>, olen: nat)
    requires length <= |text| && (length == 0 ==> 0 in text)
    ensures code == UrlMalformat <==> rejectCtrl && Controls(Unescaped(Data(text, length)))
    ensures code == OK ==>
      && ns != null && olen == |Unescaped(Data(text, length))| && olen < ns.Length == |Data(text, length)| + 1
      && ns[..olen] == Unescaped(Data(text, length)) && ns[olen] == 0
    ensures code == UrlMalformat ==> ns == null && olen == 0
  {
    hide Unescaped, HexValue, StrLen, TripletFirst, HexByte, Decoded, Controls;
    var n: nat := if length != 0 then length else StrLen(text);
    ghost var s := text[..n];
    var alloc := n + 1;
    var buf := new Byte[alloc];
    var strindex, i := 0, 0;
    ghost var done := buf[..0];
    DecodedStart(s, done);
    alloc := alloc - 1;
    while alloc > 0
      invariant i + alloc == n && strindex <= i
      invariant buf[..strindex] == done && Decoded(s, i, done)
      invariant rejectCtrl ==> !Controls(done)
      decreases alloc
    {
      var c := text[i];
      ghost var from := i;
      if c == PERCENT && alloc > 2 && HexByte(text[i + 1]) && HexByte(text[i + 2]) {
        c := HexValue(text[i + 1]) * 16 + HexValue(text[i + 2]);
        i := i + 2;
        alloc := alloc - 2;
      }
      DecodedStep(s, from, done, c, i + 1);
      done := done + [c];
      if rejectCtrl && c < 0x20 {
        return UrlMalformat, null, 0;
      }
      buf[strindex] := c;
      strindex, i, alloc := strindex + 1, i + 1, alloc - 1;
    }
    DecodedEnd(s, done);
    buf[strindex] := 0;
    assert buf[..strindex] == done;
    code, ns, olen := OK, buf, strindex;
  }

  /** The first i bytes have been unescaped to done. */
  ghost predicate Decoded(s: seq<Byte>, i: nat, done: seq<Byte>) {
    i <= |s| && Unescaped(s) == done + Unescaped(s[i..])
  }

  lemma DecodedStart(s: seq<Byte>, done: seq<Byte>)
    requires done == []
    ensures Decoded(s, 0, done) && !Controls(done)
  {
    assert s[0..] == s;
  }

  /** The byte c is what stands from i on, up to the offset next. */
  lemma DecodedStep(s: seq<Byte>, i: nat, done: seq<Byte>, c: Byte, next: nat)
    requires Decoded(s, i, done) && i < |s|
    requires if i + 2 < |s| && s[i] == PERCENT && HexByte(s[i + 1]) && HexByte(s[i + 2])
      then c == HexValue(s[i + 1]) * 16 + HexValue(s[i + 2]) && next == i + 3 else c == s[i] && next == i + 1
    ensures Decoded(s, next, done + [c])
    ensures c < 0x20 ==> Controls(Unescaped(s))
    ensures Controls(done + [c]) <==> Controls(done) || c < 0x20
  {
    hide Unescaped, HexByte, HexValue, Controls;
    UnescapedStep(s, i);
    MoveOn(Unescaped(s), done, [c], Unescaped(s[next..]));
    ControlsAfter(Unescaped(s), done, c, Unescaped(s[next..]));
  }

  lemma DecodedEnd(s: seq<Byte>, done: seq<Byte>)
    requires Decoded(s, |s|, done)
    ensures done == Unescaped(s)
  {
    NoneLeft();
    assert s[|s|..] == [];
  }

  lemma UnescapedStep(s: seq<Byte>, i: nat)
    requires i < |s|
    ensures if i + 2 < |s| && s[i] == PERCENT && HexByte(s[i + 1]) && HexByte(s[i + 2])
      then Unescaped(s[i..]) == [HexValue(s[i + 1]) * 16 + HexValue(s[i + 2])] + Unescaped(s[i + 3..])
      else Unescaped(s[i..]) == [s[i]] + Unescaped(s[i + 1..])
  {
    assert s[i..][1..] == s[i + 1..];
    assert i + 2 < |s| ==> s[i..][3..] == s[i + 3..];
  }
}
