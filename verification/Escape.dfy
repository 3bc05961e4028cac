/** Percent encoding and decoding (lib/escape.c; section 2 of RFC 3986). */
module Escape {
  import opened CText

  const PERCENT: Byte := 0x25

  /** The unreserved characters of section 2.3 of RFC 3986. */
  predicate Unreserved(b: Byte) { IsAlnum(b as char) || b as char in "-._~" }

  predicate HexByte(b: Byte) { IsXDigit(b as char) }

  /** Upper-case hexadecimal digits. */
  function Hex(v: nat): (b: Byte)
    requires v < 16
    ensures HexByte(b) && !IsLower(b as char) && HexValue(b) == v
  {
    if v < 10 then 0x30 + v else 0x41 + v - 10
  }

  function HexValue(b: Byte): (v: nat)
    requires HexByte(b)
    ensures v < 16
  {
    if b <= 0x39 then b - 0x30 else if b <= 0x46 then b - 0x41 + 10 else b - 0x61 + 10
  }

  function Triplet(b: Byte): (t: seq<Byte>)
    ensures |t| == 3 && t[0] == PERCENT && HexByte(t[1]) && HexByte(t[2])
    ensures HexValue(t[1]) * 16 + HexValue(t[2]) == b
  {
    [PERCENT, Hex(b / 16), Hex(b % 16)]
  }

  function Escaped(s: seq<Byte>): (r: seq<Byte>)
    ensures |s| <= |r| <= 3 * |s|
  {
    if s == [] then []
    else (if Unreserved(s[0]) then [s[0]] else Triplet(s[0])) + Escaped(s[1..])
  }

  /** Does a "%" with two hexadecimal digits come first? */
  predicate TripletFirst(s: seq<Byte>) {
    |s| > 2 && s[0] == PERCENT && HexByte(s[1]) && HexByte(s[2])
  }

  function Unescaped(s: seq<Byte>): (r: seq<Byte>)
    ensures |r| <= |s|
    decreases |s|
  {
    if s == [] then []
    else if TripletFirst(s) then [HexValue(s[1]) * 16 + HexValue(s[2])] + Unescaped(s[3..])
    else [s[0]] + Unescaped(s[1..])
  }

  /** Unescaping gives back every byte string, zero bytes included. */
  lemma {:induction false} RoundTrip(s: seq<Byte>)
    ensures Unescaped(Escaped(s)) == s
    decreases |s|
  {
    if s != [] {
      var e := Escaped(s);
      RoundTrip(s[1..]);
      if Unreserved(s[0]) {
        assert e[1..] == Escaped(s[1..]);
      } else {
        assert e[..3] == Triplet(s[0]) && e[3..] == Escaped(s[1..]);
        assert e[0] == PERCENT && e[1] == Triplet(s[0])[1] && e[2] == Triplet(s[0])[2];
      }
    }
  }

  /** The output is made of unreserved characters and of "%" with two upper-case hexadecimal digits. */
  lemma {:induction false} OutputAlphabet(s: seq<Byte>, i: nat)
    requires i < |Escaped(s)|
    ensures var e := Escaped(s);
      && (Unreserved(e[i]) || e[i] == PERCENT)
      && (e[i] == PERCENT ==>
        && i + 2 < |e| && HexByte(e[i + 1]) && HexByte(e[i + 2])
        && !IsLower(e[i + 1] as char) && !IsLower(e[i + 2] as char))
    decreases |s|
  {
    var k := if Unreserved(s[0]) then 1 else 3;
    assert Escaped(s)[k..] == Escaped(s[1..]);
    if i >= k {
      OutputAlphabet(s[1..], i - k);
    }
  }

  /** Strings that escaping can give. */
  predicate Normal(s: seq<Byte>)
    decreases |s|
  {
    s == []
    || (Unreserved(s[0]) && Normal(s[1..]))
    || (TripletFirst(s) && !IsLower(s[1] as char) && !IsLower(s[2] as char)
      && !Unreserved(HexValue(s[1]) * 16 + HexValue(s[2])) && Normal(s[3..]))
  }

  lemma HexUnique(a: Byte, b: Byte)
    requires HexByte(a) && HexByte(b)
    ensures Triplet(HexValue(a) * 16 + HexValue(b)) == [PERCENT, a, b] <==> !IsLower(a as char) && !IsLower(b as char)
  {
    var n := HexValue(a) * 16 + HexValue(b);
    assert n / 16 == HexValue(a) && n % 16 == HexValue(b);
  }

  /** Escaping what was unescaped gives the string back exactly when it was in the normal form. */
  lemma {:induction false} EscapeOfUnescape(s: seq<Byte>)
    ensures Escaped(Unescaped(s)) == s <==> Normal(s)
    decreases |s|
  {
    if s == [] {
    } else if TripletFirst(s) {
      EscapeOfUnescape(s[3..]);
      TripletBack(s, Unescaped(s[3..]));
    } else {
      EscapeOfUnescape(s[1..]);
      PlainBack(s, Unescaped(s[1..]));
    }
  }

  lemma TripletBack(s: seq<Byte>, t: seq<Byte>)
    requires TripletFirst(s) && (Escaped(t) == s[3..] <==> Normal(s[3..]))
    ensures Escaped([HexValue(s[1]) * 16 + HexValue(s[2])] + t) == s <==> Normal(s)
  {
    hide Triplet, HexValue, HexByte;
    var b := HexValue(s[1]) * 16 + HexValue(s[2]);
    assert ([b] + t)[1..] == t;
    assert Escaped([b] + t) == (if Unreserved(b) then [b] else Triplet(b)) + Escaped(t);
    assert Normal(s) <==> !IsLower(s[1] as char) && !IsLower(s[2] as char) && !Unreserved(b) && Normal(s[3..]);
    hide Normal, Escaped;
    if Unreserved(b) {
      assert Escaped([b] + t)[0] == b;
    } else {
      HexUnique(s[1], s[2]);
      assert s == [s[0], s[1], s[2]] + s[3..];
      PrefixSplit(Triplet(b), Escaped(t), [s[0], s[1], s[2]], s[3..]);
    }
  }

  lemma PlainBack(s: seq<Byte>, t: seq<Byte>)
    requires s != [] && !TripletFirst(s) && (Escaped(t) == s[1..] <==> Normal(s[1..]))
    ensures Escaped([s[0]] + t) == s <==> Normal(s)
  {
    hide HexValue;
    assert ([s[0]] + t)[1..] == t;
    if Unreserved(s[0]) {
      assert s == [s[0]] + s[1..];
      PrefixSplit([s[0]], Escaped(t), [s[0]], s[1..]);
    } else {
      var e := Triplet(s[0]) + Escaped(t);
      assert TripletFirst(e);
    }
  }

  lemma PrefixSplit<T>(a: seq<T>, b: seq<T>, c: seq<T>, d: seq<T>)
    requires |a| == |c|
    ensures a + b == c + d <==> a == c && b == d
  {
    if a + b == c + d {
      assert (a + b)[..|a|] == a && (c + d)[..|a|] == c;
      assert (a + b)[|a|..] == b && (c + d)[|a|..] == d;
    }
  }
}
