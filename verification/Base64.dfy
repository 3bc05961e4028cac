/** Base64 (lib/base64.c; sections 4 and 5 of RFC 4648). */
module Base64 {
  import opened CText

  datatype Table = Standard | UrlSafe

  const PAD: char := '='

  /** The table, as a function of the index. */
  function CharOf(t: Table, v: nat): (c: char)
    requires v < 64
  {
    if v < 26 then 'A' + v as char
    else if v < 52 then 'a' + (v - 26) as char
    else if v < 62 then '0' + (v - 52) as char
    else if v == 62 then (if t == Standard then '+' else '-')
    else if t == Standard then '/' else '_'
  }

  predicate InAlphabet(c: char) { IsAlnum(c) || c == '+' || c == '/' }

  /** The value of a character of the standard table; padding counts as zero. */
  function ValueOf(c: char): (v: nat)
    ensures v < 64 && (InAlphabet(c) ==> CharOf(Standard, v) == c)
  {
    if IsUpper(c) then c as int - 'A' as int
    else if IsLower(c) then c as int - 'a' as int + 26
    else if IsDigit(c) then c as int - '0' as int + 52
    else if c == '+' then 62
    else if c == '/' then 63
    else 0
  }

  lemma TableInverse(v: nat)
    requires v < 64
    ensures InAlphabet(CharOf(Standard, v)) && ValueOf(CharOf(Standard, v)) == v
  {
  }

  // ---- groups of 24 bits ---------------------------------------------------------------------------

  /** The 24-bit group of up to three bytes, zero bits added on the right. */
  function Group(d: seq<Byte>): (n: nat)
    requires 1 <= |d| <= 3
    ensures n < 0x1000000
  {
    var a, b, c: int := d[0], if |d| > 1 then d[1] else 0, if |d| > 2 then d[2] else 0;
    a * 0x10000 + b * 0x100 + c
  }

  /** Four 6-bit values, most significant first. */
  function Sixes(n: nat): (v: seq<nat>)
    requires n < 0x1000000
    ensures |v| == 4 && (forall k :: 0 <= k < 4 ==> v[k] < 64)
    ensures n == v[0] * 0x40000 + v[1] * 0x1000 + v[2] * 0x40 + v[3]
  {
    [n / 64 / 64 / 64, n / 64 / 64 % 64, n / 64 % 64, n % 64]
  }

  function Quad(t: Table, d: seq<Byte>): (q: string)
    requires 1 <= |d| <= 3
    ensures |q| == 4
  {
    var v := Sixes(Group(d));
    [CharOf(t, v[0]), CharOf(t, v[1]),
      if |d| > 1 then CharOf(t, v[2]) else PAD,
      if |d| > 2 then CharOf(t, v[3]) else PAD]
  }

  function Encode(t: Table, d: seq<Byte>): (s: string)
    decreases |d|
  {
    if d == [] then ""
    else if |d| <= 3 then Quad(t, d)
    else Quad(t, d[..3]) + Encode(t, d[3..])
  }

  /** How many "=" the string ends in, two being the most that count. */
  function PadOf(s: string): (p: nat)
    ensures p <= 2 && p <= |s|
  {
    if s == "" || s[|s| - 1] != PAD then 0
    else if |s| > 1 && s[|s| - 2] == PAD then 2
    else 1
  }

  /** A non-empty multiple of four characters of the alphabet, of which at most two at the end are "=". */
  predicate WellFormed(s: string) {
    s != "" && |s| % 4 == 0 && forall k :: 0 <= k < |s| - PadOf(s) ==> InAlphabet(s[k])
  }

  function Number(q: string): (n: nat)
    requires |q| == 4
    ensures n < 0x1000000
  {
    ValueOf(q[0]) * 0x40000 + ValueOf(q[1]) * 0x1000 + ValueOf(q[2]) * 0x40 + ValueOf(q[3])
  }

  function Bytes(n: nat): (d: seq<Byte>)
    requires n < 0x1000000
    ensures |d| == 3 && n == Group(d)
  {
    [n / 0x100 / 0x100, n / 0x100 % 0x100, n % 0x100]
  }

  function Unquad(q: string): seq<Byte>
    requires |q| == 4
  {
    Bytes(Number(q))[..3 - PadOf(q)]
  }

  function Decode(s: string): seq<Byte>
    requires |s| % 4 == 0
    decreases |s|
  {
    if s == "" then [] else Unquad(s[..4]) + Decode(s[4..])
  }

  // ---- round trips -----------------------------------------------------------------------------------

  /** A number has only one way to be written with four 6-bit values. */
  lemma SixesUnique(n: nat, a: nat, b: nat, c: nat, d: nat)
    requires a < 64 && b < 64 && c < 64 && d < 64
    requires n == a * 0x40000 + b * 0x1000 + c * 0x40 + d
    ensures n < 0x1000000 && Sixes(n) == [a, b, c, d]
  {
    assert n / 64 == a * 0x1000 + b * 0x40 + c;
    assert n / 64 / 64 == a * 0x40 + b;
  }

  lemma BytesUnique(n: nat, a: Byte, b: Byte, c: Byte)
    requires n == Group([a, b, c])
    ensures Bytes(n) == [a, b, c]
  {
    assert n / 0x100 == a as int * 0x100 + b;
  }

  lemma QuadRoundTrip(d: seq<Byte>)
    requires 1 <= |d| <= 3
    ensures var q := Quad(Standard, d);
      WellFormed(q) && PadOf(q) == 3 - |d| && Unquad(q) == d
  {
    hide Sixes, ValueOf, CharOf;
    PadValue();
    var n := Group(d);
    var v := Sixes(n);
    var q := Quad(Standard, d);
    TableInverse(v[0]);
    TableInverse(v[1]);
    TableInverse(v[2]);
    TableInverse(v[3]);
    var b, c: Byte := if |d| > 1 then d[1] else 0, if |d| > 2 then d[2] else 0;
    BytesUnique(n, d[0], b, c);
    assert Number(q) == n;
    assert Bytes(n)[..|d|] == d;
  }

  /** Decoding what was encoded gives it back. */
  lemma {:induction false} RoundTrip(d: seq<Byte>)
    requires d != []
    ensures WellFormed(Encode(Standard, d)) && Decode(Encode(Standard, d)) == d
    decreases |d|
  {
    var s := Encode(Standard, d);
    if |d| <= 3 {
      QuadRoundTrip(d);
      assert s[..4] == s && s[4..] == "";
    } else {
      QuadRoundTrip(d[..3]);
      RoundTrip(d[3..]);
      JoinWellFormed(Quad(Standard, d[..3]), Encode(Standard, d[3..]));
      assert s[..4] == Quad(Standard, d[..3]) && s[4..] == Encode(Standard, d[3..]);
    }
  }

  lemma JoinWellFormed(q: string, s: string)
    requires |q| == 4 && PadOf(q) == 0 && WellFormed(q) && WellFormed(s)
    ensures WellFormed(q + s) && PadOf(q + s) == PadOf(s)
  {
    var r := q + s;
    assert r[|r| - 1] == s[|s| - 1] && r[|r| - 2] == s[|s| - 2];
    assert forall k :: 4 <= k < |r| ==> r[k] == s[k - 4];
  }

  lemma SplitWellFormed(s: string)
    requires WellFormed(s) && |s| > 4
    ensures WellFormed(s[..4]) && PadOf(s[..4]) == 0 && WellFormed(s[4..]) && PadOf(s[4..]) == PadOf(s)
  {
    assert InAlphabet(s[3]);
  }

  /** A decoded string has three bytes for every four characters, less the padding. */
  lemma {:induction false} DecodedLength(s: string)
    requires WellFormed(s)
    ensures |Decode(s)| == |s| / 4 * 3 - PadOf(s)
    decreases |s|
  {
    if |s| == 4 {
      assert s[..4] == s && s[4..] == "";
    } else {
      SplitWellFormed(s);
      DecodedLength(s[4..]);
    }
  }

  /** The bits of the last group that no byte takes up are zero. */
  predicate Canonical(s: string)
    requires WellFormed(s)
  {
    match PadOf(s)
    case 0 => true
    case 1 => ValueOf(s[|s| - 2]) % 4 == 0
    case 2 => ValueOf(s[|s| - 3]) % 16 == 0
  }

  /** The group of the bytes that a quantum decodes to: the lost bits are zero in it. */
  lemma UnquadGroup(q: string)
    requires |q| == 4 && WellFormed(q)
    ensures var d := Unquad(q); |d| == 3 - PadOf(q) && 1 <= |d| <= 3
    ensures Sixes(Group(Unquad(q))) == match PadOf(q)
      case 0 => [ValueOf(q[0]), ValueOf(q[1]), ValueOf(q[2]), ValueOf(q[3])]
      case 1 => [ValueOf(q[0]), ValueOf(q[1]), ValueOf(q[2]) / 4 * 4, 0]
      case 2 => [ValueOf(q[0]), ValueOf(q[1]) / 16 * 16, 0, 0]
  {
    hide Sixes, ValueOf;
    var a, b, c, e := ValueOf(q[0]), ValueOf(q[1]), ValueOf(q[2]), ValueOf(q[3]);
    var n, d := Number(q), Unquad(q);
    PadValue();
    assert n / 0x100 == a * 0x400 + b * 0x10 + c / 4 && n / 0x100 / 0x100 == a * 4 + b / 16;
    if PadOf(q) == 0 {
      assert Bytes(n)[..3] == Bytes(n);
      SixesUnique(n, a, b, c, e);
    } else if PadOf(q) == 1 {
      SixesUnique(Group(d), a, b, c / 4 * 4, 0);
    } else {
      SixesUnique(Group(d), a, b / 16 * 16, 0, 0);
    }
  }

  lemma PadValue()
    ensures ValueOf(PAD) == 0
  {
  }

  lemma UnquadQuad(q: string)
    requires |q| == 4 && WellFormed(q)
    ensures |Unquad(q)| == 3 - PadOf(q) && (Quad(Standard, Unquad(q)) == q <==> Canonical(q))
  {
    hide Sixes, ValueOf, CharOf, Unquad;
    UnquadGroup(q);
    assert InAlphabet(q[0]) && InAlphabet(q[1]);
    if PadOf(q) == 0 {
      assert InAlphabet(q[2]) && InAlphabet(q[3]);
    } else if PadOf(q) == 1 {
      assert InAlphabet(q[2]);
      TableInverse(ValueOf(q[2]) / 4 * 4);
    } else {
      TableInverse(ValueOf(q[1]) / 16 * 16);
    }
  }

  lemma EncodeJoin(a: seq<Byte>, b: seq<Byte>)
    requires |a| == 3 && b != []
    ensures Encode(Standard, a + b) == Quad(Standard, a) + Encode(Standard, b)
  {
    assert (a + b)[..3] == a && (a + b)[3..] == b;
  }

  lemma CanonicalTail(s: string)
    requires WellFormed(s) && |s| > 4
    ensures WellFormed(s[4..]) && (Canonical(s[4..]) <==> Canonical(s)) && WellFormed(s[..4]) && Canonical(s[..4])
  {
    SplitWellFormed(s);
  }

  lemma SameJoin(a: string, b: string, s: string)
    requires |a| == 4 <= |s|
    ensures a + b == s <==> a == s[..4] && b == s[4..]
  {
    assert (a + b)[..4] == a && (a + b)[4..] == b && s[..4] + s[4..] == s;
  }

  /** Encoding what was decoded gives the string back exactly when no bits were lost. */
  lemma {:induction false} EncodeOfDecode(s: string)
    requires WellFormed(s)
    ensures Encode(Standard, Decode(s)) == s <==> Canonical(s)
    decreases |s|
  {
    if |s| == 4 {
      assert s[..4] == s && s[4..] == "" && Decode(s) == Unquad(s);
      DecodedLength(s);
      UnquadQuad(s);
    } else {
      hide WellFormed, Canonical, Encode, Quad, Unquad;
      CanonicalTail(s);
      SplitWellFormed(s);
      UnquadQuad(s[..4]);
      DecodedLength(s[4..]);
      EncodeOfDecode(s[4..]);
      EncodeJoin(Unquad(s[..4]), Decode(s[4..]));
      SameJoin(Quad(Standard, Unquad(s[..4])), Encode(Standard, Decode(s[4..])), s);
    }
  }

  lemma {:induction false} EncodedLength(t: Table, d: seq<Byte>)
    ensures |Encode(t, d)| == (|d| + 2) / 3 * 4
    decreases |d|
  {
    if |d| > 3 {
      EncodedLength(t, d[3..]);
      assert (|d| + 2) / 3 == (|d| - 3 + 2) / 3 + 1;
    }
  }

  /** The buffer of n * 4 / 3 + 4 holds the result with its NUL, and is full exactly when n % 3 is 1. */
  lemma BufferSuffices(t: Table, d: seq<Byte>)
    ensures |Encode(t, d)| + 1 <= |d| * 4 / 3 + 4
    ensures |Encode(t, d)| + 1 == |d| * 4 / 3 + 4 <==> |d| % 3 == 1
  {
    hide Encode;
    EncodedLength(t, d);
    Fits(|d| / 3, |d| % 3);
  }

  lemma Fits(k: nat, r: nat)
    requires r < 3
    ensures var n := 3 * k + r;
      && (n + 2) / 3 * 4 + 1 <= n * 4 / 3 + 4
      && ((n + 2) / 3 * 4 + 1 == n * 4 / 3 + 4 <==> r == 1)
  {
    assert (3 * k + r) * 4 == 3 * (4 * k) + r * 4;
    assert (3 * k + r) * 4 / 3 == 4 * k + r * 4 / 3;
    assert (3 * k + r + 2) / 3 == k + (r + 2) / 3;
  }
}
