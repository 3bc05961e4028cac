/** C characters and NUL-terminated strings, as lib/curl_ctype.c and the C library
    treat them: classes are ASCII only, and a string ends at its first NUL. */
module CText {

  const NUL: char := '\0'

  predicate IsDigit(c: char) { '0' <= c <= '9' }

  predicate IsUpper(c: char) { 'A' <= c <= 'Z' }

  predicate IsLower(c: char) { 'a' <= c <= 'z' }

  predicate IsAlpha(c: char) { IsUpper(c) || IsLower(c) }

  predicate IsAlnum(c: char) { IsAlpha(c) || IsDigit(c) }

  predicate IsXDigit(c: char) { IsDigit(c) || 'A' <= c <= 'F' || 'a' <= c <= 'f' }

  predicate IsSpace(c: char) { c == ' ' || 9 <= c as int <= 13 }

  // The character table marks the control spaces as printable, so they count here too.
  predicate IsPrint(c: char) { IsSpace(c) || '!' <= c <= '~' }

  predicate IsGraph(c: char) { IsPrint(c) && c != ' ' }

  predicate IsBlank(c: char) { c == ' ' || c == '\t' }

  function ToUpper(c: char): char { if IsLower(c) then c - 'a' + 'A' else c }

  /** strcasecompare: equal but for the case of ASCII letters. */
  predicate SameNoCase(a: string, b: string) {
    |a| == |b| && forall k :: 0 <= k < |a| ==> ToUpper(a[k]) == ToUpper(b[k])
  }

  /** The characters of b from offset k up to, not including, the first NUL (or the end). */
  function CStr(b: string, k: nat): (s: string)
    ensures NUL !in s
    decreases |b| - k
  {
    if k >= |b| || b[k] == NUL then "" else [b[k]] + CStr(b, k + 1)
  }

  lemma {:induction false} CStrPrefix(b: string, k: nat)
    requires k <= |b|
    ensures var n := |CStr(b, k)|;
      k + n <= |b| && CStr(b, k) == b[k..k + n] && (k + n < |b| ==> b[k + n] == NUL)
    ensures NUL !in b[k..] ==> CStr(b, k) == b[k..]
    decreases |b| - k
  {
    if k < |b| && b[k] != NUL {
      CStrPrefix(b, k + 1);
    }
  }

  /** b holds the string tok at offset k, followed by its terminator. */
  ghost predicate Holds(b: string, k: nat, tok: string)
  {
    && k + |tok| < |b|
    && b[k..k + |tok|] == tok
    && b[k + |tok|] == NUL
    && NUL !in tok
  }

  lemma {:induction false} HoldsIsCStr(b: string, k: nat, tok: string)
    requires Holds(b, k, tok)
    ensures CStr(b, k) == tok
    decreases |tok|
  {
    if tok == "" {
    } else {
      assert b[k] == b[k..k + |tok|][0] == tok[0];
      assert b[k + 1..k + 1 + |tok[1..]|] == tok[1..];
      HoldsIsCStr(b, k + 1, tok[1..]);
    }
  }

  function Spaces(n: nat): (s: string)
    ensures |s| == n && forall i :: 0 <= i < n ==> s[i] == ' '
  {
    seq(n, i => ' ')
  }

  /** Value of a digit string; characters are taken as digits without a check. */
  function DecValue(s: string): int
    decreases |s|
  {
    if s == "" then 0 else DecValue(s[..|s| - 1]) * 10 + (s[|s| - 1] as int - '0' as int)
  }

  /** Number of leading digits of s. */
  function DigitRun(s: string): (k: nat)
    ensures k <= |s| && forall i :: 0 <= i < k ==> IsDigit(s[i])
    ensures k < |s| ==> !IsDigit(s[k])
  {
    if s == "" || !IsDigit(s[0]) then 0 else 1 + DigitRun(s[1..])
  }

  function DigitChar(d: nat): (c: char)
    requires d < 10
    ensures IsDigit(c) && c as int - '0' as int == d
  {
    '0' + d as char
  }

  /** Decimal rendering, most significant digit first. */
  function Decimal(n: nat): (s: string)
    ensures s != "" && forall i :: 0 <= i < |s| ==> IsDigit(s[i])
    decreases n
  {
    if n < 10 then [DigitChar(n)] else Decimal(n / 10) + [DigitChar(n % 10)]
  }

  lemma {:induction false} DecimalRoundTrip(n: nat)
    ensures DecValue(Decimal(n)) == n
  {
    var s := Decimal(n);
    if n < 10 {
      assert s[..|s| - 1] == "";
    } else {
      assert s[..|s| - 1] == Decimal(n / 10);
      DecimalRoundTrip(n / 10);
    }
  }

  lemma DigitRunAll(s: string)
    requires forall i :: 0 <= i < |s| ==> IsDigit(s[i])
    ensures DigitRun(s) == |s|
  {
  }

  predicate OccursAt(hay: string, needle: string, i: nat)
  {
    i + |needle| <= |hay| && hay[i..i + |needle|] == needle
  }

  /** Does needle occur in hay? The C function strstr. */
  predicate Contains(hay: string, needle: string)
  {
    exists i :: 0 <= i <= |hay| && OccursAt(hay, needle, i)
  }

  /** Position of the first c, or the length. */
  function Index(s: string, c: char): (r: nat)
    ensures r <= |s| && (r < |s| ==> s[r] == c) && c !in s[..r]
  {
    if s == "" || s[0] == c then 0 else Index(s[1..], c) + 1
  }

  lemma IndexAt(x: string, t: string, c: char)
    requires c !in x && (t == "" || t[0] == c)
    ensures Index(x + t, c) == |x|
    decreases |x|
  {
    if x != "" {
      assert (x + t)[1..] == x[1..] + t;
      IndexAt(x[1..], t, c);
    } else {
      assert x + t == t;
    }
  }

  // ---- bytes ---------------------------------------------------------------------------------------

  type Byte = b: int | 0 <= b < 256

  /** What callers hand over: size bytes, or a NUL-terminated string when size is 0. */
  function Data(input: seq<Byte>, size: nat): seq<Byte>
    requires size <= |input| && (size == 0 ==> 0 in input)
  {
    if size == 0 then input[..StrLen(input)] else input[..size]
  }

  function StrLen(s: seq<Byte>): (n: nat)
    requires 0 in s
    ensures n < |s| && s[n] == 0 && 0 !in s[..n]
  {
    if s[0] == 0 then 0 else StrLen(s[1..]) + 1
  }
}
