/** check_gzip_header of lib/content_encoding.c and the header format of section 2.3 of RFC 1952. */
module GzipHeader {
  import opened CText
  import opened Wrappers

  datatype Verdict = Ok(headerlen: nat) | Bad | Underflow

  const GZIP_MAGIC_0: Byte := 0x1f
  const GZIP_MAGIC_1: Byte := 0x8b
  const DEFLATED: Byte := 8
  const HEAD_CRC: nat := 0x02
  const EXTRA_FIELD: nat := 0x04
  const ORIG_NAME: nat := 0x08
  const COMMENT: nat := 0x10
  const RESERVED: nat := 0x20  // and above

  predicate Has(flags: Byte, bit: nat)
    requires bit > 0
  {
    flags / bit % 2 == 1
  }

  /** Two bytes, least significant first. */
  function Size(lo: int, hi: int): int { hi * 256 + lo }

  // ---- the verdict, field by field: where the next field begins, or None on underflow -----------

  function SkipExtra(d: seq<Byte>, k: nat): (r: Option<nat>)
    requires k <= |d|
    ensures r.Some? ==> k <= r.value <= |d|
  {
    if |d| - k < 2 then None
    else
      var n: nat := Size(d[k], d[k + 1]);
      if |d| - k < n + 2 then None else Some(k + n + 2)
  }

  function SkipText(d: seq<Byte>, k: nat): (r: Option<nat>)
    requires k <= |d|
    ensures r.Some? ==> k < r.value <= |d|
    decreases |d| - k
  {
    if k == |d| then None else if d[k] == 0 then Some(k + 1) else SkipText(d, k + 1)
  }

  function SkipCrc(d: seq<Byte>, k: nat): (r: Option<nat>)
    requires k <= |d|
    ensures r.Some? ==> k <= r.value <= |d|
  {
    if |d| - k < 2 then None else Some(k + 2)
  }

  datatype Field = Extra | Text | Crc

  function Skip(f: Field, present: bool, d: seq<Byte>, k: Option<nat>): (r: Option<nat>)
    requires k.Some? ==> k.value <= |d|
    ensures r.Some? ==> k.Some? && k.value <= r.value <= |d|
  {
    if k.None? || !present then k
    else
      match f
      case Extra => SkipExtra(d, k.value)
      case Text => SkipText(d, k.value)
      case Crc => SkipCrc(d, k.value)
  }

  /** Where the header ends, given its flag byte; None when the data ends before. */
  function HeaderEnd(flags: Byte, d: seq<Byte>): (r: Option<nat>)
    requires |d| >= 10
    ensures r.Some? ==> 10 <= r.value <= |d|
  {
    var k1 := Skip(Extra, Has(flags, EXTRA_FIELD), d, Some(10));
    var k2 := Skip(Text, Has(flags, ORIG_NAME), d, k1);
    var k3 := Skip(Text, Has(flags, COMMENT), d, k2);
    Skip(Crc, Has(flags, HEAD_CRC), d, k3)
  }

  function Check(d: seq<Byte>): (v: Verdict)
    ensures v.Ok? ==> 10 <= v.headerlen <= |d|
  {
    if |d| < 10 then Underflow
    else if d[0] != GZIP_MAGIC_0 || d[1] != GZIP_MAGIC_1 then Bad
    else if d[2] != DEFLATED || d[3] >= RESERVED then Bad
    else
      var k := HeaderEnd(d[3], d);
      if k.Some? then Ok(k.value) else Underflow
  }

  /** The function of the source: two counters move over the data. */
  method CheckGzipHeader(d: seq<Byte>) returns (v: Verdict)
    ensures v == Check(d)
  {
    hide SkipText, Has;
    if |d| < 10 {
      return Underflow;
    }
    if d[0] != GZIP_MAGIC_0 || d[1] != GZIP_MAGIC_1 {
      return Bad;
    }
    var method_, flags := d[2], d[3];
    if method_ != DEFLATED || flags >= RESERVED {
      return Bad;
    }
    var len, at := |d| - 10, 10;
    if Has(flags, EXTRA_FIELD) {
      if len < 2 {
        return Underflow;
      }
      var extraLen := Size(d[at], d[at + 1]);
      if len < extraLen + 2 {
        return Underflow;
      }
      len, at := len - (extraLen + 2), at + (extraLen + 2);
    }
    if Has(flags, ORIG_NAME) {
      var found;
      found, len, at := SkipZero(d, len, at);
      if !found {
        return Underflow;
      }
    }
    if Has(flags, COMMENT) {
      var found;
      found, len, at := SkipZero(d, len, at);
      if !found {
        return Underflow;
      }
    }
    if Has(flags, HEAD_CRC) {
      if len < 2 {
        return Underflow;
      }
      len := len - 2;
    }
    v := Ok(|d| - len);
  }

  /** Skip over a zero-terminated text. */
  method SkipZero(d: seq<Byte>, len0: nat, at0: nat) returns (found: bool, len: nat, at: nat)
    requires len0 + at0 == |d|
    ensures len + at == |d|
    ensures SkipText(d, at0) == if found then Some(at) else None
  {
    len, at := len0, at0;
    while len > 0 && d[at] != 0
      invariant at0 <= at && len + at == |d| && SkipText(d, at) == SkipText(d, at0)
    {
      len, at := len - 1, at + 1;
    }
    found := len > 0;
    if found {
      len, at := len - 1, at + 1;
    }
  }

  // ---- verdicts under extension -----------------------------------------------------------------

  lemma {:induction false} TextStable(d: seq<Byte>, e: seq<Byte>, k: nat)
    requires k <= |d| && d <= e && SkipText(d, k).Some?
    ensures SkipText(e, k) == SkipText(d, k)
    decreases |d| - k
  {
    if d[k] != 0 {
      TextStable(d, e, k + 1);
    }
  }

  lemma SkipStable(f: Field, present: bool, d: seq<Byte>, e: seq<Byte>, k: Option<nat>, j: Option<nat>)
    requires d <= e && (k.Some? ==> k.value <= |d|) && (j.Some? ==> j.value <= |e|) && (k.Some? ==> j == k)
    ensures Skip(f, present, d, k).Some? ==> Skip(f, present, e, j) == Skip(f, present, d, k)
  {
    if f == Text && present && k.Some? && SkipText(d, k.value).Some? {
      TextStable(d, e, k.value);
    }
  }

  lemma HeaderEndStable(flags: Byte, d: seq<Byte>, e: seq<Byte>)
    requires |d| >= 10 && d <= e
    ensures HeaderEnd(flags, d).Some? ==> HeaderEnd(flags, e) == HeaderEnd(flags, d)
  {
    hide Skip, Has;
    var x, n, c := Has(flags, EXTRA_FIELD), Has(flags, ORIG_NAME), Has(flags, COMMENT);
    var d1, e1 := Skip(Extra, x, d, Some(10)), Skip(Extra, x, e, Some(10));
    var d2, e2 := Skip(Text, n, d, d1), Skip(Text, n, e, e1);
    var d3, e3 := Skip(Text, c, d, d2), Skip(Text, c, e, e2);
    SkipStable(Extra, x, d, e, Some(10), Some(10));
    SkipStable(Text, n, d, e, d1, e1);
    SkipStable(Text, c, d, e, d2, e2);
    SkipStable(Crc, Has(flags, HEAD_CRC), d, e, d3, e3);
  }

  /** More data never changes a verdict that has been reached. */
  lemma VerdictStable(d: seq<Byte>, e: seq<Byte>)
    requires d <= e && Check(d) != Underflow
    ensures Check(e) == Check(d)
  {
    hide HeaderEnd;
    HeaderEndStable(d[3], d, e);
  }

  // ---- the format of RFC 1952, section 2.3 --------------------------------------------------------

  /** A member header: six bytes of time, extra flags and system, then the optional fields. */
  datatype Header = Header(text: bool, fixed: seq<Byte>, extra: Option<seq<Byte>>, name: Option<seq<Byte>>,
                           comment: Option<seq<Byte>>, crc: Option<seq<Byte>>)

  predicate Valid(h: Header) {
    && |h.fixed| == 6
    && (h.extra.Some? ==> |h.extra.value| < 65536)
    && (h.name.Some? ==> 0 !in h.name.value)
    && (h.comment.Some? ==> 0 !in h.comment.value)
    && (h.crc.Some? ==> |h.crc.value| == 2)
  }

  function Flags(h: Header): Byte {
    (if h.text then 1 else 0) + (if h.crc.Some? then HEAD_CRC else 0) + (if h.extra.Some? then EXTRA_FIELD else 0) +
    (if h.name.Some? then ORIG_NAME else 0) + (if h.comment.Some? then COMMENT else 0)
  }

  lemma FlagsMean(h: Header)
    ensures Flags(h) < RESERVED
    ensures Has(Flags(h), EXTRA_FIELD) <==> h.extra.Some?
    ensures Has(Flags(h), ORIG_NAME) <==> h.name.Some?
    ensures Has(Flags(h), COMMENT) <==> h.comment.Some?
    ensures Has(Flags(h), HEAD_CRC) <==> h.crc.Some?
  {
  }

  function PrintExtra(x: Option<seq<Byte>>): seq<Byte>
    requires x.Some? ==> |x.value| < 65536
  {
    if x.None? then [] else [|x.value| % 256, |x.value| / 256] + x.value
  }

  function PrintText(x: Option<seq<Byte>>): seq<Byte> { if x.None? then [] else x.value + [0] }

  function PrintCrc(x: Option<seq<Byte>>): seq<Byte> { if x.None? then [] else x.value }

  function PrintFixed(h: Header): seq<Byte> { [GZIP_MAGIC_0, GZIP_MAGIC_1, DEFLATED, Flags(h)] + h.fixed }

  function Print(h: Header): seq<Byte>
    requires Valid(h)
  {
    PrintFixed(h) + PrintExtra(h.extra) + PrintText(h.name) + PrintText(h.comment) + PrintCrc(h.crc)
  }

  /** A printed field is skipped exactly when all of it has been seen. */
  lemma {:induction false} TextSkipped(d: seq<Byte>, e: seq<Byte>, k: nat, x: seq<Byte>)
    requires d <= e && k <= |d| && k + |x| < |e| && e[k..k + |x|] == x && 0 !in x && e[k + |x|] == 0
    ensures SkipText(d, k) == if k + |x| < |d| then Some(k + |x| + 1) else None
    decreases |x|
  {
    if k < |d| {
      if x != [] {
        assert e[k] == e[k..k + |x|][0] == x[0];
        assert e[k + 1..k + 1 + |x[1..]|] == x[1..];
        TextSkipped(d, e, k + 1, x[1..]);
      }
    }
  }

  function PrintField(f: Field, x: Option<seq<Byte>>): seq<Byte>
    requires f == Extra && x.Some? ==> |x.value| < 65536
  {
    match f case Extra => PrintExtra(x) case Text => PrintText(x) case Crc => PrintCrc(x)
  }

  predicate FieldOk(f: Field, x: Option<seq<Byte>>) {
    x.Some? ==>
      match f
      case Extra => |x.value| < 65536
      case Text => 0 !in x.value
      case Crc => |x.value| == 2
  }

  /** Any printed field: skipped when wholly seen, underflow otherwise. */
  lemma FieldSkipped(f: Field, x: Option<seq<Byte>>, d: seq<Byte>, e: seq<Byte>, k: Option<nat>, at: nat)
    requires d <= e && FieldOk(f, x)
    requires at + |PrintField(f, x)| <= |e| && e[at..at + |PrintField(f, x)|] == PrintField(f, x)
    requires k == if at <= |d| then Some(at) else None
    ensures var next := at + |PrintField(f, x)|;
      Skip(f, x.Some?, d, k) == if next <= |d| then Some(next) else None
  {
    if k.Some? && x.Some? {
      var p := PrintField(f, x);
      match f {
        case Extra =>
          assert e[at] == e[at..at + |p|][0] == p[0];
          assert e[at + 1] == e[at..at + |p|][1] == p[1];
        case Text =>
          assert e[at..at + |x.value|] == e[at..at + |p|][..|x.value|];
          assert e[at + |x.value|] == e[at..at + |p|][|x.value|];
          TextSkipped(d, e, at, x.value);
        case Crc =>
      }
    }
  }

  /** Where the optional fields stand in a stream that starts with the header. */
  lemma FieldsStand(h: Header, e: seq<Byte>)
    requires Valid(h) && Print(h) <= e
    ensures var a1 := 10; var a2 := a1 + |PrintExtra(h.extra)|; var a3 := a2 + |PrintText(h.name)|;
      var a4 := a3 + |PrintText(h.comment)|; var a5 := a4 + |PrintCrc(h.crc)|;
      && a5 == |Print(h)| <= |e|
      && e[..a1] == PrintFixed(h)
      && e[a1..a2] == PrintExtra(h.extra) && e[a2..a3] == PrintText(h.name)
      && e[a3..a4] == PrintText(h.comment) && e[a4..a5] == PrintCrc(h.crc)
  {
    hide PrintExtra, PrintText, PrintCrc;
    var p0, p1 := PrintFixed(h), PrintExtra(h.extra);
    var p2, p3, p4 := PrintText(h.name), PrintText(h.comment), PrintCrc(h.crc);
    assert Print(h) == p0 + p1 + p2 + p3 + p4;
    Pieces(p0, p1, p2, p3, p4, e);
  }

  lemma Pieces(p0: seq<Byte>, p1: seq<Byte>, p2: seq<Byte>, p3: seq<Byte>, p4: seq<Byte>, e: seq<Byte>)
    requires p0 + p1 + p2 + p3 + p4 <= e
    ensures var a1 := |p0|; var a2 := a1 + |p1|; var a3 := a2 + |p2|; var a4 := a3 + |p3|; var a5 := a4 + |p4|;
      && a5 <= |e| && e[..a1] == p0 && e[a1..a2] == p1 && e[a2..a3] == p2 && e[a3..a4] == p3 && e[a4..a5] == p4
  {
    var all := p0 + p1 + p2 + p3 + p4;
    assert e[..|all|] == all;
    assert all[..|p0|] == p0;
    assert all[|p0|..|p0| + |p1|] == p1;
    assert all[|p0| + |p1|..|p0| + |p1| + |p2|] == p2;
    assert all[|p0| + |p1| + |p2|..|p0| + |p1| + |p2| + |p3|] == p3;
    assert all[|p0| + |p1| + |p2| + |p3|..] == p4;
  }

  lemma FieldsAre(h: Header)
    requires Valid(h)
    ensures FieldOk(Extra, h.extra) && FieldOk(Text, h.name) && FieldOk(Text, h.comment) && FieldOk(Crc, h.crc)
    ensures PrintField(Extra, h.extra) == PrintExtra(h.extra) && PrintField(Text, h.name) == PrintText(h.name)
    ensures PrintField(Text, h.comment) == PrintText(h.comment) && PrintField(Crc, h.crc) == PrintCrc(h.crc)
  {
  }

  lemma EndIsSeen(h: Header, e: seq<Byte>, d: seq<Byte>)
    requires Valid(h) && Print(h) <= e && d <= e && |d| >= 10
    ensures HeaderEnd(Flags(h), d) == if |Print(h)| <= |d| then Some(|Print(h)|) else None
  {
    hide Skip, Has, PrintExtra, PrintText, PrintCrc, Flags, FieldOk, Valid, PrintFixed, PrintField, Print;
    FlagsMean(h);
    FieldsStand(h, e);
    FieldsAre(h);
    var a2 := 10 + |PrintExtra(h.extra)|;
    var a3 := a2 + |PrintText(h.name)|;
    var a4 := a3 + |PrintText(h.comment)|;
    var k1 := Skip(Extra, h.extra.Some?, d, Some(10));
    FieldSkipped(Extra, h.extra, d, e, Some(10), 10);
    var k2 := Skip(Text, h.name.Some?, d, k1);
    FieldSkipped(Text, h.name, d, e, k1, a2);
    var k3 := Skip(Text, h.comment.Some?, d, k2);
    FieldSkipped(Text, h.comment, d, e, k2, a3);
    FieldSkipped(Crc, h.crc, d, e, k3, a4);
  }

  /** On every beginning of a stream that starts with a valid header, the verdict is underflow as
      long as the header is incomplete and exactly its length from then on. */
  lemma HeaderVerdict(h: Header, e: seq<Byte>, d: seq<Byte>)
    requires Valid(h) && Print(h) <= e && d <= e
    ensures Check(d) == if |Print(h)| <= |d| then Ok(|Print(h)|) else Underflow
  {
    FieldsStand(h, e);
    FlagsMean(h);
    hide HeaderEnd, PrintExtra, PrintText, PrintCrc;
    if |d| >= 10 {
      assert forall i :: 0 <= i < 4 ==> d[i] == e[..10][i];
      EndIsSeen(h, e, d);
    }
  }

  // ---- and every accepted header is one of the format ------------------------------------------

  lemma {:induction false} TextFound(d: seq<Byte>, k: nat)
    requires k <= |d| && SkipText(d, k).Some?
    ensures var next := SkipText(d, k).value; k < next && 0 !in d[k..next - 1] && d[next - 1] == 0
    decreases |d| - k
  {
    if d[k] != 0 {
      TextFound(d, k + 1);
      var next := SkipText(d, k).value;
      assert d[k..next - 1] == [d[k]] + d[k + 1..next - 1];
    }
  }

  lemma FieldFound(f: Field, present: bool, d: seq<Byte>, k: nat) returns (x: Option<seq<Byte>>)
    requires k <= |d| && Skip(f, present, d, Some(k)).Some?
    ensures FieldOk(f, x) && x.Some? == present
    ensures PrintField(f, x) == d[k..Skip(f, present, d, Some(k)).value]
  {
    var next := Skip(f, present, d, Some(k)).value;
    if !present {
      x := None;
    } else {
      match f {
        case Extra =>
          x := Some(d[k + 2..next]);
          assert |x.value| == Size(d[k], d[k + 1]);
          assert d[k..next] == [d[k], d[k + 1]] + d[k + 2..next];
        case Text =>
          TextFound(d, k);
          x := Some(d[k..next - 1]);
          assert d[k..next] == d[k..next - 1] + [d[next - 1]];
        case Crc =>
          x := Some(d[k..next]);
      }
    }
  }

  lemma FlagByte(b: Byte)
    requires b < RESERVED
    ensures b == (if Has(b, 1) then 1 else 0) + (if Has(b, HEAD_CRC) then HEAD_CRC else 0)
               + (if Has(b, EXTRA_FIELD) then EXTRA_FIELD else 0) + (if Has(b, ORIG_NAME) then ORIG_NAME else 0)
               + (if Has(b, COMMENT) then COMMENT else 0)
  {
  }

  /** The verdict is OK exactly on data that starts with a valid header, whose length it gives. */
  lemma AcceptedExactly(d: seq<Byte>, n: nat)
    ensures Check(d) == Ok(n) <==> exists h :: Valid(h) && Print(h) <= d && |Print(h)| == n
  {
    if Check(d) == Ok(n) {
      var h := HeaderFound(d, n);
    }
    if h :| Valid(h) && Print(h) <= d && |Print(h)| == n {
      HeaderVerdict(h, d, d);
    }
  }

  lemma HeaderFound(d: seq<Byte>, n: nat) returns (h: Header)
    requires Check(d) == Ok(n)
    ensures Valid(h) && Print(h) == d[..n]
  {
    hide Skip, Has, PrintExtra, PrintText, PrintCrc, FieldOk, PrintFixed, Valid;
    var f := d[3];
    var x, t, c, r := Has(f, EXTRA_FIELD), Has(f, ORIG_NAME), Has(f, COMMENT), Has(f, HEAD_CRC);
    var k1 := Skip(Extra, x, d, Some(10));
    var k2 := Skip(Text, t, d, k1);
    var k3 := Skip(Text, c, d, k2);
    var extra := FieldFound(Extra, x, d, 10);
    var name := FieldFound(Text, t, d, k1.value);
    var comment := FieldFound(Text, c, d, k2.value);
    var crc := FieldFound(Crc, r, d, k3.value);
    h := Header(Has(f, 1), d[4..10], extra, name, comment, crc);
    FieldsOk(h);
    FlagByte(f);
    FixedIs(h, d);
    Joined(d, 10, k1.value, k2.value, k3.value, n);
  }

  lemma FixedIs(h: Header, d: seq<Byte>)
    requires |d| >= 10 && d[0] == GZIP_MAGIC_0 && d[1] == GZIP_MAGIC_1 && d[2] == DEFLATED
    requires Flags(h) == d[3] && h.fixed == d[4..10]
    ensures PrintFixed(h) == d[..10]
  {
    hide Flags;
  }

  lemma Joined(d: seq<Byte>, a: nat, b: nat, c: nat, e: nat, n: nat)
    requires a <= b <= c <= e <= n <= |d|
    ensures d[..n] == d[..a] + d[a..b] + d[b..c] + d[c..e] + d[e..n]
  {
  }

  lemma FieldsOk(h: Header)
    requires |h.fixed| == 6 && FieldOk(Extra, h.extra) && FieldOk(Text, h.name) && FieldOk(Text, h.comment)
    requires FieldOk(Crc, h.crc)
    ensures Valid(h)
  {
  }
}
