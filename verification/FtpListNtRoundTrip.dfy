/** Printing a Windows NT directory listing and parsing it back gives the same entries in order. */
module FtpListNtRoundTrip {
  import opened CText
  import opened Wrappers
  import opened FtpList
  import U = FtpListRoundTrip

  /** One directory entry. The gaps are the blanks beyond the first of each column. */
  datatype Item = Item(date: string, time: string, dir: bool, size: nat, name: string,
                       gap1: nat, gap2: nat, gap3: nat, crlf: bool)

  predicate IsDate(s: string) {
    |s| == 8 && IsDigit(s[0]) && forall i :: 0 <= i < 8 ==> IsDigit(s[i]) || s[i] == '-'
  }

  predicate IsTimeText(s: string) {
    s != "" && forall i :: 0 <= i < |s| ==> IsDigit(s[i]) || s[i] in "APM:"
  }

  predicate IsLineText(s: string) {
    s != "" && forall i :: 0 <= i < |s| ==> s[i] != '\r' && s[i] != '\n' && s[i] != NUL
  }

  predicate WellFormed(e: Item) {
    IsDate(e.date) && IsTimeText(e.time) && (e.dir || e.size <= LONG_MAX) && IsLineText(e.name) && e.name[0] != ' '
  }

  function Stamp(e: Item): string { e.date + (" " + Spaces(e.gap1)) + e.time }

  function SizeText(e: Item): string { if e.dir then "<DIR>" else Decimal(e.size) }

  function Eol(e: Item): string { if e.crlf then "\r\n" else "\n" }

  function Line(e: Item): string {
    Stamp(e) + " " + ((Spaces(e.gap2) + SizeText(e) + " ") + (Spaces(e.gap3) + e.name + Eol(e)))
  }

  function Listing(items: seq<Item>): string {
    if items == [] then "" else Line(items[0]) + Listing(items[1..])
  }

  predicate Describes(d: Entry, e: Item) {
    && d.info.fileType == (if e.dir then Directory else File)
    && d.info.size == Some(if e.dir then 0 else e.size)
    && d.Time() == Stamp(e) && d.Filename() == e.name
  }

  function Kept(items: seq<Item>, keep: Filter): seq<Item> {
    if items == [] then []
    else if keep(items[0].name) then [items[0]] + Kept(items[1..], keep)
    else Kept(items[1..], keep)
  }

  predicate AllDescribe(list: seq<Entry>, items: seq<Item>) {
    |list| == |items| && forall i :: 0 <= i < |items| ==> Describes(list[i], items[i])
  }

  /** Between two lines of such a listing, or before the first. */
  predicate LineStart(p: Parser) {
    (p.os == OsNT || p.os == OsUnknown) && !p.error && p.file.None? && p.nt == NtDate
  }

  predicate LineDone(q: Parser, e: Item, list: seq<Entry>, keep: Filter) {
    && LineStart(q) && list <= q.list
    && if keep(e.name) then |q.list| == |list| + 1 && Describes(q.list[|list|], e) else q.list == list
  }

  // ---- runs inside one state -------------------------------------------------------------------

  predicate Reading(p: Parser) { p.os == OsNT && !p.error && p.file.Some? }

  /** Reading c in state u stores it and changes nothing but the item length. */
  predicate Stays(u: NtState, c: char) {
    match u
    case NtTimePre => IsSpace(c)
    case NtTime => IsDigit(c) || c in "APM:"
    case DirOrSizePre | NtNamePre => c == ' '
    case DirOrSizeContent => c != ' '
    case NtNameContent => c != '\r' && c != '\n'
    case NtDate | NtNameWinEol => false
  }

  predicate Counts(u: NtState) { u != DirOrSizePre && u != NtNamePre }

  function Stored(p: Parser, s: string): (q: Parser)
    requires p.file.Some?
    ensures q.file.Some?
  {
    WithBuf(p, p.file.value.buf + s).(itemLength := p.itemLength + if Counts(p.nt) then |s| else 0)
  }

  lemma StayStep(p: Parser, c: char, keep: Filter)
    requires Reading(p) && Stays(p.nt, c)
    ensures Step(p, c, keep) == Stored(p, [c])
  {
  }

  lemma StoredTwice(p: Parser, s: string, t: string)
    requires p.file.Some?
    ensures Stored(Stored(p, s), t) == Stored(p, s + t)
  {
    assert p.file.value.buf + s + t == p.file.value.buf + (s + t);
  }

  lemma {:induction false} RunStay(p: Parser, s: string, keep: Filter)
    requires Reading(p) && forall i :: 0 <= i < |s| ==> Stays(p.nt, s[i])
    ensures Run(p, s, keep) == Stored(p, s)
    decreases |s|
  {
    hide Step;
    if s == "" {
      assert p.file.value.buf + s == p.file.value.buf;
    } else {
      var q := Stored(p, [s[0]]);
      StayStep(p, s[0], keep);
      U.RunOne(p, s, q, keep);
      RunStay(q, s[1..], keep);
      StoredTwice(p, [s[0]], s[1..]);
      assert [s[0]] + s[1..] == s;
    }
  }

  // ---- date and time -----------------------------------------------------------------------------

  /** The parser when s, a beginning of the date, was read. */
  function InDate(p: Parser, s: string): (q: Parser)
    ensures q.file.Some?
  {
    p.(os := OsNT, file := Some(FRESH_INFO.(buf := s)), itemOffset := 0, itemLength := |s|)
  }

  lemma DateStep(p: Parser, s: string, c: char, keep: Filter)
    requires LineStart(p) && |s| < 8 && (IsDigit(c) || c == '-') && s != ""
    ensures Step(InDate(p, s), c, keep) == InDate(p, s + [c])
  {
  }

  lemma DateFirst(p: Parser, c: char, keep: Filter)
    requires LineStart(p) && IsDigit(c)
    ensures Step(p, c, keep) == InDate(p, [c])
  {
    assert "" + [c] == [c];
  }

  lemma {:induction false} DateRun(p: Parser, s: string, t: string, keep: Filter)
    requires LineStart(p) && s != "" && |s| + |t| <= 8
    requires forall i :: 0 <= i < |t| ==> IsDigit(t[i]) || t[i] == '-'
    ensures Run(InDate(p, s), t, keep) == InDate(p, s + t)
    decreases |t|
  {
    hide Step, InDate;
    if t == "" {
      assert s + t == s;
    } else {
      DateStep(p, s, t[0], keep);
      U.RunOne(InDate(p, s), t, InDate(p, s + [t[0]]), keep);
      DateRun(p, s + [t[0]], t[1..], keep);
      assert s + [t[0]] + t[1..] == s + t;
    }
  }

  lemma WholeDate(p: Parser, date: string, keep: Filter)
    requires LineStart(p) && IsDate(date)
    ensures Run(p, date, keep) == InDate(p, date)
  {
    hide Step, InDate;
    DateFirst(p, date[0], keep);
    U.RunOne(p, date, InDate(p, [date[0]]), keep);
    DateRun(p, [date[0]], date[1..], keep);
    assert [date[0]] + date[1..] == date;
  }

  /** The parser behind date, blanks and a beginning of the time. */
  function InStamp(p: Parser, s: string, u: NtState): (q: Parser)
    ensures q.file.Some?
  {
    InDate(p, s).(nt := u)
  }

  lemma AfterDate(p: Parser, date: string, keep: Filter)
    requires LineStart(p) && |date| == 8
    ensures Step(InDate(p, date), ' ', keep) == InStamp(p, date + " ", NtTimePre)
  {
  }

  lemma TimeFirst(p: Parser, s: string, c: char, keep: Filter)
    requires LineStart(p) && (IsDigit(c) || c in "APM:")
    ensures Step(InStamp(p, s, NtTimePre), c, keep) == InStamp(p, s + [c], NtTime)
  {
  }

  lemma StampStored(p: Parser, s: string, t: string, u: NtState)
    requires Counts(u)
    ensures Stored(InStamp(p, s, u), t) == InStamp(p, s + t, u)
  {
  }

  lemma StampReads(p: Parser, s: string, u: NtState)
    requires LineStart(p)
    ensures Reading(InStamp(p, s, u)) && InStamp(p, s, u).nt == u
  {
  }

  lemma StampRun(p: Parser, e: Item, keep: Filter)
    requires LineStart(p) && WellFormed(e)
    ensures Run(p, Stamp(e), keep) == InStamp(p, Stamp(e), NtTime)
  {
    hide Step, Run, InDate, InStamp, Stored, IsDate, IsLineText;
    var d, b, t := e.date, e.date + " ", e.date + " " + Spaces(e.gap1);
    WholeDate(p, d, keep);
    DateLength(d);
    AfterDate(p, d, keep);
    RunAppend(p, d, " ", keep);
    U.RunLast(InDate(p, d), ' ', keep);
    StampReads(p, b, NtTimePre);
    RunStay(InStamp(p, b, NtTimePre), Spaces(e.gap1), keep);
    StampStored(p, b, Spaces(e.gap1), NtTimePre);
    RunAppend(p, b, Spaces(e.gap1), keep);
    var c := e.time[0];
    TimeFirst(p, t, c, keep);
    U.RunOne(InStamp(p, t, NtTimePre), e.time, InStamp(p, t + [c], NtTime), keep);
    StampReads(p, t + [c], NtTime);
    RunStay(InStamp(p, t + [c], NtTime), e.time[1..], keep);
    StampStored(p, t + [c], e.time[1..], NtTime);
    RunAppend(p, t, e.time, keep);
    assert t + [c] + e.time[1..] == t + e.time;
    assert t + e.time == Stamp(e);
  }

  lemma DateLength(d: string)
    requires IsDate(d)
    ensures |d| == 8
  {
  }

  // ---- the two columns behind ----------------------------------------------------------------------

  function TokenState(u: NtState): NtState { if u == DirOrSizePre then DirOrSizeContent else NtNameContent }

  /** The parser after pad blanks and a token. */
  function Inside(p: Parser, pad: nat, tok: string): (q: Parser)
    requires p.file.Some?
    ensures q.file.Some?
  {
    WithBuf(p, p.file.value.buf + Spaces(pad) + tok)
    .(nt := TokenState(p.nt), itemLength := |tok|, itemOffset := |p.file.value.buf| + pad)
  }

  lemma TokenFirst(p: Parser, c: char, keep: Filter)
    requires Reading(p) && (p.nt == DirOrSizePre || p.nt == NtNamePre) && c != ' '
    ensures Step(p, c, keep) == StartToken(Append(p, c), p.unix).(nt := TokenState(p.nt))
  {
  }

  lemma FirstInside(p: Parser, pad: nat, c: char)
    requires Reading(p) && (p.nt == DirOrSizePre || p.nt == NtNamePre)
    ensures var q := Stored(p, Spaces(pad));
      Reading(q) && q.nt == p.nt && StartToken(Append(q, c), q.unix).(nt := TokenState(q.nt)) == Inside(p, pad, [c])
  {
  }

  lemma InsideStored(p: Parser, pad: nat, c: char, rest: string)
    requires Reading(p)
    ensures Stored(Inside(p, pad, [c]), rest) == Inside(p, pad, [c] + rest)
    ensures Reading(Inside(p, pad, [c])) && Inside(p, pad, [c]).nt == TokenState(p.nt)
  {
    var b := p.file.value.buf + Spaces(pad);
    assert b + [c] + rest == b + ([c] + rest);
  }

  lemma ColumnRun(p: Parser, pad: nat, tok: string, keep: Filter)
    requires Reading(p) && (p.nt == DirOrSizePre || p.nt == NtNamePre)
    requires tok != "" && tok[0] != ' ' && forall i :: 1 <= i < |tok| ==> Stays(TokenState(p.nt), tok[i])
    ensures Run(p, Spaces(pad) + tok, keep) == Inside(p, pad, tok)
  {
    hide Step, Run, Inside, Stored;
    var c := tok[0];
    RunStay(p, Spaces(pad), keep);
    RunAppend(p, Spaces(pad), tok, keep);
    var q := Stored(p, Spaces(pad));
    FirstInside(p, pad, c);
    TokenFirst(q, c, keep);
    U.RunOne(q, tok, Inside(p, pad, [c]), keep);
    InsideStored(p, pad, c, tok[1..]);
    RunStay(Inside(p, pad, [c]), tok[1..], keep);
    assert [c] + tok[1..] == tok;
  }

  /** The first columns are read, and nothing of the size yet. */
  ghost predicate Stamped(q: Parser, p: Parser, e: Item) {
    && Reading(q) && q.nt == DirOrSizePre && q.list == p.list && q.offsets.time == 0
    && Holds(q.file.value.buf, 0, Stamp(e))
  }

  lemma StampEnds(p: Parser, e: Item, keep: Filter)
    requires LineStart(p) && WellFormed(e)
    ensures Stamped(Run(p, Stamp(e) + " ", keep), p, e)
  {
    hide Step, Run, Stamp, WellFormed;
    StampRun(p, e, keep);
    RunAppend(p, Stamp(e), " ", keep);
    U.RunLast(InStamp(p, Stamp(e), NtTime), ' ', keep);
    StampText(e);
    StampClosed(p, Stamp(e), keep);
  }

  lemma StampText(e: Item)
    requires WellFormed(e)
    ensures NUL !in Stamp(e) && Stamp(e) != ""
  {
    assert forall i :: 0 <= i < |e.date| ==> e.date[i] != NUL;
    assert forall i :: 0 <= i < |e.time| ==> e.time[i] != NUL;
  }

  lemma StampClosed(p: Parser, s: string, keep: Filter)
    requires LineStart(p) && s != "" && NUL !in s
    ensures var q := Step(InStamp(p, s, NtTime), ' ', keep);
      && Reading(q) && q.nt == DirOrSizePre && q.list == p.list && q.offsets.time == 0
      && Holds(q.file.value.buf, 0, s)
  {
    assert SetNul(s + " ", |s|) == s + [NUL];
    assert (s + [NUL])[0..|s|] == s;
  }

  /** The size column is read as well. */
  ghost predicate Sized(q: Parser, p: Parser, e: Item) {
    && Reading(q) && q.nt == NtNamePre && q.list == p.list && q.offsets.time == 0
    && Holds(q.file.value.buf, 0, Stamp(e))
    && q.file.value.fileType == (if e.dir then Directory else File)
    && q.file.value.size == Some(if e.dir then 0 else e.size)
  }

  lemma SizeClose(p: Parser, keep: Filter)
    requires Reading(p) && p.nt == DirOrSizeContent
    ensures Step(p, ' ', keep) == EndDirOrSize(EndToken(Grow(Append(p, ' '))))
  {
    hide EndDirOrSize;
  }

  lemma ClosedToken(p: Parser, pad: nat, tok: string)
    requires Reading(p) && tok != "" && NUL !in tok
    ensures var q := EndToken(Grow(Append(Inside(p, pad, tok), ' ')));
      && Token(q) == tok && q.file.Some? && p.file.value.buf <= q.file.value.buf
      && q == WithBuf(Inside(p, pad, tok), p.file.value.buf + Spaces(pad) + tok + [NUL]).(itemLength := |tok| + 1)
  {
    var b := p.file.value.buf + Spaces(pad) + tok;
    var k := |p.file.value.buf| + pad;
    assert SetNul(b + " ", |b|) == b + [NUL];
    assert (b + [NUL])[k..k + |tok|] == tok;
    HoldsIsCStr(b + [NUL], k, tok);
  }

  lemma SizeTextReads(e: Item)
    requires WellFormed(e)
    ensures var s := SizeText(e);
      && s != "" && NUL !in s && ' ' !in s && s[0] != ' '
      && (e.dir <==> s == "<DIR>") && (!e.dir ==> StrToOff(s) == OffOk(e.size, ""))
  {
    if !e.dir {
      U.SizeText(0, e.size);
      assert U.Number(0, e.size) == Decimal(e.size);
      assert IsDigit(Decimal(e.size)[0]);
    }
  }

  lemma EndSizeIs(q: Parser, e: Item)
    requires q.file.Some? && Token(q) == SizeText(e) && WellFormed(e)
    ensures EndDirOrSize(q) == q.(itemLength := 0, nt := NtNamePre, file := Some(q.file.value.(
      fileType := if e.dir then Directory else File, size := Some(if e.dir then 0 else e.size))))
  {
    hide StrToOff, WellFormed, CStr, SizeText;
    SizeTextReads(e);
  }

  lemma SizeColumn(q: Parser, p: Parser, e: Item, keep: Filter)
    requires Stamped(q, p, e) && WellFormed(e)
    ensures Sized(Run(q, Spaces(e.gap2) + SizeText(e) + " ", keep), p, e)
  {
    hide Step, Run, SizeText, WellFormed, EndDirOrSize, CStr, Stamp;
    SizeTextReads(e);
    var tok := SizeText(e);
    ColumnRun(q, e.gap2, tok, keep);
    var r := Inside(q, e.gap2, tok);
    RunAppend(q, Spaces(e.gap2) + tok, " ", keep);
    U.RunLast(r, ' ', keep);
    SizeClose(r, keep);
    ClosedToken(q, e.gap2, tok);
    var t := EndToken(Grow(Append(r, ' ')));
    EndSizeIs(t, e);
    U.HoldsExtend(q.file.value.buf, t.file.value.buf, 0, Stamp(e));
  }

  // ---- the name and the end of the line --------------------------------------------------------------

  /** The description that is put on the list. */
  function Finished(q: Parser, pad: nat, name: string, crlf: bool): Parser
    requires q.file.Some?
  {
    var b := q.file.value.buf + Spaces(pad) + name + [NUL];
    WithBuf(q, if crlf then b + "\n" else b)
    .(nt := NtDate, itemLength := |name| + 1, itemOffset := |q.file.value.buf| + pad,
      offsets := q.offsets.(filename := |q.file.value.buf| + pad))
  }

  lemma LineFeed(q: Parser, pad: nat, name: string, keep: Filter)
    requires Reading(q) && q.nt == NtNamePre && name != ""
    ensures Step(Inside(q, pad, name), '\n', keep) == Insert(Finished(q, pad, name, false), keep)
  {
    hide Insert;
    var b := q.file.value.buf + Spaces(pad) + name;
    assert SetNul(b + ['\n'], |b|) == b + [NUL];
  }

  function Returned(q: Parser, pad: nat, name: string): (r: Parser)
    requires q.file.Some?
    ensures r.file.Some?
  {
    WithBuf(Inside(q, pad, name), q.file.value.buf + Spaces(pad) + name + [NUL])
    .(itemLength := |name| + 1, nt := NtNameWinEol)
  }

  lemma CarriageReturn(q: Parser, pad: nat, name: string, keep: Filter)
    requires Reading(q) && q.nt == NtNamePre && name != ""
    ensures Step(Inside(q, pad, name), '\r', keep) == Returned(q, pad, name)
  {
    var b := q.file.value.buf + Spaces(pad) + name;
    assert SetNul(b + ['\r'], |b|) == b + [NUL];
  }

  lemma FeedAfterReturn(q: Parser, pad: nat, name: string, keep: Filter)
    requires Reading(q) && q.nt == NtNamePre && name != ""
    ensures Step(Returned(q, pad, name), '\n', keep) == Insert(Finished(q, pad, name, true), keep)
  {
    hide Insert;
    var b := q.file.value.buf + Spaces(pad) + name + [NUL];
    assert b + ['\n'] == b + "\n";
  }

  lemma EolRun(q: Parser, pad: nat, name: string, crlf: bool, keep: Filter)
    requires Reading(q) && q.nt == NtNamePre && name != ""
    ensures Run(Inside(q, pad, name), if crlf then "\r\n" else "\n", keep) == Insert(Finished(q, pad, name, crlf), keep)
  {
    hide Step, Insert, Inside, Returned, Finished;
    if crlf {
      CarriageReturn(q, pad, name, keep);
      U.RunOne(Inside(q, pad, name), "\r\n", Returned(q, pad, name), keep);
      assert "\r\n"[1..] == ['\n'];
      U.RunLast(Returned(q, pad, name), '\n', keep);
      FeedAfterReturn(q, pad, name, keep);
    } else {
      U.RunLast(Inside(q, pad, name), '\n', keep);
      LineFeed(q, pad, name, keep);
    }
  }

  lemma FinishedHolds(q: Parser, stamp: string, pad: nat, name: string, crlf: bool)
    requires q.file.Some? && Holds(q.file.value.buf, 0, stamp) && NUL !in name
    ensures var r := Finished(q, pad, name, crlf);
      && r.file.Some?
      && Holds(r.file.value.buf, 0, stamp) && Holds(r.file.value.buf, r.offsets.filename, name)
  {
    hide Holds;
    var b := Finished(q, pad, name, crlf).file.value.buf;
    U.HoldsExtend(q.file.value.buf, b, 0, stamp);
    NameHeld(q.file.value.buf + Spaces(pad), name, b);
  }

  lemma FinishedDescribes(q: Parser, p: Parser, e: Item)
    requires Sized(q, p, e) && WellFormed(e)
    ensures var r := Finished(q, e.gap3, e.name, e.crlf); r.file.Some? && Describes(Entry(r.file.value, r.offsets), e)
  {
    hide Stamp, CStr, WellFormed, Holds;
    NameOk(e);
    var r := Finished(q, e.gap3, e.name, e.crlf);
    FinishedHolds(q, Stamp(e), e.gap3, e.name, e.crlf);
    HoldsIsCStr(r.file.value.buf, 0, Stamp(e));
    HoldsIsCStr(r.file.value.buf, r.offsets.filename, e.name);
  }

  lemma NameHeld(front: string, name: string, b: string)
    requires NUL !in name && front + name + [NUL] <= b
    ensures Holds(b, |front|, name)
  {
    assert b[|front|..|front| + |name|] == (front + name + [NUL])[|front|..|front| + |name|] == name;
  }

  lemma InsertLists(r: Parser, e: Item, keep: Filter)
    requires r.file.Some? && r.os == OsNT && !r.error && r.nt == NtDate && Describes(Entry(r.file.value, r.offsets), e)
    ensures LineDone(Insert(r, keep), e, r.list, keep)
  {
    hide CStr, Contains, Stamp;
  }

  /** One printed line, with any gaps and either line end. */
  lemma LineRoundTrip(p: Parser, e: Item, keep: Filter)
    requires LineStart(p) && WellFormed(e)
    ensures LineDone(Run(p, Line(e), keep), e, p.list, keep)
  {
    hide Step, Run, WellFormed, Stamp, SizeText, Insert, LineDone, Describes, Inside;
    var a, b, c := Stamp(e) + " ", Spaces(e.gap2) + SizeText(e) + " ", Spaces(e.gap3) + e.name;
    StampEnds(p, e, keep);
    var q1 := Run(p, a, keep);
    SizeColumn(q1, p, e, keep);
    var q2 := Run(q1, b, keep);
    NameOk(e);
    ColumnRun(q2, e.gap3, e.name, keep);
    EolRun(q2, e.gap3, e.name, e.crlf, keep);
    RunAppend(q2, c, Eol(e), keep);
    RunAppend(q1, b, c + Eol(e), keep);
    RunAppend(p, a, b + (c + Eol(e)), keep);
    assert Line(e) == a + (b + (c + Eol(e)));
    FinishedDescribes(q2, p, e);
    InsertLists(Finished(q2, e.gap3, e.name, e.crlf), e, keep);
  }

  lemma NameOk(e: Item)
    requires WellFormed(e)
    ensures e.name != "" && e.name[0] != ' ' && NUL !in e.name
    ensures forall i :: 0 <= i < |e.name| ==> Stays(NtNameContent, e.name[i])
  {
  }

  /** Parsing a printed listing of any length appends exactly the accepted items, in order. */
  lemma {:induction false} ListingRoundTrip(p: Parser, items: seq<Item>, keep: Filter)
    requires LineStart(p) && forall e :: e in items ==> WellFormed(e)
    ensures var q := Run(p, Listing(items), keep);
      LineStart(q) && p.list <= q.list && AllDescribe(q.list[|p.list|..], Kept(items, keep))
    decreases |items|
  {
    hide Step, Run, Line, WellFormed, Describes, LineStart;
    if items == [] {
      U.EmptyRun(p, keep);
    } else {
      var q := Run(p, Line(items[0]), keep);
      LineRoundTrip(p, items[0], keep);
      ListingRoundTrip(q, items[1..], keep);
      RunAppend(p, Line(items[0]), Listing(items[1..]), keep);
      var r := Run(q, Listing(items[1..]), keep);
      if keep(items[0].name) {
        assert r.list[|p.list|..] == [q.list[|p.list|]] + r.list[|q.list|..];
      }
    }
  }

  /** The whole way: the listing in any chunks, into a new parser. */
  lemma ChunkedListingRoundTrip(items: seq<Item>, chunks: seq<string>, keep: Filter)
    requires (forall e :: e in items ==> WellFormed(e)) && Flatten(chunks) == Listing(items)
    ensures var q := RunChunks(INITIAL, chunks, keep); !q.error && AllDescribe(q.list, Kept(items, keep))
  {
    hide Step, Run, Listing, WellFormed, Describes;
    ChunkIndependence(INITIAL, chunks, keep);
    ListingRoundTrip(INITIAL, items, keep);
    var q := Run(INITIAL, Listing(items), keep);
    assert q.list[0..] == q.list;
  }
}
