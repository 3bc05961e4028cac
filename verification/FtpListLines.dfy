/** What a Unix listing must look like for the parser to list anything: every entry comes from a line of
    the printed form, whatever the input. The converse of FtpListRoundTrip. */
module FtpListLines {
  import opened CText
  import opened Wrappers
  import opened FtpList
  import opened FtpListRoundTrip

  /** Reading s lists nothing. */
  predicate Quiet(p: Parser, s: string, keep: Filter) { Run(p, s, keep).list == p.list }

  lemma QuietError(p: Parser, s: string, keep: Filter)
    requires s != "" && Step(p, s[0], keep).error && Step(p, s[0], keep).list == p.list
    ensures Quiet(p, s, keep)
  {
    hide Step, Run;
    var q := Step(p, s[0], keep);
    RunOne(p, s, q, keep);
    ErrorIsFinal(q, s[1..], keep);
  }

  /** What is quiet behind a text that lists nothing is quiet with it. */
  lemma QuietBehind(p: Parser, a: string, s: string, keep: Filter)
    requires Quiet(p, a, keep) && Quiet(Run(p, a, keep), s, keep)
    ensures Quiet(p, a + s, keep)
  {
    hide Run;
    RunAppend(p, a, s, keep);
  }

  // ---- bytes that are an error -----------------------------------------------------------------

  predicate IsNumberColumn(u: UnixState) { u == HlinksPre || u == SizePre || u == TimePre1 }

  lemma BadStart(p: Parser, c: char, keep: Filter)
    requires Reading(p) && IsNumberColumn(p.unix) && !Stays(p.unix, c) && !Starts(p.unix, c)
    ensures Step(p, c, keep).error && Step(p, c, keep).list == p.list
  {
  }

  predicate IsStrict(u: UnixState) {
    u == HlinksNumber || u == SizeNumber || u == TimePart1 || u == TimePart2 || u == TimePart3
  }

  lemma BadToken(p: Parser, c: char, keep: Filter)
    requires Reading(p) && IsStrict(p.unix) && !Stays(p.unix, c) && c != ' '
    ensures Step(p, c, keep).error && Step(p, c, keep).list == p.list
  {
  }

  lemma BadGap(p: Parser, c: char, keep: Filter)
    requires Reading(p) && (p.unix == TimePre2 || p.unix == TimePre3) && c != ' ' && !IsAlnum(c)
    ensures Step(p, c, keep).error && Step(p, c, keep).list == p.list
  {
  }

  lemma BadReturn(p: Parser, c: char, keep: Filter)
    requires Reading(p) && (p.unix == NameWinEol || p.unix == LinkWinEol) && c != '\n'
    ensures Step(p, c, keep).error && Step(p, c, keep).list == p.list
  {
    hide Step, Append, LinkStep;
    if p.unix == LinkWinEol {
      LinkDispatch(p, c, keep);
      LinkReturn(Append(p, c), c, keep);
      AppendList(p, c);
    } else {
      BadNameReturn(p, c, keep);
    }
  }

  lemma BadNameReturn(p: Parser, c: char, keep: Filter)
    requires Reading(p) && p.unix == NameWinEol && c != '\n'
    ensures Step(p, c, keep).error && Step(p, c, keep).list == p.list
  {
    hide TotalStep, TypeStep, PermStep, HlinksStep, UserStep, GroupStep, SizeStep, TimeStep, LinkStep, NtStep, EndName;
  }

  lemma LinkReturn(p: Parser, c: char, keep: Filter)
    requires p.file.Some? && p.unix == LinkWinEol && c != '\n'
    ensures LinkStep(p, c, keep).error && LinkStep(p, c, keep).list == p.list
  {
    hide EndTarget, EndLinkName, LinkArrow, StartToken;
  }

  lemma AppendList(p: Parser, c: char)
    ensures Append(p, c).list == p.list
  {
  }

  // ---- blanks and a token -----------------------------------------------------------------------

  /** How far s stays in a state. */
  function Staying(u: UnixState, s: string): (n: nat)
    ensures n <= |s| && AllStay(u, s[..n]) && (n < |s| ==> !Stays(u, s[n]))
  {
    if s == "" || !Stays(u, s[0]) then 0 else
      var n := Staying(u, s[1..]);
      assert s[..n + 1] == [s[0]] + s[1..][..n];
      n + 1
  }

  function Blanks(s: string): (n: nat)
    ensures n <= |s| && s[..n] == Spaces(n) && (n < |s| ==> s[n] != ' ')
  {
    if s == "" || s[0] != ' ' then 0 else
      var n := Blanks(s[1..]);
      assert s[..n + 1] == [s[0]] + s[1..][..n];
      n + 1
  }

  predicate Opens(u: UnixState) {
    u == HlinksPre || u == UserPre || u == GroupPre || u == SizePre || u == TimePre1 || u == NamePre || u == LinkPre4
  }

  lemma OpensStays(u: UnixState)
    requires Opens(u)
    ensures u != LinkPre4 ==> Stays(u, ' ') && forall c :: Stays(u, c) ==> c == ' '
    ensures forall c :: !Starts(u, c) ==> Stays(u, c) || IsNumberColumn(u) || u == LinkPre4
  {
  }

  /** The blanks and the token at the beginning of s, unless s ends before the token does, or has no
      token there. */
  lemma Split(p: Parser, s: string, keep: Filter) returns (found: bool, pad: nat, tok: string, rest: string)
    requires Reading(p) && Opens(p.unix) && (p.unix == LinkPre4 ==> s != "" && Starts(LinkPre4, s[0]))
    ensures !found ==> Quiet(p, s, keep)
    ensures found ==>
      && s == Spaces(pad) + tok + rest && (pad == 0 || p.unix != LinkPre4)
      && tok != "" && Starts(p.unix, tok[0]) && AllStay(TokenState(p.unix), tok[1..])
      && rest != "" && !Stays(TokenState(p.unix), rest[0])
      && Run(p, s, keep) == Run(Inside(p, pad, tok), rest, keep)
  {
    hide Step, Run, Stays, Starts, Inside, Quiet, AllStay, Blanks;
    OpensStays(p.unix);
    pad := if p.unix == LinkPre4 then 0 else Blanks(s);
    found, tok, rest := false, "", "";
    var t := s[pad..];
    assert s == Spaces(pad) + t;
    if t == "" {
      assert s == Spaces(pad);
      BlanksQuiet(p, pad, keep);
    } else if !Starts(p.unix, t[0]) {
      WrongStart(p, pad, t, keep);
    } else {
      found, tok, rest := SplitToken(p, pad, t, keep);
    }
  }

  lemma WrongStart(p: Parser, pad: nat, t: string, keep: Filter)
    requires Reading(p) && IsNumberColumn(p.unix) && t != "" && !Starts(p.unix, t[0]) && !Stays(p.unix, t[0])
    requires Stays(p.unix, ' ')
    ensures Quiet(p, Spaces(pad) + t, keep)
  {
    hide Step, Run, Stays, Starts, Quiet, Spaces;
    BlanksQuiet(p, pad, keep);
    BlanksRead(p, pad, keep);
    var q := Run(p, Spaces(pad), keep);
    BadStart(q, t[0], keep);
    QuietError(q, t, keep);
    QuietBehind(p, Spaces(pad), t, keep);
  }

  lemma SplitToken(p: Parser, pad: nat, t: string, keep: Filter) returns (found: bool, tok: string, rest: string)
    requires Reading(p) && (pad == 0 || Stays(p.unix, ' ')) && t != "" && Starts(p.unix, t[0])
    ensures !found ==> Quiet(p, Spaces(pad) + t, keep)
    ensures found ==>
      && Spaces(pad) + t == Spaces(pad) + tok + rest
      && tok != "" && Starts(p.unix, tok[0]) && AllStay(TokenState(p.unix), tok[1..])
      && rest != "" && !Stays(TokenState(p.unix), rest[0])
      && Run(p, Spaces(pad) + t, keep) == Run(Inside(p, pad, tok), rest, keep)
  {
    hide Step, Run, Stays, Starts, Inside, Quiet, AllStay, Spaces, Staying;
    var n := 1 + Staying(TokenState(p.unix), t[1..]);
    tok, rest := t[..n], t[n..];
    assert tok[1..] == t[1..][..n - 1];
    RunToken(p, pad, tok, keep);
    assert Spaces(pad) + t == (Spaces(pad) + tok) + rest;
    RunAppend(p, Spaces(pad) + tok, rest, keep);
    found := rest != "";
    if found {
      assert rest[0] == t[1..][n - 1];
    } else {
      InsideQuiet(p, pad, tok, keep);
      assert Spaces(pad) + t == Spaces(pad) + tok;
    }
  }

  lemma BlanksQuiet(p: Parser, pad: nat, keep: Filter)
    requires Reading(p) && (pad == 0 || Stays(p.unix, ' '))
    ensures Quiet(p, Spaces(pad), keep)
  {
    hide Step, Run;
    RunStay(p, Spaces(pad), keep);
  }

  lemma BlanksRead(p: Parser, pad: nat, keep: Filter)
    requires Reading(p) && (pad == 0 || Stays(p.unix, ' '))
    ensures Reading(Run(p, Spaces(pad), keep)) && Run(p, Spaces(pad), keep).unix == p.unix
  {
    hide Step, Run;
    RunStay(p, Spaces(pad), keep);
  }

  lemma InsideQuiet(p: Parser, pad: nat, tok: string, keep: Filter)
    requires Reading(p) && Run(p, Spaces(pad) + tok, keep) == Inside(p, pad, tok)
    ensures Quiet(p, Spaces(pad) + tok, keep)
  {
    hide Run;
  }

  // ---- one column ------------------------------------------------------------------------------

  predicate IsColumn(u: UnixState) { u == HlinksPre || u == UserPre || u == GroupPre || u == SizePre }

  function Following(u: UnixState): UnixState {
    if u == HlinksPre then UserPre else if u == UserPre then GroupPre else if u == GroupPre then SizePre else TimePre1
  }

  /** A text the column accepts. */
  predicate Fits(u: UnixState, tok: string) {
    && tok != "" && Starts(u, tok[0]) && AllStay(TokenState(u), tok[1..])
    && (u == SizePre ==> DecValue(tok) <= LONG_MAX)
  }

  /** On the way through the line that p was reading, now in state u. */
  predicate Onward(q: Parser, p: Parser, u: UnixState)
    requires p.file.Some?
  {
    Reading(q) && q.unix == u && q.list == p.list && q.file.value.fileType == p.file.value.fileType
  }

  lemma DigitsText(u: UnixState, tok: string)
    requires (u == HlinksPre || u == SizePre) && tok != "" && Starts(u, tok[0]) && AllStay(TokenState(u), tok[1..])
    ensures forall i :: 0 <= i < |tok| ==> IsDigit(tok[i])
    ensures Text(tok) == tok
  {
    hide CStr;
    assert forall i :: 0 < i < |tok| ==> tok[i] == tok[1..][i - 1];
    NoNulText(tok);
  }

  /** The blank behind a token. */
  function Ended(p: Parser, u: UnixState): Parser
    requires p.file.Some?
  {
    match u
    case HlinksPre => EndHlinks(p)
    case UserPre => EndUser(p)
    case GroupPre => EndGroup(p)
    case _ => EndSize(p)
  }

  lemma ColumnEnds(p: Parser, pad: nat, tok: string, keep: Filter)
    requires Reading(p) && IsColumn(p.unix)
    ensures Step(Inside(p, pad, tok), ' ', keep) == Ended(Closed(p, pad, tok), p.unix)
  {
    hide Step, Inside, Closed, EndHlinks, EndUser, EndGroup, EndSize, EndToken, Append, Grow;
    InsideReads(p, pad, tok);
    Close(p, pad, tok, ' ');
    if p.unix == HlinksPre {
      HlinksClose(Inside(p, pad, tok), keep);
    } else if p.unix == UserPre {
      UserClose(Inside(p, pad, tok), keep);
    } else if p.unix == GroupPre {
      GroupClose(Inside(p, pad, tok), keep);
    } else {
      SizeClose(Inside(p, pad, tok), keep);
    }
  }

  lemma EndedOnward(p: Parser, pad: nat, tok: string)
    requires Reading(p) && IsColumn(p.unix) && Fits(p.unix, tok)
    ensures Onward(Ended(Closed(p, pad, tok), p.unix), p, Following(p.unix))
  {
    hide Token, LinkCount, StrToOff, Text, DecValue;
    if p.unix == SizePre {
      SizeDigits(tok);
      DigitsText(p.unix, tok);
      ClosedToken(p, pad, tok);
    }
  }

  lemma SizeDigits(tok: string)
    requires tok != "" && Starts(SizePre, tok[0]) && AllStay(SizeNumber, tok[1..])
    ensures 0 <= DecValue(tok) <= LONG_MAX ==> StrToOff(tok) == OffOk(DecValue(tok), "")
    ensures DecValue(tok) >= 0 && (DecValue(tok) > LONG_MAX ==> StrToOff(tok) == OffOverflow)
  {
    hide DecValue, Text;
    DigitsText(SizePre, tok);
    DigitRunAll(tok);
    DigitsValue(tok);
    assert SkipSpaces(tok) == tok && tok[..|tok|] == tok && tok[|tok|..] == "";
  }

  lemma {:induction false} DigitsValue(tok: string)
    requires forall i :: 0 <= i < |tok| ==> IsDigit(tok[i])
    ensures DecValue(tok) >= 0
    decreases |tok|
  {
    if tok != "" {
      DigitsValue(tok[..|tok| - 1]);
    }
  }

  /** One column at the beginning of s, or nothing is listed. */
  lemma ReadColumn(p: Parser, s: string, keep: Filter)
    returns (found: bool, pad: nat, tok: string, q: Parser, rest: string)
    requires Reading(p) && IsColumn(p.unix)
    ensures !found ==> Quiet(p, s, keep)
    ensures found ==>
      && s == Field(pad, tok) + rest && Fits(p.unix, tok)
      && Onward(q, p, Following(p.unix)) && Run(p, s, keep) == Run(q, rest, keep)
  {
    hide Step, Run, Stays, Starts, Inside, Quiet, AllStay, Closed, Ended, DecValue;
    found, pad, tok, rest := Split(p, s, keep);
    q := p;
    if found {
      var r := Inside(p, pad, tok);
      InsideReads(p, pad, tok);
      if rest[0] != ' ' {
        NotBlank(p.unix, rest[0]);
        BadToken(r, rest[0], keep);
        InsideError(p, pad, tok, rest, s, keep);
        found := false;
      } else {
        ColumnEnds(p, pad, tok, keep);
        q := Ended(Closed(p, pad, tok), p.unix);
        RunOne(r, rest, q, keep);
        assert s == Field(pad, tok) + rest[1..];
        if Fits(p.unix, tok) {
          EndedOnward(p, pad, tok);
          rest := rest[1..];
        } else {
          SizeStuck(p, pad, tok, rest[1..], keep);
          StuckQuiet(p, q, s, rest[1..], keep);
          found := false;
        }
      }
    }
  }

  lemma NotBlank(u: UnixState, c: char)
    requires IsColumn(u) && !Stays(TokenState(u), c) && c != ' '
    ensures IsStrict(TokenState(u))
  {
  }

  lemma InsideError(p: Parser, pad: nat, tok: string, rest: string, s: string, keep: Filter)
    requires Reading(p) && rest != "" && Run(p, s, keep) == Run(Inside(p, pad, tok), rest, keep)
    requires var q := Step(Inside(p, pad, tok), rest[0], keep); q.error && q.list == Inside(p, pad, tok).list
    ensures Quiet(p, s, keep)
  {
    hide Step, Run;
    QuietError(Inside(p, pad, tok), rest, keep);
  }

  lemma StuckQuiet(p: Parser, q: Parser, s: string, rest: string, keep: Filter)
    requires Run(p, s, keep) == Run(q, rest, keep) && q.list == p.list && Quiet(q, rest, keep)
    ensures Quiet(p, s, keep)
  {
    hide Run;
  }

  // A size that is too large: its state is never left but by an error.

  ghost predicate Stuck(p: Parser, k: nat, tok: string) {
    && Reading(p) && p.unix == SizeNumber && p.itemOffset == k && k + |tok| < k + p.itemLength == |p.file.value.buf|
    && Holds(p.file.value.buf, k, tok) && StrToOff(tok) == OffOverflow
  }

  lemma StuckDigit(p: Parser, k: nat, tok: string, c: char, keep: Filter)
    requires Stuck(p, k, tok) && IsDigit(c)
    ensures Stuck(Step(p, c, keep), k, tok) && Step(p, c, keep).list == p.list
  {
    hide Step, StrToOff, Holds, Stays;
    assert Stays(SizeNumber, c) by {
      StaysDigit(c);
    }
    StayStep(p, c, keep);
    HoldsExtend(p.file.value.buf, p.file.value.buf + [c], k, tok);
  }

  lemma StaysDigit(c: char)
    requires IsDigit(c)
    ensures Stays(SizeNumber, c)
  {
  }

  lemma StuckBlank(p: Parser, k: nat, tok: string, keep: Filter)
    requires Stuck(p, k, tok)
    ensures Stuck(Step(p, ' ', keep), k, tok) && Step(p, ' ', keep).list == p.list
  {
    hide Step, StrToOff, Holds;
    SizeClose(p, keep);
    var q := EndToken(Grow(Append(p, ' ')));
    var b := p.file.value.buf;
    assert SetNul(b + [' '], |b|) == b + [NUL];
    HoldsExtend(b, b + [NUL], k, tok);
    HoldsIsCStr(b + [NUL], k, tok);
  }

  lemma {:induction false} StuckRun(p: Parser, k: nat, tok: string, s: string, keep: Filter)
    requires Stuck(p, k, tok)
    ensures Quiet(p, s, keep)
    decreases |s|
  {
    hide Step, StrToOff, Holds;
    if s == "" {
    } else if IsDigit(s[0]) {
      StuckDigit(p, k, tok, s[0], keep);
      StuckRun(Step(p, s[0], keep), k, tok, s[1..], keep);
    } else if s[0] == ' ' {
      StuckBlank(p, k, tok, keep);
      StuckRun(Step(p, s[0], keep), k, tok, s[1..], keep);
    } else {
      BadToken(p, s[0], keep);
      QuietError(p, s, keep);
    }
  }

  lemma SizeStuck(p: Parser, pad: nat, tok: string, s: string, keep: Filter)
    requires Reading(p) && p.unix == SizePre && !Fits(SizePre, tok)
    requires tok != "" && Starts(SizePre, tok[0]) && AllStay(SizeNumber, tok[1..])
    ensures var q := Ended(Closed(p, pad, tok), SizePre); q.list == p.list && Quiet(q, s, keep)
  {
    hide Run, StrToOff, Holds, DecValue, Text, Token;
    SizeDigits(tok);
    DigitsText(SizePre, tok);
    ClosedToken(p, pad, tok);
    StuckRun(Ended(Closed(p, pad, tok), SizePre), |p.file.value.buf| + pad, tok, s, keep);
  }

  // ---- the date ----------------------------------------------------------------------------------

  lemma FirstStarts(u: UnixState, tok: string)
    requires u == TimePre1 && tok != "" && Starts(u, tok[0]) && AllStay(TimePart1, tok[1..])
    ensures IsDatePart(tok, false)
  {
    assert forall i :: 0 < i < |tok| ==> tok[i] == tok[1..][i - 1];
  }

  lemma GapQuiet(p: Parser, pad: nat, keep: Filter)
    requires Reading(p) && (p.unix == TimePart1 || p.unix == TimePart2)
    ensures var q := Run(p, " " + Spaces(pad), keep);
      Onward(q, p, if p.unix == TimePart1 then TimePre2 else TimePre3)
  {
    hide Step, Run;
    DateGap(p, pad, keep);
  }

  lemma PartOnward(p: Parser, pad: nat, tok: string, keep: Filter)
    requires Reading(p) && (p.unix == TimePart1 || p.unix == TimePart2) && IsDatePart(tok, p.unix == TimePart2)
    ensures var q := Run(p, " " + Spaces(pad) + tok, keep);
      Onward(q, p, if p.unix == TimePart1 then TimePart2 else TimePart3)
  {
    hide Step, Run;
    DatePart(p, pad, tok, keep);
  }

  lemma PartText(u: UnixState, t: string, n: nat)
    requires (u == TimePart2 || u == TimePart3) && t != "" && IsAlnum(t[0]) && n <= |t[1..]| && AllStay(u, t[1..][..n])
    ensures IsDatePart(t[..n + 1], u == TimePart3)
  {
    assert forall i :: 0 < i <= n ==> t[i] == t[1..][..n][i - 1];
  }

  /** A further part of the date with the blanks in front of it, behind the part before. */
  lemma ReadPart(p: Parser, s: string, keep: Filter)
    returns (found: bool, pad: nat, tok: string, q: Parser, rest: string)
    requires Reading(p) && (p.unix == TimePart1 || p.unix == TimePart2) && s != "" && !Stays(p.unix, s[0])
    ensures !found ==> Quiet(p, s, keep)
    ensures found ==>
      && s == " " + Spaces(pad) + tok + rest && IsDatePart(tok, p.unix == TimePart2)
      && Onward(q, p, if p.unix == TimePart1 then TimePart2 else TimePart3)
      && rest != "" && !Stays(q.unix, rest[0]) && Run(p, s, keep) == Run(q, rest, keep)
  {
    hide Step, Run, Quiet, AllStay, IsDatePart, Stays, IsAlnum, Blanks, Spaces;
    found, pad, tok, q, rest := false, 0, "", p, "";
    if s[0] != ' ' {
      BadToken(p, s[0], keep);
      QuietError(p, s, keep);
    } else {
      pad := Blanks(s[1..]);
      var gap, t := " " + Spaces(pad), s[1..][pad..];
      assert s == gap + t;
      GapQuiet(p, pad, keep);
      RunAppend(p, gap, t, keep);
      q := Run(p, gap, keep);
      if t == "" {
        EmptyQuiet(q, keep);
        SameList(p, q, s, t, keep);
      } else if !IsAlnum(t[0]) {
        BadGap(q, t[0], keep);
        QuietError(q, t, keep);
        SameList(p, q, s, t, keep);
      } else {
        found, tok, q, rest := ReadPartText(p, pad, t, keep);
      }
    }
  }

  lemma ReadPartText(p: Parser, pad: nat, t: string, keep: Filter)
    returns (found: bool, tok: string, q: Parser, rest: string)
    requires Reading(p) && (p.unix == TimePart1 || p.unix == TimePart2) && t != "" && IsAlnum(t[0])
    ensures var s := " " + Spaces(pad) + t;
      && (!found ==> Quiet(p, s, keep))
      && (found ==>
            && s == " " + Spaces(pad) + tok + rest && IsDatePart(tok, p.unix == TimePart2)
            && Onward(q, p, if p.unix == TimePart1 then TimePart2 else TimePart3)
            && rest != "" && !Stays(q.unix, rest[0]) && Run(p, s, keep) == Run(q, rest, keep))
  {
    hide Step, Run, Quiet, AllStay, IsDatePart, Stays, IsAlnum, Spaces, Staying;
    var gap, u := " " + Spaces(pad), if p.unix == TimePart1 then TimePart2 else TimePart3;
    var n := Staying(u, t[1..]);
    tok, rest := t[..n + 1], t[n + 1..];
    PartText(u, t, n);
    PartOnward(p, pad, tok, keep);
    assert gap + t == (gap + tok) + rest;
    RunAppend(p, gap + tok, rest, keep);
    q := Run(p, gap + tok, keep);
    found := rest != "";
    if found {
      assert rest[0] == t[1..][n];
    } else {
      EmptyQuiet(q, keep);
      SameList(p, q, gap + t, rest, keep);
    }
  }

  /** Nothing is listed on the way to q, and nothing behind it. */
  lemma SameList(p: Parser, q: Parser, s: string, rest: string, keep: Filter)
    requires Run(p, s, keep) == Run(q, rest, keep) && q.list == p.list
    requires Quiet(q, rest, keep)
    ensures Quiet(p, s, keep)
  {
    hide Run;
  }

  lemma DateOnward(p: Parser, keep: Filter)
    requires Reading(p) && p.unix == TimePart3
    ensures Onward(Step(p, ' ', keep), p, if p.file.value.fileType == Symlink then LinkPre else NamePre)
  {
    hide Step;
    TimeClose(p, keep);
  }

  lemma DateStarts(p: Parser, pad: nat, tok: string)
    requires Reading(p) && p.unix == TimePre1
    ensures Onward(Inside(p, pad, tok), p, TimePart1)
  {
  }

  /** The three parts of the date and the blank behind them. */
  lemma ReadDate(p: Parser, s: string, e: Item, keep: Filter)
    returns (found: bool, f: Item, q: Parser, rest: string)
    requires Reading(p) && p.unix == TimePre1
    ensures !found ==> Quiet(p, s, keep)
    ensures found ==>
      && f == e.(date1 := f.date1, date2 := f.date2, date3 := f.date3,
                 pads := e.pads.(date1 := f.pads.date1, date2 := f.pads.date2, date3 := f.pads.date3))
      && IsDatePart(f.date1, false) && IsDatePart(f.date2, false) && IsDatePart(f.date3, true)
      && s == Field(f.pads.date1, Date(f)) + rest
      && Onward(q, p, if p.file.value.fileType == Symlink then LinkPre else NamePre)
      && Run(p, s, keep) == Run(q, rest, keep)
  {
    hide Step, Run, Quiet, AllStay, IsDatePart, Stays, Starts, Inside;
    found, f, q, rest := false, e, p, s;
    var ok1, pad1, tok1, r1 := Split(p, s, keep);
    if ok1 {
      var q1 := Inside(p, pad1, tok1);
      FirstStarts(TimePre1, tok1);
      DateStarts(p, pad1, tok1);
      var ok2, pad2, tok2, q2, r2 := ReadPart(q1, r1, keep);
      if !ok2 {
        SameList(p, q1, s, r1, keep);
      } else {
        var ok3, pad3, tok3, q3, r3 := ReadPart(q2, r2, keep);
        if !ok3 {
          SameList(p, q2, s, r2, keep);
        } else if r3[0] != ' ' {
          BadToken(q3, r3[0], keep);
          QuietError(q3, r3, keep);
          SameList(p, q3, s, r3, keep);
        } else {
          DateOnward(q3, keep);
          found, q, rest := true, Step(q3, ' ', keep), r3[1..];
          RunOne(q3, r3, q, keep);
          f := e.(date1 := tok1, date2 := tok2, date3 := tok3,
                  pads := e.pads.(date1 := pad1, date2 := pad2, date3 := pad3));
          assert r3 == " " + rest;
          DateTogether(f, r1, r2, rest);
        }
      }
    }
  }

  lemma DateTogether(e: Item, r1: string, r2: string, rest: string)
    requires r1 == " " + Spaces(e.pads.date2) + e.date2 + r2
    requires r2 == " " + Spaces(e.pads.date3) + e.date3 + (" " + rest)
    ensures Spaces(e.pads.date1) + e.date1 + r1 == Field(e.pads.date1, Date(e)) + rest
  {
    hide Spaces;
    var pad1 := Spaces(e.pads.date1);
    var s2, s3 := " " + Spaces(e.pads.date2) + e.date2, " " + Spaces(e.pads.date3) + e.date3;
    assert Date(e) == e.date1 + s2 + s3;
    assert pad1 + e.date1 + (s2 + (s3 + (" " + rest))) == pad1 + (e.date1 + s2 + s3) + " " + rest;
  }

  // ---- the line end --------------------------------------------------------------------------------

  function LineEnd(crlf: bool): string { if crlf then "\r\n" else "\n" }

  /** A line end behind the last token, or nothing is listed. */
  lemma ReadEol(p: Parser, s: string, keep: Filter) returns (found: bool, crlf: bool, rest: string)
    requires Reading(p) && LastToken(p.unix) && s != "" && !Stays(p.unix, s[0])
    ensures !found ==> Quiet(p, s, keep)
    ensures found ==> s == LineEnd(crlf) + rest
  {
    hide Step, Run, Quiet, Returned;
    found, crlf, rest := s[0] == '\n', false, s[1..];
    if !found {
      var r := Returned(p);
      CarriageReturn(p, keep);
      ReturnedReads(p);
      ReturnedList(p);
      RunOne(p, s, r, keep);
      if rest == "" {
        EmptyQuiet(r, keep);
        SameList(p, r, s, rest, keep);
      } else if rest[0] == '\n' {
        found, crlf, rest := true, true, rest[1..];
      } else {
        BadReturn(r, rest[0], keep);
        QuietError(r, rest, keep);
        SameList(p, r, s, rest, keep);
      }
    }
  }

  lemma ReturnedList(p: Parser)
    requires p.file.Some?
    ensures Returned(p).list == p.list
  {
  }

  // ---- the name --------------------------------------------------------------------------------------

  lemma NameText(tok: string)
    requires tok != "" && Starts(NamePre, tok[0]) && AllStay(NameName, tok[1..])
    ensures IsEntryName(tok)
  {
  }

  lemma InsideLast(p: Parser, pad: nat, tok: string)
    requires Reading(p) && (p.unix == NamePre || p.unix == LinkPre4)
    ensures var q := Inside(p, pad, tok);
      Reading(q) && q.unix == TokenState(p.unix) && LastToken(q.unix) && q.list == p.list
  {
  }

  /** A name and its line end, or nothing is listed. */
  lemma ReadName(p: Parser, s: string, keep: Filter)
    returns (found: bool, pad: nat, name: string, crlf: bool, rest: string)
    requires Reading(p) && p.unix == NamePre
    ensures !found ==> Quiet(p, s, keep)
    ensures found ==> s == Spaces(pad) + name + LineEnd(crlf) + rest && IsEntryName(name)
  {
    hide Step, Run, Quiet, AllStay, Stays, Starts, Inside, IsEntryName;
    crlf := false;
    found, pad, name, rest := Split(p, s, keep);
    if found {
      var q, r := Inside(p, pad, name), rest;
      InsideLast(p, pad, name);
      NameText(name);
      found, crlf, rest := ReadEol(q, r, keep);
      if !found {
        SameList(p, q, s, r, keep);
      }
    }
  }

  // ---- name and target of a link -------------------------------------------------------------------

  lemma TargetText(tok: string)
    requires tok != "" && Starts(LinkPre4, tok[0]) && AllStay(LinkTarget, tok[1..])
    ensures NoLineEnd(tok)
  {
    assert forall i :: 0 < i < |tok| ==> tok[i] == tok[1..][i - 1];
  }

  /** A target and its line end behind the arrow, or nothing is listed. */
  lemma ReadTarget(p: Parser, s: string, keep: Filter)
    returns (found: bool, target: string, crlf: bool, rest: string)
    requires Reading(p) && p.unix == LinkPre4
    ensures !found ==> Quiet(p, s, keep)
    ensures found ==> s == target + LineEnd(crlf) + rest && target != "" && NoLineEnd(target)
  {
    hide Step, Run, Quiet, AllStay, Stays, Inside;
    found, target, crlf, rest := false, "", false, s;
    if s == "" {
      EmptyQuiet(p, keep);
    } else if !Starts(LinkPre4, s[0]) {
      LineEndStep(p, s[0], keep);
      QuietError(p, s, keep);
    } else {
      var pad;
      found, pad, target, rest := Split(p, s, keep);
      if found {
        var q, r := Inside(p, pad, target), rest;
        InsideLast(p, pad, target);
        TargetText(target);
        NoSpaces(target);
        found, crlf, rest := ReadEol(q, r, keep);
        if !found {
          SameList(p, q, s, r, keep);
        }
      }
    }
  }

  lemma EmptyQuiet(p: Parser, keep: Filter)
    ensures Quiet(p, "", keep)
  {
  }

  /** The rest of a line as far as its line end, behind the first byte of a name. */
  function NameLength(v: string): (m: nat)
    requires v != ""
    ensures 0 < m <= |v| && NoLineEnd(v[..m][1..])
    ensures m < |v| ==> v[m] == '\r' || v[m] == '\n'
  {
    var n := Staying(NameName, v[1..]);
    assert v[..n + 1][1..] == v[1..][..n];
    assert n < |v[1..]| ==> v[n + 1] == v[1..][n];
    n + 1
  }

  lemma NoArrowQuiet(p: Parser, pad: nat, t: string, w: string, keep: Filter)
    requires Reading(p) && p.unix == LinkPre && IsEntryName(t) && ArrowOver(LinkName, t[1..]) != LinkPre4
    requires w != "" ==> w[0] == '\r' || w[0] == '\n'
    ensures Quiet(p, Spaces(pad) + t + w, keep)
  {
    hide Step, Run, Quiet, ArrowOver, Spaces, Inside;
    var q := Inside(p, pad, t).(unix := ArrowOver(LinkName, t[1..]));
    LinkTextRun(p, pad, t, keep);
    RunAppend(p, Spaces(pad) + t, w, keep);
    InsideList(p, pad, t);
    ArrowText(Inside(p, pad, [t[0]]), t[1..], keep);
    if w == "" {
      EmptyQuiet(q, keep);
    } else {
      LineEndStep(q, w[0], keep);
      QuietError(q, w, keep);
    }
    SameList(p, q, Spaces(pad) + t + w, w, keep);
  }

  /** The name in front of the arrow that is completed first. */
  lemma ReadArrow(p: Parser, pad: nat, t: string, w: string, keep: Filter) returns (name: string, q: Parser, r: string)
    requires Reading(p) && p.unix == LinkPre && IsEntryName(t) && ArrowOver(LinkName, t[1..]) == LinkPre4
    ensures IsEntryName(name) && Readable(name) && t + w == name + " -> " + r
    ensures Reading(q) && q.unix == LinkPre4 && q.list == p.list
    ensures Run(p, Spaces(pad) + t + w, keep) == Run(q, r, keep)
  {
    hide Step, Run, ArrowOver, Spaces, Inside, Arrowed, Readable;
    ArrowFoundIff(t[1..]);
    var j := FindArrow(t[1..], 0).value;
    CutAt(t, j);
    name, r := t[..j + 1], t[j + 5..] + w;
    assert name[1..] == t[1..][..j];
    NameRun(p, pad, name, keep);
    ArrowRun(p, pad, name, keep);
    q := Arrowed(p, pad, name);
    ArrowedReads(p, pad, name);
    assert Spaces(pad) + t + w == (Spaces(pad) + name) + " -> " + r;
    RunAppend(p, Spaces(pad) + name, " -> ", keep);
    RunAppend(p, (Spaces(pad) + name) + " -> ", r, keep);
  }

  /** A link's name with the arrow, its target and its line end, or nothing is listed. */
  lemma ReadLink(p: Parser, s: string, keep: Filter)
    returns (found: bool, pad: nat, name: string, target: string, crlf: bool, rest: string)
    requires Reading(p) && p.unix == LinkPre
    ensures !found ==> Quiet(p, s, keep)
    ensures found ==>
      && s == Spaces(pad) + name + " -> " + target + LineEnd(crlf) + rest
      && IsEntryName(name) && Readable(name) && target != "" && NoLineEnd(target)
  {
    hide Step, Run, Quiet, ArrowOver, Spaces, Inside, Arrowed, Readable, LineEnd, NoLineEnd;
    found, pad, name, target, crlf, rest := false, Blanks(s), "", "", false, s;
    var v := s[pad..];
    assert s == Spaces(pad) + v;
    if v == "" {
      assert s == Spaces(pad);
      BlanksQuiet(p, pad, keep);
    } else {
      var t, w := v[..NameLength(v)], v[NameLength(v)..];
      assert s == Spaces(pad) + t + w;
      if ArrowOver(LinkName, t[1..]) != LinkPre4 {
        NoArrowQuiet(p, pad, t, w, keep);
      } else {
        var q, r;
        name, q, r := ReadArrow(p, pad, t, w, keep);
        found, target, crlf, rest := ReadTarget(q, r, keep);
        if found {
          LinkTogether(Spaces(pad), t, w, name, target, LineEnd(crlf), rest);
        } else {
          SameList(p, q, s, r, keep);
        }
      }
    }
  }

  lemma LinkTogether(blanks: string, t: string, w: string, name: string, target: string, eol: string, rest: string)
    requires t + w == name + " -> " + (target + eol + rest)
    ensures blanks + t + w == blanks + name + " -> " + target + eol + rest
  {
    assert blanks + t + w == blanks + (t + w);
    assert blanks + (name + " -> " + (target + eol + rest)) == blanks + name + " -> " + target + eol + rest;
  }

  // ---- type and permissions ------------------------------------------------------------------------

  /** A first byte of a Unix line: not what makes the listing one of Windows NT, nor its "total" line. */
  predicate UnixFirst(p: Parser, c: char) {
    (p.os == OsUnknown ==> !IsDigit(c)) && (p.unix == TotalInit ==> c != 't')
  }

  lemma BadType(p: Parser, c: char, keep: Filter)
    requires LineStart(p) && UnixFirst(p, c) && TypeOf(c).None?
    ensures Step(p, c, keep).error && Step(p, c, keep).list == p.list
  {
    hide PermStep, HlinksStep, UserStep, GroupStep, SizeStep, TimeStep, NameStep, LinkStep, NtStep;
  }

  lemma LetterOfType(c: char)
    ensures TypeOf(c).Some? ==> TypeLetter(TypeOf(c).value) == c
  {
  }

  lemma BadPerm(p: Parser, t: FileType, s: string, c: char, keep: Filter)
    requires !p.error && |s| <= 9 && (if |s| < 9 then !IsPermChar(c) else c != ' ')
    ensures var q := Step(InPermission(p, t, s), c, keep); q.error && q.list == p.list
  {
    hide TotalStep, TypeStep, HlinksStep, UserStep, GroupStep, SizeStep, TimeStep, NameStep, LinkStep, NtStep, EndPerm;
  }

  /** How many permission characters s begins with, nine at most. */
  function PermLength(s: string, most: nat): (n: nat)
    ensures n <= |s| && n <= most && forall i :: 0 <= i < n ==> IsPermChar(s[i])
    ensures n < |s| && n < most ==> !IsPermChar(s[n])
  {
    if s == "" || most == 0 || !IsPermChar(s[0]) then 0 else 1 + PermLength(s[1..], most - 1)
  }

  function RightsOf(r: char, w: char, x: char, both: char, only: char): Rights {
    Rights(r == 'r', w == 'w', x == 'x' || x == both, x == both || x == only)
  }

  function ModeOf(s: string): Mode
    requires |s| == 9
  {
    Mode(RightsOf(s[0], s[1], s[2], 's', 'S'), RightsOf(s[3], s[4], s[5], 's', 'S'),
         RightsOf(s[6], s[7], s[8], 't', 'T'))
  }

  lemma TriadText(r: char, w: char, x: char, both: char, only: char, unit: nat, special: nat)
    requires Triad(r, w, x, both, only, unit, special) < MALFORMED_PERM && both != 'x' && only != 'x' && both != only
    ensures RightsOf(r, w, x, both, only).Print(both, only) == [r, w, x]
  {
  }

  /** Well-formed permissions are the printed form of a mode. */
  lemma PermissionText(s: string)
    requires |s| == 9 && GetPermission(s) < MALFORMED_PERM
    ensures ModeOf(s).Print() == s
  {
    TriadText(s[0], s[1], s[2], 's', 'S', 64, 2048);
    TriadText(s[3], s[4], s[5], 's', 'S', 8, 1024);
    TriadText(s[6], s[7], s[8], 't', 'T', 1, 512);
    assert s == [s[0], s[1], s[2]] + [s[3], s[4], s[5]] + [s[6], s[7], s[8]];
  }

  lemma PermEnds(p: Parser, t: FileType, s: string, keep: Filter)
    requires !p.error && |s| == 9
    ensures var q := Step(InPermission(p, t, s), ' ', keep);
      if GetPermission(s) < MALFORMED_PERM then
        Reading(q) && q.unix == HlinksPre && q.list == p.list && q.file.value.fileType == t
      else q.error && q.list == p.list
  {
    hide Step, GetPermission;
    PermClose(p, t, s, keep);
    var b := [TypeLetter(t)] + s + [NUL];
    assert SetNul([TypeLetter(t)] + s + [' '], 10) == b;
    assert b[1..] == s + [NUL];
    SamePermission(s, b[1..]);
  }

  /** The type, the permissions and the blank behind them, or nothing is listed. */
  lemma ReadHead(p: Parser, s: string, keep: Filter)
    returns (found: bool, t: FileType, mode: Mode, q: Parser, rest: string)
    requires LineStart(p) && s != "" && UnixFirst(p, s[0])
    ensures !found ==> Quiet(p, s, keep)
    ensures found ==>
      && s == [TypeLetter(t)] + mode.Print() + " " + rest
      && Reading(q) && q.unix == HlinksPre && q.list == p.list && q.file.value.fileType == t
      && Run(p, s, keep) == Run(q, rest, keep)
  {
    hide Step, Run, Quiet, InPermission, LineStart, GetPermission;
    found, t, mode, q, rest := false, File, ModeOf("---------"), p, s;
    LetterOfType(s[0]);
    if TypeOf(s[0]).None? {
      BadType(p, s[0], keep);
      QuietError(p, s, keep);
    } else {
      t := TypeOf(s[0]).value;
      TypeFirst(p, t, keep);
      var r := InPermission(p, t, "");
      RunOne(p, s, r, keep);
      LineStartIsOk(p);
      InPermissionList(p, t, "");
      found, mode, q, rest := ReadPerm(p, t, s[1..], keep);
      if found {
        assert s == [s[0]] + s[1..];
        HeadText(s[0], mode.Print(), rest);
      } else {
        SameList(p, r, s, s[1..], keep);
      }
    }
  }

  lemma HeadText(c: char, perm: string, rest: string)
    ensures [c] + (perm + " " + rest) == [c] + perm + " " + rest
  {
  }

  /** Nine permission characters and the blank behind them, or nothing is listed. */
  lemma ReadPerm(p: Parser, t: FileType, s: string, keep: Filter)
    returns (found: bool, mode: Mode, q: Parser, rest: string)
    requires !p.error
    ensures var r := InPermission(p, t, "");
      && (!found ==> Quiet(r, s, keep))
      && (found ==>
            && s == mode.Print() + " " + rest
            && Reading(q) && q.unix == HlinksPre && q.list == p.list && q.file.value.fileType == t
            && Run(r, s, keep) == Run(q, rest, keep))
  {
    hide Step, Run, Quiet, InPermission, GetPermission, PermLength, ModeOf, Mode.Print, Rights.Print;
    found, mode := false, ModeOf("---------");
    var r, n := InPermission(p, t, ""), PermLength(s, 9);
    var perm, u := s[..n], s[n..];
    rest := u;
    PermLetters(p, t, "", perm, keep);
    assert "" + perm == perm && s == perm + u;
    RunAppend(r, perm, u, keep);
    q := InPermission(p, t, perm);
    InPermissionList(p, t, perm);
    InPermissionList(p, t, "");
    if u == "" {
      EmptyQuiet(q, keep);
    } else if n < 9 || u[0] != ' ' {
      BadPerm(p, t, perm, u[0], keep);
      QuietError(q, u, keep);
    } else {
      PermEnds(p, t, perm, keep);
      if GetPermission(perm) >= MALFORMED_PERM {
        QuietError(q, u, keep);
      } else {
        PermissionText(perm);
        RunOne(q, u, Step(q, ' ', keep), keep);
        found, mode, rest := true, ModeOf(perm), u[1..];
        assert s == perm + " " + rest;
      }
    }
    if found {
      q := Step(q, ' ', keep);
    } else {
      SameList(r, q, s, u, keep);
    }
  }

  lemma InPermissionList(p: Parser, t: FileType, s: string)
    ensures InPermission(p, t, s).list == p.list
  {
  }

  // ---- a line, a listing -------------------------------------------------------------------------

  lemma {:induction false} DigitsAreNumber(tok: string) returns (zeros: nat, n: nat)
    requires tok != "" && forall i :: 0 <= i < |tok| ==> IsDigit(tok[i])
    ensures tok == Number(zeros, n) && n == DecValue(tok)
    decreases |tok|
  {
    hide Number;
    var t, c := tok[..|tok| - 1], tok[|tok| - 1];
    assert tok == t + [c];
    if t == "" {
      zeros, n := 0, c as int - '0' as int;
      OneDigit(c);
    } else {
      zeros, n := DigitsAreNumber(t);
      OneDigitMore(zeros, n, c);
      zeros, n := if n == 0 then zeros + 1 else zeros, n * 10 + (c as int - '0' as int);
    }
  }

  lemma OneDigit(c: char)
    requires IsDigit(c)
    ensures Number(0, c as int - '0' as int) == [c]
  {
  }

  lemma OneDigitMore(zeros: nat, n: nat, c: char)
    requires IsDigit(c)
    ensures var d := c as int - '0' as int;
      Number(zeros, n) + [c] == if n == 0 then Number(zeros + 1, d) else Number(zeros, n * 10 + d)
  {
    var d := c as int - '0' as int;
    if n == 0 {
      assert Number(zeros, n) == Zeros(zeros + 1);
    } else {
      assert Decimal(n * 10 + d) == Decimal(n) + [DigitChar(d)];
    }
  }

  /** Link count, user, group and size. */
  lemma ReadColumns(p: Parser, s: string, e: Item, keep: Filter) returns (found: bool, f: Item, q: Parser, rest: string)
    requires Reading(p) && p.unix == HlinksPre
    ensures !found ==> Quiet(p, s, keep)
    ensures found ==>
      && f.fileType == e.fileType && f.mode == e.mode
      && IsWord(f.user) && IsWord(f.group) && f.size <= LONG_MAX
      && s == Field(f.pads.hlinks, Links(f)) + (Field(f.pads.user, f.user) +
              (Field(f.pads.group, f.group) + (Field(f.pads.size, Size(f)) + rest)))
      && Onward(q, p, TimePre1) && Run(p, s, keep) == Run(q, rest, keep)
  {
    hide Step, Run, Quiet, Field, Fits, DecValue, Number;
    found, f, q, rest := false, e, p, s;
    var ok1, pad1, tok1, q1, r1 := ReadColumn(p, s, keep);
    if ok1 {
      var ok2, pad2, tok2, q2, r2 := ReadColumn(q1, r1, keep);
      if !ok2 {
        SameList(p, q1, s, r1, keep);
      } else {
        var ok3, pad3, tok3, q3, r3 := ReadColumn(q2, r2, keep);
        if !ok3 {
          SameList(p, q2, s, r2, keep);
        } else {
          var ok4, pad4, tok4, q4, r4 := ReadColumn(q3, r3, keep);
          if !ok4 {
            SameList(p, q3, s, r3, keep);
          } else {
            FitsDigits(HlinksPre, tok1);
            FitsDigits(SizePre, tok4);
            FitsWord(UserPre, tok2);
            FitsWord(GroupPre, tok3);
            var z1, n1 := DigitsAreNumber(tok1);
            var z4, n4 := DigitsAreNumber(tok4);
            found, q, rest := true, q4, r4;
            f := e.(hlinks := n1, user := tok2, group := tok3, size := n4,
                    pads := e.pads.(hlinks := pad1, user := pad2, group := pad3, size := pad4,
                                    linkZeros := z1, sizeZeros := z4));
          }
        }
      }
    }
  }

  lemma FitsDigits(u: UnixState, tok: string)
    requires (u == HlinksPre || u == SizePre) && Fits(u, tok)
    ensures tok != "" && forall i :: 0 <= i < |tok| ==> IsDigit(tok[i])
    ensures u == SizePre ==> DecValue(tok) <= LONG_MAX
  {
    hide DecValue;
    DigitsText(u, tok);
  }

  lemma FitsWord(u: UnixState, tok: string)
    requires (u == UserPre || u == GroupPre) && Fits(u, tok)
    ensures IsWord(tok)
  {
    hide DecValue;
    assert forall i :: 0 < i < |tok| ==> tok[i] == tok[1..][i - 1];
  }

  const BLANK_ITEM: Item :=
    Item(File, ModeOf("---------"), 0, "", "", 0, "", "", "", "", "", Pads(0, 0, 0, 0, 0, 0, 0, 0, 0, 0), false)

  /** Everything in front of the name. */
  lemma ReadFront(p: Parser, s: string, keep: Filter) returns (found: bool, e: Item, q: Parser, rest: string)
    requires LineStart(p) && s != "" && UnixFirst(p, s[0])
    ensures !found ==> Quiet(p, s, keep)
    ensures found ==>
      && IsWord(e.user) && IsWord(e.group) && e.size <= LONG_MAX
      && IsDatePart(e.date1, false) && IsDatePart(e.date2, false) && IsDatePart(e.date3, true)
      && s == Head(e) + (Middle(e) + rest)
      && Reading(q) && q.unix == (if e.fileType == Symlink then LinkPre else NamePre) && q.list == p.list
      && Run(p, s, keep) == Run(q, rest, keep)
  {
    hide Step, Run, Quiet, LineStart, Field, Date, IsDatePart, Number;
    found, e, q, rest := false, BLANK_ITEM, p, s;
    var ok1, t, mode, q1, r1 := ReadHead(p, s, keep);
    if ok1 {
      e := e.(fileType := t, mode := mode);
      var ok2, f, q2, r2 := ReadColumns(q1, r1, e, keep);
      if !ok2 {
        SameList(p, q1, s, r1, keep);
      } else {
        found, e, q, rest := ReadDate(q2, r2, f, keep);
        if !found {
          SameList(p, q2, s, r2, keep);
        } else {
          FrontText(e, f, s, r1, r2, rest);
        }
      }
    }
  }

  lemma FrontText(e: Item, f: Item, s: string, r1: string, r2: string, rest: string)
    requires e == f.(date1 := e.date1, date2 := e.date2, date3 := e.date3,
                     pads := f.pads.(date1 := e.pads.date1, date2 := e.pads.date2, date3 := e.pads.date3))
    requires s == [TypeLetter(f.fileType)] + f.mode.Print() + " " + r1
    requires r1 == Field(f.pads.hlinks, Links(f)) + (Field(f.pads.user, f.user) +
                   (Field(f.pads.group, f.group) + (Field(f.pads.size, Size(f)) + r2)))
    requires r2 == Field(e.pads.date1, Date(e)) + rest
    ensures s == Head(e) + (Middle(e) + rest)
  {
    hide Field, Date, Number, TypeLetter;
    assert r1 == Middle(e) + rest;
  }

  /** One line of the printed form at the beginning of s, or nothing is listed at all. */
  lemma ReadLine(p: Parser, s: string, keep: Filter) returns (found: bool, e: Item, rest: string)
    requires LineStart(p) && s != "" && UnixFirst(p, s[0])
    ensures !found ==> Quiet(p, s, keep)
    ensures found ==> WellFormed(e) && s == Line(e) + rest
  {
    hide Step, Run, Quiet, LineStart, Head, Middle, IsDatePart, IsWord, IsEntryName, Readable, Spaces;
    var q, r;
    found, e, q, r := ReadFront(p, s, keep);
    rest := r;
    if found {
      var pad, name, target, crlf := 0, "", "", false;
      if e.fileType == Symlink {
        found, pad, name, target, crlf, rest := ReadLink(q, r, keep);
      } else {
        found, pad, name, crlf, rest := ReadName(q, r, keep);
      }
      if found {
        var f := e.(name := name, target := target, crlf := crlf, pads := e.pads.(name := pad));
        SameFront(e, f);
        assert r == Tail(f) + rest;
        assert Head(e) + (Middle(e) + (Tail(f) + rest)) == Line(f) + rest;
        e := f;
      } else {
        SameList(p, q, s, r, keep);
      }
    }
  }

  lemma SameFront(e: Item, f: Item)
    requires f == e.(name := f.name, target := f.target, crlf := f.crlf, pads := e.pads.(name := f.pads.name))
    ensures Head(f) == Head(e) && Middle(f) == Middle(e)
  {
  }

  /**
   * Whatever the input: it begins with lines of the printed form, the list gets exactly the accepted ones
   * of them, in order and described field by field, and everything behind them lists nothing.
   */
  lemma {:induction false} EntriesAreLines(p: Parser, s: string, keep: Filter) returns (items: seq<Item>, rest: string)
    requires LineStart(p) && (s != "" ==> UnixFirst(p, s[0]))
    ensures (forall e :: e in items ==> WellFormed(e)) && s == Listing(items) + rest
    ensures var list := Run(p, s, keep).list; p.list <= list && AllDescribe(list[|p.list|..], Kept(items, keep))
    decreases |s|
  {
    hide Step, Run, Line, WellFormed, Describes, LineStart, Accepted, Listing, Kept, AllDescribe;
    items, rest := [], s;
    var found, e, r := false, BLANK_ITEM, s;
    if s == "" {
      EmptyQuiet(p, keep);
    } else {
      found, e, r := ReadLine(p, s, keep);
    }
    if !found {
      NoItems(s);
      NothingAdded(p.list, keep);
    } else {
      LineNotEmpty(e);
      LineRoundTrip(p, e, keep);
      RunAppend(p, Line(e), r, keep);
      var q := Run(p, Line(e), keep);
      items, rest := EntriesAreLines(q, r, keep);
      ListingFirst(e, items);
      KeptFirst(e, items, keep);
      assert s == Line(e) + (Listing(items) + rest) == Line(e) + Listing(items) + rest;
      DescribeFirst(p.list, q, Run(q, r, keep).list, e, Kept(items, keep), keep);
      items := [e] + items;
    }
  }

  lemma ListingFirst(e: Item, items: seq<Item>)
    ensures Listing([e] + items) == Line(e) + Listing(items)
  {
    hide Line;
    assert ([e] + items)[1..] == items;
  }

  lemma LineNotEmpty(e: Item)
    ensures Line(e) != ""
  {
  }

  // ---- the first line ----------------------------------------------------------------------------

  /** Carriage returns in the first line are not stored. */
  function NoReturns(s: string): string {
    if s == "" then "" else (if s[0] == '\r' then "" else [s[0]]) + NoReturns(s[1..])
  }

  /** The word, a blank, more white space and digits, as far as a C string shows it. */
  predicate IsTotal(x: string) { "total " <= x && SkipDigits(SkipSpaces(Text(x[6..]))) == "" }

  /** A first line that gives the size of the directory. */
  predicate IsTotalLine(s: string) {
    && s != "" && s[|s| - 1] == '\n' && '\n' !in s[..|s| - 1]
    && s[0] == 't' && IsTotal(NoReturns(s[..|s| - 1]))
  }

  lemma TotalByte(x: string, c: char, keep: Filter)
    requires x != "" && c != '\n'
    ensures Step(InTotal(x), c, keep) == InTotal(x + NoReturns([c]))
  {
    hide Step, InTotal;
    if c == '\r' {
      TotalReturn(x, keep);
      assert x + NoReturns([c]) == x;
    } else {
      hide NoReturns;
      TotalStores(x, c, keep);
      SingleByte(c);
    }
  }

  lemma SingleByte(c: char)
    requires c != '\r'
    ensures NoReturns([c]) == [c]
  {
  }

  lemma TotalStores(x: string, c: char, keep: Filter)
    requires x != "" && c != '\n' && c != '\r'
    ensures Step(InTotal(x), c, keep) == InTotal(x + [c])
  {
    hide Step;
    StayStep(InTotal(x), c, keep);
  }

  lemma ReturnsSplit(s: string)
    requires s != ""
    ensures NoReturns(s) == NoReturns([s[0]]) + NoReturns(s[1..])
  {
    assert [s[0]][1..] == "";
  }

  lemma {:induction false} TotalBytes(x: string, s: string, keep: Filter)
    requires x != "" && '\n' !in s
    ensures Run(InTotal(x), s, keep) == InTotal(x + NoReturns(s))
    decreases |s|
  {
    hide Step, InTotal, NoReturns;
    if s == "" {
      NothingReturned();
      assert x + "" == x;
    } else {
      var y := x + NoReturns([s[0]]);
      TotalByte(x, s[0], keep);
      TotalBytes(y, s[1..], keep);
      ReturnsSplit(s);
      assert y + NoReturns(s[1..]) == x + (NoReturns([s[0]]) + NoReturns(s[1..]));
    }
  }

  lemma NothingReturned()
    ensures NoReturns("") == ""
  {
  }

  lemma TotalEnd(x: string, keep: Filter)
    requires x != ""
    ensures var q := Step(InTotal(x), '\n', keep);
      q.list == [] && if IsTotal(x) then LineStart(q) && q.os == OsUnix && q.unix == TypeChar else q.error
  {
    hide TotalStep, TypeStep, PermStep, HlinksStep, UserStep, GroupStep, SizeStep, TimeStep, NameStep, LinkStep, NtStep,
      IsTotal, LineStart;
    TotalCloses(x, Append(InTotal(x), '\n'));
  }

  lemma TotalCloses(x: string, p: Parser)
    requires x != "" && p == Append(InTotal(x), '\n')
    ensures var q := TotalStep(p, '\n');
      q.list == [] && if IsTotal(x) then LineStart(q) && q.os == OsUnix && q.unix == TypeChar else q.error
  {
    hide TypeStep, SkipDigits, SkipSpaces, CStr;
    var b := x + [NUL];
    assert SetNul(x + ['\n'], |x|) == b;
    TotalPrefix(x);
    if "total " <= x {
      TotalShown(x);
    }
  }

  lemma TotalShown(x: string)
    requires |x| >= 6
    ensures CStr(x + [NUL], 6) == Text(x[6..])
  {
    hide CStr;
    var b := x + [NUL];
    assert b[6..6 + |x[6..]|] == x[6..];
    TextHolds(b, 6, x[6..]);
    HoldsIsCStr(b, 6, Text(x[6..]));
  }

  lemma TotalPrefix(x: string)
    ensures "total " <= x + [NUL] <==> "total " <= x
  {
    if "total " <= x + [NUL] {
      assert (x + [NUL])[5] == ' ';
      assert x == (x + [NUL])[..|x|];
    }
  }

  /** A first line with a "t" is the size of the directory, or nothing is listed. */
  lemma ReadTotal(s: string, keep: Filter) returns (found: bool, head: string, rest: string)
    requires s != "" && s[0] == 't'
    ensures !found ==> Quiet(INITIAL, s, keep)
    ensures found ==>
      && s == head + rest && IsTotalLine(head)
      && (var q := Run(INITIAL, head, keep); LineStart(q) && q.os == OsUnix && q.unix == TypeChar && q.list == [])
  {
    hide Step, Run, InTotal, LineStart, IsTotal, NoReturns;
    var n := Index(s, '\n');
    var line := s[..n];
    found, head, rest := false, "", "";
    var x := NoReturns(line);
    TotalFirst(keep);
    assert line != "" && line[0] == 't';
    RunOne(INITIAL, line, InTotal("t"), keep);
    TotalBytes("t", line[1..], keep);
    ReturnsSplit(line);
    SingleByte('t');
    RunAppend(INITIAL, line, s[n..], keep);
    assert s == line + s[n..];
    if n == |s| {
      EmptyRun(InTotal(x), keep);
      InTotalList(x);
    } else {
      TotalEnd(x, keep);
      var q := Step(InTotal(x), '\n', keep);
      RunOne(InTotal(x), s[n..], q, keep);
      if IsTotal(x) {
        found, head, rest := true, s[..n + 1], s[n + 1..];
        assert head == line + "\n" && head[..|head| - 1] == line;
        RunAppend(INITIAL, line, "\n", keep);
        RunLast(InTotal(x), '\n', keep);
      } else {
        ErrorIsFinal(q, s[n..][1..], keep);
      }
    }
  }

  lemma InTotalList(x: string)
    ensures InTotal(x).list == []
  {
  }

  /**
   * A whole transfer in any chunks, of which only the first byte is known not to be a digit: behind a first
   * line that may give the size of the directory, the list is exactly that of the lines of the printed form
   * with which the response goes on, as far as the filter accepts them.
   */
  lemma ListIsLines(chunks: seq<string>, keep: Filter) returns (head: string, items: seq<Item>, rest: string)
    requires var s := Flatten(chunks); s != "" ==> !IsDigit(s[0])
    ensures (head == "" || IsTotalLine(head)) && Flatten(chunks) == head + Listing(items) + rest
    ensures forall e :: e in items ==> WellFormed(e)
    ensures AllDescribe(RunChunks(INITIAL, chunks, keep).list, Kept(items, keep))
  {
    hide Step, Run, RunChunks, Listing, Kept, IsTotalLine, WellFormed, Describes, LineStart, Flatten;
    ChunkIndependence(INITIAL, chunks, keep);
    var s := Flatten(chunks);
    InitialStarts();
    head, items, rest := "", [], s;
    if s != "" && s[0] == 't' {
      var found, line, r := ReadTotal(s, keep);
      if found {
        head := line;
        RunAppend(INITIAL, head, r, keep);
        items, rest := EntriesAreLines(Run(INITIAL, head, keep), r, keep);
        assert head + (Listing(items) + rest) == head + Listing(items) + rest;
      } else {
        NoItems(s);
        NothingAdded([], keep);
        assert [][0..] == Run(INITIAL, s, keep).list;
      }
    } else {
      items, rest := EntriesAreLines(INITIAL, s, keep);
      assert "" + Listing(items) + rest == Listing(items) + rest;
    }
  }

  lemma InitialStarts()
    ensures LineStart(INITIAL)
  {
  }

  lemma NoItems(s: string)
    ensures Listing([]) + s == s && "" + Listing([]) + s == s
  {
  }
}
