/** Printing a Unix directory listing and parsing it back gives the same entries in order. */
module FtpListRoundTrip {
  import opened CText
  import opened Wrappers
  import opened FtpList

  /** Read, write and execute rights of one class of users, with the class's special bit. */
  datatype Rights = Rights(r: bool, w: bool, x: bool, special: bool) {
    function Bits(unit: nat, specialBit: nat): nat {
      (if r then 4 * unit else 0) + (if w then 2 * unit else 0) + (if x then unit else 0) +
      (if special then specialBit else 0)
    }

    function Print(both: char, only: char): (s: string)
      ensures |s| == 3
    {
      [if r then 'r' else '-', if w then 'w' else '-',
       if x && special then both else if special then only else if x then 'x' else '-']
    }
  }

  datatype Mode = Mode(user: Rights, group: Rights, other: Rights) {
    function Bits(): nat { user.Bits(64, 2048) + group.Bits(8, 1024) + other.Bits(1, 512) }

    function Print(): (s: string)
      ensures |s| == 9
    {
      user.Print('s', 'S') + group.Print('s', 'S') + other.Print('t', 'T')
    }
  }

  lemma TriadRoundTrip(t: Rights, both: char, only: char, unit: nat, special: nat)
    requires both != 'x' && only != 'x' && both != only && both != '-' && only != '-'
    ensures var s := t.Print(both, only);
      Triad(s[0], s[1], s[2], both, only, unit, special) == t.Bits(unit, special)
  {
  }

  /** The permission text of every mode is read back to exactly the mode's bits. */
  lemma PermissionRoundTrip(m: Mode)
    ensures GetPermission(m.Print()) == m.Bits() < MALFORMED_PERM
  {
    TriadRoundTrip(m.user, 's', 'S', 64, 2048);
    TriadRoundTrip(m.group, 's', 'S', 8, 1024);
    TriadRoundTrip(m.other, 't', 'T', 1, 512);
    var s := m.Print();
    assert s[..3] == m.user.Print('s', 'S') && s[3..6] == m.group.Print('s', 'S') && s[6..] == m.other.Print('t', 'T');
    assert s[3] == s[3..6][0] && s[4] == s[3..6][1] && s[5] == s[3..6][2];
    assert s[6] == s[6..][0] && s[7] == s[6..][1] && s[8] == s[6..][2];
  }

  function TypeLetter(t: FileType): char {
    match t
    case File => '-'
    case Directory => 'd'
    case Symlink => 'l'
    case NamedPipe => 'p'
    case Socket => 's'
    case DeviceChar => 'c'
    case DeviceBlock => 'b'
    case Door => 'D'
  }

  /** One line of a listing. pads are the blanks in front of a column beyond the one separating space, and
      the zeros in front of a number; crlf is the line end in use. */
  datatype Item = Item(fileType: FileType, mode: Mode, hlinks: nat, user: string, group: string, size: nat,
                       date1: string, date2: string, date3: string, name: string, target: string,
                       pads: Pads, crlf: bool)

  datatype Pads = Pads(hlinks: nat, user: nat, group: nat, size: nat, date1: nat, date2: nat, date3: nat, name: nat,
                       linkZeros: nat, sizeZeros: nat)

  predicate IsWord(s: string) { s != "" && ' ' !in s }

  function Zeros(n: nat): (s: string)
    ensures |s| == n && forall i :: 0 <= i < n ==> s[i] == '0'
  {
    seq(n, _ => '0')
  }

  /** A decimal number behind some zeros. */
  function Number(zeros: nat, n: nat): (s: string)
    ensures s != "" && forall i :: 0 <= i < |s| ==> IsDigit(s[i])
  {
    Zeros(zeros) + Decimal(n)
  }

  /** The largest value stands for an unknown one. */
  function Known(n: nat): Option<nat> { if n < LONG_MAX then Some(n) else None }

  /** What a C string shows of s: everything before the first NUL. */
  function Text(s: string): string { CStr(s, 0) }

  predicate IsDatePart(s: string, colon: bool) {
    && s != "" && IsAlnum(s[0])
    && forall i :: 0 <= i < |s| ==> IsAlnum(s[i]) || s[i] == '.' || (colon && s[i] == ':')
  }

  /** The states in which a link's name is read, forward on the wanted byte of " -> ". A byte that
      breaks the arrow off is not looked at again: it always leads back to the name. */
  function NextArrow(u: UnixState, c: char): UnixState {
    if u == LinkName && c == ' ' then LinkPre1
    else if u == LinkPre1 && c == '-' then LinkPre2
    else if u == LinkPre2 && c == '>' then LinkPre3
    else if u == LinkPre3 && c == ' ' then LinkPre4
    else LinkName
  }

  /** The state after s; LinkPre4, once the arrow is complete, is kept. */
  function ArrowOver(u: UnixState, s: string): UnixState
    decreases |s|
  {
    if u == LinkPre4 || s == "" then u else ArrowOver(NextArrow(u, s[0]), s[1..])
  }

  /** A link's name behind which the arrow is found: no arrow is completed inside it, and at its end
      none has been begun. */
  predicate Readable(name: string) { name != "" && ArrowOver(LinkName, name[1..]) == LinkName }

  predicate NoLineEnd(s: string) { forall i :: 0 <= i < |s| ==> s[i] != '\r' && s[i] != '\n' }

  /** A name: it does not begin with a blank, and holds no line end behind its first byte. */
  predicate IsEntryName(s: string) { s != "" && s[0] != ' ' && NoLineEnd(s[1..]) }

  /** The lines the automaton has states for. */
  predicate Printable(e: Item) {
    && e.size <= LONG_MAX
    && IsWord(e.user) && IsWord(e.group)
    && IsDatePart(e.date1, false) && IsDatePart(e.date2, false) && IsDatePart(e.date3, true)
    && IsEntryName(e.name)
    && (e.fileType == Symlink ==> e.target != "" && NoLineEnd(e.target))
  }

  predicate WellFormed(e: Item) { Printable(e) && (e.fileType == Symlink ==> Readable(e.name)) }

  function Date(e: Item): string {
    e.date1 + (" " + Spaces(e.pads.date2) + e.date2) + (" " + Spaces(e.pads.date3) + e.date3)
  }

  function Eol(e: Item): string { if e.crlf then "\r\n" else "\n" }

  function Head(e: Item): string { [TypeLetter(e.fileType)] + e.mode.Print() + " " }

  function Tail(e: Item): string {
    if e.fileType == Symlink then Spaces(e.pads.name) + e.name + " -> " + e.target + Eol(e)
    else Spaces(e.pads.name) + e.name + Eol(e)
  }

  function Field(pad: nat, s: string): string { Spaces(pad) + s + " " }

  function Links(e: Item): string { Number(e.pads.linkZeros, e.hlinks) }

  function Size(e: Item): string { Number(e.pads.sizeZeros, e.size) }

  /** Link count, user, group, size and date, each with its blanks. */
  function Middle(e: Item): string {
    Field(e.pads.hlinks, Links(e)) + (Field(e.pads.user, e.user) +
    (Field(e.pads.group, e.group) + (Field(e.pads.size, Size(e)) +
    Field(e.pads.date1, Date(e)))))
  }

  function Line(e: Item): string { Head(e) + (Middle(e) + Tail(e)) }

  function Listing(items: seq<Item>): string {
    if items == [] then "" else Line(items[0]) + Listing(items[1..])
  }

  /** The parsed entry describes the item. Nothing is said about the target pointer of an
      entry that is not a link: the parser leaves a stale offset there. */
  predicate Describes(d: Entry, e: Item) {
    && d.info.fileType == e.fileType
    && d.info.perm == Some(e.mode.Bits())
    && d.info.hardlinks == Known(e.hlinks)
    && d.info.size == Known(e.size)
    && d.PermString() == Some(e.mode.Print())
    && d.User() == Some(Text(e.user))
    && d.Group() == Some(Text(e.group))
    && d.Time() == Date(e)
    && d.Filename() == Text(e.name)
    && (e.fileType == Symlink ==> d.Target() == Some(Text(e.target)))
  }

  // ---- runs inside one state ------------------------------------------------------------

  /** Reading c in state u stores it and changes nothing else but the item length. */
  predicate Stays(u: UnixState, c: char) {
    match u
    case HlinksPre | UserPre | GroupPre | SizePre | TimePre1 | TimePre2 | TimePre3 | NamePre | LinkPre => c == ' '
    case HlinksNumber | SizeNumber => IsDigit(c)
    case UserParsing | GroupName => c != ' '
    case TimePart1 | TimePart2 => IsAlnum(c) || c == '.'
    case TimePart3 => IsAlnum(c) || c == '.' || c == ':'
    case NameName | LinkTarget => c != '\r' && c != '\n'
    case LinkName => c != ' ' && c != '\r' && c != '\n'
    case TotalReading => c != '\r' && c != '\n'
    case Permission | TotalInit | TypeChar | NameWinEol => false
    case LinkPre1 | LinkPre2 | LinkPre3 | LinkPre4 | LinkWinEol => false
  }

  predicate AllStay(u: UnixState, s: string) {
    forall i :: 0 <= i < |s| ==> Stays(u, s[i])
  }

  predicate Counts(u: UnixState) { u == TotalReading || InToken(u) }

  predicate Reading(p: Parser) { p.os == OsUnix && !p.error && p.file.Some? }

  /** The parser after storing s without leaving its state. */
  function Stored(p: Parser, s: string): (q: Parser)
    requires p.file.Some?
    ensures q.file.Some?
  {
    WithBuf(p, p.file.value.buf + s).(itemLength := p.itemLength + if Counts(p.unix) then |s| else 0)
  }

  lemma StayStep(p: Parser, c: char, keep: Filter)
    requires Reading(p) && Stays(p.unix, c)
    ensures Step(p, c, keep) == Stored(p, [c])
  {
  }

  lemma RunOne(p: Parser, s: string, q: Parser, keep: Filter)
    requires s != "" && Step(p, s[0], keep) == q
    ensures Run(p, s, keep) == Run(q, s[1..], keep)
  {
    hide Step;
  }

  lemma RunLast(p: Parser, c: char, keep: Filter)
    ensures Run(p, [c], keep) == Step(p, c, keep)
  {
    hide Step;
    assert [c][1..] == "";
  }

  lemma StoredTwice(p: Parser, s: string, t: string)
    requires p.file.Some?
    ensures Stored(Stored(p, s), t) == Stored(p, s + t)
  {
    assert p.file.value.buf + s + t == p.file.value.buf + (s + t);
  }

  lemma {:induction false} RunStay(p: Parser, s: string, keep: Filter)
    requires Reading(p) && AllStay(p.unix, s)
    ensures Run(p, s, keep) == Stored(p, s)
    decreases |s|
  {
    hide Step;
    if s == "" {
      assert p.file.value.buf + s == p.file.value.buf;
    } else {
      var q := Stored(p, [s[0]]);
      StayStep(p, s[0], keep);
      RunOne(p, s, q, keep);
      RunStay(q, s[1..], keep);
      StoredTwice(p, [s[0]], s[1..]);
      assert [s[0]] + s[1..] == s;
    }
  }

  // ---- one column ------------------------------------------------------------------------

  /** The state that reads the token of the column whose leading blanks are read in u. */
  function TokenState(u: UnixState): UnixState {
    match u
    case HlinksPre => HlinksNumber
    case UserPre => UserParsing
    case GroupPre => GroupName
    case SizePre => SizeNumber
    case TimePre1 => TimePart1
    case NamePre => NameName
    case LinkPre => LinkName
    case LinkPre4 => LinkTarget
    case _ => u
  }

  predicate Starts(u: UnixState, c: char) {
    match u
    case HlinksPre | SizePre => IsDigit(c)
    case UserPre | GroupPre | NamePre | LinkPre => c != ' '
    case TimePre1 => IsAlnum(c)
    case LinkPre4 => c != '\r' && c != '\n'
    case _ => false
  }

  /** The parser after pad blanks and the token tok, of which nothing follows yet. */
  function Inside(p: Parser, pad: nat, tok: string): (q: Parser)
    requires p.file.Some?
    ensures q.file.Some?
  {
    WithBuf(p, p.file.value.buf + Spaces(pad) + tok)
    .(unix := TokenState(p.unix), itemLength := |tok|, itemOffset := |p.file.value.buf| + pad)
  }

  lemma StartStep(p: Parser, c: char, keep: Filter)
    requires Reading(p) && Starts(p.unix, c)
    ensures Step(p, c, keep) == StartToken(Append(p, c), TokenState(p.unix))
  {
  }

  lemma RunStart(p: Parser, pad: nat, c: char, keep: Filter)
    requires Reading(p) && Starts(p.unix, c) && (pad == 0 || Stays(p.unix, ' '))
    ensures Run(p, Spaces(pad) + [c], keep) == Inside(p, pad, [c])
  {
    hide Step;
    RunStay(p, Spaces(pad), keep);
    RunAppend(p, Spaces(pad), [c], keep);
    var q := Stored(p, Spaces(pad));
    StartStep(q, c, keep);
    RunLast(q, c, keep);
  }

  lemma RunToken(p: Parser, pad: nat, tok: string, keep: Filter)
    requires Reading(p) && (pad == 0 || Stays(p.unix, ' '))
    requires tok != "" && Starts(p.unix, tok[0]) && AllStay(TokenState(p.unix), tok[1..])
    ensures Run(p, Spaces(pad) + tok, keep) == Inside(p, pad, tok)
  {
    hide Step, Run;
    assert Spaces(pad) + tok == (Spaces(pad) + [tok[0]]) + tok[1..];
    RunAppend(p, Spaces(pad) + [tok[0]], tok[1..], keep);
    RunStart(p, pad, tok[0], keep);
    RunStay(Inside(p, pad, [tok[0]]), tok[1..], keep);
    var b := p.file.value.buf;
    assert b + Spaces(pad) + [tok[0]] + tok[1..] == b + Spaces(pad) + tok;
  }

  /** The parser when the byte that ends the token has become its terminator. */
  function Closed(p: Parser, pad: nat, tok: string): (q: Parser)
    requires p.file.Some?
    ensures q.file.Some?
  {
    WithBuf(Inside(p, pad, tok), p.file.value.buf + Spaces(pad) + tok + [NUL]).(itemLength := |tok| + 1)
  }

  lemma Close(p: Parser, pad: nat, tok: string, c: char)
    requires p.file.Some?
    ensures EndToken(Grow(Append(Inside(p, pad, tok), c))) == Closed(p, pad, tok)
  {
    var b := p.file.value.buf + Spaces(pad) + tok;
    assert SetNul(b + [c], |b|) == b + [NUL];
  }

  lemma ClosedToken(p: Parser, pad: nat, tok: string)
    requires p.file.Some?
    ensures Token(Closed(p, pad, tok)) == Text(tok)
    ensures Holds(Closed(p, pad, tok).file.value.buf, |p.file.value.buf| + pad, Text(tok))
    ensures p.file.value.buf <= Closed(p, pad, tok).file.value.buf
  {
    var b := Closed(p, pad, tok).file.value.buf;
    var k := |p.file.value.buf| + pad;
    assert b[k..k + |tok|] == tok;
    TextHolds(b, k, tok);
    HoldsIsCStr(b, k, Text(tok));
  }

  lemma TextHolds(b: string, k: nat, tok: string)
    requires k + |tok| < |b| && b[k..k + |tok|] == tok && b[k + |tok|] == NUL
    ensures Holds(b, k, Text(tok))
  {
    hide CStr;
    CStrPrefix(tok, 0);
    var n := |Text(tok)|;
    assert b[k..k + n] == b[k..k + |tok|][..n];
    assert n < |tok| ==> b[k + n] == b[k..k + |tok|][n];
  }

  lemma NoNulText(s: string)
    requires NUL !in s
    ensures Text(s) == s
  {
    hide CStr;
    CStrPrefix(s, 0);
  }

  lemma ColumnEnd(p: Parser, pad: nat, tok: string, keep: Filter)
    requires Reading(p) && (pad == 0 || Stays(p.unix, ' '))
    requires tok != "" && Starts(p.unix, tok[0]) && AllStay(TokenState(p.unix), tok[1..])
    ensures Run(p, Field(pad, tok), keep) == Step(Inside(p, pad, tok), ' ', keep)
  {
    hide Step, Run;
    RunToken(p, pad, tok, keep);
    RunAppend(p, Spaces(pad) + tok, " ", keep);
    RunLast(Inside(p, pad, tok), ' ', keep);
  }

  // What the separating space does at the end of each kind of column.

  lemma HlinksClose(p: Parser, keep: Filter)
    requires Reading(p) && p.unix == HlinksNumber
    ensures Step(p, ' ', keep) == EndHlinks(EndToken(Grow(Append(p, ' '))))
  {
    hide EndHlinks;
  }

  lemma UserClose(p: Parser, keep: Filter)
    requires Reading(p) && p.unix == UserParsing
    ensures Step(p, ' ', keep) == EndUser(EndToken(Grow(Append(p, ' '))))
  {
  }

  lemma GroupClose(p: Parser, keep: Filter)
    requires Reading(p) && p.unix == GroupName
    ensures Step(p, ' ', keep) == EndGroup(EndToken(Grow(Append(p, ' '))))
  {
  }

  lemma SizeClose(p: Parser, keep: Filter)
    requires Reading(p) && p.unix == SizeNumber
    ensures Step(p, ' ', keep) == EndSize(EndToken(Grow(Append(p, ' '))))
  {
    hide EndSize;
  }

  lemma TimeClose(p: Parser, keep: Filter)
    requires Reading(p) && p.unix == TimePart3
    ensures Step(p, ' ', keep) == EndTime(EndToken(Grow(Append(p, ' '))))
  {
  }

  lemma HlinksColumn(p: Parser, pad: nat, tok: string, keep: Filter)
    requires Reading(p) && p.unix == HlinksPre && tok != "" && forall i :: 0 <= i < |tok| ==> IsDigit(tok[i])
    ensures Run(p, Field(pad, tok), keep) == EndHlinks(Closed(p, pad, tok))
  {
    hide Step, Run, EndHlinks, Field, Closed;
    ColumnEnd(p, pad, tok, keep);
    Close(p, pad, tok, ' ');
    HlinksClose(Inside(p, pad, tok), keep);
  }

  lemma SizeColumn(p: Parser, pad: nat, tok: string, keep: Filter)
    requires Reading(p) && p.unix == SizePre && tok != "" && forall i :: 0 <= i < |tok| ==> IsDigit(tok[i])
    ensures Run(p, Field(pad, tok), keep) == EndSize(Closed(p, pad, tok))
  {
    hide Step, Run, EndSize, Field, Closed;
    ColumnEnd(p, pad, tok, keep);
    Close(p, pad, tok, ' ');
    SizeClose(Inside(p, pad, tok), keep);
  }

  lemma {:induction false} ZerosValue(zeros: nat, s: string)
    ensures DecValue(Zeros(zeros) + s) == DecValue(s)
    decreases |s|, zeros
  {
    var t := Zeros(zeros) + s;
    if s == "" {
      if zeros > 0 {
        assert t[..|t| - 1] == Zeros(zeros - 1) + s;
        ZerosValue(zeros - 1, s);
      }
    } else {
      assert t[..|t| - 1] == Zeros(zeros) + s[..|s| - 1];
      ZerosValue(zeros, s[..|s| - 1]);
    }
  }

  lemma NumberText(zeros: nat, n: nat)
    ensures var s := Number(zeros, n);
      DecValue(s) == n && DigitRun(s) == |s| && s[..|s|] == s && s[|s|..] == "" && Text(s) == s
  {
    hide CStr, DecValue;
    var s := Number(zeros, n);
    DigitRunAll(s);
    DecimalRoundTrip(n);
    ZerosValue(zeros, Decimal(n));
    NoNulText(s);
  }

  lemma LinkCountText(zeros: nat, n: nat)
    ensures var s := Number(zeros, n); LinkCount(s) == Known(n) && Text(s) == s
  {
    hide Number, Text;
    NumberText(zeros, n);
  }

  lemma SizeText(zeros: nat, n: nat)
    requires n <= LONG_MAX
    ensures var s := Number(zeros, n); StrToOff(s) == OffOk(n, "") && Text(s) == s
  {
    hide Number, Text;
    var s := Number(zeros, n);
    NumberText(zeros, n);
    assert SkipSpaces(s) == s;
  }

  lemma UserColumn(p: Parser, pad: nat, w: string, keep: Filter)
    requires Reading(p) && p.unix == UserPre && IsWord(w)
    ensures Run(p, Field(pad, w), keep) == EndUser(Closed(p, pad, w))
  {
    hide Step, Run;
    ColumnEnd(p, pad, w, keep);
    Close(p, pad, w, ' ');
    UserClose(Inside(p, pad, w), keep);
  }

  lemma GroupColumn(p: Parser, pad: nat, w: string, keep: Filter)
    requires Reading(p) && p.unix == GroupPre && IsWord(w)
    ensures Run(p, Field(pad, w), keep) == EndGroup(Closed(p, pad, w))
  {
    hide Step, Run;
    ColumnEnd(p, pad, w, keep);
    Close(p, pad, w, ' ');
    GroupClose(Inside(p, pad, w), keep);
  }

  /** A later part of the date: the item goes on through the blanks between the parts. */
  function Further(p: Parser, s: string): (q: Parser)
    requires p.file.Some?
    ensures q.file.Some?
  {
    Stored(p, s).(unix := if p.unix == TimePart1 then TimePart2 else TimePart3)
  }

  lemma DateBreak(p: Parser, keep: Filter)
    requires Reading(p) && (p.unix == TimePart1 || p.unix == TimePart2)
    ensures Step(p, ' ', keep) == Stored(p, " ").(unix := if p.unix == TimePart1 then TimePre2 else TimePre3)
  {
  }

  lemma TimeCounts(u: UnixState)
    requires u == TimePart1 || u == TimePre2 || u == TimePart2 || u == TimePre3 || u == TimePart3
    ensures Counts(u)
  {
  }

  lemma GapText(p: Parser, q: Parser, s: string)
    requires p.file.Some? && (p.unix == TimePart1 || p.unix == TimePart2)
    requires q == Stored(p, " ").(unix := if p.unix == TimePart1 then TimePre2 else TimePre3)
    ensures Stored(q, s) == Stored(p, " " + s).(unix := q.unix)
  {
    hide Counts;
    TimeCounts(p.unix);
    TimeCounts(q.unix);
    assert p.file.value.buf + " " + s == p.file.value.buf + (" " + s);
  }

  lemma DateGap(p: Parser, pad: nat, keep: Filter)
    requires Reading(p) && (p.unix == TimePart1 || p.unix == TimePart2)
    ensures Run(p, " " + Spaces(pad), keep)
         == Stored(p, " " + Spaces(pad)).(unix := if p.unix == TimePart1 then TimePre2 else TimePre3)
  {
    hide Step, Run, Counts;
    var q := Stored(p, " ").(unix := if p.unix == TimePart1 then TimePre2 else TimePre3);
    DateBreak(p, keep);
    RunOne(p, " " + Spaces(pad), q, keep);
    assert (" " + Spaces(pad))[1..] == Spaces(pad);
    RunStay(q, Spaces(pad), keep);
    GapText(p, q, Spaces(pad));
  }

  lemma DateStart(p: Parser, c: char, keep: Filter)
    requires Reading(p) && (p.unix == TimePre2 || p.unix == TimePre3) && IsAlnum(c)
    ensures Step(p, c, keep) == Stored(p, [c]).(unix := if p.unix == TimePre2 then TimePart2 else TimePart3)
  {
  }

  lemma DateWord(p: Parser, q: Parser, tok: string)
    requires p.file.Some? && (p.unix == TimePre2 || p.unix == TimePre3) && tok != ""
    requires q == Stored(p, [tok[0]]).(unix := if p.unix == TimePre2 then TimePart2 else TimePart3)
    ensures Stored(q, tok[1..]) == Stored(p, tok).(unix := q.unix)
  {
    assert p.file.value.buf + [tok[0]] + tok[1..] == p.file.value.buf + tok;
  }

  lemma DateText(p: Parser, tok: string, keep: Filter)
    requires Reading(p) && (p.unix == TimePre2 || p.unix == TimePre3) && IsDatePart(tok, p.unix == TimePre3)
    ensures Run(p, tok, keep) == Stored(p, tok).(unix := if p.unix == TimePre2 then TimePart2 else TimePart3)
  {
    hide Step, Run, Counts;
    var r := Stored(p, [tok[0]]).(unix := if p.unix == TimePre2 then TimePart2 else TimePart3);
    DateStart(p, tok[0], keep);
    RunOne(p, tok, r, keep);
    RunStay(r, tok[1..], keep);
    DateWord(p, r, tok);
  }

  lemma FurtherText(p: Parser, q: Parser, gap: string, tok: string)
    requires p.file.Some? && (p.unix == TimePart1 || p.unix == TimePart2)
    requires q == Stored(p, gap).(unix := if p.unix == TimePart1 then TimePre2 else TimePre3)
    ensures Stored(q, tok).(unix := if q.unix == TimePre2 then TimePart2 else TimePart3) == Further(p, gap + tok)
  {
    hide Counts;
    TimeCounts(p.unix);
    TimeCounts(q.unix);
    assert p.file.value.buf + gap + tok == p.file.value.buf + (gap + tok);
  }

  lemma DatePart(p: Parser, pad: nat, tok: string, keep: Filter)
    requires Reading(p) && (p.unix == TimePart1 || p.unix == TimePart2)
    requires IsDatePart(tok, p.unix == TimePart2)
    ensures Run(p, (" " + Spaces(pad)) + tok, keep) == Further(p, (" " + Spaces(pad)) + tok)
  {
    hide Step, Run, Spaces, IsDatePart, Further, Counts;
    var gap := " " + Spaces(pad);
    var q := Stored(p, gap).(unix := if p.unix == TimePart1 then TimePre2 else TimePre3);
    DateGap(p, pad, keep);
    RunAppend(p, gap, tok, keep);
    DateText(q, tok, keep);
    FurtherText(p, q, gap, tok);
  }

  lemma FurtherInside(p: Parser, pad: nat, a: string, u: UnixState, s: string)
    requires p.file.Some? && p.unix == TimePre1 && (u == TimePart1 || u == TimePart2)
    ensures Further(Inside(p, pad, a).(unix := u), s)
         == Inside(p, pad, a + s).(unix := if u == TimePart1 then TimePart2 else TimePart3)
  {
    var b := p.file.value.buf + Spaces(pad);
    assert b + a + s == b + (a + s);
  }

  lemma DateRun(p: Parser, e: Item, keep: Filter)
    requires Reading(p) && p.unix == TimePre1 && Printable(e)
    ensures Run(p, Spaces(e.pads.date1) + Date(e), keep) == Inside(p, e.pads.date1, Date(e)).(unix := TimePart3)
  {
    hide Step, Run, Spaces, Further, Inside;
    var pad := e.pads.date1;
    var s2 := " " + Spaces(e.pads.date2) + e.date2;
    var s3 := " " + Spaces(e.pads.date3) + e.date3;
    assert Spaces(pad) + Date(e) == Spaces(pad) + e.date1 + s2 + s3;
    RunAppend(p, Spaces(pad) + e.date1 + s2, s3, keep);
    RunAppend(p, Spaces(pad) + e.date1, s2, keep);
    RunToken(p, pad, e.date1, keep);
    InsideReads(p, pad, e.date1);
    DatePart(Inside(p, pad, e.date1), e.pads.date2, e.date2, keep);
    FurtherInside(p, pad, e.date1, TimePart1, s2);
    InsideReads(p, pad, e.date1 + s2);
    DatePart(Inside(p, pad, e.date1 + s2).(unix := TimePart2), e.pads.date3, e.date3, keep);
    FurtherInside(p, pad, e.date1 + s2, TimePart2, s3);
  }

  lemma InsideReads(p: Parser, pad: nat, tok: string)
    requires Reading(p)
    ensures Reading(Inside(p, pad, tok)) && Inside(p, pad, tok).unix == TokenState(p.unix)
    ensures p.unix == TimePre1 ==> Inside(p, pad, tok).(unix := TimePart1) == Inside(p, pad, tok)
  {
  }

  lemma CloseIn(p: Parser, pad: nat, tok: string, u: UnixState, c: char)
    requires p.file.Some?
    ensures EndToken(Grow(Append(Inside(p, pad, tok).(unix := u), c))) == Closed(p, pad, tok).(unix := u)
  {
    Close(p, pad, tok, c);
  }

  lemma DateColumn(p: Parser, e: Item, keep: Filter)
    requires Reading(p) && p.unix == TimePre1 && Printable(e)
    ensures Run(p, Field(e.pads.date1, Date(e)), keep) == EndTime(Closed(p, e.pads.date1, Date(e)))
  {
    hide Step, Run, Spaces, Date, EndToken, Append, Grow, Closed;
    var q := Inside(p, e.pads.date1, Date(e)).(unix := TimePart3);
    DateRun(p, e, keep);
    RunAppend(p, Spaces(e.pads.date1) + Date(e), " ", keep);
    RunLast(q, ' ', keep);
    TimeClose(q, keep);
    CloseIn(p, e.pads.date1, Date(e), TimePart3, ' ');
  }

  // ---- what is known about the line so far -------------------------------------------------

  lemma HoldsExtend(b: string, longer: string, k: nat, tok: string)
    requires Holds(b, k, tok) && b <= longer
    ensures Holds(longer, k, tok)
  {
    assert longer[k..k + |tok|] == b[k..k + |tok|];
  }

  /** The first n of the columns link count, user, group, size and date have been read. */
  predicate Scalars(i: Info, e: Item, n: nat) {
    && i.fileType == e.fileType
    && i.perm == Some(e.mode.Bits())
    && i.hardlinks == (if n >= 1 then Known(e.hlinks) else None)
    && i.size == (if n >= 4 then Known(e.size) else None)
  }

  ghost predicate Strings(b: string, at: Offsets, e: Item, n: nat) {
    && b != ""
    && at.perm == 1 && Holds(b, 1, e.mode.Print())
    && (n >= 2 ==> at.user > 0 && Holds(b, at.user, Text(e.user)))
    && (n >= 3 ==> at.group > 0 && Holds(b, at.group, Text(e.group)))
    && (n >= 5 ==> Holds(b, at.time, Date(e)))
  }

  ghost predicate Progress(p: Parser, e: Item, list: seq<Entry>, n: nat) {
    Reading(p) && p.list == list && Scalars(p.file.value, e, n) && Strings(p.file.value.buf, p.offsets, e, n)
  }

  lemma StringsExtend(b: string, longer: string, at: Offsets, e: Item, n: nat)
    requires Strings(b, at, e, n) && b <= longer
    ensures Strings(longer, at, e, n)
  {
    hide Holds, Date;
    HoldsExtend(b, longer, 1, e.mode.Print());
    if n >= 2 { HoldsExtend(b, longer, at.user, Text(e.user)); }
    if n >= 3 { HoldsExtend(b, longer, at.group, Text(e.group)); }
    if n >= 5 { HoldsExtend(b, longer, at.time, Date(e)); }
  }

  // ---- each column adds its fact -----------------------------------------------------------

  lemma ClosedFacts(p: Parser, e: Item, list: seq<Entry>, n: nat, pad: nat, tok: string)
    requires Progress(p, e, list, n)
    ensures Progress(Closed(p, pad, tok), e, list, n)
    ensures Token(Closed(p, pad, tok)) == Text(tok)
    ensures Closed(p, pad, tok).itemOffset > 0
    ensures Holds(Closed(p, pad, tok).file.value.buf, Closed(p, pad, tok).itemOffset, Text(tok))
  {
    hide Strings, Holds, Spaces;
    ClosedToken(p, pad, tok);
    StringsNonEmpty(p.file.value.buf, p.offsets, e, n);
    StringsExtend(p.file.value.buf, Closed(p, pad, tok).file.value.buf, p.offsets, e, n);
  }

  lemma StringsNonEmpty(b: string, at: Offsets, e: Item, n: nat)
    requires Strings(b, at, e, n)
    ensures |b| > 0
  {
  }

  lemma HlinksFact(p: Parser, e: Item, list: seq<Entry>)
    requires Progress(p, e, list, 0) && Token(p) == Links(e)
    ensures Progress(EndHlinks(p), e, list, 1) && EndHlinks(p).unix == UserPre
  {
    hide Holds, Token, LinkCount, Number, Text, CStr;
    LinkCountText(e.pads.linkZeros, e.hlinks);
  }

  lemma SizeFact(p: Parser, e: Item, list: seq<Entry>)
    requires Progress(p, e, list, 3) && Token(p) == Size(e) && e.size <= LONG_MAX
    ensures Progress(EndSize(p), e, list, 4) && EndSize(p).unix == TimePre1
  {
    hide Holds, Token, StrToOff, Number, Text, CStr;
    SizeText(e.pads.sizeZeros, e.size);
  }

  lemma UserFact(p: Parser, e: Item, list: seq<Entry>)
    requires Progress(p, e, list, 1) && p.itemOffset > 0 && Holds(p.file.value.buf, p.itemOffset, Text(e.user))
    ensures Progress(EndUser(p), e, list, 2) && EndUser(p).unix == GroupPre
  {
    hide Holds;
  }

  lemma GroupFact(p: Parser, e: Item, list: seq<Entry>)
    requires Progress(p, e, list, 2) && p.itemOffset > 0 && Holds(p.file.value.buf, p.itemOffset, Text(e.group))
    ensures Progress(EndGroup(p), e, list, 3) && EndGroup(p).unix == SizePre
  {
    hide Holds;
  }

  lemma TimeFact(p: Parser, e: Item, list: seq<Entry>)
    requires Progress(p, e, list, 4) && Holds(p.file.value.buf, p.itemOffset, Date(e))
    ensures Progress(EndTime(p), e, list, 5)
    ensures EndTime(p).unix == if e.fileType == Symlink then LinkPre else NamePre
  {
    hide Holds, Date;
  }

  lemma DateHasNoNul(e: Item)
    requires Printable(e)
    ensures Text(Date(e)) == Date(e)
  {
    hide Text;
    NoNulText(Date(e));
  }

  /** From the link count to the date: the five middle columns in a row. */
  lemma Columns(p: Parser, e: Item, list: seq<Entry>, keep: Filter) returns (q: Parser)
    requires Progress(p, e, list, 0) && p.unix == HlinksPre && Printable(e)
    ensures Progress(q, e, list, 5) && q.unix == if e.fileType == Symlink then LinkPre else NamePre
    ensures Run(p, Middle(e), keep) == q
  {
    hide Step, Run, Strings, Scalars, Holds, Closed, Number, Text, Field, Date, Token, LinkCount,
         EndHlinks, EndUser, EndGroup, EndSize, EndTime, Spaces;
    var c1 := Closed(p, e.pads.hlinks, Links(e));
    HlinksColumn(p, e.pads.hlinks, Links(e), keep);
    LinkCountText(e.pads.linkZeros, e.hlinks);
    ClosedFacts(p, e, list, 0, e.pads.hlinks, Links(e));
    HlinksFact(c1, e, list);
    var p1 := EndHlinks(c1);

    var c2 := Closed(p1, e.pads.user, e.user);
    UserColumn(p1, e.pads.user, e.user, keep);
    ClosedFacts(p1, e, list, 1, e.pads.user, e.user);
    UserFact(c2, e, list);
    var p2 := EndUser(c2);

    var c3 := Closed(p2, e.pads.group, e.group);
    GroupColumn(p2, e.pads.group, e.group, keep);
    ClosedFacts(p2, e, list, 2, e.pads.group, e.group);
    GroupFact(c3, e, list);
    var p3 := EndGroup(c3);

    var c4 := Closed(p3, e.pads.size, Size(e));
    SizeColumn(p3, e.pads.size, Size(e), keep);
    SizeText(e.pads.sizeZeros, e.size);
    ClosedFacts(p3, e, list, 3, e.pads.size, Size(e));
    SizeFact(c4, e, list);
    var p4 := EndSize(c4);

    var c5 := Closed(p4, e.pads.date1, Date(e));
    DateColumn(p4, e, keep);
    DateHasNoNul(e);
    ClosedFacts(p4, e, list, 4, e.pads.date1, Date(e));
    TimeFact(c5, e, list);
    q := EndTime(c5);
    RunFive(p, e, p1, p2, p3, p4, q, keep);
  }

  lemma RunFive(p: Parser, e: Item, p1: Parser, p2: Parser, p3: Parser, p4: Parser, p5: Parser, keep: Filter)
    requires Run(p, Field(e.pads.hlinks, Links(e)), keep) == p1
    requires Run(p1, Field(e.pads.user, e.user), keep) == p2
    requires Run(p2, Field(e.pads.group, e.group), keep) == p3
    requires Run(p3, Field(e.pads.size, Size(e)), keep) == p4
    requires Run(p4, Field(e.pads.date1, Date(e)), keep) == p5
    ensures Run(p, Middle(e), keep) == p5
  {
    hide Step, Run, Field, Links, Size, Date;
    var f1, f2 := Field(e.pads.hlinks, Links(e)), Field(e.pads.user, e.user);
    var f3, f4 := Field(e.pads.group, e.group), Field(e.pads.size, Size(e));
    var f5 := Field(e.pads.date1, Date(e));
    RunAppend(p, f1, f2 + (f3 + (f4 + f5)), keep);
    RunAppend(p1, f2, f3 + (f4 + f5), keep);
    RunAppend(p2, f3, f4 + f5, keep);
    RunAppend(p3, f4, f5, keep);
  }

  // ---- the beginning of a line -------------------------------------------------------------

  /** A parser that expects a new line: fresh, after an entry, or after the "total" line. */
  predicate LineStart(p: Parser) {
    && !p.error && p.os != OsNT
    && (p.os == OsUnknown ==> p.file.None?)
    && (p.file.None? ==> p.unix == TotalInit || p.unix == TypeChar)
    && (p.file.Some? ==> p.unix == TypeChar && p.file.value == FRESH_INFO)
  }

  /** The parser after the type letter and s, with the permissions still open. */
  function InPermission(p: Parser, t: FileType, s: string): (q: Parser)
    ensures q.file.Some?
  {
    p.(os := OsUnix, unix := Permission, file := Some(FRESH_INFO.(buf := [TypeLetter(t)] + s, fileType := t)),
       itemLength := |s|, itemOffset := 1)
  }

  lemma TypeFirst(p: Parser, t: FileType, keep: Filter)
    requires LineStart(p)
    ensures Step(p, TypeLetter(t), keep) == InPermission(p, t, "")
  {
    hide PermStep, HlinksStep, UserStep, GroupStep, SizeStep, TimeStep, NameStep, LinkStep, NtStep;
    assert [TypeLetter(t)] + "" == "" + [TypeLetter(t)] == [TypeLetter(t)];
  }

  lemma PermLetter(p: Parser, t: FileType, s: string, c: char, keep: Filter)
    requires !p.error && |s| < 9 && IsPermChar(c)
    ensures Step(InPermission(p, t, s), c, keep) == InPermission(p, t, s + [c])
  {
    hide TotalStep, TypeStep, HlinksStep, UserStep, GroupStep, SizeStep, TimeStep, NameStep, LinkStep, NtStep, EndPerm;
    assert [TypeLetter(t)] + s + [c] == [TypeLetter(t)] + (s + [c]);
  }

  lemma {:induction false} PermLetters(p: Parser, t: FileType, s: string, r: string, keep: Filter)
    requires !p.error && |s| + |r| <= 9 && forall i :: 0 <= i < |r| ==> IsPermChar(r[i])
    ensures Run(InPermission(p, t, s), r, keep) == InPermission(p, t, s + r)
    decreases |r|
  {
    hide Step, InPermission;
    if r == "" {
      assert s + r == s;
    } else {
      PermLetter(p, t, s, r[0], keep);
      RunOne(InPermission(p, t, s), r, InPermission(p, t, s + [r[0]]), keep);
      PermLetters(p, t, s + [r[0]], r[1..], keep);
      assert s + [r[0]] + r[1..] == s + r;
    }
  }

  lemma PermClose(p: Parser, t: FileType, s: string, keep: Filter)
    requires !p.error && |s| == 9
    ensures Step(InPermission(p, t, s), ' ', keep) == EndPerm(Grow(Append(InPermission(p, t, s), ' ')))
  {
    hide TotalStep, TypeStep, HlinksStep, UserStep, GroupStep, SizeStep, TimeStep, NameStep, LinkStep, NtStep, EndPerm;
  }

  lemma ModeChars(m: Mode)
    ensures forall i :: 0 <= i < 9 ==> IsPermChar(m.Print()[i]) && m.Print()[i] != NUL
  {
    var u, g, o := m.user.Print('s', 'S'), m.group.Print('s', 'S'), m.other.Print('t', 'T');
    assert forall i :: 0 <= i < 3 ==> IsPermChar(u[i]) && u[i] != NUL;
    assert forall i :: 0 <= i < 3 ==> IsPermChar(g[i]) && g[i] != NUL;
    assert forall i :: 0 <= i < 3 ==> IsPermChar(o[i]) && o[i] != NUL;
  }

  lemma ModeFacts(p: Parser, e: Item)
    requires !p.error
    ensures var q := EndPerm(Grow(Append(InPermission(p, e.fileType, e.mode.Print()), ' ')));
      Progress(q, e, p.list, 0) && q.unix == HlinksPre
  {
    var s := e.mode.Print();
    var b := [TypeLetter(e.fileType)] + s + [NUL];
    assert SetNul([TypeLetter(e.fileType)] + s + [' '], 10) == b;
    assert b[1..] == s + [NUL];
    PermissionRoundTrip(e.mode);
    SamePermission(s, b[1..]);
    ModeChars(e.mode);
    assert b[1..1 + |s|] == s;
  }

  lemma SamePermission(s: string, t: string)
    requires |s| == 9 && s <= t
    ensures GetPermission(s) == GetPermission(t)
  {
  }

  lemma HeadColumns(p: Parser, e: Item, keep: Filter) returns (q: Parser)
    requires LineStart(p)
    ensures Run(p, Head(e), keep) == q && Progress(q, e, p.list, 0) && q.unix == HlinksPre
  {
    hide Step, Run, InPermission, Progress, EndPerm;
    var s := e.mode.Print();
    var letter := [TypeLetter(e.fileType)];
    TypeFirst(p, e.fileType, keep);
    RunLast(p, TypeLetter(e.fileType), keep);
    ModeChars(e.mode);
    PermLetters(p, e.fileType, "", s, keep);
    assert "" + s == s;
    PermClose(p, e.fileType, s, keep);
    ModeFacts(p, e);
    RunAppend(p, letter + s, " ", keep);
    RunAppend(p, letter, s, keep);
    RunLast(InPermission(p, e.fileType, s), ' ', keep);
    q := EndPerm(Grow(Append(InPermission(p, e.fileType, s), ' ')));
  }

  // ---- the end of a line -------------------------------------------------------------------

  /** An item is listed when its name passes the filter and a link is not ambiguous. */
  predicate Accepted(e: Item, keep: Filter) {
    keep(Text(e.name)) && !(e.fileType == Symlink && Contains(Text(e.target), " -> "))
  }

  /** The parser after the whole line. */
  ghost predicate LineDone(q: Parser, e: Item, list: seq<Entry>, keep: Filter) {
    && LineStart(q) && q.os == OsUnix && q.unix == TypeChar && list <= q.list
    && if Accepted(e, keep) then |q.list| == |list| + 1 && Describes(q.list[|list|], e) else q.list == list
  }

  lemma EntryDescribes(d: Entry, e: Item)
    requires Scalars(d.info, e, 5) && Strings(d.info.buf, d.at, e, 5)
    requires Holds(d.info.buf, d.at.filename, Text(e.name))
    requires e.fileType == Symlink ==> d.at.target > 0 && Holds(d.info.buf, d.at.target, Text(e.target))
    ensures Describes(d, e)
  {
    hide Holds, Date, Text, Known;
    HoldsIsCStr(d.info.buf, d.at.filename, Text(e.name));
    HoldsIsCStr(d.info.buf, d.at.user, Text(e.user));
    HoldsIsCStr(d.info.buf, d.at.group, Text(e.group));
    HoldsIsCStr(d.info.buf, d.at.time, Date(e));
    HoldsIsCStr(d.info.buf, 1, e.mode.Print());
    if e.fileType == Symlink {
      HoldsIsCStr(d.info.buf, d.at.target, Text(e.target));
    }
  }

  lemma InsertLists(p: Parser, e: Item, keep: Filter)
    requires Reading(p) && p.unix == TypeChar && Describes(Entry(p.file.value, p.offsets), e)
    ensures LineDone(Insert(p, keep), e, p.list, keep)
  {
    hide Contains, CStr, Text;
  }

  /** The parser after name or target, its line end, and the terminator that replaces the first
      byte of the line end. */
  function Finished(p: Parser, pad: nat, tok: string, crlf: bool): (q: Parser)
    requires p.file.Some?
    ensures q.file.Some?
  {
    WithBuf(Closed(p, pad, tok), p.file.value.buf + Spaces(pad) + tok + [NUL] + if crlf then "\n" else "")
  }

  function EndLine(p: Parser, keep: Filter): Parser
    requires p.file.Some?
  {
    if p.unix == NameName || p.unix == NameWinEol then
      Insert(p.(offsets := p.offsets.(filename := p.itemOffset), unix := TypeChar), keep)
    else
      Insert(p.(offsets := p.offsets.(target := p.itemOffset), unix := TypeChar), keep)
  }

  predicate LastToken(u: UnixState) { u == NameName || u == LinkTarget }

  lemma EndsLine(p: Parser, keep: Filter)
    requires p.file.Some?
    ensures p.unix == NameName || p.unix == NameWinEol ==> EndName(p, keep) == EndLine(EndToken(p), keep)
    ensures p.unix == LinkTarget || p.unix == LinkWinEol ==> EndTarget(p, keep) == EndLine(EndToken(p), keep)
  {
    hide Insert, SetNul;
  }

  lemma LineFeed(p: Parser, keep: Filter)
    requires Reading(p) && LastToken(p.unix)
    ensures Step(p, '\n', keep) == EndLine(EndToken(Grow(Append(p, '\n'))), keep)
  {
    hide EndName, EndTarget, EndLine, EndToken;
    EndsLine(Grow(Append(p, '\n')), keep);
  }

  function Returned(p: Parser): (q: Parser)
    requires p.file.Some?
    ensures q.file.Some?
  {
    Grow(Append(p, '\r')).(unix := if p.unix == NameName then NameWinEol else LinkWinEol)
  }

  lemma CarriageReturn(p: Parser, keep: Filter)
    requires Reading(p) && LastToken(p.unix)
    ensures Step(p, '\r', keep) == Returned(p)
  {
    hide EndName, EndTarget;
  }

  lemma FeedAfterName(p: Parser, keep: Filter)
    requires Reading(p) && p.unix == NameWinEol
    ensures Step(p, '\n', keep) == EndName(Append(p, '\n'), keep)
  {
    hide EndName, LinkStep;
  }

  lemma FeedAfterTarget(p: Parser, keep: Filter)
    requires Reading(p) && p.unix == LinkWinEol
    ensures Step(p, '\n', keep) == EndTarget(Append(p, '\n'), keep)
  {
    hide EndTarget, LinkStep, Step, Append;
    LinkDispatch(p, '\n', keep);
    LinkStepFeed(Append(p, '\n'), keep);
  }

  lemma LinkDispatch(p: Parser, c: char, keep: Filter)
    requires Reading(p) && IsLink(p.unix)
    ensures Step(p, c, keep) == LinkStep(Append(p, c), c, keep) && Append(p, c).file.Some?
    ensures Append(p, c).unix == p.unix
  {
    hide TotalStep, TypeStep, PermStep, HlinksStep, UserStep, GroupStep, SizeStep, TimeStep, NameStep, LinkStep, NtStep;
  }

  lemma LinkStepFeed(p: Parser, keep: Filter)
    requires p.file.Some? && p.unix == LinkWinEol
    ensures LinkStep(p, '\n', keep) == EndTarget(p, keep)
  {
    hide EndTarget;
  }

  lemma FeedAfterReturn(p: Parser, keep: Filter)
    requires Reading(p) && (p.unix == NameWinEol || p.unix == LinkWinEol)
    ensures Step(p, '\n', keep) == EndLine(EndToken(Append(p, '\n')), keep)
  {
    hide EndName, EndTarget, EndLine, EndToken, Step;
    EndsLine(Append(p, '\n'), keep);
    if p.unix == NameWinEol {
      FeedAfterName(p, keep);
    } else {
      FeedAfterTarget(p, keep);
    }
  }

  lemma FinishedFeed(p: Parser, pad: nat, tok: string)
    requires p.file.Some?
    ensures EndToken(Grow(Append(Inside(p, pad, tok), '\n'))) == Finished(p, pad, tok, false)
  {
    hide EndToken, Append, Grow, Inside;
    var b := p.file.value.buf + Spaces(pad) + tok;
    Close(p, pad, tok, '\n');
    assert b + [NUL] + "" == b + [NUL];
  }

  lemma FinishedReturn(p: Parser, pad: nat, tok: string)
    requires p.file.Some?
    ensures EndToken(Append(Returned(Inside(p, pad, tok)), '\n'))
         == Finished(p, pad, tok, true).(unix := Returned(Inside(p, pad, tok)).unix)
  {
    var b := p.file.value.buf + Spaces(pad) + tok;
    assert SetNul(b + ['\r'] + ['\n'], |b|) == b + [NUL] + "\n";
  }

  lemma EndLineState(p: Parser, u: UnixState, keep: Filter)
    requires p.file.Some?
    requires (p.unix == NameName && u == NameWinEol) || (p.unix == LinkTarget && u == LinkWinEol)
    ensures EndLine(p, keep) == EndLine(p.(unix := u), keep)
  {
    hide Insert;
  }

  lemma FinishedUnix(p: Parser, pad: nat, tok: string, crlf: bool)
    requires p.file.Some?
    ensures Finished(p, pad, tok, crlf).unix == TokenState(p.unix) && Finished(p, pad, tok, crlf).list == p.list
    ensures Finished(p, pad, tok, crlf).offsets == p.offsets
    ensures Inside(p, pad, tok).unix == TokenState(p.unix)
  {
  }

  lemma EolRun(p: Parser, pad: nat, tok: string, crlf: bool, keep: Filter)
    requires Reading(p) && LastToken(TokenState(p.unix))
    ensures Run(Inside(p, pad, tok), if crlf then "\r\n" else "\n", keep) == EndLine(Finished(p, pad, tok, crlf), keep)
  {
    hide Step, Run, Finished, EndToken, Append, EndLine, Inside;
    var q := Inside(p, pad, tok);
    InsideReads(p, pad, tok);
    FinishedUnix(p, pad, tok, crlf);
    if crlf {
      var r := Returned(q);
      ReturnedReads(q);
      CarriageReturn(q, keep);
      RunOne(q, "\r\n", r, keep);
      assert "\r\n"[1..] == "\n";
      RunLast(r, '\n', keep);
      FeedAfterReturn(r, keep);
      FinishedReturn(p, pad, tok);
      EndLineState(Finished(p, pad, tok, crlf), r.unix, keep);
    } else {
      LineFeed(q, keep);
      RunLast(q, '\n', keep);
      FinishedFeed(p, pad, tok);
    }
  }

  lemma ReturnedReads(p: Parser)
    requires Reading(p) && LastToken(p.unix)
    ensures Reading(Returned(p))
    ensures Returned(p).unix == if p.unix == NameName then NameWinEol else LinkWinEol
  {
  }

  lemma FinishedFacts(p: Parser, e: Item, pad: nat, tok: string, crlf: bool)
    requires Progress(p, e, p.list, 5)
    ensures Progress(Finished(p, pad, tok, crlf), e, p.list, 5)
    ensures Finished(p, pad, tok, crlf).itemOffset > 0
    ensures Holds(Finished(p, pad, tok, crlf).file.value.buf, Finished(p, pad, tok, crlf).itemOffset, Text(tok))
    ensures p.file.value.buf <= Finished(p, pad, tok, crlf).file.value.buf
  {
    hide Strings, Holds, Spaces;
    var b := Closed(p, pad, tok).file.value.buf;
    var c := Finished(p, pad, tok, crlf).file.value.buf;
    ClosedFacts(p, e, p.list, 5, pad, tok);
    assert b <= c;
    StringsExtend(b, c, p.offsets, e, 5);
    HoldsExtend(b, c, Closed(p, pad, tok).itemOffset, Text(tok));
  }

  /** The rest of the line of an entry that is not a link. */
  lemma NameTail(p: Parser, e: Item, keep: Filter)
    requires Progress(p, e, p.list, 5) && p.unix == NamePre && WellFormed(e) && e.fileType != Symlink
    ensures LineDone(Run(p, Tail(e), keep), e, p.list, keep)
  {
    hide Step, Run, Strings, Scalars, Holds, Insert, Describes, LineDone, Spaces, Finished;
    var pad := e.pads.name;
    var q := Finished(p, pad, e.name, e.crlf);
    RunToken(p, pad, e.name, keep);
    RunAppend(p, Spaces(pad) + e.name, Eol(e), keep);
    EolRun(p, pad, e.name, e.crlf, keep);
    FinishedFacts(p, e, pad, e.name, e.crlf);
    FinishedUnix(p, pad, e.name, e.crlf);
    var r := q.(offsets := q.offsets.(filename := q.itemOffset), unix := TypeChar);
    OtherOffset(q.file.value.buf, q.offsets, r.offsets, e);
    EntryDescribes(Entry(r.file.value, r.offsets), e);
    InsertLists(r, e, keep);
  }

  lemma OtherOffset(b: string, at: Offsets, after: Offsets, e: Item)
    requires Strings(b, at, e, 5)
    requires after == at.(filename := after.filename, target := after.target)
    ensures Strings(b, after, e, 5)
  {
    hide Holds, Date;
  }

  // ---- links -------------------------------------------------------------------------------

  /** The parser after a link's name and " -> ", of which the first blank became the terminator. */
  function Arrowed(p: Parser, pad: nat, name: string): (q: Parser)
    requires p.file.Some?
    ensures q.file.Some?
  {
    ResetItem(WithBuf(p, p.file.value.buf + Spaces(pad) + name + [NUL] + "-> ")
              .(offsets := p.offsets.(filename := |p.file.value.buf| + pad), unix := LinkPre4))
  }

  function ArrowState(u: UnixState): UnixState {
    if u == LinkName then LinkPre1 else if u == LinkPre1 then LinkPre2 else LinkPre3
  }

  lemma ArrowStep(p: Parser, c: char, keep: Filter)
    requires Reading(p)
    requires (p.unix == LinkName && c == ' ') || (p.unix == LinkPre1 && c == '-') || (p.unix == LinkPre2 && c == '>')
    ensures Step(p, c, keep) == Grow(Append(p, c)).(unix := ArrowState(p.unix))
  {
    hide TotalStep, TypeStep, PermStep, HlinksStep, UserStep, GroupStep, SizeStep, TimeStep, NameStep, NtStep;
  }

  lemma ArrowEnd(p: Parser, keep: Filter)
    requires Reading(p) && p.unix == LinkPre3
    ensures Step(p, ' ', keep) == EndLinkName(Grow(Append(p, ' ')))
  {
    hide TotalStep, TypeStep, PermStep, HlinksStep, UserStep, GroupStep, SizeStep, TimeStep, NameStep, NtStep,
      EndLinkName;
  }

  lemma ArrowBuf(p: Parser, pad: nat, name: string)
    requires p.file.Some? && p.unix == LinkPre
    ensures EndLinkName(Grow(Append(AtArrow(Inside(p, pad, name), " ->", LinkPre3), ' '))) == Arrowed(p, pad, name)
  {
    var b := p.file.value.buf + Spaces(pad) + name;
    assert SetNul(b + " ->" + [' '], |b|) == b + [NUL] + "-> ";
  }

  /** The parser inside a link name, with the first part s of the arrow stored. */
  function AtArrow(p: Parser, s: string, u: UnixState): (q: Parser)
    requires p.file.Some?
    ensures q.file.Some?
  {
    WithBuf(p, p.file.value.buf + s).(unix := u, itemLength := p.itemLength + |s|)
  }

  lemma ArrowGrows(p: Parser, s: string, u: UnixState, c: char)
    requires p.file.Some?
    ensures Grow(Append(AtArrow(p, s, u), c)).(unix := ArrowState(u)) == AtArrow(p, s + [c], ArrowState(u))
  {
    assert p.file.value.buf + s + [c] == p.file.value.buf + (s + [c]);
  }

  lemma ArrowSteps(p: Parser, keep: Filter)
    requires Reading(p) && p.unix == LinkName
    ensures Step(p, ' ', keep) == AtArrow(p, " ", LinkPre1)
    ensures Step(AtArrow(p, " ", LinkPre1), '-', keep) == AtArrow(p, " -", LinkPre2)
    ensures Step(AtArrow(p, " -", LinkPre2), '>', keep) == AtArrow(p, " ->", LinkPre3)
  {
    hide Step, Grow, Append;
    ArrowStart(p);
    ArrowStep(p, ' ', keep);
    ArrowGrows(p, "", LinkName, ' ');
    ArrowStep(AtArrow(p, " ", LinkPre1), '-', keep);
    ArrowGrows(p, " ", LinkPre1, '-');
    ArrowStep(AtArrow(p, " -", LinkPre2), '>', keep);
    ArrowGrows(p, " -", LinkPre2, '>');
    assert "" + [' '] == " " && " " + ['-'] == " -" && " -" + ['>'] == " ->";
  }

  lemma ArrowStart(p: Parser)
    requires p.file.Some?
    ensures AtArrow(p, "", p.unix) == p
  {
    assert p.file.value.buf + "" == p.file.value.buf;
  }

  lemma ArrowRun(p: Parser, pad: nat, name: string, keep: Filter)
    requires Reading(p) && p.unix == LinkPre
    ensures Run(Inside(p, pad, name), " -> ", keep) == Arrowed(p, pad, name)
  {
    hide Step, Run, Inside, EndLinkName, Grow, Append, Arrowed, Spaces;
    var q := Inside(p, pad, name);
    InsideReads(p, pad, name);
    var q1, q2, q3 := AtArrow(q, " ", LinkPre1), AtArrow(q, " -", LinkPre2), AtArrow(q, " ->", LinkPre3);
    ArrowSteps(q, keep);
    ArrowEnd(q3, keep);
    ArrowBuf(p, pad, name);
    RunOne(q, " -> ", q1, keep);
    RunOne(q1, "-> ", q2, keep);
    RunOne(q2, "> ", q3, keep);
    RunLast(q3, ' ', keep);
    assert " -> "[1..] == "-> " && "-> "[1..] == "> " && "> "[1..] == " ";
  }

  // The name itself, up to its own end.

  predicate InArrow(u: UnixState) { u == LinkName || u == LinkPre1 || u == LinkPre2 || u == LinkPre3 }

  lemma ArrowTextStep(p: Parser, c: char, keep: Filter)
    requires Reading(p) && InArrow(p.unix) && c != '\r' && c != '\n' && NextArrow(p.unix, c) != LinkPre4
    ensures Step(p, c, keep) == AtArrow(p, [c], NextArrow(p.unix, c))
  {
    hide Step, EndLinkName;
    LinkDispatch(p, c, keep);
  }

  lemma AtArrowTwice(p: Parser, s: string, t: string, u: UnixState, v: UnixState)
    requires p.file.Some?
    ensures AtArrow(AtArrow(p, s, u), t, v) == AtArrow(p, s + t, v)
  {
    assert p.file.value.buf + s + t == p.file.value.buf + (s + t);
  }

  lemma {:induction false} ArrowStops(s: string)
    ensures ArrowOver(LinkPre4, s) == LinkPre4
  {
  }

  lemma ArrowUnroll(u: UnixState, s: string)
    requires u != LinkPre4 && s != ""
    ensures ArrowOver(u, s) == ArrowOver(NextArrow(u, s[0]), s[1..])
  {
  }

  lemma ArrowNext(p: Parser, c: char)
    requires Reading(p) && InArrow(p.unix) && NextArrow(p.unix, c) != LinkPre4
    ensures var q := AtArrow(p, [c], NextArrow(p.unix, c));
      Reading(q) && InArrow(q.unix) && q.unix == NextArrow(p.unix, c)
  {
  }

  /** Text that completes no arrow is stored. */
  lemma {:induction false} ArrowText(p: Parser, s: string, keep: Filter)
    requires Reading(p) && InArrow(p.unix) && NoLineEnd(s) && ArrowOver(p.unix, s) != LinkPre4
    ensures Run(p, s, keep) == AtArrow(p, s, ArrowOver(p.unix, s)) && InArrow(ArrowOver(p.unix, s))
    decreases |s|
  {
    hide Step, ArrowOver, NextArrow, AtArrow;
    if s == "" {
      ArrowStart(p);
      ArrowNone(p.unix);
      EmptyRun(p, keep);
    } else {
      var u := NextArrow(p.unix, s[0]);
      var q := AtArrow(p, [s[0]], u);
      ArrowUnroll(p.unix, s);
      ArrowStops(s[1..]);
      ArrowTextStep(p, s[0], keep);
      ArrowNext(p, s[0]);
      RunOne(p, s, q, keep);
      ArrowText(q, s[1..], keep);
      AtArrowTwice(p, [s[0]], s[1..], u, ArrowOver(u, s[1..]));
      assert [s[0]] + s[1..] == s;
    }
  }

  lemma ArrowNone(u: UnixState)
    ensures ArrowOver(u, "") == u
  {
  }

  /** A link's text behind its blanks, as far as no arrow is completed in it. */
  lemma LinkTextRun(p: Parser, pad: nat, s: string, keep: Filter)
    requires Reading(p) && p.unix == LinkPre && IsEntryName(s) && ArrowOver(LinkName, s[1..]) != LinkPre4
    ensures Run(p, Spaces(pad) + s, keep) == Inside(p, pad, s).(unix := ArrowOver(LinkName, s[1..]))
  {
    hide Step, Run, ArrowOver, Spaces;
    assert Spaces(pad) + s == (Spaces(pad) + [s[0]]) + s[1..];
    RunAppend(p, Spaces(pad) + [s[0]], s[1..], keep);
    RunStart(p, pad, s[0], keep);
    InsideReads(p, pad, [s[0]]);
    ArrowText(Inside(p, pad, [s[0]]), s[1..], keep);
    InsideArrow(p, pad, s, ArrowOver(LinkName, s[1..]));
  }

  lemma InsideArrow(p: Parser, pad: nat, s: string, u: UnixState)
    requires p.file.Some? && s != ""
    ensures AtArrow(Inside(p, pad, [s[0]]), s[1..], u) == Inside(p, pad, s).(unix := u)
  {
    var b := p.file.value.buf + Spaces(pad);
    assert b + [s[0]] + s[1..] == b + s;
  }

  lemma NameRun(p: Parser, pad: nat, name: string, keep: Filter)
    requires Reading(p) && p.unix == LinkPre && IsEntryName(name) && Readable(name)
    ensures Run(p, Spaces(pad) + name, keep) == Inside(p, pad, name)
  {
    hide Step, Run, ArrowOver, Spaces;
    LinkTextRun(p, pad, name, keep);
    InsideReads(p, pad, name);
    assert Inside(p, pad, name).(unix := LinkName) == Inside(p, pad, name);
  }

  lemma ArrowFacts(p: Parser, e: Item, pad: nat, name: string)
    requires Progress(p, e, p.list, 5)
    ensures Progress(Arrowed(p, pad, name), e, p.list, 5)
    ensures Holds(Arrowed(p, pad, name).file.value.buf, Arrowed(p, pad, name).offsets.filename, Text(name))
    ensures Arrowed(p, pad, name).list == p.list && Arrowed(p, pad, name).unix == LinkPre4
  {
    hide Strings, Holds, Spaces;
    var b := Closed(p, pad, name).file.value.buf;
    var q := Arrowed(p, pad, name);
    ClosedFacts(p, e, p.list, 5, pad, name);
    assert b <= q.file.value.buf;
    StringsExtend(b, q.file.value.buf, p.offsets, e, 5);
    HoldsExtend(b, q.file.value.buf, Closed(p, pad, name).itemOffset, Text(name));
    OtherOffset(q.file.value.buf, p.offsets, q.offsets, e);
  }

  /** The rest of the line of a link. */
  lemma LinkTail(p: Parser, e: Item, keep: Filter)
    requires Progress(p, e, p.list, 5) && p.unix == LinkPre && WellFormed(e) && e.fileType == Symlink
    ensures LineDone(Run(p, Tail(e), keep), e, p.list, keep)
  {
    hide Step, Run, Strings, Scalars, Holds, Insert, Describes, LineDone, Spaces, Finished, Arrowed, Inside,
      EndLine, AllStay;
    var pad := e.pads.name;
    var q := Arrowed(p, pad, e.name);
    var named := Spaces(pad) + e.name;
    LinkText(e);
    NameRun(p, pad, e.name, keep);
    ArrowRun(p, pad, e.name, keep);
    ArrowFacts(p, e, pad, e.name);
    assert Tail(e) == named + " -> " + e.target + Eol(e);
    RunAppend(p, named, " -> ", keep);
    RunAppend(p, named + " -> ", e.target, keep);
    RunAppend(p, named + " -> " + e.target, Eol(e), keep);
    NoSpaces(e.target);
    RunToken(q, 0, e.target, keep);
    EolRun(q, 0, e.target, e.crlf, keep);
    FinishedFacts(q, e, 0, e.target, e.crlf);
    FinishedUnix(q, 0, e.target, e.crlf);
    LinkLast(q, Finished(q, 0, e.target, e.crlf), e, keep);
  }

  lemma LinkText(e: Item)
    requires Printable(e) && e.fileType == Symlink
    ensures AllStay(LinkTarget, e.target[1..])
  {
  }

  lemma NoSpaces(s: string)
    ensures Spaces(0) + s == s
  {
  }

  lemma LinkLast(q: Parser, f: Parser, e: Item, keep: Filter)
    requires q.file.Some? && Holds(q.file.value.buf, q.offsets.filename, Text(e.name))
    requires Progress(f, e, q.list, 5) && f.unix == LinkTarget && f.offsets == q.offsets && f.list == q.list
    requires q.file.value.buf <= f.file.value.buf
    requires f.itemOffset > 0 && Holds(f.file.value.buf, f.itemOffset, Text(e.target)) && e.fileType == Symlink
    ensures LineDone(EndLine(f, keep), e, q.list, keep)
  {
    hide Strings, Scalars, Holds, Insert, Describes, LineDone;
    var r := f.(offsets := f.offsets.(target := f.itemOffset), unix := TypeChar);
    HoldsExtend(q.file.value.buf, f.file.value.buf, q.offsets.filename, Text(e.name));
    OtherOffset(f.file.value.buf, f.offsets, r.offsets, e);
    EntryDescribes(Entry(r.file.value, r.offsets), e);
    InsertLists(r, e, keep);
  }

  /** The line up to the blanks in front of the name. */
  lemma BeforeName(p: Parser, e: Item, keep: Filter) returns (r: Parser)
    requires LineStart(p) && Printable(e)
    ensures Progress(r, e, p.list, 5) && r.unix == if e.fileType == Symlink then LinkPre else NamePre
    ensures Reading(r) && r.list == p.list && Run(p, Line(e), keep) == Run(r, Tail(e), keep)
  {
    hide Step, Run, Progress, Head, Middle, Tail, Printable;
    var q := HeadColumns(p, e, keep);
    r := Columns(q, e, p.list, keep);
    ProgressList(r, e, p.list, 5);
    RunAppend(p, Head(e), Middle(e) + Tail(e), keep);
    RunAppend(q, Middle(e), Tail(e), keep);
  }

  // ---- lines and listings --------------------------------------------------------------------

  lemma LineRoundTrip(p: Parser, e: Item, keep: Filter)
    requires LineStart(p) && WellFormed(e)
    ensures LineDone(Run(p, Line(e), keep), e, p.list, keep)
  {
    hide Step, Run, Progress, LineDone, Tail, Line, Printable, Readable;
    var r := BeforeName(p, e, keep);
    if e.fileType == Symlink {
      LinkTail(r, e, keep);
    } else {
      NameTail(r, e, keep);
    }
  }

  // ---- link names behind which the arrow is missed ---------------------------------------------

  lemma {:induction false} ArrowOverAppend(u: UnixState, s: string, t: string)
    ensures ArrowOver(u, s + t) == ArrowOver(ArrowOver(u, s), t)
    decreases |s|
  {
    if s == "" {
      assert s + t == t;
    } else if u == LinkPre4 {
    } else {
      assert (s + t)[1..] == s[1..] + t;
      ArrowOverAppend(NextArrow(u, s[0]), s[1..], t);
    }
  }

  lemma ArrowSnoc(u: UnixState, s: string, n: nat)
    requires n < |s|
    ensures var v := ArrowOver(u, s[..n]);
      ArrowOver(u, s[..n + 1]) == if v == LinkPre4 then v else NextArrow(v, s[n])
  {
    assert s[..n + 1] == s[..n] + [s[n]];
    ArrowOverAppend(u, s[..n], [s[n]]);
  }

  lemma ArrowSplit(u: UnixState, s: string, n: nat)
    requires n <= |s|
    ensures ArrowOver(u, s) == ArrowOver(ArrowOver(u, s[..n]), s[n..])
  {
    assert s == s[..n] + s[n..];
    ArrowOverAppend(u, s[..n], s[n..]);
  }

  /** The state in which the first n bytes of the arrow have been read. */
  function Partly(n: nat): UnixState {
    if n == 0 then LinkName else if n == 1 then LinkPre1 else if n == 2 then LinkPre2 else if n == 3 then LinkPre3
    else LinkPre4
  }

  lemma ArrowForward(s: string, n: nat)
    requires n < 4 && n < |s| && s[..n] == " -> "[..n]
    ensures var u := NextArrow(Partly(n), s[n]);
      u == LinkName || (u == Partly(n + 1) && s[..n + 1] == " -> "[..n + 1])
  {
    if s[n] == " -> "[n] {
      assert s[..n + 1] == s[..n] + [s[n]] && " -> "[..n + 1] == " -> "[..n] + [" -> "[n]];
    }
  }

  /** From the name either the whole arrow is read, or some bytes lead back to the name. */
  lemma BrokenOff(s: string) returns (n: nat)
    requires ArrowOver(LinkName, s) == LinkPre4
    ensures 0 < n <= |s|
    ensures (n == 4 && s[..4] == " -> ") ||
      (ArrowOver(LinkName, s[..n]) == LinkName && ArrowOver(LinkName, s[n..]) == LinkPre4)
  {
    hide ArrowOver, NextArrow;
    n := 0;
    ArrowNone(LinkName);
    assert s[..0] == "" && s[..|s|] == s;
    ghost var u := LinkName;
    while n == 0 || (u != LinkName && u != LinkPre4)
      invariant n <= 4 && n <= |s| && u == ArrowOver(LinkName, s[..n])
      invariant (n > 0 && u == LinkName) || (s[..n] == " -> "[..n] && u == Partly(n))
      decreases 4 - n
    {
      ArrowSnoc(LinkName, s, n);
      ArrowForward(s, n);
      n, u := n + 1, ArrowOver(LinkName, s[..n + 1]);
    }
    ArrowSplit(LinkName, s, n);
  }

  /** The arrow that is completed first: the text before it completes none and begins none. */
  lemma {:induction false} FirstArrow(s: string) returns (j: nat)
    requires ArrowOver(LinkName, s) == LinkPre4
    ensures j + 4 <= |s| && s[j..j + 4] == " -> " && ArrowOver(LinkName, s[..j]) == LinkName
    decreases |s|
  {
    hide ArrowOver;
    ArrowNone(LinkName);
    var n := BrokenOff(s);
    if s[..n] == " -> " {
      j := 0;
      assert s[..0] == "";
    } else {
      var i := FirstArrow(s[n..]);
      j := n + i;
      assert s[..j] == s[..n] + s[n..][..i] && s[j..j + 4] == s[n..][i..i + 4];
      ArrowOverAppend(LinkName, s[..n], s[n..][..i]);
    }
  }

  /** The same line, read as a link with another name and target. */
  predicate ReadAs(e: Item, f: Item) {
    && f == e.(name := f.name, target := f.target)
    && f.name != e.name && f.name + " -> " + f.target == e.name + " -> " + e.target
  }

  lemma SameLine(e: Item, f: Item)
    requires ReadAs(e, f) && e.fileType == Symlink
    ensures Line(f) == Line(e)
  {
    hide Head, Middle;
    assert Head(f) == Head(e) && Middle(f) == Middle(e) by {
      HeadMiddle(e, f);
    }
    LinkTailText(e);
    LinkTailText(f);
  }

  lemma HeadMiddle(e: Item, f: Item)
    requires ReadAs(e, f)
    ensures Head(f) == Head(e) && Middle(f) == Middle(e)
  {
  }

  function LinkLine(e: Item): string { e.name + " -> " + e.target }

  lemma LinkTailText(e: Item)
    requires e.fileType == Symlink
    ensures Tail(e) == Spaces(e.pads.name) + LinkLine(e) + Eol(e)
  {
    assert Spaces(e.pads.name) + e.name + " -> " + e.target == Spaces(e.pads.name) + LinkLine(e);
  }

  /** A line end where the arrow is still missing, or nothing behind it, is an error. */
  lemma LineEndFails(p: Parser, crlf: bool, keep: Filter)
    requires Reading(p) && (InArrow(p.unix) || p.unix == LinkPre4)
    ensures var q := Run(p, if crlf then "\r\n" else "\n", keep); q.error && q.list == p.list
  {
    hide Step, Run;
    var c := if crlf then '\r' else '\n';
    var s := if crlf then "\r\n" else "\n";
    LineEndStep(p, c, keep);
    RunOne(p, s, Step(p, c, keep), keep);
    ErrorIsFinal(Step(p, c, keep), s[1..], keep);
  }

  lemma LineEndStep(p: Parser, c: char, keep: Filter)
    requires Reading(p) && (InArrow(p.unix) || p.unix == LinkPre4) && (c == '\r' || c == '\n')
    ensures Step(p, c, keep).error && Step(p, c, keep).list == p.list
  {
    hide Step, EndLinkName;
    LinkDispatch(p, c, keep);
  }

  /** The rest of the line when no arrow is found in it. */
  lemma NoArrowTail(p: Parser, e: Item, keep: Filter)
    requires Reading(p) && p.unix == LinkPre && Printable(e) && e.fileType == Symlink
    requires ArrowOver(LinkName, LinkLine(e)[1..]) != LinkPre4
    ensures var q := Run(p, Tail(e), keep); q.error && q.list == p.list
  {
    hide Step, Run, ArrowOver, Spaces, Inside;
    var t, pad := LinkLine(e), e.pads.name;
    LinkTailText(e);
    LinkLineText(e);
    LinkTextRun(p, pad, t, keep);
    RunAppend(p, Spaces(pad) + t, Eol(e), keep);
    InsideList(p, pad, t);
    ArrowText(Inside(p, pad, [t[0]]), t[1..], keep);
    LineEndFails(Inside(p, pad, t).(unix := ArrowOver(LinkName, t[1..])), e.crlf, keep);
  }

  lemma InsideList(p: Parser, pad: nat, t: string)
    requires Reading(p) && p.unix == LinkPre && t != ""
    ensures Inside(p, pad, t).list == p.list && Reading(Inside(p, pad, t))
    ensures Reading(Inside(p, pad, [t[0]])) && Inside(p, pad, [t[0]]).unix == LinkName
  {
  }

  lemma LinkLineText(e: Item)
    requires Printable(e) && e.fileType == Symlink
    ensures IsEntryName(LinkLine(e))
  {
    assert LinkLine(e)[1..] == e.name[1..] + " -> " + e.target;
  }

  /** The rest of the line when nothing follows the arrow that is found first. */
  lemma NoTargetTail(p: Parser, e: Item, name: string, keep: Filter)
    requires Reading(p) && p.unix == LinkPre && Printable(e) && e.fileType == Symlink
    requires LinkLine(e) == name + " -> " && Readable(name)
    ensures var q := Run(p, Tail(e), keep); q.error && q.list == p.list
  {
    hide Step, Run, ArrowOver, Spaces, Arrowed, Eol;
    var pad := e.pads.name;
    LinkTailText(e);
    LinkLineText(e);
    assert name == LinkLine(e)[..|name|] && name[1..] == LinkLine(e)[1..][..|name| - 1];
    NameRun(p, pad, name, keep);
    ArrowRun(p, pad, name, keep);
    assert Spaces(pad) + LinkLine(e) + Eol(e) == (Spaces(pad) + name) + " -> " + Eol(e);
    RunAppend(p, (Spaces(pad) + name), " -> ", keep);
    RunAppend(p, (Spaces(pad) + name) + " -> ", Eol(e), keep);
    ArrowedReads(p, pad, name);
    EolText(e);
    LineEndFails(Arrowed(p, pad, name), e.crlf, keep);
  }

  lemma EolText(e: Item)
    ensures Eol(e) == if e.crlf then "\r\n" else "\n"
  {
  }

  lemma ArrowedReads(p: Parser, pad: nat, name: string)
    requires Reading(p) && p.unix == LinkPre
    ensures var q := Arrowed(p, pad, name); Reading(q) && q.unix == LinkPre4 && q.list == p.list
  {
  }

  lemma ProgressList(p: Parser, e: Item, list: seq<Entry>, n: nat)
    requires Progress(p, e, list, n)
    ensures p.list == list && Reading(p)
  {
  }

  lemma CutAt(t: string, j: nat)
    requires t != "" && j + 4 <= |t[1..]| && t[1..][j..j + 4] == " -> " && ArrowOver(LinkName, t[1..][..j]) == LinkName
    ensures t == t[..j + 1] + " -> " + t[j + 5..] && Readable(t[..j + 1])
  {
    hide ArrowOver;
    assert t[..j + 1][1..] == t[1..][..j];
    assert t[j + 1..j + 5] == t[1..][j..j + 4];
  }

  lemma CutItem(e: Item, f: Item)
    requires Printable(e) && e.fileType == Symlink && !Readable(e.name) && Readable(f.name) && f.target != ""
    requires f == e.(name := f.name, target := f.target) && LinkLine(e) == f.name + " -> " + f.target
    ensures ReadAs(e, f) && WellFormed(f)
  {
    hide Readable;
    var t := LinkLine(e);
    NonEmpty(f.name);
    LinkLineText(e);
    assert t[0] == f.name[0] && f.name[1..] == t[1..][..|f.name| - 1] && f.target == t[1..][|f.name| + 3..];
  }

  lemma NonEmpty(name: string)
    requires Readable(name)
    ensures name != ""
  {
  }

  /** A link whose name is not readable: the arrow is found at another place, and the line is read as the
      item with that name and target, or it is an error. */
  lemma LinkReading(p: Parser, e: Item, keep: Filter)
    requires LineStart(p) && Printable(e) && e.fileType == Symlink && !Readable(e.name)
    ensures var q := Run(p, Line(e), keep);
      (q.error && q.list == p.list) || (exists f :: ReadAs(e, f) && LineDone(q, f, p.list, keep))
  {
    hide Step, Run, ArrowOver, LineDone, Progress, Head, Middle, Tail;
    var t := LinkLine(e);
    if ArrowOver(LinkName, t[1..]) == LinkPre4 {
      var j := FirstArrow(t[1..]);
      var name, target := t[..j + 1], t[j + 5..];
      CutAt(t, j);
      if target == "" {
        var r := BeforeName(p, e, keep);
        NoTargetTail(r, e, name, keep);
      } else {
        var f := e.(name := name, target := target);
        CutItem(e, f);
        SameLine(e, f);
        LineRoundTrip(p, f, keep);
      }
    } else {
      var r := BeforeName(p, e, keep);
      NoArrowTail(r, e, keep);
    }
  }

  /**
   * A link is read back exactly when its name is readable: with a filter that accepts it, the line adds
   * one entry that describes it if and only if the states of the arrow run over the name without
   * completing it and end where they began.
   */
  lemma LinkReadBackIff(p: Parser, e: Item, keep: Filter)
    requires LineStart(p) && Printable(e) && e.fileType == Symlink && Accepted(e, keep)
    requires NUL !in e.name && NUL !in e.target
    ensures LineDone(Run(p, Line(e), keep), e, p.list, keep) <==> Readable(e.name)
  {
    hide Step, Run, Readable, Line;
    if Readable(e.name) {
      LineRoundTrip(p, e, keep);
    } else {
      LinkReading(p, e, keep);
      var q := Run(p, Line(e), keep);
      if !q.error {
        var f :| ReadAs(e, f) && LineDone(q, f, p.list, keep);
        assert f.name == LinkLine(e)[..|f.name|];
        NoNulText(e.name);
        NoNulText(f.name);
      }
    }
  }

  /** The blank at the end of "a " begins an arrow that the blank of the real one breaks off. */
  lemma TrailingBlankIsMissed()
    ensures !Readable("a ") && Readable("a b")
  {
    ArrowUnroll(LinkName, " ");
    assert "a "[1..] == " " && " "[1..] == "";
    ArrowUnroll(LinkName, " b");
    ArrowUnroll(LinkPre1, "b");
    assert "a b"[1..] == " b" && " b"[1..] == "b" && "b"[1..] == "";
  }

  /** The items a filter lets through, in order. */
  function Kept(items: seq<Item>, keep: Filter): seq<Item> {
    if items == [] then []
    else if Accepted(items[0], keep) then [items[0]] + Kept(items[1..], keep)
    else Kept(items[1..], keep)
  }

  predicate AllDescribe(list: seq<Entry>, items: seq<Item>) {
    |list| == |items| && forall i :: 0 <= i < |items| ==> Describes(list[i], items[i])
  }

  lemma KeptFirst(e: Item, items: seq<Item>, keep: Filter)
    ensures Kept([e] + items, keep) == (if Accepted(e, keep) then [e] else []) + Kept(items, keep)
  {
    hide Accepted;
    assert ([e] + items)[1..] == items;
  }

  lemma DescribeFirst(before: seq<Entry>, q: Parser, list: seq<Entry>, e: Item, kept: seq<Item>, keep: Filter)
    requires LineDone(q, e, before, keep) && q.list <= list && AllDescribe(list[|q.list|..], kept)
    ensures before <= list && AllDescribe(list[|before|..], (if Accepted(e, keep) then [e] else []) + kept)
  {
    hide Describes, LineStart, Accepted, AllDescribe;
    if Accepted(e, keep) {
      DescribeOneMore(q.list[|before|], e, list[|q.list|..], kept);
      assert list[|before|..] == [q.list[|before|]] + list[|q.list|..];
    } else {
      assert [] + kept == kept;
    }
  }

  lemma DescribeOneMore(d: Entry, e: Item, list: seq<Entry>, items: seq<Item>)
    requires Describes(d, e) && AllDescribe(list, items)
    ensures AllDescribe([d] + list, [e] + items)
  {
    hide Describes;
  }

  /** Parsing a printed listing of any length appends exactly the accepted items to the list, in
      order, and leaves no error and no unfinished line. */
  lemma {:induction false} ListingRoundTrip(p: Parser, items: seq<Item>, keep: Filter)
    requires LineStart(p) && forall e :: e in items ==> WellFormed(e)
    ensures var q := Run(p, Listing(items), keep);
      && LineStart(q) && p.list <= q.list
      && AllDescribe(q.list[|p.list|..], Kept(items, keep))
    decreases |items|
  {
    hide Step, Run, Line, WellFormed, LineStart, Accepted, LineDone, Kept, AllDescribe;
    if items == [] {
      EmptyRun(p, keep);
      NothingAdded(p.list, keep);
    } else {
      var q := Run(p, Line(items[0]), keep);
      LineRoundTrip(p, items[0], keep);
      LineLists(q, items[0], p.list, keep);
      ListingRoundTrip(q, items[1..], keep);
      RunAppend(p, Line(items[0]), Listing(items[1..]), keep);
      KeptFirst(items[0], items[1..], keep);
      assert [items[0]] + items[1..] == items;
      DescribeFirst(p.list, q, Run(q, Listing(items[1..]), keep).list, items[0], Kept(items[1..], keep), keep);
    }
  }

  lemma LineLists(q: Parser, e: Item, list: seq<Entry>, keep: Filter)
    requires LineDone(q, e, list, keep)
    ensures LineStart(q) && list <= q.list
  {
    hide Describes, Accepted, LineStart;
  }

  lemma NothingAdded(list: seq<Entry>, keep: Filter)
    ensures AllDescribe(list[|list|..], Kept([], keep))
  {
    assert list[|list|..] == [];
  }

  lemma EmptyRun(p: Parser, keep: Filter)
    ensures Run(p, "", keep) == p
  {
  }

  // ---- any printed listing ---------------------------------------------------------------------

  /** Where the arrow that is completed first begins, from position j on. */
  function FindArrow(s: string, j: nat): (r: Option<nat>)
    ensures r.Some? ==> r.value + 4 <= |s| && s[r.value..r.value + 4] == " -> "
    ensures r.Some? ==> ArrowOver(LinkName, s[..r.value]) == LinkName
    decreases |s| - j
  {
    if j + 4 > |s| then None
    else if s[j..j + 4] == " -> " && ArrowOver(LinkName, s[..j]) == LinkName then Some(j)
    else FindArrow(s, j + 1)
  }

  lemma {:induction false} ArrowIsFound(s: string, j: nat, k: nat)
    requires j <= k && k + 4 <= |s| && s[k..k + 4] == " -> " && ArrowOver(LinkName, s[..k]) == LinkName
    ensures FindArrow(s, j).Some?
    decreases k - j
  {
    hide ArrowOver;
    if !(s[j..j + 4] == " -> " && ArrowOver(LinkName, s[..j]) == LinkName) {
      ArrowIsFound(s, j + 1, k);
    }
  }

  lemma ArrowFoundIff(s: string)
    ensures FindArrow(s, 0).Some? <==> ArrowOver(LinkName, s) == LinkPre4
  {
    hide ArrowOver;
    if ArrowOver(LinkName, s) == LinkPre4 {
      var j := FirstArrow(s);
      ArrowIsFound(s, 0, j);
    }
    if FindArrow(s, 0).Some? {
      var j := FindArrow(s, 0).value;
      ArrowSplit(LinkName, s, j);
      ArrowSplit(LinkName, s[j..], 4);
      assert s[j..][..4] == " -> ";
      WholeArrow();
      ArrowStops(s[j..][4..]);
    }
  }

  lemma WholeArrow()
    ensures ArrowOver(LinkName, " -> ") == LinkPre4
  {
    ArrowUnroll(LinkName, " -> ");
    assert " -> "[1..] == "-> ";
    ArrowUnroll(LinkPre1, "-> ");
    assert "-> "[1..] == "> ";
    ArrowUnroll(LinkPre2, "> ");
    assert "> "[1..] == " ";
    ArrowUnroll(LinkPre3, " ");
  }

  /** What the parser takes a printed item for: itself, or for a link whose name is not readable the link
      that the first completed arrow makes; None when that line is an error. */
  function Meaning(e: Item): Option<Item> {
    if e.fileType != Symlink || Readable(e.name) then Some(e)
    else
      var t := LinkLine(e);
      if t == "" then None
      else
        match FindArrow(t[1..], 0)
        case None => None
        case Some(j) =>
          if j + 5 == |t| then None else Some(e.(name := t[..j + 1], target := t[j + 5..]))
  }

  /** Every printed line is read as what it means, or is an error that lists nothing. */
  lemma LineMeaning(p: Parser, e: Item, keep: Filter)
    requires LineStart(p) && Printable(e)
    ensures var q := Run(p, Line(e), keep);
      if Meaning(e).Some? then LineDone(q, Meaning(e).value, p.list, keep) else q.error && q.list == p.list
  {
    hide Step, Run, ArrowOver, LineDone, Progress, Head, Middle, Tail, Readable;
    if e.fileType != Symlink || Readable(e.name) {
      LineRoundTrip(p, e, keep);
    } else {
      var t := LinkLine(e);
      LinkLineText(e);
      ArrowFoundIff(t[1..]);
      if FindArrow(t[1..], 0).Some? {
        var j := FindArrow(t[1..], 0).value;
        CutAt(t, j);
        MeaningCut(p, e, j, keep);
      } else {
        var r := BeforeName(p, e, keep);
        NoArrowTail(r, e, keep);
      }
    }
  }

  lemma MeaningCut(p: Parser, e: Item, j: nat, keep: Filter)
    requires LineStart(p) && Printable(e) && e.fileType == Symlink && !Readable(e.name)
    requires var t := LinkLine(e);
      j + 5 <= |t| && t == t[..j + 1] + " -> " + t[j + 5..] && Readable(t[..j + 1])
    ensures var q := Run(p, Line(e), keep); var t := LinkLine(e);
      if j + 5 == |t| then q.error && q.list == p.list
      else LineDone(q, e.(name := t[..j + 1], target := t[j + 5..]), p.list, keep)
  {
    hide Step, Run, LineDone, Progress, Head, Middle, Tail, Readable, Line;
    var t := LinkLine(e);
    if j + 5 == |t| {
      var r := BeforeName(p, e, keep);
      assert t[j + 5..] == "" && t[..j + 1] + " -> " + "" == t[..j + 1] + " -> ";
      NoTargetTail(r, e, t[..j + 1], keep);
    } else {
      var f := e.(name := t[..j + 1], target := t[j + 5..]);
      CutItem(e, f);
      SameLine(e, f);
      LineRoundTrip(p, f, keep);
    }
  }

  /** What is read of a listing: the items before the first line that is an error. */
  function ReadItems(items: seq<Item>): seq<Item> {
    if items == [] || Meaning(items[0]).None? then [] else [Meaning(items[0]).value] + ReadItems(items[1..])
  }

  predicate AllMean(items: seq<Item>) { forall i :: 0 <= i < |items| ==> Meaning(items[i]).Some? }

  /** Parsing any printed listing, whatever its link names: an error is recorded exactly when some line is
      one, and the list gets the accepted ones of the items read before it, in order. */
  lemma {:induction false} ListingMeaning(p: Parser, items: seq<Item>, keep: Filter)
    requires LineStart(p) && forall e :: e in items ==> Printable(e)
    ensures var q := Run(p, Listing(items), keep);
      && (q.error <==> !AllMean(items)) && p.list <= q.list
      && AllDescribe(q.list[|p.list|..], Kept(ReadItems(items), keep))
    decreases |items|
  {
    hide Step, Run, Line, Printable, Accepted, Meaning, LineDone, Kept, AllDescribe, LineStart, AllMean;
    AllMeanFirst(items);
    if items == [] {
      EmptyRun(p, keep);
      NothingAdded(p.list, keep);
      LineStartIsOk(p);
    } else {
      var q := Run(p, Line(items[0]), keep);
      LineMeaning(p, items[0], keep);
      RunAppend(p, Line(items[0]), Listing(items[1..]), keep);
      if Meaning(items[0]).None? {
        ErrorIsFinal(q, Listing(items[1..]), keep);
        NothingAdded(p.list, keep);
      } else {
        var e := Meaning(items[0]).value;
        LineLists(q, e, p.list, keep);
        ListingMeaning(q, items[1..], keep);
        KeptFirst(e, ReadItems(items[1..]), keep);
        var kept := Kept(ReadItems(items[1..]), keep);
        DescribeFirst(p.list, q, Run(q, Listing(items[1..]), keep).list, e, kept, keep);
      }
    }
  }

  lemma AllMeanFirst(items: seq<Item>)
    ensures AllMean(items) <==> items == [] || (Meaning(items[0]).Some? && AllMean(items[1..]))
  {
    hide Meaning;
    assert forall i :: 0 < i < |items| ==> items[i] == items[1..][i - 1];
  }

  lemma LineStartIsOk(p: Parser)
    requires LineStart(p)
    ensures !p.error
  {
  }

  // ---- the "total" line ----------------------------------------------------------------------

  function TotalLine(pad: nat, blocks: nat, crlf: bool): string {
    "total " + Spaces(pad) + Decimal(blocks) + if crlf then "\r\n" else "\n"
  }

  /** The parser inside the first line, of which s has been stored. */
  function InTotal(s: string): Parser {
    INITIAL.(os := OsUnix, unix := TotalReading, file := Some(FRESH_INFO.(buf := s)), itemLength := |s|)
  }

  lemma TotalFirst(keep: Filter)
    ensures Step(INITIAL, 't', keep) == InTotal("t")
  {
    hide TypeStep, PermStep, HlinksStep, UserStep, GroupStep, SizeStep, TimeStep, NameStep, LinkStep, NtStep;
    assert "" + ['t'] == "t";
  }

  lemma TotalText(s: string, keep: Filter)
    requires s != "" && s[0] == 't' && AllStay(TotalReading, s[1..])
    ensures Run(INITIAL, s, keep) == InTotal(s)
  {
    hide Step, Run;
    TotalFirst(keep);
    RunOne(INITIAL, s, InTotal("t"), keep);
    RunStay(InTotal("t"), s[1..], keep);
    assert "t" + s[1..] == s;
  }

  lemma TotalReturn(s: string, keep: Filter)
    requires s != ""
    ensures Step(InTotal(s), '\r', keep) == InTotal(s)
  {
    hide TypeStep, PermStep, HlinksStep, UserStep, GroupStep, SizeStep, TimeStep, NameStep, LinkStep, NtStep;
    assert (s + ['\r'])[..|s|] == s;
  }

  lemma TotalFeed(s: string, keep: Filter)
    requires "total " <= s && SkipDigits(SkipSpaces(s[6..])) == "" && NUL !in s
    ensures LineStart(Step(InTotal(s), '\n', keep)) && Step(InTotal(s), '\n', keep).list == []
  {
    hide TotalStep, TypeStep, PermStep, HlinksStep, UserStep, GroupStep, SizeStep, TimeStep, NameStep, LinkStep, NtStep;
    TotalEnds(s, Append(InTotal(s), '\n'));
  }

  lemma TotalEnds(s: string, p: Parser)
    requires "total " <= s && SkipDigits(SkipSpaces(s[6..])) == "" && NUL !in s && p == Append(InTotal(s), '\n')
    ensures LineStart(TotalStep(p, '\n')) && TotalStep(p, '\n').list == []
  {
    hide SkipDigits, SkipSpaces, CStr, TypeStep;
    var b := s + [NUL];
    assert SetNul(s + ['\n'], |s|) == b;
    assert b[6..6 + |s[6..]|] == s[6..];
    HoldsIsCStr(b, 6, s[6..]);
    assert CStr(b, 6) == s[6..];
  }

  lemma {:induction false} PaddedNumber(pad: nat, digits: string)
    requires forall i :: 0 <= i < |digits| ==> IsDigit(digits[i])
    ensures SkipDigits(SkipSpaces(Spaces(pad) + digits)) == ""
  {
    if pad == 0 {
      assert Spaces(0) + digits == digits;
      DigitRunAll(digits);
    } else {
      assert (Spaces(pad) + digits)[1..] == Spaces(pad - 1) + digits;
      PaddedNumber(pad - 1, digits);
    }
  }

  /** The line that starts most Unix listings is skipped, whatever the number in it. */
  lemma TotalLineSkipped(pad: nat, blocks: nat, crlf: bool, keep: Filter)
    ensures var q := Run(INITIAL, TotalLine(pad, blocks, crlf), keep); LineStart(q) && q.list == []
  {
    hide Step, Run, LineStart, InTotal, Decimal, SkipDigits, SkipSpaces;
    var s := "total " + Spaces(pad) + Decimal(blocks);
    PaddedNumber(pad, Decimal(blocks));
    assert s[6..] == Spaces(pad) + Decimal(blocks);
    TotalText(s, keep);
    TotalFeed(s, keep);
    RunAppend(INITIAL, s, if crlf then "\r\n" else "\n", keep);
    if crlf {
      TotalReturn(s, keep);
      RunOne(InTotal(s), "\r\n", InTotal(s), keep);
      assert "\r\n"[1..] == "\n";
    }
    RunLast(InTotal(s), '\n', keep);
  }

  /** The whole way: a listing with or without its "total" line, cut into any chunks, ends with
      exactly the accepted items on the list, in order and described field by field. */
  lemma ChunkedListingRoundTrip(total: Option<(nat, nat, bool)>, items: seq<Item>, chunks: seq<string>, keep: Filter)
    requires forall e :: e in items ==> WellFormed(e)
    requires Flatten(chunks)
          == (if total.Some? then TotalLine(total.value.0, total.value.1, total.value.2) else "") + Listing(items)
    ensures var q := RunChunks(INITIAL, chunks, keep); !q.error && AllDescribe(q.list, Kept(items, keep))
  {
    hide Step, Run, TotalLine, Listing, WellFormed, Describes;
    ChunkIndependence(INITIAL, chunks, keep);
    if total.Some? {
      var line := TotalLine(total.value.0, total.value.1, total.value.2);
      TotalLineSkipped(total.value.0, total.value.1, total.value.2, keep);
      RunAppend(INITIAL, line, Listing(items), keep);
      ListingRoundTrip(Run(INITIAL, line, keep), items, keep);
    } else {
      assert "" + Listing(items) == Listing(items);
      ListingRoundTrip(INITIAL, items, keep);
    }
  }

  /** The same for a transfer in any chunks, with or without a "total" line. */
  lemma ChunkedListingMeaning(total: Option<(nat, nat, bool)>, items: seq<Item>, chunks: seq<string>, keep: Filter)
    requires forall e :: e in items ==> Printable(e)
    requires Flatten(chunks)
          == (if total.Some? then TotalLine(total.value.0, total.value.1, total.value.2) else "") + Listing(items)
    ensures var q := RunChunks(INITIAL, chunks, keep);
      (q.error <==> !AllMean(items)) && AllDescribe(q.list, Kept(ReadItems(items), keep))
  {
    hide Step, Run, TotalLine, Listing, Printable, Describes, Meaning, AllMean;
    ChunkIndependence(INITIAL, chunks, keep);
    if total.Some? {
      var line := TotalLine(total.value.0, total.value.1, total.value.2);
      TotalLineSkipped(total.value.0, total.value.1, total.value.2, keep);
      RunAppend(INITIAL, line, Listing(items), keep);
      ListingMeaning(Run(INITIAL, line, keep), items, keep);
    } else {
      assert "" + Listing(items) == Listing(items);
      ListingMeaning(INITIAL, items, keep);
    }
  }
}
