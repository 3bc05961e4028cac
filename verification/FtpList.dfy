/** The LIST response parser of lib/ftplistparser.c, one byte at a time, as a function on
    parser values. FtpListParser.dfy holds the loop over mutable state that refines it. */
module FtpList {
  import opened CText
  import opened Wrappers

  const LONG_MAX: nat := 0x7fff_ffff_ffff_ffff
  const MALFORMED_PERM: nat := 0x0100_0000

  datatype FileType =
    File | Directory | Symlink | NamedPipe | Socket | DeviceChar | DeviceBlock | Door

  datatype OsType = OsUnknown | OsUnix | OsNT

  /** Main state and sub-state of the Unix automaton in one name. */
  datatype UnixState =
    | TotalInit | TotalReading
    | TypeChar
    | Permission
    | HlinksPre | HlinksNumber
    | UserPre | UserParsing
    | GroupPre | GroupName
    | SizePre | SizeNumber
    | TimePre1 | TimePart1 | TimePre2 | TimePart2 | TimePre3 | TimePart3
    | NamePre | NameName | NameWinEol
    | LinkPre | LinkName | LinkPre1 | LinkPre2 | LinkPre3 | LinkPre4 | LinkTarget | LinkWinEol

  /** Main state and sub-state of the Windows NT automaton. */
  datatype NtState =
    | NtDate
    | NtTimePre | NtTime
    | DirOrSizePre | DirOrSizeContent
    | NtNamePre | NtNameContent | NtNameWinEol

  /** Offsets into the line buffer; 0 stands for a NULL pointer where the code tests for it. */
  datatype Offsets = Offsets(filename: nat, user: nat, group: nat, time: nat, perm: nat, target: nat)

  /** The file description under construction: buf is the used part of b_data, and an
      optional field is None while its "known" flag is clear. */
  datatype Info = Info(buf: string, fileType: FileType, perm: Option<nat>, hardlinks: Option<nat>,
                       size: Option<nat>)

  /** A file description as it is put on the list: the strings are pointers into buf. */
  datatype Entry = Entry(info: Info, at: Offsets) {
    function Filename(): string { CStr(info.buf, at.filename) }
    function User(): Option<string> { Pointer(at.user) }
    function Group(): Option<string> { Pointer(at.group) }
    function Time(): string { CStr(info.buf, at.time) }
    function PermString(): Option<string> { Pointer(at.perm) }
    function Target(): Option<string> { Pointer(at.target) }

    function Pointer(offset: nat): Option<string> {
      if offset == 0 then None else Some(CStr(info.buf, offset))
    }

    /** A symlink whose target holds " -> " again is ambiguous and is dropped. */
    predicate AmbiguousLink() {
      info.fileType == Symlink && Target().Some? && Contains(Target().value, " -> ")
    }
  }

  datatype Parser = Parser(os: OsType, unix: UnixState, nt: NtState, error: bool, file: Option<Info>,
                           itemLength: nat, itemOffset: nat, offsets: Offsets, list: seq<Entry>)

  /** Curl_ftp_parselist_data_alloc: everything zero. */
  const INITIAL: Parser :=
    Parser(OsUnknown, TotalInit, NtDate, false, None, 0, 0, Offsets(0, 0, 0, 0, 0, 0), [])

  const FRESH_INFO: Info := Info("", File, None, None, None)

  /** The name filter: does the comparison callback return 0 for this name? */
  type Filter = string -> bool

  // ---- single characters ------------------------------------------------------------

  // strchr also finds the terminator, hence NUL passes both of these tests.
  predicate IsPermChar(c: char) { c == NUL || c in "rwx-tTsS" }

  predicate IsNtDateChar(c: char) { c == NUL || IsDigit(c) || c == '-' }

  predicate IsNtTimeChar(c: char) { c == NUL || IsDigit(c) || c in "APM:" }

  function TypeOf(c: char): Option<FileType> {
    match c
    case '-' => Some(File)
    case 'd' => Some(Directory)
    case 'l' => Some(Symlink)
    case 'p' => Some(NamedPipe)
    case 's' => Some(Socket)
    case 'c' => Some(DeviceChar)
    case 'b' => Some(DeviceBlock)
    case 'D' => Some(Door)
    case _ => None
  }

  /** One of the nine permission characters: the bits it stands for. */
  function PlainBit(c: char, letter: char, bit: nat): nat {
    if c == letter then bit else if c == '-' then 0 else MALFORMED_PERM
  }

  function SpecialBit(c: char, both: char, only: char, bit: nat, special: nat): nat {
    if c == 'x' then bit
    else if c == both then bit + special
    else if c == only then special
    else if c == '-' then 0
    else MALFORMED_PERM
  }

  /** One read/write/execute group whose execute bit has the value unit. */
  function Triad(r: char, w: char, x: char, both: char, only: char, unit: nat, special: nat): nat {
    PlainBit(r, 'r', 4 * unit) + PlainBit(w, 'w', 2 * unit) + SpecialBit(x, both, only, unit, special)
  }

  /** ftp_pl_get_permission; any malformed character makes the result at least MALFORMED_PERM.
      The bits are distinct, so adding them is or-ing them. */
  function GetPermission(s: string): nat
    requires |s| >= 9
  {
    Triad(s[0], s[1], s[2], 's', 'S', 64, 2048) +
    Triad(s[3], s[4], s[5], 's', 'S', 8, 1024) +
    Triad(s[6], s[7], s[8], 't', 'T', 1, 512)
  }

  // ---- numbers ----------------------------------------------------------------------

  datatype OffT = OffOk(value: nat, rest: string) | OffOverflow | OffInvalid

  function SkipSpaces(s: string): string {
    if s != "" && IsSpace(s[0]) then SkipSpaces(s[1..]) else s
  }

  function SkipDigits(s: string): string {
    s[DigitRun(s)..]
  }

  /** strtol on a token: digits up to the first other character, saturating. None when
      the token does not end with the number or the value is LONG_MAX. */
  function LinkCount(s: string): Option<nat> {
    var v := DecValue(s[..DigitRun(s)]);
    if SkipDigits(s) == "" && 0 <= v < LONG_MAX then Some(v) else None
  }

  /** curlx_strtoofft in base 10. */
  function StrToOff(s: string): OffT {
    var t := SkipSpaces(s);
    if t != "" && t[0] == '-' then OffInvalid else
    var u := if t != "" && t[0] == '+' then t[1..] else t;
    var k := DigitRun(u);
    if k == 0 then OffInvalid
    else
      var v := DecValue(u[..k]);
      if v < 0 || v > LONG_MAX then OffOverflow else OffOk(v, u[k..])
  }

  // ---- buffer helpers ---------------------------------------------------------------

  function SetNul(b: string, k: int): (r: string)
    ensures |r| == |b|
  {
    if 0 <= k < |b| then b[k := NUL] else b
  }

  /** The goto fail exit: the unfinished file description is freed. */
  function Fail(p: Parser): Parser { p.(error := true, file := None) }

  function WithBuf(p: Parser, b: string): (q: Parser)
    requires p.file.Some?
    ensures q.file.Some?
  {
    p.(file := Some(p.file.value.(buf := b)))
  }

  /** A file description is allocated when the first byte of a line arrives. */
  function Allocate(p: Parser): (q: Parser)
    ensures q.file.Some?
  {
    if p.file.None? then p.(file := Some(FRESH_INFO), itemOffset := 0, itemLength := 0) else p
  }

  /** Allocate if necessary, then store the byte. */
  function Append(p: Parser, c: char): (q: Parser)
    ensures q.file.Some?
  {
    var q := Allocate(p);
    WithBuf(q, q.file.value.buf + [c])
  }

  function Used(p: Parser): nat
    requires p.file.Some?
  {
    |p.file.value.buf|
  }

  function Grow(p: Parser): Parser { p.(itemLength := p.itemLength + 1) }

  /** Begin a token at the byte just stored. */
  function StartToken(p: Parser, u: UnixState): (q: Parser)
    requires p.file.Some?
    ensures q.file.Some?
  {
    p.(unix := u, itemLength := 1, itemOffset := if Used(p) == 0 then 0 else Used(p) - 1)
  }

  /** Write the token's terminator over its last byte. */
  function EndToken(p: Parser): (q: Parser)
    requires p.file.Some?
    ensures q.file.Some?
  {
    WithBuf(p, SetNul(p.file.value.buf, p.itemOffset + p.itemLength - 1))
  }

  function Token(p: Parser): string
    requires p.file.Some?
  {
    CStr(p.file.value.buf, p.itemOffset)
  }

  function ResetItem(p: Parser): Parser { p.(itemLength := 0, itemOffset := 0) }

  /** Every entry passed the name filter and is not an ambiguous link. */
  predicate Filtered(list: seq<Entry>, keep: Filter) {
    forall e :: e in list ==> keep(e.Filename()) && !e.AmbiguousLink()
  }

  /** One step lists nothing, or one entry that passed the filter. */
  predicate Listed(before: seq<Entry>, after: seq<Entry>, keep: Filter) {
    after == before
    || (|after| == |before| + 1 && before <= after && Filtered([after[|before|]], keep))
  }

  /** ftp_pl_insert_finfo. */
  function Insert(p: Parser, keep: Filter): (q: Parser)
    requires p.file.Some?
    ensures Listed(p.list, q.list, keep)
  {
    var e := Entry(p.file.value, p.offsets);
    p.(file := None,
       list := if keep(e.Filename()) && !e.AmbiguousLink() then p.list + [e] else p.list)
  }

  // ---- the Unix automaton; the byte c has just been stored ----------------------------

  function TotalStep(p: Parser, c: char): Parser
    requires p.file.Some?
  {
    if p.unix == TotalInit then
      if c == 't' then Grow(p.(unix := TotalReading))
      else TypeStep(Append(WithBuf(p, "").(unix := TypeChar), c), c)
    else if c == '\r' then
      WithBuf(p, p.file.value.buf[..if Used(p) == 0 then 0 else Used(p) - 1])
    else
      var q := Grow(p);
      if c == '\n' then EndTotal(q) else q
  }

  /** The whole line must read "total", a space, more white space and digits. */
  function EndTotal(p: Parser): Parser
    requires p.file.Some?
  {
    var b := SetNul(p.file.value.buf, p.itemLength - 1);
    if "total " <= b && SkipDigits(SkipSpaces(CStr(b, 6))) == "" then WithBuf(p, "").(unix := TypeChar)
    else Fail(p)
  }

  function TypeStep(p: Parser, c: char): Parser
    requires p.file.Some?
  {
    match TypeOf(c)
    case None => Fail(p)
    case Some(t) =>
      p.(file := Some(p.file.value.(fileType := t)), unix := Permission, itemLength := 0, itemOffset := 1)
  }

  function PermStep(p: Parser, c: char): Parser
    requires p.file.Some?
  {
    var q := Grow(p);
    if q.itemLength <= 9 then
      if IsPermChar(c) then q else Fail(q)
    else if c != ' ' then Fail(q)
    else EndPerm(q)
  }

  /** The permission text ends at offset 10, behind the type and nine characters. */
  function EndPerm(p: Parser): Parser
    requires p.file.Some?
  {
    var b := SetNul(p.file.value.buf, 10);
    if |b| < 10 || GetPermission(b[1..]) >= MALFORMED_PERM then Fail(p)
    else
      var i := p.file.value.(buf := b, perm := Some(GetPermission(b[1..])));
      p.(file := Some(i), offsets := p.offsets.(perm := p.itemOffset), itemLength := 0, unix := HlinksPre)
  }

  function HlinksStep(p: Parser, c: char): Parser
    requires p.file.Some?
  {
    if p.unix == HlinksPre then
      if c == ' ' then p
      else if IsDigit(c) then StartToken(p, HlinksNumber)
      else Fail(p)
    else
      var q := Grow(p);
      if c == ' ' then
        EndHlinks(EndToken(q))
      else if IsDigit(c) then q
      else Fail(q)
  }

  function EndHlinks(p: Parser): (q: Parser)
    requires p.file.Some?
    ensures q.file.Some? && q.file.value.buf == p.file.value.buf && q.list == p.list
  {
    var i := p.file.value;
    var n := LinkCount(Token(p));
    ResetItem(p.(file := Some(if n.Some? then i.(hardlinks := n) else i), unix := UserPre))
  }

  function UserStep(p: Parser, c: char): Parser
    requires p.file.Some?
  {
    if p.unix == UserPre then
      if c == ' ' then p else StartToken(p, UserParsing)
    else
      var q := Grow(p);
      if c == ' ' then EndUser(EndToken(q)) else q
  }

  function EndUser(p: Parser): Parser {
    ResetItem(p.(offsets := p.offsets.(user := p.itemOffset), unix := GroupPre))
  }

  function GroupStep(p: Parser, c: char): Parser
    requires p.file.Some?
  {
    if p.unix == GroupPre then
      if c == ' ' then p else StartToken(p, GroupName)
    else
      var q := Grow(p);
      if c == ' ' then EndGroup(EndToken(q)) else q
  }

  function EndGroup(p: Parser): Parser {
    ResetItem(p.(offsets := p.offsets.(group := p.itemOffset), unix := SizePre))
  }

  function SizeStep(p: Parser, c: char): Parser
    requires p.file.Some?
  {
    if p.unix == SizePre then
      if c == ' ' then p
      else if IsDigit(c) then StartToken(p, SizeNumber)
      else Fail(p)
    else
      var q := Grow(p);
      if c == ' ' then
        EndSize(EndToken(q))
      else if IsDigit(c) then q
      else Fail(q)
  }

  /** A size that is CURL_OFF_T_MAX itself is left unknown; on a larger one the state stays. */
  function EndSize(p: Parser): (q: Parser)
    requires p.file.Some?
    ensures q.file.Some? && q.file.value.buf == p.file.value.buf && q.list == p.list
  {
    var i := p.file.value;
    match StrToOff(Token(p))
    case OffOk(v, rest) =>
      ResetItem(p.(file := Some(if rest == "" && v != LONG_MAX then i.(size := Some(v)) else i), unix := TimePre1))
    case _ => p
  }

  function TimeStep(p: Parser, c: char): Parser
    requires p.file.Some?
  {
    var q := Grow(p);
    if p.unix == TimePre1 then
      if c == ' ' then p else if IsAlnum(c) then StartToken(p, TimePart1) else Fail(p)
    else if p.unix == TimePre2 || p.unix == TimePre3 then
      if c == ' ' then q
      else if IsAlnum(c) then q.(unix := if p.unix == TimePre2 then TimePart2 else TimePart3)
      else Fail(q)
    else if p.unix == TimePart1 || p.unix == TimePart2 then
      if c == ' ' then q.(unix := if p.unix == TimePart1 then TimePre2 else TimePre3)
      else if IsAlnum(c) || c == '.' then q
      else Fail(q)
    else if c == ' ' then EndTime(EndToken(q))
    else if IsAlnum(c) || c == '.' || c == ':' then q
    else Fail(q)
  }

  function EndTime(p: Parser): Parser
    requires p.file.Some?
  {
    p.(offsets := p.offsets.(time := p.itemOffset),
       unix := if p.file.value.fileType == Symlink then LinkPre else NamePre)
  }

  function NameStep(p: Parser, c: char, keep: Filter): Parser
    requires p.file.Some?
  {
    if p.unix == NamePre then
      if c == ' ' then p else StartToken(p, NameName)
    else if p.unix == NameName then
      var q := Grow(p);
      if c == '\r' then q.(unix := NameWinEol)
      else if c == '\n' then EndName(q, keep)
      else q
    else
      if c == '\n' then EndName(p, keep) else Fail(p)
  }

  function EndName(p: Parser, keep: Filter): (q: Parser)
    requires p.file.Some?
    ensures Listed(p.list, q.list, keep)
  {
    Insert(EndToken(p).(offsets := p.offsets.(filename := p.itemOffset), unix := TypeChar), keep)
  }

  function LinkStep(p: Parser, c: char, keep: Filter): Parser
    requires p.file.Some?
  {
    if p.unix == LinkPre then
      if c == ' ' then p else StartToken(p, LinkName)
    else if p.unix == LinkName then LinkArrow(Grow(p), c, ' ', LinkPre1)
    else if p.unix == LinkPre1 then LinkArrow(Grow(p), c, '-', LinkPre2)
    else if p.unix == LinkPre2 then LinkArrow(Grow(p), c, '>', LinkPre3)
    else if p.unix == LinkPre3 then
      var q := Grow(p);
      if c == ' ' then EndLinkName(q) else LinkArrow(q, c, ' ', LinkPre4)
    else if p.unix == LinkPre4 then
      if c == '\r' || c == '\n' then Fail(p) else StartToken(p, LinkTarget)
    else if p.unix == LinkTarget then
      var q := Grow(p);
      if c == '\r' then q.(unix := LinkWinEol)
      else if c == '\n' then EndTarget(q, keep)
      else q
    else
      if c == '\n' then EndTarget(p, keep) else Fail(p)
  }

  /** The name ends before the " -> " that has just been completed. */
  function EndLinkName(p: Parser): Parser
    requires p.file.Some?
  {
    ResetItem(WithBuf(p, SetNul(p.file.value.buf, p.itemOffset + p.itemLength - 4))
              .(offsets := p.offsets.(filename := p.itemOffset), unix := LinkPre4))
  }

  /** One step towards " -> ": forward on the wanted byte, back to the name on any other. */
  function LinkArrow(q: Parser, c: char, want: char, next: UnixState): Parser {
    if c == want then q.(unix := next)
    else if c == '\r' || c == '\n' then Fail(q)
    else q.(unix := LinkName)
  }

  function EndTarget(p: Parser, keep: Filter): (q: Parser)
    requires p.file.Some?
    ensures Listed(p.list, q.list, keep)
  {
    Insert(EndToken(p).(offsets := p.offsets.(target := p.itemOffset), unix := TypeChar), keep)
  }

  predicate IsTime(u: UnixState) {
    u == TimePre1 || u == TimePart1 || u == TimePre2 || u == TimePart2 || u == TimePre3 || u == TimePart3
  }

  predicate IsLink(u: UnixState) {
    u == LinkPre || u == LinkName || u == LinkPre1 || u == LinkPre2 || u == LinkPre3 || u == LinkPre4
    || u == LinkTarget || u == LinkWinEol
  }

  function UnixStep(p: Parser, c: char, keep: Filter): Parser
    requires p.file.Some?
  {
    var u := p.unix;
    if u == TotalInit || u == TotalReading then TotalStep(p, c)
    else if u == TypeChar then TypeStep(p, c)
    else if u == Permission then PermStep(p, c)
    else if u == HlinksPre || u == HlinksNumber then HlinksStep(p, c)
    else if u == UserPre || u == UserParsing then UserStep(p, c)
    else if u == GroupPre || u == GroupName then GroupStep(p, c)
    else if u == SizePre || u == SizeNumber then SizeStep(p, c)
    else if IsTime(u) then TimeStep(p, c)
    else if IsLink(u) then LinkStep(p, c, keep)
    else NameStep(p, c, keep)
  }

  // ---- the Windows NT automaton -------------------------------------------------------

  function NtStep(p: Parser, c: char, keep: Filter): Parser
    requires p.file.Some?
  {
    match p.nt
    case NtDate =>
      var q := Grow(p);
      if q.itemLength < 9 then
        if IsNtDateChar(c) then q else Fail(q)
      else if q.itemLength == 9 && c == ' ' then q.(nt := NtTimePre)
      else Fail(q)
    case NtTimePre =>
      var q := Grow(p);
      if IsSpace(c) then q else q.(nt := NtTime)
    case NtTime =>
      var q := Grow(p);
      if c == ' ' then
        EndNtTime(EndToken(q))
      else if IsNtTimeChar(c) then q
      else Fail(q)
    case DirOrSizePre =>
      if c == ' ' then p else StartToken(p, p.unix).(nt := DirOrSizeContent)
    case DirOrSizeContent =>
      var q := Grow(p);
      if c != ' ' then q
      else
        EndDirOrSize(EndToken(q))
    case NtNamePre =>
      if c == ' ' then p else StartToken(p, p.unix).(nt := NtNameContent)
    case NtNameContent =>
      var q := Grow(p);
      if c == '\r' then NtEndLine(q).(nt := NtNameWinEol)
      else if c == '\n' then NtEndName(NtEndLine(q), keep)
      else q
    case NtNameWinEol =>
      if c == '\n' then NtEndName(p, keep) else Fail(p)
  }

  function EndNtTime(p: Parser): Parser {
    p.(offsets := p.offsets.(time := p.itemOffset), nt := DirOrSizePre, itemLength := 0)
  }

  /** The line end is overwritten by the terminator of the name. */
  function NtEndLine(p: Parser): (q: Parser)
    requires p.file.Some?
    ensures q.file.Some?
  {
    WithBuf(p, SetNul(p.file.value.buf, Used(p) - 1))
  }

  function EndDirOrSize(p: Parser): (q: Parser)
    requires p.file.Some?
    ensures q.list == p.list
  {
    var i := p.file.value;
    if Token(p) == "<DIR>" then
      p.(file := Some(i.(fileType := Directory, size := Some(0))), itemLength := 0, nt := NtNamePre)
    else
      match StrToOff(Token(p))
      case OffOk(v, _) =>
        p.(file := Some(i.(fileType := File, size := Some(v))), itemLength := 0, nt := NtNamePre)
      case _ => Fail(p)
  }

  function NtEndName(p: Parser, keep: Filter): (q: Parser)
    requires p.file.Some?
    ensures Listed(p.list, q.list, keep)
  {
    Insert(p.(offsets := p.offsets.(filename := p.itemOffset), nt := NtDate), keep)
  }

  // ---- whole input --------------------------------------------------------------------

  /** The response format is guessed from the first byte ever seen. */
  function Detect(p: Parser, c: char): Parser {
    if p.os == OsUnknown then p.(os := if IsDigit(c) then OsNT else OsUnix) else p
  }

  function Step(p: Parser, c: char, keep: Filter): Parser {
    if p.error then p
    else
      var q := Append(Detect(p, c), c);
      if q.os == OsNT then NtStep(q, c, keep) else UnixStep(q, c, keep)
  }

  function Run(p: Parser, s: string, keep: Filter): Parser
    decreases |s|
  {
    if s == "" then p else Run(Step(p, s[0], keep), s[1..], keep)
  }

  /** The write callback is called once for each network chunk. */
  function RunChunks(p: Parser, chunks: seq<string>, keep: Filter): Parser
    decreases |chunks|
  {
    if chunks == [] then p else RunChunks(Run(p, chunks[0], keep), chunks[1..], keep)
  }

  lemma {:induction false} RunAppend(p: Parser, s: string, t: string, keep: Filter)
    ensures Run(p, s + t, keep) == Run(Run(p, s, keep), t, keep)
    decreases |s|
  {
    hide Step;
    if s == "" {
      assert s + t == t;
    } else {
      assert (s + t)[1..] == s[1..] + t;
      RunAppend(Step(p, s[0], keep), s[1..], t, keep);
    }
  }

  /** Cutting the input into chunks has no influence on the final parser: state, error,
      unfinished line and list are those of one call with all the bytes. */
  lemma {:induction false} ChunkIndependence(p: Parser, chunks: seq<string>, keep: Filter)
    ensures RunChunks(p, chunks, keep) == Run(p, Flatten(chunks), keep)
    decreases |chunks|
  {
    hide Step;
    if chunks != [] {
      ChunkIndependence(Run(p, chunks[0], keep), chunks[1..], keep);
      RunAppend(p, chunks[0], Flatten(chunks[1..]), keep);
    }
  }

  /** Once an error is recorded the parser ignores all further input. */
  lemma {:induction false} ErrorIsFinal(p: Parser, s: string, keep: Filter)
    requires p.error
    ensures Run(p, s, keep) == p
    decreases |s|
  {
    if s != "" {
      ErrorIsFinal(p, s[1..], keep);
    }
  }

  // ---- invariants of every reachable parser -------------------------------------------

  /** States that run inside a token: its first byte is at itemOffset, its last one stored. */
  predicate InToken(u: UnixState) {
    || u == HlinksNumber || u == UserParsing || u == GroupName || u == SizeNumber
    || (IsTime(u) && u != TimePre1)
    || (IsLink(u) && u != LinkPre && u != LinkPre4)
    || u == NameName || u == NameWinEol
  }

  /** How much of " -> " is already part of the link name token. */
  function ArrowLength(u: UnixState): nat {
    if u == LinkPre1 then 1 else if u == LinkPre2 then 2 else if u == LinkPre3 then 3 else 0
  }

  predicate UnixInv(p: Parser) {
    var u := p.unix;
    if p.file.None? then u == TotalInit || u == TypeChar
    else
      var used := |p.file.value.buf|;
      if u == TotalReading then p.itemLength == used && 1 <= p.itemLength && p.itemOffset == 0
      else if u == TypeChar then used == 0
      else if u == Permission then p.itemOffset == 1 && used == 1 + p.itemLength && p.itemLength <= 9
      else
        && u != TotalInit
        && 1 <= used
        && (InToken(u) ==> p.itemOffset + p.itemLength == used && ArrowLength(u) < p.itemLength)
  }

  predicate NtInv(p: Parser) {
    var u := p.nt;
    if p.file.None? then u == NtDate
    else
      var used := |p.file.value.buf|;
      && 1 <= used
      && (u == NtDate || u == NtTimePre || u == NtTime ==> p.itemOffset == 0 && p.itemLength == used)
      && (u == DirOrSizeContent || u == NtNameContent ==>
            p.itemOffset + p.itemLength == used && 1 <= p.itemLength)
  }

  predicate AfterUnix(p: Parser) {
    if p.error then p.file.None? else p.os == OsUnix && UnixInv(p)
  }

  predicate AfterNt(p: Parser) {
    if p.error then p.file.None? else p.os == OsNT && NtInv(p)
  }

  /** What holds between two bytes of any run. */
  predicate Inv(p: Parser) {
    || AfterUnix(p)
    || AfterNt(p)
    || (p.os == OsUnknown && p.file.None? && !p.error && p.unix == TotalInit && p.nt == NtDate)
  }

  /** The same facts once the next byte has been stored, which is what UnixStep starts from. */
  predicate StoredInv(p: Parser) {
    p.file.Some? && !p.error && p.os == OsUnix &&
    var u := p.unix;
    var used := |p.file.value.buf|;
    if u == TotalInit then used == 1 && p.itemLength == 0 && p.itemOffset == 0
    else if u == TotalReading then p.itemLength + 1 == used && 1 <= p.itemLength && p.itemOffset == 0
    else if u == TypeChar then used == 1
    else if u == Permission then p.itemOffset == 1 && used == 2 + p.itemLength && p.itemLength <= 9
    else
      && 2 <= used
      && (InToken(u) ==> p.itemOffset + p.itemLength + 1 == used && ArrowLength(u) < p.itemLength)
  }

  lemma AppendStores(p: Parser, c: char)
    requires UnixInv(p) && !p.error && p.os == OsUnix
    ensures StoredInv(Append(p, c))
  {
  }

  lemma HeadKeepsInv(p: Parser, c: char)
    requires StoredInv(p)
    requires p.unix == TotalInit || p.unix == TotalReading
    ensures AfterUnix(TotalStep(p, c))
  {
  }

  lemma TypeKeepsInv(p: Parser, c: char)
    requires StoredInv(p) && p.unix == TypeChar
    ensures AfterUnix(TypeStep(p, c))
  {
  }

  lemma PermKeepsInv(p: Parser, c: char)
    requires StoredInv(p) && p.unix == Permission
    ensures AfterUnix(PermStep(p, c))
  {
    hide GetPermission, IsPermChar;
  }

  lemma EndHlinksKeepsInv(p: Parser)
    requires UnixInv(p) && !p.error && p.os == OsUnix && p.unix == HlinksNumber
    ensures AfterUnix(EndHlinks(p))
  {
  }

  lemma HlinksKeepInv(p: Parser, c: char)
    requires StoredInv(p)
    requires p.unix == HlinksPre || p.unix == HlinksNumber
    ensures AfterUnix(HlinksStep(p, c))
  {
    if p.unix == HlinksNumber && c == ' ' {
      EndHlinksKeepsInv(EndToken(Grow(p)));
    }
  }

  lemma UserKeepsInv(p: Parser, c: char)
    requires StoredInv(p)
    requires p.unix == UserPre || p.unix == UserParsing
    ensures AfterUnix(UserStep(p, c))
  {
  }

  lemma GroupKeepsInv(p: Parser, c: char)
    requires StoredInv(p)
    requires p.unix == GroupPre || p.unix == GroupName
    ensures AfterUnix(GroupStep(p, c))
  {
  }

  lemma EndSizeKeepsInv(p: Parser)
    requires UnixInv(p) && !p.error && p.os == OsUnix && p.unix == SizeNumber
    ensures AfterUnix(EndSize(p))
  {
    hide Token, StrToOff;
  }

  lemma SizeKeepsInv(p: Parser, c: char)
    requires StoredInv(p)
    requires p.unix == SizePre || p.unix == SizeNumber
    ensures AfterUnix(SizeStep(p, c))
  {
    if p.unix == SizeNumber && c == ' ' {
      EndSizeKeepsInv(EndToken(Grow(p)));
    }
  }

  lemma EndTimeKeepsInv(p: Parser)
    requires UnixInv(p) && !p.error && p.os == OsUnix && p.unix == TimePart3
    ensures AfterUnix(EndTime(p))
  {
  }

  lemma TimeEndKeepsInv(p: Parser)
    requires StoredInv(p) && p.unix == TimePart3
    ensures AfterUnix(EndTime(EndToken(Grow(p))))
  {
    hide EndTime;
    EndTimeKeepsInv(EndToken(Grow(p)));
  }

  predicate IsTimePart(u: UnixState) { u == TimePart1 || u == TimePart2 || u == TimePart3 }

  lemma TimePreKeepsInv(p: Parser, c: char)
    requires StoredInv(p) && IsTime(p.unix) && !IsTimePart(p.unix)
    ensures AfterUnix(TimeStep(p, c))
  {
    hide EndTime, EndToken;
  }

  lemma TimePartKeepsInv(p: Parser, c: char)
    requires StoredInv(p) && IsTimePart(p.unix)
    ensures AfterUnix(TimeStep(p, c))
  {
    hide EndTime, EndToken;
    if p.unix == TimePart3 && c == ' ' {
      TimeEndKeepsInv(p);
    }
  }

  lemma TimeKeepsInv(p: Parser, c: char)
    requires StoredInv(p) && IsTime(p.unix)
    ensures AfterUnix(TimeStep(p, c))
  {
    hide TimeStep, AfterUnix, StoredInv;
    if IsTimePart(p.unix) {
      TimePartKeepsInv(p, c);
    } else {
      TimePreKeepsInv(p, c);
    }
  }

  lemma NameKeepsInv(p: Parser, c: char, keep: Filter)
    requires StoredInv(p)
    requires p.unix == NamePre || p.unix == NameName || p.unix == NameWinEol
    ensures AfterUnix(NameStep(p, c, keep))
  {
  }

  lemma EndTargetKeepsInv(p: Parser, keep: Filter)
    requires p.file.Some? && !p.error && p.os == OsUnix
    ensures AfterUnix(EndTarget(p, keep))
  {
  }

  lemma EndLinkNameKeepsInv(p: Parser)
    requires UnixInv(p) && !p.error && p.os == OsUnix && p.unix == LinkPre3 && p.file.Some?
    ensures AfterUnix(EndLinkName(p))
  {
  }

  predicate IsArrow(u: UnixState) { u == LinkName || u == LinkPre1 || u == LinkPre2 || u == LinkPre3 }

  lemma ArrowKeepsInv(p: Parser, c: char, want: char, next: UnixState)
    requires StoredInv(p) && IsArrow(p.unix)
    requires (p.unix == LinkName && next == LinkPre1) || (p.unix == LinkPre1 && next == LinkPre2)
      || (p.unix == LinkPre2 && next == LinkPre3) || (p.unix == LinkPre3 && next == LinkPre4)
    ensures AfterUnix(LinkArrow(Grow(p), c, want, next))
  {
  }

  lemma LinkNameKeepsInv(p: Parser, c: char, keep: Filter)
    requires StoredInv(p) && IsArrow(p.unix)
    ensures AfterUnix(LinkStep(p, c, keep))
  {
    hide EndTarget, EndLinkName, LinkArrow, AfterUnix;
    if p.unix == LinkPre3 && c == ' ' {
      LinkGrown(p);
      EndLinkNameKeepsInv(Grow(p));
    } else if p.unix == LinkName {
      ArrowKeepsInv(p, c, ' ', LinkPre1);
    } else if p.unix == LinkPre1 {
      ArrowKeepsInv(p, c, '-', LinkPre2);
    } else if p.unix == LinkPre2 {
      ArrowKeepsInv(p, c, '>', LinkPre3);
    } else {
      ArrowKeepsInv(p, c, ' ', LinkPre4);
    }
  }

  lemma LinkGrown(p: Parser)
    requires StoredInv(p) && p.unix == LinkPre3
    ensures UnixInv(Grow(p)) && Grow(p).unix == LinkPre3 && Grow(p).file.Some? && !Grow(p).error && Grow(p).os == OsUnix
  {
  }

  lemma TargetStartKeepsInv(p: Parser, c: char, keep: Filter)
    requires StoredInv(p) && (p.unix == LinkPre || p.unix == LinkPre4)
    ensures AfterUnix(LinkStep(p, c, keep))
  {
    hide EndTarget, EndLinkName, LinkArrow;
  }

  lemma TargetFeed(p: Parser, keep: Filter)
    requires p.file.Some? && (p.unix == LinkTarget || p.unix == LinkWinEol)
    ensures LinkStep(p, '\n', keep) == EndTarget(if p.unix == LinkTarget then Grow(p) else p, keep)
    ensures Grow(p).file == p.file && Grow(p).error == p.error && Grow(p).os == p.os
  {
    hide EndTarget, EndLinkName, LinkArrow;
  }

  lemma TargetTextKeepsInv(p: Parser, c: char, keep: Filter)
    requires StoredInv(p) && (p.unix == LinkTarget || p.unix == LinkWinEol) && c != '\n'
    ensures AfterUnix(LinkStep(p, c, keep))
  {
    hide EndTarget, EndLinkName, LinkArrow;
  }

  lemma TargetEndKeepsInv(p: Parser, c: char, keep: Filter)
    requires StoredInv(p) && (p.unix == LinkTarget || p.unix == LinkWinEol)
    ensures AfterUnix(LinkStep(p, c, keep))
  {
    hide LinkStep, EndTarget, AfterUnix, Grow;
    if c == '\n' {
      TargetFeed(p, keep);
      EndTargetKeepsInv(if p.unix == LinkTarget then Grow(p) else p, keep);
    } else {
      TargetTextKeepsInv(p, c, keep);
    }
  }

  lemma LinkKeepsInv(p: Parser, c: char, keep: Filter)
    requires StoredInv(p) && IsLink(p.unix)
    ensures AfterUnix(LinkStep(p, c, keep))
  {
    hide LinkStep, AfterUnix, StoredInv;
    if IsArrow(p.unix) {
      LinkNameKeepsInv(p, c, keep);
    } else if p.unix == LinkPre || p.unix == LinkPre4 {
      TargetStartKeepsInv(p, c, keep);
    } else {
      TargetEndKeepsInv(p, c, keep);
    }
  }

  lemma EndDirOrSizeKeepsInv(p: Parser)
    requires !p.error && p.os == OsNT && p.file.Some? && p.file.value.buf != ""
    ensures AfterNt(EndDirOrSize(p))
  {
  }

  lemma NtKeepsInv(p: Parser, c: char, keep: Filter)
    requires NtInv(p) && !p.error && p.os == OsNT
    ensures AfterNt(NtStep(Append(p, c), c, keep))
  {
    if p.nt == DirOrSizeContent && c == ' ' {
      EndDirOrSizeKeepsInv(EndToken(Grow(Append(p, c))));
    }
  }

  lemma UnixKeepsInv(p: Parser, c: char, keep: Filter)
    requires StoredInv(p)
    ensures AfterUnix(UnixStep(p, c, keep))
  {
    hide TotalStep, TypeStep, PermStep, HlinksStep, UserStep, GroupStep, SizeStep, TimeStep, NameStep, LinkStep;
    var u := p.unix;
    if u == TotalInit || u == TotalReading {
      HeadKeepsInv(p, c);
    } else if u == TypeChar {
      TypeKeepsInv(p, c);
    } else if u == Permission {
      PermKeepsInv(p, c);
    } else if u == HlinksPre || u == HlinksNumber {
      HlinksKeepInv(p, c);
    } else if u == UserPre || u == UserParsing {
      UserKeepsInv(p, c);
    } else if u == GroupPre || u == GroupName {
      GroupKeepsInv(p, c);
    } else if u == SizePre || u == SizeNumber {
      SizeKeepsInv(p, c);
    } else if IsTime(u) {
      TimeKeepsInv(p, c);
    } else if IsLink(u) {
      LinkKeepsInv(p, c, keep);
    } else {
      NameKeepsInv(p, c, keep);
    }
  }

  lemma StepKeepsInv(p: Parser, c: char, keep: Filter)
    requires Inv(p)
    ensures Inv(Step(p, c, keep)) && (p.error || Step(p, c, keep).error || Step(p, c, keep).os == Detect(p, c).os)
  {
    hide UnixStep, NtStep;
    if !p.error {
      if Detect(p, c).os == OsNT {
        NtKeepsInv(Detect(p, c), c, keep);
      } else {
        AppendStores(Detect(p, c), c);
        UnixKeepsInv(Append(Detect(p, c), c), c, keep);
      }
    }
  }

  /** The re-scan: a first byte other than 't' is dropped and read again as a file type. */
  lemma Rescan(p: Parser, c: char, keep: Filter)
    requires UnixInv(p) && !p.error && p.os == OsUnix && p.unix == TotalInit && c != 't'
    ensures AfterUnix(WithBuf(Append(p, c), "").(unix := TypeChar))
    ensures Step(WithBuf(Append(p, c), "").(unix := TypeChar), c, keep) == Step(p, c, keep)
  {
  }

  lemma {:induction false} RunKeepsInv(p: Parser, s: string, keep: Filter)
    requires Inv(p)
    ensures Inv(Run(p, s, keep))
    decreases |s|
  {
    hide Step, Inv;
    if s != "" {
      StepKeepsInv(p, s[0], keep);
      RunKeepsInv(Step(p, s[0], keep), s[1..], keep);
    }
  }

  lemma QuietHead(p: Parser, c: char)
    requires p.file.Some?
    ensures TotalStep(p, c).list == TypeStep(p, c).list == PermStep(p, c).list == p.list
  {
    hide GetPermission, SkipDigits, SkipSpaces, CStr;
  }

  lemma QuietFields(p: Parser, c: char)
    requires p.file.Some?
    ensures HlinksStep(p, c).list == UserStep(p, c).list == GroupStep(p, c).list == SizeStep(p, c).list == p.list
  {
    hide EndHlinks, EndSize;
  }

  lemma QuietTime(p: Parser, c: char)
    requires p.file.Some?
    ensures TimeStep(p, c).list == p.list
  {
  }

  lemma NameLists(p: Parser, c: char, keep: Filter)
    requires p.file.Some?
    ensures Listed(p.list, NameStep(p, c, keep).list, keep)
  {
  }

  lemma LinkLists(p: Parser, c: char, keep: Filter)
    requires p.file.Some?
    ensures Listed(p.list, LinkStep(p, c, keep).list, keep)
  {
  }

  lemma NtLists(p: Parser, c: char, keep: Filter)
    requires p.file.Some?
    ensures Listed(p.list, NtStep(p, c, keep).list, keep)
  {
  }

  lemma UnixLists(p: Parser, c: char, keep: Filter)
    requires p.file.Some?
    ensures Listed(p.list, UnixStep(p, c, keep).list, keep)
  {
    hide TotalStep, TypeStep, PermStep, HlinksStep, UserStep, GroupStep, SizeStep, TimeStep, NameStep, LinkStep;
    if IsLink(p.unix) {
      LinkLists(p, c, keep);
    } else if p.unix == NamePre || p.unix == NameName || p.unix == NameWinEol {
      NameLists(p, c, keep);
    } else {
      QuietHead(p, c);
      QuietFields(p, c);
      QuietTime(p, c);
    }
  }

  lemma StepLists(p: Parser, c: char, keep: Filter)
    ensures Listed(p.list, Step(p, c, keep).list, keep)
  {
    hide UnixStep, NtStep;
    if !p.error {
      var q := Append(Detect(p, c), c);
      if q.os == OsNT {
        NtLists(q, c, keep);
      } else {
        UnixLists(q, c, keep);
      }
    }
  }

  lemma ListedKeepsFiltered(before: seq<Entry>, after: seq<Entry>, keep: Filter)
    requires Listed(before, after, keep) && Filtered(before, keep)
    ensures before <= after && Filtered(after, keep)
  {
    if after != before {
      assert after == before + [after[|before|]];
      assert after[|before|] in [after[|before|]];
    }
  }

  /** Listing an entry never reorders or drops an earlier one, and the filter is obeyed. */
  lemma {:induction false} ListOnlyGrows(p: Parser, s: string, keep: Filter)
    requires Filtered(p.list, keep)
    ensures p.list <= Run(p, s, keep).list && Filtered(Run(p, s, keep).list, keep)
    decreases |s|
  {
    if s != "" {
      hide Step;
      var q := Step(p, s[0], keep);
      StepLists(p, s[0], keep);
      ListedKeepsFiltered(p.list, q.list, keep);
      ListOnlyGrows(q, s[1..], keep);
    }
  }
}
