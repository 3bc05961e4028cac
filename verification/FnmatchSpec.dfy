/** What lib/curl_fnmatch.c means: bracket expressions as character sets, patterns as token
    sequences, and matching as a cut of the name into one piece per token. */
module FnmatchSpec {
  import opened CText
  import opened Wrappers

  type uchar = c: char | c as int < 256 witness 'a'

  type ustring = seq<uchar>

  /** A C string: no NUL before its end, and reading at its end gives NUL. */
  predicate IsCString(s: ustring) { forall i :: 0 <= i < |s| ==> s[i] != NUL }

  function At(s: ustring, k: nat): uchar { if k < |s| then s[k] else NUL }

  // ---- character sets -------------------------------------------------------------------

  /** One flag for each character, then the negation flag and one for each named class. */
  const CHSET_SIZE: nat := 271
  const NEGATE: nat := 256

  type Charset = cs: seq<bool> | |cs| == CHSET_SIZE witness seq(CHSET_SIZE, i => false)

  function EmptySet(): (cs: Charset)
    ensures forall i :: 0 <= i < CHSET_SIZE ==> !cs[i]
  {
    seq(CHSET_SIZE, i => false)
  }

  datatype Class = Alnum | Digit | XDigit | Alpha | Print | Blank | Lower | Graph | Space | Upper

  function ClassIndex(k: Class): (i: nat)
    ensures NEGATE < i < CHSET_SIZE
  {
    match k
    case Alnum => 257 case Digit => 258 case XDigit => 259 case Alpha => 260 case Print => 261
    case Blank => 262 case Lower => 263 case Graph => 264 case Space => 265 case Upper => 266
  }

  function ClassName(k: Class): (s: ustring) {
    match k
    case Alnum => "alnum" case Digit => "digit" case XDigit => "xdigit" case Alpha => "alpha" case Print => "print"
    case Blank => "blank" case Lower => "lower" case Graph => "graph" case Space => "space" case Upper => "upper"
  }

  predicate InClass(k: Class, c: uchar) {
    match k
    case Alnum => IsAlnum(c) case Digit => IsDigit(c) case XDigit => IsXDigit(c) case Alpha => IsAlpha(c)
    case Print => IsPrint(c) case Blank => IsBlank(c) case Lower => IsLower(c) case Graph => IsGraph(c)
    case Space => IsSpace(c) case Upper => IsUpper(c)
  }

  /** Only the first enabled class in this order is asked. */
  const CLASS_ORDER: seq<Class> := [Alnum, Alpha, Digit, XDigit, Print, Space, Upper, Lower, Blank, Graph]

  function FirstClass(cs: Charset, order: seq<Class>): (k: seq<Class>)
    ensures |k| <= 1 && forall x :: x in k ==> x in order && cs[ClassIndex(x)]
  {
    if order == [] then []
    else if cs[ClassIndex(order[0])] then [order[0]]
    else FirstClass(cs, order[1..])
  }

  predicate Member(cs: Charset, c: uchar) {
    var k := FirstClass(cs, CLASS_ORDER);
    var found := cs[c as int] || (k != [] && InClass(k[0], c));
    if cs[NEGATE] then !found else found
  }

  datatype CharClass = OtherClass | DigitClass | UpperClass | LowerClass

  /** charclass, on character codes. */
  function CharClassOf(code: int): CharClass {
    if 'A' as int <= code <= 'Z' as int then UpperClass
    else if 'a' as int <= code <= 'z' as int then LowerClass
    else if '0' as int <= code <= '9' as int then DigitClass
    else OtherClass
  }

  /** The set with every character between lo and hi that has lo's class added. */
  function AddRange(cs: Charset, lo: uchar, hi: uchar): Charset {
    seq(CHSET_SIZE, i requires 0 <= i < CHSET_SIZE =>
      cs[i] || (lo as int <= i <= hi as int && CharClassOf(i) == CharClassOf(lo as int)))
  }

  // ---- the bracket parser: results are the next offset and the new set ---------------------

  function LowerRun(p: ustring, k: nat): (n: nat)
    requires k <= |p|
    ensures k + n <= |p| && (forall i :: k <= i < k + n ==> IsLower(p[i])) && !IsLower(At(p, k + n))
    decreases |p| - k
  {
    if k < |p| && IsLower(p[k]) then 1 + LowerRun(p, k + 1) else 0
  }

  function FindClass(name: ustring, classes: seq<Class>): Option<Class> {
    if classes == [] then None
    else if ClassName(classes[0]) == name then Some(classes[0])
    else FindClass(name, classes[1..])
  }

  /** parsekeyword, from behind "[:". The counter of ten leaves room for eight letters. */
  function ParseKeyword(p: ustring, k: nat, cs: Charset): (r: Option<(nat, Charset)>)
    requires k <= |p|
    ensures r.Some? ==> k < r.value.0 <= |p|
  {
    var n := LowerRun(p, k);
    if n > 8 || At(p, k + n) != ':' || At(p, k + n + 1) != ']' then None
    else
      match FindClass(p[k..k + n], CLASS_ORDER)
      case None => None
      case Some(c) => Some((k + n + 2, cs[ClassIndex(c) := true]))
  }

  /** setcharorrange at a character. */
  function SetCharOrRange(p: ustring, k: nat, cs: Charset): (r: (nat, Charset))
    requires k < |p| && IsCString(p)
    ensures k < r.0 <= |p|
  {
    var c := p[k];
    var one := cs[c as int := true];
    if IsAlnum(c) && At(p, k + 1) == '-' then
      var e := if At(p, k + 2) == '\\' then k + 3 else k + 2;
      if At(p, e) >= c && CharClassOf(At(p, e) as int) == CharClassOf(c as int) then (e + 1, AddRange(one, c, At(p, e)))
      else (k + 1, one)
    else (k + 1, one)
  }

  datatype SetState = InSet | AfterRight | AfterRightLeft

  datatype SetStep = Reject | Accept | Go(k: nat, st: SetState, found: bool, cs: Charset)

  /** One turn of the loop of setcharset. */
  function SetTurn(p: ustring, k: nat, st: SetState, found: bool, cs: Charset): (r: SetStep)
    requires k <= |p| && IsCString(p)
    ensures r == Accept ==> k < |p| && p[k] == ']'
    ensures r.Go? ==> k < r.k <= |p|
  {
    var c := At(p, k);
    if c == NUL then Reject
    else
      var with := cs[c as int := true];
      match st
      case InSet =>
        if c == ']' then
          if found then Accept else Go(k + 1, AfterRight, true, with)
        else if c == '[' then
          var key := if At(p, k + 1) == ':' then ParseKeyword(p, k + 2, cs) else None;
          if key.Some? then Go(key.value.0, InSet, true, key.value.1) else Go(k + 1, InSet, true, with)
        else if c == '^' || c == '!' then
          if found || cs[NEGATE] then Go(k + 1, InSet, true, with)
          else Go(k + 1, InSet, false, cs[NEGATE := true])
        else if c == '\\' then
          if At(p, k + 1) == NUL then Go(k + 1, InSet, true, with)
          else
            var r := SetCharOrRange(p, k + 1, cs);
            Go(r.0, InSet, true, r.1)
        else
          var r := SetCharOrRange(p, k, cs);
          Go(r.0, InSet, true, r.1)
      case AfterRight =>
        if c == '[' then Go(k + 1, AfterRightLeft, found, with)
        else if c == ']' then Accept
        else if IsPrint(c) then Go(k + 1, InSet, found, with)
        else Reject
      case AfterRightLeft =>
        if c == ']' then Accept else Go(k + 1, InSet, found, with)
  }

  /** setcharset: on success the offset of the closing bracket and the set. */
  function SetCharset(p: ustring, k: nat, st: SetState, found: bool, cs: Charset): (r: Option<(nat, Charset)>)
    requires k <= |p| && IsCString(p)
    ensures r.Some? ==> k <= r.value.0 < |p| && p[r.value.0] == ']'
    decreases |p| - k
  {
    var t := SetTurn(p, k, st, found, cs);
    if t == Reject then None
    else if t == Accept then Some((k, cs))
    else SetCharset(p, t.k, t.st, t.found, t.cs)
  }

  // ---- patterns -----------------------------------------------------------------------------

  /** Bad stands for a bracket expression with a syntax error; nothing matches it. */
  datatype Token = Star | Any | Lit(c: uchar) | Set(cs: Charset) | Bad

  function Tokens(p: ustring, k: nat): seq<Token>
    requires k <= |p| && IsCString(p)
    decreases |p| - k
  {
    if k == |p| then []
    else if p[k] == '*' then [Star] + Tokens(p, k + 1)
    else if p[k] == '?' then [Any] + Tokens(p, k + 1)
    else if p[k] == '\\' then
      if At(p, k + 1) != NUL then [Lit(p[k + 1])] + Tokens(p, k + 2) else [Lit('\\')] + Tokens(p, k + 1)
    else if p[k] == '[' then
      var r := SetCharset(p, k + 1, InSet, false, EmptySet());
      if r.None? then [Bad] else [Set(r.value.1)] + Tokens(p, r.value.0 + 1)
    else [Lit(p[k])] + Tokens(p, k + 1)
  }

  /** The strings one token stands for. */
  predicate Fits(t: Token, piece: ustring) {
    match t
    case Star => true
    case Any => |piece| == 1
    case Lit(c) => piece == [c]
    case Set(cs) => |piece| == 1 && Member(cs, piece[0])
    case Bad => false
  }

  function Join(pieces: seq<ustring>): ustring {
    if pieces == [] then [] else pieces[0] + Join(pieces[1..])
  }

  /** The declarative matcher: the name is cut into consecutive pieces, one for each token,
      and every piece fits its token. */
  ghost predicate CutsFit(ts: seq<Token>, s: ustring, pieces: seq<ustring>) {
    && |pieces| == |ts|
    && Join(pieces) == s
    && forall i :: 0 <= i < |ts| ==> Fits(ts[i], pieces[i])
  }

  ghost predicate Matches(ts: seq<Token>, s: ustring) {
    exists pieces :: CutsFit(ts, s, pieces)
  }

  /** A run of stars and question marks that contains a star counts once. */
  function StarGroups(ts: seq<Token>): nat
    decreases |ts|
  {
    if ts == [] then 0
    else if ts[0] == Star then 1 + StarGroups(SkipGroup(ts[1..]))
    else StarGroups(ts[1..])
  }

  function SkipGroup(ts: seq<Token>): (r: seq<Token>)
    ensures |r| <= |ts|
    ensures r != [] ==> r[0] != Star && r[0] != Any
  {
    if ts != [] && (ts[0] == Star || ts[0] == Any) then SkipGroup(ts[1..]) else ts
  }

  // ---- how matching unfolds along a pattern --------------------------------------------------

  lemma MatchesNil(s: ustring)
    ensures Matches([], s) <==> s == []
  {
    if s == [] {
      assert CutsFit([], s, []);
    }
  }

  /** A first piece can be split off. */
  lemma MatchesFirst(t: Token, ts: seq<Token>, s: ustring, k: nat)
    requires k <= |s| && Fits(t, s[..k]) && Matches(ts, s[k..])
    ensures Matches([t] + ts, s)
  {
    var pieces :| CutsFit(ts, s[k..], pieces);
    assert ([s[..k]] + pieces)[1..] == pieces;
    assert s[..k] + s[k..] == s;
    assert CutsFit([t] + ts, s, [s[..k]] + pieces);
  }

  lemma MatchesSplit(t: Token, ts: seq<Token>, s: ustring) returns (k: nat)
    requires Matches([t] + ts, s)
    ensures k <= |s| && Fits(t, s[..k]) && Matches(ts, s[k..])
  {
    var pieces :| CutsFit([t] + ts, s, pieces);
    k := |pieces[0]|;
    assert s[..k] == pieces[0] && s[k..] == Join(pieces[1..]);
    assert forall i :: 0 <= i < |ts| ==> ts[i] == ([t] + ts)[i + 1];
    assert CutsFit(ts, s[k..], pieces[1..]);
  }

  predicate OneChar(t: Token, c: uchar) { t != Star && Fits(t, [c]) }

  /** A token other than a star takes exactly one character. */
  lemma MatchesOne(t: Token, ts: seq<Token>, s: ustring)
    requires t != Star
    ensures Matches([t] + ts, s) <==> s != [] && OneChar(t, s[0]) && Matches(ts, s[1..])
  {
    if s != [] && OneChar(t, s[0]) && Matches(ts, s[1..]) {
      assert s[..1] == [s[0]];
      MatchesFirst(t, ts, s, 1);
    }
    if Matches([t] + ts, s) {
      var k := MatchesSplit(t, ts, s);
      assert k == 1;
      assert s[..1] == [s[0]];
    }
  }

  lemma MatchesBad(ts: seq<Token>, s: ustring)
    ensures !Matches([Bad] + ts, s)
  {
    MatchesOne(Bad, ts, s);
  }

  /** A star takes nothing, or one character and then goes on. */
  lemma MatchesStar(ts: seq<Token>, s: ustring)
    ensures Matches([Star] + ts, s) <==> Matches(ts, s) || (s != [] && Matches([Star] + ts, s[1..]))
  {
    if Matches(ts, s) {
      assert s[0..] == s;
      MatchesFirst(Star, ts, s, 0);
    }
    if s != [] && Matches([Star] + ts, s[1..]) {
      var k := MatchesSplit(Star, ts, s[1..]);
      assert s[1..][k..] == s[k + 1..];
      MatchesFirst(Star, ts, s, k + 1);
    }
    if Matches([Star] + ts, s) {
      var k := MatchesSplit(Star, ts, s);
      if k == 0 {
        assert s[0..] == s;
      } else {
        assert s[1..][k - 1..] == s[k..];
        MatchesFirst(Star, ts, s[1..], k - 1);
      }
    }
  }

  /** A star at the end takes everything. */
  lemma {:induction false} StarTakesAll(s: ustring)
    ensures Matches([Star], s)
    decreases |s|
  {
    MatchesStar([], s);
    assert [Star] + [] == [Star];
    if s == [] {
      MatchesNil(s);
    } else {
      StarTakesAll(s[1..]);
    }
  }

  /** Two stars in a row are one star. */
  lemma {:induction false} StarStar(ts: seq<Token>, s: ustring)
    ensures Matches([Star] + ([Star] + ts), s) <==> Matches([Star] + ts, s)
    decreases |s|
  {
    MatchesStar([Star] + ts, s);
    MatchesStar(ts, s);
    if s != [] {
      StarStar(ts, s[1..]);
    }
  }

  /** "*?" is "?*". */
  lemma {:induction false} StarAny(ts: seq<Token>, s: ustring)
    ensures Matches([Star] + ([Any] + ts), s) <==> s != [] && Matches([Star] + ts, s[1..])
    decreases |s|
  {
    MatchesStar([Any] + ts, s);
    MatchesOne(Any, ts, s);
    if s != [] {
      MatchesStar(ts, s[1..]);
      StarAny(ts, s[1..]);
    }
  }

  /** What follows a star group never matches the empty tail, so the tail may be skipped. */
  lemma NothingLeft(ts: seq<Token>)
    requires ts != [] && ts[0] != Star
    ensures !Matches(ts, [])
  {
    assert ts == [ts[0]] + ts[1..];
    MatchesOne(ts[0], ts[1..], []);
  }
}
