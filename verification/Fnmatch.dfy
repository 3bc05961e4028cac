/** The matcher of lib/curl_fnmatch.c: offsets advance through pattern and name, the bracket
    parser fills a flag array in place, and a star group tries every suffix of the name. */
module Fnmatch {
  import opened CText
  import opened Wrappers
  import opened FnmatchSpec

  /** The flag array as a set value. */
  ghost function SetOf(charset: array<bool>): Charset
    reads charset
    requires charset.Length == CHSET_SIZE
  {
    charset[..]
  }

  /** parsekeyword: k stands behind "[:"; the flag of the class is raised on success only. */
  method ParseKeyword(p: ustring, k: nat, charset: array<bool>) returns (r: Option<nat>)
    requires k <= |p| && charset.Length == CHSET_SIZE
    modifies charset
    ensures var spec := FnmatchSpec.ParseKeyword(p, k, old(SetOf(charset)));
      if spec.Some? then r == Some(spec.value.0) && SetOf(charset) == spec.value.1
      else r.None? && SetOf(charset) == old(SetOf(charset))
  {
    hide FindClass, ClassIndex, ClassName;
    var i, colon, found := 0, false, false;
    while !found
      invariant 0 <= i <= 10 && k + i <= |p| && charset[..] == old(charset[..])
      invariant !colon && !found ==> LowerRun(p, k) == i + LowerRun(p, k + i)
      invariant colon || found ==> i >= 1
      invariant colon && !found ==> LowerRun(p, k) == i - 1 && At(p, k + i - 1) == ':'
      invariant found ==> colon && LowerRun(p, k) == i - 2 && At(p, k + i - 2) == ':' && At(p, k + i - 1) == ']'
      decreases 10 - i, if found then 0 else 1
    {
      var c := At(p, k + i);
      if i >= 10 {
        return None;
      }
      if !colon {
        if IsLower(c) {
        } else if c == ':' {
          colon := true;
        } else {
          return None;
        }
      } else if c == ']' {
        found := true;
      } else {
        return None;
      }
      i := i + 1;
    }
    var named := FindClass(p[k..k + i - 2], CLASS_ORDER);
    if named.None? {
      return None;
    }
    charset[ClassIndex(named.value)] := true;
    r := Some(k + i);
  }

  /** setcharorrange: includes a character or a range, one flag at a time. */
  method SetCharOrRange(p: ustring, k: nat, charset: array<bool>) returns (next: nat)
    requires k < |p| && IsCString(p) && charset.Length == CHSET_SIZE
    modifies charset
    ensures (next, SetOf(charset)) == FnmatchSpec.SetCharOrRange(p, k, old(SetOf(charset)))
  {
    next := k + 1;
    var c := p[k];
    charset[c as int] := true;
    ghost var one := charset[..];
    if IsAlnum(c) && At(p, k + 1) == '-' {
      var cc := CharClassOf(c as int);
      var e := k + 2;
      if At(p, e) == '\\' {
        e := e + 1;
      }
      var endrange := At(p, e);
      if endrange >= c && CharClassOf(endrange as int) == cc {
        var x := c as int;
        while x != endrange as int
          invariant c as int <= x <= endrange as int
          invariant forall i :: 0 <= i < CHSET_SIZE ==>
            charset[i] == (one[i] || (c as int <= i <= x && CharClassOf(i) == cc))
          decreases endrange as int - x
        {
          x := x + 1;
          if CharClassOf(x) == cc {
            charset[x] := true;
          }
        }
        assert charset[..] == AddRange(one, c, endrange);
        next := e + 1;
      }
    }
  }

  /** setcharset: k stands behind the opening bracket. */
  method SetCharset(p: ustring, k0: nat, charset: array<bool>) returns (r: Option<nat>)
    requires k0 <= |p| && IsCString(p) && charset.Length == CHSET_SIZE
    modifies charset
    ensures var spec := FnmatchSpec.SetCharset(p, k0, InSet, false, EmptySet());
      if spec.Some? then r == Some(spec.value.0) && SetOf(charset) == spec.value.1 else r.None?
  {
    var z := 0;
    while z < CHSET_SIZE
      invariant 0 <= z <= CHSET_SIZE && forall i :: 0 <= i < z ==> !charset[i]
    {
      charset[z] := false;
      z := z + 1;
    }
    assert charset[..] == EmptySet();
    var k, st, found := k0, InSet, false;
    ghost var target := FnmatchSpec.SetCharset(p, k0, InSet, false, EmptySet());
    while true
      invariant k0 <= k <= |p|
      invariant FnmatchSpec.SetCharset(p, k, st, found, SetOf(charset)) == target
      decreases |p| - k
    {
      var t := SetTurn(p, k, st, found, charset);
      match t
      case Reject => return None;
      case Accept => return Some(k);
      case Go(k1, st1, found1, _) => k, st, found := k1, st1, found1;
    }
  }

  /** One turn of the loop of setcharset; on Go the array holds the new set. */
  method SetTurn(p: ustring, k: nat, st: SetState, found: bool, charset: array<bool>) returns (t: SetStep)
    requires k <= |p| && IsCString(p) && charset.Length == CHSET_SIZE
    modifies charset
    ensures t == FnmatchSpec.SetTurn(p, k, st, found, old(SetOf(charset)))
    ensures t.Go? ==> SetOf(charset) == t.cs
    ensures !t.Go? ==> SetOf(charset) == old(SetOf(charset))
  {
    var c := At(p, k);
    if c == NUL {
      return Reject;
    }
    var key: Option<nat> := None;
    match st
    case InSet =>
      if c == ']' {
        if found {
          return Accept;
        }
        charset[c as int] := true;
        return Go(k + 1, AfterRight, true, charset[..]);
      } else if c == '[' {
        if At(p, k + 1) == ':' {
          key := ParseKeyword(p, k + 2, charset);
        }
        if key.Some? {
          return Go(key.value, InSet, true, charset[..]);
        }
      } else if c == '^' || c == '!' {
        if !found && !charset[NEGATE] {
          charset[NEGATE] := true;
          return Go(k + 1, InSet, false, charset[..]);
        }
      } else if c == '\\' {
        if At(p, k + 1) != NUL {
          var next := SetCharOrRange(p, k + 1, charset);
          return Go(next, InSet, true, charset[..]);
        }
      } else {
        var next := SetCharOrRange(p, k, charset);
        return Go(next, InSet, true, charset[..]);
      }
      charset[c as int] := true;
      t := Go(k + 1, InSet, true, charset[..]);
    case AfterRight =>
      if c == ']' {
        return Accept;
      } else if c != '[' && !IsPrint(c) {
        return Reject;
      }
      charset[c as int] := true;
      t := Go(k + 1, if c == '[' then AfterRightLeft else InSet, found, charset[..]);
    case AfterRightLeft =>
      if c == ']' {
        return Accept;
      }
      charset[c as int] := true;
      t := Go(k + 1, InSet, found, charset[..]);
  }

  /** CURL_FNMATCH_MATCH is the answer true. */
  ghost predicate Answer(p: ustring, k: nat, s: ustring, maxstars: nat)
    requires k <= |p| && IsCString(p)
  {
    Matches(Tokens(p, k), s) && StarGroups(Tokens(p, k)) <= maxstars
  }

  /** How often loop may be entered for a name of length n. */
  function Budget(n: nat, maxstars: nat): nat {
    if maxstars == 0 then 1 else 1 + n * Budget(n, maxstars - 1)
  }

  lemma {:induction false} BudgetGrows(n: nat, m: nat, stars: nat)
    requires n <= m
    ensures 1 <= Budget(n, stars) <= Budget(m, stars)
  {
    if stars > 0 {
      BudgetGrows(n, m, stars - 1);
      MulGrows(n, m, Budget(n, stars - 1), Budget(m, stars - 1));
    }
  }

  lemma MulGrows(a: nat, b: nat, x: nat, y: nat)
    requires a <= b && x <= y
    ensures a * x <= b * y
  {
    assert a * x <= b * x <= b * y;
  }

  /** The first token and the offset behind it; a literal star or question mark is not one. */
  lemma PlainToken(p: ustring, k: nat)
    requires k < |p| && IsCString(p) && p[k] != '*' && p[k] != '?'
    ensures Tokens(p, k) != [] && Tokens(p, k)[0] != Star && Tokens(p, k)[0] != Any
  {
  }

  /** The name after n characters, for the recursive view of Matches. */
  lemma Tail(s: ustring, i: nat)
    requires i < |s|
    ensures s[i..] != [] && s[i..][0] == s[i] && s[i..][1..] == s[i + 1..]
  {
  }

  /** One token of the pattern against one character of the name. */
  lemma OneStep(p: ustring, k: nat, t: Token, next: nat, s: ustring, i: nat, maxstars: nat)
    requires k < next <= |p| && IsCString(p) && i <= |s| && t != Star
    requires Tokens(p, k) == [t] + Tokens(p, next)
    ensures Answer(p, k, s[i..], maxstars)
       <==> i < |s| && OneChar(t, s[i]) && Answer(p, next, s[i + 1..], maxstars)
  {
    MatchesOne(t, Tokens(p, next), s[i..]);
    assert ([t] + Tokens(p, next))[1..] == Tokens(p, next);
    if i < |s| {
      Tail(s, i);
    }
  }

  lemma BadStep(p: ustring, k: nat, s: ustring, maxstars: nat)
    requires k <= |p| && IsCString(p) && Tokens(p, k) == [Bad]
    ensures !Answer(p, k, s, maxstars)
  {
    MatchesBad([], s);
    assert [Bad] + [] == [Bad];
  }

  /** The state of the regrouping loop: a star has been read and the tokens from k on follow. */
  ghost predicate AfterStar(p: ustring, k: nat, s: ustring, maxstars: nat)
    requires k <= |p| && IsCString(p)
  {
    Matches([Star] + Tokens(p, k), s) && 1 + StarGroups(SkipGroup(Tokens(p, k))) <= maxstars
  }

  lemma StarRead(p: ustring, k: nat, s: ustring, maxstars: nat)
    requires k < |p| && IsCString(p) && p[k] == '*'
    ensures Answer(p, k, s, maxstars) <==> AfterStar(p, k + 1, s, maxstars)
  {
  }

  lemma StarAgain(p: ustring, k: nat, s: ustring, maxstars: nat)
    requires k < |p| && IsCString(p) && p[k] == '*'
    ensures AfterStar(p, k, s, maxstars) <==> AfterStar(p, k + 1, s, maxstars)
  {
    StarStar(Tokens(p, k + 1), s);
  }

  lemma QuestionMark(p: ustring, k: nat, s: ustring, maxstars: nat)
    requires k < |p| && IsCString(p) && p[k] == '?'
    ensures AfterStar(p, k, s, maxstars) <==> s != [] && AfterStar(p, k + 1, s[1..], maxstars)
  {
    StarAny(Tokens(p, k + 1), s);
  }

  lemma StarAtEnd(p: ustring, s: ustring, maxstars: nat)
    requires IsCString(p) && maxstars > 0
    ensures AfterStar(p, |p|, s, maxstars)
  {
    StarTakesAll(s);
    assert [Star] + [] == [Star];
  }

  /** Regroups consecutive stars and question marks, since "*?*?*" can be expressed as "??*".
      done is set when that alone decides the match; else k is at a plain token. */
  method Regroup(p: ustring, k0: nat, s: ustring, i0: nat, ghost maxstars: nat)
    returns (done: bool, m: bool, k: nat, i: nat)
    requires k0 < |p| && IsCString(p) && p[k0] == '*' && i0 <= |s| && maxstars > 0
    ensures done ==> m == Answer(p, k0, s[i0..], maxstars)
    ensures !done ==> k0 < k < |p| && p[k] != '*' && p[k] != '?' && i0 <= i <= |s|
    ensures !done ==> AfterStar(p, k, s[i..], maxstars) == Answer(p, k0, s[i0..], maxstars)
  {
    hide AfterStar, Answer;
    k, i, done, m := k0, i0, false, false;
    StarRead(p, k0, s[i0..], maxstars);
    while true
      invariant k0 <= k < |p| && i0 <= i <= |s| && !done
      invariant AfterStar(p, k + 1, s[i..], maxstars) == Answer(p, k0, s[i0..], maxstars)
      decreases |p| - k
    {
      k := k + 1;
      if k == |p| {
        StarAtEnd(p, s[i..], maxstars);
        return true, true, k, i;
      }
      if p[k] == '?' {
        QuestionMark(p, k, s[i..], maxstars);
        if i == |s| {
          return true, false, k, i;
        }
        Tail(s, i);
        i := i + 1;
      } else if p[k] == '*' {
        StarAgain(p, k, s[i..], maxstars);
      } else {
        return;
      }
    }
  }

  /** Skips characters of the name until the rest of the pattern matches. */
  method TrySuffixes(p: ustring, k: nat, s: ustring, i0: nat, maxstars: nat) returns (m: bool, ghost calls: nat)
    requires k < |p| && IsCString(p) && p[k] != '*' && p[k] != '?' && i0 <= |s| && IsCString(s) && maxstars > 0
    ensures m == AfterStar(p, k, s[i0..], maxstars)
    ensures calls <= (|s| - i0) * Budget(|s| - i0, maxstars - 1)
    decreases maxstars - 1, 2
  {
    ghost var ts := Tokens(p, k);
    ghost var each := Budget(|s| - i0, maxstars - 1);
    PlainToken(p, k);
    calls := 0;
    var i := i0;
    while i < |s|
      invariant i0 <= i <= |s| && calls <= (i - i0) * each
      invariant (Matches([Star] + ts, s[i..]) && StarGroups(ts) <= maxstars - 1) == AfterStar(p, k, s[i0..], maxstars)
    {
      var found;
      ghost var n;
      found, n := Loop(p, k, s, i, maxstars - 1);
      BudgetGrows(|s| - i, |s| - i0, maxstars - 1);
      assert (i - i0) * each + each == (i - i0 + 1) * each;
      calls := calls + n;
      MatchesStar(ts, s[i..]);
      if found {
        MulGrows(i - i0 + 1, |s| - i0, each, each);
        return true, calls;
      }
      Tail(s, i);
      i := i + 1;
    }
    MatchesStar(ts, s[i..]);
    NothingLeft(ts);
    return false, calls;
  }

  /** loop: does the rest of the pattern match the rest of the name within maxstars star
      groups? calls counts the entries into this method, itself included. */
  method Loop(p: ustring, k0: nat, s: ustring, i0: nat, maxstars: nat) returns (m: bool, ghost calls: nat)
    requires k0 <= |p| && IsCString(p) && i0 <= |s| && IsCString(s)
    ensures m == Answer(p, k0, s[i0..], maxstars)
    ensures 1 <= calls <= Budget(|s| - i0, maxstars)
    decreases maxstars, 1
  {
    calls := 1;
    BudgetGrows(0, |s| - i0, maxstars);
    var k, i := k0, i0;
    var charset := new bool[CHSET_SIZE];
    while true
      invariant k0 <= k <= |p| && i0 <= i <= |s|
      invariant Answer(p, k, s[i..], maxstars) == Answer(p, k0, s[i0..], maxstars)
      decreases |p| - k
    {
      if k == |p| {
        MatchesNil(s[i..]);
        return i == |s|, 1;
      } else if p[k] == '*' {
        if maxstars == 0 {
          StarRead(p, k, s[i..], maxstars);
          return false, 1;
        }
        var done, answer, k1, i1 := Regroup(p, k, s, i, maxstars);
        if done {
          return answer, 1;
        }
        ghost var n;
        m, n := TrySuffixes(p, k1, s, i1, maxstars);
        BudgetGrows(|s| - i1, |s| - i0, maxstars - 1);
        MulGrows(|s| - i1, |s| - i0, Budget(|s| - i1, maxstars - 1), Budget(|s| - i0, maxstars - 1));
        return m, 1 + n;
      }
      var next, fits := Advance(p, k, s, i, charset, maxstars);
      if !fits {
        return false, 1;
      }
      i, k := i + 1, next;
    }
  }

  /** One token that takes one character: "?", a bracket expression, or a literal. */
  method Advance(p: ustring, k: nat, s: ustring, i: nat, charset: array<bool>, ghost maxstars: nat)
    returns (next: nat, fits: bool)
    requires k < |p| && IsCString(p) && p[k] != '*' && i <= |s| && charset.Length == CHSET_SIZE
    modifies charset
    ensures fits ==> i < |s| && k < next <= |p|
    ensures fits ==> Answer(p, k, s[i..], maxstars) == Answer(p, next, s[i + 1..], maxstars)
    ensures !fits ==> !Answer(p, k, s[i..], maxstars)
  {
    hide Answer, Member;
    next, fits := k + 1, false;
    if p[k] == '?' {
      OneStep(p, k, Any, next, s, i, maxstars);
      fits := i < |s|;
    } else if p[k] == '[' {
      next, fits := AdvanceSet(p, k, s, i, charset, maxstars);
    } else {
      var at := k;
      if p[k] == '\\' && At(p, k + 1) != NUL {
        at, next := k + 1, k + 2;
      }
      OneStep(p, k, Lit(p[at]), next, s, i, maxstars);
      fits := i < |s| && p[at] == s[i];
    }
  }

  method AdvanceSet(p: ustring, k: nat, s: ustring, i: nat, charset: array<bool>, ghost maxstars: nat)
    returns (next: nat, fits: bool)
    requires k < |p| && IsCString(p) && p[k] == '[' && i <= |s| && charset.Length == CHSET_SIZE
    modifies charset
    ensures fits ==> i < |s| && k < next <= |p|
    ensures fits ==> Answer(p, k, s[i..], maxstars) == Answer(p, next, s[i + 1..], maxstars)
    ensures !fits ==> !Answer(p, k, s[i..], maxstars)
  {
    hide Answer, Member, FnmatchSpec.SetCharset;
    next, fits := k + 1, false;
    var r := SetCharset(p, k + 1, charset);
    if r.None? {
      BadStep(p, k, s[i..], maxstars);
    } else {
      next := r.value + 1;
      OneStep(p, k, Set(SetOf(charset)), next, s, i, maxstars);
      if i < |s| {
        fits := IsMember(charset, s[i]);
      }
    }
  }

  /** The membership test: the character's own flag, else the first class that is enabled. */
  method IsMember(charset: array<bool>, c: uchar) returns (found: bool)
    requires charset.Length == CHSET_SIZE
    ensures found == Member(SetOf(charset), c)
  {
    found := charset[c as int];
    if !found {
      var k := 0;
      while k < |CLASS_ORDER|
        invariant 0 <= k <= |CLASS_ORDER|
        invariant FirstClass(SetOf(charset), CLASS_ORDER) == FirstClass(SetOf(charset), CLASS_ORDER[k..])
      {
        if charset[ClassIndex(CLASS_ORDER[k])] {
          found := InClass(CLASS_ORDER[k], c);
          break;
        }
        k := k + 1;
      }
    }
    if charset[NEGATE] {
      found := !found;
    }
  }

  datatype Verdict = Match | NoMatch | Failed

  /** Curl_fnmatch: a missing argument is an error, two star groups are the limit. */
  method CurlFnmatch(pattern: Option<ustring>, name: Option<ustring>) returns (v: Verdict, ghost calls: nat)
    requires pattern.Some? ==> IsCString(pattern.value)
    requires name.Some? ==> IsCString(name.value)
    ensures v == Failed <==> pattern.None? || name.None?
    ensures pattern.Some? && name.Some? ==>
      var ts := Tokens(pattern.value, 0);
      (v == Match <==> Matches(ts, name.value) && StarGroups(ts) <= 2)
    ensures name.Some? ==> var n := |name.value|; calls <= 1 + n + n * n
  {
    calls := 0;
    if pattern.None? || name.None? {
      return Failed, 0;
    }
    var m;
    m, calls := Loop(pattern.value, 0, name.value, 0, 2);
    assert name.value[0..] == name.value;
    TwoStarBudget(|name.value|);
    v := if m then Match else NoMatch;
  }

  lemma TwoStarBudget(n: nat)
    ensures Budget(n, 2) == 1 + n + n * n
  {
    assert Budget(n, 0) == 1;
    assert Budget(n, 1) == 1 + n;
    assert n * (1 + n) == n + n * n;
  }
}
