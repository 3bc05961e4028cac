/** Matching a certificate name against a host name (lib/hostcheck.c; section 6.4.3 of RFC 6125). */
module Hostcheck {
  import opened CText

  /** strncasecompare with n characters that both strings have. */
  predicate SameStart(a: string, b: string, n: nat) {
    n <= |a| && n <= |b| && SameNoCase(a[..n], b[..n])
  }

  /** A name without one dot at its end. */
  function Trimmed(s: string): string {
    if s != "" && s[|s| - 1] == '.' then s[..|s| - 1] else s
  }

  /** The wildcard counts: in the first label, with two more dots, and not in an "xn--" name. */
  predicate Enabled(p: string) {
    var dot := Index(p, '.');
    && Index(p, '*') < dot && dot < |p|
    && '.' in p[dot + 1..]
    && !SameStart(p, "xn--", 4)
  }

  /** The host is pre w suf rest for some w without dots that is not empty. */
  ghost predicate WildcardMatch(pre: string, suf: string, rest: string, h: string) {
    exists w :: w != "" && '.' !in w && SameNoCase(h, pre + w + suf + rest)
  }

  /** The rule, for names that have lost their trailing dots and a pattern pre*suf.rest. */
  ghost predicate Matches(p: string, h: string, isIp: string -> bool) {
    var star, dot := Index(p, '*'), Index(p, '.');
    if '*' in p && isIp(h) then false
    else if Enabled(p) then WildcardMatch(p[..star], p[star + 1..dot], p[dot..], h)
    else SameNoCase(p, h)
  }

  /** What the comparisons for an enabled wildcard establish. */
  predicate LabelsMatch(pre: string, suf: string, rest: string, h: string) {
    var end := Index(h, '.');
    && end < |h| && SameNoCase(rest, h[end..])
    && |pre| + 1 + |suf| <= end
    && SameNoCase(pre, h[..|pre|]) && SameNoCase(suf, h[end - |suf|..end])
  }

  lemma SameSlice(a: string, b: string, i: nat, j: nat)
    requires SameNoCase(a, b) && i <= j <= |a|
    ensures SameNoCase(a[i..j], b[i..j])
  {
  }

  lemma SameJoin(a: string, b: string, c: string, d: string)
    requires SameNoCase(a, c) && SameNoCase(b, d)
    ensures SameNoCase(a + b, c + d)
  {
  }

  lemma SameBack(a: string, b: string)
    requires SameNoCase(a, b)
    ensures SameNoCase(b, a)
  {
  }

  /** Ignoring case, dots stay where they are. */
  lemma SameDot(a: string, b: string)
    requires SameNoCase(a, b)
    ensures Index(a, '.') == Index(b, '.')
  {
    var i, j := Index(a, '.'), Index(b, '.');
    DotAt(a, b, i);
    DotAt(b, a, j);
  }

  lemma DotAt(a: string, b: string, i: nat)
    requires SameNoCase(a, b) && i == Index(a, '.')
    ensures Index(b, '.') <= i
  {
    if i < |a| {
      assert ToUpper(a[i]) == ToUpper(b[i]);
      BeforeIndex(b, i);
    }
  }

  lemma BeforeIndex(s: string, i: nat)
    requires i < |s| && s[i] == '.'
    ensures Index(s, '.') <= i
  {
    var j := Index(s, '.');
    assert forall k :: 0 <= k < j ==> s[k] in s[..j];
  }

  lemma MatchGivesLabels(pre: string, suf: string, rest: string, h: string, w: string)
    requires '.' !in pre && '.' !in suf && rest != "" && rest[0] == '.' && w != "" && '.' !in w
    requires SameNoCase(h, pre + w + suf + rest)
    ensures LabelsMatch(pre, suf, rest, h)
  {
    var x := pre + w + suf;
    IndexAt(x, rest, '.');
    SameDot(h, x + rest);
    hide Index, SameNoCase, IsLower;
    var full, end := x + rest, |x|;
    SameBack(h, full);
    assert |h| == |full| by { SameLength(h, full); }
    SameSlice(full, h, end, |h|);
    assert full[end..|h|] == rest && h[end..|h|] == h[end..];
    SameSlice(full, h, 0, |pre|);
    assert full[0..|pre|] == pre && h[0..|pre|] == h[..|pre|];
    SameSlice(full, h, end - |suf|, end);
    assert full[end - |suf|..end] == suf;
  }

  lemma SameLength(a: string, b: string)
    requires SameNoCase(a, b)
    ensures |a| == |b|
  {
  }

  lemma LabelsGiveMatch(pre: string, suf: string, rest: string, h: string)
    requires LabelsMatch(pre, suf, rest, h)
    ensures WildcardMatch(pre, suf, rest, h)
  {
    hide SameNoCase;
    var end := Index(h, '.');
    var a, w, c, d := h[..|pre|], h[|pre|..end - |suf|], h[end - |suf|..end], h[end..];
    assert w != "" && '.' !in w by {
      assert forall x :: x in w ==> x in h[..end];
    }
    assert h == a + w + c + d;
    SameBack(pre, a);
    SameBack(suf, c);
    SameBack(rest, d);
    SameSelf(w);
    SameJoin(a, w, pre, w);
    SameJoin(a + w, c, pre + w, suf);
    SameJoin(a + w + c, d, pre + w + suf, rest);
  }

  lemma SameSelf(a: string)
    ensures SameNoCase(a, a)
  {
  }

  /** The comparisons decide the declarative rule. */
  lemma LabelsIff(pre: string, suf: string, rest: string, h: string)
    requires '.' !in pre && '.' !in suf && rest != "" && rest[0] == '.'
    ensures LabelsMatch(pre, suf, rest, h) <==> WildcardMatch(pre, suf, rest, h)
  {
    hide SameNoCase, LabelsMatch;
    if LabelsMatch(pre, suf, rest, h) {
      LabelsGiveMatch(pre, suf, rest, h);
    }
    if WildcardMatch(pre, suf, rest, h) {
      var w :| w != "" && '.' !in w && SameNoCase(h, pre + w + suf + rest);
      MatchGivesLabels(pre, suf, rest, h, w);
    }
  }

  /** A buffer with a NUL in it: it holds the string in front of the first. */
  ghost predicate Buffer(a: array<char>)
    reads a
  {
    NUL in a[..]
  }

  /** The string in a buffer. */
  function Text(a: array<char>): string
    reads a
  {
    CStr(a[..], 0)
  }

  lemma {:induction false} TextEnds(b: string, k: nat, z: nat)
    requires k <= z < |b| && b[z] == NUL
    ensures k + |CStr(b, k)| <= z && b[k..k + |CStr(b, k)|] == CStr(b, k) && b[k + |CStr(b, k)|] == NUL
    decreases z - k
  {
    hide CStr;
    CStrStep(b, k);
    if b[k] != NUL {
      TextEnds(b, k + 1, z);
      SliceFirst(b, k, k + 1 + |CStr(b, k + 1)|);
    }
  }

  lemma CStrStep(b: string, k: nat)
    requires k < |b|
    ensures CStr(b, k) == if b[k] == NUL then "" else [b[k]] + CStr(b, k + 1)
  {
  }

  lemma SliceFirst(b: string, k: nat, e: nat)
    requires k < e <= |b|
    ensures b[k..e] == [b[k]] + b[k + 1..e]
  {
  }

  /** A buffer whose string loses its last character. */
  lemma CutLast(b: string)
    requires NUL in b && CStr(b, 0) != ""
    ensures var n := |CStr(b, 0)| - 1;
      && n < |b| && b[n] == CStr(b, 0)[n]
      && NUL in b[n := NUL] && CStr(b[n := NUL], 0) == CStr(b, 0)[..n]
  {
    var s, n := CStr(b, 0), |CStr(b, 0)| - 1;
    var z :| 0 <= z < |b| && b[z] == NUL;
    TextEnds(b, 0, z);
    hide CStr;
    assert b[n] == b[0..n + 1][n];
    var c := b[n := NUL];
    assert c[n] == NUL;
    assert c[0..n] == b[0..n] == b[0..n + 1][..n];
    HoldsIsCStr(c, 0, s[..n]);
  }

  /** Cuts one trailing dot off, in the buffer. */
  method Trim(a: array<char>)
    requires Buffer(a) && Text(a) != ""
    modifies a
    ensures Buffer(a) && Text(a) == Trimmed(old(Text(a)))
  {
    hide CStr;
    ghost var b := a[..];
    CutLast(b);
    ghost var n := |CStr(b, 0)| - 1;
    var len := |CStr(a[..], 0)|;
    if a[len - 1] == '.' {
      a[len - 1] := NUL;
      assert a[..] == b[n := NUL];
    }
  }

  method Hostmatch(hostname: array<char>, pattern: array<char>, isIp: string -> bool) returns (matched: bool)
    requires hostname != pattern && Buffer(hostname) && Buffer(pattern)
    requires Text(hostname) != "" && Text(pattern) != ""
    modifies hostname, pattern
    ensures matched <==> Matches(Trimmed(old(Text(pattern))), Trimmed(old(Text(hostname))), isIp)
  {
    hide Index, SameNoCase, WildcardMatch, LabelsMatch, CStr;
    Trim(hostname);
    Trim(pattern);
    var h, p := Text(hostname), Text(pattern);
    var wildcard := Index(p, '*');
    StrChr(p, '*');
    if wildcard == |p| {
      return SameNoCase(p, h);
    }
    if isIp(h) {
      return false;
    }
    var labelEnd := Index(p, '.');
    StarIsNoDot(p);
    if labelEnd == |p| || '.' !in p[labelEnd + 1..] || wildcard > labelEnd || SameStart(p, "xn--", 4) {
      return SameNoCase(p, h);
    }
    matched := CompareLabels(p, h, wildcard, labelEnd);
  }

  /** The comparisons for an enabled wildcard. */
  method CompareLabels(p: string, h: string, wildcard: nat, labelEnd: nat) returns (matched: bool)
    requires wildcard == Index(p, '*') < Index(p, '.') == labelEnd < |p|
    ensures matched <==> WildcardMatch(p[..wildcard], p[wildcard + 1..labelEnd], p[labelEnd..], h)
  {
    hide SameNoCase, Index, WildcardMatch;
    LabelParts(p, wildcard, labelEnd, h);
    var hostLabelEnd := Index(h, '.');
    if hostLabelEnd == |h| || !SameNoCase(p[labelEnd..], h[hostLabelEnd..]) {
      return false;
    }
    if hostLabelEnd < labelEnd {
      return false;
    }
    var prefixlen, suffixlen := wildcard, labelEnd - (wildcard + 1);
    StartOfRest(p, wildcard + 1, labelEnd);
    StartOfRest(h, hostLabelEnd - suffixlen, hostLabelEnd);
    matched := SameStart(p, h, prefixlen) && SameStart(p[wildcard + 1..], h[hostLabelEnd - suffixlen..], suffixlen);
  }

  lemma StartOfRest(s: string, i: nat, j: nat)
    requires i <= j <= |s|
    ensures s[i..][..j - i] == s[i..j]
  {
  }

  /** The parts of an enabled wildcard are as the rule for the comparisons wants them. */
  lemma LabelParts(p: string, wildcard: nat, labelEnd: nat, h: string)
    requires wildcard == Index(p, '*') < Index(p, '.') == labelEnd < |p|
    ensures LabelsMatch(p[..wildcard], p[wildcard + 1..labelEnd], p[labelEnd..], h) <==>
      WildcardMatch(p[..wildcard], p[wildcard + 1..labelEnd], p[labelEnd..], h)
  {
    hide SameNoCase, WildcardMatch, LabelsMatch;
    assert p[labelEnd] == '.' && '.' !in p[..labelEnd];
    assert forall k :: 0 <= k < labelEnd ==> p[k] in p[..labelEnd];
    LabelsIff(p[..wildcard], p[wildcard + 1..labelEnd], p[labelEnd..], h);
  }

  lemma StrChr(s: string, c: char)
    ensures Index(s, c) == |s| <==> c !in s
  {
    assert s[..|s|] == s;
  }

  lemma StarIsNoDot(p: string)
    requires '*' in p
    ensures Index(p, '*') != Index(p, '.')
  {
    StrChr(p, '*');
  }

  /** The check works on copies of the two names; an empty name matches nothing. */
  method CertHostcheck(matchPattern: string, hostname: string, isIp: string -> bool) returns (res: int)
    requires NUL !in matchPattern && NUL !in hostname
    ensures res == if matchPattern != "" && hostname != "" && Matches(Trimmed(matchPattern), Trimmed(hostname), isIp)
      then 1 else 0
  {
    res := 0;
    if matchPattern != "" && hostname != "" {
      var matchp := Copy(matchPattern);
      var hostp := Copy(hostname);
      var matched := Hostmatch(hostp, matchp, isIp);
      if matched {
        res := 1;
      }
    }
  }

  /** strdup */
  method Copy(s: string) returns (a: array<char>)
    requires NUL !in s
    ensures fresh(a) && Buffer(a) && Text(a) == s
  {
    a := new char[|s| + 1](k requires 0 <= k <= |s| => if k < |s| then s[k] else NUL);
    assert a[..][0..|s|] == s && a[..][|s|] == NUL;
    HoldsIsCStr(a[..], 0, s);
  }
}
