/** Removing dot segments in place, the query kept aside (lib/dotdot.c). */
module Dotdot {
  import opened CText
  import opened DotdotSpec

  /** The path part of an input, up to its first "?". */
  function Part(input: string): string { input[..Index(input, '?')] }

  /** The query part, from the first "?" on. */
  function Query(input: string): string { input[Index(input, '?')..] }

  function Dedotted(input: string): string { Rewrite(Part(input), "") + Query(input) }

  /** A string that may be passed in: empty, or with something before the query. */
  predicate Accepts(input: string) { NUL !in input && (input == "" || input[0] != '?') }

  /** Nothing but "./" and "../", one after the other. */
  predicate OnlyDots(i: string)
    decreases |i|
  {
    i == "" || ("./" <= i && OnlyDots(i[2..])) || ("../" <= i && OnlyDots(i[3..]))
  }

  /** The inputs for which the result gets a terminator. */
  predicate Terminated(input: string) { input == "" || Query(input) != "" || !OnlyDots(Part(input)) }

  /** Does the C string at offset c begin with p? With a closing NUL in p: is it p? */
  predicate StartsAt(a: array<char>, c: nat, p: string)
    reads a
  {
    c + |p| <= a.Length && a[c..c + |p|] == p
  }

  /** The unread rest of the clone: from c to the terminator at e. */
  ghost predicate Holding(a: array<char>, c: nat, e: nat)
    reads a
  {
    c <= e < a.Length && a[e] == NUL && forall k :: c <= k < e ==> a[k] != NUL
  }

  lemma StartsIs(a: array<char>, c: nat, e: nat, p: string)
    requires Holding(a, c, e) && NUL !in p
    ensures StartsAt(a, c, p) <==> p <= a[c..e]
    ensures StartsAt(a, c, p + [NUL]) <==> p == a[c..e]
  {
    var r := a[c..e];
    if StartsAt(a, c, p) {
      assert forall k :: c <= k < c + |p| ==> a[k] == p[k - c] && p[k - c] in p;
      assert r[..|p|] == a[c..c + |p|];
    }
    if p <= r {
      assert a[c..c + |p|] == r[..|p|];
    }
    if StartsAt(a, c, p + [NUL]) {
      assert a[c..c + |p| + 1][|p|] == NUL;
      assert a[c..c + |p|] == (p + [NUL])[..|p|];
    }
    if p == r {
      assert a[c..c + |p| + 1] == r + [NUL];
    }
  }

  /** Removal of the last segment and the "/" before it from the output. */
  method Shorten(out: array<char>, o: nat) returns (n: nat)
    requires o < out.Length
    modifies out
    ensures n <= o && out[..n] == old(out[..n]) && out[..n] == DropLast(old(out[..o])) && out[n] == NUL
  {
    n := o;
    while n > 0
      invariant n <= o && DropLast(out[..n]) == DropLast(out[..o])
    {
      assert out[..n][..n - 1] == out[..n - 1];
      n := n - 1;
      if out[n] == '/' {
        break;
      }
    }
    out[n] := NUL;
  }

  lemma IndexNext(s: string, t: string)
    requires s != "" && t == s[1..] && s[0] != '/'
    ensures Index(s, '/') == 1 + Index(t, '/')
  {
  }

  /** Moving the first path segment of the input to the end of the output. */
  method MoveSegment(clone: array<char>, c: nat, ghost e: nat, out: array<char>, o: nat) returns (c': nat, o': nat)
    requires clone != out && Holding(clone, c, e) && c < e && o <= c && e < out.Length
    modifies out
    ensures c < c' <= e && o' - o == c' - c && (c' < e ==> clone[c'] == '/')
    ensures out[..o'] == old(out[..o]) + clone[c..c'] && c' - c == SegmentEnd(clone[c..e]) && out[o'] == NUL
  {
    hide Index;
    c', o' := c, o;
    ghost var r := clone[c..e];
    var first := true;
    while first || (clone[c'] != NUL && clone[c'] != '/')
      invariant c <= c' <= e && o' - o == c' - c && (first ==> c' == c)
      invariant out[..o'] == old(out[..o]) + clone[c..c']
      invariant !first ==> c < c' && Index(r[1..], '/') == c' - c - 1 + Index(clone[c'..e], '/')
      decreases e - c'
    {
      assert clone[c'] != NUL ==> c' < e;
      out[o'] := clone[c'];
      o', c' := o' + 1, c' + 1;
      if first {
        assert r[1..] == clone[c'..e];
      } else {
        IndexNext(clone[c' - 1..e], clone[c'..e]);
      }
      first := false;
    }
    assert c' < e ==> clone[c'..e][0] == clone[c'];
    out[o'] := NUL;
  }

  /** Only a relative beginning of the path has no "/" in front, and nothing was put out before it. */
  ghost predicate Begun(clone: array<char>, c: nat, e: nat, o: nat)
    reads clone
  {
    && Holding(clone, c, e) && o <= c
    && (c < e && clone[c] != '/' ==> o == 0)
  }

  /**
   * One round of the main loop; the clone may end earlier after it. Whatever is written ends with a
   * terminator; where nothing is written the round has only moved on in the clone.
   */
  method Round(clone: array<char>, c: nat, ghost e: nat, out: array<char>, o: nat)
    returns (c': nat, o': nat, ghost e': nat, ghost wrote: bool)
    requires clone != out && Begun(clone, c, e, o) && c < e < out.Length
    modifies clone, out
    ensures e' <= e && Begun(clone, c', e', o')
    ensures (clone[c'..e'], out[..o']) == Step(old(clone[c..e]), old(out[..o]))
    ensures wrote ==> o' < out.Length && out[o'] == NUL && !OnlyDots(old(clone[c..e]))
    ensures !wrote ==> o' == o && out[..] == old(out[..]) && (OnlyDots(old(clone[c..e])) <==> OnlyDots(clone[c'..e']))
  {
    hide StartsAt, DropLast, SegmentEnd, Step, OnlyDots;
    ghost var r, w := clone[c..e], out[..o];
    assert r[0] == clone[c];
    Starts(clone, c, e);
    DotsFirst(r);
    c', o', e', wrote := c, o, e, false;
    if StartsAt(clone, c, "./") {
      c' := c + 2;
      StepA(r, w);
      assert clone[c'..e] == r[2..];
    } else if StartsAt(clone, c, "../") {
      c' := c + 3;
      StepA(r, w);
      assert clone[c'..e] == r[3..] && !("./" <= r);
    } else if StartsAt(clone, c, "/./") {
      c' := c + 2;
      StepB(r, w);
      assert clone[c'..e] == r[2..];
      DotsFirst(r[2..]);
    } else if StartsAt(clone, c, "/." + [NUL]) {
      clone[c + 1] := '/';
      c' := c + 1;
      StepB(r, w);
      assert clone[c'..e] == "/";
      DotsFirst("/");
    } else {
      wrote := true;
      c', o', e' := RoundRest(clone, c, e, out, o);
    }
  }

  lemma DotsFirst(r: string)
    requires r != ""
    ensures "./" <= r ==> (OnlyDots(r) <==> OnlyDots(r[2..]))
    ensures "../" <= r ==> (OnlyDots(r) <==> OnlyDots(r[3..]))
    ensures !("./" <= r) && !("../" <= r) ==> !OnlyDots(r)
    ensures r[0] != '.' ==> !OnlyDots(r)
  {
    if "./" <= r {
      assert r[1] == '/';
      Misses(r, "../", 1);
    }
  }

  /** The branches C, D and E of a round. */
  method RoundRest(clone: array<char>, c: nat, ghost e: nat, out: array<char>, o: nat)
    returns (c': nat, o': nat, ghost e': nat)
    requires clone != out && Begun(clone, c, e, o) && c < e < out.Length
    requires var r := clone[c..e]; !("./" <= r) && !("../" <= r) && !("/./" <= r) && r != "/."
    modifies clone, out
    ensures e' <= e && Begun(clone, c', e', o') && o' < out.Length && out[o'] == NUL
    ensures (clone[c'..e'], out[..o']) == Step(old(clone[c..e]), old(out[..o]))
  {
    hide StartsAt, DropLast, SegmentEnd, Step;
    ghost var r, w := clone[c..e], out[..o];
    assert r[0] == clone[c];
    Starts(clone, c, e);
    c', o', e' := c, o, e;
    if StartsAt(clone, c, "/../") || StartsAt(clone, c, "/.." + [NUL]) {
      c', o' := RoundUp(clone, c, e, out, o);
    } else if StartsAt(clone, c, "." + [NUL]) || StartsAt(clone, c, ".." + [NUL]) {
      clone[c] := NUL;
      out[0] := NUL;
      e' := c;
      assert w == "" && out[..o'] == "" && clone[c'..e'] == "";
      StepDots(r);
    } else {
      c', o' := RoundMove(clone, c, e, out, o);
    }
  }

  /** The branch C of a round. */
  method RoundUp(clone: array<char>, c: nat, ghost e: nat, out: array<char>, o: nat) returns (c': nat, o': nat)
    requires clone != out && Begun(clone, c, e, o) && c < e < out.Length
    requires var r := clone[c..e]; "/../" <= r || r == "/.."
    modifies clone, out
    ensures Begun(clone, c', e, o') && o' < out.Length && out[o'] == NUL
    ensures (clone[c'..e], out[..o']) == Step(old(clone[c..e]), old(out[..o]))
  {
    hide StartsAt, DropLast, SegmentEnd, Step;
    ghost var r, w := clone[c..e], out[..o];
    Starts(clone, c, e);
    StepC(r, w);
    if StartsAt(clone, c, "/../") {
      c' := c + 3;
      assert clone[c'..e] == r[3..];
    } else {
      clone[c + 2] := '/';
      c' := c + 2;
      assert clone[c'..e] == "/";
    }
    o' := Shorten(out, o);
  }

  /** The branch E of a round. */
  method RoundMove(clone: array<char>, c: nat, ghost e: nat, out: array<char>, o: nat) returns (c': nat, o': nat)
    requires clone != out && Begun(clone, c, e, o) && c < e < out.Length
    requires var r := clone[c..e];
      !("./" <= r) && !("../" <= r) && !("/./" <= r) && !("/../" <= r) && r != "/." && r != "/.." && !Dots(r)
    modifies out
    ensures Begun(clone, c', e, o') && o' < out.Length && out[o'] == NUL
    ensures (clone[c'..e], out[..o']) == Step(clone[c..e], old(out[..o]))
  {
    hide StartsAt, DropLast, SegmentEnd, Step;
    ghost var r := clone[c..e];
    StepE(r, out[..o]);
    c', o' := MoveSegment(clone, c, e, out, o);
    assert clone[c'..e] == r[c' - c..] && clone[c..c'] == r[..c' - c];
  }

  lemma StepA(r: string, w: string)
    requires "./" <= r || "../" <= r
    ensures r[0] == '.' && Step(r, w) == (if "./" <= r then r[2..] else r[3..], w)
  {
  }

  lemma StepB(r: string, w: string)
    requires "/./" <= r || r == "/."
    ensures Step(r, w) == (if r == "/." then "/" else r[2..], w) && (|r| > 2 ==> r[2] == '/')
  {
    Rooted(r);
    assert |r| > 2 ==> r[2] == '/' && r[2..] == "/" + r[3..];
  }

  lemma StepC(r: string, w: string)
    requires "/../" <= r || r == "/.."
    ensures Step(r, w) == (if r == "/.." then "/" else r[3..], DropLast(w)) && (|r| > 3 ==> r[3] == '/')
  {
    hide DropLast;
    Rooted(r);
    assert r[2] == '.';
    Misses(r, "/./", 2);
    assert |r| > 3 ==> r[3] == '/' && r[3..] == "/" + r[4..];
  }

  lemma StepE(r: string, w: string)
    requires r != "" && !("./" <= r) && !("../" <= r) && !("/./" <= r) && !("/../" <= r) && r != "/." && r != "/.."
    requires !Dots(r)
    ensures Step(r, w) == (r[SegmentEnd(r)..], w + r[..SegmentEnd(r)])
  {
  }

  lemma Starts(a: array<char>, c: nat, e: nat)
    requires Holding(a, c, e)
    ensures StartsAt(a, c, "./") <==> "./" <= a[c..e]
    ensures StartsAt(a, c, "../") <==> "../" <= a[c..e]
    ensures StartsAt(a, c, "/./") <==> "/./" <= a[c..e]
    ensures StartsAt(a, c, "/../") <==> "/../" <= a[c..e]
    ensures StartsAt(a, c, "/." + [NUL]) <==> "/." == a[c..e]
    ensures StartsAt(a, c, "/.." + [NUL]) <==> "/.." == a[c..e]
    ensures StartsAt(a, c, "." + [NUL]) <==> "." == a[c..e]
    ensures StartsAt(a, c, ".." + [NUL]) <==> ".." == a[c..e]
  {
    StartsIs(a, c, e, "./");
    StartsIs(a, c, e, "../");
    StartsIs(a, c, e, "/./");
    StartsIs(a, c, e, "/../");
    StartsIs(a, c, e, "/.");
    StartsIs(a, c, e, "/..");
    StartsIs(a, c, e, ".");
    StartsIs(a, c, e, "..");
  }

  /** A copy of the input that is cut at the query. */
  method CloneOf(input: string) returns (clone: array<char>, queryp: nat)
    requires NUL !in input
    ensures fresh(clone) && queryp == |Part(input)| <= |input| && input[queryp..] == Query(input)
    ensures Holding(clone, 0, queryp) && clone[0..queryp] == Part(input)
  {
    var inlen := |input|;
    clone := new char[inlen + 1](k requires 0 <= k <= |input| => if k < |input| then input[k] else NUL);
    queryp := 0;
    while queryp < inlen && input[queryp] != '?'
      invariant queryp <= inlen && Index(input, '?') == queryp + Index(input[queryp..], '?')
    {
      assert input[queryp..][1..] == input[queryp + 1..];
      queryp := queryp + 1;
    }
    clone[queryp] := NUL;
    assert forall k :: 0 <= k < queryp ==> clone[k] == input[k] && input[k] in input;
  }

  /**
   * The result is what the buffer holds before the write position. It is the path with its dot
   * segments removed as section 5.2.4 of RFC 3986 says, followed by the query as it was. left is what
   * the allocation leaves in the buffer: an input of "./" and "../" alone gives it back untouched,
   * every other one gives a string with its terminator.
   */
  method Dedotdotify(input: string, left: string) returns (out: array<char>, len: nat)
    requires Accepts(input) && |left| == |input| + 1
    ensures fresh(out) && len <= |input| < out.Length
    ensures out[..len] == Dedotted(input)
    ensures Terminated(input) ==> out[len] == NUL && CStr(out[..], 0) == Dedotted(input)
    ensures !Terminated(input) ==> len == 0 && out[..] == left
  {
    hide Index, Step;
    out := new char[|input| + 1](k requires 0 <= k <= |input| => left[k]);
    assert out[..] == left;
    len := 0;
    var clone, queryp := CloneOf(input);
    if input == "" {
      return clone, 0;
    }
    NotEmpty(input);
    ghost var e: nat := queryp;
    var c: nat, o: nat := 0, 0;
    var more := true;
    ghost var written := false;
    assert out[..o] == "";
    hide Begun, Rewrite, OnlyDots;
    while more
      invariant e <= queryp && Begun(clone, c, e, o) && more == (c < e)
      invariant Rewrite(clone[c..e], out[..o]) == Rewrite(Part(input), "")
      invariant Progress(input, clone[c..e], out[..], o, left, written)
      decreases e - c
    {
      RewriteOnce(clone[c..e], out[..o]);
      ghost var wrote;
      c, o, e, wrote := Round(clone, c, e, out, o);
      written := written || wrote;
      AtEnd(clone, c, e, o);
      more := clone[c] != NUL;
    }
    AtEnd(clone, c, e, o);
    RewriteNone(out[..o]);
    AllRead(input, out[..], o, left, written);
    len := o;
    if queryp < |input| {
      len := AppendQuery(out, o, input, queryp);
    }
    if Terminated(input) {
      ResultHolds(input, out[..], len);
    }
  }

  /** Either the output has its terminator, or nothing has been written and only dots were read. */
  ghost predicate Progress(input: string, rest: string, out: string, o: nat, left: string, written: bool) {
    if written then o < |out| && out[o] == NUL && !OnlyDots(Part(input))
    else o == 0 && out == left && (OnlyDots(Part(input)) <==> OnlyDots(rest))
  }

  lemma AllRead(input: string, out: string, o: nat, left: string, written: bool)
    requires Progress(input, "", out, o, left, written)
    ensures if OnlyDots(Part(input)) then o == 0 && out == left else o < |out| && out[o] == NUL
  {
  }

  lemma ResultHolds(input: string, out: string, len: nat)
    requires NUL !in input && len < |out| && out[..len] == Dedotted(input) && out[len] == NUL
    ensures CStr(out, 0) == Dedotted(input)
  {
    hide Dedotted;
    ResultParts(input);
    assert out[0..len] == out[..len];
    HoldsIsCStr(out, 0, Dedotted(input));
  }

  lemma NotEmpty(input: string)
    requires Accepts(input) && input != ""
    ensures Part(input) != ""
  {
  }

  lemma RewriteNone(o: string)
    ensures Rewrite("", o) == o
  {
  }

  lemma RewriteOnce(i: string, o: string)
    requires i != ""
    ensures Rewrite(i, o) == Rewrite(Step(i, o).0, Step(i, o).1)
  {
  }

  lemma AtEnd(clone: array<char>, c: nat, e: nat, o: nat)
    requires Begun(clone, c, e, o)
    ensures o <= c <= e < clone.Length && (clone[c] != NUL <==> c < e) && (c == e ==> clone[c..e] == "")
  {
    assert c < e ==> clone[c..e][0] == clone[c];
  }

  /** The query is copied from the input with its terminator, since the clone may have been altered. */
  method AppendQuery(out: array<char>, o: nat, input: string, queryp: nat) returns (len: nat)
    requires o <= queryp < |input| < out.Length
    modifies out
    ensures len <= |input| && out[..len] == old(out[..o]) + input[queryp..] && out[len] == NUL
  {
    len := o;
    var k := queryp;
    while k < |input|
      invariant queryp <= k <= |input| && len == o + k - queryp
      invariant out[..len] == old(out[..o]) + input[queryp..k]
    {
      out[len] := input[k];
      k, len := k + 1, len + 1;
    }
    assert input[queryp..k] == input[queryp..];
    out[len] := NUL;
  }

  /**
   * The path part of a result is the rewritten path, without any "." or ".." segment; the query is
   * the query of the input, and nothing gets longer.
   */
  lemma ResultParts(input: string)
    requires NUL !in input
    ensures var d := Dedotted(input);
      && Part(d) == Rewrite(Part(input), "") && Query(d) == Query(input)
      && Dotless(Split(Part(d))) && |d| <= |input| && NUL !in d
  {
    var p, q := Part(input), Query(input);
    assert input == p + q && NUL !in p && NUL !in q by {
      assert forall c :: c in p || c in q ==> c in input;
    }
    hide Rewrite;
    RewriteInventsNothing(p, "", '?');
    RewriteInventsNothing(p, "", NUL);
    OutputIsClean(p);
    IndexAt(Rewrite(p, ""), q, '?');
    assert Dedotted(input)[..|Rewrite(p, "")|] == Rewrite(p, "");
    assert Dedotted(input)[|Rewrite(p, "")|..] == q;
  }

  /**
   * Removing the dot segments of a result changes nothing. The result may be passed in again exactly
   * when there is a path left in it or it is empty.
   */
  lemma Idempotent(input: string)
    requires NUL !in input
    ensures Dedotted(Dedotted(input)) == Dedotted(input)
    ensures Accepts(Dedotted(input)) <==> Rewrite(Part(input), "") != "" || Query(input) == ""
  {
    hide Rewrite, Split, Dotless, Part, Query;
    ResultParts(input);
    OutputIsClean(Part(input));
    StartOf(Rewrite(Part(input), ""), Query(input), Dedotted(input));
  }

  lemma StartOf(p: string, q: string, d: string)
    requires d == p + q && p == Part(d) && q == Query(d)
    ensures (d == "" || d[0] != '?') <==> (p != "" || q == "")
  {
  }

  /** For an absolute path there is always a path left, and it is absolute. */
  lemma AbsoluteIdempotent(input: string)
    requires Accepts(input) && input != "" && input[0] == '/'
    ensures var d := Dedotted(input); Accepts(d) && d != "" && d[0] == '/' && Dedotted(d) == d
    ensures Terminated(input)
  {
    assert Part(input) != "" && Part(input)[0] == '/';
    AbsoluteStays(Part(input));
    Idempotent(input);
  }
}
