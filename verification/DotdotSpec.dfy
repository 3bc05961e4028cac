/** Removing dot segments from a path: section 5.2.4 of RFC 3986, and the same by a stack. */
module DotdotSpec {
  import opened CText

  /** The first path segment, with its initial "/" if any, ends here. */
  function SegmentEnd(i: string): (r: nat)
    requires i != ""
    ensures 0 < r <= |i|
  {
    1 + Index(i[1..], '/')
  }

  /** The output without its last segment and the "/" before it, if any. */
  function DropLast(o: string): (r: string)
    ensures |r| <= |o|
  {
    if o == "" then ""
    else if o[|o| - 1] == '/' then o[..|o| - 1]
    else DropLast(o[..|o| - 1])
  }

  /** One step of the procedure: A to E in the order of the standard. */
  function Step(i: string, o: string): (r: (string, string))
    requires i != ""
    ensures |r.0| < |i| && |r.0| + |r.1| <= |i| + |o|
  {
    if "./" <= i then (i[2..], o)
    else if "../" <= i then (i[3..], o)
    else if "/./" <= i then ("/" + i[3..], o)
    else if i == "/." then ("/", o)
    else if "/../" <= i then ("/" + i[4..], DropLast(o))
    else if i == "/.." then ("/", DropLast(o))
    else if i == "." || i == ".." then ("", o)
    else (i[SegmentEnd(i)..], o + i[..SegmentEnd(i)])
  }

  /** The procedure, run until the input buffer is empty. */
  function Rewrite(i: string, o: string): (r: string)
    ensures |r| <= |i| + |o|
    decreases |i|
  {
    if i == "" then o else Rewrite(Step(i, o).0, Step(i, o).1)
  }

  lemma {:induction false} DropLastPrefix(o: string)
    ensures DropLast(o) == o[..|DropLast(o)|]
    decreases |o|
  {
    if o != "" && o[|o| - 1] != '/' {
      DropLastPrefix(o[..|o| - 1]);
    }
  }

  /** Nothing but "/" comes in that was not there. */
  lemma {:induction false} RewriteInventsNothing(i: string, o: string, x: char)
    requires x != '/' && x !in i && x !in o
    ensures x !in Rewrite(i, o)
    decreases |i|
  {
    if i != "" {
      DropLastPrefix(o);
      RewriteInventsNothing(Step(i, o).0, Step(i, o).1, x);
    }
  }

  // ---- the same by a stack of segments -----------------------------------------------------------

  /** The "/"-separated segments. */
  function Split(s: string): (r: seq<string>)
    ensures r != []
    decreases |s|
  {
    var k := Index(s, '/');
    if k == |s| then [s] else [s[..k]] + Split(s[k + 1..])
  }

  /** Segments, each with a "/" before it. */
  function Tail(xs: seq<string>): string {
    if xs == [] then "" else "/" + xs[0] + Tail(xs[1..])
  }

  predicate Dots(x: string) { x == "." || x == ".." }

  ghost predicate Slashless(xs: seq<string>) { forall k :: 0 <= k < |xs| ==> '/' !in xs[k] }

  ghost predicate Dotless(xs: seq<string>) { forall k :: 0 <= k < |xs| ==> !Dots(xs[k]) }

  /** What is in front of the first "/", and the segments after it. */
  datatype Stack = Stack(head: string, segs: seq<string>) {
    function Text(): string {
      head + Tail(segs)
    }

    function Push(x: string): Stack {
      Stack(head, segs + [x])
    }

    function Pop(): Stack {
      if segs == [] then Stack("", []) else Stack(head, segs[..|segs| - 1])
    }
  }

  /** Segments after the first: "." stays, ".." goes up, and at the end both leave an open "/". */
  function Fold(xs: seq<string>, st: Stack): Stack
    decreases |xs|
  {
    if xs == [] then st
    else
      var up := if xs[0] == ".." then st.Pop() else st;
      if Dots(xs[0]) then if |xs| == 1 then up.Push("") else Fold(xs[1..], up)
      else Fold(xs[1..], st.Push(xs[0]))
  }

  /** The segments without the dots a relative path begins with. */
  function Lead(xs: seq<string>): seq<string> {
    if xs == [] || !Dots(xs[0]) then xs else Lead(xs[1..])
  }

  function StackOf(xs: seq<string>): Stack {
    var ys := Lead(xs);
    if ys == [] then Stack("", []) else Fold(ys[1..], Stack(ys[0], []))
  }

  function ByStack(p: string): string {
    StackOf(Split(p)).Text()
  }

  // ---- splitting and joining ---------------------------------------------------------------------

  lemma {:induction false} SplitJoins(s: string)
    ensures Slashless(Split(s)) && s == Split(s)[0] + Tail(Split(s)[1..])
    decreases |s|
  {
    hide Index;
    var k := Index(s, '/');
    if k < |s| {
      var r := Split(s[k + 1..]);
      SplitJoins(s[k + 1..]);
      Joined(s, k, s[..k], r);
    } else {
      assert s[..k] == s;
    }
  }

  lemma Joined(s: string, k: nat, h: string, r: seq<string>)
    requires k < |s| && s[k] == '/' && h == s[..k] && '/' !in h
    requires r != [] && Slashless(r) && s[k + 1..] == r[0] + Tail(r[1..])
    ensures Slashless([h] + r) && s == ([h] + r)[0] + Tail(([h] + r)[1..])
  {
    assert ([h] + r)[1..] == r;
    assert Tail(r) == "/" + r[0] + Tail(r[1..]) == "/" + s[k + 1..];
    assert s == s[..k] + ("/" + s[k + 1..]);
  }

  lemma SplitFirst(h: string, t: string)
    requires '/' !in h
    ensures Split(h) == [h] && Split(h + "/" + t) == [h] + Split(t)
  {
    hide Index;
    var s := h + ("/" + t);
    IndexAt(h, "", '/');
    IndexAt(h, "/" + t, '/');
    assert h + "" == h && s == h + "/" + t;
    assert s[..|h|] == h && s[|h| + 1..] == t;
  }

  lemma {:induction false} JoinSplits(h: string, ys: seq<string>)
    requires '/' !in h && Slashless(ys)
    ensures Split(h + Tail(ys)) == [h] + ys
    decreases |ys|
  {
    hide Split;
    if ys == [] {
      SplitFirst(h, "");
      assert h + Tail(ys) == h;
    } else {
      var t := ys[0] + Tail(ys[1..]);
      assert h + Tail(ys) == h + "/" + t;
      SplitFirst(h, t);
      JoinSplits(ys[0], ys[1..]);
      assert [ys[0]] + ys[1..] == ys;
    }
  }

  lemma {:induction false} TailSnoc(xs: seq<string>, x: string)
    ensures Tail(xs + [x]) == Tail(xs) + "/" + x
    decreases |xs|
  {
    if xs == [] {
      assert xs + [x] == [x];
    } else {
      assert (xs + [x])[1..] == xs[1..] + [x];
      TailSnoc(xs[1..], x);
    }
  }

  lemma {:induction false} DropLastSegment(a: string, x: string)
    requires '/' !in x
    ensures DropLast(a + "/" + x) == a
    decreases |x|
  {
    var s := a + "/" + x;
    if x == "" {
      assert s[..|s| - 1] == a;
    } else {
      assert s[|s| - 1] == x[|x| - 1];
      assert s[..|s| - 1] == a + "/" + x[..|x| - 1];
      DropLastSegment(a, x[..|x| - 1]);
    }
  }

  lemma {:induction false} DropLastBare(x: string)
    requires '/' !in x
    ensures DropLast(x) == ""
    decreases |x|
  {
    if x != "" {
      assert x[|x| - 1] in x;
      DropLastBare(x[..|x| - 1]);
    }
  }

  ghost predicate Fine(st: Stack) { '/' !in st.head && Slashless(st.segs) }

  lemma PopIsDropLast(st: Stack)
    requires Fine(st)
    ensures DropLast(st.Text()) == st.Pop().Text() && Fine(st.Pop())
  {
    if st.segs == [] {
      assert st.Text() == st.head;
      DropLastBare(st.head);
    } else {
      var n := |st.segs| - 1;
      assert st.segs == st.segs[..n] + [st.segs[n]];
      TailSnoc(st.segs[..n], st.segs[n]);
      assert st.Text() == (st.head + Tail(st.segs[..n])) + "/" + st.segs[n];
      DropLastSegment(st.head + Tail(st.segs[..n]), st.segs[n]);
    }
  }

  lemma PushIsAppend(st: Stack, x: string)
    ensures st.Push(x).Text() == st.Text() + "/" + x
  {
    TailSnoc(st.segs, x);
  }

  // ---- the procedure is the stack ------------------------------------------------------------------

  lemma StepDot(t: string, o: string)
    requires t == "" || t[0] == '/'
    ensures Step("/." + t, o) == (if t == "" then "/" else t, o)
  {
    hide DropLast, SegmentEnd;
    var i := "/." + t;
    Rooted(i);
    if t != "" {
      assert "/./" <= i && "/" + i[3..] == t;
    } else {
      assert i == "/.";
    }
  }

  lemma StepDotDot(t: string, o: string)
    requires t == "" || t[0] == '/'
    ensures Step("/.." + t, o) == (if t == "" then "/" else t, DropLast(o))
  {
    hide DropLast, SegmentEnd;
    var i := "/.." + t;
    Rooted(i);
    Misses(i, "/./", 2);
    if t != "" {
      assert "/../" <= i && "/" + i[4..] == t;
    } else {
      assert i == "/..";
    }
  }

  /** A step in front of a segment. */
  lemma StepSegment(x: string, t: string, o: string)
    requires '/' !in x && (t == "" || t[0] == '/')
    ensures Step("/" + x + t, o) ==
      (if Dots(x) then (if t == "" then "/" else t, if x == "." then o else DropLast(o)) else (t, o + "/" + x))
  {
    var i := "/" + x + t;
    if x == "." {
      assert i == "/." + t;
      StepDot(t, o);
    } else if x == ".." {
      assert i == "/.." + t;
      StepDotDot(t, o);
    } else {
      NotDotted(x, t);
      assert i[1..] == x + t;
      IndexAt(x, t, '/');
      assert SegmentEnd(i) == 1 + |x|;
      assert i[..1 + |x|] == "/" + x && i[1 + |x|..] == t;
      assert o + ("/" + x) == o + "/" + x;
    }
  }

  lemma Rooted(i: string)
    requires i != "" && i[0] == '/'
    ensures !("./" <= i) && !("../" <= i) && !Dots(i)
  {
  }

  lemma NotDotted(x: string, t: string)
    requires '/' !in x && !Dots(x) && (t == "" || t[0] == '/')
    ensures var i := "/" + x + t;
      !("./" <= i) && !("../" <= i) && !("/./" <= i) && !("/../" <= i) && i != "/." && i != "/.." && !Dots(i)
  {
    var i := "/" + x + t;
    Rooted(i);
    SegmentChars(x, t);
    Misses(i, "/./", if |x| < 2 then 1 else 2);
    Misses(i, "/../", if |x| == 2 && x[0] == '.' then 2 else if |x| < 3 then (if |x| == 1 then 2 else 1) else 3);
  }

  /** The characters of a path that begins with the segment x, as far as the branches look at them. */
  lemma SegmentChars(x: string, t: string)
    requires '/' !in x && !Dots(x) && (t == "" || t[0] == '/')
    ensures var i := "/" + x + t;
      && (forall k :: 0 <= k < |x| ==> i[k + 1] == x[k] != '/')
      && (t != "" ==> i[|x| + 1] == '/')
    ensures |x| == 1 ==> x[0] != '.'
    ensures |x| == 2 ==> x[0] != '.' || x[1] != '.'
  {
    assert forall k :: 0 <= k < |x| ==> x[k] in x;
    if |x| == 1 {
      assert x == [x[0]];
    } else if |x| == 2 {
      assert x == [x[0], x[1]];
    }
  }

  lemma Misses(i: string, p: string, k: nat)
    requires k < |p| && (k < |i| ==> i[k] != p[k])
    ensures !(p <= i)
  {
  }

  lemma {:induction false} FoldIsRewrite(xs: seq<string>, st: Stack)
    requires Slashless(xs) && Fine(st)
    ensures Rewrite(Tail(xs), st.Text()) == Fold(xs, st).Text() && Fine(Fold(xs, st))
    decreases |xs|
  {
    if xs != [] {
      var x, t := xs[0], Tail(xs[1..]);
      var up := if x == ".." then st.Pop() else st;
      StepSegment(x, t, st.Text());
      PopIsDropLast(st);
      if Dots(x) {
        if |xs| == 1 {
          PushIsAppend(up, "");
          StepSegment("", "", up.Text());
          assert "/" + "" + "" == "/";
        } else {
          FoldIsRewrite(xs[1..], up);
        }
      } else {
        PushIsAppend(st, x);
        FoldIsRewrite(xs[1..], st.Push(x));
      }
    }
  }

  lemma {:induction false} LeadIsRewrite(xs: seq<string>)
    requires xs != [] && Slashless(xs)
    ensures Rewrite(xs[0] + Tail(xs[1..]), "") == StackOf(xs).Text() && Fine(StackOf(xs))
    decreases |xs|
  {
    hide Step, Fold;
    var x, t := xs[0], Tail(xs[1..]);
    var i := x + t;
    if Dots(x) {
      if |xs| == 1 {
        assert i == x && Lead(xs) == Lead(xs[1..]) == [];
        assert Rewrite(i, "") == Rewrite("", "") by { StepDots(x); }
      } else {
        var y := xs[1] + Tail(xs[2..]);
        assert xs[1..][1..] == xs[2..];
        assert t == "/" + xs[1] + Tail(xs[2..]) == "/" + y;
        assert i == x + "/" + y;
        StepLead(x, y);
        LeadIsRewrite(xs[1..]);
      }
    } else if x == "" {
      assert i == t;
      FoldIsRewrite(xs[1..], Stack("", []));
    } else {
      FirstSegment(x, t);
      assert Stack(x, []).Text() == x;
      FoldIsRewrite(xs[1..], Stack(x, []));
    }
  }

  lemma StepDots(x: string)
    requires Dots(x)
    ensures Step(x, "") == ("", "")
  {
  }

  lemma StepLead(x: string, y: string)
    requires Dots(x)
    ensures Step(x + "/" + y, "") == (y, "")
  {
    var i := x + "/" + y;
    assert i[0] == '.' && i[|x|] == '/' && i[|x| + 1..] == y;
    if x == "." {
      assert "./" <= i;
    } else {
      assert i[1] == '.';
      assert "../" <= i;
    }
  }

  lemma FirstSegment(x: string, t: string)
    requires x != "" && '/' !in x && !Dots(x) && (t == "" || t[0] == '/')
    ensures Step(x + t, "") == (t, x)
  {
    hide Index, DropLast;
    var i := x + t;
    HeadChars(x, t);
    assert i[1..] == x[1..] + t;
    IndexAt(x[1..], t, '/');
    assert i[..|x|] == x && i[|x|..] == t;
    Misses(i, "./", if |x| == 1 then 0 else 1);
    Misses(i, "../", if |x| == 2 && x[0] != '.' then 0 else if |x| <= 2 then 1 else 2);
    Misses(i, "/./", 0);
    Misses(i, "/../", 0);
    assert SegmentEnd(i) == |x|;
    assert "" + i[..|x|] == x;
  }

  /** The characters of a relative path that begins with the segment x. */
  lemma HeadChars(x: string, t: string)
    requires x != "" && '/' !in x && !Dots(x) && (t == "" || t[0] == '/')
    ensures var i := x + t;
      && i[0] == x[0] != '/' && (|x| > 1 ==> i[1] == x[1] != '/') && (|x| > 2 ==> i[2] == x[2] != '/')
      && !Dots(i)
    ensures |x| == 1 ==> x[0] != '.'
    ensures |x| == 2 ==> x[0] != '.' || x[1] != '.'
  {
    SegmentChars(x, t);
    var i := x + t;
    if t != "" {
      assert i[|x|] == '/';
    } else {
      assert i == x;
    }
  }

  /** The rewriting procedure of the standard is the fold over the segments of the path. */
  lemma RewriteIsStack(p: string)
    ensures Rewrite(p, "") == ByStack(p)
  {
    SplitJoins(p);
    LeadIsRewrite(Split(p));
  }

  // ---- what comes out ------------------------------------------------------------------------------

  ghost predicate Clean(st: Stack) { Fine(st) && !Dots(st.head) && Dotless(st.segs) }

  lemma {:induction false} FoldClean(xs: seq<string>, st: Stack)
    requires Slashless(xs) && Clean(st)
    ensures Clean(Fold(xs, st)) && (xs != [] ==> Fold(xs, st).segs != [])
    decreases |xs|
  {
    if xs != [] && !(Dots(xs[0]) && |xs| == 1) {
      var up := if xs[0] == ".." then st.Pop() else st;
      FoldClean(xs[1..], if Dots(xs[0]) then up else st.Push(xs[0]));
    }
  }

  lemma {:induction false} LeadClean(xs: seq<string>)
    requires Slashless(xs)
    ensures var ys := Lead(xs); Slashless(ys) && (ys != [] ==> !Dots(ys[0]))
    decreases |xs|
  {
    if xs != [] && Dots(xs[0]) {
      LeadClean(xs[1..]);
    }
  }

  /** Segments without dots are simply kept. */
  lemma {:induction false} FoldKeeps(ys: seq<string>, st: Stack)
    requires Dotless(ys)
    ensures Fold(ys, st) == Stack(st.head, st.segs + ys)
    decreases |ys|
  {
    if ys != [] {
      FoldKeeps(ys[1..], st.Push(ys[0]));
      assert st.segs + [ys[0]] + ys[1..] == st.segs + ys;
    } else {
      assert st.segs + ys == st.segs;
    }
  }

  /** The output has no "." or ".." segment, and removing dot segments again changes nothing. */
  lemma OutputIsClean(p: string)
    ensures var r := Rewrite(p, ""); Dotless(Split(r)) && Rewrite(r, "") == r
  {
    RewriteIsStack(p);
    SplitJoins(p);
    LeadClean(Split(p));
    var ys := Lead(Split(p));
    if ys != [] {
      FoldClean(ys[1..], Stack(ys[0], []));
    }
    var st := StackOf(Split(p));
    JoinSplits(st.head, st.segs);
    RewriteIsStack(st.Text());
    FoldKeeps(st.segs, Stack(st.head, []));
    assert ([st.head] + st.segs)[1..] == st.segs;
    assert [] + st.segs == st.segs;
  }

  /** An absolute path stays one. */
  lemma AbsoluteStays(p: string)
    requires p != "" && p[0] == '/'
    ensures var r := Rewrite(p, ""); r != "" && r[0] == '/'
  {
    RewriteIsStack(p);
    SplitJoins(p);
    var xs := Split(p);
    assert xs[0] == "" && |xs| > 1;
    FoldClean(xs[1..], Stack("", []));
    HeadStays(xs[1..], Stack("", []));
  }

  lemma {:induction false} HeadStays(xs: seq<string>, st: Stack)
    requires st.head == ""
    ensures Fold(xs, st).head == ""
    decreases |xs|
  {
    if xs != [] && !(Dots(xs[0]) && |xs| == 1) {
      var up := if xs[0] == ".." then st.Pop() else st;
      HeadStays(xs[1..], if Dots(xs[0]) then up else st.Push(xs[0]));
    }
  }
}
