/** The language of bracket expressions: the parser of lib/curl_fnmatch.c accepts exactly the texts of
    the grammar below and builds the set that each denotes; what membership in that set amounts to. */
module FnmatchBracket {
  import opened CText
  import opened Wrappers
  import opened FnmatchSpec

  /** A character, perhaps escaped, a range such as a-f, whose ends may be escaped, or a class such
      as [:digit:]. */
  datatype Item =
    | One(c: uchar, escaped: bool)
    | Range(lo: uchar, hi: uchar, loEscaped: bool, hiEscaped: bool)
    | Named(k: Class)

  datatype Negation = Plain | Caret | Bang

  /** A right bracket at the very beginning stands for itself; with it go the left bracket or the
      other character behind it, and the one behind that left bracket. */
  datatype Lead = NoLead | Right(open: bool, next: Option<uchar>)

  predicate RangeOk(lo: uchar, hi: uchar) {
    IsAlnum(lo) && lo <= hi && CharClassOf(lo as int) == CharClassOf(hi as int)
  }

  predicate WellFormed(x: Item) {
    match x
    case One(c, escaped) => c != NUL && (!escaped ==> c != ']' && c != '\\')
    case Range(lo, hi, _, _) => RangeOk(lo, hi)
    case Named(_) => true
  }

  predicate LeadOk(l: Lead) {
    l.Right? && l.next.Some? ==>
      var c := l.next.value;
      c != ']' && if l.open then c != NUL else IsPrint(c) && c != '['
  }

  function PrintChar(c: uchar, escaped: bool): (s: ustring)
    ensures |s| == if escaped then 2 else 1
  {
    if escaped then ['\\', c] else [c]
  }

  function PrintItem(x: Item): (s: ustring)
    ensures s != []
  {
    match x
    case One(c, escaped) => PrintChar(c, escaped)
    case Range(lo, hi, loEscaped, hiEscaped) => PrintChar(lo, loEscaped) + ['-'] + PrintChar(hi, hiEscaped)
    case Named(k) => "[:" + ClassName(k) + ":]"
  }

  function PrintNegation(n: Negation): ustring {
    match n case Plain => [] case Caret => "^" case Bang => "!"
  }

  function PrintLead(l: Lead): ustring {
    match l
    case NoLead => []
    case Right(open, next) => "]" + (if open then "[" else []) + (if next.Some? then [next.value] else [])
  }

  /** The text s stands at offset k of p. */
  predicate Stands(p: ustring, k: nat, s: ustring) { k + |s| <= |p| && p[k..k + |s|] == s }

  /** x stands at offset k and no longer item does. */
  ghost predicate ItemAt(p: ustring, k: nat, x: Item) {
    && WellFormed(x) && Stands(p, k, PrintItem(x))
    && forall y :: WellFormed(y) && Stands(p, k, PrintItem(y)) ==> |PrintItem(y)| <= |PrintItem(x)|
  }

  /** The items stand one behind the other, and then the closing bracket at end. */
  ghost predicate ItemsAt(p: ustring, k: nat, xs: seq<Item>, end: nat)
    decreases |xs|
  {
    if xs == [] then k == end && At(p, k) == ']'
    else ItemAt(p, k, xs[0]) && ItemsAt(p, k + |PrintItem(xs[0])|, xs[1..], end)
  }

  predicate IsMark(c: uchar) { c == '^' || c == '!' }

  /**
   * The body of an expression: not empty, a first character that is not taken for the negation or the
   * end, and nothing behind a leading bracket that lacks its next character.
   */
  ghost predicate BodyAt(p: ustring, k: nat, n: Negation, l: Lead, xs: seq<Item>, end: nat) {
    var start := k + |PrintNegation(n)| + |PrintLead(l)|;
    && Stands(p, k, PrintNegation(n)) && Stands(p, k + |PrintNegation(n)|, PrintLead(l)) && LeadOk(l)
    && ItemsAt(p, start, xs, end)
    && (l == NoLead ==> xs != [] && (n == Plain ==> !IsMark(At(p, k))))
    && (l.Right? && l.next.None? ==> xs == [])
  }

  // ---- what the items denote -------------------------------------------------------------------

  predicate Covers(x: Item, code: int) {
    match x
    case One(c, _) => code == c as int
    case Range(lo, hi, _, _) => lo as int <= code <= hi as int && CharClassOf(code) == CharClassOf(lo as int)
    case Named(k) => code == ClassIndex(k)
  }

  /** The set one item adds to. */
  function Add(cs: Charset, x: Item): Charset {
    seq(CHSET_SIZE, i requires 0 <= i < CHSET_SIZE => cs[i] || Covers(x, i))
  }

  function AddAll(cs: Charset, xs: seq<Item>): Charset
    decreases |xs|
  {
    if xs == [] then cs else AddAll(Add(cs, xs[0]), xs[1..])
  }

  lemma {:induction false} AddAllMeaning(cs: Charset, xs: seq<Item>, i: nat)
    requires i < CHSET_SIZE
    ensures AddAll(cs, xs)[i] <==> cs[i] || exists j :: 0 <= j < |xs| && Covers(xs[j], i)
    decreases |xs|
  {
    if xs != [] {
      AddAllMeaning(Add(cs, xs[0]), xs[1..], i);
      if exists j :: 0 <= j < |xs| && Covers(xs[j], i) {
        var j :| 0 <= j < |xs| && Covers(xs[j], i);
        assert j > 0 ==> Covers(xs[1..][j - 1], i);
      }
    }
  }

  lemma {:induction false} AddAllAppend(cs: Charset, xs: seq<Item>, ys: seq<Item>)
    ensures AddAll(cs, xs + ys) == AddAll(AddAll(cs, xs), ys)
    decreases |xs|
  {
    hide Add;
    if xs == [] {
      assert xs + ys == ys;
    } else {
      assert (xs + ys)[1..] == xs[1..] + ys;
      AddAllAppend(Add(cs, xs[0]), xs[1..], ys);
    }
  }

  /** The characters that a leading bracket stands for. */
  function LeadItems(l: Lead): seq<Item> {
    match l
    case NoLead => []
    case Right(open, next) =>
      [One(']', false)] + (if open then [One('[', false)] else []) +
      (if next.Some? then [One(next.value, false)] else [])
  }

  function Denoted(n: Negation, xs: seq<Item>): Charset {
    AddAll(if n == Plain then EmptySet() else EmptySet()[NEGATE := true], xs)
  }

  // ---- texts -------------------------------------------------------------------------------------

  lemma StandsSplit(p: ustring, k: nat, s: ustring, t: ustring)
    requires Stands(p, k, s + t)
    ensures Stands(p, k, s) && Stands(p, k + |s|, t)
  {
    assert p[k..k + |s|] == p[k..k + |s + t|][..|s|];
    assert p[k + |s|..k + |s| + |t|] == p[k..k + |s + t|][|s|..];
  }

  lemma StandsJoin(p: ustring, k: nat, s: ustring, t: ustring)
    requires Stands(p, k, s) && Stands(p, k + |s|, t)
    ensures Stands(p, k, s + t)
  {
    assert p[k..k + |s + t|] == p[k..k + |s|] + p[k + |s|..k + |s| + |t|];
  }

  lemma StandsChar(p: ustring, k: nat, s: ustring, i: nat)
    requires Stands(p, k, s) && i < |s|
    ensures At(p, k + i) == p[k + i] == s[i]
  {
    assert p[k..k + |s|][i] == s[i];
  }

  lemma StandsOne(p: ustring, k: nat, c: uchar)
    requires c != NUL
    ensures Stands(p, k, [c]) <==> At(p, k) == c
  {
  }

  lemma StandsEscaped(p: ustring, k: nat, c: uchar, escaped: bool)
    requires c != NUL
    ensures Stands(p, k, PrintChar(c, escaped)) <==>
      if escaped then At(p, k) == '\\' && At(p, k + 1) == c else At(p, k) == c
  {
    if escaped {
      if At(p, k) == '\\' && At(p, k + 1) == c {
        assert p[k..k + 2] == ['\\', c];
      }
    } else {
      StandsOne(p, k, c);
    }
  }

  /** A range stands at k: the lower end, the sign and the upper end. */
  lemma StandsRange(p: ustring, k: nat, x: Item)
    requires x.Range? && WellFormed(x)
    ensures var m := k + if x.loEscaped then 2 else 1;
      Stands(p, k, PrintItem(x)) <==>
        Stands(p, k, PrintChar(x.lo, x.loEscaped)) && At(p, m) == '-' && Stands(p, m + 1, PrintChar(x.hi, x.hiEscaped))
  {
    var a, b := PrintChar(x.lo, x.loEscaped), PrintChar(x.hi, x.hiEscaped);
    hide PrintChar;
    if Stands(p, k, PrintItem(x)) {
      StandsSplit(p, k, a + ['-'], b);
      StandsSplit(p, k, a, ['-']);
      StandsOne(p, k + |a|, '-');
    }
    if Stands(p, k, a) && At(p, k + |a|) == '-' && Stands(p, k + |a| + 1, b) {
      StandsOne(p, k + |a|, '-');
      StandsJoin(p, k, a, ['-']);
      StandsJoin(p, k, a + ['-'], b);
    }
  }

  // ---- class names -------------------------------------------------------------------------------

  lemma LowerRunIs(p: ustring, k: nat, s: ustring)
    requires Stands(p, k, s) && (forall i :: 0 <= i < |s| ==> IsLower(s[i])) && !IsLower(At(p, k + |s|))
    ensures LowerRun(p, k) == |s|
  {
    var n := LowerRun(p, k);
    if n < |s| {
      StandsChar(p, k, s, n);
    }
  }

  /** The names are told apart by length and a few letters. */
  lemma NamesDiffer(a: Class, b: Class)
    requires ClassName(a) == ClassName(b)
    ensures a == b
  {
    var s, t := ClassName(a), ClassName(b);
    assert |s| == |t| && s[0] == t[0] && s[1] == t[1] && s[2] == t[2];
  }

  lemma {:induction false} FoundIn(k: Class, classes: seq<Class>)
    requires k in classes
    ensures FindClass(ClassName(k), classes) == Some(k)
    decreases |classes|
  {
    if ClassName(classes[0]) == ClassName(k) {
      NamesDiffer(classes[0], k);
    } else {
      FoundIn(k, classes[1..]);
    }
  }

  lemma {:induction false} FoundIsNamed(name: ustring, classes: seq<Class>)
    requires FindClass(name, classes).Some?
    ensures ClassName(FindClass(name, classes).value) == name
    decreases |classes|
  {
    hide ClassName;
    if ClassName(classes[0]) != name {
      FoundIsNamed(name, classes[1..]);
    }
  }

  lemma Ordered(k: Class)
    ensures k in CLASS_ORDER
  {
    assert CLASS_ORDER[0] == Alnum && CLASS_ORDER[1] == Alpha && CLASS_ORDER[2] == Digit && CLASS_ORDER[3] == XDigit;
    assert CLASS_ORDER[4] == Print && CLASS_ORDER[5] == Space && CLASS_ORDER[6] == Upper && CLASS_ORDER[7] == Lower;
    assert CLASS_ORDER[8] == Blank && CLASS_ORDER[9] == Graph;
  }

  lemma NameLetters(k: Class)
    ensures |ClassName(k)| <= 8 && forall i :: 0 <= i < |ClassName(k)| ==> IsLower(ClassName(k)[i])
  {
  }

  lemma KeywordRead(p: ustring, k: nat, c: Class, cs: Charset)
    requires Stands(p, k, ClassName(c) + ":]")
    ensures FnmatchSpec.ParseKeyword(p, k, cs) == Some((k + |ClassName(c)| + 2, cs[ClassIndex(c) := true]))
  {
    hide ClassName, FindClass;
    var name := ClassName(c);
    NameLetters(c);
    Ordered(c);
    FoundIn(c, CLASS_ORDER);
    StandsSplit(p, k, name, ":]");
    StandsChar(p, k + |name|, ":]", 0);
    StandsChar(p, k + |name|, ":]", 1);
    LowerRunIs(p, k, name);
  }

  lemma KeywordOnly(p: ustring, k: nat, cs: Charset) returns (c: Class)
    requires k <= |p| && FnmatchSpec.ParseKeyword(p, k, cs).Some?
    ensures Stands(p, k, ClassName(c) + ":]")
    ensures FnmatchSpec.ParseKeyword(p, k, cs) == Some((k + |ClassName(c)| + 2, cs[ClassIndex(c) := true]))
  {
    hide ClassName, FindClass, ClassIndex;
    var n := LowerRun(p, k);
    c := FindClass(p[k..k + n], CLASS_ORDER).value;
    FoundIsNamed(p[k..k + n], CLASS_ORDER);
    assert p[k + n..k + n + 2] == ":]";
    StandsJoin(p, k, ClassName(c), ":]");
  }

  lemma NamedStands(p: ustring, k: nat, c: Class)
    ensures Stands(p, k, PrintItem(Named(c))) <==>
      At(p, k) == '[' && At(p, k + 1) == ':' && Stands(p, k + 2, ClassName(c) + ":]")
  {
    hide ClassName;
    assert PrintItem(Named(c)) == "[:" + (ClassName(c) + ":]");
    if Stands(p, k, PrintItem(Named(c))) {
      StandsSplit(p, k, "[:", ClassName(c) + ":]");
      StandsChar(p, k, "[:", 0);
      StandsChar(p, k, "[:", 1);
    }
    if At(p, k) == '[' && At(p, k + 1) == ':' && Stands(p, k + 2, ClassName(c) + ":]") {
      assert p[k..k + 2] == "[:";
      StandsJoin(p, k, "[:", ClassName(c) + ":]");
    }
  }

  // ---- one item ------------------------------------------------------------------------------------

  lemma AddOne(cs: Charset, c: uchar, escaped: bool)
    ensures cs[c as int := true] == Add(cs, One(c, escaped))
  {
  }

  lemma AddSpan(cs: Charset, x: Item)
    requires x.Range? && WellFormed(x)
    ensures AddRange(cs[x.lo as int := true], x.lo, x.hi) == Add(cs, x)
  {
  }

  lemma AddClass(cs: Charset, c: Class)
    ensures cs[ClassIndex(c) := true] == Add(cs, Named(c))
  {
  }

  /** A character that is not special stands at k, behind an escape or not. */
  predicate CharAt(p: ustring, k: nat, escaped: bool) {
    if escaped then k + 1 < |p| && p[k] == '\\' else k < |p| && p[k] != ']' && p[k] != '\\' && p[k] != '['
  }

  /** A range where one can be made out, else the character. */
  function Reading(p: ustring, k: nat, escaped: bool): Item
    requires CharAt(p, k, escaped)
  {
    var m := if escaped then k + 1 else k;
    var hiEscaped := At(p, m + 2) == '\\';
    var hi := At(p, if hiEscaped then m + 3 else m + 2);
    if At(p, m + 1) == '-' && RangeOk(p[m], hi) then Range(p[m], hi, escaped, hiEscaped) else One(p[m], escaped)
  }

  lemma ReadingStands(p: ustring, k: nat, escaped: bool)
    requires IsCString(p) && CharAt(p, k, escaped)
    ensures WellFormed(Reading(p, k, escaped)) && Stands(p, k, PrintItem(Reading(p, k, escaped)))
  {
    hide PrintChar, Stands;
    var x, m := Reading(p, k, escaped), if escaped then k + 1 else k;
    StandsEscaped(p, k, p[m], escaped);
    if x.Range? {
      StandsEscaped(p, m + 2, x.hi, x.hiEscaped);
      StandsRange(p, k, x);
    }
  }

  /** Whatever stands there is the character or the range. */
  lemma OnlyReading(p: ustring, k: nat, escaped: bool, y: Item)
    requires IsCString(p) && CharAt(p, k, escaped) && WellFormed(y) && Stands(p, k, PrintItem(y))
    ensures var m := if escaped then k + 1 else k; y == One(p[m], escaped) || y == Reading(p, k, escaped)
  {
    hide PrintChar, ClassName, Stands;
    match y
    case One(c, e) => StandsEscaped(p, k, c, e);
    case Range(lo, hi, le, he) =>
      StandsRange(p, k, y);
      StandsEscaped(p, k, lo, le);
      StandsEscaped(p, k + (if le then 2 else 1) + 1, hi, he);
    case Named(c) => NamedStands(p, k, c);
  }

  lemma ReadingLength(p: ustring, k: nat, escaped: bool)
    requires CharAt(p, k, escaped)
    ensures var m := if escaped then k + 1 else k; var x := Reading(p, k, escaped);
      && |PrintItem(One(p[m], escaped))| == m + 1 - k <= |PrintItem(x)|
      && (x.Range? ==> k + |PrintItem(x)| == m + (if x.hiEscaped then 4 else 3))
  {
  }

  lemma ReadingItem(p: ustring, k: nat, escaped: bool)
    requires IsCString(p) && CharAt(p, k, escaped)
    ensures ItemAt(p, k, Reading(p, k, escaped))
  {
    hide PrintItem, Reading, CharAt, Stands;
    ReadingStands(p, k, escaped);
    ReadingLength(p, k, escaped);
    forall y | WellFormed(y) && Stands(p, k, PrintItem(y))
      ensures |PrintItem(y)| <= |PrintItem(Reading(p, k, escaped))|
    {
      OnlyReading(p, k, escaped, y);
    }
  }

  /** setcharorrange reads it. */
  lemma CharOrRangeItem(p: ustring, k: nat, escaped: bool, cs: Charset) returns (x: Item)
    requires IsCString(p) && CharAt(p, k, escaped)
    ensures ItemAt(p, k, x)
    ensures var m := if escaped then k + 1 else k;
      FnmatchSpec.SetCharOrRange(p, m, cs) == (k + |PrintItem(x)|, Add(cs, x))
  {
    hide PrintItem, ItemAt, Add, AddRange;
    x := Reading(p, k, escaped);
    ReadingItem(p, k, escaped);
    ReadingLength(p, k, escaped);
    if x.Range? {
      AddSpan(cs, x);
    } else {
      AddOne(cs, x.c, escaped);
    }
  }

  /** A left bracket starts a class, or stands for itself. */
  lemma LeftBracketItem(p: ustring, k: nat, cs: Charset) returns (x: Item)
    requires IsCString(p) && At(p, k) == '['
    ensures ItemAt(p, k, x)
    ensures SetTurn(p, k, InSet, true, cs) == Go(k + |PrintItem(x)|, InSet, true, Add(cs, x))
  {
    hide PrintItem, Add, FnmatchSpec.ParseKeyword, FnmatchSpec.SetCharOrRange, ClassIndex;
    if At(p, k + 1) == ':' && FnmatchSpec.ParseKeyword(p, k + 2, cs).Some? {
      var c := KeywordOnly(p, k + 2, cs);
      x := Named(c);
      AddClass(cs, c);
      NamedStands(p, k, c);
      AtLeftBracket(p, k, x, cs);
    } else {
      x := One('[', false);
      AddOne(cs, '[', false);
      BracketStands(p, k);
    }
    forall y | WellFormed(y) && Stands(p, k, PrintItem(y))
      ensures |PrintItem(y)| <= |PrintItem(x)|
    {
      AtLeftBracket(p, k, y, cs);
      if x.Named? {
        OneLetter('[', x.k);
      }
    }
  }

  lemma BracketStands(p: ustring, k: nat)
    requires At(p, k) == '['
    ensures |PrintItem(One('[', false))| == 1 && Stands(p, k, PrintItem(One('[', false)))
  {
    StandsEscaped(p, k, '[', false);
  }

  lemma AtLeftBracket(p: ustring, k: nat, y: Item, cs: Charset)
    requires IsCString(p) && At(p, k) == '[' && WellFormed(y) && Stands(p, k, PrintItem(y))
    ensures y == One('[', false) || (y.Named? && At(p, k + 1) == ':' &&
      FnmatchSpec.ParseKeyword(p, k + 2, cs) == Some((k + |PrintItem(y)|, cs[ClassIndex(y.k) := true])))
  {
    hide ClassName, FnmatchSpec.ParseKeyword;
    match y
    case One(c, e) => StandsEscaped(p, k, c, e);
    case Range(lo, hi, le, he) =>
      StandsRange(p, k, y);
      StandsEscaped(p, k, lo, le);
    case Named(c) =>
      NamedStands(p, k, c);
      KeywordRead(p, k + 2, c, cs);
  }

  /** One turn of the parser reads the item that stands there. */
  lemma TurnItem(p: ustring, k: nat, cs: Charset) returns (x: Item)
    requires IsCString(p) && k < |p| && p[k] != ']' && (p[k] == '\\' ==> At(p, k + 1) != NUL)
    ensures ItemAt(p, k, x)
    ensures SetTurn(p, k, InSet, true, cs) == Go(k + |PrintItem(x)|, InSet, true, Add(cs, x))
  {
    hide ItemAt, PrintItem, Add, FnmatchSpec.ParseKeyword;
    if p[k] == '[' {
      x := LeftBracketItem(p, k, cs);
    } else {
      x := CharOrRangeItem(p, k, p[k] == '\\', cs);
    }
  }

  /** The longest item at an offset is unique. */
  lemma ItemUnique(p: ustring, k: nat, x: Item, y: Item)
    requires ItemAt(p, k, x) && ItemAt(p, k, y)
    ensures x == y
  {
    assert PrintItem(x) == PrintItem(y);
    SamePrint(x, y);
  }

  lemma SamePrint(x: Item, y: Item)
    requires WellFormed(x) && WellFormed(y) && PrintItem(x) == PrintItem(y)
    ensures x == y
  {
    var s, t := PrintItem(x), PrintItem(y);
    assert s[0] == t[0] && |s| == |t|;
    if x.Named? && y.Named? {
      var a, b := ClassName(x.k), ClassName(y.k);
      assert a == s[2..|s| - 2] && b == t[2..|t| - 2];
      NamesDiffer(x.k, y.k);
    } else if |s| > 1 {
      assert s[1] == t[1] && (|s| > 2 ==> s[2] == t[2]) && (|s| > 3 ==> s[3] == t[3]) && (|s| > 4 ==> s[4] == t[4]);
    }
  }

  /** What an item begins with. */
  lemma ItemStarts(p: ustring, k: nat, x: Item)
    requires IsCString(p) && ItemAt(p, k, x)
    ensures k < |p| && p[k] != ']' && (p[k] == '\\' ==> At(p, k + 1) != NUL)
  {
    hide ClassName;
    match x
    case One(c, e) => StandsEscaped(p, k, c, e);
    case Range(lo, hi, le, he) =>
      StandsRange(p, k, x);
      StandsEscaped(p, k, lo, le);
    case Named(c) => NamedStands(p, k, c);
  }

  /** Reading the item that stands at k adds exactly what it covers. */
  lemma ItemRead(p: ustring, k: nat, x: Item, cs: Charset)
    requires IsCString(p) && ItemAt(p, k, x)
    ensures k + |PrintItem(x)| <= |p|
    ensures SetCharset(p, k, InSet, true, cs) == SetCharset(p, k + |PrintItem(x)|, InSet, true, Add(cs, x))
  {
    hide ItemAt, PrintItem, Add, SetTurn, SetCharset;
    ItemStarts(p, k, x);
    var y := TurnItem(p, k, cs);
    ItemUnique(p, k, x, y);
    TurnOnce(p, k, InSet, true, cs);
  }

  lemma TurnOnce(p: ustring, k: nat, st: SetState, found: bool, cs: Charset)
    requires IsCString(p) && k <= |p|
    ensures var t := SetTurn(p, k, st, found, cs);
      SetCharset(p, k, st, found, cs) ==
        if t == Reject then None else if t == Accept then Some((k, cs)) else SetCharset(p, t.k, t.st, t.found, t.cs)
  {
    hide SetTurn;
  }

  // ---- all items: the grammar is accepted, and nothing else is ----------------------------------------

  lemma {:induction false} ItemsRead(p: ustring, k: nat, xs: seq<Item>, end: nat, cs: Charset)
    requires IsCString(p) && ItemsAt(p, k, xs, end)
    ensures k <= end < |p| && SetCharset(p, k, InSet, true, cs) == Some((end, AddAll(cs, xs)))
    decreases |xs|
  {
    hide ItemAt, PrintItem, Add;
    if xs != [] {
      ItemRead(p, k, xs[0], cs);
      ItemsRead(p, k + |PrintItem(xs[0])|, xs[1..], end, Add(cs, xs[0]));
    }
  }

  lemma {:induction false} ItemsComplete(p: ustring, k: nat, cs: Charset) returns (xs: seq<Item>)
    requires IsCString(p) && k <= |p| && SetCharset(p, k, InSet, true, cs).Some?
    ensures var r := SetCharset(p, k, InSet, true, cs).value;
      ItemsAt(p, k, xs, r.0) && r.1 == AddAll(cs, xs)
    decreases |p| - k
  {
    hide SetCharset, SetTurn, ItemAt, ItemsAt, PrintItem, AddAll, Add;
    if p[k] == ']' {
      xs := [];
      EndsHere(p, k, InSet, cs);
      NoItems(p, k, cs);
    } else {
      NoTrailingEscape(p, k, cs);
      var x := TurnItem(p, k, cs);
      TurnOnce(p, k, InSet, true, cs);
      var rest := ItemsComplete(p, k + |PrintItem(x)|, Add(cs, x));
      xs := [x] + rest;
      MoreItems(p, k, x, rest, SetCharset(p, k, InSet, true, cs).value.0, cs);
    }
  }

  lemma NoItems(p: ustring, k: nat, cs: Charset)
    requires At(p, k) == ']'
    ensures ItemsAt(p, k, [], k) && AddAll(cs, []) == cs
  {
  }

  lemma MoreItems(p: ustring, k: nat, x: Item, rest: seq<Item>, end: nat, cs: Charset)
    requires ItemAt(p, k, x) && ItemsAt(p, k + |PrintItem(x)|, rest, end)
    ensures ItemsAt(p, k, [x] + rest, end) && AddAll(cs, [x] + rest) == AddAll(Add(cs, x), rest)
  {
    hide ItemAt, PrintItem, Add;
  }

  /** An escape with nothing behind it is never closed. */
  lemma NoTrailingEscape(p: ustring, k: nat, cs: Charset)
    requires IsCString(p) && k < |p| && SetCharset(p, k, InSet, true, cs).Some?
    ensures p[k] == '\\' ==> At(p, k + 1) != NUL
  {
    hide FnmatchSpec.SetCharOrRange, FnmatchSpec.ParseKeyword;
  }

  // ---- the beginning -------------------------------------------------------------------------------

  /** The first item is read like the others unless it would be taken for the negation or the end. */
  lemma FirstItem(p: ustring, k: nat, cs: Charset)
    requires IsCString(p) && k <= |p| && At(p, k) != ']' && (IsMark(At(p, k)) ==> cs[NEGATE])
    ensures SetCharset(p, k, InSet, false, cs) == SetCharset(p, k, InSet, true, cs)
  {
    hide FnmatchSpec.SetCharOrRange, FnmatchSpec.ParseKeyword, SetCharset;
    TurnOnce(p, k, InSet, false, cs);
    TurnOnce(p, k, InSet, true, cs);
  }

  predicate LeadAt(p: ustring, k: nat, l: Lead) {
    l.Right? && LeadOk(l) && Stands(p, k, PrintLead(l)) && (l.next.None? ==> At(p, k + |PrintLead(l)|) == ']')
  }

  /** Both states behind a leading bracket end at a right bracket like the ordinary one. */
  lemma EndsHere(p: ustring, k: nat, st: SetState, cs: Charset)
    requires IsCString(p) && k <= |p| && At(p, k) == ']'
    ensures SetCharset(p, k, st, true, cs) == Some((k, cs))
  {
  }

  lemma RightTurn(p: ustring, k: nat, cs: Charset)
    requires IsCString(p) && At(p, k) == ']'
    ensures SetCharset(p, k, InSet, false, cs) == SetCharset(p, k + 1, AfterRight, true, cs[']' as int := true])
  {
    hide SetCharset;
    TurnOnce(p, k, InSet, false, cs);
  }

  lemma OpenTurn(p: ustring, k: nat, cs: Charset)
    requires IsCString(p) && At(p, k) == '['
    ensures SetCharset(p, k, AfterRight, true, cs) == SetCharset(p, k + 1, AfterRightLeft, true, cs['[' as int := true])
  {
    hide SetCharset;
    TurnOnce(p, k, AfterRight, true, cs);
  }

  /** The character behind a leading bracket, or behind the two brackets. */
  lemma NextTurn(p: ustring, k: nat, open: bool, cs: Charset)
    requires IsCString(p) && k <= |p| && At(p, k) != ']' && (open || At(p, k) != '[')
    ensures SetCharset(p, k, if open then AfterRightLeft else AfterRight, true, cs) ==
      if At(p, k) != NUL && (open || IsPrint(At(p, k)))
      then SetCharset(p, k + 1, InSet, true, cs[At(p, k) as int := true]) else None
  {
    hide SetCharset;
    TurnOnce(p, k, if open then AfterRightLeft else AfterRight, true, cs);
  }

  lemma LeadText(p: ustring, k: nat, l: Lead)
    requires l.Right? && LeadOk(l)
    ensures var m := if l.open then k + 2 else k + 1;
      && |PrintLead(l)| == m - k + (if l.next.Some? then 1 else 0)
      && (Stands(p, k, PrintLead(l)) <==>
          At(p, k) == ']' && (l.open ==> At(p, k + 1) == '[') && (l.next.Some? ==> At(p, m) == l.next.value))
  {
    var s := PrintLead(l);
    if Stands(p, k, s) {
      StandsChar(p, k, s, 0);
      if |s| > 1 {
        StandsChar(p, k, s, 1);
      }
      if |s| > 2 {
        StandsChar(p, k, s, 2);
      }
    }
  }

  lemma LeadAdds(l: Lead, cs: Charset)
    requires l.Right?
    ensures var a := cs[']' as int := true]; var b := if l.open then a['[' as int := true] else a;
      AddAll(cs, LeadItems(l)) == if l.next.Some? then b[l.next.value as int := true] else b
  {
    hide Add;
    var a := cs[']' as int := true];
    var b := if l.open then a['[' as int := true] else a;
    AddOne(cs, ']', false);
    AddOne(a, '[', false);
    var x, y, z := [One(']', false)], if l.open then [One('[', false)] else [],
                   if l.next.Some? then [One(l.next.value, false)] else [];
    AddAllAppend(cs, x + y, z);
    AddAllAppend(cs, x, y);
    if l.next.Some? {
      AddOne(b, l.next.value, false);
    }
  }

  lemma LeadRead(p: ustring, k: nat, l: Lead, cs: Charset)
    requires IsCString(p) && k <= |p| && LeadAt(p, k, l)
    ensures var m := k + |PrintLead(l)|;
      m <= |p| && SetCharset(p, k, InSet, false, cs) == SetCharset(p, m, InSet, true, AddAll(cs, LeadItems(l)))
  {
    LeadText(p, k, l);
    LeadAdds(l, cs);
    hide SetCharset, PrintLead, LeadItems, AddAll;
    var a := cs[']' as int := true];
    RightTurn(p, k, cs);
    if l.open {
      OpenTurn(p, k + 1, a);
    }
    var m, b := if l.open then k + 2 else k + 1, if l.open then a['[' as int := true] else a;
    if l.next.Some? {
      NextTurn(p, m, l.open, b);
    } else {
      EndsHere(p, m, if l.open then AfterRightLeft else AfterRight, b);
      EndsHere(p, m, InSet, b);
    }
  }

  lemma LeadComplete(p: ustring, k: nat, cs: Charset) returns (l: Lead)
    requires IsCString(p) && k <= |p| && At(p, k) == ']' && SetCharset(p, k, InSet, false, cs).Some?
    ensures LeadAt(p, k, l)
  {
    var a := cs[']' as int := true];
    hide SetCharset, PrintLead;
    RightTurn(p, k, cs);
    var open := At(p, k + 1) == '[';
    var m := if open then k + 2 else k + 1;
    if open {
      OpenTurn(p, k + 1, a);
    }
    if At(p, m) != ']' {
      NextTurn(p, m, open, if open then a['[' as int := true] else a);
    }
    l := Right(open, if At(p, m) == ']' then None else Some(At(p, m)));
    LeadText(p, k, l);
  }

  // ---- whole expressions ---------------------------------------------------------------------------

  function StartSet(n: Negation): Charset { if n == Plain then EmptySet() else EmptySet()[NEGATE := true] }

  lemma NegationRead(p: ustring, k: nat, n: Negation)
    requires IsCString(p) && k <= |p| && Stands(p, k, PrintNegation(n))
    ensures SetCharset(p, k, InSet, false, EmptySet()) ==
      SetCharset(p, k + |PrintNegation(n)|, InSet, false, StartSet(n))
  {
    hide FnmatchSpec.SetCharOrRange, FnmatchSpec.ParseKeyword, SetCharset;
    if n != Plain {
      StandsChar(p, k, PrintNegation(n), 0);
      TurnOnce(p, k, InSet, false, EmptySet());
    }
  }

  /** Every expression of the grammar is read as the set it denotes. */
  lemma BodyRead(p: ustring, k: nat, n: Negation, l: Lead, xs: seq<Item>, end: nat)
    requires IsCString(p) && k <= |p| && BodyAt(p, k, n, l, xs, end)
    ensures SetCharset(p, k, InSet, false, EmptySet()) == Some((end, Denoted(n, LeadItems(l) + xs)))
  {
    hide SetCharset, ItemsAt, AddAll, LeadItems, PrintLead, StartSet, Denoted;
    NegationRead(p, k, n);
    DenotedSplit(n, l, xs);
    RestRead(p, k + |PrintNegation(n)|, StartSet(n), l, xs, end);
  }

  lemma DenotedSplit(n: Negation, l: Lead, xs: seq<Item>)
    ensures Denoted(n, LeadItems(l) + xs) == AddAll(AddAll(StartSet(n), LeadItems(l)), xs)
    ensures StartSet(n)[NEGATE] <==> n != Plain
    ensures l == NoLead ==> AddAll(StartSet(n), LeadItems(l)) == StartSet(n)
    ensures PrintNegation(n) == [] <==> n == Plain
  {
    AddAllAppend(StartSet(n), LeadItems(l), xs);
  }

  /** The expression behind its negation. */
  lemma RestRead(p: ustring, m: nat, cs: Charset, l: Lead, xs: seq<Item>, end: nat)
    requires IsCString(p) && m <= |p| && Stands(p, m, PrintLead(l)) && LeadOk(l)
    requires ItemsAt(p, m + |PrintLead(l)|, xs, end)
    requires l == NoLead ==> xs != [] && (IsMark(At(p, m)) ==> cs[NEGATE])
    requires l.Right? && l.next.None? ==> xs == []
    requires l == NoLead ==> AddAll(cs, LeadItems(l)) == cs
    ensures SetCharset(p, m, InSet, false, cs) == Some((end, AddAll(AddAll(cs, LeadItems(l)), xs)))
  {
    hide SetCharset, ItemsAt, AddAll, LeadItems, PrintLead, Stands, LeadOk;
    ItemsRead(p, m + |PrintLead(l)|, xs, end, AddAll(cs, LeadItems(l)));
    ItemsBegin(p, m + |PrintLead(l)|, xs, end);
    if l.Right? {
      LeadRead(p, m, l, cs);
    } else {
      NoLeadText();
      FirstItem(p, m, cs);
    }
  }

  lemma ItemsBegin(p: ustring, k: nat, xs: seq<Item>, end: nat)
    requires IsCString(p) && ItemsAt(p, k, xs, end)
    ensures At(p, k) == ']' <==> xs == []
  {
    hide ItemAt;
    if xs != [] {
      ItemStarts(p, k, xs[0]);
    }
  }

  /** Whatever is accepted is an expression of the grammar. */
  lemma BodyComplete(p: ustring, k: nat) returns (n: Negation, l: Lead, xs: seq<Item>)
    requires IsCString(p) && k <= |p| && SetCharset(p, k, InSet, false, EmptySet()).Some?
    ensures BodyAt(p, k, n, l, xs, SetCharset(p, k, InSet, false, EmptySet()).value.0)
  {
    hide SetCharset, ItemAt, AddAll, PrintItem, LeadItems, PrintLead;
    n := if At(p, k) == '^' then Caret else if At(p, k) == '!' then Bang else Plain;
    if n != Plain {
      StandsOne(p, k, p[k]);
    }
    NegationRead(p, k, n);
    var m := k + |PrintNegation(n)|;
    NoLeadText();
    if At(p, m) == ']' {
      l := LeadComplete(p, m, StartSet(n));
      LeadRead(p, m, l, StartSet(n));
      if l.next.None? {
        xs := [];
        EndsHere(p, m + |PrintLead(l)|, InSet, AddAll(StartSet(n), LeadItems(l)));
      } else {
        xs := ItemsComplete(p, m + |PrintLead(l)|, AddAll(StartSet(n), LeadItems(l)));
      }
    } else {
      l := NoLead;
      FirstItem(p, m, StartSet(n));
      xs := ItemsComplete(p, m, StartSet(n));
    }
  }

  lemma NoLeadText()
    ensures PrintLead(NoLead) == [] && PrintNegation(Plain) == []
  {
  }

  /** Some expression of the grammar stands there, ends at end and denotes cs. */
  ghost predicate DenotedAt(p: ustring, k: nat, end: nat, cs: Charset) {
    exists n, l, xs :: BodyAt(p, k, n, l, xs, end) && cs == Denoted(n, LeadItems(l) + xs)
  }

  /** The parser of bracket expressions accepts the grammar, all of it and nothing else. */
  lemma ParserIsGrammar(p: ustring, k: nat, end: nat, cs: Charset)
    requires IsCString(p) && k <= |p|
    ensures SetCharset(p, k, InSet, false, EmptySet()) == Some((end, cs)) <==> DenotedAt(p, k, end, cs)
  {
    hide SetCharset, BodyAt, Denoted, LeadItems;
    if DenotedAt(p, k, end, cs) {
      var n, l, xs :| BodyAt(p, k, n, l, xs, end) && cs == Denoted(n, LeadItems(l) + xs);
      BodyRead(p, k, n, l, xs, end);
    }
    if SetCharset(p, k, InSet, false, EmptySet()) == Some((end, cs)) {
      var n, l, xs := BodyComplete(p, k);
      BodyRead(p, k, n, l, xs, end);
    }
  }

  /** In a pattern an expression is one token, and the pattern goes on behind its closing bracket. */
  lemma BracketRoundTrip(p: ustring, k: nat, n: Negation, l: Lead, xs: seq<Item>, end: nat)
    requires IsCString(p) && k < |p| && p[k] == '[' && BodyAt(p, k + 1, n, l, xs, end)
    ensures end < |p| && Tokens(p, k) == [Set(Denoted(n, LeadItems(l) + xs))] + Tokens(p, end + 1)
  {
    hide SetCharset, BodyAt, Denoted, LeadItems;
    BodyRead(p, k + 1, n, l, xs, end);
  }

  ghost predicate Expression(p: ustring, k: nat) {
    exists end: nat, n, l, xs :: BodyAt(p, k, n, l, xs, end)
  }

  /** The rest of a pattern is the one token that nothing fits exactly where no expression stands. */
  lemma NoExpression(p: ustring, k: nat)
    requires IsCString(p) && k < |p| && p[k] == '['
    ensures Tokens(p, k) == [Bad] <==> !Expression(p, k + 1)
    ensures !Expression(p, k + 1) ==> forall s: ustring :: !Matches(Tokens(p, k), s)
  {
    hide SetCharset, BodyAt, Denoted, LeadItems, Matches;
    assert [Bad] + [] == [Bad];
    forall s: ustring
      ensures !Matches([Bad], s)
    {
      MatchesBad([], s);
    }
    if Expression(p, k + 1) {
      var end: nat, n, l, xs :| BodyAt(p, k + 1, n, l, xs, end);
      BracketRoundTrip(p, k, n, l, xs, end);
      assert Tokens(p, k)[0] != Bad;
    } else if SetCharset(p, k + 1, InSet, false, EmptySet()).Some? {
      var n, l, xs := BodyComplete(p, k + 1);
      assert false;
    }
  }

  // ---- writing an expression -----------------------------------------------------------------------

  function PrintItems(xs: seq<Item>): ustring {
    if xs == [] then [] else PrintItem(xs[0]) + PrintItems(xs[1..])
  }

  /** Items that need no look at what follows: single characters are escaped. */
  predicate Plainly(x: Item) { WellFormed(x) && (x.One? ==> x.escaped) }

  /** What a plain item that is no class begins with. */
  lemma PlainStarts(p: ustring, k: nat, x: Item)
    requires IsCString(p) && Plainly(x) && !x.Named? && Stands(p, k, PrintItem(x))
    ensures k < |p| && p[k] != ']' && p[k] != '['
    ensures p[k] == '\\' ==> k + 1 < |p|
    ensures x.One? ==> p[k] == '\\' && |PrintItem(x)| == 2
  {
    match x
    case One(c, e) => StandsEscaped(p, k, c, e);
    case Range(lo, hi, le, he) =>
      StandsRange(p, k, x);
      StandsEscaped(p, k, lo, le);
  }

  lemma PlainLongest(p: ustring, k: nat, x: Item, y: Item)
    requires IsCString(p) && Plainly(x) && Stands(p, k, PrintItem(x)) && At(p, k + |PrintItem(x)|) != '-'
    requires WellFormed(y) && Stands(p, k, PrintItem(y))
    ensures |PrintItem(y)| <= |PrintItem(x)|
  {
    hide PrintItem, WellFormed;
    if x.Named? {
      NamedStands(p, k, x.k);
      AtLeftBracket(p, k, x, EmptySet());
      AtLeftBracket(p, k, y, EmptySet());
      OneLetter('[', x.k);
    } else {
      PlainStarts(p, k, x);
      OnlyReading(p, k, p[k] == '\\', x);
      OnlyReading(p, k, p[k] == '\\', y);
      ReadingLength(p, k, p[k] == '\\');
    }
  }

  lemma OneLetter(c: uchar, k: Class)
    ensures |PrintItem(One(c, false))| == 1 < |PrintItem(Named(k))|
  {
    hide ClassName;
  }

  lemma PlainItem(p: ustring, k: nat, x: Item)
    requires IsCString(p) && Plainly(x) && Stands(p, k, PrintItem(x)) && At(p, k + |PrintItem(x)|) != '-'
    ensures ItemAt(p, k, x)
  {
    hide PrintItem;
    forall y | WellFormed(y) && Stands(p, k, PrintItem(y))
      ensures |PrintItem(y)| <= |PrintItem(x)|
    {
      PlainLongest(p, k, x, y);
    }
  }

  /** No such item starts with the range sign. */
  lemma FirstLetter(x: Item)
    requires Plainly(x)
    ensures PrintItem(x)[0] != '-' && !IsMark(PrintItem(x)[0])
  {
    hide ClassName;
    match x
    case One(_, _) =>
    case Range(_, _, _, _) =>
    case Named(k) => assert PrintItem(x) == ['['] + ([':'] + ClassName(k) + ":]");
  }

  lemma NoDash(xs: seq<Item>)
    requires forall i :: 0 <= i < |xs| ==> Plainly(xs[i])
    ensures (PrintItems(xs) + "]")[0] != '-'
    ensures xs != [] ==> !IsMark((PrintItems(xs) + "]")[0])
  {
    hide PrintItem, Plainly;
    if xs != [] {
      FirstLetter(xs[0]);
    }
  }

  lemma {:induction false} PrintedItems(p: ustring, k: nat, xs: seq<Item>)
    requires IsCString(p) && (forall x :: x in xs ==> Plainly(x)) && Stands(p, k, PrintItems(xs) + "]")
    ensures ItemsAt(p, k, xs, k + |PrintItems(xs)|)
    decreases |xs|
  {
    hide PrintItem, Plainly, ItemAt;
    if xs == [] {
      assert PrintItems(xs) + "]" == "]";
      StandsChar(p, k, "]", 0);
    } else {
      var first, rest := PrintItem(xs[0]), PrintItems(xs[1..]) + "]";
      assert PrintItems(xs) + "]" == first + rest;
      StandsSplit(p, k, first, rest);
      StandsChar(p, k + |first|, rest, 0);
      assert xs[0] in xs;
      NoDash(xs[1..]);
      PlainItem(p, k, xs[0]);
      PrintedItems(p, k + |first|, xs[1..]);
    }
  }

  lemma NoLeadStands(p: ustring, k: nat)
    ensures PrintLead(NoLead) == [] && LeadOk(NoLead) && (k <= |p| ==> Stands(p, k, []))
  {
  }

  lemma PlainNegation(n: Negation)
    ensures n == Plain ==> |PrintNegation(n)| == 0
  {
  }

  /** Every set of characters, ranges and classes has an expression: its items written one after the
      other with the single characters escaped, whatever surrounds them in the pattern. */
  lemma PrintedBody(p: ustring, k: nat, n: Negation, xs: seq<Item>)
    requires IsCString(p) && xs != [] && forall x :: x in xs ==> Plainly(x)
    requires Stands(p, k, PrintNegation(n) + (PrintItems(xs) + "]"))
    ensures BodyAt(p, k, n, NoLead, xs, k + |PrintNegation(n)| + |PrintItems(xs)|)
  {
    hide PrintItems, ItemsAt, Plainly, Stands, PrintNegation;
    var body := PrintItems(xs) + "]";
    StandsSplit(p, k, PrintNegation(n), body);
    NoLeadStands(p, k + |PrintNegation(n)|);
    PlainNegation(n);
    assert forall i :: 0 <= i < |xs| ==> xs[i] in xs;
    NoDash(xs);
    StandsChar(p, k + |PrintNegation(n)|, body, 0);
    PrintedItems(p, k + |PrintNegation(n)|, xs);
  }

  // ---- membership -----------------------------------------------------------------------------

  predicate Explicit(xs: seq<Item>, c: uchar) { exists j :: 0 <= j < |xs| && Covers(xs[j], c as int) }

  /** Some named class, asked or not, contains the character. */
  predicate InNamed(xs: seq<Item>, c: uchar) { exists k :: Named(k) in xs && InClass(k, c) }

  /** The first class, in the order the code asks, that some item names. */
  function FirstNamed(xs: seq<Item>, order: seq<Class>): seq<Class> {
    if order == [] then [] else if Named(order[0]) in xs then [order[0]] else FirstNamed(xs, order[1..])
  }

  predicate InFirst(xs: seq<Item>, c: uchar) {
    var first := FirstNamed(xs, CLASS_ORDER);
    first != [] && InClass(first[0], c)
  }

  lemma DenotedFlag(n: Negation, xs: seq<Item>, i: nat)
    requires i < CHSET_SIZE
    ensures Denoted(n, xs)[i] <==> (i == NEGATE && n != Plain) || exists j :: 0 <= j < |xs| && Covers(xs[j], i)
  {
    AddAllMeaning(if n == Plain then EmptySet() else EmptySet()[NEGATE := true], xs, i);
  }

  lemma ClassFlag(n: Negation, xs: seq<Item>, k: Class)
    ensures Denoted(n, xs)[ClassIndex(k)] <==> Named(k) in xs
  {
    DenotedFlag(n, xs, ClassIndex(k));
    if Named(k) in xs {
      var j :| 0 <= j < |xs| && xs[j] == Named(k);
      assert Covers(xs[j], ClassIndex(k));
    }
    if exists j :: 0 <= j < |xs| && Covers(xs[j], ClassIndex(k)) {
      var j :| 0 <= j < |xs| && Covers(xs[j], ClassIndex(k));
      assert xs[j].Named? && xs[j].k == k;
    }
  }

  lemma NegationFlag(n: Negation, xs: seq<Item>)
    ensures Denoted(n, xs)[NEGATE] <==> n != Plain
  {
    DenotedFlag(n, xs, NEGATE);
    assert forall j :: 0 <= j < |xs| ==> !Covers(xs[j], NEGATE);
  }

  lemma {:induction false} FirstClassIsFirstNamed(n: Negation, xs: seq<Item>, order: seq<Class>)
    ensures FirstClass(Denoted(n, xs), order) == FirstNamed(xs, order)
    decreases |order|
  {
    if order != [] {
      ClassFlag(n, xs, order[0]);
      FirstClassIsFirstNamed(n, xs, order[1..]);
    }
  }

  /** Membership in a printed bracket expression: listed characters and ranges, else only the
      first named class, all of it negated or not. */
  lemma MemberMeaning(n: Negation, xs: seq<Item>, c: uchar)
    ensures Member(Denoted(n, xs), c) <==> ((n != Plain) != (Explicit(xs, c) || InFirst(xs, c)))
  {
    DenotedFlag(n, xs, c as int);
    NegationFlag(n, xs);
    FirstClassIsFirstNamed(n, xs, CLASS_ORDER);
  }

  /** The expression means the union of its items for every character. */
  ghost predicate MeansUnion(n: Negation, xs: seq<Item>) {
    forall c: uchar :: Member(Denoted(n, xs), c) <==> ((n != Plain) != (Explicit(xs, c) || InNamed(xs, c)))
  }

  /** The parts of the character table of lib/curl_ctype.c that classes are made of. */
  datatype Part = Digits | HexUppers | OtherUppers | HexLowers | OtherLowers | OneSpace | OneTab | LineSpaces | Puncts

  function PartOf(c: uchar): Option<Part> {
    if IsDigit(c) then Some(Digits)
    else if 'A' <= c <= 'F' then Some(HexUppers)
    else if 'G' <= c <= 'Z' then Some(OtherUppers)
    else if 'a' <= c <= 'f' then Some(HexLowers)
    else if 'g' <= c <= 'z' then Some(OtherLowers)
    else if c == ' ' then Some(OneSpace)
    else if c == '\t' then Some(OneTab)
    else if 10 <= c as int <= 13 then Some(LineSpaces)
    else if '!' <= c <= '~' then Some(Puncts)
    else None
  }

  /** The table of the classes. One class contains another exactly when its parts do. */
  function Parts(k: Class): set<Part> {
    match k
    case Digit => {Digits}
    case Upper => {HexUppers, OtherUppers}
    case Lower => {HexLowers, OtherLowers}
    case Alpha => {HexUppers, OtherUppers, HexLowers, OtherLowers}
    case Alnum => {Digits, HexUppers, OtherUppers, HexLowers, OtherLowers}
    case XDigit => {Digits, HexUppers, HexLowers}
    case Blank => {OneSpace, OneTab}
    case Space => {OneSpace, OneTab, LineSpaces}
    case Graph => {Digits, HexUppers, OtherUppers, HexLowers, OtherLowers, OneTab, LineSpaces, Puncts}
    case Print => {Digits, HexUppers, OtherUppers, HexLowers, OtherLowers, OneSpace, OneTab, LineSpaces, Puncts}
  }

  lemma PartsTable(k: Class, c: uchar)
    ensures InClass(k, c) <==> PartOf(c).Some? && PartOf(c).value in Parts(k)
  {
  }

  function Sample(a: Part): (c: uchar)
    ensures PartOf(c) == Some(a)
  {
    match a
    case Digits => '0' case HexUppers => 'A' case OtherUppers => 'G' case HexLowers => 'a' case OtherLowers => 'g'
    case OneSpace => ' ' case OneTab => '\t' case LineSpaces => '\n' case Puncts => '!'
  }

  /** A class contains another one exactly when the table says so. */
  lemma ContainsTable(a: Class, b: Class)
    ensures (forall c: uchar :: InClass(b, c) ==> InClass(a, c)) <==> Parts(b) <= Parts(a)
  {
    hide InClass, Parts, PartOf;
    forall c: uchar
      ensures InClass(a, c) <==> PartOf(c).Some? && PartOf(c).value in Parts(a)
      ensures InClass(b, c) <==> PartOf(c).Some? && PartOf(c).value in Parts(b)
    {
      PartsTable(a, c);
      PartsTable(b, c);
    }
    if forall c: uchar :: InClass(b, c) ==> InClass(a, c) {
      forall x | x in Parts(b)
        ensures x in Parts(a)
      {
        assert InClass(b, Sample(x));
      }
    }
  }

  /** Every character of the part is listed, alone or in a range. */
  ghost predicate Lists(xs: seq<Item>, a: Part) {
    forall c: uchar :: PartOf(c) == Some(a) ==> Explicit(xs, c)
  }

  predicate InFirstClass(xs: seq<Item>, a: Part) {
    var first := FirstNamed(xs, CLASS_ORDER);
    first != [] && a in Parts(first[0])
  }

  /** Each part of a named class is a part of the first named class, or listed. */
  ghost predicate FirstSuffices(xs: seq<Item>) {
    forall k, a :: Named(k) in xs && a in Parts(k) ==> InFirstClass(xs, a) || Lists(xs, a)
  }

  lemma {:induction false} FirstNamedIsNamed(xs: seq<Item>, order: seq<Class>)
    ensures FirstNamed(xs, order) != [] ==> Named(FirstNamed(xs, order)[0]) in xs
    decreases |order|
  {
    if order != [] {
      FirstNamedIsNamed(xs, order[1..]);
    }
  }

  lemma FirstByParts(xs: seq<Item>, c: uchar)
    ensures InFirst(xs, c) <==> PartOf(c).Some? && InFirstClass(xs, PartOf(c).value)
    ensures InFirst(xs, c) ==> InNamed(xs, c)
  {
    hide FirstNamed, InClass, Parts, PartOf;
    FirstNamedIsNamed(xs, CLASS_ORDER);
    var first := FirstNamed(xs, CLASS_ORDER);
    if first != [] {
      PartsTable(first[0], c);
    }
  }

  /**
   * Bracket expressions are not the union of their items in general; they are exactly when every
   * part of the named classes belongs to the first of them or is listed besides.
   */
  lemma UnionExactlyWhen(n: Negation, xs: seq<Item>)
    ensures MeansUnion(n, xs) <==> FirstSuffices(xs)
  {
    hide Denoted, Member, Explicit, InFirst, FirstNamed, InClass, Parts, PartOf, InFirstClass;
    forall c: uchar
      ensures Member(Denoted(n, xs), c) <==> ((n != Plain) != (Explicit(xs, c) || InFirst(xs, c)))
      ensures InFirst(xs, c) <==> PartOf(c).Some? && InFirstClass(xs, PartOf(c).value)
      ensures InFirst(xs, c) ==> InNamed(xs, c)
    {
      MemberMeaning(n, xs, c);
      FirstByParts(xs, c);
    }
    if MeansUnion(n, xs) {
      forall k, a | Named(k) in xs && a in Parts(k) && !InFirstClass(xs, a)
        ensures Lists(xs, a)
      {
        forall c: uchar | PartOf(c) == Some(a)
          ensures Explicit(xs, c)
        {
          PartsTable(k, c);
          assert InNamed(xs, c);
        }
      }
    }
    if FirstSuffices(xs) {
      forall c: uchar | InNamed(xs, c)
        ensures Explicit(xs, c) || InFirst(xs, c)
      {
        var k :| Named(k) in xs && InClass(k, c);
        PartsTable(k, c);
        assert PartOf(c).value in Parts(k);
      }
    }
  }

  /** Without listed characters only the table counts. */
  lemma ClassesUnionExactlyWhen(n: Negation, xs: seq<Item>)
    requires forall j :: 0 <= j < |xs| ==> xs[j].Named?
    ensures MeansUnion(n, xs) <==>
      forall k :: Named(k) in xs ==>
        FirstNamed(xs, CLASS_ORDER) != [] && Parts(k) <= Parts(FirstNamed(xs, CLASS_ORDER)[0])
  {
    hide FirstNamed, Parts, PartOf, MeansUnion;
    UnionExactlyWhen(n, xs);
    var first := FirstNamed(xs, CLASS_ORDER);
    forall k, a | Named(k) in xs && a in Parts(k)
      ensures first != [] && (InFirstClass(xs, a) || Lists(xs, a) <==> a in Parts(first[0]))
    {
      Ordered(k);
      SomeFirst(xs, k, CLASS_ORDER);
      assert !Explicit(xs, Sample(a)) by {
        assert forall j :: 0 <= j < |xs| ==> !Covers(xs[j], Sample(a) as int);
      }
    }
    if FirstSuffices(xs) {
      forall k | Named(k) in xs
        ensures first != [] && Parts(k) <= Parts(first[0])
      {
        Ordered(k);
        SomeFirst(xs, k, CLASS_ORDER);
      }
    }
  }

  lemma {:induction false} SomeFirst(xs: seq<Item>, k: Class, order: seq<Class>)
    requires Named(k) in xs && k in order
    ensures FirstNamed(xs, order) != []
    decreases |order|
  {
    if Named(order[0]) !in xs {
      assert k in order[1..];
      SomeFirst(xs, k, order[1..]);
    }
  }

  /** "[[:digit:][:alpha:]]" does not match a digit. */
  lemma DigitIsLost()
    ensures !Member(Denoted(Plain, [Named(Digit), Named(Alpha)]), '5') && InNamed([Named(Digit), Named(Alpha)], '5')
  {
    var xs := [Named(Digit), Named(Alpha)];
    MemberMeaning(Plain, xs, '5');
    assert xs[1] == Named(Alpha) && xs[0] == Named(Digit);
    assert CLASS_ORDER[1..][0] == Alpha;
    assert FirstNamed(xs, CLASS_ORDER) == [Alpha];
    assert Named(Digit) in xs;
  }
}
