/** What lib/content_encoding.c relies on from zlib's inflate: a library that may take its input and
    give its output in portions of any size, as long as it makes progress. */
module Zlib {
  import opened CText

  /** CURL_MAX_WRITE_SIZE, the room for output in each call. */
  const DSIZ: nat := 16384

  datatype Format = ZlibFormat | RawDeflate | GzipFormat

  /** What inflate says of the bytes it has taken: it takes bytes until the end of the stream or an error. */
  datatype Inflate = More | StreamEnd | DataError

  type Inflater = seq<Byte> -> Inflate

  datatype Status = ZOk | ZBufError | ZStreamEnd | ZDataError

  /** One call: its status, and how many bytes it takes and gives. */
  datatype Call = Call(status: Status, taken: nat, given: nat)

  /** out is all the output for the bytes taken so far. A call depends on them, on the number of bytes
      given before, and on the input at hand. */
  datatype Library = Library(out: (Format, seq<Byte>) -> seq<Byte>, verdict: (Format, seq<Byte>) -> Inflate,
                             call: (Format, seq<Byte>, nat, seq<Byte>) -> Call)

  function Verdicts(z: Library, f: Format): Inflater { x => z.verdict(f, x) }

  /** Calls may be made until the stream has been taken and given to its end, or an error was found. */
  predicate Open(z: Library, f: Format, taken: seq<Byte>, given: nat) {
    && given <= |z.out(f, taken)| && z.verdict(f, taken) != DataError
    && !(z.verdict(f, taken) == StreamEnd && given == |z.out(f, taken)|)
  }

  /** A call reads on until its portion, the end or an error. Output may stay pending, also at the end of
      the stream. Without progress there is neither input nor output left. */
  predicate CallOk(z: Library, f: Format, taken: seq<Byte>, given: nat, avail: seq<Byte>, c: Call) {
    && c.taken <= |avail| && c.given <= DSIZ
    && (z.verdict(f, taken) == StreamEnd ==> c.taken == 0)
    && (forall k :: 0 < k < c.taken ==> z.verdict(f, taken + avail[..k]) == More)
    && var now := taken + avail[..c.taken];
      && given + c.given <= |z.out(f, now)|
      && (c.status == ZDataError <==> z.verdict(f, now) == DataError)
      && (c.status == ZStreamEnd <==> z.verdict(f, now) == StreamEnd && given + c.given == |z.out(f, now)|)
      && (c.status == ZOk ==> c.taken > 0 || c.given > 0)
      && (c.status == ZBufError ==> avail == [] && c.given == 0 && given == |z.out(f, now)|)
  }

  ghost predicate Lawful(z: Library) {
    && (forall f :: z.out(f, []) == [] && z.verdict(f, []) == More)
    && (forall f, x: seq<Byte>, y: seq<Byte> :: x <= y ==> z.out(f, x) <= z.out(f, y))
    && (forall f, x: seq<Byte>, given: nat, avail: seq<Byte> ::
          Open(z, f, x, given) ==> CallOk(z, f, x, given, avail, z.call(f, x, given, avail)))
  }

  /**
   * The calls on this input come to the error, and none before it has given output. What the erring call
   * itself has put into the buffer does not matter: it is not passed on.
   */
  predicate QuietBreak(z: Library, f: Format, taken: seq<Byte>, given: nat, avail: seq<Byte>)
    decreases |avail|
  {
    var c := z.call(f, taken, given, avail);
    || c.status == ZDataError
    || (c.status == ZOk && c.given == 0 && 0 < c.taken <= |avail|
        && QuietBreak(z, f, taken + avail[..c.taken], given, avail[c.taken..]))
  }

  /** An error is only come to when some beginning of the input is bad, and none before it is the end. */
  lemma {:induction false} BreakIsSeen(z: Library, f: Format, taken: seq<Byte>, given: nat, avail: seq<Byte>)
    returns (k: nat)
    requires Lawful(z) && Open(z, f, taken, given) && QuietBreak(z, f, taken, given, avail)
    ensures 0 < k <= |avail| && z.verdict(f, taken + avail[..k]) == DataError
    ensures forall j :: 0 <= j < k ==> z.verdict(f, taken + avail[..j]) == More
    decreases |avail|
  {
    var c := z.call(f, taken, given, avail);
    assert CallOk(z, f, taken, given, avail, c);
    assert taken + avail[..0] == taken;
    k := c.taken;
    if c.status != ZDataError {
      var i := BreakIsSeen(z, f, taken + avail[..k], given, avail[k..]);
      forall j | k <= j <= k + i
        ensures z.verdict(f, taken + avail[..j]) == z.verdict(f, taken + avail[..k] + avail[k..][..j - k])
      {
        TakenFurther(taken, avail, k, j);
      }
      k := k + i;
    }
  }

  lemma TakenFurther(taken: seq<Byte>, avail: seq<Byte>, k: nat, j: nat)
    requires k <= j <= |avail|
    ensures taken + avail[..j] == taken + avail[..k] + avail[k..][..j - k]
  {
    assert avail[..j] == avail[..k] + avail[k..][..j - k];
  }

  /** Bad at its b-th byte, and not before. */
  predicate BreaksAt(z: Library, f: Format, d: seq<Byte>, b: nat) {
    && 0 < b <= |d| && z.verdict(f, d[..b]) == DataError
    && forall k :: 0 < k < b ==> z.verdict(f, d[..k]) == More
  }

  /** A call on such input takes no more than up to the bad byte, and gives nothing before it. */
  lemma SilentCall(z: Library, f: Format, d: seq<Byte>, b: nat, i: nat, n: nat)
    requires Lawful(z) && BreaksAt(z, f, d, b) && z.out(f, d[..b]) == [] && i < b <= n <= |d|
    ensures var c := z.call(f, d[..i], 0, d[i..n]);
      && i + c.taken <= b
      && (if i + c.taken == b then c.status == ZDataError else c.status == ZOk && c.given == 0 && c.taken > 0)
  {
    hide Lawful;
    var taken, avail := d[..i], d[i..n];
    var c := z.call(f, taken, 0, avail);
    PrefixSilent(z, f, d, i, b);
    PrefixMore(z, f, d, i, b);
    assert taken + avail[..b - i] == d[..b];
    CallKept(z, f, taken, 0, avail);
    assert taken + avail[..c.taken] == d[..i + c.taken];
    PrefixMore(z, f, d, i + c.taken, b);
    PrefixSilent(z, f, d, i + c.taken, b);
  }

  lemma CallKept(z: Library, f: Format, taken: seq<Byte>, given: nat, avail: seq<Byte>)
    requires Lawful(z) && Open(z, f, taken, given)
    ensures CallOk(z, f, taken, given, avail, z.call(f, taken, given, avail))
  {
  }

  lemma PrefixMore(z: Library, f: Format, d: seq<Byte>, i: nat, b: nat)
    requires Lawful(z) && BreaksAt(z, f, d, b) && i <= b
    ensures i < b ==> z.verdict(f, d[..i]) == More
  {
    assert d[..0] == [];
  }

  /** Input that is bad before there is any output for it breaks quietly, whatever the portions. */
  lemma {:induction false} SilentBreak(z: Library, f: Format, d: seq<Byte>, b: nat, i: nat, n: nat)
    requires Lawful(z) && BreaksAt(z, f, d, b) && z.out(f, d[..b]) == [] && i < b <= n <= |d|
    ensures QuietBreak(z, f, d[..i], 0, d[i..n])
    decreases n - i
  {
    hide Lawful, BreaksAt;
    SilentCall(z, f, d, b, i, n);
    var c := z.call(f, d[..i], 0, d[i..n]);
    if i + c.taken < b {
      assert d[..i] + d[i..n][..c.taken] == d[..i + c.taken] && d[i..n][c.taken..] == d[i + c.taken..n];
      SilentBreak(z, f, d, b, i + c.taken, n);
    }
  }

  lemma PrefixSilent(z: Library, f: Format, d: seq<Byte>, i: nat, b: nat)
    requires Lawful(z) && i <= b <= |d| && z.out(f, d[..b]) == []
    ensures z.out(f, d[..i]) == []
  {
    assert d[..i] <= d[..b];
    assert z.out(f, d[..i]) <= z.out(f, d[..b]);
  }

  /** There are such libraries: this one copies, byte by byte. */
  function Copier(): Library {
    Library((f, x) => x, (f, x) => More,
            (f, x, given, avail) =>
              if given < |x| then Call(ZOk, 0, 1)
              else if avail != [] then Call(ZOk, 1, 0)
              else Call(ZBufError, 0, 0))
  }

  lemma CopierIsLawful()
    ensures Lawful(Copier())
  {
  }
}
