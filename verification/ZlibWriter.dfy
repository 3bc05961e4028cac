/** The zlib writers of lib/content_encoding.c over their mutable parameters: input of any size, output
    through a buffer of fixed size to the next writer, which may fail. */
module ZlibWriter {
  import opened CText
  import opened Wrappers
  import opened Zlib
  import opened GzipHeader
  import opened GzipWriter
  import D = DeflateWriter

  /** The next writer of the stack; takes says which data it accepts after what it has received. */
  class Downstream {
    var received: seq<Byte>
    const takes: (seq<Byte>, seq<Byte>) -> bool

    constructor (takes: (seq<Byte>, seq<Byte>) -> bool)
      ensures received == [] && this.takes == takes
    {
      received := [];
      this.takes := takes;
    }

    method Write(data: seq<Byte>) returns (ok: bool)
      modifies this
      ensures ok == takes(old(received), data)
      ensures received == if ok then old(received) + data else old(received)
    {
      ok := takes(received, data);
      if ok {
        received := received + data;
      }
    }
  }

  /** Where a call stands: the writer as it is, and the input that is left. At the end of the stream with
      output pending only the trailer is still to be read. */
  function Coming(w: Writer, rest: seq<Byte>, inflate: Inflater): Result {
    if inflate(w.consumed) == StreamEnd then TrailerResult(w, rest) else Feed(w, rest, inflate)
  }

  /** inflate has taken n of the bytes at hand. */
  lemma TakenAtOnce(w: Writer, rest: seq<Byte>, n: nat, inflate: Inflater)
    requires IsInflating(w.init) && w.header == [] && n <= |rest| && inflate(w.consumed) != DataError
    requires inflate(w.consumed) == StreamEnd ==> n == 0
    requires forall k :: 0 < k < n ==> inflate(w.consumed + rest[..k]) == More
    ensures var w1 := w.(consumed := w.consumed + rest[..n]);
      Coming(w, rest, inflate) ==
        if inflate(w1.consumed) == DataError then Exit(w1, BadContentEncoding) else Coming(w1, rest[n..], inflate)
  {
    if n == 0 {
      assert w.consumed + rest[..0] == w.consumed && rest[0..] == rest;
    } else {
      var most := rest[..n - 1];
      forall k | 0 < k <= |most|
        ensures inflate(w.consumed + most[..k]) == More
      {
        assert most[..k] == rest[..k];
      }
      FeedBody(w, most, inflate);
      assert rest == most + rest[n - 1..];
      FeedAppend(w, most, rest[n - 1..], inflate);
      LastTaken(w.(consumed := w.consumed + most), rest[n - 1..], inflate);
      assert w.consumed + most + [rest[n - 1]] == w.consumed + rest[..n];
    }
  }

  lemma LastTaken(w: Writer, rest: seq<Byte>, inflate: Inflater)
    requires IsInflating(w.init) && w.header == [] && rest != []
    ensures var w1 := w.(consumed := w.consumed + [rest[0]]);
      Feed(w, rest, inflate) ==
        if inflate(w1.consumed) == DataError then Exit(w1, BadContentEncoding) else Coming(w1, rest[1..], inflate)
  {
    var w1 := w.(consumed := w.consumed + [rest[0]]);
    if inflate(w1.consumed) == StreamEnd {
      FeedAfterEnd(w1, rest[1..], inflate);
    }
  }

  /** What a write is going to come to, and what the next writer had before it. */
  datatype Plan = Plan(target: Result, before: nat, received: seq<Byte>)

  /** The output for x, from one position to another, is also there in the output for more bytes. */
  lemma OutputGrows(z: Library, f: Format, x: seq<Byte>, y: seq<Byte>, before: nat, given: nat, more: nat)
    requires Lawful(z) && x <= y && before <= given <= |z.out(f, x)| && given + more <= |z.out(f, y)|
    ensures z.out(f, y)[before..given + more] == z.out(f, x)[before..given] + z.out(f, y)[given..given + more]
  {
    assert z.out(f, x) <= z.out(f, y);
    assert z.out(f, x)[before..given] == z.out(f, y)[before..given];
  }

  lemma StretchesJoin<T>(base: seq<T>, all: seq<T>, i: nat, j: nat, k: nat)
    requires i <= j <= k <= |all|
    ensures (base + all[i..j]) + all[j..k] == base + all[i..k]
  {
  }

  class Stage {
    var zlibInit: ZlibState
    var nextIn: seq<Byte>  // the allocated header block
    var trailerlen: nat
    // the z_stream
    var format: Format
    var consumed: seq<Byte>
    var given: nat
    const z: Library
    const downstream: Downstream

    ghost function Abs(): Writer
      reads this
    {
      Writer(zlibInit, nextIn, trailerlen, consumed)
    }

    /** Between two writes all the output there is has been passed on. */
    ghost predicate Valid()
      reads this
    {
      && Lawful(z) && Inv(Abs())
      && (zlibInit != Uninit && zlibInit != ExternalTrailer ==>
            given == |z.out(format, consumed)| && z.verdict(format, consumed) == More)
      && (zlibInit == Init ==> consumed == [])
    }

    /** gzip_init_writer and deflate_init_writer. */
    constructor (state: ZlibState, trailerlen: nat, format: Format, z: Library, downstream: Downstream)
      requires Lawful(z) && (state == Init || state == InitGzip)
      ensures Valid() && Abs() == Writer(state, [], trailerlen, [])
      ensures this.format == format && this.z == z && this.downstream == downstream
    {
      zlibInit, nextIn, consumed, given := state, [], [], 0;
      this.trailerlen, this.format := trailerlen, format;
      this.z, this.downstream := z, downstream;
    }

    method ExitZlib()
      modifies this`zlibInit, this`nextIn
      ensures Abs() == Exit(old(Abs()), CurlOk).w
    {
      nextIn, zlibInit := [], Uninit;
    }

    method ProcessTrailer(avail: seq<Byte>) returns (code: Code)
      modifies this`zlibInit, this`nextIn, this`trailerlen
      ensures Result(Abs(), code) == TrailerResult(old(Abs()), avail) && (code == CurlOk || code == WriteError)
      ensures zlibInit == Uninit || (zlibInit == ExternalTrailer && trailerlen > 0)
      ensures nextIn == if zlibInit == Uninit then [] else old(nextIn)
    {
      code := CurlOk;
      var len := if |avail| < trailerlen then |avail| else trailerlen;
      trailerlen := trailerlen - len;
      if |avail| > len {
        code := WriteError;
      }
      if code != CurlOk || trailerlen == 0 {
        ExitZlib();
      } else {
        zlibInit := ExternalTrailer;
      }
    }

    /** The next writer has received the output up to position n. */
    ghost predicate Passed(p: Plan, n: nat)
      reads this`format, this`consumed, downstream
    {
      && p.before <= n <= |z.out(format, consumed)|
      && downstream.received == p.received + z.out(format, consumed)[p.before..n]
    }

    /** In the loop: the output given so far has been passed on, and the rest comes to what is planned. */
    ghost predicate Live(started: ZlibState, rest: seq<Byte>, p: Plan)
      reads this, downstream
    {
      && Lawful(z) && IsInflating(started) && (zlibInit == started || zlibInit == Init) && nextIn == []
      && Open(z, format, consumed, given) && Passed(p, given)
      && Coming(Abs().(init := started), rest, Verdicts(z, format)) == p.target
      && (zlibInit == Init ==> given == p.before)
    }

    /** The next writer has refused the output from position n on; nothing more will be done. */
    ghost predicate Refused(p: Plan, n: nat, m: nat)
      reads this, downstream
    {
      && zlibInit == Uninit && nextIn == [] && Passed(p, n) && n < m <= |z.out(format, consumed)|
      && !downstream.takes(downstream.received, z.out(format, consumed)[n..m])
    }

    /** After a call: its status, and the output from position on that has not been passed on yet. */
    ghost predicate Called(status: Status, started: ZlibState, left: seq<Byte>, p: Plan, from: nat)
      reads this, downstream
    {
      && Lawful(z) && IsInflating(started) && (zlibInit == started || zlibInit == Init) && nextIn == []
      && from <= given <= |z.out(format, consumed)| && Passed(p, from) && (zlibInit == Init ==> from == p.before)
      && match status
        case ZOk =>
          Open(z, format, consumed, given) && Coming(Abs().(init := started), left, Verdicts(z, format)) == p.target
        case ZBufError =>
          && p.target == Result(Abs().(init := started), CurlOk)
          && given == from == |z.out(format, consumed)| && z.verdict(format, consumed) == More
        case ZStreamEnd => p.target == TrailerResult(Abs(), left) && given == |z.out(format, consumed)|
        case ZDataError => p.target == Exit(Abs(), BadContentEncoding)
    }

    /** inflate, into the buffer. */
    method CallInflate(started: ZlibState, rest: seq<Byte>, ghost p: Plan)
      returns (status: Status, left: seq<Byte>, decomp: seq<Byte>)
      requires Live(started, rest, p)
      modifies this`consumed, this`given
      ensures Called(status, started, left, p, old(given))
      ensures |decomp| <= DSIZ && decomp == z.out(format, consumed)[old(given)..given]
      ensures QuietBreak(z, format, old(consumed), old(given), rest) <==>
        status == ZDataError || (status == ZOk && decomp == [] && QuietBreak(z, format, consumed, given, left))
      ensures status == ZOk ==> |left| < |rest| || (|left| == |rest| && consumed == old(consumed) && given > old(given))
    {
      hide Feed, Coming, Verdicts, Lawful, Open, TrailerResult;
      var c := z.call(format, consumed, given, rest);
      CallEffect(Abs().(init := started), rest, given, format, z);
      StateNames(Abs().(consumed := consumed + rest[..c.taken]), started, rest[c.taken..]);
      OutputGrows(z, format, consumed, consumed + rest[..c.taken], p.before, given, 0);
      consumed, left := consumed + rest[..c.taken], rest[c.taken..];
      decomp := z.out(format, consumed)[given..given + c.given];
      given, status := given + c.given, c.status;
    }

    /** One call of inflate, and its output passed on if the status allows it. */
    method Portion(started: ZlibState, rest: seq<Byte>, ghost p: Plan)
      returns (status: Status, left: seq<Byte>, ok: bool)
      requires Live(started, rest, p)
      modifies this, downstream
      ensures format == old(format)
      ensures !ok ==> Refused(p, old(given), given) && consumed <= p.target.w.consumed
      ensures ok ==> Reported(status, started, left, p, old(given))
      ensures ok ==> zlibInit == started || zlibInit == old(zlibInit)
      ensures ok && status == ZOk ==>
        |left| < |rest| || (|left| == |rest| && consumed == old(consumed) && given > old(given))
      ensures QuietBreak(z, format, old(consumed), old(given), rest) <==>
        ok && (status == ZDataError
          || (status == ZOk && given == old(given) && QuietBreak(z, format, consumed, given, left)))
      ensures ok && (status == ZDataError || (status == ZOk && given == old(given))) ==> zlibInit == old(zlibInit)
      ensures ok && status == ZOk && given != old(given) ==> zlibInit == started
    {
      hide Feed, Coming, Verdicts, Lawful, Open, TrailerResult, Refused, QuietBreak;
      var decomp;
      status, left, decomp := CallInflate(started, rest, p);
      ok := true;
      if decomp != [] && (status == ZOk || status == ZStreamEnd) {
        ok := PassOn(status, started, left, decomp, p, old(given));
      }
    }

    /** The data is started, and its output goes to the next writer. */
    method PassOn(status: Status, started: ZlibState, left: seq<Byte>, decomp: seq<Byte>, ghost p: Plan,
                  ghost from: nat)
      returns (ok: bool)
      requires Called(status, started, left, p, from) && decomp != [] && (status == ZOk || status == ZStreamEnd)
      requires decomp == z.out(format, consumed)[from..given]
      modifies this`zlibInit, this`nextIn, downstream
      ensures !ok ==> Refused(p, from, given) && consumed <= p.target.w.consumed
      ensures ok ==> Reported(status, started, left, p, from) && zlibInit == started
    {
      hide Feed, Coming, Verdicts, Lawful, Open, TrailerResult;
      StateNames(Abs(), started, left);
      TargetTakes(Abs().(init := started), left, p.target, status);
      StretchesJoin(p.received, z.out(format, consumed), p.before, from, given);
      zlibInit := started;
      assert Passed(p, from);
      ok := downstream.Write(decomp);
      if ok {
        assert Passed(p, given);
      } else {
        ExitZlib();
        assert Passed(p, from);
      }
    }

    lemma TargetTakes(w: Writer, left: seq<Byte>, target: Result, status: Status)
      requires status == ZOk || status == ZStreamEnd
      requires status == ZOk ==> Coming(w, left, Verdicts(z, format)) == target
      requires status == ZStreamEnd ==> TrailerResult(w, left) == target
      ensures w.consumed <= target.w.consumed
    {
      if status == ZOk {
        ComingTakes(w, left, Verdicts(z, format));
      }
    }

    /** What the status says when nothing was refused. */
    ghost predicate Reported(status: Status, started: ZlibState, left: seq<Byte>, p: Plan, from: nat)
      reads this, downstream
    {
      && nextIn == [] && (zlibInit == started || zlibInit == Init)
      && match status
        case ZOk => Live(started, left, p)
        case ZBufError =>
          && p.target == Result(Abs().(init := started), CurlOk)
          && given == |z.out(format, consumed)| && z.verdict(format, consumed) == More && Passed(p, given)
        case ZStreamEnd =>
          && p.target == TrailerResult(Abs(), left)
          && given == |z.out(format, consumed)| && Passed(p, given)
        case ZDataError =>
          && p.target == Exit(Abs(), BadContentEncoding) && Passed(p, from)
          && (zlibInit == Init ==> from == p.before)
    }

    /** What a write comes to: the state that is planned, with all of its output passed on; bad data, with
        the output passed on in part; or a refusal on the way. */
    ghost predicate Ended(w: Writer, p: Plan, code: Code)
      reads this, downstream
    {
      match code
      case CurlOk | WriteError => Result(w, code) == p.target && Passed(p, |z.out(format, consumed)|)
      case BadContentEncoding => Result(w, code) == p.target && exists n :: Passed(p, n)
      case DownstreamError => consumed <= p.target.w.consumed && exists n, m :: Refused(p, n, m)
    }

    ghost function PlanOf(w: Writer, avail: seq<Byte>): Plan
      reads this, downstream
    {
      Plan(Feed(w, avail, Verdicts(z, format)), |z.out(format, consumed)|, downstream.received)
    }

    ghost function Started(started: ZlibState): Writer
      reads this
    {
      if zlibInit == Init then Abs().(init := started) else Abs()
    }

    /** One turn of the loop, but for the new start, which again asks for. */
    method Turn(started: ZlibState, rest: seq<Byte>, ghost p: Plan)
      returns (code: Code, left: seq<Byte>, done: bool, again: bool)
      requires Live(started, rest, p) && IsInflating(started) && Lawful(z)
      modifies this, downstream
      ensures format == old(format) && (zlibInit == Init ==> old(zlibInit) == Init)
      ensures IsInflating(zlibInit) ==> zlibInit == started || zlibInit == old(zlibInit)
      ensures !done && !again ==> code == CurlOk && Live(started, left, p)
      ensures !done && !again ==>
        |left| < |rest| || (|left| == |rest| && consumed == old(consumed) && given > old(given))
      ensures again ==> !done && zlibInit == Init && nextIn == []
      ensures again ==> p.target.code == BadContentEncoding && Passed(p, p.before)
      ensures done ==> nextIn == [] && Ended(Started(started), p, code) && Stopped(code)
      ensures old(zlibInit) == Init ==>
        (QuietBreak(z, format, old(consumed), old(given), rest) <==>
           again || (!done && zlibInit == Init && QuietBreak(z, format, consumed, given, left)))
    {
      hide Feed, Coming, Verdicts, Lawful, Live, Passed, TrailerResult, QuietBreak;
      code, done, again := CurlOk, true, false;
      ghost var from := given;
      var status, ok;
      status, left, ok := Portion(started, rest, p);
      if !ok {
        code := DownstreamError;
      } else {
        match status
        case ZOk => done := false;
        case ZBufError =>
        case ZStreamEnd =>
          code := ProcessTrailer(left);
        case ZDataError =>
          if zlibInit == Init {
            done, again := false, true;
          } else {
            ExitZlib();
            code := BadContentEncoding;
            assert Passed(p, from);
          }
      }
    }

    /** The new start in raw mode, with the data of this write. */
    method Restart(avail: seq<Byte>)
      requires Lawful(z) && zlibInit == Init && nextIn == []
      modifies this
      ensures format == RawDeflate && zlibInit == Inflating
      ensures Live(Inflating, avail, RawPlan(avail, downstream.received))
    {
      format, consumed, given := RawDeflate, [], 0;
      zlibInit, trailerlen := Inflating, D.RAW_TRAILER;
    }

    /** inflate_stream. In the state Init, which only raw deflate data may leave again, bad data is read
        once more from the beginning of this write. */
    method InflateStream(started: ZlibState, avail: seq<Byte>) returns (code: Code, ghost restarted: bool)
      requires Valid() && avail != [] && nextIn == [] && IsInflating(started)
      requires zlibInit == Uninit || zlibInit == started || (zlibInit == Init && started == Inflating)
      modifies this, downstream
      ensures Valid() && nextIn == [] && zlibInit != Init && zlibInit != GzipHeaderPart
      ensures IsInflating(zlibInit) ==> zlibInit == started
      ensures format == if restarted then RawDeflate else old(format)
      ensures restarted <==> old(zlibInit) == Init && QuietBreak(z, old(format), old(consumed), old(given), avail)
      ensures restarted ==> old(PlanOf(Started(started), avail)).target.code == BadContentEncoding
      ensures var p :=
          if restarted then RawPlan(avail, old(downstream.received)) else old(PlanOf(Started(started), avail));
        Ended(Abs(), p, code)
    {
      hide Feed, Coming, Verdicts, Lawful, PlanOf, Live, Passed, Refused, QuietBreak, Ended, Stopped, TrailerResult;
      code, restarted := CurlOk, false;
      ghost var quiet := QuietBreak(z, format, consumed, given, avail);
      ghost var first, received := PlanOf(Started(started), avail), downstream.received;
      ghost var p := first;
      StartLive(started, avail, first);
      if zlibInit == Uninit {
        ExitZlib();
        ClosedEnds(first);
        return WriteError, false;
      }
      var rest, done := avail, false;
      while !done
        invariant p == if restarted then RawPlan(avail, received) else first
        invariant restarted ==> old(zlibInit) == Init && first.target.code == BadContentEncoding && zlibInit != Init
        invariant format == if restarted then RawDeflate else old(format)
        invariant restarted ==> quiet
        invariant old(zlibInit) == Init && !restarted ==>
          (quiet <==> !done && zlibInit == Init && QuietBreak(z, format, consumed, given, rest))
        invariant (IsInflating(zlibInit) ==> zlibInit == started) && (zlibInit == Init ==> old(zlibInit) == Init)
        invariant !done ==> Live(started, rest, p)
        invariant done ==> nextIn == [] && Ended(Started(started), p, code) && Stopped(code)
        decreases if done then 0 else 1, if restarted then 0 else 1, |rest|, |z.out(format, consumed)| - given
      {
        LiveBound(started, rest, p);
        var again;
        code, rest, done, again := Turn(started, rest, p);
        if again {
          NothingPassed(p);
          Restart(avail);
          rest, restarted, p := avail, true, RawPlan(avail, received);
        }
      }
      Settle(started, p, code);
    }

    /** Bytes have been read: a later write may not start anew. */
    method Settle(started: ZlibState, ghost p: Plan, ghost code: Code)
      requires nextIn == [] && IsInflating(started) && Ended(Started(started), p, code) && Stopped(code)
      modifies this`zlibInit
      ensures Valid() && zlibInit != Init && zlibInit != GzipHeaderPart && Ended(Abs(), p, code)
      ensures IsInflating(zlibInit) ==> zlibInit == started || zlibInit == old(zlibInit)
    {
      hide Lawful, TrailerResult, Feed, Passed;
      if zlibInit == Init {
        assert code != DownstreamError;
        ghost var n: nat := if code == BadContentEncoding then (var k: nat :| Passed(p, k); k) else 0;
        zlibInit := started;
        assert code == BadContentEncoding ==> Passed(p, n);
      }
    }

    lemma ClosedEnds(p: Plan)
      requires p.target == Result(Abs(), WriteError) && Passed(p, |z.out(format, consumed)|)
      ensures Ended(Abs(), p, WriteError)
    {
    }

    lemma NothingPassed(p: Plan)
      requires Passed(p, p.before)
      ensures downstream.received == p.received
    {
    }

    /** A write in a state that only the trailer or an error can follow. */
    lemma NothingNew(p: Plan, w: Writer, code: Code)
      requires p.received == downstream.received && p.before == |z.out(format, consumed)|
      requires Result(w, code) == p.target && code != DownstreamError
      ensures Ended(w, p, code)
    {
      assert Passed(p, p.before);
    }

    /** gzip_unencode_write. Empty writes never reach a stage. */
    method GzipWrite(buf: seq<Byte>) returns (code: Code)
      requires Valid() && buf != [] && zlibInit != Inflating
      modifies this, downstream
      ensures Valid() && format == old(format) && zlibInit != Inflating
      ensures Ended(Abs(), old(PlanOf(Abs(), buf)), code)
    {
      hide Check, Feed, Verdicts, Lawful, Ended, TrailerResult;
      ghost var restarted;
      if zlibInit == InitGzip {
        // zlib handles the gzip format entirely
        code, restarted := InflateStream(InitGzip, buf);
        return;
      }
      ghost var p, inflate := PlanOf(Abs(), buf), Verdicts(z, format);
      if zlibInit == ExternalTrailer {
        FeedTrailer(Abs(), buf, inflate);
        code := ProcessTrailer(buf);
        NothingNew(p, Abs(), code);
        return;
      }
      var avail := buf;
      if zlibInit == Init || zlibInit == GzipHeaderPart {
        EmptyUnderflows();
        FeedHeader(Abs(), buf, inflate);
        var block := nextIn + buf;
        var verdict := CheckGzipHeader(block);
        match verdict
        case Underflow =>
          nextIn, zlibInit := block, GzipHeaderPart;
          NothingNew(p, Abs(), CurlOk);
          return CurlOk;
        case Bad =>
          ExitZlib();
          NothingNew(p, Abs(), BadContentEncoding);
          return BadContentEncoding;
        case Ok(hlen) =>
          // what lies behind the header is a tail of this write
          assert block[hlen..] == buf[hlen - |nextIn|..];
          avail := buf[hlen - |nextIn|..];
          nextIn, zlibInit := [], GzipInflating;
      }
      if avail == [] {
        NothingFed(Abs(), inflate);
        NothingNew(p, Abs(), CurlOk);
        return CurlOk;
      }
      code, restarted := InflateStream(GzipInflating, avail);
    }

    /** deflate_unencode_write. */
    method DeflateWrite(buf: seq<Byte>) returns (code: Code, ghost restarted: bool)
      requires Valid() && buf != [] && zlibInit != GzipHeaderPart && zlibInit != GzipInflating && zlibInit != InitGzip
      modifies this, downstream
      ensures Valid() && nextIn == [] && zlibInit != Init && zlibInit != GzipHeaderPart
      ensures IsInflating(zlibInit) ==> zlibInit == Inflating
      ensures restarted <==> D.StartsAnew(D.Deflater(old(Abs()), old(format)), buf, z)
      ensures code != DownstreamError ==>
        D.Outcome(D.Deflater(Abs(), format), code) == D.Write(D.Deflater(old(Abs()), old(format)), buf, z)
      ensures var p :=
          if restarted then RawPlan(buf, old(downstream.received)) else old(PlanOf(Started(Inflating), buf));
        Ended(Abs(), p, code)
    {
      hide Feed, Verdicts, Lawful, TrailerResult, Passed, Refused, QuietBreak;
      restarted := false;
      NothingBefore();
      if zlibInit == ExternalTrailer {
        ghost var p := PlanOf(Abs(), buf);
        FeedTrailer(Abs(), buf, Verdicts(z, format));
        code := ProcessTrailer(buf);
        NothingNew(p, Abs(), code);
      } else {
        code, restarted := InflateStream(Inflating, buf);
      }
    }

    lemma NothingBefore()
      requires Valid()
      ensures zlibInit == Init ==> consumed == [] && given == 0
    {
    }

    ghost function RawPlan(avail: seq<Byte>, received: seq<Byte>): Plan {
      Plan(Feed(D.RAW_WRITER, avail, Verdicts(z, RawDeflate)), 0, received)
    }

    /** What Valid asks of the z_stream once the loop is over. */
    ghost predicate Stopped(code: Code)
      reads this
    {
      Lawful(z) && (IsInflating(zlibInit) || zlibInit == Init ==>
        given == |z.out(format, consumed)| && z.verdict(format, consumed) == More)
      && (zlibInit == ExternalTrailer ==> trailerlen > 0) && zlibInit != GzipHeaderPart
    }

    lemma LiveBound(started: ZlibState, rest: seq<Byte>, p: Plan)
      requires Live(started, rest, p)
      ensures given <= |z.out(format, consumed)| && Lawful(z) && IsInflating(started)
    {
    }

    lemma StartLive(started: ZlibState, avail: seq<Byte>, p: Plan)
      requires Valid() && avail != [] && nextIn == [] && IsInflating(started) && p == PlanOf(Started(started), avail)
      requires zlibInit == Uninit || zlibInit == started || (zlibInit == Init && started == Inflating)
      ensures zlibInit != Uninit ==> Live(started, avail, p)
      ensures p.received == downstream.received
      ensures zlibInit == Uninit ==> p.target == Result(Abs(), WriteError) && Passed(p, |z.out(format, consumed)|)
    {
    }
  }

  /** What a call that keeps the library's promises comes to. */
  lemma CallEffect(w: Writer, rest: seq<Byte>, given: nat, f: Format, z: Library)
    requires Lawful(z) && Open(z, f, w.consumed, given) && IsInflating(w.init) && w.header == []
    ensures var c := z.call(f, w.consumed, given, rest); var inflate := Verdicts(z, f);
      && CallOk(z, f, w.consumed, given, rest, c)
      && var w1 := w.(consumed := w.consumed + rest[..c.taken]);
        && (c.status == ZDataError ==> Coming(w, rest, inflate) == Exit(w1, BadContentEncoding))
        && (c.status == ZStreamEnd ==> Coming(w, rest, inflate) == TrailerResult(w1, rest[c.taken..]))
        && (c.status == ZBufError ==>
              Coming(w, rest, inflate) == Result(w1, CurlOk) && z.verdict(f, w1.consumed) == More)
        && (c.status == ZOk ==> Open(z, f, w1.consumed, given + c.given))
        && (c.status != ZDataError ==> Coming(w, rest, inflate) == Coming(w1, rest[c.taken..], inflate))
  {
    hide Feed, TrailerResult;
    var c := z.call(f, w.consumed, given, rest);
    assert CallOk(z, f, w.consumed, given, rest, c);
    TakenAtOnce(w, rest, c.taken, Verdicts(z, f));
    NothingFed(w.(consumed := w.consumed + rest[..c.taken]), Verdicts(z, f));
  }

  lemma NothingFed(w: Writer, inflate: Inflater)
    ensures Feed(w, [], inflate) == Result(w, CurlOk)
  {
  }

  /** Trailer and exit set the state anew. */
  lemma StateNames(w: Writer, st: ZlibState, d: seq<Byte>)
    ensures TrailerResult(w.(init := st), d) == TrailerResult(w, d)
    ensures Exit(w.(init := st), BadContentEncoding) == Exit(w, BadContentEncoding)
  {
  }

  /** What is taken only grows. */
  lemma {:induction false} FeedTakes(w: Writer, d: seq<Byte>, inflate: Inflater)
    ensures w.consumed <= Feed(w, d, inflate).w.consumed
    decreases |d|
  {
    if d != [] {
      FeedTakes(Step(w, d[0], inflate).w, d[1..], inflate);
    }
  }

  lemma ComingTakes(w: Writer, rest: seq<Byte>, inflate: Inflater)
    ensures w.consumed <= Coming(w, rest, inflate).w.consumed
  {
    FeedTakes(w, rest, inflate);
  }
}
