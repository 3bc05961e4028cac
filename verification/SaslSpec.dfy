/** The client side SASL machine of lib/curl_sasl.c as functions on machine values. The message
    builders, the protocol's send callbacks and the server are oracles. */
module SaslSpec {
  import opened Wrappers

  /** The mechanism bits, in the order in which the code prefers them. */
  datatype Mech = External | Gssapi | DigestMd5 | CramMd5 | Ntlm | OAuthBearer | XOAuth2 | Plain | Login {
    function Order(): nat {
      match this
      case External => 0 case Gssapi => 1 case DigestMd5 => 2 case CramMd5 => 3 case Ntlm => 4
      case OAuthBearer => 5 case XOAuth2 => 6 case Plain => 7 case Login => 8
    }

    function NameLength(): nat {
      match this
      case External => 8 case Gssapi => 6 case DigestMd5 => 10 case CramMd5 => 8 case Ntlm => 4
      case OAuthBearer => 11 case XOAuth2 => 7 case Plain => 5 case Login => 5
    }

    /** Does a client of this mechanism speak first? */
    predicate HasInitialResponse() { this != DigestMd5 && this != CramMd5 }

    /** State after the bare authentication command. */
    function WithoutResponse(): State {
      match this
      case External => SExternal case Gssapi => SGssapi case DigestMd5 => SDigestMd5 case CramMd5 => SCramMd5
      case Ntlm => SNtlm case OAuthBearer => SOAuth2 case XOAuth2 => SOAuth2 case Plain => SPlain case Login => SLogin
    }

    /** State after a command that carried the initial response. */
    function WithResponse(): State {
      match this
      case Gssapi => SGssapiToken case Ntlm => SNtlmType2Msg case OAuthBearer => SOAuth2Resp
      case Login => SLoginPasswd
      case External | DigestMd5 | CramMd5 | XOAuth2 | Plain => SFinal
    }
  }

  datatype State =
    | SStop | SPlain | SLogin | SLoginPasswd | SExternal | SCramMd5 | SDigestMd5 | SDigestMd5Resp
    | SNtlm | SNtlmType2Msg | SGssapi | SGssapiToken | SGssapiNoData | SOAuth2 | SOAuth2Resp | SCancel | SFinal

  datatype Progress = Idle | InProgress | Done

  /** CURLcode, as far as the machine tells codes apart. */
  datatype Code = CurlOk | BadContentEncoding | LoginDenied | OutOfMemory | OtherError

  /** What the connection and the protocol fix for the whole run. */
  datatype Config = Config(emptyPassword: bool, userPasswd: bool, gssapi: bool, digest: bool, ntlm: bool,
                           bearer: bool, saslIr: bool, contcode: int, finalcode: int, maxIrLen: nat)

  /** What a message builder delivers: a result and, maybe, a response of some length. */
  datatype Reply = Reply(result: Code, resp: Option<nat>)

  /** One call's surroundings: the server's code, the two builders a call may use, the results
      of the two send callbacks, and whether memory for a constant response can be had. */
  datatype Input = Input(code: int, message: Reply, initial: Reply, sendauth: Code, sendcont: Code, memory: bool)

  /** What goes to the server. A response remembers the code it answers. */
  datatype Event = Auth(m: Mech) | Response(code: int) | Cancel

  datatype Sasl = Sasl(state: State, authmechs: set<Mech>, prefmech: set<Mech>, authused: set<Mech>,
                       mutualAuth: bool, forceIr: bool, sent: seq<Event>)

  datatype Outcome = Outcome(sasl: Sasl, result: Code, progress: Progress)

  /** Can m be used in this configuration, given that it is enabled? */
  predicate Usable(m: Mech, cfg: Config) {
    match m
    case External => cfg.emptyPassword
    case Gssapi => cfg.userPasswd && cfg.gssapi
    case DigestMd5 => cfg.userPasswd && cfg.digest
    case Ntlm => cfg.userPasswd && cfg.ntlm
    case OAuthBearer | XOAuth2 => cfg.userPasswd && cfg.bearer
    case CramMd5 | Plain | Login => cfg.userPasswd
  }

  /** The if-else chain of Curl_sasl_start. */
  function Select(enabled: set<Mech>, cfg: Config): Option<Mech> {
    if External in enabled && cfg.emptyPassword then Some(External)
    else if cfg.userPasswd then
      if Gssapi in enabled && cfg.gssapi then Some(Gssapi)
      else if DigestMd5 in enabled && cfg.digest then Some(DigestMd5)
      else if CramMd5 in enabled then Some(CramMd5)
      else if Ntlm in enabled && cfg.ntlm then Some(Ntlm)
      else if OAuthBearer in enabled && cfg.bearer then Some(OAuthBearer)
      else if XOAuth2 in enabled && cfg.bearer then Some(XOAuth2)
      else if Plain in enabled then Some(Plain)
      else if Login in enabled then Some(Login)
      else None
    else None
  }

  function Enabled(s: Sasl): set<Mech> { s.authmechs * s.prefmech }

  /** Exclusive or on bit sets. */
  function Xor(a: set<Mech>, b: set<Mech>): set<Mech> { (a - b) + (b - a) }

  /** The end of Curl_sasl_start: a response that is too long is dropped, the command is sent. */
  function SendAuth(s: Sasl, cfg: Config, m: Mech, resp: Option<nat>, inp: Input): Outcome {
    var tooLong := resp.Some? && cfg.maxIrLen > 0 && m.NameLength() + resp.value > cfg.maxIrLen;
    var s1 := s.(sent := s.sent + [Auth(m)]);
    if inp.sendauth != CurlOk then Outcome(s1, inp.sendauth, Idle)
    else Outcome(s1.(state := if resp.Some? && !tooLong then m.WithResponse() else m.WithoutResponse()),
                 CurlOk, InProgress)
  }

  /** Curl_sasl_start. */
  function Start(s: Sasl, cfg: Config, forceIr: bool, inp: Input): Outcome {
    match Select(Enabled(s), cfg)
    case None => Outcome(s.(forceIr := forceIr, authused := {}), CurlOk, Idle)
    case Some(m) =>
      var s1 := s.(forceIr := forceIr, authused := {m}, mutualAuth := if m == Gssapi then false else s.mutualAuth);
      var first := if m.HasInitialResponse() && (forceIr || cfg.saslIr) then inp.initial else Reply(CurlOk, None);
      if first.result != CurlOk then Outcome(s1, first.result, Idle) else SendAuth(s1, cfg, m, first.resp, inp)
  }

  /** The response of a dialog state that answers a continuation, and the state after it. */
  function Answer(s: Sasl, inp: Input): (Reply, State) {
    match s.state
    case SLogin => (inp.message, SLoginPasswd)
    case SDigestMd5 => (inp.message, SDigestMd5Resp)
    case SDigestMd5Resp => (if inp.memory then Reply(CurlOk, Some(0)) else Reply(OutOfMemory, None), SFinal)
    case SNtlm => (inp.message, SNtlmType2Msg)
    case SGssapi => (inp.message, SGssapiToken)
    case SGssapiToken => (inp.message, if s.mutualAuth then SGssapiNoData else SFinal)
    case SOAuth2 => (inp.message, if s.authused == {OAuthBearer} then SOAuth2Resp else SFinal)
    case SOAuth2Resp => (if inp.memory then Reply(CurlOk, Some(4)) else Reply(OutOfMemory, None), SFinal)
    case SStop | SPlain | SLoginPasswd | SExternal | SCramMd5 | SNtlmType2Msg | SGssapiNoData | SCancel | SFinal =>
      (inp.message, SFinal)
  }

  /** The end of Curl_sasl_continue: cancel, send, or stop. */
  function Finish(s: Sasl, reply: Reply, next: State, progress: Progress, inp: Input): Outcome {
    if reply.result == BadContentEncoding then
      Outcome(s.(state := SCancel, sent := s.sent + [Cancel]), inp.sendcont, progress)
    else if reply.result == CurlOk then
      if reply.resp.Some? then
        Outcome(s.(state := next, sent := s.sent + [Response(inp.code)]), inp.sendcont, progress)
      else Outcome(s.(state := next), CurlOk, progress)
    else Outcome(s.(state := SStop), reply.result, Done)
  }

  /** Curl_sasl_continue. */
  function Continue(s: Sasl, cfg: Config, inp: Input): Outcome {
    var stopped := s.(state := SStop);
    if s.state == SFinal then
      Outcome(stopped, if inp.code != cfg.finalcode then LoginDenied else CurlOk, Done)
    else if s.state != SCancel && s.state != SOAuth2Resp && inp.code != cfg.contcode then
      Outcome(stopped, LoginDenied, Done)
    else if s.state == SStop then Outcome(s, CurlOk, Done)
    else if s.state == SCancel then
      // Remove the offending mechanism, then start an alternative one.
      var o := Start(s.(authmechs := Xor(s.authmechs, s.authused)), cfg, s.forceIr, inp);
      Finish(o.sasl, Reply(o.result, None), o.sasl.state, o.progress, inp)
    else if s.state == SOAuth2Resp && inp.code == cfg.finalcode then Outcome(stopped, CurlOk, Done)
    else if s.state == SOAuth2Resp && inp.code != cfg.contcode then Outcome(stopped, LoginDenied, Done)
    else
      var a := Answer(s, inp);
      Finish(s, a.0, a.1, InProgress, inp)
  }

  // ---- selection ----------------------------------------------------------------------------

  predicate Eligible(m: Mech, s: Sasl, cfg: Config) { m in Enabled(s) && Usable(m, cfg) }

  /** The chain picks the most preferred eligible mechanism, and fails only without any. */
  lemma SelectIsFirst(s: Sasl, cfg: Config)
    ensures var r := Select(Enabled(s), cfg);
      if r.None? then forall m :: !Eligible(m, s, cfg)
      else Eligible(r.value, s, cfg) && forall m :: Eligible(m, s, cfg) ==> r.value.Order() <= m.Order()
  {
    forall m | Eligible(m, s, cfg)
      ensures var r := Select(Enabled(s), cfg); r.Some? && r.value.Order() <= m.Order()
    {
      match m
      case External => case Gssapi => case DigestMd5 => case CramMd5 => case Ntlm =>
      case OAuthBearer => case XOAuth2 => case Plain => case Login =>
    }
  }

  lemma OrderIsInjective(a: Mech, b: Mech)
    ensures a.Order() == b.Order() ==> a == b
  {
  }

  // ---- the invariant of a run ----------------------------------------------------------------

  /** The mechanisms sent so far, in order. */
  function Tried(sent: seq<Event>): seq<Mech> {
    if sent == [] then []
    else
      var rest := Tried(sent[..|sent| - 1]);
      if sent[|sent| - 1].Auth? then rest + [sent[|sent| - 1].m] else rest
  }

  lemma TriedOne(sent: seq<Event>, e: Event)
    ensures Tried(sent + [e]) == if e.Auth? then Tried(sent) + [e.m] else Tried(sent)
  {
    assert (sent + [e])[..|sent|] == sent;
  }

  predicate Descending(ms: seq<Mech>) {
    forall i, j :: 0 <= i < j < |ms| ==> ms[i].Order() < ms[j].Order()
  }

  /** The mechanism in use is the one the chain would pick again, nothing less preferred has been
      tried, and without one in use nothing is left to try. */
  predicate Inv(s: Sasl, cfg: Config) {
    && Descending(Tried(s.sent))
    && match Select(Enabled(s), cfg)
       case None => s.authused == {}
       case Some(u) => s.authused == {u} && forall m :: m in Tried(s.sent) ==> m.Order() <= u.Order()
  }

  /** A machine on which no dialog has been started. */
  predicate Fresh(s: Sasl) { s.state == SStop && s.sent == [] }

  /** Before a mechanism is chosen: everything eligible is less preferred than all tried ones. */
  predicate Ready(s: Sasl, cfg: Config) {
    && Descending(Tried(s.sent))
    && forall m, t :: Eligible(m, s, cfg) && t in Tried(s.sent) ==> t.Order() < m.Order()
  }

  lemma DescendingMore(ms: seq<Mech>, m: Mech)
    requires Descending(ms) && forall t :: t in ms ==> t.Order() < m.Order()
    ensures Descending(ms + [m])
  {
  }

  /** What Start leaves behind when it picks m. */
  lemma StartShape(s: Sasl, cfg: Config, forceIr: bool, inp: Input, m: Mech)
    requires Select(Enabled(s), cfg) == Some(m)
    ensures var o := Start(s, cfg, forceIr, inp);
      && o.sasl.authmechs == s.authmechs && o.sasl.prefmech == s.prefmech && o.sasl.authused == {m}
      && (o.sasl.sent == s.sent || o.sasl.sent == s.sent + [Auth(m)])
      && (o.progress == InProgress ==> o.sasl.state == m.WithResponse() || o.sasl.state == m.WithoutResponse())
      && (o.progress != InProgress ==> o.progress == Idle && o.sasl.state == s.state)
      && (o.progress == InProgress <==> o.result == CurlOk)
  {
    hide Select;
  }

  lemma StartKeepsInv(s: Sasl, cfg: Config, forceIr: bool, inp: Input)
    requires Ready(s, cfg)
    ensures Inv(Start(s, cfg, forceIr, inp).sasl, cfg)
  {
    hide Select, Usable, Descending;
    var o := Start(s, cfg, forceIr, inp);
    SelectIsFirst(s, cfg);
    var m := Select(Enabled(s), cfg);
    if m.Some? {
      hide Start;
      StartShape(s, cfg, forceIr, inp, m.value);
      TriedOne(s.sent, Auth(m.value));
      DescendingMore(Tried(s.sent), m.value);
      assert Enabled(o.sasl) == Enabled(s);
    }
  }

  /** Taking the mechanism in use away leaves only less preferred ones. */
  lemma XorMakesReady(s: Sasl, cfg: Config)
    requires Inv(s, cfg)
    ensures Ready(s.(authmechs := Xor(s.authmechs, s.authused)), cfg)
    ensures s.authused != {} ==> |Xor(s.authmechs, s.authused)| == |s.authmechs| - 1
    ensures s.authused == {} ==> Xor(s.authmechs, s.authused) == s.authmechs && Select(Enabled(s), cfg) == None
  {
    hide Select, Usable;
    var s1 := s.(authmechs := Xor(s.authmechs, s.authused));
    SelectIsFirst(s, cfg);
    var u := Select(Enabled(s), cfg);
    if u.Some? {
      assert Xor(s.authmechs, {u.value}) == s.authmechs - {u.value};
      forall m, t | Eligible(m, s1, cfg) && t in Tried(s.sent)
        ensures t.Order() < m.Order()
      {
        assert Eligible(m, s, cfg) && m != u.value;
        OrderIsInjective(m, u.value);
      }
    } else {
      assert Xor(s.authmechs, {}) == s.authmechs;
    }
  }

  /** The two machines agree on mechanisms, selection and the mechanisms tried. */
  predicate SameDialog(s: Sasl, t: Sasl) {
    && t.authmechs == s.authmechs && t.prefmech == s.prefmech && t.authused == s.authused
    && Tried(t.sent) == Tried(s.sent)
  }

  lemma SameDialogKeepsInv(s: Sasl, t: Sasl, cfg: Config)
    requires Inv(s, cfg) && SameDialog(s, t)
    ensures Inv(t, cfg)
  {
    hide Select, Tried, Descending;
  }

  /** Everything but a restart leaves mechanisms, selection and tried list alone. */
  lemma FinishSameDialog(s: Sasl, reply: Reply, next: State, progress: Progress, inp: Input)
    ensures SameDialog(s, Finish(s, reply, next, progress, inp).sasl)
  {
    hide Tried;
    if reply.result == BadContentEncoding {
      TriedOne(s.sent, Cancel);
    } else if reply.result == CurlOk && reply.resp.Some? {
      TriedOne(s.sent, Response(inp.code));
    }
  }

  lemma ContinueKeepsInv(s: Sasl, cfg: Config, inp: Input)
    requires Inv(s, cfg)
    ensures Inv(Continue(s, cfg, inp).sasl, cfg)
  {
    hide Select, Start, Finish, Answer, Tried, Inv, Xor;
    if s.state == SCancel {
      var s1 := s.(authmechs := Xor(s.authmechs, s.authused));
      XorMakesReady(s, cfg);
      StartKeepsInv(s1, cfg, s.forceIr, inp);
      var o := Start(s1, cfg, s.forceIr, inp);
      FinishSameDialog(o.sasl, Reply(o.result, None), o.sasl.state, o.progress, inp);
      SameDialogKeepsInv(o.sasl, Continue(s, cfg, inp).sasl, cfg);
    } else {
      var a := Answer(s, inp);
      FinishSameDialog(s, a.0, a.1, InProgress, inp);
      SameDialogKeepsInv(s, Continue(s, cfg, inp).sasl, cfg);
    }
  }

  // ---- every run ends ------------------------------------------------------------------------

  /** Steps left in the dialog of one mechanism. */
  function Rank(st: State): nat {
    match st
    case SGssapi => 3
    case SLogin | SDigestMd5 | SNtlm | SGssapiToken | SOAuth2 => 2
    case SPlain | SLoginPasswd | SExternal | SCramMd5 => 1
    case SDigestMd5Resp | SNtlmType2Msg | SGssapiNoData | SOAuth2Resp => 1
    case SStop | SCancel | SFinal => 0
  }

  /** Mechanism bits first, then the steps of the current dialog. */
  function Measure(s: Sasl): nat { 4 * |s.authmechs| + Rank(s.state) }

  lemma RestartDescends(s: Sasl, cfg: Config, inp: Input)
    requires Inv(s, cfg) && s.state == SCancel && Continue(s, cfg, inp).progress == InProgress
    ensures |Continue(s, cfg, inp).sasl.authmechs| == |s.authmechs| - 1
  {
    hide Select, Start, Finish, Inv, Enabled;
    var s1 := s.(authmechs := Xor(s.authmechs, s.authused));
    XorMakesReady(s, cfg);
    var o := Start(s1, cfg, s.forceIr, inp);
    StartMechs(s1, cfg, s.forceIr, inp);
    FinishMechs(o.sasl, Reply(o.result, None), o.sasl.state, o.progress, inp);
    EnabledMechs(s, s1);
  }

  lemma StartMechs(s: Sasl, cfg: Config, forceIr: bool, inp: Input)
    ensures var o := Start(s, cfg, forceIr, inp);
      o.sasl.authmechs == s.authmechs && (o.progress == InProgress ==> Select(Enabled(s), cfg).Some?)
  {
    hide Select;
  }

  lemma FinishMechs(s: Sasl, reply: Reply, next: State, progress: Progress, inp: Input)
    ensures var o := Finish(s, reply, next, progress, inp);
      o.sasl.authmechs == s.authmechs && (o.progress == InProgress ==> progress == InProgress)
  {
  }

  lemma EnabledMechs(s: Sasl, t: Sasl)
    requires t == s.(authmechs := t.authmechs)
    ensures s.authmechs == t.authmechs ==> Enabled(s) == Enabled(t)
  {
  }

  lemma DialogDescends(s: Sasl, cfg: Config, inp: Input)
    requires s.state != SCancel && Continue(s, cfg, inp).progress == InProgress
    ensures Continue(s, cfg, inp).sasl.authmechs == s.authmechs
    ensures Rank(Continue(s, cfg, inp).sasl.state) < Rank(s.state)
  {
    hide Start;
  }

  /** While a dialog goes on, every call uses up a step or, with a cancelled mechanism, its bit. */
  lemma ContinueDescends(s: Sasl, cfg: Config, inp: Input)
    requires Inv(s, cfg) && Continue(s, cfg, inp).progress == InProgress
    ensures Measure(Continue(s, cfg, inp).sasl) < Measure(s)
  {
    hide Continue;
    if s.state == SCancel {
      RestartDescends(s, cfg, inp);
    } else {
      DialogDescends(s, cfg, inp);
    }
  }

  // ---- whole runs ----------------------------------------------------------------------------

  /** The protocol calls Continue for each server reply until the dialog is over. */
  function Drive(o: Outcome, cfg: Config, inputs: seq<Input>): Outcome
    decreases |inputs|
  {
    if inputs == [] || o.progress != InProgress then o
    else Drive(Continue(o.sasl, cfg, inputs[0]), cfg, inputs[1..])
  }

  /** How many of the replies are consumed. */
  function Used(o: Outcome, cfg: Config, inputs: seq<Input>): (n: nat)
    ensures n <= |inputs|
    decreases |inputs|
  {
    if inputs == [] || o.progress != InProgress then 0
    else 1 + Used(Continue(o.sasl, cfg, inputs[0]), cfg, inputs[1..])
  }

  lemma {:induction false} DriveEnds(o: Outcome, cfg: Config, inputs: seq<Input>)
    requires o.progress == InProgress ==> Inv(o.sasl, cfg)
    ensures o.progress == InProgress ==> Used(o, cfg, inputs) <= Measure(o.sasl) + 1
    ensures |inputs| > Measure(o.sasl) ==> Drive(o, cfg, inputs).progress != InProgress
    decreases |inputs|
  {
    hide Continue, Inv, Measure;
    if inputs != [] && o.progress == InProgress {
      var next := Continue(o.sasl, cfg, inputs[0]);
      ContinueKeepsInv(o.sasl, cfg, inputs[0]);
      DriveEnds(next, cfg, inputs[1..]);
      if next.progress == InProgress {
        ContinueDescends(o.sasl, cfg, inputs[0]);
      }
    }
  }

  /** Every run ends after at most four calls for each offered mechanism, plus four. */
  lemma RunEnds(s: Sasl, cfg: Config, forceIr: bool, inp: Input, inputs: seq<Input>)
    requires Fresh(s)
    ensures Used(Start(s, cfg, forceIr, inp), cfg, inputs) <= 4 * |s.authmechs| + 4
    ensures |inputs| >= 4 * |s.authmechs| + 4 ==> Drive(Start(s, cfg, forceIr, inp), cfg, inputs).progress != InProgress
  {
    hide Continue, Inv;
    var o := Start(s, cfg, forceIr, inp);
    FreshIsReady(s, cfg);
    StartKeepsInv(s, cfg, forceIr, inp);
    DriveEnds(o, cfg, inputs);
    StartMeasure(s, cfg, forceIr, inp);
  }

  lemma FreshIsReady(s: Sasl, cfg: Config)
    requires Fresh(s)
    ensures Ready(s, cfg)
  {
  }

  lemma StartMeasure(s: Sasl, cfg: Config, forceIr: bool, inp: Input)
    requires Fresh(s)
    ensures Measure(Start(s, cfg, forceIr, inp).sasl) <= 4 * |s.authmechs| + 3
  {
    hide Select;
  }

  // ---- safety of runs ------------------------------------------------------------------------

  /** When one call reports success. The last case is a machine that is continued although its
      dialog is over: the code reports success for a mere continuation code there. */
  lemma SuccessExactly(s: Sasl, cfg: Config, inp: Input)
    ensures var o := Continue(s, cfg, inp);
      o.progress == Done && o.result == CurlOk <==>
        || ((s.state == SFinal || s.state == SOAuth2Resp) && inp.code == cfg.finalcode)
        || (s.state == SStop && inp.code == cfg.contcode)
  {
    hide Start, Xor;
    if s.state == SCancel {
      CancelNeverDone(s.(authmechs := Xor(s.authmechs, s.authused)), cfg, s.forceIr, inp);
    }
  }

  lemma CancelNeverDone(s: Sasl, cfg: Config, forceIr: bool, inp: Input)
    ensures Start(s, cfg, forceIr, inp).progress != Done
  {
    hide Select;
  }

  /** A finished machine must not be continued: it would report success without the final code. */
  lemma StoppedMachineLies(s: Sasl, cfg: Config, inp: Input)
    requires s.state == SStop && inp.code == cfg.contcode != cfg.finalcode
    ensures Continue(s, cfg, inp).progress == Done && Continue(s, cfg, inp).result == CurlOk
  {
  }

  /** Responses answer continuation codes only. */
  predicate AnswersContinuations(sent: seq<Event>, cfg: Config) {
    forall i :: 0 <= i < |sent| && sent[i].Response? ==> sent[i].code == cfg.contcode
  }

  /** Only offered and usable mechanisms are tried. */
  predicate TriedFrom(sent: seq<Event>, offered: set<Mech>, cfg: Config) {
    forall i :: 0 <= i < |sent| && sent[i].Auth? ==> sent[i].m in offered && Usable(sent[i].m, cfg)
  }

  predicate Safe(s: Sasl, offered: set<Mech>, cfg: Config) {
    && Enabled(s) <= offered
    && AnswersContinuations(s.sent, cfg)
    && TriedFrom(s.sent, offered, cfg)
  }

  lemma SafeMore(s: Sasl, t: Sasl, e: Event, offered: set<Mech>, cfg: Config)
    requires Safe(s, offered, cfg) && t.sent == s.sent + [e] && Enabled(t) <= Enabled(s)
    requires e.Response? ==> e.code == cfg.contcode
    requires e.Auth? ==> e.m in offered && Usable(e.m, cfg)
    ensures Safe(t, offered, cfg)
  {
    hide Usable;
  }

  lemma StartIsSafe(s: Sasl, cfg: Config, forceIr: bool, inp: Input, offered: set<Mech>)
    requires Safe(s, offered, cfg)
    ensures var o := Start(s, cfg, forceIr, inp);
      Safe(o.sasl, offered, cfg) && (o.progress == InProgress ==> o.sasl.state != SStop)
  {
    hide Select, Usable;
    SelectIsFirst(s, cfg);
    var o := Start(s, cfg, forceIr, inp);
    var m := Select(Enabled(s), cfg);
    if m.Some? {
      hide Start;
      StartShape(s, cfg, forceIr, inp, m.value);
      assert Enabled(o.sasl) == Enabled(s);
      if o.sasl.sent != s.sent {
        SafeMore(s, o.sasl, Auth(m.value), offered, cfg);
      }
    }
  }

  lemma FinishIsSafe(s: Sasl, reply: Reply, next: State, progress: Progress, inp: Input, offered: set<Mech>,
                     cfg: Config)
    requires Safe(s, offered, cfg) && (reply.resp.Some? ==> inp.code == cfg.contcode)
    ensures Safe(Finish(s, reply, next, progress, inp).sasl, offered, cfg)
    ensures progress == Finish(s, reply, next, progress, inp).progress == InProgress && next != SStop ==>
            Finish(s, reply, next, progress, inp).sasl.state != SStop
  {
    hide Safe, Usable;
    var t := Finish(s, reply, next, progress, inp).sasl;
    if reply.result == BadContentEncoding {
      SafeMore(s, t, Cancel, offered, cfg);
    } else if reply.result == CurlOk && reply.resp.Some? {
      SafeMore(s, t, Response(inp.code), offered, cfg);
    } else {
      SafeSame(s, t, offered, cfg);
    }
  }

  lemma SafeSame(s: Sasl, t: Sasl, offered: set<Mech>, cfg: Config)
    requires Safe(s, offered, cfg) && t.sent == s.sent && Enabled(t) <= Enabled(s)
    ensures Safe(t, offered, cfg)
  {
    hide Usable;
  }

  lemma XorShrinks(s: Sasl, cfg: Config)
    requires Inv(s, cfg)
    ensures Enabled(s.(authmechs := Xor(s.authmechs, s.authused))) <= Enabled(s)
  {
    hide Select, Tried;
    SelectIsFirst(s, cfg);
  }

  lemma ContinueIsSafe(s: Sasl, cfg: Config, inp: Input, offered: set<Mech>)
    requires Inv(s, cfg) && Safe(s, offered, cfg) && s.state != SStop
    ensures var o := Continue(s, cfg, inp);
      && Safe(o.sasl, offered, cfg)
      && (o.progress == InProgress ==> o.sasl.state != SStop)
      && (o.progress == Done && o.result == CurlOk ==> inp.code == cfg.finalcode)
  {
    SuccessExactly(s, cfg, inp);
    hide Select, Start, Finish, Inv, Safe, Xor, Enabled;
    var o := Continue(s, cfg, inp);
    if s.state == SCancel {
      var s1 := s.(authmechs := Xor(s.authmechs, s.authused));
      XorShrinks(s, cfg);
      SafeSame(s, s1, offered, cfg);
      StartIsSafe(s1, cfg, s.forceIr, inp, offered);
      var p := Start(s1, cfg, s.forceIr, inp);
      FinishIsSafe(p.sasl, Reply(p.result, None), p.sasl.state, p.progress, inp, offered, cfg);
      FinishProgress(p.sasl, Reply(p.result, None), p.sasl.state, p.progress, inp);
    } else {
      var a := Answer(s, inp);
      if o == Finish(s, a.0, a.1, InProgress, inp) && inp.code == cfg.contcode {
        FinishIsSafe(s, a.0, a.1, InProgress, inp, offered, cfg);
        FinishProgress(s, a.0, a.1, InProgress, inp);
      } else {
        SafeSameState(s, o.sasl, offered, cfg);
      }
    }
  }

  lemma SafeSameState(s: Sasl, t: Sasl, offered: set<Mech>, cfg: Config)
    requires Safe(s, offered, cfg) && t == s.(state := t.state)
    ensures Safe(t, offered, cfg)
  {
    SafeSame(s, t, offered, cfg);
  }

  lemma FinishProgress(s: Sasl, reply: Reply, next: State, progress: Progress, inp: Input)
    ensures Finish(s, reply, next, progress, inp).progress == InProgress ==> progress == InProgress
  {
  }

  lemma {:induction false} DriveIsSafe(o: Outcome, cfg: Config, inputs: seq<Input>, offered: set<Mech>)
    requires Inv(o.sasl, cfg) && Safe(o.sasl, offered, cfg)
    requires o.progress == InProgress ==> o.sasl.state != SStop
    ensures var r := Drive(o, cfg, inputs);
      && Inv(r.sasl, cfg) && Safe(r.sasl, offered, cfg)
      && (o.progress == InProgress && r.progress == Done && r.result == CurlOk ==>
            var n := Used(o, cfg, inputs); 1 <= n && inputs[n - 1].code == cfg.finalcode)
    decreases |inputs|
  {
    hide Continue, Inv, Safe;
    if inputs != [] && o.progress == InProgress {
      var next := Continue(o.sasl, cfg, inputs[0]);
      ContinueKeepsInv(o.sasl, cfg, inputs[0]);
      ContinueIsSafe(o.sasl, cfg, inputs[0], offered);
      DriveIsSafe(next, cfg, inputs[1..], offered);
    }
  }

  /** Safety of a run that is not continued after its end: success only on the server's final
      code, responses only to continuation codes, and the mechanisms tried are offered, usable,
      pairwise different and strictly descending in the code's preference. */
  lemma RunIsSafe(s: Sasl, cfg: Config, forceIr: bool, inp: Input, inputs: seq<Input>)
    requires Fresh(s)
    ensures var o := Start(s, cfg, forceIr, inp); var r := Drive(o, cfg, inputs);
      && (r.progress == Done && r.result == CurlOk ==>
            var n := Used(o, cfg, inputs); 1 <= n && inputs[n - 1].code == cfg.finalcode)
      && AnswersContinuations(r.sasl.sent, cfg)
      && TriedFrom(r.sasl.sent, s.authmechs * s.prefmech, cfg)
      && Descending(Tried(r.sasl.sent))
  {
    hide Continue, Select, Usable;
    FreshIsReady(s, cfg);
    StartKeepsInv(s, cfg, forceIr, inp);
    StartIsSafe(s, cfg, forceIr, inp, Enabled(s));
    CancelNeverDone(s, cfg, forceIr, inp);
    hide Start;
    DriveIsSafe(Start(s, cfg, forceIr, inp), cfg, inputs, Enabled(s));
  }
}
