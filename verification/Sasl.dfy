/** The SASL structure of lib/curl_sasl.c: one object whose state, mechanism bits and bit in use
    are assigned step by step. */
module Sasl {
  import opened Wrappers
  import opened SaslSpec

  class SaslMachine {
    var state: State
    var authmechs: set<Mech>
    var prefmech: set<Mech>
    var authused: set<Mech>
    var mutualAuth: bool
    var forceIr: bool
    var sent: seq<Event>  // what the protocol's send callbacks were asked to send

    function Abs(): SaslSpec.Sasl
      reads this
    {
      SaslSpec.Sasl(state, authmechs, prefmech, authused, mutualAuth, forceIr, sent)
    }

    /** Curl_sasl_init, with the bits that the server offers and the user prefers. */
    constructor (offered: set<Mech>, preferred: set<Mech>)
      ensures Fresh(Abs()) && authmechs == offered && prefmech == preferred
    {
      state, authmechs, prefmech, authused := SStop, offered, preferred, {};
      mutualAuth, forceIr, sent := false, false, [];
    }

    /** Curl_sasl_start. */
    method Start(cfg: Config, forceIr: bool, inp: Input) returns (result: Code, progress: Progress)
      modifies this
      ensures Outcome(Abs(), result, progress) == SaslSpec.Start(old(Abs()), cfg, forceIr, inp)
    {
      hide SaslSpec.SendAuth, Select;
      this.forceIr := forceIr;
      authused := {};
      result, progress := CurlOk, Idle;
      var mech := Select(authmechs * prefmech, cfg);
      if mech.None? {
        return;
      }
      var m := mech.value;
      authused := {m};
      if m == Gssapi {
        mutualAuth := false;
      }
      var resp := None;
      if m.HasInitialResponse() && (forceIr || cfg.saslIr) {
        result, resp := inp.initial.result, inp.initial.resp;
      }
      if result == CurlOk {
        result, progress := SendAuth(cfg, m, resp, inp);
      }
    }

    method SendAuth(cfg: Config, m: Mech, initial: Option<nat>, inp: Input) returns (result: Code, progress: Progress)
      modifies this`sent, this`state
      ensures Outcome(Abs(), result, progress) == SaslSpec.SendAuth(old(Abs()), cfg, m, initial, inp)
    {
      var resp := initial;
      progress := Idle;
      if resp.Some? && cfg.maxIrLen > 0 && m.NameLength() + resp.value > cfg.maxIrLen {
        resp := None;
      }
      sent := sent + [Auth(m)];
      result := inp.sendauth;
      if result == CurlOk {
        progress := InProgress;
        state := if resp.Some? then m.WithResponse() else m.WithoutResponse();
      }
    }

    /** Curl_sasl_continue. */
    method Continue(cfg: Config, inp: Input) returns (result: Code, progress: Progress)
      modifies this
      ensures Outcome(Abs(), result, progress) == SaslSpec.Continue(old(Abs()), cfg, inp)
    {
      result, progress := CurlOk, InProgress;
      if state == SFinal {
        if inp.code != cfg.finalcode {
          result := LoginDenied;
        }
        progress, state := Done, SStop;
        return;
      }
      if state != SCancel && state != SOAuth2Resp && inp.code != cfg.contcode {
        progress, state := Done, SStop;
        return LoginDenied, Done;
      }
      if state == SStop {
        progress := Done;
        return;
      }
      var resp, newstate := None, SFinal;
      if state == SCancel {
        authmechs := Xor(authmechs, authused);
        result, progress := Start(cfg, forceIr, inp);
        newstate := state;
      } else if state == SOAuth2Resp && inp.code == cfg.finalcode {
        progress, state := Done, SStop;
        return;
      } else if state == SOAuth2Resp && inp.code != cfg.contcode {
        progress, state := Done, SStop;
        return LoginDenied, Done;
      } else {
        var a := Answer(Abs(), inp);
        result, resp, newstate := a.0.result, a.0.resp, a.1;
      }
      result, progress := Finish(result, resp, newstate, progress, inp);
    }

    /** The second switch of Curl_sasl_continue. */
    method Finish(built: Code, resp: Option<nat>, newstate: State, before: Progress, inp: Input)
      returns (result: Code, progress: Progress)
      modifies this`state, this`sent
      ensures Outcome(Abs(), result, progress) == SaslSpec.Finish(old(Abs()), Reply(built, resp), newstate, before, inp)
    {
      result, progress := built, before;
      state := newstate;
      if built == BadContentEncoding {
        result := inp.sendcont;
        sent, state := sent + [Cancel], SCancel;
      } else if built == CurlOk {
        if resp.Some? {
          result := inp.sendcont;
          sent := sent + [Response(inp.code)];
        }
      } else {
        progress, state := Done, SStop;
      }
    }

    /** What a protocol does with the machine: start, then continue with each server reply while
        the dialog is in progress. The loop needs no bound of its own; the replies may go on for
        ever. */
    method Authenticate(cfg: Config, forceIr: bool, first: Input, replies: nat -> Input)
      returns (result: Code, progress: Progress, calls: nat)
      requires Fresh(Abs())
      modifies this
      ensures progress != InProgress && calls <= 4 * |old(authmechs)| + 4
      ensures progress == Done && result == CurlOk ==> calls > 0 && replies(calls - 1).code == cfg.finalcode
      ensures AnswersContinuations(sent, cfg) && Descending(Tried(sent))
      ensures TriedFrom(sent, old(authmechs * prefmech), cfg)
    {
      ghost var offered := Enabled(Abs());
      FreshIsReady(Abs(), cfg);
      StartKeepsInv(Abs(), cfg, forceIr, first);
      StartIsSafe(Abs(), cfg, forceIr, first, offered);
      StartMeasure(Abs(), cfg, forceIr, first);
      CancelNeverDone(Abs(), cfg, forceIr, first);
      result, progress := Start(cfg, forceIr, first);
      calls := 0;
      while progress == InProgress
        invariant Inv(Abs(), cfg) && Safe(Abs(), offered, cfg)
        invariant progress == InProgress ==> state != SStop && calls + Measure(Abs()) <= 4 * |old(authmechs)| + 3
        invariant calls <= 4 * |old(authmechs)| + 4
        invariant progress == Done && result == CurlOk ==> calls > 0 && replies(calls - 1).code == cfg.finalcode
        decreases if progress == InProgress then 1 + Measure(Abs()) else 0
      {
        var inp := replies(calls);
        ContinueKeepsInv(Abs(), cfg, inp);
        ContinueIsSafe(Abs(), cfg, inp, offered);
        if SaslSpec.Continue(Abs(), cfg, inp).progress == InProgress {
          ContinueDescends(Abs(), cfg, inp);
        }
        result, progress := Continue(cfg, inp);
        calls := calls + 1;
      }
    }
  }
}
