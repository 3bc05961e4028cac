/** The hand-off between a transfer and its resolver threads in lib/asyn-thread.c, as an
    interleaving of small steps over the shared records. */
module ResolverThreads {
  import opened Wrappers

  datatype Owner = Nobody | Parent | Thread

  /** The thread handle kept in the record. */
  datatype Handle = NullHandle | Joinable | Detached

  /** getaddrinfo_thread, between two steps. */
  datatype ThreadPc =
    | NotStarted
    | Resolving     // in the resolve call
    | Resolved      // about to acquire the mutex
    | InLock        // holds the mutex, about to look at done
    | UnlockLate    // saw done, about to release the mutex
    | UnlockEarly   // set done, about to release the mutex
    | CleanSync     // too late: about to destroy the synchronization data
    | CleanRecord   // about to free the record
    | Ended

  /** One heap record (struct thread_data) together with what has happened to it: how often it was
      released, how often its address list was produced, handed to the callback and freed, and
      whether anybody touched it after its release. */
  datatype Rec = Rec(done: bool, mutex: Owner, handle: Handle, res: bool, thread: ThreadPc,
                     releases: nat, produced: nat, handed: nat, freed: nat, fault: bool)

  /** Where the transfer stands inside init_resolve_thread, is_resolved, wait_resolv and
      destroy_async_data. */
  datatype ParentPc =
    | Idle
    | InitName | InitClear | Create | Assign | CreateFailed
    | PollLock | PollRead | PollUnlock(seen: bool)
    | Join(entry: bool) | Complete
    | DestroyLock | DestroySwap | DestroyUnlock(seen: bool) | DestroyJoin | DestroySync | DestroyFree | DestroyClear

  /** cur is the record that the connection's os_specific points to. */
  datatype State = State(recs: seq<Rec>, cur: Option<nat>, pc: ParentPc)

  const INITIAL: State := State([], None, Idle)

  /** Where the code or the application has a choice. */
  datatype Choice = Start(memory: bool, ready: bool) | Poll | Wait(entry: bool) | CancelResolve | Go(ok: bool)

  datatype Action = ThreadAction(i: nat, ok: bool) | ParentAction(c: Choice)

  /** Any use of a record by one of the threads. */
  function Touch(r: Rec): Rec { r.(fault := r.fault || r.releases > 0) }

  function NewRec(): Rec { Rec(true, Nobody, NullHandle, false, NotStarted, 0, 0, 0, 0, false) }

  /** destroy_thread_sync_data: the mutex, which nobody may hold, the name and, when there is
      one, the address list. */
  function DestroySyncData(r: Rec): Rec {
    var q := Touch(r);
    q.(freed := r.freed + (if r.res then 1 else 0), res := false, fault := q.fault || r.mutex != Nobody)
  }

  function Release(r: Rec): Rec { r.(releases := r.releases + 1) }

  /** One step of the resolver thread; None when it is blocked or gone. ok: the name resolves. */
  function ThreadStep(r: Rec, ok: bool): Option<Rec> {
    match r.thread
    case Resolving =>
      Some(Touch(r).(thread := Resolved, res := ok, produced := r.produced + if ok then 1 else 0))
    case Resolved =>
      if r.mutex == Nobody then Some(Touch(r).(thread := InLock, mutex := Thread)) else None
    case InLock =>
      if r.done then Some(Touch(r).(thread := UnlockLate))
      else Some(Touch(r).(thread := UnlockEarly, done := true))
    case UnlockLate => Some(Touch(r).(thread := CleanSync, mutex := Nobody))
    case UnlockEarly => Some(Touch(r).(thread := Ended, mutex := Nobody))
    case CleanSync => Some(DestroySyncData(r).(thread := CleanRecord))
    case CleanRecord => Some(Release(Touch(r)).(thread := Ended))
    case NotStarted | Ended => None
  }

  /** A step of the parent inside a record: the new record and where the parent goes. */
  function RecordStep(r: Rec, pc: ParentPc, ok: bool): Option<(Rec, ParentPc)> {
    match pc
    case InitName => Some((Touch(r), if ok then InitClear else DestroyLock))
    case InitClear => Some((Touch(r).(done := false), Create))
    case Create => if ok then Some((Touch(r).(thread := Resolving), Assign)) else Some((r, CreateFailed))
    case Assign => Some((Touch(r).(handle := Joinable), Idle))
    case CreateFailed => Some((Touch(r).(done := true), DestroyLock))
    case PollLock => if r.mutex == Nobody then Some((Touch(r).(mutex := Parent), PollRead)) else None
    case PollRead => Some((Touch(r), PollUnlock(r.done)))
    case PollUnlock(seen) => Some((Touch(r).(mutex := Nobody), if seen then Complete else Idle))
    case Join(entry) =>
      if r.thread == Ended then Some((Touch(r).(handle := NullHandle), if entry then Complete else DestroyLock))
      else None
    case Complete =>
      Some((Touch(r).(handed := r.handed + (if r.res then 1 else 0), res := false), DestroyLock))
    case DestroyLock => if r.mutex == Nobody then Some((Touch(r).(mutex := Parent), DestroySwap)) else None
    case DestroySwap =>
      // take the old flag, set it, and detach a thread that has not finished
      Some((Touch(r).(done := true, handle := if r.done then r.handle else Detached), DestroyUnlock(r.done)))
    case DestroyUnlock(seen) => Some((Touch(r).(mutex := Nobody), if seen then DestroyJoin else DestroyClear))
    case DestroyJoin =>
      if r.handle == NullHandle then Some((Touch(r), DestroySync))
      else if r.thread == Ended then Some((Touch(r).(handle := NullHandle), DestroySync))
      else None
    case DestroySync => Some((DestroySyncData(r), DestroyFree))
    case DestroyFree => Some((Release(Touch(r)), DestroyClear))
    case Idle | DestroyClear => None
  }

  function Next(s: State, a: Action): Option<State> {
    match a
    case ThreadAction(i, ok) =>
      if i < |s.recs| && ThreadStep(s.recs[i], ok).Some? then
        Some(s.(recs := s.recs[i := ThreadStep(s.recs[i], ok).value]))
      else None
    case ParentAction(c) => ParentNext(s, c)
  }

  function ParentNext(s: State, c: Choice): Option<State> {
    if s.pc == Idle then Command(s, c)
    else if s.pc == DestroyClear then
      if c.Go? then Some(s.(cur := None, pc := Idle)) else None
    else if c.Go? && s.cur.Some? && s.cur.value < |s.recs| then
      var r := RecordStep(s.recs[s.cur.value], s.pc, c.ok);
      if r.Some? then Some(s.(recs := s.recs[s.cur.value := r.value.0], pc := r.value.1)) else None
    else None
  }

  /** The application or the transfer calls into the resolver. */
  function Command(s: State, c: Choice): Option<State> {
    match c
    case Start(memory, ready) =>
      if s.cur.Some? then None
      else if !memory then Some(s)
      else if !ready then Some(s.(recs := s.recs + [Release(NewRec())]))  // freed at once
      else Some(State(s.recs + [NewRec()], Some(|s.recs|), InitName))
    case Poll => Some(if s.cur.Some? then s.(pc := PollLock) else s)
    case Wait(entry) => if s.cur.Some? then Some(s.(pc := Join(entry))) else None
    case CancelResolve => Some(if s.cur.Some? then s.(pc := DestroyLock) else s)
    case Go(_) => None
  }

  // ---- the invariant --------------------------------------------------------------------------

  predicate Holds(t: ThreadPc) { t == InLock || t == UnlockLate || t == UnlockEarly }

  predicate ParentHolds(pc: ParentPc) {
    pc == PollRead || pc.PollUnlock? || pc == DestroySwap || pc.DestroyUnlock?
  }

  /** The address list is in the record, with the callback, or freed: exactly one of them. */
  predicate Accounted(r: Rec) {
    && r.produced <= 1
    && (if r.res then 1 else 0) + r.handed + r.freed == r.produced
    && (r.thread == NotStarted || r.thread == Resolving ==> r.produced == 0)
  }

  predicate MutexRight(r: Rec, parent: bool) {
    && !(parent && Holds(r.thread))
    && r.mutex == if Holds(r.thread) then Thread else if parent then Parent else Nobody
  }

  /** Released, and nobody left who could touch it. */
  predicate Over(r: Rec) {
    r.releases == 1 && !r.res && (r.thread == NotStarted || r.thread == Ended)
  }

  /** Left to its thread, which will find the flag set and release the record. */
  predicate LeftToThread(r: Rec) {
    && r.releases == 0 && r.done && r.handle == Detached
    && r.thread != NotStarted && r.thread != Ended && r.thread != UnlockEarly
    && (r.thread == CleanRecord ==> !r.res)
  }

  /** A record that the connection no longer refers to. */
  predicate Abandoned(r: Rec) { MutexRight(r, false) && (Over(r) || LeftToThread(r)) }

  /** The thread has not been told to go: it sets the flag itself when it is ready. */
  predicate Working(r: Rec) {
    && r.thread != NotStarted && r.thread != UnlockLate && r.thread != CleanSync && r.thread != CleanRecord
    && (r.done <==> r.thread == UnlockEarly || r.thread == Ended)
    && r.handle != Detached
  }

  predicate Unstarted(r: Rec) { r.thread == NotStarted && r.handle == NullHandle }

  /** Joined, or never started: only the parent is left. */
  predicate Alone(r: Rec) { r.thread == NotStarted || r.thread == Ended }

  /** The record the connection refers to, by the place of the parent. */
  predicate Current(r: Rec, pc: ParentPc) {
    && MutexRight(r, ParentHolds(pc))
    && match pc
       case InitName | InitClear => r.releases == 0 && Unstarted(r) && r.done
       case Create | CreateFailed => r.releases == 0 && Unstarted(r) && !r.done
       case Assign => r.releases == 0 && Working(r) && r.handle == NullHandle
       case Idle | PollLock | PollRead | Join(_) => r.releases == 0 && Working(r) && r.handle == Joinable
       case PollUnlock(seen) => r.releases == 0 && Working(r) && r.handle == Joinable && seen == r.done
       case Complete => r.releases == 0 && Working(r) && r.thread == Ended
       case DestroyLock | DestroySwap =>
         r.releases == 0 && (if r.thread == NotStarted then r.done && Unstarted(r)
                             else Working(r) && (r.handle == NullHandle ==> r.thread == Ended))
       case DestroyUnlock(seen) =>
         if seen then r.releases == 0 && r.done && Alone(r) && r.handle != Detached
                      && (r.thread == NotStarted ==> r.handle == NullHandle)
         else LeftToThread(r) && (r.thread == Resolving || r.thread == Resolved)
       case DestroyJoin =>
         r.releases == 0 && r.done && Alone(r) && r.handle != Detached
         && (r.thread == NotStarted ==> r.handle == NullHandle)
       case DestroySync => r.releases == 0 && Alone(r)
       case DestroyFree => r.releases == 0 && Alone(r) && !r.res
       case DestroyClear => Over(r) || LeftToThread(r)
  }

  predicate RecInv(s: State, i: nat)
    requires i < |s.recs|
  {
    && !s.recs[i].fault && Accounted(s.recs[i])
    && if s.cur == Some(i) then Current(s.recs[i], s.pc) else Abandoned(s.recs[i])
  }

  predicate Inv(s: State) {
    && (s.cur.Some? ==> s.cur.value < |s.recs|)
    && (s.cur.None? ==> s.pc == Idle)
    && forall i :: 0 <= i < |s.recs| ==> RecInv(s, i)
  }

  /** A thread's step keeps what the parent relies on, wherever the parent is. */
  lemma ThreadStepKeepsCurrent(r: Rec, pc: ParentPc, ok: bool)
    requires !r.fault && Accounted(r) && Current(r, pc) && ThreadStep(r, ok).Some?
    ensures var q := ThreadStep(r, ok).value; !q.fault && Accounted(q) && Current(q, pc)
  {
  }

  lemma ThreadStepKeepsAbandoned(r: Rec, ok: bool)
    requires !r.fault && Accounted(r) && Abandoned(r) && ThreadStep(r, ok).Some?
    ensures var q := ThreadStep(r, ok).value; !q.fault && Accounted(q) && Abandoned(q)
  {
  }

  predicate Destroying(pc: ParentPc) {
    || pc == DestroyLock || pc == DestroySwap || pc.DestroyUnlock? || pc == DestroyJoin
    || pc == DestroySync || pc == DestroyFree || pc == DestroyClear
  }

  lemma DestroyStepKeepsCurrent(r: Rec, pc: ParentPc, ok: bool)
    requires !r.fault && Accounted(r) && Current(r, pc) && RecordStep(r, pc, ok).Some? && Destroying(pc)
    ensures var q := RecordStep(r, pc, ok).value; !q.0.fault && Accounted(q.0) && Current(q.0, q.1)
  {
  }

  lemma UseStepKeepsCurrent(r: Rec, pc: ParentPc, ok: bool)
    requires !r.fault && Accounted(r) && Current(r, pc) && RecordStep(r, pc, ok).Some? && !Destroying(pc)
    ensures var q := RecordStep(r, pc, ok).value; !q.0.fault && Accounted(q.0) && Current(q.0, q.1)
  {
  }

  lemma RecordStepKeepsCurrent(r: Rec, pc: ParentPc, ok: bool)
    requires !r.fault && Accounted(r) && Current(r, pc) && RecordStep(r, pc, ok).Some?
    ensures var q := RecordStep(r, pc, ok).value; !q.0.fault && Accounted(q.0) && Current(q.0, q.1)
  {
    hide Accounted, Current, RecordStep;
    if Destroying(pc) {
      DestroyStepKeepsCurrent(r, pc, ok);
    } else {
      UseStepKeepsCurrent(r, pc, ok);
    }
  }

  /** After the parent's last step on a record it may forget it. */
  lemma ClearedIsAbandoned(r: Rec)
    requires Current(r, DestroyClear)
    ensures Abandoned(r)
  {
  }

  lemma NewRecIsSound()
    ensures Accounted(NewRec()) && Current(NewRec(), InitName) && !NewRec().fault
    ensures Accounted(Release(NewRec())) && Abandoned(Release(NewRec())) && !Release(NewRec()).fault
  {
  }

  lemma CommandKeepsInv(s: State, c: Choice)
    requires Inv(s) && s.pc == Idle && Command(s, c).Some?
    ensures Inv(Command(s, c).value)
  {
    hide Accounted, Abandoned;
    var t := Command(s, c).value;
    NewRecIsSound();
    forall i | 0 <= i < |t.recs|
      ensures RecInv(t, i)
    {
      if i < |s.recs| {
        assert RecInv(s, i);
        assert t.recs[i] == s.recs[i];
      }
    }
  }

  /** Every step of every interleaving keeps the invariant. */
  lemma NextKeepsInv(s: State, a: Action)
    requires Inv(s) && Next(s, a).Some?
    ensures Inv(Next(s, a).value)
  {
    hide Accounted, Abandoned, Current, Command, RecordStep, ThreadStep;
    var t := Next(s, a).value;
    if a.ParentAction? && s.pc == Idle {
      CommandKeepsInv(s, a.c);
      return;
    }
    forall i | 0 <= i < |t.recs|
      ensures RecInv(t, i)
    {
      assert RecInv(s, i);
      if a.ThreadAction? {
        if i == a.i {
          if s.cur == Some(i) {
            ThreadStepKeepsCurrent(s.recs[i], s.pc, a.ok);
          } else {
            ThreadStepKeepsAbandoned(s.recs[i], a.ok);
          }
        }
      } else if s.pc == DestroyClear {
        if s.cur == Some(i) {
          ClearedIsAbandoned(s.recs[i]);
        }
      } else if s.cur == Some(i) {
        RecordStepKeepsCurrent(s.recs[i], s.pc, a.c.ok);
      }
    }
    if a.ParentAction? && s.pc != DestroyClear {
      assert RecInv(s, s.cur.value);
      BusyStaysBusy(s.recs[s.cur.value], s.pc, a.c.ok);
    }
  }

  /** Only DestroyClear lets go of the record. */
  lemma BusyStaysBusy(r: Rec, pc: ParentPc, ok: bool)
    ensures RecordStep(r, pc, ok).Some? ==> pc != Idle
  {
  }

  // ---- runs -------------------------------------------------------------------------------------

  /** A run: the states of some interleaving, from the beginning. */
  predicate IsRun(states: seq<State>, actions: seq<Action>) {
    && |states| == |actions| + 1 && states[0] == INITIAL
    && forall k :: 0 <= k < |actions| ==> Next(states[k], actions[k]) == Some(states[k + 1])
  }

  lemma {:induction false} RunsKeepInv(states: seq<State>, actions: seq<Action>, k: nat)
    requires IsRun(states, actions) && k < |states|
    ensures Inv(states[k])
  {
    hide Inv, Next;
    if k == 0 {
      InitialInv();
    } else {
      RunsKeepInv(states, actions, k - 1);
      assert Next(states[k - 1], actions[k - 1]) == Some(states[k - 1 + 1]);
      NextKeepsInv(states[k - 1], actions[k - 1]);
    }
  }

  lemma InitialInv()
    ensures Inv(INITIAL)
  {
  }

  /** In every state of every interleaving no record is released twice, none is touched after its
      release, its mutex is never destroyed while held, and an address list is never both handed
      to the callback and freed. */
  lemma NeverTwice(states: seq<State>, actions: seq<Action>, k: nat, i: nat)
    requires IsRun(states, actions) && k < |states| && i < |states[k].recs|
    ensures var r := states[k].recs[i]; r.releases <= 1 && !r.fault && r.handed + r.freed <= r.produced <= 1
  {
    RunsKeepInv(states, actions, k);
    assert RecInv(states[k], i);
    AtMostOnce(states[k].recs[i], states[k].pc);
  }

  lemma AtMostOnce(r: Rec, pc: ParentPc)
    requires Accounted(r) && (Current(r, pc) || Abandoned(r))
    ensures r.releases <= 1 && r.handed + r.freed <= r.produced <= 1
  {
  }

  /** Nothing is going on: no record is referred to and every thread is gone. */
  predicate Finished(s: State) {
    s.pc == Idle && s.cur.None? && forall i :: 0 <= i < |s.recs| ==> Alone(s.recs[i])
  }

  /** In a finished run every record was released exactly once, and every address list that was
      produced went to the callback or was freed, exactly one of the two. */
  lemma FinishedExactlyOnce(states: seq<State>, actions: seq<Action>, i: nat)
    requires IsRun(states, actions) && Finished(states[|actions|]) && i < |states[|actions|].recs|
    ensures var r := states[|actions|].recs[i]; r.releases == 1 && !r.fault && r.handed + r.freed == r.produced
  {
    RunsKeepInv(states, actions, |actions|);
    assert RecInv(states[|actions|], i);
  }

  // ---- the hand-off always comes to an end ------------------------------------------------------

  function ThreadRank(t: ThreadPc): nat {
    match t
    case Resolving => 6 case Resolved => 5 case InLock => 4 case UnlockLate => 3 case CleanSync => 2
    case CleanRecord => 1 case UnlockEarly => 1 case NotStarted => 0 case Ended => 0
  }

  /** Creating the thread adds the thread's own steps, hence the distance before it. */
  function ParentRank(pc: ParentPc): nat {
    match pc
    case InitName => 32 case InitClear => 31 case Create => 30 case Assign => 10 case CreateFailed => 20
    case PollLock => 18 case PollRead => 17 case PollUnlock(_) => 16
    case Join(_) => 15 case Complete => 14
    case DestroyLock => 8 case DestroySwap => 7 case DestroyUnlock(_) => 6
    case DestroyJoin => 5 case DestroySync => 4 case DestroyFree => 3 case DestroyClear => 2
    case Idle => 0
  }

  function ThreadsRank(recs: seq<Rec>): nat {
    if recs == [] then 0 else ThreadRank(recs[0].thread) + ThreadsRank(recs[1..])
  }

  function Rank(s: State): nat { ParentRank(s.pc) + ThreadsRank(s.recs) }

  lemma {:induction false} RankUpdate(recs: seq<Rec>, i: nat, r: Rec)
    requires i < |recs|
    ensures ThreadsRank(recs[i := r]) + ThreadRank(recs[i].thread) == ThreadsRank(recs) + ThreadRank(r.thread)
    decreases |recs|
  {
    if i > 0 {
      assert recs[i := r][1..] == recs[1..][i - 1 := r];
      RankUpdate(recs[1..], i - 1, r);
    } else {
      assert recs[0 := r][1..] == recs[1..];
    }
  }

  /** A step that is not a new call into the resolver. */
  predicate Internal(s: State, a: Action) { a.ThreadAction? || s.pc != Idle }

  lemma RecordRank(r: Rec, pc: ParentPc, ok: bool)
    requires RecordStep(r, pc, ok).Some?
    ensures var q := RecordStep(r, pc, ok).value;
      ParentRank(q.1) + ThreadRank(q.0.thread) < ParentRank(pc) + ThreadRank(r.thread)
  {
  }

  /** Every internal step brings the end nearer: no interleaving goes on for ever on its own. */
  lemma InternalStepsDescend(s: State, a: Action)
    requires Next(s, a).Some? && Internal(s, a)
    ensures Rank(Next(s, a).value) < Rank(s)
  {
    hide RecordStep, Command;
    if a.ThreadAction? {
      RankUpdate(s.recs, a.i, ThreadStep(s.recs[a.i], a.ok).value);
    } else if s.pc != DestroyClear {
      var r := RecordStep(s.recs[s.cur.value], s.pc, a.c.ok).value;
      RankUpdate(s.recs, s.cur.value, r.0);
      RecordRank(s.recs[s.cur.value], s.pc, a.c.ok);
    }
  }

  /** The step somebody can take on a record while it is not finished. */
  lemma SomebodyCanGo(r: Rec, pc: ParentPc)
    requires Current(r, pc) && pc != Idle && pc != DestroyClear
    ensures RecordStep(r, pc, true).Some? || ThreadStep(r, true).Some?
  {
  }

  /** No deadlock: while the parent is inside a call or a thread is left, some internal step is
      possible. */
  lemma NoDeadlock(s: State) returns (a: Action)
    requires Inv(s) && (s.pc != Idle || exists i :: 0 <= i < |s.recs| && !Alone(s.recs[i]))
    ensures Internal(s, a) && Next(s, a).Some?
  {
    hide RecordStep, ThreadStep, Current, Command;
    if s.pc == DestroyClear {
      a := ParentAction(Go(true));
    } else if s.pc != Idle {
      var i := s.cur.value;
      assert RecInv(s, i);
      SomebodyCanGo(s.recs[i], s.pc);
      a := if ThreadStep(s.recs[i], true).Some? then ThreadAction(i, true) else ParentAction(Go(true));
    } else {
      var i :| 0 <= i < |s.recs| && !Alone(s.recs[i]);
      assert RecInv(s, i);
      ThreadCanGo(s.recs[i], s.cur == Some(i));
      a := ThreadAction(i, true);
    }
  }

  lemma ThreadCanGo(r: Rec, current: bool)
    requires (if current then Current(r, Idle) else Abandoned(r)) && !Alone(r)
    ensures ThreadStep(r, true).Some?
  {
  }

  predicate Path(s: State, actions: seq<Action>, t: State)
    decreases |actions|
  {
    if actions == [] then s == t
    else Internal(s, actions[0]) && Next(s, actions[0]).Some? && Path(Next(s, actions[0]).value, actions[1..], t)
  }

  /** The connection has let go of its record or is on its way to do so. */
  predicate Closing(s: State) {
    || s.cur.None? || s.pc == CreateFailed || s.pc.Join? || s.pc == Complete || s.pc == PollUnlock(true)
    || Destroying(s.pc)
  }

  lemma RecordClosing(r: Rec, pc: ParentPc, ok: bool)
    requires RecordStep(r, pc, ok).Some?
    requires pc == CreateFailed || pc.Join? || pc == Complete || pc == PollUnlock(true) || Destroying(pc)
    ensures var q := RecordStep(r, pc, ok).value.1; q == Complete || Destroying(q)
  {
  }

  lemma ClosingGoesOn(s: State, a: Action)
    requires Inv(s) && Next(s, a).Some? && Internal(s, a) && Closing(s)
    ensures Closing(Next(s, a).value)
  {
    hide RecordStep, ThreadStep, Command, RecInv, Destroying;
    if a.ParentAction? && s.pc != DestroyClear {
      RecordClosing(s.recs[s.cur.value], s.pc, a.c.ok);
    }
  }

  lemma ClosedWhenIdle(s: State)
    requires Closing(s) && s.pc == Idle
    ensures s.cur.None?
  {
  }

  /** From every reachable state the internal steps alone lead, within a bounded number, to a
      state where the parent is idle and every thread is gone; after a cancel, a wait or a
      successful poll that state is finished, so that nothing is left behind. */
  lemma {:induction false} Settles(s: State) returns (t: State, actions: seq<Action>)
    requires Inv(s)
    ensures Inv(t) && t.pc == Idle && forall i :: 0 <= i < |t.recs| ==> Alone(t.recs[i])
    ensures Path(s, actions, t) && |actions| <= Rank(s)
    ensures Closing(s) ==> Finished(t)
    decreases Rank(s)
  {
    hide Inv, Next, Rank, Closing, Internal;
    if s.pc != Idle || exists i :: 0 <= i < |s.recs| && !Alone(s.recs[i]) {
      var a := NoDeadlock(s);
      var u := Next(s, a).value;
      NextKeepsInv(s, a);
      InternalStepsDescend(s, a);
      if Closing(s) {
        ClosingGoesOn(s, a);
      }
      var rest;
      t, rest := Settles(u);
      actions := [a] + rest;
      assert actions[1..] == rest;
    } else {
      t, actions := s, [];
      if Closing(s) {
        ClosedWhenIdle(s);
      }
    }
  }
}
