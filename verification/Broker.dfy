/**
 The execution broker's receipt protocol. Any number of workers and retried
 attempts serve effects over one store; they interleave at every await, and any
 of them may crash or see a store or executor call throw.
 */
module Broker {
  import opened Text
  import opened Receipts

  type Worker = nat

  /** What a call of `execute` ends with. */
  datatype Answer = Answered(result: EffectResult) | Uncertain

  /** Where a worker is between two awaits. */
  datatype Phase =
    | Looking                               // before `getEffect`
    | Claiming                              // saw no receipt
    | ReadingBack                           // lost the claim, before reading the winner's receipt
    | Running(next: nat, final: EffectResult) // owns the claim, before candidate `next`
    | Finishing(final: EffectResult)        // before writing the terminal receipt
    | Reporting                             // an executor or the store threw: before writing `uncertain`
    | Returned(answer: Answer)
    | Threw
    | Crashed

  datatype Call = Call(effect: string, candidates: nat, escalates: bool, phase: Phase)

  /** An executor's turn at an effect. */
  datatype Attempt = Skipped | Gave(result: EffectResult) | Raised

  /**
   The shared store and every call made so far. `claims` logs the effect of every
   claim that was won and `owner` its last winner; `executions` logs which
   candidate of which effect an executor served.
   */
  datatype System = System(
    store: map<string, Record>,
    calls: map<Worker, Call>,
    owner: map<string, Worker>,
    claims: seq<string>,
    executions: seq<(string, nat)>)

  datatype Action =
    | Arrive(worker: Worker, effect: string, candidates: nat, escalates: bool)
    | Look(worker: Worker)
    | Claim(worker: Worker, now: int)
    | ReadBack(worker: Worker)
    | Try(worker: Worker, attempt: Attempt)
    | Finish(worker: Worker, now: int, applied: bool, threw: bool)
    | Report(worker: Worker, now: int, applied: bool)
    | Crash(worker: Worker)

  const ESCALATION_REQUIRED := "ESCALATION_REQUIRED"
  const NO_EXECUTOR := EffectResult(false, "No executor can satisfy effect", "", "", 0)

  function PreviouslyFailed(r: Record): EffectResult {
    EffectResult(false, if r.error.Some? then r.error.value else "EFFECT_PREVIOUSLY_FAILED:" + r.id, "", "", 0)
  }

  /** How an existing receipt is answered; the broker writes a result with every terminal receipt. */
  function Replay(r: Record): Answer {
    match r.status
    case Committed => if r.result.Some? then Answered(r.result.value) else Uncertain
    case Failed => Answered(if r.result.Some? then r.result.value else PreviouslyFailed(r))
    case Started => Uncertain
  }

  function StartedRecord(effect: string, now: int, error: Option<string>): Record {
    Record(effect, "", Started, now, now, None, error)
  }

  function FinalRecord(effect: string, now: int, final: EffectResult): Record {
    Record(effect, "", if final.ok then Committed else Failed, now, now, Some(final),
           if final.ok then None else Some(final.error))
  }

  function PutIn(store: map<string, Record>, r: Record): map<string, Record> {
    if CanReplace(if r.id in store then Some(store[r.id]) else None, r) then store[r.id := r] else store
  }

  function At(s: System, w: Worker, phase: Phase): System
    requires w in s.calls
  {
    s.(calls := s.calls[w := s.calls[w].(phase := phase)])
  }

  /** After an executor answers: stop, or try the next candidate. */
  function AfterGave(c: Call, next: nat, result: EffectResult): Phase {
    if result.ok || result.error != ESCALATION_REQUIRED || !c.escalates then Finishing(result)
    else Running(next + 1, result)
  }

  /** `getEffect`. */
  function LookStep(s: System, w: Worker, c: Call): System
    requires w in s.calls
  {
    if c.phase != Looking then s
    else At(s, w, if c.effect in s.store then Returned(Replay(s.store[c.effect])) else Claiming)
  }

  /** `claimEffect`: insert unless the receipt exists. */
  function ClaimStep(s: System, w: Worker, c: Call, now: int): System
    requires w in s.calls
  {
    if c.phase != Claiming then s
    else if c.effect in s.store then At(s, w, ReadingBack)
    else
      At(s, w, Running(0, NO_EXECUTOR)).(
        store := s.store[c.effect := StartedRecord(c.effect, now, None)],
        owner := s.owner[c.effect := w],
        claims := s.claims + [c.effect])
  }

  /** A lost claim is answered from the winner's receipt, as it is when it is read. */
  function ReadBackStep(s: System, w: Worker, c: Call): System
    requires w in s.calls
  {
    if c.phase != ReadingBack then s
    else At(s, w, if c.effect in s.store then Returned(Replay(s.store[c.effect])) else Threw)
  }

  /** One turn of the candidate loop. */
  function TryStep(s: System, w: Worker, c: Call, attempt: Attempt): System
    requires w in s.calls
  {
    if !c.phase.Running? then s
    else if c.phase.next >= c.candidates then At(s, w, Finishing(c.phase.final))
    else if attempt.Skipped? then At(s, w, Running(c.phase.next + 1, c.phase.final))
    else
      At(s, w, if attempt.Raised? then Reporting else AfterGave(c, c.phase.next, attempt.result)).(
        executions := s.executions + [(c.effect, c.phase.next)])
  }

  /** The terminal `putEffect`: a store that throws may or may not have applied it. */
  function FinishStep(s: System, w: Worker, c: Call, now: int, applied: bool, threw: bool): System
    requires w in s.calls
  {
    if !c.phase.Finishing? then s
    else
      At(s, w, if threw then Reporting else Returned(Answered(c.phase.final))).(
        store := if applied || !threw then PutIn(s.store, FinalRecord(c.effect, now, c.phase.final)) else s.store)
  }

  /** The `uncertain` receipt written before the error is rethrown. */
  function ReportStep(s: System, w: Worker, c: Call, now: int, applied: bool): System
    requires w in s.calls
  {
    if !c.phase.Reporting? then s
    else
      At(s, w, Threw).(
        store := if applied then PutIn(s.store, StartedRecord(c.effect, now, Some("uncertain"))) else s.store)
  }

  function CrashStep(s: System, w: Worker, c: Call): System
    requires w in s.calls
  {
    if c.phase.Returned? || c.phase.Threw? then s else At(s, w, Crashed)
  }

  /** One step of one worker; an action that is not enabled changes nothing. */
  function Step(s: System, a: Action): System {
    if a.Arrive? then
      if a.worker in s.calls then s
      else s.(calls := s.calls[a.worker := Call(a.effect, a.candidates, a.escalates, Looking)])
    else if a.worker !in s.calls then s
    else
      var w, c := a.worker, s.calls[a.worker];
      match a
      case Look(_) => LookStep(s, w, c)
      case Claim(_, now) => ClaimStep(s, w, c, now)
      case ReadBack(_) => ReadBackStep(s, w, c)
      case Try(_, attempt) => TryStep(s, w, c, attempt)
      case Finish(_, now, applied, threw) => FinishStep(s, w, c, now, applied, threw)
      case Report(_, now, applied) => ReportStep(s, w, c, now, applied)
      case Crash(_) => CrashStep(s, w, c)
  }

  function Init(): System {
    System(map[], map[], map[], [], [])
  }

  function RunAll(s: System, actions: seq<Action>): System
    decreases actions
  {
    if actions == [] then s else RunAll(Step(s, actions[0]), actions[1..])
  }

  // ----- what every step keeps

  /** A terminal receipt holds its result, and is committed exactly when that result is a success. */
  predicate TerminalOk(r: Record) {
    !r.status.Started? ==> r.result.Some? && (r.status.Committed? <==> r.result.value.ok)
  }

  /** A receipt exists exactly for the claimed effects. */
  ghost predicate ReceiptsMatchClaims(s: System) {
    && Distinct(s.claims)
    && s.store.Keys == s.owner.Keys
    && (forall e :: e in s.claims <==> e in s.store)
    && (forall e :: e in s.store ==> s.store[e].id == e && TerminalOk(s.store[e]))
  }

  /**
   A worker past its claim owns it, and the effect stays `started` until the owner
   writes a terminal receipt; a worker that answered answered with what the
   receipt replays.
   */
  ghost predicate CallOk(s: System, c: Call, w: Worker)
    requires s.store.Keys == s.owner.Keys
  {
    match c.phase
    case Running(_, _) => c.effect in s.store && s.owner[c.effect] == w && s.store[c.effect].status == Started
    case Finishing(_) => c.effect in s.store && s.owner[c.effect] == w && s.store[c.effect].status == Started
    case Reporting => c.effect in s.store && s.owner[c.effect] == w
    case ReadingBack => c.effect in s.store
    case Returned(answer) =>
      answer.Answered? ==>
        c.effect in s.store && s.store[c.effect].status != Started && Replay(s.store[c.effect]) == answer
    case _ => true
  }

  ghost predicate CallsOk(s: System)
    ensures CallsOk(s) ==> s.store.Keys == s.owner.Keys
  {
    ReceiptsMatchClaims(s) && forall w :: w in s.calls ==> CallOk(s, s.calls[w], w)
  }

  /** A step that only moves its worker to a phase the store allows. */
  lemma PhaseInv(s: System, w: Worker, phase: Phase)
    requires CallsOk(s) && w in s.calls && CallOk(s, s.calls[w].(phase := phase), w)
    ensures CallsOk(At(s, w, phase))
  {
    var s' := At(s, w, phase);
    forall v | v in s'.calls ensures CallOk(s', s'.calls[v], v) {
      assert v != w ==> CallOk(s, s.calls[v], v);
    }
  }

  lemma ClaimInv(s: System, w: Worker, now: int)
    requires CallsOk(s) && w in s.calls && s.calls[w].phase == Claiming && s.calls[w].effect !in s.store
    ensures CallsOk(ClaimStep(s, w, s.calls[w], now))
  {
    var s', e := ClaimStep(s, w, s.calls[w], now), s.calls[w].effect;
    assert e !in s.claims;
    forall v | v in s'.calls ensures CallOk(s', s'.calls[v], v) {
      assert v != w ==> CallOk(s, s.calls[v], v);
    }
  }

  /** Writing the owner's receipt while the effect is `started`, or one the store refuses. */
  lemma PutInv(s: System, w: Worker, phase: Phase, r: Record)
    requires CallsOk(s) && w in s.calls && r.id == s.calls[w].effect && r.id in s.store && s.owner[r.id] == w
    requires s.store[r.id].status == Started || !CanReplace(Some(s.store[r.id]), r)
    requires !phase.Running? && !phase.Finishing? && TerminalOk(r)
    requires phase.Returned? && phase.answer.Answered? ==>
      s.store[r.id].status == Started && r.status != Started && Replay(r) == phase.answer
    ensures CallsOk(At(s, w, phase).(store := PutIn(s.store, r)))
  {
    var s' := At(s, w, phase).(store := PutIn(s.store, r));
    forall v | v in s'.calls ensures CallOk(s', s'.calls[v], v) {
      assert v != w ==> CallOk(s, s.calls[v], v);
    }
  }

  lemma StepCallsOk(s: System, a: Action)
    requires CallsOk(s)
    ensures CallsOk(Step(s, a))
  {
    if a.worker in s.calls && !a.Arrive? {
      var w, c := a.worker, s.calls[a.worker];
      assert CallOk(s, c, w);
      match a
      case Look(_) =>
        if c.phase == Looking {
          PhaseInv(s, w, if c.effect in s.store then Returned(Replay(s.store[c.effect])) else Claiming);
        }
      case Claim(_, now) =>
        if c.phase == Claiming {
          if c.effect in s.store { PhaseInv(s, w, ReadingBack); } else { ClaimInv(s, w, now); }
        }
      case ReadBack(_) =>
        if c.phase == ReadingBack { PhaseInv(s, w, Returned(Replay(s.store[c.effect]))); }
      case Try(_, attempt) => TryInv(s, w, attempt);
      case Finish(_, now, applied, threw) => FinishInv(s, w, now, applied, threw);
      case Report(_, now, applied) =>
        if c.phase == Reporting {
          PhaseInv(s, w, Threw);
          ReplaceNeverMovesDown(Some(s.store[c.effect]), StartedRecord(c.effect, now, Some("uncertain")));
          PutInv(s, w, Threw, StartedRecord(c.effect, now, Some("uncertain")));
        }
      case Crash(_) => PhaseInv(s, w, Crashed);
    } else if a.Arrive? && a.worker !in s.calls {
      var s' := Step(s, a);
      forall v | v in s'.calls ensures CallOk(s', s'.calls[v], v) {
        assert v != a.worker ==> CallOk(s, s.calls[v], v);
      }
    }
  }

  lemma TryInv(s: System, w: Worker, attempt: Attempt)
    requires CallsOk(s) && w in s.calls && CallOk(s, s.calls[w], w)
    ensures CallsOk(TryStep(s, w, s.calls[w], attempt))
  {
    var c := s.calls[w];
    if c.phase.Running? {
      var s' := TryStep(s, w, c, attempt);
      var phase := s'.calls[w].phase;
      PhaseInv(s, w, phase);
      var t := At(s, w, phase);
      assert s' == t.(executions := s'.executions);
      forall v | v in s'.calls ensures CallOk(s', s'.calls[v], v) {
        assert CallOk(t, t.calls[v], v);
      }
    }
  }

  lemma FinishInv(s: System, w: Worker, now: int, applied: bool, threw: bool)
    requires CallsOk(s) && w in s.calls && CallOk(s, s.calls[w], w)
    ensures CallsOk(FinishStep(s, w, s.calls[w], now, applied, threw))
  {
    var c := s.calls[w];
    if c.phase.Finishing? {
      if applied || !threw {
        PutInv(s, w, if threw then Reporting else Returned(Answered(c.phase.final)),
               FinalRecord(c.effect, now, c.phase.final));
      } else {
        PhaseInv(s, w, Reporting);
      }
    }
  }

  /** The worker holds the claim of its effect or has held it. */
  predicate PastClaim(phase: Phase) {
    !phase.Looking? && !phase.Claiming? && !phase.ReadingBack?
  }

  /** Every claimed effect's owner is a call on that effect, past its claim. */
  ghost predicate OwnersOk(s: System) {
    forall e :: e in s.owner ==>
      && s.owner[e] in s.calls && s.calls[s.owner[e]].effect == e && PastClaim(s.calls[s.owner[e]].phase)
  }

  ghost predicate Inv(s: System)
    ensures Inv(s) ==> s.store.Keys == s.owner.Keys
  {
    CallsOk(s) && OwnersOk(s)
  }

  lemma StepInv(s: System, a: Action)
    requires Inv(s)
    ensures Inv(Step(s, a))
  {
    StepCallsOk(s, a);
    StepOwnersOk(s, a);
  }

  /** A call keeps its effect and never returns to before its claim. */
  lemma CallMovesOn(s: System, a: Action, v: Worker)
    requires v in s.calls
    ensures var s' := Step(s, a);
      v in s'.calls && s'.calls[v].effect == s.calls[v].effect &&
      (PastClaim(s.calls[v].phase) ==> PastClaim(s'.calls[v].phase))
  {
  }

  /** The only new owner is a worker that has just won its claim. */
  lemma NewOwner(s: System, a: Action)
    ensures var s' := Step(s, a);
      || s'.owner == s.owner
      || (&& a.worker in s.calls && a.worker in s'.calls && s'.calls[a.worker].phase.Running?
          && s.calls[a.worker].effect !in s.store
          && s'.owner == s.owner[s.calls[a.worker].effect := a.worker])
  {
  }

  lemma StepOwnersOk(s: System, a: Action)
    requires OwnersOk(s)
    ensures OwnersOk(Step(s, a))
  {
    var s' := Step(s, a);
    NewOwner(s, a);
    forall e | e in s'.owner
      ensures s'.owner[e] in s'.calls && s'.calls[s'.owner[e]].effect == e && PastClaim(s'.calls[s'.owner[e]].phase)
    {
      CallMovesOn(s, a, s'.owner[e]);
    }
  }

  lemma {:induction false} RunInv(s: System, actions: seq<Action>)
    requires Inv(s)
    ensures Inv(RunAll(s, actions))
    decreases actions
  {
    if actions != [] {
      StepInv(s, actions[0]);
      RunInv(Step(s, actions[0]), actions[1..]);
    }
  }

  // ----- executors

  /** Candidates are served in order: what has been served lies before the owner's next one. */
  ghost predicate ServedInOrder(s: System) {
    && (forall i, j :: 0 <= i < j < |s.executions| && s.executions[i].0 == s.executions[j].0 ==>
          s.executions[i].1 < s.executions[j].1)
    && (forall i :: 0 <= i < |s.executions| ==> s.executions[i].0 in s.store)
  }

  ghost predicate ServedBefore(s: System) {
    forall i, w :: 0 <= i < |s.executions| && w in s.calls && s.calls[w].phase.Running? ==>
      s.executions[i].0 == s.calls[w].effect ==> s.executions[i].1 < s.calls[w].phase.next
  }

  /** Receipts are never removed, and their owner never changes. */
  lemma StoreGrows(s: System, a: Action)
    requires Inv(s)
    ensures s.store.Keys <= Step(s, a).store.Keys
    ensures forall e :: e in s.owner ==> e in Step(s, a).owner && Step(s, a).owner[e] == s.owner[e]
  {
    StepInv(s, a);
    NewOwner(s, a);
  }

  /** Only a turn of the loop serves anything; a worker that starts one has just won a new claim. */
  lemma OthersServeNothing(s: System, a: Action)
    requires !a.Try?
    ensures var s' := Step(s, a);
      && s'.executions == s.executions
      && (forall w :: w in s'.calls && s'.calls[w].phase.Running? ==>
            w in s.calls && (s'.calls[w] == s.calls[w] || s'.calls[w].effect !in s.store))
  {
  }

  lemma StepServed(s: System, a: Action)
    requires Inv(s) && ServedInOrder(s) && ServedBefore(s)
    ensures ServedInOrder(Step(s, a)) && ServedBefore(Step(s, a))
  {
    StoreGrows(s, a);
    if !a.Try? {
      OthersServeNothing(s, a);
    } else if a.worker in s.calls {
      assert CallOk(s, s.calls[a.worker], a.worker);
      TryServed(s, a.worker, a.attempt);
    }
  }

  lemma TryServed(s: System, w: Worker, attempt: Attempt)
    requires Inv(s) && ServedInOrder(s) && ServedBefore(s) && w in s.calls && CallOk(s, s.calls[w], w)
    ensures ServedInOrder(TryStep(s, w, s.calls[w], attempt)) && ServedBefore(TryStep(s, w, s.calls[w], attempt))
  {
    var s' := TryStep(s, w, s.calls[w], attempt);
    if s'.executions != s.executions {
      var served := (s.calls[w].effect, s.calls[w].phase.next);
      assert s'.executions == s.executions + [served];
      forall v | v in s'.calls && v != w && s'.calls[v].phase.Running? ensures s'.calls[v].effect != served.0 {
        assert CallOk(s, s.calls[v], v);
      }
    }
  }

  lemma {:induction false} RunServed(s: System, actions: seq<Action>)
    requires Inv(s) && ServedInOrder(s) && ServedBefore(s)
    ensures ServedInOrder(RunAll(s, actions))
    decreases actions
  {
    if actions != [] {
      StepInv(s, actions[0]);
      StepServed(s, actions[0]);
      RunServed(Step(s, actions[0]), actions[1..]);
    }
  }

  /**
   Effect safety over every interleaving, with crashes and throwing stores and
   executors anywhere: no effect is ever claimed twice, and only the worker that
   won the claim works on it; no candidate of an effect is served twice; all
   answers other than `EFFECT_OUTCOME_UNCERTAIN` for one effect are equal; and the
   receipt of an answered effect is committed for a success and failed otherwise.
   */
  lemma EffectSafety(actions: seq<Action>)
    ensures var s := RunAll(Init(), actions);
      && Distinct(s.claims)
      && (forall w :: w in s.calls && Owns(s.calls[w].phase) ==>
            s.calls[w].effect in s.owner && s.owner[s.calls[w].effect] == w)
      && Distinct(s.executions)
      && (forall v, w :: v in s.calls && w in s.calls && s.calls[v].effect == s.calls[w].effect ==>
            SameAnswer(s.calls[v].phase, s.calls[w].phase))
      && (forall w :: w in s.calls && HasAnswer(s.calls[w].phase) ==>
            && s.calls[w].effect in s.store
            && s.store[s.calls[w].effect].status == if s.calls[w].phase.answer.result.ok then Committed else Failed)
  {
    RunInv(Init(), actions);
    RunServed(Init(), actions);
    var s := RunAll(Init(), actions);
    AnswersAgree(s);
    forall w | w in s.calls && Owns(s.calls[w].phase)
      ensures s.calls[w].effect in s.owner && s.owner[s.calls[w].effect] == w
    {
      assert CallOk(s, s.calls[w], w);
    }
  }

  lemma AnswersAgree(s: System)
    requires Inv(s)
    ensures forall v, w :: v in s.calls && w in s.calls && s.calls[v].effect == s.calls[w].effect ==>
      SameAnswer(s.calls[v].phase, s.calls[w].phase)
    ensures forall w :: w in s.calls && HasAnswer(s.calls[w].phase) ==>
      && s.calls[w].effect in s.store
      && s.store[s.calls[w].effect].status == if s.calls[w].phase.answer.result.ok then Committed else Failed
  {
    forall w | w in s.calls && HasAnswer(s.calls[w].phase)
      ensures s.calls[w].effect in s.store && Replay(s.store[s.calls[w].effect]) == s.calls[w].phase.answer
      ensures s.store[s.calls[w].effect].status == if s.calls[w].phase.answer.result.ok then Committed else Failed
    {
      assert CallOk(s, s.calls[w], w);
      assert TerminalOk(s.store[s.calls[w].effect]);
    }
  }

  /** The worker holds a claim it has not finished with. */
  predicate Owns(phase: Phase) {
    phase.Running? || phase.Finishing? || phase.Reporting?
  }

  /** The call returned an answer other than `EFFECT_OUTCOME_UNCERTAIN`. */
  predicate HasAnswer(phase: Phase) {
    phase.Returned? && phase.answer.Answered?
  }

  /** Two calls of one effect that both got an answer got the same one. */
  predicate SameAnswer(p: Phase, q: Phase) {
    p.Returned? && q.Returned? && p.answer.Answered? && q.answer.Answered? ==> p.answer == q.answer
  }

  /**
   A claimed effect stays claimed by the same worker, whatever happens after; and
   once that worker has left the candidate loop, by an answer, a throw or a crash,
   no executor is ever given the effect again.
   */
  lemma {:induction false} ClaimIsForever(s: System, actions: seq<Action>, e: string)
    requires Inv(s) && e in s.owner
    ensures var s' := RunAll(s, actions);
      && e in s'.owner && s'.owner[e] == s.owner[e]
      && s.executions <= s'.executions
      && (!s.calls[s.owner[e]].phase.Running? ==> NoneAdded(s.executions, s'.executions, e))
    decreases actions
  {
    if actions != [] {
      StepInv(s, actions[0]);
      StoreGrows(s, actions[0]);
      StepExecutes(s, actions[0], e);
      ClaimIsForever(Step(s, actions[0]), actions[1..], e);
    }
  }

  /** Nothing served after `before` was for the effect. */
  ghost predicate NoneAdded(before: seq<(string, nat)>, after: seq<(string, nat)>, e: string) {
    forall i :: |before| <= i < |after| ==> after[i].0 != e
  }

  /** Only the owner serves an effect, and one that has left the loop does not come back to it. */
  lemma StepExecutes(s: System, a: Action, e: string)
    requires Inv(s) && e in s.owner
    ensures s.executions <= Step(s, a).executions
    ensures !s.calls[s.owner[e]].phase.Running? ==>
      && NoneAdded(s.executions, Step(s, a).executions, e)
      && s.owner[e] in Step(s, a).calls && !Step(s, a).calls[s.owner[e]].phase.Running?
  {
    if a.worker in s.calls {
      assert CallOk(s, s.calls[a.worker], a.worker);
    }
  }

  /**
   From the start of the system: whatever interleaving led to a crash or a throw
   of the worker that had claimed an effect, no interleaving after it runs that
   effect again.
   */
  lemma NeverRunAgain(before: seq<Action>, after: seq<Action>, e: string)
    requires var s := RunAll(Init(), before);
      e in s.owner && s.owner[e] in s.calls &&
      (s.calls[s.owner[e]].phase.Crashed? || s.calls[s.owner[e]].phase.Threw?)
    ensures var s := RunAll(Init(), before);
      var s' := RunAll(s, after);
      s.executions <= s'.executions && NoneAdded(s.executions, s'.executions, e)
  {
    RunInv(Init(), before);
    ClaimIsForever(RunAll(Init(), before), after, e);
  }

  // ----- the candidate loop

  /** The loop goes on to the next candidate. */
  predicate Passes(attempt: Attempt, escalates: bool) {
    || attempt.Skipped?
    || (attempt.Gave? && !attempt.result.ok && attempt.result.error == ESCALATION_REQUIRED && escalates)
  }

  /** The last result before `n`, or the refusal the loop starts from. */
  function LastGiven(attempts: seq<Attempt>, n: nat): EffectResult
    requires n <= |attempts|
  {
    if n == 0 then NO_EXECUTOR
    else if attempts[n - 1].Gave? then attempts[n - 1].result
    else LastGiven(attempts, n - 1)
  }

  /** The loop passes every candidate before `n`. */
  ghost predicate PassesUpTo(attempts: seq<Attempt>, escalates: bool, n: nat)
    requires n <= |attempts|
  {
    forall j :: 0 <= j < n ==> Passes(attempts[j], escalates)
  }

  /** The candidate is the first the loop does not pass. */
  ghost predicate DecisiveAt(attempts: seq<Attempt>, escalates: bool, i: nat)
    requires i < |attempts|
  {
    PassesUpTo(attempts, escalates, i) && !Passes(attempts[i], escalates)
  }

  /** The first decisive candidate settles the effect; without one, the last escalation does. */
  ghost predicate Settles(attempts: seq<Attempt>, escalates: bool, r: Option<EffectResult>) {
    || (exists i :: 0 <= i < |attempts| && DecisiveAt(attempts, escalates, i) &&
          r == if attempts[i].Raised? then None else Some(attempts[i].result))
    || (PassesUpTo(attempts, escalates, |attempts|) && r == Some(LastGiven(attempts, |attempts|)))
  }

  /** The candidate loop of `#execute`; none when an executor throws. */
  method ServeCandidates(attempts: seq<Attempt>, escalates: bool) returns (r: Option<EffectResult>)
    ensures Settles(attempts, escalates, r)
  {
    var final := NO_EXECUTOR;
    for i := 0 to |attempts|
      invariant PassesUpTo(attempts, escalates, i)
      invariant final == LastGiven(attempts, i)
    {
      match attempts[i]
      case Skipped =>
      case Raised =>
        assert DecisiveAt(attempts, escalates, i);
        return None;
      case Gave(result) =>
        final := result;
        assert Passes(attempts[i], escalates) || DecisiveAt(attempts, escalates, i);
        if result.ok { return Some(final); }
        if result.error != ESCALATION_REQUIRED { return Some(final); }
        if !escalates { return Some(final); }
    }
    return Some(final);
  }

  /** The turns `k..` of one worker's loop, and the one that leaves it. */
  function Turns(w: Worker, attempts: seq<Attempt>, k: nat): seq<Action>
    requires k <= |attempts|
    decreases |attempts| - k
  {
    if k == |attempts| then [Try(w, Skipped)] else [Try(w, attempts[k])] + Turns(w, attempts, k + 1)
  }

  lemma {:induction false} LeftTheLoop(s: System, w: Worker, attempts: seq<Attempt>, k: nat)
    requires k <= |attempts| && w in s.calls && !s.calls[w].phase.Running?
    ensures RunAll(s, Turns(w, attempts, k)) == s
    decreases |attempts| - k
  {
    var turns := Turns(w, attempts, k);
    assert Step(s, turns[0]) == s;
    if k == |attempts| {
      assert RunAll(s, turns[1..]) == s;
    } else {
      assert turns[1..] == Turns(w, attempts, k + 1);
      LeftTheLoop(s, w, attempts, k + 1);
    }
  }

  /** A worker's turns in the protocol settle its effect as the loop does. */
  lemma {:induction false} TurnsSettle(s: System, w: Worker, attempts: seq<Attempt>, k: nat)
    requires k <= |attempts| && w in s.calls && s.calls[w].candidates == |attempts|
    requires s.calls[w].phase == Running(k, LastGiven(attempts, k))
    requires PassesUpTo(attempts, s.calls[w].escalates, k)
    ensures var s' := RunAll(s, Turns(w, attempts, k));
      && w in s'.calls
      && (s'.calls[w].phase == Reporting || s'.calls[w].phase.Finishing?)
      && Settles(attempts, s.calls[w].escalates,
                 if s'.calls[w].phase == Reporting then None else Some(s'.calls[w].phase.final))
    decreases |attempts| - k
  {
    var turns := Turns(w, attempts, k);
    var next := Step(s, turns[0]);
    if k == |attempts| {
      assert RunAll(next, turns[1..]) == next;
    } else {
      assert turns[1..] == Turns(w, attempts, k + 1);
      if Passes(attempts[k], s.calls[w].escalates) {
        TurnsSettle(next, w, attempts, k + 1);
      } else {
        LeftTheLoop(next, w, attempts, k + 1);
        assert DecisiveAt(attempts, s.calls[w].escalates, k);
      }
    }
  }

  /** The receipt written after the loop. */
  function Settlement(effect: string, now: int, r: Option<EffectResult>): Record {
    if r.Some? then FinalRecord(effect, now, r.value) else StartedRecord(effect, now, Some("uncertain"))
  }

  lemma SettlementReplays(rs: seq<Record>, effect: string, now: int, r: Option<EffectResult>)
    requires Find(rs, effect).Some? && Find(rs, effect).value.status == Started
    ensures var after := Serve(rs, Write(Settlement(effect, now, r)));
      && Find(after, effect).Some?
      && Replay(Find(after, effect).value) == (if r.Some? then Answered(r.value) else Uncertain)
      && Find(after, effect).value.status ==
           if r.None? then Started else if r.value.ok then Committed else Failed
  {
    SetFind(rs, Settlement(effect, now, r), effect);
  }

  /**
   One uninterrupted `#execute` over the activity store; none when it throws. An
   effect with a receipt is answered from it and nothing runs; any other is
   settled by its candidates, and its receipt then replays the answer given.
   */
  method ExecuteEffect(store: ActivityStore, effect: string, attempts: seq<Attempt>, escalates: bool, now: int)
      returns (answer: Option<Answer>, ghost settled: Option<EffectResult>)
    requires store.Persisted()
    modifies store
    ensures store.Persisted()
    ensures Find(old(store.effects), effect).Some? ==>
      answer == Some(Replay(Find(old(store.effects), effect).value)) && store.effects == old(store.effects)
    ensures Find(old(store.effects), effect).None? ==>
      && Settles(attempts, escalates, settled)
      && Find(store.effects, effect).Some?
      && answer == (if settled.Some? then Some(Answered(settled.value)) else None)
      && Replay(Find(store.effects, effect).value) == (if settled.Some? then Answered(settled.value) else Uncertain)
      && Find(store.effects, effect).value.status ==
           if settled.None? then Started else if settled.value.ok then Committed else Failed
  {
    settled := None;
    var existing := store.GetEffect(effect);
    if existing.Some? {
      FindUnique(store.effects, existing.value);
      answer := Some(Replay(existing.value));
      return;
    }
    var started := StartedRecord(effect, now, None);
    var claimed, record := store.ClaimEffect(started);
    SetNew(old(store.effects), started);
    SetFind(old(store.effects), started, effect);
    var r := ServeCandidates(attempts, escalates);
    settled := r;
    var final := Settlement(effect, now, r);
    SettlementReplays(store.effects, effect, now, r);
    store.PutEffect(final);
    answer := if r.Some? then Some(Answered(r.value)) else None;
  }

  // ----- candidate order

  datatype Executor = Executor(id: string, fidelity: int, resourceClass: Option<string>)

  datatype Policy = Policy(
    floor: int, allowed: Option<set<string>>, preferred: Option<string>, escalates: bool)

  /** The class an executor names, if any; an empty one counts as none. */
  predicate HasClass(e: Executor) {
    e.resourceClass.Some? && e.resourceClass.value != ""
  }

  predicate Eligible(e: Executor, policy: Policy) {
    e.fidelity >= policy.floor &&
    (policy.allowed.None? || !HasClass(e) || e.resourceClass.value in policy.allowed.value)
  }

  predicate Preferred(e: Executor, policy: Policy) {
    policy.preferred.Some? && policy.preferred.value != "" && e.resourceClass == policy.preferred
  }

  /** Preferred class first, then cheapest fidelity. */
  predicate Before(a: Executor, b: Executor, policy: Policy) {
    var ap := if Preferred(a, policy) then 0 else 1;
    var bp := if Preferred(b, policy) then 0 else 1;
    ap < bp || (ap == bp && a.fidelity <= b.fidelity)
  }

  function Insert(e: Executor, sorted: seq<Executor>, policy: Policy): seq<Executor> {
    if sorted == [] || Before(e, sorted[0], policy) then [e] + sorted
    else [sorted[0]] + Insert(e, sorted[1..], policy)
  }

  /** The eligible executors in the order the loop tries them; equals keep their registration order. */
  function Candidates(executors: seq<Executor>, policy: Policy): seq<Executor> {
    if executors == [] then []
    else
      var rest := Candidates(executors[1..], policy);
      if Eligible(executors[0], policy) then Insert(executors[0], rest, policy) else rest
  }

  ghost predicate Ordered(es: seq<Executor>, policy: Policy) {
    forall i, j :: 0 <= i < j < |es| ==> Before(es[i], es[j], policy)
  }

  /** The executors of a list with the given preference and fidelity, in order. */
  function Peers(es: seq<Executor>, policy: Policy, preferred: bool, fidelity: int): seq<Executor> {
    if es == [] then []
    else
      var same := Preferred(es[0], policy) == preferred && es[0].fidelity == fidelity;
      (if same then [es[0]] else []) + Peers(es[1..], policy, preferred, fidelity)
  }

  /** How often an executor is in a list. */
  function Times(es: seq<Executor>, e: Executor): nat {
    if es == [] then 0 else (if es[0] == e then 1 else 0) + Times(es[1..], e)
  }

  lemma {:induction false} InsertTimes(x: Executor, sorted: seq<Executor>, policy: Policy, e: Executor)
    ensures Times(Insert(x, sorted, policy), e) == Times(sorted, e) + if x == e then 1 else 0
  {
    if sorted != [] && !Before(x, sorted[0], policy) {
      InsertTimes(x, sorted[1..], policy, e);
      assert Insert(x, sorted, policy)[1..] == Insert(x, sorted[1..], policy);
    } else {
      assert Insert(x, sorted, policy)[1..] == sorted;
    }
  }

  lemma {:induction false} TimesMember(es: seq<Executor>, e: Executor)
    ensures Times(es, e) > 0 <==> e in es
  {
    if es != [] { TimesMember(es[1..], e); }
  }

  lemma {:induction false} InsertOrdered(e: Executor, sorted: seq<Executor>, policy: Policy)
    requires Ordered(sorted, policy)
    ensures Ordered(Insert(e, sorted, policy), policy)
  {
    if sorted != [] && !Before(e, sorted[0], policy) {
      var tail := Insert(e, sorted[1..], policy);
      InsertOrdered(e, sorted[1..], policy);
      forall x | x in tail ensures Before(sorted[0], x, policy) {
        InsertTimes(e, sorted[1..], policy, x);
        TimesMember(tail, x);
        TimesMember(sorted[1..], x);
      }
    }
  }

  lemma {:induction false} InsertPeers(
      e: Executor, sorted: seq<Executor>, policy: Policy, preferred: bool, fidelity: int)
    ensures Peers(Insert(e, sorted, policy), policy, preferred, fidelity)
         == Peers([e] + sorted, policy, preferred, fidelity)
  {
    assert ([e] + sorted)[1..] == sorted;
    if sorted != [] && !Before(e, sorted[0], policy) {
      InsertPeers(e, sorted[1..], policy, preferred, fidelity);
      var tail := Insert(e, sorted[1..], policy);
      assert ([e] + sorted[1..])[1..] == sorted[1..];
      assert ([sorted[0]] + tail)[1..] == tail;
    }
  }

  function EligibleOnly(executors: seq<Executor>, policy: Policy): seq<Executor> {
    if executors == [] then []
    else if Eligible(executors[0], policy) then [executors[0]] + EligibleOnly(executors[1..], policy)
    else EligibleOnly(executors[1..], policy)
  }

  lemma {:induction false} CandidatesSorted(executors: seq<Executor>, policy: Policy)
    ensures Ordered(Candidates(executors, policy), policy)
  {
    if executors != [] {
      CandidatesSorted(executors[1..], policy);
      InsertOrdered(executors[0], Candidates(executors[1..], policy), policy);
    }
  }

  /** Every eligible executor is a candidate as often as it was registered, and no other is one. */
  lemma {:induction false} CandidateTimes(executors: seq<Executor>, policy: Policy, e: Executor)
    ensures Times(Candidates(executors, policy), e) == if Eligible(e, policy) then Times(executors, e) else 0
  {
    if executors != [] {
      CandidateTimes(executors[1..], policy, e);
      InsertTimes(executors[0], Candidates(executors[1..], policy), policy, e);
    }
  }

  /** Executors of the same preference and fidelity are tried in registration order. */
  lemma {:induction false} CandidatesStable(
      executors: seq<Executor>, policy: Policy, preferred: bool, fidelity: int)
    ensures Peers(Candidates(executors, policy), policy, preferred, fidelity)
         == Peers(EligibleOnly(executors, policy), policy, preferred, fidelity)
  {
    if executors != [] {
      CandidatesStable(executors[1..], policy, preferred, fidelity);
      if Eligible(executors[0], policy) {
        var rest, es := Candidates(executors[1..], policy), EligibleOnly(executors[1..], policy);
        InsertPeers(executors[0], rest, policy, preferred, fidelity);
        assert ([executors[0]] + es)[1..] == es && ([executors[0]] + rest)[1..] == rest;
      }
    }
  }

  /**
   The candidates are the executors at or above the fidelity floor whose class, if
   they name one, is allowed; those of the preferred class come first, and within
   the rest and within the preferred ones the fidelity never falls.
   */
  lemma CandidateOrder(executors: seq<Executor>, policy: Policy)
    ensures forall e :: e in Candidates(executors, policy) <==>
      && e in executors && e.fidelity >= policy.floor
      && (policy.allowed.Some? && e.resourceClass.Some? && e.resourceClass.value != "" ==>
            e.resourceClass.value in policy.allowed.value)
    ensures var cs := Candidates(executors, policy);
      forall i, j :: 0 <= i < j < |cs| ==>
        && (Preferred(cs[j], policy) ==> Preferred(cs[i], policy))
        && (Preferred(cs[i], policy) == Preferred(cs[j], policy) ==> cs[i].fidelity <= cs[j].fidelity)
  {
    CandidatesSorted(executors, policy);
    var cs := Candidates(executors, policy);
    forall e ensures e in cs <==> e in executors && Eligible(e, policy) {
      CandidateTimes(executors, policy, e);
      TimesMember(cs, e);
      TimesMember(executors, e);
    }
    forall i, j | 0 <= i < j < |cs| ensures Before(cs[i], cs[j], policy) {
    }
  }
}
