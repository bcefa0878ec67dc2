/**
 The durable agent loop. The workflow owns the mailbox; signals arrive while it
 waits, while a turn is in flight and while it is parked, and a turn may commit,
 defer, complete or fail.
 */
module AgentLoop {
  import opened Text
  import opened ParkBackoff

  type Message = string

  datatype Status = Idle | Running | Waiting | Completed | Failed | Cancelled

  /** The await the workflow is suspended at. */
  datatype Phase =
    | AtWait
    | InTurn(batch: seq<Message>)
    | Parked(ms: real)
    | Over

  /** A turn that was started: the uncommitted position it started at, and how it ended. */
  datatype Ending = Pending | Committed | WasParked | Final
  datatype Turn = Turn(offset: nat, batch: seq<Message>, ending: Ending)

  datatype State = State(
    mailbox: seq<Message>, wake: bool, cancelled: bool, attempt: nat, status: Status, phase: Phase,
    override: Option<Override>)

  /** What has happened so far. */
  datatype History = History(initial: seq<Message>, signals: seq<Message>, committed: seq<Message>, turns: seq<Turn>)

  datatype World = World(state: State, past: History)

  datatype Event =
    | SendMessage(message: Message)
    | CancelAgent
    | Wake                                   // the wait's condition holds
    | TurnReturned(returned: Status)         // idle, waiting or completed
    | TurnFailed(permanent: bool, hint: Option<real>)
    | TimerFired

  /** The loop guard, and the wait behind it or the code after the loop. */
  function LoopHead(s: State): State {
    if s.cancelled then s.(phase := Over, status := Cancelled)
    else if s.status.Completed? || s.status.Failed? then s.(phase := Over)
    else s.(phase := AtWait)
  }

  function Start(mailbox: seq<Message>, status: Status, override: Option<Override>): World {
    World(LoopHead(State(mailbox, mailbox != [], false, 0, status, AtWait, override)), History(mailbox, [], [], []))
  }

  /** Park for `ms`, unless a cancel is already there. */
  function Park(s: State, ms: real): State {
    if s.cancelled then s.(phase := Over, status := Cancelled) else s.(phase := Parked(ms))
  }

  function Backoff(s: State): State {
    Park(s.(attempt := s.attempt + 1, status := Waiting), NextBackoff(s.attempt + 1, s.override))
  }

  /** The last turn's ending is now known. */
  function EndTurn(past: History, ending: Ending): History {
    if past.turns == [] then past
    else past.(turns := past.turns[|past.turns| - 1 := past.turns[|past.turns| - 1].(ending := ending)])
  }

  /** What a signal handler does, wherever the workflow is suspended. */
  function OnSignal(w: World, e: Event): World
    requires e.SendMessage? || e.CancelAgent?
  {
    var s := w.state;
    if s.phase.Over? then w
    else if e.SendMessage? then
      World(s.(mailbox := s.mailbox + [e.message], wake := true), w.past.(signals := w.past.signals + [e.message]))
    else
      World(s.(cancelled := true, wake := true), w.past)
  }

  /** The wait resolves: a cancel ends the loop, an empty mailbox waits again, anything else starts a turn. */
  function OnWake(w: World): World {
    var s := w.state;
    if !s.phase.AtWait? || !(s.wake || s.cancelled || s.mailbox != []) then w
    else if s.cancelled then World(s.(phase := Over, status := Cancelled), w.past)
    else if s.mailbox == [] then World(LoopHead(s.(wake := false)), w.past)
    else
      World(s.(wake := false, status := Running, phase := InTurn(s.mailbox)),
            w.past.(turns := w.past.turns + [Turn(|w.past.committed|, s.mailbox, Pending)]))
  }

  function OnReturn(w: World, returned: Status): World {
    var s := w.state;
    if !s.phase.InTurn? then w
    else
      match returned
      case Waiting => World(Backoff(s), EndTurn(w.past, WasParked))
      case Completed => World(LoopHead(s.(status := Completed, attempt := 0)), EndTurn(w.past, Final))
      case _ =>
        var n := if |s.phase.batch| <= |s.mailbox| then |s.phase.batch| else |s.mailbox|;
        World(LoopHead(s.(status := Idle, attempt := 0, mailbox := s.mailbox[n..])),
              EndTurn(w.past.(committed := w.past.committed + s.mailbox[..n]), Committed))
  }

  function OnFailure(w: World, permanent: bool, hint: Option<real>): World {
    var s := w.state;
    if !s.phase.InTurn? then w
    else if permanent then
      World(s.(phase := Over, status := if s.cancelled then Cancelled else Failed), EndTurn(w.past, Final))
    else if ClampHint(hint).Some? then
      World(Park(s.(status := Waiting), ClampHint(hint).value), EndTurn(w.past, WasParked))
    else World(Backoff(s), EndTurn(w.past, WasParked))
  }

  /** A park ends with its timer, or at once when a cancel arrives. */
  function OnTimer(w: World): World {
    var s := w.state;
    if !s.phase.Parked? then w else World(LoopHead(s), w.past)
  }

  function Step(w: World, e: Event): World {
    match e
    case SendMessage(_) => OnSignal(w, e)
    case CancelAgent => OnSignal(w, e)
    case Wake => OnWake(w)
    case TurnReturned(returned) => OnReturn(w, returned)
    case TurnFailed(permanent, hint) => OnFailure(w, permanent, hint)
    case TimerFired => OnTimer(w)
  }

  function RunAll(w: World, events: seq<Event>): World
    decreases events
  {
    if events == [] then w else RunAll(Step(w, events[0]), events[1..])
  }

  // ----- what every step keeps

  function Arrived(p: History): seq<Message> {
    p.initial + p.signals
  }

  /** Committed messages and the mailbox are the arrivals, in order: none lost, none twice. */
  ghost predicate Conserved(p: History, mailbox: seq<Message>) {
    p.committed + mailbox == Arrived(p)
  }

  /** The turn in flight is the last one started, and holds the front of the mailbox. */
  ghost predicate InFlight(p: History, phase: Phase, mailbox: seq<Message>) {
    phase.InTurn? ==>
      && p.turns != [] && p.turns[|p.turns| - 1] == Turn(|p.committed|, phase.batch, Pending)
      && phase.batch != [] && phase.batch <= mailbox
  }

  /** Only the last turn can be pending or final; it is pending exactly while it is in flight. */
  ghost predicate EndingsOk(turns: seq<Turn>, phase: Phase) {
    forall k :: 0 <= k < |turns| ==>
      && (turns[k].ending == Pending ==> k == |turns| - 1 && phase.InTurn?)
      && (turns[k].ending == Final ==> k == |turns| - 1 && phase.Over?)
  }

  /** A turn was given the messages from its offset on. */
  predicate Given(t: Turn, arrived: seq<Message>) {
    t.batch != [] && t.offset + |t.batch| <= |arrived| && t.batch == arrived[t.offset..t.offset + |t.batch|]
  }

  ghost predicate BatchesOk(p: History) {
    forall k :: 0 <= k < |p.turns| ==> Given(p.turns[k], Arrived(p))
  }

  /** A parked turn's batch is given again, possibly with more after it. */
  predicate GivenAgain(t: Turn, offset: nat, batch: seq<Message>) {
    t.ending == WasParked ==> t.offset == offset && t.batch <= batch
  }

  ghost predicate ParkedAgain(p: History, mailbox: seq<Message>) {
    && (forall k :: 0 <= k < |p.turns| - 1 ==>
          GivenAgain(p.turns[k], p.turns[k + 1].offset, p.turns[k + 1].batch))
    && (p.turns != [] ==> GivenAgain(p.turns[|p.turns| - 1], |p.committed|, mailbox))
  }

  function Parks(turns: seq<Turn>): nat {
    if turns == [] then 0
    else Parks(turns[..|turns| - 1]) + if turns[|turns| - 1].ending == WasParked then 1 else 0
  }

  function Open(turns: seq<Turn>): nat {
    if turns != [] && (turns[|turns| - 1].ending == Pending || turns[|turns| - 1].ending == Final) then 1 else 0
  }

  /** Turns that neither parked nor are the last one each committed at least one message. */
  ghost predicate Progress(p: History) {
    |p.turns| <= |p.committed| + Parks(p.turns) + Open(p.turns)
  }

  ghost predicate ParkBounded(phase: Phase, override: Option<Override>) {
    phase.Parked? ==> WaitOk(phase.ms, override)
  }

  predicate WaitOk(ms: real, override: Option<Override>) {
    0.0 < ms && (ms <= CapMs(override) || ms <= MAX_PARK_HINT_MS)
  }

  ghost predicate Inv(w: World) {
    var p, s := w.past, w.state;
    && Conserved(p, s.mailbox) && InFlight(p, s.phase, s.mailbox) && EndingsOk(p.turns, s.phase)
    && BatchesOk(p) && ParkedAgain(p, s.mailbox) && Progress(p) && ParkBounded(s.phase, s.override)
  }

  lemma StartInv(mailbox: seq<Message>, status: Status, override: Option<Override>)
    ensures Inv(Start(mailbox, status, override))
  {
  }

  lemma MessageInv(p: History, mailbox: seq<Message>, m: Message)
    requires Conserved(p, mailbox) && BatchesOk(p) && ParkedAgain(p, mailbox) && Progress(p)
    ensures var q := p.(signals := p.signals + [m]);
      Conserved(q, mailbox + [m]) && BatchesOk(q) && ParkedAgain(q, mailbox + [m]) && Progress(q)
  {
    var q := p.(signals := p.signals + [m]);
    assert Arrived(q) == Arrived(p) + [m];
    assert p.committed + (mailbox + [m]) == (p.committed + mailbox) + [m];
    forall k | 0 <= k < |q.turns| ensures Given(q.turns[k], Arrived(q)) {
      assert Given(p.turns[k], Arrived(p));
    }
  }

  lemma SignalInv(w: World, e: Event)
    requires Inv(w) && (e.SendMessage? || e.CancelAgent?)
    ensures Inv(OnSignal(w, e))
  {
    if e.SendMessage? && !w.state.phase.Over? {
      MessageInv(w.past, w.state.mailbox, e.message);
    }
  }

  /** A turn is started on the whole mailbox. */
  lemma StartTurn(p: History, mailbox: seq<Message>)
    requires Conserved(p, mailbox) && BatchesOk(p) && ParkedAgain(p, mailbox) && Progress(p) && mailbox != []
    requires forall k :: 0 <= k < |p.turns| ==> p.turns[k].ending != Pending && p.turns[k].ending != Final
    ensures var q := p.(turns := p.turns + [Turn(|p.committed|, mailbox, Pending)]);
      && Conserved(q, mailbox) && InFlight(q, InTurn(mailbox), mailbox) && EndingsOk(q.turns, InTurn(mailbox))
      && BatchesOk(q) && ParkedAgain(q, mailbox) && Progress(q)
  {
    var t := Turn(|p.committed|, mailbox, Pending);
    var q := p.(turns := p.turns + [t]);
    assert q.turns[..|q.turns| - 1] == p.turns;
    assert Given(t, Arrived(p));
    forall k | 0 <= k < |q.turns| ensures Given(q.turns[k], Arrived(q)) {
      assert k < |p.turns| ==> Given(p.turns[k], Arrived(p));
    }
    forall k | 0 <= k < |q.turns| - 1 ensures GivenAgain(q.turns[k], q.turns[k + 1].offset, q.turns[k + 1].batch) {
      if k < |p.turns| - 1 {
        assert GivenAgain(p.turns[k], p.turns[k + 1].offset, p.turns[k + 1].batch);
      }
    }
  }

  lemma WakeInv(w: World)
    requires Inv(w)
    ensures Inv(OnWake(w))
  {
    if w.state.phase.AtWait? && !w.state.cancelled && w.state.mailbox != [] {
      StartTurn(w.past, w.state.mailbox);
    }
  }

  /** Giving the last turn its ending changes nothing else about the turns. */
  lemma {:induction false} EndTurnTurns(p: History, ending: Ending)
    requires p.turns != []
    ensures var turns, q, n := p.turns, EndTurn(p, ending).turns, |p.turns| - 1;
      && |q| == |turns| && q[n] == turns[n].(ending := ending) && (forall k :: 0 <= k < n ==> q[k] == turns[k])
      && Parks(q) == Parks(turns[..n]) + (if ending == WasParked then 1 else 0)
      && Parks(turns) == Parks(turns[..n]) + (if turns[n].ending == WasParked then 1 else 0)
  {
    var q, n := EndTurn(p, ending).turns, |p.turns| - 1;
    assert q[..n] == p.turns[..n];
  }

  lemma {:induction false} EndBatches(p: History, p1: History, ending: Ending)
    requires p.turns != [] && BatchesOk(p) && p1 == p.(committed := p1.committed)
    ensures BatchesOk(EndTurn(p1, ending))
  {
    EndTurnTurns(p1, ending);
    var q := EndTurn(p1, ending);
    forall k | 0 <= k < |q.turns| ensures Given(q.turns[k], Arrived(q)) {
      assert Given(p.turns[k], Arrived(p));
    }
  }

  lemma {:induction false} EndParked(
      p: History, mailbox: seq<Message>, rest: seq<Message>, ending: Ending, more: seq<Message>)
    requires p.turns != [] && ParkedAgain(p, mailbox)
    requires ending == WasParked ==>
      p.turns[|p.turns| - 1].offset == |p.committed| && p.turns[|p.turns| - 1].batch <= rest && more == []
    ensures ParkedAgain(EndTurn(p.(committed := p.committed + more), ending), rest)
  {
    EndTurnTurns(p.(committed := p.committed + more), ending);
    var q := EndTurn(p.(committed := p.committed + more), ending);
    forall k | 0 <= k < |q.turns| - 1 ensures GivenAgain(q.turns[k], q.turns[k + 1].offset, q.turns[k + 1].batch) {
      assert GivenAgain(p.turns[k], p.turns[k + 1].offset, p.turns[k + 1].batch);
    }
  }

  lemma {:induction false} EndProgress(p: History, ending: Ending, more: seq<Message>)
    requires p.turns != [] && p.turns[|p.turns| - 1].ending == Pending && Progress(p)
    requires ending != Pending && (ending == Committed ==> more != [])
    ensures Progress(EndTurn(p.(committed := p.committed + more), ending))
  {
    EndTurnTurns(p.(committed := p.committed + more), ending);
  }

  lemma {:induction false} EndEndings(p: History, batch: seq<Message>, ending: Ending, phase: Phase)
    requires p.turns != [] && EndingsOk(p.turns, InTurn(batch))
    requires ending != Pending && (ending == Final ==> phase.Over?)
    ensures EndingsOk(EndTurn(p, ending).turns, phase)
  {
    EndTurnTurns(p, ending);
  }

  lemma {:induction false} EndConserved(p: History, mailbox: seq<Message>, n: nat, ending: Ending)
    requires Conserved(p, mailbox) && n <= |mailbox|
    ensures Conserved(EndTurn(p.(committed := p.committed + mailbox[..n]), ending), mailbox[n..])
  {
    assert mailbox[..n] + mailbox[n..] == mailbox;
    assert (p.committed + mailbox[..n]) + mailbox[n..] == p.committed + (mailbox[..n] + mailbox[n..]);
  }

  /** The turn in flight ends, committing its batch or leaving the mailbox alone. */
  lemma {:induction false} EndTurnInv(
      p: History, mailbox: seq<Message>, batch: seq<Message>, ending: Ending, phase: Phase)
    requires Conserved(p, mailbox) && InFlight(p, InTurn(batch), mailbox) && EndingsOk(p.turns, InTurn(batch))
    requires BatchesOk(p) && ParkedAgain(p, mailbox) && Progress(p)
    requires ending != Pending && (ending == Final ==> phase.Over?) && !phase.InTurn?
    ensures var n := if ending == Committed then |batch| else 0;
      var q := EndTurn(p.(committed := p.committed + mailbox[..n]), ending);
      && Conserved(q, mailbox[n..]) && EndingsOk(q.turns, phase)
      && BatchesOk(q) && ParkedAgain(q, mailbox[n..]) && Progress(q)
  {
    var n := if ending == Committed then |batch| else 0;
    var p1 := p.(committed := p.committed + mailbox[..n]);
    EndProgress(p, ending, mailbox[..n]);
    EndEndings(p1, batch, ending, phase);
    EndConserved(p, mailbox, n, ending);
    EndBatches(p, p1, ending);
    if ending == WasParked {
      assert mailbox[..n] == [] && mailbox[n..] == mailbox;
    }
    EndParked(p, mailbox, mailbox[n..], ending, mailbox[..n]);
  }

  lemma TurnEnds(w: World, w': World, ending: Ending)
    requires Inv(w) && w.state.phase.InTurn? && ending != Pending && !w'.state.phase.InTurn?
    requires ending == Final ==> w'.state.phase.Over?
    requires var n := if ending == Committed then |w.state.phase.batch| else 0;
      && w'.past == EndTurn(w.past.(committed := w.past.committed + w.state.mailbox[..n]), ending)
      && w'.state.mailbox == w.state.mailbox[n..]
    requires ParkBounded(w'.state.phase, w'.state.override)
    ensures Inv(w')
  {
    EndTurnInv(w.past, w.state.mailbox, w.state.phase.batch, ending, w'.state.phase);
  }

  lemma ReturnInv(w: World, returned: Status)
    requires Inv(w)
    ensures Inv(OnReturn(w, returned))
  {
    var s := w.state;
    if s.phase.InTurn? {
      BackoffBounds(s.attempt + 1, s.attempt + 1, s.override);
      assert s.mailbox[0..] == s.mailbox && w.past.committed + s.mailbox[..0] == w.past.committed;
      TurnEnds(w, OnReturn(w, returned),
               if returned.Waiting? then WasParked else if returned.Completed? then Final else Committed);
    }
  }

  lemma FailureInv(w: World, permanent: bool, hint: Option<real>)
    requires Inv(w)
    ensures Inv(OnFailure(w, permanent, hint))
  {
    var s := w.state;
    if s.phase.InTurn? {
      BackoffBounds(s.attempt + 1, s.attempt + 1, s.override);
      assert s.mailbox[0..] == s.mailbox && w.past.committed + s.mailbox[..0] == w.past.committed;
      TurnEnds(w, OnFailure(w, permanent, hint), if permanent then Final else WasParked);
    }
  }

  lemma StepInv(w: World, e: Event)
    requires Inv(w)
    ensures Inv(Step(w, e))
  {
    match e
    case SendMessage(_) => SignalInv(w, e);
    case CancelAgent => SignalInv(w, e);
    case Wake => WakeInv(w);
    case TurnReturned(returned) => ReturnInv(w, returned);
    case TurnFailed(permanent, hint) => FailureInv(w, permanent, hint);
    case TimerFired =>
  }

  lemma {:induction false} RunInv(w: World, events: seq<Event>)
    requires Inv(w)
    ensures Inv(RunAll(w, events))
    decreases events
  {
    if events != [] {
      StepInv(w, events[0]);
      RunInv(Step(w, events[0]), events[1..]);
    }
  }

  /**
   Mailbox conservation, in every interleaving of signals, turn outcomes and
   timers: the committed messages followed by the mailbox are the initial mailbox
   followed by all signals in arrival order; every turn is given the messages
   from the first uncommitted one on; and a batch that was parked is a prefix of
   the next one.
   */
  lemma MailboxConservation(mailbox: seq<Message>, status: Status, override: Option<Override>, events: seq<Event>)
    ensures var w := RunAll(Start(mailbox, status, override), events);
      && w.past.committed + w.state.mailbox == w.past.initial + w.past.signals
      && (forall k :: 0 <= k < |w.past.turns| ==> Given(w.past.turns[k], Arrived(w.past)))
      && (forall k :: 0 <= k < |w.past.turns| - 1 ==>
            GivenAgain(w.past.turns[k], w.past.turns[k + 1].offset, w.past.turns[k + 1].batch))
      && (w.state.phase.InTurn? ==>
            w.past.turns != [] && w.past.turns[|w.past.turns| - 1].offset == |w.past.committed|)
  {
    StartInv(mailbox, status, override);
    RunInv(Start(mailbox, status, override), events);
  }

  /**
   No spin: turns started are at most messages plus parks plus one, and every
   park waits a positive time bounded by the backoff cap or by one hour.
   */
  lemma NoSpin(mailbox: seq<Message>, status: Status, override: Option<Override>, events: seq<Event>)
    ensures var w := RunAll(Start(mailbox, status, override), events);
      && |w.past.turns| <= |w.past.initial| + |w.past.signals| + Parks(w.past.turns) + 1
      && ParkBounded(w.state.phase, w.state.override)
  {
    StartInv(mailbox, status, override);
    RunInv(Start(mailbox, status, override), events);
    var w := RunAll(Start(mailbox, status, override), events);
    assert |w.past.committed| <= |Arrived(w.past)|;
  }

  /**
   No lost wakeup: the workflow stays at its wait exactly when no signal is
   pending, none was cancelled and the mailbox is empty; a message that arrives
   there is in the very next turn, behind everything still uncommitted.
   */
  lemma BlocksOnlyWhenEmpty(w: World, message: Message)
    requires w.state.phase.AtWait?
    ensures Step(w, Wake) == w <==> !w.state.wake && !w.state.cancelled && w.state.mailbox == []
    ensures w.state.mailbox != [] && !w.state.cancelled ==> Step(w, Wake).state.phase == InTurn(w.state.mailbox)
    ensures !w.state.cancelled ==>
      Step(Step(w, SendMessage(message)), Wake).state.phase == InTurn(w.state.mailbox + [message])
  {
    if w.state.wake { assert !Step(w, Wake).state.wake || Step(w, Wake).state.phase.Over?; }
  }

  /** After a cancel no turn is ever started, whatever else happens. */
  lemma {:induction false} CancelStopsTurns(w: World, events: seq<Event>)
    requires w.state.cancelled || (w.state.phase.Over?)
    ensures |RunAll(w, events).past.turns| == |w.past.turns|
    decreases events
  {
    if events != [] {
      CancelStopsTurns(Step(w, events[0]), events[1..]);
    }
  }

  /** A cancel ends the workflow at its next resumption: no await is entered after it. */
  lemma CancelIsPrompt(w: World, e: Event)
    requires Inv(w) && w.state.cancelled && Step(w, e) != w && !e.SendMessage? && !e.CancelAgent?
    ensures Step(w, e).state.phase.Over? && Step(w, e).state.status == Cancelled
  {
  }

  // ----- how a workflow ends, and how long it parks

  lemma {:induction false} RunSnoc(w: World, events: seq<Event>, e: Event)
    ensures RunAll(w, events + [e]) == Step(RunAll(w, events), e)
    decreases events
  {
    if events == [] {
      assert [] + [e] == [e] && [e][1..] == [];
      assert RunAll(Step(w, e), []) == Step(w, e);
    } else {
      assert (events + [e])[1..] == events[1..] + [e];
      RunSnoc(Step(w, events[0]), events[1..], e);
    }
  }

  /** What can decide a workflow's end. */
  datatype Decision = Cancellation | PermanentFailure | Completion

  /** The event takes that effect on the workflow as it is. */
  predicate Decides(w: World, e: Event, decision: Decision) {
    match decision
    case Cancellation => e.CancelAgent? && !w.state.phase.Over?
    case PermanentFailure => e.TurnFailed? && e.permanent && w.state.phase.InTurn?
    case Completion => e == TurnReturned(Completed) && w.state.phase.InTurn?
  }

  ghost predicate Decided(w: World, events: seq<Event>, decision: Decision) {
    exists i :: 0 <= i < |events| && Decides(RunAll(w, events[..i]), events[i], decision)
  }

  lemma DecidedSnoc(w: World, events: seq<Event>, e: Event, decision: Decision)
    ensures Decided(w, events + [e], decision) <==>
      Decided(w, events, decision) || Decides(RunAll(w, events), e, decision)
  {
    var more := events + [e];
    assert more[..|events|] == events && more[|events|] == e;
    forall i | 0 <= i < |events| ensures more[..i] == events[..i] && more[i] == events[i] {
    }
  }

  /** The status a workflow shows, given what has been decided. */
  ghost predicate Shows(s: State, cancelled: bool, failed: bool, completed: bool) {
    && s.cancelled == cancelled
    && (s.phase.InTurn? ==> s.status == Running) && (s.phase.Parked? ==> s.status == Waiting)
    && (!s.phase.Over? ==> !failed && !completed && !s.status.Completed? && !s.status.Failed?)
    && (s.phase.Over? ==>
          && (cancelled || failed || completed) && !(failed && completed)
          && s.status == if cancelled then Cancelled else if failed then Failed else Completed)
  }

  lemma ShowsStep(w: World, e: Event, cancelled: bool, failed: bool, completed: bool)
    requires Shows(w.state, cancelled, failed, completed)
    ensures Shows(Step(w, e).state, cancelled || Decides(w, e, Cancellation),
                  failed || Decides(w, e, PermanentFailure), completed || Decides(w, e, Completion))
  {
  }

  lemma {:induction false} RunShows(w: World, events: seq<Event>)
    requires Shows(w.state, false, false, false)
    ensures Shows(RunAll(w, events).state, Decided(w, events, Cancellation),
                  Decided(w, events, PermanentFailure), Decided(w, events, Completion))
    decreases |events|
  {
    if events != [] {
      var most, e := events[..|events| - 1], events[|events| - 1];
      assert events == most + [e];
      RunShows(w, most);
      RunSnoc(w, most, e);
      DecidedSnoc(w, most, e, Cancellation);
      DecidedSnoc(w, most, e, PermanentFailure);
      DecidedSnoc(w, most, e, Completion);
      ShowsStep(RunAll(w, most), e, Decided(w, most, Cancellation), Decided(w, most, PermanentFailure),
                Decided(w, most, Completion));
    }
  }

  /**
   How a workflow ends, over every event list: cancelled exactly when a cancel
   arrived before its end, otherwise failed exactly when its last turn failed
   permanently, otherwise completed, because a turn said so; and it shows
   `running` during a turn and `waiting` while parked.
   */
  lemma FinalStatus(mailbox: seq<Message>, status: Status, override: Option<Override>, events: seq<Event>)
    requires !status.Completed? && !status.Failed?
    ensures var start := Start(mailbox, status, override);
      var s := RunAll(start, events).state;
      && (s.phase.Over? ==>
            && (s.status == Cancelled <==> Decided(start, events, Cancellation))
            && (s.status == Failed <==>
                  !Decided(start, events, Cancellation) && Decided(start, events, PermanentFailure))
            && (s.status == Completed <==>
                  !Decided(start, events, Cancellation) && Decided(start, events, Completion)))
      && (s.phase.InTurn? ==> s.status == Running) && (s.phase.Parked? ==> s.status == Waiting)
  {
    RunShows(Start(mailbox, status, override), events);
  }

  /** A hint the workflow waits out as given. */
  predicate UsableHint(hint: Option<real>) {
    hint.Some? && 0.0 < hint.value <= 3600000.0
  }

  /** Parks without a usable hint since the last turn that did not park. */
  function UnhintedParks(w: World, events: seq<Event>): nat {
    if events == [] then 0
    else
      var most, e := events[..|events| - 1], events[|events| - 1];
      var parks := UnhintedParks(w, most);
      if !RunAll(w, most).state.phase.InTurn? then parks
      else if e.TurnReturned? then if e.returned == Waiting then parks + 1 else 0
      else if e.TurnFailed? && !e.permanent && !UsableHint(e.hint) then parks + 1
      else parks
  }

  lemma AttemptStep(w: World, e: Event)
    ensures Step(w, e).state.override == w.state.override
    ensures Step(w, e).state.attempt ==
      if !w.state.phase.InTurn? then w.state.attempt
      else if e.TurnReturned? then if e.returned == Waiting then w.state.attempt + 1 else 0
      else if e.TurnFailed? && !e.permanent && !UsableHint(e.hint) then w.state.attempt + 1
      else w.state.attempt
  {
  }

  lemma {:induction false} AttemptsCounted(w: World, events: seq<Event>)
    requires w.state.attempt == 0
    ensures RunAll(w, events).state.attempt == UnhintedParks(w, events)
    ensures RunAll(w, events).state.override == w.state.override
    decreases |events|
  {
    if events != [] {
      var most, e := events[..|events| - 1], events[|events| - 1];
      assert events == most + [e];
      AttemptsCounted(w, most);
      RunSnoc(w, most, e);
      AttemptStep(RunAll(w, most), e);
    }
  }

  /**
   What a turn that defers or fails for now leaves, after every event list: the
   whole mailbox, and a park of exactly the usable hint, or else of the backoff for
   one more than the unhinted parks since the last turn that did not park.
   */
  lemma ParksFor(
      mailbox: seq<Message>, status: Status, override: Option<Override>, events: seq<Event>, e: Event)
    requires e == TurnReturned(Waiting) || (e.TurnFailed? && !e.permanent)
    requires var s := RunAll(Start(mailbox, status, override), events).state;
      s.phase.InTurn? && !s.cancelled
    ensures var start := Start(mailbox, status, override);
      var w := RunAll(start, events);
      var s := RunAll(start, events + [e]).state;
      && s.mailbox == w.state.mailbox && s.status == Waiting
      && s.phase == Parked(
           if e.TurnFailed? && UsableHint(e.hint) then e.hint.value
           else NextBackoff(UnhintedParks(start, events) + 1, override))
  {
    var start := Start(mailbox, status, override);
    AttemptsCounted(start, events);
    RunSnoc(start, events, e);
  }

  // ----- the workflow as it runs

  /** The state after one event; it does not depend on what happened before. */
  function NextState(s: State, e: Event): State {
    Step(World(s, History([], [], [], [])), e).state
  }

  /** `durableAgentWorkflow`: its signal handlers, and the code between each await and the next. */
  class AgentWorkflow {
    var mailbox: seq<Message>
    var wake: bool
    var cancelled: bool
    var attempt: nat
    var status: Status
    var phase: Phase
    const override: Option<Override>

    constructor (mailbox: seq<Message>, status: Status, override: Option<Override>)
      ensures View() == Start(mailbox, status, override).state
    {
      this.mailbox, this.wake, this.cancelled := mailbox, |mailbox| > 0, false;
      this.attempt, this.status, this.override := 0, status, override;
      phase := if status.Completed? || status.Failed? then Over else AtWait;
    }

    ghost function View(): State
      reads this
    {
      State(mailbox, wake, cancelled, attempt, status, phase, override)
    }

    method OnMessage(message: Message)
      modifies this
      ensures View() == NextState(old(View()), SendMessage(message))
    {
      if phase.Over? { return; }
      mailbox := mailbox + [message];
      wake := true;
    }

    method OnCancel()
      modifies this
      ensures View() == NextState(old(View()), CancelAgent)
    {
      if phase.Over? { return; }
      cancelled := true;
      wake := true;
    }

    /** The `while` guard, and what follows the loop. */
    method NextIteration()
      modifies this
      ensures View() == LoopHead(old(View()))
    {
      if cancelled {
        phase, status := Over, Cancelled;
      } else if status.Completed? || status.Failed? {
        phase := Over;
      } else {
        phase := AtWait;
      }
    }

    method Resume()
      modifies this
      ensures View() == NextState(old(View()), Wake)
    {
      if !phase.AtWait? || !(wake || cancelled || |mailbox| > 0) { return; }
      if cancelled {
        phase, status := Over, Cancelled;
        return;
      }
      wake := false;
      if |mailbox| == 0 {
        NextIteration();
        return;
      }
      status := Running;
      phase := InTurn(mailbox);
    }

    method ParkFor(ms: real)
      modifies this
      ensures View() == Park(old(View()).(status := Waiting), ms)
    {
      status := Waiting;
      if cancelled {
        phase, status := Over, Cancelled;
      } else {
        phase := Parked(ms);
      }
    }

    method TurnDone(returned: Status)
      modifies this
      ensures View() == NextState(old(View()), TurnReturned(returned))
    {
      if !phase.InTurn? { return; }
      if returned == Waiting {
        attempt := attempt + 1;
        ParkFor(NextBackoff(attempt, override));
        return;
      }
      var consumed := |phase.batch|;
      attempt := 0;
      if returned == Completed {
        status := Completed;
      } else {
        status := Idle;
        mailbox := if consumed <= |mailbox| then mailbox[consumed..] else [];
      }
      NextIteration();
    }

    method TurnThrew(permanent: bool, hint: Option<real>)
      modifies this
      ensures View() == NextState(old(View()), TurnFailed(permanent, hint))
    {
      if !phase.InTurn? { return; }
      if permanent {
        phase, status := Over, Failed;
        if cancelled { status := Cancelled; }
        return;
      }
      var usable := ClampHint(hint);
      if usable.Some? {
        ParkFor(usable.value);
        return;
      }
      attempt := attempt + 1;
      ParkFor(NextBackoff(attempt, override));
    }

    method ParkOver()
      modifies this
      ensures View() == NextState(old(View()), TimerFired)
    {
      if phase.Parked? { NextIteration(); }
    }
  }
}
