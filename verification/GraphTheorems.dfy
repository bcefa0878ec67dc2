/**
 The statements about whole graphs: cut-and-resumed chains of runs against one
 uncut run, and the exact cuts that lose a loop's value.
 */
module GraphTheorems {
  import opened GraphValues
  import opened GraphModel
  import opened GraphShape
  import opened GraphOnce
  import opened GraphResume

  // ----- values that come out of a loop

  /** The node's value is a loop's value, or is taken from one. */
  predicate LoopValued(step: Step)
    decreases step
  {
    match step
    case Leaf(_, _) => false
    case Sequence(_, steps) => steps != [] && LoopValued(steps[|steps| - 1])
    case Fanout(_, steps) => exists i :: 0 <= i < |steps| && LoopValued(steps[i])
    case Branch(_, _, onTrue, onFalse) => LoopValued(onTrue) || (onFalse.Some? && LoopValued(onFalse.value))
    case Loop(_, _, _, _) => true
  }

  ghost function LoopValuedIds(step: Step): set<string>
    decreases step, 1
  {
    (if LoopValued(step) then {step.id} else {}) + KidLoopValuedIds(step)
  }

  ghost function KidLoopValuedIds(step: Step): set<string>
    decreases step, 0
  {
    var kids := Kids(step);
    set i, id | 0 <= i < |kids| && id in LoopValuedIds(kids[i]) :: id
  }

  ghost predicate ConditionsAvoid(step: Step, T: set<string>) {
    var kids := Kids(step);
    && (step.Branch? ==> Reads(step.condition) !in T)
    && (step.Loop? ==> Reads(step.until) !in T)
    && (forall i :: 0 <= i < |kids| ==> ConditionsAvoid(kids[i], T))
  }

  lemma {:induction false} LoopValuedWithin(step: Step)
    ensures LoopValuedIds(step) <= Ids(step)
    ensures LoopIds(step) <= LoopValuedIds(step)
  {
    var kids := Kids(step);
    forall i | 0 <= i < |kids|
      ensures LoopValuedIds(kids[i]) <= Ids(kids[i]) && LoopIds(kids[i]) <= LoopValuedIds(kids[i])
    {
      LoopValuedWithin(kids[i]);
    }
  }

  /** With unique ids, the loop-valued ids inside a node are exactly its own loop-valued ids. */
  ghost predicate Local(step: Step, T: set<string>) {
    forall id :: id in Ids(step) ==> (id in T <==> id in LoopValuedIds(step))
  }

  lemma {:induction false} OneOwner(step: Step, i: nat, j: nat, id: string)
    requires UniqueIds(step) && i < |Kids(step)| && j < |Kids(step)|
    requires id in Ids(Kids(step)[i]) && id in Ids(Kids(step)[j])
    ensures i == j
  {
  }

  lemma {:induction false} LocalId(step: Step, i: nat, id: string)
    requires UniqueIds(step) && i < |Kids(step)| && id in Ids(Kids(step)[i])
    ensures id in LoopValuedIds(step) <==> id in LoopValuedIds(Kids(step)[i])
  {
    NotOwnId(step, i, id);
    if id in LoopValuedIds(step) {
      var j := Owner(step, id);
      LoopValuedWithin(Kids(step)[j]);
      OneOwner(step, i, j, id);
    }
  }

  lemma {:induction false} NotOwnId(step: Step, i: nat, id: string)
    requires UniqueIds(step) && i < |Kids(step)| && id in Ids(Kids(step)[i])
    ensures id != step.id
    ensures LoopValuedIds(Kids(step)[i]) <= KidLoopValuedIds(step)
  {
    KidWithin(step, i);
  }

  lemma {:induction false} Owner(step: Step, id: string) returns (j: nat)
    requires id in KidLoopValuedIds(step)
    ensures j < |Kids(step)| && id in LoopValuedIds(Kids(step)[j])
  {
    var kids := Kids(step);
    j :| 0 <= j < |kids| && id in LoopValuedIds(kids[j]);
  }

  lemma {:induction false} LocalKid(step: Step, T: set<string>, i: nat)
    requires UniqueIds(step) && Local(step, T) && i < |Kids(step)|
    ensures Local(Kids(step)[i], T)
    ensures Kids(step)[i].id in T <==> LoopValued(Kids(step)[i])
  {
    var kid := Kids(step)[i];
    forall id | id in Ids(kid) ensures id in T <==> id in LoopValuedIds(kid) {
      KidWithin(step, i);
      LocalId(step, i, id);
    }
    OwnLoopValue(kid);
  }

  lemma {:induction false} OwnLoopValue(step: Step)
    requires UniqueIds(step)
    ensures step.id in LoopValuedIds(step) <==> LoopValued(step)
  {
    var kids := Kids(step);
    forall i | 0 <= i < |kids| ensures step.id !in LoopValuedIds(kids[i]) {
      LoopValuedWithin(kids[i]);
      KidWithin(step, i);
    }
  }

  /** A child whose value the node's is taken from passes on that it comes out of a loop. */
  lemma {:induction false} KidTaints(step: Step, i: nat)
    requires i < |Kids(step)| && LoopValued(Kids(step)[i]) && (step.Sequence? ==> i == |Kids(step)| - 1)
    ensures LoopValued(step)
  {
  }

  lemma {:induction false} LoopValuedClosed(step: Step, T: set<string>)
    requires UniqueIds(step) && ConditionsAvoid(step, T) && Local(step, T)
    ensures Closed(step, T)
  {
    var kids := Kids(step);
    OwnLoopValue(step);
    assert step.id in Ids(step);
    assert step.id in T <==> LoopValued(step);
    forall i | 0 <= i < |kids|
      ensures Closed(kids[i], T) && (kids[i].id in T && (step.Sequence? ==> i == |kids| - 1) ==> step.id in T)
    {
      LocalKid(step, T, i);
      LoopValuedClosed(kids[i], T);
      if LoopValued(kids[i]) && (step.Sequence? ==> i == |kids| - 1) { KidTaints(step, i); }
    }
  }

  // ----- chains of runs

  lemma RunsAgreeTransitive(T: set<string>, id: string, a: Run, b: Run, c: Run)
    requires RunsAgree(T, id, a, b) && RunsAgree(T, id, b, c)
    ensures RunsAgree(T, id, a, c)
  {
    forall i | 0 <= i < |a.events| ensures EventAgrees(T, a.events[i], c.events[i]) {
      assert EventAgrees(T, a.events[i], b.events[i]) && EventAgrees(T, b.events[i], c.events[i]);
    }
  }

  lemma PrefixAgrees(T: set<string>, a: seq<Event>, b: seq<Event>, n: nat)
    requires EventsAgree(T, a, b) && n <= |a|
    ensures EventsAgree(T, a[..n], b[..n])
  {
    forall i | 0 <= i < n ensures EventAgrees(T, a[..n][i], b[..n][i]) {
      assert EventAgrees(T, a[i], b[i]);
    }
  }

  /** No cut of the chain falls where a loop outside `T` would lose its value. */
  ghost predicate CutsKeep(es: seq<Event>, m: nat, cuts: seq<nat>, T: set<string>)
    decreases |cuts|
  {
    && KeepsLoopValue(es, m, T)
    && (cuts != [] && m + cuts[0] <= |es| ==> CutsKeep(es, m + cuts[0], cuts[1..], T))
  }

  /** The uncut run a chain is compared with. */
  function Uncut(graph: Step, answers: Answers): Run {
    Exec(graph, graph.id, NewScope(), answers)
  }

  lemma {:induction false} ResumeRun(graph: Step, s: Scope, answers: Answers, T: set<string>, m: nat)
    requires Resumable(graph, T) && m <= |Uncut(graph, answers).events|
    requires KeepsLoopValue(Uncut(graph, answers).events, m, T)
    requires ScopesAgree(T, s, ApplyAll(NewScope(), Uncut(graph, answers).events[..m]))
    ensures RunsAgree(T, graph.id, Exec(graph, graph.id, s, answers), After(Uncut(graph, answers), m))
  {
    var mid := ApplyAll(NewScope(), Uncut(graph, answers).events[..m]);
    ResumeExec(graph, graph.id, NewScope(), answers, T, m);
    ExecAgrees(graph, graph.id, s, mid, answers, T);
    RunsAgreeTransitive(T, graph.id, Exec(graph, graph.id, s, answers), Exec(graph, graph.id, mid, answers),
                        After(Uncut(graph, answers), m));
  }

  /** Cutting an agreeing resumed run leaves a scope that agrees with the uncut run's. */
  lemma {:induction false} CutScope(graph: Step, s: Scope, answers: Answers, T: set<string>, m: nat, c: nat)
    requires m + c <= |Uncut(graph, answers).events|
    requires ScopesAgree(T, s, ApplyAll(NewScope(), Uncut(graph, answers).events[..m]))
    requires EventsAgree(T, Exec(graph, graph.id, s, answers).events, Uncut(graph, answers).events[m..])
    ensures var es := Uncut(graph, answers).events;
      var done := Exec(graph, graph.id, s, answers).events[..c];
      && EventsAgree(T, done, es[m..m + c])
      && ScopesAgree(T, ApplyAll(s, done), ApplyAll(NewScope(), es[..m + c]))
  {
    var es := Uncut(graph, answers).events;
    var done := Exec(graph, graph.id, s, answers).events[..c];
    PrefixAgrees(T, Exec(graph, graph.id, s, answers).events, es[m..], c);
    assert es[m..][..c] == es[m..m + c];
    ApplyAgrees(T, s, ApplyAll(NewScope(), es[..m]), done, es[m..m + c]);
    ApplyAllConcat(NewScope(), es[..m], es[m..m + c]);
    assert es[..m] + es[m..m + c] == es[..m + c];
  }

  /** One more run of the chain, cut after `c` completions, agrees as far as it went. */
  lemma {:induction false} ResumeCut(graph: Step, s: Scope, answers: Answers, T: set<string>, m: nat, c: nat)
    requires Resumable(graph, T) && m <= |Uncut(graph, answers).events|
    requires KeepsLoopValue(Uncut(graph, answers).events, m, T)
    requires ScopesAgree(T, s, ApplyAll(NewScope(), Uncut(graph, answers).events[..m]))
    requires c <= |Exec(graph, graph.id, s, answers).events|
    ensures var es := Uncut(graph, answers).events;
      var done := Exec(graph, graph.id, s, answers).events[..c];
      && m + c <= |es|
      && EventsAgree(T, done, es[m..m + c])
      && ScopesAgree(T, ApplyAll(s, done), ApplyAll(NewScope(), es[..m + c]))
  {
    ResumeRun(graph, s, answers, T, m);
    CutScope(graph, s, answers, T, m, c);
  }

  lemma {:induction false} ResumeChain(graph: Step, s: Scope, answers: Answers, T: set<string>, m: nat, cuts: seq<nat>)
    requires Resumable(graph, T) && m <= |Uncut(graph, answers).events|
    requires CutsKeep(Uncut(graph, answers).events, m, cuts, T)
    requires ScopesAgree(T, s, ApplyAll(NewScope(), Uncut(graph, answers).events[..m]))
    ensures RunsAgree(T, graph.id, Chain(graph, s, answers, cuts), After(Uncut(graph, answers), m))
    decreases |cuts|
  {
    var r := Exec(graph, graph.id, s, answers);
    if cuts == [] || cuts[0] > |r.events| {
      ResumeRun(graph, s, answers, T, m);
    } else {
      var c, done := cuts[0], r.events[..cuts[0]];
      ResumeCut(graph, s, answers, T, m, c);
      ResumeChain(graph, ApplyAll(s, done), answers, T, m + c, cuts[1..]);
      GlueAgrees(T, graph.id, done, Chain(graph, ApplyAll(s, done), answers, cuts[1..]), Uncut(graph, answers), m, c);
    }
  }

  /** A cut run and an agreeing continuation together agree with what was left of the uncut run. */
  lemma GlueAgrees(T: set<string>, id: string, done: seq<Event>, rest: Run, full: Run, m: nat, c: nat)
    requires m + c <= |full.events| && EventsAgree(T, done, full.events[m..m + c])
    requires RunsAgree(T, id, rest, After(full, m + c))
    ensures RunsAgree(T, id, Run(done + rest.events, rest.out, false), After(full, m))
  {
    ConcatAgrees(T, done, rest.events, full.events[m..m + c], full.events[m + c..]);
    assert full.events[m..] == full.events[m..m + c] + full.events[m + c..];
  }

  lemma {:induction false} ExhaustedLoopsKept(es: seq<Event>, m: nat, cuts: seq<nat>, T: set<string>)
    requires ExhaustedIn(es, T)
    ensures CutsKeep(es, m, cuts, T)
    decreases |cuts|
  {
    if cuts != [] {
      ExhaustedLoopsKept(es, m + cuts[0], cuts[1..], T);
    }
  }

  /**
   Resume equivalence. For a graph with unique ids, whose conditions read
   neither their own subtree's work in progress nor a value that comes out of a
   loop, every chain of cut-and-resumed runs makes the completions of one uncut
   run, in the same order: the same handler calls with the same results, the
   same journal and completed list, and the same results for every node whose
   value does not come out of a loop.
   */
  lemma ResumeEquivalence(graph: Step, answers: Answers, cuts: seq<nat>)
    requires UniqueIds(graph) && WellScoped(graph) && ConditionsAvoid(graph, LoopValuedIds(graph))
    ensures var T := LoopValuedIds(graph);
      var chain, full := Chain(graph, NewScope(), answers, cuts), Uncut(graph, answers);
      && RunsAgree(T, graph.id, chain, full)
      && ScopesAgree(T, ApplyAll(NewScope(), chain.events), ApplyAll(NewScope(), full.events))
  {
    var T := LoopValuedIds(graph);
    var full := Uncut(graph, answers);
    LoopValuedClosed(graph, T);
    ExecShape(graph, graph.id, NewScope(), answers);
    LoopValuedWithin(graph);
    ExhaustedLoopsKept(full.events, 0, cuts, T);
    assert full.events[..0] == [] && After(full, 0) == full;
    ResumeChain(graph, NewScope(), answers, T, 0, cuts);
    ApplyAgrees(T, NewScope(), NewScope(), Chain(graph, NewScope(), answers, cuts).events, full.events);
  }

  lemma {:induction false} NothingTainted(step: Step)
    ensures Closed(step, {})
  {
    forall i | 0 <= i < |Kids(step)| ensures Closed(Kids(step)[i], {}) {
      NothingTainted(Kids(step)[i]);
    }
  }

  // ----- the cuts that lose a loop's value

  /** The first completion is the given node's, and its value is gone. */
  ghost predicate LosesValue(es: seq<Event>, e: Event) {
    es != [] && es[0].key == e.key && es[0].id == e.id && es[0].value == Undefined
  }

  lemma {:induction false} LostExec(step: Step, path: string, s: Scope, answers: Answers, n: nat)
    requires UniqueIds(step) && WellScoped(step) && Fresh(s.journal, path)
    requires n < |Exec(step, path, s, answers).events| && Exec(step, path, s, answers).events[n].exhausted
    ensures var es := Exec(step, path, s, answers).events;
      LosesValue(Exec(step, path, ApplyAll(s, es[..n]), answers).events, es[n])
    decreases step, 2, 0
  {
    var inner := RunStep(step, path, s, answers);
    assert path !in s.journal;
    StepShape(step, path, s, answers);
    if n < |inner.events| {
      RecordedWithin(step, path, inner, n);
      LostStep(step, path, s, answers, n);
    } else {
      assert inner.events[..n] == inner.events;
      StartsAt(step, path, 0, s.journal);
      LostLoopEnd(step, path, s, answers);
    }
    LostAgain(step, path, s, answers, n);
  }

  /** Up to the node's own completion, what is recorded is what its descendants completed. */
  lemma RecordedWithin(step: Step, path: string, inner: Run, n: nat)
    requires n < |inner.events|
    ensures var es := Record(step, path, inner).events;
      n < |es| && es[n] == inner.events[n] && es[..n] == inner.events[..n]
  {
  }

  /** A node that has not completed is entered again; what its own work loses first is lost by the node. */
  lemma {:induction false} LostAgain(step: Step, path: string, s: Scope, answers: Answers, n: nat)
    requires path !in s.journal && n < |Record(step, path, RunStep(step, path, s, answers)).events|
    requires StrictlyUnder(RunStep(step, path, s, answers).events, path)
    requires var inner := RunStep(step, path, s, answers);
      var again := RunStep(step, path, ApplyAll(s, inner.events[..n]), answers);
      LosesValue(Record(step, path, again).events, Record(step, path, inner).events[n])
    ensures var es := Exec(step, path, s, answers).events;
      LosesValue(Exec(step, path, ApplyAll(s, es[..n]), answers).events, es[n])
  {
    var inner := RunStep(step, path, s, answers);
    assert Record(step, path, inner).events[..n] == inner.events[..n];
    ReachNode(step, path, s, inner.events[..n]);
  }

  lemma {:induction false} LostStep(step: Step, path: string, s: Scope, answers: Answers, n: nat)
    requires UniqueIds(step) && WellScoped(step) && Fresh(s.journal, path)
    requires n < |RunStep(step, path, s, answers).events| && RunStep(step, path, s, answers).events[n].exhausted
    ensures var es := RunStep(step, path, s, answers).events;
      LosesValue(RunStep(step, path, ApplyAll(s, es[..n]), answers).events, es[n])
    decreases step, 1, 0
  {
    match step
    case Leaf(_, _) =>
    case Sequence(_, steps) => LostKids(step, steps, path, 0, s, answers, n);
    case Fanout(_, steps) => LostKids(step, steps, path, 0, s, answers, n);
    case Branch(_, _, _, _) => LostBranch(step, path, s, answers, n);
    case Loop(_, body, _, _) =>
      StartsAt(step, path, 0, s.journal);
      LostLoop(step, path, s, answers, n);
  }

  lemma {:induction false} LostBranch(step: Step, path: string, s: Scope, answers: Answers, n: nat)
    requires step.Branch? && UniqueIds(step) && WellScoped(step) && Fresh(s.journal, path)
    requires n < |RunStep(step, path, s, answers).events| && RunStep(step, path, s, answers).events[n].exhausted
    ensures var es := RunStep(step, path, s, answers).events;
      LosesValue(RunStep(step, path, ApplyAll(s, es[..n]), answers).events, es[n])
    decreases step, 0, 0
  {
    var r := RunStep(step, path, s, answers);
    StepShape(step, path, s, answers);
    UntouchedCondition(s, r.events[..n], KidIds(step), step.condition);
    if Matches(step.condition, s.results) {
      assert Kids(step)[0] == step.onTrue;
      LostExec(step.onTrue, BranchKey(path, true, step.onTrue.id), s, answers, n);
    } else {
      assert Kids(step)[1] == step.onFalse.value;
      LostExec(step.onFalse.value, BranchKey(path, false, step.onFalse.value.id), s, answers, n);
    }
  }

  lemma StaticKid(step: Step, i: nat)
    requires UniqueIds(step) && WellScoped(step) && i < |Kids(step)|
    ensures UniqueIds(Kids(step)[i]) && WellScoped(Kids(step)[i]) && Kids(step)[i] < step
  {
  }

  lemma {:induction false} LostKids(
      step: Step, steps: seq<Step>, path: string, i: nat, s: Scope, answers: Answers, n: nat)
    requires i <= |steps| && steps == Kids(step) && (step.Sequence? || step.Fanout?)
    requires UniqueIds(step) && WellScoped(step) && FreshKids(s.journal, steps, path, i)
    requires n < |RunKids(steps, path, i, s, answers).events| && RunKids(steps, path, i, s, answers).events[n].exhausted
    ensures var es := RunKids(steps, path, i, s, answers).events;
      LosesValue(RunKids(steps, path, i, ApplyAll(s, es[..n]), answers).events, es[n])
    decreases step, 0, |steps| - i, 1
  {
    var key := ChildKey(path, i, steps[i].id);
    var head := Exec(steps[i], key, s, answers);
    CutWithinKid(steps, path, i, s, answers, n);
    assert Fresh(s.journal, key);
    if n < |head.events| {
      StaticKid(step, i);
      LostFirstKid(steps[i], steps, path, i, s, answers, n);
    } else {
      ExecShape(steps[i], key, s, answers);
      FreshLaterKids(s, head.events, steps, path, i);
      LostLaterKids(step, steps, path, i, s, answers, n);
    }
  }

  lemma {:induction false} LostFirstKid(
      kid: Step, steps: seq<Step>, path: string, i: nat, s: Scope, answers: Answers, n: nat)
    requires i < |steps| && steps[i] == kid && UniqueIds(kid) && WellScoped(kid)
    requires Fresh(s.journal, ChildKey(path, i, kid.id))
    requires n < |Exec(kid, ChildKey(path, i, kid.id), s, answers).events|
    requires Exec(kid, ChildKey(path, i, kid.id), s, answers).events[n].exhausted
    ensures var es := RunKids(steps, path, i, s, answers).events;
      && n < |es|
      && LosesValue(RunKids(steps, path, i, ApplyAll(s, es[..n]), answers).events, es[n])
    decreases kid, 3, 0
  {
    var head := Exec(kid, ChildKey(path, i, kid.id), s, answers);
    LostExec(kid, ChildKey(path, i, kid.id), s, answers, n);
    CutWithinKid(steps, path, i, s, answers, n);
    StartsWithKid(steps, path, i, ApplyAll(s, head.events[..n]), answers);
  }

  /** The first completions of a list of children are those of the first child. */
  lemma {:induction false} CutWithinKid(steps: seq<Step>, path: string, i: nat, s: Scope, answers: Answers, n: nat)
    requires i < |steps| && n < |RunKids(steps, path, i, s, answers).events|
    ensures var head := Exec(steps[i], ChildKey(path, i, steps[i].id), s, answers);
      var es := RunKids(steps, path, i, s, answers).events;
      && (n < |head.events| ==> es[..n] == head.events[..n] && es[n] == head.events[n])
      && (n >= |head.events| ==>
            && head.out.Done?
            && var rest := RunKids(steps, path, i + 1, ApplyAll(s, head.events), answers);
               n - |head.events| < |rest.events| && es[n] == rest.events[n - |head.events|])
  {
  }

  lemma {:induction false} LostLaterKids(
      step: Step, steps: seq<Step>, path: string, i: nat, s: Scope, answers: Answers, n: nat)
    requires i < |steps| && steps == Kids(step) && (step.Sequence? || step.Fanout?)
    requires UniqueIds(step) && WellScoped(step) && Fresh(s.journal, ChildKey(path, i, steps[i].id))
    requires var head := Exec(steps[i], ChildKey(path, i, steps[i].id), s, answers);
      var rest := RunKids(steps, path, i + 1, ApplyAll(s, head.events), answers);
      && head.out.Done? && |head.events| <= n < |head.events| + |rest.events|
      && rest.events[n - |head.events|].exhausted
      && FreshKids(ApplyAll(s, head.events).journal, steps, path, i + 1)
    ensures var es := RunKids(steps, path, i, s, answers).events;
      && n < |es|
      && LosesValue(RunKids(steps, path, i, ApplyAll(s, es[..n]), answers).events, es[n])
    decreases step, 0, |steps| - i, 0
  {
    var head := Exec(steps[i], ChildKey(path, i, steps[i].id), s, answers);
    var next := ApplyAll(s, head.events);
    var rest := RunKids(steps, path, i + 1, next, answers);
    var m := n - |head.events|;
    LostKids(step, steps, path, i + 1, next, answers, m);
    EarlierId(step, i);
    KidsShape(step, steps, path, i + 1, next, answers);
    PassLost(steps, path, i, s, answers, n, m);
  }

  /** What the later children lose, all of them together lose. */
  lemma {:induction false} PassLost(
      steps: seq<Step>, path: string, i: nat, s: Scope, answers: Answers, n: nat, m: nat)
    requires i < |steps| && Fresh(s.journal, ChildKey(path, i, steps[i].id))
    requires steps[i].id !in LaterIds(steps, i + 1)
    requires Exec(steps[i], ChildKey(path, i, steps[i].id), s, answers).out.Done?
    requires var head := Exec(steps[i], ChildKey(path, i, steps[i].id), s, answers);
      var next := ApplyAll(s, head.events);
      var rest := RunKids(steps, path, i + 1, next, answers);
      && n == |head.events| + m && m < |rest.events| && IdsIn(rest.events, LaterIds(steps, i + 1))
      && LosesValue(RunKids(steps, path, i + 1, ApplyAll(next, rest.events[..m]), answers).events, rest.events[m])
    ensures var es := RunKids(steps, path, i, s, answers).events;
      && n < |es|
      && LosesValue(RunKids(steps, path, i, ApplyAll(s, es[..n]), answers).events, es[n])
  {
    PassKid(steps, path, i, s, answers, n, m);
  }

  lemma {:induction false} StartsWithKid(steps: seq<Step>, path: string, i: nat, s: Scope, answers: Answers)
    requires i < |steps| && Exec(steps[i], ChildKey(path, i, steps[i].id), s, answers).events != []
    ensures RunKids(steps, path, i, s, answers).events != []
    ensures RunKids(steps, path, i, s, answers).events[0]
         == Exec(steps[i], ChildKey(path, i, steps[i].id), s, answers).events[0]
  {
  }

  /** After a cut beyond a child, resuming the children is resuming the later ones. */
  lemma {:induction false} PassKid(
      steps: seq<Step>, path: string, i: nat, s: Scope, answers: Answers, n: nat, m: nat)
    requires i < |steps| && Fresh(s.journal, ChildKey(path, i, steps[i].id))
    requires steps[i].id !in LaterIds(steps, i + 1)
    requires Exec(steps[i], ChildKey(path, i, steps[i].id), s, answers).out.Done?
    requires var head := Exec(steps[i], ChildKey(path, i, steps[i].id), s, answers);
      var rest := RunKids(steps, path, i + 1, ApplyAll(s, head.events), answers);
      n == |head.events| + m && m < |rest.events| && IdsIn(rest.events, LaterIds(steps, i + 1))
    ensures var head := Exec(steps[i], ChildKey(path, i, steps[i].id), s, answers);
      var next := ApplyAll(s, head.events);
      var rest := RunKids(steps, path, i + 1, next, answers);
      var es := RunKids(steps, path, i, s, answers).events;
      && n < |es| && es[n] == rest.events[m]
      && RunKids(steps, path, i, ApplyAll(s, es[..n]), answers).events
         == RunKids(steps, path, i + 1, ApplyAll(next, rest.events[..m]), answers).events
  {
    var key := ChildKey(path, i, steps[i].id);
    var head := Exec(steps[i], key, s, answers);
    var next := ApplyAll(s, head.events);
    var rest := RunKids(steps, path, i + 1, next, answers);
    var es := RunKids(steps, path, i, s, answers).events;
    DoneChild(steps[i], key, s, answers, rest.events[..m], LaterIds(steps, i + 1));
    ApplyAllConcat(s, head.events, rest.events[..m]);
    assert es == head.events + rest.events && es[..n] == head.events + rest.events[..m];
    var s' := ApplyAll(next, rest.events[..m]);
    assert ApplyAll(s', []) == s';
    var rest' := RunKids(steps, path, i + 1, s', answers);
    assert [] + rest'.events == rest'.events;
  }

  lemma {:induction false} LostLoop(step: Step, path: string, s: Scope, answers: Answers, n: nat)
    requires step.Loop? && UniqueIds(step) && WellScoped(step) && BetweenIterations(step, path, 0, s)
    requires n < |RunLoop(step, path, 0, s, Undefined, answers).events|
    requires RunLoop(step, path, 0, s, Undefined, answers).events[n].exhausted
    ensures var es := RunLoop(step, path, 0, s, Undefined, answers).events;
      LosesValue(RunStep(step, path, ApplyAll(s, es[..n]), answers).events, es[n])
    decreases step, 0, 0
  {
    var r := RunLoop(step, path, 0, s, Undefined, answers);
    var j, t, v, m := LocateIteration(step, path, 0, s, Undefined, answers, n);
    var q := RunLoop(step, path, j, t, v, answers);
    var key := IterKey(path, j, step.body.id);
    var head := Exec(step.body, key, t, answers);
    assert After(r, n).events[0] == r.events[n] && After(q, m).events[0] == q.events[m];
    assert m < |head.events| && q.events[..m] == head.events[..m] && q.events[m] == head.events[m];
    assert Kids(step)[0] == step.body;
    LostExec(step.body, key, t, answers, m);
    CutIteration(step, path, j, t, answers, m);
  }

  /** A loop that ran out of iterations and is resumed before its completion completes as `undefined`. */
  lemma {:induction false} LostLoopEnd(step: Step, path: string, s: Scope, answers: Answers)
    requires step.Loop? && BetweenIterations(step, path, 0, s)
    requires RunLoop(step, path, 0, s, Undefined, answers).exhausted
    ensures var r := RunLoop(step, path, 0, s, Undefined, answers);
      RunStep(step, path, ApplyAll(s, r.events), answers) == Run([], Done(Undefined), true)
  {
    var r := RunLoop(step, path, 0, s, Undefined, answers);
    var n := |r.events|;
    assert r.events[..n] == r.events;
    var j, t, v, m := LocateIteration(step, path, 0, s, Undefined, answers, n);
    var q := RunLoop(step, path, j, t, v, answers);
    assert |After(r, n).events| == 0;
    assert |After(q, m).events| == 0 && After(q, m).exhausted;
    EndOfLoop(step, path, j, t, v, answers);
    assert q.events[..m] == [] && ApplyAll(t, q.events[..m]) == t;
    EndedLoop(step, path, j, t, answers);
  }

  lemma {:induction false} EndOfLoop(step: Step, path: string, j: nat, t: Scope, v: Json, answers: Answers)
    requires step.Loop? && RunLoop(step, path, j, t, v, answers).exhausted
    requires InIteration(step, path, j, t, answers, |RunLoop(step, path, j, t, v, answers).events|)
    ensures j >= step.maxIterations
    ensures RunLoop(step, path, j, t, v, answers).events == []
  {
  }

  lemma {:induction false} EndedLoop(step: Step, path: string, j: nat, t: Scope, answers: Answers)
    requires step.Loop? && BetweenIterations(step, path, j, t) && j >= step.maxIterations
    ensures RunStep(step, path, t, answers) == Run([], Done(Undefined), true)
  {
    StartsAt(step, path, j, t.journal);
  }

  /**
   The exact condition: resuming after `n` completions finishes exactly as the
   uncut run would, unless the next completion is a loop that ran out of
   iterations with a value to lose.
   */
  lemma CutKeepsEverything(graph: Step, answers: Answers, n: nat)
    requires UniqueIds(graph) && WellScoped(graph) && n <= |Uncut(graph, answers).events|
    ensures var full := Uncut(graph, answers);
      var resumed := Exec(graph, graph.id, ApplyAll(NewScope(), full.events[..n]), answers);
      RunsAgree({}, graph.id, resumed, After(full, n)) <==>
        !(n < |full.events| && full.events[n].exhausted && full.events[n].value != Undefined)
  {
    var full := Uncut(graph, answers);
    NothingTainted(graph);
    if KeepsLoopValue(full.events, n, {}) {
      ResumeExec(graph, graph.id, NewScope(), answers, {}, n);
    } else {
      LostExec(graph, graph.id, NewScope(), answers, n);
      var resumed := Exec(graph, graph.id, ApplyAll(NewScope(), full.events[..n]), answers);
      assert !EventAgrees({}, resumed.events[0], full.events[n..][0]);
    }
  }

  // ----- the same for chains

  /** A chain resumed where a loop's value is lost starts with the completion that lost it. */
  lemma {:induction false} ChainLoses(graph: Step, answers: Answers, m: nat, cuts: seq<nat>)
    requires UniqueIds(graph) && WellScoped(graph) && m < |Uncut(graph, answers).events|
    requires Uncut(graph, answers).events[m].exhausted
    ensures var s := ApplyAll(NewScope(), Uncut(graph, answers).events[..m]);
      LosesValue(Chain(graph, s, answers, cuts).events, Uncut(graph, answers).events[m])
    decreases |cuts|
  {
    var s := ApplyAll(NewScope(), Uncut(graph, answers).events[..m]);
    var r := Exec(graph, graph.id, s, answers);
    LostExec(graph, graph.id, NewScope(), answers, m);
    if cuts != [] && cuts[0] <= |r.events| {
      if cuts[0] == 0 {
        assert ApplyAll(s, r.events[..0]) == s;
        ChainLoses(graph, answers, m, cuts[1..]);
      }
      var done := r.events[..cuts[0]];
      var rest := Chain(graph, ApplyAll(s, done), answers, cuts[1..]);
      assert (done + rest.events)[0] == if cuts[0] == 0 then rest.events[0] else r.events[0];
    }
  }

  /** What follows an agreeing piece agrees exactly when the whole does. */
  lemma GlueIff(id: string, done: seq<Event>, rest: Run, full: Run, m: nat, c: nat)
    requires m + c <= |full.events| && EventsAgree({}, done, full.events[m..m + c])
    ensures RunsAgree({}, id, Run(done + rest.events, rest.out, false), After(full, m)) <==>
      RunsAgree({}, id, rest, After(full, m + c))
  {
    if RunsAgree({}, id, rest, After(full, m + c)) {
      GlueAgrees({}, id, done, rest, full, m, c);
    }
    if RunsAgree({}, id, Run(done + rest.events, rest.out, false), After(full, m)) {
      forall i | 0 <= i < |rest.events| ensures EventAgrees({}, rest.events[i], full.events[m + c..][i]) {
        assert EventAgrees({}, (done + rest.events)[c + i], full.events[m..][c + i]);
      }
    }
  }

  lemma {:induction false} SameScope(a: Scope, b: Scope)
    requires ScopesAgree({}, a, b)
    ensures a == b
  {
    assert a.results == b.results;
  }

  /** A run resumed exactly where the uncut run was, and cut again, is exactly where the uncut run would be. */
  lemma {:induction false} ExactCut(graph: Step, answers: Answers, m: nat, c: nat)
    requires UniqueIds(graph) && WellScoped(graph) && Closed(graph, {}) && m <= |Uncut(graph, answers).events|
    requires KeepsLoopValue(Uncut(graph, answers).events, m, {})
    requires c <= |Exec(graph, graph.id, ApplyAll(NewScope(), Uncut(graph, answers).events[..m]), answers).events|
    ensures var es := Uncut(graph, answers).events;
      var s := ApplyAll(NewScope(), es[..m]);
      var done := Exec(graph, graph.id, s, answers).events[..c];
      && m + c <= |es| && EventsAgree({}, done, es[m..m + c])
      && ApplyAll(s, done) == ApplyAll(NewScope(), es[..m + c])
  {
    var es := Uncut(graph, answers).events;
    var s := ApplyAll(NewScope(), es[..m]);
    ResumeCut(graph, s, answers, {}, m, c);
    SameScope(ApplyAll(s, Exec(graph, graph.id, s, answers).events[..c]), ApplyAll(NewScope(), es[..m + c]));
  }

  lemma {:induction false} ChainAgreesIff(graph: Step, answers: Answers, m: nat, cuts: seq<nat>)
    requires UniqueIds(graph) && WellScoped(graph) && m <= |Uncut(graph, answers).events|
    ensures var full := Uncut(graph, answers);
      var s := ApplyAll(NewScope(), full.events[..m]);
      RunsAgree({}, graph.id, Chain(graph, s, answers, cuts), After(full, m)) <==> CutsKeep(full.events, m, cuts, {})
    decreases |cuts|, 1
  {
    var full := Uncut(graph, answers);
    var s := ApplyAll(NewScope(), full.events[..m]);
    if !KeepsLoopValue(full.events, m, {}) {
      ChainLoses(graph, answers, m, cuts);
      assert !EventAgrees({}, Chain(graph, s, answers, cuts).events[0], After(full, m).events[0]);
    } else {
      NothingTainted(graph);
      ResumeRun(graph, s, answers, {}, m);
      var r := Exec(graph, graph.id, s, answers);
      if cuts != [] && cuts[0] <= |r.events| {
        CutChainAgreesIff(graph, answers, m, cuts);
      }
    }
  }

  lemma {:induction false} CutChainAgreesIff(graph: Step, answers: Answers, m: nat, cuts: seq<nat>)
    requires UniqueIds(graph) && WellScoped(graph) && m <= |Uncut(graph, answers).events| && cuts != []
    requires Closed(graph, {}) && KeepsLoopValue(Uncut(graph, answers).events, m, {})
    requires var s := ApplyAll(NewScope(), Uncut(graph, answers).events[..m]);
      cuts[0] <= |Exec(graph, graph.id, s, answers).events|
    ensures var full := Uncut(graph, answers);
      var s := ApplyAll(NewScope(), full.events[..m]);
      RunsAgree({}, graph.id, Chain(graph, s, answers, cuts), After(full, m)) <==> CutsKeep(full.events, m, cuts, {})
    decreases |cuts|, 0
  {
    var full := Uncut(graph, answers);
    var s := ApplyAll(NewScope(), full.events[..m]);
    var r, c := Exec(graph, graph.id, s, answers), cuts[0];
    var done := r.events[..c];
    ExactCut(graph, answers, m, c);
    ChainAgreesIff(graph, answers, m + c, cuts[1..]);
    var rest := Chain(graph, ApplyAll(s, done), answers, cuts[1..]);
    assert Chain(graph, s, answers, cuts) == Run(done + rest.events, rest.out, false);
    GlueIff(graph.id, done, rest, full, m, c);
    assert CutsKeep(full.events, m, cuts, {}) == CutsKeep(full.events, m + c, cuts[1..], {});
  }

  /**
   A chain of runs agrees with the uncut run in every result, composite ones
   included, exactly when none of its cuts falls between a loop's last permitted
   iteration and the loop's own completion with a value to lose; then it also
   leaves the same scope and the same value, and conditions may read loop values.
   */
  lemma ExactResume(graph: Step, answers: Answers, cuts: seq<nat>)
    requires UniqueIds(graph) && WellScoped(graph)
    ensures var chain, full := Chain(graph, NewScope(), answers, cuts), Uncut(graph, answers);
      && (RunsAgree({}, graph.id, chain, full) <==> CutsKeep(full.events, 0, cuts, {}))
      && (CutsKeep(full.events, 0, cuts, {}) ==>
            chain.out == full.out && ApplyAll(NewScope(), chain.events) == ApplyAll(NewScope(), full.events))
  {
    var full := Uncut(graph, answers);
    assert full.events[..0] == [] && After(full, 0) == full;
    ChainAgreesIff(graph, answers, 0, cuts);
    var chain := Chain(graph, NewScope(), answers, cuts);
    if RunsAgree({}, graph.id, chain, full) {
      ApplyAgrees({}, NewScope(), NewScope(), chain.events, full.events);
      SameScope(ApplyAll(NewScope(), chain.events), ApplyAll(NewScope(), full.events));
    }
  }
}
