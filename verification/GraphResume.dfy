/**
 Resume equivalence: a graph whose run is cut off at node boundaries, any number
 of times, and resumed from the carried scope means the same as one uncut run.
 */
module GraphResume {
  import opened GraphValues
  import opened GraphModel
  import opened GraphShape
  import opened GraphOnce

  // ----- agreement is kept by recording completions

  lemma {:induction false} ApplyAgrees(T: set<string>, a: Scope, b: Scope, es: seq<Event>, fs: seq<Event>)
    requires ScopesAgree(T, a, b) && EventsAgree(T, es, fs)
    ensures ScopesAgree(T, ApplyAll(a, es), ApplyAll(b, fs))
    decreases es
  {
    if es != [] {
      assert EventAgrees(T, es[0], fs[0]);
      assert EventsAgree(T, es[1..], fs[1..]) by {
        forall i | 0 <= i < |es| - 1 ensures EventAgrees(T, es[1..][i], fs[1..][i]) {
          assert EventAgrees(T, es[i + 1], fs[i + 1]);
        }
      }
      ApplyAgrees(T, Apply(a, es[0]), Apply(b, fs[0]), es[1..], fs[1..]);
    }
  }

  lemma ConcatAgrees(T: set<string>, a: seq<Event>, b: seq<Event>, c: seq<Event>, d: seq<Event>)
    requires EventsAgree(T, a, c) && EventsAgree(T, b, d)
    ensures EventsAgree(T, a + b, c + d)
  {
    forall i | 0 <= i < |a + b| ensures EventAgrees(T, (a + b)[i], (c + d)[i]) {
      if i < |a| {
        assert EventAgrees(T, a[i], c[i]);
      } else {
        assert EventAgrees(T, b[i - |a|], d[i - |a|]);
      }
    }
  }

  lemma ConditionAgrees(T: set<string>, a: Scope, b: Scope, c: Condition)
    requires ScopesAgree(T, a, b) && Reads(c) !in T
    ensures Matches(c, a.results) == Matches(c, b.results)
  {
    assert Lookup(a.results, Reads(c)) == Lookup(b.results, Reads(c));
  }

  ghost predicate RunsAgree(T: set<string>, id: string, a: Run, b: Run) {
    EventsAgree(T, a.events, b.events) && OutAgrees(T, id, a.out, b.out)
  }

  ghost predicate KidsAgree(T: set<string>, steps: seq<Step>, i: nat, a: KidsRun, b: KidsRun) {
    && EventsAgree(T, a.events, b.events)
    && a.values.Some? == b.values.Some?
    && (a.values.Some? ==>
          && i <= |steps| && |a.values.value| == |b.values.value| == |steps| - i
          && forall j :: i <= j < |steps| && steps[j].id !in T
               ==> a.values.value[j - i] == b.values.value[j - i])
  }

  // ----- executions from agreeing scopes agree

  lemma {:induction false} ExecAgrees(step: Step, path: string, a: Scope, b: Scope, answers: Answers, T: set<string>)
    requires Closed(step, T) && ScopesAgree(T, a, b)
    ensures RunsAgree(T, step.id, Exec(step, path, a, answers), Exec(step, path, b, answers))
    decreases step, 2, 0
  {
    if path !in a.journal {
      StepAgrees(step, path, a, b, answers, T);
    }
  }

  lemma {:induction false} StepAgrees(step: Step, path: string, a: Scope, b: Scope, answers: Answers, T: set<string>)
    requires Closed(step, T) && ScopesAgree(T, a, b)
    ensures RunsAgree(T, step.id, RunStep(step, path, a, answers), RunStep(step, path, b, answers))
    decreases step, 1, 0
  {
    match step
    case Leaf(_, _) =>
    case Sequence(_, steps) =>
      KidsRunAgrees(step, steps, path, 0, a, b, answers, T);
      ValueAgrees(step, RunKids(steps, path, 0, a, answers), RunKids(steps, path, 0, b, answers), T);
    case Fanout(_, steps) =>
      KidsRunAgrees(step, steps, path, 0, a, b, answers, T);
      ValueAgrees(step, RunKids(steps, path, 0, a, answers), RunKids(steps, path, 0, b, answers), T);
    case Branch(_, condition, onTrue, onFalse) =>
      ConditionAgrees(T, a, b, condition);
      assert Kids(step)[0] == onTrue;
      if Matches(condition, a.results) {
        ExecAgrees(onTrue, BranchKey(path, true, onTrue.id), a, b, answers, T);
      } else if onFalse.Some? {
        assert Kids(step)[1] == onFalse.value;
        ExecAgrees(onFalse.value, BranchKey(path, false, onFalse.value.id), a, b, answers, T);
      }
    case Loop(_, body, _, until) =>
      ConditionAgrees(T, a, b, until);
      assert Kids(step)[0] == body;
      LoopAgrees(step, path, FirstOpen(step, path, 0, a.journal), a, b, Undefined, Undefined, answers, T);
  }

  /** The value of a sequence or a fan-out agrees when its children's values do. */
  lemma ValueAgrees(step: Step, a: KidsRun, b: KidsRun, T: set<string>)
    requires (step.Sequence? || step.Fanout?) && Closed(step, T) && KidsAgree(T, Kids(step), 0, a, b)
    ensures a.values.Some? && step.id !in T ==>
      && (step.Fanout? ==> a.values.value == b.values.value)
      && (step.Sequence? ==> LastValue(a.values.value) == LastValue(b.values.value))
  {
    if a.values.Some? && step.id !in T {
      forall j | 0 <= j < |step.steps| && (step.Sequence? ==> j == |step.steps| - 1)
        ensures a.values.value[j] == b.values.value[j]
      {
        assert Kids(step)[j].id !in T;
      }
    }
  }

  lemma {:induction false} KidsRunAgrees(
      step: Step, steps: seq<Step>, path: string, i: nat, a: Scope, b: Scope, answers: Answers, T: set<string>)
    requires i <= |steps| && steps == Kids(step) && (step.Sequence? || step.Fanout?)
    requires Closed(step, T) && ScopesAgree(T, a, b)
    ensures KidsAgree(T, steps, i, RunKids(steps, path, i, a, answers), RunKids(steps, path, i, b, answers))
    decreases step, 0, |steps| - i
  {
    if i < |steps| {
      var key := ChildKey(path, i, steps[i].id);
      ExecAgrees(steps[i], key, a, b, answers, T);
      var x, y := Exec(steps[i], key, a, answers), Exec(steps[i], key, b, answers);
      ApplyAgrees(T, a, b, x.events, y.events);
      if x.out.Done? {
        var a', b' := ApplyAll(a, x.events), ApplyAll(b, y.events);
        KidsRunAgrees(step, steps, path, i + 1, a', b', answers, T);
        var rest := RunKids(steps, path, i + 1, b', answers);
        assert After(y, 0) == y && KidsAfter(Prepend(y, rest), 0) == Prepend(y, rest);
        PrependAgrees(T, steps, i, x, RunKids(steps, path, i + 1, a', answers), y, rest, 0);
      }
    }
  }

  lemma {:induction false} LoopAgrees(
      step: Step, path: string, i: nat, a: Scope, b: Scope, u: Json, v: Json, answers: Answers, T: set<string>)
    requires step.Loop? && Closed(step, T) && ScopesAgree(T, a, b)
    requires step.id !in T ==> u == v
    ensures RunsAgree(T, step.id, RunLoop(step, path, i, a, u, answers), RunLoop(step, path, i, b, v, answers))
    decreases step, 0, step.maxIterations - i
  {
    assert Kids(step)[0] == step.body;
    if i < step.maxIterations {
      var key := IterKey(path, i, step.body.id);
      ExecAgrees(step.body, key, a, b, answers, T);
      var x, y := Exec(step.body, key, a, answers), Exec(step.body, key, b, answers);
      ApplyAgrees(T, a, b, x.events, y.events);
      if x.out.Done? {
        var a', b' := ApplyAll(a, x.events), ApplyAll(b, y.events);
        ConditionAgrees(T, a', b', step.until);
        if !Matches(step.until, a'.results) {
          LoopAgrees(step, path, i + 1, a', b', x.out.value, y.out.value, answers, T);
          ConcatAgrees(T, x.events, RunLoop(step, path, i + 1, a', x.out.value, answers).events,
                       y.events, RunLoop(step, path, i + 1, b', y.out.value, answers).events);
        }
      }
    }
  }

  // ----- resuming one node

  /** No journalled key lies at or below `path`: the node has not been entered. */
  ghost predicate Fresh(journal: set<string>, path: string) {
    forall k :: k in journal ==> !(path <= k)
  }

  /** Completions below one child leave its later siblings fresh. */
  ghost predicate FreshKids(journal: set<string>, steps: seq<Step>, path: string, i: nat) {
    forall j :: i <= j < |steps| ==> Fresh(journal, ChildKey(path, j, steps[j].id))
  }

  ghost predicate FreshIters(journal: set<string>, step: Step, path: string, i: nat)
    requires step.Loop?
  {
    forall j: nat :: i <= j ==> Fresh(journal, IterKey(path, j, step.body.id))
  }

  lemma FreshLaterKids(s: Scope, es: seq<Event>, steps: seq<Step>, path: string, i: nat)
    requires i < |steps| && FreshKids(s.journal, steps, path, i)
    requires Under(es, ChildKey(path, i, steps[i].id))
    ensures FreshKids(ApplyAll(s, es).journal, steps, path, i + 1)
  {
    ApplyAllEffect(s, es);
    forall j, k | i + 1 <= j < |steps| && k in s.journal + Keys(es) ensures !(ChildKey(path, j, steps[j].id) <= k) {
      if k in Keys(es) && ChildKey(path, j, steps[j].id) <= k {
        SiblingKeys(path, i, steps[i].id, j, steps[j].id, k);
      }
    }
  }

  lemma FreshLaterIters(s: Scope, es: seq<Event>, step: Step, path: string, i: nat)
    requires step.Loop? && FreshIters(s.journal, step, path, i)
    requires Under(es, IterKey(path, i, step.body.id))
    ensures FreshIters(ApplyAll(s, es).journal, step, path, i + 1)
  {
    ApplyAllEffect(s, es);
    forall j: nat, k | i + 1 <= j && k in s.journal + Keys(es) ensures !(IterKey(path, j, step.body.id) <= k) {
      if k in Keys(es) && IterKey(path, j, step.body.id) <= k {
        IterationKeys(path, i, step.body.id, j, step.body.id, k);
      }
    }
  }

  /**
   A cut before completion `n` of `es` is harmless for ids outside `T`: the next
   completion is not a loop that ran out of iterations with a value to lose.
   */
  ghost predicate KeepsLoopValue(es: seq<Event>, n: nat, T: set<string>) {
    n < |es| && es[n].exhausted && es[n].value != Undefined ==> es[n].id in T
  }

  /** What is left of a run after its first `n` completions. */
  function After(r: Run, n: nat): Run
    requires n <= |r.events|
  {
    Run(r.events[n..], r.out, r.exhausted)
  }

  function KidsAfter(r: KidsRun, n: nat): KidsRun
    requires n <= |r.events|
  {
    KidsRun(r.events[n..], r.values)
  }

  // How agreement after a cut is put together from the parts of a run.

  lemma RecordAgrees(T: set<string>, step: Step, path: string, again: Run, inner: Run, n: nat)
    requires n <= |inner.events| && RunsAgree(T, step.id, again, After(inner, n))
    requires step.Leaf? ==> step.id !in T
    ensures Record(step, path, inner).events[..n] == inner.events[..n]
    ensures RunsAgree(T, step.id, Record(step, path, again), After(Record(step, path, inner), n))
  {
    var r, r' := Record(step, path, inner), Record(step, path, again);
    if inner.out.Done? {
      var own, mine := r.events[|inner.events|], r'.events[|again.events|];
      assert r.events[n..] == inner.events[n..] + [own];
      ConcatAgrees(T, again.events, [mine], inner.events[n..], [own]);
    }
  }

  lemma PrependAgrees(
      T: set<string>, steps: seq<Step>, i: nat, again: Run, rest': KidsRun, head: Run, rest: KidsRun, n: nat)
    requires i < |steps| && n <= |head.events| && head.out.Done?
    requires RunsAgree(T, steps[i].id, again, After(head, n)) && KidsAgree(T, steps, i + 1, rest', rest)
    ensures Prepend(head, rest).events[..n] == head.events[..n]
    ensures KidsAgree(T, steps, i, Prepend(again, rest'), KidsAfter(Prepend(head, rest), n))
  {
    ConcatAgrees(T, again.events, rest'.events, head.events[n..], rest.events);
    assert Prepend(head, rest).events[n..] == head.events[n..] + rest.events;
  }

  lemma PrependCached(
      T: set<string>, steps: seq<Step>, i: nat, rest': KidsRun, head: Run, rest: KidsRun, n: nat)
    requires i < |steps| && head.out.Done? && n <= |rest.events|
    requires KidsAgree(T, steps, i + 1, rest', KidsAfter(rest, n))
    ensures Prepend(head, rest).events[..|head.events| + n] == head.events + rest.events[..n]
    ensures KidsAgree(T, steps, i, Prepend(Run([], head.out, false), rest'),
                      KidsAfter(Prepend(head, rest), |head.events| + n))
  {
    assert [] + rest'.events == rest'.events;
    assert Prepend(head, rest).events[|head.events| + n..] == rest.events[n..];
  }

  lemma ThenAgrees(T: set<string>, id: string, again: Run, rest': Run, head: Run, rest: Run, n: nat)
    requires n <= |head.events|
    requires EventsAgree(T, again.events, head.events[n..]) && RunsAgree(T, id, rest', rest)
    ensures Then(head, rest).events[..n] == head.events[..n]
    ensures RunsAgree(T, id, Then(again, rest'), After(Then(head, rest), n))
  {
    ConcatAgrees(T, again.events, rest'.events, head.events[n..], rest.events);
    assert Then(head, rest).events[n..] == head.events[n..] + rest.events;
  }

  lemma ThenSplit(head: Run, rest: Run, n: nat)
    requires n <= |rest.events|
    ensures Then(head, rest).events[..|head.events| + n] == head.events + rest.events[..n]
    ensures After(Then(head, rest), |head.events| + n) == After(rest, n)
  {
  }

  // ----- resuming one node

  /** The static hypotheses under which a node may be cut and resumed. */
  ghost predicate Resumable(step: Step, T: set<string>) {
    UniqueIds(step) && WellScoped(step) && Closed(step, T)
  }

  lemma ResumableKid(step: Step, T: set<string>, i: nat)
    requires Resumable(step, T) && i < |Kids(step)|
    ensures Resumable(Kids(step)[i], T)
    ensures step.Branch? && Kids(step)[i].id in T ==> step.id in T
  {
  }

  lemma {:induction false} ResumeExec(step: Step, path: string, s: Scope, answers: Answers, T: set<string>, n: nat)
    requires Resumable(step, T) && Fresh(s.journal, path)
    requires n <= |Exec(step, path, s, answers).events|
    requires KeepsLoopValue(Exec(step, path, s, answers).events, n, T)
    ensures var r := Exec(step, path, s, answers);
      RunsAgree(T, step.id, Exec(step, path, ApplyAll(s, r.events[..n]), answers), After(r, n))
    decreases step, 2, 0
  {
    var inner := RunStep(step, path, s, answers);
    assert path !in s.journal;
    StepShape(step, path, s, answers);
    if n == |inner.events| + 1 {
      CachedNode(step, path, s, answers);
    } else {
      ResumeStep(step, path, s, answers, T, n);
      ReachNode(step, path, s, inner.events[..n]);
      RecordAgrees(T, step, path, RunStep(step, path, ApplyAll(s, inner.events[..n]), answers), inner, n);
    }
  }

  lemma CachedNode(step: Step, path: string, s: Scope, answers: Answers)
    requires path !in s.journal && RunStep(step, path, s, answers).out.Done?
    ensures var r := Exec(step, path, s, answers);
      && Exec(step, path, ApplyAll(s, r.events), answers) == Run([], r.out, false)
      && r.events[..|r.events|] == r.events
  {
    var inner := RunStep(step, path, s, answers);
    var r := Record(step, path, inner);
    RecordedResult(s, inner.events, r.events[|inner.events|]);
  }

  lemma ReachNode(step: Step, path: string, s: Scope, es: seq<Event>)
    requires path !in s.journal && StrictlyUnder(es, path)
    ensures path !in ApplyAll(s, es).journal
  {
    ApplyAllEffect(s, es);
  }

  lemma {:induction false} ResumeStep(step: Step, path: string, s: Scope, answers: Answers, T: set<string>, n: nat)
    requires Resumable(step, T) && Fresh(s.journal, path)
    requires n <= |RunStep(step, path, s, answers).events|
    requires KeepsLoopValue(Record(step, path, RunStep(step, path, s, answers)).events, n, T)
    ensures var r := RunStep(step, path, s, answers);
      RunsAgree(T, step.id, RunStep(step, path, ApplyAll(s, r.events[..n]), answers), After(r, n))
    decreases step, 1, 0
  {
    match step
    case Leaf(_, _) =>
    case Sequence(_, steps) => ResumeChildren(step, path, s, answers, T, n);
    case Fanout(_, steps) => ResumeChildren(step, path, s, answers, T, n);
    case Branch(_, _, _, _) => ResumeBranch(step, path, s, answers, T, n);
    case Loop(_, _, _, _) =>
      StartsAt(step, path, 0, s.journal);
      ResumeLoop(step, path, s, answers, T, n);
  }

  lemma {:induction false} ResumeBranch(step: Step, path: string, s: Scope, answers: Answers, T: set<string>, n: nat)
    requires Resumable(step, T) && Fresh(s.journal, path) && step.Branch?
    requires n <= |RunStep(step, path, s, answers).events|
    requires KeepsLoopValue(RunStep(step, path, s, answers).events, n, T)
    ensures var r := RunStep(step, path, s, answers);
      RunsAgree(T, step.id, RunStep(step, path, ApplyAll(s, r.events[..n]), answers), After(r, n))
    decreases step, 0, 0
  {
    var r := RunStep(step, path, s, answers);
    StepShape(step, path, s, answers);
    UntouchedCondition(s, r.events[..n], KidIds(step), step.condition);
    if Matches(step.condition, s.results) {
      ResumableKid(step, T, 0);
      ResumeExec(step.onTrue, BranchKey(path, true, step.onTrue.id), s, answers, T, n);
    } else if step.onFalse.Some? {
      ResumableKid(step, T, 1);
      ResumeExec(step.onFalse.value, BranchKey(path, false, step.onFalse.value.id), s, answers, T, n);
    }
  }

  lemma {:induction false} ResumeChildren(step: Step, path: string, s: Scope, answers: Answers, T: set<string>, n: nat)
    requires Resumable(step, T) && Fresh(s.journal, path) && (step.Sequence? || step.Fanout?)
    requires n <= |RunStep(step, path, s, answers).events|
    requires KeepsLoopValue(RunStep(step, path, s, answers).events, n, T)
    ensures var r := RunStep(step, path, s, answers);
      RunsAgree(T, step.id, RunStep(step, path, ApplyAll(s, r.events[..n]), answers), After(r, n))
    decreases step, 0, |step.steps| + 1, 0
  {
    var r := RunKids(step.steps, path, 0, s, answers);
    ResumeKids(step, step.steps, path, 0, s, answers, T, n);
    ValueAgrees(step, RunKids(step.steps, path, 0, ApplyAll(s, r.events[..n]), answers), KidsAfter(r, n), T);
  }

  lemma {:induction false} ResumeKids(
      step: Step, steps: seq<Step>, path: string, i: nat, s: Scope, answers: Answers, T: set<string>, n: nat)
    requires i <= |steps| && steps == Kids(step) && (step.Sequence? || step.Fanout?)
    requires Resumable(step, T) && FreshKids(s.journal, steps, path, i)
    requires n <= |RunKids(steps, path, i, s, answers).events|
    requires KeepsLoopValue(RunKids(steps, path, i, s, answers).events, n, T)
    ensures var r := RunKids(steps, path, i, s, answers);
      KidsAgree(T, steps, i, RunKids(steps, path, i, ApplyAll(s, r.events[..n]), answers), KidsAfter(r, n))
    decreases step, 0, |steps| - i, 1
  {
    if i < |steps| {
      var key := ChildKey(path, i, steps[i].id);
      var head := Exec(steps[i], key, s, answers);
      ResumableKid(step, T, i);
      if n <= |head.events| {
        ResumeExec(steps[i], key, s, answers, T, n);
        FinishKids(step, steps, path, i, s, answers, T, n);
      } else {
        ExecShape(steps[i], key, s, answers);
        FreshLaterKids(s, head.events, steps, path, i);
        ResumeLaterKids(step, steps, path, i, s, answers, T, n);
      }
    }
  }

  lemma {:induction false} ResumeLaterKids(
      step: Step, steps: seq<Step>, path: string, i: nat, s: Scope, answers: Answers, T: set<string>, n: nat)
    requires i < |steps| && steps == Kids(step) && (step.Sequence? || step.Fanout?) && Resumable(step, T)
    requires Fresh(s.journal, ChildKey(path, i, steps[i].id))
    requires var head := Exec(steps[i], ChildKey(path, i, steps[i].id), s, answers);
      var next := ApplyAll(s, head.events);
      var rest := RunKids(steps, path, i + 1, next, answers);
      && head.out.Done? && |head.events| <= n <= |head.events| + |rest.events|
      && FreshKids(next.journal, steps, path, i + 1)
      && KeepsLoopValue(Prepend(head, rest).events, n, T)
    ensures var r := RunKids(steps, path, i, s, answers);
      && n <= |r.events|
      && KidsAgree(T, steps, i, RunKids(steps, path, i, ApplyAll(s, r.events[..n]), answers), KidsAfter(r, n))
    decreases step, 0, |steps| - i, 0
  {
    var head := Exec(steps[i], ChildKey(path, i, steps[i].id), s, answers);
    var next := ApplyAll(s, head.events);
    var m := n - |head.events|;
    KeepsLater(head.events, RunKids(steps, path, i + 1, next, answers).events, m, T);
    ResumeKids(step, steps, path, i + 1, next, answers, T, m);
    EarlierId(step, i);
    KidsShape(step, steps, path, i + 1, next, answers);
    SkipKid(steps, path, i, s, answers, T, n, m);
  }

  lemma KeepsLater(a: seq<Event>, b: seq<Event>, m: nat, T: set<string>)
    requires m <= |b| && KeepsLoopValue(a + b, |a| + m, T)
    ensures KeepsLoopValue(b, m, T)
  {
    assert m < |b| ==> (a + b)[|a| + m] == b[m];
  }

  /** A resumed child that agrees with the uncut one is followed by agreeing siblings. */
  lemma {:induction false} FinishKids(
      step: Step, steps: seq<Step>, path: string, i: nat, s: Scope, answers: Answers, T: set<string>, n: nat)
    requires i < |steps| && steps == Kids(step) && (step.Sequence? || step.Fanout?) && Closed(step, T)
    requires var key := ChildKey(path, i, steps[i].id);
      var head := Exec(steps[i], key, s, answers);
      && n <= |head.events|
      && RunsAgree(T, steps[i].id, Exec(steps[i], key, ApplyAll(s, head.events[..n]), answers), After(head, n))
    ensures var r := RunKids(steps, path, i, s, answers);
      && n <= |r.events|
      && KidsAgree(T, steps, i, RunKids(steps, path, i, ApplyAll(s, r.events[..n]), answers), KidsAfter(r, n))
  {
    var key := ChildKey(path, i, steps[i].id);
    var head := Exec(steps[i], key, s, answers);
    var s' := ApplyAll(s, head.events[..n]);
    var again := Exec(steps[i], key, s', answers);
    if head.out.Done? {
      var next, next' := ApplyAll(s, head.events), ApplyAll(s', again.events);
      ApplyAllSplit(s, head.events, n);
      ApplyAgrees(T, s', s', again.events, head.events[n..]);
      KidsRunAgrees(step, steps, path, i + 1, next', next, answers, T);
      PrependAgrees(T, steps, i, again, RunKids(steps, path, i + 1, next', answers),
                    head, RunKids(steps, path, i + 1, next, answers), n);
    }
  }

  lemma EarlierId(step: Step, i: nat)
    requires UniqueIds(step) && i < |Kids(step)|
    ensures Kids(step)[i].id !in LaterIds(Kids(step), i + 1)
  {
    var kids := Kids(step);
    forall j | i + 1 <= j < |kids| ensures kids[i].id !in Ids(kids[j]) {
      assert Ids(kids[i]) !! Ids(kids[j]);
    }
  }

  /** A cut after a child's completion: the child is a cache hit with its own value. */
  lemma {:induction false} SkipKid(
      steps: seq<Step>, path: string, i: nat, s: Scope, answers: Answers, T: set<string>, n: nat, m: nat)
    requires i < |steps|
    requires steps[i].id !in LaterIds(steps, i + 1) && Fresh(s.journal, ChildKey(path, i, steps[i].id))
    requires Exec(steps[i], ChildKey(path, i, steps[i].id), s, answers).out.Done?
    requires var head := Exec(steps[i], ChildKey(path, i, steps[i].id), s, answers);
      var next := ApplyAll(s, head.events);
      var rest := RunKids(steps, path, i + 1, next, answers);
      && n == |head.events| + m && m <= |rest.events| && IdsIn(rest.events, LaterIds(steps, i + 1))
      && KidsAgree(T, steps, i + 1, RunKids(steps, path, i + 1, ApplyAll(next, rest.events[..m]), answers),
                   KidsAfter(rest, m))
    ensures var r := RunKids(steps, path, i, s, answers);
      && n <= |r.events|
      && KidsAgree(T, steps, i, RunKids(steps, path, i, ApplyAll(s, r.events[..n]), answers), KidsAfter(r, n))
  {
    var key := ChildKey(path, i, steps[i].id);
    var head := Exec(steps[i], key, s, answers);
    var next := ApplyAll(s, head.events);
    var rest := RunKids(steps, path, i + 1, next, answers);
    ApplyAllConcat(s, head.events, rest.events[..m]);
    var s' := ApplyAll(next, rest.events[..m]);
    DoneChild(steps[i], key, s, answers, rest.events[..m], LaterIds(steps, i + 1));
    var rest' := RunKids(steps, path, i + 1, s', answers);
    PrependCached(T, steps, i, rest', head, rest, m);
    CachedKid(steps, path, i, s', answers, head.out);
  }

  /** Children that start with a cache hit. */
  lemma {:induction false} CachedKid(
      steps: seq<Step>, path: string, i: nat, s: Scope, answers: Answers, out: Outcome)
    requires i < |steps| && out.Done?
    requires Exec(steps[i], ChildKey(path, i, steps[i].id), s, answers) == Run([], out, false)
    ensures RunKids(steps, path, i, s, answers)
         == Prepend(Run([], out, false), RunKids(steps, path, i + 1, s, answers))
  {
    assert ApplyAll(s, []) == s;
  }

  /** A completed child is a cache hit with its own value, whatever its siblings did since. */
  lemma DoneChild(child: Step, key: string, s: Scope, answers: Answers, later: seq<Event>, ids: set<string>)
    requires Fresh(s.journal, key) && Exec(child, key, s, answers).out.Done?
    requires IdsIn(later, ids) && child.id !in ids
    ensures var r := Exec(child, key, s, answers);
      Exec(child, key, ApplyAll(ApplyAll(s, r.events), later), answers) == Run([], r.out, false)
  {
    var r := Exec(child, key, s, answers);
    assert key !in s.journal;
    var inner := RunStep(child, key, s, answers);
    RecordedResult(s, inner.events, r.events[|inner.events|]);
    var next := ApplyAll(s, r.events);
    ApplyAllEffect(next, later);
    UntouchedResult(next, later, ids, child.id);
  }

  // ----- resuming a loop

  /** A loop between iterations: those before `i` are journalled, and `until` did not stop it. */
  ghost predicate BetweenIterations(step: Step, path: string, i: nat, s: Scope)
    requires step.Loop?
  {
    && FreshIters(s.journal, step, path, i)
    && (forall j: nat :: j < i ==> IterKey(path, j, step.body.id) in s.journal)
    && (i <= step.maxIterations || i == 0)
    && (i > 0 ==> !Matches(step.until, s.results))
  }

  lemma StartsAt(step: Step, path: string, i: nat, journal: set<string>)
    requires step.Loop? && (i <= step.maxIterations || i == 0)
    requires forall j: nat :: j < i ==> IterKey(path, j, step.body.id) in journal
    requires i < step.maxIterations ==> IterKey(path, i, step.body.id) !in journal
    ensures FirstOpen(step, path, 0, journal) == i
  {
  }

  /** What happens to a loop whose first `m` completions from iteration `j` on are kept. */
  ghost predicate InIteration(step: Step, path: string, j: nat, t: Scope, answers: Answers, m: nat)
    requires step.Loop?
  {
    j < step.maxIterations ==>
      var head := Exec(step.body, IterKey(path, j, step.body.id), t, answers);
      head.out.Threw? || m < |head.events| ||
      (m == |head.events| && Matches(step.until, ApplyAll(t, head.events).results))
  }

  /** Any cut of a loop falls inside one iteration, or after the last one. */
  lemma {:induction false} LocateIteration(
      step: Step, path: string, i: nat, s: Scope, last: Json, answers: Answers, n: nat)
      returns (j: nat, t: Scope, v: Json, m: nat)
    requires step.Loop? && BetweenIterations(step, path, i, s)
    requires n <= |RunLoop(step, path, i, s, last, answers).events|
    ensures BetweenIterations(step, path, j, t) && m <= |RunLoop(step, path, j, t, v, answers).events|
    ensures InIteration(step, path, j, t, answers, m)
    ensures var r, q := RunLoop(step, path, i, s, last, answers), RunLoop(step, path, j, t, v, answers);
      && ApplyAll(s, r.events[..n]) == ApplyAll(t, q.events[..m])
      && After(r, n) == After(q, m)
    decreases step.maxIterations - i
  {
    if InIteration(step, path, i, s, answers, n) {
      j, t, v, m := i, s, last, n;
    } else {
      var next, value, left := LeaveIteration(step, path, i, s, last, answers, n);
      j, t, v, m := LocateIteration(step, path, i + 1, next, value, answers, left);
    }
  }

  /** A cut beyond an iteration is a cut of the loop that goes on after it. */
  lemma {:induction false} LeaveIteration(
      step: Step, path: string, i: nat, s: Scope, last: Json, answers: Answers, n: nat)
      returns (next: Scope, value: Json, left: nat)
    requires step.Loop? && BetweenIterations(step, path, i, s)
    requires n <= |RunLoop(step, path, i, s, last, answers).events|
    requires !InIteration(step, path, i, s, answers, n)
    ensures i < step.maxIterations && BetweenIterations(step, path, i + 1, next)
    ensures left <= |RunLoop(step, path, i + 1, next, value, answers).events|
    ensures var r, q := RunLoop(step, path, i, s, last, answers), RunLoop(step, path, i + 1, next, value, answers);
      && ApplyAll(s, r.events[..n]) == ApplyAll(next, q.events[..left])
      && After(r, n) == After(q, left)
  {
    var head := Exec(step.body, IterKey(path, i, step.body.id), s, answers);
    BeyondIteration(step, path, i, s, last, answers, n);
    NextIteration(step, path, i, s, answers);
    next, value, left := ApplyAll(s, head.events), head.out.value, n - |head.events|;
    SkipIteration(step, path, i, s, last, answers, left);
  }

  lemma {:induction false} BeyondIteration(
      step: Step, path: string, i: nat, s: Scope, last: Json, answers: Answers, n: nat)
    requires step.Loop? && n <= |RunLoop(step, path, i, s, last, answers).events|
    requires !InIteration(step, path, i, s, answers, n)
    ensures i < step.maxIterations
    ensures var head := Exec(step.body, IterKey(path, i, step.body.id), s, answers);
      && head.out.Done? && |head.events| <= n
      && !Matches(step.until, ApplyAll(s, head.events).results)
      && n <= |head.events| + |RunLoop(step, path, i + 1, ApplyAll(s, head.events), head.out.value, answers).events|
  {
  }

  lemma {:induction false} ResumeLoop(step: Step, path: string, s: Scope, answers: Answers, T: set<string>, n: nat)
    requires step.Loop? && Resumable(step, T) && BetweenIterations(step, path, 0, s)
    requires n <= |RunLoop(step, path, 0, s, Undefined, answers).events|
    requires KeepsLoopValue(Record(step, path, RunLoop(step, path, 0, s, Undefined, answers)).events, n, T)
    ensures var r := RunLoop(step, path, 0, s, Undefined, answers);
      RunsAgree(T, step.id, RunStep(step, path, ApplyAll(s, r.events[..n]), answers), After(r, n))
    decreases step, 0, 0
  {
    var r := RunLoop(step, path, 0, s, Undefined, answers);
    var j, t, v, m := LocateIteration(step, path, 0, s, Undefined, answers, n);
    var q := RunLoop(step, path, j, t, v, answers);
    RecordAfter(step, path, r, n);
    RecordAfter(step, path, q, m);
    KeepsSame(Record(step, path, r).events, n, Record(step, path, q).events, m, T);
    var key := IterKey(path, j, step.body.id);
    if j >= step.maxIterations {
      StartsAt(step, path, j, t.journal);
      assert q.events[..m] == [] && ApplyAll(t, q.events[..m]) == t;
    } else {
      var head := Exec(step.body, key, t, answers);
      if head.out.Threw? || m < |head.events| {
        ResumableKid(step, T, 0);
        ResumeExec(step.body, key, t, answers, T, m);
        CutIteration(step, path, j, t, answers, m);
        FinishIteration(step, path, j, t, v, answers, T, m);
      } else {
        NextIteration(step, path, j, t, answers);
        assert q == head && q.events[..m] == head.events;
      }
    }
  }

  lemma RecordAfter(step: Step, path: string, r: Run, n: nat)
    requires n <= |r.events|
    ensures Record(step, path, r).events[n..] == Record(step, path, After(r, n)).events
  {
  }

  lemma KeepsSame(es: seq<Event>, n: nat, fs: seq<Event>, m: nat, T: set<string>)
    requires n <= |es| && m <= |fs| && es[n..] == fs[m..] && KeepsLoopValue(es, n, T)
    ensures KeepsLoopValue(fs, m, T)
  {
    assert m < |fs| ==> es[n..][0] == fs[m..][0];
  }

  /** What a loop does after a completed iteration is what it does from the next one on. */
  lemma {:induction false} SkipIteration(
      step: Step, path: string, i: nat, s: Scope, last: Json, answers: Answers, m: nat)
    requires step.Loop? && i < step.maxIterations
    requires Exec(step.body, IterKey(path, i, step.body.id), s, answers).out.Done?
    requires var head := Exec(step.body, IterKey(path, i, step.body.id), s, answers);
      var next := ApplyAll(s, head.events);
      && !Matches(step.until, next.results)
      && m <= |RunLoop(step, path, i + 1, next, head.out.value, answers).events|
    ensures var head := Exec(step.body, IterKey(path, i, step.body.id), s, answers);
      var next := ApplyAll(s, head.events);
      var rest := RunLoop(step, path, i + 1, next, head.out.value, answers);
      var r := RunLoop(step, path, i, s, last, answers);
      var n := |head.events| + m;
      && n <= |r.events| && After(r, n) == After(rest, m)
      && ApplyAll(s, r.events[..n]) == ApplyAll(next, rest.events[..m])
  {
    var head := Exec(step.body, IterKey(path, i, step.body.id), s, answers);
    var next := ApplyAll(s, head.events);
    var rest := RunLoop(step, path, i + 1, next, head.out.value, answers);
    assert RunLoop(step, path, i, s, last, answers) == Then(head, rest);
    ThenSplit(head, rest, m);
    ApplyAllConcat(s, head.events, rest.events[..m]);
  }

  /** A completed iteration leaves the loop ready for the next, or for `until` to stop it with the same value. */
  lemma {:induction false} NextIteration(step: Step, path: string, i: nat, s: Scope, answers: Answers)
    requires step.Loop? && i < step.maxIterations && BetweenIterations(step, path, i, s)
    requires Exec(step.body, IterKey(path, i, step.body.id), s, answers).out.Done?
    ensures var head := Exec(step.body, IterKey(path, i, step.body.id), s, answers);
      var next := ApplyAll(s, head.events);
      && head.events[..|head.events|] == head.events
      && (!Matches(step.until, next.results) ==> BetweenIterations(step, path, i + 1, next))
      && (Matches(step.until, next.results) ==> RunStep(step, path, next, answers) == Run([], head.out, false))
  {
    var key := IterKey(path, i, step.body.id);
    var head := Exec(step.body, key, s, answers);
    assert key !in s.journal;
    ExecShape(step.body, key, s, answers);
    var next := ApplyAll(s, head.events);
    ApplyAllEffect(s, head.events);
    FreshLaterIters(s, head.events, step, path, i);
    StartsAt(step, path, i + 1, next.journal);
    DoneChild(step.body, key, s, answers, [], {});
  }

  /** A cut inside iteration `i`: the loop restarts at `i`, and `until` still does not stop it. */
  lemma {:induction false} CutIteration(step: Step, path: string, i: nat, s: Scope, answers: Answers, n: nat)
    requires step.Loop? && WellScoped(step) && BetweenIterations(step, path, i, s) && i < step.maxIterations
    requires var head := Exec(step.body, IterKey(path, i, step.body.id), s, answers);
      n <= |head.events| && (head.out.Threw? || n < |head.events|)
    ensures var s' := ApplyAll(s, Exec(step.body, IterKey(path, i, step.body.id), s, answers).events[..n]);
      RunStep(step, path, s', answers) == RunLoop(step, path, i, s', Undefined, answers)
  {
    var key := IterKey(path, i, step.body.id);
    var head := Exec(step.body, key, s, answers);
    var inner := RunStep(step.body, key, s, answers);
    assert key !in s.journal;
    StepShape(step.body, key, s, answers);
    var cut := head.events[..n];
    assert cut == inner.events[..n];
    var s' := ApplyAll(s, cut);
    ApplyAllEffect(s, cut);
    StartsAt(step, path, i, s'.journal);
    UntouchedCondition(s, cut, KidIds(step.body), step.until);
  }

  /** A resumed iteration that agrees with the uncut one is followed by agreeing iterations. */
  lemma {:induction false} FinishIteration(
      step: Step, path: string, i: nat, s: Scope, last: Json, answers: Answers, T: set<string>, n: nat)
    requires step.Loop? && Closed(step, T) && i < step.maxIterations
    requires var key := IterKey(path, i, step.body.id);
      var head := Exec(step.body, key, s, answers);
      && n <= |head.events|
      && RunsAgree(T, step.body.id, Exec(step.body, key, ApplyAll(s, head.events[..n]), answers), After(head, n))
    ensures var r := RunLoop(step, path, i, s, last, answers);
      && n <= |r.events|
      && r.events[..n] == Exec(step.body, IterKey(path, i, step.body.id), s, answers).events[..n]
      && RunsAgree(T, step.id, RunLoop(step, path, i, ApplyAll(s, r.events[..n]), Undefined, answers), After(r, n))
  {
    var key := IterKey(path, i, step.body.id);
    var head := Exec(step.body, key, s, answers);
    var s' := ApplyAll(s, head.events[..n]);
    var again := Exec(step.body, key, s', answers);
    assert Kids(step)[0] == step.body;
    if head.out.Done? {
      var next, next' := ApplyAll(s, head.events), ApplyAll(s', again.events);
      ApplyAllSplit(s, head.events, n);
      ApplyAgrees(T, s', s', again.events, head.events[n..]);
      ConditionAgrees(T, next', next, step.until);
      if !Matches(step.until, next.results) {
        var u, v := again.out.value, head.out.value;
        LoopAgrees(step, path, i + 1, next', next, u, v, answers, T);
        ThenAgrees(T, step.id, again, RunLoop(step, path, i + 1, next', u, answers),
                   head, RunLoop(step, path, i + 1, next, v, answers), n);
      }
    }
  }
}
