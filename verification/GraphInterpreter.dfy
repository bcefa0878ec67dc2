/**
 The interpreter and the workflow around it as they run: a scope updated in
 place, a hook after every completed node, and exceptions that unwind the whole
 run when the hook stops it.
 */
module GraphInterpreter {
  import opened Text
  import opened GraphValues
  import opened GraphModel
  import opened GraphShape

  /** Why a run was unwound before its graph completed. */
  datatype Stop = GraphCancelled | ContinueAsNewGraph

  datatype Returned = Value(value: Json) | HandlerThrew | Unwound(stop: Stop)

  /** Completed nodes after which a run continues-as-new. */
  const CONTINUE_AS_NEW_AFTER_NODES: nat := 1000

  /** The completion after which the hook throws, for a cancel first seen at hook call `cancelAt`. */
  function Limit(threshold: nat, cancelAt: Option<nat>): nat {
    if cancelAt.Some? && cancelAt.value <= threshold then cancelAt.value else threshold
  }

  function StopReason(threshold: nat, cancelAt: Option<nat>): Stop {
    if cancelAt.Some? && cancelAt.value <= threshold then GraphCancelled else ContinueAsNewGraph
  }

  function Returns(out: Outcome): Returned {
    if out.Done? then Value(out.value) else HandlerThrew
  }

  function KidsReturn(run: KidsRun): Returned {
    if run.values.Some? then Value(Array(run.values.value)) else HandlerThrew
  }

  /**
   A run of `es` ending in `out`, from scope `s`, with `left` more completions
   until the hook throws: it either does all of it, or is unwound after exactly
   `left` completions.
   */
  ghost predicate Effect(es: seq<Event>, out: Returned, stop: Stop, left: nat, s: Scope, s': Scope, r: Returned) {
    if |es| < left then s' == ApplyAll(s, es) && r == out
    else s' == ApplyAll(s, es[..left]) && r == Unwound(stop)
  }

  /** Part of the way through `full`: `done` is recorded in `now`, `rest` is to come. */
  ghost predicate Midway(s: Scope, now: Scope, done: seq<Event>, rest: seq<Event>, full: seq<Event>) {
    now == ApplyAll(s, done) && full == done + rest
  }

  lemma Advance(s: Scope, now: Scope, done: seq<Event>, head: seq<Event>, later: seq<Event>, full: seq<Event>)
    requires Midway(s, now, done, head + later, full)
    ensures Midway(s, ApplyAll(now, head), done + head, later, full)
  {
    ApplyAllConcat(s, done, head);
    assert done + (head + later) == (done + head) + later;
  }

  /** A piece that was unwound unwinds the whole, at the same point. */
  lemma CutShort(
      s: Scope, now: Scope, cut: Scope, done: seq<Event>, head: seq<Event>, later: seq<Event>, full: seq<Event>,
      headOut: Returned, out: Returned, stop: Stop, left: nat, r: Returned)
    requires Midway(s, now, done, head + later, full) && |done| <= left && !headOut.Unwound? && r.Unwound?
    requires Effect(head, headOut, stop, left - |done|, now, cut, r)
    ensures Effect(full, out, stop, left, s, cut, r)
  {
    ApplyAllConcat(s, done, head[..left - |done|]);
    assert full[..left] == done + head[..left - |done|];
  }

  /** All of it was made within the budget. */
  lemma Finish(s: Scope, now: Scope, done: seq<Event>, full: seq<Event>, out: Returned, stop: Stop, left: nat)
    requires Midway(s, now, done, [], full) && |done| < left
    ensures Effect(full, out, stop, left, s, now, out) && |full| == |done|
  {
    assert done + [] == done;
  }

  /** The completions of child `i` and of the children after it. */
  ghost function KidsLater(steps: seq<Step>, path: string, i: nat, s: Scope, answers: Answers): KidsRun
    requires i < |steps|
  {
    var head := Exec(steps[i], ChildKey(path, i, steps[i].id), s, answers);
    if head.out.Threw? then KidsRun([], None) else RunKids(steps, path, i + 1, ApplyAll(s, head.events), answers)
  }

  lemma KidsSplit(steps: seq<Step>, path: string, i: nat, s: Scope, answers: Answers)
    requires i < |steps|
    ensures var head := Exec(steps[i], ChildKey(path, i, steps[i].id), s, answers);
      var later := KidsLater(steps, path, i, s, answers);
      var rest := RunKids(steps, path, i, s, answers);
      && rest.events == head.events + later.events
      && (rest.values.Some? <==> later.values.Some?)
      && (rest.values.Some? ==> head.out.Done? && rest.values.value == [head.out.value] + later.values.value)
  {
  }

  ghost predicate ValuesMidway(values: seq<Json>, rest: KidsRun, full: KidsRun) {
    && full.values.Some? == rest.values.Some?
    && (full.values.Some? ==> full.values.value == values + rest.values.value)
  }

  lemma ValuesAdvance(values: seq<Json>, v: Json, rest: KidsRun, later: KidsRun, full: KidsRun)
    requires ValuesMidway(values, rest, full) && rest.values.Some? == later.values.Some?
    requires rest.values.Some? ==> rest.values.value == [v] + later.values.value
    ensures ValuesMidway(values + [v], later, full)
  {
  }

  ghost function IterLater(step: Step, path: string, i: nat, s: Scope, answers: Answers): Run
    requires step.Loop?
  {
    var head := Exec(step.body, IterKey(path, i, step.body.id), s, answers);
    var next := ApplyAll(s, head.events);
    if head.out.Threw? || Matches(step.until, next.results) then Run([], head.out, false)
    else RunLoop(step, path, i + 1, next, head.out.value, answers)
  }

  lemma IterSplit(step: Step, path: string, i: nat, s: Scope, last: Json, answers: Answers)
    requires step.Loop? && i < step.maxIterations
    ensures var head := Exec(step.body, IterKey(path, i, step.body.id), s, answers);
      var later := IterLater(step, path, i, s, answers);
      var rest := RunLoop(step, path, i, s, last, answers);
      rest.events == head.events + later.events && rest.out == later.out
  {
  }

  class Interpreter {
    var results: Results
    var completed: seq<string>
    var journal: set<string>
    var calls: nat
    var hookCalls: nat
    const answers: Answers
    const threshold: nat
    const cancelAt: Option<nat>

    constructor (scope: Scope, answers: Answers, threshold: nat, cancelAt: Option<nat>)
      ensures View() == scope && hookCalls == 0
      ensures this.answers == answers && this.threshold == threshold && this.cancelAt == cancelAt
    {
      results, completed, journal, calls := scope.results, scope.completed, scope.journal, scope.calls;
      hookCalls := 0;
      this.answers, this.threshold, this.cancelAt := answers, threshold, cancelAt;
    }

    ghost function View(): Scope
      reads this
    {
      Scope(results, completed, journal, calls)
    }

    ghost predicate Running()
      reads this
    {
      hookCalls < Limit(threshold, cancelAt)
    }

    ghost function Left(): int
      reads this
    {
      Limit(threshold, cancelAt) - hookCalls
    }

    /** The workflow's `onNode` hook: a cancel is seen first, then the node budget. */
    method OnNode() returns (stop: Option<Stop>)
      requires Running()
      modifies this`hookCalls
      ensures hookCalls == old(hookCalls) + 1
      ensures stop == if Running() then None else Some(StopReason(threshold, cancelAt))
    {
      hookCalls := hookCalls + 1;
      if cancelAt.Some? && hookCalls >= cancelAt.value {
        stop := Some(GraphCancelled);
      } else if hookCalls >= threshold {
        stop := Some(ContinueAsNewGraph);
      } else {
        stop := None;
      }
    }

    /** `executeGraph`. */
    method ExecuteGraph(step: Step, path: string) returns (r: Returned)
      requires Running()
      modifies this
      ensures var run := Exec(step, path, old(View()), answers);
        && Effect(run.events, Returns(run.out), StopReason(threshold, cancelAt), old(Left()), old(View()), View(), r)
        && (r.Unwound? || hookCalls == old(hookCalls) + |run.events|)
      ensures r.Unwound? || Running()
      decreases step, 1
    {
      if path in journal {
        r := Value(Lookup(results, step.id));
        return;
      }
      ghost var s := View();
      ghost var inner := RunStep(step, path, s, answers);
      r := RunOneStep(step, path);
      if r.Value? {
        ghost var own := Event(path, step.id, r.value, step.Leaf?, inner.exhausted);
        ApplyAllConcat(s, inner.events, [own]);
        assert ApplyAll(ApplyAll(s, inner.events), [own]) == Apply(ApplyAll(s, inner.events), own);
        results := results[step.id := r.value];
        completed := completed + [step.id];
        journal := journal + {path};
        if step.Leaf? { calls := calls + 1; }
        var stop := OnNode();
        assert (inner.events + [own])[..|inner.events| + 1] == inner.events + [own];
        if stop.Some? { r := Unwound(stop.value); }
      } else if r.Unwound? && inner.out.Done? {
        assert Record(step, path, inner).events[..old(Left())] == inner.events[..old(Left())];
      }
    }

    /** `runStep`. */
    method RunOneStep(step: Step, path: string) returns (r: Returned)
      requires Running()
      modifies this
      ensures var run := RunStep(step, path, old(View()), answers);
        && Effect(run.events, Returns(run.out), StopReason(threshold, cancelAt), old(Left()), old(View()), View(), r)
        && (r.Unwound? || hookCalls == old(hookCalls) + |run.events|)
      ensures r.Unwound? || Running()
      decreases step, 0
    {
      match step
      case Leaf(_, _) =>
        var answer := answers(calls);
        r := if answer.Some? then Value(answer.value) else HandlerThrew;
      case Sequence(_, steps) =>
        var values, kids := RunChildren(step, path);
        r := if kids.Value? then Value(LastValue(values)) else kids;
      case Fanout(_, steps) =>
        var values, kids := RunChildren(step, path);
        r := kids;
      case Branch(_, condition, onTrue, onFalse) =>
        if Matches(condition, results) {
          r := ExecuteGraph(onTrue, BranchKey(path, true, onTrue.id));
        } else if onFalse.Some? {
          r := ExecuteGraph(onFalse.value, BranchKey(path, false, onFalse.value.id));
        } else {
          r := Value(Undefined);
        }
      case Loop(_, _, _, _) =>
        r := RunIterations(step, path);
    }

    /** The children of a sequence or fan-out, one at a time in index order. */
    method RunChildren(step: Step, path: string) returns (values: seq<Json>, r: Returned)
      requires Running() && (step.Sequence? || step.Fanout?)
      modifies this
      ensures var run := RunKids(step.steps, path, 0, old(View()), answers);
        && Effect(run.events, KidsReturn(run), StopReason(threshold, cancelAt), old(Left()), old(View()), View(), r)
        && (r.Unwound? || hookCalls == old(hookCalls) + |run.events|)
      ensures r.Value? ==> r.value == Array(values)
      ensures r.Unwound? || Running()
      decreases step, 0, 0
    {
      ghost var s, left := View(), Left();
      ghost var full := RunKids(step.steps, path, 0, s, answers);
      ghost var done: seq<Event> := [];
      values := [];
      var i := 0;
      while i < |step.steps|
        invariant 0 <= i <= |step.steps| && Running() && hookCalls == old(hookCalls) + |done|
        invariant var rest := RunKids(step.steps, path, i, View(), answers);
          Midway(s, View(), done, rest.events, full.events) && ValuesMidway(values, rest, full)
      {
        var child := step.steps[i];
        var key := ChildKey(path, i, child.id);
        ghost var now := View();
        ghost var head := Exec(child, key, now, answers);
        ghost var later := KidsLater(step.steps, path, i, now, answers);
        KidsSplit(step.steps, path, i, now, answers);
        r := ExecuteGraph(child, key);
        if r.Unwound? {
          CutShort(s, now, View(), done, head.events, later.events, full.events, Returns(head.out), KidsReturn(full),
                   StopReason(threshold, cancelAt), left, r);
          return;
        }
        Advance(s, now, done, head.events, later.events, full.events);
        if r.HandlerThrew? {
          Finish(s, View(), done + head.events, full.events, r, StopReason(threshold, cancelAt), left);
          return;
        }
        ValuesAdvance(values, r.value, RunKids(step.steps, path, i, now, answers), later, full);
        done := done + head.events;
        values := values + [r.value];
        i := i + 1;
      }
      r := Value(Array(values));
      assert values + [] == values;
      Finish(s, View(), done, full.events, r, StopReason(threshold, cancelAt), left);
    }

    /** A loop's iterations, from the first one the journal does not hold. */
    method RunIterations(step: Step, path: string) returns (r: Returned)
      requires Running() && step.Loop?
      modifies this
      ensures var run := RunStep(step, path, old(View()), answers);
        && Effect(run.events, Returns(run.out), StopReason(threshold, cancelAt), old(Left()), old(View()), View(), r)
        && (r.Unwound? || hookCalls == old(hookCalls) + |run.events|)
      ensures r.Unwound? || Running()
      decreases step, 0, 1
    {
      ghost var s := View();
      var start := 0;
      while start < step.maxIterations && IterKey(path, start, step.body.id) in journal
        invariant FirstOpen(step, path, 0, journal) == FirstOpen(step, path, start, journal)
        invariant View() == s && hookCalls == old(hookCalls)
      {
        start := start + 1;
      }
      if start > 0 && Matches(step.until, results) {
        r := Value(Lookup(results, step.body.id));
        return;
      }
      r := Iterate(step, path, start);
    }

    method Iterate(step: Step, path: string, start: nat) returns (r: Returned)
      requires Running() && step.Loop?
      modifies this
      ensures var run := RunLoop(step, path, start, old(View()), Undefined, answers);
        && Effect(run.events, Returns(run.out), StopReason(threshold, cancelAt), old(Left()), old(View()), View(), r)
        && (r.Unwound? || hookCalls == old(hookCalls) + |run.events|)
      ensures r.Unwound? || Running()
      decreases step, 0, 0
    {
      ghost var s, left := View(), Left();
      ghost var full := RunLoop(step, path, start, s, Undefined, answers);
      ghost var done: seq<Event> := [];
      var i, last := start, Undefined;
      while i < step.maxIterations
        invariant start <= i && Running() && hookCalls == old(hookCalls) + |done|
        invariant var rest := RunLoop(step, path, i, View(), last, answers);
          Midway(s, View(), done, rest.events, full.events) && full.out == rest.out
        decreases step.maxIterations - i
      {
        var key := IterKey(path, i, step.body.id);
        ghost var now := View();
        ghost var head := Exec(step.body, key, now, answers);
        ghost var later := IterLater(step, path, i, now, answers);
        IterSplit(step, path, i, now, last, answers);
        r := ExecuteGraph(step.body, key);
        if r.Unwound? {
          CutShort(s, now, View(), done, head.events, later.events, full.events, Returns(head.out), Returns(full.out),
                   StopReason(threshold, cancelAt), left, r);
          return;
        }
        Advance(s, now, done, head.events, later.events, full.events);
        if r.HandlerThrew? || Matches(step.until, results) {
          Finish(s, View(), done + head.events, full.events, r, StopReason(threshold, cancelAt), left);
          return;
        }
        done := done + head.events;
        last := r.value;
        i := i + 1;
      }
      r := Value(last);
      Finish(s, View(), done, full.events, r, StopReason(threshold, cancelAt), left);
    }
  }

  datatype Status = Completed | Cancelled | Failed | ContinuedAsNew(scope: Scope)

  /**
   `runGraphWorkflow`: one run from a carried scope. It continues-as-new exactly
   when it makes the threshold number of new completions before a cancel is
   seen, and then carries the scope those completions leave.
   */
  method RunGraphWorkflow(graph: Step, scope: Scope, answers: Answers, cancelAt: Option<nat>)
      returns (status: Status, left: Scope)
    requires cancelAt.Some? ==> cancelAt.value > 0
    ensures var es := Exec(graph, graph.id, scope, answers).events;
      var threshold := CONTINUE_AS_NEW_AFTER_NODES;
      var cancelled := cancelAt.Some? && cancelAt.value <= threshold && cancelAt.value <= |es|;
      && (status.Cancelled? <==> cancelled)
      && (status.ContinuedAsNew? <==> !cancelled && threshold <= |es|)
      && (status.ContinuedAsNew? ==> status.scope == left && left == ApplyAll(scope, es[..threshold]))
      && (status.Cancelled? ==> left == ApplyAll(scope, es[..cancelAt.value]))
      && (status.Completed? || status.Failed? ==>
            left == ApplyAll(scope, es) &&
            (status.Completed? <==> Exec(graph, graph.id, scope, answers).out.Done?))
  {
    var run := new Interpreter(scope, answers, CONTINUE_AS_NEW_AFTER_NODES, cancelAt);
    var r := run.ExecuteGraph(graph, graph.id);
    left := Scope(run.results, run.completed, run.journal, run.calls);
    match r
    case Value(_) => status := Completed;
    case HandlerThrew => status := Failed;
    case Unwound(GraphCancelled) => status := Cancelled;
    case Unwound(ContinueAsNewGraph) => status := ContinuedAsNew(left);
  }
}
