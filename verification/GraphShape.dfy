/**
 What every execution of a node does, whatever the scope it starts from: its
 completions are new occurrences, below the node's own key, with ids of the
 node's own subtree.
 */
module GraphShape {
  import opened GraphValues
  import opened GraphModel

  // ----- lists of completions

  ghost function Keys(es: seq<Event>): set<string> {
    set i | 0 <= i < |es| :: es[i].key
  }

  ghost predicate NewKeys(es: seq<Event>, journal: set<string>) {
    && (forall i :: 0 <= i < |es| ==> es[i].key !in journal)
    && (forall i, j :: 0 <= i < j < |es| ==> es[i].key != es[j].key)
  }

  ghost predicate IdsIn(es: seq<Event>, ids: set<string>) {
    forall i :: 0 <= i < |es| ==> es[i].id in ids
  }

  ghost predicate ExhaustedIn(es: seq<Event>, ids: set<string>) {
    forall i :: 0 <= i < |es| && es[i].exhausted ==> es[i].id in ids
  }

  ghost predicate KeysIn(es: seq<Event>, keys: seq<string>) {
    forall i :: 0 <= i < |es| ==> es[i].key in keys
  }

  ghost predicate Under(es: seq<Event>, path: string) {
    forall i :: 0 <= i < |es| ==> path <= es[i].key
  }

  ghost predicate StrictlyUnder(es: seq<Event>, path: string) {
    forall i :: 0 <= i < |es| ==> path < es[i].key
  }

  lemma {:induction false} ApplyAllConcat(s: Scope, a: seq<Event>, b: seq<Event>)
    ensures ApplyAll(s, a + b) == ApplyAll(ApplyAll(s, a), b)
    decreases a
  {
    if a == [] {
      assert a + b == b;
    } else {
      assert (a + b)[1..] == a[1..] + b;
      ApplyAllConcat(Apply(s, a[0]), a[1..], b);
    }
  }

  lemma {:induction false} ApplyAllSplit(s: Scope, es: seq<Event>, n: nat)
    requires n <= |es|
    ensures ApplyAll(ApplyAll(s, es[..n]), es[n..]) == ApplyAll(s, es)
  {
    assert es[..n] + es[n..] == es;
    ApplyAllConcat(s, es[..n], es[n..]);
  }

  lemma {:induction false} ApplyAllEffect(s: Scope, es: seq<Event>)
    ensures ApplyAll(s, es).journal == s.journal + Keys(es)
    ensures |ApplyAll(s, es).completed| == |s.completed| + |es|
    ensures forall id :: (forall i :: 0 <= i < |es| ==> es[i].id != id)
              ==> Lookup(ApplyAll(s, es).results, id) == Lookup(s.results, id)
    decreases es
  {
    if es != [] {
      var rest := es[1..];
      ApplyAllEffect(Apply(s, es[0]), rest);
      assert forall i :: 0 <= i < |rest| ==> rest[i] == es[i + 1];
      assert Keys(es) == {es[0].key} + Keys(rest) by {
        forall k | k in Keys(es) ensures k == es[0].key || k in Keys(rest) {
          var i :| 0 <= i < |es| && es[i].key == k;
          assert i > 0 ==> rest[i - 1].key == k;
        }
      }
    }
  }

  /** Completions outside a set of ids leave every result in the set alone. */
  lemma UntouchedResult(s: Scope, es: seq<Event>, ids: set<string>, id: string)
    requires IdsIn(es, ids) && id !in ids
    ensures Lookup(ApplyAll(s, es).results, id) == Lookup(s.results, id)
  {
    ApplyAllEffect(s, es);
  }

  lemma UntouchedCondition(s: Scope, es: seq<Event>, ids: set<string>, c: Condition)
    requires IdsIn(es, ids) && Reads(c) !in ids
    ensures Matches(c, ApplyAll(s, es).results) == Matches(c, s.results)
  {
    UntouchedResult(s, es, ids, Reads(c));
  }

  /** The value a completed node left is the one its last completion recorded. */
  lemma RecordedResult(s: Scope, es: seq<Event>, e: Event)
    ensures Lookup(ApplyAll(s, es + [e]).results, e.id) == e.value
    ensures e.key in ApplyAll(s, es + [e]).journal
  {
    ApplyAllConcat(s, es, [e]);
    assert ApplyAll(ApplyAll(s, es), [e]) == Apply(ApplyAll(s, es), e);
  }

  /** New occurrences among `keys`, with ids among `ids` and exhausted loops among `loops`. */
  ghost predicate Shaped(
      es: seq<Event>, journal: set<string>, ids: set<string>, loops: set<string>, keys: seq<string>) {
    NewKeys(es, journal) && IdsIn(es, ids) && ExhaustedIn(es, loops) && KeysIn(es, keys)
  }

  lemma ShapedWiden(
      es: seq<Event>, journal: set<string>, ids: set<string>, loops: set<string>, keys: seq<string>,
      ids': set<string>, loops': set<string>, keys': seq<string>)
    requires Shaped(es, journal, ids, loops, keys)
    requires ids <= ids' && loops <= loops' && forall k :: k in keys ==> k in keys'
    ensures Shaped(es, journal, ids', loops', keys')
  {
  }

  lemma ShapedConcat(
      a: seq<Event>, b: seq<Event>, s: Scope, ids: set<string>, loops: set<string>, keys: seq<string>)
    requires Shaped(a, s.journal, ids, loops, keys) && Shaped(b, ApplyAll(s, a).journal, ids, loops, keys)
    ensures Shaped(a + b, s.journal, ids, loops, keys)
  {
    NewKeysConcat(a, b, s);
  }

  lemma NewKeysConcat(a: seq<Event>, b: seq<Event>, s: Scope)
    requires NewKeys(a, s.journal) && NewKeys(b, ApplyAll(s, a).journal)
    ensures NewKeys(a + b, s.journal)
  {
    ApplyAllEffect(s, a);
    forall i, j | 0 <= i < j < |a + b| ensures (a + b)[i].key != (a + b)[j].key {
      if i < |a| <= j {
        assert a[i].key in Keys(a);
        assert b[j - |a|].key !in Keys(a);
      }
    }
  }

  // ----- what an execution can do

  lemma {:induction false} ExecShape(step: Step, path: string, s: Scope, answers: Answers)
    ensures var r := Exec(step, path, s, answers);
      && Under(r.events, path)
      && Shaped(r.events, s.journal, Ids(step), LoopIds(step), Occurrences(step, path))
      && (r.out.Done? ==> path in ApplyAll(s, r.events).journal)
    decreases step, 2, 0
  {
    var r := Exec(step, path, s, answers);
    if path !in s.journal {
      StepShape(step, path, s, answers);
      var inner := RunStep(step, path, s, answers);
      ShapedWiden(inner.events, s.journal, KidIds(step), LoopIds(step), Occurrences(step, path),
                  Ids(step), LoopIds(step), Occurrences(step, path));
      if inner.out.Done? {
        var own := Event(path, step.id, inner.out.value, step.Leaf?, inner.exhausted);
        RecordedResult(s, inner.events, own);
        ShapedOwn(inner.events, own, s.journal, Ids(step), LoopIds(step), Occurrences(step, path));
      }
    }
  }

  lemma ShapedOwn(
      es: seq<Event>, own: Event, journal: set<string>, ids: set<string>, loops: set<string>, keys: seq<string>)
    requires Shaped(es, journal, ids, loops, keys) && StrictlyUnder(es, own.key)
    requires own.key !in journal && own.id in ids && (own.exhausted ==> own.id in loops) && own.key in keys
    ensures Shaped(es + [own], journal, ids, loops, keys) && Under(es + [own], own.key)
  {
  }

  lemma {:induction false} StepShape(step: Step, path: string, s: Scope, answers: Answers)
    ensures var r := RunStep(step, path, s, answers);
      && StrictlyUnder(r.events, path)
      && Shaped(r.events, s.journal, KidIds(step), LoopIds(step), Occurrences(step, path))
      && (r.exhausted ==> step.Loop?)
    decreases step, 1, 0
  {
    match step
    case Leaf(_, _) =>
    case Sequence(_, steps) => KidsShape(step, steps, path, 0, s, answers); FromKids(step, steps, path, s, answers);
    case Fanout(_, steps) => KidsShape(step, steps, path, 0, s, answers); FromKids(step, steps, path, s, answers);
    case Branch(_, condition, onTrue, onFalse) =>
      if Matches(condition, s.results) {
        ExecShape(onTrue, BranchKey(path, true, onTrue.id), s, answers);
        FromBranch(step, 0, path, true, s, answers);
      } else if onFalse.Some? {
        ExecShape(onFalse.value, BranchKey(path, false, onFalse.value.id), s, answers);
        FromBranch(step, 1, path, false, s, answers);
      }
    case Loop(_, body, _, until) =>
      var start := FirstOpen(step, path, 0, s.journal);
      LoopShape(step, path, start, s, Undefined, answers);
      FromLoop(step, path, start, s, answers);
  }

  // A child's shape is within its parent's.

  lemma KidWithin(step: Step, i: nat)
    requires i < |Kids(step)|
    ensures Ids(Kids(step)[i]) <= KidIds(step) && LoopIds(Kids(step)[i]) <= LoopIds(step)
  {
  }

  lemma FromBranch(step: Step, i: nat, path: string, taken: bool, s: Scope, answers: Answers)
    requires step.Branch? && i < |Kids(step)| && taken == (i == 0)
    requires var kid := Kids(step)[i]; var key := BranchKey(path, taken, kid.id);
      var es := Exec(kid, key, s, answers).events;
      Under(es, key) && Shaped(es, s.journal, Ids(kid), LoopIds(kid), Occurrences(kid, key))
    ensures var kid := Kids(step)[i];
      var es := Exec(kid, BranchKey(path, taken, kid.id), s, answers).events;
      StrictlyUnder(es, path) && Shaped(es, s.journal, KidIds(step), LoopIds(step), Occurrences(step, path))
  {
    var kid := Kids(step)[i];
    var key := BranchKey(path, taken, kid.id);
    KidWithin(step, i);
    assert path < key;
    ShapedWiden(Exec(kid, key, s, answers).events, s.journal, Ids(kid), LoopIds(kid), Occurrences(kid, key),
                KidIds(step), LoopIds(step), Occurrences(step, path));
  }

  lemma FromKids(step: Step, steps: seq<Step>, path: string, s: Scope, answers: Answers)
    requires steps == Kids(step) && (step.Sequence? || step.Fanout?)
    requires var es := RunKids(steps, path, 0, s, answers).events;
      Shaped(es, s.journal, LaterIds(steps, 0), LoopIds(step), KidOccurrences(steps, path, 0))
    ensures var es := RunKids(steps, path, 0, s, answers).events;
      Shaped(es, s.journal, KidIds(step), LoopIds(step), Occurrences(step, path))
  {
    ShapedWiden(RunKids(steps, path, 0, s, answers).events, s.journal,
                LaterIds(steps, 0), LoopIds(step), KidOccurrences(steps, path, 0),
                KidIds(step), LoopIds(step), Occurrences(step, path));
  }

  lemma FromLoop(step: Step, path: string, start: nat, s: Scope, answers: Answers)
    requires step.Loop?
    requires var es := RunLoop(step, path, start, s, Undefined, answers).events;
      Shaped(es, s.journal, Ids(step.body), LoopIds(step), IterOccurrences(step, path, start))
    ensures var es := RunLoop(step, path, start, s, Undefined, answers).events;
      Shaped(es, s.journal, KidIds(step), LoopIds(step), Occurrences(step, path))
  {
    KidWithin(step, 0);
    LaterIterations(step, path, 0, start);
    ShapedWiden(RunLoop(step, path, start, s, Undefined, answers).events, s.journal,
                Ids(step.body), LoopIds(step), IterOccurrences(step, path, start),
                KidIds(step), LoopIds(step), Occurrences(step, path));
  }

  /** The keys that lie below some child at or after `i`. */
  ghost predicate UnderKid(key: string, steps: seq<Step>, path: string, i: nat) {
    exists j :: i <= j < |steps| && ChildKey(path, j, steps[j].id) <= key
  }

  /** The keys that lie below some iteration at or after `i`. */
  ghost predicate UnderIter(key: string, step: Step, path: string, i: nat)
    requires step.Loop?
  {
    exists j: nat :: i <= j && IterKey(path, j, step.body.id) <= key
  }

  /** The ids of the children at or after `i`. */
  ghost function LaterIds(steps: seq<Step>, i: nat): set<string> {
    set j, id | i <= j < |steps| && id in Ids(steps[j]) :: id
  }

  lemma {:induction false} LaterIterations(step: Step, path: string, i: nat, j: nat)
    requires step.Loop? && i <= j
    ensures forall k :: k in IterOccurrences(step, path, j) ==> k in IterOccurrences(step, path, i)
    decreases j - i
  {
    if i < j && i < step.maxIterations {
      LaterIterations(step, path, i + 1, j);
    }
  }

  lemma {:induction false} KidsShape(step: Step, steps: seq<Step>, path: string, i: nat, s: Scope, answers: Answers)
    requires i <= |steps| && steps == Kids(step) && (step.Sequence? || step.Fanout?)
    ensures var r := RunKids(steps, path, i, s, answers);
      && StrictlyUnder(r.events, path)
      && Shaped(r.events, s.journal, LaterIds(steps, i), LoopIds(step), KidOccurrences(steps, path, i))
      && (r.values.Some? ==> |r.values.value| == |steps| - i)
    decreases step, 0, |steps| - i
  {
    if i < |steps| {
      var key := ChildKey(path, i, steps[i].id);
      var head := Exec(steps[i], key, s, answers);
      ExecShape(steps[i], key, s, answers);
      assert path < key;
      KidWithin(step, i);
      var ids, loops, keys := LaterIds(steps, i), LoopIds(step), KidOccurrences(steps, path, i);
      ShapedWiden(
        head.events, s.journal, Ids(steps[i]), LoopIds(steps[i]), Occurrences(steps[i], key), ids, loops, keys);
      if head.out.Done? {
        var s' := ApplyAll(s, head.events);
        KidsShape(step, steps, path, i + 1, s', answers);
        var rest := RunKids(steps, path, i + 1, s', answers);
        ShapedWiden(rest.events, s'.journal, LaterIds(steps, i + 1), loops, KidOccurrences(steps, path, i + 1),
                    ids, loops, keys);
        ShapedConcat(head.events, rest.events, s, ids, loops, keys);
      }
    }
  }

  lemma {:induction false} LoopShape(step: Step, path: string, i: nat, s: Scope, last: Json, answers: Answers)
    requires step.Loop?
    ensures var r := RunLoop(step, path, i, s, last, answers);
      && StrictlyUnder(r.events, path)
      && Shaped(r.events, s.journal, Ids(step.body), LoopIds(step), IterOccurrences(step, path, i))
    decreases step, 0, step.maxIterations - i
  {
    if i < step.maxIterations {
      var key := IterKey(path, i, step.body.id);
      var head := Exec(step.body, key, s, answers);
      ExecShape(step.body, key, s, answers);
      assert path < key;
      KidWithin(step, 0);
      var ids, loops, keys := Ids(step.body), LoopIds(step), IterOccurrences(step, path, i);
      ShapedWiden(head.events, s.journal, ids, LoopIds(step.body), Occurrences(step.body, key), ids, loops, keys);
      if head.out.Done? {
        var s' := ApplyAll(s, head.events);
        if !Matches(step.until, s'.results) {
          LoopShape(step, path, i + 1, s', head.out.value, answers);
          var rest := RunLoop(step, path, i + 1, s', head.out.value, answers);
          ShapedWiden(rest.events, s'.journal, ids, loops, IterOccurrences(step, path, i + 1), ids, loops, keys);
          ShapedConcat(head.events, rest.events, s, ids, loops, keys);
        }
      }
    }
  }

  // ----- what a completion means

  /** A node that returned is journalled. */
  lemma ExecRecords(step: Step, path: string, s: Scope, answers: Answers)
    requires Exec(step, path, s, answers).out.Done?
    ensures path in ApplyAll(s, Exec(step, path, s, answers).events).journal
  {
    var es := Exec(step, path, s, answers).events;
    ApplyAllEffect(s, es);
    if path !in s.journal {
      assert es[|es| - 1].key == path;
    }
  }

  /** A sequence or fan-out that returned has completed every child, and returns one value for each. */
  lemma {:induction false} KidsRecord(steps: seq<Step>, path: string, i: nat, s: Scope, answers: Answers)
    requires i <= |steps| && RunKids(steps, path, i, s, answers).values.Some?
    ensures |RunKids(steps, path, i, s, answers).values.value| == |steps| - i
    ensures forall j :: i <= j < |steps| ==>
      ChildKey(path, j, steps[j].id) in ApplyAll(s, RunKids(steps, path, i, s, answers).events).journal
    decreases |steps| - i
  {
    if i < |steps| {
      var key := ChildKey(path, i, steps[i].id);
      var head := Exec(steps[i], key, s, answers);
      var next := ApplyAll(s, head.events);
      var rest := RunKids(steps, path, i + 1, next, answers);
      ExecRecords(steps[i], key, s, answers);
      KidsRecord(steps, path, i + 1, next, answers);
      ApplyAllConcat(s, head.events, rest.events);
      ApplyAllEffect(next, rest.events);
    }
  }

  /**
   A loop that returned either stopped because its condition holds on the results
   it leaves, or has completed every permitted iteration.
   */
  lemma {:induction false} LoopRecords(step: Step, path: string, i: nat, s: Scope, last: Json, answers: Answers)
    requires step.Loop? && RunLoop(step, path, i, s, last, answers).out.Done?
    ensures var r := RunLoop(step, path, i, s, last, answers);
      var left := ApplyAll(s, r.events);
      || (!r.exhausted && Matches(step.until, left.results))
      || (r.exhausted &&
            forall j :: i <= j < step.maxIterations ==> IterKey(path, j, step.body.id) in left.journal)
    decreases step.maxIterations - i
  {
    if i < step.maxIterations {
      var key := IterKey(path, i, step.body.id);
      var head := Exec(step.body, key, s, answers);
      var next := ApplyAll(s, head.events);
      ExecRecords(step.body, key, s, answers);
      if !Matches(step.until, next.results) {
        var rest := RunLoop(step, path, i + 1, next, head.out.value, answers);
        LoopRecords(step, path, i + 1, next, head.out.value, answers);
        ApplyAllConcat(s, head.events, rest.events);
        ApplyAllEffect(next, rest.events);
      }
    }
  }
}
