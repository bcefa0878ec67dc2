/**
 At most once, for any graph at all: ids may repeat and may contain the
 characters the occurrence keys are built from.
 */
module GraphOnce {
  import opened Text
  import opened GraphModel
  import opened GraphShape

  // ----- occurrence keys are injective

  lemma SiblingKeys(path: string, i: nat, a: string, j: nat, b: string, key: string)
    requires ChildKey(path, i, a) <= key && ChildKey(path, j, b) <= key
    ensures i == j
  {
    var text := key[|path| + 1..];
    assert ChildKey(path, i, a) == path + "/" + (Decimal(i) + [':']) + a;
    assert ChildKey(path, j, b) == path + "/" + (Decimal(j) + [':']) + b;
    AfterPrefix(path + "/", Decimal(i) + [':'], a, key);
    AfterPrefix(path + "/", Decimal(j) + [':'], b, key);
    DecimalTerminated(i, j, ':', text);
  }

  lemma IterationKeys(path: string, i: nat, a: string, j: nat, b: string, key: string)
    requires IterKey(path, i, a) <= key && IterKey(path, j, b) <= key
    ensures i == j
  {
    var text := key[|path| + 1..];
    assert IterKey(path, i, a) == path + "#" + (Decimal(i) + ['/']) + a;
    assert IterKey(path, j, b) == path + "#" + (Decimal(j) + ['/']) + b;
    AfterPrefix(path + "#", Decimal(i) + ['/'], a, key);
    AfterPrefix(path + "#", Decimal(j) + ['/'], b, key);
    DecimalTerminated(i, j, '/', text);
  }

  lemma AfterPrefix(a: string, b: string, c: string, key: string)
    requires a + b + c <= key
    ensures b <= key[|a|..]
  {
    assert (a + b + c)[|a|..|a| + |b|] == b;
    assert key[|a|..|a| + |b|] == (a + b + c)[|a|..|a| + |b|];
  }

  lemma BranchKeys(path: string, a: string, b: string, key: string)
    requires BranchKey(path, true, a) <= key
    ensures !(BranchKey(path, false, b) <= key)
  {
    assert BranchKey(path, true, a)[|path| + 1] == 't';
    assert BranchKey(path, false, b)[|path| + 1] == 'e';
  }

  ghost predicate AllUnder(keys: seq<string>, path: string) {
    forall i :: 0 <= i < |keys| ==> path <= keys[i]
  }

  lemma DistinctConcat(a: seq<string>, b: seq<string>)
    requires Distinct(a) && Distinct(b)
    requires forall i, j :: 0 <= i < |a| && 0 <= j < |b| ==> a[i] != b[j]
    ensures Distinct(a + b)
  {
  }

  lemma BranchesDistinct(path: string, t: string, f: string, a: seq<string>, b: seq<string>)
    requires Distinct(a) && Distinct(b)
    requires AllUnder(a, BranchKey(path, true, t)) && AllUnder(b, BranchKey(path, false, f))
    ensures Distinct(a + b)
  {
    forall i, j | 0 <= i < |a| && 0 <= j < |b| ensures a[i] != b[j] {
      BranchKeys(path, t, f, a[i]);
    }
    DistinctConcat(a, b);
  }

  /**
   No two occurrences of a graph share a key: every position in the tree, at
   every iteration of every enclosing loop, has its own.
   */
  lemma {:induction false} OccurrencesDistinct(step: Step, path: string)
    ensures Distinct(Occurrences(step, path))
    ensures AllUnder(Occurrences(step, path), path)
    ensures |Occurrences(step, path)| == Count(step)
    decreases step, 1, 0
  {
    BelowDistinct(step, path);
    var below := Occurrences(step, path)[1..];
    assert Occurrences(step, path) == [path] + below;
    OwnOccurrence(path, below);
  }

  lemma OwnOccurrence(path: string, below: seq<string>)
    requires Distinct(below) && forall i :: 0 <= i < |below| ==> path < below[i]
    ensures Distinct([path] + below) && AllUnder([path] + below, path)
  {
  }

  lemma {:induction false} BelowDistinct(step: Step, path: string)
    ensures var below := Occurrences(step, path)[1..];
      && Distinct(below)
      && (forall i :: 0 <= i < |below| ==> path < below[i])
      && |below| + 1 == Count(step)
    decreases step, 0,
      if step.Sequence? || step.Fanout? then |step.steps| + 1
      else if step.Loop? && step.maxIterations > 0 then step.maxIterations + 1 else 1
  {
    match step
    case Leaf(_, _) =>
    case Sequence(_, steps) =>
      KidOccurrencesDistinct(step, steps, path, 0);
      assert steps[0..] == steps;
    case Fanout(_, steps) =>
      KidOccurrencesDistinct(step, steps, path, 0);
      assert steps[0..] == steps;
    case Branch(_, _, onTrue, onFalse) =>
      var t := BranchKey(path, true, onTrue.id);
      OccurrencesDistinct(onTrue, t);
      assert path < t;
      if onFalse.Some? {
        var f := BranchKey(path, false, onFalse.value.id);
        OccurrencesDistinct(onFalse.value, f);
        assert path < f;
        BranchesDistinct(path, onTrue.id, onFalse.value.id, Occurrences(onTrue, t), Occurrences(onFalse.value, f));
      }
    case Loop(_, _, _, _) =>
      IterOccurrencesDistinct(step, path, 0);
  }

  lemma {:induction false} KidOccurrencesDistinct(step: Step, steps: seq<Step>, path: string, i: nat)
    requires i <= |steps| && steps == Kids(step) && (step.Sequence? || step.Fanout?)
    ensures var keys := KidOccurrences(steps, path, i);
      && Distinct(keys)
      && (forall k :: 0 <= k < |keys| ==> UnderKid(keys[k], steps, path, i) && path < keys[k])
      && |keys| == CountKids(steps[i..])
    decreases step, 0, |steps| - i
  {
    if i < |steps| {
      var key := ChildKey(path, i, steps[i].id);
      OccurrencesDistinct(steps[i], key);
      KidOccurrencesDistinct(step, steps, path, i + 1);
      assert path < key;
      assert steps[i..][1..] == steps[i + 1..];
      var a, b := Occurrences(steps[i], key), KidOccurrences(steps, path, i + 1);
      forall x, y | 0 <= x < |a| && 0 <= y < |b| ensures a[x] != b[y] {
        var j :| i + 1 <= j < |steps| && ChildKey(path, j, steps[j].id) <= b[y];
        if a[x] == b[y] {
          SiblingKeys(path, i, steps[i].id, j, steps[j].id, a[x]);
        }
      }
      DistinctConcat(a, b);
    }
  }

  lemma {:induction false} IterOccurrencesDistinct(step: Step, path: string, i: nat)
    requires step.Loop?
    ensures var keys := IterOccurrences(step, path, i);
      && Distinct(keys)
      && (forall k :: 0 <= k < |keys| ==> UnderIter(keys[k], step, path, i) && path < keys[k])
      && |keys| == if i < step.maxIterations then (step.maxIterations - i) * Count(step.body) else 0
    decreases step, 0, step.maxIterations - i
  {
    if i < step.maxIterations {
      var key := IterKey(path, i, step.body.id);
      OccurrencesDistinct(step.body, key);
      IterOccurrencesDistinct(step, path, i + 1);
      assert path < key;
      var a, b := Occurrences(step.body, key), IterOccurrences(step, path, i + 1);
      forall x, y | 0 <= x < |a| && 0 <= y < |b| ensures a[x] != b[y] {
        var j: nat :| i + 1 <= j && IterKey(path, j, step.body.id) <= b[y];
        if a[x] == b[y] {
          IterationKeys(path, i, step.body.id, j, step.body.id, a[x]);
        }
      }
      DistinctConcat(a, b);
      var left := step.maxIterations - i;
      assert left * Count(step.body) == Count(step.body) + (left - 1) * Count(step.body);
    }
  }

  // ----- chains of runs

  /**
   A chain of continue-as-new runs of one graph: the first run is cut off after
   `cuts[0]` completions, the next resumes from the scope it left, and so on.
   The chain's completions are those of all its runs, in order.
   */
  function Chain(graph: Step, s: Scope, answers: Answers, cuts: seq<nat>): Run
    decreases |cuts|
  {
    var r := Exec(graph, graph.id, s, answers);
    if cuts == [] || cuts[0] > |r.events| then r
    else
      var done := r.events[..cuts[0]];
      var rest := Chain(graph, ApplyAll(s, done), answers, cuts[1..]);
      Run(done + rest.events, rest.out, false)
  }

  lemma NewKeysPrefix(es: seq<Event>, n: nat, journal: set<string>)
    requires NewKeys(es, journal) && n <= |es|
    ensures NewKeys(es[..n], journal)
  {
  }

  /**
   Over any chain of runs of any graph no occurrence completes twice, so no
   occurrence's handler returns twice; every completion is one of the graph's
   occurrences.
   */
  lemma {:induction false} AtMostOncePerOccurrence(graph: Step, s: Scope, answers: Answers, cuts: seq<nat>)
    ensures var es := Chain(graph, s, answers, cuts).events;
      && NewKeys(es, s.journal)
      && KeysIn(es, Occurrences(graph, graph.id))
    decreases |cuts|
  {
    ExecShape(graph, graph.id, s, answers);
    var r := Exec(graph, graph.id, s, answers);
    if cuts != [] && cuts[0] <= |r.events| {
      var done := r.events[..cuts[0]];
      NewKeysPrefix(r.events, cuts[0], s.journal);
      AtMostOncePerOccurrence(graph, ApplyAll(s, done), answers, cuts[1..]);
      NewKeysConcat(done, Chain(graph, ApplyAll(s, done), answers, cuts[1..]).events, s);
    }
  }

  // ----- the number of continue-as-new runs is bounded

  lemma {:induction false} KeysCount(es: seq<Event>, journal: set<string>)
    requires NewKeys(es, journal)
    ensures |Keys(es)| == |es|
  {
    if es != [] {
      var n := |es| - 1;
      var rest := es[..n];
      KeysCount(rest, journal);
      assert Keys(es) == Keys(rest) + {es[n].key} by {
        forall k | k in Keys(es) ensures k in Keys(rest) || k == es[n].key {
          var i :| 0 <= i < |es| && es[i].key == k;
          assert i < n ==> rest[i].key == k;
        }
      }
      assert es[n].key !in Keys(rest);
    }
  }

  lemma {:induction false} SetWithin(keys: set<string>, list: seq<string>)
    requires forall k :: k in keys ==> k in list
    ensures |keys| <= |list|
  {
    if list == [] {
      assert keys == {};
    } else {
      SetWithin(keys - {list[0]}, list[1..]);
    }
  }

  /** However a chain of runs is cut, its completions are at most the static occurrence count. */
  lemma CompletionsBounded(graph: Step, answers: Answers, cuts: seq<nat>)
    ensures |Chain(graph, NewScope(), answers, cuts).events| <= Count(graph)
  {
    AtMostOncePerOccurrence(graph, NewScope(), answers, cuts);
    OccurrencesDistinct(graph, graph.id);
    var es := Chain(graph, NewScope(), answers, cuts).events;
    KeysCount(es, {});
    SetWithin(Keys(es), Occurrences(graph, graph.id));
  }

  /** The scope after `m` runs that all continued-as-new, or none when one of them ended instead. */
  function AfterContinues(graph: Step, answers: Answers, threshold: nat, m: nat): Option<Scope> {
    if m == 0 then Some(NewScope())
    else
      var before := AfterContinues(graph, answers, threshold, m - 1);
      if before.None? then None
      else
        var r := Exec(graph, graph.id, before.value, answers);
        if |r.events| < threshold then None else Some(ApplyAll(before.value, r.events[..threshold]))
  }

  /** A run cut off after `n` completions adds exactly `n` keys to the journal, all occurrences of the graph. */
  lemma CutRunJournal(graph: Step, s: Scope, answers: Answers, n: nat)
    requires n <= |Exec(graph, graph.id, s, answers).events|
    ensures var s' := ApplyAll(s, Exec(graph, graph.id, s, answers).events[..n]);
      && s.journal <= s'.journal
      && |s'.journal| == |s.journal| + n
      && (forall k :: k in s'.journal - s.journal ==> k in Occurrences(graph, graph.id))
  {
    var r := Exec(graph, graph.id, s, answers);
    ExecShape(graph, graph.id, s, answers);
    var done := r.events[..n];
    NewKeysPrefix(r.events, n, s.journal);
    ApplyAllEffect(s, done);
    KeysCount(done, s.journal);
    assert s.journal !! Keys(done);
  }

  lemma OneMore(m: nat, n: nat)
    requires m > 0
    ensures m * n == (m - 1) * n + n
  {
  }

  lemma {:induction false} ContinuesJournal(graph: Step, answers: Answers, threshold: nat, m: nat)
    requires AfterContinues(graph, answers, threshold, m).Some?
    ensures var s := AfterContinues(graph, answers, threshold, m).value;
      && |s.journal| == m * threshold
      && (forall k :: k in s.journal ==> k in Occurrences(graph, graph.id))
  {
    if m > 0 {
      ContinuesJournal(graph, answers, threshold, m - 1);
      var s0 := AfterContinues(graph, answers, threshold, m - 1).value;
      CutRunJournal(graph, s0, answers, threshold);
      var s1 := ApplyAll(s0, Exec(graph, graph.id, s0, answers).events[..threshold]);
      assert AfterContinues(graph, answers, threshold, m).value == s1;
      OneMore(m, threshold);
      forall k | k in s1.journal ensures k in Occurrences(graph, graph.id) {
        assert k in s0.journal || k in s1.journal - s0.journal;
      }
    }
  }

  /**
   Continue-as-new terminates: every continuing run journals exactly the
   threshold number of new keys, so the runs that continue number at most the
   static occurrence count divided by the threshold.
   */
  lemma ContinueAsNewTerminates(graph: Step, answers: Answers, threshold: nat, m: nat)
    requires AfterContinues(graph, answers, threshold, m).Some?
    ensures m * threshold <= Count(graph)
  {
    ContinuesJournal(graph, answers, threshold, m);
    OccurrencesDistinct(graph, graph.id);
    SetWithin(AfterContinues(graph, answers, threshold, m).value.journal, Occurrences(graph, graph.id));
  }
}
