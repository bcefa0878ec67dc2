/**
 Why resume equivalence needs each of its static hypotheses: a small graph that
 breaks one of them, and a cut after which the resumed run goes its own way.
 */
module GraphCounterexamples {
  import opened Text
  import opened GraphValues
  import opened GraphModel
  import opened GraphShape
  import opened GraphResume
  import opened GraphTheorems

  /** The k-th handler call returns the number `k`. */
  function Counting(k: nat): Option<Json> {
    Some(Number(k))
  }

  /** The run resumed after the first `n` completions of the uncut run. */
  function ResumedAfter(graph: Step, n: nat): Run
    requires n <= |Uncut(graph, Counting).events|
  {
    Exec(graph, graph.id, ApplyAll(NewScope(), Uncut(graph, Counting).events[..n]), Counting)
  }

  function Is(id: string, n: int): Condition {
    Condition(id, Number(n))
  }

  lemma IsReads(id: string, n: int, results: Results)
    requires '.' !in id
    ensures Reads(Is(id, n)) == id
    ensures Matches(Is(id, n), results) <==> Lookup(results, id) == Number(n)
  {
    SplitWhole(id, '.');
  }

  function LeafEvent(id: string, key: string, k: nat): Event {
    Event(key, id, Number(k), true, false)
  }

  lemma LeafRun(id: string, key: string, s: Scope)
    requires key !in s.journal
    ensures Exec(Leaf(id, Turn), key, s, Counting)
         == Run([LeafEvent(id, key, s.calls)], Done(Number(s.calls)), false)
    ensures ApplyAll(s, [LeafEvent(id, key, s.calls)]) == Apply(s, LeafEvent(id, key, s.calls))
  {
    assert Record(Leaf(id, Turn), key, Run([], Done(Number(s.calls)), false)).events
        == [LeafEvent(id, key, s.calls)];
    ApplyOne(s, LeafEvent(id, key, s.calls));
  }

  lemma ApplyOne(s: Scope, e: Event)
    ensures ApplyAll(s, [e]) == Apply(s, e)
  {
    assert ApplyAll(Apply(s, e), []) == Apply(s, e);
  }

  lemma ApplyTwo(s: Scope, d: Event, e: Event)
    ensures ApplyAll(s, [d, e]) == Apply(Apply(s, d), e)
  {
    assert [d, e] == [d] + [e];
    ApplyAllConcat(s, [d], [e]);
    ApplyOne(s, d);
    ApplyOne(Apply(s, d), e);
  }

  /** Two children that both complete. */
  lemma TwoKids(
      a: Step, b: Step, path: string, s: Scope, es: seq<Event>, v: Json, fs: seq<Event>, w: Json)
    requires Exec(a, ChildKey(path, 0, a.id), s, Counting) == Run(es, Done(v), false)
    requires Exec(b, ChildKey(path, 1, b.id), ApplyAll(s, es), Counting) == Run(fs, Done(w), false)
    ensures RunKids([a, b], path, 0, s, Counting) == KidsRun(es + fs, Some([v, w]))
  {
    var kids, t := [a, b], ApplyAll(s, es);
    assert RunKids(kids, path, 2, ApplyAll(t, fs), Counting) == KidsRun([], Some([]));
    assert fs + [] == fs && [w] + [] == [w];
    assert RunKids(kids, path, 1, t, Counting) == KidsRun(fs, Some([w]));
    assert [v] + [w] == [v, w] && kids[0] == a;
    assert RunKids(kids, path, 0, s, Counting) == Prepend(Run(es, Done(v), false), KidsRun(fs, Some([w])));
  }

  /** A fan-out over two nodes of the same id. */
  function Twins(): Step {
    Fanout("f", [Leaf("a", Turn), Leaf("a", Turn)])
  }

  /** The two completions of the fan-out's children. */
  function TwinEvent(i: nat): Event {
    LeafEvent("a", ChildKey("f", i, "a"), i)
  }

  lemma TwinKeys()
    ensures TwinEvent(0).key != TwinEvent(1).key && TwinEvent(0).key != "f" && TwinEvent(1).key != "f"
  {
    assert TwinEvent(0).key[2] == '0' && TwinEvent(1).key[2] == '1';
  }

  lemma TwinsUncut()
    ensures var r := Uncut(Twins(), Counting);
      && r.out == Done(Array([Number(0), Number(1)]))
      && |r.events| == 3 && r.events[..2] == [TwinEvent(0), TwinEvent(1)]
  {
    var leaf, s := Leaf("a", Turn), NewScope();
    TwinKeys();
    LeafRun("a", TwinEvent(0).key, s);
    LeafRun("a", TwinEvent(1).key, Apply(s, TwinEvent(0)));
    TwoKids(leaf, leaf, "f", s, [TwinEvent(0)], Number(0), [TwinEvent(1)], Number(1));
    assert RunStep(Twins(), "f", s, Counting)
        == Run([TwinEvent(0)] + [TwinEvent(1)], Done(Array([Number(0), Number(1)])), false);
  }

  lemma TwinsResumed()
    ensures var s := Apply(Apply(NewScope(), TwinEvent(0)), TwinEvent(1));
      Exec(Twins(), "f", s, Counting).out == Done(Array([Number(1), Number(1)]))
  {
    var leaf := Leaf("a", Turn);
    var s := Apply(Apply(NewScope(), TwinEvent(0)), TwinEvent(1));
    TwinKeys();
    assert ApplyAll(s, []) == s;
    TwoKids(leaf, leaf, "f", s, [], Number(1), [], Number(1));
    assert RunStep(Twins(), "f", s, Counting).out == Done(Array([Number(1), Number(1)]));
  }

  /** Results are keyed by id, so a repeated id makes a cached child answer with its namesake's value. */
  lemma NeedsUniqueIds()
    ensures WellScoped(Twins()) && ConditionsAvoid(Twins(), LoopValuedIds(Twins()))
    ensures |Uncut(Twins(), Counting).events| == 3
    ensures Uncut(Twins(), Counting).out == Done(Array([Number(0), Number(1)]))
    ensures ResumedAfter(Twins(), 2).out == Done(Array([Number(1), Number(1)]))
  {
    TwinsUncut();
    TwinsResumed();
    ApplyTwo(NewScope(), TwinEvent(0), TwinEvent(1));
    LeafIds("a");
  }

  lemma LeafIds(id: string)
    ensures UniqueIds(Leaf(id, Turn)) && Ids(Leaf(id, Turn)) == {id} && WellScoped(Leaf(id, Turn))
    ensures LoopValuedIds(Leaf(id, Turn)) == {} && forall T :: ConditionsAvoid(Leaf(id, Turn), T)
  {
    assert Kids(Leaf(id, Turn)) == [];
  }

  /** A branch that reads the node it chose. */
  function SelfReadingBranch(): Step {
    Branch("r", Is("a", 0), Leaf("x", Turn), Some(Leaf("a", Turn)))
  }

  lemma SelfReadingBranchShape()
    ensures var graph := SelfReadingBranch();
      UniqueIds(graph) && ConditionsAvoid(graph, LoopValuedIds(graph)) && !WellScoped(graph)
  {
    var graph := SelfReadingBranch();
    LeafIds("a");
    LeafIds("x");
    IsReads("a", 0, map[]);
    assert Kids(graph) == [Leaf("x", Turn), Leaf("a", Turn)];
    assert "a" in Ids(Kids(graph)[1]);
    assert KidLoopValuedIds(graph) == {};
  }

  /** A branch condition is evaluated again on resume, so work in its own subtree can flip it. */
  lemma NeedsConditionOutsideBranch()
    ensures var graph := SelfReadingBranch();
      && |Uncut(graph, Counting).events| == 2 && Uncut(graph, Counting).events[1].id == "r"
      && ResumedAfter(graph, 1).events != [] && ResumedAfter(graph, 1).events[0].id == "x"
  {
    var graph := SelfReadingBranch();
    var s0 := NewScope();
    var ka, kx := BranchKey("r", false, "a"), BranchKey("r", true, "x");
    var ea := LeafEvent("a", ka, 0);
    IsReads("a", 0, s0.results);
    LeafRun("a", ka, s0);
    assert RunStep(graph, "r", s0, Counting).events == [ea];
    assert Uncut(graph, Counting).events[..1] == [ea];
    var s1 := Apply(s0, ea);
    IsReads("a", 0, s1.results);
    assert ka[2] == 'e' && kx[2] == 't' && |ka| > 1;
    LeafRun("x", kx, s1);
    assert RunStep(graph, "r", s1, Counting).events == [LeafEvent("x", kx, 1)];
  }

  lemma OneKid(step: Step, kid: Step)
    requires Kids(step) == [kid]
    ensures KidIds(step) == Ids(kid) && KidLoopValuedIds(step) == LoopValuedIds(kid)
    ensures UniqueIds(step) <==> UniqueIds(kid) && step.id !in Ids(kid)
  {
    assert Kids(step)[0] == kid;
    assert forall id :: id in Ids(kid) ==> 0 < |Kids(step)| && id in Ids(Kids(step)[0]);
    assert forall id :: id in LoopValuedIds(kid) ==> 0 < |Kids(step)| && id in LoopValuedIds(Kids(step)[0]);
  }

  /** A loop whose `until` reads inside its own body. */
  function SelfReadingLoop(l: string, b: string, a: string): Step {
    Loop(l, Fanout(b, [Leaf(a, Turn)]), 2, Is(a, 1))
  }

  lemma SelfReadingLoopShape(l: string, b: string, a: string)
    requires l != a && l != b && a != b && '.' !in a
    ensures var graph := SelfReadingLoop(l, b, a);
      UniqueIds(graph) && ConditionsAvoid(graph, LoopValuedIds(graph)) && !WellScoped(graph)
  {
    var graph := SelfReadingLoop(l, b, a);
    LeafIds(a);
    IsReads(a, 1, map[]);
    OneKid(graph.body, Leaf(a, Turn));
    OneKid(graph, graph.body);
    assert ConditionsAvoid(graph.body, LoopValuedIds(graph));
  }

  lemma BodyRun(b: string, a: string, key: string, s: Scope)
    requires key !in s.journal && ChildKey(key, 0, a) !in s.journal
    ensures var ea := LeafEvent(a, ChildKey(key, 0, a), s.calls);
      var eb := Event(key, b, Array([Number(s.calls)]), false, false);
      Exec(Fanout(b, [Leaf(a, Turn)]), key, s, Counting) == Run([ea, eb], Done(Array([Number(s.calls)])), false)
  {
    var steps := [Leaf(a, Turn)];
    var ka := ChildKey(key, 0, a);
    var ea := LeafEvent(a, ka, s.calls);
    LeafRun(a, ka, s);
    assert RunKids(steps, key, 1, Apply(s, ea), Counting) == KidsRun([], Some([]));
    assert RunKids(steps, key, 0, s, Counting).events == [ea];
    assert RunKids(steps, key, 0, s, Counting).values.value == [Number(s.calls)];
  }

  lemma SecondIteration(l: string, b: string, a: string)
    ensures var k0, k1 := IterKey(l, 0, b), IterKey(l, 1, b);
      k1 != k0 && k1 != ChildKey(k0, 0, a) && ChildKey(k1, 0, a) != k0 && ChildKey(k1, 0, a) != ChildKey(k0, 0, a)
  {
    assert IterKey(l, 0, b)[|l| + 1] == '0' && IterKey(l, 1, b)[|l| + 1] == '1';
    assert IterKey(l, 0, b) <= ChildKey(IterKey(l, 0, b), 0, a);
    assert IterKey(l, 1, b) <= ChildKey(IterKey(l, 1, b), 0, a);
  }

  /** `until` is evaluated again on resume, so a half-done iteration can stop the loop. */
  lemma NeedsUntilOutsideBody(l: string, b: string, a: string)
    requires l != a && l != b && a != b && '.' !in a
    ensures var graph := SelfReadingLoop(l, b, a);
      && |Uncut(graph, Counting).events| == 5 && Uncut(graph, Counting).events[3].id == b
      && |ResumedAfter(graph, 3).events| == 1 && ResumedAfter(graph, 3).events[0].id == l
  {
    var graph := SelfReadingLoop(l, b, a);
    var s0 := NewScope();
    var k0, k1 := IterKey(l, 0, b), IterKey(l, 1, b);
    var a0, a1 := LeafEvent(a, ChildKey(k0, 0, a), 0), LeafEvent(a, ChildKey(k1, 0, a), 1);
    var b0, b1 := Event(k0, b, Array([Number(0)]), false, false), Event(k1, b, Array([Number(1)]), false, false);
    SecondIteration(l, b, a);
    BodyRun(b, a, k0, s0);
    var s2 := Apply(Apply(s0, a0), b0);
    ApplyTwo(s0, a0, b0);
    IsReads(a, 1, s2.results);
    BodyRun(b, a, k1, s2);
    var s3 := Apply(s2, a1);
    ApplyTwo(s2, a1, b1);
    IsReads(a, 1, Apply(s3, b1).results);
    assert RunLoop(graph, l, 1, s2, Array([Number(0)]), Counting).events == [a1, b1];
    assert RunLoop(graph, l, 0, s0, Undefined, Counting).events == [a0, b0] + [a1, b1];
    StartsAt(graph, l, 0, s0.journal);
    var inner := RunStep(graph, l, s0, Counting);
    assert inner == RunLoop(graph, l, 0, s0, Undefined, Counting);
    assert Uncut(graph, Counting) == Record(graph, l, inner);
    assert Uncut(graph, Counting).events[..3] == [a0, b0] + [a1];
    ApplyAllConcat(s0, [a0, b0], [a1]);
    ApplyOne(s2, a1);
    IsReads(a, 1, s3.results);
    StartsAt(graph, l, 1, s3.journal);
    assert l !in s3.journal;
    assert RunStep(graph, l, s3, Counting).events == [];
  }

  /** A branch that reads a loop's value. */
  function LoopReader(q: string, l: string, a: string, r: string, x: string): Step {
    Sequence(q, [Loop(l, Leaf(a, Turn), 1, Is(a, 7)), Branch(r, Is(l, 0), Leaf(x, Turn), None)])
  }

  lemma LoopReaderParts(l: string, a: string, r: string, x: string)
    requires '.' !in a && '.' !in l && l != a && l != r && l != x && r != x
    ensures var loop, branch := Loop(l, Leaf(a, Turn), 1, Is(a, 7)), Branch(r, Is(l, 0), Leaf(x, Turn), None);
      && Ids(loop) == {l, a} && Ids(branch) == {r, x}
      && UniqueIds(loop) && UniqueIds(branch) && WellScoped(loop) && WellScoped(branch)
      && Reads(Is(l, 0)) == l
  {
    LeafIds(a);
    LeafIds(x);
    IsReads(a, 7, map[]);
    IsReads(l, 0, map[]);
    OneKid(Loop(l, Leaf(a, Turn), 1, Is(a, 7)), Leaf(a, Turn));
    OneKid(Branch(r, Is(l, 0), Leaf(x, Turn), None), Leaf(x, Turn));
    assert Kids(Leaf(a, Turn)) == [];
  }

  lemma LoopReaderShape(q: string, l: string, a: string, r: string, x: string)
    requires '.' !in a && '.' !in l
    requires q != l && q != a && q != r && q != x && l != a && l != r && l != x && a != r && a != x && r != x
    ensures var graph := LoopReader(q, l, a, r, x);
      UniqueIds(graph) && WellScoped(graph) && !ConditionsAvoid(graph, LoopValuedIds(graph))
  {
    var graph := LoopReader(q, l, a, r, x);
    LoopReaderParts(l, a, r, x);
    assert Kids(graph) == [graph.steps[0], graph.steps[1]];
    assert q !in KidIds(graph);
    LoopReaderReads(q, l, a, r, x);
  }

  lemma LoopReaderReads(q: string, l: string, a: string, r: string, x: string)
    requires Reads(Is(l, 0)) == l
    ensures var graph := LoopReader(q, l, a, r, x);
      !ConditionsAvoid(graph, LoopValuedIds(graph))
  {
    var graph := LoopReader(q, l, a, r, x);
    assert l in LoopValuedIds(Kids(graph)[0]);
    assert l in LoopValuedIds(graph);
    assert !ConditionsAvoid(Kids(graph)[1], LoopValuedIds(graph));
  }

  /** Keys of the loop, the branch and what runs below them are all different. */
  lemma LoopReaderKeys(q: string, l: string, a: string, r: string, x: string)
    ensures var kl, kr := ChildKey(q, 0, l), ChildKey(q, 1, r);
      var ka, kx := IterKey(kl, 0, a), BranchKey(kr, true, x);
      && kl != kr && ka != kl && ka != kr && kx != kr && kx != ka && kx != kl
      && |q| < |kl| && |q| < |kr| && |kl| < |ka| && |kr| < |kx|
  {
    var kl, kr := ChildKey(q, 0, l), ChildKey(q, 1, r);
    var ka, kx := IterKey(kl, 0, a), BranchKey(kr, true, x);
    assert kl <= ka && kr <= kx;
    assert kl[|q| + 1] == '0' && kr[|q| + 1] == '1' && ka[|q| + 1] == '0' && kx[|q| + 1] == '1';
  }

  /** The loop runs its one permitted iteration. */
  lemma LoopReaderLoop(l: string, a: string, path: string)
    requires '.' !in a
    ensures var loop := Loop(l, Leaf(a, Turn), 1, Is(a, 7));
      var es := [LeafEvent(a, IterKey(path, 0, a), 0), Event(path, l, Number(0), false, true)];
      Exec(loop, path, NewScope(), Counting) == Run(es, Done(Number(0)), false)
  {
    var loop, s := Loop(l, Leaf(a, Turn), 1, Is(a, 7)), NewScope();
    var ea := LeafEvent(a, IterKey(path, 0, a), 0);
    LeafRun(a, ea.key, s);
    IsReads(a, 7, Apply(s, ea).results);
    StartsAt(loop, path, 0, s.journal);
    assert RunLoop(loop, path, 0, s, Undefined, Counting) == Run([ea], Done(Number(0)), true);
  }

  /** The branch takes its arm exactly when the loop's value is there. */
  lemma LoopReaderBranch(l: string, r: string, x: string, path: string, s: Scope)
    requires '.' !in l && path !in s.journal && BranchKey(path, true, x) !in s.journal
    ensures var branch := Branch(r, Is(l, 0), Leaf(x, Turn), None);
      Exec(branch, path, s, Counting) ==
        if Lookup(s.results, l) == Number(0) then
          Run([LeafEvent(x, BranchKey(path, true, x), s.calls), Event(path, r, Number(s.calls), false, false)],
              Done(Number(s.calls)), false)
        else Run([Event(path, r, Undefined, false, false)], Done(Undefined), false)
  {
    IsReads(l, 0, s.results);
    LeafRun(x, BranchKey(path, true, x), s);
  }

  lemma LoopReaderUncut(q: string, l: string, a: string, r: string, x: string)
    requires '.' !in a && '.' !in l
    ensures var es := Uncut(LoopReader(q, l, a, r, x), Counting).events;
      |es| == 5 && es[0] == LeafEvent(a, IterKey(ChildKey(q, 0, l), 0, a), 0) && es[2].id == x
  {
    var graph := LoopReader(q, l, a, r, x);
    var kl, kr := ChildKey(q, 0, l), ChildKey(q, 1, r);
    LoopReaderKeys(q, l, a, r, x);
    LoopReaderLoop(l, a, kl);
    var ea, el := LeafEvent(a, IterKey(kl, 0, a), 0), Event(kl, l, Number(0), false, true);
    ApplyTwo(NewScope(), ea, el);
    var s2 := Apply(Apply(NewScope(), ea), el);
    LoopReaderBranch(l, r, x, kr, s2);
    var ex, er := LeafEvent(x, BranchKey(kr, true, x), 1), Event(kr, r, Number(1), false, false);
    TwoKids(graph.steps[0], graph.steps[1], q, NewScope(), [ea, el], Number(0), [ex, er], Number(1));
    assert graph.steps == [graph.steps[0], graph.steps[1]];
    assert RunStep(graph, q, NewScope(), Counting).events == [ea, el] + [ex, er];
  }

  /** A loop that is cut after its last iteration loses its value, and a condition that reads it flips. */
  lemma NeedsConditionsOffLoopValues(q: string, l: string, a: string, r: string, x: string)
    requires '.' !in a && '.' !in l && l != a
    ensures var graph := LoopReader(q, l, a, r, x);
      && |Uncut(graph, Counting).events| == 5 && Uncut(graph, Counting).events[2].id == x
      && |ResumedAfter(graph, 1).events| == 3 && ResumedAfter(graph, 1).events[1].id == r
  {
    LoopReaderUncut(q, l, a, r, x);
    var ea := LeafEvent(a, IterKey(ChildKey(q, 0, l), 0, a), 0);
    assert Uncut(LoopReader(q, l, a, r, x), Counting).events[..1] == [ea];
    ApplyOne(NewScope(), ea);
    LoopReaderResumed(q, l, a, r, x);
  }

  lemma LoopReaderResumed(q: string, l: string, a: string, r: string, x: string)
    requires '.' !in a && '.' !in l && l != a
    ensures var graph := LoopReader(q, l, a, r, x);
      var s1 := Apply(NewScope(), LeafEvent(a, IterKey(ChildKey(q, 0, l), 0, a), 0));
      var es := Exec(graph, q, s1, Counting).events;
      |es| == 3 && es[1].id == r
  {
    var graph := LoopReader(q, l, a, r, x);
    var kl, kr := ChildKey(q, 0, l), ChildKey(q, 1, r);
    LoopReaderKeys(q, l, a, r, x);
    var s1 := Apply(NewScope(), LeafEvent(a, IterKey(kl, 0, a), 0));
    var el := Event(kl, l, Undefined, false, true);
    LoopReaderEnded(l, a, kl, s1);
    ApplyOne(s1, el);
    LoopReaderBranch(l, r, x, kr, Apply(s1, el));
    var er := Event(kr, r, Undefined, false, false);
    TwoKids(graph.steps[0], graph.steps[1], q, s1, [el], Undefined, [er], Undefined);
    assert graph.steps == [graph.steps[0], graph.steps[1]];
    assert RunStep(graph, q, s1, Counting).events == [el] + [er];
  }

  /** Resumed after that iteration, the loop completes without a value. */
  lemma LoopReaderEnded(l: string, a: string, path: string, s: Scope)
    requires '.' !in a && path !in s.journal && IterKey(path, 0, a) in s.journal
    requires Lookup(s.results, a) == Number(0)
    ensures var loop := Loop(l, Leaf(a, Turn), 1, Is(a, 7));
      Exec(loop, path, s, Counting) == Run([Event(path, l, Undefined, false, true)], Done(Undefined), false)
  {
    var loop := Loop(l, Leaf(a, Turn), 1, Is(a, 7));
    IsReads(a, 7, s.results);
    StartsAt(loop, path, 1, s.journal);
    assert RunLoop(loop, path, 1, s, Undefined, Counting) == Run([], Done(Undefined), true);
  }
}
