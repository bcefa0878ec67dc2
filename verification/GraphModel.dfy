/**
 Values that travel through a step graph, and the serializable conditions that
 read them.
 */
module GraphValues {
  import opened Text

  /** A JSON value, with `undefined` and insertion-ordered object fields. */
  datatype Json =
    | Undefined
    | Null
    | Bool(b: bool)
    | Number(n: int)
    | String(s: string)
    | Array(items: seq<Json>)
    | Object(fields: seq<Entry>)

  datatype Entry = Entry(key: string, value: Json)

  type Results = map<string, Json>

  /** `results[id]`, with `undefined` for an absent key. */
  function Lookup(results: Results, id: string): Json {
    if id in results then results[id] else Undefined
  }

  function Field(fields: seq<Entry>, key: string): Json {
    if fields == [] then Undefined
    else if fields[0].key == key then fields[0].value
    else Field(fields[1..], key)
  }

  /** `value[key]` as `resolvePath` reads it: only objects and arrays have members. */
  function Member(value: Json, key: string): Json {
    match value
    case Object(fields) => Field(fields, key)
    case Array(items) =>
      if key == "length" then Number(|items|)
      else if key != [] && AllDigits(key) && Decimal(ParseDigits(key)) == key && ParseDigits(key) < |items|
      then items[ParseDigits(key)]
      else Undefined
    case _ => Undefined
  }

  function Walk(value: Json, keys: seq<string>): Json
    decreases keys
  {
    if keys == [] then value else Walk(Member(value, keys[0]), keys[1..])
  }

  /**
   What `JSON.stringify` keeps of a value: nothing of `undefined`, `null` for an
   undefined array item, and no undefined object fields. Two values print the
   same text exactly when these forms are equal.
   */
  function Printed(value: Json): Option<Json> {
    match value
    case Undefined => None
    case Array(items) => Some(Array(PrintedItems(items)))
    case Object(fields) => Some(Object(PrintedFields(fields)))
    case _ => Some(value)
  }

  function PrintedItems(items: seq<Json>): seq<Json> {
    if items == [] then []
    else
      var head := Printed(items[0]);
      [if head.Some? then head.value else Null] + PrintedItems(items[1..])
  }

  function PrintedFields(fields: seq<Entry>): seq<Entry> {
    if fields == [] then []
    else
      var head := Printed(fields[0].value);
      (if head.Some? then [Entry(fields[0].key, head.value)] else []) + PrintedFields(fields[1..])
  }

  /** A serializable predicate over accumulated results. */
  datatype Condition = Condition(path: string, equals: Json)

  /** The one node id a condition reads: the first segment of its dotted path. */
  function Reads(c: Condition): string {
    Split(c.path, '.')[0]
  }

  function Resolve(results: Results, path: string): Json {
    var keys := Split(path, '.');
    Walk(Lookup(results, keys[0]), keys[1..])
  }

  predicate Matches(c: Condition, results: Results) {
    Printed(Resolve(results, c.path)) == Printed(c.equals)
  }

  // ----- what a path reads

  lemma {:induction false} WalkSnoc(value: Json, keys: seq<string>, key: string)
    ensures Walk(value, keys + [key]) == Member(Walk(value, keys), key)
    decreases keys
  {
    if keys == [] {
      assert [] + [key] == [key] && [key][1..] == [];
      assert Walk(Member(value, key), []) == Member(value, key);
    } else {
      assert (keys + [key])[1..] == keys[1..] + [key];
      WalkSnoc(Member(value, keys[0]), keys[1..], key);
    }
  }

  /** A path without a dot reads a node's result; every further segment reads one member deeper. */
  lemma ResolveMember(results: Results, path: string, key: string)
    requires '.' !in key
    ensures Resolve(results, key) == Lookup(results, key)
    ensures Resolve(results, path + "." + key) == Member(Resolve(results, path), key)
  {
    SplitWhole(key, '.');
    SplitConcat(path, key, '.');
    var keys := Split(path, '.');
    assert Split(path + "." + key, '.') == keys + [key];
    assert (keys + [key])[1..] == keys[1..] + [key];
    WalkSnoc(Lookup(results, keys[0]), keys[1..], key);
  }

  /** A member of an object is the value of its field, and undefined when it has no such field. */
  lemma {:induction false} ObjectMember(fields: seq<Entry>, key: string)
    requires forall i, j :: 0 <= i < j < |fields| ==> fields[i].key != fields[j].key
    ensures forall i :: 0 <= i < |fields| && fields[i].key == key ==> Member(Object(fields), key) == fields[i].value
    ensures (forall i :: 0 <= i < |fields| ==> fields[i].key != key) ==> Member(Object(fields), key) == Undefined
  {
    if fields != [] && fields[0].key != key {
      ObjectMember(fields[1..], key);
      assert forall i :: 1 <= i < |fields| ==> fields[i] == fields[1..][i - 1];
    }
  }

  /** A member of an array is the item at that index, written in decimal, or its length. */
  lemma ArrayMember(items: seq<Json>, i: nat)
    ensures Member(Array(items), Decimal(i)) == if i < |items| then items[i] else Undefined
    ensures Member(Array(items), "length") == Number(|items|)
  {
    ParseDecimal(i);
    assert Decimal(i)[0] != "length"[0];
  }

  /** Nothing else has members. */
  lemma NoMember(value: Json, key: string)
    requires !value.Object? && !value.Array?
    ensures Member(value, key) == Undefined
  {
  }
}

/**
 The journalled step-graph interpreter as a specification: what one execution of
 a node does from a given scope, as the list of node completions it makes. A run
 that is cut off at a node boundary has made a prefix of that list.
 */
module GraphModel {
  import opened Text
  import opened GraphValues

  /** The three kinds of node that call a handler. */
  datatype Handler = Turn | Activity | ChildWorkflow

  datatype Step =
    | Leaf(id: string, handler: Handler)
    | Sequence(id: string, steps: seq<Step>)
    | Fanout(id: string, steps: seq<Step>)
    | Branch(id: string, condition: Condition, onTrue: Step, onFalse: Option<Step>)
    | Loop(id: string, body: Step, maxIterations: int, until: Condition)

  /**
   The scope carried across continue-as-new, plus the number of handler calls
   that have returned so far.
   */
  datatype Scope = Scope(
    results: Results, completed: seq<string>, journal: set<string>, calls: nat)

  function NewScope(): Scope {
    Scope(map[], [], {}, 0)
  }

  /** The k-th handler call returns this value, or throws. */
  type Answers = nat -> Option<Json>

  /**
   One node completion. `exhausted` marks a loop that stopped because its
   iterations ran out.
   */
  datatype Event = Event(key: string, id: string, value: Json, leaf: bool, exhausted: bool)

  datatype Outcome = Done(value: Json) | Threw

  datatype Run = Run(events: seq<Event>, out: Outcome, exhausted: bool)

  /** The outcome of running several children in order. */
  datatype KidsRun = KidsRun(events: seq<Event>, values: Option<seq<Json>>)

  // ----- occurrence keys

  function ChildKey(path: string, i: nat, id: string): string {
    path + "/" + Decimal(i) + ":" + id
  }

  function BranchKey(path: string, taken: bool, id: string): string {
    path + (if taken then "/then:" else "/else:") + id
  }

  function IterKey(path: string, i: nat, id: string): string {
    path + "#" + Decimal(i) + "/" + id
  }

  // ----- recording completions

  function Apply(s: Scope, e: Event): Scope {
    Scope(
      s.results[e.id := e.value],
      s.completed + [e.id],
      s.journal + {e.key},
      s.calls + if e.leaf then 1 else 0)
  }

  function ApplyAll(s: Scope, es: seq<Event>): Scope
    decreases es
  {
    if es == [] then s else ApplyAll(Apply(s, es[0]), es[1..])
  }

  // ----- the interpreter

  /** `executeGraph`: a journalled occurrence is a cache hit, any other is run and recorded. */
  function Exec(step: Step, path: string, s: Scope, answers: Answers): Run
    decreases step, 2, 0
  {
    if path in s.journal then Run([], Done(Lookup(s.results, step.id)), false)
    else Record(step, path, RunStep(step, path, s, answers))
  }

  /** A node that returned a value is recorded as complete; a throw unwinds past it. */
  function Record(step: Step, path: string, r: Run): Run {
    if r.out.Threw? then Run(r.events, Threw, false)
    else Run(r.events + [Event(path, step.id, r.out.value, step.Leaf?, r.exhausted)], r.out, false)
  }

  /** A completed child, then its later siblings. */
  function Prepend(head: Run, rest: KidsRun): KidsRun
    requires head.out.Done?
  {
    KidsRun(head.events + rest.events,
            if rest.values.None? then None else Some([head.out.value] + rest.values.value))
  }

  /** A completed iteration, then the later ones. */
  function Then(head: Run, rest: Run): Run {
    Run(head.events + rest.events, rest.out, rest.exhausted)
  }

  /** `runStep`: the completions of a node's descendants, and the node's own value. */
  function RunStep(step: Step, path: string, s: Scope, answers: Answers): Run
    decreases step, 1, 0
  {
    match step
    case Leaf(_, _) =>
      var answer := answers(s.calls);
      Run([], if answer.Some? then Done(answer.value) else Threw, false)
    case Sequence(_, steps) =>
      var r := RunKids(steps, path, 0, s, answers);
      if r.values.None? then Run(r.events, Threw, false) else Run(r.events, Done(LastValue(r.values.value)), false)
    case Fanout(_, steps) =>
      var r := RunKids(steps, path, 0, s, answers);
      if r.values.None? then Run(r.events, Threw, false) else Run(r.events, Done(Array(r.values.value)), false)
    case Branch(_, condition, onTrue, onFalse) =>
      if Matches(condition, s.results) then
        Exec(onTrue, BranchKey(path, true, onTrue.id), s, answers)
      else if onFalse.Some? then
        Exec(onFalse.value, BranchKey(path, false, onFalse.value.id), s, answers)
      else Run([], Done(Undefined), false)
    case Loop(_, body, _, until) =>
      var start := FirstOpen(step, path, 0, s.journal);
      if start > 0 && Matches(until, s.results) then Run([], Done(Lookup(s.results, body.id)), false)
      else RunLoop(step, path, start, s, Undefined, answers)
  }

  function LastValue(values: seq<Json>): Json {
    if values == [] then Undefined else values[|values| - 1]
  }

  /** Children `i..` one after another, each from the scope its predecessors left. */
  function RunKids(steps: seq<Step>, path: string, i: nat, s: Scope, answers: Answers): KidsRun
    requires i <= |steps|
    decreases steps, 0, |steps| - i
  {
    if i == |steps| then KidsRun([], Some([]))
    else
      var head := Exec(steps[i], ChildKey(path, i, steps[i].id), s, answers);
      if head.out.Threw? then KidsRun(head.events, None)
      else Prepend(head, RunKids(steps, path, i + 1, ApplyAll(s, head.events), answers))
  }

  /** The first iteration at or after `i` that is not journalled, or the iteration bound. */
  function FirstOpen(step: Step, path: string, i: nat, journal: set<string>): (start: nat)
    requires step.Loop?
    ensures i <= start
    ensures start < step.maxIterations ==> IterKey(path, start, step.body.id) !in journal
    ensures forall j :: i <= j < start ==> IterKey(path, j, step.body.id) in journal
    ensures start <= step.maxIterations || start == i
    decreases step.maxIterations - i
  {
    if i < step.maxIterations && IterKey(path, i, step.body.id) in journal
    then FirstOpen(step, path, i + 1, journal) else i
  }

  /** Iterations `i..`; `last` is the value of the latest iteration this run made. */
  function RunLoop(step: Step, path: string, i: nat, s: Scope, last: Json, answers: Answers): Run
    requires step.Loop?
    decreases step, 0, step.maxIterations - i
  {
    if i >= step.maxIterations then Run([], Done(last), true)
    else
      var head := Exec(step.body, IterKey(path, i, step.body.id), s, answers);
      if head.out.Threw? then head
      else
        var s' := ApplyAll(s, head.events);
        if Matches(step.until, s'.results) then head
        else Then(head, RunLoop(step, path, i + 1, s', head.out.value, answers))
  }

  // ----- the static shape of a graph

  function Kids(step: Step): (kids: seq<Step>)
    ensures forall i :: 0 <= i < |kids| ==> kids[i] < step
  {
    match step
    case Leaf(_, _) => []
    case Sequence(_, steps) => steps
    case Fanout(_, steps) => steps
    case Branch(_, _, onTrue, onFalse) => if onFalse.Some? then [onTrue, onFalse.value] else [onTrue]
    case Loop(_, body, _, _) => [body]
  }

  ghost function Ids(step: Step): set<string>
    decreases step, 1
  {
    {step.id} + KidIds(step)
  }

  /** The ids of a node's strict descendants. */
  ghost function KidIds(step: Step): set<string>
    decreases step, 0
  {
    var kids := Kids(step);
    set i, id | 0 <= i < |kids| && id in Ids(kids[i]) :: id
  }

  ghost function LoopIds(step: Step): set<string> {
    var kids := Kids(step);
    (if step.Loop? then {step.id} else {}) + set i, id | 0 <= i < |kids| && id in LoopIds(kids[i]) :: id
  }

  /** Every node id occurs once. */
  ghost predicate UniqueIds(step: Step) {
    var kids := Kids(step);
    && step.id !in KidIds(step)
    && (forall i :: 0 <= i < |kids| ==> UniqueIds(kids[i]))
    && (forall i, j :: 0 <= i < j < |kids| ==> Ids(kids[i]) !! Ids(kids[j]))
  }

  /**
   No branch condition reads inside the branch's own subtree, and no `until`
   reads a strict descendant of its loop body.
   */
  ghost predicate WellScoped(step: Step) {
    var kids := Kids(step);
    && (step.Branch? ==> Reads(step.condition) !in KidIds(step))
    && (step.Loop? ==> Reads(step.until) !in KidIds(step.body))
    && (forall i :: 0 <= i < |kids| ==> WellScoped(kids[i]))
  }

  /**
   A set of composite ids that no condition reads and that holds a node whenever
   it holds a child the node's value is taken from.
   */
  ghost predicate Closed(step: Step, T: set<string>) {
    var kids := Kids(step);
    && (step.Leaf? ==> step.id !in T)
    && (step.Branch? ==> Reads(step.condition) !in T)
    && (step.Loop? ==> Reads(step.until) !in T)
    && (forall i :: 0 <= i < |kids| && kids[i].id in T && (step.Sequence? ==> i == |kids| - 1) ==> step.id in T)
    && (forall i :: 0 <= i < |kids| ==> Closed(kids[i], T))
  }

  // ----- agreement outside a set of ids

  ghost predicate ScopesAgree(T: set<string>, a: Scope, b: Scope) {
    && a.completed == b.completed && a.journal == b.journal && a.calls == b.calls
    && a.results.Keys == b.results.Keys
    && (forall id :: id in a.results && id !in T ==> a.results[id] == b.results[id])
  }

  ghost predicate EventAgrees(T: set<string>, a: Event, b: Event) {
    && a.key == b.key && a.id == b.id && a.leaf == b.leaf
    && (a.leaf || a.id !in T ==> a.value == b.value)
  }

  ghost predicate EventsAgree(T: set<string>, a: seq<Event>, b: seq<Event>) {
    && |a| == |b|
    && (forall i :: 0 <= i < |a| ==> EventAgrees(T, a[i], b[i]))
  }

  ghost predicate OutAgrees(T: set<string>, id: string, a: Outcome, b: Outcome) {
    && a.Done? == b.Done?
    && (a.Done? && id !in T ==> a.value == b.value)
  }

  // ----- all the occurrences a graph can ever have

  function Occurrences(step: Step, path: string): seq<string>
    decreases step, 1, 0
  {
    [path] +
    match step
    case Leaf(_, _) => []
    case Sequence(_, steps) => KidOccurrences(steps, path, 0)
    case Fanout(_, steps) => KidOccurrences(steps, path, 0)
    case Branch(_, _, onTrue, onFalse) =>
      Occurrences(onTrue, BranchKey(path, true, onTrue.id)) +
      if onFalse.Some? then Occurrences(onFalse.value, BranchKey(path, false, onFalse.value.id)) else []
    case Loop(_, _, _, _) => IterOccurrences(step, path, 0)
  }

  function KidOccurrences(steps: seq<Step>, path: string, i: nat): seq<string>
    requires i <= |steps|
    decreases steps, 0, |steps| - i
  {
    if i == |steps| then []
    else Occurrences(steps[i], ChildKey(path, i, steps[i].id)) + KidOccurrences(steps, path, i + 1)
  }

  function IterOccurrences(step: Step, path: string, i: nat): seq<string>
    requires step.Loop?
    decreases step, 0, step.maxIterations - i
  {
    if i >= step.maxIterations then []
    else Occurrences(step.body, IterKey(path, i, step.body.id)) + IterOccurrences(step, path, i + 1)
  }

  /** The static occurrence count: a sum over children, times the bound of each loop. */
  function Count(step: Step): nat
    decreases step, 1
  {
    1 +
    match step
    case Leaf(_, _) => 0
    case Sequence(_, steps) => CountKids(steps)
    case Fanout(_, steps) => CountKids(steps)
    case Branch(_, _, onTrue, onFalse) => Count(onTrue) + if onFalse.Some? then Count(onFalse.value) else 0
    case Loop(_, body, maxIterations, _) => if maxIterations > 0 then maxIterations * Count(body) else 0
  }

  function CountKids(steps: seq<Step>): nat
    decreases steps, 0
  {
    if steps == [] then 0 else Count(steps[0]) + CountKids(steps[1..])
  }
}
