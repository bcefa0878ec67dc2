/**
 Artifact provenance and retention: a depth-limited walk backwards along
 `producedFrom`, the set of digests the index can still reach, and the sweep that
 deletes every stored blob outside it.
 */
module Retention {
  import opened Text

  type Digest = string

  /** What each recorded artifact was produced from. */
  type Index = map<Digest, seq<Digest>>

  function Inputs(index: Index, d: Digest): seq<Digest> {
    if d in index then index[d] else []
  }

  // ----- reachability

  ghost predicate IsChain(index: Index, chain: seq<Digest>) {
    |chain| > 0 && forall i :: 0 <= i < |chain| - 1 ==> chain[i + 1] in Inputs(index, chain[i])
  }

  /** A chain of `producedFrom` references leads from one digest to another. */
  ghost predicate Reaches(index: Index, from: Digest, to: Digest) {
    exists chain :: IsChain(index, chain) && chain[0] == from && chain[|chain| - 1] == to
  }

  lemma ReachesSelf(index: Index, d: Digest)
    ensures Reaches(index, d, d)
  {
    assert IsChain(index, [d]);
  }

  lemma ReachesNext(index: Index, from: Digest, d: Digest, next: Digest)
    requires Reaches(index, from, d) && next in Inputs(index, d)
    ensures Reaches(index, from, next)
  {
    var chain :| IsChain(index, chain) && chain[0] == from && chain[|chain| - 1] == d;
    assert IsChain(index, chain + [next]);
  }

  /** A set that holds the start and every input of its members holds everything reachable. */
  lemma {:induction false} ClosedHoldsChain(index: Index, s: set<Digest>, chain: seq<Digest>, n: nat)
    requires IsChain(index, chain) && n < |chain| && chain[0] in s
    requires forall d, i :: d in s && i in Inputs(index, d) ==> i in s
    ensures chain[n] in s
  {
    if n > 0 {
      ClosedHoldsChain(index, s, chain, n - 1);
      assert chain[n - 1 + 1] in Inputs(index, chain[n - 1]);
    }
  }

  lemma ClosedHoldsReachable(index: Index, s: set<Digest>, from: Digest)
    requires from in s && forall d, i :: d in s && i in Inputs(index, d) ==> i in s
    ensures forall to :: Reaches(index, from, to) ==> to in s
  {
    forall to | Reaches(index, from, to) ensures to in s {
      var chain :| IsChain(index, chain) && chain[0] == from && chain[|chain| - 1] == to;
      ClosedHoldsChain(index, s, chain, |chain| - 1);
    }
  }

  // ----- the walk

  datatype Visit = Visit(id: Digest, depth: int)

  datatype Report = Report(nodes: seq<Digest>, gaps: seq<Digest>, truncated: bool, intact: bool)

  /** Every digest the walk could ever put on its stack. */
  ghost function Universe(index: Index, from: Digest): set<Digest> {
    {from} + index.Keys + set d, i | d in index && i in index[d] :: i
  }

  ghost predicate OnStack(stack: seq<Visit>, d: Digest, deepest: int) {
    exists k :: 0 <= k < |stack| && stack[k].id == d && stack[k].depth <= deepest
  }

  ghost predicate SeenOrPending(seen: set<Digest>, stack: seq<Visit>, d: Digest) {
    d in seen || exists k :: 0 <= k < |stack| && stack[k].id == d
  }

  function Push(stack: seq<Visit>, inputs: seq<Digest>, depth: int): seq<Visit> {
    stack + seq(|inputs|, i requires 0 <= i < |inputs| => Visit(inputs[i], depth))
  }

  lemma PushHolds(stack: seq<Visit>, inputs: seq<Digest>, depth: int)
    ensures var pushed := Push(stack, inputs, depth);
      && (forall k :: 0 <= k < |stack| ==> pushed[k] == stack[k])
      && (forall i :: i in inputs ==> OnStack(pushed, i, depth))
      && (forall k :: |stack| <= k < |pushed| ==> pushed[k].id in inputs && pushed[k].depth == depth)
  {
    var pushed := Push(stack, inputs, depth);
    forall i | i in inputs ensures OnStack(pushed, i, depth) {
      var k :| 0 <= k < |inputs| && inputs[k] == i;
      assert pushed[|stack| + k] == Visit(i, depth);
    }
  }

  /** The facts the walk keeps about what it has seen and what is still on its stack. */
  ghost predicate Walking(
      index: Index, from: Digest, seen: set<Digest>, nodes: seq<Digest>, gaps: seq<Digest>, stack: seq<Visit>) {
    && Distinct(nodes) && (forall d :: d in nodes <==> d in seen)
    && (forall d :: d in gaps <==> d in seen && d !in index)
    && (forall d :: d in seen ==> Reaches(index, from, d))
    && seen <= Universe(index, from)
    && Pending(index, from, stack)
  }

  ghost predicate Pending(index: Index, from: Digest, stack: seq<Visit>) {
    forall k :: 0 <= k < |stack| ==> Reaches(index, from, stack[k].id) && stack[k].id in Universe(index, from)
  }

  /** Nothing has been dropped yet: the inputs of all that was seen are seen or pending. */
  ghost predicate Complete(index: Index, from: Digest, seen: set<Digest>, stack: seq<Visit>) {
    && SeenOrPending(seen, stack, from)
    && forall d, i :: d in seen && i in Inputs(index, d) ==> SeenOrPending(seen, stack, i)
  }

  /** The start is seen first, and its direct inputs never sit deeper than one. */
  ghost predicate StartFirst(index: Index, from: Digest, seen: set<Digest>, stack: seq<Visit>) {
    && (from !in seen ==> stack == [Visit(from, 0)])
    && (from in seen ==> forall i :: i in Inputs(index, from) ==> i in seen || OnStack(stack, i, 1))
  }

  // How deep the walk goes.

  /** A chain from the start that goes through no digest twice. */
  ghost predicate Simple(index: Index, from: Digest, chain: seq<Digest>) {
    IsChain(index, chain) && chain[0] == from && Distinct(chain)
  }

  /** Some simple chain of at most `n` digests ends at `d`. */
  ghost predicate Within(index: Index, from: Digest, d: Digest, n: int) {
    exists chain :: Simple(index, from, chain) && |chain| <= n && chain[|chain| - 1] == d
  }

  /** Some simple chain has one digest more than the depth limit admits. */
  ghost predicate TooLong(index: Index, from: Digest, maxDepth: int) {
    exists chain :: Simple(index, from, chain) && |chain| == maxDepth + 2
  }

  /** The chain that put the visit on the stack: digests already seen, then the one to visit. */
  ghost predicate IsTrail(index: Index, from: Digest, seen: set<Digest>, v: Visit, chain: seq<Digest>) {
    && IsChain(index, chain) && chain[0] == from && |chain| == v.depth + 1 && chain[v.depth] == v.id
    && Distinct(chain[..v.depth]) && (forall i :: 0 <= i < v.depth ==> chain[i] in seen)
  }

  ghost predicate HasTrail(index: Index, from: Digest, seen: set<Digest>, v: Visit) {
    exists chain :: IsTrail(index, from, seen, v, chain)
  }

  ghost predicate Depths(
      index: Index, from: Digest, maxDepth: int, seen: set<Digest>, truncated: bool, stack: seq<Visit>)
  {
    && (forall k :: 0 <= k < |stack| ==> HasTrail(index, from, seen, stack[k]))
    && (forall d :: d in seen ==> Within(index, from, d, maxDepth + 1))
    && (maxDepth >= 0 && truncated ==> TooLong(index, from, maxDepth))
  }

  /** A digest not seen yet ends a simple chain one longer than its depth. */
  lemma TrailIsSimple(index: Index, from: Digest, seen: set<Digest>, v: Visit) returns (chain: seq<Digest>)
    requires HasTrail(index, from, seen, v) && v.id !in seen
    ensures Simple(index, from, chain) && IsTrail(index, from, seen, v, chain)
  {
    chain :| IsTrail(index, from, seen, v, chain);
    forall i, j | 0 <= i < j < |chain| ensures chain[i] != chain[j] {
      if j < v.depth { assert chain[..v.depth][i] == chain[i] && chain[..v.depth][j] == chain[j]; }
    }
  }

  lemma DeepSkip(index: Index, from: Digest, maxDepth: int, seen: set<Digest>, truncated: bool, stack: seq<Visit>)
    requires Depths(index, from, maxDepth, seen, truncated, stack) && stack != []
    requires stack[|stack| - 1].id !in seen && stack[|stack| - 1].depth > maxDepth
    ensures Depths(index, from, maxDepth, seen, true, stack[..|stack| - 1])
  {
    if maxDepth >= 0 {
      var chain := TrailIsSimple(index, from, seen, stack[|stack| - 1]);
      assert Simple(index, from, chain[..maxDepth + 2]);
    }
  }

  lemma TrailGrows(index: Index, from: Digest, seen: set<Digest>, v: Visit, id: Digest)
    requires HasTrail(index, from, seen, v)
    ensures HasTrail(index, from, seen + {id}, v)
  {
    var chain :| IsTrail(index, from, seen, v, chain);
    assert IsTrail(index, from, seen + {id}, v, chain);
  }

  lemma TrailExtends(index: Index, from: Digest, seen: set<Digest>, v: Visit, next: Digest)
    requires HasTrail(index, from, seen, v) && v.id !in seen && next in Inputs(index, v.id)
    ensures HasTrail(index, from, seen + {v.id}, Visit(next, v.depth + 1))
  {
    var chain := TrailIsSimple(index, from, seen, v);
    assert (chain + [next])[..v.depth + 1] == chain;
    assert IsTrail(index, from, seen + {v.id}, Visit(next, v.depth + 1), chain + [next]);
  }

  lemma VisitDepths(
      index: Index, from: Digest, maxDepth: int, seen: set<Digest>, truncated: bool, stack: seq<Visit>)
    requires Depths(index, from, maxDepth, seen, truncated, stack) && stack != []
    requires stack[|stack| - 1].id !in seen && stack[|stack| - 1].depth <= maxDepth
    ensures var top := stack[|stack| - 1];
      Depths(index, from, maxDepth, seen + {top.id}, truncated,
             Push(stack[..|stack| - 1], Inputs(index, top.id), top.depth + 1))
  {
    var top, rest := stack[|stack| - 1], stack[..|stack| - 1];
    var stack' := Push(rest, Inputs(index, top.id), top.depth + 1);
    PushHolds(rest, Inputs(index, top.id), top.depth + 1);
    forall k | 0 <= k < |stack'| ensures HasTrail(index, from, seen + {top.id}, stack'[k]) {
      if k < |rest| {
        TrailGrows(index, from, seen, stack[k], top.id);
      } else {
        TrailExtends(index, from, seen, top, stack'[k].id);
      }
    }
    var chain := TrailIsSimple(index, from, seen, top);
    assert Within(index, from, top.id, maxDepth + 1);
  }

  lemma StartDepths(index: Index, from: Digest, maxDepth: int)
    ensures Depths(index, from, maxDepth, {}, false, [Visit(from, 0)])
  {
    assert IsTrail(index, from, {}, Visit(from, 0), [from]);
  }

  /** All that holds at the head of the loop. */
  ghost predicate WalkInv(
      index: Index, from: Digest, maxDepth: int, seen: set<Digest>, nodes: seq<Digest>, gaps: seq<Digest>,
      truncated: bool, stack: seq<Visit>)
  {
    && Walking(index, from, seen, nodes, gaps, stack)
    && (!truncated ==> Complete(index, from, seen, stack))
    && (maxDepth >= 0 && (maxDepth >= 1 || from !in seen) ==> StartFirst(index, from, seen, stack))
    && (maxDepth >= 0 && stack == [] ==> from in seen)
  }

  lemma SkipKeeps(
      index: Index, from: Digest, maxDepth: int, seen: set<Digest>, nodes: seq<Digest>, gaps: seq<Digest>,
      truncated: bool, stack: seq<Visit>)
    requires WalkInv(index, from, maxDepth, seen, nodes, gaps, truncated, stack) && stack != []
    ensures var top := stack[|stack| - 1];
      && (top.id in seen ==> WalkInv(index, from, maxDepth, seen, nodes, gaps, truncated, stack[..|stack| - 1]))
      && (top.depth > maxDepth ==> WalkInv(index, from, maxDepth, seen, nodes, gaps, true, stack[..|stack| - 1]))
  {
    if stack[|stack| - 1].id in seen { PopSeen(index, from, seen, stack); }
    if stack[|stack| - 1].depth > maxDepth { PopDeep(index, from, seen, stack, maxDepth); }
  }

  lemma VisitKeeps(
      index: Index, from: Digest, maxDepth: int, seen: set<Digest>, nodes: seq<Digest>, gaps: seq<Digest>,
      truncated: bool, stack: seq<Visit>)
    requires WalkInv(index, from, maxDepth, seen, nodes, gaps, truncated, stack)
    requires stack != [] && stack[|stack| - 1].id !in seen
    ensures var top := stack[|stack| - 1];
      && WalkInv(index, from, maxDepth, seen + {top.id}, nodes + [top.id],
                 if top.id in index then gaps else gaps + [top.id], truncated,
                 Push(stack[..|stack| - 1], Inputs(index, top.id), top.depth + 1))
      && top.id in Universe(index, from)
  {
    Visited(index, from, seen, stack);
    Noted(index, from, seen, nodes, gaps, stack);
  }

  lemma Finished(
      index: Index, from: Digest, maxDepth: int, seen: set<Digest>, nodes: seq<Digest>, gaps: seq<Digest>,
      truncated: bool)
    requires WalkInv(index, from, maxDepth, seen, nodes, gaps, truncated, [])
    ensures Distinct(nodes) && forall d :: d in nodes ==> Reaches(index, from, d)
    ensures forall d :: d in gaps <==> d in nodes && d !in index
    ensures !truncated ==> forall d :: d in nodes <==> Reaches(index, from, d)
    ensures maxDepth >= 0 ==> from in nodes
    ensures maxDepth >= 1 ==> forall i :: i in Inputs(index, from) ==> i in nodes
    ensures gaps == [] && !truncated <==> !truncated && forall d :: Reaches(index, from, d) ==> d in index
  {
    if !truncated { NothingPending(index, from, seen); }
    if gaps != [] { assert gaps[0] in gaps; }
  }

  /**
   `walkProvenance`. Whatever the depth limit, what it reports is reachable and
   each digest once; when it reports no truncation it is all that is reachable,
   and intact then means that all of it is recorded; with a limit of one or more
   it holds every direct input. It reports nothing beyond the depth limit, and it
   reports truncation only where a chain without repeats is longer than the limit:
   on any shallower provenance, cyclic or not, it reports everything.
   */
  method WalkProvenance(index: Index, from: Digest, maxDepth: int) returns (r: Report)
    ensures r.intact <==> !r.truncated && forall d :: Reaches(index, from, d) ==> d in index
    ensures Distinct(r.nodes) && forall d :: d in r.nodes ==> Reaches(index, from, d)
    ensures forall d :: d in r.gaps <==> d in r.nodes && d !in index
    ensures !r.truncated ==> forall d :: d in r.nodes <==> Reaches(index, from, d)
    ensures maxDepth >= 0 ==> from in r.nodes
    ensures maxDepth >= 1 ==> forall i :: i in Inputs(index, from) ==> i in r.nodes
    ensures forall d :: d in r.nodes ==> Within(index, from, d, maxDepth + 1)
    ensures maxDepth >= 0 && r.truncated ==> TooLong(index, from, maxDepth)
  {
    var seen: set<Digest>, nodes: seq<Digest>, gaps: seq<Digest>, truncated := {}, [], [], false;
    var stack := [Visit(from, 0)];
    Started(index, from, maxDepth);
    StartDepths(index, from, maxDepth);
    while stack != []
      invariant WalkInv(index, from, maxDepth, seen, nodes, gaps, truncated, stack)
      invariant Depths(index, from, maxDepth, seen, truncated, stack)
      decreases Universe(index, from) - seen, |stack|
    {
      SkipKeeps(index, from, maxDepth, seen, nodes, gaps, truncated, stack);
      var top := stack[|stack| - 1];
      if top.id in seen {
        stack := stack[..|stack| - 1];
        continue;
      }
      if top.depth > maxDepth {
        DeepSkip(index, from, maxDepth, seen, truncated, stack);
        stack := stack[..|stack| - 1];
        truncated := true;
        continue;
      }
      VisitKeeps(index, from, maxDepth, seen, nodes, gaps, truncated, stack);
      VisitDepths(index, from, maxDepth, seen, truncated, stack);
      seen := seen + {top.id};
      nodes := nodes + [top.id];
      if top.id !in index { gaps := gaps + [top.id]; }
      stack := Push(stack[..|stack| - 1], Inputs(index, top.id), top.depth + 1);
    }
    Finished(index, from, maxDepth, seen, nodes, gaps, truncated);
    return Report(nodes, gaps, truncated, gaps == [] && !truncated);
  }

  lemma Started(index: Index, from: Digest, maxDepth: int)
    ensures WalkInv(index, from, maxDepth, {}, [], [], false, [Visit(from, 0)])
  {
    ReachesSelf(index, from);
    assert [Visit(from, 0)][0].id == from;
  }

  lemma NothingPending(index: Index, from: Digest, seen: set<Digest>)
    requires Complete(index, from, seen, [])
    ensures forall to :: Reaches(index, from, to) ==> to in seen
  {
    forall d, i | d in seen && i in Inputs(index, d) ensures i in seen {
      assert SeenOrPending(seen, [], i);
    }
    ClosedHoldsReachable(index, seen, from);
  }

  lemma PopSeen(index: Index, from: Digest, seen: set<Digest>, stack: seq<Visit>)
    requires stack != [] && stack[|stack| - 1].id in seen
    ensures Complete(index, from, seen, stack) ==> Complete(index, from, seen, stack[..|stack| - 1])
    ensures StartFirst(index, from, seen, stack) ==> StartFirst(index, from, seen, stack[..|stack| - 1])
    ensures StartFirst(index, from, seen, stack) ==> from in seen
  {
    var rest := stack[..|stack| - 1];
    forall d | SeenOrPending(seen, stack, d) ensures SeenOrPending(seen, rest, d) {
      if d !in seen {
        var k :| 0 <= k < |stack| && stack[k].id == d;
        assert rest[k].id == d;
      }
    }
    forall d | d !in seen && OnStack(stack, d, 1) ensures OnStack(rest, d, 1) {
      var k :| 0 <= k < |stack| && stack[k].id == d && stack[k].depth <= 1;
      assert rest[k] == stack[k];
    }
  }

  lemma PopDeep(index: Index, from: Digest, seen: set<Digest>, stack: seq<Visit>, maxDepth: int)
    requires stack != [] && stack[|stack| - 1].depth > maxDepth
    ensures maxDepth >= 0 && StartFirst(index, from, seen, stack) ==> from in seen
    ensures maxDepth >= 1 && StartFirst(index, from, seen, stack) ==>
      StartFirst(index, from, seen, stack[..|stack| - 1])
  {
    var rest := stack[..|stack| - 1];
    forall d | maxDepth >= 1 && OnStack(stack, d, 1) ensures OnStack(rest, d, 1) {
      var k :| 0 <= k < |stack| && stack[k].id == d && stack[k].depth <= 1;
      assert rest[k] == stack[k];
    }
  }

  /** Visiting a digest: it is seen, and its inputs go on the stack one deeper. */
  lemma Visited(index: Index, from: Digest, seen: set<Digest>, stack: seq<Visit>)
    requires stack != [] && stack[|stack| - 1].id !in seen
    requires Pending(index, from, stack)
    ensures var top := stack[|stack| - 1];
      var seen' := seen + {top.id};
      var stack' := Push(stack[..|stack| - 1], Inputs(index, top.id), top.depth + 1);
      && Pending(index, from, stack')
      && (Complete(index, from, seen, stack) ==> Complete(index, from, seen', stack'))
      && (StartFirst(index, from, seen, stack) ==> from in seen' && StartFirst(index, from, seen', stack'))
  {
    var top := stack[|stack| - 1];
    var rest, inputs := stack[..|stack| - 1], Inputs(index, top.id);
    var stack' := Push(rest, inputs, top.depth + 1);
    PushHolds(rest, inputs, top.depth + 1);
    forall k | 0 <= k < |stack'| ensures Reaches(index, from, stack'[k].id) && stack'[k].id in Universe(index, from) {
      if k < |rest| {
        assert stack'[k] == stack[k];
      } else {
        ReachesNext(index, from, top.id, stack'[k].id);
      }
    }
    VisitedPending(index, from, seen, stack, stack', inputs);
  }

  /** The report gains the visited digest, and a gap when it is not recorded. */
  lemma Noted(
      index: Index, from: Digest, seen: set<Digest>, nodes: seq<Digest>, gaps: seq<Digest>, stack: seq<Visit>)
    requires Walking(index, from, seen, nodes, gaps, stack)
    requires stack != [] && stack[|stack| - 1].id !in seen
    ensures var id := stack[|stack| - 1].id;
      && Distinct(nodes + [id])
      && (forall d :: d in nodes + [id] <==> d in seen + {id})
      && (forall d :: d in (if id in index then gaps else gaps + [id]) <==> d in seen + {id} && d !in index)
      && seen + {id} <= Universe(index, from)
  {
  }

  lemma VisitedPending(
      index: Index, from: Digest, seen: set<Digest>, stack: seq<Visit>, stack': seq<Visit>, inputs: seq<Digest>)
    requires stack != [] && inputs == Inputs(index, stack[|stack| - 1].id) && |stack'| >= |stack| - 1
    requires forall k :: 0 <= k < |stack| - 1 ==> stack'[k] == stack[k]
    requires forall i :: i in inputs ==> OnStack(stack', i, stack[|stack| - 1].depth + 1)
    requires stack[|stack| - 1].id !in seen
    ensures var seen' := seen + {stack[|stack| - 1].id};
      && (Complete(index, from, seen, stack) ==> Complete(index, from, seen', stack'))
      && (StartFirst(index, from, seen, stack) ==> from in seen' && StartFirst(index, from, seen', stack'))
  {
    var seen' := seen + {stack[|stack| - 1].id};
    forall d | SeenOrPending(seen, stack, d) ensures SeenOrPending(seen', stack', d) {
      if d !in seen' {
        var k :| 0 <= k < |stack| && stack[k].id == d;
        assert stack'[k] == stack[k];
      }
    }
    forall d | d !in seen' && OnStack(stack, d, 1) ensures OnStack(stack', d, 1) {
      var k :| 0 <= k < |stack| && stack[k].id == d && stack[k].depth <= 1;
      assert stack'[k] == stack[k];
    }
    forall i | i in inputs ensures SeenOrPending(seen', stack', i) {
      assert OnStack(stack', i, stack[|stack| - 1].depth + 1);
    }
  }

  // ----- what the index can still reach

  /** Every recorded digest and every digest one names. */
  ghost function Closure(index: Index): set<Digest> {
    index.Keys + set d, i | d in index && i in index[d] :: i
  }

  /** Some recorded artifact reaches the digest. */
  ghost predicate Referenced(index: Index, d: Digest) {
    exists from :: from in index && Reaches(index, from, d)
  }

  /** The closure is all that any recorded digest reaches, however long the chain. */
  lemma ClosureIsReachable(index: Index, to: Digest)
    ensures to in Closure(index) <==> Referenced(index, to)
  {
    if to in Closure(index) {
      if to in index {
        ReachesSelf(index, to);
      } else {
        var d, i :| d in index && i in index[d] && i == to;
        ReachesSelf(index, d);
        ReachesNext(index, d, d, to);
      }
    }
    if from :| from in index && Reaches(index, from, to) {
      ClosedHoldsReachable(index, Closure(index), from);
    }
  }

  /**
   `reachableDigests`, for any depth limit of one or more: the depth limit never
   costs an ancestor, because every recorded digest is a start of its own.
   */
  method ReachableDigests(index: Index, maxDepth: int) returns (reachable: set<Digest>)
    ensures maxDepth >= 1 ==> reachable == Closure(index)
    ensures index.Keys <= reachable <= Closure(index)
  {
    reachable := {};
    var rest := index.Keys;
    while rest != {}
      invariant rest <= index.Keys && index.Keys - rest <= reachable <= Closure(index)
      invariant maxDepth >= 1 ==> forall d, i :: d in index && d !in rest && i in index[d] ==> i in reachable
    {
      var d :| d in rest;
      rest := rest - {d};
      var report := WalkProvenance(index, d, maxDepth);
      forall to | to in report.nodes ensures to in Closure(index) {
        ClosureIsReachable(index, to);
      }
      reachable := reachable + {d} + set to | to in report.nodes;
    }
  }

  // ----- the sweep

  datatype Blob = Blob(size: nat, mtime: int)

  type Store = map<Digest, Blob>

  /** Unreferenced, and not spared by the grace period. */
  predicate Doomed(store: Store, keep: set<Digest>, olderThan: Option<int>, now: int, d: Digest)
    requires d in store
  {
    d !in keep && (olderThan.None? || now - store[d].mtime >= olderThan.value)
  }

  function TotalSize(store: Store, ds: seq<Digest>): nat
    requires forall d :: d in ds ==> d in store
  {
    if ds == [] then 0 else TotalSize(store, ds[..|ds| - 1]) + store[ds[|ds| - 1]].size
  }

  /** `prune`: removes exactly the doomed blobs and accounts for their bytes. */
  method Prune(store: Store, keep: set<Digest>, olderThan: Option<int>, now: int)
      returns (left: Store, removed: seq<Digest>, freed: nat)
    ensures Distinct(removed)
    ensures forall d :: d in removed <==> d in store && Doomed(store, keep, olderThan, now, d)
    ensures left == map d | d in store && !Doomed(store, keep, olderThan, now, d) :: store[d]
    ensures freed == TotalSize(store, removed)
  {
    left, removed, freed := store, [], 0;
    var rest := store.Keys;
    while rest != {}
      invariant rest <= store.Keys && Distinct(removed)
      invariant forall d :: d in removed <==> d in store && d !in rest && Doomed(store, keep, olderThan, now, d)
      invariant left == map d | d in store && (d in rest || !Doomed(store, keep, olderThan, now, d)) :: store[d]
      invariant freed == TotalSize(store, removed)
    {
      var d :| d in rest;
      rest := rest - {d};
      if d in keep || (olderThan.Some? && now - store[d].mtime < olderThan.value) { continue; }
      freed := freed + store[d].size;
      left := left - {d};
      assert (removed + [d])[..|removed|] == removed;
      removed := removed + [d];
    }
  }

  /**
   `sweepUnreferencedBlobs`: a blob survives exactly when it was stored and either
   some recorded artifact reaches it or it is too young to delete.
   */
  method Sweep(index: Index, store: Store, olderThan: Option<int>, now: int)
      returns (left: Store, removed: seq<Digest>, freed: nat)
    ensures forall d :: d in left <==>
      d in store && (Referenced(index, d) || (olderThan.Some? && now - store[d].mtime < olderThan.value))
    ensures forall d :: d in left ==> left[d] == store[d]
    ensures forall d :: d in removed <==> d in store && d !in left
    ensures Distinct(removed) && freed == TotalSize(store, removed)
  {
    var keep := ReachableDigests(index, 32);
    left, removed, freed := Prune(store, keep, olderThan, now);
    forall d ensures d in keep <==> Referenced(index, d) {
      ClosureIsReachable(index, d);
    }
  }
}
