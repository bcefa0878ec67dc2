/**
 Leases with fencing tokens, in the two stores that keep them: a table whose rows
 are changed by conditional statements against the database clock, and the
 in-memory twin that deletes a released lease and keeps the token apart.
 */
module Leases {
  import opened Text

  datatype Lease = Lease(owner: string, token: int, acquired: int, updated: int, expires: int)

  datatype Op =
    | Acquire(resource: string, owner: string, ttl: int)
    | Renew(resource: string, owner: string, token: int, ttl: int)
    | Release(resource: string, owner: string, token: int)
    | Validate(resource: string, owner: string, token: int)

  datatype Outcome =
    | InvalidTtl
    | Acquired(lease: Lease)
    | HeldBy(lease: Lease)
    | Renewed(renewed: Option<Lease>)
    | Released(released: bool)
    | Validated(validated: Option<Lease>)

  type Table = map<string, Lease>

  /** The caller's token is the resource's current one, and it is its owner's. */
  predicate Matches(t: Table, resource: string, owner: string, token: int) {
    resource in t && t[resource].owner == owner && t[resource].token == token
  }

  predicate Valid(t: Table, resource: string, owner: string, token: int, now: int) {
    Matches(t, resource, owner, token) && t[resource].expires > now
  }

  // ----- the database table

  function TableStep(t: Table, op: Op, now: int): (Table, Outcome) {
    match op
    case Acquire(resource, owner, ttl) =>
      if ttl <= 0 then (t, InvalidTtl)
      else if resource in t && t[resource].expires > now then (t, HeldBy(t[resource]))
      else
        var token := if resource in t then t[resource].token + 1 else 1;
        var lease := Lease(owner, token, now, now, now + ttl);
        (t[resource := lease], Acquired(lease))
    case Renew(resource, owner, token, ttl) =>
      if ttl <= 0 then (t, InvalidTtl)
      else if !Valid(t, resource, owner, token, now) then (t, Renewed(None))
      else
        var lease := t[resource].(updated := now, expires := now + ttl);
        (t[resource := lease], Renewed(Some(lease)))
    case Release(resource, owner, token) =>
      if !Matches(t, resource, owner, token) then (t, Released(false))
      else (t[resource := t[resource].(updated := now, expires := now)], Released(true))
    case Validate(resource, owner, token) =>
      (t, Validated(if Valid(t, resource, owner, token, now) then Some(t[resource]) else None))
  }

  /** `PostgresDistributedControlStore`: each method is one statement on the table. */
  class LeaseTable {
    var rows: Table

    constructor ()
      ensures rows == map[]
    {
      rows := map[];
    }

    method AcquireLease(resource: string, owner: string, ttl: int, now: int) returns (r: Outcome)
      modifies this
      ensures (rows, r) == TableStep(old(rows), Acquire(resource, owner, ttl), now)
    {
      if ttl <= 0 { return InvalidTtl; }
      if resource !in rows {
        rows := rows[resource := Lease(owner, 1, now, now, now + ttl)];
      } else if rows[resource].expires <= now {
        rows := rows[resource := Lease(owner, rows[resource].token + 1, now, now, now + ttl)];
      } else {
        return HeldBy(rows[resource]);
      }
      return Acquired(rows[resource]);
    }

    method RenewLease(resource: string, owner: string, token: int, ttl: int, now: int) returns (r: Outcome)
      modifies this
      ensures (rows, r) == TableStep(old(rows), Renew(resource, owner, token, ttl), now)
    {
      if ttl <= 0 { return InvalidTtl; }
      if resource in rows && rows[resource].owner == owner && rows[resource].token == token
        && rows[resource].expires > now
      {
        rows := rows[resource := rows[resource].(updated := now, expires := now + ttl)];
        return Renewed(Some(rows[resource]));
      }
      return Renewed(None);
    }

    method ReleaseLease(resource: string, owner: string, token: int, now: int) returns (r: Outcome)
      modifies this
      ensures (rows, r) == TableStep(old(rows), Release(resource, owner, token), now)
    {
      if resource in rows && rows[resource].owner == owner && rows[resource].token == token {
        rows := rows[resource := rows[resource].(updated := now, expires := now)];
        return Released(true);
      }
      return Released(false);
    }

    method ValidateLease(resource: string, owner: string, token: int, now: int) returns (r: Outcome)
      ensures r == TableStep(rows, Validate(resource, owner, token), now).1
    {
      if resource in rows && rows[resource].owner == owner && rows[resource].token == token
        && rows[resource].expires > now
      {
        return Validated(Some(rows[resource]));
      }
      return Validated(None);
    }
  }

  // ----- the in-memory twin

  datatype Memory = Memory(leases: Table, tokens: map<string, int>)

  function NextToken(m: Memory, resource: string): int {
    (if resource in m.tokens then m.tokens[resource]
     else if resource in m.leases then m.leases[resource].token else 0) + 1
  }

  function MemoryStep(m: Memory, op: Op, now: int): (Memory, Outcome) {
    match op
    case Acquire(resource, owner, ttl) =>
      if ttl <= 0 then (m, InvalidTtl)
      else if resource in m.leases && m.leases[resource].expires > now then (m, HeldBy(m.leases[resource]))
      else
        var lease := Lease(owner, NextToken(m, resource), now, now, now + ttl);
        (Memory(m.leases[resource := lease], m.tokens[resource := lease.token]), Acquired(lease))
    case Renew(resource, owner, token, ttl) =>
      if ttl <= 0 then (m, InvalidTtl)
      else if !Valid(m.leases, resource, owner, token, now) then (m, Renewed(None))
      else
        var lease := m.leases[resource].(updated := now, expires := now + ttl);
        (m.(leases := m.leases[resource := lease]), Renewed(Some(lease)))
    case Release(resource, owner, token) =>
      if !Matches(m.leases, resource, owner, token) then (m, Released(false))
      else (m.(leases := m.leases - {resource}), Released(true))
    case Validate(resource, owner, token) =>
      (m, Validated(if Valid(m.leases, resource, owner, token, now) then Some(m.leases[resource]) else None))
  }

  /** `InMemoryLeaseStore`. */
  class InMemoryLeaseStore {
    var leases: Table
    var tokens: map<string, int>

    constructor ()
      ensures State() == Memory(map[], map[])
    {
      leases, tokens := map[], map[];
    }

    ghost function State(): Memory
      reads this
    {
      Memory(leases, tokens)
    }

    method AcquireLease(resource: string, owner: string, ttl: int, now: int) returns (r: Outcome)
      modifies this
      ensures (State(), r) == MemoryStep(old(State()), Acquire(resource, owner, ttl), now)
    {
      if ttl <= 0 { return InvalidTtl; }
      if resource in leases && leases[resource].expires > now { return HeldBy(leases[resource]); }
      var token := if resource in leases then leases[resource].token else 0;
      if resource in tokens { token := tokens[resource]; }
      token := token + 1;
      tokens := tokens[resource := token];
      var lease := Lease(owner, token, now, now, now + ttl);
      leases := leases[resource := lease];
      return Acquired(lease);
    }

    method RenewLease(resource: string, owner: string, token: int, ttl: int, now: int) returns (r: Outcome)
      modifies this
      ensures (State(), r) == MemoryStep(old(State()), Renew(resource, owner, token, ttl), now)
    {
      if ttl <= 0 { return InvalidTtl; }
      if resource !in leases || leases[resource].owner != owner || leases[resource].token != token
        || leases[resource].expires <= now
      {
        return Renewed(None);
      }
      leases := leases[resource := leases[resource].(updated := now, expires := now + ttl)];
      return Renewed(Some(leases[resource]));
    }

    method ReleaseLease(resource: string, owner: string, token: int, now: int) returns (r: Outcome)
      modifies this
      ensures (State(), r) == MemoryStep(old(State()), Release(resource, owner, token), now)
    {
      if resource !in leases || leases[resource].owner != owner || leases[resource].token != token {
        return Released(false);
      }
      leases := leases - {resource};
      return Released(true);
    }

    method ValidateLease(resource: string, owner: string, token: int, now: int) returns (r: Outcome)
      ensures r == MemoryStep(State(), Validate(resource, owner, token), now).1
    {
      if resource !in leases || leases[resource].owner != owner || leases[resource].token != token
        || leases[resource].expires <= now
      {
        return Validated(None);
      }
      return Validated(Some(leases[resource]));
    }
  }

  // ----- the life of a lease

  /** Somebody's lease on the resource validates. */
  ghost predicate Held(t: Table, resource: string, now: int) {
    exists owner, token :: Valid(t, resource, owner, token, now)
  }

  /**
   An acquire is granted exactly when nobody holds the resource; the lease then
   validates for its new owner at exactly the clocks before `now + ttl`, under a
   token higher than any the row has carried. Refused, it names the holder and
   changes nothing.
   */
  lemma AcquireGrants(t: Table, resource: string, owner: string, ttl: int, now: int, later: int)
    requires ttl > 0
    ensures var (t', outcome) := TableStep(t, Acquire(resource, owner, ttl), now);
      && (outcome.Acquired? <==> !Held(t, resource, now))
      && (outcome.Acquired? ==>
            && outcome.lease.owner == owner && (resource in t ==> t[resource].token < outcome.lease.token)
            && (Valid(t', resource, owner, outcome.lease.token, later) <==> later < now + ttl))
      && (!outcome.Acquired? ==>
            t' == t && outcome.HeldBy? && Valid(t, resource, outcome.lease.owner, outcome.lease.token, now))
  {
    if resource in t && t[resource].expires > now {
      assert Valid(t, resource, t[resource].owner, t[resource].token, now);
    }
  }

  /** A renewal is granted exactly to a lease that still validates, which then does before `now + ttl`. */
  lemma RenewExtends(t: Table, resource: string, owner: string, token: int, ttl: int, now: int, later: int)
    requires ttl > 0
    ensures var (t', outcome) := TableStep(t, Renew(resource, owner, token, ttl), now);
      && outcome.Renewed? && (outcome.renewed.Some? <==> Valid(t, resource, owner, token, now))
      && (outcome.renewed.Some? ==>
            && outcome.renewed.value.owner == owner && outcome.renewed.value.token == token
            && (Valid(t', resource, owner, token, later) <==> later < now + ttl))
      && (outcome.renewed.None? ==> t' == t)
  {
  }

  /** A release by the row's owner and token leaves nobody holding the resource; any other changes nothing. */
  lemma ReleaseEnds(t: Table, resource: string, owner: string, token: int, now: int, later: int)
    requires now <= later
    ensures var (t', outcome) := TableStep(t, Release(resource, owner, token), now);
      && (outcome == Released(true) <==> Matches(t, resource, owner, token))
      && (outcome == Released(true) ==> !Held(t', resource, later))
      && (outcome != Released(true) ==> t' == t)
  {
  }

  /** The holder itself ends or changes its lease. */
  predicate ByHolder(op: Op, resource: string, owner: string, token: int) {
    (op.Release? || op.Renew?) && op.resource == resource && op.owner == owner && op.token == token
  }

  /**
   A lease lasts: over every run whose clocks are before its expiry and in which
   its holder neither releases nor renews it, it validates throughout, and every
   acquire of the resource is refused in its name.
   */
  lemma {:induction false} HeldToExpiry(
      t: Table, resource: string, owner: string, token: int, ops: seq<Timed>, i: nat)
    requires Matches(t, resource, owner, token) && i < |ops|
    requires forall j :: 0 <= j < |ops| ==>
      ops[j].1 < t[resource].expires && !ByHolder(ops[j].0, resource, owner, token)
    ensures Valid(TableAfter(t, ops[..i]), resource, owner, token, ops[i].1)
    ensures var op, outcome := ops[i].0, TableRun(t, ops)[i];
      && (op.Acquire? && op.resource == resource && op.ttl > 0 ==> outcome == HeldBy(t[resource]))
      && (op == Validate(resource, owner, token) ==> outcome == Validated(Some(t[resource])))
    decreases ops
  {
    if i > 0 {
      var t' := TableStep(t, ops[0].0, ops[0].1).0;
      assert t'[resource] == t[resource];
      assert forall j :: 0 <= j < |ops[1..]| ==> ops[1..][j] == ops[j + 1];
      assert ops[..i][1..] == ops[1..][..i - 1];
      HeldToExpiry(t', resource, owner, token, ops[1..], i - 1);
    }
  }

  // ----- the two stores are bisimilar

  /** The stores agree, except that a released lease is gone from memory and expired in the table. */
  ghost predicate Similar(m: Memory, t: Table, clock: int) {
    && m.tokens.Keys == t.Keys
    && (forall r :: r in t ==> m.tokens[r] == t[r].token)
    && (forall r :: r in m.leases ==> r in t && m.leases[r] == t[r])
    && (forall r :: r in t && r !in m.leases ==> t[r].expires <= clock)
  }

  /** A release of a lease that is already gone from memory but whose row still matches. */
  predicate RepeatedRelease(m: Memory, t: Table, op: Op) {
    op.Release? && op.resource !in m.leases && Matches(t, op.resource, op.owner, op.token)
  }

  lemma AcquiresAgree(m: Memory, t: Table, clock: int, op: Op, now: int)
    requires Similar(m, t, clock) && clock <= now && op.Acquire?
    ensures Similar(MemoryStep(m, op, now).0, TableStep(t, op, now).0, now)
    ensures MemoryStep(m, op, now).1 == TableStep(t, op, now).1
  {
  }

  lemma RenewalsAgree(m: Memory, t: Table, clock: int, op: Op, now: int)
    requires Similar(m, t, clock) && clock <= now && (op.Renew? || op.Validate?)
    ensures Similar(MemoryStep(m, op, now).0, TableStep(t, op, now).0, now)
    ensures MemoryStep(m, op, now).1 == TableStep(t, op, now).1
  {
  }

  lemma ReleasesAgree(m: Memory, t: Table, clock: int, op: Op, now: int)
    requires Similar(m, t, clock) && clock <= now && op.Release?
    ensures Similar(MemoryStep(m, op, now).0, TableStep(t, op, now).0, now)
    ensures MemoryStep(m, op, now).1 == TableStep(t, op, now).1 <==> !RepeatedRelease(m, t, op)
  {
  }

  /** One operation keeps the stores similar; they answer it alike unless it is a repeated release. */
  lemma StepsAgree(m: Memory, t: Table, clock: int, op: Op, now: int)
    requires Similar(m, t, clock) && clock <= now
    ensures Similar(MemoryStep(m, op, now).0, TableStep(t, op, now).0, now)
    ensures MemoryStep(m, op, now).1 == TableStep(t, op, now).1 <==> !RepeatedRelease(m, t, op)
  {
    match op
    case Acquire(_, _, _) => AcquiresAgree(m, t, clock, op, now);
    case Release(_, _, _) => ReleasesAgree(m, t, clock, op, now);
    case _ => RenewalsAgree(m, t, clock, op, now);
  }

  /** Operations stamped with the clock each sees. */
  type Timed = (Op, int)

  ghost predicate Nondecreasing<T(!new)>(run: seq<(T, int)>, clock: int) {
    && (forall i :: 0 <= i < |run| ==> clock <= run[i].1)
    && (forall i, j :: 0 <= i < j < |run| ==> run[i].1 <= run[j].1)
  }

  const NO_LEASES: Memory := Memory(map[], map[])

  /** What each operation of a run is answered. */
  function TableRun(t: Table, ops: seq<Timed>): (outcomes: seq<Outcome>)
    ensures |outcomes| == |ops|
    decreases ops
  {
    if ops == [] then []
    else var step := TableStep(t, ops[0].0, ops[0].1); [step.1] + TableRun(step.0, ops[1..])
  }

  function MemoryRun(m: Memory, ops: seq<Timed>): (outcomes: seq<Outcome>)
    ensures |outcomes| == |ops|
    decreases ops
  {
    if ops == [] then []
    else var step := MemoryStep(m, ops[0].0, ops[0].1); [step.1] + MemoryRun(step.0, ops[1..])
  }

  /** What a run leaves. */
  function TableAfter(t: Table, ops: seq<Timed>): Table
    decreases ops
  {
    if ops == [] then t else TableAfter(TableStep(t, ops[0].0, ops[0].1).0, ops[1..])
  }

  function MemoryAfter(m: Memory, ops: seq<Timed>): Memory
    decreases ops
  {
    if ops == [] then m else MemoryAfter(MemoryStep(m, ops[0].0, ops[0].1).0, ops[1..])
  }

  lemma {:induction false} RunsAgreeFrom(m: Memory, t: Table, clock: int, ops: seq<Timed>, i: nat)
    requires Similar(m, t, clock) && Nondecreasing(ops, clock) && i < |ops|
    ensures MemoryRun(m, ops)[i] == TableRun(t, ops)[i] <==>
      !RepeatedRelease(MemoryAfter(m, ops[..i]), TableAfter(t, ops[..i]), ops[i].0)
    decreases ops
  {
    var op, now := ops[0].0, ops[0].1;
    StepsAgree(m, t, clock, op, now);
    if i > 0 {
      assert ops[..i][1..] == ops[1..][..i - 1] && ops[1..][i - 1] == ops[i];
      RunsAgreeFrom(MemoryStep(m, op, now).0, TableStep(t, op, now).0, now, ops[1..], i - 1);
    }
  }

  /**
   On every run with the same nondecreasing clock the two stores give the same
   answer, lease record and token to every acquire, renew and validate, and to
   every release but one of a lease that memory has already let go while its row
   still carries the caller's token.
   */
  lemma StoresBisimilar(ops: seq<Timed>, clock: int, i: nat)
    requires Nondecreasing(ops, clock) && i < |ops|
    ensures !ops[i].0.Release? ==> MemoryRun(NO_LEASES, ops)[i] == TableRun(map[], ops)[i]
    ensures MemoryRun(NO_LEASES, ops)[i] == TableRun(map[], ops)[i] <==>
      !RepeatedRelease(MemoryAfter(NO_LEASES, ops[..i]), TableAfter(map[], ops[..i]), ops[i].0)
  {
    RunsAgreeFrom(NO_LEASES, map[], clock, ops, i);
  }

  /** The shortest run on which they differ: a lease acquired once and released twice. */
  lemma SecondReleaseDiffers(resource: string, owner: string, ttl: int, now: int)
    requires ttl > 0
    ensures var release := Release(resource, owner, 1);
      var ops := [(Acquire(resource, owner, ttl), now), (release, now), (release, now)];
      && Nondecreasing(ops, now)
      && TableRun(map[], ops)[2] == Released(true)
      && MemoryRun(NO_LEASES, ops)[2] == Released(false)
  {
    var release := Release(resource, owner, 1);
    var ops := [(Acquire(resource, owner, ttl), now), (release, now), (release, now)];
    assert ops[1..] == [(release, now), (release, now)] && ops[1..][1..] == [(release, now)];
    var m1, t1 := MemoryStep(NO_LEASES, ops[0].0, now).0, TableStep(map[], ops[0].0, now).0;
    var m2, t2 := MemoryStep(m1, release, now).0, TableStep(t1, release, now).0;
    assert TableRun(map[], ops)[2] == TableRun(t1, ops[1..])[1] == TableRun(t2, [(release, now)])[0];
    assert MemoryRun(NO_LEASES, ops)[2] == MemoryRun(m1, ops[1..])[1] == MemoryRun(m2, [(release, now)])[0];
  }
}
