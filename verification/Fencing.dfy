/**
 Fenced agent writes: a write carrying a lease's token is accepted only while that
 lease is valid, and once an agent has been written under a token no unfenced or
 older writer gets through. Every statement is one atomic step against a
 nondecreasing database clock.
 */
module Fencing {
  import opened Leases

  datatype AgentRow = AgentRow(body: string, token: int)

  /** A lease that was granted, and an agent write that was accepted. */
  datatype Grant = Grant(resource: string, owner: string, token: int)
  datatype Write = Write(agent: string, body: string, token: int)

  datatype Database = Database(
    leases: Table, agents: map<string, AgentRow>, clock: int, grants: seq<Grant>, writes: seq<Write>)

  datatype Statement =
    | LeaseOp(op: Op)
    | CreateAgent(agent: string, body: string)
    | PutAgent(agent: string, body: string)
    | PutAgentFenced(agent: string, body: string, resource: string, owner: string, token: int)

  function ResourceOf(agent: string): string {
    "agent:" + agent
  }

  /** The lease guard of a fenced write holds: the right resource, and a valid lease on it. */
  predicate FenceHolds(d: Database, s: Statement, now: int)
    requires s.PutAgentFenced?
  {
    s.resource == ResourceOf(s.agent) && Valid(d.leases, s.resource, s.owner, s.token, now)
  }

  /** The statement writes an agent row. */
  predicate Accepts(d: Database, s: Statement, now: int) {
    match s
    case LeaseOp(_) => false
    case CreateAgent(agent, _) => agent !in d.agents
    case PutAgent(agent, _) => agent in d.agents ==> d.agents[agent].token == 0
    case PutAgentFenced(agent, _, _, _, token) =>
      FenceHolds(d, s, now) && (agent in d.agents ==> d.agents[agent].token <= token)
  }

  function TokenOf(s: Statement): int {
    if s.PutAgentFenced? then s.token else 0
  }

  function Execute(d: Database, s: Statement, now: int): Database {
    if s.LeaseOp? then
      var (leases, outcome) := TableStep(d.leases, s.op, now);
      d.(leases := leases, clock := now,
         grants := if outcome.Acquired? then d.grants + [Grant(s.op.resource, outcome.lease.owner, outcome.lease.token)]
                   else d.grants)
    else if Accepts(d, s, now) then
      d.(agents := d.agents[s.agent := AgentRow(s.body, TokenOf(s))], clock := now,
         writes := d.writes + [Write(s.agent, s.body, TokenOf(s))])
    else d.(clock := now)
  }

  function Empty(clock: int): Database {
    Database(map[], map[], clock, [], [])
  }

  /** A run of statements, each with the clock it sees. */
  type Stamped = (Statement, int)

  function ExecuteAll(d: Database, run: seq<Stamped>): Database
    decreases run
  {
    if run == [] then d else ExecuteAll(Execute(d, run[0].0, run[0].1), run[1..])
  }

  // ----- what every statement keeps

  /** Grants on a resource carry the tokens 1, 2, 3, ... up to the row's. */
  ghost predicate GrantsOk(d: Database) {
    && (forall r :: r in d.leases ==> d.leases[r].token >= 1)
    && (forall i :: 0 <= i < |d.grants| ==>
          d.grants[i].resource in d.leases && 1 <= d.grants[i].token <= d.leases[d.grants[i].resource].token)
    && (forall i, j :: 0 <= i < j < |d.grants| && d.grants[i].resource == d.grants[j].resource ==>
          d.grants[i].token < d.grants[j].token)
  }

  /** Every row carries the owner and token of a grant. */
  ghost predicate RowsGranted(d: Database) {
    forall r :: r in d.leases ==> Grant(r, d.leases[r].owner, d.leases[r].token) in d.grants
  }

  /** An agent's token is 0 or one its lease has reached. */
  ghost predicate AgentOk(d: Database, agent: string)
    requires agent in d.agents
  {
    var token := d.agents[agent].token;
    token == 0 ||
    (ResourceOf(agent) in d.leases && 1 <= token <= d.leases[ResourceOf(agent)].token)
  }

  /** Accepted writes of an agent carry nondecreasing tokens, up to the row's. */
  ghost predicate WritesOk(d: Database) {
    && (forall i :: 0 <= i < |d.writes| ==>
          d.writes[i].agent in d.agents && 0 <= d.writes[i].token <= d.agents[d.writes[i].agent].token)
    && (forall i, j :: 0 <= i < j < |d.writes| && d.writes[i].agent == d.writes[j].agent ==>
          d.writes[i].token <= d.writes[j].token)
  }

  ghost predicate Inv(d: Database) {
    GrantsOk(d) && RowsGranted(d) && (forall agent :: agent in d.agents ==> AgentOk(d, agent)) && WritesOk(d)
  }

  /** A grant puts the next token in its row; any other lease statement leaves all owners and tokens alone. */
  lemma LeaseRows(t: Table, op: Op, now: int)
    ensures var (t', outcome) := TableStep(t, op, now);
      if outcome.Acquired? then
        && t' == t[op.resource := outcome.lease]
        && outcome.lease.token == if op.resource in t then t[op.resource].token + 1 else 1
      else t'.Keys == t.Keys && forall r :: r in t ==> t'[r].owner == t[r].owner && t'[r].token == t[r].token
  {
  }

  lemma LeaseStepInv(d: Database, op: Op, now: int)
    requires Inv(d)
    ensures Inv(Execute(d, LeaseOp(op), now))
  {
    var d' := Execute(d, LeaseOp(op), now);
    LeaseRows(d.leases, op, now);
    LeaseGrants(d, op, now);
    forall r | r in d'.leases ensures Grant(r, d'.leases[r].owner, d'.leases[r].token) in d'.grants {
      if r in d.leases { assert Grant(r, d.leases[r].owner, d.leases[r].token) in d.grants; }
    }
    forall agent | agent in d'.agents ensures AgentOk(d', agent) {
      assert AgentOk(d, agent);
    }
  }

  lemma LeaseGrants(d: Database, op: Op, now: int)
    requires GrantsOk(d)
    ensures GrantsOk(Execute(d, LeaseOp(op), now))
  {
    LeaseRows(d.leases, op, now);
  }

  /** The row's own token guard never rejects a write whose lease guard holds. */
  lemma FenceNeverStale(d: Database, s: Statement, now: int)
    requires Inv(d) && s.PutAgentFenced? && FenceHolds(d, s, now)
    ensures Accepts(d, s, now)
  {
    if s.agent in d.agents {
      assert AgentOk(d, s.agent);
    }
  }

  lemma WriteStepInv(d: Database, s: Statement, now: int)
    requires Inv(d) && Accepts(d, s, now)
    ensures Inv(Execute(d, s, now))
  {
    var d' := Execute(d, s, now);
    if s.agent in d.agents {
      assert AgentOk(d, s.agent);
    }
    forall agent | agent in d'.agents ensures AgentOk(d', agent) {
      assert agent != s.agent ==> AgentOk(d, agent);
    }
  }

  lemma StepInv(d: Database, s: Statement, now: int)
    requires Inv(d)
    ensures Inv(Execute(d, s, now))
  {
    if s.LeaseOp? {
      LeaseStepInv(d, s.op, now);
    } else if Accepts(d, s, now) {
      WriteStepInv(d, s, now);
    } else {
      forall agent | agent in d.agents ensures AgentOk(Execute(d, s, now), agent) {
        assert AgentOk(d, agent);
      }
    }
  }

  lemma {:induction false} RunInv(d: Database, run: seq<Stamped>)
    requires Inv(d)
    ensures Inv(ExecuteAll(d, run))
    decreases run
  {
    if run != [] {
      StepInv(d, run[0].0, run[0].1);
      RunInv(Execute(d, run[0].0, run[0].1), run[1..]);
    }
  }

  /**
   Fencing over whole runs. Each token of a resource is granted once; accepted
   writes of an agent carry nondecreasing tokens, a fenced one's being at least 1;
   an unfenced write is accepted only while every write before it was unfenced,
   and a fenced one only while none before it carried a higher token; an agent's
   token never passes its lease's; and a fenced write is accepted exactly when its
   lease guard holds.
   */
  lemma FencingSafety(run: seq<Stamped>, clock: int, s: Statement, now: int)
    ensures var d := ExecuteAll(Empty(clock), run);
      && (forall i, j :: 0 <= i < j < |d.grants| ==>
            (d.grants[i].resource, d.grants[i].token) != (d.grants[j].resource, d.grants[j].token))
      && (forall i, j :: 0 <= i < j < |d.writes| && d.writes[i].agent == d.writes[j].agent ==>
            d.writes[i].token <= d.writes[j].token)
      && (forall agent :: agent in d.agents && d.agents[agent].token != 0 ==>
            ResourceOf(agent) in d.leases && d.agents[agent].token <= d.leases[ResourceOf(agent)].token)
      && (s.PutAgentFenced? ==> (Accepts(d, s, now) <==> FenceHolds(d, s, now)))
      && (s.PutAgentFenced? && Accepts(d, s, now) ==> s.token >= 1)
      && (!s.LeaseOp? && Accepts(d, s, now) ==>
            forall i :: 0 <= i < |d.writes| && d.writes[i].agent == s.agent ==> d.writes[i].token <= TokenOf(s))
      && (s.PutAgent? && Accepts(d, s, now) ==>
            forall i :: 0 <= i < |d.writes| && d.writes[i].agent == s.agent ==> d.writes[i].token == 0)
  {
    RunInv(Empty(clock), run);
    var d := ExecuteAll(Empty(clock), run);
    forall agent | agent in d.agents ensures AgentOk(d, agent) {
    }
    if s.PutAgentFenced? && FenceHolds(d, s, now) {
      FenceNeverStale(d, s, now);
    }
  }

  // ----- what the agent rows hold

  /** Write `i` is the newest accepted one of its agent. */
  ghost predicate Newest(d: Database, i: nat)
    requires i < |d.writes|
  {
    forall j :: i < j < |d.writes| ==> d.writes[j].agent != d.writes[i].agent
  }

  /** Each agent's row is its newest accepted write, and there are rows for written agents only. */
  ghost predicate RowsWritten(d: Database) {
    && (forall i :: 0 <= i < |d.writes| ==> d.writes[i].agent in d.agents)
    && (forall agent :: agent in d.agents ==> exists i :: 0 <= i < |d.writes| && IsRow(d, agent, i))
  }

  ghost predicate IsRow(d: Database, agent: string, i: nat)
    requires i < |d.writes| && agent in d.agents
  {
    Newest(d, i) && d.writes[i] == Write(agent, d.agents[agent].body, d.agents[agent].token)
  }

  lemma RowsWrittenStep(d: Database, s: Statement, now: int)
    requires RowsWritten(d)
    ensures RowsWritten(Execute(d, s, now))
  {
    var d' := Execute(d, s, now);
    forall agent | agent in d'.agents ensures exists i :: 0 <= i < |d'.writes| && IsRow(d', agent, i) {
      if !s.LeaseOp? && Accepts(d, s, now) && s.agent == agent {
        assert IsRow(d', agent, |d.writes|);
      } else {
        var i :| 0 <= i < |d.writes| && IsRow(d, agent, i);
        assert IsRow(d', agent, i);
      }
    }
  }

  lemma {:induction false} RunRowsWritten(d: Database, run: seq<Stamped>)
    requires RowsWritten(d)
    ensures RowsWritten(ExecuteAll(d, run))
    decreases run
  {
    if run != [] {
      RowsWrittenStep(d, run[0].0, run[0].1);
      RunRowsWritten(Execute(d, run[0].0, run[0].1), run[1..]);
    }
  }

  /**
   At the end of any run every agent's row is its newest accepted write, body and
   token; a create is accepted exactly when no write of the agent was, and an
   unfenced write exactly when all of them were unfenced.
   */
  lemma RowIsNewestWrite(run: seq<Stamped>, clock: int, agent: string, body: string, now: int)
    ensures var d := ExecuteAll(Empty(clock), run);
      && (agent in d.agents ==> exists i :: 0 <= i < |d.writes| && IsRow(d, agent, i))
      && (Accepts(d, CreateAgent(agent, body), now) <==>
            forall i :: 0 <= i < |d.writes| ==> d.writes[i].agent != agent)
      && (Accepts(d, PutAgent(agent, body), now) <==>
            forall i :: 0 <= i < |d.writes| && d.writes[i].agent == agent ==> d.writes[i].token == 0)
  {
    RunRowsWritten(Empty(clock), run);
    RunInv(Empty(clock), run);
    var d := ExecuteAll(Empty(clock), run);
    CreatedIff(d, agent);
    if agent in d.agents { UnfencedIff(d, agent); }
  }

  lemma CreatedIff(d: Database, agent: string)
    requires RowsWritten(d)
    ensures agent !in d.agents <==> forall i :: 0 <= i < |d.writes| ==> d.writes[i].agent != agent
  {
    if agent in d.agents {
      var i :| 0 <= i < |d.writes| && IsRow(d, agent, i);
      assert d.writes[i].agent == agent;
    }
  }

  lemma UnfencedIff(d: Database, agent: string)
    requires RowsWritten(d) && WritesOk(d) && agent in d.agents
    ensures d.agents[agent].token == 0 <==>
      forall i :: 0 <= i < |d.writes| && d.writes[i].agent == agent ==> d.writes[i].token == 0
  {
    var i :| 0 <= i < |d.writes| && IsRow(d, agent, i);
    assert d.writes[i].agent == agent && d.writes[i].token == d.agents[agent].token;
  }

  /**
   At the end of any run at most one owner and token validate on a resource:
   those of the newest grant on it.
   */
  lemma OneValidHolder(run: seq<Stamped>, clock: int, resource: string, owner: string, token: int, now: int)
    requires Valid(ExecuteAll(Empty(clock), run).leases, resource, owner, token, now)
    ensures var grants := ExecuteAll(Empty(clock), run).grants;
      && Grant(resource, owner, token) in grants
      && (forall g :: g in grants && g.resource == resource && g.token >= token ==>
            g == Grant(resource, owner, token))
  {
    RunInv(Empty(clock), run);
    var d := ExecuteAll(Empty(clock), run);
    var i :| 0 <= i < |d.grants| && d.grants[i] == Grant(resource, owner, token);
    forall g | g in d.grants && g.resource == resource && g.token >= token ensures g == d.grants[i] {
      var j :| 0 <= j < |d.grants| && d.grants[j] == g;
    }
  }

  /** A token already reached that is not valid now is never valid again. */
  ghost predicate Spent(d: Database, resource: string, owner: string, token: int, now: int) {
    resource in d.leases && token <= d.leases[resource].token && !Valid(d.leases, resource, owner, token, now)
  }

  lemma {:induction false} SpentForever(
      d: Database, run: seq<Stamped>, resource: string, owner: string, token: int, now: int, later: int)
    requires Nondecreasing(run, now) && Spent(d, resource, owner, token, now)
    requires now <= later && forall i :: 0 <= i < |run| ==> run[i].1 <= later
    ensures !Valid(ExecuteAll(d, run).leases, resource, owner, token, later)
    decreases run
  {
    if run != [] {
      var s, at := run[0].0, run[0].1;
      var d1 := Execute(d, s, at);
      assert Spent(d1, resource, owner, token, at);
      SpentForever(d1, run[1..], resource, owner, token, at, later);
    }
  }

  // ----- the statements as they run

  /** `PostgresPersistence`, over the agent table and the lease table it joins. */
  class AgentTable {
    const leaseTable: LeaseTable
    var agents: map<string, AgentRow>

    constructor (leaseTable: LeaseTable)
      ensures this.leaseTable == leaseTable && agents == map[]
    {
      this.leaseTable := leaseTable;
      agents := map[];
    }

    /** The tables as a database with no history yet. */
    ghost function State(clock: int): Database
      reads this, leaseTable
    {
      Database(leaseTable.rows, agents, clock, [], [])
    }

    method Create(agent: string, body: string, now: int) returns (created: bool)
      modifies this
      ensures created == Accepts(old(State(now)), CreateAgent(agent, body), now)
      ensures agents == Execute(old(State(now)), CreateAgent(agent, body), now).agents
    {
      if agent in agents { return false; }
      agents := agents[agent := AgentRow(body, 0)];
      return true;
    }

    /** False where the source throws `AGENT_FENCE_REQUIRED`. */
    method Put(agent: string, body: string, now: int) returns (ok: bool)
      modifies this
      ensures ok == Accepts(old(State(now)), PutAgent(agent, body), now)
      ensures agents == Execute(old(State(now)), PutAgent(agent, body), now).agents
    {
      if agent in agents && agents[agent].token != 0 { return false; }
      agents := agents[agent := AgentRow(body, 0)];
      return true;
    }

    method PutFenced(agent: string, body: string, resource: string, owner: string, token: int, now: int)
        returns (ok: bool)
      modifies this
      ensures ok == Accepts(old(State(now)), PutAgentFenced(agent, body, resource, owner, token), now)
      ensures agents == Execute(old(State(now)), PutAgentFenced(agent, body, resource, owner, token), now).agents
    {
      if resource != "agent:" + agent { return false; }
      var rows := leaseTable.rows;
      if resource !in rows || rows[resource].owner != owner || rows[resource].token != token
        || rows[resource].expires <= now
      {
        return false;
      }
      if agent in agents && agents[agent].token > token { return false; }
      agents := agents[agent := AgentRow(body, token)];
      return true;
    }
  }
}
