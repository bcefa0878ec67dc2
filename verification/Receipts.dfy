/**
 Effect receipts: the order their statuses may move in, and the store that keeps
 them in an activity's heartbeat details so that a retried attempt starts from
 them.
 */
module Receipts {
  import opened Text

  datatype Status = Started | Failed | Committed

  datatype EffectResult = EffectResult(ok: bool, error: string, output: string, executor: string, fidelity: int)

  datatype Record = Record(
    id: string, kind: string, status: Status, startedAt: int, updatedAt: int,
    result: Option<EffectResult>, error: Option<string>)

  function Rank(status: Status): nat {
    match status
    case Started => 1
    case Failed => 2
    case Committed => 3
  }

  /** `canReplaceEffect`. */
  predicate CanReplace(existing: Option<Record>, next: Record) {
    if existing.None? then true
    else if existing.value.status == Committed && next.status != Committed then false
    else if existing.value.status == Failed && next.status == Started then false
    else true
  }

  function RankOf(existing: Option<Record>): nat {
    if existing.None? then 0 else Rank(existing.value.status)
  }

  /** The two refusals are exactly the moves down the order started, failed, committed. */
  lemma ReplaceNeverMovesDown(existing: Option<Record>, next: Record)
    ensures CanReplace(existing, next) <==> RankOf(existing) <= Rank(next.status)
  {
  }

  // ----- receipts in insertion order, one per id

  type Receipts = seq<Record>

  ghost predicate OnePerId(rs: Receipts) {
    forall i, j :: 0 <= i < j < |rs| ==> rs[i].id != rs[j].id
  }

  function Find(rs: Receipts, id: string): (r: Option<Record>)
    ensures r.Some? ==> r.value in rs && r.value.id == id
    ensures r.None? <==> forall i :: 0 <= i < |rs| ==> rs[i].id != id
  {
    if rs == [] then None else if rs[0].id == id then Some(rs[0]) else Find(rs[1..], id)
  }

  /** With one receipt per id, the one found is the only one there is. */
  lemma {:induction false} FindUnique(rs: Receipts, r: Record)
    requires OnePerId(rs) && r in rs
    ensures Find(rs, r.id) == Some(r)
  {
    if rs[0] != r {
      var i :| 0 <= i < |rs| && rs[i] == r;
      assert rs[1..][i - 1] == r;
      FindUnique(rs[1..], r);
    }
  }

  /** `Map.set`: a known key keeps its position, a new one goes last. */
  function Set(rs: Receipts, r: Record): Receipts {
    if rs == [] then [r] else if rs[0].id == r.id then [r] + rs[1..] else [rs[0]] + Set(rs[1..], r)
  }

  lemma {:induction false} SetFind(rs: Receipts, r: Record, id: string)
    ensures Find(Set(rs, r), id) == if id == r.id then Some(r) else Find(rs, id)
  {
    if rs != [] && rs[0].id != r.id {
      SetFind(rs[1..], r, id);
    }
  }

  lemma {:induction false} SetOnePerId(rs: Receipts, r: Record)
    requires OnePerId(rs)
    ensures OnePerId(Set(rs, r))
    ensures forall i :: 0 <= i < |Set(rs, r)| ==> Set(rs, r)[i] == r || Set(rs, r)[i] in rs
  {
    if rs != [] && rs[0].id != r.id {
      SetOnePerId(rs[1..], r);
      var tail := Set(rs[1..], r);
      forall i | 0 <= i < |tail| ensures tail[i].id != rs[0].id {
        if tail[i] != r {
          var j :| 0 <= j < |rs[1..]| && rs[1..][j] == tail[i];
          assert rs[j + 1] == tail[i];
        }
      }
    }
  }

  function Put(rs: Receipts, r: Record): Receipts {
    if CanReplace(Find(rs, r.id), r) then Set(rs, r) else rs
  }

  /** The store a new attempt builds from the details it is handed. */
  function Seeded(rs: Receipts, details: Receipts): Receipts
    decreases details
  {
    if details == [] then rs else Seeded(Set(rs, details[0]), details[1..])
  }

  lemma {:induction false} SetNew(rs: Receipts, r: Record)
    requires Find(rs, r.id).None?
    ensures Set(rs, r) == rs + [r]
  {
    if rs != [] {
      assert rs[0].id != r.id;
      assert forall i :: 0 <= i < |rs[1..]| ==> rs[1..][i] == rs[i + 1];
      SetNew(rs[1..], r);
      assert [rs[0]] + (rs[1..] + [r]) == rs + [r];
    }
  }

  lemma {:induction false} SeededAppends(rs: Receipts, details: Receipts)
    requires OnePerId(rs + details)
    ensures Seeded(rs, details) == rs + details
    decreases details
  {
    if details == [] {
      assert rs + details == rs;
    } else {
      assert forall i :: 0 <= i < |rs| ==> (rs + details)[i] == rs[i] && (rs + details)[|rs|] == details[0];
      SetNew(rs, details[0]);
      assert rs + [details[0]] + details[1..] == rs + details;
      SeededAppends(rs + [details[0]], details[1..]);
    }
  }

  /** Seeding a new attempt from written details restores the receipts they were written from. */
  lemma SeedRestores(rs: Receipts)
    requires OnePerId(rs)
    ensures Seeded([], rs) == rs
  {
    assert [] + rs == rs;
    SeededAppends([], rs);
  }

  // ----- sequences of writes

  function PutAll(rs: Receipts, writes: seq<Record>): Receipts
    decreases writes
  {
    if writes == [] then rs else PutAll(Put(rs, writes[0]), writes[1..])
  }

  /** The highest status written for an id, or what was there if that is higher. */
  function Highest(from: nat, writes: seq<Record>, id: string): (rank: nat)
    ensures from <= rank
    ensures forall w :: w in writes && w.id == id ==> Rank(w.status) <= rank
    ensures rank == from || exists w :: w in writes && w.id == id && Rank(w.status) == rank
    decreases writes
  {
    if writes == [] then from
    else
      var w := writes[0];
      var rest := writes[1..];
      assert writes == [w] + rest;
      Highest(if w.id == id && Rank(w.status) > from then Rank(w.status) else from, rest, id)
  }

  /** After any writes, the status of each receipt is the highest one written: it never moves down. */
  lemma {:induction false} StatusIsHighest(rs: Receipts, writes: seq<Record>, id: string)
    ensures RankOf(Find(PutAll(rs, writes), id)) == Highest(RankOf(Find(rs, id)), writes, id)
    ensures RankOf(Find(PutAll(rs, writes), id)) >= RankOf(Find(rs, id))
    decreases writes
  {
    if writes != [] {
      var w := writes[0];
      ReplaceNeverMovesDown(Find(rs, w.id), w);
      SetFind(rs, w, id);
      StatusIsHighest(Put(rs, w), writes[1..], id);
    }
  }

  /** Write `i` is the last one of its id with the highest status, and what was there does not outrank it. */
  ghost predicate Wins(was: Option<Record>, writes: seq<Record>, i: nat)
    requires i < |writes|
  {
    && RankOf(was) <= Rank(writes[i].status)
    && (forall j :: 0 <= j < i && writes[j].id == writes[i].id ==> Rank(writes[j].status) <= Rank(writes[i].status))
    && (forall j :: i < j < |writes| && writes[j].id == writes[i].id ==>
          Rank(writes[j].status) < Rank(writes[i].status))
  }

  /** No write of the id reaches the status that is there. */
  ghost predicate Outranks(was: Option<Record>, writes: seq<Record>, id: string) {
    forall j :: 0 <= j < |writes| && writes[j].id == id ==> Rank(writes[j].status) < RankOf(was)
  }

  /**
   What a read returns after any writes: the last write of the id among those of
   its highest status, or what was there before when no write reached it.
   */
  lemma {:induction false} LastHighestWins(rs: Receipts, writes: seq<Record>, id: string)
    ensures var found := Find(PutAll(rs, writes), id);
      || (found == Find(rs, id) && Outranks(Find(rs, id), writes, id))
      || (exists i :: 0 <= i < |writes| && writes[i].id == id && Wins(Find(rs, id), writes, i)
            && found == Some(writes[i]))
    decreases writes
  {
    if writes != [] {
      var w, rest := writes[0], writes[1..];
      ReplaceNeverMovesDown(Find(rs, w.id), w);
      SetFind(rs, w, id);
      LastHighestWins(Put(rs, w), rest, id);
      LiftWinner(Find(rs, id), Find(Put(rs, w), id), writes, id, Find(PutAll(rs, writes), id));
    }
  }

  /** The winner among the later writes, from what the first one left, wins among them all. */
  lemma LiftWinner(
      was: Option<Record>, next: Option<Record>, writes: seq<Record>, id: string, found: Option<Record>)
    requires writes != [] && (was.Some? ==> was.value.id == id)
    requires var w := writes[0];
      next == if w.id == id && RankOf(was) <= Rank(w.status) then Some(w) else was
    requires var rest := writes[1..];
      || (found == next && Outranks(next, rest, id))
      || (exists i :: 0 <= i < |rest| && rest[i].id == id && Wins(next, rest, i) && found == Some(rest[i]))
    ensures
      || (found == was && Outranks(was, writes, id))
      || (exists i :: 0 <= i < |writes| && writes[i].id == id && Wins(was, writes, i) && found == Some(writes[i]))
  {
    var w, rest := writes[0], writes[1..];
    assert forall j :: 1 <= j < |writes| ==> writes[j] == rest[j - 1];
    if i :| 0 <= i < |rest| && rest[i].id == id && Wins(next, rest, i) && found == Some(rest[i]) {
      assert writes[i + 1] == rest[i];
      assert Wins(was, writes, i + 1);
    } else if w.id == id && RankOf(was) <= Rank(w.status) {
      assert Wins(was, writes, 0);
    } else {
      assert Outranks(was, writes, id);
    }
  }

  /** Any reordering of the same writes ends at the same status for every receipt. */
  lemma ReorderedWritesAgree(rs: Receipts, a: seq<Record>, b: seq<Record>, id: string)
    requires multiset(a) == multiset(b)
    ensures RankOf(Find(PutAll(rs, a), id)) == RankOf(Find(PutAll(rs, b), id))
  {
    StatusIsHighest(rs, a, id);
    StatusIsHighest(rs, b, id);
    forall w ensures w in a <==> w in b {
      assert w in a <==> w in multiset(a);
      assert w in b <==> w in multiset(b);
    }
  }

  // ----- attempts

  /** What an attempt asks of its store: a write, or a claim that only a missing receipt grants. */
  datatype Request = Write(record: Record) | Claim(record: Record)

  function Serve(rs: Receipts, q: Request): Receipts {
    if q.Write? then Put(rs, q.record)
    else if Find(rs, q.record.id).Some? then rs
    else Set(rs, q.record)
  }

  function ServeAll(rs: Receipts, qs: seq<Request>): Receipts
    decreases qs
  {
    if qs == [] then rs else ServeAll(Serve(rs, qs[0]), qs[1..])
  }

  lemma {:induction false} ServeAllOnePerId(rs: Receipts, qs: seq<Request>)
    requires OnePerId(rs)
    ensures OnePerId(ServeAll(rs, qs))
    decreases qs
  {
    if qs != [] {
      SetOnePerId(rs, qs[0].record);
      ServeAllOnePerId(Serve(rs, qs[0]), qs[1..]);
    }
  }

  lemma {:induction false} ServeAllConcat(rs: Receipts, a: seq<Request>, b: seq<Request>)
    ensures ServeAll(rs, a + b) == ServeAll(ServeAll(rs, a), b)
    decreases a
  {
    if a == [] {
      assert a + b == b;
    } else {
      assert (a + b)[1..] == a[1..] + b;
      ServeAllConcat(Serve(rs, a[0]), a[1..], b);
    }
  }

  /** Writes and claims in any mixture: no receipt disappears and no status moves down. */
  lemma {:induction false} StatusNeverDrops(rs: Receipts, qs: seq<Request>, id: string)
    ensures RankOf(Find(rs, id)) <= RankOf(Find(ServeAll(rs, qs), id))
    decreases qs
  {
    if qs != [] {
      var r := qs[0].record;
      ReplaceNeverMovesDown(Find(rs, r.id), r);
      SetFind(rs, r, id);
      StatusNeverDrops(Serve(rs, qs[0]), qs[1..], id);
    }
  }

  /** Attempts one after another, each seeded from what the one before it had recorded. */
  function Attempts(rs: Receipts, attempts: seq<seq<Request>>): Receipts
    decreases attempts
  {
    if attempts == [] then rs else Attempts(ServeAll(Seeded([], rs), attempts[0]), attempts[1..])
  }

  function Flatten(attempts: seq<seq<Request>>): seq<Request> {
    if attempts == [] then [] else attempts[0] + Flatten(attempts[1..])
  }

  /**
   Retries are invisible: any number of attempts, each mixing writes and claims,
   leaves the receipts of one attempt making all the requests.
   */
  lemma {:induction false} RetriesAreInvisible(rs: Receipts, attempts: seq<seq<Request>>)
    requires OnePerId(rs)
    ensures Attempts(rs, attempts) == ServeAll(rs, Flatten(attempts))
    decreases attempts
  {
    if attempts != [] {
      SeedRestores(rs);
      ServeAllOnePerId(rs, attempts[0]);
      RetriesAreInvisible(ServeAll(rs, attempts[0]), attempts[1..]);
      ServeAllConcat(rs, attempts[0], Flatten(attempts[1..]));
    }
  }

  // ----- the store

  /** `TemporalActivityStateStore`, with the details the server last recorded for it. */
  class ActivityStore {
    var effects: Receipts
    var recorded: Receipts

    /** What the next attempt would be handed is what this attempt holds. */
    ghost predicate Persisted()
      reads this
    {
      recorded == effects && OnePerId(effects)
    }

    /** A new attempt, seeded from the details the previous one left. */
    constructor (details: Receipts)
      ensures effects == Seeded([], details) && recorded == details
      ensures OnePerId(details) ==> Persisted() && effects == details
    {
      recorded := details;
      var rs: Receipts := [];
      var i := 0;
      while i < |details|
        invariant 0 <= i <= |details|
        invariant Seeded(rs, details[i..]) == Seeded([], details)
      {
        assert details[i..][1..] == details[i + 1..];
        rs := Set(rs, details[i]);
        i := i + 1;
      }
      effects := rs;
      if OnePerId(details) { SeedRestores(details); }
    }

    method Heartbeat()
      requires OnePerId(effects)
      modifies this`recorded
      ensures Persisted()
    {
      recorded := effects;
    }

    method PutEffect(r: Record)
      requires Persisted()
      modifies this
      ensures Persisted() && effects == Serve(old(effects), Write(r))
    {
      if !CanReplace(Find(effects, r.id), r) { return; }
      SetOnePerId(effects, r);
      effects := Set(effects, r);
      Heartbeat();
    }

    /** The one receipt held for the id, and none exactly when none is held. */
    method GetEffect(id: string) returns (r: Option<Record>)
      ensures r.Some? <==> exists e :: e in effects && e.id == id
      ensures r.Some? ==> r.value in effects && r.value.id == id
      ensures OnePerId(effects) ==> forall e :: e in effects && e.id == id ==> r == Some(e)
    {
      r := Find(effects, id);
      forall e | OnePerId(effects) && e in effects && e.id == id ensures r == Some(e) {
        FindUnique(effects, e);
      }
    }

    /** A receipt that exists is never claimed again. */
    method ClaimEffect(r: Record) returns (claimed: bool, record: Record)
      requires Persisted()
      modifies this
      ensures Persisted()
      ensures effects == Serve(old(effects), Claim(r))
      ensures claimed == Find(old(effects), r.id).None?
      ensures claimed ==> record == r && effects == old(effects) + [r]
      ensures !claimed ==> Some(record) == Find(old(effects), r.id) && effects == old(effects)
    {
      var existing := Find(effects, r.id);
      if existing.Some? { return false, existing.value; }
      SetNew(effects, r);
      SetOnePerId(effects, r);
      effects := Set(effects, r);
      Heartbeat();
      return true, r;
    }
  }
}
