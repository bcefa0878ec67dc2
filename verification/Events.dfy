/**
 The event log with named consumers: append, clamped and monotone acks, and the
 two-statement safe prune. Each SQL statement is one atomic step; a prune reads
 its watermark in one step and deletes in a later one, and anything may happen
 in between.
 */
module Events {

  type Consumer = string
  type Pruner = string
  type Row = (nat, string)

  /** `last` is the last value the row sequence handed out. */
  datatype Table = Table(rows: map<nat, string>, last: nat, cursors: map<Consumer, int>)

  // ----- the statements

  ghost predicate IsLeast(w: int, s: set<int>) {
    w in s && forall v :: v in s ==> w <= v
  }

  lemma {:induction false} HasLeast(s: set<int>, w: int)
    requires w in s
    ensures exists u :: IsLeast(u, s)
  {
    if v :| v in s && v < w {
      HasLeast(s - {w}, v);
      var u :| IsLeast(u, s - {w});
      assert v in s - {w} && forall x :: x in s ==> x == w || x in s - {w};
      assert IsLeast(u, s);
    } else {
      assert IsLeast(w, s);
    }
  }

  /** `COALESCE(MIN(ack_seq),0)`. */
  ghost function Watermark(cursors: map<Consumer, int>): (w: int)
    ensures cursors == map[] ==> w == 0
    ensures cursors != map[] ==> w in cursors.Values
    ensures forall c :: c in cursors ==> w <= cursors[c]
  {
    if cursors == map[] then 0
    else
      var c :| c in cursors;
      HasLeast(cursors.Values, cursors[c]);
      var w :| IsLeast(w, cursors.Values);
      assert forall d :: d in cursors ==> cursors[d] in cursors.Values;
      w
  }

  /** `COALESCE(MAX(seq),0)`, counting down from the last value handed out. */
  function MaxSeq(rows: map<nat, string>, last: nat): (m: nat)
    ensures m <= last && (m > 0 ==> m in rows)
    ensures forall e :: e in rows && e <= last ==> e <= m
  {
    if last == 0 || last in rows then last else MaxSeq(rows, last - 1)
  }

  function AppendTo(t: Table, body: string): Table {
    t.(rows := t.rows[t.last + 1 := body], last := t.last + 1)
  }

  function AckedSeq(t: Table, c: Consumer, through: int): int {
    var maxSeq := MaxSeq(t.rows, t.last);
    var clamped := if through <= maxSeq then through else maxSeq;
    if c in t.cursors && t.cursors[c] > clamped then t.cursors[c] else clamped
  }

  function AckIn(t: Table, c: Consumer, through: int): Table {
    t.(cursors := t.cursors[c := AckedSeq(t, c, through)])
  }

  function PruneThrough(t: Table, through: int): Table {
    t.(rows := map e | e in t.rows && e > through :: t.rows[e])
  }

  /** The rows after `after` in sequence order, at most `limit` of them. */
  function ReadRows(t: Table, after: nat, limit: nat): (r: seq<Row>)
    decreases if t.last > after then t.last - after else 0
  {
    if limit == 0 || after >= t.last then []
    else if after + 1 in t.rows then [(after + 1, t.rows[after + 1])] + ReadRows(t, after + 1, limit - 1)
    else ReadRows(t, after + 1, limit)
  }

  /** The event statements against the two tables. */
  class EventStore {
    var rows: map<nat, string>
    var last: nat
    var cursors: map<Consumer, int>

    ghost function Contents(): Table
      reads this
    {
      Table(rows, last, cursors)
    }

    ghost predicate Valid()
      reads this
    {
      WellFormed(Contents())
    }

    constructor ()
      ensures Valid() && Contents() == Initial.table
    {
      rows, last, cursors := map[], 0, map[];
    }

    method AppendEvent(body: string)
      requires Valid()
      modifies this
      ensures Valid() && Contents() == AppendTo(old(Contents()), body)
    {
      last := last + 1;
      rows := rows[last := body];
    }

    method AckEvent(c: Consumer, through: int) returns (ack: int)
      requires Valid()
      modifies this`cursors
      ensures Valid() && Contents() == AckIn(old(Contents()), c, through)
      ensures ack == cursors[c] && ack <= last
      ensures c in old(cursors) ==> ack >= old(cursors)[c]
      ensures through in rows ==> ack >= through
      ensures ack == through || ack == MaxSeq(rows, last) || (c in old(cursors) && ack == old(cursors)[c])
      ensures ack > through ==> c in old(cursors) && ack == old(cursors)[c]
    {
      var maxSeq := MaxSeq(rows, last);
      ack := if through <= maxSeq then through else maxSeq;
      if c in cursors && cursors[c] > ack {
        ack := cursors[c];
      }
      cursors := cursors[c := ack];
    }

    method ForgetEventConsumer(c: Consumer) returns (known: bool)
      requires Valid()
      modifies this`cursors
      ensures Valid() && cursors == old(cursors) - {c}
      ensures known <==> c in old(cursors)
    {
      known := c in cursors;
      cursors := cursors - {c};
    }

    method SafeEventWatermark() returns (w: int)
      ensures w == Watermark(cursors)
    {
      if cursors == map[] {
        return 0;
      }
      assert Watermark(cursors) in cursors.Values;
      var c :| c in cursors && forall d :: d in cursors ==> cursors[c] <= cursors[d];
      w := cursors[c];
      assert w in cursors.Values;
    }

    method PruneEvents(through: int) returns (removed: nat)
      requires Valid()
      modifies this`rows
      ensures Valid() && Contents() == PruneThrough(old(Contents()), through)
      ensures removed + |rows| == |old(rows)|
    {
      var kept := map e | e in rows && e > through :: rows[e];
      assert kept.Keys <= rows.Keys;
      assert |rows.Keys - kept.Keys| == |rows.Keys| - |kept.Keys|;
      removed := |rows| - |kept|;
      rows := kept;
    }

    /** Undisturbed, a safe prune removes nothing that any registered consumer has still to ack. */
    method PruneEventsSafe() returns (removed: nat)
      requires Valid()
      modifies this`rows
      ensures Valid()
      ensures rows == map e | e in old(rows) && e > Watermark(cursors) :: old(rows)[e]
      ensures forall c, e :: c in cursors && e in old(rows) && cursors[c] < e ==> e in rows
      ensures cursors == map[] ==> rows == old(rows)
      ensures cursors != map[] ==> forall e :: e in rows ==> exists c :: c in cursors && cursors[c] < e
    {
      var watermark := SafeEventWatermark();
      if watermark <= 0 {
        removed := 0;
      } else {
        removed := PruneEvents(watermark);
      }
    }
  }

  // ----- all interleavings

  /** `pruners` holds the watermarks read and not yet used; `history` every event ever appended. */
  datatype State = State(table: Table, pruners: map<Pruner, int>, history: seq<string>)

  datatype Action =
    | Append(body: string)
    | Ack(consumer: Consumer, through: int)
    | Forget(consumer: Consumer)
    | ReadWatermark(pruner: Pruner)
    | Delete(pruner: Pruner)

  const Initial: State := State(Table(map[], 0, map[]), map[], [])

  ghost function Step(s: State, a: Action): State {
    match a
    case Append(body) => s.(table := AppendTo(s.table, body), history := s.history + [body])
    case Ack(c, through) => s.(table := AckIn(s.table, c, through))
    case Forget(c) => s.(table := s.table.(cursors := s.table.cursors - {c}))
    case ReadWatermark(p) =>
      var w := Watermark(s.table.cursors);
      s.(pruners := if w <= 0 then s.pruners - {p} else s.pruners[p := w])
    case Delete(p) =>
      if p !in s.pruners then s
      else s.(table := PruneThrough(s.table, s.pruners[p]), pruners := s.pruners - {p})
  }

  ghost function After(s: State, run: seq<Action>): State {
    if run == [] then s else Step(After(s, run[..|run| - 1]), run[|run| - 1])
  }

  ghost predicate WellFormed(t: Table) {
    && (forall e :: e in t.rows ==> 1 <= e <= t.last)
    && (forall c :: c in t.cursors ==> t.cursors[c] <= t.last)
  }

  ghost predicate Inv(s: State) {
    && WellFormed(s.table) && s.table.last == |s.history|
    && (forall e :: e in s.table.rows ==> s.table.rows[e] == s.history[e - 1])
    && (forall p :: p in s.pruners ==> 0 < s.pruners[p] <= s.table.last)
  }

  lemma InvStep(s: State, a: Action)
    requires Inv(s)
    ensures Inv(Step(s, a))
  {
  }

  lemma {:induction false} InvAlways(s: State, run: seq<Action>)
    requires Inv(s)
    ensures Inv(After(s, run)) && s.history <= After(s, run).history
  {
    if run != [] {
      InvAlways(s, run[..|run| - 1]);
      InvStep(After(s, run[..|run| - 1]), run[|run| - 1]);
    }
  }

  // ----- acks and prunes get somewhere

  /**
   An ack of an event that is there brings the consumer's cursor up to it, moves
   no other cursor and no row, and never moves a cursor beyond what was acked.
   */
  lemma AckAdvances(s: State, c: Consumer, through: int)
    requires Inv(s)
    ensures var t := Step(s, Ack(c, through)).table;
      && c in t.cursors && t.rows == s.table.rows
      && (through in s.table.rows ==> t.cursors[c] >= through)
      && (t.cursors[c] <= through || (c in s.table.cursors && t.cursors[c] == s.table.cursors[c]))
      && (forall d :: d != c ==> (d in t.cursors <==> d in s.table.cursors))
      && (forall d :: d != c && d in t.cursors ==> t.cursors[d] == s.table.cursors[d])
  {
  }

  /** Once every registered consumer has acked up to `n`, an undisturbed safe prune leaves nothing up to `n`. */
  lemma AckedIsPruned(s: State, p: Pruner, n: nat)
    requires Inv(s) && s.table.cursors != map[] && forall c :: c in s.table.cursors ==> n <= s.table.cursors[c]
    ensures forall e :: e in Step(Step(s, ReadWatermark(p)), Delete(p)).table.rows ==> n < e
  {
    assert exists c :: c in s.table.cursors && s.table.cursors[c] == Watermark(s.table.cursors);
  }

  /**
   From any reachable state: a consumer that is alone, reads what is left after its
   cursor and acks the last of it has an empty log after the next safe prune.
   */
  lemma LoneConsumerEmptiesLog(run: seq<Action>, c: Consumer, p: Pruner)
    requires After(Initial, run).table.cursors.Keys == {c}
    ensures var s := After(Initial, run);
      var acked := Step(s, Ack(c, s.table.last));
      Step(Step(acked, ReadWatermark(p)), Delete(p)).table.rows == map[]
  {
    InvAlways(Initial, run);
    var s := After(Initial, run);
    var acked := Step(s, Ack(c, s.table.last));
    InvStep(s, Ack(c, s.table.last));
    var m := MaxSeq(s.table.rows, s.table.last);
    assert acked.table.cursors.Keys == {c} && acked.table.cursors[c] >= m && acked.table.rows == s.table.rows;
    AckedIsPruned(acked, p, m);
  }

  // ----- nothing a consumer is owed is lost

  function Max(a: int, b: int): int {
    if a >= b then a else b
  }

  /** The consumer is registered; neither a row nor a pending prune cuts into what it is owed past `base`. */
  ghost predicate Guarded(s: State, c: Consumer, base: nat) {
    && c in s.table.cursors
    && (forall p :: p in s.pruners ==> s.pruners[p] <= Max(base, s.table.cursors[c]))
    && (forall e :: base < e <= s.table.last && s.table.cursors[c] < e ==> e in s.table.rows)
  }

  lemma GuardedStep(s: State, a: Action, c: Consumer, base: nat)
    requires Inv(s) && Guarded(s, c, base) && a != Forget(c)
    ensures Guarded(Step(s, a), c, base) && Step(s, a).table.cursors[c] >= s.table.cursors[c]
  {
  }

  lemma {:induction false} GuardedAlways(s: State, run: seq<Action>, c: Consumer, base: nat)
    requires Inv(s) && Guarded(s, c, base) && Forget(c) !in run
    ensures Guarded(After(s, run), c, base) && After(s, run).table.cursors[c] >= s.table.cursors[c]
  {
    if run != [] {
      GuardedAlways(s, run[..|run| - 1], c, base);
      InvAlways(s, run[..|run| - 1]);
      GuardedStep(After(s, run[..|run| - 1]), run[|run| - 1], c, base);
    }
  }

  /** With no prune under way that could reach further, everything handed out so far is the base. */
  lemma GuardedNow(s: State, c: Consumer)
    requires Inv(s) && c in s.table.cursors
    ensures Guarded(s, c, s.table.last)
  {
  }

  /**
   An event appended while a consumer is registered stays, with its body, until
   that consumer acks it or is forgotten, however many prunes were already under
   way when it was appended.
   */
  lemma AppendedEventKept(before: seq<Action>, body: string, run: seq<Action>, c: Consumer)
    requires c in After(Initial, before).table.cursors && Forget(c) !in run
    ensures var s := Step(After(Initial, before), Append(body));
      var t := After(s, run);
      && c in t.table.cursors
      && (t.table.cursors[c] < s.table.last ==>
            s.table.last in t.table.rows && t.table.rows[s.table.last] == body)
  {
    var r := After(Initial, before);
    var s := Step(r, Append(body));
    InvAlways(Initial, before);
    GuardedNow(r, c);
    InvStep(r, Append(body));
    GuardedStep(r, Append(body), c, r.table.last);
    GuardedAlways(s, run, c, r.table.last);
    InvAlways(s, run);
  }

  /** Events `from + 1` onwards as they were appended, at most `limit` of them. */
  function Slice(history: seq<string>, from: nat, limit: nat): (r: seq<Row>)
    decreases if |history| > from then |history| - from else 0
  {
    if limit == 0 || from >= |history| then []
    else [(from + 1, history[from])] + Slice(history, from + 1, limit - 1)
  }

  lemma {:induction false} ReadIsSlice(s: State, after: nat, limit: nat)
    requires Inv(s) && forall e :: after < e <= s.table.last ==> e in s.table.rows
    ensures ReadRows(s.table, after, limit) == Slice(s.history, after, limit)
    decreases if s.table.last > after then s.table.last - after else 0
  {
    if limit > 0 && after < s.table.last {
      ReadIsSlice(s, after + 1, limit - 1);
    }
  }

  /**
   Once a registered consumer has caught up with its own registration, every read
   after its cursor returns the next events exactly as they were appended: none
   skipped, none repeated, whatever was pruned meanwhile.
   */
  lemma ReadsHaveNoGap(before: seq<Action>, run: seq<Action>, c: Consumer, limit: nat)
    requires c in After(Initial, before).table.cursors && Forget(c) !in run
    ensures var s := After(Initial, before);
      var t := After(s, run);
      && c in t.table.cursors
      && (t.table.cursors[c] >= s.table.last ==>
            ReadRows(t.table, t.table.cursors[c], limit) == Slice(t.history, t.table.cursors[c], limit))
  {
    var s := After(Initial, before);
    InvAlways(Initial, before);
    GuardedNow(s, c);
    GuardedAlways(s, run, c, s.table.last);
    InvAlways(s, run);
    var t := After(s, run);
    if t.table.cursors[c] >= s.table.last {
      ReadIsSlice(t, t.table.cursors[c], limit);
    }
  }

  // ----- the two statements of a safe prune

  /** The delete would remove an event a registered consumer has not acked. */
  ghost predicate Loses(s: State, p: Pruner, c: Consumer) {
    c in s.table.cursors &&
    exists e :: e in s.table.rows && s.table.cursors[c] < e && e !in Step(s, Delete(p)).table.rows
  }

  ghost predicate Covered(s: State, p: Pruner, c: Consumer) {
    c in s.table.cursors && (p in s.pruners ==> s.pruners[p] <= s.table.cursors[c])
  }

  lemma {:induction false} CoveredAlways(s: State, run: seq<Action>, p: Pruner, c: Consumer)
    requires Covered(s, p, c) && Forget(c) !in run
    ensures Covered(After(s, run), p, c)
  {
    if run != [] {
      CoveredAlways(s, run[..|run| - 1], p, c);
      assert run[|run| - 1] != Forget(c);
    }
  }

  /** A consumer registered when the watermark was read, and not forgotten since, loses nothing. */
  lemma RegisteredAtReadIsSafe(s: State, run: seq<Action>, p: Pruner, c: Consumer)
    requires c in s.table.cursors && Forget(c) !in run
    ensures !Loses(After(Step(s, ReadWatermark(p)), run), p, c)
  {
    CoveredAlways(Step(s, ReadWatermark(p)), run, p, c);
  }

  /** One that registers between the two statements does: its first ack is below the watermark. */
  lemma LateConsumerLoses(s: State, p: Pruner, c: Consumer, e: nat)
    requires Inv(s) && c !in s.table.cursors
    requires e in s.table.rows && e <= Watermark(s.table.cursors)
    ensures Loses(After(Step(s, ReadWatermark(p)), [Ack(c, 0)]), p, c)
  {
    var r := Step(s, ReadWatermark(p));
    var run := [Ack(c, 0)];
    assert run[..|run| - 1] == [] && After(r, run[..|run| - 1]) == r;
    var t := After(r, run);
    assert t == Step(r, Ack(c, 0));
    assert t.table.cursors[c] == 0 < e && e in t.table.rows;
    assert e !in Step(t, Delete(p)).table.rows;
  }

  /** The shortest run that loses an event: append, ack, watermark, a second consumer, delete. */
  lemma LateConsumerRun(body: string, a: Consumer, b: Consumer, p: Pruner)
    requires a != b
    ensures var s := After(Initial, [Append(body), Ack(a, 1), ReadWatermark(p), Ack(b, 0)]);
      && Loses(s, p, b)
      && s.table.rows == map[1 := body] && Step(s, Delete(p)).table.rows == map[]
  {
    var run := [Append(body), Ack(a, 1), ReadWatermark(p), Ack(b, 0)];
    var s1 := Step(Initial, Append(body));
    var s2 := Step(s1, Ack(a, 1));
    assert s2.table.cursors == map[a := 1] && 1 in s2.table.rows;
    assert Watermark(s2.table.cursors) == 1 by { assert a in s2.table.cursors; }
    assert run[..1] == [Append(body)] && run[..1][..0] == [] && After(Initial, run[..1]) == s1;
    assert run[..2][..1] == run[..1] && After(Initial, run[..2]) == s2;
    assert run[..3][..2] == run[..2] && After(Initial, run[..3]) == Step(s2, ReadWatermark(p));
    assert run[..4] == run && After(Initial, run) == Step(Step(s2, ReadWatermark(p)), Ack(b, 0));
    assert 1 !in Step(After(Initial, run), Delete(p)).table.rows;
  }

  /**
   Where a prune has something to delete, it is safe for a consumer under every
   interleaving exactly when that consumer was registered as the watermark was read.
   */
  lemma SafeIffRegisteredAtRead(s: State, p: Pruner, c: Consumer)
    requires Inv(s) && exists e :: e in s.table.rows && e <= Watermark(s.table.cursors)
    ensures c in s.table.cursors <==>
      forall run :: Forget(c) !in run ==> !Loses(After(Step(s, ReadWatermark(p)), run), p, c)
  {
    if c in s.table.cursors {
      forall run | Forget(c) !in run ensures !Loses(After(Step(s, ReadWatermark(p)), run), p, c) {
        RegisteredAtReadIsSafe(s, run, p, c);
      }
    } else {
      var e :| e in s.table.rows && e <= Watermark(s.table.cursors);
      LateConsumerLoses(s, p, c, e);
      assert Forget(c) !in [Ack(c, 0)];
    }
  }
}
