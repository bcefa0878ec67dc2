/**
 The mailbox store: messages numbered 1, 2, 3, ... per agent and stored once per
 message id, a read after a sequence number, and a consumer cursor that only
 moves forward and never past the last message.
 */
module Mailbox {
  import opened Text

  datatype Message = Message(id: string, body: string)

  datatype Envelope = Envelope(agent: string, seqNo: nat, message: Message)

  // ----- the stored messages of one agent

  /** Numbered without gaps, and no message id twice. */
  ghost predicate Numbered(agent: string, items: seq<Envelope>) {
    && (forall i :: 0 <= i < |items| ==> items[i].agent == agent && items[i].seqNo == i + 1)
    && (forall i, j :: 0 <= i < j < |items| ==> items[i].message.id != items[j].message.id)
  }

  function Find(items: seq<Envelope>, id: string): (r: Option<Envelope>)
    ensures r.Some? ==> r.value in items && r.value.message.id == id
    ensures r.None? ==> forall e :: e in items ==> e.message.id != id
  {
    if items == [] then None
    else if items[0].message.id == id then Some(items[0])
    else Find(items[1..], id)
  }

  function LastSeq(items: seq<Envelope>): nat {
    if items == [] then 0 else items[|items| - 1].seqNo
  }

  function Appended(agent: string, items: seq<Envelope>, message: Message): seq<Envelope> {
    if Find(items, message.id).Some? then items
    else items + [Envelope(agent, LastSeq(items) + 1, message)]
  }

  /** `filter` by sequence number, in order. */
  function Later(items: seq<Envelope>, after: int): seq<Envelope> {
    if items == [] then []
    else if items[0].seqNo > after then [items[0]] + Later(items[1..], after)
    else Later(items[1..], after)
  }

  function Take<T>(s: seq<T>, limit: int): seq<T> {
    if limit <= 0 then [] else if limit >= |s| then s else s[..limit]
  }

  function AckedSeq(items: seq<Envelope>, cursor: Option<int>, through: int): int {
    var maxSeq := LastSeq(items);
    var clamped := if through <= maxSeq then through else maxSeq;
    var existing := if cursor.Some? then cursor.value else 0;
    if existing >= clamped then existing else clamped
  }

  lemma AppendKeepsNumbering(agent: string, items: seq<Envelope>, message: Message)
    requires Numbered(agent, items)
    ensures Numbered(agent, Appended(agent, items, message)) && items <= Appended(agent, items, message)
    ensures HasId(Appended(agent, items, message), message.id)
  {
    if Find(items, message.id).None? {
      var e := Envelope(agent, LastSeq(items) + 1, message);
      assert Appended(agent, items, message)[|items|] == e;
      forall i | 0 <= i < |items| ensures items[i].message.id != message.id {
        assert items[i] in items;
      }
    }
  }

  lemma {:induction false} LaterFrom(items: seq<Envelope>, after: int, first: nat)
    requires forall i :: 0 <= i < |items| ==> items[i].seqNo == first + i
    ensures Later(items, after) ==
      if after < first then items else if after - first + 1 <= |items| then items[after - first + 1..] else []
  {
    if items != [] {
      LaterFrom(items[1..], after, first + 1);
    }
  }

  /** What is left of the mailbox after its first `after` messages. */
  function Past(items: seq<Envelope>, after: int): seq<Envelope> {
    if after <= 0 then items else if after <= |items| then items[after..] else []
  }

  /** Filtering a numbered mailbox leaves its tail. */
  lemma LaterIsTail(agent: string, items: seq<Envelope>, after: int)
    requires Numbered(agent, items)
    ensures Later(items, after) == Past(items, after)
  {
    LaterFrom(items, after, 1);
  }

  // ----- the store

  function CursorKey(agent: string, consumer: string): string {
    agent + "\U{0}" + consumer
  }

  /** Two cursors share a slot only when they are the same, as long as agent ids hold no NUL. */
  lemma CursorKeyInjective(a: string, c: string, b: string, d: string)
    requires '\U{0}' !in a && '\U{0}' !in b && CursorKey(a, c) == CursorKey(b, d)
    ensures a == b && c == d
  {
    var k := CursorKey(a, c);
    assert k[|a|] == '\U{0}' && k[|b|] == '\U{0}';
    assert a == k[..|a|] && b == k[..|b|];
    assert c == k[|a| + 1..] && d == k[|b| + 1..];
  }

  class InMemoryMailboxStore {
    var messages: map<string, seq<Envelope>>
    var cursors: map<string, int>

    ghost predicate Valid()
      reads this
    {
      forall agent :: agent in messages ==> Numbered(agent, messages[agent])
    }

    function Items(agent: string): seq<Envelope>
      reads this
    {
      if agent in messages then messages[agent] else []
    }

    function Cursor(agent: string, consumer: string): Option<int>
      reads this
    {
      var key := CursorKey(agent, consumer);
      if key in cursors then Some(cursors[key]) else None
    }

    constructor ()
      ensures Valid() && messages == map[] && cursors == map[]
    {
      messages, cursors := map[], map[];
    }

    /** Stored once per id: a repeat answers with the first envelope and changes nothing. */
    method AppendMailbox(agent: string, message: Message) returns (envelope: Envelope, inserted: bool)
      requires Valid()
      modifies this`messages
      ensures Valid() && Items(agent) == Appended(agent, old(Items(agent)), message)
      ensures forall other :: other != agent ==> Items(other) == old(Items(other))
      ensures envelope in Items(agent) && envelope.message.id == message.id
      ensures inserted <==> forall e :: e in old(Items(agent)) ==> e.message.id != message.id
      ensures inserted ==> envelope == Envelope(agent, |old(Items(agent))| + 1, message)
      ensures !inserted ==> Items(agent) == old(Items(agent))
    {
      var items := Items(agent);
      AppendKeepsNumbering(agent, items, message);
      var existing := Find(items, message.id);
      if existing.Some? {
        return existing.value, false;
      }
      envelope := Envelope(agent, LastSeq(items) + 1, message);
      items := items + [envelope];
      assert items[|items| - 1] == envelope;
      messages := messages[agent := items];
      inserted := true;
    }

    /** The next messages after a sequence number, at most `limit` of them, none left out between. */
    method ReadMailbox(agent: string, after: int, limit: int) returns (r: seq<Envelope>)
      requires Valid()
      ensures r == Take(Past(Items(agent), after), limit)
    {
      LaterIsTail(agent, Items(agent), after);
      r := Take(Later(Items(agent), after), limit);
    }

    /** The cursor never moves back and never past the last message. */
    method AckMailbox(agent: string, consumer: string, through: int) returns (ack: int)
      requires Valid()
      modifies this`cursors
      ensures cursors == old(cursors)[CursorKey(agent, consumer) := ack]
      ensures ack == AckedSeq(Items(agent), old(Cursor(agent, consumer)), through)
      ensures old(Cursor(agent, consumer)).Some? ==> ack >= old(Cursor(agent, consumer)).value
      ensures ack <= |Items(agent)| || Some(ack) == old(Cursor(agent, consumer))
    {
      var existing := Cursor(agent, consumer);
      var maxSeq := LastSeq(Items(agent));
      var clamped := if through <= maxSeq then through else maxSeq;
      var previous := if existing.Some? then existing.value else 0;
      ack := if previous >= clamped then previous else clamped;
      cursors := cursors[CursorKey(agent, consumer) := ack];
    }
  }

  // ----- a consumer that crashes

  /** One attempt of the consumer, between its calls: the cursor it fetched, then what it read after it. */
  datatype Worker = Idle | Fetched(after: nat) | Holding(batch: seq<Envelope>)

  /** `handled` lists what acks newly covered, as the acking attempt had read it. */
  datatype State = State(
    items: seq<Envelope>, cursor: Option<int>, workers: map<string, Worker>, handled: seq<Envelope>)

  /** `AckThrough` acks the first `n` messages of the batch; a crashed attempt forgets where it was. */
  datatype Action =
    | Send(message: Message)
    | Fetch(worker: string)
    | Read(worker: string, limit: int)
    | AckThrough(worker: string, n: nat)
    | Crash(worker: string)

  const Initial: State := State([], None, map[], [])

  function At(cursor: Option<int>): int {
    if cursor.Some? then cursor.value else 0
  }

  function WorkerOf(s: State, w: string): Worker {
    if w in s.workers then s.workers[w] else Idle
  }

  function Step(agent: string, s: State, a: Action): State {
    match a
    case Send(message) => s.(items := Appended(agent, s.items, message))
    case Fetch(w) =>
      if At(s.cursor) < 0 then s else s.(workers := s.workers[w := Fetched(At(s.cursor))])
    case Read(w, limit) =>
      if WorkerOf(s, w).Fetched?
      then s.(workers := s.workers[w := Holding(Take(Later(s.items, s.workers[w].after), limit))])
      else s
    case AckThrough(w, n) =>
      if WorkerOf(s, w).Holding? && 0 < n <= |s.workers[w].batch| then
        var batch := s.workers[w].batch;
        var ack := AckedSeq(s.items, s.cursor, batch[n - 1].seqNo);
        s.(cursor := Some(ack), handled := s.handled + Later(batch[..n], At(s.cursor)))
      else s
    case Crash(w) => s.(workers := s.workers - {w})
  }

  function Run(agent: string, s: State, run: seq<Action>): State {
    if run == [] then s else Step(agent, Run(agent, s, run[..|run| - 1]), run[|run| - 1])
  }

  /** A held batch is still a contiguous piece of the mailbox, starting at or below the cursor. */
  ghost predicate IsPiece(s: State, batch: seq<Envelope>) {
    batch == [] ||
    (1 <= batch[0].seqNo <= At(s.cursor) + 1 && batch[0].seqNo - 1 + |batch| <= |s.items|
     && batch == s.items[batch[0].seqNo - 1..batch[0].seqNo - 1 + |batch|])
  }

  ghost predicate WorkerOk(s: State, w: Worker) {
    match w
    case Idle => true
    case Fetched(after) => after <= At(s.cursor)
    case Holding(batch) => IsPiece(s, batch)
  }

  ghost predicate Inv(agent: string, s: State) {
    && Numbered(agent, s.items) && 0 <= At(s.cursor) <= |s.items|
    && (forall w :: w in s.workers ==> WorkerOk(s, s.workers[w]))
    && s.handled == s.items[..At(s.cursor)]
  }

  lemma ReadKeeps(agent: string, s: State, w: string, limit: int)
    requires Inv(agent, s) && WorkerOf(s, w).Fetched?
    ensures Inv(agent, Step(agent, s, Read(w, limit)))
  {
    var after := s.workers[w].after;
    LaterIsTail(agent, s.items, after);
    var batch := Take(Past(s.items, after), limit);
    assert batch == s.items[after..after + |batch|];
    assert IsPiece(s, batch);
  }

  /** An ack adds exactly the messages between the old cursor and the new one. */
  lemma AckCovers(agent: string, s: State, batch: seq<Envelope>, n: nat)
    requires Inv(agent, s) && IsPiece(s, batch) && 0 < n <= |batch|
    ensures var ack := AckedSeq(s.items, s.cursor, batch[n - 1].seqNo);
      && At(s.cursor) <= ack <= |s.items|
      && ack >= batch[n - 1].seqNo
      && Later(batch[..n], At(s.cursor)) == s.items[At(s.cursor)..ack]
  {
    var k, p := At(s.cursor), batch[0].seqNo - 1;
    forall i | 0 <= i < |batch| ensures batch[i].seqNo == p + 1 + i {
      assert batch[i] == s.items[p + i];
    }
    LaterFrom(batch[..n], k, p + 1);
    assert batch[..n] == s.items[p..p + n];
    if p < k <= p + n {
      assert s.items[p..p + n][k - p..] == s.items[k..p + n];
    }
  }

  lemma {:induction false} AckKeeps(agent: string, s: State, w: string, n: nat)
    requires Inv(agent, s) && WorkerOf(s, w).Holding? && 0 < n <= |s.workers[w].batch|
    ensures Inv(agent, Step(agent, s, AckThrough(w, n)))
  {
    var batch := s.workers[w].batch;
    assert WorkerOk(s, s.workers[w]);
    AckCovers(agent, s, batch, n);
    var ack := AckedSeq(s.items, s.cursor, batch[n - 1].seqNo);
    var t := Step(agent, s, AckThrough(w, n));
    assert t == s.(cursor := Some(ack), handled := t.handled);
    Rejoin(s.items, At(s.cursor), ack);
    assert t.handled == s.items[..ack];
    forall v | v in s.workers ensures WorkerOk(t, s.workers[v]) {
      WorkerFollows(s, t, s.workers[v]);
    }
  }

  lemma Rejoin(items: seq<Envelope>, k: nat, n: nat)
    requires k <= n <= |items|
    ensures items[..k] + items[k..n] == items[..n]
  {
  }

  /** A worker's piece still starts at or below the cursor after the cursor has moved on. */
  lemma WorkerFollows(s: State, t: State, w: Worker)
    requires WorkerOk(s, w) && t.items == s.items && At(s.cursor) <= At(t.cursor)
    ensures WorkerOk(t, w)
  {
  }

  /** A worker's piece of the mailbox is still one after messages are appended. */
  lemma WorkerStays(s: State, items: seq<Envelope>, w: Worker)
    requires s.items <= items && WorkerOk(s, w)
    ensures WorkerOk(s.(items := items), w)
  {
    if w.Holding? && w.batch != [] {
      var p := w.batch[0].seqNo - 1;
      assert items[p..p + |w.batch|] == s.items[p..p + |w.batch|];
    }
  }

  lemma SendKeeps(agent: string, s: State, message: Message)
    requires Inv(agent, s)
    ensures Inv(agent, Step(agent, s, Send(message)))
  {
    AppendKeepsNumbering(agent, s.items, message);
    var items := Appended(agent, s.items, message);
    forall w | w in s.workers ensures WorkerOk(s.(items := items), s.workers[w]) {
      WorkerStays(s, items, s.workers[w]);
    }
    assert items[..At(s.cursor)] == s.items[..At(s.cursor)];
  }

  lemma InvStep(agent: string, s: State, a: Action)
    requires Inv(agent, s)
    ensures Inv(agent, Step(agent, s, a))
  {
    match a
    case Send(message) => SendKeeps(agent, s, message);
    case Fetch(_) =>
    case Read(w, limit) => if WorkerOf(s, w).Fetched? { ReadKeeps(agent, s, w, limit); }
    case AckThrough(w, n) =>
      if WorkerOf(s, w).Holding? && 0 < n <= |s.workers[w].batch| { AckKeeps(agent, s, w, n); }
    case Crash(_) =>
  }

  ghost predicate HasId(items: seq<Envelope>, id: string) {
    exists e :: e in items && e.message.id == id
  }

  /** The mailbox holds every sent id and nothing that was not sent. */
  ghost predicate HoldsSent(items: seq<Envelope>, run: seq<Action>) {
    && (forall m :: Send(m) in run ==> HasId(items, m.id))
    && (forall e :: e in items ==> Send(e.message) in run)
  }

  lemma {:induction false} RunInv(agent: string, run: seq<Action>)
    ensures Inv(agent, Run(agent, Initial, run))
  {
    if run != [] {
      RunInv(agent, run[..|run| - 1]);
      InvStep(agent, Run(agent, Initial, run[..|run| - 1]), run[|run| - 1]);
    }
  }

  lemma {:induction false} RunHolds(agent: string, run: seq<Action>)
    ensures HoldsSent(Run(agent, Initial, run).items, run)
  {
    if run != [] {
      var most, last := run[..|run| - 1], run[|run| - 1];
      RunHolds(agent, most);
      assert run == most + [last];
      var s := Run(agent, Initial, most);
      if last.Send? {
        RunInv(agent, most);
        SentStays(agent, s.items, most, last.message);
      } else {
        NothingSent(s.items, most, last);
        assert Step(agent, s, last).items == s.items;
      }
    }
  }

  lemma NothingSent(items: seq<Envelope>, run: seq<Action>, a: Action)
    requires HoldsSent(items, run) && !a.Send?
    ensures HoldsSent(items, run + [a])
  {
    forall m | Send(m) in run + [a] ensures HasId(items, m.id) {
      assert Send(m) in run;
    }
  }

  lemma SentStays(agent: string, items: seq<Envelope>, run: seq<Action>, message: Message)
    requires Numbered(agent, items) && HoldsSent(items, run)
    ensures HoldsSent(Appended(agent, items, message), run + [Send(message)])
  {
    AppendKeepsNumbering(agent, items, message);
    var items' := Appended(agent, items, message);
    forall m | Send(m) in run + [Send(message)] ensures HasId(items', m.id) {
      if Send(m) in run {
        IdStays(items, items', m.id);
      }
    }
  }

  lemma IdStays(items: seq<Envelope>, more: seq<Envelope>, id: string)
    requires HasId(items, id) && items <= more
    ensures HasId(more, id)
  {
    var e :| e in items && e.message.id == id;
    assert e in more;
  }

  /**
   However sends, crashes and any number of attempts of one consumer interleave:
   what the acks covered is the mailbox up to the cursor, so every distinct
   message is acked once, in order and without a gap, by an attempt that had
   read it.
   */
  lemma AckedOnceInOrder(agent: string, run: seq<Action>)
    ensures var s := Run(agent, Initial, run);
      && 0 <= At(s.cursor) <= |s.items|
      && s.handled == s.items[..At(s.cursor)]
      && Numbered(agent, s.items) && HoldsSent(s.items, run)
  {
    RunInv(agent, run);
    RunHolds(agent, run);
  }

  /** Nothing acked is ever taken back, nor acked again: a longer run only extends what was handled. */
  lemma {:induction false} HandledOnlyGrows(agent: string, s: State, run: seq<Action>)
    ensures s.handled <= Run(agent, s, run).handled
  {
    if run != [] {
      HandledOnlyGrows(agent, s, run[..|run| - 1]);
    }
  }

  /** One attempt with nothing in between: fetch, read, ack all of it. */
  function Attempt(agent: string, s: State, w: string, limit: int): State {
    var read := Step(agent, Step(agent, s, Fetch(w)), Read(w, limit));
    if WorkerOf(read, w).Holding? then Step(agent, read, AckThrough(w, |WorkerOf(read, w).batch|)) else read
  }

  lemma AttemptReads(agent: string, s: State, w: string, limit: int)
    requires Inv(agent, s)
    ensures var read := Step(agent, Step(agent, s, Fetch(w)), Read(w, limit));
      && Inv(agent, read) && read.items == s.items && read.cursor == s.cursor
      && WorkerOf(read, w) == Holding(Take(s.items[At(s.cursor)..], limit))
  {
    var fetched := Step(agent, s, Fetch(w));
    InvStep(agent, s, Fetch(w));
    ReadKeeps(agent, fetched, w, limit);
    LaterIsTail(agent, s.items, At(s.cursor));
    assert s.items[0..] == s.items;
  }

  /** An attempt left undisturbed moves on by the limit, or to the end of the mailbox. */
  lemma UndisturbedAttemptAdvances(agent: string, s: State, w: string, limit: nat)
    requires Inv(agent, s)
    ensures var t := Attempt(agent, s, w, limit);
      && Inv(agent, t) && t.items == s.items
      && At(t.cursor) == if At(s.cursor) + limit <= |s.items| then At(s.cursor) + limit else |s.items|
  {
    AttemptReads(agent, s, w, limit);
    var read := Step(agent, Step(agent, s, Fetch(w)), Read(w, limit));
    var batch := WorkerOf(read, w).batch;
    InvStep(agent, read, AckThrough(w, |batch|));
    if batch != [] {
      var last := s.items[At(s.cursor) + |batch| - 1];
      assert batch[|batch| - 1] == last && last.seqNo == At(s.cursor) + |batch|;
    }
  }
}
