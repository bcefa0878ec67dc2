/**
 Reading the replies of a persistent `git cat-file --batch`: a reader that grows
 its buffer one chunk at a time, and the frames cut out of it. A character
 stands for one byte.
 */
module Frames {
  import opened Text

  function Concat(chunks: seq<string>): string {
    if chunks == [] then "" else chunks[0] + Concat(chunks[1..])
  }

  /** Where the first newline is, or the length when there is none. */
  function LineEnd(s: string): (n: nat)
    ensures n <= |s| && '\n' !in s[..n]
    ensures n < |s| ==> s[n] == '\n'
  {
    if s == "" || s[0] == '\n' then 0 else 1 + LineEnd(s[1..])
  }

  lemma {:induction false} LineEndIs(line: string, rest: string)
    requires '\n' !in line
    ensures LineEnd(line + "\n" + rest) == |line|
  {
    if line != "" {
      assert (line + "\n" + rest)[1..] == line[1..] + "\n" + rest;
      LineEndIs(line[1..], rest);
    }
  }

  /** A line is cut off a stream without touching what follows it. */
  lemma CutLine(line: string, rest: string)
    requires '\n' !in line
    ensures var s := line + "\n" + rest;
      LineEnd(s) == |line| < |s| && s[..|line|] == line && s[|line| + 1..] == rest
  {
    LineEndIs(line, rest);
  }

  lemma CutPayload(bytes: string, rest: string)
    ensures var s := bytes + "\n" + rest;
      |s| >= |bytes| + 1 && s[..|bytes|] == bytes && s[|bytes|] == '\n' && s[|bytes| + 1..] == rest
  {
  }

  /** The byte stream of the child process, read chunk by chunk. */
  class ByteReader {
    var buffer: string
    var chunks: seq<string>

    /** All bytes not handed out yet, wherever the chunks were cut. */
    ghost function Pending(): string
      reads this
    {
      buffer + Concat(chunks)
    }

    constructor (stream: seq<string>)
      ensures Pending() == Concat(stream)
    {
      buffer, chunks := "", stream;
    }

    /** Takes in the next chunk; false is the error of a stream that has ended. */
    method More() returns (ok: bool)
      modifies this
      ensures Pending() == old(Pending())
      ensures ok <==> old(chunks) != []
      ensures ok ==> |chunks| < |old(chunks)|
      ensures !ok ==> buffer == Pending()
    {
      ok := chunks != [];
      if ok {
        assert buffer + Concat(chunks) == (buffer + chunks[0]) + Concat(chunks[1..]);
        buffer, chunks := buffer + chunks[0], chunks[1..];
      }
    }

    /** Everything up to the next newline of the stream, the newline itself dropped. */
    method Line() returns (r: Option<string>)
      modifies this
      ensures r.Some? <==> '\n' in old(Pending())
      ensures r.Some? ==> '\n' !in r.value && old(Pending()) == r.value + "\n" + Pending()
      ensures r.None? ==> Pending() == old(Pending())
    {
      while true
        invariant Pending() == old(Pending())
        decreases |chunks|
      {
        var index := LineEnd(buffer);
        if index < |buffer| {
          r := Some(buffer[..index]);
          assert buffer == buffer[..index] + "\n" + buffer[index + 1..];
          assert Pending() == buffer[..index] + "\n" + (buffer[index + 1..] + Concat(chunks));
          buffer := buffer[index + 1..];
          return;
        }
        var ok := More();
        if !ok {
          return None;
        }
      }
    }

    /** Exactly the next `length` bytes of the stream. */
    method Bytes(length: nat) returns (r: Option<string>)
      modifies this
      ensures r.Some? <==> length <= |old(Pending())|
      ensures r.Some? ==> |r.value| == length && old(Pending()) == r.value + Pending()
      ensures r.None? ==> Pending() == old(Pending())
    {
      while |buffer| < length
        invariant Pending() == old(Pending())
        decreases |chunks|
      {
        var ok := More();
        if !ok {
          return None;
        }
      }
      r := Some(buffer[..length]);
      assert Pending() == buffer[..length] + (buffer[length..] + Concat(chunks));
      buffer := buffer[length..];
    }

    /** One request's reply: the answer and the bytes left depend on the stream, not on its chunks. */
    method ReadOne() returns (r: Answer)
      modifies this
      ensures (r, Pending()) == ReadFrame(old(Pending()))
    {
      ghost var stream := Pending();
      var line := Line();
      if line.None? {
        return StreamEnded;
      }
      var header := line.value;
      LineEndIs(header, Pending());
      assert stream[..|header|] == header && stream[|header| + 1..] == Pending();
      if EndsWith(header, " missing") {
        return Missing;
      }
      var fields := ParseHeader(header);
      if fields.None? {
        return BadHeader;
      }
      var size := fields.value.size;
      ghost var rest := Pending();
      var payload := Bytes(size + 1);
      if payload.None? {
        return StreamEnded;
      }
      assert rest[..size] == payload.value[..size] && rest[size] == payload.value[size];
      assert rest[size + 1..] == Pending();
      if payload.value[size] != '\n' {
        return BadFraming;
      }
      return Found(Object(fields.value.objectId, fields.value.kind, payload.value[..size]));
    }

    /** `n` reads queued one behind the other; a failed one does not stop the next. */
    method ReadChain(n: nat) returns (answers: seq<Answer>)
      modifies this
      ensures (answers, Pending()) == ReadFrames(old(Pending()), n)
    {
      answers := [];
      for i := 0 to n
        invariant (answers, Pending()) == ReadFrames(old(Pending()), i)
      {
        var answer := ReadOne();
        answers := answers + [answer];
      }
    }
  }

  // ----- frames

  datatype Object = Object(objectId: string, kind: string, bytes: string)

  datatype Answer = Found(item: Object) | Missing | BadHeader | BadFraming | StreamEnded

  datatype Header = Header(objectId: string, kind: string, size: nat)

  predicate EndsWith(s: string, suffix: string) {
    |suffix| <= |s| && s[|s| - |suffix|..] == suffix
  }

  /** Three fields between single spaces, later ones ignored; an empty size reads as zero. */
  function ParseHeader(header: string): Option<Header> {
    var parts := Split(header, ' ');
    if |parts| < 3 || parts[0] == "" || parts[1] == "" || !AllDigits(parts[2]) then None
    else Some(Header(parts[0], parts[1], ParseDigits(parts[2])))
  }

  /** What one read makes of a stream, and the bytes it leaves. */
  function ReadFrame(stream: string): (Answer, string) {
    var n := LineEnd(stream);
    if n == |stream| then (StreamEnded, stream)
    else
      var header, rest := stream[..n], stream[n + 1..];
      if EndsWith(header, " missing") then (Missing, rest)
      else match ParseHeader(header) {
        case None => (BadHeader, rest)
        case Some(h) =>
          if |rest| < h.size + 1 then (StreamEnded, rest)
          else if rest[h.size] != '\n' then (BadFraming, rest[h.size + 1..])
          else (Found(Object(h.objectId, h.kind, rest[..h.size])), rest[h.size + 1..])
      }
  }

  function ReadFrames(stream: string, n: nat): (seq<Answer>, string) {
    if n == 0 then ([], stream)
    else
      var (answers, rest) := ReadFrames(stream, n - 1);
      var (answer, rest') := ReadFrame(rest);
      (answers + [answer], rest')
  }

  // ----- what git prints

  /** A reply of `git cat-file --batch`. */
  datatype Reply = Present(item: Object) | Absent(name: string)

  predicate Printable(reply: Reply) {
    match reply
    case Present(o) =>
      && o.objectId != "" && ' ' !in o.objectId && '\n' !in o.objectId
      && o.kind != "" && ' ' !in o.kind && '\n' !in o.kind
    case Absent(name) => '\n' !in name
  }

  function HeaderLine(o: Object): string {
    o.objectId + " " + o.kind + " " + Decimal(|o.bytes|)
  }

  function Print(reply: Reply): string {
    match reply
    case Present(o) => HeaderLine(o) + "\n" + o.bytes + "\n"
    case Absent(name) => name + " missing" + "\n"
  }

  function PrintAll(replies: seq<Reply>): string {
    if replies == [] then "" else PrintAll(replies[..|replies| - 1]) + Print(replies[|replies| - 1])
  }

  function Expected(reply: Reply): Answer {
    match reply
    case Present(o) => Found(o)
    case Absent(_) => Missing
  }

  function ExpectedAll(replies: seq<Reply>): (answers: seq<Answer>)
    ensures |answers| == |replies| && forall i :: 0 <= i < |replies| ==> answers[i] == Expected(replies[i])
  {
    if replies == [] then [] else ExpectedAll(replies[..|replies| - 1]) + [Expected(replies[|replies| - 1])]
  }

  lemma DigitsAvoid(s: string, c: char)
    requires AllDigits(s) && !IsDigit(c)
    ensures c !in s
  {
  }

  lemma HeaderParses(o: Object)
    requires Printable(Present(o))
    ensures '\n' !in HeaderLine(o) && !EndsWith(HeaderLine(o), " missing")
    ensures ParseHeader(HeaderLine(o)) == Some(Header(o.objectId, o.kind, |o.bytes|))
  {
    var size := Decimal(|o.bytes|);
    DigitsAvoid(size, ' ');
    SplitWhole(o.objectId, ' ');
    SplitWhole(o.kind, ' ');
    SplitWhole(size, ' ');
    SplitConcat(o.objectId, o.kind, ' ');
    SplitConcat(o.objectId + " " + o.kind, size, ' ');
    assert Split(HeaderLine(o), ' ') == [o.objectId, o.kind, size];
    ParseDecimal(|o.bytes|);
    DigitsAvoid(size, '\n');
    assert HeaderLine(o)[|HeaderLine(o)| - 1] == size[|size| - 1];
    assert " missing"[7] == 'g';
  }

  /** One printed reply is read back whole, newlines in its payload included, and nothing after it is touched. */
  lemma FrameRoundTrip(reply: Reply, rest: string)
    requires Printable(reply)
    ensures ReadFrame(Print(reply) + rest) == (Expected(reply), rest)
  {
    match reply
    case Present(o) => ObjectRoundTrip(o, rest);
    case Absent(name) =>
      var line := name + " missing";
      assert Print(reply) + rest == line + "\n" + rest;
      CutLine(line, rest);
      assert line[|line| - |" missing"|..] == " missing";
  }

  lemma ObjectRoundTrip(o: Object, rest: string)
    requires Printable(Present(o))
    ensures ReadFrame(Print(Present(o)) + rest) == (Found(o), rest)
  {
    var after := o.bytes + "\n" + rest;
    assert Print(Present(o)) + rest == HeaderLine(o) + "\n" + after;
    HeaderParses(o);
    CutLine(HeaderLine(o), after);
    CutPayload(o.bytes, rest);
  }

  /** Reading as many frames as were printed returns exactly them and leaves exactly what followed. */
  lemma {:induction false} PrintedRepliesRead(replies: seq<Reply>, rest: string)
    requires forall i :: 0 <= i < |replies| ==> Printable(replies[i])
    ensures ReadFrames(PrintAll(replies) + rest, |replies|) == (ExpectedAll(replies), rest)
  {
    if replies == [] {
      assert PrintAll(replies) + rest == rest;
    } else {
      var most, last := replies[..|replies| - 1], replies[|replies| - 1];
      assert PrintAll(replies) + rest == PrintAll(most) + (Print(last) + rest);
      PrintedRepliesRead(most, Print(last) + rest);
      FrameRoundTrip(last, rest);
    }
  }

  /** The stream is a header line announcing the object, its bytes, a newline, and `rest`. */
  ghost predicate Framed(stream: string, header: string, o: Object, rest: string) {
    && '\n' !in header && !EndsWith(header, " missing")
    && ParseHeader(header) == Some(Header(o.objectId, o.kind, |o.bytes|))
    && stream == header + "\n" + o.bytes + "\n" + rest
  }

  /** The converse: an object is only ever answered when the stream framed it so. */
  lemma FoundWasFramed(stream: string)
    requires ReadFrame(stream).0.Found?
    ensures exists header :: Framed(stream, header, ReadFrame(stream).0.item, ReadFrame(stream).1)
  {
    var n := LineEnd(stream);
    var header, rest := stream[..n], stream[n + 1..];
    Reassemble(stream, n, ParseHeader(header).value.size);
    assert Framed(stream, header, ReadFrame(stream).0.item, ReadFrame(stream).1);
  }

  lemma Reassemble(stream: string, n: nat, size: nat)
    requires n + size + 2 <= |stream| && stream[n] == '\n' && stream[n + 1..][size] == '\n'
    ensures stream == stream[..n] + "\n" + stream[n + 1..][..size] + "\n" + stream[n + 1..][size + 1..]
  {
  }

  /** A stream that ends inside a reply is noticed, wherever it ends. */
  lemma CutFrameIsNoticed(reply: Reply, n: nat)
    requires Printable(reply) && n < |Print(reply)|
    ensures ReadFrame(Print(reply)[..n]).0 == StreamEnded
  {
    var cut := Print(reply)[..n];
    match reply
    case Present(o) =>
      HeaderParses(o);
      var line := HeaderLine(o);
      if n <= |line| {
        assert Print(reply)[..n] == line[..n];
        NoLine(cut);
      } else {
        var rest := (o.bytes + "\n")[..n - |line| - 1];
        assert Print(reply) == line + "\n" + (o.bytes + "\n");
        assert cut == line + "\n" + rest;
        CutLine(line, rest);
      }
    case Absent(name) =>
      assert Print(reply)[..n] == (name + " missing")[..n];
      NoLine(cut);
  }

  lemma {:induction false} NoLine(s: string)
    requires '\n' !in s
    ensures LineEnd(s) == |s|
  {
    if s != "" { NoLine(s[1..]); }
  }

  /**
   Chunking does not matter: whatever replies git printed and however the pipe
   cut them up, the queued reads answer them one for one, in order.
   */
  method ReadPrinted(replies: seq<Reply>, chunks: seq<string>) returns (answers: seq<Answer>)
    requires forall i :: 0 <= i < |replies| ==> Printable(replies[i])
    requires Concat(chunks) == PrintAll(replies)
    ensures |answers| == |replies|
    ensures forall i :: 0 <= i < |replies| ==> answers[i] == Expected(replies[i])
  {
    var reader := new ByteReader(chunks);
    PrintedRepliesRead(replies, "");
    assert PrintAll(replies) + "" == PrintAll(replies);
    answers := reader.ReadChain(|replies|);
  }
}
