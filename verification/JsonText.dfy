/**
 The text `JSON.stringify` prints for a value, and why comparing two such texts,
 as a graph condition does, is comparing what the values keep when printed.
 */
module JsonText {
  import opened Text
  import opened GraphValues

  // ----- strings

  function Hex(n: nat): char
    requires n < 16
  {
    if n < 10 then '0' + n as char else 'a' + (n - 10) as char
  }

  function HexValue(c: char): nat {
    if '0' <= c <= '9' then (c - '0') as int else if 'a' <= c <= 'f' then (c - 'a') as int + 10 else 0
  }

  function EscapeChar(c: char): (s: string)
    ensures s != "" && s[0] != '"'
  {
    if c == '"' then "\\\""
    else if c == '\\' then "\\\\"
    else if c >= ' ' then [c]
    else if c == '\U{8}' then "\\b"
    else if c == '\t' then "\\t"
    else if c == '\n' then "\\n"
    else if c == '\U{C}' then "\\f"
    else if c == '\r' then "\\r"
    else "\\u00" + [Hex(c as int / 16), Hex(c as int % 16)]
  }

  /** The quoted string, put in front of `x`. */
  function Quote(s: string, x: string): string {
    "\"" + QuoteRest(s, x)
  }

  function QuoteRest(s: string, x: string): string {
    if s == "" then "\"" + x else EscapeChar(s[0]) + QuoteRest(s[1..], x)
  }

  /** The character an escaped text starts with, and what follows it. */
  function Unescape(s: string): (char, string)
    requires s != ""
  {
    if s[0] != '\\' || |s| < 2 then (s[0], s[1..])
    else if s[1] == 'u' && |s| >= 6 then ((16 * HexValue(s[4]) + HexValue(s[5])) as char, s[6..])
    else
      (match s[1]
       case 'b' => '\U{8}'
       case 't' => '\t'
       case 'n' => '\n'
       case 'f' => '\U{C}'
       case 'r' => '\r'
       case other => other,
       s[2..])
  }

  lemma UnescapeEscape(c: char, x: string)
    ensures Unescape(EscapeChar(c) + x) == (c, x)
  {
    var s := EscapeChar(c) + x;
    assert s[|EscapeChar(c)|..] == x;
    if c < ' ' {
      var n := c as int;
      assert HexValue(Hex(n / 16)) == n / 16 && HexValue(Hex(n % 16)) == n % 16;
      assert 16 * (n / 16) + n % 16 == n;
    }
  }

  /** Texts that start with one character each are equal exactly in that character and the rest. */
  lemma SameCons(c: char, p: string, d: char, q: string)
    requires [c] + p == [d] + q
    ensures c == d && p == q
  {
    assert c == ([c] + p)[0] && d == ([d] + q)[0];
    assert p == ([c] + p)[1..] && q == ([d] + q)[1..];
  }

  lemma {:induction false} QuoteRestUnique(s: string, t: string, x: string, y: string)
    requires QuoteRest(s, x) == QuoteRest(t, y)
    ensures s == t && x == y
  {
    if s == "" || t == "" {
      assert QuoteRest(s, x)[0] == QuoteRest(t, y)[0];
      SameCons('"', x, '"', y);
    } else {
      UnescapeEscape(s[0], QuoteRest(s[1..], x));
      UnescapeEscape(t[0], QuoteRest(t[1..], y));
      QuoteRestUnique(s[1..], t[1..], x, y);
    }
  }

  lemma QuoteUnique(s: string, t: string, x: string, y: string)
    requires Quote(s, x) == Quote(t, y)
    ensures s == t && x == y
  {
    SameCons('"', QuoteRest(s, x), '"', QuoteRest(t, y));
    QuoteRestUnique(s, t, x, y);
  }

  // ----- numbers

  function ShowNumber(n: int, x: string): (s: string)
    ensures s != "" && (s[0] == '-' || IsDigit(s[0]))
  {
    if n < 0 then "-" + (Decimal(-n) + x) else Decimal(n) + x
  }

  /** What may follow a value inside a text. */
  predicate Stops(x: string) {
    x == "" || x[0] in ",]}"
  }

  /** The length of the run of digits a text starts with. */
  function Run(s: string): nat {
    if s == "" || !IsDigit(s[0]) then 0 else 1 + Run(s[1..])
  }

  lemma {:induction false} RunOf(a: string, x: string)
    requires AllDigits(a) && Stops(x)
    ensures Run(a + x) == |a|
  {
    if a == "" {
      assert a + x == x;
    } else {
      assert (a + x)[1..] == a[1..] + x;
      RunOf(a[1..], x);
    }
  }

  lemma DigitsUnique(a: string, b: string, x: string, y: string)
    requires AllDigits(a) && AllDigits(b) && a + x == b + y && Stops(x) && Stops(y)
    ensures a == b && x == y
  {
    RunOf(a, x);
    RunOf(b, y);
    assert a == (a + x)[..|a|] && x == (a + x)[|a|..];
    assert b == (b + y)[..|b|] && y == (b + y)[|b|..];
  }

  lemma DecimalUnique(m: nat, n: nat, x: string, y: string)
    requires Decimal(m) + x == Decimal(n) + y && Stops(x) && Stops(y)
    ensures m == n && x == y
  {
    DigitsUnique(Decimal(m), Decimal(n), x, y);
    ParseDecimal(m);
    ParseDecimal(n);
  }

  lemma NumberUnique(m: int, n: int, x: string, y: string)
    requires ShowNumber(m, x) == ShowNumber(n, y) && Stops(x) && Stops(y)
    ensures m == n && x == y
  {
    assert ShowNumber(m, x)[0] == ShowNumber(n, y)[0];
    if m < 0 {
      SameCons('-', Decimal(-m) + x, '-', Decimal(-n) + y);
      DecimalUnique(-m, -n, x, y);
    } else {
      DecimalUnique(m, n, x, y);
    }
  }

  // ----- values

  /** The text of a value, put in front of `x`; `undefined` as an array shows it. */
  function Show(v: Json, x: string): string {
    match v
    case Undefined => "null" + x
    case Null => "null" + x
    case Bool(b) => if b then "true" + x else "false" + x
    case Number(n) => ShowNumber(n, x)
    case String(s) => Quote(s, x)
    case Array(items) => "[" + ShowItems(items, true, x)
    case Object(fields) => "{" + ShowFields(fields, true, x)
  }

  function Comma(first: bool, x: string): string {
    if first then x else "," + x
  }

  function ShowItems(items: seq<Json>, first: bool, x: string): string {
    if items == [] then "]" + x else Comma(first, Show(items[0], ShowItems(items[1..], false, x)))
  }

  /** Fields that are undefined are left out. */
  function ShowFields(fields: seq<Entry>, first: bool, x: string): string {
    if fields == [] then "}" + x
    else if fields[0].value.Undefined? then ShowFields(fields[1..], first, x)
    else Comma(first, Quote(fields[0].key, ":" + Show(fields[0].value, ShowFields(fields[1..], false, x))))
  }

  /** `JSON.stringify`: nothing at all for `undefined`. */
  function Stringify(v: Json): Option<string> {
    if v.Undefined? then None else Some(Show(v, ""))
  }

  // ----- what is printed is the printed form

  /** Nothing undefined anywhere inside. */
  ghost predicate Plain(v: Json) {
    match v
    case Undefined => false
    case Array(items) => forall i :: 0 <= i < |items| ==> Plain(items[i])
    case Object(fields) => forall i :: 0 <= i < |fields| ==> Plain(fields[i].value)
    case _ => true
  }

  lemma {:induction false} ShowPrinted(v: Json, x: string)
    requires !v.Undefined?
    ensures Printed(v).Some? && Plain(Printed(v).value) && Show(Printed(v).value, x) == Show(v, x)
  {
    match v
    case Array(items) => ShowPrintedItems(items, true, x);
    case Object(fields) => ShowPrintedFields(fields, true, x);
    case _ =>
  }

  lemma {:induction false} ShowPrintedItems(items: seq<Json>, first: bool, x: string)
    ensures forall i :: 0 <= i < |PrintedItems(items)| ==> Plain(PrintedItems(items)[i])
    ensures ShowItems(PrintedItems(items), first, x) == ShowItems(items, first, x)
  {
    if items != [] {
      if !items[0].Undefined? { ShowPrinted(items[0], ShowItems(items[1..], false, x)); }
      ShowPrintedItems(items[1..], false, x);
      assert PrintedItems(items)[1..] == PrintedItems(items[1..]);
    }
  }

  lemma {:induction false} ShowPrintedFields(fields: seq<Entry>, first: bool, x: string)
    ensures forall i :: 0 <= i < |PrintedFields(fields)| ==> Plain(PrintedFields(fields)[i].value)
    ensures ShowFields(PrintedFields(fields), first, x) == ShowFields(fields, first, x)
  {
    if fields != [] {
      if fields[0].value.Undefined? {
        ShowPrintedFields(fields[1..], first, x);
        assert [] + PrintedFields(fields[1..]) == PrintedFields(fields[1..]);
      } else {
        ShowPrinted(fields[0].value, ShowFields(fields[1..], false, x));
        ShowPrintedFields(fields[1..], false, x);
        assert PrintedFields(fields)[1..] == PrintedFields(fields[1..]);
      }
    }
  }

  // ----- a text is printed by one plain value only

  /** The first character tells what kind of value follows. */
  lemma ShowHead(v: Json, x: string)
    ensures Show(v, x) != "" && Show(v, x)[0] ==
      match v
      case Undefined => 'n'
      case Null => 'n'
      case Bool(b) => if b then 't' else 'f'
      case Number(n) => ShowNumber(n, x)[0]
      case String(_) => '"'
      case Array(_) => '['
      case Object(_) => '{'
  {
  }

  lemma SameWord(word: string, x: string, y: string)
    requires word + x == word + y
    ensures x == y
  {
    assert x == (word + x)[|word|..] && y == (word + y)[|word|..];
  }

  lemma {:induction false} ShowUnique(a: Json, b: Json, x: string, y: string)
    requires Plain(a) && Plain(b) && Show(a, x) == Show(b, y) && Stops(x) && Stops(y)
    ensures a == b && x == y
    decreases a, 1
  {
    ShowHead(a, x);
    ShowHead(b, y);
    match a
    case Null => SameWord("null", x, y);
    case Bool(v) => SameWord(if v then "true" else "false", x, y);
    case Number(n) => NumberUnique(n, b.n, x, y);
    case String(s) => QuoteUnique(s, b.s, x, y);
    case Array(items) =>
      SameCons('[', ShowItems(items, true, x), '[', ShowItems(b.items, true, y));
      ItemsUnique(items, b.items, true, x, y);
    case Object(fields) =>
      SameCons('{', ShowFields(fields, true, x), '{', ShowFields(b.fields, true, y));
      FieldsUnique(fields, b.fields, true, x, y);
  }

  lemma SameComma(first: bool, p: string, q: string)
    requires Comma(first, p) == Comma(first, q)
    ensures p == q
  {
    if !first { SameCons(',', p, ',', q); }
  }

  lemma {:induction false} ItemsUnique(a: seq<Json>, b: seq<Json>, first: bool, x: string, y: string)
    requires forall i :: 0 <= i < |a| ==> Plain(a[i])
    requires forall i :: 0 <= i < |b| ==> Plain(b[i])
    requires ShowItems(a, first, x) == ShowItems(b, first, y)
    ensures a == b && x == y
    decreases a, 0
  {
    var p := if a == [] then "" else ShowItems(a[1..], false, x);
    var q := if b == [] then "" else ShowItems(b[1..], false, y);
    if a != [] { ShowHead(a[0], p); }
    if b != [] { ShowHead(b[0], q); }
    assert ShowItems(a, first, x)[0] == ShowItems(b, first, y)[0];
    if a == [] || b == [] {
      assert a == [] && b == [];
      SameCons(']', x, ']', y);
    } else {
      SameComma(first, Show(a[0], p), Show(b[0], q));
      ItemsStop(a[1..], x);
      ItemsStop(b[1..], y);
      ShowUnique(a[0], b[0], p, q);
      ItemsUnique(a[1..], b[1..], false, x, y);
    }
  }

  lemma ItemsStop(items: seq<Json>, x: string)
    ensures Stops(ShowItems(items, false, x))
  {
  }

  lemma FieldsStop(fields: seq<Entry>, x: string)
    requires forall i :: 0 <= i < |fields| ==> Plain(fields[i].value)
    ensures Stops(ShowFields(fields, false, x))
  {
  }

  lemma {:induction false} FieldsUnique(a: seq<Entry>, b: seq<Entry>, first: bool, x: string, y: string)
    requires forall i :: 0 <= i < |a| ==> Plain(a[i].value)
    requires forall i :: 0 <= i < |b| ==> Plain(b[i].value)
    requires ShowFields(a, first, x) == ShowFields(b, first, y)
    ensures a == b && x == y
    decreases a, 0
  {
    assert ShowFields(a, first, x)[0] == ShowFields(b, first, y)[0];
    if a == [] || b == [] {
      assert a == [] && b == [];
      SameCons('}', x, '}', y);
    } else {
      var p, q := ShowFields(a[1..], false, x), ShowFields(b[1..], false, y);
      FieldUnique(a[0], b[0], first, p, q, a[1..], b[1..], x, y);
      FieldsUnique(a[1..], b[1..], false, x, y);
    }
  }

  lemma {:induction false} FieldUnique(
      a: Entry, b: Entry, first: bool, p: string, q: string, more: seq<Entry>, others: seq<Entry>, x: string, y: string)
    requires Plain(a.value) && Plain(b.value)
    requires p == ShowFields(more, false, x) && forall i :: 0 <= i < |more| ==> Plain(more[i].value)
    requires q == ShowFields(others, false, y) && forall i :: 0 <= i < |others| ==> Plain(others[i].value)
    requires Comma(first, Quote(a.key, ":" + Show(a.value, p))) == Comma(first, Quote(b.key, ":" + Show(b.value, q)))
    ensures a == b && p == q
    decreases a.value, 2
  {
    SameComma(first, Quote(a.key, ":" + Show(a.value, p)), Quote(b.key, ":" + Show(b.value, q)));
    QuoteUnique(a.key, b.key, ":" + Show(a.value, p), ":" + Show(b.value, q));
    SameCons(':', Show(a.value, p), ':', Show(b.value, q));
    FieldsStop(more, x);
    FieldsStop(others, y);
    ShowUnique(a.value, b.value, p, q);
  }

  /** Two values print the same text exactly when what they keep is the same. */
  lemma StringifyUnique(a: Json, b: Json)
    ensures Stringify(a) == Stringify(b) <==> Printed(a) == Printed(b)
  {
    if !a.Undefined? { ShowPrinted(a, ""); }
    if !b.Undefined? { ShowPrinted(b, ""); }
    if !a.Undefined? && !b.Undefined? && Show(a, "") == Show(b, "") {
      ShowUnique(Printed(a).value, Printed(b).value, "", "");
    }
  }

  /** A condition holds exactly when the value at its path and the one it names print the same text. */
  lemma MatchesIsSameText(c: Condition, results: Results)
    ensures Matches(c, results) <==> Stringify(Resolve(results, c.path)) == Stringify(c.equals)
  {
    StringifyUnique(Resolve(results, c.path), c.equals);
  }
}
