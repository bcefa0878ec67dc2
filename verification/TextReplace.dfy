/**
 The `workspace.replace` matching contract: one exact occurrence first, and only
 when there is none a unique block of lines that matches up to leading
 indentation.
 */
module TextReplace {
  import opened Text

  // ----- exact occurrences

  predicate OccursAt(content: string, oldText: string, at: nat) {
    at + |oldText| <= |content| && content[at..at + |oldText|] == oldText
  }

  /** The first occurrence at or after `from`. */
  function FindFrom(content: string, oldText: string, from: nat): (r: Option<nat>)
    ensures r.Some? ==> from <= r.value && OccursAt(content, oldText, r.value)
    ensures r.Some? ==> forall k :: from <= k < r.value ==> !OccursAt(content, oldText, k)
    ensures r.None? ==> forall k :: from <= k ==> !OccursAt(content, oldText, k)
    decreases |content| - from
  {
    if from + |oldText| > |content| then None
    else if OccursAt(content, oldText, from) then Some(from)
    else FindFrom(content, oldText, from + 1)
  }

  /** `content.split(oldText).length - 1`: occurrences counted left to right without overlap. */
  function Occurrences(content: string, oldText: string, from: nat): nat
    requires oldText != []
    decreases |content| - from
  {
    var at := FindFrom(content, oldText, from);
    if at.None? then 0 else 1 + Occurrences(content, oldText, at.value + |oldText|)
  }

  /** Places where the text occurs, in order and without overlap. */
  ghost predicate DisjointAt(content: string, oldText: string, from: nat, places: seq<nat>) {
    && (forall i :: 0 <= i < |places| ==> from <= places[i] && OccursAt(content, oldText, places[i]))
    && (forall i, j :: 0 <= i < j < |places| ==> places[i] + |oldText| <= places[j])
  }

  lemma {:induction false} NoMoreOccurrences(content: string, oldText: string, from: nat, places: seq<nat>)
    requires oldText != [] && DisjointAt(content, oldText, from, places)
    ensures |places| <= Occurrences(content, oldText, from)
    decreases |places|
  {
    if places != [] {
      assert OccursAt(content, oldText, places[0]);
      var at := FindFrom(content, oldText, from).value;
      var rest := places[1..];
      forall i | 0 <= i < |rest| ensures at + |oldText| <= rest[i] && OccursAt(content, oldText, rest[i]) {
        assert rest[i] == places[i + 1];
      }
      NoMoreOccurrences(content, oldText, at + |oldText|, rest);
    }
  }

  lemma {:induction false} AsManyOccurrences(content: string, oldText: string, from: nat) returns (places: seq<nat>)
    requires oldText != []
    ensures DisjointAt(content, oldText, from, places) && |places| == Occurrences(content, oldText, from)
    decreases |content| - from
  {
    var at := FindFrom(content, oldText, from);
    if at.None? {
      places := [];
    } else {
      var rest := AsManyOccurrences(content, oldText, at.value + |oldText|);
      places := [at.value] + rest;
    }
  }

  /** The count is the largest number of occurrences that do not overlap. */
  lemma OccurrencesIsLargest(content: string, oldText: string)
    requires oldText != []
    ensures exists places :: DisjointAt(content, oldText, 0, places) && |places| == Occurrences(content, oldText, 0)
    ensures forall places :: DisjointAt(content, oldText, 0, places) ==>
      |places| <= Occurrences(content, oldText, 0)
  {
    var most := AsManyOccurrences(content, oldText, 0);
    forall places | DisjointAt(content, oldText, 0, places) ensures |places| <= Occurrences(content, oldText, 0) {
      NoMoreOccurrences(content, oldText, 0, places);
    }
  }

  /** The replacement text of `String.replace`: `$$`, `$&`, `` $` `` and `$'` are patterns. */
  function Expand(text: string, prefix: string, found: string, suffix: string): string {
    if |text| < 2 || text[0] != '$' then
      if text == [] then [] else [text[0]] + Expand(text[1..], prefix, found, suffix)
    else if text[1] == '$' then "$" + Expand(text[2..], prefix, found, suffix)
    else if text[1] == '&' then found + Expand(text[2..], prefix, found, suffix)
    else if text[1] == '`' then prefix + Expand(text[2..], prefix, found, suffix)
    else if text[1] == '\'' then suffix + Expand(text[2..], prefix, found, suffix)
    else "$" + Expand(text[1..], prefix, found, suffix)
  }

  /** The text holds one of the four `$` patterns. */
  predicate HasPattern(text: string) {
    exists i :: 0 <= i < |text| - 1 && text[i] == '$' && text[i + 1] in "$&`'"
  }

  lemma {:induction false} PlainExpand(text: string, prefix: string, found: string, suffix: string)
    requires !HasPattern(text)
    ensures Expand(text, prefix, found, suffix) == text
  {
    if text != [] {
      assert |text| >= 2 && text[0] == '$' ==> text[1] !in "$&`'";
      assert forall i :: 0 <= i < |text| - 1 ==> text[1..][i] == text[i + 1];
      assert !HasPattern(text[1..]);
      PlainExpand(text[1..], prefix, found, suffix);
      assert [text[0]] + text[1..] == text;
    }
  }

  lemma {:induction false} PatternShrinks(text: string, found: string)
    requires |found| == 1
    ensures |Expand(text, "", found, "")| <= |text|
    ensures HasPattern(text) ==> |Expand(text, "", found, "")| < |text|
  {
    if |text| < 2 || text[0] != '$' || text[1] !in "$&`'" {
      if text != [] {
        PatternShrinks(text[1..], found);
        if HasPattern(text) {
          var i :| 0 <= i < |text| - 1 && text[i] == '$' && text[i + 1] in "$&`'";
          assert i > 0 && text[1..][i - 1] == '$' && text[1..][i] == text[i + 1];
        }
      }
    } else {
      PatternShrinks(text[2..], found);
    }
  }

  /**
   Replacement text is inserted as written, whatever surrounds the match, exactly
   when it holds none of the `$` patterns.
   */
  lemma {:induction false} InsertedAsWritten(text: string)
    ensures (forall prefix, found, suffix :: Expand(text, prefix, found, suffix) == text) <==> !HasPattern(text)
  {
    if HasPattern(text) {
      PatternShrinks(text, "x");
    } else {
      forall prefix, found, suffix ensures Expand(text, prefix, found, suffix) == text {
        PlainExpand(text, prefix, found, suffix);
      }
    }
  }

  // ----- lines and indentation

  predicate IsIndent(c: char) {
    c == ' ' || c == '\t'
  }

  /** White space as `trim` sees it. */
  predicate IsTrimmed(c: char) {
    || '\U{9}' <= c <= '\U{D}' || c in " \U{A0}\U{1680}\U{2028}\U{2029}\U{202F}\U{205F}\U{3000}\U{FEFF}"
    || '\U{2000}' <= c <= '\U{200A}'
  }

  predicate IsBlank(line: string) {
    forall i :: 0 <= i < |line| ==> IsTrimmed(line[i])
  }

  function LeadingWhitespace(line: string): (indent: string)
    ensures indent <= line && forall i :: 0 <= i < |indent| ==> IsIndent(indent[i])
    ensures |indent| < |line| ==> !IsIndent(line[|indent|])
  {
    if line == [] || !IsIndent(line[0]) then [] else [line[0]] + LeadingWhitespace(line[1..])
  }

  function WithoutIndentation(line: string): string {
    line[|LeadingWhitespace(line)|..]
  }

  /** Indentation put in front of a line changes nothing but its indentation. */
  lemma {:induction false} IndentedText(indent: string, line: string)
    requires forall i :: 0 <= i < |indent| ==> IsIndent(indent[i])
    ensures WithoutIndentation(indent + line) == WithoutIndentation(line)
  {
    if indent == [] {
      assert indent + line == line;
    } else {
      assert (indent + line)[1..] == indent[1..] + line;
      IndentedText(indent[1..], line);
    }
  }

  /** The first line that is not blank. */
  ghost predicate FirstTextAt(lines: seq<string>, k: nat)
    requires k < |lines|
  {
    !IsBlank(lines[k]) && forall j :: 0 <= j < k ==> IsBlank(lines[j])
  }

  function FirstNonBlank(lines: seq<string>): (r: Option<string>)
    ensures r.None? <==> forall i :: 0 <= i < |lines| ==> IsBlank(lines[i])
    ensures r.Some? ==> exists k :: 0 <= k < |lines| && FirstTextAt(lines, k) && lines[k] == r.value
  {
    if lines == [] then None
    else if !IsBlank(lines[0]) then
      assert FirstTextAt(lines, 0);
      Some(lines[0])
    else
      var r := FirstNonBlank(lines[1..]);
      FirstTextLater(lines);
      r
  }

  lemma FirstTextLater(lines: seq<string>)
    requires lines != [] && IsBlank(lines[0])
    ensures forall k :: 0 <= k < |lines| - 1 && FirstTextAt(lines[1..], k) ==> FirstTextAt(lines, k + 1)
  {
    forall k | 0 <= k < |lines| - 1 && FirstTextAt(lines[1..], k) ensures FirstTextAt(lines, k + 1) {
      forall j | 0 <= j < k + 1 ensures IsBlank(lines[j]) {
        assert j > 0 ==> lines[j] == lines[1..][j - 1];
      }
    }
  }

  /** The indentation of the first line that is not blank, and none when all are. */
  function IndentOf(lines: seq<string>): (indent: string)
    ensures forall i :: 0 <= i < |indent| ==> IsIndent(indent[i])
    ensures forall k :: 0 <= k < |lines| && FirstTextAt(lines, k) ==> indent == LeadingWhitespace(lines[k])
  {
    var line := FirstNonBlank(lines);
    if line.None? then "" else LeadingWhitespace(line.value)
  }

  function ReindentLine(line: string, source: string, target: string): string {
    if IsBlank(line) then ""
    else if source <= line then target + line[|source|..]
    else target + WithoutIndentation(line)
  }

  /** `reindent`, line by line. */
  function Reindent(newText: string, target: string): (lines: seq<string>)
    ensures |lines| == |Split(newText, '\n')|
  {
    var lines := Split(newText, '\n');
    var source := IndentOf(lines);
    seq(|lines|, i requires 0 <= i < |lines| => ReindentLine(lines[i], source, target))
  }

  /**
   Each non-blank replacement line starts with the block's indent and keeps its
   unindented text; a blank one becomes empty.
   */
  lemma {:induction false} ReindentKeepsText(newText: string, target: string, i: nat)
    requires forall k :: 0 <= k < |target| ==> IsIndent(target[k])
    requires i < |Split(newText, '\n')|
    ensures var line, out := Split(newText, '\n')[i], Reindent(newText, target)[i];
      && '\n' !in out
      && (IsBlank(line) ==> out == "")
      && (!IsBlank(line) ==> target <= out && WithoutIndentation(out) == WithoutIndentation(line))
  {
    var lines := Split(newText, '\n');
    ReindentLineKeepsText(lines[i], IndentOf(lines), target);
  }

  lemma ReindentLineKeepsText(line: string, source: string, target: string)
    requires forall k :: 0 <= k < |source| ==> IsIndent(source[k])
    requires forall k :: 0 <= k < |target| ==> IsIndent(target[k])
    requires '\n' !in line
    ensures var out := ReindentLine(line, source, target);
      && '\n' !in out
      && (IsBlank(line) ==> out == "")
      && (!IsBlank(line) ==> target <= out && WithoutIndentation(out) == WithoutIndentation(line))
  {
    if !IsBlank(line) {
      if source <= line {
        IndentedText(target, line[|source|..]);
        IndentedText(source, line[|source|..]);
        assert source + line[|source|..] == line;
      } else {
        IndentedText(target, WithoutIndentation(line));
        IndentedText(LeadingWhitespace(line), WithoutIndentation(line));
        assert LeadingWhitespace(line) + WithoutIndentation(line) == line;
      }
    }
  }

  lemma {:induction false} IndentedLead(indent: string, line: string)
    requires forall i :: 0 <= i < |indent| ==> IsIndent(indent[i])
    ensures LeadingWhitespace(indent + line) == indent + LeadingWhitespace(line)
  {
    if indent == [] {
      assert indent + line == line;
    } else {
      assert (indent + line)[1..] == indent[1..] + line;
      IndentedLead(indent[1..], line);
    }
  }

  /**
   The shape of the replacement is kept: its first text line gets exactly the
   block's indent, a line indented at least as far keeps what it had beyond it, and
   any other gets the block's indent alone.
   */
  lemma {:induction false} ReindentKeepsShape(newText: string, target: string, first: nat, i: nat)
    requires forall k :: 0 <= k < |target| ==> IsIndent(target[k])
    requires first < |Split(newText, '\n')| && FirstTextAt(Split(newText, '\n'), first)
    requires i < |Split(newText, '\n')| && !IsBlank(Split(newText, '\n')[i])
    ensures var lines := Split(newText, '\n');
      var base, own := LeadingWhitespace(lines[first]), LeadingWhitespace(lines[i]);
      LeadingWhitespace(Reindent(newText, target)[i]) ==
        if base <= own then target + own[|base|..] else target
  {
    var line, base := Split(newText, '\n')[i], LeadingWhitespace(Split(newText, '\n')[first]);
    var own := LeadingWhitespace(line);
    if base <= line {
      IndentedLead(base, line[|base|..]);
      assert base + line[|base|..] == line;
      assert own == base + LeadingWhitespace(line[|base|..]);
      IndentedLead(target, line[|base|..]);
    } else {
      assert !(base <= own);
      IndentedLead(own, WithoutIndentation(line));
      assert own + WithoutIndentation(line) == line;
      assert LeadingWhitespace(WithoutIndentation(line)) == [];
      IndentedLead(target, WithoutIndentation(line));
      assert target + [] == target;
    }
  }

  // ----- the tolerant match

  /** The lines of `old_text`, without the empty line after a final newline. */
  function OldLines(oldText: string): (lines: seq<string>)
    ensures |lines| > 0
  {
    var lines := Split(oldText, '\n');
    if |lines| > 1 && lines[|lines| - 1] == "" then lines[..|lines| - 1] else lines
  }

  predicate BlockAt(content: seq<string>, oldText: seq<string>, start: nat) {
    && start + |oldText| <= |content|
    && forall k :: 0 <= k < |oldText| ==> WithoutIndentation(content[start + k]) == WithoutIndentation(oldText[k])
  }

  /** Exactly one block of lines matches. */
  ghost predicate UniqueBlock(content: seq<string>, oldText: seq<string>, start: nat) {
    BlockAt(content, oldText, start) && forall s: nat :: BlockAt(content, oldText, s) ==> s == start
  }

  /** The text's lines with the block at `start` replaced. */
  function Spliced(content: seq<string>, oldText: seq<string>, newText: string, start: nat): seq<string>
    requires BlockAt(content, oldText, start)
  {
    var block := content[start..start + |oldText|];
    content[..start] + Reindent(newText, IndentOf(block)) + content[start + |oldText|..]
  }

  /** The one block of the text's lines that matches `oldText` starts at line `start`. */
  ghost predicate UniqueMatch(content: string, oldText: string, start: nat) {
    UniqueBlock(Split(content, '\n'), OldLines(oldText), start)
  }

  /** The text after a tolerant edit. */
  ghost function Edited(content: string, oldText: string, newText: string, start: nat): string
    requires UniqueMatch(content, oldText, start)
  {
    Join(Spliced(Split(content, '\n'), OldLines(oldText), newText, start), '\n')
  }

  method MatchBlock(lines: seq<string>, oldLines: seq<string>, start: nat) returns (matches: bool)
    requires start + |oldLines| <= |lines|
    ensures matches == BlockAt(lines, oldLines, start)
  {
    matches := true;
    for offset := 0 to |oldLines|
      invariant matches && forall k :: 0 <= k < offset ==>
        WithoutIndentation(lines[start + k]) == WithoutIndentation(oldLines[k])
    {
      if WithoutIndentation(lines[start + offset]) != WithoutIndentation(oldLines[offset]) { return false; }
    }
  }

  method FindBlocks(lines: seq<string>, oldLines: seq<string>) returns (starts: seq<nat>)
    ensures forall s: nat :: s in starts <==> BlockAt(lines, oldLines, s)
    ensures forall i, j :: 0 <= i < j < |starts| ==> starts[i] < starts[j]
  {
    starts := [];
    var start := 0;
    while start + |oldLines| <= |lines|
      invariant forall s: nat :: s in starts <==> s < start && BlockAt(lines, oldLines, s)
      invariant forall i :: 0 <= i < |starts| ==> starts[i] in starts
      invariant forall i, j :: 0 <= i < j < |starts| ==> starts[i] < starts[j]
    {
      var matches := MatchBlock(lines, oldLines, start);
      if matches { starts := starts + [start]; }
      start := start + 1;
    }
  }

  /** `replaceIgnoringIndentation`. */
  method ReplaceIgnoringIndentation(content: string, oldText: string, newText: string) returns (r: Option<string>)
    ensures r.Some? <==> exists start: nat :: UniqueMatch(content, oldText, start)
    ensures forall start: nat :: UniqueMatch(content, oldText, start) ==>
      r == Some(Edited(content, oldText, newText, start))
  {
    var lines, oldLines := Split(content, '\n'), OldLines(oldText);
    var starts := FindBlocks(lines, oldLines);
    if |starts| != 1 {
      assert |starts| > 1 ==> starts[0] in starts && starts[1] in starts;
      assert forall s: nat :: UniqueBlock(lines, oldLines, s) ==> s in starts;
      return None;
    }
    var at := starts[0];
    assert at in starts;
    assert forall s: nat :: BlockAt(lines, oldLines, s) ==> s == at;
    assert UniqueMatch(content, oldText, at);
    return Some(Join(Spliced(lines, oldLines, newText, at), '\n'));
  }

  /** The edited text's lines are the spliced ones: those outside the block kept, the block's replaced. */
  lemma EditedLines(content: string, oldText: string, newText: string, start: nat)
    requires UniqueMatch(content, oldText, start)
    ensures Split(Edited(content, oldText, newText, start), '\n')
         == Spliced(Split(content, '\n'), OldLines(oldText), newText, start)
  {
    SplicedLines(Split(content, '\n'), OldLines(oldText), newText, start);
  }

  /**
   Line by line: those before and after the block are kept, and the replacement
   takes the indentation of the block's own first text line.
   */
  lemma TolerantLines(content: string, oldText: string, newText: string, start: nat, f: nat)
    requires UniqueMatch(content, oldText, start)
    requires f < |OldLines(oldText)| && FirstTextAt(Split(content, '\n')[start..start + |OldLines(oldText)|], f)
    ensures var lines, edited := Split(content, '\n'), Split(Edited(content, oldText, newText, start), '\n');
      var removed, added := |OldLines(oldText)|, |Split(newText, '\n')|;
      && |edited| == |lines| - removed + added
      && edited[..start] == lines[..start]
      && edited[start..start + added] == Reindent(newText, LeadingWhitespace(lines[start + f]))
      && edited[start + added..] == lines[start + removed..]
  {
    EditedLines(content, oldText, newText, start);
    assert Split(content, '\n')[start..start + |OldLines(oldText)|][f] == Split(content, '\n')[start + f];
  }

  lemma {:induction false} SplicedLines(lines: seq<string>, block: seq<string>, newText: string, start: nat)
    requires BlockAt(lines, block, start) && |block| > 0
    requires forall i :: 0 <= i < |lines| ==> '\n' !in lines[i]
    ensures var spliced := Spliced(lines, block, newText, start);
      Split(Join(spliced, '\n'), '\n') == spliced
  {
    var target := IndentOf(lines[start..start + |block|]);
    var middle := Reindent(newText, target);
    ReindentOnLines(newText, target);
    var before, after := lines[..start], lines[start + |block|..];
    SplicedOnLines(before, middle, after);
  }

  lemma {:induction false} ReindentOnLines(newText: string, target: string)
    requires forall k :: 0 <= k < |target| ==> IsIndent(target[k])
    ensures forall i :: 0 <= i < |Reindent(newText, target)| ==> '\n' !in Reindent(newText, target)[i]
  {
    forall i | 0 <= i < |Reindent(newText, target)| ensures '\n' !in Reindent(newText, target)[i] {
      ReindentKeepsText(newText, target, i);
    }
  }

  lemma {:induction false} SplicedOnLines(a: seq<string>, b: seq<string>, c: seq<string>)
    requires |a + b + c| > 0
    requires forall i :: 0 <= i < |a| ==> '\n' !in a[i]
    requires forall i :: 0 <= i < |b| ==> '\n' !in b[i]
    requires forall i :: 0 <= i < |c| ==> '\n' !in c[i]
    ensures Split(Join(a + b + c, '\n'), '\n') == a + b + c
  {
    SplitJoin(a + b + c, '\n');
  }

  // ----- the contract

  datatype Replaced = Replaced(content: Option<string>, occurrences: nat, tolerant: bool)

  /** What `replaceInText` answers. */
  ghost function Replacement(content: string, oldText: string, newText: string): Replaced {
    if oldText == [] then Replaced(None, 0, false)
    else
      var count := Occurrences(content, oldText, 0);
      if count == 1 then
        var at := FindFrom(content, oldText, 0).value;
        var prefix, suffix := content[..at], content[at + |oldText|..];
        Replaced(Some(prefix + Expand(newText, prefix, oldText, suffix) + suffix), 1, false)
      else if count == 0 && exists start: nat :: UniqueMatch(content, oldText, start) then
        var start: nat :| UniqueMatch(content, oldText, start);
        Replaced(Some(Edited(content, oldText, newText, start)), 1, true)
      else Replaced(None, count, false)
  }

  /** `replaceInText`. */
  method ReplaceInText(content: string, oldText: string, newText: string) returns (r: Replaced)
    ensures r == Replacement(content, oldText, newText)
  {
    if oldText == [] { return Replaced(None, 0, false); }
    var occurrences := Occurrences(content, oldText, 0);
    if occurrences == 1 {
      var at := FindFrom(content, oldText, 0).value;
      var prefix, suffix := content[..at], content[at + |oldText|..];
      return Replaced(Some(prefix + Expand(newText, prefix, oldText, suffix) + suffix), 1, false);
    }
    if occurrences == 0 {
      var tolerant := ReplaceIgnoringIndentation(content, oldText, newText);
      if tolerant.Some? { return Replaced(tolerant, 1, true); }
    }
    return Replaced(None, occurrences, false);
  }

  /** The text occurs here, and nowhere that does not overlap this. */
  ghost predicate OnlyAt(content: string, oldText: string, at: nat) {
    OccursAt(content, oldText, at) &&
    forall k: nat :: k < at || at + |oldText| <= k ==> !OccursAt(content, oldText, k)
  }

  /**
   An exact edit happens exactly when the text is not empty and occurs once,
   counted without overlap; everything before and after it is kept, and
   replacement text without `$` patterns stands in its place as written.
   */
  lemma {:induction false} ExactEdit(content: string, oldText: string, newText: string)
    ensures var r := Replacement(content, oldText, newText);
      && (r.content.Some? && !r.tolerant <==> oldText != [] && exists at: nat :: OnlyAt(content, oldText, at))
      && (!HasPattern(newText) && r.content.Some? && !r.tolerant ==>
            exists at: nat :: OnlyAt(content, oldText, at) &&
              r.content.value == content[..at] + newText + content[at + |oldText|..])
  {
    var r := Replacement(content, oldText, newText);
    if oldText != [] {
      if at: nat :| OnlyAt(content, oldText, at) {
        OnceAt(content, oldText, at);
      }
      if Occurrences(content, oldText, 0) == 1 {
        var at := FirstAndOnly(content, oldText);
        if !HasPattern(newText) { PlainExpand(newText, content[..at], oldText, content[at + |oldText|..]); }
      }
    }
  }

  lemma OnceAt(content: string, oldText: string, at: nat)
    requires oldText != [] && OnlyAt(content, oldText, at)
    ensures Occurrences(content, oldText, 0) == 1 && FindFrom(content, oldText, 0) == Some(at)
  {
    var first := FindFrom(content, oldText, 0);
    assert first.Some? && first.value <= at;
    assert first.value == at;
    assert FindFrom(content, oldText, at + |oldText|).None?;
  }

  lemma FirstAndOnly(content: string, oldText: string) returns (at: nat)
    requires oldText != [] && Occurrences(content, oldText, 0) == 1
    ensures OnlyAt(content, oldText, at) && FindFrom(content, oldText, 0) == Some(at)
  {
    at := FindFrom(content, oldText, 0).value;
    assert Occurrences(content, oldText, 0) == 1 + Occurrences(content, oldText, at + |oldText|);
    assert FindFrom(content, oldText, at + |oldText|).None?;
  }

  /**
   At the entry point: whatever text holds a `$` pattern is not what an exact edit
   of the one-letter file `x` leaves in its place.
   */
  lemma {:induction false} PatternChangesEdit(newText: string)
    requires HasPattern(newText)
    ensures var r := Replacement("x", "x", newText);
      r.content.Some? && !r.tolerant && |r.content.value| < |newText|
  {
    assert "x"[..0] == "" && "x"[1..] == "";
    assert OccursAt("x", "x", 0);
    assert FindFrom("x", "x", 0) == Some(0) && FindFrom("x", "x", 1) == None;
    assert Occurrences("x", "x", 1) == 0;
    assert Occurrences("x", "x", 0) == 1;
    PatternShrinks(newText, "x");
  }

  /**
   A tolerant edit happens exactly when the text occurs nowhere and one block of
   lines matches it up to indentation; it makes the spliced text.
   */
  lemma {:induction false} TolerantEdit(content: string, oldText: string, newText: string)
    ensures var r := Replacement(content, oldText, newText);
      && (r.tolerant <==>
            && oldText != [] && (forall k: nat :: !OccursAt(content, oldText, k))
            && exists start: nat :: UniqueMatch(content, oldText, start))
      && (r.tolerant ==> forall start: nat :: UniqueMatch(content, oldText, start) ==>
            r.content == Some(Edited(content, oldText, newText, start)))
  {
    if oldText != [] {
      var first := FindFrom(content, oldText, 0);
      assert Occurrences(content, oldText, 0) == 0 <==> first.None?;
      assert first.Some? ==> OccursAt(content, oldText, first.value);
    }
  }
}
