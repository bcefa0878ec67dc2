/**
 Workspace-relative paths: the lexical rules that turn a caller's path into
 segments, and the string prefix tests the workspace makes on joined segments.
 */
module Paths {
  import opened Text

  /** A normalized path: its segments. The workspace root is the empty one. */
  type Path = seq<string>

  /** `path.replace(/\\/g, "/")`. */
  function Slashes(path: string): (r: string)
    ensures |r| == |path| && '\\' !in r
    ensures forall i :: 0 <= i < |path| ==> r[i] == if path[i] == '\\' then '/' else path[i]
  {
    if path == [] then [] else [if path[0] == '\\' then '/' else path[0]] + Slashes(path[1..])
  }

  /** The raw components between slashes. */
  function RawParts(path: string): (raws: seq<string>)
    ensures forall i :: 0 <= i < |raws| ==> '/' !in raws[i] && '\\' !in raws[i]
  {
    SplitChars(Slashes(path), '/', '\\');
    Split(Slashes(path), '/')
  }

  predicate IsLetter(c: char) {
    'A' <= c <= 'Z' || 'a' <= c <= 'z'
  }

  /** A leading slash, or a drive letter. */
  predicate IsAbsolute(path: string) {
    || (|path| > 0 && path[0] == '/')
    || (|path| > 2 && IsLetter(path[0]) && path[1] == ':' && path[2] in "\\/")
  }

  predicate Ignored(raw: string) {
    raw == "" || raw == "."
  }

  /** Components applied to a directory; `..` at the root stays at the root. */
  function Clamped(parts: Path, raws: seq<string>): Path
    decreases raws
  {
    if raws == [] then parts
    else if Ignored(raws[0]) then Clamped(parts, raws[1..])
    else if raws[0] == ".." then Clamped(if parts == [] then [] else parts[..|parts| - 1], raws[1..])
    else Clamped(parts + [raws[0]], raws[1..])
  }

  /** Components applied to a directory; `..` at the root leaves the workspace. */
  function Resolved(parts: Path, raws: seq<string>): Option<Path>
    decreases raws
  {
    if raws == [] then Some(parts)
    else if Ignored(raws[0]) then Resolved(parts, raws[1..])
    else if raws[0] == ".." then if parts == [] then None else Resolved(parts[..|parts| - 1], raws[1..])
    else Resolved(parts + [raws[0]], raws[1..])
  }

  /** A path the workspace refuses: absolute, or one that climbs above the root on its way. */
  predicate Escapes(path: string) {
    IsAbsolute(path) || Resolved([], RawParts(path)).None?
  }

  function Normalize(path: string): Path {
    Clamped([], RawParts(path))
  }

  predicate CleanSegment(segment: string) {
    !Ignored(segment) && segment != ".." && '/' !in segment && '\\' !in segment
  }

  predicate Clean(path: Path) {
    forall i :: 0 <= i < |path| ==> CleanSegment(path[i])
  }

  /** Clamping never changes a path that stays inside: it is exactly what the path names. */
  lemma {:induction false} ClampedIsResolved(parts: Path, raws: seq<string>)
    requires Resolved(parts, raws).Some?
    ensures Clamped(parts, raws) == Resolved(parts, raws).value
    decreases raws
  {
    if raws != [] {
      if Ignored(raws[0]) {
        ClampedIsResolved(parts, raws[1..]);
      } else if raws[0] == ".." {
        ClampedIsResolved(parts[..|parts| - 1], raws[1..]);
      } else {
        ClampedIsResolved(parts + [raws[0]], raws[1..]);
      }
    }
  }

  lemma {:induction false} ClampedClean(parts: Path, raws: seq<string>)
    requires Clean(parts) && forall i :: 0 <= i < |raws| ==> '/' !in raws[i] && '\\' !in raws[i]
    ensures Clean(Clamped(parts, raws))
    decreases raws
  {
    if raws != [] {
      if Ignored(raws[0]) {
        ClampedClean(parts, raws[1..]);
      } else if raws[0] == ".." {
        ClampedClean(if parts == [] then [] else parts[..|parts| - 1], raws[1..]);
      } else {
        ClampedClean(parts + [raws[0]], raws[1..]);
      }
    }
  }

  lemma {:induction false} ClampedOfClean(parts: Path, path: Path)
    requires Clean(path)
    ensures Clamped(parts, path) == parts + path
    decreases path
  {
    if path != [] {
      ClampedOfClean(parts + [path[0]], path[1..]);
      assert parts + [path[0]] + path[1..] == parts + path;
    }
  }

  /** The joined form of a path, as the workspace keys its maps. */
  function Key(path: Path): string {
    Join(path, '/')
  }

  lemma NormalizeClean(path: string)
    ensures Clean(Normalize(path))
  {
    ClampedClean([], RawParts(path));
  }

  lemma {:induction false} SlashesPlain(path: string)
    requires '\\' !in path
    ensures Slashes(path) == path
  {
    if path != [] {
      SlashesPlain(path[1..]);
      assert [path[0]] + path[1..] == path;
    }
  }

  lemma {:induction false} JoinPlain(path: Path)
    requires Clean(path)
    ensures '\\' !in Key(path)
  {
    if |path| > 1 {
      JoinPlain(path[1..]);
    }
  }

  /** Normalizing a key gives back the path it was made from. */
  lemma NormalizeKey(path: Path)
    requires Clean(path)
    ensures Normalize(Key(path)) == path
  {
    JoinPlain(path);
    SlashesPlain(Key(path));
    if path != [] {
      SplitJoin(path, '/');
      ClampedOfClean([], path);
      assert [] + path == path;
    }
  }

  /**
   `key.startsWith(p + "/")` on joined paths is the strict-ancestor test on
   segments, so two paths that merely share leading characters never match.
   */
  lemma KeyPrefix(p: Path, q: Path)
    requires Clean(p) && Clean(q) && p != [] && q != []
    ensures Key(p) + "/" <= Key(q) <==> p < q
  {
    if p < q {
      JoinConcat(p, q[|p|..], '/');
      assert p + q[|p|..] == q;
    }
    if Key(p) + "/" <= Key(q) {
      var rest := Key(q)[|Key(p)| + 1..];
      assert Key(q) == Key(p) + ['/'] + rest;
      SplitConcat(Key(p), rest, '/');
      SplitJoin(p, '/');
      SplitJoin(q, '/');
    }
  }

  /** Distinct paths have distinct keys. */
  lemma KeyInjective(p: Path, q: Path)
    requires Clean(p) && Clean(q) && Key(p) == Key(q)
    ensures p == q
  {
    if p != [] { SplitJoin(p, '/'); }
    if q != [] { SplitJoin(q, '/'); }
  }

  /** `normalizeRelative`. */
  method NormalizeRelative(path: string) returns (key: string)
    ensures key == Key(Normalize(path)) && Clean(Normalize(path))
  {
    var raws := RawParts(path);
    var parts: seq<string> := [];
    var i := 0;
    while i < |raws|
      invariant 0 <= i <= |raws|
      invariant Clamped(parts, raws[i..]) == Normalize(path)
    {
      assert raws[i..][1..] == raws[i + 1..];
      if raws[i] == "" || raws[i] == "." {
      } else if raws[i] == ".." {
        if parts != [] { parts := parts[..|parts| - 1]; }
      } else {
        parts := parts + [raws[i]];
      }
      i := i + 1;
    }
    key := Join(parts, '/');
    NormalizeClean(path);
  }

  /** `escapesWorkspace`: a depth counter is enough to tell. */
  method EscapesWorkspace(path: string) returns (escapes: bool)
    ensures escapes == Escapes(path)
    ensures !escapes ==> Resolved([], RawParts(path)) == Some(Normalize(path))
  {
    if (|path| > 0 && path[0] == '/') || (|path| > 2 && IsLetter(path[0]) && path[1] == ':' && path[2] in "\\/") {
      return true;
    }
    var raws := RawParts(path);
    var depth := 0;
    ghost var parts: Path := [];
    var i := 0;
    while i < |raws|
      invariant 0 <= i <= |raws| && depth == |parts|
      invariant Resolved(parts, raws[i..]) == Resolved([], raws)
    {
      assert raws[i..][1..] == raws[i + 1..];
      if raws[i] == "" || raws[i] == "." {
      } else if raws[i] == ".." {
        if depth == 0 { return true; }
        depth, parts := depth - 1, parts[..|parts| - 1];
      } else {
        depth, parts := depth + 1, parts + [raws[i]];
      }
      i := i + 1;
    }
    ClampedIsResolved([], raws);
    return false;
  }
}
