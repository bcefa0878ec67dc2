/**
 Symlink targets: a walk that follows every component that is itself a link, with
 a bound on the links followed and a refusal to follow one twice, and reading
 through the links it resolves.
 */
module Symlinks {
  import opened Text
  import opened Paths
  import opened FileTree
  import opened Overlay

  /** Link targets by path; the root is never a link. */
  type Links = m: map<Path, string> | [] !in m witness map[]

  const DEFAULT_MAX_DEPTH := 16

  datatype Resolution =
    | Resolves(path: Path)
    | LeavesWorkspace(at: Path)
    | Cycle(at: Path)
    | TooDeep(at: Path)

  function Parent(p: Path): Path {
    if p == [] then [] else p[..|p| - 1]
  }

  /** `resolveLinkTarget`: one link's target from the link's own directory; none when it leaves the workspace. */
  function LinkTarget(link: Path, target: string): Option<Path> {
    if IsAbsolute(target) then None else Resolved(Parent(link), RawParts(target))
  }

  /** `k` components that each climb one level. */
  function Climb(k: nat): (raws: seq<string>)
    ensures |raws| == k && forall i :: 0 <= i < k ==> raws[i] == ".."
  {
    seq(k, _ => "..")
  }

  lemma {:induction false} ResolvedOfClean(parts: Path, path: Path)
    requires Clean(path)
    ensures Resolved(parts, path) == Some(parts + path)
    decreases path
  {
    if path == [] {
      assert parts + path == parts;
    } else {
      ResolvedOfClean(parts + [path[0]], path[1..]);
      assert parts + [path[0]] + path[1..] == parts + path;
    }
  }

  lemma {:induction false} ResolvedClimb(parts: Path, k: nat, path: Path)
    requires Clean(path)
    ensures Resolved(parts, Climb(k) + path) ==
      if k <= |parts| then Some(parts[..|parts| - k] + path) else None
    decreases k
  {
    if k == 0 {
      assert Climb(0) + path == path && parts[..|parts|] == parts;
      ResolvedOfClean(parts, path);
    } else {
      assert (Climb(k) + path)[0] == ".." && (Climb(k) + path)[1..] == Climb(k - 1) + path;
      if parts != [] {
        ResolvedClimb(parts[..|parts| - 1], k - 1, path);
        if k <= |parts| { assert parts[..|parts| - 1][..|parts| - k] == parts[..|parts| - k]; }
      }
    }
  }

  lemma {:induction false} PlainJoin(raws: seq<string>)
    requires forall i :: 0 <= i < |raws| ==> '\\' !in raws[i]
    ensures '\\' !in Join(raws, '/')
  {
    if |raws| > 1 { PlainJoin(raws[1..]); }
  }

  /**
   A link's target is read from the link's own directory: it climbs one level for
   every `..` in front, goes down the rest, and leaves the workspace exactly when
   it climbs above the root.
   */
  lemma {:induction false} TargetFromOwnDirectory(link: Path, k: nat, path: Path)
    requires Clean(path) && k + |path| > 0 && !IsAbsolute(Join(Climb(k) + path, '/'))
    ensures var dir := Parent(link);
      LinkTarget(link, Join(Climb(k) + path, '/')) ==
        if k <= |dir| then Some(dir[..|dir| - k] + path) else None
  {
    TargetParts(Climb(k) + path);
    ResolvedClimb(Parent(link), k, path);
  }

  lemma {:induction false} TargetParts(raws: seq<string>)
    requires |raws| > 0 && NoSlash(raws)
    ensures RawParts(Join(raws, '/')) == raws
  {
    PlainJoin(raws);
    SlashesPlain(Join(raws, '/'));
    SplitJoin(raws, '/');
  }

  /** The walk of `resolveSymlinkTarget` from `dir` over the `pending` components. */
  function Walk(
      links: Links, link: Path, dir: Path, pending: seq<string>, visited: set<Path>, followed: nat, maxDepth: int)
      : Resolution
    decreases maxDepth - followed, |pending|
  {
    if pending == [] then Resolves(dir)
    else
      var raw, rest := pending[0], pending[1..];
      if Ignored(raw) then Walk(links, link, dir, rest, visited, followed, maxDepth)
      else if raw == ".." then
        if dir == [] then LeavesWorkspace(link)
        else Walk(links, link, Parent(dir), rest, visited, followed, maxDepth)
      else
        var candidate := dir + [raw];
        if candidate !in links then Walk(links, link, candidate, rest, visited, followed, maxDepth)
        else if candidate in visited then Cycle(candidate)
        else if followed + 1 > maxDepth then TooDeep(candidate)
        else
          var step := LinkTarget(candidate, links[candidate]);
          if step.None? then LeavesWorkspace(candidate)
          else Walk(links, link, [], step.value + rest, visited + {candidate}, followed + 1, maxDepth)
  }

  function Resolve(links: Links, link: Path, target: string, maxDepth: int): Resolution {
    if IsAbsolute(target) then LeavesWorkspace(link)
    else Walk(links, link, Parent(link), RawParts(target), {}, 0, maxDepth)
  }

  /** `resolveSymlinkTarget`. */
  method ResolveSymlinkTarget(links: Links, link: Path, target: string, maxDepth: int) returns (r: Resolution)
    ensures r == Resolve(links, link, target, maxDepth)
  {
    if IsAbsolute(target) { return LeavesWorkspace(link); }
    var visited: set<Path> := {};
    var dir, pending, followed := Parent(link), RawParts(target), 0;
    while pending != []
      invariant Walk(links, link, dir, pending, visited, followed, maxDepth) == Resolve(links, link, target, maxDepth)
      decreases maxDepth - followed, |pending|
    {
      var raw := pending[0];
      pending := pending[1..];
      if raw == "" || raw == "." { continue; }
      if raw == ".." {
        if dir == [] { return LeavesWorkspace(link); }
        dir := Parent(dir);
        continue;
      }
      var candidate := dir + [raw];
      if candidate !in links {
        dir := candidate;
        continue;
      }
      if candidate in visited { return Cycle(candidate); }
      visited := visited + {candidate};
      followed := followed + 1;
      if followed > maxDepth { return TooDeep(candidate); }
      var step := LinkTarget(candidate, links[candidate]);
      if step.None? { return LeavesWorkspace(candidate); }
      dir := [];
      pending := step.value + pending;
    }
    return Resolves(dir);
  }

  // ----- what an answer looks like

  ghost predicate NoSlash(raws: seq<string>) {
    forall i :: 0 <= i < |raws| ==> '/' !in raws[i] && '\\' !in raws[i]
  }

  lemma {:induction false} ResolvedClean(parts: Path, raws: seq<string>)
    requires Clean(parts) && NoSlash(raws) && Resolved(parts, raws).Some?
    ensures Clean(Resolved(parts, raws).value)
  {
    ClampedIsResolved(parts, raws);
    ClampedClean(parts, raws);
  }

  /** A resolved path has no `..`, `.` or empty component. */
  lemma {:induction false} WalkClean(
      links: Links, link: Path, dir: Path, pending: seq<string>, visited: set<Path>, followed: nat, maxDepth: int)
    requires Clean(dir) && NoSlash(pending)
    ensures var r := Walk(links, link, dir, pending, visited, followed, maxDepth);
      r.Resolves? ==> Clean(r.path)
    decreases maxDepth - followed, |pending|
  {
    if pending != [] {
      var raw, rest := pending[0], pending[1..];
      if Ignored(raw) {
        WalkClean(links, link, dir, rest, visited, followed, maxDepth);
      } else if raw == ".." {
        if dir != [] { WalkClean(links, link, Parent(dir), rest, visited, followed, maxDepth); }
      } else {
        var candidate := dir + [raw];
        if candidate !in links {
          WalkClean(links, link, candidate, rest, visited, followed, maxDepth);
        } else if candidate !in visited && followed + 1 <= maxDepth {
          var step := LinkTarget(candidate, links[candidate]);
          if step.Some? {
            ResolvedClean(dir, RawParts(links[candidate]));
            assert Parent(candidate) == dir;
            WalkClean(links, link, [], step.value + rest, visited + {candidate}, followed + 1, maxDepth);
          }
        }
      }
    }
  }

  /** Every prefix of `p` that is a link is a prefix of `base`. */
  ghost predicate LinksWithin(links: Links, p: Path, base: Path) {
    forall n :: 0 < n <= |p| && p[..n] in links ==> p[..n] <= base
  }

  lemma {:induction false} WalkLinksWithin(
      links: Links, link: Path, dir: Path, pending: seq<string>, visited: set<Path>, followed: nat, maxDepth: int,
      base: Path)
    requires LinksWithin(links, dir, base)
    ensures var r := Walk(links, link, dir, pending, visited, followed, maxDepth);
      r.Resolves? ==> LinksWithin(links, r.path, base)
    decreases maxDepth - followed, |pending|
  {
    if pending != [] {
      var raw, rest := pending[0], pending[1..];
      if Ignored(raw) {
        WalkLinksWithin(links, link, dir, rest, visited, followed, maxDepth, base);
      } else if raw == ".." {
        if dir != [] {
          assert forall n :: 0 < n <= |Parent(dir)| ==> Parent(dir)[..n] == dir[..n];
          WalkLinksWithin(links, link, Parent(dir), rest, visited, followed, maxDepth, base);
        }
      } else {
        var candidate := dir + [raw];
        if candidate !in links {
          assert forall n :: 0 < n <= |dir| ==> candidate[..n] == dir[..n];
          assert candidate[..|candidate|] == candidate;
          WalkLinksWithin(links, link, candidate, rest, visited, followed, maxDepth, base);
        } else if candidate !in visited && followed + 1 <= maxDepth {
          var step := LinkTarget(candidate, links[candidate]);
          if step.Some? {
            WalkLinksWithin(links, link, [], step.value + rest, visited + {candidate}, followed + 1, maxDepth, base);
          }
        }
      }
    }
  }

  /**
   What a resolved target looks like: clean segments, and the only prefixes of it
   that are links are directories above the link itself, so none at all when the
   link's parents are link-free.
   */
  lemma ResolvedTarget(links: Links, link: Path, target: string, maxDepth: int)
    requires Clean(link)
    ensures var r := Resolve(links, link, target, maxDepth);
      r.Resolves? ==>
        && Clean(r.path)
        && LinksWithin(links, r.path, Parent(link))
        && ((forall n :: 0 < n < |link| ==> link[..n] !in links) ==>
              forall n :: 0 < n <= |r.path| ==> r.path[..n] !in links)
  {
    var r := Resolve(links, link, target, maxDepth);
    if r.Resolves? {
      WalkClean(links, link, Parent(link), RawParts(target), {}, 0, maxDepth);
      WalkLinksWithin(links, link, Parent(link), RawParts(target), {}, 0, maxDepth, Parent(link));
      if forall n :: 0 < n < |link| ==> link[..n] !in links {
        forall n | 0 < n <= |r.path| ensures r.path[..n] !in links {
          assert r.path[..n] <= Parent(link) ==> r.path[..n] == link[..n];
        }
      }
    }
  }

  // ----- the limits only refuse

  /** The walk with no depth limit and no visited set: what it follows, and where it ends. */
  datatype FreeWalk = Ended(end: Resolution, trail: seq<Path>) | Unfinished

  /** The unlimited walk, given up after following `fuel` links. */
  function Free(links: Links, link: Path, dir: Path, pending: seq<string>, fuel: nat): FreeWalk
    decreases fuel, |pending|
  {
    if pending == [] then Ended(Resolves(dir), [])
    else
      var raw, rest := pending[0], pending[1..];
      if Ignored(raw) then Free(links, link, dir, rest, fuel)
      else if raw == ".." then
        if dir == [] then Ended(LeavesWorkspace(link), []) else Free(links, link, Parent(dir), rest, fuel)
      else
        var candidate := dir + [raw];
        if candidate !in links then Free(links, link, candidate, rest, fuel)
        else if fuel == 0 then Unfinished
        else
          var step := LinkTarget(candidate, links[candidate]);
          if step.None? then Ended(LeavesWorkspace(candidate), [candidate])
          else
            var later := Free(links, link, [], step.value + rest, fuel - 1);
            if later.Unfinished? then Unfinished else Ended(later.end, [candidate] + later.trail)
  }

  /** A trail the limits allow: no link twice, none already visited, and not too many. */
  ghost predicate Allowed(trail: seq<Path>, visited: set<Path>, followed: nat, maxDepth: int) {
    && Distinct(trail)
    && (forall i :: 0 <= i < |trail| ==> trail[i] !in visited)
    && followed + |trail| <= maxDepth
  }

  lemma AllowedCons(candidate: Path, trail: seq<Path>, visited: set<Path>, followed: nat, maxDepth: int)
    ensures Allowed([candidate] + trail, visited, followed, maxDepth) <==>
      candidate !in visited && Allowed(trail, visited + {candidate}, followed + 1, maxDepth)
  {
    var all := [candidate] + trail;
    if Allowed(all, visited, followed, maxDepth) {
      assert all[0] == candidate;
      forall i | 0 <= i < |trail| ensures trail[i] !in visited + {candidate} {
        assert all[i + 1] == trail[i] && all[0] != all[i + 1];
      }
      forall i, j | 0 <= i < j < |trail| ensures trail[i] != trail[j] {
        assert all[i + 1] == trail[i] && all[j + 1] == trail[j];
      }
    }
  }

  /** An end the walk reached by itself, not by a limit. */
  predicate ByItself(r: Resolution) {
    r.Resolves? || r.LeavesWorkspace?
  }

  lemma {:induction false} WalkIsFree(
      links: Links, link: Path, dir: Path, pending: seq<string>, visited: set<Path>, followed: nat, maxDepth: int,
      fuel: nat)
    requires followed + fuel >= maxDepth
    ensures var r := Walk(links, link, dir, pending, visited, followed, maxDepth);
      var free := Free(links, link, dir, pending, fuel);
      if free.Ended? && Allowed(free.trail, visited, followed, maxDepth) && followed <= maxDepth then r == free.end
      else followed <= maxDepth ==> !ByItself(r)
    decreases fuel, |pending|
  {
    if pending != [] && followed <= maxDepth {
      var raw, rest := pending[0], pending[1..];
      if Ignored(raw) {
        WalkIsFree(links, link, dir, rest, visited, followed, maxDepth, fuel);
      } else if raw == ".." {
        if dir != [] { WalkIsFree(links, link, Parent(dir), rest, visited, followed, maxDepth, fuel); }
      } else {
        var candidate := dir + [raw];
        if candidate !in links {
          WalkIsFree(links, link, candidate, rest, visited, followed, maxDepth, fuel);
        } else if fuel > 0 {
          var step := LinkTarget(candidate, links[candidate]);
          if step.Some? {
            var later := Free(links, link, [], step.value + rest, fuel - 1);
            if later.Ended? { AllowedCons(candidate, later.trail, visited, followed, maxDepth); }
            if candidate !in visited && followed + 1 <= maxDepth {
              WalkIsFree(links, link, [], step.value + rest, visited + {candidate}, followed + 1, maxDepth, fuel - 1);
            }
          } else {
            AllowedCons(candidate, [], visited, followed, maxDepth);
            assert [candidate] + [] == [candidate];
          }
        }
      }
    }
  }

  /**
   The limits never change an answer: the walk ends by itself exactly when the
   unlimited walk ends after following at most `maxDepth` links, none of them
   twice, and then both end alike.
   */
  lemma LimitsOnlyRefuse(links: Links, link: Path, target: string, maxDepth: nat, fuel: nat)
    requires fuel >= maxDepth && !IsAbsolute(target)
    ensures var r := Resolve(links, link, target, maxDepth);
      var free := Free(links, link, Parent(link), RawParts(target), fuel);
      && (ByItself(r) <==> free.Ended? && Distinct(free.trail) && |free.trail| <= maxDepth)
      && (ByItself(r) ==> r == free.end)
  {
    WalkIsFree(links, link, Parent(link), RawParts(target), {}, 0, maxDepth, fuel);
    FreeEndsByItself(links, link, Parent(link), RawParts(target), fuel);
  }

  lemma {:induction false} FreeEndsByItself(links: Links, link: Path, dir: Path, pending: seq<string>, fuel: nat)
    ensures var free := Free(links, link, dir, pending, fuel);
      free.Ended? ==> ByItself(free.end)
    decreases fuel, |pending|
  {
    if pending != [] {
      var raw, rest := pending[0], pending[1..];
      if Ignored(raw) {
        FreeEndsByItself(links, link, dir, rest, fuel);
      } else if raw == ".." {
        FreeEndsByItself(links, link, Parent(dir), rest, fuel);
      } else {
        var candidate := dir + [raw];
        FreeEndsByItself(links, link, candidate, rest, fuel);
        if candidate in links && fuel > 0 {
          var step := LinkTarget(candidate, links[candidate]);
          if step.Some? { FreeEndsByItself(links, link, [], step.value + rest, fuel - 1); }
        }
      }
    }
  }

  /**
   A target that goes through one link twice is no cycle, yet it is refused as
   one: `dir/../dir`, where `dir` is a link to the sibling `file`. Without the
   limits the walk ends at `file`, two links along.
   */
  lemma SecondVisitRefused(link: string, dir: string, file: string, fuel: nat)
    requires CleanSegment(dir) && CleanSegment(file) && dir != file && fuel >= 2
    requires !IsAbsolute(dir + "/../" + dir)
    ensures var links, target := map[[dir] := file], dir + "/../" + dir;
      && Resolve(links, [link], target, DEFAULT_MAX_DEPTH) == Cycle([dir])
      && Free(links, [link], Parent([link]), RawParts(target), fuel) == Ended(Resolves([file]), [[dir], [dir]])
  {
    TwiceParts(dir);
    TwiceWalked(link, dir, file, DEFAULT_MAX_DEPTH);
    TwiceFree(link, dir, file, fuel);
  }

  lemma TwiceParts(dir: string)
    requires CleanSegment(dir)
    ensures RawParts(dir + "/../" + dir) == [dir, "..", dir]
  {
    var target := dir + "/../" + dir;
    SlashesPlain(target);
    assert target == dir + ['/'] + (".." + ['/'] + dir);
    SplitConcat(dir, ".." + ['/'] + dir, '/');
    SplitConcat("..", dir, '/');
    SplitWhole(dir, '/');
    SplitWhole("..", '/');
  }

  lemma TwiceWalked(link: string, dir: string, file: string, maxDepth: nat)
    requires CleanSegment(dir) && CleanSegment(file) && dir != file && maxDepth >= 1
    ensures var links := map[[dir] := file];
      Walk(links, [link], [], [dir, "..", dir], {}, 0, maxDepth) == Cycle([dir])
  {
    var links := map[[dir] := file];
    SingleSegment(dir, file);
    assert [] + [dir] == [dir] && [] + [file] == [file] && Parent([file]) == [];
    assert Walk(links, [link], [], [dir], {[dir]}, 1, maxDepth) == Cycle([dir]);
    assert ["..", dir][1..] == [dir];
    assert Walk(links, [link], [file], ["..", dir], {[dir]}, 1, maxDepth) == Cycle([dir]);
    assert [file, "..", dir][1..] == ["..", dir];
    assert Walk(links, [link], [], [file, "..", dir], {[dir]}, 1, maxDepth) == Cycle([dir]);
    assert [dir, "..", dir][1..] == ["..", dir] && [file] + ["..", dir] == [file, "..", dir];
    assert {} + {[dir]} == {[dir]};
  }

  lemma TwiceFree(link: string, dir: string, file: string, fuel: nat)
    requires CleanSegment(dir) && CleanSegment(file) && dir != file && fuel >= 2
    ensures var links := map[[dir] := file];
      Free(links, [link], [], [dir, "..", dir], fuel) == Ended(Resolves([file]), [[dir], [dir]])
  {
    var links := map[[dir] := file];
    SingleSegment(dir, file);
    assert [] + [dir] == [dir] && [] + [file] == [file] && Parent([file]) == [];
    assert Free(links, [link], [file], [], fuel - 2) == Ended(Resolves([file]), []);
    assert [file][1..] == [] && [file] + [] == [file] && [dir][1..] == [];
    assert Free(links, [link], [], [file], fuel - 2) == Ended(Resolves([file]), []);
    assert Free(links, [link], [], [dir], fuel - 1) == Ended(Resolves([file]), [[dir]]);
    assert ["..", dir][1..] == [dir];
    assert Free(links, [link], [file], ["..", dir], fuel - 1) == Ended(Resolves([file]), [[dir]]);
    assert [file, "..", dir][1..] == ["..", dir];
    assert Free(links, [link], [], [file, "..", dir], fuel - 1) == Ended(Resolves([file]), [[dir]]);
    assert [dir, "..", dir][1..] == ["..", dir] && [file] + ["..", dir] == [file, "..", dir];
  }

  lemma SingleSegment(dir: string, file: string)
    requires CleanSegment(file)
    ensures LinkTarget([dir], file) == Some([file])
  {
    assert !IsAbsolute(file);
    assert Parent([dir]) == [];
    SlashesPlain(file);
    SplitWhole(file, '/');
    assert [file][1..] == [] && [] + [file] == [file];
    assert Resolved([], [file]) == Resolved([file], []);
  }

  lemma BesideLink(dir: string, name: string, file: string)
    requires CleanSegment(file)
    ensures LinkTarget([dir, name], file) == Some([dir, file])
  {
    assert Climb(0) + [file] == [file] && Join([file], '/') == file;
    TargetFromOwnDirectory([dir, name], 0, [file]);
    assert Parent([dir, name]) == [dir] && [dir][..1] == [dir] && [dir] + [file] == [dir, file];
  }

  /**
   A target that goes through a link in a subdirectory ends beside that link:
   `dir/name`, where `dir/name` links to `file`, is `dir/file`.
   */
  lemma {:induction false} ThroughSubdirectory(link: string, dir: string, name: string, file: string, maxDepth: nat)
    requires CleanSegment(dir) && CleanSegment(name) && CleanSegment(file) && name != file && maxDepth >= 1
    requires !IsAbsolute(dir + "/" + name)
    ensures Resolve(map[[dir, name] := file], [link], dir + "/" + name, maxDepth) == Resolves([dir, file])
  {
    var links: Links := map[[dir, name] := file];
    assert [dir, name][1..] == [name] && Join([dir, name], '/') == dir + "/" + name;
    TargetParts([dir, name]);
    BesideLink(dir, name, file);
    assert [] + [dir] == [dir] && [dir] + [name] == [dir, name] && [dir] + [file] == [dir, file];
    assert [dir] !in links && [dir, file] !in links;
    assert Walk(links, [link], [dir, file], [], {[dir, name]}, 1, maxDepth) == Resolves([dir, file]);
    assert Walk(links, [link], [dir], [file], {[dir, name]}, 1, maxDepth) == Resolves([dir, file]);
    assert [dir, file][1..] == [file] && [dir, file] + [] == [dir, file];
    assert Walk(links, [link], [], [dir, file], {[dir, name]}, 1, maxDepth) == Resolves([dir, file]);
    assert {} + {[dir, name]} == {[dir, name]} && [dir, name][1..] == [name];
    assert Walk(links, [link], [dir], [name], {}, 0, maxDepth) == Resolves([dir, file]);
  }

  // ----- reading through links

  /** The recursion of `read` decreases: a resolved path that is a link again is above the path being read. */
  function Depth(links: Links, p: Path): nat {
    if p in links then 1 + |p| else 0
  }

  lemma ReadingDescends(links: Links, p: Path)
    requires p in links
    ensures var r := Resolve(links, p, links[p], DEFAULT_MAX_DEPTH);
      r.Resolves? ==> Depth(links, r.path) < Depth(links, p) && (r.path in links ==> r.path < p)
  {
    var r := Resolve(links, p, links[p], DEFAULT_MAX_DEPTH);
    if r.Resolves? && r.path in links {
      WalkLinksWithin(links, p, Parent(p), RawParts(links[p]), {}, 0, DEFAULT_MAX_DEPTH, Parent(p));
      assert r.path[..|r.path|] == r.path && r.path <= Parent(p);
    }
  }

  /** `read` with links: overlaid files first, then deletions, then links, then the source. */
  function ReadThrough(source: Tree, w: Layer, links: Links, p: Path): Option<string>
    decreases Depth(links, p)
  {
    if p in w.files then Some(w.files[p])
    else if IsDeleted(w, p) then None
    else if p in links then
      ReadingDescends(links, p);
      var r := Resolve(links, p, links[p], DEFAULT_MAX_DEPTH);
      if r.Resolves? then ReadThrough(source, w, links, r.path) else None
    else if p in source && source[p].File? then Some(source[p].text)
    else None
  }

  /** The path holds the text itself: an overlaid file, or a visible source file that is not a link. */
  ghost predicate Holds(source: Tree, w: Layer, links: Links, q: Path, text: string) {
    || (q in w.files && w.files[q] == text)
    || (q !in w.files && !IsDeleted(w, q) && q !in links && Get(source, q) == Some(File(text)))
  }

  /** A path that is no link reads exactly the text it holds, and nothing when it holds none. */
  lemma PlainRead(source: Tree, w: Layer, links: Links, p: Path, text: string)
    requires p !in links && p != []
    ensures ReadThrough(source, w, links, p) == Some(text) <==> Holds(source, w, links, p, text)
  {
  }

  /** A link that resolves to a path that is no link reads exactly what that path holds. */
  lemma LinkRead(source: Tree, w: Layer, links: Links, p: Path, q: Path, text: string)
    requires p in links && p !in w.files && !IsDeleted(w, p) && q !in links && q != []
    requires Resolve(links, p, links[p], DEFAULT_MAX_DEPTH) == Resolves(q)
    ensures ReadThrough(source, w, links, p) == Some(text) <==> Holds(source, w, links, q, text)
  {
    ReadingDescends(links, p);
    PlainRead(source, w, links, q, text);
  }

  /** Whatever is read through links is a file of the workspace itself, at a path that stays inside it. */
  lemma {:induction false} ReadStaysInside(source: Tree, w: Layer, links: Links, p: Path)
    requires Clean(p) && ValidTree(source)
    ensures var text := ReadThrough(source, w, links, p);
      text.Some? ==> exists q :: Clean(q) && Holds(source, w, links, q, text.value)
    decreases Depth(links, p)
  {
    var text := ReadThrough(source, w, links, p);
    if text.Some? {
      if p !in w.files && p in links {
        ReadingDescends(links, p);
        var r := Resolve(links, p, links[p], DEFAULT_MAX_DEPTH);
        ResolvedTarget(links, p, links[p], DEFAULT_MAX_DEPTH);
        ReadStaysInside(source, w, links, r.path);
      } else {
        assert Holds(source, w, links, p, text.value);
      }
    }
  }
}
