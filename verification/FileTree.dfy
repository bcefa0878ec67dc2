/**
 The reference: a plain file tree, and what each workspace effect does to it. The
 root is always a directory and is not in the map; every other entry's parents
 are directories.
 */
module FileTree {
  import opened Text
  import opened Paths
  import opened TextReplace

  datatype Node = File(text: string) | Dir

  type Tree = map<Path, Node>

  datatype Effect =
    | Read(path: string)
    | Write(path: string, content: string)
    | Replace(path: string, oldText: string, newText: string)
    | Delete(path: string)

  datatype Code = NotFound | NotDirectory | IsDirectory

  datatype Result =
    | Done
    | Contents(text: string)
    | Refused(code: Code, at: Path)
    | PathEscapes(path: string)
    | NotOnce(occurrences: nat, at: Path)

  function Get(t: Tree, p: Path): Option<Node> {
    if p == [] then Some(Dir) else if p in t then Some(t[p]) else None
  }

  ghost predicate ValidTree(t: Tree) {
    && [] !in t
    && forall p, n :: p in t && 0 < n < |p| ==> Get(t, p[..n]) == Some(Dir)
  }

  /** Some proper ancestor is a file. */
  predicate UnderFile(t: Tree, p: Path) {
    exists n :: 0 < n < |p| && IsFile(Get(t, p[..n]))
  }

  predicate IsFile(node: Option<Node>) {
    node.Some? && node.value.File?
  }

  /** The proper ancestors of a path, the root left out. */
  function Ancestors(p: Path): set<Path> {
    set n | 0 < n < |p| :: p[..n]
  }

  /** A file and the directories above it. */
  function WriteFile(t: Tree, p: Path, text: string): Tree {
    t + (map a | a in Ancestors(p) :: Dir) + map[p := File(text)]
  }

  /** Everything but the subtree at `p`. */
  function DeleteSubtree(t: Tree, p: Path): Tree {
    map q | q in t && !(p <= q) :: t[q]
  }

  ghost function TreeExec(t: Tree, effect: Effect): (Tree, Result) {
    if Escapes(effect.path) then (t, PathEscapes(effect.path))
    else
      var p := Normalize(effect.path);
      if UnderFile(t, p) then (t, Refused(NotDirectory, p))
      else
        var node := Get(t, p);
        match effect
        case Read(_) =>
          if node.None? then (t, Refused(NotFound, p))
          else if node.value.Dir? then (t, Refused(IsDirectory, p))
          else (t, Contents(node.value.text))
        case Write(_, content) =>
          if node == Some(Dir) then (t, Refused(IsDirectory, p)) else (WriteFile(t, p, content), Done)
        case Replace(_, oldText, newText) =>
          if node.None? then (t, Refused(NotFound, p))
          else if node.value.Dir? then (t, Refused(IsDirectory, p))
          else
            var r := Replacement(node.value.text, oldText, newText);
            if r.content.None? then (t, NotOnce(r.occurrences, p)) else (WriteFile(t, p, r.content.value), Done)
        case Delete(_) =>
          if p == [] then (t, Refused(IsDirectory, p))
          else if node.None? then (t, Refused(NotFound, p))
          else (DeleteSubtree(t, p), Done)
  }

  /** What a file write leaves at each path. */
  lemma WriteFileGet(t: Tree, p: Path, text: string, q: Path)
    requires ValidTree(t) && p != [] && !UnderFile(t, p) && Get(t, p) != Some(Dir)
    ensures Get(WriteFile(t, p, text), q) ==
      if q == p then Some(File(text)) else if q < p then Some(Dir) else Get(t, q)
    ensures p < q ==> Get(t, q).None?
  {
    if q != [] && q < p {
      assert q == p[..|q|];
      assert q in Ancestors(p);
    }
    assert p < q ==> q[..|p|] == p;
  }

  /** The tree stays a tree. */
  lemma TreeExecValid(t: Tree, effect: Effect)
    requires ValidTree(t)
    ensures ValidTree(TreeExec(t, effect).0)
  {
    var p := Normalize(effect.path);
    var t' := TreeExec(t, effect).0;
    if t' != t {
      forall q, n | q in t' && 0 < n < |q| ensures Get(t', q[..n]) == Some(Dir) {
        if effect.Delete? {
          assert p <= q[..n] ==> p <= q;
        } else {
          var text := t'[p].text;
          WriteFileGet(t, p, text, q);
          WriteFileGet(t, p, text, q[..n]);
          assert q < p ==> q[..n] < p;
          assert q[..n] == p ==> p < q;
        }
      }
    }
  }

  // ----- what an effect means to later reads

  /** What a read of the path answers. */
  ghost function ReadAt(t: Tree, path: string): Result {
    TreeExec(t, Read(path)).1
  }

  /** An effect that is not done changes nothing. */
  lemma RefusedChangesNothing(t: Tree, effect: Effect)
    ensures TreeExec(t, effect).1 != Done ==> TreeExec(t, effect).0 == t
  {
  }

  /**
   After a file is written, its path reads the new text, the directories above it
   are directories, nothing can be read beneath it, and every other path reads as
   before.
   */
  lemma ReadAfterWrite(t: Tree, path: string, text: string, other: string)
    requires ValidTree(t) && !Escapes(path) && !Escapes(other)
    requires var p := Normalize(path); p != [] && !UnderFile(t, p) && Get(t, p) != Some(Dir)
    ensures var p, q := Normalize(path), Normalize(other);
      ReadAt(WriteFile(t, p, text), other) ==
        if q == p then Contents(text)
        else if q < p then Refused(IsDirectory, q)
        else if p < q then Refused(NotDirectory, q)
        else ReadAt(t, other)
  {
    var p, q := Normalize(path), Normalize(other);
    var t' := WriteFile(t, p, text);
    WriteFileGet(t, p, text, q);
    if p < q {
      WriteFileGet(t, p, text, q[..|p|]);
      assert IsFile(Get(t', q[..|p|]));
    } else {
      forall n | 0 < n < |q| ensures IsFile(Get(t', q[..n])) <==> !(q <= p) && IsFile(Get(t, q[..n])) {
        WriteFileGet(t, p, text, q[..n]);
        assert q[..n] == p ==> p < q;
        if q[..n] < p { assert q[..n] == p[..n]; }
      }
      if q == p || q < p { assert !UnderFile(t', q); }
    }
  }

  /** After a delete nothing is found at or beneath the path, and every other path reads as before. */
  lemma ReadAfterDelete(t: Tree, path: string, other: string)
    requires ValidTree(t) && !Escapes(path) && !Escapes(other)
    requires var p := Normalize(path); p != [] && Get(t, p).Some?
    ensures var p, q := Normalize(path), Normalize(other);
      ReadAt(DeleteSubtree(t, p), other) == if p <= q then Refused(NotFound, q) else ReadAt(t, other)
  {
    var p, q := Normalize(path), Normalize(other);
    var t' := DeleteSubtree(t, p);
    forall n | 0 < n < |q|
      ensures IsFile(Get(t', q[..n])) <==> !(p <= q) && IsFile(Get(t, q[..n]))
    {
      if p <= q {
        if n < |p| { assert q[..n] == p[..n]; } else { assert p <= q[..n]; }
      } else {
        assert p <= q[..n] ==> p <= q;
      }
    }
  }

  /**
   When an effect is done, told by what a read of its path would answer: a write
   where there is a file or nothing, a replace where there is a file that can be
   edited, a delete where there is a file or a directory other than the root.
   */
  lemma DoneIff(t: Tree, effect: Effect)
    ensures var found, p := ReadAt(t, effect.path), Normalize(effect.path);
      TreeExec(t, effect).1 == Done <==>
        match effect
        case Read(_) => false
        case Write(_, _) => found.Contents? || found == Refused(NotFound, p)
        case Replace(_, oldText, newText) =>
          found.Contents? && Replacement(found.text, oldText, newText).content.Some?
        case Delete(_) => found.Contents? || (found == Refused(IsDirectory, p) && p != [])
  {
  }

  /** The text a write or a replace that is done leaves at its path. */
  ghost function Written(t: Tree, effect: Effect): string
    requires TreeExec(t, effect).1 == Done && !effect.Delete?
  {
    DoneIff(t, effect);
    if effect.Write? then effect.content
    else Replacement(ReadAt(t, effect.path).text, effect.oldText, effect.newText).content.value
  }

  /** Every later read after an effect that is done. */
  lemma ReadAfterEffect(t: Tree, effect: Effect, other: string)
    requires ValidTree(t) && TreeExec(t, effect).1 == Done && !Escapes(other)
    ensures var p, q := Normalize(effect.path), Normalize(other);
      ReadAt(TreeExec(t, effect).0, other) ==
        if effect.Delete? then if p <= q then Refused(NotFound, q) else ReadAt(t, other)
        else if q == p then Contents(Written(t, effect))
        else if q < p then Refused(IsDirectory, q)
        else if p < q then Refused(NotDirectory, q)
        else ReadAt(t, other)
  {
    DoneIff(t, effect);
    if effect.Delete? {
      ReadAfterDelete(t, effect.path, other);
    } else {
      assert TreeExec(t, effect).0 == WriteFile(t, Normalize(effect.path), Written(t, effect));
      ReadAfterWrite(t, effect.path, Written(t, effect), other);
    }
  }
}
