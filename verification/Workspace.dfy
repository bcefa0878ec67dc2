/**
 The workspace object and the executor that serves effects from it, updating its
 maps in place. Paths are segment lists; the source keys its maps by the joined
 form, on which the same prefix tests hold (`Paths.KeyPrefix`).
 */
module Workspace {
  import opened Text
  import opened Paths
  import opened FileTree
  import opened Overlay
  import TextReplace

  datatype Kind = FileKind | DirectoryKind

  function KindOf(node: Option<Node>): Option<Kind> {
    if node.None? then None else Some(if node.value.File? then FileKind else DirectoryKind)
  }

  class MemoryWorkspace {
    const source: Tree
    var overlay: map<Path, string>
    var deleted: set<Path>
    var changed: set<Path>
    var dirs: set<Path>

    constructor (source: Tree)
      ensures this.source == source && State() == EmptyLayer()
    {
      this.source := source;
      overlay, deleted, changed, dirs := map[], {}, {}, {};
    }

    ghost function State(): Layer
      reads this
    {
      Layer(overlay, deleted, changed, dirs)
    }

    /** `#isDeleted`. */
    method CheckDeleted(p: Path) returns (gone: bool)
      ensures gone == IsDeleted(State(), p)
    {
      if p in deleted { return true; }
      var rest := deleted;
      while rest != {}
        invariant rest <= deleted
        invariant forall d :: d in deleted && d <= p ==> d in rest
      {
        var d :| d in rest;
        if d <= p { return true; }
        rest := rest - {d};
      }
      return false;
    }

    method Stat(p: Path) returns (kind: Option<Kind>)
      ensures kind == KindOf(NodeAt(source, State(), p))
    {
      if p == [] { return Some(DirectoryKind); }
      if p in overlay { return Some(FileKind); }
      var rest := overlay.Keys;
      while rest != {}
        invariant rest <= overlay.Keys
        invariant forall k :: k in overlay && p < k ==> k in rest
      {
        var k :| k in rest;
        if p < k { return Some(DirectoryKind); }
        rest := rest - {k};
      }
      if p in dirs { return Some(DirectoryKind); }
      var gone := CheckDeleted(p);
      if gone { return None; }
      return if p in source then Some(if source[p].File? then FileKind else DirectoryKind) else None;
    }

    /** `read` in a workspace without links: a rewritten file wins over a deleted ancestor. */
    method Read(p: Path) returns (text: Option<string>)
      ensures IsFile(NodeAt(source, State(), p)) ==> text == Some(NodeAt(source, State(), p).value.text)
      ensures text.Some? <==> p in overlay || (!IsDeleted(State(), p) && p in source && source[p].File?)
      ensures text.Some? && p !in overlay ==> source[p] == File(text.value)
    {
      if p in overlay { return Some(overlay[p]); }
      var gone := CheckDeleted(p);
      if gone || p !in source || source[p].Dir? { return None; }
      return Some(source[p].text);
    }

    /** Answers whether the write was accepted: the root cannot be written. */
    method Write(p: Path, content: string) returns (ok: bool)
      modifies this
      ensures ok == (p != [])
      ensures State() == if ok then WriteLayer(old(State()), p, content) else old(State())
    {
      if p == [] { return false; }
      overlay := overlay[p := content];
      deleted := deleted - {p};
      changed := changed + {p};
      ghost var before := dirs;
      var i := 1;
      while i < |p|
        invariant 1 <= i <= |p|
        invariant dirs == before + set n | 0 < n < i :: p[..n]
        invariant overlay == old(overlay)[p := content] && deleted == old(deleted) - {p}
        invariant changed == old(changed) + {p}
      {
        dirs := dirs + {p[..i]};
        i := i + 1;
      }
      return true;
    }

    /** Drops what is overlaid beneath the path and marks each of those files deleted. */
    method DropBelow(p: Path)
      modifies this`overlay, this`deleted, this`changed
      ensures overlay == map k | k in old(overlay) && !(p < k) :: old(overlay)[k]
      ensures deleted == old(deleted) + set k | k in old(overlay) && p < k
      ensures changed == old(changed) + set k | k in old(overlay) && p < k
    {
      ghost var files := overlay;
      var rest := overlay.Keys;
      while rest != {}
        invariant rest <= files.Keys
        invariant forall k :: k in overlay <==> k in files && (k in rest || !(p < k))
        invariant forall k :: k in overlay ==> overlay[k] == files[k]
        invariant forall k :: k in deleted <==> k in old(deleted) || (k in files && p < k && k !in rest)
        invariant forall k :: k in changed <==> k in old(changed) || (k in files && p < k && k !in rest)
      {
        var k :| k in rest;
        if p < k {
          overlay := overlay - {k};
          deleted := deleted + {k};
          changed := changed + {k};
        }
        rest := rest - {k};
      }
    }

    /** Forgets the implicit directories at and beneath the path. */
    method DropDirs(p: Path)
      modifies this`dirs
      ensures dirs == set d | d in old(dirs) && !(p <= d)
    {
      var left := dirs;
      while left != {}
        invariant left <= old(dirs)
        invariant dirs == set d | d in old(dirs) && (d in left || !(p <= d))
      {
        var d :| d in left;
        if p <= d { dirs := dirs - {d}; }
        left := left - {d};
      }
    }

    method Delete(p: Path) returns (ok: bool)
      modifies this
      ensures ok == (p != [])
      ensures State() == if ok then DeleteLayer(old(State()), p) else old(State())
    {
      if p == [] { return false; }
      overlay := overlay - {p};
      deleted := deleted + {p};
      changed := changed + {p};
      ghost var files := overlay;
      DropBelow(p);
      DropDirs(p);
      ghost var after := DeleteLayer(old(State()), p);
      forall k | k in old(overlay) ensures p <= k <==> k == p || p < k {
        if p <= k && |k| == |p| { assert k[..|p|] == k; }
      }
      assert overlay == after.files;
      assert (set k | k in files && p < k) == (set k | k in old(overlay) && p < k);
      assert deleted == after.deleted && changed == after.changed && dirs == after.dirs;
      return true;
    }
  }

  /** `SyntheticExecutor.execute` for the effects of a symlink-free workspace. */
  method Execute(workspace: MemoryWorkspace, effect: Effect) returns (r: Result)
    modifies workspace
    ensures r == LayerExec(workspace.source, old(workspace.State()), effect).1
    ensures workspace.State() == LayerExec(workspace.source, old(workspace.State()), effect).0
  {
    var escapes := EscapesWorkspace(effect.path);
    if escapes { return PathEscapes(effect.path); }
    var p := Normalize(effect.path);
    var i := 1;
    while i < |p|
      invariant 1 <= i || i <= |p|
      invariant forall n :: 0 < n < i && n < |p| ==> !IsFile(NodeAt(workspace.source, workspace.State(), p[..n]))
      invariant workspace.State() == old(workspace.State())
    {
      var info := workspace.Stat(p[..i]);
      if info == Some(FileKind) { return Refused(NotDirectory, p); }
      i := i + 1;
    }
    var info := workspace.Stat(p);
    match effect
    case Read(_) =>
      if p == [] { return Refused(IsDirectory, p); }
      if info.None? { return Refused(NotFound, p); }
      if info == Some(DirectoryKind) { return Refused(IsDirectory, p); }
      var text := workspace.Read(p);
      return Contents(text.value);
    case Write(_, content) =>
      if p == [] || info == Some(DirectoryKind) { return Refused(IsDirectory, p); }
      var _ := workspace.Write(p, content);
      return Done;
    case Replace(_, oldText, newText) =>
      if p == [] { return Refused(IsDirectory, p); }
      if info.None? { return Refused(NotFound, p); }
      if info == Some(DirectoryKind) { return Refused(IsDirectory, p); }
      var text := workspace.Read(p);
      var edit := TextReplace.ReplaceInText(text.value, oldText, newText);
      if edit.content.None? { return NotOnce(edit.occurrences, p); }
      var _ := workspace.Write(p, edit.content.value);
      return Done;
    case Delete(_) =>
      if p == [] { return Refused(IsDirectory, p); }
      if info.None? { return Refused(NotFound, p); }
      var _ := workspace.Delete(p);
      return Done;
  }
}
