/**
 The in-memory workspace: a copy-on-write overlay over a read-only source tree.
 Source entries are never removed; deletions only hide them. Through the
 synthetic executor it is indistinguishable from a plain file tree.
 */
module Overlay {
  import opened Text
  import opened Paths
  import opened FileTree
  import opened TextReplace

  datatype Layer = Layer(files: map<Path, string>, deleted: set<Path>, changed: set<Path>, dirs: set<Path>)

  function EmptyLayer(): Layer {
    Layer(map[], {}, {}, {})
  }

  /** `#isDeleted`: the path or an ancestor directory has been deleted. */
  predicate IsDeleted(w: Layer, p: Path) {
    exists d :: d in w.deleted && d <= p
  }

  /** Something is overlaid beneath the path. */
  predicate HasBelow(w: Layer, p: Path) {
    exists k :: k in w.files && p < k
  }

  /** `stat` and `read` together: the entry the workspace reports at a path. */
  function NodeAt(source: Tree, w: Layer, p: Path): Option<Node> {
    if p == [] then Some(Dir)
    else if p in w.files then Some(File(w.files[p]))
    else if HasBelow(w, p) || p in w.dirs then Some(Dir)
    else if IsDeleted(w, p) then None
    else Get(source, p)
  }

  function WriteLayer(w: Layer, p: Path, text: string): Layer {
    Layer(w.files[p := text], w.deleted - {p}, w.changed + {p}, w.dirs + Ancestors(p))
  }

  function DeleteLayer(w: Layer, p: Path): Layer {
    var below := set k | k in w.files && p < k;
    Layer(map k | k in w.files && !(p <= k) :: w.files[k],
          w.deleted + {p} + below,
          w.changed + {p} + below,
          set d | d in w.dirs && !(p <= d))
  }

  /** The executor's guard: some ancestor reports as a file. */
  predicate Blocked(source: Tree, w: Layer, p: Path) {
    exists n :: 0 < n < |p| && IsFile(NodeAt(source, w, p[..n]))
  }

  ghost function LayerExec(source: Tree, w: Layer, effect: Effect): (Layer, Result) {
    if Escapes(effect.path) then (w, PathEscapes(effect.path))
    else
      var p := Normalize(effect.path);
      if Blocked(source, w, p) then (w, Refused(NotDirectory, p))
      else
        var node := NodeAt(source, w, p);
        match effect
        case Read(_) =>
          if node.None? then (w, Refused(NotFound, p))
          else if node.value.Dir? then (w, Refused(IsDirectory, p))
          else (w, Contents(node.value.text))
        case Write(_, content) =>
          if node == Some(Dir) then (w, Refused(IsDirectory, p)) else (WriteLayer(w, p, content), Done)
        case Replace(_, oldText, newText) =>
          if node.None? then (w, Refused(NotFound, p))
          else if node.value.Dir? then (w, Refused(IsDirectory, p))
          else
            var r := Replacement(node.value.text, oldText, newText);
            if r.content.None? then (w, NotOnce(r.occurrences, p)) else (WriteLayer(w, p, r.content.value), Done)
        case Delete(_) =>
          if p == [] then (w, Refused(IsDirectory, p))
          else if node.None? then (w, Refused(NotFound, p))
          else (DeleteLayer(w, p), Done)
  }

  // ----- refinement

  /** What every sequence of effects keeps: overlaid files are leaves, and implied directories are closed upward. */
  ghost predicate WellFormed(w: Layer) {
    && [] !in w.files && [] !in w.dirs && [] !in w.deleted
    && (forall k, n :: k in w.files && 0 < n < |k| ==> k[..n] in w.dirs)
    && (forall d, n :: d in w.dirs && 0 < n < |d| ==> d[..n] in w.dirs)
    && (forall k :: k in w.files ==> k !in w.dirs)
    && Accounted(w)
  }

  /** The changed paths are exactly those overlaid or deleted, none is both, and each implied directory is above one. */
  ghost predicate Accounted(w: Layer) {
    && w.files.Keys !! w.deleted && w.changed == w.files.Keys + w.deleted
    && (forall d :: d in w.dirs ==> ChangedBelow(w, d))
  }

  ghost predicate ChangedBelow(w: Layer, d: Path) {
    exists k :: k in w.changed && d < k
  }

  lemma WriteAccounted(w: Layer, p: Path, text: string)
    requires Accounted(w) && p != []
    ensures Accounted(WriteLayer(w, p, text))
  {
    var w' := WriteLayer(w, p, text);
    forall d | d in w'.dirs ensures ChangedBelow(w', d) {
      if d in w.dirs {
        assert ChangedBelow(w, d);
        var k :| k in w.changed && d < k;
        assert k in w'.changed;
      } else {
        assert p in w'.changed && d < p;
      }
    }
  }

  lemma DeleteAccounted(w: Layer, p: Path)
    requires Accounted(w) && p != []
    ensures Accounted(DeleteLayer(w, p))
  {
    var w' := DeleteLayer(w, p);
    forall k | k in w'.changed ensures k in w'.files || k in w'.deleted {
      assert k in w.files && p <= k && k != p ==> p < k;
    }
    forall d | d in w'.dirs ensures ChangedBelow(w', d) {
      assert ChangedBelow(w, d);
      var k :| k in w.changed && d < k;
      assert k in w'.changed;
    }
  }

  /** Where nothing changed at, above or beneath a path, the workspace shows the source. */
  lemma UnchangedShowsSource(source: Tree, w: Layer, q: Path)
    requires WellFormed(w) && forall k :: k in w.changed ==> !(k <= q) && !(q < k)
    ensures NodeAt(source, w, q) == Get(source, q)
  {
  }

  /** What a caller of the executor can see at a path: nothing below a file. */
  ghost function Visible(source: Tree, w: Layer, p: Path): Option<Node> {
    if Blocked(source, w, p) then None else NodeAt(source, w, p)
  }

  ghost predicate Refines(source: Tree, w: Layer, t: Tree) {
    forall p :: Visible(source, w, p) == Get(t, p)
  }

  /** A path below a file is below a file that is itself visible. */
  lemma {:induction false} VisibleBlocker(source: Tree, w: Layer, p: Path, n: nat)
    requires 0 < n < |p| && IsFile(NodeAt(source, w, p[..n]))
    ensures exists m :: 0 < m < |p| && IsFile(Visible(source, w, p[..m]))
  {
    var a := p[..n];
    if Blocked(source, w, a) {
      var m :| 0 < m < |a| && IsFile(NodeAt(source, w, a[..m]));
      assert a[..m] == p[..m];
      VisibleBlocker(source, w, p, m);
    } else {
      assert IsFile(Visible(source, w, p[..n]));
    }
  }

  lemma BlockedAgrees(source: Tree, w: Layer, t: Tree, p: Path)
    requires Refines(source, w, t)
    ensures Blocked(source, w, p) <==> UnderFile(t, p)
  {
    if Blocked(source, w, p) {
      var n :| 0 < n < |p| && IsFile(NodeAt(source, w, p[..n]));
      VisibleBlocker(source, w, p, n);
      var m :| 0 < m < |p| && IsFile(Visible(source, w, p[..m]));
      assert IsFile(Get(t, p[..m]));
    }
    if UnderFile(t, p) {
      var n :| 0 < n < |p| && IsFile(Get(t, p[..n]));
      assert IsFile(Visible(source, w, p[..n]));
    }
  }

  lemma WriteWellFormed(source: Tree, w: Layer, p: Path, text: string)
    requires WellFormed(w) && p != [] && !Blocked(source, w, p) && NodeAt(source, w, p) != Some(Dir)
    ensures WellFormed(WriteLayer(w, p, text))
  {
    WriteAccounted(w, p, text);
    var w' := WriteLayer(w, p, text);
    forall a | a in Ancestors(p) ensures a !in w'.files {
      var n :| 0 < n < |p| && a == p[..n];
      assert !IsFile(NodeAt(source, w, p[..n]));
    }
    forall k, n | k in w'.files && 0 < n < |k| ensures k[..n] in w'.dirs {
      assert k == p ==> k[..n] in Ancestors(p);
    }
    forall d, n | d in w'.dirs && 0 < n < |d| ensures d[..n] in w'.dirs {
      if d in Ancestors(p) {
        var m :| 0 < m < |p| && d == p[..m];
        assert d[..n] == p[..n];
      }
    }
    assert p !in Ancestors(p);
  }

  /** A write changes the entry at `p`, makes its ancestors directories, and changes nothing else. */
  lemma WriteNodeAt(source: Tree, w: Layer, p: Path, text: string, q: Path)
    requires WellFormed(w) && p != [] && !Blocked(source, w, p) && NodeAt(source, w, p) != Some(Dir)
    requires !(p < q)
    ensures NodeAt(source, WriteLayer(w, p, text), q) ==
      if q == p then Some(File(text)) else if q < p then Some(Dir) else NodeAt(source, w, q)
  {
    var w' := WriteLayer(w, p, text);
    if q != [] && q != p {
      if q < p {
        assert q == p[..|q|] && q in Ancestors(p);
        assert !IsFile(NodeAt(source, w, p[..|q|]));
      } else {
        assert q !in Ancestors(p);
        assert IsDeleted(w', q) == IsDeleted(w, q) by {
          assert !(p <= q);
          if IsDeleted(w, q) {
            var d :| d in w.deleted && d <= q;
            assert d in w'.deleted;
          }
        }
        assert HasBelow(w', q) == HasBelow(w, q) by {
          if HasBelow(w, q) {
            var k :| k in w.files && q < k;
            assert k in w'.files;
          }
        }
      }
    }
  }

  lemma WriteRefines(source: Tree, w: Layer, t: Tree, p: Path, text: string)
    requires WellFormed(w) && ValidTree(t) && Refines(source, w, t)
    requires p != [] && !Blocked(source, w, p) && NodeAt(source, w, p) != Some(Dir)
    ensures Refines(source, WriteLayer(w, p, text), WriteFile(t, p, text))
  {
    BlockedAgrees(source, w, t, p);
    assert Get(t, p) == Visible(source, w, p);
    forall q ensures Visible(source, WriteLayer(w, p, text), q) == Get(WriteFile(t, p, text), q) {
      WriteVisible(source, w, t, p, text, q);
    }
  }

  lemma WriteVisible(source: Tree, w: Layer, t: Tree, p: Path, text: string, q: Path)
    requires WellFormed(w) && ValidTree(t) && Visible(source, w, q) == Get(t, q)
    requires p != [] && !Blocked(source, w, p) && NodeAt(source, w, p) != Some(Dir)
    requires !UnderFile(t, p) && Get(t, p) != Some(Dir)
    ensures Visible(source, WriteLayer(w, p, text), q) == Get(WriteFile(t, p, text), q)
  {
    var w' := WriteLayer(w, p, text);
    WriteFileGet(t, p, text, q);
    if p < q {
      assert q[..|p|] == p;
      assert IsFile(NodeAt(source, w', q[..|p|]));
    } else {
      WriteNodeAt(source, w, p, text, q);
      forall n | 0 < n < |q|
        ensures IsFile(NodeAt(source, w', q[..n])) <==> IsFile(NodeAt(source, w, q[..n])) && !(q <= p)
      {
        assert p <= q[..n] ==> p < q;
        WriteNodeAt(source, w, p, text, q[..n]);
        if q[..n] < p {
          assert q[..n] == p[..n];
        }
      }
      if q <= p {
        assert !Blocked(source, w', q);
      } else {
        assert Blocked(source, w', q) <==> Blocked(source, w, q);
      }
    }
  }

  lemma DeleteWellFormed(w: Layer, p: Path)
    requires WellFormed(w) && p != []
    ensures WellFormed(DeleteLayer(w, p))
  {
    DeleteAccounted(w, p);
    var w' := DeleteLayer(w, p);
    forall k, n | k in w'.files && 0 < n < |k| ensures k[..n] in w'.dirs {
      assert p <= k[..n] ==> p <= k;
    }
    forall d, n | d in w'.dirs && 0 < n < |d| ensures d[..n] in w'.dirs {
      assert p <= d[..n] ==> p <= d;
    }
  }

  /** A delete empties the subtree at `p` and changes nothing else: emptied parents stay directories. */
  lemma DeleteNodeAt(source: Tree, w: Layer, p: Path, q: Path)
    requires WellFormed(w) && p != []
    ensures NodeAt(source, DeleteLayer(w, p), q) == if p <= q then None else NodeAt(source, w, q)
  {
    var w' := DeleteLayer(w, p);
    if p <= q {
      assert p in w'.deleted && IsDeleted(w', q);
      forall k | k in w'.files ensures !(q < k) {
        assert q < k ==> p <= k;
      }
    } else {
      assert IsDeleted(w', q) == IsDeleted(w, q) by {
        if IsDeleted(w', q) {
          var d :| d in w'.deleted && d <= q;
          assert p <= d ==> p <= q;
        }
        if IsDeleted(w, q) {
          var d :| d in w.deleted && d <= q;
          assert d in w'.deleted;
        }
      }
      if HasBelow(w, q) && !HasBelow(w', q) {
        var k :| k in w.files && q < k;
        assert q != [] ==> k[..|q|] == q;
      }
      assert HasBelow(w', q) ==> HasBelow(w, q);
    }
  }

  lemma DeleteRefines(source: Tree, w: Layer, t: Tree, p: Path)
    requires WellFormed(w) && Refines(source, w, t) && p != []
    ensures Refines(source, DeleteLayer(w, p), DeleteSubtree(t, p))
  {
    var w' := DeleteLayer(w, p);
    forall q ensures Visible(source, w', q) == Get(DeleteSubtree(t, p), q) {
      DeleteNodeAt(source, w, p, q);
      assert Visible(source, w, q) == Get(t, q);
      if !(p <= q) {
        forall n | 0 < n < |q| ensures NodeAt(source, w', q[..n]) == NodeAt(source, w, q[..n]) {
          assert p <= q[..n] ==> p <= q;
          DeleteNodeAt(source, w, p, q[..n]);
        }
      }
    }
  }

  /** One effect through the overlay answers as the plain tree does and leaves it refining the changed tree. */
  lemma ExecRefines(source: Tree, w: Layer, t: Tree, effect: Effect)
    requires WellFormed(w) && ValidTree(t) && Refines(source, w, t)
    ensures LayerExec(source, w, effect).1 == TreeExec(t, effect).1
    ensures Refines(source, LayerExec(source, w, effect).0, TreeExec(t, effect).0)
    ensures WellFormed(LayerExec(source, w, effect).0) && ValidTree(TreeExec(t, effect).0)
  {
    var p := Normalize(effect.path);
    TreeExecValid(t, effect);
    if !Escapes(effect.path) {
      BlockedAgrees(source, w, t, p);
      assert Visible(source, w, p) == Get(t, p);
      if !Blocked(source, w, p) {
        match effect
        case Read(_) =>
        case Write(_, content) =>
          if NodeAt(source, w, p) != Some(Dir) {
            WriteWellFormed(source, w, p, content);
            WriteRefines(source, w, t, p, content);
          }
        case Replace(_, oldText, newText) =>
          if IsFile(NodeAt(source, w, p)) {
            var r := Replacement(NodeAt(source, w, p).value.text, oldText, newText);
            if r.content.Some? {
              WriteWellFormed(source, w, p, r.content.value);
              WriteRefines(source, w, t, p, r.content.value);
            }
          }
        case Delete(_) =>
          if p != [] && NodeAt(source, w, p).Some? {
            DeleteWellFormed(w, p);
            DeleteRefines(source, w, t, p);
          }
      }
    }
  }

  // ----- whole runs

  ghost function LayerRun(source: Tree, w: Layer, effects: seq<Effect>): seq<Result>
    decreases effects
  {
    if effects == [] then []
    else
      var step := LayerExec(source, w, effects[0]);
      [step.1] + LayerRun(source, step.0, effects[1..])
  }

  ghost function TreeRun(t: Tree, effects: seq<Effect>): seq<Result>
    decreases effects
  {
    if effects == [] then []
    else
      var step := TreeExec(t, effects[0]);
      [step.1] + TreeRun(step.0, effects[1..])
  }

  lemma {:induction false} RunRefines(source: Tree, w: Layer, t: Tree, effects: seq<Effect>)
    requires WellFormed(w) && ValidTree(t) && Refines(source, w, t)
    ensures LayerRun(source, w, effects) == TreeRun(t, effects)
    decreases effects
  {
    if effects != [] {
      ExecRefines(source, w, t, effects[0]);
      RunRefines(source, LayerExec(source, w, effects[0]).0, TreeExec(t, effects[0]).0, effects[1..]);
    }
  }

  /**
   The overlay refines a plain file tree: from any symlink-free source, every
   sequence of effects gets the same contents and the same errors as it would on
   a plain copy of that tree.
   */
  lemma OverlayRefinesTree(source: Tree, effects: seq<Effect>)
    requires ValidTree(source)
    ensures LayerRun(source, EmptyLayer(), effects) == TreeRun(source, effects)
  {
    forall p ensures Visible(source, EmptyLayer(), p) == Get(source, p) {
      if Blocked(source, EmptyLayer(), p) {
        var n :| 0 < n < |p| && IsFile(NodeAt(source, EmptyLayer(), p[..n]));
        assert IsFile(Get(source, p[..n]));
      }
    }
    RunRefines(source, EmptyLayer(), source, effects);
  }
}
