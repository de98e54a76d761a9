/**
 The session filesystem stands in for a private mutable copy of the base: over every run in
 scope, the visible tree is the tree a plain filesystem reaches from a deep copy of the base.
 */
module Simulation {
  import opened Options
  import opened Paths
  import opened Layers
  import opened SessionSpec
  import opened ReferenceSpec
  import opened SessionFacts

  /** What the simulation compares at a path: kind, content, owner and mode, and the group if asked to. */
  datatype Shape =
    | Absent
    | Directory(owner: string, mode: string, group: string)
    | File(content: string, owner: string, mode: string, group: string)

  function Shown(groups: bool, found: Option<Entry>): Shape {
    match found
    case None => Absent
    case Some(e) =>
      var group := if groups then e.group else "";
      if e.isDir then Directory(e.owner, InitialMode(true, e.permissions), group)
      else File(e.content, e.owner, e.permissions, group)
  }

  /** The session shows exactly the reference tree. */
  ghost predicate Agree(groups: bool, s: Session, base: Layer, tree: Layer) {
    forall p: Path :: Shown(groups, Lookup(s, base, p)) == Shown(groups, Find(tree, p))
  }

  /** Base content at or above which something was deleted or replaced is buried for good. */
  ghost predicate Consistent(s: Session, base: Layer) {
    && TreeShaped(s.overlay)
    && TreeShaped(base)
    && (forall p :: p in s.overlay ==> !Tombstoned(s.tombstones, p))
    && (forall p, q :: p in s.tombstones && q in base && Under(p, q) ==> q in s.tombstones)
    && (forall p, q :: IsFile(s.overlay, p) && q in base && Under(p, q) ==> q in s.tombstones)
  }

  /** The overlay hides no old base content under its directories just below p. */
  ghost predicate NothingShadowed(s: Session, base: Layer, p: Path) {
    forall d, q :: IsDirectory(s.overlay, d) && |d| == |p| + 1 && p <= d && q in base && Under(d, q) ==>
      q in s.tombstones || q in s.overlay
  }

  /** Everything the base has below p is buried. */
  ghost predicate Covered(s: Session, base: Layer, p: Path) {
    forall q :: q in base && Under(p, q) ==> q in s.tombstones
  }

  /** The base has no file at p, or one like those that appending creates. */
  predicate NothingToAppend(base: Layer, p: Path) {
    p in base && !base[p].isDir ==> base[p].content == "" && base[p].owner == "root" && base[p].permissions == "0644"
  }

  /** Appending to p copies a base file up, and with it all but its group. */
  predicate LosesGroup(s: Session, base: Layer, p: Path) {
    p !in s.overlay && !Tombstoned(s.tombstones, p) && p in base && !base[p].isDir && base[p].group != "root"
  }

  /**
   The calls that keep the promise: those below a visible directory, but for a few that meet a
   directory. What these exceptions do is in Overwriting and Resurrection.
   */
  ghost predicate InScope(groups: bool, s: Session, base: Layer, op: Op) {
    var p := op.path;
    && p != []
    && VisibleDirectory(s, base, Parent(p))
    && (op.CreateFile? && VisibleDirectory(s, base, p) ==> Covered(s, base, p))
    && (op.AppendFile? && VisibleDirectory(s, base, p) ==> Covered(s, base, p) && NothingToAppend(base, p))
    && (op.RemoveFile? && VisibleDirectory(s, base, p) ==> !IsFile(base, p))
    && (groups && op.AppendFile? ==> !LosesGroup(s, base, p))
    && (op.CreateDirectory? ==> !op.parents)
    && (op.RemoveDirectory? && op.recursive && VisibleDirectory(s, base, p) ==> NothingShadowed(s, base, p))
  }

  // ----- Consequences of agreement -----

  lemma AgreeAt(groups: bool, s: Session, base: Layer, tree: Layer, p: Path)
    requires Agree(groups, s, base, tree)
    ensures Lookup(s, base, p).Some? <==> p in tree
    ensures VisibleDirectory(s, base, p) <==> IsDirectory(tree, p)
    ensures VisibleFile(s, base, p) <==> IsFile(tree, p)
  {
    assert Shown(groups, Lookup(s, base, p)) == Shown(groups, Find(tree, p));
  }

  /** Above a visible directory everything is a visible directory. */
  lemma VisibleAbove(groups: bool, s: Session, base: Layer, tree: Layer, p: Path, k: nat)
    requires Agree(groups, s, base, tree) && TreeShaped(tree)
    requires VisibleDirectory(s, base, p) && k <= |p|
    ensures VisibleDirectory(s, base, p[..k])
  {
    AgreeAt(groups, s, base, tree, p);
    AgreeAt(groups, s, base, tree, p[..k]);
    if k < |p| {
      PrefixesAreDirectories(tree, p, k);
    } else {
      assert p[..k] == p;
    }
  }

  /** Base paths under a place that shows no directory are tombstoned one by one. */
  lemma NothingBelow(s: Session, base: Layer, p: Path)
    requires Consistent(s, base)
    requires p != [] && VisibleDirectory(s, base, Parent(p)) && !VisibleDirectory(s, base, p)
    ensures Covered(s, base, p)
  {
    TombstonedChild(s.tombstones, p);
    forall q | q in base && Under(p, q)
      ensures q in s.tombstones
    {
      UnderIsDirectory(base, p, q);
    }
  }

  // ----- One step of each kind -----

  /** What the bookkeeping adds above a visible directory are copies of visible base directories. */
  lemma ExtendedEntry(groups: bool, s: Session, base: Layer, tree: Layer, dir: Path, overlay: Layer, q: Path)
    requires Agree(groups, s, base, tree) && TreeShaped(tree) && VisibleDirectory(s, base, dir)
    requires Extended(s.overlay, overlay, base, dir, "root", 0)
    requires q in overlay && q !in s.overlay
    ensures IsDirectory(base, q) && overlay[q] == CopyOf(base[q].(content := ""))
    ensures !Tombstoned(s.tombstones, q)
  {
    VisibleAbove(groups, s, base, tree, dir, |q|);
    assert dir[..|q|] == q;
  }

  lemma ExtendAgrees(groups: bool, s: Session, base: Layer, tree: Layer, dir: Path, s': Session)
    requires Agree(groups, s, base, tree) && TreeShaped(tree) && VisibleDirectory(s, base, dir)
    requires Extended(s.overlay, s'.overlay, base, dir, "root", 0)
    requires s'.tombstones == s.tombstones
    ensures Agree(groups, s', base, tree)
  {
    forall q: Path
      ensures Shown(groups, Lookup(s', base, q)) == Shown(groups, Find(tree, q))
    {
      assert Shown(groups, Lookup(s, base, q)) == Shown(groups, Find(tree, q));
      if q in s'.overlay && q !in s.overlay {
        ExtendedEntry(groups, s, base, tree, dir, s'.overlay, q);
      }
    }
  }

  lemma ExtendConsistent(groups: bool, s: Session, base: Layer, tree: Layer, dir: Path, s': Session)
    requires Consistent(s, base)
    requires Agree(groups, s, base, tree) && TreeShaped(tree) && VisibleDirectory(s, base, dir)
    requires Extended(s.overlay, s'.overlay, base, dir, "root", 0) && TreeShaped(s'.overlay)
    requires s'.tombstones == s.tombstones
    ensures Consistent(s', base)
  {
    forall q | q in s'.overlay && q !in s.overlay
      ensures s'.overlay[q].isDir && !Tombstoned(s.tombstones, q)
    {
      ExtendedEntry(groups, s, base, tree, dir, s'.overlay, q);
    }
  }

  /** Making overlay directories out of visible ones changes nothing that shows. */
  lemma EnsureKeeps(groups: bool, s: Session, base: Layer, tree: Layer, dir: Path)
    requires Consistent(s, base) && Agree(groups, s, base, tree) && TreeShaped(tree)
    requires VisibleDirectory(s, base, dir)
    ensures var e := Ensure(s, base, dir, "root");
            var s' := s.(overlay := e.overlay, count := e.count);
            && Consistent(s', base) && Agree(groups, s', base, tree)
            && (e.ok ==> IsDirectory(e.overlay, dir))
            && (!e.ok ==> e.count >= MAX_FILES_PER_SESSION)
            && Extended(s.overlay, e.overlay, base, dir, "root", 0)
  {
    EnsureFacts(s, base, dir, "root");
    var e := Ensure(s, base, dir, "root");
    ExtendAgrees(groups, s, base, tree, dir, s.(overlay := e.overlay, count := e.count));
    ExtendConsistent(groups, s, base, tree, dir, s.(overlay := e.overlay, count := e.count));
    forall j | 0 < j <= |dir|
      ensures !IsFile(s.overlay, dir[..j])
    {
      VisibleAbove(groups, s, base, tree, dir, j);
    }
  }

  /** Un-deleting p alone: outside p nothing changes, and p itself is no longer deleted. */
  lemma Untombstone(s: Session, base: Layer, p: Path, q: Path)
    requires p != [] && VisibleDirectory(s, base, Parent(p))
    ensures !(p <= q) ==> (Tombstoned(s.tombstones, q) <==> Tombstoned(s.tombstones - {p}, q))
    ensures q == p ==> !Tombstoned(s.tombstones - {p}, q)
    ensures Under(p, q) && q in s.tombstones ==> Tombstoned(s.tombstones - {p}, q)
  {
    if !(p <= q) {
      TombstonedOutside(s.tombstones, s.tombstones - {p}, p, q);
    } else if q == p {
      TombstonedChild(s.tombstones - {p}, p);
      TombstonedOutside(s.tombstones, s.tombstones - {p}, p, Parent(p));
    } else {
      assert q[..|q|] == q;
    }
  }

  lemma PlaceNodeAgrees(groups: bool, s: Session, base: Layer, tree: Layer, p: Path, e: Entry, s': Session)
    requires Consistent(s, base) && Agree(groups, s, base, tree)
    requires p != [] && VisibleDirectory(s, base, Parent(p)) && Covered(s, base, p)
    requires s'.overlay == Put(s.overlay, p, e) && s'.tombstones == s.tombstones - {p}
    ensures Agree(groups, s', base, Put(tree, p, e))
  {
    forall q: Path
      ensures Shown(groups, Lookup(s', base, q)) == Shown(groups, Find(Put(tree, p, e), q))
    {
      Untombstone(s, base, p, q);
      if !(p <= q) {
        assert Shown(groups, Lookup(s, base, q)) == Shown(groups, Find(tree, q));
      } else if q != p {
        assert Under(p, q);
      }
    }
  }

  lemma PlaceNodeConsistent(s: Session, base: Layer, p: Path, e: Entry, s': Session)
    requires Consistent(s, base)
    requires p != [] && VisibleDirectory(s, base, Parent(p)) && Covered(s, base, p)
    requires IsDirectory(s.overlay, Parent(p))
    requires s'.overlay == Put(s.overlay, p, e) && s'.tombstones == s.tombstones - {p}
    ensures Consistent(s', base)
  {
    PutTreeShaped(s.overlay, p, e);
    forall q | q in s'.overlay
      ensures !Tombstoned(s'.tombstones, q)
    {
      Untombstone(s, base, p, q);
    }
    forall x, q | (x in s'.tombstones || IsFile(s'.overlay, x)) && q in base && Under(x, q)
      ensures q in s'.tombstones
    {
      if q == p {
        assert x <= Parent(p) && Parent(p)[..|x|] == x;
        NothingUnder(s.overlay, x);
      }
    }
  }

  /** A new node over which nothing of the base shows, in a directory of the overlay. */
  lemma PlaceNode(groups: bool, s: Session, base: Layer, tree: Layer, p: Path, e: Entry, s': Session)
    requires Consistent(s, base) && Agree(groups, s, base, tree) && TreeShaped(tree)
    requires p != [] && VisibleDirectory(s, base, Parent(p)) && Covered(s, base, p)
    requires IsDirectory(s.overlay, Parent(p))
    requires s'.overlay == Put(s.overlay, p, e) && s'.tombstones == s.tombstones - {p}
    ensures Consistent(s', base) && Agree(groups, s', base, Put(tree, p, e)) && TreeShaped(Put(tree, p, e))
  {
    AgreeAt(groups, s, base, tree, Parent(p));
    PutTreeShaped(tree, p, e);
    PlaceNodeAgrees(groups, s, base, tree, p, e, s');
    PlaceNodeConsistent(s, base, p, e, s');
  }

  /** Rewriting a node in place, keeping its kind, keeps a tree a tree. */
  lemma RewriteTree(layer: Layer, p: Path, e: Entry)
    requires TreeShaped(layer) && p in layer && e.isDir == layer[p].isDir
    ensures TreeShaped(layer[p := e])
    ensures forall q :: IsFile(layer[p := e], q) <==> IsFile(layer, q)
  {
  }

  /** Rewriting an overlay node in place, keeping its kind, as the reference rewrites its own. */
  lemma Rewrite(groups: bool, s: Session, base: Layer, tree: Layer, p: Path, e: Entry, e': Entry, s': Session)
    requires Consistent(s, base) && Agree(groups, s, base, tree) && TreeShaped(tree)
    requires p in s.overlay && p in tree
    requires s'.overlay == s.overlay[p := e] && s'.tombstones == s.tombstones
    requires e.isDir == s.overlay[p].isDir && e'.isDir == tree[p].isDir
    requires Shown(groups, Some(e)) == Shown(groups, Some(e'))
    ensures Consistent(s', base) && Agree(groups, s', base, tree[p := e']) && TreeShaped(tree[p := e'])
  {
    RewriteTree(s.overlay, p, e);
    RewriteTree(tree, p, e');
    forall q: Path
      ensures Shown(groups, Lookup(s', base, q)) == Shown(groups, Find(tree[p := e'], q))
    {
      assert Shown(groups, Lookup(s, base, q)) == Shown(groups, Find(tree, q));
    }
  }

  /** Deleting what is at p, with tombstones for p and some paths below it. */
  lemma Bury(groups: bool, s: Session, base: Layer, tree: Layer, p: Path, buried: set<Path>, s': Session)
    requires Consistent(s, base) && Agree(groups, s, base, tree) && TreeShaped(tree)
    requires p != [] && p in buried && forall x :: x in buried ==> p <= x
    requires s'.overlay == Prune(s.overlay, p) && s'.tombstones == s.tombstones + buried
    requires forall q :: q in base && Under(p, q) ==> q in s'.tombstones
    ensures Consistent(s', base) && Agree(groups, s', base, Prune(tree, p)) && TreeShaped(Prune(tree, p))
  {
    PruneTreeShaped(s.overlay, p);
    PruneTreeShaped(tree, p);
    forall q: Path
      ensures Shown(groups, Lookup(s', base, q)) == Shown(groups, Find(Prune(tree, p), q))
      ensures q in s'.overlay ==> !Tombstoned(s'.tombstones, q)
    {
      if p <= q {
        assert q[..|p|] == p;
      } else {
        TombstonedOutside(s.tombstones, s'.tombstones, p, q);
        assert Shown(groups, Lookup(s, base, q)) == Shown(groups, Find(tree, q));
      }
    }
    forall x, q | x in buried && q in base && Under(x, q)
      ensures q in s'.tombstones
    {
      assert p <= q;
    }
  }

  ghost predicate Simulates(groups: bool, s: Session, base: Layer, tree: Layer, op: Op)
    requires op.CreateDirectory? ==> !op.parents
  {
    var o := Step(s, base, op);
    var r := RefStep(tree, op);
    && Consistent(o.session, base)
    && (o.ok ==> r.ok && TreeShaped(r.tree) && Agree(groups, o.session, base, r.tree))
    && (!o.ok ==> Agree(groups, o.session, base, tree))
    && (!o.ok && r.ok ==> o.session.count >= MAX_FILES_PER_SESSION)
  }

  lemma CreateFileStep(groups: bool, s: Session, base: Layer, tree: Layer, p: Path,
                       content: string, owner: string, permissions: string)
    requires Consistent(s, base) && Agree(groups, s, base, tree) && TreeShaped(tree)
    requires InScope(groups, s, base, CreateFile(p, content, owner, permissions))
    ensures Simulates(groups, s, base, tree, CreateFile(p, content, owner, permissions))
  {
    AgreeAt(groups, s, base, tree, Parent(p));
    if s.count < MAX_FILES_PER_SESSION {
      EnsureKeeps(groups, s, base, tree, Parent(p));
      var e := Ensure(s, base, Parent(p), "root");
      if e.ok {
        var s1 := s.(overlay := e.overlay, count := e.count);
        AgreeAt(groups, s1, base, tree, Parent(p));
        if !VisibleDirectory(s, base, p) {
          NothingBelow(s, base, p);
        }
        PlaceNode(groups, s1, base, tree, p, NewFile(content, owner, permissions),
                  DoCreateFile(s, base, p, content, owner, permissions).session);
      }
    }
  }

  lemma AppendFileStep(groups: bool, s: Session, base: Layer, tree: Layer, p: Path, content: string)
    requires Consistent(s, base) && Agree(groups, s, base, tree) && TreeShaped(tree)
    requires InScope(groups, s, base, AppendFile(p, content))
    ensures Simulates(groups, s, base, tree, AppendFile(p, content))
  {
    AgreeAt(groups, s, base, tree, p);
    AgreeAt(groups, s, base, tree, Parent(p));
    assert Shown(groups, Lookup(s, base, p)) == Shown(groups, Find(tree, p));
    if p !in s.overlay && s.count >= MAX_FILES_PER_SESSION {
    } else if IsFile(s.overlay, p) {
      var e := s.overlay[p];
      Rewrite(groups, s, base, tree, p, e.(content := e.content + content),
              tree[p].(content := tree[p].content + content), DoAppendFile(s, base, p, content).session);
    } else if VisibleFile(s, base, p) {
      AppendToBaseStep(groups, s, base, tree, p, content);
    } else {
      if IsFile(base, p) {
        assert VisibleDirectory(s, base, p) ==> base[p].content + content == content;
      }
      CreateFileStep(groups, s, base, tree, p, content, "root", "0644");
    }
  }

  /** Appending to a file that only the base has makes a copy of it. */
  lemma AppendToBaseStep(groups: bool, s: Session, base: Layer, tree: Layer, p: Path, content: string)
    requires Consistent(s, base) && Agree(groups, s, base, tree) && TreeShaped(tree)
    requires InScope(groups, s, base, AppendFile(p, content))
    requires p !in s.overlay && VisibleFile(s, base, p) && s.count < MAX_FILES_PER_SESSION
    ensures Simulates(groups, s, base, tree, AppendFile(p, content))
  {
    AgreeAt(groups, s, base, tree, p);
    assert Shown(groups, Lookup(s, base, p)) == Shown(groups, Find(tree, p));
    var e := base[p];
    CreateFileStep(groups, s, base, tree, p, e.content + content, e.owner, e.permissions);
    var o := DoAppendFile(s, base, p, content);
    var r, r' := RefAppendFile(tree, p, content), RefCreateFile(tree, p, e.content + content, e.owner, e.permissions);
    NothingUnder(tree, p);
    forall q: Path
      ensures Shown(groups, Find(r.tree, q)) == Shown(groups, Find(r'.tree, q))
    {
    }
    if o.ok {
      AgreeSame(groups, o.session, base, r'.tree, r.tree);
    }
  }

  lemma AgreeSame(groups: bool, s: Session, base: Layer, tree: Layer, other: Layer)
    requires Agree(groups, s, base, tree)
    requires forall q: Path :: Shown(groups, Find(other, q)) == Shown(groups, Find(tree, q))
    ensures Agree(groups, s, base, other)
  {
    forall q: Path
      ensures Shown(groups, Lookup(s, base, q)) == Shown(groups, Find(other, q))
    {
      assert Shown(groups, Lookup(s, base, q)) == Shown(groups, Find(tree, q));
    }
  }

  lemma CreateDirectoryStep(groups: bool, s: Session, base: Layer, tree: Layer, p: Path, owner: string)
    requires Consistent(s, base) && Agree(groups, s, base, tree) && TreeShaped(tree)
    requires InScope(groups, s, base, CreateDirectory(p, owner, false))
    ensures Simulates(groups, s, base, tree, CreateDirectory(p, owner, false))
  {
    AgreeAt(groups, s, base, tree, p);
    AgreeAt(groups, s, base, tree, Parent(p));
    if s.count < MAX_FILES_PER_SESSION && Lookup(s, base, p).None? {
      EnsureKeeps(groups, s, base, tree, Parent(p));
      var e := Ensure(s, base, Parent(p), "root");
      if e.ok {
        var s1 := s.(overlay := e.overlay, count := e.count);
        AgreeAt(groups, s1, base, tree, Parent(p));
        NothingBelow(s, base, p);
        PlaceNode(groups, s1, base, tree, p, NewDirectory(owner),
                  DoCreateDirectory(s, base, p, owner, false).session);
      }
    }
  }

  lemma RemoveFileStep(groups: bool, s: Session, base: Layer, tree: Layer, p: Path)
    requires Consistent(s, base) && Agree(groups, s, base, tree) && TreeShaped(tree)
    requires InScope(groups, s, base, RemoveFile(p))
    ensures Simulates(groups, s, base, tree, RemoveFile(p))
  {
    AgreeAt(groups, s, base, tree, p);
    var o := DoRemoveFile(s, base, p);
    if o.ok {
      forall q | q in base && Under(p, q)
        ensures q in o.session.tombstones
      {
        UnderIsDirectory(base, p, q);
      }
      NothingUnder(s.overlay, p);
      assert o.session.overlay == Prune(s.overlay, p);
      Bury(groups, s, base, tree, p, {p}, o.session);
    }
  }

  /** The merged listing of a visible directory names exactly the paths below it that show. */
  lemma ListedIsLookup(s: Session, base: Layer, p: Path, name: string)
    requires TreeShaped(s.overlay) && TreeShaped(base)
    requires VisibleDirectory(s, base, p) && (p == [] ==> name != "")
    ensures Listed(s, base, p, name) == Lookup(s, base, p + [name])
  {
    assert Parent(p + [name]) == p;
  }

  /** A base path below a removed directory is buried unless an overlay directory shadowed it. */
  lemma BuriedAt(s: Session, base: Layer, p: Path, q: Path)
    requires Consistent(s, base) && VisibleDirectory(s, base, p)
    requires p != [] && q in base && Under(p, q)
    ensures q in s.tombstones + Buried(s, base, p) <==>
            q in s.tombstones || q in s.overlay || !IsDirectory(s.overlay, q[..|p| + 1])
  {
    var child := q[..|p| + 1];
    assert child == p + [q[|p|]] && Parent(child) == p && child <= q;
    ListedIsLookup(s, base, p, q[|p|]);
    TombstonedChild(s.tombstones, child);
    NothingUnder(base, child);
    NothingUnder(s.overlay, child);
    assert child in base;
    if child in s.tombstones {
      assert child == q || Under(child, q);
    } else if IsFile(s.overlay, child) {
      assert child == q || Under(child, q);
    }
  }

  /** Recursive removal buries all the base content below p exactly when no overlay directory shadows any. */
  lemma BuriedComplete(s: Session, base: Layer, p: Path)
    requires Consistent(s, base) && VisibleDirectory(s, base, p) && p != []
    ensures NothingShadowed(s, base, p) <==>
            forall q :: q in base && Under(p, q) ==> q in s.tombstones + Buried(s, base, p)
  {
    forall q | q in base && Under(p, q)
      ensures q in s.tombstones + Buried(s, base, p) <==>
              q in s.tombstones || q in s.overlay || !IsDirectory(s.overlay, q[..|p| + 1])
    {
      BuriedAt(s, base, p, q);
    }
    forall q | q in base && Under(p, q)
      ensures p <= q[..|p| + 1] && (q == q[..|p| + 1] || Under(q[..|p| + 1], q))
    {
    }
    forall d, q | |d| == |p| + 1 && p <= d && Under(d, q)
      ensures Under(p, q) && d == q[..|p| + 1]
    {
    }
  }

  /** A directory with an empty listing has only tombstones below it in the base. */
  lemma EmptyIsBuried(s: Session, base: Layer, p: Path, q: Path)
    requires Consistent(s, base) && VisibleDirectory(s, base, p) && EmptyDirectory(s, base, p)
    requires p != [] && q in base && Under(p, q)
    ensures q in s.tombstones
  {
    var child := q[..|p| + 1];
    assert child == p + [q[|p|]] && Parent(child) == p;
    assert Lookup(s, base, child).None? by {
      ListedIsLookup(s, base, p, q[|p|]);
    }
    if child == q {
      TombstonedChild(s.tombstones, q);
    } else {
      assert Under(child, q);
      NothingBelow(s, base, child);
    }
  }

  /** The listing is empty exactly when the reference directory has no children. */
  lemma EmptyAgrees(groups: bool, s: Session, base: Layer, tree: Layer, p: Path)
    requires TreeShaped(s.overlay) && TreeShaped(base) && Agree(groups, s, base, tree)
    requires VisibleDirectory(s, base, p) && p != []
    ensures EmptyDirectory(s, base, p) <==> !HasChild(tree, p)
  {
    forall name: string
      ensures Listed(s, base, p, name).Some? <==> p + [name] in tree
    {
      ListedIsLookup(s, base, p, name);
      AgreeAt(groups, s, base, tree, p + [name]);
    }
  }

  lemma RemoveDirectoryStep(groups: bool, s: Session, base: Layer, tree: Layer, p: Path, recursive: bool)
    requires Consistent(s, base) && Agree(groups, s, base, tree) && TreeShaped(tree)
    requires InScope(groups, s, base, RemoveDirectory(p, recursive))
    ensures Simulates(groups, s, base, tree, RemoveDirectory(p, recursive))
  {
    AgreeAt(groups, s, base, tree, p);
    if VisibleDirectory(s, base, p) {
      EmptyAgrees(groups, s, base, tree, p);
      var o := DoRemoveDirectory(s, base, p, recursive);
      if o.ok {
        var buried := if recursive then Buried(s, base, p) else {p};
        assert forall q :: q in base && Under(p, q) ==> q in s.tombstones + buried by {
          if recursive {
            BuriedComplete(s, base, p);
          } else {
            forall q | q in base && Under(p, q)
              ensures q in s.tombstones
            {
              EmptyIsBuried(s, base, p, q);
            }
          }
        }
        Bury(groups, s, base, tree, p, buried, o.session);
      }
    }
  }

  /** An overlay copy of a visible base node, in an overlay directory, changes nothing that shows. */
  lemma PlaceCopy(groups: bool, s: Session, base: Layer, tree: Layer, p: Path, s': Session)
    requires Consistent(s, base) && Agree(groups, s, base, tree)
    requires p != [] && IsDirectory(s.overlay, Parent(p))
    requires p !in s.overlay && p in base && !Tombstoned(s.tombstones, p)
    requires s'.overlay == Put(s.overlay, p, CopyOf(base[p])) && s'.tombstones == s.tombstones
    ensures Consistent(s', base) && Agree(groups, s', base, tree)
  {
    NothingUnder(s.overlay, p);
    PutTreeShaped(s.overlay, p, CopyOf(base[p]));
    assert s'.overlay == s.overlay[p := CopyOf(base[p])];
    forall q: Path
      ensures Shown(groups, Lookup(s', base, q)) == Shown(groups, Find(tree, q))
    {
      assert Shown(groups, Lookup(s, base, q)) == Shown(groups, Find(tree, q));
    }
    NothingUnder(base, p);
    assert forall q :: Under(p, q) ==> p <= q && p != q;
  }

  lemma CopyUpStep(groups: bool, s: Session, base: Layer, tree: Layer, p: Path)
    requires Consistent(s, base) && Agree(groups, s, base, tree) && TreeShaped(tree)
    requires p != [] && VisibleDirectory(s, base, Parent(p))
    ensures var c := CopyUp(s, base, p);
            && Consistent(c.session, base) && Agree(groups, c.session, base, tree)
            && (c.ok ==> p in tree && p in c.session.overlay && c.session.overlay[p].isDir == tree[p].isDir)
            && (!c.ok && p in tree ==> c.session.count >= MAX_FILES_PER_SESSION)
  {
    AgreeAt(groups, s, base, tree, p);
    var c := CopyUp(s, base, p);
    if p !in s.overlay && Lookup(s, base, p).Some? {
      EnsureKeeps(groups, s, base, tree, Parent(p));
      var e := Ensure(s, base, Parent(p), "root");
      if e.ok {
        PlaceCopy(groups, s.(overlay := e.overlay, count := e.count), base, tree, p, c.session);
      }
    }
    AgreeAt(groups, c.session, base, tree, p);
  }

  lemma ChangeMetadataStep(groups: bool, s: Session, base: Layer, tree: Layer, op: Op)
    requires Consistent(s, base) && Agree(groups, s, base, tree) && TreeShaped(tree)
    requires InScope(groups, s, base, op) && (op.Chmod? || op.Chown?)
    ensures Simulates(groups, s, base, tree, op)
  {
    CopyUpStep(groups, s, base, tree, op.path);
    var c := CopyUp(s, base, op.path);
    if c.ok {
      assert Shown(groups, Lookup(c.session, base, op.path)) == Shown(groups, Find(tree, op.path));
      var o := Step(s, base, op);
      Rewrite(groups, c.session, base, tree, op.path, o.session.overlay[op.path], RefStep(tree, op).tree[op.path],
              o.session);
    }
  }

  /** One call in scope: same answer unless the quota is used up, and agreement either way. */
  lemma StepSimulates(groups: bool, s: Session, base: Layer, tree: Layer, op: Op)
    requires Consistent(s, base) && Agree(groups, s, base, tree) && TreeShaped(tree)
    requires InScope(groups, s, base, op)
    ensures Simulates(groups, s, base, tree, op)
  {
    match op
    case CreateFile(p, content, owner, permissions) =>
      CreateFileStep(groups, s, base, tree, p, content, owner, permissions);
    case AppendFile(p, content) => AppendFileStep(groups, s, base, tree, p, content);
    case CreateDirectory(p, owner, parents) => CreateDirectoryStep(groups, s, base, tree, p, owner);
    case RemoveFile(p) => RemoveFileStep(groups, s, base, tree, p);
    case RemoveDirectory(p, recursive) => RemoveDirectoryStep(groups, s, base, tree, p, recursive);
    case Chmod(_, _) => ChangeMetadataStep(groups, s, base, tree, op);
    case Chown(_, _, _) => ChangeMetadataStep(groups, s, base, tree, op);
  }

  /** The groups are kept too, exactly when the call does not append to a base file of another group than "root". */
  lemma GroupsKeptExactly(s: Session, base: Layer, tree: Layer, op: Op)
    requires Consistent(s, base) && Agree(true, s, base, tree) && TreeShaped(tree)
    requires InScope(false, s, base, op) && Step(s, base, op).ok
    ensures Agree(true, Step(s, base, op).session, base, RefStep(tree, op).tree) <==>
            !(op.AppendFile? && LosesGroup(s, base, op.path))
  {
    if op.AppendFile? && LosesGroup(s, base, op.path) {
      var p := op.path;
      assert Shown(true, Lookup(s, base, p)) == Shown(true, Find(tree, p));
      var after, tree' := Step(s, base, op).session, RefStep(tree, op).tree;
      TombstonedChild(after.tombstones, p);
      TombstonedChild(s.tombstones, p);
      TombstonedOutside(s.tombstones, after.tombstones, p, Parent(p));
      assert Lookup(after, base, p).value.group == "root" && tree'[p].group == base[p].group;
      assert Shown(true, Lookup(after, base, p)) != Shown(true, Find(tree', p));
    } else {
      StepSimulates(true, s, base, tree, op);
    }
  }

  // ----- Runs -----

  ghost function Run(s: Session, base: Layer, ops: seq<Op>): Session
    decreases |ops|
  {
    if ops == [] then s else Run(Step(s, base, ops[0]).session, base, ops[1..])
  }

  /** The calls of a run that returned True. */
  ghost function Accepted(s: Session, base: Layer, ops: seq<Op>): seq<Op>
    decreases |ops|
  {
    if ops == [] then
      []
    else
      var o := Step(s, base, ops[0]);
      (if o.ok then [ops[0]] else []) + Accepted(o.session, base, ops[1..])
  }

  ghost predicate RunInScope(groups: bool, s: Session, base: Layer, ops: seq<Op>)
    decreases |ops|
  {
    ops == [] || (InScope(groups, s, base, ops[0]) && RunInScope(groups, Step(s, base, ops[0]).session, base, ops[1..]))
  }

  ghost predicate NoMakeParents(ops: seq<Op>) {
    forall i :: 0 <= i < |ops| && ops[i].CreateDirectory? ==> !ops[i].parents
  }

  ghost function RefRun(tree: Layer, ops: seq<Op>): Layer
    requires NoMakeParents(ops)
    decreases |ops|
  {
    if ops == [] then tree else RefRun(RefStep(tree, ops[0]).tree, ops[1..])
  }

  /** The plain filesystem answers True to every call of the run. */
  ghost predicate RefAcceptsAll(tree: Layer, ops: seq<Op>)
    requires NoMakeParents(ops)
    decreases |ops|
  {
    ops == [] || (RefStep(tree, ops[0]).ok && RefAcceptsAll(RefStep(tree, ops[0]).tree, ops[1..]))
  }

  lemma {:induction false} AcceptedNoMakeParents(groups: bool, s: Session, base: Layer, ops: seq<Op>)
    requires RunInScope(groups, s, base, ops)
    ensures NoMakeParents(Accepted(s, base, ops))
    decreases |ops|
  {
    if ops != [] {
      AcceptedNoMakeParents(groups, Step(s, base, ops[0]).session, base, ops[1..]);
    }
  }

  lemma {:induction false} RunSimulatesFrom(groups: bool, s: Session, base: Layer, tree: Layer, ops: seq<Op>)
    requires Consistent(s, base) && Agree(groups, s, base, tree) && TreeShaped(tree)
    requires RunInScope(groups, s, base, ops)
    ensures NoMakeParents(Accepted(s, base, ops))
    ensures RefAcceptsAll(tree, Accepted(s, base, ops))
    ensures Consistent(Run(s, base, ops), base)
    ensures Agree(groups, Run(s, base, ops), base, RefRun(tree, Accepted(s, base, ops)))
    decreases |ops|
  {
    AcceptedNoMakeParents(groups, s, base, ops);
    if ops != [] {
      StepSimulates(groups, s, base, tree, ops[0]);
      var o := Step(s, base, ops[0]);
      var rest := Accepted(o.session, base, ops[1..]);
      RunSimulatesFrom(groups, o.session, base, if o.ok then RefStep(tree, ops[0]).tree else tree, ops[1..]);
      if o.ok {
        assert Accepted(s, base, ops)[1..] == rest;
      } else {
        assert Accepted(s, base, ops) == rest;
      }
    }
  }

  /**
   The session filesystem is a private copy: after any run in scope it shows exactly what a
   plain filesystem shows that started as a copy of the base and got the accepted calls,
   all of which it accepts too. With `groups`, the groups agree as well, over the runs that
   append to no base file of another group than "root".
   */
  lemma SessionIsPrivateCopy(groups: bool, base: Layer, ops: seq<Op>)
    requires TreeShaped(base) && Shown(groups, Find(base, [])) == Shown(groups, Find(Fresh().overlay, []))
    requires RunInScope(groups, Fresh(), base, ops)
    ensures NoMakeParents(Accepted(Fresh(), base, ops))
    ensures RefAcceptsAll(base, Accepted(Fresh(), base, ops))
    ensures Agree(groups, Run(Fresh(), base, ops), base, RefRun(base, Accepted(Fresh(), base, ops)))
  {
    forall p: Path
      ensures Shown(groups, Lookup(Fresh(), base, p)) == Shown(groups, Find(base, p))
    {
    }
    RunSimulatesFrom(groups, Fresh(), base, base, ops);
  }

  /**
   The nodes handed out have the modes of the plain filesystem, except that a directory whose
   mode was set to "0644" shows the default mode of directories again.
   */
  lemma ModesReturned(base: Layer, ops: seq<Op>, p: Path)
    requires TreeShaped(base) && Shown(false, Find(base, [])) == Shown(false, Find(Fresh().overlay, []))
    requires RunInScope(false, Fresh(), base, ops)
    ensures NoMakeParents(Accepted(Fresh(), base, ops))
    ensures var tree := RefRun(base, Accepted(Fresh(), base, ops));
            var found := Lookup(Run(Fresh(), base, ops), base, p);
            p in tree ==>
              && found.Some?
              && (Returned(found.value).permissions == tree[p].permissions <==>
                    !(tree[p].isDir && tree[p].permissions == "0644"))
  {
    SessionIsPrivateCopy(false, base, ops);
    AgreeAt(false, Run(Fresh(), base, ops), base, RefRun(base, Accepted(Fresh(), base, ops)), p);
  }
}
