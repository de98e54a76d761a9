/** What holds in every state a session can reach, by any calls whatever, `mkdir -p` and writes at the root included. */
module Guarantees {
  import opened Options
  import opened Paths
  import opened Layers
  import opened SessionSpec
  import opened SessionFacts
  import opened Simulation

  /** A base tree with canonical names. */
  ghost predicate BaseTree(base: Layer) {
    TreeShaped(base) && forall q :: q in base ==> Canonical(q)
  }

  /** The overlay locations that the base does not have. */
  ghost function Added(overlay: Layer, base: Layer): set<Path> {
    overlay.Keys - base.Keys
  }

  /** Overlay nodes have canonical paths, but for the nameless child a write at the root makes. */
  ghost predicate WellFormed(s: Session, base: Layer, nameless: bool) {
    && TreeShaped(s.overlay)
    && (forall q :: q in s.overlay ==> Canonical(q) || (nameless && q == [""]))
    && s.count <= MAX_FILES_PER_SESSION + 1
    && |Added(s.overlay, base)| <= s.count
  }

  ghost predicate CanonicalCalls(ops: seq<Op>) {
    forall i :: 0 <= i < |ops| ==> Canonical(ops[i].path)
  }

  lemma {:induction false} SubsetSize<T>(a: set<T>, b: set<T>)
    requires a <= b
    ensures |a| <= |b|
  {
    if a != {} {
      var x :| x in a;
      SubsetSize(a - {x}, b - {x});
    }
  }

  // ----- Each call keeps the state well formed -----

  lemma AddedOne(overlay: Layer, base: Layer, q: Path, after: Layer)
    requires after.Keys <= overlay.Keys + {q}
    ensures |Added(after, base)| <= |Added(overlay, base)| + if q in base then 0 else 1
  {
    SubsetSize(Added(after, base), Added(overlay, base) + if q in base then {} else {q});
  }

  lemma AddedMany(overlay: Layer, base: Layer, after: Layer)
    requires overlay.Keys <= after.Keys
    ensures |Added(after, base)| <= |Added(overlay, base)| + |after| - |overlay|
  {
    var extra := after.Keys - overlay.Keys;
    assert after.Keys == overlay.Keys + extra;
    assert |extra| == |after| - |overlay|;
    SubsetSize(Added(after, base), Added(overlay, base) + extra);
  }

  lemma EnsureWellFormed(s: Session, base: Layer, nameless: bool, dir: Path, owner: string)
    requires WellFormed(s, base, nameless) && Canonical(dir)
    ensures var e := Ensure(s, base, dir, owner);
            && WellFormed(s.(overlay := e.overlay, count := e.count), base, nameless)
            && (e.ok ==> IsDirectory(e.overlay, dir))
            && (s.count < MAX_FILES_PER_SESSION ==> e.count <= MAX_FILES_PER_SESSION)
  {
    EnsureFacts(s, base, dir, owner);
    EnsureCounts(s.overlay, s.count, base, dir, owner, 0);
    AddedMany(s.overlay, base, Ensure(s, base, dir, owner).overlay);
  }

  /** A new node under an existing directory, counted unless the base has its path. */
  lemma PutWellFormed(s: Session, base: Layer, nameless: bool, p: Path, e: Entry, s': Session)
    requires WellFormed(s, base, nameless) && Canonical(p) && IsDirectory(s.overlay, Parent(p))
    requires s'.overlay == Put(s.overlay, Target(p), e)
    requires s'.count == s.count + 1 <= MAX_FILES_PER_SESSION + 1 || (s'.count == s.count && Target(p) in base)
    ensures WellFormed(s', base, nameless || p == [])
  {
    assert Parent(Target(p)) == Parent(p);
    PutTreeShaped(s.overlay, Target(p), e);
    AddedOne(s.overlay, base, Target(p), s'.overlay);
  }

  lemma PruneWellFormed(s: Session, base: Layer, nameless: bool, q: Path, s': Session)
    requires WellFormed(s, base, nameless) && q != []
    requires s'.overlay == Prune(s.overlay, q) && s'.count == s.count
    ensures WellFormed(s', base, nameless)
  {
    PruneTreeShaped(s.overlay, q);
    SubsetSize(Added(s'.overlay, base), Added(s.overlay, base));
  }

  /** Rewriting nodes in place changes neither shape nor count. */
  lemma RewriteWellFormed(s: Session, base: Layer, nameless: bool, p: Path, e: Entry, s': Session)
    requires WellFormed(s, base, nameless) && p in s.overlay && e.isDir == s.overlay[p].isDir
    requires s'.overlay == s.overlay[p := e] && s'.count == s.count
    ensures WellFormed(s', base, nameless)
  {
    RewriteTree(s.overlay, p, e);
    assert s'.overlay.Keys == s.overlay.Keys;
  }

  lemma CreateFileWellFormed(s: Session, base: Layer, nameless: bool, p: Path,
                             content: string, owner: string, permissions: string)
    requires WellFormed(s, base, nameless) && Canonical(p)
    ensures WellFormed(DoCreateFile(s, base, p, content, owner, permissions).session, base, nameless || p == [])
  {
    if s.count < MAX_FILES_PER_SESSION {
      EnsureWellFormed(s, base, nameless, Parent(p), "root");
      var e := Ensure(s, base, Parent(p), "root");
      if e.ok {
        PutWellFormed(s.(overlay := e.overlay, count := e.count), base, nameless, p, NewFile(content, owner, permissions),
                      DoCreateFile(s, base, p, content, owner, permissions).session);
      }
    }
  }

  lemma AppendFileWellFormed(s: Session, base: Layer, nameless: bool, p: Path, content: string)
    requires WellFormed(s, base, nameless) && Canonical(p)
    ensures WellFormed(DoAppendFile(s, base, p, content).session, base, nameless || p == [])
  {
    var o := DoAppendFile(s, base, p, content);
    if IsFile(s.overlay, p) {
      RewriteWellFormed(s, base, nameless, p, o.session.overlay[p], o.session);
    } else {
      CreateFileWellFormed(s, base, nameless, p, content, "root", "0644");
      if p in base {
        CreateFileWellFormed(s, base, nameless, p, base[p].content + content, base[p].owner, base[p].permissions);
      }
    }
  }

  lemma CreateDirectoryWellFormed(s: Session, base: Layer, nameless: bool, p: Path, owner: string, parents: bool)
    requires WellFormed(s, base, nameless) && Canonical(p)
    ensures WellFormed(DoCreateDirectory(s, base, p, owner, parents).session, base, nameless || p == [])
  {
    if s.count < MAX_FILES_PER_SESSION {
      if parents {
        EnsureWellFormed(s, base, nameless, p, owner);
      } else if Lookup(s, base, p).None? {
        EnsureWellFormed(s, base, nameless, Parent(p), "root");
        var e := Ensure(s, base, Parent(p), "root");
        if e.ok {
          PutWellFormed(s.(overlay := e.overlay, count := e.count), base, nameless, p, NewDirectory(owner),
                        DoCreateDirectory(s, base, p, owner, parents).session);
        }
      }
    }
  }

  lemma RemoveFileWellFormed(s: Session, base: Layer, nameless: bool, p: Path)
    requires WellFormed(s, base, nameless)
    ensures WellFormed(DoRemoveFile(s, base, p).session, base, nameless)
  {
    if IsFile(s.overlay, Target(p)) {
      PruneWellFormed(s, base, nameless, Target(p), DoRemoveFile(s, base, p).session);
    }
  }

  lemma RemoveDirectoryWellFormed(s: Session, base: Layer, nameless: bool, p: Path, recursive: bool)
    requires WellFormed(s, base, nameless)
    ensures WellFormed(DoRemoveDirectory(s, base, p, recursive).session, base, nameless)
  {
    var o := DoRemoveDirectory(s, base, p, recursive);
    if o.ok {
      PruneWellFormed(s, base, nameless, p, o.session);
    }
  }

  lemma CopyUpWellFormed(s: Session, base: Layer, nameless: bool, p: Path)
    requires WellFormed(s, base, nameless) && Canonical(p)
    ensures WellFormed(CopyUp(s, base, p).session, base, nameless)
  {
    if !Tombstoned(s.tombstones, p) && p !in s.overlay && p in base {
      EnsureWellFormed(s, base, nameless, Parent(p), "root");
      var e := Ensure(s, base, Parent(p), "root");
      if e.ok {
        PutWellFormed(s.(overlay := e.overlay, count := e.count), base, nameless, p, CopyOf(base[p]),
                      CopyUp(s, base, p).session);
      }
    }
  }

  lemma MetadataWellFormed(s: Session, base: Layer, nameless: bool, op: Op)
    requires WellFormed(s, base, nameless) && Canonical(op.path) && (op.Chmod? || op.Chown?)
    ensures WellFormed(Step(s, base, op).session, base, nameless)
  {
    CopyUpWellFormed(s, base, nameless, op.path);
    var c := CopyUp(s, base, op.path);
    if c.ok {
      var o := Step(s, base, op);
      RewriteWellFormed(c.session, base, nameless, op.path, o.session.overlay[op.path], o.session);
    }
  }

  lemma StepWellFormed(s: Session, base: Layer, nameless: bool, op: Op)
    requires WellFormed(s, base, nameless) && Canonical(op.path)
    ensures WellFormed(Step(s, base, op).session, base, nameless || op.path == [])
  {
    match op
    case CreateFile(p, content, owner, permissions) =>
      CreateFileWellFormed(s, base, nameless, p, content, owner, permissions);
    case AppendFile(p, content) => AppendFileWellFormed(s, base, nameless, p, content);
    case CreateDirectory(p, owner, parents) => CreateDirectoryWellFormed(s, base, nameless, p, owner, parents);
    case RemoveFile(p) => RemoveFileWellFormed(s, base, nameless, p);
    case RemoveDirectory(p, recursive) => RemoveDirectoryWellFormed(s, base, nameless, p, recursive);
    case Chmod(_, _) => MetadataWellFormed(s, base, nameless, op);
    case Chown(_, _, _) => MetadataWellFormed(s, base, nameless, op);
  }

  lemma {:induction false} RunWellFormed(s: Session, base: Layer, nameless: bool, ops: seq<Op>)
    requires WellFormed(s, base, nameless) && CanonicalCalls(ops)
    requires !nameless ==> forall i :: 0 <= i < |ops| ==> ops[i].path != []
    ensures WellFormed(Run(s, base, ops), base, nameless)
    decreases |ops|
  {
    if ops != [] {
      StepWellFormed(s, base, nameless, ops[0]);
      RunWellFormed(Step(s, base, ops[0]).session, base, nameless, ops[1..]);
    }
  }

  lemma FreshWellFormed(base: Layer, nameless: bool)
    requires BaseTree(base)
    ensures WellFormed(Fresh(), base, nameless)
  {
    assert Added(Fresh().overlay, base) == {};
  }

  // ----- Quota -----

  /**
   Over any run the counter exceeds its limit by at most one, and the overlay nodes below the
   root are at most that many plus the base nodes below the root: only copies of base nodes
   go uncounted.
   */
  lemma QuotaBound(base: Layer, ops: seq<Op>)
    requires BaseTree(base) && CanonicalCalls(ops)
    ensures var s := Run(Fresh(), base, ops);
            && s.count <= MAX_FILES_PER_SESSION + 1
            && |s.overlay.Keys - {[]}| <= MAX_FILES_PER_SESSION + 1 + |base.Keys - {[]}|
  {
    FreshWellFormed(base, true);
    RunWellFormed(Fresh(), base, true, ops);
    var s := Run(Fresh(), base, ops);
    SubsetSize(s.overlay.Keys - {[]}, Added(s.overlay, base) + (base.Keys - {[]}));
    assert Added(s.overlay, base) !! base.Keys - {[]};
  }

  /** The quota does not stop copies: a metadata change of a base node adds an overlay node without counting it. */
  lemma CopiesEscapeQuota(s: Session, base: Layer, p: Path, permissions: string)
    requires TreeShaped(s.overlay) && s.count >= MAX_FILES_PER_SESSION
    requires p in base && p !in s.overlay && !Tombstoned(s.tombstones, p) && p != []
    ensures var o := DoChmod(s, base, p, permissions);
            && (o.ok <==> IsDirectory(s.overlay, Parent(p)))
            && o.session.count == s.count
            && (o.ok ==> |o.session.overlay| == |s.overlay| + 1)
  {
    var dir := Parent(p);
    EnsureFull(s, base, dir, 0);
    var o := DoChmod(s, base, p, permissions);
    if o.ok {
      NothingUnder(s.overlay, p);
      assert Put(s.overlay, p, CopyOf(base[p])).Keys == s.overlay.Keys + {p};
      assert o.session.overlay.Keys == s.overlay.Keys + {p};
    }
  }

  /** With the quota used up the bookkeeping adds nothing, and succeeds where the directory is already there. */
  lemma {:induction false} EnsureFull(s: Session, base: Layer, dir: Path, k: nat)
    requires TreeShaped(s.overlay) && k <= |dir| && IsDirectory(s.overlay, dir[..k])
    requires s.count >= MAX_FILES_PER_SESSION
    ensures EnsureFrom(s.overlay, s.count, base, dir, "root", k)
            == Ensured(s.overlay, s.count, IsDirectory(s.overlay, dir))
    decreases |dir| - k
  {
    if k < |dir| {
      var q := dir[..k + 1];
      if IsDirectory(s.overlay, q) {
        EnsureFull(s, base, dir, k + 1);
      } else if dir in s.overlay {
        NothingUnder(s.overlay, q);
        assert q <= dir;
      }
    } else {
      assert dir[..k] == dir;
    }
  }

  // ----- Listing and lookup -----

  /**
   A directory's listing and lookups below it agree: a visible directory lists exactly the
   components whose paths resolve, and for each the node its path resolves to.
   */
  ghost predicate ListingSound(s: Session, base: Layer) {
    forall p, name :: VisibleDirectory(s, base, p) ==>
      Listed(s, base, p, name) == if IsComponent(name) then Lookup(s, base, p + [name]) else None
  }

  /** The root lists a nameless entry. */
  predicate NamelessShown(s: Session) {
    [""] in s.overlay && [] !in s.tombstones
  }

  lemma RootTombstoned(tombstones: set<Path>)
    ensures Tombstoned(tombstones, []) <==> [] in tombstones
  {
    var root: Path := [];
    assert root[..0] == [];
  }

  /** The listing agrees with lookups exactly when the root lists no nameless entry. */
  lemma SoundExactly(s: Session, base: Layer)
    requires WellFormed(s, base, true) && BaseTree(base)
    ensures ListingSound(s, base) <==> !NamelessShown(s)
  {
    RootTombstoned(s.tombstones);
    if NamelessShown(s) {
      assert VisibleDirectory(s, base, []) && !IsComponent("");
      assert [] + [""] == [""];
      assert Listed(s, base, [], "").Some?;
    } else {
      forall p, name | VisibleDirectory(s, base, p)
        ensures Listed(s, base, p, name) == if IsComponent(name) then Lookup(s, base, p + [name]) else None
      {
        if IsComponent(name) {
          ListedIsLookup(s, base, p, name);
        } else {
          NotComponent(s, base, p, name);
        }
      }
    }
  }

  lemma NotComponent(s: Session, base: Layer, p: Path, name: string)
    requires WellFormed(s, base, true) && BaseTree(base) && !NamelessShown(s) && !IsComponent(name)
    ensures Listed(s, base, p, name).None?
  {
    RootTombstoned(s.tombstones);
    var child := p + [name];
    assert !Canonical(child) by {
      assert child[|p|] == name;
    }
    if child == [""] {
      assert |p| == 0 && child[0] == name;
    }
  }

  /** A call that puts a node at the root: it lands on a child without a name. */
  predicate RootWrite(op: Op) {
    op.path == [] && (op.CreateFile? || op.AppendFile? || (op.CreateDirectory? && !op.parents))
  }

  /** The removal that takes it away; it buries the root with everything below. */
  predicate RootRemoval(op: Op) {
    op.RemoveFile? && op.path == []
  }

  /** A call that digs the root up again. */
  predicate RootUnburied(op: Op) {
    RootWrite(op) || (op.CreateDirectory? && op.path == [])
  }

  /** No canonical path runs through the nameless child, and only the root leads to it. */
  lemma NotNameless(p: Path)
    requires Canonical(p)
    ensures !([""] <= p) && (p <= [""] ==> p == [])
  {
    if p != [] {
      assert IsComponent(p[0]);
    }
  }

  lemma EnsureNameless(s: Session, base: Layer, dir: Path, owner: string)
    requires TreeShaped(s.overlay) && Canonical(dir)
    ensures [""] in Ensure(s, base, dir, owner).overlay <==> [""] in s.overlay
  {
    EnsureFacts(s, base, dir, owner);
    NotNameless(dir);
  }

  /** Whether the nameless entry is in the overlay, and the root buried, after a call. */
  ghost predicate RootMoves(s: Session, op: Op, o: Outcome) {
    && ([""] in o.session.overlay <==>
          if o.ok && RootWrite(op) then true else if o.ok && RootRemoval(op) then false else [""] in s.overlay)
    && ([] in o.session.tombstones <==>
          if o.ok && RootUnburied(op) then false else if o.ok && RootRemoval(op) then true else [] in s.tombstones)
  }

  lemma RootCreateFile(s: Session, base: Layer, p: Path, content: string, owner: string, permissions: string)
    requires WellFormed(s, base, true) && Canonical(p)
    ensures RootMoves(s, CreateFile(p, content, owner, permissions), DoCreateFile(s, base, p, content, owner, permissions))
  {
    EnsureNameless(s, base, Parent(p), "root");
    NotNameless(p);
  }

  lemma RootCreateDirectory(s: Session, base: Layer, p: Path, owner: string, parents: bool)
    requires WellFormed(s, base, true) && Canonical(p)
    ensures RootMoves(s, CreateDirectory(p, owner, parents), DoCreateDirectory(s, base, p, owner, parents))
  {
    EnsureNameless(s, base, Parent(p), "root");
    EnsureNameless(s, base, p, owner);
    NotNameless(p);
  }

  lemma RootCopyUp(s: Session, base: Layer, p: Path)
    requires WellFormed(s, base, true) && Canonical(p)
    ensures var c := CopyUp(s, base, p).session;
            ([""] in c.overlay <==> [""] in s.overlay) && c.tombstones == s.tombstones
  {
    EnsureNameless(s, base, Parent(p), "root");
    NotNameless(p);
  }

  /** Which calls make the nameless entry and which take it away; refused calls do neither. */
  lemma RootStep(s: Session, base: Layer, op: Op)
    requires WellFormed(s, base, true) && BaseTree(base) && Canonical(op.path)
    ensures RootMoves(s, op, Step(s, base, op))
  {
    hide WellFormed, DoCreateFile, DoCreateDirectory, CopyUp;
    NotNameless(op.path);
    match op
    case CreateFile(p, content, owner, permissions) => RootCreateFile(s, base, p, content, owner, permissions);
    case AppendFile(p, content) => RootAppendFile(s, base, p, content);
    case CreateDirectory(p, owner, parents) => RootCreateDirectory(s, base, p, owner, parents);
    case RemoveFile(_) =>
    case RemoveDirectory(_, _) =>
    case Chmod(p, _) => RootCopyUp(s, base, p);
    case Chown(p, _, _) => RootCopyUp(s, base, p);
  }

  lemma RootAppendFile(s: Session, base: Layer, p: Path, content: string)
    requires WellFormed(s, base, true) && BaseTree(base) && Canonical(p)
    ensures RootMoves(s, AppendFile(p, content), DoAppendFile(s, base, p, content))
  {
    assert IsDirectory(s.overlay, []);
    hide WellFormed, DoCreateFile;
    NotNameless(p);
    RootCreateFile(s, base, p, content, "root", "0644");
    if p in base {
      RootCreateFile(s, base, p, base[p].content + content, base[p].owner, base[p].permissions);
    }
  }

  /** Of the accepted calls so far, a write at the root came after every removal there. */
  predicate RootWritten(calls: seq<Op>) {
    calls != [] &&
    var last := calls[|calls| - 1];
    (RootWrite(last) || (!RootRemoval(last) && RootWritten(calls[..|calls| - 1])))
  }

  /** The nameless entry is there after the calls that say so, and then the root is not buried. */
  ghost predicate RootFollows(s: Session, calls: seq<Op>) {
    ([""] in s.overlay <==> RootWritten(calls)) && ([""] in s.overlay ==> [] !in s.tombstones)
  }

  lemma RootFollowsNext(s: Session, calls: seq<Op>, op: Op, o: Outcome)
    requires RootFollows(s, calls) && RootMoves(s, op, o)
    ensures RootFollows(o.session, calls + if o.ok then [op] else [])
  {
    assert (calls + [op])[..|calls|] == calls && calls + [] == calls;
  }

  lemma {:induction false} RootRun(s: Session, base: Layer, calls: seq<Op>, ops: seq<Op>)
    requires WellFormed(s, base, true) && BaseTree(base) && CanonicalCalls(ops) && RootFollows(s, calls)
    ensures WellFormed(Run(s, base, ops), base, true)
    ensures RootFollows(Run(s, base, ops), calls + Accepted(s, base, ops))
    decreases |ops|
  {
    hide WellFormed, Step, RootMoves, RootFollows, BaseTree;
    if ops == [] {
      assert calls + Accepted(s, base, ops) == calls;
    } else {
      var op := ops[0];
      var o := Step(s, base, op);
      StepWellFormed(s, base, true, op);
      RootStep(s, base, op);
      RootFollowsNext(s, calls, op, o);
      var more := if o.ok then [op] else [];
      RootRun(o.session, base, calls + more, ops[1..]);
      assert calls + more + Accepted(o.session, base, ops[1..]) == calls + Accepted(s, base, ops);
    }
  }

  lemma RootAfter(base: Layer, ops: seq<Op>)
    requires BaseTree(base) && CanonicalCalls(ops)
    ensures WellFormed(Run(Fresh(), base, ops), base, true)
    ensures RootFollows(Run(Fresh(), base, ops), Accepted(Fresh(), base, ops))
  {
    hide Run, Accepted, WellFormed, BaseTree, CanonicalCalls;
    FreshWellFormed(base, true);
    assert RootFollows(Fresh(), []);
    hide RootFollows;
    RootRun(Fresh(), base, [], ops);
    assert [] + Accepted(Fresh(), base, ops) == Accepted(Fresh(), base, ops);
  }

  /**
   Over any run, listing and lookup agree exactly when no accepted call has written at the root
   since the last accepted removal there.
   */
  lemma ListingAgrees(base: Layer, ops: seq<Op>)
    requires BaseTree(base) && CanonicalCalls(ops)
    ensures ListingSound(Run(Fresh(), base, ops), base) <==> !RootWritten(Accepted(Fresh(), base, ops))
  {
    RootAfter(base, ops);
    SoundExactly(Run(Fresh(), base, ops), base);
  }

  /** Any accepted write at the root lists a nameless entry, though its path names the root directory. */
  lemma RootWriteBreaksListing(s: Session, base: Layer, op: Op)
    requires WellFormed(s, base, true) && BaseTree(base) && RootWrite(op) && Step(s, base, op).ok
    ensures var after := Step(s, base, op).session;
            VisibleDirectory(after, base, []) && Listed(after, base, [], "").Some? && !ListingSound(after, base)
  {
    var after := Step(s, base, op).session;
    RootStep(s, base, op);
    StepWellFormed(s, base, true, op);
    SoundExactly(after, base);
    RootTombstoned(after.tombstones);
    assert [] + [""] == [""];
  }

  /** A fresh session accepts such a write. */
  lemma RootWriteAccepted(base: Layer, content: string)
    ensures Step(Fresh(), base, CreateFile([], content, "root", "0644")).ok
  {
  }

  // ----- Remove and recreate -----

  /** Recursive removal hides the subtree at p and nothing else. */
  lemma RemovalHidesSubtree(s: Session, base: Layer, p: Path, q: Path)
    requires DoRemoveDirectory(s, base, p, true).ok
    ensures var after := DoRemoveDirectory(s, base, p, true).session;
            Lookup(after, base, q) == if p <= q then None else Lookup(s, base, q)
  {
    var after := DoRemoveDirectory(s, base, p, true).session;
    if p <= q {
      assert q[..|p|] == p;
    } else {
      TombstonedOutside(s.tombstones, after.tombstones, p, q);
    }
  }

  /** Nothing below a directory that was removed and made again shows, whatever the base still holds there. */
  lemma RecreatedIsEmpty(s: Session, base: Layer, p: Path, owner: string)
    requires WellFormed(s, base, true) && BaseTree(base) && Canonical(p)
    requires DoRemoveDirectory(s, base, p, true).ok
    requires DoCreateDirectory(DoRemoveDirectory(s, base, p, true).session, base, p, owner, false).ok
    ensures var again := DoCreateDirectory(DoRemoveDirectory(s, base, p, true).session, base, p, owner, false).session;
            && Lookup(again, base, p) == Some(NewDirectory(owner))
            && (forall q :: Under(p, q) ==> Lookup(again, base, q).None?)
            && EmptyDirectory(again, base, p)
  {
    var after := DoRemoveDirectory(s, base, p, true).session;
    PruneWellFormed(s, base, true, p, after);
    EnsureWellFormed(after, base, true, Parent(p), "root");
    EnsureFacts(after, base, Parent(p), "root");
    var again := DoCreateDirectory(after, base, p, owner, false).session;
    RecreatedShows(s, base, p);
    forall q | Under(p, q)
      ensures Lookup(again, base, q).None?
    {
      assert q !in again.overlay;
      if q in base {
        RecreatedHides(s, base, p, q);
      }
    }
    assert TreeShaped(again.overlay) by {
      CreateDirectoryWellFormed(after, base, true, p, owner, false);
    }
    forall name: string
      ensures Listed(again, base, p, name).None?
    {
      ListedIsLookup(again, base, p, name);
    }
  }

  lemma RecreatedShows(s: Session, base: Layer, p: Path)
    requires DoRemoveDirectory(s, base, p, true).ok
    ensures !Tombstoned(DoRemoveDirectory(s, base, p, true).session.tombstones - {p}, p)
  {
    var buried := DoRemoveDirectory(s, base, p, true).session.tombstones;
    TombstonedChild(s.tombstones, p);
    TombstonedChild(buried - {p}, p);
    TombstonedOutside(s.tombstones, buried - {p}, p, Parent(p));
  }

  /** Each base child of the removed directory has its own tombstone, which hides what is below. */
  lemma RecreatedHides(s: Session, base: Layer, p: Path, q: Path)
    requires TreeShaped(s.overlay) && TreeShaped(base)
    requires DoRemoveDirectory(s, base, p, true).ok
    requires q in base && Under(p, q)
    ensures Tombstoned(DoRemoveDirectory(s, base, p, true).session.tombstones - {p}, q)
  {
    var child := q[..|p| + 1];
    assert child == p + [q[|p|]] && Parent(child) == p && child <= q;
    assert child in base by {
      if child != q {
        UnderIsDirectory(base, child, q);
      }
    }
    ListedIsLookup(s, base, p, q[|p|]);
    TombstonedChild(s.tombstones, child);
    assert child in DoRemoveDirectory(s, base, p, true).session.tombstones - {p};
  }
}
