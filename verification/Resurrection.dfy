/**
 The exact limit of the private-copy promise for recursive removal. The removal walks a
 child that the overlay holds in the overlay only, so base content that an overlay directory
 shadows keeps no tombstone of its own: making the directories again brings it back.
 */
module Resurrection {
  import opened Options
  import opened Paths
  import opened Layers
  import opened SessionSpec
  import opened ReferenceSpec
  import opened SessionFacts
  import opened Simulation

  /** Calls that make q's ancestors again, from the one of length k on. */
  function Rebuild(q: Path, k: nat): (ops: seq<Op>)
    requires k <= |q|
    ensures NoMakeParents(ops)
    decreases |q| - k
  {
    if k == |q| then [] else [CreateDirectory(q[..k], "root", false)] + Rebuild(q, k + 1)
  }

  /** An un-tombstoned base path below p all of whose ancestors from p on are tombstoned. */
  lemma {:induction false} FirstUnburied(base: Layer, tombstones: set<Path>, p: Path, q: Path) returns (first: Path)
    requires TreeShaped(base) && p in tombstones
    requires q in base && Under(p, q) && q !in tombstones
    ensures first in base && Under(p, first) && first !in tombstones
    ensures forall x :: x <= first && |p| <= |x| < |first| ==> x in tombstones
    decreases |q|
  {
    if x :| x <= q && |p| <= |x| < |q| && x !in tombstones {
      assert q[..|x|] == x && q[..|p|] == p == x[..|p|];
      PrefixesAreDirectories(base, q, |x|);
      first := FirstUnburied(base, tombstones, p, x);
    } else {
      first := q;
    }
  }

  /** Everything up to the ancestor of length k - 1 shows again, the rest up to q is still buried. */
  ghost predicate Rebuilt(s: Session, base: Layer, tree: Layer, q: Path, k: nat)
    requires 0 < k <= |q|
  {
    && TreeShaped(s.overlay) && TreeShaped(tree)
    && VisibleDirectory(s, base, q[..k - 1]) && IsDirectory(tree, q[..k - 1])
    && (forall x :: x <= q && |x| < k ==> !IsFile(s.overlay, x))
    && (forall x :: x <= q && k <= |x| < |q| ==> x in s.tombstones)
    && (forall x :: x in s.overlay || x in tree ==> !(q[..k] <= x))
    && q in base && q !in s.tombstones
  }

  /** The quota leaves room to make the ancestors of q from length k on. */
  ghost predicate Room(s: Session, q: Path, k: nat)
    requires 0 < k <= |q|
  {
    || s.count + |q| <= MAX_FILES_PER_SESSION
    || ((forall x :: x <= q && |x| < k ==> x in s.overlay) && s.count + |q| - k <= MAX_FILES_PER_SESSION)
  }

  lemma RebuildEnsure(s: Session, base: Layer, tree: Layer, q: Path, k: nat)
    requires 0 < k < |q| && Rebuilt(s, base, tree, q, k) && Room(s, q, k)
    ensures var e := Ensure(s, base, q[..k - 1], "root");
            && e.ok && TreeShaped(e.overlay)
            && e.count + |q| - k <= MAX_FILES_PER_SESSION
            && Extended(s.overlay, e.overlay, base, q[..k - 1], "root", 0)
            && (forall x :: x <= q && |x| < k ==> IsDirectory(e.overlay, x))
            && s.count < MAX_FILES_PER_SESSION
  {
    var dir := q[..k - 1];
    EnsureFacts(s, base, dir, "root");
    EnsureCounts(s.overlay, s.count, base, dir, "root", 0);
    assert forall j :: 0 <= j <= k - 1 ==> dir[..j] <= q;
    var e := Ensure(s, base, dir, "root");
    forall x | x <= q && |x| < k
      ensures IsDirectory(e.overlay, x)
    {
      assert x == q[..|x|] == dir[..|x|];
      if |x| < k - 1 {
        PrefixesAreDirectories(e.overlay, dir, |x|);
      } else {
        assert x == dir;
      }
    }
  }

  /** Both filesystems make the directory. */
  lemma RebuildCall(groups: bool, s: Session, base: Layer, tree: Layer, q: Path, k: nat)
    requires 0 < k < |q| && Rebuilt(s, base, tree, q, k) && Room(s, q, k)
    ensures var p := q[..k];
            var op := CreateDirectory(p, "root", false);
            var e := Ensure(s, base, q[..k - 1], "root");
            var o := Step(s, base, op);
            && InScope(groups, s, base, op) && o.ok
            && o.session.overlay == Put(e.overlay, p, NewDirectory("root"))
            && o.session.tombstones == s.tombstones - {p}
            && o.session.count == e.count + 1
            && RefStep(tree, op) == Reply(Put(tree, p, NewDirectory("root")), true)
  {
    var p := q[..k];
    assert Parent(p) == q[..k - 1] && p <= p;
    TombstonedChild(s.tombstones, p);
    RebuildEnsure(s, base, tree, q, k);
  }

  /** The directory that was made shows, in a well-shaped overlay that has all its ancestors. */
  lemma RebuildShows(s: Session, base: Layer, tree: Layer, q: Path, k: nat, overlay: Layer, s': Session)
    requires 0 < k < |q| && Rebuilt(s, base, tree, q, k)
    requires TreeShaped(overlay) && forall x :: x <= q && |x| < k ==> IsDirectory(overlay, x)
    requires s'.overlay == Put(overlay, q[..k], NewDirectory("root"))
    requires s'.tombstones == s.tombstones - {q[..k]}
    ensures TreeShaped(s'.overlay) && VisibleDirectory(s', base, q[..k])
    ensures forall x :: x <= q && |x| < k + 1 ==> IsDirectory(s'.overlay, x)
  {
    var p := q[..k];
    assert Parent(p) == q[..k - 1];
    assert IsDirectory(overlay, Parent(p));
    PutTreeShaped(overlay, p, NewDirectory("root"));
    Untombstone(s, base, p, p);
    forall x | x <= q && |x| < k + 1
      ensures IsDirectory(s'.overlay, x)
    {
      assert |x| == k ==> x == q[..|x|] == p;
    }
  }

  /** The state after the directory was made: one ancestor more shows again. */
  lemma RebuildState(s: Session, base: Layer, tree: Layer, q: Path, k: nat, overlay: Layer, s': Session)
    requires 0 < k < |q| && Rebuilt(s, base, tree, q, k)
    requires TreeShaped(overlay) && forall x :: x <= q && |x| < k ==> IsDirectory(overlay, x)
    requires s'.overlay == Put(overlay, q[..k], NewDirectory("root"))
    requires s'.tombstones == s.tombstones - {q[..k]}
    ensures Rebuilt(s', base, Put(tree, q[..k], NewDirectory("root")), q, k + 1)
    ensures forall x :: x <= q && |x| < k + 1 ==> x in s'.overlay
  {
    var p := q[..k];
    assert Parent(p) == q[..k - 1];
    RebuildShows(s, base, tree, q, k, overlay, s');
    PutTreeShaped(tree, p, NewDirectory("root"));
    forall x | q[..k + 1] <= x
      ensures x !in s'.overlay && x !in Put(tree, p, NewDirectory("root"))
    {
      assert p <= x && x != p;
    }
  }

  /** One directory more is made again, in both filesystems. */
  lemma RebuildOne(groups: bool, s: Session, base: Layer, tree: Layer, q: Path, k: nat)
    requires 0 < k < |q| && Rebuilt(s, base, tree, q, k) && Room(s, q, k)
    ensures var op := CreateDirectory(q[..k], "root", false);
            var o := Step(s, base, op);
            && InScope(groups, s, base, op) && o.ok && RefStep(tree, op).ok
            && Rebuilt(o.session, base, RefStep(tree, op).tree, q, k + 1) && Room(o.session, q, k + 1)
  {
    RebuildCall(groups, s, base, tree, q, k);
    RebuildEnsure(s, base, tree, q, k);
    var e := Ensure(s, base, q[..k - 1], "root");
    RebuildState(s, base, tree, q, k, e.overlay, DoCreateDirectory(s, base, q[..k], "root", false).session);
  }

  /** One accepted call in front of a run of accepted calls. */
  lemma RunFirst(groups: bool, s: Session, base: Layer, tree: Layer, op: Op, rest: seq<Op>)
    requires Step(s, base, op).ok && NoMakeParents(rest) && (op.CreateDirectory? ==> !op.parents)
    requires Accepted(Step(s, base, op).session, base, rest) == rest
    ensures NoMakeParents([op] + rest)
    ensures InScope(groups, s, base, op) && RunInScope(groups, Step(s, base, op).session, base, rest) ==>
              RunInScope(groups, s, base, [op] + rest)
    ensures Accepted(s, base, [op] + rest) == [op] + rest
    ensures Run(s, base, [op] + rest) == Run(Step(s, base, op).session, base, rest)
    ensures RefRun(tree, [op] + rest) == RefRun(RefStep(tree, op).tree, rest)
    ensures RefStep(tree, op).ok && RefAcceptsAll(RefStep(tree, op).tree, rest) ==> RefAcceptsAll(tree, [op] + rest)
  {
    var ops := [op] + rest;
    assert ops[0] == op && ops[1..] == rest;
  }

  /** Making the ancestors again makes q visible, though the plain filesystem has nothing there. */
  lemma {:induction false} RebuildAll(groups: bool, s: Session, base: Layer, tree: Layer, q: Path, k: nat)
    requires 0 < k <= |q| && Rebuilt(s, base, tree, q, k) && Room(s, q, k)
    ensures RunInScope(groups, s, base, Rebuild(q, k))
    ensures Accepted(s, base, Rebuild(q, k)) == Rebuild(q, k)
    ensures Lookup(Run(s, base, Rebuild(q, k)), base, q) == Some(base[q])
    ensures RefAcceptsAll(tree, Rebuild(q, k)) && q !in RefRun(tree, Rebuild(q, k))
    decreases |q| - k
  {
    if k == |q| {
      assert q[..k] == q && Parent(q) == q[..k - 1] && q <= q;
      TombstonedChild(s.tombstones, q);
    } else {
      var op := CreateDirectory(q[..k], "root", false);
      RebuildOne(groups, s, base, tree, q, k);
      RebuildAll(groups, Step(s, base, op).session, base, RefStep(tree, op).tree, q, k + 1);
      RunFirst(groups, s, base, tree, op, Rebuild(q, k + 1));
    }
  }

  /** Right after a removal that buried too little, the ancestors of an unburied path wait to be made again. */
  lemma RemovedIsRebuilt(groups: bool, s: Session, base: Layer, tree: Layer, p: Path, q: Path, buried: set<Path>,
                         after: Session)
    requires Consistent(s, base) && Agree(groups, s, base, tree) && TreeShaped(tree)
    requires p != [] && VisibleDirectory(s, base, p)
    requires after.overlay == Prune(s.overlay, p)
    requires after.tombstones == s.tombstones + buried && forall x :: x in buried ==> p <= x
    requires q in base && Under(p, q) && q !in after.tombstones
    requires forall x :: x <= q && |p| <= |x| < |q| ==> x in after.tombstones
    ensures Rebuilt(after, base, Prune(tree, p), q, |p|)
  {
    assert q[..|p|] == p && q[..|p| - 1] == Parent(p) == p[..|p| - 1];
    PruneTreeShaped(s.overlay, p);
    PruneTreeShaped(tree, p);
    VisibleAbove(groups, s, base, tree, p, |p| - 1);
    TombstonedOutside(s.tombstones, after.tombstones, p, Parent(p));
    forall x | x <= q && |x| < |p|
      ensures !IsFile(after.overlay, x)
    {
      VisibleAbove(groups, s, base, tree, p, |x|);
      assert p[..|x|] == x;
    }
    AgreeAt(groups, s, base, tree, Parent(p));
  }

  /** A removal that shadows base content leaves a base path that waits to be brought back. */
  lemma RemovalLeaves(groups: bool, s: Session, base: Layer, tree: Layer, p: Path) returns (q: Path)
    requires Consistent(s, base) && Agree(groups, s, base, tree) && TreeShaped(tree)
    requires p != [] && VisibleDirectory(s, base, p) && !NothingShadowed(s, base, p)
    ensures q in base && Under(p, q)
    ensures Rebuilt(DoRemoveDirectory(s, base, p, true).session, base, Prune(tree, p), q, |p|)
  {
    BuriedComplete(s, base, p);
    var buried := Buried(s, base, p);
    var after := DoRemoveDirectory(s, base, p, true).session;
    var x :| x in base && Under(p, x) && x !in s.tombstones + buried;
    q := FirstUnburied(base, after.tombstones, p, x);
    RemovedIsRebuilt(groups, s, base, tree, p, q, buried, after);
  }

  /** After a removal that buried too little, some base path can be brought back. */
  lemma RemovalResurrects(groups: bool, s: Session, base: Layer, tree: Layer, p: Path) returns (q: Path)
    requires Consistent(s, base) && Agree(groups, s, base, tree) && TreeShaped(tree)
    requires p != [] && VisibleDirectory(s, base, p) && !NothingShadowed(s, base, p)
    requires forall x :: x in base ==> s.count + |x| <= MAX_FILES_PER_SESSION
    ensures var after := DoRemoveDirectory(s, base, p, true).session;
            && q in base && Under(p, q)
            && RunInScope(groups, after, base, Rebuild(q, |p|))
            && Accepted(after, base, Rebuild(q, |p|)) == Rebuild(q, |p|)
            && Lookup(Run(after, base, Rebuild(q, |p|)), base, q) == Some(base[q])
            && q !in RefRun(Prune(tree, p), Rebuild(q, |p|))
  {
    q := RemovalLeaves(groups, s, base, tree, p);
    RebuildAll(groups, DoRemoveDirectory(s, base, p, true).session, base, Prune(tree, p), q, |p|);
  }

  /**
   Recursive removal of a visible directory keeps the private-copy promise for every later
   run exactly when no overlay directory just below the target shadows base content. (The
   quota must leave room to make the directories again; without it nothing can come back.)
   */
  lemma RemovalExactLimit(groups: bool, s: Session, base: Layer, tree: Layer, p: Path)
    requires Consistent(s, base) && Agree(groups, s, base, tree) && TreeShaped(tree)
    requires p != [] && VisibleDirectory(s, base, p)
    requires forall x :: x in base ==> s.count + |x| <= MAX_FILES_PER_SESSION
    ensures var after := DoRemoveDirectory(s, base, p, true).session;
            NothingShadowed(s, base, p) <==>
            forall ops :: RunInScope(groups, after, base, ops) ==>
              && NoMakeParents(Accepted(after, base, ops))
              && Agree(groups, Run(after, base, ops), base, RefRun(Prune(tree, p), Accepted(after, base, ops)))
  {
    var after := DoRemoveDirectory(s, base, p, true).session;
    AgreeAt(groups, s, base, tree, p);
    if NothingShadowed(s, base, p) {
      VisibleAbove(groups, s, base, tree, p, |p| - 1);
      RemoveDirectoryStep(groups, s, base, tree, p, true);
      forall ops | RunInScope(groups, after, base, ops)
        ensures NoMakeParents(Accepted(after, base, ops))
        ensures Agree(groups, Run(after, base, ops), base, RefRun(Prune(tree, p), Accepted(after, base, ops)))
      {
        RunSimulatesFrom(groups, after, base, Prune(tree, p), ops);
      }
    } else {
      var q := RemovalResurrects(groups, s, base, tree, p);
      var ops := Rebuild(q, |p|);
      if Agree(groups, Run(after, base, ops), base, RefRun(Prune(tree, p), Accepted(after, base, ops))) {
        AgreeAt(groups, Run(after, base, ops), base, RefRun(Prune(tree, p), ops), q);
        assert false;
      }
    }
  }

  // ----- A run that does it -----

  const A: Path := ["a"]
  const B: Path := ["a", "b"]
  const C: Path := ["a", "b", "c"]
  const X: Path := ["a", "b", "x"]

  /** A base with the directories /a and /a/b and the file /a/b/c. */
  function NestedBase(content: string): Layer {
    var dir := NewDirectory("root");
    map[[] := dir, A := dir, B := dir, C := NewFile(content, "root", "0644")]
  }

  const NEW_FILE: Op := CreateFile(X, "", "root", "0644")

  lemma NestedTree(groups: bool, content: string)
    ensures TreeShaped(NestedBase(content)) && Consistent(Fresh(), NestedBase(content))
    ensures Agree(groups, Fresh(), NestedBase(content), NestedBase(content))
  {
    assert Parent(A) == [] && Parent(B) == A && Parent(C) == B;
    assert Fresh().tombstones == {};
  }

  /** The overlay after a file was created in /a/b: /a and /a/b are directories of the overlay now. */
  lemma NewFileMade(groups: bool, content: string) returns (s: Session)
    ensures s == Step(Fresh(), NestedBase(content), NEW_FILE).session
    ensures InScope(groups, Fresh(), NestedBase(content), NEW_FILE) && Step(Fresh(), NestedBase(content), NEW_FILE).ok
    ensures s.overlay.Keys == {[], A, B, X} && IsDirectory(s.overlay, A) && IsDirectory(s.overlay, B)
    ensures s.tombstones == {} && s.count == 3
  {
    var base := NestedBase(content);
    assert Parent(X) == B && B[..1] == A && B[..2] == B;
    var e0 := Fresh().overlay;
    var e1 := e0[A := DirectoryEntry(base, A, "root")];
    var e2 := e1[B := DirectoryEntry(base, B, "root")];
    assert EnsureFrom(e2, 2, base, B, "root", 2) == Ensured(e2, 2, true);
    assert EnsureFrom(e1, 1, base, B, "root", 1) == Ensured(e2, 2, true);
    assert EnsureFrom(e0, 0, base, B, "root", 0) == Ensured(e2, 2, true);
    s := Step(Fresh(), base, NEW_FILE).session;
    assert s.overlay == Put(e2, X, NewFile("", "root", "0644"));
    assert forall p :: p in e2 ==> !(X <= p);
  }

  /** The removal of /a then buries /a and /a/b, but not /a/b/c, which the overlay directory shadows. */
  lemma RemovalBuriesTooLittle(content: string, s: Session)
    requires s.overlay.Keys == {[], A, B, X} && IsDirectory(s.overlay, A) && IsDirectory(s.overlay, B)
    requires s.tombstones == {}
    ensures VisibleDirectory(s, NestedBase(content), A) && !NothingShadowed(s, NestedBase(content), A)
    ensures Buried(s, NestedBase(content), A) == {A, B, X}
  {
    var base := NestedBase(content);
    assert B[..1] == A && C[..2] == B;
    assert IsDirectory(s.overlay, B) && |B| == |A| + 1 && A <= B && C in base && Under(B, C);
    assert A + [B[1]] == B && A + [X[1]] == B && A + [C[1]] == B;
    assert Listed(s, base, A, "b") == Some(s.overlay[B]);
  }

  /** What follows the new file: /a is removed with all it holds, and the two directories are made again. */
  const AGAIN: seq<Op> :=
    [RemoveDirectory(A, true), CreateDirectory(A, "root", false), CreateDirectory(B, "root", false)]

  lemma AboveC()
    ensures Under(A, C) && forall x :: x <= C && 1 <= |x| < 3 ==> x == A || x == B
  {
    forall x | x <= C && 1 <= |x| < 3
      ensures x == A || x == B
    {
      assert x == C[..|x|] && C[..1] == A && C[..2] == B;
    }
  }

  /** After a removal of /a that buries it and /a/b, but not /a/b/c, both filesystems wait for the two directories. */
  lemma RemovalWaits(groups: bool, base: Layer, s: Session, tree: Layer)
    requires Consistent(s, base) && Agree(groups, s, base, tree) && TreeShaped(tree)
    requires VisibleDirectory(s, base, A) && s.count == 3
    requires C in base && C !in s.tombstones + Buried(s, base, A) && B in Buried(s, base, A)
    ensures var op := RemoveDirectory(A, true);
            && Step(s, base, op).ok && RefStep(tree, op) == Reply(Prune(tree, A), true)
            && Rebuilt(Step(s, base, op).session, base, Prune(tree, A), C, 1)
            && Room(Step(s, base, op).session, C, 1)
  {
    AgreeAt(groups, s, base, tree, A);
    AboveC();
    RemovedIsRebuilt(groups, s, base, tree, A, C, Buried(s, base, A), DoRemoveDirectory(s, base, A, true).session);
  }

  lemma RebuildNested()
    ensures AGAIN == [RemoveDirectory(A, true)] + Rebuild(C, 1)
  {
    assert C[..1] == A && C[..2] == B;
    assert Rebuild(C, 3) == [];
    assert Rebuild(C, 2) == [CreateDirectory(B, "root", false)];
  }

  lemma AgainComesBack(groups: bool, content: string, s: Session, tree: Layer)
    requires Consistent(s, NestedBase(content)) && Agree(groups, s, NestedBase(content), tree) && TreeShaped(tree)
    requires s.overlay.Keys == {[], A, B, X} && IsDirectory(s.overlay, A) && IsDirectory(s.overlay, B)
    requires s.tombstones == {} && s.count == 3
    ensures Accepted(s, NestedBase(content), AGAIN) == AGAIN
    ensures Lookup(Run(s, NestedBase(content), AGAIN), NestedBase(content), C) ==
            Some(NewFile(content, "root", "0644"))
    ensures RefAcceptsAll(tree, AGAIN) && C !in RefRun(tree, AGAIN)
  {
    hide Step, Rebuilt, Room, Run, Accepted, RefRun, RefStep, RefAcceptsAll, RunInScope, InScope, Agree, Consistent,
      Rebuild, IsDirectory, Lookup;
    var base, op := NestedBase(content), RemoveDirectory(A, true);
    RemovalBuriesTooLittle(content, s);
    assert C in base && C !in {A, B, X};
    RemovalWaits(groups, base, s, tree);
    RebuildNested();
    RebuildAll(groups, Step(s, base, op).session, base, Prune(tree, A), C, 1);
    RunFirst(groups, s, base, tree, op, Rebuild(C, 1));
  }

  /**
   A run from a fresh session that does it. All four calls are accepted, and the base file /a/b/c
   is back, while the plain filesystem accepts the same calls and has none.
   */
  lemma RemovedComesBack(content: string)
    ensures var base, ops := NestedBase(content), [NEW_FILE] + AGAIN;
            && Accepted(Fresh(), base, ops) == ops && NoMakeParents(ops)
            && Lookup(Run(Fresh(), base, ops), base, C) == Some(NewFile(content, "root", "0644"))
            && RefAcceptsAll(base, ops) && C !in RefRun(base, ops)
  {
    var base := NestedBase(content);
    NestedTree(false, content);
    var s := NewFileMade(false, content);
    StepSimulates(false, Fresh(), base, base, NEW_FILE);
    var tree := RefStep(base, NEW_FILE).tree;
    AgainComesBack(false, content, s, tree);
    hide Step, Run, Accepted, RefRun, RefAcceptsAll, RefStep, Agree, Consistent;
    RunFirst(false, Fresh(), base, base, NEW_FILE, AGAIN);
  }
}
