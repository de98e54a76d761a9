/**
 The exact limits of the private-copy promise for calls on files that meet a directory. A file
 may be created over a directory, and base content below it is not buried then; and a removal of
 a file looks through an overlay directory at the base file it replaced.
 */
module Overwriting {
  import opened Options
  import opened Paths
  import opened Layers
  import opened SessionSpec
  import opened ReferenceSpec
  import opened SessionFacts
  import opened Simulation
  import opened Resurrection

  /** From here on, every run in scope shows what the plain filesystem shows. */
  ghost predicate StaysPrivateCopy(groups: bool, s: Session, base: Layer, tree: Layer) {
    forall ops :: RunInScope(groups, s, base, ops) ==>
      && NoMakeParents(Accepted(s, base, ops))
      && Agree(groups, Run(s, base, ops), base, RefRun(tree, Accepted(s, base, ops)))
  }

  lemma AgreementStays(groups: bool, s: Session, base: Layer, tree: Layer)
    requires Consistent(s, base) && Agree(groups, s, base, tree) && TreeShaped(tree)
    ensures StaysPrivateCopy(groups, s, base, tree)
  {
    forall ops | RunInScope(groups, s, base, ops)
      ensures NoMakeParents(Accepted(s, base, ops))
      ensures Agree(groups, Run(s, base, ops), base, RefRun(tree, Accepted(s, base, ops)))
    {
      RunSimulatesFrom(groups, s, base, tree, ops);
    }
  }

  /** A path that already shows in one and not in the other is enough to lose the promise. */
  lemma DisagreementBreaks(groups: bool, s: Session, base: Layer, tree: Layer, q: Path)
    requires Lookup(s, base, q).Some? <==> q !in tree
    ensures !StaysPrivateCopy(groups, s, base, tree)
  {
    if StaysPrivateCopy(groups, s, base, tree) {
      StaysNow(groups, s, base, tree);
      AgreeAt(groups, s, base, tree, q);
      assert false;
    }
  }

  /** What the base has below p and has not buried shows on when a file takes the place of p. */
  lemma ShowsBelow(s: Session, base: Layer, p: Path, q: Path, s': Session)
    requires Consistent(s, base) && VisibleDirectory(s, base, p)
    requires s'.tombstones == s.tombstones - {p} && forall x :: x in s'.overlay && p <= x ==> x == p
    requires q in base && Under(p, q) && q !in s.tombstones
    ensures Lookup(s', base, q) == Some(base[q])
  {
    forall k | 0 <= k <= |q|
      ensures q[..k] !in s'.tombstones
    {
      if k <= |p| {
        assert q[..k] == p[..k];
      } else if k == |q| {
        assert q[..k] == q;
      } else {
        assert Under(q[..k], q);
      }
    }
  }

  /**
   Creating a file, over a directory or not, keeps the private-copy promise for every later run
   exactly when everything the base has below the path is buried.
   */
  lemma CreationExactLimit(groups: bool, s: Session, base: Layer, tree: Layer, p: Path,
                           content: string, owner: string, permissions: string)
    requires Consistent(s, base) && Agree(groups, s, base, tree) && TreeShaped(tree)
    requires p != [] && VisibleDirectory(s, base, Parent(p))
    requires DoCreateFile(s, base, p, content, owner, permissions).ok
    ensures var after := DoCreateFile(s, base, p, content, owner, permissions).session;
            var r := RefCreateFile(tree, p, content, owner, permissions);
            r.ok && (StaysPrivateCopy(groups, after, base, r.tree) <==> Covered(s, base, p))
  {
    var op := CreateFile(p, content, owner, permissions);
    var after := DoCreateFile(s, base, p, content, owner, permissions).session;
    var r := RefCreateFile(tree, p, content, owner, permissions);
    AgreeAt(groups, s, base, tree, Parent(p));
    if Covered(s, base, p) {
      CreateFileStep(groups, s, base, tree, p, content, owner, permissions);
      AgreementStays(groups, after, base, r.tree);
    } else {
      var q :| q in base && Under(p, q) && q !in s.tombstones;
      if !VisibleDirectory(s, base, p) {
        NothingBelow(s, base, p);
        assert false;
      }
      ShowsBelow(s, base, p, q, after);
      DisagreementBreaks(groups, after, base, r.tree, q);
    }
  }

  /**
   Appending where a directory shows keeps the promise exactly when everything the base has below
   the path is buried and the directory is not in place of a base file, whose old content and
   owner the call would take up again.
   */
  lemma AppendExactLimit(groups: bool, s: Session, base: Layer, tree: Layer, p: Path, content: string)
    requires Consistent(s, base) && Agree(groups, s, base, tree) && TreeShaped(tree)
    requires p != [] && VisibleDirectory(s, base, Parent(p)) && VisibleDirectory(s, base, p)
    requires DoAppendFile(s, base, p, content).ok
    ensures var after := DoAppendFile(s, base, p, content).session;
            var r := RefAppendFile(tree, p, content);
            r.ok && (StaysPrivateCopy(groups, after, base, r.tree) <==> Covered(s, base, p) && NothingToAppend(base, p))
  {
    AgreeAt(groups, s, base, tree, p);
    AgreeAt(groups, s, base, tree, Parent(p));
    var after := DoAppendFile(s, base, p, content).session;
    var r := RefAppendFile(tree, p, content);
    if IsFile(base, p) {
      NothingUnder(base, p);
      if StaysPrivateCopy(groups, after, base, r.tree) {
        StaysNow(groups, after, base, r.tree);
        TombstonedChild(after.tombstones, p);
        assert Shown(groups, Lookup(after, base, p)) == Shown(groups, Find(r.tree, p));
        assert after.overlay[p].content == base[p].content + content;
      }
    } else {
      CreationExactLimit(groups, s, base, tree, p, content, "root", "0644");
    }
    if Covered(s, base, p) && NothingToAppend(base, p) {
      AppendFileStep(groups, s, base, tree, p, content);
      AgreementStays(groups, after, base, r.tree);
    }
  }

  lemma StaysNow(groups: bool, s: Session, base: Layer, tree: Layer)
    requires StaysPrivateCopy(groups, s, base, tree)
    ensures Agree(groups, s, base, tree)
  {
    var ops: seq<Op> := [];
    assert RunInScope(groups, s, base, ops);
    assert Agree(groups, Run(s, base, ops), base, RefRun(tree, Accepted(s, base, ops)));
  }

  /**
   Removing a file where a directory shows keeps the promise exactly when the base has no file
   there. Otherwise the call is accepted and hides the directory, which the plain filesystem keeps.
   */
  lemma FileRemovalExactLimit(groups: bool, s: Session, base: Layer, tree: Layer, p: Path)
    requires Consistent(s, base) && Agree(groups, s, base, tree) && TreeShaped(tree)
    requires p != [] && VisibleDirectory(s, base, Parent(p)) && VisibleDirectory(s, base, p)
    ensures var o := DoRemoveFile(s, base, p);
            && RefRemoveFile(tree, p) == Reply(tree, false)
            && (o.ok <==> IsFile(base, p))
            && (StaysPrivateCopy(groups, o.session, base, tree) <==> !IsFile(base, p))
  {
    var o := DoRemoveFile(s, base, p);
    AgreeAt(groups, s, base, tree, p);
    if IsFile(base, p) {
      TombstonedChild(o.session.tombstones, p);
      DisagreementBreaks(groups, o.session, base, tree, p);
    } else {
      RemoveFileStep(groups, s, base, tree, p);
      AgreementStays(groups, o.session, base, tree);
    }
  }

  // ----- Runs that do it -----

  /** A new file over the base directory /a leaves /a/b/c below it readable, which the plain filesystem loses. */
  lemma FileOverDirectory(content: string, text: string)
    ensures var base, op := NestedBase(content), CreateFile(A, text, "root", "0644");
            var o, r := Step(Fresh(), base, op), RefStep(base, op);
            && o.ok && r.ok
            && Lookup(o.session, base, A) == Some(NewFile(text, "root", "0644"))
            && Lookup(o.session, base, C) == Some(NewFile(content, "root", "0644")) && C !in r.tree
  {
    var base, op := NestedBase(content), CreateFile(A, text, "root", "0644");
    NestedTree(false, content);
    assert Parent(A) == [] && Fresh().tombstones == {};
    assert A <= C;
    ShowsBelow(Fresh(), base, A, C, Step(Fresh(), base, op).session);
  }

  const F: Path := ["f"]

  /** A base with the file /f. */
  function FlatBase(content: string): Layer {
    map[[] := NewDirectory("root"), F := NewFile(content, "root", "0644")]
  }

  /** The calls that put a directory in the place of /f. */
  const REPLACE: seq<Op> := [RemoveFile(F), CreateDirectory(F, "root", false)]

  lemma FlatTree(groups: bool, content: string)
    ensures TreeShaped(FlatBase(content)) && Consistent(Fresh(), FlatBase(content))
    ensures Agree(groups, Fresh(), FlatBase(content), FlatBase(content))
  {
    assert Parent(F) == [] && Fresh().tombstones == {};
  }

  lemma ReplacedOnce(content: string)
    ensures var o := Step(Fresh(), FlatBase(content), RemoveFile(F));
            && o.ok && o.session.overlay == Fresh().overlay && o.session.tombstones == {F} && o.session.count == 0
  {
    assert Fresh().tombstones == {} && Target(F) == F;
  }

  lemma RunTwo(s: Session, base: Layer, tree: Layer, a: Op, b: Op)
    requires NoMakeParents([a, b])
    ensures var o := Step(s, base, a);
            var o' := Step(o.session, base, b);
            && Run(s, base, [a, b]) == o'.session && (o.ok && o'.ok ==> Accepted(s, base, [a, b]) == [a, b])
    ensures a.CreateDirectory? ==> !a.parents
    ensures b.CreateDirectory? ==> !b.parents
    ensures var r := RefStep(tree, a);
            var r' := RefStep(r.tree, b);
            && RefRun(tree, [a, b]) == r'.tree && (r.ok && r'.ok ==> RefAcceptsAll(tree, [a, b]))
  {
    hide Step, RefStep;
    assert [a, b][0] == a && [a, b][1] == b;
    assert [a, b][1..] == [b] && [b][1..] == [];
    var s1 := Step(s, base, a).session;
    assert Accepted(Step(s1, base, b).session, base, []) == [];
    assert Accepted(s1, base, [b]) == if Step(s1, base, b).ok then [b] else [];
    assert Run(s1, base, [b]) == Step(s1, base, b).session;
    var t1 := RefStep(tree, a).tree;
    assert RefRun(t1, [b]) == RefStep(t1, b).tree;
    assert RefAcceptsAll(t1, [b]) <==> RefStep(t1, b).ok;
  }

  lemma ReplacedTwice(content: string, s: Session)
    requires s.overlay == Fresh().overlay && s.tombstones == {F} && s.count == 0
    ensures var o := Step(s, FlatBase(content), CreateDirectory(F, "root", false));
            && o.ok && o.session.overlay.Keys == {[], F} && IsDirectory(o.session.overlay, F)
            && o.session.tombstones == {} && VisibleDirectory(o.session, FlatBase(content), F)
  {
    var base := FlatBase(content);
    assert F[..1] == F && Parent(F) == [] && Target(F) == F;
    assert Tombstoned({F}, F);
    var s' := Step(s, base, CreateDirectory(F, "root", false)).session;
    assert s'.overlay == Put(s.overlay, F, NewDirectory("root"));
    assert s'.tombstones == {};
  }

  /** Both calls are accepted, by the plain filesystem too, and /f is a directory of the overlay then. */
  lemma Replaced(content: string) returns (s: Session)
    ensures s == Run(Fresh(), FlatBase(content), REPLACE)
    ensures Accepted(Fresh(), FlatBase(content), REPLACE) == REPLACE
    ensures s.overlay.Keys == {[], F} && IsDirectory(s.overlay, F) && s.tombstones == {}
    ensures NoMakeParents(REPLACE) && RefAcceptsAll(FlatBase(content), REPLACE)
    ensures IsDirectory(RefRun(FlatBase(content), REPLACE), F)
    ensures VisibleDirectory(s, FlatBase(content), F)
  {
    var base := FlatBase(content);
    RunTwo(Fresh(), base, base, RemoveFile(F), CreateDirectory(F, "root", false));
    ReplacedOnce(content);
    ReplacedTwice(content, Step(Fresh(), base, RemoveFile(F)).session);
    s := Run(Fresh(), base, REPLACE);
    assert Target(F) == F && Parent(F) == [];
    hide Run, Accepted, RefRun, RefAcceptsAll, Step;
    assert RefStep(base, RemoveFile(F)).tree == Prune(base, F);
  }

  /** A removal of the file /f is then accepted and hides the directory, which the plain filesystem keeps. */
  lemma FileRemovalHidesDirectory(content: string)
    ensures var base, ops := FlatBase(content), REPLACE + [RemoveFile(F)];
            var s, tree := Run(Fresh(), base, REPLACE), RefRun(base, REPLACE);
            && Step(s, base, RemoveFile(F)).ok && Lookup(Step(s, base, RemoveFile(F)).session, base, F).None?
            && !RefStep(tree, RemoveFile(F)).ok && IsDirectory(tree, F)
  {
    var base := FlatBase(content);
    var s := Replaced(content);
    assert Target(F) == F && !Tombstoned(s.tombstones, F);
    var after := Step(s, base, RemoveFile(F)).session;
    assert F[..1] == F && F in after.tombstones;
  }
}
