/**
 When a call is accepted and when what it wrote shows. A call can be accepted for a path that
 stays hidden: a tombstone above it is not lifted, and `mkdir -p` answers True even when the
 directory could not be made.
 */
module Visibility {
  import opened Options
  import opened Paths
  import opened Layers
  import opened SessionSpec
  import opened SessionFacts

  /** How many prefixes of dir longer than k the overlay lacks. */
  function Missing(overlay: Layer, dir: Path, k: nat): nat
    requires k <= |dir|
    decreases |dir| - k
  {
    if k == |dir| then 0 else Missing(overlay, dir, k + 1) + if dir[..k + 1] in overlay then 0 else 1
  }

  ghost predicate FileOnTheWay(overlay: Layer, dir: Path, k: nat) {
    exists j :: k < j <= |dir| && IsFile(overlay, dir[..j])
  }

  /** No overlay file is in the way of dir, and the quota has room for what is missing. */
  ghost predicate Reaches(overlay: Layer, count: nat, dir: Path, k: nat)
    requires k <= |dir|
  {
    && !FileOnTheWay(overlay, dir, k)
    && (Missing(overlay, dir, k) == 0 || count + Missing(overlay, dir, k) <= MAX_FILES_PER_SESSION)
  }

  lemma {:induction false} MissingSame(overlay: Layer, after: Layer, dir: Path, k: nat, from: nat)
    requires k < from <= |dir| && forall q :: q != dir[..k + 1] ==> (q in after <==> q in overlay)
    ensures Missing(after, dir, from) == Missing(overlay, dir, from)
    decreases |dir| - from
  {
    if from < |dir| {
      assert |dir[..from + 1]| != |dir[..k + 1]|;
      MissingSame(overlay, after, dir, k, from + 1);
    }
  }

  /** The bookkeeping above a new node succeeds exactly when nothing is in the way and the quota suffices. */
  lemma {:induction false} EnsureExactly(overlay: Layer, count: nat, base: Layer, dir: Path, owner: string, k: nat)
    requires k <= |dir|
    ensures EnsureFrom(overlay, count, base, dir, owner, k).ok <==> Reaches(overlay, count, dir, k)
    decreases |dir| - k
  {
    if k < |dir| {
      var q := dir[..k + 1];
      FileFurther(overlay, dir, k);
      if q !in overlay {
        if count < MAX_FILES_PER_SESSION {
          var next := overlay[q := DirectoryEntry(base, q, owner)];
          EnsureExactly(next, count + 1, base, dir, owner, k + 1);
          MissingSame(overlay, next, dir, k, k + 1);
          assert forall j :: k + 1 < j <= |dir| ==> (IsFile(next, dir[..j]) <==> IsFile(overlay, dir[..j]));
        }
      } else if overlay[q].isDir {
        EnsureExactly(overlay, count, base, dir, owner, k + 1);
      }
    }
  }

  lemma FileFurther(overlay: Layer, dir: Path, k: nat)
    requires k < |dir|
    ensures FileOnTheWay(overlay, dir, k) <==> IsFile(overlay, dir[..k + 1]) || FileOnTheWay(overlay, dir, k + 1)
  {
  }

  /** Un-deleting p is enough for p exactly when nothing above it is deleted. */
  lemma Uncovered(tombstones: set<Path>, p: Path)
    requires p != []
    ensures Tombstoned(tombstones - {p}, p) <==> Tombstoned(tombstones, Parent(p))
  {
    TombstonedChild(tombstones - {p}, p);
    TombstonedOutside(tombstones, tombstones - {p}, p, Parent(p));
  }

  /** Creating a file is accepted exactly when the quota has room for it and its missing directories. */
  lemma CreationAccepted(s: Session, base: Layer, p: Path, content: string, owner: string, permissions: string)
    ensures DoCreateFile(s, base, p, content, owner, permissions).ok <==>
            s.count < MAX_FILES_PER_SESSION && Reaches(s.overlay, s.count, Parent(p), 0)
  {
    EnsureExactly(s.overlay, s.count, base, Parent(p), "root", 0);
  }

  /** The new file shows exactly when nothing above it is deleted. */
  lemma CreatedShows(s: Session, base: Layer, p: Path, content: string, owner: string, permissions: string)
    requires p != [] && DoCreateFile(s, base, p, content, owner, permissions).ok
    ensures Lookup(DoCreateFile(s, base, p, content, owner, permissions).session, base, p)
         == if Tombstoned(s.tombstones, Parent(p)) then None else Some(NewFile(content, owner, permissions))
  {
    Uncovered(s.tombstones, p);
  }

  /** The same for a directory. */
  lemma DirectoryShows(s: Session, base: Layer, p: Path, owner: string)
    requires p != [] && DoCreateDirectory(s, base, p, owner, false).ok
    ensures Lookup(DoCreateDirectory(s, base, p, owner, false).session, base, p)
         == if Tombstoned(s.tombstones, Parent(p)) then None else Some(NewDirectory(owner))
  {
    Uncovered(s.tombstones, p);
  }

  /** Appending in the overlay lifts no tombstone at all; otherwise it creates a file. */
  lemma AppendedShows(s: Session, base: Layer, p: Path, content: string)
    requires p != [] && DoAppendFile(s, base, p, content).ok
    ensures VisibleFile(DoAppendFile(s, base, p, content).session, base, p) <==>
            !Tombstoned(s.tombstones, if IsFile(s.overlay, p) then p else Parent(p))
  {
    Uncovered(s.tombstones, p);
  }

  /**
   `mkdir -p` below the quota is always accepted. A directory shows afterwards exactly when nothing
   above it is deleted and either the overlay reaches it or the base has one that the overlay does
   not replace.
   */
  lemma MadeShows(s: Session, base: Layer, p: Path, owner: string)
    requires TreeShaped(s.overlay) && p != [] && s.count < MAX_FILES_PER_SESSION
    ensures var o := DoCreateDirectory(s, base, p, owner, true);
            && o.ok
            && (VisibleDirectory(o.session, base, p) <==>
                  && !Tombstoned(s.tombstones, Parent(p))
                  && (Reaches(s.overlay, s.count, p, 0) || (p !in s.overlay && IsDirectory(base, p))))
  {
    Uncovered(s.tombstones, p);
    EnsureExactly(s.overlay, s.count, base, p, owner, 0);
    EnsureFacts(s, base, p, owner);
    EnsureCounts(s.overlay, s.count, base, p, owner, 0);
    var e := Ensure(s, base, p, owner);
    if !e.ok {
      UnreachedIsNew(s.overlay, s.count, base, p, owner, 0);
    }
  }

  /** Where the bookkeeping fails, dir itself was not made. */
  lemma {:induction false} UnreachedIsNew(overlay: Layer, count: nat, base: Layer, dir: Path, owner: string, k: nat)
    requires TreeShaped(overlay) && k <= |dir| && IsDirectory(overlay, dir[..k])
    requires !EnsureFrom(overlay, count, base, dir, owner, k).ok
    ensures dir in EnsureFrom(overlay, count, base, dir, owner, k).overlay <==> dir in overlay
    ensures !IsDirectory(overlay, dir)
    decreases |dir| - k
  {
    if k < |dir| {
      var q := dir[..k + 1];
      assert Parent(q) == dir[..k] && q <= dir;
      NothingUnder(overlay, q);
      if q !in overlay && count < MAX_FILES_PER_SESSION {
        var next := overlay[q := DirectoryEntry(base, q, owner)];
        UnreachedIsNew(next, count + 1, base, dir, owner, k + 1);
        assert dir != q;
      } else if IsDirectory(overlay, q) {
        UnreachedIsNew(overlay, count, base, dir, owner, k + 1);
      }
    }
  }

  /** In a session whose quota is used up but for one, `mkdir -p` of two new directories is accepted and makes one. */
  lemma MakeParentsHalfWay(s: Session, base: Layer, a: string, b: string)
    requires s.overlay == Fresh().overlay && s.tombstones == {} && s.count == MAX_FILES_PER_SESSION - 1
    requires [a] !in base && [a, b] !in base
    ensures var o := DoCreateDirectory(s, base, [a, b], "root", true);
            o.ok && VisibleDirectory(o.session, base, [a]) && Lookup(o.session, base, [a, b]).None?
  {
    var p := [a, b];
    assert p[..1] == [a] && p[..2] == p && Parent([a]) == [];
    var next := s.overlay[[a] := DirectoryEntry(base, [a], "root")];
    assert EnsureFrom(next, MAX_FILES_PER_SESSION, base, p, "root", 1) == Ensured(next, MAX_FILES_PER_SESSION, false);
    assert Ensure(s, base, p, "root") == Ensured(next, MAX_FILES_PER_SESSION, false);
    assert s.tombstones - {p} == {};
  }
}
