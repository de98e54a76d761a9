/** Facts about the session operations that hold in every state whose overlay is a tree. */
module SessionFacts {
  import opened Paths
  import opened Layers
  import opened SessionSpec

  lemma TombstonedPrefix(tombstones: set<Path>, q: Path, p: Path)
    requires q <= p && Tombstoned(tombstones, q)
    ensures Tombstoned(tombstones, p)
  {
    var k :| 0 <= k <= |q| && q[..k] in tombstones;
    assert p[..k] == q[..k];
  }

  /** A path whose parent is not deleted is deleted only by its own tombstone. */
  lemma TombstonedChild(tombstones: set<Path>, p: Path)
    requires p != []
    ensures Tombstoned(tombstones, p) <==> p in tombstones || Tombstoned(tombstones, Parent(p))
  {
    if p in tombstones {
      assert p[..|p|] == p;
    }
    if Tombstoned(tombstones, Parent(p)) {
      TombstonedPrefix(tombstones, Parent(p), p);
    }
    if Tombstoned(tombstones, p) && p !in tombstones {
      var k :| 0 <= k <= |p| && p[..k] in tombstones;
      assert k < |p| by {
        assert p[..|p|] == p;
      }
      assert Parent(p)[..k] == p[..k];
    }
  }

  /** Tombstones at or below p decide nothing outside p. */
  lemma TombstonedOutside(before: set<Path>, after: set<Path>, p: Path, q: Path)
    requires !(p <= q)
    requires forall x :: x in before + after && !(p <= x) ==> (x in before <==> x in after)
    ensures Tombstoned(before, q) <==> Tombstoned(after, q)
  {
    forall k | 0 <= k <= |q|
      ensures q[..k] in before <==> q[..k] in after
    {
      assert q[..k] <= q;
      assert p <= q[..k] ==> p <= q;
    }
  }

  /** after is overlay plus shallow directory entries at some prefixes of dir, none shorter than k. */
  ghost predicate Extended(overlay: Layer, after: Layer, base: Layer, dir: Path, owner: string, k: nat) {
    && (forall q :: q in overlay ==> q in after && after[q] == overlay[q])
    && (forall q :: q in after && q !in overlay ==>
          q <= dir && |q| > k && after[q] == DirectoryEntry(base, q, owner))
  }

  /** What the overlay bookkeeping loop adds to the overlay. */
  lemma {:induction false} EnsureAdds(overlay: Layer, count: nat, base: Layer, dir: Path, owner: string, k: nat)
    requires k <= |dir|
    ensures Extended(overlay, EnsureFrom(overlay, count, base, dir, owner, k).overlay, base, dir, owner, k)
    decreases |dir| - k
  {
    if k < |dir| {
      var q := dir[..k + 1];
      if q !in overlay {
        if count < MAX_FILES_PER_SESSION {
          var next := overlay[q := DirectoryEntry(base, q, owner)];
          EnsureAdds(next, count + 1, base, dir, owner, k + 1);
          ExtendedOnce(overlay, EnsureFrom(next, count + 1, base, dir, owner, k + 1).overlay, base, dir, owner, k);
        }
      } else if overlay[q].isDir {
        EnsureAdds(overlay, count, base, dir, owner, k + 1);
      }
    }
  }

  lemma ExtendedOnce(overlay: Layer, after: Layer, base: Layer, dir: Path, owner: string, k: nat)
    requires k < |dir| && dir[..k + 1] !in overlay
    requires Extended(overlay[dir[..k + 1] := DirectoryEntry(base, dir[..k + 1], owner)], after, base, dir, owner, k + 1)
    ensures Extended(overlay, after, base, dir, owner, k)
  {
  }

  lemma {:induction false} EnsureTree(overlay: Layer, count: nat, base: Layer, dir: Path, owner: string, k: nat)
    requires k <= |dir| && TreeShaped(overlay) && IsDirectory(overlay, dir[..k])
    ensures var e := EnsureFrom(overlay, count, base, dir, owner, k);
            && TreeShaped(e.overlay)
            && (e.ok ==> IsDirectory(e.overlay, dir))
            && (!e.ok ==> e.count >= MAX_FILES_PER_SESSION
                          || exists j :: k < j <= |dir| && IsFile(overlay, dir[..j]))
    decreases |dir| - k
  {
    if k < |dir| {
      var q := dir[..k + 1];
      assert Parent(q) == dir[..k];
      if q !in overlay {
        if count < MAX_FILES_PER_SESSION {
          var next := overlay[q := DirectoryEntry(base, q, owner)];
          EnsureTree(next, count + 1, base, dir, owner, k + 1);
          forall j | k + 1 < j <= |dir| && IsFile(next, dir[..j])
            ensures IsFile(overlay, dir[..j])
          {
            assert dir[..j] != q;
          }
        }
      } else if overlay[q].isDir {
        EnsureTree(overlay, count, base, dir, owner, k + 1);
      }
    } else {
      assert dir[..k] == dir;
    }
  }

  /** The overlay bookkeeping of a tree-shaped overlay, from the root. */
  lemma EnsureFacts(s: Session, base: Layer, dir: Path, owner: string)
    requires TreeShaped(s.overlay)
    ensures var e := Ensure(s, base, dir, owner);
            && Extended(s.overlay, e.overlay, base, dir, owner, 0)
            && TreeShaped(e.overlay)
            && (e.ok ==> IsDirectory(e.overlay, dir))
            && (!e.ok ==> e.count >= MAX_FILES_PER_SESSION
                          || exists j :: 0 < j <= |dir| && IsFile(s.overlay, dir[..j]))
  {
    EnsureAdds(s.overlay, s.count, base, dir, owner, 0);
    EnsureTree(s.overlay, s.count, base, dir, owner, 0);
  }

  /** What making directories does to the counter: one more for each new entry, within the limit. */
  lemma {:induction false} EnsureCounts(overlay: Layer, count: nat, base: Layer, dir: Path, owner: string, k: nat)
    requires k <= |dir|
    ensures var e := EnsureFrom(overlay, count, base, dir, owner, k);
            && count <= e.count <= count + |dir| - k
            && e.count - count == |e.overlay| - |overlay|
            && (e.count == count || e.count <= MAX_FILES_PER_SESSION)
            && ((forall j :: k < j <= |dir| ==> dir[..j] in overlay) ==> e.count == count)
    decreases |dir| - k
  {
    if k < |dir| {
      var q := dir[..k + 1];
      if q !in overlay {
        if count < MAX_FILES_PER_SESSION {
          EnsureCounts(overlay[q := DirectoryEntry(base, q, owner)], count + 1, base, dir, owner, k + 1);
        }
      } else if overlay[q].isDir {
        EnsureCounts(overlay, count, base, dir, owner, k + 1);
      }
    }
  }

  lemma EnsureAll(overlay: Layer, count: nat, base: Layer, dir: Path, owner: string)
    ensures EnsureFrom(overlay, count, base, dir, owner, |dir|) == Ensured(overlay, count, true)
  {
  }
}
