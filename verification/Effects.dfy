/**
 What every call does, field by field: to the node at its path, to every other path, to the
 log and to the counter; for the session filesystem in any state whose layers are trees, and for
 the plain filesystem.
 */
module Effects {
  import opened Options
  import opened Paths
  import opened Layers
  import opened SessionSpec
  import opened SessionFacts
  import opened ReferenceSpec
  import opened Visibility

  /** The nodes handed out for two entries are equal. */
  predicate SameNode(a: Option<Entry>, b: Option<Entry>) {
    a.Some? == b.Some? && (a.Some? ==> Returned(a.value) == Returned(b.value))
  }

  /** The node handed out: a file as it is, a directory without content and never with the mode "0644". */
  lemma ReturnedExactly(e: Entry)
    ensures !e.isDir ==> Returned(e) == e
    ensures e.isDir ==>
              && Returned(e).isDir && Returned(e).content == "" && Returned(e).owner == e.owner
              && Returned(e).group == e.group
              && Returned(e).permissions == if e.permissions == "0644" then "0755" else e.permissions
  {
  }

  ghost predicate Trees(s: Session, base: Layer) {
    TreeShaped(s.overlay) && TreeShaped(base)
  }

  /** A directory that has to be made above p, because neither layer has one at q. */
  ghost predicate MadeAbove(s: Session, base: Layer, p: Path, q: Path) {
    Under(q, p) && q !in s.overlay && !IsDirectory(base, q)
  }

  // ----- The directories above -----

  /** What the bookkeeping does to lookups: a directory of the base still shows, a missing one is made. */
  lemma EnsureEffect(s: Session, base: Layer, dir: Path, owner: string, q: Path)
    requires Trees(s, base)
    ensures var e := Ensure(s, base, dir, owner);
            && (q in s.overlay ==> q in e.overlay && e.overlay[q] == s.overlay[q])
            && (q in e.overlay && q !in s.overlay ==> q <= dir && q != [])
            && (q in e.overlay && q !in s.overlay && IsDirectory(base, q) ==>
                  SameNode(Some(e.overlay[q]), Some(base[q])))
            && (q in e.overlay && q !in s.overlay && !IsDirectory(base, q) ==>
                  e.overlay[q] == Entry(true, "", owner, "root", "0755"))
            && (e.ok && q <= dir ==> IsDirectory(e.overlay, q))
  {
    EnsureFacts(s, base, dir, owner);
    var e := Ensure(s, base, dir, owner);
    if e.ok && q <= dir {
      assert dir[..|q|] == q;
      if |q| < |dir| {
        PrefixesAreDirectories(e.overlay, dir, |q|);
      } else {
        assert q == dir;
      }
    }
  }

  // ----- New nodes -----

  /** A new node e at p, after the directories above it were made. */
  lemma PlacedEffect(s: Session, base: Layer, p: Path, e: Entry, after: Session, q: Path)
    requires Trees(s, base) && p != [] && Ensure(s, base, Parent(p), "root").ok
    requires after.overlay == Put(Ensure(s, base, Parent(p), "root").overlay, p, e)
    requires after.tombstones == s.tombstones - {p}
    ensures q == p ==> Lookup(after, base, q) == if Tombstoned(s.tombstones, Parent(p)) then None else Some(e)
    ensures Under(p, q) ==>
              Lookup(after, base, q) == if Tombstoned(s.tombstones - {p}, q) || q !in base then None else Some(base[q])
    ensures MadeAbove(s, base, p, q) ==>
              Lookup(after, base, q)
              == if Tombstoned(s.tombstones, q) then None else Some(Entry(true, "", "root", "root", "0755"))
    ensures !(p <= q) && !MadeAbove(s, base, p, q) ==> SameNode(Lookup(after, base, q), Lookup(s, base, q))
  {
    Uncovered(s.tombstones, p);
    EnsureEffect(s, base, Parent(p), "root", q);
    if !(p <= q) {
      TombstonedOutside(s.tombstones, after.tombstones, p, q);
      if Under(q, p) {
        assert q <= Parent(p);
      }
    }
  }

  /** Creating a file. */
  lemma CreateFileEffect(s: Session, base: Layer, p: Path, content: string, owner: string, permissions: string, q: Path)
    requires Trees(s, base) && p != [] && DoCreateFile(s, base, p, content, owner, permissions).ok
    ensures var after := DoCreateFile(s, base, p, content, owner, permissions).session;
            && (q == p ==>
                  Lookup(after, base, q) == if Tombstoned(s.tombstones, Parent(p)) then None
                                            else Some(Entry(false, content, owner, "root", permissions)))
            && (Under(p, q) ==>
                  Lookup(after, base, q)
                  == if Tombstoned(s.tombstones - {p}, q) || q !in base then None else Some(base[q]))
            && (MadeAbove(s, base, p, q) ==>
                  Lookup(after, base, q)
                  == if Tombstoned(s.tombstones, q) then None else Some(Entry(true, "", "root", "root", "0755")))
            && (!(p <= q) && !MadeAbove(s, base, p, q) ==> SameNode(Lookup(after, base, q), Lookup(s, base, q)))
            && after.mutations == s.mutations + [Mutation("create_file", p)]
            && after.tombstones == s.tombstones - {p}
            && after.count == s.count + Missing(s.overlay, Parent(p), 0) + 1
  {
    var after := DoCreateFile(s, base, p, content, owner, permissions).session;
    EnsureMissing(s.overlay, s.count, base, Parent(p), "root", 0);
    PlacedEffect(s, base, p, Entry(false, content, owner, "root", permissions), after, q);
  }

  /** Making a directory. */
  lemma CreateDirectoryEffect(s: Session, base: Layer, p: Path, owner: string, q: Path)
    requires Trees(s, base) && p != [] && DoCreateDirectory(s, base, p, owner, false).ok
    ensures var after := DoCreateDirectory(s, base, p, owner, false).session;
            && Lookup(s, base, p).None?
            && (q == p ==>
                  Lookup(after, base, q) == if Tombstoned(s.tombstones, Parent(p)) then None
                                            else Some(Entry(true, "", owner, "root", "0755")))
            && (Under(p, q) ==>
                  Lookup(after, base, q)
                  == if Tombstoned(s.tombstones - {p}, q) || q !in base then None else Some(base[q]))
            && (MadeAbove(s, base, p, q) ==>
                  Lookup(after, base, q)
                  == if Tombstoned(s.tombstones, q) then None else Some(Entry(true, "", "root", "root", "0755")))
            && (!(p <= q) && !MadeAbove(s, base, p, q) ==> SameNode(Lookup(after, base, q), Lookup(s, base, q)))
            && after.mutations == s.mutations + [Mutation("create_dir", p)]
            && after.tombstones == s.tombstones - {p}
            && after.count == s.count + Missing(s.overlay, Parent(p), 0) + 1
  {
    var after := DoCreateDirectory(s, base, p, owner, false).session;
    EnsureMissing(s.overlay, s.count, base, Parent(p), "root", 0);
    PlacedEffect(s, base, p, Entry(true, "", owner, "root", "0755"), after, q);
  }

  /** `mkdir -p`: directories on the way show on or are made for the owner, nothing else changes. */
  lemma MakeParentsEffect(s: Session, base: Layer, p: Path, owner: string, q: Path)
    requires Trees(s, base) && p != [] && s.count < MAX_FILES_PER_SESSION
    ensures var after := DoCreateDirectory(s, base, p, owner, true).session;
            && (q in s.overlay ==> q in after.overlay && after.overlay[q] == s.overlay[q])
            && (q in after.overlay && q !in s.overlay && !IsDirectory(base, q) ==>
                  q <= p && after.overlay[q] == Entry(true, "", owner, "root", "0755"))
            && (q in after.overlay && q !in s.overlay && IsDirectory(base, q) ==>
                  SameNode(Some(after.overlay[q]), Some(base[q])))
            && (Under(p, q) ==>
                  Lookup(after, base, q) == if Tombstoned(s.tombstones - {p}, q) then None
                                            else if q in s.overlay then Some(s.overlay[q]) else Find(base, q))
            && (!(q <= p) && !(p <= q) ==> SameNode(Lookup(after, base, q), Lookup(s, base, q)))
            && after.mutations == s.mutations + [Mutation("create_dir", p)]
            && after.tombstones == s.tombstones - {p}
  {
    EnsureEffect(s, base, p, owner, q);
    if !(p <= q) {
      TombstonedOutside(s.tombstones, s.tombstones - {p}, p, q);
    }
  }

  /** Each directory that has to be made counts once. */
  lemma {:induction false} EnsureMissing(overlay: Layer, count: nat, base: Layer, dir: Path, owner: string, k: nat)
    requires k <= |dir| && EnsureFrom(overlay, count, base, dir, owner, k).ok
    ensures EnsureFrom(overlay, count, base, dir, owner, k).count == count + Missing(overlay, dir, k)
    decreases |dir| - k
  {
    if k < |dir| {
      var q := dir[..k + 1];
      if q !in overlay {
        var next := overlay[q := DirectoryEntry(base, q, owner)];
        EnsureMissing(next, count + 1, base, dir, owner, k + 1);
        MissingSame(overlay, next, dir, k, k + 1);
      } else {
        EnsureMissing(overlay, count, base, dir, owner, k + 1);
      }
    }
  }

  // ----- Appending -----

  /** Appending to a file of the overlay: the new content comes last, and nothing else changes. */
  lemma AppendInPlaceEffect(s: Session, base: Layer, p: Path, content: string, q: Path)
    requires IsFile(s.overlay, p)
    ensures var o := DoAppendFile(s, base, p, content);
            && o.ok
            && (q == p ==>
                  Lookup(o.session, base, q)
                  == if Tombstoned(s.tombstones, p) then None
                     else Some(s.overlay[p].(content := s.overlay[p].content + content)))
            && (q != p ==> Lookup(o.session, base, q) == Lookup(s, base, q))
            && o.session.mutations == s.mutations + [Mutation("append_file", p)]
            && o.session.tombstones == s.tombstones && o.session.count == s.count
  {
  }

  /** Appending elsewhere creates a file: after the base's content if the base has a file that is not deleted. */
  lemma AppendByCreatingEffect(s: Session, base: Layer, p: Path, content: string, q: Path)
    requires Trees(s, base) && p != [] && !IsFile(s.overlay, p) && DoAppendFile(s, base, p, content).ok
    ensures var after := DoAppendFile(s, base, p, content).session;
            && (q == p && IsFile(base, p) && !Tombstoned(s.tombstones, p) ==>
                  Lookup(after, base, q)
                  == Some(Entry(false, base[p].content + content, base[p].owner, "root", base[p].permissions)))
            && (q == p && !(IsFile(base, p) && !Tombstoned(s.tombstones, p)) ==>
                  Lookup(after, base, q) == if Tombstoned(s.tombstones, Parent(p)) then None
                                            else Some(Entry(false, content, "root", "root", "0644")))
            && (!(p <= q) && !MadeAbove(s, base, p, q) ==> SameNode(Lookup(after, base, q), Lookup(s, base, q)))
            && after.mutations == s.mutations + [Mutation("create_file", p)]
  {
    TombstonedChild(s.tombstones, p);
    if IsFile(base, p) && !Tombstoned(s.tombstones, p) {
      CreateFileEffect(s, base, p, base[p].content + content, base[p].owner, base[p].permissions, q);
    } else {
      CreateFileEffect(s, base, p, content, "root", "0644", q);
    }
  }

  // ----- Removing -----

  /** A file is removed if the overlay has one there, or the base one that is not deleted; it hides all below it too. */
  lemma RemoveFileEffect(s: Session, base: Layer, p: Path, q: Path)
    requires p != []
    ensures var o := DoRemoveFile(s, base, p);
            && (o.ok <==> IsFile(s.overlay, p) || (IsFile(base, p) && !Tombstoned(s.tombstones, p)))
            && (!o.ok ==> o.session == s)
            && (o.ok ==>
                  && Lookup(o.session, base, q) == (if p <= q then None else Lookup(s, base, q))
                  && o.session.mutations == s.mutations + [Mutation("delete_file", p)]
                  && o.session.tombstones == s.tombstones + {p} && o.session.count == s.count)
  {
    var o := DoRemoveFile(s, base, p);
    if o.ok {
      if p <= q {
        assert q[..|p|] == p;
      } else {
        TombstonedOutside(s.tombstones, o.session.tombstones, p, q);
      }
    }
  }

  /** A directory is removed if it shows and, unless the removal is recursive, lists nothing. */
  lemma RemoveDirectoryEffect(s: Session, base: Layer, p: Path, recursive: bool, q: Path)
    ensures var o := DoRemoveDirectory(s, base, p, recursive);
            && (o.ok <==> p != [] && VisibleDirectory(s, base, p)
                          && (recursive || forall name :: Listed(s, base, p, name).None?))
            && (!o.ok ==> o.session == s)
            && (o.ok ==>
                  && Lookup(o.session, base, q) == (if p <= q then None else Lookup(s, base, q))
                  && o.session.mutations == s.mutations + [Mutation("delete_dir", p)]
                  && p in o.session.tombstones && o.session.count == s.count)
  {
    var o := DoRemoveDirectory(s, base, p, recursive);
    if o.ok {
      if p <= q {
        assert q[..|p|] == p;
      } else {
        TombstonedOutside(s.tombstones, o.session.tombstones, p, q);
      }
    }
  }

  // ----- Metadata -----

  /** A copy-up changes no node that is handed out. */
  lemma CopyUpEffect(s: Session, base: Layer, p: Path, q: Path)
    requires Trees(s, base)
    ensures var c := CopyUp(s, base, p);
            && SameNode(Lookup(c.session, base, q), Lookup(s, base, q))
            && c.session.tombstones == s.tombstones && c.session.mutations == s.mutations
            && (c.ok ==> Lookup(s, base, p).Some? && p in c.session.overlay && !Tombstoned(s.tombstones, p))
            && (c.ok && p in s.overlay ==> c.session == s)
  {
    var c := CopyUp(s, base, p);
    if !Tombstoned(s.tombstones, p) && p !in s.overlay && p in base {
      EnsureEffect(s, base, Parent(p), "root", q);
      if q in c.session.overlay && q !in s.overlay && q != p {
        assert q <= Parent(p) && Under(q, p);
        UnderIsDirectory(base, q, p);
      }
      NothingUnder(s.overlay, p);
    }
  }

  /** chmod sets the mode of a node that shows, and changes nothing else. */
  lemma ChmodEffect(s: Session, base: Layer, p: Path, permissions: string, q: Path)
    requires Trees(s, base) && DoChmod(s, base, p, permissions).ok
    ensures var after := DoChmod(s, base, p, permissions).session;
            && Lookup(s, base, p).Some? && Lookup(after, base, p).Some?
            && var was, now := Lookup(s, base, p).value, Lookup(after, base, p).value;
            && now.permissions == permissions
            && now.isDir == was.isDir && now.owner == was.owner && now.group == was.group
            && (!was.isDir ==> now.content == was.content)
            && (q != p ==> SameNode(Lookup(after, base, q), Lookup(s, base, q)))
            && after.mutations == s.mutations + [Mutation("chmod", p)] && after.tombstones == s.tombstones
  {
    CopyUpEffect(s, base, p, p);
    CopyUpEffect(s, base, p, q);
  }

  /**
   chown gives a node that shows the owner, and the group if one is given that is not empty, and
   changes nothing else.
   */
  lemma ChownEffect(s: Session, base: Layer, p: Path, owner: string, group: Option<string>, q: Path)
    requires Trees(s, base) && DoChown(s, base, p, owner, group).ok
    ensures var after := DoChown(s, base, p, owner, group).session;
            && Lookup(s, base, p).Some? && Lookup(after, base, p).Some?
            && var was, now := Returned(Lookup(s, base, p).value), Returned(Lookup(after, base, p).value);
            && now.owner == owner
            && (group.Some? && group.value != "" ==> now.group == group.value)
            && (group.None? || group.value == "" ==> now.group == was.group)
            && now.isDir == was.isDir && now.content == was.content && now.permissions == was.permissions
            && (q != p ==> SameNode(Lookup(after, base, q), Lookup(s, base, q)))
            && after.mutations == s.mutations + [Mutation("chown", p)] && after.tombstones == s.tombstones
  {
    CopyUpEffect(s, base, p, p);
    CopyUpEffect(s, base, p, q);
  }

  // ----- Refusals -----

  /** A call that is refused deletes and logs nothing; at most it has made directories above its path. */
  lemma RefusedEffect(s: Session, base: Layer, op: Op, q: Path)
    requires Trees(s, base) && !Step(s, base, op).ok
    ensures var after := Step(s, base, op).session;
            && after.tombstones == s.tombstones && after.mutations == s.mutations
            && (q in s.overlay ==> q in after.overlay && after.overlay[q] == s.overlay[q])
            && (q in after.overlay && q !in s.overlay && IsDirectory(base, q) ==>
                  SameNode(Some(after.overlay[q]), Some(base[q])))
            && (q in after.overlay && q !in s.overlay && !IsDirectory(base, q) ==>
                  Under(q, op.path) && after.overlay[q] == Entry(true, "", "root", "root", "0755"))
  {
    EnsureEffect(s, base, Parent(op.path), "root", q);
  }

  // ----- The plain filesystem -----

  lemma RefCreateFileEffect(tree: Layer, p: Path, content: string, owner: string, permissions: string, q: Path)
    requires p != []
    ensures var r := RefCreateFile(tree, p, content, owner, permissions);
            && (r.ok <==> IsDirectory(tree, Parent(p)))
            && Find(r.tree, q) == if r.ok && q == p then Some(Entry(false, content, owner, "root", permissions))
                                  else if r.ok && p <= q then None else Find(tree, q)
  {
  }

  lemma RefAppendFileEffect(tree: Layer, p: Path, content: string, q: Path)
    requires p != []
    ensures var r := RefAppendFile(tree, p, content);
            && (r.ok <==> IsFile(tree, p) || IsDirectory(tree, Parent(p)))
            && (IsFile(tree, p) ==>
                  Find(r.tree, q) == if q == p then Some(tree[p].(content := tree[p].content + content))
                                     else Find(tree, q))
            && (!IsFile(tree, p) ==>
                  Find(r.tree, q) == if r.ok && q == p then Some(Entry(false, content, "root", "root", "0644"))
                                     else if r.ok && p <= q then None else Find(tree, q))
  {
  }

  lemma RefCreateDirectoryEffect(tree: Layer, p: Path, owner: string, q: Path)
    requires p != [] && TreeShaped(tree)
    ensures var r := RefCreateDirectory(tree, p, owner);
            && (r.ok <==> IsDirectory(tree, Parent(p)) && p !in tree)
            && Find(r.tree, q) == if r.ok && q == p then Some(Entry(true, "", owner, "root", "0755")) else Find(tree, q)
  {
    NothingUnder(tree, p);
  }

  lemma RefRemoveEffect(tree: Layer, p: Path, recursive: bool, q: Path)
    requires p != []
    ensures var f, d := RefRemoveFile(tree, p), RefRemoveDirectory(tree, p, recursive);
            && (f.ok <==> IsFile(tree, p))
            && (d.ok <==> IsDirectory(tree, p) && (recursive || forall name :: p + [name] !in tree))
            && Find(f.tree, q) == (if f.ok && p <= q then None else Find(tree, q))
            && Find(d.tree, q) == (if d.ok && p <= q then None else Find(tree, q))
  {
  }

  lemma RefChmodEffect(tree: Layer, p: Path, permissions: string, q: Path)
    ensures var r := RefChmod(tree, p, permissions);
            && (r.ok <==> p in tree)
            && Find(r.tree, q) == if r.ok && q == p then Some(tree[p].(permissions := permissions)) else Find(tree, q)
  {
  }

  lemma RefChownEffect(tree: Layer, p: Path, owner: string, group: Option<string>, q: Path)
    ensures var r := RefChown(tree, p, owner, group);
            && (r.ok <==> p in tree) && (q != p || !r.ok ==> Find(r.tree, q) == Find(tree, q))
            && (r.ok ==>
                  && p in r.tree && r.tree[p].owner == owner
                  && (group.Some? && group.value != "" ==> r.tree[p].group == group.value)
                  && (group.None? || group.value == "" ==> r.tree[p].group == tree[p].group)
                  && r.tree[p].isDir == tree[p].isDir && r.tree[p].content == tree[p].content
                  && r.tree[p].permissions == tree[p].permissions)
  {
  }
}
