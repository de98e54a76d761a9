/** The copy-on-write session filesystem: an overlay tree and a set of tombstones over a shared base. */
module SessionFs {
  import opened Options
  import opened Paths
  import opened Layers
  import opened Nodes
  import opened SessionSpec
  import opened SessionFacts
  import opened VirtualFs
  import opened DeltaSpec

  class SessionFilesystem {
    const base: VirtualFilesystem
    var overlay: FSNode
    var tombstones: set<Path>
    var mutations: seq<Mutation>
    var overlayCount: nat
    ghost var at: NodeMap // the overlay's nodes by location

    /** Overlay and base are trees that share no node. */
    ghost predicate Valid()
      reads this, at.Values, base, base.at.Values
    {
      Tree(overlay, at) && base.Valid() && at.Values !! base.at.Values
    }

    ghost function State(): Session
      reads this, at.Values
    {
      Session(Contents(at), tombstones, overlayCount, mutations)
    }

    constructor (base: VirtualFilesystem)
      requires base.Valid()
      ensures this.base == base && Valid() && fresh(at.Values)
      ensures State() == Fresh()
    {
      hide Tree;
      this.base := base;
      var root := new FSNode([], true, "", "root", "root", "0755");
      RootAlone(root);
      overlay := root;
      tombstones := {};
      mutations := [];
      overlayCount := 0;
      at := map[[] := root];
    }

    // ----- Reading -----

    method IsTombstoned(p: Path) returns (r: bool)
      ensures r == Tombstoned(tombstones, p)
    {
      if p in tombstones {
        assert p[..|p|] == p;
        return true;
      }
      for i := 0 to |p|
        invariant forall k :: 0 <= k < i ==> p[..k] !in tombstones
      {
        if p[..i] in tombstones {
          return true;
        }
      }
      assert p[..|p|] == p;
      return false;
    }

    method ReadFile(path: string) returns (content: Option<string>)
      requires Valid()
      ensures var found := Lookup(State(), base.Value(), Normalize(path));
              content == if found.Some? && !found.value.isDir then Some(found.value.content) else None
    {
      var p := NormalizePath(path);
      var hidden := IsTombstoned(p);
      if hidden {
        return None;
      }
      var node := Resolve(overlay, p, at);
      if node != null {
        if node.isDir {
          return None;
        }
        return Some(node.content);
      }
      content := base.ReadFile(p);
    }

    /** The children that no tombstone hides. */
    ghost function Kept(p: Path, children: map<string, FSNode>): map<string, FSNode>
      reads this`tombstones
    {
      map name | name in children && !Tombstoned(tombstones, ChildPath(p, name)) :: children[name]
    }

    /** Adds the children that no tombstone hides; they win over what is there. */
    method Merge(p: Path, children: map<string, FSNode>, into: map<string, FSNode>) returns (merged: map<string, FSNode>)
      ensures merged == into + Kept(p, children)
    {
      merged := into;
      var names := children.Keys;
      while names != {}
        invariant names <= children.Keys
        invariant forall n :: n in merged <==> n in into || (n in Kept(p, children) && n !in names)
        invariant forall n :: n in merged ==>
                    merged[n] == if n in Kept(p, children) && n !in names then children[n] else into[n]
        decreases names
      {
        var name :| name in names;
        var hidden := IsTombstoned(ChildPath(p, name));
        if !hidden {
          merged := merged[name := children[name]];
        }
        names := names - {name};
      }
    }

    /** The merged children of a directory of either layer. */
    ghost function MergedChildren(p: Path): map<string, FSNode>
      reads this, at.Values, base, base.at.Values
    {
      (if p in base.at && base.at[p].isDir then Kept(p, base.at[p].children) else map[])
      + (if p in at && at[p].isDir then Kept(p, at[p].children) else map[])
    }

    /** The merged view of a directory: a node made for reading, sharing the children of both layers. */
    method MergedDirNode(p: Path, overlayNode: FSNode?) returns (merged: FSNode)
      requires Valid()
      requires if p in at then overlayNode == at[p] && at[p].isDir else overlayNode == null
      requires overlayNode == null ==> p in base.at && base.at[p].isDir
      ensures fresh(merged) && merged.isDir
      ensures EntryOf(merged) == CopyOf(EntryOf(if overlayNode == null then base.at[p] else overlayNode).(content := ""))
      ensures merged.children == old(MergedChildren(p))
    {
      hide Tree, Kept;
      var baseNode := base.GetNode(p);
      var children: map<string, FSNode> := map[];
      if baseNode != null && baseNode.isDir {
        children := Merge(p, baseNode.children, children);
      }
      if overlayNode != null {
        children := Merge(p, overlayNode.children, children);
      }
      assert children == MergedChildren(p);
      var e := EntryOf(if overlayNode == null then baseNode else overlayNode);
      merged := new FSNode(p, true, "", e.owner, e.group, e.permissions);
      merged.children := children;
    }

    /** The merged children are the nodes that the specification lists. */
    lemma MergedIsListed(p: Path, name: string)
      requires Valid()
      ensures var children := MergedChildren(p);
              && (if name in children then Some(EntryOf(children[name])) else None)
                 == Listed(State(), base.Value(), p, name)
              && (name in children ==>
                    if p + [name] in at then children[name] == at[p + [name]]
                    else p + [name] in base.at && children[name] == base.at[p + [name]])
    {
      hide Tree;
      ChildOf(overlay, at, p, name);
      ChildOf(base.root, base.at, p, name);
    }

    /** What a lookup returns: nothing, a file's own node, or a merged directory made for the caller. */
    method GetNode(path: string) returns (node: FSNode?)
      requires Valid()
      ensures var found := old(Lookup(State(), base.Value(), Normalize(path)));
              && (node == null <==> found.None?)
              && (node != null ==> EntryOf(node) == Returned(found.value))
      ensures node != null && node.isDir ==> fresh(node) && node.children == old(MergedChildren(Normalize(path)))
    {
      hide *;
      var p := NormalizePath(path);
      node := GetNodeAt(p);
    }

    method GetNodeAt(p: Path) returns (node: FSNode?)
      requires Valid()
      ensures var found := old(Lookup(State(), base.Value(), p));
              && (node == null <==> found.None?)
              && (node != null ==> EntryOf(node) == Returned(found.value))
      ensures node != null && node.isDir ==> fresh(node) && node.children == old(MergedChildren(p))
    {
      hide Tree, MergedChildren, Tombstoned;
      var hidden := IsTombstoned(p);
      if hidden {
        return null;
      }
      node := Resolve(overlay, p, at);
      if node != null {
        assert Contents(at)[p] == EntryOf(node);
        if node.isDir {
          node := MergedDirNode(p, node);
        }
        return;
      }
      var baseNode := base.GetNode(p);
      assert baseNode != null ==> base.Value()[p] == EntryOf(baseNode);
      if baseNode != null && baseNode.isDir {
        node := MergedDirNode(p, null);
        return;
      }
      return baseNode;
    }

    // ----- Overlay bookkeeping -----

    /** Takes over the node map that a change of the overlay left. */
    ghost method Adopt(after: NodeMap)
      requires Tree(overlay, after) && base.Valid() && after.Values !! base.at.Values
      modifies this`at
      ensures at == after && Valid()
      ensures Contents(at) == old(Contents(after)) && base.Value() == old(base.Value())
    {
      hide Tree, Contents;
      at := after;
    }

    /** parent.children[basename(p)] = new node */
    method Place(parent: FSNode, p: Path, e: Entry) returns (node: FSNode)
      requires Valid() && Parent(p) in at && at[Parent(p)] == parent && parent.isDir
      modifies this`at, at.Values
      ensures Valid() && fresh(at.Values - old(at.Values))
      ensures Contents(at) == Put(old(Contents(at)), Target(p), CopyOf(e))
      ensures Target(p) in at && at[Target(p)] == node
      ensures base.Value() == old(base.Value())
    {
      hide Tree;
      var name := if p == [] then "" else p[|p| - 1];
      assert Parent(p) + [name] == Target(p);
      ghost var after;
      node, after := AddNode(overlay, parent, name, e, Parent(p), at);
      Adopt(after);
    }

    lemma RootLocated()
      requires Valid()
      ensures [] in at && at[[]] == overlay && overlay.isDir
    {
    }

    lemma ChildLocated(p: Path, name: string)
      requires Valid()
      ensures p + [name] in at <==> p in at && name in at[p].children
      ensures p + [name] in at ==> at[p].isDir && at[p + [name]] == at[p].children[name]
    {
      ChildOf(overlay, at, p, name);
    }

    lemma Shapes()
      requires Valid()
      ensures TreeShaped(Contents(at)) && TreeShaped(base.Value())
    {
      ContentsTreeShaped(overlay, at);
      ContentsTreeShaped(base.root, base.at);
    }

    /** Rewrites the fields of an overlay node. */
    method Write(node: FSNode, e: Entry, ghost p: Path)
      requires Valid() && p in at && at[p] == node && e.isDir == node.isDir
      modifies node
      ensures Valid() && base.Value() == old(base.Value())
      ensures Contents(at) == old(Contents(at))[p := e]
    {
      hide Tree;
      ghost var links, value := LinksOf(base.at), base.Value();
      Rewrite(overlay, node, e, p, at);
      assert LinksOf(base.at) == links && base.Value() == value;
    }

    /** The bookkeeping at the end of a successful write. */
    method Record(count: nat, tombstones: set<Path>, op: string, p: Path)
      requires Valid()
      modifies this`overlayCount, this`tombstones, this`mutations
      ensures Valid() && base.Value() == old(base.Value())
      ensures State() == Log(Session(old(Contents(at)), tombstones, count, old(mutations)), op, p)
    {
      hide Tree, Contents;
      overlayCount := count;
      this.tombstones := tombstones;
      mutations := mutations + [Mutation(op, p)];
    }

    /** The overlay gets a directory at q, with the base directory's metadata if there is one. */
    method MakeDirectory(current: FSNode, q: Path, owner: string) returns (next: FSNode)
      requires Valid() && q != [] && Parent(q) in at && at[Parent(q)] == current && current.isDir
      requires q !in at
      modifies this`at, at.Values
      ensures Valid() && fresh(at.Values - old(at.Values))
      ensures base.Value() == old(base.Value())
      ensures q in at && at[q] == next && next.isDir
      ensures Contents(at) == old(Contents(at))[q := DirectoryEntry(base.Value(), q, owner)]
    {
      hide Tree;
      var baseNode := base.GetNode(q);
      var e := if baseNode != null && baseNode.isDir then EntryOf(baseNode).(content := "") else NewDirectory(owner);
      assert CopyOf(e) == DirectoryEntry(base.Value(), q, owner);
      assert Put(Contents(at), q, CopyOf(e)) == Contents(at)[q := CopyOf(e)] by {
        Shapes();
        PutNew(Contents(at), q, CopyOf(e));
      }
      next := Place(current, q, e);
      assert Contents(at)[q] == EntryOf(next);
    }

    /** One turn of the loop below: the overlay's child of `current` at q, made if it is missing; null without quota. */
    method EnsureChild(current: FSNode, q: Path, owner: string) returns (next: FSNode?)
      requires Valid() && q != [] && Parent(q) in at && at[Parent(q)] == current && current.isDir
      modifies this`at, this`overlayCount, at.Values
      ensures Valid() && fresh(at.Values - old(at.Values))
      ensures base.Value() == old(base.Value())
      ensures next != null ==> q in at && at[q] == next
      ensures next != null && q !in old(at) ==> next.isDir
      ensures q in old(at) ==>
                next != null && Contents(at) == old(Contents(at)) && overlayCount == old(overlayCount)
      ensures q !in old(at) && old(overlayCount) >= MAX_FILES_PER_SESSION ==>
                next == null && Contents(at) == old(Contents(at)) && overlayCount == old(overlayCount)
      ensures q !in old(at) && old(overlayCount) < MAX_FILES_PER_SESSION ==>
                && next != null && overlayCount == old(overlayCount) + 1
                && Contents(at) == old(Contents(at))[q := DirectoryEntry(base.Value(), q, owner)]
    {
      hide Tree, DirectoryEntry, Contents;
      var part := q[|q| - 1];
      assert Parent(q) + [part] == q;
      ChildLocated(Parent(q), part);
      if part !in current.children {
        if overlayCount >= MAX_FILES_PER_SESSION {
          return null;
        }
        next := MakeDirectory(current, q, owner);
        overlayCount := overlayCount + 1;
      } else {
        next := current.children[part];
      }
    }

    /** The same turn in terms of the whole way to dir: null where it ends without a directory. */
    method EnsureStep(current: FSNode, dir: Path, k: nat, owner: string) returns (next: FSNode?)
      requires Valid() && k < |dir| && dir[..k] in at && at[dir[..k]] == current && current.isDir
      modifies this`at, this`overlayCount, at.Values
      ensures Valid() && fresh(at.Values - old(at.Values))
      ensures base.Value() == old(base.Value())
      ensures next != null ==> dir[..k + 1] in at && at[dir[..k + 1]] == next && next.isDir
      ensures EnsureFrom(old(Contents(at)), old(overlayCount), base.Value(), dir, owner, k)
           == if next == null then Ensured(Contents(at), overlayCount, false)
              else EnsureFrom(Contents(at), overlayCount, base.Value(), dir, owner, k + 1)
    {
      hide Tree, DirectoryEntry;
      var q := dir[..k + 1];
      assert Parent(q) == dir[..k];
      next := EnsureChild(current, q, owner);
      assert next != null ==> Contents(at)[q] == EntryOf(next);
      if next != null && !next.isDir {
        next := null;
      }
    }

    /** The overlay's directory at dir, made with its ancestors where missing, like mkdir -p. */
    method EnsureOverlayDir(dir: Path, owner: string) returns (node: FSNode?)
      requires Valid()
      modifies this`at, this`overlayCount, at.Values
      ensures Valid() && fresh(at.Values - old(at.Values))
      ensures Ensured(Contents(at), overlayCount, node != null) == Ensure(old(State()), base.Value(), dir, owner)
      ensures node != null ==> dir in at && at[dir] == node && node.isDir
      ensures base.Value() == old(base.Value())
    {
      hide Tree, Contents, EnsureFrom;
      var current := overlay;
      RootLocated();
      for k := 0 to |dir|
        invariant Valid() && fresh(at.Values - old(at.Values))
        invariant dir[..k] in at && at[dir[..k]] == current && current.isDir
        invariant EnsureFrom(Contents(at), overlayCount, base.Value(), dir, owner, k)
               == Ensure(old(State()), base.Value(), dir, owner)
        invariant base.Value() == old(base.Value())
      {
        var next := EnsureStep(current, dir, k, owner);
        if next == null {
          return null;
        }
        current := next;
      }
      EnsureAll(Contents(at), overlayCount, base.Value(), dir, owner);
      assert dir[..|dir|] == dir;
      return current;
    }

    // ----- Writing -----

    method CreateFile(path: string, content: string, owner: string, permissions: string) returns (ok: bool)
      requires Valid()
      modifies this, at.Values
      ensures Valid() && fresh(at.Values - old(at.Values))
      ensures base.Value() == old(base.Value())
      ensures Outcome(State(), ok)
           == DoCreateFile(old(State()), base.Value(), Normalize(path), content, owner, permissions)
    {
      hide *;
      var p := NormalizePath(path);
      ok := CreateFileAt(p, content, owner, permissions);
    }

    method CreateFileAt(p: Path, content: string, owner: string, permissions: string) returns (ok: bool)
      requires Valid()
      modifies this, at.Values
      ensures Valid() && fresh(at.Values - old(at.Values))
      ensures base.Value() == old(base.Value())
      ensures Outcome(State(), ok) == DoCreateFile(old(State()), base.Value(), p, content, owner, permissions)
    {
      hide Tree, EnsureFrom;
      if overlayCount >= MAX_FILES_PER_SESSION {
        return false;
      }
      var parent := EnsureOverlayDir(Parent(p), "root");
      if parent == null {
        return false;
      }
      var _ := Place(parent, p, NewFile(content, owner, permissions));
      Record(overlayCount + 1, tombstones - {p}, "create_file", p);
      return true;
    }

    method AppendFile(path: string, content: string) returns (ok: bool)
      requires Valid()
      modifies this, at.Values
      ensures Valid() && fresh(at.Values - old(at.Values))
      ensures base.Value() == old(base.Value())
      ensures Outcome(State(), ok) == DoAppendFile(old(State()), base.Value(), Normalize(path), content)
    {
      hide Tree, EnsureFrom, DoCreateFile, Tombstoned, Normalize;
      var p := NormalizePath(path);
      var node := Resolve(overlay, p, at);
      if node == null && overlayCount >= MAX_FILES_PER_SESSION {
        return false;
      }
      if node != null && !node.isDir {
        AppendInPlace(node, p, content);
        return true;
      }
      ok := AppendByCreating(p, content);
    }

    /** The part of append_file on a file of the overlay. */
    method AppendInPlace(node: FSNode, p: Path, content: string)
      requires Valid() && p in at && at[p] == node && !node.isDir
      modifies this`overlayCount, this`tombstones, this`mutations, node
      ensures Valid() && base.Value() == old(base.Value()) && at == old(at)
      ensures Outcome(State(), true) == DoAppendFile(old(State()), base.Value(), p, content)
    {
      hide Tree, DoCreateFile, Tombstoned;
      assert Contents(at)[p] == EntryOf(node);
      Write(node, EntryOf(node).(content := node.content + content), p);
      Record(overlayCount, tombstones, "append_file", p);
    }

    /** The part of append_file past the overlay: copy up from the base, or create anew. */
    method AppendByCreating(p: Path, content: string) returns (ok: bool)
      requires Valid() && (p in at ==> at[p].isDir)
      requires p !in at ==> overlayCount < MAX_FILES_PER_SESSION
      modifies this, at.Values
      ensures Valid() && fresh(at.Values - old(at.Values))
      ensures base.Value() == old(base.Value())
      ensures Outcome(State(), ok) == DoAppendFile(old(State()), base.Value(), p, content)
    {
      hide Tree, EnsureFrom, DoCreateFile;
      var hidden := IsTombstoned(p);
      if !hidden {
        var baseNode := base.GetNode(p);
        if baseNode != null && !baseNode.isDir {
          ok := CreateFileAt(p, baseNode.content + content, baseNode.owner, baseNode.permissions);
          return;
        }
      }
      ok := CreateFileAt(p, content, "root", "0644");
    }

    method CreateDirectory(path: string, owner: string, parents: bool) returns (ok: bool)
      requires Valid()
      modifies this, at.Values
      ensures Valid() && fresh(at.Values - old(at.Values))
      ensures base.Value() == old(base.Value())
      ensures Outcome(State(), ok) == DoCreateDirectory(old(State()), base.Value(), Normalize(path), owner, parents)
    {
      hide Tree, EnsureFrom;
      var p := NormalizePath(path);
      if overlayCount >= MAX_FILES_PER_SESSION {
        return false;
      }
      if parents {
        var _ := EnsureOverlayDir(p, owner);
        Record(overlayCount, tombstones - {p}, "create_dir", p);
        return true;
      }
      ok := CreateOneDirectory(p, owner);
    }

    /** The part of create_directory without `parents`. */
    method CreateOneDirectory(p: Path, owner: string) returns (ok: bool)
      requires Valid() && overlayCount < MAX_FILES_PER_SESSION
      modifies this, at.Values
      ensures Valid() && fresh(at.Values - old(at.Values))
      ensures base.Value() == old(base.Value())
      ensures Outcome(State(), ok) == DoCreateDirectory(old(State()), base.Value(), p, owner, false)
    {
      hide Tree, EnsureFrom, Lookup;
      var existing := GetNodeAt(p);
      if existing != null {
        return false;
      }
      var parent := EnsureOverlayDir(Parent(p), "root");
      if parent == null {
        return false;
      }
      var _ := Place(parent, p, NewDirectory(owner));
      Record(overlayCount + 1, tombstones - {p}, "create_dir", p);
      return true;
    }

    method RemoveFile(path: string) returns (ok: bool)
      requires Valid()
      modifies this, at.Values
      ensures Valid() && at.Values <= old(at.Values)
      ensures base.Value() == old(base.Value())
      ensures Outcome(State(), ok) == DoRemoveFile(old(State()), base.Value(), Normalize(path))
    {
      hide Tree, Tombstoned, Prune, Normalize;
      var p := NormalizePath(path);
      var existed := DropFile(p);
      if !existed {
        existed := BaseFileShows(p);
      }
      if existed {
        Record(overlayCount, tombstones + {p}, "delete_file", p);
        return true;
      }
      return false;
    }

    method BaseFileShows(p: Path) returns (shows: bool)
      requires Valid()
      ensures shows == (IsFile(base.Value(), p) && !Tombstoned(tombstones, p))
    {
      hide Tree;
      var baseNode := base.GetNode(p);
      assert baseNode != null ==> base.Value()[p] == EntryOf(baseNode);
      if baseNode == null || baseNode.isDir {
        return false;
      }
      var hidden := IsTombstoned(p);
      return !hidden;
    }

    /** Deletes the overlay's file at p, if there is one. */
    method DropFile(p: Path) returns (dropped: bool)
      requires Valid()
      modifies this`at, at.Values
      ensures Valid() && at.Values <= old(at.Values)
      ensures base.Value() == old(base.Value())
      ensures dropped == IsFile(old(Contents(at)), Target(p))
      ensures Contents(at) == if dropped then Prune(old(Contents(at)), Target(p)) else old(Contents(at))
    {
      hide Tree;
      var parent := Resolve(overlay, Parent(p), at);
      TargetHangs(p);
      if parent != null && parent.isDir {
        var name := if p == [] then "" else p[|p| - 1];
        assert Parent(p) + [name] == Target(p);
        if name in parent.children {
          var node := parent.children[name];
          assert Contents(at)[Target(p)] == EntryOf(node);
          if !node.isDir {
            ghost var after := Detach(overlay, parent, name, Parent(p), at);
            Adopt(after);
            return true;
          }
        }
      }
      return false;
    }

    lemma TargetHangs(p: Path)
      requires Valid()
      ensures var name := if p == [] then "" else p[|p| - 1];
              && (Target(p) in at <==>
                    Parent(p) in at && at[Parent(p)].isDir && name in at[Parent(p)].children)
              && (Target(p) in at ==> at[Parent(p)].children[name] == at[Target(p)])
    {
      hide Tree;
      var name := if p == [] then "" else p[|p| - 1];
      assert Parent(p) + [name] == Target(p);
      ChildOf(overlay, at, Parent(p), name);
    }

    /** Brings the node at p into the overlay and returns it; null if p does not show or the quota is used up. */
    method CopyUpNode(p: Path) returns (node: FSNode?)
      requires Valid()
      modifies this`at, this`overlayCount, at.Values
      ensures Valid() && fresh(at.Values - old(at.Values))
      ensures base.Value() == old(base.Value())
      ensures Outcome(State(), node != null) == CopyUp(old(State()), base.Value(), p)
      ensures node != null ==> p in at && at[p] == node
    {
      hide Tree, EnsureFrom, Tombstoned, Put, CopyOf;
      RootLocated();
      var hidden := IsTombstoned(p);
      if hidden {
        return null;
      }
      var existing := Resolve(overlay, p, at);
      if existing != null {
        return existing;
      }
      node := CopyFromBase(p);
    }

    /** The part of the copy-up past the overlay. */
    method CopyFromBase(p: Path) returns (node: FSNode?)
      requires Valid() && p !in at && p != [] && !Tombstoned(tombstones, p)
      modifies this`at, this`overlayCount, at.Values
      ensures Valid() && fresh(at.Values - old(at.Values))
      ensures base.Value() == old(base.Value())
      ensures Outcome(State(), node != null) == CopyUp(old(State()), base.Value(), p)
      ensures node != null ==> p in at && at[p] == node
    {
      hide Tree, EnsureFrom, Tombstoned, Put;
      var baseNode := base.GetNode(p);
      if baseNode == null {
        return null;
      }
      assert base.Value()[p] == EntryOf(baseNode);
      var parent := EnsureOverlayDir(Parent(p), "root");
      if parent == null {
        return null;
      }
      node := Place(parent, p, EntryOf(baseNode));
    }

    method Chmod(path: string, permissions: string) returns (ok: bool)
      requires Valid()
      modifies this, at.Values
      ensures Valid() && fresh(at.Values - old(at.Values))
      ensures base.Value() == old(base.Value())
      ensures Outcome(State(), ok) == DoChmod(old(State()), base.Value(), Normalize(path), permissions)
    {
      hide Tree, EnsureFrom, CopyUp;
      var p := NormalizePath(path);
      var node := CopyUpNode(p);
      if node == null {
        return false;
      }
      assert Contents(at)[p] == EntryOf(node);
      Write(node, EntryOf(node).(permissions := permissions), p);
      Record(overlayCount, tombstones, "chmod", p);
      return true;
    }

    method Chown(path: string, owner: string, group: Option<string>) returns (ok: bool)
      requires Valid()
      modifies this, at.Values
      ensures Valid() && fresh(at.Values - old(at.Values))
      ensures base.Value() == old(base.Value())
      ensures Outcome(State(), ok) == DoChown(old(State()), base.Value(), Normalize(path), owner, group)
    {
      hide Tree, EnsureFrom, CopyUp;
      var p := NormalizePath(path);
      var node := CopyUpNode(p);
      if node == null {
        return false;
      }
      assert Contents(at)[p] == EntryOf(node);
      Write(node, ApplyOwner(EntryOf(node), owner, group), p);
      Record(overlayCount, tombstones, "chown", p);
      return true;
    }

    /** Tombstones p and all its descendants in the tree that holds `node`. */
    method TombstoneRecursive(p: Path, node: FSNode, ghost root: FSNode, ghost tree: NodeMap, ghost links: Links)
      requires Linked(root, tree, links) && LinksOf(tree) == links
      requires p in tree && tree[p] == node && p != []
      modifies this`tombstones
      ensures tombstones == old(tombstones) + Below(tree.Keys, p)
      ensures LinksOf(tree) == links
      decreases Below(tree.Keys, p)
    {
      hide Linked;
      tombstones := tombstones + {p};
      var children := node.children;
      var names := children.Keys;
      assert links[p] == children;
      BelowByName(root, tree, links, p);
      while names != {}
        invariant LinksOf(tree) == links && names <= children.Keys
        invariant forall q :: q in tombstones <==>
                    q in old(tombstones) || q == p || (q in tree && Under(p, q) && q[|p|] !in names)
        decreases names
      {
        var name :| name in names;
        ghost var before := tombstones;
        BelowChild(root, tree, links, p, name);
        TombstoneRecursive(p + [name], children[name], root, tree, links);
        names := names - {name};
      }
    }

    /** The tree that holds the merged child of p: the overlay if it has the location, else the base. */
    ghost function Holder(child: Path): NodeMap
      reads this`at, base`at
    {
      if child in at then at else base.at
    }

    /** q is p or hangs below a merged child of p not among `names`, in the tree that child comes from. */
    ghost predicate Reached(q: Path, p: Path, children: map<string, FSNode>, names: set<string>)
      reads this`at, base`at
    {
      q == p || (Under(p, q) && q[|p|] in children && q[|p|] !in names && q in Holder(p + [q[|p|]]))
    }

    /** What a removal buries, child by child: the child's subtree in the layer the listing takes it from. */
    lemma BuriedByName(p: Path)
      requires Valid() && p != []
      ensures var children := MergedChildren(p);
              && (forall q :: q in Buried(State(), base.Value(), p) <==> Reached(q, p, children, {}))
              && (forall name :: name in children ==>
                    p + [name] in Holder(p + [name]) && children[name] == Holder(p + [name])[p + [name]])
    {
      hide Tree, MergedChildren;
      var children := MergedChildren(p);
      forall name: string
        ensures name in children <==> Listed(State(), base.Value(), p, name).Some?
        ensures name in children ==>
                  p + [name] in Holder(p + [name]) && children[name] == Holder(p + [name])[p + [name]]
      {
        MergedIsListed(p, name);
      }
    }

    /** Tombstones the subtree of the merged child `name` of p. */
    method TombstoneChild(p: Path, name: string, node: FSNode, ghost links: Links, ghost baseLinks: Links)
      requires Linked(overlay, at, links) && LinksOf(at) == links
      requires Linked(base.root, base.at, baseLinks) && LinksOf(base.at) == baseLinks
      requires p != [] && p + [name] in Holder(p + [name]) && node == Holder(p + [name])[p + [name]]
      modifies this`tombstones
      ensures LinksOf(at) == links && LinksOf(base.at) == baseLinks
      ensures forall q :: q in tombstones <==>
                q in old(tombstones) || (Under(p, q) && q[|p|] == name && q in Holder(p + [q[|p|]]))
    {
      hide Linked;
      ghost var child := p + [name];
      TombstoneRecursive(p + [name], node, if child in at then overlay else base.root, Holder(child),
                         if child in at then links else baseLinks);
      forall q
        ensures q in Below(Holder(child).Keys, child) <==>
                  Under(p, q) && q[|p|] == name && q in Holder(p + [q[|p|]])
      {
        BelowIs(child, p, name, q);
      }
    }

    /** The first level of the recursive tombstoning, over the merged view of p. */
    method TombstoneMerged(p: Path, children: map<string, FSNode>)
      requires Valid() && p != []
      requires forall name :: name in children ==>
                 p + [name] in Holder(p + [name]) && children[name] == Holder(p + [name])[p + [name]]
      modifies this`tombstones
      ensures Valid() && base.Value() == old(base.Value()) && Contents(at) == old(Contents(at))
      ensures forall q :: q in tombstones <==> q in old(tombstones) || Reached(q, p, children, {})
    {
      hide Linked, Holder, Under, Contents;
      ghost var links, baseLinks := LinksOf(at), LinksOf(base.at);
      tombstones := tombstones + {p};
      var names := children.Keys;
      while names != {}
        invariant LinksOf(at) == links && LinksOf(base.at) == baseLinks && names <= children.Keys
        invariant forall q :: q in tombstones <==> q in old(tombstones) || Reached(q, p, children, names)
        decreases names
      {
        var name :| name in names;
        TombstoneChild(p, name, children[name], links, baseLinks);
        names := names - {name};
      }
    }

    method RemoveDirectory(path: string, recursive: bool) returns (ok: bool)
      requires Valid()
      modifies this, at.Values
      ensures Valid() && at.Values <= old(at.Values)
      ensures base.Value() == old(base.Value())
      ensures Outcome(State(), ok) == DoRemoveDirectory(old(State()), base.Value(), Normalize(path), recursive)
    {
      hide Tree, MergedChildren, Buried, Tombstoned, EmptyDirectory;
      var p := NormalizePath(path);
      if p == [] {
        return false;
      }
      var node := GetNodeAt(p);
      if node == null || !node.isDir {
        return false;
      }
      var children := node.children;
      EmptyIsListed(p);
      if !recursive && children != map[] {
        return false;
      }
      RemoveFound(p, children, recursive);
      return true;
    }

    /** The part of remove_directory past the checks. */
    method RemoveFound(p: Path, children: map<string, FSNode>, recursive: bool)
      requires Valid() && p != [] && children == MergedChildren(p)
      modifies this, at.Values
      ensures Valid() && at.Values <= old(at.Values)
      ensures base.Value() == old(base.Value())
      ensures var s := old(State());
              var buried := if recursive then Buried(s, base.Value(), p) else {p};
              State() == Log(s.(overlay := Prune(s.overlay, p), tombstones := s.tombstones + buried), "delete_dir", p)
    {
      hide Tree, MergedChildren, Buried;
      Bury(p, children, recursive);
      DropDirectory(p);
      Record(overlayCount, tombstones, "delete_dir", p);
    }

    method Bury(p: Path, children: map<string, FSNode>, recursive: bool)
      requires Valid() && p != [] && children == MergedChildren(p)
      modifies this`tombstones
      ensures Valid() && base.Value() == old(base.Value()) && Contents(at) == old(Contents(at))
      ensures tombstones == old(tombstones) + if recursive then Buried(old(State()), base.Value(), p) else {p}
    {
      hide Tree, MergedChildren, Buried, Under, Contents, Holder;
      if recursive {
        BuriedByName(p);
        TombstoneMerged(p, children);
      } else {
        tombstones := tombstones + {p};
      }
    }

    lemma EmptyIsListed(p: Path)
      requires Valid()
      ensures MergedChildren(p) == map[] <==> EmptyDirectory(State(), base.Value(), p)
    {
      forall name: string
        ensures name in MergedChildren(p) <==> Listed(State(), base.Value(), p, name).Some?
      {
        MergedIsListed(p, name);
      }
    }

    /** Deletes the overlay's node at p, if there is one, with all below it. */
    method DropDirectory(p: Path)
      requires Valid() && p != []
      modifies this`at, at.Values
      ensures Valid() && at.Values <= old(at.Values)
      ensures base.Value() == old(base.Value())
      ensures Contents(at) == Prune(old(Contents(at)), p)
    {
      hide Tree, TreeShaped;
      var parent := Resolve(overlay, Parent(p), at);
      TargetHangs(p);
      var name := p[|p| - 1];
      assert Parent(p) + [name] == p;
      if parent != null && name in parent.children {
        ghost var after := Detach(overlay, parent, name, Parent(p), at);
        Adopt(after);
      } else {
        ChildLocated(Parent(p), name);
        Shapes();
        NothingUnder(Contents(at), p);
        assert Prune(Contents(at), p) == Contents(at);
      }
    }

    // ----- Forensic delta -----

    lemma FileHasNothingBelow(p: Path)
      requires Valid() && p in at && !at[p].isDir
      ensures forall q :: q in at && p <= q ==> q == p
    {
      Shapes();
      NothingUnder(Contents(at), p);
    }

    /** The three reports of a walk that met the locations of `order`. */
    ghost predicate Reports(order: seq<Path>, created: seq<FileReport>, modified: seq<FileReport>, dirs: seq<Path>)
      reads this, at.Values, base, base.at.Values
    {
      && Distinct(order)
      && created == FileReports(Contents(at), base.Value(), order, false)
      && modified == FileReports(Contents(at), base.Value(), order, true)
      && dirs == DirectoryReports(Contents(at), base.Value(), order)
    }

    lemma ReportsConcat(order: seq<Path>, created: seq<FileReport>, modified: seq<FileReport>, dirs: seq<Path>,
                        order': seq<Path>, created': seq<FileReport>, modified': seq<FileReport>, dirs': seq<Path>)
      requires Reports(order, created, modified, dirs) && Reports(order', created', modified', dirs')
      requires forall q :: q in order ==> q !in order'
      ensures Reports(order + order', created + created', modified + modified', dirs + dirs')
    {
      FileReportsConcat(Contents(at), base.Value(), order, order', false);
      FileReportsConcat(Contents(at), base.Value(), order, order', true);
      DirectoryReportsConcat(Contents(at), base.Value(), order, order');
      assert forall i :: 0 <= i < |order| ==> (order + order')[i] in order;
      assert forall i :: |order| <= i < |order + order'| ==> (order + order')[i] in order';
    }

    lemma ReportsOne(p: Path)
      requires Valid() && p in at && p != []
      ensures Reports([p], FileReportsOf(Contents(at), base.Value(), p, false),
                      FileReportsOf(Contents(at), base.Value(), p, true),
                      DirectoryReportsOf(Contents(at), base.Value(), p))
    {
      assert [p][1..] == [];
    }

    /** The report of an overlay node itself. */
    method ReportNode(location: Path, node: FSNode)
      returns (created: seq<FileReport>, modified: seq<FileReport>, dirs: seq<Path>)
      requires Valid() && location != [] && location in at && at[location] == node
      ensures Reports([location], created, modified, dirs)
    {
      hide Tree;
      var baseNode := base.GetNode(Reported(location));
      assert Contents(at)[location] == EntryOf(node);
      ReportsOne(location);
      if node.isDir {
        return [], [], if baseNode == null then [Reported(location)] else [];
      } else if baseNode == null {
        return [ReportOf(EntryOf(node), location)], [], [];
      } else {
        return [], [ReportOf(EntryOf(node), location)], [];
      }
    }

    /** One turn of the walk: the child `name` of p, and what hangs below it. */
    method CollectChild(p: Path, name: string, child: FSNode)
      returns (created: seq<FileReport>, modified: seq<FileReport>, dirs: seq<Path>, ghost order: seq<Path>)
      requires Valid() && p + [name] in at && at[p + [name]] == child
      ensures forall q :: q in order <==> q in at && p + [name] <= q
      ensures Reports(order, created, modified, dirs)
      decreases Below(at.Keys, p + [name]), 1
    {
      hide Tree, Reports;
      var location := p + [name];
      assert forall q :: location <= q <==> q == location || Under(location, q);
      created, modified, dirs := ReportNode(location, child);
      order := [location];
      if child.isDir {
        var created', modified', dirs';
        ghost var order';
        created', modified', dirs', order' := CollectOverlayNodes(location, child);
        ReportsConcat(order, created, modified, dirs, order', created', modified', dirs');
        created, modified, dirs := created + created', modified + modified', dirs + dirs';
        order := order + order';
      } else {
        FileHasNothingBelow(location);
      }
    }

    /** Walks the overlay below p and reports what it finds; `order` is the order of the walk. */
    method CollectOverlayNodes(p: Path, node: FSNode)
      returns (created: seq<FileReport>, modified: seq<FileReport>, dirs: seq<Path>, ghost order: seq<Path>)
      requires Valid() && p in at && at[p] == node
      ensures forall q :: q in order <==> q in at && Under(p, q)
      ensures Reports(order, created, modified, dirs)
      decreases Below(at.Keys, p), 0
    {
      hide Tree, Reports;
      created, modified, dirs, order := [], [], [], [];
      ReportsNone();
      var children := node.children;
      var names := children.Keys;
      ghost var met: set<string> := {};
      while names != {}
        invariant names <= children.Keys
        invariant forall q :: q in order <==> q in at && Under(p, q) && q[|p|] in met
        invariant met + names == children.Keys && met !! names
        invariant Reports(order, created, modified, dirs)
        decreases names
      {
        var name :| name in names;
        ChildBelow(p, name);
        var created', modified', dirs';
        ghost var order';
        created', modified', dirs', order' := CollectChild(p, name, children[name]);
        ReportsConcat(order, created, modified, dirs, order', created', modified', dirs');
        created, modified, dirs := created + created', modified + modified', dirs + dirs';
        order := order + order';
        names := names - {name};
        met := met + {name};
      }
      AllBelow(p);
    }

    lemma ReportsNone()
      ensures Reports([], [], [], [])
    {
    }

    lemma ChildBelow(p: Path, name: string)
      requires Valid() && p in at && name in at[p].children
      ensures p + [name] in at && at[p + [name]] == at[p].children[name]
      ensures Below(at.Keys, p + [name]) < Below(at.Keys, p)
      ensures forall q :: p + [name] <= q <==> Under(p, q) && q[|p|] == name
    {
      BelowChild(overlay, at, LinksOf(at), p, name);
      forall q
        ensures p + [name] <= q <==> Under(p, q) && q[|p|] == name
      {
        BelowIs(p + [name], p, name, q);
      }
    }

    lemma AllBelow(p: Path)
      requires Valid() && p in at
      ensures forall q :: q in at && Under(p, q) ==> q[|p|] in at[p].children
    {
      BelowByName(overlay, at, LinksOf(at), p);
    }

    /** The forensic delta: files the session made or changed, directories it made, paths it deleted. */
    method GetDelta()
      returns (created: seq<FileReport>, modified: seq<FileReport>, dirs: seq<Path>, deleted: set<Path>,
               mutationCount: nat, log: seq<Mutation>, ghost order: seq<Path>)
      requires Valid()
      ensures forall q :: q in order <==> q in State().overlay && q != []
      ensures Distinct(order)
      ensures created == FileReports(State().overlay, base.Value(), order, false)
      ensures modified == FileReports(State().overlay, base.Value(), order, true)
      ensures dirs == DirectoryReports(State().overlay, base.Value(), order)
      ensures (set r | r in created :: r.path) == FilesCreated(State().overlay, base.Value())
      ensures (set r | r in modified :: r.path) == FilesModified(State().overlay, base.Value())
      ensures (set r | r in dirs) == DirsCreated(State().overlay, base.Value())
      ensures deleted == State().tombstones && log == State().mutations && mutationCount == |log|
    {
      hide Tree;
      RootLocated();
      created, modified, dirs, order := CollectOverlayNodes([], overlay);
      deleted := tombstones;
      mutationCount, log := |mutations|, mutations;
      ReportedPaths(State().overlay, base.Value(), order, false);
      ReportedPaths(State().overlay, base.Value(), order, true);
      ReportedDirectories(State().overlay, base.Value(), order);
    }
  }

  ghost function Below(locations: set<Path>, p: Path): set<Path> {
    set q | q in locations && p <= q
  }

  lemma BelowIs(child: Path, p: Path, name: string, q: Path)
    requires child == p + [name]
    ensures child <= q <==> Under(p, q) && q[|p|] == name
    ensures Under(p, q) && q[|p|] == name ==> p + [q[|p|]] == child
  {
  }

  lemma BelowByName(root: FSNode, tree: NodeMap, links: Links, p: Path)
    requires Linked(root, tree, links) && p in tree
    ensures forall q :: q in tree && Under(p, q) ==> q[|p|] in links[p]
  {
    forall q | q in tree && Under(p, q)
      ensures q[|p|] in links[p]
    {
      var child := q[..|p| + 1];
      assert Parent(child) == p && child <= q;
      LinkedPrefix(root, tree, links, child, q);
    }
  }

  lemma BelowChild(root: FSNode, tree: NodeMap, links: Links, p: Path, name: string)
    requires Linked(root, tree, links) && p in tree && name in links[p]
    ensures p + [name] in tree && tree[p + [name]] == links[p][name]
    ensures Below(tree.Keys, p + [name]) < Below(tree.Keys, p)
    ensures forall q :: q in Below(tree.Keys, p + [name]) <==> q in tree && Under(p, q) && q[|p|] == name
  {
    assert p in Below(tree.Keys, p) && p !in Below(tree.Keys, p + [name]);
  }
}
