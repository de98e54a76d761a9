/** The plain in-memory filesystem, the reference the session filesystem stands in for. */
module VirtualFs {
  import opened Options
  import opened Paths
  import opened Layers
  import opened Nodes
  import opened SessionSpec
  import opened ReferenceSpec

  class VirtualFilesystem {
    var root: FSNode
    ghost var at: NodeMap

    ghost predicate Valid()
      reads this, at.Values
    {
      Tree(root, at)
    }

    /** The tree this object holds, as a value. */
    ghost function Value(): Layer
      reads this, at.Values
    {
      Contents(at)
    }

    constructor ()
      ensures Valid() && fresh(at.Values)
      ensures Value() == Fresh().overlay
    {
      hide Tree;
      var node := new FSNode([], true, "", "root", "root", "0755");
      RootAlone(node);
      root := node;
      at := map[[] := node];
    }

    /** Takes over the node map that a change of the tree left. */
    ghost method Adopt(after: NodeMap)
      requires Tree(root, after)
      modifies this`at
      ensures at == after && Valid()
      ensures Value() == old(Contents(after))
    {
      var links, value := LinksOf(after), Contents(after);
      at := after;
      assert LinksOf(at) == links && Contents(at) == value;
    }

    method GetNode(p: Path) returns (node: FSNode?)
      requires Valid()
      ensures node == if p in at then at[p] else null
    {
      node := Resolve(root, p, at);
    }

    method ReadFile(p: Path) returns (content: Option<string>)
      requires Valid()
      ensures content == if p in Value() && !Value()[p].isDir then Some(Value()[p].content) else None
    {
      var node := Resolve(root, p, at);
      if node == null || node.isDir {
        return None;
      }
      return Some(node.content);
    }

    /** parent.children[basename(p)] = new node */
    method Place(parent: FSNode, p: Path, e: Entry)
      requires Valid() && Parent(p) in at && at[Parent(p)] == parent && parent.isDir
      modifies this, at.Values
      ensures Valid() && fresh(at.Values - old(at.Values))
      ensures Value() == Put(old(Value()), Target(p), CopyOf(e))
    {
      var name := if p == [] then "" else p[|p| - 1];
      assert Parent(p) + [name] == Target(p);
      var _, after := AddNode(root, parent, name, e, Parent(p), at);
      Adopt(after);
    }

    method CreateFile(p: Path, content: string, owner: string, permissions: string) returns (ok: bool)
      requires Valid()
      modifies this, at.Values
      ensures Valid() && fresh(at.Values - old(at.Values))
      ensures Reply(Value(), ok) == RefCreateFile(old(Value()), p, content, owner, permissions)
    {
      var parent := Resolve(root, Parent(p), at);
      ok := parent != null && parent.isDir;
      if ok {
        Place(parent, p, NewFile(content, owner, permissions));
      }
    }

    method AppendFile(p: Path, content: string) returns (ok: bool)
      requires Valid()
      modifies this, at.Values
      ensures Valid() && fresh(at.Values - old(at.Values))
      ensures Reply(Value(), ok) == RefAppendFile(old(Value()), p, content)
    {
      var node := Resolve(root, p, at);
      if node != null && !node.isDir {
        Rewrite(root, node, EntryOf(node).(content := node.content + content), p, at);
        return true;
      }
      ok := CreateFile(p, content, "root", "0644");
    }

    method CreateDirectory(p: Path, owner: string) returns (ok: bool)
      requires Valid()
      modifies this, at.Values
      ensures Valid() && fresh(at.Values - old(at.Values))
      ensures Reply(Value(), ok) == RefCreateDirectory(old(Value()), p, owner)
    {
      hide Tree;
      var parent := Resolve(root, Parent(p), at);
      if parent == null || !parent.isDir {
        return false;
      }
      TargetHangs(p);
      if (if p == [] then "" else p[|p| - 1]) in parent.children {
        return false;
      }
      Place(parent, p, NewDirectory(owner));
      return true;
    }

    method RemoveFile(p: Path) returns (ok: bool)
      requires Valid()
      modifies this, at.Values
      ensures Valid() && at.Values <= old(at.Values)
      ensures Reply(Value(), ok) == RefRemoveFile(old(Value()), p)
    {
      hide Tree;
      var parent := Resolve(root, Parent(p), at);
      var name := if p == [] then "" else p[|p| - 1];
      assert Parent(p) + [name] == Target(p);
      TargetHangs(p);
      if parent != null && parent.isDir && name in parent.children {
        ChildOf(root, at, Parent(p), name);
        var node := parent.children[name];
        if !node.isDir {
          ghost var after := Detach(root, parent, name, Parent(p), at);
          Adopt(after);
          return true;
        }
      }
      return false;
    }

    /** In a tree, what hangs at the target of p hangs in the directory at p's parent. */
    lemma TargetHangs(p: Path)
      requires Valid()
      ensures Target(p) in at <==>
                && Parent(p) in at && at[Parent(p)].isDir
                && (if p == [] then "" else p[|p| - 1]) in at[Parent(p)].children
    {
      hide Tree;
      var name := if p == [] then "" else p[|p| - 1];
      assert Parent(p) + [name] == Target(p);
      ChildOf(root, at, Parent(p), name);
    }

    method RemoveDirectory(p: Path, recursive: bool) returns (ok: bool)
      requires Valid()
      modifies this, at.Values
      ensures Valid() && at.Values <= old(at.Values)
      ensures Reply(Value(), ok) == RefRemoveDirectory(old(Value()), p, recursive)
    {
      hide Tree;
      if p == [] {
        return false;
      }
      var parent := Resolve(root, Parent(p), at);
      var name := p[|p| - 1];
      assert Parent(p) + [name] == p;
      TargetHangs(p);
      if parent != null && parent.isDir && name in parent.children {
        ChildOf(root, at, Parent(p), name);
        var node := parent.children[name];
        if !node.isDir {
          return false;
        }
        ChildrenListed(root, at, p);
        if !recursive && node.children != map[] {
          return false;
        }
        ghost var after := Detach(root, parent, name, Parent(p), at);
        Adopt(after);
        return true;
      }
      return false;
    }

    method Chmod(p: Path, permissions: string) returns (ok: bool)
      requires Valid()
      modifies at.Values
      ensures Valid()
      ensures Reply(Value(), ok) == RefChmod(old(Value()), p, permissions)
    {
      var node := Resolve(root, p, at);
      if node != null {
        Rewrite(root, node, EntryOf(node).(permissions := permissions), p, at);
        return true;
      }
      return false;
    }

    method Chown(p: Path, owner: string, group: Option<string>) returns (ok: bool)
      requires Valid()
      modifies at.Values
      ensures Valid()
      ensures Reply(Value(), ok) == RefChown(old(Value()), p, owner, group)
    {
      var node := Resolve(root, p, at);
      if node != null {
        Rewrite(root, node, ApplyOwner(EntryOf(node), owner, group), p, at);
        return true;
      }
      return false;
    }
  }

  /** A node has children exactly when the tree has paths one name below it. */
  lemma ChildrenListed(root: FSNode, at: NodeMap, p: Path)
    requires Tree(root, at) && p in at
    ensures at[p].children == map[] <==> !HasChild(Contents(at), p)
  {
    forall name: string
      ensures name in at[p].children <==> p + [name] in Contents(at)
    {
      ChildOf(root, at, p, name);
    }
    if name :| name in at[p].children {
      assert p + [name] in Contents(at);
    }
  }
}
