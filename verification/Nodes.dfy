/** Filesystem nodes on the heap, and what it means for them to form a tree. */
module Nodes {
  import opened Paths
  import opened Layers

  class FSNode {
    ghost const location: Path // where the node hangs in its tree
    const isDir: bool
    var content: string
    var owner: string
    var group: string
    var permissions: string
    var children: map<string, FSNode>

    constructor (ghost location: Path, isDir: bool, content: string, owner: string, group: string, permissions: string)
      ensures this.location == location
      ensures EntryOf(this) == CopyOf(Entry(isDir, content, owner, group, permissions))
      ensures children == map[]
    {
      this.location := location;
      this.isDir := isDir;
      this.content := content;
      this.owner := owner;
      this.group := group;
      this.permissions := InitialMode(isDir, permissions);
      this.children := map[];
    }
  }

  function EntryOf(n: FSNode): Entry
    reads n
  {
    Entry(n.isDir, n.content, n.owner, n.group, n.permissions)
  }

  type NodeMap = map<Path, FSNode>

  type Links = map<Path, map<string, FSNode>>

  /** The children dictionaries of the nodes. */
  ghost function LinksOf(at: NodeMap): Links
    reads at.Values
  {
    map p | p in at :: at[p].children
  }

  /** Every node knows its location, so no two locations share a node. */
  ghost predicate Located(at: NodeMap) {
    forall p :: p in at ==> at[p].location == p
  }

  /** A child hangs where its name says. */
  ghost predicate Down(at: NodeMap, links: Links) {
    forall p, name :: p in at && p in links && name in links[p] ==>
      p + [name] in at && at[p + [name]] == links[p][name]
  }

  /** Every node but the root is the child of a directory. */
  ghost predicate Up(at: NodeMap, links: Links) {
    forall p {:trigger Parent(p)} :: p in at && p != [] ==>
      Parent(p) in at && Parent(p) in links && at[Parent(p)].isDir && p[|p| - 1] in links[Parent(p)]
  }

  /** Files have no children. */
  ghost predicate Leaves(at: NodeMap, links: Links) {
    forall p :: p in at && p in links && !at[p].isDir ==> links[p] == map[]
  }

  /** The child links are exactly those the locations ask for. */
  ghost predicate Linked(root: FSNode, at: NodeMap, links: Links) {
    && links.Keys == at.Keys
    && [] in at && at[[]] == root && root.isDir
    && Located(at) && Down(at, links) && Up(at, links) && Leaves(at, links)
  }

  /** The nodes below root, each known by its location: no sharing, no cycles, files childless. */
  ghost predicate Tree(root: FSNode, at: NodeMap)
    reads at.Values
  {
    Linked(root, at, LinksOf(at))
  }

  /** What remains when the subtree at q is cut off. */
  ghost function Cut<T>(at: map<Path, T>, q: Path): map<Path, T> {
    map p | p in at && !(q <= p) :: at[p]
  }

  lemma OutsideChild(q: Path, x: Path, name: string)
    ensures q <= x + [name] && !(q <= x) ==> q == x + [name]
  {
    if q <= x + [name] && |q| <= |x| {
      assert q == (x + [name])[..|q|] == x[..|q|];
    }
  }

  lemma SameChild(x: Path, n: string, p: Path, name: string)
    ensures x + [n] == p + [name] ==> x == p && n == name
  {
    assert Parent(x + [n]) == x && Parent(p + [name]) == p;
    assert (x + [n])[|x|] == n && (p + [name])[|p|] == name;
  }

  /** The links after the child `name` of p has been cut off. */
  ghost function CutLinks(links: Links, p: Path, name: string): Links
    requires p in links
  {
    Cut(links[p := links[p] - {name}], p + [name])
  }

  lemma CutDown(at: NodeMap, links: Links, p: Path, name: string)
    requires Down(at, links) && p in at && links.Keys == at.Keys
    ensures Down(Cut(at, p + [name]), CutLinks(links, p, name))
  {
    var q := p + [name];
    forall x, n | x in Cut(at, q) && n in CutLinks(links, p, name)[x]
      ensures x + [n] in Cut(at, q) && Cut(at, q)[x + [n]] == CutLinks(links, p, name)[x][n]
    {
      OutsideChild(q, x, n);
      SameChild(x, n, p, name);
    }
  }

  lemma CutUp(at: NodeMap, links: Links, p: Path, name: string)
    requires Up(at, links) && p in at && links.Keys == at.Keys
    ensures Up(Cut(at, p + [name]), CutLinks(links, p, name))
  {
    var q := p + [name];
    forall x | x in Cut(at, q) && x != []
      ensures Parent(x) in Cut(at, q) && x[|x| - 1] in CutLinks(links, p, name)[Parent(x)]
    {
      assert x == Parent(x) + [x[|x| - 1]];
      assert q <= Parent(x) ==> q <= x;
    }
  }

  lemma CutLinked(root: FSNode, at: NodeMap, links: Links, p: Path, name: string)
    requires Linked(root, at, links) && p in at
    ensures Linked(root, Cut(at, p + [name]), CutLinks(links, p, name))
  {
    CutDown(at, links, p, name);
    CutUp(at, links, p, name);
    assert Leaves(Cut(at, p + [name]), CutLinks(links, p, name));
    assert Located(Cut(at, p + [name]));
  }

  /** The links after p got a new, childless child. */
  ghost function AddLink(links: Links, p: Path, name: string, node: FSNode): Links
    requires p in links
  {
    links[p := links[p][name := node]][p + [name] := map[]]
  }

  lemma AddDown(at: NodeMap, links: Links, p: Path, name: string, node: FSNode)
    requires Down(at, links) && p in at && links.Keys == at.Keys && p + [name] !in at
    ensures Down(at[p + [name] := node], AddLink(links, p, name, node))
  {
    var q := p + [name];
    forall x, n | x in at[q := node] && n in AddLink(links, p, name, node)[x]
      ensures x + [n] in at[q := node] && at[q := node][x + [n]] == AddLink(links, p, name, node)[x][n]
    {
      SameChild(x, n, p, name);
    }
  }

  lemma AddUp(at: NodeMap, links: Links, p: Path, name: string, node: FSNode)
    requires Up(at, links) && p in at && links.Keys == at.Keys && p + [name] !in at && at[p].isDir
    ensures Up(at[p + [name] := node], AddLink(links, p, name, node))
  {
    assert Parent(p + [name]) == p;
  }

  lemma AddLinked(root: FSNode, at: NodeMap, links: Links, p: Path, name: string, node: FSNode)
    requires Linked(root, at, links) && p in at && at[p].isDir
    requires p + [name] !in at && node.location == p + [name]
    ensures Linked(root, at[p + [name] := node], AddLink(links, p, name, node))
  {
    AddDown(at, links, p, name, node);
    AddUp(at, links, p, name, node);
    assert Leaves(at[p + [name] := node], AddLink(links, p, name, node));
    assert Located(at[p + [name] := node]);
  }

  /** A lone root directory is a tree. */
  lemma RootAlone(root: FSNode)
    requires root.isDir && root.location == [] && root.children == map[]
    ensures Tree(root, map[[] := root])
    ensures Contents(map[[] := root]) == map[[] := EntryOf(root)]
  {
  }

  /** The tree as a value. */
  ghost function Contents(at: NodeMap): Layer
    reads at.Values
  {
    map p | p in at :: EntryOf(at[p])
  }

  lemma ContentsTreeShaped(root: FSNode, at: NodeMap)
    requires Tree(root, at)
    ensures TreeShaped(Contents(at))
  {
  }

  /** The children of a node are the tree's locations one name below it. */
  lemma ChildOf(root: FSNode, at: NodeMap, p: Path, name: string)
    requires Tree(root, at)
    ensures p + [name] in at <==> p in at && name in at[p].children
    ensures p + [name] in at ==> at[p].isDir && at[p + [name]] == at[p].children[name]
  {
    assert Parent(p + [name]) == p;
  }

  lemma {:induction false} LinkedPrefix(root: FSNode, at: NodeMap, links: Links, q: Path, p: Path)
    requires Linked(root, at, links) && p in at && q <= p
    ensures q in at
    decreases |p|
  {
    if q != p {
      assert q <= Parent(p);
      LinkedPrefix(root, at, links, q, Parent(p));
    }
  }

  lemma UnderOrSame(layer: Layer, q: Path, p: Path)
    requires TreeShaped(layer) && p in layer && q <= p
    ensures q in layer
  {
    if q != p {
      UnderIsDirectory(layer, q, p);
    }
  }

  /** Walks from the root along the names of p; null if there is no such node. */
  method Resolve(root: FSNode, p: Path, ghost at: NodeMap) returns (node: FSNode?)
    requires Tree(root, at)
    ensures node == if p in at then at[p] else null
  {
    var current := root;
    for i := 0 to |p|
      invariant p[..i] in at && current == at[p[..i]]
    {
      var part := p[i];
      assert p[..i + 1] == p[..i] + [part];
      ChildOf(root, at, p[..i], part);
      if !current.isDir || part !in current.children {
        if p in at {
          ContentsTreeShaped(root, at);
          UnderOrSame(Contents(at), p[..i + 1], p);
        }
        return null;
      }
      current := current.children[part];
    }
    assert p[..|p|] == p;
    return current;
  }

  lemma ContentsCut(at: NodeMap, q: Path)
    ensures Contents(Cut(at, q)) == Prune(Contents(at), q)
  {
  }

  lemma ContentsAdd(at: NodeMap, q: Path, node: FSNode)
    ensures Contents(Cut(at, q)[q := node]) == Put(Contents(at), q, EntryOf(node))
  {
  }

  twostate lemma ContentsKept(at: NodeMap)
    requires forall p :: p in at ==> EntryOf(at[p]) == old(EntryOf(at[p]))
    ensures Contents(at) == old(Contents(at))
  {
  }

  /** Storing or deleting a child changes the children of one node only. */
  method SetChildren(parent: FSNode, children: map<string, FSNode>, ghost p: Path, ghost at: NodeMap)
    requires Located(at) && p in at && at[p] == parent
    modifies parent`children
    ensures parent.children == children
    ensures LinksOf(at) == old(LinksOf(at))[p := children]
  {
    parent.children := children;
  }

  lemma LinksAdd(at: NodeMap, links: Links, p: Path, name: string, node: FSNode)
    requires p in links && links.Keys == at.Keys && node.children == map[]
    requires LinksOf(at) == links[p := links[p][name := node]]
    ensures LinksOf(Cut(at, p + [name])[p + [name] := node]) == AddLink(CutLinks(links, p, name), p, name, node)
  {
    var q := p + [name];
    var kept: map<string, FSNode> := links[p] - {name};
    assert kept[name := node] == links[p][name := node];
    var left := LinksOf(Cut(at, q)[q := node]);
    var right := AddLink(CutLinks(links, p, name), p, name, node);
    forall x | x in left
      ensures left[x] == right[x]
    {
      assert x != q ==> LinksOf(at)[x] == at[x].children;
    }
    assert left.Keys == right.Keys;
  }

  lemma LinksCut(at: NodeMap, links: Links, p: Path, name: string)
    requires p in links && links.Keys == at.Keys
    requires LinksOf(at) == links[p := links[p] - {name}]
    ensures LinksOf(Cut(at, p + [name])) == CutLinks(links, p, name)
  {
    assert forall x :: x in at ==> LinksOf(at)[x] == at[x].children;
  }

  /** Puts a childless node under a name of a directory, in place of what was there. */
  method Attach(root: FSNode, parent: FSNode, name: string, node: FSNode, ghost p: Path, ghost at: NodeMap)
    returns (ghost after: NodeMap)
    requires Tree(root, at) && p in at && at[p] == parent && parent.isDir
    requires node !in at.Values && node.children == map[] && node.location == p + [name]
    modifies parent`children
    ensures Tree(root, after)
    ensures after == Cut(at, p + [name])[p + [name] := node]
    ensures after.Values <= at.Values + {node}
    ensures Contents(after) == Put(old(Contents(at)), p + [name], EntryOf(node))
  {
    ghost var q := p + [name];
    ghost var links: Links := LinksOf(at);
    after := Cut(at, q)[q := node];
    CutLinked(root, at, links, p, name);
    AddLinked(root, Cut(at, q), CutLinks(links, p, name), p, name, node);
    SetChildren(parent, parent.children[name := node], p, at);
    LinksAdd(at, links, p, name, node);
    ContentsKept(at);
    ContentsAdd(at, q, node);
  }

  /** Makes a new childless node and puts it under a name of a directory. */
  method AddNode(root: FSNode, parent: FSNode, name: string, e: Entry, ghost p: Path, ghost at: NodeMap)
    returns (node: FSNode, ghost after: NodeMap)
    requires Tree(root, at) && p in at && at[p] == parent && parent.isDir
    modifies parent`children
    ensures Tree(root, after)
    ensures fresh(node) && fresh(after.Values - at.Values)
    ensures p + [name] in after && after[p + [name]] == node
    ensures Contents(after) == Put(old(Contents(at)), p + [name], CopyOf(e))
  {
    hide Tree;
    node := new FSNode(p + [name], e.isDir, e.content, e.owner, e.group, e.permissions);
    after := Attach(root, parent, name, node, p, at);
  }

  /** Deletes a child and with it the subtree below. */
  method Detach(root: FSNode, parent: FSNode, name: string, ghost p: Path, ghost at: NodeMap)
    returns (ghost after: NodeMap)
    requires Tree(root, at) && p in at && at[p] == parent && name in parent.children
    modifies parent`children
    ensures Tree(root, after)
    ensures after == Cut(at, p + [name])
    ensures after.Values <= at.Values
    ensures Contents(after) == Prune(old(Contents(at)), p + [name])
  {
    ghost var q := p + [name];
    ghost var links: Links := LinksOf(at);
    after := Cut(at, q);
    CutLinked(root, at, links, p, name);
    SetChildren(parent, parent.children - {name}, p, at);
    LinksCut(at, links, p, name);
    ContentsKept(at);
    ContentsCut(at, q);
  }

  method SetFields(node: FSNode, e: Entry, ghost p: Path, ghost at: NodeMap)
    requires Located(at) && p in at && at[p] == node && e.isDir == node.isDir
    modifies node`content, node`owner, node`group, node`permissions
    ensures LinksOf(at) == old(LinksOf(at))
    ensures Contents(at) == old(Contents(at))[p := e]
  {
    node.content, node.owner, node.group, node.permissions := e.content, e.owner, e.group, e.permissions;
  }

  /** Rewrites the fields of one node, children apart. */
  method Rewrite(root: FSNode, node: FSNode, e: Entry, ghost p: Path, ghost at: NodeMap)
    requires Tree(root, at) && p in at && at[p] == node && e.isDir == node.isDir
    modifies node`content, node`owner, node`group, node`permissions
    ensures Tree(root, at)
    ensures Contents(at) == old(Contents(at))[p := e]
  {
    SetFields(node, e, p, at);
  }
}
