/**
 A filesystem tree as a value: a finite map from locations to entries. A location is the
 sequence of child names leading from the root to a node.
 */
module Layers {
  import opened Options
  import opened Paths

  datatype Entry = Entry(isDir: bool, content: string, owner: string, group: string, permissions: string)

  type Layer = map<Path, Entry>

  /** FSNode's post-init rule: a directory never keeps the default file mode. */
  function InitialMode(isDir: bool, permissions: string): string {
    if isDir && permissions == "0644" then "0755" else permissions
  }

  function NewFile(content: string, owner: string, permissions: string): Entry {
    Entry(false, content, owner, "root", permissions)
  }

  function NewDirectory(owner: string): Entry {
    Entry(true, "", owner, "root", "0755")
  }

  /** Shallow copy of a node, as the FSNode constructor stores it. */
  function CopyOf(e: Entry): Entry {
    e.(permissions := InitialMode(e.isDir, e.permissions))
  }

  /** Every node but the root hangs in a directory. */
  ghost predicate TreeShaped(layer: Layer) {
    && [] in layer
    && layer[[]].isDir
    && (forall p {:trigger Parent(p)} :: p in layer && p != [] ==> Parent(p) in layer && layer[Parent(p)].isDir)
  }

  ghost predicate IsDirectory(layer: Layer, p: Path) {
    p in layer && layer[p].isDir
  }

  ghost predicate IsFile(layer: Layer, p: Path) {
    p in layer && !layer[p].isDir
  }

  function Find(layer: Layer, p: Path): Option<Entry> {
    if p in layer then Some(layer[p]) else None
  }

  /** The layer without the subtree at q. */
  function Prune(layer: Layer, q: Path): Layer {
    map p | p in layer && !(q <= p) :: layer[p]
  }

  /** The layer with a new childless node at q, whatever was there before. */
  function Put(layer: Layer, q: Path, e: Entry): Layer {
    Prune(layer, q)[q := e]
  }

  /** Strictly below. */
  predicate Under(q: Path, p: Path) {
    |q| < |p| && q <= p
  }

  /**
   Where a write at p lands: a child named basename(p) of dirname(p). The root's dirname is
   the root itself and its basename is empty, so a write at the root creates a nameless child.
   */
  function Target(p: Path): Path {
    if p == [] then [""] else p
  }

  lemma {:induction false} PrefixesAreDirectories(layer: Layer, p: Path, k: nat)
    requires TreeShaped(layer) && p in layer && k < |p|
    ensures IsDirectory(layer, p[..k])
    decreases |p|
  {
    if k < |p| - 1 {
      PrefixesAreDirectories(layer, Parent(p), k);
      assert Parent(p)[..k] == p[..k];
    }
  }

  lemma UnderIsDirectory(layer: Layer, q: Path, p: Path)
    requires TreeShaped(layer) && p in layer && Under(q, p)
    ensures IsDirectory(layer, q)
  {
    PrefixesAreDirectories(layer, p, |q|);
    assert p[..|q|] == q;
  }

  /** Putting a node into a directory keeps the tree shape. */
  lemma PutTreeShaped(layer: Layer, q: Path, e: Entry)
    requires TreeShaped(layer) && q != [] && IsDirectory(layer, Parent(q))
    ensures TreeShaped(Put(layer, q, e))
  {
    var after := Put(layer, q, e);
    forall p | p in after && p != []
      ensures IsDirectory(after, Parent(p))
    {
      assert q <= Parent(p) ==> q <= p && p != q;
    }
  }

  lemma PruneTreeShaped(layer: Layer, q: Path)
    requires TreeShaped(layer) && q != []
    ensures TreeShaped(Prune(layer, q))
  {
    forall p | p in Prune(layer, q) && p != []
      ensures IsDirectory(Prune(layer, q), Parent(p))
    {
      assert q <= Parent(p) ==> q <= p;
    }
  }

  /** Nothing hangs below a node that is not a directory. */
  lemma NothingUnder(layer: Layer, q: Path)
    requires TreeShaped(layer)
    ensures !IsDirectory(layer, q) ==> forall p :: p in layer && q <= p ==> p == q
  {
    forall p | p in layer && Under(q, p)
      ensures IsDirectory(layer, q)
    {
      UnderIsDirectory(layer, q, p);
    }
    assert forall p :: q <= p ==> p == q || Under(q, p);
  }

  /** Where there was nothing, putting a node only adds it. */
  lemma PutNew(layer: Layer, q: Path, e: Entry)
    requires TreeShaped(layer) && q !in layer
    ensures Put(layer, q, e) == layer[q := e]
  {
    NothingUnder(layer, q);
  }
}
