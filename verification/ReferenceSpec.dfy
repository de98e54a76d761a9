/** What the operations of the plain filesystem do to its tree, as functions on values. */
module ReferenceSpec {
  import opened Options
  import opened Paths
  import opened Layers
  import opened SessionSpec

  datatype Reply = Reply(tree: Layer, ok: bool)

  function RefCreateFile(tree: Layer, p: Path, content: string, owner: string, permissions: string): Reply {
    if Parent(p) in tree && tree[Parent(p)].isDir then
      Reply(Put(tree, Target(p), NewFile(content, owner, permissions)), true)
    else
      Reply(tree, false)
  }

  function RefAppendFile(tree: Layer, p: Path, content: string): Reply {
    if p in tree && !tree[p].isDir then
      Reply(tree[p := tree[p].(content := tree[p].content + content)], true)
    else
      RefCreateFile(tree, p, content, "root", "0644")
  }

  function RefCreateDirectory(tree: Layer, p: Path, owner: string): Reply {
    if Parent(p) in tree && tree[Parent(p)].isDir && Target(p) !in tree then
      Reply(Put(tree, Target(p), NewDirectory(owner)), true)
    else
      Reply(tree, false)
  }

  function RefRemoveFile(tree: Layer, p: Path): Reply {
    if Target(p) in tree && !tree[Target(p)].isDir then
      Reply(Prune(tree, Target(p)), true)
    else
      Reply(tree, false)
  }

  ghost predicate HasChild(tree: Layer, p: Path) {
    exists name :: p + [name] in tree
  }

  ghost function RefRemoveDirectory(tree: Layer, p: Path, recursive: bool): Reply {
    if p != [] && p in tree && tree[p].isDir && (recursive || !HasChild(tree, p)) then
      Reply(Prune(tree, p), true)
    else
      Reply(tree, false)
  }

  function RefChmod(tree: Layer, p: Path, permissions: string): Reply {
    if p in tree then Reply(tree[p := tree[p].(permissions := permissions)], true) else Reply(tree, false)
  }

  function RefChown(tree: Layer, p: Path, owner: string, group: Option<string>): Reply {
    if p in tree then Reply(tree[p := ApplyOwner(tree[p], owner, group)], true) else Reply(tree, false)
  }

  /** The plain filesystem's answer to a call, `mkdir -p` apart. */
  ghost function RefStep(tree: Layer, op: Op): Reply
    requires op.CreateDirectory? ==> !op.parents
  {
    match op
    case CreateFile(p, content, owner, permissions) => RefCreateFile(tree, p, content, owner, permissions)
    case AppendFile(p, content) => RefAppendFile(tree, p, content)
    case CreateDirectory(p, owner, parents) => RefCreateDirectory(tree, p, owner)
    case RemoveFile(p) => RefRemoveFile(tree, p)
    case RemoveDirectory(p, recursive) => RefRemoveDirectory(tree, p, recursive)
    case Chmod(p, permissions) => RefChmod(tree, p, permissions)
    case Chown(p, owner, group) => RefChown(tree, p, owner, group)
  }
}
