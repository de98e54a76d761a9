/**
 What each public operation of the copy-on-write session filesystem does to its state, as
 functions on values. The base tree is a parameter: it never changes.
 */
module SessionSpec {
  import opened Options
  import opened Paths
  import opened Layers

  const MAX_FILES_PER_SESSION: nat := 2_000

  datatype Op =
    | CreateFile(path: Path, content: string, owner: string, permissions: string)
    | AppendFile(path: Path, content: string)
    | CreateDirectory(path: Path, owner: string, parents: bool)
    | RemoveFile(path: Path)
    | RemoveDirectory(path: Path, recursive: bool)
    | Chmod(path: Path, permissions: string)
    | Chown(path: Path, owner: string, group: Option<string>)

  /** The kind and path of a write, as the mutation log records it. */
  datatype Mutation = Mutation(op: string, path: Path)

  datatype Session = Session(overlay: Layer, tombstones: set<Path>, count: nat, mutations: seq<Mutation>)

  datatype Outcome = Outcome(session: Session, ok: bool)

  /** A new session: an overlay holding only its root directory. */
  function Fresh(): Session {
    Session(map[[] := Entry(true, "", "root", "root", "0755")], {}, 0, [])
  }

  // ----- Reading -----

  /** p or one of its ancestors has been deleted. */
  predicate Tombstoned(tombstones: set<Path>, p: Path) {
    exists k :: 0 <= k <= |p| && p[..k] in tombstones
  }

  function Lookup(s: Session, base: Layer, p: Path): Option<Entry> {
    if Tombstoned(s.tombstones, p) then None
    else if p in s.overlay then Some(s.overlay[p])
    else Find(base, p)
  }

  /** The node a lookup hands out: a directory is rebuilt with its merged children, a file is the node itself. */
  function Returned(e: Entry): Entry {
    if e.isDir then CopyOf(e.(content := "")) else e
  }

  ghost predicate VisibleDirectory(s: Session, base: Layer, p: Path) {
    Lookup(s, base, p).Some? && Lookup(s, base, p).value.isDir
  }

  ghost predicate VisibleFile(s: Session, base: Layer, p: Path) {
    Lookup(s, base, p).Some? && !Lookup(s, base, p).value.isDir
  }

  /** The path of a child by name: a nameless child of the root renders as the root itself. */
  function ChildPath(p: Path, name: string): Path {
    if p == [] && name == "" then [] else p + [name]
  }

  /** The node the merged directory view of p shows under `name`, if any. */
  function Listed(s: Session, base: Layer, p: Path, name: string): Option<Entry> {
    var child := p + [name];
    if Tombstoned(s.tombstones, ChildPath(p, name)) then None
    else if p in s.overlay && s.overlay[p].isDir && child in s.overlay then Some(s.overlay[child])
    else if p in base && base[p].isDir && child in base then Some(base[child])
    else None
  }

  ghost predicate EmptyDirectory(s: Session, base: Layer, p: Path) {
    forall name :: Listed(s, base, p, name).None?
  }

  // ----- Overlay bookkeeping -----

  datatype Ensured = Ensured(overlay: Layer, count: nat, ok: bool)

  /** The entry the overlay gets for a directory that only the base may know. */
  function DirectoryEntry(base: Layer, q: Path, owner: string): Entry {
    if q in base && base[q].isDir then CopyOf(base[q].(content := "")) else NewDirectory(owner)
  }

  /** Makes the prefixes of `dir` longer than k directories of the overlay, while the quota lasts. */
  function EnsureFrom(overlay: Layer, count: nat, base: Layer, dir: Path, owner: string, k: nat): Ensured
    requires k <= |dir|
    decreases |dir| - k
  {
    if k == |dir| then
      Ensured(overlay, count, true)
    else
      var q := dir[..k + 1];
      if q !in overlay then
        if count >= MAX_FILES_PER_SESSION then
          Ensured(overlay, count, false)
        else
          EnsureFrom(overlay[q := DirectoryEntry(base, q, owner)], count + 1, base, dir, owner, k + 1)
      else if !overlay[q].isDir then
        Ensured(overlay, count, false)
      else
        EnsureFrom(overlay, count, base, dir, owner, k + 1)
  }

  function Ensure(s: Session, base: Layer, dir: Path, owner: string): Ensured {
    EnsureFrom(s.overlay, s.count, base, dir, owner, 0)
  }

  function Log(s: Session, op: string, p: Path): Session {
    s.(mutations := s.mutations + [Mutation(op, p)])
  }

  // ----- Writing -----

  function DoCreateFile(s: Session, base: Layer, p: Path, content: string, owner: string, permissions: string): Outcome {
    if s.count >= MAX_FILES_PER_SESSION then
      Outcome(s, false)
    else
      var e := Ensure(s, base, Parent(p), "root");
      if !e.ok then
        Outcome(s.(overlay := e.overlay, count := e.count), false)
      else
        var overlay := Put(e.overlay, Target(p), NewFile(content, owner, permissions));
        Outcome(Log(Session(overlay, s.tombstones - {p}, e.count + 1, s.mutations), "create_file", p), true)
  }

  function DoAppendFile(s: Session, base: Layer, p: Path, content: string): Outcome {
    if p !in s.overlay && s.count >= MAX_FILES_PER_SESSION then
      Outcome(s, false)
    else if p in s.overlay && !s.overlay[p].isDir then
      var e := s.overlay[p];
      Outcome(Log(s.(overlay := s.overlay[p := e.(content := e.content + content)]), "append_file", p), true)
    else if !Tombstoned(s.tombstones, p) && p in base && !base[p].isDir then
      DoCreateFile(s, base, p, base[p].content + content, base[p].owner, base[p].permissions)
    else
      DoCreateFile(s, base, p, content, "root", "0644")
  }

  function DoCreateDirectory(s: Session, base: Layer, p: Path, owner: string, parents: bool): Outcome {
    if s.count >= MAX_FILES_PER_SESSION then
      Outcome(s, false)
    else if parents then
      var e := Ensure(s, base, p, owner);
      Outcome(Log(Session(e.overlay, s.tombstones - {p}, e.count, s.mutations), "create_dir", p), true)
    else if Lookup(s, base, p).Some? then
      Outcome(s, false)
    else
      var e := Ensure(s, base, Parent(p), "root");
      if !e.ok then
        Outcome(s.(overlay := e.overlay, count := e.count), false)
      else
        var overlay := Put(e.overlay, Target(p), NewDirectory(owner));
        Outcome(Log(Session(overlay, s.tombstones - {p}, e.count + 1, s.mutations), "create_dir", p), true)
  }

  function DoRemoveFile(s: Session, base: Layer, p: Path): Outcome {
    var t := Target(p);
    var inOverlay := t in s.overlay && !s.overlay[t].isDir;
    var inBase := p in base && !base[p].isDir && !Tombstoned(s.tombstones, p);
    if inOverlay || inBase then
      var overlay := if inOverlay then Prune(s.overlay, t) else s.overlay;
      Outcome(Log(s.(overlay := overlay, tombstones := s.tombstones + {p}), "delete_file", p), true)
    else
      Outcome(s, false)
  }

  /** The paths a recursive removal of p buries: p and, per listed child, the subtree that child is the root of. */
  ghost function Buried(s: Session, base: Layer, p: Path): (buried: set<Path>)
    ensures p in buried && forall x :: x in buried ==> p <= x
  {
    {p}
    + (set q | q in s.overlay && Under(p, q)
               && Listed(s, base, p, q[|p|]).Some? && p + [q[|p|]] in s.overlay)
    + (set q | q in base && Under(p, q)
               && Listed(s, base, p, q[|p|]).Some? && p + [q[|p|]] !in s.overlay)
  }

  ghost function DoRemoveDirectory(s: Session, base: Layer, p: Path, recursive: bool): Outcome {
    if p == [] || !VisibleDirectory(s, base, p) || (!recursive && !EmptyDirectory(s, base, p)) then
      Outcome(s, false)
    else
      var buried := if recursive then Buried(s, base, p) else {p};
      Outcome(Log(s.(overlay := Prune(s.overlay, p), tombstones := s.tombstones + buried), "delete_dir", p), true)
  }

  /** Brings the node at p into the overlay; the copied node itself is not counted. */
  function CopyUp(s: Session, base: Layer, p: Path): (r: Outcome)
    ensures r.ok ==> p in r.session.overlay
  {
    if Tombstoned(s.tombstones, p) then
      Outcome(s, false)
    else if p in s.overlay then
      Outcome(s, true)
    else if p !in base then
      Outcome(s, false)
    else
      var e := Ensure(s, base, Parent(p), "root");
      if !e.ok then
        Outcome(s.(overlay := e.overlay, count := e.count), false)
      else
        Outcome(s.(overlay := Put(e.overlay, p, CopyOf(base[p])), count := e.count), true)
  }

  function ApplyOwner(e: Entry, owner: string, group: Option<string>): Entry {
    e.(owner := owner, group := if group.Some? && group.value != "" then group.value else e.group)
  }

  function DoChmod(s: Session, base: Layer, p: Path, permissions: string): Outcome {
    var c := CopyUp(s, base, p);
    if !c.ok then
      Outcome(c.session, false)
    else
      var overlay := c.session.overlay;
      Outcome(Log(c.session.(overlay := overlay[p := overlay[p].(permissions := permissions)]), "chmod", p), true)
  }

  function DoChown(s: Session, base: Layer, p: Path, owner: string, group: Option<string>): Outcome {
    var c := CopyUp(s, base, p);
    if !c.ok then
      Outcome(c.session, false)
    else
      var overlay := c.session.overlay;
      Outcome(Log(c.session.(overlay := overlay[p := ApplyOwner(overlay[p], owner, group)]), "chown", p), true)
  }

  ghost function Step(s: Session, base: Layer, op: Op): Outcome {
    match op
    case CreateFile(p, content, owner, permissions) => DoCreateFile(s, base, p, content, owner, permissions)
    case AppendFile(p, content) => DoAppendFile(s, base, p, content)
    case CreateDirectory(p, owner, parents) => DoCreateDirectory(s, base, p, owner, parents)
    case RemoveFile(p) => DoRemoveFile(s, base, p)
    case RemoveDirectory(p, recursive) => DoRemoveDirectory(s, base, p, recursive)
    case Chmod(p, permissions) => DoChmod(s, base, p, permissions)
    case Chown(p, owner, group) => DoChown(s, base, p, owner, group)
  }
}
