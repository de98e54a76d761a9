/** Sessions over one base do not disturb the base nor one another. */
module Isolation {
  import opened Paths
  import opened Layers
  import opened Nodes
  import opened SessionSpec
  import opened Simulation
  import opened SessionFs

  /** One call of the public interface, by its normalized path. */
  method Perform(fs: SessionFilesystem, op: Op) returns (ok: bool)
    requires fs.Valid() && Canonical(op.path)
    modifies fs, fs.at.Values
    ensures fs.Valid() && fresh(fs.at.Values - old(fs.at.Values))
    ensures fs.base.Value() == old(fs.base.Value())
    ensures Outcome(fs.State(), ok) == Step(old(fs.State()), fs.base.Value(), op)
  {
    hide Tree, Normalize, Render, DoCreateFile, DoAppendFile, DoCreateDirectory, DoRemoveFile, DoRemoveDirectory,
      DoChmod, DoChown;
    NormalizeRender(op.path);
    var path := Render(op.path);
    match op
    case CreateFile(_, content, owner, permissions) => ok := fs.CreateFile(path, content, owner, permissions);
    case AppendFile(_, content) => ok := fs.AppendFile(path, content);
    case CreateDirectory(_, owner, parents) => ok := fs.CreateDirectory(path, owner, parents);
    case RemoveFile(_) => ok := fs.RemoveFile(path);
    case RemoveDirectory(_, recursive) => ok := fs.RemoveDirectory(path, recursive);
    case Chmod(_, permissions) => ok := fs.Chmod(path, permissions);
    case Chown(_, owner, group) => ok := fs.Chown(path, owner, group);
  }

  /** A call, and whether the first of two sessions makes it. */
  datatype Turn = Turn(first: bool, op: Op)

  /** The calls one session makes in a schedule of two. */
  function CallsOf(schedule: seq<Turn>, first: bool): seq<Op> {
    if schedule == [] then
      []
    else
      var last := schedule[|schedule| - 1];
      CallsOf(schedule[..|schedule| - 1], first) + if last.first == first then [last.op] else []
  }

  lemma CallsNext(schedule: seq<Turn>, i: nat, first: bool)
    requires i < |schedule|
    ensures CallsOf(schedule[..i + 1], first)
         == if schedule[i].first == first then CallsOf(schedule[..i], first) + [schedule[i].op]
             else CallsOf(schedule[..i], first)
  {
    assert schedule[..i + 1][..i] == schedule[..i];
  }

  lemma RunNone(s: Session, base: Layer, schedule: seq<Turn>, first: bool)
    ensures Run(s, base, CallsOf(schedule[..0], first)) == s
  {
  }

  /** What one more turn does to the run of the session it names, and that it skips the other. */
  lemma RunNext(s: Session, base: Layer, schedule: seq<Turn>, i: nat, first: bool)
    requires i < |schedule|
    ensures Run(s, base, CallsOf(schedule[..i + 1], first))
         == var before := Run(s, base, CallsOf(schedule[..i], first));
            if schedule[i].first == first then Step(before, base, schedule[i].op).session else before
  {
    CallsNext(schedule, i, first);
    RunAppend(s, base, CallsOf(schedule[..i], first), schedule[i].op);
  }

  lemma {:induction false} RunAppend(s: Session, base: Layer, ops: seq<Op>, op: Op)
    ensures Run(s, base, ops + [op]) == Step(Run(s, base, ops), base, op).session
    decreases |ops|
  {
    if ops == [] {
      assert [op][1..] == [];
    } else {
      RunAppend(Step(s, base, ops[0]).session, base, ops[1..], op);
      assert (ops + [op])[1..] == ops[1..] + [op];
    }
  }

  /** Two live sessions over one base, no node shared. */
  ghost predicate Apart(a: SessionFilesystem, b: SessionFilesystem)
    reads a, b, a.at.Values, b.at.Values, a.base, a.base.at.Values, b.base, b.base.at.Values
  {
    a != b && a.base == b.base && a.Valid() && b.Valid() && a.at.Values !! b.at.Values
  }

  /** One session's call leaves the other session's state alone. */
  method TakeTurn(a: SessionFilesystem, b: SessionFilesystem, op: Op)
    requires Apart(a, b) && Canonical(op.path)
    modifies a, a.at.Values
    ensures Apart(a, b) && fresh(a.at.Values - old(a.at.Values))
    ensures a.base.Value() == old(a.base.Value())
    ensures a.State() == Step(old(a.State()), a.base.Value(), op).session
    ensures b.State() == old(b.State()) && b.at == old(b.at)
  {
    hide Tree, Step, Contents;
    var _ := Perform(a, op);
  }

  /**
   Any interleaving of calls on two sessions leaves the base as it was and each session in
   the state it would have reached had the other not existed.
   */
  method Interleave(a: SessionFilesystem, b: SessionFilesystem, schedule: seq<Turn>)
    requires Apart(a, b)
    requires forall i :: 0 <= i < |schedule| ==> Canonical(schedule[i].op.path)
    modifies a, b, a.at.Values, b.at.Values
    ensures Apart(a, b)
    ensures a.base.Value() == old(a.base.Value())
    ensures a.State() == Run(old(a.State()), a.base.Value(), CallsOf(schedule, true))
    ensures b.State() == Run(old(b.State()), a.base.Value(), CallsOf(schedule, false))
  {
    hide Tree, Step, Run, CallsOf;
    RunNone(a.State(), a.base.Value(), schedule, true);
    RunNone(b.State(), a.base.Value(), schedule, false);
    ghost var below := a.base.Value();
    for i := 0 to |schedule|
      invariant Apart(a, b) && a.base.Value() == below
      invariant fresh(a.at.Values - old(a.at.Values)) && fresh(b.at.Values - old(b.at.Values))
      invariant a.State() == Run(old(a.State()), below, CallsOf(schedule[..i], true))
      invariant b.State() == Run(old(b.State()), below, CallsOf(schedule[..i], false))
    {
      var turn := schedule[i];
      RunNext(old(a.State()), below, schedule, i, true);
      RunNext(old(b.State()), below, schedule, i, false);
      if turn.first {
        TakeTurn(a, b, turn.op);
      } else {
        TakeTurn(b, a, turn.op);
      }
    }
    assert schedule[..|schedule|] == schedule;
  }
}
