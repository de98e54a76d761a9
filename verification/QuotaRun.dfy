/** A run from a fresh session that ends with as many overlay nodes above the quota as one likes. */
module QuotaRun {
  import opened Options
  import opened Paths
  import opened Layers
  import opened SessionSpec
  import opened Simulation
  import opened Guarantees

  /** The i-th name made of one letter. */
  function Word(letter: char, i: nat): (w: string)
    ensures |w| == i + 1 && w[0] == letter
  {
    seq(i + 1, _ => letter)
  }

  function Words(letter: char, n: nat): set<Path> {
    set i | 0 <= i < n :: [Word(letter, i)]
  }

  /** A base with n files in its root. */
  function FilesBase(n: nat): Layer {
    map p | p in {[]} + Words('f', n) :: if p == [] then NewDirectory("root") else NewFile("", "root", "0644")
  }

  /** First as many new files as the quota allows, then a metadata change for each base file. */
  function CallAt(i: nat): (op: Op)
    ensures op.path != []
  {
    if i < MAX_FILES_PER_SESSION then CreateFile([Word('x', i)], "", "root", "0644")
    else Chmod([Word('f', i - MAX_FILES_PER_SESSION)], "0600")
  }

  function CallsFrom(i: nat, end: nat): (ops: seq<Op>)
    requires i <= end
    ensures forall op :: op in ops ==> exists j :: i <= j < end && op == CallAt(j)
    decreases end - i
  {
    if i == end then [] else [CallAt(i)] + CallsFrom(i + 1, end)
  }

  /** The overlay after the first i calls: flat, with a node for each. */
  ghost predicate After(s: Session, i: nat) {
    && s.overlay.Keys == {[]} + (set j | 0 <= j < i :: CallAt(j).path) && IsDirectory(s.overlay, [])
    && s.tombstones == {} && s.count == if i < MAX_FILES_PER_SESSION then i else MAX_FILES_PER_SESSION
  }

  lemma PathsDiffer(i: nat, j: nat)
    requires i != j
    ensures CallAt(i).path != CallAt(j).path
  {
    assert |CallAt(i).path[0]| == |CallAt(j).path[0]| ==> CallAt(i).path[0][0] != CallAt(j).path[0][0];
  }

  /** Every node of such an overlay hangs in the root. */
  lemma Flat(s: Session, i: nat)
    requires After(s, i)
    ensures TreeShaped(s.overlay) && CallAt(i).path !in s.overlay
    ensures Put(s.overlay, CallAt(i).path, NewFile("", "root", "0644")).Keys == s.overlay.Keys + {CallAt(i).path}
  {
    forall j | 0 <= j < i
      ensures CallAt(i).path != CallAt(j).path
    {
      PathsDiffer(i, j);
    }
    forall p | p in s.overlay && p != []
      ensures Parent(p) == []
    {
      var j :| 0 <= j < i && p == CallAt(j).path;
    }
    NothingUnder(s.overlay, CallAt(i).path);
  }

  lemma OneMore(n: nat, s: Session, i: nat)
    requires After(s, i) && i < MAX_FILES_PER_SESSION + n
    ensures Step(s, FilesBase(n), CallAt(i)).ok && After(Step(s, FilesBase(n), CallAt(i)).session, i + 1)
  {
    Flat(s, i);
    var base, p := FilesBase(n), CallAt(i).path;
    var o := Step(s, base, CallAt(i));
    assert Parent(p) == [] && Target(p) == p;
    if i >= MAX_FILES_PER_SESSION {
      assert p in base by {
        assert p == [Word('f', i - MAX_FILES_PER_SESSION)];
      }
      assert !Tombstoned(s.tombstones, p);
    }
    assert o.session.overlay.Keys == s.overlay.Keys + {p};
    assert (set j | 0 <= j < i + 1 :: CallAt(j).path) == (set j | 0 <= j < i :: CallAt(j).path) + {p};
  }

  lemma {:induction false} AllAccepted(n: nat, s: Session, i: nat)
    requires After(s, i) && i <= MAX_FILES_PER_SESSION + n
    ensures var ops := CallsFrom(i, MAX_FILES_PER_SESSION + n);
            Accepted(s, FilesBase(n), ops) == ops && After(Run(s, FilesBase(n), ops), MAX_FILES_PER_SESSION + n)
    decreases MAX_FILES_PER_SESSION + n - i
  {
    hide Step, After;
    if i < MAX_FILES_PER_SESSION + n {
      OneMore(n, s, i);
      AllAccepted(n, Step(s, FilesBase(n), CallAt(i)).session, i + 1);
      var ops := CallsFrom(i, MAX_FILES_PER_SESSION + n);
      assert ops[0] == CallAt(i) && ops[1..] == CallsFrom(i + 1, MAX_FILES_PER_SESSION + n);
    }
  }

  lemma {:induction false} NodesCounted(i: nat)
    ensures |set j | 0 <= j < i :: CallAt(j).path| == i
  {
    if i > 0 {
      NodesCounted(i - 1);
      var fewer, p := set j | 0 <= j < i - 1 :: CallAt(j).path, CallAt(i - 1).path;
      forall j | 0 <= j < i - 1
        ensures CallAt(j).path != p
      {
        PathsDiffer(i - 1, j);
      }
      assert (set j | 0 <= j < i :: CallAt(j).path) == fewer + {p};
    }
  }

  lemma FilesTree(n: nat)
    ensures BaseTree(FilesBase(n)) && CanonicalCalls(CallsFrom(0, MAX_FILES_PER_SESSION + n))
  {
    forall letter: char, i: nat | letter == 'x' || letter == 'f'
      ensures IsComponent(Word(letter, i)) && Canonical([Word(letter, i)])
    {
      assert forall k :: 0 <= k < |Word(letter, i)| ==> Word(letter, i)[k] == letter;
    }
    var base := FilesBase(n);
    forall p | p in base && p != []
      ensures Parent(p) == [] && Canonical(p)
    {
      var i :| 0 <= i < n && p == [Word('f', i)];
    }
    var ops := CallsFrom(0, MAX_FILES_PER_SESSION + n);
    forall i | 0 <= i < |ops|
      ensures Canonical(ops[i].path)
    {
      assert ops[i] in ops;
    }
  }

  lemma NoneYet()
    ensures After(Fresh(), 0)
  {
  }

  /**
   The quota bounds what is counted, not the overlay: for every n there is a base and a run of
   accepted calls after which the overlay has n nodes below its root more than the quota allows.
   */
  lemma QuotaExceeded(n: nat)
    ensures var base, ops := FilesBase(n), CallsFrom(0, MAX_FILES_PER_SESSION + n);
            var s := Run(Fresh(), base, ops);
            && BaseTree(base) && CanonicalCalls(ops) && Accepted(Fresh(), base, ops) == ops
            && s.count == 2_000 && |s.overlay.Keys - {[]}| == 2_000 + n
  {
    hide BaseTree, CanonicalCalls, FilesBase, CallsFrom, Run, Accepted, CallAt, IsDirectory;
    FilesTree(n);
    NoneYet();
    AllAccepted(n, Fresh(), 0);
    NodesCounted(MAX_FILES_PER_SESSION + n);
    var s := Run(Fresh(), FilesBase(n), CallsFrom(0, MAX_FILES_PER_SESSION + n));
    assert s.overlay.Keys - {[]} == set j | 0 <= j < MAX_FILES_PER_SESSION + n :: CallAt(j).path;
  }
}
