/** The forensic delta of a session: what it reports, and what it cannot miss. */
module Forensics {
  import opened Paths
  import opened Layers
  import opened SessionSpec
  import opened Simulation
  import opened Guarantees
  import opened DeltaSpec
  import opened Overwriting

  /** A visible file that the base does not have with the same content. */
  ghost predicate Changed(s: Session, base: Layer, p: Path) {
    && VisibleFile(s, base, p)
    && !(IsFile(base, p) && base[p].content == Lookup(s, base, p).value.content)
  }

  /** Reported paths below the root are the overlay's own locations. */
  lemma ReportedAt(overlay: Layer, base: Layer, p: Path)
    requires p != [] && Canonical(p) && forall q :: q in overlay ==> Canonical(q) || q == [""]
    ensures p in FilesCreated(overlay, base) <==> IsFile(overlay, p) && p !in base
    ensures p in FilesModified(overlay, base) <==> IsFile(overlay, p) && p in base
    ensures p in DirsCreated(overlay, base) <==> IsDirectory(overlay, p) && p !in base
  {
    forall q | q in overlay && Reported(q) == p
      ensures q == p
    {
      assert q != [""];
      assert Canonical(q) && q != [] ==> IsComponent(q[0]);
    }
    assert IsComponent(p[0]);
  }

  lemma TombstonedBy(tombstones: set<Path>, p: Path)
    ensures Tombstoned(tombstones, p) <==> exists t :: t in tombstones && t <= p
  {
    if t :| t in tombstones && t <= p {
      assert p[..|t|] == t;
    }
    if Tombstoned(tombstones, p) {
      var k :| 0 <= k <= |p| && p[..k] in tombstones;
      assert p[..k] <= p;
    }
  }

  /**
   No change escapes the delta, over any run: every changed file is reported exactly once, as
   created or as modified; and a base path no longer shows exactly when it lies at or below
   a reported deletion.
   */
  lemma DeltaComplete(base: Layer, ops: seq<Op>, p: Path)
    requires BaseTree(base) && CanonicalCalls(ops) && Canonical(p)
    ensures var s := Run(Fresh(), base, ops);
            && (Changed(s, base, p) ==>
                  (p in FilesCreated(s.overlay, base) <==> p !in FilesModified(s.overlay, base)))
            && (p in base ==> (Lookup(s, base, p).None? <==> exists t :: t in s.tombstones && t <= p))
  {
    var s := Run(Fresh(), base, ops);
    TombstonedBy(s.tombstones, p);
    FreshWellFormed(base, true);
    RunWellFormed(Fresh(), base, true, ops);
    if Changed(s, base, p) {
      ReportedAt(s.overlay, base, p);
    }
  }

  /** The overlay locations of a run, in any order without repetition, are reported under paths of their own. */
  lemma LocationsApart(s: Session, base: Layer, order: seq<Path>)
    requires WellFormed(s, base, true) && forall q :: q in order ==> q in s.overlay && q != []
    ensures ReportedApart(order)
  {
    forall q | q in order
      ensures q == [""] || Reported(q) == q
    {
      assert Canonical(q) ==> IsComponent(q[0]);
    }
  }

  /**
   The two lists of files a delta returns, over any run: no path occurs twice in them together,
   and every changed file has its report, with the preview of its visible content, among the
   created files if the base lacks its path and among the modified ones otherwise.
   */
  lemma DeltaReports(base: Layer, ops: seq<Op>, order: seq<Path>)
    requires BaseTree(base) && CanonicalCalls(ops)
    requires Distinct(order) && forall q :: q in order <==> q in Run(Fresh(), base, ops).overlay && q != []
    ensures var s := Run(Fresh(), base, ops);
            var created, modified :=
              FileReports(s.overlay, base, order, false), FileReports(s.overlay, base, order, true);
            && OncePerPath(created + modified)
            && (forall p :: Canonical(p) && Changed(s, base, p) ==>
                  ReportOf(Lookup(s, base, p).value, p) in (if p in base then modified else created))
  {
    var s := Run(Fresh(), base, ops);
    FreshWellFormed(base, true);
    RunWellFormed(Fresh(), base, true, ops);
    LocationsApart(s, base, order);
    ReportsApart(s.overlay, base, order);
    forall p | Canonical(p) && Changed(s, base, p)
      ensures ReportOf(Lookup(s, base, p).value, p)
                in FileReports(s.overlay, base, order, p in base)
    {
      assert p != [] ==> IsComponent(p[0]);
      FileReportAt(s.overlay, base, order, p in base, p);
    }
  }

  /**
   A directory that shows where the base has none is reported exactly when the base has
   nothing at all at its path: a directory made in place of a base file is not.
   */
  lemma DirectoryReported(base: Layer, ops: seq<Op>, p: Path)
    requires BaseTree(base) && CanonicalCalls(ops) && Canonical(p)
    requires VisibleDirectory(Run(Fresh(), base, ops), base, p) && !IsDirectory(base, p)
    ensures p in DirsCreated(Run(Fresh(), base, ops).overlay, base) <==> p !in base
  {
    FreshWellFormed(base, true);
    RunWellFormed(Fresh(), base, true, ops);
    ReportedAt(Run(Fresh(), base, ops).overlay, base, p);
  }

  /** A run after which such a directory shows and is not reported. */
  lemma DirectoryUnreported(content: string)
    ensures var base := FlatBase(content);
            var s := Run(Fresh(), base, REPLACE);
            && BaseTree(base) && CanonicalCalls(REPLACE) && Accepted(Fresh(), base, REPLACE) == REPLACE
            && VisibleDirectory(s, base, F) && F !in DirsCreated(s.overlay, base)
  {
    var base := FlatBase(content);
    var s := Replaced(content);
    FlatTree(false, content);
    assert IsComponent("f");
    DirectoryReported(base, REPLACE, F);
  }

  /** The mutation log has one entry per call that returned True. */
  lemma {:induction false} MutationsLogged(s: Session, base: Layer, ops: seq<Op>)
    ensures |Run(s, base, ops).mutations| == |s.mutations| + |Accepted(s, base, ops)|
    decreases |ops|
  {
    if ops != [] {
      MutationsLogged(Step(s, base, ops[0]).session, base, ops[1..]);
      StepLogs(s, base, ops[0]);
    }
  }

  lemma StepLogs(s: Session, base: Layer, op: Op)
    ensures var o := Step(s, base, op);
            |o.session.mutations| == |s.mutations| + if o.ok then 1 else 0
  {
  }
}
