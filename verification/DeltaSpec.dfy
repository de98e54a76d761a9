/** The report a session leaves: what is read off the overlay, and where. */
module DeltaSpec {
  import opened Paths
  import opened Layers

  const PREVIEW_LENGTH: nat := 500

  datatype FileReport = FileReport(path: Path, preview: string, owner: string, permissions: string)

  /** The path reported for an overlay location: a nameless child renders as the root. */
  function Reported(location: Path): Path {
    if location != [] && location[0] == "" then location[1..] else location
  }

  ghost predicate IsReportedFile(overlay: Layer, base: Layer, location: Path, inBase: bool) {
    location in overlay && !overlay[location].isDir && (Reported(location) in base <==> inBase)
  }

  ghost predicate IsReportedDirectory(overlay: Layer, base: Layer, location: Path) {
    location in overlay && location != [] && overlay[location].isDir && Reported(location) !in base
  }

  ghost function FilesCreated(overlay: Layer, base: Layer): set<Path> {
    set q | q in overlay && IsReportedFile(overlay, base, q, false) :: Reported(q)
  }

  ghost function FilesModified(overlay: Layer, base: Layer): set<Path> {
    set q | q in overlay && IsReportedFile(overlay, base, q, true) :: Reported(q)
  }

  ghost function DirsCreated(overlay: Layer, base: Layer): set<Path> {
    set q | q in overlay && IsReportedDirectory(overlay, base, q) :: Reported(q)
  }

  function ReportOf(e: Entry, location: Path): FileReport {
    var preview := if |e.content| <= PREVIEW_LENGTH then e.content else e.content[..PREVIEW_LENGTH];
    FileReport(Reported(location), preview, e.owner, e.permissions)
  }

  /** A report names the path, the owner and the mode, and shows the first 500 characters. */
  lemma ReportExactly(e: Entry, location: Path)
    ensures var r := ReportOf(e, location);
            && r.path == (if location != [] && location[0] == "" then location[1..] else location)
            && r.owner == e.owner && r.permissions == e.permissions
            && r.preview <= e.content && |r.preview| == if |e.content| < 500 then |e.content| else 500
  {
  }

  /** The report of one location, if it is a file that the base has, or lacks, as asked. */
  ghost function FileReportsOf(overlay: Layer, base: Layer, location: Path, inBase: bool): seq<FileReport> {
    if IsReportedFile(overlay, base, location, inBase) then [ReportOf(overlay[location], location)] else []
  }

  ghost function DirectoryReportsOf(overlay: Layer, base: Layer, location: Path): seq<Path> {
    if IsReportedDirectory(overlay, base, location) then [Reported(location)] else []
  }

  /** The reports of the files among the locations, in order: those the base has, or those it lacks. */
  ghost function FileReports(overlay: Layer, base: Layer, locations: seq<Path>, inBase: bool): seq<FileReport> {
    if locations == [] then
      []
    else
      FileReportsOf(overlay, base, locations[0], inBase) + FileReports(overlay, base, locations[1..], inBase)
  }

  ghost function DirectoryReports(overlay: Layer, base: Layer, locations: seq<Path>): seq<Path> {
    if locations == [] then
      []
    else
      DirectoryReportsOf(overlay, base, locations[0]) + DirectoryReports(overlay, base, locations[1..])
  }

  /** Each location once. */
  ghost predicate Distinct(locations: seq<Path>) {
    forall i, j :: 0 <= i < j < |locations| ==> locations[i] != locations[j]
  }

  lemma Associate<T>(a: seq<T>, b: seq<T>, c: seq<T>)
    ensures a + (b + c) == a + b + c
  {
  }

  lemma FirstRest<T>(a: seq<T>, b: seq<T>)
    requires a != []
    ensures a == [a[0]] + a[1..] && a + b == [a[0]] + (a[1..] + b)
  {
  }

  lemma FileReportsFirst(overlay: Layer, base: Layer, q: Path, rest: seq<Path>, inBase: bool)
    ensures FileReports(overlay, base, [q] + rest, inBase)
         == FileReportsOf(overlay, base, q, inBase) + FileReports(overlay, base, rest, inBase)
  {
    assert ([q] + rest)[1..] == rest;
  }

  lemma FileReportsNone(overlay: Layer, base: Layer, b: seq<Path>, inBase: bool)
    ensures FileReports(overlay, base, [] + b, inBase)
         == FileReports(overlay, base, [], inBase) + FileReports(overlay, base, b, inBase)
  {
    assert [] + b == b;
  }

  lemma {:induction false} FileReportsConcat(overlay: Layer, base: Layer, a: seq<Path>, b: seq<Path>, inBase: bool)
    ensures FileReports(overlay, base, a + b, inBase)
         == FileReports(overlay, base, a, inBase) + FileReports(overlay, base, b, inBase)
  {
    hide FileReportsOf, FileReports;
    if a == [] {
      FileReportsNone(overlay, base, b, inBase);
    } else {
      FileReportsConcat(overlay, base, a[1..], b, inBase);
      FileReportsFirst(overlay, base, a[0], a[1..] + b, inBase);
      FileReportsFirst(overlay, base, a[0], a[1..], inBase);
      FirstRest(a, b);
      Associate(FileReportsOf(overlay, base, a[0], inBase), FileReports(overlay, base, a[1..], inBase),
                FileReports(overlay, base, b, inBase));
    }
  }

  lemma DirectoryReportsFirst(overlay: Layer, base: Layer, q: Path, rest: seq<Path>)
    ensures DirectoryReports(overlay, base, [q] + rest)
         == DirectoryReportsOf(overlay, base, q) + DirectoryReports(overlay, base, rest)
  {
    assert ([q] + rest)[1..] == rest;
  }

  lemma DirectoryReportsNone(overlay: Layer, base: Layer, b: seq<Path>)
    ensures DirectoryReports(overlay, base, [] + b)
         == DirectoryReports(overlay, base, []) + DirectoryReports(overlay, base, b)
  {
    assert [] + b == b;
  }

  lemma {:induction false} DirectoryReportsConcat(overlay: Layer, base: Layer, a: seq<Path>, b: seq<Path>)
    ensures DirectoryReports(overlay, base, a + b) ==
            DirectoryReports(overlay, base, a) + DirectoryReports(overlay, base, b)
  {
    hide DirectoryReportsOf, DirectoryReports;
    if a == [] {
      DirectoryReportsNone(overlay, base, b);
    } else {
      DirectoryReportsConcat(overlay, base, a[1..], b);
      DirectoryReportsFirst(overlay, base, a[0], a[1..] + b);
      DirectoryReportsFirst(overlay, base, a[0], a[1..]);
      FirstRest(a, b);
      Associate(DirectoryReportsOf(overlay, base, a[0]), DirectoryReports(overlay, base, a[1..]),
                DirectoryReports(overlay, base, b));
    }
  }

  lemma {:induction false} FileReportAt(overlay: Layer, base: Layer, locations: seq<Path>, inBase: bool, q: Path)
    requires q in locations && IsReportedFile(overlay, base, q, inBase)
    ensures ReportOf(overlay[q], q) in FileReports(overlay, base, locations, inBase)
  {
    if locations[0] != q {
      FileReportAt(overlay, base, locations[1..], inBase, q);
    }
  }

  lemma {:induction false} FileReportFrom(overlay: Layer, base: Layer, locations: seq<Path>, inBase: bool, i: nat)
      returns (q: Path)
    requires i < |FileReports(overlay, base, locations, inBase)|
    ensures q in locations && IsReportedFile(overlay, base, q, inBase)
    ensures FileReports(overlay, base, locations, inBase)[i] == ReportOf(overlay[q], q)
  {
    var here := if IsReportedFile(overlay, base, locations[0], inBase) then 1 else 0;
    if i < here {
      q := locations[0];
    } else {
      q := FileReportFrom(overlay, base, locations[1..], inBase, i - here);
    }
  }

  /** A list of the files at distinct locations that cover the overlay reports exactly the expected paths. */
  lemma ReportedPaths(overlay: Layer, base: Layer, locations: seq<Path>, inBase: bool)
    requires forall q :: q in locations <==> q in overlay && q != []
    requires [] in overlay ==> overlay[[]].isDir
    ensures (set r | r in FileReports(overlay, base, locations, inBase) :: r.path)
         == if inBase then FilesModified(overlay, base) else FilesCreated(overlay, base)
  {
    var reports := FileReports(overlay, base, locations, inBase);
    forall r | r in reports
      ensures r.path in if inBase then FilesModified(overlay, base) else FilesCreated(overlay, base)
    {
      var i :| 0 <= i < |reports| && reports[i] == r;
      var q := FileReportFrom(overlay, base, locations, inBase, i);
    }
    forall q | q in overlay && IsReportedFile(overlay, base, q, inBase)
      ensures ReportOf(overlay[q], q) in reports
    {
      FileReportAt(overlay, base, locations, inBase, q);
    }
  }

  lemma {:induction false} DirectoryReportsAre(overlay: Layer, base: Layer, locations: seq<Path>, r: Path)
    ensures r in DirectoryReports(overlay, base, locations) <==>
            exists q :: q in locations && IsReportedDirectory(overlay, base, q) && Reported(q) == r
  {
    if locations != [] {
      DirectoryReportsAre(overlay, base, locations[1..], r);
      var here, rest := DirectoryReportsOf(overlay, base, locations[0]), DirectoryReports(overlay, base, locations[1..]);
      assert r in here + rest <==> r in here || r in rest;
      assert locations == [locations[0]] + locations[1..];
    }
  }

  lemma ReportedDirectories(overlay: Layer, base: Layer, locations: seq<Path>)
    requires forall q :: q in locations <==> q in overlay && q != []
    ensures (set r | r in DirectoryReports(overlay, base, locations)) == DirsCreated(overlay, base)
  {
    forall r
      ensures r in DirectoryReports(overlay, base, locations) <==> r in DirsCreated(overlay, base)
    {
      DirectoryReportsAre(overlay, base, locations, r);
    }
  }

  // ----- Each path once -----

  ghost predicate OncePerPath(reports: seq<FileReport>) {
    forall i, j :: 0 <= i < j < |reports| ==> reports[i].path != reports[j].path
  }

  /** No two locations are reported under one path. */
  ghost predicate ReportedApart(locations: seq<Path>) {
    forall p, q :: p in locations && q in locations && Reported(p) == Reported(q) ==> p == q
  }

  lemma {:induction false} ReportsOnce(overlay: Layer, base: Layer, locations: seq<Path>, inBase: bool)
    requires Distinct(locations) && ReportedApart(locations)
    ensures OncePerPath(FileReports(overlay, base, locations, inBase))
  {
    if locations != [] {
      var rest := locations[1..];
      ReportsOnce(overlay, base, rest, inBase);
      var reports := FileReports(overlay, base, rest, inBase);
      forall i | 0 <= i < |reports|
        ensures reports[i].path != Reported(locations[0])
      {
        var q := FileReportFrom(overlay, base, rest, inBase, i);
        assert q != locations[0];
      }
    }
  }

  /** A path is reported among the modified files exactly when the base has it, so no path is in both lists. */
  lemma ReportsApart(overlay: Layer, base: Layer, locations: seq<Path>)
    requires Distinct(locations) && ReportedApart(locations)
    ensures OncePerPath(FileReports(overlay, base, locations, false) + FileReports(overlay, base, locations, true))
  {
    var created, modified := FileReports(overlay, base, locations, false), FileReports(overlay, base, locations, true);
    ReportsOnce(overlay, base, locations, false);
    ReportsOnce(overlay, base, locations, true);
    forall i | 0 <= i < |created|
      ensures created[i].path !in base
    {
      var q := FileReportFrom(overlay, base, locations, false, i);
    }
    forall i | 0 <= i < |modified|
      ensures modified[i].path in base
    {
      var q := FileReportFrom(overlay, base, locations, true, i);
    }
  }
}
