/** Export and import together: what leaves the legacy roots is exactly what arrives in the guest. */
module RoundTrip {
  import opened Wrappers
  import opened Text
  import opened Bytes
  import opened Profile
  import opened Inventory
  import opened Migration
  import opened GuestImport
  import opened Resumption

  // ---------- which source files are exported

  /** An entry the allowlist lets through and the denylist does not stop. */
  predicate Portable(root: Root, f: Found) {
    && root.Present? && f in Walk(root.listing)
    && !f.node.Symlink? && !Denied(f.path) && CategoryOf(root.category, f.path).Some?
  }

  function PortableCategory(root: Root, f: Found): string
    requires Portable(root, f)
  {
    CategoryOf(root.category, f.path).value
  }

  predicate LineOf(line: Line, root: Root, f: Found) {
    Portable(root, f) && line.record.category == PortableCategory(root, f) && line.record.path == f.path
      && line.source == f.node
  }

  /** The line at `start + i` is the booking of the i-th entry; it is a skipped one exactly if that is not portable. */
  predicate LineFits(lines: seq<Line>, start: nat, rootCategory: string, found: seq<Found>, i: nat)
    requires i < |found|
  {
    && start + i < |lines|
    && var line, category := lines[start + i], CategoryOf(rootCategory, found[i].path);
       && line.record.path == found[i].path && line.record.category == Label(category)
       && line.source == found[i].node
       && (line.record.status.Skipped? <==> found[i].node.Symlink? || Denied(found[i].path) || category.None?)
  }

  lemma {:induction false} LineAt(ledger: Ledger, rootCategory: string, found: seq<Found>, i: nat)
    requires i < |found|
    ensures var lines := AdmitAll(ledger, rootCategory, found).lines;
      |lines| == |ledger.lines| + |found| && LineFits(lines, |ledger.lines|, rootCategory, found, i)
  {
    var n := |found| - 1;
    if n == 0 {
    } else {
      LineAt(ledger, rootCategory, found[..n], if i < n then i else n - 1);
    }
  }

  ghost predicate Sourced(line: Line, roots: seq<Root>) {
    exists k, f :: 0 <= k < |roots| && LineOf(line, roots[k], f)
  }

  /** Lines of earlier roots stay, and the lines after them are the bookings of the last root. */
  lemma LastRootLines(roots: seq<Root>)
    requires roots != [] && TallyOf(roots).Some? && Booked(TallyOf(roots[..|roots| - 1]).value.ledger)
    ensures var n := |roots| - 1; var before := TallyOf(roots[..n]).value.ledger.lines;
      var lines := TallyOf(roots).value.ledger.lines;
      && before <= lines
      && (roots[n].Missing? ==> |lines| == |before| + 1 && lines[|before|].record.status.Skipped?)
      && (roots[n].Present? ==>
        var found := Walk(roots[n].listing);
        && |lines| == |before| + |found|
        && forall i :: 0 <= i < |found| ==> LineFits(lines, |before|, roots[n].category, found, i))
  {
    var n := |roots| - 1;
    var ledger := TallyOf(roots[..n]).value.ledger;
    if roots[n].Present? {
      var found := Walk(roots[n].listing);
      AdmitAllKeepsBooks(ledger, roots[n].category, found);
      forall i | 0 <= i < |found|
        ensures LineFits(AdmitAll(ledger, roots[n].category, found).lines, |ledger.lines|, roots[n].category, found, i)
      {
        LineAt(ledger, roots[n].category, found, i);
      }
    }
  }

  lemma FittingLineIsOf(lines: seq<Line>, start: nat, root: Root, i: nat)
    requires root.Present? && i < |Walk(root.listing)|
    requires LineFits(lines, start, root.category, Walk(root.listing), i) && lines[start + i].record.status.Imported?
    ensures LineOf(lines[start + i], root, Walk(root.listing)[i])
  {
    hide Walk, CategoryOf, Denied;
  }

  lemma {:induction false} ExportedIsPortable(roots: seq<Root>, m: nat)
    requires TallyOf(roots).Some? && m < |TallyOf(roots).value.ledger.lines|
    requires TallyOf(roots).value.ledger.lines[m].record.status.Imported?
    ensures Sourced(TallyOf(roots).value.ledger.lines[m], roots)
  {
    hide Portable, Walk, CategoryOf, Denied;
    var n := |roots| - 1;
    BudgetsHold(roots[..n]);
    LastRootLines(roots);
    var before := TallyOf(roots[..n]).value.ledger.lines;
    var line := TallyOf(roots).value.ledger.lines[m];
    if m < |before| {
      ExportedIsPortable(roots[..n], m);
      var k, f :| 0 <= k < n && LineOf(line, roots[..n][k], f);
      assert LineOf(line, roots[k], f);
    } else {
      var found := Walk(roots[n].listing);
      FittingLineIsOf(TallyOf(roots).value.ledger.lines, |before|, roots[n], m - |before|);
      assert LineOf(line, roots[n], found[m - |before|]);
    }
  }

  /** The last root's own lines hold each of its portable files. */
  lemma LastRootIsExported(lines: seq<Line>, start: nat, root: Root, f: Found) returns (line: Line)
    requires Portable(root, f)
    requires forall i :: 0 <= i < |Walk(root.listing)| ==> LineFits(lines, start, root.category, Walk(root.listing), i)
    requires forall line <- lines :: !line.record.status.Failed?
    ensures line in lines && line.record.status.Imported? && LineOf(line, root, f)
  {
    var found := Walk(root.listing);
    var i :| 0 <= i < |found| && found[i] == f;
    assert LineFits(lines, start, root.category, found, i);
    line := lines[start + i];
    assert line in lines;
  }

  /** Without failures no portable file is lost. */
  lemma {:induction false} PortableIsExported(roots: seq<Root>, k: nat, f: Found) returns (line: Line)
    requires TallyOf(roots).Some? && NoFailures(TallyOf(roots).value.ledger)
    requires k < |roots| && Portable(roots[k], f)
    ensures line in TallyOf(roots).value.ledger.lines && line.record.status.Imported? && LineOf(line, roots[k], f)
  {
    var n := |roots| - 1;
    BudgetsHold(roots[..n]);
    LastRootLines(roots);
    var before, lines := TallyOf(roots[..n]).value.ledger.lines, TallyOf(roots).value.ledger.lines;
    if k == n {
      line := LastRootIsExported(lines, |before|, roots[n], f);
    } else {
      assert roots[..n][k] == roots[k];
      forall x | x in before ensures x in lines { }
      line := PortableIsExported(roots[..n], k, f);
    }
  }

  // ---------- the staged bundle always passes its own verification

  predicate KnownCategory(category: string) {
    category == "profile" || category in CATEGORIES
  }

  /** What the command line and the filesystem guarantee about the roots. */
  predicate CleanRoots(roots: seq<Root>) {
    forall k :: 0 <= k < |roots| ==>
      KnownCategory(roots[k].category) && (roots[k].Present? ==> WellFormed(roots[k].listing))
  }

  lemma RootedPathSplits(path: string)
    ensures "/" <= path ==> Split(path, '/')[0] == ""
  {}

  lemma PortablePathIsClean(root: Root, f: Found)
    requires Portable(root, f) && WellFormed(root.listing) && KnownCategory(root.category)
    ensures PosixParts(f.path) == Split(f.path, '/') && !("/" <= f.path) && ".." !in PosixParts(f.path)
    ensures PortableCategory(root, f) in CATEGORIES
  {
    WalkedPathsAreSafe(root.listing);
    RealNamesStay(Split(f.path, '/'));
    RootedPathSplits(f.path);
    assert Split(f.path, '/')[0] in Split(f.path, '/');
    assert !IsName("") && !IsName("..");
  }

  /** A manifest line in order: booked, faithful if imported, and its bytes are in the payload. */
  predicate Staged(line: Line, ledger: Ledger, files: map<string, Node>) {
    && line in ledger.lines
    && (line.record.status.Imported? ==>
      && Faithful(line) && line.record.status.output in files
      && files[line.record.status.output] == PlainFile(line.source.data))
  }

  lemma LinesAreStaged(roots: seq<Root>)
    requires TallyOf(roots).Some?
    ensures var ledger := TallyOf(roots).value.ledger; var b := BundleOf(ledger); var lines := Ordered(ledger.lines);
      && Booked(ledger)
      && b.manifest.entries == RecordsOf(lines) && DistinctOutputs(b.manifest.entries)
      && b.files.Keys == Outputs(b.manifest.entries)
      && (forall line <- lines :: Staged(line, ledger, b.files))
      && (forall line <- ledger.lines :: line in lines)
  {
    var ledger := TallyOf(roots).value.ledger;
    BudgetsHold(roots);
    OrderKeepsBooks(ledger);
    SortKeepsElements((a: Line, b: Line) => Earlier(a, b), ledger.lines);
    StagedFilesAreTheSources(Ordered(ledger.lines));
  }

  /** The line behind a manifest entry, and where it was booked. */
  lemma LineBehind(roots: seq<Root>, r: Record) returns (line: Line, m: nat)
    requires TallyOf(roots).Some? && r in ManifestOf(TallyOf(roots).value.ledger).entries
    ensures var ledger := TallyOf(roots).value.ledger;
      m < |ledger.lines| && ledger.lines[m] == line && line.record == r && Staged(line, ledger, BundleOf(ledger).files)
  {
    LinesAreStaged(roots);
    var ledger := TallyOf(roots).value.ledger;
    var lines := Ordered(ledger.lines);
    var i :| 0 <= i < |lines| && lines[i].record == r;
    line := lines[i];
    assert line in lines;
    m :| 0 <= m < |ledger.lines| && ledger.lines[m] == line;
  }

  lemma SourcedEntryAgrees(line: Line, roots: seq<Root>, files: map<string, Node>)
    requires CleanRoots(roots) && Sourced(line, roots) && Faithful(line)
    requires line.record.status.output in files && files[line.record.status.output] == PlainFile(line.source.data)
    ensures EntryAgrees(line.record, files)
  {
    var k, f :| 0 <= k < |roots| && LineOf(line, roots[k], f);
    PortablePathIsClean(roots[k], f);
  }

  /**
    Staging cannot be refused by the verification that follows it: the check there guards against interference only.
  */
  lemma StagedBundleIsConsistent(roots: seq<Root>)
    requires CleanRoots(roots) && TallyOf(roots).Some?
    ensures Consistent(BundleOf(TallyOf(roots).value.ledger))
  {
    LinesAreStaged(roots);
    var b := BundleOf(TallyOf(roots).value.ledger);
    forall r | r in b.manifest.entries && r.status.Imported? ensures EntryAgrees(r, b.files) {
      var line, m := LineBehind(roots, r);
      ExportedIsPortable(roots, m);
      SourcedEntryAgrees(line, roots, b.files);
    }
  }

  // ---------- importing a bundle

  /** Where the guest keeps a file of this category. */
  function Destination(destinations: map<string, Path>, category: string, path: string): Path
    requires category in destinations
  {
    destinations[category] + PosixParts(path)
  }

  function TasksOf(records: seq<Record>, files: map<string, Node>, destinations: map<string, Path>): seq<Task>
    requires forall r <- records :: EntryAgrees(r, files) && (r.status.Imported? ==> r.category in destinations)
  {
    if records == [] then []
    else
      var r := records[|records| - 1];
      assert r in records && EntryAgrees(r, files);
      TasksOf(records[..|records| - 1], files, destinations) +
        if r.status.Imported?
        then [Task(Destination(destinations, r.category, r.path), files[r.status.output].content, Calm)] else []
  }

  lemma {:induction false} TasksAreTheImportedEntries(records: seq<Record>, files: map<string, Node>,
      destinations: map<string, Path>)
    requires forall r <- records :: EntryAgrees(r, files) && (r.status.Imported? ==> r.category in destinations)
    ensures var tasks := TasksOf(records, files, destinations);
      && |tasks| == CountImported(records) && AllCalm(tasks)
      && (forall t <- tasks :: exists r :: r in records && TaskOf(t, r, files, destinations))
      && (forall r <- records :: r.status.Imported? ==> exists t :: t in tasks && TaskOf(t, r, files, destinations))
  {
    if records == [] {
    } else {
      var n := |records| - 1;
      TasksAreTheImportedEntries(records[..n], files, destinations);
      var r := records[n];
      assert records == records[..n] + [r];
      var before, tasks := TasksOf(records[..n], files, destinations), TasksOf(records, files, destinations);
      if r.status.Imported? {
        assert TaskOf(tasks[|before|], r, files, destinations) && tasks[|before|] in tasks;
      }
      forall t | t in tasks ensures exists r :: r in records && TaskOf(t, r, files, destinations) {
        if t in before {
          var s :| s in records[..n] && TaskOf(t, s, files, destinations);
          assert s in records;
        }
      }
      forall s | s in records && s.status.Imported?
        ensures exists t :: t in tasks && TaskOf(t, s, files, destinations)
      {
        if s in records[..n] {
          var t :| t in before && TaskOf(t, s, files, destinations);
          assert t in tasks;
        }
      }
    }
  }

  predicate TaskOf(t: Task, r: Record, files: map<string, Node>, destinations: map<string, Path>) {
    && r.status.Imported? && r.category in destinations && r.status.output in files && files[r.status.output].PlainFile?
    && t == Task(Destination(destinations, r.category, r.path), files[r.status.output].content, Calm)
  }

  function Weathered(tasks: seq<Task>, weather: nat -> Interference): (r: seq<Task>)
    ensures |r| == |tasks| && forall i :: 0 <= i < |r| ==> r[i] == tasks[i].(weather := weather(i))
  {
    seq(|tasks|, i requires 0 <= i < |tasks| => tasks[i].(weather := weather(i)))
  }

  predicate RootAdmits(g: Files, root: Path) {
    forall k :: 0 < k <= |root| && root[..k] in g ==> g[root[..k]].GuestDirectory?
  }

  /** The checks made before the first file is touched. */
  predicate Importable(b: Bundle, destinations: map<string, Path>, g: Files) {
    && Consistent(b)
    && (forall r <- b.manifest.entries :: r.status.Imported? ==> r.category in destinations)
    && (forall c <- destinations.Keys :: c in CATEGORIES && RootAdmits(g, destinations[c]))
  }

  /**
    The whole import command. It reports counts exactly if the bundle is importable and no entry is refused; in every
    case nothing that existed before has changed, in no state it passes through.
  */
  method ImportBundle(b: Bundle, destinations: map<string, Path>, guest: Guest, weather: nat -> Interference)
    returns (counts: Option<(nat, nat)>)
    requires Rooted(guest.files) && guest.temporary == None
    modifies guest
    ensures guest.temporary == None && Rooted(guest.files)
    ensures old(guest.trail) <= guest.trail && guest.Between(old(guest.files), |old(guest.trail)|)
    ensures !Importable(b, destinations, old(guest.files)) ==> counts == None && guest.files == old(guest.files)
    ensures Importable(b, destinations, old(guest.files)) ==>
      var tasks := Weathered(TasksOf(b.manifest.entries, b.files, destinations), weather);
      var r := ImportAll(old(guest.files), tasks);
      guest.files == r.files && counts == if r.refused then None else Some((r.imported, r.retained))
  {
    var intact := VerifyBundle(b);
    if !intact || !Importable(b, destinations, guest.files) {
      return None;
    }
    var tasks := Weathered(TasksOf(b.manifest.entries, b.files, destinations), weather);
    var imported, retained, refused := guest.Import(tasks);
    counts := if refused then None else Some((imported, retained));
  }

  /** The guest has the file of an imported entry below the root of its category, as the manifest describes it. */
  predicate DeliveredAs(g: Files, r: Record, destinations: map<string, Path>) {
    && r.status.Imported? && r.category in destinations
    && var p := destinations[r.category] + PosixParts(r.path);
       && p in g && g[p].GuestFile? && |g[p].content| == r.status.bytes && Sha256(g[p].content) == r.status.digest
  }

  /**
    After an import without refusal every imported entry is delivered as the manifest describes it, inside its root.
  */
  lemma ImportDeliversTheManifest(b: Bundle, destinations: map<string, Path>, g: Files, weather: nat -> Interference)
    requires Rooted(g) && Importable(b, destinations, g)
    ensures var r := ImportAll(g, Weathered(TasksOf(b.manifest.entries, b.files, destinations), weather));
      !r.refused ==> forall e <- b.manifest.entries :: e.status.Imported? ==>
        DeliveredAs(r.files, e, destinations) && ".." !in PosixParts(e.path) && !("/" <= e.path)
  {
    hide Denied, PosixParts, ImportAll, CountImported;
    var records, tasks := b.manifest.entries, TasksOf(b.manifest.entries, b.files, destinations);
    var weathered := Weathered(tasks, weather);
    var r := ImportAll(g, weathered);
    TasksAreTheImportedEntries(records, b.files, destinations);
    if !r.refused {
      UnrefusedImportDelivers(g, weathered);
      forall e | e in records && e.status.Imported? ensures DeliveredAs(r.files, e, destinations) {
        var t :| t in tasks && TaskOf(t, e, b.files, destinations);
        var i :| 0 <= i < |tasks| && tasks[i] == t;
        assert weathered[i] in weathered && weathered[i].destination == t.destination;
      }
    }
  }

  // ---------- the round trip

  /** Different portable files have different destinations, none of them inside another. */
  ghost predicate Separated(destinations: map<string, Path>, roots: seq<Root>) {
    forall k, f, l, h ::
      && 0 <= k < |roots| && Portable(roots[k], f) && 0 <= l < |roots| && Portable(roots[l], h)
      && (PortableCategory(roots[k], f), f.path) != (PortableCategory(roots[l], h), h.path)
      && PortableCategory(roots[k], f) in destinations && PortableCategory(roots[l], h) in destinations
      ==> Apart(Destination(destinations, PortableCategory(roots[k], f), f.path),
                Destination(destinations, PortableCategory(roots[l], h), h.path))
  }

  predicate RecordsApart(records: seq<Record>, destinations: map<string, Path>) {
    forall r, s :: r in records && s in records && r.status.Imported? && s.status.Imported?
      && (r.category, r.path) != (s.category, s.path) && r.category in destinations && s.category in destinations
      ==> Apart(Destination(destinations, r.category, r.path), Destination(destinations, s.category, s.path))
  }

  /** Distinct outputs come from distinct places, and those are kept apart. */
  lemma EntriesGoApart(r: Record, s: Record, records: seq<Record>, files: map<string, Node>,
      destinations: map<string, Path>)
    requires RecordsApart(records, destinations) && r in records && s in records && r.status.Imported?
      && s.status.Imported?
    requires EntryAgrees(r, files) && EntryAgrees(s, files) && r.status.output != s.status.output
    requires r.category in destinations && s.category in destinations
    ensures Apart(Destination(destinations, r.category, r.path), Destination(destinations, s.category, s.path))
  {
    hide Apart, Destination;
  }

  lemma CompatibleGrows(tasks: seq<Task>, t: Task)
    requires Compatible(tasks) && forall u <- tasks :: Apart(u.destination, t.destination)
    ensures Compatible(tasks + [t])
  {
    assert forall i :: 0 <= i < |tasks| ==> tasks[i] in tasks;
  }

  lemma {:induction false} TasksAreCompatible(records: seq<Record>, files: map<string, Node>,
      destinations: map<string, Path>)
    requires forall r <- records :: EntryAgrees(r, files) && (r.status.Imported? ==> r.category in destinations)
    requires DistinctOutputs(records) && RecordsApart(records, destinations)
    ensures Compatible(TasksOf(records, files, destinations))
  {
    hide EntryAgrees, Destination, Compatible, RecordsApart, DistinctOutputs;
    if records == [] {
      NoTasks();
    } else {
      var n := |records| - 1;
      DistinctPrefix(records, n);
      ApartPrefix(records, n, destinations);
      TasksAreCompatible(records[..n], files, destinations);
      TasksAreTheImportedEntries(records[..n], files, destinations);
      var r := records[n];
      assert r in records;
      if r.status.Imported? {
        var before := TasksOf(records[..n], files, destinations);
        forall t | t in before ensures Apart(t.destination, Destination(destinations, r.category, r.path)) {
          var s :| s in records[..n] && TaskOf(t, s, files, destinations);
          var m :| 0 <= m < n && records[m] == s;
          assert s in records;
          DistinctPair(records, m, n);
          EntriesGoApart(s, r, records, files, destinations);
        }
        var t := TasksOf(records, files, destinations)[|before|];
        LastTask(records, files, destinations);
        CompatibleGrows(before, t);
      } else {
        NoLastTask(records, files, destinations);
      }
    }
  }

  lemma NoTasks()
    ensures Compatible([])
  {}

  lemma DistinctPair(records: seq<Record>, m: nat, n: nat)
    requires DistinctOutputs(records) && m < n < |records| && records[m].status.Imported? && records[n].status.Imported?
    ensures records[m].status.output != records[n].status.output
  {}

  lemma ApartPrefix(records: seq<Record>, n: nat, destinations: map<string, Path>)
    requires RecordsApart(records, destinations) && n <= |records|
    ensures RecordsApart(records[..n], destinations)
  {
    hide Apart, Destination;
  }

  lemma LastTask(records: seq<Record>, files: map<string, Node>, destinations: map<string, Path>)
    requires forall r <- records :: EntryAgrees(r, files) && (r.status.Imported? ==> r.category in destinations)
    requires records != [] && records[|records| - 1].status.Imported?
    ensures var n := |records| - 1; var r := records[n]; var before := TasksOf(records[..n], files, destinations);
      && r in records && TasksOf(records, files, destinations) == before
         + [TasksOf(records, files, destinations)[|before|]]
      && TasksOf(records, files, destinations)[|before|].destination == Destination(destinations, r.category, r.path)
  {
    hide Destination;
    assert records[|records| - 1] in records;
  }

  lemma NoLastTask(records: seq<Record>, files: map<string, Node>, destinations: map<string, Path>)
    requires forall r <- records :: EntryAgrees(r, files) && (r.status.Imported? ==> r.category in destinations)
    requires records != [] && !records[|records| - 1].status.Imported?
    ensures TasksOf(records, files, destinations) == TasksOf(records[..|records| - 1], files, destinations)
  {}

  /** The manifest entry of a portable source file, with its bytes in the payload. */
  predicate EntryFor(b: Bundle, r: Record, root: Root, f: Found) {
    && Portable(root, f) && f.node.Regular? && r.status.Imported?
    && r.category == PortableCategory(root, f) && r.path == f.path
    && r.status.output in b.files && b.files[r.status.output] == PlainFile(f.node.data)
  }

  lemma EntryIsPortable(roots: seq<Root>, r: Record) returns (k: nat, f: Found)
    requires TallyOf(roots).Some? && r in ManifestOf(TallyOf(roots).value.ledger).entries && r.status.Imported?
    ensures k < |roots| && EntryFor(BundleOf(TallyOf(roots).value.ledger), r, roots[k], f)
  {
    var line, m := LineBehind(roots, r);
    ExportedIsPortable(roots, m);
    k, f :| 0 <= k < |roots| && LineOf(line, roots[k], f);
  }

  lemma PortableIsAnEntry(roots: seq<Root>, k: nat, f: Found) returns (r: Record)
    requires TallyOf(roots).Some? && NoFailures(TallyOf(roots).value.ledger)
    requires k < |roots| && Portable(roots[k], f)
    ensures r in ManifestOf(TallyOf(roots).value.ledger).entries
    ensures EntryFor(BundleOf(TallyOf(roots).value.ledger), r, roots[k], f)
  {
    LinesAreStaged(roots);
    var lines := Ordered(TallyOf(roots).value.ledger.lines);
    var line := PortableIsExported(roots, k, f);
    var i :| 0 <= i < |lines| && lines[i] == line;
    r := line.record;
    assert RecordsOf(lines)[i] == r;
  }

  /** The destinations the portable files need exist in the map, are separated, and are free in the guest. */
  ghost predicate ReadyFor(roots: seq<Root>, destinations: map<string, Path>, g: Files) {
    && Separated(destinations, roots)
    && forall k, f :: 0 <= k < |roots| && Portable(roots[k], f) ==>
         && PortableCategory(roots[k], f) in destinations
         && OpenTo(g, Destination(destinations, PortableCategory(roots[k], f), f.path))
  }

  lemma BundleFitsGuest(roots: seq<Root>, destinations: map<string, Path>, g: Files)
    requires CleanRoots(roots) && TallyOf(roots).Some? && Rooted(g) && ReadyFor(roots, destinations, g)
    ensures var b := BundleOf(TallyOf(roots).value.ledger);
      && Consistent(b)
      && (forall r <- b.manifest.entries ::
           EntryAgrees(r, b.files) && (r.status.Imported? ==> r.category in destinations))
      && var tasks := TasksOf(b.manifest.entries, b.files, destinations);
         Compatible(tasks) && AllCalm(tasks) && |tasks| == b.manifest.imported
         && forall t <- tasks :: OpenTo(g, t.destination)
  {
    var b := BundleOf(TallyOf(roots).value.ledger);
    var records := b.manifest.entries;
    StagedBundleIsConsistent(roots);
    forall r | r in records && r.status.Imported?
      ensures r.category in destinations && OpenTo(g, Destination(destinations, r.category, r.path))
    {
      var k, f := EntryIsPortable(roots, r);
    }
    forall r, s | r in records && s in records && r.status.Imported? && s.status.Imported?
      && (r.category, r.path) != (s.category, s.path) && r.category in destinations && s.category in destinations
      ensures Apart(Destination(destinations, r.category, r.path), Destination(destinations, s.category, s.path))
    {
      var k, f := EntryIsPortable(roots, r);
      var l, h := EntryIsPortable(roots, s);
    }
    TasksAreCompatible(records, b.files, destinations);
    TasksAreTheImportedEntries(records, b.files, destinations);
  }

  /**
    Round trip: a bundle exported from any clean roots imports completely into a guest with room for it. Every portable
    source file is then at its destination with its own bytes, and nothing but these files and directories is new.
  */
  lemma ExportThenImport(roots: seq<Root>, destinations: map<string, Path>, g: Files)
    requires CleanRoots(roots) && TallyOf(roots).Some? && NoFailures(TallyOf(roots).value.ledger)
    requires Rooted(g) && ReadyFor(roots, destinations, g)
    ensures var b := BundleOf(TallyOf(roots).value.ledger);
      && (forall r <- b.manifest.entries ::
           EntryAgrees(r, b.files) && (r.status.Imported? ==> r.category in destinations))
      && var tasks := TasksOf(b.manifest.entries, b.files, destinations); var r := ImportAll(g, tasks);
         && !r.refused && r.imported == b.manifest.imported && r.retained == 0
         && ImportAll(r.files, tasks) == Report(r.files, 0, b.manifest.imported, false)
         && (forall k, f :: 0 <= k < |roots| && Portable(roots[k], f) ==> Arrived(r.files, roots[k], f, destinations))
         && (forall p :: p in r.files && p !in g ==>
              r.files[p].GuestDirectory? || Expected(r.files, p, roots, destinations))
  {
    var b := BundleOf(TallyOf(roots).value.ledger);
    BundleFitsGuest(roots, destinations, g);
    var records, tasks := b.manifest.entries, TasksOf(b.manifest.entries, b.files, destinations);
    var r := ImportAll(g, tasks);
    TasksAreTheImportedEntries(records, b.files, destinations);
    OpenGuestTakesAll(g, tasks);
    UnrefusedImportDelivers(g, tasks);
    SecondImportIsANoOp(g, tasks);
    forall k, f | 0 <= k < |roots| && Portable(roots[k], f) ensures Arrived(r.files, roots[k], f, destinations) {
      var entry := PortableIsAnEntry(roots, k, f);
      var t :| t in tasks && TaskOf(t, entry, b.files, destinations);
    }
    forall p | p in r.files && p !in g ensures r.files[p].GuestDirectory? || Expected(r.files, p, roots, destinations) {
      OnlyPayloadsAppear(g, tasks, p);
      if !r.files[p].GuestDirectory? {
        var t :| t in tasks && t.destination == p && r.files[p] == GuestFile(t.payload);
        var entry :| entry in records && TaskOf(t, entry, b.files, destinations);
        var k, f := EntryIsPortable(roots, entry);
        assert Arrived(r.files, roots[k], f, destinations);
      }
    }
  }

  /** A source file's bytes are in place. */
  predicate Arrived(g: Files, root: Root, f: Found, destinations: map<string, Path>)
    requires Portable(root, f)
  {
    && PortableCategory(root, f) in destinations && f.node.Regular?
    && var p := Destination(destinations, PortableCategory(root, f), f.path);
       p in g && g[p] == GuestFile(f.node.data)
  }

  ghost predicate Expected(g: Files, p: Path, roots: seq<Root>, destinations: map<string, Path>) {
    exists k, f :: 0 <= k < |roots| && Portable(roots[k], f) && Arrived(g, roots[k], f, destinations)
      && p == Destination(destinations, PortableCategory(roots[k], f), f.path)
  }

  // ---------- the destinations of the command line

  predicate CommandRoots(roots: seq<Root>) {
    && (forall k :: 0 <= k < |roots| ==> roots[k].category in {"profile", "downloads", "policies"})
    && forall k, l :: 0 <= k < l < |roots| ==> roots[k].category != roots[l].category
  }

  /** The profile categories share one directory; downloads and policies have their own. */
  function CommandDestinations(profile: Path, downloads: Path, policies: Path): map<string, Path> {
    map["bookmarks" := profile, "history" := profile, "sessions" := profile, "extensions" := profile,
        "downloads" := downloads, "policies" := policies]
  }

  lemma PrefixReachesBase(p: Path, q: Path, a: Path, b: Path)
    ensures p + a <= q + b ==> p <= q || q <= p
  {
    var n := if |p| <= |q| then |p| else |q|;
    assert (p + a)[..n] == p[..n] && (q + b)[..n] == q[..n];
    assert p + a <= q + b ==> (p + a)[..n] == (q + b)[..n];
  }

  lemma DisjointRootsKeepApart(p: Path, q: Path, a: Path, b: Path)
    requires Apart(p, q)
    ensures Apart(p + a, q + b)
  {
    PrefixReachesBase(p, q, a, b);
    PrefixReachesBase(q, p, b, a);
  }

  lemma PrefixStrips(base: Path, a: Path, b: Path)
    ensures base + a <= base + b ==> a <= b
  {
    assert forall k :: 0 <= k < |a| ==> (base + a)[|base| + k] == a[k];
    assert forall k :: 0 <= k < |b| ==> (base + b)[|base| + k] == b[k];
  }

  lemma SameRootKeepsApart(root: Root, f: Found, h: Found, base: Path)
    requires Portable(root, f) && Portable(root, h) && WellFormed(root.listing) && KnownCategory(root.category)
    requires f.path != h.path
    ensures Apart(base + PosixParts(f.path), base + PosixParts(h.path))
  {
    var found := Walk(root.listing);
    var i :| 0 <= i < |found| && found[i] == f;
    var j :| 0 <= j < |found| && found[j] == h;
    WalkedPathsAreUnrelated(root.listing);
    PortablePathIsClean(root, f);
    PortablePathIsClean(root, h);
    var a, b := PosixParts(f.path), PosixParts(h.path);
    assert !(a <= b) && !(b <= a);
    PrefixStrips(base, a, b);
    PrefixStrips(base, b, a);
  }

  /** What the round trip asks of the destinations holds for every use of the two commands. */
  lemma CommandDestinationsSeparate(roots: seq<Root>, profile: Path, downloads: Path, policies: Path)
    requires CleanRoots(roots) && CommandRoots(roots)
    requires Apart(profile, downloads) && Apart(profile, policies) && Apart(downloads, policies)
    ensures Separated(CommandDestinations(profile, downloads, policies), roots)
  {
    var destinations := CommandDestinations(profile, downloads, policies);
    forall k, f, l, h |
      && 0 <= k < |roots| && Portable(roots[k], f) && 0 <= l < |roots| && Portable(roots[l], h)
      && (PortableCategory(roots[k], f), f.path) != (PortableCategory(roots[l], h), h.path)
      && PortableCategory(roots[k], f) in destinations && PortableCategory(roots[l], h) in destinations
      ensures Apart(Destination(destinations, PortableCategory(roots[k], f), f.path),
                    Destination(destinations, PortableCategory(roots[l], h), h.path))
    {
      CategoryBase(roots[k], f, profile, downloads, policies);
      CategoryBase(roots[l], h, profile, downloads, policies);
      var p, q := BaseOf(roots[k].category, profile, downloads, policies),
        BaseOf(roots[l].category, profile, downloads, policies);
      if roots[k].category == roots[l].category {
        assert k == l;
        SameRootKeepsApart(roots[k], f, h, p);
      } else {
        DisjointRootsKeepApart(p, q, PosixParts(f.path), PosixParts(h.path));
      }
    }
  }

  function BaseOf(rootCategory: string, profile: Path, downloads: Path, policies: Path): Path {
    if rootCategory == "downloads" then downloads else if rootCategory == "policies" then policies else profile
  }

  lemma CategoryBase(root: Root, f: Found, profile: Path, downloads: Path, policies: Path)
    requires Portable(root, f) && root.category in {"profile", "downloads", "policies"}
    ensures var destinations := CommandDestinations(profile, downloads, policies);
      && PortableCategory(root, f) in destinations
      && destinations[PortableCategory(root, f)] == BaseOf(root.category, profile, downloads, policies)
  {}
}
