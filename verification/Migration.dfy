/** The bundle itself: manifest, verification against the payload tree, staging and publication over an old bundle. */
module Migration {
  import opened Wrappers
  import opened Text
  import opened Bytes
  import opened Profile
  import opened Inventory

  datatype Manifest = Manifest(imported: nat, skipped: nat, failed: nat, bytes: nat, entries: seq<Record>)

  datatype Node = PlainFile(content: Data) | LinkNode | OtherNode

  /** A bundle directory: the manifest and every other file beneath it, by relative path. */
  datatype Bundle = Bundle(manifest: Manifest, files: map<string, Node>)

  predicate Earlier(a: Line, b: Line) {
    Less(a.record.category, b.record.category)
    || (a.record.category == b.record.category && Less(a.record.path, b.record.path))
  }

  function Ordered(lines: seq<Line>): (r: seq<Line>)
    ensures multiset(r) == multiset(lines)
  {
    Sort((a: Line, b: Line) => Earlier(a, b), lines)
  }

  function RecordsOf(lines: seq<Line>): (r: seq<Record>)
    ensures |r| == |lines| && forall i :: 0 <= i < |r| ==> r[i] == lines[i].record
  {
    seq(|lines|, i requires 0 <= i < |lines| => lines[i].record)
  }

  function CountImported(records: seq<Record>): nat {
    if records == [] then 0
    else CountImported(records[..|records| - 1]) + if records[|records| - 1].status.Imported? then 1 else 0
  }

  function CountSkipped(records: seq<Record>): nat {
    if records == [] then 0
    else CountSkipped(records[..|records| - 1]) + if records[|records| - 1].status.Skipped? then 1 else 0
  }

  function CountFailed(records: seq<Record>): nat {
    if records == [] then 0
    else CountFailed(records[..|records| - 1]) + if records[|records| - 1].status.Failed? then 1 else 0
  }

  function ManifestOf(ledger: Ledger): Manifest {
    var records := RecordsOf(Ordered(ledger.lines));
    Manifest(CountImported(records), CountSkipped(records), CountFailed(records), ledger.total, records)
  }

  lemma {:induction false} CountsAddUp(records: seq<Record>)
    ensures CountImported(records) + CountSkipped(records) + CountFailed(records) == |records|
    ensures CountFailed(records) == 0 <==> forall r <- records :: !r.status.Failed?
  {
    if records == [] {
    } else {
      var n := |records| - 1;
      CountsAddUp(records[..n]);
      assert records == records[..n] + [records[n]];
    }
  }

  // ---------- verification of a bundle directory

  /** What the manifest promises of one entry, checked against the payload. */
  predicate EntryAgrees(r: Record, files: map<string, Node>) {
    r.status.Imported? ==>
      && r.category in CATEGORIES && !Denied(r.path)
      && !("/" <= r.path) && ".." !in PosixParts(r.path)
      && r.status.output == Output(r.category, r.path)
      && r.status.output in files && files[r.status.output].PlainFile?
      && |files[r.status.output].content| == r.status.bytes
      && Sha256(files[r.status.output].content) == r.status.digest
  }

  function Outputs(records: seq<Record>): set<string> {
    set r | r in records && r.status.Imported? :: r.status.output
  }

  predicate DistinctOutputs(records: seq<Record>) {
    forall i, j :: 0 <= i < j < |records| && records[i].status.Imported? && records[j].status.Imported?
      ==> records[i].status.output != records[j].status.output
  }

  /** Manifest and payload tree agree exactly: every promised file is there, once, and nothing else is. */
  predicate Consistent(b: Bundle) {
    && (forall r <- b.manifest.entries :: EntryAgrees(r, b.files))
    && DistinctOutputs(b.manifest.entries)
    && b.files.Keys == Outputs(b.manifest.entries)
  }

  lemma OutputsGrow(records: seq<Record>, i: nat)
    requires i < |records|
    ensures Outputs(records[..i + 1]) ==
      Outputs(records[..i]) + if records[i].status.Imported? then {records[i].status.output} else {}
  {
    PrefixGrows(records, i);
    var r := records[i];
    assert forall s <- records[..i + 1] :: s in records[..i] || s == r;
    if r.status.Imported? {
      assert r in records[..i + 1];
    }
    forall x | x in Outputs(records[..i]) ensures x in Outputs(records[..i + 1]) {
      var s :| s in records[..i] && s.status.Imported? && s.status.output == x;
      assert s in records[..i + 1];
    }
  }

  /** An output met before is a duplicate, and only then. */
  lemma DistinctGrows(records: seq<Record>, i: nat)
    requires i < |records| && DistinctOutputs(records[..i])
    ensures DistinctOutputs(records[..i + 1]) <==>
      (records[i].status.Imported? ==> records[i].status.output !in Outputs(records[..i]))
  {
    var prefix, longer := records[..i], records[..i + 1];
    assert forall k :: 0 <= k < i ==> longer[k] == prefix[k];
    assert longer[i] == records[i];
    if records[i].status.Imported? && records[i].status.output in Outputs(prefix) {
      var s :| s in prefix && s.status.Imported? && s.status.output == records[i].status.output;
      var k :| 0 <= k < i && prefix[k] == s;
      assert longer[k].status.output == longer[i].status.output;
    }
    if records[i].status.Imported? && records[i].status.output !in Outputs(prefix) {
      forall k | 0 <= k < i && longer[k].status.Imported? ensures longer[k].status.output != records[i].status.output {
        assert prefix[k] in prefix;
      }
    }
  }

  lemma DistinctPrefix(records: seq<Record>, i: nat)
    requires i <= |records|
    ensures DistinctOutputs(records) ==> DistinctOutputs(records[..i])
  {}

  method VerifyBundle(b: Bundle) returns (ok: bool)
    ensures ok <==> Consistent(b)
  {
    var entries := b.manifest.entries;
    var expected: set<string> := {};
    for i := 0 to |entries|
      invariant forall k :: 0 <= k < i ==> EntryAgrees(entries[k], b.files)
      invariant DistinctOutputs(entries[..i]) && expected == Outputs(entries[..i])
    {
      var r := entries[i];
      OutputsGrow(entries, i);
      DistinctGrows(entries, i);
      DistinctPrefix(entries, i + 1);
      if !r.status.Imported? {
        continue;
      }
      if !EntryAgrees(r, b.files) {
        assert r in entries;
        return false;
      }
      if r.status.output in expected {
        return false;
      }
      expected := expected + {r.status.output};
    }
    WholePrefix(entries);
    return b.files.Keys == expected;
  }

  // ---------- staging

  /** The imported lines whose source no longer matches its inventory when it is copied. */
  predicate CopyFails(line: Line) {
    line.record.status.Imported? && line.source.Regular? && line.source.stability == ChangesBeforeCopy
  }

  /** No payload file stands where another needs a directory. */
  predicate TreeShaped(paths: set<string>) {
    forall p, q :: p in paths && q in paths ==> !(p + "/" <= q)
  }

  predicate Copyable(lines: seq<Line>) {
    && (forall line <- lines :: !CopyFails(line))
    && (forall line <- lines :: line.record.status.Imported? ==> line.source.Regular?)
    && TreeShaped(Outputs(RecordsOf(lines)))
  }

  function StagedFiles(lines: seq<Line>): map<string, Node> {
    if lines == [] then map[]
    else
      var last := lines[|lines| - 1];
      var before := StagedFiles(lines[..|lines| - 1]);
      if last.record.status.Imported? && last.source.Regular?
      then before[last.record.status.output := PlainFile(last.source.data)] else before
  }

  method Stage(lines: seq<Line>) returns (files: map<string, Node>)
    requires Copyable(lines)
    ensures files == StagedFiles(lines)
  {
    files := map[];
    for i := 0 to |lines|
      invariant files == StagedFiles(lines[..i])
    {
      assert lines[..i + 1][..i] == lines[..i];
      var line := lines[i];
      assert line in lines;
      if line.record.status.Imported? {
        files := files[line.record.status.output := PlainFile(line.source.data)];
      }
    }
    WholePrefix(lines);
  }

  /** Distinct outputs keep their own bytes: the staged payload is exactly the imported sources. */
  lemma {:induction false} StagedFilesAreTheSources(lines: seq<Line>)
    requires DistinctOutputs(RecordsOf(lines))
    requires forall line <- lines :: line.record.status.Imported? ==> line.source.Regular?
    ensures StagedFiles(lines).Keys == Outputs(RecordsOf(lines))
    ensures forall line <- lines :: line.record.status.Imported? ==>
      line.record.status.output in StagedFiles(lines)
      && StagedFiles(lines)[line.record.status.output] == PlainFile(line.source.data)
  {
    if lines == [] {
    } else {
      var n := |lines| - 1;
      var records := RecordsOf(lines);
      assert records[..n] == RecordsOf(lines[..n]);
      WholePrefix(records);
      DistinctPrefix(records, n);
      OutputsGrow(records, n);
      DistinctGrows(records, n);
      StagedFilesAreTheSources(lines[..n]);
      assert lines[n] in lines;
      forall line | line in lines && line.record.status.Imported?
        ensures line.record.status.output in StagedFiles(lines)
        ensures StagedFiles(lines)[line.record.status.output] == PlainFile(line.source.data)
      {
        var k :| 0 <= k < |lines| && lines[k] == line;
        if k < n {
          assert lines[..n][k] in lines[..n];
          assert records[k].status.output in Outputs(records[..n]) by { assert records[..n][k] in records[..n]; }
        }
      }
    }
  }

  // ---------- one whole migration

  datatype Directory = Absent | Foreign | Holds(bundle: Bundle)

  function BundleOf(ledger: Ledger): Bundle {
    Bundle(ManifestOf(ledger), StagedFiles(Ordered(ledger.lines)))
  }

  predicate NoFailures(ledger: Ledger) {
    forall line <- ledger.lines :: !line.record.status.Failed?
  }

  /** An existing output must be an intact bundle, and without `replace` its manifest must be the new one. */
  predicate OutputAdmits(output: Directory, replace: bool, manifest: Manifest) {
    match output
    case Absent => true
    case Foreign => false
    case Holds(b) => Consistent(b) && (replace || b.manifest == manifest)
  }

  /** Exactly when a migration succeeds. */
  predicate Succeeds(roots: seq<Root>, output: Directory, replace: bool) {
    && TallyOf(roots).Some?
    && var ledger := TallyOf(roots).value.ledger;
       && NoFailures(ledger)
       && OutputAdmits(output, replace, ManifestOf(ledger))
       && (output.Absent? || replace ==> Copyable(Ordered(ledger.lines)) && Consistent(BundleOf(ledger)))
  }

  /** What could not be laid out as a tree, or was changed before its copy, is not staged. */
  lemma StagingMeans(roots: seq<Root>, output: Directory, replace: bool)
    requires Succeeds(roots, output, replace) && (output.Absent? || replace)
    ensures var lines := Ordered(TallyOf(roots).value.ledger.lines);
      forall x, y :: x in lines && y in lines && x.record.status.Imported? && y.record.status.Imported? ==>
        && !(x.record.status.output + "/" <= y.record.status.output)
        && x.source.Regular? && x.source.stability != ChangesBeforeCopy
  {
    hide Ordered, TallyOf, Consistent, ManifestOf, NoFailures;
    var lines := Ordered(TallyOf(roots).value.ledger.lines);
    forall x | x in lines && x.record.status.Imported? ensures x.record.status.output in Outputs(RecordsOf(lines)) {
      var i :| 0 <= i < |lines| && lines[i] == x;
      assert RecordsOf(lines)[i] == x.record;
    }
  }

  lemma FailuresAreCounted(ledger: Ledger)
    ensures ManifestOf(ledger).failed == 0 <==> NoFailures(ledger)
  {
    var lines := Ordered(ledger.lines);
    SortKeepsElements((a: Line, b: Line) => Earlier(a, b), ledger.lines);
    var records := RecordsOf(lines);
    CountsAddUp(records);
    forall line | line in ledger.lines ensures line.record in records {
      assert line in multiset(lines);
      var k :| 0 <= k < |lines| && lines[k] == line;
      assert records[k] == line.record;
    }
    forall r | r in records ensures exists line :: line in ledger.lines && line.record == r {
      var k :| 0 <= k < |records| && records[k] == r;
      assert lines[k] in multiset(ledger.lines);
    }
  }

  /** A refused migration leaves the output as it was; a successful one leaves the bundle of the sources there. */
  method Migrate(roots: seq<Root>, output: Directory, replace: bool)
      returns (manifest: Option<Manifest>, after: Directory)
    ensures manifest.Some? <==> Succeeds(roots, output, replace)
    ensures manifest.None? ==> after == output
    ensures manifest.Some? ==>
      && manifest.value == ManifestOf(TallyOf(roots).value.ledger)
      && after == if output.Absent? || replace then Holds(BundleOf(TallyOf(roots).value.ledger)) else output
  {
    manifest, after := None, output;
    if output.Foreign? {
      return;
    }
    if output.Holds? {
      var intact := VerifyBundle(output.bundle);
      if !intact {
        return;
      }
    }
    var tally := TallyRoots(roots);
    if tally.None? {
      return;
    }
    var ledger := tally.value.ledger;
    var drafted := ManifestOf(ledger);
    FailuresAreCounted(ledger);
    if drafted.failed > 0 {
      return;
    }
    if output.Holds? && !replace {
      if output.bundle.manifest == drafted {
        manifest := Some(drafted);
      }
      return;
    }
    var lines := Ordered(ledger.lines);
    if !Copyable(lines) {
      return;
    }
    var files := Stage(lines);
    var staged := Bundle(drafted, files);
    var intact := VerifyBundle(staged);
    if intact {
      return Some(drafted), Holds(staged);
    }
  }

  // ---------- what a successful migration promises

  /** Two lines of an order are two lines of the list: their outputs differ if those do. */
  lemma OutputsStayDistinct(ledger: Ledger, lines: seq<Line>, i: nat, j: nat)
    requires Booked(ledger) && multiset(ledger.lines) == multiset(lines) && i < j < |lines|
    requires lines[i].record.status.Imported? && lines[j].record.status.Imported?
    ensures lines[i].record.status.output != lines[j].record.status.output
  {
    hide Faithful, SumImported;
    var p, q := ReorderedPair(ledger.lines, lines, i, j);
    var a, b := ledger.lines[p], ledger.lines[q];
    assert lines[i] in {a, b} && lines[j] in {a, b};
    assert a in {lines[i], lines[j]} && b in {lines[i], lines[j]};
  }

  /** Ordering the manifest loses nothing: outputs stay distinct and imported entries stay faithful. */
  lemma OrderKeepsBooks(ledger: Ledger)
    requires Booked(ledger)
    ensures DistinctOutputs(RecordsOf(Ordered(ledger.lines)))
    ensures forall line <- Ordered(ledger.lines) :: line.record.status.Imported? ==> Faithful(line)
  {
    hide Faithful, SumImported;
    var lines := Ordered(ledger.lines);
    SortKeepsElements((a: Line, b: Line) => Earlier(a, b), ledger.lines);
    forall line | line in lines && line.record.status.Imported? ensures Faithful(line) {
      assert line in ledger.lines;
    }
    hide Ordered, Booked;
    forall i, j | 0 <= i < j < |lines| && lines[i].record.status.Imported? && lines[j].record.status.Imported?
      ensures lines[i].record.status.output != lines[j].record.status.output
    {
      OutputsStayDistinct(ledger, lines, i, j);
    }
  }

  /** The manifest's totals: nothing failed, every entry is imported or skipped, nothing denied, bytes within limit. */
  lemma ManifestAccounts(roots: seq<Root>, output: Directory, replace: bool)
    requires Succeeds(roots, output, replace)
    ensures var ledger := TallyOf(roots).value.ledger; var m := ManifestOf(ledger);
      && m.failed == 0 && m.imported + m.skipped == |m.entries| == |ledger.lines|
      && m.bytes == SumImported(ledger.lines) <= MAX_TOTAL_BYTES
      && (forall r <- m.entries :: r.status.Imported? ==> !Denied(r.path))
      && Countable(roots) <= MAX_FILES
  {
    var ledger := TallyOf(roots).value.ledger;
    BudgetsHold(roots);
    FailuresAreCounted(ledger);
    OrderKeepsBooks(ledger);
    SortKeepsElements((a: Line, b: Line) => Earlier(a, b), ledger.lines);
    var lines, m := Ordered(ledger.lines), ManifestOf(ledger);
    CountsAddUp(m.entries);
    forall r | r in m.entries && r.status.Imported? ensures !Denied(r.path) {
      var k :| 0 <= k < |m.entries| && m.entries[k] == r;
      assert lines[k] in lines && lines[k].record == r;
    }
  }

  // ---------- running it again

  /**
    Idempotence: after a success, a second run on unchanged sources without `replace` succeeds with the same manifest
    and leaves the bundle untouched.
  */
  method MigrateTwice(roots: seq<Root>, output: Directory, replace: bool)
    returns (first: Option<Manifest>, middle: Directory, second: Option<Manifest>, last: Directory)
    ensures first.Some? <==> Succeeds(roots, output, replace)
    ensures first.Some? ==> second == first && last == middle && last.Holds? && last.bundle.manifest == first.value
  {
    first, middle := Migrate(roots, output, replace);
    second, last := Migrate(roots, middle, false);
  }
}
