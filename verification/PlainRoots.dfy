/** A migration of ordinary files succeeds: nothing but what the inventory names can stop it. */
module PlainRoots {
  import opened Wrappers
  import opened Text
  import opened Bytes
  import opened Profile
  import opened Inventory
  import opened Migration
  import opened RoundTrip
  import Publish

  // ---------- outputs tell files apart

  lemma {:induction false} SplitAtSlash(p: string, rest: string)
    ensures Split(p + "/" + rest, '/') == Split(p, '/') + Split(rest, '/')
  {
    var whole := p + "/" + rest;
    if p == "" {
      assert whole[1..] == rest;
    } else {
      assert whole[1..] == p[1..] + "/" + rest && whole[0] == p[0];
      SplitAtSlash(p[1..], rest);
    }
  }

  lemma OutputSplits(category: string, path: string)
    requires category in CATEGORIES && PosixParts(path) == Split(path, '/')
    requires forall part <- Split(path, '/') :: Profile.IsName(part)
    ensures Split(Output(category, path), '/') == ["payload", category] + Split(path, '/')
  {
    hide Split, Join;
    var parts := OutputParts(category, path);
    forall i | 0 <= i < |parts| ensures '/' !in parts[i] {
      if i >= 2 {
        assert parts[i] in Split(path, '/');
      }
    }
    SplitAfterJoin(parts, '/');
  }

  // ---------- plain sources

  /** An entry that is skipped, or a file the inventory has nothing against. */
  predicate Plain(root: Root, f: Found)
    requires root.Present?
  {
    || f.node.Symlink? || Denied(f.path) || CategoryOf(root.category, f.path).None?
    || (f.node.Regular? && f.node.links == 1 && |f.node.data| <= MAX_FILE_BYTES && f.node.stability.Steady?)
  }

  function SizeOf(found: seq<Found>): nat {
    if found == [] then 0
    else
      var last := found[|found| - 1].node;
      SizeOf(found[..|found| - 1]) + if last.Regular? then |last.data| else 0
  }

  function TotalSize(roots: seq<Root>): nat {
    if roots == [] then 0
    else
      var last := roots[|roots| - 1];
      TotalSize(roots[..|roots| - 1]) + if last.Present? then SizeOf(Walk(last.listing)) else 0
  }

  function TotalEntries(roots: seq<Root>): nat {
    if roots == [] then 0
    else
      var last := roots[|roots| - 1];
      TotalEntries(roots[..|roots| - 1]) + if last.Present? then |Walk(last.listing)| else 0
  }

  /** Missing roots, and roots with plain entries in directories that can be listed. */
  predicate PlainSources(roots: seq<Root>) {
    forall k :: 0 <= k < |roots| ==>
      && !roots[k].Unusable?
      && (roots[k].Present? ==>
           !Unlisted(Walk(roots[k].listing)) && forall f <- Walk(roots[k].listing) :: Plain(roots[k], f))
  }

  // ---------- the ledger of a plain inventory

  /** Nothing has failed, and every claimed output stands in an imported line. */
  predicate Smooth(ledger: Ledger) {
    && NoFailures(ledger)
    && forall o <- ledger.seen :: exists line :: line in ledger.lines && Holds(line, o)
  }

  predicate Holds(line: Line, output: string) {
    line.record.status.Imported? && line.record.status.output == output
  }

  /** Roots of a command have no category in common. */
  lemma CategoriesAreApart(a: Root, f: Found, b: Root, h: Found)
    requires Portable(a, f) && Portable(b, h) && a.category != b.category
    requires a.category in {"profile", "downloads", "policies"} && b.category in {"profile", "downloads", "policies"}
    ensures PortableCategory(a, f) != PortableCategory(b, h)
  {}

  /** One more plain entry is never refused: its output cannot have been claimed. */
  lemma PlainEntryIsAdmitted(ledger: Ledger, root: Root, f: Found)
    requires root.Present? && Plain(root, f) && f in Walk(root.listing) && !f.node.Locked?
    requires Smooth(ledger) && Booked(ledger)
    requires ledger.total + (if f.node.Regular? then |f.node.data| else 0) <= MAX_TOTAL_BYTES
    requires Portable(root, f) ==> Output(PortableCategory(root, f), f.path) !in ledger.seen
    ensures var after := Admit(ledger, root.category, f);
      && Smooth(after)
      && after.total <= ledger.total + if f.node.Regular? then |f.node.data| else 0
  {
    hide Denied, Output, CategoryOf, Booked, Walk;
    var after := Admit(ledger, root.category, f);
    var n := |ledger.lines|;
    assert after.lines[..n] == ledger.lines && after.lines[n] in after.lines;
    forall line | line in after.lines ensures !line.record.status.Failed? { }
    forall o | o in after.seen ensures exists line :: line in after.lines && Holds(line, o) {
      if o in ledger.seen {
        var line :| line in ledger.lines && Holds(line, o);
        assert line in after.lines;
      } else {
        assert Holds(after.lines[n], o);
      }
    }
  }

  /** The imported lines of a ledger stand for portable files, of earlier roots or of the entries booked so far. */
  ghost predicate Stands(line: Line, earlier: seq<Root>, root: Root, found: seq<Found>) {
    Sourced(line, earlier) || exists f :: f in found && LineOf(line, root, f)
  }

  lemma OutputIsFree(ledger: Ledger, roots: seq<Root>, n: nat, found: seq<Found>, f: Found)
    requires CleanRoots(roots) && CommandRoots(roots) && n < |roots| && roots[n].Present?
    requires Smooth(ledger) && Booked(ledger) && Portable(roots[n], f)
    requires forall line <- ledger.lines :: line.record.status.Imported? ==> Stands(line, roots[..n], roots[n], found)
    requires forall h <- found :: h in Walk(roots[n].listing) && h.path != f.path
    ensures Output(PortableCategory(roots[n], f), f.path) !in ledger.seen
  {
    hide Denied, CategoryOf, Walk, Split, Output, PosixParts, Portable, PortableCategory, WellFormed;
    var o := Output(PortableCategory(roots[n], f), f.path);
    if o in ledger.seen {
      var line :| line in ledger.lines && Holds(line, o);
      FaithfulOutput(ledger, line);
      if h :| h in found && LineOf(line, roots[n], h) {
        OutputTellsApart(roots[n], h, roots[n], f);
      } else {
        var k, h :| 0 <= k < |roots[..n]| && LineOf(line, roots[..n][k], h);
        assert roots[..n][k] == roots[k];
        PortableIsPresent(roots[k], h);
        OutputTellsApart(roots[k], h, roots[n], f);
        CategoriesAreApart(roots[k], h, roots[n], f);
      }
    }
  }

  lemma PortableIsPresent(root: Root, f: Found)
    requires Portable(root, f)
    ensures root.Present?
  {}

  lemma FaithfulOutput(ledger: Ledger, line: Line)
    requires Booked(ledger) && line in ledger.lines && line.record.status.Imported?
    ensures line.record.status.output == Output(line.record.category, line.record.path)
  {
    var m :| 0 <= m < |ledger.lines| && ledger.lines[m] == line;
    assert Faithful(ledger.lines[m]);
  }

  lemma OutputTellsApart(a: Root, f: Found, b: Root, h: Found)
    requires Portable(a, f) && WellFormed(a.listing) && KnownCategory(a.category)
    requires Portable(b, h) && WellFormed(b.listing) && KnownCategory(b.category)
    ensures Output(PortableCategory(a, f), f.path) == Output(PortableCategory(b, h), h.path) ==>
      PortableCategory(a, f) == PortableCategory(b, h) && f.path == h.path
  {
    hide Split, Join, Output, Portable, PortableCategory;
    OutputOfPortable(a, f);
    OutputOfPortable(b, h);
    var p, q := Split(f.path, '/'), Split(h.path, '/');
    var s, t := ["payload", PortableCategory(a, f)] + p, ["payload", PortableCategory(b, h)] + q;
    assert s[1] == PortableCategory(a, f) && t[1] == PortableCategory(b, h) && s[2..] == p && t[2..] == q;
  }

  lemma OutputOfPortable(root: Root, f: Found)
    requires Portable(root, f) && WellFormed(root.listing) && KnownCategory(root.category)
    ensures Split(Output(PortableCategory(root, f), f.path), '/')
         == ["payload", PortableCategory(root, f)] + Split(f.path, '/')
    ensures Join(Split(f.path, '/'), '/') == f.path
  {
    hide Split, Join, Output, PosixParts, Denied;
    PortablePathIsClean(root, f);
    WalkedPathsAreSafe(root.listing);
    OutputSplits(PortableCategory(root, f), f.path);
    JoinAfterSplit(f.path, '/');
  }

  // ---------- one root, and all of them

  /** What is true of the ledger after the first i entries of root n. */
  ghost predicate SmoothSoFar(ledger: Ledger, roots: seq<Root>, n: nat, i: nat)
    requires n < |roots| && roots[n].Present? && i <= |Walk(roots[n].listing)|
  {
    && Smooth(ledger) && Booked(ledger)
    && forall line <- ledger.lines :: line.record.status.Imported? ==>
         Stands(line, roots[..n], roots[n], Walk(roots[n].listing)[..i])
  }

  lemma NewLineStands(ledger: Ledger, roots: seq<Root>, n: nat, i: nat)
    requires n < |roots| && roots[n].Present? && i < |Walk(roots[n].listing)| && SmoothSoFar(ledger, roots, n, i)
    ensures var found := Walk(roots[n].listing);
      forall line <- Admit(ledger, roots[n].category, found[i]).lines :: line.record.status.Imported? ==>
        Stands(line, roots[..n], roots[n], found[..i + 1])
  {
    hide Denied, CategoryOf, Walk, Booked, Output, Smooth;
    var found := Walk(roots[n].listing);
    var after := Admit(ledger, roots[n].category, found[i]);
    assert found[..i + 1] == found[..i] + [found[i]];
    forall line | line in after.lines && line.record.status.Imported?
      ensures Stands(line, roots[..n], roots[n], found[..i + 1])
    {
      if line in ledger.lines {
        if h :| h in found[..i] && LineOf(line, roots[n], h) {
          assert h in found[..i + 1];
        }
      } else {
        assert found[i] in found && LineOf(line, roots[n], found[i]);
      }
    }
  }

  lemma {:induction false} PlainRootIsAdmitted(ledger: Ledger, roots: seq<Root>, n: nat, i: nat)
    requires CleanRoots(roots) && CommandRoots(roots) && PlainSources(roots) && n < |roots| && roots[n].Present?
    requires i <= |Walk(roots[n].listing)| && SmoothSoFar(ledger, roots, n, 0)
    requires ledger.total + SizeOf(Walk(roots[n].listing)[..i]) <= MAX_TOTAL_BYTES
    ensures var after := AdmitAll(ledger, roots[n].category, Walk(roots[n].listing)[..i]);
      && SmoothSoFar(after, roots, n, i)
      && after.total <= ledger.total + SizeOf(Walk(roots[n].listing)[..i])
  {
    hide Denied, CategoryOf, Walk, Booked, Output, Smooth, Portable, Plain, CleanRoots, CommandRoots, Stands, Admit;
    var root, found := roots[n], Walk(roots[n].listing);
    if i == 0 {
    } else {
      assert found[..i][..i - 1] == found[..i - 1] && found[i - 1] in found;
      PlainRootIsAdmitted(ledger, roots, n, i - 1);
      var before := AdmitAll(ledger, root.category, found[..i - 1]);
      if Portable(root, found[i - 1]) {
        EntriesTellApart(roots, n, i - 1);
        OutputIsFree(before, roots, n, found[..i - 1], found[i - 1]);
      }
      NothingIsLocked(found, i - 1);
      PlainEntryIsAdmitted(before, root, found[i - 1]);
      AdmitKeepsBooks(before, root.category, found[i - 1]);
      NewLineStands(before, roots, n, i - 1);
    }
  }

  lemma NothingIsLocked(found: seq<Found>, i: nat)
    requires !Unlisted(found) && i < |found|
    ensures !found[i].node.Locked?
  {}

  lemma EntriesTellApart(roots: seq<Root>, n: nat, i: nat)
    requires CleanRoots(roots) && n < |roots| && roots[n].Present? && i < |Walk(roots[n].listing)|
    ensures var found := Walk(roots[n].listing);
      forall h <- found[..i] :: h in found && h.path != found[i].path
  {
    hide Walk, Split;
    WalkedPathsAreUnrelated(roots[n].listing);
  }

  /** Every plain command inventory within the budgets is taken to its end, and nothing in it fails. */
  lemma {:induction false} PlainRootsAreTallied(roots: seq<Root>)
    requires CleanRoots(roots) && CommandRoots(roots) && PlainSources(roots)
    requires TotalSize(roots) <= MAX_TOTAL_BYTES && TotalEntries(roots) <= MAX_FILES
    ensures TallyOf(roots).Some?
    ensures var t := TallyOf(roots).value;
      Smooth(t.ledger) && t.ledger.total <= TotalSize(roots) && t.entries == TotalEntries(roots)
  {
    hide Denied, CategoryOf, Walk, Booked, Output, Smooth, Portable, Plain, Stands, AdmitAll, WellFormed;
    if roots == [] {
      NothingIsSmooth();
    } else {
      var n := |roots| - 1;
      PlainRootsAreTallied(roots[..n]);
      var t := TallyOf(roots[..n]).value;
      match roots[n]
      case Missing(category) => MissingRootIsSmooth(t.ledger, category);
      case Present(category, listing) => {
        BudgetsHold(roots[..n]);
        EarlierLinesStand(roots, n);
        var found := Walk(listing);
        assert found[..|found|] == found;
        PlainRootIsAdmitted(t.ledger, roots, n, |found|);
        NonLinksGrow(found, 0);
      }
    }
  }

  lemma NothingIsSmooth()
    ensures Smooth(Ledger([], {}, 0))
  {}

  lemma MissingRootIsSmooth(ledger: Ledger, category: string)
    requires Smooth(ledger)
    ensures var line := Line(Record(category, ".", Skipped(SourceMissing)), Vanished);
      Smooth(ledger.(lines := ledger.lines + [line]))
  {}

  lemma EarlierLinesStand(roots: seq<Root>, n: nat)
    requires n < |roots| && roots[n].Present? && TallyOf(roots[..n]).Some?
    requires Smooth(TallyOf(roots[..n]).value.ledger) && Booked(TallyOf(roots[..n]).value.ledger)
    ensures SmoothSoFar(TallyOf(roots[..n]).value.ledger, roots, n, 0)
  {
    hide Booked, Smooth, Walk, TallyOf, Sourced;
    var ledger := TallyOf(roots[..n]).value.ledger;
    forall line | line in ledger.lines && line.record.status.Imported?
      ensures Stands(line, roots[..n], roots[n], Walk(roots[n].listing)[..0])
    {
      var m :| 0 <= m < |ledger.lines| && ledger.lines[m] == line;
      ExportedIsPortable(roots[..n], m);
    }
  }

  // ---------- staging

  lemma OutputsNest(a: Root, f: Found, b: Root, h: Found)
    requires Portable(a, f) && WellFormed(a.listing) && KnownCategory(a.category)
    requires Portable(b, h) && WellFormed(b.listing) && KnownCategory(b.category)
    requires Output(PortableCategory(a, f), f.path) + "/" <= Output(PortableCategory(b, h), h.path)
    ensures PortableCategory(a, f) == PortableCategory(b, h)
    ensures f.path != h.path && Split(f.path, '/') <= Split(h.path, '/')
  {
    hide Split, Join, Output, Portable, PortableCategory;
    var p, q := Output(PortableCategory(a, f), f.path), Output(PortableCategory(b, h), h.path);
    OutputOfPortable(a, f);
    OutputOfPortable(b, h);
    var rest := q[|p| + 1..];
    assert q == p + "/" + rest;
    SplitAtSlash(p, rest);
    var x, y, z := Split(f.path, '/'), Split(h.path, '/'), Split(rest, '/');
    var s, t := ["payload", PortableCategory(a, f)] + x, ["payload", PortableCategory(b, h)] + y;
    assert t == s + z && t[1] == s[1] && t[2..] == x + z;
  }

  lemma PortableOutputsAreFlat(roots: seq<Root>, k: nat, f: Found, l: nat, h: Found)
    requires CleanRoots(roots) && CommandRoots(roots) && k < |roots| && l < |roots|
    requires Portable(roots[k], f) && Portable(roots[l], h)
    ensures !(Output(PortableCategory(roots[k], f), f.path) + "/" <= Output(PortableCategory(roots[l], h), h.path))
  {
    hide Split, Output, PortableCategory, CategoryOf, Denied;
    if Output(PortableCategory(roots[k], f), f.path) + "/" <= Output(PortableCategory(roots[l], h), h.path) {
      OutputsNest(roots[k], f, roots[l], h);
      if k == l {
        WalkedPathsAreUnrelated(roots[k].listing);
      } else {
        CategoriesAreApart(roots[k], f, roots[l], h);
      }
    }
  }

  lemma PlainLinesCanBeCopied(roots: seq<Root>)
    requires CleanRoots(roots) && CommandRoots(roots) && PlainSources(roots) && TallyOf(roots).Some?
    ensures Copyable(Ordered(TallyOf(roots).value.ledger.lines))
  {
    hide Ordered, Output, TallyOf, Plain, Denied, CategoryOf, Walk, PosixParts;
    LinesAreStaged(roots);
    var ledger := TallyOf(roots).value.ledger;
    var lines := Ordered(ledger.lines);
    forall line | line in lines && line.record.status.Imported?
      ensures line.source.Regular? && line.source.stability.Steady?
    {
      var k, f := SourceOfLine(roots, line);
      PortableAndPlainIsSteady(roots[k], f);
    }
    forall p, q | p in Outputs(RecordsOf(lines)) && q in Outputs(RecordsOf(lines)) ensures !(p + "/" <= q) {
      var x := LineOfOutput(lines, p);
      var y := LineOfOutput(lines, q);
      var k, f := SourceOfLine(roots, x);
      var l, h := SourceOfLine(roots, y);
      PortableOutputsAreFlat(roots, k, f, l, h);
    }
  }

  lemma LineOfOutput(lines: seq<Line>, o: string) returns (line: Line)
    requires o in Outputs(RecordsOf(lines))
    ensures line in lines && Holds(line, o)
  {
    var r :| r in RecordsOf(lines) && r.status.Imported? && r.status.output == o;
    var i :| 0 <= i < |lines| && RecordsOf(lines)[i] == r;
    line := lines[i];
  }

  lemma SourceOfLine(roots: seq<Root>, line: Line) returns (k: nat, f: Found)
    requires TallyOf(roots).Some? && line in Ordered(TallyOf(roots).value.ledger.lines)
    requires line.record.status.Imported?
    ensures k < |roots| && LineOf(line, roots[k], f) && Faithful(line)
    ensures line.record.status.output == Output(PortableCategory(roots[k], f), f.path)
  {
    hide Ordered, Output, TallyOf, Denied, CategoryOf, Walk, Portable, PortableCategory;
    LinesAreStaged(roots);
    var ledger := TallyOf(roots).value.ledger;
    assert line in ledger.lines;
    var m :| 0 <= m < |ledger.lines| && ledger.lines[m] == line;
    ExportedIsPortable(roots, m);
    k, f :| 0 <= k < |roots| && LineOf(line, roots[k], f);
  }

  lemma PortableAndPlainIsSteady(root: Root, f: Found)
    requires Portable(root, f) && Plain(root, f)
    ensures f.node.Regular? && f.node.stability.Steady?
  {
    hide Denied, CategoryOf, Walk;
  }

  /**
    Ordinary files migrate: whatever plain files, links, denied and unsupported entries the roots of a command hold, in
    whatever directories, within the budgets the migration into a free place succeeds.
  */
  lemma PlainRootsMigrate(roots: seq<Root>, replace: bool)
    requires CleanRoots(roots) && CommandRoots(roots) && PlainSources(roots)
    requires TotalSize(roots) <= MAX_TOTAL_BYTES && TotalEntries(roots) <= MAX_FILES
    ensures Succeeds(roots, Absent, replace)
  {
    hide Copyable, Consistent, TallyOf, CleanRoots, CommandRoots, PlainSources, Ordered, BundleOf;
    PlainRootsAreTallied(roots);
    PlainLinesCanBeCopied(roots);
    StagedBundleIsConsistent(roots);
  }

  /** And so does the whole command, if its paths are admitted, its directories can be made and nobody interferes. */
  lemma PlainCommandSucceeds(roots: seq<Root>, place: Publish.Place, replace: bool, inode: nat)
    requires CleanRoots(roots) && CommandRoots(roots) && PlainSources(roots)
    requires TotalSize(roots) <= MAX_TOTAL_BYTES && TotalEntries(roots) <= MAX_FILES
    requires Publish.Placement.Admitted(place.tree, place.roots, place.output) && place.parentMade && place.stagingMade
    ensures Publish.Migrates(None, roots, place, replace, inode, Publish.CALM)
  {
    hide Succeeds, CleanRoots, CommandRoots, PlainSources, Publish.Placement.Admitted;
    PlainRootsMigrate(roots, replace);
    Publish.CalmMigrationSucceeds(None, roots, place, replace, inode);
  }
}
