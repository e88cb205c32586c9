/** Which files travel: what the denylist stops, what the allowlist lets through, and where each file is kept. */
module Portability {
  import opened Wrappers
  import opened Text
  import opened Bytes
  import opened Profile
  import opened Inventory
  import opened Migration
  import opened RoundTrip

  // ---------- the denylist

  /** `t` is `s` with its capital letters, and only these, made small. */
  predicate IsFolded(s: string, t: string) {
    |s| == |t| && forall i :: 0 <= i < |s| ==>
      if 'A' <= s[i] <= 'Z' then t[i] as int == s[i] as int + 32 else t[i] == s[i]
  }

  lemma FoldFolds(s: string, t: string)
    ensures Fold(s) == t <==> IsFolded(s, t)
  {}

  /** The file or directory name of a credential store, or one with a marker somewhere in it, in any case. */
  ghost predicate NamesAStore(part: string) {
    || (exists name :: name in DENY_NAMES && IsFolded(part, name))
    || (exists k, a, b :: 0 <= k < |DENY_PARTS| && IsFolded(part, a + DENY_PARTS[k] + b))
  }

  lemma FoldedNames(part: string, names: set<string>)
    ensures Fold(part) in names <==> exists name :: name in names && IsFolded(part, name)
  {
    hide Fold, IsFolded;
    FoldFolds(part, Fold(part));
    if name :| name in names && IsFolded(part, name) {
      FoldFolds(part, name);
    }
  }

  lemma MarkersInside(s: string, marker: string)
    ensures Contains(s, marker) <==> exists a, b :: s == a + marker + b
  {
    if i :| 0 <= i <= |s| && marker <= s[i..] {
      assert s == s[..i] + marker + s[i + |marker|..];
    }
    if a, b :| s == a + marker + b {
      assert s[|a|..] == marker + b;
    }
  }

  lemma FoldedMarkers(part: string, marker: string)
    ensures Contains(Fold(part), marker) <==> exists a, b :: IsFolded(part, a + marker + b)
  {
    hide Fold, IsFolded, Contains;
    MarkersInside(Fold(part), marker);
    if a, b :| Fold(part) == a + marker + b {
      FoldFolds(part, a + marker + b);
    }
    if a, b :| IsFolded(part, a + marker + b) {
      FoldFolds(part, a + marker + b);
    }
  }

  lemma StoresAreDenied(part: string)
    ensures DeniedPart(part) <==> NamesAStore(part)
  {
    hide Fold, IsFolded, Contains;
    FoldedNames(part, DENY_NAMES);
    forall k | 0 <= k < |DENY_PARTS|
      ensures Contains(Fold(part), DENY_PARTS[k]) <==> exists a, b :: IsFolded(part, a + DENY_PARTS[k] + b)
    {
      FoldedMarkers(part, DENY_PARTS[k]);
    }
  }

  /** One component is enough. */
  ghost predicate LeadsToAStore(path: string) {
    exists part :: part in Split(path, '/') && NamesAStore(part)
  }

  lemma DeniedExactlyIfAStore(path: string)
    ensures Denied(path) <==> LeadsToAStore(path)
  {
    hide DeniedPart, NamesAStore;
    forall part | part in Split(path, '/') ensures DeniedPart(part) <==> NamesAStore(part) {
      StoresAreDenied(part);
    }
  }

  predicate StoppedAsStore(status: Status) {
    status == Skipped(CredentialStore) || status == Skipped(CredentialName)
  }

  /** The reason is the one of the first component that names a store: a whole name goes before a marker in it. */
  lemma {:induction false} FirstStoreDecides(parts: seq<string>, i: nat)
    requires i < |parts| && NamesAStore(parts[i]) && forall j :: 0 <= j < i ==> !NamesAStore(parts[j])
    ensures Denial(parts) == Some(if exists name :: name in DENY_NAMES && IsFolded(parts[i], name)
                                  then CredentialStore else CredentialName)
    decreases i
  {
    hide DeniedPart, NamesAStore, Fold, IsFolded;
    StoresAreDenied(parts[0]);
    if i == 0 {
      FoldedNames(parts[0], DENY_NAMES);
    } else {
      assert !NamesAStore(parts[0]);
      FirstStoreDecides(parts[1..], i - 1);
      assert parts[1..][i - 1] == parts[i];
    }
  }

  /** A path to a store is never imported, whatever the budgets; any other path is never skipped for that reason. */
  lemma VerdictOnStores(seen: set<string>, total: nat, category: Option<string>, f: Found)
    ensures var status := Verdict(seen, total, category, f);
      && (LeadsToAStore(f.path) ==> status.Skipped?)
      && (StoppedAsStore(status) <==> LeadsToAStore(f.path) && !f.node.Symlink?)
  {
    hide DeniedPart, LeadsToAStore, Split;
    DeniedExactlyIfAStore(f.path);
  }

  lemma {:induction false} LinesKeepOut(ledger: Ledger, rootCategory: string, found: seq<Found>)
    requires forall line <- ledger.lines :: KeptOut(line)
    ensures forall line <- AdmitAll(ledger, rootCategory, found).lines :: KeptOut(line)
  {
    hide KeptOut, Verdict;
    if found == [] {
    } else {
      var n := |found| - 1;
      LinesKeepOut(ledger, rootCategory, found[..n]);
      var before := AdmitAll(ledger, rootCategory, found[..n]);
      var category := CategoryOf(rootCategory, found[n].path);
      BookingKeepsOut(before.seen, before.total, category, found[n]);
    }
  }

  /** What one line says about stores. */
  ghost predicate KeptOut(line: Line) {
    && (line.record.status.Imported? ==> !LeadsToAStore(line.record.path))
    && (StoppedAsStore(line.record.status) ==> LeadsToAStore(line.record.path))
  }

  lemma BookingKeepsOut(seen: set<string>, total: nat, category: Option<string>, f: Found)
    ensures KeptOut(Line(Record(Label(category), f.path, Verdict(seen, total, category, f)), f.node))
  {
    hide LeadsToAStore, Verdict;
    VerdictOnStores(seen, total, category, f);
  }

  lemma {:induction false} TallyKeepsOut(roots: seq<Root>)
    requires TallyOf(roots).Some?
    ensures forall line <- TallyOf(roots).value.ledger.lines :: KeptOut(line)
  {
    hide KeptOut, AdmitAll;
    if roots == [] {
    } else {
      var n := |roots| - 1;
      TallyKeepsOut(roots[..n]);
      var before := TallyOf(roots[..n]).value;
      match roots[n]
      case Missing(category) => SourceMissingKeepsOut(category);
      case Present(category, listing) => LinesKeepOut(before.ledger, category, Walk(listing));
    }
  }

  lemma SourceMissingKeepsOut(category: string)
    ensures KeptOut(Line(Record(category, ".", Skipped(SourceMissing)), Vanished))
  {}

  /** No entry of a manifest leads to a store, and only those that do are skipped for it. */
  lemma ManifestKeepsStoresOut(roots: seq<Root>)
    requires TallyOf(roots).Some?
    ensures forall r <- ManifestOf(TallyOf(roots).value.ledger).entries ::
      && (r.status.Imported? ==> !LeadsToAStore(r.path))
      && (StoppedAsStore(r.status) ==> LeadsToAStore(r.path))
  {
    hide LeadsToAStore, Ordered;
    var ledger := TallyOf(roots).value.ledger;
    TallyKeepsOut(roots);
    var lines := Ordered(ledger.lines);
    forall i | 0 <= i < |lines| ensures KeptOut(lines[i]) {
      assert lines[i] in multiset(ledger.lines);
    }
  }

  /** Nor does an import bring one in, whoever made the bundle. */
  lemma ImportKeepsStoresOut(b: Bundle)
    requires Consistent(b)
    ensures forall r <- b.manifest.entries :: r.status.Imported? ==> !LeadsToAStore(r.path)
  {
    hide LeadsToAStore, Denied;
    forall r | r in b.manifest.entries && r.status.Imported? ensures !LeadsToAStore(r.path) {
      DeniedExactlyIfAStore(r.path);
    }
  }

  lemma LoginDataIsAStore()
    ensures NamesAStore("Login Data")
  {
    assert IsFolded("Login Data", "login data") && "login data" in DENY_NAMES;
  }

  lemma PasswordsAreAStore()
    ensures NamesAStore("My Passwords")
  {
    assert DENY_PARTS[1] == "password";
    assert IsFolded("My Passwords", "my " + DENY_PARTS[1] + "s");
  }

  /** For example: a store deep in an extension, and a directory with a marker in its name. */
  lemma StoresForExample()
    ensures Denied("Extensions" + "/" + ("abc" + "/" + "Login Data")) && Denied("My Passwords" + "/" + "list.txt")
  {
    hide Denied, NamesAStore, Split;
    LoginDataIsAStore();
    PasswordsAreAStore();
    SplitNonempty("Login Data");
    SplitBeneath("abc", "Login Data");
    SplitBeneath("Extensions", "abc" + "/" + "Login Data");
    SplitBeneath("My Passwords", "list.txt");
    DeniedExactlyIfAStore("Extensions" + "/" + ("abc" + "/" + "Login Data"));
    DeniedExactlyIfAStore("My Passwords" + "/" + "list.txt");
  }

  // ---------- the allowlist

  const TOP_LEVEL := map[
    "Bookmarks" := "bookmarks", "Bookmarks.bak" := "bookmarks", "History" := "history", "History-journal" := "history",
    "Current Session" := "sessions", "Current Tabs" := "sessions", "Last Session" := "sessions",
    "Last Tabs" := "sessions"]

  const DIRECTORIES := map["Sessions" := "sessions", "Extensions" := "extensions"]

  lemma HeadOfPath(path: string, name: string)
    requires '/' !in name
    ensures name + "/" <= path <==> |Split(path, '/')| > 1 && Split(path, '/')[0] == name
  {
    var parts := Split(path, '/');
    JoinAfterSplit(path, '/');
    if name + "/" <= path {
      assert path == name + "/" + path[|name| + 1..];
      SplitBeneath(name, path[|name| + 1..]);
    }
    if |parts| > 1 && parts[0] == name {
      assert path == name + ['/'] + Join(parts[1..], '/');
    }
  }

  /**
    By components: a lone file name is portable exactly if it is one of eight, a longer path exactly if it starts in one
    of two directories; the table gives the category.
  */
  lemma ProfileCategories(path: string)
    ensures var parts := Split(path, '/');
      ProfileCategory(path) ==
        if |parts| == 1 && path in TOP_LEVEL then Some(TOP_LEVEL[path])
        else if |parts| > 1 && parts[0] in DIRECTORIES then Some(DIRECTORIES[parts[0]])
        else None
  {
    hide Split, Join;
    LoneName(path);
    HeadOfPath(path, "Sessions");
    HeadOfPath(path, "Extensions");
  }

  lemma LoneName(path: string)
    ensures '/' in path <==> |Split(path, '/')| > 1
  {
    var parts := Split(path, '/');
    JoinAfterSplit(path, '/');
    SplitNonempty(path);
    if |parts| > 1 {
      assert path == parts[0] + ['/'] + Join(parts[1..], '/');
      assert path[|parts[0]|] == '/';
    }
    if '/' in path && |parts| == 1 {
      var i := FirstSlash(path);
      HeadOfPath(path, path[..i]);
    }
  }

  lemma FirstSlash(path: string) returns (i: nat)
    requires '/' in path
    ensures i < |path| && '/' !in path[..i] && path[..i] + "/" <= path
  {
    i := 0;
    while path[i] != '/'
      invariant i < |path| && '/' !in path[..i] && '/' in path[i..]
      decreases |path| - i
    {
      assert path[..i + 1] == path[..i] + [path[i]] && path[i..] == [path[i]] + path[i + 1..];
      i := i + 1;
    }
    assert path[..i] + "/" == path[..i + 1];
  }

  // ---------- where a file is kept

  predicate RealNames(names: seq<string>) {
    names != [] && forall name <- names :: Profile.IsName(name)
  }

  /** In the bundle and in the guest a file keeps its components, below the directory of its category. */
  lemma FilesKeepTheirComponents(names: seq<string>, category: string, destinations: map<string, seq<string>>)
    requires RealNames(names) && category in destinations
    ensures var path := Join(names, '/');
      && Output(category, path) == "payload" + "/" + category + "/" + path
      && Destination(destinations, category, path) == destinations[category] + names
  {
    hide Join, Split;
    var path := Join(names, '/');
    assert forall i :: 0 <= i < |names| ==> names[i] in names;
    SplitAfterJoin(names, '/');
    RealNamesStay(names);
    OutputText(category, names);
  }

  lemma OutputText(category: string, names: seq<string>)
    requires names != []
    ensures Join(["payload", category] + names, '/') == "payload" + "/" + category + "/" + Join(names, '/')
  {
    var all := ["payload", category] + names;
    assert all[1..] == [category] + names && all[1..][1..] == names;
    assert Join(all[1..], '/') == category + ['/'] + Join(names, '/');
  }

  // ---------- the order of the manifest

  /** By category, and within a category by path. */
  predicate InOrder(a: Record, b: Record) {
    Less(a.category, b.category) || (a.category == b.category && (a.path == b.path || Less(a.path, b.path)))
  }

  lemma OrderIsTotal(a: Record, b: Record)
    ensures InOrder(a, b) || InOrder(b, a)
    ensures InOrder(a, b) && InOrder(b, a) ==> a.category == b.category && a.path == b.path
  {
    LessIsTotal(a.category, b.category);
    LessIsTotal(a.path, b.path);
  }

  lemma OrderIsTransitive(a: Record, b: Record, c: Record)
    requires InOrder(a, b) && InOrder(b, c)
    ensures InOrder(a, c)
  {
    if Less(a.category, b.category) && Less(b.category, c.category) {
      LessIsTransitive(a.category, b.category, c.category);
    }
    if Less(a.path, b.path) && Less(b.path, c.path) {
      LessIsTransitive(a.path, b.path, c.path);
    }
  }

  lemma EarlierIsStrict(a: Line, b: Line)
    ensures Earlier(a, b) <==> !InOrder(b.record, a.record)
  {
    LessIsTotal(a.record.category, b.record.category);
    LessIsTotal(a.record.path, b.record.path);
  }

  predicate AllInOrder(lines: seq<Line>) {
    forall i, j :: 0 <= i < j < |lines| ==> InOrder(lines[i].record, lines[j].record)
  }

  /** The lines of one category and path, in the order in which they stand. */
  function LinesOf(lines: seq<Line>, category: string, path: string): seq<Line> {
    if lines == [] then [] else Picked(lines[0], category, path) + LinesOf(lines[1..], category, path)
  }

  function Picked(line: Line, category: string, path: string): seq<Line> {
    if (line.record.category, line.record.path) == (category, path) then [line] else []
  }

  lemma LinesFromFront(first: Line, rest: seq<Line>, category: string, path: string)
    ensures LinesOf([first] + rest, category, path) == Picked(first, category, path) + LinesOf(rest, category, path)
    ensures LinesOf([], category, path) == []
  {
    assert ([first] + rest)[1..] == rest;
  }

  lemma {:induction false} InsertKeepsOrder(line: Line, sorted: seq<Line>)
    requires AllInOrder(sorted)
    ensures AllInOrder(Insert((a: Line, b: Line) => Earlier(a, b), line, sorted))
  {
    hide Earlier, InOrder;
    var less := (a: Line, b: Line) => Earlier(a, b);
    if sorted == [] {
    } else if less(line, sorted[0]) {
      EarlierIsStrict(line, sorted[0]);
      OrderIsTotal(line.record, sorted[0].record);
      forall k | 0 <= k < |sorted| ensures InOrder(line.record, sorted[k].record) {
        if k > 0 {
          OrderIsTransitive(line.record, sorted[0].record, sorted[k].record);
        }
      }
    } else {
      EarlierIsStrict(line, sorted[0]);
      var rest := Insert(less, line, sorted[1..]);
      InsertKeepsOrder(line, sorted[1..]);
      forall k | 0 <= k < |rest| ensures InOrder(sorted[0].record, rest[k].record) {
        assert rest[k] in multiset(rest);
        if rest[k] != line {
          assert rest[k] in multiset(sorted[1..]);
          var m :| 0 <= m < |sorted[1..]| && sorted[1..][m] == rest[k];
          assert sorted[m + 1] == rest[k];
        }
      }
    }
  }

  lemma {:induction false} InsertComesLast(line: Line, sorted: seq<Line>, category: string, path: string)
    requires AllInOrder(sorted)
    ensures LinesOf(Insert((a: Line, b: Line) => Earlier(a, b), line, sorted), category, path) ==
      LinesOf(sorted, category, path) + Picked(line, category, path)
    decreases |sorted|
  {
    hide Earlier, InOrder, LinesOf, Picked;
    var less := (a: Line, b: Line) => Earlier(a, b);
    LinesFromFront(line, sorted, category, path);
    if sorted == [] {
      assert [line] + sorted == [line];
    } else {
      var rest := sorted[1..];
      assert sorted == [sorted[0]] + rest;
      LinesFromFront(sorted[0], rest, category, path);
      if less(line, sorted[0]) {
        EarlierIsStrict(line, sorted[0]);
        NoneLater(line, sorted, category, path);
      } else {
        InsertComesLast(line, rest, category, path);
        LinesFromFront(sorted[0], Insert(less, line, rest), category, path);
      }
    }
  }

  lemma {:induction false} NoneLater(line: Line, sorted: seq<Line>, category: string, path: string)
    requires AllInOrder(sorted) && (sorted != [] ==> !InOrder(sorted[0].record, line.record))
    ensures Picked(line, category, path) == [] || LinesOf(sorted, category, path) == []
  {
    if sorted == [] {
    } else {
      if |sorted| > 1 && InOrder(sorted[1].record, line.record) {
        OrderIsTransitive(sorted[0].record, sorted[1].record, line.record);
      }
      NoneLater(line, sorted[1..], category, path);
    }
  }

  lemma {:induction false} LinesOfLast(lines: seq<Line>, line: Line, category: string, path: string)
    ensures LinesOf(lines + [line], category, path) == LinesOf(lines, category, path) + Picked(line, category, path)
  {
    hide LinesOf, Picked;
    if lines == [] {
      assert lines + [line] == [line] + [];
      LinesFromFront(line, [], category, path);
    } else {
      var rest := lines[1..];
      LinesOfLast(rest, line, category, path);
      assert lines + [line] == [lines[0]] + (rest + [line]) && lines == [lines[0]] + rest;
      LinesFromFront(lines[0], rest + [line], category, path);
      LinesFromFront(lines[0], rest, category, path);
    }
  }

  lemma {:induction false} OrderedIsSorted(lines: seq<Line>, category: string, path: string)
    ensures AllInOrder(Ordered(lines))
    ensures LinesOf(Ordered(lines), category, path) == LinesOf(lines, category, path)
  {
    hide Earlier, InOrder, AllInOrder, LinesOf, Picked, Ordered, Insert;
    if lines == [] {
      NothingInOrder();
    } else {
      var front, last := lines[..|lines| - 1], lines[|lines| - 1];
      OrderedIsSorted(front, category, path);
      OneMoreOrdered(front, last);
      InsertKeepsOrder(last, Ordered(front));
      InsertComesLast(last, Ordered(front), category, path);
      LinesOfLast(front, last, category, path);
      assert lines == front + [last];
    }
  }

  lemma OneMoreOrdered(front: seq<Line>, last: Line)
    ensures Ordered(front + [last]) == Insert((a: Line, b: Line) => Earlier(a, b), last, Ordered(front))
  {
    hide Insert, Earlier;
    assert (front + [last])[..|front|] == front;
  }

  lemma NothingInOrder()
    ensures Ordered([]) == [] && AllInOrder([])
  {}

  /**
    The manifest lists its entries by category and path; entries that agree in both keep the order of the inventory.
  */
  lemma ManifestIsSorted(ledger: Ledger, category: string, path: string)
    ensures var entries := ManifestOf(ledger).entries;
      forall i, j :: 0 <= i < j < |entries| ==> InOrder(entries[i], entries[j])
    ensures LinesOf(Ordered(ledger.lines), category, path) == LinesOf(ledger.lines, category, path)
  {
    hide Ordered;
    OrderedIsSorted(ledger.lines, category, path);
  }
}
