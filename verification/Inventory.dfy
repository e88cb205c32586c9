/** The migrator's inventory: one record per source entry, under file, byte and entry budgets over all roots. */
module Inventory {
  import opened Wrappers
  import opened Text
  import opened Bytes
  import opened Profile

  const MAX_FILE_BYTES := 128 * 1024 * 1024
  const MAX_TOTAL_BYTES := 512 * 1024 * 1024
  const MAX_FILES := 10000

  datatype Reason =
    | SourceMissing | SymlinkRejected | CredentialStore | CredentialName | UnsupportedEntry | StatFailed | NotRegular
    | HardlinkRejected | FileTooLarge | BundleTooLarge | DestinationCollision | SourceReadFailed | SourceChanged

  datatype Status =
    | Imported(bytes: nat, digest: Digest, output: string)
    | Skipped(reason: Reason)
    | Failed(why: Reason)

  /** One manifest entry. */
  datatype Record = Record(category: string, path: string, status: Status)

  datatype Line = Line(record: Record, source: Tree)

  /** The loop's variables: entries so far, claimed outputs and imported bytes. */
  datatype Ledger = Ledger(lines: seq<Line>, seen: set<string>, total: nat)

  function Output(category: string, path: string): string {
    Join(OutputParts(category, path), '/')
  }

  /** Why a path is denied: the first component that is stopped says so, by its whole name or by a marker in it. */
  function Denial(parts: seq<string>): (reason: Option<Reason>)
    ensures reason.Some? <==> exists part :: part in parts && DeniedPart(part)
    ensures reason.Some? ==> reason.value in {CredentialStore, CredentialName}
  {
    if parts == [] then None
    else if DeniedPart(parts[0]) then
      assert parts[0] in parts;
      Some(if Fold(parts[0]) in DENY_NAMES then CredentialStore else CredentialName)
    else
      assert parts == [parts[0]] + parts[1..];
      Denial(parts[1..])
  }

  /** The verdict on one entry, given the outputs and bytes already taken. */
  function Verdict(seen: set<string>, total: nat, category: Option<string>, f: Found): Status {
    if f.node.Symlink? then Skipped(SymlinkRejected)
    else if Denied(f.path) then Skipped(Denial(Split(f.path, '/')).value)
    else if category.None? then Skipped(UnsupportedEntry)
    else if f.node.Vanished? then Failed(StatFailed)
    else if !f.node.Regular? then Failed(NotRegular)
    else if f.node.links != 1 then Failed(HardlinkRejected)
    else if |f.node.data| > MAX_FILE_BYTES then Failed(FileTooLarge)
    else if total + |f.node.data| > MAX_TOTAL_BYTES then Failed(BundleTooLarge)
    else if Output(category.value, f.path) in seen then Failed(DestinationCollision)
    else if f.node.stability.Unreadable? then Failed(SourceReadFailed)
    else if f.node.stability.ChangesDuringRead? then Failed(SourceChanged)
    else Imported(|f.node.data|, Sha256(f.node.data), Output(category.value, f.path))
  }

  /** An output is claimed before the file is read, so a failed read keeps it claimed. */
  predicate Claims(status: Status) {
    status.Imported? || (status.Failed? && status.why in {SourceReadFailed, SourceChanged})
  }

  function Label(category: Option<string>): string {
    if category.Some? then category.value else "profile"
  }

  function Admit(ledger: Ledger, rootCategory: string, f: Found): Ledger {
    var category := CategoryOf(rootCategory, f.path);
    var status := Verdict(ledger.seen, ledger.total, category, f);
    Ledger(ledger.lines + [Line(Record(Label(category), f.path, status), f.node)],
           if Claims(status) then ledger.seen + {Output(Label(category), f.path)} else ledger.seen,
           ledger.total + if status.Imported? then status.bytes else 0)
  }

  function AdmitAll(ledger: Ledger, rootCategory: string, found: seq<Found>): Ledger {
    if found == [] then ledger
    else Admit(AdmitAll(ledger, rootCategory, found[..|found| - 1]), rootCategory, found[|found| - 1])
  }

  function NonLinks(found: seq<Found>): nat {
    if found == [] then 0
    else NonLinks(found[..|found| - 1]) + if found[|found| - 1].node.Symlink? then 0 else 1
  }

  /** `entries` counts every entry met, links included; only that count limits the roots still to come. */
  datatype Tally = Tally(ledger: Ledger, entries: nat)

  predicate Unlisted(found: seq<Found>) {
    exists i :: 0 <= i < |found| && found[i].node.Locked?
  }

  /**
    One root; `None` is the refusal of a root or directory that cannot be walked, or of too many files, which a root
    without countable entries never gives.
  */
  function Tallied(t: Tally, root: Root): Option<Tally> {
    match root
    case Missing(category) =>
      Some(t.(ledger := t.ledger.(
        lines := t.ledger.lines + [Line(Record(category, ".", Skipped(SourceMissing)), Vanished)])))
    case Unusable(_) => None
    case Present(category, listing) =>
      var found := Walk(listing);
      if Unlisted(found) then None
      else if NonLinks(found) > 0 && NonLinks(found) > MAX_FILES - t.entries then None
      else Some(Tally(AdmitAll(t.ledger, category, found), t.entries + |found|))
  }

  const EMPTY := Tally(Ledger([], {}, 0), 0)

  function TallyOf(roots: seq<Root>): Option<Tally> {
    if roots == [] then Some(EMPTY)
    else
      var before := TallyOf(roots[..|roots| - 1]);
      if before.None? then None else Tallied(before.value, roots[|roots| - 1])
  }

  // ---------- the loops

  lemma {:induction false} NonLinksGrow(found: seq<Found>, i: nat)
    requires i <= |found|
    ensures NonLinks(found[..i]) <= NonLinks(found) && NonLinks(found) <= |found|
    decreases |found| - i, |found|
  {
    if i == |found| {
      assert found[..i] == found;
      if found != [] {
        NonLinksGrow(found[..|found| - 1], |found| - 1);
      }
    } else {
      NonLinksGrow(found, i + 1);
      assert found[..i + 1][..i] == found[..i];
    }
  }

  lemma BookOneMore(ledger: Ledger, category: string, found: seq<Found>, i: nat)
    requires i < |found|
    ensures AdmitAll(ledger, category, found[..i + 1]) ==
      Admit(AdmitAll(ledger, category, found[..i]), category, found[i])
    ensures NonLinks(found[..i + 1]) == NonLinks(found[..i]) + if found[i].node.Symlink? then 0 else 1
  {
    assert found[..i + 1][..i] == found[..i];
  }

  lemma NothingBooked(ledger: Ledger, category: string, found: seq<Found>)
    ensures AdmitAll(ledger, category, found[..0]) == ledger && NonLinks(found[..0]) == 0
  {}

  /** One root's loop: the generator counts and may stop it, the body books each entry. */
  method TallyRoot(t: Tally, category: string, listing: Listing) returns (out: Option<Tally>)
    ensures out == Tallied(t, Present(category, listing))
  {
    hide AdmitAll, Admit, NonLinks, Walk;
    var remaining := MAX_FILES - t.entries;
    var found := Walk(listing);
    NothingBooked(t.ledger, category, found);
    var ledger, entries, yielded := t.ledger, t.entries, 0;
    for i := 0 to |found|
      invariant forall k :: 0 <= k < i ==> !found[k].node.Locked?
      invariant yielded == NonLinks(found[..i])
      invariant yielded == 0 || yielded <= remaining
      invariant entries == t.entries + i
      invariant ledger == AdmitAll(t.ledger, category, found[..i])
    {
      BookOneMore(t.ledger, category, found, i);
      if found[i].node.Locked? {
        return None;
      }
      if !found[i].node.Symlink? {
        yielded := yielded + 1;
        if yielded > remaining {
          NonLinksGrow(found, i + 1);
          return None;
        }
      }
      entries := entries + 1;
      ledger := Admit(ledger, category, found[i]);
    }
    WholePrefix(found);
    return Some(Tally(ledger, entries));
  }

  method TallyRoots(roots: seq<Root>) returns (out: Option<Tally>)
    ensures out == TallyOf(roots)
  {
    var t := EMPTY;
    for i := 0 to |roots|
      invariant TallyOf(roots[..i]) == Some(t)
    {
      assert roots[..i + 1][..i] == roots[..i];
      match roots[i]
      case Missing(_) =>
        t := Tallied(t, roots[i]).value;
      case Unusable(_) =>
        PrefixRefused(roots, i + 1);
        return None;
      case Present(category, listing) =>
        var next := TallyRoot(t, category, listing);
        if next.None? {
          PrefixRefused(roots, i + 1);
          return None;
        }
        t := next.value;
    }
    assert roots[..|roots|] == roots;
    return Some(t);
  }

  lemma {:induction false} PrefixRefused(roots: seq<Root>, i: nat)
    requires i <= |roots| && TallyOf(roots[..i]).None?
    ensures TallyOf(roots).None?
    decreases |roots| - i
  {
    if i == |roots| {
      assert roots[..i] == roots;
    } else {
      assert roots[..i + 1][..i] == roots[..i];
      PrefixRefused(roots, i + 1);
    }
  }

  // ---------- budgets

  function SumImported(lines: seq<Line>): nat {
    if lines == [] then 0
    else
      var last := lines[|lines| - 1].record.status;
      SumImported(lines[..|lines| - 1]) + if last.Imported? then last.bytes else 0
  }

  function Countable(roots: seq<Root>): nat {
    if roots == [] then 0
    else
      var last := roots[|roots| - 1];
      Countable(roots[..|roots| - 1]) + if last.Present? then NonLinks(Walk(last.listing)) else 0
  }

  /** Every imported output is claimed, once, and stands for the bytes it records. */
  predicate Booked(ledger: Ledger) {
    && ledger.total == SumImported(ledger.lines) && ledger.total <= MAX_TOTAL_BYTES
    && (forall i :: 0 <= i < |ledger.lines| && ledger.lines[i].record.status.Imported? ==> Faithful(ledger.lines[i]))
    && (forall i :: 0 <= i < |ledger.lines| && ledger.lines[i].record.status.Imported? ==>
         ledger.lines[i].record.status.output in ledger.seen)
    && forall i, j | 0 <= i < j < |ledger.lines| ::
         ledger.lines[i].record.status.Imported? && ledger.lines[j].record.status.Imported? ==>
           ledger.lines[i].record.status.output != ledger.lines[j].record.status.output
  }

  /** An imported line records the size, digest and output of a plain, singly linked, undenied source file. */
  predicate Faithful(line: Line) {
    var r := line.record;
    && r.status.Imported? && line.source.Regular? && line.source.links == 1 && !Denied(r.path)
    && r.status == Imported(|line.source.data|, Sha256(line.source.data), Output(r.category, r.path))
    && r.status.bytes <= MAX_FILE_BYTES
  }

  lemma AdmitKeepsBooks(ledger: Ledger, rootCategory: string, f: Found)
    requires Booked(ledger)
    ensures Booked(Admit(ledger, rootCategory, f))
  {
    var after := Admit(ledger, rootCategory, f);
    var n := |ledger.lines|;
    assert after.lines[..n] == ledger.lines;
    forall i | 0 <= i < n ensures after.lines[i] == ledger.lines[i] { }
    if after.lines[n].record.status.Imported? {
      assert Faithful(after.lines[n]);
    }
  }

  lemma {:induction false} AdmitAllKeepsBooks(ledger: Ledger, rootCategory: string, found: seq<Found>)
    requires Booked(ledger)
    ensures var after := AdmitAll(ledger, rootCategory, found);
      && Booked(after) && |after.lines| == |ledger.lines| + |found| && ledger.lines <= after.lines
      && ledger.seen <= after.seen
  {
    if found == [] {
    } else {
      AdmitAllKeepsBooks(ledger, rootCategory, found[..|found| - 1]);
      AdmitKeepsBooks(AdmitAll(ledger, rootCategory, found[..|found| - 1]), rootCategory, found[|found| - 1]);
    }
  }

  function MissingCount(roots: seq<Root>): nat {
    if roots == [] then 0 else MissingCount(roots[..|roots| - 1]) + if roots[|roots| - 1].Missing? then 1 else 0
  }

  /** The budget facts of a tally, given how many roots were missing and how many entries were countable. */
  predicate Within(t: Tally, countable: nat, missing: nat) {
    Booked(t.ledger) && |t.ledger.lines| == t.entries + missing && countable <= t.entries && countable <= MAX_FILES
  }

  lemma OneMoreRootWithin(t: Tally, root: Root, countable: nat, missing: nat)
    requires Within(t, countable, missing) && Tallied(t, root).Some?
    ensures Within(Tallied(t, root).value,
                   countable + (if root.Present? then NonLinks(Walk(root.listing)) else 0),
                   missing + if root.Missing? then 1 else 0)
  {
    if root.Missing? {
      var line := Line(Record(root.category, ".", Skipped(SourceMissing)), Vanished);
      assert (t.ledger.lines + [line])[..|t.ledger.lines|] == t.ledger.lines;
    }
    if root.Present? {
      AdmitAllKeepsBooks(t.ledger, root.category, Walk(root.listing));
      NonLinksGrow(Walk(root.listing), 0);
    }
  }

  /**
    Budgets over all roots: the booked bytes are the imported bytes and within the limit, every entry met has one
    record, and the countable entries of all roots together stay within the file limit, although a link is counted
    only against the roots that follow.
  */
  lemma {:induction false} BudgetsHold(roots: seq<Root>)
    requires TallyOf(roots).Some?
    ensures Within(TallyOf(roots).value, Countable(roots), MissingCount(roots))
  {
    if roots == [] {
    } else {
      var n := |roots| - 1;
      BudgetsHold(roots[..n]);
      OneMoreRootWithin(TallyOf(roots[..n]).value, roots[n], Countable(roots[..n]), MissingCount(roots[..n]));
    }
  }
}
