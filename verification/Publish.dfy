/**
  Putting a staged bundle in the public place: one parent directory with two names, an environment that may put
  something else under the public name between the steps, and the temporary directory's removal at the end.
*/
module Publish {
  import opened Wrappers
  import opened Profile
  import opened Inventory
  import opened Migration
  import Placement

  datatype Content = Bare | Partial | Whole(bundle: Bundle) | Unknown
  datatype Item = Folder(inode: nat, content: Content) | NonFolder(inode: nat)

  /** Paths of the roots and the output, and whether the parent and the temporary directory can be made. */
  datatype Place = Place(
    tree: Placement.Tree, roots: seq<Placement.Path>, output: Placement.Path, parentMade: bool, stagingMade: bool)

  /** What the two names refer to at one moment. */
  datatype Names = Names(output: Option<Item>, staging: Option<Item>)

  /** What somebody else does to the public name between two steps. */
  datatype Meddling = Leave | Put(item: Option<Item>)

  datatype Weather = Weather(
    beforeOpen: Meddling, beforeExchange: Meddling, beforeCheck: Meddling, exchangeWorks: bool, reverseWorks: bool)

  datatype Outcome = Done | Refused | ExchangeFailed | NotARealDirectory | Reversed | NotReversed

  function After(item: Option<Item>, m: Meddling): Option<Item> {
    if m.Leave? then item else m.item
  }

  predicate RealDirectory(item: Option<Item>) {
    item.Some? && item.value.Folder?
  }

  /** A file, a link or nothing is no directory. */
  lemma RealDirectoryMeans(item: Option<Item>)
    ensures RealDirectory(item) <==> exists inode, content :: item == Some(Folder(inode, content))
  {
    if RealDirectory(item) {
      assert item == Some(Folder(item.value.inode, item.value.content));
    }
  }

  predicate IsDirectory(item: Option<Item>, inode: nat) {
    RealDirectory(item) && item.value.inode == inode
  }

  // The public name as the three moments of a replacement find it.

  function AtOpen(output: Option<Item>, w: Weather): Option<Item> {
    After(output, w.beforeOpen)
  }

  function AtExchange(output: Option<Item>, w: Weather): Option<Item> {
    After(AtOpen(output, w), w.beforeExchange)
  }

  function AtCheck(staged: Item, w: Weather): Option<Item> {
    After(Some(staged), w.beforeCheck)
  }

  /** The exchange happened: the name passed the check of the open directory, and the system call worked. */
  predicate Exchanged(output: Option<Item>, verified: nat, w: Weather) {
    IsDirectory(AtOpen(output, w), verified) && w.exchangeWorks && AtExchange(output, w).Some?
  }

  /** The exchange moved exactly what it was meant to move. */
  predicate ExactExchange(output: Option<Item>, verified: nat, staged: Item, w: Weather) {
    IsDirectory(AtExchange(output, w), verified) && IsDirectory(AtCheck(staged, w), staged.inode)
  }

  /** A later exchange can only be tried when both names are still real directories. */
  predicate BothReal(output: Option<Item>, staged: Item, w: Weather) {
    RealDirectory(AtExchange(output, w)) && RealDirectory(AtCheck(staged, w))
  }

  /** Whatever the public name refers to is what it was, what the environment put, or the complete staged bundle. */
  predicate PublicIsWhole(names: Names, first: Option<Item>, staged: Item, w: Weather) {
    || names.output == first || names.output == Some(staged)
    || exists m :: m in [w.beforeOpen, w.beforeExchange, w.beforeCheck] && m.Put? && names.output == m.item
  }

  class Parent {
    var output: Option<Item>
    var staging: Option<Item>
    ghost var trail: seq<Names>

    constructor (output: Option<Item>)
      ensures this.output == output && staging == None && trail == []
    {
      this.output, staging, trail := output, None, [];
    }

    /** Every state since `from` kept the public name whole. */
    ghost predicate WholeSince(from: nat, first: Option<Item>, staged: Item, w: Weather)
      reads this
    {
      forall k :: from <= k < |trail| ==> PublicIsWhole(trail[k], first, staged, w)
    }

    method Set(output: Option<Item>, staging: Option<Item>)
      modifies this
      ensures this.output == output && this.staging == staging && trail == old(trail) + [Names(output, staging)]
    {
      this.output, this.staging := output, staging;
      trail := trail + [Names(output, staging)];
    }

    method Meddle(m: Meddling)
      modifies this
      ensures output == After(old(output), m) && staging == old(staging)
      ensures trail == old(trail) + [Names(output, staging)]
    {
      Set(After(output, m), staging);
    }

    method Exchange(works: bool) returns (ok: bool)
      modifies this
      ensures ok == (works && old(output).Some? && old(staging).Some?)
      ensures ok ==> output == old(staging) && staging == old(output)
      ensures !ok ==> output == old(output) && staging == old(staging)
      ensures trail == old(trail) + [Names(output, staging)]
    {
      ok := works && output.Some? && staging.Some?;
      if ok {
        Set(staging, output);
      } else {
        Set(output, staging);
      }
    }

    /**
      First publication: refused if the name is taken, and a rename that takes the place of at most an empty directory.
    */
    method PublishNew(w: Weather) returns (outcome: Outcome)
      requires RealDirectory(staging)
      modifies this
      ensures var free := AtOpen(old(output), w) == None; var found := AtExchange(old(output), w);
        && (outcome == Done <==>
             free && w.exchangeWorks && (found == None || (found.value.Folder? && found.value.content.Bare?)))
        && (outcome == Done ==> output == old(staging) && staging == None)
        && (outcome != Done ==> staging == old(staging) && output == if free then found else AtOpen(old(output), w))
      ensures old(trail) <= trail && WholeSince(|old(trail)|, old(output), old(staging).value, w)
    {
      Meddle(w.beforeOpen);
      if output.Some? {
        return Refused;
      }
      Meddle(w.beforeExchange);
      if w.exchangeWorks && (output == None || (output.value.Folder? && output.value.content.Bare?)) {
        Set(staging, None);
        return Done;
      }
      return ExchangeFailed;
    }

    /**
      Replacement. It ends normally exactly when the exchange moved the verified directory out and the staged one in;
      a mismatch is undone exactly when both names are still real directories and the second exchange works.
    */
    method Replace(verified: nat, w: Weather) returns (outcome: Outcome)
      requires RealDirectory(staging)
      modifies this
      ensures var staged := old(staging).value; var found := AtExchange(old(output), w);
        var checked := AtCheck(staged, w);
        var went := Exchanged(old(output), verified, w); var exact := ExactExchange(old(output), verified, staged, w);
        && (outcome == Done <==> went && exact)
        && (outcome == Reversed <==> went && !exact && BothReal(old(output), staged, w) && w.reverseWorks)
        && (outcome == NotReversed <==> went && !exact && BothReal(old(output), staged, w) && !w.reverseWorks)
        && (outcome == NotARealDirectory <==> went && !BothReal(old(output), staged, w))
        && (outcome in {Done, NotReversed, NotARealDirectory} ==> output == checked && staging == found)
        && (outcome == Reversed ==> output == found && staging == checked)
        && (!went ==> staging == Some(staged) && output == if outcome == Refused then AtOpen(old(output), w) else found)
      ensures old(trail) <= trail && WholeSince(|old(trail)|, old(output), old(staging).value, w)
    {
      Meddle(w.beforeOpen);
      if !IsDirectory(output, verified) {
        return Refused;
      }
      Meddle(w.beforeExchange);
      var identity := staging.value.inode;
      var went := Exchange(w.exchangeWorks);
      if !went {
        return ExchangeFailed;
      }
      Meddle(w.beforeCheck);
      if !RealDirectory(staging) || !RealDirectory(output) {
        return NotARealDirectory;
      }
      if staging.value.inode == verified && output.value.inode == identity {
        return Done;
      }
      var undone := Exchange(w.reverseWorks);
      outcome := if undone then Reversed else NotReversed;
    }

    /** The temporary directory goes: a real directory is deleted with all it holds, anything else stays. */
    method CleanUp() returns (deleted: Option<Item>)
      modifies this
      ensures deleted == if RealDirectory(old(staging)) then old(staging) else None
      ensures output == old(output) && staging == if RealDirectory(old(staging)) then None else old(staging)
      ensures trail == old(trail) + [Names(output, staging)]
    {
      deleted := if RealDirectory(staging) then staging else None;
      Set(output, if RealDirectory(staging) then None else staging);
    }

    /**
      Staging, publication and removal in one run, with the bundle incomplete for a while. `verified` is the identity
      of the existing output that is being replaced; `complete` says whether staging got to its end.
    */
    method Run(b: Bundle, inode: nat, verified: Option<nat>, complete: bool, w: Weather)
      returns (outcome: Outcome, deleted: Option<Item>)
      requires staging == None
      modifies this
      ensures var staged := Folder(inode, Whole(b));
        && old(trail) <= trail && WholeSince(|old(trail)|, old(output), staged, w)
        && (!complete ==> outcome == Refused && output == old(output) && staging == None)
        && (complete && outcome == Done ==> output == if verified == None then Some(staged) else AtCheck(staged, w))
        && (complete && outcome == Done && verified.Some? ==> IsDirectory(deleted, verified.value) && staging == None)
        && (outcome in {Refused, ExchangeFailed} ==> deleted.Some? && deleted.value.inode == inode)
        && (verified == None ==> deleted == None || deleted.value.inode == inode)
        && (verified.Some? && complete && Mismatched(old(output), verified.value, staged, w) ==>
             var left := LeftAside(old(output), staged, w);
             && deleted == (if RealDirectory(left) then left else None)
             && outcome == if !BothReal(old(output), staged, w) then NotARealDirectory
                           else if w.reverseWorks then Reversed else NotReversed)
        && (complete ==> (outcome == Done <==> Publishes(old(output), verified, staged, w)))
        && (verified.Some? ==>
             (deleted.Some? && deleted.value.inode !in {inode, verified.value}
              <==> complete && UnverifiedLoss(old(output), verified.value, staged, w)))
    {
      Set(output, Some(Folder(inode, Bare)));
      Set(output, Some(Folder(inode, Partial)));
      outcome := Refused;
      if complete {
        Set(output, Some(Folder(inode, Whole(b))));
        if verified == None {
          outcome := PublishNew(w);
        } else {
          outcome := Replace(verified.value, w);
        }
      }
      deleted := CleanUp();
    }

    /**
      The migrate command over the public name. It succeeds exactly if the paths are admitted, the inventory and the
      bundle in place allow it, and publication, where there is any, goes through; the name is whole in every state.
    */
    method Migrate(roots: seq<Root>, place: Place, replace: bool, inode: nat, w: Weather)
      returns (manifest: Option<Manifest>)
      requires staging == None
      modifies this
      ensures manifest.Some? <==> Migrates(old(output), roots, place, replace, inode, w)
      ensures manifest.Some? ==>
        && manifest.value == ManifestOf(TallyOf(roots).value.ledger)
        && output == if old(output).Some? && !replace then old(output)
                     else if old(output) == None then Some(StagedItem(roots, inode))
                     else AtCheck(StagedItem(roots, inode), w)
      ensures !Prepared(old(output), roots, place, replace) ==> output == old(output) && trail == old(trail)
      ensures old(trail) <= trail
      ensures |old(trail)| < |trail| ==>
        TallyOf(roots).Some? && WholeSince(|old(trail)|, old(output), StagedItem(roots, inode), w)
    {
      var admitted := Placement.Validate(place.tree, place.roots, place.output);
      if !admitted {
        return None;
      }
      var decided, after := Migration.Migrate(roots, InPlace(output), replace);
      if decided.None? {
        return None;
      }
      if !NeedsPublication(output, replace) {
        return decided;
      }
      if !place.parentMade || !place.stagingMade {
        return None;
      }
      var verified := if output == None then None else Some(output.value.inode);
      var outcome, _ := Run(after.bundle, inode, verified, true, w);
      manifest := if outcome == Done then decided else None;
    }
  }

  /** What the migration makes of the thing under the public name. */
  function InPlace(output: Option<Item>): Directory {
    match output
    case None => Absent
    case Some(Folder(_, Whole(b))) => Holds(b)
    case Some(_) => Foreign
  }

  /** Without `replace` a bundle in place is compared and kept. */
  predicate NeedsPublication(output: Option<Item>, replace: bool) {
    output == None || replace
  }

  function StagedItem(roots: seq<Root>, inode: nat): Item
    requires TallyOf(roots).Some?
  {
    Folder(inode, Whole(BundleOf(TallyOf(roots).value.ledger)))
  }

  /** Publication goes through: the name was free and stayed free, or the exchange was exact. */
  predicate Publishes(output: Option<Item>, verified: Option<nat>, staged: Item, w: Weather) {
    match verified
    case None =>
      && AtOpen(output, w) == None && w.exchangeWorks
      && var found := AtExchange(output, w); found == None || (found.value.Folder? && found.value.content.Bare?)
    case Some(inode) => Exchanged(output, inode, w) && ExactExchange(output, inode, staged, w)
  }

  /** Everything before the first change of a name allows the migration. */
  predicate Prepared(output: Option<Item>, roots: seq<Root>, place: Place, replace: bool) {
    && Placement.Admitted(place.tree, place.roots, place.output) && Succeeds(roots, InPlace(output), replace)
    && (NeedsPublication(output, replace) ==> place.parentMade && place.stagingMade)
  }

  predicate Migrates(
    output: Option<Item>, roots: seq<Root>, place: Place, replace: bool, inode: nat, w: Weather)
  {
    && Prepared(output, roots, place, replace)
    && (NeedsPublication(output, replace) ==>
         Publishes(output, if output == None then None else Some(output.value.inode), StagedItem(roots, inode), w))
  }

  /** An exchange that happened and moved something else out, or found something else in the public place. */
  predicate Mismatched(output: Option<Item>, verified: nat, staged: Item, w: Weather) {
    Exchanged(output, verified, w) && !ExactExchange(output, verified, staged, w)
  }

  /**
    What a mismatch leaves under the temporary name: after a reversal whatever stood in the public place at the check,
    without one whatever the exchange moved out.
  */
  function LeftAside(output: Option<Item>, staged: Item, w: Weather): Option<Item> {
    if BothReal(output, staged, w) && w.reverseWorks then AtCheck(staged, w) else AtExchange(output, w)
  }

  /** Exactly when the clean-up deletes a directory that was neither staged nor verified. */
  predicate UnverifiedLoss(output: Option<Item>, verified: nat, staged: Item, w: Weather) {
    && Mismatched(output, verified, staged, w)
    && var left := LeftAside(output, staged, w);
       RealDirectory(left) && left.value.inode !in {verified, staged.inode}
  }

  /** A link put in the public place after the exchange stops the reversal: the verified directory is deleted. */
  method LinkStopsTheReversal(b: Bundle) returns (outcome: Outcome, deleted: Option<Item>)
    ensures outcome == NotARealDirectory && deleted == Some(Folder(1, Unknown))
  {
    var parent := new Parent(Some(Folder(1, Unknown)));
    outcome, deleted := parent.Run(b, 2, Some(1), true,
      Weather(Leave, Leave, Put(Some(NonFolder(9))), true, true));
  }

  /** A directory put in place before the exchange is lost when the second exchange fails. */
  method ReplacedDirectoryIsDeleted(b: Bundle) returns (outcome: Outcome, deleted: Option<Item>)
    ensures outcome == NotReversed && deleted == Some(Folder(7, Unknown))
  {
    var parent := new Parent(Some(Folder(1, Unknown)));
    outcome, deleted := parent.Run(b, 2, Some(1), true,
      Weather(Leave, Put(Some(Folder(7, Unknown))), Leave, true, false));
  }

  /** A directory put in place after the exchange is lost although, and because, the reversal works. */
  method IntrudingDirectoryIsDeleted(b: Bundle) returns (outcome: Outcome, deleted: Option<Item>)
    ensures outcome == Reversed && deleted == Some(Folder(7, Unknown))
  {
    var parent := new Parent(Some(Folder(1, Unknown)));
    outcome, deleted := parent.Run(b, 2, Some(1), true,
      Weather(Leave, Leave, Put(Some(Folder(7, Unknown))), true, true));
  }

  /** Nobody interferes and every system call works. */
  const CALM := Weather(Leave, Leave, Leave, true, true)

  /** Undisturbed, whatever is prepared is published: into a free name, and over an intact bundle. */
  lemma CalmMigrationSucceeds(output: Option<Item>, roots: seq<Root>, place: Place, replace: bool, inode: nat)
    requires Prepared(output, roots, place, replace)
    ensures Migrates(output, roots, place, replace, inode, CALM)
    ensures NeedsPublication(output, replace) ==>
      AtCheck(StagedItem(roots, inode), CALM) == Some(StagedItem(roots, inode))
  {
    hide Succeeds, Placement.Admitted, BundleOf;
    assert output != None ==> RealDirectory(output) by {
      ForeignNeverSucceeds(roots, replace);
    }
  }

  lemma ForeignNeverSucceeds(roots: seq<Root>, replace: bool)
    ensures !Succeeds(roots, Foreign, replace)
  {}

  /** What is in place counts as a bundle exactly if it is a real directory that holds one. */
  lemma InPlaceMeans(output: Option<Item>, b: Bundle)
    ensures InPlace(output) == Absent <==> output == None
    ensures InPlace(output) == Holds(b) <==> exists inode :: output == Some(Folder(inode, Whole(b)))
  {}
}
