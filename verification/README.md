# Verified model of the install helpers

This project models six programs of the repository's `install-helpers` directory in Dafny and proves what they promise.

1. **Overlay-identity claim cache** (`Claims`, `ClaimPrint`, `Materializer`, `Guard`, `Agreement`, `Acceptance`,
   `OwnerRanges`, `Fleet`, `CacheProtocol`, `AtomicFile`). A producer turns one range of leased claims into an
   authenticated snapshot and a commitment; a guard reads the two files in two steps and says safe or refuses. The
   cache is a transition system with any number of producers and guards, crashes, reboots, a jumping clock, and an
   environment that may put back any file it can authenticate. Keyed digests are terms, so two are equal only if
   domain, key and covered object are.
2. **Portable browser-profile migrator** (`Profile`, `Placement`, `Inventory`, `Migration`, `Portability`,
   `PlainRoots`, `Publish`, `GuestImport`, `Resumption`, `RoundTrip`). Inventory under budgets, manifest, staging and
   verification, replacement by atomic exchange, and an import that merges into guest directories without replacing
   anything.
3. **TIGER shapefile extractor and the clipper that reads its output** (`Binary`, `Shp`, `Dbf`, `DbfPrint`, `Rings`,
   `PolygonRecord`, `Boxes`, `Clip`, `ShapefileRoundTrip`, `Clipper`). Binary parsers with their printers, rings,
   orientation and bounding boxes.
4. **Browser VM performance collector** (`Telemetry`, `StreamPrint`, `Windows`, `Percentile`, `Rates`, `Checks`,
   `Assessment`, `SteadyRun`). The stream parser, the one-pass windows, what the thresholds of a pass mean together,
   and a run that passes.
5. **Styled raster tiler** (`LineReader`, `TileCover`, `Mbtiles`). The chunked reader, the tile cover of a box, the crop
   boxes, the tile table and its inspector.
6. **Remote Proofing** (`Lifecycle`, `Firewall`). From settings to a firewall contract, and the reconciler with its
   state file.

`Wrappers`, `Text` and `Bytes` are shared. Loops and updates of the programs are methods and classes, each proved
against a specification function or an outright condition; the properties of these functions are lemmas. Refusals are
`None` or an exit code. Classes that change state keep a ghost trail of the states they pass through, so that "in every
state" is part of their contracts. `dafny verify dfyconfig.toml` checks the whole project.

## Where the code differs from what its comments say

- `publish_bundle` promises that an unexpected exchange is reversed. It is reversed exactly if both names are real
  directories at that moment and the second exchange works (`Publish.Parent.Replace`); a file or link that was swapped
  in raises before the reversal. The clean-up then deletes whatever directory a mismatch has left under the temporary
  name (`Publish.Parent.Run`): without a reversal the one that was moved out (`Publish.ReplacedDirectoryIsDeleted`), and
  after a reversal one that had come into the public place since (`Publish.IntrudingDirectoryIsDeleted`).
- The guard bounds the size of a claim value and remembers seen keys; neither check can ever be the one that refuses
  (`Claims.AdmittedClaimIsShort`, `Guard.TestDecidesOrder`).
- The commitment ties a snapshot to its producer execution, not to the latest one: within the validity window an older
  pair of the same boot is accepted again (`CacheProtocol.OlderPairOfThisBootIsAccepted`).
- A link does not count against the file budget of its own root, only against the roots after it
  (`Inventory.BudgetsHold`).
- Verifying a freshly staged bundle cannot fail for clean roots (`RoundTrip.StagedBundleIsConsistent`).
- `scan_shp_offsets` follows negative record lengths backwards, so a file may scan without being the records found
  (`Shp.ScanMayGoBack`). It is these records exactly if each of them can be read
  (`Shp.FileIsItsRecordsExactlyIfReadable`).
- The clipper refuses a county without width or height if the feature carries its box, and accepts it if the box is
  recomputed (`Clipper.BoxesAgree`).
- The reconciler compares with what it last recorded, not with what is in force. After a partial failure or a stop
  and a change of settings a rule can stay open, or stay missing, for good (`Firewall.ChangeOfMind`).
- Python's `==` lets `true` and `1.0` pass as schema version 1; the model keeps that (`Claims.EqualsInt`).

## Model

| member | source | states |
|---|---|---|
| Claims.AdmittedClaimIsShort | install-helpers/mcnf-overlay-identity-collision-guard.py:485-547 | every admitted claim value, in its canonical form, has at most 637 bytes, so the 1,024-byte bound can never refuse one |
| Claims.VersionsOfOne | install-helpers/mcnf-overlay-identity-collision-guard.py:485-547 | schema version 1 may be given as the number, as true or as 1.0, and nothing else |
| Claims.KeyIsItsTriple | install-helpers/mcnf-overlay-identity-claims-materializer.py:330-387 | a key that passes the shape checks is the claim key of exactly its fingerprint, machine and boot digests |
| Claims.TripleHasItsKey | install-helpers/mcnf-overlay-identity-claims-materializer.py:330-387 | the claim key of any three digests passes the shape checks and names them back |
| ClaimPrint.OverlayAddresses | install-helpers/mcnf-overlay-identity-claims-materializer.py:359-374 | of all texts of four dotted decimal numbers exactly those of 10.42.0.0/17 are admitted as addresses |
| ClaimPrint.AdmittedAddressIsDotted | install-helpers/mcnf-overlay-identity-claims-materializer.py:359-374 | every admitted address is such a text |
| ClaimPrint.DigestTexts | install-helpers/mcnf-overlay-identity-claims-materializer.py:322-327 | the digest texts are the lower-case hexadecimal texts of 32 bytes that are not all zero |
| ClaimPrint.NodeIds | install-helpers/mcnf-overlay-identity-claims-materializer.py:77-77 | the node identifiers are `peer:` and a name of 1 to 128 characters that starts with a letter or a digit |
| ClaimPrint.OwnerIsAdmitted | install-helpers/mcnf-overlay-identity-claims-materializer.py:330-387 | the key and record printed from a name, an overlay address and three digests are admitted, and yield that claim |
| ClaimPrint.AdmittedRecordHasAnOwner | install-helpers/mcnf-overlay-identity-claims-materializer.py:330-387 | nothing else is admitted: every admitted key and record is the printed form of such an owner |
| Materializer.AdmitAll | install-helpers/mcnf-overlay-identity-claims-materializer.py:416-460 | the loop with its two seen-sets returns the entries in arrival order if all are admitted with distinct keys and leases, and refuses otherwise |
| Materializer.ParseRange | install-helpers/mcnf-overlay-identity-claims-materializer.py:390-460 | accepts exactly the admissible ranges (header, 12 claims at most, count agreement, revision bounds, distinct keys and leases); the result is their entries in strict key order |
| Materializer.SortSorts | install-helpers/mcnf-overlay-identity-claims-materializer.py:390-460 | sorting entries with distinct keys gives strictly increasing keys |
| Materializer.SortedListIsUnique | install-helpers/mcnf-overlay-identity-claims-materializer.py:390-460 | the strictly sorted form is unique, so any correct sort gives this result |
| Text.LessByFirstDifference | install-helpers/mcnf-overlay-identity-claims-materializer.py:451-451 | the order of keys is by the first different character, a prefix coming first |
| Guard.ParseClaims | install-helpers/mcnf-overlay-identity-collision-guard.py:612-627 | the loop with key set, lease set and previous key accepts exactly lists of at most 12 valid entries with strictly increasing keys and distinct leases |
| Guard.TestDecidesOrder | install-helpers/mcnf-overlay-identity-collision-guard.py:614-626 | the per-entry test refuses exactly the entry that breaks the order of the list, and it decides the same without the seen-key set |
| Guard.ParseSnapshot | install-helpers/mcnf-overlay-identity-collision-guard.py:550-627 | a snapshot yields its evidence exactly if times, producer boot, source and claims pass, with the exit code of the first failure |
| Guard.Evaluate | install-helpers/mcnf-overlay-identity-collision-guard.py:664-695 | a collision is reported exactly if some claim that is not the host's own shares a node, an address or a fingerprint with it |
| Acceptance.AcceptedFilesAreSealed | install-helpers/mcnf-overlay-identity-collision-guard.py:738-805 | whoever put the files there: a safe verdict means that one is the sealed file of a well-made snapshot of this boot, with its owners' entries in order, the other the sealed file of a commitment to it, and the clock is inside the windows |
| Agreement.ProducedEntryIsValid | install-helpers/mcnf-overlay-identity-claims-materializer.py:418-460 | an entry written by the producer passes the guard's differently worded entry checks |
| Agreement.LeasesSurviveSorting | install-helpers/mcnf-overlay-identity-claims-materializer.py:390-460 | sorting compares keys only, yet leases stay pairwise distinct |
| Agreement.FreshnessIsTheTimeCheck | install-helpers/mcnf-overlay-identity-collision-guard.py:550-627 | the time checks pass exactly inside the validity, age and skew windows of the same boot |
| Agreement.SealedPairDecision | install-helpers/mcnf-overlay-identity-collision-guard.py:738-805 | a pair sealed together passes both authentications and the commitment check; only its snapshot and the claims decide |
| Agreement.EmptyRangeAcceptsEveryHost | install-helpers/mcnf-overlay-identity-collision-guard.py:664-695 | an empty range is admitted and, while fresh, declares every host safe: no host needs a claim of its own |
| Agreement.ProducerGuardAgreement | install-helpers/mcnf-overlay-identity-claims-materializer.py:567-616 | for every admitted range the two files are accepted exactly when fresh and free of collision, and yield the same revision and claims; otherwise the exit code says which |
| OwnerRanges.PrintedKeyIsAdmitted | install-helpers/mcnf-overlay-identity-claims-materializer.py:416-450 | a key printed from a good owner is admitted exactly if its four numbers fit below the revision, as the entry of that owner |
| OwnerRanges.PrintedRangeIsAdmitted | install-helpers/mcnf-overlay-identity-claims-materializer.py:390-460 | a range printed from good owners is admitted exactly if its numbers fit, there are at most 12, and no digest triple and no lease repeats; its source carries the printed numbers |
| OwnerRanges.OwnersAreSafeExactlyIfApart | install-helpers/mcnf-overlay-identity-collision-guard.py:664-695 | from the printed range to the verdict: while the sealed pair is fresh the guard of each owner says safe if and only if no other owner shares its name, address or certificate |
| Fleet.AcceptedClaimantsAreDistinct | install-helpers/mcnf-overlay-identity-collision-guard.py:612-627 | two entries of an accepted list are different claimants: their digest triples differ |
| Fleet.SafeMeansApartFromOthers | install-helpers/mcnf-overlay-identity-collision-guard.py:664-695 | the owner of a claim is safe exactly if every other claim differs from its own in node, address and fingerprint |
| Fleet.FleetUniqueness | install-helpers/mcnf-overlay-identity-collision-guard.py:664-695 | all owners are safe if and only if the accepted claims are pairwise distinct in node, address and fingerprint |
| Fleet.FleetIsSafeExactlyIfUnique | install-helpers/mcnf-overlay-identity-collision-guard.py:286-293 | the same for a fleet of hosts with raw machine and boot identifiers: all guards say safe if and only if any two hosts differ in node, address and fingerprint |
| CacheProtocol.OneAuthor | install-helpers/mcnf-overlay-identity-collision-guard.py:630-657 | an authenticated snapshot and commitment with matching tag were both written by one and the same producer execution |
| CacheProtocol.AcceptedExactlyIfJustified | install-helpers/mcnf-overlay-identity-collision-guard.py:738-801 | among all files that can stand at the two paths the guard accepts exactly the fresh pairs written by one execution of the current boot |
| CacheProtocol.EveryRunKeepsInvariant | install-helpers/mcnf-overlay-identity-collision-guard.py:738-801 | over every run with concurrent producers and guards, crashes, reboots, clock jumps and replaced files the invariant of the cache holds |
| CacheProtocol.SafeVerdictsAreJustified | install-helpers/mcnf-overlay-identity-collision-guard.py:738-801 | safety over every run: each safe verdict has one producer execution of that boot which wrote both files as read, within age, validity and skew, and the verdict carries its revision, claims and time |
| CacheProtocol.InterleavedWritersFailClosed | install-helpers/mcnf-overlay-identity-claims-materializer.py:612-616 | for any interleaving and any stops of producers, and any restarts, the stored pair passes if and only if last snapshot and last commitment of this boot carry the same evidence; a snapshot of an earlier boot never passes |
| CacheProtocol.OlderPairOfThisBootIsAccepted | install-helpers/mcnf-overlay-identity-collision-guard.py:550-657 | a limit: an older pair of the same boot, put back while it is fresh, is accepted whatever has been written since |
| CacheProtocol.ProducerThenGuardDecides | install-helpers/mcnf-overlay-identity-claims-materializer.py:612-616 | from any state a producer that runs to its end and a guard after it reach a verdict, safe exactly if the pair is fresh and nothing collides |
| AtomicFile.Directory.WriteAll | install-helpers/mcnf-overlay-identity-claims-materializer.py:511-513 | the loop of short writes leaves a prefix in the temporary file, and the whole data exactly if every write needed works |
| AtomicFile.Directory.WriteAndRename | install-helpers/mcnf-overlay-identity-claims-materializer.py:504-517 | from the creation of the temporary file to the rename: the rename is reached exactly if all calls before it work |
| AtomicFile.Directory.AtomicWrite | install-helpers/mcnf-overlay-identity-claims-materializer.py:498-529 | in every intermediate state the target is as before or complete; it is new if and only if the path and its directory are trusted, the data is admitted and every call up to the rename works, even when an error follows |
| Profile.WalkedPathsAreSafe | install-helpers/migrate-browser-profile.py:144-184 | every walked path consists of real names, none of them empty, dot or dot-dot |
| Profile.WalkedPathsAreUnrelated | install-helpers/migrate-browser-profile.py:144-184 | no walked path equals another or lies beneath another |
| Portability.DeniedExactlyIfAStore | install-helpers/migrate-browser-profile.py:133-141 | a path is denied exactly if some component is, in any case, the name of a credential store or has a marker in it |
| Portability.FirstStoreDecides | install-helpers/migrate-browser-profile.py:133-141 | the reason is that of the first such component, a whole name before a marker |
| Portability.ProfileCategories | install-helpers/migrate-browser-profile.py:187-208 | a lone file name is portable exactly if it is one of eight, a longer path exactly if it begins in one of two directories, each with its category |
| Portability.FilesKeepTheirComponents | install-helpers/migrate-browser-profile.py:216-217 | bundle and guest keep the components of a path below the directory of its category |
| Placement.ParentOfEntry | install-helpers/migrate-browser-profile.py:254-254 | the parent that is checked is the path without its last component |
| Placement.Walk | install-helpers/migrate-browser-profile.py:254-271 | the walk from the top accepts exactly paths that are real directories as far as they exist |
| Placement.ClearWayRedirectsNowhere | install-helpers/migrate-browser-profile.py:245-271 | in a tree that hangs together, an accepted path is one on which no existing step, however deep, is a link or anything else but a directory |
| Placement.Validate | install-helpers/migrate-browser-profile.py:220-271 | the checks of roots and output accept exactly if no root and no parent of the output redirects, and the output is in no root |
| Placement.WritesStayOutside | install-helpers/migrate-browser-profile.py:220-271 | whatever is then written beside or below the output lies in no root, unless that root is itself beneath the parent of the output |
| Inventory.TallyRoot | install-helpers/migrate-browser-profile.py:568-655 | one root: the generator's own count and the loop's budgets give exactly the specified tally, or the refusal for too many files or a directory that cannot be listed |
| Inventory.TallyRoots | install-helpers/migrate-browser-profile.py:565-655 | all roots in order, with budgets that carry over from one root to the next; a root that is no real directory is refused |
| Inventory.AdmitAllKeepsBooks | install-helpers/migrate-browser-profile.py:581-655 | booking keeps: bytes equal the imported sizes and stay within the limit, outputs are distinct, every imported line records its own file faithfully |
| Inventory.BudgetsHold | install-helpers/migrate-browser-profile.py:144-184 | over all roots: every entry has one record and the non-link entries stay within the file limit although links are charged only to later roots |
| Portability.VerdictOnStores | install-helpers/migrate-browser-profile.py:584-596 | an entry that leads to a credential store is skipped and never imported, and no other entry is skipped for that reason |
| Migration.VerifyBundle | install-helpers/migrate-browser-profile.py:312-371 | accepts exactly the directories in which manifest and payload agree: each promised file once with its size and digest, and nothing else |
| Migration.CountsAddUp | install-helpers/migrate-browser-profile.py:657-671 | imported, skipped and failed add up to the number of entries |
| Migration.Stage | install-helpers/migrate-browser-profile.py:684-704 | the staged files are those of the specification |
| Migration.StagedFilesAreTheSources | install-helpers/migrate-browser-profile.py:684-704 | with distinct outputs the staged payload is exactly the imported source bytes, file by file |
| Migration.StagingMeans | install-helpers/migrate-browser-profile.py:681-704 | what is staged can be laid out as a tree and was not changed before its copy |
| Migration.FailuresAreCounted | install-helpers/migrate-browser-profile.py:659-676 | the failed count is zero exactly if no entry failed |
| Migration.Migrate | install-helpers/migrate-browser-profile.py:548-709 | the decision and the bundle: succeeds exactly under the stated condition; a refusal leaves the output untouched, a success leaves the bundle of the sources |
| Migration.OrderKeepsBooks | install-helpers/migrate-browser-profile.py:657-658 | sorting the manifest keeps outputs distinct and imported entries faithful |
| Migration.ManifestAccounts | install-helpers/migrate-browser-profile.py:657-680 | in a returned manifest nothing failed, imported plus skipped is the number of entries, bytes is the imported sum within the limit, nothing imported is denied |
| Migration.MigrateTwice | install-helpers/migrate-browser-profile.py:548-709 | a second run on unchanged sources returns the same manifest and leaves the output untouched |
| Portability.ManifestKeepsStoresOut | install-helpers/migrate-browser-profile.py:578-650 | no imported entry of a manifest leads to a credential store, and every entry skipped for that reason does |
| Portability.ManifestIsSorted | install-helpers/migrate-browser-profile.py:657-657 | the manifest is sorted by category and path, entries that agree in both keeping their order |
| PlainRoots.PlainRootsMigrate | install-helpers/migrate-browser-profile.py:548-710 | whatever plain files, links, denied and unsupported entries the roots of a command hold, within the budgets the migration into a free place succeeds |
| PlainRoots.PlainCommandSucceeds | install-helpers/migrate-browser-profile.py:548-710 | and so does the whole command, if its paths are admitted, its directories can be made and nobody interferes |
| GuestImport.ParentsAreAdded | install-helpers/migrate-browser-profile.py:439-440 | creating parents only adds missing directories of the destination path |
| GuestImport.ImportOnlyAdds | install-helpers/migrate-browser-profile.py:414-455 | an import never changes or removes a file that was there |
| GuestImport.Guest.Put | install-helpers/migrate-browser-profile.py:445-453 | a new name never disturbs an existing one, at any point of a run |
| GuestImport.Guest.Mkdirs | install-helpers/migrate-browser-profile.py:439-440 | the parents are created one by one, and each state on the way keeps what was there |
| GuestImport.Guest.ImportEntry | install-helpers/migrate-browser-profile.py:415-454 | one entry: retained, published or refused as specified, a change of the payload before or during the copy included, through states that keep every existing file |
| GuestImport.Guest.Import | install-helpers/migrate-browser-profile.py:414-455 | the import loop: files, counts and refusal as specified; no state it passes through changes an existing file, however it ends |
| Resumption.StepResumes | install-helpers/migrate-browser-profile.py:414-455 | one step from a partly imported state decides as it first did |
| Resumption.RerunReachesTheSameState | install-helpers/migrate-browser-profile.py:414-455 | from whatever state an interrupted import left, a rerun ends with the files of one uninterrupted run, refuses exactly if it does, and accounts for the same entries |
| Resumption.StoppedRunIsPartial | install-helpers/migrate-browser-profile.py:414-455 | a run stopped by a changed payload or an appearing destination leaves such a state if and only if what stopped it was not a foreign file |
| Resumption.RerunRepairsExactlyIfNotIntruded | install-helpers/migrate-browser-profile.py:414-455 | after any run, disturbed or not, an undisturbed rerun ends with the files and the verdict of one uninterrupted run if and only if no foreign file, other than the payload, stopped the first |
| Resumption.KilledRunIsRepaired | install-helpers/migrate-browser-profile.py:414-455 | the same rerun repairs a run killed in any state it passes through, unless a foreign file stopped it |
| Resumption.IntruderStaysInTheWay | install-helpers/migrate-browser-profile.py:448-453 | after a foreign file has stopped a run, every later run of the bundle is refused and changes nothing |
| Resumption.ForeignFileStaysInTheWay | install-helpers/migrate-browser-profile.py:448-453 | one entry: a file that appears at its destination is kept, and refuses the same entry again if and only if it differs from the payload |
| Resumption.UnrefusedImportDelivers | install-helpers/migrate-browser-profile.py:414-455 | after an import without refusal every destination holds its payload, and imported plus retained is the number of entries |
| Resumption.SecondImportIsANoOp | install-helpers/migrate-browser-profile.py:414-455 | a second import publishes nothing, retains everything and changes nothing |
| Resumption.OnlyPayloadsAppear | install-helpers/migrate-browser-profile.py:414-455 | nothing but payloads at their destinations, and directories, is ever created |
| Resumption.OpenGuestTakesAll | install-helpers/migrate-browser-profile.py:414-455 | into free places every entry is published |
| RoundTrip.ExportedIsPortable | install-helpers/migrate-browser-profile.py:187-208 | every exported entry is a portable source file of some root |
| RoundTrip.PortableIsExported | install-helpers/migrate-browser-profile.py:565-655 | without failures no portable source file is lost |
| RoundTrip.StagedBundleIsConsistent | install-helpers/migrate-browser-profile.py:706-706 | a bundle staged from clean roots always passes its own verification |
| RoundTrip.ImportBundle | install-helpers/migrate-browser-profile.py:393-455 | the whole import command: checks first, then the loop; counts are reported exactly if nothing was refused |
| RoundTrip.ImportDeliversTheManifest | install-helpers/migrate-browser-profile.py:393-455 | after an import without refusal every imported entry lies below the root of its category with the size and digest of the manifest |
| Portability.ImportKeepsStoresOut | install-helpers/migrate-browser-profile.py:414-424 | no bundle that passes verification brings in a path to a credential store, whoever made it |
| RoundTrip.ExportThenImport | install-helpers/migrate-browser-profile.py:393-455 | round trip: export, then import into free places puts exactly the portable source bytes in place and nothing else; a second import retains all |
| RoundTrip.CommandDestinationsSeparate | install-helpers/migrate-browser-profile.py:856-881 | the command line's destinations keep different files apart, as the round trip asks |
| Publish.Parent.Exchange | install-helpers/migrate-browser-profile.py:467-493 | both names are swapped or nothing changes |
| Publish.RealDirectoryMeans | install-helpers/migrate-browser-profile.py:458-464 | only a directory counts as one, not a file, a link or nothing |
| Publish.Parent.PublishNew | install-helpers/migrate-browser-profile.py:511-515 | first publication succeeds exactly if the name is free when looked at and at most an empty directory appears before the rename |
| Publish.Parent.Replace | install-helpers/migrate-browser-profile.py:517-545 | ends normally exactly if the verified directory went out and the staged one came in; a mismatch is undone exactly if both names are still real directories and the second exchange works; the public name is whole in every state |
| Publish.Parent.CleanUp | install-helpers/migrate-browser-profile.py:684-708 | the temporary directory is deleted if it is a real directory, anything else stays |
| Publish.Parent.Run | install-helpers/migrate-browser-profile.py:684-708 | staging, publication and clean-up: the public name is never partial, what is deleted after a mismatch is said exactly, and a directory that was neither staged nor verified is deleted if and only if a mismatch left one under the temporary name |
| Publish.ReplacedDirectoryIsDeleted | install-helpers/migrate-browser-profile.py:532-545 | a concrete loss: a directory put into the public place before the exchange is deleted when the second exchange fails |
| Publish.LinkStopsTheReversal | install-helpers/migrate-browser-profile.py:532-545 | a concrete run: a link put into the public place after the exchange stops the reversal and the verified directory is deleted |
| Publish.IntrudingDirectoryIsDeleted | install-helpers/migrate-browser-profile.py:532-545 | a concrete loss: a directory put into the public place after the exchange is moved aside by the working reversal and deleted |
| Publish.Parent.Migrate | install-helpers/migrate-browser-profile.py:548-710 | the whole command over the public name succeeds if and only if the paths are admitted, inventory and bundle in place allow it, both directories can be made and publication goes through |
| Publish.CalmMigrationSucceeds | install-helpers/migrate-browser-profile.py:548-710 | undisturbed, whatever is prepared is published, into a free name and over an intact bundle |
| Publish.InPlaceMeans | install-helpers/migrate-browser-profile.py:548-562 | what is in place is free, or a bundle if it is a real directory that holds one, or else refused |
| Binary.LittleReadsBack | install-helpers/maps-extract-tiger-clip.py:256-258 | little-endian integers are read back |
| Binary.BigReadsBack | install-helpers/maps-extract-tiger-clip.py:434-444 | big-endian integers are read back |
| Binary.BigPrintsBack | install-helpers/maps-extract-tiger-clip.py:467-474 | big-endian bytes are printed back |
| Binary.FourBytes | install-helpers/maps-extract-tiger-clip.py:251-301 | the first byte counts most in big-endian and the last in little-endian order |
| Shp.ScanShpOffsets | install-helpers/maps-extract-tiger-clip.py:477-488 | the cursor loop gives the specified offsets or refuses |
| Shp.ParseShxOffsets | install-helpers/maps-extract-tiger-clip.py:447-464 | accepts exactly well-headed indexes of the given count and returns their offsets |
| Shp.HeaderReadsBack | install-helpers/maps-extract-tiger-clip.py:434-444 | a printed header is read back with its shape type |
| Shp.AcceptedHeaderMeans | install-helpers/maps-extract-tiger-clip.py:434-444 | an accepted file begins with the bytes 00 00 27 0A, names its own length in 16-bit words, version 1000 and an admitted shape type |
| Shp.ShpReadsBack | install-helpers/maps-extract-tiger-clip.py:467-488 | scanning a printed file finds every record, only the right count is accepted, and record i + 1 holds content i |
| Shp.ShxReadsBack | install-helpers/maps-extract-tiger-clip.py:447-464 | the printed index names the offsets a scan finds |
| Shp.IndexAgreesWithScan | install-helpers/maps-extract-tiger-clip.py:447-488 | both ways to the offsets agree on every printed pair of files |
| Shp.ScannedRecordsTileTheFile | install-helpers/maps-extract-tiger-clip.py:467-488 | a file that scans and whose records can be read is exactly its printed records: no gap, no overlap |
| Shp.FileIsItsRecordsExactlyIfReadable | install-helpers/maps-extract-tiger-clip.py:467-488 | within the limits of the format a file is its printed records if and only if it scans and each record found can be read |
| Shp.ScanMayGoBack | install-helpers/maps-extract-tiger-clip.py:477-488 | a concrete file that scans to 100, 116, 108 although its second record has a negative size |
| Dbf.ParseFields | install-helpers/maps-extract-tiger-clip.py:256-284 | the descriptor loop gives the specified fields or refuses |
| Dbf.ParseValues | install-helpers/maps-extract-tiger-clip.py:295-301 | the value loop fills the row from the cells of the record, later fields of a name winning |
| Dbf.ParseRows | install-helpers/maps-extract-tiger-clip.py:285-302 | the record loop gives one row per record, an empty one for a deleted record |
| Dbf.ParseDbfRecords | install-helpers/maps-extract-tiger-clip.py:256-302 | the whole parser accepts and returns as specified |
| Dbf.CellsTileTheRow | install-helpers/maps-extract-tiger-clip.py:295-301 | the cells of a record are all of it, each as long as its field |
| Dbf.StripMeans | install-helpers/maps-extract-tiger-clip.py:256-302 | only space is taken off a cell, on both sides, and none is left there |
| DbfPrint.CellReadsBack | install-helpers/maps-extract-tiger-clip.py:300-300 | a text padded with blanks is read back without them |
| DbfPrint.LineReadsBack | install-helpers/maps-extract-tiger-clip.py:288-302 | a printed line is read back, live with its values or deleted and empty |
| DbfPrint.TableReadsBack | install-helpers/maps-extract-tiger-clip.py:256-302 | the parser returns every line of a printed table in its place |
| Rings.RingArea | install-helpers/maps-extract-tiger-clip.py:356-362 | the loop computes half the shoelace sum |
| Rings.ReversalNegatesArea | install-helpers/maps-extract-tiger-clip.py:356-362 | walking a ring backwards negates its area |
| Rings.TriangleArea | install-helpers/maps-extract-tiger-clip.py:356-362 | the area of a triangle is half the cross product of two sides |
| Rings.RectangleAreas | install-helpers/maps-extract-tiger-clip.py:356-362 | a rectangle walked counterclockwise has width times height as area, clockwise the negative of it |
| Rings.CloseRing | install-helpers/maps-extract-tiger-clip.py:365-372 | refuses exactly rings of fewer than three points, or of three of which the last is the first |
| Rings.RingsToGeometry | install-helpers/maps-extract-tiger-clip.py:375-393 | the grouping loop gives the specified polygons, or refuses if a ring cannot be closed |
| Rings.RingsAreConserved | install-helpers/maps-extract-tiger-clip.py:375-393 | the polygons flatten to the rings closed and reversed, in their order |
| Rings.GeometryListsRings | install-helpers/maps-extract-tiger-clip.py:390-393 | one polygon or many, the geometry lists exactly these rings |
| Rings.TurnedRingIsGeoJson | install-helpers/maps-extract-tiger-clip.py:365-384 | a closed and reversed ring has at least four positions, ends where it starts, has the negated area and the same points |
| Rings.GroupsAreOriented | install-helpers/maps-extract-tiger-clip.py:375-393 | holes are clockwise, later exteriors have non-negative area, and the first exterior has exactly if the leading ring was rightly wound |
| Rings.RectanglesAreGrouped | install-helpers/maps-extract-tiger-clip.py:375-393 | a clockwise exterior with a counterclockwise hole is one polygon of two rings, two clockwise ones are two polygons |
| PolygonRecord.ParseRings | install-helpers/maps-extract-tiger-clip.py:404-430 | accepts exactly records whose counts and part indices fit, and returns the slices |
| PolygonRecord.RingsJoinToThePoints | install-helpers/maps-extract-tiger-clip.py:423-430 | the rings of an accepted record concatenate back to its points, each with at least three |
| PolygonRecord.ShapeReadsBack | install-helpers/maps-extract-tiger-clip.py:404-430 | the rings of a printed record are read back part by part and point by point |
| Boxes.BoxIsLeast | install-helpers/maps-extract-tiger-clip.py:396-401 | the box is the least one around its points |
| Boxes.SamePointsSameBox | install-helpers/maps-extract-pbf-clip.py:288-311 | a box depends only on the set of points |
| Boxes.TurnedRingsKeepTheBox | install-helpers/maps-extract-tiger-clip.py:396-401 | closing and reversing rings keeps their box |
| Clip.SelectLockedRows | install-helpers/maps-extract-tiger-clip.py:329-353 | selects exactly if each locked county has one row, under its own name |
| Clip.RowsOfAreTheMatches | install-helpers/maps-extract-tiger-clip.py:305-315 | a row is counted for a county exactly if it carries its identifier |
| Clip.CountyNames | install-helpers/maps-extract-tiger-clip.py:318-326 | the word County is added to a name exactly where it is missing |
| Clip.CountiesAreSelected | install-helpers/maps-extract-tiger-clip.py:305-353 | a table with one row for each county, identified by its identifier or its two codes and well named, is selected from, whatever other rows it has |
| Clip.ParsePolygonContent | install-helpers/maps-extract-tiger-clip.py:404-431 | geometry and box of a usable record, a refusal for any other |
| Clip.FindOffsets | install-helpers/maps-extract-tiger-clip.py:491-498 | offsets come from the index if there is one, otherwise from a scan |
| Clip.ExtractChosen | install-helpers/maps-extract-tiger-clip.py:499-514 | the feature loop gives the specified features or refuses at the first unusable record |
| Clip.ExtractLockedFeatures | install-helpers/maps-extract-tiger-clip.py:491-518 | the whole extraction gives the two specified features or refuses |
| ShapefileRoundTrip.OffsetsReadBack | install-helpers/maps-extract-tiger-clip.py:491-498 | with or without an index, a printed file set gives the same offsets |
| ShapefileRoundTrip.FilesAreExtracted | install-helpers/maps-extract-tiger-clip.py:491-518 | from a printed file set exactly the shapes of the two selected rows are extracted, deleted rows keeping row i aligned with record i + 1; refused exactly if the rows do not single them out or a part of one cannot be closed |
| ShapefileRoundTrip.ShapeIsUsable | install-helpers/maps-extract-tiger-clip.py:404-431 | a printed shape is accepted if and only if each part has more than three points, or three of which the last is decoded differently from the first |
| ShapefileRoundTrip.ExtractedRings | install-helpers/maps-extract-tiger-clip.py:404-431 | the extracted geometry lists the decoded parts closed and reversed |
| Clipper.AdmitGeojsonFeatures | install-helpers/maps-extract-pbf-clip.py:314-349 | admits exactly the two counties in order with names, boxes and a proper common box |
| Clipper.ReadClip | install-helpers/maps-extract-pbf-clip.py:352-362 | identifiers and box of an admitted document |
| Clipper.ReadClipMeans | install-helpers/maps-extract-pbf-clip.py:314-362 | what is read names Erie and Niagara, in this order and under their names, and every box that is used has an extent |
| Clipper.WrittenGeometryKeepsTheBox | install-helpers/maps-extract-pbf-clip.py:288-311 | the box recomputed from the written coordinates is the box of the points that were read |
| Clipper.ExtractedIsCollected | install-helpers/maps-extract-tiger-clip.py:491-518 | what is extracted is made of two usable records, those found under the numbers of the counties' only rows |
| Clipper.BoxesAgree | install-helpers/maps-extract-pbf-clip.py:314-362 | of whatever files the extractor accepts, and whichever boxes its document still carries, the clipper gets the same counties and the least box around all points of the two records; it refuses exactly if that box or a carried one has no width or height |
| Telemetry.BodyGrows | install-helpers/collect-browser-vm-performance.py:739-799 | one more sample keeps the stream coherent exactly if it passes the per-sample tests |
| Telemetry.ParseRecords | install-helpers/collect-browser-vm-performance.py:709-810 | admits exactly the streams with a header, coherent samples and one terminal marker that covers them, and returns the samples in order |
| StreamPrint.StreamReadsBack | install-helpers/collect-browser-vm-performance.py:709-810 | a stream sent for an observation is admitted exactly if identity, samples and receipts are good and there are at most 4,094 samples, and is read as that observation |
| StreamPrint.AdmittedStreamIsSent | install-helpers/collect-browser-vm-performance.py:654-680 | every admitted stream is the one sent for its observation: one header, the samples, one marker with count and digest |
| StreamPrint.AdmittedObservationMeans | install-helpers/collect-browser-vm-performance.py:514-810 | from any sample to any later one time moves on and no counter goes back; each sample is plausible; the clock of the collector never goes back |
| Windows.LongestIsTheMaximum | install-helpers/collect-browser-vm-performance.py:960-1030 | the one-pass longest run equals the maximum elapsed time over all qualifying ranges |
| Windows.QuiescentEndsAreEnough | install-helpers/collect-browser-vm-performance.py:960-1004 | a range is quiescent exactly if it is hidden throughout and the repaint counter is equal at its ends |
| Windows.ActiveRunMeans | install-helpers/collect-browser-vm-performance.py:960-1004 | a burst is a range of which every interval is hidden and repainted |
| Windows.StationaryRunMeans | install-helpers/collect-browser-vm-performance.py:1007-1030 | a stationary window has one tab, one pointer position and one pointer count throughout, is connected throughout and gets frames in every interval |
| Windows.SumsCount | install-helpers/collect-browser-vm-performance.py:960-1004 | the counts are the numbers of hidden and of repainted hidden intervals |
| Windows.HiddenRepaintBehavior | install-helpers/collect-browser-vm-performance.py:960-1004 | one pass computes counts, sums and both longest runs |
| Windows.LongestStationaryVisibleWindowMs | install-helpers/collect-browser-vm-performance.py:1007-1030 | one pass computes the longest stationary visible run |
| Windows.ReconnectRecovered | install-helpers/collect-browser-vm-performance.py:1033-1044 | true exactly if a connected, a later reconnecting and a still later connected sample exist |
| Percentile.PercentileMeaning | install-helpers/collect-browser-vm-performance.py:933-937 | the percentile is one of the values, and within a limit exactly if at least 95 in 100 values are |
| Rates.CollectRates | install-helpers/collect-browser-vm-performance.py:1163-1199 | the loop collects frame rates, source rates and cadence ratios interval by interval |
| Rates.FrameRatesMeaning | install-helpers/collect-browser-vm-performance.py:1183-1200 | all frame rates reach a bound exactly if every interval showing one tab delivers that many frames a second |
| Rates.SourceRatesMeaning | install-helpers/collect-browser-vm-performance.py:1175-1180 | all source rates reach a bound exactly if every tab presents that many frames a second in every interval |
| Rates.RatiosMeaning | install-helpers/collect-browser-vm-performance.py:1189-1199 | all cadence ratios reach nine tenths exactly if each interval delivers nine tenths of the source frames or of the target |
| Rates.FloorOfMinAtLeast | install-helpers/collect-browser-vm-performance.py:1200-1201 | a floor of a minimum reaches a bound exactly if every value does |
| Rates.CadenceAtLeast | install-helpers/collect-browser-vm-performance.py:1202-1206 | the permille figure reaches 900 exactly if every ratio reaches nine tenths |
| Checks.ObservedIsSound | install-helpers/collect-browser-vm-performance.py:709-810 | an admitted stream satisfies what the assessment relies on |
| Checks.TimeMeaning | install-helpers/collect-browser-vm-performance.py:1337-1339 | the time checks mean a completed run, steady sampling and 900 s on both clocks, each name beside its criterion |
| Checks.SizeMeaning | install-helpers/collect-browser-vm-performance.py:1340-1355 | the size checks mean full resolution of every view and every tab in every sample, each name beside its criterion |
| Assessment.DeliveryMeaning | install-helpers/collect-browser-vm-performance.py:1356-1368 | the rate checks mean 27 delivered frames a second, progress of every tab and cadence, in each interval |
| Assessment.PointerMeaning | install-helpers/collect-browser-vm-performance.py:1369-1375 | the pointer checks mean no long stall, pointer progress and a stationary run of five minutes |
| Assessment.LatencyMeaning | install-helpers/collect-browser-vm-performance.py:1376-1400 | the latency checks mean 15 values, 95 in 100 within 100 ms and all within 250 ms |
| Assessment.LoadMeaning | install-helpers/collect-browser-vm-performance.py:1401-1415 | the load checks mean a partial upload in some visible interval, no fewer rectangles than uploads over the visible intervals, and host figures in nine of ten samples |
| Assessment.UploadsMeaning | install-helpers/collect-browser-vm-performance.py:1401-1415 | the running sum of visible uploads is positive if and only if some single visible interval has one |
| Assessment.HiddenMeaning | install-helpers/collect-browser-vm-performance.py:1416-1432 | the hidden checks mean no burst over 20 s, at most one active interval in twenty and five quiet minutes |
| Assessment.ConnectionMeaning | install-helpers/collect-browser-vm-performance.py:1433-1442 | the connection checks mean a counted and observed recovery and no failed sample |
| Assessment.TableMeaning | install-helpers/collect-browser-vm-performance.py:1314-1443 | the whole table is met exactly if all criteria hold, and each of its names stands for its own criterion |
| Assessment.Assess | install-helpers/collect-browser-vm-performance.py:1093-1445 | the names of the criteria that are not met, in order; none exactly if all hold in terms of intervals, ranges and samples |
| Assessment.RunDelivers | install-helpers/collect-browser-vm-performance.py:1183-1200 | per-interval rates add up over a stationary run |
| Assessment.PassingMeans | install-helpers/collect-browser-vm-performance.py:1093-1445 | a pass means 91 samples, 900 s on both clocks, 8,100 frames inside one stationary window, 900 frames from every tab and five hidden minutes without a repaint |
| Assessment.PassingHasNoGap | install-helpers/collect-browser-vm-performance.py:1314-1339 | and no two neighbouring samples are further apart than 10 s on one clock and 15 s on the other |
| SteadyRun.SteadyRunPasses | install-helpers/collect-browser-vm-performance.py:1093-1445 | for every good identity a concrete run of 91 samples is sound, is admitted as a stream, is read back as itself and meets every criterion |
| LineReader.TakeLines | install-helpers/maps-raster-styled-pbf-mbtiles.py:587-597 | the inner loop takes all complete lines off the buffer |
| LineReader.StripMeans | install-helpers/maps-raster-styled-pbf-mbtiles.py:587-600 | only blanks are taken off a line, on both sides, and none is left there |
| LineReader.DropMeans | install-helpers/maps-raster-styled-pbf-mbtiles.py:587-600 | record separators in front of the text are taken off, and nothing else |
| LineReader.MoreInput | install-helpers/maps-raster-styled-pbf-mbtiles.py:582-588 | more input never changes complete lines, it continues the rest |
| LineReader.ReadFeatures | install-helpers/maps-raster-styled-pbf-mbtiles.py:576-607 | for every cut into chunks the reader yields the documents of the whole stream, the unterminated last line included |
| LineReader.SequenceReadsBack | install-helpers/maps-raster-styled-pbf-mbtiles.py:576-607 | a GeoJSON text sequence is read back text by text |
| TileCover.RectangleIsFull | install-helpers/maps-raster-styled-pbf-mbtiles.py:330-330 | the list is the full rectangle without repetition |
| TileCover.CoverCovers | install-helpers/maps-raster-styled-pbf-mbtiles.py:315-330 | for every monotone projection the cover is a duplicate-free rectangle inside the zoom square that has the tile of every point of the box |
| TileCover.CropsPartitionTheCanvas | install-helpers/maps-raster-styled-pbf-mbtiles.py:744-751 | each pixel of the canvas is in the crop box of exactly one tile, and no crop box leaves the canvas |
| TileCover.TmsFlipIsABijection | install-helpers/maps-raster-styled-pbf-mbtiles.py:311-312 | the row flip is its own inverse and injective |
| TileCover.TmsRowsRunNorth | install-helpers/maps-raster-styled-pbf-mbtiles.py:311-312 | row and TMS row add up to the last row of the level, so further north is further up |
| Mbtiles.CanvasIsTheRectangle | install-helpers/maps-raster-styled-pbf-mbtiles.py:690-697 | origin and size of the canvas are those of the rectangle of tiles |
| Mbtiles.CropTiles | install-helpers/maps-raster-styled-pbf-mbtiles.py:744-751 | the crop loop encodes the cut of the canvas for each tile in order, and refuses a picture that is no PNG |
| Mbtiles.PillowRaster | install-helpers/maps-raster-styled-pbf-mbtiles.py:661-767 | the zoom loop gives the specified entries, cut from one canvas a level, or refuses when a bound is exceeded or the export has no styled feature |
| Mbtiles.WriteMbtiles | install-helpers/maps-raster-styled-pbf-mbtiles.py:770-824 | writes exactly what has the approved format, provider, licence and name, an admitted attribution, a proper box and 1 to 2,048 distinct PNG tiles |
| Mbtiles.WrittenTableMeans | install-helpers/maps-raster-styled-pbf-mbtiles.py:770-824 | what is written was rendered as PNG by the approved provider under its licence, for a box with an extent, each tile once |
| Mbtiles.InspectRasterMbtiles | install-helpers/maps-raster-styled-pbf-mbtiles.py:827-919 | admits exactly tables with admitted metadata and the right tiles, and reports count and zoom range |
| Mbtiles.InspectedTableMeans | install-helpers/maps-raster-styled-pbf-mbtiles.py:827-919 | an inspected table holds 1 to 2,048 different PNG tiles of its declared levels, each inside the square of its level, and approved labels |
| Mbtiles.ProducerSatisfiesInspector | install-helpers/maps-raster-styled-pbf-mbtiles.py:827-919 | whatever the rasterizer emits is written if its attribution is an admitted text, and admitted in any row order, with its count and zoom range, exactly if all metadata are admitted texts |
| Mbtiles.EveryPointHasATile | install-helpers/maps-raster-styled-pbf-mbtiles.py:680-751 | every point of the box has its tile at every zoom level of the table |
| Mbtiles.TableIsUpright | install-helpers/maps-raster-styled-pbf-mbtiles.py:744-751 | of two points of the box the one further north never has the smaller row, and the same row only in the same tile |
| Mbtiles.RowsAddUp | install-helpers/maps-raster-styled-pbf-mbtiles.py:744-751 | every entry was made from the tile of the cover whose row adds up with its own to the last row |
| Mbtiles.RefusedExactlyIf | install-helpers/maps-raster-styled-pbf-mbtiles.py:683-697 | the bounds kept level by level refuse exactly if all tiles together are more than 2,048 or some level cannot be drawn on one canvas and encoded |
| Mbtiles.MosaicIsTheCanvas | install-helpers/maps-raster-styled-pbf-mbtiles.py:680-751 | if pictures can be decoded, every pixel of every canvas is shown, in its place, by the picture of the one entry that is stored for its tile |
| Mbtiles.PointIsOnTheCanvas | install-helpers/maps-raster-styled-pbf-mbtiles.py:641-650 | a point of the box inside the zoom square is projected to a pixel of the canvas that lies in the crop box of its own tile |
| Lifecycle.Document.ResolveTrustedLan | install-helpers/mde-remote-proofing-apply.py:506-534 | resolution rewrites bind address, source, permissions, blockers, notes, degradation and resolved network as specified, and only for the trusted network with a gateway |
| Lifecycle.ResolutionClearsTheWay | install-helpers/mde-remote-proofing-apply.py:506-534 | a resolved contract has no blocker, may be applied and started, lets in the resolved network only, and is degraded exactly if there is a warning |
| Lifecycle.DesiredFirewallRules | install-helpers/mde-remote-proofing-apply.py:557-570 | the rule loop lists exactly the desired rules |
| Lifecycle.RuleTextsDiffer | install-helpers/mde-remote-proofing-apply.py:552-554 | different rules have different rich-rule texts, so the recorded sets of texts are sets of rules |
| Lifecycle.TextOfPieces | install-helpers/mde-remote-proofing-apply.py:552-554 | cut at its quotation marks, the text of a rule carries family, source if there is one, port and protocol in this order |
| Lifecycle.AppliedContractNamesItsSource | install-helpers/mde-remote-proofing-apply.py:276-371 | every contract the builders allow to be applied has exactly one, non-empty source, so the rule set without sources is unreachable |
| Lifecycle.OpenRuleMeansOpenSource | install-helpers/mde-remote-proofing-apply.py:552-570 | a rule without source clause is desired exactly for public exposure, or if the mesh or resolved local network is given as the whole address space |
| Lifecycle.SettingsDecideTheRules | install-helpers/mde-remote-proofing-apply.py:198-371 | from settings and network facts to the rules: whoever is let in gets four TCP ports and one UDP range, and nobody gets any other rule |
| Lifecycle.SettingsDecideTheStart | install-helpers/mde-remote-proofing-apply.py:276-371 | the service may start exactly if somebody is let in and the mesh address, where it is needed, is known; it then listens there |
| Lifecycle.WarningsMean | install-helpers/mde-remote-proofing-apply.py:198-260 | each warning is given exactly on its own occasion |
| Lifecycle.SettingsDecideTheStates | install-helpers/mde-remote-proofing-apply.py:276-371 | the states asked of service and firewall, and degradation, follow from the settings and from whether the service may start |
| Firewall.Zone.RemoveAll | install-helpers/mde-remote-proofing-apply.py:750-759 | all removals are tried; the rules whose command works are gone |
| Firewall.Zone.AddAll | install-helpers/mde-remote-proofing-apply.py:760-769 | all additions are tried; the rules whose command works are there |
| Firewall.Zone.Reconcile | install-helpers/mde-remote-proofing-apply.py:728-784 | permanent rules and state file after one run, the commands issued and the reported success; after each command the zone is as after a run stopped there, so what holds for failing runs holds for stopped ones |
| Firewall.RunAccounts | install-helpers/mde-remote-proofing-apply.py:734-777 | what a run leaves unrepaired: a completed one forgets extra rules that are unwanted and lost rules that are wanted, a failed or stopped one adds to both |
| Firewall.ConvergesExactlyIf | install-helpers/mde-remote-proofing-apply.py:734-777 | a run that completes converges if and only if every extra rule is wanted and no lost rule is |
| Firewall.WorkingRunsConverge | install-helpers/mde-remote-proofing-apply.py:728-784 | while rule commands and the writing of the state file work, any sequence of desired sets leaves the foreign rules and the last desired ones, as recorded, whether or not reloads work |
| Firewall.RetriesConverge | install-helpers/mde-remote-proofing-apply.py:728-784 | retries of one desired set converge after any number of partial failures and stops, the state file unwritten included |
| Firewall.RunAgain | install-helpers/mde-remote-proofing-apply.py:739-741 | once settled, a rerun issues no command and changes nothing |
| Firewall.ChangeOfMind | install-helpers/mde-remote-proofing-apply.py:734-777 | after a partial failure or a stop and a change of the desired set the next run converges if and only if nothing it added is unwanted and nothing it removed is wanted; no later run repairs the rest |
| Firewall.AnOpenedRuleMayStay | install-helpers/mde-remote-proofing-apply.py:770-777 | a concrete case: a rule opened by a failed run stays open after the setting is switched off |

## Left out

- Execution of foreign programs (SSH, HTTP, SQLite, Pillow, osmium, rpm, gpg, openssl, `nebula-cert`, `etcdctl`,
  `firewall-cmd`, `systemctl`): their answers are parameters.
- JSON lexing, canonical JSON of whole documents and their byte limits, base64 and argument parsing: the model starts
  from decoded records.
- Refusal texts: a refusal is `None` or, for the guard, its exit code.
- Cryptographic strength: digests and keyed digests are terms or collision-free functions.
- File modes, ownership, open flags, `fsync` and the symlink checks on the paths above import roots.
- Case folding and whitespace beyond ASCII and Latin-1.
- Floating-point rounding, infinities and NaN: coordinates, receipt times and rates are exact reals.
- The Mercator formula: the projection is any monotone function.
- AtomicFile.Directory.AtomicWrite: does not model that a crash may lose unsynced data; every call order is kept.
- GuestImport.Guest.Import: does not model a link inside a destination root that leads back into another one; a path
  through a link is refused after the parents are made.
- GuestImport.Guest.ImportEntry: does not model the name of the temporary sibling, only its content and removal, nor how
  much of it is written when a copy fails.
- Publish.Parent.Replace: does not model reuse of an inode number between the first look at the output and its opening,
  nor changes inside a directory; identity is the inode number.
- Migration.Migrate: leaves publication and the checks of the paths to `Publish.Parent.Migrate`.
- Publish.Parent.Migrate: does not model the mode that is set on the published directory, nor a failure to set it.
- Claims.AdmittedClaimIsShort: states the bound for the canonical form of the decoded claim, the text the guard
  measures.
- Clip.ExtractLockedFeatures: does not model the zip container and the pairing of its members.
- Telemetry.ParseRecords: models the live protocol; the fixture protocol, the field-set checks and the header's fixed
  texts and UUIDs are left out.
- Assessment.Assess: leaves out the three checks of protocol, challenge and runtime identity, which an admitted live
  stream always meets, and figures that are reported but not checked.
- Mbtiles.PillowRaster: does not model drawing and PNG encoding; an artist fills each canvas, an encoder turns each cut
  into bytes, and the number of styled features is given.
- Mbtiles.InspectRasterMbtiles: leaves out the file's digest, mode and table names; the rule for metadata texts is a
  parameter, and zoom metadata are plain digits.
- Lifecycle.DesiredFirewallRules: lists rules as records of port, protocol and source; `Lifecycle.RichRule` is their
  text.
- Lifecycle.Document.ResolveTrustedLan: the answers of the routing commands are a parameter.
- Lifecycle.OpenRuleMeansOpenSource: settings that do not bear on the firewall (capture, encoder, frame rate, pairing
  prompt, fallback) appear only through the warnings that are given.
- Firewall.Zone.Reconcile: does not model runtime rules, nor the order of commands among the removals and among the
  additions.
- Feature extraction, drawing styles, sidecars and receipts of the map programs; the Sunshine service control; topology,
  Surface and release collectors: near-duplicates or straight-line record building.
