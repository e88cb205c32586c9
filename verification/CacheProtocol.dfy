/**
  The claim cache as a transition system: any number of producer executions and guards, crashes, reboots, a clock that
  may jump, and an environment that may put back or replace either file with anything it can authenticate or that
  carries no valid tag.
*/
module CacheProtocol {
  import opened Wrappers
  import opened Claims
  import opened Materializer
  import opened Guard
  import opened Agreement

  /** One execution of the producer, from the sealing of its evidence on. */
  datatype Execution = Execution(
    boot: BootId, source: Source, claims: seq<Entry>, generated: int, validitySeconds: int,
    wroteSnapshot: bool, wroteCommitment: bool, alive: bool)

  datatype Verdict = Undecided | Refused(code: ExitCode)
    | Safe(evidence: Evidence, boot: BootId, now: int, maxAgeMs: int)

  /** One execution of the guard; its two reads happen in separate steps. */
  datatype Watch = Watch(
    boot: BootId, host: Claim, snapshot: Option<Option<File>>, commitment: Option<Option<File>>,
    verdict: Verdict, alive: bool)

  /** `disk` survives a reboot, `volatile` does not. The two `last` fields record who wrote them last. */
  datatype World = World(
    key: Secret, boot: BootId, clock: int, disk: Option<File>, volatile: Option<File>,
    executions: seq<Execution>, watches: seq<Watch>, lastSnapshot: Option<nat>, lastCommitment: Option<nat>)

  datatype Event =
    | Prepare(source: Source, claims: seq<Entry>, validitySeconds: int)
    | PublishSnapshot(i: nat)
    | PublishCommitment(i: nat)
    | Crash(i: nat)
    | Reboot
    | Tick(now: int)
    | ReplaceSnapshot(file: Option<File>)
    | ReplaceCommitment(file: Option<File>)
    | StartWatch(host: Claim)
    | ReadSnapshot(g: nat)
    | ReadCommitment(g: nat)
    | Conclude(g: nat, maxAgeMs: int)

  ghost predicate ValidExecution(x: Execution) {
    FromRange(x.source, x.claims) && 1 <= x.validitySeconds <= MAX_VALIDITY_SECONDS
  }

  ghost predicate AllValid(executions: seq<Execution>) {
    forall i :: 0 <= i < |executions| ==> ValidExecution(executions[i])
  }

  function SnapshotBy(key: Secret, x: Execution): (s: Snapshot)
    ensures s.source.Some?
  {
    MakeSnapshot(key, x.boot, x.source, x.claims, x.generated, x.validitySeconds)
  }

  /** The tags that have left a producer: one per file actually written. */
  predicate WrittenBy(key: Secret, x: Execution, m: Mac) {
    || (x.wroteSnapshot && m == Mac(SnapshotDomain, key, SnapshotBody(SnapshotBy(key, x))))
    || (x.wroteCommitment && m == Mac(CommitmentDomain, key, CommitmentBody(MakeCommitment(key, SnapshotBy(key, x)))))
  }

  predicate Released(key: Secret, executions: seq<Execution>, m: Mac) {
    exists i :: 0 <= i < |executions| && WrittenBy(key, executions[i], m)
  }

  /** A file without a valid file tag, or one whose tag some producer has released: all the environment can place. */
  predicate Known(key: Secret, executions: seq<Execution>, f: Option<File>) {
    f.Some? && f.value.Envelope? && f.value.tag.MacText? && f.value.tag.mac.key == key
    && f.value.tag.mac.domain != BootDomain
    ==> Released(key, executions, f.value.tag.mac)
  }

  ghost predicate Enabled(w: World, e: Event) {
    match e
    case Prepare(source, claims, validity) =>
      FromRange(source, claims) && 1 <= validity <= MAX_VALIDITY_SECONDS
    case PublishSnapshot(i) => i < |w.executions| && w.executions[i].alive && !w.executions[i].wroteSnapshot
    case PublishCommitment(i) =>
      && i < |w.executions| && w.executions[i].alive
      && w.executions[i].wroteSnapshot && !w.executions[i].wroteCommitment
    case Crash(i) => i < |w.executions|
    case ReplaceSnapshot(f) => Known(w.key, w.executions, f)
    case ReplaceCommitment(f) => Known(w.key, w.executions, f)
    case ReadSnapshot(g) => g < |w.watches| && w.watches[g].alive && w.watches[g].snapshot.None?
    case ReadCommitment(g) =>
      && g < |w.watches| && w.watches[g].alive
      && w.watches[g].snapshot.Some? && w.watches[g].commitment.None?
    case Conclude(g, maxAge) =>
      && g < |w.watches| && w.watches[g].alive
      && w.watches[g].snapshot.Some? && w.watches[g].commitment.Some? && w.watches[g].verdict.Undecided?
    case _ => true
  }

  ghost function Update(w: World, i: nat, x: Execution): World
    requires i < |w.executions|
  {
    w.(executions := w.executions[i := x])
  }

  ghost function Conclusion(w: World, g: Watch, maxAgeMs: int): Verdict
    requires g.snapshot.Some? && g.commitment.Some?
  {
    match Decide(w.key, BootAttestation(w.key, g.boot), g.host, g.snapshot.value, g.commitment.value, w.clock, maxAgeMs)
    case Ok(evidence) => Safe(evidence, w.boot, w.clock, maxAgeMs)
    case Err(code) => Refused(code)
  }

  ghost function Next(w: World, e: Event): World
    requires Enabled(w, e)
  {
    match e
    case Prepare(source, claims, validity) =>
      w.(executions := w.executions + [Execution(w.boot, source, claims, w.clock, validity, false, false, true)])
    case PublishSnapshot(i) =>
      Update(w, i, w.executions[i].(wroteSnapshot := true))
        .(disk := Some(SnapshotFile(w.key, SnapshotBy(w.key, w.executions[i]))), lastSnapshot := Some(i))
    case PublishCommitment(i) =>
      Update(w, i, w.executions[i].(wroteCommitment := true))
        .(volatile := Some(CommitmentFile(w.key, SnapshotBy(w.key, w.executions[i]))), lastCommitment := Some(i))
    case Crash(i) => Update(w, i, w.executions[i].(alive := false))
    case Reboot =>
      w.(boot := w.boot + 1, volatile := None, lastCommitment := None,
         executions := seq(|w.executions|, i requires 0 <= i < |w.executions| => w.executions[i].(alive := false)),
         watches := seq(|w.watches|, i requires 0 <= i < |w.watches| => w.watches[i].(alive := false)))
    case Tick(now) => w.(clock := now)
    case ReplaceSnapshot(f) => w.(disk := f, lastSnapshot := None)
    case ReplaceCommitment(f) => w.(volatile := f, lastCommitment := None)
    case StartWatch(host) => w.(watches := w.watches + [Watch(w.boot, host, None, None, Undecided, true)])
    case ReadSnapshot(g) => w.(watches := w.watches[g := w.watches[g].(snapshot := Some(w.disk))])
    case ReadCommitment(g) => w.(watches := w.watches[g := w.watches[g].(commitment := Some(w.volatile))])
    case Conclude(g, maxAge) =>
      w.(watches := w.watches[g := w.watches[g].(verdict := Conclusion(w, w.watches[g], maxAge))])
  }

  ghost predicate Initial(w: World) {
    w.disk.None? && w.volatile.None? && w.executions == [] && w.watches == [] && w.lastSnapshot.None?
      && w.lastCommitment.None?
  }

  // ---------- which pairs of files the guard accepts

  /** Execution `x` alone wrote both files, in this boot, and the clock reading is inside both windows. */
  ghost predicate Justifies(key: Secret, x: Execution, snapshot: Option<File>, commitment: Option<File>, boot: BootId,
                            host: Claim, now: int, maxAgeMs: int, evidence: Evidence) {
    && ValidExecution(x) && x.wroteSnapshot && x.wroteCommitment
    && snapshot == Some(SnapshotFile(key, SnapshotBy(key, x)))
    && commitment == Some(CommitmentFile(key, SnapshotBy(key, x)))
    && Fresh(x.boot, x.generated, x.validitySeconds, boot, now, maxAgeMs)
    && x.source.revision.Int? && EachValid(x.claims, x.source.revision.i)
    && evidence == Evidence(x.source.revision.i, ClaimsOf(x.claims, x.source.revision.i), x.generated)
    && NoCollision(host, evidence.claims)
  }

  ghost predicate Justified(key: Secret, executions: seq<Execution>, snapshot: Option<File>, commitment: Option<File>,
                            boot: BootId, host: Claim, now: int, maxAgeMs: int, evidence: Evidence) {
    exists i :: 0 <= i < |executions|
      && Justifies(key, executions[i], snapshot, commitment, boot, host, now, maxAgeMs, evidence)
  }

  ghost predicate SnapshotFirst(executions: seq<Execution>) {
    forall i :: 0 <= i < |executions| && executions[i].wroteCommitment ==> executions[i].wroteSnapshot
  }

  /** The authors of an authenticated pair are one and the same execution. */
  lemma OneAuthor(key: Secret, executions: seq<Execution>, snapshot: File, commitment: File) returns (i: nat)
    requires SnapshotFirst(executions)
    requires Known(key, executions, Some(snapshot)) && Known(key, executions, Some(commitment))
    requires VerifyEnvelope(snapshot, SNAPSHOT_SCHEMA, SnapshotDomain, key).Ok? && snapshot.body.SnapshotBody?
    requires VerifyEnvelope(commitment, COMMITMENT_SCHEMA, CommitmentDomain, key).Ok? && commitment.body.CommitmentBody?
    requires commitment.body.commitment.snapshotTag == snapshot.tag
    ensures i < |executions| && executions[i].wroteSnapshot && executions[i].wroteCommitment
    ensures snapshot == SnapshotFile(key, SnapshotBy(key, executions[i]))
    ensures commitment == CommitmentFile(key, SnapshotBy(key, executions[i]))
  {
    i :| 0 <= i < |executions| && WrittenBy(key, executions[i], commitment.tag.mac);
    assert commitment.body == CommitmentBody(MakeCommitment(key, SnapshotBy(key, executions[i])));
    assert snapshot.body == SnapshotBody(SnapshotBy(key, executions[i]));
  }

  /**
    Among all files that can ever stand at the two paths, the guard accepts exactly the pairs written by one producer
    execution of the current boot, while they are fresh and collide with nothing.
  */
  lemma AcceptedExactlyIfJustified(key: Secret, executions: seq<Execution>, snapshot: Option<File>,
                                   commitment: Option<File>, boot: BootId, host: Claim, now: int, maxAgeMs: int,
                                   evidence: Evidence)
    requires AllValid(executions) && SnapshotFirst(executions)
    requires Known(key, executions, snapshot) && Known(key, executions, commitment)
    ensures Decide(key, BootAttestation(key, boot), host, snapshot, commitment, now, maxAgeMs) == Ok(evidence)
       <==> Justified(key, executions, snapshot, commitment, boot, host, now, maxAgeMs, evidence)
  {
    var verdict := Decide(key, BootAttestation(key, boot), host, snapshot, commitment, now, maxAgeMs);
    if verdict == Ok(evidence) {
      var i := OneAuthor(key, executions, snapshot.value, commitment.value);
      var x := executions[i];
      ProducerGuardAgreement(x.source, x.claims, key, x.boot, x.generated, x.validitySeconds, boot, now, maxAgeMs,
        host);
      assert Justifies(key, x, snapshot, commitment, boot, host, now, maxAgeMs, evidence);
    }
    if Justified(key, executions, snapshot, commitment, boot, host, now, maxAgeMs, evidence) {
      var i :| 0 <= i < |executions|
        && Justifies(key, executions[i], snapshot, commitment, boot, host, now, maxAgeMs, evidence);
      var x := executions[i];
      ProducerGuardAgreement(x.source, x.claims, key, x.boot, x.generated, x.validitySeconds, boot, now, maxAgeMs,
        host);
    }
  }

  // ---------- the invariant of all runs

  ghost predicate WatchInvariant(key: Secret, executions: seq<Execution>, g: Watch) {
    && (g.snapshot.Some? ==> Known(key, executions, g.snapshot.value))
    && (g.commitment.Some? ==> Known(key, executions, g.commitment.value))
    && (g.verdict.Safe? ==>
      && g.snapshot.Some? && g.commitment.Some?
      && Justified(key, executions, g.snapshot.value, g.commitment.value, g.verdict.boot, g.host,
                   g.verdict.now, g.verdict.maxAgeMs, g.verdict.evidence))
  }

  ghost predicate Invariant(w: World) {
    && AllValid(w.executions) && SnapshotFirst(w.executions)
    && Known(w.key, w.executions, w.disk) && Known(w.key, w.executions, w.volatile)
    && (forall i :: 0 <= i < |w.executions| && w.executions[i].alive ==> w.executions[i].boot == w.boot)
    && forall g :: 0 <= g < |w.watches| ==>
         WatchInvariant(w.key, w.executions, w.watches[g]) && (w.watches[g].alive ==> w.watches[g].boot == w.boot)
  }

  /** What a step may do to the executions: add some, and raise the flags of others. */
  ghost predicate Extends(before: seq<Execution>, after: seq<Execution>) {
    && |before| <= |after|
    && forall i :: 0 <= i < |before| ==>
         && after[i].(wroteSnapshot := true, wroteCommitment := true, alive := true)
            == before[i].(wroteSnapshot := true, wroteCommitment := true, alive := true)
         && (before[i].wroteSnapshot ==> after[i].wroteSnapshot)
         && (before[i].wroteCommitment ==> after[i].wroteCommitment)
  }

  lemma KnowledgeGrows(key: Secret, before: seq<Execution>, after: seq<Execution>, f: Option<File>)
    requires Extends(before, after) && Known(key, before, f)
    ensures Known(key, after, f)
  {
    if f.Some? && f.value.Envelope? && f.value.tag.MacText? && Released(key, before, f.value.tag.mac) {
      var m := f.value.tag.mac;
      var i :| 0 <= i < |before| && WrittenBy(key, before[i], m);
      assert SnapshotBy(key, after[i]) == SnapshotBy(key, before[i]);
      assert WrittenBy(key, after[i], m);
    }
  }

  lemma WatchKeepsInvariant(key: Secret, before: seq<Execution>, after: seq<Execution>, g: Watch)
    requires Extends(before, after) && WatchInvariant(key, before, g)
    ensures WatchInvariant(key, after, g)
  {
    if g.snapshot.Some? {
      KnowledgeGrows(key, before, after, g.snapshot.value);
    }
    if g.commitment.Some? {
      KnowledgeGrows(key, before, after, g.commitment.value);
    }
    if g.verdict.Safe? {
      var v := g.verdict;
      var i :| 0 <= i < |before| && Justifies(key, before[i], g.snapshot.value, g.commitment.value, v.boot, g.host,
                                             v.now, v.maxAgeMs, v.evidence);
      assert SnapshotBy(key, after[i]) == SnapshotBy(key, before[i]);
      assert Justifies(key, after[i], g.snapshot.value, g.commitment.value, v.boot, g.host,
                       v.now, v.maxAgeMs, v.evidence);
    }
  }

  lemma WorldKeepsInvariant(w: World, after: seq<Execution>)
    requires Invariant(w) && Extends(w.executions, after) && AllValid(after) && SnapshotFirst(after)
    requires forall i :: 0 <= i < |after| && after[i].alive ==> after[i].boot == w.boot
    ensures Invariant(w.(executions := after))
  {
    KnowledgeGrows(w.key, w.executions, after, w.disk);
    KnowledgeGrows(w.key, w.executions, after, w.volatile);
    forall g | 0 <= g < |w.watches| ensures WatchInvariant(w.key, after, w.watches[g]) {
      WatchKeepsInvariant(w.key, w.executions, after, w.watches[g]);
    }
  }

  lemma RebootKeepsInvariant(w: World)
    requires Invariant(w)
    ensures Invariant(Next(w, Reboot))
  {
    var after := Next(w, Reboot).executions;
    forall i | 0 <= i < |after| ensures ValidExecution(after[i]) {
      assert ValidExecution(w.executions[i]);
    }
    KnowledgeGrows(w.key, w.executions, after, w.disk);
    forall g | 0 <= g < |w.watches| ensures WatchInvariant(w.key, after, w.watches[g]) {
      WatchKeepsInvariant(w.key, w.executions, after, w.watches[g]);
    }
  }

  lemma ExecutionStepKeepsInvariant(w: World, e: Event)
    requires Invariant(w) && Enabled(w, e) && (e.Prepare? || e.Crash?)
    ensures Invariant(Next(w, e))
  {
    hide Known, WatchInvariant, Conclusion, SnapshotBy, SnapshotFile, CommitmentFile, FromRange;
    WorldKeepsInvariant(w, Next(w, e).executions);
  }

  lemma PublishRaisesAFlag(w: World, e: Event)
    requires Invariant(w) && Enabled(w, e) && (e.PublishSnapshot? || e.PublishCommitment?)
    ensures Invariant(w.(executions := Next(w, e).executions))
  {
    hide Known, WatchInvariant, Conclusion, SnapshotBy, SnapshotFile, CommitmentFile, FromRange;
    WorldKeepsInvariant(w, Next(w, e).executions);
  }

  /** The flags of an execution do not show in its evidence. */
  lemma SameEvidenceAfter(key: Secret, x: Execution, y: Execution)
    requires y.(wroteSnapshot := true, wroteCommitment := true, alive := true)
          == x.(wroteSnapshot := true, wroteCommitment := true, alive := true)
    ensures SnapshotBy(key, y) == SnapshotBy(key, x)
  {}

  /** Publishing a file releases its tag, so the file now at the path is known. */
  lemma PublishKeepsInvariant(w: World, e: Event)
    requires Invariant(w) && Enabled(w, e) && (e.PublishSnapshot? || e.PublishCommitment?)
    ensures Invariant(Next(w, e))
  {
    hide WatchInvariant, Conclusion, AllValid, SnapshotFirst, SnapshotBy;
    var after := Next(w, e).executions;
    PublishRaisesAFlag(w, e);
    assert SnapshotBy(w.key, after[e.i]) == SnapshotBy(w.key, w.executions[e.i]) by {
      SameEvidenceAfter(w.key, w.executions[e.i], after[e.i]);
    }
    if e.PublishSnapshot? {
      assert WrittenBy(w.key, after[e.i], Next(w, e).disk.value.tag.mac);
    } else {
      assert WrittenBy(w.key, after[e.i], Next(w, e).volatile.value.tag.mac);
    }
  }

  lemma WatchStepKeepsInvariant(w: World, e: Event)
    requires Invariant(w) && Enabled(w, e) && (e.ReadSnapshot? || e.ReadCommitment? || e.Conclude?)
    ensures Invariant(Next(w, e))
  {
    var g := w.watches[e.g];
    if e.Conclude? {
      var verdict := Conclusion(w, g, e.maxAgeMs);
      if verdict.Safe? {
        AcceptedExactlyIfJustified(w.key, w.executions, g.snapshot.value, g.commitment.value, g.boot, g.host,
                                   w.clock, e.maxAgeMs, verdict.evidence);
      }
    }
    assert WatchInvariant(w.key, w.executions, Next(w, e).watches[e.g]);
  }

  lemma StepKeepsInvariant(w: World, e: Event)
    requires Invariant(w) && Enabled(w, e)
    ensures Invariant(Next(w, e))
  {
    if e.Reboot? {
      RebootKeepsInvariant(w);
    } else if e.Prepare? || e.Crash? {
      ExecutionStepKeepsInvariant(w, e);
    } else if e.PublishSnapshot? || e.PublishCommitment? {
      PublishKeepsInvariant(w, e);
    } else if e.ReadSnapshot? || e.ReadCommitment? || e.Conclude? {
      WatchStepKeepsInvariant(w, e);
    }
  }

  // ---------- runs

  /** One event; an event that is not enabled does nothing. */
  ghost function Step(w: World, e: Event): World {
    if Enabled(w, e) then Next(w, e) else w
  }

  ghost function Run(start: World, events: seq<Event>): World {
    if events == [] then start else Step(Run(start, events[..|events| - 1]), events[|events| - 1])
  }

  lemma {:induction false} EveryRunKeepsInvariant(start: World, events: seq<Event>)
    requires Initial(start)
    ensures Invariant(Run(start, events))
  {
    if events == [] {
    } else {
      var w := Run(start, events[..|events| - 1]);
      EveryRunKeepsInvariant(start, events[..|events| - 1]);
      if Enabled(w, events[|events| - 1]) {
        StepKeepsInvariant(w, events[|events| - 1]);
      }
    }
  }

  /**
    Safety over every run: whenever a guard has said safe, one producer execution, in the very boot in which the guard
    concluded, wrote both files the guard had read, and the clock reading was inside the age and skew windows.
  */
  lemma SafeVerdictsAreJustified(start: World, events: seq<Event>, g: nat) returns (i: nat)
    requires Initial(start)
    requires g < |Run(start, events).watches| && Run(start, events).watches[g].verdict.Safe?
    ensures var w := Run(start, events); var watch, v := w.watches[g], w.watches[g].verdict;
      && i < |w.executions| && ValidExecution(w.executions[i])
      && var x := w.executions[i];
         && x.boot == v.boot && x.wroteSnapshot && x.wroteCommitment
         && watch.snapshot == Some(Some(SnapshotFile(w.key, SnapshotBy(w.key, x))))
         && watch.commitment == Some(Some(CommitmentFile(w.key, SnapshotBy(w.key, x))))
         && x.generated - MAX_CLOCK_SKEW_MS <= v.now <= x.generated + 1000 * x.validitySeconds
         && v.now - x.generated <= v.maxAgeMs
         && x.source.revision.Int? && EachValid(x.claims, x.source.revision.i)
         && v.evidence == Evidence(x.source.revision.i, ClaimsOf(x.claims, x.source.revision.i), x.generated)
         && NoCollision(watch.host, v.evidence.claims)
  {
    EveryRunKeepsInvariant(start, events);
    var w := Run(start, events);
    var watch, v := w.watches[g], w.watches[g].verdict;
    assert WatchInvariant(w.key, w.executions, watch);
    i :| 0 <= i < |w.executions| && Justifies(w.key, w.executions[i], watch.snapshot.value, watch.commitment.value,
                                              v.boot, watch.host, v.now, v.maxAgeMs, v.evidence);
  }

  // ---------- interleaved writers

  /** The steps of producers, guards, the clock and reboots: everything but a replaced file. */
  predicate Quiet(e: Event) {
    !e.ReplaceSnapshot? && !e.ReplaceCommitment?
  }

  /** The stored pair passes both authentications and the commitment check. */
  ghost predicate CommitmentHolds(w: World) {
    && w.disk.Some? && w.volatile.Some?
    && VerifyEnvelope(w.disk.value, SNAPSHOT_SCHEMA, SnapshotDomain, w.key).Ok?
    && VerifyEnvelope(w.volatile.value, COMMITMENT_SCHEMA, CommitmentDomain, w.key).Ok?
    && w.disk.value.body.SnapshotBody? && w.volatile.value.body.CommitmentBody?
    && var s := w.disk.value.body.snapshot;
       && s.source.Some? && s.source.value.revision.Int? && s.generatedAt.Int?
       && VerifyCommitment(w.volatile.value.body.commitment, w.disk.value.tag, BootAttestation(w.key, w.boot),
                           s.source.value.revision.i, s.generatedAt.i).Ok?
  }

  /** Whoever is alive is of this boot. */
  ghost predicate Timed(executions: seq<Execution>, boot: BootId) {
    forall i :: 0 <= i < |executions| ==>
      executions[i].source.revision.Int? && (executions[i].alive ==> executions[i].boot == boot)
  }

  /** The files are those of their last writers. A commitment is of this boot, a snapshot may be older. */
  ghost predicate LastWriters(w: World) {
    && Timed(w.executions, w.boot)
    && (w.lastSnapshot.None? ==> w.disk.None?)
    && (w.lastCommitment.None? ==> w.volatile.None?)
    && (w.lastSnapshot.Some? ==>
      && w.lastSnapshot.value < |w.executions|
      && w.disk == Some(SnapshotFile(w.key, SnapshotBy(w.key, w.executions[w.lastSnapshot.value]))))
    && (w.lastCommitment.Some? ==>
      && w.lastCommitment.value < |w.executions| && w.executions[w.lastCommitment.value].boot == w.boot
      && w.volatile == Some(CommitmentFile(w.key, SnapshotBy(w.key, w.executions[w.lastCommitment.value]))))
  }

  lemma {:induction false} QuietRunsTrackWriters(start: World, events: seq<Event>)
    requires Initial(start) && forall e <- events :: Quiet(e)
    ensures LastWriters(Run(start, events))
  {
    if events == [] {
    } else {
      var n := |events| - 1;
      QuietRunsTrackWriters(start, events[..n]);
      assert events[n] in events;
      QuietStepTracksWriters(Run(start, events[..n]), events[n]);
    }
  }

  lemma FilesKeepTheirAuthor(w: World, after: seq<Execution>)
    requires LastWriters(w) && Extends(w.executions, after)
    requires Timed(after, w.boot)
    ensures LastWriters(w.(executions := after))
  {
    hide SnapshotBy;
    forall i | 0 <= i < |w.executions| ensures SnapshotBy(w.key, after[i]) == SnapshotBy(w.key, w.executions[i]) {
      SameEvidenceAfter(w.key, w.executions[i], after[i]);
    }
  }

  lemma RebootTracksWriters(w: World)
    requires LastWriters(w)
    ensures LastWriters(Next(w, Reboot))
  {
    hide SnapshotBy;
    if w.lastSnapshot.Some? {
      SameEvidenceAfter(w.key, w.executions[w.lastSnapshot.value], Next(w, Reboot).executions[w.lastSnapshot.value]);
    }
  }

  lemma QuietStepTracksWriters(w: World, e: Event)
    requires LastWriters(w) && Quiet(e)
    ensures LastWriters(Step(w, e))
  {
    hide SnapshotBy, Known, Conclusion, FromRange;
    if Enabled(w, e) {
      if e.Prepare? {
        ParsedRangeIsAdmitted(e.source, e.claims);
      }
      if e.Prepare? || e.PublishSnapshot? || e.PublishCommitment? || e.Crash? {
        FilesKeepTheirAuthor(w, Next(w, e).executions);
      }
      if e.PublishSnapshot? || e.PublishCommitment? {
        SameEvidenceAfter(w.key, w.executions[e.i], Next(w, e).executions[e.i]);
      }
      if e.Reboot? {
        RebootTracksWriters(w);
      }
    }
  }

  ghost predicate SameEvidence(w: World)
    requires LastWriters(w)
  {
    && w.lastSnapshot.Some? && w.lastCommitment.Some?
    && SnapshotBy(w.key, w.executions[w.lastSnapshot.value]) == SnapshotBy(w.key, w.executions[w.lastCommitment.value])
  }

  lemma SealedPairMatches(key: Secret, boot: BootId, s: Snapshot, t: Snapshot)
    requires s.source.Some? && t.source.Some? && s.source.value.revision.Int? && s.generatedAt.Int?
    requires t.producerBoot == BootAttestation(key, boot)
    ensures s == t <==>
      VerifyCommitment(MakeCommitment(key, t), SnapshotTag(key, s), BootAttestation(key, boot),
                       s.source.value.revision.i, s.generatedAt.i).Ok?
  {}

  lemma LastWritersDecide(w: World)
    requires LastWriters(w)
    ensures CommitmentHolds(w) <==> SameEvidence(w)
  {
    if w.lastSnapshot.Some? && w.lastCommitment.Some? {
      var s := SnapshotBy(w.key, w.executions[w.lastSnapshot.value]);
      var t := SnapshotBy(w.key, w.executions[w.lastCommitment.value]);
      SealedPairMatches(w.key, w.boot, s, t);
    }
  }

  /**
    However the writes of any number of producers interleave, wherever some of them stop, and however often the machine
    restarts, the stored pair passes exactly if the last snapshot written and the last commitment written in this boot
    carry the same evidence. A snapshot of an earlier boot therefore never passes beside any commitment.
  */
  lemma InterleavedWritersFailClosed(start: World, events: seq<Event>)
    requires Initial(start) && forall e <- events :: Quiet(e)
    ensures var w := Run(start, events);
      && LastWriters(w) && (CommitmentHolds(w) <==> SameEvidence(w))
      && (CommitmentHolds(w) ==> w.executions[w.lastSnapshot.value].boot == w.boot)
  {
    QuietRunsTrackWriters(start, events);
    LastWritersDecide(Run(start, events));
  }

  /** A restored pair of this boot is accepted while fresh, whatever has been written since: the window is the bound. */
  lemma OlderPairOfThisBootIsAccepted(start: World, events: seq<Event>, i: nat, host: Claim, maxAgeMs: int)
    requires Initial(start) && i < |Run(start, events).executions|
    requires var x := Run(start, events).executions[i];
      x.wroteSnapshot && x.wroteCommitment
      && Fresh(x.boot, x.generated, x.validitySeconds, Run(start, events).boot, Run(start, events).clock, maxAgeMs)
    ensures var w := Run(start, events); var x := w.executions[i];
         var s := SnapshotBy(w.key, x);
         var verdict := Decide(w.key, BootAttestation(w.key, w.boot), host, Some(SnapshotFile(w.key, s)),
                               Some(CommitmentFile(w.key, s)), w.clock, maxAgeMs);
         && Enabled(w, ReplaceSnapshot(Some(SnapshotFile(w.key, s))))
         && Enabled(w, ReplaceCommitment(Some(CommitmentFile(w.key, s))))
         && (verdict.Ok? || verdict == Err(Collision))
  {
    EveryRunKeepsInvariant(start, events);
    var w := Run(start, events);
    var x := w.executions[i];
    var s := SnapshotBy(w.key, x);
    assert WrittenBy(w.key, x, Mac(SnapshotDomain, w.key, SnapshotBody(s)));
    assert WrittenBy(w.key, x, Mac(CommitmentDomain, w.key, CommitmentBody(MakeCommitment(w.key, s))));
    ProducerGuardAgreement(x.source, x.claims, w.key, x.boot, x.generated, x.validitySeconds, w.boot, w.clock, maxAgeMs,
      host);
  }

  // ---------- progress

  /** One producer and then one guard, with nothing else in between. */
  function ProducerThenGuard(w: World, source: Source, claims: seq<Entry>, validity: int, host: Claim,
                             maxAgeMs: int): seq<Event> {
    var i, g := |w.executions|, |w.watches|;
    [Prepare(source, claims, validity), PublishSnapshot(i), PublishCommitment(i), StartWatch(host), ReadSnapshot(g),
     ReadCommitment(g), Conclude(g, maxAgeMs)]
  }

  lemma RunGoesOn(w: World, events: seq<Event>, e: Event)
    ensures Run(w, events + [e]) == Step(Run(w, events), e)
  {
    assert (events + [e])[..|events|] == events;
  }

  lemma Produced(w: World, source: Source, claims: seq<Entry>, validity: int) returns (after: World)
    requires FromRange(source, claims) && 1 <= validity <= MAX_VALIDITY_SECONDS
    ensures var i := |w.executions|;
      after == Run(w, [Prepare(source, claims, validity), PublishSnapshot(i), PublishCommitment(i)])
    ensures var s := MakeSnapshot(w.key, w.boot, source, claims, w.clock, validity);
      && s.source.Some? && after.disk == Some(SnapshotFile(w.key, s))
         && after.volatile == Some(CommitmentFile(w.key, s))
      && after.watches == w.watches && after.key == w.key && after.boot == w.boot && after.clock == w.clock
  {
    hide FromRange, SnapshotFile, CommitmentFile, MakeSnapshot;
    var i := |w.executions|;
    var a, b, c := Prepare(source, claims, validity), PublishSnapshot(i), PublishCommitment(i);
    var w1 := Step(w, a);
    var w2 := Step(w1, b);
    after := Step(w2, c);
    RunGoesOn(w, [], a);
    RunGoesOn(w, [a], b);
    RunGoesOn(w, [a, b], c);
    assert [] + [a] == [a] && [a] + [b] == [a, b] && [a, b] + [c] == [a, b, c];
  }

  lemma {:induction false} RunsJoin(w: World, a: seq<Event>, b: seq<Event>)
    ensures Run(w, a + b) == Run(Run(w, a), b)
  {
    hide Step;
    if b == [] {
      assert a + b == a;
    } else {
      var front, last := b[..|b| - 1], b[|b| - 1];
      RunsJoin(w, a, front);
      RunGoesOn(w, a + front, last);
      RunGoesOn(Run(w, a), front, last);
      assert a + b == a + front + [last] && b == front + [last];
    }
  }

  lemma RunOfFour(w: World, a: Event, b: Event, c: Event, d: Event)
    ensures Run(w, [a, b, c, d]) == Step(Step(Step(Step(w, a), b), c), d)
  {
    hide Step;
    RunGoesOn(w, [], a);
    RunGoesOn(w, [a], b);
    RunGoesOn(w, [a, b], c);
    RunGoesOn(w, [a, b, c], d);
    assert [] + [a] == [a] && [a] + [b] == [a, b] && [a, b] + [c] == [a, b, c] && [a, b, c] + [d] == [a, b, c, d];
  }

  /** The two reads of a guard that has just started, in an unchanged world. */
  lemma BothRead(w: World, host: Claim) returns (read: World)
    ensures var g := |w.watches|;
      read == Step(Step(Step(w, StartWatch(host)), ReadSnapshot(g)), ReadCommitment(g))
    ensures read == w.(watches := w.watches + [Watch(w.boot, host, Some(w.disk), Some(w.volatile), Undecided, true)])
  {
    hide Known, FromRange, Conclusion;
    var g := |w.watches|;
    var w1 := Step(w, StartWatch(host));
    assert w1.watches == w.watches + [Watch(w.boot, host, None, None, Undecided, true)];
    var w2 := Step(w1, ReadSnapshot(g));
    assert w2.watches == w.watches + [Watch(w.boot, host, Some(w.disk), None, Undecided, true)];
    read := Step(w2, ReadCommitment(g));
    assert read.watches == w.watches + [Watch(w.boot, host, Some(w.disk), Some(w.volatile), Undecided, true)];
  }

  /** A guard that is not interrupted decides on the two files as they are. */
  lemma Watched(w: World, host: Claim, maxAgeMs: int) returns (after: World)
    ensures var g := |w.watches|;
      after == Run(w, [StartWatch(host), ReadSnapshot(g), ReadCommitment(g), Conclude(g, maxAgeMs)])
    ensures |after.watches| == |w.watches| + 1
    ensures after.watches[|w.watches|].verdict ==
      match Decide(w.key, BootAttestation(w.key, w.boot), host, w.disk, w.volatile, w.clock, maxAgeMs)
      case Ok(evidence) => Safe(evidence, w.boot, w.clock, maxAgeMs)
      case Err(code) => Refused(code)
  {
    hide Decide, Known, FromRange, Run;
    var g := |w.watches|;
    var read := BothRead(w, host);
    after := Step(read, Conclude(g, maxAgeMs));
    RunOfFour(w, StartWatch(host), ReadSnapshot(g), ReadCommitment(g), Conclude(g, maxAgeMs));
  }

  /**
    Progress: from any state, a producer that runs to its end and a guard after it reach a verdict on what was produced,
    and that is safe exactly if the pair is fresh at this clock reading and nothing collides with the host.
  */
  lemma ProducerThenGuardDecides(w: World, source: Source, claims: seq<Entry>, validity: int, host: Claim,
      maxAgeMs: int)
    requires FromRange(source, claims) && 1 <= validity <= MAX_VALIDITY_SECONDS
    ensures source.revision.Int? && EachValid(claims, source.revision.i)
    ensures var after := Run(w, ProducerThenGuard(w, source, claims, validity, host, maxAgeMs));
      var evidence := Evidence(source.revision.i, ClaimsOf(claims, source.revision.i), w.clock);
      && |after.watches| == |w.watches| + 1
      && var verdict := after.watches[|w.watches|].verdict;
      && !verdict.Undecided?
      && (verdict == Safe(evidence, w.boot, w.clock, maxAgeMs) <==>
           Fresh(w.boot, w.clock, validity, w.boot, w.clock, maxAgeMs) && NoCollision(host, evidence.claims))
  {
    hide FromRange, SnapshotFile, CommitmentFile, MakeSnapshot, Decide, Fresh, NoCollision, EachValid, Run;
    var produced := Produced(w, source, claims, validity);
    ProducerGuardAgreement(source, claims, w.key, w.boot, w.clock, validity, w.boot, w.clock, maxAgeMs, host);
    var after := Watched(produced, host, maxAgeMs);
    var i, g := |w.executions|, |w.watches|;
    var before := [Prepare(source, claims, validity), PublishSnapshot(i), PublishCommitment(i)];
    var watching := [StartWatch(host), ReadSnapshot(g), ReadCommitment(g), Conclude(g, maxAgeMs)];
    RunsJoin(w, before, watching);
    assert ProducerThenGuard(w, source, claims, validity, host, maxAgeMs) == before + watching;
  }
}
