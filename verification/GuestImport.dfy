/** The import side: a bundle is merged into guest-owned directories without replacing anything. */
module GuestImport {
  import opened Wrappers
  import opened Bytes

  type Path = seq<string>

  /** `GuestLink` is a symbolic link to a directory; paths beneath it are seen through it. */
  datatype GuestNode = GuestFile(content: Data) | GuestDirectory | GuestLink | GuestOther

  type Files = map<Path, GuestNode>

  /** Every path hangs in existing directories. */
  predicate Rooted(g: Files) {
    && [] in g && g[[]].GuestDirectory?
    && forall p, k :: p in g && 0 < k < |p| ==> p[..k] in g && (g[p[..k]].GuestDirectory? || g[p[..k]].GuestLink?)
  }

  /** Nothing that existed has changed. */
  predicate Keeps(before: Files, after: Files) {
    forall p :: p in before ==> p in after && after[p] == before[p]
  }

  /**
    What else happens while one file is imported: the payload may change before anything is made, or during the copy.
  */
  datatype Interference = Calm | PayloadChanges | CopyChanges | DestinationAppears(node: GuestNode)

  datatype Task = Task(destination: Path, payload: Data, weather: Interference)

  datatype Outcome = Retained | Published | Refused

  datatype Step = Step(files: Files, outcome: Outcome)

  predicate Blocked(g: Files, p: Path) {
    exists k :: 0 < k < |p| && p[..k] in g && !g[p[..k]].GuestDirectory? && !g[p[..k]].GuestLink?
  }

  predicate ThroughLink(g: Files, p: Path) {
    exists k :: 0 < k < |p| && p[..k] in g && g[p[..k]].GuestLink?
  }

  /** The first `n` missing ancestors of `p` are created, top down. */
  function MakeParents(g: Files, p: Path, n: nat): Files
    requires n <= |p|
  {
    if n == 0 then g
    else
      var before := MakeParents(g, p, n - 1);
      if p[..n] in before then before else before[p[..n] := GuestDirectory]
  }

  function ParentsOf(p: Path): nat {
    if p == [] then 0 else |p| - 1
  }

  function ImportOne(g: Files, t: Task): Step {
    if t.weather.PayloadChanges? then Step(g, Refused)
    else if t.destination in g then
      Step(g, if g[t.destination] == GuestFile(t.payload) then Retained else Refused)
    else if Blocked(g, t.destination) then Step(g, Refused)
    else
      var ready := MakeParents(g, t.destination, ParentsOf(t.destination));
      if ThroughLink(ready, t.destination) || t.weather.CopyChanges? then Step(ready, Refused)
      else if t.weather.DestinationAppears? then Step(ready[t.destination := t.weather.node], Refused)
      else Step(ready[t.destination := GuestFile(t.payload)], Published)
  }

  datatype Report = Report(files: Files, imported: nat, retained: nat, refused: bool)

  function ImportAll(g: Files, tasks: seq<Task>): Report
    decreases |tasks|
  {
    if tasks == [] then Report(g, 0, 0, false)
    else
      var s := ImportOne(g, tasks[0]);
      if s.outcome.Refused? then Report(s.files, 0, 0, true)
      else
        var rest := ImportAll(s.files, tasks[1..]);
        if s.outcome.Published? then rest.(imported := rest.imported + 1) else rest.(retained := rest.retained + 1)
  }

  // ---------- steps only add

  lemma {:induction false} ParentsAreAdded(g: Files, p: Path, n: nat)
    requires n <= ParentsOf(p) && Rooted(g) && !Blocked(g, p)
    ensures var after := MakeParents(g, p, n);
      && Rooted(after) && Keeps(g, after)
      && (forall k :: 0 < k <= n ==> p[..k] in after && (after[p[..k]].GuestDirectory? || after[p[..k]].GuestLink?))
      && (forall q :: q in after && q !in g ==> after[q].GuestDirectory? && exists k :: 0 < k <= n && q == p[..k])
  {
    if n == 0 {
    } else {
      ParentsAreAdded(g, p, n - 1);
      var before, after := MakeParents(g, p, n - 1), MakeParents(g, p, n);
      assert p[..n] in g ==> g[p[..n]].GuestDirectory? || g[p[..n]].GuestLink?;
      forall q, k | q in after && 0 < k < |q|
        ensures q[..k] in after && (after[q[..k]].GuestDirectory? || after[q[..k]].GuestLink?)
      {
        if q == p[..n] && q !in before {
          assert q[..k] == p[..k];
        }
      }
    }
  }

  lemma StepOnlyAdds(g: Files, t: Task)
    requires Rooted(g)
    ensures var s := ImportOne(g, t); Rooted(s.files) && Keeps(g, s.files)
  {
    if !t.weather.PayloadChanges? && t.destination !in g && !Blocked(g, t.destination) {
      ParentsAreAdded(g, t.destination, ParentsOf(t.destination));
    }
  }

  lemma {:induction false} ImportOnlyAdds(g: Files, tasks: seq<Task>)
    requires Rooted(g)
    ensures var r := ImportAll(g, tasks); Rooted(r.files) && Keeps(g, r.files)
    decreases |tasks|
  {
    if tasks == [] {
    } else {
      StepOnlyAdds(g, tasks[0]);
      ImportOnlyAdds(ImportOne(g, tasks[0]).files, tasks[1..]);
    }
  }

  // ---------- the guest machine

  /**
    A guest filesystem. The private temporary sibling of the file being imported has an unguessable name of its own,
    so it is kept apart from the named files. `trail` is every state of the named files so far.
  */
  class Guest {
    var files: Files
    var temporary: Option<Data>
    ghost var trail: seq<Files>

    constructor (files: Files)
      ensures this.files == files && temporary == None && trail == [files]
    {
      this.files := files;
      temporary := None;
      trail := [files];
    }

    /** A run may stop in any of these states; each lies between the files at its start and at its end. */
    ghost predicate Between(start: Files, from: nat)
      reads this
    {
      from <= |trail| && forall k :: from <= k < |trail| ==>
        Rooted(trail[k]) && Keeps(start, trail[k]) && Keeps(trail[k], files)
    }

    /** A new name: whatever run this is part of, `start` is still all there. */
    method Put(p: Path, node: GuestNode, ghost start: Files, ghost from: nat)
      requires p !in files && Rooted(files[p := node]) && Keeps(start, files) && Between(start, from)
      modifies this
      ensures files == old(files)[p := node] && trail == old(trail) + [files] && temporary == old(temporary)
      ensures Keeps(start, files) && Between(start, from)
    {
      files := files[p := node];
      trail := trail + [files];
    }

    method Mkdirs(p: Path)
      requires Rooted(files) && !Blocked(files, p)
      modifies this
      ensures files == MakeParents(old(files), p, ParentsOf(p)) && temporary == old(temporary)
      ensures old(trail) <= trail && Between(old(files), |old(trail)|)
    {
      ghost var start := files;
      for n := 0 to ParentsOf(p)
        invariant files == MakeParents(start, p, n) && temporary == old(temporary)
        invariant old(trail) <= trail && Keeps(start, files) && Between(start, |old(trail)|)
      {
        ParentsAreAdded(start, p, n);
        ParentsAreAdded(start, p, n + 1);
        if p[..n + 1] !in files {
          Put(p[..n + 1], GuestDirectory, start, |old(trail)|);
        }
      }
    }

    /** One file: compare, or copy to a temporary sibling and link it into place. */
    method ImportEntry(t: Task) returns (outcome: Outcome)
      requires Rooted(files) && temporary == None
      modifies this
      ensures Step(files, outcome) == ImportOne(old(files), t)
      ensures temporary == None
      ensures Rooted(files) && old(trail) <= trail && Between(old(files), |old(trail)|)
    {
      StepOnlyAdds(files, t);
      if t.weather.PayloadChanges? {
        return Refused;
      }
      if t.destination in files {
        return if files[t.destination] == GuestFile(t.payload) then Retained else Refused;
      }
      if Blocked(files, t.destination) {
        return Refused;
      }
      ParentsAreAdded(files, t.destination, ParentsOf(t.destination));
      Mkdirs(t.destination);
      if ThroughLink(files, t.destination) {
        return Refused;
      }
      temporary := Some(t.payload);
      if t.weather.CopyChanges? {
        temporary := None;
        return Refused;
      }
      if t.weather.DestinationAppears? {
        Put(t.destination, t.weather.node, old(files), |old(trail)|);
        temporary := None;
        return Refused;
      }
      Put(t.destination, GuestFile(temporary.value), old(files), |old(trail)|);
      temporary := None;
      return Published;
    }

    /** The import loop: its result is the specified one, and no state it passes through changes an existing file. */
    method Import(tasks: seq<Task>) returns (imported: nat, retained: nat, refused: bool)
      requires Rooted(files) && temporary == None
      modifies this
      ensures Report(files, imported, retained, refused).(imported := 0, retained := 0)
           == ImportAll(old(files), tasks).(imported := 0, retained := 0)
      ensures !refused ==> Report(files, imported, retained, refused) == ImportAll(old(files), tasks)
      ensures temporary == None && Rooted(files)
      ensures old(trail) <= trail && Between(old(files), |old(trail)|)
    {
      ghost var start := files;
      imported, retained := 0, 0;
      for i := 0 to |tasks|
        invariant temporary == None && Rooted(files)
        invariant old(trail) <= trail && Between(start, |old(trail)|) && Keeps(start, files)
        invariant var rest, all := ImportAll(files, tasks[i..]), ImportAll(start, tasks);
          rest.refused == all.refused && rest.files == all.files
          && (!all.refused ==> all == rest.(imported := rest.imported + imported, retained := rest.retained + retained))
      {
        assert tasks[i..][1..] == tasks[i + 1..];
        StepOnlyAdds(files, tasks[i]);
        var outcome := ImportEntry(tasks[i]);
        if outcome == Refused {
          return imported, retained, true;
        }
        if outcome == Published {
          imported := imported + 1;
        } else {
          retained := retained + 1;
        }
      }
      return imported, retained, false;
    }
  }
}
