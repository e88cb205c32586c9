/** What an interrupted, a repeated and a first import of the same bundle have in common. */
module Resumption {
  import opened GuestImport

  predicate AllCalm(tasks: seq<Task>) {
    forall t <- tasks :: t.weather.Calm?
  }

  /** The files an import may leave behind when it stops somewhere. */
  predicate Partial(g: Files, middle: Files, end: Files) {
    Rooted(middle) && Keeps(g, middle) && Keeps(middle, end)
  }

  /** A step that creates something, seen from a partial state which already has the destination. */
  lemma ArrivedStaysArrived(g: Files, middle: Files, end: Files, t: Task)
    requires Rooted(g) && t.weather.Calm? && Partial(g, middle, end) && Keeps(ImportOne(g, t).files, end)
    requires ImportOne(g, t).outcome.Refused? ==> end == ImportOne(g, t).files
    requires t.destination !in g && !Blocked(g, t.destination) && t.destination in middle
    ensures ImportOne(g, t).outcome.Published? && ImportOne(middle, t) == Step(middle, Retained)
    ensures Keeps(ImportOne(g, t).files, middle)
  {
    var p := t.destination;
    ParentsAreAdded(g, p, ParentsOf(p));
    var ready := MakeParents(g, p, ParentsOf(p));
    assert p !in ready;
    assert middle[p] == end[p];
    forall q | q in ready ensures q in middle && middle[q] == ready[q] {
      if q !in g {
        var k :| 0 < k <= ParentsOf(p) && q == p[..k];
        assert q in middle && middle[q] == end[q];
      }
    }
  }

  /** The same step from a partial state which lacks the destination: it creates what is still missing. */
  lemma MissingParentsAgree(g: Files, middle: Files, end: Files, p: Path)
    requires Rooted(g) && Partial(g, middle, end) && p !in g && p !in middle && !Blocked(g, p)
    requires Keeps(MakeParents(g, p, ParentsOf(p)), end)
    ensures !Blocked(middle, p)
    ensures var ready, again := MakeParents(g, p, ParentsOf(p)), MakeParents(middle, p, ParentsOf(p));
      && p !in ready && p !in again
      && Keeps(ready, again) && Keeps(again, end)
      && (ThroughLink(ready, p) <==> ThroughLink(again, p))
  {
    var n := ParentsOf(p);
    ParentsAreAdded(g, p, n);
    var ready := MakeParents(g, p, n);
    forall k | 0 < k < |p| && p[..k] in middle ensures middle[p[..k]] == ready[p[..k]] {
      assert end[p[..k]] == middle[p[..k]];
    }
    ParentsAreAdded(middle, p, n);
    var again := MakeParents(middle, p, n);
    forall k | 0 < k < |p| ensures p[..k] in again && again[p[..k]] == ready[p[..k]] {
      assert p[..k] in middle ==> again[p[..k]] == middle[p[..k]];
    }
    forall q | q in ready ensures q in again && again[q] == ready[q] { }
    forall q | q in again ensures q in end && end[q] == again[q] { }
  }

  lemma KeepsBothWays(a: Files, b: Files)
    requires Keeps(a, b) && Keeps(b, a)
    ensures a == b
  {}

  lemma CreationResumes(g: Files, middle: Files, end: Files, t: Task)
    requires Rooted(g) && t.weather.Calm? && Partial(g, middle, end) && Keeps(ImportOne(g, t).files, end)
    requires t.destination !in g && !Blocked(g, t.destination) && t.destination !in middle
    ensures var s, again := ImportOne(g, t), ImportOne(middle, t);
      && Keeps(s.files, again.files) && Keeps(again.files, end)
      && (again.outcome.Refused? <==> s.outcome.Refused?)
  {
    var p := t.destination;
    var ready := MakeParents(g, p, ParentsOf(p));
    ParentsAreAdded(g, p, ParentsOf(p));
    assert p !in ready && Keeps(ready, end);
    MissingParentsAgree(g, middle, end, p);
  }

  /** From a partial state one step decides as it did at first, and its result is again partial. */
  lemma StepResumes(g: Files, middle: Files, end: Files, t: Task)
    requires Rooted(g) && t.weather.Calm? && Partial(g, middle, end) && Keeps(ImportOne(g, t).files, end)
    requires ImportOne(g, t).outcome.Refused? ==> end == ImportOne(g, t).files
    ensures var s, again := ImportOne(g, t), ImportOne(middle, t);
      && Partial(s.files, again.files, end)
      && (again.outcome.Refused? <==> s.outcome.Refused?)
  {
    var p := t.destination;
    StepOnlyAdds(middle, t);
    if p in g {
      assert middle[p] == g[p];
    } else if Blocked(g, p) {
      KeepsBothWays(g, middle);
    } else if p in middle {
      ArrivedStaysArrived(g, middle, end, t);
    } else {
      CreationResumes(g, middle, end, t);
    }
  }

  /**
    Resumption: whatever state an interrupted import has left, the next run ends with exactly the files of one
    uninterrupted run, refuses exactly if that one does, and accounts for the same number of entries.
  */
  lemma {:induction false} RerunReachesTheSameState(g: Files, middle: Files, tasks: seq<Task>)
    requires Rooted(g) && AllCalm(tasks) && Partial(g, middle, ImportAll(g, tasks).files)
    ensures var first, again := ImportAll(g, tasks), ImportAll(middle, tasks);
      && again.files == first.files && again.refused == first.refused
      && (!first.refused ==> again.imported + again.retained == first.imported + first.retained)
    decreases |tasks|
  {
    if tasks == [] {
    } else {
      var end := ImportAll(g, tasks).files;
      var s, again := ImportOne(g, tasks[0]), ImportOne(middle, tasks[0]);
      StepOnlyAdds(g, tasks[0]);
      ImportOnlyAdds(s.files, tasks[1..]);
      StepResumes(g, middle, end, tasks[0]);
      if !s.outcome.Refused? {
        RerunReachesTheSameState(s.files, again.files, tasks[1..]);
      }
    }
  }

  function Calmed(tasks: seq<Task>): (r: seq<Task>)
    ensures |r| == |tasks|
    ensures forall i :: 0 <= i < |r| ==> r[i] == tasks[i].(weather := Calm)
  {
    seq(|tasks|, i requires 0 <= i < |tasks| => tasks[i].(weather := Calm))
  }

  lemma FirstStepIsKept(g: Files, tasks: seq<Task>)
    requires Rooted(g) && tasks != []
    ensures Keeps(ImportOne(g, tasks[0]).files, ImportAll(g, tasks).files)
  {
    StepOnlyAdds(g, tasks[0]);
    ImportOnlyAdds(ImportOne(g, tasks[0]).files, tasks[1..]);
  }

  /**
    Somebody else's file, different from the payload, came to the destination just before the copy was linked there.
  */
  predicate StepIntruded(g: Files, t: Task) {
    && t.weather.DestinationAppears? && t.weather.node != GuestFile(t.payload)
    && ImportOne(g, t.(weather := Calm)).outcome.Published?
  }

  /** The run was stopped that way. */
  predicate Intruded(g: Files, tasks: seq<Task>)
    decreases |tasks|
  {
    tasks != []
    && var s := ImportOne(g, tasks[0]);
      if s.outcome.Refused? then StepIntruded(g, tasks[0]) else Intruded(s.files, tasks[1..])
  }

  lemma CalmedHead(tasks: seq<Task>)
    requires tasks != []
    ensures Calmed(tasks) != [] && Calmed(tasks)[0] == tasks[0].(weather := Calm)
      && Calmed(tasks)[1..] == Calmed(tasks[1..])
  {}

  /**
    What disturbs a step matters only if it stops it; it then leaves a partial state of the calm step or an intruder.
  */
  lemma StoppedStepIsPartial(g: Files, t: Task)
    requires Rooted(g)
    ensures var s, calm := ImportOne(g, t), ImportOne(g, t.(weather := Calm));
      if s.outcome.Refused? && StepIntruded(g, t)
      then t.destination in s.files && t.destination in calm.files
        && s.files[t.destination] != calm.files[t.destination]
      else Partial(g, s.files, calm.files) && (!s.outcome.Refused? ==> s == calm)
  {
    StepOnlyAdds(g, t);
    if t.destination !in g && !Blocked(g, t.destination) {
      ParentsAreAdded(g, t.destination, ParentsOf(t.destination));
    }
  }

  /**
    However a run was stopped, by a payload that changed before or during its copy or by a file that appeared, it leaves
    a partial state of the calm run exactly if it was not stopped by an intruder.
  */
  lemma {:induction false} StoppedRunIsPartial(g: Files, tasks: seq<Task>)
    requires Rooted(g)
    ensures Partial(g, ImportAll(g, tasks).files, ImportAll(g, Calmed(tasks)).files) <==> !Intruded(g, tasks)
    decreases |tasks|
  {
    hide ImportOne, Calmed, StepIntruded, Rooted;
    ImportOnlyAdds(g, tasks);
    if tasks == [] {
    } else {
      var t, rest := tasks[0], tasks[1..];
      CalmedHead(tasks);
      StoppedStepIsPartial(g, t);
      if ImportOne(g, t).outcome.Refused? {
        FirstStepIsKept(g, Calmed(tasks));
        if StepIntruded(g, t) {
          assert ImportAll(g, tasks).files[t.destination] != ImportAll(g, Calmed(tasks)).files[t.destination];
        }
      } else {
        StepOnlyAdds(g, t);
        StoppedRunIsPartial(ImportOne(g, t).files, rest);
        FirstStepIsKept(g, tasks);
      }
    }
  }

  /**
    After any run, disturbed or not, an undisturbed run of the same bundle ends exactly as if it had been the only one
    if and only if the first was not stopped by an intruder.
  */
  lemma RerunRepairsExactlyIfNotIntruded(g: Files, tasks: seq<Task>)
    requires Rooted(g)
    ensures var r, first := ImportAll(g, tasks), ImportAll(g, Calmed(tasks));
      var again := ImportAll(r.files, Calmed(tasks));
      again.files == first.files && again.refused == first.refused <==> !Intruded(g, tasks)
  {
    StoppedRunIsPartial(g, tasks);
    ImportOnlyAdds(g, tasks);
    ImportOnlyAdds(ImportAll(g, tasks).files, Calmed(tasks));
    if !Intruded(g, tasks) {
      RerunReachesTheSameState(g, ImportAll(g, tasks).files, Calmed(tasks));
    }
  }

  /**
    A run killed in any state it passes through, disturbed or not, is repaired as well unless an intruder stopped it.
  */
  lemma KilledRunIsRepaired(g: Files, middle: Files, tasks: seq<Task>)
    requires Rooted(g) && Partial(g, middle, ImportAll(g, tasks).files) && !Intruded(g, tasks)
    ensures var first, again := ImportAll(g, Calmed(tasks)), ImportAll(middle, Calmed(tasks));
      again.files == first.files && again.refused == first.refused
  {
    hide ImportOne, Rooted;
    StoppedRunIsPartial(g, tasks);
    RerunReachesTheSameState(g, middle, Calmed(tasks));
  }

  /** An intruder stays: every later run of the bundle is refused and changes nothing. */
  lemma {:induction false} IntruderStaysInTheWay(g: Files, tasks: seq<Task>)
    requires Rooted(g) && Intruded(g, tasks)
    ensures var r := ImportAll(g, tasks); var again := ImportAll(r.files, Calmed(tasks));
      r.refused && again.refused && again.files == r.files
    decreases |tasks|
  {
    hide MakeParents, Calmed, Rooted, Blocked, ThroughLink;
    var t, rest := tasks[0], tasks[1..];
    CalmedHead(tasks);
    var s := ImportOne(g, t);
    StepOnlyAdds(g, t);
    if s.outcome.Refused? {
    } else {
      IntruderStaysInTheWay(s.files, rest);
      ImportOnlyAdds(s.files, rest);
    }
  }

  /** One entry: a file put in the way keeps its content, and refuses the entry again unless it equals the payload. */
  lemma ForeignFileStaysInTheWay(g: Files, t: Task)
    requires Rooted(g) && t.weather.DestinationAppears? && t.destination !in g
    requires ImportOne(g, t.(weather := Calm)).outcome.Published?
    ensures var s := ImportOne(g, t); var again := ImportOne(s.files, t.(weather := Calm));
      && s.outcome.Refused? && s.files[t.destination] == t.weather.node && again.files == s.files
      && (again.outcome.Refused? <==> t.weather.node != GuestFile(t.payload))
  {}

  // ---------- delivery

  /** After a run that was not refused, every destination holds its payload. */
  predicate Delivered(g: Files, tasks: seq<Task>) {
    forall t <- tasks :: t.destination in g && g[t.destination] == GuestFile(t.payload)
  }

  lemma {:induction false} UnrefusedImportDelivers(g: Files, tasks: seq<Task>)
    requires Rooted(g) && !ImportAll(g, tasks).refused
    ensures Delivered(ImportAll(g, tasks).files, tasks)
    ensures ImportAll(g, tasks).imported + ImportAll(g, tasks).retained == |tasks|
    decreases |tasks|
  {
    if tasks == [] {
    } else {
      var s := ImportOne(g, tasks[0]);
      StepOnlyAdds(g, tasks[0]);
      UnrefusedImportDelivers(s.files, tasks[1..]);
      ImportOnlyAdds(s.files, tasks[1..]);
      assert tasks == [tasks[0]] + tasks[1..];
    }
  }

  lemma {:induction false} DeliveredIsRetained(g: Files, tasks: seq<Task>)
    requires Delivered(g, tasks) && AllCalm(tasks)
    ensures ImportAll(g, tasks) == Report(g, 0, |tasks|, false)
    decreases |tasks|
  {
    if tasks == [] {
    } else {
      assert tasks[0] in tasks;
      DeliveredIsRetained(g, tasks[1..]);
    }
  }

  /** A second import publishes nothing, retains every entry and changes no file. */
  lemma SecondImportIsANoOp(g: Files, tasks: seq<Task>)
    requires Rooted(g) && AllCalm(tasks) && !ImportAll(g, tasks).refused
    ensures var first := ImportAll(g, tasks);
      ImportAll(first.files, tasks) == Report(first.files, 0, |tasks|, false)
  {
    UnrefusedImportDelivers(g, tasks);
    DeliveredIsRetained(ImportAll(g, tasks).files, tasks);
  }

  /** Nothing but destinations, with their payloads, and directories is ever created by a calm run. */
  lemma {:induction false} OnlyPayloadsAppear(g: Files, tasks: seq<Task>, p: Path)
    requires Rooted(g) && AllCalm(tasks) && p in ImportAll(g, tasks).files && p !in g
    ensures var node := ImportAll(g, tasks).files[p];
      node.GuestDirectory? || exists t :: t in tasks && t.destination == p && node == GuestFile(t.payload)
    decreases |tasks|
  {
    if tasks == [] {
    } else {
      var t := tasks[0];
      assert t in tasks;
      var s := ImportOne(g, t);
      StepOnlyAdds(g, t);
      ParentsWhenMade(g, t);
      if !s.outcome.Refused? {
        ImportOnlyAdds(s.files, tasks[1..]);
        if p !in s.files {
          OnlyPayloadsAppear(s.files, tasks[1..], p);
        }
      }
    }
  }

  lemma ParentsWhenMade(g: Files, t: Task)
    requires Rooted(g) && t.weather.Calm?
    ensures var s := ImportOne(g, t);
      forall p :: p in s.files && p !in g ==>
        s.files[p].GuestDirectory? || (p == t.destination && s.files[p] == GuestFile(t.payload))
  {
    if t.destination !in g && !Blocked(g, t.destination) {
      ParentsAreAdded(g, t.destination, ParentsOf(t.destination));
    }
  }

  // ---------- importing into empty roots

  /** Two different places, neither below the other. */
  predicate Apart(p: Path, q: Path) {
    !(p <= q) && !(q <= p)
  }

  /** Distinct destinations none of which needs another one to be a directory. */
  predicate Compatible(tasks: seq<Task>) {
    forall i, j :: 0 <= i < |tasks| && 0 <= j < |tasks| && i != j ==>
      Apart(tasks[i].destination, tasks[j].destination)
  }

  /** The guest has nothing at a destination, and only directories on the way to it. */
  predicate OpenTo(g: Files, p: Path) {
    p !in g && forall k :: 0 < k < |p| && p[..k] in g ==> g[p[..k]].GuestDirectory?
  }

  lemma StepKeepsOthersOpen(g: Files, t: Task, q: Path)
    requires Rooted(g) && t.weather.Calm? && OpenTo(g, t.destination) && OpenTo(g, q)
    requires Apart(q, t.destination)
    ensures ImportOne(g, t).outcome.Published? && OpenTo(ImportOne(g, t).files, q)
  {
    var p := t.destination;
    ParentsAreAdded(g, p, ParentsOf(p));
    var ready := MakeParents(g, p, ParentsOf(p));
    assert !ThroughLink(ready, p);
    forall k | 0 < k < |q| && q[..k] in ready[p := GuestFile(t.payload)]
      ensures ready[p := GuestFile(t.payload)][q[..k]].GuestDirectory?
    {
      assert q[..k] != p;
    }
  }

  /** Into open places the whole bundle is published, every entry of it. */
  lemma {:induction false} OpenGuestTakesAll(g: Files, tasks: seq<Task>)
    requires Rooted(g) && AllCalm(tasks) && Compatible(tasks)
    requires forall t <- tasks :: OpenTo(g, t.destination)
    ensures var r := ImportAll(g, tasks); !r.refused && r.imported == |tasks| && r.retained == 0
    decreases |tasks|
  {
    if tasks == [] {
    } else {
      var t, rest := tasks[0], tasks[1..];
      assert t in tasks;
      StepOnlyAdds(g, t);
      PublishesWhereOpen(g, t);
      var s := ImportOne(g, t);
      forall u | u in rest ensures OpenTo(s.files, u.destination) {
        var k :| 0 <= k < |rest| && rest[k] == u;
        assert tasks[k + 1] == u && u in tasks;
        StepKeepsOthersOpen(g, t, u.destination);
      }
      assert forall i :: 0 <= i < |rest| ==> rest[i] == tasks[i + 1];
      OpenGuestTakesAll(s.files, rest);
    }
  }

  lemma PublishesWhereOpen(g: Files, t: Task)
    requires Rooted(g) && t.weather.Calm? && OpenTo(g, t.destination)
    ensures ImportOne(g, t).outcome.Published?
  {
    ParentsAreAdded(g, t.destination, ParentsOf(t.destination));
  }
}
