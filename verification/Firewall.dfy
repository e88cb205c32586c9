/**
  Bringing the permanent firewall rules to the desired ones, by the difference from what a state file says was applied
  last. Rules are texts; those of other owners are `foreign`.
*/
module Firewall {

  type Rules = set<string>

  /** The permanent rules of the zone, and the state file. */
  datatype State = State(permanent: Rules, recorded: Rules)

  /**
    Which commands work on one run, and whether the state file is written; a command that fails, or is not reached
    because the run is stopped before it, changes nothing.
  */
  datatype Weather = Weather(commandFound: bool, works: string -> bool, reloads: bool, saves: bool)

  function ToRemove(recorded: Rules, desired: Rules): Rules {
    recorded - desired
  }

  function ToAdd(recorded: Rules, desired: Rules): Rules {
    desired - recorded
  }

  function Working(rules: Rules, w: Weather): Rules {
    set r | r in rules && w.works(r)
  }

  /** Nothing to do. */
  predicate UpToDate(recorded: Rules, desired: Rules) {
    recorded == desired
  }

  /** All commands of the run work. */
  predicate AllWork(recorded: Rules, desired: Rules, w: Weather) {
    forall r :: r in recorded + desired && !(r in recorded && r in desired) ==> w.works(r)
  }

  /** The run gets as far as writing the state file. */
  predicate Completes(recorded: Rules, desired: Rules, w: Weather) {
    AllWork(recorded, desired, w) && w.saves
  }

  /** One run; the state file is written only when every rule command worked, even if the reload fails. */
  function Run(s: State, desired: Rules, w: Weather): State {
    if UpToDate(s.recorded, desired) || !w.commandFound then s
    else
      State(s.permanent - Working(ToRemove(s.recorded, desired), w) + Working(ToAdd(s.recorded, desired), w),
            if Completes(s.recorded, desired, w) then desired else s.recorded)
  }

  /** A run that is stopped after the commands for these rules. */
  function Stopped(s: State, desired: Rules, done: Rules): State {
    Run(s, desired, Weather(true, r => r in done, true, false))
  }

  ghost predicate IsStop(t: State, s: State, desired: Rules) {
    exists done :: t == Stopped(s, desired, done)
  }

  ghost predicate OnlyStops(states: seq<State>, s: State, desired: Rules) {
    forall t <- states :: IsStop(t, s, desired)
  }

  lemma OneMoreStop(states: seq<State>, s: State, desired: Rules, done: Rules)
    requires OnlyStops(states, s, desired)
    ensures OnlyStops(states + [Stopped(s, desired, done)], s, desired)
  {
    hide Stopped;
    assert IsStop(Stopped(s, desired, done), s, desired);
  }

  /** One more rule has been tried. */
  lemma OneMoreTried(rules: Rules, todo: Rules, rule: string, w: Weather)
    requires todo <= rules && rule in todo
    ensures var before, after := Working(rules - todo, w), Working(rules - (todo - {rule}), w);
      && after <= rules && after == if w.works(rule) then before + {rule} else before
    ensures (forall r <- rules - (todo - {rule}) :: w.works(r)) <==>
      (forall r <- rules - todo :: w.works(r)) && w.works(rule)
  {
    assert rules - (todo - {rule}) == rules - todo + {rule};
  }

  /** `trail` is every state after a command so far. */
  class Zone {
    var permanent: Rules
    var recorded: Rules
    ghost var commands: nat
    ghost var trail: seq<State>

    constructor (s: State)
      ensures Now() == s && commands == 0 && trail == []
    {
      permanent, recorded, commands, trail := s.permanent, s.recorded, 0, [];
    }

    ghost function Now(): State
      reads this
    {
      State(permanent, recorded)
    }

    /** `firewall-cmd --remove-rich-rule`: removing a rule that is not there is no error. */
    method Remove(rule: string, works: bool) returns (ok: bool)
      modifies this
      ensures ok == works && recorded == old(recorded) && commands == old(commands) + 1
      ensures trail == old(trail) + [Now()]
      ensures permanent == if works then old(permanent) - {rule} else old(permanent)
    {
      commands := commands + 1;
      if works {
        permanent := permanent - {rule};
      }
      trail := trail + [Now()];
      ok := works;
    }

    /** `firewall-cmd --add-rich-rule`: adding a rule twice is no error. */
    method Add(rule: string, works: bool) returns (ok: bool)
      modifies this
      ensures ok == works && recorded == old(recorded) && commands == old(commands) + 1
      ensures trail == old(trail) + [Now()]
      ensures permanent == if works then old(permanent) + {rule} else old(permanent)
    {
      commands := commands + 1;
      if works {
        permanent := permanent + {rule};
      }
      trail := trail + [Now()];
      ok := works;
    }

    method RemoveAll(rules: Rules, w: Weather, ghost s: State, ghost desired: Rules) returns (ok: bool)
      requires Now() == s && rules == ToRemove(s.recorded, desired) && s.recorded != desired
      modifies this
      ensures permanent == old(permanent) - Working(rules, w) && recorded == old(recorded)
      ensures ok <==> forall r <- rules :: w.works(r)
      ensures commands == old(commands) + |rules|
      ensures old(trail) <= trail && OnlyStops(trail[|old(trail)|..], s, desired)
    {
      hide Working, OnlyStops, Stopped;
      var todo := rules;
      ok := true;
      ghost var steps: seq<State> := [];
      NothingTried(s, desired, w);
      assert rules - todo == {};
      while todo != {}
        invariant todo <= rules && permanent == old(permanent) - Working(rules - todo, w) && recorded == old(recorded)
        invariant ok <==> forall r <- rules - todo :: w.works(r)
        invariant commands + |todo| == old(commands) + |rules|
        invariant trail == old(trail) + steps && OnlyStops(steps, s, desired)
      {
        var rule :| rule in todo;
        OneMoreTried(rules, todo, rule, w);
        var worked := Remove(rule, w.works(rule));
        ok := worked && ok;
        todo := todo - {rule};
        ghost var tried := Working(rules - todo, w);
        StoppedRemoving(s, desired, tried);
        OneMoreStop(steps, s, desired, tried);
        steps := steps + [Now()];
      }
      assert rules - todo == rules;
      assert trail[|old(trail)|..] == steps;
    }

    method AddAll(rules: Rules, w: Weather, ghost s: State, ghost desired: Rules) returns (ok: bool)
      requires rules == ToAdd(s.recorded, desired) && s.recorded != desired
      requires recorded == s.recorded && permanent == s.permanent - Working(ToRemove(s.recorded, desired), w)
      modifies this
      ensures permanent == old(permanent) + Working(rules, w) && recorded == old(recorded)
      ensures ok <==> forall r <- rules :: w.works(r)
      ensures commands == old(commands) + |rules|
      ensures old(trail) <= trail && OnlyStops(trail[|old(trail)|..], s, desired)
    {
      hide Working, OnlyStops, Stopped;
      var todo := rules;
      ok := true;
      ghost var steps: seq<State> := [];
      NothingTried(s, desired, w);
      assert rules - todo == {};
      while todo != {}
        invariant todo <= rules && permanent == old(permanent) + Working(rules - todo, w) && recorded == old(recorded)
        invariant ok <==> forall r <- rules - todo :: w.works(r)
        invariant commands + |todo| == old(commands) + |rules|
        invariant trail == old(trail) + steps && OnlyStops(steps, s, desired)
      {
        var rule :| rule in todo;
        OneMoreTried(rules, todo, rule, w);
        var worked := Add(rule, w.works(rule));
        ok := worked && ok;
        todo := todo - {rule};
        ghost var tried := Working(rules - todo, w);
        StoppedAdding(s, desired, tried, w);
        OneMoreStop(steps, s, desired, Working(ToRemove(s.recorded, desired), w) + tried);
        steps := steps + [Now()];
      }
      assert rules - todo == rules;
      assert trail[|old(trail)|..] == steps;
    }

    method Reconcile(desired: Rules, w: Weather, dryRun: bool) returns (ok: bool)
      modifies this
      ensures Now() == if dryRun then old(Now()) else Run(old(Now()), desired, w)
      ensures UpToDate(old(recorded), desired) || dryRun ==> ok && commands == old(commands)
      ensures !UpToDate(old(recorded), desired) && !dryRun ==>
        (ok <==> w.commandFound && Completes(old(recorded), desired, w) && w.reloads)
      ensures old(trail) <= trail && OnlyStops(trail[|old(trail)|..], old(Now()), desired)
    {
      hide Stopped, OnlyStops;
      var remove, add := ToRemove(recorded, desired), ToAdd(recorded, desired);
      NothingTried(old(Now()), desired, w);
      assert trail[|trail|..] == [];
      if remove == {} && add == {} {
        assert recorded == desired;
        return true;
      }
      if dryRun {
        return true;
      }
      if !w.commandFound {
        return false;
      }
      var removed := RemoveAll(remove, w, old(Now()), desired);
      ghost var half := trail;
      var added := AddAll(add, w, old(Now()), desired);
      StopsJoin(half[|old(trail)|..], trail[|half|..], old(Now()), desired);
      assert trail[|old(trail)|..] == half[|old(trail)|..] + trail[|half|..];
      ok := removed && added;
      if ok {
        commands := commands + 1;
        if !w.saves {
          return false;
        }
        recorded := desired;
        ok := w.reloads;
      }
    }
  }

  lemma NothingTried(s: State, desired: Rules, w: Weather)
    ensures Working({}, w) == {} && OnlyStops([], s, desired)
  {}

  lemma StopsJoin(a: seq<State>, b: seq<State>, s: State, desired: Rules)
    requires OnlyStops(a, s, desired) && OnlyStops(b, s, desired)
    ensures OnlyStops(a + b, s, desired)
  {}

  lemma StoppedRemoving(s: State, desired: Rules, done: Rules)
    requires done <= ToRemove(s.recorded, desired) && s.recorded != desired
    ensures State(s.permanent - done, s.recorded) == Stopped(s, desired, done)
  {
    var w := Weather(true, r => r in done, true, false);
    assert Working(ToRemove(s.recorded, desired), w) == done && Working(ToAdd(s.recorded, desired), w) == {};
  }

  lemma StoppedAdding(s: State, desired: Rules, done: Rules, w: Weather)
    requires done <= ToAdd(s.recorded, desired) && s.recorded != desired
    ensures var removed := Working(ToRemove(s.recorded, desired), w);
      State(s.permanent - removed + done, s.recorded) == Stopped(s, desired, removed + done)
  {
    var removed := Working(ToRemove(s.recorded, desired), w);
    var w' := Weather(true, r => r in removed + done, true, false);
    assert Working(ToRemove(s.recorded, desired), w') == removed && Working(ToAdd(s.recorded, desired), w') == done;
  }

  // ---------- what the state file does not know

  /** Rules in force that are neither foreign nor recorded. */
  function Extra(s: State, foreign: Rules): Rules {
    s.permanent - foreign - s.recorded
  }

  /** Recorded rules that are not in force. */
  function Lost(s: State): Rules {
    s.recorded - s.permanent
  }

  /** Other owners' rules are in force and are nobody else's. */
  predicate Apart(s: State, foreign: Rules) {
    foreign <= s.permanent && foreign !! s.recorded
  }

  /** In force: exactly the foreign and the desired rules; and the state file says so. */
  predicate Settled(s: State, foreign: Rules, desired: Rules) {
    s == State(foreign + desired, desired)
  }

  lemma SettledOwesNothing(s: State, foreign: Rules)
    requires Apart(s, foreign)
    ensures Settled(s, foreign, s.recorded) <==> Extra(s, foreign) == {} && Lost(s) == {}
  {
    if Extra(s, foreign) == {} && Lost(s) == {} {
      forall r ensures r in s.permanent <==> r in foreign + s.recorded {
        assert r !in Extra(s, foreign) && r !in Lost(s);
      }
    }
  }

  /**
    A run that writes the state file forgets exactly what it should have repaired: extra rules outside the new desired
    set stay, and lost rules inside it stay lost. A run that fails or is stopped before adds to both.
  */
  lemma RunAccounts(s: State, foreign: Rules, desired: Rules, w: Weather)
    requires Apart(s, foreign) && foreign !! desired && w.commandFound && s.recorded != desired
    ensures var t := Run(s, desired, w);
      && Apart(t, foreign)
      && (Completes(s.recorded, desired, w) ==>
           t.recorded == desired && Extra(t, foreign) == Extra(s, foreign) - desired && Lost(t) == Lost(s) * desired)
      && (!Completes(s.recorded, desired, w) ==>
           && t.recorded == s.recorded
           && Extra(t, foreign) == Extra(s, foreign) + Working(ToAdd(s.recorded, desired), w)
           && Lost(t) == Lost(s) + Working(ToRemove(s.recorded, desired), w))
  {
    var t := Run(s, desired, w);
    var removed, added := Working(ToRemove(s.recorded, desired), w), Working(ToAdd(s.recorded, desired), w);
    assert removed <= s.recorded && added <= desired && added !! s.recorded;
    if Completes(s.recorded, desired, w) {
      assert removed == s.recorded - desired && added == desired - s.recorded;
      forall r ensures r in Extra(t, foreign) <==> r in Extra(s, foreign) - desired {}
      forall r ensures r in Lost(t) <==> r in Lost(s) * desired {}
    } else {
      forall r ensures r in Extra(t, foreign) <==> r in Extra(s, foreign) + added {}
      forall r ensures r in Lost(t) <==> r in Lost(s) + removed {}
    }
  }

  /** The exact condition: a run in which all works converges iff every extra rule is desired and no lost one is. */
  lemma ConvergesExactlyIf(s: State, foreign: Rules, desired: Rules, w: Weather)
    requires Apart(s, foreign) && foreign !! desired && w.commandFound && Completes(s.recorded, desired, w)
    ensures Settled(Run(s, desired, w), foreign, desired) <==>
      if s.recorded == desired then Extra(s, foreign) == {} && Lost(s) == {}
      else Extra(s, foreign) <= desired && Lost(s) !! desired
  {
    if s.recorded == desired {
      SettledOwesNothing(s, foreign);
    } else {
      RunAccounts(s, foreign, desired, w);
      SettledOwesNothing(Run(s, desired, w), foreign);
    }
  }

  // ---------- sequences of runs

  datatype Step = Step(desired: Rules, weather: Weather)

  function Runs(s: State, steps: seq<Step>): State {
    if steps == [] then s
    else
      var n := |steps| - 1;
      Run(Runs(s, steps[..n]), steps[n].desired, steps[n].weather)
  }

  function AlwaysWorks(): Weather {
    Weather(true, _ => true, true, true)
  }

  /** Every rule command works and the state file is written; the reload may still fail. */
  ghost predicate Works(w: Weather) {
    w.commandFound && w.saves && forall r :: w.works(r)
  }

  /**
    While everything works, any sequence of desired sets leaves the foreign and the last desired rules, as recorded.
  */
  lemma {:induction false} WorkingRunsConverge(s: State, foreign: Rules, steps: seq<Step>)
    requires foreign !! s.recorded && Settled(s, foreign, s.recorded)
    requires forall k :: 0 <= k < |steps| ==> foreign !! steps[k].desired && Works(steps[k].weather)
    ensures Settled(Runs(s, steps), foreign, if steps == [] then s.recorded else steps[|steps| - 1].desired)
    ensures foreign !! Runs(s, steps).recorded
  {
    if steps == [] {
    } else {
      var n := |steps| - 1;
      WorkingRunsConverge(s, foreign, steps[..n]);
      var before := Runs(s, steps[..n]);
      SettledOwesNothing(before, foreign);
      ConvergesExactlyIf(before, foreign, steps[n].desired, steps[n].weather);
    }
  }

  /** Whatever fails while one desired set is retried, what is owed stays within reach of the next run. */
  lemma {:induction false} RetriesStayInReach(s: State, foreign: Rules, desired: Rules, steps: seq<Step>)
    requires foreign !! desired && foreign !! s.recorded && Settled(s, foreign, s.recorded)
    requires forall k :: 0 <= k < |steps| ==> steps[k].desired == desired
    ensures var t := Runs(s, steps);
      && Apart(t, foreign) && Extra(t, foreign) <= desired && Lost(t) !! desired
      && (t.recorded == desired ==> Settled(t, foreign, desired))
  {
    if steps == [] {
      SettledOwesNothing(s, foreign);
    } else {
      var n := |steps| - 1;
      RetriesStayInReach(s, foreign, desired, steps[..n]);
      var before, w := Runs(s, steps[..n]), steps[n].weather;
      if w.commandFound && before.recorded != desired {
        RunAccounts(before, foreign, desired, w);
        SettledOwesNothing(Run(before, desired, w), foreign);
      }
    }
  }

  /** Retries of one desired set converge: any failures and stops, then one run in which everything works. */
  lemma RetriesConverge(s: State, foreign: Rules, desired: Rules, steps: seq<Step>)
    requires foreign !! desired && foreign !! s.recorded && Settled(s, foreign, s.recorded)
    requires forall k :: 0 <= k < |steps| ==> steps[k].desired == desired
    ensures Settled(Run(Runs(s, steps), desired, AlwaysWorks()), foreign, desired)
  {
    RetriesStayInReach(s, foreign, desired, steps);
    var t := Runs(s, steps);
    if t.recorded != desired {
      ConvergesExactlyIf(t, foreign, desired, AlwaysWorks());
    }
  }

  /** Once settled, another run for the same rules issues no command and changes nothing, whatever would have failed. */
  method RunAgain(zone: Zone, foreign: Rules, desired: Rules, w: Weather)
    requires Settled(zone.Now(), foreign, desired)
    modifies zone
    ensures zone.Now() == old(zone.Now()) && zone.commands == old(zone.commands)
  {
    var ok := zone.Reconcile(desired, w, false);
  }

  // ---------- a change of mind after a failure

  /**
    After one run for `first` that failed or was stopped at any point, a working run for `second` converges exactly if
    no rule the failed run added is unwanted now, and no rule it removed is wanted again. Otherwise every later run for
    `second` finds nothing to do.
  */
  lemma ChangeOfMind(s: State, foreign: Rules, first: Rules, second: Rules, w: Weather)
    requires foreign !! s.recorded && foreign !! first && foreign !! second && Settled(s, foreign, s.recorded)
    requires w.commandFound && !Completes(s.recorded, first, w) && s.recorded != first
    ensures var middle := Run(s, first, w); var last := Run(middle, second, AlwaysWorks());
      && (Settled(last, foreign, second) <==>
           Working(ToAdd(s.recorded, first), w) <= second && Working(ToRemove(s.recorded, first), w) !! second)
      && last.recorded == second && Run(last, second, AlwaysWorks()) == last
  {
    SettledOwesNothing(s, foreign);
    RunAccounts(s, foreign, first, w);
    var middle := Run(s, first, w);
    var added, removed := Working(ToAdd(s.recorded, first), w), Working(ToRemove(s.recorded, first), w);
    assert Extra(middle, foreign) == added && Lost(middle) == removed;
    assert added !! s.recorded && removed <= s.recorded;
    ConvergesExactlyIf(middle, foreign, second, AlwaysWorks());
  }

  /**
    For example: one rule is opened, another command fails, the setting is switched off. The rule stays open for good.
  */
  lemma AnOpenedRuleMayStay()
    ensures var w := Weather(true, (r: string) => r == "open", true, true);
      var middle := Run(State({}, {}), {"open", "shut"}, w);
      middle == State({"open"}, {}) && Run(middle, {}, AlwaysWorks()) == middle && !Settled(middle, {}, {})
  {
    var w := Weather(true, (r: string) => r == "open", true, true);
    var desired: Rules := {"open", "shut"};
    assert "shut" in desired && !w.works("shut");
    assert Working(ToAdd({}, desired), w) == {"open"};
    assert "open" in {"open"};
  }
}
