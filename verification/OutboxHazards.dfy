// Runs in which the code's relays and scripts get into each other's way. Every step but the
// last is timely, so the conditions of OutboxLeases cannot be dropped.
module OutboxHazards {
  import opened Prelude
  import opened OutboxEntities
  import opened OutboxRelay
  import opened OutboxReplay
  import opened OutboxRuns
  import opened OutboxLeases
  import opened OutboxAttempts

  // `actions`, each of them timely, lead from `s` to `s'`.
  ghost predicate Leads(s: State, actions: seq<Action>, s': State)
    decreases |actions|
  {
    if actions == [] then s == s'
    else Enabled(s, actions[0]) && Timely(s, actions[0]) && Leads(Next(s, actions[0]), actions[1..], s')
  }

  lemma {:induction false} LeadsThen(s: State, actions: seq<Action>, s': State, a: Action)
    requires Leads(s, actions, s') && Enabled(s', a) && Timely(s', a)
    ensures Leads(s, actions + [a], Next(s', a))
    decreases |actions|
  {
    if actions == [] {
      assert (actions + [a])[1..] == [];
    } else {
      LeadsThen(Next(s, actions[0]), actions[1..], s', a);
      assert (actions + [a])[1..] == actions[1..] + [a];
    }
  }

  // ----- States with a single event -----

  const EVENT := "event"
  const FRESH := NewRow(EVENT, "PaymentRecordedEvent", 0)

  type Copies = map<RunId, map<EventId, Copy>>

  function One(clock: Time, row: Row, jobs: set<EventId>, copies: Copies): State {
    State(clock, map[EVENT := row], jobs, copies, map[])
  }

  function VerdictOf(outcome: AddOutcome): Verdict {
    if outcome.Accepted? then Sent else Failure
  }

  // A timely step from `s` to `s'`.
  ghost predicate Steps(s: State, a: Action, s': State) {
    Enabled(s, a) && Timely(s, a) && Next(s, a) == s'
  }

  lemma Extend(s0: State, actions: seq<Action>, s: State, a: Action, s': State) returns (actions': seq<Action>)
    requires Leads(s0, actions, s) && Steps(s, a, s')
    ensures Leads(s0, actions', s') && actions' == actions + [a]
  {
    LeadsThen(s0, actions, s, a);
    actions' := actions + [a];
  }

  function Solo(copies: Copies, run: RunId, copy: Copy): Copies {
    copies[run := map[EVENT := copy]]
  }

  lemma ClaimOne(clock: Time, row: Row, jobs: set<EventId>, copies: Copies, run: RunId, instance: string)
    requires run !in copies && Eligible(row, clock)
    ensures var claimed := Claimed(row, instance, clock);
            Steps(One(clock, row, jobs, copies), Claim(run, instance, clock, {EVENT}),
                  One(clock, claimed, jobs, Solo(copies, run, Copy(claimed, claimed, Waiting))))
  {
    var s := One(clock, row, jobs, copies);
    var claimed := Claimed(row, instance, clock);
    assert ClaimAll(s.table, {EVENT}, instance, clock) == map[EVENT := claimed];
    assert Next(s, Claim(run, instance, clock, {EVENT})).copies[run] == map[EVENT := Copy(claimed, claimed, Waiting)];
  }

  lemma RenewOne(clock: Time, row: Row, jobs: set<EventId>, copies: Copies, run: RunId, instance: string, base: Row)
    requires base.claimLeaseExpiresAt.Some? && clock < base.claimLeaseExpiresAt.value
    ensures Steps(One(clock, row, jobs, Solo(copies, run, Copy(base, base, Waiting))), Renew(run, EVENT, instance),
                  One(clock, row, jobs, Solo(copies, run, Copy(base, Claimed(base, instance, clock), Adding))))
  {
    var copy := Copy(base, Claimed(base, instance, clock), Adding);
    assert map[EVENT := Copy(base, base, Waiting)][EVENT := copy] == map[EVENT := copy];
    assert Solo(Solo(copies, run, Copy(base, base, Waiting)), run, copy) == Solo(copies, run, copy);
  }

  lemma AddOne(clock: Time, row: Row, jobs: set<EventId>, copies: Copies, run: RunId, before: Copy, outcome: AddOutcome)
    requires before.phase == Adding && before.base.claimLeaseExpiresAt.Some?
    requires clock < before.base.claimLeaseExpiresAt.value
    ensures Steps(One(clock, row, jobs, Solo(copies, run, before)), Add(run, EVENT, outcome),
                  One(clock, row, if Stored(outcome) then jobs + {EVENT} else jobs,
                      Solo(copies, run, Copy(before.base, AddSettled(before.row, outcome, clock), Settled(VerdictOf(outcome))))))
  {
    var copy := Copy(before.base, AddSettled(before.row, outcome, clock), Settled(VerdictOf(outcome)));
    assert map[EVENT := before][EVENT := copy] == map[EVENT := copy];
    assert Solo(Solo(copies, run, before), run, copy) == Solo(copies, run, copy);
  }

  // One relay of the single event, up to the answer of the queue.
  lemma RelayOneEvent(s0: State, actions: seq<Action>, clock: Time, row: Row, jobs: set<EventId>, copies: Copies,
                      run: RunId, instance: string, outcome: AddOutcome)
      returns (actions': seq<Action>)
    requires run !in copies && Eligible(row, clock) && Leads(s0, actions, One(clock, row, jobs, copies))
    ensures actions' == actions + [Claim(run, instance, clock, {EVENT}), Renew(run, EVENT, instance), Add(run, EVENT, outcome)]
    ensures var claimed := Claimed(row, instance, clock);
            Leads(s0, actions', One(clock, claimed, if Stored(outcome) then jobs + {EVENT} else jobs,
              Solo(copies, run, Copy(claimed, AddSettled(claimed, outcome, clock), Settled(VerdictOf(outcome))))))
  {
    var claimed := Claimed(row, instance, clock);
    var adding := Copy(claimed, claimed, Adding);
    var s1 := One(clock, claimed, jobs, Solo(copies, run, Copy(claimed, claimed, Waiting)));
    var s2 := One(clock, claimed, jobs, Solo(copies, run, adding));
    ClaimOne(clock, row, jobs, copies, run, instance);
    actions' := Extend(s0, actions, One(clock, row, jobs, copies), Claim(run, instance, clock, {EVENT}), s1);
    RenewOne(clock, claimed, jobs, copies, run, instance, claimed);
    actions' := Extend(s0, actions', s1, Renew(run, EVENT, instance), s2);
    AddOne(clock, claimed, jobs, copies, run, adding, outcome);
    actions' := Extend(s0, actions', s2, Add(run, EVENT, outcome),
      One(clock, claimed, if Stored(outcome) then jobs + {EVENT} else jobs,
          Solo(copies, run, Copy(claimed, AddSettled(claimed, outcome, clock), Settled(VerdictOf(outcome))))));
  }

  // What leads from an initial state is a timely run.
  lemma {:induction false} LeadsIsTimely(s0: State, actions: seq<Action>, s: State) returns (states: seq<State>)
    requires Leads(s0, actions, s)
    ensures |states| == |actions| + 1 && states[0] == s0 && states[|actions|] == s
    ensures forall i :: 0 <= i < |actions| ==>
              && Enabled(states[i], actions[i]) && Timely(states[i], actions[i])
              && states[i + 1] == Next(states[i], actions[i])
    decreases |actions|
  {
    if actions == [] {
      states := [s0];
    } else {
      var rest := LeadsIsTimely(Next(s0, actions[0]), actions[1..], s);
      states := [s0] + rest;
      forall i | 0 < i < |actions|
        ensures && Enabled(states[i], actions[i]) && Timely(states[i], actions[i])
                && states[i + 1] == Next(states[i], actions[i])
      {
        assert states[i] == rest[i - 1] && actions[i] == actions[1..][i - 1] && states[i + 1] == rest[i];
      }
    }
  }

  // ----- Failures that leave no trace -----

  lemma {:induction false} MoreActions(actions: seq<Action>, more: seq<Action>, e: EventId)
    ensures Rejections(actions + more, e, 0, |actions + more|)
         == Rejections(actions, e, 0, |actions|) + Rejections(more, e, 0, |more|)
  {
    CountsPrefix(actions, more, e, |actions|);
    MoreCounts(actions, more, e, |more|);
  }

  lemma {:induction false} CountsPrefix(actions: seq<Action>, more: seq<Action>, e: EventId, n: nat)
    requires n <= |actions|
    ensures Rejections(actions + more, e, 0, n) == Rejections(actions, e, 0, n)
  {
    if n > 0 {
      CountsPrefix(actions, more, e, n - 1);
    }
  }

  lemma {:induction false} MoreCounts(actions: seq<Action>, more: seq<Action>, e: EventId, n: nat)
    requires n <= |more| && Rejections(actions + more, e, 0, |actions|) == Rejections(actions, e, 0, |actions|)
    ensures Rejections(actions + more, e, 0, |actions| + n) == Rejections(actions, e, 0, |actions|) + Rejections(more, e, 0, n)
  {
    if n > 0 {
      MoreCounts(actions, more, e, n - 1);
      assert (actions + more)[|actions| + n - 1] == more[n - 1];
    }
  }

  // One more relay claims the event, is rejected by the queue, and crashes before its save.
  function Forgotten(t: Time): seq<Action> {
    [Claim(1, "a", t, {EVENT}), Renew(1, EVENT, "a"), Add(1, EVENT, Rejected("timeout", false)), Crash(1), Tick(60000)]
  }

  lemma ForgottenCounts(t: Time)
    ensures Rejections(Forgotten(t), EVENT, 0, 5) == 1
  {
    var f := Forgotten(t);
    assert Rejections(f, EVENT, 0, 1) == 0 && Rejections(f, EVENT, 0, 2) == 0 && Rejections(f, EVENT, 0, 3) == 1;
    assert Rejections(f, EVENT, 0, 4) == 1;
  }

  function AfterCrashes(n: nat): Row {
    if n == 0 then FRESH else Claimed(FRESH, "a", 60000 * (n - 1))
  }

  lemma {:induction false} ForgetTimes(s0: State, n: nat) returns (actions: seq<Action>)
    requires s0 == One(0, FRESH, {}, map[])
    ensures Leads(s0, actions, One(60000 * n, AfterCrashes(n), {}, map[]))
    ensures Rejections(actions, EVENT, 0, |actions|) == n
  {
    if n == 0 {
      actions := [];
    } else {
      var t, row, none: Copies := 60000 * (n - 1), AfterCrashes(n - 1), map[];
      var before := ForgetTimes(s0, n - 1);
      actions := RelayOneEvent(s0, before, t, row, {}, none, 1, "a", Rejected("timeout", false));
      var claimed := Claimed(row, "a", t);
      var copy := Copy(claimed, AddSettled(claimed, Rejected("timeout", false), t), Settled(Failure));
      var s1 := One(t, claimed, {}, Solo(none, 1, copy));
      assert Solo(none, 1, copy) - {1} == none;
      actions := Extend(s0, actions, s1, Crash(1), One(t, claimed, {}, none));
      actions := Extend(s0, actions, One(t, claimed, {}, none), Tick(60000), One(60000 * n, claimed, {}, none));
      assert actions == before + Forgotten(t);
      MoreActions(before, Forgotten(t), EVENT);
      ForgottenCounts(t);
    }
  }

  // For every n there is a timely run in which the queue rejects an event n times and the row
  // is still as if it had never been tried: each relay crashed before its save.
  lemma FailuresWithoutATrace(n: nat) returns (states: seq<State>, actions: seq<Action>)
    ensures TimelyRun(states, actions) && Rejections(actions, EVENT, 0, |actions|) == n
    ensures EVENT in states[|actions|].table
    ensures states[|actions|].table[EVENT].status == PENDING && states[|actions|].table[EVENT].retryCount == 0
  {
    var s0 := One(0, FRESH, {}, map[]);
    actions := ForgetTimes(s0, n);
    states := LeadsIsTimely(s0, actions, One(60000 * n, AfterCrashes(n), {}, map[]));
    assert Init(s0);
  }

  // ----- A relay that saves late -----

  // Relay 1 after its failed attempt, before its save.
  function LateCopy(): Copy {
    var row := Claimed(FRESH, "a", 0);
    Copy(row, AddSettled(row, Rejected("timeout", false), 0), Settled(Failure))
  }

  lemma RelayFailsAndStalls(s0: State) returns (actions: seq<Action>)
    requires s0 == One(0, FRESH, {}, map[])
    ensures Leads(s0, actions, One(60000, LateCopy().base, {}, map[1 := map[EVENT := LateCopy()]]))
  {
    var row, none: Copies := FRESH, map[];
    actions := RelayOneEvent(s0, [], 0, row, {}, none, 1, "a", Rejected("timeout", false));
    assert none[1 := map[EVENT := LateCopy()]] == map[1 := map[EVENT := LateCopy()]];
    var late := map[1 := map[EVENT := LateCopy()]];
    actions := Extend(s0, actions, One(0, LateCopy().base, {}, late), Tick(60000), One(60000, LateCopy().base, {}, late));
  }

  // Relay 1 fails, and saves only after its lease ran out and relay 2 has dispatched the event:
  // the late save takes the dispatched row back to PENDING. No relay is live by then, so
  // exclusion is kept.
  lemma LateSaveUndoesDispatch() returns (actions: seq<Action>, s: State)
    ensures var s0 := One(0, FRESH, {}, map[]);
            Init(s0) && Leads(s0, actions, s)
    ensures EVENT in s.table && s.table[EVENT].status == DISPATCHED
    ensures Enabled(s, Save(1, EVENT)) && !Timely(s, Save(1, EVENT))
    ensures Undoes(s, Save(1, EVENT)) && !Clashes(s, Save(1, EVENT))
    ensures EVENT in Next(s, Save(1, EVENT)).table && Next(s, Save(1, EVENT)).table[EVENT].status == PENDING
  {
    var s0 := One(0, FRESH, {}, map[]);
    actions := RelayFailsAndStalls(s0);
    var row1, copies := LateCopy().base, map[1 := map[EVENT := LateCopy()]];
    actions := RelayOneEvent(s0, actions, 60000, row1, {}, copies, 2, "b", Accepted);
    var row2 := Claimed(row1, "b", 60000);
    var sent := Copy(row2, Dispatched(row2, 60000), Settled(Sent));
    var s1 := One(60000, row2, {} + {EVENT}, copies[2 := map[EVENT := sent]]);
    SavedLate(s1, sent);
    s := Next(s1, Save(2, EVENT));
    actions := Extend(s0, actions, s1, Save(2, EVENT), s);
  }

  lemma SavedLate(s: State, sent: Copy)
    requires s.copies == map[1 := map[EVENT := LateCopy()], 2 := map[EVENT := sent]]
    requires s.clock == 60000 && sent.row.status == DISPATCHED && sent.phase == Settled(Sent)
    requires sent.base.claimLeaseExpiresAt == Some(120000)
    ensures Enabled(s, Save(2, EVENT)) && Timely(s, Save(2, EVENT))
    ensures var s' := Next(s, Save(2, EVENT));
            && EVENT in s'.table && s'.table[EVENT].status == DISPATCHED
            && Enabled(s', Save(1, EVENT)) && !Timely(s', Save(1, EVENT))
            && Undoes(s', Save(1, EVENT)) && !Clashes(s', Save(1, EVENT))
            && EVENT in Next(s', Save(1, EVENT)).table && Next(s', Save(1, EVENT)).table[EVENT].status == PENDING
  {
    var s' := Next(s, Save(2, EVENT));
    assert s'.copies[1] == map[EVENT := LateCopy()];
  }

  // Relay 1 saves while relay 2 is live on the event: relay 2's lease is gone from the table,
  // relay 3 claims the event, and two relays are live on it.
  lemma LateSaveBreaksExclusion() returns (actions: seq<Action>, s: State)
    ensures var s0 := One(0, FRESH, {}, map[]);
            Init(s0) && Leads(s0, actions, s)
    ensures Live(s, 2, EVENT) && Enabled(s, Save(1, EVENT)) && Clashes(s, Save(1, EVENT))
    ensures var s' := Next(s, Save(1, EVENT));
            && Enabled(s', Claim(3, "c", s.clock, {EVENT}))
            && Live(Next(s', Claim(3, "c", s.clock, {EVENT})), 2, EVENT)
            && Live(Next(s', Claim(3, "c", s.clock, {EVENT})), 3, EVENT)
  {
    var s0 := One(0, FRESH, {}, map[]);
    actions := RelayFailsAndStalls(s0);
    var row1, copies := LateCopy().base, map[1 := map[EVENT := LateCopy()]];
    var row2 := Claimed(row1, "b", 60000);
    s := One(60000, row2, {}, Solo(copies, 2, Copy(row2, row2, Waiting)));
    ClaimOne(60000, row1, {}, copies, 2, "b");
    actions := Extend(s0, actions, One(60000, row1, {}, copies), Claim(2, "b", 60000, {EVENT}), s);
    SavedUnderALiveRelay(s, row2);
  }

  lemma SavedUnderALiveRelay(s: State, row2: Row)
    requires s.copies == map[1 := map[EVENT := LateCopy()], 2 := map[EVENT := Copy(row2, row2, Waiting)]]
    requires s.clock == 60000 && row2.claimLeaseExpiresAt == Some(120000)
    requires row2.retryCount == 0
    ensures Live(s, 2, EVENT) && Enabled(s, Save(1, EVENT)) && Clashes(s, Save(1, EVENT))
    ensures var s' := Next(s, Save(1, EVENT));
            && Enabled(s', Claim(3, "c", 60000, {EVENT}))
            && Live(Next(s', Claim(3, "c", 60000, {EVENT})), 2, EVENT)
            && Live(Next(s', Claim(3, "c", 60000, {EVENT})), 3, EVENT)
  {
    assert s.copies[1][EVENT].row.retryCount == 1;
    var s' := Next(s, Save(1, EVENT));
    assert Eligible(s'.table[EVENT], 60000) by {
      BackoffOfAttempt(1);
    }
    var s'' := Next(s', Claim(3, "c", 60000, {EVENT}));
    assert s''.copies[2] == s.copies[2];
    assert s''.copies[3][EVENT].base.claimLeaseExpiresAt == Some(120000);
  }

  // ----- Two replay scripts at once -----

  // A relay that gave its answer saves in time and is done.
  lemma SaveOne(clock: Time, row: Row, copy: Copy)
    requires copy.phase.Settled? && copy.base.claimLeaseExpiresAt.Some? && clock < copy.base.claimLeaseExpiresAt.value
    ensures Steps(One(clock, row, {}, map[1 := map[EVENT := copy]]), Save(1, EVENT), One(clock, copy.row, {}, map[1 := map[]]))
    ensures Steps(One(clock, copy.row, {}, map[1 := map[]]), Crash(1), One(clock, copy.row, {}, map[]))
  {
    var s := One(clock, row, {}, map[1 := map[EVENT := copy]]);
    assert map[EVENT := copy] - {EVENT} == map[];
    assert Next(s, Save(1, EVENT)).table == map[EVENT := copy.row];
  }

  function AfterFailures(n: nat): Row {
    if n == 0 then FRESH
    else AttemptFailed(Claimed(AfterFailures(n - 1), "a", 60000 * (n - 1)), "timeout", 60000 * (n - 1))
  }

  lemma {:induction false} AfterFailuresIs(n: nat)
    requires n <= 5
    ensures var row := AfterFailures(n);
            && row.id == EVENT && row.retryCount == n && row.dispatchedAt.None? && (n > 0 ==> row.error.Some?)
            && (n < 5 ==> row.deadLetteredAt.None? && Eligible(row, 60000 * n))
            && (n == 5 ==> row.deadLetteredAt.Some? && row.status == DEAD_LETTER)
  {
    if n > 0 {
      AfterFailuresIs(n - 1);
      BackoffOfAttempt(n);
    }
  }

  // Five relays fail, one a minute, and the event is dead.
  lemma {:induction false} FailTimes(s0: State, n: nat) returns (actions: seq<Action>)
    requires s0 == One(0, FRESH, {}, map[]) && n <= 5
    ensures Leads(s0, actions, One(60000 * n, AfterFailures(n), {}, map[]))
  {
    if n == 0 {
      actions := [];
    } else {
      var t, row, none: Copies := 60000 * (n - 1), AfterFailures(n - 1), map[];
      actions := FailTimes(s0, n - 1);
      AfterFailuresIs(n - 1);
      actions := RelayOneEvent(s0, actions, t, row, {}, none, 1, "a", Rejected("timeout", false));
      var claimed := Claimed(row, "a", t);
      var copy := Copy(claimed, AfterFailures(n), Settled(Failure));
      var s1 := One(t, claimed, {}, map[1 := map[EVENT := copy]]);
      assert Solo(none, 1, copy) == map[1 := map[EVENT := copy]];
      SaveOne(t, claimed, copy);
      actions := Extend(s0, actions, s1, Save(1, EVENT), One(t, copy.row, {}, map[1 := map[]]));
      actions := Extend(s0, actions, One(t, copy.row, {}, map[1 := map[]]), Crash(1), One(t, copy.row, {}, map[]));
      actions := Extend(s0, actions, One(t, copy.row, {}, map[]), Tick(60000), One(60000 * n, copy.row, {}, map[]));
    }
  }

  // Two scripts load the same dead row, relay 1 claims it between their saves, and the second
  // save drops its lease, so that relay 2 claims it as well. Every relay is in time.
  lemma OverlappingReplaysBreakExclusion() returns (actions: seq<Action>, s: State)
    ensures var s0 := One(0, FRESH, {}, map[]);
            Init(s0) && Leads(s0, actions, s)
    ensures SecondSaveClashes(s)
  {
    var s0 := One(0, FRESH, {}, map[]);
    var failed := FailTimes(s0, 5);
    AfterFailuresIs(5);
    actions, s := ScriptsThenClaim(s0, failed, 300000, AfterFailures(5));
  }

  // Relay 1 is live when script 12 saves, and afterwards relay 2 can claim the event as well.
  ghost predicate SecondSaveClashes(s: State) {
    && Live(s, 1, EVENT) && Enabled(s, ReplaySave(12, EVENT)) && Clashes(s, ReplaySave(12, EVENT))
    && var s' := Next(s, ReplaySave(12, EVENT));
       && Enabled(s', Claim(2, "b", s.clock, {EVENT}))
       && Live(Next(s', Claim(2, "b", s.clock, {EVENT})), 1, EVENT)
       && Live(Next(s', Claim(2, "b", s.clock, {EVENT})), 2, EVENT)
  }

  lemma ScriptsThenClaim(s0: State, before: seq<Action>, t: Time, dead: Row) returns (actions: seq<Action>, s: State)
    requires dead.id == EVENT && dead.status == DEAD_LETTER && Leads(s0, before, One(t, dead, {}, map[]))
    ensures Leads(s0, actions, s) && SecondSaveClashes(s)
  {
    var s2;
    actions, s2 := BothScriptsLoad(s0, before, t, dead);
    FirstScriptSaves(s2, t, dead);
    var s3 := Next(s2, ReplaySave(11, EVENT));
    actions := Extend(s0, actions, s2, ReplaySave(11, EVENT), s3);
    ReplayedThenClaimed(s3, t, dead);
    s := Next(s3, Claim(1, "a", t, {EVENT}));
    actions := Extend(s0, actions, s3, Claim(1, "a", t, {EVENT}), s);
  }

  lemma BothScriptsLoad(s0: State, before: seq<Action>, t: Time, dead: Row) returns (actions: seq<Action>, s: State)
    requires dead.id == EVENT && dead.status == DEAD_LETTER && Leads(s0, before, One(t, dead, {}, map[]))
    ensures Leads(s0, actions, s)
    ensures s == One(t, dead, {}, map[]).(replays := map[11 := map[EVENT := dead], 12 := map[EVENT := dead]])
  {
    var start := One(t, dead, {}, map[]);
    var s1 := Next(start, ReplayLoad(11, false, {EVENT}));
    assert s1.replays[11] == map[EVENT := dead];
    actions := Extend(s0, before, start, ReplayLoad(11, false, {EVENT}), s1);
    s := Next(s1, ReplayLoad(12, false, {EVENT}));
    assert s.replays[12] == map[EVENT := dead];
    actions := Extend(s0, actions, s1, ReplayLoad(12, false, {EVENT}), s);
  }

  lemma FirstScriptSaves(s: State, t: Time, dead: Row)
    requires dead.id == EVENT && dead.status == DEAD_LETTER
    requires s == One(t, dead, {}, map[]).(replays := map[11 := map[EVENT := dead], 12 := map[EVENT := dead]])
    ensures Enabled(s, ReplaySave(11, EVENT)) && Timely(s, ReplaySave(11, EVENT))
    ensures var s' := Next(s, ReplaySave(11, EVENT));
            && s'.clock == t && s'.table == map[EVENT := Reset(dead)] && s'.copies == map[]
            && Replays(s', 12, EVENT) && s'.replays[12][EVENT] == dead
  {
    var s' := Next(s, ReplaySave(11, EVENT));
    assert s'.replays[12] == map[EVENT := dead];
  }

  lemma ReplayedThenClaimed(s: State, t: Time, dead: Row)
    requires s.clock == t && s.table == map[EVENT := Reset(dead)] && s.copies == map[] && Replays(s, 12, EVENT)
    requires dead.id == EVENT && dead.status == DEAD_LETTER && s.replays[12][EVENT] == dead
    ensures Enabled(s, Claim(1, "a", t, {EVENT}))
    ensures SecondSaveClashes(Next(s, Claim(1, "a", t, {EVENT})))
  {
    var s1 := Next(s, Claim(1, "a", t, {EVENT}));
    assert s1.copies[1][EVENT].base.claimLeaseExpiresAt == Some(t + 60000);
    assert Live(s1, 1, EVENT);
    var s2 := Next(s1, ReplaySave(12, EVENT));
    ReplayedIsEligibleAtOnce(dead, false, t);
    var s3 := Next(s2, Claim(2, "b", t, {EVENT}));
    assert s3.copies[1] == s1.copies[1];
  }
}
