// Any number of relays, crashes and replay scripts interleaved over one table and queue.
// A relay holds in-memory copies of the rows it claimed; each field update, queue call and
// save is a step of its own. Within a batch the copies may be relayed in any order, which
// allows every order the loop has and more.
module OutboxRuns {
  import opened Prelude
  import opened OutboxEntities
  import opened OutboxRelay
  import opened OutboxReplay

  type RunId = nat  // one run of processBatch, or one run of the replay script

  datatype Verdict = Sent | Failure | Skipped

  datatype Phase = Waiting | Adding | Settled(verdict: Verdict)

  // `base` is the row as claimed and persisted, `row` the object in memory.
  datatype Copy = Copy(base: Row, row: Row, phase: Phase)

  datatype State = State(
    clock: Time,
    table: Table,
    jobs: set<EventId>,
    copies: map<RunId, map<EventId, Copy>>,
    replays: map<RunId, map<EventId, Row>>)

  datatype Action =
    | Tick(elapsed: Time)
    | Produce(id: EventId, eventType: string)
    | Claim(run: RunId, instance: string, queried: Time, ids: set<EventId>)
    | Kill(run: RunId, id: EventId)
    | Renew(run: RunId, id: EventId, instance: string)
    | Add(run: RunId, id: EventId, outcome: AddOutcome)
    | Save(run: RunId, id: EventId)
    | Crash(run: RunId)
    | ReplayLoad(run: RunId, killSwitch: bool, ids: set<EventId>)
    | ReplaySave(run: RunId, id: EventId)

  predicate Holds(s: State, run: RunId, id: EventId) {
    run in s.copies && id in s.copies[run]
  }

  predicate Replays(s: State, run: RunId, id: EventId) {
    run in s.replays && id in s.replays[run]
  }

  ghost predicate Enabled(s: State, a: Action) {
    match a
    case Tick(_) => true
    case Produce(id, _) => id !in s.table
    case Claim(run, _, queried, ids) =>
      && run !in s.copies
      && queried <= s.clock
      && |ids| <= BATCH_SIZE
      && forall e :: e in ids ==> e in s.table && Eligible(s.table[e], queried)
    case Kill(run, id) => Holds(s, run, id) && s.copies[run][id].phase == Waiting
    case Renew(run, id, _) => Holds(s, run, id) && s.copies[run][id].phase == Waiting
    case Add(run, id, _) => Holds(s, run, id) && s.copies[run][id].phase == Adding
    case Save(run, id) => Holds(s, run, id) && s.copies[run][id].phase.Settled?
    case Crash(run) => run in s.copies
    case ReplayLoad(run, killSwitch, ids) =>
      run !in s.replays && forall e :: e in ids ==> e in s.table && Replayable(s.table[e], killSwitch)
    case ReplaySave(run, id) => Replays(s, run, id)
  }

  function WithCopy(s: State, run: RunId, id: EventId, copy: Copy): State
    requires Holds(s, run, id)
  {
    s.(copies := s.copies[run := s.copies[run][id := copy]])
  }

  ghost function Next(s: State, a: Action): State
    requires Enabled(s, a)
  {
    match a
    case Tick(elapsed) => s.(clock := s.clock + elapsed)
    case Produce(id, eventType) => s.(table := s.table[id := NewRow(id, eventType, s.clock)])
    case Claim(run, instance, queried, ids) =>
      s.(table := ClaimAll(s.table, ids, instance, s.clock),
         copies := s.copies[run := map e | e in ids ::
           var row := Claimed(s.table[e], instance, s.clock); Copy(row, row, Waiting)])
    case Kill(run, id) =>
      var copy := s.copies[run][id];
      WithCopy(s, run, id, copy.(row := Killed(copy.row), phase := Settled(Skipped)))
    case Renew(run, id, instance) =>
      var copy := s.copies[run][id];
      WithCopy(s, run, id, copy.(row := Claimed(copy.row, instance, s.clock), phase := Adding))
    case Add(run, id, outcome) =>
      var copy := s.copies[run][id];
      WithCopy(s, run, id, copy.(row := AddSettled(copy.row, outcome, s.clock),
                                 phase := Settled(if outcome.Accepted? then Sent else Failure)))
        .(jobs := if Stored(outcome) then s.jobs + {id} else s.jobs)
    case Save(run, id) =>
      s.(table := s.table[id := s.copies[run][id].row], copies := s.copies[run := s.copies[run] - {id}])
    case Crash(run) => s.(copies := s.copies - {run})
    case ReplayLoad(run, _, ids) => s.(replays := s.replays[run := map e | e in ids :: s.table[e]])
    case ReplaySave(run, id) =>
      s.(table := s.table[id := Reset(s.replays[run][id])], replays := s.replays[run := s.replays[run] - {id}])
  }

  // Before any step: rows just produced, or legacy rows that no step touches.
  ghost predicate Init(s: State) {
    && s.copies == map[] && s.replays == map[]
    && forall e :: e in s.table ==>
         && s.table[e].id == e
         && (s.table[e].status == PUBLISHED
             || s.table[e] == NewRow(e, s.table[e].eventType, s.table[e].createdAt))
  }

  ghost predicate IsRun(states: seq<State>, actions: seq<Action>) {
    && |states| == |actions| + 1
    && Init(states[0])
    && forall i :: 0 <= i < |actions| ==>
         Enabled(states[i], actions[i]) && states[i + 1] == Next(states[i], actions[i])
  }

  // ----- What every reachable state keeps, timely or not -----

  ghost predicate RowOk(row: Row, jobs: set<EventId>) {
    match row.status
    case PENDING => row.retryCount < 5 && row.deadLetteredAt.None? && row.dispatchedAt.None?
    case DISPATCHED =>
      row.retryCount < 5 && row.deadLetteredAt.None? && row.dispatchedAt.Some? && row.error.None? && row.id in jobs
    case FAILED =>
      && row.retryCount < 5 && row.deadLetteredAt.None? && row.dispatchedAt.None?
      && row.error == Some(KILL_SWITCH_SKIP_REASON) && row.claimedBy.None? && row.claimLeaseExpiresAt.None?
    case DEAD_LETTER => row.retryCount == 5 && row.deadLetteredAt.Some? && row.dispatchedAt.None? && row.error.Some?
    case PUBLISHED => true
  }

  // A row that waits is claimable again within a minute of the present.
  ghost predicate Prompt(row: Row, clock: Time) {
    row.status == PENDING ==> EligibleFrom(row) <= clock + 60000
  }

  // What holds of a copy of row `id`, given the ids in the table, the queued ids and the time.
  ghost predicate CopyOk(copy: Copy, id: EventId, jobs: set<EventId>, clock: Time) {
    && copy.base.id == copy.row.id == id
    && copy.base.status == PENDING && copy.base.claimLeaseExpiresAt.Some? && RowOk(copy.base, jobs)
    && RowOk(copy.row, jobs) && Prompt(copy.row, clock)
    && (copy.phase == Waiting ==> copy.row == copy.base)
    && (copy.phase == Adding ==> copy.row.status == PENDING && copy.row.retryCount == copy.base.retryCount)
    && (copy.phase.Settled? ==>
          && copy.row.retryCount == copy.base.retryCount + (if copy.phase.verdict == Failure then 1 else 0)
          && (copy.phase.verdict == Sent <==> copy.row.status == DISPATCHED)
          && (copy.phase.verdict == Skipped <==> copy.row.status == FAILED)
          && (copy.phase.verdict == Failure <==> copy.row.status == PENDING || copy.row.status == DEAD_LETTER))
  }

  ghost predicate ReplayOk(row: Row, id: EventId, jobs: set<EventId>) {
    row.id == id && RowOk(row, jobs) && (row.status == DEAD_LETTER || row.status == FAILED)
  }

  ghost predicate TableOk(s: State) {
    forall e :: e in s.table ==> s.table[e].id == e && RowOk(s.table[e], s.jobs) && Prompt(s.table[e], s.clock)
  }

  ghost predicate CopiesOk(s: State) {
    forall run, e :: Holds(s, run, e) ==> e in s.table && CopyOk(s.copies[run][e], e, s.jobs, s.clock)
  }

  ghost predicate ReplaysOk(s: State) {
    forall run, e :: Replays(s, run, e) ==> e in s.table && ReplayOk(s.replays[run][e], e, s.jobs)
  }

  ghost predicate Inv(s: State) {
    TableOk(s) && CopiesOk(s) && ReplaysOk(s)
  }

  // Only one copy changes, and perhaps the queue grows by that row's job.
  lemma InvWithCopy(s: State, s': State, run: RunId, id: EventId, copy: Copy)
    requires Inv(s) && Holds(s, run, id)
    requires s' == WithCopy(s, run, id, copy).(jobs := s'.jobs) && s.jobs <= s'.jobs
    requires CopyOk(copy, id, s'.jobs, s.clock)
    ensures Inv(s')
  {
    forall r, e | Holds(s', r, e)
      ensures e in s'.table && CopyOk(s'.copies[r][e], e, s'.jobs, s'.clock)
    {
      assert Holds(s, r, e);
    }
    assert forall r, e :: Replays(s', r, e) ==> Replays(s, r, e);
  }

  lemma InvTick(s: State, elapsed: Time)
    requires Inv(s)
    ensures Inv(s.(clock := s.clock + elapsed))
  {
    var s' := s.(clock := s.clock + elapsed);
    assert forall r, e :: Holds(s', r, e) ==> Holds(s, r, e);
    assert forall r, e :: Replays(s', r, e) ==> Replays(s, r, e);
  }

  // One row is written, and copies or replays are only dropped.
  lemma InvWithRow(s: State, s': State, row: Row)
    requires Inv(s) && s'.jobs == s.jobs && s'.clock == s.clock && s'.table == s.table[row.id := row]
    requires forall r, e :: Holds(s', r, e) ==> Holds(s, r, e) && s'.copies[r][e] == s.copies[r][e]
    requires forall r, e :: Replays(s', r, e) ==> Replays(s, r, e) && s'.replays[r][e] == s.replays[r][e]
    requires RowOk(row, s.jobs) && Prompt(row, s.clock)
    ensures Inv(s')
  {
  }

  lemma InvClaim(s: State, a: Action)
    requires Inv(s) && a.Claim? && Enabled(s, a)
    ensures Inv(Next(s, a))
  {
    var s' := Next(s, a);
    forall r, e | Holds(s', r, e)
      ensures e in s'.table && CopyOk(s'.copies[r][e], e, s'.jobs, s'.clock)
    {
      assert r != a.run ==> Holds(s, r, e);
    }
    assert forall r, e :: Replays(s', r, e) ==> Replays(s, r, e);
  }

  lemma AttemptFailedOk(row: Row, message: string, jobs: set<EventId>, clock: Time)
    requires RowOk(row, jobs) && row.status == PENDING && Prompt(row, clock)
    ensures var after := AttemptFailed(row, message, clock);
            RowOk(after, jobs) && Prompt(after, clock) && (after.status == PENDING || after.status == DEAD_LETTER)
  {
    BackoffOfAttempt(row.retryCount + 1);
  }

  // The steps between the claim and the save touch one copy only.
  lemma InvRelay(s: State, a: Action)
    requires Inv(s) && Enabled(s, a) && (a.Kill? || a.Renew? || a.Add?)
    ensures Inv(Next(s, a))
  {
    var s' := Next(s, a);
    assert CopyOk(s.copies[a.run][a.id], a.id, s.jobs, s.clock);
    if a.Add? && a.outcome.Rejected? {
      AttemptFailedOk(s.copies[a.run][a.id].row, a.outcome.message, s.jobs, s.clock);
    }
    InvWithCopy(s, s', a.run, a.id, s'.copies[a.run][a.id]);
  }

  lemma InvStep(s: State, a: Action)
    requires Inv(s) && Enabled(s, a)
    ensures Inv(Next(s, a))
  {
    var s' := Next(s, a);
    match a
    case Tick(elapsed) => InvTick(s, elapsed);
    case Produce(id, eventType) => InvWithRow(s, s', NewRow(id, eventType, s.clock));
    case Claim(_, _, _, _) => InvClaim(s, a);
    case Kill(_, _) => InvRelay(s, a);
    case Renew(_, _, _) => InvRelay(s, a);
    case Add(_, _, _) => InvRelay(s, a);
    case Save(run, id) => InvWithRow(s, s', s.copies[run][id].row);
    case Crash(run) =>
      assert forall r, e :: Holds(s', r, e) ==> Holds(s, r, e);
      assert forall r, e :: Replays(s', r, e) ==> Replays(s, r, e);
    case ReplayLoad(run, _, _) =>
      assert forall r, e :: Holds(s', r, e) ==> Holds(s, r, e);
      assert forall r, e :: Replays(s', r, e) && r != run ==> Replays(s, r, e);
    case ReplaySave(run, id) => InvWithRow(s, s', Reset(s.replays[run][id]));
  }

  // Only a producer changes the set of event ids.
  lemma IdsChangeOnlyByProducing(s: State, a: Action)
    requires Inv(s) && Enabled(s, a)
    ensures Next(s, a).table.Keys == s.table.Keys + if a.Produce? then {a.id} else {}
  {
  }

  // Over a run the events are those it began with and those produced since: no step loses one.
  lemma {:induction false} IdsOfARun(states: seq<State>, actions: seq<Action>, i: nat, j: nat)
    requires IsRun(states, actions) && i <= j < |states|
    ensures forall e :: e in states[j].table <==>
              e in states[i].table || exists k :: i <= k < j && actions[k].Produce? && actions[k].id == e
  {
    if i < j {
      IdsOfARun(states, actions, i, j - 1);
      InvAlways(states, actions, j - 1);
      IdsChangeOnlyByProducing(states[j - 1], actions[j - 1]);
      var a := actions[j - 1];
      assert states[j].table.Keys == states[j - 1].table.Keys + if a.Produce? then {a.id} else {};
    }
  }

  // Every state of every run, late stale saves and overlapping replays included.
  lemma {:induction false} InvAlways(states: seq<State>, actions: seq<Action>, i: nat)
    requires IsRun(states, actions) && i < |states|
    ensures Inv(states[i])
  {
    if i > 0 {
      InvAlways(states, actions, i - 1);
      InvStep(states[i - 1], actions[i - 1]);
    }
  }

  // What the invariant says row by row, for reading: the field patterns of each status.
  lemma RowPatterns(states: seq<State>, actions: seq<Action>, i: nat, e: EventId)
    requires IsRun(states, actions) && i < |states| && e in states[i].table
    ensures var row := states[i].table[e];
            && (row.status == PENDING ==>
                  row.retryCount < 5 && row.deadLetteredAt.None? && EligibleFrom(row) <= states[i].clock + 60000)
            && (row.status == DEAD_LETTER ==> row.retryCount == 5 && row.error.Some? && row.deadLetteredAt.Some?)
            && (row.status == DISPATCHED ==> row.dispatchedAt.Some? && row.error.None? && e in states[i].jobs)
            && (row.status == FAILED ==>
                  row.error == Some(KILL_SWITCH_SKIP_REASON) && row.claimedBy.None? && row.claimLeaseExpiresAt.None?)
  {
    InvAlways(states, actions, i);
  }

  // ----- The steps are the methods, cut where another instance can come between -----

  lemma ClaimStepIsClaimBatch(s: State, run: RunId, instance: string, queried: Time, locked: set<EventId>,
                              batch: seq<EventId>)
    requires run !in s.copies && queried <= s.clock && IsBatch(s.table, queried, locked, batch)
    ensures var a := Claim(run, instance, queried, (set e | e in batch));
            && Enabled(s, a)
            && Next(s, a).table == ClaimAll(s.table, (set e | e in batch), instance, s.clock)
            && forall e :: e in batch ==>
                 Holds(Next(s, a), run, e) && Next(s, a).copies[run][e].row == Claimed(s.table[e], instance, s.clock)
  {
    SetOfSeqIsNoLarger(batch);
  }

  lemma {:induction false} SetOfSeqIsNoLarger(xs: seq<EventId>)
    ensures |set x | x in xs| <= |xs|
  {
    if xs != [] {
      SetOfSeqIsNoLarger(xs[1..]);
      assert (set x | x in xs) == {xs[0]} + (set x | x in xs[1..]);
    }
  }

  lemma RelayStepsAreRelayOne(s: State, run: RunId, id: EventId, instance: string, enabled: bool, relay: RelayRun)
    requires Holds(s, run, id) && s.copies[run][id].phase == Waiting
    requires s.clock == relay.started <= relay.settled
    ensures var s1 := Next(s, if enabled then Renew(run, id, instance) else Kill(run, id));
            var s2 := Next(s1, Tick(relay.settled - relay.started));
            var s3 := if enabled then Next(s2, Add(run, id, relay.outcome)) else s2;
            var s4 := Next(s3, Save(run, id));
            && s4.table == s.table[id := Relayed(s.copies[run][id].row, instance, enabled, relay)]
            && s4.jobs == JobsAfterRelay(s.jobs, id, enabled, relay)
            && !Holds(s4, run, id)
  {
  }
}
