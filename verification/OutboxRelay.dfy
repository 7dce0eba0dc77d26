// The relay: claiming a batch under a lease, and relaying one event to the queue.
module OutboxRelay {
  import opened Prelude
  import opened OutboxEntities
  import opened OutboxEnvelope

  const KILL_SWITCH_SKIP_REASON := "skipped: durable kill switch off"
  const MAX_RELAY_ATTEMPTS: nat := 5
  const CLAIM_LEASE_MS: Time := 60000
  const BATCH_SIZE: nat := 50

  function BackoffMs(attempt: nat): Time {
    Min(60000, 1000 * Pow2(Max(0, attempt - 1)))
  }

  // ----- The row transformations -----

  predicate Eligible(row: Row, now: Time) {
    row.status == PENDING && AbsentOrReached(row.nextAttemptAt, now) && AbsentOrReached(row.claimLeaseExpiresAt, now)
  }

  function Claimed(row: Row, instance: string, now: Time): Row {
    row.(claimedBy := Some(instance), claimLeaseExpiresAt := Some(now + CLAIM_LEASE_MS))
  }

  function Killed(row: Row): Row {
    row.(status := FAILED, error := Some(KILL_SWITCH_SKIP_REASON), claimedBy := None, claimLeaseExpiresAt := None)
  }

  function Dispatched(row: Row, now: Time): Row {
    row.(status := DISPATCHED, dispatchedAt := Some(now), error := None)
  }

  function AttemptFailed(row: Row, message: string, now: Time): Row {
    var failed := row.(retryCount := row.retryCount + 1, error := Some(message),
                       nextAttemptAt := Some(now + BackoffMs(row.retryCount + 1)));
    if failed.retryCount >= MAX_RELAY_ATTEMPTS then
      failed.(status := DEAD_LETTER, deadLetteredAt := Some(now))
    else
      failed
  }

  function AddSettled(row: Row, outcome: AddOutcome, now: Time): Row {
    if outcome.Accepted? then Dispatched(row, now) else AttemptFailed(row, outcome.message, now)
  }

  // One relay: the flags it meets, the lease renewed in memory at `started`, and the queue's
  // answer at `settled`.
  datatype RelayRun = RelayRun(flags: Flags, started: Time, outcome: AddOutcome, settled: Time)

  function Relayed(row: Row, instance: string, enabled: bool, run: RelayRun): Row {
    if enabled then AddSettled(Claimed(row, instance, run.started), run.outcome, run.settled) else Killed(row)
  }

  function JobsAfterRelay(jobs: set<EventId>, id: EventId, enabled: bool, run: RelayRun): set<EventId> {
    if enabled && Stored(run.outcome) then jobs + {id} else jobs
  }

  // ----- What the transformations do, field by field -----

  lemma EligibleWrittenOut(row: Row, now: Time)
    ensures Eligible(row, now) <==>
              && row.status == PENDING
              && (row.nextAttemptAt.Some? ==> row.nextAttemptAt.value <= now)
              && (row.claimLeaseExpiresAt.Some? ==> row.claimLeaseExpiresAt.value <= now)
  {
  }

  lemma ClaimWrittenOut(row: Row, instance: string, now: Time)
    ensures Claimed(row, instance, now)
         == Row(row.id, row.eventType, row.createdAt, row.status, row.error, row.retryCount, Some(instance), Some(now + 60000),
                row.nextAttemptAt, row.dispatchedAt, row.deadLetteredAt)
  {
  }

  // With every switch off the row fails with its reason and gives up its claim; otherwise its
  // lease is renewed, and it is dispatched, or counted as failed and, the fifth time, dead.
  lemma RelayWrittenOut(row: Row, instance: string, enabled: bool, run: RelayRun)
    ensures !enabled ==>
              Relayed(row, instance, enabled, run)
              == Row(row.id, row.eventType, row.createdAt, FAILED, Some("skipped: durable kill switch off"), row.retryCount,
                     None, None, row.nextAttemptAt, row.dispatchedAt, row.deadLetteredAt)
    ensures enabled && run.outcome.Accepted? ==>
              Relayed(row, instance, enabled, run)
              == Row(row.id, row.eventType, row.createdAt, DISPATCHED, None, row.retryCount, Some(instance),
                     Some(run.started + 60000), row.nextAttemptAt, Some(run.settled), row.deadLetteredAt)
    ensures enabled && run.outcome.Rejected? && row.retryCount < 4 ==>
              Relayed(row, instance, enabled, run)
              == Row(row.id, row.eventType, row.createdAt, row.status, Some(run.outcome.message), row.retryCount + 1,
                     Some(instance), Some(run.started + 60000),
                     Some(run.settled + [1000, 2000, 4000, 8000][row.retryCount]), row.dispatchedAt, row.deadLetteredAt)
    ensures enabled && run.outcome.Rejected? && row.retryCount >= 4 ==>
              && Relayed(row, instance, enabled, run).status == DEAD_LETTER
              && Relayed(row, instance, enabled, run).deadLetteredAt == Some(run.settled)
              && Relayed(row, instance, enabled, run).error == Some(run.outcome.message)
              && Relayed(row, instance, enabled, run).retryCount == row.retryCount + 1
              && Relayed(row, instance, enabled, run).claimedBy == Some(instance)
              && Relayed(row, instance, enabled, run).claimLeaseExpiresAt == Some(run.started + 60000)
              && Relayed(row, instance, enabled, run).dispatchedAt == row.dispatchedAt
  {
    BackoffOfAttempt(row.retryCount + 1);
  }

  // A relay queues its event's job if it is enabled and the queue stored it, whatever it answered.
  lemma JobsWrittenOut(jobs: set<EventId>, id: EventId, enabled: bool, run: RelayRun)
    ensures JobsAfterRelay(jobs, id, enabled, run)
         == if enabled && (run.outcome == Accepted || (run.outcome.Rejected? && run.outcome.stored)) then jobs + {id} else jobs
  {
  }

  // ----- Claiming -----

  // The ids that one claim may return: eligible and not locked by another transaction, at
  // most BATCH_SIZE of them, oldest first, and none older left out unless it was locked.
  ghost predicate IsBatch(table: Table, now: Time, locked: set<EventId>, batch: seq<EventId>) {
    && |batch| <= BATCH_SIZE
    && (forall i :: 0 <= i < |batch| ==>
          batch[i] in table && Eligible(table[batch[i]], now) && batch[i] !in locked)
    && (forall i, j :: 0 <= i < j < |batch| ==>
          batch[i] != batch[j] && table[batch[i]].createdAt <= table[batch[j]].createdAt)
    && (forall e :: e in table && Eligible(table[e], now) && e !in locked && e !in batch ==>
          |batch| == BATCH_SIZE && forall i :: 0 <= i < |batch| ==> table[batch[i]].createdAt <= table[e].createdAt)
  }

  // What a claim leaves behind is locked, or younger than all it takes, and only if it is full.
  lemma BatchTakesTheOldest(table: Table, now: Time, locked: set<EventId>, batch: seq<EventId>, i: nat, e: EventId)
    requires IsBatch(table, now, locked, batch) && i < |batch|
    requires e in table && Eligible(table[e], now) && e !in locked && (e in batch[i + 1..] || e !in batch)
    ensures |batch| <= 50 && e != batch[i] && (e !in batch ==> |batch| == 50)
    ensures table[batch[i]].createdAt <= table[e].createdAt
  {
    if e in batch[i + 1..] {
      var k :| 0 <= k < |batch[i + 1..]| && batch[i + 1..][k] == e;
      assert batch[i + 1 + k] == e;
    }
  }

  ghost function ClaimAll(table: Table, ids: set<EventId>, instance: string, now: Time): Table {
    map e | e in table :: if e in ids then Claimed(table[e], instance, now) else table[e]
  }

  lemma OldestExists(table: Table, candidates: set<EventId>) returns (oldest: EventId)
    requires candidates != {} && candidates <= table.Keys
    ensures oldest in candidates
    ensures forall e :: e in candidates ==> table[oldest].createdAt <= table[e].createdAt
  {
    oldest :| oldest in candidates;
    if candidates != {oldest} {
      var rest := OldestExists(table, candidates - {oldest});
      if table[rest].createdAt < table[oldest].createdAt {
        oldest := rest;
      }
    }
  }

  // The locked, ordered, limited query that the claim transaction opens with.
  method SelectBatch(table: Table, now: Time, locked: set<EventId>) returns (batch: seq<EventId>)
    ensures IsBatch(table, now, locked, batch) && |batch| <= 50
  {
    batch := [];
    var candidates := set e | e in table && Eligible(table[e], now) && e !in locked;
    while candidates != {} && |batch| < BATCH_SIZE
      invariant |batch| <= BATCH_SIZE
      invariant forall e :: e in table && Eligible(table[e], now) && e !in locked ==> e in candidates || e in batch
      invariant forall e :: e in candidates ==>
                  e in table && Eligible(table[e], now) && e !in locked && e !in batch
      invariant forall i :: 0 <= i < |batch| ==>
                  batch[i] in table && Eligible(table[batch[i]], now) && batch[i] !in locked
      invariant forall i, e :: 0 <= i < |batch| && e in candidates ==> table[batch[i]].createdAt <= table[e].createdAt
      invariant forall i, j :: 0 <= i < j < |batch| ==>
                  batch[i] != batch[j] && table[batch[i]].createdAt <= table[batch[j]].createdAt
      decreases candidates
    {
      ghost var example := OldestExists(table, candidates);
      var oldest :| oldest in candidates &&
        forall e :: e in candidates ==> table[oldest].createdAt <= table[e].createdAt;
      batch, candidates := batch + [oldest], candidates - {oldest};
    }
  }

  // ----- A batch -----

  // The table after saving `saved` row by row, in order.
  function SaveAll(table: Table, saved: seq<Row>): Table {
    if saved == [] then table else
      SaveAll(table, saved[..|saved| - 1])[saved[|saved| - 1].id := saved[|saved| - 1]]
  }

  lemma {:induction false} SavedElsewhere(table: Table, saved: seq<Row>, e: EventId)
    requires forall i :: 0 <= i < |saved| ==> saved[i].id != e
    ensures e in SaveAll(table, saved) <==> e in table
    ensures e in table ==> SaveAll(table, saved)[e] == table[e]
  {
    if saved != [] {
      SavedElsewhere(table, saved[..|saved| - 1], e);
    }
  }

  // Distinct ids keep the saves of a batch apart, so the result can be read row by row.
  lemma {:induction false} SavedAt(table: Table, saved: seq<Row>, i: nat)
    requires i < |saved|
    requires forall j, k :: 0 <= j < k < |saved| ==> saved[j].id != saved[k].id
    ensures saved[i].id in SaveAll(table, saved) && SaveAll(table, saved)[saved[i].id] == saved[i]
  {
    if i < |saved| - 1 {
      SavedAt(table, saved[..|saved| - 1], i);
    }
  }

  lemma OneMoreClaimed(table: Table, done: seq<EventId>, next: EventId, longer: seq<EventId>, instance: string, now: Time)
    requires longer == done + [next] && next in table
    ensures ClaimAll(table, (set e | e in longer), instance, now)
         == ClaimAll(table, (set e | e in done), instance, now)[next := Claimed(table[next], instance, now)]
  {
  }

  // ----- When a row may be claimed again -----

  ghost function EligibleFrom(row: Row): Time {
    Max(if row.nextAttemptAt.Some? then row.nextAttemptAt.value else 0,
        if row.claimLeaseExpiresAt.Some? then row.claimLeaseExpiresAt.value else 0)
  }

  lemma EligibleExactlyFrom(row: Row, now: Time)
    requires row.status == PENDING
    ensures Eligible(row, now) <==> EligibleFrom(row) <= now
  {
  }

  lemma BackoffOfAttempt(attempt: nat)
    ensures BackoffMs(attempt) <= 60000
    ensures 1 <= attempt <= 4 ==> BackoffMs(attempt) == [1000, 2000, 4000, 8000][attempt - 1]
    ensures attempt >= 7 ==> BackoffMs(attempt) == 60000
  {
    assert Pow2(0) == 1 && Pow2(1) == 2 && Pow2(2) == 4 && Pow2(3) == 8;
    assert Pow2(4) == 16 && Pow2(5) == 32 && Pow2(6) == 64;
    if attempt >= 7 {
      Pow2Monotone(6, attempt - 1);
    }
  }

  // A failed attempt that stays PENDING: the lease renewed at `started` is saved with it, so
  // unless the queue took more than 52 seconds to fail, the lease and not the backoff
  // decides when the row is tried again.
  lemma LeaseOutlastsBackoff(row: Row, instance: string, started: Time, message: string, settled: Time)
    requires started <= settled
    ensures var after := AttemptFailed(Claimed(row, instance, started), message, settled);
            after.status == PENDING && row.retryCount < MAX_RELAY_ATTEMPTS ==>
              && EligibleFrom(after) <= settled + 60000
              && (EligibleFrom(after) == started + CLAIM_LEASE_MS
                  <==> settled - started <= CLAIM_LEASE_MS - BackoffMs(row.retryCount + 1))
              && (settled - started <= 52000 ==> EligibleFrom(after) == started + CLAIM_LEASE_MS)
  {
    BackoffOfAttempt(row.retryCount + 1);
  }

  // ----- The service -----

  class OutboxRelayService {
    const instanceId: string
    const table: OutboxTable
    const queue: OutboxQueue

    constructor (instanceId: string, table: OutboxTable, queue: OutboxQueue)
      ensures this.instanceId == instanceId && this.table == table && this.queue == queue
    {
      this.instanceId, this.table, this.queue := instanceId, table, queue;
    }

    // The query of the claim transaction, its rows loaded into new objects.
    method LoadBatch(queried: Time, locked: set<EventId>) returns (events: seq<OutboxEvent>)
      requires forall e :: e in table.rows ==> table.rows[e].id == e
      ensures fresh(events) && forall i, j :: 0 <= i < j < |events| ==> events[i] != events[j]
      ensures IsBatch(table.rows, queried, locked, Ids(events))
      ensures forall i :: 0 <= i < |events| ==> events[i].Snapshot() == table.rows[Ids(events)[i]]
    {
      var batch := SelectBatch(table.rows, queried, locked);
      events := [];
      for i := 0 to |batch|
        invariant |events| == i && fresh(events)
        invariant forall j, k :: 0 <= j < k < i ==> events[j] != events[k]
        invariant forall j :: 0 <= j < i ==> events[j].id == batch[j] && events[j].Snapshot() == table.rows[batch[j]]
      {
        var event := new OutboxEvent(table.rows[batch[i]]);
        events := events + [event];
      }
      assert Ids(events) == batch;
    }

    // The transaction of processBatch: `queried` is read before the query, `clock` inside.
    method ClaimBatch(queried: Time, clock: Time, locked: set<EventId>) returns (events: seq<OutboxEvent>)
      requires forall e :: e in table.rows ==> table.rows[e].id == e
      modifies table
      ensures fresh(events) && forall i, j :: 0 <= i < j < |events| ==> events[i] != events[j]
      ensures IsBatch(old(table.rows), queried, locked, Ids(events))
      ensures Snapshots(events) == ClaimedRows(old(table.rows), Ids(events), instanceId, clock)
      ensures table.rows == ClaimAll(old(table.rows), (set e | e in Ids(events)), instanceId, clock)
    {
      events := LoadBatch(queried, locked);
      ghost var before, batch := table.rows, Ids(events);
      for i := 0 to |events|
        invariant table.rows == before
        invariant forall j :: 0 <= j < i ==> events[j].Snapshot() == Claimed(before[batch[j]], instanceId, clock)
        invariant forall j :: i <= j < |events| ==> events[j].Snapshot() == before[batch[j]]
      {
        events[i].claimedBy := Some(instanceId);
        events[i].claimLeaseExpiresAt := Some(clock + CLAIM_LEASE_MS);
      }
      assert Snapshots(events) == ClaimedRows(before, batch, instanceId, clock);
      SaveClaimed(events, before, clock);
    }

    method SaveClaimed(events: seq<OutboxEvent>, ghost before: Table, ghost clock: Time)
      requires table.rows == before && forall i :: 0 <= i < |events| ==> events[i].id in before
      requires Snapshots(events) == ClaimedRows(before, Ids(events), instanceId, clock)
      modifies table
      ensures table.rows == ClaimAll(before, (set e | e in Ids(events)), instanceId, clock)
    {
      ghost var batch := Ids(events);
      for i := 0 to |events|
        invariant table.rows == ClaimAll(before, (set e | e in batch[..i]), instanceId, clock)
      {
        assert events[i].Snapshot() == Snapshots(events)[i];
        table.Save(events[i]);
        OneMoreClaimed(before, batch[..i], batch[i], batch[..i + 1], instanceId, clock);
      }
      assert batch[..|batch|] == batch;
    }

    // Relays one claimed event. The lease is not looked at again; one save at the end.
    method RelayOne(event: OutboxEvent, run: RelayRun)
        returns (enabled: bool)
      modifies event, table, queue
      ensures enabled <==> RelayEnabled(run.flags, event.eventType)
      ensures event.Snapshot() == Relayed(old(event.Snapshot()), instanceId, enabled, run)
      ensures table.rows == old(table.rows)[event.id := event.Snapshot()]
      ensures queue.jobs == JobsAfterRelay(old(queue.jobs), event.id, enabled, run)
    {
      enabled := IsDurableRelayEnabled(run.flags, event.eventType);
      if !enabled {
        event.status := FAILED;
        event.error := Some(KILL_SWITCH_SKIP_REASON);
        event.claimedBy := None;
        event.claimLeaseExpiresAt := None;
        table.Save(event);
        return;
      }

      event.claimedBy := Some(instanceId);
      event.claimLeaseExpiresAt := Some(run.started + CLAIM_LEASE_MS);

      var added := queue.Add(event.id, run.outcome);
      match added
      case Ok(_) =>
        event.status := DISPATCHED;
        event.dispatchedAt := Some(run.settled);
        event.error := None;
        table.Save(event);
      case Err(message) =>
        event.retryCount := event.retryCount + 1;
        event.error := Some(message);
        event.nextAttemptAt := Some(run.settled + BackoffMs(event.retryCount));
        if event.retryCount >= MAX_RELAY_ATTEMPTS {
          event.status := DEAD_LETTER;
          event.deadLetteredAt := Some(run.settled);
        }
        table.Save(event);
    }

    // The loop of processBatch over the claimed events, outside the claim transaction.
    method RelayAll(events: seq<OutboxEvent>, runs: seq<RelayRun>)
      requires |runs| == |events|
      requires forall i, j :: 0 <= i < j < |events| ==> events[i] != events[j]
      modifies events, table, queue
      ensures table.rows == SaveAll(old(table.rows), RelayedAll(old(Snapshots(events)), instanceId, runs))
      ensures queue.jobs == JobsAfterAll(old(queue.jobs), old(Snapshots(events)), runs)
    {
      ghost var rows := Snapshots(events);
      for i := 0 to |events|
        invariant forall j :: i <= j < |events| ==> events[j].Snapshot() == rows[j]
        invariant table.rows == SaveAll(old(table.rows), RelayedAll(rows[..i], instanceId, runs[..i]))
        invariant queue.jobs == JobsAfterAll(old(queue.jobs), rows[..i], runs[..i])
      {
        var _ := RelayOne(events[i], runs[i]);
        OneMoreRelayed(rows, instanceId, runs, i, old(table.rows));
        OneMoreJob(rows, runs, i, old(queue.jobs));
      }
      assert rows[..|events|] == rows && runs[..|events|] == runs;
    }

    // A whole batch as one instance runs it when nobody else touches the table meanwhile;
    // OutboxRuns interleaves the same steps with those of other instances. `runs` is what
    // each relay would meet, one for every place in a full batch.
    method ProcessBatch(queried: Time, clock: Time, locked: set<EventId>, runs: seq<RelayRun>)
        returns (ghost batch: seq<EventId>)
      requires |runs| == BATCH_SIZE
      requires forall e :: e in table.rows ==> table.rows[e].id == e
      modifies table, queue
      ensures IsBatch(old(table.rows), queried, locked, batch)
      ensures table.rows == BatchRelayed(old(table.rows), batch, instanceId, clock, runs[..|batch|])
      ensures queue.jobs == BatchJobs(old(table.rows), old(queue.jobs), batch, instanceId, clock, runs[..|batch|])
    {
      var events := ClaimBatch(queried, clock, locked);
      batch := Ids(events);
      RelayAll(events, runs[..|events|]);
    }
  }

  function ClaimedRows(table: Table, batch: seq<EventId>, instance: string, clock: Time): (rows: seq<Row>)
    requires forall i :: 0 <= i < |batch| ==> batch[i] in table
    ensures |rows| == |batch|
  {
    seq(|batch|, i requires 0 <= i < |batch| => Claimed(table[batch[i]], instance, clock))
  }

  ghost function BatchRelayed(table: Table, batch: seq<EventId>, instance: string, clock: Time, runs: seq<RelayRun>): Table
    requires |batch| == |runs| && forall i :: 0 <= i < |batch| ==> batch[i] in table
  {
    SaveAll(ClaimAll(table, (set e | e in batch), instance, clock),
            RelayedAll(ClaimedRows(table, batch, instance, clock), instance, runs))
  }

  ghost function BatchJobs(table: Table, jobs: set<EventId>, batch: seq<EventId>, instance: string, clock: Time,
                           runs: seq<RelayRun>): set<EventId>
    requires |batch| == |runs| && forall i :: 0 <= i < |batch| ==> batch[i] in table
  {
    JobsAfterAll(jobs, ClaimedRows(table, batch, instance, clock), runs)
  }

  // A processed batch, row by row: the batch's rows are each relayed from their claimed
  // value, every other row is untouched, and no row appears or disappears.
  lemma BatchRowByRow(table: Table, now: Time, locked: set<EventId>, batch: seq<EventId>, instance: string,
                      clock: Time, runs: seq<RelayRun>)
    requires IsBatch(table, now, locked, batch) && |batch| == |runs| && forall e :: e in table ==> table[e].id == e
    ensures var after := BatchRelayed(table, batch, instance, clock, runs);
            && after.Keys == table.Keys
            && (forall e :: e in table && e !in batch ==> after[e] == table[e])
            && (forall i :: 0 <= i < |batch| ==>
                  after[batch[i]] == RelayedBy(Claimed(table[batch[i]], instance, clock), instance, runs[i]))
  {
    var claimed := ClaimAll(table, (set e | e in batch), instance, clock);
    var saved := RelayedAll(ClaimedRows(table, batch, instance, clock), instance, runs);
    assert forall i :: 0 <= i < |batch| ==> saved[i].id == batch[i];
    forall e | e !in batch
      ensures e in SaveAll(claimed, saved) <==> e in table
      ensures e in table ==> SaveAll(claimed, saved)[e] == table[e]
    {
      SavedElsewhere(claimed, saved, e);
    }
    forall i | 0 <= i < |batch|
      ensures batch[i] in SaveAll(claimed, saved) && SaveAll(claimed, saved)[batch[i]] == saved[i]
    {
      SavedAt(claimed, saved, i);
    }
  }

  // The jobs added are those of the events whose switches are on and that the queue stored.
  lemma BatchJobsAdded(table: Table, jobs: set<EventId>, now: Time, locked: set<EventId>, batch: seq<EventId>,
                       instance: string, clock: Time, runs: seq<RelayRun>, e: EventId)
    requires IsBatch(table, now, locked, batch) && |batch| == |runs| && forall e :: e in table ==> table[e].id == e
    ensures e in BatchJobs(table, jobs, batch, instance, clock, runs) <==>
              || e in jobs
              || exists i :: 0 <= i < |batch| && batch[i] == e && RelayEnabled(runs[i].flags, table[e].eventType)
                             && (runs[i].outcome == Accepted || (runs[i].outcome.Rejected? && runs[i].outcome.stored))
  {
    var rows := ClaimedRows(table, batch, instance, clock);
    assert forall i :: 0 <= i < |batch| ==> rows[i].id == batch[i];
    assert forall i :: 0 <= i < |batch| ==> (Queues(rows[i], runs[i]) <==> Queues(table[batch[i]], runs[i]));
  }

  ghost function RelayedBy(row: Row, instance: string, run: RelayRun): (saved: Row)
    ensures saved.id == row.id
  {
    Relayed(row, instance, RelayEnabled(run.flags, row.eventType), run)
  }

  ghost predicate Queues(row: Row, run: RelayRun) {
    RelayEnabled(run.flags, row.eventType) && Stored(run.outcome)
  }

  ghost function RelayedAll(rows: seq<Row>, instance: string, runs: seq<RelayRun>): (saved: seq<Row>)
    requires |rows| == |runs|
    ensures |saved| == |rows|
    ensures forall i :: 0 <= i < |rows| ==> saved[i] == RelayedBy(rows[i], instance, runs[i])
  {
    seq(|rows|, i requires 0 <= i < |rows| => RelayedBy(rows[i], instance, runs[i]))
  }

  ghost function JobsAfterAll(jobs: set<EventId>, rows: seq<Row>, runs: seq<RelayRun>): set<EventId>
    requires |rows| == |runs|
  {
    jobs + set i | 0 <= i < |rows| && Queues(rows[i], runs[i]) :: rows[i].id
  }

  lemma OneMoreRelayed(rows: seq<Row>, instance: string, runs: seq<RelayRun>, i: nat, table: Table)
    requires i < |rows| == |runs|
    ensures SaveAll(table, RelayedAll(rows[..i + 1], instance, runs[..i + 1]))
         == SaveAll(table, RelayedAll(rows[..i], instance, runs[..i]))[rows[i].id := RelayedBy(rows[i], instance, runs[i])]
  {
    var longer := RelayedAll(rows[..i + 1], instance, runs[..i + 1]);
    assert longer[..i] == RelayedAll(rows[..i], instance, runs[..i]);
    assert longer[i] == RelayedBy(rows[i], instance, runs[i]);
  }

  lemma OneMoreJob(rows: seq<Row>, runs: seq<RelayRun>, i: nat, jobs: set<EventId>)
    requires i < |rows| == |runs|
    ensures JobsAfterAll(jobs, rows[..i + 1], runs[..i + 1])
         == JobsAfterAll(jobs, rows[..i], runs[..i]) + if Queues(rows[i], runs[i]) then {rows[i].id} else {}
  {
    var shorter, longer := JobsAfterAll(jobs, rows[..i], runs[..i]), JobsAfterAll(jobs, rows[..i + 1], runs[..i + 1]);
    forall e | e in shorter
      ensures e in longer
    {
      if e !in jobs {
        var k :| 0 <= k < i && Queues(rows[..i][k], runs[..i][k]) && rows[..i][k].id == e;
        assert rows[..i + 1][k] == rows[k] && runs[..i + 1][k] == runs[k];
      }
    }
    forall e | e in longer && e !in jobs
      ensures e in shorter || (Queues(rows[i], runs[i]) && e == rows[i].id)
    {
      var k :| 0 <= k < i + 1 && Queues(rows[..i + 1][k], runs[..i + 1][k]) && rows[..i + 1][k].id == e;
      assert k < i ==> rows[..i][k] == rows[k] && runs[..i][k] == runs[k];
    }
    assert rows[..i + 1][i] == rows[i] && runs[..i + 1][i] == runs[i];
  }

  ghost function Ids(events: seq<OutboxEvent>): seq<EventId> {
    seq(|events|, i requires 0 <= i < |events| => events[i].id)
  }

  ghost function Snapshots(events: seq<OutboxEvent>): seq<Row>
    reads events
  {
    seq(|events|, i requires 0 <= i < |events| reads events => events[i].Snapshot())
  }
}
