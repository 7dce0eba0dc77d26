// The outbox row, the entity object a relay loads it into, the table and the queue.
module OutboxEntities {
  import opened Prelude

  type EventId = string

  datatype OutboxStatus = PENDING | PUBLISHED | DISPATCHED | FAILED | DEAD_LETTER

  // A persisted row; columns that no step ever writes (payload, tenant, ...) are not kept.
  datatype Row = Row(
    id: EventId,
    eventType: string,
    createdAt: Time,
    status: OutboxStatus,
    error: Option<string>,
    retryCount: nat,
    claimedBy: Option<string>,
    claimLeaseExpiresAt: Option<Time>,
    nextAttemptAt: Option<Time>,
    dispatchedAt: Option<Time>,
    deadLetteredAt: Option<Time>)

  type Table = map<EventId, Row>

  // What a producer inserts: the column defaults.
  function NewRow(id: EventId, eventType: string, createdAt: Time): Row {
    Row(id, eventType, createdAt, PENDING, None, 0, None, None, None, None, None)
  }

  lemma NewRowWrittenOut(id: EventId, eventType: string, createdAt: Time)
    ensures var row := NewRow(id, eventType, createdAt);
            && row.id == id && row.eventType == eventType && row.createdAt == createdAt && row.status == PENDING
            && row.retryCount == 0 && row.error == None && row.claimedBy == None && row.claimLeaseExpiresAt == None
            && row.nextAttemptAt == None && row.dispatchedAt == None && row.deadLetteredAt == None
  {
  }

  // A row loaded into memory. Its fields change long before, or without, being saved.
  class OutboxEvent {
    const id: EventId
    const eventType: string
    const createdAt: Time
    var status: OutboxStatus
    var error: Option<string>
    var retryCount: nat
    var claimedBy: Option<string>
    var claimLeaseExpiresAt: Option<Time>
    var nextAttemptAt: Option<Time>
    var dispatchedAt: Option<Time>
    var deadLetteredAt: Option<Time>

    constructor (row: Row)
      ensures Snapshot() == row
    {
      id, eventType, createdAt := row.id, row.eventType, row.createdAt;
      status, error, retryCount := row.status, row.error, row.retryCount;
      claimedBy, claimLeaseExpiresAt := row.claimedBy, row.claimLeaseExpiresAt;
      nextAttemptAt, dispatchedAt, deadLetteredAt := row.nextAttemptAt, row.dispatchedAt, row.deadLetteredAt;
    }

    function Snapshot(): Row
      reads this
    {
      Row(id, eventType, createdAt, status, error, retryCount, claimedBy, claimLeaseExpiresAt, nextAttemptAt,
          dispatchedAt, deadLetteredAt)
    }
  }

  class OutboxTable {
    var rows: Table

    constructor (rows: Table)
      ensures this.rows == rows
    {
      this.rows := rows;
    }

    // Saving an entity overwrites the whole row, whatever it has become since it was read.
    method Save(event: OutboxEvent)
      modifies this
      ensures rows == old(rows)[event.id := event.Snapshot()]
    {
      rows := rows[event.id := event.Snapshot()];
    }
  }

  // How the broker answers: an error can reach the caller although the job was stored.
  datatype AddOutcome = Accepted | Rejected(message: string, stored: bool)

  function Stored(outcome: AddOutcome): bool {
    outcome.Accepted? || outcome.stored
  }

  // `jobs` is the set of event ids that have ever been stored in the queue.
  class OutboxQueue {
    var jobs: set<EventId>

    constructor ()
      ensures jobs == {}
    {
      jobs := {};
    }

    method Add(jobId: EventId, outcome: AddOutcome) returns (r: Result<(), string>)
      modifies this
      ensures r == if outcome.Accepted? then Ok(()) else Err(outcome.message)
      ensures jobs == old(jobs) + if Stored(outcome) then {jobId} else {}
    {
      if Stored(outcome) {
        jobs := jobs + {jobId};
      }
      r := if outcome.Accepted? then Ok(()) else Err(outcome.message);
    }
  }
}
