// The replay script: dead-lettered or kill-switched rows go back to PENDING.
module OutboxReplay {
  import opened Prelude
  import opened OutboxEntities
  import opened OutboxRelay

  datatype ReplayArgs = ReplayArgs(dryRun: bool, limit: nat, eventId: Option<EventId>, killSwitch: bool)

  predicate Replayable(row: Row, killSwitch: bool) {
    if killSwitch then row.status == FAILED && row.error == Some(KILL_SWITCH_SKIP_REASON)
    else row.status == DEAD_LETTER
  }

  predicate Selected(row: Row, args: ReplayArgs) {
    Replayable(row, args.killSwitch) && (args.eventId.Some? && args.eventId.value != "" ==> row.id == args.eventId.value)
  }

  function Reset(row: Row): Row {
    row.(status := PENDING, retryCount := 0, error := None, nextAttemptAt := None, claimedBy := None,
         claimLeaseExpiresAt := None, deadLetteredAt := None)
  }

  // The query's order; a dead letter without a time, of which there are none, would be last.
  predicate NotAfter(a: Row, b: Row, killSwitch: bool) {
    if killSwitch then a.createdAt <= b.createdAt
    else b.deadLetteredAt.None? || (a.deadLetteredAt.Some? && a.deadLetteredAt.value <= b.deadLetteredAt.value)
  }

  // The rows the script's query returns: selected, distinct, in order, at most `limit`, and
  // all the selected ones unless the limit cut off later ones.
  ghost predicate IsSelection(table: Table, args: ReplayArgs, ids: seq<EventId>) {
    && |ids| <= args.limit
    && (forall i :: 0 <= i < |ids| ==> ids[i] in table && Selected(table[ids[i]], args))
    && (forall i, j :: 0 <= i < j < |ids| ==> ids[i] != ids[j] && NotAfter(table[ids[i]], table[ids[j]], args.killSwitch))
    && (forall e :: e in table && Selected(table[e], args) && e !in ids ==>
          |ids| == args.limit && forall i :: 0 <= i < |ids| ==> NotAfter(table[ids[i]], table[e], args.killSwitch))
  }

  ghost function ReplayedRows(table: Table, ids: set<EventId>): Table {
    map e | e in table :: if e in ids then Reset(table[e]) else table[e]
  }

  // What the script does to one loaded row: seven fields, then a save of the whole row.
  method ReplayRow(table: OutboxTable, row: Row)
    modifies table
    ensures table.rows == old(table.rows)[row.id := Reset(row)]
    ensures row.id in table.rows
    ensures var saved := table.rows[row.id];
            && saved.status == PENDING && saved.retryCount == 0 && saved.error == None && saved.nextAttemptAt == None
            && saved.claimedBy == None && saved.claimLeaseExpiresAt == None && saved.deadLetteredAt == None
            && saved.id == row.id && saved.eventType == row.eventType && saved.createdAt == row.createdAt
            && saved.dispatchedAt == row.dispatchedAt
  {
    var event := new OutboxEvent(row);
    event.status := PENDING;
    event.retryCount := 0;
    event.error := None;
    event.nextAttemptAt := None;
    event.claimedBy := None;
    event.claimLeaseExpiresAt := None;
    event.deadLetteredAt := None;
    table.Save(event);
  }

  method Replay(table: OutboxTable, args: ReplayArgs, ids: seq<EventId>)
    requires IsSelection(table.rows, args, ids)
    requires forall e :: e in table.rows ==> table.rows[e].id == e
    modifies table
    ensures table.rows == if args.dryRun then old(table.rows) else ReplayedRows(old(table.rows), (set e | e in ids))
  {
    var loaded := table.rows;
    for i := 0 to |ids|
      invariant table.rows == if args.dryRun then loaded else ReplayedRows(loaded, (set e | e in ids[..i]))
    {
      assert ids[..i + 1] == ids[..i] + [ids[i]];
      if !args.dryRun {
        ReplayRow(table, loaded[ids[i]]);
      }
    }
    assert ids[..|ids|] == ids;
  }

  // What it selects: dead letters, or rows that the kill switch stopped, of one event if asked.
  lemma SelectsExactly(row: Row, args: ReplayArgs)
    ensures Selected(row, args) <==>
              && (args.killSwitch ==> row.status == FAILED && row.error == Some("skipped: durable kill switch off"))
              && (!args.killSwitch ==> row.status == DEAD_LETTER)
              && (args.eventId == None || args.eventId == Some("") || args.eventId == Some(row.id))
  {
  }

  // What the limit cuts off comes later: dead letters by the time of their last failure, rows
  // that the kill switch stopped by the time they were written.
  lemma TakesTheEarliest(table: Table, args: ReplayArgs, ids: seq<EventId>, i: nat, e: EventId)
    requires IsSelection(table, args, ids) && i < |ids| && e in table && Selected(table[e], args) && ids[i] in table
    requires e in ids[i + 1..] || e !in ids
    ensures |ids| <= args.limit && e != ids[i] && (e !in ids ==> |ids| == args.limit)
    ensures args.killSwitch ==> table[ids[i]].createdAt <= table[e].createdAt
    ensures !args.killSwitch && table[e].deadLetteredAt.Some? ==>
              table[ids[i]].deadLetteredAt.Some? && table[ids[i]].deadLetteredAt.value <= table[e].deadLetteredAt.value
  {
    if e in ids[i + 1..] {
      var k :| 0 <= k < |ids[i + 1..]| && ids[i + 1..][k] == e;
      assert ids[i + 1 + k] == e;
    }
  }

  // A run whose query was not cut off leaves no selected row behind; rows that were not
  // selected keep every field.
  lemma ReplayLeavesNoneBehind(table: Table, args: ReplayArgs, ids: seq<EventId>, e: EventId)
    requires IsSelection(table, args, ids) && |ids| < args.limit && e in table
    ensures var after := ReplayedRows(table, (set i | i in ids));
            && after.Keys == table.Keys
            && !Selected(after[e], args)
            && (after[e] == table[e] <==> !Selected(table[e], args))
  {
    assert Reset(table[e]).status == PENDING;
    assert e in ids ==> Selected(table[e], args);
  }

  // A replayed row can be claimed at once, with all five attempts before it again.
  lemma ReplayedIsEligibleAtOnce(row: Row, killSwitch: bool, now: Time)
    requires Replayable(row, killSwitch)
    ensures Eligible(Reset(row), now) && !Eligible(row, now)
    ensures Reset(row).retryCount == 0 && !Replayable(Reset(row), killSwitch)
  {
  }
}
