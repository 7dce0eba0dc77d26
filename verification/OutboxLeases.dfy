// What the claim lease buys, and what it needs: exclusion and stability of finished rows,
// each with the exact condition under which a run keeps it.
module OutboxLeases {
  import opened Prelude
  import opened OutboxEntities
  import opened OutboxRuns

  // The deadline that claiming put on a copy; the renewal is not persisted before the save.
  function Lease(copy: Copy): Time
    requires copy.base.claimLeaseExpiresAt.Some?
  {
    copy.base.claimLeaseExpiresAt.value
  }

  // A relay is live on an event from its claim until it saves, crashes or overruns its lease.
  ghost predicate Live(s: State, run: RunId, id: EventId) {
    && Holds(s, run, id)
    && s.copies[run][id].base.claimLeaseExpiresAt.Some?
    && s.clock < Lease(s.copies[run][id])
  }

  predicate Parked(row: Row) {
    row.status == DEAD_LETTER || row.status == FAILED
  }

  predicate Finished(row: Row) {
    row.status != PENDING
  }

  // The two conditions: a relay acts on a copy only before its lease runs out, and a replay
  // script saves a row only while that row is still parked.
  ghost predicate Timely(s: State, a: Action) {
    match a
    case Kill(run, id) => Live(s, run, id)
    case Renew(run, id, _) => Live(s, run, id)
    case Add(run, id, _) => Live(s, run, id)
    case Save(run, id) => Live(s, run, id)
    case ReplaySave(_, id) => id in s.table && Parked(s.table[id])
    case _ => true
  }

  ghost predicate TimelyRun(states: seq<State>, actions: seq<Action>) {
    && IsRun(states, actions)
    && forall i :: 0 <= i < |actions| ==> Timely(states[i], actions[i])
  }

  // A live copy is still what the table holds, and no other relay is live on its event.
  ghost predicate Exclusive(s: State) {
    && (forall run, e :: Live(s, run, e) ==> e in s.table && s.table[e] == s.copies[run][e].base)
    && (forall r1, r2, e :: Live(s, r1, e) && Live(s, r2, e) ==> r1 == r2)
  }

  lemma ExclusiveClaim(s: State, a: Action)
    requires Inv(s) && Exclusive(s) && Enabled(s, a) && a.Claim?
    ensures Exclusive(Next(s, a))
  {
    var s' := Next(s, a);
    forall r, e | Live(s', r, e) && r != a.run
      ensures Live(s, r, e) && e !in a.ids && s'.copies[r][e] == s.copies[r][e]
    {
      assert Holds(s, r, e);
    }
  }

  // The save that exclusion cannot survive: it overwrites a row that another relay is live on.
  ghost predicate Clashes(s: State, a: Action)
    requires Enabled(s, a)
  {
    match a
    case Save(run, id) =>
      exists r :: r != run && Live(s, r, id) && s.copies[run][id].row != s.copies[r][id].base
    case ReplaySave(_, id) => exists r :: Live(s, r, id)
    case _ => false
  }

  lemma ExclusiveOther(s: State, a: Action)
    requires Inv(s) && Exclusive(s) && Enabled(s, a) && !Clashes(s, a) && !a.Claim?
    ensures Exclusive(Next(s, a))
  {
    var s' := Next(s, a);
    forall r, e | Live(s', r, e)
      ensures Live(s, r, e) && s'.copies[r][e].base == s.copies[r][e].base
      ensures e in s'.table && s'.table[e] == s.table[e]
    {
      LiveCopyStays(s, a, r, e);
    }
  }

  lemma LiveCopyStays(s: State, a: Action, r: RunId, e: EventId)
    requires Inv(s) && Exclusive(s) && Enabled(s, a) && !Clashes(s, a) && !a.Claim? && Live(Next(s, a), r, e)
    ensures Live(s, r, e) && Next(s, a).copies[r][e].base == s.copies[r][e].base
    ensures e in s.table && e in Next(s, a).table && Next(s, a).table[e] == s.table[e]
  {
    assert Holds(s, r, e);
    assert Live(s, r, e) && s.table[e] == s.copies[r][e].base;
    match a
    case Save(run, id) => assert id == e ==> run != r && s.copies[run][id].row == s.table[e];
    case ReplaySave(_, id) => assert id != e;
    case _ =>
  }

  lemma ClashBreaksExclusion(s: State, a: Action)
    requires Inv(s) && Enabled(s, a) && Clashes(s, a)
    ensures !Exclusive(Next(s, a))
  {
    var s' := Next(s, a);
    var r :| Live(s, r, a.id) && (a.Save? ==> r != a.run && s.copies[a.run][a.id].row != s.copies[r][a.id].base);
    assert Live(s', r, a.id) && s'.copies[r][a.id] == s.copies[r][a.id];
    assert s'.table[a.id] != s.copies[r][a.id].base;
  }

  // Exclusion survives a step exactly when the step is no such save.
  lemma ExclusiveStepExactly(s: State, a: Action)
    requires Inv(s) && Exclusive(s) && Enabled(s, a)
    ensures Exclusive(Next(s, a)) <==> !Clashes(s, a)
  {
    if a.Claim? {
      ExclusiveClaim(s, a);
    } else if Clashes(s, a) {
      ClashBreaksExclusion(s, a);
    } else {
      ExclusiveOther(s, a);
    }
  }

  // So a run keeps exclusion throughout if and only if none of its saves hits a row that
  // another relay is live on: all interleavings, crashes, late saves and replays included.
  lemma ExclusionExactly(states: seq<State>, actions: seq<Action>)
    requires IsRun(states, actions)
    ensures (forall i :: 0 <= i < |states| ==> Exclusive(states[i]))
       <==> (forall i :: 0 <= i < |actions| ==> !Clashes(states[i], actions[i]))
  {
    if forall i :: 0 <= i < |actions| ==> !Clashes(states[i], actions[i]) {
      forall i | 0 <= i < |states| ensures Exclusive(states[i]) {
        ExclusiveWithoutClash(states, actions, i);
      }
    } else {
      var i :| 0 <= i < |actions| && Clashes(states[i], actions[i]);
      InvAlways(states, actions, i);
      ClashBreaksExclusion(states[i], actions[i]);
      assert states[i + 1] == Next(states[i], actions[i]);
    }
  }

  lemma {:induction false} ExclusiveWithoutClash(states: seq<State>, actions: seq<Action>, i: nat)
    requires IsRun(states, actions) && i < |states|
    requires forall j :: 0 <= j < i ==> !Clashes(states[j], actions[j])
    ensures Exclusive(states[i])
  {
    if i > 0 {
      ExclusiveWithoutClash(states, actions, i - 1);
      InvAlways(states, actions, i - 1);
      ExclusiveStepExactly(states[i - 1], actions[i - 1]);
    }
  }

  // ----- Finished rows -----

  // The step leaves the row of `e` as it was if that row is finished, or it is the replay of a
  // parked one.
  ghost predicate KeepsFinished(s: State, a: Action, e: EventId)
    requires Enabled(s, a)
  {
    e in s.table && Finished(s.table[e]) ==>
      && e in Next(s, a).table
      && (Next(s, a).table[e] == s.table[e] || (a.ReplaySave? && a.id == e && Parked(s.table[e])))
  }

  // The save that finished rows cannot survive: another value over a finished row, or a replay
  // of one that is not parked any more.
  ghost predicate Undoes(s: State, a: Action)
    requires Enabled(s, a)
  {
    match a
    case Save(run, id) => id in s.table && Finished(s.table[id]) && s.copies[run][id].row != s.table[id]
    case ReplaySave(_, id) => id in s.table && Finished(s.table[id]) && !Parked(s.table[id])
    case _ => false
  }

  // A step keeps every finished row exactly when it is no such save.
  lemma FinishedStepExactly(s: State, a: Action)
    requires Inv(s) && Enabled(s, a)
    ensures (forall e :: KeepsFinished(s, a, e)) <==> !Undoes(s, a)
  {
    if Undoes(s, a) {
      assert !KeepsFinished(s, a, a.id);
    }
  }

  // So a run lets rows leave DISPATCHED, FAILED and DEAD_LETTER only by the replay of parked
  // ones if and only if none of its saves is such a save.
  lemma FinishedExactly(states: seq<State>, actions: seq<Action>)
    requires IsRun(states, actions)
    ensures (forall i, e :: 0 <= i < |actions| ==> KeepsFinished(states[i], actions[i], e))
       <==> (forall i :: 0 <= i < |actions| ==> !Undoes(states[i], actions[i]))
  {
    forall i | 0 <= i < |actions|
      ensures (forall e :: KeepsFinished(states[i], actions[i], e)) <==> !Undoes(states[i], actions[i])
    {
      InvAlways(states, actions, i);
      FinishedStepExactly(states[i], actions[i]);
    }
  }

  // As long as no save undoes anything, a dispatched row is what it was.
  lemma {:induction false} DispatchedStays(states: seq<State>, actions: seq<Action>, e: EventId, i: nat, j: nat)
    requires IsRun(states, actions) && i <= j < |states|
    requires forall k :: i <= k < j ==> !Undoes(states[k], actions[k])
    requires e in states[i].table && states[i].table[e].status == DISPATCHED
    ensures e in states[j].table && states[j].table[e] == states[i].table[e]
  {
    if i < j {
      DispatchedStays(states, actions, e, i, j - 1);
      InvAlways(states, actions, j - 1);
      DispatchedStep(states[j - 1], actions[j - 1], e);
      assert states[j] == Next(states[j - 1], actions[j - 1]);
    }
  }

  lemma DispatchedStep(s: State, a: Action, e: EventId)
    requires Inv(s) && Enabled(s, a) && !Undoes(s, a) && e in s.table && s.table[e].status == DISPATCHED
    ensures e in Next(s, a).table && Next(s, a).table[e] == s.table[e]
  {
    FinishedStepExactly(s, a);
    assert KeepsFinished(s, a, e);
  }

  // ----- A guard that would keep both -----

  // What could be tested together with the save: the row is still the one that was claimed, or
  // still parked. The code tests neither.
  ghost predicate Guarded(s: State, a: Action)
    requires Enabled(s, a)
  {
    match a
    case Save(run, id) => id in s.table && s.table[id] == s.copies[run][id].base
    case ReplaySave(_, id) => id in s.table && Parked(s.table[id])
    case _ => true
  }

  // The guard stops every save on a finished row ...
  lemma FinishedRowsFailTheGuard(s: State, a: Action)
    requires Inv(s) && Enabled(s, a) && a.Save? && Finished(s.table[a.id])
    ensures !Guarded(s, a)
  {
    assert CopyOk(s.copies[a.run][a.id], a.id, s.jobs, s.clock);
  }

  // ... and every save on a row that another relay is live on.
  lemma GuardedStepIsSafe(s: State, a: Action)
    requires Inv(s) && Exclusive(s) && Enabled(s, a) && Guarded(s, a)
    ensures !Clashes(s, a) && !Undoes(s, a)
  {
    if a.Save? && Finished(s.table[a.id]) {
      FinishedRowsFailTheGuard(s, a);
    }
    assert forall r, e :: Live(s, r, e) ==> e in s.table && s.table[e] == s.copies[r][e].base && s.table[e].status == PENDING;
    assert a.Save? ==> forall r :: Live(s, r, a.id) ==> Live(s, a.run, a.id);
  }

  // With the guard no timing is needed, for exclusion or for finished rows.
  lemma {:induction false} GuardedRunIsSafe(states: seq<State>, actions: seq<Action>, i: nat)
    requires IsRun(states, actions) && i < |states|
    requires forall k :: 0 <= k < i ==> Guarded(states[k], actions[k])
    ensures Exclusive(states[i])
    ensures forall k, e :: 0 <= k < i ==> KeepsFinished(states[k], actions[k], e)
  {
    if i > 0 {
      GuardedRunIsSafe(states, actions, i - 1);
      InvAlways(states, actions, i - 1);
      GuardedStepIsSafe(states[i - 1], actions[i - 1]);
      ExclusiveStepExactly(states[i - 1], actions[i - 1]);
      FinishedStepExactly(states[i - 1], actions[i - 1]);
    }
  }

  // ----- Timely runs -----

  // Without the guard, a timely step meets it.
  lemma TimelyIsGuarded(s: State, a: Action)
    requires Inv(s) && Exclusive(s) && Enabled(s, a) && Timely(s, a)
    ensures Guarded(s, a)
  {
  }

  // Lease exclusion, over every timely run.
  lemma {:induction false} LeaseExclusion(states: seq<State>, actions: seq<Action>, i: nat)
    requires TimelyRun(states, actions) && i < |states|
    ensures Exclusive(states[i])
  {
    if i > 0 {
      LeaseExclusion(states, actions, i - 1);
      InvAlways(states, actions, i - 1);
      TimelyIsGuarded(states[i - 1], actions[i - 1]);
      GuardedStepIsSafe(states[i - 1], actions[i - 1]);
      ExclusiveStepExactly(states[i - 1], actions[i - 1]);
    }
  }

  // In a timely run no row leaves DISPATCHED, FAILED or DEAD_LETTER except a parked one by
  // the replay script; a dispatched row is final.
  lemma FinishedRowsStay(states: seq<State>, actions: seq<Action>, i: nat, e: EventId)
    requires TimelyRun(states, actions) && i < |actions|
    ensures KeepsFinished(states[i], actions[i], e)
  {
    LeaseExclusion(states, actions, i);
    InvAlways(states, actions, i);
    TimelyIsGuarded(states[i], actions[i]);
    GuardedStepIsSafe(states[i], actions[i]);
    FinishedStepExactly(states[i], actions[i]);
  }
}
