// How often an event is tried: the failures that are saved, the rejections of the queue, and
// what becomes of each of them.
module OutboxAttempts {
  import opened OutboxEntities
  import opened OutboxRelay
  import opened OutboxRuns
  import opened OutboxLeases

  // ----- Saved failures -----

  // Failed attempts saved for an event since it was produced or last replayed.
  ghost function SavedFailures(states: seq<State>, actions: seq<Action>, e: EventId, i: nat): nat
    requires IsRun(states, actions) && i < |states|
  {
    if i == 0 then 0 else
      var before := SavedFailures(states, actions, e, i - 1);
      assert Enabled(states[i - 1], actions[i - 1]);
      match actions[i - 1]
      case Save(run, id) =>
        if id == e && states[i - 1].copies[run][e].phase == Settled(Failure) then before + 1 else before
      case ReplaySave(_, id) => if id == e then 0 else before
      case _ => before
  }

  // The persisted retry counter is exactly that number: no saved failure is lost or counted twice.
  lemma {:induction false} RetryCountIsExact(states: seq<State>, actions: seq<Action>, e: EventId, i: nat)
    requires TimelyRun(states, actions) && i < |states|
    requires e in states[0].table ==> states[0].table[e].status == PENDING
    ensures e in states[i].table ==> states[i].table[e].retryCount == SavedFailures(states, actions, e, i)
    ensures e !in states[i].table ==> SavedFailures(states, actions, e, i) == 0
  {
    if i > 0 {
      RetryCountIsExact(states, actions, e, i - 1);
      InvAlways(states, actions, i - 1);
      LeaseExclusion(states, actions, i - 1);
      assert states[i] == Next(states[i - 1], actions[i - 1]);
    }
  }

  // Between replays at most five failures are saved, and the fifth parks the event.
  lemma AtMostFiveSavedFailures(states: seq<State>, actions: seq<Action>, e: EventId, i: nat)
    requires TimelyRun(states, actions) && i < |states|
    requires e in states[0].table ==> states[0].table[e].status == PENDING
    requires e in states[i].table
    ensures SavedFailures(states, actions, e, i) <= MAX_RELAY_ATTEMPTS
    ensures SavedFailures(states, actions, e, i) == MAX_RELAY_ATTEMPTS <==> states[i].table[e].status == DEAD_LETTER
  {
    RetryCountIsExact(states, actions, e, i);
    InvAlways(states, actions, i);
    PublishedIsNeverEntered(states, actions, e, i);
  }

  // The legacy status is never entered, and no step loses a row.
  lemma PublishedIsOld(s: State, a: Action, e: EventId)
    requires Inv(s) && Enabled(s, a)
    ensures e in s.table ==> e in Next(s, a).table
    ensures e in Next(s, a).table && Next(s, a).table[e].status == PUBLISHED ==> e in s.table && s.table[e].status == PUBLISHED
  {
    if a.Save? {
      assert CopyOk(s.copies[a.run][a.id], a.id, s.jobs, s.clock);
    }
  }

  lemma {:induction false} PublishedIsNeverEntered(states: seq<State>, actions: seq<Action>, e: EventId, i: nat)
    requires IsRun(states, actions) && i < |states|
    requires e in states[0].table ==> states[0].table[e].status == PENDING
    ensures e in states[i].table ==> states[i].table[e].status != PUBLISHED
  {
    if i > 0 {
      PublishedIsNeverEntered(states, actions, e, i - 1);
      InvAlways(states, actions, i - 1);
      PublishedIsOld(states[i - 1], actions[i - 1], e);
    }
  }

  // ----- Rejections -----

  // What a step adds to three counts for an event: jobs that the queue rejected, failures that
  // were saved, and failures that were dropped because their relay crashed before its save.
  function Rejected(a: Action, e: EventId): nat {
    if a.Add? && a.id == e && a.outcome.Rejected? then 1 else 0
  }

  ghost function Saved(s: State, a: Action, e: EventId): nat
    requires Enabled(s, a)
  {
    if a.Save? && a.id == e && s.copies[a.run][e].phase == Settled(Failure) then 1 else 0
  }

  function Dropped(s: State, a: Action, e: EventId): nat {
    if a.Crash? && a.run in HeldFailures(s, e) then 1 else 0
  }

  // The relays that hold a failure of the event unsaved.
  function HeldFailures(s: State, e: EventId): set<RunId> {
    set r | r in s.copies && e in s.copies[r] && s.copies[r][e].phase == Settled(Failure)
  }

  // The counts over the steps from `i` up to `j`.
  function Rejections(actions: seq<Action>, e: EventId, i: nat, j: nat): nat
    requires i <= j <= |actions|
  {
    if i == j then 0 else Rejections(actions, e, i, j - 1) + Rejected(actions[j - 1], e)
  }

  ghost function Saves(states: seq<State>, actions: seq<Action>, e: EventId, i: nat, j: nat): nat
    requires IsRun(states, actions) && i <= j <= |actions|
  {
    if i == j then 0 else
      assert Enabled(states[j - 1], actions[j - 1]);
      Saves(states, actions, e, i, j - 1) + Saved(states[j - 1], actions[j - 1], e)
  }

  function Drops(states: seq<State>, actions: seq<Action>, e: EventId, i: nat, j: nat): nat
    requires |states| == |actions| + 1 && i <= j <= |actions|
  {
    if i == j then 0 else Drops(states, actions, e, i, j - 1) + Dropped(states[j - 1], actions[j - 1], e)
  }

  // A rejection is held by its relay until it is saved or dropped.
  lemma HeldStep(s: State, a: Action, e: EventId)
    requires Enabled(s, a)
    ensures |HeldFailures(s, e)| + Rejected(a, e) == |HeldFailures(Next(s, a), e)| + Saved(s, a, e) + Dropped(s, a, e)
  {
    var before, after := HeldFailures(s, e), HeldFailures(Next(s, a), e);
    match a
    case Add(run, id, outcome) => HeldAdd(s, run, id, outcome, e);
    case Save(run, id) => HeldSave(s, run, id, e);
    case Crash(run) => assert after == before - {run};
    case _ => assert after == before;
  }

  lemma HeldSave(s: State, run: RunId, id: EventId, e: EventId)
    requires Enabled(s, Save(run, id))
    ensures |HeldFailures(s, e)| == |HeldFailures(Next(s, Save(run, id)), e)| + Saved(s, Save(run, id), e)
  {
    var before, after := HeldFailures(s, e), HeldFailures(Next(s, Save(run, id)), e);
    assert after == if id == e then before - {run} else before;
  }

  lemma HeldAdd(s: State, run: RunId, id: EventId, outcome: AddOutcome, e: EventId)
    requires Enabled(s, Add(run, id, outcome))
    ensures |HeldFailures(Next(s, Add(run, id, outcome)), e)|
         == |HeldFailures(s, e)| + Rejected(Add(run, id, outcome), e)
  {
    var before, after := HeldFailures(s, e), HeldFailures(Next(s, Add(run, id, outcome)), e);
    assert after == if id == e && outcome.Rejected? then before + {run} else before;
    assert id == e ==> run !in before;
  }

  // Conservation, in every run, timely or not: each rejected job is saved, dropped or still held.
  lemma {:induction false} RejectionsAreConserved(states: seq<State>, actions: seq<Action>, e: EventId, i: nat, j: nat)
    requires IsRun(states, actions) && i <= j < |states|
    ensures |HeldFailures(states[i], e)| + Rejections(actions, e, i, j)
         == |HeldFailures(states[j], e)| + Saves(states, actions, e, i, j) + Drops(states, actions, e, i, j)
  {
    if i < j {
      RejectionsAreConserved(states, actions, e, i, j - 1);
      assert Enabled(states[j - 1], actions[j - 1]) && states[j] == Next(states[j - 1], actions[j - 1]);
      HeldStep(states[j - 1], actions[j - 1], e);
    }
  }

  // The event is not replayed between `i` and `j`.
  predicate NotReplayed(actions: seq<Action>, e: EventId, i: nat, j: nat)
    requires i <= j <= |actions|
  {
    forall k :: i <= k < j ==> !(actions[k].ReplaySave? && actions[k].id == e)
  }

  // In a timely run the saved failures are what the retry counter goes up by.
  lemma {:induction false} SavesAreCounted(states: seq<State>, actions: seq<Action>, e: EventId, i: nat, j: nat)
    requires TimelyRun(states, actions) && i <= j < |states| && NotReplayed(actions, e, i, j) && e in states[i].table
    ensures e in states[j].table
    ensures states[j].table[e].retryCount == states[i].table[e].retryCount + Saves(states, actions, e, i, j)
  {
    if i < j {
      SavesAreCounted(states, actions, e, i, j - 1);
      CountedInARun(states, actions, e, j - 1);
    }
  }

  lemma CountedInARun(states: seq<State>, actions: seq<Action>, e: EventId, k: nat)
    requires TimelyRun(states, actions) && k < |actions| && e in states[k].table
    requires !(actions[k].ReplaySave? && actions[k].id == e)
    ensures Enabled(states[k], actions[k]) && e in states[k + 1].table
    ensures states[k + 1].table[e].retryCount == states[k].table[e].retryCount + Saved(states[k], actions[k], e)
  {
    InvAlways(states, actions, k);
    LeaseExclusion(states, actions, k);
    SaveIsCounted(states[k], actions[k], e);
  }

  lemma SaveIsCounted(s: State, a: Action, e: EventId)
    requires Inv(s) && Exclusive(s) && Enabled(s, a) && Timely(s, a) && e in s.table && !(a.ReplaySave? && a.id == e)
    ensures e in Next(s, a).table && Next(s, a).table[e].retryCount == s.table[e].retryCount + Saved(s, a, e)
  {
    if a.Save? {
      assert Live(s, a.run, a.id) && CopyOk(s.copies[a.run][a.id], a.id, s.jobs, s.clock);
    }
  }

  // So between replays every rejected job is in the retry counter, held unsaved, or dropped.
  lemma RejectionsAreAccountedFor(states: seq<State>, actions: seq<Action>, e: EventId, i: nat, j: nat)
    requires TimelyRun(states, actions) && i <= j < |states| && NotReplayed(actions, e, i, j) && e in states[i].table
    ensures e in states[j].table
    ensures states[i].table[e].retryCount + |HeldFailures(states[i], e)| + Rejections(actions, e, i, j)
         == states[j].table[e].retryCount + |HeldFailures(states[j], e)| + Drops(states, actions, e, i, j)
  {
    RejectionsAreConserved(states, actions, e, i, j);
    SavesAreCounted(states, actions, e, i, j);
  }

  // From a fresh or replayed row on, the queue rejects an event at most five times exactly as
  // long as the failures dropped, and those that came to be held, do not exceed the attempts
  // that the retry counter has left. In particular it does as long as all of them are saved,
  // and then the fifth rejection is what parks the event.
  lemma AtMostFiveRejectionsExactly(states: seq<State>, actions: seq<Action>, e: EventId, i: nat, j: nat)
    requires TimelyRun(states, actions) && i <= j < |states| && NotReplayed(actions, e, i, j)
    requires e in states[i].table && states[i].table[e].status == PENDING && states[i].table[e].retryCount == 0
    ensures e in states[j].table
    ensures Rejections(actions, e, i, j) <= MAX_RELAY_ATTEMPTS
       <==> Drops(states, actions, e, i, j) + |HeldFailures(states[j], e)| - |HeldFailures(states[i], e)|
            <= MAX_RELAY_ATTEMPTS - states[j].table[e].retryCount
    ensures Drops(states, actions, e, i, j) == 0 && HeldFailures(states[j], e) == HeldFailures(states[i], e) ==>
              && Rejections(actions, e, i, j) <= MAX_RELAY_ATTEMPTS
              && (Rejections(actions, e, i, j) == MAX_RELAY_ATTEMPTS <==> states[j].table[e].status == DEAD_LETTER)
  {
    RejectionsAreAccountedFor(states, actions, e, i, j);
    InvAlways(states, actions, i);
    InvAlways(states, actions, j);
    NeverPublished(states, actions, e, i, j);
  }

  lemma {:induction false} NeverPublished(states: seq<State>, actions: seq<Action>, e: EventId, i: nat, j: nat)
    requires IsRun(states, actions) && i <= j < |states| && e in states[i].table && states[i].table[e].status != PUBLISHED
    ensures e in states[j].table && states[j].table[e].status != PUBLISHED
  {
    if i < j {
      NeverPublished(states, actions, e, i, j - 1);
      InvAlways(states, actions, j - 1);
      PublishedIsOld(states[j - 1], actions[j - 1], e);
    }
  }
}
