// Relays, replay scripts and job runs over one table, one queue and one inbox: from a row in
// the table to its side effects, whatever happens in between.
module OutboxEndToEnd {
  import opened OutboxEntities
  import opened OutboxEnvelope
  import opened OutboxDelivery
  import R = OutboxRuns
  import D = OutboxDelivery

  // `supplied` says which categories have a consumer in this deployment.
  datatype State = State(supplied: set<Category>, outbox: R.State, delivery: D.State)

  datatype Action =
    | Outbox(step: R.Action)
    | StartJob(job: JobId, eventId: EventId, flags: Flags)
    | Consume(move: D.Action)

  // The names under which supplied consumers record what they process.
  function LiveNames(supplied: set<Category>): set<string> {
    set c | c in supplied :: ConsumerName(c, true)
  }

  // What a job run delivers is settled when it starts, by the event's type and the flags.
  ghost function Begun(s: State, a: Action): D.Action
    requires a.StartJob? && a.eventId in s.outbox.table
  {
    D.Start(a.job, a.eventId, Deliveries(s.outbox.table[a.eventId].eventType, a.flags, s.supplied))
  }

  ghost predicate Enabled(s: State, a: Action) {
    match a
    case Outbox(step) => R.Enabled(s.outbox, step)
    case StartJob(job, e, _) => e in s.outbox.table && e in s.outbox.jobs && D.Enabled(s.delivery, Begun(s, a))
    case Consume(move) => !move.Start? && D.Enabled(s.delivery, move)
  }

  ghost function Next(s: State, a: Action): State
    requires Enabled(s, a)
  {
    match a
    case Outbox(step) =>
      var outbox := R.Next(s.outbox, step);
      s.(outbox := outbox, delivery := s.delivery.(queued := outbox.jobs))
    case StartJob(_, _, _) => s.(delivery := D.Next(s.delivery, Begun(s, a)))
    case Consume(move) => s.(delivery := D.Next(s.delivery, move))
  }

  ghost predicate IsRun(states: seq<State>, actions: seq<Action>) {
    && |states| == |actions| + 1
    && R.Init(states[0].outbox) && states[0].outbox.jobs == {}
    && states[0].delivery == D.State(LiveNames(states[0].supplied), {}, Inbox({}, multiset{}), map[])
    && forall i :: 0 <= i < |actions| ==>
         Enabled(states[i], actions[i]) && states[i + 1] == Next(states[i], actions[i])
  }

  ghost predicate Inv(s: State) {
    && R.Inv(s.outbox) && D.Inv(s.delivery)
    && s.delivery.queued == s.outbox.jobs <= s.outbox.table.Keys
    && s.delivery.live == LiveNames(s.supplied)
  }

  // Nothing recorded or committed is ever taken back.
  ghost predicate Grows(s: State, s': State) {
    && s.supplied == s'.supplied && s.outbox.jobs <= s'.outbox.jobs
    && s.delivery.inbox.rows <= s'.delivery.inbox.rows && s.delivery.inbox.effects <= s'.delivery.inbox.effects
  }

  lemma InvStep(s: State, a: Action)
    requires Inv(s) && Enabled(s, a)
    ensures Inv(Next(s, a)) && Grows(s, Next(s, a))
  {
    match a
    case Outbox(step) =>
      R.InvStep(s.outbox, step);
      QueueGrows(s.outbox, step);
      MoreQueued(s.delivery, R.Next(s.outbox, step).jobs);
    case StartJob(_, _, _) => D.InvStep(s.delivery, Begun(s, a));
    case Consume(move) => D.InvStep(s.delivery, move);
  }

  lemma QueueGrows(s: R.State, a: R.Action)
    requires R.Inv(s) && R.Enabled(s, a) && s.jobs <= s.table.Keys
    ensures s.jobs <= R.Next(s, a).jobs <= R.Next(s, a).table.Keys
  {
    R.IdsChangeOnlyByProducing(s, a);
  }

  lemma MoreQueued(s: D.State, queued: set<EventId>)
    requires D.Inv(s) && s.queued <= queued
    ensures D.Inv(s.(queued := queued))
  {
    var s' := s.(queued := queued);
    forall job | job in s'.jobs
      ensures JobOk(s'.jobs[job], s')
    {
      assert JobOk(s.jobs[job], s);
    }
    assert OncePerRow(s) ==> OncePerRow(s');
  }

  lemma {:induction false} InvAlways(states: seq<State>, actions: seq<Action>, i: nat)
    requires IsRun(states, actions) && i < |states|
    ensures Inv(states[i])
  {
    if i > 0 {
      InvAlways(states, actions, i - 1);
      InvStep(states[i - 1], actions[i - 1]);
    }
  }

  lemma {:induction false} GrowsAlways(states: seq<State>, actions: seq<Action>, i: nat, j: nat)
    requires IsRun(states, actions) && i <= j < |states|
    ensures Grows(states[i], states[j])
  {
    if i < j {
      GrowsAlways(states, actions, i, j - 1);
      GrowsNext(states, actions, j - 1);
      GrowsThen(states[i], states[j - 1], states[j]);
    }
  }

  lemma GrowsNext(states: seq<State>, actions: seq<Action>, i: nat)
    requires IsRun(states, actions) && i < |actions|
    ensures Grows(states[i], states[i + 1])
  {
    InvAlways(states, actions, i);
    InvStep(states[i], actions[i]);
  }

  lemma GrowsThen(s: State, s': State, s'': State)
    requires Grows(s, s') && Grows(s', s'')
    ensures Grows(s, s'')
  {
  }

  // ----- End to end -----

  // With late saves, overlapping replays, repeated dispatches and retried or aborted job runs
  // all included: no consumer's side effect for an event commits twice, and one commits only
  // for an event that is in the table and whose job was stored.
  lemma EffectsAtMostOnce(states: seq<State>, actions: seq<Action>, i: nat, key: Key)
    requires IsRun(states, actions) && i < |states|
    ensures states[i].delivery.inbox.effects[key] <= 1
    ensures key in states[i].delivery.inbox.effects ==>
              key.eventId in states[i].outbox.jobs && key.eventId in states[i].outbox.table
  {
    InvAlways(states, actions, i);
  }

  // A dispatched event is never out of the consumers' reach: a job run for it can start, at any
  // time and under any flags.
  lemma DispatchedCanBeProcessed(states: seq<State>, actions: seq<Action>, i: nat, e: EventId, job: JobId, flags: Flags)
    requires IsRun(states, actions) && i < |states| && job !in states[i].delivery.jobs
    requires e in states[i].outbox.table && states[i].outbox.table[e].status == DISPATCHED
    ensures Enabled(states[i], StartJob(job, e, flags))
  {
    InvAlways(states, actions, i);
    DeliveriesFit(states[i].outbox.table[e].eventType, flags, states[i].supplied);
  }

  // Each delivery's name tells whether its category has a consumer.
  lemma DeliveriesFit(eventType: string, flags: Flags, supplied: set<Category>)
    ensures forall i :: 0 <= i < |Deliveries(eventType, flags, supplied)| ==>
              var d := Deliveries(eventType, flags, supplied)[i];
              d.supplied <==> d.consumerName in LiveNames(supplied)
  {
    var ds := Deliveries(eventType, flags, supplied);
    forall i | 0 <= i < |ds|
      ensures ds[i].supplied <==> ds[i].consumerName in LiveNames(supplied)
    {
      assert ds[i] in ds;
      DeliveriesReach(eventType, flags, supplied, ds[i]);
      var c :| ds[i] == Delivery(ConsumerName(c, c in supplied), c in supplied);
      NameIsLive(c, supplied);
    }
  }

  lemma NameIsLive(c: Category, supplied: set<Category>)
    ensures ConsumerName(c, c in supplied) in LiveNames(supplied) <==> c in supplied
  {
    if ConsumerName(c, c in supplied) in LiveNames(supplied) {
      var d :| d in supplied && ConsumerName(d, true) == ConsumerName(c, c in supplied);
      NameTellsCategory(c, c in supplied);
      NameTellsCategory(d, true);
    }
  }

  lemma NameTellsCategory(c: Category, supplied: bool)
    ensures |ConsumerName(c, supplied)| > 7 && ConsumerName(c, supplied)[7] == Initial(c)
  {
  }

  // A job run begun at step `i` and found at its normal end at `j` has, from then on and for
  // every category that the event reached when the run began, its inbox row recorded, and its
  // side effect committed exactly once if a consumer is supplied.
  lemma ServedExactlyOnce(states: seq<State>, actions: seq<Action>, i: nat, j: nat, k: nat, c: Category)
    requires IsRun(states, actions) && i < j <= k < |states| && actions[i].StartJob?
    requires Enabled(states[i], actions[i])
    requires forall m :: i < m < j && actions[m].StartJob? ==> actions[m].job != actions[i].job
    requires actions[i].job in states[j].delivery.jobs
    requires states[j].delivery.jobs[actions[i].job].done == |states[j].delivery.jobs[actions[i].job].all|
    requires Reaches(states[i].outbox.table[actions[i].eventId].eventType, actions[i].flags, states[i].supplied, c)
    ensures var key := Key(ConsumerName(c, c in states[i].supplied), actions[i].eventId);
            && key in states[k].delivery.inbox.rows
            && states[k].delivery.inbox.effects[key] == if c in states[i].supplied then 1 else 0
  {
    var supplied := states[i].supplied;
    var d := Delivery(ConsumerName(c, c in supplied), c in supplied);
    var key := Key(d.consumerName, actions[i].eventId);
    var ds := Deliveries(states[i].outbox.table[actions[i].eventId].eventType, actions[i].flags, supplied);
    JobStarts(states[i], actions[i]);
    JobStays(states, actions, i + 1, j, actions[i].job, actions[i].eventId, ds);
    DeliveriesReach(states[i].outbox.table[actions[i].eventId].eventType, actions[i].flags, supplied, d);
    InvAlways(states, actions, j);
    DoneIsRecorded(states[j].delivery, actions[i].job, d);
    GrowsAlways(states, actions, i, k);
    GrowsAlways(states, actions, j, k);
    InvAlways(states, actions, k);
    NameIsLive(c, supplied);
  }

  // The job run, if it is there, is for this event and has these deliveries.
  predicate Delivers(s: D.State, job: JobId, e: EventId, ds: seq<Delivery>) {
    job in s.jobs ==> s.jobs[job].eventId == e && s.jobs[job].all == ds
  }

  // A job run keeps its deliveries for as long as it is there.
  lemma {:induction false} JobStays(states: seq<State>, actions: seq<Action>, i: nat, j: nat, job: JobId, e: EventId,
                                    ds: seq<Delivery>)
    requires IsRun(states, actions) && i <= j < |states| && Delivers(states[i].delivery, job, e, ds)
    requires forall m :: i <= m < j && actions[m].StartJob? ==> actions[m].job != job
    ensures Delivers(states[j].delivery, job, e, ds)
  {
    if i < j {
      JobStays(states, actions, i, j - 1, job, e, ds);
      JobStep(states[j - 1], actions[j - 1], job, e, ds);
    }
  }

  lemma JobStarts(s: State, a: Action)
    requires Enabled(s, a) && a.StartJob?
    ensures Delivers(Next(s, a).delivery, a.job, a.eventId,
                     Deliveries(s.outbox.table[a.eventId].eventType, a.flags, s.supplied))
  {
  }

  lemma JobStep(s: State, a: Action, job: JobId, e: EventId, ds: seq<Delivery>)
    requires Enabled(s, a) && Delivers(s.delivery, job, e, ds) && (a.StartJob? ==> a.job != job)
    ensures Delivers(Next(s, a).delivery, job, e, ds)
  {
  }

  lemma DoneIsRecorded(s: D.State, job: JobId, d: Delivery)
    requires D.Inv(s) && job in s.jobs && s.jobs[job].done == |s.jobs[job].all| && d in s.jobs[job].all
    ensures Key(d.consumerName, s.jobs[job].eventId) in s.inbox.rows
  {
    assert JobOk(s.jobs[job], s);
    var i :| 0 <= i < |s.jobs[job].all| && s.jobs[job].all[i] == d;
  }
}
