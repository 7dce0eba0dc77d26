// Delivery of queued events to consumers, deduplicated by the inbox table's unique key.
module OutboxDelivery {
  import opened Prelude
  import opened OutboxEntities
  import opened OutboxEnvelope

  datatype Key = Key(consumerName: string, eventId: EventId)

  // The committed inbox rows, and one entry in `effects` per committed side effect.
  datatype Inbox = Inbox(rows: set<Key>, effects: multiset<Key>)

  // A consumer a job must reach; without a supplied consumer only the inbox row is written.
  datatype Delivery = Delivery(consumerName: string, supplied: bool)

  // ----- Which consumers an event reaches -----

  function ConsumerName(c: Category, supplied: bool): string {
    match c
    case Financial => "outbox-financial-consumer"
    case Invoice => "outbox-invoice-consumer"
    case Notification => "outbox-notification-consumer"
    case Mail => if supplied then "outbox-mail-consumer" else "outbox-mail-router"
    case Webhook => if supplied then "outbox-webhook-consumer" else "outbox-webhook-router"
  }

  predicate Reaches(eventType: string, flags: Flags, supplied: set<Category>, c: Category) {
    Belongs(eventType, c) && IsCategoryEnabled(flags, c) && (c == Notification ==> c in supplied)
  }

  // The names under which consumers record what they process, written out.
  lemma ConsumerNames(supplied: bool)
    ensures ConsumerName(Financial, supplied) == "outbox-financial-consumer"
    ensures ConsumerName(Invoice, supplied) == "outbox-invoice-consumer"
    ensures ConsumerName(Notification, supplied) == "outbox-notification-consumer"
    ensures ConsumerName(Mail, true) == "outbox-mail-consumer" && ConsumerName(Mail, false) == "outbox-mail-router"
    ensures ConsumerName(Webhook, true) == "outbox-webhook-consumer" && ConsumerName(Webhook, false) == "outbox-webhook-router"
  {
  }

  lemma NamesDiffer(c: Category, cSupplied: bool, d: Category, dSupplied: bool)
    requires ConsumerName(c, cSupplied) == ConsumerName(d, dSupplied)
    ensures c == d
  {
    assert |ConsumerName(c, cSupplied)| > 7 && |ConsumerName(d, dSupplied)| > 7;
    assert ConsumerName(c, cSupplied)[7] == Initial(c) && ConsumerName(d, dSupplied)[7] == Initial(d);
  }

  // Whether each category is reached, as the processor finds it for one event.
  function ReachOf(eventType: string, flags: Flags, supplied: set<Category>): Category -> bool {
    (c: Category) => Reaches(eventType, flags, supplied, c)
  }

  // The one branch of the processor for category `c`: at most one delivery.
  function Branch(reach: Category -> bool, supplied: set<Category>, c: Category): (ds: seq<Delivery>)
    ensures |ds| <= 1
  {
    if reach(c) then [Delivery(ConsumerName(c, c in supplied), c in supplied)] else []
  }

  // All five branches, in the processor's order.
  function Branches(reach: Category -> bool, supplied: set<Category>): seq<Delivery> {
    Branch(reach, supplied, Financial)
    + (Branch(reach, supplied, Invoice)
       + (Branch(reach, supplied, Notification)
          + (Branch(reach, supplied, Mail)
             + Branch(reach, supplied, Webhook))))
  }

  function Deliveries(eventType: string, flags: Flags, supplied: set<Category>): seq<Delivery> {
    Branches(ReachOf(eventType, flags, supplied), supplied)
  }

  // An event that was relayed under one state of the flags and is processed under another is
  // dropped by the processor exactly when no category of it is still switched on, except
  // perhaps notification without a consumer; whatever the flags were at the relay. If they
  // have not changed, and it has a category, only the exception is left.
  lemma UnhandledExactlyWhen(eventType: string, atRelay: Flags, atJob: Flags, supplied: set<Category>)
    requires RelayEnabled(atRelay, eventType)
    ensures Deliveries(eventType, atJob, supplied) == [] <==>
            forall c :: Belongs(eventType, c) && IsCategoryEnabled(atJob, c) ==> c == Notification && Notification !in supplied
    ensures atJob == atRelay && (exists c :: Belongs(eventType, c)) ==>
              (Deliveries(eventType, atJob, supplied) == [] <==>
                 && Notification !in supplied
                 && forall c :: Belongs(eventType, c) && IsCategoryEnabled(atJob, c) ==> c == Notification)
  {
    assert Deliveries(eventType, atJob, supplied) == [] <==>
           forall c :: |Branch(ReachOf(eventType, atJob, supplied), supplied, c)| == 0;
  }

  // An event with one category is delivered exactly while that category's own flag is not off,
  // and a notification only to a consumer.
  lemma OneFlagDecidesDelivery(eventType: string, flags: Flags, supplied: set<Category>, c: Category)
    requires BelongsOnly(eventType, c)
    ensures c == Financial ==> (Deliveries(eventType, flags, supplied) != [] <==> !IsOff(flags, "durable-financial-outbox-events"))
    ensures c == Invoice ==> (Deliveries(eventType, flags, supplied) != [] <==> !IsOff(flags, "durable-invoice-outbox-events"))
    ensures c == Notification ==>
              (Deliveries(eventType, flags, supplied) != [] <==>
                 !IsOff(flags, "durable-notification-outbox-events") && Notification in supplied)
    ensures c == Mail ==> (Deliveries(eventType, flags, supplied) != [] <==> !IsOff(flags, "durable-mail-outbox-events"))
    ensures c == Webhook ==> (Deliveries(eventType, flags, supplied) != [] <==> !IsOff(flags, "durable-webhook-outbox-events"))
  {
    EachCategoryHasItsFlag(flags);
    DeliveredIfReached(eventType, flags, supplied, c);
  }

  lemma DeliveredIfReached(eventType: string, flags: Flags, supplied: set<Category>, c: Category)
    requires BelongsOnly(eventType, c)
    ensures Deliveries(eventType, flags, supplied) != [] <==>
            IsCategoryEnabled(flags, c) && (c == Notification ==> Notification in supplied)
  {
    var reach := ReachOf(eventType, flags, supplied);
    assert Branches(reach, supplied) != [] <==> exists d :: Branch(reach, supplied, d) != [];
    assert forall d :: Branch(reach, supplied, d) != [] <==> Reaches(eventType, flags, supplied, d);
    assert Reaches(eventType, flags, supplied, c) <==>
           IsCategoryEnabled(flags, c) && (c == Notification ==> Notification in supplied);
  }

  // So a switch turned off between relay and job loses an event that was dispatched.
  lemma SwitchedOffInBetween(supplied: set<Category>)
    ensures var eventType, off := "RefundRecordedEvent", Some(map[KillSwitchFlag(Financial) := false]);
            RelayEnabled(None, eventType) && Deliveries(eventType, off, supplied) == []
  {
    var eventType, off := "RefundRecordedEvent", Some(map[KillSwitchFlag(Financial) := false]);
    assert forall c :: Belongs(eventType, c) ==> c == Financial;
    assert Belongs(eventType, Financial) && IsCategoryEnabled(None, Financial);
    UnhandledExactlyWhen(eventType, None, off, supplied);
  }

  // ----- One consumer transaction, and one run of the processor -----

  // What committing one delivery does: nothing for a duplicate.
  function Delivered(inbox: Inbox, key: Key, supplied: bool): Inbox {
    if key in inbox.rows then inbox else
      Inbox(inbox.rows + {key}, if supplied then inbox.effects + multiset{key} else inbox.effects)
  }

  function DeliveredAll(inbox: Inbox, ds: seq<Delivery>, id: EventId): Inbox {
    if ds == [] then inbox else
      var n := |ds| - 1;
      Delivered(DeliveredAll(inbox, ds[..n], id), Key(ds[n].consumerName, id), ds[n].supplied)
  }

  lemma {:induction false} DeliveredAllThen(inbox: Inbox, ds: seq<Delivery>, more: seq<Delivery>, id: EventId)
    ensures DeliveredAll(inbox, ds + more, id) == DeliveredAll(DeliveredAll(inbox, ds, id), more, id)
  {
    if more == [] {
      assert ds + more == ds;
    } else {
      var n := |more| - 1;
      assert (ds + more)[..|ds + more| - 1] == ds + more[..n];
      DeliveredAllThen(inbox, ds, more[..n], id);
    }
  }

  // Everything delivered is recorded, once recorded it stays, and a delivery that finds all of
  // its rows recorded changes nothing: running a job again is harmless.
  lemma {:induction false} DeliveredAllRecords(inbox: Inbox, ds: seq<Delivery>, id: EventId)
    ensures inbox.rows <= DeliveredAll(inbox, ds, id).rows
    ensures forall d :: d in ds ==> Key(d.consumerName, id) in DeliveredAll(inbox, ds, id).rows
    ensures (forall d :: d in ds ==> Key(d.consumerName, id) in inbox.rows) ==> DeliveredAll(inbox, ds, id) == inbox
  {
    if ds != [] {
      DeliveredAllRecords(inbox, ds[..|ds| - 1], id);
    }
  }

  lemma ProcessingAgainIsHarmless(inbox: Inbox, ds: seq<Delivery>, id: EventId)
    ensures DeliveredAll(DeliveredAll(inbox, ds, id), ds, id) == DeliveredAll(inbox, ds, id)
  {
    DeliveredAllRecords(inbox, ds, id);
    DeliveredAllRecords(DeliveredAll(inbox, ds, id), ds, id);
  }

  function KeyOf(c: Category, supplied: set<Category>, id: EventId): Key {
    Key(ConsumerName(c, c in supplied), id)
  }

  lemma DifferentKeys(c: Category, d: Category, supplied: set<Category>, id: EventId)
    requires c != d
    ensures KeyOf(c, supplied, id) != KeyOf(d, supplied, id)
  {
    if ConsumerName(c, c in supplied) == ConsumerName(d, d in supplied) {
      NamesDiffer(c, c in supplied, d, d in supplied);
    }
  }

  // From `before` to `after` exactly the categories in `cs` that the event reaches were served:
  // each has its inbox row, and if it is new and a consumer is supplied, its side effect.
  ghost predicate Served(before: Inbox, after: Inbox, id: EventId, reach: Category -> bool, supplied: set<Category>,
                         cs: seq<Category>) {
    && (forall key :: key in after.rows <==>
          key in before.rows || exists c :: c in cs && reach(c) && key == KeyOf(c, supplied, id))
    && (forall key :: after.effects[key] == before.effects[key] +
          if key !in before.rows && exists c :: c in cs && reach(c) && c in supplied
                                             && key == KeyOf(c, supplied, id) then 1 else 0)
  }

  // One more branch serves one more category.
  lemma ServeBranch(before: Inbox, mid: Inbox, after: Inbox, id: EventId, reach: Category -> bool, supplied: set<Category>, cs: seq<Category>, c: Category)
    requires Served(before, mid, id, reach, supplied, cs) && c !in cs
    requires after == DeliveredAll(mid, Branch(reach, supplied, c), id)
    ensures Served(before, after, id, reach, supplied, cs + [c])
  {
    var key := KeyOf(c, supplied, id);
    if reach(c) {
      var d := Delivery(ConsumerName(c, c in supplied), c in supplied);
      assert Branch(reach, supplied, c)[..0] == [];
      assert after == Delivered(mid, key, d.supplied);
      forall e | e in cs
        ensures KeyOf(e, supplied, id) != key
      {
        DifferentKeys(c, e, supplied, id);
      }
    } else {
      assert after == mid;
    }
  }

  // The run stopped at some category in `order` that the event reaches and whose consumer
  // fails: the categories before it were served, and it was not, nor any after it.
  ghost predicate StoppedWithin(before: Inbox, after: Inbox, id: EventId, reach: Category -> bool, supplied: set<Category>, faults: set<string>, order: seq<Category>) {
    exists n :: 0 <= n < |order| && StoppedAt(before, after, id, reach, supplied, faults, order, n)
  }

  ghost predicate StoppedAt(before: Inbox, after: Inbox, id: EventId, reach: Category -> bool, supplied: set<Category>, faults: set<string>, order: seq<Category>, n: nat)
    requires n < |order|
  {
    && Served(before, after, id, reach, supplied, order[..n])
    && reach(order[n]) && ConsumerName(order[n], order[n] in supplied) in faults
    && KeyOf(order[n], supplied, id) !in after.rows
    && forall m :: n < m < |order| && KeyOf(order[m], supplied, id) in after.rows ==>
         KeyOf(order[m], supplied, id) in before.rows
  }

  // ----- The branches of a list of categories -----

  ghost predicate Distinct(cs: seq<Category>) {
    forall i, j :: 0 <= i < j < |cs| ==> cs[i] != cs[j]
  }

  lemma OrderIsDistinct()
    ensures Distinct([Financial, Invoice, Notification, Mail, Webhook])
  {
    var order := [Financial, Invoice, Notification, Mail, Webhook];
    assert forall i :: 0 <= i < |order| ==> Rank(order[i]) == i;
  }

  lemma DistinctAround(cs: seq<Category>, n: nat)
    requires n < |cs| && Distinct(cs)
    ensures Distinct(cs[..n]) && cs[n] !in cs[..n]
    ensures forall d :: d in cs[n + 1..] ==> d !in cs[..n]
  {
    forall i, j | 0 <= i < n < j < |cs|
      ensures cs[i] != cs[j]
    {
    }
  }

  function BranchesOf(reach: Category -> bool, supplied: set<Category>, cs: seq<Category>): seq<Delivery> {
    if cs == [] then [] else
      BranchesOf(reach, supplied, cs[..|cs| - 1]) + Branch(reach, supplied, cs[|cs| - 1])
  }

  // The inbox after serving them in order.
  function AfterServing(start: Inbox, id: EventId, reach: Category -> bool, supplied: set<Category>, cs: seq<Category>): Inbox {
    if cs == [] then start else
      DeliveredAll(AfterServing(start, id, reach, supplied, cs[..|cs| - 1]), Branch(reach, supplied, cs[|cs| - 1]), id)
  }

  lemma ServeOneMore(start: Inbox, mid: Inbox, now: Inbox, id: EventId, reach: Category -> bool, supplied: set<Category>,
                     order: seq<Category>, n: nat)
    requires n < |order| && mid == AfterServing(start, id, reach, supplied, order[..n])
    requires now == DeliveredAll(mid, Branch(reach, supplied, order[n]), id)
    ensures now == AfterServing(start, id, reach, supplied, order[..n + 1])
  {
    assert order[..n + 1][..n] == order[..n];
  }

  lemma {:induction false} AfterServingIsDelivered(start: Inbox, id: EventId, reach: Category -> bool, supplied: set<Category>,
                                                   cs: seq<Category>)
    ensures AfterServing(start, id, reach, supplied, cs) == DeliveredAll(start, BranchesOf(reach, supplied, cs), id)
  {
    if cs != [] {
      var before, last := cs[..|cs| - 1], cs[|cs| - 1];
      AfterServingIsDelivered(start, id, reach, supplied, before);
      DeliveredAllThen(start, BranchesOf(reach, supplied, before), Branch(reach, supplied, last), id);
    }
  }

  lemma {:induction false} AfterServingServes(start: Inbox, id: EventId, reach: Category -> bool, supplied: set<Category>,
                                              cs: seq<Category>)
    requires Distinct(cs)
    ensures Served(start, AfterServing(start, id, reach, supplied, cs), id, reach, supplied, cs)
  {
    if cs != [] {
      var before, last := cs[..|cs| - 1], cs[|cs| - 1];
      DistinctAround(cs, |cs| - 1);
      AfterServingServes(start, id, reach, supplied, before);
      ServeBranch(start, AfterServing(start, id, reach, supplied, before), AfterServing(start, id, reach, supplied, cs), id,
                  reach, supplied, before, last);
      assert before + [last] == cs;
    }
  }

  lemma {:induction false} BranchesSplit(reach: Category -> bool, supplied: set<Category>, cs: seq<Category>, more: seq<Category>)
    ensures BranchesOf(reach, supplied, cs + more) == BranchesOf(reach, supplied, cs) + BranchesOf(reach, supplied, more)
  {
    if more == [] {
      assert cs + more == cs;
    } else {
      var last := more[|more| - 1];
      assert (cs + more)[..|cs + more| - 1] == cs + more[..|more| - 1];
      BranchesSplit(reach, supplied, cs, more[..|more| - 1]);
    }
  }

  lemma AllBranches(reach: Category -> bool, supplied: set<Category>)
    ensures Branches(reach, supplied) == BranchesOf(reach, supplied, [Financial, Invoice, Notification, Mail, Webhook])
  {
    var order := [Financial, Invoice, Notification, Mail, Webhook];
    assert order[..4] == [Financial, Invoice, Notification, Mail];
    assert order[..4][..3] == [Financial, Invoice, Notification];
    assert [Financial, Invoice, Notification][..2] == [Financial, Invoice];
    assert [Financial, Invoice][..1] == [Financial];
    assert BranchesOf(reach, supplied, [Financial]) == Branch(reach, supplied, Financial);
    assert BranchesOf(reach, supplied, [Financial, Invoice])
        == Branch(reach, supplied, Financial) + Branch(reach, supplied, Invoice);
    assert BranchesOf(reach, supplied, [Financial, Invoice, Notification])
        == BranchesOf(reach, supplied, [Financial, Invoice]) + Branch(reach, supplied, Notification);
    assert BranchesOf(reach, supplied, order[..4])
        == BranchesOf(reach, supplied, [Financial, Invoice, Notification]) + Branch(reach, supplied, Mail);
  }

  // What is served and what is left of an order make up its branches.
  lemma WhatIsLeft(start: Inbox, id: EventId, reach: Category -> bool, supplied: set<Category>, order: seq<Category>, n: nat)
      returns (done: seq<Delivery>, todo: seq<Delivery>)
    requires n <= |order|
    ensures done + todo == BranchesOf(reach, supplied, order)
    ensures AfterServing(start, id, reach, supplied, order[..n]) == DeliveredAll(start, done, id)
    ensures todo == BranchesOf(reach, supplied, order[n..])
  {
    done, todo := BranchesOf(reach, supplied, order[..n]), BranchesOf(reach, supplied, order[n..]);
    assert order == order[..n] + order[n..];
    BranchesSplit(reach, supplied, order[..n], order[n..]);
    AfterServingIsDelivered(start, id, reach, supplied, order[..n]);
  }

  lemma FirstIsDue(reach: Category -> bool, supplied: set<Category>, cs: seq<Category>)
    requires cs != [] && reach(cs[0])
    ensures BranchesOf(reach, supplied, cs) != []
    ensures BranchesOf(reach, supplied, cs)[0] == Delivery(ConsumerName(cs[0], cs[0] in supplied), cs[0] in supplied)
  {
    assert cs == [cs[0]] + cs[1..];
    BranchesSplit(reach, supplied, [cs[0]], cs[1..]);
    assert [cs[0]][..0] == [];
    assert BranchesOf(reach, supplied, [cs[0]]) == [] + Branch(reach, supplied, cs[0]);
  }

  // The `n`th category is reached, has no inbox row, and its consumer fails.
  ghost predicate FailsAt(now: Inbox, id: EventId, reach: Category -> bool, supplied: set<Category>, faults: set<string>,
                          order: seq<Category>, n: nat) {
    && n < |order| && reach(order[n]) && ConsumerName(order[n], order[n] in supplied) in faults
    && KeyOf(order[n], supplied, id) !in now.rows
  }

  // A run that has served the first `n` categories of the order, and stopped at the next.
  lemma StopsAt(before: Inbox, after: Inbox, id: EventId, reach: Category -> bool, supplied: set<Category>, faults: set<string>,
                order: seq<Category>, n: nat)
    requires Distinct(order) && FailsAt(after, id, reach, supplied, faults, order, n)
    requires Served(before, after, id, reach, supplied, order[..n])
    ensures StoppedWithin(before, after, id, reach, supplied, faults, order)
  {
    DistinctAround(order, n);
    forall m, e | n < m < |order| && e in order[..n]
      ensures KeyOf(e, supplied, id) != KeyOf(order[m], supplied, id)
    {
      assert order[m] == order[n + 1..][m - n - 1];
      DifferentKeys(order[m], e, supplied, id);
    }
    assert StoppedAt(before, after, id, reach, supplied, faults, order, n);
  }

  // How far a run came: `served` of the order, all of it or up to where it fails.
  ghost predicate CameTo(start: Inbox, now: Inbox, id: EventId, reach: Category -> bool, supplied: set<Category>,
                         faults: set<string>, order: seq<Category>, served: seq<Category>, ok: bool) {
    && served <= order && (ok <==> served == order)
    && now == AfterServing(start, id, reach, supplied, served)
    && (!ok ==> FailsAt(now, id, reach, supplied, faults, order, |served|))
  }

  lemma CameToFailure(start: Inbox, now: Inbox, id: EventId, reach: Category -> bool, supplied: set<Category>,
                      faults: set<string>, order: seq<Category>, n: nat)
    requires FailsAt(now, id, reach, supplied, faults, order, n) && now == AfterServing(start, id, reach, supplied, order[..n])
    ensures CameTo(start, now, id, reach, supplied, faults, order, order[..n], false)
  {
    assert |order[..n]| != |order|;
  }

  // How it ends.
  lemma RunEnds(start: Inbox, now: Inbox, id: EventId, reach: Category -> bool, supplied: set<Category>, faults: set<string>,
                order: seq<Category>, served: seq<Category>, ok: bool)
      returns (done: seq<Delivery>, todo: seq<Delivery>)
    requires Distinct(order) && CameTo(start, now, id, reach, supplied, faults, order, served, ok)
    ensures done + todo == BranchesOf(reach, supplied, order) && now == DeliveredAll(start, done, id)
    ensures ok ==> todo == [] && Served(start, now, id, reach, supplied, order)
    ensures !ok ==> todo != [] && todo[0].consumerName in faults && StoppedWithin(start, now, id, reach, supplied, faults, order)
  {
    var n := |served|;
    assert order[..n] == served;
    done, todo := WhatIsLeft(start, id, reach, supplied, order, n);
    if ok {
      assert order[n..] == [];
      AfterServingServes(start, id, reach, supplied, order);
    } else {
      FirstIsDue(reach, supplied, order[n..]);
      DistinctAround(order, n);
      AfterServingServes(start, id, reach, supplied, served);
      StopsAt(start, now, id, reach, supplied, faults, order, n);
    }
  }

  class InboxStore {
    var inbox: Inbox

    constructor (inbox: Inbox)
      ensures this.inbox == inbox
    {
      this.inbox := inbox;
    }

    method TryClaim(consumerName: string, eventId: EventId) returns (claimed: bool)
      ensures claimed <==> Key(consumerName, eventId) !in inbox.rows
    {
      claimed := Key(consumerName, eventId) !in inbox.rows;
    }

    // One delivery in its transaction. A supplied consumer makes its side effect and the inbox
    // row commit together; a fault rolls both back.
    method RunInTransaction(d: Delivery, eventId: EventId, fault: bool) returns (ok: bool)
      modifies this
      ensures ok <==> !fault || Key(d.consumerName, eventId) in old(inbox.rows)
      ensures inbox == if ok then Delivered(old(inbox), Key(d.consumerName, eventId), d.supplied) else old(inbox)
    {
      var before := inbox;
      var claimed := TryClaim(d.consumerName, eventId);
      if !claimed {
        return true;
      }
      var key := Key(d.consumerName, eventId);
      if d.supplied {
        inbox := inbox.(effects := inbox.effects + multiset{key});
      }
      if fault {
        inbox := before;
        return false;
      }
      inbox := inbox.(rows := inbox.rows + {key});
      ok := true;
    }

    // One branch of the processor.
    method RunBranch(eventId: EventId, reach: Category -> bool, supplied: set<Category>, c: Category, faults: set<string>)
        returns (ok: bool)
      modifies this
      ensures ok ==> inbox == DeliveredAll(old(inbox), Branch(reach, supplied, c), eventId)
      ensures !ok ==>
                && inbox == old(inbox) && reach(c) && ConsumerName(c, c in supplied) in faults
                && KeyOf(c, supplied, eventId) !in inbox.rows
    {
      ok := true;
      var ds := Branch(reach, supplied, c);
      if |ds| == 1 {
        ok := RunInTransaction(ds[0], eventId, ds[0].consumerName in faults);
        assert DeliveredAll(old(inbox), ds[..0], eventId) == old(inbox);
      }
    }

    // The five branches, one after the other, stopping at the first consumer that throws.
    method RunBranches(eventId: EventId, reach: Category -> bool, supplied: set<Category>, faults: set<string>)
        returns (ok: bool, ghost served: seq<Category>)
      modifies this
      ensures CameTo(old(inbox), inbox, eventId, reach, supplied, faults, [Financial, Invoice, Notification, Mail, Webhook],
                     served, ok)
    {
      ghost var start, mid, order := inbox, inbox, [Financial, Invoice, Notification, Mail, Webhook];
      assert order[..0] == [];

      ok := RunBranch(eventId, reach, supplied, Financial, faults);
      if !ok {
        CameToFailure(start, inbox, eventId, reach, supplied, faults, order, 0);
        return false, order[..0];
      }
      ServeOneMore(start, mid, inbox, eventId, reach, supplied, order, 0);
      mid := inbox;

      ok := RunBranch(eventId, reach, supplied, Invoice, faults);
      if !ok {
        CameToFailure(start, inbox, eventId, reach, supplied, faults, order, 1);
        return false, order[..1];
      }
      ServeOneMore(start, mid, inbox, eventId, reach, supplied, order, 1);
      mid := inbox;

      ok := RunBranch(eventId, reach, supplied, Notification, faults);
      if !ok {
        CameToFailure(start, inbox, eventId, reach, supplied, faults, order, 2);
        return false, order[..2];
      }
      ServeOneMore(start, mid, inbox, eventId, reach, supplied, order, 2);
      mid := inbox;

      ok := RunBranch(eventId, reach, supplied, Mail, faults);
      if !ok {
        CameToFailure(start, inbox, eventId, reach, supplied, faults, order, 3);
        return false, order[..3];
      }
      ServeOneMore(start, mid, inbox, eventId, reach, supplied, order, 3);
      mid := inbox;

      ok := RunBranch(eventId, reach, supplied, Webhook, faults);
      if !ok {
        CameToFailure(start, inbox, eventId, reach, supplied, faults, order, 4);
        return false, order[..4];
      }
      ServeOneMore(start, mid, inbox, eventId, reach, supplied, order, 4);
      assert order[..5] == order;
      served := order;
    }

    // One job run: branch after branch, stopping at the first consumer that throws. `faults`
    // says which consumers would throw or fail to commit.
    method Process(eventId: EventId, eventType: string, flags: Flags, supplied: set<Category>, faults: set<string>)
        returns (ok: bool, ghost todo: seq<Delivery>)
      modifies this
      ensures ok ==> todo == []
      ensures !ok ==> todo != [] && todo[0].consumerName in faults
      ensures exists done :: done + todo == Deliveries(eventType, flags, supplied)
                          && inbox == DeliveredAll(old(inbox), done, eventId)
      ensures ok ==> Served(old(inbox), inbox, eventId, ReachOf(eventType, flags, supplied), supplied,
                            [Financial, Invoice, Notification, Mail, Webhook])
      ensures !ok ==> StoppedWithin(old(inbox), inbox, eventId, ReachOf(eventType, flags, supplied), supplied, faults,
                                    [Financial, Invoice, Notification, Mail, Webhook])
    {
      ghost var start, served: seq<Category>, done: seq<Delivery> := inbox, [], [];
      ok, served := RunBranches(eventId, ReachOf(eventType, flags, supplied), supplied, faults);
      OrderIsDistinct();
      AllBranches(ReachOf(eventType, flags, supplied), supplied);
      done, todo := RunEnds(start, inbox, eventId, ReachOf(eventType, flags, supplied), supplied, faults,
                            [Financial, Invoice, Notification, Mail, Webhook], served, ok);
    }
  }

  // ----- Any number of job runs, interleaved -----

  type JobId = nat

  // `claimed` is what the open transaction read: whether the inbox row was absent.
  datatype Job = Job(eventId: EventId, all: seq<Delivery>, done: nat, claimed: Option<bool>)

  // `live` is the set of names whose deliveries run a supplied consumer in this deployment.
  datatype State = State(live: set<string>, queued: set<EventId>, inbox: Inbox, jobs: map<JobId, Job>)

  datatype Action =
    | Start(job: JobId, eventId: EventId, deliveries: seq<Delivery>)
    | Begin(job: JobId)
    | Commit(job: JobId)
    | Abort(job: JobId)

  function Current(job: Job): Key
    requires job.done < |job.all|
  {
    Key(job.all[job.done].consumerName, job.eventId)
  }

  // A commit of a claimed delivery fails on the unique key if another has got in first.
  predicate Enabled(s: State, a: Action) {
    match a
    case Start(job, eventId, ds) =>
      job !in s.jobs && eventId in s.queued && forall i :: 0 <= i < |ds| ==> (ds[i].supplied <==> ds[i].consumerName in s.live)
    case Begin(job) => job in s.jobs && s.jobs[job].done < |s.jobs[job].all| && s.jobs[job].claimed.None?
    case Commit(job) =>
      && job in s.jobs && s.jobs[job].done < |s.jobs[job].all| && s.jobs[job].claimed.Some?
      && (s.jobs[job].claimed.value ==> Current(s.jobs[job]) !in s.inbox.rows)
    case Abort(job) => job in s.jobs
  }

  function Next(s: State, a: Action): State
    requires Enabled(s, a)
  {
    match a
    case Start(job, eventId, ds) => s.(jobs := s.jobs[job := Job(eventId, ds, 0, None)])
    case Begin(job) =>
      var j := s.jobs[job];
      s.(jobs := s.jobs[job := j.(claimed := Some(Current(j) !in s.inbox.rows))])
    case Commit(job) =>
      var j := s.jobs[job];
      var key := Current(j);
      var inbox :=
        if !j.claimed.value then s.inbox
        else Inbox(s.inbox.rows + {key},
                   if j.all[j.done].supplied then s.inbox.effects + multiset{key} else s.inbox.effects);
      s.(inbox := inbox, jobs := s.jobs[job := j.(done := j.done + 1, claimed := None)])
    case Abort(job) => s.(jobs := s.jobs - {job})
  }

  ghost predicate IsRun(states: seq<State>, actions: seq<Action>) {
    && |states| == |actions| + 1
    && states[0].inbox == Inbox({}, multiset{}) && states[0].jobs == map[]
    && forall i :: 0 <= i < |actions| ==>
         Enabled(states[i], actions[i]) && states[i + 1] == Next(states[i], actions[i])
  }

  // Every inbox row of a live consumer stands for exactly one side effect, and there are no
  // other side effects.
  ghost predicate OncePerRow(s: State) {
    forall key :: s.inbox.effects[key] == if key in s.inbox.rows && key.consumerName in s.live then 1 else 0
  }

  ghost predicate JobOk(j: Job, s: State) {
    && j.done <= |j.all| && j.eventId in s.queued
    && (forall i :: 0 <= i < |j.all| ==> (j.all[i].supplied <==> j.all[i].consumerName in s.live))
    && (forall i :: 0 <= i < j.done ==> Key(j.all[i].consumerName, j.eventId) in s.inbox.rows)
    && (j.claimed.Some? ==> j.done < |j.all| && (!j.claimed.value ==> Current(j) in s.inbox.rows))
  }

  ghost predicate Inv(s: State) {
    && OncePerRow(s)
    && (forall key :: key in s.inbox.rows ==> key.eventId in s.queued)
    && (forall job :: job in s.jobs ==> JobOk(s.jobs[job], s))
  }

  lemma InvStep(s: State, a: Action)
    requires Inv(s) && Enabled(s, a)
    ensures Inv(Next(s, a)) && Next(s, a).live == s.live && Next(s, a).queued == s.queued
    ensures s.inbox.rows <= Next(s, a).inbox.rows && s.inbox.effects <= Next(s, a).inbox.effects
  {
    var s' := Next(s, a);
    forall job | job in s'.jobs
      ensures JobOk(s'.jobs[job], s')
    {
      if job in s.jobs {
        assert JobOk(s.jobs[job], s);
      }
    }
  }

  lemma {:induction false} InvAlways(states: seq<State>, actions: seq<Action>, i: nat)
    requires IsRun(states, actions) && i < |states|
    ensures Inv(states[i])
  {
    if i > 0 {
      InvAlways(states, actions, i - 1);
      InvStep(states[i - 1], actions[i - 1]);
    }
  }

  // However deliveries are duplicated, retried, interleaved and aborted: no side effect
  // commits twice, and only queued events have any.
  lemma AtMostOnce(states: seq<State>, actions: seq<Action>, i: nat, key: Key)
    requires IsRun(states, actions) && i < |states|
    ensures states[i].inbox.effects[key] <= 1
    ensures states[i].inbox.effects[key] == 1 ==> key.eventId in states[i].queued
  {
    InvAlways(states, actions, i);
  }

  // A job run that came to its normal end left every one of its deliveries recorded, the
  // live ones with their side effect committed exactly once.
  lemma ExactlyOnceWhenDone(states: seq<State>, actions: seq<Action>, i: nat, job: JobId, d: Delivery)
    requires IsRun(states, actions) && i < |states|
    requires job in states[i].jobs && states[i].jobs[job].done == |states[i].jobs[job].all|
    requires d in states[i].jobs[job].all
    ensures var key := Key(d.consumerName, states[i].jobs[job].eventId);
            key in states[i].inbox.rows && states[i].inbox.effects[key] == if d.supplied then 1 else 0
  {
    InvAlways(states, actions, i);
    var j := states[i].jobs[job];
    var k :| 0 <= k < |j.all| && j.all[k] == d;
    assert Key(j.all[k].consumerName, j.eventId) in states[i].inbox.rows;
  }

  // The deliveries of an event are one for each category that it reaches.
  lemma DeliveriesReach(eventType: string, flags: Flags, supplied: set<Category>, d: Delivery)
    ensures d in Deliveries(eventType, flags, supplied) <==>
            exists c :: Reaches(eventType, flags, supplied, c) && d == Delivery(ConsumerName(c, c in supplied), c in supplied)
  {
    assert d in Deliveries(eventType, flags, supplied) <==> exists c :: d in Branch(ReachOf(eventType, flags, supplied), supplied, c);
    assert forall c :: d in Branch(ReachOf(eventType, flags, supplied), supplied, c) <==>
             Reaches(eventType, flags, supplied, c) && d == Delivery(ConsumerName(c, c in supplied), c in supplied);
  }

  // So a processor run that ended normally has, for every category that the event reaches,
  // its inbox row recorded, and its side effect exactly once if a consumer is supplied.
  lemma EveryReachedCategoryIsServed(states: seq<State>, actions: seq<Action>, i: nat, job: JobId, eventType: string,
                                     flags: Flags, supplied: set<Category>, c: Category)
    requires IsRun(states, actions) && i < |states| && job in states[i].jobs
    requires states[i].jobs[job].all == Deliveries(eventType, flags, supplied)
    requires states[i].jobs[job].done == |states[i].jobs[job].all| && Reaches(eventType, flags, supplied, c)
    ensures var key := Key(ConsumerName(c, c in supplied), states[i].jobs[job].eventId);
            key in states[i].inbox.rows && states[i].inbox.effects[key] == if c in supplied then 1 else 0
  {
    var d := Delivery(ConsumerName(c, c in supplied), c in supplied);
    DeliveriesReach(eventType, flags, supplied, d);
    ExactlyOnceWhenDone(states, actions, i, job, d);
  }

  // Committing a delivery whose row a rival run has inserted since is impossible, and an
  // uncontended begin and commit do what one transaction of the store does.
  lemma CommitIsOneTransaction(s: State, job: JobId)
    requires Enabled(s, Begin(job))
    ensures var s1 := Next(s, Begin(job));
            && Enabled(s1, Commit(job))
            && Next(s1, Commit(job)).inbox
               == Delivered(s.inbox, Current(s.jobs[job]), s.jobs[job].all[s.jobs[job].done].supplied)
  {
  }
}
