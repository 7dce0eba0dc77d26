// Durable event categories, their kill switches, and which events reach which category.
module OutboxEnvelope {
  import opened Prelude

  datatype Category = Financial | Invoice | Notification | Mail | Webhook

  const FINANCIAL_EVENT_TYPES := {"PaymentRecordedEvent", "RefundRecordedEvent"}
  const INVOICE_EVENT_TYPES := {"InvoiceGenerationRequested"}
  const NOTIFICATION_EVENT_TYPES :=
    {"BookingCreatedEvent", "BookingCompletedEvent", "TaskAssignedEvent", "TaskCompletedEvent"}
  const MAIL_EVENT_TYPES :=
    {"BookingConfirmedEvent", "BookingCancelledEvent", "BookingRescheduledEvent", "PaymentRecordedEvent",
     "TaskAssignedEvent"}
  const WEBHOOK_EVENT_TYPES :=
    {"BookingCreatedEvent", "BookingConfirmedEvent", "BookingUpdatedEvent", "BookingCompletedEvent",
     "TaskCompletedEvent", "PackagePriceChangedEvent", "ClientCreatedEvent", "ClientUpdatedEvent",
     "ClientDeletedEvent"}

  function EventTypes(c: Category): set<string> {
    match c
    case Financial => FINANCIAL_EVENT_TYPES
    case Invoice => INVOICE_EVENT_TYPES
    case Notification => NOTIFICATION_EVENT_TYPES
    case Mail => MAIL_EVENT_TYPES
    case Webhook => WEBHOOK_EVENT_TYPES
  }

  predicate Belongs(eventType: string, c: Category) {
    eventType in EventTypes(c)
  }

  // The fixed order in which categories are tested.
  function Rank(c: Category): nat {
    match c
    case Financial => 0
    case Invoice => 1
    case Notification => 2
    case Mail => 3
    case Webhook => 4
  }

  // `cs` lists exactly the categories of an event type, each once, in rank order.
  ghost predicate ListsCategories(cs: seq<Category>, eventType: string) {
    && (forall c :: c in cs <==> Belongs(eventType, c))
    && InRankOrder(cs)
  }

  // Those of the given categories that an event type belongs to.
  function Having(cs: seq<Category>, eventType: string): seq<Category> {
    if cs == [] then [] else
      var n := |cs| - 1;
      Having(cs[..n], eventType) + if Belongs(eventType, cs[n]) then [cs[n]] else []
  }

  ghost predicate InRankOrder(cs: seq<Category>) {
    forall i, j :: 0 <= i < j < |cs| ==> Rank(cs[i]) < Rank(cs[j])
  }

  lemma {:induction false} HavingKeepsOrder(cs: seq<Category>, eventType: string)
    requires InRankOrder(cs)
    ensures InRankOrder(Having(cs, eventType))
    ensures forall c :: c in Having(cs, eventType) <==> c in cs && Belongs(eventType, c)
  {
    if cs != [] {
      var n := |cs| - 1;
      assert cs == cs[..n] + [cs[n]];
      assert forall c :: c in cs[..n] ==> Rank(c) < Rank(cs[n]);
      HavingKeepsOrder(cs[..n], eventType);
    }
  }

  lemma HavingListsAll(eventType: string)
    ensures ListsCategories(Having([Financial, Invoice, Notification, Mail, Webhook], eventType), eventType)
  {
    var all := [Financial, Invoice, Notification, Mail, Webhook];
    assert forall i :: 0 <= i < |all| ==> Rank(all[i]) == i;
    assert forall c :: all[Rank(c)] == c;
    HavingKeepsOrder(all, eventType);
  }

  lemma LastIsHighest(cs: seq<Category>)
    requires InRankOrder(cs) && cs != []
    ensures cs[|cs| - 1] in cs && InRankOrder(cs[..|cs| - 1])
    ensures forall c :: c in cs ==> Rank(c) <= Rank(cs[|cs| - 1])
    ensures forall c :: c in cs[..|cs| - 1] <==> c in cs && c != cs[|cs| - 1]
  {
  }

  lemma {:induction false} SameInRankOrder(cs: seq<Category>, ds: seq<Category>)
    requires InRankOrder(cs) && InRankOrder(ds) && forall c :: c in cs <==> c in ds
    ensures cs == ds
  {
    if cs == [] || ds == [] {
      SomeCategory(cs + ds);
    } else {
      var c, cs', d, ds' := cs[|cs| - 1], cs[..|cs| - 1], ds[|ds| - 1], ds[..|ds| - 1];
      LastIsHighest(cs);
      LastIsHighest(ds);
      RanksDiffer(c, d);
      assert c in ds && d in cs && c == d;
      forall e
        ensures e in cs' <==> e in ds'
      {
        assert e in cs' <==> e in cs && e != c;
        assert e in ds' <==> e in ds && e != d;
      }
      SameInRankOrder(cs', ds');
      assert cs == cs' + [c] && ds == ds' + [d];
    }
  }

  lemma SomeCategory(cs: seq<Category>)
    ensures cs != [] ==> exists c :: c in cs
  {
    if cs != [] {
      assert cs[0] in cs;
    }
  }

  lemma RanksDiffer(c: Category, d: Category)
    ensures Rank(c) == Rank(d) ==> c == d
  {
  }

  // A listing is what is left of financial, invoice, notification, mail, webhook, in this order.
  lemma ListedInOrder(cs: seq<Category>, eventType: string)
    ensures ListsCategories(cs, eventType) <==> cs == Having([Financial, Invoice, Notification, Mail, Webhook], eventType)
  {
    HavingListsAll(eventType);
    if ListsCategories(cs, eventType) {
      SameInRankOrder(cs, Having([Financial, Invoice, Notification, Mail, Webhook], eventType));
    }
  }

  method DurableCategoriesForEventType(eventType: string) returns (categories: seq<Category>)
    ensures ListsCategories(categories, eventType)
  {
    categories := [];
    if Belongs(eventType, Financial) { categories := categories + [Financial]; }
    if Belongs(eventType, Invoice) { categories := categories + [Invoice]; }
    if Belongs(eventType, Notification) { categories := categories + [Notification]; }
    if Belongs(eventType, Mail) { categories := categories + [Mail]; }
    if Belongs(eventType, Webhook) { categories := categories + [Webhook]; }
  }

  function KillSwitchFlag(c: Category): string {
    match c
    case Financial => "durable-financial-outbox-events"
    case Notification => "durable-notification-outbox-events"
    case Mail => "durable-mail-outbox-events"
    case Webhook => "durable-webhook-outbox-events"
    case Invoice => "durable-invoice-outbox-events"
  }

  // The flag service is optional; a flag it does not know defaults to on.
  type Flags = Option<map<string, bool>>

  predicate IsFlagEnabled(flags: Flags, flag: string) {
    flags.None? || (flag in flags.value ==> flags.value[flag])
  }

  predicate IsCategoryEnabled(flags: Flags, c: Category) {
    IsFlagEnabled(flags, KillSwitchFlag(c))
  }

  // The flag service has the flag, and it is off.
  predicate IsOff(flags: Flags, flag: string) {
    flags.Some? && flag in flags.value && !flags.value[flag]
  }

  // Each category listens to the flag of its own name, and to no other.
  lemma EachCategoryHasItsFlag(flags: Flags)
    ensures !IsCategoryEnabled(flags, Financial) <==> IsOff(flags, "durable-financial-outbox-events")
    ensures !IsCategoryEnabled(flags, Invoice) <==> IsOff(flags, "durable-invoice-outbox-events")
    ensures !IsCategoryEnabled(flags, Notification) <==> IsOff(flags, "durable-notification-outbox-events")
    ensures !IsCategoryEnabled(flags, Mail) <==> IsOff(flags, "durable-mail-outbox-events")
    ensures !IsCategoryEnabled(flags, Webhook) <==> IsOff(flags, "durable-webhook-outbox-events")
  {
  }

  // The event types of each category, written out.
  lemma EachCategoryHasItsTypes(eventType: string)
    ensures Belongs(eventType, Financial) <==> eventType == "PaymentRecordedEvent" || eventType == "RefundRecordedEvent"
    ensures Belongs(eventType, Invoice) <==> eventType == "InvoiceGenerationRequested"
    ensures Belongs(eventType, Notification) <==>
              || eventType == "BookingCreatedEvent" || eventType == "BookingCompletedEvent"
              || eventType == "TaskAssignedEvent" || eventType == "TaskCompletedEvent"
    ensures Belongs(eventType, Mail) <==>
              || eventType == "BookingConfirmedEvent" || eventType == "BookingCancelledEvent"
              || eventType == "BookingRescheduledEvent" || eventType == "PaymentRecordedEvent"
              || eventType == "TaskAssignedEvent"
    ensures Belongs(eventType, Webhook) <==>
              || eventType == "BookingCreatedEvent" || eventType == "BookingConfirmedEvent"
              || eventType == "BookingUpdatedEvent" || eventType == "BookingCompletedEvent"
              || eventType == "TaskCompletedEvent" || eventType == "PackagePriceChangedEvent"
              || eventType == "ClientCreatedEvent" || eventType == "ClientUpdatedEvent" || eventType == "ClientDeletedEvent"
  {
  }

  // What the relay asks before it queues an event.
  ghost predicate RelayEnabled(flags: Flags, eventType: string) {
    || (forall c :: !Belongs(eventType, c))
    || (exists c :: Belongs(eventType, c) && IsCategoryEnabled(flags, c))
  }

  method IsDurableRelayEnabled(flags: Flags, eventType: string) returns (enabled: bool)
    ensures enabled <==> RelayEnabled(flags, eventType)
  {
    var categories := DurableCategoriesForEventType(eventType);
    if |categories| == 0 {
      assert forall c :: c !in categories;
      return true;
    }
    assert Belongs(eventType, categories[0]);
    for i := 0 to |categories|
      invariant forall j :: 0 <= j < i ==> !IsCategoryEnabled(flags, categories[j])
    {
      if IsCategoryEnabled(flags, categories[i]) {
        assert Belongs(eventType, categories[i]);
        return true;
      }
    }
    enabled := false;
  }

  // The event type has the category and no other.
  ghost predicate BelongsOnly(eventType: string, c: Category) {
    Belongs(eventType, c) && forall d :: Belongs(eventType, d) ==> d == c
  }

  // An event with one category is relayed exactly while that category's own flag is not off.
  lemma OneFlagDecides(flags: Flags, eventType: string, c: Category)
    requires BelongsOnly(eventType, c)
    ensures c == Financial ==> (RelayEnabled(flags, eventType) <==> !IsOff(flags, "durable-financial-outbox-events"))
    ensures c == Invoice ==> (RelayEnabled(flags, eventType) <==> !IsOff(flags, "durable-invoice-outbox-events"))
    ensures c == Notification ==> (RelayEnabled(flags, eventType) <==> !IsOff(flags, "durable-notification-outbox-events"))
    ensures c == Mail ==> (RelayEnabled(flags, eventType) <==> !IsOff(flags, "durable-mail-outbox-events"))
    ensures c == Webhook ==> (RelayEnabled(flags, eventType) <==> !IsOff(flags, "durable-webhook-outbox-events"))
  {
    EachCategoryHasItsFlag(flags);
    assert RelayEnabled(flags, eventType) <==> IsCategoryEnabled(flags, c);
  }

  // Whatever its categories: an event is held back exactly if it has some and the flag of
  // each is off.
  lemma HeldBackExactly(flags: Flags, eventType: string)
    ensures !RelayEnabled(flags, eventType) <==>
            && (exists c :: Belongs(eventType, c))
            && (Belongs(eventType, Financial) ==> IsOff(flags, "durable-financial-outbox-events"))
            && (Belongs(eventType, Invoice) ==> IsOff(flags, "durable-invoice-outbox-events"))
            && (Belongs(eventType, Notification) ==> IsOff(flags, "durable-notification-outbox-events"))
            && (Belongs(eventType, Mail) ==> IsOff(flags, "durable-mail-outbox-events"))
            && (Belongs(eventType, Webhook) ==> IsOff(flags, "durable-webhook-outbox-events"))
  {
    EachCategoryHasItsFlag(flags);
    if !RelayEnabled(flags, eventType) {
      assert forall c :: Belongs(eventType, c) ==> !IsCategoryEnabled(flags, c);
    }
    if c :| Belongs(eventType, c) && IsCategoryEnabled(flags, c) {
      assert RelayEnabled(flags, eventType);
    }
  }

  // Turning one category's switch off leaves every other category as it was.
  lemma KillSwitchesAreIndependent(flags: map<string, bool>, off: Category, c: Category)
    ensures IsCategoryEnabled(Some(flags[KillSwitchFlag(off) := false]), c)
       <==> c != off && IsCategoryEnabled(Some(flags), c)
  {
    FlagsDiffer(off, c);
  }

  lemma FlagsDiffer(c: Category, d: Category)
    ensures KillSwitchFlag(c) == KillSwitchFlag(d) ==> c == d
  {
    assert forall k: Category :: |KillSwitchFlag(k)| > 8;
    assert KillSwitchFlag(c)[8] == Initial(c) && KillSwitchFlag(d)[8] == Initial(d);
  }

  // The letter in which the flags differ.
  function Initial(c: Category): char {
    match c
    case Financial => 'f'
    case Invoice => 'i'
    case Notification => 'n'
    case Mail => 'm'
    case Webhook => 'w'
  }
}
