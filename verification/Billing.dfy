/** services/billing/billing_service.py and `Subscription` of apps/billing/models.py.

    Each Stripe event updates at most one locked row, and what a row says after a run is a fold over the events that
    hit it. */
module Billing {
  import opened Prelude

  type RowId = nat
  /** Seconds. */
  type Time = int

  const GRACE_PERIOD: int := 7 * 24 * 60 * 60

  datatype Status = Trialing | Active | PastDue | Unpaid | Canceled | Paused | OtherStatus(text: string)

  /** The columns the handlers read or write. */
  datatype Subscription = Subscription(
    customerId: string,
    subscriptionId: Option<string>,
    priceId: string,
    status: Status,
    periodStart: Option<Time>,
    periodEnd: Option<Time>,
    gracePeriodEnd: Option<Time>,
    cancelAtPeriodEnd: bool,
    trialEnd: Option<Time>)

  type Table = map<RowId, Subscription>

  /** The unique columns; several rows may have no subscription id yet. */
  ghost predicate UniqueIds(table: Table) {
    forall a, b :: a in table && b in table && a != b ==>
      && table[a].customerId != table[b].customerId
      && (table[a].subscriptionId.Some? ==> table[a].subscriptionId != table[b].subscriptionId)
  }

  datatype Kind =
    | Created | Updated | Deleted | PaymentSucceeded | PaymentFailed | TrialWillEnd | Unhandled(name: string)

  /** The dispatch table of `process_event`. */
  function Classify(name: string): Kind {
    if name == "customer.subscription.created" then Created
    else if name == "customer.subscription.updated" then Updated
    else if name == "customer.subscription.deleted" then Deleted
    else if name == "invoice.payment_succeeded" then PaymentSucceeded
    else if name == "invoice.payment_failed" then PaymentFailed
    else if name == "customer.subscription.trial_will_end" then TrialWillEnd
    else Unhandled(name)
  }

  /** `event_data["object"]`; `None` stands for an absent key. */
  datatype Payload = Payload(
    id: Option<string>,
    customer: Option<string>,
    subscription: Option<string>,
    status: Option<Status>,
    priceId: Option<string>,
    cancelAtPeriodEnd: Option<bool>,
    periodStart: Option<Time>,
    periodEnd: Option<Time>,
    trialEnd: Option<Time>)

  datatype Event = Event(kind: Kind, obj: Payload)

  function OrElse<T>(o: Option<T>, default: T): T {
    if o.Some? then o.value else default
  }

  /** Python truth: an absent timestamp and 0 both mean "leave the field alone". */
  function Truthy(timestamp: Option<Time>): Option<Time> {
    if timestamp == Some(0) then None else timestamp
  }

  // ---- One row ----

  /** `_apply_period` */
  function WithPeriod(row: Subscription, obj: Payload): Subscription {
    row.(periodStart := if Truthy(obj.periodStart).Some? then obj.periodStart else row.periodStart,
         periodEnd := if Truthy(obj.periodEnd).Some? then obj.periodEnd else row.periodEnd,
         trialEnd := if Truthy(obj.trialEnd).Some? then obj.trialEnd else row.trialEnd)
  }

  /** What the handler of an event does, at time `now`, to the row it has locked. */
  function RowStep(row: Subscription, event: Event, now: Time): Subscription {
    var obj := event.obj;
    match event.kind
    case Created =>
      WithPeriod(row.(subscriptionId := Some(OrElse(obj.id, "")),
                      status := OrElse(obj.status, Active),
                      priceId := OrElse(obj.priceId, "")), obj)
    case Updated =>
      WithPeriod(row.(status := OrElse(obj.status, Active),
                      cancelAtPeriodEnd := OrElse(obj.cancelAtPeriodEnd, false)), obj)
    case Deleted => row.(status := Canceled, gracePeriodEnd := None)
    case PaymentSucceeded => row.(status := Active, gracePeriodEnd := None)
    case PaymentFailed => row.(status := PastDue, gracePeriodEnd := Some(now + GRACE_PERIOD))
    case TrialWillEnd => row
    case Unhandled(_) => row
  }

  /** `Subscription.is_access_allowed` at time `now`. A grace period is a datetime, so it is true whenever it is set. */
  predicate AccessAllowed(row: Subscription, now: Time) {
    || row.status == Active || row.status == Trialing
    || (row.status == PastDue && row.gracePeriodEnd.Some? && now < row.gracePeriodEnd.value)
  }

  // ---- The table ----

  /** How an event names its row. An invoice without a subscription names none. */
  datatype Key = ByCustomer(id: string) | BySubscription(id: string) | NoRow

  function KeyOf(event: Event): Key {
    var obj := event.obj;
    match event.kind
    case Created => ByCustomer(OrElse(obj.customer, ""))
    case Updated => BySubscription(OrElse(obj.id, ""))
    case Deleted => BySubscription(OrElse(obj.id, ""))
    case PaymentSucceeded =>
      if OrElse(obj.subscription, "") == "" then NoRow else BySubscription(obj.subscription.value)
    case PaymentFailed =>
      if OrElse(obj.subscription, "") == "" then NoRow else BySubscription(obj.subscription.value)
    case TrialWillEnd => NoRow
    case Unhandled(_) => NoRow
  }

  predicate Matches(row: Subscription, key: Key) {
    match key
    case ByCustomer(id) => row.customerId == id
    case BySubscription(id) => row.subscriptionId == Some(id)
    case NoRow => false
  }

  /** Saving a `created` event's id can clash with another row's; the database then raises and rolls back. */
  predicate Clashes(table: Table, r: RowId, event: Event) {
    event.kind.Created? && exists other ::
      other in table && other != r && table[other].subscriptionId == Some(OrElse(event.obj.id, ""))
  }

  predicate Hits(table: Table, event: Event, r: RowId) {
    r in table && Matches(table[r], KeyOf(event)) && !Clashes(table, r, event)
  }

  /** Whether the handler raises by itself. */
  predicate Raises(table: Table, event: Event) {
    exists r :: r in table && Matches(table[r], KeyOf(event)) && Clashes(table, r, event)
  }

  function Execute(table: Table, event: Event, now: Time): (after: Table)
    ensures after.Keys == table.Keys
  {
    map r | r in table :: if Hits(table, event, r) then RowStep(table[r], event, now) else table[r]
  }

  class BillingService {
    var rows: Table

    constructor (rows: Table)
      ensures this.rows == rows
    {
      this.rows := rows;
    }

    /** `select_for_update()...get()` and `.filter(...).first()` under unique columns. */
    method Find(key: Key) returns (found: Option<RowId>)
      ensures found.Some? ==> found.value in rows && Matches(rows[found.value], key)
      ensures found.None? ==> forall r :: r in rows ==> !Matches(rows[r], key)
    {
      if r :| r in rows && Matches(rows[r], key) {
        return Some(r);
      }
      return None;
    }

    /** Dispatch on the event type. The one locked row takes the handler's assignments, every other row stays as it
        is; a clash raises and leaves the whole table alone. */
    method ProcessEvent(event: Event, now: Time) returns (raised: bool)
      requires UniqueIds(rows)
      modifies this
      ensures rows == Execute(old(rows), event, now)
      ensures raised <==> Raises(old(rows), event)
      ensures UniqueIds(rows)
    {
      ExecuteKeepsUniqueIds(rows, event, now);
      ghost var before := rows;
      raised := false;
      match event.kind
      case Created => raised := OnSubscriptionCreated(event, now);
      case Updated => OnSubscriptionUpdated(event, now);
      case Deleted => OnSubscriptionCanceled(event, now);
      case PaymentSucceeded => OnPaymentSucceeded(event, now);
      case PaymentFailed => OnPaymentFailed(event, now);
      case TrialWillEnd => assert rows == Execute(before, event, now);
      case Unhandled(_) => assert rows == Execute(before, event, now);
    }

    method OnSubscriptionCreated(event: Event, ghost now: Time) returns (raised: bool)
      requires UniqueIds(rows) && event.kind.Created?
      modifies this
      ensures rows == Execute(old(rows), event, now)
      ensures raised <==> Raises(old(rows), event)
    {
      var obj := event.obj;
      var found := Find(KeyOf(event));
      if found.None? {
        assert rows == Execute(rows, event, now);
        return false;
      }
      var r := found.value;
      var sub := rows[r];
      sub := sub.(subscriptionId := Some(OrElse(obj.id, "")));
      sub := sub.(status := OrElse(obj.status, Active));
      sub := sub.(priceId := OrElse(obj.priceId, ""));
      sub := ApplyPeriod(sub, obj);
      if other :| other in rows && other != r && rows[other].subscriptionId == sub.subscriptionId {
        assert Clashes(rows, r, event);
        assert rows == Execute(rows, event, now);
        return true;
      }
      assert Hits(rows, event, r);
      rows := rows[r := sub];
      return false;
    }

    method OnSubscriptionUpdated(event: Event, ghost now: Time)
      requires UniqueIds(rows) && event.kind.Updated?
      modifies this
      ensures rows == Execute(old(rows), event, now)
    {
      var obj := event.obj;
      var found := Find(KeyOf(event));
      if found.None? { return; }
      var sub := rows[found.value];
      sub := sub.(status := OrElse(obj.status, Active));
      sub := sub.(cancelAtPeriodEnd := OrElse(obj.cancelAtPeriodEnd, false));
      sub := ApplyPeriod(sub, obj);
      assert Hits(rows, event, found.value);
      rows := rows[found.value := sub];
    }

    method OnSubscriptionCanceled(event: Event, ghost now: Time)
      requires UniqueIds(rows) && event.kind.Deleted?
      modifies this
      ensures rows == Execute(old(rows), event, now)
    {
      var found := Find(KeyOf(event));
      if found.None? { return; }
      assert Hits(rows, event, found.value);
      rows := rows[found.value := rows[found.value].(status := Canceled, gracePeriodEnd := None)];
    }

    method OnPaymentSucceeded(event: Event, ghost now: Time)
      requires UniqueIds(rows) && event.kind.PaymentSucceeded?
      modifies this
      ensures rows == Execute(old(rows), event, now)
    {
      if OrElse(event.obj.subscription, "") == "" { return; }
      var found := Find(BySubscription(event.obj.subscription.value));
      if found.None? { return; }
      assert Hits(rows, event, found.value);
      rows := rows[found.value := rows[found.value].(status := Active, gracePeriodEnd := None)];
    }

    method OnPaymentFailed(event: Event, now: Time)
      requires UniqueIds(rows) && event.kind.PaymentFailed?
      modifies this
      ensures rows == Execute(old(rows), event, now)
    {
      if OrElse(event.obj.subscription, "") == "" { return; }
      var found := Find(BySubscription(event.obj.subscription.value));
      if found.None? { return; }
      assert Hits(rows, event, found.value);
      rows := rows[found.value := rows[found.value].(status := PastDue, gracePeriodEnd := Some(now + GRACE_PERIOD))];
    }

    static method ApplyPeriod(row: Subscription, obj: Payload) returns (sub: Subscription)
      ensures sub == WithPeriod(row, obj)
    {
      sub := row;
      if Truthy(obj.periodStart).Some? { sub := sub.(periodStart := obj.periodStart); }
      if Truthy(obj.periodEnd).Some? { sub := sub.(periodEnd := obj.periodEnd); }
      if Truthy(obj.trialEnd).Some? { sub := sub.(trialEnd := obj.trialEnd); }
    }
  }

  // ---- Each event by its name ----

  lemma OnlyTheNamedRow(table: Table, event: Event, now: Time, r: RowId)
    requires UniqueIds(table) && r in table && Matches(table[r], KeyOf(event))
    ensures Raises(table, event) <==> Clashes(table, r, event)
    ensures Execute(table, event, now)
            == if Clashes(table, r, event) then table else table[r := RowStep(table[r], event, now)]
  {
    forall other | other in table && other != r
      ensures !Matches(table[other], KeyOf(event))
    {
    }
    if !Clashes(table, r, event) {
      ExecuteIsOneUpdate(table, event, now, r);
    }
  }

  /** Creation goes to the customer's row, which takes the subscription's id, price, status and period; if another row
      has that id already, it raises and changes nothing. */
  lemma CreatedEvent(table: Table, obj: Payload, now: Time, r: RowId)
    requires UniqueIds(table) && r in table
    requires table[r].customerId == if obj.customer.Some? then obj.customer.value else ""
    ensures var event, row := Event(Classify("customer.subscription.created"), obj), table[r];
      var id := Some(if obj.id.Some? then obj.id.value else "");
      if exists other :: other in table && other != r && table[other].subscriptionId == id
      then Raises(table, event) && Execute(table, event, now) == table
      else !Raises(table, event) && Execute(table, event, now) == table[r := Subscription(
             row.customerId,
             id,
             if obj.priceId.Some? then obj.priceId.value else "",
             if obj.status.Some? then obj.status.value else Active,
             if obj.periodStart.Some? && obj.periodStart != Some(0) then obj.periodStart else row.periodStart,
             if obj.periodEnd.Some? && obj.periodEnd != Some(0) then obj.periodEnd else row.periodEnd,
             row.gracePeriodEnd,
             row.cancelAtPeriodEnd,
             if obj.trialEnd.Some? && obj.trialEnd != Some(0) then obj.trialEnd else row.trialEnd)]
  {
    OnlyTheNamedRow(table, Event(Classify("customer.subscription.created"), obj), now, r);
  }

  /** An update goes to the subscription's row, and leaves its grace period alone. */
  lemma UpdatedEvent(table: Table, obj: Payload, now: Time, r: RowId)
    requires UniqueIds(table) && r in table
    requires table[r].subscriptionId == Some(if obj.id.Some? then obj.id.value else "")
    ensures var event, row := Event(Classify("customer.subscription.updated"), obj), table[r];
      !Raises(table, event) && Execute(table, event, now) == table[r := Subscription(
        row.customerId,
        row.subscriptionId,
        row.priceId,
        if obj.status.Some? then obj.status.value else Active,
        if obj.periodStart.Some? && obj.periodStart != Some(0) then obj.periodStart else row.periodStart,
        if obj.periodEnd.Some? && obj.periodEnd != Some(0) then obj.periodEnd else row.periodEnd,
        row.gracePeriodEnd,
        obj.cancelAtPeriodEnd == Some(true),
        if obj.trialEnd.Some? && obj.trialEnd != Some(0) then obj.trialEnd else row.trialEnd)]
  {
  }

  lemma DeletedEvent(table: Table, obj: Payload, now: Time, r: RowId)
    requires UniqueIds(table) && r in table
    requires table[r].subscriptionId == Some(if obj.id.Some? then obj.id.value else "")
    ensures var event := Event(Classify("customer.subscription.deleted"), obj);
      !Raises(table, event)
      && Execute(table, event, now) == table[r := table[r].(status := Canceled, gracePeriodEnd := None)]
  {
  }

  lemma PaymentSucceededEvent(table: Table, obj: Payload, now: Time, r: RowId)
    requires UniqueIds(table) && r in table
    requires obj.subscription.Some? && obj.subscription != Some("") && table[r].subscriptionId == obj.subscription
    ensures var event := Event(Classify("invoice.payment_succeeded"), obj);
      !Raises(table, event)
      && Execute(table, event, now) == table[r := table[r].(status := Active, gracePeriodEnd := None)]
  {
  }

  /** A failed payment leaves 604800 seconds of grace, which is 7 days. */
  lemma PaymentFailedEvent(table: Table, obj: Payload, now: Time, r: RowId)
    requires UniqueIds(table) && r in table
    requires obj.subscription.Some? && obj.subscription != Some("") && table[r].subscriptionId == obj.subscription
    ensures var event := Event(Classify("invoice.payment_failed"), obj);
      !Raises(table, event)
      && Execute(table, event, now)
         == table[r := table[r].(status := PastDue, gracePeriodEnd := Some(now + 604800))]
  {
  }

  /** All other events change nothing: those whose row does not exist, invoices without a subscription, the end of a
      trial, and names the dispatch does not know. */
  lemma EventForNobody(table: Table, name: string, obj: Payload, now: Time)
    requires name == "customer.subscription.created" ==>
      forall r :: r in table ==> table[r].customerId != if obj.customer.Some? then obj.customer.value else ""
    requires name == "customer.subscription.updated" || name == "customer.subscription.deleted" ==>
      forall r :: r in table ==> table[r].subscriptionId != Some(if obj.id.Some? then obj.id.value else "")
    requires name == "invoice.payment_succeeded" || name == "invoice.payment_failed" ==>
      obj.subscription.None? || obj.subscription == Some("")
      || forall r :: r in table ==> table[r].subscriptionId != obj.subscription
    ensures !Raises(table, Event(Classify(name), obj)) && Execute(table, Event(Classify(name), obj), now) == table
  {
  }

  /** An event hits at most one row. */
  lemma HitsOneRow(table: Table, event: Event, a: RowId, b: RowId)
    requires UniqueIds(table) && Hits(table, event, a) && Hits(table, event, b)
    ensures a == b
  {
  }

  lemma UpdateKeepsUniqueIds(table: Table, r: RowId, row: Subscription)
    requires UniqueIds(table) && r in table && row.customerId == table[r].customerId
    requires row.subscriptionId.Some? ==> forall other ::
      other in table && other != r ==> table[other].subscriptionId != row.subscriptionId
    ensures UniqueIds(table[r := row])
  {
  }

  lemma ExecuteIsOneUpdate(table: Table, event: Event, now: Time, r: RowId)
    requires UniqueIds(table) && Hits(table, event, r)
    ensures Execute(table, event, now) == table[r := RowStep(table[r], event, now)]
  {
  }

  /** Every handler keeps the unique columns unique. */
  lemma {:induction false} ExecuteKeepsUniqueIds(table: Table, event: Event, now: Time)
    requires UniqueIds(table)
    ensures UniqueIds(Execute(table, event, now))
  {
    if r :| r in table && Hits(table, event, r) {
      ExecuteIsOneUpdate(table, event, now, r);
      var row := RowStep(table[r], event, now);
      forall other | other in table && other != r && row.subscriptionId.Some?
        ensures table[other].subscriptionId != row.subscriptionId
      {
        assert !Clashes(table, r, event);
      }
      UpdateKeepsUniqueIds(table, r, row);
    } else {
      assert Execute(table, event, now) == table;
    }
  }

  // ---- Runs ----

  /** An event executed at a time. */
  datatype Execution = Execution(event: Event, now: Time)

  function Run(table: Table, xs: seq<Execution>): (after: Table)
    ensures after.Keys == table.Keys
  {
    if xs == [] then table
    else
      var x := xs[|xs| - 1];
      Execute(Run(table, xs[..|xs| - 1]), x.event, x.now)
  }

  lemma {:induction false} RunKeepsUniqueIds(table: Table, xs: seq<Execution>)
    requires UniqueIds(table)
    ensures UniqueIds(Run(table, xs))
  {
    if xs == [] {
    } else {
      var n := |xs| - 1;
      RunKeepsUniqueIds(table, xs[..n]);
      ExecuteKeepsUniqueIds(Run(table, xs[..n]), xs[n].event, xs[n].now);
    }
  }

  /** The executions that hit a row, in order. */
  function HitLog(table: Table, xs: seq<Execution>, r: RowId): seq<Execution> {
    if xs == [] then []
    else
      var n := |xs| - 1;
      HitLog(table, xs[..n], r) + if Hits(Run(table, xs[..n]), xs[n].event, r) then [xs[n]] else []
  }

  function FoldRow(row: Subscription, hits: seq<Execution>): Subscription {
    if hits == [] then row
    else RowStep(FoldRow(row, hits[..|hits| - 1]), hits[|hits| - 1].event, hits[|hits| - 1].now)
  }

  /** A row after a run is a fold over the executions that hit it. */
  lemma {:induction false} RowIsFoldOfItsHits(table: Table, xs: seq<Execution>, r: RowId)
    requires r in table
    ensures Run(table, xs)[r] == FoldRow(table[r], HitLog(table, xs, r))
  {
    if xs == [] {
    } else {
      var n := |xs| - 1;
      RowIsFoldOfItsHits(table, xs[..n], r);
      var hits := HitLog(table, xs[..n], r);
      assert (hits + [xs[n]])[..|hits|] == hits;
      assert hits + [] == hits;
    }
  }
}
