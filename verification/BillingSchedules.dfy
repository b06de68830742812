/** Which repetitions and reorderings of executions leave the Subscription table as it is: retries are absorbed, and
    workers may interleave the events of different subscriptions or customers in any way. */
module BillingSchedules {
  import opened Prelude
  import opened Billing

  // ---- Retries ----

  /** Executing an event again, later, gives what the later execution alone would give. */
  lemma RowStepAbsorbs(row: Subscription, event: Event, t1: Time, t2: Time)
    ensures RowStep(RowStep(row, event, t1), event, t2) == RowStep(row, event, t2)
  {
  }

  lemma {:induction false} ExecuteAbsorbs(table: Table, event: Event, t1: Time, t2: Time)
    requires UniqueIds(table)
    ensures Execute(Execute(table, event, t1), event, t2) == Execute(table, event, t2)
  {
    var once := Execute(table, event, t1);
    ExecuteKeepsUniqueIds(table, event, t1);
    forall r | r in table
      ensures Hits(once, event, r) <==> Hits(table, event, r)
    {
      HitsAgain(table, event, t1, r);
    }
    forall r | r in table
      ensures Execute(once, event, t2)[r] == Execute(table, event, t2)[r]
    {
      RowStepAbsorbs(table[r], event, t1, t2);
    }
  }

  lemma {:induction false} HitsAgain(table: Table, event: Event, t: Time, r: RowId)
    requires UniqueIds(table) && r in table
    ensures Hits(Execute(table, event, t), event, r) <==> Hits(table, event, r)
  {
  }

  /** One attempt of the task: its transaction commits or is rolled back. */
  datatype Attempt = Attempt(committed: bool, now: Time)

  function Attempts(table: Table, event: Event, attempts: seq<Attempt>): Table {
    if attempts == [] then table
    else
      var before, last := Attempts(table, event, attempts[..|attempts| - 1]), attempts[|attempts| - 1];
      if last.committed then Execute(before, event, last.now) else before
  }

  /** Retry absorption, for every handler and a whole table: any series of attempts at one event leaves what one
      execution at the time of the last committed attempt leaves. */
  lemma {:induction false} AttemptsAreOneExecution(table: Table, event: Event, attempts: seq<Attempt>, last: nat)
    requires UniqueIds(table)
    requires last < |attempts| && attempts[last].committed
    requires forall i :: last < i < |attempts| ==> !attempts[i].committed
    ensures Attempts(table, event, attempts) == Execute(table, event, attempts[last].now)
  {
    var n := |attempts| - 1;
    var before := attempts[..n];
    if last < n {
      AttemptsAreOneExecution(table, event, before, last);
    } else {
      AttemptsAreAbsorbed(table, event, before, attempts[n].now);
    }
  }

  /** An execution makes up for all attempts at its event before it. */
  lemma {:induction false} AttemptsAreAbsorbed(table: Table, event: Event, attempts: seq<Attempt>, now: Time)
    requires UniqueIds(table)
    ensures UniqueIds(Attempts(table, event, attempts))
    ensures Execute(Attempts(table, event, attempts), event, now) == Execute(table, event, now)
  {
    if attempts == [] {
    } else {
      var last := attempts[|attempts| - 1];
      var before := Attempts(table, event, attempts[..|attempts| - 1]);
      AttemptsAreAbsorbed(table, event, attempts[..|attempts| - 1], now);
      if last.committed {
        AttemptsAreAbsorbed(table, event, attempts[..|attempts| - 1], last.now);
        ExecuteAbsorbs(before, event, last.now, now);
        ExecuteKeepsUniqueIds(before, event, last.now);
      }
    }
  }

  // ---- Schedules ----

  /** No event of the run rebinds a subscription id. */
  predicate BindingsFixed(xs: seq<Execution>) {
    forall i :: 0 <= i < |xs| ==> !xs[i].event.kind.Created?
  }

  /** The executions addressed to one subscription id. */
  function For(xs: seq<Execution>, id: string): seq<Execution> {
    if xs == [] then []
    else
      var n := |xs| - 1;
      For(xs[..n], id) + if KeyOf(xs[n].event) == BySubscription(id) then [xs[n]] else []
  }

  /** With the bindings fixed, what hits a row is known before the run: what is addressed to its id. */
  lemma {:induction false} HitsAreAddressed(table: Table, xs: seq<Execution>, r: RowId)
    requires BindingsFixed(xs) && r in table
    ensures HitLog(table, xs, r) == if table[r].subscriptionId.Some? then For(xs, table[r].subscriptionId.value) else []
    ensures Run(table, xs)[r].subscriptionId == table[r].subscriptionId
  {
    if xs == [] {
    } else {
      HitsAreAddressed(table, xs[..|xs| - 1], r);
    }
  }

  /** A log without the executions that the next one repeats. */
  function AbsorbRepeats(hits: seq<Execution>): seq<Execution> {
    if |hits| < 2 then hits
    else
      var n := |hits| - 1;
      var before := AbsorbRepeats(hits[..n]);
      (if hits[n].event == hits[n - 1].event then before[..|before| - 1] else before) + [hits[n]]
  }

  lemma {:induction false} AbsorbRepeatsEnds(hits: seq<Execution>)
    requires hits != []
    ensures AbsorbRepeats(hits) != []
    ensures AbsorbRepeats(hits)[|AbsorbRepeats(hits)| - 1] == hits[|hits| - 1]
  {
  }

  lemma {:induction false} FoldAbsorbsRepeats(row: Subscription, hits: seq<Execution>)
    ensures FoldRow(row, AbsorbRepeats(hits)) == FoldRow(row, hits)
  {
    if |hits| < 2 {
    } else {
      var n := |hits| - 1;
      var x := hits[n];
      var before := AbsorbRepeats(hits[..n]);
      AbsorbRepeatsEnds(hits[..n]);
      FoldAbsorbsRepeats(row, hits[..n]);
      if x.event == hits[n - 1].event {
        var shorter := before[..|before| - 1];
        assert (shorter + [x])[..|shorter|] == shorter;
        RowStepAbsorbs(FoldRow(row, shorter), x.event, before[|before| - 1].now, x.now);
      } else {
        assert (before + [x])[..|before|] == before;
      }
    }
  }

  /** Schedule independence: two runs with the bindings fixed end in the same table whenever they agree, for every
      subscription id, on the order of its executions once immediate repetitions are absorbed. Executions for
      different ids may be interleaved in any way. */
  lemma {:induction false} SchedulesAgree(table: Table, xs: seq<Execution>, ys: seq<Execution>)
    requires BindingsFixed(xs) && BindingsFixed(ys)
    requires forall id :: AbsorbRepeats(For(xs, id)) == AbsorbRepeats(For(ys, id))
    ensures Run(table, xs) == Run(table, ys)
  {
    forall r | r in table
      ensures Run(table, xs)[r] == Run(table, ys)[r]
    {
      RowIsFoldOfItsHits(table, xs, r);
      RowIsFoldOfItsHits(table, ys, r);
      HitsAreAddressed(table, xs, r);
      HitsAreAddressed(table, ys, r);
      if table[r].subscriptionId.Some? {
        FoldAbsorbsRepeats(table[r], For(xs, table[r].subscriptionId.value));
        FoldAbsorbsRepeats(table[r], For(ys, table[r].subscriptionId.value));
      }
    }
  }

  // ---- Schedules that rebind ----

  /** In Stripe a subscription belongs to one customer for good; `owner` says to which. */
  type Owner = string -> string

  ghost predicate RowsRespect(table: Table, owner: Owner) {
    forall r :: r in table && table[r].subscriptionId.Some? ==>
      owner(table[r].subscriptionId.value) == table[r].customerId
  }

  predicate EventsRespect(xs: seq<Execution>, owner: Owner) {
    forall i :: 0 <= i < |xs| ==> Respects(xs[i].event, owner)
  }

  predicate Respects(event: Event, owner: Owner) {
    event.kind.Created? ==> owner(OrElse(event.obj.id, "")) == OrElse(event.obj.customer, "")
  }

  /** The customer an event is about. */
  function AccountOf(event: Event, owner: Owner): Option<string> {
    match KeyOf(event)
    case ByCustomer(id) => Some(id)
    case BySubscription(id) => Some(owner(id))
    case NoRow => None
  }

  function ForAccount(xs: seq<Execution>, owner: Owner, customer: string): seq<Execution> {
    if xs == [] then []
    else
      var n := |xs| - 1;
      ForAccount(xs[..n], owner, customer) + if AccountOf(xs[n].event, owner) == Some(customer) then [xs[n]] else []
  }

  /** One row alone, following its own bindings through the executions of its account. */
  function FollowStep(row: Subscription, x: Execution): Subscription {
    if Matches(row, KeyOf(x.event)) then RowStep(row, x.event, x.now) else row
  }

  function FollowRow(row: Subscription, xs: seq<Execution>): Subscription {
    if xs == [] then row else FollowStep(FollowRow(row, xs[..|xs| - 1]), xs[|xs| - 1])
  }

  /** Under one owner, an event of another account does not touch the row, and one of its own never clashes. */
  lemma {:induction false} StepWithinAccount(table: Table, owner: Owner, x: Execution, r: RowId)
    requires UniqueIds(table) && RowsRespect(table, owner) && Respects(x.event, owner) && r in table
    ensures Execute(table, x.event, x.now)[r]
            == if AccountOf(x.event, owner) == Some(table[r].customerId) then FollowStep(table[r], x) else table[r]
  {
  }

  lemma {:induction false} ExecuteKeepsOwners(table: Table, owner: Owner, event: Event, now: Time)
    requires RowsRespect(table, owner) && Respects(event, owner)
    ensures RowsRespect(Execute(table, event, now), owner)
    ensures forall r :: r in table ==> Execute(table, event, now)[r].customerId == table[r].customerId
  {
  }

  lemma {:induction false} RunKeepsOwners(table: Table, owner: Owner, xs: seq<Execution>)
    requires RowsRespect(table, owner) && EventsRespect(xs, owner)
    ensures RowsRespect(Run(table, xs), owner)
    ensures forall r :: r in table ==> Run(table, xs)[r].customerId == table[r].customerId
  {
    if xs == [] {
    } else {
      var n := |xs| - 1;
      RunKeepsOwners(table, owner, xs[..n]);
      assert Respects(xs[n].event, owner);
      ExecuteKeepsOwners(Run(table, xs[..n]), owner, xs[n].event, xs[n].now);
    }
  }

  /** Whatever the run rebinds, each row follows the executions of its own account. */
  lemma {:induction false} RowFollowsItsAccount(table: Table, owner: Owner, xs: seq<Execution>, r: RowId)
    requires UniqueIds(table) && RowsRespect(table, owner) && EventsRespect(xs, owner) && r in table
    ensures Run(table, xs)[r] == FollowRow(table[r], ForAccount(xs, owner, table[r].customerId))
  {
    if xs == [] {
    } else {
      var n := |xs| - 1;
      assert Respects(xs[n].event, owner);
      RowFollowsItsAccount(table, owner, xs[..n], r);
      RunKeepsUniqueIds(table, xs[..n]);
      RunKeepsOwners(table, owner, xs[..n]);
      StepWithinAccount(Run(table, xs[..n]), owner, xs[n], r);
      var own := ForAccount(xs[..n], owner, table[r].customerId);
      assert (own + [xs[n]])[..|own|] == own && own + [] == own;
    }
  }

  lemma FollowStepAbsorbs(row: Subscription, event: Event, t1: Time, t2: Time)
    ensures FollowStep(FollowStep(row, Execution(event, t1)), Execution(event, t2))
      == FollowStep(row, Execution(event, t2))
  {
  }

  lemma FollowRowSnoc(row: Subscription, xs: seq<Execution>, x: Execution)
    ensures FollowRow(row, xs + [x]) == FollowStep(FollowRow(row, xs), x)
  {
    assert (xs + [x])[..|xs|] == xs;
  }

  /** A repetition that follows its original at once can be left out. */
  lemma FollowSkipsRepeat(row: Subscription, xs: seq<Execution>, x: Execution, y: Execution)
    requires x.event == y.event
    ensures FollowRow(row, xs + [x] + [y]) == FollowRow(row, xs + [y])
  {
    FollowRowSnoc(row, xs, x);
    FollowRowSnoc(row, xs, y);
    FollowRowSnoc(row, xs + [x], y);
    FollowStepAbsorbs(FollowRow(row, xs), x.event, x.now, y.now);
  }

  lemma {:induction false} FollowAbsorbsRepeats(row: Subscription, xs: seq<Execution>)
    ensures FollowRow(row, AbsorbRepeats(xs)) == FollowRow(row, xs)
  {
    if |xs| < 2 {
    } else {
      var n := |xs| - 1;
      var before := AbsorbRepeats(xs[..n]);
      FollowAbsorbsRepeats(row, xs[..n]);
      AbsorbRepeatsEnds(xs[..n]);
      assert FollowRow(row, before + [xs[n]]) == FollowRow(row, xs) by {
        FollowRowSnoc(row, before, xs[n]);
      }
      if xs[n].event == xs[n - 1].event {
        var m := |before| - 1;
        assert before == before[..m] + [before[m]];
        FollowSkipsRepeat(row, before[..m], before[m], xs[n]);
      }
    }
  }

  /** Schedule independence with rebinding: when every subscription has one owner, two runs end in the same table
      whenever they agree, for every customer, on the order of its executions up to immediate repetitions. */
  lemma {:induction false} AccountsAgree(table: Table, owner: Owner, xs: seq<Execution>, ys: seq<Execution>)
    requires UniqueIds(table) && RowsRespect(table, owner) && EventsRespect(xs, owner) && EventsRespect(ys, owner)
    requires forall customer ::
      AbsorbRepeats(ForAccount(xs, owner, customer)) == AbsorbRepeats(ForAccount(ys, owner, customer))
    ensures Run(table, xs) == Run(table, ys)
  {
    forall r | r in table
      ensures Run(table, xs)[r] == Run(table, ys)[r]
    {
      RowFollowsItsAccount(table, owner, xs, r);
      RowFollowsItsAccount(table, owner, ys, r);
      FollowAbsorbsRepeats(table[r], ForAccount(xs, owner, table[r].customerId));
      FollowAbsorbsRepeats(table[r], ForAccount(ys, owner, table[r].customerId));
    }
  }

  /** In any two runs, rebinding included, rows that were hit by the same executions end equal. */
  lemma {:induction false} SameHitsSameTable(table: Table, xs: seq<Execution>, ys: seq<Execution>)
    requires forall r :: r in table ==> AbsorbRepeats(HitLog(table, xs, r)) == AbsorbRepeats(HitLog(table, ys, r))
    ensures Run(table, xs) == Run(table, ys)
  {
    forall r | r in table
      ensures Run(table, xs)[r] == Run(table, ys)[r]
    {
      RowIsFoldOfItsHits(table, xs, r);
      RowIsFoldOfItsHits(table, ys, r);
      FoldAbsorbsRepeats(table[r], HitLog(table, xs, r));
      FoldAbsorbsRepeats(table[r], HitLog(table, ys, r));
    }
  }

  /** Agreement per subscription alone is not enough when bindings change: a `created` event for one id and a `deleted`
      event for another do not commute when the first rebinds the row of the second. */
  lemma {:induction false} RebindingBreaksIndependence(table: Table, r: RowId, created: Event, deleted: Event, t: Time)
    requires UniqueIds(table) && r in table && created.kind.Created? && deleted.kind.Deleted?
    requires Matches(table[r], KeyOf(created)) && Matches(table[r], KeyOf(deleted)) && !Clashes(table, r, created)
    requires created.obj.id.Some? && table[r].subscriptionId != created.obj.id
    requires table[r].gracePeriodEnd.Some?
    ensures var xs, ys :=
      [Execution(created, t), Execution(deleted, t)], [Execution(deleted, t), Execution(created, t)];
      && Run(table, xs)[r].gracePeriodEnd == table[r].gracePeriodEnd
      && Run(table, ys)[r].gracePeriodEnd == None
  {
    var x, y := Execution(created, t), Execution(deleted, t);
    RunOfTwo(table, x, y);
    RunOfTwo(table, y, x);
    assert Hits(table, created, r) && Hits(table, deleted, r);
    HitsAfterDelete(table, deleted, created, t, r);
  }

  /** Yet the two orders look alike to every subscription id. */
  lemma {:induction false} RebindingIsNotAddressed(created: Event, deleted: Event, t: Time, id: string)
    requires created.kind.Created?
    ensures For([Execution(created, t), Execution(deleted, t)], id)
      == For([Execution(deleted, t), Execution(created, t)], id)
  {
  }

  lemma {:induction false} RunOfTwo(table: Table, x: Execution, y: Execution)
    ensures Run(table, [x, y]) == Execute(Execute(table, x.event, x.now), y.event, y.now)
  {
    assert [x, y][..1] == [x] && [x][..0] == [];
    assert Run(table, [x]) == Execute(table, x.event, x.now);
  }

  lemma {:induction false} HitsAfterDelete(table: Table, deleted: Event, created: Event, t: Time, r: RowId)
    requires deleted.kind.Deleted? && created.kind.Created? && r in table
    ensures Hits(Execute(table, deleted, t), created, r) <==> Hits(table, created, r)
  {
  }
}
