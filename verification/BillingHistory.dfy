/** What a Subscription row says after any run, in closed form: each column is its last write, the grace period and
    the access decision are functions of the row's history. */
module BillingHistory {
  import opened Prelude
  import opened Billing

  // ---- Columns ----

  /** Position i holds the last execution in the log that writes the column. */
  predicate LastWriter<V>(hits: seq<Execution>, writes: Execution -> Option<V>, i: int) {
    && 0 <= i < |hits| && writes(hits[i]).Some?
    && forall j :: i < j < |hits| ==> writes(hits[j]).None?
  }

  predicate NoWriter<V>(hits: seq<Execution>, writes: Execution -> Option<V>) {
    forall j :: 0 <= j < |hits| ==> writes(hits[j]).None?
  }

  /** A column whose every writer overwrites it. */
  function FoldColumn<V>(first: V, hits: seq<Execution>, writes: Execution -> Option<V>): V {
    if hits == [] then first
    else OrElse(writes(hits[|hits| - 1]), FoldColumn(first, hits[..|hits| - 1], writes))
  }

  /** Such a column holds what its last writer wrote, or its first value. */
  lemma {:induction false} LastWriteWins<V>(first: V, hits: seq<Execution>, writes: Execution -> Option<V>)
    ensures forall i :: LastWriter(hits, writes, i) ==> Some(FoldColumn(first, hits, writes)) == writes(hits[i])
    ensures NoWriter(hits, writes) ==> FoldColumn(first, hits, writes) == first
    ensures NoWriter(hits, writes) || exists i :: LastWriter(hits, writes, i)
  {
    if hits == [] {
    } else {
      var n := |hits| - 1;
      var before := hits[..n];
      LastWriteWins(first, before, writes);
      if writes(hits[n]).Some? {
        assert LastWriter(hits, writes, n);
      } else {
        forall i
          ensures LastWriter(hits, writes, i) <==> LastWriter(before, writes, i)
        {
          SilentExtension(before, hits[n], writes, i);
          assert before + [hits[n]] == hits;
        }
        assert NoWriter(before, writes) ==> NoWriter(hits, writes) by {
          assert forall j :: 0 <= j < n ==> before[j] == hits[j];
        }
      }
    }
  }

  /** An execution that does not write the column leaves its last writer alone. */
  lemma SilentExtension<V>(hits: seq<Execution>, x: Execution, writes: Execution -> Option<V>, i: int)
    requires writes(x).None?
    ensures LastWriter(hits + [x], writes, i) <==> LastWriter(hits, writes, i)
  {
    if LastWriter(hits + [x], writes, i) {
      assert forall j :: i < j < |hits| ==> hits[j] == (hits + [x])[j];
    }
  }

  /** Column by column, who writes what. */
  function GraceWrite(x: Execution): Option<Option<Time>> {
    match x.event.kind
    case PaymentFailed => Some(Some(x.now + GRACE_PERIOD))
    case PaymentSucceeded => Some(None)
    case Deleted => Some(None)
    case _ => None
  }

  function StatusWrite(x: Execution): Option<Status> {
    match x.event.kind
    case PaymentFailed => Some(PastDue)
    case PaymentSucceeded => Some(Active)
    case Deleted => Some(Canceled)
    case Created => Some(OrElse(x.event.obj.status, Active))
    case Updated => Some(OrElse(x.event.obj.status, Active))
    case _ => None
  }

  function PeriodWrite(kind: Kind, timestamp: Option<Time>): Option<Option<Time>> {
    if (kind.Created? || kind.Updated?) && timestamp.Some? && timestamp.value != 0 then Some(timestamp) else None
  }

  function StartWrite(x: Execution): Option<Option<Time>> { PeriodWrite(x.event.kind, x.event.obj.periodStart) }
  function EndWrite(x: Execution): Option<Option<Time>> { PeriodWrite(x.event.kind, x.event.obj.periodEnd) }
  function TrialWrite(x: Execution): Option<Option<Time>> { PeriodWrite(x.event.kind, x.event.obj.trialEnd) }

  function IdWrite(x: Execution): Option<Option<string>> {
    if x.event.kind.Created? then Some(Some(OrElse(x.event.obj.id, ""))) else None
  }

  function PriceWrite(x: Execution): Option<string> {
    if x.event.kind.Created? then Some(OrElse(x.event.obj.priceId, "")) else None
  }

  function CancelWrite(x: Execution): Option<bool> {
    if x.event.kind.Updated? then Some(OrElse(x.event.obj.cancelAtPeriodEnd, false)) else None
  }

  /** The whole row, column by column: each is overwritten by its own writers and by nobody else. The customer id
      has none. */
  function FoldColumns(row: Subscription, hits: seq<Execution>): Subscription {
    Subscription(
      row.customerId,
      FoldColumn(row.subscriptionId, hits, IdWrite),
      FoldColumn(row.priceId, hits, PriceWrite),
      FoldColumn(row.status, hits, StatusWrite),
      FoldColumn(row.periodStart, hits, StartWrite),
      FoldColumn(row.periodEnd, hits, EndWrite),
      FoldColumn(row.gracePeriodEnd, hits, GraceWrite),
      FoldColumn(row.cancelAtPeriodEnd, hits, CancelWrite),
      FoldColumn(row.trialEnd, hits, TrialWrite))
  }

  lemma {:induction false} RowIsItsColumns(row: Subscription, hits: seq<Execution>)
    ensures FoldRow(row, hits) == FoldColumns(row, hits)
  {
    if hits == [] {
    } else {
      RowIsItsColumns(row, hits[..|hits| - 1]);
    }
  }

  /** History characterisation of the grace period: after any run it ends at `end` exactly when the last of
      {payment_failed, payment_succeeded, deleted} to hit the row was a payment_failed seven days before, or none of
      them hit it and it ended there from the start. */
  lemma {:induction false} GracePeriodFromHistory(table: Table, xs: seq<Execution>, r: RowId, end: Time)
    requires r in table
    ensures Run(table, xs)[r].gracePeriodEnd == Some(end) <==> GraceUntil(table[r], HitLog(table, xs, r), end)
  {
    var hits := HitLog(table, xs, r);
    RowIsFoldOfItsHits(table, xs, r);
    RowIsItsColumns(table[r], hits);
    GraceColumn(table[r], hits, end);
  }

  /** The last grace-setting event of the log is a payment_failed, seven days before `end`. */
  ghost predicate GraceFrom(hits: seq<Execution>, end: Time) {
    exists i :: LastWriter(hits, GraceWrite, i) && hits[i].event.kind.PaymentFailed?
      && end == hits[i].now + GRACE_PERIOD
  }

  /** Or no grace-setting event is in the log, and the row had that grace period from the start. */
  ghost predicate GraceUntil(row: Subscription, hits: seq<Execution>, end: Time) {
    (NoWriter(hits, GraceWrite) && row.gracePeriodEnd == Some(end)) || GraceFrom(hits, end)
  }

  lemma {:induction false} GraceColumn(row: Subscription, hits: seq<Execution>, end: Time)
    ensures FoldColumn(row.gracePeriodEnd, hits, GraceWrite) == Some(end) <==> GraceUntil(row, hits, end)
  {
    LastWriteWins(row.gracePeriodEnd, hits, GraceWrite);
  }

  /** The last status-setting event of the log set this status, or there is none and the row had it from the start. */
  ghost predicate StatusFrom(row: Subscription, hits: seq<Execution>, status: Status) {
    || (NoWriter(hits, StatusWrite) && row.status == status)
    || exists i :: LastWriter(hits, StatusWrite, i) && StatusWrite(hits[i]) == Some(status)
  }

  lemma {:induction false} StatusColumn(row: Subscription, hits: seq<Execution>, status: Status)
    ensures FoldColumn(row.status, hits, StatusWrite) == status <==> StatusFrom(row, hits, status)
  {
    LastWriteWins(row.status, hits, StatusWrite);
  }

  /** Status and grace period of a row after any run, from its history. */
  lemma {:induction false} RowFromHistory(table: Table, xs: seq<Execution>, r: RowId)
    requires r in table
    ensures forall status ::
      Run(table, xs)[r].status == status <==> StatusFrom(table[r], HitLog(table, xs, r), status)
    ensures forall end ::
      Run(table, xs)[r].gracePeriodEnd == Some(end) <==> GraceUntil(table[r], HitLog(table, xs, r), end)
  {
    var hits := HitLog(table, xs, r);
    RowIsFoldOfItsHits(table, xs, r);
    RowIsItsColumns(table[r], hits);
    forall status {
      StatusColumn(table[r], hits, status);
    }
    forall end {
      GraceColumn(table[r], hits, end);
    }
  }

  /** Access as a closed function of history, after any run: the status that was set last decides, and past_due
      counts for as long as the grace period that was set last. */
  lemma {:induction false} AccessFromHistory(table: Table, xs: seq<Execution>, r: RowId, now: Time)
    requires r in table
    ensures AccessAllowed(Run(table, xs)[r], now) <==>
      var hits := HitLog(table, xs, r);
      || StatusFrom(table[r], hits, Active) || StatusFrom(table[r], hits, Trialing)
      || (StatusFrom(table[r], hits, PastDue) && exists end :: now < end && GraceUntil(table[r], hits, end))
  {
    RowFromHistory(table, xs, r);
    var row := Run(table, xs)[r];
    if row.gracePeriodEnd.Some? {
      assert GraceUntil(table[r], HitLog(table, xs, r), row.gracePeriodEnd.value);
    }
  }

  lemma FailureSetsBoth(row: Subscription, hits: seq<Execution>, i: int)
    requires LastWriter(hits, StatusWrite, i) && hits[i].event.kind.PaymentFailed?
    ensures StatusFrom(row, hits, PastDue) && GraceUntil(row, hits, hits[i].now + GRACE_PERIOD)
  {
    forall j | i < j < |hits|
      ensures GraceWrite(hits[j]).None?
    {
      assert StatusWrite(hits[j]).None?;
    }
    assert LastWriter(hits, GraceWrite, i);
  }

  /** In particular, when the status was last set by a payment_failed at t, access lasts until t + 7 days. */
  lemma {:induction false} AccessAfterFailure(table: Table, xs: seq<Execution>, r: RowId, i: int, now: Time)
    requires r in table && LastWriter(HitLog(table, xs, r), StatusWrite, i)
    requires HitLog(table, xs, r)[i].event.kind.PaymentFailed?
    ensures AccessAllowed(Run(table, xs)[r], now) <==> now < HitLog(table, xs, r)[i].now + GRACE_PERIOD
  {
    FailureSetsBoth(table[r], HitLog(table, xs, r), i);
    RowFromHistory(table, xs, r);
  }

  /** Position j set the status to active behind the payment_failed at position i, whose grace period still stands. */
  ghost predicate ActiveBehindFailure(hits: seq<Execution>, end: Time, i: int, j: int) {
    && i < j
    && LastWriter(hits, GraceWrite, i) && hits[i].event.kind.PaymentFailed? && end == hits[i].now + GRACE_PERIOD
    && LastWriter(hits, StatusWrite, j) && (hits[j].event.kind.Created? || hits[j].event.kind.Updated?)
    && StatusWrite(hits[j]) == Some(Active)
  }

  lemma ActivatedBehindFailure(row: Subscription, hits: seq<Execution>, end: Time)
    requires GraceFrom(hits, end)
    ensures StatusFrom(row, hits, Active) <==> exists i, j :: ActiveBehindFailure(hits, end, i, j)
  {
    var i :| LastWriter(hits, GraceWrite, i) && hits[i].event.kind.PaymentFailed? && end == hits[i].now + GRACE_PERIOD;
    assert StatusWrite(hits[i]) == Some(PastDue);
    if j :| LastWriter(hits, StatusWrite, j) && StatusWrite(hits[j]) == Some(Active) {
      assert i < j && GraceWrite(hits[j]).None?;
      assert ActiveBehindFailure(hits, end, i, j);
    }
  }

  /** Exactly when a row is active and has a grace period: a `created` or `updated` event activated it after the last
      payment_failed, which no payment_succeeded or deletion followed; or it had its grace period from the start. */
  lemma {:induction false} ActiveWithGraceExactly(table: Table, xs: seq<Execution>, r: RowId, end: Time)
    requires r in table
    ensures Run(table, xs)[r].status == Active && Run(table, xs)[r].gracePeriodEnd == Some(end) <==>
      var hits := HitLog(table, xs, r);
      || (NoWriter(hits, GraceWrite) && table[r].gracePeriodEnd == Some(end) && StatusFrom(table[r], hits, Active))
      || exists i, j :: ActiveBehindFailure(hits, end, i, j)
  {
    RowFromHistory(table, xs, r);
    var hits := HitLog(table, xs, r);
    if GraceFrom(hits, end) {
      ActivatedBehindFailure(table[r], hits, end);
    }
  }

  /** With no further event, access once lost stays lost. */
  lemma AccessDecays(row: Subscription, now: Time, later: Time)
    requires now <= later && !AccessAllowed(row, now)
    ensures !AccessAllowed(row, later)
  {
  }

  /** "Active implies no grace period" is not an invariant: an `updated` event leaves the old one in place, and a
      later past_due brings it back to life. */
  lemma {:induction false} UpdatedKeepsOldGrace(row: Subscription, failed: Event, active: Event, pastDue: Event,
                                                t: Time, now: Time)
    requires failed.kind.PaymentFailed? && active.kind.Updated? && pastDue.kind.Updated?
    requires active.obj.status == Some(Active) && pastDue.obj.status == Some(PastDue)
    ensures var hits := [Execution(failed, t), Execution(active, t)];
      FoldRow(row, hits).status == Active && FoldRow(row, hits).gracePeriodEnd == Some(t + GRACE_PERIOD)
    ensures var hits := [Execution(failed, t), Execution(active, t), Execution(pastDue, t)];
      AccessAllowed(FoldRow(row, hits), now) <==> now < t + GRACE_PERIOD
  {
    var one := [Execution(failed, t)];
    var two := [Execution(failed, t), Execution(active, t)];
    var three := [Execution(failed, t), Execution(active, t), Execution(pastDue, t)];
    assert one[..0] == [] && two[..1] == one && three[..2] == two;
    assert FoldRow(row, one) == RowStep(row, failed, t);
  }
}
