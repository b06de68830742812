/** apps/billing/views.py and apps/billing/tasks.py: web processes log and enqueue Stripe deliveries, workers execute
    them with retries.

    Inserting the log row and publishing the task are two steps of a web process, and it may die in between. An attempt
    of the task commits or rolls back, and then returns, raises, or loses its worker; the broker delivers a lost
    message again (CELERY_TASK_ACKS_LATE and CELERY_TASK_REJECT_ON_WORKER_LOST are both set). A retry is a publish of
    its own, and when the broker refuses it the message is rejected for good. The last part says exactly which accepted
    events are lost on the way. */
module WebhookPipeline {
  import opened Prelude
  import opened Billing
  import opened BillingSchedules

  type EventId = string
  type Pid = nat
  type MessageId = nat

  const MAX_RETRIES: nat := 5

  const HANDLED_EVENTS: set<string> := {
    "customer.subscription.created",
    "customer.subscription.updated",
    "customer.subscription.deleted",
    "invoice.payment_succeeded",
    "invoice.payment_failed",
    "customer.subscription.trial_will_end"
  }

  /** A row of the WebhookEvent log. */
  datatype Logged = Logged(name: string, obj: Payload)

  datatype Message = Message(id: EventId, content: Logged, retries: nat)

  function EventOf(content: Logged): Event {
    Event(Classify(content.name), content.obj)
  }

  /** `accepted` holds the web processes between their insert and their publish. */
  datatype System = System(
    log: map<EventId, Logged>,
    accepted: map<Pid, EventId>,
    queue: map<MessageId, Message>,
    table: Table,
    now: Time)

  /** `RetryRefused`: the attempt raises, and the broker does not take the retry. */
  datatype End = Returned | Raised | RetryRefused | WorkerLost

  datatype Step =
    | Tick(seconds: nat)
    | Deliver(p: Pid, id: EventId, content: Logged)
    | Enqueue(p: Pid, m: MessageId)
    | Crash(p: Pid)                                       // the publish raises, or the process dies before it
    | Attempt(m: MessageId, committed: bool, end: End)

  predicate Accepts(s: System, id: EventId, content: Logged) {
    content.name in HANDLED_EVENTS && id !in s.log
  }

  function Apply(s: System, step: Step): System {
    match step
    case Tick(seconds) => s.(now := s.now + seconds)
    case Deliver(p, id, content) =>
      if Accepts(s, id, content) then s.(log := s.log[id := content], accepted := s.accepted[p := id]) else s
    case Enqueue(p, m) =>
      if p !in s.accepted then s
      else
        var id := s.accepted[p];
        s.(accepted := s.accepted - {p},
           queue := if id in s.log then s.queue[m := Message(id, s.log[id], 0)] else s.queue)
    case Crash(p) => s.(accepted := s.accepted - {p})
    case Attempt(m, committed, end) =>
      if m !in s.queue then s
      else
        var message := s.queue[m];
        s.(table := if committed then Execute(s.table, EventOf(message.content), s.now) else s.table,
           queue := AfterAttempt(s.queue, m, end))
  }

  /** Whatever raises is published again with one more retry, until the retries are used up or one is refused. */
  function AfterAttempt(queue: map<MessageId, Message>, m: MessageId, end: End): map<MessageId, Message>
    requires m in queue
  {
    match end
    case Returned => queue - {m}
    case RetryRefused => queue - {m}
    case Raised =>
      if queue[m].retries < MAX_RETRIES then queue[m := queue[m].(retries := queue[m].retries + 1)] else queue - {m}
    case WorkerLost => queue
  }

  /** What the environment may do: message ids are new, a web process handles one delivery at a time, and an attempt
      returns only if its handler did not raise and its transaction committed. */
  predicate Enabled(s: System, sent: map<MessageId, EventId>, step: Step) {
    match step
    case Tick(_) => true
    case Deliver(p, _, _) => p !in s.accepted
    case Enqueue(p, m) => p in s.accepted && m !in sent
    case Crash(p) => p in s.accepted
    case Attempt(m, committed, end) =>
      && m in s.queue
      && (end.Returned? ==> committed)
      && (end.RetryRefused? ==> s.queue[m].retries < MAX_RETRIES)
      && (committed ==> !Raises(s.table, EventOf(s.queue[m].content)))
  }

  // ---- History ----

  /** What has happened: the event each message was sent for, the attempts and losses of each message, and the
      committed executions in order. */
  datatype History = History(
    sent: map<MessageId, EventId>,
    attempts: map<MessageId, nat>,
    losses: map<MessageId, nat>,
    ids: seq<EventId>,
    executions: seq<Execution>)

  datatype State = State(system: System, history: History)

  function Record(s: System, h: History, step: Step): History {
    match step
    case Enqueue(p, m) =>
      if p !in s.accepted then h
      else h.(sent := h.sent[m := s.accepted[p]], attempts := h.attempts[m := 0], losses := h.losses[m := 0])
    case Attempt(m, committed, end) =>
      if m !in s.queue || m !in h.attempts || m !in h.losses then h
      else
        History(h.sent,
                h.attempts[m := h.attempts[m] + 1],
                if end.WorkerLost? then h.losses[m := h.losses[m] + 1] else h.losses,
                if committed then h.ids + [s.queue[m].id] else h.ids,
                if committed then h.executions + [Execution(EventOf(s.queue[m].content), s.now)] else h.executions)
    case _ => h
  }

  function Start(table: Table, now: Time): State {
    State(System(map[], map[], map[], table, now), History(map[], map[], map[], [], []))
  }

  function Next(s: State, step: Step): State {
    State(Apply(s.system, step), Record(s.system, s.history, step))
  }

  function After(s: State, steps: seq<Step>): State {
    if steps == [] then s else Next(After(s, steps[..|steps| - 1]), steps[|steps| - 1])
  }

  ghost predicate IsRun(s: State, steps: seq<Step>) {
    steps == [] ||
    (var n := |steps| - 1;
     IsRun(s, steps[..n])
     && Enabled(After(s, steps[..n]).system, After(s, steps[..n]).history.sent, steps[n]))
  }

  // ---- The invariant ----

  /** Each logged event belongs to at most one of: a process about to publish it, a message that was sent for it. */
  ghost predicate Deduplicated(s: State) {
    var log, accepted, sent := s.system.log, s.system.accepted, s.history.sent;
    && (forall id :: id in log ==> log[id].name in HANDLED_EVENTS)
    && (forall p :: p in accepted ==> accepted[p] in log)
    && (forall m :: m in sent ==> sent[m] in log)
    && (forall p, q :: p in accepted && q in accepted && p != q ==> accepted[p] != accepted[q])
    && (forall p, m :: p in accepted && m in sent ==> accepted[p] != sent[m])
    && (forall m, n :: m in sent && n in sent && m != n ==> sent[m] != sent[n])
  }

  /** Queued messages carry what was logged, and every attempt is paid for by a retry or a lost worker. */
  ghost predicate Accounted(s: State) {
    var queue, h := s.system.queue, s.history;
    && h.attempts.Keys == h.losses.Keys == h.sent.Keys
    && (forall m :: m in queue ==> Paid(s, m))
    && (forall m :: m in h.sent ==> h.attempts[m] <= 1 + MAX_RETRIES + h.losses[m])
  }

  ghost predicate Paid(s: State, m: MessageId)
    requires m in s.system.queue
  {
    var message, h := s.system.queue[m], s.history;
    && m in h.sent && message.id == h.sent[m]
    && message.id in s.system.log && message.content == s.system.log[message.id]
    && message.retries <= MAX_RETRIES
    && m in h.attempts && m in h.losses && h.attempts[m] == message.retries + h.losses[m]
  }

  /** The Subscription table is the initial one after the committed executions, each of a logged and sent event. */
  ghost predicate Explained(table: Table, s: State) {
    var h := s.history;
    && |h.ids| == |h.executions|
    && s.system.table == Run(table, h.executions)
    && forall i :: 0 <= i < |h.ids| ==> ExecutedFrom(s, h.ids[i], h.executions[i])
  }

  ghost predicate ExecutedFrom(s: State, id: EventId, x: Execution) {
    && id in s.history.sent.Values
    && id in s.system.log
    && x.event == EventOf(s.system.log[id])
  }

  ghost predicate Invariant(table: Table, s: State) {
    Deduplicated(s) && Accounted(s) && Explained(table, s)
  }

  lemma {:induction false} StepKeepsDeduplicated(s: State, step: Step)
    requires Deduplicated(s) && Enabled(s.system, s.history.sent, step)
    ensures Deduplicated(Next(s, step))
  {
  }

  lemma {:induction false} StepKeepsAccounted(s: State, step: Step)
    requires Deduplicated(s) && Accounted(s) && Enabled(s.system, s.history.sent, step)
    ensures Accounted(Next(s, step))
  {
    match step
    case Attempt(m, committed, end) =>
      AttemptKeepsAccounted(s, m, committed, end);
    case _ =>
      var t := Next(s, step);
      forall m | m in t.system.queue
        ensures Paid(t, m)
      {
        if m in s.system.queue { assert Paid(s, m); }
      }
  }

  lemma {:induction false} AttemptKeepsAccounted(s: State, m: MessageId, committed: bool, end: End)
    requires Accounted(s) && m in s.system.queue
    ensures Accounted(Next(s, Step.Attempt(m, committed, end)))
  {
  }

  lemma {:induction false} StepKeepsExplained(table: Table, s: State, step: Step)
    requires Accounted(s) && Explained(table, s) && Deduplicated(s) && Enabled(s.system, s.history.sent, step)
    ensures Explained(table, Next(s, step))
  {
    var t := Next(s, step);
    forall i | 0 <= i < |s.history.ids|
      ensures ExecutedFrom(t, s.history.ids[i], s.history.executions[i])
    {
      StepKeepsExecuted(s, step, s.history.ids[i], s.history.executions[i]);
    }
    if step.Attempt? && step.committed {
      CommitIsRecorded(table, s, step.m, step.end);
    }
  }

  lemma {:induction false} CommitIsRecorded(table: Table, s: State, m: MessageId, end: End)
    requires Accounted(s) && m in s.system.queue
    ensures var t, x :=
      Next(s, Step.Attempt(m, true, end)), Execution(EventOf(s.system.queue[m].content), s.system.now);
      && t.history.executions == s.history.executions + [x] && t.history.ids == s.history.ids + [s.system.queue[m].id]
      && ExecutedFrom(t, s.system.queue[m].id, x)
      && t.system.table == Execute(s.system.table, x.event, x.now)
      && Run(table, t.history.executions) == Execute(Run(table, s.history.executions), x.event, x.now)
  {
  }

  lemma StepKeepsExecuted(s: State, step: Step, id: EventId, x: Execution)
    requires Deduplicated(s) && Enabled(s.system, s.history.sent, step) && ExecutedFrom(s, id, x)
    ensures ExecutedFrom(Next(s, step), id, x)
  {
    var m :| m in s.history.sent && s.history.sent[m] == id;
    var t := Next(s, step);
    assert m in t.history.sent && t.history.sent[m] == id;
  }

  lemma {:induction false} RunKeepsInvariant(table: Table, now: Time, steps: seq<Step>)
    requires IsRun(Start(table, now), steps)
    ensures Invariant(table, After(Start(table, now), steps))
  {
    if steps == [] {
    } else {
      var n := |steps| - 1;
      RunKeepsInvariant(table, now, steps[..n]);
      var s := After(Start(table, now), steps[..n]);
      StepKeepsDeduplicated(s, steps[n]);
      StepKeepsAccounted(s, steps[n]);
      StepKeepsExplained(table, s, steps[n]);
    }
  }

  // ---- What follows, for every interleaving ----

  /** No event id is enqueued twice; every executed id is logged, with the executed content; a message is attempted
      at most 6 times plus once for every worker lost on it. */
  lemma {:induction false} EventsAreEnqueuedOnce(table: Table, now: Time, steps: seq<Step>)
    requires IsRun(Start(table, now), steps)
    ensures var s := After(Start(table, now), steps);
      && (forall m, n ::
            m in s.history.sent && n in s.history.sent && s.history.sent[m] == s.history.sent[n] ==> m == n)
      && |s.history.ids| == |s.history.executions|
      && (forall i :: 0 <= i < |s.history.ids| ==> ExecutedFrom(s, s.history.ids[i], s.history.executions[i]))
      && s.history.attempts.Keys == s.history.losses.Keys == s.history.sent.Keys
      && (forall m :: m in s.history.sent ==> s.history.attempts[m] <= 6 + s.history.losses[m])
  {
    RunKeepsInvariant(table, now, steps);
  }

  /** The view's set and the service's dispatch table name the same events, so the dispatcher's unhandled branch is
      never reached from the queue. */
  lemma {:induction false} UnhandledBranchIsUnreachable(table: Table, now: Time, steps: seq<Step>)
    requires IsRun(Start(table, now), steps)
    ensures var s := After(Start(table, now), steps);
      && (forall m :: m in s.system.queue ==> !EventOf(s.system.queue[m].content).kind.Unhandled?)
      && (forall i :: 0 <= i < |s.history.executions| ==> !s.history.executions[i].event.kind.Unhandled?)
  {
    RunKeepsInvariant(table, now, steps);
    var s := After(Start(table, now), steps);
    forall name | name in HANDLED_EVENTS
      ensures !Classify(name).Unhandled?
    {
    }
    forall i | 0 <= i < |s.history.executions|
      ensures !s.history.executions[i].event.kind.Unhandled?
    {
      assert ExecutedFrom(s, s.history.ids[i], s.history.executions[i]);
    }
  }

  /** The view takes exactly the events that the dispatcher knows, once each, and as they came. */
  lemma DeliveryIsLoggedExactly(s: System, p: Pid, id: EventId, content: Logged)
    ensures var t := Apply(s, Deliver(p, id, content));
      if id !in s.log && !Classify(content.name).Unhandled?
      then t.log == s.log[id := content] && t == s.(log := t.log, accepted := s.accepted[p := id])
      else t == s
  {
  }

  /** And what it takes is executed: delivered, published and attempted without a fault, a new event changes the table
      as its name and payload say, and leaves nothing in the queue. */
  lemma DeliveredEventIsExecuted(s: State, p: Pid, id: EventId, m: MessageId, content: Logged)
    requires id !in s.system.log && p !in s.system.accepted && m !in s.history.sent && m !in s.system.queue
    requires !Classify(content.name).Unhandled?
    requires !Raises(s.system.table, Event(Classify(content.name), content.obj))
    ensures var one, two, three := Deliver(p, id, content), Enqueue(p, m), Step.Attempt(m, true, Returned);
      var s1 := Next(s, one);
      var s2 := Next(s1, two);
      var s3 := Next(s2, three);
      && Enabled(s.system, s.history.sent, one)
      && Enabled(s1.system, s1.history.sent, two)
      && Enabled(s2.system, s2.history.sent, three)
      && s3.system.table == Execute(s.system.table, Event(Classify(content.name), content.obj), s.system.now)
      && s3.system.queue == s.system.queue && s3.system.accepted == s.system.accepted
      && s3.history.ids == s.history.ids + [id]
  {
    var s1 := Next(s, Deliver(p, id, content));
    assert s1.system.accepted - {p} == s.system.accepted;
    var s2 := Next(s1, Enqueue(p, m));
    assert s2.system.queue == s.system.queue[m := Message(id, content, 0)];
    assert s2.system.queue - {m} == s.system.queue;
  }

  /** End to end: two runs of the whole system, however scheduled, end in the same Subscription table if every
      subscription has one owner and the runs commit, for every customer, the same executions up to immediate
      retries. */
  lemma {:induction false} PipelinesAgree(table: Table, owner: Owner, now1: Time, run1: seq<Step>, now2: Time,
                                          run2: seq<Step>)
    requires IsRun(Start(table, now1), run1) && IsRun(Start(table, now2), run2)
    requires UniqueIds(table) && RowsRespect(table, owner)
    requires var xs, ys := Committed(table, now1, run1), Committed(table, now2, run2);
      && EventsRespect(xs, owner) && EventsRespect(ys, owner)
      && forall customer ::
           AbsorbRepeats(ForAccount(xs, owner, customer)) == AbsorbRepeats(ForAccount(ys, owner, customer))
    ensures After(Start(table, now1), run1).system.table == After(Start(table, now2), run2).system.table
  {
    RunKeepsInvariant(table, now1, run1);
    RunKeepsInvariant(table, now2, run2);
    AccountsAgree(table, owner, Committed(table, now1, run1), Committed(table, now2, run2));
  }

  /** Each execution applied to the table it met, without raising. */
  ghost predicate NoneRaised(table: Table, xs: seq<Execution>) {
    forall i :: 0 <= i < |xs| ==> !Raises(Run(table, xs[..i]), xs[i].event)
  }

  lemma OneMoreDidNotRaise(table: Table, xs: seq<Execution>, x: Execution)
    requires NoneRaised(table, xs) && !Raises(Run(table, xs), x.event)
    ensures NoneRaised(table, xs + [x])
  {
    forall i | 0 <= i <= |xs|
      ensures !Raises(Run(table, (xs + [x])[..i]), (xs + [x])[i].event)
    {
      if i < |xs| {
        assert (xs + [x])[..i] == xs[..i];
      } else {
        assert (xs + [x])[..i] == xs;
      }
    }
  }

  /** No handler that raises is ever committed. */
  lemma {:induction false} CommittedHandlersDidNotRaise(table: Table, now: Time, steps: seq<Step>)
    requires IsRun(Start(table, now), steps)
    ensures NoneRaised(table, Committed(table, now, steps))
  {
    if steps == [] {
    } else {
      var before, step := steps[..|steps| - 1], steps[|steps| - 1];
      CommittedHandlersDidNotRaise(table, now, before);
      RunKeepsInvariant(table, now, before);
      CommitDidNotRaise(table, After(Start(table, now), before), step);
    }
  }

  lemma CommitDidNotRaise(table: Table, s: State, step: Step)
    requires Invariant(table, s) && Enabled(s.system, s.history.sent, step)
    requires NoneRaised(table, s.history.executions)
    ensures NoneRaised(table, Next(s, step).history.executions)
  {
    if step.Attempt? && step.committed {
      CommitIsRecorded(table, s, step.m, step.end);
      OneMoreDidNotRaise(table, s.history.executions,
                         Execution(EventOf(s.system.queue[step.m].content), s.system.now));
    }
  }

  /** The history lists the committed executions in the order of their times, none later than the present. */
  ghost predicate InOrder(s: State) {
    && (forall i :: 0 <= i < |s.history.executions| ==> s.history.executions[i].now <= s.system.now)
    && (forall i, j :: 0 <= i < j < |s.history.executions| ==>
          s.history.executions[i].now <= s.history.executions[j].now)
  }

  lemma StepKeepsOrder(s: State, step: Step)
    requires InOrder(s)
    ensures InOrder(Next(s, step))
  {
  }

  lemma {:induction false} ExecutionsAreInOrder(table: Table, now: Time, steps: seq<Step>)
    ensures InOrder(After(Start(table, now), steps))
  {
    if steps == [] {
    } else {
      ExecutionsAreInOrder(table, now, steps[..|steps| - 1]);
      StepKeepsOrder(After(Start(table, now), steps[..|steps| - 1]), steps[|steps| - 1]);
    }
  }

  /** The committed executions of a run, in order. */
  function Committed(table: Table, now: Time, steps: seq<Step>): seq<Execution> {
    After(Start(table, now), steps).history.executions
  }

  // ---- An accepted event can be lost ----

  /** The event is logged and was never executed, and neither a process nor a message will bring it to a worker. */
  predicate Lost(s: State, id: EventId) {
    && id in s.system.log
    && id !in s.system.accepted.Values
    && (forall m :: m in s.system.queue ==> s.system.queue[m].id != id)
    && id !in s.history.ids
  }

  /** The event is logged, but no process holds it and no message was ever sent for it. */
  predicate Orphaned(s: State, id: EventId) {
    && id in s.system.log
    && id !in s.system.accepted.Values
    && id !in s.history.sent.Values
  }

  /** The process that accepted the event dies before its publish. */
  predicate Crashes(s: State, step: Step, id: EventId) {
    step.Crash? && step.p in s.system.accepted && s.system.accepted[step.p] == id
  }

  predicate Attempts(s: State, step: Step, id: EventId) {
    step.Attempt? && step.m in s.system.queue && s.system.queue[step.m].id == id
  }

  predicate Commits(s: State, step: Step, id: EventId) {
    Attempts(s, step, id) && step.committed
  }

  /** An attempt at the event raises, and no retry is left or the retry is refused. */
  predicate GivesUp(s: State, step: Step, id: EventId) {
    && Attempts(s, step, id)
    && (step.end.RetryRefused? || (step.end.Raised? && s.system.queue[step.m].retries == MAX_RETRIES))
  }

  // ---- One step ----

  /** The one process that will publish the event holds it, and it has got no further. */
  ghost predicate HeldBy(s: State, p: Pid, id: EventId) {
    && id in s.system.log && p in s.system.accepted && s.system.accepted[p] == id
    && (forall q :: q in s.system.accepted && q != p ==> s.system.accepted[q] != id)
    && (forall m :: m in s.system.queue ==> s.system.queue[m].id != id)
    && (forall m :: m in s.history.sent ==> s.history.sent[m] != id)
    && id !in s.history.ids
  }

  /** One message carries the event. */
  ghost predicate CarriedBy(s: State, m: MessageId, id: EventId) {
    && id in s.system.log && m in s.system.queue && s.system.queue[m].id == id
    && m in s.history.sent && s.system.queue[m].retries <= MAX_RETRIES
    && (forall p :: p in s.system.accepted ==> s.system.accepted[p] != id)
    && (forall n :: n in s.system.queue && n != m ==> s.system.queue[n].id != id)
  }

  lemma HolderIsAlone(table: Table, s: State, p: Pid)
    requires Invariant(table, s) && p in s.system.accepted
    ensures HeldBy(s, p, s.system.accepted[p])
  {
    forall m | m in s.system.queue
      ensures s.system.queue[m].id != s.system.accepted[p]
    {
      assert Paid(s, m);
    }
    forall i | 0 <= i < |s.history.ids|
      ensures s.history.ids[i] != s.system.accepted[p]
    {
      assert ExecutedFrom(s, s.history.ids[i], s.history.executions[i]);
    }
  }

  lemma CarrierIsAlone(table: Table, s: State, m: MessageId)
    requires Invariant(table, s) && m in s.system.queue
    ensures CarriedBy(s, m, s.system.queue[m].id)
  {
    assert Paid(s, m);
    forall n | n in s.system.queue && n != m
      ensures s.system.queue[n].id != s.system.queue[m].id
    {
      assert Paid(s, n);
    }
  }

  /** Executed ids are those of committed attempts. */
  lemma IdsAfter(table: Table, s: State, step: Step, id: EventId)
    requires Invariant(table, s)
    ensures id in Next(s, step).history.ids <==> id in s.history.ids || Commits(s, step, id)
  {
    if step.Attempt? && step.m in s.system.queue {
      assert Paid(s, step.m);
    }
  }

  lemma LossOfHeld(s: State, step: Step, p: Pid, id: EventId)
    requires HeldBy(s, p, id) && Enabled(s.system, s.history.sent, step)
    requires id !in Next(s, step).history.ids
    ensures Lost(Next(s, step), id) <==> step == Crash(p)
    ensures Orphaned(Next(s, step), id) <==> step == Crash(p)
  {
    var t := Next(s, step);
    if step.Enqueue? && step.p == p {
      assert t.system.queue[step.m].id == id;
      assert t.history.sent[step.m] == id;
    } else if step != Crash(p) {
      assert p in t.system.accepted && t.system.accepted[p] == id;
    }
  }

  lemma LossOfCarried(s: State, step: Step, m: MessageId, id: EventId)
    requires CarriedBy(s, m, id) && Enabled(s.system, s.history.sent, step)
    requires id in Next(s, step).history.ids <==> id in s.history.ids || Commits(s, step, id)
    ensures Lost(Next(s, step), id) <==> GivesUp(s, step, id) && !Commits(s, step, id) && id !in s.history.ids
  {
    var t := Next(s, step);
    if !step.Attempt? || step.m != m {
      assert m in t.system.queue && t.system.queue[m].id == id;
    } else if step.end.WorkerLost? || (step.end.Raised? && s.system.queue[m].retries < MAX_RETRIES) {
      assert m in t.system.queue && t.system.queue[m].id == id;
    }
  }

  /** An event nobody carries is not lost by a step: it already was, or it has been executed, or it is unknown. */
  lemma LossOfNeither(s: State, step: Step, id: EventId)
    requires Enabled(s.system, s.history.sent, step)
    requires id !in s.system.accepted.Values
    requires forall m :: m in s.system.queue ==> s.system.queue[m].id != id
    requires id in Next(s, step).history.ids <==> id in s.history.ids
    ensures Lost(Next(s, step), id) <==> Lost(s, id)
  {
    var t := Next(s, step);
    if step.Deliver? && Accepts(s.system, step.id, step.content) {
      assert t.system.accepted[step.p] == step.id;
    }
  }

  /** One step loses an event exactly by a crash of its process, or by giving up on its message uncommitted. */
  lemma LossOfOneStep(table: Table, s: State, step: Step, id: EventId)
    requires Invariant(table, s) && Enabled(s.system, s.history.sent, step)
    ensures Lost(Next(s, step), id) <==>
              Lost(s, id) || Crashes(s, step, id)
              || (GivesUp(s, step, id) && !Commits(s, step, id) && id !in s.history.ids)
  {
    IdsAfter(table, s, step, id);
    if p :| p in s.system.accepted && s.system.accepted[p] == id {
      HolderIsAlone(table, s, p);
      LossOfHeld(s, step, p, id);
    } else if m :| m in s.system.queue && s.system.queue[m].id == id {
      CarrierIsAlone(table, s, m);
      LossOfCarried(s, step, m, id);
    } else {
      LossOfNeither(s, step, id);
    }
  }

  lemma OrphanOfOneStep(table: Table, s: State, step: Step, id: EventId)
    requires Invariant(table, s) && Enabled(s.system, s.history.sent, step)
    ensures Orphaned(Next(s, step), id) <==> Orphaned(s, id) || Crashes(s, step, id)
  {
    var t := Next(s, step);
    if p :| p in s.system.accepted && s.system.accepted[p] == id {
      IdsAfter(table, s, step, id);
      HolderIsAlone(table, s, p);
      LossOfHeld(s, step, p, id);
    } else if m :| m in s.history.sent && s.history.sent[m] == id {
      assert m in t.history.sent && t.history.sent[m] == id;
    } else {
      OrphanOfUnpublished(s, step, id);
    }
  }

  lemma OrphanOfUnpublished(s: State, step: Step, id: EventId)
    requires Enabled(s.system, s.history.sent, step)
    requires id !in s.system.accepted.Values && id !in s.history.sent.Values
    ensures Orphaned(Next(s, step), id) <==> Orphaned(s, id)
  {
    var t := Next(s, step);
    if step.Deliver? && Accepts(s.system, step.id, step.content) {
      assert t.system.accepted[step.p] == step.id;
    }
  }

  // ---- Runs ----

  /** The state before step i. */
  function At(s: State, steps: seq<Step>, i: int): State
    requires 0 <= i <= |steps|
  {
    After(s, steps[..i])
  }

  predicate CrashesAt(s: State, steps: seq<Step>, i: int, id: EventId) {
    0 <= i < |steps| && Crashes(At(s, steps, i), steps[i], id)
  }

  predicate CommitsAt(s: State, steps: seq<Step>, i: int, id: EventId) {
    0 <= i < |steps| && Commits(At(s, steps, i), steps[i], id)
  }

  predicate GivesUpAt(s: State, steps: seq<Step>, i: int, id: EventId) {
    0 <= i < |steps| && GivesUp(At(s, steps, i), steps[i], id)
  }

  lemma {:induction false} PrefixOfRun(table: Table, now: Time, steps: seq<Step>, n: int)
    requires IsRun(Start(table, now), steps) && 0 <= n < |steps|
    ensures var s := At(Start(table, now), steps, n);
      && Invariant(table, s) && Enabled(s.system, s.history.sent, steps[n])
      && At(Start(table, now), steps, n + 1) == Next(s, steps[n])
  {
    assert steps[..n + 1][..n] == steps[..n];
    if n == |steps| - 1 {
      RunKeepsInvariant(table, now, steps[..n]);
    } else {
      var before := steps[..|steps| - 1];
      PrefixOfRun(table, now, before, n);
      assert before[..n] == steps[..n] && before[..n + 1] == steps[..n + 1];
    }
  }

  lemma {:induction false} ExecutedExactly(table: Table, now: Time, steps: seq<Step>, n: int, id: EventId)
    requires IsRun(Start(table, now), steps) && 0 <= n <= |steps|
    ensures id in At(Start(table, now), steps, n).history.ids <==>
              exists i :: i < n && CommitsAt(Start(table, now), steps, i, id)
    decreases n
  {
    if n == 0 {
    } else {
      var s := Start(table, now);
      PrefixOfRun(table, now, steps, n - 1);
      ExecutedExactly(table, now, steps, n - 1, id);
      IdsAfter(table, At(s, steps, n - 1), steps[n - 1], id);
      assert CommitsAt(s, steps, n - 1, id) <==> Commits(At(s, steps, n - 1), steps[n - 1], id);
    }
  }

  /** Step i loses the event: its process crashes before the publish, or an attempt without a further retry raises and
      no attempt at the event, up to and including this one, committed. */
  ghost predicate LosesAt(s: State, steps: seq<Step>, i: int, id: EventId) {
    || CrashesAt(s, steps, i, id)
    || (GivesUpAt(s, steps, i, id) && forall j :: j <= i ==> !CommitsAt(s, steps, j, id))
  }

  lemma LostAfterStep(table: Table, now: Time, steps: seq<Step>, n: int, id: EventId)
    requires IsRun(Start(table, now), steps) && 0 <= n < |steps|
    ensures var s := Start(table, now);
      Lost(At(s, steps, n + 1), id) <==> Lost(At(s, steps, n), id) || LosesAt(s, steps, n, id)
  {
    var s := Start(table, now);
    PrefixOfRun(table, now, steps, n);
    ExecutedExactly(table, now, steps, n, id);
    LossOfOneStep(table, At(s, steps, n), steps[n], id);
    LosesAtIsLocal(s, steps, n, id);
  }

  /** Whether step n loses the event can be read off the state before it. */
  lemma LosesAtIsLocal(s: State, steps: seq<Step>, n: int, id: EventId)
    requires 0 <= n < |steps|
    requires id in At(s, steps, n).history.ids <==> exists i :: i < n && CommitsAt(s, steps, i, id)
    ensures var before := At(s, steps, n);
      LosesAt(s, steps, n, id) <==>
        || Crashes(before, steps[n], id)
        || (GivesUp(before, steps[n], id) && !Commits(before, steps[n], id) && id !in before.history.ids)
  {
    assert CommitsAt(s, steps, n, id) <==> Commits(At(s, steps, n), steps[n], id);
    assert GivesUpAt(s, steps, n, id) <==> GivesUp(At(s, steps, n), steps[n], id);
    assert CrashesAt(s, steps, n, id) <==> Crashes(At(s, steps, n), steps[n], id);
  }

  lemma {:induction false} LostByStep(table: Table, now: Time, steps: seq<Step>, n: int, id: EventId)
    requires IsRun(Start(table, now), steps) && 0 <= n <= |steps|
    ensures Lost(At(Start(table, now), steps, n), id) <==>
              exists i :: i < n && LosesAt(Start(table, now), steps, i, id)
    decreases n
  {
    if n == 0 {
    } else {
      LostByStep(table, now, steps, n - 1, id);
      LostAfterStep(table, now, steps, n - 1, id);
    }
  }

  /** In every run an accepted event is lost exactly if its process crashed before the publish, or its message was
      dropped, because its last retry raised or a retry was refused, and no attempt had committed. */
  lemma LostExactly(table: Table, now: Time, steps: seq<Step>, id: EventId)
    requires IsRun(Start(table, now), steps)
    ensures Lost(After(Start(table, now), steps), id) <==>
              exists i :: LosesAt(Start(table, now), steps, i, id)
  {
    LostByStep(table, now, steps, |steps|, id);
    assert steps[..|steps|] == steps;
  }

  /** A logged event was never published exactly if its process crashed. */
  lemma {:induction false} OnlyACrashOrphans(table: Table, now: Time, steps: seq<Step>, n: int, id: EventId)
    requires IsRun(Start(table, now), steps) && 0 <= n <= |steps|
    ensures Orphaned(At(Start(table, now), steps, n), id) <==>
              exists i :: i < n && CrashesAt(Start(table, now), steps, i, id)
    decreases n
  {
    if n == 0 {
    } else {
      var s := Start(table, now);
      PrefixOfRun(table, now, steps, n - 1);
      OnlyACrashOrphans(table, now, steps, n - 1, id);
      OrphanOfOneStep(table, At(s, steps, n - 1), steps[n - 1], id);
      assert CrashesAt(s, steps, n - 1, id) <==> Crashes(At(s, steps, n - 1), steps[n - 1], id);
      assert Orphaned(At(s, steps, n), id) <==> Orphaned(At(s, steps, n - 1), id) || CrashesAt(s, steps, n - 1, id);
    }
  }

  lemma LostStays(s: State, step: Step, id: EventId)
    requires Lost(s, id)
    ensures Lost(Next(s, step), id)
  {
  }

  /** A lost event stays lost: every later delivery of it is taken for a duplicate. */
  lemma {:induction false} LostForever(s: State, steps: seq<Step>, id: EventId)
    requires Lost(s, id)
    ensures Lost(After(s, steps), id)
  {
    if steps == [] {
    } else {
      LostForever(s, steps[..|steps| - 1], id);
      LostStays(After(s, steps[..|steps| - 1]), steps[|steps| - 1], id);
    }
  }

  /** An orphaned event is never enqueued, whatever happens. */
  lemma {:induction false} OrphansAreNeverEnqueued(s: State, steps: seq<Step>, id: EventId)
    requires Orphaned(s, id)
    ensures Orphaned(After(s, steps), id)
  {
    if steps == [] {
    } else {
      OrphansAreNeverEnqueued(s, steps[..|steps| - 1], id);
    }
  }

  // ---- Both losses happen ----

  lemma RunGoesOn(s: State, steps: seq<Step>, step: Step)
    requires IsRun(s, steps) && Enabled(After(s, steps).system, After(s, steps).history.sent, step)
    ensures IsRun(s, steps + [step]) && After(s, steps + [step]) == Next(After(s, steps), step)
  {
    assert (steps + [step])[..|steps|] == steps;
  }

  /** Any handled event can be orphaned: it is delivered, and the process dies. */
  lemma {:induction false} ACrashOrphans(table: Table, now: Time, id: EventId, content: Logged)
    requires content.name in HANDLED_EVENTS
    ensures var s, steps := Start(table, now), [Deliver(0, id, content), Crash(0)];
      IsRun(s, steps) && Orphaned(After(s, steps), id) && Lost(After(s, steps), id)
  {
    var s, one := Start(table, now), [Deliver(0, id, content)];
    RunGoesOn(s, [], Deliver(0, id, content));
    assert [] + one == one;
    RunGoesOn(s, one, Crash(0));
    assert one + [Crash(0)] == [Deliver(0, id, content), Crash(0)];
  }

  /** An event that is published, and whose first n attempts raise. */
  function FailingRun(id: EventId, content: Logged, n: nat): seq<Step> {
    if n == 0 then [Deliver(0, id, content), Enqueue(0, 0)]
    else FailingRun(id, content, n - 1) + [Step.Attempt(0, false, Raised)]
  }

  function FailingState(table: Table, now: Time, id: EventId, content: Logged, n: nat): State {
    State(System(map[id := content], map[], map[0 := Message(id, content, n)], table, now),
          History(map[0 := id], map[0 := n], map[0 := 0], [], []))
  }

  lemma Published(table: Table, now: Time, id: EventId, content: Logged)
    requires content.name in HANDLED_EVENTS
    ensures IsRun(Start(table, now), FailingRun(id, content, 0))
    ensures After(Start(table, now), FailingRun(id, content, 0)) == FailingState(table, now, id, content, 0)
  {
    var s, one := Start(table, now), [Deliver(0, id, content)];
    RunGoesOn(s, [], Deliver(0, id, content));
    assert [] + one == one;
    RunGoesOn(s, one, Enqueue(0, 0));
    assert one + [Enqueue(0, 0)] == FailingRun(id, content, 0);
  }

  lemma FailOnce(table: Table, now: Time, id: EventId, content: Logged, n: nat)
    requires 1 <= n <= MAX_RETRIES
    ensures var before, step := FailingState(table, now, id, content, n - 1), Step.Attempt(0, false, Raised);
      && Enabled(before.system, before.history.sent, step)
      && Next(before, step) == FailingState(table, now, id, content, n)
  {
  }

  lemma {:induction false} StateOfFailingRun(table: Table, now: Time, id: EventId, content: Logged, n: nat)
    requires content.name in HANDLED_EVENTS && n <= MAX_RETRIES
    ensures IsRun(Start(table, now), FailingRun(id, content, n))
    ensures After(Start(table, now), FailingRun(id, content, n)) == FailingState(table, now, id, content, n)
  {
    if n == 0 {
      Published(table, now, id, content);
    } else {
      StateOfFailingRun(table, now, id, content, n - 1);
      FailOnce(table, now, id, content, n);
      var before, step := FailingRun(id, content, n - 1), Step.Attempt(0, false, Raised);
      RunGoesOn(Start(table, now), before, step);
      assert FailingRun(id, content, n) == before + [step];
    }
  }

  lemma FailForGood(table: Table, now: Time, id: EventId, content: Logged, n: nat, end: End)
    requires (end.RetryRefused? && n < MAX_RETRIES) || (end.Raised? && n == MAX_RETRIES)
    ensures var before, step := FailingState(table, now, id, content, n), Step.Attempt(0, false, end);
      && Enabled(before.system, before.history.sent, step)
      && Lost(Next(before, step), id) && !Orphaned(Next(before, step), id)
  {
    var after := Next(FailingState(table, now, id, content, n), Step.Attempt(0, false, end));
    assert after.history.sent[0] == id;
  }

  /** Any handled event can also be lost without a crash: by n attempts that raise, n at most 5, of which the last
      cannot publish its retry. */
  lemma {:induction false} RefusedRetryLosesAnEvent(table: Table, now: Time, id: EventId, content: Logged, n: nat)
    requires content.name in HANDLED_EVENTS && 1 <= n <= MAX_RETRIES
    ensures var s, steps := Start(table, now), FailingRun(id, content, n - 1) + [Step.Attempt(0, false, RetryRefused)];
      IsRun(s, steps) && Lost(After(s, steps), id) && !Orphaned(After(s, steps), id)
  {
    StateOfFailingRun(table, now, id, content, n - 1);
    FailForGood(table, now, id, content, n - 1, RetryRefused);
    RunGoesOn(Start(table, now), FailingRun(id, content, n - 1), Step.Attempt(0, false, RetryRefused));
  }

  /** Or by six attempts that raise. */
  lemma {:induction false} SixFailuresLoseAnEvent(table: Table, now: Time, id: EventId, content: Logged)
    requires content.name in HANDLED_EVENTS
    ensures var s, steps := Start(table, now), FailingRun(id, content, 6);
      IsRun(s, steps) && Lost(After(s, steps), id) && !Orphaned(After(s, steps), id)
  {
    StateOfFailingRun(table, now, id, content, 5);
    FailForGood(table, now, id, content, 5, Raised);
    RunGoesOn(Start(table, now), FailingRun(id, content, 5), Step.Attempt(0, false, Raised));
  }

  // ---- The view and the task ----

  datatype Reply = Ignored | Duplicate | Queued | ServerError

  datatype Fault = NoFault | BeforeCommit | AfterCommit

  class WebhookApp {
    var log: map<EventId, Logged>
    var queue: map<MessageId, Message>
    const billing: BillingService

    constructor (billing: BillingService)
      ensures this.billing == billing && log == map[] && queue == map[]
    {
      this.billing := billing;
      log, queue := map[], map[];
    }

    function Abstract(now: Time): System
      reads this, billing
    {
      System(log, map[], queue, billing.rows, now)
    }

    /** `StripeWebhookView.post` after signature validation: deliver, then publish if the broker is up. */
    method Post(id: EventId, name: string, obj: Payload, m: MessageId, brokerUp: bool, ghost now: Time)
      returns (reply: Reply)
      modifies this
      ensures var s := old(Abstract(now));
        var delivered := Apply(s, Deliver(0, id, Logged(name, obj)));
        && Abstract(now) == Apply(delivered, if brokerUp then Enqueue(0, m) else Crash(0))
        && (reply == Ignored <==> name !in HANDLED_EVENTS)
        && (reply == Duplicate <==> name in HANDLED_EVENTS && id in s.log)
        && (reply == Queued <==> Accepts(s, id, Logged(name, obj)) && brokerUp)
    {
      ghost var s := Abstract(now);
      assert s.accepted - {0} == s.accepted;
      if name !in HANDLED_EVENTS {
        return Ignored;
      }
      if id in log {
        return Duplicate;
      }
      log := log[id := Logged(name, obj)];
      ghost var accepted: map<Pid, EventId> := map[0 := id];
      assert accepted - {0} == map[];
      if !brokerUp {
        return ServerError;
      }
      queue := queue[m := Message(id, Logged(name, obj), 0)];
      return Queued;
    }

    /** `handle_stripe_event`: one attempt. A fault stands for anything else that raises before the commit, or after
        it (publishing the dunning mail). Whatever raises is retried, at most MAX_RETRIES times, if the broker is up. */
    method HandleStripeEvent(m: MessageId, now: Time, fault: Fault, brokerUp: bool)
      requires m in queue && UniqueIds(billing.rows)
      modifies this, billing
      ensures var s := old(Abstract(now));
        var raises := Raises(s.table, EventOf(s.queue[m].content));
        var committed := !raises && fault != BeforeCommit;
        var end := if committed && fault == NoFault then Returned
                   else if s.queue[m].retries < MAX_RETRIES && !brokerUp then RetryRefused
                   else Raised;
        && Abstract(now) == Apply(s, Step.Attempt(m, committed, end))
        && UniqueIds(billing.rows)
      ensures log == old(log)
    {
      var message := queue[m];
      var raised := true;
      if fault != BeforeCommit {
        raised := billing.ProcessEvent(EventOf(message.content), now);
        if raised {
          RaisingChangesNothing(old(billing.rows), EventOf(message.content), now);
        }
        if fault == AfterCommit { raised := true; }
      }
      assert raised <==> Raises(old(billing.rows), EventOf(message.content)) || fault != NoFault;
      if !raised {
        queue := queue - {m};
      } else if message.retries < MAX_RETRIES && brokerUp {
        queue := queue[m := message.(retries := message.retries + 1)];
      } else {
        queue := queue - {m};
      }
    }
  }

  /** A handler that raises leaves the table as it was. */
  lemma RaisingChangesNothing(table: Table, event: Event, now: Time)
    requires UniqueIds(table) && Raises(table, event)
    ensures Execute(table, event, now) == table
  {
  }
}
