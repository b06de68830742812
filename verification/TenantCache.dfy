/** apps/tenants/middleware.py: resolving a tenant from a host through a cache with two time-to-live values.

    A resolve is three steps of one process: look in the cache, read the Domain table, store what was read. Other
    processes, table writes, the clock and evictions may come in between, so the protocol is a state machine over
    these steps, and the claims are about every run of it. */
module TenantCache {
  import opened Prelude
  import opened Tenants

  const TENANT_CACHE_TTL: nat := 300
  const NEGATIVE_CACHE_TTL: nat := 60

  type Host = string
  type Pid = nat

  /** What the Domain table says of each registered host. */
  type Table = map<Host, Resolved>

  /** A cached answer; `None` is the "not found" sentinel. */
  datatype Entry = Entry(answer: Option<Resolved>, expires: nat)

  function TimeToLive(answer: Option<Resolved>): nat {
    if answer.Some? then TENANT_CACHE_TTL else NEGATIVE_CACHE_TTL
  }

  /** A process that missed the cache, and one that has read the table and not yet stored its answer. */
  datatype Process = Missed(host: Host) | HasRead(host: Host, answer: Option<Resolved>)

  datatype State = State(now: nat, table: Table, cache: map<Host, Entry>, processes: map<Pid, Process>)

  datatype Step =
    | Tick(seconds: nat)
    | Write(table: Table)          // any change to Domain or Tenant rows
    | Invalidate(host: Host)       // `invalidate_cache`
    | Evict(host: Host)            // the cache backend drops an entry
    | Get(p: Pid, host: Host)      // a resolve begins with `cache.get`
    | Read(p: Pid)                 // `Domain.objects.get`
    | Store(p: Pid)                // `cache.set`, and the answer is returned

  function Ask(table: Table, host: Host): Option<Resolved> {
    if host in table then Some(table[host]) else None
  }

  predicate Hit(s: State, host: Host) {
    host in s.cache && s.now < s.cache[host].expires
  }

  /** A process reads after a miss and stores after a read. */
  predicate Enabled(s: State, step: Step) {
    match step
    case Read(p) => p in s.processes && s.processes[p].Missed?
    case Store(p) => p in s.processes && s.processes[p].HasRead?
    case _ => true
  }

  function Apply(s: State, step: Step): State {
    match step
    case Tick(seconds) => s.(now := s.now + seconds)
    case Write(table) => s.(table := table)
    case Invalidate(host) => s.(cache := s.cache - {host})
    case Evict(host) => s.(cache := s.cache - {host})
    case Get(p, host) =>
      if Hit(s, host) then s.(processes := s.processes - {p})
      else s.(processes := s.processes[p := Missed(host)])
    case Read(p) =>
      if Enabled(s, step) then
        var host := s.processes[p].host;
        s.(processes := s.processes[p := HasRead(host, Ask(s.table, host))])
      else s
    case Store(p) =>
      if Enabled(s, step) then
        var read := s.processes[p];
        s.(cache := s.cache[read.host := Entry(read.answer, s.now + TimeToLive(read.answer))],
           processes := s.processes - {p})
      else s
  }

  datatype Reply = Reply(host: Host, answer: Option<Resolved>)

  /** The answer a step gives to its caller, if it ends a resolve. */
  function Answer(s: State, step: Step): Option<Reply> {
    match step
    case Get(p, host) => if Hit(s, host) then Some(Reply(host, s.cache[host].answer)) else None
    case Store(p) =>
      if Enabled(s, step) then Some(Reply(s.processes[p].host, s.processes[p].answer))
      else None
    case _ => None
  }

  /** Before any request: nothing cached, nobody resolving. */
  predicate Initial(s: State) { s.cache == map[] && s.processes == map[] }

  function Run(s: State, steps: seq<Step>): State {
    if steps == [] then s else Apply(Run(s, steps[..|steps| - 1]), steps[|steps| - 1])
  }

  /** The state before step i. */
  function At(s: State, steps: seq<Step>, i: nat): State
    requires i <= |steps|
  {
    Run(s, steps[..i])
  }

  /** A run: it starts from nothing and takes only steps that are enabled. */
  ghost predicate IsRun(s: State, steps: seq<Step>) {
    Initial(s) && forall i :: 0 <= i < |steps| ==> EnabledAt(s, steps, i)
  }

  predicate EnabledAt(s: State, steps: seq<Step>, i: nat)
    requires i < |steps|
  {
    Enabled(At(s, steps, i), steps[i])
  }

  // ---- Where an answer comes from ----

  predicate ActsFor(step: Step, p: Pid) {
    (step.Get? || step.Read? || step.Store?) && step.p == p
  }

  /** Step i is p's read of the table, and it gave `answer` for `host`. */
  ghost predicate ReadAt(s: State, steps: seq<Step>, i: nat, p: Pid, host: Host, answer: Option<Resolved>) {
    && i < |steps| && steps[i] == Read(p)
    && p in At(s, steps, i).processes && At(s, steps, i).processes[p] == Missed(host)
    && answer == Ask(At(s, steps, i).table, host)
  }

  /** Step j is p's store of that answer, in the same resolve as its read at i. */
  ghost predicate StoredAt(s: State, steps: seq<Step>, i: nat, j: nat, p: Pid, host: Host, answer: Option<Resolved>) {
    && i < j < |steps| && steps[j] == Store(p)
    && ReadAt(s, steps, i, p, host, answer)
    && forall k :: i < k < j ==> !ActsFor(steps[k], p)
  }

  lemma NextState(s: State, steps: seq<Step>, i: nat)
    requires i < |steps|
    ensures At(s, steps, i + 1) == Apply(At(s, steps, i), steps[i])
  {
    assert steps[..i + 1][..i] == steps[..i];
  }

  lemma {:induction false} ClockIsMonotonic(s: State, steps: seq<Step>, i: nat, j: nat)
    requires i <= j <= |steps|
    ensures At(s, steps, i).now <= At(s, steps, j).now
    decreases j
  {
    if i == j {
    } else {
      ClockIsMonotonic(s, steps, i, j - 1);
      NextState(s, steps, j - 1);
    }
  }

  /** A process that is about to store got its answer from the table, and has done nothing since. */
  lemma {:induction false} ReadOfProcess(s: State, steps: seq<Step>, n: nat, p: Pid) returns (i: nat)
    requires IsRun(s, steps) && n <= |steps|
    requires p in At(s, steps, n).processes && At(s, steps, n).processes[p].HasRead?
    ensures i < n
    ensures ReadAt(s, steps, i, p, At(s, steps, n).processes[p].host, At(s, steps, n).processes[p].answer)
    ensures forall k :: i < k < n ==> !ActsFor(steps[k], p)
    decreases n
  {
    assert n > 0;
    NextState(s, steps, n - 1);
    assert EnabledAt(s, steps, n - 1);
    if steps[n - 1] == Read(p) {
      i := n - 1;
    } else {
      i := ReadOfProcess(s, steps, n - 1, p);
    }
  }

  /** A cached entry was stored by one resolve, after its last invalidation, with the time to live of its kind. */
  lemma {:induction false} StoreOfEntry(s: State, steps: seq<Step>, n: nat, host: Host)
    returns (p: Pid, i: nat, j: nat)
    requires IsRun(s, steps) && n <= |steps|
    requires host in At(s, steps, n).cache
    ensures j < n && StoredAt(s, steps, i, j, p, host, At(s, steps, n).cache[host].answer)
    ensures At(s, steps, n).cache[host].expires
            == At(s, steps, j).now + TimeToLive(At(s, steps, n).cache[host].answer)
    ensures forall k :: j < k < n ==> steps[k] != Invalidate(host)
    decreases n
  {
    assert n > 0;
    NextState(s, steps, n - 1);
    var before, step := At(s, steps, n - 1), steps[n - 1];
    if step.Store? && step.p in before.processes && before.processes[step.p].HasRead?
       && before.processes[step.p].host == host {
      p, j := step.p, n - 1;
      i := ReadOfProcess(s, steps, n - 1, p);
    } else {
      p, i, j := StoreOfEntry(s, steps, n - 1, host);
    }
  }

  /** The reply at step k is what the table said at step i, was stored at step j of the same resolve, was still
      within its time to live, and no invalidation of its host lies between the store and the reply. */
  ghost predicate Explains(s: State, steps: seq<Step>, k: nat, reply: Reply, p: Pid, i: nat, j: nat) {
    && j <= k < |steps|
    && StoredAt(s, steps, i, j, p, reply.host, reply.answer)
    && At(s, steps, k).now < At(s, steps, j).now + TimeToLive(reply.answer)
    && forall m :: j < m < k ==> steps[m] != Invalidate(reply.host)
  }

  ghost predicate Explained(s: State, steps: seq<Step>, k: nat, reply: Reply) {
    exists p, i, j :: Explains(s, steps, k, reply, p, i, j)
  }

  /** Bounded staleness, in every interleaving: an answer is what the table said less than its time to live plus the
      resolve's own read-to-store gap before; see `Explains`. */
  lemma BoundedStaleness(s: State, steps: seq<Step>, k: nat)
    requires IsRun(s, steps) && k < |steps| && Answer(At(s, steps, k), steps[k]).Some?
    ensures Explained(s, steps, k, Answer(At(s, steps, k), steps[k]).value)
  {
    var reply := Answer(At(s, steps, k), steps[k]).value;
    var p, i, j;
    if steps[k].Get? {
      p, i, j := StoreOfEntry(s, steps, k, reply.host);
    } else {
      p, j := steps[k].p, k;
      i := ReadOfProcess(s, steps, k, p);
    }
    assert Explains(s, steps, k, reply, p, i, j);
  }

  /** In seconds: the age of an answer, counted from the read behind it, is less than 300 s (60 s for "not found")
      plus the time that its resolve took from this read to its store. */
  lemma AgeOfAnswer(s: State, steps: seq<Step>, k: nat)
    requires IsRun(s, steps) && k < |steps| && Answer(At(s, steps, k), steps[k]).Some?
    ensures var reply := Answer(At(s, steps, k), steps[k]).value;
      exists p: Pid, i: nat, j: nat ::
        && j <= k && StoredAt(s, steps, i, j, p, reply.host, reply.answer)
        && At(s, steps, k).now - At(s, steps, i).now
           < (if reply.answer.Some? then 300 else 60) + (At(s, steps, j).now - At(s, steps, i).now)
  {
    BoundedStaleness(s, steps, k);
    var reply := Answer(At(s, steps, k), steps[k]).value;
    var p: Pid, i: nat, j: nat :| Explains(s, steps, k, reply, p, i, j);
    assert StoredAt(s, steps, i, j, p, reply.host, reply.answer);
  }

  // ---- Invalidation ----

  /** Step k answers somebody who asked for this host. */
  predicate AnswersFor(s: State, steps: seq<Step>, k: int, host: Host) {
    0 <= k < |steps| && Answer(At(s, steps, k), steps[k]).Some? && Answer(At(s, steps, k), steps[k]).value.host == host
  }

  /** That answer is what the table said at some moment from step m on. */
  ghost predicate FreshSince(s: State, steps: seq<Step>, m: int, k: int, host: Host)
    requires AnswersFor(s, steps, k, host)
  {
    exists i {:trigger At(s, steps, i)} ::
      0 <= m <= i <= k && Answer(At(s, steps, k), steps[k]).value.answer == Ask(At(s, steps, i).table, host)
  }

  lemma {:induction false} ProcessStands(s: State, steps: seq<Step>, i: nat, n: nat, p: Pid)
    requires i <= n <= |steps| && p in At(s, steps, i).processes
    requires forall k :: i <= k < n ==> !ActsFor(steps[k], p)
    ensures p in At(s, steps, n).processes && At(s, steps, n).processes[p] == At(s, steps, i).processes[p]
    decreases n
  {
    if i == n {
    } else {
      ProcessStands(s, steps, i, n - 1, p);
      NextState(s, steps, n - 1);
    }
  }

  /** An answer after an invalidation is not older than the invalidation, or it is the one that a resolve held at
      that moment, read and not yet stored. */
  lemma InvalidationSparesOnlyOpenResolves(s: State, steps: seq<Step>, m: nat, k: nat, host: Host)
    requires IsRun(s, steps) && m < k && AnswersFor(s, steps, k, host) && steps[m] == Invalidate(host)
    ensures FreshSince(s, steps, m, k, host)
            || HasRead(host, Answer(At(s, steps, k), steps[k]).value.answer) in At(s, steps, m).processes.Values
  {
    BoundedStaleness(s, steps, k);
    var reply := Answer(At(s, steps, k), steps[k]).value;
    var p: Pid, i: nat, j: nat :| Explains(s, steps, k, reply, p, i, j);
    if i < m {
      assert m < j;
      NextState(s, steps, i);
      ProcessStands(s, steps, i + 1, m, p);
    }
  }

  /** No resolve of the host holds an answer that the table has since taken back. */
  predicate NothingStaleInFlight(s: State, host: Host) {
    forall p :: p in s.processes && s.processes[p].HasRead? && s.processes[p].host == host ==>
      s.processes[p].answer == Ask(s.table, host)
  }

  /** In every run that goes on from here with an invalidation of the host, each later answer for the host is what
      the table said at the invalidation or after it. */
  ghost predicate InvalidationBusts(s: State, steps: seq<Step>, host: Host) {
    forall run, k ::
      IsRun(s, run) && |steps| < k && steps + [Invalidate(host)] <= run && AnswersFor(s, run, k, host) ==>
        FreshSince(s, run, |steps|, k, host)
  }

  /** Exactly when `invalidate_cache` busts the cache for good: no resolve of the host is under way with an answer
      that is already out of date. */
  lemma InvalidationBustsExactly(s: State, steps: seq<Step>, host: Host)
    requires IsRun(s, steps)
    ensures InvalidationBusts(s, steps, host) <==> NothingStaleInFlight(At(s, steps, |steps|), host)
  {
    var m := |steps|;
    if NothingStaleInFlight(At(s, steps, m), host) {
      forall run, k | IsRun(s, run) && m < k && steps + [Invalidate(host)] <= run && AnswersFor(s, run, k, host)
        ensures FreshSince(s, run, m, k, host)
      {
        assert run[..m] == steps[..m];
        assert run[m] == (steps + [Invalidate(host)])[m];
        InvalidationSparesOnlyOpenResolves(s, run, m, k, host);
        assert At(s, run, m) == At(s, steps, m);
      }
    }
    if p :| p in At(s, steps, m).processes && At(s, steps, m).processes[p].HasRead?
            && At(s, steps, m).processes[p].host == host
            && At(s, steps, m).processes[p].answer != Ask(At(s, steps, m).table, host) {
      OutrunFrom(s, steps, host, p);
    }
  }

  /** Such a resolve can store what it holds right after the invalidation, and answers with it. */
  lemma OutrunFrom(s: State, steps: seq<Step>, host: Host, p: Pid)
    requires IsRun(s, steps)
    requires p in At(s, steps, |steps|).processes && At(s, steps, |steps|).processes[p].HasRead?
    requires At(s, steps, |steps|).processes[p].host == host
    requires At(s, steps, |steps|).processes[p].answer != Ask(At(s, steps, |steps|).table, host)
    ensures !InvalidationBusts(s, steps, host)
  {
    var m, run := |steps|, steps + [Invalidate(host), Store(p)];
    assert run[..m] == steps[..m];
    NextState(s, run, m);
    forall i | 0 <= i < |run|
      ensures EnabledAt(s, run, i)
    {
      if i < m {
        assert EnabledAt(s, steps, i) && run[..i] == steps[..i];
      }
    }
    assert steps + [Invalidate(host)] <= run && AnswersFor(s, run, m + 1, host);
    assert !FreshSince(s, run, m, m + 1, host);
  }

  /** An entry that is deleted or dropped is missed by the next look-up, and no other host's entry is touched. */
  lemma DroppedEntryIsMissed(s: State, step: Step, p: Pid)
    requires step.Invalidate? || step.Evict?
    ensures var t := Apply(s, step);
      && t == s.(cache := t.cache) && Answer(t, Get(p, step.host)) == None
      && forall other :: other != step.host ==> Answer(t, Get(p, other)) == Answer(s, Get(p, other))
  {
  }

  // ---- Atomic resolves ----

  /** Every resolve that reaches the table stores what it read before anything else happens. */
  ghost predicate AtomicResolves(steps: seq<Step>) {
    forall j :: 0 <= j < |steps| && steps[j].Store? ==> j >= 1 && steps[j - 1] == Read(steps[j].p)
  }

  /** The store comes right after its read, and answers with what the table says at that moment. */
  lemma AtomicStore(s: State, steps: seq<Step>, i: nat, j: nat, p: Pid, host: Host, answer: Option<Resolved>)
    requires AtomicResolves(steps) && StoredAt(s, steps, i, j, p, host, answer)
    ensures i + 1 == j && At(s, steps, j).now == At(s, steps, i).now
    ensures Answer(At(s, steps, j), steps[j]) == Some(Reply(host, answer)) && answer == Ask(At(s, steps, j).table, host)
  {
    assert ActsFor(steps[j - 1], p);
    NextState(s, steps, i);
  }

  /** With atomic resolves the bounds are 300 and 60, and no answer predates an invalidation of its host. */
  lemma AtomicBounds(s: State, steps: seq<Step>, k: nat)
    requires IsRun(s, steps) && AtomicResolves(steps)
    requires k < |steps| && Answer(At(s, steps, k), steps[k]).Some?
    ensures var reply := Answer(At(s, steps, k), steps[k]).value;
      exists i {:trigger At(s, steps, i)} :: 0 <= i < k
        && reply.answer == Ask(At(s, steps, i).table, reply.host)
        && At(s, steps, k).now - At(s, steps, i).now < (if reply.answer.Some? then 300 else 60)
        && forall m :: i < m < k ==> steps[m] != Invalidate(reply.host)
  {
    BoundedStaleness(s, steps, k);
    var reply := Answer(At(s, steps, k), steps[k]).value;
    var p: Pid, i: nat, j: nat :| Explains(s, steps, k, reply, p, i, j);
    AtomicStore(s, steps, i, j, p, reply.host, reply.answer);
  }

  /** So the first answer for a host after its invalidation agrees with the table, whatever was written meanwhile. */
  lemma FreshAfterInvalidation(s: State, steps: seq<Step>, m: nat, k: nat, host: Host)
    requires IsRun(s, steps) && AtomicResolves(steps)
    requires m < k && AnswersFor(s, steps, k, host) && steps[m] == Invalidate(host)
    requires forall n :: m < n < k ==> !AnswersFor(s, steps, n, host)
    ensures Answer(At(s, steps, k), steps[k]).value.answer == Ask(At(s, steps, k).table, host)
  {
    BoundedStaleness(s, steps, k);
    var reply := Answer(At(s, steps, k), steps[k]).value;
    var p: Pid, i: nat, j: nat :| Explains(s, steps, k, reply, p, i, j);
    AtomicStore(s, steps, i, j, p, host, reply.answer);
    assert AnswersFor(s, steps, j, host);
  }

  /** Later answers agree with the table as long as it has not changed since the invalidation. */
  lemma FreshUntilWritten(s: State, steps: seq<Step>, m: nat, k: nat, host: Host)
    requires IsRun(s, steps) && AtomicResolves(steps)
    requires m < k && AnswersFor(s, steps, k, host) && steps[m] == Invalidate(host)
    requires forall n :: m < n < k ==> !steps[n].Write?
    ensures Answer(At(s, steps, k), steps[k]).value.answer == Ask(At(s, steps, k).table, host)
  {
    AtomicBounds(s, steps, k);
    var reply := Answer(At(s, steps, k), steps[k]).value;
    var i :| 0 <= i < k && reply.answer == Ask(At(s, steps, i).table, reply.host)
      && forall m :: i < m < k ==> steps[m] != Invalidate(reply.host);
    TableStands(s, steps, i, k);
  }

  lemma {:induction false} TableStands(s: State, steps: seq<Step>, i: nat, k: nat)
    requires i <= k <= |steps| && forall n :: i <= n < k ==> !steps[n].Write?
    ensures At(s, steps, k).table == At(s, steps, i).table
    decreases k
  {
    if i == k {
    } else {
      TableStands(s, steps, i, k - 1);
      NextState(s, steps, k - 1);
    }
  }

  /** A host that was never registered before step c, and is registered for one tenant from then on, resolves to
      that tenant no later than 60 seconds after c: "not found" cannot have been cached for longer. */
  lemma NewDomainAppearsInTime(s: State, steps: seq<Step>, c: nat, k: nat, tenant: Resolved)
    requires IsRun(s, steps) && AtomicResolves(steps)
    requires c < k < |steps| && Answer(At(s, steps, k), steps[k]).Some?
    requires var host := Answer(At(s, steps, k), steps[k]).value.host;
      && (forall i {:trigger At(s, steps, i)} :: 0 <= i <= c ==> Ask(At(s, steps, i).table, host) == None)
      && (forall i {:trigger At(s, steps, i)} :: c < i <= k ==> Ask(At(s, steps, i).table, host) == Some(tenant))
    requires At(s, steps, c).now + 60 <= At(s, steps, k).now
    ensures Answer(At(s, steps, k), steps[k]).value.answer == Some(tenant)
  {
    AtomicBounds(s, steps, k);
    var reply := Answer(At(s, steps, k), steps[k]).value;
    var i :| 0 <= i < k && reply.answer == Ask(At(s, steps, i).table, reply.host)
      && At(s, steps, k).now - At(s, steps, i).now < (if reply.answer.Some? then 300 else 60);
    if i <= c {
      ClockIsMonotonic(s, steps, i, c);
    }
  }

  /** Any other change, be it a move, a deactivation or a deletion, is answered 300 seconds later at the latest. */
  lemma ChangeAppearsInTime(s: State, steps: seq<Step>, c: nat, k: nat, answer: Option<Resolved>)
    requires IsRun(s, steps) && AtomicResolves(steps)
    requires c < k < |steps| && Answer(At(s, steps, k), steps[k]).Some?
    requires var host := Answer(At(s, steps, k), steps[k]).value.host;
      forall i {:trigger At(s, steps, i)} :: c < i <= k ==> Ask(At(s, steps, i).table, host) == answer
    requires At(s, steps, c).now + 300 <= At(s, steps, k).now
    ensures Answer(At(s, steps, k), steps[k]).value.answer == answer
  {
    AtomicBounds(s, steps, k);
    var reply := Answer(At(s, steps, k), steps[k]).value;
    var i :| 0 <= i < k && reply.answer == Ask(At(s, steps, i).table, reply.host)
      && At(s, steps, k).now - At(s, steps, i).now < (if reply.answer.Some? then 300 else 60);
    if i <= c {
      ClockIsMonotonic(s, steps, i, c);
    }
  }

  /** The tables of the tenant service as the middleware asks them. */
  ghost predicate Reflects(table: Table, tables: Tables)
    requires DatabaseKeys(tables)
  {
    forall host :: Ask(table, host) == LookUp(tables, host)
  }

  /** End to end: a tenant made by `create_tenant` at step c, for a domain that was never registered before, answers
      under that domain 60 seconds later at the latest, although creation leaves the cache alone. Later writes may
      change anything but this domain. */
  lemma NewTenantAppearsInTime(s: State, steps: seq<Step>, c: nat, k: nat, tables: Tables, call: Call)
    requires IsRun(s, steps) && AtomicResolves(steps)
    requires c < k < |steps| && Answer(At(s, steps, k), steps[k]).Some? && steps[c].Write?
    requires Answer(At(s, steps, k), steps[k]).value.host == Lower(Strip(call.domain))
    requires DatabaseKeys(tables) && call.tid !in tables.tenants && call.did !in tables.domains
    requires var (after, outcome) :=
      Create(tables, call.name, call.schema, call.domain, call.isPrimary, call.tid, call.did);
      outcome.Created? && DatabaseKeys(after) && Reflects(steps[c].table, after)
    requires forall i {:trigger At(s, steps, i)} :: 0 <= i <= c ==>
      Ask(At(s, steps, i).table, Lower(Strip(call.domain))) == None
    requires forall i :: c < i < k && steps[i].Write? ==>
      Ask(steps[i].table, Lower(Strip(call.domain))) == Ask(steps[c].table, Lower(Strip(call.domain)))
    requires At(s, steps, c).now + 60 <= At(s, steps, k).now
    ensures Answer(At(s, steps, k), steps[k]).value.answer == Some(Resolved(call.tid, true))
  {
    var host := Lower(Strip(call.domain));
    CreationRegistersOneHost(tables, call);
    forall i {:trigger At(s, steps, i)} | c < i <= k
      ensures Ask(At(s, steps, i).table, host) == Some(Resolved(call.tid, true))
    {
      AnswerStands(s, steps, c, i, host);
    }
    NewDomainAppearsInTime(s, steps, c, k, Resolved(call.tid, true));
  }

  lemma {:induction false} AnswerStands(s: State, steps: seq<Step>, c: nat, n: nat, host: Host)
    requires c < n <= |steps| && steps[c].Write?
    requires forall i :: c < i < n && steps[i].Write? ==> Ask(steps[i].table, host) == Ask(steps[c].table, host)
    ensures Ask(At(s, steps, n).table, host) == Ask(steps[c].table, host)
    decreases n
  {
    NextState(s, steps, n - 1);
    if c + 1 == n {
    } else {
      AnswerStands(s, steps, c, n - 1, host);
    }
  }

  // ---- The bounds are attained, and the gap is needed ----

  /** One resolve, then the table changes its mind about the host, d seconds pass, and a second resolve begins. */
  function StaleRun(host: Host, after: Table, d: nat): seq<Step> {
    [Get(0, host), Read(0), Store(0), Write(after), Tick(d), Get(1, host)]
  }

  /** The second resolve gives the old answer if and only if d is less than the old answer's time to live: 300 for
      a tenant, 60 for "not found". */
  lemma BoundsAreAttained(start: nat, before: Table, after: Table, host: Host, d: nat)
    ensures var s, steps := State(start, before, map[], map[]), StaleRun(host, after, d);
      && IsRun(s, steps) && AtomicResolves(steps)
      && Ask(At(s, steps, 5).table, host) == Ask(after, host)
      && (Answer(At(s, steps, 5), steps[5]) == Some(Reply(host, Ask(before, host)))
          <==> d < (if host in before then 300 else 60))
  {
    var s, steps := State(start, before, map[], map[]), StaleRun(host, after, d);
    RunOfFive(s, steps);
  }

  lemma RunOfFive(s: State, steps: seq<Step>)
    requires |steps| == 6 && Initial(s)
    ensures At(s, steps, 5)
            == Apply(Apply(Apply(Apply(Apply(s, steps[0]), steps[1]), steps[2]), steps[3]), steps[4])
    ensures steps[0].Get? && steps[5].Get?
            && Enabled(Apply(s, steps[0]), steps[1])
            && Enabled(Apply(Apply(s, steps[0]), steps[1]), steps[2])
            && Enabled(Apply(Apply(Apply(s, steps[0]), steps[1]), steps[2]), steps[3])
            && Enabled(Apply(Apply(Apply(Apply(s, steps[0]), steps[1]), steps[2]), steps[3]), steps[4])
            ==> IsRun(s, steps)
  {
    assert At(s, steps, 0) == s;
    NextState(s, steps, 0);
    NextState(s, steps, 1);
    NextState(s, steps, 2);
    NextState(s, steps, 3);
    NextState(s, steps, 4);
    assert IsRun(s, steps) <==> EnabledAt(s, steps, 0) && EnabledAt(s, steps, 1) && EnabledAt(s, steps, 2)
                                && EnabledAt(s, steps, 3) && EnabledAt(s, steps, 4) && EnabledAt(s, steps, 5);
  }

  /** Without atomic resolves an invalidation can be undone: a resolve that read before it stores after it. */
  function RacingRun(host: Host, after: Table): seq<Step> {
    [Get(0, host), Read(0), Write(after), Invalidate(host), Store(0), Get(1, host)]
  }

  lemma InvalidationCanBeOutrun(start: nat, before: Table, after: Table, host: Host)
    ensures var s, steps := State(start, before, map[], map[]), RacingRun(host, after);
      && IsRun(s, steps)
      && Ask(At(s, steps, 5).table, host) == Ask(after, host)
      && Answer(At(s, steps, 5), steps[5]) == Some(Reply(host, Ask(before, host)))
  {
    RunOfFive(State(start, before, map[], map[]), RacingRun(host, after));
  }

  // ---- The middleware ----

  /** A resolve that nothing interrupts, as its steps compose. */
  function ResolveNow(s: State, host: Host): (State, Option<Resolved>) {
    if Hit(s, host) then (Apply(s, Get(0, host)), s.cache[host].answer)
    else
      var read := Apply(Apply(s, Get(0, host)), Read(0));
      (Apply(read, Store(0)), read.processes[0].answer)
  }

  lemma RunOfThree(s: State, steps: seq<Step>)
    requires |steps| == 3
    ensures At(s, steps, 0) == s && At(s, steps, 1) == Apply(s, steps[0])
    ensures At(s, steps, 2) == Apply(Apply(s, steps[0]), steps[1])
    ensures Run(s, steps) == Apply(Apply(Apply(s, steps[0]), steps[1]), steps[2])
  {
    assert At(s, steps, 0) == s;
    NextState(s, steps, 0);
    NextState(s, steps, 1);
    NextState(s, steps, 2);
    assert steps[..3] == steps;
  }

  lemma MissAloneIsARun(s: State, host: Host)
    requires s.processes == map[] && !Hit(s, host)
    ensures var steps := [Get(0, host), Read(0), Store(0)];
      && (forall i :: 0 <= i < |steps| ==> EnabledAt(s, steps, i))
      && Run(s, steps) == ResolveNow(s, host).0
      && Answer(At(s, steps, 2), steps[2]) == Some(Reply(host, ResolveNow(s, host).1))
  {
    RunOfThree(s, [Get(0, host), Read(0), Store(0)]);
  }

  /** It is a run of the protocol, and its answer is the protocol's answer. */
  lemma ResolveAloneIsARun(s: State, host: Host)
    requires s.processes == map[]
    ensures var steps := if Hit(s, host) then [Get(0, host)] else [Get(0, host), Read(0), Store(0)];
      && (forall i :: 0 <= i < |steps| ==> EnabledAt(s, steps, i))
      && Run(s, steps) == ResolveNow(s, host).0
      && Answer(At(s, steps, |steps| - 1), steps[|steps| - 1]) == Some(Reply(host, ResolveNow(s, host).1))
  {
    if Hit(s, host) {
      assert [Get(0, host)][..0] == [];
    } else {
      MissAloneIsARun(s, host);
    }
  }

  /** A live entry is the answer; without one the table is, and is remembered for 300 or 60 seconds. */
  lemma ResolveExactly(s: State, host: Host)
    requires s.processes == map[]
    ensures var (t, answer) := ResolveNow(s, host);
      if host in s.cache && s.now < s.cache[host].expires then t == s && answer == s.cache[host].answer
      else if host in s.table then
        answer == Some(s.table[host]) && t == s.(cache := s.cache[host := Entry(answer, s.now + 300)])
      else
        answer == None && t == s.(cache := s.cache[host := Entry(None, s.now + 60)])
  {
    assert s.processes - {0} == s.processes;
    if !Hit(s, host) {
      var read := Apply(Apply(s, Get(0, host)), Read(0));
      assert read.processes - {0} == s.processes;
    }
  }

  const EXEMPT_PREFIXES: set<string> :=
    {"/admin/", "/health/", "/ready/", "/api/schema/", "/api/docs/", "/api/redoc/", "/static/"}

  predicate Exempt(path: string) {
    exists prefix :: prefix in EXEMPT_PREFIXES && prefix <= path
  }

  /** `host.split(":")[0]` */
  function WithoutPort(host: string): string {
    if host == "" || host[0] == ':' then "" else host[..1] + WithoutPort(host[1..])
  }

  lemma {:induction false} WithoutPortStripsThePort(name: string, port: string)
    requires ':' !in name
    ensures WithoutPort(name) == name && WithoutPort(name + ":" + port) == name
  {
    if name == "" {
      assert (name + ":" + port)[0] == ':';
    } else {
      assert (name + ":" + port)[1..] == name[1..] + ":" + port;
      WithoutPortStripsThePort(name[1..], port);
      assert (name + ":" + port)[..1] == name[..1];
    }
  }

  /** `View` records what the view found in `request.tenant` and in the tenant context. */
  datatype Response = NotFound | TenantInactive | View(requestTenant: Option<Resolved>, context: Option<nat>)

  class TenantMiddleware {
    var cache: map<Host, Entry>
    var table: Table
    var now: nat
    var currentTenant: Option<nat>    // services.tenant_context

    constructor (table: Table, now: nat)
      ensures cache == map[] && this.table == table && this.now == now && currentTenant == None
    {
      cache, this.table, this.now, currentTenant := map[], table, now, None;
    }

    function Abstract(): State
      reads this
    {
      State(now, table, cache, map[])
    }

    method ResolveTenant(host: Host) returns (tenant: Option<Resolved>)
      modifies this`cache
      ensures (Abstract(), tenant) == ResolveNow(old(Abstract()), host)
    {
      if host in cache && now < cache[host].expires {
        return cache[host].answer;
      }
      if host in table {
        tenant := Some(table[host]);
        cache := cache[host := Entry(tenant, now + TENANT_CACHE_TTL)];
      } else {
        tenant := None;
        cache := cache[host := Entry(None, now + NEGATIVE_CACHE_TTL)];
      }
    }

    method InvalidateCache(host: Host)
      modifies this`cache
      ensures Abstract() == Apply(old(Abstract()), Invalidate(host))
    {
      cache := cache - {host};
    }

    /** A view runs with an active tenant in both places, or on an exempt path with none; either way the context is
        empty afterwards. A refusal leaves the context as it was. */
    method Call(path: string, hostHeader: string) returns (response: Response)
      modifies this`cache, this`currentTenant
      ensures Exempt(path) ==> response == View(None, None) && Abstract() == old(Abstract())
      ensures !Exempt(path) ==>
        var (after, tenant) := ResolveNow(old(Abstract()), WithoutPort(hostHeader));
        && Abstract() == after
        && (response == NotFound <==> tenant == None)
        && (response == TenantInactive <==> tenant.Some? && !tenant.value.isActive)
        && (response.View? ==> tenant.Some? && response == View(tenant, Some(tenant.value.tenant)))
      ensures currentTenant == if response.View? then None else old(currentTenant)
    {
      if prefix :| prefix in EXEMPT_PREFIXES && prefix <= path {
        currentTenant := None;
        return View(None, currentTenant);
      }
      var tenant := ResolveTenant(WithoutPort(hostHeader));
      if tenant.None? {
        return NotFound;
      }
      if !tenant.value.isActive {
        return TenantInactive;
      }
      currentTenant := Some(tenant.value.tenant);
      response := View(tenant, currentTenant);
      currentTenant := None;
    }
  }


  /** The paths that need no tenant. */
  lemma ExemptExactly(path: string)
    ensures Exempt(path) <==>
      || "/admin/" <= path || "/health/" <= path || "/ready/" <= path
      || "/api/schema/" <= path || "/api/docs/" <= path || "/api/redoc/" <= path || "/static/" <= path
  {
    assert forall prefix: string :: prefix in EXEMPT_PREFIXES <==>
      || prefix == "/admin/" || prefix == "/health/" || prefix == "/ready/"
      || prefix == "/api/schema/" || prefix == "/api/docs/" || prefix == "/api/redoc/" || prefix == "/static/";
  }
}
