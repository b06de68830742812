/** apps/common/celery_logging.py and apps/common/middleware/request_context.py: a request's id follows the tasks it
    causes, through message headers and per-context log variables.

    Requests and tasks run in contexts (threads or greenlets) that are reused one activity after another, and different
    contexts interleave freely. */
module TraceContext {
  import opened Prelude

  type Context = nat
  type MessageId = nat
  type Vars = map<string, string>

  const REQUEST_ID := "request_id"
  const TRACE_ID := "trace_id"

  /** Python's `get`, and `x or y`: an empty string counts as nothing. */
  function Get(vars: Vars, key: string): string {
    if key in vars then vars[key] else ""
  }

  function Or(a: string, b: string): string {
    if a != "" then a else b
  }

  /** `RequestContextMiddleware`: the client's header, or a new id. */
  function RequestId(header: Option<string>, uuid: string): string {
    Or(if header.Some? then header.value else "", uuid)
  }

  /** `inject_trace_id` */
  function Inject(vars: Vars, headers: Option<Vars>): Option<Vars> {
    var traceId := Or(Get(vars, REQUEST_ID), Get(vars, TRACE_ID));
    if headers.None? || traceId == "" then headers else Some(headers.value[TRACE_ID := traceId])
  }

  /** `bind_task_trace_id`: whatever the context held before is gone. */
  function TaskVars(headers: Option<Vars>, uuid: string): Vars {
    map[TRACE_ID := Or(if headers.Some? then Get(headers.value, TRACE_ID) else "", uuid)]
  }

  datatype State = State(vars: map<Context, Vars>, messages: map<MessageId, Option<Vars>>)

  datatype Step =
    | RequestStart(c: Context, header: Option<string>, uuid: string)
    | RequestEnd(c: Context)
    | Bind(c: Context, key: string, value: string)                    // other code binds other variables
    | Publish(c: Context, m: MessageId, headers: Option<Vars>)
    | TaskStart(c: Context, m: MessageId, uuid: string)
    | TaskEnd(c: Context)

  function VarsOf(s: State, c: Context): Vars {
    if c in s.vars then s.vars[c] else map[]
  }

  function Apply(s: State, step: Step): State {
    match step
    case RequestStart(c, header, uuid) => s.(vars := s.vars[c := map[REQUEST_ID := RequestId(header, uuid)]])
    case RequestEnd(c) => s.(vars := s.vars[c := map[]])
    case Bind(c, key, value) => s.(vars := s.vars[c := VarsOf(s, c)[key := value]])
    case Publish(c, m, headers) => s.(messages := s.messages[m := Inject(VarsOf(s, c), headers)])
    case TaskStart(c, m, uuid) =>
      s.(vars := s.vars[c := TaskVars(if m in s.messages then s.messages[m] else None, uuid)])
    case TaskEnd(c) => s.(vars := s.vars[c := map[]])
  }

  function Run(s: State, steps: seq<Step>): State {
    if steps == [] then s else Apply(Run(s, steps[..|steps| - 1]), steps[|steps| - 1])
  }

  /** The state before step i. */
  function At(s: State, steps: seq<Step>, i: nat): State
    requires i <= |steps|
  {
    Run(s, steps[..i])
  }

  lemma NextState(s: State, steps: seq<Step>, i: nat)
    requires i < |steps|
    ensures At(s, steps, i + 1) == Apply(At(s, steps, i), steps[i])
  {
    assert steps[..i + 1][..i] == steps[..i];
  }

  /** Generated ids are not empty, and other code leaves the two tracing variables alone. */
  predicate WellFormed(steps: seq<Step>) {
    forall i :: 0 <= i < |steps| ==>
      && (steps[i].RequestStart? || steps[i].TaskStart? ==> steps[i].uuid != "")
      && (steps[i].Bind? ==> steps[i].key != REQUEST_ID && steps[i].key != TRACE_ID)
  }

  /** Message ids are unique: nobody publishes an id twice. (A message may well be delivered twice.) */
  predicate PublishedOnce(steps: seq<Step>) {
    forall i, j :: 0 <= i < j < |steps| && steps[i].Publish? && steps[j].Publish? ==> steps[i].m != steps[j].m
  }

  predicate Starts(step: Step) { step.RequestStart? || step.TaskStart? }

  /** A request or task begins or ends in the context. */
  predicate Switches(step: Step, c: Context) {
    (Starts(step) || step.RequestEnd? || step.TaskEnd?) && step.c == c
  }

  /** The activity that step a started is still the one running in its context just before step n. */
  predicate Running(steps: seq<Step>, a: nat, n: nat) {
    && a < n <= |steps| && Starts(steps[a])
    && forall k :: a < k < n ==> !Switches(steps[k], steps[a].c)
  }

  /** Step t starts a task from the message that step p published on behalf of the activity that step a started. */
  predicate Causes(steps: seq<Step>, a: nat, p: nat, t: nat) {
    && a < p < t < |steps|
    && Running(steps, a, p) && steps[p].Publish? && steps[p].c == steps[a].c && steps[p].headers.Some?
    && steps[t].TaskStart? && steps[t].m == steps[p].m
  }

  /** A chain of tasks, each published by the one before: positions of publishes and starts. */
  datatype Link = Link(publish: nat, start: nat)

  function LastStart(request: nat, links: seq<Link>): nat {
    if links == [] then request else links[|links| - 1].start
  }

  predicate Chain(steps: seq<Step>, request: nat, links: seq<Link>) {
    && request < |steps| && steps[request].RequestStart?
    && (links == [] ||
        var n := |links| - 1;
        && Chain(steps, request, links[..n])
        && Causes(steps, LastStart(request, links[..n]), links[n].publish, links[n].start))
  }

  lemma StepKeepsTracing(s: State, step: Step, c: Context, key: string)
    requires !Switches(step, c) && (step.Bind? ==> step.key != key)
    ensures Get(VarsOf(Apply(s, step), c), key) == Get(VarsOf(s, c), key)
  {
  }

  /** While an activity runs, its tracing variables are what its start made them, whatever other contexts do. */
  lemma {:induction false} VariablesStand(s: State, steps: seq<Step>, a: nat, n: nat, key: string)
    requires WellFormed(steps) && Running(steps, a, n) && (key == REQUEST_ID || key == TRACE_ID)
    ensures Get(VarsOf(At(s, steps, n), steps[a].c), key) == Get(VarsOf(At(s, steps, a + 1), steps[a].c), key)
    decreases n
  {
    if a + 1 == n {
    } else {
      assert Running(steps, a, n - 1);
      VariablesStand(s, steps, a, n - 1, key);
      NextState(s, steps, n - 1);
      StepKeepsTracing(At(s, steps, n - 1), steps[n - 1], steps[a].c, key);
    }
  }

  lemma {:induction false} MessageStands(s: State, steps: seq<Step>, p: nat, n: nat)
    requires PublishedOnce(steps) && p < n <= |steps| && steps[p].Publish?
    ensures steps[p].m in At(s, steps, n).messages
    ensures At(s, steps, n).messages[steps[p].m] == Inject(VarsOf(At(s, steps, p), steps[p].c), steps[p].headers)
    decreases n
  {
    NextState(s, steps, n - 1);
    if p + 1 == n {
    } else {
      MessageStands(s, steps, p, n - 1);
    }
  }

  /** What an activity stamps on the messages it publishes. */
  function Stamp(s: State, c: Context): string {
    Or(Get(VarsOf(s, c), REQUEST_ID), Get(VarsOf(s, c), TRACE_ID))
  }

  /** One hop: the task starts with the stamp of the activity that caused it, and will stamp its own messages so. */
  lemma HopKeepsStamp(s: State, steps: seq<Step>, a: nat, p: nat, t: nat)
    requires WellFormed(steps) && PublishedOnce(steps) && Causes(steps, a, p, t)
    requires Stamp(At(s, steps, a + 1), steps[a].c) != ""
    ensures VarsOf(At(s, steps, t + 1), steps[t].c) == map[TRACE_ID := Stamp(At(s, steps, a + 1), steps[a].c)]
    ensures Stamp(At(s, steps, t + 1), steps[t].c) == Stamp(At(s, steps, a + 1), steps[a].c)
  {
    VariablesStand(s, steps, a, p, REQUEST_ID);
    VariablesStand(s, steps, a, p, TRACE_ID);
    MessageStands(s, steps, p, t);
    NextState(s, steps, t);
  }

  lemma {:induction false} ChainKeepsStamp(s: State, steps: seq<Step>, request: nat, links: seq<Link>)
    requires WellFormed(steps) && PublishedOnce(steps) && Chain(steps, request, links)
    ensures LastStart(request, links) < |steps|
    ensures var last, id := LastStart(request, links), RequestId(steps[request].header, steps[request].uuid);
      && Starts(steps[last])
      && id != "" && Stamp(At(s, steps, last + 1), steps[last].c) == id
      && (links != [] ==> VarsOf(At(s, steps, last + 1), steps[last].c) == map[TRACE_ID := id])
  {
    if links == [] {
      NextState(s, steps, request);
    } else {
      var n := |links| - 1;
      ChainKeepsStamp(s, steps, request, links[..n]);
      HopKeepsStamp(s, steps, LastStart(request, links[..n]), links[n].publish, links[n].start);
    }
  }

  /** Trace propagation: every task reached from a request by a chain of publishes of any length runs, from its start
      to its end, with `trace_id` equal to the request's id, in every interleaving and from any leftovers in the
      contexts. */
  lemma TraceFollowsChain(s: State, steps: seq<Step>, request: nat, links: seq<Link>, n: nat)
    requires WellFormed(steps) && PublishedOnce(steps)
    requires Chain(steps, request, links) && links != []
    requires Running(steps, LastStart(request, links), n)
    ensures Get(VarsOf(At(s, steps, n), steps[LastStart(request, links)].c), TRACE_ID)
            == RequestId(steps[request].header, steps[request].uuid)
  {
    ChainKeepsStamp(s, steps, request, links);
    VariablesStand(s, steps, LastStart(request, links), n, TRACE_ID);
  }

  // ---- Where an id comes from ----

  /** A request has the id its client sent, or a new one. */
  lemma RequestIdExactly(header: Option<string>, uuid: string)
    ensures RequestId(header, uuid) == if header == None || header == Some("") then uuid else header.value
  {
  }

  /** A published message gets the publisher's request id, or else its trace id, and otherwise stays as it is. */
  lemma InjectExactly(vars: Vars, headers: Vars)
    ensures Inject(vars, None) == None
    ensures "request_id" in vars && vars["request_id"] != "" ==>
      Inject(vars, Some(headers)) == Some(headers["trace_id" := vars["request_id"]])
    ensures ("request_id" !in vars || vars["request_id"] == "") && "trace_id" in vars && vars["trace_id"] != "" ==>
      Inject(vars, Some(headers)) == Some(headers["trace_id" := vars["trace_id"]])
    ensures ("request_id" !in vars || vars["request_id"] == "") && ("trace_id" !in vars || vars["trace_id"] == "") ==>
      Inject(vars, Some(headers)) == Some(headers)
  {
  }

  /** A task has the trace id of its message, or a new one, and nothing else from before. */
  lemma TaskVarsExactly(headers: Option<Vars>, uuid: string)
    ensures TaskVars(headers, uuid) == map["trace_id" :=
      if headers.Some? && "trace_id" in headers.value && headers.value["trace_id"] != ""
      then headers.value["trace_id"] else uuid]
  {
  }

  /** What each activity starts with, whatever its context held before. */
  lemma StartsAreClean(s: State, c: Context, header: Option<string>, m: MessageId, uuid: string)
    ensures VarsOf(Apply(s, RequestStart(c, header, uuid)), c) == map["request_id" := RequestId(header, uuid)]
    ensures m in s.messages ==> VarsOf(Apply(s, TaskStart(c, m, uuid)), c) == TaskVars(s.messages[m], uuid)
    ensures m !in s.messages ==> VarsOf(Apply(s, TaskStart(c, m, uuid)), c) == map["trace_id" := uuid]
  {
  }

  /** What other code binds is there, and a publish sends what its context says. */
  lemma StepsTakeEffect(s: State, c: Context, key: string, value: string, m: MessageId, headers: Option<Vars>)
    ensures Apply(s, Bind(c, key, value)) == s.(vars := s.vars[c := VarsOf(s, c)[key := value]])
    ensures Apply(s, Publish(c, m, headers)) == s.(messages := s.messages[m := Inject(VarsOf(s, c), headers)])
    ensures VarsOf(s, c) == if c in s.vars then s.vars[c] else map[]
  {
  }

  /** Nothing of an activity is left in its context afterwards. */
  lemma EndsAreClean(s: State, c: Context)
    ensures VarsOf(Apply(s, RequestEnd(c)), c) == map[] && VarsOf(Apply(s, TaskEnd(c)), c) == map[]
  {
  }

  // ---- The signal handlers and the middleware, on one context ----

  class LogContext {
    var vars: Vars

    constructor ()
      ensures vars == map[]
    {
      vars := map[];
    }

    method InjectTraceId(headers: Option<Vars>) returns (updated: Option<Vars>)
      ensures updated == Inject(vars, headers)
    {
      updated := headers;
      if headers.None? { return; }
      var traceId := Get(vars, REQUEST_ID);
      if traceId == "" { traceId := Get(vars, TRACE_ID); }
      if traceId != "" {
        updated := Some(headers.value[TRACE_ID := traceId]);
      }
    }

    method BindTaskTraceId(headers: Option<Vars>, uuid: string)
      modifies this
      ensures vars == TaskVars(headers, uuid)
    {
      var traceId := if headers.Some? then Get(headers.value, TRACE_ID) else "";
      if traceId == "" { traceId := uuid; }
      vars := map[];
      vars := vars[TRACE_ID := traceId];
    }

    method ClearTaskTraceId()
      modifies this
      ensures vars == map[]
    {
      vars := map[];
    }

    /** `RequestContextMiddleware.__call__`: `seen` is the context the view runs in and `echo` the response header.
        The context is clean afterwards even if the view raises. */
    method HandleRequest(header: Option<string>, uuid: string, viewRaises: bool)
      returns (seen: Vars, echo: Option<string>)
      modifies this
      ensures seen == map[REQUEST_ID := RequestId(header, uuid)]
      ensures echo == if viewRaises then None else Some(RequestId(header, uuid))
      ensures vars == map[]
    {
      var requestId := if header.Some? && header.value != "" then header.value else uuid;
      vars := map[];
      vars := vars[REQUEST_ID := requestId];
      seen := vars;
      vars := map[];
      echo := if viewRaises then None else Some(requestId);
    }
  }
}
