/** The remediation worker (apps/worker/remediation_worker.py): claim approved actions, execute
    them, and record each outcome under a guard on the status. */
module Remediation {
  import opened Prelude
  import opened PyText

  datatype Status = PendingApproval | Approved | Rejected | Running | Completed | Failed

  datatype ActionId = ActionId(tenant: string, workspace: string, action: string)

  datatype Action = Action(status: Status, reason: Option<string>, approvedAt: Option<int>, requestedAt: int,
                           version: nat)

  type Actions = map<ActionId, Action>

  // ---------- The statements ----------

  function Candidates(actions: Actions, tenant: string, workspace: string): set<ActionId> {
    set a | a in actions && a.tenant == tenant && a.workspace == workspace && actions[a].status == Approved
  }

  /** `ORDER BY approved_at NULLS LAST, requested_at, action_id` */
  predicate NoLater(actions: Actions, x: ActionId, y: ActionId)
    requires x in actions && y in actions
  {
    var a, b := actions[x], actions[y];
    if a.approvedAt != b.approvedAt then
      a.approvedAt.Some? && (b.approvedAt.Some? ==> a.approvedAt.value < b.approvedAt.value)
    else if a.requestedAt != b.requestedAt then a.requestedAt < b.requestedAt
    else TextLeq(x.action, y.action)
  }

  lemma NoLaterOrder(actions: Actions, x: ActionId, y: ActionId)
    requires x in actions && y in actions
    ensures NoLater(actions, x, y) || NoLater(actions, y, x)
    ensures NoLater(actions, x, y) && NoLater(actions, y, x) ==> x.action == y.action
  {
    TextOrder(x.action, y.action);
  }

  lemma NoLaterTransitive(actions: Actions, x: ActionId, y: ActionId, z: ActionId)
    requires x in actions && y in actions && z in actions && NoLater(actions, x, y) && NoLater(actions, y, z)
    ensures NoLater(actions, x, z)
  {
    if TextLeq(x.action, y.action) && TextLeq(y.action, z.action) {
      TextTransitive(x.action, y.action, z.action);
    }
  }

  ghost predicate Distinct<T(!new)>(s: seq<T>) {
    forall i, j :: 0 <= i < j < |s| ==> s[i] != s[j]
  }

  /** Which actions one claim may take: the first of those approved that no other session holds. */
  ghost predicate ClaimTakes(actions: Actions, tenant: string, workspace: string, limit: nat, busy: set<ActionId>,
                             claimed: seq<ActionId>)
  {
    var open := Candidates(actions, tenant, workspace) - busy;
    && Distinct(claimed) && (forall a :: a in claimed ==> a in open)
    && |claimed| == Min(limit, |open|)
    && forall a, b :: a in claimed && b in open && b !in claimed ==> NoLater(actions, a, b)
  }

  function Claimed(actions: Actions, claimed: seq<ActionId>): Actions {
    map a | a in actions ::
      if a in claimed then actions[a].(status := Running, version := actions[a].version + 1) else actions[a]
  }

  /** The row that the guarded update meets, None when it meets none. */
  predicate UpdateFinds(actions: Actions, a: ActionId) {
    a in actions && actions[a].status == Running
  }

  function Updated(actions: Actions, a: ActionId, ok: bool, message: string): Actions
    requires UpdateFinds(actions, a)
  {
    var final := if ok then Completed else Failed;
    var reason := if message != "" then message else if ok then "completed" else "failed";
    actions[a := actions[a].(status := final, reason := Some(reason), version := actions[a].version + 1)]
  }

  // ---------- One worker ----------

  datatype Stats = Stats(claimed: nat, completed: nat, failed: nat)

  /** What executing an action gave. */
  datatype Execution = Execution(ok: bool, message: string)

  function UpdatedAll(actions: Actions, claimed: seq<ActionId>, n: nat, execute: ActionId -> Execution): Actions
    requires n <= |claimed|
  {
    if n == 0 then actions
    else
      var before, a := UpdatedAll(actions, claimed, n - 1, execute), claimed[n - 1];
      if UpdateFinds(before, a) then Updated(before, a, execute(a).ok, execute(a).message) else before
  }

  function CountOk(claimed: seq<ActionId>, n: nat, execute: ActionId -> Execution): nat
    requires n <= |claimed|
  {
    if n == 0 then 0 else CountOk(claimed, n - 1, execute) + if execute(claimed[n - 1]).ok then 1 else 0
  }

  class ActionTable {
    var actions: Actions

    constructor (actions: Actions)
      ensures this.actions == actions
    {
      this.actions := actions;
    }

    method ClaimActions(tenant: string, workspace: string, limit: nat, busy: set<ActionId>)
      returns (claimed: seq<ActionId>)
      modifies this
      ensures ClaimTakes(old(actions), tenant, workspace, limit, busy, claimed)
      ensures actions == Claimed(old(actions), claimed)
    {
      hide NoLater;
      claimed := [];
      var open := Candidates(actions, tenant, workspace) - busy;
      var rest := open;
      while |claimed| < limit && rest != {}
        invariant unchanged(this)
        invariant |claimed| <= limit && |claimed| + |rest| == |open| && rest <= open
        invariant Distinct(claimed) && forall a :: a in claimed ==> a in open && a !in rest
        invariant forall b :: b in open ==> b in claimed || b in rest
        invariant forall a, b :: a in claimed && b in rest ==> NoLater(actions, a, b)
        decreases |rest|
      {
        ghost var first := Earliest(rest, actions);
        var a :| a in rest && forall b :: b in rest ==> NoLater(actions, a, b);
        claimed := claimed + [a];
        rest := rest - {a};
      }
      actions := Claimed(actions, claimed);
    }

    method UpdateActionResult(a: ActionId, ok: bool, message: string) returns (r: Result<()>)
      modifies this
      ensures r.Ok? <==> UpdateFinds(old(actions), a)
      ensures actions == if r.Ok? then Updated(old(actions), a, ok, message) else old(actions)
    {
      if !(a in actions && actions[a].status == Running) {
        return Raised("remediation_action_update_failed");
      }
      var final := if ok then Completed else Failed;
      var reason := if message != "" then message else if ok then "completed" else "failed";
      actions := actions[a := actions[a].(status := final, reason := Some(reason), version := actions[a].version + 1)];
      r := Ok(());
    }

    /** Left to itself a worker never raises once the limit is positive: it claims up to `limit`
        actions, and ends with each of them completed or failed as its execution went. */
    method ProcessApprovedActions(tenant: string, workspace: string, limit: int, busy: set<ActionId>,
                                  execute: ActionId -> Execution)
      returns (r: Result<Stats>, ghost claimed: seq<ActionId>)
      modifies this
      ensures r.Raised? <==> limit <= 0
      ensures r.Raised? ==> actions == old(actions)
      ensures r.Ok? ==>
        && ClaimTakes(old(actions), tenant, workspace, limit, busy, claimed)
        && actions == UpdatedAll(Claimed(old(actions), claimed), claimed, |claimed|, execute)
        && r.value.claimed == |claimed| == r.value.completed + r.value.failed <= limit
        && r.value.completed == CountOk(claimed, |claimed|, execute)
    {
      claimed := [];
      if limit <= 0 {
        return Raised("limit must be >= 1"), claimed;
      }
      var taken := ClaimActions(tenant, workspace, limit, busy);
      claimed := taken;
      ClaimedAreRunning(old(actions), tenant, workspace, limit, busy, taken);
      hide ClaimTakes, Claimed, Updated, UpdateFinds;
      var completed, failed := 0, 0;
      for n := 0 to |taken|
        invariant actions == UpdatedAll(Claimed(old(actions), taken), taken, n, execute)
        invariant forall i :: n <= i < |taken| ==> UpdateFinds(actions, taken[i])
        invariant completed + failed == n && completed == CountOk(taken, n, execute)
      {
        var outcome := execute(taken[n]);
        var updated := UpdateActionResult(taken[n], outcome.ok, outcome.message);
        assert updated.Ok?;
        ghost var before := UpdatedAll(Claimed(old(actions), taken), taken, n, execute);
        UpdatedKeeps(before, taken, n, outcome.ok, outcome.message);
        if outcome.ok {
          completed := completed + 1;
        } else {
          failed := failed + 1;
        }
      }
      r := Ok(Stats(|taken|, completed, failed));
    }
  }

  lemma ClaimedAreRunning(actions: Actions, tenant: string, workspace: string, limit: nat, busy: set<ActionId>,
                          claimed: seq<ActionId>)
    requires ClaimTakes(actions, tenant, workspace, limit, busy, claimed)
    ensures Distinct(claimed) && |claimed| <= limit
    ensures forall i :: 0 <= i < |claimed| ==> UpdateFinds(Claimed(actions, claimed), claimed[i])
  {
    assert forall i :: 0 <= i < |claimed| ==> claimed[i] in claimed;
  }

  lemma UpdatedKeeps(actions: Actions, claimed: seq<ActionId>, n: nat, ok: bool, message: string)
    requires n < |claimed| && Distinct(claimed) && forall i :: n <= i < |claimed| ==> UpdateFinds(actions, claimed[i])
    ensures forall i :: n < i < |claimed| ==> UpdateFinds(Updated(actions, claimed[n], ok, message), claimed[i])
  {
  }

  lemma Earliest(open: set<ActionId>, actions: Actions) returns (a: ActionId)
    requires open != {} && open <= actions.Keys
    ensures a in open && forall b :: b in open ==> NoLater(actions, a, b)
  {
    hide NoLater;
    a :| a in open;
    NoLaterOrder(actions, a, a);
    if open != {a} {
      var rest := open - {a};
      var b := Earliest(rest, actions);
      assert open == rest + {a};
      NoLaterOrder(actions, a, b);
      if NoLater(actions, b, a) {
        a := b;
      } else {
        forall c | c in rest ensures NoLater(actions, a, c) {
          NoLaterTransitive(actions, a, b, c);
        }
      }
    }
  }

  /** After a lone worker each claimed action is completed or failed as its execution went, and no
      other action has changed. */
  lemma {:induction false} OutcomesFollowExecutions(actions: Actions, claimed: seq<ActionId>, n: nat,
                                                    execute: ActionId -> Execution, a: ActionId)
    requires n <= |claimed| && Distinct(claimed) && forall i :: 0 <= i < |claimed| ==> UpdateFinds(actions, claimed[i])
    ensures var after := UpdatedAll(actions, claimed, n, execute);
      && after.Keys == actions.Keys
      && (a in claimed[..n] ==> a in after && after[a].status == if execute(a).ok then Completed else Failed)
      && (a in actions && a !in claimed[..n] ==> after[a] == actions[a])
  {
    if n > 0 {
      OutcomesFollowExecutions(actions, claimed, n - 1, execute, a);
      OutcomesFollowExecutions(actions, claimed, n - 1, execute, claimed[n - 1]);
      assert claimed[..n] == claimed[..n - 1] + [claimed[n - 1]];
    }
  }

  // ---------- The statements, row by row ----------

  /** An approved action of the scope that no other session holds. */
  predicate MayBeClaimed(actions: Actions, tenant: string, workspace: string, busy: set<ActionId>, a: ActionId) {
    && a in actions && actions[a].status == Approved && a.tenant == tenant && a.workspace == workspace
    && a !in busy
  }

  /** By time of approval, none last, then by time of request, then by id. */
  predicate ComesNoLater(x: Action, xId: string, y: Action, yId: string) {
    match (x.approvedAt, y.approvedAt)
    case (Some(p), Some(q)) => p < q || (p == q && RequestedNoLater(x, xId, y, yId))
    case (Some(_), None) => true
    case (None, Some(_)) => false
    case (None, None) => RequestedNoLater(x, xId, y, yId)
  }

  predicate RequestedNoLater(x: Action, xId: string, y: Action, yId: string) {
    x.requestedAt < y.requestedAt || (x.requestedAt == y.requestedAt && TextLeq(xId, yId))
  }

  lemma NoLaterExactly(actions: Actions, x: ActionId, y: ActionId)
    requires x in actions && y in actions
    ensures NoLater(actions, x, y) <==> ComesNoLater(actions[x], x.action, actions[y], y.action)
  {
  }

  /** A claim takes only approved actions of its own scope, each once, and leaves one only when it has taken
      `limit` others that come no later. */
  lemma ClaimExactly(actions: Actions, tenant: string, workspace: string, limit: nat, busy: set<ActionId>,
                     claimed: seq<ActionId>)
    requires ClaimTakes(actions, tenant, workspace, limit, busy, claimed)
    ensures |claimed| <= limit && forall i, j :: 0 <= i < j < |claimed| ==> claimed[i] != claimed[j]
    ensures forall a :: a in claimed ==> MayBeClaimed(actions, tenant, workspace, busy, a)
    ensures forall b :: MayBeClaimed(actions, tenant, workspace, busy, b) && b !in claimed ==>
      && |claimed| == limit
      && forall a :: a in claimed ==> ComesNoLater(actions[a], a.action, actions[b], b.action)
  {
    hide TextLeq;
    var open := Candidates(actions, tenant, workspace) - busy;
    assert forall a :: a in open <==> MayBeClaimed(actions, tenant, workspace, busy, a);
    forall b | MayBeClaimed(actions, tenant, workspace, busy, b) && b !in claimed
      ensures |claimed| == limit
      ensures forall a :: a in claimed ==> ComesNoLater(actions[a], a.action, actions[b], b.action)
    {
      LeftForLimit(open, claimed, limit, b);
    }
  }

  lemma LeftForLimit(open: set<ActionId>, claimed: seq<ActionId>, limit: nat, b: ActionId)
    requires Distinct(claimed) && (forall a :: a in claimed ==> a in open) && |claimed| == Min(limit, |open|)
    requires b in open && b !in claimed
    ensures |claimed| == limit
  {
    DistinctCount(claimed);
    var taken := set a | a in claimed;
    assert b in open - taken && open == (open - taken) + taken;
  }

  /** Only its status and its version distinguish a claimed action from what it was. */
  lemma ClaimChanges(actions: Actions, claimed: seq<ActionId>, a: ActionId)
    ensures var after := Claimed(actions, claimed);
      && (a in after <==> a in actions)
      && (a in actions && a !in claimed ==> after[a] == actions[a])
      && (a in actions && a in claimed ==>
        && after[a].status == Running && after[a].version == actions[a].version + 1
        && after[a].reason == actions[a].reason && after[a].approvedAt == actions[a].approvedAt
        && after[a].requestedAt == actions[a].requestedAt)
  {
  }

  /** A recorded outcome: the status and its message, or the status itself as the reason when there is no
      message; one version more, and nothing else. */
  lemma OutcomeChanges(actions: Actions, a: ActionId, ok: bool, message: string, b: ActionId)
    requires a in actions && actions[a].status == Running
    ensures var after := Updated(actions, a, ok, message);
      && (b in after <==> b in actions)
      && (b in actions && b != a ==> after[b] == actions[b])
      && after[a].status == (if ok then Completed else Failed)
      && (message != "" ==> after[a].reason == Some(message))
      && (message == "" && ok ==> after[a].reason == Some("completed"))
      && (message == "" && !ok ==> after[a].reason == Some("failed"))
      && after[a].version == actions[a].version + 1
      && after[a].approvedAt == actions[a].approvedAt && after[a].requestedAt == actions[a].requestedAt
  {
  }

  /** A lone worker takes each claimed action through both changes: two versions more, and the message of its
      own execution. */
  lemma {:induction false} LoneWorkerChanges(actions: Actions, claimed: seq<ActionId>, n: nat,
                                             execute: ActionId -> Execution, a: ActionId)
    requires n <= |claimed| && Distinct(claimed)
    requires forall i :: 0 <= i < |claimed| ==> claimed[i] in actions
    ensures var after := UpdatedAll(Claimed(actions, claimed), claimed, n, execute);
      && (a in after <==> a in actions)
      && (a in claimed[..n] ==>
        && a in after && after[a].status == (if execute(a).ok then Completed else Failed)
        && after[a].version == actions[a].version + 2
        && (execute(a).message != "" ==> after[a].reason == Some(execute(a).message)))
      && (a in claimed[n..] ==> a in after && after[a] == Claimed(actions, claimed)[a])
      && (a in actions && a !in claimed ==> after[a] == actions[a])
  {
    if n > 0 {
      var b := claimed[n - 1];
      LoneWorkerChanges(actions, claimed, n - 1, execute, a);
      LoneWorkerChanges(actions, claimed, n - 1, execute, b);
      assert claimed[n - 1..] == [b] + claimed[n..] && claimed[..n] == claimed[..n - 1] + [b];
      assert b in claimed[n - 1..];
      assert a in claimed[n..] ==> a != b;
    }
  }

  /** A lone worker counts as completed each of its actions whose execution went well. */
  lemma {:induction false} CountOkExactly(claimed: seq<ActionId>, n: nat, execute: ActionId -> Execution)
    requires n <= |claimed|
    ensures CountOk(claimed, n, execute) == |set i | 0 <= i < n && execute(claimed[i]).ok|
  {
    if n > 0 {
      CountOkExactly(claimed, n - 1, execute);
      var before, after :=
        set i | 0 <= i < n - 1 && execute(claimed[i]).ok, set i | 0 <= i < n && execute(claimed[i]).ok;
      assert after == if execute(claimed[n - 1]).ok then before + {n - 1} else before;
    }
  }

  // ---------- Many workers and the approval endpoints, interleaved ----------

  /** A run of `process_approved_actions`: what it claimed, how far it got. `executed` exceeds
      `done` when it crashed between executing an action and committing the outcome. */
  datatype Worker = Worker(limit: nat, claimed: seq<ActionId>, executed: nat, completed: nat, failed: nat,
                           crashed: bool) {
    function Done(): nat {
      completed + failed
    }
  }

  datatype World = World(actions: Actions, workers: map<nat, Worker>, executions: seq<ActionId>)

  datatype Step =
    | Request(id: ActionId, autoApprove: bool, now: int, reason: Option<string>)
    | Approve(id: ActionId, now: int, reason: Option<string>)
    | Reject(id: ActionId, reason: Option<string>)
    | Claim(worker: nat, tenant: string, workspace: string, limit: nat, busy: set<ActionId>, claimed: seq<ActionId>)
    | Finish(worker: nat, ok: bool, message: string)
    | Crash(worker: nat, afterExecution: bool)

  /** The worker still has an action to execute. */
  predicate Busy(w: World, worker: nat) {
    worker in w.workers && !w.workers[worker].crashed && w.workers[worker].Done() < |w.workers[worker].claimed|
  }

  function Current(w: World, worker: nat): ActionId
    requires Busy(w, worker)
  {
    w.workers[worker].claimed[w.workers[worker].Done()]
  }

  /** The outcome of the current action is recorded. */
  function Progressed(me: Worker, ok: bool): Worker {
    if ok then me.(executed := me.executed + 1, completed := me.completed + 1)
    else me.(executed := me.executed + 1, failed := me.failed + 1)
  }

  /** The current action is executed and its outcome is not. */
  function CrashedAfter(me: Worker): Worker {
    me.(executed := me.executed + 1, crashed := true)
  }

  /** The endpoint decides a pending action; a time or a reason that is not given leaves the old one. */
  function Decide(w: World, id: ActionId, status: Status, at: Option<int>, reason: Option<string>): World {
    if id !in w.actions || w.actions[id].status != PendingApproval then w
    else
      var action := w.actions[id];
      w.(actions := w.actions[id := action.(
        status := status, approvedAt := if at.Some? then at else action.approvedAt,
        reason := if reason.Some? then reason else action.reason, version := action.version + 1)])
  }

  ghost predicate Enabled(w: World, step: Step) {
    match step
    case Claim(worker, tenant, workspace, limit, busy, claimed) =>
      worker !in w.workers && limit >= 1 && ClaimTakes(w.actions, tenant, workspace, limit, busy, claimed)
    case Finish(worker, _, _) => Busy(w, worker)
    case Crash(worker, _) => Busy(w, worker)
    case _ => true
  }

  ghost function Do(w: World, step: Step): World
    requires Enabled(w, step)
  {
    match step
    case Request(id, auto, now, reason) =>
      if id in w.actions then w
      else
        var status, approvedAt := if auto then Approved else PendingApproval, if auto then Some(now) else None;
        w.(actions := w.actions[id := Action(status, reason, approvedAt, now, 1)])
    case Approve(id, now, reason) => Decide(w, id, Approved, Some(now), reason)
    case Reject(id, reason) => Decide(w, id, Rejected, None, reason)
    case Claim(worker, _, _, limit, _, claimed) =>
      w.(actions := Claimed(w.actions, claimed), workers := w.workers[worker := Worker(limit, claimed, 0, 0, 0, false)])
    case Finish(worker, ok, message) =>
      var me, a := w.workers[worker], Current(w, worker);
      var executions := w.executions + [a];
      if UpdateFinds(w.actions, a) then
        World(Updated(w.actions, a, ok, message),
              w.workers[worker := Progressed(me, ok)],
              executions)
      else w.(workers := w.workers[worker := CrashedAfter(me)], executions := executions)
    case Crash(worker, afterExecution) =>
      var me := w.workers[worker];
      if afterExecution then
        w.(workers := w.workers[worker := CrashedAfter(me)], executions := w.executions + [Current(w, worker)])
      else w.(workers := w.workers[worker := me.(crashed := true)])
  }

  /** What the endpoints do: a request adds an action once, and an approval or a rejection moves a pending
      one, with the reason if one is given; neither changes anything else. */
  lemma EndpointsExactly(w: World, id: ActionId, auto: bool, now: int, reason: Option<string>)
    ensures var asked := Do(w, Request(id, auto, now, reason));
      && (id in w.actions ==> asked == w)
      && (id !in w.actions ==>
        && OnlyActionDiffers(w, asked, id)
        && asked.actions[id] ==
             if auto then Action(Approved, reason, Some(now), now, 1)
             else Action(PendingApproval, reason, None, now, 1))
    ensures var approved, rejected := Do(w, Approve(id, now, reason)), Do(w, Reject(id, reason));
      if id in w.actions && w.actions[id].status == PendingApproval then
        && OnlyActionDiffers(w, approved, id) && OnlyActionDiffers(w, rejected, id)
        && Decided(w.actions[id], approved.actions[id], Approved, Some(now), reason)
        && Decided(w.actions[id], rejected.actions[id], Rejected, w.actions[id].approvedAt, reason)
      else approved == w && rejected == w
  {
  }

  /** The workers and all actions but one are as before. */
  ghost predicate OnlyActionDiffers(w: World, w': World, id: ActionId) {
    && w'.workers == w.workers && w'.executions == w.executions && id in w'.actions
    && forall a :: a != id ==>
      (a in w'.actions <==> a in w.actions) && (a in w.actions ==> w'.actions[a] == w.actions[a])
  }

  lemma DecidedColumnsAreAll(before: Action, after: Action, other: Action, status: Status, approvedAt: Option<int>,
                             reason: Option<string>)
    requires Decided(before, after, status, approvedAt, reason) && Decided(before, other, status, approvedAt, reason)
    ensures after == other
  {
  }

  predicate Decided(before: Action, after: Action, status: Status, approvedAt: Option<int>, reason: Option<string>) {
    && after.status == status && after.approvedAt == approvedAt && after.version == before.version + 1
    && (reason != None ==> after.reason == reason)
    && (reason == None ==> after.reason == before.reason)
    && after.requestedAt == before.requestedAt
  }

  /** The actions and all workers but one are as before. */
  ghost predicate OnlyWorkerDiffers(w: World, w': World, worker: nat) {
    && worker in w'.workers
    && forall p :: p != worker ==>
      (p in w'.workers <==> p in w.workers) && (p in w.workers ==> w'.workers[p] == w.workers[p])
  }

  /** A claim starts a worker that has executed nothing yet. */
  lemma ClaimStartsWorker(w: World, step: Step)
    requires Enabled(w, step) && step.Claim?
    ensures var w', me := Do(w, step), Do(w, step).workers[step.worker];
      && OnlyWorkerDiffers(w, w', step.worker) && w'.executions == w.executions
      && w'.actions == Claimed(w.actions, step.claimed)
      && me.claimed == step.claimed && me.limit == step.limit && !me.crashed
      && me.executed == 0 && me.completed == 0 && me.failed == 0
  {
  }

  /** A worker finishes its next action: the execution happens once, is counted as it went, and is recorded
      on the action. */
  lemma FinishCounts(w: World, step: Step)
    requires Enabled(w, step) && step.Finish? && UpdateFinds(w.actions, Current(w, step.worker))
    ensures var w', was, me := Do(w, step), w.workers[step.worker], Do(w, step).workers[step.worker];
      && OnlyWorkerDiffers(w, w', step.worker)
      && w'.executions == w.executions + [was.claimed[was.completed + was.failed]]
      && w'.actions == Updated(w.actions, was.claimed[was.completed + was.failed], step.ok, step.message)
      && me.completed == was.completed + (if step.ok then 1 else 0)
      && me.failed == was.failed + (if step.ok then 0 else 1)
      && me.executed == was.executed + 1
      && me.claimed == was.claimed && me.limit == was.limit && !me.crashed
  {
  }

  /** A worker that crashes never works again and records nothing more, whether or not it had just executed
      its next action. */
  lemma CrashStops(w: World, step: Step)
    requires Enabled(w, step) && step.Crash?
    ensures var w', was, me := Do(w, step), w.workers[step.worker], Do(w, step).workers[step.worker];
      && OnlyWorkerDiffers(w, w', step.worker) && w'.actions == w.actions
      && w'.executions == w.executions +
           (if step.afterExecution then [was.claimed[was.completed + was.failed]] else [])
      && me.crashed && !Busy(w', step.worker)
      && me.executed == was.executed + (if step.afterExecution then 1 else 0)
      && me.completed == was.completed && me.failed == was.failed
      && me.claimed == was.claimed && me.limit == was.limit
  {
  }

  // ---------- The invariant ----------

  /** The counters of one worker are in order. */
  predicate Counters(me: Worker) {
    && me.Done() <= me.executed <= |me.claimed| <= me.limit
    && (me.executed == me.Done() || (me.crashed && me.executed == me.Done() + 1))
  }

  /** Every action the worker has finished is completed or failed, every other one still running. */
  ghost predicate OwnsItsClaims(actions: Actions, me: Worker) {
    && Distinct(me.claimed)
    && forall i :: 0 <= i < |me.claimed| ==>
      && me.claimed[i] in actions
      && (i < me.Done() ==> actions[me.claimed[i]].status in {Completed, Failed})
      && (me.Done() <= i ==> actions[me.claimed[i]].status == Running)
  }

  /** No action is claimed twice. */
  ghost predicate ClaimsDisjoint(w: World) {
    forall p, q :: p in w.workers && q in w.workers && p != q ==>
      forall a :: a in w.workers[p].claimed ==> a !in w.workers[q].claimed
  }

  /** Each execution was of an action that some worker had claimed and reached, and none was repeated. */
  ghost predicate ExecutionsClaimed(w: World) {
    && Distinct(w.executions)
    && forall a :: a in w.executions ==>
      exists p :: p in w.workers && a in w.workers[p].claimed[..Reached(w.workers[p])]
  }

  function Reached(me: Worker): nat {
    Min(me.executed, |me.claimed|)
  }

  ghost predicate Sound(w: World) {
    && (forall p :: p in w.workers ==> Counters(w.workers[p]) && OwnsItsClaims(w.actions, w.workers[p]))
    && ClaimsDisjoint(w) && ExecutionsClaimed(w)
  }

  /** The status of an action, if it exists. */
  function StatusOf(actions: Actions, a: ActionId): Option<Status> {
    if a in actions then Some(actions[a].status) else None
  }

  /** The moves that any step may make. */
  predicate Move(from: Option<Status>, to: Option<Status>) {
    || from == to
    || (from == None && to in {Some(PendingApproval), Some(Approved)})
    || (from == Some(PendingApproval) && to in {Some(Approved), Some(Rejected)})
    || (from == Some(Approved) && to == Some(Running))
    || (from == Some(Running) && to in {Some(Completed), Some(Failed)})
  }

  /** A status only ever moves forward, and only a claim starts an action. */
  lemma StatusesMoveForward(w: World, step: Step, a: ActionId)
    requires Enabled(w, step)
    ensures Move(StatusOf(w.actions, a), StatusOf(Do(w, step).actions, a))
    ensures StatusOf(w.actions, a) != Some(Running) && StatusOf(Do(w, step).actions, a) == Some(Running) ==>
      step.Claim? && a in step.claimed
  {
  }

  // ---------- Every step keeps the invariant ----------

  /** A change of statuses that touches no running or finished action leaves the claims alone. */
  lemma ClaimsSurvive(before: Actions, after: Actions, me: Worker)
    requires OwnsItsClaims(before, me)
    requires forall a :: a in before && before[a].status in {Running, Completed, Failed} ==>
      a in after && after[a].status == before[a].status
    ensures OwnsItsClaims(after, me)
  {
  }

  lemma OutsideStepsStaySound(w: World, step: Step)
    requires Sound(w) && Enabled(w, step) && (step.Request? || step.Approve? || step.Reject?)
    ensures Sound(Do(w, step))
  {
    hide Counters, ExecutionsClaimed, ClaimsDisjoint, OwnsItsClaims, Distinct;
    var w' := Do(w, step);
    forall p | p in w'.workers
      ensures Counters(w'.workers[p]) && OwnsItsClaims(w'.actions, w'.workers[p])
    {
      ClaimsSurvive(w.actions, w'.actions, w.workers[p]);
    }
    SameWorkers(w, w');
  }

  lemma SameWorkers(w: World, w': World)
    requires w'.workers == w.workers && w'.executions == w.executions
    ensures ClaimsDisjoint(w') == ClaimsDisjoint(w) && ExecutionsClaimed(w') == ExecutionsClaimed(w)
  {
  }

  lemma ClaimStaysSound(w: World, step: Step)
    requires Sound(w) && Enabled(w, step) && step.Claim?
    ensures Sound(Do(w, step))
  {
    hide Counters, OwnsItsClaims, ClaimsDisjoint, ExecutionsClaimed;
    var w' := Do(w, step);
    forall p | p in w'.workers
      ensures Counters(w'.workers[p]) && OwnsItsClaims(w'.actions, w'.workers[p])
    {
      WorkerAfterClaim(w, step, p);
    }
    NewClaimsAreDisjoint(w, step);
    NewWorkerKeepsExecutions(w, w', step.worker);
  }

  lemma WorkerAfterClaim(w: World, step: Step, p: nat)
    requires Sound(w) && Enabled(w, step) && step.Claim? && p in Do(w, step).workers
    ensures var w' := Do(w, step); Counters(w'.workers[p]) && OwnsItsClaims(w'.actions, w'.workers[p])
  {
    ClaimedAreRunning(w.actions, step.tenant, step.workspace, step.limit, step.busy, step.claimed);
    if p != step.worker {
      ClaimsSurvive(w.actions, Do(w, step).actions, w.workers[p]);
    }
  }

  lemma NewClaimsAreDisjoint(w: World, step: Step)
    requires Sound(w) && Enabled(w, step) && step.Claim?
    ensures ClaimsDisjoint(Do(w, step))
  {
    hide Counters, ExecutionsClaimed;
    forall p, a | p in w.workers && a in w.workers[p].claimed
      ensures a !in step.claimed
    {
      assert OwnsItsClaims(w.actions, w.workers[p]);
    }
  }

  lemma NewWorkerKeepsExecutions(w: World, w': World, worker: nat)
    requires ExecutionsClaimed(w) && w'.executions == w.executions && worker !in w.workers
    requires forall p :: p in w.workers ==> p in w'.workers && w'.workers[p] == w.workers[p]
    ensures ExecutionsClaimed(w')
  {
    forall a | a in w'.executions
      ensures exists p :: p in w'.workers && a in w'.workers[p].claimed[..Reached(w'.workers[p])]
    {
      var p :| p in w.workers && a in w.workers[p].claimed[..Reached(w.workers[p])];
      assert p in w'.workers && a in w'.workers[p].claimed[..Reached(w'.workers[p])];
    }
  }

  /** Executing the current action and moving on, for `Finish` and for a crash in between. */
  lemma ExecutionIsNew(w: World, worker: nat)
    requires Sound(w) && Busy(w, worker)
    ensures Current(w, worker) !in w.executions && UpdateFinds(w.actions, Current(w, worker))
  {
    var me, a := w.workers[worker], Current(w, worker);
    assert OwnsItsClaims(w.actions, me) && Counters(me);
    assert a == me.claimed[me.Done()] && a in me.claimed;
    forall p | p in w.workers
      ensures a !in w.workers[p].claimed[..Reached(w.workers[p])]
    {
      if p == worker {
        assert forall i :: 0 <= i < me.Done() ==> me.claimed[..me.Done()][i] == me.claimed[i];
      } else {
        assert a !in w.workers[p].claimed;
      }
    }
  }

  lemma ExecutionsGrow(w: World, w': World, worker: nat)
    requires Sound(w) && Busy(w, worker) && w'.executions == w.executions + [Current(w, worker)]
    requires w'.workers.Keys == w.workers.Keys
    requires forall p :: p in w.workers && p != worker ==> w'.workers[p] == w.workers[p]
    requires w'.workers[worker].claimed == w.workers[worker].claimed
      && w'.workers[worker].executed == w.workers[worker].executed + 1
    ensures ExecutionsClaimed(w') && ClaimsDisjoint(w')
  {
    var me, a := w.workers[worker], Current(w, worker);
    assert Counters(me);
    ExecutionIsNew(w, worker);
    forall e | e in w'.executions
      ensures exists p :: p in w'.workers && e in w'.workers[p].claimed[..Reached(w'.workers[p])]
    {
      if e in w.executions {
        var p :| p in w.workers && e in w.workers[p].claimed[..Reached(w.workers[p])];
        assert w'.workers[p].claimed[..Reached(w.workers[p])] <= w'.workers[p].claimed[..Reached(w'.workers[p])];
        assert p in w'.workers && e in w'.workers[p].claimed[..Reached(w'.workers[p])];
      } else {
        assert e == me.claimed[..me.executed + 1][me.executed];
        assert worker in w'.workers && e in w'.workers[worker].claimed[..Reached(w'.workers[worker])];
      }
    }
  }

  lemma WorkStaysSound(w: World, step: Step)
    requires Sound(w) && Enabled(w, step) && (step.Finish? || step.Crash?)
    ensures Sound(Do(w, step))
  {
    hide ExecutionsClaimed, ClaimsDisjoint, Counters, OwnsItsClaims;
    var w' := Do(w, step);
    forall p | p in w'.workers
      ensures Counters(w'.workers[p]) && OwnsItsClaims(w'.actions, w'.workers[p])
    {
      WorkerAfterWork(w, step, p);
    }
    if step.Finish? || step.afterExecution {
      ExecutionIsNew(w, step.worker);
      ExecutionsGrow(w, w', step.worker);
    } else {
      SameClaims(w, w');
    }
  }

  lemma WorkerAfterWork(w: World, step: Step, p: nat)
    requires Sound(w) && Enabled(w, step) && (step.Finish? || step.Crash?) && p in w.workers
    ensures var w' := Do(w, step);
      p in w'.workers && Counters(w'.workers[p]) && OwnsItsClaims(w'.actions, w'.workers[p])
  {
    ExecutionIsNew(w, step.worker);
    assert OwnsItsClaims(w.actions, w.workers[p]) && Counters(w.workers[p]);
    if p != step.worker {
      NotAnothers(w, p, step.worker);
    }
    hide Sound;
  }

  lemma NotAnothers(w: World, p: nat, worker: nat)
    requires Sound(w) && Busy(w, worker) && p in w.workers && p != worker
    ensures forall i :: 0 <= i < |w.workers[p].claimed| ==> w.workers[p].claimed[i] != Current(w, worker)
  {
    assert Current(w, worker) in w.workers[worker].claimed;
  }

  lemma SameClaims(w: World, w': World)
    requires w'.executions == w.executions && w'.workers.Keys == w.workers.Keys
    requires forall p :: p in w.workers ==>
      w'.workers[p].claimed == w.workers[p].claimed && w'.workers[p].executed == w.workers[p].executed
    requires ClaimsDisjoint(w) && ExecutionsClaimed(w)
    ensures ClaimsDisjoint(w') && ExecutionsClaimed(w')
  {
    forall a | a in w'.executions
      ensures exists p :: p in w'.workers && a in w'.workers[p].claimed[..Reached(w'.workers[p])]
    {
      var p :| p in w.workers && a in w.workers[p].claimed[..Reached(w.workers[p])];
      assert p in w'.workers && a in w'.workers[p].claimed[..Reached(w'.workers[p])];
    }
  }

  lemma StepStaysSound(w: World, step: Step)
    requires Sound(w) && Enabled(w, step)
    ensures Sound(Do(w, step))
  {
    hide Sound, Do, Enabled;
    match step
    case Claim(_, _, _, _, _, _) => ClaimStaysSound(w, step);
    case Finish(_, _, _) => WorkStaysSound(w, step);
    case Crash(_, _) => WorkStaysSound(w, step);
    case _ => OutsideStepsStaySound(w, step);
  }

  ghost predicate AllEnabled(w: World, steps: seq<Step>)
    decreases |steps|
  {
    steps == [] || (Enabled(w, steps[0]) && AllEnabled(Do(w, steps[0]), steps[1..]))
  }

  ghost function After(w: World, steps: seq<Step>): World
    requires AllEnabled(w, steps)
    decreases |steps|
  {
    if steps == [] then w else After(Do(w, steps[0]), steps[1..])
  }

  /** A run goes on by exactly the steps that are enabled where it has come to. */
  lemma {:induction false} RunGoesOn(w: World, steps: seq<Step>, step: Step)
    ensures AllEnabled(w, []) && After(w, []) == w
    ensures AllEnabled(w, steps + [step]) <==> AllEnabled(w, steps) && Enabled(After(w, steps), step)
    ensures AllEnabled(w, steps + [step]) ==> After(w, steps + [step]) == Do(After(w, steps), step)
    decreases |steps|
  {
    hide Do, Enabled;
    if steps == [] {
      assert (steps + [step])[1..] == [];
    } else {
      assert (steps + [step])[1..] == steps[1..] + [step];
      if Enabled(w, steps[0]) {
        RunGoesOn(Do(w, steps[0]), steps[1..], step);
      }
    }
  }

  lemma {:induction false} RunStaysSound(w: World, steps: seq<Step>)
    requires Sound(w) && AllEnabled(w, steps)
    ensures Sound(After(w, steps))
    decreases |steps|
  {
    hide Sound, Do, Enabled;
    if steps != [] {
      StepStaysSound(w, steps[0]);
      RunStaysSound(Do(w, steps[0]), steps[1..]);
    }
  }

  /** Over every interleaving of workers, crashes and the approval endpoints: no action is claimed
      by two workers or executed twice, every guarded update finds its running row, and a worker
      has claimed what it completed, failed and still has to do, never more than its limit. */
  lemma ActionsRunAtMostOnce(actions: Actions, steps: seq<Step>)
    requires AllEnabled(World(actions, map[], []), steps)
    ensures var w := After(World(actions, map[], []), steps);
      && (forall i, j :: 0 <= i < j < |w.executions| ==> w.executions[i] != w.executions[j])
      && (forall p, q, a ::
        p in w.workers && q in w.workers && a in w.workers[p].claimed && a in w.workers[q].claimed ==> p == q)
      && (forall a :: a in w.executions ==> exists p :: p in w.workers && a in w.workers[p].claimed)
      && (forall p :: Busy(w, p) ==> UpdateFinds(w.actions, Current(w, p)))
      && forall p :: p in w.workers ==>
        && Distinct(w.workers[p].claimed)
        && w.workers[p].completed + w.workers[p].failed <= |w.workers[p].claimed| <= w.workers[p].limit
        && (!Busy(w, p) && !w.workers[p].crashed ==>
          |w.workers[p].claimed| == w.workers[p].completed + w.workers[p].failed)
  {
    assert Sound(World(actions, map[], []));
    RunStaysSound(World(actions, map[], []), steps);
    hide After, AllEnabled;
    var w := After(World(actions, map[], []), steps);
    forall p | Busy(w, p)
      ensures UpdateFinds(w.actions, Current(w, p))
    {
      ExecutionIsNew(w, p);
    }
  }
}
