/** What every run of the deploy queue guarantees. */
module QueueTheorems {
  import opened Bytes
  import opened Status
  import opened Deployments
  import opened Queue
  import opened QueueInvariant

  // ------------------------------------------------------------------- safety

  lemma {:induction false} InvAlong(cfg: Config, ss: seq<State>, es: seq<Event>, i: nat)
    requires IsRun(cfg, ss, es) && i <= |es|
    ensures Inv(ss[i])
  {
    if i == 0 {
      InvInit();
    } else {
      InvAlong(cfg, ss, es, i - 1);
      InvKept(cfg, ss[i - 1], es[i - 1]);
    }
  }

  /** The pipeline may be working on the app's containers. */
  predicate AtContainers(stage: Stage) { stage.Gated? || stage.Shipped? || stage == Failing(Deploying) }

  predicate HeldOnce(s: State, i: nat) {
    HeldBy(s, i) && !(i in s.pipes && s.disp.Holding? && s.disp.id == i)
  }

  /** One active row per app, each held by exactly one party; at most four pipelines; at most one
      pipeline per app past the gate; and none of a cancelled row. */
  ghost predicate Safe(s: State) {
    && OneActive(s.table)
    && (s.up ==> forall i :: 0 <= i < |s.table| && IsActive(s.table[i].status) ==> HeldOnce(s, i))
    && |s.pipes| <= 4
    && (forall a, b :: a in s.pipes && b in s.pipes && a != b && s.pipes[a].dep.app == s.pipes[b].dep.app
          ==> !(AtContainers(s.pipes[a].stage) && AtContainers(s.pipes[b].stage)))
    && (forall id :: id in s.pipes && id < |s.table| && s.table[id].status == Cancelled ==> !AtContainers(s.pipes[id].stage))
  }

  lemma InvIsSafe(s: State)
    requires Inv(s)
    ensures Safe(s)
  {
    forall a, b | a in s.pipes && b in s.pipes && a != b && s.pipes[a].dep.app == s.pipes[b].dep.app
      ensures !(AtContainers(s.pipes[a].stage) && AtContainers(s.pipes[b].stage))
    {
      assert PipeFits(s.table, a, s.pipes[a]) && PipeFits(s.table, b, s.pipes[b]);
      assert NotBothActive(s.table, a, b) && NotBothActive(s.table, b, a);
    }
    forall id | id in s.pipes && id < |s.table| && s.table[id].status == Cancelled
      ensures !AtContainers(s.pipes[id].stage)
    {
      assert PipeFits(s.table, id, s.pipes[id]);
    }
  }

  /** Whatever the participants do, in whatever order, the queue is safe. */
  lemma ReachableIsSafe(cfg: Config, s: State)
    requires Reachable(cfg, s)
    ensures Safe(s)
  {
    var ss, es :| IsRun(cfg, ss, es) && ss[|es|] == s;
    InvAlong(cfg, ss, es, |es|);
    InvIsSafe(s);
  }

  /** A pipeline whose row was cancelled during the build goes straight from the gate to its return. */
  lemma CancelledStopsAtGate(cfg: Config, s: State, id: nat)
    requires Reachable(cfg, s) && Enabled(s, Run(id, Gate))
    ensures s.table[id].status in {Building, Cancelled}
    ensures var s' := Apply(cfg, s, Run(id, Gate));
      if s.table[id].status == Building
      then s'.pipes[id].stage == Gated && s'.table[id].status == Deploying
      else s'.pipes[id].stage == Returned && s'.table == s.table
  {
    var ss, es :| IsRun(cfg, ss, es) && ss[|es|] == s;
    InvAlong(cfg, ss, es, |es|);
    assert PipeFits(s.table, id, s.pipes[id]);
  }

  // ------------------------------------------------------- every claim is settled

  /** When a pipeline returns, its row is terminal, whatever failed and whenever it was cancelled. */
  lemma ReturnedIsTerminal(cfg: Config, s: State, id: nat)
    requires Reachable(cfg, s) && Enabled(s, Run(id, Return))
    ensures IsTerminal(s.table[id].status)
  {
    var ss, es :| IsRun(cfg, ss, es) && ss[|es|] == s;
    InvAlong(cfg, ss, es, |es|);
    assert PipeFits(s.table, id, s.pipes[id]);
  }

  /** How many steps a pipeline at this stage can still take. */
  function StepsLeft(stage: Stage): nat {
    match stage
    case Starting => 7
    case Tagging(_) => 6
    case Preparing => 5
    case Built => 4
    case Gated => 3
    case Shipped => 2
    case Retiring | Failing(_) | Skipping => 1
    case Returned => 0
  }

  /** A pipeline is never stuck, and each of its steps but the last brings it closer to returning. */
  lemma PipelinesFinish(cfg: Config, s: State, id: nat)
    requires Reachable(cfg, s) && s.up && id in s.pipes
    ensures exists act :: Enabled(s, Run(id, act))
    ensures forall act :: Enabled(s, Run(id, act)) && act != Return ==>
      id in Apply(cfg, s, Run(id, act)).pipes
      && StepsLeft(Apply(cfg, s, Run(id, act)).pipes[id].stage) < StepsLeft(s.pipes[id].stage)
    ensures Enabled(s, Run(id, Return)) ==> id !in Apply(cfg, s, Run(id, Return)).pipes
  {
    var ss, es :| IsRun(cfg, ss, es) && ss[|es|] == s;
    InvAlong(cfg, ss, es, |es|);
    assert PipeFits(s.table, id, s.pipes[id]);
    assert s.pipes.Keys != {} && |s.pipes| > 0;
    var act := SomeAct(s.pipes[id].stage);
    assert Enabled(s, Run(id, act));
    forall act | Enabled(s, Run(id, act)) && act != Return
      ensures StepsLeft(Apply(cfg, s, Run(id, act)).pipes[id].stage) < StepsLeft(s.pipes[id].stage)
    {
      StageAdvances(cfg, s.table, id, s.pipes[id], act);
    }
  }

  function SomeAct(stage: Stage): (act: Act)
    ensures ActEnabled(stage, act)
  {
    match stage
    case Starting => Settle([])
    case Tagging(_) => WriteTag
    case Preparing => Build([])
    case Built => Gate
    case Gated => DeployFails
    case Shipped => GoLive
    case Retiring => Retire
    case Failing(_) => WriteFailure
    case Skipping => WriteSkip
    case Returned => Return
  }

  lemma StageAdvances(cfg: Config, t: Table, id: nat, p: Pipe, act: Act)
    requires ActEnabled(p.stage, act) && act != Return
    ensures StepsLeft(NextStage(cfg, t, id, p, act)) < StepsLeft(p.stage)
  {
    if act.Settle? {
      SettledStage(cfg, t, p.dep, act.listed);
      SettlesAdvances(Settled(cfg, t, p.dep, act.listed));
    }
  }

  lemma SettlesAdvances(stage: Stage)
    requires stage.Preparing? || stage.Skipping? || stage.Tagging? || stage == Failing(Building)
    ensures StepsLeft(stage) < StepsLeft(Starting)
  {
  }

  // ------------------------------------------------------------- status changes

  lemma RunWritesEdges(cfg: Config, t: Table, id: nat, p: Pipe, act: Act)
    requires PipeFits(t, id, p) && ActEnabled(p.stage, act)
    ensures OnlyEdges(t, Written(cfg, t, id, p, act))
  {
  }

  lemma RunFollowsEdges(cfg: Config, s: State, id: nat, act: Act)
    requires Inv(s) && Enabled(s, Run(id, act))
    ensures OnlyEdges(s.table, RunStep(cfg, s, id, act).table)
  {
    assert PipeFits(s.table, id, s.pipes[id]);
    if !act.Return? { RunWritesEdges(cfg, s.table, id, s.pipes[id], act); }
  }

  /** Every step of every participant moves statuses along edges of the matrix only. */
  lemma StepFollowsEdges(cfg: Config, s: State, e: Event)
    requires Enabled(s, e) && Inv(s)
    ensures OnlyEdges(s.table, Apply(cfg, s, e).table)
  {
    if e.Run? {
      RunFollowsEdges(cfg, s, e.id, e.act);
    } else if e.CancelWrite? {
      CancelFollowsEdges(cfg, s, e);
    } else if e.Claim? {
      ClaimFollowsEdges(cfg, s);
    } else if e.Restart? {
      WritesFollowEdges(s.table, 0, Building, Failed, e.reason, 0);
    } else {
      OthersOnlyAppend(cfg, s, e);
    }
  }

  lemma CancelFollowsEdges(cfg: Config, s: State, e: Event)
    requires Enabled(s, e) && e.CancelWrite?
    ensures OnlyEdges(s.table, Apply(cfg, s, e).table)
  {
    ClassesAgreeWithMatrix(e.from);
    WritesFollowEdges(s.table, e.id, e.from, Cancelled, [], 0);
  }

  lemma ClaimFollowsEdges(cfg: Config, s: State)
    requires Enabled(s, Claim)
    ensures OnlyEdges(s.table, Apply(cfg, s, Claim).table)
  {
    WritesFollowEdges(s.table, s.disp.id, Building, Failed, [], 0);
  }

  lemma OthersOnlyAppend(cfg: Config, s: State, e: Event)
    requires Enabled(s, e) && !e.Run? && !e.CancelWrite? && !e.Claim? && !e.Restart?
    ensures s.table <= Apply(cfg, s, e).table
    ensures forall i :: |s.table| <= i < |Apply(cfg, s, e).table| ==> Apply(cfg, s, e).table[i].status == Queued
  {
  }

  predicate Changes(t: Table, u: Table, id: nat) {
    id < |t| && id < |u| && t[id].status != u[id].status
  }

  /** How often row `id` changes status along a sequence of states. */
  function ChangeCount(ss: seq<State>, id: nat): nat {
    if |ss| < 2 then 0
    else ChangeCount(ss[..|ss| - 1], id) + (if Changes(ss[|ss| - 2].table, ss[|ss| - 1].table, id) then 1 else 0)
  }

  lemma {:induction false} ChangesWithinRank(cfg: Config, ss: seq<State>, es: seq<Event>, id: nat, n: nat)
    requires IsRun(cfg, ss, es) && n <= |es|
    ensures ChangeCount(ss[..n + 1], id) <= if id < |ss[n].table| then Rank(ss[n].table[id].status) else 0
  {
    if n > 0 {
      ChangesWithinRank(cfg, ss, es, id, n - 1);
      InvAlong(cfg, ss, es, n - 1);
      StepFollowsEdges(cfg, ss[n - 1], es[n - 1]);
      assert ss[..n + 1][..n] == ss[..n];
      if Changes(ss[n - 1].table, ss[n].table, id) {
        EdgesMoveForward(ss[n - 1].table[id].status, ss[n].table[id].status);
      }
    }
  }

  /** Over any run, crashes and restarts included, a row changes status at most four times. */
  lemma AtMostFourChanges(cfg: Config, ss: seq<State>, es: seq<Event>, id: nat)
    requires IsRun(cfg, ss, es)
    ensures ChangeCount(ss, id) <= 4
  {
    ChangesWithinRank(cfg, ss, es, id, |es|);
    assert ss[..|es| + 1] == ss;
  }

  // ------------------------------------------------------------------ recovery

  /** After a crash anywhere and the restart, nothing is active, nothing is held, every row that was
      not in a pipeline is untouched, and the queue is safe again. */
  lemma RestartRecovers(cfg: Config, s: State, reason: Str)
    requires Reachable(cfg, s) && !s.up
    ensures var s' := Apply(cfg, s, Restart(reason));
      && Inv(s') && s'.up && s'.pipes == map[] && s'.disp == Idle && s'.slots == 0
      && (forall i :: 0 <= i < |s'.table| ==> !IsActive(s'.table[i].status))
      && (forall i :: 0 <= i < |s.table| && !IsActive(s.table[i].status) ==> s'.table[i] == s.table[i])
      && (forall app :: Live(s'.table, app) == Live(s.table, app))
  {
    var ss, es :| IsRun(cfg, ss, es) && ss[|es|] == s;
    InvAlong(cfg, ss, es, |es|);
    RestartKeeps(s, reason);
    RecoverClears(s.table, reason);
  }

  // ------------------------------------------------------------- order of deploys

  /** Rows of one app are claimed, and go live, in increasing creation order. */
  lemma ClaimedAndLiveInOrder(cfg: Config, s: State)
    requires Reachable(cfg, s)
    ensures Rising(s.table, s.claims) && Rising(s.table, s.lives)
    ensures forall i :: 0 <= i < |s.table| && Started(s.table[i].status) ==> i in s.claims
    ensures forall i :: 0 <= i < |s.table| && WentLive(s.table[i].status) ==> i in s.lives
  {
    var ss, es :| IsRun(cfg, ss, es) && ss[|es|] == s;
    InvAlong(cfg, ss, es, |es|);
  }

  /** The last row of an app that went live. */
  function LastLive(t: Table, lives: seq<nat>, app: int): Option<nat> {
    if lives == [] then None
    else
      var id := lives[|lives| - 1];
      if id < |t| && t[id].app == app then Some(id) else LastLive(t, lives[..|lives| - 1], app)
  }

  /** LiveDeployment answers with the last deployment that went live. */
  predicate LiveIsLast(s: State, app: int) {
    Live(s.table, app) == LastLive(s.table, s.lives, app)
  }

  /** A pipeline about to retire others is itself the live one. */
  predicate RetirerIsLive(s: State, id: nat) {
    id in s.pipes && s.pipes[id].stage.Retiring? ==> Live(s.table, s.pipes[id].dep.app) == Some(id)
  }

  ghost predicate PromptInv(s: State) {
    Inv(s) && (forall app :: LiveIsLast(s, app)) && (forall id :: RetirerIsLive(s, id))
  }

  lemma {:induction false} LastLiveSameApps(t: Table, u: Table, lives: seq<nat>, app: int)
    requires |t| <= |u| && forall i :: 0 <= i < |t| ==> u[i].app == t[i].app
    requires forall k :: 0 <= k < |lives| ==> lives[k] < |t|
    ensures LastLive(u, lives, app) == LastLive(t, lives, app)
  {
    if lives != [] { LastLiveSameApps(t, u, lives[..|lives| - 1], app); }
  }

  /** The same rows run, and rows may be appended. */
  predicate SameRunning(t: Table, u: Table) {
    && |t| <= |u|
    && (forall i :: 0 <= i < |t| ==> u[i].app == t[i].app && (u[i].status == Running <==> t[i].status == Running))
    && (forall i :: |t| <= i < |u| ==> u[i].status != Running)
  }

  lemma SameRunningSameLive(t: Table, u: Table)
    requires SameRunning(t, u)
    ensures forall app :: Live(u, app) == Live(t, app)
  {
    forall app ensures Live(u, app) == Live(t, app) {
      LiveUnique(u, app, Live(u, app), Live(t, app));
    }
  }

  /** Steps other than going live and retiring leave the running rows alone. */
  lemma StepSameRunning(cfg: Config, s: State, e: Event)
    requires Inv(s) && Enabled(s, e)
    requires e.Run? ==> !e.act.GoLive? && !e.act.Retire?
    ensures SameRunning(s.table, Apply(cfg, s, e).table)
    ensures Apply(cfg, s, e).lives == s.lives
  {
    if e.Run? {
      assert PipeFits(s.table, e.id, s.pipes[e.id]);
      RunSameRunning(cfg, s, e.id, e.act);
    }
  }

  lemma RunSameRunning(cfg: Config, s: State, id: nat, act: Act)
    requires Enabled(s, Run(id, act)) && PipeFits(s.table, id, s.pipes[id]) && !act.GoLive? && !act.Retire?
    ensures SameRunning(s.table, RunStep(cfg, s, id, act).table) && RunStep(cfg, s, id, act).lives == s.lives
  {
    if !act.Return? { OwnRow(cfg, s.table, id, s.pipes[id], act); }
  }

  lemma QuietStepKeeps(cfg: Config, s: State, e: Event)
    requires PromptInv(s) && Enabled(s, e)
    requires e.Run? ==> !e.act.GoLive? && !e.act.Retire?
    ensures PromptInv(Apply(cfg, s, e))
  {
    var s' := Apply(cfg, s, e);
    InvKept(cfg, s, e);
    StepSameRunning(cfg, s, e);
    SameRunningSameLive(s.table, s'.table);
    forall app ensures LiveIsLast(s', app) { QuietLiveIsLast(s, s', app); }
    forall id ensures RetirerIsLive(s', id) {
      assert RetirerIsLive(s, id);
      if id in s'.pipes && s'.pipes[id].stage.Retiring? { NoNewRetirer(cfg, s, e, id); }
    }
  }

  lemma LivesInTable(s: State)
    requires LiveOrder(s.table, s.claims, s.lives) && Fits(s)
    ensures forall k :: 0 <= k < |s.lives| ==> s.lives[k] < |s.table|
  {
  }

  lemma QuietLiveIsLast(s: State, s': State, app: int)
    requires LiveIsLast(s, app) && SameRunning(s.table, s'.table) && s'.lives == s.lives
    requires Live(s'.table, app) == Live(s.table, app)
    requires forall k :: 0 <= k < |s.lives| ==> s.lives[k] < |s.table|
    ensures LiveIsLast(s', app)
  {
    LastLiveSameApps(s.table, s'.table, s.lives, app);
  }

  lemma NoNewRetirer(cfg: Config, s: State, e: Event, id: nat)
    requires Enabled(s, e) && (e.Run? ==> !e.act.GoLive?)
    requires var s' := Apply(cfg, s, e); id in s'.pipes && s'.pipes[id].stage.Retiring?
    ensures id in s.pipes && s.pipes[id].stage.Retiring?
    ensures Apply(cfg, s, e).pipes[id].dep.app == s.pipes[id].dep.app
  {
    if e.Run? && e.id == id && e.act.Settle? { SettledStage(cfg, s.table, s.pipes[id].dep, e.act.listed); }
  }

  lemma YoungestClaimed(t: Table, claims: seq<nat>, id: nat)
    requires ClaimOrder(t, claims) && ActiveAt(t, id)
    ensures forall i :: 0 <= i < |t| && t[i].app == t[id].app && Started(t[i].status) ==> i <= id
  {
    forall i | 0 <= i < |t| && t[i].app == t[id].app && Started(t[i].status) ensures i <= id {
      var k :| 0 <= k < |claims| && claims[k] == i;
      assert OlderThanWaiting(t, claims, k, id);
    }
  }

  /** The row going live is the youngest running row of its app, and other apps see nothing. */
  lemma GoLiveLive(t: Table, u: Table, claims: seq<nat>, id: nat)
    requires ClaimOrder(t, claims) && RowMoved(t, u, id, Running) && t[id].status == Deploying
    ensures Live(u, t[id].app) == Some(id)
    ensures forall other :: other != t[id].app ==> Live(u, other) == Live(t, other)
  {
    var app := t[id].app;
    YoungestClaimed(t, claims, id);
    LiveUnique(u, app, Live(u, app), Some(id));
    forall other | other != app ensures Live(u, other) == Live(t, other) {
      LiveUnique(u, other, Live(u, other), Live(t, other));
    }
  }

  lemma GoLiveStep(cfg: Config, s: State, id: nat)
    requires Inv(s) && Enabled(s, Run(id, GoLive))
    ensures var s' := Apply(cfg, s, Run(id, GoLive));
      && Inv(s') && RowMoved(s.table, s'.table, id, Running) && s.table[id].status == Deploying
      && s'.lives == s.lives + [id] && s'.pipes == s.pipes[id := s.pipes[id].(stage := Retiring)]
      && s.pipes[id].dep.app == s.table[id].app
  {
    InvKept(cfg, s, Run(id, GoLive));
    assert PipeFits(s.table, id, s.pipes[id]);
    GoLiveShape(cfg, s, id);
  }

  lemma GoLiveShape(cfg: Config, s: State, id: nat)
    requires Enabled(s, Run(id, GoLive)) && PipeFits(s.table, id, s.pipes[id])
    ensures var s' := RunStep(cfg, s, id, GoLive);
      && RowMoved(s.table, s'.table, id, Running) && s.table[id].status == Deploying
      && s'.lives == s.lives + [id] && s'.pipes == s.pipes[id := s.pipes[id].(stage := Retiring)]
  {
  }

  lemma GoLiveIsLast(s: State, s': State, id: nat, app: int)
    requires LiveIsLast(s, app) && forall k :: 0 <= k < |s.lives| ==> s.lives[k] < |s.table|
    requires RowMoved(s.table, s'.table, id, Running) && s'.lives == s.lives + [id]
    requires Live(s'.table, s.table[id].app) == Some(id)
    requires app != s.table[id].app ==> Live(s'.table, app) == Live(s.table, app)
    ensures LiveIsLast(s', app)
  {
    assert s'.lives[..|s'.lives| - 1] == s.lives;
    LastLiveSameApps(s.table, s'.table, s.lives, app);
  }

  lemma GoLiveStepKeeps(cfg: Config, s: State, id: nat)
    requires PromptInv(s) && Enabled(s, Run(id, GoLive)) && Prompt(s, Run(id, GoLive))
    ensures PromptInv(Apply(cfg, s, Run(id, GoLive)))
  {
    var s' := Apply(cfg, s, Run(id, GoLive));
    GoLiveStep(cfg, s, id);
    GoLiveLive(s.table, s'.table, s.claims, id);
    LivesInTable(s);
    forall app ensures LiveIsLast(s', app) {
      assert LiveIsLast(s, app);
      GoLiveIsLast(s, s', id, app);
    }
    NoOtherRetirer(s, s', id);
  }

  lemma NoOtherRetirer(s: State, s': State, id: nat)
    requires forall k :: RetirerIsLive(s, k)
    requires id in s.pipes && Prompt(s, Run(id, GoLive))
    requires s'.pipes == s.pipes[id := s.pipes[id].(stage := Retiring)]
    requires Live(s'.table, s.pipes[id].dep.app) == Some(id)
    requires forall other :: other != s.pipes[id].dep.app ==> Live(s'.table, other) == Live(s.table, other)
    ensures forall k :: RetirerIsLive(s', k)
  {
    forall k ensures RetirerIsLive(s', k) { assert RetirerIsLive(s, k); }
  }

  lemma RetireStepKeeps(cfg: Config, s: State, id: nat)
    requires PromptInv(s) && Enabled(s, Run(id, Retire))
    ensures PromptInv(Apply(cfg, s, Run(id, Retire)))
    ensures forall app :: Live(Apply(cfg, s, Run(id, Retire)).table, app) == Live(s.table, app)
  {
    var s' := Apply(cfg, s, Run(id, Retire));
    InvKept(cfg, s, Run(id, Retire));
    assert RetirerIsLive(s, id);
    SupersedeKeepsLive(s.table, s.pipes[id].dep.app, id);
    RetireKeepsLast(s, s', id);
  }

  lemma RetireKeepsLast(s: State, s': State, id: nat)
    requires (forall app :: LiveIsLast(s, app)) && (forall k :: RetirerIsLive(s, k)) && id in s.pipes
    requires s'.table == Retired(s.table, s.pipes[id].dep.app, id) && s'.lives == s.lives
    requires s'.pipes == s.pipes[id := s.pipes[id].(stage := Returned)]
    requires forall app :: Live(s'.table, app) == Live(s.table, app)
    requires forall k :: 0 <= k < |s.lives| ==> s.lives[k] < |s.table|
    ensures (forall app :: LiveIsLast(s', app)) && (forall k :: RetirerIsLive(s', k))
  {
    forall app ensures LiveIsLast(s', app) {
      assert LiveIsLast(s, app);
      LastLiveSameApps(s.table, s'.table, s.lives, app);
    }
    forall k ensures RetirerIsLive(s', k) { assert RetirerIsLive(s, k); }
  }

  lemma PromptInvKept(cfg: Config, s: State, e: Event)
    requires PromptInv(s) && Enabled(s, e) && Prompt(s, e)
    ensures PromptInv(Apply(cfg, s, e))
  {
    if e.Run? && e.act.GoLive? {
      GoLiveStepKeeps(cfg, s, e.id);
    } else if e.Run? && e.act.Retire? {
      RetireStepKeeps(cfg, s, e.id);
    } else {
      QuietStepKeeps(cfg, s, e);
    }
  }

  lemma {:induction false} PromptInvAlong(cfg: Config, ss: seq<State>, es: seq<Event>, i: nat)
    requires IsPromptRun(cfg, ss, es) && i <= |es|
    ensures PromptInv(ss[i])
  {
    if i == 0 {
      InvInit();
    } else {
      PromptInvAlong(cfg, ss, es, i - 1);
      PromptInvKept(cfg, ss[i - 1], es[i - 1]);
    }
  }

  /** While the running write and the supersede write stay adjacent, LiveDeployment always answers
      with the last deployment of the app that went live: also after crashes between the two writes,
      which leave two running rows. */
  lemma LiveIsLastDeployed(cfg: Config, ss: seq<State>, es: seq<Event>, app: int)
    requires IsPromptRun(cfg, ss, es)
    ensures LiveIsLast(ss[|es|], app)
  {
    PromptInvAlong(cfg, ss, es, |es|);
    assert LiveIsLast(ss[|es|], app);
  }

  /** A supersede write finds its own row live. */
  predicate Timely(s: State, e: Event) {
    e.Run? && e.act.Retire? && e.id in s.pipes ==> Live(s.table, s.pipes[e.id].dep.app) == Some(e.id)
  }

  ghost predicate AllLast(s: State) {
    forall app :: LiveIsLast(s, app)
  }

  /** A supersede write keeps LiveDeployment the last deployment that went live exactly when it is timely. */
  lemma RetireKeepsLastExactly(cfg: Config, s: State, id: nat)
    requires Inv(s) && AllLast(s) && Enabled(s, Run(id, Retire))
    ensures AllLast(Apply(cfg, s, Run(id, Retire))) <==> Timely(s, Run(id, Retire))
  {
    var s', app := Apply(cfg, s, Run(id, Retire)), s.pipes[id].dep.app;
    assert PipeFits(s.table, id, s.pipes[id]);
    SupersedeKeepsLive(s.table, app, id);
    forall other ensures LastLive(s'.table, s'.lives, other) == LastLive(s.table, s.lives, other) {
      LastLiveSameApps(s.table, s'.table, s.lives, other);
    }
    assert LiveIsLast(s, app);
    if Live(s.table, app) == Some(id) {
      forall other ensures LiveIsLast(s', other) { assert LiveIsLast(s, other); }
    } else {
      WentLiveIsLast(s.table, s.lives, app, id);
      assert !LiveIsLast(s', app);
    }
  }

  lemma {:induction false} WentLiveIsLast(t: Table, lives: seq<nat>, app: int, id: nat)
    requires id in lives && id < |t| && t[id].app == app
    ensures LastLive(t, lives, app) != None
  {
    if lives[|lives| - 1] != id {
      assert lives == lives[..|lives| - 1] + [lives[|lives| - 1]];
      WentLiveIsLast(t, lives[..|lives| - 1], app, id);
    }
  }

  lemma StepKeepsLastExactly(cfg: Config, s: State, e: Event)
    requires Inv(s) && AllLast(s) && Enabled(s, e)
    ensures AllLast(Apply(cfg, s, e)) <==> Timely(s, e)
  {
    var s' := Apply(cfg, s, e);
    if e.Run? && e.act.Retire? {
      RetireKeepsLastExactly(cfg, s, e.id);
    } else if e.Run? && e.act.GoLive? {
      GoLiveStep(cfg, s, e.id);
      GoLiveLive(s.table, s'.table, s.claims, e.id);
      LivesInTable(s);
      forall app ensures LiveIsLast(s', app) {
        assert LiveIsLast(s, app);
        GoLiveIsLast(s, s', e.id, app);
      }
    } else {
      StepSameRunning(cfg, s, e);
      SameRunningSameLive(s.table, s'.table);
      forall app ensures LiveIsLast(s', app) {
        assert LiveIsLast(s, app);
        QuietLiveIsLast(s, s', app);
      }
    }
  }

  ghost predicate TimelyUpTo(ss: seq<State>, es: seq<Event>, n: nat)
    requires n <= |es| < |ss|
  {
    forall i :: 0 <= i < n ==> Timely(ss[i], es[i])
  }

  ghost predicate IsTimelyRun(cfg: Config, ss: seq<State>, es: seq<Event>) {
    IsRun(cfg, ss, es) && TimelyUpTo(ss, es, |es|)
  }

  ghost predicate LastUpTo(ss: seq<State>, n: nat)
    requires n < |ss|
  {
    forall i :: 0 <= i <= n ==> AllLast(ss[i])
  }

  lemma {:induction false} LastWhileTimely(cfg: Config, ss: seq<State>, es: seq<Event>, n: nat)
    requires IsRun(cfg, ss, es) && n <= |es|
    ensures LastUpTo(ss, n) <==> TimelyUpTo(ss, es, n)
  {
    if n == 0 {
      NoneLast(ss[0]);
    } else {
      LastWhileTimely(cfg, ss, es, n - 1);
      InvAlong(cfg, ss, es, n - 1);
      if LastUpTo(ss, n - 1) { StepKeepsLastExactly(cfg, ss[n - 1], es[n - 1]); }
      OneFurther(ss, es, n);
    }
  }

  lemma NoneLast(s: State)
    requires s == INIT
    ensures AllLast(s)
  {
    forall app ensures LiveIsLast(s, app) {}
  }

  lemma OneFurther(ss: seq<State>, es: seq<Event>, n: nat)
    requires 0 < n <= |es| < |ss|
    ensures LastUpTo(ss, n) <==> LastUpTo(ss, n - 1) && AllLast(ss[n])
    ensures TimelyUpTo(ss, es, n) <==> TimelyUpTo(ss, es, n - 1) && Timely(ss[n - 1], es[n - 1])
  {
  }

  /** LiveDeployment answers with the last deployment that went live in every state of a run, for every
      app, if and only if every supersede write of the run finds its own row live. */
  lemma LiveIsLastExactly(cfg: Config, ss: seq<State>, es: seq<Event>)
    requires IsRun(cfg, ss, es)
    ensures LastUpTo(ss, |es|) <==> IsTimelyRun(cfg, ss, es)
  {
    LastWhileTimely(cfg, ss, es, |es|);
  }

  /** In particular when the running write and the supersede write of a pipeline stay adjacent. */
  lemma PromptIsTimely(cfg: Config, ss: seq<State>, es: seq<Event>)
    requires IsPromptRun(cfg, ss, es)
    ensures IsTimelyRun(cfg, ss, es)
  {
    forall i | 0 <= i < |es| ensures Timely(ss[i], es[i]) {
      PromptInvAlong(cfg, ss, es, i);
      if es[i].Run? { assert RetirerIsLive(ss[i], es[i].id); }
    }
  }

  /** In any state, a supersede write changes the app's live row exactly when another row has
      become the live one since: this pipeline's row must still be it. */
  lemma LateRetireExactly(cfg: Config, s: State, id: nat)
    requires Enabled(s, Run(id, Retire))
    ensures var app := s.pipes[id].dep.app;
      Live(Apply(cfg, s, Run(id, Retire)).table, app) == Live(s.table, app)
      <==> Live(s.table, app) == Some(id) || Live(s.table, app) == None
  {
    SupersedeKeepsLive(s.table, s.pipes[id].dep.app, id);
  }

  // ------------------------------------------------ the race promptness excludes

  lemma ReachableStep(cfg: Config, s: State, e: Event)
    requires Reachable(cfg, s) && Enabled(s, e)
    ensures Reachable(cfg, Apply(cfg, s, e))
  {
    var ss, es :| IsRun(cfg, ss, es) && ss[|es|] == s;
    RunExtends(cfg, ss, es, e, Apply(cfg, s, e));
    assert (ss + [Apply(cfg, s, e)])[|es + [e]|] == Apply(cfg, s, e);
  }

  lemma RunExtends(cfg: Config, ss: seq<State>, es: seq<Event>, e: Event, next: State)
    requires IsRun(cfg, ss, es) && Enabled(ss[|es|], e) && next == Apply(cfg, ss[|es|], e)
    ensures IsRun(cfg, ss + [next], es + [e])
  {
    var more, events := ss + [next], es + [e];
    forall i | 0 <= i < |events| ensures Enabled(more[i], events[i]) && more[i + 1] == Apply(cfg, more[i], events[i]) {
      if i < |es| { assert more[i] == ss[i] && more[i + 1] == ss[i + 1] && events[i] == es[i]; }
    }
  }

  /** Nothing waits or is active, so a new row is the next one to ship. */
  predicate Quiet(s: State) {
    s.up && s.disp.Idle? && s.slots < SLOTS && forall i :: 0 <= i < |s.table| ==> IsTerminal(s.table[i].status)
  }

  function Shippable(app: int): Row { NewRow(app).(status := Deploying, image := [0]) }

  function Shipping(app: int, stage: Stage): Pipe { Pipe(NewRow(app), stage) }

  /** A row enqueued in a quiet state can be picked, claimed and launched. */
  lemma ReachLaunched(cfg: Config, s: State, e: Event, row: Row)
    returns (s': State)
    requires Reachable(cfg, s) && Quiet(s) && Enabled(s, e) && row.status == Queued
    requires Apply(cfg, s, e) == s.(table := s.table + [row])
    ensures Reachable(cfg, s')
    ensures s' == s.(table := s.table + [row.(status := Building)], slots := s.slots + 1, claims := s.claims + [|s.table|],
                     pipes := s.pipes[|s.table| := Pipe(row, Starting)])
  {
    var id := |s.table|;
    var queued := s.(table := s.table + [row]);
    ReachableStep(cfg, s, e);
    ReachableStep(cfg, queued, TakeSlot);
    var slotted := queued.(disp := Slotted, slots := s.slots + 1);
    assert IsNextClaimable(slotted.table, Some(id));
    ReachableStep(cfg, slotted, Pick(id));
    var picked := slotted.(disp := Picked(id, row));
    assert Apply(cfg, slotted, Pick(id)) == picked;
    s' := ReachClaimed(cfg, s, picked, row);
  }

  lemma ReachClaimed(cfg: Config, s: State, picked: State, row: Row)
    returns (s': State)
    requires Reachable(cfg, picked) && s.up && s.disp.Idle? && row.status == Queued
    requires picked == s.(table := s.table + [row], disp := Picked(|s.table|, row), slots := s.slots + 1)
    ensures Reachable(cfg, s')
    ensures s' == s.(table := s.table + [row.(status := Building)], slots := s.slots + 1, claims := s.claims + [|s.table|],
                     pipes := s.pipes[|s.table| := Pipe(row, Starting)])
  {
    var id := |s.table|;
    ReachableStep(cfg, picked, Claim);
    var building := s.table + [row.(status := Building)];
    assert Claimed(picked.table, id) == building;
    var holding := picked.(table := building, disp := Holding(id, row), claims := s.claims + [id]);
    assert Apply(cfg, picked, Claim) == holding;
    ReachableStep(cfg, holding, Launch);
    s' := holding.(disp := Idle, pipes := s.pipes[id := Pipe(row, Starting)]);
  }

  /** A click on Deploy in a quiet state can run up to its health-checked container. */
  lemma ReachShipped(cfg: Config, s: State, app: int)
    returns (s': State)
    requires Reachable(cfg, s) && Quiet(s) && !cfg(app).tagMode && !cfg(app).compose
    ensures Reachable(cfg, s')
    ensures s' == s.(table := s.table + [Shippable(app)], slots := s.slots + 1, claims := s.claims + [|s.table|],
                     pipes := s.pipes[|s.table| := Shipping(app, Shipped)])
  {
    var launched := ReachLaunched(cfg, s, Enqueue(app), NewRow(app));
    s' := ReachThroughGate(cfg, launched, app, |s.table|, s.pipes);
    assert s'.table == s.table + [Shippable(app)];
  }

  // ------------------------------------------------------------ pipelines that overlap

  /** Two pipelines of one app can run at once: the older row was cancelled during its build. */
  lemma PipelinesOverlap(cfg: Config, app: int)
    returns (s: State)
    ensures Reachable(cfg, s) && 0 in s.pipes && 1 in s.pipes && s.pipes[0].dep.app == s.pipes[1].dep.app == app
    ensures |s.table| == 2 && s.table[0].status == Cancelled && s.table[1].status == Building
  {
    assert IsRun(cfg, [INIT], []);
    var first := ReachLaunched(cfg, INIT, Enqueue(app), NewRow(app));
    ReachableStep(cfg, first, CancelWrite(0, Building));
    var cancelled := first.(table := [NewRow(app).(status := Cancelled)]);
    assert Apply(cfg, first, CancelWrite(0, Building)).table == cancelled.table;
    s := ReachLaunched(cfg, cancelled, Enqueue(app), NewRow(app));
  }

  /** But never with two active rows. */
  lemma OverlapHasOneActive(cfg: Config, s: State, a: nat, b: nat)
    requires Reachable(cfg, s) && a in s.pipes && b in s.pipes && a != b && s.pipes[a].dep.app == s.pipes[b].dep.app
    ensures !(ActiveAt(s.table, a) && ActiveAt(s.table, b))
  {
    ReachableInv(cfg, s);
    assert PipeFits(s.table, a, s.pipes[a]) && PipeFits(s.table, b, s.pipes[b]);
    assert NotBothActive(s.table, a, b) && NotBothActive(s.table, b, a);
  }

  /** A queued row can be claimed exactly when the rows of its app's pipelines, and of the one the
      dispatcher is about to launch, are settled. */
  lemma ClaimableExactly(cfg: Config, s: State, id: nat)
    requires Reachable(cfg, s) && s.up && Has(s.table, id, Queued)
    ensures Claimable(s.table, id) <==>
      (forall k: nat :: k < |s.table| && HeldBy(s, k) && s.table[k].app == s.table[id].app ==> !ActiveAt(s.table, k))
  {
    ReachableInv(cfg, s);
    if Busy(s.table, s.table[id].app) {
      var i :| 0 <= i < |s.table| && s.table[i].app == s.table[id].app && IsActive(s.table[i].status);
      assert HeldBy(s, i) && ActiveAt(s.table, i);
    }
  }

  lemma ReachableInv(cfg: Config, s: State)
    requires Reachable(cfg, s)
    ensures Inv(s)
  {
    var ss, es :| IsRun(cfg, ss, es) && ss[|es|] == s;
    InvAlong(cfg, ss, es, |es|);
  }

  /** One act of pipeline `id`, with the other pipelines kept apart. */
  lemma ReachAct(cfg: Config, s: State, others: map<nat, Pipe>, id: nat, p: Pipe, act: Act, u: Table, stage: Stage)
    returns (s': State)
    requires Reachable(cfg, s) && s.up && id < |s.table| && s.pipes == others[id := p]
    requires ActEnabled(p.stage, act) && OwnRowAct(act) && !act.WriteTag?
    requires u == Written(cfg, s.table, id, p, act) && stage == NextStage(cfg, s.table, id, p, act)
    ensures s' == s.(table := u, pipes := others[id := p.(stage := stage)])
    ensures Reachable(cfg, s')
  {
    ReachableStep(cfg, s, Run(id, act));
    s' := s.(table := u, pipes := others[id := p.(stage := stage)]);
    assert others[id := p][id := p.(stage := stage)] == s'.pipes;
    assert RunStep(cfg, s, id, act).lives == s.lives && NextDep(p, act) == p.dep;
    assert Apply(cfg, s, Run(id, act)) == s';
  }

  lemma ReachThroughGate(cfg: Config, s: State, app: int, id: nat, others: map<nat, Pipe>)
    returns (s': State)
    requires Reachable(cfg, s) && s.up && !cfg(app).tagMode && !cfg(app).compose
    requires id < |s.table| && s.table[id] == NewRow(app).(status := Building)
    requires s.pipes == others[id := Shipping(app, Starting)]
    ensures Reachable(cfg, s')
    ensures s' == s.(table := s.table[id := Shippable(app)], pipes := others[id := Shipping(app, Shipped)])
  {
    var t := s.table;
    var built := t[id := t[id].(image := [0])];
    var gated := t[id := Shippable(app)];
    assert Settled(cfg, t, NewRow(app), []) == Preparing;
    s' := ReachAct(cfg, s, others, id, Shipping(app, Starting), Settle([]), t, Preparing);
    s' := ReachAct(cfg, s', others, id, Shipping(app, Preparing), Build([0]), built, Built);
    assert Moved(built, id, Building, Deploying, []) == gated;
    s' := ReachAct(cfg, s', others, id, Shipping(app, Built), Gate, gated, Gated);
    s' := ReachAct(cfg, s', others, id, Shipping(app, Gated), DeployShips, gated, Shipped);
  }

  /** Without promptness the record can be lost: a first deploy's late supersede write retires the
      second one, and the app has no live row although two deployments went live. */
  lemma LateRetireLosesLive(cfg: Config, app: int)
    returns (s: State)
    requires !cfg(app).tagMode && !cfg(app).compose
    ensures Reachable(cfg, s) && s.lives == [0, 1] && |s.table| == 2 && s.table[0].app == s.table[1].app == app
    ensures Live(s.table, app) == None && !LiveIsLast(s, app)
  {
    assert IsRun(cfg, [INIT], []);
    var a := ReachShipped(cfg, INIT, app);
    ReachableStep(cfg, a, Run(0, GoLive));
    var live := Shippable(app).(status := Running);
    var b := State([live], Idle, map[0 := Shipping(app, Retiring)], 1, true, [0], [0]);
    assert Apply(cfg, a, Run(0, GoLive)).pipes == b.pipes;
    assert Apply(cfg, a, Run(0, GoLive)).table == b.table;
    var c := ReachShipped(cfg, b, app);
    s := RetireBoth(cfg, c, app);
  }

  lemma RetireBoth(cfg: Config, c: State, app: int)
    returns (s: State)
    requires Reachable(cfg, c) && c.up && c.lives == [0]
    requires c.table == [Shippable(app).(status := Running), Shippable(app)]
    requires c.pipes == map[0 := Shipping(app, Retiring), 1 := Shipping(app, Shipped)]
    ensures Reachable(cfg, s) && s.lives == [0, 1] && |s.table| == 2 && s.table[0].app == s.table[1].app == app
    ensures Live(s.table, app) == None && !LiveIsLast(s, app)
  {
    var d := ReachSecondLive(cfg, c, app);
    var live, old_ := Shippable(app).(status := Running), Shippable(app).(status := Superseded);
    var first, second := Shipping(app, Retiring), Shipping(app, Returned);
    var e := ReachRetire(cfg, d, app, 1, [old_, live], map[0 := first, 1 := second]);
    s := ReachRetire(cfg, e, app, 0, [old_, old_], map[0 := second, 1 := second]);
    NoneLive(s, app);
  }

  lemma ReachSecondLive(cfg: Config, c: State, app: int)
    returns (d: State)
    requires Reachable(cfg, c) && c.up && c.lives == [0]
    requires c.table == [Shippable(app).(status := Running), Shippable(app)]
    requires c.pipes == map[0 := Shipping(app, Retiring), 1 := Shipping(app, Shipped)]
    ensures var live, first := Shippable(app).(status := Running), Shipping(app, Retiring);
      d == c.(table := [live, live], pipes := map[0 := first, 1 := first], lives := [0, 1])
    ensures Reachable(cfg, d)
  {
    var live, first := Shippable(app).(status := Running), Shipping(app, Retiring);
    ReachableStep(cfg, c, Run(1, GoLive));
    d := c.(table := [live, live], pipes := map[0 := first, 1 := first], lives := [0, 1]);
    assert Apply(cfg, c, Run(1, GoLive)).pipes == d.pipes && Apply(cfg, c, Run(1, GoLive)).table == d.table;
  }

  lemma NoneLive(s: State, app: int)
    requires s.table == [Shippable(app).(status := Superseded), Shippable(app).(status := Superseded)] && s.lives == [0, 1]
    ensures Live(s.table, app) == None && !LiveIsLast(s, app)
  {
    LiveUnique(s.table, app, Live(s.table, app), None);
    assert [0, 1][..1] == [0];
    assert LastLive(s.table, [0, 1], app) == Some(1);
  }

  lemma ReachRetire(cfg: Config, s: State, app: int, id: nat, u: Table, pipes: map<nat, Pipe>)
    returns (s': State)
    requires Reachable(cfg, s) && s.up && id < |s.table| && id in s.pipes && s.pipes[id] == Shipping(app, Retiring)
    requires u == Retired(s.table, app, id) && pipes == s.pipes[id := Shipping(app, Returned)]
    ensures Reachable(cfg, s') && s' == s.(table := u, pipes := pipes)
  {
    ReachableStep(cfg, s, Run(id, Retire));
    s' := s.(table := u, pipes := pipes);
  }
}
