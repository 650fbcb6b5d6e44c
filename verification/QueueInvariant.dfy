/** The inductive invariant of the deploy queue. */
module QueueInvariant {
  import opened Bytes
  import opened Status
  import opened Deployments
  import opened TagPolicy
  import opened Queue

  // ------------------------------------------------------------------ the invariant

  /** The row statuses a stage allows. Before the gate an operator may have cancelled the row. */
  predicate StageFits(stage: Stage, st: DeployStatus) {
    match stage
    case Starting | Tagging(_) | Preparing | Built | Skipping => st == Building || st == Cancelled
    case Failing(from) =>
      (from == Building && (st == Building || st == Cancelled)) || (from == Deploying && st == Deploying)
    case Gated | Shipped => st == Deploying
    case Retiring => st == Running || st == Superseded
    case Returned => IsTerminal(st)
  }

  /** A pipeline's copy belongs to its row's app, and its stage fits the row's status. */
  predicate PipeFits(t: Table, id: nat, p: Pipe) {
    id < |t| && p.dep.app == t[id].app && StageFits(p.stage, t[id].status)
  }

  predicate DispatcherFits(t: Table, pipes: map<nat, Pipe>, d: Dispatcher) {
    match d
    case Picked(id, dep) => id < |t| && id !in pipes && dep.app == t[id].app && t[id].status in {Queued, Cancelled}
    case Holding(id, dep) => id < |t| && id !in pipes && dep.app == t[id].app && t[id].status in {Building, Cancelled}
    case _ => true
  }

  predicate Fits(s: State) {
    && (forall id :: id in s.pipes ==> PipeFits(s.table, id, s.pipes[id]))
    && DispatcherFits(s.table, s.pipes, s.disp)
    && (!s.up ==> s.pipes == map[] && s.disp == Idle)
  }

  predicate HeldBy(s: State, i: nat) {
    i in s.pipes || (s.disp.Holding? && s.disp.id == i)
  }

  /** While the process is up, whoever claimed an active row still holds it. */
  predicate Owned(s: State) {
    s.up ==> forall i :: 0 <= i < |s.table| && IsActive(s.table[i].status) ==> HeldBy(s, i)
  }

  predicate NotBothActive(t: Table, i: int, j: int) {
    0 <= i < j < |t| && t[i].app == t[j].app ==> !(IsActive(t[i].status) && IsActive(t[j].status))
  }

  ghost predicate OneActive(t: Table) {
    forall i, j :: NotBothActive(t, i, j)
  }

  /** The picked row stays the oldest claimable one of its app until the claim. */
  predicate PickHolds(t: Table, d: Dispatcher) {
    d.Picked? && Has(t, d.id, Queued) ==>
      forall i :: 0 <= i < |t| && t[i].app == t[d.id].app ==>
        !IsActive(t[i].status) && (i < d.id ==> t[i].status != Queued)
  }

  predicate SlotsCount(s: State) {
    s.slots == |s.pipes| + (if s.disp.Idle? then 0 else 1) && s.slots <= SLOTS
  }

  /** The k-th claimed row is older than the app's queued rows and no younger than its active row. */
  predicate OlderThanWaiting(t: Table, claims: seq<nat>, k: int, i: int) {
    0 <= k < |claims| && claims[k] < |t| && 0 <= i < |t| && t[i].app == t[claims[k]].app ==>
      && (t[i].status == Queued ==> claims[k] < i)
      && (IsActive(t[i].status) ==> claims[k] <= i)
  }

  /** Of two rows of one app in `ids`, the earlier one is the older. */
  predicate InOrder(t: Table, ids: seq<nat>, a: int, b: int) {
    0 <= a < b < |ids| && ids[a] < |t| && ids[b] < |t| && t[ids[a]].app == t[ids[b]].app ==> ids[a] < ids[b]
  }

  ghost predicate Rising(t: Table, ids: seq<nat>) {
    && (forall k :: 0 <= k < |ids| ==> ids[k] < |t|)
    && (forall a, b :: InOrder(t, ids, a, b))
  }

  predicate Started(st: DeployStatus) { st != Queued && st != Cancelled }

  ghost predicate ClaimOrder(t: Table, claims: seq<nat>) {
    && Rising(t, claims)
    && (forall i :: 0 <= i < |t| && Started(t[i].status) ==> i in claims)
    && (forall k, i :: OlderThanWaiting(t, claims, k, i))
  }

  predicate WentLive(st: DeployStatus) { st == Running || st == Superseded }

  ghost predicate LiveOrder(t: Table, claims: seq<nat>, lives: seq<nat>) {
    && Rising(t, lives)
    && (forall i :: 0 <= i < |t| ==> (WentLive(t[i].status) <==> i in lives))
    && (forall k :: 0 <= k < |lives| ==> lives[k] in claims)
  }

  ghost predicate Inv(s: State) {
    && Fits(s) && Owned(s) && SlotsCount(s)
    && OneActive(s.table) && PickHolds(s.table, s.disp)
    && ClaimOrder(s.table, s.claims) && LiveOrder(s.table, s.claims, s.lives)
  }

  lemma InvInit()
    ensures Inv(INIT)
  {
  }

  // ------------------------------------------------------------ kinds of row changes

  /** No row starts waiting or becomes active. Every write but a claim and an insert is like this. */
  predicate Settles(t: Table, u: Table) {
    |u| == |t| && forall i :: 0 <= i < |t| ==>
      && u[i].app == t[i].app
      && (IsActive(u[i].status) ==> IsActive(t[i].status))
      && (u[i].status == Queued ==> t[i].status == Queued)
      && (Started(u[i].status) ==> Started(t[i].status))
  }

  lemma RisingKept(t: Table, u: Table, ids: seq<nat>)
    requires Rising(t, ids) && |t| <= |u| && forall i :: 0 <= i < |t| ==> u[i].app == t[i].app
    ensures Rising(u, ids)
  {
    forall a, b ensures InOrder(u, ids, a, b) { assert InOrder(t, ids, a, b); }
  }

  lemma RisingAppend(t: Table, ids: seq<nat>, id: nat)
    requires Rising(t, ids) && id < |t|
    requires forall k :: 0 <= k < |ids| && t[ids[k]].app == t[id].app ==> ids[k] < id
    ensures Rising(t, ids + [id])
  {
    forall a, b ensures InOrder(t, ids + [id], a, b) { assert InOrder(t, ids, a, b); }
  }

  lemma SettlesKeepsOrder(t: Table, u: Table, d: Dispatcher, claims: seq<nat>)
    requires Settles(t, u) && OneActive(t) && PickHolds(t, d) && ClaimOrder(t, claims)
    ensures OneActive(u) && PickHolds(u, d) && ClaimOrder(u, claims)
  {
    forall i, j ensures NotBothActive(u, i, j) { assert NotBothActive(t, i, j); }
    forall k, i ensures OlderThanWaiting(u, claims, k, i) { assert OlderThanWaiting(t, claims, k, i); }
    RisingKept(t, u, claims);
  }

  lemma LiveOrderKept(t: Table, u: Table, claims: seq<nat>, lives: seq<nat>)
    requires LiveOrder(t, claims, lives) && |u| == |t|
    requires forall i :: 0 <= i < |t| ==> u[i].app == t[i].app && (WentLive(u[i].status) <==> WentLive(t[i].status))
    ensures LiveOrder(u, claims, lives)
  {
    RisingKept(t, u, lives);
  }

  /** Row `id` has status `st` now; no other row changed, and no row changed its app. */
  predicate RowMoved(t: Table, u: Table, id: nat, st: DeployStatus) {
    && |u| == |t| && id < |t| && u[id].app == t[id].app && u[id].status == st
    && forall i :: 0 <= i < |t| && i != id ==> u[i] == t[i]
  }

  lemma AppendKeeps(s: State, row: Row)
    requires Inv(s) && row.status == Queued
    ensures Inv(s.(table := s.table + [row]))
  {
    var t, u := s.table, s.table + [row];
    forall i, j ensures NotBothActive(u, i, j) { assert NotBothActive(t, i, j); }
    forall k, i ensures OlderThanWaiting(u, s.claims, k, i) { assert OlderThanWaiting(t, s.claims, k, i); }
    RisingKept(t, u, s.claims);
    RisingKept(t, u, s.lives);
  }

  lemma CancelKeeps(s: State, id: nat, u: Table)
    requires Inv(s) && RowMoved(s.table, u, id, Cancelled) && CanCancel(s.table[id].status)
    ensures Inv(s.(table := u))
  {
    SettlesKeepsOrder(s.table, u, s.disp, s.claims);
    LiveOrderKept(s.table, u, s.claims, s.lives);
  }

  lemma ClaimKeeps(s: State, u: Table)
    requires Inv(s) && s.up && s.disp.Picked? && Has(s.table, s.disp.id, Queued) && RowMoved(s.table, u, s.disp.id, Building)
    ensures Inv(s.(table := u, disp := Holding(s.disp.id, s.disp.dep), claims := s.claims + [s.disp.id]))
  {
    var t, id, claims := s.table, s.disp.id, s.claims + [s.disp.id];
    forall i, j ensures NotBothActive(u, i, j) { assert NotBothActive(t, i, j); }
    forall k, i ensures OlderThanWaiting(u, claims, k, i) { assert OlderThanWaiting(t, s.claims, k, i); }
    RisingKept(t, u, s.claims);
    forall k | 0 <= k < |s.claims| && u[s.claims[k]].app == u[id].app ensures s.claims[k] < id {
      assert OlderThanWaiting(t, s.claims, k, id);
    }
    RisingAppend(u, s.claims, id);
    LiveOrderKept(t, u, s.claims, s.lives);
  }

  lemma PickKeeps(s: State, id: nat)
    requires Inv(s) && s.up && s.disp.Slotted? && IsNextClaimable(s.table, Some(id))
    ensures Inv(s.(disp := Picked(id, s.table[id])))
  {
    var t := s.table;
    forall i | 0 <= i < |t| && t[i].app == t[id].app
      ensures !IsActive(t[i].status) && (i < id ==> t[i].status != Queued)
    {
      if i < id { assert !Claimable(t, i); }
    }
  }

  lemma LaunchKeeps(s: State)
    requires Inv(s) && s.up && s.disp.Holding?
    ensures Inv(s.(disp := Idle, pipes := s.pipes[s.disp.id := Pipe(s.disp.dep, Starting)]))
  {
  }

  lemma SlotKeeps(s: State)
    requires Inv(s)
    ensures s.up && s.disp.Idle? && s.slots < SLOTS ==> Inv(s.(disp := Slotted, slots := s.slots + 1))
    ensures s.disp.Slotted? || (s.disp.Picked? && s.up) ==> Inv(Release(s))
  {
  }

  /** A pipeline moved its own row along an edge short of going live, or left its status alone. */
  lemma PipeKeeps(s: State, id: nat, u: Table, p: Pipe)
    requires Inv(s) && s.up && id in s.pipes && p.dep.app == s.pipes[id].dep.app
    requires |u| == |s.table| && RowMoved(s.table, u, id, u[id].status) && StageFits(p.stage, u[id].status)
    requires u[id].status == s.table[id].status
      || (IsActive(s.table[id].status) && u[id].status in {Deploying, Failed, Cancelled})
    ensures Inv(s.(table := u, pipes := s.pipes[id := p]))
  {
    SettlesKeepsOrder(s.table, u, s.disp, s.claims);
    LiveOrderKept(s.table, u, s.claims, s.lives);
  }

  lemma GoLiveKeeps(s: State, id: nat, u: Table, p: Pipe)
    requires Inv(s) && s.up && id in s.pipes && p.dep.app == s.pipes[id].dep.app && p.stage == Retiring
    requires RowMoved(s.table, u, id, Running) && s.table[id].status == Deploying
    ensures Inv(s.(table := u, pipes := s.pipes[id := p], lives := s.lives + [id]))
  {
    SettlesKeepsOrder(s.table, u, s.disp, s.claims);
    RisingKept(s.table, u, s.lives);
    ActiveIsYoungest(s.table, s.claims, s.lives, id);
    RisingAppend(u, s.lives, id);
  }

  /** Every row of the app that went live is older than its active one. */
  lemma ActiveIsYoungest(t: Table, claims: seq<nat>, lives: seq<nat>, id: nat)
    requires ClaimOrder(t, claims) && LiveOrder(t, claims, lives) && ActiveAt(t, id)
    ensures forall k :: 0 <= k < |lives| && t[lives[k]].app == t[id].app ==> lives[k] < id
  {
    forall k | 0 <= k < |lives| && t[lives[k]].app == t[id].app ensures lives[k] < id {
      var j :| 0 <= j < |claims| && claims[j] == lives[k];
      assert OlderThanWaiting(t, claims, j, id);
    }
  }

  lemma RetireKeeps(s: State, id: nat, app: int, p: Pipe)
    requires Inv(s) && s.up && id in s.pipes && p.dep.app == s.pipes[id].dep.app
    requires s.pipes[id].stage == Retiring && p.stage == Returned
    ensures Inv(s.(table := Retired(s.table, app, id), pipes := s.pipes[id := p]))
  {
    var u := Retired(s.table, app, id);
    SettlesKeepsOrder(s.table, u, s.disp, s.claims);
    LiveOrderKept(s.table, u, s.claims, s.lives);
    forall k | k in s.pipes ensures k == id || PipeFits(u, k, s.pipes[k]) {
      RetireKeepsFit(s.table, app, id, k, s.pipes[k]);
    }
  }

  lemma RetireKeepsFit(t: Table, app: int, id: nat, k: nat, p: Pipe)
    requires PipeFits(t, k, p)
    ensures k == id || PipeFits(Retired(t, app, id), k, p)
  {
  }

  lemma ReturnKeeps(s: State, id: nat)
    requires Inv(s) && id in s.pipes && s.pipes[id].stage == Returned && s.slots > 0
    ensures Inv(s.(pipes := s.pipes - {id}, slots := s.slots - 1))
  {
    assert PipeFits(s.table, id, s.pipes[id]);
    assert s.pipes.Keys == (s.pipes - {id}).Keys + {id};
  }

  lemma CrashKeeps(s: State)
    requires Inv(s)
    ensures Inv(s.(disp := Idle, pipes := map[], slots := 0, up := false))
  {
  }

  lemma RestartKeeps(s: State, reason: Str)
    requires Inv(s) && !s.up
    ensures Inv(s.(table := Recovered(s.table, reason), up := true))
  {
    var u := Recovered(s.table, reason);
    SettlesKeepsOrder(s.table, u, s.disp, s.claims);
    LiveOrderKept(s.table, u, s.claims, s.lives);
  }

  // ------------------------------------------------------------------ the whole step

  /** prepareTag leaves the pipeline before the gate, whatever it decides. */
  lemma SettledStage(cfg: Config, t: Table, dep: Row, listed: seq<Str>)
    ensures var st := Settled(cfg, t, dep, listed); st.Preparing? || st.Skipping? || st.Tagging? || st == Failing(Building)
  {
  }

  /** The acts that move at most the pipeline's own row, and not to running. */
  predicate OwnRowAct(act: Act) { !act.Return? && !act.Retire? && !act.GoLive? }

  lemma OwnRow(cfg: Config, t: Table, id: nat, p: Pipe, act: Act)
    requires PipeFits(t, id, p) && ActEnabled(p.stage, act) && OwnRowAct(act)
    ensures var u, stage := Written(cfg, t, id, p, act), NextStage(cfg, t, id, p, act);
      && |u| == |t| && RowMoved(t, u, id, u[id].status) && StageFits(stage, u[id].status)
      && (u[id].status == t[id].status || (IsActive(t[id].status) && u[id].status in {Deploying, Failed, Cancelled}))
  {
    if act.Settle? { SettledStage(cfg, t, p.dep, act.listed); }
  }

  lemma RunKeeps(cfg: Config, s: State, id: nat, act: Act)
    requires Inv(s) && Enabled(s, Run(id, act))
    ensures Inv(RunStep(cfg, s, id, act))
  {
    var p := s.pipes[id];
    assert PipeFits(s.table, id, p);
    if act.Return? {
      ReturnKeeps(s, id);
    } else {
      var q := Pipe(NextDep(p, act), NextStage(cfg, s.table, id, p, act));
      if act.Retire? {
        RetireKeeps(s, id, p.dep.app, q);
      } else if act.GoLive? {
        GoLiveKeeps(s, id, Written(cfg, s.table, id, p, act), q);
      } else {
        OwnRow(cfg, s.table, id, p, act);
        PipeKeeps(s, id, Written(cfg, s.table, id, p, act), q);
      }
    }
  }

  /** Every event of every participant keeps the invariant. */
  lemma InvKept(cfg: Config, s: State, e: Event)
    requires Enabled(s, e) && Inv(s)
    ensures Inv(Apply(cfg, s, e))
  {
    match e
    case Enqueue(app) => AppendKeeps(s, NewRow(app));
    case EnqueueRollback(app, image, of) => AppendKeeps(s, RollbackRow(s.table, app, image, of));
    case EnqueueTag(app, pushed) =>
      AppendKeeps(s, TagRow(app, Decided(cfg(app).policy, pushed, InPlayTags(s.table, app, |s.table|)).tag));
    case CancelWrite(id, from) =>
      if Has(s.table, id, from) { CancelKeeps(s, id, Moved(s.table, id, from, Cancelled, [])); }
    case TakeSlot => SlotKeeps(s);
    case DropSlot => SlotKeeps(s);
    case ClaimError => SlotKeeps(s);
    case Pick(id) => PickKeeps(s, id);
    case Claim =>
      if Has(s.table, s.disp.id, Queued) { ClaimKeeps(s, Claimed(s.table, s.disp.id)); } else { SlotKeeps(s); }
    case Launch => LaunchKeeps(s);
    case Run(id, act) => RunKeeps(cfg, s, id, act);
    case Crash => CrashKeeps(s);
    case Restart(reason) => RestartKeeps(s, reason);
  }
}
