/** The deploy queue as a transition system: one dispatcher, up to four pipelines, operators and
    webhooks acting at any moment, and a process that may die between any two steps
    (internal/deploy/worker.go, pipeline.go and pipeline_compose.go over internal/store/deployments.go).

    Each store statement is one step. Reads that may fail, clones, builds, Docker calls and health
    checks appear only as the choice of the next event; store writes are assumed to succeed. */
module Queue {
  import opened Bytes
  import opened Status
  import opened Deployments
  import opened TagPolicy

  /** maxConcurrent. */
  const SLOTS: nat := 4

  /** The settings of an app that the queue consults; fixed during a run. */
  datatype AppConfig = AppConfig(policy: Policy, tagMode: bool, compose: bool)

  type Config = int -> AppConfig

  /** Where a pipeline is. Failing, Skipping and Retiring stand before the write they are named for. */
  datatype Stage =
    | Starting
    | Tagging(tag: Str)
    | Preparing
    | Built
    | Gated
    | Shipped
    | Retiring
    | Failing(from: DeployStatus)
    | Skipping
    | Returned

  /** A pipeline holds the copy of its row that the dispatcher read. */
  datatype Pipe = Pipe(dep: Row, stage: Stage)

  datatype Dispatcher =
    | Idle
    | Slotted
    | Picked(id: nat, dep: Row)
    | Holding(id: nat, dep: Row)

  /** `claims` and `lives` record the order in which rows were claimed and went live. */
  datatype State = State(table: Table, disp: Dispatcher, pipes: map<nat, Pipe>, slots: nat, up: bool,
                         claims: seq<nat>, lives: seq<nat>)

  const INIT := State([], Idle, map[], 0, true, [], [])

  /** What a pipeline does next. */
  datatype Act =
    | Abort                    // some call before the gate failed
    | Settle(listed: seq<Str>) // prepareTag; `listed` is what the remote's tag list says
    | WriteTag
    | Build(image: Str)        // clone, build and SetImage
    | Gate                     // building -> deploying
    | DeployFails
    | DeployShips
    | GoLive                   // deploying -> running
    | Retire                   // SupersedeOthers
    | WriteFailure
    | WriteSkip
    | Return

  datatype Event =
    | Enqueue(app: int)
    | EnqueueRollback(app: int, image: Str, of: nat)
    | EnqueueTag(app: int, pushed: seq<Str>)
    | CancelWrite(id: nat, from: DeployStatus)
    | TakeSlot
    | DropSlot
    | Pick(id: nat)
    | Claim
    | ClaimError
    | Launch
    | Run(id: nat, act: Act)
    | Crash
    | Restart(reason: Str)

  // -------------------------------------------------------------------- the steps

  /** prepareTag, up to the write that records its outcome. */
  function Settled(cfg: Config, t: Table, dep: Row, listed: seq<Str>): Stage {
    var p := cfg(dep.app).policy;
    var live := Live(t, dep.app);
    if dep.image != [] then Preparing
    else if dep.fromTag then
      var inPlay := if live.Some? && t[live.value].tag != [] then [t[live.value].tag] else [];
      if Decided(p, [dep.tag], inPlay).tag == [] then Skipping else Preparing
    else if cfg(dep.app).tagMode && dep.tag == [] then
      var newest := Highest(p, Filter(p, listed));
      if newest.Some? then Tagging(newest.value)
      else if live.None? || t[live.value].tag !in listed || !Eligible(p, t[live.value].tag) then Failing(Building)
      else Tagging(t[live.value].tag)
    else Preparing
  }

  predicate BeforeGate(s: Stage) { s.Starting? || s.Tagging? || s.Preparing? }

  predicate ActEnabled(stage: Stage, act: Act) {
    match act
    case Abort => BeforeGate(stage)
    case Settle(_) => stage.Starting?
    case WriteTag => stage.Tagging?
    case Build(_) => stage.Preparing?
    case Gate => stage.Built?
    case DeployFails => stage.Gated?
    case DeployShips => stage.Gated?
    case GoLive => stage.Shipped?
    case Retire => stage.Retiring?
    case WriteFailure => stage.Failing?
    case WriteSkip => stage.Skipping?
    case Return => stage.Returned?
  }

  /** The stage after an act. Only the gate looks at the row, and only it can be refused by an operator. */
  function NextStage(cfg: Config, t: Table, id: nat, p: Pipe, act: Act): Stage
    requires ActEnabled(p.stage, act)
  {
    match act
    case Abort => Failing(Building)
    case Settle(listed) => Settled(cfg, t, p.dep, listed)
    case WriteTag => Preparing
    case Build(_) => Built
    case Gate => if Has(t, id, Building) then Gated else Returned
    case DeployFails => Failing(Deploying)
    case DeployShips => Shipped
    case GoLive => Retiring
    case Retire | WriteFailure | WriteSkip | Return => Returned
  }

  function Written(cfg: Config, t: Table, id: nat, p: Pipe, act: Act): Table
    requires id < |t| && ActEnabled(p.stage, act)
  {
    match act
    case WriteTag => t[id := t[id].(tag := p.stage.tag)]
    case Build(image) =>
      if p.dep.image != [] || cfg(p.dep.app).compose then t else t[id := t[id].(image := image)]
    case Gate => Moved(t, id, Building, Deploying, [])
    case GoLive => Moved(t, id, Deploying, Running, [])
    case Retire => Retired(t, p.dep.app, id)
    case WriteFailure => Moved(t, id, p.stage.from, Failed, [])
    case WriteSkip => Moved(t, id, Building, Cancelled, [])
    case _ => t
  }

  /** The tag a Deploy click resolved is also written into the pipeline's copy. */
  function NextDep(p: Pipe, act: Act): Row
    requires ActEnabled(p.stage, act)
  {
    if act.WriteTag? then p.dep.(tag := p.stage.tag) else p.dep
  }

  predicate Enabled(s: State, e: Event) {
    match e
    case Enqueue(_) => s.up
    case EnqueueRollback(_, _, _) => s.up
    case EnqueueTag(_, _) => s.up
    case CancelWrite(_, from) => s.up && CanCancel(from)
    case TakeSlot => s.up && s.disp.Idle? && s.slots < SLOTS
    case DropSlot => s.up && s.disp.Slotted?
    case Pick(id) => s.up && s.disp.Slotted? && IsNextClaimable(s.table, Some(id))
    case Claim => s.up && s.disp.Picked?
    case ClaimError => s.up && s.disp.Picked?
    case Launch => s.up && s.disp.Holding?
    case Run(id, act) =>
      s.up && id in s.pipes && id < |s.table| && ActEnabled(s.pipes[id].stage, act)
      && (act.Return? ==> s.slots > 0)
    case Crash => s.up
    case Restart(_) => !s.up
  }

  function Release(s: State): State {
    s.(disp := Idle, slots := if s.slots > 0 then s.slots - 1 else 0)
  }

  function RunStep(cfg: Config, s: State, id: nat, act: Act): State
    requires Enabled(s, Run(id, act))
  {
    var p := s.pipes[id];
    if act.Return? then s.(pipes := s.pipes - {id}, slots := s.slots - 1)
    else
      s.(table := Written(cfg, s.table, id, p, act),
         pipes := s.pipes[id := Pipe(NextDep(p, act), NextStage(cfg, s.table, id, p, act))],
         lives := if act.GoLive? && Has(s.table, id, Deploying) then s.lives + [id] else s.lives)
  }

  function Apply(cfg: Config, s: State, e: Event): State
    requires Enabled(s, e)
  {
    match e
    case Enqueue(app) => s.(table := s.table + [NewRow(app)])
    case EnqueueRollback(app, image, of) => s.(table := s.table + [RollbackRow(s.table, app, image, of)])
    case EnqueueTag(app, pushed) =>
      var tag := Decided(cfg(app).policy, pushed, InPlayTags(s.table, app, |s.table|)).tag;
      if tag == [] then s else s.(table := s.table + [TagRow(app, tag)])
    case CancelWrite(id, from) => s.(table := Moved(s.table, id, from, Cancelled, []))
    case TakeSlot => s.(disp := Slotted, slots := s.slots + 1)
    case DropSlot => Release(s)
    case Pick(id) => s.(disp := Picked(id, s.table[id]))
    case Claim =>
      var id := s.disp.id;
      if Has(s.table, id, Queued)
      then s.(table := Claimed(s.table, id), disp := Holding(id, s.disp.dep), claims := s.claims + [id])
      else Release(s)
    case ClaimError => Release(s)
    case Launch => s.(disp := Idle, pipes := s.pipes[s.disp.id := Pipe(s.disp.dep, Starting)])
    case Run(id, act) => RunStep(cfg, s, id, act)
    case Crash => s.(disp := Idle, pipes := map[], slots := 0, up := false)
    case Restart(reason) => s.(table := Recovered(s.table, reason), up := true)
  }

  // ------------------------------------------------------------------------- runs

  /** The states an event sequence passes through from the initial one. */
  ghost predicate IsRun(cfg: Config, ss: seq<State>, es: seq<Event>) {
    && |ss| == |es| + 1 && ss[0] == INIT
    && forall i :: 0 <= i < |es| ==> Enabled(ss[i], es[i]) && ss[i + 1] == Apply(cfg, ss[i], es[i])
  }

  ghost predicate Reachable(cfg: Config, s: State) {
    exists ss, es :: IsRun(cfg, ss, es) && ss[|es|] == s
  }

  /** The running write and the supersede write of a pipeline are adjacent as far as other pipelines
      of the app go: none goes live between them. A crash may still fall between the two. */
  predicate Prompt(s: State, e: Event) {
    e.Run? && e.act.GoLive? && e.id in s.pipes ==>
      forall k :: k in s.pipes && s.pipes[k].dep.app == s.pipes[e.id].dep.app ==> !s.pipes[k].stage.Retiring?
  }

  ghost predicate IsPromptRun(cfg: Config, ss: seq<State>, es: seq<Event>) {
    IsRun(cfg, ss, es) && forall i :: 0 <= i < |es| ==> Prompt(ss[i], es[i])
  }
}
