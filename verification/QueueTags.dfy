/** Tag deployments over whole runs of the queue: the high-water mark of the policy, composed with
    the transition system (internal/store/deployments.go, internal/deploy/pipeline.go prepareTag). */
module QueueTags {
  import opened Bytes
  import opened Status
  import opened Deployments
  import opened TagPolicy
  import opened Queue
  import opened QueueInvariant
  import opened QueueTheorems

  // ------------------------------------------------------------------ the invariant

  /** A tag-event row carries an eligible tag, and no image before it is claimed. */
  predicate TagRowFits(cfg: Config, r: Row) {
    r.fromTag ==> r.tag != [] && Eligible(cfg(r.app).policy, r.tag) && (r.status == Queued ==> r.image == [])
  }

  /** A copy of a tag-event row keeps its tag and has no image. */
  predicate CopyFits(r: Row, dep: Row) {
    dep.fromTag == r.fromTag && (r.fromTag ==> dep.tag == r.tag && dep.image == [])
  }

  predicate PipeCopyFits(t: Table, id: nat, p: Pipe) {
    id < |t| ==> CopyFits(t[id], p.dep) && (p.stage.Tagging? ==> !p.dep.fromTag)
  }

  predicate HeldCopyFits(t: Table, d: Dispatcher) {
    (d.Picked? || d.Holding?) && d.id < |t| ==> CopyFits(t[d.id], d.dep)
  }

  predicate Waiting(st: DeployStatus) { st == Queued || IsActive(st) }

  /** Two waiting tag-event rows of one app with version tags: the younger has the higher version. */
  predicate Climbs(cfg: Config, t: Table, i: int, j: int) {
    0 <= i < j < |t| && t[i].app == t[j].app && t[i].fromTag && t[j].fromTag
    && Waiting(t[i].status) && Waiting(t[j].status)
    && VersionLike(cfg(t[i].app).policy, t[i].tag) && VersionLike(cfg(t[i].app).policy, t[j].tag)
    ==> Above(cfg(t[i].app).policy, t[j].tag, t[i].tag)
  }

  ghost predicate TagInv(cfg: Config, s: State) {
    && (forall i :: 0 <= i < |s.table| ==> TagRowFits(cfg, s.table[i]))
    && (forall id :: id in s.pipes ==> PipeCopyFits(s.table, id, s.pipes[id]))
    && HeldCopyFits(s.table, s.disp)
    && (forall i, j :: Climbs(cfg, s.table, i, j))
  }

  // --------------------------------------------------------------------- enqueueing

  /** The tag an event enqueues climbs above every version-like tag in play. */
  lemma EnqueuedClimbs(cfg: Config, t: Table, app: int, pushed: seq<Str>, i: nat)
    requires i < |t| && t[i].app == app && t[i].fromTag && Waiting(t[i].status) && TagRowFits(cfg, t[i])
    requires var tag := Decided(cfg(app).policy, pushed, InPlayTags(t, app, |t|)).tag;
      tag != [] && VersionLike(cfg(app).policy, tag)
    requires VersionLike(cfg(app).policy, t[i].tag)
    ensures Above(cfg(app).policy, Decided(cfg(app).policy, pushed, InPlayTags(t, app, |t|)).tag, t[i].tag)
  {
    var p, inPlay := cfg(app).policy, InPlayTags(t, app, |t|);
    assert InPlay(t, app, i);
    assert Competitor(p, inPlay, t[i].tag);
    DecidedTag(p, pushed, inPlay);
  }

  lemma EnqueueTagKeeps(cfg: Config, s: State, app: int, pushed: seq<Str>)
    requires TagInv(cfg, s) && Inv(s)
    requires Decided(cfg(app).policy, pushed, InPlayTags(s.table, app, |s.table|)).tag != []
    ensures TagInv(cfg, s.(table := s.table + [TagRow(app, Decided(cfg(app).policy, pushed, InPlayTags(s.table, app, |s.table|)).tag)]))
  {
    var p, t := cfg(app).policy, s.table;
    var tag := Decided(p, pushed, InPlayTags(t, app, |t|)).tag;
    var u := t + [TagRow(app, tag)];
    DecidedTag(p, pushed, InPlayTags(t, app, |t|));
    forall i, j ensures Climbs(cfg, u, i, j) {
      if 0 <= i < j < |t| {
        assert Climbs(cfg, t, i, j);
      } else if 0 <= i < j == |t| && t[i].app == app && t[i].fromTag && Waiting(t[i].status)
        && VersionLike(p, tag) && VersionLike(p, t[i].tag) {
        EnqueuedClimbs(cfg, t, app, pushed, i);
      }
    }
    CopiesKeptByAppend(cfg, s, TagRow(app, tag));
  }

  lemma CopiesKeptByAppend(cfg: Config, s: State, row: Row)
    requires TagInv(cfg, s) && Inv(s)
    ensures forall id :: id in s.pipes ==> PipeCopyFits(s.table + [row], id, s.pipes[id])
    ensures HeldCopyFits(s.table + [row], s.disp)
  {
    forall id | id in s.pipes ensures PipeCopyFits(s.table + [row], id, s.pipes[id]) {
      assert PipeFits(s.table, id, s.pipes[id]) && PipeCopyFits(s.table, id, s.pipes[id]);
    }
  }

  lemma PlainEnqueueKeeps(cfg: Config, s: State, row: Row)
    requires TagInv(cfg, s) && Inv(s) && !row.fromTag
    ensures TagInv(cfg, s.(table := s.table + [row]))
  {
    var u := s.table + [row];
    forall i, j ensures Climbs(cfg, u, i, j) { assert Climbs(cfg, s.table, i, j); }
    CopiesKeptByAppend(cfg, s, row);
  }

  // ------------------------------------------------------------- changes to the rows

  /** No row starts waiting again, and tag-event rows keep their tag and stay what they are. */
  predicate TagsKept(t: Table, u: Table) {
    |u| == |t| && forall i :: 0 <= i < |t| ==>
      && u[i].app == t[i].app && u[i].fromTag == t[i].fromTag
      && (t[i].fromTag ==> u[i].tag == t[i].tag)
      && (Waiting(u[i].status) ==> Waiting(t[i].status))
      && (u[i].status == Queued ==> t[i].status == Queued && u[i].image == t[i].image)
  }

  lemma TagsKeptKeeps(cfg: Config, s: State, u: Table)
    requires TagInv(cfg, s) && Inv(s) && TagsKept(s.table, u)
    ensures forall i :: 0 <= i < |u| ==> TagRowFits(cfg, u[i])
    ensures forall i, j :: Climbs(cfg, u, i, j)
    ensures forall id :: id in s.pipes ==> PipeCopyFits(u, id, s.pipes[id])
  {
    var t := s.table;
    forall i | 0 <= i < |u| ensures TagRowFits(cfg, u[i]) { assert TagRowFits(cfg, t[i]); }
    forall i, j ensures Climbs(cfg, u, i, j) { assert Climbs(cfg, t, i, j); }
    forall id | id in s.pipes ensures PipeCopyFits(u, id, s.pipes[id]) { assert PipeCopyFits(t, id, s.pipes[id]); }
  }

  lemma HeldKept(t: Table, u: Table, d: Dispatcher)
    requires HeldCopyFits(t, d) && TagsKept(t, u)
    ensures HeldCopyFits(u, d)
  {
  }

  /** prepareTag resolves a tag only for rows that no tag event queued. */
  lemma SettledTagging(cfg: Config, t: Table, dep: Row, listed: seq<Str>)
    ensures Settled(cfg, t, dep, listed).Tagging? ==> !dep.fromTag
  {
  }

  lemma WrittenKeepsTags(cfg: Config, t: Table, id: nat, p: Pipe, act: Act)
    requires PipeFits(t, id, p) && PipeCopyFits(t, id, p) && ActEnabled(p.stage, act)
    ensures TagsKept(t, Written(cfg, t, id, p, act))
  {
  }

  lemma RunKeepsTags(cfg: Config, s: State, id: nat, act: Act)
    requires TagInv(cfg, s) && Inv(s) && Enabled(s, Run(id, act)) && !act.Return?
    ensures TagsKept(s.table, Written(cfg, s.table, id, s.pipes[id], act))
    ensures PipeCopyFits(Written(cfg, s.table, id, s.pipes[id], act), id,
      Pipe(NextDep(s.pipes[id], act), NextStage(cfg, s.table, id, s.pipes[id], act)))
  {
    var p := s.pipes[id];
    assert PipeFits(s.table, id, p) && PipeCopyFits(s.table, id, p);
    WrittenKeepsTags(cfg, s.table, id, p, act);
    NextCopyFits(cfg, s.table, Written(cfg, s.table, id, p, act), id, p, act);
  }

  lemma NextCopyFits(cfg: Config, t: Table, u: Table, id: nat, p: Pipe, act: Act)
    requires PipeFits(t, id, p) && PipeCopyFits(t, id, p) && ActEnabled(p.stage, act) && TagsKept(t, u)
    ensures PipeCopyFits(u, id, Pipe(NextDep(p, act), NextStage(cfg, t, id, p, act)))
  {
    if act.Settle? { SettledTagging(cfg, t, p.dep, act.listed); }
  }

  lemma RunStepKeeps(cfg: Config, s: State, id: nat, act: Act)
    requires TagInv(cfg, s) && Inv(s) && Enabled(s, Run(id, act))
    ensures TagInv(cfg, RunStep(cfg, s, id, act))
  {
    if !act.Return? {
      var u := Written(cfg, s.table, id, s.pipes[id], act);
      RunKeepsTags(cfg, s, id, act);
      TagsKeptKeeps(cfg, s, u);
      HeldKept(s.table, u, s.disp);
    }
  }

  lemma RowsKeep(cfg: Config, s: State, u: Table)
    requires TagInv(cfg, s) && Inv(s) && TagsKept(s.table, u)
    ensures TagInv(cfg, s.(table := u))
    ensures TagInv(cfg, s.(table := u, up := true))
  {
    TagsKeptKeeps(cfg, s, u);
    HeldKept(s.table, u, s.disp);
  }

  lemma PickKeepsTags(cfg: Config, s: State, id: nat)
    requires TagInv(cfg, s) && Inv(s) && Has(s.table, id, Queued)
    ensures TagInv(cfg, s.(disp := Picked(id, s.table[id])))
  {
    assert TagRowFits(cfg, s.table[id]);
  }

  lemma ClaimKeepsTags(cfg: Config, s: State)
    requires TagInv(cfg, s) && Inv(s) && s.disp.Picked? && Has(s.table, s.disp.id, Queued)
    ensures TagInv(cfg, s.(table := Claimed(s.table, s.disp.id), disp := Holding(s.disp.id, s.disp.dep),
                           claims := s.claims + [s.disp.id]))
  {
    TagsKeptKeeps(cfg, s, Claimed(s.table, s.disp.id));
  }

  lemma DispatchKeepsTags(cfg: Config, s: State, e: Event)
    requires TagInv(cfg, s) && Inv(s) && Enabled(s, e)
    requires e.TakeSlot? || e.DropSlot? || e.Pick? || e.Claim? || e.ClaimError? || e.Launch? || e.Crash?
    ensures TagInv(cfg, Apply(cfg, s, e))
  {
    if e.Pick? {
      PickKeepsTags(cfg, s, e.id);
    } else if e.Claim? && Has(s.table, s.disp.id, Queued) {
      ClaimKeepsTags(cfg, s);
    } else if e.Launch? {
      assert DispatcherFits(s.table, s.pipes, s.disp);
    }
  }

  lemma TagInvKept(cfg: Config, s: State, e: Event)
    requires TagInv(cfg, s) && Inv(s) && Enabled(s, e)
    ensures TagInv(cfg, Apply(cfg, s, e))
  {
    match e
    case Enqueue(app) => PlainEnqueueKeeps(cfg, s, NewRow(app));
    case EnqueueRollback(app, image, of) => PlainEnqueueKeeps(cfg, s, RollbackRow(s.table, app, image, of));
    case EnqueueTag(app, pushed) =>
      if Decided(cfg(app).policy, pushed, InPlayTags(s.table, app, |s.table|)).tag != [] {
        EnqueueTagKeeps(cfg, s, app, pushed);
      }
    case CancelWrite(id, from) => RowsKeep(cfg, s, Moved(s.table, id, from, Cancelled, []));
    case Restart(reason) => RowsKeep(cfg, s, Recovered(s.table, reason));
    case Run(id, act) => RunStepKeeps(cfg, s, id, act);
    case _ => DispatchKeepsTags(cfg, s, e);
  }

  lemma {:induction false} TagInvAlong(cfg: Config, ss: seq<State>, es: seq<Event>, i: nat)
    requires IsRun(cfg, ss, es) && i <= |es|
    ensures TagInv(cfg, ss[i])
  {
    if i > 0 {
      TagInvAlong(cfg, ss, es, i - 1);
      InvAlong(cfg, ss, es, i - 1);
      TagInvKept(cfg, ss[i - 1], es[i - 1]);
    }
  }

  /** In every reachable state, the version tags of an app's queued, building and deploying tag-event
      rows strictly increase in enqueue order, whatever rollbacks and manual deploys are mixed in. */
  lemma WaitingTagsClimb(cfg: Config, s: State, i: nat, j: nat)
    requires Reachable(cfg, s)
    requires i < j < |s.table| && s.table[i].app == s.table[j].app && s.table[i].fromTag && s.table[j].fromTag
    requires Waiting(s.table[i].status) && Waiting(s.table[j].status)
    requires VersionLike(cfg(s.table[i].app).policy, s.table[i].tag)
    requires VersionLike(cfg(s.table[i].app).policy, s.table[j].tag)
    ensures Above(cfg(s.table[i].app).policy, s.table[j].tag, s.table[i].tag)
  {
    var ss, es :| IsRun(cfg, ss, es) && ss[|es|] == s;
    TagInvAlong(cfg, ss, es, |es|);
    assert Climbs(cfg, s.table, i, j);
  }

  // ------------------------------------------------- what goes live is an upgrade

  /** prepareTag's check has been passed and its result still stands. */
  predicate PastCheck(stage: Stage) { stage.Preparing? || stage.Built? || stage.Gated? || stage.Shipped? }

  /** The row's version tag is strictly above the live one's, if that one matches and is a version. */
  predicate AboveLive(cfg: Config, t: Table, id: nat) {
    id < |t| ==>
      var p, live := cfg(t[id].app).policy, Live(t, t[id].app);
      live.Some? && t[live.value].tag != [] && Matches(p, t[live.value].tag)
      && VersionLike(p, t[live.value].tag) && VersionLike(p, t[id].tag)
      ==> Above(p, t[id].tag, t[live.value].tag)
  }

  /** A tag-event pipeline between its check and going live. */
  predicate Checked(s: State, id: nat) {
    id in s.pipes && s.pipes[id].dep.fromTag && PastCheck(s.pipes[id].stage) && ActiveAt(s.table, id)
  }

  /** A late supersede write that takes the live row away from the app. */
  predicate Ousts(s: State, e: Event, app: int) {
    && e.Run? && e.act.Retire? && e.id in s.pipes && s.pipes[e.id].dep.app == app
    && Live(s.table, app) != None && Live(s.table, app) != Some(e.id)
  }

  /** Row k runs under a version tag that row id's version is not above. */
  predicate Overtakes(cfg: Config, t: Table, k: nat, id: nat) {
    id < |t| && Has(t, k, Running) &&
    var p := cfg(t[id].app).policy;
    && t[k].tag != [] && Matches(p, t[k].tag) && VersionLike(p, t[k].tag) && VersionLike(p, t[id].tag)
    && !Above(p, t[id].tag, t[k].tag)
  }

  /** The check itself: deciding on one tag against the live tag alone. */
  lemma CheckedAbove(p: Policy, tag: Str, live: Str)
    requires Decided(p, [tag], [live]).tag != []
    requires Matches(p, live) && VersionLike(p, live) && VersionLike(p, tag)
    ensures Above(p, tag, live)
  {
    DecidedTag(p, [tag], [live]);
    assert Decided(p, [tag], [live]).tag == tag;
    assert [live][0] == live;
    assert Competitor(p, [live], live);
  }

  lemma SettledAboveLive(cfg: Config, t: Table, id: nat, dep: Row, listed: seq<Str>)
    requires id < |t| && dep.app == t[id].app && CopyFits(t[id], dep) && dep.fromTag
    requires Settled(cfg, t, dep, listed).Preparing?
    ensures AboveLive(cfg, t, id)
  {
    var p, live := cfg(dep.app).policy, Live(t, dep.app);
    if live.Some? && t[live.value].tag != [] {
      var tag := t[live.value].tag;
      assert Decided(p, [dep.tag], [tag]).tag != [];
      if Matches(p, tag) && VersionLike(p, tag) && VersionLike(p, dep.tag) { CheckedAbove(p, dep.tag, tag); }
    }
  }

  /** The tags of running rows never change: only a row that is not running yet gets its tag written. */
  lemma RunningTagsKept(cfg: Config, s: State, e: Event)
    requires Inv(s) && Enabled(s, e)
    ensures RunningKeepTags(s.table, Apply(cfg, s, e).table)
  {
    if e.Run? {
      assert PipeFits(s.table, e.id, s.pipes[e.id]);
      if !e.act.Return? { WriteKeepsRunningTags(cfg, s.table, e.id, s.pipes[e.id], e.act); }
    }
  }

  predicate RunningKeepTags(t: Table, u: Table) {
    |t| <= |u| && forall i :: 0 <= i < |t| && t[i].status == Running ==> u[i].tag == t[i].tag
  }

  lemma WriteKeepsRunningTags(cfg: Config, t: Table, id: nat, p: Pipe, act: Act)
    requires PipeFits(t, id, p) && ActEnabled(p.stage, act)
    ensures RunningKeepTags(t, Written(cfg, t, id, p, act))
  {
  }

  /** While a row of the app stays active, a step changes the app's live row exactly when it ousts it. */
  lemma LiveKeptExactly(cfg: Config, s: State, e: Event, id: nat)
    requires Inv(s) && Enabled(s, e)
    requires id < |s.table| && ActiveAt(s.table, id) && ActiveAt(Apply(cfg, s, e).table, id)
    ensures Live(Apply(cfg, s, e).table, s.table[id].app) == Live(s.table, s.table[id].app) <==> !Ousts(s, e, s.table[id].app)
  {
    if e.Run? && e.act.GoLive? {
      GoLiveElsewhere(cfg, s, e, id);
    } else if e.Run? && e.act.Retire? {
      RetireLiveExactly(cfg, s, e, s.table[id].app);
    } else {
      StepSameRunning(cfg, s, e);
      SameRunningSameLive(s.table, Apply(cfg, s, e).table);
    }
  }

  /** A row that stays active is of another app than the one that goes live. */
  lemma GoLiveElsewhere(cfg: Config, s: State, e: Event, id: nat)
    requires Inv(s) && Enabled(s, e) && e.Run? && e.act.GoLive?
    requires id < |s.table| && ActiveAt(s.table, id) && ActiveAt(Apply(cfg, s, e).table, id)
    ensures Live(Apply(cfg, s, e).table, s.table[id].app) == Live(s.table, s.table[id].app)
  {
    GoLiveStep(cfg, s, e.id);
    GoLiveLive(s.table, Apply(cfg, s, e).table, s.claims, e.id);
    assert NotBothActive(s.table, id, e.id) && NotBothActive(s.table, e.id, id);
  }

  lemma RetireLiveExactly(cfg: Config, s: State, e: Event, app: int)
    requires Inv(s) && Enabled(s, e) && e.Run? && e.act.Retire?
    ensures Live(Apply(cfg, s, e).table, app) == Live(s.table, app) <==> !Ousts(s, e, app)
  {
    RetireTable(cfg, s, e);
    if s.pipes[e.id].dep.app == app { SupersedeKeepsLive(s.table, app, e.id); } else { RetireElsewhere(s.table, s.pipes[e.id].dep.app, e.id, app); }
  }

  lemma RetireTable(cfg: Config, s: State, e: Event)
    requires Inv(s) && Enabled(s, e) && e.Run? && e.act.Retire?
    ensures e.id in s.pipes && e.id < |s.table| && s.table[e.id].app == s.pipes[e.id].dep.app
    ensures Apply(cfg, s, e).table == Retired(s.table, s.pipes[e.id].dep.app, e.id)
  {
    assert PipeFits(s.table, e.id, s.pipes[e.id]);
  }

  lemma RetireElsewhere(t: Table, app: int, k: nat, other: int)
    requires other != app
    ensures Live(Retired(t, app, k), other) == Live(t, other)
  {
    LiveUnique(Retired(t, app, k), other, Live(Retired(t, app, k), other), Live(t, other));
  }

  /** After a supersede write only the writer's row can run. */
  lemma RetireLeavesOwn(t: Table, app: int, k: nat)
    requires k < |t| && t[k].app == app
    ensures Live(Retired(t, app, k), app) == if t[k].status == Running then Some(k) else None
  {
    LiveUnique(Retired(t, app, k), app, Live(Retired(t, app, k), app), if t[k].status == Running then Some(k) else None);
  }

  lemma AboveLiveKept(cfg: Config, s: State, e: Event, id: nat)
    requires Inv(s) && TagInv(cfg, s) && Enabled(s, e) && id < |s.table| && s.table[id].fromTag
    requires ActiveAt(s.table, id) && ActiveAt(Apply(cfg, s, e).table, id) && !Ousts(s, e, s.table[id].app)
    ensures AboveLive(cfg, Apply(cfg, s, e).table, id) <==> AboveLive(cfg, s.table, id)
  {
    LiveKeptExactly(cfg, s, e, id);
    RunningTagsKept(cfg, s, e);
    OwnTagKept(cfg, s, e, id);
  }

  /** An ousting write leaves row id above the live one exactly unless the ousting row overtakes it. */
  lemma AboveOuster(cfg: Config, s: State, e: Event, id: nat)
    requires Inv(s) && TagInv(cfg, s) && Enabled(s, e) && id < |s.table| && s.table[id].fromTag
    requires Ousts(s, e, s.table[id].app)
    ensures AboveLive(cfg, Apply(cfg, s, e).table, id) <==> !Overtakes(cfg, s.table, e.id, id)
  {
    RetireTable(cfg, s, e);
    AboveRetirer(cfg, s.table, e.id, id);
  }

  lemma AboveRetirer(cfg: Config, t: Table, k: nat, id: nat)
    requires k < |t| && id < |t| && t[k].app == t[id].app
    ensures AboveLive(cfg, Retired(t, t[id].app, k), id) <==> !Overtakes(cfg, t, k, id)
  {
    RetireLeavesOwn(t, t[id].app, k);
  }

  lemma OwnTagKept(cfg: Config, s: State, e: Event, id: nat)
    requires Inv(s) && TagInv(cfg, s) && Enabled(s, e) && id < |s.table| && s.table[id].fromTag
    ensures id < |Apply(cfg, s, e).table|
    ensures Apply(cfg, s, e).table[id].tag == s.table[id].tag && Apply(cfg, s, e).table[id].app == s.table[id].app
  {
    if e.Run? && !e.act.Return? {
      RunKeepsTags(cfg, s, e.id, e.act);
    }
  }

  /** A pipeline that is past the check after a step either was before, or has just passed it. */
  lemma PastCheckBefore(cfg: Config, s: State, e: Event, id: nat)
    requires Inv(s) && TagInv(cfg, s) && Enabled(s, e)
    requires var s' := Apply(cfg, s, e);
      id in s'.pipes && s'.pipes[id].dep.fromTag && PastCheck(s'.pipes[id].stage)
    ensures id in s.pipes && s.pipes[id].dep.fromTag && s.pipes[id].dep.app == Apply(cfg, s, e).pipes[id].dep.app
    ensures PastCheck(s.pipes[id].stage)
      || (e.Run? && e.id == id && e.act.Settle? && Settled(cfg, s.table, s.pipes[id].dep, e.act.listed).Preparing?)
  {
    if e.Run? {
      assert PipeCopyFits(s.table, e.id, s.pipes[e.id]) && PipeFits(s.table, e.id, s.pipes[e.id]);
      if !e.act.Return? && e.id == id { PastCheckStage(cfg, s.table, id, s.pipes[id], e.act); }
    }
  }

  lemma PastCheckStage(cfg: Config, t: Table, id: nat, p: Pipe, act: Act)
    requires ActEnabled(p.stage, act) && PipeFits(t, id, p) && PipeCopyFits(t, id, p) && PastCheck(NextStage(cfg, t, id, p, act)) && NextDep(p, act).fromTag
    ensures p.dep.fromTag && NextDep(p, act).app == p.dep.app
    ensures PastCheck(p.stage) || (act.Settle? && Settled(cfg, t, p.dep, act.listed).Preparing?)
  {
  }

  lemma ActiveBefore(cfg: Config, s: State, e: Event, id: nat)
    requires Inv(s) && Enabled(s, e) && id in s.pipes && id in Apply(cfg, s, e).pipes
    requires id < |s.table| && ActiveAt(Apply(cfg, s, e).table, id)
    ensures ActiveAt(s.table, id)
  {
    StepFollowsEdges(cfg, s, e);
    assert PipeFits(s.table, id, s.pipes[id]);
  }

  /** No ousting write since the check of pipeline id, or the last one was by a row that does not overtake it. */
  predicate Unovertaken(cfg: Config, ss: seq<State>, es: seq<Event>, i: nat, id: nat)
    requires i <= |es| < |ss|
  {
    i == 0 || !Checked(ss[i - 1], id) ||
    if Ousts(ss[i - 1], es[i - 1], ss[i - 1].table[id].app) then !Overtakes(cfg, ss[i - 1].table, es[i - 1].id, id)
    else Unovertaken(cfg, ss, es, i - 1, id)
  }

  /** In any run, after its check and until it goes live a tag-event row is above the live one if and only
      if the last write that ousted a live row since, if any, was not by a row that overtakes it. */
  lemma {:induction false} UpgradeExactly(cfg: Config, ss: seq<State>, es: seq<Event>, i: nat, id: nat)
    requires IsRun(cfg, ss, es) && i <= |es| && Checked(ss[i], id)
    ensures AboveLive(cfg, ss[i].table, id) <==> Unovertaken(cfg, ss, es, i, id)
  {
    assert i > 0;
    var s, e := ss[i - 1], es[i - 1];
    InvAlong(cfg, ss, es, i - 1);
    TagInvAlong(cfg, ss, es, i - 1);
    CheckedBefore(cfg, s, e, id);
    if !Checked(s, id) {
      SettledAboveLive(cfg, s.table, id, s.pipes[id].dep, e.act.listed);
      AboveLiveKept(cfg, s, e, id);
    } else if Ousts(s, e, s.table[id].app) {
      AboveOuster(cfg, s, e, id);
    } else {
      UpgradeExactly(cfg, ss, es, i - 1, id);
      AboveLiveKept(cfg, s, e, id);
    }
  }

  lemma CheckedBefore(cfg: Config, s: State, e: Event, id: nat)
    requires Inv(s) && TagInv(cfg, s) && Enabled(s, e) && Checked(Apply(cfg, s, e), id)
    ensures id in s.pipes && ActiveAt(s.table, id) && s.table[id].fromTag && s.pipes[id].dep.fromTag
    ensures s.pipes[id].dep.app == s.table[id].app && CopyFits(s.table[id], s.pipes[id].dep)
    ensures Checked(s, id)
      || (e.Run? && e.id == id && e.act.Settle? && Settled(cfg, s.table, s.pipes[id].dep, e.act.listed).Preparing?)
  {
    PastCheckBefore(cfg, s, e, id);
    assert PipeFits(s.table, id, s.pipes[id]) && PipeCopyFits(s.table, id, s.pipes[id]);
    ActiveBefore(cfg, s, e, id);
  }

  lemma {:induction false} TimelyIsUnovertaken(cfg: Config, ss: seq<State>, es: seq<Event>, i: nat, id: nat)
    requires IsTimelyRun(cfg, ss, es) && i <= |es|
    ensures Unovertaken(cfg, ss, es, i, id)
  {
    if i > 0 {
      assert Timely(ss[i - 1], es[i - 1]);
      TimelyIsUnovertaken(cfg, ss, es, i - 1, id);
    }
  }

  /** When a tag-event deployment with a version tag goes live, its version is strictly higher than
      that of the tag live at that moment, if that one matches the pattern and is a version: although
      the check ran when the row was claimed, and events, cancels and deploys interleave since. */
  lemma GoingLiveIsUpgrade(cfg: Config, ss: seq<State>, es: seq<Event>, id: nat, live: nat)
    requires IsTimelyRun(cfg, ss, es) && Enabled(ss[|es|], Run(id, GoLive))
    requires var t := ss[|es|].table;
      var p := cfg(t[id].app).policy;
      && t[id].fromTag && VersionLike(p, t[id].tag)
      && Live(t, t[id].app) == Some(live) && t[live].tag != [] && Matches(p, t[live].tag) && VersionLike(p, t[live].tag)
    ensures var t := ss[|es|].table; Above(cfg(t[id].app).policy, t[id].tag, t[live].tag)
  {
    GoingLiveIsChecked(cfg, ss, es, id);
    TimelyIsUnovertaken(cfg, ss, es, |es|, id);
    UpgradeExactly(cfg, ss, es, |es|, id);
  }

  lemma GoingLiveIsChecked(cfg: Config, ss: seq<State>, es: seq<Event>, id: nat)
    requires IsRun(cfg, ss, es) && Enabled(ss[|es|], Run(id, GoLive)) && ss[|es|].table[id].fromTag
    ensures Checked(ss[|es|], id)
  {
    var s := ss[|es|];
    InvAlong(cfg, ss, es, |es|);
    TagInvAlong(cfg, ss, es, |es|);
    assert PipeFits(s.table, id, s.pipes[id]) && PipeCopyFits(s.table, id, s.pipes[id]);
    ShippedIsActive(s.table, id, s.pipes[id]);
  }

  lemma ShippedIsActive(t: Table, id: nat, p: Pipe)
    requires PipeFits(t, id, p) && PipeCopyFits(t, id, p) && ActEnabled(p.stage, GoLive)
    ensures id < |t| && ActiveAt(t, id) && PastCheck(p.stage) && p.dep.fromTag == t[id].fromTag
  {
  }

  /** In any reachable state, while a row of the app is active, a step changes the app's live row exactly
      when it is a late supersede write of another pipeline of the app. */
  lemma LiveStandsStill(cfg: Config, s: State, e: Event, id: nat)
    requires Reachable(cfg, s) && Enabled(s, e)
    requires ActiveAt(s.table, id) && ActiveAt(Apply(cfg, s, e).table, id)
    ensures Live(Apply(cfg, s, e).table, s.table[id].app) == Live(s.table, s.table[id].app) <==> !Ousts(s, e, s.table[id].app)
  {
    ReachableInv(cfg, s);
    LiveKeptExactly(cfg, s, e, id);
  }
}
