/** Which tag a deployment builds: prepareTag without its code, and over whole runs the tag of a click on
    Deploy that goes live (internal/deploy/pipeline.go prepareTag). */
module QueueClick {
  import opened Bytes
  import opened Status
  import opened Deployments
  import opened Glob
  import opened TagPolicy
  import opened Queue
  import opened QueueInvariant
  import opened QueueTheorems

  // --------------------------------------------------------------- what prepareTag settles

  /** The newest tag of the remote's list that counts; if none does, the live tag, which must still be listed
      and follow the policy; else a failure. */
  ghost predicate ClickSettles(p: Policy, t: Table, app: int, listed: seq<Str>, stage: Stage) {
    exists newest, live :: FirstHighest(p, listed, true, newest) && IsLive(t, app, live) && ClickStage(p, t, listed, newest, live, stage)
  }

  ghost predicate ClickStage(p: Policy, t: Table, listed: seq<Str>, newest: Option<Str>, live: Option<nat>, stage: Stage) {
    if newest.Some? then stage == Tagging(newest.value)
    else if live.Some? && live.value < |t| && t[live.value].tag in listed && Follows(p, t[live.value].tag) then stage == Tagging(t[live.value].tag)
    else stage == Failing(Building)
  }

  /** A click on Deploy in a tag-mode app. */
  lemma ClickSettlesExactly(cfg: Config, t: Table, dep: Row, listed: seq<Str>)
    requires dep.image == [] && !dep.fromTag && dep.tag == [] && cfg(dep.app).tagMode
    ensures ClickSettles(cfg(dep.app).policy, t, dep.app, listed, Settled(cfg, t, dep, listed))
  {
    var p, live := cfg(dep.app).policy, Live(t, dep.app);
    var newest := Highest(p, Kept(p, listed, true));
    ScanFindsFirst(p, listed, true);
    if live.Some? { EligibleExactly(p, t[live.value].tag); }
    assert ClickStage(p, t, listed, newest, live, Settled(cfg, t, dep, listed));
  }

  /** The tag in `mark` counts against `tag`, and `tag` is not above it. */
  ghost predicate HeldBy(p: Policy, tag: Str, mark: Str) {
    mark != [] && MatchGlob(p.pattern, mark) && Readable(p, mark) && Readable(p, tag) && !Higher(p, tag, mark)
  }

  /** A tag-event deployment builds its tag exactly when the tag still follows the policy and the tag live by
      then does not hold it back; otherwise it is skipped. */
  lemma EventSettlesExactly(cfg: Config, t: Table, dep: Row, listed: seq<Str>, live: Option<nat>)
    requires dep.image == [] && dep.fromTag && dep.tag != [] && IsLive(t, dep.app, live)
    ensures var p := cfg(dep.app).policy;
      Settled(cfg, t, dep, listed) ==
        if Follows(p, dep.tag) && !(live.Some? && HeldBy(p, dep.tag, t[live.value].tag)) then Preparing else Skipping
  {
    var p := cfg(dep.app).policy;
    LiveUnique(t, dep.app, live, Live(t, dep.app));
    var inPlay := if live.Some? && t[live.value].tag != [] then [t[live.value].tag] else [];
    OneTagDecided(p, dep.tag, inPlay);
    EligibleExactly(p, dep.tag);
    if inPlay != [] { HigherExactly(p, dep.tag, inPlay[0]); ReadableExactly(p, inPlay[0]); ReadableExactly(p, dep.tag); }
  }

  /** One tag against at most one in play. */
  lemma OneTagDecided(p: Policy, tag: Str, inPlay: seq<Str>)
    requires tag != [] && |inPlay| <= 1
    ensures Decided(p, [tag], inPlay).tag == [] <==>
      !Eligible(p, tag) || (inPlay != [] && Matches(p, inPlay[0]) && AtMost(p, tag, inPlay[0]))
  {
    DecidedNothing(p, [tag], inPlay);
    assert [tag][0] == tag;
    if inPlay != [] && Matches(p, inPlay[0]) && AtMost(p, tag, inPlay[0]) && Eligible(p, tag) {
      assert Candidate(p, [tag], tag) && Competitor(p, inPlay, inPlay[0]);
      assert Dominates(p, [tag], inPlay[0]);
    }
  }

  /** A rollback needs no tag, a branch deployment has none, and one that was resolved keeps it. */
  lemma OthersSettle(cfg: Config, t: Table, dep: Row, listed: seq<Str>)
    requires dep.image != [] || (!dep.fromTag && (!cfg(dep.app).tagMode || dep.tag != []))
    ensures Settled(cfg, t, dep, listed) == Preparing
  {
  }

  // --------------------------------------------------------------------- over whole runs

  /** A row that neither a tag event nor a rollback enqueued. */
  predicate Clicked(r: Row) { !r.fromTag && r.rollbackOf.None? }

  /** The copy a pipeline of a clicked row works on, before prepareTag. */
  predicate FreshCopy(r: Row, dep: Row) { Clicked(dep) && dep.app == r.app && dep.image == [] && dep.tag == [] }

  /** What is known of a clicked row and of whoever holds it. */
  predicate ClickFits(s: State, id: nat) {
    id < |s.table| && Clicked(s.table[id]) ==>
      && (s.table[id].status == Queued ==> FreshCopy(s.table[id], s.table[id]))
      && ((s.disp.Picked? || s.disp.Holding?) && s.disp.id == id ==> FreshCopy(s.table[id], s.disp.dep))
      && (id in s.pipes ==> s.pipes[id].dep.app == s.table[id].app && (s.pipes[id].stage.Starting? ==> FreshCopy(s.table[id], s.pipes[id].dep)))
  }

  /** A row keeps its app and how it was enqueued, and its tag unless its own pipeline writes it. */
  lemma RowKeeps(cfg: Config, s: State, e: Event, id: nat)
    requires Inv(s) && Enabled(s, e) && id < |s.table|
    ensures var u := Apply(cfg, s, e).table;
      && id < |u| && u[id].app == s.table[id].app && u[id].fromTag == s.table[id].fromTag && u[id].rollbackOf == s.table[id].rollbackOf
      && (u[id].tag == s.table[id].tag || e == Run(id, WriteTag))
      && (u[id].status == Queued ==> s.table[id].status == Queued && u[id].image == s.table[id].image && u[id].tag == s.table[id].tag)
  {
    if e.Run? {
      assert PipeFits(s.table, e.id, s.pipes[e.id]);
      if !e.act.Return? { WriteKeepsRow(cfg, s.table, e.id, s.pipes[e.id], e.act, id); }
    }
  }

  lemma WriteKeepsRow(cfg: Config, t: Table, k: nat, p: Pipe, act: Act, id: nat)
    requires PipeFits(t, k, p) && ActEnabled(p.stage, act) && id < |t|
    ensures var u := Written(cfg, t, k, p, act);
      && id < |u| && u[id].app == t[id].app && u[id].fromTag == t[id].fromTag && u[id].rollbackOf == t[id].rollbackOf
      && (u[id].tag == t[id].tag || (act.WriteTag? && k == id))
      && (u[id].status == Queued ==> t[id].status == Queued && u[id].image == t[id].image && u[id].tag == t[id].tag)
  {
  }

  lemma ClickFitsKept(cfg: Config, s: State, e: Event, id: nat)
    requires Inv(s) && Enabled(s, e) && ClickFits(s, id)
    ensures ClickFits(Apply(cfg, s, e), id)
  {
    if e.Run? { assert PipeFits(s.table, e.id, s.pipes[e.id]); }
    if e.Run? && e.id == id {
      OwnActFits(cfg, s, id, e.act);
    } else if id < |s.table| {
      RowKeeps(cfg, s, e, id);
      OthersFit(cfg, s, e, id);
    } else {
      NewRowFits(cfg, s, e, id);
    }
  }

  lemma OwnActFits(cfg: Config, s: State, id: nat, act: Act)
    requires Enabled(s, Run(id, act)) && PipeFits(s.table, id, s.pipes[id]) && ClickFits(s, id)
    ensures ClickFits(RunStep(cfg, s, id, act), id)
  {
    if !act.Return? {
      WriteKeepsRow(cfg, s.table, id, s.pipes[id], act, id);
      StartingOnce(cfg, s.table, id, s.pipes[id], act);
    }
  }

  lemma OthersFit(cfg: Config, s: State, e: Event, id: nat)
    requires Inv(s) && Enabled(s, e) && ClickFits(s, id) && id < |s.table| && !(e.Run? && e.id == id)
    requires var u := Apply(cfg, s, e).table;
      && id < |u| && u[id].app == s.table[id].app && u[id].fromTag == s.table[id].fromTag && u[id].rollbackOf == s.table[id].rollbackOf
      && (u[id].status == Queued ==> s.table[id].status == Queued && u[id].image == s.table[id].image && u[id].tag == s.table[id].tag)
    ensures ClickFits(Apply(cfg, s, e), id)
  {
    HoldersStay(cfg, s, e, id);
  }

  /** Whoever holds the row after an event of others held it before, or has just read or launched it. */
  lemma HoldersStay(cfg: Config, s: State, e: Event, id: nat)
    requires Inv(s) && Enabled(s, e) && id < |s.table| && !(e.Run? && e.id == id)
    ensures var d := Apply(cfg, s, e).disp;
      (d.Picked? || d.Holding?) && d.id == id ==>
        ((s.disp.Picked? || s.disp.Holding?) && s.disp.id == id && d.dep == s.disp.dep) || (s.table[id].status == Queued && d.dep == s.table[id])
    ensures var ps := Apply(cfg, s, e).pipes;
      id in ps ==> ((id in s.pipes && ps[id] == s.pipes[id])
        || (s.disp.Holding? && s.disp.id == id && ps[id] == Pipe(s.disp.dep, Starting) && s.disp.dep.app == s.table[id].app))
  {
    if e.Launch? { assert DispatcherFits(s.table, s.pipes, s.disp); }
  }

  lemma NewRowFits(cfg: Config, s: State, e: Event, id: nat)
    requires Inv(s) && Enabled(s, e) && id >= |s.table|
    ensures ClickFits(Apply(cfg, s, e), id)
  {
    NobodyHolds(cfg, s, e, id);
    if id < |Apply(cfg, s, e).table| { AppendedFresh(cfg, s, e, id); }
  }

  lemma NobodyHolds(cfg: Config, s: State, e: Event, id: nat)
    requires Inv(s) && Enabled(s, e) && id >= |s.table|
    ensures id !in Apply(cfg, s, e).pipes
    ensures var d := Apply(cfg, s, e).disp; !((d.Picked? || d.Holding?) && d.id == id)
  {
    if e.Run? { assert PipeFits(s.table, e.id, s.pipes[e.id]); }
    assert DispatcherFits(s.table, s.pipes, s.disp);
    assert id in s.pipes ==> PipeFits(s.table, id, s.pipes[id]);
  }

  lemma AppendedFresh(cfg: Config, s: State, e: Event, id: nat)
    requires Inv(s) && Enabled(s, e) && |s.table| <= id < |Apply(cfg, s, e).table|
    ensures var r := Apply(cfg, s, e).table[id]; Clicked(r) ==> FreshCopy(r, r)
  {
    if e.Run? {
      assert PipeFits(s.table, e.id, s.pipes[e.id]);
      if !e.act.Return? { SameLength(cfg, s.table, e.id, s.pipes[e.id], e.act); }
    }
  }

  /** No act leads back to the start. */
  lemma StartingOnce(cfg: Config, t: Table, id: nat, p: Pipe, act: Act)
    requires PipeFits(t, id, p) && ActEnabled(p.stage, act)
    ensures !NextStage(cfg, t, id, p, act).Starting? && NextDep(p, act).app == p.dep.app
  {
    if act.Settle? { SettledStage(cfg, t, p.dep, act.listed); }
  }

  lemma {:induction false} ClickFitsAlong(cfg: Config, ss: seq<State>, es: seq<Event>, i: nat, id: nat)
    requires IsRun(cfg, ss, es) && i <= |es|
    ensures ClickFits(ss[i], id)
  {
    if i > 0 {
      ClickFitsAlong(cfg, ss, es, i - 1, id);
      ClickFitsStep(cfg, ss, es, i - 1, id);
    }
  }

  lemma ClickFitsStep(cfg: Config, ss: seq<State>, es: seq<Event>, i: nat, id: nat)
    requires IsRun(cfg, ss, es) && i < |es| && ClickFits(ss[i], id)
    ensures ClickFits(ss[i + 1], id)
  {
    InvAlong(cfg, ss, es, i);
    ClickFitsKept(cfg, ss[i], es[i], id);
  }

  /** In its first n steps the run settled that row id builds this tag, on a list of the remote's tags. */
  ghost predicate Chosen(cfg: Config, ss: seq<State>, es: seq<Event>, n: nat, id: nat, tag: Str)
    requires n <= |es| < |ss|
  {
    exists i, listed :: 0 <= i < n && es[i] == Run(id, Settle(listed)) && SettledOn(cfg, ss[i].table, id, listed, tag)
  }

  ghost predicate SettledOn(cfg: Config, t: Table, id: nat, listed: seq<Str>, tag: Str) {
    id < |t| && ClickSettles(cfg(t[id].app).policy, t, t[id].app, listed, Tagging(tag))
  }

  predicate TagWritten(stage: Stage) {
    stage.Preparing? || stage.Built? || stage.Gated? || stage.Shipped? || stage.Retiring?
  }

  lemma ActOnClick(cfg: Config, t: Table, id: nat, p: Pipe, act: Act)
    requires id < |t| && cfg(t[id].app).tagMode && Clicked(t[id]) && PipeFits(t, id, p) && ActEnabled(p.stage, act)
    requires p.stage.Starting? ==> FreshCopy(t[id], p.dep)
    ensures var st, u := NextStage(cfg, t, id, p, act), Written(cfg, t, id, p, act);
      && (st.Tagging? ==> act.Settle? && SettledOn(cfg, t, id, act.listed, st.tag))
      && (TagWritten(st) ==> (act.WriteTag? && p.stage.Tagging? && u[id].tag == p.stage.tag) || (TagWritten(p.stage) && u[id].tag == t[id].tag))
  {
    if act.Settle? { ClickSettlesExactly(cfg, t, p.dep, act.listed); }
  }

  /** A clicked row of a tag-mode app is in its pipeline. */
  predicate ClickHeld(cfg: Config, s: State, id: nat) {
    id < |s.table| && id in s.pipes && Clicked(s.table[id]) && cfg(s.table[id].app).tagMode
  }

  /** Where the tag a pipeline carries comes from, one step back. */
  ghost predicate ComesFrom(cfg: Config, s: State, e: Event, s': State, id: nat) {
    ClickHeld(cfg, s', id) ==>
      && (s'.pipes[id].stage.Tagging? ==>
          (SettlesNow(cfg, s, e, id, s'.pipes[id].stage.tag) || (ClickHeld(cfg, s, id) && s.pipes[id].stage == s'.pipes[id].stage)))
      && (TagWritten(s'.pipes[id].stage) ==> ClickHeld(cfg, s, id) && TagFrom(s.pipes[id].stage, s.table[id].tag, s'.table[id].tag))
  }

  ghost predicate SettlesNow(cfg: Config, s: State, e: Event, id: nat, tag: Str) {
    e.Run? && e.id == id && e.act.Settle? && SettledOn(cfg, s.table, id, e.act.listed, tag)
  }

  predicate TagFrom(stage: Stage, before: Str, tag: Str) {
    if stage.Tagging? then tag == stage.tag else TagWritten(stage) && tag == before
  }

  lemma ChosenStep(cfg: Config, s: State, e: Event, id: nat)
    requires Inv(s) && ClickFits(s, id) && Enabled(s, e)
    ensures ComesFrom(cfg, s, e, Apply(cfg, s, e), id)
  {
    if id in s.pipes {
      assert PipeFits(s.table, id, s.pipes[id]);
      if e.Run? && e.id == id { OwnStep(cfg, s, id, e.act); } else { OtherStep(cfg, s, e, id); }
    }
  }

  lemma OwnStep(cfg: Config, s: State, id: nat, act: Act)
    requires Inv(s) && ClickFits(s, id) && Enabled(s, Run(id, act)) && PipeFits(s.table, id, s.pipes[id])
    ensures ComesFrom(cfg, s, Run(id, act), RunStep(cfg, s, id, act), id)
  {
    if !act.Return? {
      WriteKeepsRow(cfg, s.table, id, s.pipes[id], act, id);
      if ClickHeld(cfg, s, id) { ActOnClick(cfg, s.table, id, s.pipes[id], act); }
    }
  }

  lemma OtherStep(cfg: Config, s: State, e: Event, id: nat)
    requires Inv(s) && Enabled(s, e) && id in s.pipes && PipeFits(s.table, id, s.pipes[id]) && !(e.Run? && e.id == id)
    ensures ComesFrom(cfg, s, e, Apply(cfg, s, e), id)
  {
    RowKeeps(cfg, s, e, id);
    PipeStays(cfg, s, e, id);
  }

  /** A pipeline is moved by its own acts only. */
  lemma PipeStays(cfg: Config, s: State, e: Event, id: nat)
    requires Inv(s) && Enabled(s, e) && id in s.pipes && !(e.Run? && e.id == id)
    ensures id in Apply(cfg, s, e).pipes ==> Apply(cfg, s, e).pipes[id] == s.pipes[id]
  {
    if e.Launch? { assert DispatcherFits(s.table, s.pipes, s.disp); }
  }

  lemma ComesFromAlong(cfg: Config, ss: seq<State>, es: seq<Event>, i: nat, id: nat)
    requires IsRun(cfg, ss, es) && i < |es|
    ensures ComesFrom(cfg, ss[i], es[i], ss[i + 1], id)
  {
    InvAlong(cfg, ss, es, i);
    ClickFitsAlong(cfg, ss, es, i, id);
    ChosenStep(cfg, ss[i], es[i], id);
  }

  /** The tag the pipeline carries was chosen before. */
  ghost predicate Traced(cfg: Config, ss: seq<State>, es: seq<Event>, n: nat, id: nat)
    requires n <= |es| < |ss|
  {
    ClickHeld(cfg, ss[n], id) ==>
      && (ss[n].pipes[id].stage.Tagging? ==> Chosen(cfg, ss, es, n, id, ss[n].pipes[id].stage.tag))
      && (TagWritten(ss[n].pipes[id].stage) ==> Chosen(cfg, ss, es, n, id, ss[n].table[id].tag))
  }

  /** The pipeline of a clicked row of a tag-mode app carries the tag the run chose for it. */
  lemma {:induction false} TracedAlong(cfg: Config, ss: seq<State>, es: seq<Event>, n: nat, id: nat)
    requires IsRun(cfg, ss, es) && n <= |es|
    ensures Traced(cfg, ss, es, n, id)
  {
    if n > 0 {
      TracedAlong(cfg, ss, es, n - 1, id);
      TracedNext(cfg, ss, es, n, id);
    }
  }

  lemma TracedNext(cfg: Config, ss: seq<State>, es: seq<Event>, n: nat, id: nat)
    requires IsRun(cfg, ss, es) && 0 < n <= |es| && Traced(cfg, ss, es, n - 1, id)
    ensures Traced(cfg, ss, es, n, id)
  {
    ComesFromAlong(cfg, ss, es, n - 1, id);
    TracedFrom(cfg, ss, es, n, id);
  }

  lemma TracedFrom(cfg: Config, ss: seq<State>, es: seq<Event>, n: nat, id: nat)
    requires 0 < n <= |es| < |ss| && Traced(cfg, ss, es, n - 1, id) && ComesFrom(cfg, ss[n - 1], es[n - 1], ss[n], id)
    ensures Traced(cfg, ss, es, n, id)
  {
    ChosenNext(cfg, ss, es, n, id);
  }

  lemma ChosenNext(cfg: Config, ss: seq<State>, es: seq<Event>, n: nat, id: nat)
    requires 0 < n <= |es| < |ss|
    ensures forall tag :: Chosen(cfg, ss, es, n - 1, id, tag) ==> Chosen(cfg, ss, es, n, id, tag)
    ensures forall listed, tag :: es[n - 1] == Run(id, Settle(listed)) && SettledOn(cfg, ss[n - 1].table, id, listed, tag) ==> Chosen(cfg, ss, es, n, id, tag)
  {
  }

  /** A click on Deploy in a tag-mode app that goes live builds the newest tag that counts of the list the
      run read for it; if none counts, the tag that was live then, still listed and following the policy. */
  lemma ClickBuildsNewest(cfg: Config, ss: seq<State>, es: seq<Event>, id: nat)
    requires IsRun(cfg, ss, es) && Enabled(ss[|es|], Run(id, GoLive))
    requires var t := ss[|es|].table; Clicked(t[id]) && cfg(t[id].app).tagMode
    ensures Chosen(cfg, ss, es, |es|, id, ss[|es|].table[id].tag)
  {
    TracedAlong(cfg, ss, es, |es|, id);
  }

  // ------------------------------------------------------------ what a pipeline clones

  /** Whoever holds the row has its tag in the copy. */
  predicate CopyHasTag(s: State, id: nat) {
    && id < |s.table|
    && ((s.disp.Picked? || s.disp.Holding?) && s.disp.id == id ==> s.disp.dep.tag == s.table[id].tag)
    && (id in s.pipes ==> s.pipes[id].dep.tag == s.table[id].tag)
  }

  lemma OwnActCopies(cfg: Config, s: State, id: nat, act: Act)
    requires Inv(s) && Enabled(s, Run(id, act)) && PipeFits(s.table, id, s.pipes[id]) && CopyHasTag(s, id)
    ensures CopyHasTag(RunStep(cfg, s, id, act), id)
  {
    assert DispatcherFits(s.table, s.pipes, s.disp);
    if !act.Return? { TagBoth(cfg, s.table, id, s.pipes[id], act); }
  }

  /** The tag is written into the row and into the copy. */
  lemma TagBoth(cfg: Config, t: Table, id: nat, p: Pipe, act: Act)
    requires PipeFits(t, id, p) && ActEnabled(p.stage, act) && p.dep.tag == t[id].tag
    ensures id < |Written(cfg, t, id, p, act)| && NextDep(p, act).tag == Written(cfg, t, id, p, act)[id].tag
  {
  }

  lemma OthersCopy(cfg: Config, s: State, e: Event, id: nat)
    requires Inv(s) && Enabled(s, e) && CopyHasTag(s, id) && !(e.Run? && e.id == id)
    ensures CopyHasTag(Apply(cfg, s, e), id)
  {
    RowKeeps(cfg, s, e, id);
    if id in s.pipes { PipeStays(cfg, s, e, id); }
  }

  lemma NewRowCopies(cfg: Config, s: State, e: Event)
    requires Inv(s) && Enabled(s, e) && |Apply(cfg, s, e).table| > |s.table|
    ensures CopyHasTag(Apply(cfg, s, e), |s.table|)
  {
    assert DispatcherFits(s.table, s.pipes, s.disp);
    assert |s.table| !in s.pipes;
    if e.Run? { assert PipeFits(s.table, e.id, s.pipes[e.id]); }
  }

  lemma CopyStep(cfg: Config, s: State, e: Event, id: nat)
    requires Inv(s) && Enabled(s, e) && id < |Apply(cfg, s, e).table| && (id < |s.table| ==> CopyHasTag(s, id))
    ensures CopyHasTag(Apply(cfg, s, e), id)
  {
    if id >= |s.table| {
      OneRowAtMost(cfg, s, e);
      NewRowCopies(cfg, s, e);
    } else if e.Run? && e.id == id {
      assert PipeFits(s.table, id, s.pipes[id]);
      OwnActCopies(cfg, s, id, e.act);
    } else {
      OthersCopy(cfg, s, e, id);
    }
  }

  lemma OneRowAtMost(cfg: Config, s: State, e: Event)
    requires Inv(s) && Enabled(s, e)
    ensures |Apply(cfg, s, e).table| <= |s.table| + 1
  {
    if e.Run? { assert PipeFits(s.table, e.id, s.pipes[e.id]); }
  }

  lemma {:induction false} CopyAlong(cfg: Config, ss: seq<State>, es: seq<Event>, i: nat, id: nat)
    requires IsRun(cfg, ss, es) && i <= |es| && id < |ss[i].table|
    ensures CopyHasTag(ss[i], id)
  {
    if i > 0 {
      if id < |ss[i - 1].table| { CopyAlong(cfg, ss, es, i - 1, id); }
      CopyOnce(cfg, ss, es, i - 1, id);
    }
  }

  lemma CopyOnce(cfg: Config, ss: seq<State>, es: seq<Event>, i: nat, id: nat)
    requires IsRun(cfg, ss, es) && i < |es| && id < |ss[i + 1].table| && (id < |ss[i].table| ==> CopyHasTag(ss[i], id))
    ensures CopyHasTag(ss[i + 1], id)
  {
    InvAlong(cfg, ss, es, i);
    CopyStep(cfg, ss[i], es[i], id);
  }

  /** In every reachable state the tag a pipeline would clone is the one its row records. */
  lemma PipelineHasRowsTag(cfg: Config, s: State, id: nat)
    requires Reachable(cfg, s) && id in s.pipes
    ensures id < |s.table| && s.pipes[id].dep.tag == s.table[id].tag
  {
    var ss, es :| IsRun(cfg, ss, es) && ss[|es|] == s;
    InvAlong(cfg, ss, es, |es|);
    assert PipeFits(s.table, id, s.pipes[id]);
    CopyAlong(cfg, ss, es, |es|, id);
  }

  // -------------------------------------------------------- what the events do to the rows

  /** The status of row i after an event. */
  ghost predicate StatusAfter(s: State, e: Event, i: nat, status: DeployStatus)
    requires i < |s.table|
  {
    var was := s.table[i].status;
    match e
    case CancelWrite(id, from) => status == if id == i && was == from then Cancelled else was
    case Claim => status == if s.disp.Picked? && s.disp.id == i && was == Queued then Building else was
    case Restart(_) => status == if was in {Building, Deploying} then DeployStatus.Failed else was
    case Run(id, act) => id in s.pipes && status == AfterAct(s, id, act, i)
    case _ => status == was
  }

  /** A pipeline moves its own row, but for the rows of its app that Retire retires. */
  function AfterAct(s: State, id: nat, act: Act, i: nat): DeployStatus
    requires i < |s.table| && id in s.pipes
  {
    var was := s.table[i].status;
    if act.Retire? then (if id != i && s.table[i].app == s.pipes[id].dep.app && was == Running then Superseded else was)
    else if id != i then was
    else if act.Gate? && was == Building then Deploying
    else if act.GoLive? && was == Deploying then Running
    else if act.WriteFailure? && s.pipes[id].stage == Failing(was) then DeployStatus.Failed
    else if act.WriteSkip? && was == Building then Cancelled
    else was
  }

  lemma StatusExactly(cfg: Config, s: State, e: Event, i: nat)
    requires Inv(s) && Enabled(s, e) && i < |s.table|
    ensures i < |Apply(cfg, s, e).table| && StatusAfter(s, e, i, Apply(cfg, s, e).table[i].status)
  {
    if e.Run? {
      assert PipeFits(s.table, e.id, s.pipes[e.id]);
      if !e.act.Return? { ActExactly(cfg, s, e.id, e.act, i); }
    }
  }

  lemma ActExactly(cfg: Config, s: State, id: nat, act: Act, i: nat)
    requires Enabled(s, Run(id, act)) && PipeFits(s.table, id, s.pipes[id]) && i < |s.table|
    ensures var u := Written(cfg, s.table, id, s.pipes[id], act); i < |u| && u[i].status == AfterAct(s, id, act, i)
  {
  }

  /** What an event appends: a deployment, a rollback, or the decision about a push on the tags in play. */
  ghost predicate Appends(cfg: Config, t: Table, e: Event, rows: seq<Row>) {
    match e
    case Enqueue(app) => rows == [NewRow(app)]
    case EnqueueRollback(app, image, of) => rows == [RollbackRow(t, app, image, of)]
    case EnqueueTag(app, pushed) =>
      exists d :: DecisionIs(cfg(app).policy, pushed, InPlayTags(t, app, |t|), d) && rows == if d.tag == [] then [] else [TagRow(app, d.tag)]
    case _ => rows == []
  }

  lemma AppendedExactly(cfg: Config, s: State, e: Event)
    requires Inv(s) && Enabled(s, e)
    ensures |Apply(cfg, s, e).table| >= |s.table| && Appends(cfg, s.table, e, Apply(cfg, s, e).table[|s.table|..])
  {
    if e.EnqueueTag? { DecidedExactly(cfg(e.app).policy, e.pushed, InPlayTags(s.table, e.app, |s.table|)); }
    if e.Run? {
      assert PipeFits(s.table, e.id, s.pipes[e.id]);
      if !e.act.Return? { SameLength(cfg, s.table, e.id, s.pipes[e.id], e.act); }
    }
  }

  lemma SameLength(cfg: Config, t: Table, id: nat, p: Pipe, act: Act)
    requires id < |t| && ActEnabled(p.stage, act)
    ensures |Written(cfg, t, id, p, act)| == |t|
  {
  }
}
