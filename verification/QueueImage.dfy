/** Which image a deployment that goes live runs: the one its rollback was enqueued with, or the one its own
    pipeline built (internal/deploy/pipeline.go, with CreateRollback and SetImage of
    internal/store/deployments.go). */
module QueueImage {
  import opened Bytes
  import opened Status
  import opened Deployments
  import opened Queue
  import opened QueueInvariant
  import opened QueueTheorems

  predicate NotBuilt(stage: Stage) { stage.Starting? || stage.Tagging? || stage.Preparing? }

  predicate PastBuild(stage: Stage) { stage.Built? || stage.Gated? || stage.Shipped? || stage.Retiring? }

  /** The row was enqueued with the image e; whoever holds it carries e, and no build overwrites one. */
  predicate CarriesImage(cfg: Config, s: State, id: nat, e: Str) {
    && id < |s.table|
    && (s.table[id].status == Queued ==> s.table[id].image == e)
    && ((s.disp.Picked? || s.disp.Holding?) && s.disp.id == id ==> s.disp.dep.image == s.table[id].image == e)
    && (id in s.pipes ==> PipeCarries(cfg, s.table[id], s.pipes[id], e))
  }

  predicate PipeCarries(cfg: Config, r: Row, p: Pipe, e: Str) {
    && p.dep.image == e && p.dep.app == r.app
    && (NotBuilt(p.stage) ==> r.image == e)
    && (PastBuild(p.stage) && (e != [] || cfg(r.app).compose) ==> r.image == e)
  }

  /** The image of a row changes only by the build of its own pipeline. */
  lemma ImageStays(cfg: Config, s: State, ev: Event, id: nat)
    requires Inv(s) && Enabled(s, ev) && id < |s.table|
    ensures var u := Apply(cfg, s, ev).table;
      && id < |u| && u[id].app == s.table[id].app && (u[id].status == Queued ==> s.table[id].status == Queued)
      && (!(ev.Run? && ev.id == id) ==> u[id].image == s.table[id].image)
  {
    if ev.Run? {
      assert PipeFits(s.table, ev.id, s.pipes[ev.id]);
      if !ev.act.Return? { WriteKeepsImage(cfg, s.table, ev.id, s.pipes[ev.id], ev.act, id); }
    }
  }

  lemma WriteKeepsImage(cfg: Config, t: Table, k: nat, p: Pipe, act: Act, id: nat)
    requires PipeFits(t, k, p) && ActEnabled(p.stage, act) && id < |t|
    ensures var u := Written(cfg, t, k, p, act);
      && id < |u| && u[id].app == t[id].app && (u[id].status == Queued ==> t[id].status == Queued)
      && (u[id].image == t[id].image || (k == id && act.Build? && p.dep.image == [] && !cfg(p.dep.app).compose && u[id].image == act.image))
  {
  }

  lemma OwnActCarries(cfg: Config, s: State, id: nat, act: Act, e: Str)
    requires Inv(s) && Enabled(s, Run(id, act)) && CarriesImage(cfg, s, id, e) && PipeFits(s.table, id, s.pipes[id])
    ensures CarriesImage(cfg, RunStep(cfg, s, id, act), id, e)
  {
    if !act.Return? {
      WriteKeepsImage(cfg, s.table, id, s.pipes[id], act, id);
      StageForward(cfg, s.table, id, s.pipes[id], act);
      assert DispatcherFits(s.table, s.pipes, s.disp);
    }
  }

  lemma StageForward(cfg: Config, t: Table, id: nat, p: Pipe, act: Act)
    requires PipeFits(t, id, p) && ActEnabled(p.stage, act)
    ensures var st := NextStage(cfg, t, id, p, act);
      && NextDep(p, act).image == p.dep.image && NextDep(p, act).app == p.dep.app
      && (NotBuilt(st) ==> NotBuilt(p.stage) && !act.Build?)
      && (PastBuild(st) ==> act.Build? || PastBuild(p.stage))
      && (act.Build? ==> NotBuilt(p.stage) && PastBuild(st))
  {
    if act.Settle? { SettledStage(cfg, t, p.dep, act.listed); }
  }

  lemma OtherStepCarries(cfg: Config, s: State, ev: Event, id: nat, e: Str)
    requires Inv(s) && Enabled(s, ev) && CarriesImage(cfg, s, id, e) && !(ev.Run? && ev.id == id)
    ensures CarriesImage(cfg, Apply(cfg, s, ev), id, e)
  {
    ImageStays(cfg, s, ev, id);
    OtherPipes(cfg, s, ev, id);
  }

  /** Other events leave the pipeline as it is, end it, or start it with the copy the dispatcher read. */
  lemma OtherPipes(cfg: Config, s: State, ev: Event, id: nat)
    requires Inv(s) && Enabled(s, ev) && id < |s.table| && !(ev.Run? && ev.id == id)
    ensures var s' := Apply(cfg, s, ev);
      id in s'.pipes ==> ((id in s.pipes && s'.pipes[id] == s.pipes[id])
        || (s.disp.Holding? && s.disp.id == id && s'.pipes[id] == Pipe(s.disp.dep, Starting) && s.disp.dep.app == s.table[id].app))
  {
    if ev.Launch? { assert DispatcherFits(s.table, s.pipes, s.disp); }
  }

  lemma CarriesOn(cfg: Config, s: State, ev: Event, id: nat, e: Str)
    requires Inv(s) && Enabled(s, ev) && CarriesImage(cfg, s, id, e)
    ensures CarriesImage(cfg, Apply(cfg, s, ev), id, e)
  {
    if ev.Run? && ev.id == id {
      assert PipeFits(s.table, id, s.pipes[id]);
      OwnActCarries(cfg, s, id, ev.act, e);
    } else {
      OtherStepCarries(cfg, s, ev, id, e);
    }
  }

  /** The row that a step appends carries its own image. */
  lemma NewRowCarries(cfg: Config, s: State, ev: Event)
    requires Inv(s) && Enabled(s, ev) && |Apply(cfg, s, ev).table| > |s.table|
    ensures CarriesImage(cfg, Apply(cfg, s, ev), |s.table|, Apply(cfg, s, ev).table[|s.table|].image)
  {
    var id := |s.table|;
    assert DispatcherFits(s.table, s.pipes, s.disp);
    assert id !in s.pipes;
    if ev.Run? { assert PipeFits(s.table, ev.id, s.pipes[ev.id]); }
  }

  /** Step `at` of the run appends row id with this image. */
  ghost predicate EnqueuedWith(ss: seq<State>, at: nat, id: nat, e: Str) {
    at + 1 < |ss| && |ss[at].table| == id && id < |ss[at + 1].table| && ss[at + 1].table[id].image == e
  }

  /** The run has built this image for the row. */
  ghost predicate BuiltAs(es: seq<Event>, n: nat, id: nat, image: Str)
    requires n <= |es|
  {
    exists i :: 0 <= i < n && es[i] == Run(id, Build(image))
  }

  predicate BuildsOwn(cfg: Config, s: State, id: nat, e: Str)
    requires id < |s.table|
  {
    id in s.pipes && PastBuild(s.pipes[id].stage) && e == [] && !cfg(s.table[id].app).compose
  }

  /** A pipeline past its build without an image of its own: the row bears what was built. */
  ghost predicate BearsBuilt(cfg: Config, s: State, es: seq<Event>, n: nat, id: nat, e: Str)
    requires n <= |es|
  {
    id < |s.table| && BuildsOwn(cfg, s, id, e) ==> BuiltAs(es, n, id, s.table[id].image)
  }

  lemma OneStep(cfg: Config, ss: seq<State>, es: seq<Event>, i: nat)
    requires IsRun(cfg, ss, es) && i < |es|
    ensures Inv(ss[i]) && Enabled(ss[i], es[i]) && ss[i + 1] == Apply(cfg, ss[i], es[i])
  {
    InvAlong(cfg, ss, es, i);
  }

  lemma {:induction false} CarriesAlong(cfg: Config, ss: seq<State>, es: seq<Event>, at: nat, n: nat, id: nat, e: Str)
    requires IsRun(cfg, ss, es) && at < n <= |es| && EnqueuedWith(ss, at, id, e)
    ensures CarriesImage(cfg, ss[n], id, e)
  {
    if n == at + 1 {
      FirstCarries(cfg, ss, es, at, id, e);
    } else {
      CarriesAlong(cfg, ss, es, at, n - 1, id, e);
      NextCarries(cfg, ss, es, n - 1, id, e);
    }
  }

  lemma FirstCarries(cfg: Config, ss: seq<State>, es: seq<Event>, at: nat, id: nat, e: Str)
    requires IsRun(cfg, ss, es) && at < |es| && EnqueuedWith(ss, at, id, e)
    ensures CarriesImage(cfg, ss[at + 1], id, e)
  {
    OneStep(cfg, ss, es, at);
    NewRowCarries(cfg, ss[at], es[at]);
  }

  lemma NextCarries(cfg: Config, ss: seq<State>, es: seq<Event>, i: nat, id: nat, e: Str)
    requires IsRun(cfg, ss, es) && i < |es| && CarriesImage(cfg, ss[i], id, e)
    ensures CarriesImage(cfg, ss[i + 1], id, e)
  {
    OneStep(cfg, ss, es, i);
    CarriesOn(cfg, ss[i], es[i], id, e);
  }

  /** Where the image of a pipeline past its build comes from, one step back. */
  lemma BuiltStep(cfg: Config, s: State, ev: Event, id: nat, e: Str)
    requires Inv(s) && Enabled(s, ev) && CarriesImage(cfg, s, id, e)
    ensures id < |Apply(cfg, s, ev).table|
    ensures var s' := Apply(cfg, s, ev);
      BuildsOwn(cfg, s', id, e) ==> ev == Run(id, Build(s'.table[id].image)) || (BuildsOwn(cfg, s, id, e) && s'.table[id].image == s.table[id].image)
  {
    ImageStays(cfg, s, ev, id);
    if ev.Run? && ev.id == id {
      assert PipeFits(s.table, id, s.pipes[id]);
      if !ev.act.Return? {
        WriteKeepsImage(cfg, s.table, id, s.pipes[id], ev.act, id);
        StageForward(cfg, s.table, id, s.pipes[id], ev.act);
        if ev.act.Build? { BuildWrites(cfg, s.table, id, s.pipes[id], ev.act.image); }
      }
    } else {
      OtherPipes(cfg, s, ev, id);
    }
  }

  /** A build writes its image into the row, unless the row has one or the app is a compose app. */
  lemma BuildWrites(cfg: Config, t: Table, id: nat, p: Pipe, image: Str)
    requires id < |t| && p.stage.Preparing?
    ensures Written(cfg, t, id, p, Build(image))[id].image == if p.dep.image == [] && !cfg(p.dep.app).compose then image else t[id].image
  {
  }

  lemma {:induction false} BuiltAlong(cfg: Config, ss: seq<State>, es: seq<Event>, at: nat, n: nat, id: nat, e: Str)
    requires IsRun(cfg, ss, es) && at < n <= |es| && EnqueuedWith(ss, at, id, e)
    ensures BearsBuilt(cfg, ss[n], es, n, id, e)
  {
    if n == at + 1 {
      NotYet(cfg, ss, es, at, id);
    } else {
      BuiltAlong(cfg, ss, es, at, n - 1, id, e);
      CarriesAlong(cfg, ss, es, at, n - 1, id, e);
      BuiltNext(cfg, ss, es, n - 1, id, e);
    }
  }

  /** A row that was just appended is in no pipeline. */
  lemma NotYet(cfg: Config, ss: seq<State>, es: seq<Event>, at: nat, id: nat)
    requires IsRun(cfg, ss, es) && at < |es| && |ss[at].table| == id && id < |ss[at + 1].table|
    ensures id !in ss[at + 1].pipes
  {
    OneStep(cfg, ss, es, at);
    RowsComeAlone(cfg, ss[at], es[at], id);
  }

  lemma RowsComeAlone(cfg: Config, s: State, ev: Event, id: nat)
    requires Inv(s) && Enabled(s, ev) && |s.table| == id && id < |Apply(cfg, s, ev).table|
    ensures id !in Apply(cfg, s, ev).pipes
  {
    assert id in s.pipes ==> PipeFits(s.table, id, s.pipes[id]);
    if ev.Run? { assert PipeFits(s.table, ev.id, s.pipes[ev.id]); }
  }

  lemma BuiltNext(cfg: Config, ss: seq<State>, es: seq<Event>, i: nat, id: nat, e: Str)
    requires IsRun(cfg, ss, es) && i < |es| && CarriesImage(cfg, ss[i], id, e) && BearsBuilt(cfg, ss[i], es, i, id, e)
    ensures BearsBuilt(cfg, ss[i + 1], es, i + 1, id, e)
  {
    OneStep(cfg, ss, es, i);
    BuiltStep(cfg, ss[i], es[i], id, e);
  }

  /** When a row goes live it bears the image it was enqueued with, if any, and otherwise the image its own
      pipeline built; a compose app has none. */
  lemma GoesLiveOnItsImage(cfg: Config, ss: seq<State>, es: seq<Event>, at: nat, id: nat, e: Str)
    requires IsRun(cfg, ss, es) && at < |es| && EnqueuedWith(ss, at, id, e) && Enabled(ss[|es|], Run(id, GoLive))
    ensures var r := ss[|es|].table[id];
      if e != [] || cfg(r.app).compose then r.image == e else BuiltAs(es, |es|, id, r.image)
  {
    CarriesAlong(cfg, ss, es, at, |es|, id, e);
    BuiltAlong(cfg, ss, es, at, |es|, id, e);
  }
}
