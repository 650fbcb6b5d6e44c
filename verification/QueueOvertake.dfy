/** A run in which a lower release tag goes live over a higher one: a supersede write that is late by two
    deployments brings the higher tag back after the lower one was checked. */
module QueueOvertake {
  import opened Bytes
  import opened Status
  import opened Deployments
  import opened TagPolicy
  import opened Queue
  import opened QueueTheorems
  import opened QueueTags

  /** An eligible tag with nothing in play is the decision. */
  lemma DecidedAlone(p: Policy, tag: Str)
    requires tag != [] && Eligible(p, tag)
    ensures Decided(p, [tag], []).tag == tag
  {
    DecidedNothing(p, [tag], []);
    assert [tag][0] == tag;
    DecidedTag(p, [tag], []);
  }

  lemma NoneInPlay(t: Table, app: int, upTo: nat)
    requires upTo <= |t| && forall i :: 0 <= i < upTo ==> !InPlay(t, app, i)
    ensures InPlayTags(t, app, upTo) == []
  {
  }

  /** With nothing in play, an eligible tag is enqueued. */
  lemma TagEnqueued(cfg: Config, s: State, app: int, tag: Str)
    requires s.up && tag != [] && Eligible(cfg(app).policy, tag)
    requires forall i :: 0 <= i < |s.table| ==> !InPlay(s.table, app, i)
    ensures Apply(cfg, s, EnqueueTag(app, [tag])) == s.(table := s.table + [TagRow(app, tag)])
  {
    NoneInPlay(s.table, app, |s.table|);
    DecidedAlone(cfg(app).policy, tag);
  }

  /** What the row of a pipeline is once it is deploying. */
  function Deployed(dep: Row): Row {
    dep.(status := Deploying, image := if dep.image != [] then dep.image else [0])
  }

  /** From its launch to its health-checked container, nothing failing. */
  lemma ReachReady(cfg: Config, s: State, others: map<nat, Pipe>, id: nat, dep: Row)
    returns (s': State)
    requires Reachable(cfg, s) && s.up && id < |s.table| && s.table[id] == dep.(status := Building) && !cfg(dep.app).compose
    requires dep.reason == [] && s.pipes == others[id := Pipe(dep, Starting)] && Settled(cfg, s.table, dep, []) == Preparing
    ensures Reachable(cfg, s')
    ensures s' == s.(table := s.table[id := Deployed(dep)], pipes := others[id := Pipe(dep, Shipped)])
  {
    var t := s.table;
    var built, gated := t[id := Deployed(dep).(status := Building)], t[id := Deployed(dep)];
    s' := ReachAct(cfg, s, others, id, Pipe(dep, Starting), Settle([]), t, Preparing);
    assert dep.image != [] ==> t == built;
    s' := ReachAct(cfg, s', others, id, Pipe(dep, Preparing), Build([0]), built, Built);
    assert Moved(built, id, Building, Deploying, []) == gated;
    s' := ReachAct(cfg, s', others, id, Pipe(dep, Built), Gate, gated, Gated);
    s' := ReachAct(cfg, s', others, id, Pipe(dep, Gated), DeployShips, gated, Shipped);
  }

  lemma ReachLive(cfg: Config, s: State, others: map<nat, Pipe>, id: nat, dep: Row)
    returns (s': State)
    requires Reachable(cfg, s) && s.up && id < |s.table| && s.table[id] == Deployed(dep) && dep.reason == []
    requires s.pipes == others[id := Pipe(dep, Shipped)]
    ensures Reachable(cfg, s')
    ensures s' == s.(table := s.table[id := Deployed(dep).(status := Running)], pipes := others[id := Pipe(dep, Retiring)], lives := s.lives + [id])
  {
    ReachableStep(cfg, s, Run(id, GoLive));
    s' := s.(table := s.table[id := Deployed(dep).(status := Running)], pipes := others[id := Pipe(dep, Retiring)], lives := s.lives + [id]);
    assert Apply(cfg, s, Run(id, GoLive)).pipes == s'.pipes;
    assert Apply(cfg, s, Run(id, GoLive)).table == s'.table;
  }

  /** Enqueued in a quiet state, a row gets as far as its health-checked container. */
  lemma ReachShippedRow(cfg: Config, s: State, e: Event, dep: Row)
    returns (s': State)
    requires Reachable(cfg, s) && Quiet(s) && Enabled(s, e) && Apply(cfg, s, e) == s.(table := s.table + [dep])
    requires dep.status == Queued && dep.reason == [] && !cfg(dep.app).compose
    requires Settled(cfg, s.table + [dep.(status := Building)], dep, []) == Preparing
    ensures Reachable(cfg, s')
    ensures s' == s.(table := s.table + [Deployed(dep)], slots := s.slots + 1, claims := s.claims + [|s.table|],
                     pipes := s.pipes[|s.table| := Pipe(dep, Shipped)])
  {
    var launched := ReachLaunched(cfg, s, e, dep);
    s' := ReachReady(cfg, launched, s.pipes, |s.table|, dep);
    assert s'.table == s.table + [Deployed(dep)];
  }

  lemma ReachLiveRow(cfg: Config, s: State, e: Event, dep: Row)
    returns (s': State)
    requires Reachable(cfg, s) && Quiet(s) && Enabled(s, e) && Apply(cfg, s, e) == s.(table := s.table + [dep])
    requires dep.status == Queued && dep.reason == [] && !cfg(dep.app).compose
    requires Settled(cfg, s.table + [dep.(status := Building)], dep, []) == Preparing
    ensures Reachable(cfg, s')
    ensures s' == s.(table := s.table + [Deployed(dep).(status := Running)], slots := s.slots + 1, claims := s.claims + [|s.table|],
                     pipes := s.pipes[|s.table| := Pipe(dep, Retiring)], lives := s.lives + [|s.table|])
  {
    var shipped := ReachShippedRow(cfg, s, e, dep);
    s' := ReachLive(cfg, shipped, s.pipes, |s.table|, dep);
    assert s'.table == s.table + [Deployed(dep).(status := Running)];
  }

  /** The check of the first deployment of an app lets it through. */
  lemma CheckedFirst(cfg: Config, dep: Row)
    requires dep.status == Queued && dep.fromTag && dep.image == [] && dep.tag != [] && Eligible(cfg(dep.app).policy, dep.tag)
    ensures Settled(cfg, [dep.(status := Building)], dep, []) == Preparing
  {
    var t := [dep.(status := Building)];
    LiveUnique(t, dep.app, Live(t, dep.app), None);
    DecidedAlone(cfg(dep.app).policy, dep.tag);
  }

  /** The high tag went live, then a rollback to an image without a tag; neither has retired the others yet. */
  predicate RolledBack(s: State, app: int, hi: Str) {
    && s.up && |s.table| == 2 && RanWith(s.table[0], app, hi) && s.table[0].fromTag && RanWith(s.table[1], app, [])
    && 0 in s.pipes && s.pipes[0] == Pipe(TagRow(app, hi), Retiring)
  }

  predicate RanWith(r: Row, app: int, tag: Str) { r.app == app && r.status == Running && r.tag == tag }

  lemma ReachHigh(cfg: Config, app: int, hi: Str)
    returns (s: State)
    requires hi != [] && Eligible(cfg(app).policy, hi) && !cfg(app).compose
    ensures Reachable(cfg, s) && Quiet(s) && s.slots == 1 && |s.table| == 1 && s.table[0] == Deployed(TagRow(app, hi)).(status := Running)
    ensures s.pipes == map[0 := Pipe(TagRow(app, hi), Retiring)]
  {
    InitReachable(cfg);
    HighPasses(cfg, app, hi);
    s := ReachLiveRow(cfg, INIT, EnqueueTag(app, [hi]), TagRow(app, hi));
  }

  lemma InitReachable(cfg: Config)
    ensures Reachable(cfg, INIT)
  {
    assert IsRun(cfg, [INIT], []);
  }

  lemma HighPasses(cfg: Config, app: int, hi: Str)
    requires hi != [] && Eligible(cfg(app).policy, hi)
    ensures Apply(cfg, INIT, EnqueueTag(app, [hi])) == INIT.(table := INIT.table + [TagRow(app, hi)])
    ensures Settled(cfg, INIT.table + [TagRow(app, hi).(status := Building)], TagRow(app, hi), []) == Preparing
  {
    TagEnqueued(cfg, INIT, app, hi);
    CheckedFirst(cfg, TagRow(app, hi));
    assert INIT.table + [TagRow(app, hi).(status := Building)] == [TagRow(app, hi).(status := Building)];
  }

  lemma ReachRolledBack(cfg: Config, a: State, app: int, hi: Str)
    returns (s: State)
    requires Reachable(cfg, a) && Quiet(a) && a.slots == 1 && |a.table| == 1 && a.table[0] == Deployed(TagRow(app, hi)).(status := Running)
    requires a.pipes == map[0 := Pipe(TagRow(app, hi), Retiring)] && !cfg(app).compose
    ensures Reachable(cfg, s) && RolledBack(s, app, hi) && Quiet(s)
  {
    s := ReachLiveRow(cfg, a, EnqueueRollback(app, [1], 9), RollbackRow(a.table, app, [1], 9));
  }

  /** The check of a tag against a live row without a tag lets it through. */
  lemma CheckedAgainstNone(cfg: Config, t: Table, dep: Row, live: nat)
    requires live < |t| && t[live].app == dep.app && t[live].status == Running && t[live].tag == []
    requires forall i :: live < i < |t| ==> t[i].status != Running
    requires dep.fromTag && dep.image == [] && dep.tag != [] && Eligible(cfg(dep.app).policy, dep.tag)
    ensures Settled(cfg, t, dep, []) == Preparing
  {
    LiveUnique(t, dep.app, Live(t, dep.app), Some(live));
    DecidedAlone(cfg(dep.app).policy, dep.tag);
  }

  lemma LowPasses(cfg: Config, b: State, app: int, hi: Str, lo: Str)
    requires RolledBack(b, app, hi) && lo != [] && Eligible(cfg(app).policy, lo)
    ensures Apply(cfg, b, EnqueueTag(app, [lo])) == b.(table := b.table + [TagRow(app, lo)])
    ensures Settled(cfg, b.table + [TagRow(app, lo).(status := Building)], TagRow(app, lo), []) == Preparing
  {
    LiveUnique(b.table, app, Live(b.table, app), Some(1));
    TagEnqueued(cfg, b, app, lo);
    CheckedAgainstNone(cfg, b.table + [TagRow(app, lo).(status := Building)], TagRow(app, lo), 1);
  }

  /** Then a low tag is enqueued and checked against the rollback. */
  lemma ReachChecked(cfg: Config, b: State, app: int, hi: Str, lo: Str)
    returns (s: State)
    requires Reachable(cfg, b) && RolledBack(b, app, hi) && Quiet(b)
    requires lo != [] && !cfg(app).compose && Eligible(cfg(app).policy, lo)
    ensures Reachable(cfg, s) && s.up && s.table == b.table + [Deployed(TagRow(app, lo))]
    ensures s.pipes == b.pipes[2 := Pipe(TagRow(app, lo), Shipped)]
  {
    LowPasses(cfg, b, app, hi, lo);
    s := ReachShippedRow(cfg, b, EnqueueTag(app, [lo]), TagRow(app, lo));
  }

  lemma FirstIsLeft(t: Table, app: int)
    requires |t| == 3 && t[0].app == t[1].app == t[2].app == app
    requires t[0].status == t[1].status == Running && t[2].status == Deploying
    ensures var u := Retired(t, app, 0);
      |u| == 3 && u[0] == t[0] && u[2] == t[2] && Live(u, app) == Some(0)
  {
    var u := Retired(t, app, 0);
    LiveUnique(u, app, Live(u, app), Some(0));
  }

  lemma ReachRetired(cfg: Config, s: State, id: nat, dep: Row, u: Table)
    returns (s': State)
    requires Reachable(cfg, s) && s.up && id < |s.table| && id in s.pipes && s.pipes[id] == Pipe(dep, Retiring)
    requires u == Retired(s.table, dep.app, id)
    ensures Reachable(cfg, s') && s' == s.(table := u, pipes := s.pipes[id := Pipe(dep, Returned)])
  {
    ReachableStep(cfg, s, Run(id, Retire));
    s' := s.(table := u, pipes := s.pipes[id := Pipe(dep, Returned)]);
  }

  /** The first deployment's late supersede write retires the rollback: the high tag is live when the low
      one goes live, whatever the order of the two. */
  lemma LowerTagGoesLive(cfg: Config, app: int, hi: Str, lo: Str)
    returns (s: State)
    requires hi != [] && lo != [] && !cfg(app).compose
    requires Eligible(cfg(app).policy, hi) && Eligible(cfg(app).policy, lo)
    ensures Reachable(cfg, s) && |s.table| == 3 && s.table[2].app == app && s.table[2].fromTag && s.table[2].tag == lo
    ensures Enabled(s, Run(2, GoLive)) && Live(s.table, app) == Some(0) && s.table[0].tag == hi
  {
    var a := ReachHigh(cfg, app, hi);
    var b := ReachRolledBack(cfg, a, app, hi);
    var c := ReachChecked(cfg, b, app, hi, lo);
    var high := TagRow(app, hi);
    FirstIsLeft(c.table, app);
    s := ReachRetired(cfg, c, 0, high, Retired(c.table, app, 0));
  }
}
