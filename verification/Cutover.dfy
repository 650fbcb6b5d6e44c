/** Putting a new container in an app's place: the zero-downtime cutover of stateless apps and the
    stop-first deploy of apps with a volume (internal/deploy/pipeline.go).

    Every call may fail and the process may die in any of them. A plan that dies leaves the containers
    as they were at that moment, so what holds after every plan holds at every moment of a deploy.
    The app's volume set is fixed during a deploy, and the temporary name, made from the deployment's
    id, is free when the deploy begins. */
module Cutover {
  import opened Bytes
  import opened Docker

  /** One deploy: the app's container name, the temporary name, the image, and the app's volumes. */
  datatype Deploy = Deploy(app: Str, canonical: Str, temporary: Str, image: Str, volumes: set<Str>)
  {
    predicate Valid() { canonical != temporary }

    function Container(name: Str, routed: bool): Container {
      Docker.Container(name, app, image, Created, routed, volumes)
    }
  }

  /** containerName, and the name of the deploy's health-check container. */
  function NewDeploy(app: Str, id: Str, image: Str, volumes: set<Str>): (d: Deploy)
    ensures d.Valid()
  {
    var canonical, temporary := Ascii("outhaul-app-") + app, Ascii("outhaul-deploy-") + id;
    assert canonical[8] == 'a' as byte && temporary[8] == 'd' as byte;
    Deploy(app, canonical, temporary, image, volumes)
  }

  /** The temporary container of a deploy is named after its id, so that it never bears the name of any
      app's container, and that of another deploy only if the ids are the same. */
  lemma TemporaryIsNobodys(app: Str, id: Str, other: Str, otherId: Str, image: Str, volumes: set<Str>)
    ensures NewDeploy(app, id, image, volumes).canonical == Ascii("outhaul-app-") + app
    ensures NewDeploy(app, id, image, volumes).temporary == Ascii("outhaul-deploy-") + id
    ensures NewDeploy(app, id, image, volumes).temporary != NewDeploy(other, otherId, image, volumes).canonical
    ensures NewDeploy(app, id, image, volumes).temporary == NewDeploy(other, otherId, image, volumes).temporary <==> id == otherId
  {
    var deploy := Ascii("outhaul-deploy-");
    assert id == (deploy + id)[|deploy|..] && otherId == (deploy + otherId)[|deploy|..];
    assert (deploy + id)[8] as char == 'd' && (Ascii("outhaul-app-") + other)[8] as char == 'a';
  }

  /** createContainer: load settings and volumes, create, start. */
  datatype CreatePlan = CreatePlan(prepare: Outcome, create: Outcome, start: Outcome)

  /** removeContainerByName: find, stop if running, remove. */
  datatype RemovePlan = RemovePlan(find: Outcome, stop: Outcome, remove: Outcome)

  /** How each call of one blue-green deploy ends. A probe that ends Done found the app healthy. */
  datatype BluePlan = BluePlan(temp: CreatePlan, tempIP: Outcome, tempProbe: Outcome, shutdown: bool, reload: Outcome,
                               previous: RemovePlan, canonical: CreatePlan, dropTemp: Outcome,
                               canonicalIP: Outcome, canonicalProbe: Outcome)

  /** The temporary container was started and passed its probe, and nothing called the deploy off. */
  predicate TempHealthy(p: BluePlan) {
    && p.temp.prepare == p.temp.create == p.temp.start == p.tempIP == p.tempProbe == p.reload == Done
    && !p.shutdown
  }

  predicate CanonicalHealthy(p: BluePlan) {
    p.canonical.prepare == p.canonical.create == p.canonical.start == p.canonicalIP == p.canonicalProbe == Done
  }

  predicate OldRemoved(p: RemovePlan) { p.find == Done && p.remove == Done && !Kills(p.stop) }

  /** Nothing dies, whatever else fails. */
  predicate Survives(p: BluePlan) {
    && !Kills(p.temp.prepare) && !Kills(p.temp.create) && !Kills(p.temp.start) && !Kills(p.tempIP) && !Kills(p.tempProbe)
    && !Kills(p.reload) && !Kills(p.previous.find) && !Kills(p.previous.stop) && !Kills(p.previous.remove)
    && !Kills(p.canonical.prepare) && !Kills(p.canonical.create) && !Kills(p.canonical.start) && !Kills(p.dropTemp)
    && !Kills(p.canonicalIP) && !Kills(p.canonicalProbe)
  }

  // ----------------------------------------------------------------- what is kept

  /** Container `id` takes the app's traffic, or carries one of its volumes. */
  predicate Serves(cs: Containers, id: nat, d: Deploy) {
    id in cs && ((cs[id].routed && cs[id].app == d.app) || cs[id].mounts * d.volumes != {})
  }

  predicate ServesAsCanonical(cs: Containers, id: nat, d: Deploy) {
    Serves(cs, id, d) ==> cs[id].name == d.canonical
  }

  /** Only the canonical name takes the app's traffic or mounts its volumes. As names are unique, that is
      never two containers at once. */
  ghost predicate AppSafe(cs: Containers, d: Deploy) {
    forall id :: ServesAsCanonical(cs, id, d)
  }

  lemma NeverTwo(cs: Containers, d: Deploy, i: nat, j: nat)
    requires AppSafe(cs, d) && UniqueNames(cs) && Serves(cs, i, d) && Serves(cs, j, d)
    ensures i == j
  {
    assert ServesAsCanonical(cs, i, d) && ServesAsCanonical(cs, j, d);
  }

  /** The canonical container, if there is one, is exactly what it was. */
  ghost predicate CanonicalKept(cs: Containers, ds: Containers, d: Deploy) {
    forall id :: Named(cs, id, d.canonical) || Named(ds, id, d.canonical) ==> id in cs && id in ds && ds[id] == cs[id]
  }

  /** The container is up under this name, from the deploy's image and with the app's volumes. */
  predicate Runs(c: Container, d: Deploy, name: Str, routed: bool) {
    c.name == name && c.app == d.app && c.image == d.image && c.mounts == d.volumes && c.state == Up && c.routed == routed
  }

  /** A canonical container runs the new image and takes the traffic. */
  ghost predicate Live(cs: Containers, d: Deploy) {
    exists id :: id in cs && Runs(cs[id], d, d.canonical, true)
  }

  lemma ChangeKeepsSafe(cs: Containers, d: Deploy, id: nat, c: Container)
    requires AppSafe(cs, d)
    requires c.name == d.canonical || (c.name == d.temporary && !c.routed && c.mounts * d.volumes == {})
    ensures AppSafe(cs[id := c], d)
  {
    var ds := cs[id := c];
    forall k ensures ServesAsCanonical(ds, k, d) { assert ServesAsCanonical(cs, k, d); }
  }

  lemma RemoveKeepsSafe(cs: Containers, d: Deploy, id: nat)
    requires AppSafe(cs, d)
    ensures AppSafe(cs - {id}, d)
  {
    var ds := cs - {id};
    forall k ensures ServesAsCanonical(ds, k, d) { assert ServesAsCanonical(cs, k, d); }
  }

  class Worker {
    const host: Host
    /** What w.fail has recorded for the deployment, if anything. */
    var failed: bool

    constructor (host: Host)
      ensures this.host == host && !failed
    {
      this.host := host;
      failed := false;
    }

    /** createContainer: a container whose start fails is left behind. */
    method CreateContainer(d: Deploy, name: Str, routed: bool, p: CreatePlan) returns (id: Option<nat>)
      requires host.Valid() && d.Valid() && AppSafe(host.cs, d)
      requires name == d.canonical || (name == d.temporary && !routed && d.volumes == {})
      modifies host
      ensures host.Valid() && AppSafe(host.cs, d)
      ensures Others(host.cs, name, name) == Others(old(host.cs), name, name)
      ensures !NameFree(old(host.cs), name) ==> id == None && host.cs == old(host.cs)
      ensures id.Some? <==> !old(host.dead) && NameFree(old(host.cs), name) && p.prepare == p.create == p.start == Done
      ensures id.Some? ==> !host.dead && id.value !in old(host.cs)
      ensures id.Some? ==> id.value in host.cs && Runs(host.cs[id.value], d, name, routed) && host.cs == old(host.cs)[id.value := host.cs[id.value]]
      ensures NameFree(host.cs, name) <==> NameFree(old(host.cs), name) && (old(host.dead) || p.prepare != Done || !Lands(p.create))
      ensures old(host.dead) ==> host.dead
      ensures host.dead ==> old(host.dead) || Kills(p.prepare) || Kills(p.create) || Kills(p.start)
    {
      var ok := host.Call(p.prepare);
      if !ok { return None; }
      var c := d.Container(name, routed);
      ChangeKeepsSafe(host.cs, d, host.next, c);
      OthersKept(host.cs, name, name, host.next, c);
      ghost var free := NameFree(host.cs, name);
      id := host.Create(c, p.create);
      if free && Lands(p.create) { assert Named(host.cs, old(host.next), name); }
      if id.None? { return None; }
      ChangeKeepsSafe(host.cs, d, id.value, c.(state := Up));
      OthersKept(host.cs, name, name, id.value, c.(state := Up));
      ok := host.Start(id.value, p.start);
      assert Named(host.cs, id.value, name);
      if !ok { return None; }
    }

    /** removeContainerByName: a failed stop is ignored, for the removal is forced. */
    method RemoveByName(d: Deploy, p: RemovePlan) returns (ok: bool)
      requires host.Valid() && d.Valid() && AppSafe(host.cs, d)
      modifies host
      ensures host.Valid() && AppSafe(host.cs, d)
      ensures Others(host.cs, d.canonical, d.canonical) == Others(old(host.cs), d.canonical, d.canonical)
      ensures ok ==> p.find == Done && !host.dead && NameFree(host.cs, d.canonical)
      ensures !old(host.dead) && OldRemoved(p) ==> ok
      ensures p.find != Done ==> host.cs == old(host.cs)
      ensures forall id :: id in host.cs ==> id in old(host.cs) && host.cs[id].(state := Up) == old(host.cs)[id].(state := Up)
      ensures old(host.dead) ==> host.dead
      ensures host.dead ==> old(host.dead) || Kills(p.find) || Kills(p.stop) || Kills(p.remove)
    {
      var existing := host.Find(d.canonical, p.find);
      if existing.FindError? { return false; }
      if existing.Missing? { return true; }
      var id := existing.id;
      if host.cs[id].state == Up {
        ghost var exited := host.cs[id].(state := Exited);
        ChangeKeepsSafe(host.cs, d, id, exited);
        OthersKept(host.cs, d.canonical, d.canonical, id, exited);
        var _ := host.Stop(id, p.stop);
      }
      RemoveKeepsSafe(host.cs, d, id);
      OthersKept(host.cs, d.canonical, d.canonical, id, d.Container(d.canonical, true));
      ok := host.Remove(id, p.remove);
    }

    /** w.fail: record the failure, if the process is still there to do it. */
    method Fail()
      modifies this
      ensures failed == (old(failed) || !host.dead)
    {
      if !host.dead { failed := true; }
    }

    /** The first half of a blue-green deploy: a temporary container no traffic reaches, probed. */
    method TryTemp(d: Deploy, p: BluePlan) returns (temp: Option<nat>)
      requires host.Valid() && d.Valid() && AppSafe(host.cs, d) && d.volumes == {}
      requires NameFree(host.cs, d.temporary) && !failed
      modifies host, this
      ensures host.Valid() && AppSafe(host.cs, d)
      ensures Others(host.cs, d.temporary, d.temporary) == Others(old(host.cs), d.temporary, d.temporary)
      ensures temp.Some? <==> !old(host.dead) && TempHealthy(p)
      ensures temp.Some? ==> !host.dead && !failed && temp.value in host.cs && Runs(host.cs[temp.value], d, d.temporary, false)
      ensures temp.None? ==> failed || host.dead
      ensures temp.None? && !host.dead && Survives(p) ==> (NameFree(host.cs, d.temporary) <==> !TempRemains(p))
      ensures host.dead ==> old(host.dead) || !Survives(p)
    {
      temp := CreateContainer(d, d.temporary, false, p.temp);
      if temp.None? { Fail(); return None; }
      var id := temp.value;
      var ok := host.Call(p.tempIP);
      if ok { ok := host.Call(p.tempProbe); }
      if ok && p.shutdown { ok := false; }
      if ok { ok := host.Call(p.reload); }
      if !ok {
        DropTemp(d, id, p.dropTemp);
        Fail();
        return None;
      }
    }

    /** cleanupContainer. */
    method DropTemp(d: Deploy, id: nat, o: Outcome)
      requires host.Valid() && d.Valid() && AppSafe(host.cs, d) && Named(host.cs, id, d.temporary)
      modifies host
      ensures host.Valid() && AppSafe(host.cs, d)
      ensures Others(host.cs, d.temporary, d.temporary) == Others(old(host.cs), d.temporary, d.temporary)
      ensures NameFree(host.cs, d.temporary) <==> !old(host.dead) && Lands(o)
      ensures host.dead <==> old(host.dead) || Kills(o)
    {
      RemoveKeepsSafe(host.cs, d, id);
      OthersKept(host.cs, d.temporary, d.temporary, id, d.Container(d.temporary, false));
      var _ := host.Remove(id, o);
      assert old(host.dead) || !Lands(o) ==> Named(host.cs, id, d.temporary);
    }

    /** The second half: remove the old container, create the canonical one, drop the temporary one,
        and probe the canonical one, which is not the container that passed the first probe. */
    method CutOver(d: Deploy, temp: nat, p: BluePlan) returns (live: bool)
      requires host.Valid() && d.Valid() && AppSafe(host.cs, d) && d.volumes == {} && !host.dead && !failed
      requires Named(host.cs, temp, d.temporary)
      modifies host, this
      ensures host.Valid() && AppSafe(host.cs, d)
      ensures Others(host.cs, d.canonical, d.temporary) == Others(old(host.cs), d.canonical, d.temporary)
      ensures live ==> Live(host.cs, d) && CanonicalHealthy(p) && !host.dead && !failed
      ensures OldRemoved(p.previous) && CanonicalHealthy(p) && !Kills(p.dropTemp) ==> live
      ensures !live ==> failed || host.dead
      ensures Survives(p) ==> !host.dead && (NameFree(host.cs, d.temporary) <==> Lands(p.dropTemp))
      ensures Survives(p) && OldRemoved(p.previous) && CanonicalStarted(p) ==> Live(host.cs, d)
    {
      ghost var before := host.cs;
      live := RemoveByName(d, p.previous);
      KeptBeside(before, host.cs, d.canonical, d.temporary);
      assert Named(host.cs, temp, d.temporary);
      if !live {
        ghost var mid := host.cs;
        DropTemp(d, temp, p.dropTemp);
        KeptBeside(mid, host.cs, d.temporary, d.canonical);
        Fail();
        return false;
      }
      ghost var removed := host.cs;
      var id := CreateContainer(d, d.canonical, true, p.canonical);
      KeptBeside(removed, host.cs, d.canonical, d.temporary);
      assert Named(host.cs, temp, d.temporary);
      ghost var created := host.cs;
      DropTemp(d, temp, p.dropTemp);
      KeptBeside(created, host.cs, d.temporary, d.canonical);
      if id.None? {
        Fail();
        return false;
      }
      assert Named(host.cs, id.value, d.canonical);
      live := host.Call(p.canonicalIP);
      if live { live := host.Call(p.canonicalProbe); }
      if !live { Fail(); }
    }

    /** deployBlueGreen. */
    method BlueGreen(d: Deploy, p: BluePlan) returns (live: bool)
      requires host.Valid() && d.Valid() && AppSafe(host.cs, d) && d.volumes == {}
      requires NameFree(host.cs, d.temporary) && !failed
      modifies host, this
      ensures host.Valid() && AppSafe(host.cs, d)
      ensures Others(host.cs, d.canonical, d.temporary) == Others(old(host.cs), d.canonical, d.temporary)
      ensures !TempHealthy(p) ==> CanonicalKept(old(host.cs), host.cs, d)
      ensures live ==> TempHealthy(p) && CanonicalHealthy(p) && Live(host.cs, d) && !host.dead && !failed
      ensures !old(host.dead) && TempHealthy(p) && OldRemoved(p.previous) && CanonicalHealthy(p) && !Kills(p.dropTemp) ==> live
      ensures !live ==> failed || host.dead
      ensures !old(host.dead) && Survives(p) ==> (NameFree(host.cs, d.temporary) <==> !TempRemains(p))
      ensures !old(host.dead) && Survives(p) && TempHealthy(p) && OldRemoved(p.previous) && CanonicalStarted(p) ==> Live(host.cs, d)
    {
      ghost var before := host.cs;
      var temp := TryTemp(d, p);
      KeptBeside(before, host.cs, d.temporary, d.canonical);
      if temp.None? { return false; }
      live := CutOver(d, temp.value, p);
    }

    /** deployStopFirst: one writer holds the volume at any moment, at the cost of a gap. */
    method StopFirst(d: Deploy, p: StopPlan) returns (live: bool)
      requires host.Valid() && d.Valid() && AppSafe(host.cs, d) && !failed
      modifies host, this
      ensures host.Valid() && AppSafe(host.cs, d)
      ensures Others(host.cs, d.canonical, d.canonical) == Others(old(host.cs), d.canonical, d.canonical)
      ensures live ==> Live(host.cs, d) && p.ip == p.probe == Done && !host.dead && !failed
      ensures !old(host.dead) && OldRemoved(p.previous) && StopStarted(p) ==> Live(host.cs, d)
      ensures !old(host.dead) && OldRemoved(p.previous) && StopStarted(p) && p.ip == p.probe == Done ==> live
      ensures !live ==> failed || host.dead
      ensures p.previous.find != Done ==> host.cs == old(host.cs)
    {
      live := RemoveByName(d, p.previous);
      if !live { Fail(); return false; }
      live := host.Call(p.reload);
      if !live { Fail(); return false; }
      var id := CreateContainer(d, d.canonical, true, p.canonical);
      if id.None? { Fail(); return false; }
      assert Named(host.cs, id.value, d.canonical);
      live := host.Call(p.ip);
      if live { live := host.Call(p.probe); }
      if !live { Fail(); }
    }
  }

  /** How each call of one stop-first deploy ends. */
  datatype StopPlan = StopPlan(previous: RemovePlan, reload: Outcome, canonical: CreatePlan, ip: Outcome, probe: Outcome)

  predicate StopStarted(p: StopPlan) {
    p.reload == p.canonical.prepare == p.canonical.create == p.canonical.start == Done
  }

  predicate CanonicalStarted(p: BluePlan) {
    p.canonical.prepare == p.canonical.create == p.canonical.start == Done
  }

  /** A temporary container is left behind exactly when it was created and either the creation or its
      start reported an error, which createContainer does not clean up, or its removal did not happen. */
  predicate TempRemains(p: BluePlan) {
    p.temp.prepare == Done && Lands(p.temp.create) &&
    (p.temp.create != Done || p.temp.start != Done || !Lands(p.dropTemp))
  }

  /** What a step confined to the name `a` leaves alone. */
  lemma KeptBeside(cs: Containers, ds: Containers, a: Str, b: Str)
    requires a != b && Others(ds, a, a) == Others(cs, a, a)
    ensures Others(ds, a, b) == Others(cs, a, b)
    ensures Others(ds, b, a) == Others(cs, b, a)
    ensures forall id :: Named(cs, id, b) || Named(ds, id, b) ==> id in cs && id in ds && ds[id] == cs[id]
  {
    var x, y := Others(cs, a, a), Others(ds, a, a);
    assert Others(cs, a, b) == Others(x, a, b) && Others(ds, a, b) == Others(y, a, b);
    assert Others(cs, b, a) == Others(x, a, b) && Others(ds, b, a) == Others(y, a, b);
    forall id | Named(cs, id, b) || Named(ds, id, b) ensures id in cs && id in ds && ds[id] == cs[id] {
      assert id in x || id in y;
    }
  }
}
