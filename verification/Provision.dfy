/** Database provisioning: replace a container without ever running two engines on one data directory,
    and without losing the old one to a replacement that will not start (internal/dbaas/manager.go).

    One provision of a database runs at a time, and no other database is called "<name>-new": its
    canonical container name would be this one's temporary name. */
module Provision {
  import opened Bytes
  import opened Docker

  datatype DbStatus = DbCreating | DbRunning | DbFailed

  /** The database being provisioned: its two container names and the data directory they mount. */
  datatype Database = Database(name: Str, canonical: Str, temporary: Str, data: Str, image: Str)
  {
    predicate Valid() { canonical != temporary }

    function Container(name: Str): Container {
      Docker.Container(name, this.name, image, Created, false, {data})
    }
  }

  /** ContainerName and the temporary name. */
  function NewDatabase(name: Str, data: Str, image: Str): (d: Database)
    ensures d.Valid()
  {
    var canonical := Ascii("outhaul-db-") + name;
    assert |canonical + Ascii("-new")| == |canonical| + 4;
    Database(name, canonical, canonical + Ascii("-new"), data, image)
  }

  /** A temporary name is the canonical one of exactly the database whose name ends in "-new". */
  lemma NamesExactly(a: Str, b: Str, data: Str, image: Str)
    ensures NewDatabase(a, data, image).canonical == Ascii("outhaul-db-") + a
    ensures NewDatabase(a, data, image).canonical == NewDatabase(b, data, image).canonical <==> a == b
    ensures NewDatabase(a, data, image).temporary == NewDatabase(b, data, image).canonical <==> b == a + Ascii("-new")
  {
    var prefix := Ascii("outhaul-db-");
    assert a == (prefix + a)[|prefix|..] && b == (prefix + b)[|prefix|..];
    assert prefix + a + Ascii("-new") == prefix + (a + Ascii("-new"));
    assert a + Ascii("-new") == (prefix + (a + Ascii("-new")))[|prefix|..];
  }

  /** How each call of one provision ends. */
  datatype Plan = Plan(markCreating: Outcome, pull: Outcome, mkdir: Outcome, findStale: Outcome, removeStale: Outcome,
                       findOld: Outcome, create: Outcome, stop: Outcome, start: Outcome, dropNew: Outcome,
                       restartOld: Outcome, removeOld: Outcome, rename: Outcome, markRunning: Outcome, markFailed: Outcome)

  /** Every call up to and including the creation of the container works. */
  predicate ReachesCreated(p: Plan) {
    p.markCreating == p.pull == p.mkdir == p.findStale == p.removeStale == p.findOld == p.create == Done
  }

  /** Every call of the provision proper works. */
  predicate FailureFree(p: Plan) {
    ReachesCreated(p) && p.stop == p.start == p.removeOld == p.rename == p.markRunning == Done
  }

  /** The stop of the old container or the start of the new one fails, and the process lives on. */
  predicate ReplacementFails(p: Plan) {
    (p.stop != Done && !Kills(p.stop)) || (p.stop == Done && p.start != Done && !Kills(p.start))
  }

  predicate RollbackWorks(p: Plan) { p.dropNew == p.restartOld == Done }

  predicate OnData(cs: Containers, id: nat, d: Database) { id in cs && d.data in cs[id].mounts }

  /** Container `id` does not use the data directory under a foreign name. */
  predicate OwnName(cs: Containers, id: nat, d: Database) {
    OnData(cs, id, d) ==> cs[id].name == d.canonical || cs[id].name == d.temporary
  }

  predicate NotBothUp(cs: Containers, i: nat, j: nat, d: Database) {
    i != j && OnData(cs, i, d) && OnData(cs, j, d) ==> !(cs[i].state == Up && cs[j].state == Up)
  }

  /** Only the database's two names are on its data directory, and at most one of them runs. */
  ghost predicate DataSafe(cs: Containers, d: Database) {
    && (forall id :: OwnName(cs, id, d))
    && (forall i, j :: NotBothUp(cs, i, j, d))
  }

  /** One container, running the image under the canonical name on the data directory, and no other. */
  ghost predicate Settled(cs: Containers, d: Database) {
    && NameFree(cs, d.temporary)
    && exists id :: Named(cs, id, d.canonical) && cs[id].state == Up && cs[id].image == d.image && cs[id].mounts == {d.data} && !cs[id].routed
  }

  /** The old container serves again: it is back as it was, running, and the replacement is gone. */
  ghost predicate OldRuns(cs: Containers, ds: Containers, d: Database) {
    && NameFree(ds, d.temporary)
    && forall id :: Named(cs, id, d.canonical) ==> id in ds && ds[id] == cs[id].(state := Up)
  }

  /** The canonical container is exactly what it was. */
  ghost predicate OldKept(cs: Containers, ds: Containers, d: Database) {
    forall id :: Named(cs, id, d.canonical) ==> id in ds && ds[id] == cs[id]
  }

  // ------------------------------------------------------------- safety, call by call

  lemma RemoveSafe(cs: Containers, d: Database, id: nat)
    requires DataSafe(cs, d)
    ensures DataSafe(cs - {id}, d)
  {
    forall k ensures OwnName(cs - {id}, k, d) { assert OwnName(cs, k, d); }
    forall i, j ensures NotBothUp(cs - {id}, i, j, d) { assert NotBothUp(cs, i, j, d); }
  }

  /** Adding or changing one of the database's own containers is safe if it does not run, or nothing else does. */
  lemma ChangeSafe(cs: Containers, d: Database, id: nat, c: Container)
    requires DataSafe(cs, d) && (c.name == d.canonical || c.name == d.temporary)
    requires c.state == Up ==> forall k :: k != id && OnData(cs, k, d) ==> cs[k].state != Up
    ensures DataSafe(cs[id := c], d)
  {
    var ds := cs[id := c];
    forall k ensures OwnName(ds, k, d) { assert OwnName(cs, k, d); }
    forall i, j ensures NotBothUp(ds, i, j, d) {
      assert NotBothUp(cs, i, j, d);
      assert j != id && OnData(ds, j, d) ==> OnData(cs, j, d);
      assert i != id && OnData(ds, i, d) ==> OnData(cs, i, d);
    }
  }

  lemma OneLeft(cs: Containers, d: Database, oldId: nat, newId: nat)
    requires forall k :: OnData(cs, k, d) ==> k == oldId || k == newId
    ensures forall k :: OnData(cs - {oldId}, k, d) ==> OnData(cs, k, d) && k == newId
  {
    forall k | OnData(cs - {oldId}, k, d) ensures OnData(cs, k, d) && k == newId { assert OnData(cs, k, d); }
  }

  /** Two containers hold the two names, so nothing else is on the data directory. */
  lemma OnlyTheTwo(cs: Containers, d: Database, oldId: nat, newId: nat)
    requires DataSafe(cs, d) && UniqueNames(cs)
    requires Named(cs, oldId, d.canonical) && Named(cs, newId, d.temporary)
    ensures forall k :: OnData(cs, k, d) ==> k == oldId || k == newId
  {
    forall k | OnData(cs, k, d) ensures k == oldId || k == newId { assert OwnName(cs, k, d); }
  }

  lemma AloneOnData(cs: Containers, d: Database, id: nat)
    requires DataSafe(cs, d) && UniqueNames(cs) && NameFree(cs, d.temporary) && Named(cs, id, d.canonical)
    ensures forall k :: OnData(cs, k, d) ==> k == id
  {
    forall k | OnData(cs, k, d) ensures k == id { assert OwnName(cs, k, d); }
  }

  class Manager {
    const host: Host
    var status: DbStatus

    constructor (host: Host)
      ensures this.host == host
    {
      this.host := host;
      status := DbCreating;
    }

    /** SetDatabaseStatus. */
    method Mark(st: DbStatus, o: Outcome) returns (ok: bool)
      modifies this`status, host`dead
      ensures ok == (!old(host.dead) && o == Done)
      ensures status == if !old(host.dead) && Lands(o) then st else old(status)
      ensures host.dead == (old(host.dead) || Kills(o))
    {
      if !host.dead && Lands(o) { status := st; }
      ok := host.Call(o);
    }

    /** Drop what a killed provision left under the temporary name. */
    method ClearStale(d: Database, p: Plan) returns (ok: bool)
      requires host.Valid() && d.Valid() && DataSafe(host.cs, d)
      modifies host
      ensures host.Valid() && DataSafe(host.cs, d)
      ensures Others(host.cs, d.temporary, d.temporary) == Others(old(host.cs), d.temporary, d.temporary)
      ensures ok ==> NameFree(host.cs, d.temporary) && !host.dead
      ensures !old(host.dead) && p.findStale == p.removeStale == Done ==> ok
      ensures old(host.dead) ==> host.dead
    {
      var stale := host.Find(d.temporary, p.findStale);
      if stale.FindError? { return false; }
      if stale.Found? {
        RemoveSafe(host.cs, d, stale.id);
        OthersKept(host.cs, d.temporary, d.temporary, stale.id, d.Container(d.temporary));
        ok := host.Remove(stale.id, p.removeStale);
        return ok;
      }
      return true;
    }

    /** No container under either name: create and start one. */
    method Fresh(d: Database, p: Plan) returns (ok: bool)
      requires host.Valid() && d.Valid() && DataSafe(host.cs, d)
      requires NameFree(host.cs, d.temporary) && NameFree(host.cs, d.canonical)
      modifies host, this
      ensures host.Valid() && DataSafe(host.cs, d)
      ensures Others(host.cs, d.canonical, d.temporary) == Others(old(host.cs), d.canonical, d.temporary)
      ensures ok ==> Settled(host.cs, d) && status == DbRunning && !host.dead
      ensures !old(host.dead) && p.create == p.start == p.markRunning == Done ==> ok
      ensures old(host.dead) ==> host.dead
    {
      var c := d.Container(d.canonical);
      ChangeSafe(host.cs, d, host.next, c);
      OthersKept(host.cs, d.canonical, d.temporary, host.next, c);
      var id := host.Create(c, p.create);
      if id.None? { return false; }
      AloneOnData(host.cs, d, id.value);
      ChangeSafe(host.cs, d, id.value, c.(state := Up));
      OthersKept(host.cs, d.canonical, d.temporary, id.value, c.(state := Up));
      var started := host.Start(id.value, p.start);
      if !started { return false; }
      assert Named(host.cs, id.value, d.canonical) && OnData(host.cs, id.value, d);
      ok := Mark(DbRunning, p.markRunning);
    }

    /** Undo a replacement that did not come up: drop it and bring the old container back. */
    method RollBack(d: Database, oldId: nat, newId: nat, p: Plan)
      requires host.Valid() && d.Valid() && DataSafe(host.cs, d)
      requires Named(host.cs, oldId, d.canonical) && Named(host.cs, newId, d.temporary)
      requires host.dead || host.cs[newId].state != Up
      modifies host
      ensures host.Valid() && DataSafe(host.cs, d)
      ensures Others(host.cs, d.canonical, d.temporary) == Others(old(host.cs), d.canonical, d.temporary)
      ensures !old(host.dead) && RollbackWorks(p) ==>
        host.cs == (old(host.cs) - {newId})[oldId := old(host.cs)[oldId].(state := Up)]
      ensures old(host.dead) ==> host.dead
    {
      OnlyTheTwo(host.cs, d, oldId, newId);
      RemoveSafe(host.cs, d, newId);
      OthersKept(host.cs, d.canonical, d.temporary, newId, d.Container(d.temporary));
      var _ := host.Remove(newId, p.dropNew);
      ghost var c := host.cs[oldId].(state := Up);
      assert forall k :: OnData(host.cs, k, d) ==> OnData(old(host.cs), k, d);
      if !host.dead { ChangeSafe(host.cs, d, oldId, c); }
      OthersKept(host.cs, d.canonical, d.temporary, oldId, c);
      var _ := host.Start(oldId, p.restartOld);
    }

    /** Stop the old container and start the replacement, or roll back. */
    method Swap(d: Database, oldId: nat, newId: nat, p: Plan) returns (ok: bool)
      requires host.Valid() && d.Valid() && DataSafe(host.cs, d)
      requires Named(host.cs, oldId, d.canonical) && Named(host.cs, newId, d.temporary)
      requires host.cs[newId] == d.Container(d.temporary)
      modifies host
      ensures host.Valid() && DataSafe(host.cs, d)
      ensures Others(host.cs, d.canonical, d.temporary) == Others(old(host.cs), d.canonical, d.temporary)
      ensures ok ==> !host.dead && Named(host.cs, oldId, d.canonical) && newId in host.cs
      ensures ok ==> host.cs[newId] == d.Container(d.temporary).(state := Up)
      ensures ok <==> !old(host.dead) && p.stop == p.start == Done
      ensures !old(host.dead) && ReplacementFails(p) && RollbackWorks(p) ==>
        host.cs == (old(host.cs) - {newId})[oldId := old(host.cs)[oldId].(state := Up)]
      ensures old(host.dead) ==> host.dead
    {
      ghost var exited := host.cs[oldId].(state := Exited);
      ChangeSafe(host.cs, d, oldId, exited);
      OthersKept(host.cs, d.canonical, d.temporary, oldId, exited);
      ok := host.Stop(oldId, p.stop);
      if !ok {
        RollBack(d, oldId, newId, p);
        return false;
      }
      OnlyTheTwo(host.cs, d, oldId, newId);
      ghost var up := host.cs[newId].(state := Up);
      ChangeSafe(host.cs, d, newId, up);
      OthersKept(host.cs, d.canonical, d.temporary, newId, up);
      ok := host.Start(newId, p.start);
      if !ok {
        RollBack(d, oldId, newId, p);
      }
    }

    /** The replacement runs: drop the old container and take over its name. */
    method TakeOver(d: Database, oldId: nat, newId: nat, p: Plan) returns (ok: bool)
      requires host.Valid() && d.Valid() && DataSafe(host.cs, d) && !host.dead
      requires Named(host.cs, oldId, d.canonical)
      requires newId in host.cs && host.cs[newId] == d.Container(d.temporary).(state := Up)
      modifies host, this
      ensures host.Valid() && DataSafe(host.cs, d)
      ensures Others(host.cs, d.canonical, d.temporary) == Others(old(host.cs), d.canonical, d.temporary)
      ensures ok ==> Settled(host.cs, d) && status == DbRunning && !host.dead
      ensures ok <==> p.removeOld == p.rename == p.markRunning == Done
    {
      OnlyTheTwo(host.cs, d, oldId, newId);
      RemoveSafe(host.cs, d, oldId);
      OthersKept(host.cs, d.canonical, d.temporary, oldId, d.Container(d.canonical));
      ok := host.Remove(oldId, p.removeOld);
      if !ok { return false; }
      OneLeft(old(host.cs), d, oldId, newId);
      ghost var renamed := host.cs[newId].(name := d.canonical);
      ChangeSafe(host.cs, d, newId, renamed);
      OthersKept(host.cs, d.canonical, d.temporary, newId, renamed);
      ok := host.Rename(newId, d.canonical, p.rename);
      if !ok { return false; }
      assert Named(host.cs, newId, d.canonical) && OnData(host.cs, newId, d);
      ok := Mark(DbRunning, p.markRunning);
    }

    /** A container holds the canonical name: create the replacement under the temporary one, and swap. */
    method Replace(d: Database, oldId: nat, p: Plan) returns (ok: bool)
      requires host.Valid() && d.Valid() && DataSafe(host.cs, d)
      requires NameFree(host.cs, d.temporary) && Named(host.cs, oldId, d.canonical)
      modifies host, this
      ensures host.Valid() && DataSafe(host.cs, d)
      ensures Others(host.cs, d.canonical, d.temporary) == Others(old(host.cs), d.canonical, d.temporary)
      ensures ok ==> Settled(host.cs, d) && status == DbRunning && !host.dead
      ensures ok <==> !old(host.dead) && p.create == p.stop == p.start == p.removeOld == p.rename == p.markRunning == Done
      ensures p.create != Done ==> OldKept(old(host.cs), host.cs, d)
      ensures !old(host.dead) && p.create == Done && ReplacementFails(p) && RollbackWorks(p) ==>
        OldRuns(old(host.cs), host.cs, d)
      ensures old(host.dead) ==> host.dead
    {
      ghost var before := host.cs;
      var c := d.Container(d.temporary);
      ChangeSafe(host.cs, d, host.next, c);
      OthersKept(host.cs, d.canonical, d.temporary, host.next, c);
      var newId := host.Create(c, p.create);
      if newId.None? { return false; }
      ok := Swap(d, oldId, newId.value, p);
      if ok { ok := TakeOver(d, oldId, newId.value, p); }
    }

    /** provision. */
    method Run(d: Database, p: Plan) returns (ok: bool)
      requires host.Valid() && d.Valid() && DataSafe(host.cs, d)
      modifies host, this
      ensures host.Valid() && DataSafe(host.cs, d)
      ensures Others(host.cs, d.canonical, d.temporary) == Others(old(host.cs), d.canonical, d.temporary)
      ensures ok ==> Settled(host.cs, d) && status == DbRunning && !host.dead
      ensures !old(host.dead) && FailureFree(p) ==> ok
      ensures !NameFree(old(host.cs), d.canonical) && p.create != Done ==> OldKept(old(host.cs), host.cs, d)
      ensures !old(host.dead) && !NameFree(old(host.cs), d.canonical) && OldComesBack(p) ==> OldRuns(old(host.cs), host.cs, d)
      ensures old(host.dead) ==> host.dead
    {
      ok := Mark(DbCreating, p.markCreating);
      if !ok { return false; }
      ok := host.Call(p.pull);
      if !ok { return false; }
      ok := host.Call(p.mkdir);
      if !ok { return false; }
      ok := ClearStale(d, p);
      OthersWider(old(host.cs), host.cs, d);
      if !ok { return false; }
      var existing := host.Find(d.canonical, p.findOld);
      match existing
      case FindError => ok := false;
      case Missing => ok := Fresh(d, p);
      case Found(id) => ok := Replace(d, id, p);
    }

    /** Provision: a failure is recorded on the row. */
    method Provision(d: Database, p: Plan)
      requires host.Valid() && d.Valid() && DataSafe(host.cs, d)
      modifies host, this
      ensures host.Valid() && DataSafe(host.cs, d)
      ensures Others(host.cs, d.canonical, d.temporary) == Others(old(host.cs), d.canonical, d.temporary)
      ensures !old(host.dead) && FailureFree(p) ==> Settled(host.cs, d) && status == DbRunning
      ensures !host.dead && p.markFailed == Done ==> status == DbFailed || (status == DbRunning && Settled(host.cs, d))
    {
      var ok := Run(d, p);
      if !ok { var _ := Mark(DbFailed, p.markFailed); }
    }

    /** Any number of provisions of a database, each in a process that may die anywhere. The image may
        differ from one to the next. */
    method Provisions(ds: seq<Database>, ps: seq<Plan>)
      requires |ds| == |ps| > 0 && ds[0].Valid()
      requires forall i :: 0 <= i < |ds| ==> ds[i] == ds[0].(image := ds[i].image)
      requires host.Valid() && DataSafe(host.cs, ds[0])
      modifies host, this
      ensures host.Valid() && DataSafe(host.cs, ds[0])
      ensures FailureFree(ps[|ps| - 1]) ==> Settled(host.cs, ds[|ds| - 1]) && status == DbRunning
      ensures Others(host.cs, ds[0].canonical, ds[0].temporary) == Others(old(host.cs), ds[0].canonical, ds[0].temporary)
    {
      for i := 0 to |ds|
        invariant host.Valid() && DataSafe(host.cs, ds[0])
        invariant i > 0 && FailureFree(ps[i - 1]) ==> Settled(host.cs, ds[i - 1]) && status == DbRunning
        invariant Others(host.cs, ds[0].canonical, ds[0].temporary) == Others(old(host.cs), ds[0].canonical, ds[0].temporary)
      {
        host.dead := false;
        ImageIrrelevant(host.cs, ds[0], ds[i]);
        Provision(ds[i], ps[i]);
        ImageIrrelevant(host.cs, ds[0], ds[i]);
      }
    }
  }

  /** The replacement is created, then fails to take the old container's place, and the rollback works. */
  predicate OldComesBack(p: Plan) { ReachesCreated(p) && ReplacementFails(p) && RollbackWorks(p) }

  lemma OthersWider(cs: Containers, ds: Containers, d: Database)
    requires Others(ds, d.temporary, d.temporary) == Others(cs, d.temporary, d.temporary)
    ensures Others(ds, d.canonical, d.temporary) == Others(cs, d.canonical, d.temporary)
    ensures forall id :: d.canonical != d.temporary && Named(cs, id, d.canonical) ==> id in ds && ds[id] == cs[id]
    ensures forall id :: d.canonical != d.temporary && Named(ds, id, d.canonical) ==> id in cs && ds[id] == cs[id]
  {
    var a, b := Others(cs, d.temporary, d.temporary), Others(ds, d.temporary, d.temporary);
    assert Others(cs, d.canonical, d.temporary) == Others(a, d.canonical, d.temporary);
    assert Others(ds, d.canonical, d.temporary) == Others(b, d.canonical, d.temporary);
    forall id | d.canonical != d.temporary && Named(cs, id, d.canonical) ensures id in ds && ds[id] == cs[id] {
      assert id in a;
    }
    forall id | d.canonical != d.temporary && Named(ds, id, d.canonical) ensures id in cs && ds[id] == cs[id] {
      assert id in b;
    }
  }

  lemma ImageIrrelevant(cs: Containers, d: Database, e: Database)
    requires e == d.(image := e.image)
    ensures DataSafe(cs, d) <==> DataSafe(cs, e)
  {
    assert forall id :: OnData(cs, id, d) <==> OnData(cs, id, e);
    assert forall id :: OwnName(cs, id, d) <==> OwnName(cs, id, e);
    assert forall i, j :: NotBothUp(cs, i, j, d) <==> NotBothUp(cs, i, j, e);
  }
}
