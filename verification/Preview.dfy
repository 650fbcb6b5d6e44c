/** Preview environments of pull requests: spawn with rollback, redeploy, teardown behind a gate, the sweep
    (internal/previewmgr/manager.go and sweeper.go, with preview_adapters.go and Remove of
    internal/dbaas/manager.go).

    A plan passed to each method says which of its calls work. Events and sweeps share one goroutine, so
    no other preview operation comes between. */
module Preview {
  import opened Bytes
  import opened Seqs
  import opened PreviewTables
  import opened PreviewPlans
  import opened PreviewBuild

  /** The calls Handle makes for one app. */
  datatype AppPlan = AppPlan(config: bool, spawn: SpawnPlan, lookup: bool, destroy: DestroyPlan)

  class Manager {
    const store: Store
    const configs: map<int, Config>
    /** core.PreviewHost: from the name of the parent, the pull request and the service alone. */
    const hostOf: (Str, nat, Str) -> Str
    /** The databases that have a container, and those that have a data directory. */
    var containers: set<int>
    var data: set<int>

    constructor (store: Store, configs: map<int, Config>, hostOf: (Str, nat, Str) -> Str, containers: set<int>, data: set<int>)
      ensures this.store == store && this.configs == configs && this.hostOf == hostOf
      ensures this.containers == containers && this.data == data
    {
      this.store, this.configs, this.hostOf, this.containers, this.data := store, configs, hostOf, containers, data;
    }

    function Now(): World
      reads this, store
    {
      World(store.t, store.next, containers, data)
    }

    ghost predicate Sane()
      reads this, store
    {
      WorldOk(Now())
    }

    function Cap(app: int): nat {
      if ConfigOf(configs, app).maxConcurrent > 0 then ConfigOf(configs, app).maxConcurrent else 0
    }

    /** No app has more previews than its configuration allows. */
    ghost predicate WithinCap(apps: map<int, App>) {
      forall p :: p != 0 ==> |Previews(apps, p)| <= Cap(p)
    }

    ghost predicate Valid()
      reads this, store
    {
      Sane() && WithinCap(store.t.apps)
    }

    // ------------------------------------------------------------------ databases

    /** Remove: asks whether the row may go before it touches the container and the data. */
    method Remove(id: int, p: RemovePlan) returns (ok: bool)
      requires Sane()
      modifies this`containers, this`data, store`t
      ensures Sane() && Now() == RemoveEffect(old(Now()), id, p) && ok == RowGoes(old(Now()), id, p)
      ensures !p.check || !Unattached(old(store.t), id) ==> !ok && Now() == old(Now())
      ensures ok ==> id !in store.t.dbs && id !in containers && id !in data
      ensures id in containers ==> data == old(data)
      ensures id in data ==> store.t == old(store.t)
    {
      RemoveKeepsOk(Now(), id, p);
      if !p.check || !Unattached(store.t, id) { return false; }
      if !p.find { return false; }
      if id in containers {
        if !p.container { return false; }
        containers := containers - {id};
      }
      if !p.data { return false; }
      data := data - {id};
      ok := store.DeleteDatabase(id, p.row);
    }

    /** The provisioner of preview_adapters.go: a row whose container does not start is removed again.
        `left` is that row if it stays. */
    method Provision(d: Db, p: ProvisionPlan) returns (id: Option<int>, ghost left: Option<int>)
      requires Sane()
      modifies this`containers, this`data, store
      ensures Sane() && (id.Some? <==> p.create && p.start && FreeDbName(old(store.t).dbs, d.name))
      ensures left.Some? <==> p.create && !p.start && FreeDbName(old(store.t).dbs, d.name) && !UndoWorks(p)
      ensures id.None? && left.None? ==> SameWorld(old(Now()), Now())
      ensures id.Some? ==> Made(old(Now()), Now(), id.value, d) && id.value in containers && id.value in data
      ensures left.Some? ==> Made(old(Now()), Now(), left.value, d)
    {
      left := None;
      id := store.CreateDatabase(d, p.create);
      if id.None? { return; }
      if p.start || p.leftData { data := data + {id.value}; }
      if p.start || p.leftContainer { containers := containers + {id.value}; }
      if !p.start {
        UndoExactly(old(Now()), Now(), id.value, d, p.undo);
        var removed := Remove(id.value, p.undo);
        left := if removed then None else id;
        id := None;
      }
    }

    /** One turn of provisionDatabases: a fresh database, attached under the variable of the parent's attachment. */
    method ProvisionOne(child: int, att: Att, p: AttPlan) returns (ok: bool, ghost id: int, ghost attId: int, ghost left: bool)
      requires Sane() && child in store.t.apps && att.db in store.t.dbs
      requires forall i :: i in store.t.atts && store.t.atts[i].app == child ==> store.t.atts[i].envVar != att.envVar
      modifies this`containers, this`data, store
      ensures Sane() && (ok <==> AttWorks(p) && FreeDbName(old(store.t).dbs, Wanted(old(store.t), child, att).name))
      ensures left <==> Leaks(p) && FreeDbName(old(store.t).dbs, Wanted(old(store.t), child, att).name)
      ensures ok ==> attId !in old(store.t).atts && id in containers && id in data && Made(old(Now()), Now().(t := store.t.(atts := old(store.t).atts)), id, Wanted(old(store.t), child, att))
      ensures ok ==> store.t.atts == old(store.t).atts[attId := Att(child, id, att.envVar)]
      ensures left ==> Made(old(Now()), Now(), id, Wanted(old(store.t), child, att))
      ensures !ok && !left ==> SameWorld(old(Now()), Now())
    {
      ok, id, attId, left := false, 0, 0, false;
      if !p.get { return; }
      var d := Wanted(store.t, child, att);
      var created;
      ghost var stuck;
      created, stuck := Provision(d, p.make);
      if created.None? {
        left := stuck.Some?;
        id := if left then stuck.value else 0;
        return;
      }
      id, attId := created.value, store.next;
      ok := store.AttachDatabase(child, created.value, att.envVar, p.attach);
      if !ok {
        UndoExactly(old(Now()), Now(), id, d, p.undo);
        var removed := Remove(created.value, p.undo);
        left := !removed;
      }
    }

    /** The same, once some attachments have their copies. */
    method ProvisionNext(ghost base: World, child: int, ghost row: App, ghost done: set<int>, i: int, p: int -> AttPlan) returns (ok: bool)
      requires Sane() && WorldOk(base) && Halfway(base, Now(), child, row, done, p)
      requires i in base.t.atts && i !in done && i in store.t.atts && store.t.atts[i] == base.t.atts[i]
      requires forall k :: k in done ==> base.t.atts[k].app == base.t.atts[i].app
      modifies this`containers, this`data, store
      ensures Sane() && store.t == old(store.t).(dbs := store.t.dbs, atts := store.t.atts)
      ensures ok <==> CopyCame(base.t, row, i, p(i)) && forall k :: k in done ==> base.t.atts[k].db != base.t.atts[i].db
      ensures ok ==> Halfway(base, Now(), child, row, done + {i}, p)
      ensures Growing(base.t, store.t, child, row) && SameHost(base, Now()) && (ok || !Leaks(p(i)) ==> Exact(base.t, store.t, child))
      ensures ok ==> forall k :: k in old(store.t).atts ==> k in store.t.atts && store.t.atts[k] == old(store.t).atts[k]
    {
      ghost var w := Now();
      ReadyForNext(base, w, child, row, done, i, p);
      ghost var id, attId, left;
      ok, id, attId, left := ProvisionOne(child, store.t.atts[i], p(i));
      if ok {
        OneMoreCame(base.t, row, done, i, p);
        HalfwayNext(base, w, Now(), child, row, done, i, p, id, attId);
      } else if left {
        GrowDatabase(base.t, w.t, child, row, id, NewDb(base.t, row, i));
      }
    }

    /** provisionDatabases: one fresh database for every attachment of the parent. */
    method ProvisionDatabases(ghost base: World, parent: int, child: int, ghost row: App, listed: bool, p: int -> AttPlan) returns (ok: bool)
      requires Sane() && WorldOk(base) && child != parent && AttsOf(store.t.atts, child) == {}
      requires Growing(base.t, store.t, child, row) && Exact(base.t, store.t, child) && SameHost(base, Now())
      modifies this`containers, this`data, store
      ensures Sane() && store.t == old(store.t).(dbs := store.t.dbs, atts := store.t.atts)
      ensures ok <==> DbsWork(base.t, parent, row, listed, p)
      ensures Growing(base.t, store.t, child, row) && SameHost(base, Now())
      ensures ok || (forall i :: i in AttsOf(base.t.atts, parent) ==> !Leaks(p(i))) ==> Exact(base.t, store.t, child)
      ensures ok ==> Mirrored(base.t, store.t, child, row, AttsOf(base.t.atts, parent)) && Attached(store.t, child) <= containers * data
    {
      if !listed { return false; }
      ghost var start, all := store.t, AttsOf(base.t.atts, parent);
      var rest := AttsOf(store.t.atts, parent);
      ParentsAttachments(base.t, start, parent, child);
      HalfwayStarts(base, Now(), child, row, p);
      assert all - rest == {};
      while rest != {}
        invariant rest <= all && Sane() && store.t == start.(dbs := store.t.dbs, atts := store.t.atts)
        invariant Halfway(base, Now(), child, row, all - rest, p)
        invariant forall i :: i in all ==> i in store.t.atts && store.t.atts[i] == base.t.atts[i]
      {
        var i := Pick(rest);
        ok := ProvisionNext(base, child, row, all - rest, i, p);
        if !ok {
          OneFailed(base.t, parent, row, all - rest, i, p);
          return;
        }
        TakeOne(all, rest, i);
        rest := rest - {i};
      }
      assert all - {} == all;
      AllCame(base, Now(), parent, child, row, p);
      ok := true;
    }

    // --------------------------------------------------------------- environment

    /** copyEnv: the copies may fail, the two marker variables are best effort. */
    method CopyEnv(parent: int, child: int, fork: bool, p: EnvPlan) returns (ok: bool)
      requires store.Valid() && child in store.t.apps && parent != child
      requires OtherEnv(store.t.env, child) == store.t.env
      modifies store`t
      ensures store.Valid() && store.t == old(store.t).(env := store.t.env)
      ensures EnvBuilt(old(store.t).env, store.t.env, parent, child, fork)
      ensures ok <==> CopyWorks(old(store.t).env, parent, fork, p)
      ensures SeesAtMost(old(store.t).env, store.t.env, parent, child, fork)
      ensures ok ==> store.t.env == CopiedEnv(old(store.t).env, parent, child, fork, old(store.t).apps[child].pr, p)
      ensures ok ==> Sees(old(store.t).env, store.t.env, parent, child, fork) && Marked(store.t.env, child, old(store.t).apps[child].pr, p)
    {
      ghost var before := store.t.env;
      ok := p.list;
      if ok { ok := CopyVars(parent, child, fork, p); }
      if ok {
        SetChildEnv(before, parent, EnvKey(child, PREVIEW_VAR, Shared), fork, Ascii("true"), p.markPreview);
        SetChildEnv(before, parent, EnvKey(child, NUMBER_VAR, Shared), fork, Decimal(store.t.apps[child].pr), p.markNumber);
        CopiedEnvSees(before, parent, child, fork, store.t.apps[child].pr, p);
      }
      BuiltSeesAtMost(before, store.t.env, parent, child, fork);
    }

    method CopyVars(parent: int, child: int, fork: bool, p: EnvPlan) returns (ok: bool)
      requires store.Valid() && child in store.t.apps && EnvBuilt(store.t.env, store.t.env, parent, child, fork)
      modifies store`t
      ensures store.Valid() && store.t == old(store.t).(env := store.t.env)
      ensures EnvBuilt(old(store.t).env, store.t.env, parent, child, fork)
      ensures ok <==> forall k :: k in ToCopy(old(store.t).env, parent, fork) ==> p.copy(k)
      ensures ok ==> store.t.env == old(store.t).env + CopiesOf(old(store.t).env, parent, child, ToCopy(old(store.t).env, parent, fork))
    {
      var env := store.t.env;
      var all := ToCopy(env, parent, fork);
      var rest := all;
      assert all - rest == {} && env + CopiesOf(env, parent, child, {}) == env;
      while rest != {}
        invariant rest <= all && forall k :: k in all - rest ==> p.copy(k)
        invariant store.Valid() && store.t == old(store.t).(env := store.t.env)
        invariant EnvBuilt(env, store.t.env, parent, child, fork)
        invariant store.t.env == env + CopiesOf(env, parent, child, all - rest)
      {
        var k := Pick(rest);
        assert Copied(env, k, parent, fork) && k == EnvKey(parent, k.key, k.scope);
        SetChildEnv(env, parent, EnvKey(child, k.key, k.scope), fork, env[k], p.copy(k));
        if !p.copy(k) { return false; }
        CopiesNext(env, parent, child, all - rest, k);
        TakeOne(all, rest, k);
        rest := rest - {k};
      }
      assert all - {} == all;
      ok := true;
    }

    method SetChildEnv(ghost before: map<EnvKey, Str>, ghost parent: int, k: EnvKey, ghost fork: bool, value: Str, io: bool)
      requires store.Valid() && k.app in store.t.apps && Allowed(before, k, value, parent, fork)
      requires EnvBuilt(before, store.t.env, parent, k.app, fork)
      modifies store`t
      ensures store.Valid() && EnvBuilt(before, store.t.env, parent, k.app, fork)
      ensures store.t == old(store.t).(env := WithVar(old(store.t).env, k, value, io))
    {
      EnvSet(before, store.t.env, parent, k.app, fork, k, value);
      var ok := store.SetEnvScoped(k, value, io);
    }

    /** injectPreviewURL. */
    method InjectPreviewURL(ghost before: map<EnvKey, Str>, ghost parent: int, child: int, ghost fork: bool, listed: bool, io: bool) returns (ok: bool)
      requires store.Valid() && child in store.t.apps && EnvBuilt(before, store.t.env, parent, child, fork)
      modifies store`t
      ensures store.Valid() && store.t == old(store.t).(env := store.t.env)
      ensures EnvBuilt(before, store.t.env, parent, child, fork)
      ensures ok <==> listed && (RowsOf(store.t.doms, child) != {} ==> io)
      ensures if ok then UrlInjected(old(store.t).env, store.t.env, store.t.doms, child) else store.t == old(store.t)
    {
      if !listed { return false; }
      var first := store.FirstDomain(child);
      if first.None? { return true; }
      ok := io;
      SetChildEnv(before, parent, EnvKey(child, URL_VAR, Shared), fork, UrlOf(store.t.doms[first.value]), io);
    }

    // -------------------------------------------------------------------- routes

    /** One route of the child, which does not have it yet. */
    method MintOne(ghost base: Tables, child: int, ghost row: App, d: Dom, io: bool) returns (ok: bool)
      requires store.Valid() && Linked(base) && Growing(base, store.t, child, row)
      requires d.app == child && (d.host, d.path) !in Routes(store.t, child)
      modifies store
      ensures store.Valid() && (ok <==> io && RouteFree(base.doms, d.host, d.path))
      ensures store.t == old(store.t).(doms := store.t.doms) && Growing(base, store.t, child, row)
      ensures !ok ==> store.t == old(store.t)
      ensures ok ==> exists id :: id !in old(store.t).doms && store.t.doms == old(store.t).doms[id := d]
      ensures ok ==> Routes(store.t, child) == old(Routes(store.t, child)) + {(d.host, d.path)}
    {
      ghost var before, id := store.t, store.next;
      TakenByOthers(base, before, child, row, d);
      var outcome := store.AddDomain(d, io);
      ok := outcome.Added?;
      if ok { GrowDomain(base, before, child, row, id, d); }
    }

    /** The route made from one of the parent's, unless an earlier one gave the same. */
    method MintNext(ghost base: Tables, child: int, ghost row: App, name: Str, pr: nat, ghost done: set<int>, i: int, add: (Str, Str) -> bool) returns (ok: bool)
      requires store.Valid() && Linked(base) && Growing(base, store.t, child, row) && i in base.doms
      requires HalfMinted(base.doms, store.t, child, hostOf, name, pr, done)
      modifies store
      ensures store.Valid() && store.t == old(store.t).(doms := store.t.doms) && Growing(base, store.t, child, row)
      ensures var d := MintedRow(base.doms[i], child, hostOf, name, pr);
        ok <==> (d.host, d.path) in old(Routes(store.t, child)) || (add(d.host, d.path) && RouteFree(base.doms, d.host, d.path))
      ensures ok ==> HalfMinted(base.doms, store.t, child, hostOf, name, pr, done + {i})
    {
      assert OtherDoms(store.t.doms, child) == base.doms;
      var d := MintedRow(store.t.doms[i], child, hostOf, name, pr);
      ghost var before := store.t;
      RoutesOfNext(base.doms, done, hostOf, name, pr, i);
      if (d.host, d.path) in Routes(store.t, child) { return true; }
      ok := MintOne(base, child, row, d, add(d.host, d.path));
      if ok { RouteMade(base.doms, before.doms, store.t.doms, child, hostOf, name, pr, done, i); }
    }

    /** mintDomains: parent routes that collapse to one preview route are minted once, so none is a duplicate. */
    method MintDomains(ghost base: Tables, parent: int, child: int, ghost row: App, listed: bool, add: (Str, Str) -> bool) returns (ok: bool)
      requires store.Valid() && Linked(base) && child != parent && parent in base.apps && RowsOf(store.t.doms, child) == {}
      requires Growing(base, store.t, child, row) && store.t.doms == base.doms
      modifies store
      ensures store.Valid() && store.t == old(store.t).(doms := store.t.doms)
      ensures Growing(base, store.t, child, row)
      ensures ok <==> RoutesWork(base, parent, hostOf, row.pr, listed, add)
      ensures ok ==> Routes(store.t, child) == Minted(base, parent, hostOf, row.pr)
      ensures ok ==> RoutesMade(base.doms, store.t.doms, child, hostOf, base.apps[parent].name, row.pr, RowsOf(base.doms, parent))
    {
      if !listed { return false; }
      var name, pr := store.t.apps[parent].name, store.t.apps[child].pr;
      var rest := RowsOf(store.t.doms, parent);
      ghost var start, all := store.t, rest;
      assert all - rest == {};
      while rest != {}
        invariant rest <= all && store.Valid() && store.t == start.(doms := store.t.doms) && Growing(base, store.t, child, row)
        invariant HalfMinted(base.doms, store.t, child, hostOf, name, pr, all - rest)
        invariant AllCouldBe(Routes(store.t, child), base.doms, add)
      {
        var i := Pick(rest);
        ghost var d := MintedRow(base.doms[i], child, hostOf, name, pr);
        RoutesOfNext(base.doms, all - rest, hostOf, name, pr, i);
        ok := MintNext(base, child, row, name, pr, all - rest, i, add);
        if !ok {
          assert (d.host, d.path) in Minted(base, parent, hostOf, row.pr);
          return;
        }
        TakeOne(all, rest, i);
        rest := rest - {i};
      }
      assert all - {} == all;
      ok := true;
    }

    // --------------------------------------------------------------------- the build

    /** buildPreview: everything a new child gets. */
    method BuildPreview(ghost base: World, parent: int, child: int, ghost row: App, fork: bool, p: BuildPlan) returns (ok: bool)
      requires Sane() && WorldOk(base) && parent in base.t.apps && child !in base.t.apps && 0 < child
      requires store.t == base.t.(apps := base.t.apps[child := row]) && SameHost(base, Now())
      modifies this`containers, this`data, store
      ensures Sane() && (ok <==> BuildWorks(base.t, parent, row, hostOf, fork, p))
      ensures Growing(base.t, store.t, child, row) && SameHost(base, Now())
      ensures ok || (forall i :: i in AttsOf(base.t.atts, parent) ==> !Leaks(p.att(i))) ==> Exact(base.t, store.t, child)
      ensures ok ==> SpawnedFor(base, Now(), parent, child, row, hostOf, fork, p)
    {
      GrowApp(base.t, child, row);
      NothingToDelete(base.t, child);
      ghost var at := Now();
      ok := CopyEnv(parent, child, fork, p.env);
      GrowEnv(base.t, at.t, child, row, store.t.env);
      if !ok { return; }
      ok := ProvisionDatabases(base, parent, child, row, p.listAtts, p.att);
      if !ok { return; }
      at := Now();
      ok := Publish(base.t, parent, child, row, fork, p);
      SameDatabases(base.t, at.t, store.t, child, row, AttsOf(base.t.atts, parent));
      if ok { AllBuilt(base, at, Now(), parent, child, row, hostOf, fork, p); }
    }

    /** The second half of buildPreview: the routes, the address, and the first deployment last. */
    method Publish(ghost base: Tables, parent: int, child: int, ghost row: App, fork: bool, p: BuildPlan) returns (ok: bool)
      requires store.Valid() && Linked(base) && child != parent && parent in base.apps && RowsOf(store.t.doms, child) == {}
      requires Growing(base, store.t, child, row) && store.t.doms == base.doms && EnvBuilt(base.env, store.t.env, parent, child, fork)
      modifies store
      ensures store.Valid() && Growing(base, store.t, child, row)
      ensures store.t == old(store.t).(doms := store.t.doms, env := store.t.env, deps := store.t.deps)
      ensures ok <==> RoutesWork(base, parent, hostOf, row.pr, p.listDoms, p.addDom) && p.listForURL && (RowsOf(base.doms, parent) != {} ==> p.setURL) && p.deploy
      ensures ok ==> Published(base, old(store.t), store.t, parent, child, row, hostOf)
    {
      ok := MintDomains(base, parent, child, row, p.listDoms, p.addDom);
      if !ok { return; }
      SameRoutes(base, store.t, parent, child, hostOf, row.pr);
      ghost var at := store.t;
      ok := InjectPreviewURL(base.env, parent, child, fork, p.listForURL, p.setURL);
      GrowEnv(base, at, child, row, store.t.env);
      if !ok { return; }
      at := store.t;
      ghost var id := store.next;
      ok := store.CreateDeployment(child, p.deploy);
      if ok { GrowDeployment(base, at, child, row, id); }
    }

    // ---------------------------------------------------------------------- removal

    /** The databases of a preview, while its attachments still exist. */
    method Capture(child: int, listed: bool, get: int -> bool) returns (dbs: set<int>, found: bool)
      ensures dbs == Captured(store.t, child, listed, get)
      ensures found <==> (listed ==> forall i :: i in AttsOf(store.t.atts, child) ==> get(i))
    {
      dbs, found := {}, true;
      if !listed { return; }
      var rest := AttsOf(store.t.atts, child);
      ghost var done: set<int> := {};
      while rest != {}
        invariant AttsOf(store.t.atts, child) == done + rest
        invariant dbs == set i | i in done && i in store.t.atts && get(i) :: store.t.atts[i].db
        invariant found <==> forall i :: i in done ==> get(i)
      {
        var i := Pick(rest);
        rest, done := rest - {i}, done + {i};
        if get(i) { dbs := dbs + {store.t.atts[i].db}; } else { found := false; }
      }
    }

    /** Remove each; one that is refused stays, and the others still go. */
    method DestroyDatabases(dbs: set<int>, p: int -> RemovePlan)
      requires Sane()
      modifies this`containers, this`data, store`t
      ensures Sane() && Now() == DestroyAll(old(Now()), dbs, p)
    {
      var rest := dbs;
      ghost var done: set<int> := {};
      NoneDestroyed(Now(), p);
      while rest != {}
        invariant dbs == done + rest && done !! rest
        invariant Sane() && Now() == DestroyAll(old(Now()), done, p)
      {
        var d := Pick(rest);
        DestroyedNext(old(Now()), done, d, p);
        var ok := Remove(d, p(d));
        rest, done := rest - {d}, done + {d};
      }
      assert done == dbs;
    }

    /** cleanupChild: the rollback of a spawn. */
    method CleanupChild(child: int, p: CleanPlan)
      requires Sane()
      modifies this`containers, this`data, store`t
      ensures Sane() && Now() == CleanupEffect(old(Now()), child, p)
    {
      var dbs, found := Capture(child, p.list, p.get);
      var deleted := store.DeleteApp(child, p.deleteApp);
      DestroyDatabases(dbs, p.destroy);
    }

    /** destroyChild: the containers go first, behind a gate; only then the rows. */
    method DestroyChild(child: int, p: DestroyPlan) returns (ok: bool)
      requires Sane()
      modifies this`containers, this`data, store`t
      ensures Sane() && ok == Completes(old(Now()), child, p) && Now() == DestroyEffect(old(Now()), child, p)
      ensures !ok ==> Now() == old(Now()) || Now() == old(Now()).(t := WithStatus(old(store.t), child, TeardownFailed))
      ensures !p.removeApp ==> !ok
      ensures p.mark && !GateOpen(old(Now()), child, p) && child in old(store.t).apps ==>
        child in store.t.apps && store.t.apps[child] == old(store.t).apps[child].(status := TeardownFailed)
      ensures ok ==> child !in store.t.apps && AttsOf(store.t.atts, child) == {}
    {
      var dbs, found := Capture(child, p.list, p.get);
      if !found || !p.removeApp {
        var marked := store.SetPreviewStatus(child, TeardownFailed, p.mark);
        return false;
      }
      ok := store.DeleteApp(child, p.deleteApp);
      if !ok { return; }
      // A failed listing is not noticed: the databases then stay behind, attached to nothing.
      DestroyDatabases(dbs, p.destroy);
    }

    lemma CapAfterDeletion(apps: map<int, App>, fewer: map<int, App>)
      requires WithinCap(apps)
      requires forall a :: a in fewer ==> a in apps && fewer[a].parent == apps[a].parent
      ensures WithinCap(fewer)
    {
      forall p | p != 0 ensures |Previews(fewer, p)| <= Cap(p) {
        forall a | a in Previews(fewer, p) ensures a in Previews(apps, p) {}
        Smaller(Previews(fewer, p), Previews(apps, p));
      }
    }

    lemma CapAfterCreation(apps: map<int, App>, child: int, row: App)
      requires WithinCap(apps) && child !in apps && |Previews(apps, row.parent)| < Cap(row.parent)
      ensures WithinCap(apps[child := row])
    {
      var more := apps[child := row];
      forall p | p != 0 ensures |Previews(more, p)| <= Cap(p) {
        if p == row.parent {
          assert Previews(more, p) == Previews(apps, p) + {child};
        } else {
          assert Previews(more, p) == Previews(apps, p);
        }
      }
    }

    // ------------------------------------------------------------------------ events

    /** redeploy: the preview is looked up again, and a failed lookup is taken for a missing preview. */
    method Redeploy(parent: int, ev: Event, p: SpawnPlan) returns (outcome: Outcome)
      requires Valid()
      modifies store
      ensures Valid() && outcome == if !p.again || NoPreview(old(store.t).apps, parent, ev.pr) then Ignored else if p.redeploy then Redeployed else Failed
      ensures if outcome == Redeployed then Deployed(old(Now()), Now(), parent, ev.pr) else Now() == old(Now())
    {
      var child := store.GetPreviewByPR(parent, ev.pr, p.again);
      if child.None? { return Ignored; }
      ghost var id := store.next;
      var ok := store.CreateDeployment(child.value, p.redeploy);
      if ok { assert SameWorld(old(Now()).(t := old(store.t).(deps := old(store.t).deps[id := child.value])), Now()); }
      outcome := if ok then Redeployed else Failed;
    }

    /** spawn: a preview for a pull request that has none, or a deployment of the one it has. */
    method Spawn(parent: int, ev: Event, p: SpawnPlan) returns (outcome: Outcome)
      requires Valid() && IsReal(store.t.apps, parent)
      modifies this`containers, this`data, store
      ensures Valid() && RealAppsKept(old(store.t).apps, store.t.apps)
      ensures outcome == SpawnEnd(old(Now()), parent, ConfigOf(configs, parent), hostOf, ev, p)
      ensures SpawnEffect(old(Now()), Now(), parent, ConfigOf(configs, parent), hostOf, ev, p)
      ensures outcome.Spawned? ==> outcome.child in store.t.apps && IsChildOf(store.t.apps[outcome.child], old(store.t).apps[parent], parent, ev)
    {
      ForkIsKnown(store.t.apps[parent], parent, ev);
      var cfg, row := ConfigOf(configs, parent), store.t.apps[parent];
      if ev.fork {
        if !cfg.allowForkPRs { return Ignored; }
        if row.kind == Compose || row.kind == Dockerfile { return Ignored; }
      }
      UnchangedIsUndone(Now(), ChildOf(row, parent, ev));
      var existing := store.GetPreviewByPR(parent, ev.pr, p.lookup);
      if existing.Some? {
        outcome := Redeploy(parent, ev, p);
      } else {
        outcome := SpawnFirst(parent, ev, p);
      }
    }

    /** The rest of spawn, when no preview is found. */
    method SpawnFirst(parent: int, ev: Event, p: SpawnPlan) returns (outcome: Outcome)
      requires Valid() && IsReal(store.t.apps, parent) && !Redeploys(store.t, parent, ev, p)
      requires !ForkRefused(store.t.apps[parent], ConfigOf(configs, parent), ev)
      modifies this`containers, this`data, store
      ensures Valid() && RealAppsKept(old(store.t).apps, store.t.apps)
      ensures outcome == SpawnEnd(old(Now()), parent, ConfigOf(configs, parent), hostOf, ev, p)
      ensures SpawnEffect(old(Now()), Now(), parent, ConfigOf(configs, parent), hostOf, ev, p)
    {
      UnchangedIsUndone(Now(), ChildOf(store.t.apps[parent], parent, ev));
      if !p.count { return Failed; }
      if |Previews(store.t.apps, parent)| >= ConfigOf(configs, parent).maxConcurrent { return Ignored; }
      outcome := SpawnNew(parent, ev, p);
    }

    /** The rest of spawn, once there is room for a new preview. */
    method SpawnNew(parent: int, ev: Event, p: SpawnPlan) returns (outcome: Outcome)
      requires Valid() && IsReal(store.t.apps, parent) && |Previews(store.t.apps, parent)| < Cap(parent)
      modifies this`containers, this`data, store
      ensures Valid() && RealAppsKept(old(store.t).apps, store.t.apps)
      ensures var row, free := ChildOf(old(store.t).apps[parent], parent, ev), p.create && FreeName(old(store.t).apps, PreviewName(old(store.t).apps[parent].name, ev.pr));
        && outcome == (if free && BuildWorks(old(store.t), parent, row, hostOf, ev.fork, p.build) then Spawned(old(store.next)) else Failed)
        && (outcome.Spawned? ==> SpawnedFor(old(Now()), Now(), parent, outcome.child, row, hostOf, ev.fork, p.build))
        && (outcome.Failed? ==> Undone(old(Now()), Now(), row, free, RollsBack(old(store.t), parent, p)))
    {
      ghost var base := Now();
      var row := ChildOf(store.t.apps[parent], parent, ev);
      UnchangedIsUndone(base, row);
      var id := store.CreateApp(row, p.create);
      if id.None? { return Failed; }
      CapAfterCreation(base.t.apps, id.value, row);
      var ok := BuildPreview(base, parent, id.value, row, ev.fork, p.build);
      if ok { return Spawned(id.value); }
      ghost var full := Now();
      CleanupChild(id.value, p.cleanup);
      RollbackRestores(base, full, id.value, row, p.cleanup);
      if RollsBack(base.t, parent, p) { RolledBack(base, full, parent, id.value, row, p); }
      outcome := Failed;
    }

    /** teardown: a pull request without a preview has nothing to destroy, and neither has a failed lookup. */
    method Teardown(parent: int, pr: nat, lookup: bool, p: DestroyPlan) returns (outcome: Outcome)
      requires Valid() && parent != 0
      modifies this`containers, this`data, store`t
      ensures Valid() && RealAppsKept(old(store.t).apps, store.t.apps)
      ensures !lookup || NoPreview(old(store.t).apps, parent, pr) ==> outcome == Ignored && Now() == old(Now())
      ensures lookup && !NoPreview(old(store.t).apps, parent, pr) ==> exists child :: TornDown(old(Now()), Now(), parent, pr, child, p, outcome)
    {
      var found := store.GetPreviewByPR(parent, pr, lookup);
      if found.None? { return Ignored; }
      assert NamedAfterParent(store.t.apps, found.value);
      var ok := DestroyChild(found.value, p);
      CapAfterDeletion(old(store.t).apps, store.t.apps);
      outcome := if ok then Destroyed else Failed;
      assert TornDown(old(Now()), Now(), parent, pr, found.value, p, outcome);
    }

    /** handleApp, for one enabled app that is no preview itself. */
    method HandleApp(parent: int, ev: Event, p: AppPlan) returns (outcome: Outcome)
      requires Valid() && IsReal(store.t.apps, parent)
      modifies this`containers, this`data, store
      ensures Valid() && RealAppsKept(old(store.t).apps, store.t.apps)
      ensures Handled(old(Now()), Now(), parent, ConfigOf(configs, parent), hostOf, ev, p, outcome)
    {
      match ev.action
      case Opened | Reopened | Synchronize =>
        outcome := Spawn(parent, ev, p.spawn);
      case Closed =>
        outcome := Teardown(parent, ev.pr, p.lookup, p.destroy);
      case OtherAction =>
        outcome := Ignored;
    }

    /** Handle: the event goes to every enabled app that builds from the repository, one after the other, until
        a configuration cannot be read. An app whose handling fails does not stop the others. `worlds` are the
        worlds before each app and at the end. */
    method Handle(apps: seq<int>, ev: Event, listed: bool, p: nat -> AppPlan) returns (ok: bool, outcomes: seq<Outcome>, ghost worlds: seq<World>)
      requires Valid() && forall i :: 0 <= i < |apps| ==> apps[i] in store.t.apps
      modifies this`containers, this`data, store
      ensures Valid() && RealAppsKept(old(store.t).apps, store.t.apps)
      ensures HandledAll(old(store.t).apps, worlds, apps, ev, p, outcomes) && worlds[0] == old(Now()) && worlds[|outcomes|] == Now()
      ensures (ok ==> |outcomes| == |apps|) && (!listed ==> !ok && outcomes == [])
      ensures listed && !ok ==> |outcomes| < |apps| && !old(store.t).apps[apps[|outcomes|]].ephemeral && !p(|outcomes|).config
    {
      ok, outcomes, worlds := false, [], [Now()];
      if !listed { return; }
      var start := store.t.apps;
      for i := 0 to |apps|
        invariant Valid() && RealAppsKept(start, store.t.apps)
        invariant |outcomes| == i && HandledAll(start, worlds, apps, ev, p, outcomes)
        invariant worlds[0] == old(Now()) && worlds[i] == Now()
      {
        var outcome := Ignored;
        if !start[apps[i]].ephemeral {
          assert IsReal(start, apps[i]);
          if !p(i).config { return; }
          if ConfigOf(configs, apps[i]).enabled { outcome := HandleApp(apps[i], ev, p(i)); }
        }
        HandledMore(start, worlds, apps, ev, p, outcomes, Now(), outcome);
        outcomes, worlds := outcomes + [outcome], worlds + [Now()];
      }
      ok := true;
    }

    /** What one turn of Handle does: `apps` are those of the listing. */
    ghost predicate HandledNext(apps: map<int, App>, w: World, v: World, app: int, ev: Event, p: AppPlan, outcome: Outcome)
    {
      && app in apps && (apps[app].ephemeral || p.config)
      && if apps[app].ephemeral || !ConfigOf(configs, app).enabled then outcome == Ignored && v == w
         else app in w.t.apps && Handled(w, v, app, ConfigOf(configs, app), hostOf, ev, p, outcome)
    }

    ghost predicate HandledAll(start: map<int, App>, worlds: seq<World>, apps: seq<int>, ev: Event, p: nat -> AppPlan, outcomes: seq<Outcome>) {
      && |worlds| == |outcomes| + 1 && |outcomes| <= |apps|
      && forall i :: 0 <= i < |outcomes| ==> HandledNext(start, worlds[i], worlds[i + 1], apps[i], ev, p(i), outcomes[i])
    }

    lemma HandledMore(start: map<int, App>, worlds: seq<World>, apps: seq<int>, ev: Event, p: nat -> AppPlan, outcomes: seq<Outcome>, v: World, outcome: Outcome)
      requires HandledAll(start, worlds, apps, ev, p, outcomes) && |outcomes| < |apps|
      requires HandledNext(start, worlds[|outcomes|], v, apps[|outcomes|], ev, p(|outcomes|), outcome)
      ensures HandledAll(start, worlds + [v], apps, ev, p, outcomes + [outcome])
    {
    }

    // ------------------------------------------------------------------------- sweep

    /** SweepTick, over the previews in the order of ListPreviews. */
    method SweepTick(previews: seq<int>, listed: bool, p: int -> SweepPlan)
      requires Valid() && NoDuplicates(previews)
      requires forall a :: a in previews ==> a in store.t.apps && store.t.apps[a].ephemeral
      requires forall a :: a in store.t.apps && store.t.apps[a].ephemeral ==> a in previews
      modifies this`containers, this`data, store`t
      ensures Valid() && RealAppsKept(old(store.t).apps, store.t.apps)
      ensures Now() == if listed then Swept(old(Now()), configs, previews, p) else old(Now())
    {
      if !listed { return; }
      forall k | 0 <= k < |previews| ensures previews[k] in store.t.apps && store.t.apps[previews[k]].ephemeral {
        var a := previews[k];
        assert a in previews;
        assert a in store.t.apps;
      }
      for i := 0 to |previews|
        invariant Valid() && RealAppsKept(old(store.t).apps, store.t.apps)
        invariant Now() == Swept(old(Now()), configs, previews[..i], p)
        invariant forall k :: i <= k < |previews| ==> previews[k] in store.t.apps && store.t.apps[previews[k]].ephemeral
      {
        assert previews[..i + 1][..i] == previews[..i];
        SweepPreview(previews[i], p(previews[i]));
      }
      assert previews[..|previews|] == previews;
    }

    /** One turn of the sweep: an orphan is destroyed, a preview that is due is torn down. */
    method SweepPreview(a: int, p: SweepPlan)
      requires Valid() && a in store.t.apps && store.t.apps[a].ephemeral
      modifies this`containers, this`data, store`t
      ensures Valid() && RealAppsKept(old(store.t).apps, store.t.apps)
      ensures Now() == SweepOne(old(Now()), configs, a, p)
      ensures forall b :: b in old(store.t).apps && b != a ==> b in store.t.apps && store.t.apps[b] == old(store.t).apps[b]
    {
      var row := store.t.apps[a];
      assert NamedAfterParent(store.t.apps, a);
      if !p.parent { return; }
      if row.parent !in store.t.apps {
        var ok := DestroyChild(a, p.destroy);
        CapAfterDeletion(old(store.t).apps, store.t.apps);
        return;
      }
      if !p.config { return; }
      if Due(row, ConfigOf(configs, row.parent), p) {
        assert IsPreviewOf(store.t.apps, a, row.parent, row.pr);
        var outcome := Teardown(row.parent, row.pr, p.lookup, p.destroy);
      }
    }
  }

  /** The row provisionDatabases asks for. */
  function Wanted(t: Tables, child: int, att: Att): Db
    requires child in t.apps && att.db in t.dbs
  {
    Db(DbName(t.apps[child].name, t.dbs[att.db].name), t.apps[child].project)
  }

  /** The preview of this pull request, and what destroying it leaves. */
  predicate TornDown(w: World, v: World, parent: int, pr: nat, child: int, p: DestroyPlan, outcome: Outcome) {
    && IsPreviewOf(w.t.apps, child, parent, pr) && v == DestroyEffect(w, child, p)
    && outcome == if Completes(w, child, p) then Destroyed else Failed
  }

  /** What handling an event does to the world. */
  ghost predicate Handled(w: World, v: World, parent: int, cfg: Config, hostOf: (Str, nat, Str) -> Str, ev: Event, p: AppPlan, outcome: Outcome)
    requires parent in w.t.apps
  {
    match ev.action
    case Opened | Reopened | Synchronize =>
      outcome == SpawnEnd(w, parent, cfg, hostOf, ev, p.spawn) && SpawnEffect(w, v, parent, cfg, hostOf, ev, p.spawn)
    case Closed =>
      if p.lookup && !NoPreview(w.t.apps, parent, ev.pr) then exists child :: TornDown(w, v, parent, ev.pr, child, p.destroy, outcome)
      else outcome == Ignored && v == w
    case OtherAction => outcome == Ignored && v == w
  }

  /** Apps that are nobody's preview stay as they are. */
  ghost predicate RealAppsKept(apps: map<int, App>, now: map<int, App>) {
    forall a :: IsReal(apps, a) ==> a in now && now[a] == apps[a]
  }

  lemma Smaller(a: set<int>, b: set<int>)
    requires a <= b
    ensures |a| <= |b|
  {
    assert b == a + (b - a);
  }

  /** The parent's attachments are the same as before the child existed. */
  lemma ParentsAttachments(base: Tables, t: Tables, parent: int, child: int)
    requires child != parent && OtherAtts(t.atts, child) == base.atts
    ensures AttsOf(t.atts, parent) == AttsOf(base.atts, parent)
    ensures forall i :: i in AttsOf(base.atts, parent) ==> t.atts[i] == base.atts[i]
  {
    assert forall i :: i in t.atts && t.atts[i].app == parent ==> i in OtherAtts(t.atts, child) && base.atts[i] == t.atts[i];
    assert forall i :: i in base.atts ==> i in t.atts && t.atts[i] == base.atts[i];
  }

  /** The child does not use the variable of an attachment that is not copied yet. */
  lemma NewVariable(base: Tables, t: Tables, child: int, row: App, done: set<int>, i: int)
    requires Mirrored(base, t, child, row, done) && DistinctVars(base.atts) && i in base.atts && i !in done
    requires forall k :: k in done ==> k in base.atts && base.atts[k].app == base.atts[i].app
    ensures forall j :: j in t.atts && t.atts[j].app == child ==> t.atts[j].envVar != base.atts[i].envVar
  {
    forall j | j in t.atts && t.atts[j].app == child ensures t.atts[j].envVar != base.atts[i].envVar {
      assert j in AttsOf(t.atts, child);
      var k :| k in done && CopyOf(base, t, child, row, k, j);
    }
  }

  /** What the next attachment finds, once some are copied. */
  lemma ReadyForNext(base: World, w: World, child: int, row: App, done: set<int>, i: int, p: int -> AttPlan)
    requires WorldOk(base) && WorldOk(w) && Halfway(base, w, child, row, done, p)
    requires i in base.t.atts && i !in done && i in w.t.atts && w.t.atts[i] == base.t.atts[i]
    requires forall k :: k in done ==> base.t.atts[k].app == base.t.atts[i].app
    ensures child in w.t.apps && w.t.atts[i].db in w.t.dbs && base.t.atts[i].db in base.t.dbs
    ensures forall j :: j in w.t.atts && w.t.atts[j].app == child ==> w.t.atts[j].envVar != w.t.atts[i].envVar
    ensures Wanted(w.t, child, w.t.atts[i]) == NewDb(base.t, row, i)
    ensures AttWorks(p(i)) && FreeDbName(w.t.dbs, NewDb(base.t, row, i).name)
      <==> (CopyCame(base.t, row, i, p(i)) && forall k :: k in done ==> base.t.atts[k].db != base.t.atts[i].db)
  {
    NewVariable(base.t, w.t, child, row, done, i);
    NameFreeExactly(base.t, w.t, child, row, done, i);
  }

  lemma RouteMade(base: map<int, Dom>, doms: map<int, Dom>, more: map<int, Dom>, child: int, hostOf: (Str, nat, Str) -> Str, name: Str, pr: nat, done: set<int>, i: int)
    requires RoutesMade(base, doms, child, hostOf, name, pr, done) && i in base
    requires exists id :: id !in doms && more == doms[id := MintedRow(base[i], child, hostOf, name, pr)]
    requires forall j :: j in RowsOf(doms, child) ==> (doms[j].host, doms[j].path) != (hostOf(name, pr, base[i].service), base[i].path)
    ensures RoutesMade(base, more, child, hostOf, name, pr, done + {i})
  {
    var id :| id !in doms && more == doms[id := MintedRow(base[i], child, hostOf, name, pr)];
    assert RowsOf(more, child) == RowsOf(doms, child) + {id};
  }

  /** The child has routes exactly when its parent has. */
  lemma SameRoutes(base: Tables, t: Tables, parent: int, child: int, hostOf: (Str, nat, Str) -> Str, pr: nat)
    requires parent in base.apps && Routes(t, child) == Minted(base, parent, hostOf, pr)
    ensures RowsOf(t.doms, child) == {} <==> RowsOf(base.doms, parent) == {}
  {
    if RowsOf(t.doms, child) != {} {
      NonEmpty(RowsOf(t.doms, child));
      var i :| i in RowsOf(t.doms, child);
      assert (t.doms[i].host, t.doms[i].path) in Routes(t, child);
    }
    if RowsOf(base.doms, parent) != {} {
      NonEmpty(RowsOf(base.doms, parent));
      var i :| i in RowsOf(base.doms, parent);
      var r := (hostOf(base.apps[parent].name, pr, base.doms[i].service), base.doms[i].path);
      assert r in Minted(base, parent, hostOf, pr);
      var k :| k in t.doms && t.doms[k].app == child && (t.doms[k].host, t.doms[k].path) == r;
      assert k in RowsOf(t.doms, child);
    }
  }

  lemma TakeOne<T>(all: set<T>, rest: set<T>, i: T)
    requires rest <= all && i in rest
    ensures all - rest + {i} == all - (rest - {i}) && rest - {i} <= all
  {
  }

  lemma NonEmpty(s: set<int>)
    requires s != {}
    ensures exists i :: i in s
  {
    if !(exists i :: i in s) { assert false; }
  }

  lemma UnchangedIsUndone(w: World, row: App)
    requires WorldOk(w)
    ensures OnlyChildLeft(w, w, w.next, row)
  {
    NothingToDelete(w.t, w.next);
  }

  /** An attachment of another app is to a database of before. */
  lemma OthersAttachment(base: Tables, t: Tables, child: int, row: App, i: int)
    requires Linked(base) && Growing(base, t, child, row) && i in t.atts && t.atts[i].app != child
    ensures t.atts[i].db in base.dbs && t.atts[i].db !in Attached(t, child)
  {
    assert OtherAtts(t.atts, child) == base.atts && i in OtherAtts(t.atts, child);
  }

  /** A rollback whose calls all work cleans up all. */
  lemma RolledBack(base: World, w: World, parent: int, child: int, row: App, p: SpawnPlan)
    requires Linked(base.t) && Growing(base.t, w.t, child, row) && RollsBack(base.t, parent, p)
    ensures CleansAll(w, child, p.cleanup)
  {
    forall d | d in Attached(w.t, child) ensures d in Captured(w.t, child, p.cleanup.list, p.cleanup.get) && Own(w.t, child, d) && RemovalWorks(w, d, p.cleanup.destroy(d)) {
      assert AllWork(p.cleanup.destroy(d));
      forall i | i in w.t.atts && w.t.atts[i].db == d ensures w.t.atts[i].app == child {
        if w.t.atts[i].app != child { OthersAttachment(base.t, w.t, child, row, i); }
      }
    }
  }
}
