/** What the removing operations of previews leave behind, for every way their calls can fail
    (destroyChild, cleanupChild and teardown of internal/previewmgr/manager.go, SweepTick of
    internal/previewmgr/sweeper.go, Remove of internal/dbaas/manager.go).

    A plan says of each call whether it works; a call that fails changes nothing. Plans for calls about
    an attachment are keyed by its id, those for calls about a database by the database's id. */
module PreviewPlans {
  import opened Bytes
  import opened Seqs
  import opened PreviewTables

  /** The tables, and the databases that have a container and a data directory. */
  datatype World = World(t: Tables, next: int, containers: set<int>, data: set<int>)

  /** No container and no data directory outlives the row of its database. */
  predicate HostOk(w: World) { w.containers <= w.t.dbs.Keys && w.data <= w.t.dbs.Keys }

  predicate WorldOk(w: World) { Sound(w.t, w.next) && HostOk(w) }

  /** The same but for ids used up in between. */
  predicate SameWorld(w: World, v: World) { v.(next := w.next) == w }

  /** The databases attached to an app. */
  function Attached(t: Tables, app: int): set<int> {
    set i | i in t.atts && t.atts[i].app == app :: t.atts[i].db
  }

  // ------------------------------------------------------------- one database

  /** DatabaseDeletable, FindContainer, RemoveContainer, removeData, DeleteDatabase. */
  datatype RemovePlan = RemovePlan(check: bool, find: bool, container: bool, data: bool, row: bool)

  predicate AllWork(p: RemovePlan) { p.check && p.find && p.container && p.data && p.row }

  /** How far Remove gets; a container that is not there needs no call. */
  predicate ContainerGoes(w: World, d: int, p: RemovePlan) {
    p.check && Unattached(w.t, d) && p.find && (d in w.containers ==> p.container)
  }

  predicate DataGoes(w: World, d: int, p: RemovePlan) { ContainerGoes(w, d, p) && p.data }

  predicate RowGoes(w: World, d: int, p: RemovePlan) { DataGoes(w, d, p) && p.row }

  function RemoveEffect(w: World, d: int, p: RemovePlan): World {
    World(if RowGoes(w, d, p) then w.t.(dbs := w.t.dbs - {d}) else w.t, w.next,
      if ContainerGoes(w, d, p) then w.containers - {d} else w.containers, if DataGoes(w, d, p) then w.data - {d} else w.data)
  }

  /** Remove of each of these databases, in any order. */
  function DestroyAll(w: World, dbs: set<int>, p: int -> RemovePlan): World {
    World(w.t.(dbs := w.t.dbs - set d | d in dbs && RowGoes(w, d, p(d))), w.next,
      w.containers - (set d | d in dbs && ContainerGoes(w, d, p(d))), w.data - set d | d in dbs && DataGoes(w, d, p(d)))
  }

  lemma NoneDestroyed(w: World, p: int -> RemovePlan)
    ensures DestroyAll(w, {}, p) == w
  {
    assert w.t.dbs - {} == w.t.dbs;
    assert (set d | d in {} && RowGoes(w, d, p(d))) == {};
  }

  /** What comes after one more database does not depend on those before it. */
  lemma DestroyedNext(w: World, done: set<int>, d: int, p: int -> RemovePlan)
    requires d !in done
    ensures RemoveEffect(DestroyAll(w, done, p), d, p(d)) == DestroyAll(w, done + {d}, p)
  {
    var v, u := DestroyAll(w, done, p), DestroyAll(w, done + {d}, p);
    var last := RemoveEffect(v, d, p(d));
    assert forall e :: e in last.t.dbs <==> e in u.t.dbs;
    assert last.t.dbs == u.t.dbs;
    assert last.containers == u.containers && last.data == u.data;
  }

  lemma RemoveKeepsOk(w: World, d: int, p: RemovePlan)
    requires WorldOk(w)
    ensures WorldOk(RemoveEffect(w, d, p))
  {
  }

  lemma DestroyedIsOk(w: World, dbs: set<int>, p: int -> RemovePlan)
    requires WorldOk(w)
    ensures WorldOk(DestroyAll(w, dbs, p))
  {
  }

  // ------------------------------------------------------------ deleting a preview

  /** cleanupChild: ListAttachments, GetDatabase, DeleteApp and the removals. */
  datatype CleanPlan = CleanPlan(list: bool, get: int -> bool, deleteApp: bool, destroy: int -> RemovePlan)

  /** destroyChild: the same, with RemoveApp and SetPreviewStatus in between. */
  datatype DestroyPlan = DestroyPlan(list: bool, get: int -> bool, removeApp: bool, mark: bool, deleteApp: bool,
    destroy: int -> RemovePlan)

  /** The databases found while the attachments still exist. */
  function Captured(t: Tables, child: int, list: bool, get: int -> bool): set<int> {
    if list then set i | i in AttsOf(t.atts, child) && get(i) :: t.atts[i].db else {}
  }

  function CleanupEffect(w: World, child: int, p: CleanPlan): World {
    DestroyAll(if p.deleteApp then w.(t := WithoutApp(w.t, child)) else w, Captured(w.t, child, p.list, p.get), p.destroy)
  }

  /** Nothing in the gated phase failed; a failed listing is not noticed. */
  predicate GateOpen(w: World, child: int, p: DestroyPlan) {
    p.removeApp && (p.list ==> forall i :: i in AttsOf(w.t.atts, child) ==> p.get(i))
  }

  predicate Completes(w: World, child: int, p: DestroyPlan) { GateOpen(w, child, p) && p.deleteApp }

  function DestroyEffect(w: World, child: int, p: DestroyPlan): World {
    if !GateOpen(w, child, p) then (if p.mark then w.(t := WithStatus(w.t, child, TeardownFailed)) else w)
    else if !p.deleteApp then w
    else DestroyAll(w.(t := WithoutApp(w.t, child)), Captured(w.t, child, p.list, p.get), p.destroy)
  }

  lemma DestroyKeepsOk(w: World, child: int, p: DestroyPlan)
    requires WorldOk(w)
    ensures WorldOk(DestroyEffect(w, child, p))
  {
    StatusIsSound(w.t, w.next, child, TeardownFailed);
    DeletionIsSound(w.t, w.next, child);
    DestroyedIsOk(w.(t := WithoutApp(w.t, child)), Captured(w.t, child, p.list, p.get), p.destroy);
  }

  /** No other app is attached to the database. */
  predicate Own(t: Tables, child: int, d: int) {
    forall i :: i in t.atts && t.atts[i].db == d ==> t.atts[i].app == child
  }

  /** Every call of Remove works, the one for the container only if there is one. */
  predicate RemovalWorks(w: World, d: int, p: RemovePlan) {
    p.check && p.find && (d in w.containers ==> p.container) && p.data && p.row
  }

  lemma GoesOnceDeleted(w: World, child: int, d: int, p: RemovePlan)
    ensures RowGoes(w.(t := WithoutApp(w.t, child)), d, p) <==> Own(w.t, child, d) && RemovalWorks(w, d, p)
  {
    var u := WithoutApp(w.t, child);
    assert forall i :: i in u.atts <==> i in w.t.atts && w.t.atts[i].app != child;
  }

  /** There were no databases, or the listing worked, no other app uses them and every removal worked. */
  predicate LeavesNone(w: World, child: int, p: DestroyPlan) {
    || Attached(w.t, child) == {}
    || (p.list && forall d :: d in Attached(w.t, child) ==> Own(w.t, child, d) && RemovalWorks(w, d, p.destroy(d)))
  }

  /** A teardown that gets through its gate and deletes the app removes exactly the databases of the preview
      if and only if LeavesNone. */
  lemma TeardownExactly(w: World, child: int, p: DestroyPlan)
    requires WorldOk(w) && Completes(w, child, p)
    ensures DestroyEffect(w, child, p).t.dbs == w.t.dbs - Attached(w.t, child) <==> LeavesNone(w, child, p)
  {
    var dbs, u, got := Attached(w.t, child), w.(t := WithoutApp(w.t, child)), Captured(w.t, child, p.list, p.get);
    assert p.list ==> got == dbs;
    forall d | d in dbs ensures RowGoes(u, d, p.destroy(d)) <==> Own(w.t, child, d) && RemovalWorks(w, d, p.destroy(d)) {
      GoesOnceDeleted(w, child, d, p.destroy(d));
    }
    var left := DestroyEffect(w, child, p).t.dbs;
    assert left == w.t.dbs - set d | d in got && RowGoes(u, d, p.destroy(d));
    assert dbs <= w.t.dbs.Keys;
    if left == w.t.dbs - dbs {
      forall d | d in dbs ensures p.list && RowGoes(u, d, p.destroy(d)) {
        assert d !in left;
      }
    }
  }

  predicate CleansAll(w: World, child: int, p: CleanPlan) {
    p.deleteApp && forall d :: d in Attached(w.t, child) ==>
      d in Captured(w.t, child, p.list, p.get) && Own(w.t, child, d) && RemovalWorks(w, d, p.destroy(d))
  }

  /** A cleanup gives the tables back without the child and its databases if and only if the app was deleted
      and, for each of its databases, the listing, the lookups that matter and the removal worked. */
  lemma CleanupExactly(w: World, child: int, p: CleanPlan)
    requires WorldOk(w) && child in w.t.apps
    ensures CleanupEffect(w, child, p).t == WithoutApp(w.t, child).(dbs := w.t.dbs - Attached(w.t, child)) <==> CleansAll(w, child, p)
  {
    var dbs, u, got := Attached(w.t, child), w.(t := WithoutApp(w.t, child)), Captured(w.t, child, p.list, p.get);
    var v := CleanupEffect(w, child, p).t;
    if p.deleteApp {
      forall d | d in dbs ensures RowGoes(u, d, p.destroy(d)) <==> Own(w.t, child, d) && RemovalWorks(w, d, p.destroy(d)) {
        GoesOnceDeleted(w, child, d, p.destroy(d));
      }
      assert v == u.t.(dbs := w.t.dbs - set d | d in got && RowGoes(u, d, p.destroy(d)));
      assert got <= dbs <= w.t.dbs.Keys;
      if v.dbs == w.t.dbs - dbs {
        forall d | d in dbs ensures d in got && RowGoes(u, d, p.destroy(d)) {
          assert d !in v.dbs;
        }
      }
    } else {
      assert child in v.apps;
    }
  }

  /** When the listing fails, a teardown that completes leaves every database of the preview, unattached. */
  lemma FailedListingLeaks(w: World, child: int, p: DestroyPlan)
    requires WorldOk(w) && child in w.t.apps && !p.list
    ensures Completes(w, child, p) <==> p.removeApp && p.deleteApp
    ensures Completes(w, child, p) ==> DestroyEffect(w, child, p) == w.(t := WithoutApp(w.t, child))
  {
    NoneDestroyed(w.(t := WithoutApp(w.t, child)), p.destroy);
  }

  /** One app and its preview with one database: every call but the listing works, and the row stays behind. */
  lemma LeakingTeardown() returns (w: World, p: DestroyPlan)
    ensures WorldOk(w) && 2 in w.t.apps && Attached(w.t, 2) == {3} && Completes(w, 2, p)
    ensures var v := DestroyEffect(w, 2, p); 2 !in v.t.apps && 3 in v.t.dbs && 3 in v.containers && Unattached(v.t, 3)
  {
    var app := App(Ascii("a"), Nixpacks, 1, Ascii("main"), 0, 0, false, NotPreview);
    var preview := App(PreviewName(app.name, 7), Nixpacks, 1, Ascii("b"), 1, 7, true, PreviewReady);
    var t := Tables(map[1 := app, 2 := preview], map[3 := Db(Ascii("d"), 1)], map[4 := Att(2, 3, Ascii("URL"))], map[], map[], map[]);
    w := World(t, 5, {3}, {3});
    p := DestroyPlan(false, (i: int) => true, true, true, true, (d: int) => RemovePlan(true, true, true, true, true));
    assert |preview.name| > |app.name|;
    assert t.atts[4].app == 2;
    FailedListingLeaks(w, 2, p);
  }

  // -------------------------------------------------------------------- sweeping

  datatype Config = Config(enabled: bool, allowForkPRs: bool, idleTTLDays: int, maxConcurrent: int)

  /** GetPreviewConfig, with DefaultPreviewConfig. */
  function ConfigOf(configs: map<int, Config>, app: int): Config {
    if app in configs then configs[app] else Config(false, false, 7, 5)
  }

  /** An app that nobody configured has no previews; its limit would be five. */
  lemma ConfigExactly(configs: map<int, Config>, app: int)
    ensures var c := ConfigOf(configs, app);
      if app in configs then c == configs[app] else !c.enabled && !c.allowForkPRs && c.idleTTLDays == 7 && c.maxConcurrent == 5
  {
  }

  /** The calls about one preview of a sweep: GetApp, GetPreviewConfig, what the code host says of the pull
      request, the age of the newest deployment in nanoseconds, GetPreviewByPR, and destroyChild. */
  datatype SweepPlan = SweepPlan(parent: bool, config: bool, closed: bool, age: Option<int>, lookup: bool, destroy: DestroyPlan)

  const DAY := 24 * 3600 * 1_000_000_000

  /** IsForkPreview. */
  predicate IsFork(row: App) { row.ephemeral && HasPrefix(row.branch, Ascii("refs/pull/")) }

  /** Why the sweep tears a preview down. */
  predicate Due(row: App, cfg: Config, p: SweepPlan) {
    || p.closed
    || (IsFork(row) && !cfg.allowForkPRs)
    || (cfg.idleTTLDays > 0 && p.age.Some? && p.age.value > cfg.idleTTLDays * DAY)
  }

  /** Why, in terms of the row and of the configuration: 7 days and no forks where there is none. */
  lemma DueExactly(row: App, configs: map<int, Config>, p: SweepPlan)
    requires row.ephemeral
    ensures Due(row, ConfigOf(configs, row.parent), p) <==>
      || p.closed
      || (|row.branch| >= 10 && row.branch[..10] == Ascii("refs/pull/") && !(row.parent in configs && configs[row.parent].allowForkPRs))
      || (p.age.Some? && var days := if row.parent in configs then configs[row.parent].idleTTLDays else 7;
          days > 0 && p.age.value > days * 86_400_000_000_000)
  {
  }

  /** The sweep calls destroyChild on it: an orphan at once, another preview through teardown. */
  predicate Reaps(w: World, configs: map<int, Config>, a: int, p: SweepPlan) {
    && a in w.t.apps && p.parent
    && (w.t.apps[a].parent in w.t.apps ==> p.config && Due(w.t.apps[a], ConfigOf(configs, w.t.apps[a].parent), p) && p.lookup)
  }

  function SweepOne(w: World, configs: map<int, Config>, a: int, p: SweepPlan): World {
    if Reaps(w, configs, a, p) then DestroyEffect(w, a, p.destroy) else w
  }

  function Swept(w: World, configs: map<int, Config>, order: seq<int>, p: int -> SweepPlan): World {
    if order == [] then w
    else var a := order[|order| - 1]; SweepOne(Swept(w, configs, order[..|order| - 1], p), configs, a, p(a))
  }

  /** The previews the sweep gets rid of, judged by the tables before it. */
  function Reaped(w: World, configs: map<int, Config>, order: seq<int>, p: int -> SweepPlan): set<int> {
    set a | a in order && Reaps(w, configs, a, p(a)) && Completes(w, a, p(a).destroy)
  }

  function AttsWithout(m: map<int, Att>, gone: set<int>): map<int, Att> { map i | i in m && m[i].app !in gone :: m[i] }

  function DomsWithout(m: map<int, Dom>, gone: set<int>): map<int, Dom> { map i | i in m && m[i].app !in gone :: m[i] }

  function DepsWithout(m: map<int, int>, gone: set<int>): map<int, int> { map i | i in m && m[i] !in gone :: m[i] }

  function EnvWithout(m: map<EnvKey, Str>, gone: set<int>): map<EnvKey, Str> { map k | k in m && k.app !in gone :: m[k] }

  /** Only the status of an app may differ. */
  predicate StatusOnly(apps: map<int, App>, now: map<int, App>) {
    now.Keys <= apps.Keys && forall a :: a in now ==> now[a] == apps[a].(status := now[a].status)
  }

  function DatabasesOf(t: Tables, apps: set<int>): set<int> {
    set i | i in t.atts && t.atts[i].app in apps :: t.atts[i].db
  }

  /** Databases only went, whole or in part, if they belonged to one of these apps; a row only when no app uses it. */
  predicate Spared(w: World, v: World, gone: set<int>) {
    && (forall d :: d in v.t.dbs ==> d in w.t.dbs && v.t.dbs[d] == w.t.dbs[d])
    && (forall d :: d in w.t.dbs && d !in v.t.dbs ==> d in DatabasesOf(w.t, gone) && Unattached(v.t, d))
    && v.containers <= w.containers && w.containers - v.containers <= DatabasesOf(w.t, gone)
    && v.data <= w.data && w.data - v.data <= DatabasesOf(w.t, gone)
  }

  /** v is w without exactly these apps and their rows. */
  predicate Shrunk(w: World, v: World, gone: set<int>) {
    && v.next == w.next && v.t.apps.Keys == w.t.apps.Keys - gone && StatusOnly(w.t.apps, v.t.apps)
    && v.t.atts == AttsWithout(w.t.atts, gone) && v.t.doms == DomsWithout(w.t.doms, gone)
    && v.t.deps == DepsWithout(w.t.deps, gone) && v.t.env == EnvWithout(w.t.env, gone)
    && Spared(w, v, gone)
  }

  lemma NothingGone(w: World)
    ensures Shrunk(w, w, {})
  {
    assert AttsWithout(w.t.atts, {}) == w.t.atts && DomsWithout(w.t.doms, {}) == w.t.doms;
    assert DepsWithout(w.t.deps, {}) == w.t.deps && EnvWithout(w.t.env, {}) == w.t.env;
  }

  lemma RowsOfOneMore(t: Tables, gone: set<int>, a: int)
    ensures OtherAtts(AttsWithout(t.atts, gone), a) == AttsWithout(t.atts, gone + {a})
    ensures OtherDoms(DomsWithout(t.doms, gone), a) == DomsWithout(t.doms, gone + {a})
    ensures OtherDeps(DepsWithout(t.deps, gone), a) == DepsWithout(t.deps, gone + {a})
    ensures OtherEnv(EnvWithout(t.env, gone), a) == EnvWithout(t.env, gone + {a})
  {
  }

  lemma OneMoreGone(w: World, v: World, gone: set<int>, a: int, p: DestroyPlan)
    requires WorldOk(w) && WorldOk(v) && Shrunk(w, v, gone) && a in v.t.apps && Completes(v, a, p)
    ensures Shrunk(w, DestroyEffect(v, a, p), gone + {a})
  {
    var bare, got := v.(t := WithoutApp(v.t, a)), Captured(v.t, a, p.list, p.get);
    var u := DestroyEffect(v, a, p);
    RowsOfOneMore(w.t, gone, a);
    assert u.t == bare.t.(dbs := u.t.dbs);
    assert got <= DatabasesOf(w.t, gone + {a}) by {
      forall d | d in got ensures d in DatabasesOf(w.t, gone + {a}) {
        var i :| i in AttsOf(v.t.atts, a) && v.t.atts[i].db == d;
        assert w.t.atts[i] == v.t.atts[i];
      }
    }
    assert DatabasesOf(w.t, gone) <= DatabasesOf(w.t, gone + {a});
    forall d | d in w.t.dbs && d !in u.t.dbs ensures d in DatabasesOf(w.t, gone + {a}) && Unattached(u.t, d) {
      if d in v.t.dbs { assert RowGoes(bare, d, p.destroy(d)); } else { assert Unattached(v.t, d); }
    }
  }

  lemma NothingMoreGone(w: World, v: World, gone: set<int>, a: int, p: DestroyPlan)
    requires Shrunk(w, v, gone) && a in v.t.apps && !Completes(v, a, p)
    ensures Shrunk(w, DestroyEffect(v, a, p), gone)
  {
    var u := DestroyEffect(v, a, p);
    assert u == v.(t := v.t.(apps := u.t.apps)) && StatusOnly(v.t.apps, u.t.apps) && u.t.apps.Keys == v.t.apps.Keys;
  }

  /** What the sweep decides about a preview does not depend on what it did to the others. */
  lemma ReapsAsBefore(w: World, v: World, gone: set<int>, configs: map<int, Config>, a: int, p: SweepPlan)
    requires WorldOk(w) && Shrunk(w, v, gone) && a in v.t.apps
    requires forall g :: g in gone ==> g in w.t.apps ==> w.t.apps[g].ephemeral
    ensures Reaps(v, configs, a, p) <==> Reaps(w, configs, a, p)
    ensures Completes(v, a, p.destroy) <==> Completes(w, a, p.destroy)
  {
    assert NamedAfterParent(w.t.apps, a);
    assert v.t.apps[a] == w.t.apps[a].(status := v.t.apps[a].status);
    assert a !in gone;
    assert AttsOf(v.t.atts, a) == AttsOf(w.t.atts, a);
  }

  /** A sweep leaves exactly the tables without the previews it reaped, and without their rows: whatever fails
      for one preview, the others are judged and removed as if it were alone. */
  lemma {:induction false} SweepIsExact(w: World, configs: map<int, Config>, order: seq<int>, p: int -> SweepPlan)
    requires WorldOk(w) && NoDuplicates(order)
    requires forall a :: a in order ==> a in w.t.apps && w.t.apps[a].ephemeral
    ensures WorldOk(Swept(w, configs, order, p))
    ensures Shrunk(w, Swept(w, configs, order, p), Reaped(w, configs, order, p))
    decreases |order|
  {
    if order == [] {
      NothingGone(w);
      assert Reaped(w, configs, order, p) == {};
    } else {
      var init, a := order[..|order| - 1], order[|order| - 1];
      assert order == init + [a];
      assert NoDuplicates(init) by { assert forall i :: 0 <= i < |init| ==> init[i] == order[i]; }
      SweepIsExact(w, configs, init, p);
      var v, gone := Swept(w, configs, init, p), Reaped(w, configs, init, p);
      assert a !in init by { assert forall i :: 0 <= i < |init| ==> init[i] == order[i]; }
      SweepStep(w, v, gone, configs, a, p(a));
      ReapedNext(w, configs, init, a, p);
    }
  }

  lemma ReapedNext(w: World, configs: map<int, Config>, init: seq<int>, a: int, p: int -> SweepPlan)
    ensures Reaped(w, configs, init + [a], p)
      == Reaped(w, configs, init, p) + if Reaps(w, configs, a, p(a)) && Completes(w, a, p(a).destroy) then {a} else {}
  {
  }

  lemma SweepStep(w: World, v: World, gone: set<int>, configs: map<int, Config>, a: int, p: SweepPlan)
    requires WorldOk(w) && WorldOk(v) && Shrunk(w, v, gone) && a in v.t.apps
    requires forall g :: g in gone ==> g in w.t.apps ==> w.t.apps[g].ephemeral
    ensures WorldOk(SweepOne(v, configs, a, p))
    ensures Shrunk(w, SweepOne(v, configs, a, p), gone + if Reaps(w, configs, a, p) && Completes(w, a, p.destroy) then {a} else {})
  {
    ReapsAsBefore(w, v, gone, configs, a, p);
    if Reaps(w, configs, a, p) {
      DestroyKeepsOk(v, a, p.destroy);
      if Completes(w, a, p.destroy) {
        OneMoreGone(w, v, gone, a, p.destroy);
      } else {
        NothingMoreGone(w, v, gone, a, p.destroy);
      }
    }
    assert gone + {} == gone;
  }
}
