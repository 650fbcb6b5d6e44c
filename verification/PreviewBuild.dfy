/** What a preview that is being built looks like, when a build works, and what a failed one leaves
    (spawn, buildPreview and cleanupChild of internal/previewmgr/manager.go, with preview_adapters.go). */
module PreviewBuild {
  import opened Bytes
  import opened PreviewTables
  import opened PreviewPlans

  datatype Action = Opened | Reopened | Synchronize | Closed | OtherAction

  datatype Event = Event(action: Action, pr: nat, fork: bool, headRef: Str)

  datatype Outcome = Ignored | Redeployed | Spawned(child: int) | Destroyed | Failed

  // ---------------------------------------------------------- a preview being built

  function Routes(t: Tables, app: int): set<(Str, Str)> {
    set i | i in t.doms && t.doms[i].app == app :: (t.doms[i].host, t.doms[i].path)
  }

  /** t is base with the app child, rows of its own, and databases that base does not have. */
  predicate Growing(base: Tables, t: Tables, child: int, row: App) {
    && child !in base.apps && t.apps == base.apps[child := row]
    && WithoutApp(t, child) == base.(dbs := t.dbs)
    && (forall d :: d in base.dbs ==> d in t.dbs && t.dbs[d] == base.dbs[d])
    && Attached(t, child) !! base.dbs.Keys
  }

  /** The only new databases are those attached to the child. */
  predicate Exact(base: Tables, t: Tables, child: int) {
    t.dbs.Keys == base.dbs.Keys + Attached(t, child)
  }

  /** The databases of before have their containers and data as before. */
  predicate SameHost(base: World, w: World) {
    forall d :: d in base.t.dbs ==> (d in w.containers <==> d in base.containers) && (d in w.data <==> d in base.data)
  }

  lemma GrowApp(base: Tables, child: int, row: App)
    requires Linked(base) && child !in base.apps
    ensures var t := base.(apps := base.apps[child := row]);
      Growing(base, t, child, row) && Exact(base, t, child) && AttsOf(t.atts, child) == {} && RowsOf(t.doms, child) == {}
  {
    NothingToDelete(base, child);
    var t := base.(apps := base.apps[child := row]);
    assert t.apps - {child} == base.apps;
    assert forall i :: i in t.atts ==> t.atts[i].app != child;
    assert forall i :: i in t.doms ==> t.doms[i].app != child;
  }

  lemma GrowDatabase(base: Tables, t: Tables, child: int, row: App, id: int, d: Db)
    requires Growing(base, t, child, row) && id !in t.dbs
    ensures Growing(base, t.(dbs := t.dbs[id := d]), child, row)
  {
  }

  /** The attachment j of the child copies the attachment i: the same variable, and a new database
      named after the child and the one copied. */
  predicate CopyOf(base: Tables, t: Tables, child: int, row: App, i: int, j: int) {
    && i in base.atts && base.atts[i].db in base.dbs
    && j in t.atts && t.atts[j].app == child && t.atts[j].envVar == base.atts[i].envVar
    && t.atts[j].db in t.dbs && t.atts[j].db !in base.dbs
    && t.dbs[t.atts[j].db] == Db(row.name + Ascii("-") + base.dbs[base.atts[i].db].name, row.project)
  }

  function DbName(child: Str, source: Str): Str { child + Ascii("-") + source }

  /** The row provisionDatabases makes for this attachment. */
  function NewDb(base: Tables, row: App, i: int): Db
    requires i in base.atts && base.atts[i].db in base.dbs
  {
    Db(DbName(row.name, base.dbs[base.atts[i].db].name), row.project)
  }

  /** The child's attachments are copies of these, one each, and no two share a database. */
  ghost predicate Mirrored(base: Tables, t: Tables, child: int, row: App, done: set<int>) {
    && (forall i :: i in done ==> exists j :: CopyOf(base, t, child, row, i, j))
    && (forall j :: j in AttsOf(t.atts, child) ==> exists i :: i in done && CopyOf(base, t, child, row, i, j))
    && (forall j, k :: j in AttsOf(t.atts, child) && k in AttsOf(t.atts, child) && j != k ==> t.atts[j].db != t.atts[k].db)
  }

  lemma AttachmentAdded(t: Tables, u: Tables, child: int, row: App, id: int, d: Db, attId: int, envVar: Str)
    requires id !in t.dbs && attId !in t.atts
    requires u == t.(dbs := t.dbs[id := d], atts := t.atts[attId := Att(child, id, envVar)])
    ensures OtherAtts(u.atts, child) == OtherAtts(t.atts, child) && Attached(u, child) == Attached(t, child) + {id}
    ensures AttsOf(u.atts, child) == AttsOf(t.atts, child) + {attId}
  {
    assert u.atts[attId] == Att(child, id, envVar);
    assert forall i :: i in t.atts ==> u.atts[i] == t.atts[i];
    assert forall i :: i in u.atts ==> i == attId || i in t.atts;
  }

  lemma GrowAttachment(base: Tables, t: Tables, u: Tables, child: int, row: App, id: int, d: Db, attId: int, envVar: Str)
    requires Growing(base, t, child, row) && Exact(base, t, child) && id !in t.dbs && attId !in t.atts
    requires u == t.(dbs := t.dbs[id := d], atts := t.atts[attId := Att(child, id, envVar)])
    ensures Growing(base, u, child, row) && Exact(base, u, child)
  {
    AttachmentAdded(t, u, child, row, id, d, attId, envVar);
  }

  /** Whatever was a copy stays one. */
  lemma CopyStays(base: Tables, t: Tables, u: Tables, child: int, row: App, i: int, j: int)
    requires CopyOf(base, t, child, row, i, j)
    requires j in u.atts && u.atts[j] == t.atts[j] && t.atts[j].db in u.dbs && u.dbs[t.atts[j].db] == t.dbs[t.atts[j].db]
    ensures CopyOf(base, u, child, row, i, j)
  {
  }

  lemma MirrorOneMore(base: Tables, t: Tables, u: Tables, child: int, row: App, done: set<int>, i: int, id: int, attId: int)
    requires Linked(t) && base.dbs.Keys <= t.dbs.Keys && Mirrored(base, t, child, row, done)
    requires i in base.atts && base.atts[i].db in base.dbs && id !in t.dbs && attId !in t.atts
    requires u == t.(dbs := t.dbs[id := NewDb(base, row, i)], atts := t.atts[attId := Att(child, id, base.atts[i].envVar)])
    ensures Mirrored(base, u, child, row, done + {i})
  {
    AttachmentAdded(t, u, child, row, id, NewDb(base, row, i), attId, base.atts[i].envVar);
    assert CopyOf(base, u, child, row, i, attId);
    forall k | k in done ensures exists j :: CopyOf(base, u, child, row, k, j) {
      var j :| CopyOf(base, t, child, row, k, j);
      CopyStays(base, t, u, child, row, k, j);
    }
    forall j | j in AttsOf(u.atts, child) ensures exists k :: k in done + {i} && CopyOf(base, u, child, row, k, j) {
      if j != attId {
        var k :| k in done && CopyOf(base, t, child, row, k, j);
        CopyStays(base, t, u, child, row, k, j);
      }
    }
  }

  lemma GrowDomain(base: Tables, t: Tables, child: int, row: App, id: int, d: Dom)
    requires Growing(base, t, child, row) && id !in t.doms && d.app == child
    ensures var u := t.(doms := t.doms[id := d]);
      && Growing(base, u, child, row) && Routes(u, child) == Routes(t, child) + {(d.host, d.path)}
      && RowsOf(u.doms, child) == RowsOf(t.doms, child) + {id}
  {
    var u := t.(doms := t.doms[id := d]);
    assert OtherDoms(u.doms, child) == OtherDoms(t.doms, child);
    assert u.doms[id] == d;
    assert forall i :: i in t.doms ==> u.doms[i] == t.doms[i];
    assert forall i :: i in u.doms ==> i == id || i in t.doms;
  }

  lemma GrowDeployment(base: Tables, t: Tables, child: int, row: App, id: int)
    requires Growing(base, t, child, row) && id !in t.deps
    ensures Growing(base, t.(deps := t.deps[id := child]), child, row)
  {
    assert OtherDeps(t.deps[id := child], child) == OtherDeps(t.deps, child);
  }

  lemma GrowEnv(base: Tables, t: Tables, child: int, row: App, env: map<EnvKey, Str>)
    requires Growing(base, t, child, row) && OtherEnv(env, child) == OtherEnv(t.env, child)
    ensures Growing(base, t.(env := env), child, row)
  {
  }

  // ------------------------------------------------------------------ environment

  /** core.EnvForScope in preview mode, narrowed by previewOnly for a fork. */
  predicate Copied(env: map<EnvKey, Str>, k: EnvKey, parent: int, fork: bool) {
    && k in env && k.app == parent && k.scope != ProdOnly
    && (k.scope == Shared ==> !fork && EnvKey(parent, k.key, PreviewOnly) !in env)
  }

  const PREVIEW_VAR := Ascii("OUTHAUL_PREVIEW")
  const NUMBER_VAR := Ascii("OUTHAUL_PR_NUMBER")
  const URL_VAR := Ascii("OUTHAUL_PREVIEW_URL")

  function Markers(): set<Str> { {PREVIEW_VAR, NUMBER_VAR, URL_VAR} }

  predicate IsMarker(k: EnvKey) { k.key in Markers() && k.scope == Shared }

  /** What the child's environment may hold: copies of what it may see, and the shared marker variables. */
  predicate Allowed(base: map<EnvKey, Str>, k: EnvKey, value: Str, parent: int, fork: bool) {
    IsMarker(k) || (Copied(base, EnvKey(parent, k.key, k.scope), parent, fork) && base[EnvKey(parent, k.key, k.scope)] == value)
  }

  /** env is before with variables of the child, all of them allowed. */
  predicate EnvBuilt(before: map<EnvKey, Str>, env: map<EnvKey, Str>, parent: int, child: int, fork: bool) {
    OtherEnv(env, child) == before && forall k :: k in env && k.app == child ==> Allowed(before, k, env[k], parent, fork)
  }

  /** The variables a preview gets. */
  function ToCopy(env: map<EnvKey, Str>, parent: int, fork: bool): set<EnvKey> {
    set k | k in env && Copied(env, k, parent, fork)
  }

  /** These variables of the parent, under the child's id. */
  function CopiesOf(env: map<EnvKey, Str>, parent: int, child: int, vars: set<EnvKey>): map<EnvKey, Str> {
    map k | k in (set v | v in vars :: EnvKey(child, v.key, v.scope)) && EnvKey(parent, k.key, k.scope) in env :: env[EnvKey(parent, k.key, k.scope)]
  }

  lemma CopiesNext(env: map<EnvKey, Str>, parent: int, child: int, vars: set<EnvKey>, k: EnvKey)
    requires k in env && k.app == parent
    ensures env + CopiesOf(env, parent, child, vars + {k}) == (env + CopiesOf(env, parent, child, vars))[EnvKey(child, k.key, k.scope) := env[k]]
  {
    assert k == EnvKey(parent, k.key, k.scope);
    var c := EnvKey(child, k.key, k.scope);
    assert CopiesOf(env, parent, child, vars + {k}) == CopiesOf(env, parent, child, vars)[c := env[k]];
  }

  lemma EnvSet(before: map<EnvKey, Str>, env: map<EnvKey, Str>, parent: int, child: int, fork: bool, k: EnvKey, value: Str)
    requires EnvBuilt(before, env, parent, child, fork) && k.app == child && Allowed(before, k, value, parent, fork)
    ensures EnvBuilt(before, env[k := value], parent, child, fork)
  {
    assert OtherEnv(env[k := value], child) == OtherEnv(env, child);
  }

  datatype EnvPlan = EnvPlan(list: bool, copy: EnvKey -> bool, markPreview: bool, markNumber: bool)

  predicate CopyWorks(env: map<EnvKey, Str>, parent: int, fork: bool, p: EnvPlan) {
    p.list && forall k :: k in ToCopy(env, parent, fork) ==> p.copy(k)
  }

  function WithVar(env: map<EnvKey, Str>, k: EnvKey, value: Str, io: bool): map<EnvKey, Str> {
    if io then env[k := value] else env
  }

  /** The two markers of copyEnv, each best effort. */
  function WithMarkers(env: map<EnvKey, Str>, child: int, pr: nat, p: EnvPlan): map<EnvKey, Str> {
    WithVar(WithVar(env, EnvKey(child, PREVIEW_VAR, Shared), Ascii("true"), p.markPreview), EnvKey(child, NUMBER_VAR, Shared), Decimal(pr), p.markNumber)
  }

  function CopiedEnv(env: map<EnvKey, Str>, parent: int, child: int, fork: bool, pr: nat, p: EnvPlan): map<EnvKey, Str> {
    WithMarkers(env + CopiesOf(env, parent, child, ToCopy(env, parent, fork)), child, pr, p)
  }

  function UrlOf(d: Dom): Str { (if d.tls then Ascii("https://") else Ascii("http://")) + d.host }

  /** injectPreviewURL: the address of the app's first route, if it has any. */
  ghost predicate UrlInjected(env: map<EnvKey, Str>, now: map<EnvKey, Str>, doms: map<int, Dom>, child: int) {
    if RowsOf(doms, child) == {} then now == env
    else exists i :: IsFirst(doms, child, i) && now == env[EnvKey(child, URL_VAR, Shared) := UrlOf(doms[i])]
  }

  /** A variable that is no marker reaches the preview exactly when it may see it, with the parent's value. */
  lemma CopiedEnvMeaning(env: map<EnvKey, Str>, parent: int, child: int, fork: bool, pr: nat, p: EnvPlan, k: EnvKey)
    requires k.app == child && !IsMarker(k) && (forall j :: j in env ==> j.app != child)
    ensures var now := CopiedEnv(env, parent, child, fork, pr, p);
      (k in now <==> Copied(env, EnvKey(parent, k.key, k.scope), parent, fork)) && (k in now ==> now[k] == env[EnvKey(parent, k.key, k.scope)])
  {
    var source := EnvKey(parent, k.key, k.scope);
    var copies := CopiesOf(env, parent, child, ToCopy(env, parent, fork));
    if Copied(env, source, parent, fork) { assert source in ToCopy(env, parent, fork); }
    assert k in copies <==> Copied(env, source, parent, fork) by {
      if k in copies {
        var v :| v in ToCopy(env, parent, fork) && EnvKey(child, v.key, v.scope) == k;
        assert v == source;
      }
    }
  }

  // ------------------------------------------- the environment without the code's functions

  /** One of the shared variables that outhaul itself sets. */
  predicate OwnVariable(key: Str, scope: Scope) {
    scope == Shared && key in {Ascii("OUTHAUL_PREVIEW"), Ascii("OUTHAUL_PR_NUMBER"), Ascii("OUTHAUL_PREVIEW_URL")}
  }

  /** The preview has the variable with the parent's value if it should, and lacks it otherwise. */
  predicate SameValueIff(base: map<EnvKey, Str>, now: map<EnvKey, Str>, source: EnvKey, copy: EnvKey, should: bool) {
    if should && source in base then copy in now && now[copy] == base[source] else copy !in now
  }

  /** A preview sees the parent's preview-only variables, and the shared ones they do not replace; a fork's
      sees the preview-only ones alone. None sees a production-only one. */
  ghost predicate Sees(base: map<EnvKey, Str>, now: map<EnvKey, Str>, parent: int, child: int, fork: bool) {
    forall key :: SeesKey(base, now, parent, child, fork, key)
  }

  predicate SeesKey(base: map<EnvKey, Str>, now: map<EnvKey, Str>, parent: int, child: int, fork: bool, key: Str) {
    && EnvKey(child, key, ProdOnly) !in now
    && SameValueIff(base, now, EnvKey(parent, key, PreviewOnly), EnvKey(child, key, PreviewOnly), true)
    && (!OwnVariable(key, Shared) ==>
        SameValueIff(base, now, EnvKey(parent, key, Shared), EnvKey(child, key, Shared), !fork && EnvKey(parent, key, PreviewOnly) !in base))
  }

  /** Nothing but what it may see is there, with the parent's value. */
  ghost predicate SeesAtMost(base: map<EnvKey, Str>, now: map<EnvKey, Str>, parent: int, child: int, fork: bool) {
    forall key, scope :: EnvKey(child, key, scope) in now && !OwnVariable(key, scope) ==>
      && (scope == PreviewOnly || (scope == Shared && !fork && EnvKey(parent, key, PreviewOnly) !in base))
      && EnvKey(parent, key, scope) in base && now[EnvKey(child, key, scope)] == base[EnvKey(parent, key, scope)]
  }

  /** The two markers of copyEnv, where their calls worked. */
  predicate Marked(now: map<EnvKey, Str>, child: int, pr: nat, p: EnvPlan) {
    && (p.markPreview ==> IsSet(now, child, Ascii("OUTHAUL_PREVIEW"), Ascii("true")))
    && (p.markNumber ==> IsSet(now, child, Ascii("OUTHAUL_PR_NUMBER"), Decimal(pr)))
  }

  predicate IsSet(now: map<EnvKey, Str>, child: int, key: Str, value: Str) {
    EnvKey(child, key, Shared) in now && now[EnvKey(child, key, Shared)] == value
  }

  /** The address of the first route, by its own scheme. */
  ghost predicate Addressed(now: map<EnvKey, Str>, doms: map<int, Dom>, child: int) {
    RowsOf(doms, child) != {} ==>
      exists i :: IsFirst(doms, child, i) && IsSet(now, child, Ascii("OUTHAUL_PREVIEW_URL"), Ascii(if doms[i].tls then "https://" else "http://") + doms[i].host)
  }

  lemma MarkersDiffer()
    ensures PREVIEW_VAR != NUMBER_VAR && NUMBER_VAR != URL_VAR && PREVIEW_VAR != URL_VAR
    ensures forall k: EnvKey :: IsMarker(k) <==> OwnVariable(k.key, k.scope)
  {
    assert |PREVIEW_VAR| == 15 && |NUMBER_VAR| == 17 && |URL_VAR| == 19;
  }

  /** What copyEnv makes of the parent's environment. */
  lemma CopiedEnvSees(env: map<EnvKey, Str>, parent: int, child: int, fork: bool, pr: nat, p: EnvPlan)
    requires forall j :: j in env ==> j.app != child
    ensures Sees(env, CopiedEnv(env, parent, child, fork, pr, p), parent, child, fork)
    ensures Marked(CopiedEnv(env, parent, child, fork, pr, p), child, pr, p)
  {
    MarkersDiffer();
    forall key ensures SeesKey(env, CopiedEnv(env, parent, child, fork, pr, p), parent, child, fork, key) {
      forall k: EnvKey | k.app == child && k.key == key && !IsMarker(k)
        ensures var now := CopiedEnv(env, parent, child, fork, pr, p);
          (k in now <==> Copied(env, EnvKey(parent, k.key, k.scope), parent, fork)) && (k in now ==> now[k] == env[EnvKey(parent, k.key, k.scope)])
      {
        CopiedEnvMeaning(env, parent, child, fork, pr, p, k);
      }
    }
  }

  lemma BuiltSeesAtMost(base: map<EnvKey, Str>, now: map<EnvKey, Str>, parent: int, child: int, fork: bool)
    requires EnvBuilt(base, now, parent, child, fork)
    ensures SeesAtMost(base, now, parent, child, fork)
  {
    MarkersDiffer();
    forall key, scope | EnvKey(child, key, scope) in now && !OwnVariable(key, scope)
      ensures Allowed(base, EnvKey(child, key, scope), now[EnvKey(child, key, scope)], parent, fork) && !IsMarker(EnvKey(child, key, scope)) {}
  }

  /** The address is one more variable of outhaul's own. */
  lemma UrlKeepsSight(base: map<EnvKey, Str>, env: map<EnvKey, Str>, now: map<EnvKey, Str>, doms: map<int, Dom>, parent: int, child: int, fork: bool, pr: nat, p: EnvPlan)
    requires Sees(base, env, parent, child, fork) && Marked(env, child, pr, p) && UrlInjected(env, now, doms, child)
    ensures Sees(base, now, parent, child, fork) && Marked(now, child, pr, p) && Addressed(now, doms, child)
  {
    MarkersDiffer();
    forall key ensures SeesKey(base, now, parent, child, fork, key) { assert SeesKey(base, env, parent, child, fork, key); }
  }

  // -------------------------------------------------------------------- databases

  /** CreateDatabase, ProvisionSync and, when the container does not start, Remove. */
  datatype ProvisionPlan = ProvisionPlan(create: bool, start: bool, leftContainer: bool, leftData: bool, undo: RemovePlan)

  /** GetDatabase, Provision, AttachDatabase and, when it fails, Destroy. */
  datatype AttPlan = AttPlan(get: bool, make: ProvisionPlan, attach: bool, undo: RemovePlan)

  /** Remove of a database that did not start takes all of it away. */
  predicate UndoWorks(p: ProvisionPlan) {
    p.undo.check && p.undo.find && (p.leftContainer ==> p.undo.container) && p.undo.data && p.undo.row
  }

  predicate AttWorks(p: AttPlan) { p.get && p.make.create && p.make.start && p.attach }

  /** The row of a database stays behind, attached to nothing. */
  predicate Leaks(p: AttPlan) {
    p.get && p.make.create && if p.make.start then !p.attach && !AllWork(p.undo) else !UndoWorks(p.make)
  }

  /** No database bears one of the names the preview's databases get, and no two get the same name. */
  predicate DbNamesFree(t: Tables, parent: int, row: App) {
    && (forall i :: i in AttsOf(t.atts, parent) ==> t.atts[i].db in t.dbs && FreeDbName(t.dbs, NewDb(t, row, i).name))
    && Unshared(t.atts, AttsOf(t.atts, parent))
  }

  predicate DbsWork(t: Tables, parent: int, row: App, list: bool, p: int -> AttPlan) {
    list && DbNamesFree(t, parent, row) && forall i :: i in AttsOf(t.atts, parent) ==> AttWorks(p(i))
  }

  /** A new database of this row, and at most its container and data. */
  predicate Made(w: World, v: World, id: int, d: Db) {
    && id !in w.t.dbs && v.t == w.t.(dbs := w.t.dbs[id := d])
    && w.containers <= v.containers <= w.containers + {id} && w.data <= v.data <= w.data + {id}
  }

  /** Removing a new database gives the world of before, or leaves at most what was made. */
  lemma UndoExactly(w: World, v: World, id: int, d: Db, p: RemovePlan)
    requires WorldOk(w) && Made(w, v, id, d)
    ensures RowGoes(v, id, p) <==> RemovalWorks(v, id, p)
    ensures if RowGoes(v, id, p) then SameWorld(w, RemoveEffect(v, id, p)) else Made(w, RemoveEffect(v, id, p), id, d)
  {
    assert (w.t.dbs[id := d]) - {id} == w.t.dbs;
    assert v.containers - {id} == w.containers && v.data - {id} == w.data;
  }

  /** These attachments of the parent have their copies, and the next may still get its own. */
  ghost predicate Halfway(base: World, w: World, child: int, row: App, done: set<int>, p: int -> AttPlan) {
    && Growing(base.t, w.t, child, row) && Exact(base.t, w.t, child) && SameHost(base, w)
    && Mirrored(base.t, w.t, child, row, done) && Attached(w.t, child) <= w.containers * w.data
    && EachCame(base.t, row, done, p) && Unshared(base.t.atts, done)
  }

  ghost predicate EachCame(base: Tables, row: App, done: set<int>, p: int -> AttPlan) {
    forall i :: i in done ==> CopyCame(base, row, i, p(i))
  }

  /** No two of these attachments are to the same database. */
  predicate Unshared(atts: map<int, Att>, ids: set<int>) {
    forall i, k :: i in ids && k in ids && i != k && i in atts && k in atts ==> atts[i].db != atts[k].db
  }

  lemma OneMoreCame(base: Tables, row: App, done: set<int>, i: int, p: int -> AttPlan)
    requires EachCame(base, row, done, p) && Unshared(base.atts, done) && CopyCame(base, row, i, p(i))
    requires forall k :: k in done ==> base.atts[k].db != base.atts[i].db
    ensures EachCame(base, row, done + {i}, p) && Unshared(base.atts, done + {i})
  {
  }

  predicate CopyCame(base: Tables, row: App, i: int, p: AttPlan) {
    i in base.atts && base.atts[i].db in base.dbs && AttWorks(p) && FreeDbName(base.dbs, NewDb(base, row, i).name)
  }

  lemma HalfwayStarts(base: World, w: World, child: int, row: App, p: int -> AttPlan)
    requires Growing(base.t, w.t, child, row) && Exact(base.t, w.t, child) && SameHost(base, w) && AttsOf(w.t.atts, child) == {}
    ensures Halfway(base, w, child, row, {}, p)
  {
    assert forall i :: i in w.t.atts && w.t.atts[i].app == child ==> i in AttsOf(w.t.atts, child);
    assert Attached(w.t, child) == {};
  }

  lemma HalfwayNext(base: World, w: World, v: World, child: int, row: App, done: set<int>, i: int, p: int -> AttPlan, id: int, attId: int)
    requires Linked(w.t) && Halfway(base, w, child, row, done, p) && CopyCame(base.t, row, i, p(i))
    requires EachCame(base.t, row, done + {i}, p) && Unshared(base.t.atts, done + {i})
    requires id !in w.t.dbs && attId !in w.t.atts && id in v.containers * v.data
    requires v.t == w.t.(dbs := w.t.dbs[id := NewDb(base.t, row, i)], atts := w.t.atts[attId := Att(child, id, base.t.atts[i].envVar)])
    requires w.containers <= v.containers <= w.containers + {id} && w.data <= v.data <= w.data + {id}
    ensures Halfway(base, v, child, row, done + {i}, p)
  {
    GrowAttachment(base.t, w.t, v.t, child, row, id, NewDb(base.t, row, i), attId, base.t.atts[i].envVar);
    MirrorOneMore(base.t, w.t, v.t, child, row, done, i, id, attId);
    AttachmentAdded(w.t, v.t, child, row, id, NewDb(base.t, row, i), attId, base.t.atts[i].envVar);
    HostStays(base, w, v, id);
  }

  lemma HostStays(base: World, w: World, v: World, id: int)
    requires SameHost(base, w) && id !in base.t.dbs
    requires w.containers <= v.containers <= w.containers + {id} && w.data <= v.data <= w.data + {id}
    ensures SameHost(base, v)
  {
  }

  lemma AllCame(base: World, w: World, parent: int, child: int, row: App, p: int -> AttPlan)
    requires Halfway(base, w, child, row, AttsOf(base.t.atts, parent), p)
    ensures DbsWork(base.t, parent, row, true, p)
  {
    forall i | i in AttsOf(base.t.atts, parent) ensures AttWorks(p(i)) && FreeDbName(base.t.dbs, NewDb(base.t, row, i).name) {
      assert CopyCame(base.t, row, i, p(i));
    }
  }

  lemma OneFailed(base: Tables, parent: int, row: App, done: set<int>, i: int, p: int -> AttPlan)
    requires done <= AttsOf(base.atts, parent) && i in AttsOf(base.atts, parent) && i !in done
    requires !CopyCame(base, row, i, p(i)) || exists k :: k in done && base.atts[k].db == base.atts[i].db
    ensures !DbsWork(base, parent, row, true, p)
  {
  }

  /** Nothing about the databases changed. */
  lemma SameDatabases(base: Tables, t: Tables, u: Tables, child: int, row: App, done: set<int>)
    requires Mirrored(base, t, child, row, done) && u.dbs == t.dbs && u.atts == t.atts
    ensures Mirrored(base, u, child, row, done) && Attached(u, child) == Attached(t, child)
  {
    forall i, j | CopyOf(base, t, child, row, i, j) ensures CopyOf(base, u, child, row, i, j) {}
  }

  lemma SameDbName(child: Str, a: Str, b: Str)
    requires DbName(child, a) == DbName(child, b)
    ensures a == b
  {
    assert a == DbName(child, a)[|child + Ascii("-")|..];
    assert b == DbName(child, b)[|child + Ascii("-")|..];
  }

  /** Once some attachments are copied, the name for the next is free if and only if it was free before
      and none of them shares its database. */
  lemma NameFreeExactly(base: Tables, t: Tables, child: int, row: App, done: set<int>, i: int)
    requires Linked(base) && DistinctNames(base.dbs) && Linked(t)
    requires Growing(base, t, child, row) && Exact(base, t, child) && Mirrored(base, t, child, row, done)
    requires i in base.atts && i !in done
    ensures FreeDbName(t.dbs, NewDb(base, row, i).name)
      <==> (FreeDbName(base.dbs, NewDb(base, row, i).name) && forall k :: k in done ==> base.atts[k].db != base.atts[i].db)
  {
    var name := NewDb(base, row, i).name;
    if !FreeDbName(t.dbs, name) && FreeDbName(base.dbs, name) {
      var d :| d in t.dbs && t.dbs[d].name == name;
      assert d in Attached(t, child);
      var j :| j in t.atts && t.atts[j].app == child && t.atts[j].db == d;
      assert j in AttsOf(t.atts, child);
      var k :| k in done && CopyOf(base, t, child, row, k, j);
      SameDbName(row.name, base.dbs[base.atts[i].db].name, base.dbs[base.atts[k].db].name);
    }
    if k :| k in done && base.atts[k].db == base.atts[i].db {
      var j :| CopyOf(base, t, child, row, k, j);
      assert t.dbs[t.atts[j].db].name == name;
    }
  }

  // ------------------------------------------------------------------------ routes

  function RoutesOf(doms: map<int, Dom>, ids: set<int>, hostOf: (Str, nat, Str) -> Str, name: Str, pr: nat): set<(Str, Str)> {
    set i | i in ids && i in doms :: (hostOf(name, pr, doms[i].service), doms[i].path)
  }

  lemma RoutesOfNext(doms: map<int, Dom>, ids: set<int>, hostOf: (Str, nat, Str) -> Str, name: Str, pr: nat, i: int)
    requires i in doms
    ensures RoutesOf(doms, ids + {i}, hostOf, name, pr) == RoutesOf(doms, ids, hostOf, name, pr) + {(hostOf(name, pr, doms[i].service), doms[i].path)}
  {
  }

  /** The preview's routes: the derived host of each parent route, with its path. */
  function Minted(t: Tables, parent: int, hostOf: (Str, nat, Str) -> Str, pr: nat): set<(Str, Str)>
    requires parent in t.apps
  {
    RoutesOf(t.doms, RowsOf(t.doms, parent), hostOf, t.apps[parent].name, pr)
  }

  /** The row mintDomains makes from one of the parent's. */
  function MintedRow(d: Dom, child: int, hostOf: (Str, nat, Str) -> Str, name: Str, pr: nat): Dom {
    Dom(child, hostOf(name, pr, d.service), d.path, d.service, d.tls)
  }

  /** Every route of the child is made from one of these rows of the parent, and no two are the same route. */
  ghost predicate RoutesMade(base: map<int, Dom>, doms: map<int, Dom>, child: int, hostOf: (Str, nat, Str) -> Str, name: Str, pr: nat, done: set<int>) {
    && (forall j :: j in RowsOf(doms, child) ==>
        exists i :: i in done && i in base && doms[j] == Dom(child, hostOf(name, pr, base[i].service), base[i].path, base[i].service, base[i].tls))
    && (forall j, k :: j in RowsOf(doms, child) && k in RowsOf(doms, child) && j != k ==> (doms[j].host, doms[j].path) != (doms[k].host, doms[k].path))
  }

  /** The child's routes are those made from these rows of the parent. */
  ghost predicate HalfMinted(base: map<int, Dom>, t: Tables, child: int, hostOf: (Str, nat, Str) -> Str, name: Str, pr: nat, done: set<int>) {
    Routes(t, child) == RoutesOf(base, done, hostOf, name, pr) && RoutesMade(base, t.doms, child, hostOf, name, pr, done)
  }

  predicate RouteFree(doms: map<int, Dom>, host: Str, path: Str) {
    forall i :: i in doms ==> !SameRoute(doms[i], host, path)
  }

  /** Every one of these routes is free, and the call adding it works. */
  predicate AllCouldBe(routes: set<(Str, Str)>, doms: map<int, Dom>, add: (Str, Str) -> bool) {
    forall r :: r in routes ==> RouteFree(doms, r.0, r.1) && add(r.0, r.1)
  }

  /** None of the routes the preview gets is routed yet. */
  predicate RoutesFree(t: Tables, parent: int, hostOf: (Str, nat, Str) -> Str, pr: nat)
    requires parent in t.apps
  {
    forall r :: r in Minted(t, parent, hostOf, pr) ==> RouteFree(t.doms, r.0, r.1)
  }

  predicate RoutesWork(t: Tables, parent: int, hostOf: (Str, nat, Str) -> Str, pr: nat, list: bool, add: (Str, Str) -> bool)
    requires parent in t.apps
  {
    list && AllCouldBe(Minted(t, parent, hostOf, pr), t.doms, add)
  }

  /** The route of a new row is taken by another app if and only if it was before the child existed. */
  lemma TakenByOthers(base: Tables, t: Tables, child: int, row: App, d: Dom)
    requires Linked(base) && Growing(base, t, child, row) && d.app == child
    ensures Taken(t, d) <==> !RouteFree(base.doms, d.host, d.path)
  {
    assert OtherDoms(t.doms, child) == base.doms;
    if !RouteFree(base.doms, d.host, d.path) {
      var i :| i in base.doms && SameRoute(base.doms[i], d.host, d.path);
      assert i in t.doms && t.doms[i] == base.doms[i];
    }
    if Taken(t, d) {
      var i :| i in t.doms && t.doms[i].app != d.app && SameRoute(t.doms[i], d.host, d.path);
      assert i in base.doms && base.doms[i] == t.doms[i];
    }
  }

  // -------------------------------------------------------------------- the build

  datatype BuildPlan = BuildPlan(env: EnvPlan, listAtts: bool, att: int -> AttPlan, listDoms: bool, addDom: (Str, Str) -> bool,
    listForURL: bool, setURL: bool, deploy: bool)

  /** When buildPreview works: every call it makes does, and every name and route it needs is free. */
  predicate BuildWorks(t: Tables, parent: int, row: App, hostOf: (Str, nat, Str) -> Str, fork: bool, p: BuildPlan)
    requires parent in t.apps
  {
    && CopyWorks(t.env, parent, fork, p.env)
    && DbsWork(t, parent, row, p.listAtts, p.att)
    && RoutesWork(t, parent, hostOf, row.pr, p.listDoms, p.addDom)
    && p.listForURL && (RowsOf(t.doms, parent) != {} ==> p.setURL)
    && p.deploy
  }

  /** What a finished build gives the child. */
  ghost predicate Built(base: Tables, t: Tables, parent: int, child: int, row: App, hostOf: (Str, nat, Str) -> Str, fork: bool, p: BuildPlan)
    requires parent in base.apps
  {
    && Mirrored(base, t, child, row, AttsOf(base.atts, parent))
    && Routes(t, child) == Minted(base, parent, hostOf, row.pr)
    && RoutesMade(base.doms, t.doms, child, hostOf, base.apps[parent].name, row.pr, RowsOf(base.doms, parent))
    && UrlInjected(CopiedEnv(base.env, parent, child, fork, row.pr, p.env), t.env, t.doms, child)
    && Sees(base.env, t.env, parent, child, fork) && Marked(t.env, child, row.pr, p.env) && Addressed(t.env, t.doms, child)
    && exists i :: i !in base.deps && t.deps == base.deps[i := child]
  }

  ghost predicate SpawnedFor(w: World, v: World, parent: int, child: int, row: App, hostOf: (Str, nat, Str) -> Str, fork: bool, p: BuildPlan)
    requires parent in w.t.apps
  {
    && Growing(w.t, v.t, child, row) && Exact(w.t, v.t, child) && SameHost(w, v) && Attached(v.t, child) <= v.containers * v.data
    && Built(w.t, v.t, parent, child, row, hostOf, fork, p)
  }

  /** The parts of a build put together. */
  lemma AllBuilt(w: World, at: World, v: World, parent: int, child: int, row: App, hostOf: (Str, nat, Str) -> Str, fork: bool, p: BuildPlan)
    requires parent in w.t.apps && Growing(w.t, v.t, child, row) && Exact(w.t, at.t, child) && SameHost(w, at)
    requires v == at.(t := at.t.(doms := v.t.doms, env := v.t.env, deps := v.t.deps), next := v.next)
    requires Mirrored(w.t, at.t, child, row, AttsOf(w.t.atts, parent)) && Attached(at.t, child) <= at.containers * at.data
    requires at.t.env == CopiedEnv(w.t.env, parent, child, fork, row.pr, p.env) && at.t.deps == w.t.deps
    requires Published(w.t, at.t, v.t, parent, child, row, hostOf) && Linked(w.t)
    ensures SpawnedFor(w, v, parent, child, row, hostOf, fork, p)
  {
    CopiedEnvSees(w.t.env, parent, child, fork, row.pr, p.env);
    UrlKeepsSight(w.t.env, at.t.env, v.t.env, v.t.doms, parent, child, fork, row.pr, p.env);
    SameDatabases(w.t, at.t, v.t, child, row, AttsOf(w.t.atts, parent));
  }

  /** The routes, the address and the first deployment of a child. */
  ghost predicate Published(base: Tables, t: Tables, u: Tables, parent: int, child: int, row: App, hostOf: (Str, nat, Str) -> Str)
    requires parent in base.apps
  {
    && Routes(u, child) == Minted(base, parent, hostOf, row.pr)
    && RoutesMade(base.doms, u.doms, child, hostOf, base.apps[parent].name, row.pr, RowsOf(base.doms, parent))
    && UrlInjected(t.env, u.env, u.doms, child)
    && exists i :: i !in t.deps && u.deps == t.deps[i := child]
  }

  // --------------------------------------------------------------------- rolled back

  /** At most the child with rows of its own, and new databases, are left of a spawn that failed. */
  predicate OnlyChildLeft(base: World, w: World, child: int, row: App) {
    && (w.t.apps == base.t.apps || w.t.apps == base.t.apps[child := row])
    && WithoutApp(w.t, child) == base.t.(dbs := w.t.dbs)
    && (forall d :: d in base.t.dbs ==> d in w.t.dbs && w.t.dbs[d] == base.t.dbs[d])
    && SameHost(base, w)
  }

  /** The rollback of a spawn restores every table, and the containers and data directories, if and only if
      no database leaked before, the child was deleted, and each of its databases was found and removed. */
  lemma RollbackRestores(base: World, w: World, child: int, row: App, p: CleanPlan)
    requires WorldOk(base) && WorldOk(w) && Growing(base.t, w.t, child, row) && SameHost(base, w)
    ensures OnlyChildLeft(base, CleanupEffect(w, child, p), child, row)
    ensures SameWorld(base, CleanupEffect(w, child, p)) <==> Exact(base.t, w.t, child) && CleansAll(w, child, p)
  {
    var v, u := CleanupEffect(w, child, p), WithoutApp(w.t, child);
    CleanupExactly(w, child, p);
    NewDatabasesOnly(base, w, child, row, p);
    if Exact(base.t, w.t, child) {
      var left := w.t.dbs - Attached(w.t, child);
      assert forall d :: d in left <==> d in base.t.dbs;
      assert forall d :: d in left ==> left[d] == w.t.dbs[d] == base.t.dbs[d];
      assert left == base.t.dbs;
    }
    if v.t == base.t {
      assert Exact(base.t, w.t, child) by { RestoredWasExact(base, w, child, row, p); }
      DeletionIsSound(w.t, w.next, child);
      DestroyedIsOk(if p.deleteApp then w.(t := u) else w, Captured(w.t, child, p.list, p.get), p.destroy);
      HostRestored(base, v);
    }
  }

  lemma HostRestored(base: World, v: World)
    requires HostOk(base) && HostOk(v) && SameHost(base, v) && v.t.dbs == base.t.dbs
    ensures v.containers == base.containers && v.data == base.data
  {
    assert forall d :: d in v.containers <==> d in base.containers;
    assert forall d :: d in v.data <==> d in base.data;
  }

  lemma NewDatabasesOnly(base: World, w: World, child: int, row: App, p: CleanPlan)
    requires Linked(base.t) && Growing(base.t, w.t, child, row) && SameHost(base, w)
    ensures OnlyChildLeft(base, CleanupEffect(w, child, p), child, row)
  {
    var v := CleanupEffect(w, child, p);
    assert Captured(w.t, child, p.list, p.get) <= Attached(w.t, child);
    NothingToDelete(base.t, child);
    assert (base.t.apps[child := row]) - {child} == base.t.apps;
    assert WithoutApp(WithoutApp(w.t, child), child) == WithoutApp(w.t, child);
  }

  /** Every database that went was attached to the child. */
  lemma RestoredWasExact(base: World, w: World, child: int, row: App, p: CleanPlan)
    requires Growing(base.t, w.t, child, row) && Linked(w.t) && CleanupEffect(w, child, p).t.dbs == base.t.dbs
    ensures Exact(base.t, w.t, child)
  {
    assert Captured(w.t, child, p.list, p.get) <= Attached(w.t, child);
    forall d | d in w.t.dbs && d !in base.t.dbs ensures d in Attached(w.t, child) {
      assert d !in CleanupEffect(w, child, p).t.dbs;
    }
  }

  // ----------------------------------------------------------------------- a spawn

  /** The calls of spawn: GetPreviewByPR, again in redeploy, ListPreviewsForParent, CreateApp, the build
      and its rollback; `redeploy` is the CreateDeployment of redeploy. */
  datatype SpawnPlan = SpawnPlan(lookup: bool, again: bool, redeploy: bool, count: bool, create: bool, build: BuildPlan, cleanup: CleanPlan)

  /** The row of a new preview: it follows the branch of the pull request, or for a fork the base
      repository's view of its head. */
  function ChildOf(parent: App, id: int, ev: Event): App {
    App(PreviewName(parent.name, ev.pr), parent.kind, parent.project,
      if ev.fork then Ascii("refs/pull/") + Decimal(ev.pr) + Ascii("/head") else ev.headRef,
      id, ev.pr, true, PreviewBuilding)
  }

  /** The row of a preview, field by field: it builds the head branch, or for a fork what the base repository
      has of it under refs/pull. */
  predicate IsChildOf(row: App, parent: App, id: int, ev: Event) {
    && row.name == parent.name + Ascii("-pr-") + Decimal(ev.pr) && row.kind == parent.kind && row.project == parent.project
    && row.parent == id && row.pr == ev.pr && row.ephemeral && row.status == PreviewBuilding
    && row.branch == if ev.fork then Ascii("refs/pull/") + Decimal(ev.pr) + Ascii("/head") else ev.headRef
  }

  /** The sweep knows the preview of a fork by its branch, unless a head branch of the app itself is called so. */
  lemma ForkIsKnown(parent: App, id: int, ev: Event)
    ensures IsChildOf(ChildOf(parent, id, ev), parent, id, ev)
    ensures IsFork(ChildOf(parent, id, ev)) <==> ev.fork || HasPrefix(ev.headRef, Ascii("refs/pull/"))
  {
    var prefix := Ascii("refs/pull/");
    if ev.fork { assert (prefix + (Decimal(ev.pr) + Ascii("/head")))[..|prefix|] == prefix; }
    assert prefix + Decimal(ev.pr) + Ascii("/head") == prefix + (Decimal(ev.pr) + Ascii("/head"));
  }

  /** A fork gets a preview only where allowed, and only of an app built by Nixpacks. */
  predicate ForkRefused(parent: App, cfg: Config, ev: Event) {
    ev.fork && !(cfg.allowForkPRs && parent.kind == Nixpacks)
  }

  predicate Redeploys(t: Tables, parent: int, ev: Event, p: SpawnPlan) {
    p.lookup && !NoPreview(t.apps, parent, ev.pr)
  }

  /** No preview is found, and there is room for one. */
  predicate Room(t: Tables, parent: int, cfg: Config, ev: Event, p: SpawnPlan) {
    !Redeploys(t, parent, ev, p) && p.count && |Previews(t.apps, parent)| < cfg.maxConcurrent
  }

  /** The row of the child comes to exist. */
  predicate Begins(t: Tables, parent: int, cfg: Config, ev: Event, p: SpawnPlan)
    requires parent in t.apps
  {
    && !ForkRefused(t.apps[parent], cfg, ev) && Room(t, parent, cfg, ev, p)
    && p.create && FreeName(t.apps, PreviewName(t.apps[parent].name, ev.pr))
  }

  /** How a spawn ends. */
  function SpawnEnd(w: World, parent: int, cfg: Config, hostOf: (Str, nat, Str) -> Str, ev: Event, p: SpawnPlan): Outcome
    requires parent in w.t.apps
  {
    if ForkRefused(w.t.apps[parent], cfg, ev) then Ignored
    else if Redeploys(w.t, parent, ev, p) then (if !p.again then Ignored else if p.redeploy then Redeployed else Failed)
    else if !p.count then Failed
    else if !Room(w.t, parent, cfg, ev, p) then Ignored
    else if Begins(w.t, parent, cfg, ev, p) && BuildWorks(w.t, parent, ChildOf(w.t.apps[parent], parent, ev), hostOf, ev.fork, p.build)
    then Spawned(w.next)
    else Failed
  }

  /** Every call of the rollback works, and no database leaked before it. */
  ghost predicate RollsBack(t: Tables, parent: int, p: SpawnPlan) {
    && (forall i :: i in AttsOf(t.atts, parent) ==> !Leaks(p.build.att(i)))
    && p.cleanup.list && p.cleanup.deleteApp && (forall i :: p.cleanup.get(i)) && (forall d :: AllWork(p.cleanup.destroy(d)))
  }

  /** One new deployment, of the preview of this pull request. */
  ghost predicate Deployed(w: World, v: World, parent: int, pr: nat) {
    exists i, child :: i !in w.t.deps && IsPreviewOf(w.t.apps, child, parent, pr) && SameWorld(w.(t := w.t.(deps := w.t.deps[i := child])), v)
  }

  /** What a spawn does to the world. */
  ghost predicate SpawnEffect(w: World, v: World, parent: int, cfg: Config, hostOf: (Str, nat, Str) -> Str, ev: Event, p: SpawnPlan)
    requires parent in w.t.apps
  {
    var row := ChildOf(w.t.apps[parent], parent, ev);
    match SpawnEnd(w, parent, cfg, hostOf, ev, p)
    case Ignored => v == w
    case Redeployed => Deployed(w, v, parent, ev.pr)
    case Spawned(child) => SpawnedFor(w, v, parent, child, row, hostOf, ev.fork, p.build)
    case _ => Undone(w, v, row, Begins(w.t, parent, cfg, ev, p), RollsBack(w.t, parent, p))
  }

  /** What a failed spawn leaves: the world as it was, unless the child came to exist and its rollback failed. */
  predicate Undone(w: World, v: World, row: App, begun: bool, clean: bool) {
    OnlyChildLeft(w, v, w.next, row) && ((begun && !clean) || SameWorld(w, v))
  }

  /** Every call a spawn may make works. */
  ghost predicate NoFault(p: SpawnPlan) {
    && p.lookup && p.again && p.redeploy && p.count && p.create
    && p.build.env.list && (forall k :: p.build.env.copy(k)) && p.build.listAtts && (forall i :: AttWorks(p.build.att(i)))
    && p.build.listDoms && (forall host, path :: p.build.addDom(host, path)) && p.build.listForURL && p.build.setURL && p.build.deploy
  }

  /** Without a fault, a spawn that finds no preview and has room for one succeeds if and only if the child's
      name, the names of its databases and its routes are free, no two of them the same. */
  lemma NoFaultSpawn(w: World, parent: int, cfg: Config, hostOf: (Str, nat, Str) -> Str, ev: Event, p: SpawnPlan)
    requires parent in w.t.apps && NoFault(p)
    requires !ForkRefused(w.t.apps[parent], cfg, ev) && NoPreview(w.t.apps, parent, ev.pr) && |Previews(w.t.apps, parent)| < cfg.maxConcurrent
    ensures SpawnEnd(w, parent, cfg, hostOf, ev, p) == (
      var row := ChildOf(w.t.apps[parent], parent, ev);
      if FreeName(w.t.apps, row.name) && DbNamesFree(w.t, parent, row) && RoutesFree(w.t, parent, hostOf, ev.pr) then Spawned(w.next) else Failed)
  {
  }

  /** An app with one database under two variables never gets a preview, whatever works. */
  lemma SharedDatabaseNeverSpawns(w: World, parent: int, cfg: Config, hostOf: (Str, nat, Str) -> Str, ev: Event, p: SpawnPlan, i: int, k: int)
    requires parent in w.t.apps && i in AttsOf(w.t.atts, parent) && k in AttsOf(w.t.atts, parent)
    requires i != k && w.t.atts[i].db == w.t.atts[k].db
    ensures !SpawnEnd(w, parent, cfg, hostOf, ev, p).Spawned?
  {
  }

  /** A lookup that fails never gives a pull request a second preview: the name of the first is taken. */
  lemma FailedLookupSpawnsNone(w: World, parent: int, cfg: Config, hostOf: (Str, nat, Str) -> Str, ev: Event, p: SpawnPlan)
    requires WorldOk(w) && parent in w.t.apps && !p.lookup && !NoPreview(w.t.apps, parent, ev.pr)
    ensures SpawnEnd(w, parent, cfg, hostOf, ev, p) in {Ignored, Failed} && !Begins(w.t, parent, cfg, ev, p)
  {
    var a :| a in w.t.apps && IsPreviewOf(w.t.apps, a, parent, ev.pr);
    assert NamedAfterParent(w.t.apps, a);
  }
}
