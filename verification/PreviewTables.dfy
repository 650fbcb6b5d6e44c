/** The tables a preview environment lives in, and the store operations that write them
    (internal/store/apps.go, databases.go, attachments.go, domains.go, env.go, deployments.go).

    One counter stands for the AUTOINCREMENT sequences: an id is never used twice. `io` says whether the
    database carries the call out; a failed or refused call leaves the tables as they were (each is one
    statement or one transaction). */
module PreviewTables {
  import opened Bytes
  import opened Seqs

  datatype PreviewStatus = NotPreview | PreviewBuilding | PreviewReady | PreviewFailed | TeardownFailed

  datatype Kind = Nixpacks | Dockerfile | Compose

  /** parent is 0 for an app that is nobody's preview. */
  datatype App = App(name: Str, kind: Kind, project: int, branch: Str, parent: int, pr: nat, ephemeral: bool, status: PreviewStatus)
  datatype Db = Db(name: Str, project: int)
  datatype Att = Att(app: int, db: int, envVar: Str)
  datatype Dom = Dom(app: int, host: Str, path: Str, service: Str, tls: bool)
  datatype Scope = Shared | ProdOnly | PreviewOnly
  datatype EnvKey = EnvKey(app: int, key: Str, scope: Scope)

  datatype Tables = Tables(apps: map<int, App>, dbs: map<int, Db>, atts: map<int, Att>,
    doms: map<int, Dom>, deps: map<int, int>, env: map<EnvKey, Str>)

  // -------------------------------------------------------------- invariants

  /** The foreign keys, with app_id and database_id. */
  predicate Linked(t: Tables) {
    && (forall i :: i in t.atts ==> t.atts[i].app in t.apps && t.atts[i].db in t.dbs)
    && (forall i :: i in t.doms ==> t.doms[i].app in t.apps)
    && (forall i :: i in t.deps ==> t.deps[i] in t.apps)
    && (forall k :: k in t.env ==> k.app in t.apps)
  }

  predicate Used(t: Tables, next: int) {
    && (forall i :: i in t.apps ==> 0 < i < next && t.apps[i].parent < next)
    && (forall i :: i in t.dbs ==> i < next)
    && (forall i :: i in t.atts ==> i < next)
    && (forall i :: i in t.doms ==> i < next)
    && (forall i :: i in t.deps ==> i < next)
  }

  /** core.PreviewAppName. */
  function PreviewName(parent: Str, pr: nat): Str { parent + Ascii("-pr-") + Decimal(pr) }

  /** Names are unique; a preview is called after its parent and its pull request, and has no previews. */
  predicate Named(apps: map<int, App>) {
    && (forall a, b :: a in apps && b in apps && a != b ==> apps[a].name != apps[b].name)
    && (forall a :: a in apps ==> NamedAfterParent(apps, a))
  }

  predicate NamedAfterParent(apps: map<int, App>, a: int)
    requires a in apps
  {
    && (apps[a].ephemeral <==> apps[a].parent != 0)
    && (apps[a].parent in apps ==>
        !apps[apps[a].parent].ephemeral && apps[a].name == PreviewName(apps[apps[a].parent].name, apps[a].pr))
  }

  predicate IsPreviewOf(apps: map<int, App>, a: int, parent: int, pr: nat) {
    a in apps && apps[a].parent == parent && apps[a].pr == pr
  }

  predicate NoPreview(apps: map<int, App>, parent: int, pr: nat) {
    forall a :: a in apps ==> !IsPreviewOf(apps, a, parent, pr)
  }

  /** At most one preview for a pull request of an app. */
  predicate OnePerPR(apps: map<int, App>) {
    forall a, b :: a in apps && b in apps && a != b && apps[a].parent == apps[b].parent != 0 ==> apps[a].pr != apps[b].pr
  }

  /** databases.name is UNIQUE. */
  predicate DistinctNames(dbs: map<int, Db>) {
    forall d, e :: d in dbs && e in dbs && d != e ==> dbs[d].name != dbs[e].name
  }

  /** UNIQUE(app_id, env_var). */
  predicate DistinctVars(atts: map<int, Att>) {
    forall i, k :: i in atts && k in atts && i != k && atts[i].app == atts[k].app ==> atts[i].envVar != atts[k].envVar
  }

  predicate Sound(t: Tables, next: int) {
    && next > 0 && Linked(t) && Used(t, next) && Named(t.apps) && OnePerPR(t.apps)
    && DistinctNames(t.dbs) && DistinctVars(t.atts)
  }

  predicate IsReal(apps: map<int, App>, a: int) { a in apps && !apps[a].ephemeral }

  predicate FreeName(apps: map<int, App>, name: Str) {
    forall a :: a in apps ==> apps[a].name != name
  }

  predicate FreeDbName(dbs: map<int, Db>, name: Str) {
    forall d :: d in dbs ==> dbs[d].name != name
  }

  /** DatabaseDeletable: no app is attached to it. */
  predicate Unattached(t: Tables, d: int) {
    forall i :: i in t.atts ==> t.atts[i].db != d
  }

  /** ListAttachments. */
  function AttsOf(atts: map<int, Att>, app: int): set<int> { set i | i in atts && atts[i].app == app }

  /** ListDomains. */
  function RowsOf(doms: map<int, Dom>, app: int): set<int> { set i | i in doms && doms[i].app == app }

  /** ListPreviewsForParent. */
  function Previews(apps: map<int, App>, parent: int): set<int> {
    set a | a in apps && apps[a].parent == parent
  }

  // ------------------------------------------------- the rows of the other apps

  function OtherAtts(m: map<int, Att>, app: int): map<int, Att> { map i | i in m && m[i].app != app :: m[i] }

  function OtherDoms(m: map<int, Dom>, app: int): map<int, Dom> { map i | i in m && m[i].app != app :: m[i] }

  function OtherDeps(m: map<int, int>, app: int): map<int, int> { map i | i in m && m[i] != app :: m[i] }

  function OtherEnv(m: map<EnvKey, Str>, app: int): map<EnvKey, Str> { map k | k in m && k.app != app :: m[k] }

  /** DeleteApp: the app's rows in every table, and the app. */
  function WithoutApp(t: Tables, app: int): Tables {
    Tables(t.apps - {app}, t.dbs, OtherAtts(t.atts, app), OtherDoms(t.doms, app), OtherDeps(t.deps, app), OtherEnv(t.env, app))
  }

  /** Deleting an app that has no rows changes nothing. */
  lemma NothingToDelete(t: Tables, app: int)
    requires Linked(t) && app !in t.apps
    ensures WithoutApp(t, app) == t
  {
    assert t.apps - {app} == t.apps;
    assert forall i :: i in t.atts ==> t.atts[i].app != app;
    assert OtherAtts(t.atts, app) == t.atts;
    assert forall i :: i in t.doms ==> t.doms[i].app != app;
    assert OtherDoms(t.doms, app) == t.doms;
    assert forall i :: i in t.deps ==> t.deps[i] != app;
    assert OtherDeps(t.deps, app) == t.deps;
    assert OtherEnv(t.env, app) == t.env;
  }

  /** What stays when an app is deleted: exactly the rows that are not its own. */
  lemma WithoutAppExactly(t: Tables, app: int)
    ensures var u := WithoutApp(t, app);
      && u.dbs == t.dbs
      && (forall a :: (a in u.apps <==> a in t.apps && a != app) && (a in u.apps ==> u.apps[a] == t.apps[a]))
      && (forall i :: (i in u.atts <==> i in t.atts && t.atts[i].app != app) && (i in u.atts ==> u.atts[i] == t.atts[i]))
      && (forall i :: (i in u.doms <==> i in t.doms && t.doms[i].app != app) && (i in u.doms ==> u.doms[i] == t.doms[i]))
      && (forall i :: (i in u.deps <==> i in t.deps && t.deps[i] != app) && (i in u.deps ==> u.deps[i] == t.deps[i]))
      && (forall k :: (k in u.env <==> k in t.env && k.app != app) && (k in u.env ==> u.env[k] == t.env[k]))
  {
  }

  lemma DeletionIsSound(t: Tables, next: int, app: int)
    requires Sound(t, next)
    ensures Sound(WithoutApp(t, app), next)
  {
    var u := WithoutApp(t, app);
    forall a | a in u.apps ensures NamedAfterParent(u.apps, a) {
      assert NamedAfterParent(t.apps, a);
    }
  }

  /** A preview whose name is free is the first for its pull request. */
  lemma CreationIsSound(t: Tables, next: int, child: App)
    requires Sound(t, next)
    requires FreeName(t.apps, child.name)
    requires child.ephemeral && IsReal(t.apps, child.parent) && child.name == PreviewName(t.apps[child.parent].name, child.pr)
    ensures Sound(t.(apps := t.apps[next := child]), next + 1)
  {
    var apps := t.apps[next := child];
    forall a | a in apps ensures NamedAfterParent(apps, a) {
      if a != next { assert NamedAfterParent(t.apps, a); }
    }
    forall a, b | a in apps && b in apps && a != b && apps[a].parent == apps[b].parent != 0
      ensures apps[a].pr != apps[b].pr
    {
      if a == next { assert NamedAfterParent(t.apps, b); }
      if b == next { assert NamedAfterParent(t.apps, a); }
    }
  }

  // -------------------------------------------------------------------- store

  function Lower(s: Str): Str {
    if s == [] then [] else [if 65 <= s[0] <= 90 then s[0] + 32 else s[0]] + Lower(s[1..])
  }

  /** lower() of SQLite changes the ASCII letters, and nothing else. */
  lemma {:induction false} LowerExactly(s: Str)
    ensures |Lower(s)| == |s|
    ensures forall i :: 0 <= i < |s| ==> Lower(s)[i] as char == if 'A' <= s[i] as char <= 'Z' then ((s[i] as char) - 'A' + 'a') else s[i] as char
  {
    if s != [] { LowerExactly(s[1..]); }
  }

  datatype AddOutcome = Added | RouteTaken | Duplicate | Broken

  predicate SameRoute(d: Dom, host: Str, path: Str) {
    Lower(d.host) == Lower(host) && d.path == path
  }

  /** Another app already routes this host, whatever its case, and path. */
  predicate Taken(t: Tables, d: Dom) {
    exists i :: i in t.doms && t.doms[i].app != d.app && SameRoute(t.doms[i], d.host, d.path)
  }

  /** Two texts that differ at most in the case of ASCII letters. */
  predicate SameButCase(a: Str, b: Str) {
    |a| == |b| && forall i :: 0 <= i < |a| ==> SameLetter(a[i] as char, b[i] as char)
  }

  predicate SameLetter(a: char, b: char) {
    a == b || ('A' <= a <= 'Z' && b == a - 'A' + 'a') || ('A' <= b <= 'Z' && a == b - 'A' + 'a')
  }

  lemma SameHostExactly(a: Str, b: Str)
    ensures Lower(a) == Lower(b) <==> SameButCase(a, b)
  {
    LowerExactly(a);
    LowerExactly(b);
    if SameButCase(a, b) {
      forall i | 0 <= i < |a| ensures Lower(a)[i] == Lower(b)[i] { assert SameLetter(a[i] as char, b[i] as char); }
    }
    if Lower(a) == Lower(b) {
      forall i | 0 <= i < |a| ensures SameLetter(a[i] as char, b[i] as char) { assert Lower(a)[i] == Lower(b)[i]; }
    }
  }

  /** When a route is taken: another app has the host, whatever its case, and the same path. */
  lemma TakenExactly(t: Tables, d: Dom)
    ensures Taken(t, d) <==> exists i :: i in t.doms && t.doms[i].app != d.app && SameButCase(t.doms[i].host, d.host) && t.doms[i].path == d.path
  {
    forall i | i in t.doms ensures SameRoute(t.doms[i], d.host, d.path) <==> SameButCase(t.doms[i].host, d.host) && t.doms[i].path == d.path {
      SameHostExactly(t.doms[i].host, d.host);
    }
  }

  /** UNIQUE(app_id, host, path). */
  predicate HasRoute(t: Tables, app: int, host: Str, path: Str) {
    exists i :: i in t.doms && t.doms[i].app == app && t.doms[i].host == host && t.doms[i].path == path
  }

  /** ORDER BY host, path. */
  predicate RouteAtMost(a: Dom, b: Dom) {
    CompareBytes(a.host, b.host) < 0 || (a.host == b.host && CompareBytes(a.path, b.path) <= 0)
  }

  /** The first route ListDomains gives. */
  predicate IsFirst(doms: map<int, Dom>, app: int, i: int) {
    i in doms && doms[i].app == app && forall k :: k in doms && doms[k].app == app ==> RouteAtMost(doms[i], doms[k])
  }

  /** The order of the listing, byte by byte. */
  lemma RouteOrderExactly(a: Dom, b: Dom)
    ensures RouteAtMost(a, b) <==>
      || (exists k :: SplitsBelow(a.host, b.host, k))
      || (a.host == b.host && (a.path == b.path || exists k :: SplitsBelow(a.path, b.path, k)))
  {
    CompareBytesExactly(a.host, b.host);
    CompareBytesExactly(a.path, b.path);
    CompareBytesOrder(a.path, b.path);
  }

  lemma AtMostTransitive(a: Dom, b: Dom, c: Dom)
    requires RouteAtMost(a, b) && RouteAtMost(b, c)
    ensures RouteAtMost(a, c)
  {
    CompareBytesOrder(a.host, b.host);
    CompareBytesOrder(b.host, c.host);
    CompareBytesOrder(a.host, c.host);
    CompareBytesTransitive(a.host, b.host, c.host);
    if a.host == b.host == c.host { CompareBytesTransitive(a.path, b.path, c.path); }
  }

  lemma AtMostTotal(a: Dom, b: Dom)
    ensures RouteAtMost(a, b) || RouteAtMost(b, a)
    ensures RouteAtMost(a, a)
  {
    CompareBytesOrder(a.host, b.host);
    CompareBytesOrder(a.path, b.path);
    CompareBytesOrder(a.path, a.path);
  }

  class Store {
    var t: Tables
    var next: int

    constructor (t: Tables, next: int)
      ensures this.t == t && this.next == next
    {
      this.t, this.next := t, next;
    }

    predicate Valid()
      reads this
    {
      Sound(t, next)
    }

    /** CreateApp of a preview: refused when the name is taken. */
    method CreateApp(child: App, io: bool) returns (id: Option<int>)
      requires Valid() && child.ephemeral && IsReal(t.apps, child.parent)
      requires child.name == PreviewName(t.apps[child.parent].name, child.pr)
      modifies this
      ensures Valid() && id == if io && FreeName(old(t).apps, child.name) then Some(old(next)) else None
      ensures id.None? ==> t == old(t) && next == old(next)
      ensures id.Some? ==> t == old(t).(apps := old(t).apps[id.value := child]) && id.value !in old(t).apps
    {
      if !io || exists a :: a in t.apps && t.apps[a].name == child.name { return None; }
      CreationIsSound(t, next, child);
      id := Some(next);
      t, next := t.(apps := t.apps[next := child]), next + 1;
    }

    method DeleteApp(id: int, io: bool) returns (ok: bool)
      requires Valid()
      modifies `t
      ensures Valid() && ok == io && t == if io then WithoutApp(old(t), id) else old(t)
    {
      ok := io;
      if ok {
        DeletionIsSound(t, next, id);
        t := WithoutApp(t, id);
      }
    }

    method SetPreviewStatus(id: int, status: PreviewStatus, io: bool) returns (ok: bool)
      requires Valid()
      modifies `t
      ensures Valid() && ok == io && t == if io then WithStatus(old(t), id, status) else old(t)
    {
      ok := io;
      if ok {
        StatusIsSound(t, next, id, status);
        t := WithStatus(t, id, status);
      }
    }

    /** CreateDatabase: refused when the name is taken. */
    method CreateDatabase(d: Db, io: bool) returns (id: Option<int>)
      requires Valid()
      modifies this
      ensures Valid() && id == if io && FreeDbName(old(t).dbs, d.name) then Some(old(next)) else None
      ensures id.None? ==> t == old(t) && next == old(next)
      ensures id.Some? ==> id.value !in old(t).dbs && t == old(t).(dbs := old(t).dbs[id.value := d])
    {
      if !io || exists i :: i in t.dbs && t.dbs[i].name == d.name { return None; }
      id := Some(next);
      t, next := t.(dbs := t.dbs[next := d]), next + 1;
    }

    /** DeleteDatabase: refused while an app is attached. */
    method DeleteDatabase(id: int, io: bool) returns (ok: bool)
      requires Valid()
      modifies `t
      ensures Valid() && ok == (io && Unattached(old(t), id))
      ensures t == if ok then old(t).(dbs := old(t).dbs - {id}) else old(t)
    {
      ok := io && Unattached(t, id);
      if ok { t := t.(dbs := t.dbs - {id}); }
    }

    /** AttachDatabase: refused across projects, and under a variable the app already uses. */
    method AttachDatabase(app: int, db: int, envVar: Str, io: bool) returns (ok: bool)
      requires Valid()
      modifies this
      ensures Valid()
      ensures ok <==> io && CanAttach(old(t), app, db, envVar)
      ensures !ok ==> t == old(t) && next == old(next)
      ensures ok ==> old(next) !in old(t).atts && t == old(t).(atts := old(t).atts[old(next) := Att(app, db, envVar)])
    {
      ok := io && app in t.apps && db in t.dbs && t.apps[app].project == t.dbs[db].project;
      ok := ok && !exists i :: i in t.atts && t.atts[i].app == app && t.atts[i].envVar == envVar;
      if ok { t, next := t.(atts := t.atts[next := Att(app, db, envVar)]), next + 1; }
    }

    /** AddDomain: refused when another app routes it, or the app itself. */
    method AddDomain(d: Dom, io: bool) returns (outcome: AddOutcome)
      requires Valid() && d.app in t.apps
      modifies this
      ensures Valid()
      ensures outcome == if !io then Broken else if Taken(old(t), d) then RouteTaken
        else if exists i :: i in old(t).doms && old(t).doms[i].app == d.app && old(t).doms[i].host == d.host && old(t).doms[i].path == d.path then Duplicate
        else Added
      ensures !outcome.Added? ==> t == old(t) && next == old(next)
      ensures outcome.Added? ==> old(next) !in old(t).doms && t == old(t).(doms := old(t).doms[old(next) := d])
    {
      if !io { return Broken; }
      if Taken(t, d) { return RouteTaken; }
      if HasRoute(t, d.app, d.host, d.path) { return Duplicate; }
      outcome := Added;
      t, next := t.(doms := t.doms[next := d]), next + 1;
    }

    method CreateDeployment(app: int, io: bool) returns (ok: bool)
      requires Valid() && app in t.apps
      modifies this
      ensures Valid() && ok == io
      ensures !ok ==> t == old(t) && next == old(next)
      ensures ok ==> old(next) !in old(t).deps && t == old(t).(deps := old(t).deps[old(next) := app])
    {
      ok := io;
      if ok { t, next := t.(deps := t.deps[next := app]), next + 1; }
    }

    method SetEnvScoped(k: EnvKey, value: Str, io: bool) returns (ok: bool)
      requires Valid() && k.app in t.apps
      modifies `t
      ensures Valid() && ok == io && t == if io then old(t).(env := old(t).env[k := value]) else old(t)
    {
      ok := io;
      if ok { t := t.(env := t.env[k := value]); }
    }

    /** GetPreviewByPR; None when there is none, or when the read fails. */
    method GetPreviewByPR(parent: int, pr: nat, io: bool) returns (child: Option<int>)
      ensures child.Some? <==> io && !NoPreview(t.apps, parent, pr)
      ensures child.Some? ==> IsPreviewOf(t.apps, child.value, parent, pr)
    {
      if !io || !exists a :: a in t.apps && IsPreviewOf(t.apps, a, parent, pr) { return None; }
      var a :| a in t.apps && IsPreviewOf(t.apps, a, parent, pr);
      child := Some(a);
    }

    /** The first row of ListDomains, if the app has any. */
    method FirstDomain(app: int) returns (first: Option<int>)
      ensures first.None? <==> RowsOf(t.doms, app) == {}
      ensures first.Some? ==> IsFirst(t.doms, app, first.value)
    {
      var rest := RowsOf(t.doms, app);
      ghost var done: set<int> := {};
      first := None;
      while rest != {}
        invariant RowsOf(t.doms, app) == done + rest && (first.None? <==> done == {})
        invariant first.Some? ==> first.value in done && forall k :: k in done ==> RouteAtMost(t.doms[first.value], t.doms[k])
      {
        var i := Pick(rest);
        rest, done := rest - {i}, done + {i};
        AtMostTotal(t.doms[i], t.doms[if first.Some? then first.value else i]);
        if first.None? || !RouteAtMost(t.doms[first.value], t.doms[i]) {
          if first.Some? { NewFirst(t.doms, done - {i}, first.value, i); }
          first := Some(i);
        }
      }
      assert forall k :: k in t.doms && t.doms[k].app == app ==> k in done;
    }
  }

  lemma NewFirst(doms: map<int, Dom>, done: set<int>, first: int, i: int)
    requires first in doms && i in doms && done <= doms.Keys && RouteAtMost(doms[i], doms[first])
    requires forall k :: k in done ==> RouteAtMost(doms[first], doms[k])
    ensures forall k :: k in done ==> RouteAtMost(doms[i], doms[k])
  {
    forall k | k in done ensures RouteAtMost(doms[i], doms[k]) {
      AtMostTransitive(doms[i], doms[first], doms[k]);
    }
  }

  /** What AttachDatabase asks of the tables. */
  predicate CanAttach(t: Tables, app: int, db: int, envVar: Str) {
    && app in t.apps && db in t.dbs && t.apps[app].project == t.dbs[db].project
    && forall i :: i in t.atts && t.atts[i].app == app ==> t.atts[i].envVar != envVar
  }

  function WithStatus(t: Tables, id: int, status: PreviewStatus): Tables {
    if id in t.apps then t.(apps := t.apps[id := t.apps[id].(status := status)]) else t
  }

  lemma StatusIsSound(t: Tables, next: int, id: int, status: PreviewStatus)
    requires Sound(t, next)
    ensures Sound(WithStatus(t, id, status), next)
  {
    var apps := WithStatus(t, id, status).apps;
    forall a | a in apps ensures NamedAfterParent(apps, a) {
      assert NamedAfterParent(t.apps, a);
    }
  }
}
