/** Image retention: which of an app's images go, and what the host and the rows agree on
    (internal/prune/pruner.go, with MarkImagePruned from internal/store/deployments.go).

    PruneApp is one step as far as CreateRollback is concerned: a rollback enqueued between its read and
    its removals is not seen. Removing an image that is not there succeeds; a refused removal leaves it. */
module Prune {
  import opened Bytes
  import opened Seqs
  import opened Status
  import opened Deployments

  // ------------------------------------------------------------ what must be kept

  /** The row bears an image that is still on the host. */
  predicate Bears(r: Row) { r.image != [] && !r.pruned }

  /** The distinct unpruned images, in the order of their first row. `deps` is newest first. */
  function Distinct(deps: seq<Row>): seq<Str> {
    if deps == [] then []
    else
      var init, r := Distinct(deps[..|deps| - 1]), deps[|deps| - 1];
      if Bears(r) && r.image !in init then init + [r.image] else init
  }

  /** The newest running row that bears an image. */
  predicate NewestRunning(deps: seq<Row>, i: int) {
    && 0 <= i < |deps| && Bears(deps[i]) && deps[i].status == Running
    && forall j :: 0 <= j < i ==> !(Bears(deps[j]) && deps[j].status == Running)
  }

  /** Rows still in flight and the live one keep their images whatever their age. */
  predicate Protects(deps: seq<Row>, i: int) {
    0 <= i < |deps| && Bears(deps[i]) && (!IsTerminal(deps[i].status) || NewestRunning(deps, i))
  }

  /** The images of the rows among the first n that protect theirs. */
  function Protected(deps: seq<Row>, n: nat): set<Str>
    requires n <= |deps|
  {
    set i | 0 <= i < n && Protects(deps, i) :: deps[i].image
  }

  function Without(tags: seq<Str>, gone: set<Str>): (r: seq<Str>)
    ensures forall t :: t in r <==> t in tags && t !in gone
  {
    if tags == [] then []
    else
      var init, t := tags[..|tags| - 1], tags[|tags| - 1];
      assert tags == init + [t];
      if t in gone then Without(init, gone) else Without(init, gone) + [t]
  }

  /** All but the newest `keep`. */
  function Older(tags: seq<Str>, keep: nat): seq<Str> {
    tags[if keep <= |tags| then keep else |tags|..]
  }

  /** Everything outside the newest `keep` distinct images, except what is protected. */
  function Candidates(deps: seq<Row>, keep: nat): seq<Str> {
    var d := Distinct(deps);
    Without(Older(d, keep), Protected(deps, |deps|))
  }

  /** The first row that bears the image. */
  predicate FirstBearer(deps: seq<Row>, tag: Str, i: int) {
    0 <= i < |deps| && Bears(deps[i]) && deps[i].image == tag
    && forall j :: 0 <= j < i ==> !(Bears(deps[j]) && deps[j].image == tag)
  }

  /** If i and j bear the a-th and b-th distinct images first, they come in the order of a and b. */
  predicate BearersInOrder(deps: seq<Row>, a: int, b: int, i: int, j: int)
    requires 0 <= a < b < |Distinct(deps)|
  {
    FirstBearer(deps, Distinct(deps)[a], i) && FirstBearer(deps, Distinct(deps)[b], j) ==> i < j
  }

  /** Distinct lists every image some row bears, once, in the order in which their newest rows come. */
  lemma {:induction false} DistinctMeaning(deps: seq<Row>)
    ensures NoDuplicates(Distinct(deps))
    ensures forall tag :: tag in Distinct(deps) <==> exists i :: FirstBearer(deps, tag, i)
    ensures forall a, b, i, j :: 0 <= a < b < |Distinct(deps)| ==> BearersInOrder(deps, a, b, i, j)
  {
    if deps != [] {
      var n := |deps| - 1;
      var before, r := deps[..n], deps[n];
      DistinctMeaning(before);
      forall tag, i ensures FirstBearer(before, tag, i) ==> FirstBearer(deps, tag, i) {}
      forall tag, i ensures FirstBearer(deps, tag, i) ==> FirstBearer(before, tag, i) || (i == n && tag == r.image && Bears(r)) {}
      if Bears(r) && r.image !in Distinct(before) {
        FirstBearerHere(deps, before, r.image);
      }
      forall a, b, i, j | 0 <= a < b < |Distinct(deps)| ensures BearersInOrder(deps, a, b, i, j) {
        if b < |Distinct(before)| { assert BearersInOrder(before, a, b, i, j); }
      }
    }
  }

  lemma FirstBearerHere(deps: seq<Row>, before: seq<Row>, tag: Str)
    requires deps != [] && before == deps[..|deps| - 1]
    requires Bears(deps[|deps| - 1]) && deps[|deps| - 1].image == tag
    requires forall i :: !FirstBearer(before, tag, i)
    ensures FirstBearer(deps, tag, |deps| - 1)
  {
    NoBearer(before, tag, |before|);
    forall j | 0 <= j < |before| ensures !(Bears(deps[j]) && deps[j].image == tag) {
      assert deps[j] == before[j];
    }
  }

  lemma {:induction false} NoBearer(deps: seq<Row>, tag: Str, n: nat)
    requires n <= |deps| && forall i :: !FirstBearer(deps, tag, i)
    ensures forall j :: 0 <= j < n ==> !(Bears(deps[j]) && deps[j].image == tag)
  {
    if n > 0 {
      NoBearer(deps, tag, n - 1);
      assert !FirstBearer(deps, tag, n - 1);
    }
  }

  lemma {:induction false} WithoutKeepsOrder(tags: seq<Str>, gone: set<Str>)
    requires NoDuplicates(tags)
    ensures NoDuplicates(Without(tags, gone))
  {
    if tags != [] { WithoutKeepsOrder(tags[..|tags| - 1], gone); }
  }

  /** The tag comes after the first `keep`. */
  ghost predicate Beyond(d: seq<Str>, keep: nat, tag: Str) { exists k :: keep <= k < |d| && d[k] == tag }

  /** Some row protects the image. */
  ghost predicate Guarded(deps: seq<Row>, tag: Str) { exists i :: Protects(deps, i) && deps[i].image == tag }

  /** The candidates, without duplicates, are exactly the unpruned images that are neither among the
      newest `keep` distinct ones nor borne by a row in flight or the newest running one. */
  lemma CandidatesMeaning(deps: seq<Row>, keep: nat)
    ensures NoDuplicates(Candidates(deps, keep))
    ensures forall tag :: tag in Candidates(deps, keep) <==>
      Beyond(Distinct(deps), keep, tag) && !Guarded(deps, tag)
  {
    var d, guard := Distinct(deps), Protected(deps, |deps|);
    DistinctMeaning(deps);
    AfterKeep(d, keep);
    WithoutKeepsOrder(Older(d, keep), guard);
    forall tag ensures tag in guard <==> Guarded(deps, tag) {
      ProtectedMeaning(deps, tag);
    }
  }

  lemma ProtectedMeaning(deps: seq<Row>, tag: Str)
    ensures tag in Protected(deps, |deps|) <==> Guarded(deps, tag)
  {
    if i :| Protects(deps, i) && deps[i].image == tag { assert 0 <= i < |deps|; }
  }

  lemma AfterKeep(d: seq<Str>, keep: nat)
    requires NoDuplicates(d)
    ensures NoDuplicates(Older(d, keep))
    ensures forall tag :: tag in Older(d, keep) <==> Beyond(d, keep, tag)
  {
    var k := if keep <= |d| then keep else |d|;
    assert forall i :: 0 <= i < |d[k..]| ==> d[k..][i] == d[k + i];
    forall tag ensures tag in d[k..] <==> Beyond(d, keep, tag) {
      if j :| keep <= j < |d| && d[j] == tag { assert d[k..][j - k] == tag; }
    }
  }

  // ------------------------------------------------------------------- the scan

  /** pruneCandidates: one pass over the rows, one over the distinct images. */
  method PruneCandidates(deps: seq<Row>, keep: nat) returns (remove: seq<Str>)
    ensures remove == Candidates(deps, keep)
  {
    var protected: set<Str> := {};
    var distinct: seq<Str> := [];
    var liveSeen := false;
    for i := 0 to |deps|
      invariant distinct == Distinct(deps[..i])
      invariant protected == Protected(deps, i)
      invariant liveSeen <==> exists j :: 0 <= j < i && Bears(deps[j]) && deps[j].status == Running
    {
      var d := deps[i];
      assert deps[..i + 1][..i] == deps[..i];
      ProtectedNext(deps, i);
      if d.image == [] || d.pruned { continue; }
      if !IsTerminal(d.status) { protected := protected + {d.image}; }
      if !liveSeen && d.status == Running {
        protected := protected + {d.image};
        liveSeen := true;
      }
      if d.image !in distinct { distinct := distinct + [d.image]; }
    }
    assert deps[..|deps|] == deps;
    remove := Outside(distinct, keep, protected);
  }

  /** The second loop of pruneCandidates. */
  method Outside(distinct: seq<Str>, keep: nat, protected: set<Str>) returns (remove: seq<Str>)
    ensures remove == Without(Older(distinct, keep), protected)
  {
    remove := [];
    ghost var from := if keep <= |distinct| then keep else |distinct|;
    for i := 0 to |distinct|
      invariant remove == Without(distinct[from..if i < from then from else i], protected)
    {
      if i < keep || distinct[i] in protected {
        if i >= from { assert distinct[from..i + 1][..i - from] == distinct[from..i]; }
        continue;
      }
      assert distinct[from..i + 1][..i - from] == distinct[from..i];
      remove := remove + [distinct[i]];
    }
    assert distinct[from..|distinct|] == distinct[from..];
  }

  lemma ProtectedNext(deps: seq<Row>, i: nat)
    requires i < |deps|
    ensures Protected(deps, i + 1) == Protected(deps, i) + if Protects(deps, i) then {deps[i].image} else {}
  {
  }

  // ------------------------------------------------------------ the effect of a pass

  /** The rows of an app, newest first: ListDeploymentsForApp. */
  function AppRows(t: Table, app: int): seq<Row> {
    if t == [] then []
    else if t[|t| - 1].app == app then [t[|t| - 1]] + AppRows(t[..|t| - 1], app)
    else AppRows(t[..|t| - 1], app)
  }

  /** The app's rows come by falling id, each once. */
  ghost predicate NewestFirst(t: Table, app: int, deps: seq<Row>, ids: seq<nat>) {
    RowsAt(t, app, deps, ids) && Falling(ids) && forall i :: 0 <= i < |t| && t[i].app == app ==> i in ids
  }

  predicate RowsAt(t: Table, app: int, deps: seq<Row>, ids: seq<nat>) {
    |ids| == |deps| && forall k :: 0 <= k < |ids| ==> ids[k] < |t| && t[ids[k]].app == app && deps[k] == t[ids[k]]
  }

  predicate Falling(ids: seq<nat>) { forall j, k :: 0 <= j < k < |ids| ==> ids[j] > ids[k] }

  lemma {:induction false} AppRowsNewestFirst(t: Table, app: int) returns (ids: seq<nat>)
    ensures NewestFirst(t, app, AppRows(t, app), ids)
  {
    ids := [];
    if t != [] {
      var n := |t| - 1;
      ids := AppRowsNewestFirst(t[..n], app);
      if t[n].app == app {
        AddRow(t, app, AppRows(t[..n], app), ids);
        ids := [n] + ids;
      } else {
        SkipRow(t, app, AppRows(t[..n], app), ids);
      }
    }
  }

  lemma SkipRow(t: Table, app: int, deps: seq<Row>, ids: seq<nat>)
    requires t != [] && NewestFirst(t[..|t| - 1], app, deps, ids) && t[|t| - 1].app != app
    ensures NewestFirst(t, app, deps, ids)
  {
    forall i | 0 <= i < |t| && t[i].app == app ensures i in ids { assert t[..|t| - 1][i] == t[i]; }
  }

  lemma AddRow(t: Table, app: int, deps: seq<Row>, ids: seq<nat>)
    requires t != [] && NewestFirst(t[..|t| - 1], app, deps, ids) && t[|t| - 1].app == app
    ensures NewestFirst(t, app, [t[|t| - 1]] + deps, [|t| - 1] + ids)
  {
    var n := |t| - 1;
    var all := [n as nat] + ids;
    Prepended(n, ids);
    RowsStay(t, app, deps, ids);
    forall i | 0 <= i < |t| && t[i].app == app ensures i in all {
      if i < n { assert t[..n][i] == t[i]; assert i in ids; } else { assert all[0] == i; }
    }
  }

  lemma RowsStay(t: Table, app: int, deps: seq<Row>, ids: seq<nat>)
    requires t != [] && RowsAt(t[..|t| - 1], app, deps, ids) && t[|t| - 1].app == app
    ensures RowsAt(t, app, [t[|t| - 1]] + deps, [|t| - 1] + ids)
  {
    assert forall k :: 0 <= k < |ids| ==> t[..|t| - 1][ids[k]] == t[ids[k]];
  }

  lemma Prepended(n: nat, ids: seq<nat>)
    requires Falling(ids) && forall k :: 0 <= k < |ids| ==> ids[k] < n
    ensures Falling([n] + ids) && forall i :: i in ids ==> i in [n] + ids
  {
  }

  /** Every row whose image is gone is flagged. */
  function Flagged(t: seq<Row>, gone: set<Str>): (u: seq<Row>)
    ensures |u| == |t|
    ensures forall i :: 0 <= i < |t| ==> u[i] == t[i].(pruned := t[i].pruned || t[i].image in gone)
  {
    seq(|t|, i requires 0 <= i < |t| => t[i].(pruned := t[i].pruned || t[i].image in gone))
  }

  /** An unpruned row's image is on the host. */
  predicate HostAgrees(t: Table, images: set<Str>) {
    forall i :: 0 <= i < |t| && Bears(t[i]) ==> t[i].image in images
  }

  /** Whichever removals fail, what is flagged is what is gone, on every row that shares the image. */
  lemma HostStillAgrees(t: Table, images: set<Str>, gone: set<Str>)
    requires HostAgrees(t, images)
    ensures HostAgrees(Flagged(t, gone), images - gone)
  {
  }

  lemma {:induction false} AppRowsFromTable(t: Table, app: int)
    ensures forall r :: r in AppRows(t, app) ==> r in t
  {
    if t != [] { AppRowsFromTable(t[..|t| - 1], app); }
  }

  lemma {:induction false} AppRowsFlagged(t: Table, app: int, gone: set<Str>)
    ensures AppRows(Flagged(t, gone), app) == Flagged(AppRows(t, app), gone)
  {
    if t != [] {
      var n := |t| - 1;
      assert Flagged(t, gone)[..n] == Flagged(t[..n], gone);
      AppRowsFlagged(t[..n], app, gone);
    }
  }

  lemma {:induction false} DistinctFlagged(deps: seq<Row>, gone: set<Str>)
    ensures Distinct(Flagged(deps, gone)) == Without(Distinct(deps), gone)
  {
    if deps != [] {
      var n := |deps| - 1;
      assert Flagged(deps, gone)[..n] == Flagged(deps[..n], gone);
      DistinctFlagged(deps[..n], gone);
      var init := Distinct(deps[..n]);
      assert (init + [deps[n].image])[..|init|] == init;
    }
  }

  /** Flagging no protected image leaves the protected set as it is. */
  lemma ProtectedFlagged(deps: seq<Row>, gone: set<Str>)
    requires gone !! Protected(deps, |deps|)
    ensures Protected(Flagged(deps, gone), |deps|) == Protected(deps, |deps|)
  {
    var f := Flagged(deps, gone);
    forall i ensures Protects(deps, i) ==> Protects(f, i) && f[i].image == deps[i].image {
      if Protects(deps, i) { assert deps[i].image in Protected(deps, |deps|); }
    }
    forall i ensures Protects(f, i) ==> Protects(deps, i) {
      if Protects(f, i) && !Protects(deps, i) {
        FirstRunning(deps, i);
      }
    }
  }

  /** If some row at or before i runs and bears an image, then a newest such row exists, and it is protected. */
  lemma {:induction false} FirstRunning(deps: seq<Row>, i: int)
    requires 0 <= i < |deps| && Bears(deps[i]) && deps[i].status == Running
    ensures exists j :: 0 <= j <= i && NewestRunning(deps, j) && deps[j].image in Protected(deps, |deps|)
    decreases i
  {
    if j :| 0 <= j < i && Bears(deps[j]) && deps[j].status == Running {
      FirstRunning(deps, j);
    } else {
      assert Protects(deps, i);
    }
  }

  lemma {:induction false} WithoutConcat(a: seq<Str>, b: seq<Str>, gone: set<Str>)
    ensures Without(a + b, gone) == Without(a, gone) + Without(b, gone)
  {
    if b == [] {
      assert a + b == a;
    } else {
      var n := |b| - 1;
      assert (a + b)[..|a + b| - 1] == a + b[..n];
      WithoutConcat(a, b[..n], gone);
    }
  }

  lemma {:induction false} WithoutDisjoint(a: seq<Str>, gone: set<Str>)
    requires forall t :: t in a ==> t !in gone
    ensures Without(a, gone) == a
  {
    if a != [] {
      assert a == a[..|a| - 1] + [a[|a| - 1]];
      WithoutDisjoint(a[..|a| - 1], gone);
    }
  }

  lemma {:induction false} WithoutTwice(a: seq<Str>, x: set<Str>, y: set<Str>)
    ensures Without(Without(a, x), y) == Without(Without(a, y), x)
  {
    if a != [] {
      var init, t := a[..|a| - 1], a[|a| - 1];
      WithoutTwice(init, x, y);
      if t !in x { assert (Without(init, x) + [t])[..|Without(init, x)|] == Without(init, x); }
      if t !in y { assert (Without(init, y) + [t])[..|Without(init, y)|] == Without(init, y); }
    }
  }

  /** After a pass that removed some of the candidates, the candidates are the ones it did not remove:
      after a fully successful pass a second one removes nothing, and a failed removal is retried. */
  lemma NextPass(deps: seq<Row>, keep: nat, gone: set<Str>)
    requires forall t :: t in gone ==> t in Candidates(deps, keep)
    ensures Candidates(Flagged(deps, gone), keep) == Without(Candidates(deps, keep), gone)
  {
    var d, guard := Distinct(deps), Protected(deps, |deps|);
    var k := if keep <= |d| then keep else |d|;
    var window, rest := d[..k], d[k..];
    assert rest == Older(d, keep);
    DistinctFlagged(deps, gone);
    ProtectedFlagged(deps, gone);
    DistinctMeaning(deps);
    assert d == window + rest;
    SplitApart(d, k);
    WithoutConcat(window, rest, gone);
    WithoutDisjoint(window, gone);
    assert Distinct(Flagged(deps, gone)) == window + Without(rest, gone);
    if keep > |d| { assert rest == []; }
    assert (window + Without(rest, gone))[k..] == Without(rest, gone);
    WithoutTwice(rest, gone, guard);
  }

  // ------------------------------------------------------- the pass on the table's ids

  /** Row i of the app bears the image, and no younger row of the app does. */
  predicate NewestBearer(t: Table, app: int, tag: Str, i: int) {
    && 0 <= i < |t| && t[i].app == app && t[i].image == tag && tag != [] && !t[i].pruned
    && forall j :: i < j < |t| && t[j].app == app && !t[j].pruned ==> t[j].image != tag
  }

  /** The images that unpruned rows of the app younger than row i bear. */
  function Younger(t: Table, app: int, i: int): set<Str> {
    set j | 0 <= j < |t| && i < j && t[j].app == app && t[j].image != [] && !t[j].pruned :: t[j].image
  }

  /** At least `keep` images of the app are younger. */
  ghost predicate OutOfWindow(t: Table, app: int, keep: nat, tag: Str) {
    exists i :: NewestBearer(t, app, tag, i) && |Younger(t, app, i)| >= keep
  }

  /** A row of the app that is queued or in a pipeline, or its youngest running one with an image, bears it. */
  ghost predicate Needed(t: Table, app: int, tag: Str) {
    exists i :: NeededBy(t, app, tag, i)
  }

  predicate NeededBy(t: Table, app: int, tag: Str, i: int) {
    && 0 <= i < |t| && t[i].app == app && t[i].image == tag && tag != [] && !t[i].pruned
    && (t[i].status in {Queued, Building, Deploying} || YoungestRunning(t, app, i))
  }

  ghost predicate Outdated(t: Table, app: int, keep: nat, tag: Str) {
    OutOfWindow(t, app, keep, tag) && !Needed(t, app, tag)
  }

  predicate YoungestRunning(t: Table, app: int, i: int) {
    && 0 <= i < |t| && t[i].status == Running
    && forall j :: i < j < |t| && t[j].app == app && t[j].image != [] && !t[j].pruned ==> t[j].status != Running
  }

  lemma NeededExactly(t: Table, app: int, deps: seq<Row>, ids: seq<nat>, tag: Str)
    requires NewestFirst(t, app, deps, ids)
    ensures Needed(t, app, tag) <==> Guarded(deps, tag)
  {
    if Needed(t, app, tag) {
      var i :| NeededBy(t, app, tag, i);
      var k :| 0 <= k < |ids| && ids[k] == i;
      ProtectsByPlace(t, app, deps, ids, k);
      assert Protects(deps, k) && deps[k].image == tag;
    }
    if Guarded(deps, tag) {
      var k :| Protects(deps, k) && deps[k].image == tag;
      ProtectsByPlace(t, app, deps, ids, k);
      assert NeededBy(t, app, tag, ids[k]);
    }
  }

  lemma ProtectsByPlace(t: Table, app: int, deps: seq<Row>, ids: seq<nat>, k: nat)
    requires NewestFirst(t, app, deps, ids) && k < |deps|
    ensures Protects(deps, k) <==> NeededBy(t, app, deps[k].image, ids[k])
  {
    YoungestByPlace(t, app, deps, ids, k);
  }

  lemma YoungestByPlace(t: Table, app: int, deps: seq<Row>, ids: seq<nat>, k: nat)
    requires NewestFirst(t, app, deps, ids) && k < |deps|
    ensures NewestRunning(deps, k) <==> Bears(deps[k]) && YoungestRunning(t, app, ids[k])
  {
    forall j | ids[k] < j < |t| && t[j].app == app ensures exists m :: 0 <= m < k && ids[m] == j {
      var m :| 0 <= m < |ids| && ids[m] == j;
    }
  }

  /** The place of an image among the distinct ones counts the images with a younger bearer. */
  lemma PlaceCountsYounger(t: Table, app: int, k: nat, i: int)
    requires k < |Distinct(AppRows(t, app))| && NewestBearer(t, app, Distinct(AppRows(t, app))[k], i)
    ensures |Younger(t, app, i)| == k
  {
    var deps := AppRows(t, app);
    var d := Distinct(deps);
    var ids := AppRowsNewestFirst(t, app);
    DistinctMeaning(deps);
    var first := set a | 0 <= a < k :: d[a];
    var pt := PlaceOf(t, app, deps, ids, d[k], i);
    forall u ensures u in Younger(t, app, i) <==> u in first {
      if u in Younger(t, app, i) {
        var j :| 0 <= j < |t| && i < j && t[j].app == app && t[j].image != [] && !t[j].pruned && t[j].image == u;
        YoungerComesFirst(t, app, deps, ids, d[k], pt, j);
      }
      if u in first {
        var a :| 0 <= a < k && d[a] == u;
        FirstIsYounger(t, app, deps, ids, a, k, pt);
      }
    }
    assert Younger(t, app, i) == first;
    DistinctCount(d, k);
  }

  /** Where the newest bearer stands in the list. */
  lemma PlaceOf(t: Table, app: int, deps: seq<Row>, ids: seq<nat>, tag: Str, i: int) returns (pt: nat)
    requires NewestFirst(t, app, deps, ids) && NewestBearer(t, app, tag, i)
    ensures pt < |ids| && ids[pt] == i && FirstBearer(deps, tag, pt)
  {
    pt :| 0 <= pt < |ids| && ids[pt] == i;
  }

  lemma YoungerComesFirst(t: Table, app: int, deps: seq<Row>, ids: seq<nat>, tag: Str, pt: nat, j: nat)
    requires NewestFirst(t, app, deps, ids) && deps == AppRows(t, app)
    requires FirstBearer(deps, tag, pt) && pt < |ids| && ids[pt] < j < |t| && t[j].app == app && Bears(t[j])
    requires exists k :: 0 <= k < |Distinct(deps)| && Distinct(deps)[k] == tag
    ensures exists a, k :: 0 <= a < k < |Distinct(deps)| && Distinct(deps)[k] == tag && Distinct(deps)[a] == t[j].image
  {
    var d := Distinct(deps);
    var m :| 0 <= m < |ids| && ids[m] == j;
    DistinctMeaning(deps);
    var pu := FirstAtMost(deps, t[j].image, m);
    assert t[j].image in d;
    var a :| 0 <= a < |d| && d[a] == t[j].image;
    var k :| 0 <= k < |d| && d[k] == tag;
    if a > k { InOrder(deps, k, a, pt, pu); }
  }

  lemma InOrder(deps: seq<Row>, a: nat, b: nat, i: nat, j: nat)
    requires a < b < |Distinct(deps)| && FirstBearer(deps, Distinct(deps)[a], i) && FirstBearer(deps, Distinct(deps)[b], j)
    ensures i < j
  {
    DistinctMeaning(deps);
    assert BearersInOrder(deps, a, b, i, j);
  }

  lemma {:induction false} FirstAtMost(deps: seq<Row>, tag: Str, m: nat) returns (i: nat)
    requires m < |deps| && Bears(deps[m]) && deps[m].image == tag
    ensures i <= m && FirstBearer(deps, tag, i)
  {
    if j :| 0 <= j < m && Bears(deps[j]) && deps[j].image == tag { i := FirstAtMost(deps, tag, j); } else { i := m; }
  }

  lemma FirstIsYounger(t: Table, app: int, deps: seq<Row>, ids: seq<nat>, a: nat, k: nat, pt: nat)
    requires NewestFirst(t, app, deps, ids) && deps == AppRows(t, app) && a < k < |Distinct(deps)|
    requires FirstBearer(deps, Distinct(deps)[k], pt) && pt < |ids|
    ensures Distinct(deps)[a] in Younger(t, app, ids[pt])
  {
    DistinctMeaning(deps);
    assert Distinct(deps)[a] in Distinct(deps);
    var pu :| FirstBearer(deps, Distinct(deps)[a], pu);
    assert BearersInOrder(deps, a, k, pu, pt);
    assert ids[pu] > ids[pt] && t[ids[pu]] == deps[pu];
  }

  lemma {:induction false} DistinctCount(d: seq<Str>, k: nat)
    requires NoDuplicates(d) && k <= |d|
    ensures |set a | 0 <= a < k :: d[a]| == k
  {
    if k > 0 {
      DistinctCount(d, k - 1);
      assert (set a | 0 <= a < k :: d[a]) == (set a | 0 <= a < k - 1 :: d[a]) + {d[k - 1]};
    }
  }

  /** The candidates in terms of the table: the images of the app that at least `keep` younger ones follow,
      but those that are needed. */
  lemma CandidatesExactly(t: Table, app: int, keep: nat, tag: Str)
    ensures tag in Candidates(AppRows(t, app), keep) <==> Outdated(t, app, keep, tag)
  {
    var ids := AppRowsNewestFirst(t, app);
    CandidateAt(t, app, AppRows(t, app), ids, keep, tag);
  }

  lemma CandidateAt(t: Table, app: int, deps: seq<Row>, ids: seq<nat>, keep: nat, tag: Str)
    requires NewestFirst(t, app, deps, ids) && deps == AppRows(t, app)
    ensures tag in Candidates(deps, keep) <==> Outdated(t, app, keep, tag)
  {
    CandidatesMeaning(deps, keep);
    NeededExactly(t, app, deps, ids, tag);
    BeyondKeep(t, app, deps, ids, keep, tag);
  }

  lemma BeyondKeep(t: Table, app: int, deps: seq<Row>, ids: seq<nat>, keep: nat, tag: Str)
    requires NewestFirst(t, app, deps, ids) && deps == AppRows(t, app)
    ensures OutOfWindow(t, app, keep, tag) <==> Beyond(Distinct(deps), keep, tag)
  {
    var d := Distinct(deps);
    if OutOfWindow(t, app, keep, tag) {
      var i :| NewestBearer(t, app, tag, i) && |Younger(t, app, i)| >= keep;
      var k := PlaceInDistinct(t, app, deps, ids, tag, i);
      PlaceCountsYounger(t, app, k, i);
    }
    if Beyond(d, keep, tag) {
      var k :| keep <= k < |d| && d[k] == tag;
      DistinctMeaning(deps);
      assert tag in d;
      var pt :| FirstBearer(deps, tag, pt);
      FirstIsNewest(t, app, deps, ids, tag, pt);
      PlaceCountsYounger(t, app, k, ids[pt]);
    }
  }

  lemma PlaceInDistinct(t: Table, app: int, deps: seq<Row>, ids: seq<nat>, tag: Str, i: int) returns (k: nat)
    requires NewestFirst(t, app, deps, ids) && NewestBearer(t, app, tag, i)
    ensures k < |Distinct(deps)| && Distinct(deps)[k] == tag
  {
    var pt := PlaceOf(t, app, deps, ids, tag, i);
    DistinctMeaning(deps);
    assert tag in Distinct(deps);
    k :| 0 <= k < |Distinct(deps)| && Distinct(deps)[k] == tag;
  }

  lemma AllCandidates(t: Table, app: int, keep: nat)
    ensures forall tag :: tag in Candidates(AppRows(t, app), keep) <==> Outdated(t, app, keep, tag)
  {
    forall tag ensures tag in Candidates(AppRows(t, app), keep) <==> Outdated(t, app, keep, tag) { CandidatesExactly(t, app, keep, tag); }
  }

  lemma FirstIsNewest(t: Table, app: int, deps: seq<Row>, ids: seq<nat>, tag: Str, pt: nat)
    requires NewestFirst(t, app, deps, ids) && FirstBearer(deps, tag, pt)
    ensures NewestBearer(t, app, tag, ids[pt])
  {
    forall j | ids[pt] < j < |t| && t[j].app == app && !t[j].pruned ensures t[j].image != tag {
      var m :| 0 <= m < |ids| && ids[m] == j;
      assert m < pt && deps[m] == t[j];
    }
  }

  /** The images on the host. */
  class Images {
    var tags: set<Str>

    constructor (tags: set<Str>)
      ensures this.tags == tags
    {
      this.tags := tags;
    }

    method RemoveImage(tag: Str, refused: bool) returns (ok: bool)
      modifies this
      ensures ok == !refused
      ensures tags == if refused then old(tags) else old(tags) - {tag}
    {
      ok := !refused;
      if ok { tags := tags - {tag}; }
    }
  }

  class Pruner {
    const store: Store
    const images: Images
    const keep: int

    constructor (store: Store, images: Images, keep: int)
      ensures this.store == store && this.images == images && this.keep == keep
    {
      this.store, this.images, this.keep := store, images, keep;
    }

    /** ListDeploymentsForApp. */
    method ListDeployments(app: int) returns (deps: seq<Row>)
      ensures deps == AppRows(store.rows, app) && exists ids :: NewestFirst(store.rows, app, deps, ids)
    {
      ghost var ids := AppRowsNewestFirst(store.rows, app);
      deps := [];
      for i := 0 to |store.rows|
        invariant deps == AppRows(store.rows[..i], app)
      {
        assert store.rows[..i + 1][..i] == store.rows[..i];
        if store.rows[i].app == app { deps := [store.rows[i]] + deps; }
      }
      assert store.rows[..|store.rows|] == store.rows;
    }

    /** PruneApp: remove each candidate and flag every row that bears it. The caller chooses which
        removals the daemon refuses. */
    method PruneApp(app: int, compose: bool, refuses: set<Str>) returns (ghost gone: set<Str>)
      modifies store, images
      ensures gone == if keep <= 0 || compose then {} else
        (set t | t in Candidates(AppRows(old(store.rows), app), keep)) - refuses
      ensures forall tag :: tag in gone <==> keep > 0 && !compose && tag !in refuses && Outdated(old(store.rows), app, keep, tag)
      ensures store.rows == Flagged(old(store.rows), gone)
      ensures images.tags == old(images.tags) - gone
    {
      gone := {};
      ghost var rows := store.rows;
      assert Flagged(store.rows, {}) == store.rows;
      if keep <= 0 || compose { return; }
      var deps := ListDeployments(app);
      var candidates := PruneCandidates(deps, keep);
      for i := 0 to |candidates|
        invariant gone == (set t | t in candidates[..i]) - refuses
        invariant store.rows == Flagged(old(store.rows), gone)
        invariant images.tags == old(images.tags) - gone
      {
        var tag := candidates[i];
        assert candidates[..i + 1] == candidates[..i] + [tag];
        var ok := images.RemoveImage(tag, tag in refuses);
        if !ok { continue; }
        store.MarkImagePruned(tag);
        gone := gone + {tag};
        assert store.rows == Flagged(old(store.rows), gone);
      }
      assert candidates[..|candidates|] == candidates;
      AllCandidates(rows, app, keep);
    }
  }

  /** A pass over an app keeps the agreement, spares every image still needed, and leaves exactly the
      refused candidates for the next pass. */
  lemma PassIsSound(t: Table, images: set<Str>, app: int, keep: nat, refuses: set<Str>, gone: set<Str>)
    requires HostAgrees(t, images)
    requires gone == (set x | x in Candidates(AppRows(t, app), keep)) - refuses
    ensures HostAgrees(Flagged(t, gone), images - gone)
    ensures forall i :: Protects(AppRows(t, app), i) ==> AppRows(t, app)[i].image in images - gone
    ensures forall x :: x in Candidates(AppRows(Flagged(t, gone), app), keep) <==> x in Candidates(AppRows(t, app), keep) && x in refuses
    ensures refuses == {} ==> Candidates(AppRows(Flagged(t, gone), app), keep) == []
  {
    var deps := AppRows(t, app);
    HostStillAgrees(t, images, gone);
    AppRowsFlagged(t, app, gone);
    NextPass(deps, keep, gone);
    var next := Candidates(Flagged(deps, gone), keep);
    assert next == [] || next[0] in next;
    NeededSpared(t, images, app, keep, gone);
  }

  lemma NeededSpared(t: Table, images: set<Str>, app: int, keep: nat, gone: set<Str>)
    requires HostAgrees(t, images) && forall x :: x in gone ==> x in Candidates(AppRows(t, app), keep)
    ensures forall i :: Protects(AppRows(t, app), i) ==> AppRows(t, app)[i].image in images - gone
  {
    var deps := AppRows(t, app);
    CandidatesMeaning(deps, keep);
    AppRowsFromTable(t, app);
    forall i | Protects(deps, i) ensures deps[i].image in images - gone {
      assert deps[i] in t;
      var j :| 0 <= j < |t| && t[j] == deps[i];
      assert deps[i].image !in Candidates(deps, keep);
    }
  }
}
