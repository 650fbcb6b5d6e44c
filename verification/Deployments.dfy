/** The deployments table, which is also the job queue (internal/store/deployments.go).

    A row's id is its index: rows are only ever inserted, so insertion order is id order. The source
    orders by (created_at, id); created_at is text in a format that trims trailing zeros, so it sorts
    chronologically only under the abstraction made here, that a later insert has the later created_at. */
module Deployments {
  import opened Bytes
  import opened Status

  datatype Row = Row(app: int, status: DeployStatus, reason: Str, image: Str, pruned: bool,
                     rollbackOf: Option<nat>, tag: Str, fromTag: bool)

  type Table = seq<Row>

  // ------------------------------------------------------------------ predicates

  predicate Has(t: Table, id: nat, s: DeployStatus) { id < |t| && t[id].status == s }

  predicate ActiveAt(t: Table, id: nat) { id < |t| && IsActive(t[id].status) }

  /** Some row of the app is building or deploying. */
  predicate Busy(t: Table, app: int) {
    exists i :: 0 <= i < |t| && t[i].app == app && IsActive(t[i].status)
  }

  predicate Claimable(t: Table, id: nat) {
    Has(t, id, Queued) && !Busy(t, t[id].app)
  }

  /** What NextClaimable returns: the oldest queued row whose app is idle, or nothing. */
  predicate IsNextClaimable(t: Table, r: Option<nat>) {
    match r
    case None => forall i :: 0 <= i < |t| ==> !Claimable(t, i)
    case Some(id) => Claimable(t, id) && forall i :: 0 <= i < id ==> !Claimable(t, i)
  }

  /** The newest running row of an app. */
  predicate IsLive(t: Table, app: int, r: Option<nat>) {
    match r
    case None => forall i :: 0 <= i < |t| ==> !(t[i].app == app && t[i].status == Running)
    case Some(id) =>
      && Has(t, id, Running) && t[id].app == app
      && forall i :: id < i < |t| ==> !(t[i].app == app && t[i].status == Running)
  }

  function Live(t: Table, app: int): (r: Option<nat>)
    ensures IsLive(t, app, r)
  {
    if t == [] then None
    else
      var n := |t| - 1;
      if t[n].app == app && t[n].status == Running then Some(n) else
        assert t == t[..n] + [t[n]];
        Live(t[..n], app)
  }

  lemma LiveUnique(t: Table, app: int, r: Option<nat>, r': Option<nat>)
    requires IsLive(t, app, r) && IsLive(t, app, r')
    ensures r == r'
  {
  }

  // ----------------------------------------------------------- statements as functions

  function NewRow(app: int): Row {
    Row(app, Queued, [], [], false, None, [], false)
  }

  function RollbackRow(t: Table, app: int, image: Str, of: nat): Row {
    Row(app, Queued, [], image, false, Some(of), if of < |t| then t[of].tag else [], false)
  }

  function TagRow(app: int, tag: Str): Row {
    Row(app, Queued, [], [], false, None, tag, true)
  }

  /** The rows whose tags are in play: waiting, in a pipeline, or live. */
  predicate InPlay(t: Table, app: int, i: nat) {
    i < |t| && t[i].app == app && t[i].tag != [] &&
    (t[i].status == Queued || IsActive(t[i].status) || Live(t, app) == Some(i))
  }

  /** The tags in play, oldest row first. */
  function InPlayTags(t: Table, app: int, upTo: nat): (tags: seq<Str>)
    requires upTo <= |t|
    ensures forall i :: 0 <= i < upTo && InPlay(t, app, i) ==> t[i].tag in tags
    ensures forall tag :: tag in tags ==> exists i :: 0 <= i < upTo && InPlay(t, app, i) && t[i].tag == tag
  {
    if upTo == 0 then []
    else if InPlay(t, app, upTo - 1) then InPlayTags(t, app, upTo - 1) + [t[upTo - 1].tag]
    else InPlayTags(t, app, upTo - 1)
  }

  /** UPDATE ... SET status WHERE id AND status = from. */
  function Moved(t: Table, id: nat, from: DeployStatus, to: DeployStatus, reason: Str): Table {
    if Has(t, id, from) then t[id := t[id].(status := to, reason := reason)] else t
  }

  function Claimed(t: Table, id: nat): Table {
    if Has(t, id, Queued) then t[id := t[id].(status := Building)] else t
  }

  function SupersededRow(r: Row, i: nat, app: int, keep: nat): Row {
    if r.app == app && i != keep && r.status == Running then r.(status := Superseded) else r
  }

  /** UPDATE ... SET superseded WHERE app AND id <> keep AND running. */
  function Retired(t: Table, app: int, keep: nat): (u: Table)
    ensures |u| == |t| && forall i :: 0 <= i < |t| ==> u[i] == SupersededRow(t[i], i, app, keep)
  {
    seq(|t|, i requires 0 <= i < |t| => SupersededRow(t[i], i, app, keep))
  }

  function RecoveredRow(r: Row, reason: Str): Row {
    if IsActive(r.status) then r.(status := Failed, reason := reason) else r
  }

  /** UPDATE ... SET failed WHERE building or deploying. */
  function Recovered(t: Table, reason: Str): (u: Table)
    ensures |u| == |t| && forall i :: 0 <= i < |t| ==> u[i] == RecoveredRow(t[i], reason)
  {
    seq(|t|, i requires 0 <= i < |t| => RecoveredRow(t[i], reason))
  }

  function PrunedRow(r: Row, image: Str): Row {
    if r.image == image then r.(pruned := true) else r
  }

  /** UPDATE ... SET image_pruned WHERE image. */
  function MarkPruned(t: Table, image: Str): (u: Table)
    ensures |u| == |t| && forall i :: 0 <= i < |t| ==> u[i] == PrunedRow(t[i], image)
  {
    seq(|t|, i requires 0 <= i < |t| => PrunedRow(t[i], image))
  }

  // ------------------------------------------------------------------------ facts

  /** No row changes its status except along an edge of the matrix. */
  predicate OnlyEdges(t: Table, u: Table) {
    |t| <= |u| && forall i :: 0 <= i < |t| ==>
      u[i].app == t[i].app && (u[i].status == t[i].status || CanTransition(t[i].status, u[i].status))
  }

  /** Claim, supersede and recovery are raw SQL, and still every write follows an edge of the matrix. */
  lemma WritesFollowEdges(t: Table, id: nat, from: DeployStatus, to: DeployStatus, reason: Str, app: int)
    ensures OnlyEdges(t, Claimed(t, id))
    ensures CanTransition(from, to) ==> OnlyEdges(t, Moved(t, id, from, to, reason))
    ensures OnlyEdges(t, Retired(t, app, id))
    ensures OnlyEdges(t, Recovered(t, reason))
    ensures OnlyEdges(t, MarkPruned(t, reason))
  {
  }

  /** Recovery leaves no active row and touches nothing else. */
  lemma RecoverClears(t: Table, reason: Str)
    ensures forall i :: 0 <= i < |t| ==> !ActiveAt(Recovered(t, reason), i)
    ensures forall i :: 0 <= i < |t| && !ActiveAt(t, i) ==> Recovered(t, reason)[i] == t[i]
    ensures forall app :: Live(Recovered(t, reason), app) == Live(t, app)
  {
    forall app ensures Live(Recovered(t, reason), app) == Live(t, app) {
      LiveUnique(t, app, Live(t, app), Live(Recovered(t, reason), app));
    }
  }

  /** Superseding others than `keep` leaves the app's live row alone exactly when `keep` is that row,
      or when nothing was running. */
  lemma SupersedeKeepsLive(t: Table, app: int, keep: nat)
    ensures Live(Retired(t, app, keep), app) == Live(t, app)
      <==> Live(t, app) == Some(keep) || Live(t, app) == None
    ensures forall other :: other != app ==> Live(Retired(t, app, keep), other) == Live(t, other)
  {
    var u := Retired(t, app, keep);
    if Live(t, app) == Some(keep) || Live(t, app) == None {
      LiveUnique(u, app, Live(u, app), Live(t, app));
    }
    forall other | other != app ensures Live(u, other) == Live(t, other) {
      LiveUnique(t, other, Live(t, other), Live(u, other));
    }
  }

  /** What the three enqueueing statements insert. */
  lemma RowsExactly(t: Table, app: int, image: Str, of: nat, tag: Str)
    ensures forall r :: r in {NewRow(app), RollbackRow(t, app, image, of), TagRow(app, tag)} ==>
      r.app == app && r.status == Queued && r.reason == [] && !r.pruned
    ensures var r := NewRow(app); r.image == r.tag == [] && r.rollbackOf == None && !r.fromTag
    ensures var r := TagRow(app, tag); r.image == [] && r.tag == tag && r.rollbackOf == None && r.fromTag
    ensures var r := RollbackRow(t, app, image, of);
      r.image == image && r.rollbackOf == Some(of) && !r.fromTag && r.tag == if of < |t| then t[of].tag else []
  {
  }

  /** The tags in play are those of the rows that wait, are in a pipeline, or are the newest running one. */
  lemma InPlayExactly(t: Table, app: int, tag: Str)
    ensures tag in InPlayTags(t, app, |t|) <==>
      exists i :: 0 <= i < |t| && t[i].app == app && t[i].tag == tag != [] && (t[i].status in {Queued, Building, Deploying} || IsLive(t, app, Some(i)))
  {
    forall i | 0 <= i < |t| ensures Live(t, app) == Some(i) <==> IsLive(t, app, Some(i)) {
      if IsLive(t, app, Some(i)) { LiveUnique(t, app, Live(t, app), Some(i)); }
    }
  }

  /** Some row of the app is in a pipeline. */
  predicate InPipeline(t: Table, app: int) {
    exists k :: 0 <= k < |t| && t[k].app == app && t[k].status in {Building, Deploying}
  }

  /** The next row to claim: the oldest queued one of an app with no row in a pipeline, or none if there is none. */
  lemma NextClaimableExactly(t: Table, r: Option<nat>)
    ensures IsNextClaimable(t, r) <==>
      match r
      case None => forall i :: 0 <= i < |t| && t[i].status == Queued ==> InPipeline(t, t[i].app)
      case Some(id) =>
        && id < |t| && t[id].status == Queued && !InPipeline(t, t[id].app)
        && forall i :: 0 <= i < id && t[i].status == Queued ==> InPipeline(t, t[i].app)
  {
    forall i | 0 <= i < |t| ensures Claimable(t, i) <==> t[i].status == Queued && !InPipeline(t, t[i].app) {}
  }

  /** The row is what it was but for its status and its reason. */
  predicate Becomes(r: Row, u: Row, status: DeployStatus, reason: Str) { u == r.(status := status, reason := reason) }

  /** Which rows each statement writes, and what it writes there. */
  lemma StatementsExactly(t: Table, id: nat, from: DeployStatus, to: DeployStatus, reason: Str, app: int, i: nat)
    requires i < |t|
    ensures var u := Moved(t, id, from, to, reason); |u| == |t| && Becomes(t[i], u[i],
      if i == id && t[i].status == from then to else t[i].status, if i == id && t[i].status == from then reason else t[i].reason)
    ensures var u := Claimed(t, id); |u| == |t| && Becomes(t[i], u[i], if i == id && t[i].status == Queued then Building else t[i].status, t[i].reason)
    ensures var u := Retired(t, app, id); |u| == |t| && Becomes(t[i], u[i],
      if i != id && t[i].app == app && t[i].status == Running then Superseded else t[i].status, t[i].reason)
    ensures var u, dead := Recovered(t, reason), t[i].status in {Building, Deploying};
      |u| == |t| && Becomes(t[i], u[i], if dead then Failed else t[i].status, if dead then reason else t[i].reason)
    ensures var u := MarkPruned(t, reason); |u| == |t| && u[i] == t[i].(pruned := t[i].pruned || t[i].image == reason)
  {
  }

  // --------------------------------------------------------------------- the store

  /** The rows whose status a statement changed: what RowsAffected counts. */
  function Changed(t: Table, u: Table): set<nat>
    requires |t| == |u|
  {
    set i: nat | i < |t| && t[i].status != u[i].status
  }

  /** Moving the status of a row not touched so far changes one more row. */
  lemma ChangedNext(t: Table, u: Table, i: nat, v: Table)
    requires i < |t| == |u| == |v| && u[i].status == t[i].status && v[i].status != t[i].status
    requires forall k :: 0 <= k < |u| && k != i ==> v[k] == u[k]
    ensures |Changed(t, v)| == |Changed(t, u)| + 1
  {
    assert Changed(t, v) == Changed(t, u) + {i};
  }

  /** The store's deployment statements, each one atomic. */
  class Store {
    var rows: Table

    constructor ()
      ensures rows == []
    {
      rows := [];
    }

    method CreateDeployment(app: int) returns (id: nat)
      modifies this
      ensures id == |old(rows)| && rows == old(rows) + [NewRow(app)]
    {
      id := |rows|;
      rows := rows + [NewRow(app)];
    }

    method CreateRollback(app: int, image: Str, of: nat) returns (id: nat)
      modifies this
      ensures id == |old(rows)| && rows == old(rows) + [RollbackRow(old(rows), app, image, of)]
    {
      id := |rows|;
      var tag := if of < |rows| then rows[of].tag else [];
      rows := rows + [Row(app, Queued, [], image, false, Some(of), tag, false)];
    }

    /** LiveDeployment. */
    method LiveDeployment(app: int) returns (r: Option<nat>)
      ensures r == Live(rows, app) && IsLive(rows, app, r)
    {
      var i := |rows|;
      while i > 0
        invariant 0 <= i <= |rows|
        invariant forall k :: i <= k < |rows| ==> !(rows[k].app == app && rows[k].status == Running)
      {
        i := i - 1;
        if rows[i].app == app && rows[i].status == Running {
          LiveUnique(rows, app, Some(i), Live(rows, app));
          return Some(i);
        }
      }
      LiveUnique(rows, app, None, Live(rows, app));
      return None;
    }

    /** The read half of EnqueueTagDeployment. */
    method ReadInPlay(app: int) returns (tags: seq<Str>)
      ensures tags == InPlayTags(rows, app, |rows|)
    {
      var live := LiveDeployment(app);
      tags := [];
      for i := 0 to |rows|
        invariant tags == InPlayTags(rows, app, i)
      {
        if rows[i].app == app && rows[i].tag != [] &&
           (rows[i].status == Queued || IsActive(rows[i].status) || live == Some(i))
        {
          tags := tags + [rows[i].tag];
        }
      }
    }

    /** EnqueueTagDeployment: read, choose and insert in one transaction. */
    method EnqueueTagDeployment(app: int, choose: seq<Str> -> Option<Str>) returns (id: Option<nat>)
      modifies this
      ensures var c := choose(InPlayTags(old(rows), app, |old(rows)|));
        && (c.None? ==> id == None && rows == old(rows))
        && (c.Some? ==> id == Some(|old(rows)|) && rows == old(rows) + [TagRow(app, c.value)])
    {
      var inPlay := ReadInPlay(app);
      match choose(inPlay)
      case None => id := None;
      case Some(tag) =>
        id := Some(|rows|);
        rows := rows + [TagRow(app, tag)];
    }

    /** NextClaimable. */
    method NextClaimable() returns (r: Option<nat>)
      ensures IsNextClaimable(rows, r)
    {
      for i := 0 to |rows|
        invariant forall k :: 0 <= k < i ==> !Claimable(rows, k)
      {
        if rows[i].status == Queued {
          var busy := false;
          for k := 0 to |rows|
            invariant busy <==> exists j :: 0 <= j < k && rows[j].app == rows[i].app && IsActive(rows[j].status)
          {
            if rows[k].app == rows[i].app && IsActive(rows[k].status) { busy := true; }
          }
          if !busy { return Some(i); }
        }
      }
      return None;
    }

    method ClaimDeployment(id: nat) returns (ok: bool)
      modifies this
      ensures ok == Has(old(rows), id, Queued) && rows == Claimed(old(rows), id)
    {
      ok := id < |rows| && rows[id].status == Queued;
      if ok { rows := rows[id := rows[id].(status := Building)]; }
    }

    method SetStatus(id: nat, from: DeployStatus, to: DeployStatus, reason: Str) returns (ok: bool)
      modifies this
      ensures ok == (CanTransition(from, to) && Has(old(rows), id, from))
      ensures rows == if ok then Moved(old(rows), id, from, to, reason) else old(rows)
      ensures OnlyEdges(old(rows), rows)
    {
      if !CanTransition(from, to) { return false; }
      ok := id < |rows| && rows[id].status == from;
      if ok { rows := rows[id := rows[id].(status := to, reason := reason)]; }
    }

    /** UPDATE over all rows, one row at a time. */
    method SupersedeOthers(app: int, keep: nat) returns (n: nat)
      modifies this
      ensures rows == Retired(old(rows), app, keep)
      ensures n == |Changed(old(rows), rows)|
    {
      n := 0;
      for i := 0 to |rows|
        invariant |rows| == |old(rows)|
        invariant forall k :: 0 <= k < i ==> rows[k] == SupersededRow(old(rows)[k], k, app, keep)
        invariant forall k :: i <= k < |rows| ==> rows[k] == old(rows)[k]
        invariant n == |Changed(old(rows), rows)|
      {
        if rows[i].app == app && i != keep && rows[i].status == Running {
          ghost var was := rows;
          rows := rows[i := rows[i].(status := Superseded)];
          ChangedNext(old(rows), was, i, rows);
          n := n + 1;
        }
      }
      assert rows == Retired(old(rows), app, keep);
    }

    method RecoverActive(reason: Str) returns (n: nat)
      modifies this
      ensures rows == Recovered(old(rows), reason)
      ensures n == |Changed(old(rows), rows)|
    {
      n := 0;
      for i := 0 to |rows|
        invariant |rows| == |old(rows)|
        invariant forall k :: 0 <= k < i ==> rows[k] == RecoveredRow(old(rows)[k], reason)
        invariant forall k :: i <= k < |rows| ==> rows[k] == old(rows)[k]
        invariant n == |Changed(old(rows), rows)|
      {
        if IsActive(rows[i].status) {
          ghost var was := rows;
          rows := rows[i := rows[i].(status := Failed, reason := reason)];
          ChangedNext(old(rows), was, i, rows);
          n := n + 1;
        }
      }
      assert rows == Recovered(old(rows), reason);
    }

    method SetImage(id: nat, image: Str)
      modifies this
      ensures rows == if id < |old(rows)| then old(rows)[id := old(rows)[id].(image := image)] else old(rows)
    {
      if id < |rows| { rows := rows[id := rows[id].(image := image)]; }
    }

    method SetDeploymentTag(id: nat, tag: Str)
      modifies this
      ensures rows == if id < |old(rows)| then old(rows)[id := old(rows)[id].(tag := tag)] else old(rows)
    {
      if id < |rows| { rows := rows[id := rows[id].(tag := tag)]; }
    }

    method MarkImagePruned(image: Str)
      modifies this
      ensures rows == MarkPruned(old(rows), image)
    {
      for i := 0 to |rows|
        invariant |rows| == |old(rows)|
        invariant forall k :: 0 <= k < i ==> rows[k] == PrunedRow(old(rows)[k], image)
        invariant forall k :: i <= k < |rows| ==> rows[k] == old(rows)[k]
      {
        if rows[i].image == image { rows := rows[i := rows[i].(pruned := true)]; }
      }
      assert rows == MarkPruned(old(rows), image);
    }
  }
}
