/** The deployment state machine (internal/core/statemachine.go). */
module Status {

  datatype DeployStatus = Queued | Building | Deploying | Running | Failed | Cancelled | Superseded

  /** The legal-transition matrix. */
  const TRANSITIONS: map<DeployStatus, set<DeployStatus>> := map[
    Queued := {Building, Cancelled},
    Building := {Deploying, DeployStatus.Failed, Cancelled},
    Deploying := {Running, DeployStatus.Failed},
    Running := {Superseded},
    DeployStatus.Failed := {},
    Cancelled := {},
    Superseded := {}
  ]

  predicate CanTransition(from: DeployStatus, to: DeployStatus) {
    from in TRANSITIONS && to in TRANSITIONS[from]
  }

  predicate IsTerminal(s: DeployStatus) { s in {Running, DeployStatus.Failed, Cancelled, Superseded} }

  predicate IsActive(s: DeployStatus) { s == Building || s == Deploying }

  predicate CanCancel(s: DeployStatus) { s == Queued || s == Building }

  /** How far along the lifecycle a status is. */
  function Rank(s: DeployStatus): (r: nat)
    ensures r <= 4
  {
    match s
    case Queued => 0
    case Building => 1
    case Deploying => 2
    case Running => 3
    case _ => 4
  }

  /** The three classifications agree with the matrix: a status is cancellable exactly when the
      matrix has the edge, and terminal exactly when no edge leads back into the queue or a pipeline. */
  lemma ClassesAgreeWithMatrix(s: DeployStatus)
    ensures CanCancel(s) <==> CanTransition(s, Cancelled)
    ensures IsTerminal(s) <==> forall t :: CanTransition(s, t) ==> t == Superseded
    ensures IsActive(s) <==> CanTransition(s, DeployStatus.Failed)
    ensures IsTerminal(s) <==> !IsActive(s) && s != Queued
  {
    if !IsTerminal(s) {
      assert CanTransition(s, if s == Queued then Building else DeployStatus.Failed);
    }
  }

  /** The edges, one by one. */
  lemma EdgesExactly(from: DeployStatus, to: DeployStatus)
    ensures CanTransition(from, to) <==> (from, to) in {
      (Queued, Building), (Building, Deploying), (Deploying, Running), (Running, Superseded),
      (Queued, Cancelled), (Building, Cancelled), (Building, DeployStatus.Failed), (Deploying, DeployStatus.Failed)}
  {
  }

  /** Every edge moves forward, so no status is ever entered twice. */
  lemma EdgesMoveForward(from: DeployStatus, to: DeployStatus)
    requires CanTransition(from, to)
    ensures Rank(from) < Rank(to)
  {
  }
}
