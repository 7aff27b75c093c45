/** The Episode lifecycle relation (src/avp_ref/runtime/state.py). */
module Lifecycle {
  datatype State =
    | CREATED | PROVISIONING | READY | RUNNING | PAUSED | QUIESCING | VERIFYING
    | COMPLETED | ABORTED | INVALID | INFRA_FAILED

  function Targets(s: State): set<State> {
    match s
    case CREATED => {PROVISIONING, ABORTED}
    case PROVISIONING => {READY, ABORTED, INVALID, INFRA_FAILED}
    case READY => {RUNNING, ABORTED, INVALID, INFRA_FAILED}
    case RUNNING => {QUIESCING, ABORTED, INVALID, INFRA_FAILED, PAUSED}
    case PAUSED => {RUNNING, ABORTED, INVALID, INFRA_FAILED}
    case QUIESCING => {VERIFYING, ABORTED, INVALID, INFRA_FAILED}
    case VERIFYING => {COMPLETED, ABORTED, INVALID, INFRA_FAILED}
    case _ => {}
  }

  predicate Legal(a: State, b: State) {
    b in Targets(a)
  }

  predicate Terminal(s: State) {
    s in {COMPLETED, ABORTED, INVALID, INFRA_FAILED}
  }

  /** How many forward steps a state is from the end of the longest course. */
  function Rank(s: State): nat {
    match s
    case CREATED => 6
    case PROVISIONING => 5
    case READY => 4
    case RUNNING => 3
    case PAUSED => 3
    case QUIESCING => 2
    case VERIFYING => 1
    case _ => 0
  }

  /** The only steps that do not make progress. */
  predicate Exchange(a: State, b: State) {
    (a == RUNNING && b == PAUSED) || (a == PAUSED && b == RUNNING)
  }

  /** Terminal states are exactly those without a legal successor; every other legal step
      brings the end strictly nearer, unless it pauses or resumes. */
  lemma {:induction false} RelationFacts(a: State, b: State)
    ensures Terminal(a) <==> forall c :: !Legal(a, c)
    ensures Legal(a, b) ==> a != b && (Exchange(a, b) || Rank(b) < Rank(a))
    ensures Exchange(a, b) ==> Legal(a, b) && Rank(a) == Rank(b)
  {
    if !Terminal(a) {
      assert Legal(a, ABORTED);
    }
  }
}
