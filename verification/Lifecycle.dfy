/** The run and escalation-case state machines of the domain layer: the two tables
    of allowed transitions and their terminal states. */
module Lifecycle {

  datatype RunState = Pending | Running | AwaitingHuman | Completed | Failed | Cancelled

  predicate RunTerminal(s: RunState) {
    s.Completed? || s.Failed? || s.Cancelled?
  }

  /** An edge of the run transition table. */
  predicate RunEdge(from: RunState, to: RunState) {
    match from
    case Pending => to.Running?
    case Running => to.AwaitingHuman? || to.Completed? || to.Failed? || to.Cancelled?
    case AwaitingHuman => to.Running? || to.Cancelled?
    case _ => false
  }

  /** A sequence of run states that follows the table from entry to entry. */
  ghost predicate RunPath(states: seq<RunState>) {
    forall i :: 0 < i < |states| ==> RunEdge(states[i - 1], states[i])
  }

  datatype CaseState = Open | Claimed | Resolved | Rejected | Expired

  predicate CaseTerminal(s: CaseState) {
    s.Resolved? || s.Rejected? || s.Expired?
  }

  /** An edge of the escalation-case transition table. */
  predicate CaseEdge(from: CaseState, to: CaseState) {
    match from
    case Open => to.Claimed? || to.Expired?
    case Claimed => to.Resolved? || to.Rejected? || to.Expired?
    case _ => false
  }

  /** The two tables, edge by edge; a state is terminal exactly when no edge leaves it. */
  lemma RunTableExact(from: RunState, to: RunState)
    ensures RunEdge(from, to) <==>
      (from, to) in {(Pending, Running), (Running, AwaitingHuman), (Running, Completed), (Running, Failed),
                     (Running, Cancelled), (AwaitingHuman, Running), (AwaitingHuman, Cancelled)}
    ensures RunTerminal(from) <==> from != Pending && from != Running && from != AwaitingHuman
    ensures RunTerminal(from) ==> !RunEdge(from, to)
  {
  }

  lemma CaseTableExact(from: CaseState, to: CaseState)
    ensures CaseEdge(from, to) <==>
      (from, to) in {(Open, Claimed), (Open, Expired), (Claimed, Resolved), (Claimed, Rejected), (Claimed, Expired)}
    ensures CaseTerminal(from) <==> from != Open && from != Claimed
    ensures CaseTerminal(from) ==> !CaseEdge(from, to)
  {
  }
}
