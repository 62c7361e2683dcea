/** The task lifecycle: the ledger's statuses and the moves between them. */
module Task {

  datatype Status = Submitted | Working | InputRequired | Completed | Failed | Canceled

  /** CheckTransition. */
  predicate Allowed(from: Status, to: Status) {
    match from
    case Submitted => to.Working? || to.Canceled?
    case Working => to.Completed? || to.Failed? || to.InputRequired? || to.Canceled? || to.Submitted?
    case InputRequired => to.Working? || to.Canceled?
    case Completed => false
    case Failed => false
    case Canceled => false
  }

  /** Terminal statuses are the ones with no way out, on the wire as in the ledger. */
  predicate Terminal(s: Status) {
    s.Completed? || s.Canceled? || s.Failed?
  }

  lemma TerminalIsFinal(s: Status)
    ensures Terminal(s) <==> forall t: Status :: !Allowed(s, t)
  {
    assert s.Submitted? ==> Allowed(s, Working);
    assert s.Working? ==> Allowed(s, Failed);
    assert s.InputRequired? ==> Allowed(s, Working);
  }
}
