/** The network's lifecycle statuses for a transaction, as arcade reports them. */
module Arcade {
  datatype Status =
    | AcceptedByNetwork | SeenOnNetwork | SeenMultipleNodes | Mined | Immutable
    | Rejected | DoubleSpendAttempted
    | PendingRetry
    | InHand  // UNKNOWN, RECEIVED, SENT_TO_NETWORK, STUMP_PROCESSING: the network has not spoken

  /** A whitelist: a status arcade adds tomorrow is not acceptance. */
  predicate Accepted(s: Status) {
    s in {AcceptedByNetwork, SeenOnNetwork, SeenMultipleNodes, Mined, Immutable}
  }
}
