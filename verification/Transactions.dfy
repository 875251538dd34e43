/** How an attempt at a database transaction may go wrong. */
module Transactions {

  /** It runs to its commit, statement `at` fails and all is rolled back, or it
      commits but the client is told otherwise. */
  datatype Fault = Clean | Breaks(at: nat) | LosesAcknowledgement
}
