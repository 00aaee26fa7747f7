/** Identifiers and statuses of Runs. */
module RunModels {

  type RunId = nat
  type SessionId = nat
  type UserId = nat
  type WorkerId = string

  datatype RunStatus = PENDING | RUNNING | WAITING_FOR_USER | SUCCEEDED | FAILED | CANCELLED

  predicate Terminal(status: RunStatus) {
    status == SUCCEEDED || status == FAILED || status == CANCELLED
  }
}
