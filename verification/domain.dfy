/** Process status vocabulary shared by the two process managers (internal/domain/status.go). */
module Domain {

  datatype Status = Starting | Running | Unhealthy | Stopping | Exited | Failed | Crashed

  predicate IsTerminal(s: Status) {
    s == Exited || s == Failed || s == Crashed
  }
}
