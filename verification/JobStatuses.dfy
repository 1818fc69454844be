/** Job statuses as the metrics see them. Unknown stands for any other status string, by number; number zero is the empty one, which means "no status yet". */
module JobStatuses {

  datatype JobStatus =
    | Queued | Running | Succeeded | Failed | Canceled | Expired | Paused
    | Unknown(code: nat)

  const NO_STATUS := Unknown(0)

  predicate IsKnown(s: JobStatus) {
    !s.Unknown?
  }

  predicate IsTerminal(s: JobStatus) {
    s.Succeeded? || s.Failed? || s.Canceled? || s.Expired?
  }
}
