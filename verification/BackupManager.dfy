/** The parts that the backup and the restore controller share: ids that survive in annotations,
    and replies of the a9s Backup Manager. */
module BackupManager {
  import opened JsonDoc

  /** The id annotation as strconv.Atoi reads it. */
  datatype Annotation = Unset | Number(id: int) | Garbage

  datatype CreateReply = Refused | Created(id: Option<int>)

  datatype Verdict = ObserveFailed | Absent | Present

  /** How a call of Create ends; Crashed is the dereference of a missing id. */
  datatype Ending = Done | Failed | Crashed

  const QUEUED := "queued"
  const RUNNING := "running"
  const DONE := "done"
  const FAILED := "failed"
  const DELETED := "deleted"

  predicate Known(state: string) {
    state == QUEUED || state == RUNNING || state == DONE || state == FAILED || state == DELETED
  }

  predicate InProgress(state: string) {
    state == QUEUED || state == RUNNING
  }
}
