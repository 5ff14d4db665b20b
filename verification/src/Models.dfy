/**
 The stored entities (internal/models/models.go), reduced to the fields that keys, filters,
 ordering and the lifecycle read. `rest` stands for the remaining fields, which are carried along.
 */
module Models {
  import opened Text

  const MAX_NANOS := 0x8000_0000_0000_0000

  /** `UnixNano` of an instant from 1970 on that fits in an int64. */
  type Nanos = n: int | 0 <= n < MAX_NANOS

  /** A Go `time.Time`, whose zero value means "not set". */
  datatype Instant = Zero | At(ns: Nanos)

  const QUEUED := "queued"
  const RUNNING := "running"
  const PAUSED := "paused"
  const COMPLETED := "completed"
  const FAILED := "failed"
  const CANCELLED := "cancelled"

  datatype Download = Download(
    id: string,
    url: string,
    queueID: string,
    priority: int,
    tags: seq<string>,
    filename: Option<string>,
    status: string,
    createdAt: Instant,
    updatedAt: Instant,
    rest: Details)

  datatype Details = Details(error: string, bytesCompleted: int, retriesAttempted: int)

  datatype Queue = Queue(id: string, concurrency: int, rateLimit: int, paused: bool)

  datatype QueueStats = QueueStats(queueID: string, pending: nat, running: nat, completed: nat, failed: nat)

  datatype Segment = Segment(downloadID: string, index: nat, start: int, end: int)

  datatype Error = IdRequired | QueueRequired | StatusRequired | NotFound | Cancelled

  datatype Outcome = Ok | Err(error: Error)

  datatype Result<+T> = Success(value: T) | Failure(error: Error)
}
