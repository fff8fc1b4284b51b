/** The stored analysis job (`AnalysisJob` in `app/db/models.py`): the record the worker moves from `pending` through
  * `in_progress` to `completed` or `failed`. Timestamps are opaque integers. */
module Jobs {

  import opened Wrappers
  import opened Json

  /** The four values of the `status` field. */
  datatype JobStatus = Pending | InProgress | Completed | Failed

  /** The stored status text. */
  function StatusName(status: JobStatus): (name: string)
    ensures name in {"pending", "in_progress", "completed", "failed"}
  {
    match status
    case Pending => "pending"
    case InProgress => "in_progress"
    case Completed => "completed"
    case Failed => "failed"
  }

  /** Distinct statuses are stored as distinct texts, so the stored field determines the status. */
  lemma StatusNameInjective(a: JobStatus, b: JobStatus)
    ensures StatusName(a) == StatusName(b) <==> a == b
  {
    if a != b {
      assert StatusName(a)[0] != StatusName(b)[0];
    }
  }

  class AnalysisJob {
    const url: string
    const jobId: string
    var status: JobStatus
    var resultJson: Option<Dict>
    const createdAt: int
    var finishedAt: Option<int>

    /** A job as the API stores it: pending, without result and not finished. */
    constructor (url: string, jobId: string, createdAt: int)
      ensures this.url == url && this.jobId == jobId && this.createdAt == createdAt
      ensures status == Pending && resultJson == None && finishedAt == None
      ensures Consistent()
    {
      this.url := url;
      this.jobId := jobId;
      this.createdAt := createdAt;
      status := Pending;
      resultJson := None;
      finishedAt := None;
    }

    /** A pending job has neither result nor finishing time; a finished one has both. */
    predicate Consistent()
      reads this
    {
      && (status == Pending ==> resultJson.None? && finishedAt.None?)
      && (status == Completed || status == Failed ==> resultJson.Some? && finishedAt.Some?)
    }
  }
}
