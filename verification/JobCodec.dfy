/** How a job travels through a Redis stream entry (internal/queue/stream.go:54-66, result.go:13-21, 180-195). */
module JobCodec {

  datatype Job = Job(jobId: string, payload: string, userId: string, accountLevel: string,
                     isAdmin: string, userVerified: string)

  /** A value read back from an entry: a string, or something else together with its "%v" rendering. */
  datatype Value = Str(s: string) | Other(rendering: string)

  type Values = map<string, Value>

  /** The fields XADD writes for a job under a new ID. */
  function Fields(job: Job, jobId: string, enqueuedAt: string): Values {
    map["job_id" := Str(jobId),
        "payload" := Str(job.payload),
        "user_id" := Str(job.userId),
        "account_level" := Str(job.accountLevel),
        "is_admin" := Str(job.isAdmin),
        "user_verified" := Str(job.userVerified),
        "enqueued_at" := Str(enqueuedAt)]
  }

  /** A missing field is the nil interface, which renders as "<nil>". */
  function Text(values: Values, key: string): string {
    if key !in values then "<nil>"
    else match values[key]
      case Str(s) => s
      case Other(rendering) => rendering
  }

  function ParseJob(values: Values): Job {
    Job(Text(values, "job_id"), Text(values, "payload"), Text(values, "user_id"),
        Text(values, "account_level"), Text(values, "is_admin"), Text(values, "user_verified"))
  }

  /** Parsing undoes enqueueing: the worker sees the submitted job, under the ID it was given. */
  lemma ParseInvertsFields(job: Job, jobId: string, enqueuedAt: string)
    ensures ParseJob(Fields(job, jobId, enqueuedAt)) == job.(jobId := jobId)
  {
    // no two of the field names coincide, so no field overwrites another
    assert "job_id"[0] == 'j' && "payload"[0] == 'p' && "user_id"[0] == 'u' && "account_level"[0] == 'a'
           && "is_admin"[0] == 'i' && "enqueued_at"[0] == 'e' && |"user_id"| != |"user_verified"|;
  }
}
