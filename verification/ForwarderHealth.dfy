/**
 The process-wide slot for the last event POST that exhausted its retries
 (omnicraft/_native_forwarder_health.py). Clock readings are parameters.
 */
module ForwarderHealth {
  import opened Wrappers

  datatype Failure<E> = Failure(at: int, eventType: string, error: E)

  class HealthSlot<E> {
    var lastPostFailure: Option<Failure<E>>

    constructor ()
      ensures lastPostFailure == None
    {
      lastPostFailure := None;
    }

    method RecordPostFailure(now: int, eventType: string, error: E)
      modifies this
      ensures lastPostFailure == Some(Failure(now, eventType, error))
    {
      lastPostFailure := Some(Failure(now, eventType, error));
    }

    method NotePostSuccess()
      modifies this
      ensures lastPostFailure == None
    {
      lastPostFailure := None;
    }

    /** A failure is reported exactly when one is recorded and is at most `within` old. */
    method RecentPostFailure(now: int, within: int) returns (r: Option<Failure<E>>)
      ensures r.Some? <==> lastPostFailure.Some? && now - lastPostFailure.value.at <= within
      ensures r.Some? ==> r == lastPostFailure
    {
      match lastPostFailure
      case None => r := None;
      case Some(f) =>
        if now - f.at > within {
          r := None;
        } else {
          r := Some(f);
        }
    }
  }
}
