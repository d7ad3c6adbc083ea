/** The report handler over the in-place store and limiter. */
module Ingest {
  import opened Common
  import opened Database
  import opened Identity
  import opened LimiterSteps
  import opened RateLimit
  import opened Services
  import opened Store
  import Limiter

  datatype Response =
    | Unauthorized
    | BadRequest
    | TooManyRequests(retryAfter: string)
    | Unavailable
    | NoContent

  /** Why a request is refused before the limiter is asked; the body is `None` when it is not a report. */
  function Refusal(db: Db, signed: Signatures, credential: Credential, body: Option<Report>, now: Instant)
    : Option<Response>
  {
    var client := Identify(db, signed, credential, now);
    if client.Err? then Some(Unauthorized)
    else if body.None? || !ValidReport(body.value) then Some(BadRequest)
    else if body.value.node != client.value.node then Some(Unauthorized)
    else None
  }

  /** An identified node exists and is enabled, so nothing but another request can stop its report. */
  lemma IdentifiedIsRecorded(db: Db, signed: Signatures, credential: Credential, body: Report, now: Instant)
    requires Refusal(db, signed, credential, Some(body), now) == None
    ensures RecordReport(db, body, now).answer == Ok(())
  {
  }

  class IngestService {
    const renewal: RenewalService
    const limiter: Limiter.SlidingWindowLimiter

    constructor (renewal: RenewalService, limiter: Limiter.SlidingWindowLimiter)
      ensures this.renewal == renewal && this.limiter == limiter
    {
      this.renewal, this.limiter := renewal, limiter;
    }

    /**
     A refused request leaves the limiter and the store alone; a limited one leaves the store alone and is told
     how long to wait; any other is recorded. The limiter reads its own clock.
     */
    method HandleReport(signed: Signatures, credential: Credential, body: Option<Report>, now: Instant,
                        limiterNow: Instant)
      returns (response: Response, ghost victim: string)
      requires renewal.store.Valid() && limiter.Valid()
      modifies renewal.store, limiter
      ensures renewal.store.Valid() && limiter.Valid()
      ensures Refusal(old(renewal.store.View()), signed, credential, body, now).Some? ==>
                && response == Refusal(old(renewal.store.View()), signed, credential, body, now).value
                && renewal.store.View() == old(renewal.store.View()) && limiter.events == old(limiter.events)
      ensures Refusal(old(renewal.store.View()), signed, credential, body, now).None? ==>
                var node := body.value.node;
                var (events, verdict) := Allow(limiter.config, old(limiter.events), node, limiterNow, victim);
                && Legal(limiter.config, old(limiter.events), node, limiterNow, victim)
                && limiter.events == events
                && renewal.store.View()
                   == (if verdict.Allowed? then RecordReport(old(renewal.store.View()), body.value, now).db
                       else old(renewal.store.View()))
                && response == if verdict.Allowed? then NoContent else TooManyRequests(RetryHeader(verdict.retryAfter))
      // A client comes first, then a valid report, and then that it is the client's own.
      ensures Identify(old(renewal.store.View()), signed, credential, now).Err? ==> response == Unauthorized
      ensures Identify(old(renewal.store.View()), signed, credential, now).Ok? ==>
                && (response == BadRequest <==> body.None? || !ValidReport(body.value))
                && (response == Unauthorized <==>
                      && body.Some? && ValidReport(body.value)
                      && body.value.node != Identify(old(renewal.store.View()), signed, credential, now).value.node)
      // Whatever changes, changes for the client's own node.
      ensures renewal.store.View() != old(renewal.store.View()) || limiter.events != old(limiter.events) ==>
                && Identify(old(renewal.store.View()), signed, credential, now).Ok?
                && body.Some? && body.value.node == Identify(old(renewal.store.View()), signed, credential, now).value.node
      ensures response == NoContent ==>
                var db, client := old(renewal.store.View()), Identify(old(renewal.store.View()), signed, credential, now);
                && client.Ok? && body.Some?
                && renewal.store.samples
                   == db.samples[db.nextSample := SampleRow(client.value.node, ToMillis(now), body.value.metrics)]
    {
      victim := "";
      var client := renewal.ClientIdentity(signed, credential, now);
      if client.Err? {
        return Unauthorized, victim;
      }
      if body.None? || !ValidReport(body.value) {
        return BadRequest, victim;
      }
      if body.value.node != client.value.node {
        return Unauthorized, victim;
      }
      IdentifiedIsRecorded(renewal.store.View(), signed, credential, body.value, now);
      assert body.value.node != "";
      var admitted, retryAfter;
      admitted, retryAfter, victim := limiter.Allow(body.value.node, limiterNow);
      if !admitted {
        return TooManyRequests(RetryHeader(retryAfter)), victim;
      }
      response := Record(body.value, now);
    }

    /** The last phase; by the time it runs, another request may have disabled or removed the node. */
    method Record(report: Report, now: Instant) returns (response: Response)
      requires renewal.store.Valid()
      modifies renewal.store
      ensures renewal.store.Valid()
      ensures renewal.store.View() == RecordReport(old(renewal.store.View()), report, now).db
      ensures response == match RecordReport(old(renewal.store.View()), report, now).answer
                          case Ok(_) => NoContent
                          case Err(NodeDisabled) => Unauthorized
                          case Err(NodeNotFound) => Unauthorized
                          case Err(_) => Unavailable
    {
      var recorded := renewal.store.RecordReport(report, now);
      if recorded.Err? {
        return if recorded.error in {NodeDisabled, NodeNotFound} then Unauthorized else Unavailable;
      }
      return NoContent;
    }
  }
}
