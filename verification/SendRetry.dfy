/** The agent's side of a report: one bounded series of attempts, and the loop around it. */
module SendRetry {
  import opened Common
  import opened Numerals
  import opened LimiterSteps
  import opened LimiterRuns
  import opened RateLimit
  import opened AgentRenewal

  /** What an attempt meets: nothing sent or no answer, or an answer with a status and perhaps a retry header. */
  datatype Answer = NoAnswer | Status(code: int, header: string)

  datatype SendError =
    | Authentication
    | TooEarly(after: Instant)
    | HttpFailure(status: int)
    | NotSent

  /** How the agent takes an answer. */
  function Classify(answer: Answer): Option<SendError> {
    match answer
    case NoAnswer => Some(NotSent)
    case Status(code, header) =>
      if 200 <= code < 300 then None
      else if code == 401 || code == 403 then Some(Authentication)
      else if code == 429 then Some(TooEarly(ParsedWait(header)))
      else Some(HttpFailure(code))
  }

  predicate Retryable(error: SendError) {
    error.TooEarly? || (error.HttpFailure? && error.status >= 500)
  }

  // ---- What a series of attempts is for ----

  /** What each of seven attempts would meet, and whether the wait after it is interrupted. */
  datatype Weather = Weather(answers: seq<Answer>, interrupted: seq<bool>) {
    predicate Covers() { |answers| == 7 && |interrupted| == 7 }

    predicate Accepted(attempt: nat)
      requires Covers() && attempt < 7
    {
      answers[attempt].Status? && 200 <= answers[attempt].code <= 299
    }

    predicate Refused(attempt: nat)
      requires Covers() && attempt < 7
    {
      answers[attempt].Status? && answers[attempt].code in {401, 403}
    }

    /** The server was reached, and may answer otherwise later; and this is not the last attempt. */
    predicate Again(attempt: nat)
      requires Covers() && attempt < 7
    {
      answers[attempt].Status? && (answers[attempt].code == 429 || answers[attempt].code >= 500) && attempt < 6
    }
  }

  const BACKOFF: seq<int> := [1, 2, 4, 8, 16, 32, 64]

  /**
   A wait after a rate limit is the time that the server asked for, and less than a second more; it is a second if
   the server asked for more than an hour, or for no number of seconds.
   */
  ghost predicate HonoursHeader(header: string, wait: Instant) {
    && (forall asked :: 0 < asked && header == RetryHeader(asked) ==>
          if asked <= MAX_WAIT then asked <= wait < asked + 1_000_000_000 else wait == 1_000_000_000)
    && (ParseInt(TrimSpace(header), 10) == None ==> wait == 1_000_000_000)
    && 0 <= wait <= MAX_WAIT
  }

  /** After a rate limit the server says how long to wait; otherwise the waits double from one second. */
  ghost predicate FollowsServer(weather: Weather, waits: seq<Instant>)
    requires weather.Covers()
  {
    && |waits| <= 6
    && forall i :: 0 <= i < |waits| ==>
         && weather.Again(i)
         && if weather.answers[i].code == 429 then HonoursHeader(weather.answers[i].header, waits[i])
            else waits[i] == BACKOFF[i] * 1_000_000_000
  }

  lemma ParsedWaitHonours(header: string)
    ensures HonoursHeader(header, ParsedWait(header))
  {
    HeaderIsBounded(header);
    forall asked | 0 < asked && header == RetryHeader(asked)
      ensures if asked <= MAX_WAIT then asked <= ParsedWait(header) < asked + 1_000_000_000
              else ParsedWait(header) == 1_000_000_000
    {
      WaitCovers(asked);
    }
  }

  /** Some attempt is refused, and the agent gets as far as that attempt. */
  ghost predicate MeetsRefusal(weather: Weather)
    requires weather.Covers()
  {
    exists k :: 0 <= k < 7 && weather.Refused(k) && Reaches(weather, k)
  }

  ghost predicate Reaches(weather: Weather, attempt: nat)
    requires weather.Covers() && attempt < 7
  {
    forall i :: 0 <= i < attempt ==> weather.Again(i) && !weather.interrupted[i]
  }

  datatype SendResult = Sent | Failed(error: SendError) | Interrupted

  method SendWithRetry(weather: Weather) returns (result: SendResult, sent: nat, waits: seq<Instant>)
    requires weather.Covers()
    ensures 1 <= sent <= 7 && Reaches(weather, sent - 1)
    ensures |waits| == (if result.Interrupted? then sent else sent - 1) && FollowsServer(weather, waits)
    // The last attempt is where the series had to stop.
    ensures result.Sent? <==> weather.Accepted(sent - 1)
    ensures result.Interrupted? <==> weather.Again(sent - 1)
    ensures result.Interrupted? ==> weather.interrupted[sent - 1]
    ensures result == Failed(Authentication) <==> weather.Refused(sent - 1)
    ensures result == Failed(Authentication) <==> MeetsRefusal(weather)
  {
    var attempt := 0;
    waits := [];
    while attempt < 7
      invariant attempt < 7 && |waits| == attempt && Reaches(weather, attempt) && FollowsServer(weather, waits)
    {
      LaterIsOutOfReach(weather, attempt);
      var failure := Classify(weather.answers[attempt]);
      if failure == None {
        return Sent, attempt + 1, waits;
      }
      if failure.value.Authentication? || !Retryable(failure.value) || attempt == 6 {
        return Failed(failure.value), attempt + 1, waits;
      }
      var delay := BACKOFF[attempt] * NANOS_PER_SECOND;
      if failure.value.TooEarly? {
        delay := failure.value.after;
      }
      WaitFollows(weather, waits, delay);
      waits := waits + [delay];
      if weather.interrupted[attempt] {
        return Interrupted, attempt + 1, waits;
      }
      attempt := attempt + 1;
    }
    assert false;
  }

  /** One more wait, as read from the header or doubled. */
  lemma WaitFollows(weather: Weather, waits: seq<Instant>, delay: Instant)
    requires weather.Covers() && FollowsServer(weather, waits) && |waits| < 7 && weather.Again(|waits|)
    requires var answer := weather.answers[|waits|];
             delay == if answer.code == 429 then ParsedWait(answer.header) else BACKOFF[|waits|] * 1_000_000_000
    ensures FollowsServer(weather, waits + [delay])
  {
    ParsedWaitHonours(weather.answers[|waits|].header);
  }

  /** An attempt that ends the series is the last that the agent reaches, and none before it was refused. */
  lemma LaterIsOutOfReach(weather: Weather, attempt: nat)
    requires weather.Covers() && attempt < 7
    ensures !weather.Again(attempt) || weather.interrupted[attempt] ==>
              forall k :: attempt < k < 7 ==> !Reaches(weather, k)
    ensures Reaches(weather, attempt) ==> forall k :: 0 <= k < attempt ==> !weather.Refused(k)
  {
    if Reaches(weather, attempt) {
      forall k | 0 <= k < attempt ensures !weather.Refused(k) {
        assert weather.Again(k);
      }
    }
  }

  // ---- Against the limiter ----

  /**
   A report that the limiter denied, and that the agent sends again in its series, is admitted: after the wait that
   it takes there, if the limiter asked for at most an hour and no one else was admitted under the key meanwhile.
   */
  lemma SentAgainIsAdmitted(config: Config, before: seq<Op>, denied: Op, between: seq<Op>, retry: Op,
                            weather: Weather, waits: seq<Instant>, i: nat)
    requires weather.Covers() && FollowsServer(weather, waits) && i < |waits|
    requires denied.AllowAt? && retry.AllowAt? && retry.key == denied.key
    requires Perform(config, Final(config, map[], before), denied).1.Denied?
    requires
      var done := Perform(config, Final(config, map[], before), denied);
      && weather.answers[i] == Status(429, RetryHeader(done.1.retryAfter)) && done.1.retryAfter <= MAX_WAIT
      && retry.now >= denied.now + waits[i] && NotAdmitted(config, done.0, between, denied.key)
    ensures
      var done := Perform(config, Final(config, map[], before), denied);
      Perform(config, Final(config, done.0, between), retry).1.Allowed?
  {
    var done := Perform(config, Final(config, map[], before), denied);
    DenialAsks(config, before, denied);
    assert weather.Again(i) && HonoursHeader(weather.answers[i].header, waits[i]);
    WaitingIsEnough(config, before, denied, between, retry);
  }

  // ---- How long a series takes ----

  function Sum(waits: seq<Instant>): Instant {
    if waits == [] then 0 else Sum(waits[..|waits| - 1]) + waits[|waits| - 1]
  }

  lemma {:induction false} DoublingSums(waits: seq<Instant>)
    requires |waits| <= 6 && forall i :: 0 <= i < |waits| ==> waits[i] == BACKOFF[i] * 1_000_000_000
    ensures Sum(waits) == (BACKOFF[|waits|] - 1) * 1_000_000_000
  {
    if waits != [] {
      DoublingSums(waits[..|waits| - 1]);
      BackoffDoubles(|waits| - 1);
    }
  }

  lemma BackoffDoubles(i: nat)
    requires i < 6
    ensures BACKOFF[i + 1] == 2 * BACKOFF[i] && 1 <= BACKOFF[i] && BACKOFF[i + 1] <= 64
  {
    assert i == 0 || i == 1 || i == 2 || i == 3 || i == 4 || i == 5;
  }

  /** A series that meets only server errors waits 63 seconds in all at most; the longest wait is 32 seconds. */
  lemma SeriesIsShort(weather: Weather, waits: seq<Instant>)
    requires weather.Covers() && FollowsServer(weather, waits)
    requires forall i :: 0 <= i < |waits| ==> weather.Again(i) && weather.answers[i].code != 429
    ensures Sum(waits) <= 63_000_000_000
    ensures |waits| == 6 ==> Sum(waits) == 63_000_000_000 && waits[5] == 32_000_000_000
  {
    DoublingSums(waits);
    if waits != [] {
      BackoffDoubles(|waits| - 1);
    }
  }

  // ---- The reporting loop ----

  /** One round of the loop: the renewal before the report, the reading, the sending, and the wait after it. */
  datatype Round = Round(renewal: Outcome, sampled: bool, weather: Weather, canceled: bool)

  /** The round ends the agent's authentication; every other failure is only logged. */
  ghost predicate LosesAuthentication(round: Round)
    requires round.weather.Covers()
  {
    round.renewal.Unauthenticated? || (round.sampled && MeetsRefusal(round.weather))
  }

  datatype End = AuthenticationLost | Canceled | StillRunning

  method Run(rounds: seq<Round>) returns (end: End, passed: nat)
    requires forall i :: 0 <= i < |rounds| ==> rounds[i].weather.Covers()
    ensures passed <= |rounds|
    ensures forall i :: 0 <= i < passed ==> !LosesAuthentication(rounds[i]) && !rounds[i].canceled
    // The round after those passed is the first that loses authentication, or else is canceled.
    ensures match end
            case AuthenticationLost => passed < |rounds| && LosesAuthentication(rounds[passed])
            case Canceled => passed < |rounds| && rounds[passed].canceled && !LosesAuthentication(rounds[passed])
            case StillRunning => passed == |rounds|
  {
    passed := 0;
    while passed < |rounds|
      invariant passed <= |rounds|
      invariant forall i :: 0 <= i < passed ==> !LosesAuthentication(rounds[i]) && !rounds[i].canceled
    {
      var round := rounds[passed];
      if round.renewal.Unauthenticated? {
        return AuthenticationLost, passed;
      }
      if round.sampled {
        var result, sent, waits := SendWithRetry(round.weather);
        if result == Failed(Authentication) {
          return AuthenticationLost, passed;
        }
      }
      if round.canceled {
        return Canceled, passed;
      }
      passed := passed + 1;
    }
    end := StillRunning;
  }
}
