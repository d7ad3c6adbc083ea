/** Vocabulary shared by every module: optional values, the server's error values, and clock arithmetic. */
module Common {

  datatype Option<+T> = None | Some(value: T)

  /** The error values of the server store, plus the unnamed database and validation errors. */
  datatype Error =
    | NodeNotFound
    | NodeDisabled
    | NodeLimit
    | CodeInvalid
    | CodeUsed
    | CodeExpired
    | CertificateUnknown
    | CertificateRevoked
    | CertificateExpired
    | RenewalNotDue
    | ReplayNotFound
    | Unverified
    | RateLimited
    | Internal
    | BadInput

  datatype Result<+T> = Ok(value: T) | Err(error: Error)

  // Clock readings and durations are whole nanoseconds since the Unix epoch.
  type Instant = int

  // Table columns and JSON timestamps hold whole milliseconds.
  type Millis = int

  const NANOS_PER_MILLI: int := 1_000_000
  const NANOS_PER_SECOND: int := 1_000_000_000
  const MILLIS_PER_SECOND: int := 1_000
  const DAY_MILLIS: int := 86_400_000
  const DAY: Instant := 86_400_000_000_000
  const MINUTE: Instant := 60_000_000_000

  // `time.Time.UnixMilli` and whole seconds both round towards the past; so does `/` with a positive divisor.
  function ToMillis(t: Instant): Millis {
    t / NANOS_PER_MILLI
  }

  function FromMillis(m: Millis): Instant {
    m * NANOS_PER_MILLI
  }

  function ToSeconds(t: Instant): int {
    t / NANOS_PER_SECOND
  }
}
