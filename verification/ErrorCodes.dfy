/** The part of the error taxonomy that decides which upstream outcomes reach a minter's
    circuit breaker. */
module ErrorCodes {

  datatype Code =
    | RoleNotFound | RoleDisabled | ConfigInvalid | Unsupported
    | CredentialKindUnsupported | CallerUnidentified | CallerUnparented
    | UpstreamAuthFailed | UpstreamQuotaExceeded | UpstreamTimeout
    | UpstreamUnavailable | UpstreamRequestInvalid | EntityUnavailable
    | PoolExhausted | LeaseRevokeFailed | Internal

  /** What `errors.As` and `errors.Is` can tell about an attempt that produced no status. */
  datatype Failure =
    | NoError
    | PluginFailure(code: Code)
    | DeadlineExceeded
    | NetworkTimeout
    | NetworkFailure
    | Canceled
    | OtherFailure

  function Classify(status: int, err: Failure): Code {
    if status <= 0 then ClassifyTransport(err) else ClassifyUpstream(status)
  }

  function ClassifyUpstream(status: int): Code {
    if status == 429 then UpstreamQuotaExceeded
    else if status == 408 || status == 504 then UpstreamTimeout
    else if status == 401 || status == 403 then UpstreamAuthFailed
    else if status == 404 then EntityUnavailable
    else if status == 400 || status == 422 || status == 409 then UpstreamRequestInvalid
    else if status >= 500 then UpstreamUnavailable
    else Internal
  }

  function ClassifyTransport(err: Failure): Code {
    match err
    case NoError => Internal
    case PluginFailure(code) => code
    case DeadlineExceeded => UpstreamTimeout
    case NetworkTimeout => UpstreamTimeout
    case NetworkFailure => UpstreamUnavailable
    case Canceled => UpstreamUnavailable
    case OtherFailure => Internal
  }

  /** Whether a failure says anything about the minter's own credential. */
  predicate IndictsMinter(code: Code) {
    match code
    case UpstreamRequestInvalid => false
    case ConfigInvalid => false
    case RoleNotFound => false
    case RoleDisabled => false
    case Unsupported => false
    case Internal => false
    case EntityUnavailable => false
    case _ => true
  }

  /** The representative status a code is recorded under. */
  function HealthStatus(code: Code): int {
    match code
    case UpstreamAuthFailed => 403
    case UpstreamQuotaExceeded => 429
    case UpstreamTimeout => 504
    case _ => 503
  }

  /** Of the answers an upstream gives, those about the request or about something that is not
      there clear the minter, and all that concern its login, its quota or the cloud's health do not. */
  lemma IndictingStatuses(status: int)
    requires status > 0
    ensures IndictsMinter(Classify(status, NoError)) <==> status in {401, 403, 408, 429} || status >= 500
  {}

  /** The status an indicting upstream answer is recorded under stands for the same code. */
  lemma RepresentativeStatus(status: int)
    requires IndictsMinter(ClassifyUpstream(status))
    ensures ClassifyUpstream(HealthStatus(ClassifyUpstream(status))) == ClassifyUpstream(status)
  {}

  /** An attempt that got no answer says nothing about the minter exactly when nothing is known of
      why, or when it failed on this side with a code that clears it. */
  lemma IndictingTransport(err: Failure)
    ensures IndictsMinter(Classify(0, err)) <==>
              match err
              case NoError => false
              case OtherFailure => false
              case PluginFailure(code) => IndictsMinter(code)
              case _ => true
  {}

  /** What each code an upstream answer can have stands for, whatever else went wrong with it. */
  lemma StatusesOfEachCode(status: int, err: Failure)
    requires status > 0
    ensures var code := Classify(status, err);
            && (code == UpstreamAuthFailed <==> status in {401, 403})
            && (code == UpstreamQuotaExceeded <==> status == 429)
            && (code == UpstreamTimeout <==> status in {408, 504})
            && (code == EntityUnavailable <==> status == 404)
            && (code == UpstreamRequestInvalid <==> status in {400, 409, 422})
            && (code == UpstreamUnavailable <==> status >= 500 && status != 504)
            && (code == Internal <==> status < 500 && status !in {400, 401, 403, 404, 408, 409, 422, 429})
  {}

  /** Without an answer it is the failure that counts: running out of time is a timeout, a network that
      fails and a caller that gives up are an outage, and a plugin's own code stands. */
  lemma CodesWithoutAnswer(status: int, err: Failure)
    requires status <= 0 && !err.PluginFailure?
    ensures Classify(status, err) == UpstreamTimeout <==> err in {DeadlineExceeded, NetworkTimeout}
    ensures Classify(status, err) == UpstreamUnavailable <==> err in {NetworkFailure, Canceled}
    ensures Classify(status, err) == Internal <==> err in {NoError, OtherFailure}
    ensures forall code :: Classify(status, PluginFailure(code)) == code
  {}

  /** What a code is recorded under: a rejected login, a quota and a timeout as such, all else as an
      outage. And which codes are recorded at all. */
  lemma RecordedAs(code: Code)
    ensures HealthStatus(code) in {401, 403} <==> code == UpstreamAuthFailed
    ensures HealthStatus(code) == 429 <==> code == UpstreamQuotaExceeded
    ensures HealthStatus(code) == 504 <==> code == UpstreamTimeout
    ensures HealthStatus(code) == 503 <==> code !in {UpstreamAuthFailed, UpstreamQuotaExceeded, UpstreamTimeout}
    ensures IndictsMinter(code) <==>
              code in {UpstreamAuthFailed, UpstreamQuotaExceeded, UpstreamTimeout, UpstreamUnavailable, PoolExhausted,
                       LeaseRevokeFailed, CredentialKindUnsupported, CallerUnidentified, CallerUnparented}
  {}
}
