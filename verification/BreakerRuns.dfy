/** Runs of one circuit breaker under any number of concurrent callers. Every event is one
    locked section, so a sequence of events is an interleaving of calls: a recorded 429 is an
    `Outcome` and, some time later, an `Error(503)`. */
module BreakerRuns {
  import opened Common
  import opened ErrorCodes
  import opened Recovery
  import Order

  datatype Event =
    | Acquire(now: Time)
    | Outcome(status: int, err: Failure, retryAfter: int, at: Time, f: Fraction)
    | Error(status: int, at: Time, f: Fraction)
    | Success(at: Time)
    | Release
    | MarkMissing

  function CodeOf(e: Event): Code
    requires e.Outcome?
  {
    Classify(e.status, e.err)
  }

  function Step(b: Breaker, e: Event, threshold: int): Breaker {
    match e
    case Acquire(now) => AfterAcquire(b, now)
    case Outcome(_, _, retryAfter, at, f) =>
      if !IndictsMinter(CodeOf(e)) then b.(probeUntil := 0)
      else if CodeOf(e) == UpstreamQuotaExceeded then AfterRateLimit(b, retryAfter, f, at)
      else AfterError(b, HealthStatus(CodeOf(e)), at, threshold, f)
    case Error(status, at, f) => AfterError(b, status, at, threshold, f)
    case Success(at) => AfterSuccess(b, at)
    case Release => b.(probeUntil := 0)
    case MarkMissing => b.(state := Missing)
  }

  function Run(b: Breaker, tr: seq<Event>, threshold: int): Breaker {
    if tr == [] then b
    else Step(Run(b, tr[..|tr| - 1], threshold), tr[|tr| - 1], threshold)
  }

  /** The calls of a caller nobody comes between are short runs: recording an outcome is one event, or
      two for a 429, and the other calls are one each. */
  lemma CallsAreRuns(b: Breaker, status: int, err: Failure, retryAfter: int, at: Time, threshold: int, f: Fraction)
    ensures var e := Outcome(status, err, retryAfter, at, f);
            AfterRecord(b, status, err, retryAfter, at, threshold, f) ==
            Run(b, if Classify(status, err) == UpstreamQuotaExceeded then [e, Error(503, at, f)] else [e], threshold)
  {
    var e, later := Outcome(status, err, retryAfter, at, f), Error(503, at, f);
    assert [e][..0] == [] && [e, later][..1] == [e];
    assert Run(b, [e], threshold) == Step(b, e, threshold);
    assert Run(b, [e, later], threshold) == Step(Run(b, [e], threshold), later, threshold);
  }

  lemma RunNext(b: Breaker, tr: seq<Event>, n: nat, threshold: int)
    requires n < |tr|
    ensures Run(b, tr[..n + 1], threshold) == Step(Run(b, tr[..n], threshold), tr[n], threshold)
  {
    assert tr[..n + 1][..n] == tr[..n];
  }

  predicate RateLimited(e: Event) {
    e.Outcome? && CodeOf(e) == UpstreamQuotaExceeded
  }

  predicate DirectRateLimit(e: Event) {
    e.Error? && e.status == 429
  }

  predicate AuthFailure(e: Event) {
    (e.Error? && IsAuthError(e.status)) || (e.Outcome? && CodeOf(e) == UpstreamAuthFailed)
  }

  predicate OtherFailure(e: Event) {
    || (e.Error? && !IsAuthError(e.status))
    || (e.Outcome? && IndictsMinter(CodeOf(e)) && !RateLimited(e) && !AuthFailure(e))
  }

  // ----- the half-open claim -------------------------------------------------------------

  predicate FreesClaim(e: Event) {
    || e.Success? || e.Release? || RateLimited(e)
    || (e.Outcome? && !IndictsMinter(CodeOf(e)))
  }

  /** Of the events other than `TryAcquire`, exactly these free a claim: a recorded 5xx or 401
      leaves it standing although the probe has reported. */
  lemma ClaimFreedExactly(b: Breaker, e: Event, threshold: int)
    requires b.probeUntil > 0 && !e.Acquire?
    ensures FreesClaim(e) ==> Step(b, e, threshold).probeUntil == 0
    ensures !FreesClaim(e) ==> Step(b, e, threshold).probeUntil == b.probeUntil
  {}

  predicate GrantedHalfOpen(b: Breaker, tr: seq<Event>, i: nat, threshold: int)
    requires i < |tr|
  {
    && tr[i].Acquire?
    && Run(b, tr[..i], threshold).rateLimitStrikes > 0
    && Grants(Run(b, tr[..i], threshold), tr[i].now)
  }

  lemma ClaimStep(b: Breaker, e: Event, threshold: int)
    requires !FreesClaim(e)
    ensures Step(b, e, threshold).probeUntil ==
              if e.Acquire? && Grants(b, e.now) && b.rateLimitStrikes > 0 then e.now + PROBE_GRACE else b.probeUntil
  {}

  lemma {:induction false} ClaimHeld(b: Breaker, tr: seq<Event>, i: nat, n: nat, threshold: int)
    requires i < n <= |tr| && GrantedHalfOpen(b, tr, i, threshold)
    requires forall k :: i < k < n ==> !FreesClaim(tr[k])
    ensures Run(b, tr[..n], threshold).probeUntil >= tr[i].now + PROBE_GRACE
  {
    var before, e := Run(b, tr[..n - 1], threshold), tr[n - 1];
    RunNext(b, tr, n - 1, threshold);
    ClaimStep(before, e, threshold);
    if n > i + 1 {
      ClaimHeld(b, tr, i, n - 1, threshold);
      assert !FreesClaim(e);
    }
  }

  /** Half-open is single-flight, whatever the callers' clocks read. */
  lemma HalfOpenIsSingleFlight(b: Breaker, tr: seq<Event>, i: nat, j: nat, threshold: int)
    requires i < j < |tr|
    requires GrantedHalfOpen(b, tr, i, threshold) && GrantedHalfOpen(b, tr, j, threshold)
    ensures tr[j].now >= tr[i].now + PROBE_GRACE || exists k :: i < k < j && FreesClaim(tr[k])
  {
    if forall k :: i < k < j ==> !FreesClaim(tr[k]) {
      ClaimHeld(b, tr, i, j, threshold);
    }
  }

  // ----- exoneration ---------------------------------------------------------------------

  /** Events that must not count against the minter. */
  predicate Exonerated(e: Event) {
    e.Acquire? || e.Release? || (e.Outcome? && !IndictsMinter(CodeOf(e)))
  }

  function WithoutExonerated(tr: seq<Event>): seq<Event> {
    Order.Filter((e: Event) => !Exonerated(e), tr)
  }

  predicate SameButClaim(b: Breaker, c: Breaker) {
    b.(probeUntil := 0) == c.(probeUntil := 0)
  }

  lemma ExoneratedMovesOnlyClaim(b: Breaker, e: Event, threshold: int)
    requires Exonerated(e)
    ensures SameButClaim(Step(b, e, threshold), b)
  {}

  lemma ErrorIgnoresClaim(b: Breaker, status: int, at: Time, threshold: int, f: Fraction, claim: Time)
    ensures AfterError(b.(probeUntil := claim), status, at, threshold, f)
         == AfterError(b, status, at, threshold, f).(probeUntil := claim)
  {}

  lemma CountedIgnoresClaim(b: Breaker, c: Breaker, e: Event, threshold: int)
    requires !Exonerated(e) && SameButClaim(b, c)
    ensures SameButClaim(Step(b, e, threshold), Step(c, e, threshold))
  {
    assert c == b.(probeUntil := c.probeUntil);
    match e
    case Outcome(_, _, _, at, f) =>
      ErrorIgnoresClaim(b, HealthStatus(CodeOf(e)), at, threshold, f, c.probeUntil);
    case Error(status, at, f) => ErrorIgnoresClaim(b, status, at, threshold, f, c.probeUntil);
    case Success(_) =>
    case MarkMissing =>
  }

  lemma RunSnoc(b: Breaker, tr: seq<Event>, e: Event, threshold: int)
    ensures Run(b, tr + [e], threshold) == Step(Run(b, tr, threshold), e, threshold)
  {
    assert (tr + [e])[..|tr|] == tr;
  }

  /** Deleting every exonerated event from a run changes nothing but the claim. */
  lemma {:induction false} ExonerationIsNonInterfering(b: Breaker, tr: seq<Event>, threshold: int)
    ensures SameButClaim(Run(b, tr, threshold), Run(b, WithoutExonerated(tr), threshold))
  {
    if tr != [] {
      var before, e := tr[..|tr| - 1], tr[|tr| - 1];
      assert tr == before + [e];
      ExonerationIsNonInterfering(b, before, threshold);
      Order.FilterConcat((x: Event) => !Exonerated(x), before, [e]);
      var kept := WithoutExonerated(before);
      if Exonerated(e) {
        ExoneratedMovesOnlyClaim(Run(b, before, threshold), e, threshold);
        assert WithoutExonerated(tr) == kept;
      } else {
        CountedIgnoresClaim(Run(b, before, threshold), Run(b, kept, threshold), e, threshold);
        assert WithoutExonerated(tr) == kept + [e];
        RunSnoc(b, kept, e, threshold);
      }
    }
  }

  // ----- the auth-failure window ---------------------------------------------------------

  ghost predicate SinceSuccess(tr: seq<Event>, i: int) {
    0 <= i < |tr| && forall k :: i <= k < |tr| ==> !tr[k].Success?
  }

  ghost predicate MissingSinceSuccess(tr: seq<Event>) {
    exists i :: SinceSuccess(tr, i) && tr[i].MarkMissing?
  }

  /** An auth failure at `i` with no other counted failure between it and position `n`. */
  ghost predicate AuthRun(tr: seq<Event>, i: int, n: int) {
    0 <= i < n <= |tr| && AuthFailure(tr[i]) && forall k :: i < k < n ==> !OtherFailure(tr[k])
  }

  /** Two auth failures since the last success, a threshold apart, and nothing else counted
      between them. */
  ghost predicate Sustained(tr: seq<Event>, i: int, j: int, threshold: int) {
    && SinceSuccess(tr, i)
    && i < j < |tr| && AuthRun(tr, i, j) && AuthFailure(tr[j])
    && tr[j].at - tr[i].at >= threshold
  }

  ghost predicate AuthTimesAscend(tr: seq<Event>) {
    && (forall i :: 0 <= i < |tr| && AuthFailure(tr[i]) ==> tr[i].at > 0)
    && (forall i, j :: 0 <= i < j < |tr| && AuthFailure(tr[i]) && AuthFailure(tr[j]) ==> tr[i].at <= tr[j].at)
  }

  /** `firstAuthErrorAt` is the time of the earliest auth failure of the current run of them. */
  ghost predicate RunMatches(tr: seq<Event>, b: Breaker) {
    && (b.firstAuthErrorAt != 0 ==>
        exists i :: SinceSuccess(tr, i) && AuthRun(tr, i, |tr|) && tr[i].at == b.firstAuthErrorAt)
    && (forall i :: SinceSuccess(tr, i) && AuthRun(tr, i, |tr|) ==> 0 < b.firstAuthErrorAt <= tr[i].at)
  }

  ghost predicate NoFailures(tr: seq<Event>) {
    forall i :: SinceSuccess(tr, i) ==> !AuthFailure(tr[i]) && !OtherFailure(tr[i])
  }

  ghost predicate WindowMatches(tr: seq<Event>, b: Breaker, threshold: int) {
    && (b.state == Missing <==> MissingSinceSuccess(tr))
    && (b.state == AuthFailing <==>
        !MissingSinceSuccess(tr) && exists i, j :: Sustained(tr, i, j, threshold))
    && (b.state == Healthy ==> b.firstAuthErrorAt == 0 && NoFailures(tr))
    && (b.state == TransientFailing ==> RunMatches(tr, b))
  }

  lemma SinceSuccessNext(tr: seq<Event>, e: Event, i: int)
    ensures SinceSuccess(tr + [e], i) <==> !e.Success? && (SinceSuccess(tr, i) || i == |tr|)
  {
    var next := tr + [e];
    assert next[|tr|] == e;
    if SinceSuccess(next, i) && i < |tr| {
      assert forall k :: i <= k < |tr| ==> next[k] == tr[k];
    }
  }

  lemma AuthRunNext(tr: seq<Event>, e: Event, i: int)
    ensures AuthRun(tr + [e], i, |tr| + 1) <==>
              (AuthRun(tr, i, |tr|) && !OtherFailure(e)) || (i == |tr| && AuthFailure(e))
  {
    var next := tr + [e];
    assert next[|tr|] == e;
    if AuthRun(next, i, |tr| + 1) && i < |tr| {
      assert forall k :: i < k < |tr| ==> next[k] == tr[k];
    }
  }

  lemma SustainedWithin(tr: seq<Event>, e: Event, i: int, j: int, threshold: int)
    requires !e.Success? && j < |tr|
    ensures Sustained(tr + [e], i, j, threshold) <==> Sustained(tr, i, j, threshold)
  {
    SinceSuccessNext(tr, e, i);
    if 0 <= i < j {
      assert forall k :: 0 <= k <= j ==> (tr + [e])[k] == tr[k];
      if Sustained(tr + [e], i, j, threshold) {
        assert forall k :: i < k < j ==> !OtherFailure((tr + [e])[k]);
      }
    }
  }

  lemma MissingNext(tr: seq<Event>, e: Event)
    ensures MissingSinceSuccess(tr + [e]) <==> e.MarkMissing? || (MissingSinceSuccess(tr) && !e.Success?)
  {
    var next := tr + [e];
    forall i { SinceSuccessNext(tr, e, i); }
    if e.MarkMissing? { assert SinceSuccess(next, |tr|) && next[|tr|].MarkMissing?; }
    if MissingSinceSuccess(tr) && !e.Success? {
      var i :| SinceSuccess(tr, i) && tr[i].MarkMissing?;
      assert SinceSuccess(next, i) && next[i].MarkMissing?;
    }
  }

  ghost predicate Completes(tr: seq<Event>, e: Event, i: int, threshold: int) {
    AuthFailure(e) && SinceSuccess(tr, i) && AuthRun(tr, i, |tr|) && e.at - tr[i].at >= threshold
  }

  lemma SustainedNext(tr: seq<Event>, e: Event, threshold: int)
    ensures (exists i, j :: Sustained(tr + [e], i, j, threshold)) <==>
              !e.Success? &&
              ((exists i, j :: Sustained(tr, i, j, threshold)) || exists i :: Completes(tr, e, i, threshold))
  {
    var next := tr + [e];
    assert next[|tr|] == e;
    if i, j :| Sustained(next, i, j, threshold) {
      SinceSuccessNext(tr, e, i);
      if j < |tr| {
        SustainedWithin(tr, e, i, j, threshold);
      } else {
        assert forall k :: i < k < |tr| ==> next[k] == tr[k];
        assert Completes(tr, e, i, threshold);
      }
    }
    if i, j :| !e.Success? && Sustained(tr, i, j, threshold) {
      SustainedWithin(tr, e, i, j, threshold);
    }
    if i :| !e.Success? && Completes(tr, e, i, threshold) {
      SinceSuccessNext(tr, e, i);
      assert forall k :: i < k < |tr| ==> next[k] == tr[k];
      assert Sustained(next, i, |tr|, threshold);
    }
  }

  lemma NoFailuresNext(tr: seq<Event>, e: Event)
    ensures NoFailures(tr + [e]) <==>
              e.Success? || (NoFailures(tr) && !AuthFailure(e) && !OtherFailure(e))
  {
    forall i { SinceSuccessNext(tr, e, i); }
    assert (tr + [e])[|tr|] == e;
    if NoFailures(tr + [e]) && !e.Success? {
      assert SinceSuccess(tr + [e], |tr|);
      forall i | SinceSuccess(tr, i) ensures !AuthFailure(tr[i]) && !OtherFailure(tr[i]) {
        assert SinceSuccess(tr + [e], i);
      }
    }
  }

  /** What a counted failure does to the health part of the state. */
  lemma HealthStep(b: Breaker, e: Event, threshold: int)
    ensures var b' := Step(b, e, threshold);
            if AuthFailure(e) || OtherFailure(e) then
              var c := AfterFailure(b, AuthFailure(e), e.at, threshold);
              b'.state == c.state && b'.firstAuthErrorAt == c.firstAuthErrorAt
            else if e.Success? then b'.state == Healthy && b'.firstAuthErrorAt == 0
            else b'.firstAuthErrorAt == b.firstAuthErrorAt && b'.state == if e.MarkMissing? then Missing else b.state
  {}

  lemma WindowRunNext(tr: seq<Event>, e: Event, b: Breaker, threshold: int)
    requires threshold > 0 && AuthTimesAscend(tr + [e]) && WindowMatches(tr, b, threshold)
    requires b.state == TransientFailing || (b.state == Healthy && AuthFailure(e))
    requires Step(b, e, threshold).state == TransientFailing
    ensures RunMatches(tr + [e], Step(b, e, threshold))
  {
    HealthStep(b, e, threshold);
    var next, b' := tr + [e], Step(b, e, threshold);
    assert next[|tr|] == e && forall i :: 0 <= i < |tr| ==> next[i] == tr[i];
    forall i { SinceSuccessNext(tr, e, i); }
    forall i { AuthRunNext(tr, e, i); }
    if b'.firstAuthErrorAt != 0 {
      if b.state == TransientFailing && b.firstAuthErrorAt != 0 {
        var i :| SinceSuccess(tr, i) && AuthRun(tr, i, |tr|) && tr[i].at == b.firstAuthErrorAt;
        assert SinceSuccess(next, i) && AuthRun(next, i, |next|) && next[i].at == b'.firstAuthErrorAt;
      } else {
        assert SinceSuccess(next, |tr|) && AuthRun(next, |tr|, |next|) && next[|tr|].at == b'.firstAuthErrorAt;
      }
    }
  }

  lemma WindowNext(tr: seq<Event>, e: Event, b: Breaker, threshold: int)
    requires threshold > 0 && AuthTimesAscend(tr + [e]) && WindowMatches(tr, b, threshold)
    ensures WindowMatches(tr + [e], Step(b, e, threshold), threshold)
  {
    MissingNext(tr, e);
    SustainedNext(tr, e, threshold);
    NoFailuresNext(tr, e);
    HealthStep(b, e, threshold);
    var b' := Step(b, e, threshold);
    if b'.state == TransientFailing {
      if b.state == TransientFailing || AuthFailure(e) {
        WindowRunNext(tr, e, b, threshold);
      } else {
        forall i { SinceSuccessNext(tr, e, i); }
        forall i { AuthRunNext(tr, e, i); }
      }
    }
    if b'.state == AuthFailing && b.state != AuthFailing {
      var i :| SinceSuccess(tr, i) && AuthRun(tr, i, |tr|) && tr[i].at == b.firstAuthErrorAt;
      assert Completes(tr, e, i, threshold);
    }
  }

  lemma {:induction false} WindowHolds(tr: seq<Event>, threshold: int)
    requires threshold > 0 && AuthTimesAscend(tr)
    ensures WindowMatches(tr, Run(NewBreaker, tr, threshold), threshold)
  {
    if tr != [] {
      var n := |tr| - 1;
      assert tr == tr[..n] + [tr[n]];
      WindowHolds(tr[..n], threshold);
      WindowNext(tr[..n], tr[n], Run(NewBreaker, tr[..n], threshold), threshold);
    }
  }

  /** With a positive threshold and a clock that does not run backwards, the breaker is in
      `AuthFailing` exactly when no `RecordMissing` and some sustained pair of auth failures
      have been recorded since the last success. */
  lemma AuthFailingExactly(tr: seq<Event>, threshold: int)
    requires threshold > 0 && AuthTimesAscend(tr)
    ensures Run(NewBreaker, tr, threshold).state == AuthFailing <==>
              !MissingSinceSuccess(tr) && exists i, j :: Sustained(tr, i, j, threshold)
    ensures Run(NewBreaker, tr, threshold).state == Missing <==> MissingSinceSuccess(tr)
  {
    WindowHolds(tr, threshold);
  }

  /** The breaker has been auth-failing since the first sustained pair was complete. */
  ghost predicate EnteredMatches(tr: seq<Event>, b: Breaker, threshold: int) {
    b.state == AuthFailing ==>
      exists i, j :: Sustained(tr, i, j, threshold) && b.enteredAuthFailed == tr[j].at
                     && forall k, l :: Sustained(tr, k, l, threshold) ==> j <= l
  }

  lemma EnteredNext(tr: seq<Event>, e: Event, b: Breaker, threshold: int)
    requires threshold > 0 && AuthTimesAscend(tr + [e])
    requires WindowMatches(tr, b, threshold) && EnteredMatches(tr, b, threshold)
    ensures EnteredMatches(tr + [e], Step(b, e, threshold), threshold)
  {
    var next, b' := tr + [e], Step(b, e, threshold);
    HealthStep(b, e, threshold);
    EnteredStep(b, e, threshold);
    MissingNext(tr, e);
    hide Step;
    if b'.state == AuthFailing {
      assert next[|tr|] == e;
      if b.state == AuthFailing {
        var i, j :| Sustained(tr, i, j, threshold) && b.enteredAuthFailed == tr[j].at
                    && forall k, l :: Sustained(tr, k, l, threshold) ==> j <= l;
        SustainedWithin(tr, e, i, j, threshold);
        assert next[j] == tr[j];
        forall k, l | Sustained(next, k, l, threshold) ensures j <= l {
          if l < |tr| { SustainedWithin(tr, e, k, l, threshold); }
        }
      } else {
        WindowNext(tr, e, b, threshold);
        var i, j :| Sustained(next, i, j, threshold);
        if j < |tr| { SustainedWithin(tr, e, i, j, threshold); }
        forall k, l | Sustained(next, k, l, threshold) ensures j <= l {
          if l < |tr| { SustainedWithin(tr, e, k, l, threshold); }
        }
      }
    }
  }

  lemma EnteredStep(b: Breaker, e: Event, threshold: int)
    ensures var c := Step(b, e, threshold);
            c.enteredAuthFailed ==
              if c.state == AuthFailing && b.state != AuthFailing then e.at else b.enteredAuthFailed
  {}

  /** What is reported as the time a breaker became auth-failing is that of the failure that made it
      so. */
  lemma {:induction false} EnteredExactly(tr: seq<Event>, threshold: int)
    requires threshold > 0 && AuthTimesAscend(tr)
    ensures EnteredMatches(tr, Run(NewBreaker, tr, threshold), threshold)
  {
    if tr != [] {
      var n := |tr| - 1;
      assert tr == tr[..n] + [tr[n]];
      EnteredExactly(tr[..n], threshold);
      WindowHolds(tr[..n], threshold);
      EnteredNext(tr[..n], tr[n], Run(NewBreaker, tr[..n], threshold), threshold);
    }
  }

  // ----- who is let through --------------------------------------------------------------

  /** A breaker out of service lets nobody through, whatever its clock says: one marked missing, or
      with a sustained pair of auth failures, since its last success. One that is neither lets
      everybody through who comes after its cooldown, as long as it has no strikes. */
  lemma OutOfServiceIsRefused(tr: seq<Event>, now: Time, threshold: int)
    requires threshold > 0 && AuthTimesAscend(tr)
    ensures MissingSinceSuccess(tr) || (exists i, j :: Sustained(tr, i, j, threshold)) ==>
              !Grants(Run(NewBreaker, tr, threshold), now)
    ensures !MissingSinceSuccess(tr) && !(exists i, j :: Sustained(tr, i, j, threshold)) ==>
              var b := Run(NewBreaker, tr, threshold);
              now >= b.cooldownUntil && b.rateLimitStrikes == 0 ==> Grants(b, now)
  {
    AuthFailingExactly(tr, threshold);
  }

  /** What a recorded status is to the breaker. */
  lemma LoginStatuses(status: int, at: Time, f: Fraction)
    ensures AuthFailure(Error(status, at, f)) <==> status == 401 || status == 403
    ensures OtherFailure(Error(status, at, f)) <==> status != 401 && status != 403
  {}

  // ----- the counters --------------------------------------------------------------------

  /** The events of one kind since the last success. */
  ghost function SinceOf(tr: seq<Event>, kind: Event -> bool): set<int> {
    set i | 0 <= i < |tr| && SinceSuccess(tr, i) && kind(tr[i])
  }

  lemma SinceOfNext(tr: seq<Event>, e: Event, kind: Event -> bool)
    ensures SinceOf(tr + [e], kind) ==
              if e.Success? then {} else SinceOf(tr, kind) + (if kind(e) then {|tr|} else {})
    ensures |SinceOf(tr + [e], kind)| == if e.Success? then 0 else |SinceOf(tr, kind)| + (if kind(e) then 1 else 0)
  {
    forall i { SinceSuccessNext(tr, e, i); }
    assert (tr + [e])[|tr|] == e;
  }

  lemma NothingSince(kind: Event -> bool)
    ensures SinceOf([], kind) == {}
  {}

  /** Some event is the last of its kind. */
  ghost predicate LastOf(tr: seq<Event>, kind: Event -> bool, i: int) {
    0 <= i < |tr| && kind(tr[i]) && forall k :: i < k < |tr| ==> !kind(tr[k])
  }

  lemma LastOfNext(tr: seq<Event>, e: Event, kind: Event -> bool, i: int)
    ensures LastOf(tr + [e], kind, i) <==> if kind(e) then i == |tr| else LastOf(tr, kind, i)
  {
    var next := tr + [e];
    assert next[|tr|] == e && forall k :: 0 <= k < |tr| ==> next[k] == tr[k];
    if LastOf(next, kind, i) && !kind(e) { assert i != |tr|; }
  }

  function LoginRejected(): Event -> bool {
    (e: Event) => AuthFailure(e)
  }

  function CountedFailure(): Event -> bool {
    (e: Event) => AuthFailure(e) || OtherFailure(e)
  }

  function QuotaAnswer(): Event -> bool {
    (e: Event) => RateLimited(e)
  }

  function Succeeded(): Event -> bool {
    (e: Event) => e.Success?
  }

  lemma CountStep(b: Breaker, e: Event, threshold: int)
    ensures var c := Step(b, e, threshold);
            && c.consecutiveAuthFailures ==
                 (if e.Success? then 0 else b.consecutiveAuthFailures + (if AuthFailure(e) then 1 else 0))
            && c.consecutiveFailures ==
                 (if e.Success? then 0
                  else b.consecutiveFailures + (if AuthFailure(e) || OtherFailure(e) then 1 else 0))
            && c.rateLimitStrikes == (if e.Success? then 0 else b.rateLimitStrikes + (if RateLimited(e) then 1 else 0))
            && c.lastErrorAt == (if AuthFailure(e) || OtherFailure(e) then e.at else b.lastErrorAt)
            && c.lastSuccessAt == (if e.Success? then e.at else b.lastSuccessAt)
  {}

  /** The counters are what their names say: the rejected logins, the failures and the 429s since the
      last success, each counted once and by nothing else; in particular a success clears them all. */
  lemma {:induction false} CountersAreExact(tr: seq<Event>, threshold: int)
    ensures var b := Run(NewBreaker, tr, threshold);
            && b.consecutiveAuthFailures == |SinceOf(tr, LoginRejected())|
            && b.consecutiveFailures == |SinceOf(tr, CountedFailure())|
            && b.rateLimitStrikes == |SinceOf(tr, QuotaAnswer())|
  {
    if tr == [] { NothingSince(LoginRejected()); NothingSince(CountedFailure()); NothingSince(QuotaAnswer()); }
    hide Step, SinceOf, SinceSuccess;
    if tr != [] {
      var before, e := tr[..|tr| - 1], tr[|tr| - 1];
      assert tr == before + [e];
      CountersAreExact(before, threshold);
      SinceOfNext(before, e, LoginRejected());
      SinceOfNext(before, e, CountedFailure());
      SinceOfNext(before, e, QuotaAnswer());
      CountStep(Run(NewBreaker, before, threshold), e, threshold);
    }
  }

  /** And the times are those of the last failure counted and of the last success. */
  lemma {:induction false} TimesAreExact(tr: seq<Event>, threshold: int)
    ensures var b := Run(NewBreaker, tr, threshold);
            && (forall i :: LastOf(tr, CountedFailure(), i) ==> b.lastErrorAt == tr[i].at)
            && (forall i :: LastOf(tr, Succeeded(), i) ==> b.lastSuccessAt == tr[i].at)
  {
    hide Step;
    if tr != [] {
      var before, e := tr[..|tr| - 1], tr[|tr| - 1];
      assert tr == before + [e];
      TimesAreExact(before, threshold);
      CountStep(Run(NewBreaker, before, threshold), e, threshold);
      forall i | LastOf(tr, CountedFailure(), i)
        ensures Run(NewBreaker, tr, threshold).lastErrorAt == tr[i].at
      {
        LastOfNext(before, e, CountedFailure(), i);
      }
      forall i | LastOf(tr, Succeeded(), i)
        ensures Run(NewBreaker, tr, threshold).lastSuccessAt == tr[i].at
      {
        LastOfNext(before, e, Succeeded(), i);
      }
    }
  }

  /** What two breakers agree on once each has recorded the same success. */
  predicate SameSinceSuccess(b: Breaker, c: Breaker) {
    b == c.(lastErrorAt := b.lastErrorAt, enteredAuthFailed := b.enteredAuthFailed)
  }

  lemma SameSinceNext(b: Breaker, c: Breaker, e: Event, threshold: int)
    requires SameSinceSuccess(b, c)
    ensures SameSinceSuccess(Step(b, e, threshold), Step(c, e, threshold))
  {}

  lemma StepOfSuccess(b: Breaker, at: Time, threshold: int)
    ensures Step(b, Success(at), threshold) == AfterSuccess(b, at)
  {}

  lemma SuccessLevels(b: Breaker, c: Breaker, at: Time)
    ensures SameSinceSuccess(AfterSuccess(b, at), AfterSuccess(c, at))
  {}

  /** A success forgets: from it on, whatever came before makes no difference to what is granted,
      counted or awaited. */
  lemma {:induction false} SuccessForgets(b: Breaker, c: Breaker, at: Time, tr: seq<Event>, threshold: int)
    ensures SameSinceSuccess(Run(b, [Success(at)] + tr, threshold), Run(c, [Success(at)] + tr, threshold))
  {
    hide SameSinceSuccess, Step;
    if tr == [] {
      assert [Success(at)] + tr == [] + [Success(at)];
      RunSnoc(b, [], Success(at), threshold);
      RunSnoc(c, [], Success(at), threshold);
      SuccessLevels(b, c, at);
      assert Step(b, Success(at), threshold) == AfterSuccess(b, at) by { StepOfSuccess(b, at, threshold); }
      assert Step(c, Success(at), threshold) == AfterSuccess(c, at) by { StepOfSuccess(c, at, threshold); }
    } else {
      var before, e := tr[..|tr| - 1], tr[|tr| - 1];
      assert [Success(at)] + tr == ([Success(at)] + before) + [e];
      SuccessForgets(b, c, at, before, threshold);
      SameSinceNext(Run(b, [Success(at)] + before, threshold), Run(c, [Success(at)] + before, threshold), e, threshold);
      RunSnoc(b, [Success(at)] + before, e, threshold);
      RunSnoc(c, [Success(at)] + before, e, threshold);
    }
  }

  // ----- what a refused caller is told ---------------------------------------------------

  /** `RetryIn` is zero exactly when a serviceable breaker would grant. */
  lemma RetryInIsZeroExactlyWhenGranted(b: Breaker, now: Time)
    requires Serviceable(b)
    ensures Grants(b, now) <==> RetryIn(b, now) == 0
  {}

  /** During a cooldown, waiting exactly `RetryIn` succeeds unless an old claim outlives it. */
  lemma WaiterGrantedExactly(b: Breaker, now: Time)
    requires Serviceable(b) && now < b.cooldownUntil
    ensures Grants(b, now + RetryIn(b, now)) <==> b.rateLimitStrikes == 0 || b.probeUntil <= b.cooldownUntil
  {}

  /** What a refused caller is told: nothing to wait for when the breaker is out of service, the rest
      of the cooldown while it lasts, and a tenth of a second while somebody else probes. */
  lemma RetryInMeans(b: Breaker, now: Time)
    ensures b.state in {AuthFailing, Missing} ==> RetryIn(b, now) == 0
    ensures b.state in {Healthy, TransientFailing} ==>
              && (now < b.cooldownUntil ==> now + RetryIn(b, now) == b.cooldownUntil)
              && (now >= b.cooldownUntil && b.rateLimitStrikes > 0 && now < b.probeUntil ==>
                    RetryIn(b, now) == SECOND / 10)
  {}

  ghost predicate AcquiredBy(tr: seq<Event>, now: Time) {
    forall i :: 0 <= i < |tr| && tr[i].Acquire? ==> tr[i].now <= now
  }

  lemma {:induction false} ClaimsFollowCooldowns(tr: seq<Event>, threshold: int)
    requires forall i :: 0 <= i < |tr| ==> !DirectRateLimit(tr[i])
    ensures var b := Run(NewBreaker, tr, threshold);
            b.probeUntil > 0 ==> exists i :: 0 <= i < |tr| && tr[i].Acquire? && b.cooldownUntil <= tr[i].now
  {
    if tr != [] {
      var n := |tr| - 1;
      ClaimsFollowCooldowns(tr[..n], threshold);
      var before, b := Run(NewBreaker, tr[..n], threshold), Run(NewBreaker, tr, threshold);
      if b.probeUntil > 0 {
        if before.probeUntil > 0 && b.cooldownUntil == before.cooldownUntil {
          var i :| 0 <= i < n && tr[..n][i].Acquire? && before.cooldownUntil <= tr[..n][i].now;
          assert tr[i].Acquire? && b.cooldownUntil <= tr[i].now;
        } else {
          assert tr[n].Acquire? && b.cooldownUntil <= tr[n].now;
        }
      }
    }
  }

  /** A caller refused during a cooldown and told to wait is granted if it waits exactly that
      long and nothing happens in between, in every state the classified recorders can reach. */
  lemma {:induction false} WaiterIsGranted(tr: seq<Event>, now: Time, threshold: int)
    requires forall i :: 0 <= i < |tr| ==> !DirectRateLimit(tr[i])
    requires AcquiredBy(tr, now)
    ensures var b := Run(NewBreaker, tr, threshold);
            Serviceable(b) && now < b.cooldownUntil ==> Grants(b, now + RetryIn(b, now))
  {
    ClaimsFollowCooldowns(tr, threshold);
  }

  /** Not so once a caller records a 429 through `RecordError`: it opens a cooldown without
      releasing the claim of the probe in flight. */
  lemma DirectRateLimitMisleadsWaiter()
    ensures var tr := [Outcome(429, NoError, 1, 1, 0.0), Acquire(10 * SECOND), Error(429, 10 * SECOND, 0.0)];
            var b := Run(NewBreaker, tr, 1);
            Serviceable(b) && 10 * SECOND < b.cooldownUntil
            && !Grants(b, 10 * SECOND + RetryIn(b, 10 * SECOND))
  {
    var tr := [Outcome(429, NoError, 1, 1, 0.0), Acquire(10 * SECOND), Error(429, 10 * SECOND, 0.0)];
    RunNext(NewBreaker, tr, 0, 1);
    RunNext(NewBreaker, tr, 1, 1);
    RunNext(NewBreaker, tr, 2, 1);
    assert tr[..3] == tr && tr[..0] == [];
  }

  // ----- the back-off floor --------------------------------------------------------------

  predicate MovesCooldown(e: Event) {
    e.Success? || RateLimited(e) || DirectRateLimit(e)
  }

  function Strikes(b: Breaker, tr: seq<Event>, i: nat, threshold: int): nat
    requires i < |tr|
  {
    Run(b, tr[..i + 1], threshold).rateLimitStrikes
  }

  /** The shortest wait a 429 guarantees: what the cloud asked for, or half the back-off. */
  function Floor(strikes: int, hint: int): int {
    if hint > 0 then hint else Backoff(strikes) / 2
  }

  /** The longest wait a 429 leads to. */
  function Ceiling(strikes: int, hint: int): int {
    if hint > 2 * SECOND then hint + 2 * SECOND else if hint > 0 then hint + hint else Backoff(strikes)
  }

  lemma CooldownStep(b: Breaker, e: Event, threshold: int)
    ensures !MovesCooldown(e) ==> Step(b, e, threshold).cooldownUntil == b.cooldownUntil
    ensures RateLimited(e) ==>
              var c := Step(b, e, threshold);
              && e.at + Floor(c.rateLimitStrikes, e.retryAfter) <= c.cooldownUntil
              && c.cooldownUntil <= e.at + Ceiling(c.rateLimitStrikes, e.retryAfter)
    ensures DirectRateLimit(e) ==>
              e.at + 5 * SECOND / 2 <= Step(b, e, threshold).cooldownUntil <= e.at + 5 * SECOND
    ensures e.Success? ==> Step(b, e, threshold).cooldownUntil == 0
  {
    BackoffLadder(1);
  }

  lemma {:induction false} CooldownEnds(b: Breaker, tr: seq<Event>, i: nat, n: nat, threshold: int)
    requires i < n <= |tr| && RateLimited(tr[i])
    requires forall k :: i < k < n ==> !MovesCooldown(tr[k]) && !tr[k].Acquire?
    ensures var c := Run(b, tr[..n], threshold);
            && c.cooldownUntil <= tr[i].at + Ceiling(Strikes(b, tr, i, threshold), tr[i].retryAfter)
            && c.probeUntil == 0
  {
    RunNext(b, tr, n - 1, threshold);
    CooldownStep(Run(b, tr[..n - 1], threshold), tr[n - 1], threshold);
    if n > i + 1 {
      CooldownEnds(b, tr, i, n - 1, threshold);
      if !FreesClaim(tr[n - 1]) { ClaimStep(Run(b, tr[..n - 1], threshold), tr[n - 1], threshold); }
    }
  }

  /** And after its longest wait the next caller is let through, if the breaker is still in service
      and nobody has been let through or told to wait since. */
  lemma GrantedAfterCeiling(b: Breaker, tr: seq<Event>, i: nat, now: Time, threshold: int)
    requires i < |tr| && RateLimited(tr[i])
    requires forall k :: i < k < |tr| ==> !MovesCooldown(tr[k]) && !tr[k].Acquire?
    requires Run(b, tr, threshold).state in {Healthy, TransientFailing}
    requires now >= tr[i].at + Ceiling(Strikes(b, tr, i, threshold), tr[i].retryAfter)
    ensures Grants(Run(b, tr, threshold), now)
  {
    assert tr[..|tr|] == tr;
    CooldownEnds(b, tr, i, |tr|, threshold);
  }

  lemma {:induction false} CooldownHeld(b: Breaker, tr: seq<Event>, i: nat, n: nat, threshold: int)
    requires i < n <= |tr| && RateLimited(tr[i])
    requires forall k :: i < k < n ==> !MovesCooldown(tr[k])
    ensures Run(b, tr[..n], threshold).cooldownUntil >= tr[i].at + Floor(Strikes(b, tr, i, threshold), tr[i].retryAfter)
  {
    RunNext(b, tr, n - 1, threshold);
    CooldownStep(Run(b, tr[..n - 1], threshold), tr[n - 1], threshold);
    if n > i + 1 {
      CooldownHeld(b, tr, i, n - 1, threshold);
    }
  }

  /** After a 429 nothing is granted before its floor, until a later success or 429. */
  lemma NothingGrantedBeforeFloor(b: Breaker, tr: seq<Event>, i: nat, j: nat, threshold: int)
    requires i < j < |tr| && RateLimited(tr[i]) && tr[j].Acquire?
    requires forall k :: i < k < j ==> !MovesCooldown(tr[k])
    requires Grants(Run(b, tr[..j], threshold), tr[j].now)
    ensures tr[j].now >= tr[i].at + Floor(Strikes(b, tr, i, threshold), tr[i].retryAfter)
  {
    CooldownHeld(b, tr, i, j, threshold);
  }

  lemma StrikesStep(b: Breaker, e: Event, threshold: int)
    requires !e.Success?
    ensures Step(b, e, threshold).rateLimitStrikes == b.rateLimitStrikes + (if RateLimited(e) then 1 else 0)
  {}

  lemma {:induction false} StrikesGrow(b: Breaker, tr: seq<Event>, i: nat, n: nat, threshold: int)
    requires i < n < |tr|
    requires forall k :: i < k <= n ==> !tr[k].Success?
    ensures Strikes(b, tr, n, threshold) >= Strikes(b, tr, i, threshold) + (if RateLimited(tr[n]) then 1 else 0)
  {
    RunNext(b, tr, n, threshold);
    StrikesStep(Run(b, tr[..n], threshold), tr[n], threshold);
    if n > i + 1 { StrikesGrow(b, tr, i, n - 1, threshold); }
  }

  /** Consecutive unhinted 429s never lower the guaranteed floor. */
  lemma FloorNeverLowered(b: Breaker, tr: seq<Event>, i: nat, j: nat, threshold: int)
    requires i < j < |tr| && RateLimited(tr[i]) && RateLimited(tr[j])
    requires tr[i].retryAfter <= 0 && tr[j].retryAfter <= 0
    requires forall k :: i < k < j ==> !tr[k].Success?
    ensures Floor(Strikes(b, tr, i, threshold), tr[i].retryAfter)
            <= Floor(Strikes(b, tr, j, threshold), tr[j].retryAfter)
  {
    StrikesGrow(b, tr, i, j, threshold);
    BackoffMonotonic(Strikes(b, tr, i, threshold), Strikes(b, tr, j, threshold));
  }

  /** A cooldown is overwritten, not extended: an unhinted 429 can cut an open one short
      exactly when its own floor falls before the end of it. */
  lemma UnhintedCanShortenExactly(b: Breaker, at: Time)
    ensures (exists f: Fraction :: AfterRateLimit(b, 0, f, at).cooldownUntil < b.cooldownUntil) <==>
              at + Floor(b.rateLimitStrikes + 1, 0) < b.cooldownUntil
  {
    var lowest: Fraction := 0.0;
    assert CooldownFor(b.rateLimitStrikes + 1, 0, lowest) == Floor(b.rateLimitStrikes + 1, 0);
    assert AfterRateLimit(b, 0, lowest, at).cooldownUntil == at + Floor(b.rateLimitStrikes + 1, 0);
  }
}
