/** The retrying, validating client: capped exponential backoff around every wire call. */
module DeepSeeClient {
  import opened Outcomes
  import opened ChangeLog
  import opened Paging
  import opened ChangeFeed
  import opened DeepSeeSource

  datatype ConnectorError =
    | ServiceFailed(error: ServiceError)
    | StaleData
    | UnsupportedKeyType
    | NeitherIdsNorBitmap
    | InvalidEntityId(id: int)
    | PayloadTooLarge
    | UnsupportedEncoding
    | MalformedBitmap
    | TooManyPages
    | NotBootstrapped
    | ScorelessEvent(event: Event)
    | StageFailed
    | PublishFailed
    | StateCommitFailed
    | Interrupted

  datatype RetryPolicy = RetryPolicy(maxRetries: nat, backoffBaseMs: nat, backoffCapMs: nat)

  predicate Retryable(kind: Failure) {
    kind == Unavailable || kind == TimedOut || kind == RateLimited
  }

  function Pow2(n: nat): nat {
    if n == 0 then 1 else 2 * Pow2(n - 1)
  }

  /** The delay in milliseconds before the retry that follows attempt number `attempt`. */
  function DelayMs(error: ServiceError, attempt: nat, policy: RetryPolicy): nat {
    var delay := if error.kind == RateLimited && error.retryAfterMs.Some? then error.retryAfterMs.value
                 else policy.backoffBaseMs * Pow2(attempt);
    Min(delay, policy.backoffCapMs)
  }

  /** The whole course of one retried call: where it leaves the source, its cost and its answer. */
  datatype Course = Course(
    state: SourceState,
    interference: seq<seq<Turn>>,
    calls: nat,
    delays: seq<nat>,
    answer: Result<Response, ServiceError>)

  datatype Wire = Wire(token: Option<string>, config: ServiceConfig, policy: RetryPolicy)

  function Rest<T>(s: seq<T>): seq<T> {
    if s == [] then [] else s[1..]
  }

  function Met(s: SourceState, interference: seq<seq<Turn>>): SourceState {
    ActAll(s, if interference == [] then [] else interference[0])
  }

  predicate Retries(answer: Result<Response, ServiceError>, attempt: nat, policy: RetryPolicy) {
    answer.Err? && Retryable(answer.error.kind) && attempt < policy.maxRetries
  }

  /** The rest of a call that has made `attempt` attempts and slept as listed. */
  function Retry(s: SourceState, interference: seq<seq<Turn>>, req: Request, w: Wire,
                 attempt: nat, slept: seq<nat>): (c: Course)
    requires attempt <= w.policy.maxRetries
    ensures attempt < c.calls <= w.policy.maxRetries + 1
    ensures slept <= c.delays && |c.delays| == |slept| + c.calls - attempt - 1
    ensures c.answer.Err? && Retryable(c.answer.error.kind) ==> c.calls == w.policy.maxRetries + 1
    decreases w.policy.maxRetries - attempt
  {
    var met := Met(s, interference);
    var answer := Answer(met, req, w.token, w.config);
    var after := met.(failures := Rest(met.failures));
    if Retries(answer, attempt, w.policy)
    then Retry(after, Rest(interference), req, w, attempt + 1, slept + [DelayMs(answer.error, attempt, w.policy)])
    else Course(after, Rest(interference), attempt + 1, slept, answer)
  }

  /** Nothing but failures happens to the source between the calls to come. */
  predicate FailuresOnly(interference: seq<seq<Turn>>) {
    forall i :: 0 <= i < |interference| ==> QueuesOnly(interference[i])
  }

  /** The source stays consistent, only appends, and a success is served from the state it leaves. */
  lemma {:induction false} RetryKeeps(initial: Membership, s: SourceState, interference: seq<seq<Turn>>,
                                      req: Request, w: Wire, attempt: nat, slept: seq<nat>)
    requires attempt <= w.policy.maxRetries
    requires Consistent(initial, s)
    ensures var c := Retry(s, interference, req, w, attempt, slept);
            && Consistent(initial, c.state)
            && s.events <= c.state.events
            && (c.answer.Ok? ==> c.answer.value == Serve(c.state, req, w.config) && c.state.failures == [])
    decreases w.policy.maxRetries - attempt
  {
    ActAllKeeps(initial, s, if interference == [] then [] else interference[0]);
    var met := Met(s, interference);
    var answer := Answer(met, req, w.token, w.config);
    var after := met.(failures := Rest(met.failures));
    assert met.failures == [] ==> after == met;
    if Retries(answer, attempt, w.policy) {
      RetryKeeps(initial, after, Rest(interference), req, w, attempt + 1,
                 slept + [DelayMs(answer.error, attempt, w.policy)]);
    }
  }

  /** A call leaves the members and the log of a source as they were that only failures befall. */
  lemma {:induction false} RetryAlone(s: SourceState, interference: seq<seq<Turn>>, req: Request, w: Wire,
                                      attempt: nat, slept: seq<nat>)
    requires attempt <= w.policy.maxRetries && FailuresOnly(interference)
    ensures var c := Retry(s, interference, req, w, attempt, slept);
            FailuresOnly(c.interference) && c.state.members == s.members && c.state.events == s.events
    decreases w.policy.maxRetries - attempt
  {
    if interference != [] {
      QueuesAct(s, interference[0]);
    }
    var met := Met(s, interference);
    var answer := Answer(met, req, w.token, w.config);
    if Retries(answer, attempt, w.policy) {
      RetryAlone(met.(failures := Rest(met.failures)), Rest(interference), req, w, attempt + 1,
                 slept + [DelayMs(answer.error, attempt, w.policy)]);
    }
  }

  /**
   * Retries are invisible, exactly within the budget. Against a source left alone, a call succeeds if and only
   * if every queued failure is retryable, there are at most as many as retries left, and the call is
   * authorized; it then answers as if no failure had been queued, after one call per failure and one more.
   */
  lemma {:induction false} RetryInvisible(s: SourceState, req: Request, w: Wire, attempt: nat, slept: seq<nat>)
    requires attempt <= w.policy.maxRetries
    ensures var c := Retry(s, [], req, w, attempt, slept);
            && c.interference == []
            && (c.answer.Ok? <==>
                  && (forall i :: 0 <= i < |s.failures| ==> Retryable(s.failures[i]))
                  && attempt + |s.failures| <= w.policy.maxRetries
                  && Authorized(w.config, w.token))
            && (c.answer.Ok? ==>
                  && c.answer.value == Serve(s.(failures := []), req, w.config)
                  && c.state == s.(failures := [])
                  && c.calls == attempt + |s.failures| + 1)
    decreases w.policy.maxRetries - attempt
  {
    var answer := Answer(s, req, w.token, w.config);
    assert ActAll(s, []) == s;
    if s.failures == [] {
      assert s.(failures := []) == s;
    } else {
      var after := s.(failures := s.failures[1..]);
      if Retryable(s.failures[0]) && attempt < w.policy.maxRetries {
        RetryInvisible(after, req, w, attempt + 1, slept + [DelayMs(answer.error, attempt, w.policy)]);
        assert after.(failures := []) == s.(failures := []);
        assert forall i :: 0 < i < |s.failures| ==> s.failures[i] == after.failures[i - 1];
      }
    }
  }

  predicate Passing(kind: Failure) {
    kind in {Unavailable, TimedOut, RateLimited}
  }

  /** The first `j` failures are of the kinds that another attempt may cure, and the one after them, if any, is not. */
  predicate CurableUpTo(failures: seq<Failure>, j: nat) {
    && j <= |failures|
    && (forall i :: 0 <= i < j ==> Passing(failures[i]))
    && (j < |failures| ==> failures[j] in {AuthFailed, Internal})
  }

  /**
   * The cost and the answer of a call to a source left alone, by the kinds of the queued failures. It ends at the
   * first rejected credential or internal error, when the retries are used up, or with the answer.
   */
  lemma {:induction false} CallsByKind(s: SourceState, req: Request, w: Wire, attempt: nat, slept: seq<nat>, j: nat,
                                       c: Course)
    requires attempt <= w.policy.maxRetries && CurableUpTo(s.failures, j)
    requires c == Retry(s, [], req, w, attempt, slept)
    ensures var n := Min(j, w.policy.maxRetries - attempt);
            && c.calls == attempt + n + 1
            && (c.answer.Ok? <==> n == |s.failures| && (w.config.requireAuth ==> w.token.Some? && w.token.value != ""))
            && (c.answer.Err? ==> c.answer.error.kind == if n < |s.failures| then s.failures[n] else AuthFailed)
    decreases w.policy.maxRetries - attempt
  {
    assert ActAll(s, []) == s;
    var answer, after := Answer(s, req, w.token, w.config), s.(failures := Rest(s.failures));
    if Retries(answer, attempt, w.policy) {
      CallsByKind(after, req, w, attempt + 1, slept + [DelayMs(answer.error, attempt, w.policy)], j - 1, c);
    }
  }

  /** What is slept after attempt number `i`, when it met the failure `kind`. */
  function Pause(kind: Failure, i: nat, policy: RetryPolicy): nat {
    if kind == RateLimited then Min(100, policy.backoffCapMs)
    else Min(policy.backoffBaseMs * Pow2(i), policy.backoffCapMs)
  }

  /** Between two attempts there is exactly one sleep, as long as the failure and the attempt number say. */
  lemma {:induction false} PausesExact(s: SourceState, req: Request, w: Wire, attempt: nat, slept: seq<nat>, c: Course,
                                       n: nat)
    requires attempt <= w.policy.maxRetries && c == Retry(s, [], req, w, attempt, slept)
    requires n < c.calls - attempt - 1
    ensures |c.delays| == |slept| + c.calls - attempt - 1 && n < |s.failures|
    ensures c.delays[|slept| + n] == Pause(s.failures[n], attempt + n, w.policy)
    decreases w.policy.maxRetries - attempt
  {
    assert ActAll(s, []) == s;
    var answer, after := Answer(s, req, w.token, w.config), s.(failures := Rest(s.failures));
    var slept' := slept + [DelayMs(answer.error, attempt, w.policy)];
    if n > 0 {
      PausesExact(after, req, w, attempt + 1, slept', c, n - 1);
    } else {
      assert slept' <= c.delays;
      assert c.delays[|slept|] == slept'[|slept|];
    }
  }

  /** A sleep starts at the base, and doubles up to the cap from one attempt to the next unless a rate limit sets it. */
  lemma PausesDouble(s: SourceState, req: Request, w: Wire, c: Course, i: nat)
    requires c == Retry(s, [], req, w, 0, []) && i < |c.delays|
    ensures |c.delays| == c.calls - 1 && i < |s.failures|
    ensures s.failures[i] == RateLimited ==> c.delays[i] == Min(100, w.policy.backoffCapMs)
    ensures s.failures[0] != RateLimited ==> c.delays[0] == Min(w.policy.backoffBaseMs, w.policy.backoffCapMs)
    ensures i > 0 && s.failures[i - 1] != RateLimited && s.failures[i] != RateLimited ==>
              c.delays[i] == Min(2 * c.delays[i - 1], w.policy.backoffCapMs)
  {
    PausesExact(s, req, w, 0, [], c, i);
    PausesExact(s, req, w, 0, [], c, 0);
    if i > 0 {
      PausesExact(s, req, w, 0, [], c, i - 1);
      Doubles(w.policy.backoffBaseMs, i - 1);
    }
  }

  lemma Doubles(base: nat, i: nat)
    ensures base * Pow2(i + 1) == 2 * (base * Pow2(i))
  {}

  /**
   * Whether a fetch that has made `attempt` attempts, and each fetch after it, meets only retryable failures,
   * no more in a row than there are retries, when these failures are queued and those are still to come.
   */
  predicate Tolerated(failures: seq<Failure>, interference: seq<seq<Turn>>, attempt: nat, policy: RetryPolicy)
    requires FailuresOnly(interference)
    decreases |interference|
  {
    if interference == [] then
      && (forall i :: 0 <= i < |failures| ==> Retryable(failures[i]))
      && attempt + |failures| <= policy.maxRetries
    else
      var met := failures + Queued(interference[0]);
      if met == [] then Tolerated(met, interference[1..], 0, policy)
      else Retryable(met[0]) && attempt < policy.maxRetries
           && Tolerated(met[1..], interference[1..], attempt + 1, policy)
  }

  /**
   * Retries are invisible over whole runs. A call succeeds and leaves a course of failures that the later calls
   * tolerate if and only if it met such a course itself; it then answers as if there had been no failure.
   */
  lemma {:induction false} RetryTolerated(s: SourceState, interference: seq<seq<Turn>>, req: Request, w: Wire,
                                          attempt: nat, slept: seq<nat>)
    requires attempt <= w.policy.maxRetries && FailuresOnly(interference)
    ensures var c := Retry(s, interference, req, w, attempt, slept);
            && FailuresOnly(c.interference)
            && (c.answer.Ok? && Tolerated(c.state.failures, c.interference, 0, w.policy)
                <==> Tolerated(s.failures, interference, attempt, w.policy) && Authorized(w.config, w.token))
            && (c.answer.Ok? ==>
                  c.state == s.(failures := []) && c.answer.value == Serve(s.(failures := []), req, w.config))
    decreases w.policy.maxRetries - attempt
  {
    if interference == [] {
      RetryInvisible(s, req, w, attempt, slept);
    } else {
      QueuesAct(s, interference[0]);
      var met := Met(s, interference);
      var answer := Answer(met, req, w.token, w.config);
      var after := met.(failures := Rest(met.failures));
      if Retries(answer, attempt, w.policy) {
        RetryTolerated(after, Rest(interference), req, w, attempt + 1,
                       slept + [DelayMs(answer.error, attempt, w.policy)]);
      }
    }
  }

  function Sum(delays: seq<nat>): nat {
    if delays == [] then 0 else delays[0] + Sum(delays[1..])
  }

  predicate AtMost(delays: seq<nat>, cap: nat) {
    forall i :: 0 <= i < |delays| ==> delays[i] <= cap
  }

  /** What a call sleeps after all that was slept before it. */
  function Added(c: Course, slept: seq<nat>): seq<nat>
    requires slept <= c.delays
  {
    c.delays[|slept|..]
  }

  lemma AddedLater(c: Course, slept: seq<nat>, delay: nat)
    requires slept + [delay] <= c.delays
    ensures slept <= c.delays && Added(c, slept) == [delay] + Added(c, slept + [delay])
  {
    assert slept <= slept + [delay];
  }

  /** Every delay of a call is within the cap. */
  lemma {:induction false} RetryDelaysCapped(s: SourceState, interference: seq<seq<Turn>>, req: Request, w: Wire,
                                             attempt: nat, slept: seq<nat>, c: Course)
    requires attempt <= w.policy.maxRetries
    requires c == Retry(s, interference, req, w, attempt, slept)
    ensures AtMost(Added(c, slept), w.policy.backoffCapMs)
    decreases w.policy.maxRetries - attempt
  {
    var met := Met(s, interference);
    var answer, after := Answer(met, req, w.token, w.config), met.(failures := Rest(met.failures));
    if Retries(answer, attempt, w.policy) {
      var delay := DelayMs(answer.error, attempt, w.policy);
      RetryDelaysCapped(after, Rest(interference), req, w, attempt + 1, slept + [delay], c);
      AddedLater(c, slept, delay);
    }
  }

  lemma {:induction false} CappedSum(delays: seq<nat>, cap: nat)
    requires AtMost(delays, cap)
    ensures Sum(delays) <= |delays| * cap
  {
    if delays != [] {
      CappedSum(delays[1..], cap);
      assert |delays| * cap == (|delays| - 1) * cap + cap;
    }
  }

  predicate WithinCap(delays: seq<nat>, policy: RetryPolicy) {
    Sum(delays) <= policy.maxRetries * policy.backoffCapMs
  }

  /** Whatever was slept before, one fetch never sleeps longer than the retries allowed times the cap. */
  lemma RetrySleepBound(s: SourceState, interference: seq<seq<Turn>>, req: Request, w: Wire, slept: seq<nat>)
    ensures WithinCap(Added(Retry(s, interference, req, w, 0, slept), slept), w.policy)
  {
    var c := Retry(s, interference, req, w, 0, slept);
    var delays := Added(c, slept);
    RetryDelaysCapped(s, interference, req, w, 0, slept, c);
    CappedSum(delays, w.policy.backoffCapMs);
    Scaled(|delays|, w.policy.maxRetries, w.policy.backoffCapMs);
  }

  lemma Scaled(a: nat, b: nat, c: nat)
    requires a <= b
    ensures a * c <= b * c
  {}

  /** No call to come is refused for its rate. */
  ghost predicate NeverLimited(failures: seq<Failure>, interference: seq<seq<Turn>>) {
    && RateLimited !in failures
    && forall i :: 0 <= i < |interference| ==> NoneLimits(interference[i])
  }

  predicate NoneLimits(turns: seq<Turn>) {
    forall i :: 0 <= i < |turns| && turns[i].QueueFailure? ==> turns[i].kind != RateLimited
  }

  lemma {:induction false} ActsUnlimited(s: SourceState, turns: seq<Turn>)
    requires RateLimited !in s.failures && NoneLimits(turns)
    ensures RateLimited !in ActAll(s, turns).failures
  {
    if turns != [] {
      ActsUnlimited(s, turns[..|turns| - 1]);
    }
  }

  predicate WithinDoubling(delays: seq<nat>, from: nat, to: nat, policy: RetryPolicy) {
    Pow2(from) <= Pow2(to) && Sum(delays) <= policy.backoffBaseMs * (Pow2(to) - Pow2(from))
  }

  lemma Telescopes(base: nat, a: nat, b: nat)
    ensures base * a + base * (b - 2 * a) == base * (b - a)
  {}

  lemma DoublingStep(delays: seq<nat>, all: seq<nat>, delay: nat, from: nat, to: nat, policy: RetryPolicy)
    requires all == [delay] + delays && WithinDoubling(delays, from + 1, to, policy)
    requires delay <= policy.backoffBaseMs * Pow2(from)
    ensures WithinDoubling(all, from, to, policy)
  {
    Telescopes(policy.backoffBaseMs, Pow2(from), Pow2(to));
    assert all[1..] == delays;
  }

  lemma DelayUnlimited(met: SourceState, req: Request, w: Wire, attempt: nat)
    requires RateLimited !in met.failures
    ensures var answer := Answer(met, req, w.token, w.config);
            answer.Err? ==> DelayMs(answer.error, attempt, w.policy) <= w.policy.backoffBaseMs * Pow2(attempt)
  {}

  /**
   * Without a rate limit the delays of a call at most double: from attempt a on, a call that takes n attempts in
   * all sleeps at most base * (2^(n - 1) - 2^a).
   */
  lemma {:induction false} BackoffDoubles(s: SourceState, interference: seq<seq<Turn>>, req: Request, w: Wire,
                                          attempt: nat, slept: seq<nat>, c: Course)
    requires attempt <= w.policy.maxRetries && NeverLimited(s.failures, interference)
    requires c == Retry(s, interference, req, w, attempt, slept)
    ensures WithinDoubling(Added(c, slept), attempt, c.calls - 1, w.policy)
    decreases w.policy.maxRetries - attempt
  {
    if interference != [] {
      ActsUnlimited(s, interference[0]);
    }
    var met := Met(s, interference);
    var answer, after := Answer(met, req, w.token, w.config), met.(failures := Rest(met.failures));
    if Retries(answer, attempt, w.policy) {
      var delay := DelayMs(answer.error, attempt, w.policy);
      var slept' := slept + [delay];
      BackoffDoubles(after, Rest(interference), req, w, attempt + 1, slept', c);
      AddedLater(c, slept, delay);
      DelayUnlimited(met, req, w, attempt);
      DoublingStep(Added(c, slept'), Added(c, slept), delay, attempt, c.calls - 1, w.policy);
    }
  }

  /** The sleep after `before`: at most the retries allowed times the cap. */
  predicate SleptWithin(before: seq<nat>, after: seq<nat>, policy: RetryPolicy) {
    before <= after && WithinCap(after[|before|..], policy)
  }

  /** The sleep after `before`, doubling: at most base * (2^(calls - 1) - 1). */
  predicate SleptDoubling(before: seq<nat>, after: seq<nat>, calls: nat, attempt: nat, policy: RetryPolicy) {
    before <= after && calls > 0 && WithinDoubling(after[|before|..], attempt, calls - 1, policy)
  }

  lemma CourseSleeps(s: SourceState, interference: seq<seq<Turn>>, req: Request, w: Wire, slept: seq<nat>, c: Course)
    requires c == Retry(s, interference, req, w, 0, slept)
    ensures SleptWithin(slept, c.delays, w.policy)
    ensures NeverLimited(s.failures, interference) ==> SleptDoubling(slept, c.delays, c.calls, 0, w.policy)
  {
    RetrySleepBound(s, interference, req, w, slept);
    if NeverLimited(s.failures, interference) {
      BackoffDoubles(s, interference, req, w, 0, slept, c);
    }
  }

  /** What a client accepts: payloads up to a size, and data up to an age, by its clock. */
  datatype Limits = Limits(maxPayloadBytes: nat, maxDataAge: Option<int>, now: int)

  /** The checks on a snapshot page, in the client's order. */
  function CheckSnapshot(page: SnapshotPage, limits: Limits): (r: Option<ConnectorError>)
    ensures r.Some? ==> r.value.StaleData? || r.value.UnsupportedKeyType? || r.value.NeitherIdsNorBitmap?
                        || r.value.InvalidEntityId? || r.value.PayloadTooLarge? || r.value.UnsupportedEncoding?
    ensures r == Some(StaleData) <==> limits.maxDataAge.Some? && limits.now > page.dataAsOf + limits.maxDataAge.value
    ensures r == None ==> page.supportedKeyType && (page.bitmap.Some? || page.entityIds.Some?)
    ensures r == Some(UnsupportedKeyType) ==> !page.supportedKeyType
    ensures r == Some(NeitherIdsNorBitmap) ==> page.supportedKeyType && page.bitmap == None && page.entityIds == None
    ensures page.bitmap.Some? ==>
              && (r == Some(PayloadTooLarge) ==> page.payload.bytes > limits.maxPayloadBytes)
              && (r == Some(UnsupportedEncoding) ==> !page.payload.supportedEncoding)
              && (r == None ==> page.payload.bytes <= limits.maxPayloadBytes && page.payload.supportedEncoding)
    ensures page.bitmap == None && page.entityIds.Some? ==>
              && (r == None ==> forall x :: x in page.entityIds.value ==> x >= 0)
              && (r.Some? && r.value.InvalidEntityId? ==> r.value.id in page.entityIds.value && r.value.id < 0)
              && (r.Some? ==> !r.value.PayloadTooLarge? && !r.value.UnsupportedEncoding?)
  {
    if Stale(page.dataAsOf, limits) then Some(StaleData)
    else if !page.supportedKeyType then Some(UnsupportedKeyType)
    else if page.bitmap.Some? then
      if page.payload.bytes > limits.maxPayloadBytes then Some(PayloadTooLarge)
      else if !page.payload.supportedEncoding then Some(UnsupportedEncoding)
      else None
    else if page.entityIds == None then Some(NeitherIdsNorBitmap)
    else FirstInvalid(page.entityIds.value)
  }

  function FirstInvalid(ids: seq<int>): (r: Option<ConnectorError>)
    ensures r == None <==> forall i :: 0 <= i < |ids| ==> ids[i] >= 0
    ensures r.Some? ==> exists k :: 0 <= k < |ids| && ids[k] < 0 && r.value == InvalidEntityId(ids[k])
                                    && forall i :: 0 <= i < k ==> ids[i] >= 0
  {
    if ids == [] then None
    else if ids[0] < 0 then Some(InvalidEntityId(ids[0]))
    else
      var r := FirstInvalid(ids[1..]);
      assert forall k :: 0 < k < |ids| ==> ids[k] == ids[1..][k - 1];
      r
  }

  predicate Stale(dataAsOf: int, limits: Limits) {
    limits.maxDataAge.Some? && limits.now - dataAsOf > limits.maxDataAge.value
  }

  /** Fetches and the wire calls they cost, counted from a moment when the service had taken `start` calls. */
  datatype RawTally = RawTally(start: nat, fetches: nat, calls: nat, perFetch: nat)

  /** Every fetch costs at most `perFetch` wire calls: one, and the retries allowed. */
  type Tally = t: RawTally | t.calls <= t.fetches * t.perFetch witness RawTally(0, 0, 0, 0)

  function OneMoreFetch(t: Tally, calls: nat): (r: Tally)
    requires calls <= t.perFetch
    ensures r.fetches == t.fetches + 1 && r.calls == t.calls + calls
    ensures r.start == t.start && r.perFetch == t.perFetch
  {
    assert (t.fetches + 1) * t.perFetch == t.fetches * t.perFetch + t.perFetch;
    RawTally(t.start, t.fetches + 1, t.calls + calls, t.perFetch)
  }

  lemma CallsBounded(t: Tally, fetches: nat)
    requires t.fetches <= fetches
    ensures t.calls <= fetches * t.perFetch
  {}

  class Client {
    const service: DeepSeeService
    const token: Option<string>
    const policy: RetryPolicy
    const limits: Limits
    /** Milliseconds handed to the sleeper, in order. */
    var slept: seq<nat>
    /** The fetches asked of this client, and the wire calls they cost. */
    ghost var tally: Tally

    constructor (service: DeepSeeService, token: Option<string>, policy: RetryPolicy, limits: Limits)
      ensures this.service == service && this.token == token && this.policy == policy
      ensures this.limits == limits && slept == []
      ensures service.Valid() ==> Ready()
    {
      this.service, this.token, this.policy := service, token, policy;
      this.limits, this.slept := limits, [];
      this.tally := RawTally(service.callCount, 0, 0, policy.maxRetries + 1);
    }

    /** This client is the one that calls the service, and every call is on its tally. */
    ghost predicate Ready()
      reads this, service
    {
      && service.Valid()
      && tally.perFetch == policy.maxRetries + 1
      && service.callCount == tally.start + tally.calls
    }

    /** Count from here. */
    ghost method CountFromHere()
      requires Ready()
      modifies this`tally
      ensures Ready() && tally.start == service.callCount && tally.fetches == 0
    {
      tally := RawTally(service.callCount, 0, 0, tally.perFetch);
    }

    function W(): Wire {
      Wire(token, service.config, policy)
    }

    function NextCourse(req: Request): Course
      reads this, service
    {
      Retry(service.State(), service.interference, req, W(), 0, slept)
    }

    /** One attempt, and the sleep after it when another is due. */
    method Attempt(req: Request, attempt: nat) returns (r: Result<Response, ServiceError>, again: bool)
      requires service.Valid() && attempt <= policy.maxRetries
      modifies this`slept, service
      ensures service.Valid() && service.callCount == old(service.callCount) + 1
      ensures again ==> attempt < policy.maxRetries
      ensures old(Retry(service.State(), service.interference, req, W(), attempt, slept)) ==
              if again then Retry(service.State(), service.interference, req, W(), attempt + 1, slept)
              else Course(service.State(), service.interference, attempt + 1, slept, r)
    {
      r := service.Call(req, token);
      again := r.Err? && Retryable(r.error.kind) && attempt < policy.maxRetries;
      if again {
        slept := slept + [DelayMs(r.error, attempt, policy)];
      }
    }

    /** Try, and while the failure is retryable and retries are left, sleep and try again. */
    method CallWithRetry(req: Request) returns (r: Result<Response, ServiceError>)
      requires Ready()
      modifies this, service
      ensures Ready() && tally.start == old(tally.start) && tally.fetches == old(tally.fetches) + 1
      ensures var c := old(NextCourse(req));
              && service.State() == c.state && service.interference == c.interference
              && service.callCount == old(service.callCount) + c.calls
              && slept == c.delays && r == c.answer
    {
      ghost var course := NextCourse(req);
      tally := OneMoreFetch(tally, course.calls);
      var attempt, again := 0, true;
      r, again := Attempt(req, attempt);
      while again
        invariant service.Valid() && attempt <= policy.maxRetries
        invariant again ==> attempt < policy.maxRetries
        invariant service.callCount == old(service.callCount) + attempt + 1
        invariant course == if again then Retry(service.State(), service.interference, req, W(), attempt + 1, slept)
                            else Course(service.State(), service.interference, attempt + 1, slept, r)
        decreases policy.maxRetries - attempt
        modifies this`slept, service
      {
        attempt := attempt + 1;
        r, again := Attempt(req, attempt);
      }
    }

    /** No one else changes the members or the log of the source from here on. */
    predicate Alone()
      reads service
    {
      FailuresOnly(service.interference)
    }

    /** What the source holds now is recent enough for this client: by its number of events, or its fixed stale date. */
    predicate Fresh()
      reads service
    {
      limits.maxDataAge.Some? ==>
        limits.now <= limits.maxDataAge.value + if service.config.staleDataAsOf then -836_179_200 else |service.events|
    }

    /** Every fetch from here on meets retryable failures within its budget, and nothing else. */
    predicate Undisturbed()
      reads service
    {
      && Alone()
      && Tolerated(service.failures, service.interference, 0, policy)
      && Authorized(service.config, token)
      && !Stale(DataAsOf(service.events, service.config), limits)
    }

    /**
     * A retried call: undisturbed, it leaves the source as it was and succeeds. It sleeps at most the retries
     * allowed times the cap, and without rate limits at most the doubling delays of the calls it took.
     */
    method Fetch(req: Request) returns (r: Result<Response, ServiceError>)
      requires Ready()
      modifies this, service
      ensures Ready() && old(service.events) <= service.events
      ensures tally.start == old(tally.start) && tally.fetches == old(tally.fetches) + 1
      ensures r.Ok? ==> r.value == Serve(service.State(), req, service.config)
      ensures old(Alone()) ==>
                Alone() && service.members == old(service.members) && service.events == old(service.events)
      ensures old(Undisturbed()) ==> r.Ok? && Undisturbed()
      ensures service.callCount >= old(service.callCount) && SleptWithin(old(slept), slept, policy)
      ensures old(NeverLimited(service.failures, service.interference)) ==>
                SleptDoubling(old(slept), slept, service.callCount - old(service.callCount), 0, policy)
    {
      CourseSleeps(service.State(), service.interference, req, W(), slept, NextCourse(req));
      if Undisturbed() {
        RetryTolerated(service.State(), service.interference, req, W(), 0, slept);
      }
      if Alone() {
        RetryAlone(service.State(), service.interference, req, W(), 0, slept);
      }
      RetryKeeps(service.initial, service.State(), service.interference, req, W(), 0, slept);
      r := CallWithRetry(req);
    }

    method FetchSnapshot(cursor: Option<nat>) returns (r: Result<SnapshotPage, ConnectorError>)
      requires Ready()
      modifies this, service
      ensures Ready() && old(service.events) <= service.events
      ensures tally.start == old(tally.start) && tally.fetches == old(tally.fetches) + 1
      ensures r.Ok? ==>
                && r.value == ServeSnapshot(service.State(), cursor, service.config)
                && CheckSnapshot(r.value, limits) == None && Fresh() && !service.config.invalidKeyType
      ensures r.Ok? && service.config.bitmapSnapshot && !service.config.malformedBitmap ==>
                service.config.bitmapBytes(service.members.Keys) <= limits.maxPayloadBytes
      ensures r.Err? ==> !r.error.TooManyPages?
      ensures r == Err(StaleData) ==> !Fresh()
      ensures old(Alone()) ==>
                Alone() && service.members == old(service.members) && service.events == old(service.events)
      ensures old(Undisturbed()) ==>
                && Undisturbed()
                && (r.Ok? <==>
                      CheckSnapshot(ServeSnapshot(service.State(), cursor, service.config), limits) == None)
    {
      var answer := Fetch(SnapshotRequest(cursor));
      if answer.Err? {
        return Err(ServiceFailed(answer.error));
      }
      var page := answer.value.page;
      var problem := CheckSnapshot(page, limits);
      r := if problem.Some? then Err(problem.value) else Ok(page);
    }

    method FetchChanges(since: nat, cursor: Option<nat>) returns (r: Result<ChangeBatch, ConnectorError>)
      requires Ready()
      modifies this, service
      ensures Ready() && old(service.events) <= service.events
      ensures tally.start == old(tally.start) && tally.fetches == old(tally.fetches) + 1
      ensures r.Ok? ==>
                && r.value == ServeChanges(service.events, since, cursor, service.config.feed)
                && Fresh()
      ensures r.Err? ==> r.error.ServiceFailed? || (r.error.StaleData? && !Fresh())
      ensures old(Alone()) ==>
                Alone() && service.members == old(service.members) && service.events == old(service.events)
      ensures old(Undisturbed()) ==> r.Ok? && Undisturbed()
    {
      var answer := Fetch(ChangesRequest(since, cursor));
      if answer.Err? {
        return Err(ServiceFailed(answer.error));
      }
      if Stale(answer.value.dataAsOf, limits) {
        return Err(StaleData);
      }
      r := Ok(answer.value.batch);
    }
  }
}
