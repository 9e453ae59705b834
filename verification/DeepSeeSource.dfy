/** The DeepSee service: a membership, the log of its changes, and the two paged wire operations. */
module DeepSeeSource {
  import opened Outcomes
  import opened ChangeLog
  import opened Paging
  import opened ChangeFeed
  import opened SnapshotPaging
  import WireText

  datatype Failure = Unavailable | TimedOut | RateLimited | AuthFailed | Internal

  const RETRY_AFTER_MS := 100

  /** Seconds from the base time of the service (2026-07-01) back to 2000-01-01. */
  const STALE_AGE := 836_179_200

  /** What other threads may do to the source between two wire calls. */
  datatype Turn =
    | AddMember(entity: int, score: real)
    | RemoveMember(entity: int)
    | ChangeScore(entity: int, score: real)
    | QueueFailure(kind: Failure, count: nat)

  datatype SourceState = SourceState(members: Membership, events: seq<Event>, failures: seq<Failure>)

  /** A serialized bitmap, seen only through what it decodes to; `None` is a malformed payload. */
  datatype Bitmap = Bitmap(decoded: Option<set<int>>)

  /** What the client sees of a bitmap before it decodes it. */
  datatype Payload = Payload(bytes: nat, supportedEncoding: bool)

  const NO_PAYLOAD := Payload(0, false)

  /** The bytes of the payload that a malformed bitmap carries. */
  const MALFORMED_BYTES := 30

  datatype SnapshotPage = SnapshotPage(
    supportedKeyType: bool,
    dataAsOf: int,
    watermark: nat,
    entityIds: Option<seq<int>>,
    bitmap: Option<Bitmap>,
    payload: Payload,
    scores: map<int, real>,
    evidenceRefs: map<int, string>,
    nextCursor: Option<nat>)

  datatype ServiceError = ServiceError(kind: Failure, retryAfterMs: Option<nat>)

  datatype Request = SnapshotRequest(cursor: Option<nat>) | ChangesRequest(since: nat, cursor: Option<nat>)

  datatype Response =
    | SnapshotResponse(page: SnapshotPage)
    | ChangesResponse(batch: ChangeBatch, dataAsOf: int)

  datatype ServiceConfig = ServiceConfig(
    feed: FeedOptions,
    requireAuth: bool,
    bitmapSnapshot: bool,
    bitmapBytes: set<int> -> nat,
    malformedBitmap: bool,
    invalidKeyType: bool,
    staleDataAsOf: bool)

  function Record(s: SourceState, entity: int, kind: Kind, score: Option<real>): Event {
    Event(|s.events| + 1, entity, kind, score, |s.events| + 1)
  }

  function Emit(s: SourceState, e: Event): SourceState {
    s.(members := Apply(s.members, e), events := s.events + [e])
  }

  function Repeated<T>(x: T, count: nat): seq<T> {
    seq(count, _ => x)
  }

  /** One turn of another thread. Changing the score of a non-member raises and changes nothing. */
  function Act(s: SourceState, t: Turn): SourceState {
    match t
    case AddMember(x, score) => Emit(s, Record(s, x, Added, Some(score)))
    case RemoveMember(x) => Emit(s, Record(s, x, Removed, None))
    case ChangeScore(x, score) => if x in s.members then Emit(s, Record(s, x, ScoreChanged, Some(score))) else s
    case QueueFailure(kind, count) => s.(failures := s.failures + Repeated(kind, count))
  }

  function ActAll(s: SourceState, turns: seq<Turn>): SourceState {
    if turns == [] then s else Act(ActAll(s, turns[..|turns| - 1]), turns[|turns| - 1])
  }

  /** Turns that make coming calls fail, and change nothing else. */
  predicate QueuesOnly(turns: seq<Turn>) {
    forall i :: 0 <= i < |turns| ==> turns[i].QueueFailure?
  }

  function Queued(turns: seq<Turn>): seq<Failure>
    requires QueuesOnly(turns)
  {
    if turns == [] then []
    else Queued(turns[..|turns| - 1]) + Repeated(turns[|turns| - 1].kind, turns[|turns| - 1].count)
  }

  lemma {:induction false} QueuesAct(s: SourceState, turns: seq<Turn>)
    requires QueuesOnly(turns)
    ensures ActAll(s, turns) == s.(failures := s.failures + Queued(turns))
  {
    if turns != [] {
      QueuesAct(s, turns[..|turns| - 1]);
    }
  }

  /** The log is numbered and legal, and the membership is its replay. */
  ghost predicate Consistent(initial: Membership, s: SourceState) {
    && Numbered(s.events)
    && Valid(initial, s.events)
    && s.members == Replay(initial, s.events)
  }

  lemma EmitKeeps(initial: Membership, s: SourceState, entity: int, kind: Kind, score: Option<real>)
    requires Consistent(initial, s)
    requires (kind != Removed ==> score.Some?) && (kind == ScoreChanged ==> entity in s.members)
    ensures var s' := Emit(s, Record(s, entity, kind, score));
            Consistent(initial, s') && s.events <= s'.events && s'.failures == s.failures
  {
    var s' := Emit(s, Record(s, entity, kind, score));
    assert s'.events[..|s'.events| - 1] == s.events;
  }

  lemma ActKeeps(initial: Membership, s: SourceState, t: Turn)
    requires Consistent(initial, s)
    ensures Consistent(initial, Act(s, t))
    ensures s.events <= Act(s, t).events
    ensures s.failures <= Act(s, t).failures
  {
    match t
    case AddMember(x, score) => EmitKeeps(initial, s, x, Added, Some(score));
    case RemoveMember(x) => EmitKeeps(initial, s, x, Removed, None);
    case ChangeScore(x, score) => if x in s.members { EmitKeeps(initial, s, x, ScoreChanged, Some(score)); }
    case QueueFailure(_, _) =>
  }

  lemma {:induction false} ActAllKeeps(initial: Membership, s: SourceState, turns: seq<Turn>)
    requires Consistent(initial, s)
    ensures Consistent(initial, ActAll(s, turns))
    ensures s.events <= ActAll(s, turns).events
    ensures s.failures <= ActAll(s, turns).failures
  {
    if turns != [] {
      ActAllKeeps(initial, s, turns[..|turns| - 1]);
      ActKeeps(initial, ActAll(s, turns[..|turns| - 1]), turns[|turns| - 1]);
    }
  }

  function Held(m: Membership, x: int): Option<real> {
    if x in m then Some(m[x]) else None
  }

  /** Whether a turn puts `x` in or takes it out. */
  predicate Places(t: Turn, x: int) {
    (t.AddMember? || t.RemoveMember?) && t.entity == x
  }

  predicate Rescores(t: Turn, x: int) {
    t.ChangeScore? && t.entity == x
  }

  /** The last turn that places `x` is `i`, and the last one after it to re-score `x` is `k`; -1 and `i` mean none. */
  ghost predicate LastTurns(turns: seq<Turn>, x: int, i: int, k: int) {
    && -1 <= i <= k < |turns|
    && (i >= 0 ==> Places(turns[i], x))
    && (i < k ==> Rescores(turns[k], x))
    && (forall j :: i < j < |turns| ==> !Places(turns[j], x))
    && (forall j :: k < j < |turns| ==> !Rescores(turns[j], x))
  }

  /**
   * The last word on an entity. After any turns it is a member if the last turn that placed it added it, or, if none
   * did, if it was one before; its score is the one last given: by a re-score since, else by that addition, else the
   * one it had.
   */
  lemma {:induction false} LastWord(s: SourceState, turns: seq<Turn>, x: int, i: int, k: int)
    requires LastTurns(turns, x, i, k)
    ensures var m := ActAll(s, turns).members;
            && (x in m <==> if i >= 0 then turns[i].AddMember? else x in s.members)
            && (x in m ==> m[x] == if i < k then turns[k].score else if i >= 0 then turns[i].score else s.members[x])
  {
    if turns != [] {
      var init, last := turns[..|turns| - 1], |turns| - 1;
      if i < last {
        if k < last {
          LastWord(s, init, x, i, k);
        } else {
          var k' := LastRescore(init, x, i);
          LastWord(s, init, x, i, k');
        }
      }
    }
  }

  /** There is always such a turn. */
  lemma {:induction false} LastRescore(turns: seq<Turn>, x: int, i: int) returns (k: int)
    requires -1 <= i < |turns| && (i >= 0 ==> Places(turns[i], x))
    requires forall j :: i < j < |turns| ==> !Places(turns[j], x)
    ensures LastTurns(turns, x, i, k)
  {
    k := |turns| - 1;
    if i < k && !Rescores(turns[k], x) {
      k := LastRescore(turns[..k], x, i);
    }
  }

  function DataAsOf(events: seq<Event>, config: ServiceConfig): int {
    if config.staleDataAsOf then -STALE_AGE else |events|
  }

  const EVIDENCE_SCHEME := "deepsee://case/"

  function EvidenceRef(entity: int): string {
    EVIDENCE_SCHEME + WireText.Signed(entity)
  }

  /** A reference leads back to its entity, and so to no other. */
  lemma EvidenceExact(entity: int, n: nat)
    requires n == |EVIDENCE_SCHEME|
    ensures var ref := EvidenceRef(entity);
            && EVIDENCE_SCHEME <= ref
            && WireText.ParseWatermark(Some(ref[n..])) == Ok(entity)
  {
    WireText.SignedRoundTrip(entity);
    assert EvidenceRef(entity)[n..] == WireText.Signed(entity);
  }

  function ServeSnapshot(s: SourceState, cursor: Option<nat>, config: ServiceConfig): SnapshotPage {
    if config.bitmapSnapshot then
      SnapshotPage(
        !config.invalidKeyType, DataAsOf(s.events, config), |s.events|, None,
        Some(Bitmap(if config.malformedBitmap then None else Some(s.members.Keys))),
        Payload(if config.malformedBitmap then MALFORMED_BYTES else config.bitmapBytes(s.members.Keys), true),
        s.members, map x | x in s.members :: EvidenceRef(x), None)
    else
      var ordered := SortedIds(s.members.Keys);
      var offset := if cursor.Some? then cursor.value else 0;
      var ids := Slice(ordered, offset, offset + config.feed.pageSize);
      SnapshotPage(
        !config.invalidKeyType, DataAsOf(s.events, config), |s.events|, Some(ids), None, NO_PAYLOAD,
        ScoresOf(s.members, ids), map x | x in ids :: EvidenceRef(x),
        if offset + config.feed.pageSize < |ordered| then Some(offset + config.feed.pageSize) else None)
  }

  function Serve(s: SourceState, req: Request, config: ServiceConfig): Response {
    match req
    case SnapshotRequest(cursor) => SnapshotResponse(ServeSnapshot(s, cursor, config))
    case ChangesRequest(since, cursor) =>
      ChangesResponse(ServeChanges(s.events, since, cursor, config.feed), DataAsOf(s.events, config))
  }

  predicate Authorized(config: ServiceConfig, token: Option<string>) {
    config.requireAuth ==> token.Some? && token.value != ""
  }

  function Raised(kind: Failure): ServiceError {
    ServiceError(kind, if kind == RateLimited then Some(RETRY_AFTER_MS) else None)
  }

  /** What a wire call answers in the state it meets. */
  function Answer(s: SourceState, req: Request, token: Option<string>, config: ServiceConfig)
    : Result<Response, ServiceError>
  {
    if s.failures != [] then Err(Raised(s.failures[0]))
    else if !Authorized(config, token) then Err(Raised(AuthFailed))
    else Ok(Serve(s, req, config))
  }

  class DeepSeeService {
    const config: ServiceConfig
    var members: Membership
    var events: seq<Event>
    var seqNo: nat
    var failures: seq<Failure>
    var callCount: nat
    /** What others will have done by the time of each coming wire call. */
    var interference: seq<seq<Turn>>
    ghost const initial: Membership

    ghost predicate Valid()
      reads this
    {
      seqNo == |events| && Consistent(initial, State())
    }

    function State(): SourceState
      reads this
    {
      SourceState(members, events, failures)
    }

    /** The turns taken before the next wire call. */
    function NextTurns(): seq<Turn>
      reads this
    {
      if interference == [] then [] else interference[0]
    }

    constructor (members: Membership, config: ServiceConfig, interference: seq<seq<Turn>>)
      ensures Valid()
      ensures State() == SourceState(members, [], []) && callCount == 0
      ensures initial == members && this.config == config && this.interference == interference
    {
      this.members, this.events, this.seqNo, this.failures := members, [], 0, [];
      this.callCount, this.interference := 0, interference;
      this.config, this.initial := config, members;
    }

    method RecordEvent(entity: int, kind: Kind, score: Option<real>) returns (event: Event)
      requires seqNo == |events|
      modifies this`seqNo, this`events
      ensures event == Record(old(State()), entity, kind, score)
      ensures events == old(events) + [event] && seqNo == |events|
    {
      seqNo := seqNo + 1;
      event := Event(seqNo, entity, kind, score, seqNo);
      events := events + [event];
    }

    method Add(entity: int, score: real) returns (event: Event)
      requires Valid()
      modifies this`members, this`seqNo, this`events
      ensures Valid() && State() == Act(old(State()), AddMember(entity, score))
      ensures members == old(members)[entity := score]
      ensures events == old(events) + [event]
      ensures event.entity == entity && event.kind == Added && event.score == Some(score)
    {
      ActKeeps(initial, State(), AddMember(entity, score));
      members := members[entity := score];
      event := RecordEvent(entity, Added, Some(score));
    }

    method Remove(entity: int) returns (event: Event)
      requires Valid()
      modifies this`members, this`seqNo, this`events
      ensures Valid() && State() == Act(old(State()), RemoveMember(entity))
      ensures entity !in members && forall x :: x != entity ==> Held(members, x) == Held(old(members), x)
      ensures events == old(events) + [event]
      ensures event.entity == entity && event.kind == Removed && event.score == None
    {
      ActKeeps(initial, State(), RemoveMember(entity));
      members := members - {entity};
      event := RecordEvent(entity, Removed, None);
    }

    method Rescore(entity: int, score: real) returns (r: Result<Event, int>)
      requires Valid()
      modifies this`members, this`seqNo, this`events
      ensures Valid() && State() == Act(old(State()), ChangeScore(entity, score))
      ensures r.Err? <==> entity !in old(members)
      ensures r.Err? ==> members == old(members) && events == old(events)
      ensures r.Ok? ==> members == old(members)[entity := score] && events == old(events) + [r.value]
      ensures r.Ok? ==> r.value.entity == entity && r.value.kind == ScoreChanged && r.value.score == Some(score)
    {
      ActKeeps(initial, State(), ChangeScore(entity, score));
      if entity !in members {
        return Err(entity);
      }
      members := members[entity := score];
      var event := RecordEvent(entity, ScoreChanged, Some(score));
      r := Ok(event);
    }

    method Enqueue(kind: Failure, count: nat)
      requires Valid()
      modifies this`failures
      ensures Valid() && State() == Act(old(State()), QueueFailure(kind, count))
      ensures old(failures) <= failures && |failures| == |old(failures)| + count
      ensures forall i :: |old(failures)| <= i < |failures| ==> failures[i] == kind
    {
      failures := failures + Repeated(kind, count);
    }

    /** Other threads take their turns. */
    method Interfere(turns: seq<Turn>)
      requires Valid()
      modifies this`members, this`seqNo, this`events, this`failures
      ensures Valid() && State() == ActAll(old(State()), turns)
    {
      for i := 0 to |turns|
        invariant Valid() && State() == ActAll(old(State()), turns[..i])
      {
        assert turns[..i + 1][..i] == turns[..i];
        match turns[i]
        case AddMember(x, score) => var _ := Add(x, score);
        case RemoveMember(x) => var _ := Remove(x);
        case ChangeScore(x, score) => var _ := Rescore(x, score);
        case QueueFailure(kind, count) => Enqueue(kind, count);
      }
      assert turns[..|turns|] == turns;
    }

    method EnterCall(token: Option<string>) returns (error: Option<ServiceError>)
      requires Valid()
      modifies this
      ensures Valid() && callCount == old(callCount) + 1
      ensures interference == if old(interference) == [] then [] else old(interference)[1..]
      ensures var met := ActAll(old(State()), old(NextTurns()));
              && State() == met.(failures := if met.failures == [] then [] else met.failures[1..])
              && error == if met.failures != [] then Some(Raised(met.failures[0]))
                          else if !Authorized(config, token) then Some(Raised(AuthFailed)) else None
    {
      var turns := NextTurns();
      interference := if interference == [] then [] else interference[1..];
      Interfere(turns);
      callCount := callCount + 1;
      if failures != [] {
        error := Some(Raised(failures[0]));
        failures := failures[1..];
      } else if config.requireAuth && (token == None || token.value == "") {
        error := Some(Raised(AuthFailed));
      } else {
        error := None;
      }
    }

    /** One wire call: the answer comes from the state that the call meets. */
    method Call(req: Request, token: Option<string>) returns (r: Result<Response, ServiceError>)
      requires Valid()
      modifies this
      ensures Valid() && callCount == old(callCount) + 1
      ensures interference == if old(interference) == [] then [] else old(interference)[1..]
      ensures var met := ActAll(old(State()), old(NextTurns()));
              && State() == met.(failures := if met.failures == [] then [] else met.failures[1..])
              && r == Answer(met, req, token, config)
    {
      var error := EnterCall(token);
      if error.Some? {
        return Err(error.value);
      }
      match req
      case SnapshotRequest(cursor) =>
        var page := ServeSnapshot(State(), cursor, config);
        r := Ok(SnapshotResponse(page));
      case ChangesRequest(since, cursor) =>
        var batch := ServeChanges(events, since, cursor, config.feed);
        r := Ok(ChangesResponse(batch, DataAsOf(events, config)));
    }
  }
}
