/** Folding an ordered batch of events into one net delta, and exactly when that is harmless. */
module FoldedDelta {
  import opened Outcomes
  import opened ChangeLog

  datatype Delta = Delta(additions: map<int, real>, removals: set<int>, scoreChanges: map<int, real>)

  const NO_CHANGE := Delta(map[], {}, map[])

  /** The added score as the fold reads it: a missing score and a zero score both become one. */
  function AddedScore(e: Event): real {
    if e.score == None || e.score.value == 0.0 then 1.0 else e.score.value
  }

  function FoldStep(d: Delta, e: Event): Delta {
    var x := e.entity;
    match e.kind
    case Added =>
      Delta(d.additions[x := AddedScore(e)], d.removals - {x}, d.scoreChanges)
    case Removed =>
      Delta(d.additions - {x}, d.removals + {x}, d.scoreChanges - {x})
    case ScoreChanged =>
      if x in d.additions
      then Delta(d.additions[x := ScoreOf(e)], d.removals, d.scoreChanges)
      else Delta(d.additions, d.removals, d.scoreChanges[x := ScoreOf(e)])
  }

  function Fold(es: seq<Event>): Delta {
    if es == [] then NO_CHANGE
    else FoldStep(Fold(es[..|es| - 1]), es[|es| - 1])
  }

  /** A re-score event without a score breaks the wire contract. */
  predicate Scoreless(e: Event) {
    e.kind == ScoreChanged && e.score == None
  }

  /** A source that only emits legal events emits none that the fold refuses. */
  lemma {:induction false} NoneScoreless(base: Membership, log: seq<Event>, e: Event)
    requires Valid(base, log) && e in log
    ensures !Scoreless(e)
  {
    if e != log[|log| - 1] {
      assert log == log[..|log| - 1] + [log[|log| - 1]];
      NoneScoreless(base, log[..|log| - 1], e);
    }
  }

  /** The fold as the synchronizer runs it: three collections updated event by event. */
  method FoldEvents(ordered: seq<Event>) returns (r: Result<Delta, Event>)
    ensures r.Ok? <==> forall e :: e in ordered ==> !Scoreless(e)
    ensures r.Ok? ==> r.value == Fold(ordered)
    ensures r.Err? ==> exists i :: 0 <= i < |ordered| && ordered[i] == r.error && Scoreless(r.error)
                                   && forall j :: 0 <= j < i ==> !Scoreless(ordered[j])
  {
    var additions: map<int, real> := map[];
    var removals: set<int> := {};
    var scoreChanges: map<int, real> := map[];
    for i := 0 to |ordered|
      invariant forall j :: 0 <= j < i ==> !Scoreless(ordered[j])
      invariant Delta(additions, removals, scoreChanges) == Fold(ordered[..i])
    {
      var event := ordered[i];
      assert ordered[..i + 1][..i] == ordered[..i];
      if event.kind == Added {
        additions := additions[event.entity := AddedScore(event)];
        removals := removals - {event.entity};
      } else if event.kind == Removed {
        removals := removals + {event.entity};
        additions := additions - {event.entity};
        scoreChanges := scoreChanges - {event.entity};
      } else {
        if event.score == None {
          assert event in ordered && Scoreless(event);
          return Err(event);
        }
        if event.entity in additions {
          additions := additions[event.entity := event.score.value];
        } else {
          scoreChanges := scoreChanges[event.entity := event.score.value];
        }
      }
    }
    assert ordered[..|ordered|] == ordered;
    return Ok(Delta(additions, removals, scoreChanges));
  }

  /** The scores handed to the store with a delta: pending score changes override additions. */
  function MergedScores(d: Delta): map<int, real> {
    d.additions + d.scoreChanges
  }

  /** What the membership store does with a delta: removals, then additions, then new scores. */
  function ApplyDelta(m: Membership, d: Delta): Membership {
    var scores := MergedScores(d);
    map x | x in (m.Keys - d.removals) + d.additions.Keys :: if x in scores then scores[x] else m[x]
  }

  // ---- One entity's share of a batch ------------------------------------------------------

  /** The events of `x` since its last removal in the batch. */
  function Tail(es: seq<Event>, x: int): seq<Event> {
    if es == [] then []
    else
      var e := es[|es| - 1];
      var before := Tail(es[..|es| - 1], x);
      if e.entity != x then before
      else if e.kind == Removed then []
      else before + [e]
  }

  predicate Removes(es: seq<Event>, x: int) {
    exists i :: 0 <= i < |es| && es[i].entity == x && es[i].kind == Removed
  }

  /** Position of the first addition, or the length when there is none. */
  function FirstAdded(t: seq<Event>): (a: nat)
    ensures a <= |t|
    ensures a < |t| ==> t[a].kind == Added
    ensures forall i :: 0 <= i < a ==> t[i].kind != Added
  {
    if t == [] then 0
    else
      var a := FirstAdded(t[..|t| - 1]);
      if a < |t| - 1 then a else if t[|t| - 1].kind == Added then |t| - 1 else |t|
  }

  /**
   * Whether the fold keeps the score of an entity with this tail. With no addition it does. When the
   * tail opens with an addition, it does unless the tail ends with an addition of score zero. When
   * score changes come before the first addition, the last of them sticks, so it must be the final score.
   */
  predicate KeepsScore(t: seq<Event>) {
    var a := FirstAdded(t);
    a == |t| ||
    (if a == 0 then !(t[|t| - 1].kind == Added && ScoreOf(t[|t| - 1]) == 0.0)
     else ScoreOf(t[a - 1]) == ScoreOf(t[|t| - 1]))
  }

  ghost predicate Foldable(es: seq<Event>) {
    forall x :: KeepsScore(Tail(es, x))
  }

  lemma {:induction false} TailEvents(es: seq<Event>, x: int)
    ensures forall i :: 0 <= i < |Tail(es, x)| ==> Tail(es, x)[i].entity == x && Tail(es, x)[i].kind != Removed
  {
    if es != [] {
      TailEvents(es[..|es| - 1], x);
    }
  }

  lemma RemovesStep(es: seq<Event>, x: int)
    requires es != []
    ensures var e := es[|es| - 1];
            Removes(es, x) <==> Removes(es[..|es| - 1], x) || (e.entity == x && e.kind == Removed)
  {}

  lemma FirstAddedAppend(t: seq<Event>, e: Event)
    ensures FirstAdded(t + [e]) ==
            if FirstAdded(t) < |t| then FirstAdded(t) else if e.kind == Added then |t| else |t| + 1
  {
    assert (t + [e])[..|t|] == t;
  }

  /** How a folded delta reads off the tail of `x`. */
  predicate Shape(d: Delta, t: seq<Event>, removed: bool, x: int) {
    var a := FirstAdded(t);
    && (x in d.additions <==> a < |t|)
    && (x in d.additions ==>
          var last := t[|t| - 1];
          d.additions[x] == if last.kind == Added then AddedScore(last) else ScoreOf(last))
    && (x in d.removals <==> removed && a == |t|)
    && (x in d.scoreChanges <==> 0 < a)
    && (x in d.scoreChanges ==> d.scoreChanges[x] == ScoreOf(t[a - 1]))
  }

  lemma ShapeStep(d: Delta, t: seq<Event>, removed: bool, e: Event)
    requires Shape(d, t, removed, e.entity)
    requires e.kind != Removed
    ensures Shape(FoldStep(d, e), t + [e], removed, e.entity)
  {
    FirstAddedAppend(t, e);
  }

  /** The folded delta, read off the tail of each entity. */
  lemma {:induction false} FoldShape(es: seq<Event>, x: int)
    ensures Shape(Fold(es), Tail(es, x), Removes(es, x), x)
  {
    if es != [] {
      var init, e := es[..|es| - 1], es[|es| - 1];
      FoldShape(init, x);
      RemovesStep(es, x);
      if e.entity == x && e.kind != Removed {
        ShapeStep(Fold(init), Tail(init, x), Removes(init, x), e);
      }
    }
  }

  /** The replayed membership, read off the tail of each entity. */
  lemma {:induction false} ReplayShape(base: Membership, es: seq<Event>, x: int)
    requires Valid(base, es)
    ensures var m, t := Replay(base, es), Tail(es, x);
            && (t != [] ==> x in m && m[x] == ScoreOf(t[|t| - 1]))
            && (t == [] && Removes(es, x) ==> x !in m)
            && (t == [] && !Removes(es, x) ==> (x in m <==> x in base) && (x in m ==> m[x] == base[x]))
            && (t != [] && t[0].kind == ScoreChanged ==> x in base && !Removes(es, x))
  {
    if es != [] {
      ReplayShape(base, es[..|es| - 1], x);
      RemovesStep(es, x);
    }
  }

  /** An entity that the batch only re-scores is a member at every point of the batch. */
  lemma {:induction false} OnlyRescored(base: Membership, es: seq<Event>, k: nat, x: int)
    requires Valid(base, es) && k <= |es|
    requires !Removes(es, x) && x in base
    ensures x in Replay(base, es[..k])
    decreases k
  {
    if k != 0 {
      assert !(es[k - 1].entity == x && es[k - 1].kind == Removed);
      assert es[..k][..k - 1] == es[..k - 1];
      OnlyRescored(base, es, k - 1, x);
    }
  }

  predicate SameAt(m: Membership, m': Membership, x: int) {
    (x in m <==> x in m') && (x in m ==> m[x] == m'[x])
  }

  lemma SameEverywhere(m: Membership, m': Membership)
    requires forall x :: SameAt(m, m', x)
    ensures m == m'
  {
    forall x: int ensures (x in m <==> x in m') && (x in m ==> m[x] == m'[x]) {
      assert SameAt(m, m', x);
    }
  }

  /** What the tail of a whole batch says of the membership at a prefix of it. */
  lemma PrefixShape(base: Membership, es: seq<Event>, k: nat, x: int)
    requires Valid(base, es) && k <= |es|
    ensures Tail(es, x) == [] && !Removes(es, x) ==> SameAt(Replay(base, es[..k]), base, x)
    ensures Tail(es, x) != [] && FirstAdded(Tail(es, x)) == |Tail(es, x)| ==> x in Replay(base, es[..k])
  {
    var t := Tail(es, x);
    if t == [] && !Removes(es, x) {
      UntouchedPrefix(base, es, k, x);
    }
    if t != [] && FirstAdded(t) == |t| {
      TailEvents(es, x);
      ReplayShape(base, es, x);
      assert t[0].kind == ScoreChanged;
      OnlyRescored(base, es, k, x);
    }
  }

  /** The exact condition, one entity at a time, whatever the store has for the others. */
  lemma BatchExactAt(base: Membership, es: seq<Event>, k: nat, m: Membership, x: int)
    requires Valid(base, es) && k <= |es| && SameAt(m, Replay(base, es[..k]), x)
    ensures SameAt(ApplyDelta(m, Fold(es)), Replay(base, es), x) <==> KeepsScore(Tail(es, x))
  {
    FoldShape(es, x);
    TailEvents(es, x);
    ReplayShape(base, es, x);
    PrefixShape(base, es, k, x);
  }

  /** Members, unlike scores, come out right for every legal batch, if they were right at any prefix of it. */
  lemma BatchMembersAt(base: Membership, es: seq<Event>, k: nat, m: Membership, x: int)
    requires Valid(base, es) && k <= |es| && (x in m <==> x in Replay(base, es[..k]))
    ensures x in ApplyDelta(m, Fold(es)) <==> x in Replay(base, es)
  {
    FoldShape(es, x);
    TailEvents(es, x);
    ReplayShape(base, es, x);
    PrefixShape(base, es, k, x);
  }

  lemma {:induction false} UntouchedPrefix(base: Membership, es: seq<Event>, k: nat, x: int)
    requires Valid(base, es) && k <= |es|
    requires Tail(es, x) == [] && !Removes(es, x)
    ensures SameAt(Replay(base, es[..k]), base, x)
  {
    if |es| == k {
      assert es[..k] == es;
      ReplayShape(base, es, x);
    } else {
      RemovesStep(es, x);
      assert es[..|es| - 1][..k] == es[..k];
      UntouchedPrefix(base, es[..|es| - 1], k, x);
    }
  }

  /**
   * Crash recovery in one statement. The delta of a whole batch, applied to a store that already holds
   * ANY prefix of that batch, gives the membership after the batch if and only if the batch is foldable.
   */
  lemma BatchExact(base: Membership, es: seq<Event>, k: nat)
    requires Valid(base, es) && k <= |es|
    ensures ApplyDelta(Replay(base, es[..k]), Fold(es)) == Replay(base, es) <==> Foldable(es)
  {
    var applied, wanted := ApplyDelta(Replay(base, es[..k]), Fold(es)), Replay(base, es);
    forall x ensures SameAt(applied, wanted, x) <==> KeepsScore(Tail(es, x)) {
      BatchExactAt(base, es, k, Replay(base, es[..k]), x);
    }
    if Foldable(es) {
      SameEverywhere(applied, wanted);
    }
    if applied == wanted {
      forall x: int ensures KeepsScore(Tail(es, x)) {
        assert SameAt(applied, wanted, x);
      }
    }
  }

  /** For any events at all, additions and removals never overlap; when the other parts do, exactly. */
  lemma AdditionsAndRemovals(es: seq<Event>, x: int)
    ensures !(x in Fold(es).additions && x in Fold(es).removals)
    ensures x in Fold(es).additions && x in Fold(es).scoreChanges
            <==> 0 < FirstAdded(Tail(es, x)) < |Tail(es, x)|
    ensures x in Fold(es).removals && x in Fold(es).scoreChanges
            <==> Removes(es, x) && 0 < FirstAdded(Tail(es, x)) == |Tail(es, x)|
  {
    FoldShape(es, x);
  }

  /** In a legal batch they do not overlap score changes either. */
  lemma PartsDisjoint(base: Membership, es: seq<Event>, x: int)
    requires Valid(base, es)
    ensures !(x in Fold(es).removals && x in Fold(es).scoreChanges)
  {
    FoldShape(es, x);
    TailEvents(es, x);
    ReplayShape(base, es, x);
  }

  // ---- Composition -----------------------------------------------------------------------

  /** The score an entity has after its last event, as the fold reads it: an addition with score zero counts one. */
  function LastScore(t: seq<Event>): real
    requires t != []
  {
    var last := t[|t| - 1];
    if last.kind == Added then AddedScore(last) else ScoreOf(last)
  }

  /** The score that folding leaves to an entity with this tail. */
  function FoldedScore(t: seq<Event>): real
    requires t != []
  {
    var a := FirstAdded(t);
    if a > 0 then ScoreOf(t[a - 1]) else LastScore(t)
  }

  lemma {:induction false} TailAppend(a: seq<Event>, b: seq<Event>, x: int)
    ensures Removes(a + b, x) <==> Removes(a, x) || Removes(b, x)
    ensures Tail(a + b, x) == if Removes(b, x) then Tail(b, x) else Tail(a, x) + Tail(b, x)
  {
    if b == [] {
      assert a + b == a;
    } else {
      assert (a + b)[..|a + b| - 1] == a + b[..|b| - 1];
      TailAppend(a, b[..|b| - 1], x);
      RemovesStep(b, x);
      RemovesStep(a + b, x);
    }
  }

  /** What applying a folded batch does to one entity, for any membership and any events. */
  predicate AppliedTo(m: Membership, out: Membership, t: seq<Event>, removed: bool, x: int) {
    && (x in out <==> FirstAdded(t) < |t| || (x in m && !removed))
    && (x in out ==> out[x] == if t != [] then FoldedScore(t) else m[x])
  }

  lemma FoldApplied(m: Membership, es: seq<Event>, x: int)
    ensures AppliedTo(m, ApplyDelta(m, Fold(es)), Tail(es, x), Removes(es, x), x)
  {
    FoldShape(es, x);
  }

  lemma FirstAddedConcat(a: seq<Event>, b: seq<Event>)
    ensures FirstAdded(a + b) == if FirstAdded(a) < |a| then FirstAdded(a) else |a| + FirstAdded(b)
  {
    assert forall i :: 0 <= i < |a| ==> (a + b)[i] == a[i];
    assert forall i :: 0 <= i < |b| ==> (a + b)[|a| + i] == b[i];
  }

  /**
   * Whether two batches compose for an entity with these tails. Score changes that come before any addition stick:
   * the last of them overrides what follows. Those of the second batch win over those of the first only while the
   * first adds nothing. So a score that sticks in the first batch must be the one that sticks, or is last, in the
   * second; and after an addition in the first batch, one that sticks in the second must be its last.
   */
  predicate ComposesTails(ta: seq<Event>, tb: seq<Event>) {
    ta == [] || tb == [] ||
    (var fa, fb := FirstAdded(ta), FirstAdded(tb);
     if fa == |ta| && fb > 0 then true
     else if fa > 0 then ScoreOf(ta[fa - 1]) == if fb > 0 then ScoreOf(tb[fb - 1]) else LastScore(tb)
     else fb == 0 || ScoreOf(tb[fb - 1]) == LastScore(tb))
  }

  /** The second batch removes the entity, or the events of both since then compose. */
  predicate ComposesAt(a: seq<Event>, b: seq<Event>, x: int) {
    Removes(b, x) || ComposesTails(Tail(a, x), Tail(b, x))
  }

  lemma AppliedTwice(m: Membership, between: Membership, twice: Membership, once: Membership,
                     ta: seq<Event>, tb: seq<Event>, ra: bool, rb: bool, x: int)
    requires AppliedTo(m, between, ta, ra, x) && AppliedTo(between, twice, tb, rb, x)
    requires AppliedTo(m, once, if rb then tb else ta + tb, ra || rb, x)
    ensures SameAt(once, twice, x) <==> rb || ComposesTails(ta, tb)
  {
    FirstAddedConcat(ta, tb);
    assert tb == [] ==> ta + tb == ta;
    assert ta == [] ==> ta + tb == tb;
  }

  lemma ComposeExactAt(m: Membership, a: seq<Event>, b: seq<Event>, x: int)
    ensures SameAt(ApplyDelta(m, Fold(a + b)), ApplyDelta(ApplyDelta(m, Fold(a)), Fold(b)), x) <==> ComposesAt(a, b, x)
  {
    var between := ApplyDelta(m, Fold(a));
    FoldApplied(m, a + b, x);
    FoldApplied(m, a, x);
    FoldApplied(between, b, x);
    TailAppend(a, b, x);
    AppliedTwice(m, between, ApplyDelta(between, Fold(b)), ApplyDelta(m, Fold(a + b)),
                 Tail(a, x), Tail(b, x), Removes(a, x), Removes(b, x), x);
  }

  /**
   * Folding composes, exactly: for any store and any two batches, one delta for both and one delta for each give
   * the same store if and only if they compose for each entity.
   */
  lemma FoldComposesExact(m: Membership, a: seq<Event>, b: seq<Event>)
    ensures ApplyDelta(m, Fold(a + b)) == ApplyDelta(ApplyDelta(m, Fold(a)), Fold(b))
            <==> forall x :: ComposesAt(a, b, x)
  {
    var once, twice := ApplyDelta(m, Fold(a + b)), ApplyDelta(ApplyDelta(m, Fold(a)), Fold(b));
    forall x ensures SameAt(once, twice, x) <==> ComposesAt(a, b, x) {
      ComposeExactAt(m, a, b, x);
    }
    if forall x :: ComposesAt(a, b, x) {
      SameEverywhere(once, twice);
    }
    if once == twice {
      assert forall x :: SameAt(once, twice, x);
    }
  }
}
