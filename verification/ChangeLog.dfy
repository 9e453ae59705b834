/** The change events of the wire contract and what they mean: replaying a log over a membership. */
module ChangeLog {
  import opened Outcomes

  datatype Kind = Added | Removed | ScoreChanged

  /** A wire event. `id` and `watermark` are the numbers that the wire text pads with zeros. */
  datatype Event = Event(id: nat, entity: int, kind: Kind, score: Option<real>, watermark: nat)

  type Membership = map<int, real>

  function ScoreOf(e: Event): real {
    if e.score.Some? then e.score.value else 0.0
  }

  /** What the source does to its own membership when it records an event. */
  function Apply(m: Membership, e: Event): Membership {
    match e.kind
    case Added => m[e.entity := ScoreOf(e)]
    case Removed => m - {e.entity}
    case ScoreChanged => m[e.entity := ScoreOf(e)]
  }

  function Replay(base: Membership, es: seq<Event>): Membership {
    if es == [] then base
    else Apply(Replay(base, es[..|es| - 1]), es[|es| - 1])
  }

  /** The source emits a score with everything but a removal, and re-scores current members only. */
  predicate Legal(m: Membership, e: Event) {
    && (e.kind != Removed ==> e.score.Some?)
    && (e.kind == ScoreChanged ==> e.entity in m)
  }

  predicate Valid(base: Membership, es: seq<Event>) {
    es == [] ||
    (Valid(base, es[..|es| - 1]) && Legal(Replay(base, es[..|es| - 1]), es[|es| - 1]))
  }

  /** Events are numbered consecutively from one. */
  predicate Numbered(log: seq<Event>) {
    forall i :: 0 <= i < |log| ==> log[i].watermark == i + 1 && log[i].id == i + 1
  }

  lemma NumberedPrefix(log: seq<Event>, log': seq<Event>)
    requires log <= log' && Numbered(log')
    ensures Numbered(log)
  {}

  lemma {:induction false} ReplayAppend(base: Membership, a: seq<Event>, b: seq<Event>)
    ensures Replay(base, a + b) == Replay(Replay(base, a), b)
  {
    if b == [] {
      assert a + b == a;
    } else {
      var b' := b[..|b| - 1];
      assert (a + b)[..|a + b| - 1] == a + b';
      ReplayAppend(base, a, b');
    }
  }

  lemma {:induction false} ValidAppend(base: Membership, a: seq<Event>, b: seq<Event>)
    ensures Valid(base, a + b) <==> Valid(base, a) && Valid(Replay(base, a), b)
  {
    if b == [] {
      assert a + b == a;
    } else {
      var b' := b[..|b| - 1];
      assert (a + b)[..|a + b| - 1] == a + b';
      ValidAppend(base, a, b');
      ReplayAppend(base, a, b');
    }
  }

  /** Any stretch of a valid log is valid over the membership it starts from. */
  lemma ValidSlice(base: Membership, log: seq<Event>, w: nat, n: nat)
    requires Valid(base, log)
    requires w <= n <= |log|
    ensures Valid(base, log[..n]) && Valid(base, log[..w])
    ensures Valid(Replay(base, log[..w]), log[w..n])
    ensures Replay(Replay(base, log[..w]), log[w..n]) == Replay(base, log[..n])
  {
    assert log == log[..n] + log[n..];
    ValidAppend(base, log[..n], log[n..]);
    assert log[..n] == log[..w] + log[w..n];
    ValidAppend(base, log[..w], log[w..n]);
    ReplayAppend(base, log[..w], log[w..n]);
  }
}
