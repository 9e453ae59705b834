/** The background refresh scheduler: a due time per context, with a jitter fixed by the context's id. */
module RefreshScheduler {
  import opened Outcomes
  import opened WireText

  // ---- Jitter ----------------------------------------------------------------------------

  function WithoutDashes(id: string): string {
    if id == [] then [] else if id[0] == '-' then WithoutDashes(id[1..]) else [id[0]] + WithoutDashes(id[1..])
  }

  function HexValue(c: char): Option<nat> {
    if '0' <= c <= '9' then Some(c as int - '0' as int)
    else if 'a' <= c <= 'f' then Some(c as int - 'a' as int + 10)
    else if 'A' <= c <= 'F' then Some(c as int - 'A' as int + 10)
    else None
  }

  /** Hexadecimal digits, where one underscore may stand between two digits. */
  function HexDigits(s: string): Option<nat>
    decreases |s|
  {
    if s == "" || HexValue(s[|s| - 1]) == None then None
    else
      var digit := HexValue(s[|s| - 1]).value;
      if |s| == 1 then Some(digit)
      else
        var init := if s[|s| - 2] == '_' then s[..|s| - 2] else s[..|s| - 1];
        var before := HexDigits(init);
        if before == None then None else Some(before.value * 16 + digit)
  }

  predicate HasPrefix(s: string) {
    |s| >= 2 && s[0] == '0' && (s[1] == 'x' || s[1] == 'X')
  }

  /**
   * The number that a text without a minus sign stands for in base 16: surrounding space, a plus sign, and a prefix
   * with an underscore of its own are allowed.
   */
  function ParseHex(text: string): Option<nat> {
    var s := StripLeft(StripRight(text));
    var unsigned := if s != "" && s[0] == '+' then s[1..] else s;
    var digits :=
      if !HasPrefix(unsigned) then unsigned
      else if |unsigned| > 2 && unsigned[2] == '_' then unsigned[3..]
      else unsigned[2..];
    HexDigits(digits)
  }

  /** The number that the first four characters of the id stand for, dashes aside, if they stand for one. */
  function Seed(id: string): Option<nat> {
    var rest := WithoutDashes(id);
    ParseHex(if |rest| <= 4 then rest else rest[..4])
  }

  predicate IsHex(c: char) {
    HexValue(c).Some?
  }

  /** What the digit grammar allows, said of the whole text at once. */
  ghost predicate HexGroups(s: string) {
    && s != "" && IsHex(s[0]) && IsHex(s[|s| - 1])
    && (forall i :: 0 <= i < |s| ==> IsHex(s[i]) || s[i] == '_')
    && (forall i :: 0 < i < |s| && s[i] == '_' ==> s[i - 1] != '_')
  }

  /** A text has digits exactly when it is groups of them joined by single underscores. */
  lemma {:induction false} HexExact(s: string)
    ensures HexDigits(s).Some? <==> HexGroups(s)
    decreases |s|
  {
    if |s| > 1 && IsHex(s[|s| - 1]) {
      var init := if s[|s| - 2] == '_' then s[..|s| - 2] else s[..|s| - 1];
      HexExact(init);
      if HexGroups(s) {
        assert init != "";
        assert s[|init| - 1] == init[|init| - 1];
        assert forall i :: 0 <= i < |init| ==> init[i] == s[i];
      }
      if HexGroups(init) {
        assert forall i :: 0 <= i < |init| ==> s[i] == init[i];
        assert forall i :: |init| <= i < |s| - 1 ==> s[i] == '_';
      }
    }
  }

  lemma {:induction false} DashesGone(id: string)
    ensures forall i :: 0 <= i < |WithoutDashes(id)| ==> WithoutDashes(id)[i] in id && WithoutDashes(id)[i] != '-'
    ensures forall i :: 0 <= i < |id| && id[i] != '-' ==> id[i] in WithoutDashes(id)
  {
    if id != [] {
      DashesGone(id[1..]);
    }
  }

  /** Hex digits and dashes, and not only dashes: the ids that the system itself makes, which are UUIDs. */
  predicate UuidText(id: string) {
    (forall i :: 0 <= i < |id| ==> IsHex(id[i]) || id[i] == '-') && exists i :: 0 <= i < |id| && id[i] != '-'
  }

  lemma PlainHexParses(text: string)
    requires text != "" && forall i :: 0 <= i < |text| ==> IsHex(text[i])
    ensures ParseHex(text).Some?
  {
    PlainText(text);
    HexExact(text);
  }

  /** Such an id always has a number. */
  lemma UuidSeeded(id: string)
    requires UuidText(id)
    ensures Seed(id).Some?
  {
    var rest := WithoutDashes(id);
    DashesGone(id);
    assert rest != "";
    PlainHexParses(if |rest| <= 4 then rest else rest[..4]);
  }

  lemma PrefixWithoutDashes(id: string, n: nat)
    requires n <= |id| && forall i :: 0 <= i < n ==> id[i] != '-'
    ensures n <= |WithoutDashes(id)| && WithoutDashes(id)[..n] == id[..n]
  {
    if n > 0 {
      PrefixWithoutDashes(id[1..], n - 1);
      assert id[..n] == [id[0]] + id[1..][..n - 1];
    }
  }

  const LOWER := "0123456789abcdef"
  const UPPER := "0123456789ABCDEF"

  /** The value of a digit is its place in either row of digits, and nothing else is a digit. */
  lemma DigitExact(c: char, n: nat)
    ensures HexValue(c) == Some(n) <==> n < 16 && (c == LOWER[n] || c == UPPER[n])
  {
    if HexValue(c) == Some(n) {
      assert n == if c <= '9' then c as int - 48 else if c <= 'F' then c as int - 55 else c as int - 87;
    }
  }

  /** The text begins with four hexadecimal digits, and they stand for `n`. */
  predicate FourDigits(id: string, n: nat) {
    && |id| >= 4 && IsHex(id[0]) && IsHex(id[1]) && IsHex(id[2]) && IsHex(id[3])
    && n == 4096 * HexValue(id[0]).value + 256 * HexValue(id[1]).value + 16 * HexValue(id[2]).value
            + HexValue(id[3]).value
  }

  /** The seed of an id that begins with four hexadecimal digits, as a UUID does, is the number they stand for. */
  lemma SeedExact(id: string, n: nat)
    requires FourDigits(id, n)
    ensures Seed(id) == Some(n)
  {
    PrefixWithoutDashes(id, 4);
    var text := id[..4];
    var rest := WithoutDashes(id);
    assert rest[..4] == text && (|rest| == 4 ==> rest == text);
    PlainText(text);
    DigitsOnly(text, n);
  }

  lemma DigitsOnly(text: string, n: nat)
    requires |text| == 4 && FourDigits(text, n)
    ensures HexDigits(text) == Some(n)
  {
    var one, two, three := text[..1], text[..2], text[..3];
    assert two[..1] == one && three[..2] == two && text[..3] == three;
    assert HexDigits(one) == HexValue(text[0]);
    assert HexDigits(two) == Some(16 * HexValue(text[0]).value + HexValue(text[1]).value);
    assert HexDigits(three) ==
           Some(256 * HexValue(text[0]).value + 16 * HexValue(text[1]).value + HexValue(text[2]).value);
  }

  /** A text of digits alone has no space, sign or prefix to take off. */
  lemma PlainText(text: string)
    requires text != "" && forall i :: 0 <= i < |text| ==> IsHex(text[i])
    ensures ParseHex(text) == HexDigits(text)
  {
    assert IsHex(text[0]) && IsHex(text[|text| - 1]);
    NothingToStrip(text);
    assert |text| >= 2 ==> IsHex(text[1]);
    assert !HasPrefix(text);
  }

  lemma NothingToStrip(text: string)
    requires text != "" && !IsSpace(text[0]) && !IsSpace(text[|text| - 1])
    ensures StripLeft(StripRight(text)) == text
  {}

  /** The jitter of such an id: as many ten-thousandths of the interval as the number has over the thousands. */
  lemma JitterExact(id: string, n: nat, interval: real)
    requires FourDigits(id, n)
    ensures Seed(id).Some? && 10_000.0 * Jitter(id, interval) == interval * (n % 1000) as real
  {
    SeedExact(id, n);
    Shares(interval, (n % 1000) as real);
  }

  lemma Shares(interval: real, k: real)
    ensures 10_000.0 * (interval * (k / 10_000.0)) == interval * k
  {}

  /** At most 999 ten-thousandths of the interval. */
  function Jitter(id: string, interval: real): real
    requires Seed(id).Some?
  {
    interval * ((Seed(id).value % 1000) as real / 10000.0)
  }

  lemma JitterBounds(id: string, interval: real)
    requires Seed(id).Some? && interval >= 0.0
    ensures 0.0 <= Jitter(id, interval)
    ensures interval > 0.0 ==> Jitter(id, interval) < interval / 10.0
  {
    var share := (Seed(id).value % 1000) as real / 10000.0;
    assert 0.0 <= share < 0.1;
    ScaledBounds(interval, share);
    assert Jitter(id, interval) == interval * share;
  }

  lemma ScaledBounds(interval: real, share: real)
    requires interval >= 0.0 && 0.0 <= share < 0.1
    ensures 0.0 <= interval * share
    ensures interval > 0.0 ==> interval * share < interval / 10.0
  {}

  // ---- Ticks -----------------------------------------------------------------------------

  datatype Settings = Settings(materialized: bool, refreshMode: string, refreshInterval: Option<real>)

  datatype Entry = Entry(contextId: string, settings: Settings)

  datatype Attempt = Attempt(contextId: string, at: real, succeeded: bool)

  datatype Schedule = Schedule(nextDue: map<string, real>, attempts: seq<Attempt>)

  /**
   * One tick: the clock, the catalog, the contexts whose refresh lock is taken, those whose refresh fails, and
   * those for which noting the failure raises in turn.
   */
  datatype Tick = Tick(now: real, entries: seq<Entry>, held: set<string>, failing: set<string>, raising: set<string>)

  predicate Scheduled(e: Entry) {
    e.settings.materialized && e.settings.refreshMode == "scheduled" && e.settings.refreshInterval.Some?
  }

  predicate Due(s: Schedule, id: string, now: real) {
    id in s.nextDue ==> s.nextDue[id] <= now
  }

  predicate Refreshes(s: Schedule, e: Entry, t: Tick) {
    Scheduled(e) && Due(s, e.contextId, t.now) && e.contextId !in t.held
  }

  /** An exception leaves the tick: the failure could not be noted, or the id has no number to derive a jitter from. */
  predicate Raises(s: Schedule, e: Entry, t: Tick) {
    Refreshes(s, e, t) && (Seed(e.contextId) == None || (e.contextId in t.failing && e.contextId in t.raising))
  }

  /** The attempt counts whatever comes of it; the due time is set on the way out, when there is a jitter. */
  function Visit(s: Schedule, e: Entry, t: Tick): Schedule {
    var id := e.contextId;
    if Refreshes(s, e, t) then
      var interval := e.settings.refreshInterval.value;
      Schedule(
        if Seed(id) == None then s.nextDue else s.nextDue[id := t.now + interval + Jitter(id, interval)],
        s.attempts + [Attempt(id, t.now, id !in t.failing)])
    else s
  }

  /** What the first `n` entries leave; after an exception none is visited. */
  function VisitAll(s: Schedule, t: Tick, n: nat): Schedule
    requires n <= |t.entries|
  {
    if n == 0 then s
    else
      var before := VisitAll(s, t, n - 1);
      if Ended(s, t, n - 1) then before else Visit(before, t.entries[n - 1], t)
  }

  /** Whether an exception ended the tick among the first `n` entries. */
  predicate Ended(s: Schedule, t: Tick, n: nat)
    requires n <= |t.entries|
  {
    n > 0 && (Ended(s, t, n - 1) || Raises(VisitAll(s, t, n - 1), t.entries[n - 1], t))
  }

  function Run(ticks: seq<Tick>): Schedule {
    if ticks == [] then Schedule(map[], [])
    else
      var t := ticks[|ticks| - 1];
      VisitAll(Run(ticks[..|ticks| - 1]), t, |t.entries|)
  }

  lemma {:induction false} EndedStays(s: Schedule, t: Tick, n: nat, all: nat)
    requires n <= all <= |t.entries| && Ended(s, t, n)
    ensures Ended(s, t, all) && VisitAll(s, t, all) == VisitAll(s, t, n)
    decreases all - n
  {
    if n < all {
      EndedStays(s, t, n, all - 1);
    }
  }

  class Scheduler {
    var nextDue: map<string, real>
    var attempts: seq<Attempt>

    constructor ()
      ensures State() == Schedule(map[], [])
    {
      nextDue, attempts := map[], [];
    }

    function State(): Schedule
      reads this
    {
      Schedule(nextDue, attempts)
    }

    /** Refresh every scheduled context that is due and not locked; a failed refresh is rescheduled like any other. */
    method Tick(t: Tick) returns (completed: bool)
      modifies this
      ensures State() == VisitAll(old(State()), t, |t.entries|)
      ensures completed <==> !Ended(old(State()), t, |t.entries|)
    {
      for i := 0 to |t.entries|
        invariant State() == VisitAll(old(State()), t, i) && !Ended(old(State()), t, i)
      {
        var entry := t.entries[i];
        if !entry.settings.materialized || entry.settings.refreshMode != "scheduled" {
          continue;
        }
        if entry.settings.refreshInterval == None {
          continue;
        }
        var interval := entry.settings.refreshInterval.value;
        var id := entry.contextId;
        var due := if id in nextDue then nextDue[id] else t.now;
        if t.now < due {
          continue;
        }
        if id in t.held {
          continue;
        }
        attempts := attempts + [Attempt(id, t.now, id !in t.failing)];
        if Seed(id).Some? {
          nextDue := nextDue[id := t.now + interval + Jitter(id, interval)];
        }
        if Seed(id) == None || (id in t.failing && id in t.raising) {
          EndedStays(old(State()), t, i + 1, |t.entries|);
          return false;
        }
      }
      return true;
    }
  }

  // ---- Spacing and lateness --------------------------------------------------------------

  /** The instants at which a context was refreshed, successfully or not. */
  function Times(attempts: seq<Attempt>, id: string): seq<real> {
    if attempts == [] then []
    else
      var last := attempts[|attempts| - 1];
      var before := Times(attempts[..|attempts| - 1], id);
      if last.contextId == id then before + [last.at] else before
  }

  /** Neighbouring instants are at least `low` apart. */
  ghost predicate Apart(times: seq<real>, low: real) {
    forall j :: 0 < j < |times| ==> times[j] - times[j - 1] >= low
  }

  /** Neighbouring instants are less than `high` apart. */
  ghost predicate Within(times: seq<real>, high: real) {
    forall j :: 0 < j < |times| ==> times[j] - times[j - 1] < high
  }

  /** The context's interval never changes while it is scheduled. */
  predicate FixedInterval(ticks: seq<Tick>, id: string, interval: real) {
    forall i :: 0 <= i < |ticks| ==> FixedIn(ticks[i], id, interval)
  }

  predicate FixedIn(t: Tick, id: string, interval: real) {
    forall j :: 0 <= j < |t.entries| && t.entries[j].contextId == id && Scheduled(t.entries[j])
                ==> t.entries[j].settings.refreshInterval == Some(interval)
  }

  function Period(id: string, interval: real): real
    requires Seed(id).Some?
  {
    interval + Jitter(id, interval)
  }

  /** The due time of a context is its last attempt plus its period, and attempts are a period apart. */
  ghost predicate OnTime(s: Schedule, id: string, period: real) {
    var times := Times(s.attempts, id);
    && Apart(times, period)
    && (id in s.nextDue <==> times != [])
    && (times != [] ==> s.nextDue[id] == times[|times| - 1] + period)
  }

  lemma TimesAppend(attempts: seq<Attempt>, a: Attempt, id: string)
    ensures Times(attempts + [a], id) == Times(attempts, id) + if a.contextId == id then [a.at] else []
  {}

  lemma VisitOnTime(s: Schedule, e: Entry, t: Tick, id: string, interval: real)
    requires Seed(id).Some? && OnTime(s, id, Period(id, interval))
    requires e.contextId == id && Scheduled(e) ==> e.settings.refreshInterval == Some(interval)
    ensures OnTime(Visit(s, e, t), id, Period(id, interval))
  {
    var s' := Visit(s, e, t);
    if s' != s {
      TimesAppend(s.attempts, Attempt(e.contextId, t.now, e.contextId !in t.failing), id);
    }
  }

  lemma {:induction false} VisitAllOnTime(s: Schedule, t: Tick, n: nat, id: string, interval: real)
    requires n <= |t.entries| && FixedIn(t, id, interval)
    requires Seed(id).Some? && OnTime(s, id, Period(id, interval))
    ensures OnTime(VisitAll(s, t, n), id, Period(id, interval))
  {
    if n > 0 {
      VisitAllOnTime(s, t, n - 1, id, interval);
      assert FixedIn(t, id, interval);
      VisitOnTime(VisitAll(s, t, n - 1), t.entries[n - 1], t, id, interval);
    }
  }

  lemma {:induction false} RunOnTime(ticks: seq<Tick>, id: string, interval: real)
    requires FixedInterval(ticks, id, interval) && Seed(id).Some?
    ensures OnTime(Run(ticks), id, Period(id, interval))
  {
    if ticks != [] {
      RunOnTime(ticks[..|ticks| - 1], id, interval);
      var t := ticks[|ticks| - 1];
      VisitAllOnTime(Run(ticks[..|ticks| - 1]), t, |t.entries|, id, interval);
    }
  }

  /** From the first of `k` instants to the last it is at least `k - 1` times the period. */
  ghost predicate Spans(times: seq<real>, period: real) {
    times != [] ==> times[|times| - 1] - times[0] >= (|times| - 1) as real * period
  }

  lemma {:induction false} SpanOf(times: seq<real>, period: real)
    requires Apart(times, period)
    ensures Spans(times, period)
  {
    if |times| > 1 {
      var init := times[..|times| - 1];
      SpanOf(init, period);
      assert (|times| - 1) as real * period == (|times| - 2) as real * period + period;
    }
  }

  /**
   * Spacing: over any run of ticks, whatever the clock, the failures and the exceptions, successive attempts of a
   * context are at least its interval plus jitter apart, so k attempts span at least k - 1 intervals.
   */
  lemma Spacing(ticks: seq<Tick>, id: string, interval: real)
    requires FixedInterval(ticks, id, interval) && interval >= 0.0 && Seed(id).Some?
    ensures Apart(Times(Run(ticks).attempts, id), Period(id, interval))
    ensures Spans(Times(Run(ticks).attempts, id), interval)
    ensures interval <= Period(id, interval)
  {
    RunOnTime(ticks, id, interval);
    JitterBounds(id, interval);
    ApartSpans(Times(Run(ticks).attempts, id), Period(id, interval), interval);
  }

  lemma SingleEntry(s: Schedule, t: Tick, e: Entry)
    requires t.entries == [e]
    ensures VisitAll(s, t, |t.entries|) == Visit(s, e, t)
  {
    var n := |t.entries|;
    assert VisitAll(s, t, n - 1) == s && !Ended(s, t, n - 1);
  }

  lemma RunAppend(ticks: seq<Tick>, t: Tick)
    ensures Run(ticks + [t]) == VisitAll(Run(ticks), t, |t.entries|)
  {
    assert (ticks + [t])[..|ticks|] == ticks;
  }

  /** Without a number in its id a context has no due time, and every tick refreshes it again. */
  lemma UnseededAgain(ticks: seq<Tick>, t: Tick, e: Entry, id: string)
    requires Seed(id) == None && e.contextId == id && Scheduled(e) && t.entries == [e] && id !in t.held
    requires id !in Run(ticks).nextDue
    ensures Times(Run(ticks + [t]).attempts, id) == Times(Run(ticks).attempts, id) + [t.now]
    ensures id !in Run(ticks + [t]).nextDue
  {
    RunAppend(ticks, t);
    SingleEntry(Run(ticks), t, e);
    TimesAppend(Run(ticks).attempts, Attempt(id, t.now, id !in t.failing), id);
  }

  lemma UnseededTwice(id: string, interval: real) returns (ticks: seq<Tick>)
    requires Seed(id) == None
    ensures FixedInterval(ticks, id, interval) && Times(Run(ticks).attempts, id) == [0.0, 0.0]
  {
    var e := Entry(id, Settings(true, "scheduled", Some(interval)));
    var t := Tick(0.0, [e], {}, {}, {});
    var none: seq<Tick> := [];
    UnseededAgain(none, t, e, id);
    UnseededAgain(none + [t], t, e, id);
    ticks := none + [t] + [t];
    assert Times(Run(none).attempts, id) == [];
    assert FixedIn(t, id, interval);
  }

  ghost predicate AlwaysSpaced(id: string, interval: real) {
    forall ticks :: FixedInterval(ticks, id, interval) ==> Apart(Times(Run(ticks).attempts, id), interval)
  }

  /** Spacing is guaranteed exactly for the contexts whose id has a number to derive a jitter from. */
  lemma SpacingExact(id: string, interval: real)
    requires interval > 0.0
    ensures AlwaysSpaced(id, interval) <==> Seed(id).Some?
  {
    if Seed(id).Some? {
      forall ticks | FixedInterval(ticks, id, interval) ensures Apart(Times(Run(ticks).attempts, id), interval) {
        Spacing(ticks, id, interval);
      }
    } else {
      var ticks := UnseededTwice(id, interval);
      var times := Times(Run(ticks).attempts, id);
      assert times[1] - times[0] == 0.0;
    }
  }

  lemma ApartSpans(times: seq<real>, period: real, interval: real)
    requires Apart(times, period) && interval <= period
    ensures Spans(times, interval)
  {
    SpanOf(times, interval);
  }

  /** So the contexts that the system itself makes are always spaced. */
  lemma UuidSpaced(id: string, interval: real)
    requires UuidText(id) && interval > 0.0
    ensures AlwaysSpaced(id, interval)
  {
    UuidSeeded(id);
    SpacingExact(id, interval);
  }

  /** The tick gets to the context: it is listed, scheduled and not locked, and no exception came before it. */
  predicate Offered(s: Schedule, t: Tick, id: string) {
    id !in t.held && exists j :: 0 <= j < |t.entries| && OfferedAt(s, t, id, j)
  }

  predicate OfferedAt(s: Schedule, t: Tick, id: string, j: nat)
    requires j < |t.entries|
  {
    t.entries[j].contextId == id && Scheduled(t.entries[j]) && !Ended(s, t, j)
  }

  /** After a tick that got to the context, its due time is in the future. */
  lemma {:induction false} AfterTick(s: Schedule, t: Tick, n: nat, id: string, interval: real)
    requires n <= |t.entries| && FixedIn(t, id, interval) && interval > 0.0 && id !in t.held && Seed(id).Some?
    ensures (exists j :: 0 <= j < n && OfferedAt(s, t, id, j)) ==>
              id in VisitAll(s, t, n).nextDue && t.now < VisitAll(s, t, n).nextDue[id]
  {
    if n > 0 {
      AfterTick(s, t, n - 1, id, interval);
      JitterBounds(id, interval);
      if j :| 0 <= j < n && OfferedAt(s, t, id, j) {
        if j == n - 1 {
          assert t.entries[n - 1].settings.refreshInterval == Some(interval);
        }
      }
    }
  }

  /** Ticks in order, at most `g` apart, each getting to the context. */
  ghost predicate Regular(ticks: seq<Tick>, id: string, g: real) {
    && (forall i :: 0 <= i < |ticks| ==> Offered(Run(ticks[..i]), ticks[i], id))
    && (forall i :: 0 < i < |ticks| ==> 0.0 <= ticks[i].now - ticks[i - 1].now <= g)
  }

  ghost predicate Untouched(s: Schedule, s': Schedule, id: string) {
    && Times(s'.attempts, id) == Times(s.attempts, id)
    && (id in s.nextDue <==> id in s'.nextDue)
    && (id in s.nextDue ==> s'.nextDue[id] == s.nextDue[id])
  }

  ghost predicate Attempted(s: Schedule, s': Schedule, now: real, id: string) {
    Times(s'.attempts, id) == Times(s.attempts, id) + [now] && id in s'.nextDue && now < s'.nextDue[id]
  }

  /** One tick adds at most one attempt of the context, at the time of the tick, and only when it is due. */
  lemma {:induction false} TickAdds(s: Schedule, t: Tick, n: nat, id: string, interval: real)
    requires n <= |t.entries| && FixedIn(t, id, interval) && interval > 0.0 && Seed(id).Some?
    ensures Attempted(s, VisitAll(s, t, n), t.now, id) || Untouched(s, VisitAll(s, t, n), id)
  {
    if n > 0 {
      TickAdds(s, t, n - 1, id, interval);
      JitterBounds(id, interval);
      var before, e := VisitAll(s, t, n - 1), t.entries[n - 1];
      if !Ended(s, t, n - 1) && Visit(before, e, t) != before {
        TimesAppend(before.attempts, Attempt(e.contextId, t.now, e.contextId !in t.failing), id);
      }
    }
  }

  /**
   * What a tick does for a context: it attempts it, once, exactly if it gets to it and it is due, and otherwise
   * leaves it as it was.
   */
  lemma TickExact(s: Schedule, t: Tick, id: string, interval: real)
    requires FixedIn(t, id, interval) && interval > 0.0 && Seed(id).Some?
    ensures Offered(s, t, id) && Due(s, id, t.now) ==> Attempted(s, VisitAll(s, t, |t.entries|), t.now, id)
    ensures !(Offered(s, t, id) && Due(s, id, t.now)) ==> Untouched(s, VisitAll(s, t, |t.entries|), id)
  {
    var n := |t.entries|;
    TickAdds(s, t, n, id, interval);
    if Offered(s, t, id) && Due(s, id, t.now) {
      AfterTick(s, t, n, id, interval);
    } else {
      NotOffered(s, t, n, id, interval);
    }
  }

  lemma {:induction false} NotOffered(s: Schedule, t: Tick, n: nat, id: string, interval: real)
    requires n <= |t.entries|
    requires !Due(s, id, t.now) || id in t.held || forall j :: 0 <= j < n ==> !OfferedAt(s, t, id, j)
    ensures Untouched(s, VisitAll(s, t, n), id)
  {
    if n > 0 {
      NotOffered(s, t, n - 1, id, interval);
      var before, e := VisitAll(s, t, n - 1), t.entries[n - 1];
      assert OfferedAt(s, t, id, n - 1) <==> e.contextId == id && Scheduled(e) && !Ended(s, t, n - 1);
      if e.contextId != id {
        TimesAppend(before.attempts, Attempt(e.contextId, t.now, e.contextId !in t.failing), id);
      }
    }
  }

  /** The tick lists the context as one to refresh on schedule, does not find it locked, and the outcome is as told. */
  ghost predicate AttemptFrom(a: Attempt, t: Tick, j: nat) {
    && j < |t.entries| && t.entries[j].contextId == a.contextId
    && t.entries[j].settings.materialized
    && t.entries[j].settings.refreshMode == "scheduled"
    && t.entries[j].settings.refreshInterval.Some?
    && a.contextId !in t.held
    && a.at == t.now
    && (a.succeeded <==> a.contextId !in t.failing)
  }

  lemma {:induction false} VisitsKeep(s: Schedule, t: Tick, n: nat)
    requires n <= |t.entries|
    ensures s.attempts <= VisitAll(s, t, n).attempts
  {
    if n > 0 {
      VisitsKeep(s, t, n - 1);
    }
  }

  lemma {:induction false} VisitedFrom(s: Schedule, t: Tick, n: nat, k: nat) returns (j: nat)
    requires n <= |t.entries| && k < |VisitAll(s, t, n).attempts|
    ensures k >= |s.attempts| ==> AttemptFrom(VisitAll(s, t, n).attempts[k], t, j)
  {
    j := 0;
    VisitsKeep(s, t, n);
    if n > 0 {
      var before := VisitAll(s, t, n - 1);
      if k < |before.attempts| {
        j := VisitedFrom(s, t, n - 1, k);
      } else {
        j := n - 1;
      }
    }
  }

  predicate CutsShort(t: Tick, id: string) {
    Seed(id) == None || (id in t.failing && id in t.raising)
  }

  /**
   * A tick is cut short exactly by an attempt whose failure cannot be noted, or whose context has no jitter: that
   * attempt is then its last, and no attempt before it was of the kind.
   */
  lemma {:induction false} EndedExact(s: Schedule, t: Tick, n: nat)
    requires n <= |t.entries|
    ensures var all := VisitAll(s, t, n).attempts;
            && s.attempts <= all
            && (Ended(s, t, n) <==> |all| > |s.attempts| && CutsShort(t, all[|all| - 1].contextId))
            && forall k :: |s.attempts| <= k < |all| - 1 ==> !CutsShort(t, all[k].contextId)
  {
    if n > 0 {
      EndedExact(s, t, n - 1);
    }
  }

  /** Every attempt of a run comes from a tick that listed its context so: no other context is ever refreshed. */
  lemma {:induction false} RunAttempts(ticks: seq<Tick>, k: nat) returns (i: nat, j: nat)
    requires k < |Run(ticks).attempts|
    ensures i < |ticks| && AttemptFrom(Run(ticks).attempts[k], ticks[i], j)
  {
    var init, t := ticks[..|ticks| - 1], ticks[|ticks| - 1];
    VisitsKeep(Run(init), t, |t.entries|);
    if k < |Run(init).attempts| {
      i, j := RunAttempts(init, k);
    } else {
      i := |init|;
      j := VisitedFrom(Run(init), t, |t.entries|, k);
    }
  }

  lemma RegularInit(ticks: seq<Tick>, id: string, g: real)
    requires Regular(ticks, id, g) && ticks != []
    ensures Regular(ticks[..|ticks| - 1], id, g)
  {
    var init := ticks[..|ticks| - 1];
    forall i | 0 <= i < |init| ensures Offered(Run(init[..i]), init[i], id) {
      assert init[..i] == ticks[..i] && init[i] == ticks[i];
    }
  }

  /**
   * Lateness: when ticks are at most `g` apart and each gets to the context, successive attempts are less than
   * the interval plus jitter plus `g` apart.
   */
  lemma {:induction false} Lateness(ticks: seq<Tick>, id: string, interval: real, g: real)
    requires FixedInterval(ticks, id, interval) && interval > 0.0 && g >= 0.0 && Seed(id).Some?
    requires Regular(ticks, id, g)
    ensures Within(Times(Run(ticks).attempts, id), interval + Jitter(id, interval) + g)
    ensures ticks != [] ==> id in Run(ticks).nextDue && ticks[|ticks| - 1].now < Run(ticks).nextDue[id]
  {
    if ticks != [] {
      var init, t := ticks[..|ticks| - 1], ticks[|ticks| - 1];
      RegularInit(ticks, id, g);
      Lateness(init, id, interval, g);
      RunOnTime(init, id, interval);
      var s := Run(init);
      assert Offered(s, t, id) && FixedIn(t, id, interval);
      AfterTick(s, t, |t.entries|, id, interval);
      TickAdds(s, t, |t.entries|, id, interval);
      var times, times' := Times(s.attempts, id), Times(Run(ticks).attempts, id);
      if times' != times && times != [] {
        assert init != [];
        assert t.now - init[|init| - 1].now <= g;
        assert t.now < times[|times| - 1] + Period(id, interval) + g;
      }
    }
  }
}
