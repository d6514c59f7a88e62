/** `_RateLimitedLog` (infra/serve_http.py): at most `burst` records per window of `interval` seconds, the
    dropped ones counted and carried into the first record of the next window. Calls are serialised by
    the lock, so a history is a sequence of calls with a non-decreasing clock. */
module RateLimitedLog {
  import opened Options

  /** One emitted record: it is the rank-th one of the window with that index. */
  datatype Record = Record(time: real, suppressed: nat, window: nat, rank: nat)

  /** The limiter's fields (windowStart, emitted, suppressed) and the history of its calls: how many, when
      each window started, and what was emitted. */
  datatype History = History(
    windowStart: Option<real>, emitted: nat, suppressed: nat,
    calls: nat, starts: seq<real>, records: seq<Record>)

  const NEW := History(None, 0, 0, 0, [], [])

  function OpensWindow(h: History, interval: real, now: real): bool {
    h.windowStart == None || now - h.windowStart.value >= interval
  }

  /** Opening a window (or not) before anything is emitted. */
  function Open(h: History, interval: real, now: real): History {
    if OpensWindow(h, interval, now) then
      h.(windowStart := Some(now), emitted := 0, suppressed := 0, starts := h.starts + [now])
    else h
  }

  /** warning(): what one call at `now` does to the fields and the history. */
  function Call(h: History, interval: real, burst: int, now: real): History {
    var o := Open(h, interval, now);
    var carried := if OpensWindow(h, interval, now) then h.suppressed else 0;
    if o.emitted >= burst then
      o.(suppressed := o.suppressed + 1, calls := o.calls + 1)
    else
      o.(emitted := o.emitted + 1, calls := o.calls + 1,
         records := o.records + [Record(now, carried, |o.starts|, o.emitted + 1)])
  }

  class Limiter {
    const interval: real
    const burst: int
    var windowStart: Option<real>
    var emitted: nat
    var suppressed: nat
    ghost var history: History

    ghost predicate Valid()
      reads this
    {
      windowStart == history.windowStart && emitted == history.emitted && suppressed == history.suppressed
    }

    constructor (interval: real, burst: int)
      ensures Valid() && history == NEW && this.interval == interval && this.burst == burst
    {
      this.interval, this.burst := interval, burst;
      windowStart, emitted, suppressed := None, 0, 0;
      history := NEW;
    }

    /** The record to log, if the call is not suppressed: its `suppressed` field. */
    method Warning(now: real) returns (record: Option<nat>)
      requires Valid()
      modifies this
      ensures Valid() && history == Call(old(history), interval, burst, now)
      ensures record.None? <==> history.records == old(history).records
      ensures record.Some? ==> history.records != [] && history.records[..|history.records| - 1] == old(history).records
                               && history.records[|history.records| - 1].suppressed == record.value
    {
      history := Call(history, interval, burst, now);
      var carried := 0;
      if windowStart == None || now - windowStart.value >= interval {
        windowStart := Some(now);
        emitted := 0;
        carried, suppressed := suppressed, 0;
      }
      if emitted >= burst {
        suppressed := suppressed + 1;
        return None;
      }
      emitted := emitted + 1;
      record := Some(carried);
    }
  }

  // ----- runs -----

  function After(times: seq<real>, interval: real, burst: int): History {
    if times == [] then NEW
    else Call(After(times[..|times| - 1], interval, burst), interval, burst, times[|times| - 1])
  }

  ghost predicate Ascending(times: seq<real>) {
    forall i, j :: 0 <= i < j < |times| ==> times[i] <= times[j]
  }

  function Reported(records: seq<Record>): nat {
    if records == [] then 0 else Reported(records[..|records| - 1]) + records[|records| - 1].suppressed
  }

  // ----- nothing is lost from the count -----

  ghost predicate Balanced(h: History) {
    h.calls == |h.records| + Reported(h.records) + h.suppressed
  }

  lemma CallKeepsBalance(h: History, interval: real, burst: int, now: real)
    requires burst >= 1 && Balanced(h)
    ensures Balanced(Call(h, interval, burst, now))
  {
    var after := Call(h, interval, burst, now);
    if |after.records| > |h.records| {
      assert after.records[..|after.records| - 1] == h.records;
    }
  }

  /** Calls made = records emitted + the sum of their suppressed fields + the count still pending. */
  lemma {:induction false} EveryCallIsAccountedFor(times: seq<real>, interval: real, burst: int)
    requires burst >= 1
    ensures var h := After(times, interval, burst);
            |times| == |h.records| + Reported(h.records) + h.suppressed
  {
    BalanceHolds(times, interval, burst);
  }

  lemma {:induction false} BalanceHolds(times: seq<real>, interval: real, burst: int)
    requires burst >= 1
    ensures Balanced(After(times, interval, burst)) && After(times, interval, burst).calls == |times|
  {
    if times != [] {
      var before := times[..|times| - 1];
      BalanceHolds(before, interval, burst);
      CallKeepsBalance(After(before, interval, burst), interval, burst, times[|times| - 1]);
    }
  }

  /** Without room for one record per window, a count already collected is thrown away. */
  lemma NoBurstLosesCount(burst: int, interval: real)
    requires burst <= 0 && interval > 0.0
    ensures var h := After([0.0, interval], interval, burst);
            |h.records| + Reported(h.records) + h.suppressed == 1 < 2
  {
    assert [0.0, interval][..1] == [0.0];
    assert [0.0][..0] == [];
    var first := After([0.0], interval, burst);
    assert first == Call(After([], interval, burst), interval, burst, 0.0);
    assert first.suppressed == 1 && first.records == [];
  }

  // ----- nothing is suppressed without need -----

  /** The last `emitted` records are those of the current window. */
  ghost predicate CountsWindow(h: History) {
    && h.emitted <= |h.records| && (h.emitted > 0 ==> h.windowStart.Some?)
    && forall i :: |h.records| - h.emitted <= i < |h.records| ==> h.windowStart.value <= h.records[i].time
  }

  lemma {:induction false} WindowIsCounted(times: seq<real>, interval: real, burst: int)
    requires Ascending(times)
    ensures CountsWindow(After(times, interval, burst))
    ensures times != [] ==> After(times, interval, burst).windowStart.Some?
    ensures times != [] ==> After(times, interval, burst).windowStart.value <= times[|times| - 1]
    ensures forall r :: r in After(times, interval, burst).records ==> times != [] && r.time <= times[|times| - 1]
  {
    if times != [] {
      var before := times[..|times| - 1];
      WindowIsCounted(before, interval, burst);
      assert before != [] ==> before[|before| - 1] == times[|times| - 2] <= times[|times| - 1];
    }
  }

  /** A call is logged, with its own time, unless the last `burst` records were all logged less than an interval
      before it; and a record that reports dropped ones is the first of its window. */
  lemma SuppressionIsJustified(times: seq<real>, interval: real, burst: int, now: real)
    requires Ascending(times + [now]) && burst >= 1
    ensures var h, after := After(times, interval, burst), After(times + [now], interval, burst);
            if |after.records| == |h.records| then
              && after.records == h.records && |h.records| >= burst
              && forall i :: |h.records| - burst <= i < |h.records| ==> now - interval < h.records[i].time <= now
            else
              && |after.records| == |h.records| + 1 && after.records[..|h.records|] == h.records
              && after.records[|h.records|].time == now
              && (after.records[|h.records|].suppressed > 0 ==> after.records[|h.records|].rank == 1)
  {
    assert (times + [now])[..|times|] == times;
    assert forall i :: 0 <= i < |times| ==> times[i] == (times + [now])[i];
    assert Ascending(times);
    assert times != [] ==> (times + [now])[|times| - 1] <= (times + [now])[|times|];
    WindowIsCounted(times, interval, burst);
    var h := After(times, interval, burst);
    forall i | 0 <= i < |h.records| ensures h.records[i].time <= now { assert h.records[i] in h.records; }
  }

  // ----- the rate -----

  /** Windows start at least an interval apart; each record lies inside its window, and the records are
      numbered by window and by rank in it, one after the other. */
  ghost predicate Placed(h: History, interval: real, burst: int) {
    && (h.windowStart == None <==> h.starts == [])
    && (h.windowStart.Some? ==> h.windowStart.value == h.starts[|h.starts| - 1])
    && (forall k :: 1 <= k < |h.starts| ==> h.starts[k - 1] + interval <= h.starts[k])
    && (forall i :: 0 <= i < |h.records| ==> InWindow(h.records[i], h.starts, interval, burst))
    && (forall i :: 1 <= i < |h.records| ==> Follows(h.records[i - 1], h.records[i]))
    && 0 <= h.emitted
    && (h.records != [] ==>
          var r := h.records[|h.records| - 1];
          r.window < |h.starts| || r.rank <= h.emitted)
  }

  ghost predicate InWindow(r: Record, starts: seq<real>, interval: real, burst: int) {
    && 1 <= r.rank <= burst && 1 <= r.window <= |starts|
    && starts[r.window - 1] <= r.time < starts[r.window - 1] + interval
  }

  ghost predicate Follows(r: Record, s: Record) {
    r.time <= s.time && (r.window < s.window || (r.window == s.window && r.rank < s.rank))
  }

  ghost predicate NotAfter(h: History, now: real) {
    && (h.starts != [] ==> h.starts[|h.starts| - 1] <= now)
    && (h.records != [] ==> h.records[|h.records| - 1].time <= now)
  }

  lemma OpenKeepsPlaces(h: History, interval: real, burst: int, now: real)
    requires interval > 0.0 && Placed(h, interval, burst) && NotAfter(h, now)
    ensures var o := Open(h, interval, now);
            Placed(o, interval, burst) && NotAfter(o, now)
            && o.starts != [] && now < o.starts[|o.starts| - 1] + interval
  {
    hide InWindow, Follows;
    var o := Open(h, interval, now);
    forall i | 0 <= i < |h.records| ensures InWindow(h.records[i], o.starts, interval, burst) {
      if o.starts != h.starts { InWindowStays(h.records[i], h.starts, interval, burst, now); }
    }
    if h.records != [] { WindowIsStarted(h.records[|h.records| - 1], h.starts, interval, burst); }
  }

  lemma InWindowStays(r: Record, starts: seq<real>, interval: real, burst: int, now: real)
    requires InWindow(r, starts, interval, burst)
    ensures InWindow(r, starts + [now], interval, burst)
  {
  }

  lemma WindowIsStarted(r: Record, starts: seq<real>, interval: real, burst: int)
    requires InWindow(r, starts, interval, burst)
    ensures r.window <= |starts|
  {
  }

  lemma EmitKeepsPlaces(o: History, interval: real, burst: int, now: real, r: Record)
    requires Placed(o, interval, burst) && NotAfter(o, now) && o.starts != [] && o.emitted < burst
    requires now < o.starts[|o.starts| - 1] + interval
    requires r.time == now && r.window == |o.starts| && r.rank == o.emitted + 1
    ensures Placed(o.(emitted := r.rank, calls := o.calls + 1, records := o.records + [r]), interval, burst)
  {
    assert InWindow(r, o.starts, interval, burst);
    if o.records != [] {
      var last := o.records[|o.records| - 1];
      assert InWindow(last, o.starts, interval, burst);
      assert Follows(last, r);
    }
  }

  lemma SuppressKeepsPlaces(o: History, interval: real, burst: int)
    requires Placed(o, interval, burst)
    ensures Placed(o.(suppressed := o.suppressed + 1, calls := o.calls + 1), interval, burst)
  {
  }

  lemma CallKeepsPlaces(h: History, interval: real, burst: int, now: real)
    requires interval > 0.0 && Placed(h, interval, burst) && NotAfter(h, now)
    ensures Placed(Call(h, interval, burst, now), interval, burst)
    ensures NotAfter(Call(h, interval, burst, now), now)
  {
    hide Placed;
    var after, o := Call(h, interval, burst, now), Open(h, interval, now);
    OpenKeepsPlaces(h, interval, burst, now);
    if o.emitted < burst {
      EmitKeepsPlaces(o, interval, burst, now, after.records[|h.records|]);
    } else {
      SuppressKeepsPlaces(o, interval, burst);
    }
  }

  lemma {:induction false} PlacesHold(times: seq<real>, interval: real, burst: int)
    requires interval > 0.0 && Ascending(times)
    ensures Placed(After(times, interval, burst), interval, burst)
    ensures times != [] ==> NotAfter(After(times, interval, burst), times[|times| - 1])
  {
    if times != [] {
      var before, now := times[..|times| - 1], times[|times| - 1];
      PlacesHold(before, interval, burst);
      CallKeepsPlaces(After(before, interval, burst), interval, burst, now);
    }
  }

  function Ceiling(x: real): int { -((-x).Floor) }

  lemma {:induction false} StartsSpread(starts: seq<real>, interval: real, a: nat, n: nat)
    requires a + n < |starts|
    requires forall k :: 1 <= k < |starts| ==> starts[k - 1] + interval <= starts[k]
    ensures starts[a] + n as real * interval <= starts[a + n]
  {
    if n > 0 {
      StartsSpread(starts, interval, a, n - 1);
      assert n as real * interval == (n - 1) as real * interval + interval;
    }
  }

  lemma {:induction false} PlacesSpread(h: History, interval: real, burst: int, i: nat, j: nat)
    requires Placed(h, interval, burst) && i <= j < |h.records|
    ensures var r, s := h.records[i], h.records[j];
            r.time <= s.time && r.window <= s.window
            && j - i <= burst * (s.window - r.window) + s.rank - r.rank
    decreases j
  {
    assert InWindow(h.records[i], h.starts, interval, burst);
    if i < j {
      PlacesSpread(h, interval, burst, i, j - 1);
      var r, q, s := h.records[i], h.records[j - 1], h.records[j];
      assert Follows(q, s) && InWindow(q, h.starts, interval, burst) && InWindow(s, h.starts, interval, burst);
      NextPlace(burst, r.window, q.window, s.window, q.rank, s.rank);
    }
  }

  lemma TimesGrows(b: int, x: int, y: int)
    requires b >= 0 && x <= y
    ensures b * x <= b * y
  {
  }

  lemma TimesNext(b: int, x: int)
    ensures b * (x + 1) == b * x + b
  {
  }

  lemma NextPlace(burst: int, base: int, w: int, v: int, rank: int, next: int)
    requires 1 <= rank <= burst && 1 <= next && (w < v || (w == v && rank < next))
    ensures burst * (w - base) + rank + 1 <= burst * (v - base) + next
  {
    if w < v {
      TimesNext(burst, w - base);
      TimesGrows(burst, w - base + 1, v - base);
    }
  }

  /** Records from the i-th to the j-th that lie within a span of T are at most burst * (ceil(T / interval) + 1). */
  lemma RunOfRecordsIsShort(h: History, interval: real, burst: int, i: nat, j: nat, span: real)
    requires interval > 0.0 && Placed(h, interval, burst) && i <= j < |h.records|
    requires h.records[j].time - h.records[i].time <= span
    ensures j - i + 1 <= burst * (Ceiling(span / interval) + 1)
  {
    var r, s := h.records[i], h.records[j];
    PlacesSpread(h, interval, burst, i, j);
    assert InWindow(r, h.starts, interval, burst) && InWindow(s, h.starts, interval, burst);
    var d := s.window - r.window;
    WindowsInSpan(h, interval, burst, r, s, span);
    var c := Ceiling(span / interval);
    TimesGrows(burst, d, c);
    TimesNext(burst, c);
  }

  lemma WindowGap(starts: seq<real>, interval: real, burst: int, r: Record, s: Record)
    requires forall k :: 1 <= k < |starts| ==> starts[k - 1] + interval <= starts[k]
    requires InWindow(r, starts, interval, burst) && InWindow(s, starts, interval, burst)
    requires r.window < s.window
    ensures (s.window - r.window - 1) as real * interval < s.time - r.time
  {
    StartsSpread(starts, interval, r.window, s.window - r.window - 1);
    assert starts[r.window - 1] + interval <= starts[r.window];
  }

  lemma WindowsInSpan(h: History, interval: real, burst: int, r: Record, s: Record, span: real)
    requires interval > 0.0 && Placed(h, interval, burst)
    requires InWindow(r, h.starts, interval, burst) && InWindow(s, h.starts, interval, burst)
    requires r.window <= s.window && 0.0 <= s.time - r.time <= span
    ensures s.window - r.window <= Ceiling(span / interval)
  {
    hide Ceiling, InWindow;
    DivideSpan(span, interval, s.window - r.window);
    if r.window < s.window { WindowGap(h.starts, interval, burst, r, s); }
  }

  lemma DivideSpan(span: real, interval: real, d: int)
    requires interval > 0.0 && 0.0 <= span
    ensures Ceiling(span / interval) >= 0
    ensures (d - 1) as real * interval < span ==> d <= Ceiling(span / interval)
  {
    var q := span / interval;
    assert q * interval == span;
    assert q >= 0.0;
    if q <= (d - 1) as real { assert q * interval <= (d - 1) as real * interval; }
  }

  function Range(i: int, j: int): (s: set<int>)
    ensures forall k :: k in s <==> i <= k <= j
    ensures i <= j + 1 ==> |s| == j - i + 1
    decreases j - i
  {
    if i <= j then Range(i, j - 1) + {j} else {}
  }

  function FirstFrom(records: seq<Record>, t: real, k: nat): (r: nat)
    requires k <= |records|
    ensures k <= r <= |records| && (r < |records| ==> t <= records[r].time)
    ensures forall m :: k <= m < r ==> records[m].time < t
    decreases |records| - k
  {
    if k < |records| && records[k].time < t then FirstFrom(records, t, k + 1) else k
  }

  function EndBy(records: seq<Record>, t: real, k: nat): (r: nat)
    requires k <= |records|
    ensures r <= k && (0 < r ==> records[r - 1].time <= t)
    ensures forall m :: r <= m < k ==> t < records[m].time
  {
    if 0 < k && t < records[k - 1].time then EndBy(records, t, k - 1) else k
  }

  function Within(records: seq<Record>, from: real, to: real): set<int> {
    set k | 0 <= k < |records| && from <= records[k].time <= to
  }

  /** Any closed span of length T holds at most burst * (ceil(T / interval) + 1) records. */
  lemma RateIsBounded(times: seq<real>, interval: real, burst: int, from: real, span: real)
    requires interval > 0.0 && burst >= 1 && Ascending(times) && span >= 0.0
    ensures |Within(After(times, interval, burst).records, from, from + span)|
              <= burst * (Ceiling(span / interval) + 1)
  {
    hide Placed, Ceiling, After;
    var h := After(times, interval, burst);
    PlacesHold(times, interval, burst);
    var i := FirstFrom(h.records, from, 0);
    var end := EndBy(h.records, from + span, |h.records|);
    DivideSpan(span, interval, 0);
    SpanHasRange(h, interval, burst, from, span, i, end);
  }

  lemma SpanHasRange(h: History, interval: real, burst: int, from: real, span: real, i: nat, end: nat)
    requires interval > 0.0 && burst >= 1 && Placed(h, interval, burst) && Ceiling(span / interval) >= 0
    requires i == FirstFrom(h.records, from, 0) && end == EndBy(h.records, from + span, |h.records|)
    ensures |Within(h.records, from, from + span)| <= burst * (Ceiling(span / interval) + 1)
  {
    hide Placed, Ceiling;
    SubsetIsNoLarger(Within(h.records, from, from + span), Range(i, end - 1));
    var c := Ceiling(span / interval) + 1;
    TimesGrows(burst, 0, c);
    if i < end {
      RunOfRecordsIsShort(h, interval, burst, i, end - 1, span);
    } else {
      assert Range(i, end - 1) == {};
    }
  }

  lemma SubsetIsNoLarger(a: set<int>, b: set<int>)
    requires a <= b
    ensures |a| <= |b|
  {
    assert b == a + (b - a);
  }
}
