/** The buffer that holds bounding boxes back for a while before they are sent: entries are pushed
    with a time stamp, thrown out when they are too old or too many, and taken out one at a time once
    they have waited long enough. */
module DelayBuffer {

  /** Times are nanoseconds of a clock that never goes back. */
  datatype Entry<T> = Entry(stamp: int, boxes: T)

  const MAX_AGE_MS := 10000
  const MAX_SIZE := 50

  /** `duration_cast<milliseconds>`: rounds towards zero. */
  function Milliseconds(d: int): int { if d >= 0 then d / 1000000 else -((-d) / 1000000) }

  function AgeMs<T>(e: Entry<T>, now: int): int { Milliseconds(now - e.stamp) }

  lemma {:induction false} OlderIsLonger(d: int, e: int)
    requires d <= e
    ensures Milliseconds(d) <= Milliseconds(e)
  {}

  /** Durations on both sides of zero are rounded alike, and a whole number of milliseconds stays. */
  lemma {:induction false} RoundsTowardsZero(d: int)
    ensures Milliseconds(-d) == -Milliseconds(d) && Milliseconds(1000000 * d) == d
  {}

  // ---------- Steps on values ----------

  function DropOld<T>(q: seq<Entry<T>>, now: int): seq<Entry<T>>
  {
    if q != [] && AgeMs(q[0], now) > MAX_AGE_MS then DropOld(q[1..], now) else q
  }

  function DropMany<T>(q: seq<Entry<T>>): (r: seq<Entry<T>>)
    ensures |r| <= MAX_SIZE
  {
    if |q| > MAX_SIZE then q[|q| - MAX_SIZE..] else q
  }

  function Updated<T>(q: seq<Entry<T>>, stamp: int, now: int, boxes: T): seq<Entry<T>>
  {
    DropMany(DropOld(q + [Entry(stamp, boxes)], now))
  }

  predicate Due<T>(q: seq<Entry<T>>, now: int, delayMs: int) { q != [] && AgeMs(q[0], now) >= delayMs }

  // ---------- What an update keeps ----------

  ghost predicate Sorted<T(!new)>(q: seq<Entry<T>>)
  {
    forall i, j :: 0 <= i < j < |q| ==> q[i].stamp <= q[j].stamp
  }

  /** `r` is what is left of `q` after `k` entries are taken from its front. */
  ghost predicate SuffixAt<T(!new)>(q: seq<Entry<T>>, r: seq<Entry<T>>, k: nat) { k <= |q| && r == q[k..] }

  /** The old entries are exactly those at the front. */
  lemma {:induction false} DropOldMeans<T(!new)>(q: seq<Entry<T>>, now: int) returns (k: nat)
    requires Sorted(q)
    ensures SuffixAt(q, DropOld(q, now), k)
    ensures forall i :: 0 <= i < |q| ==> (AgeMs(q[i], now) > MAX_AGE_MS <==> i < k)
  {
    if q != [] && AgeMs(q[0], now) > MAX_AGE_MS {
      var t := DropOldMeans(q[1..], now);
      k := t + 1;
      assert q[1..][t..] == q[k..];
      forall i | 0 < i < |q| ensures AgeMs(q[i], now) > MAX_AGE_MS <==> i < k { assert q[i] == q[1..][i - 1]; }
    } else {
      k := 0;
      forall i | 0 <= i < |q| ensures AgeMs(q[i], now) <= MAX_AGE_MS { OlderIsLonger(now - q[i].stamp, now - q[0].stamp); }
    }
  }

  /** An update keeps exactly the entries, old and new, that are at most ten seconds old and among the
      last fifty. */
  lemma {:induction false} UpdateKeeps<T(!new)>(q: seq<Entry<T>>, stamp: int, now: int, boxes: T) returns (k: nat)
    requires Sorted(q + [Entry(stamp, boxes)])
    ensures SuffixAt(q + [Entry(stamp, boxes)], Updated(q, stamp, now, boxes), k)
    ensures var all := q + [Entry(stamp, boxes)];
            forall i :: 0 <= i < |all| ==> (i >= k <==> AgeMs(all[i], now) <= MAX_AGE_MS && i >= |all| - MAX_SIZE)
  {
    hide DropOld, AgeMs;
    var all := q + [Entry(stamp, boxes)];
    var t := DropOldMeans(all, now);
    k := if |all| - t > MAX_SIZE then |all| - MAX_SIZE else t;
    assert Updated(q, stamp, now, boxes) == all[k..];
  }

  /** The newest entry survives its update unless more than ten seconds pass between the two readings
      of the clock. */
  lemma {:induction false} NewestSurvives<T(!new)>(q: seq<Entry<T>>, stamp: int, now: int, boxes: T)
    requires Sorted(q + [Entry(stamp, boxes)])
    ensures var r := Updated(q, stamp, now, boxes);
            (r != [] && r[|r| - 1] == Entry(stamp, boxes)) <==> Milliseconds(now - stamp) <= MAX_AGE_MS
    ensures Milliseconds(now - stamp) > MAX_AGE_MS ==> Updated(q, stamp, now, boxes) == []
  {
    var all := q + [Entry(stamp, boxes)];
    var k := UpdateKeeps(q, stamp, now, boxes);
    hide Updated, Milliseconds;
    assert all[|all| - 1] == Entry(stamp, boxes);
    assert k <= |all| - 1 <==> AgeMs(all[|all| - 1], now) <= MAX_AGE_MS;
  }

  // ---------- Runs ----------

  datatype Event<T> = Update(stamp: int, now: int, boxes: T) | Send(at: int, delayMs: int) | Clear

  datatype Fate = Dequeued(at: int, delayMs: int) | Evicted | Cleared

  datatype Removal<T> = Removal(entry: Entry<T>, fate: Fate)

  /** The queue, and for the record everything pushed and everything removed, in order. */
  datatype Record<T> = Record(queue: seq<Entry<T>>, pushed: seq<Entry<T>>, removed: seq<Removal<T>>)

  function Gone<T>(es: seq<Entry<T>>, fate: Fate): (r: seq<Removal<T>>)
    ensures |r| == |es|
  {
    seq(|es|, i requires 0 <= i < |es| => Removal(es[i], fate))
  }

  function Entries<T>(rs: seq<Removal<T>>): (es: seq<Entry<T>>)
    ensures |es| == |rs|
  {
    seq(|rs|, i requires 0 <= i < |rs| => rs[i].entry)
  }

  function Apply<T>(s: Record<T>, e: Event<T>): Record<T>
  {
    match e
    case Update(stamp, now, boxes) =>
      var all, r := s.queue + [Entry(stamp, boxes)], Updated(s.queue, stamp, now, boxes);
      var gone := if |r| <= |all| then all[..|all| - |r|] else [];
      Record(r, s.pushed + [Entry(stamp, boxes)], s.removed + Gone(gone, Evicted))
    case Send(at, delayMs) =>
      if Due(s.queue, at, delayMs)
      then Record(s.queue[1..], s.pushed, s.removed + Gone(s.queue[..1], Dequeued(at, delayMs)))
      else s
    case Clear => Record([], s.pushed, s.removed + Gone(s.queue, Cleared))
  }

  function Run<T>(events: seq<Event<T>>): Record<T>
  {
    if events == [] then Record([], [], []) else Apply(Run(events[..|events| - 1]), events[|events| - 1])
  }

  /** The readings of the clock never decrease. */
  predicate After<T>(e: Event<T>, t: int)
  {
    match e
    case Update(stamp, now, _) => t <= stamp <= now
    case Send(at, _) => t <= at
    case Clear => true
  }

  function LastReading<T>(e: Event<T>, t: int): int
  {
    match e
    case Update(_, now, _) => now
    case Send(at, _) => at
    case Clear => t
  }

  /** The clock after a run, or before it starts. */
  function Clock<T>(events: seq<Event<T>>, start: int): int
  {
    if events == [] then start else LastReading(events[|events| - 1], Clock(events[..|events| - 1], start))
  }

  predicate ClockRuns<T>(events: seq<Event<T>>, start: int)
  {
    events != [] ==>
      ClockRuns(events[..|events| - 1], start) && After(events[|events| - 1], Clock(events[..|events| - 1], start))
  }

  /** What holds between any two steps. */
  ghost predicate Consistent<T(!new)>(s: Record<T>, clock: int)
  {
    && s.pushed == Entries(s.removed) + s.queue
    && Sorted(s.pushed)
    && |s.queue| <= MAX_SIZE
    && (forall i :: 0 <= i < |s.pushed| ==> s.pushed[i].stamp <= clock)
    && forall i :: 0 <= i < |s.removed| ==> Waited(s.removed[i])
  }

  /** An entry that was sent had waited at least the delay in force. */
  predicate Waited<T>(r: Removal<T>)
  {
    match r.fate
    case Dequeued(at, delayMs) => AgeMs(r.entry, at) >= delayMs
    case Evicted => true
    case Cleared => true
  }

  lemma {:induction false} EntriesGone<T(!new)>(rs: seq<Removal<T>>, es: seq<Entry<T>>, fate: Fate)
    ensures Entries(rs + Gone(es, fate)) == Entries(rs) + es
  {}

  /** Taking some entries from the front of the queue, for whatever reason, keeps the books. */
  lemma {:induction false} TakeKeeps<T(!new)>(removed: seq<Removal<T>>, all: seq<Entry<T>>, k: nat, fate: Fate)
    requires k <= |all|
    ensures Entries(removed + Gone(all[..k], fate)) + all[k..] == Entries(removed) + all
  {
    EntriesGone(removed, all[..k], fate);
    assert all == all[..k] + all[k..];
    assert Entries(removed) + all[..k] + all[k..] == Entries(removed) + (all[..k] + all[k..]);
  }

  lemma {:induction false} UpdateConsistent<T(!new)>(s: Record<T>, clock: int, stamp: int, now: int, boxes: T)
    requires Consistent(s, clock) && clock <= stamp <= now
    ensures Consistent(Apply(s, Update(stamp, now, boxes)), now)
  {
    hide AgeMs, Sorted, Updated;
    var e := Entry(stamp, boxes);
    var all := s.queue + [e];
    var t := Apply(s, Update(stamp, now, boxes));
    SortedAppend(s.pushed, e);
    assert t.pushed == Entries(s.removed) + all;
    SortedBack(Entries(s.removed), all);
    var k := UpdateKeeps(s.queue, stamp, now, boxes);
    assert t.queue == all[k..] && t.removed == s.removed + Gone(all[..k], Evicted);
    UpdatedBounded(s.queue, stamp, now, boxes);
    TakeKeeps(s.removed, all, k, Evicted);
  }

  lemma {:induction false} UpdatedBounded<T(!new)>(q: seq<Entry<T>>, stamp: int, now: int, boxes: T)
    ensures |Updated(q, stamp, now, boxes)| <= MAX_SIZE
  {
    hide DropOld;
  }

  lemma {:induction false} SortedAppend<T(!new)>(q: seq<Entry<T>>, e: Entry<T>)
    requires Sorted(q) && forall i :: 0 <= i < |q| ==> q[i].stamp <= e.stamp
    ensures Sorted(q + [e])
  {}

  lemma {:induction false} SortedBack<T(!new)>(p: seq<Entry<T>>, q: seq<Entry<T>>)
    requires Sorted(p + q)
    ensures Sorted(q)
  {
    assert forall i :: 0 <= i < |q| ==> q[i] == (p + q)[|p| + i];
  }

  lemma {:induction false} ApplyConsistent<T(!new)>(s: Record<T>, clock: int, e: Event<T>)
    requires Consistent(s, clock) && After(e, clock)
    ensures Consistent(Apply(s, e), LastReading(e, clock))
  {
    hide Sorted, AgeMs, DropOld;
    match e
    case Update(stamp, now, boxes) => UpdateConsistent(s, clock, stamp, now, boxes);
    case Send(at, delayMs) => if s.queue != [] { TakeKeeps(s.removed, s.queue, 1, Dequeued(at, delayMs)); }
    case Clear =>
      TakeKeeps(s.removed, s.queue, |s.queue|, Cleared);
      assert s.queue[..|s.queue|] == s.queue;
      assert Entries(s.removed) + s.queue == Entries(s.removed + Gone(s.queue, Cleared)) + [];
  }

  /** Over every run: whatever was pushed was removed or is still queued, in the order it was pushed and
      once each; the stamps are in order, the queue is bounded, and nothing was sent too early. */
  lemma {:induction false} RunConsistent<T(!new)>(events: seq<Event<T>>, start: int)
    requires ClockRuns(events, start)
    ensures Consistent(Run(events), Clock(events, start))
  {
    hide Consistent, Apply;
    if events == [] {
      StartConsistent<T>(start);
    } else {
      var before := events[..|events| - 1];
      RunConsistent(before, start);
      ApplyConsistent(Run(before), Clock(before, start), events[|events| - 1]);
    }
  }

  lemma {:induction false} StartConsistent<T(!new)>(start: int)
    ensures Consistent<T>(Record([], [], []), start)
  {}

  lemma {:induction false} LastStepSorted<T(!new)>(s: Record<T>, clock: int, stamp: int, now: int, boxes: T)
    requires Consistent(s, clock) && clock <= stamp <= now
    ensures Sorted(s.queue + [Entry(stamp, boxes)])
  {
    hide Sorted, AgeMs;
    var e := Entry(stamp, boxes);
    SortedAppend(s.pushed, e);
    assert s.pushed + [e] == Entries(s.removed) + (s.queue + [e]);
    SortedBack(Entries(s.removed), s.queue + [e]);
  }

  /** Over every run that ends with an update: no queued entry is more than ten seconds old, and the new
      entry is queued exactly if its own two readings of the clock are at most ten seconds apart. */
  lemma {:induction false} UpdateInRun<T(!new)>(events: seq<Event<T>>, start: int, stamp: int, now: int, boxes: T)
    requires ClockRuns(events + [Update(stamp, now, boxes)], start)
    ensures var q := Run(events + [Update(stamp, now, boxes)]).queue;
            && (forall i :: 0 <= i < |q| ==> AgeMs(q[i], now) <= MAX_AGE_MS)
            && ((q != [] && q[|q| - 1] == Entry(stamp, boxes)) <==> Milliseconds(now - stamp) <= MAX_AGE_MS)
  {
    var all := events + [Update(stamp, now, boxes)];
    assert all[..|events|] == events;
    hide Consistent, Sorted, Milliseconds, AgeMs, Updated;
    var s, e := Run(events), Entry(stamp, boxes);
    RunConsistent(events, start);
    LastStepSorted(s, Clock(events, start), stamp, now, boxes);
    NewestSurvives(s.queue, stamp, now, boxes);
    var k := UpdateKeeps(s.queue, stamp, now, boxes);
    var q := Run(all).queue;
    assert q == Updated(s.queue, stamp, now, boxes) == (s.queue + [e])[k..];
    assert forall i :: 0 <= i < |q| ==> q[i] == (s.queue + [e])[k + i];
  }

  /** Readings 10.001 seconds apart: the update throws out the entry it pushed. */
  lemma {:induction false} LateReadingLosesEntry(boxes: int)
    ensures ClockRuns([Update(0, 10001000000, boxes)], 0)
    ensures Run([Update(0, 10001000000, boxes)]).queue == []
  {
    var events := [Update(0, 10001000000, boxes)];
    assert events[..0] == [];
    NewestSurvives([], 0, 10001000000, boxes);
  }

  /** A nanosecond less, and the entry stays. */
  lemma {:induction false} EarlierReadingKeepsEntry(boxes: int)
    ensures Run([Update(0, 10000999999, boxes)]).queue == [Entry(0, boxes)]
  {
    var events := [Update(0, 10000999999, boxes)];
    assert events[..0] == [];
    assert [] + [Entry(0, boxes)] == [Entry(0, boxes)];
  }

  /** Many updates at one moment. */
  function Burst(n: nat): (events: seq<Event<int>>)
    ensures |events| == n
  {
    seq(n, i => Update(0, 0, i))
  }

  function Numbered(from: nat, n: nat): (q: seq<Entry<int>>)
    requires from <= n
    ensures |q| == n - from
  {
    seq(n - from, i requires 0 <= i => Entry(0, from + i))
  }

  lemma {:induction false} BurstStep(n: nat)
    ensures Run(Burst(n + 1)).queue == Updated(Run(Burst(n)).queue, 0, 0, n)
  {
    hide Updated, Gone;
    assert Burst(n + 1)[..n] == Burst(n);
  }

  lemma {:induction false} NumberedStep(from: nat, n: nat)
    requires from <= n && n - from <= 50
    ensures Updated(Numbered(from, n), 0, 0, n) == if n - from == 50 then Numbered(from + 1, n + 1) else Numbered(from, n + 1)
  {
    var all := Numbered(from, n) + [Entry(0, n)];
    assert all == Numbered(from, n + 1);
    assert all[0].stamp == 0;
    assert DropOld(all, 0) == all;
    hide DropOld;
    assert all[1..] == Numbered(from + 1, n + 1);
  }

  /** Of a burst the last fifty entries stay. */
  lemma {:induction false} BurstKeepsFifty(n: nat)
    ensures Run(Burst(n)).queue == Numbered(if n <= 50 then 0 else n - 50, n)
  {
    hide Updated;
    if n == 0 {
    } else {
      BurstKeepsFifty(n - 1);
      hide Run, Burst;
      BurstStep(n - 1);
      NumberedStep(if n - 1 <= 50 then 0 else n - 51, n - 1);
    }
  }

  // ---------- The shared queue ----------

  lemma {:induction false} DropOldFrom<T(!new)>(q: seq<Entry<T>>, now: int, k: nat)
    requires k < |q| && AgeMs(q[k], now) > MAX_AGE_MS
    ensures DropOld(q[k..], now) == DropOld(q[k + 1..], now)
  {
    assert q[k..][1..] == q[k + 1..];
  }

  datatype Taken<T> = Nothing | Taken(boxes: T)

  /** Each method runs under the mutex of the queue, and so is one step of a run. The readings of the
      clock are parameters. */
  class SharedQueue<T(!new)> {
    var queue: seq<Entry<T>>
    ghost var record: Record<T>
    ghost var clock: int

    ghost predicate Valid()
      reads this
    {
      record.queue == queue && Consistent(record, clock)
    }

    constructor (ghost start: int)
      ensures Valid() && queue == [] && record == Record([], [], []) && clock == start
    {
      queue := [];
      record := Record([], [], []);
      clock := start;
    }

    method Clear()
      requires Valid()
      modifies this
      ensures Valid() && queue == [] && clock == old(clock) && record == Apply(old(record), Event.Clear)
    {
      hide Consistent;
      ApplyConsistent(record, clock, Event.Clear);
      record := Apply(record, Event.Clear);
      queue := [];
    }

    method Update(boxes: T, stamp: int, now: int) returns (removedCount: nat)
      requires Valid() && clock <= stamp <= now
      modifies this
      ensures Valid() && clock == now && record == Apply(old(record), Event.Update(stamp, now, boxes))
      ensures queue == Updated(old(queue), stamp, now, boxes)
      ensures removedCount == |old(queue)| + 1 - |queue|
    {
      hide AgeMs, Consistent;
      ApplyConsistent(record, clock, Event.Update(stamp, now, boxes));
      record := Apply(record, Event.Update(stamp, now, boxes));
      clock := now;
      queue := queue + [Entry(stamp, boxes)];
      ghost var all := queue;
      removedCount := 0;
      assert all[0..] == all;
      while |queue| > 0
        invariant removedCount <= |all| && queue == all[removedCount..]
        invariant clock == now && record == Apply(old(record), Event.Update(stamp, now, boxes))
        invariant DropOld(all, now) == DropOld(queue, now)
      {
        var age := AgeMs(queue[0], now);
        if age > MAX_AGE_MS {
          DropOldFrom(all, now, removedCount);
          queue := queue[1..];
          removedCount := removedCount + 1;
        } else {
          break;
        }
      }
      ghost var young := queue;
      assert young == DropOld(all, now);
      hide DropOld;
      while |queue| > MAX_SIZE
        invariant |all| - |young| <= removedCount <= |all| && queue == all[removedCount..]
        invariant clock == now && record == Apply(old(record), Event.Update(stamp, now, boxes))
        invariant |young| <= MAX_SIZE ==> queue == young
        invariant |young| > MAX_SIZE ==> |queue| >= MAX_SIZE
      {
        queue := queue[1..];
        removedCount := removedCount + 1;
      }
      assert queue == DropMany(young);
    }

    /** Takes at most the oldest entry, and only when it has waited long enough. */
    method Send(at: int, delayMs: int) returns (r: Taken<T>)
      requires Valid() && clock <= at
      modifies this
      ensures Valid() && clock == at && record == Apply(old(record), Event.Send(at, delayMs))
      ensures r.Taken? <==> Due(old(queue), at, delayMs)
      ensures r.Taken? ==> old(queue) == [Entry(old(queue)[0].stamp, r.boxes)] + queue
      ensures r.Nothing? ==> queue == old(queue)
    {
      hide Consistent, AgeMs;
      ApplyConsistent(record, clock, Event.Send(at, delayMs));
      record := Apply(record, Event.Send(at, delayMs));
      clock := at;
      r := Nothing;
      if |queue| > 0 {
        var age := AgeMs(queue[0], at);
        if age >= delayMs {
          r := Taken(queue[0].boxes);
          queue := queue[1..];
        }
      }
    }
  }
}
