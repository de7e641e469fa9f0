/**
 * Traffic counted per interval (admin-web/src/services/traffic-metrics.js:2-43) and its durable
 * copy (admin-web/src/services/traffic-store.js:9-15). The clock is a parameter of every call.
 */
module Traffic {
  import opened Outcomes

  const MAX_SAFE_INTEGER := 0x1F_FFFF_FFFF_FFFF

  datatype Metric = Received | Sent | Dropped
  datatype Sample = Sample(received: nat, sent: nat, dropped: nat, publicationFailures: nat)
  type Samples = map<int, Sample>

  const EMPTY := Sample(0, 0, 0, 0)

  function Plus(s: Sample, m: Metric, n: nat): Sample {
    match m
    case Received => s.(received := s.received + n)
    case Sent => s.(sent := s.sent + n)
    case Dropped => s.(dropped := s.dropped + n)
  }

  /** The interval that `t` lies in, by its first millisecond. */
  function Start(t: int, interval: int): int
    requires interval > 0
  {
    t / interval * interval
  }

  lemma StartBounds(t: int, interval: int)
    requires interval > 0
    ensures Start(t, interval) <= t < Start(t, interval) + interval
  {
  }

  lemma StartMonotone(s: int, t: int, interval: int)
    requires interval > 0 && s <= t
    ensures Start(s, interval) <= Start(t, interval)
  {
    var a, b := s / interval, t / interval;
    if b < a {
      MultiplesApart(b, a, interval);
      StartBounds(s, interval);
      StartBounds(t, interval);
      assert false;
    }
    if a < b {
      MultiplesApart(a, b, interval);
    }
  }

  lemma MultiplesApart(a: int, b: int, interval: int)
    requires interval > 0 && a < b
    ensures a * interval + interval <= b * interval
  {
    assert (b - a - 1) * interval >= 0;
    assert (b - a - 1) * interval == b * interval - a * interval - interval;
  }

  // ----- what happened

  datatype Event = Count(metric: Metric, value: nat, at: int) | Failure(at: int)

  /** The last value reported for a counter of the broker. */
  function Reported(history: seq<Event>, m: Metric): Option<nat> {
    if history == [] then None
    else
      var e := history[|history| - 1];
      if e.Count? && e.metric == m then Some(e.value) else Reported(history[..|history| - 1], m)
  }

  /** What one event adds: the first report is a baseline, and a smaller one a restart of the broker. */
  function Increase(before: seq<Event>, e: Event, m: Metric): nat {
    if e.Failure? || e.metric != m then 0
    else
      var previous := Reported(before, m);
      if previous.Some? && e.value >= previous.value then e.value - previous.value else 0
  }

  /** Traffic seen during the interval `start`. */
  function Volume(history: seq<Event>, m: Metric, start: int, interval: int): nat
    requires interval > 0
  {
    if history == [] then 0
    else
      var before, e := history[..|history| - 1], history[|history| - 1];
      Volume(before, m, start, interval) + (if Start(e.at, interval) == start then Increase(before, e, m) else 0)
  }

  function Failures(history: seq<Event>, start: int, interval: int): nat
    requires interval > 0
  {
    if history == [] then 0
    else
      var e := history[|history| - 1];
      Failures(history[..|history| - 1], start, interval)
      + (if e.Failure? && Start(e.at, interval) == start then 1 else 0)
  }

  ghost predicate Tally(s: Sample, base: Sample, history: seq<Event>, start: int, interval: int)
    requires interval > 0
  {
    && s.received == base.received + Volume(history, Received, start, interval)
    && s.sent == base.sent + Volume(history, Sent, start, interval)
    && s.dropped == base.dropped + Volume(history, Dropped, start, interval)
    && s.publicationFailures == base.publicationFailures + Failures(history, start, interval)
  }

  function Lookup(samples: Samples, start: int): Sample {
    if start in samples then samples[start] else EMPTY
  }

  /** An event changes the tally of its own interval only. */
  lemma TallyElsewhere(s: Sample, base: Sample, history: seq<Event>, e: Event, start: int, interval: int)
    requires interval > 0 && Start(e.at, interval) != start
    ensures Tally(s, base, history + [e], start, interval) <==> Tally(s, base, history, start, interval)
  {
    assert (history + [e])[..|history|] == history;
  }

  lemma TallyHere(s: Sample, base: Sample, history: seq<Event>, e: Event, interval: int)
    requires interval > 0 && Tally(s, base, history, Start(e.at, interval), interval)
    ensures e.Failure? ==>
              Tally(s.(publicationFailures := s.publicationFailures + 1), base, history + [e], Start(e.at, interval),
                    interval)
    ensures e.Count? ==>
              Tally(Plus(s, e.metric, Increase(history, e, e.metric)), base, history + [e], Start(e.at, interval),
                    interval)
  {
    assert (history + [e])[..|history|] == history;
  }

  lemma ReportedAfter(history: seq<Event>, e: Event, m: Metric)
    ensures Reported(history + [e], m) == if e.Count? && e.metric == m then Some(e.value) else Reported(history, m)
  {
    assert (history + [e])[..|history|] == history;
  }

  /** Every bucket holds the tally of its interval; intervals of the window without one saw nothing. */
  ghost predicate Counted(history: seq<Event>, buckets: Samples, base: Samples, cutoff: int, interval: int)
    requires interval > 0
  {
    && (forall t | t in buckets :: Tally(buckets[t], Lookup(base, t), history, t, interval))
    && (forall t | t >= cutoff && t !in buckets :: Tally(EMPTY, Lookup(base, t), history, t, interval))
  }

  /** The bucket of an event's interval after the event. */
  function After(s: Sample, history: seq<Event>, e: Event): Sample {
    if e.Failure? then s.(publicationFailures := s.publicationFailures + 1)
    else Plus(s, e.metric, Increase(history, e, e.metric))
  }

  lemma CountedOnce(history: seq<Event>, e: Event, buckets: Samples, base: Samples, cutoff: int, interval: int)
    requires interval > 0 && Counted(history, buckets, base, cutoff, interval) && Start(e.at, interval) in buckets
    ensures var start := Start(e.at, interval);
            Counted(history + [e], buckets[start := After(buckets[start], history, e)], base, cutoff, interval)
  {
    var start := Start(e.at, interval);
    TallyHere(buckets[start], Lookup(base, start), history, e, interval);
    forall t, s | t != start
      ensures Tally(s, Lookup(base, t), history + [e], t, interval) <==> Tally(s, Lookup(base, t), history, t, interval)
    {
      TallyElsewhere(s, Lookup(base, t), history, e, t, interval);
    }
  }

  function Since(samples: Samples, cutoff: int): Samples {
    map t | t in samples && t >= cutoff :: samples[t]
  }

  /** What reading stored samples over the buckets does to the tallies. */
  lemma StoredOverCounted(history: seq<Event>, buckets: Samples, base: Samples, rows: Samples,
                          before: int, cutoff: int, interval: int)
    requires interval > 0 && before <= cutoff && Counted(history, buckets, base, before, interval)
    ensures Counted(history, buckets + Since(rows, cutoff), base + Since(rows, cutoff), cutoff, interval)
            <==> forall t | t in rows && t >= cutoff :: Tally(EMPTY, EMPTY, history, t, interval)
  {
    var read := Since(rows, cutoff);
    var buckets', base' := buckets + read, base + read;
    forall t | t !in read
      ensures Lookup(base', t) == Lookup(base, t) && (t in buckets' <==> t in buckets)
      ensures t in buckets ==> buckets'[t] == buckets[t]
    {
    }
    forall t | t in read
      ensures t in buckets' && buckets'[t] == rows[t] && Lookup(base', t) == rows[t]
      ensures Tally(rows[t], rows[t], history, t, interval) <==> Tally(EMPTY, EMPTY, history, t, interval)
    {
    }
    if Counted(history, buckets', base', cutoff, interval) {
      forall t | t in rows && t >= cutoff ensures Tally(EMPTY, EMPTY, history, t, interval) {
        assert t in read && Tally(buckets'[t], Lookup(base', t), history, t, interval);
      }
    }
  }

  lemma SinceThenSet(m: Samples, start: int, cutoff: int, s: Sample)
    requires start >= cutoff
    ensures var before := Since(if start in m then m else m[start := EMPTY], cutoff);
            start in before && before[start] == Lookup(m, start) && before[start := s] == Since(m[start := s], cutoff)
  {
  }

  // ----- what the definitions come to

  /** Reports of one counter, none smaller than the one before, within one interval. */
  ghost predicate Climbs(history: seq<Event>, m: Metric, start: int, interval: int)
    requires interval > 0
  {
    && (forall e | e in history :: e.Count? && e.metric == m && Start(e.at, interval) == start)
    && forall i | 0 < i < |history| :: history[i - 1].value <= history[i].value
  }

  /** What is seen then is the last report less the first one, however many there were. */
  lemma {:induction false} VolumeIsTheDifference(history: seq<Event>, m: Metric, start: int, interval: int)
    requires interval > 0 && history != [] && Climbs(history, m, start, interval)
    ensures Volume(history, m, start, interval) == history[|history| - 1].value - history[0].value
    ensures forall other: Metric | other != m :: Volume(history, other, start, interval) == 0
  {
    var before := history[..|history| - 1];
    assert history[|history| - 1] in history;
    if before == [] {
      assert Volume([], m, start, interval) == 0;
    } else {
      assert forall e | e in before :: e in history;
      VolumeIsTheDifference(before, m, start, interval);
      assert before[|before| - 1] in history;
    }
    forall other: Metric | other != m ensures Volume(history, other, start, interval) == 0 {
      OthersSeeNothing(history, m, other, start, interval);
    }
  }

  lemma {:induction false} OthersSeeNothing(history: seq<Event>, m: Metric, other: Metric, start: int, interval: int)
    requires interval > 0 && other != m && forall e | e in history :: e.Count? && e.metric == m
    ensures Volume(history, other, start, interval) == 0
  {
    if history != [] {
      var before := history[..|history| - 1];
      assert forall e | e in before :: e in history;
      assert history[|history| - 1] in history;
      OthersSeeNothing(before, m, other, start, interval);
    }
  }

  /** A counter that has been restarted adds nothing by the first report after it. */
  lemma RestartAddsNothing(history: seq<Event>, m: Metric, value: nat, at: int, start: int, interval: int)
    requires interval > 0 && (Reported(history, m).None? || value < Reported(history, m).value)
    ensures Volume(history + [Count(m, value, at)], m, start, interval) == Volume(history, m, start, interval)
  {
    assert (history + [Count(m, value, at)])[..|history|] == history;
  }

  // ----- the object

  datatype Point = Point(timestamp: int, sample: Option<Sample>)

  class Store {
    var rows: Samples

    constructor (rows: Samples)
      ensures this.rows == rows
    {
      this.rows := rows;
    }

    method Save(start: int, sample: Sample, cutoff: int)
      modifies this
      ensures rows == Since(old(rows)[start := sample], cutoff)
      ensures forall t :: t in rows <==> (t in old(rows) || t == start) && t >= cutoff
      ensures forall t | t in rows :: rows[t] == if t == start then sample else old(rows)[t]
    {
      rows := rows[start := sample];
      rows := Since(rows, cutoff);
    }
  }

  class TrafficMetrics {
    const interval: int
    const capacity: int
    var counters: map<Metric, nat>
    var buckets: Samples
    var storage: Option<Store>
    ghost var history: seq<Event>
    /** What the store held when it was attached. */
    ghost var base: Samples
    ghost var latest: int

    function Cutoff(now: int): int
      requires interval > 0
    {
      Start(now, interval) - (capacity - 1) * interval
    }

    /** Everything that lies in the window has been counted, and nothing else. */
    ghost predicate Valid()
      reads this
    {
      && interval > 0 && capacity > 0
      && (forall m: Metric :: Reported(history, m) == if m in counters then Some(counters[m]) else None)
      && Counted(history, buckets, base, Cutoff(latest), interval)
      && (forall e | e in history :: e.at <= latest)
    }

    /** In the window, the stored rows are the buckets. */
    ghost predicate Agrees()
      requires interval > 0
      reads this, if storage.Some? then {storage.value} else {}
    {
      storage.Some? ==> Since(storage.value.rows, Cutoff(latest)) == Since(buckets, Cutoff(latest))
    }

    constructor (interval: int, capacity: int, now: int)
      requires interval > 0 && capacity > 0
      ensures this.interval == interval && this.capacity == capacity
      ensures Valid() && buckets == map[] && counters == map[] && storage.None? && history == [] && base == map[]
              && latest == now
    {
      this.interval, this.capacity := interval, capacity;
      counters, buckets, storage := map[], map[], None;
      history, base, latest := [], map[], now;
    }

    /**
     * Reads the stored samples of the window over what has been counted so far. The counts survive
     * if and only if nothing has been counted yet in an interval that has a stored row.
     */
    method AttachStore(value: Store, now: int)
      requires Valid() && latest <= now
      modifies this
      ensures old(storage).Some? ==> buckets == old(buckets) && storage == old(storage)
      ensures old(storage).None? ==> storage == Some(value) && buckets == old(buckets) + Since(value.rows, Cutoff(now))
      ensures counters == old(counters) && history == old(history)
      ensures base == if old(storage).Some? then old(base) else old(base) + Since(value.rows, Cutoff(now))
      ensures old(storage).None? ==>
                && latest == now
                && (Valid() <==> forall t | t in value.rows && t >= Cutoff(now) ::
                                   Tally(EMPTY, EMPTY, old(history), t, interval))
      ensures old(storage).None? && old(buckets) == map[] ==> Agrees()
    {
      if storage.Some? {
        return;
      }
      storage := Some(value);
      buckets := buckets + Since(value.rows, Cutoff(now));
      base := base + Since(value.rows, Cutoff(now));
      StartMonotone(latest, now, interval);
      StoredOverCounted(history, old(buckets), old(base), value.rows, Cutoff(latest), Cutoff(now), interval);
      latest := now;
    }

    /** The bucket of the current interval; those that have left the window are dropped. */
    method Bucket(now: int) returns (start: int)
      requires Valid() && latest <= now
      modifies `buckets, `latest
      ensures Valid() && latest == now && start == Start(now, interval)
      ensures buckets == Since(if start in old(buckets) then old(buckets) else old(buckets)[start := EMPTY],
                               Cutoff(now))
      ensures start in buckets
      // A bucket that is opened is empty; those of the window stay as they are, and no other does.
      ensures forall t :: t in buckets <==> (t in old(buckets) || t == start) && t >= Cutoff(now)
      ensures forall t | t in buckets ::
                buckets[t] == if t in old(buckets) then old(buckets)[t] else Sample(0, 0, 0, 0)
    {
      start := now / interval * interval;
      if start !in buckets {
        buckets := buckets[start := EMPTY];
      }
      StartMonotone(latest, now, interval);
      assert (capacity - 1) * interval >= 0;
      buckets := Since(buckets, start - (capacity - 1) * interval);
      latest := now;
    }

    /** Adds a reported counter value to the bucket of its interval. */
    method Add(m: Metric, value: nat, now: int) returns (start: int)
      requires Valid() && latest <= now
      modifies `counters, `buckets, `latest, `history
      ensures Valid() && latest == now && start == Start(now, interval)
      ensures history == old(history) + [Count(m, value, now)] && counters == old(counters)[m := value]
      ensures buckets == Since(old(buckets)[start :=
                                 After(Lookup(old(buckets), start), old(history), Count(m, value, now))], Cutoff(now))
    {
      var previous := if m in counters then Some(counters[m]) else None;
      start := Bucket(now);
      var increase := 0;
      if previous.Some? && value >= previous.value {
        increase := value - previous.value;
      }
      InWindow(start);
      Record(Count(m, value, now), start, Plus(buckets[start], m, increase), old(buckets));
      Noted(Count(m, value, now));
      counters := counters[m := value];
      history := history + [Count(m, value, now)];
    }

    /** Changes one bucket by one event. */
    method Record(ghost e: Event, start: int, s: Sample, ghost before: Samples)
      requires interval > 0 && start == Start(e.at, interval) && start in buckets && start >= Cutoff(latest)
      requires Counted(history, buckets, base, Cutoff(latest), interval) && s == After(buckets[start], history, e)
      requires buckets == Since(if start in before then before else before[start := EMPTY], Cutoff(latest))
      modifies `buckets
      ensures Counted(history + [e], buckets, base, Cutoff(latest), interval)
      ensures buckets == Since(before[start := After(Lookup(before, start), history, e)], Cutoff(latest))
    {
      SinceThenSet(before, start, Cutoff(latest), s);
      CountedOnce(history, e, buckets, base, Cutoff(latest), interval);
      buckets := buckets[start := s];
    }

    lemma Noted(e: Event)
      requires e.Count? && forall m: Metric :: Reported(history, m) == if m in counters then Some(counters[m]) else None
      ensures var counters' := counters[e.metric := e.value];
              forall m: Metric :: Reported(history + [e], m) == if m in counters' then Some(counters'[m]) else None
    {
      forall m: Metric {
        ReportedAfter(history, e, m);
      }
    }

    lemma NotedFailure(e: Event)
      requires e.Failure?
      ensures forall m: Metric :: Reported(history + [e], m) == Reported(history, m)
    {
      forall m: Metric {
        ReportedAfter(history, e, m);
      }
    }

    /**
     * The series of the window: one point an interval, each with everything seen during it. The
     * clock is read again before every point, the last time at `end`.
     */
    method Snapshot(now: int, end: int) returns (series: seq<Point>)
      requires Valid() && latest <= now <= end
      ensures |series| >= capacity && series == SeriesOf(buckets, Cutoff(now), |series|, interval)
      ensures Start(now, interval) == Start(end, interval) ==> |series| == capacity
      ensures Start(now, interval) <= series[|series| - 1].timestamp <= Start(end, interval)
      ensures forall i | 0 <= i < |series| ::
                var p := series[i];
                Tally(if p.sample.Some? then p.sample.value else EMPTY, Lookup(base, p.timestamp), history, p.timestamp,
                      interval)
    {
      var first := FirstPoint(now);
      series := Collect(first, now, end);
      OnTheGrid(now, end, first, series);
      StartMonotone(latest, now, interval);
      ShowsCounted(first, series);
    }

    function FirstPoint(now: int): (first: int)
      requires interval > 0 && capacity > 0
      ensures first == Cutoff(now) && first <= now
    {
      StartBounds(now, interval);
      assert (capacity - 1) * interval >= 0;
      Cutoff(now)
    }

    /** The loop of `snapshot`. */
    method Collect(first: int, now: int, end: int) returns (series: seq<Point>)
      requires interval > 0 && first <= now <= end
      ensures series == SeriesOf(buckets, first, |series|, interval)
      ensures |series| > 0 && first + (|series| - 1) * interval <= end && now < first + |series| * interval
    {
      var timestamp, reading := first, now;
      series := [];
      while timestamp <= reading
        invariant now <= reading <= end && timestamp == first + |series| * interval
        invariant series == SeriesOf(buckets, first, |series|, interval)
        invariant |series| > 0 ==> first + (|series| - 1) * interval <= end
        decreases end - timestamp
      {
        series := series + [Point(timestamp, if timestamp in buckets then Some(buckets[timestamp]) else None)];
        timestamp := timestamp + interval;
        var later: int :| reading <= later <= end;
        reading := later;
      }
    }

    lemma ShowsCounted(first: int, series: seq<Point>)
      requires Valid() && first >= Cutoff(latest) && series == SeriesOf(buckets, first, |series|, interval)
      ensures forall i | 0 <= i < |series| ::
                var p := series[i];
                Tally(if p.sample.Some? then p.sample.value else EMPTY, Lookup(base, p.timestamp), history, p.timestamp,
                      interval)
    {
      forall i | 0 <= i < |series| ensures first + i * interval >= Cutoff(latest) {
        assert i * interval >= 0;
      }
    }

    /** Points lie on interval starts, so the last one is not after the interval of the last reading. */
    lemma OnTheGrid(now: int, end: int, first: int, series: seq<Point>)
      requires interval > 0 && capacity > 0 && first == Cutoff(now) && series != []
      requires series == SeriesOf(buckets, first, |series|, interval)
      requires first + (|series| - 1) * interval <= end && now < first + |series| * interval
      ensures |series| >= capacity && Start(now, interval) <= series[|series| - 1].timestamp <= Start(end, interval)
      ensures Start(now, interval) == Start(end, interval) ==> |series| == capacity
    {
      var n, last := |series|, |series| - 1;
      assert series[last].timestamp == first + last * interval;
      Multiples(now, end, n, last);
    }

    lemma Multiples(now: int, end: int, n: nat, last: int)
      requires interval > 0 && capacity > 0 && last == n - 1
      requires Cutoff(now) + last * interval <= end && now < Cutoff(now) + n * interval
      ensures n >= capacity && Start(now, interval) <= Cutoff(now) + last * interval <= Start(end, interval)
      ensures Start(now, interval) == Start(end, interval) ==> n == capacity
    {
      Within(n, now);
      var k := now / interval - (capacity - 1) + last;
      assert Cutoff(now) + last * interval == k * interval;
      if last > capacity - 1 {
        MultiplesApart(capacity - 1, last, interval);
      }
      StartBounds(end, interval);
      if end / interval < k {
        MultiplesApart(end / interval, k, interval);
      } else if k < end / interval {
        MultiplesApart(k, end / interval, interval);
      }
    }

    /** The n-th step of the series is due as long as n is below the capacity. */
    lemma Within(n: int, now: int)
      requires interval > 0 && capacity > 0
      ensures Cutoff(now) + n * interval <= now <==> n < capacity
    {
      StartBounds(now, interval);
      if n < capacity - 1 {
        MultiplesApart(n, capacity - 1, interval);
      } else if n > capacity - 1 {
        MultiplesApart(capacity - 1, n, interval);
      }
    }

    lemma InWindow(start: int)
      requires interval > 0 && capacity > 0 && start == Start(latest, interval)
      ensures Cutoff(latest) <= start
    {
      assert (capacity - 1) * interval >= 0;
    }

    method Fail(now: int) returns (start: int)
      requires Valid() && latest <= now
      modifies `buckets, `latest, `history
      ensures Valid() && latest == now && start == Start(now, interval) && start in buckets
      ensures history == old(history) + [Failure(now)]
      ensures buckets == Since(old(buckets)[start := After(Lookup(old(buckets), start), old(history), Failure(now))],
                               Cutoff(now))
    {
      start := Bucket(now);
      InWindow(start);
      var s := buckets[start].(publicationFailures := buckets[start].publicationFailures + 1);
      assert s == After(buckets[start], history, Failure(now));
      Record(Failure(now), start, s, old(buckets));
      NotedFailure(Failure(now));
      history := history + [Failure(now)];
    }

    /** `save`: the row of `start` is written, and rows before the window are deleted. */
    method Save(start: int, now: int)
      requires interval > 0 && start in buckets
      modifies if storage.Some? then {storage.value} else {}
      ensures storage.Some? ==>
                storage.value.rows == Since(old(storage.value.rows)[start := buckets[start]], Cutoff(now))
    {
      if storage.Some? {
        storage.value.Save(start, buckets[start], Cutoff(now));
      }
    }

    /**
     * Takes in one report of the broker. The clock is read three times: when the traffic is counted,
     * again for the row that is stored, and for the rows that are deleted then.
     */
    method Update(metric: Option<Metric>, payload: Option<nat>, t1: int, t2: int, t3: int) returns (ok: bool)
      requires Valid() && latest <= t1 <= t2 <= t3
      modifies this, if storage.Some? then {storage.value} else {}
      ensures Valid() && base == old(base) && storage == old(storage)
      ensures ok <==> metric.Some? && payload.Some? && payload.value <= 9_007_199_254_740_991
      ensures !ok ==> history == old(history) && counters == old(counters) && buckets == old(buckets)
      ensures !ok && storage.Some? ==> storage.value.rows == old(storage.value.rows)
      ensures ok ==> history == old(history) + [Count(metric.value, payload.value, t1)] && latest == t3
      // The store keeps up unless the interval changes between the first two readings.
      ensures ok && storage.Some? && old(Agrees()) ==>
                (Agrees() <==>
                  || Start(t1, interval) == Start(t2, interval)
                  || Start(t1, interval) < Cutoff(t3)
                  || (Start(t1, interval) in old(buckets)
                      && Increase(old(history), Count(metric.value, payload.value, t1), metric.value) == 0))
    {
      if metric.None? || payload.None? || payload.value > MAX_SAFE_INTEGER {
        return false;
      }
      Take(metric.value, payload.value, t1, t2, t3);
      return true;
    }

    /** The part of `update` behind its guards. */
    method Take(m: Metric, value: nat, t1: int, t2: int, t3: int)
      requires Valid() && latest <= t1 <= t2 <= t3
      modifies this, if storage.Some? then {storage.value} else {}
      ensures Valid() && base == old(base) && storage == old(storage)
      ensures history == old(history) + [Count(m, value, t1)] && latest == t3
      ensures storage.Some? && old(Agrees()) ==>
                (Agrees() <==>
                  || Start(t1, interval) == Start(t2, interval)
                  || Start(t1, interval) < Cutoff(t3)
                  || (Start(t1, interval) in old(buckets) && Increase(old(history), Count(m, value, t1), m) == 0))
    {
      var s1 := Add(m, value, t1);
      InWindow(s1);
      var s2 := Bucket(t2);
      InWindow(s2);
      Save(s2, t3);
      StartMonotone(t2, t3, interval);
      if storage.Some? && old(Agrees()) {
        StartMonotone(old(latest), t1, interval);
        StartMonotone(t1, t2, interval);
        SavedLater(old(storage.value.rows), old(buckets), old(Cutoff(latest)), s1,
                   After(Lookup(old(buckets), s1), old(history), Count(m, value, t1)),
                   Cutoff(t1), s2, Cutoff(t2), Cutoff(t3));
      }
      latest := t3;
    }

    method PublicationFailed(t1: int, t2: int)
      requires Valid() && latest <= t1 <= t2
      modifies this, if storage.Some? then {storage.value} else {}
      ensures Valid() && base == old(base) && storage == old(storage)
      ensures history == old(history) + [Failure(t1)] && counters == old(counters) && latest == t2
      ensures storage.Some? && old(Agrees()) ==> Agrees()
    {
      var start := Fail(t1);
      InWindow(start);
      Save(start, t2);
      StartMonotone(old(latest), t1, interval);
      StartMonotone(t1, t2, interval);
      if storage.Some? && old(Agrees()) {
        SavedAtOnce(old(storage.value.rows), old(buckets), old(Cutoff(latest)), start,
                    After(Lookup(old(buckets), start), old(history), Failure(t1)), Cutoff(t1), Cutoff(t2));
      }
      latest := t2;
    }
  }

  lemma SavedAtOnce(rows: Samples, before: Samples, c0: int, s1: int, added: Sample, c1: int, c2: int)
    requires c0 <= c1 <= c2 && c1 <= s1 && Since(rows, c0) == Since(before, c0)
    ensures Since(Since(rows[s1 := added], c2), c2) == Since(Since(before[s1 := added], c1), c2)
  {
    SameSince(rows, before, c0, c2);
    var a, b := Since(Since(rows[s1 := added], c2), c2), Since(Since(before[s1 := added], c1), c2);
    forall t | t >= c2 && t != s1 ensures (t in a <==> t in b) && (t in a ==> a[t] == b[t]) {
      assert (t in a <==> t in Since(rows, c2)) && (t in b <==> t in Since(before, c2));
    }
  }

  lemma SameSince(rows: Samples, buckets: Samples, c0: int, c2: int)
    requires c0 <= c2 && Since(rows, c0) == Since(buckets, c0)
    ensures Since(rows, c2) == Since(buckets, c2)
  {
    assert Since(rows, c2) == Since(Since(rows, c0), c2) && Since(buckets, c2) == Since(Since(buckets, c0), c2);
  }

  lemma SavedLater(rows: Samples, before: Samples, c0: int, s1: int, added: Sample, c1: int, s2: int, c2: int, c3: int)
    requires c0 <= c1 <= c2 <= c3 && c1 <= s1 <= s2 && c2 <= s2 && Since(rows, c0) == Since(before, c0)
    ensures var b1 := Since(before[s1 := added], c1);
            var b2 := Since(if s2 in b1 then b1 else b1[s2 := EMPTY], c2);
            (Since(Since(rows[s2 := b2[s2]], c3), c3) == Since(b2, c3)) ==
            (s1 == s2 || s1 < c3 || (s1 in before && before[s1] == added))
  {
    SameSince(rows, before, c0, c3);
    var b1 := Since(before[s1 := added], c1);
    var b2 := Since(if s2 in b1 then b1 else b1[s2 := EMPTY], c2);
    var a, b := Since(Since(rows[s2 := b2[s2]], c3), c3), Since(b2, c3);
    forall t | t >= c3 && t != s1 ensures (t in a <==> t in b) && (t in a ==> a[t] == b[t]) {
      assert t != s2 ==> (t in a <==> t in Since(rows, c3)) && (t in b <==> t in Since(before, c3));
    }
    if s1 != s2 && s1 >= c3 {
      assert s1 in b && b[s1] == added && (s1 in a <==> s1 in Since(before, c3));
    }
  }

  /** Five messages counted at the end of one hour and stored in the next are missing from the store. */
  lemma TurnOfTheHour(hour: int, five: Sample)
    requires hour == 3600000 && five == Sample(5, 0, 0, 0)
    ensures var buckets := map[0 := five, hour := EMPTY];
            var rows := map[hour := EMPTY];
            Since(Since(map[], 0)[0 := five], 0)[hour := EMPTY] == buckets && Since(rows, 0) != Since(buckets, 0)
  {
    SavedLater(map[], map[], 0, 0, five, 0, hour, 0, 0);
    assert 0 in Since(map[0 := five, hour := EMPTY], 0);
  }

  /** A store with a row for the running hour, attached after five messages were counted in it, loses them. */
  lemma LateStoreLosesCounts(hour: int, history: seq<Event>)
    requires hour == 3600000 && history == [Count(Received, 0, 0), Count(Received, 5, 1)]
    ensures var rows := map[0 := EMPTY];
            Volume(history, Received, 0, hour) == 5 && (map[0 := Sample(5, 0, 0, 0)] + Since(rows, 0))[0] == EMPTY
            && !Tally(EMPTY, EMPTY, history, 0, hour)
  {
    var first := [Count(Received, 0, 0)];
    assert history[..1] == first && first[..0] == [];
    assert Reported([], Received) == None && Reported(first, Received) == Some(0);
    assert Volume(first, Received, 0, hour) == Volume([], Received, 0, hour) + 0;
    assert Start(1, hour) == 0;
  }

  // ----- the series

  function SeriesOf(buckets: Samples, first: int, n: nat, interval: int): seq<Point> {
    seq(n, i requires 0 <= i < n =>
      var t := first + i * interval;
      Point(t, if t in buckets then Some(buckets[t]) else None))
  }

  /** A program that has been restarted shows what the former one would have shown. */
  lemma ReloadShowsTheSame(rows: Samples, buckets: Samples, c0: int, c1: int, n: nat, interval: int)
    requires interval > 0 && c0 <= c1 && Since(rows, c0) == Since(buckets, c0)
    ensures SeriesOf(Since(rows, c1), c1, n, interval) == SeriesOf(buckets, c1, n, interval)
  {
    SameSince(rows, buckets, c0, c1);
    forall i | 0 <= i < n
      ensures SeriesOf(Since(rows, c1), c1, n, interval)[i] == SeriesOf(buckets, c1, n, interval)[i]
    {
      var t := c1 + i * interval;
      assert i * interval >= 0;
      assert (t in Since(rows, c1) <==> t in buckets) && (t in buckets ==> Since(rows, c1)[t] == Since(buckets, c1)[t]);
    }
  }

  method Restart(store: Store, interval: int, capacity: int, now: int) returns (m: TrafficMetrics)
    requires interval > 0 && capacity > 0
    ensures fresh(m) && m.Valid() && m.Agrees() && m.interval == interval && m.capacity == capacity
    ensures m.storage == Some(store) && m.buckets == Since(store.rows, m.Cutoff(now)) && m.base == m.buckets
            && m.history == []
  {
    m := new TrafficMetrics(interval, capacity, now);
    m.AttachStore(store, now);
  }
}
