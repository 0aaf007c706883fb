/** The activity tracker and the motion classifier
    (SATpwn.py `_update_activity_history`, `_is_moving`, `_is_stationary`):
    a sliding window of new-AP counts stands in for a position sensor. */
module Activity {
  import opened Common

  const ACTIVITY_WINDOW_SECONDS: int := 300
  const ACTIVITY_THRESHOLD: int := 5
  const STATIONARY_SECONDS: int := 3600

  /** One recorded batch: when it was processed and how many new access
      points it brought. */
  datatype Sample = Sample(t: int, count: nat)

  // ---------------------------------------------------------------------
  // The sliding window
  // ---------------------------------------------------------------------

  /** Pruning at `now` keeps a sample strictly newer than `now - 300`. */
  predicate Retained(s: Sample, now: int)
  {
    s.t > now - ACTIVITY_WINDOW_SECONDS
  }

  /** The samples kept when the history is pruned at `now`, in their order. */
  function Prune(h: seq<Sample>, now: int): (r: seq<Sample>)
    ensures |r| <= |h|
    ensures forall s :: s in r <==> s in h && Retained(s, now)
  {
    if h == [] then []
    else (if Retained(h[0], now) then [h[0]] else []) + Prune(h[1..], now)
  }

  /** Pruning distributes over concatenation: the survivors of an older
      part still precede the survivors of a newer part. */
  lemma {:induction false} PruneAppend(a: seq<Sample>, b: seq<Sample>, now: int)
    ensures Prune(a + b, now) == Prune(a, now) + Prune(b, now)
  {
    if a == [] {
      assert a + b == b;
    } else {
      assert (a + b)[0] == a[0];
      assert (a + b)[1..] == a[1..] + b;
      PruneAppend(a[1..], b, now);
    }
  }

  /** Pruning again at the same or a later time only removes more:
      pruning at `now` and then at `later` is pruning at `later`. */
  lemma {:induction false} PruneTwice(h: seq<Sample>, now: int, later: int)
    requires now <= later
    ensures Prune(Prune(h, now), later) == Prune(h, later)
  {
    if h != [] {
      PruneTwice(h[1..], now, later);
      var head := if Retained(h[0], now) then [h[0]] else [];
      PruneAppend(head, Prune(h[1..], now), later);
      if Retained(h[0], now) {
        assert Prune(head, later) == (if Retained(h[0], later) then [h[0]] else []) + Prune([], later);
      }
    }
  }

  /** Recording a sample at `now` and pruning leaves that sample last,
      after the survivors of the old history in their old order. */
  lemma RecordThenPrune(h: seq<Sample>, now: int, c: nat)
    ensures Prune(h + [Sample(now, c)], now) == Prune(h, now) + [Sample(now, c)]
  {
    PruneAppend(h, [Sample(now, c)], now);
    assert Prune([Sample(now, c)], now) == [Sample(now, c)] + Prune([], now);
  }

  // ---------------------------------------------------------------------
  // Recent activity
  // ---------------------------------------------------------------------

  /** A sample is read as recent at `now` when `now - t <= 300`. */
  predicate InWindow(s: Sample, now: int)
  {
    now - s.t <= ACTIVITY_WINDOW_SECONDS
  }

  /** The sum of the counts of the samples recent at `now`. */
  function RecentActivity(h: seq<Sample>, now: int): nat
  {
    if h == [] then 0
    else (if InWindow(h[0], now) then h[0].count else 0) + RecentActivity(h[1..], now)
  }

  /** The sum of all counts in the history. */
  function Total(h: seq<Sample>): nat
  {
    if h == [] then 0 else h[0].count + Total(h[1..])
  }

  /** Recent activity is additive over concatenation. */
  lemma {:induction false} RecentActivityAppend(a: seq<Sample>, b: seq<Sample>, now: int)
    ensures RecentActivity(a + b, now) == RecentActivity(a, now) + RecentActivity(b, now)
  {
    if a == [] {
      assert a + b == b;
    } else {
      assert (a + b)[0] == a[0];
      assert (a + b)[1..] == a[1..] + b;
      RecentActivityAppend(a[1..], b, now);
    }
  }

  /** Recent activity never exceeds the total, and equals it when every
      sample lies inside the window. */
  lemma {:induction false} RecentActivityBounded(h: seq<Sample>, now: int)
    ensures RecentActivity(h, now) <= Total(h)
    ensures (forall i :: 0 <= i < |h| ==> InWindow(h[i], now)) ==> RecentActivity(h, now) == Total(h)
  {
    if h != [] {
      RecentActivityBounded(h[1..], now);
      assert forall i :: 0 <= i < |h[1..]| ==> h[1..][i] == h[i + 1];
    }
  }

  /** As time passes with no new samples, recent activity can only fall. */
  lemma {:induction false} RecentActivityAntitone(h: seq<Sample>, now: int, later: int)
    requires now <= later
    ensures RecentActivity(h, later) <= RecentActivity(h, now)
  {
    if h != [] {
      RecentActivityAntitone(h[1..], now, later);
    }
  }

  /** Pruning at `now` never adds activity, and what it removes is
      invisible at every later time. */
  lemma {:induction false} PruneKeepsLaterActivity(h: seq<Sample>, now: int, later: int)
    requires now <= later
    ensures RecentActivity(Prune(h, now), later) <= RecentActivity(h, later)
    ensures now < later ==> RecentActivity(Prune(h, now), later) == RecentActivity(h, later)
  {
    if h != [] {
      PruneKeepsLaterActivity(h[1..], now, later);
      var head := if Retained(h[0], now) then [h[0]] else [];
      RecentActivityAppend(head, Prune(h[1..], now), later);
      assert RecentActivity(head, later) ==
        (if Retained(h[0], now) && InWindow(h[0], later) then h[0].count else 0);
    }
  }

  /** The device is moving at `now` when recent activity reaches the threshold. */
  predicate Moving(h: seq<Sample>, now: int)
  {
    RecentActivity(h, now) >= ACTIVITY_THRESHOLD
  }

  // ---------------------------------------------------------------------
  // The stationary timer
  // ---------------------------------------------------------------------

  /** The new timer start and the verdict of one stationary check. */
  datatype StationaryResult = StationaryResult(start: Option<int>, stationary: bool)

  /** One stationary check at `now` with the given recent activity: low
      activity starts the timer if it is not running and reports whether it
      has run for `STATIONARY_SECONDS`; high activity stops the timer. */
  function StationaryStep(start: Option<int>, activity: nat, now: int): (r: StationaryResult)
    ensures activity >= ACTIVITY_THRESHOLD ==> r == StationaryResult(None, false)
    ensures activity < ACTIVITY_THRESHOLD ==> r.start.Some?
    ensures activity < ACTIVITY_THRESHOLD && start.Some? ==> r.start == start
    ensures activity < ACTIVITY_THRESHOLD && start.None? ==> r.start == Some(now) && !r.stationary
    ensures r.stationary ==> r.start.Some? && now - r.start.value >= STATIONARY_SECONDS
    ensures activity < ACTIVITY_THRESHOLD ==> (r.stationary <==> now - r.start.value >= STATIONARY_SECONDS)
  {
    if activity < ACTIVITY_THRESHOLD then
      var s := if start.None? then now else start.value;
      StationaryResult(Some(s), now - s >= STATIONARY_SECONDS)
    else
      StationaryResult(None, false)
  }

  /** Moving and stationary exclude each other for the same history and time. */
  lemma MovingExcludesStationary(h: seq<Sample>, start: Option<int>, now: int)
    ensures Moving(h, now) ==> !StationaryStep(start, RecentActivity(h, now), now).stationary
    ensures StationaryStep(start, RecentActivity(h, now), now).stationary ==> !Moving(h, now)
  {
  }

  /** One stationary check: when it happened and the activity it saw. */
  datatype Tick = Tick(now: int, activity: nat)

  /** The timer start after a sequence of checks. */
  function RunTimer(start: Option<int>, ticks: seq<Tick>): Option<int>
    decreases |ticks|
  {
    if ticks == [] then start
    else RunTimer(StationaryStep(start, ticks[0].activity, ticks[0].now).start, ticks[1..])
  }

  predicate AllQuiet(ticks: seq<Tick>)
  {
    forall i :: 0 <= i < |ticks| ==> ticks[i].activity < ACTIVITY_THRESHOLD
  }

  /** A running timer survives any run of quiet checks unchanged. */
  lemma {:induction false} QuietKeepsTimer(s: int, ticks: seq<Tick>)
    requires AllQuiet(ticks)
    ensures RunTimer(Some(s), ticks) == Some(s)
  {
    if ticks != [] {
      assert AllQuiet(ticks[1..]) by {
        forall i | 0 <= i < |ticks[1..]| ensures ticks[1..][i].activity < ACTIVITY_THRESHOLD {
          assert ticks[1..][i] == ticks[i + 1];
        }
      }
      QuietKeepsTimer(s, ticks[1..]);
    }
  }

  /** Hysteresis, first half: once a check reports stationary, every later
      quiet check reports stationary too, however many quiet checks came
      in between. */
  lemma StaysStationary(start: Option<int>, a: nat, n: int, ticks: seq<Tick>, last: Tick)
    requires StationaryStep(start, a, n).stationary
    requires AllQuiet(ticks)
    requires last.activity < ACTIVITY_THRESHOLD && last.now >= n
    ensures StationaryStep(RunTimer(StationaryStep(start, a, n).start, ticks), last.activity, last.now).stationary
  {
    QuietKeepsTimer(StationaryStep(start, a, n).start.value, ticks);
  }

  predicate NotBefore(ticks: seq<Tick>, r: int)
  {
    forall i :: 0 <= i < |ticks| ==> ticks[i].now >= r
  }

  /** A timer that is stopped, or started no earlier than `r`, is still
      stopped or started no earlier than `r` after checks made at `r` or later. */
  lemma {:induction false} TimerNotBefore(start: Option<int>, ticks: seq<Tick>, r: int)
    requires start.None? || start.value >= r
    requires NotBefore(ticks, r)
    ensures RunTimer(start, ticks).None? || RunTimer(start, ticks).value >= r
    decreases |ticks|
  {
    if ticks != [] {
      assert NotBefore(ticks[1..], r) by {
        forall i | 0 <= i < |ticks[1..]| ensures ticks[1..][i].now >= r {
          assert ticks[1..][i] == ticks[i + 1];
        }
      }
      TimerNotBefore(StationaryStep(start, ticks[0].activity, ticks[0].now).start, ticks[1..], r);
    }
  }

  /** Hysteresis, second half: a busy check at time `r` stops the timer, and
      no check after it reports stationary before `r + STATIONARY_SECONDS`. */
  lemma BusyResetsTimer(start: Option<int>, a: nat, r: int, ticks: seq<Tick>, last: Tick)
    requires a >= ACTIVITY_THRESHOLD
    requires NotBefore(ticks, r) && last.now >= r
    ensures !StationaryStep(start, a, r).stationary
    ensures StationaryStep(RunTimer(StationaryStep(start, a, r).start, ticks), last.activity, last.now).stationary
            ==> last.now >= r + STATIONARY_SECONDS
  {
    TimerNotBefore(None, ticks, r);
  }

  /** Sustained quiet: from a stopped timer, after quiet checks starting at
      time `first.now`, a quiet check reports stationary exactly when at
      least `STATIONARY_SECONDS` have passed since `first`. */
  lemma QuietSinceFirstCheck(first: Tick, ticks: seq<Tick>, last: Tick)
    requires first.activity < ACTIVITY_THRESHOLD && AllQuiet(ticks)
    requires last.activity < ACTIVITY_THRESHOLD
    ensures StationaryStep(RunTimer(None, [first] + ticks), last.activity, last.now).stationary
            <==> last.now - first.now >= STATIONARY_SECONDS
  {
    assert ([first] + ticks)[1..] == ticks;
    QuietKeepsTimer(first.now, ticks);
  }

  /** The stationary verdict of the checks the plugin makes: recording a
      zero-count batch after a stationary verdict keeps the verdict, because
      recording nothing new cannot raise recent activity. */
  lemma ZeroSampleKeepsStationary(h: seq<Sample>, start: Option<int>, n: int, later: int)
    requires StationaryStep(start, RecentActivity(h, n), n).stationary
    requires n <= later
    ensures var h' := Prune(h + [Sample(later, 0)], later);
            StationaryStep(StationaryStep(start, RecentActivity(h, n), n).start,
                           RecentActivity(h', later), later).stationary
  {
    var h' := Prune(h + [Sample(later, 0)], later);
    PruneKeepsLaterActivity(h + [Sample(later, 0)], later, later);
    RecentActivityAppend(h, [Sample(later, 0)], later);
    RecentActivityAntitone(h, n, later);
    assert RecentActivity(h', later) <= RecentActivity(h, n);
  }

  /** Recording a batch that brought at least `ACTIVITY_THRESHOLD` new
      access points makes the device moving and stops the timer. */
  lemma BusySampleResets(h: seq<Sample>, start: Option<int>, now: int, c: nat)
    requires c >= ACTIVITY_THRESHOLD
    ensures var h' := Prune(h + [Sample(now, c)], now);
            Moving(h', now) && StationaryStep(start, RecentActivity(h', now), now) == StationaryResult(None, false)
  {
    RecordThenPrune(h, now, c);
    RecentActivityAppend(Prune(h, now), [Sample(now, c)], now);
  }
}
