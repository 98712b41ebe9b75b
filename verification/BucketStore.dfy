/**
  The store of buckets by key, with the periodic eviction of idle buckets, and the
  runs of requests and evictions over it.
 */
module BucketStore {
  import opened Options
  import opened TokenBucket

  type Contents = map<string, Bucket>

  /** `getOrCreate`: the bucket of the key, or a full one made on the spot. */
  function Lookup(l: Limits, s: Contents, key: string, now: real): Bucket {
    if key in s then s[key] else Fresh(l, now)
  }

  function AfterRequest(l: Limits, s: Contents, key: string, now: real): Contents {
    s[key := Serve(l, Lookup(l, s, key, now), now)]
  }

  function Available(l: Limits, s: Contents, key: string, now: real): real {
    Refill(l, Lookup(l, s, key, now), now)
  }

  /** `cleanup`: drops the buckets that have been idle for longer than `idle`. */
  function AfterCleanup(s: Contents, idle: real, now: real): Contents {
    map key | key in s && !(now - s[key].lastAccess > idle) :: s[key]
  }

  class Store {
    var buckets: map<string, BucketCell>
    const limits: Limits

    constructor (rate: int, burst: int)
      ensures Valid() && View() == map[] && limits == Limits(rate as real, BurstOf(burst))
    {
      limits := Limits(rate as real, BurstOf(burst));
      buckets := map[];
    }

    ghost function Cells(): set<object>
      reads this
    {
      set key | key in buckets :: buckets[key] as object
    }

    /** No two keys share a bucket, and all buckets have the configured limits. */
    ghost predicate Valid()
      reads this
    {
      && (forall key :: key in buckets ==> buckets[key].limits == limits)
      && forall k, m :: k in buckets && m in buckets && k != m ==> buckets[k] != buckets[m]
    }

    ghost function View(): Contents
      reads this, Cells()
    {
      map key | key in buckets :: buckets[key].Value()
    }

    method GetOrCreate(key: string, now: real) returns (bucket: BucketCell)
      requires Valid()
      modifies this
      ensures Valid() && key in buckets && buckets[key] == bucket
      ensures Cells() - old(Cells()) <= {bucket} && (bucket in old(Cells()) || fresh(bucket))
      ensures View() == old(View())[key := Lookup(limits, old(View()), key, now)]
    {
      if key in buckets {
        return buckets[key];
      }
      bucket := new BucketCell(limits, now);
      buckets := buckets[key := bucket];
    }

    method Cleanup(idle: real, now: real)
      requires Valid()
      modifies this
      ensures Valid()
      ensures View() == AfterCleanup(old(View()), idle, now)
    {
      var keys := buckets.Keys;
      while keys != {}
        invariant keys <= buckets.Keys <= old(buckets).Keys
        invariant forall key :: key in buckets ==> buckets[key] == old(buckets)[key]
        invariant forall key :: key in old(buckets) && key !in keys ==>
                    (key in buckets <==> !(now - old(buckets)[key].lastAccess > idle))
        decreases keys
      {
        var key :| key in keys;
        keys := keys - {key};
        if now - buckets[key].lastAccess > idle {
          buckets := buckets - {key};
        }
      }
    }

    /** One request of the middleware; `retryAfter` is the header of a denial, a number unless the rate is zero. */
    method Handle(enabled: bool, key: string, now: real) returns (allowed: bool, retryAfter: Option<int>)
      requires Valid()
      modifies this, Cells()
      ensures Valid()
      ensures !enabled ==> allowed && retryAfter == None && View() == old(View())
      ensures enabled ==> View() == AfterRequest(limits, old(View()), key, now)
      ensures enabled ==> (allowed <==> Available(limits, old(View()), key, now) >= 1.0)
      ensures enabled && !allowed && limits.rate != 0.0 ==>
                retryAfter == Some(RetryAfter(WaitFor(limits, Available(limits, old(View()), key, now)).value))
    {
      if !enabled {
        return true, None;
      }
      var bucket := GetOrCreate(key, now);
      assert bucket.Value() == View()[key] == Lookup(limits, old(View()), key, now);
      var wait;
      allowed, wait := bucket.Allow(now);
      retryAfter := if allowed || wait.None? then None else Some(RetryAfter(wait.value));
    }
  }

  // ----- Runs -----

  datatype Event =
    | Request(key: string, time: real)
    | Cleanup(time: real)

  predicate InOrder(events: seq<Event>) {
    forall i, j :: 0 <= i < j < |events| ==> events[i].time <= events[j].time
  }

  /** The store after a run; with no idle limit, cleanups do nothing. */
  function RunStore(l: Limits, idle: Option<real>, events: seq<Event>): Contents {
    if events == [] then map[]
    else
      var s := RunStore(l, idle, events[..|events| - 1]);
      match events[|events| - 1]
      case Request(key, now) => AfterRequest(l, s, key, now)
      case Cleanup(now) => if idle.Some? then AfterCleanup(s, idle.value, now) else s
  }

  /** Whether the last event is let through: a request with a token, or a cleanup. */
  predicate Passes(l: Limits, idle: Option<real>, events: seq<Event>)
    requires events != []
  {
    var last := events[|events| - 1];
    last.Request? ==> Available(l, RunStore(l, idle, events[..|events| - 1]), last.key, last.time) >= 1.0
  }

  // ----- Each key has its own run -----

  /** The times of the requests on one key. */
  function TimesOf(events: seq<Event>, key: string): seq<real> {
    if events == [] then []
    else
      var last := events[|events| - 1];
      TimesOf(events[..|events| - 1], key) + if last.Request? && last.key == key then [last.time] else []
  }

  /** Without eviction, every bucket is the one that the requests on its own key leave behind. */
  lemma {:induction false} BucketOfKey(l: Limits, events: seq<Event>, key: string)
    ensures key in RunStore(l, None, events) <==> TimesOf(events, key) != []
    ensures key in RunStore(l, None, events) ==> RunStore(l, None, events)[key] == After(l, TimesOf(events, key))
  {
    if events != [] {
      var before := events[..|events| - 1];
      BucketOfKey(l, before, key);
      var last := events[|events| - 1];
      if last.Request? && last.key == key {
        var times := TimesOf(events, key);
        assert times[..|times| - 1] == TimesOf(before, key);
        assert Found(l, times) == Lookup(l, RunStore(l, None, before), key, last.time);
      } else {
        assert TimesOf(events, key) == TimesOf(before, key);
      }
    }
  }

  /** So a decision of the store is the decision of a single bucket on the requests of that key. */
  lemma PassesByKey(l: Limits, events: seq<Event>)
    requires events != [] && events[|events| - 1].Request?
    ensures var times := TimesOf(events, events[|events| - 1].key);
            times != [] && (Passes(l, None, events) <==> Admitted(l, times))
  {
    var last := events[|events| - 1];
    var before := events[..|events| - 1];
    var times := TimesOf(events, last.key);
    BucketOfKey(l, before, last.key);
    assert times[..|times| - 1] == TimesOf(before, last.key);
  }

  // ----- Which buckets there are -----

  /** Event `i` is the last request on the key, and no cleanup since then came more than `idle` after it. */
  predicate LastSeenAt(events: seq<Event>, idle: real, key: string, i: nat) {
    && i < |events| && events[i].Request? && events[i].key == key
    && forall j :: i < j < |events| ==>
         if events[j].Request? then events[j].key != key else events[j].time <= events[i].time + idle
  }

  /** After any run, the store has a bucket for just the keys that were requested and not idle at a cleanup since. */
  lemma {:induction false} StoredExactly(l: Limits, idle: real, events: seq<Event>, key: string)
    ensures key in RunStore(l, Some(idle), events) <==> exists i: nat :: LastSeenAt(events, idle, key, i)
    ensures forall i: nat :: LastSeenAt(events, idle, key, i) ==>
              && key in RunStore(l, Some(idle), events)
              && RunStore(l, Some(idle), events)[key].lastAccess == events[i].time
  {
    if events != [] {
      var before, last := events[..|events| - 1], events[|events| - 1];
      StoredExactly(l, idle, before, key);
      if last.Request? && last.key == key {
        assert LastSeenAt(events, idle, key, |events| - 1);
      } else {
        forall i | 0 <= i < |before|
          ensures LastSeenAt(events, idle, key, i) <==>
                    LastSeenAt(before, idle, key, i) && (last.Cleanup? ==> last.time <= events[i].time + idle)
        {
          SeenBefore(events, idle, key, i);
        }
      }
    }
  }

  lemma SeenBefore(events: seq<Event>, idle: real, key: string, i: nat)
    requires i < |events| - 1
    ensures var before, last := events[..|events| - 1], events[|events| - 1];
            LastSeenAt(events, idle, key, i) <==>
              && LastSeenAt(before, idle, key, i)
              && if last.Request? then last.key != key else last.time <= events[i].time + idle
  {
    var before := events[..|events| - 1];
    assert forall j :: 0 <= j < |before| ==> before[j] == events[j];
  }

  // ----- Eviction -----

  /** An idle bucket that has certainly filled up again by `now`. */
  predicate Replenished(l: Limits, b: Bucket, now: real) {
    Inflow(l, b.lastRefill, now) >= l.burst
  }

  /** A drained bucket fills up completely within `idle` seconds. */
  predicate RefillsWithin(l: Limits, idle: real) {
    idle * l.rate >= l.burst
  }

  predicate Sound(l: Limits, b: Bucket, now: real) {
    0.0 <= b.tokens <= l.burst && b.lastRefill == b.lastAccess <= now
  }

  /** An evicting store has the same buckets, except for some that are full again anyway. */
  ghost predicate Matches(l: Limits, evicting: Contents, keeping: Contents, now: real) {
    && (forall key :: key in evicting ==> key in keeping && evicting[key] == keeping[key])
    && (forall key :: key in keeping ==> Sound(l, keeping[key], now))
    && (forall key :: key in keeping && key !in evicting ==> Replenished(l, keeping[key], now))
  }

  lemma MatchesLater(l: Limits, evicting: Contents, keeping: Contents, now: real, later: real)
    requires Matches(l, evicting, keeping, now) && now <= later && l.rate >= 0.0
    ensures Matches(l, evicting, keeping, later)
  {
    forall key | key in keeping && key !in evicting
      ensures Replenished(l, keeping[key], later)
    {
      InflowGrows(l, keeping[key].lastRefill, now, later);
    }
  }

  /** A request finds the same tokens in both stores. */
  lemma SameTokens(l: Limits, evicting: Contents, keeping: Contents, key: string, now: real)
    requires Matches(l, evicting, keeping, now) && l.burst >= 1.0
    ensures Available(l, evicting, key, now) == Available(l, keeping, key, now)
    ensures l.rate >= 0.0 ==> 0.0 <= Available(l, keeping, key, now) <= l.burst
  {
    InflowAdds(l, now, now, now);
    if key in keeping && l.rate >= 0.0 {
      InflowGrows(l, keeping[key].lastRefill, now, now);
    }
  }

  lemma MatchesAfterRequest(l: Limits, evicting: Contents, keeping: Contents, key: string, now: real)
    requires Matches(l, evicting, keeping, now) && l.burst >= 1.0 && l.rate >= 0.0
    ensures Matches(l, AfterRequest(l, evicting, key, now), AfterRequest(l, keeping, key, now), now)
  {
    SameTokens(l, evicting, keeping, key, now);
  }

  lemma MatchesAfterCleanup(l: Limits, evicting: Contents, keeping: Contents, idle: real, now: real)
    requires Matches(l, evicting, keeping, now) && l.rate >= 0.0
    requires RefillsWithin(l, idle)
    ensures Matches(l, AfterCleanup(evicting, idle, now), keeping, now)
  {
    var cleaned := AfterCleanup(evicting, idle, now);
    forall key | key in keeping && key !in cleaned
      ensures Replenished(l, keeping[key], now)
    {
      if key in evicting {
        IdleLongEnough(l, keeping[key], idle, now);
      }
    }
  }

  lemma IdleLongEnough(l: Limits, b: Bucket, idle: real, now: real)
    requires l.rate >= 0.0 && RefillsWithin(l, idle) && now - b.lastRefill > idle
    ensures Replenished(l, b, now)
  {
    assert (now - b.lastRefill) * l.rate >= idle * l.rate;
  }

  lemma {:induction false} EvictingStoreMatches(l: Limits, idle: real, events: seq<Event>, now: real)
    requires l.burst >= 1.0 && l.rate >= 0.0 && RefillsWithin(l, idle)
    requires InOrder(events) && (events != [] ==> events[|events| - 1].time <= now)
    ensures Matches(l, RunStore(l, Some(idle), events), RunStore(l, None, events), now)
  {
    if events != [] {
      var before, last := events[..|events| - 1], events[|events| - 1];
      EvictingStoreMatches(l, idle, before, last.time);
      var evicting, keeping := RunStore(l, Some(idle), before), RunStore(l, None, before);
      match last {
        case Request(key, t) => MatchesAfterRequest(l, evicting, keeping, key, t);
        case Cleanup(t) => MatchesAfterCleanup(l, evicting, keeping, idle, t);
      }
      MatchesLater(l, RunStore(l, Some(idle), events), RunStore(l, None, events), last.time, now);
    }
  }

  /** If a bucket refills within the idle limit, eviction changes no decision of any run. */
  lemma EvictionInvisible(l: Limits, idle: real, events: seq<Event>)
    requires l.burst >= 1.0 && l.rate >= 0.0 && RefillsWithin(l, idle)
    requires InOrder(events) && events != []
    ensures Passes(l, Some(idle), events) <==> Passes(l, None, events)
  {
    var before, last := events[..|events| - 1], events[|events| - 1];
    EvictingStoreMatches(l, idle, before, last.time);
    if last.Request? {
      SameTokens(l, RunStore(l, Some(idle), before), RunStore(l, None, before), last.key, last.time);
    }
  }

  // ----- When eviction shows -----

  function Requests(n: nat, key: string, t: real): seq<Event> {
    seq(n, i => Request(key, t))
  }

  lemma RequestsSnoc(start: seq<Event>, key: string, t: real, n: nat)
    requires n > 0
    ensures start + Requests(n, key, t) == start + Requests(n - 1, key, t) + [Request(key, t)]
    ensures start + Requests(0, key, t) == start
  {
  }

  /** One more request at the end of a run. */
  lemma RunSnoc(l: Limits, idle: Option<real>, events: seq<Event>, key: string, t: real)
    ensures RunStore(l, idle, events + [Request(key, t)]) == AfterRequest(l, RunStore(l, idle, events), key, t)
    ensures Passes(l, idle, events + [Request(key, t)]) <==> Available(l, RunStore(l, idle, events), key, t) >= 1.0
  {
    assert (events + [Request(key, t)])[..|events|] == events;
  }

  /** Simultaneous requests take one token each from a full bucket. */
  lemma {:induction false} BurstDrains(l: Limits, idle: Option<real>, start: seq<Event>, key: string, t: real, n: nat)
    requires key !in RunStore(l, idle, start) && n as real <= l.burst
    ensures var s := RunStore(l, idle, start + Requests(n, key, t));
            n > 0 ==> key in s && s[key] == Bucket(l.burst - n as real, t, t)
    ensures forall i :: 0 < i <= n ==> Passes(l, idle, start + Requests(i, key, t))
  {
    hide RunStore, Passes, Requests;
    if n > 0 {
      BurstDrains(l, idle, start, key, t, n - 1);
      RequestsSnoc(start, key, t, n);
      RunSnoc(l, idle, start + Requests(n - 1, key, t), key, t);
      InflowAdds(l, t, t, t);
    }
  }

  /** As long as all of them pass, simultaneous requests at `u` drain what has flowed in by then. */
  lemma {:induction false} KeptBucketDrains(l: Limits, start: seq<Event>, key: string, u: real, n: nat)
    requires key in RunStore(l, None, start) && RunStore(l, None, start)[key] == Bucket(0.0, 0.0, 0.0)
    requires Inflow(l, 0.0, u) <= l.burst
    requires forall i :: 0 < i <= n ==> Passes(l, None, start + Requests(i, key, u))
    ensures var s := RunStore(l, None, start + Requests(n, key, u));
            n > 0 ==> key in s && 0.0 <= s[key].tokens == Inflow(l, 0.0, u) - n as real && s[key].lastRefill == u
  {
    hide RunStore, Passes, Requests;
    if n > 0 {
      KeptBucketDrains(l, start, key, u, n - 1);
      var before := start + Requests(n - 1, key, u);
      RequestsSnoc(start, key, u, n);
      RunSnoc(l, None, before, key, u);
      InflowAdds(l, u, u, u);
      ServeOnce(l, RunStore(l, None, before)[key], u, Inflow(l, 0.0, u) - (n - 1) as real);
    }
  }

  lemma ServeOnce(l: Limits, b: Bucket, now: real, tokens: real)
    requires b.tokens + Inflow(l, b.lastRefill, now) == tokens <= l.burst && Refill(l, b, now) >= 1.0
    ensures Serve(l, b, now).tokens == tokens - 1.0 >= 0.0
  {
  }

  /** Without eviction, one of `n` requests at `u` fails if less than `n` tokens have flowed in by then. */
  lemma KeptBucketDenies(l: Limits, start: seq<Event>, key: string, u: real, n: nat) returns (i: nat)
    requires key in RunStore(l, None, start) && RunStore(l, None, start)[key] == Bucket(0.0, 0.0, 0.0)
    requires n >= 1 && l.burst == n as real && Inflow(l, 0.0, u) < l.burst
    ensures 0 < i <= n && !Passes(l, None, start + Requests(i, key, u))
  {
    if forall i :: 0 < i <= n ==> Passes(l, None, start + Requests(i, key, u)) {
      KeptBucketDrains(l, start, key, u, n);
      assert false;
    }
    i :| 0 < i <= n && !Passes(l, None, start + Requests(i, key, u));
  }

  /** A burst drains the bucket, and a cleanup after the idle limit removes it or leaves it as it is. */
  lemma BurstThenCleanup(l: Limits, idle: real, n: nat, key: string, u: real) returns (start: seq<Event>)
    requires n >= 1 && l.burst == n as real && u > idle >= 0.0
    ensures InOrder(start) && start != [] && forall i :: 0 <= i < |start| ==> start[i].time <= u
    ensures key !in RunStore(l, Some(idle), start)
    ensures key in RunStore(l, None, start) && RunStore(l, None, start)[key] == Bucket(0.0, 0.0, 0.0)
  {
    var first := Requests(n, key, 0.0);
    start := first + [Cleanup(u)];
    assert [] + first == first;
    BurstDrains(l, Some(idle), [], key, 0.0, n);
    BurstDrains(l, None, [], key, 0.0, n);
    assert start[..|start| - 1] == first && start[|start| - 1] == Cleanup(u);
    var evicting, keeping := RunStore(l, Some(idle), first), RunStore(l, None, first);
    assert RunStore(l, Some(idle), start) == AfterCleanup(evicting, idle, u);
    assert RunStore(l, None, start) == keeping;
  }

  /** If a drained bucket does not refill within the idle limit, some run is decided differently. */
  lemma EvictionVisible(l: Limits, idle: real, n: nat, key: string) returns (events: seq<Event>)
    requires n >= 1 && l.burst == n as real && idle >= 0.0
    requires !RefillsWithin(l, idle)
    ensures InOrder(events) && events != []
    ensures Passes(l, Some(idle), events) && !Passes(l, None, events)
  {
    var u := Between(l, idle);
    var start := BurstThenCleanup(l, idle, n, key, u);
    BurstDrains(l, Some(idle), start, key, u, n);
    var i := KeptBucketDenies(l, start, key, u, n);
    events := start + Requests(i, key, u);
  }

  /** A moment later than the idle limit at which a drained bucket is not yet full. */
  lemma Between(l: Limits, idle: real) returns (u: real)
    requires l.burst > 0.0 && idle >= 0.0 && !RefillsWithin(l, idle)
    ensures u > idle && Inflow(l, 0.0, u) < l.burst
  {
    if l.rate <= 0.0 {
      u := idle + 1.0;
      NothingFlowsIn(l, u);
      return;
    }
    var full := l.burst / l.rate;
    assert full * l.rate == l.burst;
    Cancel(l.rate, idle, full);
    u := (idle + full) / 2.0;
    Cancel(l.rate, u, full);
  }

  lemma NothingFlowsIn(l: Limits, time: real)
    requires l.rate <= 0.0 && time >= 0.0
    ensures Inflow(l, 0.0, time) == time * l.rate <= 0.0
  {
  }

  lemma Cancel(rate: real, a: real, b: real)
    requires rate > 0.0
    ensures a * rate < b * rate <==> a < b
  {
    assert (b - a) * rate == b * rate - a * rate;
  }

  /** Eviction goes unnoticed by all runs exactly when a drained bucket refills within the idle limit. */
  lemma EvictionInvisibleExactly(l: Limits, idle: real, n: nat)
    requires n >= 1 && l.burst == n as real && idle >= 0.0
    ensures (forall events :: InOrder(events) && events != [] ==>
               (Passes(l, Some(idle), events) <==> Passes(l, None, events)))
       <==> RefillsWithin(l, idle)
  {
    if RefillsWithin(l, idle) {
      if l.rate <= 0.0 {
        NothingFlowsIn(l, idle);
      }
      forall events | InOrder(events) && events != []
        ensures Passes(l, Some(idle), events) <==> Passes(l, None, events)
      {
        EvictionInvisible(l, idle, events);
      }
    } else {
      var events := EvictionVisible(l, idle, n, "");
    }
  }
}
