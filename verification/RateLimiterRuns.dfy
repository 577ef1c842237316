/** Runs of the rate limiter, compared with a plain sliding window. */
module RateLimiterRuns {
  import opened Sequences
  import opened RateLimiting

  datatype Call = Call(key: Key, now: real)

  predicate ClockNeverGoesBack(calls: seq<Call>)
    decreases |calls|
  {
    |calls| > 1 ==> ClockNeverGoesBack(Front(calls)) && Last(Front(calls)).now <= Last(calls).now
  }

  /** The tracker after `calls`, from a limiter created at `start`. */
  function After(c: Config, start: real, calls: seq<Call>): (s: State)
    ensures s.Valid()
    decreases |calls|
  {
    if calls == [] then State([], map[], start)
    else
      var s := After(c, start, Front(calls));
      CheckStepValid(c, s, Last(calls).key, Last(calls).now);
      CheckStep(c, s, Last(calls).key, Last(calls).now).1
  }

  /** What the last call of a run answers. */
  function Answer(c: Config, start: real, calls: seq<Call>): bool
    requires calls != []
  {
    var s := After(c, start, Front(calls));
    CheckStepValid(c, s, Last(calls).key, Last(calls).now);
    CheckStep(c, s, Last(calls).key, Last(calls).now).0
  }

  /** The times of the True answers for `key`, oldest first. */
  function Grants(c: Config, start: real, calls: seq<Call>, key: Key): seq<real>
    decreases |calls|
  {
    if calls == [] then []
    else
      Grants(c, start, Front(calls), key) +
      if Last(calls).key == key && Answer(c, start, calls) then [Last(calls).now] else []
  }

  /** What the last call of a run evicts. */
  function EvictedBy(c: Config, start: real, calls: seq<Call>): set<Key>
    requires calls != []
  {
    var s := After(c, start, Front(calls));
    ArrivedValid(c, s, Last(calls).key, Last(calls).now);
    Evicted(c, s, Last(calls).key, Last(calls).now)
  }

  predicate NeverEvicted(c: Config, start: real, calls: seq<Call>, key: Key)
    decreases |calls|
  {
    calls == [] || (NeverEvicted(c, start, Front(calls), key) && key !in EvictedBy(c, start, calls))
  }

  // ---------------------------------------------------------------- facts about Live

  lemma LiveAppend(ts: seq<real>, t: real, now: real, w: int)
    ensures Live(ts + [t], now, w) == Live(ts, now, w) + if now - t < w as real then [t] else []
  {
    assert (ts + [t])[..|ts|] == ts;
  }

  /** Pruning early never changes what a later pruning keeps. */
  lemma {:induction false} LiveLive(ts: seq<real>, now: real, later: real, w: int)
    requires now <= later
    ensures Live(Live(ts, now, w), later, w) == Live(ts, later, w)
  {
    if ts != [] {
      LiveLive(Front(ts), now, later, w);
      var early := Live(Front(ts), now, w);
      assert early + [] == early;
      LiveAppend(early, Last(ts), later, w);
    }
  }

  lemma CountAppend(ts: seq<real>, more: seq<real>, t: real)
    ensures multiset(ts + more)[t] == multiset(ts)[t] + multiset(more)[t]
  {
    assert multiset(ts + more) == multiset(ts) + multiset(more);
  }

  lemma {:induction false} LiveCount(ts: seq<real>, now: real, w: int, t: real)
    ensures multiset(Live(ts, now, w))[t] == if now - t < w as real then multiset(ts)[t] else 0
  {
    if ts != [] {
      var front, last := Front(ts), Last(ts);
      LiveCount(front, now, w, t);
      LiveAppend(front, last, now, w);
      assert ts == front + [last];
      hide Live;
      CountAppend(front, [last], t);
      CountAppend(Live(front, now, w), if now - last < w as real then [last] else [], t);
    }
  }

  lemma LiveMonotone(ts: seq<real>, us: seq<real>, now: real, w: int)
    requires multiset(ts) <= multiset(us)
    ensures multiset(Live(ts, now, w)) <= multiset(Live(us, now, w))
    ensures |Live(ts, now, w)| <= |Live(us, now, w)|
  {
    var a, b := multiset(Live(ts, now, w)), multiset(Live(us, now, w));
    forall t
      ensures a[t] <= b[t]
    {
      LiveCount(ts, now, w, t);
      LiveCount(us, now, w, t);
    }
    assert b == a + (b - a);
    assert |b| == |a| + |b - a|;
  }

  // ---------------------------------------------------------------- one step, seen from one key

  function Aged(c: Config, s: State, key: Key, now: real, k: Key): seq<real> {
    var ts := if now - s.lastCleanup > c.windowSeconds as real
              then Live(s.Stamps(k), now, c.windowSeconds) else s.Stamps(k);
    if k == key then Live(ts, now, c.windowSeconds) else ts
  }

  lemma ArrivedStamps(c: Config, s: State, key: Key, now: real, k: Key)
    ensures Arrived(c, s, key, now).Stamps(k) == Aged(c, s, key, now, k)
  {
  }

  lemma SettledStamps(c: Config, s: State, gone: set<Key>, key: Key, now: real, k: Key)
    ensures var r := Settled(c, s, gone, key, now);
            var ts := if k in gone then [] else s.Stamps(k);
            && r.1.Stamps(k) == ts + (if k == key && r.0 then [now] else [])
            && (k == key ==> r.0 == (|ts| < c.maxRequests))
  {
  }

  /** What a run's last call does to one key's stamps. */
  lemma StampsAfter(c: Config, start: real, calls: seq<Call>, k: Key)
    requires calls != [] && c.enabled
    ensures var s, call := After(c, start, Front(calls)), Last(calls);
            var ts := if k in EvictedBy(c, start, calls) then [] else Aged(c, s, call.key, call.now, k);
            && After(c, start, calls).Stamps(k)
               == ts + (if k == call.key && Answer(c, start, calls) then [call.now] else [])
            && (k == call.key ==> Answer(c, start, calls) == (|ts| < c.maxRequests))
  {
    var s, call := After(c, start, Front(calls)), Last(calls);
    ArrivedValid(c, s, call.key, call.now);
    ArrivedStamps(c, s, call.key, call.now, k);
    SettledStamps(c, Arrived(c, s, call.key, call.now), EvictedBy(c, start, calls), call.key, call.now, k);
  }

  lemma AgedLive(c: Config, s: State, key: Key, now: real, k: Key, later: real)
    requires now <= later
    ensures Live(Aged(c, s, key, now, k), later, c.windowSeconds) == Live(s.Stamps(k), later, c.windowSeconds)
  {
    LiveLive(s.Stamps(k), now, later, c.windowSeconds);
    LiveLive(Live(s.Stamps(k), now, c.windowSeconds), now, later, c.windowSeconds);
  }

  // ---------------------------------------------------------------- the sliding window

  /** The tracker of a key that was never evicted and the full record of its grants look alike to
      every later pruning, however many cleanups came between. */
  lemma {:induction false} TrackerMatchesGrants(c: Config, start: real, calls: seq<Call>, k: Key, later: real)
    requires c.enabled && ClockNeverGoesBack(calls) && NeverEvicted(c, start, calls, k)
    requires calls != [] ==> Last(calls).now <= later
    ensures Live(After(c, start, calls).Stamps(k), later, c.windowSeconds)
         == Live(Grants(c, start, calls, k), later, c.windowSeconds)
    decreases |calls|
  {
    if calls != [] {
      var s, call := After(c, start, Front(calls)), Last(calls);
      TrackerMatchesGrants(c, start, Front(calls), k, later);
      StampsAfter(c, start, calls, k);
      AgedLive(c, s, call.key, call.now, k, later);
      LiveAppendBoth(Aged(c, s, call.key, call.now, k), Grants(c, start, Front(calls), k),
                     if k == call.key && Answer(c, start, calls) then [call.now] else [], later, c.windowSeconds);
    }
  }

  lemma LiveAppendBoth(ts: seq<real>, us: seq<real>, more: seq<real>, now: real, w: int)
    requires |more| <= 1 && Live(ts, now, w) == Live(us, now, w)
    ensures Live(ts + more, now, w) == Live(us + more, now, w)
  {
    if more == [] {
      assert ts + more == ts && us + more == us;
    } else {
      assert more == [more[0]];
      LiveAppend(ts, more[0], now, w);
      LiveAppend(us, more[0], now, w);
    }
  }

  /** Main result: on a clock that never goes back, a call for a key that was never evicted is
      granted exactly when fewer than `maxRequests` earlier grants are still inside the window. */
  lemma RefinesSlidingWindow(c: Config, start: real, calls: seq<Call>)
    requires c.enabled && calls != [] && ClockNeverGoesBack(calls)
    requires NeverEvicted(c, start, calls, Last(calls).key)
    ensures var call := Last(calls);
            Answer(c, start, calls) <==>
            |Live(Grants(c, start, Front(calls), call.key), call.now, c.windowSeconds)| < c.maxRequests
  {
    var s, call, w := After(c, start, Front(calls)), Last(calls), c.windowSeconds;
    StampsAfter(c, start, calls, call.key);
    TrackerMatchesGrants(c, start, Front(calls), call.key, call.now);
    LiveLive(s.Stamps(call.key), call.now, call.now, w);
  }

  /** So no window of a never evicted key ever holds more than `maxRequests` grants. */
  lemma {:induction false} WindowNeverOverfull(c: Config, start: real, calls: seq<Call>, k: Key, later: real)
    requires c.enabled && c.maxRequests >= 0 && ClockNeverGoesBack(calls) && NeverEvicted(c, start, calls, k)
    requires calls != [] ==> Last(calls).now <= later
    ensures |Live(Grants(c, start, calls, k), later, c.windowSeconds)| <= c.maxRequests
    decreases |calls|
  {
    if calls != [] {
      WindowNeverOverfull(c, start, Front(calls), k, later);
      var call, grants := Last(calls), Grants(c, start, Front(calls), k);
      if k == call.key && Answer(c, start, calls) {
        RefinesSlidingWindow(c, start, calls);
        OneMoreGrant(c, grants, call.now, later);
      } else {
        assert Grants(c, start, calls, k) == grants;
      }
    }
  }

  lemma OneMoreGrant(c: Config, grants: seq<real>, now: real, later: real)
    requires now <= later && |Live(grants, now, c.windowSeconds)| < c.maxRequests
    ensures |Live(grants + [now], later, c.windowSeconds)| <= c.maxRequests
  {
    LiveFewer(grants, now, later, c.windowSeconds);
    LiveAppend(grants, now, later, c.windowSeconds);
  }

  lemma LiveFewer(ts: seq<real>, now: real, later: real, w: int)
    requires now <= later
    ensures |Live(ts, later, w)| <= |Live(ts, now, w)|
  {
    LiveLive(ts, now, later, w);
    LiveLonger(Live(ts, now, w), later, w);
  }

  lemma {:induction false} LiveLonger(ts: seq<real>, now: real, w: int)
    ensures |Live(ts, now, w)| <= |ts|
  {
    if ts != [] {
      LiveLonger(Front(ts), now, w);
    }
  }

  /** Whatever was evicted and however the clock ran, a refusal is backed by real grants. */
  lemma RefusalIsJustified(c: Config, start: real, calls: seq<Call>)
    requires c.enabled && calls != [] && !Answer(c, start, calls)
    ensures |Live(Grants(c, start, Front(calls), Last(calls).key), Last(calls).now, c.windowSeconds)| >= c.maxRequests
  {
    var s, call, w := After(c, start, Front(calls)), Last(calls), c.windowSeconds;
    StampsAfter(c, start, calls, call.key);
    TrackedWereGranted(c, start, Front(calls), call.key);
    var ts := s.Stamps(call.key);
    LiveMonotone(ts, Grants(c, start, Front(calls), call.key), call.now, w);
    LiveLive(ts, call.now, call.now, w);
    LiveLonger(Live(ts, call.now, w), call.now, w);
  }

  lemma {:induction false} TrackedWereGranted(c: Config, start: real, calls: seq<Call>, k: Key)
    requires c.enabled
    ensures multiset(After(c, start, calls).Stamps(k)) <= multiset(Grants(c, start, calls, k))
    decreases |calls|
  {
    if calls != [] {
      var s, call := After(c, start, Front(calls)), Last(calls);
      TrackedWereGranted(c, start, Front(calls), k);
      StampsAfter(c, start, calls, k);
      AgedSubset(c, s, call.key, call.now, k);
    }
  }

  lemma AgedSubset(c: Config, s: State, key: Key, now: real, k: Key)
    ensures multiset(Aged(c, s, key, now, k)) <= multiset(s.Stamps(k))
  {
    var ts, w := s.Stamps(k), c.windowSeconds;
    forall t
      ensures multiset(Aged(c, s, key, now, k))[t] <= multiset(ts)[t]
    {
      LiveCount(ts, now, w, t);
      LiveCount(Live(ts, now, w), now, w, t);
    }
  }

  // ---------------------------------------------------------------- runs over few keys

  function CalledKeys(calls: seq<Call>): set<Key> {
    set call | call in calls :: call.key
  }

  lemma CalledKeysFront(calls: seq<Call>)
    requires calls != []
    ensures CalledKeys(calls) == CalledKeys(Front(calls)) + {Last(calls).key}
  {
    assert calls == Front(calls) + [Last(calls)];
  }

  lemma CardinalityMonotone<T>(a: set<T>, b: set<T>)
    requires a <= b
    ensures |a| <= |b|
  {
    assert b == a + (b - a);
  }

  lemma ArrivedKeys(c: Config, s: State, key: Key, now: real)
    ensures Arrived(c, s, key, now).stamps.Keys <= s.stamps.Keys + {key}
  {
    hide Live;
  }

  lemma CheckKeys(c: Config, s: State, key: Key, now: real)
    requires Arrived(c, s, key, now).Valid()
    ensures CheckStep(c, s, key, now).1.stamps.Keys <= s.stamps.Keys + {key}
  {
    ArrivedKeys(c, s, key, now);
    hide Arrived, Evicted;
  }

  lemma {:induction false} TracksOnlyCalledKeys(c: Config, start: real, calls: seq<Call>)
    ensures After(c, start, calls).stamps.Keys <= CalledKeys(calls)
    ensures calls != [] ==>
              var s, call := After(c, start, Front(calls)), Last(calls);
              Arrived(c, s, call.key, call.now).stamps.Keys <= CalledKeys(calls)
    decreases |calls|
  {
    hide CheckStep, Arrived;
    if calls != [] {
      TracksOnlyCalledKeys(c, start, Front(calls));
      CalledKeysFront(calls);
      var s, call := After(c, start, Front(calls)), Last(calls);
      hide CalledKeys;
      CheckStepValid(c, s, call.key, call.now);
      ArrivedKeys(c, s, call.key, call.now);
      CheckKeys(c, s, call.key, call.now);
    }
  }

  lemma {:induction false} FewKeysNeverEvicted(c: Config, start: real, calls: seq<Call>, k: Key)
    requires |CalledKeys(calls)| <= c.maxKeys
    ensures NeverEvicted(c, start, calls, k)
    decreases |calls|
  {
    if calls != [] {
      CalledKeysFront(calls);
      CardinalityMonotone(CalledKeys(Front(calls)), CalledKeys(calls));
      FewKeysNeverEvicted(c, start, Front(calls), k);
      TracksOnlyCalledKeys(c, start, calls);
      var s2 := Arrived(c, After(c, start, Front(calls)), Last(calls).key, Last(calls).now);
      CardinalityMonotone(s2.stamps.Keys, CalledKeys(calls));
      assert |s2.stamps| == |s2.stamps.Keys|;
    }
  }

  /** A sliding window limiter with no cache at all: only the calls and its own answers. */
  function WindowAnswers(c: Config, calls: seq<Call>): (r: seq<bool>)
    ensures |r| == |calls|
    decreases |calls|
  {
    if calls == [] then []
    else
      var past := WindowAnswers(c, Front(calls));
      past + [|Live(GrantTimes(Front(calls), past, Last(calls).key), Last(calls).now, c.windowSeconds)| < c.maxRequests]
  }

  function GrantTimes(calls: seq<Call>, answers: seq<bool>, key: Key): seq<real>
    requires |calls| == |answers|
    decreases |calls|
  {
    if calls == [] then []
    else
      GrantTimes(Front(calls), Front(answers), key) +
      if Last(calls).key == key && Last(answers) then [Last(calls).now] else []
  }

  function Answers(c: Config, start: real, calls: seq<Call>): (r: seq<bool>)
    ensures |r| == |calls|
    decreases |calls|
  {
    if calls == [] then [] else Answers(c, start, Front(calls)) + [Answer(c, start, calls)]
  }

  lemma {:induction false} GrantTimesOfAnswers(c: Config, start: real, calls: seq<Call>, key: Key)
    ensures GrantTimes(calls, Answers(c, start, calls), key) == Grants(c, start, calls, key)
    decreases |calls|
  {
    if calls != [] {
      GrantTimesOfAnswers(c, start, Front(calls), key);
      assert Front(Answers(c, start, calls)) == Answers(c, start, Front(calls));
    }
  }

  /** Main result: over at most `maxKeys` destinations the whole answer sequence is the sliding
      window's, whatever `start` is, so neither the cache nor its cleanups can be observed. */
  lemma {:induction false} SameAnswersAsWindow(c: Config, start: real, calls: seq<Call>)
    requires c.enabled && ClockNeverGoesBack(calls) && |CalledKeys(calls)| <= c.maxKeys
    ensures Answers(c, start, calls) == WindowAnswers(c, calls)
    decreases |calls|
  {
    if calls != [] {
      CalledKeysFront(calls);
      CardinalityMonotone(CalledKeys(Front(calls)), CalledKeys(calls));
      SameAnswersAsWindow(c, start, Front(calls));
      FewKeysNeverEvicted(c, start, calls, Last(calls).key);
      RefinesSlidingWindow(c, start, calls);
      GrantTimesOfAnswers(c, start, Front(calls), Last(calls).key);
    }
  }

  // ---------------------------------------------------------------- how many keys are tracked

  function Max(a: int, b: int): int {
    if a < b then b else a
  }

  lemma {:induction false} SizeDistinct(xs: seq<Key>)
    requires |Elements(xs)| == |xs|
    ensures Distinct(xs)
  {
    if xs != [] {
      assert Front(xs) + [Last(xs)] == xs;
      ElementsExtend(Front(xs), Last(xs));
      ElementsBound(Front(xs));
      SizeDistinct(Front(xs));
    }
  }

  lemma {:induction false} ElementsBound(xs: seq<Key>)
    ensures |Elements(xs)| <= |xs|
  {
    if xs != [] {
      assert Front(xs) + [Last(xs)] == xs;
      ElementsExtend(Front(xs), Last(xs));
      ElementsBound(Front(xs));
    }
  }

  /** An eviction removes a tenth of the keys, at least one ... */
  lemma VictimsCount(s: State)
    requires s.Valid() && s.stamps != map[]
    ensures Elements(Victims(s)) <= s.stamps.Keys
    ensures |Elements(Victims(s))| == Max(1, |s.stamps| / 10) <= |s.stamps|
  {
    assert forall k :: k in s.keys ==> k in Elements(s.keys);
    var order := ByActivity(s.keys, Latest(s));
    ByActivityOrdered(s.keys, Latest(s));
    DistinctSize(s.keys);
    assert |s.stamps| == |s.stamps.Keys| == |order|;
    PrefixCount(order, Quota(|order|));
  }

  lemma PrefixCount(order: seq<Key>, q: nat)
    requires q <= |order| == |Elements(order)|
    ensures Elements(order[..q]) <= Elements(order) && |Elements(order[..q])| == q
  {
    SizeDistinct(order);
    DistinctPrefix(order, q);
    DistinctSize(order[..q]);
  }

  /** ... and they are the least recently active. */
  lemma VictimsAreOldest(s: State, v: Key, k: Key)
    requires s.Valid() && v in Victims(s) && k in s.stamps && k !in Victims(s)
    ensures v in s.stamps && Activity(s.stamps[v]) <= Activity(s.stamps[k])
  {
    assert forall k :: k in s.keys ==> k in Elements(s.keys);
    var order := ByActivity(s.keys, Latest(s));
    ByActivityOrdered(s.keys, Latest(s));
    assert v in Elements(order) && k in Elements(order);
    OrderedPrefix(order, Latest(s), |Victims(s)|, v, k);
  }

  lemma OrderedPrefix(order: seq<Key>, latest: map<Key, real>, q: nat, v: Key, k: Key)
    requires q <= |order| && Ordered(order, latest)
    requires v in order[..q] && k in order && k !in order[..q] && v in latest && k in latest
    ensures latest[v] <= latest[k]
  {
    var i :| 0 <= i < q && order[i] == v;
    var j :| 0 <= j < |order| && order[j] == k;
    assert j < q ==> order[..q][j] == k;
  }

  lemma SettledSize(c: Config, s: State, gone: set<Key>, key: Key, now: real)
    requires key in s.stamps && gone <= s.stamps.Keys
    ensures |Settled(c, s, gone, key, now).1.stamps| == |s.stamps| - |gone| + if key in gone then 1 else 0
  {
    var s' := s.Delete(gone);
    assert s'.stamps.Keys == s.stamps.Keys - gone;
    assert |s'.stamps| == |s.stamps.Keys - gone| == |s.stamps| - |gone|;
    var r := Settled(c, s, gone, key, now).1;
    assert r.stamps.Keys == s'.stamps.Keys + {key};
    assert |r.stamps| == |s'.stamps.Keys + {key}|;
  }

  lemma ArrivedSize(c: Config, s: State, key: Key, now: real)
    ensures |Arrived(c, s, key, now).stamps| <= |s.stamps| + 1
    ensures key in Arrived(c, s, key, now).stamps
  {
    var s1 := Swept(c, s, now);
    CardinalityMonotone(s1.stamps.Keys, s.stamps.Keys);
    assert |s1.stamps| == |s1.stamps.Keys| && |s.stamps| == |s.stamps.Keys|;
    var s2 := Arrived(c, s, key, now);
    assert s2.stamps.Keys == s1.stamps.Keys + {key};
    assert |s2.stamps| == |s1.stamps.Keys + {key}|;
  }

  /** Main result: no run ever tracks more than max(maxKeys, 19) keys. */
  lemma {:induction false} TrackedKeysBounded(c: Config, start: real, calls: seq<Call>)
    ensures |After(c, start, calls).stamps| <= Max(c.maxKeys, 19)
    decreases |calls|
  {
    if calls != [] {
      TrackedKeysBounded(c, start, Front(calls));
      if c.enabled {
        BoundStep(c, After(c, start, Front(calls)), Last(calls).key, Last(calls).now);
      }
    }
  }

  lemma BoundStep(c: Config, s: State, key: Key, now: real)
    requires s.Valid() && c.enabled && |s.stamps| <= Max(c.maxKeys, 19)
    ensures Arrived(c, s, key, now).Valid()
    ensures |CheckStep(c, s, key, now).1.stamps| <= Max(c.maxKeys, 19)
  {
    ArrivedValid(c, s, key, now);
    ArrivedSize(c, s, key, now);
    var s2, gone := Arrived(c, s, key, now), Evicted(c, s, key, now);
    if |s2.stamps| > c.maxKeys {
      VictimsCount(s2);
    }
    SettledSize(c, s2, gone, key, now);
  }

  /** The `i`-th of a family of different destinations. */
  function Host(i: nat): (k: Key)
    ensures |k.host| == i
  {
    Key(seq(i, _ => 'h'))
  }

  /** One call to each of the first `n` hosts, all at second one. */
  function Flood(n: nat): (calls: seq<Call>)
    ensures |calls| == n
  {
    if n == 0 then [] else Flood(n - 1) + [Call(Host(n - 1), 1.0)]
  }

  ghost predicate Flooded(s: State, n: nat) {
    && s.Valid() && s.lastCleanup == 1.0
    && |s.stamps| == n
    && (forall k :: k in s.stamps ==> s.stamps[k] == [1.0])
    && (forall i: nat :: n <= i ==> Host(i) !in s.stamps)
  }

  /** A newcomer without requests is the one and only victim of its own call. */
  lemma NewcomerEvicted(s: State, key: Key)
    requires s.Valid() && key in s.stamps && s.stamps[key] == [] && |s.stamps| <= 19
    requires forall k :: k in s.stamps && k != key ==> s.stamps[k] == [1.0]
    ensures Elements(Victims(s)) == {key}
  {
    VictimsCount(s);
    var gone := Elements(Victims(s));
    var v :| v in gone;
    if key !in gone {
      VictimsAreOldest(s, v, key);
    }
    OnlyMember(gone, key);
  }

  lemma FloodStep(c: Config, s: State, n: nat)
    requires c.enabled && c.maxRequests >= 1 && c.windowSeconds > 0 && c.maxKeys < 19
    requires Flooded(s, n) && n <= Max(c.maxKeys, 0)
    ensures Arrived(c, s, Host(n), 1.0).Valid()
    ensures Flooded(CheckStep(c, s, Host(n), 1.0).1, n + 1)
  {
    var key := Host(n);
    ArrivedValid(c, s, key, 1.0);
    FloodArrived(c, s, n);
    var s2, gone := Arrived(c, s, key, 1.0), Evicted(c, s, key, 1.0);
    if |s2.stamps| > c.maxKeys {
      NewcomerEvicted(s2, key);
    }
    FloodSettled(c, s2, gone, n);
  }

  lemma FloodArrived(c: Config, s: State, n: nat)
    requires c.windowSeconds > 0 && Flooded(s, n)
    ensures var s2 := Arrived(c, s, Host(n), 1.0);
            && s2.lastCleanup == 1.0 && |s2.stamps| == n + 1
            && s2.stamps == s.stamps[Host(n) := []]
  {
    var s2 := Arrived(c, s, Host(n), 1.0);
    assert s2 == s.Put(Host(n), []);
    assert s2.stamps.Keys == s.stamps.Keys + {Host(n)};
    assert |s2.stamps| == |s.stamps.Keys + {Host(n)}| == n + 1;
  }

  lemma FloodSettled(c: Config, s: State, gone: set<Key>, n: nat)
    requires c.maxRequests >= 1 && s.Valid() && s.lastCleanup == 1.0 && |s.stamps| == n + 1
    requires Host(n) in s.stamps && s.stamps[Host(n)] == [] && gone <= {Host(n)}
    requires forall k :: k in s.stamps && k != Host(n) ==> s.stamps[k] == [1.0]
    requires forall i: nat :: n < i ==> Host(i) !in s.stamps
    ensures Flooded(Settled(c, s, gone, Host(n), 1.0).1, n + 1)
  {
    SettledValid(c, s, gone, Host(n), 1.0);
    var r := Settled(c, s, gone, Host(n), 1.0).1;
    var s' := s.Delete(gone);
    var none: seq<real> := s'.Stamps(Host(n));
    assert none == [] && none + [1.0] == [1.0];
    assert r == s'.Put(Host(n), none + [1.0]);
    assert r.stamps.Keys == s'.stamps.Keys + {Host(n)};
    assert r.stamps.Keys == s.stamps.Keys;
    assert |r.stamps| == |r.stamps.Keys| == |s.stamps.Keys| == |s.stamps|;
  }

  lemma OnlyMember<T>(s: set<T>, x: T)
    requires |s| == 1 && x in s
    ensures s == {x}
  {
    assert |s - {x}| == 0;
  }

  lemma {:induction false} FloodFills(c: Config, n: nat)
    requires c.enabled && c.maxRequests >= 1 && c.windowSeconds > 0 && c.maxKeys < 19
    requires n <= Max(c.maxKeys, 0) + 1
    ensures Flooded(After(c, 1.0, Flood(n)), n)
  {
    if n > 0 {
      FloodFills(c, n - 1);
      FloodStep(c, After(c, 1.0, Flood(n - 1)), n - 1);
      AfterOneMore(c, 1.0, Flood(n - 1), Call(Host(n - 1), 1.0));
    }
  }

  lemma AfterOneMore(c: Config, start: real, calls: seq<Call>, call: Call)
    ensures Arrived(c, After(c, start, calls), call.key, call.now).Valid()
    ensures After(c, start, calls + [call]) == CheckStep(c, After(c, start, calls), call.key, call.now).1
  {
    CheckStepValid(c, After(c, start, calls), call.key, call.now);
    assert Front(calls + [call]) == calls;
  }

  /** Main result: `max_keys` really is a maximum exactly when it is at least 19. Below that, the
      key a call just evicted is tracked again by the same call. */
  lemma MaxKeysHoldsExactlyFrom19(c: Config)
    requires c.enabled && c.maxRequests >= 1 && c.windowSeconds > 0
    ensures (forall start, calls :: |After(c, start, calls).stamps| <= c.maxKeys) <==> c.maxKeys >= 19
  {
    if c.maxKeys >= 19 {
      forall start, calls
        ensures |After(c, start, calls).stamps| <= c.maxKeys
      {
        TrackedKeysBounded(c, start, calls);
      }
    } else {
      var n := Max(c.maxKeys, 0) + 1;
      FloodFills(c, n);
      assert |After(c, 1.0, Flood(n)).stamps| > c.maxKeys;
    }
  }

  // ---------------------------------------------------------------- ties among the oldest

  predicate Precedes(xs: seq<Key>, a: Key, b: Key) {
    exists i, j :: 0 <= i < j < |xs| && xs[i] == a && xs[j] == b
  }

  lemma PrecedesAppend(xs: seq<Key>, x: Key, a: Key, b: Key)
    ensures Precedes(xs, a, b) ==> Precedes(xs + [x], a, b)
    ensures a in xs ==> Precedes(xs + [x], a, x)
  {
    var r := xs + [x];
    if Precedes(xs, a, b) {
      var i, j :| 0 <= i < j < |xs| && xs[i] == a && xs[j] == b;
      assert r[i] == a && r[j] == b;
    }
    if a in xs {
      var i :| 0 <= i < |xs| && xs[i] == a;
      assert r[i] == a && r[|xs|] == x;
    }
  }

  lemma PrecedesFront(xs: seq<Key>, a: Key, b: Key)
    requires xs != [] && Precedes(xs, a, b)
    ensures Precedes(Front(xs), a, b) || (b == Last(xs) && a in Front(xs))
  {
    var i, j :| 0 <= i < j < |xs| && xs[i] == a && xs[j] == b;
    assert Front(xs)[i] == a;
    if j < |xs| - 1 {
      assert Front(xs)[j] == b;
    }
  }

  lemma {:induction false} InsertedKeepsOrder(xs: seq<Key>, x: Key, latest: map<Key, real>, a: Key, b: Key)
    requires x in latest && (forall y :: y in xs ==> y in latest) && Precedes(xs, a, b)
    ensures Precedes(Inserted(xs, x, latest), a, b)
    decreases |xs|
  {
    hide Precedes;
    if xs == [] || latest[xs[|xs| - 1]] <= latest[x] {
      PrecedesAppend(xs, x, a, b);
    } else {
      PrecedesFront(xs, a, b);
      assert forall y :: y in Front(xs) ==> y in xs;
      var r := Inserted(Front(xs), x, latest);
      if Precedes(Front(xs), a, b) {
        InsertedKeepsOrder(Front(xs), x, latest, a, b);
      } else {
        assert a in multiset(Front(xs)) && a in multiset(r);
      }
      PrecedesAppend(r, Last(xs), a, b);
    }
  }

  lemma {:induction false} InsertedBehind(xs: seq<Key>, x: Key, latest: map<Key, real>, a: Key)
    requires x in latest && (forall y :: y in xs ==> y in latest) && a in xs && latest[a] <= latest[x]
    ensures Precedes(Inserted(xs, x, latest), a, x)
    decreases |xs|
  {
    hide Precedes;
    if latest[xs[|xs| - 1]] <= latest[x] {
      PrecedesAppend(xs, x, a, x);
    } else {
      assert a != Last(xs) && xs == Front(xs) + [Last(xs)];
      assert a in Front(xs) && forall y :: y in Front(xs) ==> y in xs;
      InsertedBehind(Front(xs), x, latest, a);
      PrecedesAppend(Inserted(Front(xs), x, latest), Last(xs), a, x);
    }
  }

  /** Sorting by activity keeps the order of keys that were active at the same time. */
  lemma {:induction false} ByActivityStable(keys: seq<Key>, latest: map<Key, real>, i: nat, j: nat)
    requires (forall k :: k in keys ==> k in latest) && i < j < |keys| && latest[keys[i]] <= latest[keys[j]]
    ensures Precedes(ByActivity(keys, latest), keys[i], keys[j])
    decreases |keys|
  {
    hide Precedes, Inserted;
    var n, front := |keys| - 1, Front(keys);
    var r := ByActivity(front, latest);
    assert forall k :: k in front ==> k in keys;
    assert forall k :: k in r ==> k in latest by {
      assert forall k :: k in r ==> k in multiset(front);
    }
    assert front[i] == keys[i];
    if j < n {
      ByActivityStable(front, latest, i, j);
      InsertedKeepsOrder(r, keys[n], latest, keys[i], keys[j]);
    } else {
      assert keys[i] in multiset(front) && keys[i] in multiset(r);
      InsertedBehind(r, keys[n], latest, keys[i]);
    }
  }

  lemma TwiceCounted(xs: seq<Key>, i: nat, j: nat)
    requires i < j < |xs| && xs[i] == xs[j]
    ensures multiset(xs)[xs[i]] >= 2
  {
    assert xs == xs[..j] + xs[j..];
    assert xs[..j][i] in multiset(xs[..j]) && xs[j..][0] in multiset(xs[j..]);
  }

  lemma {:induction false} DistinctCount(xs: seq<Key>, x: Key)
    requires Distinct(xs)
    ensures multiset(xs)[x] <= 1
  {
    if xs != [] {
      DistinctCount(Front(xs), x);
      assert xs == Front(xs) + [Last(xs)];
      if x == Last(xs) {
        assert x !in Front(xs);
      }
    }
  }

  /** Main result: of keys whose latest requests are equally old, those tracked longer go first. */
  lemma TiesGoByAge(s: State, i: nat, j: nat)
    requires s.Valid() && i < j < |s.keys|
    requires s.keys[i] in s.stamps && s.keys[j] in s.stamps
    requires Activity(s.stamps[s.keys[i]]) == Activity(s.stamps[s.keys[j]]) && s.keys[j] in Victims(s)
    ensures s.keys[i] in Victims(s)
  {
    hide Precedes, Activity, ByActivity;
    assert forall k :: k in s.keys ==> k in Elements(s.keys);
    var order, a, b := ByActivity(s.keys, Latest(s)), s.keys[i], s.keys[j];
    ByActivityStable(s.keys, Latest(s), i, j);
    DistinctCount(s.keys, b);
    PrefixHolds(order, Victims(s), a, b);
  }

  lemma PrefixHolds(order: seq<Key>, prefix: seq<Key>, a: Key, b: Key)
    requires prefix <= order && Precedes(order, a, b) && multiset(order)[b] <= 1 && b in prefix
    ensures a in prefix
  {
    var i, j :| 0 <= i < j < |order| && order[i] == a && order[j] == b;
    var k :| 0 <= k < |prefix| && prefix[k] == b;
    assert order[k] == b;
    if k < j {
      TwiceCounted(order, k, j);
    } else if j < k {
      TwiceCounted(order, j, k);
    }
    assert prefix[i] == order[i];
  }

  // ---------------------------------------------------------------- the periodic cleanup

  predicate AnyLive(ts: seq<real>, now: real, window: int) {
    exists i :: 0 <= i < |ts| && now - ts[i] < window as real
  }

  lemma {:induction false} LiveUnlessOld(ts: seq<real>, now: real, window: int)
    ensures Live(ts, now, window) != [] <==> AnyLive(ts, now, window)
  {
    if ts != [] {
      LiveUnlessOld(Front(ts), now, window);
      assert forall i :: 0 <= i < |ts| - 1 ==> Front(ts)[i] == ts[i];
      if now - Last(ts) < window as real {
        assert now - ts[|ts| - 1] < window as real;
      }
    }
  }

  /** Main result: a call later than the window after the last cleanup forgets every other key whose
      requests are all older than the window; any other call leaves the time of the cleanup alone. */
  lemma SweepForgets(c: Config, s: State, key: Key, now: real, k: Key)
    requires c.enabled && s.Valid() && Arrived(c, s, key, now).Valid() && k != key
    ensures var s' := CheckStep(c, s, key, now).1;
            if now - s.lastCleanup > c.windowSeconds as real then
              && s'.lastCleanup == now
              && (k in s'.stamps ==> k in s.stamps && AnyLive(s.stamps[k], now, c.windowSeconds)
                                     && s'.stamps[k] == Live(s.stamps[k], now, c.windowSeconds))
            else
              && s'.lastCleanup == s.lastCleanup
              && (k in s'.stamps ==> k in s.stamps && s'.stamps[k] == s.stamps[k])
  {
    if k in s.stamps {
      LiveUnlessOld(s.stamps[k], now, c.windowSeconds);
    }
    ArrivedOthers(c, s, key, now, k);
    SettledOthers(c, Arrived(c, s, key, now), Evicted(c, s, key, now), key, now, k);
    hide Live, AnyLive, Evicted, Without, Elements, Distinct, Arrived, Settled;
  }

  lemma ArrivedOthers(c: Config, s: State, key: Key, now: real, k: Key)
    requires k != key
    ensures var s' := Arrived(c, s, key, now);
            if now - s.lastCleanup > c.windowSeconds as real then
              && s'.lastCleanup == now
              && (k in s'.stamps ==> k in s.stamps && Live(s.stamps[k], now, c.windowSeconds) != []
                                     && s'.stamps[k] == Live(s.stamps[k], now, c.windowSeconds))
            else
              && s'.lastCleanup == s.lastCleanup
              && (k in s'.stamps ==> k in s.stamps && s'.stamps[k] == s.stamps[k])
  {
    hide Live, Without;
  }

  lemma SettledOthers(c: Config, s: State, gone: set<Key>, key: Key, now: real, k: Key)
    requires k != key
    ensures var s' := Settled(c, s, gone, key, now).1;
            && s'.lastCleanup == s.lastCleanup
            && (k in s'.stamps ==> k in s.stamps && s'.stamps[k] == s.stamps[k])
  {
    hide Without;
  }

  /** Switched off, the limiter grants everything and remembers nothing. */
  lemma DisabledGrants(c: Config, s: State, key: Key, now: real)
    requires !c.enabled && Arrived(c, s, key, now).Valid()
    ensures CheckStep(c, s, key, now) == (true, s)
  {
    hide Arrived, Settled;
  }
}
