/** cowrie-source/core/rate_limiter.py: a cache of request times per key, pruned as it is used
    and evicting the least active keys when it grows too large. */
module RateLimiting {

  // ---------------------------------------------------------------- lists of distinct keys

  /** A rate-limited destination: a host name or an address. */
  datatype Key = Key(host: string)

  function Elements(xs: seq<Key>): set<Key> {
    set x | x in xs
  }

  predicate Distinct(xs: seq<Key>) {
    xs == [] || (Distinct(xs[..|xs| - 1]) && xs[|xs| - 1] !in xs[..|xs| - 1])
  }

  function Without(keys: seq<Key>, gone: set<Key>): seq<Key> {
    if keys == [] then []
    else
      var n := |keys| - 1;
      Without(keys[..n], gone) + if keys[n] in gone then [] else [keys[n]]
  }

  lemma ElementsExtend(keys: seq<Key>, key: Key)
    ensures Elements(keys + [key]) == Elements(keys) + {key}
    ensures Distinct(keys) && key !in keys ==> Distinct(keys + [key])
  {
    assert (keys + [key])[..|keys|] == keys;
  }

  lemma {:induction false} DistinctSize(xs: seq<Key>)
    requires Distinct(xs)
    ensures |Elements(xs)| == |xs|
  {
    if xs != [] {
      var n := |xs| - 1;
      DistinctSize(xs[..n]);
      assert xs[..n] + [xs[n]] == xs;
      ElementsExtend(xs[..n], xs[n]);
    }
  }

  lemma {:induction false} DistinctPrefix(xs: seq<Key>, i: nat)
    requires i <= |xs| && Distinct(xs)
    ensures Distinct(xs[..i])
  {
    if i < |xs| {
      DistinctPrefix(xs[..|xs| - 1], i);
      assert xs[..|xs| - 1][..i] == xs[..i];
    } else {
      assert xs[..i] == xs;
    }
  }

  lemma Extend(xs: seq<Key>, i: nat)
    requires i < |xs| && Distinct(xs)
    ensures Elements(xs[..i + 1]) == Elements(xs[..i]) + {xs[i]}
    ensures xs[i] !in Elements(xs[..i]) && xs[i] in Elements(xs)
  {
    DistinctPrefix(xs, i + 1);
    assert xs[..i + 1][..i] == xs[..i];
  }

  lemma {:induction false} WithoutElements(keys: seq<Key>, gone: set<Key>)
    ensures Elements(Without(keys, gone)) == Elements(keys) - gone
    ensures gone == {} ==> Without(keys, gone) == keys
  {
    if keys != [] {
      var n := |keys| - 1;
      var front := Without(keys[..n], gone);
      WithoutElements(keys[..n], gone);
      assert keys[..n] + [keys[n]] == keys;
      ElementsExtend(keys[..n], keys[n]);
      ElementsExtend(front, keys[n]);
      assert front + [] == front;
    }
  }

  lemma {:induction false} WithoutDistinct(keys: seq<Key>, gone: set<Key>)
    requires Distinct(keys)
    ensures Distinct(Without(keys, gone))
  {
    if keys != [] {
      var n := |keys| - 1;
      var front := Without(keys[..n], gone);
      WithoutDistinct(keys[..n], gone);
      WithoutElements(keys[..n], gone);
      assert keys[n] !in Elements(keys[..n]);
      assert keys[n] !in Elements(front);
      ElementsExtend(front, keys[n]);
      assert front + [] == front;
    }
  }

  // ---------------------------------------------------------------- the tracker

  datatype Config = Config(enabled: bool, maxRequests: int, windowSeconds: int, maxKeys: int)

  /** The limiter's dictionary of request times. `keys` is the dictionary's insertion order, which
      decides how the stable sort in the eviction breaks ties. */
  datatype State = State(keys: seq<Key>, stamps: map<Key, seq<real>>, lastCleanup: real)
  {
    predicate Valid() {
      Distinct(keys) && Elements(keys) == stamps.Keys
    }

    function Stamps(key: Key): seq<real> {
      if key in stamps then stamps[key] else []
    }

    /** The assignment `tracker[key] = ts`; also what reading a missing key of a defaultdict does. */
    function Put(key: Key, ts: seq<real>): State {
      State(if key in stamps then keys else keys + [key], stamps[key := ts], lastCleanup)
    }

    function Delete(gone: set<Key>): State {
      State(Without(keys, gone), stamps - gone, lastCleanup)
    }

    lemma PutValid(key: Key, ts: seq<real>)
      requires Valid()
      ensures Put(key, ts).Valid()
    {
      if key !in stamps {
        ElementsExtend(keys, key);
      }
    }

    lemma DeleteValid(gone: set<Key>)
      requires Valid()
      ensures Delete(gone).Valid() && (gone == {} ==> Delete(gone) == this)
    {
      WithoutElements(keys, gone);
      WithoutDistinct(keys, gone);
    }

    lemma PutTwice(key: Key, ts: seq<real>, ts': seq<real>)
      ensures Put(key, ts).Put(key, ts') == Put(key, ts')
    {
      assert stamps[key := ts][key := ts'] == stamps[key := ts'];
    }
  }

  /** The time stamps less than `window` seconds old at `now`. */
  function Live(ts: seq<real>, now: real, window: int): (r: seq<real>)
  {
    if ts == [] then []
    else
      var t := ts[|ts| - 1];
      Live(ts[..|ts| - 1], now, window) + if now - t < window as real then [t] else []
  }

  function MaxOf(ts: seq<real>): (m: real)
    requires ts != []
    ensures m in ts && forall t :: t in ts ==> t <= m
  {
    if |ts| == 1 then ts[0]
    else
      var m := MaxOf(ts[1..]);
      assert forall t :: t in ts <==> t == ts[0] || t in ts[1..];
      if m < ts[0] then ts[0] else m
  }

  function Activity(ts: seq<real>): real {
    if ts == [] then 0.0 else MaxOf(ts)
  }

  function Latest(s: State): map<Key, real> {
    map k | k in s.stamps :: Activity(s.stamps[k])
  }

  /** Insertion after the last element that is not more active: a stable sort. */
  function Inserted(xs: seq<Key>, x: Key, latest: map<Key, real>): (r: seq<Key>)
    requires x in latest && forall y :: y in xs ==> y in latest
    ensures multiset(r) == multiset(xs) + multiset{x}
  {
    if xs == [] || latest[xs[|xs| - 1]] <= latest[x] then xs + [x]
    else
      var n := |xs| - 1;
      assert xs == xs[..n] + [xs[n]];
      Inserted(xs[..n], x, latest) + [xs[n]]
  }

  function ByActivity(keys: seq<Key>, latest: map<Key, real>): (r: seq<Key>)
    requires forall k :: k in keys ==> k in latest
    ensures multiset(r) == multiset(keys)
  {
    if keys == [] then []
    else
      var n := |keys| - 1;
      var r := ByActivity(keys[..n], latest);
      assert keys == keys[..n] + [keys[n]];
      assert forall k :: k in r ==> k in latest by {
        assert forall k :: k in r ==> k in multiset(keys[..n]);
      }
      Inserted(r, keys[n], latest)
  }

  predicate Ordered(xs: seq<Key>, latest: map<Key, real>) {
    forall i, j :: 0 <= i < j < |xs| && xs[i] in latest && xs[j] in latest ==> latest[xs[i]] <= latest[xs[j]]
  }

  lemma InsertedAtMost(xs: seq<Key>, x: Key, latest: map<Key, real>, m: real)
    requires x in latest && forall y :: y in xs ==> y in latest
    requires latest[x] <= m && forall y :: y in xs ==> latest[y] <= m
    ensures var r := Inserted(xs, x, latest); forall i :: 0 <= i < |r| ==> r[i] in latest && latest[r[i]] <= m
  {
    var r := Inserted(xs, x, latest);
    hide Inserted;
    forall i | 0 <= i < |r|
      ensures r[i] in latest && latest[r[i]] <= m
    {
      assert r[i] in multiset(r);
      assert r[i] in multiset(xs) + multiset{x};
    }
  }

  lemma OrderedAppend(xs: seq<Key>, last: Key, latest: map<Key, real>)
    requires Ordered(xs, latest) && last in latest
    requires forall i :: 0 <= i < |xs| ==> xs[i] in latest && latest[xs[i]] <= latest[last]
    ensures Ordered(xs + [last], latest)
  {
  }

  /** The last of an ordered list is the most active. */
  lemma OrderedLast(xs: seq<Key>, latest: map<Key, real>)
    requires xs != [] && Ordered(xs, latest) && forall y :: y in xs ==> y in latest
    ensures Ordered(xs[..|xs| - 1], latest)
    ensures forall y :: y in xs[..|xs| - 1] ==> y in latest && latest[y] <= latest[xs[|xs| - 1]]
  {
  }

  lemma {:induction false} InsertedOrdered(xs: seq<Key>, x: Key, latest: map<Key, real>)
    requires x in latest && forall y :: y in xs ==> y in latest
    requires Ordered(xs, latest)
    ensures Ordered(Inserted(xs, x, latest), latest)
    decreases |xs|
  {
    if xs == [] || latest[xs[|xs| - 1]] <= latest[x] {
      if xs != [] {
        OrderedLast(xs, latest);
      }
      OrderedAppend(xs, x, latest);
    } else {
      var front, last := xs[..|xs| - 1], xs[|xs| - 1];
      OrderedLast(xs, latest);
      hide Ordered;
      InsertedOrdered(front, x, latest);
      InsertedAtMost(front, x, latest, latest[last]);
      OrderedAppend(Inserted(front, x, latest), last, latest);
    }
  }

  /** The order of eviction really is by latest activity, and loses no key. */
  lemma {:induction false} ByActivityOrdered(keys: seq<Key>, latest: map<Key, real>)
    requires forall k :: k in keys ==> k in latest
    ensures Ordered(ByActivity(keys, latest), latest)
    ensures Elements(ByActivity(keys, latest)) == Elements(keys) && |ByActivity(keys, latest)| == |keys|
    decreases |keys|
  {
    SameElements(keys, ByActivity(keys, latest));
    if keys != [] {
      var n := |keys| - 1;
      ByActivityOrdered(keys[..n], latest);
      var front := ByActivity(keys[..n], latest);
      SameElements(keys[..n], front);
      assert forall k :: k in front ==> k in Elements(front);
      InsertedOrdered(front, keys[n], latest);
    }
  }

  lemma SameElements(xs: seq<Key>, ys: seq<Key>)
    requires multiset(xs) == multiset(ys)
    ensures Elements(xs) == Elements(ys) && |xs| == |ys|
  {
    assert forall k :: k in xs <==> k in multiset(xs);
    assert forall k :: k in ys <==> k in multiset(ys);
    assert |xs| == |multiset(xs)| == |multiset(ys)| == |ys|;
  }

  /** `max(1, len(sorted_keys) // 10)`. */
  function Quota(n: nat): nat {
    if n / 10 > 1 then n / 10 else 1
  }

  /** The keys `_remove_oldest_keys` deletes. */
  function Victims(s: State): seq<Key>
    requires s.Valid()
  {
    var latest := Latest(s);
    assert forall k :: k in s.keys ==> k in Elements(s.keys);
    var order := ByActivity(s.keys, latest);
    if order == [] then [] else order[..if Quota(|order|) <= |order| then Quota(|order|) else |order|]
  }

  // ---------------------------------------------------------------- one call of `check`

  function Refreshed(s: State, now: real, window: int): map<Key, seq<real>> {
    map k | k in s.stamps :: Live(s.stamps[k], now, window)
  }

  function Expired(s: State, now: real, window: int): set<Key> {
    set k | k in s.stamps && Live(s.stamps[k], now, window) == []
  }

  function CleanedAll(s: State, now: real, window: int): State {
    s.(stamps := Refreshed(s, now, window)).Delete(Expired(s, now, window))
  }

  /** The tracker half way through the cleanup, with the keys of `done` rewritten. */
  ghost function HalfCleaned(s: State, done: set<Key>, now: real, window: int): map<Key, seq<real>> {
    map k | k in s.stamps :: if k in done then Live(s.stamps[k], now, window) else s.stamps[k]
  }

  lemma HalfCleanedStep(s: State, done: set<Key>, k: Key, now: real, window: int)
    requires k in s.stamps && k !in done
    ensures var m := HalfCleaned(s, done, now, window);
            && k in m && m[k] == s.stamps[k]
            && m[k := Live(m[k], now, window)] == HalfCleaned(s, done + {k}, now, window)
  {
  }

  lemma ExpiredStep(s: State, i: nat, now: real, window: int, empties: seq<Key>)
    requires s.Valid() && i < |s.keys|
    requires Elements(empties) == Expired(s, now, window) * Elements(s.keys[..i])
    ensures s.keys[i] in s.stamps
    ensures var more := if Live(s.stamps[s.keys[i]], now, window) == [] then [s.keys[i]] else [];
            Elements(empties + more) == Expired(s, now, window) * Elements(s.keys[..i + 1])
  {
    Extend(s.keys, i);
    ElementsExtend(empties, s.keys[i]);
    assert empties + [] == empties;
  }

  lemma CleanupStarts(s: State, now: real, window: int)
    requires s.Valid()
    ensures HalfCleaned(s, Elements(s.keys[..0]), now, window) == s.stamps
    ensures Elements([]) == Expired(s, now, window) * Elements(s.keys[..0])
  {
  }

  lemma CleanupEnds(s: State, now: real, window: int)
    requires s.Valid()
    ensures HalfCleaned(s, Elements(s.keys[..|s.keys|]), now, window) == Refreshed(s, now, window)
    ensures Expired(s, now, window) * Elements(s.keys[..|s.keys|]) == Expired(s, now, window)
  {
    assert s.keys[..|s.keys|] == s.keys;
  }

  /** The rewritten tracker has the same keys. */
  lemma RefreshedValid(s: State, now: real, window: int)
    requires s.Valid()
    ensures s.(stamps := Refreshed(s, now, window)).Valid()
  {
    assert Refreshed(s, now, window).Keys == s.stamps.Keys;
  }

  lemma DeleteStep(m: map<Key, seq<real>>, gone: seq<Key>, i: nat)
    requires i < |gone|
    ensures m - Elements(gone[..i]) - {gone[i]} == m - Elements(gone[..i + 1])
  {
    assert gone[..i + 1] == gone[..i] + [gone[i]];
    ElementsExtend(gone[..i], gone[i]);
  }

  /** After the periodic cleanup. */
  function Swept(c: Config, s: State, now: real): State {
    if now - s.lastCleanup > c.windowSeconds as real
    then CleanedAll(s, now, c.windowSeconds).(lastCleanup := now)
    else s
  }

  /** After pruning the key, just before the size test. */
  function Arrived(c: Config, s: State, key: Key, now: real): State {
    var s1 := Swept(c, s, now);
    s1.Put(key, Live(s1.Stamps(key), now, c.windowSeconds))
  }

  /** The keys evicted from a tracker in which the caller's key has just been pruned. */
  function Overflow(c: Config, s: State): set<Key>
    requires s.Valid()
  {
    if |s.stamps| > c.maxKeys then Elements(Victims(s)) else {}
  }

  function Evicted(c: Config, s: State, key: Key, now: real): set<Key>
    requires Arrived(c, s, key, now).Valid()
  {
    Overflow(c, Arrived(c, s, key, now))
  }

  /** The rest of the call, once the keys to evict are known. */
  function Settled(c: Config, s: State, gone: set<Key>, key: Key, now: real): (bool, State) {
    var s' := s.Delete(gone);
    var ts := s'.Stamps(key);
    if |ts| >= c.maxRequests then (false, s'.Put(key, ts)) else (true, s'.Put(key, ts + [now]))
  }

  function CheckStep(c: Config, s: State, key: Key, now: real): (bool, State)
    requires Arrived(c, s, key, now).Valid()
  {
    if c.enabled then Settled(c, Arrived(c, s, key, now), Evicted(c, s, key, now), key, now) else (true, s)
  }

  lemma SweptValid(c: Config, s: State, now: real)
    requires s.Valid()
    ensures Swept(c, s, now).Valid()
  {
    var s1 := s.(stamps := Refreshed(s, now, c.windowSeconds));
    assert s1.stamps.Keys == s.stamps.Keys;
    s1.DeleteValid(Expired(s, now, c.windowSeconds));
  }

  lemma ArrivedValid(c: Config, s: State, key: Key, now: real)
    requires s.Valid()
    ensures Arrived(c, s, key, now).Valid()
  {
    SweptValid(c, s, now);
    var s1 := Swept(c, s, now);
    s1.PutValid(key, Live(s1.Stamps(key), now, c.windowSeconds));
  }

  lemma SettledValid(c: Config, s: State, gone: set<Key>, key: Key, now: real)
    requires s.Valid()
    ensures Settled(c, s, gone, key, now).1.Valid()
  {
    s.DeleteValid(gone);
    var s' := s.Delete(gone);
    s'.PutValid(key, s'.Stamps(key));
    s'.PutValid(key, s'.Stamps(key) + [now]);
  }

  lemma CheckStepValid(c: Config, s: State, key: Key, now: real)
    requires s.Valid()
    ensures Arrived(c, s, key, now).Valid() && CheckStep(c, s, key, now).1.Valid()
  {
    ArrivedValid(c, s, key, now);
    SettledValid(c, Arrived(c, s, key, now), Evicted(c, s, key, now), key, now);
  }

  class RateLimiter {
    const config: Config
    var keys: seq<Key>
    var tracker: map<Key, seq<real>>
    var lastCleanup: real

    function Snapshot(): State
      reads this
    {
      State(keys, tracker, lastCleanup)
    }

    constructor (config: Config, now: real)
      ensures this.config == config
      ensures Snapshot() == State([], map[], now) && Snapshot().Valid()
    {
      this.config := config;
      keys, tracker, lastCleanup := [], map[], now;
    }

    method Check(key: Key, now: real) returns (allowed: bool)
      requires Snapshot().Valid()
      modifies this
      ensures Snapshot().Valid()
      ensures Arrived(config, old(Snapshot()), key, now).Valid()
      ensures (allowed, Snapshot()) == CheckStep(config, old(Snapshot()), key, now)
    {
      CheckStepValid(config, Snapshot(), key, now);
      if !config.enabled {
        return true;
      }
      Sweep(now);
      Assign(key, Live(Snapshot().Stamps(key), now, config.windowSeconds));
      Shrink();
      allowed := Record(key, now);
    }

    /** The periodic cleanup. */
    method Sweep(now: real)
      requires Snapshot().Valid()
      modifies this
      ensures Snapshot() == Swept(config, old(Snapshot()), now) && Snapshot().Valid()
    {
      if now - lastCleanup > config.windowSeconds as real {
        CleanupAll(now);
        lastCleanup := now;
      }
    }

    /** The size limit. */
    method Shrink()
      requires Snapshot().Valid()
      modifies this
      ensures Snapshot() == old(Snapshot()).Delete(Overflow(config, old(Snapshot()))) && Snapshot().Valid()
    {
      if |tracker| > config.maxKeys {
        RemoveOldestKeys();
      } else {
        Snapshot().DeleteValid({});
      }
    }

    /** The tail of `check`: the rate test and the recording of the request. */
    method Record(key: Key, now: real) returns (allowed: bool)
      requires Snapshot().Valid()
      modifies this
      ensures Snapshot().Valid()
      ensures var ts := old(Snapshot()).Stamps(key);
              if |ts| >= config.maxRequests then !allowed && Snapshot() == old(Snapshot()).Put(key, ts)
              else allowed && Snapshot() == old(Snapshot()).Put(key, ts + [now])
    {
      ghost var s, ts := Snapshot(), Snapshot().Stamps(key);
      s.PutTwice(key, ts, ts + [now]);
      if key !in tracker {
        Assign(key, []);
      }
      assert tracker[key := tracker[key]] == tracker;
      assert Snapshot() == s.Put(key, ts);
      if |tracker[key]| >= config.maxRequests {
        return false;
      }
      Assign(key, tracker[key] + [now]);
      return true;
    }

    method Assign(key: Key, ts: seq<real>)
      requires Snapshot().Valid()
      modifies this
      ensures Snapshot() == old(Snapshot()).Put(key, ts) && Snapshot().Valid()
    {
      Snapshot().PutValid(key, ts);
      if key !in tracker {
        keys := keys + [key];
      }
      tracker := tracker[key := ts];
    }

    method CleanupAll(now: real)
      requires Snapshot().Valid()
      modifies this
      ensures Snapshot() == CleanedAll(old(Snapshot()), now, config.windowSeconds) && Snapshot().Valid()
    {
      ghost var start := Snapshot();
      hide HalfCleaned, Expired, Elements, Refreshed, Live;
      var items := keys;
      var emptyKeys: seq<Key> := [];
      CleanupStarts(start, now, config.windowSeconds);
      for i := 0 to |items|
        invariant unchanged(`keys) && unchanged(`lastCleanup)
        invariant tracker == HalfCleaned(start, Elements(items[..i]), now, config.windowSeconds)
        invariant Elements(emptyKeys) == Expired(start, now, config.windowSeconds) * Elements(items[..i])
      {
        Extend(items, i);
        ExpiredStep(start, i, now, config.windowSeconds, emptyKeys);
        HalfCleanedStep(start, Elements(items[..i]), items[i], now, config.windowSeconds);
        tracker := tracker[items[i] := Live(tracker[items[i]], now, config.windowSeconds)];
        emptyKeys := emptyKeys + if tracker[items[i]] == [] then [items[i]] else [];
      }
      CleanupEnds(start, now, config.windowSeconds);
      RefreshedValid(start, now, config.windowSeconds);
      assert Snapshot() == start.(stamps := Refreshed(start, now, config.windowSeconds));
      DeleteKeys(emptyKeys);
    }

    method RemoveOldestKeys()
      requires Snapshot().Valid()
      modifies this
      ensures Snapshot() == old(Snapshot()).Delete(Elements(Victims(old(Snapshot())))) && Snapshot().Valid()
    {
      var latest := LatestActivity();
      assert forall k :: k in keys ==> k in Elements(keys);
      var sortedKeys := ByActivity(keys, latest);
      ByActivityOrdered(keys, latest);
      DistinctSize(keys);
      if |tracker| == 0 {
        Snapshot().DeleteValid({});
        assert Elements(Victims(Snapshot())) == {};
        return;
      }
      DeleteKeys(sortedKeys[..Quota(|sortedKeys|)]);
    }

    method LatestActivity() returns (latest: map<Key, real>)
      requires Snapshot().Valid()
      ensures latest == Latest(Snapshot())
    {
      latest := map[];
      for i := 0 to |keys|
        invariant latest.Keys == Elements(keys[..i])
        invariant forall k :: k in latest ==> k in tracker && latest[k] == Activity(tracker[k])
      {
        Extend(keys, i);
        latest := latest[keys[i] := Activity(tracker[keys[i]])];
      }
      assert keys[..|keys|] == keys;
    }

    method DeleteKeys(gone: seq<Key>)
      requires Snapshot().Valid()
      modifies this
      ensures Snapshot() == old(Snapshot()).Delete(Elements(gone)) && Snapshot().Valid()
    {
      Snapshot().DeleteValid(Elements(gone));
      ghost var before := tracker;
      for i := 0 to |gone|
        invariant tracker == before - Elements(gone[..i])
        invariant unchanged(`keys) && unchanged(`lastCleanup)
      {
        DeleteStep(before, gone, i);
        tracker := tracker - {gone[i]};
      }
      assert gone[..|gone|] == gone;
      keys := Without(keys, Elements(gone));
    }
  }
}
