/** Exactly which logins are reported: the log book against a tally that never forgets. */
module AbuseIpdbTally {
  import opened Sequences
  import opened AbuseIpdb
  import opened AbuseIpdbRuns

  /** All logins counted towards the next report, and the last report. */
  datatype Tally = Tally(counted: seq<Stamp>, last: Option<Stamp>)

  /** The times inside the window. */
  function Fresh(c: Config, times: seq<Stamp>, now: Stamp): (r: seq<Stamp>) {
    if times == [] then []
    else (if times[0] >= now - c.window then [times[0]] else []) + Fresh(c, times[1..], now)
  }

  /** A login counts unless it comes too soon after a report, and is reported when enough counted
      logins are inside the window. */
  function TallyLogin(c: Config, tally: Tally, t: Stamp): (Tally, bool) {
    if tally.last.Some? && t <= tally.last.value + c.rereportAfter then (tally, false)
    else
      var counted := tally.counted + [t];
      if |Fresh(c, counted, t)| >= c.attempts then (Tally([], Some(t)), true)
      else (tally.(counted := counted), false)
  }

  function TallyStep(c: Config, tally: Tally, ip: Ip, e: Event): (Tally, bool) {
    if e.Login? && e.ip == ip then TallyLogin(c, tally, e.t) else (tally, false)
  }

  function TallyAfter(c: Config, events: seq<Event>, ip: Ip): Tally
    decreases |events|
  {
    if events == [] then Tally([], None) else TallyStep(c, TallyAfter(c, Front(events), ip), ip, Last(events)).0
  }

  predicate TallyReportsNow(c: Config, events: seq<Event>, ip: Ip)
    requires events != []
  {
    TallyStep(c, TallyAfter(c, Front(events), ip), ip, Last(events)).1
  }

  // ---------------------------------------------------------------- facts about Fresh

  lemma {:induction false} FreshConcat(c: Config, a: seq<Stamp>, b: seq<Stamp>, now: Stamp)
    ensures Fresh(c, a + b, now) == Fresh(c, a, now) + Fresh(c, b, now)
  {
    if a == [] {
      assert a + b == b;
    } else {
      assert (a + b)[1..] == a[1..] + b;
      FreshConcat(c, a[1..], b, now);
    }
  }

  lemma FreshAppend(c: Config, times: seq<Stamp>, t: Stamp)
    requires c.window >= 0.0
    ensures Fresh(c, times + [t], t) == Fresh(c, times, t) + [t]
  {
    FreshConcat(c, times, [t], t);
    assert [t][1..] == [];
  }

  lemma {:induction false} FreshLater(c: Config, times: seq<Stamp>, now: Stamp, later: Stamp)
    requires now <= later
    ensures Fresh(c, Fresh(c, times, now), later) == Fresh(c, times, later)
  {
    if times != [] {
      FreshLater(c, times[1..], now, later);
      FreshConcat(c, if times[0] >= now - c.window then [times[0]] else [], Fresh(c, times[1..], now), later);
      FreshOne(c, times[0], later);
    }
  }

  lemma FreshOne(c: Config, t: Stamp, now: Stamp)
    ensures Fresh(c, [t], now) == if t >= now - c.window then [t] else []
  {
    assert [t][1..] == [];
  }

  /** Two lists that agree inside the window now agree inside it later. */
  lemma StillAgree(c: Config, a: seq<Stamp>, b: seq<Stamp>, now: Stamp, later: Stamp)
    requires now <= later && Fresh(c, a, now) == Fresh(c, b, now)
    ensures Fresh(c, a, later) == Fresh(c, b, later)
  {
    FreshLater(c, a, now, later);
    FreshLater(c, b, now, later);
  }

  lemma {:induction false} CleanedIsFresh(c: Config, times: seq<Stamp>, now: Stamp)
    requires Sorted(times)
    ensures Cleaned(c, times, now) == Fresh(c, times, now)
    decreases |times|
  {
    if times != [] {
      SortedTail(times);
      if times[0] < now - c.window {
        CleanedIsFresh(c, times[1..], now);
      } else {
        AllFresh(c, times, now);
      }
    }
  }

  lemma {:induction false} AllFresh(c: Config, times: seq<Stamp>, now: Stamp)
    requires Sorted(times) && (times != [] ==> times[0] >= now - c.window)
    ensures Fresh(c, times, now) == times
  {
    if times != [] {
      SortedTail(times);
      assert |times| > 1 ==> times[0] <= times[1];
      AllFresh(c, times[1..], now);
      assert [times[0]] + times[1..] == times;
    }
  }

  // ---------------------------------------------------------------- the refinement

  /** The entry and the tally tell the same future. */
  predicate Agree(c: Config, entry: Option<Entry>, tally: Tally, now: Stamp) {
    match entry
    case Some(Reported(at)) => tally.last == Some(at) && tally.counted == []
    case _ =>
      && (tally.last.Some? ==> now > tally.last.value + c.rereportAfter)
      && Fresh(c, Times(entry), now) == Fresh(c, tally.counted, now)
      && Sorted(Times(entry)) && |Times(entry)| < c.attempts
      && (forall i :: 0 <= i < |Times(entry)| ==> Times(entry)[i] <= now)
  }

  function Times(entry: Option<Entry>): seq<Stamp> {
    if entry.Some? && entry.value.Seen? then entry.value.times else []
  }

  lemma SortedAppend(times: seq<Stamp>, t: Stamp)
    requires Sorted(times) && forall i :: 0 <= i < |times| ==> times[i] <= t
    ensures Sorted(times + [t])
  {
  }

  lemma LoginAgrees(c: Config, entry: Option<Entry>, tally: Tally, ip: Ip, t: Stamp, before: Stamp)
    requires c.Valid() && before <= t && Agree(c, entry, tally, before)
    ensures var (entry', reported) := EntryStep(c, entry, ip, Login(ip, t));
            var (tally', reported') := TallyLogin(c, tally, t);
            Agree(c, entry', tally', t) && reported == reported'
  {
    hide Fresh, Sorted, Cleaned;
    NothingFresh(c, t);
    if entry.Some? && entry.value.Reported? {
      assert tally.counted + [t] == [t];
    } else {
      CountingAgrees(c, Times(entry), tally.counted, t, before);
    }
  }

  /** The clean-up of the deque with the new login is what the tally sees inside the window. */
  lemma CountingAgrees(c: Config, times: seq<Stamp>, counted: seq<Stamp>, t: Stamp, before: Stamp)
    requires c.Valid() && before <= t && Fresh(c, times, before) == Fresh(c, counted, before)
    requires Sorted(times) && forall i :: 0 <= i < |times| ==> times[i] <= before
    ensures var recent := Cleaned(c, times + [t], t);
            && recent == Fresh(c, counted + [t], t) && Fresh(c, recent, t) == recent
            && recent != [] && recent[|recent| - 1] == t && Sorted(recent) && (times == [] ==> recent == [t])
            && (forall i :: 0 <= i < |recent| ==> recent[i] <= t)
  {
    hide Fresh, Sorted, Cleaned;
    StillAgree(c, times, counted, before, t);
    FreshAppend(c, times, t);
    FreshAppend(c, counted, t);
    SortedAppend(times, t);
    CleanedIsFresh(c, times + [t], t);
    RecentAgrees(c, times, t);
    NothingFresh(c, t);
    assert times == [] ==> times + [t] == [t];
  }

  lemma NothingFresh(c: Config, now: Stamp)
    requires c.Valid()
    ensures Fresh(c, [], now) == [] && Fresh(c, [now], now) == [now] && Sorted([now]) && Sorted([])
  {
    FreshOne(c, now, now);
  }

  lemma RecentAgrees(c: Config, times: seq<Stamp>, t: Stamp)
    requires c.Valid() && Sorted(times + [t])
    ensures var recent := Cleaned(c, times + [t], t);
            && recent != [] && recent[|recent| - 1] == t && Sorted(recent)
            && Fresh(c, recent, t) == Fresh(c, times + [t], t) == recent
            && (forall i :: 0 <= i < |recent| ==> recent[i] <= t)
  {
    var all := times + [t];
    LastIsNewest(c, all, t);
    CleanedIsSuffix(c, all, t);
    SortedSuffix(Cleaned(c, all, t), all);
    CleanedIsFresh(c, all, t);
    FreshLater(c, all, t, t);
  }

  /** A clean-up that drops no entry with a login still inside the window. */
  predicate Harmless(c: Config, entry: Option<Entry>, now: Stamp) {
    entry.Some? && entry.value.Seen? && Fresh(c, entry.value.times, now) != [] ==> !CanRereport(c, entry.value, now)
  }

  lemma CleanupAgrees(c: Config, entry: Option<Entry>, tally: Tally, ip: Ip, t: Stamp, before: Stamp)
    requires c.Valid() && before <= t && Agree(c, entry, tally, before) && Harmless(c, entry, t)
    ensures Agree(c, EntryStep(c, entry, ip, Cleanup(t)).0, tally, t)
  {
    hide Sorted, Cleaned, Fresh;
    NothingFresh(c, t);
    if !(entry.Some? && entry.value.Reported?) {
      DroppingAgrees(c, Times(entry), tally.counted, t, before);
    }
  }

  lemma DroppingAgrees(c: Config, times: seq<Stamp>, counted: seq<Stamp>, t: Stamp, before: Stamp)
    requires c.Valid() && before <= t && Fresh(c, times, before) == Fresh(c, counted, before) && Sorted(times)
    ensures var recent := Cleaned(c, times, t);
            && recent == Fresh(c, times, t) == Fresh(c, counted, t) == Fresh(c, recent, t)
            && Sorted(recent) && SuffixOf(recent, times)
  {
    hide Sorted, Cleaned, Fresh;
    StillAgree(c, times, counted, before, t);
    CleanedIsFresh(c, times, t);
    CleanedIsSuffix(c, times, t);
    SortedSuffix(Cleaned(c, times, t), times);
    FreshLater(c, times, t, t);
  }

  predicate HarmlessRun(c: Config, events: seq<Event>, ip: Ip)
    requires c.Valid()
    decreases |events|
  {
    events == [] ||
    (&& HarmlessRun(c, Front(events), ip)
     && (Last(events).Cleanup? ==> Harmless(c, EntryOf(After(c, Front(events)), ip), Last(events).t)))
  }

  lemma {:induction false} RunAgrees(c: Config, events: seq<Event>, ip: Ip, now: Stamp)
    requires c.Valid() && ClockNeverGoesBack(events) && HarmlessRun(c, events, ip)
    requires events != [] ==> Last(events).t == now
    ensures Agree(c, EntryOf(After(c, events), ip), TallyAfter(c, events, ip), now)
    ensures events != [] && Last(events).Login? && Last(events).ip == ip ==>
              ReportsNow(c, events) == TallyReportsNow(c, events, ip)
    decreases |events|
  {
    if events != [] {
      var e, past := Last(events), Front(events);
      var before := if past == [] then e.t else Last(past).t;
      RunAgrees(c, past, ip, before);
      var entry, tally := EntryOf(After(c, past), ip), TallyAfter(c, past, ip);
      StepOfEntry(c, After(c, past), ip, e);
      hide Agree, Harmless, EntryStep, TallyLogin;
      if e.Login? && e.ip == ip {
        LoginAgrees(c, entry, tally, ip, e.t, before);
      } else if e.Cleanup? {
        CleanupAgrees(c, entry, tally, ip, e.t, before);
      } else {
        OtherAgrees(c, entry, tally, ip, e, before);
      }
    }
  }

  lemma OtherAgrees(c: Config, entry: Option<Entry>, tally: Tally, ip: Ip, e: Event, before: Stamp)
    requires c.Valid() && before <= e.t && Agree(c, entry, tally, before) && e.Login? && e.ip != ip
    ensures Agree(c, EntryStep(c, entry, ip, e).0, tally, e.t)
  {
    StillAgree(c, Times(entry), tally.counted, before, e.t);
  }

  /** Main result: as long as no clean-up drops a login that is still inside the window, an address is
      reported at exactly the logins where the tally says so. */
  lemma ReportsMatchTally(c: Config, events: seq<Event>)
    requires c.Valid() && events != [] && ClockNeverGoesBack(events) && Last(events).Login?
    requires HarmlessRun(c, events, Last(events).ip)
    ensures ReportsNow(c, events) <==> TallyReportsNow(c, events, Last(events).ip)
  {
    RunAgrees(c, events, Last(events).ip, Last(events).t);
  }

  // ---------------------------------------------------------------- why the condition is needed

  /** `n` logins in the same moment. */
  function EntryBurst(c: Config, entry: Option<Entry>, ip: Ip, t: Stamp, n: nat): (Option<Entry>, bool)
    requires c.Valid()
  {
    if n == 0 then (entry, false) else EntryStep(c, EntryBurst(c, entry, ip, t, n - 1).0, ip, Login(ip, t))
  }

  function TallyBurst(c: Config, tally: Tally, t: Stamp, n: nat): (Tally, bool) {
    if n == 0 then (tally, false) else TallyLogin(c, TallyBurst(c, tally, t, n - 1).0, t)
  }

  lemma {:induction false} BurstAfresh(c: Config, ip: Ip, t: Stamp, n: nat)
    requires c.Valid() && 0 < n < c.attempts
    ensures EntryBurst(c, None, ip, t, n).0 == Some(Seen(seq(n, _ => t))) && !EntryBurst(c, None, ip, t, n).1
  {
    if n == 1 {
      assert seq(1, _ => t) == [t];
      assert EntryBurst(c, None, ip, t, 0).0 == None;
    } else {
      BurstAfresh(c, ip, t, n - 1);
      assert seq(n - 1, _ => t) + [t] == seq(n, _ => t);
      assert Cleaned(c, seq(n, _ => t), t) == seq(n, _ => t);
    }
  }

  lemma {:induction false} TallyBurstCounts(c: Config, tally: Tally, t: Stamp, n: nat)
    requires c.Valid() && |Fresh(c, tally.counted, t)| + n < c.attempts
    requires tally.last.Some? ==> t > tally.last.value + c.rereportAfter
    ensures TallyBurst(c, tally, t, n).0.last == tally.last
    ensures |Fresh(c, TallyBurst(c, tally, t, n).0.counted, t)| == |Fresh(c, tally.counted, t)| + n
  {
    if n > 0 {
      TallyBurstCounts(c, tally, t, n - 1);
      FreshAppend(c, TallyBurst(c, tally, t, n - 1).0.counted, t);
    }
  }

  /** After a harmful clean-up a burst of logins brings the tally to a report that the entry does not make. */
  lemma HarmfulBurst(c: Config, entry: Option<Entry>, tally: Tally, ip: Ip, t: Stamp)
    requires c.Valid() && Agree(c, entry, tally, t) && !Harmless(c, entry, t)
    ensures var after := EntryStep(c, entry, ip, Cleanup(t)).0;
            exists n: nat :: n > 0 && TallyBurst(c, tally, t, n).1 && !EntryBurst(c, after, ip, t, n).1
  {
    assert EntryStep(c, entry, ip, Cleanup(t)).0 == None;
    var fresh' := |Fresh(c, tally.counted, t)|;
    FreshNoLonger(c, Times(entry), t);
    var n := c.attempts - fresh';
    TallyBurstCounts(c, tally, t, n - 1);
    FreshAppend(c, TallyBurst(c, tally, t, n - 1).0.counted, t);
    BurstAfresh(c, ip, t, n);
    assert TallyBurst(c, tally, t, n).1;
  }

  lemma {:induction false} FreshNoLonger(c: Config, times: seq<Stamp>, now: Stamp)
    ensures |Fresh(c, times, now)| <= |times|
  {
    if times != [] {
      FreshNoLonger(c, times[1..], now);
    }
  }

  // ---------------------------------------------------------------- on whole runs

  function Burst(ip: Ip, t: Stamp, n: nat): seq<Event> {
    if n == 0 then [] else Burst(ip, t, n - 1) + [Login(ip, t)]
  }

  lemma BurstFront(events: seq<Event>, ip: Ip, t: Stamp, n: nat)
    requires n > 0
    ensures var all := events + Burst(ip, t, n);
            all != [] && Front(all) == events + Burst(ip, t, n - 1) && Last(all) == Login(ip, t)
  {
    assert events + Burst(ip, t, n) == (events + Burst(ip, t, n - 1)) + [Login(ip, t)];
  }

  lemma {:induction false} RunBurst(c: Config, events: seq<Event>, ip: Ip, t: Stamp, n: nat)
    requires c.Valid()
    ensures var all := events + Burst(ip, t, n);
            && EntryOf(After(c, all), ip) == EntryBurst(c, EntryOf(After(c, events), ip), ip, t, n).0
            && TallyAfter(c, all, ip) == TallyBurst(c, TallyAfter(c, events, ip), t, n).0
            && (n > 0 ==> ReportsNow(c, all) == EntryBurst(c, EntryOf(After(c, events), ip), ip, t, n).1)
            && (n > 0 ==> TallyReportsNow(c, all, ip) == TallyBurst(c, TallyAfter(c, events, ip), t, n).1)
  {
    hide EntryStep, TallyLogin, EntryOf;
    if n == 0 {
      assert events + Burst(ip, t, n) == events;
    } else {
      RunBurst(c, events, ip, t, n - 1);
      BurstFront(events, ip, t, n);
      StepOfEntry(c, After(c, events + Burst(ip, t, n - 1)), ip, Login(ip, t));
    }
  }

  lemma {:induction false} BurstIsHarmless(c: Config, events: seq<Event>, ip: Ip, t: Stamp, n: nat)
    requires c.Valid() && HarmlessRun(c, events, ip) && ClockNeverGoesBack(events)
    requires events != [] && Last(events).t == t
    ensures var all := events + Burst(ip, t, n);
            HarmlessRun(c, all, ip) && ClockNeverGoesBack(all) && Last(all).t == t
  {
    hide After, Harmless;
    if n == 0 {
      assert events + Burst(ip, t, n) == events;
    } else {
      BurstIsHarmless(c, events, ip, t, n - 1);
      BurstFront(events, ip, t, n);
    }
  }

  /** After `events` and a clean-up at `t`, the last of `n` logins is one the tally reports and the log
      book does not. */
  predicate LosesReport(c: Config, events: seq<Event>, ip: Ip, t: Stamp, n: nat)
    requires c.Valid()
  {
    n > 0 &&
    var all := events + [Cleanup(t)] + Burst(ip, t, n);
    BurstFront(events + [Cleanup(t)], ip, t, n);
    TallyReportsNow(c, all, ip) && !ReportsNow(c, all)
  }

  lemma CleanupRun(c: Config, events: seq<Event>, ip: Ip, t: Stamp)
    requires c.Valid()
    ensures var all := events + [Cleanup(t)];
            && Front(all) == events && Last(all) == Cleanup(t)
            && EntryOf(After(c, all), ip) == EntryStep(c, EntryOf(After(c, events), ip), ip, Cleanup(t)).0
            && TallyAfter(c, all, ip) == TallyAfter(c, events, ip)
  {
    assert Front(events + [Cleanup(t)]) == events;
    StepOfEntry(c, After(c, events), ip, Cleanup(t));
  }

  /** Main result: after a run in which no clean-up did harm, the next clean-up keeps every later report
      if and only if it drops no login that is still inside the window; otherwise some burst of
      logins right after it brings the tally to a report that the log book does not make. */
  lemma HarmfulCleanupLosesReport(c: Config, events: seq<Event>, ip: Ip, t: Stamp)
    requires c.Valid() && HarmlessRun(c, events, ip) && ClockNeverGoesBack(events + [Cleanup(t)])
    ensures Harmless(c, EntryOf(After(c, events), ip), t) <==> !exists n: nat :: LosesReport(c, events, ip, t, n)
  {
    hide EntryStep, TallyLogin, EntryOf, Harmless, Agree, EntryBurst, TallyBurst;
    var all := events + [Cleanup(t)];
    CleanupRun(c, events, ip, t);
    var entry, tally := EntryOf(After(c, events), ip), TallyAfter(c, events, ip);
    if Harmless(c, entry, t) {
      forall n: nat
        ensures !LosesReport(c, events, ip, t, n)
      {
        if n > 0 {
          BurstIsHarmless(c, all, ip, t, n);
          BurstFront(all, ip, t, n);
          ReportsMatchTally(c, all + Burst(ip, t, n));
        }
      }
    } else {
      var before := if events == [] then t else Last(events).t;
      RunAgrees(c, events, ip, before);
      LaterAgrees(c, entry, tally, before, t);
      HarmfulBurst(c, entry, tally, ip, t);
      var after := EntryStep(c, entry, ip, Cleanup(t)).0;
      var n: nat :| n > 0 && TallyBurst(c, tally, t, n).1 && !EntryBurst(c, after, ip, t, n).1;
      RunBurst(c, all, ip, t, n);
      assert LosesReport(c, events, ip, t, n);
    }
  }

  lemma LaterAgrees(c: Config, entry: Option<Entry>, tally: Tally, before: Stamp, t: Stamp)
    requires before <= t && Agree(c, entry, tally, before)
    ensures Agree(c, entry, tally, t)
  {
    StillAgree(c, Times(entry), tally.counted, before, t);
  }

  /** A harmful run: a single login is dropped by every clean-up while it is inside the window. */
  lemma SingleLoginIsDropped(c: Config, ip: Ip, login: Stamp, t: Stamp)
    requires c.Valid() && login <= t && t - c.window <= login
    ensures HarmlessRun(c, [Login(ip, login)], ip) && ClockNeverGoesBack([Login(ip, login), Cleanup(t)])
    ensures !Harmless(c, EntryOf(After(c, [Login(ip, login)]), ip), t)
    ensures exists n: nat :: LosesReport(c, [Login(ip, login)], ip, t, n)
  {
    var events := [Login(ip, login)];
    assert Front(events) == [] && After(c, []) == map[];
    assert EntryOf(After(c, events), ip) == Some(Seen([login]));
    FreshOne(c, login, t);
    assert events + [Cleanup(t)] == [Login(ip, login), Cleanup(t)] && Front(events + [Cleanup(t)]) == events;
    HarmfulCleanupLosesReport(c, events, ip, t);
  }
}
