/** Runs of the AbuseIPDB log book: every report is earned, and reports are spaced. */
module AbuseIpdbRuns {
  import opened Sequences
  import opened AbuseIpdb

  datatype Event = Login(ip: Ip, t: Stamp) | Cleanup(t: Stamp)

  predicate ClockNeverGoesBack(events: seq<Event>)
    decreases |events|
  {
    |events| > 1 ==> ClockNeverGoesBack(Front(events)) && Last(Front(events)).t <= Last(events).t
  }

  function Step(c: Config, book: Book, e: Event): (Book, bool)
    requires c.Valid()
  {
    match e
    case Login(ip, t) => LoginStep(c, book, ip, t)
    case Cleanup(t) => (CleanupStep(c, book, t), false)
  }

  function After(c: Config, events: seq<Event>): Book
    requires c.Valid()
    decreases |events|
  {
    if events == [] then map[] else Step(c, After(c, Front(events)), Last(events)).0
  }

  /** Whether the last event of a run makes a report. */
  predicate ReportsNow(c: Config, events: seq<Event>)
    requires c.Valid() && events != []
  {
    Step(c, After(c, Front(events)), Last(events)).1
  }

  /** The times of all logins from `ip`. */
  function Logins(events: seq<Event>, ip: Ip): seq<Stamp>
    decreases |events|
  {
    if events == [] then []
    else Logins(Front(events), ip) + if Last(events).Login? && Last(events).ip == ip then [Last(events).t] else []
  }

  /** The times of all reports of `ip`. */
  function Reports(c: Config, events: seq<Event>, ip: Ip): seq<Stamp>
    requires c.Valid()
    decreases |events|
  {
    if events == [] then []
    else
      Reports(c, Front(events), ip) +
      if Last(events).Login? && Last(events).ip == ip && ReportsNow(c, events) then [Last(events).t] else []
  }

  predicate SuffixOf(xs: seq<Stamp>, ys: seq<Stamp>) {
    |xs| <= |ys| && ys[|ys| - |xs|..] == xs
  }

  function EntryOf(book: Book, ip: Ip): Option<Entry> {
    if ip in book then Some(book[ip]) else None
  }

  /** One event as one address sees it. */
  function EntryStep(c: Config, entry: Option<Entry>, ip: Ip, e: Event): (Option<Entry>, bool)
    requires c.Valid()
  {
    match e
    case Login(ip', t) =>
      if ip' != ip then (entry, false)
      else if entry.None? then (Some(Seen([t])), false)
      else var (entry', reported) := LoginEntry(c, entry.value, t); (Some(entry'), reported)
    case Cleanup(t) =>
      if entry.Some? && Kept(c, entry.value, t) then (Some(CleanedEntry(c, entry.value, t)), false) else (None, false)
  }

  lemma StepOfEntry(c: Config, book: Book, ip: Ip, e: Event)
    requires c.Valid()
    ensures EntryOf(Step(c, book, e).0, ip) == EntryStep(c, EntryOf(book, ip), ip, e).0
    ensures e.Login? && e.ip == ip ==> Step(c, book, e).1 == EntryStep(c, EntryOf(book, ip), ip, e).1
  {
  }

  // ---------------------------------------------------------------- what an entry says of the past

  lemma {:induction false} CleanedIsSuffix(c: Config, times: seq<Stamp>, now: Stamp)
    ensures SuffixOf(Cleaned(c, times, now), times)
    ensures forall i :: 0 <= i < |Cleaned(c, times, now)| && Sorted(times) ==>
              Cleaned(c, times, now)[i] >= now - c.window
    decreases |times|
  {
    if times != [] && times[0] < now - c.window {
      CleanedIsSuffix(c, times[1..], now);
      SortedTail(times);
    }
  }

  predicate Sorted(times: seq<Stamp>) {
    forall i, j :: 0 <= i <= j < |times| ==> times[i] <= times[j]
  }

  lemma SortedTail(times: seq<Stamp>)
    requires times != []
    ensures Sorted(times) ==> Sorted(times[1..])
  {
  }

  lemma SuffixTransitive(xs: seq<Stamp>, ys: seq<Stamp>, zs: seq<Stamp>)
    requires SuffixOf(xs, ys) && SuffixOf(ys, zs)
    ensures SuffixOf(xs, zs)
  {
    assert ys[|ys| - |xs|..] == zs[|zs| - |ys|..][|ys| - |xs|..];
  }

  lemma SuffixExtend(xs: seq<Stamp>, ys: seq<Stamp>, t: Stamp)
    requires SuffixOf(xs, ys)
    ensures SuffixOf(xs + [t], ys + [t]) && SuffixOf([t], ys + [t])
  {
  }

  lemma SortedSuffix(xs: seq<Stamp>, ys: seq<Stamp>)
    requires SuffixOf(xs, ys) && Sorted(ys)
    ensures Sorted(xs)
  {
    assert forall i :: 0 <= i < |xs| ==> xs[i] == ys[|ys| - |xs| + i];
  }

  /** The logins remembered are the latest ones, and too few to report; a reported address is
      remembered by its last report, and any other has served its time. */
  predicate EntryMatches(c: Config, entry: Option<Entry>, logins: seq<Stamp>, reports: seq<Stamp>, now: Stamp) {
    && (entry.Some? && entry.value.Seen? ==> SuffixOf(entry.value.times, logins) && |entry.value.times| < c.attempts)
    && (entry.Some? && entry.value.Reported? ==> reports != [] && Last(reports) == entry.value.at)
    && (reports != [] && !(entry.Some? && entry.value.Reported?) ==> now > Last(reports) + c.rereportAfter)
  }

  /** A report is made of the `attempts` latest logins, all inside the window. */
  predicate Earned(c: Config, logins: seq<Stamp>, now: Stamp) {
    && |logins| >= c.attempts
    && forall i :: |logins| - c.attempts <= i < |logins| ==> logins[i] >= now - c.window
  }

  lemma LoginKeepsMatch(c: Config, entry: Option<Entry>, ip: Ip, t: Stamp, logins: seq<Stamp>, reports: seq<Stamp>,
        before: Stamp)
    requires c.Valid() && before <= t && EntryMatches(c, entry, logins, reports, before) && Sorted(logins + [t])
    ensures var (entry', reported) := EntryStep(c, entry, ip, Login(ip, t));
            && EntryMatches(c, entry', logins + [t], reports + if reported then [t] else [], t)
            && (reported ==> Earned(c, logins + [t], t) && (reports != [] ==> t > Last(reports) + c.rereportAfter))
  {
    hide Earned, Cleaned, Pushed, Sorted, SuffixOf;
    assert reports + [] == reports;
    if entry.Some? && entry.value.Seen? && entry.value.times != [] {
      RecentLogins(c, entry.value.times, t, logins);
    } else {
      OneLogin(t, logins);
    }
  }

  lemma OneLogin(t: Stamp, logins: seq<Stamp>)
    ensures SuffixOf([t], logins + [t])
  {
    SuffixExtend([], logins, t);
    assert [] + [t] == [t];
  }

  lemma PushedShort(times: seq<Stamp>, t: Stamp, size: nat)
    requires |times| < size
    ensures Pushed(times, t, size) == times + [t]
  {
  }

  /** What is left of the deque with a new login: the latest logins, the new one among them. */
  lemma RecentSuffix(c: Config, times: seq<Stamp>, t: Stamp, logins: seq<Stamp>)
    requires c.window >= 0.0 && SuffixOf(times, logins) && Sorted(logins + [t])
    ensures var recent := Cleaned(c, times + [t], t);
            && SuffixOf(recent, logins + [t]) && recent != [] && recent[|recent| - 1] == t
            && forall i :: 0 <= i < |recent| ==> recent[i] >= t - c.window
  {
    hide Cleaned, Sorted, SuffixOf;
    var pushed, all := times + [t], logins + [t];
    SuffixExtend(times, logins, t);
    SortedSuffix(pushed, all);
    CleanedIsSuffix(c, pushed, t);
    SuffixTransitive(Cleaned(c, pushed, t), pushed, all);
    LastIsNewest(c, pushed, t);
  }

  lemma RecentLogins(c: Config, times: seq<Stamp>, t: Stamp, logins: seq<Stamp>)
    requires c.Valid() && SuffixOf(times, logins) && |times| < c.attempts && Sorted(logins + [t])
    ensures var recent := Cleaned(c, Pushed(times, t, c.attempts), t);
            && SuffixOf(recent, logins + [t]) && recent != [] && recent[|recent| - 1] == t
            && (|recent| >= c.attempts ==> Earned(c, logins + [t], t))
  {
    hide Cleaned, Sorted, SuffixOf, Earned;
    PushedShort(times, t, c.attempts);
    RecentSuffix(c, times, t, logins);
    var recent := Cleaned(c, times + [t], t);
    if |recent| >= c.attempts {
      SuffixEarned(c, recent, logins + [t], t);
    }
  }

  lemma SuffixEarned(c: Config, recent: seq<Stamp>, all: seq<Stamp>, t: Stamp)
    requires SuffixOf(recent, all) && |recent| >= c.attempts
    requires forall i :: 0 <= i < |recent| ==> recent[i] >= t - c.window
    ensures Earned(c, all, t)
  {
    forall i | |all| - c.attempts <= i < |all|
      ensures all[i] >= t - c.window
    {
      assert recent[i - (|all| - |recent|)] == all[i];
    }
  }

  lemma CleanupKeepsMatch(c: Config, entry: Option<Entry>, ip: Ip, t: Stamp, logins: seq<Stamp>,
        reports: seq<Stamp>, before: Stamp)
    requires c.Valid() && before <= t && EntryMatches(c, entry, logins, reports, before)
    ensures EntryMatches(c, EntryStep(c, entry, ip, Cleanup(t)).0, logins, reports, t)
  {
    if entry.Some? && entry.value.Seen? {
      CleanedIsSuffix(c, entry.value.times, t);
      SuffixTransitive(Cleaned(c, entry.value.times, t), entry.value.times, logins);
    }
  }

  lemma {:induction false} LoginsSorted(events: seq<Event>, ip: Ip)
    requires ClockNeverGoesBack(events)
    ensures Sorted(Logins(events, ip))
    ensures events != [] ==> forall i :: 0 <= i < |Logins(events, ip)| ==> Logins(events, ip)[i] <= Last(events).t
    decreases |events|
  {
    if events != [] {
      LoginsSorted(Front(events), ip);
    }
  }

  /** Main result: on a clock that never goes back, whatever the clean-ups, every report follows
      `attempts` logins from that address inside the window, and comes more than `rereportAfter`
      after the last one. */
  lemma {:induction false} ReportsAreEarnedAndSpaced(c: Config, events: seq<Event>, ip: Ip)
    requires c.Valid() && events != [] && ClockNeverGoesBack(events)
    ensures EntryMatches(c, EntryOf(After(c, events), ip), Logins(events, ip), Reports(c, events, ip), Last(events).t)
    ensures Last(events).Login? && Last(events).ip == ip && ReportsNow(c, events) ==>
              && Earned(c, Logins(events, ip), Last(events).t)
              && var past := Reports(c, Front(events), ip);
                 past != [] ==> Last(events).t > Last(past) + c.rereportAfter
    decreases |events|
  {
    var e, past := Last(events), Front(events);
    var logins, reports := Logins(past, ip), Reports(c, past, ip);
    var before := if past == [] then e.t else Last(past).t;
    if past != [] {
      ReportsAreEarnedAndSpaced(c, past, ip);
    }
    var entry := EntryOf(After(c, past), ip);
    assert EntryMatches(c, entry, logins, reports, before);
    StepOfEntry(c, After(c, past), ip, e);
    LoginsSorted(events, ip);
    assert logins + [] == logins && reports + [] == reports;
    if e.Login? && e.ip == ip {
      LoginKeepsMatch(c, entry, ip, e.t, logins, reports, before);
    } else if e.Cleanup? {
      CleanupKeepsMatch(c, entry, ip, e.t, logins, reports, before);
    }
  }

  // ---------------------------------------------------------------- what one entry holds

  /** A deque never grows beyond its size: it keeps the latest logins. */
  lemma PushedKeepsLatest(times: seq<Stamp>, t: Stamp, size: nat)
    requires |times| <= size && size > 0
    ensures var r, all := Pushed(times, t, size), times + [t];
            |r| <= size && r == all[|all| - |r|..] && (|r| < |all| ==> |r| == size)
  {
  }

  /** Some login of the list is still inside the window. */
  predicate AnyFresh(c: Config, times: seq<Stamp>, now: Stamp) {
    exists i :: 0 <= i < |times| && times[i] >= now - c.window
  }

  lemma {:induction false} CleanedUnlessStale(c: Config, times: seq<Stamp>, now: Stamp)
    ensures Cleaned(c, times, now) != [] <==> AnyFresh(c, times, now)
  {
    if times != [] && times[0] < now - c.window {
      CleanedUnlessStale(c, times[1..], now);
      assert forall i :: 0 < i < |times| ==> times[i] == times[1..][i - 1];
      assert forall i :: 0 <= i < |times| - 1 ==> times[1..][i] == times[i + 1];
    } else if times != [] {
      assert times[0] >= now - c.window;
    }
  }

  /** Main result: a clean-up keeps an address exactly if its report is not yet old enough to be repeated,
      or it has two logins or more, the second not that old, and one of them inside the window. */
  lemma CleanupKeepsExactly(c: Config, book: Book, ip: Ip, now: Stamp)
    ensures ip in CleanupStep(c, book, now)
            <==> ip in book
                 && match book[ip]
                    case Reported(at) => now <= at + c.rereportAfter
                    case Seen(times) =>
                      |times| >= 2 && now <= times[1] + c.rereportAfter && AnyFresh(c, times, now)
  {
    if ip in book && book[ip].Seen? {
      CleanedUnlessStale(c, book[ip].times, now);
    }
    hide Cleaned, AnyFresh;
  }
}
