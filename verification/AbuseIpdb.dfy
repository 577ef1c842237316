/** cowrie-source/output/abuseipdb.py: the log book behind the AbuseIPDB reports, when at least two
    attempts are tolerated. */
module AbuseIpdb {

  /** A time as `time()` gives it. */
  type Stamp = t: real | t > 0.0 witness 1.0

  datatype Ip = Ip(text: string)

  /** The settings: `attempts` is `tolerance_attempts`, the other two are in seconds. */
  datatype Config = Config(attempts: nat, window: real, rereportAfter: real)
  {
    predicate Valid() {
      attempts >= 2 && window >= 0.0 && rereportAfter >= 900.0
    }
  }

  /** A log book entry: a deque of login times, or the pair (None, time of the report). */
  datatype Entry = Seen(times: seq<Stamp>) | Reported(at: Stamp)

  type Book = map<Ip, Entry>

  /** `append` on a deque whose maximum length is `size`. */
  function Pushed(times: seq<Stamp>, t: Stamp, size: nat): seq<Stamp> {
    if |times| == size && size > 0 then times[1..] + [t] else times + [t]
  }

  /** `clean_expired_timestamps`. */
  function Cleaned(c: Config, times: seq<Stamp>, now: Stamp): seq<Stamp> {
    if times != [] && times[0] < now - c.window then Cleaned(c, times[1..], now) else times
  }

  /** One login: the new entry, and whether the address is reported. */
  function LoginEntry(c: Config, entry: Entry, t: Stamp): (Entry, bool)
    requires c.Valid()
  {
    match entry
    case Seen(times) =>
      if times == [] then (Seen([t]), false)
      else
        var recent := Cleaned(c, Pushed(times, t, c.attempts), t);
        if |recent| >= c.attempts then (Reported(recent[|recent| - 1]), true) else (Seen(recent), false)
    case Reported(at) =>
      if t > at + c.rereportAfter then (Seen([t]), false) else (entry, false)
  }

  function LoginStep(c: Config, book: Book, ip: Ip, t: Stamp): (Book, bool)
    requires c.Valid()
  {
    if ip in book then
      var (entry, reported) := LoginEntry(c, book[ip], t);
      (book[ip := entry], reported)
    else (book[ip := Seen([t])], false)
  }

  /** `can_rereport`; a deque too short to have an element 1 raises IndexError, which means True. */
  function CanRereport(c: Config, entry: Entry, now: Stamp): bool {
    match entry
    case Seen(times) => |times| < 2 || now > times[1] + c.rereportAfter
    case Reported(at) => now > at + c.rereportAfter
  }

  function Kept(c: Config, entry: Entry, now: Stamp): bool {
    !CanRereport(c, entry, now) && (entry.Seen? ==> Cleaned(c, entry.times, now) != [])
  }

  function CleanedEntry(c: Config, entry: Entry, now: Stamp): Entry {
    if entry.Seen? then Seen(Cleaned(c, entry.times, now)) else entry
  }

  /** `cleanup_and_dump_state`, as far as the entries go. */
  function CleanupStep(c: Config, book: Book, now: Stamp): Book {
    map ip | ip in book && Kept(c, book[ip], now) :: CleanedEntry(c, book[ip], now)
  }

  /** The book in the middle of the clean-up loop. */
  function HalfCleaned(c: Config, book: Book, todo: set<Ip>, now: Stamp): Book {
    map ip | ip in book :: if ip in todo then book[ip] else CleanedEntry(c, book[ip], now)
  }

  lemma HalfCleanedStep(c: Config, book: Book, todo: set<Ip>, ip: Ip, now: Stamp)
    requires ip in todo && ip in book
    ensures HalfCleaned(c, book, todo, now)[ip := CleanedEntry(c, book[ip], now)]
         == HalfCleaned(c, book, todo - {ip}, now)
    ensures Rereportable(c, book, now) - (todo - {ip})
         == Rereportable(c, book, now) - todo + if CanRereport(c, book[ip], now) then {ip} else {}
  {
  }

  lemma CleanupEnds(c: Config, book: Book, now: Stamp)
    ensures var cleaned := HalfCleaned(c, book, {}, now) - Rereportable(c, book, now);
            CleanupStep(c, book, now) == map ip | ip in cleaned && cleaned[ip] != Seen([]) :: cleaned[ip]
  {
    hide Cleaned, CanRereport;
  }

  function Rereportable(c: Config, book: Book, now: Stamp): set<Ip> {
    set ip | ip in book && CanRereport(c, book[ip], now)
  }

  class LogBook {
    const config: Config
    var book: Book
    /** The addresses reported so far, with the time of the report. */
    var reports: seq<(Ip, Stamp)>

    constructor (config: Config)
      requires config.Valid()
      ensures this.config == config && book == map[] && reports == []
    {
      this.config := config;
      book, reports := map[], [];
    }

    method TolerantObserver(ip: Ip, t: Stamp)
      requires config.Valid()
      modifies this
      ensures book == LoginStep(config, old(book), ip, t).0
      ensures reports == old(reports) + if LoginStep(config, old(book), ip, t).1 then [(ip, t)] else []
    {
      if ip in book {
        match book[ip] {
          case Seen(times) =>
            if times == [] {
              book := book[ip := Seen([t])];
            } else {
              book := book[ip := Seen(Pushed(times, t, config.attempts))];
              CleanExpiredTimestamps(ip, t);
              if |book[ip].times| >= config.attempts {
                LastIsNewest(config, Pushed(times, t, config.attempts), t);
                ReportIpMultiple(ip);
              }
            }
          case Reported(at) =>
            if CanRereport(config, book[ip], t) {
              book := book[ip := Seen([t])];
            } else {
              assert book[ip := book[ip]] == book;
            }
        }
      } else {
        book := book[ip := Seen([t])];
      }
    }

    method CleanExpiredTimestamps(ip: Ip, now: Stamp)
      requires ip in book
      modifies this`book
      ensures book == old(book)[ip := CleanedEntry(config, old(book)[ip], now)]
    {
      assert book[ip := book[ip]] == book;
      while book[ip].Seen? && book[ip].times != [] && book[ip].times[0] < now - config.window
        invariant ip in book && book == old(book)[ip := book[ip]]
        invariant CleanedEntry(config, book[ip], now) == CleanedEntry(config, old(book)[ip], now)
        decreases if book[ip].Seen? then |book[ip].times| else 0
      {
        book := book[ip := Seen(book[ip].times[1..])];
      }
    }

    method ReportIpMultiple(ip: Ip)
      requires ip in book && book[ip].Seen? && |book[ip].times| >= 2
      modifies this
      ensures var times := old(book)[ip].times;
              && book == old(book)[ip := Reported(times[|times| - 1])]
              && reports == old(reports) + [(ip, times[|times| - 1])]
    {
      var times := book[ip].times;
      var last := times[|times| - 1];
      book := book[ip := Reported(last)];
      reports := reports + [(ip, last)];
    }

    method Cleanup(now: Stamp)
      modifies this`book
      ensures book == CleanupStep(config, old(book), now)
    {
      hide Cleaned, CanRereport;
      ghost var before := book;
      var todo, deleteMe: set<Ip> := book.Keys, {};
      while todo != {}
        invariant todo <= book.Keys && book == HalfCleaned(config, before, todo, now)
        invariant deleteMe == Rereportable(config, before, now) - todo
        decreases |todo|
      {
        var k :| k in todo;
        assert book[k] == before[k];
        if CanRereport(config, book[k], now) {
          deleteMe := deleteMe + {k};
        }
        HalfCleanedStep(config, before, todo, k, now);
        CleanExpiredTimestamps(k, now);
        todo := todo - {k};
      }
      CleanupEnds(config, before, now);
      book := book - deleteMe;
      FindAndDeleteEmptyEntries();
    }

    method FindAndDeleteEmptyEntries()
      modifies this`book
      ensures book == map k | k in old(book) && old(book)[k] != Seen([]) :: old(book)[k]
    {
      var deleteMe := set k | k in book && book[k] == Seen([]);
      book := book - deleteMe;
    }
  }

  lemma {:induction false} LastIsNewest(c: Config, times: seq<Stamp>, now: Stamp)
    requires c.window >= 0.0 && times != [] && times[|times| - 1] == now
    ensures var times' := Cleaned(c, times, now); times' != [] && times'[|times'| - 1] == now
    decreases |times|
  {
    if times[0] < now - c.window {
      LastIsNewest(c, times[1..], now);
    }
  }
}
