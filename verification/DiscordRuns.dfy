/** Runs of the Discord queue before it is stopped: nothing is lost or sent twice at once. */
module DiscordRuns {
  import opened Sequences
  import opened Discord

  /** An answer or error for a request that is not in flight, or a timer that is not set, cannot occur. */
  datatype Event = Written | Answered(i: nat, code: int) | Failed(i: nat) | Expired

  function Step(s: State, e: Event, maxRetries: int): State {
    match e
    case Written => Write(s)
    case Answered(i, code) => if i < |s.inFlight| then AfterResult(s, i, code, maxRetries) else s
    case Failed(i) => if i < |s.inFlight| then AfterError(s, i, maxRetries) else s
    case Expired => if s.timers > 0 then TimerFires(s) else s
  }

  function Run(s: State, events: seq<Event>, maxRetries: int): State
    decreases |events|
  {
    if events == [] then s else Step(Run(s, Front(events), maxRetries), Last(events), maxRetries)
  }

  function Ids(entries: seq<Entry>): seq<nat> {
    if entries == [] then [] else [entries[0].id] + Ids(entries[1..])
  }

  function UpTo(n: nat): seq<nat> {
    if n == 0 then [] else UpTo(n - 1) + [n - 1]
  }

  /** The ids of a list of entries, each as often as it occurs. */
  function Bag(entries: seq<Entry>): multiset<nat> {
    if entries == [] then multiset{} else multiset{entries[0].id} + Bag(entries[1..])
  }

  function Places(s: State): multiset<nat> {
    Bag(s.queue) + Bag(s.inFlight) + multiset(s.finished)
  }

  /** How often an entry may be sent, not counting answers of 429. */
  function MaxSends(maxRetries: int): nat {
    if maxRetries < 0 then 1 else maxRetries + 1
  }

  // ---------------------------------------------------------------- the invariants

  predicate OneAtATime(s: State) {
    !s.stopped && |s.inFlight| <= 1 && (s.sending <==> |s.inFlight| == 1)
  }

  /** One send at a time, and a waiting queue is always going to be looked at again. */
  predicate Scheduled(s: State) {
    OneAtATime(s) && (s.queue != [] && !s.sending ==> s.timers > 0)
  }

  /** Every written entry is in exactly one place. */
  ghost predicate Conserved(s: State) {
    forall id: nat :: Places(s)[id] == if id < s.written then 1 else 0
  }

  /** How many of an entry's sends were answered by something other than 429, or not yet. */
  function Charged(s: State, id: nat): int {
    var all: int, limited: int := s.sends[id], s.limited[id];
    all - limited
  }

  ghost predicate Waiting(s: State, e: Entry, maxRetries: int) {
    e.attempts < MaxSends(maxRetries) && Charged(s, e.id) == e.attempts
  }

  ghost predicate Sent(s: State, e: Entry, maxRetries: int) {
    e.attempts < MaxSends(maxRetries) && Charged(s, e.id) == e.attempts + 1
  }

  ghost predicate Bounded(s: State, maxRetries: int) {
    forall id: nat :: 0 <= Charged(s, id) <= if id < s.written then MaxSends(maxRetries) else 0
  }

  ghost predicate Accounted(s: State, maxRetries: int) {
    && (forall k: nat :: k < |s.queue| ==> Waiting(s, s.queue[k], maxRetries))
    && (forall k: nat :: k < |s.inFlight| ==> Sent(s, s.inFlight[k], maxRetries))
    && Bounded(s, maxRetries)
  }

  // ---------------------------------------------------------------- facts about ids

  lemma {:induction false} BagConcat(a: seq<Entry>, b: seq<Entry>)
    ensures Bag(a + b) == Bag(a) + Bag(b)
  {
    if a == [] {
      assert a + b == b;
    } else {
      assert (a + b)[1..] == a[1..] + b;
      BagConcat(a[1..], b);
    }
  }

  lemma BagOne(e: Entry)
    ensures Bag([e]) == multiset{e.id} && Bag([]) == multiset{}
  {
    assert [e][1..] == [];
  }

  lemma {:induction false} BagHas(entries: seq<Entry>, e: Entry)
    requires e in entries
    ensures Bag(entries)[e.id] >= 1
  {
    if e != entries[0] {
      assert e in entries[1..];
      BagHas(entries[1..], e);
    }
  }

  /** Different places hold different entries. */
  lemma PlacesDisjoint(s: State, a: Entry, b: Entry)
    requires Conserved(s) && a in s.queue && b in s.inFlight
    ensures a.id != b.id
  {
    BagHas(s.queue, a);
    BagHas(s.inFlight, b);
    assert Places(s)[a.id] <= 1;
  }

  lemma HeadDistinct(s: State, e: Entry)
    requires Conserved(s) && s.queue != [] && e in s.queue[1..]
    ensures s.queue[0].id != e.id
  {
    BagHas(s.queue[1..], e);
    assert Places(s)[e.id] <= 1;
  }

  lemma QueuedWasWritten(s: State, e: Entry)
    requires Conserved(s) && e in s.queue
    ensures e.id < s.written
  {
    BagHas(s.queue, e);
    assert Places(s)[e.id] >= 1;
  }

  // ---------------------------------------------------------------- preservation

  lemma ProcessPlaces(s: State)
    ensures Places(ProcessQueue(s)) == Places(s)
  {
    if !s.stopped && !s.sending && s.queue != [] {
      BagConcat(s.inFlight, [s.queue[0]]);
      BagOne(s.queue[0]);
    }
  }

  lemma WritePlaces(s: State)
    ensures !s.stopped ==> Places(Write(s)) == Places(s) + multiset{s.written}
  {
    BagConcat(s.queue, [Entry(s.written, 0)]);
    BagOne(Entry(s.written, 0));
    ProcessPlaces(s.(queue := s.queue + [Entry(s.written, 0)], written := s.written + 1));
  }

  lemma TakenPlaces(s: State, i: nat)
    requires i < |s.inFlight|
    ensures Places(s) == Places(Taken(s, i)) + multiset{s.inFlight[i].id}
  {
    var e, a, b := s.inFlight[i], s.inFlight[..i], s.inFlight[i + 1..];
    assert s.inFlight == a + ([e] + b);
    BagConcat(a, [e] + b);
    BagConcat([e], b);
    BagConcat(a, b);
    BagOne(e);
  }

  lemma PutFrontPlaces(s: State, e: Entry)
    ensures Places(s.(queue := [e] + s.queue)) == Places(s) + multiset{e.id}
  {
    BagConcat([e], s.queue);
    BagOne(e);
  }

  lemma RetryPlaces(s: State, e: Entry)
    ensures Places(Retry(s, e)) == Places(s) + multiset{e.id}
  {
    var again := Entry(e.id, e.attempts + 1);
    BagConcat(s.queue, [again]);
    BagOne(again);
  }

  lemma FinishPlaces(s: State, e: Entry)
    ensures Places(Finish(s, e)) == Places(s) + multiset{e.id}
  {
  }

  lemma IdlePlaces(s: State)
    ensures Places(Idle(s)) == Places(s)
  {
  }

  lemma LimitedPlaces(s: State, limited: multiset<nat>)
    ensures Places(s.(limited := limited)) == Places(s)
  {
  }

  lemma ResultPlaces(s: State, i: nat, code: int, maxRetries: int)
    requires i < |s.inFlight|
    ensures Places(AfterResult(s, i, code, maxRetries)) == Places(s)
  {
    hide Places, Taken, Retry, Finish, Idle;
    var e, t := s.inFlight[i], Taken(s, i);
    TakenPlaces(s, i);
    if code == 429 {
      PutFrontPlaces(t, e);
      LimitedPlaces(t.(queue := [e] + t.queue), t.limited + multiset{e.id});
      IdlePlaces(t.(queue := [e] + t.queue, limited := t.limited + multiset{e.id}));
    } else if code >= 500 && e.attempts < maxRetries {
      RetryPlaces(t, e);
      IdlePlaces(Retry(t, e));
    } else {
      FinishPlaces(t, e);
      IdlePlaces(Finish(t, e));
    }
  }

  lemma ErrorPlaces(s: State, i: nat, maxRetries: int)
    requires i < |s.inFlight|
    ensures Places(AfterError(s, i, maxRetries)) == Places(s)
  {
    hide Places, Taken, Retry, Finish, Idle;
    var e, t := s.inFlight[i], Taken(s, i);
    TakenPlaces(s, i);
    if e.attempts < maxRetries {
      RetryPlaces(t, e);
      IdlePlaces(Retry(t, e));
    } else {
      FinishPlaces(t, e);
      IdlePlaces(Finish(t, e));
    }
  }

  lemma SamePlacesConserve(s: State, s': State)
    requires Conserved(s) && Places(s') == Places(s) && s'.written == s.written
    ensures Conserved(s')
  {
    hide Places;
  }

  lemma WriteConserves(s: State)
    requires Conserved(s) && !s.stopped
    ensures Conserved(Write(s))
  {
    WritePlaces(s);
    var s' := Write(s);
    assert s'.written == s.written + 1;
    hide Places, Write;
  }

  lemma AnswerConserves(s: State, i: nat, code: int, maxRetries: int)
    requires Conserved(s) && i < |s.inFlight|
    ensures Conserved(AfterResult(s, i, code, maxRetries))
    ensures Conserved(AfterError(s, i, maxRetries))
  {
    hide Conserved, Places;
    ResultPlaces(s, i, code, maxRetries);
    ErrorPlaces(s, i, maxRetries);
    SamePlacesConserve(s, AfterResult(s, i, code, maxRetries));
    SamePlacesConserve(s, AfterError(s, i, maxRetries));
  }

  lemma TimerConserves(s: State)
    requires Conserved(s) && s.timers > 0
    ensures Conserved(TimerFires(s))
  {
    hide Conserved, Bag;
    var s' := s.(timers := s.timers - 1);
    ProcessPlaces(s');
    SamePlacesConserve(s, TimerFires(s));
  }

  lemma StepConserves(s: State, e: Event, maxRetries: int)
    requires Conserved(s) && !s.stopped
    ensures Conserved(Step(s, e, maxRetries))
  {
    hide Conserved, Write, AfterResult, AfterError, TimerFires;
    match e
    case Written => WriteConserves(s);
    case Answered(i, code) => if i < |s.inFlight| { AnswerConserves(s, i, code, maxRetries); }
    case Failed(i) => if i < |s.inFlight| { AnswerConserves(s, i, 0, maxRetries); }
    case Expired => if s.timers > 0 { TimerConserves(s); }
  }

  lemma ProcessAccounts(s: State, maxRetries: int)
    requires OneAtATime(s) && Conserved(s) && Accounted(s, maxRetries)
    ensures Accounted(ProcessQueue(s), maxRetries)
  {
    hide Bag, Places, Conserved;
    if !s.sending && s.queue != [] {
      var e, s' := s.queue[0], ProcessQueue(s);
      QueuedWasWritten(s, e);
      SendCharges(s, e);
      forall k: nat | k < |s'.queue|
        ensures Waiting(s', s'.queue[k], maxRetries)
      {
        assert s'.queue[k] == s.queue[k + 1];
        HeadDistinct(s, s'.queue[k]);
      }
      assert Waiting(s, e, maxRetries);
      assert s'.inFlight == [e];
    }
  }

  lemma SendCharges(s: State, e: Entry)
    requires !s.stopped && !s.sending && s.queue != [] && e == s.queue[0]
    ensures forall id: nat :: Charged(ProcessQueue(s), id) == Charged(s, id) + if id == e.id then 1 else 0
  {
  }

  lemma WriteAccounts(s: State, maxRetries: int)
    requires OneAtATime(s) && Conserved(s) && Accounted(s, maxRetries)
    ensures Accounted(Write(s), maxRetries)
  {
    var s' := Appended(s);
    AppendedConserves(s);
    AppendedAccounts(s, maxRetries);
    hide Conserved, Accounted, ProcessQueue;
    ProcessAccounts(s', maxRetries);
  }

  function Appended(s: State): State {
    s.(queue := s.queue + [Entry(s.written, 0)], written := s.written + 1)
  }

  lemma AppendedConserves(s: State)
    requires Conserved(s)
    ensures Conserved(Appended(s))
  {
    BagConcat(s.queue, [Entry(s.written, 0)]);
    BagOne(Entry(s.written, 0));
    hide Bag;
    assert Places(Appended(s)) == Places(s) + multiset{s.written};
  }

  lemma AppendedAccounts(s: State, maxRetries: int)
    requires Accounted(s, maxRetries)
    requires Charged(s, s.written) == 0
    ensures Accounted(Appended(s), maxRetries)
  {
    var s' := Appended(s);
    assert forall id: nat :: Charged(s', id) == Charged(s, id);
  }

  /** Leaving the flight by any road: what is charged to the entry, and where it waits now. */
  lemma AnswerAccounts(s: State, t: State, i: nat, maxRetries: int)
    requires OneAtATime(s) && Conserved(s) && Accounted(s, maxRetries) && i < |s.inFlight|
    requires t.inFlight == [] && t.written == s.written && t.sends == s.sends
    requires var e := s.inFlight[i];
             || (t.queue == [e] + s.queue && t.limited == s.limited + multiset{e.id})
             || (t.queue == s.queue + [Entry(e.id, e.attempts + 1)] && t.limited == s.limited
                 && e.attempts < maxRetries)
             || (t.queue == s.queue && t.limited == s.limited)
    ensures Accounted(t, maxRetries)
  {
    var e := s.inFlight[i];
    hide Conserved;
    assert Sent(s, e, maxRetries);
    var freed := if t.limited == s.limited then 0 else 1;
    assert forall id: nat :: Charged(t, id) == Charged(s, id) - if id == e.id then freed else 0;
    forall k: nat | k < |t.queue|
      ensures Waiting(t, t.queue[k], maxRetries)
    {
      if t.queue[k].id != e.id {
        assert t.queue[k] in s.queue;
      } else if t.queue[k] in s.queue {
        PlacesDisjoint(s, t.queue[k], e);
      }
    }
  }

  lemma StepSchedules(s: State, e: Event, maxRetries: int)
    requires Scheduled(s)
    ensures Scheduled(Step(s, e, maxRetries))
  {
  }

  lemma ResultAccounts(s: State, i: nat, code: int, maxRetries: int)
    requires OneAtATime(s) && Conserved(s) && Accounted(s, maxRetries) && i < |s.inFlight|
    ensures Accounted(AfterResult(s, i, code, maxRetries), maxRetries)
    ensures Accounted(AfterError(s, i, maxRetries), maxRetries)
  {
    hide Accounted, Conserved;
    AnswerAccounts(s, AfterResult(s, i, code, maxRetries), i, maxRetries);
    AnswerAccounts(s, AfterError(s, i, maxRetries), i, maxRetries);
  }

  lemma TimerAccounts(s: State, maxRetries: int)
    requires OneAtATime(s) && Conserved(s) && Accounted(s, maxRetries) && s.timers > 0
    ensures Accounted(TimerFires(s), maxRetries)
  {
    var s' := s.(timers := s.timers - 1);
    assert Conserved(s') by {
      hide Bag;
      SamePlacesConserve(s, s');
    }
    assert Accounted(s', maxRetries) by {
      assert forall id: nat :: Charged(s', id) == Charged(s, id);
    }
    hide Accounted, Conserved;
    ProcessAccounts(s', maxRetries);
  }

  lemma StepAccounts(s: State, e: Event, maxRetries: int)
    requires OneAtATime(s) && Conserved(s) && Accounted(s, maxRetries)
    ensures Accounted(Step(s, e, maxRetries), maxRetries)
  {
    hide Accounted, Conserved, Write, AfterResult, AfterError, TimerFires;
    match e
    case Written => WriteAccounts(s, maxRetries);
    case Answered(i, code) => if i < |s.inFlight| { ResultAccounts(s, i, code, maxRetries); }
    case Failed(i) => if i < |s.inFlight| { ResultAccounts(s, i, 0, maxRetries); }
    case Expired => if s.timers > 0 { TimerAccounts(s, maxRetries); }
  }

  /** Main result, in every state a run reaches: each written entry is in exactly one of queue, flight
      and finished; at most one is in flight; a waiting queue has a timer pending; and no entry is
      sent more than `maxRetries + 1` times, sends answered 429 aside. */
  lemma {:induction false} RunKeepsInvariants(events: seq<Event>, maxRetries: int)
    ensures var s := Run(START, events, maxRetries); Scheduled(s) && Conserved(s) && Accounted(s, maxRetries)
    decreases |events|
  {
    hide Step, Scheduled, Conserved, Accounted;
    if events == [] {
      StartIsGood(maxRetries);
    } else {
      var s, e := Run(START, Front(events), maxRetries), Last(events);
      RunKeepsInvariants(Front(events), maxRetries);
      ScheduledMeans(s);
      StepSchedules(s, e, maxRetries);
      StepConserves(s, e, maxRetries);
      StepAccounts(s, e, maxRetries);
    }
  }

  lemma ScheduledMeans(s: State)
    requires Scheduled(s)
    ensures OneAtATime(s) && !s.stopped
  {
  }

  lemma StartIsGood(maxRetries: int)
    ensures Scheduled(START) && Conserved(START) && Accounted(START, maxRetries)
  {
  }

  // ---------------------------------------------------------------- order

  /** The event is a server error or a failed send after which the entry is tried again. */
  predicate Retries(s: State, e: Event, maxRetries: int) {
    && (e.Failed? || (e.Answered? && e.code >= 500))
    && e.i < |s.inFlight| && s.inFlight[e.i].attempts < maxRetries
  }

  /** The entry to try again is put behind others that wait. */
  predicate Reorders(s: State, e: Event, maxRetries: int) {
    Retries(s, e, maxRetries) && s.queue != []
  }

  predicate InOrder(s: State) {
    s.finished + Ids(s.inFlight) + Ids(s.queue) == UpTo(s.written)
  }

  lemma {:induction false} IdsConcat(a: seq<Entry>, b: seq<Entry>)
    ensures Ids(a + b) == Ids(a) + Ids(b)
  {
    if a == [] {
      assert a + b == b;
    } else {
      assert (a + b)[1..] == a[1..] + b;
      IdsConcat(a[1..], b);
    }
  }

  lemma IdsOne(e: Entry)
    ensures Ids([e]) == [e.id] && Ids([]) == []
  {
    assert [e][1..] == [];
  }

  lemma Regroup(a: seq<nat>, b: seq<nat>, c: seq<nat>)
    ensures a + b + c == a + (b + c) && a + [] + b == a + b
  {
  }

  lemma ProcessInOrder(s: State)
    requires OneAtATime(s) && InOrder(s)
    ensures InOrder(ProcessQueue(s))
  {
    if !s.sending && s.queue != [] {
      hide UpTo;
      var e, rest := s.queue[0], s.queue[1..];
      IdsOne(e);
      assert s.inFlight == [] && s.inFlight + [e] == [e];
      Regroup(s.finished, [e.id], Ids(rest));
      Regroup(s.finished, Ids(s.queue), []);
    }
  }

  lemma WriteInOrder(s: State)
    requires Scheduled(s) && InOrder(s)
    ensures InOrder(Write(s))
  {
    var e := Entry(s.written, 0);
    var s' := s.(queue := s.queue + [e], written := s.written + 1);
    IdsConcat(s.queue, [e]);
    IdsOne(e);
    Regroup(s.finished + Ids(s.inFlight), Ids(s.queue), [e.id]);
    assert InOrder(s');
    hide InOrder;
    ProcessInOrder(s');
  }

  lemma {:induction false} UpToCounts(n: nat)
    ensures |UpTo(n)| == n && forall k :: 0 <= k < n ==> UpTo(n)[k] == k
  {
    if n > 0 {
      UpToCounts(n - 1);
    }
  }

  /** The entry in flight comes back, to the front, to the back, or as finished. */
  lemma LeavesInOrder(s: State, i: nat, t: State)
    requires Scheduled(s) && InOrder(s) && i < |s.inFlight|
    requires t.inFlight == [] && t.written == s.written
    requires var e := s.inFlight[i];
             || (t.queue == [e] + s.queue && t.finished == s.finished)
             || (t.queue == s.queue && t.finished == s.finished + [e.id])
    ensures InOrder(t)
  {
    hide UpTo;
    var e := s.inFlight[i];
    assert s.inFlight == [e];
    IdsOne(e);
    IdsConcat([e], s.queue);
    Regroup(s.finished, [e.id], Ids(s.queue));
    Regroup(s.finished, [e.id] + Ids(s.queue), []);
    Regroup(s.finished + [e.id], Ids(s.queue), []);
  }

  /** Behind other entries it is out of place, since every entry has its own number. */
  lemma BehindOthersOutOfOrder(s: State, i: nat, t: State)
    requires Scheduled(s) && InOrder(s) && i < |s.inFlight| && s.queue != []
    requires t.inFlight == [] && t.written == s.written && t.finished == s.finished
    requires t.queue == s.queue + [Entry(s.inFlight[i].id, s.inFlight[i].attempts + 1)]
    ensures !InOrder(t)
  {
    var e, first, k := s.inFlight[i], s.queue[0], |s.finished|;
    assert s.inFlight == [e];
    IdsOne(e);
    UpToCounts(s.written);
    hide UpTo;
    assert (s.finished + [e.id] + Ids(s.queue))[k] == e.id;
    assert (s.finished + [e.id] + Ids(s.queue))[k + 1] == first.id;
    assert Ids(t.queue)[0] == first.id;
    assert (t.finished + Ids([]) + Ids(t.queue))[k] == first.id;
  }

  lemma AnswerOrder(s: State, i: nat, code: int, maxRetries: int)
    requires Scheduled(s) && InOrder(s) && i < |s.inFlight|
    ensures InOrder(AfterResult(s, i, code, maxRetries)) <==> !Reorders(s, Answered(i, code), maxRetries)
  {
    hide InOrder;
    var t, e := AfterResult(s, i, code, maxRetries), s.inFlight[i];
    assert Taken(s, i).inFlight == [];
    if Reorders(s, Answered(i, code), maxRetries) {
      BehindOthersOutOfOrder(s, i, t);
    } else if Retries(s, Answered(i, code), maxRetries) {
      AloneInOrder(s, i, t);
    } else {
      LeavesInOrder(s, i, t);
    }
  }

  lemma ErrorOrder(s: State, i: nat, maxRetries: int)
    requires Scheduled(s) && InOrder(s) && i < |s.inFlight|
    ensures InOrder(AfterError(s, i, maxRetries)) <==> !Reorders(s, Failed(i), maxRetries)
  {
    hide InOrder;
    var t, e := AfterError(s, i, maxRetries), s.inFlight[i];
    assert Taken(s, i).inFlight == [];
    if Reorders(s, Failed(i), maxRetries) {
      BehindOthersOutOfOrder(s, i, t);
    } else if Retries(s, Failed(i), maxRetries) {
      AloneInOrder(s, i, t);
    } else {
      LeavesInOrder(s, i, t);
    }
  }

  /** The only entry of the queue is in its place, whatever its attempts. */
  lemma AloneInOrder(s: State, i: nat, t: State)
    requires Scheduled(s) && InOrder(s) && i < |s.inFlight| && s.queue == []
    requires t.inFlight == [] && t.written == s.written && t.finished == s.finished
    requires t.queue == s.queue + [Entry(s.inFlight[i].id, s.inFlight[i].attempts + 1)]
    ensures InOrder(t)
  {
    var e, again := s.inFlight[i], Entry(s.inFlight[i].id, s.inFlight[i].attempts + 1);
    assert s.inFlight == [e] && t.queue == [again];
    IdsOne(e);
    IdsOne(again);
  }

  /** Main result: a step keeps the order if and only if it does not put an entry that is tried again
      behind others. */
  lemma StepKeepsOrderExactly(s: State, e: Event, maxRetries: int)
    requires Scheduled(s) && InOrder(s)
    ensures InOrder(Step(s, e, maxRetries)) <==> !Reorders(s, e, maxRetries)
  {
    hide Write, AfterResult, AfterError, ProcessQueue, InOrder;
    match e
    case Written => WriteInOrder(s);
    case Answered(i, code) => if i < |s.inFlight| { AnswerOrder(s, i, code, maxRetries); }
    case Failed(i) => if i < |s.inFlight| { ErrorOrder(s, i, maxRetries); }
    case Expired =>
      if s.timers > 0 {
        SameOrder(s, s.(timers := s.timers - 1));
        ProcessInOrder(s.(timers := s.timers - 1));
      }
  }

  lemma SameOrder(s: State, t: State)
    requires InOrder(s) && t == s.(timers := t.timers)
    ensures InOrder(t)
  {
  }

  function After(events: seq<Event>, k: nat, maxRetries: int): State
    requires k <= |events|
  {
    Run(START, events[..k], maxRetries)
  }

  predicate AlwaysInOrder(events: seq<Event>, maxRetries: int) {
    forall k: nat | k <= |events| :: InOrder(After(events, k, maxRetries))
  }

  predicate NeverReorders(events: seq<Event>, maxRetries: int) {
    forall k: nat | k < |events| :: !Reorders(After(events, k, maxRetries), events[k], maxRetries)
  }

  /** One more event of a run. */
  lemma AfterNext(events: seq<Event>, k: nat, maxRetries: int)
    requires k < |events|
    ensures After(events, k + 1, maxRetries) == Step(After(events, k, maxRetries), events[k], maxRetries)
    ensures Scheduled(After(events, k, maxRetries))
  {
    hide Step, Scheduled, Conserved, Accounted;
    assert Front(events[..k + 1]) == events[..k] && Last(events[..k + 1]) == events[k];
    RunKeepsInvariants(events[..k], maxRetries);
  }

  lemma {:induction false} InOrderUpTo(events: seq<Event>, k: nat, maxRetries: int)
    requires NeverReorders(events, maxRetries) && k <= |events|
    ensures InOrder(After(events, k, maxRetries))
  {
    if k > 0 {
      hide After, InOrder, Step, Reorders;
      InOrderUpTo(events, k - 1, maxRetries);
      AfterNext(events, k - 1, maxRetries);
      StepKeepsOrderExactly(After(events, k - 1, maxRetries), events[k - 1], maxRetries);
    }
  }

  /** Main result: a run keeps its entries in the order written at all times, finished ones first, then
      the one in flight, then the queue, if and only if it never puts an entry that is tried again
      behind others. */
  lemma InOrderExactly(events: seq<Event>, maxRetries: int)
    ensures AlwaysInOrder(events, maxRetries) <==> NeverReorders(events, maxRetries)
  {
    hide After, InOrder, Step, Reorders;
    if NeverReorders(events, maxRetries) {
      forall k: nat | k <= |events|
        ensures InOrder(After(events, k, maxRetries))
      {
        InOrderUpTo(events, k, maxRetries);
      }
    }
    if AlwaysInOrder(events, maxRetries) {
      forall k: nat | k < |events|
        ensures !Reorders(After(events, k, maxRetries), events[k], maxRetries)
      {
        AfterNext(events, k, maxRetries);
        assert InOrder(After(events, k + 1, maxRetries));
        StepKeepsOrderExactly(After(events, k, maxRetries), events[k], maxRetries);
      }
    }
  }

  /** So such a run finishes its entries in the order written. */
  lemma FinishInOrder(events: seq<Event>, maxRetries: int)
    requires NeverReorders(events, maxRetries)
    ensures var s := Run(START, events, maxRetries); InOrder(s) && s.finished <= UpTo(s.written)
  {
    InOrderUpTo(events, |events|, maxRetries);
    assert events[..|events|] == events;
    var s := Run(START, events, maxRetries);
    Regroup(s.finished, Ids(s.inFlight), Ids(s.queue));
  }

  /** Without server errors and failed sends nothing is ever put behind others, so the order is kept. */
  lemma OrderlyRun(events: seq<Event>, maxRetries: int)
    requires forall e :: e in events ==> !e.Failed? && (e.Answered? ==> e.code < 500)
    ensures NeverReorders(events, maxRetries)
    ensures var s := Run(START, events, maxRetries); InOrder(s) && s.finished <= UpTo(s.written)
  {
    assert NeverReorders(events, maxRetries) by {
      hide After;
    }
    FinishInOrder(events, maxRetries);
  }

  /** A server error sends an entry to the back: the second one written can finish first. */
  lemma ServerErrorReorders()
    ensures Run(START, [Written, Written, Answered(0, 503), Expired, Answered(0, 204)], 5).finished == [1]
  {
    var a, b, c, d := Written, Answered(0, 503), Expired, Answered(0, 204);
    var e2, e3, e4 := [a, a], [a, a, b], [a, a, b, c];
    assert Front([a]) == [] && Front(e2) == [a] && Front(e3) == e2 && Front(e4) == e3;
    assert Front([a, a, b, c, d]) == e4;
    assert Run(START, [a], 5).inFlight == [Entry(0, 0)];
    assert Run(START, e2, 5).queue == [Entry(1, 0)];
    assert Run(START, e3, 5).queue == [Entry(1, 0), Entry(0, 1)];
    assert Run(START, e4, 5).inFlight == [Entry(1, 0)];
  }

  // ---------------------------------------------------------------- progress

  /** Answer what is in flight, or let the timer start the next send. */
  function Drain(s: State, maxRetries: int): seq<Event>
    requires Scheduled(s)
    decreases 2 * |s.queue| + |s.inFlight|
  {
    if s.sending then
      var e := Answered(0, 204);
      [e] + Drain(Step(s, e, maxRetries), maxRetries)
    else if s.queue != [] then [Expired] + Drain(Step(s, Expired, maxRetries), maxRetries)
    else []
  }

  lemma {:induction false} RunFirst(s: State, e: Event, events: seq<Event>, maxRetries: int)
    ensures Run(s, [e] + events, maxRetries) == Run(Step(s, e, maxRetries), events, maxRetries)
    decreases |events|
  {
    if events == [] {
      assert [e] + events == [e] && Front([e]) == [];
    } else {
      assert Front([e] + events) == [e] + Front(events);
      RunFirst(s, e, Front(events), maxRetries);
    }
  }

  /** Main result: no entry can get stuck. From every reachable state, successful answers and the
      pending timer alone finish everything that was written. */
  lemma {:induction false} CanAlwaysDrain(s: State, maxRetries: int)
    requires Scheduled(s)
    ensures var s' := Run(s, Drain(s, maxRetries), maxRetries);
            s'.queue == [] && s'.inFlight == [] && s'.written == s.written
    ensures forall e :: e in Drain(s, maxRetries) ==> e == Expired || e == Answered(0, 204)
    decreases 2 * |s.queue| + |s.inFlight|
  {
    if s.sending || s.queue != [] {
      var e := if s.sending then Answered(0, 204) else Expired;
      var s' := Step(s, e, maxRetries);
      CanAlwaysDrain(s', maxRetries);
      RunFirst(s, e, Drain(s', maxRetries), maxRetries);
    }
  }
}
