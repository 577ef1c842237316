/** cowrie-source/output/discord.py: the webhook queue, with retries and rate limits, one request
    at a time. */
module Discord {

  datatype Entry = Entry(id: nat, attempts: nat)

  /** The plugin's `_queue`, `_sending` and `_stopped`; the requests and `callLater` timers the reactor
      holds for it; and a record of what happened: entries given up or delivered, all sends, and the
      sends answered 429. `written` numbers the entries. */
  datatype State = State(
    queue: seq<Entry>, sending: bool, stopped: bool, inFlight: seq<Entry>, timers: nat,
    written: nat, finished: seq<nat>, sends: multiset<nat>, limited: multiset<nat>)

  const START := State([], false, false, [], 0, 0, [], multiset{}, multiset{})

  function ProcessQueue(s: State): State {
    if s.stopped || s.sending || s.queue == [] then s
    else s.(sending := true, queue := s.queue[1..], inFlight := s.inFlight + [s.queue[0]],
            sends := s.sends + multiset{s.queue[0].id})
  }

  function Write(s: State): State {
    if s.stopped then s
    else ProcessQueue(s.(queue := s.queue + [Entry(s.written, 0)], written := s.written + 1))
  }

  /** The request `i` in flight is answered. */
  function Taken(s: State, i: nat): State
    requires i < |s.inFlight|
  {
    s.(inFlight := s.inFlight[..i] + s.inFlight[i + 1..])
  }

  function Idle(s: State): State {
    s.(sending := false, timers := s.timers + 1)
  }

  function Retry(s: State, e: Entry): State {
    s.(queue := s.queue + [Entry(e.id, e.attempts + 1)])
  }

  function Finish(s: State, e: Entry): State {
    s.(finished := s.finished + [e.id])
  }

  function AfterResult(s: State, i: nat, code: int, maxRetries: int): State
    requires i < |s.inFlight|
  {
    var e, s := s.inFlight[i], Taken(s, i);
    if code == 429 then Idle(s.(queue := [e] + s.queue, limited := s.limited + multiset{e.id}))
    else if code >= 500 && e.attempts < maxRetries then Idle(Retry(s, e))
    else Idle(Finish(s, e))
  }

  function AfterError(s: State, i: nat, maxRetries: int): State
    requires i < |s.inFlight|
  {
    var e, s := s.inFlight[i], Taken(s, i);
    if e.attempts < maxRetries then Idle(Retry(s, e)) else Idle(Finish(s, e))
  }

  function TimerFires(s: State): State
    requires s.timers > 0
  {
    ProcessQueue(s.(timers := s.timers - 1))
  }

  class Output {
    const maxRetries: int
    var queue: seq<Entry>
    var sending: bool
    var stopped: bool
    var inFlight: seq<Entry>
    var timers: nat
    var written: nat
    var finished: seq<nat>
    var sends: multiset<nat>
    var limited: multiset<nat>

    function Snapshot(): State
      reads this
    {
      State(queue, sending, stopped, inFlight, timers, written, finished, sends, limited)
    }

    constructor (maxRetries: int)
      ensures this.maxRetries == maxRetries && Snapshot() == START
    {
      this.maxRetries := maxRetries;
      queue, sending, stopped, inFlight, timers, written := [], false, false, [], 0, 0;
      finished, sends, limited := [], multiset{}, multiset{};
    }

    method WriteEvent()
      modifies this
      ensures Snapshot() == Write(old(Snapshot()))
    {
      if stopped {
        return;
      }
      queue := queue + [Entry(written, 0)];
      written := written + 1;
      RunQueue();
    }

    method RunQueue()
      modifies this
      ensures Snapshot() == ProcessQueue(old(Snapshot()))
    {
      if stopped || sending || queue == [] {
        return;
      }
      sending := true;
      var entry := queue[0];
      queue := queue[1..];
      inFlight := inFlight + [entry];
      sends := sends + multiset{entry.id};
    }

    method Schedule()
      modifies this`timers
      ensures timers == old(timers) + 1
    {
      timers := timers + 1;
    }

    method OnTimer()
      requires timers > 0
      modifies this
      ensures Snapshot() == TimerFires(old(Snapshot()))
    {
      timers := timers - 1;
      RunQueue();
    }

    method OnResult(i: nat, code: int)
      requires i < |inFlight|
      modifies this
      ensures Snapshot() == AfterResult(old(Snapshot()), i, code, maxRetries)
    {
      ghost var after := AfterResult(Snapshot(), i, code, maxRetries);
      var entry := inFlight[i];
      inFlight := inFlight[..i] + inFlight[i + 1..];
      if code == 429 {
        queue := [entry] + queue;
        limited := limited + multiset{entry.id};
        assert after == Idle(Snapshot());
      } else if code >= 500 && entry.attempts < maxRetries {
        queue := queue + [Entry(entry.id, entry.attempts + 1)];
        assert after == Idle(Snapshot());
      } else {
        finished := finished + [entry.id];
        assert after == Idle(Snapshot());
      }
      sending := false;
      Schedule();
    }

    method OnError(i: nat)
      requires i < |inFlight|
      modifies this
      ensures Snapshot() == AfterError(old(Snapshot()), i, maxRetries)
    {
      var entry := inFlight[i];
      inFlight := inFlight[..i] + inFlight[i + 1..];
      if entry.attempts < maxRetries {
        queue := queue + [Entry(entry.id, entry.attempts + 1)];
      } else {
        finished := finished + [entry.id];
      }
      sending := false;
      Schedule();
    }
  }
}
