/** The TFTP client, a lock-step server (RFC 1350), and a network that loses, repeats and reorders packets. */
module TftpNetwork {
  import opened Bytes
  import opened Tftp

  /** The server's side of RFC 1350, sections 2 and 5, in numbers of its own. */
  const SERVER_BLOCK := 512

  function Min(a: nat, b: nat): nat {
    if a < b then a else b
  }

  /** How many DATA packets `file` takes: the last one is short, perhaps empty. */
  function Blocks(file: seq<Byte>): nat {
    |file| / SERVER_BLOCK + 1
  }

  function FirstBlocks(file: seq<Byte>, k: nat): seq<Byte> {
    file[..Min(SERVER_BLOCK * k, |file|)]
  }

  function Block(file: seq<Byte>, k: nat): seq<Byte>
    requires k >= 1
  {
    file[Min(SERVER_BLOCK * (k - 1), |file|)..Min(SERVER_BLOCK * k, |file|)]
  }

  /** The block number is sent in 16 bits. */
  function Data(file: seq<Byte>, k: nat): (d: Packet)
    requires k >= 1
    ensures |d| >= 4 && Opcode(d) == OPCODE_DATA && Number(d) == k % U16 && d[4..] == Block(file, k)
  {
    var d := [0, 3] + PutBE16(k % U16) + Block(file, k);
    assert d[..2] == [0, 3] && d[2..4] == PutBE16(k % U16);
    d
  }

  function Error(code: nat, message: seq<Byte>): (d: Packet)
    requires code < U16
    ensures |d| >= 5 && Opcode(d) == OPCODE_ERROR
  {
    var d := [0, 5] + PutBE16(code) + message + [0];
    assert d[..2] == [0, 5];
    d
  }

  /** `served` is the last block the server has sent, 0 before the request reaches it. `net` holds
      every packet the server ever sent: any of them may arrive at any time, any number of times,
      or never. The client's packets live in the same way in `client.sent`. */
  datatype System = System(client: Client, file: seq<Byte>, served: nat, net: set<Packet>)

  datatype Event =
    | ToClient(d: Packet)
    | ToServer(d: Packet)
    | Expire
    | Refuse(code: nat, message: seq<Byte>)

  /** A lock-step server: block `served + 1` follows only on the acknowledgement of `served`. */
  function Serve(s: System, d: Packet): System {
    if |d| < 4 then s
    else if || (Opcode(d) == 1 && s.served == 0)
            || (Opcode(d) == 4 && 0 < s.served < Blocks(s.file) && Number(d) == s.served % U16)
    then s.(served := s.served + 1, net := s.net + {Data(s.file, s.served + 1)})
    else s
  }

  function Step(s: System, e: Event): System
  {
    match e
    case ToClient(d) =>
      if d in s.net && s.client.listening then s.(client := s.client.OnDatagram(d)) else s
    case ToServer(d) =>
      if d in s.client.sent then Serve(s, d) else s
    case Expire =>
      if s.client.timer && s.client.block < U16 then s.(client := s.client.OnTimeout()) else s
    case Refuse(code, message) =>
      if code < U16 then s.(net := s.net + {Error(code, message)}) else s
  }

  function Run(filename: seq<Byte>, file: seq<Byte>, events: seq<Event>): System {
    if events == [] then System(Started(filename), file, 0, {})
    else Step(Run(filename, file, events[..|events| - 1]), events[|events| - 1])
  }

  // ---------------------------------------------------------------- the invariant

  ghost predicate FromServer(s: System, d: Packet) {
    || (|d| >= 5 && Opcode(d) == OPCODE_ERROR)
    || (exists k :: 1 <= k <= s.served && d == Data(s.file, k))
  }

  predicate FromClient(c: Client, d: Packet) {
    && |d| >= 4
    && (Opcode(d) == 4 ==> 1 <= Number(d) <= c.block)
  }

  /** The transfer so far: what has arrived is a prefix of the file, and nothing is ahead of it. */
  predicate InStep(s: System) {
    var c := s.client;
    && c.block < U16
    && c.block <= s.served <= c.block + 1 && s.served <= Blocks(s.file)
    && c.artifact == FirstBlocks(s.file, c.block) && c.received == |c.artifact|
  }

  /** The deferred fires at most once, ends all activity, and succeeds exactly at the last block. */
  predicate FiresOnce(s: System) {
    var c := s.client;
    && |c.fired| <= 1
    && (c.fired == [] <==> c.listening)
    && (c.fired != [] ==> !c.timer)
    && (c.Succeeded() <==> c.block == Blocks(s.file))
  }

  ghost predicate Inv(s: System) {
    && InStep(s) && FiresOnce(s)
    && (forall d :: d in s.net ==> FromServer(s, d))
    && (forall d :: d in s.client.sent ==> FromClient(s.client, d))
  }

  // ---------------------------------------------------------------- its preservation

  lemma AckFields(n: nat)
    requires n < U16
    ensures Opcode(Ack(n)) == OPCODE_ACK && Number(Ack(n)) == n
  {
    var d := Ack(n);
    assert d[..2] == PutBE16(OPCODE_ACK) && d[2..4] == PutBE16(n);
  }

  lemma RrqFields(filename: seq<Byte>)
    ensures Opcode(Rrq(filename)) == OPCODE_RRQ
  {
    var d := Rrq(filename);
    assert d[..2] == PutBE16(OPCODE_RRQ);
  }

  lemma NextBlock(file: seq<Byte>, k: nat)
    requires k < Blocks(file)
    ensures FirstBlocks(file, k) + Block(file, k + 1) == FirstBlocks(file, k + 1)
    ensures |Block(file, k + 1)| < SERVER_BLOCK <==> k + 1 == Blocks(file)
    ensures k + 1 == Blocks(file) ==> FirstBlocks(file, k + 1) == file
  {
  }

  /** A data packet the client can use is the very next block, and one it re-acknowledges is the
      current one: 16 bits are enough to tell. */
  lemma WireNumber(s: System, k: nat)
    requires InStep(s) && 1 <= k <= s.served
    ensures k % U16 == s.client.block + 1 ==> k == s.client.block + 1
    ensures k % U16 == s.client.block ==> k == s.client.block
  {
  }

  lemma SentKept(c: Client, c': Client, n: nat)
    requires 1 <= n < U16 && c'.sent == c.sent + [Ack(n)] && c.block <= c'.block && n <= c'.block
    requires forall d :: d in c.sent ==> FromClient(c, d)
    ensures forall d :: d in c'.sent ==> FromClient(c', d)
  {
    AckFields(n);
  }

  lemma DataKeepsInv(s: System, k: nat)
    requires Inv(s) && s.client.listening && 1 <= k <= s.served
    ensures Inv(s.(client := s.client.OnDatagram(Data(s.file, k))))
  {
    hide GetBE16, PutBE16, Data;
    var c, d := s.client, Data(s.file, k);
    var c' := c.OnDatagram(d);
    WireNumber(s, k);
    if Number(d) == c.block + 1 {
      NextBlock(s.file, c.block);
      SentKept(c, c', c.block + 1);
    } else if Number(d) == c.block {
      SentKept(c, c', c.block);
    }
  }

  lemma TimeoutKeepsInv(s: System)
    requires Inv(s) && s.client.timer
    ensures Inv(s.(client := s.client.OnTimeout()))
  {
    var c, c' := s.client, s.client.OnTimeout();
    if c.retries + 1 < MAX_RETRIES {
      if c.block == 0 {
        RrqFields(c.filename);
      } else {
        SentKept(c, c', c.block);
      }
    }
  }

  lemma ServeKeepsNet(s: System, d: Packet)
    requires forall p :: p in s.net ==> FromServer(s, p)
    ensures forall p :: p in Serve(s, d).net ==> FromServer(Serve(s, d), p)
  {
    hide GetBE16, PutBE16, Data, Opcode, Number;
    var s' := Serve(s, d);
    if s' != s {
      forall p | p in s'.net
        ensures FromServer(s', p)
      {
        if p != Data(s.file, s.served + 1) {
          assert FromServer(s, p);
        }
      }
    }
  }

  lemma ServeKeepsStep(s: System, d: Packet)
    requires InStep(s) && FiresOnce(s) && FromClient(s.client, d)
    ensures InStep(Serve(s, d)) && FiresOnce(Serve(s, d))
    ensures Serve(s, d).client == s.client
  {
    hide GetBE16, PutBE16, Data, FirstBlocks, Opcode, Number;
  }

  lemma ServeKeepsInv(s: System, d: Packet)
    requires Inv(s) && d in s.client.sent
    ensures Inv(Serve(s, d))
  {
    assert FromClient(s.client, d);
    ServeKeepsNet(s, d);
    ServeKeepsStep(s, d);
    hide Serve, InStep, FiresOnce, FromServer, FromClient;
  }

  lemma StepKeepsInv(s: System, e: Event)
    requires Inv(s)
    ensures Inv(Step(s, e))
  {
    match e
    case ToClient(d) =>
      if d in s.net && s.client.listening {
        assert FromServer(s, d);
        if k :| 1 <= k <= s.served && d == Data(s.file, k) {
          DataKeepsInv(s, k);
        }
      }
    case ToServer(d) =>
      if d in s.client.sent {
        ServeKeepsInv(s, d);
      }
    case Expire =>
      if s.client.timer {
        TimeoutKeepsInv(s);
      }
    case Refuse(code, message) =>
  }

  lemma {:induction false} RunKeepsInv(filename: seq<Byte>, file: seq<Byte>, events: seq<Event>)
    ensures Inv(Run(filename, file, events))
  {
    if events == [] {
      RrqFields(filename);
    } else {
      RunKeepsInv(filename, file, events[..|events| - 1]);
      StepKeepsInv(Run(filename, file, events[..|events| - 1]), events[|events| - 1]);
    }
  }

  // ---------------------------------------------------------------- main results

  /** Safety in every reachable state. */
  lemma Safety(filename: seq<Byte>, file: seq<Byte>, events: seq<Event>)
    ensures var c := Run(filename, file, events).client;
            && c.artifact == FirstBlocks(file, c.block) && c.received == |c.artifact|
            && |c.fired| <= 1
            && (c.fired != [] ==> !c.timer && !c.listening)
            && (c.Succeeded() ==> c.artifact == file)
            && (|file| >= 65535 * SERVER_BLOCK ==> !c.Succeeded())
  {
    RunKeepsInv(filename, file, events);
    RunFile(filename, file, events);
    var s := Run(filename, file, events);
    if s.client.Succeeded() {
      NextBlock(file, s.client.block - 1);
    }
  }

  lemma {:induction false} RunFile(filename: seq<Byte>, file: seq<Byte>, events: seq<Event>)
    ensures Run(filename, file, events).file == file
  {
    if events != [] {
      RunFile(filename, file, events[..|events| - 1]);
    }
  }

  /** The run in which every packet of the first `k` blocks arrives, once and in order. */
  function Perfect(filename: seq<Byte>, file: seq<Byte>, k: nat): seq<Event>
    requires k < U16
  {
    if k == 0 then []
    else Perfect(filename, file, k - 1) +
         [ToServer(if k == 1 then Rrq(filename) else Ack(k - 1)), ToClient(Data(file, k))]
  }

  lemma RunTwoMore(filename: seq<Byte>, file: seq<Byte>, events: seq<Event>, e: Event, e': Event)
    ensures Run(filename, file, events + [e, e']) == Step(Step(Run(filename, file, events), e), e')
  {
    var both, one := events + [e, e'], events + [e];
    assert both[..|both| - 1] == one && one[..|one| - 1] == events;
  }

  /** The state once the first `k` blocks have arrived. */
  predicate AtBlock(s: System, filename: seq<Byte>, file: seq<Byte>, k: nat)
    requires k < U16
  {
    && s.file == file && s.served == k && s.client.block == k
    && (if k == 0 then Rrq(filename) else Ack(k)) in s.client.sent
    && (k < Blocks(file) ==> s.client.fired == []) && (k == Blocks(file) ==> s.client.Succeeded())
  }

  lemma PerfectStart(filename: seq<Byte>, file: seq<Byte>)
    ensures AtBlock(Run(filename, file, []), filename, file, 0)
  {
  }

  lemma {:induction false} PerfectReaches(filename: seq<Byte>, file: seq<Byte>, k: nat)
    requires k < U16 && k <= Blocks(file)
    ensures AtBlock(Run(filename, file, Perfect(filename, file, k)), filename, file, k)
  {
    hide AtBlock, Inv, Step, Run, Rrq, Ack, Data, Blocks;
    if k == 0 {
      PerfectStart(filename, file);
    } else {
      var events := Perfect(filename, file, k - 1);
      PerfectReaches(filename, file, k - 1);
      RunKeepsInv(filename, file, events);
      PerfectRound(Run(filename, file, events), filename, file, k);
      var request := if k == 1 then Rrq(filename) else Ack(k - 1);
      RunTwoMore(filename, file, events, ToServer(request), ToClient(Data(file, k)));
    }
  }

  lemma PerfectServe(s: System, filename: seq<Byte>, k: nat)
    requires 1 <= k < U16 && k <= Blocks(s.file) && s.served == k - 1
    ensures Serve(s, if k == 1 then Rrq(filename) else Ack(k - 1)) == s.(served := k, net := s.net + {Data(s.file, k)})
  {
    RrqFields(filename);
    AckFields(k - 1);
    hide Data, Rrq, Ack, Opcode, Number, Blocks;
    assert s.served % U16 == k - 1;
  }

  lemma StillListening(s: System)
    requires Inv(s) && s.client.fired == []
    ensures s.client.listening
  {
  }

  lemma PerfectRound(s: System, filename: seq<Byte>, file: seq<Byte>, k: nat)
    requires 1 <= k < U16 && k <= Blocks(file) && Inv(s) && AtBlock(s, filename, file, k - 1)
    ensures var s' := Step(Step(s, ToServer(if k == 1 then Rrq(filename) else Ack(k - 1))), ToClient(Data(file, k)));
            AtBlock(s', filename, file, k)
  {
    hide Inv, Serve, Data, Rrq, Ack, Blocks;
    StillListening(s);
    PerfectServe(s, filename, k);
    var s1 := s.(served := k, net := s.net + {Data(file, k)});
    assert Step(s, ToServer(if k == 1 then Rrq(filename) else Ack(k - 1))) == s1;
    hide Step;
    PerfectDelivery(s1, file, k);
  }

  lemma PerfectDelivery(s: System, file: seq<Byte>, k: nat)
    requires 1 <= k < U16 && k <= Blocks(file) && s.file == file && Data(file, k) in s.net
    requires s.served == k && s.client.block == k - 1 && s.client.fired == [] && s.client.listening
    ensures AtBlock(Step(s, ToClient(Data(file, k))), s.client.filename, file, k)
  {
    NextBlock(file, k - 1);
    hide GetBE16, PutBE16, Data, Opcode, Number, Rrq, Block, FirstBlocks;
    var c := s.client.OnDatagram(Data(file, k));
    assert c.sent == s.client.sent + [Ack(k)];
  }

  predicate Downloads(filename: seq<Byte>, file: seq<Byte>, events: seq<Event>) {
    Run(filename, file, events).client.Succeeded()
  }

  /** A download can succeed exactly when the file is shorter than 65535 blocks. */
  lemma CanSucceedExactlyBelowLimit(filename: seq<Byte>, file: seq<Byte>)
    ensures (exists events :: Downloads(filename, file, events)) <==> |file| < 65535 * SERVER_BLOCK
  {
    if |file| < 65535 * SERVER_BLOCK {
      PerfectReaches(filename, file, Blocks(file));
      assert Downloads(filename, file, Perfect(filename, file, Blocks(file)));
    } else {
      forall events
        ensures !Downloads(filename, file, events)
      {
        Safety(filename, file, events);
      }
    }
  }

  /** Waiting for a packet with no timer that would ever ask for it again. */
  predicate Stalls(filename: seq<Byte>, file: seq<Byte>, events: seq<Event>) {
    var c := Run(filename, file, events).client;
    c.listening && c.fired == [] && !c.timer
  }

  /** Main result: a download can stall, by an old block arriving late and disarming the timer,
      exactly when the file takes three blocks or more. */
  lemma StallsExactlyFromThreeBlocks(filename: seq<Byte>, file: seq<Byte>)
    ensures (exists events :: Stalls(filename, file, events)) <==> Blocks(file) >= 3
  {
    if Blocks(file) >= 3 {
      OldBlockStalls(filename, file);
    } else {
      forall events
        ensures !Stalls(filename, file, events)
      {
        TwoBlocksNeverStall(filename, file, events);
      }
    }
  }

  lemma {:induction false} TwoBlocksNeverStall(filename: seq<Byte>, file: seq<Byte>, events: seq<Event>)
    requires Blocks(file) <= 2
    ensures !Stalls(filename, file, events)
  {
    if events != [] {
      var before := events[..|events| - 1];
      TwoBlocksNeverStall(filename, file, before);
      RunKeepsInv(filename, file, before);
      RunFile(filename, file, before);
      ArmedStaysArmed(Run(filename, file, before), events[|events| - 1]);
    }
  }

  lemma ArmedStaysArmed(s: System, e: Event)
    requires Inv(s) && Blocks(s.file) <= 2 && (s.client.fired == [] ==> s.client.timer)
    ensures var c := Step(s, e).client; c.fired == [] ==> c.timer
  {
    if e.ToClient? && e.d in s.net && s.client.listening {
      ArrivalArms(s, e.d);
    }
    hide GetBE16, PutBE16, Rrq, Data, Error, FirstBlocks, FromClient, Opcode;
  }

  lemma ArrivalArms(s: System, d: Packet)
    requires Inv(s) && Blocks(s.file) <= 2 && s.client.listening && FromServer(s, d)
    ensures var c := s.client.OnDatagram(d); c.fired == [] ==> c.timer
  {
    if Opcode(d) != OPCODE_ERROR || |d| < 5 {
      var k :| 1 <= k <= s.served && d == Data(s.file, k);
      assert Opcode(d) == OPCODE_DATA && Number(d) == k % U16;
      hide GetBE16, PutBE16, Rrq, Error, FirstBlocks, FromClient, Data, Opcode, Number, FromServer;
      CurrentOfTwo(s, k);
      DataArmsExactlyCurrentBlocks(s.client, d);
    }
    hide GetBE16, PutBE16, Rrq, Error, FirstBlocks, FromClient, Data, Number, FromServer;
  }

  lemma CurrentOfTwo(s: System, k: nat)
    requires InStep(s) && FiresOnce(s) && s.client.listening && Blocks(s.file) <= 2 && 1 <= k <= s.served
    ensures k % U16 == k && (k == s.client.block || k == s.client.block + 1)
  {
    hide FirstBlocks;
  }

  lemma OldBlockStalls(filename: seq<Byte>, file: seq<Byte>)
    requires Blocks(file) >= 3
    ensures exists events :: Stalls(filename, file, events)
  {
    var events := Perfect(filename, file, 2);
    var e := ToClient(Data(file, 1));
    PerfectReaches(filename, file, 2);
    RunKeepsInv(filename, file, events);
    FirstBlockInNet(filename, file);
    assert (events + [e])[..|events|] == events;
    assert Stalls(filename, file, events + [e]);
  }

  lemma FirstBlockInNet(filename: seq<Byte>, file: seq<Byte>)
    ensures Data(file, 1) in Run(filename, file, Perfect(filename, file, 2)).net
  {
    var one := Perfect(filename, file, 1);
    assert Perfect(filename, file, 0) == [];
    assert one == [] + [ToServer(Rrq(filename)), ToClient(Data(file, 1))];
    RunTwoMore(filename, file, [], ToServer(Rrq(filename)), ToClient(Data(file, 1)));
    RrqFields(filename);
    RunTwoMore(filename, file, one, ToServer(Ack(1)), ToClient(Data(file, 2)));
  }

  // ---------------------------------------------------------------- lost packets

  lemma {:induction false} RunFilename(filename: seq<Byte>, file: seq<Byte>, events: seq<Event>)
    ensures Run(filename, file, events).client.filename == filename
  {
    hide Ack, Rrq;
    if events != [] {
      RunFilename(filename, file, events[..|events| - 1]);
    }
  }

  /** Main result: in every reachable state in which the timer expires, the client sends the request
      again if no block has come, else the acknowledgement of the last block, and arms the timer; but
      at the third timeout it gives up without sending anything. */
  lemma TimeoutRetransmits(filename: seq<Byte>, file: seq<Byte>, events: seq<Event>)
    ensures var s := Run(filename, file, events);
            var c, c' := s.client, Step(s, Expire).client;
            c.timer ==>
              && c'.artifact == c.artifact && c'.block == c.block < U16
              && (c.retries + 1 < 3 ==>
                    && c'.sent == c.sent + [if c.block == 0 then RequestPacket(filename) else AckPacket(c.block)]
                    && c'.timer && c'.fired == [] && c'.retries == c.retries + 1)
              && (c.retries + 1 >= 3 ==> c'.sent == c.sent && c'.fired == [false] && !c'.timer)
  {
    RunKeepsInv(filename, file, events);
    RunFilename(filename, file, events);
    var c := Run(filename, file, events).client;
    hide Run;
    if c.timer {
      OnTheWire(filename, c.block);
      hide Rrq, Ack;
    }
  }

  /** The timeouts since the last packet that the client took in. */
  function Silence(filename: seq<Byte>, file: seq<Byte>, events: seq<Event>): nat {
    if events == [] then 0
    else
      var before, e := events[..|events| - 1], events[|events| - 1];
      var s := Run(filename, file, before);
      if e.ToClient? && e.d in s.net && s.client.listening then 0
      else Silence(filename, file, before) + if e == Expire && s.client.timer then 1 else 0
  }

  /** So it gives up exactly at the third timeout in a row. */
  lemma {:induction false} RetriesCountSilence(filename: seq<Byte>, file: seq<Byte>, events: seq<Event>)
    ensures Run(filename, file, events).client.retries == Silence(filename, file, events)
  {
    hide Rrq, Ack, Data;
    if events != [] {
      var before, e := events[..|events| - 1], events[|events| - 1];
      RetriesCountSilence(filename, file, before);
      RunKeepsInv(filename, file, before);
      if e.ToClient? {
        ArrivesWhole(Run(filename, file, before), e.d);
      }
    }
  }

  lemma ArrivesWhole(s: System, d: Packet)
    requires Inv(s)
    ensures d in s.net ==> |d| >= 4
  {
    if d in s.net {
      assert FromServer(s, d);
    }
  }

  /** Main result: what the client sends for each block of the file that arrives: it acknowledges
      the next block, and again the current one; a block after the 65535th has a number it does not expect. */
  lemma BlocksAreAcknowledged(filename: seq<Byte>, file: seq<Byte>, events: seq<Event>, k: nat)
    requires k >= 1 && Data(file, k) in Run(filename, file, events).net && k <= Run(filename, file, events).served
    requires Run(filename, file, events).client.listening
    ensures var s := Run(filename, file, events);
            var c, c' := s.client, Step(s, ToClient(Data(file, k))).client;
            && (if k < U16 && (k == c.block || k == c.block + 1) then
                  c'.sent == c.sent + [AckPacket(k)] && c'.block == k
                else c'.sent == c.sent && c'.block == c.block)
            && c'.artifact == FirstBlocks(file, c'.block)
  {
    RunKeepsInv(filename, file, events);
    RunFile(filename, file, events);
    var s := Run(filename, file, events);
    hide Run;
    StepKeepsInv(s, ToClient(Data(file, k)));
    assert Step(s, ToClient(Data(file, k))).file == file;
    BlockAnswer(s, k);
  }

  lemma BlockAnswer(s: System, k: nat)
    requires InStep(s) && 1 <= k <= s.served
    ensures var c, c' := s.client, s.client.OnDatagram(Data(s.file, k));
            && (if k < U16 && (k == c.block || k == c.block + 1) then
                  c'.sent == c.sent + [AckPacket(k)] && c'.block == k
                else c'.sent == c.sent && c'.block == c.block)
  {
    WireNumber(s, k);
    if k < U16 {
      OnTheWire([], k);
    }
    hide Ack, Data;
  }

  /** Running on from any state. */
  function Onward(s: System, events: seq<Event>): System {
    if events == [] then s else Step(Onward(s, events[..|events| - 1]), events[|events| - 1])
  }

  /** The rest of a transfer, from block `from` to block `k`, without further loss. */
  function Rest(filename: seq<Byte>, file: seq<Byte>, from: nat, k: nat): seq<Event>
    requires k < U16
  {
    if k <= from then []
    else Rest(filename, file, from, k - 1) +
         [ToServer(if k == 1 then Rrq(filename) else Ack(k - 1)), ToClient(Data(file, k))]
  }

  lemma OnwardTwoMore(s: System, events: seq<Event>, e: Event, e': Event)
    ensures Onward(s, events + [e, e']) == Step(Step(Onward(s, events), e), e')
  {
    var both, one := events + [e, e'], events + [e];
    assert both[..|both| - 1] == one && one[..|one| - 1] == events;
  }

  lemma {:induction false} RestReaches(s: System, filename: seq<Byte>, file: seq<Byte>, from: nat, k: nat)
    requires from <= k < U16 && k <= Blocks(file) && Inv(s) && AtBlock(s, filename, file, from)
    ensures var s' := Onward(s, Rest(filename, file, from, k)); Inv(s') && AtBlock(s', filename, file, k)
  {
    hide AtBlock, Inv, Step, Rrq, Ack, Data, Blocks;
    if k > from {
      var events := Rest(filename, file, from, k - 1);
      RestReaches(s, filename, file, from, k - 1);
      var s1 := Onward(s, events);
      PerfectRound(s1, filename, file, k);
      var request := ToServer(if k == 1 then Rrq(filename) else Ack(k - 1));
      OnwardTwoMore(s, events, request, ToClient(Data(file, k)));
      StepKeepsInv(s1, request);
      StepKeepsInv(Step(s1, request), ToClient(Data(file, k)));
    }
  }

  /** Everything that was sent and has not arrived is lost. */
  function AllLost(s: System): System {
    s.(client := s.client.(sent := []), net := {})
  }

  lemma ResendReaches(s: System)
    requires Inv(s) && s.client.timer && s.client.retries + 1 < MAX_RETRIES && s.served == s.client.block
    ensures var s' := Step(AllLost(s), Expire); Inv(s') && AtBlock(s', s.client.filename, s.file, s.client.block)
  {
    assert Inv(AllLost(s));
    StepKeepsInv(AllLost(s), Expire);
    hide Rrq, Ack;
  }

  /** Main result: the timer recovers from any loss of the client's packets. From every reachable state
      where it is pending, the server waits for the client, and there is a retry left, the download of
      a file below the limit can still succeed although everything on its way is lost. */
  lemma RecoversFromLoss(filename: seq<Byte>, file: seq<Byte>, events: seq<Event>)
    requires |file| < 65535 * SERVER_BLOCK
    requires var s := Run(filename, file, events);
             s.client.timer && s.client.retries + 1 < 3 && s.served == s.client.block
    ensures exists more ::
              var c := Onward(AllLost(Run(filename, file, events)), more).client; c.Succeeded() && c.artifact == file
  {
    RunKeepsInv(filename, file, events);
    RunFile(filename, file, events);
    RunFilename(filename, file, events);
    var s := Run(filename, file, events);
    hide Run, Rrq, Ack, Data, Step;
    ResendReaches(s);
    var first := Step(AllLost(s), Expire);
    var rest := Rest(filename, file, s.client.block, Blocks(file));
    RestReaches(first, filename, file, s.client.block, Blocks(file));
    OnwardAfter(AllLost(s), Expire, rest);
    NextBlock(file, Blocks(file) - 1);
    var c := Onward(AllLost(s), [Expire] + rest).client;
    assert c.Succeeded() && c.artifact == file;
  }

  lemma {:induction false} OnwardAfter(s: System, e: Event, events: seq<Event>)
    ensures Onward(s, [e] + events) == Onward(Step(s, e), events)
  {
    hide Step;
    if events == [] {
      assert [e] + events == [e] && [e][..0] == [];
    } else {
      var n := |events| - 1;
      assert ([e] + events)[..n + 1] == [e] + events[..n];
      OnwardAfter(s, e, events[..n]);
    }
  }
}
