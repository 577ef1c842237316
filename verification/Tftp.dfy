/** cowrie-source/commands/tftp.py: the TFTP client (RFC 1350), its packets, its timer and its
    deferred. */
module Tftp {
  import opened Bytes

  const OPCODE_RRQ := 1
  const OPCODE_DATA := 3
  const OPCODE_ACK := 4
  const OPCODE_ERROR := 5
  const BLOCK_SIZE := 512
  const MAX_RETRIES := 3
  const MODE_OCTET: seq<Byte> := [111, 99, 116, 101, 116]

  type Packet = seq<Byte>

  function Opcode(d: Packet): nat
    requires |d| >= 4
  {
    GetBE16(d[..2])
  }

  /** The block number of a DATA packet, or of an acknowledgement. */
  function Number(d: Packet): (n: nat)
    requires |d| >= 4
    ensures n < U16
  {
    GetBE16(d[2..4])
  }

  function Rrq(filename: seq<Byte>): (d: Packet)
    ensures |d| >= 4
  {
    PutBE16(OPCODE_RRQ) + filename + [0] + MODE_OCTET + [0]
  }

  function Ack(n: nat): (d: Packet)
    requires n < U16
    ensures |d| == 4
  {
    PutBE16(OPCODE_ACK) + PutBE16(n)
  }

  /** The client's fields, what it has sent, and whether its UDP port still listens. `fired` lists
      the outcomes its deferred was fired with: true for callback, false for errback. */
  datatype Client = Client(
    filename: seq<Byte>, block: nat, retries: nat, timer: bool, artifact: seq<Byte>, received: nat,
    fired: seq<bool>, listening: bool, sent: seq<Packet>)
  {
    predicate Succeeded() {
      |fired| == 1 && fired[0]
    }

    function SendRrq(): Client {
      this.(sent := sent + [Rrq(filename)], timer := true)
    }

    function SendAck(n: nat): Client
      requires n < U16
    {
      this.(sent := sent + [Ack(n)], timer := true)
    }

    /** Firing the deferred runs `cleanup`, which stops the port. */
    function Fire(ok: bool): Client {
      this.(fired := fired + [ok], listening := false)
    }

    function OnData(d: Packet): Client {
      if |d| < 4 then this
      else
        var n, data := Number(d), d[4..];
        if n == block + 1 then
          var c := this.(block := n, received := received + |data|, artifact := artifact + data).SendAck(n);
          if |data| < BLOCK_SIZE then c.(timer := false).Fire(true) else c
        else if n == block then SendAck(n)
        else this
    }

    function OnDatagram(d: Packet): Client {
      if |d| < 4 then this
      else
        var c := this.(timer := false, retries := 0);
        if Opcode(d) == OPCODE_DATA then c.OnData(d)
        else if Opcode(d) == OPCODE_ERROR && |d| >= 5 then c.Fire(false)
        else c
    }

    function OnTimeout(): Client
      requires block < U16
    {
      var c := this.(timer := false, retries := retries + 1);
      if c.retries >= MAX_RETRIES then c.Fire(false)
      else if block == 0 then c.SendRrq()
      else c.SendAck(block)
    }
  }

  function Started(filename: seq<Byte>): Client {
    Client(filename, 0, 0, false, [], 0, [], true, []).SendRrq()
  }

  class TftpClient {
    const filename: seq<Byte>
    var currentBlock: nat
    var retryCount: nat
    var timeoutPending: bool
    var artifact: seq<Byte>
    var bytesReceived: nat
    var fired: seq<bool>
    var listening: bool
    var sent: seq<Packet>

    function State(): Client
      reads this
    {
      Client(filename, currentBlock, retryCount, timeoutPending, artifact, bytesReceived, fired, listening, sent)
    }

    constructor (filename: seq<Byte>)
      ensures State() == Started(filename)
    {
      this.filename := filename;
      currentBlock, retryCount, timeoutPending, artifact, bytesReceived := 0, 0, false, [], 0;
      fired, listening, sent := [], true, [];
      new;
      SendRRQ();
    }

    method SendRRQ()
      modifies this
      ensures State() == old(State()).SendRrq()
    {
      sent := sent + [Rrq(filename)];
      ScheduleTimeout();
    }

    method SendACK(n: nat)
      requires n < U16
      modifies this
      ensures State() == old(State()).SendAck(n)
    {
      sent := sent + [Ack(n)];
      ScheduleTimeout();
    }

    method ScheduleTimeout()
      modifies this
      ensures State() == old(State()).(timer := true)
    {
      CancelTimeout();
      timeoutPending := true;
    }

    method CancelTimeout()
      modifies this
      ensures State() == old(State()).(timer := false)
    {
      if timeoutPending {
        timeoutPending := false;
      }
    }

    method FireDeferred(ok: bool)
      modifies this
      ensures State() == old(State()).Fire(ok)
    {
      fired := fired + [ok];
      listening := false;
    }

    method DatagramReceived(d: Packet)
      modifies this
      ensures State() == old(State()).OnDatagram(d)
    {
      if |d| < 4 {
        return;
      }
      CancelTimeout();
      retryCount := 0;
      if Opcode(d) == OPCODE_DATA {
        HandleDATA(d);
      } else if Opcode(d) == OPCODE_ERROR {
        HandleERROR(d);
      }
    }

    method HandleDATA(d: Packet)
      modifies this
      ensures State() == old(State()).OnData(d)
    {
      if |d| < 4 {
        return;
      }
      var n, data := Number(d), d[4..];
      if n == currentBlock + 1 {
        currentBlock := n;
        bytesReceived := bytesReceived + |data|;
        artifact := artifact + data;
        SendACK(n);
        if |data| < BLOCK_SIZE {
          CancelTimeout();
          FireDeferred(true);
        }
      } else if n == currentBlock {
        SendACK(n);
      }
    }

    method HandleERROR(d: Packet)
      modifies this
      ensures State() == if |d| < 5 then old(State()) else old(State()).(timer := false).Fire(false)
    {
      if |d| < 5 {
        return;
      }
      CancelTimeout();
      FireDeferred(false);
    }

    /** Runs when the pending timer expires. */
    method HandleTimeout()
      requires currentBlock < U16 && timeoutPending
      modifies this
      ensures State() == old(State()).OnTimeout()
    {
      timeoutPending := false;
      retryCount := retryCount + 1;
      if retryCount >= MAX_RETRIES {
        FireDeferred(false);
        return;
      }
      if currentBlock == 0 {
        SendRRQ();
      } else {
        SendACK(currentBlock);
      }
    }
  }

  /** After a DATA packet the client has finished or has its timer armed exactly when the block was
      the expected one or the one before; any other block leaves it waiting with no timer. */
  lemma DataArmsExactlyCurrentBlocks(c: Client, d: Packet)
    requires |d| >= 4 && Opcode(d) == OPCODE_DATA && c.fired == []
    ensures var c' := c.OnDatagram(d);
            c'.timer || c'.fired != [] <==> Number(d) == c.block || Number(d) == c.block + 1
  {
  }

  // ---------------------------------------------------------------- on the wire

  /** RFC 1350, section 5: opcode 1, the file name, a zero, the mode "octet", a zero. */
  function RequestPacket(filename: seq<Byte>): Packet {
    [0, 1] + filename + [0, 111, 99, 116, 101, 116, 0]
  }

  /** Opcode 4 and the block number. */
  function AckPacket(n: nat): Packet
    requires n < 65536
  {
    [0, 4, n / 256, n % 256]
  }

  lemma OnTheWire(filename: seq<Byte>, n: nat)
    requires n < U16
    ensures Rrq(filename) == RequestPacket(filename) && Ack(n) == AckPacket(n)
  {
  }
}
