/** cowrie-source/core/ttylog.py: the tty log writers and the reader that gathers the input. */
module TtyLog {
  import opened Bytes
  import opened Files

  const OP_OPEN := 1
  const OP_CLOSE := 2
  const OP_WRITE := 3
  const TYPE_OUTPUT := 2
  const HEADER_SIZE := 24

  /** The fields of `TTYSTRUCT`, "<iLiiLL". */
  datatype Header = Header(op: int, tty: int, length: int, direction: int, sec: int, usec: int)
  {
    /** `struct.pack` raises on anything else. */
    predicate Packs() {
      && -I32 <= op < I32 && 0 <= tty < U32 && -I32 <= length < I32 && -I32 <= direction < I32
      && 0 <= sec < U32 && 0 <= usec < U32
    }
  }

  function Pack(h: Header): (bs: seq<Byte>)
    requires h.Packs()
    ensures |bs| == HEADER_SIZE
  {
    PutInt32(h.op) + PutLE32(h.tty) + PutInt32(h.length) + PutInt32(h.direction) + PutLE32(h.sec) + PutLE32(h.usec)
  }

  function Unpack(bs: seq<Byte>): Header
    requires |bs| == HEADER_SIZE
  {
    Header(GetInt32(bs[0..4]), GetLE32(bs[4..8]), GetInt32(bs[8..12]),
           GetInt32(bs[12..16]), GetLE32(bs[16..20]), GetLE32(bs[20..24]))
  }

  lemma PackRoundTrip(h: Header)
    requires h.Packs()
    ensures Unpack(Pack(h)) == h
  {
    var bs := Pack(h);
    assert bs[0..4] == PutInt32(h.op) && bs[4..8] == PutLE32(h.tty) && bs[8..12] == PutInt32(h.length);
    assert bs[12..16] == PutInt32(h.direction) && bs[16..20] == PutLE32(h.sec) && bs[20..24] == PutLE32(h.usec);
  }

  /** One call of a writer. */
  datatype Call =
    | Open(sec: int, usec: int)
    | Write(length: int, direction: int, sec: int, usec: int, data: seq<Byte>)
    | Close(sec: int, usec: int)
  {
    function HeaderOf(): Header {
      match this
      case Open(sec, usec) => Header(OP_OPEN, 0, 0, 0, sec, usec)
      case Write(length, direction, sec, usec, _) => Header(OP_WRITE, 0, length, direction, sec, usec)
      case Close(sec, usec) => Header(OP_CLOSE, 0, 0, 0, sec, usec)
    }

    function Payload(): seq<Byte> {
      if Write? then data else []
    }

    /** The written length is the data's own, and `struct` can hold every field. */
    predicate Honest() {
      HeaderOf().Packs() && HeaderOf().length == |Payload()|
    }

    /** What the call contributes to the session's input: direction 2 is output. */
    function Input(): seq<Byte> {
      if Write? && direction != 2 then data else []
    }
  }

  /** The bytes one call appends; a `struct.error` appends none. */
  function Record(call: Call): seq<Byte> {
    if call.HeaderOf().Packs() then Pack(call.HeaderOf()) + call.Payload() else []
  }

  function LogOf(calls: seq<Call>): seq<Byte> {
    if calls == [] then [] else Record(calls[0]) + LogOf(calls[1..])
  }

  function InputsOf(calls: seq<Call>): seq<Byte> {
    if calls == [] then [] else calls[0].Input() + InputsOf(calls[1..])
  }

  /** A record in bytes: operation 1, 3 or 2, a zero terminal, length, direction and time, each four bytes
      with the low one first, and the data. */
  lemma RecordBytes(call: Call)
    requires call.HeaderOf().Packs()
    ensures var h, zero := call.HeaderOf(), [0, 0, 0, 0];
            Record(call)
            == [if call.Open? then 1 else if call.Close? then 2 else 3, 0, 0, 0] + zero
               + (if call.Write? then PutInt32(call.length) + PutInt32(call.direction) else zero + zero)
               + PutLE32(call.sec) + PutLE32(call.usec) + call.Payload()
  {
    assert PutLE32(0) == [0, 0, 0, 0] && PutLE32(1) == [1, 0, 0, 0];
    assert PutLE32(2) == [2, 0, 0, 0] && PutLE32(3) == [3, 0, 0, 0];
  }

  /** The bytes of a number, negative ones as if 2 to the 32 larger. */
  lemma LowByteFirst(n: int)
    requires -0x8000_0000 <= n < 0x8000_0000
    ensures var u := n % 0x1_0000_0000;
            PutInt32(n) == [u % 256, u / 256 % 256, u / 65536 % 256, u / 16777216 % 256]
  {
    var u := n % 0x1_0000_0000;
    assert u == if n < 0 then n + 0x1_0000_0000 else n;
    FourBytes(u);
  }

  lemma FourBytes(u: nat)
    requires u < 0x1_0000_0000
    ensures PutLE32(u) == [u % 256, u / 256 % 256, u / 65536 % 256, u / 16777216 % 256]
  {
    var low, high := u % 65536, u / 65536;
    assert u % 256 == low % 256 && u / 256 % 256 == low / 256;
    assert u / 16777216 == high / 256;
  }

  /** How many bytes the record at the head of `log` takes, header and data. */
  function RecordSize(log: seq<Byte>): (n: nat)
    requires |log| >= HEADER_SIZE
    ensures HEADER_SIZE <= n <= |log|
  {
    HEADER_SIZE + Taken(log[HEADER_SIZE..], Unpack(log[..HEADER_SIZE]).length)
  }

  /** What that record contributes. */
  function Contribution(log: seq<Byte>): seq<Byte>
    requires |log| >= HEADER_SIZE
  {
    var h := Unpack(log[..HEADER_SIZE]);
    if h.op == OP_WRITE && h.direction == TYPE_OUTPUT then [] else log[HEADER_SIZE..RecordSize(log)]
  }

  /** What `ttylog_inputhash` gathers from a log, on any bytes whatever. */
  function Gathered(log: seq<Byte>): seq<Byte>
    decreases |log|
  {
    if |log| < HEADER_SIZE then [] else Contribution(log) + Gathered(log[RecordSize(log)..])
  }

  /** Any record with its own length, whoever wrote it: it counts unless it is output, operation 3 in
      direction 2. */
  lemma AnyRecord(h: Header, payload: seq<Byte>, log: seq<Byte>)
    requires h.Packs() && h.length == |payload|
    ensures Gathered(Pack(h) + payload + log)
            == (if h.op == 3 && h.direction == 2 then [] else payload) + Gathered(log)
  {
    var whole := Pack(h) + payload + log;
    PackRoundTrip(h);
    hide Pack, Unpack;
    assert whole[..HEADER_SIZE] == Pack(h);
    assert whole[HEADER_SIZE..] == payload + log;
    assert whole[HEADER_SIZE..HEADER_SIZE + |payload|] == payload;
    assert whole[HEADER_SIZE + |payload|..] == log;
  }

  lemma GatheredRecord(call: Call, log: seq<Byte>)
    requires call.Honest()
    ensures Gathered(Record(call) + log) == call.Input() + Gathered(log)
  {
    RecordHead(call, log);
    assert (Record(call) + log)[|Record(call)|..] == log;
  }

  lemma RecordHead(call: Call, log: seq<Byte>)
    requires call.Honest()
    ensures var whole := Record(call) + log;
            && |whole| >= HEADER_SIZE
            && RecordSize(whole) == |Record(call)| && Contribution(whole) == call.Input()
  {
    var header, payload := Pack(call.HeaderOf()), call.Payload();
    var whole := Record(call) + log;
    PackRoundTrip(call.HeaderOf());
    assert whole[..HEADER_SIZE] == header;
    assert whole[HEADER_SIZE..|Record(call)|] == payload;
  }

  /** Main result: from the log of any honest calls the reader gathers exactly the data of the writes
      that are not output, in order. */
  lemma {:induction false} RoundTrip(calls: seq<Call>)
    requires forall call :: call in calls ==> call.Honest()
    ensures Gathered(LogOf(calls)) == InputsOf(calls)
  {
    if calls != [] {
      RoundTrip(calls[1..]);
      GatheredRecord(calls[0], LogOf(calls[1..]));
    }
  }

  /** Main result: on any bytes, appending to a log, or losing its end in a crash, never changes the
      input gathered before that point. */
  lemma {:induction false} GatheredGrows(log: seq<Byte>, more: seq<Byte>)
    ensures Gathered(log) <= Gathered(log + more)
    decreases |log|
  {
    hide Unpack, RecordSize, Contribution;
    if |log| >= HEADER_SIZE {
      RecordGrows(log, more);
      var n := RecordSize(log);
      if n == RecordSize(log + more) {
        GatheredGrows(log[n..], more);
        assert (log + more)[n..] == log[n..] + more;
      } else {
        assert Gathered(log) == Contribution(log) by { assert Contribution(log) + [] == Contribution(log); }
      }
    }
  }

  /** Only the last record of a log can grow. */
  lemma RecordGrows(log: seq<Byte>, more: seq<Byte>)
    requires |log| >= HEADER_SIZE
    ensures var n, n' := RecordSize(log), RecordSize(log + more);
            && Contribution(log) <= Contribution(log + more)
            && (n == n' ==> Contribution(log) == Contribution(log + more))
            && (n != n' ==> n == |log|)
  {
    hide Unpack;
    var whole := log + more;
    assert whole[..HEADER_SIZE] == log[..HEADER_SIZE];
    assert whole[HEADER_SIZE..] == log[HEADER_SIZE..] + more;
    var n, n' := RecordSize(log), RecordSize(whole);
    assert n <= n';
    assert whole[HEADER_SIZE..n] == log[HEADER_SIZE..n];
    assert whole[HEADER_SIZE..n'] == whole[HEADER_SIZE..n] + whole[n..n'];
  }

  class LogFile {
    var data: seq<Byte>

    constructor ()
      ensures data == []
    {
      data := [];
    }

    /** `ttylog_open`, `ttylog_write` and `ttylog_close`; false is a `struct.error`. */
    method Append(call: Call) returns (ok: bool)
      modifies this
      ensures ok == call.HeaderOf().Packs()
      ensures data == old(data) + Record(call)
    {
      ok := call.HeaderOf().Packs();
      if ok {
        data := data + Pack(call.HeaderOf());
        data := data + call.Payload();
      }
    }
  }

  method GatherInput(log: BinaryFile) returns (inputBytes: seq<Byte>)
    requires log.pos == 0
    modifies log
    ensures inputBytes == Gathered(log.data)
  {
    hide Unpack, Gathered;
    inputBytes := [];
    assert log.data[0..] == log.data;
    while true
      invariant log.pos <= |log.data|
      invariant inputBytes + Gathered(log.data[log.pos..]) == Gathered(log.data)
      decreases |log.data| - log.pos
    {
      ghost var left, done := log.data[log.pos..], inputBytes;
      var header := log.Read(HEADER_SIZE);
      if |header| != HEADER_SIZE {
        GatheredShort(left);
        break;
      }
      var h := Unpack(header);
      var bytes := log.Read(h.length);
      ReadRecord(log.data, log.pos - HEADER_SIZE - |bytes|, header, bytes, done);
      if h.op == OP_WRITE && h.direction == TYPE_OUTPUT {
        continue;
      }
      inputBytes := inputBytes + bytes;
    }
  }

  lemma GatheredShort(log: seq<Byte>)
    requires |log| < HEADER_SIZE
    ensures Gathered(log) == []
  {
  }

  /** The reader's two reads consume one record. */
  lemma ReadRecord(data: seq<Byte>, pos: nat, header: seq<Byte>, bytes: seq<Byte>, done: seq<Byte>)
    requires pos + HEADER_SIZE <= |data| && header == data[pos..pos + HEADER_SIZE]
    requires var rest := data[pos + HEADER_SIZE..]; bytes == rest[..Taken(rest, Unpack(header).length)]
    ensures var h := Unpack(header);
            var more := if h.op == OP_WRITE && h.direction == TYPE_OUTPUT then [] else bytes;
            done + Gathered(data[pos..]) == (done + more) + Gathered(data[pos + HEADER_SIZE + |bytes|..])
  {
    hide Unpack;
    var log := data[pos..];
    assert log[..HEADER_SIZE] == header && log[HEADER_SIZE..] == data[pos + HEADER_SIZE..];
    assert log[HEADER_SIZE..RecordSize(log)] == bytes;
    assert log[RecordSize(log)..] == data[pos + HEADER_SIZE + |bytes|..];
  }
}
