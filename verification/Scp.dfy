/** cowrie-source/commands/scp.py: receiving files in the scp sink protocol, from the bytes of the
    stream to the entries of the virtual filesystem. */
module Scp {
  import opened Sequences
  import opened Bytes
  import opened Decimal
  import opened Paths
  import opened FsTree
  import opened FsWalkers
  import opened Filesystem

  const NEWLINE: Byte := 10
  /** Python refuses to convert longer numerals. */
  const MAX_DIGITS := 4300
  const MAX_REALFILE := 25000000

  datatype Problem = Undecodable | In(error: Error)

  /** Where and for whom files arrive. `decode` turns the bytes of a name into text, unless they are
      not text; `store` tells under which path some content is kept; `clock` gives the times. */
  datatype Session = Session(
    home: string, cwd: string, outDir: string, uid: int, gid: int, budget: nat,
    decode: seq<Byte> -> Option<string>, store: seq<Byte> -> string, clock: nat -> int)

  /** The virtual filesystem, and the files saved so far. */
  datatype Received = Received(fs: State, saved: seq<(string, seq<Byte>)>)

  /** What becomes of one file: taken, refused with a message, or an exception. */
  datatype Verdict = Accepted | Refused | Broken(problem: Problem)

  /** The data left to parse, or the exception that ends the loop. */
  datatype Reply = Rest(data: seq<Byte>) | Aborted(problem: Problem)

  // ---------------------------------------------------------------- the header line

  /** The bytes as characters of the same codes. */
  function Latin(bs: seq<Byte>): (s: string)
    ensures |s| == |bs|
  {
    seq(|bs|, i requires 0 <= i < |bs| => bs[i] as char)
  }

  function FindByte(data: seq<Byte>, b: Byte): (k: Option<nat>)
    ensures k.Some? ==> k.value < |data|
  {
    if data == [] then None
    else if data[0] == b then Some(0)
    else
      var k := FindByte(data[1..], b);
      if k.None? then None else Some(k.value + 1)
  }

  predicate IsSpace(c: char) {
    c == ' ' || '\t' <= c <= '\r'
  }

  predicate NoSpace(s: string) {
    forall i :: 0 <= i < |s| ==> !IsSpace(s[i])
  }

  /** Where the digits starting at `i` end. */
  function DigitsEnd(h: string, i: nat): (e: nat)
    requires i <= |h|
    ensures i <= e <= |h|
    decreases |h| - i
  {
    if i < |h| && IsDigit(h[i]) then DigitsEnd(h, i + 1) else i
  }

  /** The line is `C0ddd size name`. */
  predicate IsHeader(h: string) {
    && |h| > 6 && h[..2] == "C0" && AllDigits(h[2..5]) && h[5] == ' '
    && var e := DigitsEnd(h, 6);
       6 < e < |h| - 1 && h[e] == ' ' && NoSpace(h[e + 1..])
  }

  lemma {:induction false} DigitsEndDigits(h: string, i: nat)
    requires i <= |h|
    ensures AllDigits(h[i..DigitsEnd(h, i)])
    decreases |h| - i
  {
    if i < |h| && IsDigit(h[i]) {
      DigitsEndDigits(h, i + 1);
      assert h[i..DigitsEnd(h, i)] == [h[i]] + h[i + 1..DigitsEnd(h, i + 1)];
    }
  }

  function SizeField(h: string): (size: string)
    requires IsHeader(h)
    ensures AllDigits(size)
  {
    DigitsEndDigits(h, 6);
    h[6..DigitsEnd(h, 6)]
  }

  function FromOctal(s: string): Option<nat>
    requires AllDigits(s)
  {
    if s == "" then Some(0)
    else
      var front, d := FromOctal(s[..|s| - 1]), (s[|s| - 1] - '0') as nat;
      if front.None? || d >= 8 then None else Some(8 * front.value + d)
  }

  // ---------------------------------------------------------------- one file

  /** `os.path.join`. */
  function PathJoin(dir: string, name: string): string {
    if name != "" && name[0] == SLASH then name
    else if dir == "" || Last(dir) == SLASH then dir + name
    else dir + [SLASH] + name
  }

  /** What `save_file` notes on the entry of the virtual file. */
  function Stamped(c: Session, e: Entry, data: seq<Byte>): Entry {
    e.(realfile := if (e.realfile == None || e.realfile == Some("")) && e.size < MAX_REALFILE
                   then Some(c.store(data)) else e.realfile,
       uid := if c.uid != -1 then c.uid else e.uid,
       gid := if c.gid != -1 then c.gid else e.gid)
  }

  function SaveFile(c: Session, r: Received, data: seq<Byte>, path: string): (p: (Received, Verdict))
    ensures !p.1.Refused?
  {
    var saved := r.(saved := r.saved + [(path, data)]);
    match GetFile(r.fs.fs, path, true, c.budget)
    case Raised(error) => (saved, Broken(In(error)))
    case Missing => (saved, Accepted)
    case Found(at) => (saved.(fs := r.fs.(fs := Put(r.fs.fs, at, Stamped(c, At(r.fs.fs, at), data)))), Accepted)
  }

  /** A file arrives for the path `path`. Reaching the quota does not keep it from being saved. */
  function Deliver(c: Session, r: Received, path: string, mode: int, size: int, data: seq<Byte>): (Received, Verdict) {
    var (s, made) := Mkfile(r.fs, path, c.uid, c.gid, size, mode, c.clock(|r.saved|), c.budget);
    if made == Failed(FileNotFound) || made == Failed(PermissionDenied) then (r.(fs := s), Refused)
    else if made.Failed? then (r.(fs := s), Broken(In(made.error)))
    else SaveFile(c, r.(fs := s), data, path)
  }

  function Target(c: Session, name: string): Option<string> {
    Resolve(c.home, if c.outDir != "" then PathJoin(c.outDir, name) else name, c.cwd)
  }

  function Accept(c: Session, r: Received, name: seq<Byte>, mode: Option<nat>, size: int, data: seq<Byte>)
    : (Received, Verdict)
  {
    var text := c.decode(name);
    if text.None? then (r, Broken(Undecodable))
    else
      var path := Target(c, text.value);
      if path.None? then (r, Broken(In(IndexError)))
      else if mode.None? then (r, Broken(In(ValueError)))
      else Deliver(c, r, path.value, mode.value, size, data)
  }

  // ---------------------------------------------------------------- the stream

  function Min(a: int, b: int): int {
    if a < b then a else b
  }

  function After(data: seq<Byte>, end: nat): seq<Byte> {
    if end < |data| then data[end + 1..] else []
  }

  function ParseScpData(c: Session, r: Received, data: seq<Byte>): (Received, Reply) {
    var pos := FindByte(data, NEWLINE);
    if pos.None? then (r, Rest([]))
    else
      var h := Latin(data[..pos.value]);
      if !IsHeader(h) then (r, Rest([]))
      else if |SizeField(h)| > MAX_DIGITS then (r, Aborted(In(ValueError)))
      else
        var size := FromDecimal(SizeField(h));
        var begin := pos.value + 1;
        var end := Min(begin + size, |data|);
        var name := data[DigitsEnd(h, 6) + 1..pos.value];
        var (r', verdict) := Accept(c, r, name, FromOctal(h[2..5]), size, data[begin..end]);
        (r', match verdict
             case Accepted => Rest(After(data, end))
             case Refused => Rest([])
             case Broken(problem) => Aborted(problem))
  }

  /** Each round of the loop leaves less data. */
  lemma ParseShrinks(c: Session, r: Received, data: seq<Byte>)
    requires data != []
    ensures var reply := ParseScpData(c, r, data).1; reply.Rest? ==> |reply.data| < |data|
  {
    hide Accept, IsHeader, FromOctal, FromDecimal, AllDigits;
  }

  /** The loop of `eofReceived`. */
  function Drain(c: Session, r: Received, data: seq<Byte>): (Received, Option<Problem>)
    decreases |data|
  {
    if data == [] then (r, None)
    else
      ParseShrinks(c, r, data);
      var (r', reply) := ParseScpData(c, r, data);
      if reply.Aborted? then (r', Some(reply.problem)) else Drain(c, r', reply.data)
  }

  class Command {
    const c: Session
    const fs: HoneyPotFilesystem
    var saved: seq<(string, seq<Byte>)>

    constructor (c: Session, fs: HoneyPotFilesystem)
      ensures this.c == c && this.fs == fs && saved == []
    {
      this.c, this.fs, saved := c, fs, [];
    }

    predicate Valid() {
      fs.budget == c.budget
    }

    function Snapshot(): Received
      reads this, fs
    {
      Received(fs.Snapshot(), saved)
    }

    method Save(data: seq<Byte>, fname: string) returns (v: Verdict)
      requires Valid()
      modifies this, fs
      ensures (Snapshot(), v) == SaveFile(c, old(Snapshot()), data, fname)
    {
      hide GetFile, Stamped;
      saved := saved + [(fname, data)];
      var f := fs.WalkFile(fname, true, c.budget);
      match f {
        case Raised(error) =>
          return Broken(In(error));
        case Missing =>
          return Accepted;
        case Found(at) =>
          fs.fs := Put(fs.fs, at, Stamped(c, At(fs.fs, at), data));
          return Accepted;
      }
    }

    method Parse(data: seq<Byte>) returns (reply: Reply)
      requires Valid()
      modifies this, fs
      ensures (Snapshot(), reply) == ParseScpData(c, old(Snapshot()), data)
    {
      hide Mkfile, SaveFile, Target, FromOctal, FromDecimal, IsHeader, AllDigits;
      var found := FindByte(data, NEWLINE);
      if found.None? {
        return Rest([]);
      }
      var header := Latin(data[..found.value]);
      var pos := found.value + 1;
      if !IsHeader(header) {
        return Rest([]);
      }
      if |SizeField(header)| > MAX_DIGITS {
        return Aborted(In(ValueError));
      }
      var size := FromDecimal(SizeField(header));
      var dend: nat := pos + size;
      if dend > |data| {
        dend := |data|;
      }
      var d := data[pos..dend];
      HeaderBounds(header);
      var name := c.decode(data[DigitsEnd(header, 6) + 1..found.value]);
      if name.None? {
        return Aborted(Undecodable);
      }
      var outfile := Target(c, name.value);
      if outfile.None? {
        return Aborted(In(IndexError));
      }
      var mode := FromOctal(header[2..5]);
      if mode.None? {
        return Aborted(In(ValueError));
      }
      var made := fs.MakeFile(outfile.value, c.uid, c.gid, size, mode.value, c.clock(|saved|));
      if made == Failed(FileNotFound) || made == Failed(PermissionDenied) {
        return Rest([]);
      }
      if made.Failed? {
        return Aborted(In(made.error));
      }
      var v := Save(d, outfile.value);
      if v.Broken? {
        return Aborted(v.problem);
      }
      return Rest(After(data, dend));
    }

    method EofReceived(stdin: seq<Byte>) returns (problem: Option<Problem>)
      requires Valid()
      modifies this, fs
      ensures (Snapshot(), problem) == Drain(c, old(Snapshot()), stdin)
    {
      hide ParseScpData;
      var data := stdin;
      while data != []
        invariant Drain(c, Snapshot(), data) == Drain(c, old(Snapshot()), stdin)
        decreases |data|
      {
        ParseShrinks(c, Snapshot(), data);
        var reply := Parse(data);
        if reply.Aborted? {
          return Some(reply.problem);
        }
        data := reply.data;
      }
      return None;
    }
  }

  lemma HeaderBounds(h: string)
    requires IsHeader(h)
    ensures |h| > 6 && DigitsEnd(h, 6) + 1 < |h| && AllDigits(h[2..5])
  {
  }
}
