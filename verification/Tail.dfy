/** cowrie-source/core/utils.py: `tail`, the last lines of a file by a backward block scan. */
module Tail {
  import opened Bytes
  import opened Files

  const NEWLINE: Byte := 10
  const BLOCK := 1024

  /** Where the first line of `data` ends, its newline included. */
  function LineEnd(data: seq<Byte>): (n: nat)
    ensures n <= |data| && (data != [] ==> n > 0)
  {
    if data == [] then 0 else if data[0] == NEWLINE then 1 else 1 + LineEnd(data[1..])
  }

  lemma {:induction false} LineEndIsFirstNewline(data: seq<Byte>)
    requires data != []
    ensures NEWLINE !in data[..LineEnd(data) - 1]
    ensures LineEnd(data) < |data| ==> data[LineEnd(data) - 1] == NEWLINE
  {
    if data[0] != NEWLINE && |data| > 1 {
      LineEndIsFirstNewline(data[1..]);
      var n := LineEnd(data[1..]);
      assert data[..n] == [data[0]] + data[1..][..n - 1];
    }
  }

  /** `readlines`: the lines of `data`, each with its newline; the last one may lack it. */
  function Lines(data: seq<Byte>): seq<seq<Byte>> {
    if data == [] then [] else [data[..LineEnd(data)]] + Lines(data[LineEnd(data)..])
  }

  /** Python's `lines[-n:]`. */
  function LastLines(lines: seq<seq<Byte>>, n: int): seq<seq<Byte>> {
    if n > 0 then (if n >= |lines| then lines else lines[|lines| - n..])
    else if -n >= |lines| then [] else lines[-n..]
  }

  function Newlines(data: seq<Byte>): nat {
    if data == [] then 0 else (if data[0] == NEWLINE then 1 else 0) + Newlines(data[1..])
  }

  function Joined(lines: seq<seq<Byte>>): seq<Byte> {
    if lines == [] then [] else lines[0] + Joined(lines[1..])
  }

  /** Non-empty lines, each with its newline at its end only, which the last one may lack. */
  predicate WellSplit(lines: seq<seq<Byte>>) {
    lines == [] ||
    (var line := lines[0];
     && line != [] && NEWLINE !in line[..|line| - 1]
     && (|lines| > 1 ==> line[|line| - 1] == NEWLINE)
     && WellSplit(lines[1..]))
  }

  /** `Lines` is what a reader expects: nothing is lost, and every newline ends its line. */
  lemma {:induction false} LinesPartition(data: seq<Byte>)
    ensures Joined(Lines(data)) == data && WellSplit(Lines(data))
    decreases |data|
  {
    if data != [] {
      var n := LineEnd(data);
      LineEndIsFirstNewline(data);
      LinesPartition(data[n..]);
      var rest := Lines(data[n..]);
      assert data[..n] + data[n..] == data;
      assert data[..n][..n - 1] == data[..n - 1];
      assert ([data[..n]] + rest)[1..] == rest;
    }
  }

  lemma {:induction false} LineEndAfterNewline(a: seq<Byte>, b: seq<Byte>)
    requires a != [] && a[|a| - 1] == NEWLINE
    ensures LineEnd(a + b) == LineEnd(a)
  {
    if a[0] != NEWLINE {
      assert (a + b)[1..] == a[1..] + b;
      LineEndAfterNewline(a[1..], b);
    }
  }

  lemma Associative<T>(a: seq<T>, b: seq<T>, c: seq<T>)
    ensures (a + b) + c == a + (b + c)
  {
  }

  /** A file cut just after a newline is cut between lines. */
  lemma {:induction false} LinesAfterNewline(a: seq<Byte>, b: seq<Byte>)
    requires a != [] ==> a[|a| - 1] == NEWLINE
    ensures Lines(a + b) == Lines(a) + Lines(b)
    decreases |a|
  {
    if a == [] {
      assert a + b == b;
    } else {
      var n := LineEnd(a);
      LineEndAfterNewline(a, b);
      assert (a + b)[..n] == a[..n] && (a + b)[n..] == a[n..] + b;
      assert a[n..] != [] ==> a[n..][|a[n..]| - 1] == NEWLINE;
      LinesAfterNewline(a[n..], b);
      Associative([a[..n]], Lines(a[n..]), Lines(b));
    }
  }

  lemma {:induction false} NewlinesConcat(a: seq<Byte>, b: seq<Byte>)
    ensures Newlines(a + b) == Newlines(a) + Newlines(b)
  {
    if a == [] {
      assert a + b == b;
    } else {
      assert (a + b)[1..] == a[1..] + b;
      NewlinesConcat(a[1..], b);
    }
  }

  lemma NewlinesBetween(data: seq<Byte>, p: nat, q: nat)
    requires p <= q <= |data|
    ensures Newlines(data[p..]) == Newlines(data[p..q]) + Newlines(data[q..])
  {
    assert data[p..] == data[p..q] + data[q..];
    NewlinesConcat(data[p..q], data[q..]);
  }

  lemma {:induction false} OneNewlinePerLine(data: seq<Byte>)
    ensures data != [] ==> Newlines(data[..LineEnd(data)]) <= 1
    ensures Newlines(data) <= |Lines(data)|
    decreases |data|
  {
    if data != [] {
      var n := LineEnd(data);
      LineEndIsFirstNewline(data);
      NewlinesUnless(data[..n - 1]);
      assert data[..n] == data[..n - 1] + [data[n - 1]];
      NewlinesConcat(data[..n - 1], [data[n - 1]]);
      OneNewlinePerLine(data[n..]);
      assert data == data[..n] + data[n..];
      NewlinesConcat(data[..n], data[n..]);
    }
  }

  lemma {:induction false} NewlinesUnless(data: seq<Byte>)
    ensures NEWLINE !in data ==> Newlines(data) == 0
  {
    if data != [] {
      NewlinesUnless(data[1..]);
    }
  }

  /** A suffix holding more than `n` newlines ends in the same `n` lines as the file, although its
      own first line may be only the end of one of the file's. */
  lemma SuffixSuffices(data: seq<Byte>, p: nat, n: nat)
    requires p <= |data| && Newlines(data[p..]) > n >= 1
    ensures LastLines(Lines(data[p..]), n) == LastLines(Lines(data), n)
  {
    hide Lines, LineEnd, Newlines, LastLines;
    var rest := data[p..];
    var e := LineEnd(rest);
    FirstLineDropped(rest, n);
    CommonLines(data, p);
    LastOfLonger(Lines(data[..p + e]), Lines(rest[e..]), n);
    LastOfLonger([rest[..e]], Lines(rest[e..]), n);
  }

  lemma CommonLines(data: seq<Byte>, p: nat)
    requires p < |data| && LineEnd(data[p..]) < |data[p..]|
    ensures var rest, e := data[p..], LineEnd(data[p..]);
            && Lines(rest) == [rest[..e]] + Lines(rest[e..])
            && Lines(data) == Lines(data[..p + e]) + Lines(rest[e..])
  {
    CutAfterLine(data, p);
    LinesAfterNewline(data[..p + LineEnd(data[p..])], data[p..][LineEnd(data[p..])..]);
  }

  lemma CutAfterLine(data: seq<Byte>, p: nat)
    requires p < |data| && LineEnd(data[p..]) < |data[p..]|
    ensures var cut := p + LineEnd(data[p..]);
            && 0 < cut <= |data| && data[cut - 1] == data[..cut][cut - 1] == NEWLINE
            && data[..cut] + data[p..][LineEnd(data[p..])..] == data
  {
    LineEndIsFirstNewline(data[p..]);
  }

  lemma FirstLineDropped(data: seq<Byte>, n: nat)
    requires Newlines(data) > n >= 1
    ensures LineEnd(data) < |data| && |Lines(data[LineEnd(data)..])| >= n
  {
    var e := LineEnd(data);
    OneNewlinePerLine(data);
    assert data == data[..e] + data[e..];
    NewlinesConcat(data[..e], data[e..]);
    OneNewlinePerLine(data[e..]);
  }

  lemma LastOfLonger(before: seq<seq<Byte>>, lines: seq<seq<Byte>>, n: nat)
    requires 0 < n <= |lines|
    ensures LastLines(before + lines, n) == LastLines(lines, n)
  {
  }

  /** Main result, for every file: the last `n` lines if `n >= 1`, and nothing if `n < 0`; but
      `n == 0` gives nothing only when the file is empty. */
  method Tail(file: BinaryFile, n: int) returns (lines: seq<seq<Byte>>)
    modifies file
    ensures n >= 1 ==> lines == LastLines(Lines(file.data), n)
    ensures n < 0 ==> lines == []
    ensures n == 0 ==> (lines == [] <==> file.data == [])
  {
    var found, scanned := 0, 0;
    file.SeekFromEnd(0);
    var size := file.pos;
    while n + 1 > found && size > scanned
      invariant file.pos <= |file.data| == size && 0 <= scanned <= size
      invariant found <= Newlines(file.data[size - scanned..]) || scanned == size
      invariant found >= 0 && (n + 1 <= 0 ==> scanned == 0) && (found >= 1 ==> scanned >= 1)
      decreases size - scanned
    {
      var block := if BLOCK < size - scanned then BLOCK else size - scanned;
      file.SeekFromEnd(block + scanned);
      NewlinesBetween(file.data, size - scanned - block, size - scanned);
      scanned := scanned + block;
      var bytes := file.Read(BLOCK);
      found := found + Newlines(bytes);
    }
    file.SeekFromEnd(scanned);
    var rest := file.ReadToEnd();
    var lineList := Lines(rest);
    lines := LastLines(lineList, n);
    if scanned == size {
      assert file.data[0..] == file.data;
    } else if n >= 1 {
      SuffixSuffices(file.data, size - scanned, n);
    }
  }
}
