/** Binary files open for reading: a position that `seek` sets and `read` moves, over bytes that
    do not change. */
module Files {
  import opened Bytes

  /** What `read(size)` gets of `rest`; a negative size asks for everything. */
  function Taken(rest: seq<Byte>, size: int): (n: nat)
    ensures n <= |rest|
  {
    if 0 <= size <= |rest| then size else |rest|
  }

  /** A file's bytes and the read position. */
  class BinaryFile {
    const data: seq<Byte>
    var pos: nat

    constructor (data: seq<Byte>)
      ensures this.data == data && pos == 0
    {
      this.data, pos := data, 0;
    }

    /** `seek(-back, 2)`. */
    method SeekFromEnd(back: nat)
      requires back <= |data|
      modifies this
      ensures pos == |data| - back
    {
      pos := |data| - back;
    }

    method Read(size: int) returns (bytes: seq<Byte>)
      requires pos <= |data|
      modifies this
      ensures pos == old(pos) + Taken(data[old(pos)..], size)
      ensures bytes == data[old(pos)..pos]
    {
      var n := Taken(data[pos..], size);
      bytes := data[pos..pos + n];
      pos := pos + n;
    }

    method ReadToEnd() returns (bytes: seq<Byte>)
      requires pos <= |data|
      modifies this
      ensures bytes == data[old(pos)..] && pos == |data|
    {
      bytes := data[pos..];
      pos := |data|;
    }
  }
}
