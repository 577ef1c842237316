/** What a sender writes for a list of files, and what arrives. */
module ScpRoundTrip {
  import FsWalkers
  import opened Sequences
  import opened Bytes
  import opened Decimal
  import opened Scp

  datatype Upload = Upload(name: seq<Byte>, mode: nat, data: seq<Byte>)

  /** A name without white space, three octal digits of permissions, a size Python will read. */
  ghost predicate Sendable(f: Upload) {
    f.name != [] && NoSpace(Latin(f.name)) && f.mode < 512 && |ToDecimal(|f.data|)| <= 4300
  }

  function ToBytes(s: string): (bs: seq<Byte>)
    requires forall i :: 0 <= i < |s| ==> s[i] < 256 as char
    ensures |bs| == |s|
  {
    seq(|s|, i requires 0 <= i < |s| => s[i] as int)
  }

  function Octal(mode: nat): string
    requires mode < 512
  {
    [DIGITS[mode / 64], DIGITS[mode / 8 % 8], DIGITS[mode % 8]]
  }

  function Header(f: Upload): string
    requires f.mode < 512
  {
    "C0" + Octal(f.mode) + " " + ToDecimal(|f.data|) + " "
  }

  /** The header line, the data, and a NUL. */
  function Frame(f: Upload): seq<Byte>
    requires f.mode < 512
  {
    HeaderIsLatin(f);
    ToBytes(Header(f)) + f.name + [NEWLINE] + f.data + [0]
  }

  ghost predicate AllSendable(files: seq<Upload>) {
    forall i :: 0 <= i < |files| ==> Sendable(files[i])
  }

  function Stream(files: seq<Upload>): seq<Byte>
    requires forall i :: 0 <= i < |files| ==> files[i].mode < 512
  {
    if files == [] then [] else Frame(files[0]) + Stream(files[1..])
  }

  lemma DecimalIsLatin(n: nat)
    ensures ToDecimal(n) != "" && forall i :: 0 <= i < |ToDecimal(n)| ==> IsDigit(ToDecimal(n)[i])
  {
    RoundTrip(n);
  }

  lemma HeaderIsLatin(f: Upload)
    requires f.mode < 512
    ensures forall i :: 0 <= i < |Header(f)| ==> Header(f)[i] < 256 as char && Header(f)[i] != '\n'
  {
    hide ToDecimal;
    DecimalIsLatin(|f.data|);
    DigitRoundTrip(f.mode / 64);
    DigitRoundTrip(f.mode / 8 % 8);
    DigitRoundTrip(f.mode % 8);
  }

  lemma LatinBytes(s: string)
    requires forall i :: 0 <= i < |s| ==> s[i] < 256 as char
    ensures Latin(ToBytes(s)) == s
  {
  }

  lemma LatinConcat(a: seq<Byte>, b: seq<Byte>)
    ensures Latin(a + b) == Latin(a) + Latin(b)
  {
  }

  // ---------------------------------------------------------------- reading one header back

  lemma DigitsAppend(s: string, c: char)
    requires AllDigits(s) && IsDigit(c)
    ensures AllDigits(s + [c])
  {
    hide IsDigit;
  }

  lemma OctalDigit(s: string, c: char, d: nat)
    requires AllDigits(s) && FromOctal(s).Some? && IsDigit(c) && (c - '0') as nat == d < 8
    ensures AllDigits(s + [c]) && FromOctal(s + [c]) == Some(8 * FromOctal(s).value + d)
  {
    DigitsAppend(s, c);
    var t := s + [c];
    assert t[..|t| - 1] == s && t[|t| - 1] == c;
    hide AllDigits, FromOctal;
    FromOctalStep(t);
  }

  lemma FromOctalStep(t: string)
    requires t != "" && AllDigits(t)
    ensures FromOctal(t)
            == (var front, d := FromOctal(t[..|t| - 1]), (t[|t| - 1] - '0') as nat;
                if front.None? || d >= 8 then None else Some(8 * front.value + d))
  {
  }

  lemma ThreeOctalDigits(c0: char, c1: char, c2: char, d0: nat, d1: nat, d2: nat)
    requires IsDigit(c0) && (c0 - '0') as nat == d0 < 8
    requires IsDigit(c1) && (c1 - '0') as nat == d1 < 8
    requires IsDigit(c2) && (c2 - '0') as nat == d2 < 8
    ensures AllDigits([c0, c1, c2]) && FromOctal([c0, c1, c2]) == Some(64 * d0 + 8 * d1 + d2)
  {
    assert AllDigits("") && FromOctal("") == Some(0);
    hide FromOctal, AllDigits;
    assert "" + [c0] == [c0] && [c0] + [c1] == [c0, c1] && [c0, c1] + [c2] == [c0, c1, c2];
    OctalDigit("", c0, d0);
    OctalDigit([c0], c1, d1);
    OctalDigit([c0, c1], c2, d2);
  }

  lemma OctalParts(mode: nat)
    requires mode < 512
    ensures mode / 64 < 8 && 64 * (mode / 64) + 8 * (mode / 8 % 8) + mode % 8 == mode
  {
  }

  lemma OctalRoundTrip(mode: nat)
    requires mode < 512
    ensures AllDigits(Octal(mode)) && FromOctal(Octal(mode)) == Some(mode)
  {
    var a, b, c := mode / 64, mode / 8 % 8, mode % 8;
    DigitRoundTrip(a);
    DigitRoundTrip(b);
    DigitRoundTrip(c);
    OctalParts(mode);
    hide FromOctal, AllDigits, DIGITS, IsDigit;
    ThreeOctalDigits(DIGITS[a], DIGITS[b], DIGITS[c], a, b, c);
  }

  lemma {:induction false} DigitsEndAt(h: string, i: nat, e: nat)
    requires i <= e < |h| && !IsDigit(h[e])
    requires forall j :: i <= j < e ==> IsDigit(h[j])
    ensures DigitsEnd(h, i) == e
    decreases e - i
  {
    if i < e {
      DigitsEndAt(h, i + 1, e);
    }
  }

  /** The fields of the header line. */
  lemma HeaderReadsBack(f: Upload)
    requires Sendable(f)
    ensures var h, size := Header(f) + Latin(f.name), ToDecimal(|f.data|);
            && IsHeader(h) && h[2..5] == Octal(f.mode) && SizeField(h) == size
            && DigitsEnd(h, 6) + 1 == |Header(f)|
  {
    hide ToDecimal, Octal, IsDigit, FromDecimal;
    var size := ToDecimal(|f.data|);
    var h := Header(f) + Latin(f.name);
    RoundTrip(|f.data|);
    OctalRoundTrip(f.mode);
    assert |Octal(f.mode)| == 3 by { OctalLength(f.mode); }
    var e := 6 + |size|;
    assert h[6..e] == size && h[e] == ' ' && h[2..5] == Octal(f.mode) && h[..2] == "C0";
    forall j | 6 <= j < e
      ensures IsDigit(h[j])
    {
      assert h[j] == size[j - 6];
    }
    assert !IsDigit(' ') by { SpaceIsNoDigit(); }
    DigitsEndAt(h, 6, e);
    assert h[e + 1..] == Latin(f.name);
  }

  /** The letter C, a zero, three digits, the size and the name, between single blanks. */
  predicate HeaderShape(h: string, mode: string, size: string, name: string) {
    && h == "C0" + mode + " " + size + " " + name
    && |mode| == 3 && AllDigits(mode) && size != "" && AllDigits(size) && name != "" && NoSpace(name)
  }

  lemma ShapeIsHeader(h: string, mode: string, size: string, name: string)
    requires HeaderShape(h, mode, size, name)
    ensures IsHeader(h) && h[2..5] == mode && SizeField(h) == size && h[DigitsEnd(h, 6) + 1..] == name
  {
    var e := 6 + |size|;
    assert h[..2] == "C0" && h[2..5] == mode && h[5] == ' ' && h[6..e] == size && h[e] == ' ' && h[e + 1..] == name;
    forall j | 6 <= j < e
      ensures IsDigit(h[j])
    {
      assert h[j] == size[j - 6];
    }
    assert !IsDigit(' ') by { SpaceIsNoDigit(); }
    hide IsDigit, NoSpace;
    DigitsEndAt(h, 6, e);
  }

  /** Main result: these are exactly the header lines, and every part is read from its place. */
  lemma HeaderExactly(h: string)
    ensures IsHeader(h) <==> exists mode, size, name :: HeaderShape(h, mode, size, name)
  {
    if exists mode, size, name :: HeaderShape(h, mode, size, name) {
      var mode, size, name :| HeaderShape(h, mode, size, name);
      ShapeIsHeader(h, mode, size, name);
    }
    if IsHeader(h) {
      var e := DigitsEnd(h, 6);
      DigitsEndDigits(h, 6);
      hide IsDigit, NoSpace, DigitsEnd, AllDigits;
      assert h == h[..2] + h[2..5] + [h[5]] + h[6..e] + [h[e]] + h[e + 1..];
      assert HeaderShape(h, h[2..5], h[6..e], h[e + 1..]);
    }
  }

  lemma OctalLength(mode: nat)
    requires mode < 512
    ensures |Octal(mode)| == 3
  {
  }

  lemma SpaceIsNoDigit()
    ensures !IsDigit(' ')
  {
  }

  lemma {:induction false} FindByteFirst(data: seq<Byte>, b: Byte, k: nat)
    requires k < |data| && data[k] == b && forall j :: 0 <= j < k ==> data[j] != b
    ensures FindByte(data, b) == Some(k)
  {
    if k > 0 {
      assert data[0] != b;
      FindByteFirst(data[1..], b, k - 1);
    }
  }

  /** The line in front of the data: where it ends, and what it says. */
  function Line(f: Upload): seq<Byte>
    requires f.mode < 512
  {
    HeaderIsLatin(f);
    ToBytes(Header(f)) + f.name
  }

  lemma LineFound(f: Upload, more: seq<Byte>)
    requires Sendable(f)
    ensures FindByte(Line(f) + [NEWLINE] + more, NEWLINE) == Some(|Line(f)|)
    ensures Latin(Line(f)) == Header(f) + Latin(f.name)
  {
    hide Header;
    HeaderIsLatin(f);
    var line := Line(f);
    var data := line + [NEWLINE] + more;
    LatinConcat(ToBytes(Header(f)), f.name);
    LatinBytes(Header(f));
    forall j | 0 <= j < |line|
      ensures data[j] != NEWLINE
    {
      assert Latin(line)[j] == data[j] as char;
      assert Latin(line)[j] == if j < |Header(f)| then Header(f)[j] else Latin(f.name)[j - |Header(f)|];
    }
    FindByteFirst(data, NEWLINE, |line|);
  }

  lemma FrameParts(f: Upload, more: seq<Byte>)
    requires f.mode < 512
    ensures var data, pos := Frame(f) + more, |Line(f)|;
            && data == Line(f) + [NEWLINE] + (f.data + [0] + more)
            && data[..pos] == Line(f) && data[|Header(f)|..pos] == f.name
            && data[pos + 1..pos + 1 + |f.data|] == f.data
            && data[pos + 1 + |f.data| + 1..] == more && |data| > pos + 1 + |f.data|
  {
    hide Header;
    HeaderIsLatin(f);
  }

  /** Main step: parsing the stream takes in the first file, and leaves the rest. */
  lemma ParseFrame(c: Session, r: Received, f: Upload, more: seq<Byte>)
    requires Sendable(f)
    ensures var (r', verdict) := Accept(c, r, f.name, Some(f.mode), |f.data|, f.data);
            ParseScpData(c, r, Frame(f) + more)
            == (r', match verdict
                    case Accepted => Rest(more)
                    case Refused => Rest([])
                    case Broken(problem) => Aborted(problem))
  {
    hide Accept, Frame, Line, Header, ToDecimal, FromDecimal, FromOctal, Octal, IsHeader, DigitsEnd, FindByte, Latin;
    FrameParts(f, more);
    LineFound(f, f.data + [0] + more);
    HeaderReadsBack(f);
    OctalRoundTrip(f.mode);
    RoundTrip(|f.data|);
  }

  /** A size of more than 4300 digits, which Python refuses to convert, ends the loop with ValueError. */
  lemma LongSizeAborts(c: Session, r: Received, line: seq<Byte>, more: seq<Byte>, mode: string, size: string,
                       name: string)
    requires NEWLINE !in line && HeaderShape(Latin(line), mode, size, name) && |size| > 4300
    ensures ParseScpData(c, r, line + [NEWLINE] + more) == (r, Aborted(In(FsWalkers.ValueError)))
  {
    var data := line + [NEWLINE] + more;
    FindByteFirst(data, NEWLINE, |line|);
    assert data[..|line|] == line;
    ShapeIsHeader(Latin(line), mode, size, name);
    hide Latin, HeaderShape, IsHeader, Accept, FromDecimal, FromOctal, AllDigits;
  }

  // ---------------------------------------------------------------- the whole stream

  /** The files taken in one after the other, until one is refused. */
  function ReceiveAll(c: Session, r: Received, files: seq<Upload>): (Received, Option<Problem>)
    decreases |files|
  {
    if files == [] then (r, None)
    else
      var f := files[0];
      var (r', verdict) := Accept(c, r, f.name, Some(f.mode), |f.data|, f.data);
      match verdict
      case Accepted => ReceiveAll(c, r', files[1..])
      case Refused => (r', None)
      case Broken(problem) => (r', Some(problem))
  }

  /** Main result: the loop over the stream of any list of files takes in exactly those files, in
      order, each with its name, permissions, size and bytes. */
  lemma {:induction false} StreamArrives(c: Session, r: Received, files: seq<Upload>)
    requires AllSendable(files)
    ensures Drain(c, r, Stream(files)) == ReceiveAll(c, r, files)
    decreases |files|
  {
    hide ParseScpData, Accept, Frame;
    if files != [] {
      var f, data := files[0], Stream(files);
      assert Sendable(f);
      ParseFrame(c, r, f, Stream(files[1..]));
      FrameParts(f, Stream(files[1..]));
      var (r', verdict) := Accept(c, r, f.name, Some(f.mode), |f.data|, f.data);
      if verdict.Accepted? {
        StreamArrives(c, r', files[1..]);
      }
    }
  }
}
