/** cowrie-source/core/fingerprint.py: `parse_tls_client_hello`. */
module TlsClientHello {
  import opened Bytes
  import opened Sequences

  const RECORD_HANDSHAKE: Byte := 0x16
  const CLIENT_HELLO: Byte := 0x01
  const EXT_SERVER_NAME := 0x0000
  const EXT_SIGNATURE_ALGORITHMS := 0x000d
  const EXT_ALPN := 0x0010

  /** The parser's result; the ALPN name is given by its ASCII bytes. */
  datatype Parsed = Parsed(
    tlsVersion: Word, ciphers: seq<Word>, extensions: seq<Word>, hasSni: bool,
    alpn: Option<seq<Byte>>, signatureAlgorithms: Option<seq<Word>>)

  /** `struct.unpack("!H", bs[:2])`. */
  function U16At(bs: seq<Byte>): (n: nat)
    requires |bs| >= 2
    ensures n < U16
  {
    GetBE16(bs[..2])
  }

  /** The words of the first `n` bytes; an odd `n` reads one byte past them, and reading past the
      end of `bs` is a `struct.error`. */
  function Words(bs: seq<Byte>, n: int): Option<seq<Word>> {
    if n <= 0 then Some([])
    else if |bs| < 2 then None
    else
      var rest := Words(bs[2..], n - 2);
      if rest.None? then None else Some([U16At(bs)] + rest.value)
  }

  /** The same, but skipping words that are not there. */
  function WordsInside(bs: seq<Byte>, n: int): seq<Word>
    decreases n
  {
    if n <= 0 then []
    else if |bs| < 2 then WordsInside(bs, n - 2)
    else [U16At(bs)] + WordsInside(bs[2..], n - 2)
  }

  /** `decode("ascii", errors="ignore")`. */
  function Ascii(bs: seq<Byte>): seq<Byte> {
    if bs == [] then [] else (if bs[0] < 128 then [bs[0]] else []) + Ascii(bs[1..])
  }

  /** The first protocol name in an ALPN extension whose data starts `body`. */
  function AlpnOf(body: seq<Byte>): Option<seq<Byte>>
    requires |body| >= 2
  {
    var n := U16At(body);
    if 0 < n <= |body| - 2 then
      var list := body[2..2 + n];
      if |list| > 1 && 0 < list[0] < |list| then Some(Ascii(list[1..list[0] as int + 1])) else None
    else None
  }

  function SignatureAlgorithmsOf(body: seq<Byte>): Option<seq<Word>>
    requires |body| >= 2
  {
    var n := U16At(body);
    if 0 < n <= |body| - 2 then Some(WordsInside(body[2..], n)) else None
  }

  function OrElse<T>(a: Option<T>, b: Option<T>): Option<T> {
    if a.Some? then a else b
  }

  /** The effect of one extension of type `kind`, whose `size` bytes of data start `body`. */
  function Absorb(acc: Parsed, kind: Word, size: nat, body: seq<Byte>): Parsed
    requires size <= |body|
  {
    var acc := acc.(extensions := acc.extensions + [kind]);
    if kind == EXT_SERVER_NAME then acc.(hasSni := true)
    else if kind == EXT_ALPN && size > 2 then acc.(alpn := OrElse(AlpnOf(body), acc.alpn))
    else if kind == EXT_SIGNATURE_ALGORITHMS && size > 2 then
      acc.(signatureAlgorithms := OrElse(SignatureAlgorithmsOf(body), acc.signatureAlgorithms))
    else acc
  }

  /** The extension loop: `left` bytes of extensions are announced, `bs` is what the packet holds. */
  function Scan(bs: seq<Byte>, left: int, acc: Parsed): Parsed
    decreases |bs|
  {
    if left <= 0 || |bs| < 4 then acc
    else
      var kind, size, body := U16At(bs), U16At(bs[2..]), bs[4..];
      if size > |body| then acc
      else Scan(body[size..], left - 4 - size, Absorb(acc, kind, size, body))
  }

  /** From the length of the compression methods on. */
  function ParseTail(bs: seq<Byte>, version: Word, ciphers: seq<Word>): Option<Parsed> {
    if |bs| < 1 || |bs| < bs[0] as int + 3 then None
    else
      var bs := bs[bs[0] as int + 1..];
      Some(Scan(bs[2..], U16At(bs), Parsed(version, ciphers, [], false, None, None)))
  }

  /** From the length of the cipher suites on. */
  function ParseCiphers(bs: seq<Byte>, version: Word): Option<Parsed>
    requires |bs| >= 2
  {
    var n, bs := U16At(bs), bs[2..];
    if |bs| < n then None
    else
      var ciphers := Words(bs, n);
      if ciphers.None? then None else ParseTail(bs[n..], version, ciphers.value)
  }

  /** None stands for the parser's None, whether by a test or by an exception. */
  function Parse(data: seq<Byte>): Option<Parsed> {
    if |data| < 44 || data[0] != RECORD_HANDSHAKE || data[5] != CLIENT_HELLO then None
    else if |data| < data[43] as int + 46 then None
    else ParseCiphers(data[data[43] as int + 44..], U16At(data[9..]))
  }

  // ---------------------------------------------------------------- the parser

  method ParseTlsClientHello(data: seq<Byte>) returns (r: Option<Parsed>)
    ensures r == Parse(data)
  {
    hide ParseCiphers, U16At;
    if |data| < 43 {
      return None;
    }
    if data[0] != RECORD_HANDSHAKE {
      return None;
    }
    if data[5] != CLIENT_HELLO {
      return None;
    }
    var offset := 9;
    if |data| < offset + 35 {
      return None;
    }
    var version := U16At(data[offset..]);
    offset := offset + 2 + 32;
    offset := offset + 1 + data[offset] as int;
    if |data| < offset + 2 {
      return None;
    }
    r := ReadFromCiphers(data, offset, version);
  }

  method ReadFromCiphers(data: seq<Byte>, start: nat, version: Word) returns (r: Option<Parsed>)
    requires start + 2 <= |data|
    ensures r == ParseCiphers(data[start..], version)
  {
    hide ParseTail, Words, U16At;
    var n := U16At(data[start..]);
    var offset := start + 2;
    assert data[start..][2..] == data[offset..];
    if |data| < offset + n {
      return None;
    }
    var ciphers := ReadWords(data, offset, n);
    if ciphers.None? {
      return None;
    }
    assert data[offset..][n..] == data[offset + n..];
    r := ReadFromCompression(data, offset + n, version, ciphers.value);
  }

  method ReadFromCompression(data: seq<Byte>, start: nat, version: Word, ciphers: seq<Word>) returns (r: Option<Parsed>)
    requires start <= |data|
    ensures r == ParseTail(data[start..], version, ciphers)
  {
    hide Scan, U16At;
    if |data| < start + 1 {
      return None;
    }
    var offset := start + 1 + data[start] as int;
    if |data| < offset + 2 {
      return None;
    }
    assert data[start..][data[start] as int + 1..] == data[offset..];
    assert data[offset..][2..] == data[offset + 2..];
    var size := U16At(data[offset..]);
    var parsed := ReadExtensions(data, offset + 2, size, Parsed(version, ciphers, [], false, None, None));
    return Some(parsed);
  }

  method ReadWords(data: seq<Byte>, offset: nat, n: nat) returns (r: Option<seq<Word>>)
    requires offset <= |data|
    ensures r == Words(data[offset..], n)
  {
    var words: seq<Word> := [];
    var i: int := 0;
    AfterNoWords(Words(data[offset..], n));
    while i < n
      invariant 0 <= i <= n + 1 && offset + i <= |data|
      invariant AfterWords(words, Words(data[offset + i..], n - i)) == Words(data[offset..], n)
    {
      if |data| < offset + i + 2 {
        return None;
      }
      WordsStep(words, data, offset + i, n - i);
      words := words + [U16At(data[offset + i..])];
      i := i + 2;
    }
    assert words + [] == words;
    return Some(words);
  }

  lemma AfterNoWords(rest: Option<seq<Word>>)
    ensures AfterWords([], rest) == rest
  {
    if rest.Some? {
      assert [] + rest.value == rest.value;
    }
  }

  function AfterWords(words: seq<Word>, rest: Option<seq<Word>>): Option<seq<Word>> {
    if rest.None? then None else Some(words + rest.value)
  }

  lemma WordsStep(words: seq<Word>, data: seq<Byte>, i: nat, n: int)
    requires i + 2 <= |data| && n > 0
    ensures AfterWords(words, Words(data[i..], n))
         == AfterWords(words + [U16At(data[i..])], Words(data[i + 2..], n - 2))
  {
    assert data[i..][2..] == data[i + 2..];
    var rest := Words(data[i + 2..], n - 2);
    if rest.Some? {
      assert words + ([U16At(data[i..])] + rest.value) == (words + [U16At(data[i..])]) + rest.value;
    }
  }

  method ReadExtensions(data: seq<Byte>, start: nat, size: nat, acc: Parsed) returns (parsed: Parsed)
    requires start <= |data|
    ensures parsed == Scan(data[start..], size, acc)
  {
    hide U16At, AlpnOf, SignatureAlgorithmsOf;
    var offset, end := start, start + size;
    parsed := acc;
    while offset < end && offset + 4 <= |data|
      invariant offset <= |data|
      invariant Scan(data[offset..], end - offset, parsed) == Scan(data[start..], size, acc)
      decreases |data| - offset
    {
      ghost var before := parsed;
      var kind := U16At(data[offset..]);
      var length := U16At(data[offset + 2..]);
      ScanStep(data, offset, end - offset, parsed);
      offset := offset + 4;
      if offset + length > |data| {
        break;
      }
      parsed := parsed.(extensions := parsed.extensions + [kind]);
      if kind == EXT_SERVER_NAME {
        parsed := parsed.(hasSni := true);
      } else if kind == EXT_ALPN && length > 2 {
        parsed := parsed.(alpn := OrElse(AlpnOf(data[offset..]), parsed.alpn));
      } else if kind == EXT_SIGNATURE_ALGORITHMS && length > 2 {
        var algorithms := ReadSignatureAlgorithms(data, offset);
        parsed := parsed.(signatureAlgorithms := OrElse(algorithms, parsed.signatureAlgorithms));
      }
      assert parsed == Absorb(before, kind, length, data[offset..]);
      offset := offset + length;
    }
  }

  lemma ScanStep(data: seq<Byte>, offset: nat, left: int, acc: Parsed)
    requires offset + 4 <= |data| && left > 0
    ensures var kind, size, next := U16At(data[offset..]), U16At(data[offset + 2..]), offset + 4;
            Scan(data[offset..], left, acc) ==
            if next + size > |data| then acc
            else Scan(data[next + size..], left - 4 - size, Absorb(acc, kind, size, data[next..]))
  {
    hide U16At, Absorb;
    var size := U16At(data[offset + 2..]);
    assert data[offset..][2..] == data[offset + 2..] && data[offset..][4..] == data[offset + 4..];
    if offset + 4 + size <= |data| {
      assert data[offset + 4..][size..] == data[offset + 4 + size..];
    }
  }

  method ReadSignatureAlgorithms(data: seq<Byte>, offset: nat) returns (r: Option<seq<Word>>)
    requires offset + 2 <= |data|
    ensures r == SignatureAlgorithmsOf(data[offset..])
  {
    hide U16At, WordsInside, From;
    var n: int := U16At(data[offset..]);
    if n == 0 || offset + 2 + n > |data| {
      return None;
    }
    var words: seq<Word> := [];
    var i: int := 0;
    ghost var all := WordsInside(data[offset + 2..], n);
    assert data[offset..][2..] == data[offset + 2..] == From(data, offset + 2) by { FromInside(data, offset + 2); }
    assert words + all == all;
    while i < n
      invariant 0 <= i <= n + 1
      invariant all == words + WordsInside(From(data, offset + 2 + i), n - i)
    {
      WordsInsideStep(words, data, offset + 2 + i, n - i);
      if offset + 2 + i + 2 <= |data| {
        words := words + [U16At(data[offset + 2 + i..])];
      }
      i := i + 2;
    }
    WordsInsideShort(From(data, offset + 2 + i), n - i);
    assert words + [] == words;
    return Some(words);
  }

  function From(data: seq<Byte>, i: nat): seq<Byte> {
    if i <= |data| then data[i..] else []
  }

  lemma FromInside(data: seq<Byte>, i: nat)
    requires i <= |data|
    ensures From(data, i) == data[i..]
  {
  }

  lemma WordsInsideStep(words: seq<Word>, data: seq<Byte>, i: nat, n: int)
    requires n > 0
    ensures words + WordsInside(From(data, i), n)
         == (if i + 2 <= |data| then words + [U16At(data[i..])] else words) + WordsInside(From(data, i + 2), n - 2)
  {
    if i + 2 <= |data| {
      assert data[i..][2..] == data[i + 2..];
    } else {
      WordsInsideShort(From(data, i), n);
      WordsInsideShort(From(data, i + 2), n - 2);
    }
  }

  lemma {:induction false} WordsInsideShort(bs: seq<Byte>, n: int)
    requires |bs| < 2 || n <= 0
    ensures WordsInside(bs, n) == []
    decreases n
  {
    if n > 0 {
      WordsInsideShort(bs, n - 2);
    }
  }

  // ---------------------------------------------------------------- the encoder (RFC 8446, 4.1.2)

  datatype Extension =
    | ServerName(name: seq<Byte>)
    | Alpn(protocols: seq<seq<Byte>>)
    | SignatureAlgorithms(algorithms: seq<Word>)
    | Other(otherKind: Word, bytes: seq<Byte>)
  {
    /** The numbers of the IANA registry: 0 and 13 (RFC 8446 section 4.2), 16 (RFC 7301 section 3.1). */
    function Kind(): Word {
      match this
      case ServerName(_) => 0
      case Alpn(_) => 16
      case SignatureAlgorithms(_) => 13
      case Other(kind, _) => kind
    }

    /** Everything fits its length field, and another extension is not one of the three. */
    predicate Encodable() {
      match this
      case ServerName(name) => |name| < U16
      case Alpn(protocols) => (forall p :: p in protocols ==> |p| < 256) && |NameList(protocols)| + 2 < U16
      case SignatureAlgorithms(algorithms) => 2 * |algorithms| + 2 < U16
      case Other(kind, bytes) =>
        kind !in {0, 13, 16} && |bytes| < U16
    }

    function Body(): (bs: seq<Byte>)
      requires Encodable()
      ensures |bs| < U16
    {
      match this
      case ServerName(name) => name
      case Alpn(protocols) => PutBE16(|NameList(protocols)|) + NameList(protocols)
      case SignatureAlgorithms(algorithms) => PutBE16(2 * |algorithms|) + PutWords(algorithms)
      case Other(_, bytes) => bytes
    }

    function Encoded(): seq<Byte>
      requires Encodable()
    {
      PutBE16(Kind()) + PutBE16(|Body()|) + Body()
    }

    /** What a reader of the extension should remember. */
    function Noted(acc: Parsed): Parsed {
      var acc := acc.(extensions := acc.extensions + [Kind()]);
      match this
      case ServerName(_) => acc.(hasSni := true)
      case Alpn(protocols) =>
        if protocols != [] && protocols[0] != [] then acc.(alpn := Some(Ascii(protocols[0]))) else acc
      case SignatureAlgorithms(algorithms) =>
        if algorithms != [] then acc.(signatureAlgorithms := Some(algorithms)) else acc
      case Other(_, _) => acc
    }
  }

  function NameList(protocols: seq<seq<Byte>>): seq<Byte>
    requires forall p :: p in protocols ==> |p| < 256
  {
    if protocols == [] then [] else [|protocols[0]| as Byte] + protocols[0] + NameList(protocols[1..])
  }

  function PutWords(words: seq<Word>): (bs: seq<Byte>)
    ensures |bs| == 2 * |words|
  {
    if words == [] then [] else PutBE16(words[0]) + PutWords(words[1..])
  }

  function EncodeAll(exts: seq<Extension>): seq<Byte>
    requires forall e :: e in exts ==> e.Encodable()
  {
    if exts == [] then [] else exts[0].Encoded() + EncodeAll(exts[1..])
  }

  function NotedAll(exts: seq<Extension>, acc: Parsed): Parsed
    decreases |exts|
  {
    if exts == [] then acc else NotedAll(exts[1..], exts[0].Noted(acc))
  }

  datatype Hello = Hello(
    version: Word, random: seq<Byte>, sessionId: seq<Byte>, ciphers: seq<Word>,
    compression: seq<Byte>, extensions: seq<Extension>)
  {
    predicate Encodable() {
      && |random| == 32 && |sessionId| < 256
      && 2 * |ciphers| < U16
      && |compression| < 256
      && (forall e :: e in extensions ==> e.Encodable()) && |EncodeAll(extensions)| < U16
    }

    function Tail(): seq<Byte>
      requires Encodable()
    {
      [|compression| as Byte] + compression + PutBE16(|EncodeAll(extensions)|) + EncodeAll(extensions)
    }

    function CiphersAndTail(): seq<Byte>
      requires Encodable()
    {
      PutBE16(2 * |ciphers|) + PutWords(ciphers) + Tail()
    }

    function Body(): seq<Byte>
      requires Encodable()
    {
      PutBE16(version) + random + [|sessionId| as Byte] + sessionId + CiphersAndTail()
    }

    /** One record of type 22, a handshake message of type 1; the parser never looks at the version and
        the lengths in its nine bytes. */
    function Record(recordVersion: seq<Byte>, lengths: (seq<Byte>, seq<Byte>)): seq<Byte>
      requires Encodable() && |recordVersion| == |lengths.0| == 2 && |lengths.1| == 3
    {
      [22] + recordVersion + lengths.0 + [1] + lengths.1 + Body()
    }
  }

  // ---------------------------------------------------------------- round trip

  lemma FirstWord(words: seq<Word>, more: seq<Byte>)
    requires words != []
    ensures var bs := PutWords(words) + more;
            U16At(bs) == words[0] && bs[2..] == PutWords(words[1..]) + more && words == [words[0]] + words[1..]
  {
    hide PutBE16, GetBE16;
    TakeHead(PutBE16(words[0]), PutWords(words[1..]), more);
  }

  lemma TakeHead(head: seq<Byte>, tail: seq<Byte>, more: seq<Byte>)
    ensures (head + tail + more)[..|head|] == head && (head + tail + more)[|head|..] == tail + more
  {
  }

  lemma {:induction false} WordsRoundTrip(words: seq<Word>, more: seq<Byte>)
    ensures Words(PutWords(words) + more, 2 * |words|) == Some(words)
  {
    if words != [] {
      FirstWord(words, more);
      WordsRoundTrip(words[1..], more);
    }
  }

  lemma {:induction false} WordsInsideRoundTrip(words: seq<Word>, more: seq<Byte>)
    ensures WordsInside(PutWords(words) + more, 2 * |words|) == words
  {
    if words != [] {
      FirstWord(words, more);
      WordsInsideRoundTrip(words[1..], more);
    }
  }

  lemma AlpnRoundTrip(protocols: seq<seq<Byte>>, more: seq<Byte>)
    requires Alpn(protocols).Encodable()
    ensures var body := Alpn(protocols).Body() + more;
            && |body| >= 2
            && AlpnOf(body) == if protocols != [] && protocols[0] != [] then Some(Ascii(protocols[0])) else None
  {
    var names := NameList(protocols);
    var body := Alpn(protocols).Body() + more;
    assert body[..2] == PutBE16(|names|) && body[2..2 + |names|] == names;
    if protocols != [] {
      assert names[0] == |protocols[0]| && names[1..1 + |protocols[0]|] == protocols[0];
    }
  }

  lemma SignatureAlgorithmsRoundTrip(algorithms: seq<Word>, more: seq<Byte>)
    requires SignatureAlgorithms(algorithms).Encodable()
    ensures var body := SignatureAlgorithms(algorithms).Body() + more;
            && |body| >= 2
            && SignatureAlgorithmsOf(body) == if algorithms != [] then Some(algorithms) else None
  {
    hide WordsInside, Words, PutBE16, PutWords;
    var body := SignatureAlgorithms(algorithms).Body() + more;
    assert body[..2] == PutBE16(2 * |algorithms|) && body[2..] == PutWords(algorithms) + more;
    WordsInsideRoundTrip(algorithms, more);
  }

  lemma AbsorbRoundTrip(e: Extension, acc: Parsed, more: seq<Byte>)
    requires e.Encodable()
    ensures Absorb(acc, e.Kind(), |e.Body()|, e.Body() + more) == e.Noted(acc)
  {
    match e
    case Alpn(protocols) =>
      AlpnRoundTrip(protocols, more);
    case SignatureAlgorithms(algorithms) =>
      SignatureAlgorithmsRoundTrip(algorithms, more);
    case ServerName(_) =>
    case Other(_, _) =>
  }

  lemma EncodedFields(e: Extension, more: seq<Byte>)
    requires e.Encodable()
    ensures var bs := e.Encoded() + more;
            && |bs| >= 4 && U16At(bs) == e.Kind() && U16At(bs[2..]) == |e.Body()| && bs[4..] == e.Body() + more
  {
    var kind, body := e.Kind(), e.Body();
    var bs := e.Encoded() + more;
    hide PutBE16, GetBE16;
    assert bs == PutBE16(kind) + PutBE16(|body|) + body + more;
    assert bs[..2] == PutBE16(kind) && bs[2..][..2] == PutBE16(|body|);
  }

  lemma {:induction false} ScanRoundTrip(exts: seq<Extension>, acc: Parsed)
    requires forall e :: e in exts ==> e.Encodable()
    ensures Scan(EncodeAll(exts), |EncodeAll(exts)|, acc) == NotedAll(exts, acc)
    decreases |exts|
  {
    if exts != [] {
      var e, more := exts[0], EncodeAll(exts[1..]);
      EncodedFields(e, more);
      AbsorbRoundTrip(e, acc, more);
      assert (e.Body() + more)[|e.Body()|..] == more;
      ScanRoundTrip(exts[1..], e.Noted(acc));
    }
  }

  lemma TailRoundTrip(h: Hello, version: Word, ciphers: seq<Word>)
    requires h.Encodable()
    ensures ParseTail(h.Tail(), version, ciphers)
         == Some(NotedAll(h.extensions, Parsed(version, ciphers, [], false, None, None)))
  {
    var bs, exts := h.Tail(), EncodeAll(h.extensions);
    assert bs[0] == |h.compression|;
    var rest := bs[bs[0] as int + 1..];
    assert rest == PutBE16(|exts|) + exts;
    assert rest[..2] == PutBE16(|exts|) && rest[2..] == exts;
    ScanRoundTrip(h.extensions, Parsed(version, ciphers, [], false, None, None));
  }

  lemma CiphersRoundTrip(h: Hello)
    requires h.Encodable()
    ensures |h.CiphersAndTail()| >= 2
    ensures ParseCiphers(h.CiphersAndTail(), h.version)
         == Some(NotedAll(h.extensions, Parsed(h.version, h.ciphers, [], false, None, None)))
  {
    var bs, n := h.CiphersAndTail(), 2 * |h.ciphers|;
    assert bs[..2] == PutBE16(n) && bs[2..] == PutWords(h.ciphers) + h.Tail();
    assert (PutWords(h.ciphers) + h.Tail())[n..] == h.Tail();
    WordsRoundTrip(h.ciphers, h.Tail());
    TailRoundTrip(h, h.version, h.ciphers);
  }

  /** Parsing a record notes its extensions in turn. */
  lemma RecordRoundTrip(h: Hello, recordVersion: seq<Byte>, lengths: (seq<Byte>, seq<Byte>))
    requires h.Encodable() && |recordVersion| == |lengths.0| == 2 && |lengths.1| == 3
    ensures Parse(h.Record(recordVersion, lengths))
         == Some(NotedAll(h.extensions, Parsed(h.version, h.ciphers, [], false, None, None)))
  {
    hide ParseCiphers, PutBE16, NotedAll;
    var data, body := h.Record(recordVersion, lengths), h.Body();
    CiphersRoundTrip(h);
    BodyFields(h);
    assert data[9..] == body;
    assert data[43] == body[34];
    assert data[9..][..2] == body[..2];
    assert data[|h.sessionId| + 44..] == body[|h.sessionId| + 35..];
  }

  lemma BodyFields(h: Hello)
    requires h.Encodable()
    ensures var body, n := h.Body(), |h.sessionId|;
            && |body| >= n + 35 && body[..2] == PutBE16(h.version) && body[34] == n
            && body[n + 35..] == h.CiphersAndTail()
  {
    hide PutBE16;
    var front := PutBE16(h.version) + h.random + [|h.sessionId| as Byte] + h.sessionId;
    assert h.Body() == front + h.CiphersAndTail();
    assert |front| == |h.sessionId| + 35;
    assert front[..2] == PutBE16(h.version);
  }

  lemma {:induction false} AsciiKept(bs: seq<Byte>)
    requires forall i :: 0 <= i < |bs| ==> bs[i] < 128
    ensures Ascii(bs) == bs
  {
    if bs != [] {
      AsciiKept(bs[1..]);
      assert bs == [bs[0]] + bs[1..];
    }
  }

  function Kinds(exts: seq<Extension>): seq<Word> {
    if exts == [] then [] else [exts[0].Kind()] + Kinds(exts[1..])
  }

  /** The first protocol name of the last extension that offers one. */
  function OfferedProtocol(exts: seq<Extension>): Option<seq<Byte>> {
    if exts == [] then None
    else
      var e, later := exts[0], OfferedProtocol(exts[1..]);
      if later.Some? then later
      else if e.Alpn? && e.protocols != [] && e.protocols[0] != [] then Some(Ascii(e.protocols[0]))
      else None
  }

  /** The signature algorithms of the last extension that lists any. */
  function OfferedAlgorithms(exts: seq<Extension>): Option<seq<Word>> {
    if exts == [] then None
    else
      var e, later := exts[0], OfferedAlgorithms(exts[1..]);
      if later.Some? then later
      else if e.SignatureAlgorithms? && e.algorithms != [] then Some(e.algorithms)
      else None
  }

  predicate NamesServer(exts: seq<Extension>) {
    exists i :: 0 <= i < |exts| && exts[i].ServerName?
  }

  lemma NamesServerHead(exts: seq<Extension>)
    requires exts != []
    ensures NamesServer(exts) <==> exts[0].ServerName? || NamesServer(exts[1..])
  {
    if NamesServer(exts) && !exts[0].ServerName? {
      var i :| 0 <= i < |exts| && exts[i].ServerName?;
      assert exts[1..][i - 1].ServerName?;
    }
  }

  /** What remembering each extension in turn amounts to. */
  lemma {:induction false} NotedAllSummary(exts: seq<Extension>, acc: Parsed)
    ensures NotedAll(exts, acc) == Parsed(
              acc.tlsVersion, acc.ciphers, acc.extensions + Kinds(exts), acc.hasSni || NamesServer(exts),
              if OfferedProtocol(exts).Some? then OfferedProtocol(exts) else acc.alpn,
              if OfferedAlgorithms(exts).Some? then OfferedAlgorithms(exts) else acc.signatureAlgorithms)
    decreases |exts|
  {
    hide NamesServer, Ascii, Extension.Noted, Extension.Kind;
    if exts == [] {
      NamesNobody();
      assert acc.extensions + [] == acc.extensions;
    } else {
      NamesServerHead(exts);
      NotedOne(exts[0], acc);
      NotedAllSummary(exts[1..], exts[0].Noted(acc));
      assert acc.extensions + [exts[0].Kind()] + Kinds(exts[1..]) == acc.extensions + Kinds(exts);
    }
  }

  lemma NotedOne(e: Extension, acc: Parsed)
    ensures e.Noted(acc) == Parsed(
              acc.tlsVersion, acc.ciphers, acc.extensions + [e.Kind()], acc.hasSni || e.ServerName?,
              if e.Alpn? && e.protocols != [] && e.protocols[0] != [] then Some(Ascii(e.protocols[0])) else acc.alpn,
              if e.SignatureAlgorithms? && e.algorithms != [] then Some(e.algorithms) else acc.signatureAlgorithms)
  {
    hide Ascii;
  }

  lemma NamesNobody()
    ensures !NamesServer([])
  {
  }

  /** Main result: any hello, encoded as one record and parsed, gives back its version and cipher
      list, its extension types in order, whether it names a server, and the first protocol and the
      signature algorithms of the last extensions that carry any. */
  lemma RoundTrip(h: Hello, recordVersion: seq<Byte>, lengths: (seq<Byte>, seq<Byte>))
    requires h.Encodable() && |recordVersion| == |lengths.0| == 2 && |lengths.1| == 3
    ensures Parse(h.Record(recordVersion, lengths)) == Some(Parsed(
              h.version, h.ciphers, Kinds(h.extensions), NamesServer(h.extensions),
              OfferedProtocol(h.extensions), OfferedAlgorithms(h.extensions)))
  {
    hide Parse, NotedAll, Kinds, NamesServer, OfferedProtocol, OfferedAlgorithms;
    RecordRoundTrip(h, recordVersion, lengths);
    NotedAllSummary(h.extensions, Parsed(h.version, h.ciphers, [], false, None, None));
    assert [] + Kinds(h.extensions) == Kinds(h.extensions);
  }
}
