/** cowrie-source/core/fingerprint.py: `generate_ja4`, with the hash left uninterpreted. */
module Ja4 {
  import opened Sequences
  import opened Strings
  import opened Sorting
  import Hex

  /** RFC 8701. */
  const GREASE: set<nat> := {
    0x0a0a, 0x1a1a, 0x2a2a, 0x3a3a, 0x4a4a, 0x5a5a, 0x6a6a, 0x7a7a,
    0x8a8a, 0x9a9a, 0xaaaa, 0xbaba, 0xcaca, 0xdada, 0xeaea, 0xfafa
  }

  const NO_HASH := "000000000000"
  const HASH_LENGTH := 12

  datatype Hello = Hello(
    tlsVersion: nat, ciphers: seq<nat>, extensions: seq<nat>, hasSni: bool,
    alpn: Option<string>, signatureAlgorithms: Option<seq<nat>>, quic: bool)

  function VersionCode(v: nat): (s: string)
    ensures |s| == 2
  {
    if v == 0x0002 then "s2" else if v == 0x0300 then "s3"
    else if v == 0x0301 then "10" else if v == 0x0302 then "11"
    else if v == 0x0303 then "12" else if v == 0x0304 then "13"
    else "00"
  }

  function NoGrease(vs: seq<nat>): seq<nat> {
    if vs == [] then [] else (if vs[0] in GREASE then [] else [vs[0]]) + NoGrease(vs[1..])
  }

  function Capped(n: nat): (r: nat)
    ensures r <= 99
  {
    if n < 99 then n else 99
  }

  function TwoDigits(n: nat): (s: string)
    requires n <= 99
    ensures |s| == 2
  {
    ["0123456789"[n / 10], "0123456789"[n % 10]]
  }

  function AlpnValue(alpn: Option<string>): string {
    if alpn.None? || alpn.value == "" then "00"
    else if |alpn.value| > 2 then [alpn.value[0], alpn.value[|alpn.value| - 1]]
    else alpn.value
  }

  function SortedHex(vs: seq<nat>): seq<string> {
    Sort(Hex.All(NoGrease(vs)))
  }

  /** What the first hash covers. */
  function CipherString(h: Hello): string {
    Join(',', SortedHex(h.ciphers))
  }

  function Signatures(h: Hello): seq<nat> {
    if h.signatureAlgorithms.None? then [] else h.signatureAlgorithms.value
  }

  /** What the second hash covers: the signature algorithms keep their order. */
  function ExtensionString(h: Hello): string {
    Join(',', SortedHex(h.extensions)) +
    if Signatures(h) == [] then "" else "_" + Join(',', Hex.All(Signatures(h)))
  }

  function CipherHash(h: Hello, sha: string -> string): string {
    if SortedHex(h.ciphers) == [] then NO_HASH else sha(CipherString(h))
  }

  function ExtensionHash(h: Hello, sha: string -> string): string {
    if SortedHex(h.extensions) == [] then NO_HASH else sha(ExtensionString(h))
  }

  function Prefix(h: Hello): string {
    (if h.quic then "q" else "t") + VersionCode(h.tlsVersion) + (if h.hasSni then "d" else "i")
    + TwoDigits(Capped(|NoGrease(h.ciphers)|)) + TwoDigits(Capped(|NoGrease(h.extensions)|))
    + AlpnValue(h.alpn)
  }

  function GenerateJa4(h: Hello, sha: string -> string): string {
    Prefix(h) + "_" + CipherHash(h, sha) + "_" + ExtensionHash(h, sha)
  }

  // ---------------------------------------------------------------- what the fingerprint keeps

  /** The two hellos differ only in ways the fingerprint is meant to ignore. */
  ghost predicate Alike(g: Hello, h: Hello) {
    && g.quic == h.quic && VersionCode(g.tlsVersion) == VersionCode(h.tlsVersion) && g.hasSni == h.hasSni
    && AlpnValue(g.alpn) == AlpnValue(h.alpn)
    && multiset(NoGrease(g.ciphers)) == multiset(NoGrease(h.ciphers))
    && multiset(NoGrease(g.extensions)) == multiset(NoGrease(h.extensions))
    && (NoGrease(g.extensions) != [] ==> Signatures(g) == Signatures(h))
  }

  /** The hash separates the inputs at hand: it does not collide on them, nor with the placeholder. */
  ghost predicate Separates(sha: string -> string, x: string, y: string) {
    && |sha(x)| == |sha(y)| == HASH_LENGTH
    && (sha(x) == sha(y) ==> x == y) && sha(x) != NO_HASH && sha(y) != NO_HASH
  }

  lemma SortedHexContents(vs: seq<nat>, ws: seq<nat>)
    ensures SortedHex(vs) == SortedHex(ws) <==> multiset(NoGrease(vs)) == multiset(NoGrease(ws))
    ensures SortedHex(vs) == [] <==> NoGrease(vs) == []
  {
    SortByContents(Hex.All(NoGrease(vs)), Hex.All(NoGrease(ws)));
    Hex.AllContents(NoGrease(vs), NoGrease(ws));
    var sorted := SortedHex(vs);
    assert |sorted| == |multiset(sorted)| == |multiset(Hex.All(NoGrease(vs)))| == |NoGrease(vs)|;
  }

  lemma SameSize(vs: seq<nat>, ws: seq<nat>)
    requires multiset(vs) == multiset(ws)
    ensures |vs| == |ws|
  {
    assert |multiset(vs)| == |vs| && |multiset(ws)| == |ws|;
  }

  /** Main result, one half: alike hellos have the same fingerprint, whatever the hash. */
  lemma AlikeHelloSameJa4(g: Hello, h: Hello, sha: string -> string)
    requires Alike(g, h)
    ensures GenerateJa4(g, sha) == GenerateJa4(h, sha)
  {
    hide NoGrease, SortedHex, VersionCode, AlpnValue, TwoDigits, Capped;
    SortedHexContents(g.ciphers, h.ciphers);
    SortedHexContents(g.extensions, h.extensions);
    SameSize(NoGrease(g.ciphers), NoGrease(h.ciphers));
    SameSize(NoGrease(g.extensions), NoGrease(h.extensions));
  }

  /** Any order of ciphers and extensions gives the same fingerprint ... */
  lemma OrderIgnored(h: Hello, ciphers: seq<nat>, extensions: seq<nat>, sha: string -> string)
    requires multiset(ciphers) == multiset(h.ciphers) && multiset(extensions) == multiset(h.extensions)
    ensures GenerateJa4(h.(ciphers := ciphers, extensions := extensions), sha) == GenerateJa4(h, sha)
  {
    NoGreaseContents(ciphers, h.ciphers);
    NoGreaseContents(extensions, h.extensions);
    SameSize(NoGrease(extensions), NoGrease(h.extensions));
    AlikeHelloSameJa4(h.(ciphers := ciphers, extensions := extensions), h, sha);
  }

  /** ... and so does any sprinkling of GREASE values over both lists. */
  lemma GreaseIgnored(h: Hello, ciphers: seq<nat>, extensions: seq<nat>, sha: string -> string)
    requires NoGrease(ciphers) == NoGrease(h.ciphers) && NoGrease(extensions) == NoGrease(h.extensions)
    ensures GenerateJa4(h.(ciphers := ciphers, extensions := extensions), sha) == GenerateJa4(h, sha)
  {
    AlikeHelloSameJa4(h.(ciphers := ciphers, extensions := extensions), h, sha);
  }

  lemma GreaseInserted(vs: seq<nat>, i: nat, grease: nat)
    requires i <= |vs| && grease in GREASE
    ensures NoGrease(vs[..i] + [grease] + vs[i..]) == NoGrease(vs)
  {
    hide NoGrease;
    var a, b := vs[..i], vs[i..];
    NoGreaseConcat(a + [grease], b);
    NoGreaseConcat(a, [grease]);
    NoGreaseConcat(a, b);
    assert a + b == vs;
    NoGreaseAlone(grease);
    assert NoGrease(a) + [] == NoGrease(a);
  }

  lemma NoGreaseAlone(grease: nat)
    requires grease in GREASE
    ensures NoGrease([grease]) == []
  {
    assert [grease][1..] == [];
  }

  lemma {:induction false} NoGreaseConcat(vs: seq<nat>, ws: seq<nat>)
    ensures NoGrease(vs + ws) == NoGrease(vs) + NoGrease(ws)
  {
    if vs == [] {
      assert vs + ws == ws;
    } else {
      assert (vs + ws)[1..] == vs[1..] + ws;
      NoGreaseConcat(vs[1..], ws);
    }
  }

  lemma {:induction false} NoGreaseCount(vs: seq<nat>, v: nat)
    ensures multiset(NoGrease(vs))[v] == if v in GREASE then 0 else multiset(vs)[v]
  {
    if vs != [] {
      assert vs == [vs[0]] + vs[1..];
      NoGreaseCount(vs[1..], v);
    }
  }

  lemma NoGreaseContents(vs: seq<nat>, ws: seq<nat>)
    requires multiset(vs) == multiset(ws)
    ensures multiset(NoGrease(vs)) == multiset(NoGrease(ws))
  {
    forall v: nat
      ensures multiset(NoGrease(vs))[v] == multiset(NoGrease(ws))[v]
    {
      NoGreaseCount(vs, v);
      NoGreaseCount(ws, v);
    }
  }

  // ---------------------------------------------------------------- what it tells apart

  lemma CutAt(a: string, b: string, x: string, y: string)
    requires a + x == b + y && (|x| == |y| || |a| == |b|)
    ensures a == b && x == y
  {
    assert |a| == |b|;
    assert a == (a + x)[..|a|] && b == (b + y)[..|b|];
    assert x == (a + x)[|a|..] && y == (b + y)[|b|..];
  }

  lemma HashLengths(h: Hello, sha: string -> string)
    requires |sha(CipherString(h))| == |sha(ExtensionString(h))| == HASH_LENGTH
    ensures |CipherHash(h, sha)| == |ExtensionHash(h, sha)| == HASH_LENGTH
  {
  }

  lemma PartsOfJa4(g: Hello, h: Hello, sha: string -> string)
    requires |CipherHash(g, sha)| == |CipherHash(h, sha)| && |ExtensionHash(g, sha)| == |ExtensionHash(h, sha)|
    requires GenerateJa4(g, sha) == GenerateJa4(h, sha)
    ensures Prefix(g) == Prefix(h)
    ensures CipherHash(g, sha) == CipherHash(h, sha) && ExtensionHash(g, sha) == ExtensionHash(h, sha)
  {
    CutAt(Prefix(g) + "_" + CipherHash(g, sha) + "_", Prefix(h) + "_" + CipherHash(h, sha) + "_",
           ExtensionHash(g, sha), ExtensionHash(h, sha));
    CutAt(Prefix(g) + "_" + CipherHash(g, sha), Prefix(h) + "_" + CipherHash(h, sha), "_", "_");
    CutAt(Prefix(g) + "_", Prefix(h) + "_", CipherHash(g, sha), CipherHash(h, sha));
    CutAt(Prefix(g), Prefix(h), "_", "_");
  }

  lemma PartsOfPrefix(g: Hello, h: Hello)
    requires Prefix(g) == Prefix(h)
    ensures g.quic == h.quic && VersionCode(g.tlsVersion) == VersionCode(h.tlsVersion) && g.hasSni == h.hasSni
    ensures AlpnValue(g.alpn) == AlpnValue(h.alpn)
  {
    var p, q := Prefix(g), Prefix(h);
    assert p[0] == q[0] && p[1..3] == q[1..3] && p[3] == q[3] && p[8..] == q[8..];
    assert p[1..3] == VersionCode(g.tlsVersion) && q[1..3] == VersionCode(h.tlsVersion);
    assert p[8..] == AlpnValue(g.alpn) && q[8..] == AlpnValue(h.alpn);
  }

  /** Hexadecimal strings hold neither of the two separators. */
  lemma HexPlain(vs: seq<nat>)
    ensures forall s :: s in Hex.All(vs) ==> ',' !in s && '_' !in s
  {
    Hex.AllPlain(vs);
  }

  lemma SortedHexPlain(vs: seq<nat>)
    ensures forall s :: s in SortedHex(vs) ==> ',' !in s && '_' !in s
  {
    HexPlain(NoGrease(vs));
    assert forall s :: s in SortedHex(vs) ==> s in multiset(Hex.All(NoGrease(vs)));
  }

  lemma {:induction false} JoinPlain(ps: seq<string>)
    requires forall p :: p in ps ==> '_' !in p
    ensures '_' !in Join(',', ps)
  {
    if |ps| > 1 {
      JoinPlain(ps[1..]);
    }
  }

  lemma JoinInjective(ps: seq<string>, qs: seq<string>)
    requires ps != [] && qs != [] && Join(',', ps) == Join(',', qs)
    requires (forall p :: p in ps ==> ',' !in p) && (forall q :: q in qs ==> ',' !in q)
    ensures ps == qs
  {
    SplitJoin(',', ps);
    SplitJoin(',', qs);
  }

  lemma SplitAtFirst(a: string, b: string, x: string, y: string)
    requires '_' !in a && '_' !in b && a + x == b + y
    requires (x == "" || x[0] == '_') && (y == "" || y[0] == '_')
    ensures a == b && x == y
  {
    FirstUnderscoreAfter(a, x);
    FirstUnderscoreAfter(b, y);
    CutAt(a, b, x, y);
  }

  function FirstUnderscore(s: string): nat {
    if s == "" || s[0] == '_' then 0 else 1 + FirstUnderscore(s[1..])
  }

  lemma {:induction false} FirstUnderscoreAfter(a: string, x: string)
    requires '_' !in a && (x == "" || x[0] == '_')
    ensures FirstUnderscore(a + x) == |a|
  {
    if a == "" {
      assert a + x == x;
    } else {
      assert (a + x)[1..] == a[1..] + x;
      FirstUnderscoreAfter(a[1..], x);
    }
  }

  lemma ExtensionStringInjective(g: Hello, h: Hello)
    requires SortedHex(g.extensions) != [] && SortedHex(h.extensions) != []
    requires ExtensionString(g) == ExtensionString(h)
    ensures SortedHex(g.extensions) == SortedHex(h.extensions) && Signatures(g) == Signatures(h)
  {
    var a, b := Join(',', SortedHex(g.extensions)), Join(',', SortedHex(h.extensions));
    var s, t := Join(',', Hex.All(Signatures(g))), Join(',', Hex.All(Signatures(h)));
    SortedHexPlain(g.extensions);
    SortedHexPlain(h.extensions);
    JoinPlain(SortedHex(g.extensions));
    JoinPlain(SortedHex(h.extensions));
    SplitAtFirst(a, b, if Signatures(g) == [] then "" else "_" + s, if Signatures(h) == [] then "" else "_" + t);
    JoinInjective(SortedHex(g.extensions), SortedHex(h.extensions));
    if Signatures(g) != [] {
      CutAt("_", "_", s, t);
      HexPlain(Signatures(g));
      HexPlain(Signatures(h));
      JoinInjective(Hex.All(Signatures(g)), Hex.All(Signatures(h)));
      Hex.AllInjective(Signatures(g), Signatures(h));
    }
  }

  /** Main result: as long as the hash separates the strings it is given, two hellos have the same
      fingerprint exactly when they are alike. */
  lemma SameJa4ExactlyWhenAlike(g: Hello, h: Hello, sha: string -> string)
    requires Separates(sha, CipherString(g), CipherString(h))
    requires Separates(sha, ExtensionString(g), ExtensionString(h))
    ensures GenerateJa4(g, sha) == GenerateJa4(h, sha) <==> Alike(g, h)
  {
    if Alike(g, h) {
      AlikeHelloSameJa4(g, h, sha);
    }
    if GenerateJa4(g, sha) == GenerateJa4(h, sha) {
      HashLengths(g, sha);
      HashLengths(h, sha);
      PartsOfJa4(g, h, sha);
      PartsOfPrefix(g, h);
      SameHashes(g, h, sha);
    }
  }

  lemma SameHashes(g: Hello, h: Hello, sha: string -> string)
    requires Separates(sha, CipherString(g), CipherString(h))
    requires Separates(sha, ExtensionString(g), ExtensionString(h))
    requires CipherHash(g, sha) == CipherHash(h, sha) && ExtensionHash(g, sha) == ExtensionHash(h, sha)
    ensures multiset(NoGrease(g.ciphers)) == multiset(NoGrease(h.ciphers))
    ensures multiset(NoGrease(g.extensions)) == multiset(NoGrease(h.extensions))
    ensures NoGrease(g.extensions) != [] ==> Signatures(g) == Signatures(h)
  {
    SortedHexContents(g.ciphers, h.ciphers);
    SortedHexContents(h.ciphers, g.ciphers);
    SortedHexContents(g.extensions, h.extensions);
    SortedHexContents(h.extensions, g.extensions);
    if SortedHex(g.ciphers) != [] {
      SortedHexPlain(g.ciphers);
      SortedHexPlain(h.ciphers);
      JoinInjective(SortedHex(g.ciphers), SortedHex(h.ciphers));
    }
    if SortedHex(g.extensions) != [] {
      ExtensionStringInjective(g, h);
    }
  }
}
