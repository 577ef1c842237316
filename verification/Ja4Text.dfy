/** The text of a JA4 fingerprint, read character by character. */
module Ja4Text {
  import opened Sequences
  import opened Strings
  import opened Sorting
  import opened Decimal
  import Hex
  import opened Ja4

  /** RFC 8701, section 2: two equal bytes with low digit A. */
  predicate IsGrease(v: nat) {
    v < 0x10000 && v / 256 == v % 256 && v % 16 == 10
  }

  lemma GreaseValues(v: nat)
    ensures v in GREASE <==> IsGrease(v)
  {
    if IsGrease(v) {
      var high := v / 256 / 16;
      assert v == 257 * (16 * high + 10);
    }
  }

  // ---------------------------------------------------------------- ascending hexadecimal lists

  function HexDigit(d: nat): char
    requires d < 16
  {
    "0123456789abcdef"[d]
  }

  /** Four hexadecimal digits. */
  function Numeral(n: nat): string
    requires n < 0x10000
  {
    [HexDigit(n / 4096), HexDigit(n / 256 % 16), HexDigit(n / 16 % 16), HexDigit(n % 16)]
  }

  predicate Small(ns: seq<nat>) {
    forall i :: 0 <= i < |ns| ==> ns[i] < 0x10000
  }

  function Numerals(ns: seq<nat>): seq<string>
    requires Small(ns)
  {
    seq(|ns|, i requires 0 <= i < |ns| => Numeral(ns[i]))
  }

  predicate Ascending(ns: seq<nat>) {
    forall i, j :: 0 <= i < j < |ns| ==> ns[i] <= ns[j]
  }

  lemma DigitsStep(n: nat)
    ensures n < 16 ==> Hex.Digits(n) == [HexDigit(n)]
    ensures n >= 16 ==> Hex.Digits(n) == Hex.Digits(n / 16) + [HexDigit(n % 16)]
  {
  }

  lemma PaddedStep(s: string)
    ensures |s| == 4 ==> Hex.Padded(s, 4) == s
    ensures |s| == 3 ==> Hex.Padded(s, 4) == "0" + s
    ensures |s| == 2 ==> Hex.Padded(s, 4) == "00" + s
    ensures |s| == 1 ==> Hex.Padded(s, 4) == "000" + s
    decreases 4 - |s|
  {
    if |s| < 4 {
      PaddedStep("0" + s);
    }
  }

  lemma Hex4Text(n: nat)
    requires n < 0x10000
    ensures Hex.Hex4(n) == Numeral(n)
  {
    var k, m := n / 16, n / 256;
    assert k / 16 == m && m / 16 == n / 4096;
    DigitsStep(n);
    DigitsStep(k);
    DigitsStep(m);
    DigitsStep(n / 4096);
    assert HexDigit(0) == '0';
    hide Hex.Digits, Hex.Padded, HexDigit;
    var s := Hex.Digits(n);
    PaddedStep(s);
    if n >= 4096 {
      assert s == [HexDigit(n / 4096), HexDigit(m % 16), HexDigit(k % 16), HexDigit(n % 16)];
    } else if n >= 256 {
      assert s == [HexDigit(m), HexDigit(k % 16), HexDigit(n % 16)] && n / 4096 == 0 && m % 16 == m;
    } else if n >= 16 {
      assert s == [HexDigit(k), HexDigit(n % 16)] && n / 4096 == 0 && m == 0 && k % 16 == k;
    } else {
      assert s == [HexDigit(n)] && n / 4096 == 0 && m == 0 && k == 0 && n % 16 == n;
    }
  }

  lemma {:induction false} AllText(ns: seq<nat>)
    requires Small(ns)
    ensures Hex.All(ns) == Numerals(ns)
  {
    if ns != [] {
      AllText(ns[1..]);
      Hex4Text(ns[0]);
    }
  }

  lemma HexDigitOrder(d: nat, e: nat)
    requires d < 16 && e < 16
    ensures d < e ==> HexDigit(d) < HexDigit(e)
  {
  }

  lemma LexStep(a: char, b: char, x: string, y: string)
    ensures LexLe([a] + x, [b] + y) <==> a < b || (a == b && LexLe(x, y))
  {
    assert ([a] + x)[1..] == x && ([b] + y)[1..] == y;
  }

  /** On numerals of the same length the order of texts is the order of numbers. */
  lemma NumeralOrder(m: nat, n: nat)
    requires m <= n < 0x10000
    ensures LexLe(Numeral(m), Numeral(n))
  {
    var a, b, c, d := HexDigit(m / 4096), HexDigit(m / 256 % 16), HexDigit(m / 16 % 16), HexDigit(m % 16);
    var a', b', c', d' := HexDigit(n / 4096), HexDigit(n / 256 % 16), HexDigit(n / 16 % 16), HexDigit(n % 16);
    HexDigitOrder(m / 4096, n / 4096);
    HexDigitOrder(m / 256 % 16, n / 256 % 16);
    HexDigitOrder(m / 16 % 16, n / 16 % 16);
    HexDigitOrder(m % 16, n % 16);
    assert Numeral(m) == [a] + ([b] + ([c] + ([d] + ""))) && Numeral(n) == [a'] + ([b'] + ([c'] + ([d'] + "")));
    hide HexDigit, LexLe;
    LexStep(a, a', [b] + ([c] + ([d] + "")), [b'] + ([c'] + ([d'] + "")));
    LexStep(b, b', [c] + ([d] + ""), [c'] + ([d'] + ""));
    LexStep(c, c', [d] + "", [d'] + "");
    LexStep(d, d', "", "");
    assert LexLe("", "") by { LexTotal("", ""); }
    DigitsOrder(m, n);
  }

  lemma DigitsOrder(m: nat, n: nat)
    requires m <= n < 0x10000
    ensures m / 4096 <= n / 4096
    ensures m / 4096 == n / 4096 ==> m / 256 % 16 <= n / 256 % 16
    ensures m / 4096 == n / 4096 && m / 256 % 16 == n / 256 % 16 ==> m / 16 % 16 <= n / 16 % 16
    ensures m / 4096 == n / 4096 && m / 256 % 16 == n / 256 % 16 && m / 16 % 16 == n / 16 % 16 ==> m % 16 <= n % 16
  {
  }

  lemma {:induction false} NumeralsSorted(ns: seq<nat>)
    requires Small(ns) && Ascending(ns)
    ensures Sorted(Numerals(ns))
  {
    if |ns| > 1 {
      NumeralOrder(ns[0], ns[1]);
      NumeralsSorted(ns[1..]);
      assert Numerals(ns)[1..] == Numerals(ns[1..]);
    }
  }

  /** `ns` are the values of `vs` outside GREASE, in ascending order. */
  ghost predicate Ascends(ns: seq<nat>, vs: seq<nat>) {
    && Ascending(ns) && Small(vs)
    && forall v: nat :: multiset(ns)[v] == if IsGrease(v) then 0 else multiset(vs)[v]
  }

  lemma AscendsMeans(ns: seq<nat>, vs: seq<nat>)
    requires Ascends(ns, vs)
    ensures multiset(ns) == multiset(NoGrease(vs)) && Small(ns)
  {
    forall v: nat
      ensures multiset(ns)[v] == multiset(NoGrease(vs))[v] && multiset(ns)[v] <= multiset(vs)[v]
    {
      AscendsCount(ns, vs, v);
    }
    hide Ascends, NoGrease;
    forall i | 0 <= i < |ns|
      ensures ns[i] < 0x10000
    {
      assert ns[i] in multiset(ns) && ns[i] in multiset(vs);
      assert Small(vs) by { AscendsSmall(ns, vs); }
    }
  }

  lemma AscendsSmall(ns: seq<nat>, vs: seq<nat>)
    requires Ascends(ns, vs)
    ensures Small(vs)
  {
  }

  lemma AscendsCount(ns: seq<nat>, vs: seq<nat>, v: nat)
    requires Ascends(ns, vs)
    ensures multiset(ns)[v] == multiset(NoGrease(vs))[v] && multiset(ns)[v] <= multiset(vs)[v]
  {
    assert multiset(ns)[v] == if IsGrease(v) then 0 else multiset(vs)[v];
    hide Ascends, NoGrease, IsGrease;
    GreaseValues(v);
    NoGreaseCount(vs, v);
  }

  lemma SortedHexText(ns: seq<nat>, vs: seq<nat>)
    requires Ascends(ns, vs)
    ensures Small(ns)
    ensures SortedHex(vs) == Numerals(ns) && |NoGrease(vs)| == |ns|
  {
    AscendsMeans(ns, vs);
    hide Ascends;
    assert Ascending(ns) by { AscendsAscending(ns, vs); }
    AllText(ns);
    NumeralsSorted(ns);
    Hex.AllContents(ns, NoGrease(vs));
    SortSorts(Hex.All(NoGrease(vs)));
    SortedUnique(Numerals(ns), SortedHex(vs));
    SameSize(ns, NoGrease(vs));
  }

  lemma AscendsAscending(ns: seq<nat>, vs: seq<nat>)
    requires Ascends(ns, vs)
    ensures Ascending(ns)
  {
  }

  // ---------------------------------------------------------------- reading the text

  predicate ReadsVersion(text: string, v: nat) {
    && (text == "s2" <==> v == 0x0002) && (text == "s3" <==> v == 0x0300)
    && (text == "10" <==> v == 0x0301) && (text == "11" <==> v == 0x0302)
    && (text == "12" <==> v == 0x0303) && (text == "13" <==> v == 0x0304)
    && (text == "00" <==> v !in {0x0002, 0x0300, 0x0301, 0x0302, 0x0303, 0x0304})
  }

  /** A decimal count of two digits, at most 99. */
  predicate ReadsCount(text: string, n: nat) {
    |text| == 2 && AllDigits(text) && FromDecimal(text) == if n < 99 then n else 99
  }

  predicate ReadsAlpn(text: string, alpn: Option<string>) {
    if alpn.None? || alpn.value == "" then text == "00"
    else if |alpn.value| == 1 then text == alpn.value
    else |text| == 2 && text[0] == alpn.value[0] && text[1] == alpn.value[|alpn.value| - 1]
  }

  lemma VersionText(v: nat)
    ensures ReadsVersion(VersionCode(v), v)
  {
  }

  lemma CountText(n: nat)
    ensures ReadsCount(TwoDigits(Capped(n)), n)
  {
    var k := Capped(n);
    var s := TwoDigits(k);
    assert s[..1] == [s[0]] && s[..1][..0] == "";
    assert (s[0] - '0') as nat == k / 10 && (s[1] - '0') as nat == k % 10;
    assert FromDecimal(s[..1]) == k / 10;
  }

  /** What the fingerprint of a hello says, given its values outside GREASE in ascending order. */
  predicate Reads(text: string, h: Hello, ciphers: seq<nat>, extensions: seq<nat>, first: string, second: string,
                  alpn: string)
  {
    && text == text[..Min8(text)] + alpn + "_" + first + "_" + second && |text| >= 8
    && text[0] in "qt" && (text[0] == 'q' <==> h.quic)
    && ReadsVersion(text[1..3], h.tlsVersion)
    && text[3] in "di" && (text[3] == 'd' <==> h.hasSni)
    && ReadsCount(text[4..6], |ciphers|) && ReadsCount(text[6..8], |extensions|)
    && ReadsAlpn(alpn, h.alpn)
  }

  function Min8(text: string): nat {
    if |text| < 8 then |text| else 8
  }

  function CipherText(ciphers: seq<nat>, sha: string -> string): string
    requires Small(ciphers)
  {
    if ciphers == [] then "000000000000" else sha(Join(',', Numerals(ciphers)))
  }

  /** The signature algorithms follow in the order of the hello. */
  function ExtensionText(extensions: seq<nat>, algorithms: seq<nat>, sha: string -> string): string
    requires Small(extensions) && Small(algorithms)
  {
    if extensions == [] then "000000000000"
    else if algorithms == [] then sha(Join(',', Numerals(extensions)))
    else sha(Join(',', Numerals(extensions)) + "_" + Join(',', Numerals(algorithms)))
  }

  /** Main result: what one fingerprint says. */
  lemma Ja4Reads(h: Hello, sha: string -> string, ciphers: seq<nat>, extensions: seq<nat>)
    requires Ascends(ciphers, h.ciphers) && Ascends(extensions, h.extensions)
    requires Small(Signatures(h))
    ensures Small(ciphers) && Small(extensions)
    ensures Reads(GenerateJa4(h, sha), h, ciphers, extensions, CipherText(ciphers, sha),
                  ExtensionText(extensions, Signatures(h), sha), AlpnValue(h.alpn))
  {
    hide NoGrease, SortedHex, Ascends;
    SortedHexText(ciphers, h.ciphers);
    SortedHexText(extensions, h.extensions);
    AllText(Signatures(h));
    assert CipherHash(h, sha) == CipherText(ciphers, sha);
    ExtensionReads(h, sha, extensions);
    hide CipherHash, ExtensionHash, CipherText, ExtensionText;
    PrefixReads(h);
    CountText(|ciphers|);
    CountText(|extensions|);
    VersionText(h.tlsVersion);
    hide ReadsCount, ReadsVersion, VersionCode, TwoDigits, Capped, AlpnValue, Signatures;
    Assemble(Prefix(h), CipherText(ciphers, sha), ExtensionText(extensions, Signatures(h), sha), AlpnValue(h.alpn));
  }

  lemma ExtensionReads(h: Hello, sha: string -> string, extensions: seq<nat>)
    requires Small(extensions) && Small(Signatures(h)) && SortedHex(h.extensions) == Numerals(extensions)
    requires Hex.All(Signatures(h)) == Numerals(Signatures(h))
    ensures ExtensionHash(h, sha) == ExtensionText(extensions, Signatures(h), sha)
  {
    hide SortedHex, Signatures, Join;
    var a, b := Join(',', Numerals(extensions)), Join(',', Numerals(Signatures(h)));
    assert a + "" == a && a + ("_" + b) == a + "_" + b;
  }

  lemma PrefixReads(h: Hello)
    ensures var p := Prefix(h);
            && |p| >= 8 && p == p[..8] + AlpnValue(h.alpn)
            && p[0] == (if h.quic then 'q' else 't') && p[1..3] == VersionCode(h.tlsVersion)
            && p[3] == (if h.hasSni then 'd' else 'i')
            && p[4..6] == TwoDigits(Capped(|NoGrease(h.ciphers)|))
            && p[6..8] == TwoDigits(Capped(|NoGrease(h.extensions)|))
            && ReadsAlpn(AlpnValue(h.alpn), h.alpn)
  {
    hide NoGrease;
  }

  lemma Assemble(prefix: string, first: string, second: string, alpn: string)
    requires |prefix| >= 8 && prefix == prefix[..8] + alpn
    ensures var text := prefix + "_" + first + "_" + second;
            && |text| >= 8 && text[..8] == prefix[..8]
            && text == text[..8] + alpn + "_" + first + "_" + second
            && text[0] == prefix[0] && text[3] == prefix[3]
            && text[1..3] == prefix[1..3] && text[4..6] == prefix[4..6] && text[6..8] == prefix[6..8]
  {
  }
}
