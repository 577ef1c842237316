/** Hexadecimal numerals of four digits or more, as Python's `f"{n:04x}"` prints them:
    distinct numbers have distinct numerals. */
module Hex {

  const DIGITS := "0123456789abcdef"

  function Digits(n: nat): (s: string)
    ensures s != ""
  {
    if n < 16 then [DIGITS[n]] else Digits(n / 16) + [DIGITS[n % 16]]
  }

  function Padded(s: string, width: nat): string
    decreases width - |s|
  {
    if |s| < width then Padded("0" + s, width) else s
  }

  function Hex4(n: nat): string {
    Padded(Digits(n), 4)
  }

  function DigitValue(c: char): nat {
    if '0' <= c <= '9' then (c - '0') as nat else if 'a' <= c <= 'f' then (c - 'a') as nat + 10 else 0
  }

  function Value(s: string): nat {
    if s == "" then 0 else 16 * Value(s[..|s| - 1]) + DigitValue(s[|s| - 1])
  }

  lemma {:induction false} ValueOfDigits(n: nat)
    ensures Value(Digits(n)) == n
  {
    DigitOfValue(n % 16);
    if n >= 16 {
      ValueOfDigits(n / 16);
      assert Digits(n)[..|Digits(n)| - 1] == Digits(n / 16);
    }
  }

  lemma DigitOfValue(d: nat)
    requires d < 16
    ensures DigitValue(DIGITS[d]) == d && Value([DIGITS[d]]) == d
  {
    assert [DIGITS[d]][..0] == "";
  }

  lemma {:induction false} LeadingZero(s: string)
    ensures Value("0" + s) == Value(s)
  {
    if s != "" {
      LeadingZero(s[..|s| - 1]);
      assert ("0" + s)[..|s|] == "0" + s[..|s| - 1];
    }
  }

  lemma {:induction false} ValueOfPadded(s: string, width: nat)
    ensures Value(Padded(s, width)) == Value(s)
    decreases width - |s|
  {
    if |s| < width {
      ValueOfPadded("0" + s, width);
      LeadingZero(s);
    }
  }

  lemma Hex4Value(n: nat)
    ensures Value(Hex4(n)) == n
  {
    ValueOfDigits(n);
    ValueOfPadded(Digits(n), 4);
  }

  lemma {:induction false} DigitsPlain(n: nat)
    ensures forall c :: c in Digits(n) ==> c in DIGITS
  {
    if n >= 16 {
      DigitsPlain(n / 16);
    }
  }

  lemma {:induction false} PaddedPlain(s: string, width: nat)
    requires forall c :: c in s ==> c in DIGITS
    ensures forall c :: c in Padded(s, width) ==> c in DIGITS
    decreases width - |s|
  {
    if |s| < width {
      PaddedPlain("0" + s, width);
    }
  }

  lemma Hex4Plain(n: nat)
    ensures forall c :: c in Hex4(n) ==> c in DIGITS
  {
    DigitsPlain(n);
    PaddedPlain(Digits(n), 4);
  }

  function All(ns: seq<nat>): (r: seq<string>)
    ensures |r| == |ns|
  {
    if ns == [] then [] else [Hex4(ns[0])] + All(ns[1..])
  }

  lemma {:induction false} AllPlain(ns: seq<nat>)
    ensures forall s, c :: s in All(ns) && c in s ==> c in DIGITS
  {
    if ns != [] {
      AllPlain(ns[1..]);
      Hex4Plain(ns[0]);
    }
  }

  lemma {:induction false} AllCount(ns: seq<nat>, s: string)
    ensures multiset(All(ns))[s] == if s == Hex4(Value(s)) then multiset(ns)[Value(s)] else 0
  {
    if ns != [] {
      AllCount(ns[1..], s);
      assert ns == [ns[0]] + ns[1..];
      Hex4Value(ns[0]);
    }
  }

  lemma AllContents(ns: seq<nat>, ms: seq<nat>)
    ensures multiset(All(ns)) == multiset(All(ms)) <==> multiset(ns) == multiset(ms)
  {
    if multiset(ns) == multiset(ms) {
      forall s: string
        ensures multiset(All(ns))[s] == multiset(All(ms))[s]
      {
        AllCount(ns, s);
        AllCount(ms, s);
      }
    }
    if multiset(All(ns)) == multiset(All(ms)) {
      forall n: nat
        ensures multiset(ns)[n] == multiset(ms)[n]
      {
        Hex4Value(n);
        AllCount(ns, Hex4(n));
        AllCount(ms, Hex4(n));
      }
    }
  }

  lemma {:induction false} AllInjective(ns: seq<nat>, ms: seq<nat>)
    requires All(ns) == All(ms)
    ensures ns == ms
  {
    if ns != [] && ms != [] {
      Hex4Value(ns[0]);
      Hex4Value(ms[0]);
      assert All(ns)[1..] == All(ns[1..]) && All(ms)[1..] == All(ms[1..]);
      AllInjective(ns[1..], ms[1..]);
      assert ns == [ns[0]] + ns[1..] && ms == [ms[0]] + ms[1..];
    }
  }
}
