/** `split` and `join` on a one-character separator, inverse to each other on parts that do not
    hold it. */
module Strings {

  function Split(sep: char, s: string): (ps: seq<string>)
    ensures ps != []
  {
    if s == "" then [""]
    else
      var rest := Split(sep, s[1..]);
      if s[0] == sep then [""] + rest else [[s[0]] + rest[0]] + rest[1..]
  }

  function Join(sep: char, ps: seq<string>): string {
    if ps == [] then "" else if |ps| == 1 then ps[0] else ps[0] + [sep] + Join(sep, ps[1..])
  }

  lemma {:induction false} SplitHasNoSep(sep: char, s: string)
    ensures forall p :: p in Split(sep, s) ==> sep !in p
  {
    if s != "" {
      SplitHasNoSep(sep, s[1..]);
      var rest := Split(sep, s[1..]);
      assert sep !in rest[0];
      forall p | p in Split(sep, s)
        ensures sep !in p
      {
        if p != [s[0]] + rest[0] && p != "" {
          assert p in rest;
        }
      }
    }
  }

  lemma {:induction false} SplitConcat(sep: char, a: string, b: string)
    ensures Split(sep, a + [sep] + b) == Split(sep, a) + Split(sep, b)
  {
    if a == "" {
      assert (a + [sep] + b)[1..] == b;
    } else {
      assert (a + [sep] + b)[1..] == a[1..] + [sep] + b;
      SplitConcat(sep, a[1..], b);
    }
  }

  lemma {:induction false} SplitWhole(sep: char, p: string)
    requires sep !in p
    ensures Split(sep, p) == [p]
  {
    if p != "" {
      SplitWhole(sep, p[1..]);
      assert [p[0]] + p[1..] == p;
    }
  }

  lemma {:induction false} SplitJoin(sep: char, ps: seq<string>)
    requires ps != [] && forall p :: p in ps ==> sep !in p
    ensures Split(sep, Join(sep, ps)) == ps
  {
    SplitWhole(sep, ps[0]);
    if |ps| > 1 {
      SplitJoin(sep, ps[1..]);
      SplitConcat(sep, ps[0], Join(sep, ps[1..]));
      assert [ps[0]] + ps[1..] == ps;
    }
  }
}
