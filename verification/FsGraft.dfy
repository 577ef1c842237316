/** Changing the list of one directory changes one subtree, and no other path shows anything
    else than before. */
module FsGraft {
  import opened Sequences
  import opened FsTree
  import opened Filesystem

  // ---------------------------------------------------------------- one list

  function Listed(entries: seq<Entry>, name: string): Option<Entry> {
    var k := Named(entries, name);
    if k.None? then None else Some(entries[k.value])
  }

  lemma {:induction false} ListedAppend(entries: seq<Entry>, x: Entry, name: string)
    ensures Listed(entries + [x], name)
            == if Listed(entries, name).None? && x.name == name then Some(x) else Listed(entries, name)
  {
    if entries == [] {
      assert entries + [x] == [x];
    } else {
      assert (entries + [x])[1..] == entries[1..] + [x];
      ListedAppend(entries[1..], x, name);
    }
  }

  lemma WithoutAt(entries: seq<Entry>, k: nat)
    requires k < |entries|
    ensures |Without(entries, k)| == |entries| - 1
    ensures forall j :: 0 <= j < |entries| - 1 ==> Without(entries, k)[j] == entries[if j < k then j else j + 1]
  {
  }

  lemma WithoutDistinct(entries: seq<Entry>, k: nat)
    requires k < |entries| && Distinct(entries)
    ensures Distinct(Without(entries, k))
  {
    hide Without;
    WithoutAt(entries, k);
  }

  lemma ListedWithout(entries: seq<Entry>, k: nat, name: string)
    requires k < |entries| && Distinct(entries)
    ensures Distinct(Without(entries, k))
    ensures Listed(Without(entries, k), name) == if name == entries[k].name then None else Listed(entries, name)
  {
    hide Without, Named;
    var rest := Without(entries, k);
    WithoutAt(entries, k);
    WithoutDistinct(entries, k);
    if name != entries[k].name && Named(entries, name).Some? {
      var j := Named(entries, name).value;
      NamedOnly(rest, if j < k then j else j - 1);
    } else {
      NamedNone(entries, name);
      NamedNone(rest, name);
    }
  }

  lemma ListedDropping(entries: seq<Entry>, dropped: string, name: string)
    requires Distinct(entries)
    ensures Distinct(Dropping(entries, dropped)) && Named(Dropping(entries, dropped), dropped).None?
    ensures Listed(Dropping(entries, dropped), name) == if name == dropped then None else Listed(entries, name)
  {
    var k := Named(entries, dropped);
    if k.Some? {
      ListedWithout(entries, k.value, name);
      ListedWithout(entries, k.value, dropped);
    }
  }

  lemma ListedUpdate(entries: seq<Entry>, k: nat, x: Entry, name: string)
    requires k < |entries| && Distinct(entries) && x.name == entries[k].name
    ensures Distinct(entries[k := x])
    ensures Named(entries[k := x], name) == Named(entries, name)
    ensures Listed(entries[k := x], name) == if name == x.name then Some(x) else Listed(entries, name)
  {
    var entries' := entries[k := x];
    assert forall j :: 0 <= j < |entries| ==> entries'[j].name == entries[j].name;
    NamedNone(entries, name);
    NamedNone(entries', name);
    if Named(entries, name).Some? {
      NamedOnly(entries', Named(entries, name).value);
    }
  }

  /** A list stays distinct under an append exactly when the name is new. */
  lemma AppendDistinct(entries: seq<Entry>, x: Entry)
    requires Distinct(entries)
    ensures Distinct(entries + [x]) <==> Named(entries, x.name).None?
  {
    NamedNone(entries, x.name);
    var longer := entries + [x];
    assert forall j :: 0 <= j < |entries| ==> longer[j] == entries[j];
    if Named(entries, x.name).Some? {
      assert longer[Named(entries, x.name).value].name == longer[|entries|].name;
    }
  }

  lemma IndexOfSelf(entries: seq<Entry>, k: nat)
    requires k < |entries| && Distinct(entries)
    ensures IndexOf(entries, entries[k]) == Some(k)
  {
    IndexOfFirst(entries, k);
  }

  lemma {:induction false} IndexOfFirst(entries: seq<Entry>, k: nat)
    requires k < |entries| && forall j :: 0 <= j < k ==> entries[j] != entries[k]
    ensures IndexOf(entries, entries[k]) == Some(k)
  {
    if k > 0 {
      assert entries[0] != entries[k];
      IndexOfFirst(entries[1..], k - 1);
    }
  }

  // ---------------------------------------------------------------- one subtree

  /** All of an entry but the list it holds. */
  function Attributes(e: Entry): Entry {
    if e.contents.Children? then e.(contents := Children([])) else e
  }

  /** What the path along `q` shows once the place along `names` holds `x`: `x` and what is in it; on
      the way there the same directories; elsewhere what was there before. */
  predicate GraftedAt(t: Entry, t': Entry, names: seq<string>, x: Option<Entry>, q: seq<string>) {
    if names <= q then Lookup(t', q) == (if x.None? then None else Lookup(x.value, q[|names|..]))
    else if q <= names then
      Lookup(t, q).Some? && Lookup(t', q).Some? && Attributes(Lookup(t', q).value) == Attributes(Lookup(t, q).value)
    else Lookup(t', q) == Lookup(t, q)
  }

  ghost predicate Grafted(t: Entry, t': Entry, names: seq<string>, x: Option<Entry>) {
    forall q :: GraftedAt(t, t', names, x, q)
  }

  /** The list `kids'` differs from `kids` in the name `n` only, which now shows `x`. */
  ghost predicate OnlyAt(kids: seq<Entry>, kids': seq<Entry>, n: string, x: Option<Entry>) {
    forall m :: Listed(kids', m) == if m == n then x else Listed(kids, m)
  }

  lemma LookupHead(e: Entry, m: string, rest: seq<string>)
    ensures Lookup(e, [m] + rest) == if Listed(Kids(e), m).None? then None else Lookup(Listed(Kids(e), m).value, rest)
  {
    LocateHead(e, [m] + rest);
    assert ([m] + rest)[1..] == rest;
  }

  lemma LookupNothing(e: Entry)
    ensures Lookup(e, []) == Some(e)
  {
  }

  lemma {:induction false} GraftPoint(t: Entry, dir: seq<string>, at: Position, kids: seq<Entry>, n: string,
        x: Option<Entry>, q: seq<string>)
    requires Locate(t, dir) == Some(at) && At(t, at).contents.Children? && OnlyAt(Kids(At(t, at)), kids, n, x)
    ensures GraftedAt(t, WithKids(t, at, kids), dir + [n], x, q)
    decreases |dir|
  {
    hide Lookup, Locate;
    var t' := WithKids(t, at, kids);
    if q == [] {
      LookupNothing(t);
      LookupNothing(t');
      PutRoot(t, at, kids);
    } else {
      var m, rest := q[0], q[1..];
      assert q == [m] + rest;
      LookupHead(t, m, rest);
      LookupHead(t', m, rest);
      if dir == [] {
        GraftHere(t, at, kids, n, x, m, rest);
      } else {
        GraftBelow(t, dir, at, kids, n);
        var k := Named(Kids(t), dir[0]).value;
        GraftPoint(Kids(t)[k], dir[1..], at[1..], kids, n, x, rest);
        GraftPrefix(dir, n, m, rest);
        GraftBeside(t, dir, at, kids, m);
      }
    }
  }

  lemma PutRoot(t: Entry, at: Position, kids: seq<Entry>)
    requires Has(t, at) && At(t, at).contents.Children?
    ensures Attributes(WithKids(t, at, kids)) == Attributes(t)
  {
  }

  lemma GraftHere(t: Entry, at: Position, kids: seq<Entry>, n: string, x: Option<Entry>, m: string, rest: seq<string>)
    requires Locate(t, []) == Some(at) && OnlyAt(Kids(At(t, at)), kids, n, x)
    requires Lookup(t, [m] + rest) == if Listed(Kids(t), m).None? then None else Lookup(Listed(Kids(t), m).value, rest)
    requires var t' := WithKids(t, at, kids);
             Lookup(t', [m] + rest)
             == if Listed(Kids(t'), m).None? then None else Lookup(Listed(Kids(t'), m).value, rest)
    ensures GraftedAt(t, WithKids(t, at, kids), [] + [n], x, [m] + rest)
  {
    assert at == [] && Kids(WithKids(t, at, kids)) == kids;
    assert [] + [n] == [n];
    hide Lookup;
    if m == n {
      assert [n] <= [m] + rest && ([m] + rest)[1..] == rest;
    } else {
      assert !([n] <= [m] + rest) && !([m] + rest <= [n]);
    }
  }

  lemma GraftBelow(t: Entry, dir: seq<string>, at: Position, kids: seq<Entry>, n: string)
    requires dir != [] && Locate(t, dir) == Some(at)
    ensures at != [] && Named(Kids(t), dir[0]) == Some(at[0]) && Locate(Kids(t)[at[0]], dir[1..]) == Some(at[1..])
    ensures Has(Kids(t)[at[0]], at[1..]) && At(t, at) == At(Kids(t)[at[0]], at[1..])
    ensures var t', kid' := WithKids(t, at, kids), WithKids(Kids(t)[at[0]], at[1..], kids);
            Kids(t') == Kids(t)[at[0] := kid'] && kid'.name == dir[0]
  {
    LocateHead(t, dir);
    PutName(Kids(t)[at[0]], at[1..], At(t, at).(contents := Children(kids)));
  }

  lemma GraftPrefix(dir: seq<string>, n: string, m: string, rest: seq<string>)
    requires dir != []
    ensures (dir + [n] <= [m] + rest) == (m == dir[0] && dir[1..] + [n] <= rest)
    ensures ([m] + rest <= dir + [n]) == (m == dir[0] && rest <= dir[1..] + [n])
    ensures dir + [n] <= [m] + rest ==> ([m] + rest)[|dir + [n]|..] == rest[|dir[1..] + [n]|..]
  {
    assert dir + [n] == [dir[0]] + (dir[1..] + [n]);
    ConsPrefix(dir[0], dir[1..] + [n], m, rest);
    ConsPrefix(m, rest, dir[0], dir[1..] + [n]);
  }

  lemma ConsPrefix(a: string, xs: seq<string>, b: string, ys: seq<string>)
    ensures ([a] + xs <= [b] + ys) == (a == b && xs <= ys)
    ensures [a] + xs <= [b] + ys ==> ([b] + ys)[|[a] + xs|..] == ys[|xs|..]
  {
    if [a] + xs <= [b] + ys {
      assert ([a] + xs)[0] == ([b] + ys)[0];
      assert xs == ([a] + xs)[1..] == ([b] + ys)[1..|xs| + 1] == ys[..|xs|];
    }
    if a == b && xs <= ys {
      assert [b] + ys == [a] + xs + ys[|xs|..];
    }
  }

  lemma GraftBeside(t: Entry, dir: seq<string>, at: Position, kids: seq<Entry>, m: string)
    requires dir != [] && Locate(t, dir) == Some(at)
    ensures at != [] && at[0] < |Kids(t)| && Has(Kids(t)[at[0]], at[1..])
    ensures Listed(Kids(WithKids(t, at, kids)), m)
            == if m == dir[0] then Some(WithKids(Kids(t)[at[0]], at[1..], kids)) else Listed(Kids(t), m)
    ensures Listed(Kids(t), dir[0]) == Some(Kids(t)[at[0]])
  {
    GraftBelow(t, dir, at, kids, m);
    NamedUpdate(Kids(t), at[0], WithKids(Kids(t)[at[0]], at[1..], kids), m);
  }

  lemma {:induction false} NamedUpdate(entries: seq<Entry>, k: nat, x: Entry, name: string)
    requires k < |entries| && x.name == entries[k].name
    ensures Named(entries[k := x], name) == Named(entries, name)
  {
    if k > 0 {
      assert entries[k := x][1..] == entries[1..][k - 1 := x];
      NamedUpdate(entries[1..], k - 1, x, name);
    } else {
      assert entries[k := x][1..] == entries[1..];
    }
  }

  /** Main result of this module: a changed list is a graft. */
  lemma KidsGraft(t: Entry, dir: seq<string>, at: Position, kids: seq<Entry>, n: string, x: Option<Entry>)
    requires Locate(t, dir) == Some(at) && At(t, at).contents.Children? && OnlyAt(Kids(At(t, at)), kids, n, x)
    ensures Grafted(t, WithKids(t, at, kids), dir + [n], x)
  {
    hide OnlyAt;
    forall q
      ensures GraftedAt(t, WithKids(t, at, kids), dir + [n], x, q)
    {
      GraftPoint(t, dir, at, kids, n, x, q);
    }
  }
}
