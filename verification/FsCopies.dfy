/** The whole `cp` command on trees without links: what every path shows when it is done, and when it refuses. */
module FsCopies {
  import opened Sequences
  import opened Paths
  import opened FsTree
  import opened FsWalkers
  import opened FsAgreement
  import opened Filesystem
  import opened FsPaths
  import opened FsGraft
  import opened FsEffects
  import opened FsMoves
  import opened FsRuns

  /** The names of the place a path typed by the user leads to. */
  function Leads(home: string, cwd: string, path: string): seq<string> {
    var p := Resolve(home, path, cwd);
    if p.None? then [] else Names(p.value)
  }

  predicate DirectoryAt(t: Entry, names: seq<string>) {
    names == [] || (Lookup(t, names).Some? && Lookup(t, names).value.kind == Dir)
  }

  /** A source `cp` does not skip. */
  predicate Copyable(t: Entry, names: seq<string>, recursive: bool) {
    Lookup(t, names).Some? && (recursive || !DirectoryAt(t, names))
  }

  lemma LeadsCanonical(home: string, cwd: string, path: string)
    requires Canonical(cwd) && path != ""
    ensures var p := Resolve(home, path, cwd);
            p.Some? && Canonical(p.value) && Sought(p.value) == Names(p.value) == Leads(home, cwd, path)
    ensures Resolve(home, path, cwd).value == Abs(Leads(home, cwd, path)) && AllClean(Leads(home, cwd, path))
  {
    ResolvesToCanonical(home, path, cwd);
    SoughtCanonical(Resolve(home, path, cwd).value);
  }

  lemma IsDirMeans(t: Entry, path: string, budget: nat)
    requires Plain(t) && budget > 0 && Canonical(path)
    ensures IsDir(t, path, budget) == DirectoryAt(t, Names(path))
  {
    SoughtCanonical(path);
    GetFileIsLocate(t, path, true, budget);
    NamesEmpty();
    assert Names(path) == [] ==> path == "/" by { assert Names(path) == [] ==> path == Abs([]); }
  }

  // ---------------------------------------------------------------- one source

  /** One turn of the loop, into a directory that holds a list. */
  lemma OneInto(s: State, src: string, recursive: bool, d: string, own: string, budget: nat)
    requires Plain(s.fs) && budget > 0 && Canonical(src) && IsList(s.fs, Names(d))
    ensures var (s', r) := CopyOne(s, src, recursive, d, own, budget);
            && Plain(s'.fs) && s'.newcount == s.newcount
            && r == (if Copyable(s.fs, Names(src), recursive) then Done(true)
                     else if Lookup(s.fs, Names(src)).None? && BelowBytes(s.fs, Names(src)) then Failed(TypeError)
                     else Done(false))
            && (if Copyable(s.fs, Names(src), recursive)
                then Grafted(s.fs, s'.fs, Names(d) + [own], Some(Lookup(s.fs, Names(src)).value.(name := own)))
                else s' == s)
  {
    SoughtCanonical(src);
    CopyEffect(s, src, recursive, d, own, budget);
    CopyKeepsPlain(s, src, recursive, d, own, budget);
    IsDirMeans(s.fs, src, budget);
    GetFileIsLocate(s.fs, src, true, budget);
    GetPathIsLocate(s.fs, d, true, budget);
    hide Plain, Names, Sought, GetFile, GetPath, IsDir, Grafted, BelowBytes, Locate, Dropping, WithKids, Canonical;
  }

  lemma {:induction false} CopyAllSnoc(s: State, sources: seq<string>, src: string, recursive: bool, d: string,
        name: Option<string>, home: string, cwd: string, budget: nat)
    requires !CopyAll(s, sources, recursive, d, name, home, cwd, budget).1.Failed? && Resolve(home, src, cwd).Some?
    ensures var s1 := CopyAll(s, sources, recursive, d, name, home, cwd, budget).0;
            var own := if name.Some? then name.value else Basename(src);
            var (s2, r) := CopyOne(s1, Resolve(home, src, cwd).value, recursive, d, own, budget);
            CopyAll(s, sources + [src], recursive, d, name, home, cwd, budget)
            == (s2, if r.Failed? then r else Done(true))
    decreases |sources|
  {
    hide CopyOne, Resolve, Basename;
    if sources == [] {
      assert [] + [src] == [src] && [src][1..] == [];
    } else {
      assert (sources + [src])[1..] == sources[1..] + [src];
      var first := Resolve(home, sources[0], cwd);
      if first.Some? {
        var own := if name.Some? then name.value else Basename(sources[0]);
        var s' := CopyOne(s, first.value, recursive, d, own, budget).0;
        CopyAllSnoc(s', sources[1..], src, recursive, d, name, home, cwd, budget);
      }
    }
  }

  // ---------------------------------------------------------------- to a place that is no directory

  /** Main result: a single source copied to a place that is no directory is shown there, under the name
      the destination ends with, and every other path shows what it did. */
  lemma CopyToName(s: State, src: string, dest: string, recursive: bool, home: string, cwd: string, budget: nat)
    requires Plain(s.fs) && budget > 0 && Canonical(cwd) && src != "" && dest != ""
    requires Copyable(s.fs, Leads(home, cwd, src), recursive)
    requires var to := Leads(home, cwd, dest);
             && !DirectoryAt(s.fs, to) && IsList(s.fs, Front(to))
             && (Slashed(dest) ==> recursive || Lookup(s.fs, to).Some?)
    ensures var (s', r) := Copy(s, [src], dest, recursive, home, cwd, budget);
            var to, n := Leads(home, cwd, dest), Basename(RStrip(dest));
            && r == Done(true) && s'.newcount == s.newcount
            && Grafted(s.fs, s'.fs, Front(to) + [n], Some(Lookup(s.fs, Leads(home, cwd, src)).value.(name := n)))
  {
    LeadsCanonical(home, cwd, src);
    LeadsCanonical(home, cwd, dest);
    var to, n, d := Leads(home, cwd, dest), Basename(RStrip(dest)), Resolve(home, dest, cwd).value;
    NotADirectory(s.fs, d, budget);
    hide Plain, Names, Sought, GetFile, IsDir, Grafted, BelowBytes, Canonical, Resolve, Leads, CopyOne, IsList, Lookup,
        Copyable, Dirname, Basename, RStrip, DirectoryAt, Abs;
    var from := Resolve(home, src, cwd).value;
    OneInto(s, from, recursive, Dirname(d), n, budget);
    assert CopyAll(s, [src], recursive, Dirname(d), Some(n), home, cwd, budget)
        == (CopyOne(s, from, recursive, Dirname(d), n, budget).0, Done(true)) by {
      CopyAllOne(s, src, recursive, Dirname(d), Some(n), home, cwd, budget);
    }
  }

  lemma CopyAllOne(s: State, src: string, recursive: bool, d: string, name: Option<string>, home: string, cwd: string,
                   budget: nat)
    requires Resolve(home, src, cwd).Some?
    ensures var own := if name.Some? then name.value else Basename(src);
            var (s', r) := CopyOne(s, Resolve(home, src, cwd).value, recursive, d, own, budget);
            CopyAll(s, [src], recursive, d, name, home, cwd, budget) == (s', if r.Failed? then r else Done(true))
  {
    hide CopyOne, Resolve, Basename;
    assert [src][1..] == [];
  }

  /** The tests before the loop, where the destination is no directory. */
  lemma NotADirectory(t: Entry, d: string, budget: nat)
    requires Plain(t) && budget > 0 && Canonical(d) && !DirectoryAt(t, Names(d))
    ensures Names(d) != [] && !IsDir(t, d, budget) && Names(Dirname(d)) == Front(Names(d))
    ensures GetFile(t, d, true, budget).Found? == Lookup(t, Names(d)).Some?
    ensures Lookup(t, Front(Names(d))).Some? == GetFile(t, Dirname(d), true, budget).Found?
    ensures IsList(t, Front(Names(d))) ==> !GetFile(t, d, true, budget).Raised?
  {
    IsDirMeans(t, d, budget);
    CanonicalIsProper(d);
    ProperSpells(d);
    var names := Names(d);
    GetFileIsLocate(t, d, true, budget);
    CanonicalParent(d);
    GetFileIsLocate(t, Dirname(d), true, budget);
    if IsList(t, Front(names)) {
      Resplit(names);
      NotBelowBytes(t, Front(names), Last(names));
    }
    hide Plain, GetFile, Locate, BelowBytes, Names, Sought;
  }

  lemma CanonicalParent(d: string)
    requires Canonical(d) && Names(d) != []
    ensures Sought(Dirname(d)) == Names(Dirname(d)) == Front(Names(d))
  {
    var names := Names(d);
    assert d != "/" by { NamesEmpty(); }
    CanonicalIsProper(d);
    ProperSpells(d);
    Resplit(names);
    assert forall p :: p in Front(names) ==> p in names;
    assert Last(names) in names;
    CleanIsWhole(Front(names));
    hide Names;
    AbsSnoc(Front(names), Last(names));
    AbsCanonical(Front(names));
    SoughtCanonical(Abs(Front(names)));
  }

  /** That name is the one the destination leads to, if it is a plain name, and not `~` with nothing but
      slashes behind it. */
  lemma TargetName(home: string, cwd: string, dest: string)
    requires Canonical(cwd) && dest != "" && Clean(Basename(RStrip(dest)))
    requires Slashed(dest) ==> RStrip(dest) != "~"
    ensures var to := Leads(home, cwd, dest); to != [] && Last(to) == Basename(RStrip(dest))
  {
    var n := Basename(RStrip(dest));
    LeadsCanonical(home, cwd, dest);
    var path := Expand(home, dest);
    var start := if path[0] == SLASH then [] else Names(cwd);
    ExpandedName(home, dest);
    WalkNames(start, path);
    var ps := Names(path);
    Resplit(ps);
    WalkConcat(start, Front(ps), [n]);
    WalkOne(Walk(start, Front(ps)), n);
    var to := Walk(start, ps);
    assert to == Walk(start, Front(ps)) + [n];
    NamesWhole(path);
    WalkClean(start, ps);
    AbsCanonical(to);
  }

  lemma ExpandedName(home: string, dest: string)
    requires dest != "" && Clean(Basename(RStrip(dest))) && (Slashed(dest) ==> RStrip(dest) != "~")
    ensures Expand(home, dest) != ""
    ensures var ps := Names(Expand(home, dest)); ps != [] && Last(ps) == Basename(RStrip(dest))
  {
    DirnameFront(RStrip(dest));
    NamesRStrip(dest);
    if |dest| >= 2 && dest[..2] == "~/" {
      var rest := dest[2..];
      SplitTilde(dest);
      NamesConcat("~", rest);
      NamesOfWhole("~");
      NonEmptyOne("~");
      assert home + ([SLASH] + rest) == home + [SLASH] + rest;
      NamesConcat(home, rest);
      if Names(rest) == [] {
        TildeOnly(dest, rest);
      }
    }
  }

  lemma SplitTilde(dest: string)
    requires |dest| >= 2 && dest[..2] == "~/"
    ensures dest == "~" + [SLASH] + dest[2..] && dest[1..] == [SLASH] + dest[2..]
  {
    assert dest == dest[..2] + dest[2..] && dest[1] == dest[..2][1] && dest[0] == dest[..2][0];
  }

  lemma SplitEnd(s: string)
    requires s != "" && Last(s) == SLASH
    ensures s == Front(s) + [SLASH] + ""
  {
  }

  lemma TildeOnly(dest: string, rest: string)
    requires dest == "~" + [SLASH] + rest && Names(rest) == []
    ensures Slashed(dest) && RStrip(dest) == "~"
  {
    OnlySlashes(rest);
    StripSlashes("~", [SLASH] + rest);
    assert dest == "~" + ([SLASH] + rest);
    assert Last(dest) == Last([SLASH] + rest) && Last([SLASH] + rest) in [SLASH] + rest;
  }

  lemma {:induction false} OnlySlashes(s: string)
    requires Names(s) == []
    ensures forall c :: c in s ==> c == SLASH
    decreases |s|
  {
    if s != "" {
      DirnameNames(s);
      NamesOfWhole(Basename(s));
      AfterSlashMeans(s);
      if Basename(s) != "" {
        NonEmptyOne(Basename(s));
      }
      assert Last(s) == SLASH;
      hide Names, Basename, AfterSlash;
      SplitEnd(s);
      NamesConcat(Front(s), "");
      OnlySlashes(Front(s));
    }
  }

  lemma {:induction false} StripSlashes(a: string, b: string)
    requires (a == "" || Last(a) != SLASH) && forall c :: c in b ==> c == SLASH
    ensures RStrip(a + b) == a
    decreases |b|
  {
    if b == "" {
      assert a + b == a;
      RStripEnd(a);
    } else {
      assert Last(b) in b && (a + b)[..|a + b| - 1] == a + Front(b);
      assert forall c :: c in Front(b) ==> c in b;
      StripSlashes(a, Front(b));
    }
  }

  /** Main result: where `cp` refuses, nothing changes: several sources and no directory, a final slash
      and nothing there, or no parent. */
  lemma CopyRefuses(s: State, sources: seq<string>, dest: string, recursive: bool, home: string, cwd: string,
                    budget: nat)
    requires Plain(s.fs) && budget > 0 && Canonical(cwd) && dest != ""
    requires var to := Leads(home, cwd, dest);
             && !DirectoryAt(s.fs, to)
             && (|sources| > 1 || (Slashed(dest) && !recursive && Lookup(s.fs, to).None?)
                 || Lookup(s.fs, Front(to)).None?)
    ensures var (s', r) := Copy(s, sources, dest, recursive, home, cwd, budget); s' == s && r != Done(true)
  {
    LeadsCanonical(home, cwd, dest);
    NotADirectory(s.fs, Resolve(home, dest, cwd).value, budget);
    hide Plain, GetFile, IsDir, Resolve, Leads, CopyAll, Names, Dirname, Basename, RStrip, Lookup, Canonical;
  }

  // ---------------------------------------------------------------- into a directory

  /** The entry a source becomes. */
  function Taken(t: Entry, from: seq<string>, recursive: bool, own: string): seq<Entry> {
    if Copyable(t, from, recursive) then [Lookup(t, from).value.(name := own)] else []
  }

  /** The entries the copyable sources become, in order. */
  function Copies(t: Entry, sources: seq<string>, recursive: bool, home: string, cwd: string): seq<Entry> {
    if sources == [] then []
    else
      var from := Leads(home, cwd, Last(sources));
      Copies(t, Front(sources), recursive, home, cwd) + Taken(t, from, recursive, Basename(Last(sources)))
  }

  /** What the path along `q` shows once `xs` are in the directory `dir`, the last of a name counting: its
      entry and what is in it; on the way to the directory the same attributes; elsewhere what was there. */
  predicate HoldsAt(t: Entry, t': Entry, dir: seq<string>, xs: seq<Entry>, q: seq<string>) {
    if q <= dir then
      Lookup(t, q).Some? && Lookup(t', q).Some? && Attributes(Lookup(t', q).value) == Attributes(Lookup(t, q).value)
    else if dir <= q && LastNamed(xs, q[|dir|]).Some? then
      Lookup(t', q) == Lookup(xs[LastNamed(xs, q[|dir|]).value], q[|dir| + 1..])
    else Lookup(t', q) == Lookup(t, q)
  }

  ghost predicate Holds(t: Entry, t': Entry, dir: seq<string>, xs: seq<Entry>) {
    forall q :: HoldsAt(t, t', dir, xs, q)
  }

  /** Each source is named, is not below the bytes of a file, and is apart from what earlier ones change. */
  ghost predicate Independent(t: Entry, sources: seq<string>, dir: seq<string>, home: string, cwd: string) {
    && (forall i :: 0 <= i < |sources| ==> sources[i] != "" && !BelowBytes(t, Leads(home, cwd, sources[i])))
    && (forall i, j :: 0 <= j < i < |sources| ==> Apart(Leads(home, cwd, sources[i]), dir + [Basename(sources[j])]))
  }

  lemma {:induction false} LastNamedSnoc(xs: seq<Entry>, x: Entry, n: string)
    ensures LastNamed(xs + [x], n) == if x.name == n then Some(|xs|) else LastNamed(xs, n)
  {
    if xs == [] {
      assert [] + [x] == [x] && [x][1..] == [];
      assert LastNamed([], n).None?;
    } else {
      assert (xs + [x])[1..] == xs[1..] + [x];
      LastNamedSnoc(xs[1..], x, n);
    }
  }

  lemma {:induction false} LookupAbove(t: Entry, q: seq<string>, names: seq<string>)
    requires q <= names && Lookup(t, names).Some?
    ensures Lookup(t, q).Some?
  {
    LookupPrefix(t, q, names);
  }

  lemma HoldsNothing(t: Entry, dir: seq<string>)
    requires IsList(t, dir)
    ensures Holds(t, t, dir, [])
  {
    forall q
      ensures HoldsAt(t, t, dir, [], q)
    {
      if q <= dir {
        LookupAbove(t, q, dir);
      }
    }
  }

  lemma HoldsOneMore(t: Entry, t1: Entry, t2: Entry, dir: seq<string>, xs: seq<Entry>, x: Entry)
    requires Holds(t, t1, dir, xs) && Grafted(t1, t2, dir + [x.name], Some(x))
    ensures Holds(t, t2, dir, xs + [x])
  {
    hide HoldsAt, GraftedAt;
    forall q
      ensures HoldsAt(t, t2, dir, xs + [x], q)
    {
      assert HoldsAt(t, t1, dir, xs, q) && GraftedAt(t1, t2, dir + [x.name], Some(x), q);
      OneMoreAt(t, t1, t2, dir, xs, x, q);
    }
  }

  lemma OneMoreAt(t: Entry, t1: Entry, t2: Entry, dir: seq<string>, xs: seq<Entry>, x: Entry, q: seq<string>)
    requires HoldsAt(t, t1, dir, xs, q) && GraftedAt(t1, t2, dir + [x.name], Some(x), q)
    ensures HoldsAt(t, t2, dir, xs + [x], q)
  {
    hide Lookup, Attributes, LastNamed;
    BelowDirectory(dir, x.name, q);
    if !(q <= dir) && dir <= q {
      LastNamedSnoc(xs, x, q[|dir|]);
    }
  }

  lemma BelowDirectory(dir: seq<string>, n: string, q: seq<string>)
    ensures q <= dir ==> q <= dir + [n] && !(dir + [n] <= q)
    ensures !(q <= dir) && dir <= q ==> (dir + [n] <= q <==> q[|dir|] == n)
    ensures !(q <= dir) && !(dir + [n] <= q) ==> !(q <= dir + [n])
    ensures dir + [n] <= q ==> dir <= q
  {
    if !(q <= dir) && dir <= q && q[|dir|] == n {
      assert q[..|dir| + 1] == dir + [n];
    }
    if dir + [n] <= q {
      assert q[|dir|] == (dir + [n])[|dir|] && dir == (dir + [n])[..|dir|] == q[..|dir|];
    }
  }

  // ---------------------------------------------------------------- what a source shows later on

  /** Bytes of a file lie on the way. */
  lemma {:induction false} BelowBytesMeans(t: Entry, names: seq<string>)
    ensures BelowBytes(t, names)
            <==> exists k :: 0 <= k < |names| && BytesAt(t, names[..k])
    decreases |names|
  {
    if names != [] {
      assert names[..0] == [];
      LookupNothing(t);
      var k := Named(Kids(t), names[0]);
      if t.contents.Children? && k.Some? {
        var kid := Kids(t)[k.value];
        BelowBytesMeans(kid, names[1..]);
        BelowStepMeans(t, names);
      } else if t.contents.Children? {
        forall j | 0 < j < |names|
          ensures !BytesAt(t, names[..j])
        {
          LookupHead(t, names[0], names[1..j]);
          assert names[..j] == [names[0]] + names[1..j];
        }
      }
    }
  }

  predicate BytesAt(t: Entry, names: seq<string>) {
    Lookup(t, names).Some? && Lookup(t, names).value.contents.Data? && Lookup(t, names).value.contents.bytes != []
  }

  lemma BelowStepMeans(t: Entry, names: seq<string>)
    requires names != [] && t.contents.Children? && Named(Kids(t), names[0]).Some?
    ensures var kid := Kids(t)[Named(Kids(t), names[0]).value];
            (exists k :: 0 <= k < |names| && BytesAt(t, names[..k]))
            <==> exists k :: 0 <= k < |names| - 1 && BytesAt(kid, names[1..][..k])
  {
    var kid := Kids(t)[Named(Kids(t), names[0]).value];
    forall k | 0 <= k < |names| - 1
      ensures BytesAt(t, names[..k + 1]) == BytesAt(kid, names[1..][..k])
    {
      LookupHead(t, names[0], names[1..][..k]);
      assert names[..k + 1] == [names[0]] + names[1..][..k];
    }
    assert names[..0] == [];
    LookupNothing(t);
    if k :| 0 <= k < |names| && BytesAt(t, names[..k]) {
      assert k > 0 && BytesAt(kid, names[1..][..k - 1]);
    }
    if k :| 0 <= k < |names| - 1 && BytesAt(kid, names[1..][..k]) {
      assert BytesAt(t, names[..k + 1]);
    }
  }

  lemma AttributesBytes(t: Entry, t': Entry, p: seq<string>)
    requires Lookup(t, p).Some? && Lookup(t', p).Some?
    requires Attributes(Lookup(t', p).value) == Attributes(Lookup(t, p).value)
    ensures BytesAt(t', p) == BytesAt(t, p)
  {
  }

  lemma PrefixKept(t: Entry, t': Entry, dir: seq<string>, xs: seq<Entry>, q: seq<string>, p: seq<string>)
    requires HoldsAt(t, t', dir, xs, p) && p <= q
    requires forall x :: x in xs ==> Apart(q, dir + [x.name])
    ensures BytesAt(t', p) == BytesAt(t, p) && (p <= dir || Lookup(t', p) == Lookup(t, p))
  {
    hide Lookup, Attributes, BytesAt;
    if p <= dir {
      AttributesBytes(t, t', p);
    } else if dir <= p && LastNamed(xs, p[|dir|]).Some? {
      var x := xs[LastNamed(xs, p[|dir|]).value];
      assert x in xs;
      BelowDirectory(dir, x.name, p);
      Longer(dir + [x.name], p, q);
    } else {
      SameBytes(t, t', p);
    }
  }

  lemma SameBytes(t: Entry, t': Entry, p: seq<string>)
    requires Lookup(t', p) == Lookup(t, p)
    ensures BytesAt(t', p) == BytesAt(t, p)
  {
  }

  /** A path apart from every place that changed shows what it did, and is not below bytes. */
  lemma StillThere(t: Entry, t': Entry, dir: seq<string>, xs: seq<Entry>, q: seq<string>)
    requires Holds(t, t', dir, xs) && !BelowBytes(t, q) && (xs == [] ==> t' == t)
    requires forall x :: x in xs ==> Apart(q, dir + [x.name])
    ensures !BelowBytes(t', q) && Lookup(t', q) == Lookup(t, q)
  {
    BelowBytesMeans(t, q);
    BelowBytesMeans(t', q);
    hide BelowBytes, Lookup, HoldsAt, BytesAt, Apart;
    forall k | 0 <= k < |q|
      ensures !BytesAt(t', q[..k])
    {
      assert HoldsAt(t, t', dir, xs, q[..k]) && !BytesAt(t, q[..k]);
      PrefixKept(t, t', dir, xs, q, q[..k]);
    }
    if xs != [] {
      assert HoldsAt(t, t', dir, xs, q);
      PrefixKept(t, t', dir, xs, q, q);
      assert xs[0] in xs;
      ApartNotAbove(q, dir, xs[0].name);
    }
  }

  lemma ApartNotAbove(q: seq<string>, dir: seq<string>, n: string)
    requires Apart(q, dir + [n])
    ensures !(q <= dir)
  {
    BelowDirectory(dir, n, q);
  }

  // ---------------------------------------------------------------- all the sources

  lemma {:induction false} CopiesOwn(t: Entry, sources: seq<string>, recursive: bool, home: string, cwd: string)
    ensures forall x :: x in Copies(t, sources, recursive, home, cwd) ==>
              exists i :: 0 <= i < |sources| && x.name == Basename(sources[i])
    decreases |sources|
  {
    hide Lookup, Copyable, Basename, Leads;
    if sources != [] {
      CopiesOwn(t, Front(sources), recursive, home, cwd);
      forall x | x in Copies(t, sources, recursive, home, cwd)
        ensures exists i :: 0 <= i < |sources| && x.name == Basename(sources[i])
      {
        if x in Copies(t, Front(sources), recursive, home, cwd) {
          var i :| 0 <= i < |Front(sources)| && x.name == Basename(Front(sources)[i]);
          assert sources[i] == Front(sources)[i];
        } else {
          assert x.name == Basename(sources[|sources| - 1]);
        }
      }
    }
  }

  /** A source is not touched by the copies before it. */
  lemma LastIsApart(t: Entry, sources: seq<string>, dir: seq<string>, recursive: bool, home: string, cwd: string)
    requires sources != [] && Independent(t, sources, dir, home, cwd)
    ensures Independent(t, Front(sources), dir, home, cwd)
    ensures forall x :: x in Copies(t, Front(sources), recursive, home, cwd) ==>
              Apart(Leads(home, cwd, Last(sources)), dir + [x.name])
  {
    hide Apart, Leads, Basename, BelowBytes, Copies;
    var n, front := |sources| - 1, Front(sources);
    forall i | 0 <= i < n
      ensures front[i] == sources[i]
    {
    }
    CopiesOwn(t, front, recursive, home, cwd);
    forall x | x in Copies(t, front, recursive, home, cwd)
      ensures Apart(Leads(home, cwd, sources[n]), dir + [x.name])
    {
      var j :| 0 <= j < |front| && x.name == Basename(front[j]);
      assert front[j] == sources[j] && 0 <= j < n;
    }
  }

  lemma GraftKeepsList(t: Entry, t': Entry, dir: seq<string>, n: string, x: Option<Entry>)
    requires Grafted(t, t', dir + [n], x) && IsList(t, dir)
    ensures IsList(t', dir)
  {
    assert GraftedAt(t, t', dir + [n], x, dir);
  }

  /** What the turns so far did to the tree. */
  ghost predicate WentInto(s: State, s': State, dir: seq<string>, xs: seq<Entry>) {
    && s'.newcount == s.newcount && Plain(s'.fs) && IsList(s'.fs, dir)
    && Holds(s.fs, s'.fs, dir, xs) && (xs == [] ==> s' == s)
  }

  /** The turn of a source that the turns before did not touch. */
  lemma OneMoreInto(s: State, s1: State, src: string, recursive: bool, d: string, own: string, xs: seq<Entry>,
                    budget: nat)
    requires WentInto(s, s1, Names(d), xs) && budget > 0 && Canonical(src) && !BelowBytes(s.fs, Names(src))
    requires forall x :: x in xs ==> Apart(Names(src), Names(d) + [x.name])
    ensures var (s2, r) := CopyOne(s1, src, recursive, d, own, budget);
            !r.Failed? && WentInto(s, s2, Names(d), xs + Taken(s.fs, Names(src), recursive, own))
  {
    hide Plain, Names, Holds, Grafted, IsList, BelowBytes, Canonical, CopyOne, Apart, Lookup, Copyable;
    var from, dir := Names(src), Names(d);
    StillThere(s.fs, s1.fs, dir, xs, from);
    OneInto(s1, src, recursive, d, own, budget);
    SameCopyable(s.fs, s1.fs, from, recursive);
    if Copyable(s.fs, from, recursive) {
      CopyableIsThere(s.fs, from, recursive);
      var x := Lookup(s.fs, from).value.(name := own);
      var s2 := CopyOne(s1, src, recursive, d, own, budget).0;
      HoldsOneMore(s.fs, s1.fs, s2.fs, dir, xs, x);
      GraftKeepsList(s1.fs, s2.fs, dir, own, Some(x));
    } else {
      assert xs + [] == xs;
    }
  }

  lemma CopyableIsThere(t: Entry, names: seq<string>, recursive: bool)
    requires Copyable(t, names, recursive)
    ensures Lookup(t, names).Some?
  {
  }

  lemma CopiesSnoc(t: Entry, front: seq<string>, src: string, recursive: bool, home: string, cwd: string)
    ensures Copies(t, front + [src], recursive, home, cwd)
            == Copies(t, front, recursive, home, cwd) + Taken(t, Leads(home, cwd, src), recursive, Basename(src))
  {
    assert Front(front + [src]) == front;
    hide Lookup, Copyable, Leads, Basename;
  }

  lemma {:induction false} AllInto(s: State, sources: seq<string>, recursive: bool, d: string, home: string,
                                   cwd: string, budget: nat)
    requires Plain(s.fs) && budget > 0 && Canonical(cwd) && IsList(s.fs, Names(d))
    requires Independent(s.fs, sources, Names(d), home, cwd)
    ensures var (s', r) := CopyAll(s, sources, recursive, d, None, home, cwd, budget);
            r == Done(true) && WentInto(s, s', Names(d), Copies(s.fs, sources, recursive, home, cwd))
    decreases |sources|
  {
    hide Plain, Names, Holds, IsList, BelowBytes, Canonical, CopyOne, CopyAll, Apart, Resolve, Leads, Basename,
        Copies, Independent, Taken, Abs, Sought, AllClean, WentInto;
    if sources == [] {
      NothingInto(s, recursive, d, home, cwd, budget);
    } else {
      var front, src := Front(sources), Last(sources);
      assert sources == front + [src];
      LastIsApart(s.fs, sources, Names(d), recursive, home, cwd);
      LastIsNamed(s.fs, sources, Names(d), home, cwd);
      AllInto(s, front, recursive, d, home, cwd, budget);
      LastInto(s, front, src, recursive, d, home, cwd, budget);
    }
  }

  lemma NothingInto(s: State, recursive: bool, d: string, home: string, cwd: string, budget: nat)
    requires Plain(s.fs) && IsList(s.fs, Names(d))
    ensures CopyAll(s, [], recursive, d, None, home, cwd, budget) == (s, Done(true))
    ensures Copies(s.fs, [], recursive, home, cwd) == [] && WentInto(s, s, Names(d), [])
  {
    HoldsNothing(s.fs, Names(d));
  }

  lemma LastInto(s: State, front: seq<string>, src: string, recursive: bool, d: string, home: string, cwd: string,
                 budget: nat)
    requires budget > 0 && Canonical(cwd) && src != "" && !BelowBytes(s.fs, Leads(home, cwd, src))
    requires var (s1, r) := CopyAll(s, front, recursive, d, None, home, cwd, budget);
             r == Done(true) && WentInto(s, s1, Names(d), Copies(s.fs, front, recursive, home, cwd))
    requires forall x :: x in Copies(s.fs, front, recursive, home, cwd) ==>
               Apart(Leads(home, cwd, src), Names(d) + [x.name])
    ensures var (s', r) := CopyAll(s, front + [src], recursive, d, None, home, cwd, budget);
            r == Done(true) && WentInto(s, s', Names(d), Copies(s.fs, front + [src], recursive, home, cwd))
  {
    LeadsCanonical(home, cwd, src);
    hide Plain, Names, Holds, IsList, BelowBytes, Canonical, CopyOne, CopyAll, Apart, Resolve, Leads, Basename,
        Copies, Independent, Taken, Abs, Sought, AllClean, WentInto;
    var s1 := CopyAll(s, front, recursive, d, None, home, cwd, budget).0;
    CopyAllSnoc(s, front, src, recursive, d, None, home, cwd, budget);
    CopiesSnoc(s.fs, front, src, recursive, home, cwd);
    OneMoreInto(s, s1, Resolve(home, src, cwd).value, recursive, d, Basename(src),
                Copies(s.fs, front, recursive, home, cwd), budget);
  }

  lemma LastIsNamed(t: Entry, sources: seq<string>, dir: seq<string>, home: string, cwd: string)
    requires sources != [] && Independent(t, sources, dir, home, cwd)
    ensures Last(sources) != "" && !BelowBytes(t, Leads(home, cwd, Last(sources)))
  {
    hide Apart, Leads, Basename, BelowBytes;
  }

  lemma SameCopyable(t: Entry, t': Entry, names: seq<string>, recursive: bool)
    requires Lookup(t', names) == Lookup(t, names)
    ensures Copyable(t', names, recursive) == Copyable(t, names, recursive)
  {
  }

  /** Main result: copied into a directory, every source that is there (and is no directory, unless
      recursive) is shown there under its own last name, the last source of a name counting, with all
      that is in it; every other path shows what it did. The sources must not change one another. */
  lemma CopyIntoDirectory(s: State, sources: seq<string>, dest: string, recursive: bool, home: string, cwd: string,
                          budget: nat)
    requires Plain(s.fs) && budget > 0 && Canonical(cwd) && dest != ""
    requires var dir := Leads(home, cwd, dest);
             && DirectoryAt(s.fs, dir) && IsList(s.fs, dir) && Independent(s.fs, sources, dir, home, cwd)
    ensures var (s', r) := Copy(s, sources, dest, recursive, home, cwd, budget);
            && r == Done(true) && s'.newcount == s.newcount
            && Holds(s.fs, s'.fs, Leads(home, cwd, dest), Copies(s.fs, sources, recursive, home, cwd))
  {
    LeadsCanonical(home, cwd, dest);
    var d := Resolve(home, dest, cwd).value;
    ADirectory(s.fs, d, budget);
    hide Plain, Names, GetFile, IsDir, IsList, Holds, Independent, Resolve, Leads, CopyAll, Canonical, Sought, Copies;
    AllInto(s, sources, recursive, d, home, cwd, budget);
  }

  lemma ADirectory(t: Entry, d: string, budget: nat)
    requires Plain(t) && budget > 0 && Canonical(d) && DirectoryAt(t, Names(d)) && IsList(t, Names(d))
    ensures IsDir(t, d, budget) && GetFile(t, d, true, budget).Found?
  {
    IsDirMeans(t, d, budget);
    SoughtCanonical(d);
    GetFileIsLocate(t, d, true, budget);
  }

  /** And without any condition on the sources: one more source is copied from the tree that the others
      before it left. */
  lemma CopyOneMore(s: State, sources: seq<string>, src: string, dest: string, recursive: bool, home: string,
                    cwd: string, budget: nat)
    requires Plain(s.fs) && budget > 0 && Canonical(cwd) && dest != "" && src != ""
    requires var dir := Leads(home, cwd, dest); DirectoryAt(s.fs, dir) && IsList(s.fs, dir)
    requires Copy(s, sources, dest, recursive, home, cwd, budget).1 == Done(true)
    ensures var s1 := Copy(s, sources, dest, recursive, home, cwd, budget).0;
            var (s2, r) := Copy(s, sources + [src], dest, recursive, home, cwd, budget);
            var from, dir := Leads(home, cwd, src), Leads(home, cwd, dest);
            && (if Copyable(s1.fs, from, recursive)
                then r == Done(true)
                     && Grafted(s1.fs, s2.fs, dir + [Basename(src)],
                                Some(Lookup(s1.fs, from).value.(name := Basename(src))))
                else s2 == s1
                     && r == if Lookup(s1.fs, from).None? && BelowBytes(s1.fs, from) then Failed(TypeError)
                             else Done(true))
  {
    LeadsCanonical(home, cwd, dest);
    LeadsCanonical(home, cwd, src);
    var d, p := Resolve(home, dest, cwd).value, Resolve(home, src, cwd).value;
    ADirectory(s.fs, d, budget);
    hide Plain, Names, GetFile, IsDir, IsList, Grafted, Resolve, Leads, Canonical, Sought, CopyOne, BelowBytes, Lookup,
        Copyable, DirectoryAt, Basename, CopyAll;
    StaysList(s, sources, recursive, d, home, cwd, budget);
    var s1 := CopyAll(s, sources, recursive, d, None, home, cwd, budget).0;
    CopyAllSnoc(s, sources, src, recursive, d, None, home, cwd, budget);
    OneInto(s1, p, recursive, d, Basename(src), budget);
  }

  lemma {:induction false} StaysList(s: State, sources: seq<string>, recursive: bool, d: string, home: string,
                                     cwd: string, budget: nat)
    requires Plain(s.fs) && budget > 0 && Canonical(cwd) && IsList(s.fs, Names(d))
    ensures var s' := CopyAll(s, sources, recursive, d, None, home, cwd, budget).0;
            Plain(s'.fs) && IsList(s'.fs, Names(d))
    decreases |sources|
  {
    hide Plain, Names, Grafted, IsList, Canonical, CopyOne, BelowBytes, Lookup, Leads, Resolve, Basename, DirectoryAt;
    if sources != [] {
      var src := Resolve(home, sources[0], cwd);
      if src.Some? {
        if sources[0] != "" {
          LeadsCanonical(home, cwd, sources[0]);
          OneInto(s, src.value, recursive, d, Basename(sources[0]), budget);
          var s1 := CopyOne(s, src.value, recursive, d, Basename(sources[0]), budget).0;
          if Copyable(s.fs, Names(src.value), recursive) {
            GraftKeepsList(s.fs, s1.fs, Names(d), Basename(sources[0]),
                           Some(Lookup(s.fs, Names(src.value)).value.(name := Basename(sources[0]))));
          }
          StaysList(s1, sources[1..], recursive, d, home, cwd, budget);
        } else {
          EmptyResolvesNowhere(home, cwd);
        }
      }
    }
  }

  lemma EmptyResolvesNowhere(home: string, cwd: string)
    ensures Resolve(home, "", cwd).None?
  {
  }
}
