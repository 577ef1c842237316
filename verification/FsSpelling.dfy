/** Paths with empty pieces: exactly when `mkdir2` and `rename` come to list a name twice. */
module FsSpelling {
  import opened Sequences
  import opened Strings
  import opened Paths
  import opened FsTree
  import opened FsWalkers
  import opened FsAgreement
  import opened Filesystem
  import opened FsPaths
  import opened FsGraft
  import opened FsEffects
  import opened FsMoves

  /** Where `mkdir2` puts its entry. */
  function MkdirTarget(path: string): seq<string> {
    Names(Dirname(LStrip(RStrip(path)))) + [Basename(path)]
  }

  /** Where `rename` puts its entry. */
  function RenameTarget(path: string): seq<string> {
    Names(Dirname(path)) + [Basename(path)]
  }

  lemma AppendPlain(t: Entry, dir: seq<string>, x: Entry)
    requires Plain(t) && IsList(t, dir) && Plain(x)
    ensures Plain(Grown(t, dir, x)) <==> Lookup(t, dir + [x.name]).None?
  {
    hide Locate, DistinctKids, NoLink, WithKids;
    var at := Locate(t, dir).value;
    var kids := Kids(At(t, at));
    LocateLast(t, dir, x.name);
    KidsPlain(t, at);
    AppendDistinct(kids, x);
    assert forall k: nat :: k < |kids + [x]| ==> (kids + [x])[k] == if k < |kids| then kids[k] else x;
    hide Plain;
    WithKidsPlain(t, at, kids + [x]);
  }

  /** Main result: a successful `mkdir2`, given any path, keeps names distinct exactly when nothing was
      listed under the path's last name in the directory it writes to. */
  lemma MkdirKeepsDistinctExactly(s: State, path: string, ctime: int, budget: nat)
    requires Plain(s.fs) && budget > 0 && Mkdir2(s, path, ctime, budget).1 == Done(true)
    ensures Plain(Mkdir2(s, path, ctime, budget).0.fs) <==> Lookup(s.fs, MkdirTarget(path)).None?
  {
    hide Names, Dirname, Basename, Locate, GetPath, GetFile, LStrip, RStrip, Plain;
    var dir, x := Names(Dirname(LStrip(RStrip(path)))), NewEntry(Basename(path), Dir, 0, 0, 4096, 16877, ctime);
    assert All(NoLink, s.fs) by { PlainMeans(s.fs); }
    GetPathIsLocate(s.fs, Dirname(LStrip(RStrip(path))), true, budget);
    NewIsPlain(Basename(path), Dir, 0, 0, 4096, 16877, ctime);
    AppendPlain(s.fs, dir, x);
  }

  lemma PlainMeans(t: Entry)
    requires Plain(t)
    ensures All(NoLink, t) && All(DistinctKids, t)
  {
  }

  /** Main result: the same for `rename`, whose own old place does not count. */
  lemma RenameKeepsDistinctExactly(s: State, oldpath: string, newpath: string, budget: nat)
    requires Plain(s.fs) && Proper(oldpath) && budget > 0 && Rename(s, oldpath, newpath, budget).1 == Done(true)
    ensures var target := RenameTarget(newpath);
            Plain(Rename(s, oldpath, newpath, budget).0.fs)
            <==> target == Names(oldpath) || Lookup(s.fs, target).None?
  {
    hide Names, Dirname, Basename, GetPath, GetFile, Proper, Lookup, BelowBytes, Attach, Detached, IndexOf, IsList,
        Plain, Grown;
    ProperSpells(oldpath);
    var a, dir, name := Names(oldpath), Names(Dirname(newpath)), Basename(newpath);
    LookedFor(s.fs, oldpath, budget);
    var x := Lookup(s.fs, a).value.(name := name);
    Leaves(s.fs, oldpath, name, budget);
    var was, from := GetFile(s.fs, oldpath, true, budget).at, GetPath(s.fs, Dirname(oldpath), true, budget).at;
    var t1 := Detached(s.fs, was, from, IndexOf(Kids(At(s.fs, from)), At(s.fs, was)).value, name);
    TakenOutPlain(s.fs, t1, a);
    LookupPlain(s.fs, a);
    RenamedPlain(Lookup(s.fs, a).value, name);
    Attaches(s, t1, x, Dirname(newpath), budget);
    AppendPlain(t1, dir, x);
    FreeAfter(s.fs, t1, a, dir, name);
  }

  lemma Attaches(s: State, t: Entry, x: Entry, path: string, budget: nat)
    requires Plain(t) && budget > 0
    ensures var (s', r) := Attach(s, t, x, path, budget);
            (r == Done(true) <==> IsList(t, Names(path))) && (r == Done(true) ==> s'.fs == Grown(t, Names(path), x))
  {
    hide Names, Locate, GetPath;
    GetPathIsLocate(t, path, true, budget);
  }

  lemma FreeAfter(t: Entry, t1: Entry, a: seq<string>, dir: seq<string>, name: string)
    requires TakenOut(t, t1, a) && IsList(t1, dir)
    ensures Lookup(t1, dir + [name]).None? <==> dir + [name] == a || Lookup(t, dir + [name]).None?
  {
    hide Lookup;
    assert GraftedAt(t, t1, a, None, dir + [name]);
    assert GraftedAt(t, t1, a, None, dir);
    PrefixOfFront(a, dir, name);
  }

  lemma PrefixOfFront(a: seq<string>, dir: seq<string>, name: string)
    ensures a <= dir + [name] ==> a == dir + [name] || a <= dir
  {
  }

  // ---------------------------------------------------------------- the failing family

  lemma {:induction false} NotBelowNothing(t: Entry, dir: seq<string>, n: string, more: seq<string>)
    requires IsList(t, dir) && Lookup(t, dir + [n]).None?
    ensures !BelowBytes(t, dir + ([n] + more)) && Lookup(t, dir + ([n] + more)).None?
    decreases |dir|
  {
    LookupConcat(t, dir + [n], more);
    assert dir + [n] + more == dir + ([n] + more);
    LocateLast(t, dir, n);
    NotBelow(t, dir, n, more);
  }

  lemma {:induction false} NotBelow(t: Entry, dir: seq<string>, n: string, more: seq<string>)
    requires IsList(t, dir) && Listed(Kids(Lookup(t, dir).value), n).None?
    ensures !BelowBytes(t, dir + ([n] + more))
    decreases |dir|
  {
    var names := dir + ([n] + more);
    if dir == [] {
      LookupNothing(t);
      assert names == [n] + more;
      BelowHead(t, names);
    } else {
      assert names[1..] == dir[1..] + ([n] + more) && names[0] == dir[0];
      LookupHead(t, dir[0], dir[1..]);
      assert dir == [dir[0]] + dir[1..];
      BelowHead(t, names);
      NotBelow(Kids(t)[Named(Kids(t), dir[0]).value], dir[1..], n, more);
    }
  }

  lemma DoubledStrip(dir: seq<string>, n: string)
    requires dir != [] && AllWhole(dir) && Whole(n)
    ensures var path := Abs(dir) + "//" + n; LStrip(RStrip(path)) == path[1..] == Join(SLASH, dir) + [SLASH] + ("/" + n)
  {
    hide Join, Names;
    var head := Join(SLASH, dir);
    var path := Abs(dir) + "//" + n;
    JoinEnds(dir);
    assert path[1..] == head + [SLASH] + ("/" + n);
    assert Last(path) == Last(n) && Last(n) in n;
    RStripEnd(path);
    assert LStrip(path) == LStrip(path[1..]) == path[1..];
  }

  lemma DoubledSought(dir: seq<string>, n: string)
    requires dir != [] && AllWhole(dir) && Whole(n)
    ensures Sought(Abs(dir) + "//" + n) == dir + ([""] + [n])
  {
    hide Join, Names, Split, RStrip, LStrip;
    var head, tail := Join(SLASH, dir), "/" + n;
    DoubledStrip(dir, n);
    SplitJoin(SLASH, dir);
    SplitConcat(SLASH, head, tail);
    assert tail == "" + [SLASH] + n;
    SplitConcat(SLASH, "", n);
    SplitWhole(SLASH, "");
    SplitWhole(SLASH, n);
  }

  lemma DoubledTarget(dir: seq<string>, n: string)
    requires dir != [] && AllWhole(dir) && Whole(n)
    ensures MkdirTarget(Abs(dir) + "//" + n) == dir + [n]
  {
    hide Names, AfterSlash, Join, RStrip, LStrip;
    var path := Abs(dir) + "//" + n;
    DoubledStrip(dir, n);
    assert path == Abs(dir) + "/" + [SLASH] + n && path[1..] == Join(SLASH, dir) + "/" + [SLASH] + n;
    BaseIs(Abs(dir) + "/", n);
    BaseIs(Join(SLASH, dir) + "/", n);
    DirnameFront(path[1..]);
    DoubledNames(dir, n);
    assert Front(dir + [n]) == dir;
  }

  lemma DoubledNames(dir: seq<string>, n: string)
    requires dir != [] && AllWhole(dir) && Whole(n)
    ensures Names((Abs(dir) + "//" + n)[1..]) == dir + [n]
  {
    hide Split, NonEmpty;
    var head := Join(SLASH, dir);
    assert (Abs(dir) + "//" + n)[1..] == head + [SLASH] + ("" + [SLASH] + n);
    NamesConcat(head, "" + [SLASH] + n);
    NamesConcat("", n);
    NamesEmpty();
    NamesOfWhole(n);
    NonEmptyOne(n);
    SplitJoin(SLASH, dir);
    NonEmptyWhole(dir);
    assert [] + [n] == [n];
  }

  /** In every tree, `mkdir2` of `d//n` makes a second `n` next to an existing one. */
  lemma DoubleSlashDuplicates(s: State, dir: seq<string>, n: string, ctime: int, budget: nat)
    requires Plain(s.fs) && budget > 0 && s.newcount <= MAX_NEW
    requires dir != [] && AllWhole(dir) && Whole(n)
    requires IsList(s.fs, dir) && Lookup(s.fs, dir + [n]).Some? && Lookup(s.fs, dir + [""]).None?
    ensures var (s', r) := Mkdir2(s, Abs(dir) + "//" + n, ctime, budget);
            r == Done(true) && !Plain(s'.fs)
  {
    var path := Abs(dir) + "//" + n;
    DoubledStrip(dir, n);
    DoubledSought(dir, n);
    DoubledTarget(dir, n);
    NotBelowNothing(s.fs, dir, "", [n]);
    hide Names, Dirname, Basename, Locate, GetPath, GetFile, LStrip, RStrip, Sought, Plain, BelowBytes, Abs;
    GetFileIsLocate(s.fs, path, true, budget);
    assert All(NoLink, s.fs) by { PlainMeans(s.fs); }
    GetPathIsLocate(s.fs, Dirname(LStrip(RStrip(path))), true, budget);
    assert path[1..] != "";
    assert Front(MkdirTarget(path)) == dir == Front(dir + [n]);
    assert Front(MkdirTarget(path)) == Names(Dirname(LStrip(RStrip(path))));
    MkdirKeepsDistinctExactly(s, path, ctime, budget);
  }

  lemma DoubledDirname(dir: seq<string>, n: string)
    requires dir != [] && AllWhole(dir) && Whole(n)
    ensures RenameTarget(Abs(dir) + "//" + n) == dir + [n] && Names(Dirname(Abs(dir) + "//" + n)) == dir
  {
    hide Names, AfterSlash, Join, RStrip, Abs;
    var path := Abs(dir) + "//" + n;
    assert path == Abs(dir) + "/" + [SLASH] + n;
    BaseIs(Abs(dir) + "/", n);
    DirnameFront(path);
    assert Names(path) == dir + [n] by { DoubledWhole(dir, n); }
    assert Front(dir + [n]) == dir;
  }

  lemma DoubledWhole(dir: seq<string>, n: string)
    requires dir != [] && AllWhole(dir) && Whole(n)
    ensures Names(Abs(dir) + "//" + n) == dir + [n]
  {
    hide Names, Abs;
    assert Abs(dir) + "//" + n == Abs(dir) + [SLASH] + ("" + [SLASH] + n);
    NamesConcat(Abs(dir), "" + [SLASH] + n);
    NamesConcat("", n);
    NamesEmpty();
    NamesAbs(dir);
    NamesOfWhole(n);
    NonEmptyOne(n);
    assert [] + [n] == [n];
  }

  /** In every tree, `rename` of anything else to `d//n` puts a second `n` next to an existing one. */
  lemma DoubleSlashRenames(s: State, oldpath: string, dir: seq<string>, n: string, budget: nat)
    requires Plain(s.fs) && budget > 0 && Proper(oldpath) && Lookup(s.fs, Names(oldpath)).Some?
    requires dir != [] && AllWhole(dir) && Whole(n) && !(Names(oldpath) <= dir + [n])
    requires IsList(s.fs, dir) && Lookup(s.fs, dir + [n]).Some? && Lookup(s.fs, dir + [""]).None?
    ensures var (s', r) := Rename(s, oldpath, Abs(dir) + "//" + n, budget);
            r == Done(true) && !Plain(s'.fs)
  {
    var newpath := Abs(dir) + "//" + n;
    DoubledSought(dir, n);
    DoubledDirname(dir, n);
    NotBelowNothing(s.fs, dir, "", [n]);
    hide Names, Dirname, Basename, GetPath, GetFile, Proper, Lookup, BelowBytes, Attach, Detached, IndexOf, IsList,
        Plain, Grown, Sought, Abs, AllWhole;
    var a := Names(oldpath);
    GetFileIsLocate(s.fs, newpath, true, budget);
    LookedFor(s.fs, oldpath, budget);
    Leaves(s.fs, oldpath, n, budget);
    var was, from := GetFile(s.fs, oldpath, true, budget).at, GetPath(s.fs, Dirname(oldpath), true, budget).at;
    var t1 := Detached(s.fs, was, from, IndexOf(Kids(At(s.fs, from)), At(s.fs, was)).value, n);
    TakenOutPlain(s.fs, t1, a);
    assert !(a <= dir) by { NotPrefix(a, dir, n); }
    StaysList(s.fs, t1, a, dir);
    Attaches(s, t1, Lookup(s.fs, a).value.(name := n), Dirname(newpath), budget);
    assert Basename(newpath) == n by { LastIs(Names(Dirname(newpath)), Basename(newpath), n); }
    RenameKeepsDistinctExactly(s, oldpath, newpath, budget);
  }

  lemma NotPrefix(a: seq<string>, dir: seq<string>, n: string)
    requires !(a <= dir + [n])
    ensures !(a <= dir)
  {
  }

  lemma LastIs(dir: seq<string>, m: string, n: string)
    requires dir + [m] == dir + [n]
    ensures m == n
  {
    assert (dir + [m])[|dir|] == (dir + [n])[|dir|];
  }

  lemma StaysList(t: Entry, t1: Entry, a: seq<string>, dir: seq<string>)
    requires TakenOut(t, t1, a) && IsList(t, dir) && !(a <= dir)
    ensures IsList(t1, dir)
  {
    hide Lookup;
    assert GraftedAt(t, t1, a, None, dir);
  }
}
