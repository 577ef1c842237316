/** What each operation does to a tree without links, when it succeeds, and what undoes it. */
module FsEffects {
  import opened Sequences
  import opened Paths
  import opened FsTree
  import opened FsWalkers
  import opened FsAgreement
  import opened Filesystem
  import opened FsPaths
  import opened FsGraft

  /** There is something there that holds a list of entries. */
  predicate IsList(t: Entry, names: seq<string>) {
    Lookup(t, names).Some? && Lookup(t, names).value.contents.Children?
  }

  lemma Resplit(names: seq<string>)
    requires names != []
    ensures Front(names) + [Last(names)] == names
  {
  }

  /** The place of an entry: its directory's, then its index there. */
  lemma LocateLast(t: Entry, dir: seq<string>, n: string)
    ensures Locate(t, dir + [n])
            == if Locate(t, dir).None? then None
               else
                 var at := Locate(t, dir).value;
                 var k := Named(Kids(At(t, at)), n);
                 if k.None? then None else Some(at + [k.value])
    ensures Lookup(t, dir + [n]) == if Lookup(t, dir).None? then None else Listed(Kids(Lookup(t, dir).value), n)
  {
    LocateConcat(t, dir, [n]);
    if Locate(t, dir).Some? {
      var at := Locate(t, dir).value;
      LocateOne(At(t, at), n);
      if Named(Kids(At(t, at)), n).Some? {
        HasKid(t, at, Named(Kids(At(t, at)), n).value);
      }
    }
  }

  lemma LocateOne(e: Entry, n: string)
    ensures Locate(e, [n]) == if Named(Kids(e), n).None? then None else Some([Named(Kids(e), n).value])
  {
    LocateHead(e, [n]);
    assert [n][1..] == [];
    var k := Named(Kids(e), n);
    if k.Some? {
      assert Locate(Kids(e)[k.value], []) == Some([]) && [k.value] + [] == [k.value];
    }
  }

  lemma {:induction false} NotBelowBytes(t: Entry, dir: seq<string>, n: string)
    requires IsList(t, dir)
    ensures !BelowBytes(t, dir + [n])
    decreases |dir|
  {
    var names := dir + [n];
    if dir == [] {
      LookupNothing(t);
      assert names[1..] == [];
      BelowHead(t, names);
    } else {
      assert names[1..] == dir[1..] + [n] && names[0] == dir[0];
      LookupHead(t, dir[0], dir[1..]);
      assert dir == [dir[0]] + dir[1..];
      BelowHead(t, names);
      NotBelowBytes(Kids(t)[Named(Kids(t), dir[0]).value], dir[1..], n);
    }
  }

  lemma BelowHead(t: Entry, names: seq<string>)
    requires names != [] && t.contents.Children?
    ensures var k := Named(Kids(t), names[0]);
            BelowBytes(t, names) <==> k.Some? && BelowBytes(Kids(t)[k.value], names[1..])
    ensures forall e: Entry :: !BelowBytes(e, [])
  {
  }

  lemma PlaceIsPlain(t: Entry, at: Position)
    requires Plain(t) && Has(t, at)
    ensures Plain(At(t, at)) && Distinct(Kids(At(t, at)))
  {
    AllAt(DistinctKids, t, at);
    AllAt(NoLink, t, at);
    assert DistinctKids(At(t, at));
  }

  /** A list of plain, distinct entries keeps the tree plain; a list that is not distinct does not. */
  lemma WithKidsPlain(t: Entry, at: Position, kids: seq<Entry>)
    requires Plain(t) && Has(t, at)
    requires forall k: nat :: k < |kids| ==> Plain(kids[k])
    ensures Plain(WithKids(t, at, kids)) <==> Distinct(kids)
  {
    var x := At(t, at).(contents := Children(kids));
    PlaceIsPlain(t, at);
    PutHas(t, at, x);
    if Distinct(kids) {
      assert All(DistinctKids, x) && All(NoLink, x);
      PutDistinct(t, at, x);
      PutNoLink(t, at, x);
    } else if Plain(WithKids(t, at, kids)) {
      PlaceIsPlain(Put(t, at, x), at);
    }
  }

  lemma KidsPlain(t: Entry, at: Position)
    requires Plain(t) && Has(t, at)
    ensures Distinct(Kids(At(t, at))) && forall k: nat :: k < |Kids(At(t, at))| ==> Plain(Kids(At(t, at))[k])
  {
    PlaceIsPlain(t, at);
  }

  // ---------------------------------------------------------------- mkfile

  /** The list with one name (re)filled. */
  lemma Refilled(kids: seq<Entry>, x: Entry)
    requires Distinct(kids)
    ensures OnlyAt(kids, Dropping(kids, x.name) + [x], x.name, Some(x)) && Distinct(Dropping(kids, x.name) + [x])
  {
    forall m
      ensures Listed(Dropping(kids, x.name) + [x], m) == if m == x.name then Some(x) else Listed(kids, m)
    {
      ListedDropping(kids, x.name, m);
      ListedAppend(Dropping(kids, x.name), x, m);
    }
    ListedDropping(kids, x.name, x.name);
    AppendDistinct(Dropping(kids, x.name), x);
  }

  /** Main result: `mkfile` succeeds exactly below its quota, outside the protected directories and
      under something that holds a list. It then shows the new file at the path, in place of what
      was there, and changes nothing else; if it does not succeed it changes nothing. */
  lemma MkfileEffect(s: State, path: string, uid: int, gid: int, size: int, mode: int, ctime: int, budget: nat)
    requires Plain(s.fs) && budget > 0
    ensures var (s', r) := Mkfile(s, path, uid, gid, size, mode, ctime, budget);
            var parent, dir := Dirname(path), Names(Dirname(path));
            && MAX_NEW == 10000
            && (Special(parent) <==> "/sys" <= parent || "/proc" <= parent || "/dev/pts" <= parent)
            && (r == Done(true) <==> s.newcount <= MAX_NEW && !Special(parent) && IsList(s.fs, dir))
            && (r == Done(true) ==>
                  && s'.newcount == s.newcount + 1
                  && Grafted(s.fs, s'.fs, dir + [Basename(path)],
                             Some(Entry(Basename(path), File, uid, gid, size, mode, ctime, Children([]), None, None))))
            && (r != Done(true) ==> s' == s)
            && (s.newcount > MAX_NEW ==> r == Done(false))
            && (s.newcount <= MAX_NEW && Special(parent) ==> r == Failed(PermissionDenied))
            && (s.newcount <= MAX_NEW && !Special(parent) && Lookup(s.fs, dir).None? ==> r == Failed(FileNotFound))
            && (s.newcount <= MAX_NEW && !Special(parent) && Lookup(s.fs, dir).Some? && !IsList(s.fs, dir) ==>
                  r == Failed(AttributeError) || r == Failed(TypeError))
  {
    assert Special(Dirname(path))
        <==> "/sys" <= Dirname(path) || "/proc" <= Dirname(path) || "/dev/pts" <= Dirname(path);
    hide Names, Dirname, Basename, Special, Locate, GetPath, Dropping, Grafted;
    GetPathIsLocate(s.fs, Dirname(path), true, budget);
    if IsList(s.fs, Names(Dirname(path))) {
      var at := Locate(s.fs, Names(Dirname(path))).value;
      var kids, x := Kids(At(s.fs, at)), NewEntry(Basename(path), File, uid, gid, size, mode, ctime);
      PlaceIsPlain(s.fs, at);
      Refilled(kids, x);
      KidsGraft(s.fs, Names(Dirname(path)), at, Dropping(kids, x.name) + [x], x.name, Some(x));
    }
  }

  // ---------------------------------------------------------------- mkdir2

  lemma Appended(kids: seq<Entry>, x: Entry)
    requires Named(kids, x.name).None?
    ensures OnlyAt(kids, kids + [x], x.name, Some(x))
  {
    forall m
      ensures Listed(kids + [x], m) == if m == x.name then Some(x) else Listed(kids, m)
    {
      ListedAppend(kids, x, m);
    }
  }

  /** What `mkdir2` asks for before it adds anything. */
  predicate CanMkdir(s: State, names: seq<string>)
    requires names != []
  {
    s.newcount <= MAX_NEW && Lookup(s.fs, names).None? && IsList(s.fs, Front(names))
  }

  /** Main result: the same for `mkdir2`, which adds an empty directory where nothing was. */
  lemma Mkdir2Effect(s: State, path: string, ctime: int, budget: nat)
    requires Plain(s.fs) && Proper(path) && budget > 0
    ensures Names(path) != []
    ensures var (s', r) := Mkdir2(s, path, ctime, budget);
            var x := NewEntry(Last(Names(path)), Dir, 0, 0, 4096, 16877, ctime);
            && (r == Done(true) <==> CanMkdir(s, Names(path)))
            && (r == Done(true) ==>
                  && s'.newcount == s.newcount + 1 && s'.fs == Grown(s.fs, Front(Names(path)), x)
                  && Grafted(s.fs, s'.fs, Names(path), Some(x)))
            && (r != Done(true) ==> s' == s)
            && x == Entry(Last(Names(path)), Dir, 0, 0, 4096, 16877, ctime, Children([]), None, None)
            && (Lookup(s.fs, Names(path)).Some? ==> r == Failed(Exists))
            && (Lookup(s.fs, Names(path)).None? && !BelowBytes(s.fs, Names(path)) ==>
                  && (s.newcount > MAX_NEW ==> r == Failed(Quota))
                  && (s.newcount <= MAX_NEW && Lookup(s.fs, Front(Names(path))).None? ==> r == Failed(NoEntry)))
  {
    hide Names, Dirname, Basename, Locate, GetPath, GetFile, LStrip, RStrip, Proper, Grafted, BelowBytes;
    ProperSpells(path);
    StrippedFront(path);
    var names := Names(path);
    var dir, x := Front(names), NewEntry(Last(names), Dir, 0, 0, 4096, 16877, ctime);
    Resplit(names);
    GetFileIsLocate(s.fs, path, true, budget);
    GetPathIsLocate(s.fs, Dirname(LStrip(RStrip(path))), true, budget);
    if IsList(s.fs, dir) {
      NotBelowBytes(s.fs, dir, x.name);
      LocateLast(s.fs, dir, x.name);
      if Lookup(s.fs, names).None? {
        var at := Locate(s.fs, dir).value;
        Appended(Kids(At(s.fs, at)), x);
        KidsGraft(s.fs, dir, at, Kids(At(s.fs, at)) + [x], x.name, Some(x));
      }
    }
  }

  /** The tree with an entry added at the end of a directory. */
  function Grown(t: Entry, dir: seq<string>, x: Entry): Entry {
    var at := Locate(t, dir);
    if at.None? then t else WithKids(t, at.value, Kids(At(t, at.value)) + [x])
  }

  // ---------------------------------------------------------------- remove and rmdir

  /** The tree without the entry at a position, all others in their order. */
  function Cut(t: Entry, at: Position): Entry
    requires at != [] && Has(t, Front(at)) && Last(at) < |Kids(At(t, Front(at)))|
  {
    WithKids(t, Front(at), Without(Kids(At(t, Front(at))), Last(at)))
  }

  /** The entry at `names` taken out, and nothing else: `names` and all below show nothing, every
      other path shows what it did. */
  ghost predicate TakenOut(t: Entry, t': Entry, names: seq<string>) {
    && Locate(t, names).Some?
    && (var at := Locate(t, names).value;
        at != [] && Has(t, Front(at)) && Last(at) < |Kids(At(t, Front(at)))| && t' == Cut(t, at))
    && Grafted(t, t', names, None)
  }

  lemma TakingOut(t: Entry, dir: seq<string>, n: string, at: Position, k: nat)
    requires All(DistinctKids, t) && Locate(t, dir) == Some(at) && Named(Kids(At(t, at)), n) == Some(k)
    ensures TakenOut(t, WithKids(t, at, Without(Kids(At(t, at)), k)), dir + [n])
    ensures IndexOf(Kids(At(t, at)), Kids(At(t, at))[k]) == Some(k)
  {
    hide Locate, Without, Grafted, IndexOf;
    var kids := Kids(At(t, at));
    AllAt(DistinctKids, t, at);
    assert DistinctKids(At(t, at));
    LocateLast(t, dir, n);
    assert Front(at + [k]) == at && Last(at + [k]) == k;
    IndexOfSelf(kids, k);
    forall m
      ensures Listed(Without(kids, k), m) == if m == n then None else Listed(kids, m)
    {
      ListedWithout(kids, k, m);
    }
    KidsGraft(t, dir, at, Without(kids, k), n, None);
  }

  /** Main result: on a path that leads through no link, whatever links the tree has, `remove` succeeds
      exactly when the path is there. Though it removes by value, what goes is exactly the entry that
      was looked up, and if that is a link, not what it leads to. */
  lemma RemoveEffect(s: State, path: string, budget: nat)
    requires All(DistinctKids, s.fs) && Clear(s.fs, Names(path), false) && Proper(path) && budget > 0
    ensures var (s', r) := Remove(s, path, budget);
            && r == (if Lookup(s.fs, Names(path)).Some? then Done(true)
                     else Failed(if BelowBytes(s.fs, Names(path)) then TypeError else NoEntry))
            && (r == Done(true) ==> s'.newcount == s.newcount && TakenOut(s.fs, s'.fs, Names(path)))
            && (r != Done(true) ==> s' == s)
  {
    ProperSpells(path);
    var names := Names(path);
    assert NoLinkAlong(s.fs, Names(Dirname(path)));
    hide Names, Dirname, Basename, Locate, GetPath, GetFile, Proper, TakenOut, BelowBytes, Without, IndexOf, Clear,
        NoLinkAlong;
    var dir, n := Front(names), Last(names);
    Resplit(names);
    GetFileAlong(s.fs, path, false, budget);
    GetPathAlong(s.fs, Dirname(path), true, budget);
    LocateLast(s.fs, dir, n);
    if Locate(s.fs, names).Some? {
      var at := Locate(s.fs, dir).value;
      var k := Named(Kids(At(s.fs, at)), n).value;
      HasKid(s.fs, at, k);
      TakingOut(s.fs, dir, n, at, k);
    }
  }

  lemma ClearWhenPlain(t: Entry, names: seq<string>)
    requires Plain(t)
    ensures All(DistinctKids, t) && Clear(t, names, false)
  {
    PlainIsClear(t, names);
  }

  predicate CanRmdir(t: Entry, names: seq<string>) {
    Lookup(t, names).Some? && Lookup(t, names).value.kind == Dir && Size(Lookup(t, names).value.contents) == 0
  }

  lemma {:induction false} NoLinkToTheEnd(t: Entry, names: seq<string>)
    requires names != [] && NoLinkAlong(t, Front(names))
    requires Lookup(t, names).Some? && !Lookup(t, names).value.kind.Link?
    ensures NoLinkAlong(t, names)
    decreases |names|
  {
    LookupHead(t, names[0], names[1..]);
    assert names == [names[0]] + names[1..];
    var kid := Kids(t)[Named(Kids(t), names[0]).value];
    if |names| > 1 {
      assert Front(names)[1..] == Front(names[1..]) && Front(names)[0] == names[0];
      NoLinkToTheEnd(kid, names[1..]);
    } else {
      assert names[1..] == [];
      LookupNothing(kid);
    }
  }

  /** What `rmdir` answers, failures in their order. */
  function RmdirAnswer(t: Entry, names: seq<string>): Result {
    var e := Lookup(t, names);
    if e.None? then Failed(if BelowBytes(t, names) then TypeError else Exists)
    else if e.value.kind != Dir then Failed(NotDirectory)
    else if Size(e.value.contents) > 0 then Failed(NotEmpty)
    else Done(true)
  }

  /** Main result: on such a path `rmdir` succeeds exactly on an empty directory, not on a link to one,
      and takes out just that. A slash at the end makes no difference. */
  lemma RmdirEffect(s: State, path: string, budget: nat)
    requires All(DistinctKids, s.fs) && Clear(s.fs, Names(path), false) && Proper(RStrip(path)) && budget > 0
    ensures var (s', r) := Rmdir(s, path, budget);
            && r == RmdirAnswer(s.fs, Names(path)) && (r == Done(true) <==> CanRmdir(s.fs, Names(path)))
            && (r == Done(true) ==> s'.newcount == s.newcount && TakenOut(s.fs, s'.fs, Names(path)))
            && (r != Done(true) ==> s' == s)
  {
    hide Names, Dirname, Basename, Locate, GetPath, GetFile, Proper, RStrip, TakenOut, BelowBytes, Without, Clear, All,
        At, Has, WithKids, Dropping, NoLinkAlong, Named;
    NamesRStrip(path);
    ProperSpells(RStrip(path));
    RmdirLooks(s.fs, RStrip(path), budget);
  }

  /** What `rmdir` meets on its way. */
  lemma RmdirLooks(t: Entry, p: string, budget: nat)
    requires All(DistinctKids, t) && Clear(t, Names(p), false) && Proper(p) && budget > 0
    ensures var names := Names(p);
            && GetFile(t, p, false, budget) == Looked(Locate(t, names), BelowBytes(t, names))
            && (Locate(t, names).Some? && Lookup(t, names).value.kind == Dir ==>
                  var parent := GetPath(t, Dirname(p), true, budget);
                  && GetPath(t, p, true, budget) == Found(Locate(t, names).value)
                  && parent.Found? && At(t, parent.at).contents.Children?
                  && var kids := Kids(At(t, parent.at));
                     && Named(kids, Basename(p)).Some?
                     && TakenOut(t, WithKids(t, parent.at, Dropping(kids, Basename(p))), names))
  {
    ProperSpells(p);
    var names := Names(p);
    assert NoLinkAlong(t, Front(names));
    GetFileAlong(t, p, false, budget);
    hide Names, Dirname, Basename, Locate, GetPath, GetFile, Proper, RStrip, TakenOut, BelowBytes, Without, Clear,
        NoLinkAlong;
    var dir, n := Front(names), Last(names);
    Resplit(names);
    LocateLast(t, dir, n);
    if Locate(t, names).Some? && Lookup(t, names).value.kind == Dir {
      GetPathAlong(t, Dirname(p), true, budget);
      NoLinkToTheEnd(t, names);
      GetPathAlong(t, p, true, budget);
      var at := Locate(t, dir).value;
      TakingOut(t, dir, n, at, Named(Kids(At(t, at)), n).value);
    }
  }

  // ---------------------------------------------------------------- undoing

  lemma GrowAndCut(t: Entry, at: Position, x: Entry)
    requires Has(t, at) && At(t, at).contents.Children?
    ensures var kids := Kids(At(t, at)); var t' := WithKids(t, at, kids + [x]);
            && Has(t', at) && Kids(At(t', at)) == kids + [x]
            && WithKids(t', at, Without(kids + [x], |kids|)) == t
  {
    var kids := Kids(At(t, at));
    var y := At(t, at).(contents := Children(kids + [x]));
    PutHas(t, at, y);
    assert Without(kids + [x], |kids|) == kids;
    PutPut(t, at, y, y.(contents := Children(kids)));
    assert y.(contents := Children(kids)) == At(t, at);
    PutSame(t, at);
  }

  lemma {:induction false} LocateKept(t: Entry, dir: seq<string>, at: Position, kids: seq<Entry>)
    requires Locate(t, dir) == Some(at)
    ensures Locate(WithKids(t, at, kids), dir) == Some(at)
    decreases |dir|
  {
    if dir != [] {
      hide Locate;
      var t' := WithKids(t, at, kids);
      GraftBelow(t, dir, at, kids, "");
      NamedUpdate(Kids(t), at[0], WithKids(Kids(t)[at[0]], at[1..], kids), dir[0]);
      LocateKept(Kids(t)[at[0]], dir[1..], at[1..], kids);
      LocateHead(t', dir);
      assert [at[0]] + at[1..] == at;
    }
  }

  /** Taking a fresh entry out again restores the tree, order included. */
  lemma GrownAndTakenOut(t: Entry, dir: seq<string>, x: Entry, t': Entry)
    requires Plain(t) && IsList(t, dir) && Lookup(t, dir + [x.name]).None?
    requires TakenOut(Grown(t, dir, x), t', dir + [x.name])
    ensures t' == t
  {
    hide Locate, Grafted, Without;
    var at := Locate(t, dir).value;
    var kids, n := Kids(At(t, at)), x.name;
    var t1 := WithKids(t, at, kids + [x]);
    LocateLast(t, dir, n);
    LocateKept(t, dir, at, kids + [x]);
    GrowAndCut(t, at, x);
    LocateLast(t1, dir, n);
    NamedLast(kids, x);
    assert Locate(t1, dir + [n]) == Some(at + [|kids|]);
    assert Front(at + [|kids|]) == at && Last(at + [|kids|]) == |kids|;
  }

  lemma NamedLast(kids: seq<Entry>, x: Entry)
    requires Named(kids, x.name).None?
    ensures Named(kids + [x], x.name) == Some(|kids|)
  {
    NamedNone(kids, x.name);
    assert forall j :: 0 <= j < |kids| ==> (kids + [x])[j] == kids[j];
    NamedFirst(kids + [x], x.name, |kids|);
  }

  lemma GrownPlain(t: Entry, dir: seq<string>, x: Entry)
    requires Plain(t) && IsList(t, dir) && Plain(x) && Lookup(t, dir + [x.name]).None?
    ensures Plain(Grown(t, dir, x))
  {
    hide Locate, DistinctKids, NoLink, WithKids;
    var at := Locate(t, dir).value;
    var kids := Kids(At(t, at));
    LocateLast(t, dir, x.name);
    KidsPlain(t, at);
    AppendDistinct(kids, x);
    assert forall k: nat :: k < |kids + [x]| ==> (kids + [x])[k] == if k < |kids| then kids[k] else x;
    hide Plain;
    WithKidsPlain(t, at, kids + [x]);
  }

  lemma GrownShows(t: Entry, dir: seq<string>, x: Entry)
    requires IsList(t, dir) && Lookup(t, dir + [x.name]).None?
    ensures Lookup(Grown(t, dir, x), dir + [x.name]) == Some(x)
  {
    hide Locate;
    var at := Locate(t, dir).value;
    var kids := Kids(At(t, at));
    LocateLast(t, dir, x.name);
    LocateKept(t, dir, at, kids + [x]);
    PutHas(t, at, At(t, at).(contents := Children(kids + [x])));
    LocateLast(Grown(t, dir, x), dir, x.name);
    NamedLast(kids, x);
  }

  /** Main result: `rmdir` undoes `mkdir2` exactly. */
  lemma MkdirThenRmdir(s: State, path: string, ctime: int, budget: nat)
    requires Plain(s.fs) && Proper(path) && budget > 0
    requires Mkdir2(s, path, ctime, budget).1 == Done(true)
    ensures Rmdir(Mkdir2(s, path, ctime, budget).0, path, budget) == (State(s.fs, s.newcount + 1), Done(true))
  {
    hide Names, Mkdir2, Rmdir, Proper, Plain, Grafted, TakenOut, Grown, Lookup, IsList;
    Mkdir2Effect(s, path, ctime, budget);
    var names := Names(path);
    var dir, x := Front(names), NewEntry(Last(names), Dir, 0, 0, 4096, 16877, ctime);
    Resplit(names);
    NewIsPlain(Last(names), Dir, 0, 0, 4096, 16877, ctime);
    GrownPlain(s.fs, dir, x);
    GrownShows(s.fs, dir, x);
    var s1 := Mkdir2(s, path, ctime, budget).0;
    assert RStrip(path) == path by { ProperSpells(path); }
    ClearWhenPlain(s1.fs, Names(path));
    RmdirEffect(s1, path, budget);
    GrownAndTakenOut(s.fs, dir, x, Rmdir(s1, path, budget).0.fs);
  }

  lemma NewIsPlain(name: string, kind: Kind, uid: int, gid: int, size: int, mode: int, ctime: int)
    requires kind != Link
    ensures Plain(NewEntry(name, kind, uid, gid, size, mode, ctime))
  {
  }

  lemma MkfileGrows(s: State, path: string, uid: int, gid: int, size: int, mode: int, ctime: int, budget: nat)
    requires Plain(s.fs) && Proper(path) && budget > 0 && Lookup(s.fs, Names(path)).None?
    requires Mkfile(s, path, uid, gid, size, mode, ctime, budget).1 == Done(true)
    ensures Names(path) != [] && IsList(s.fs, Front(Names(path)))
    ensures var x := NewEntry(Last(Names(path)), File, uid, gid, size, mode, ctime);
            Mkfile(s, path, uid, gid, size, mode, ctime, budget).0
            == State(Grown(s.fs, Front(Names(path)), x), s.newcount + 1)
  {
    hide Names, Dirname, Basename, Special, Locate, GetPath, Proper;
    ProperSpells(path);
    var names := Names(path);
    Resplit(names);
    MkfileEffect(s, path, uid, gid, size, mode, ctime, budget);
    GetPathIsLocate(s.fs, Dirname(path), true, budget);
    LocateLast(s.fs, Front(names), Last(names));
  }

  /** Main result: `remove` undoes `mkfile` of a fresh name exactly. */
  lemma MkfileThenRemove(s: State, path: string, uid: int, gid: int, size: int, mode: int, ctime: int, budget: nat)
    requires Plain(s.fs) && Proper(path) && budget > 0 && Lookup(s.fs, Names(path)).None?
    requires Mkfile(s, path, uid, gid, size, mode, ctime, budget).1 == Done(true)
    ensures Remove(Mkfile(s, path, uid, gid, size, mode, ctime, budget).0, path, budget)
            == (State(s.fs, s.newcount + 1), Done(true))
  {
    MkfileGrows(s, path, uid, gid, size, mode, ctime, budget);
    hide Names, Mkfile, Remove, Proper, Plain, TakenOut, Grown, Lookup, IsList;
    var names := Names(path);
    var dir, x := Front(names), NewEntry(Last(names), File, uid, gid, size, mode, ctime);
    Resplit(names);
    NewIsPlain(Last(names), File, uid, gid, size, mode, ctime);
    GrownPlain(s.fs, dir, x);
    GrownShows(s.fs, dir, x);
    var s1 := Mkfile(s, path, uid, gid, size, mode, ctime, budget).0;
    ClearWhenPlain(s1.fs, Names(path));
    RemoveEffect(s1, path, budget);
    GrownAndTakenOut(s.fs, dir, x, Remove(s1, path, budget).0.fs);
  }
}
