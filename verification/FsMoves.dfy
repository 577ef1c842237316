/** `rename` and `cp` on a tree without links: what every path shows afterwards, and when an entry is lost. */
module FsMoves {
  import opened Sequences
  import opened Paths
  import opened FsTree
  import opened FsWalkers
  import opened FsAgreement
  import opened Filesystem
  import opened FsPaths
  import opened FsGraft
  import opened FsEffects

  // ---------------------------------------------------------------- rename

  /** What `rename` checks before it changes anything. */
  predicate Movable(t: Entry, a: seq<string>, b: seq<string>) {
    Lookup(t, a).Some? && Lookup(t, b).None? && !BelowBytes(t, b)
  }

  /** What it does not check: the new parent holds a list, and is not inside what moves. */
  predicate HasRoom(t: Entry, a: seq<string>, b: seq<string>)
    requires b != []
  {
    IsList(t, Front(b)) && !(a <= b)
  }

  /** What the path along `q` shows after `a` moved to `b`. */
  ghost predicate MovedAt(t: Entry, t': Entry, a: seq<string>, b: seq<string>, q: seq<string>)
    requires b != [] && Lookup(t, a).Some?
  {
    if b <= q then Lookup(t', q) == Lookup(Lookup(t, a).value.(name := Last(b)), q[|b|..])
    else if a <= q then Lookup(t', q) == None
    else if q <= a || q <= b then
      Lookup(t, q).Some? && Lookup(t', q).Some? && Attributes(Lookup(t', q).value) == Attributes(Lookup(t, q).value)
    else Lookup(t', q) == Lookup(t, q)
  }

  ghost predicate Moved(t: Entry, t': Entry, a: seq<string>, b: seq<string>)
    requires b != [] && Lookup(t, a).Some?
  {
    forall q :: MovedAt(t, t', a, b, q)
  }

  lemma MovedPoint(t: Entry, t1: Entry, t2: Entry, a: seq<string>, b: seq<string>, q: seq<string>)
    requires b != [] && Lookup(t, a).Some? && !(a <= b) && !(b <= a)
    requires GraftedAt(t, t1, a, None, q)
    requires GraftedAt(t1, t2, b, Some(Lookup(t, a).value.(name := Last(b))), q)
    ensures MovedAt(t, t2, a, b, q)
  {
    hide Lookup, Attributes;
    if b <= q && a <= q {
      Chained(a, b, q);
    }
    if q <= b && a <= q {
      Longer(a, q, b);
    }
  }

  lemma Longer(a: seq<string>, q: seq<string>, b: seq<string>)
    requires a <= q && q <= b
    ensures a <= b
  {
  }

  lemma Chained(a: seq<string>, b: seq<string>, q: seq<string>)
    requires a <= q && b <= q
    ensures a <= b || b <= a
  {
    assert a == q[..|a|] && b == q[..|b|];
  }

  /** The first half of `rename`: the entry leaves its directory. */
  lemma Leaves(t: Entry, path: string, name: string, budget: nat)
    requires Plain(t) && Proper(path) && budget > 0 && Lookup(t, Names(path)).Some?
    ensures GetFile(t, path, true, budget).Found? && GetPath(t, Dirname(path), true, budget).Found?
    ensures var was, dir := GetFile(t, path, true, budget).at, GetPath(t, Dirname(path), true, budget).at;
            && At(t, was) == Lookup(t, Names(path)).value && At(t, dir).contents.Children?
            && var k := IndexOf(Kids(At(t, dir)), At(t, was));
               k.Some? && TakenOut(t, Detached(t, was, dir, k.value, name), Names(path))
  {
    hide Names, Dirname, Basename, Locate, GetPath, GetFile, Proper, TakenOut, BelowBytes, Without, IndexOf;
    ProperSpells(path);
    var names := Names(path);
    var dir, n := Front(names), Last(names);
    Resplit(names);
    GetFileIsLocate(t, path, true, budget);
    GetPathIsLocate(t, Dirname(path), true, budget);
    LocateLast(t, dir, n);
    var at := Locate(t, dir).value;
    var k := Named(Kids(At(t, at)), n).value;
    HasKid(t, at, k);
    TakingOut(t, dir, n, at, k);
  }

  lemma TakenOutPlain(t: Entry, t': Entry, names: seq<string>)
    requires Plain(t) && TakenOut(t, t', names)
    ensures Plain(t')
  {
    hide Locate, Grafted, WithKids, Without;
    var at := Locate(t, names).value;
    KidsPlain(t, Front(at));
    hide Plain;
    var kids := Kids(At(t, Front(at)));
    WithoutDistinct(kids, Last(at));
    WithoutAt(kids, Last(at));
    WithKidsPlain(t, Front(at), Without(kids, Last(at)));
  }

  /** The second half: it arrives in the new directory, or is lost when there is none. */
  lemma Arrives(s: State, t: Entry, x: Entry, path: string, budget: nat)
    requires Plain(t) && Proper(path) && budget > 0 && Lookup(t, Names(path)).None? && x.name == Last(Names(path))
    ensures Names(path) != []
    ensures var (s', r) := Attach(s, t, x, Dirname(path), budget);
            && s'.newcount == s.newcount
            && (if IsList(t, Front(Names(path)))
                then r == Done(true) && s'.fs == Grown(t, Front(Names(path)), x)
                     && Grafted(t, s'.fs, Names(path), Some(x))
                else r.Failed? && s'.fs == t)
  {
    hide Names, Dirname, Basename, Locate, GetPath, Proper, Grafted;
    ProperSpells(path);
    var names := Names(path);
    var dir, n := Front(names), Last(names);
    Resplit(names);
    GetPathIsLocate(t, Dirname(path), true, budget);
    if IsList(t, dir) {
      LocateLast(t, dir, n);
      var at := Locate(t, dir).value;
      Appended(Kids(At(t, at)), x);
      KidsGraft(t, dir, at, Kids(At(t, at)) + [x], n, Some(x));
    }
  }

  lemma RoomLeft(t: Entry, t1: Entry, a: seq<string>, b: seq<string>)
    requires b != [] && Grafted(t, t1, a, None) && Movable(t, a, b)
    ensures !(b <= a) && Lookup(t1, b).None?
    ensures IsList(t1, Front(b)) == HasRoom(t, a, b)
  {
    hide Lookup, BelowBytes;
    Resplit(b);
    assert GraftedAt(t, t1, a, None, b);
    assert GraftedAt(t, t1, a, None, Front(b));
    if b <= a {
      LookupPrefix(t, b, a);
    }
    if a <= b {
      assert a != b && a <= Front(b);
    }
  }

  lemma LookupPrefix(t: Entry, q: seq<string>, names: seq<string>)
    requires q <= names && Lookup(t, names).Some?
    ensures Lookup(t, q).Some?
  {
    assert names == q + names[|q|..];
    LookupConcat(t, q, names[|q|..]);
  }

  /** Main result: `rename` checks that the old path is there and the new one is not. It then moves
      the entry if the new parent holds a list and is not part of the entry itself; otherwise it
      fails and the entry is lost, all else staying as it was. */
  lemma RenameEffect(s: State, oldpath: string, newpath: string, budget: nat)
    requires Plain(s.fs) && Proper(oldpath) && Proper(newpath) && budget > 0
    ensures Names(newpath) != []
    ensures var (s', r) := Rename(s, oldpath, newpath, budget);
            var a, b := Names(oldpath), Names(newpath);
            && s'.newcount == s.newcount
            && (!Movable(s.fs, a, b) ==> r.Failed? && s' == s)
            && (Lookup(s.fs, a).None? && !BelowBytes(s.fs, a) ==> r == Failed(NoEntry))
            && (Lookup(s.fs, a).Some? && Lookup(s.fs, b).Some? ==> r == Failed(Exists))
            && (Movable(s.fs, a, b) && HasRoom(s.fs, a, b) ==> r == Done(true) && Moved(s.fs, s'.fs, a, b))
            && (Movable(s.fs, a, b) && !HasRoom(s.fs, a, b) ==> r.Failed? && TakenOut(s.fs, s'.fs, a))
  {
    hide Names, Dirname, Basename, GetPath, GetFile, Proper, Lookup, BelowBytes, Attach, Detached, IndexOf, HasRoom,
        IsList, Plain;
    ProperSpells(oldpath);
    ProperSpells(newpath);
    var a, b := Names(oldpath), Names(newpath);
    LookedFor(s.fs, oldpath, budget);
    LookedFor(s.fs, newpath, budget);
    if Movable(s.fs, a, b) {
      var x := Lookup(s.fs, a).value.(name := Last(b));
      Leaves(s.fs, oldpath, Last(b), budget);
      var was, dir := GetFile(s.fs, oldpath, true, budget).at, GetPath(s.fs, Dirname(oldpath), true, budget).at;
      var t1 := Detached(s.fs, was, dir, IndexOf(Kids(At(s.fs, dir)), At(s.fs, was)).value, Last(b));
      TakenOutPlain(s.fs, t1, a);
      RoomLeft(s.fs, t1, a, b);
      Arrives(s, t1, x, newpath, budget);
      var s' := Attach(s, t1, x, Dirname(newpath), budget).0;
      if HasRoom(s.fs, a, b) {
        assert !(a <= b) by { RoomMeans(s.fs, a, b); }
        MovedWhole(s.fs, t1, s'.fs, a, b);
      }
    }
  }

  lemma RoomMeans(t: Entry, a: seq<string>, b: seq<string>)
    requires b != [] && HasRoom(t, a, b)
    ensures !(a <= b)
  {
  }

  lemma LookedFor(t: Entry, path: string, budget: nat)
    requires Plain(t) && Proper(path) && budget > 0
    ensures var f, names := GetFile(t, path, true, budget), Names(path);
            && f.Found? == Lookup(t, names).Some?
            && (f.Found? ==> At(t, f.at) == Lookup(t, names).value)
            && (f.Raised? == (Lookup(t, names).None? && BelowBytes(t, names)))
  {
    ProperSpells(path);
    GetFileIsLocate(t, path, true, budget);
  }

  lemma MovedWhole(t: Entry, t1: Entry, t2: Entry, a: seq<string>, b: seq<string>)
    requires b != [] && Lookup(t, a).Some? && !(a <= b) && !(b <= a)
    requires Grafted(t, t1, a, None)
    requires Grafted(t1, t2, b, Some(Lookup(t, a).value.(name := Last(b))))
    ensures Moved(t, t2, a, b)
  {
    hide GraftedAt, MovedAt, Lookup;
    forall q
      ensures MovedAt(t, t2, a, b, q)
    {
      MovedPoint(t, t1, t2, a, b, q);
    }
  }

  lemma RenamedPlain(x: Entry, name: string)
    requires Plain(x)
    ensures Plain(x.(name := name))
  {
    assert Kids(x.(name := name)) == Kids(x);
  }

  lemma LookupPlain(t: Entry, names: seq<string>)
    requires Plain(t) && Lookup(t, names).Some?
    ensures Plain(Lookup(t, names).value)
  {
    PlaceIsPlain(t, Locate(t, names).value);
  }

  /** However `rename` ends, names stay distinct. */
  lemma RenameKeepsPlain(s: State, oldpath: string, newpath: string, budget: nat)
    requires Plain(s.fs) && Proper(oldpath) && Proper(newpath) && budget > 0
    ensures Plain(Rename(s, oldpath, newpath, budget).0.fs)
  {
    hide Names, Dirname, Basename, GetPath, GetFile, Proper, Lookup, BelowBytes, Attach, Detached, IndexOf, IsList,
        Plain, Grown;
    ProperSpells(oldpath);
    ProperSpells(newpath);
    var a, b := Names(oldpath), Names(newpath);
    LookedFor(s.fs, oldpath, budget);
    LookedFor(s.fs, newpath, budget);
    if Movable(s.fs, a, b) {
      var x := Lookup(s.fs, a).value.(name := Last(b));
      Leaves(s.fs, oldpath, Last(b), budget);
      var was, dir := GetFile(s.fs, oldpath, true, budget).at, GetPath(s.fs, Dirname(oldpath), true, budget).at;
      var t1 := Detached(s.fs, was, dir, IndexOf(Kids(At(s.fs, dir)), At(s.fs, was)).value, Last(b));
      TakenOutPlain(s.fs, t1, a);
      RoomLeft(s.fs, t1, a, b);
      Arrives(s, t1, x, newpath, budget);
      LookupPlain(s.fs, a);
      RenamedPlain(Lookup(s.fs, a).value, Last(b));
      Resplit(b);
      if IsList(t1, Front(b)) {
        GrownPlain(t1, Front(b), x);
      }
    }
  }

  // ---------------------------------------------------------------- update_size

  lemma {:induction false} PutKid(t: Entry, at: Position, k: nat, x: Entry)
    requires Has(t, at) && k < |Kids(At(t, at))|
    ensures Has(t, at + [k]) && Put(t, at + [k], x) == WithKids(t, at, Kids(At(t, at))[k := x])
    decreases |at|
  {
    HasKid(t, at, k);
    if at == [] {
      assert at + [k] == [k] && [k][1..] == [];
    } else {
      assert (at + [k])[1..] == at[1..] + [k];
      PutKid(Kids(t)[at[0]], at[1..], k, x);
    }
  }

  /** An entry replaced where it stands. */
  lemma PutEffect(t: Entry, dir: seq<string>, n: string, x: Entry)
    requires Plain(t) && Locate(t, dir + [n]).Some? && x.name == n
    ensures Grafted(t, Put(t, Locate(t, dir + [n]).value, x), dir + [n], Some(x))
  {
    hide Locate, Grafted, Put;
    LocateLast(t, dir, n);
    var at := Locate(t, dir).value;
    var kids := Kids(At(t, at));
    var k := Named(kids, n).value;
    PutKid(t, at, k, x);
    PlaceIsPlain(t, at);
    forall m
      ensures Listed(kids[k := x], m) == if m == n then Some(x) else Listed(kids, m)
    {
      ListedUpdate(kids, k, x, m);
    }
    KidsGraft(t, dir, at, kids[k := x], n, Some(x));
  }

  lemma PutPlain(t: Entry, at: Position, x: Entry)
    requires Plain(t) && Has(t, at) && Plain(x) && x.name == At(t, at).name
    ensures Plain(Put(t, at, x))
  {
    PutDistinct(t, at, x);
    PutNoLink(t, at, x);
  }

  lemma FinalSlash(t: Entry, path: string, follow: bool, budget: nat)
    requires Proper(RStrip(path))
    ensures GetFile(t, path, follow, budget) == GetFile(t, RStrip(path), follow, budget)
  {
    hide Descend, LStrip;
    ProperSpells(RStrip(path));
    assert RStrip("/") == "" && Names("") == [] by { NamesEmpty(); }
    AfterSlashMeans("/");
  }

  /** `update_size` changes the size of a file, and nothing else. A slash at the end makes no difference. */
  lemma SizeEffect(s: State, path: string, size: int, budget: nat)
    requires Plain(s.fs) && Proper(RStrip(path)) && budget > 0
    ensures var (s', r) := UpdateSize(s, path, size, budget);
            var file := Lookup(s.fs, Names(path));
            && s'.newcount == s.newcount
            && (if file.Some? && file.value.kind == File
                then Grafted(s.fs, s'.fs, Names(path), Some(file.value.(size := size)))
                else s' == s)
  {
    hide Names, Locate, GetFile, Proper, Grafted, BelowBytes, Put, RStrip;
    FinalSlash(s.fs, path, true, budget);
    NamesRStrip(path);
    ProperSpells(RStrip(path));
    GetFileIsLocate(s.fs, RStrip(path), true, budget);
    var names := Names(path);
    var dir, n := Front(names), Last(names);
    Resplit(names);
    LocateLast(s.fs, dir, n);
    if Locate(s.fs, names).Some? {
      PutEffect(s.fs, dir, n, Lookup(s.fs, names).value.(size := size));
    }
  }

  // ---------------------------------------------------------------- cp

  /** Main result: a copy shows the source's entry, under its new name, and changes nothing else. */
  lemma CopyEffect(s: State, src: string, recursive: bool, dir: string, name: string, budget: nat)
    requires Plain(s.fs) && budget > 0
    ensures var (s', r) := CopyOne(s, src, recursive, dir, name, budget);
            var from := Lookup(s.fs, Sought(src));
            && s'.newcount == s.newcount
            && (r == Done(true) <==>
                  && from.Some? && (recursive || (src != "/" && from.value.kind != Dir))
                  && IsList(s.fs, Names(dir)))
            && (r == Done(true) ==> Grafted(s.fs, s'.fs, Names(dir) + [name], Some(from.value.(name := name))))
            && (r != Done(true) ==> s' == s)
  {
    hide Names, Sought, Locate, GetPath, GetFile, Dropping, Grafted, BelowBytes;
    GetFileIsLocate(s.fs, src, true, budget);
    GetPathIsLocate(s.fs, dir, true, budget);
    if IsList(s.fs, Names(dir)) && Lookup(s.fs, Sought(src)).Some? {
      var at := Locate(s.fs, Names(dir)).value;
      var kids, x := Kids(At(s.fs, at)), Lookup(s.fs, Sought(src)).value.(name := name);
      PlaceIsPlain(s.fs, at);
      Refilled(kids, x);
      KidsGraft(s.fs, Names(dir), at, Dropping(kids, name) + [x], name, Some(x));
    }
  }
}
