/** Files sent to places whose directories exist and are not protected: all of them arrive. */
module ScpArrival {
  import opened Sequences
  import opened Bytes
  import opened Paths
  import opened FsTree
  import opened FsWalkers
  import opened FsAgreement
  import opened Filesystem
  import opened FsPaths
  import opened FsGraft
  import opened FsEffects
  import opened FsMoves
  import opened FsRuns
  import opened Scp
  import opened ScpRoundTrip

  /** Plain names are taken to lie in the directory `dir`. */
  ghost predicate LandsIn(c: Session, dir: seq<string>) {
    forall n :: Clean(n) ==> Target(c, n) == Some(Abs(dir + [n]))
  }

  lemma LandsInCwd(c: Session)
    requires c.outDir == "" && Canonical(c.cwd)
    ensures LandsIn(c, Names(c.cwd))
  {
    forall n | Clean(n)
      ensures Target(c, n) == Some(Abs(Names(c.cwd) + [n]))
    {
      NameResolves(c.home, n, Names(c.cwd));
    }
  }

  lemma JoinedPath(dir: seq<string>, n: string)
    requires AllClean(dir) && Clean(n)
    ensures PathJoin(Abs(dir), n) == Abs(dir + [n])
  {
    CleanIsWhole(dir);
    AbsSnoc(dir, n);
    assert n[0] in n;
    if dir == [] {
      JoinSmall(n);
    }
  }

  /** An absolute, canonical output directory. */
  lemma LandsInAbsolute(c: Session, dir: seq<string>)
    requires AllClean(dir) && c.outDir == Abs(dir)
    ensures LandsIn(c, dir)
  {
    forall n | Clean(n)
      ensures Target(c, n) == Some(Abs(dir + [n]))
    {
      JoinedPath(dir, n);
      Spelt(dir, n);
      assert c.outDir != "";
      hide Abs, PathJoin, Clean;
      AbsCanonical(dir + [n]);
      CanonicalIsFixed(c.home, Abs(dir + [n]), c.cwd);
    }
  }

  /** Any other output directory: where it leads to itself, so do the files in it. */
  lemma LandsInResolved(c: Session, dir: seq<string>)
    requires Canonical(c.cwd) && c.outDir != "" && c.outDir != "~" && AllClean(dir)
    requires Resolve(c.home, c.outDir, c.cwd) == Some(Abs(dir))
    ensures LandsIn(c, dir)
  {
    forall n | Clean(n)
      ensures Target(c, n) == Some(Abs(dir + [n]))
    {
      assert n[0] in n;
      if Last(c.outDir) == SLASH {
        SlashedDirectory(c, dir, n);
      } else {
        AbsCanonical(dir);
        assert |n| >= 2 ==> n[1] in n;
        ResolvesStepwise(c.home, c.outDir, n, c.cwd);
        NameResolves(c.home, n, dir);
      }
    }
  }

  lemma SlashedDirectory(c: Session, dir: seq<string>, n: string)
    requires Canonical(c.cwd) && c.outDir != "" && Last(c.outDir) == SLASH && AllClean(dir) && Clean(n)
    requires Resolve(c.home, c.outDir, c.cwd) == Some(Abs(dir))
    ensures Resolve(c.home, c.outDir + n, c.cwd) == Some(Abs(dir + [n]))
  {
    var out := Expand(c.home, c.outDir);
    SlashedExpand(c.home, c.outDir, n);
    var start := if out[0] == SLASH then [] else Names(c.cwd);
    SlashedNames(Front(out), n);
    assert out == Front(out) + [SLASH];
    WalkNames(start, out);
    WalkNames(start, out + n);
    WalkConcat(start, Names(out), [n]);
    WalkOne(Walk(start, Names(out)), n);
    NamesWhole(out);
    WalkClean(start, Names(out));
    AbsCanonical(Walk(start, Names(out)));
    AbsCanonical(dir);
  }

  lemma SlashedExpand(home: string, out: string, n: string)
    requires out != "" && Last(out) == SLASH && Clean(n)
    ensures Expand(home, out + n) == Expand(home, out) + n
    ensures Expand(home, out) != "" && Last(Expand(home, out)) == SLASH
  {
    if |out| >= 2 {
      assert (out + n)[..2] == out[..2] && (out + n)[1..] == out[1..] + n;
      assert home + (out[1..] + n) == home + out[1..] + n;
    } else {
      assert (out + n)[0] == SLASH;
    }
  }

  lemma SlashedNames(a: string, n: string)
    requires Clean(n)
    ensures Names(a + [SLASH]) == Names(a) && Names(a + [SLASH] + n) == Names(a) + [n]
  {
    NamesEmpty();
    assert a + [SLASH] + "" == a + [SLASH];
    NamesConcat(a, "");
    NamesConcat(a, n);
    NamesOfWhole(n);
    NonEmptyOne(n);
  }

  /** `~` as output directory is where it leads only with something after it: the home directory. */
  lemma LandsInHome(c: Session)
    requires c.outDir == "~" && Canonical(c.home)
    ensures LandsIn(c, Names(c.home))
  {
    forall n | Clean(n)
      ensures Target(c, n) == Some(Abs(Names(c.home) + [n]))
    {
      assert n[0] in n;
      assert PathJoin("~", n) == "~/" + n;
      TildeName(c.home, n, c.cwd);
    }
  }

  // ---------------------------------------------------------------- one file

  /** The name of the file leads to the place `p`. */
  predicate Goes(c: Session, name: seq<Byte>, p: seq<string>) {
    && p != [] && AllClean(p)
    && c.decode(name).Some? && Target(c, c.decode(name).value) == Some(Abs(p))
  }

  /** The directory is there, and not protected. */
  predicate Open(t: Entry, dir: seq<string>) {
    IsList(t, dir) && !Special(Abs(dir))
  }

  lemma SavePlain(c: Session, r: Received, dir: seq<string>, n: string, data: seq<Byte>)
    requires Plain(r.fs.fs) && c.budget > 0 && AllClean(dir) && Clean(n) && IsList(r.fs.fs, dir)
    ensures var path, e := Abs(dir + [n]), Lookup(r.fs.fs, dir + [n]);
            var (r', verdict) := SaveFile(c, r, data, path);
            && verdict == Accepted && r'.saved == r.saved + [(path, data)] && r'.fs.newcount == r.fs.newcount
            && Plain(r'.fs.fs)
            && (if e.None? then r'.fs == r.fs
                else Grafted(r.fs.fs, r'.fs.fs, dir + [n], Some(Stamped(c, e.value, data))))
  {
    hide Plain, Locate, GetFile, Abs, Grafted, Put, BelowBytes, Clean, Sought;
    var t, path := r.fs.fs, Abs(dir + [n]);
    Spelt(dir, n);
    GetFileIsLocate(t, path, true, c.budget);
    NotBelowBytes(t, dir, n);
    if Locate(t, dir + [n]).Some? {
      var at := Locate(t, dir + [n]).value;
      var e := At(t, at);
      LookupName(t, dir, n);
      LookupPlain(t, dir + [n]);
      StampedPlain(c, e, data);
      PutEffect(t, dir, n, Stamped(c, e, data));
      PutPlain(t, at, Stamped(c, e, data));
    }
  }

  lemma Spelt(dir: seq<string>, n: string)
    requires AllClean(dir) && Clean(n)
    ensures AllClean(dir + [n]) && Proper(Abs(dir + [n]))
    ensures Sought(Abs(dir + [n])) == dir + [n] == Names(Abs(dir + [n]))
  {
    assert AllClean(dir + [n]);
    hide Names;
    AbsCanonical(dir + [n]);
    NamesEmpty();
    CanonicalIsProper(Abs(dir + [n]));
    ProperSpells(Abs(dir + [n]));
  }

  lemma LookupName(t: Entry, dir: seq<string>, n: string)
    requires Lookup(t, dir + [n]).Some?
    ensures Lookup(t, dir + [n]).value.name == n
  {
    LocateLast(t, dir, n);
  }

  lemma StampedPlain(c: Session, e: Entry, data: seq<Byte>)
    requires Plain(e)
    ensures Plain(Stamped(c, e, data)) && Stamped(c, e, data).name == e.name
  {
    assert Kids(Stamped(c, e, data)) == Kids(e);
  }

  /** A directory stays one, unless it is, or is below, what changes. */
  lemma StillList(t: Entry, t': Entry, p: seq<string>, x: Option<Entry>, dir: seq<string>)
    requires Grafted(t, t', p, x) && IsList(t, dir) && !(p <= dir)
    ensures IsList(t', dir)
  {
    assert GraftedAt(t, t', p, x, dir);
  }

  /** The entry of a file that arrived when `when` files had been saved. */
  function Made(c: Session, n: string, mode: nat, data: seq<Byte>, when: nat): Entry {
    Stamped(c, NewEntry(n, File, c.uid, c.gid, |data|, mode, c.clock(when)), data)
  }

  lemma MadeMeans(c: Session, n: string, mode: nat, data: seq<Byte>, when: nat)
    ensures Made(c, n, mode, data, when)
            == Entry(n, File, c.uid, c.gid, |data|, mode, c.clock(when), Children([]), None,
                     if |data| < 25000000 then Some(c.store(data)) else None)
  {
  }

  /** What one arrival does to the tree: below the quota, the place shows the file. */
  ghost predicate Arrived(c: Session, r: Received, t': Entry, p: seq<string>, mode: nat, data: seq<Byte>)
    requires p != []
  {
    && Plain(t')
    && (forall dir :: IsList(r.fs.fs, dir) && !(p <= dir) ==> IsList(t', dir))
    && (r.fs.newcount <= MAX_NEW ==> Grafted(r.fs.fs, t', p, Some(Made(c, Last(p), mode, data, |r.saved|))))
  }

  lemma OneArrives(c: Session, r: Received, p: seq<string>, name: seq<Byte>, mode: nat, data: seq<Byte>)
    requires Plain(r.fs.fs) && c.budget > 0 && Goes(c, name, p) && Open(r.fs.fs, Front(p))
    ensures var (r', verdict) := Accept(c, r, name, Some(mode), |data|, data);
            && verdict == Accepted && r'.saved == r.saved + [(Abs(p), data)]
            && r'.fs.newcount <= r.fs.newcount + 1
            && Arrived(c, r, r'.fs.fs, p, mode, data)
  {
    hide Plain, GetFile, GetPath, Abs, Grafted, Put, Clean, Special, Stamped, WithKids, Dropping, Dirname, Basename,
        Names, SaveFile, Mkfile, IsList, Lookup, AllClean;
    var dir, n, path := Front(p), Last(p), Abs(p);
    Resplit(p);
    CleanParts(p);
    Spelt(dir, n);
    ProperSpells(path);
    Directory(dir, n);
    var when := c.clock(|r.saved|);
    MkfileEffect(r.fs, path, c.uid, c.gid, |data|, mode, when, c.budget);
    MkfileKeepsPlain(r.fs, path, c.uid, c.gid, |data|, mode, when, c.budget);
    var x := NewEntry(n, File, c.uid, c.gid, |data|, mode, when);
    var s := Mkfile(r.fs, path, c.uid, c.gid, |data|, mode, when, c.budget).0;
    var r1 := r.(fs := s);
    if r.fs.newcount > MAX_NEW {
      OverQuota(r.fs, path, c.uid, c.gid, |data|, mode, when, c.budget);
      SavePlain(c, r, dir, n, data);
      StampedOnly(c, r, SaveFile(c, r, data, path).0, p, data);
    } else {
      StillList(r.fs.fs, s.fs, p, Some(x), dir);
      SavePlain(c, r1, dir, n, data);
      Shows(r.fs.fs, s.fs, p, x);
      var t' := SaveFile(c, r1, data, path).0.fs.fs;
      GraftTwice(r.fs.fs, s.fs, t', p, Some(x), Some(Stamped(c, x, data)));
      GraftLists(r.fs.fs, t', p, Some(Stamped(c, x, data)));
    }
  }

  lemma CleanParts(p: seq<string>)
    requires AllClean(p) && p != []
    ensures AllClean(Front(p)) && Clean(Last(p))
  {
    assert forall q :: q in Front(p) ==> q in p;
    assert Last(p) in p;
  }

  lemma OverQuota(s: State, path: string, uid: int, gid: int, size: int, mode: int, ctime: int, budget: nat)
    requires s.newcount > MAX_NEW
    ensures Mkfile(s, path, uid, gid, size, mode, ctime, budget) == (s, Done(false))
  {
  }

  lemma Directory(dir: seq<string>, n: string)
    requires AllClean(dir) && Clean(n)
    ensures Dirname(Abs(dir + [n])) == Abs(dir) && Basename(Abs(dir + [n])) == n
  {
    CleanIsWhole(dir);
    AbsSnoc(dir, n);
  }

  lemma Shows(t: Entry, t': Entry, p: seq<string>, x: Entry)
    requires Grafted(t, t', p, Some(x))
    ensures Lookup(t', p) == Some(x)
  {
    assert GraftedAt(t, t', p, Some(x), p);
    LookupNothing(x);
    assert p[|p|..] == [];
  }

  lemma GraftLists(t: Entry, t': Entry, p: seq<string>, x: Option<Entry>)
    requires Grafted(t, t', p, x)
    ensures forall dir :: IsList(t, dir) && !(p <= dir) ==> IsList(t', dir)
  {
    hide IsList, Grafted;
    forall dir | IsList(t, dir) && !(p <= dir)
      ensures IsList(t', dir)
    {
      StillList(t, t', p, x, dir);
    }
  }

  /** The second of two entries put in one place is what stays. */
  lemma GraftTwice(t: Entry, t1: Entry, t2: Entry, p: seq<string>, x: Option<Entry>, y: Option<Entry>)
    requires Grafted(t, t1, p, x) && Grafted(t1, t2, p, y)
    ensures Grafted(t, t2, p, y)
  {
    hide Lookup, Attributes;
    forall q
      ensures GraftedAt(t, t2, p, y, q)
    {
      assert GraftedAt(t, t1, p, x, q) && GraftedAt(t1, t2, p, y, q);
    }
  }

  /** Beyond the quota no file is made, but an entry that is there is stamped. */
  lemma StampedOnly(c: Session, r: Received, r': Received, p: seq<string>, data: seq<Byte>)
    requires var e := Lookup(r.fs.fs, p);
             if e.None? then r'.fs == r.fs else Grafted(r.fs.fs, r'.fs.fs, p, Some(Stamped(c, e.value, data)))
    ensures forall dir :: IsList(r.fs.fs, dir) && !(p <= dir) ==> IsList(r'.fs.fs, dir)
  {
    hide Grafted, Lookup, IsList, Stamped;
    var e := Lookup(r.fs.fs, p);
    if e.Some? {
      GraftLists(r.fs.fs, r'.fs.fs, p, Some(Stamped(c, e.value, data)));
    }
  }

  /** Main result: below the quota a file is taken exactly when its directory is there and not
      protected; if it is not taken, nothing changes. It is refused with a message exactly if the
      directory is protected or missing; where something else is in its place, the exception escapes. */
  lemma AcceptedExactly(c: Session, r: Received, p: seq<string>, name: seq<Byte>, mode: nat, data: seq<Byte>)
    requires Plain(r.fs.fs) && c.budget > 0 && Goes(c, name, p) && r.fs.newcount <= MAX_NEW
    ensures var (r', verdict) := Accept(c, r, name, Some(mode), |data|, data);
            && (verdict == Accepted <==> Open(r.fs.fs, Front(p))) && (verdict != Accepted ==> r' == r)
            && (verdict == Refused <==> Special(Abs(Front(p))) || Lookup(r.fs.fs, Front(p)).None?)
  {
    hide Plain, Abs, Grafted, Special, Dirname, Basename, Names, SaveFile, Mkfile, Lookup, AllClean;
    var path, when := Abs(p), c.clock(|r.saved|);
    if Open(r.fs.fs, Front(p)) {
      OneArrives(c, r, p, name, mode, data);
    } else {
      Resplit(p);
      CleanParts(p);
      Spelt(Front(p), Last(p));
      ProperSpells(path);
      Directory(Front(p), Last(p));
      MkfileEffect(r.fs, path, c.uid, c.gid, |data|, mode, when, c.budget);
      NoQuota(r.fs, path, c.uid, c.gid, |data|, mode, when, c.budget);
    }
  }

  lemma NoQuota(s: State, path: string, uid: int, gid: int, size: int, mode: int, ctime: int, budget: nat)
    requires s.newcount <= MAX_NEW
    ensures var r := Mkfile(s, path, uid, gid, size, mode, ctime, budget).1; r == Done(true) || r.Failed?
  {
    hide GetPath, Dirname, Basename, Special, WithKids, Dropping;
  }

  // ---------------------------------------------------------------- all of them

  /** Each file goes to its place, whose directory is open and which no earlier file takes away. */
  ghost predicate Destined(c: Session, t: Entry, files: seq<Upload>, places: seq<seq<string>>) {
    && |places| == |files|
    && (forall i :: 0 <= i < |files| ==> Goes(c, files[i].name, places[i]) && Open(t, Front(places[i])))
    && (forall i, j :: 0 <= i < j < |files| ==> !(places[i] <= Front(places[j])))
  }

  function Saves(files: seq<Upload>, places: seq<seq<string>>): seq<(string, seq<Byte>)>
    requires |places| == |files|
  {
    seq(|files|, i requires 0 <= i < |files| => (Abs(places[i]), files[i].data))
  }

  /** The last file whose place is on the way to `q`. */
  function Latest(places: seq<seq<string>>, q: seq<string>): (k: Option<nat>)
    ensures k.Some? ==> k.value < |places| && places[k.value] <= q
    ensures forall i :: 0 <= i < |places| && places[i] <= q ==> k.Some? && i <= k.value
  {
    if places == [] then None
    else if Last(places) <= q then Some(|places| - 1)
    else Latest(Front(places), q)
  }

  /** What the path along `q` shows in the end, `count` files having been saved before: the last file
      sent there, nothing below a file, the same directory on the way to one, and elsewhere what was
      there before. */
  predicate ShownAt(c: Session, t: Entry, t': Entry, files: seq<Upload>, places: seq<seq<string>>, count: nat,
        q: seq<string>)
    requires |places| == |files|
  {
    var k := Latest(places, q);
    if k.Some? then
      Lookup(t', q)
      == if places[k.value] == q && q != []
         then Some(Made(c, Last(q), files[k.value].mode, files[k.value].data, count + k.value)) else None
    else if exists j :: 0 <= j < |places| && q <= places[j] then
      Lookup(t, q).Some? && Lookup(t', q).Some? && Attributes(Lookup(t', q).value) == Attributes(Lookup(t, q).value)
    else Lookup(t', q) == Lookup(t, q)
  }

  ghost predicate AllShown(c: Session, t: Entry, t': Entry, files: seq<Upload>, places: seq<seq<string>>, count: nat)
    requires |places| == |files|
  {
    forall q :: ShownAt(c, t, t', files, places, count, q)
  }

  lemma {:induction false} LatestNext(places: seq<seq<string>>, q: seq<string>)
    requires places != []
    ensures var k := Latest(places[1..], q);
            Latest(places, q)
            == if k.Some? then Some(k.value + 1) else if places[0] <= q then Some(0) else None
  {
    var k := Latest(places[1..], q);
    if k.Some? {
      assert places[k.value + 1] == places[1..][k.value];
    }
    var k' := Latest(places, q);
    if k'.Some? && k'.value > 0 {
      assert places[1..][k'.value - 1] == places[k'.value];
    }
  }

  lemma MadeHasNoKids(c: Session, n: string, mode: nat, data: seq<Byte>, when: nat, rest: seq<string>)
    ensures Lookup(Made(c, n, mode, data, when), rest)
            == if rest == [] then Some(Made(c, n, mode, data, when)) else None
  {
    hide Stamped;
    var x := Made(c, n, mode, data, when);
    assert Kids(x) == [] by { StampedKids(c, NewEntry(n, File, c.uid, c.gid, |data|, mode, c.clock(when)), data); }
    if rest == [] {
      LookupNothing(x);
    }
  }

  lemma StampedKids(c: Session, e: Entry, data: seq<Byte>)
    ensures Kids(Stamped(c, e, data)) == Kids(e)
  {
  }

  /** What the first file does, then what the others do. */
  lemma ShownNext(c: Session, t: Entry, t1: Entry, t': Entry, files: seq<Upload>, places: seq<seq<string>>, count: nat,
        q: seq<string>)
    requires |places| == |files| > 0 && places[0] != []
    requires forall j :: 0 < j < |places| ==> places[j] != [] && !(places[0] <= Front(places[j]))
    requires GraftedAt(t, t1, places[0], Some(Made(c, Last(places[0]), files[0].mode, files[0].data, count)), q)
    requires ShownAt(c, t1, t', files[1..], places[1..], count + 1, q)
    ensures ShownAt(c, t, t', files, places, count, q)
  {
    hide Lookup, Made, Attributes, Latest;
    var p, f := places[0], files[0];
    LatestNext(places, q);
    MadeHasNoKids(c, Last(p), f.mode, f.data, count, if p <= q then q[|p|..] else []);
    assert forall j :: 0 <= j < |places| - 1 ==> places[1..][j] == places[j + 1];
    if p <= q && Latest(places[1..], q).None? {
      NothingOnTheWay(places, q);
    }
  }

  lemma NothingOnTheWay(places: seq<seq<string>>, q: seq<string>)
    requires places != [] && places[0] <= q && Latest(places[1..], q).None?
    requires forall j :: 0 < j < |places| ==> places[j] != [] && !(places[0] <= Front(places[j]))
    ensures forall j :: 0 < j < |places| ==> !(q <= places[j])
  {
    forall j | 0 < j < |places|
      ensures !(q <= places[j])
    {
      if q <= places[j] {
        assert places[1..][j - 1] == places[j];
        OnTheWay(places[0], q, places[j]);
      }
    }
  }

  lemma OnTheWay(p: seq<string>, q: seq<string>, r: seq<string>)
    requires p <= q && q <= r && r != [] && !(p <= Front(r))
    ensures r <= q
  {
  }

  lemma DestinedNext(c: Session, t: Entry, t': Entry, files: seq<Upload>, places: seq<seq<string>>)
    requires files != [] && Destined(c, t, files, places)
    requires forall dir :: IsList(t, dir) && !(places[0] <= dir) ==> IsList(t', dir)
    ensures Destined(c, t', files[1..], places[1..])
  {
    hide Goes, Special, Abs, IsList;
  }

  lemma {:induction false} AllArrive(c: Session, r: Received, files: seq<Upload>, places: seq<seq<string>>)
    requires Plain(r.fs.fs) && c.budget > 0 && Destined(c, r.fs.fs, files, places)
    ensures var (r', problem) := ReceiveAll(c, r, files);
            && problem == None && r'.saved == r.saved + Saves(files, places)
            && Plain(r'.fs.fs)
            && (r.fs.newcount + |files| <= MAX_NEW + 1 ==>
                  AllShown(c, r.fs.fs, r'.fs.fs, files, places, |r.saved|))
    decreases |files|
  {
    hide Plain, Accept, Lookup, Made, Goes, Abs, Open, AllShown, Grafted;
    if files == [] {
      assert r.saved + Saves(files, places) == r.saved;
      NothingSent(c, r.fs.fs, places, |r.saved|);
    } else {
      var f, p := files[0], places[0];
      assert p != [] by { GoesSomewhere(c, f.name, p); }
      OneArrives(c, r, p, f.name, f.mode, f.data);
      var r1 := Accept(c, r, f.name, Some(f.mode), |f.data|, f.data).0;
      DestinedNext(c, r.fs.fs, r1.fs.fs, files, places);
      AllArrive(c, r1, files[1..], places[1..]);
      assert Saves(files, places) == [(Abs(p), f.data)] + Saves(files[1..], places[1..]);
      if r.fs.newcount + |files| <= MAX_NEW + 1 {
        ShownAll(c, r, r1, ReceiveAll(c, r, files).0.fs.fs, files, places);
      }
    }
  }

  lemma GoesSomewhere(c: Session, name: seq<Byte>, p: seq<string>)
    requires Goes(c, name, p)
    ensures p != []
  {
  }

  lemma NothingSent(c: Session, t: Entry, places: seq<seq<string>>, count: nat)
    requires places == []
    ensures AllShown(c, t, t, [], places, count)
  {
    hide Lookup;
  }

  lemma ShownAll(c: Session, r: Received, r1: Received, t': Entry, files: seq<Upload>, places: seq<seq<string>>)
    requires files != [] && Destined(c, r.fs.fs, files, places) && places[0] != []
    requires Grafted(r.fs.fs, r1.fs.fs, places[0],
                     Some(Made(c, Last(places[0]), files[0].mode, files[0].data, |r.saved|)))
    requires AllShown(c, r1.fs.fs, t', files[1..], places[1..], |r.saved| + 1)
    ensures AllShown(c, r.fs.fs, t', files, places, |r.saved|)
  {
    hide ShownAt, Made, GraftedAt, Open;
    forall j | 0 < j < |places|
      ensures places[j] != []
    {
      GoesSomewhere(c, files[j].name, places[j]);
    }
    hide Goes;
    forall q
      ensures ShownAt(c, r.fs.fs, t', files, places, |r.saved|, q)
    {
      var x := Made(c, Last(places[0]), files[0].mode, files[0].data, |r.saved|);
      assert GraftedAt(r.fs.fs, r1.fs.fs, places[0], Some(x), q);
      ShownNext(c, r.fs.fs, r1.fs.fs, t', files, places, |r.saved|, q);
    }
  }

  /** Main result: of a stream of files to places whose directories are there and not protected, each
      is saved once, in order, under its path with exactly its bytes. Below the quota each place then
      shows the size, permissions and owner of the last file sent there, and every path apart from
      the places shows what it did. */
  lemma UploadsArrive(c: Session, r: Received, files: seq<Upload>, places: seq<seq<string>>)
    requires Plain(r.fs.fs) && c.budget > 0 && AllSendable(files) && Destined(c, r.fs.fs, files, places)
    ensures var (r', problem) := Drain(c, r, Stream(files));
            && problem == None && r'.saved == r.saved + Saves(files, places)
            && (r.fs.newcount + |files| <= MAX_NEW + 1 ==>
                  AllShown(c, r.fs.fs, r'.fs.fs, files, places, |r.saved|))
  {
    hide Destined, Drain, ReceiveAll, AllShown, Saves, Plain;
    StreamArrives(c, r, files);
    AllArrive(c, r, files, places);
  }

  // ---------------------------------------------------------------- into one directory

  predicate HasName(c: Session, f: Upload) {
    c.decode(f.name).Some? && Clean(c.decode(f.name).value)
  }

  ghost predicate AllNamed(c: Session, files: seq<Upload>) {
    forall i :: 0 <= i < |files| ==> HasName(c, files[i])
  }

  function NameOf(c: Session, f: Upload): string {
    if c.decode(f.name).Some? then c.decode(f.name).value else ""
  }

  /** The places of files with plain names in the directory `dir`. */
  function InDirectory(c: Session, dir: seq<string>, files: seq<Upload>): (ps: seq<seq<string>>)
    ensures |ps| == |files|
  {
    seq(|files|, i requires 0 <= i < |files| => dir + [NameOf(c, files[i])])
  }

  lemma DestinedInDirectory(c: Session, t: Entry, dir: seq<string>, files: seq<Upload>)
    requires AllClean(dir) && LandsIn(c, dir) && Open(t, dir)
    requires AllNamed(c, files)
    ensures Destined(c, t, files, InDirectory(c, dir, files))
  {
    hide Clean, Open, Abs, Target;
    var places := InDirectory(c, dir, files);
    forall i | 0 <= i < |files|
      ensures Goes(c, files[i].name, places[i]) && Front(places[i]) == dir
    {
      assert HasName(c, files[i]);
    }
  }

  /** Files with plain names, all into one open directory: each name shows the last file sent under
      it, and the other names show what they did. */
  lemma UploadsInto(c: Session, r: Received, dir: seq<string>, files: seq<Upload>, n: string)
    requires Plain(r.fs.fs) && c.budget > 0 && AllSendable(files)
    requires AllClean(dir) && LandsIn(c, dir) && Open(r.fs.fs, dir)
    requires AllNamed(c, files)
    ensures var (r', problem) := Drain(c, r, Stream(files));
            var places := InDirectory(c, dir, files);
            var k := Latest(places, dir + [n]);
            && problem == None && r'.saved == r.saved + Saves(files, places)
            && (r.fs.newcount + |files| <= MAX_NEW + 1 ==>
                  Lookup(r'.fs.fs, dir + [n])
                  == if k.None? then Lookup(r.fs.fs, dir + [n])
                     else Some(Made(c, n, files[k.value].mode, files[k.value].data, |r.saved| + k.value)))
  {
    hide Plain, AllClean, LandsIn, Open, Drain, AllSendable, Destined, ShownAt, AllNamed, Made, Lookup, Saves,
        InDirectory, Latest, AllShown, Stream;
    DestinedInDirectory(c, r.fs.fs, dir, files);
    UploadsArrive(c, r, files, InDirectory(c, dir, files));
    if r.fs.newcount + |files| <= MAX_NEW + 1 {
      SendableModes(files);
      ShownInDirectory(c, r.fs.fs, Drain(c, r, Stream(files)).0.fs.fs, dir, files, |r.saved|, n);
    }
  }

  lemma SendableModes(files: seq<Upload>)
    requires AllSendable(files)
    ensures forall i :: 0 <= i < |files| ==> files[i].mode < 512
  {
  }

  lemma ShownInDirectory(c: Session, t: Entry, t': Entry, dir: seq<string>, files: seq<Upload>, count: nat, n: string)
    requires AllShown(c, t, t', files, InDirectory(c, dir, files), count)
    ensures var k := Latest(InDirectory(c, dir, files), dir + [n]);
            Lookup(t', dir + [n])
            == if k.None? then Lookup(t, dir + [n])
               else Some(Made(c, n, files[k.value].mode, files[k.value].data, count + k.value))
  {
    hide Lookup, Made, Attributes;
    var places, q := InDirectory(c, dir, files), dir + [n];
    assert ShownAt(c, t, t', files, places, count, q);
    forall j | 0 <= j < |places|
      ensures (places[j] <= q || q <= places[j]) ==> places[j] == q
    {
    }
  }

  /** A name that is an absolute path leads there, whatever the output directory. */
  lemma AbsoluteNameLands(c: Session, p: seq<string>)
    requires AllClean(p)
    ensures Target(c, Abs(p)) == Some(Abs(p))
  {
    AbsCanonical(p);
    CanonicalIsFixed(c.home, Abs(p), c.cwd);
    hide Resolve;
  }
}
