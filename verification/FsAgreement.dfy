/** The walkers against each other, and on trees without links against plain lookup. */
module FsAgreement {
  import opened Sequences
  import opened Paths
  import opened FsTree
  import opened FsWalkers

  // ---------------------------------------------------------------- a larger recursion limit

  lemma {:induction false} MoreBudget(t: Entry, path: string, follow: bool, budget: nat)
    requires GetFile(t, path, follow, budget) != Raised(RecursionError)
    ensures GetFile(t, path, follow, budget + 1) == GetFile(t, path, follow, budget)
    decreases budget, 3, 0, 0
  {
    if budget > 0 && path != "/" {
      DescendMore(t, Pieces(path), 0, [], follow, budget);
    }
  }

  lemma {:induction false} DescendMore(t: Entry, pieces: seq<string>, i: nat, at: Position, follow: bool, budget: nat)
    requires i <= |pieces| && Has(t, at) && budget > 0
    requires Descend(t, pieces, i, at, follow, budget) != Raised(RecursionError)
    ensures Descend(t, pieces, i, at, follow, budget + 1) == Descend(t, pieces, i, at, follow, budget)
    decreases budget, 2, |pieces| - i, 0
  {
    hide Scan;
    if i < |pieces| && At(t, at).contents.Children? && Named(Kids(At(t, at)), pieces[i]).Some? {
      ScanMore(t, pieces, i, at, 0, at, follow, budget);
      var p := Scan(t, pieces, i, at, 0, at, follow, budget);
      if p.Found? {
        DescendMore(t, pieces, i + 1, p.at, follow, budget);
      }
    }
  }

  lemma {:induction false} ScanMore(t: Entry, pieces: seq<string>, i: nat, dir: Position, k: nat, p: Position,
        follow: bool, budget: nat)
    requires i < |pieces| && Has(t, dir) && k <= |Kids(At(t, dir))| && Has(t, p) && budget > 0
    requires Scan(t, pieces, i, dir, k, p, follow, budget) != Raised(RecursionError)
    ensures Scan(t, pieces, i, dir, k, p, follow, budget + 1) == Scan(t, pieces, i, dir, k, p, follow, budget)
    decreases budget, 1, |pieces| - i, |Kids(At(t, dir))| - k
  {
    hide Visit;
    HasKids(t, dir);
    if k < |Kids(At(t, dir))| {
      if Kids(At(t, dir))[k].name != pieces[i] {
        ScanMore(t, pieces, i, dir, k + 1, p, follow, budget);
      } else {
        var last := pieces[i] == Last(pieces);
        VisitMore(t, last, dir + [k], follow, budget);
        var entered := Visit(t, last, dir + [k], follow, budget);
        if entered.Found? {
          ScanMore(t, pieces, i, dir, k + 1, entered.at, follow, budget);
        }
      }
    }
  }

  lemma {:induction false} VisitMore(t: Entry, last: bool, at: Position, follow: bool, budget: nat)
    requires Has(t, at) && budget > 0
    ensures Visit(t, last, at, follow, budget) != Raised(RecursionError)
            ==> Visit(t, last, at, follow, budget + 1) == Visit(t, last, at, follow, budget)
    decreases budget, 0, 0, 0
  {
    hide GetFile;
    var x := At(t, at);
    if x.kind.Link? && x.target.Some? && x.target.value != "" {
      if GetFile(t, Goal(x.target.value), follow, budget - 1) != Raised(RecursionError) {
        MoreBudget(t, Goal(x.target.value), follow, budget - 1);
      }
    }
  }

  lemma {:induction false} BudgetSuffices(t: Entry, path: string, follow: bool, budget: nat, more: nat)
    requires GetFile(t, path, follow, budget) != Raised(RecursionError) && budget <= more
    ensures GetFile(t, path, follow, more) == GetFile(t, path, follow, budget)
    decreases more
  {
    if budget < more {
      BudgetSuffices(t, path, follow, budget, more - 1);
      MoreBudget(t, path, follow, more - 1);
    }
  }

  // ---------------------------------------------------------------- get_path against getfile

  /** What `get_path` answers where `getfile` answers `f`. Where `getfile` raises, `get_path` raises
      too, if only FileNotFound. */
  predicate Matches(p: Outcome, f: Outcome) {
    match f
    case Found(_) => p == f
    case Missing => p == Raised(FileNotFound)
    case Raised(error) => p == f || p == Raised(FileNotFound)
  }

  /** Main result: on an orderly tree `get_path` returns the contents of the very entry `getfile`
      finds, and raises FileNotFound where `getfile` finds none. */
  lemma GetPathMatches(t: Entry, path: string, budget: nat)
    requires Orderly(t) && WellFormed(path)
    ensures Matches(GetPath(t, path, true, budget), GetFile(t, path, true, budget))
  {
    hide Descend, GetPathFrom, Pieces, Names;
    NamesOfPieces(path);
    if budget > 0 {
      if path == "/" {
        assert GetPathFrom(t, [], [], true, budget) == Found([]) by { PathAtRoot(t, budget); }
      } else {
        var pieces := Pieces(path);
        assert pieces[0..] == pieces;
        GetPathFromMatches(t, pieces, 0, [], budget);
      }
    }
  }

  lemma PathAtRoot(t: Entry, budget: nat)
    requires budget > 0
    ensures GetPathFrom(t, [], [], true, budget) == Found([])
  {
  }

  lemma {:induction false} GetPathFromMatches(t: Entry, pieces: seq<string>, i: nat, at: Position, budget: nat)
    requires Orderly(t) && i <= |pieces| && Has(t, at) && budget > 0
    ensures Matches(GetPathFrom(t, pieces[i..], at, true, budget), Descend(t, pieces, i, at, true, budget))
    decreases |pieces| - i
  {
    hide Arrive, Visit, Scan, Orderly, At, Has;
    if i < |pieces| {
      assert DistinctKids(At(t, at)) by {
        OrderlyMeans(t);
        AllAt(DistinctKids, t, at);
      }
      HasKids(t, at);
      DescendStep(t, pieces, i, at, true, budget);
      assert pieces[i..][0] == pieces[i] && pieces[i..][1..] == pieces[i + 1..];
      var k := Named(Kids(At(t, at)), pieces[i]);
      if k.Some? {
        var kid := at + [k.value];
        ArriveMatches(t, kid, pieces[i] == Last(pieces), budget);
        var next := Arrive(t, kid, true, budget);
        if next.Found? {
          GetPathFromMatches(t, pieces, i + 1, next.at, budget);
        }
      }
    }
  }

  lemma OrderlyMeans(t: Entry)
    requires Orderly(t)
    ensures All(DistinctKids, t) && All(LinkTargets, t)
  {
  }

  lemma ArriveMatches(t: Entry, at: Position, last: bool, budget: nat)
    requires Orderly(t) && Has(t, at) && budget > 0
    ensures Matches(Arrive(t, at, true, budget), Visit(t, last, at, true, budget))
  {
    hide Descend, Pieces;
    AllAt(LinkTargets, t, at);
    var x := At(t, at);
    assert LinkTargets(x);
    if x.kind.Link? {
      GoalPieces(x.target.value);
    }
  }

  // ---------------------------------------------------------------- trees without links

  /** The names `getfile` looks for. */
  function Sought(path: string): seq<string> {
    if path == "/" then [] else Pieces(path)
  }

  ghost predicate Plain(t: Entry) {
    All(DistinctKids, t) && All(NoLink, t)
  }

  /** The way along `names` ends below the (non-empty) bytes of a file. */
  predicate BelowBytes(e: Entry, names: seq<string>)
    decreases |names|
  {
    names != [] &&
    match e.contents
    case Data(bytes) => bytes != []
    case Children(kids) => (var k := Named(kids, names[0]); k.Some? && BelowBytes(kids[k.value], names[1..]))
  }

  function Looked(place: Option<Position>, below: bool): Outcome {
    if place.Some? then Found(place.value) else if below then Raised(TypeError) else Missing
  }

  /** No entry along the names is a link. */
  predicate NoLinkAlong(e: Entry, names: seq<string>)
    decreases |names|
  {
    names != [] ==>
      var k := Named(Kids(e), names[0]);
      k.Some? ==> !Kids(e)[k.value].kind.Link? && NoLinkAlong(Kids(e)[k.value], names[1..])
  }

  /** No link is to be followed: the last entry may be one, if links at the end are not followed. */
  predicate Clear(e: Entry, names: seq<string>, follow: bool) {
    NoLinkAlong(e, if follow || names == [] then names else Front(names))
  }

  lemma {:induction false} PlainIsClear(t: Entry, names: seq<string>)
    requires All(NoLink, t)
    ensures NoLinkAlong(t, names) && Clear(t, names, true) && Clear(t, names, false)
    decreases |names|
  {
    PlainHasNoLink(t, names);
    if names != [] {
      PlainHasNoLink(t, Front(names));
    }
  }

  lemma {:induction false} PlainHasNoLink(t: Entry, names: seq<string>)
    requires All(NoLink, t)
    ensures NoLinkAlong(t, names)
    decreases |names|
  {
    if names != [] {
      var k := Named(Kids(t), names[0]);
      if k.Some? {
        assert All(NoLink, Kids(t)[k.value]);
        assert NoLink(Kids(t)[k.value]);
        PlainHasNoLink(Kids(t)[k.value], names[1..]);
      }
    }
  }

  /** Main result: on a tree with distinct names, whatever links it has elsewhere, `getfile` is plain
      lookup of a path that leads through no link; a link at its end is found itself when links are
      not to be followed. Where there is nothing it returns None, or raises TypeError below the bytes
      of a file. */
  lemma GetFileAlong(t: Entry, path: string, follow: bool, budget: nat)
    requires All(DistinctKids, t) && Clear(t, Sought(path), follow) && budget > 0
    ensures GetFile(t, path, follow, budget) == Looked(Locate(t, Sought(path)), BelowBytes(t, Sought(path)))
  {
    hide Descend, Pieces, Locate, Clear;
    if path == "/" {
      LocateNothing(t, []);
    } else {
      var pieces := Pieces(path);
      assert pieces[0..] == pieces;
      DescendIsLocate(t, pieces, 0, [], follow, budget);
      OnToNothing(Locate(t, pieces));
    }
  }

  /** On trees without links that is every path. */
  lemma GetFileIsLocate(t: Entry, path: string, follow: bool, budget: nat)
    requires Plain(t) && budget > 0
    ensures GetFile(t, path, follow, budget) == Looked(Locate(t, Sought(path)), BelowBytes(t, Sought(path)))
  {
    PlainIsClear(t, Sought(path));
    hide Clear, GetFile, Sought, Locate, BelowBytes;
    GetFileAlong(t, path, follow, budget);
  }

  function OnTo(at: Position, below: Option<Position>): Option<Position> {
    if below.None? then None else Some(at + below.value)
  }

  lemma OnToNothing(below: Option<Position>)
    ensures OnTo([], below) == below
  {
    if below.Some? {
      assert [] + below.value == below.value;
    }
  }

  /** Looking for the first name, then from there for the rest. */
  lemma LocateStep(t: Entry, at: Position, names: seq<string>)
    requires Has(t, at) && names != []
    ensures var k := Named(Kids(At(t, at)), names[0]);
            if k.None? then Locate(At(t, at), names).None?
            else
              && Has(t, at + [k.value])
              && OnTo(at, Locate(At(t, at), names)) == OnTo(at + [k.value], Locate(At(t, at + [k.value]), names[1..]))
  {
    hide Locate, At, Has, Kids;
    LocateHead(At(t, at), names);
    var k := Named(Kids(At(t, at)), names[0]);
    if k.Some? {
      HasKid(t, at, k.value);
      var below := Locate(At(t, at + [k.value]), names[1..]);
      if below.Some? {
        assert at + ([k.value] + below.value) == at + [k.value] + below.value;
      }
    }
  }

  lemma LocateNothing(t: Entry, at: Position)
    requires Has(t, at)
    ensures Locate(At(t, at), []) == Some([]) && OnTo(at, Some([])) == Some(at)
  {
    assert at + [] == at;
  }

  lemma NoLinkAt(t: Entry, at: Position, last: bool, follow: bool, budget: nat)
    requires All(NoLink, t) && Has(t, at) && budget > 0
    ensures Visit(t, last, at, follow, budget) == Found(at) == Arrive(t, at, follow, budget)
  {
    AllAt(NoLink, t, at);
    assert NoLink(At(t, at));
  }

  lemma ClearStep(t: Entry, at: Position, names: seq<string>, follow: bool)
    requires Has(t, at) && names != [] && Clear(At(t, at), names, follow)
    ensures var k := Named(Kids(At(t, at)), names[0]);
            k.Some? ==>
              && Has(t, at + [k.value]) && Clear(At(t, at + [k.value]), names[1..], follow)
              && (follow || |names| > 1 ==> !At(t, at + [k.value]).kind.Link?)
  {
    var k := Named(Kids(At(t, at)), names[0]);
    if k.Some? {
      HasKid(t, at, k.value);
      if |names| > 1 {
        assert Front(names)[1..] == Front(names[1..]) && Front(names)[0] == names[0];
      }
    }
  }

  lemma NotFollowed(t: Entry, at: Position, last: bool, follow: bool, budget: nat)
    requires Has(t, at) && budget > 0 && (!At(t, at).kind.Link? || (last && !follow))
    ensures Visit(t, last, at, follow, budget) == Found(at)
  {
  }

  lemma {:induction false} DescendIsLocate(t: Entry, pieces: seq<string>, i: nat, at: Position, follow: bool,
        budget: nat)
    requires All(DistinctKids, t) && i <= |pieces| && Has(t, at) && budget > 0 && Clear(At(t, at), pieces[i..], follow)
    ensures Descend(t, pieces, i, at, follow, budget)
            == Looked(OnTo(at, Locate(At(t, at), pieces[i..])), BelowBytes(At(t, at), pieces[i..]))
    decreases |pieces| - i
  {
    hide Locate, At, Has, Visit, OnTo, BelowBytes, Clear;
    if i < |pieces| {
      AllAt(DistinctKids, t, at);
      assert DistinctKids(At(t, at));
      hide All;
      DescendStep(t, pieces, i, at, follow, budget);
      LocateStep(t, at, pieces[i..]);
      BelowStep(t, at, pieces[i..]);
      ClearStep(t, at, pieces[i..], follow);
      assert pieces[i..][0] == pieces[i] && pieces[i..][1..] == pieces[i + 1..];
      hide Descend;
      var k := Named(Kids(At(t, at)), pieces[i]);
      if k.Some? {
        var kid := at + [k.value];
        NotFollowed(t, kid, pieces[i] == Last(pieces), follow, budget);
        DescendIsLocate(t, pieces, i + 1, kid, follow, budget);
      } else {
        assert OnTo(at, None) == None by { NowhereOn(at); }
      }
    } else {
      LocateNothing(t, at);
      assert pieces[i..] == [];
    }
  }

  lemma BelowStep(t: Entry, at: Position, names: seq<string>)
    requires Has(t, at) && names != []
    ensures var e := At(t, at);
            var k := Named(Kids(e), names[0]);
            if k.None? then BelowBytes(e, names) <==> e.contents.Data? && e.contents.bytes != []
            else Has(t, at + [k.value]) && BelowBytes(e, names) == BelowBytes(At(t, at + [k.value]), names[1..])
  {
    var k := Named(Kids(At(t, at)), names[0]);
    if k.Some? {
      HasKid(t, at, k.value);
    }
  }

  lemma NowhereOn(at: Position)
    ensures OnTo(at, None) == None
  {
  }

  /** Main result: so is `get_path`, for a path that leads through no link at all. */
  lemma GetPathAlong(t: Entry, path: string, follow: bool, budget: nat)
    requires NoLinkAlong(t, Names(path)) && budget > 0
    ensures var at := Locate(t, Names(path));
            GetPath(t, path, follow, budget) == if at.Some? then Found(at.value) else Raised(FileNotFound)
  {
    hide GetPathFrom, Names, Locate, NoLinkAlong;
    GetPathFromIsLocate(t, Names(path), [], follow, budget);
    OnToNothing(Locate(t, Names(path)));
  }

  lemma GetPathIsLocate(t: Entry, path: string, follow: bool, budget: nat)
    requires All(NoLink, t) && budget > 0
    ensures var at := Locate(t, Names(path));
            GetPath(t, path, follow, budget) == if at.Some? then Found(at.value) else Raised(FileNotFound)
  {
    PlainHasNoLink(t, Names(path));
    hide NoLinkAlong, GetPath, Names, Locate;
    GetPathAlong(t, path, follow, budget);
  }

  lemma {:induction false} GetPathFromIsLocate(t: Entry, parts: seq<string>, at: Position, follow: bool, budget: nat)
    requires Has(t, at) && budget > 0 && NoLinkAlong(At(t, at), parts)
    ensures var place := OnTo(at, Locate(At(t, at), parts));
            GetPathFrom(t, parts, at, follow, budget)
            == if place.Some? then Found(place.value) else Raised(FileNotFound)
    decreases |parts|
  {
    hide Locate, At, Has, OnTo;
    if parts == [] {
      LocateNothing(t, at);
    } else {
      HasKids(t, at);
      LocateStep(t, at, parts);
      var k := Named(Kids(At(t, at)), parts[0]);
      if k.Some? {
        GetPathFromIsLocate(t, parts[1..], at + [k.value], follow, budget);
      } else {
        NowhereOn(at);
      }
    }
  }

  // ---------------------------------------------------------------- names listed twice

  /** The index of the last entry of that name. */
  function LastNamed(entries: seq<Entry>, name: string): (k: Option<nat>)
    ensures k.Some? ==> k.value < |entries| && entries[k.value].name == name
  {
    if entries == [] then None
    else
      var k := LastNamed(entries[1..], name);
      if k.Some? then Some(k.value + 1) else if entries[0].name == name then Some(0) else None
  }

  /** Where the names lead when the last of several entries of a name counts. */
  function LocateByLast(e: Entry, names: seq<string>): (at: Option<Position>)
    ensures at.Some? ==> Has(e, at.value)
    decreases |names|
  {
    if names == [] then Some([])
    else
      var k := LastNamed(Kids(e), names[0]);
      if k.None? then None
      else
        var below := LocateByLast(Kids(e)[k.value], names[1..]);
        if below.None? then None else Some([k.value] + below.value)
  }

  function Placed(place: Option<Position>): Outcome {
    if place.Some? then Found(place.value) else Missing
  }

  lemma {:induction false} LastNamedNone(entries: seq<Entry>, name: string)
    ensures LastNamed(entries, name).None? <==> Named(entries, name).None?
  {
    if entries != [] {
      LastNamedNone(entries[1..], name);
    }
  }

  lemma {:induction false} ScanIsLast(t: Entry, pieces: seq<string>, i: nat, dir: Position, k: nat, p: Position,
        follow: bool, budget: nat)
    requires All(NoLink, t) && i < |pieces| && Has(t, dir) && Has(t, p) && k <= |Kids(At(t, dir))| && budget > 0
    ensures var j := LastNamed(Kids(At(t, dir))[k..], pieces[i]);
            Scan(t, pieces, i, dir, k, p, follow, budget) == Found(if j.None? then p else dir + [k + j.value])
    decreases |Kids(At(t, dir))| - k
  {
    hide All, At, Has, Scan, LastNamed;
    var kids := Kids(At(t, dir));
    HasKids(t, dir);
    if k < |kids| {
      ScanNext(t, pieces, i, dir, k, p, follow, budget);
      LastNamedNext(kids, k, pieces[i]);
      ScanIsLast(t, pieces, i, dir, k + 1, if kids[k].name == pieces[i] then dir + [k] else p, follow, budget);
    } else {
      assert LastNamed(kids[k..], pieces[i]).None? by { LastNamedNothing(kids[k..], pieces[i]); }
      assert Scan(t, pieces, i, dir, k, p, follow, budget) == Found(p) by {
        ScanEnds(t, pieces, i, dir, k, p, follow, budget);
      }
    }
  }

  lemma LastNamedNothing(entries: seq<Entry>, name: string)
    requires entries == []
    ensures LastNamed(entries, name).None?
  {
  }

  lemma LastNamedNext(entries: seq<Entry>, k: nat, name: string)
    requires k < |entries|
    ensures var j := LastNamed(entries[k + 1..], name);
            LastNamed(entries[k..], name)
            == if j.Some? then Some(j.value + 1) else if entries[k].name == name then Some(0) else None
  {
    assert entries[k..][1..] == entries[k + 1..] && entries[k..][0] == entries[k];
  }

  lemma ScanEnds(t: Entry, pieces: seq<string>, i: nat, dir: Position, k: nat, p: Position, follow: bool, budget: nat)
    requires i < |pieces| && Has(t, dir) && Has(t, p) && k == |Kids(At(t, dir))| && budget > 0
    ensures Scan(t, pieces, i, dir, k, p, follow, budget) == Found(p)
  {
  }

  lemma ScanNext(t: Entry, pieces: seq<string>, i: nat, dir: Position, k: nat, p: Position, follow: bool, budget: nat)
    requires All(NoLink, t) && i < |pieces| && Has(t, dir) && Has(t, p) && k < |Kids(At(t, dir))| && budget > 0
    ensures Has(t, dir + [k])
    ensures Scan(t, pieces, i, dir, k, p, follow, budget)
            == Scan(t, pieces, i, dir, k + 1, if Kids(At(t, dir))[k].name == pieces[i] then dir + [k] else p, follow,
                    budget)
  {
    hide All, At, Has, Visit;
    HasKids(t, dir);
    NoLinkAt(t, dir + [k], pieces[i] == Last(pieces), follow, budget);
  }

  lemma ByLastStep(t: Entry, at: Position, names: seq<string>)
    requires Has(t, at) && names != []
    ensures var k := LastNamed(Kids(At(t, at)), names[0]);
            if k.None? then LocateByLast(At(t, at), names).None?
            else
              && Has(t, at + [k.value])
              && OnTo(at, LocateByLast(At(t, at), names))
                 == OnTo(at + [k.value], LocateByLast(At(t, at + [k.value]), names[1..]))
  {
    hide At, Has, Kids;
    var k := LastNamed(Kids(At(t, at)), names[0]);
    if k.Some? {
      HasKid(t, at, k.value);
      var below := LocateByLast(At(t, at + [k.value]), names[1..]);
      if below.Some? {
        assert at + ([k.value] + below.value) == at + [k.value] + below.value;
      }
    }
  }

  lemma {:induction false} DescendIsLast(t: Entry, pieces: seq<string>, i: nat, at: Position, follow: bool, budget: nat)
    requires All(NoLink, t) && i <= |pieces| && Has(t, at) && budget > 0
    ensures Settled(Descend(t, pieces, i, at, follow, budget))
            == Placed(OnTo(at, LocateByLast(At(t, at), pieces[i..])))
    decreases |pieces| - i
  {
    hide LocateByLast, At, Has, Visit, Scan, All, OnTo;
    if i < |pieces| {
      HasKids(t, at);
      var kids := Kids(At(t, at));
      ScanIsLast(t, pieces, i, at, 0, at, follow, budget);
      ByLastStep(t, at, pieces[i..]);
      LastNamedNone(kids, pieces[i]);
      assert kids[0..] == kids && pieces[i..][0] == pieces[i] && pieces[i..][1..] == pieces[i + 1..];
      var k := LastNamed(kids, pieces[i]);
      if k.Some? {
        DescendIsLast(t, pieces, i + 1, at + [k.value], follow, budget);
      } else {
        NowhereOn(at);
      }
    } else {
      assert pieces[i..] == [];
      assert LocateByLast(At(t, at), []) == Some([]) && OnTo(at, Some([])) == Some(at) by { NothingByLast(t, at); }
    }
  }

  lemma NothingByLast(t: Entry, at: Position)
    requires Has(t, at)
    ensures LocateByLast(At(t, at), []) == Some([]) && OnTo(at, Some([])) == Some(at)
  {
    assert at + [] == at;
  }

  lemma {:induction false} FindFromIsFirst(t: Entry, parts: seq<string>, at: Position, depth: nat)
    requires All(NoLink, t) && Has(t, at) && depth <= MAX_SYMLINK_DEPTH
    ensures FindFrom(t, parts, at, depth) == Placed(OnTo(at, Locate(At(t, at), parts)))
    decreases |parts|
  {
    hide Locate, At, Has, OnTo, All, Follow;
    NotALink(t, at, depth);
    if parts == [] {
      LocateNothing(t, at);
    } else {
      HasKids(t, at);
      LocateStep(t, at, parts);
      var k := Named(Kids(At(t, at)), parts[0]);
      if k.Some? {
        FindFromIsFirst(t, parts[1..], at + [k.value], depth);
      } else {
        NowhereOn(at);
      }
    }
  }

  lemma NotALink(t: Entry, at: Position, depth: nat)
    requires All(NoLink, t) && Has(t, at) && depth <= MAX_SYMLINK_DEPTH
    ensures Follow(t, at, depth) == Found(at)
  {
    AllAt(NoLink, t, at);
    assert NoLink(At(t, at));
  }

  /** Main result: without links, `_find` follows the first of several entries of a name and `getfile`
      the last, so they agree exactly where these lead to the same place. */
  lemma FirstAgainstLast(t: Entry, path: string, follow: bool, budget: nat)
    requires All(NoLink, t) && WellFormed(path) && budget > 0
    ensures Find(t, path, 0) == Placed(Locate(t, Names(path)))
    ensures Settled(GetFile(t, path, follow, budget)) == Placed(LocateByLast(t, Names(path)))
  {
    hide Descend, FindFrom, Pieces, Locate, LocateByLast, Names, OnTo, All;
    NamesOfPieces(path);
    FindFromIsFirst(t, Names(path), [], 0);
    OnToNothing(Locate(t, Names(path)));
    OnToNothing(LocateByLast(t, Names(path)));
    if path == "/" {
      NothingByLast(t, []);
    } else {
      assert Pieces(path)[0..] == Pieces(path);
      DescendIsLast(t, Pieces(path), 0, [], follow, budget);
    }
  }

  /** The first and the last entry of a name are the same one exactly if no two have it. */
  lemma {:induction false} FirstIsLastExactly(entries: seq<Entry>, name: string)
    ensures Named(entries, name) == LastNamed(entries, name)
            <==> forall j, k :: 0 <= j < k < |entries| ==> !(entries[j].name == entries[k].name == name)
  {
    if entries != [] {
      var rest := entries[1..];
      FirstIsLastExactly(rest, name);
      LastNamedNone(rest, name);
      NamedNone(rest, name);
      assert forall j :: 0 < j < |entries| ==> entries[j] == rest[j - 1];
      assert forall j :: 0 <= j < |rest| ==> rest[j] == entries[j + 1];
    }
  }
}
