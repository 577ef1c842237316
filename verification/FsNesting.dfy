/** What tells `_find` and `getfile` apart: how many links a path follows inside each other, and names listed twice. */
module FsNesting {
  import opened Sequences
  import opened Paths
  import opened FsTree
  import opened FsWalkers
  import opened FsAgreement
  import opened FsPaths

  // ---------------------------------------------------------------- the depth of a path

  /** Where a path leads, and how many links deep; or that it never gets there. */
  datatype Nest = Endless | Deep(levels: nat, end: Outcome)

  predicate IsLink(t: Entry, at: Position) {
    Has(t, at) && At(t, at).kind.Link? && At(t, at).target.Some?
  }

  function TargetAt(t: Entry, at: Position): string
    requires IsLink(t, at)
  {
    At(t, at).target.value
  }

  function Inside(n: nat, rest: Nest): Nest {
    match rest
    case Endless => Endless
    case Deep(m, end) => Deep(if n < m then m else n, end)
  }

  /** The walk along `names`, without any recursion: where a link leads is read off `links`. */
  function Trace(t: Entry, links: string -> Nest, names: seq<string>, at: Position): Nest
    requires Has(t, at)
    decreases |names|
  {
    if names == [] then Deep(0, Found(at))
    else match At(t, at).contents
      case Data(bytes) => Deep(0, if bytes == [] then Missing else Raised(TypeError))
      case Children(kids) =>
        var k := Named(kids, names[0]);
        if k.None? then Deep(0, Missing)
        else
          HasKid(t, at, k.value);
          var kid := at + [k.value];
          if !IsLink(t, kid) then Trace(t, links, names[1..], kid)
          else match links(TargetAt(t, kid))
            case Endless => Endless
            case Deep(n, end) =>
              if end.Found? && Has(t, end.at) then Inside(n + 1, Trace(t, links, names[1..], end.at))
              else Deep(n + 1, end)
  }

  /** The table tells of each link what the walk along its target comes to. */
  ghost predicate Nesting(t: Entry, links: string -> Nest) {
    forall at :: IsLink(t, at) ==> links(TargetAt(t, at)) == Trace(t, links, Names(TargetAt(t, at)), [])
  }

  /** A walk of that depth, with `budget` levels of recursion. */
  function Within(nest: Nest, budget: nat): Outcome {
    if nest.Endless? || budget <= nest.levels then Raised(RecursionError) else nest.end
  }

  /** The table is right about `getfile` with `budget` levels. */
  ghost predicate Tells(t: Entry, links: string -> Nest, budget: nat) {
    forall at :: IsLink(t, at) ==>
      && TargetAt(t, at) != ""
      && GetFile(t, Goal(TargetAt(t, at)), true, budget) == Within(links(TargetAt(t, at)), budget)
  }

  lemma OrderlyLink(t: Entry, at: Position)
    requires Orderly(t) && Has(t, at) && At(t, at).kind.Link?
    ensures IsLink(t, at) && WellFormed(TargetAt(t, at)) && TargetAt(t, at) != ""
  {
    AllAt(LinkTargets, t, at);
    assert LinkTargets(At(t, at));
    NamesOfPieces(TargetAt(t, at));
  }

  lemma {:induction false} DescendTraces(t: Entry, links: string -> Nest, pieces: seq<string>, i: nat, at: Position,
        budget: nat)
    requires Orderly(t) && i <= |pieces| && Has(t, at) && budget > 0 && Tells(t, links, budget - 1)
    ensures Descend(t, pieces, i, at, true, budget) == Within(Trace(t, links, pieces[i..], at), budget)
    decreases |pieces| - i
  {
    hide At, Has, Visit, Scan, GetFile, Orderly, Tells;
    if i < |pieces| {
      assert DistinctKids(At(t, at)) by {
        OrderlyMeans(t);
        AllAt(DistinctKids, t, at);
      }
      DescendStep(t, pieces, i, at, true, budget);
      assert pieces[i..][0] == pieces[i] && pieces[i..][1..] == pieces[i + 1..];
      var k := Named(Kids(At(t, at)), pieces[i]);
      if k.Some? {
        HasKid(t, at, k.value);
        var kid, last := at + [k.value], pieces[i] == Last(pieces);
        VisitTraces(t, links, kid, last, budget);
        var next := Visit(t, last, kid, true, budget);
        if next.Found? {
          DescendTraces(t, links, pieces, i + 1, next.at, budget);
        }
      }
    }
  }

  lemma VisitTraces(t: Entry, links: string -> Nest, at: Position, last: bool, budget: nat)
    requires Orderly(t) && Has(t, at) && budget > 0 && Tells(t, links, budget - 1)
    ensures if IsLink(t, at) then Visit(t, last, at, true, budget) == Within(links(TargetAt(t, at)), budget - 1)
            else Visit(t, last, at, true, budget) == Found(at)
  {
    hide GetFile, Orderly;
    if At(t, at).kind.Link? {
      OrderlyLink(t, at);
    }
  }

  lemma PathTraces(t: Entry, links: string -> Nest, path: string, budget: nat)
    requires Orderly(t) && WellFormed(path) && (budget > 0 ==> Tells(t, links, budget - 1))
    ensures GetFile(t, path, true, budget) == Within(Trace(t, links, Names(path), []), budget)
  {
    hide Descend, Pieces, Names, Trace, Tells, Orderly;
    NamesOfPieces(path);
    if budget > 0 {
      if path == "/" {
        assert Trace(t, links, [], []) == Deep(0, Found([])) by { TraceNothing(t, links, []); }
      } else {
        assert Pieces(path)[0..] == Pieces(path);
        DescendTraces(t, links, Pieces(path), 0, [], budget);
      }
    }
  }

  lemma TraceNothing(t: Entry, links: string -> Nest, at: Position)
    requires Has(t, at)
    ensures Trace(t, links, [], at) == Deep(0, Found(at))
  {
  }

  lemma LinkTraces(t: Entry, links: string -> Nest, at: Position, budget: nat)
    requires Orderly(t) && IsLink(t, at) && (budget > 0 ==> Tells(t, links, budget - 1))
    ensures TargetAt(t, at) != ""
    ensures GetFile(t, Goal(TargetAt(t, at)), true, budget)
            == Within(Trace(t, links, Names(TargetAt(t, at)), []), budget)
  {
    hide GetFile, Trace, Tells, Orderly, Names;
    OrderlyLink(t, at);
    SameNames(TargetAt(t, at));
    GoalPieces(TargetAt(t, at));
    PathTraces(t, links, Goal(TargetAt(t, at)), budget);
  }

  lemma {:induction false} NestingTells(t: Entry, links: string -> Nest, budget: nat)
    requires Orderly(t) && Nesting(t, links)
    ensures Tells(t, links, budget)
  {
    hide GetFile, Trace, Orderly, Within;
    if budget > 0 {
      NestingTells(t, links, budget - 1);
    }
    forall at | IsLink(t, at)
      ensures TargetAt(t, at) != ""
      ensures GetFile(t, Goal(TargetAt(t, at)), true, budget) == Within(links(TargetAt(t, at)), budget)
    {
      LinkTraces(t, links, at, budget);
    }
  }

  /** Main result: `getfile` answers what the walk comes to, if its recursion limit exceeds the depth. */
  lemma GetFileNests(t: Entry, links: string -> Nest, path: string, budget: nat)
    requires Orderly(t) && WellFormed(path) && Nesting(t, links)
    ensures GetFile(t, path, true, budget) == Within(Trace(t, links, Names(path), []), budget)
  {
    hide GetFile, Trace, Orderly, Within, Nesting, Tells, Names;
    if budget > 0 {
      NestingTells(t, links, budget - 1);
    }
    PathTraces(t, links, path, budget);
  }

  /** Main result: on an orderly tree `_find` and `getfile` return the same entry, or both none, exactly
      when the path is not more than 16 links deep, or leads to no entry, or too deep for both. */
  lemma WalkersAgree(t: Entry, links: string -> Nest, path: string, budget: nat)
    requires Orderly(t) && !t.kind.Link? && WellFormed(path) && Nesting(t, links) && budget > 16
    ensures var nest := Trace(t, links, Names(path), []);
            && Find(t, path, 0) == Settled(Within(nest, 16 + 1))
            && (Find(t, path, 0) == Settled(GetFile(t, path, true, budget))
                <==> nest.Endless? || nest.levels <= 16 || !nest.end.Found? || budget <= nest.levels)
  {
    hide GetFile, Find, Trace, Names, Orderly, Nesting;
    FindIsGetFile(t, path, 0);
    GetFileNests(t, links, path, 16 + 1);
    GetFileNests(t, links, path, budget);
  }

  // ---------------------------------------------------------------- every tree has its depths

  ghost function Least(t: Entry, path: string, budget: nat): (n: nat)
    requires GetFile(t, path, true, budget) != Raised(RecursionError)
    ensures n > 0 && GetFile(t, path, true, n) != Raised(RecursionError)
    ensures GetFile(t, path, true, n - 1) == Raised(RecursionError)
  {
    if GetFile(t, path, true, budget - 1) == Raised(RecursionError) then budget else Least(t, path, budget - 1)
  }

  ghost function NestOf(t: Entry, path: string): (nest: Nest)
    ensures nest.Deep? ==> nest.end != Raised(RecursionError)
  {
    if exists budget: nat :: GetFile(t, path, true, budget) != Raised(RecursionError) then
      var budget: nat :| GetFile(t, path, true, budget) != Raised(RecursionError);
      var n := Least(t, path, budget);
      Deep(n - 1, GetFile(t, path, true, n))
    else Endless
  }

  lemma NestOfTells(t: Entry, path: string, budget: nat)
    ensures GetFile(t, path, true, budget) == Within(NestOf(t, path), budget)
  {
    hide GetFile;
    var nest := NestOf(t, path);
    if nest.Deep? {
      if nest.levels < budget {
        BudgetSuffices(t, path, true, nest.levels + 1, budget);
      } else if GetFile(t, path, true, budget) != Raised(RecursionError) {
        BudgetSuffices(t, path, true, budget, nest.levels);
      }
    }
  }

  ghost predicate Ends(nest: Nest) {
    nest.Deep? ==> nest.end != Raised(RecursionError)
  }

  lemma {:induction false} TraceEnds(t: Entry, links: string -> Nest, names: seq<string>, at: Position)
    requires Has(t, at) && forall target :: Ends(links(target))
    ensures Ends(Trace(t, links, names, at))
    decreases |names|
  {
    if names != [] && At(t, at).contents.Children? {
      var k := Named(Kids(At(t, at)), names[0]);
      if k.Some? {
        HasKid(t, at, k.value);
        var kid := at + [k.value];
        if !IsLink(t, kid) {
          TraceEnds(t, links, names[1..], kid);
        } else {
          var nest := links(TargetAt(t, kid));
          assert Ends(nest);
          if nest.Deep? && nest.end.Found? && Has(t, nest.end.at) {
            TraceEnds(t, links, names[1..], nest.end.at);
          }
        }
      }
    }
  }

  lemma SameNest(x: Nest, y: Nest)
    requires Ends(x) && Ends(y) && forall budget: nat :: Within(x, budget) == Within(y, budget)
    ensures x == y
  {
    var budget := (if x.Deep? then x.levels else 0) + (if y.Deep? then y.levels else 0) + 1;
    assert Within(x, budget) == Within(y, budget);
    if x.Deep? && y.Deep? {
      assert Within(x, x.levels + 1) == Within(y, x.levels + 1);
      assert Within(x, y.levels + 1) == Within(y, y.levels + 1);
    }
  }

  /** Main result: on every orderly tree, whatever its links do, there is such a table. */
  lemma NestingExists(t: Entry)
    requires Orderly(t)
    ensures exists links :: Nesting(t, links)
  {
    hide GetFile, Trace, Orderly, NestOf, Within;
    var links := (target: string) => if target == "" then Endless else NestOf(t, Goal(target));
    forall budget: nat
      ensures Tells(t, links, budget)
    {
      forall at | IsLink(t, at)
        ensures TargetAt(t, at) != ""
        ensures GetFile(t, Goal(TargetAt(t, at)), true, budget) == Within(links(TargetAt(t, at)), budget)
      {
        OrderlyLink(t, at);
        NestOfTells(t, Goal(TargetAt(t, at)), budget);
      }
    }
    forall at | IsLink(t, at)
      ensures links(TargetAt(t, at)) == Trace(t, links, Names(TargetAt(t, at)), [])
    {
      TableTraces(t, links, at);
    }
    assert Nesting(t, links);
  }

  lemma TableTraces(t: Entry, links: string -> Nest, at: Position)
    requires Orderly(t) && IsLink(t, at)
    requires forall target :: Ends(links(target))
    requires forall budget: nat :: Tells(t, links, budget)
    ensures links(TargetAt(t, at)) == Trace(t, links, Names(TargetAt(t, at)), [])
  {
    hide GetFile, Trace, Orderly, Within;
    var target := TargetAt(t, at);
    var nest := Trace(t, links, Names(target), []);
    forall budget: nat
      ensures Within(links(target), budget) == Within(nest, budget)
    {
      assert Tells(t, links, budget);
      LinkTraces(t, links, at, budget);
    }
    TraceEnds(t, links, Names(target), []);
    SameNest(links(target), nest);
  }

  // ---------------------------------------------------------------- how deep a path can be

  predicate IsDeep(nest: Nest, n: nat) {
    nest.Deep? && nest.levels == n
  }

  lemma {:induction false} TraceMeets(t: Entry, links: string -> Nest, names: seq<string>, at: Position, n: nat)
      returns (p: Position)
    requires Has(t, at) && IsDeep(Trace(t, links, names, at), n + 1)
    ensures IsLink(t, p) && IsDeep(links(TargetAt(t, p)), n)
    decreases |names|
  {
    var k := Named(Kids(At(t, at)), names[0]);
    HasKid(t, at, k.value);
    p := at + [k.value];
    if !IsLink(t, p) {
      p := TraceMeets(t, links, names[1..], p, n);
    } else {
      var nest := links(TargetAt(t, p));
      if nest.levels != n {
        p := TraceMeets(t, links, names[1..], nest.end.at, n);
      }
    }
  }

  ghost predicate TargetsIn(t: Entry, targets: set<string>) {
    forall at :: IsLink(t, at) ==> TargetAt(t, at) in targets
  }

  function UpTo(links: string -> Nest, targets: set<string>, n: nat): set<string> {
    set target | target in targets && links(target).Deep? && links(target).levels <= n
  }

  /** A link `n` levels deep leads to one of each lesser depth. */
  lemma {:induction false} EachDepthOnce(t: Entry, links: string -> Nest, targets: set<string>, at: Position, n: nat)
    requires Nesting(t, links) && TargetsIn(t, targets) && IsLink(t, at) && IsDeep(links(TargetAt(t, at)), n)
    ensures n < |UpTo(links, targets, n)|
    decreases n
  {
    hide Trace, Names;
    var target := TargetAt(t, at);
    assert target in UpTo(links, targets, n);
    if n > 0 {
      var p := TraceMeets(t, links, Names(target), [], n - 1);
      EachDepthOnce(t, links, targets, p, n - 1);
      More(UpTo(links, targets, n - 1), target, UpTo(links, targets, n));
    }
  }

  lemma {:induction false} More<T>(xs: set<T>, x: T, ys: set<T>)
    requires x !in xs && xs + {x} <= ys
    ensures |xs| < |ys|
  {
    Fewer(xs + {x}, ys);
  }

  lemma Fewer<T>(xs: set<T>, ys: set<T>)
    requires xs <= ys
    ensures |xs| <= |ys|
  {
    assert ys == xs + (ys - xs);
  }

  /** Main result: no path is deeper than there are different link targets in the tree. */
  lemma DepthBound(t: Entry, links: string -> Nest, targets: set<string>, names: seq<string>)
    requires Nesting(t, links) && TargetsIn(t, targets)
    ensures var nest := Trace(t, links, names, []); nest.Deep? ==> nest.levels <= |targets|
  {
    hide Nesting, TargetsIn;
    var nest := Trace(t, links, names, []);
    if nest.Deep? && nest.levels > 0 {
      var p := TraceMeets(t, links, names, [], nest.levels - 1);
      EachDepthOnce(t, links, targets, p, nest.levels - 1);
      Fewer(UpTo(links, targets, nest.levels - 1), targets);
    }
  }

  /** Main result: where at most 16 different targets occur, the walkers agree on every path. */
  lemma FewTargetsAgree(t: Entry, targets: set<string>, path: string, budget: nat)
    requires Orderly(t) && !t.kind.Link? && WellFormed(path) && budget > 16
    requires TargetsIn(t, targets) && |targets| <= 16
    ensures Find(t, path, 0) == Settled(GetFile(t, path, true, budget))
  {
    hide GetFile, Find, Trace, Names, Orderly, TargetsIn;
    NestingExists(t);
    var links :| Nesting(t, links);
    hide Nesting;
    DepthBound(t, links, targets, Names(path));
    WalkersAgree(t, links, path, budget);
  }

  // ---------------------------------------------------------------- links in a row

  function RowName(k: nat): string {
    seq(k + 1, i => 'l')
  }

  function Row(root: Entry, k: nat): seq<Entry> {
    seq(k + 1, i requires 0 <= i =>
      root.(name := RowName(i), kind := if i == 0 then File else Link, contents := Data([]),
            target := if i == 0 then None else Some([SLASH] + RowName(i - 1))))
  }

  /** A directory with a file, a link to it, a link to that link, and so on, `k` of them. */
  function Chain(root: Entry, k: nat): Entry {
    root.(kind := Dir, contents := Children(Row(root, k)), target := None)
  }

  lemma RowPath(k: nat)
    ensures var path := [SLASH] + RowName(k);
            WellFormed(path) && path != "" && Names(path) == [RowName(k)]
  {
    var n := RowName(k);
    assert n[0] == 'l' && Clean(n);
    assert AllClean([n]);
    JoinSmall(n);
    assert Abs([n]) == [SLASH] + n;
    AbsCanonical([n]);
    NamesEmpty();
    CanonicalIsProper([SLASH] + n);
  }

  lemma RowNamed(root: Entry, k: nat, i: nat)
    requires i <= k
    ensures Named(Row(root, k), RowName(i)) == Some(i) && Distinct(Row(root, k))
  {
    var row := Row(root, k);
    forall j | 0 <= j <= k
      ensures |row[j].name| == j + 1
    {
    }
    NamedFirst(row, RowName(i), i);
  }

  lemma ChainOrderly(root: Entry, k: nat)
    ensures Orderly(Chain(root, k))
  {
    var t := Chain(root, k);
    RowNamed(root, k, 0);
    forall j: nat | j < |Kids(t)|
      ensures All(DistinctKids, Kids(t)[j]) && All(LinkTargets, Kids(t)[j])
    {
      if j > 0 {
        RowPath(j - 1);
      }
    }
  }

  function ChainTable(target: string): Nest {
    Deep(if |target| < 2 then 0 else |target| - 2, Found([0]))
  }

  lemma ChainTrace(root: Entry, k: nat, i: nat)
    requires i <= k
    ensures Trace(Chain(root, k), ChainTable, [RowName(i)], []) == Deep(i, Found([0]))
  {
    var t := Chain(root, k);
    RowNamed(root, k, i);
    HasKid(t, [], i);
    HasKid(t, [], 0);
    assert [] + [i] == [i];
    assert [RowName(i)][1..] == [];
    TraceNothing(t, ChainTable, [0]);
  }

  lemma LeafOnly(e: Entry, at: Position)
    requires Has(e, at) && Kids(e) == []
    ensures at == []
  {
  }

  lemma ChainNesting(root: Entry, k: nat)
    ensures Nesting(Chain(root, k), ChainTable)
  {
    var t := Chain(root, k);
    forall at | IsLink(t, at)
      ensures ChainTable(TargetAt(t, at)) == Trace(t, ChainTable, Names(TargetAt(t, at)), [])
    {
      LeafOnly(Row(root, k)[at[0]], at[1..]);
      assert at[1..] == [];
      var i := at[0];
      assert At(t, at) == Row(root, k)[i];
      RowPath(i - 1);
      ChainTrace(root, k, i - 1);
    }
  }

  /** Main result: of `k` links in a row to a file `_find` finds the file exactly if `k` is at most 16,
      `getfile` exactly if its recursion limit exceeds `k`. */
  lemma LinksInARow(root: Entry, k: nat, budget: nat)
    ensures var t, path := Chain(root, k), [SLASH] + RowName(k);
            && Find(t, path, 0) == (if k <= 16 then Found([0]) else Missing)
            && GetFile(t, path, true, budget) == if k < budget then Found([0]) else Raised(RecursionError)
  {
    var t, path := Chain(root, k), [SLASH] + RowName(k);
    ChainOrderly(root, k);
    ChainNesting(root, k);
    RowPath(k);
    ChainTrace(root, k, k);
    hide GetFile, Find, Trace, Names, Orderly, Nesting, Row, RowName;
    WalkersAgree(t, ChainTable, path, 16 + 1);
    GetFileNests(t, ChainTable, path, budget);
  }

  // ---------------------------------------------------------------- a name listed twice

  lemma AtRoot(t: Entry, n: string)
    ensures Locate(t, [n]) == (if Named(Kids(t), n).None? then None else Some([Named(Kids(t), n).value]))
    ensures LocateByLast(t, [n]) == if LastNamed(Kids(t), n).None? then None else Some([LastNamed(Kids(t), n).value])
  {
    LocateHead(t, [n]);
    assert [n][1..] == [];
    var j, k := Named(Kids(t), n), LastNamed(Kids(t), n);
    if j.Some? {
      assert Locate(Kids(t)[j.value], []) == Some([]) && [j.value] + [] == [j.value];
    }
    if k.Some? {
      assert LocateByLast(Kids(t)[k.value], []) == Some([]) && [k.value] + [] == [k.value];
    }
  }

  /** Main result: for `/n` on a tree without links the walkers agree exactly if the root does not list
      `n` twice. */
  lemma TwiceTellsApart(t: Entry, n: string, follow: bool, budget: nat)
    requires All(NoLink, t) && Clean(n) && budget > 0
    ensures Find(t, Abs([n]), 0) == Settled(GetFile(t, Abs([n]), follow, budget))
            <==> forall j, k :: 0 <= j < k < |Kids(t)| ==> !(Kids(t)[j].name == Kids(t)[k].name == n)
  {
    hide GetFile, Find, Names, Locate, LocateByLast, All;
    assert AllClean([n]);
    AbsCanonical([n]);
    NamesEmpty();
    CanonicalIsProper(Abs([n]));
    FirstAgainstLast(t, Abs([n]), follow, budget);
    AtRoot(t, n);
    LastNamedNone(Kids(t), n);
    FirstIsLastExactly(Kids(t), n);
  }

  // ---------------------------------------------------------------- broken links

  /** A link at the root without a target, or with an empty one, makes `getfile` and `get_path` raise, unless
      links are not followed. */
  lemma BrokenLinkRaises(t: Entry, n: string, k: nat, budget: nat)
    requires Distinct(Kids(t)) && Clean(n) && Named(Kids(t), n) == Some(k) && budget > 1
    requires Kids(t)[k].kind.Link? && (Kids(t)[k].target == None || Kids(t)[k].target == Some(""))
    ensures GetFile(t, Abs([n]), true, budget)
            == Raised(if Kids(t)[k].target == None then TypeError else IndexError)
    ensures GetFile(t, Abs([n]), false, budget) == Found([k])
    ensures Kids(t)[k].target == None ==> GetPath(t, Abs([n]), true, budget) == Raised(AttributeError)
  {
    assert AllClean([n]);
    AbsCanonical([n]);
    SoughtCanonical(Abs([n]));
    NamesEmpty();
    var path := Abs([n]);
    assert path != "/" && Pieces(path) == [n];
    assert Kids(At(t, [])) == Kids(t);
    HasKid(t, [], k);
    assert [] + [k] == [k];
    DescendStep(t, [n], 0, [], true, budget);
    DescendStep(t, [n], 0, [], false, budget);
    hide Names, Pieces, Descend, Named, Abs;
    assert Visit(t, true, [k], true, budget) == Raised(if Kids(t)[k].target == None then TypeError else IndexError);
    assert Visit(t, true, [k], false, budget) == Found([k]);
    DescendEnds(t, [n], [k], budget);
  }

  lemma DescendEnds(t: Entry, pieces: seq<string>, at: Position, budget: nat)
    requires Has(t, at) && budget > 0
    ensures Descend(t, pieces, |pieces|, at, false, budget) == Found(at)
  {
  }
}
