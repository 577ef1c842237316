/** `getfile` and `get_path` of cowrie-shell-source/fs.py, and `_find` of cowrie-shell-source/honeyfs.py. */
module FsWalkers {
  import opened Sequences
  import opened Strings
  import opened Paths
  import opened FsTree

  datatype Error =
    | FileNotFound | PermissionDenied | NoEntry | Exists | NotDirectory | NotEmpty | Quota
    | ValueError | TypeError | AttributeError | IndexError | RecursionError

  datatype Outcome = Found(at: Position) | Missing | Raised(error: Error)

  /** `path.strip("/").split("/")`. */
  function Pieces(path: string): (ps: seq<string>)
    ensures ps != []
  {
    Split(SLASH, LStrip(RStrip(path)))
  }

  // ---------------------------------------------------------------- getfile

  /** A link's target, as `getfile` reads it: always from the root. */
  function Goal(target: string): string
    requires target != ""
  {
    if target[0] == SLASH then target else [SLASH] + target
  }

  /** `budget` is what is left of Python's recursion limit. */
  function GetFile(t: Entry, path: string, follow: bool, budget: nat): (r: Outcome)
    ensures r.Found? ==> Has(t, r.at)
    decreases budget, 2, 0, 0
  {
    if budget == 0 then Raised(RecursionError)
    else if path == "/" then Found([])
    else Descend(t, Pieces(path), 0, [], follow, budget)
  }

  /** The loop over the pieces, of which `i` are done. */
  function Descend(t: Entry, pieces: seq<string>, i: nat, at: Position, follow: bool, budget: nat): (r: Outcome)
    requires i <= |pieces| && Has(t, at) && budget > 0
    ensures r.Found? ==> Has(t, r.at)
    decreases budget, 1, |pieces| - i, |Kids(At(t, at))| + 1
  {
    if i == |pieces| then Found(at)
    else match At(t, at).contents
      case Data(bytes) => if bytes == [] then Missing else Raised(TypeError)
      case Children(entries) =>
        if Named(entries, pieces[i]).None? then Missing
        else
          var p := Scan(t, pieces, i, at, 0, at, follow, budget);
          if p.Found? then Descend(t, pieces, i + 1, p.at, follow, budget) else p
  }

  /** The inner loop: it runs over all the entries of `dir`, so the last one of the name decides. */
  function Scan(t: Entry, pieces: seq<string>, i: nat, dir: Position, k: nat, p: Position, follow: bool, budget: nat)
    : (r: Outcome)
    requires i < |pieces| && Has(t, dir) && k <= |Kids(At(t, dir))| && Has(t, p) && budget > 0
    ensures r.Found? ==> Has(t, r.at)
    decreases budget, 1, |pieces| - i, |Kids(At(t, dir))| - k
  {
    HasKids(t, dir);
    if k == |Kids(At(t, dir))| then Found(p)
    else if Kids(At(t, dir))[k].name != pieces[i] then Scan(t, pieces, i, dir, k + 1, p, follow, budget)
    else
      var entered := Visit(t, pieces[i] == Last(pieces), dir + [k], follow, budget);
      if entered.Found? then Scan(t, pieces, i, dir, k + 1, entered.at, follow, budget) else entered
  }

  /** `last` compares names, not places: an earlier piece of the last name also counts. */
  function Visit(t: Entry, last: bool, at: Position, follow: bool, budget: nat): (r: Outcome)
    requires Has(t, at) && budget > 0
    ensures r.Found? ==> Has(t, r.at)
    decreases budget, 0, 0, 0
  {
    var x := At(t, at);
    if (last && !follow) || !x.kind.Link? then Found(at)
    else if x.target.None? then Raised(TypeError)
    else if x.target.value == "" then Raised(IndexError)
    else GetFile(t, Goal(x.target.value), follow, budget - 1)
  }

  lemma HasKids(t: Entry, at: Position)
    requires Has(t, at)
    ensures forall k: nat :: k < |Kids(At(t, at))| ==> Has(t, at + [k]) && At(t, at + [k]) == Kids(At(t, at))[k]
  {
    forall k: nat | k < |Kids(At(t, at))|
      ensures Has(t, at + [k]) && At(t, at + [k]) == Kids(At(t, at))[k]
    {
      HasKid(t, at, k);
    }
  }

  // ---------------------------------------------------------------- get_path

  /** The result stands for the contents of the entry at that position. */
  function GetPath(t: Entry, path: string, follow: bool, budget: nat): (r: Outcome)
    ensures r.Found? ==> Has(t, r.at)
    ensures !r.Missing?
  {
    if budget == 0 then Raised(RecursionError) else GetPathFrom(t, Names(path), [], follow, budget)
  }

  function GetPathFrom(t: Entry, parts: seq<string>, at: Position, follow: bool, budget: nat): (r: Outcome)
    requires Has(t, at) && budget > 0
    ensures r.Found? ==> Has(t, r.at)
    ensures !r.Missing?
    decreases |parts|
  {
    HasKids(t, at);
    if parts == [] then Found(at)
    else if !At(t, at).contents.Children? then Raised(FileNotFound)
    else
      var k := Named(Kids(At(t, at)), parts[0]);
      if k.None? then Raised(FileNotFound)
      else
        var next := Arrive(t, at + [k.value], follow, budget);
        if next.Found? then GetPathFrom(t, parts[1..], next.at, follow, budget) else next
  }

  function Arrive(t: Entry, at: Position, follow: bool, budget: nat): (r: Outcome)
    requires Has(t, at) && budget > 0
    ensures r.Found? ==> Has(t, r.at)
    ensures !r.Missing?
  {
    var x := At(t, at);
    if !x.kind.Link? then Found(at)
    else if x.target.None? then Raised(AttributeError)
    else
      var f := GetFile(t, x.target.value, follow, budget - 1);
      if f.Missing? then Raised(FileNotFound) else f
  }

  // ---------------------------------------------------------------- _find

  const MAX_SYMLINK_DEPTH: nat := 16

  function Find(t: Entry, path: string, depth: nat): (r: Outcome)
    ensures r.Found? ==> Has(t, r.at)
    decreases MAX_SYMLINK_DEPTH + 1 - depth, 2, 0
  {
    if depth > MAX_SYMLINK_DEPTH then Missing else FindFrom(t, Names(path), [], depth)
  }

  function FindFrom(t: Entry, parts: seq<string>, at: Position, depth: nat): (r: Outcome)
    requires Has(t, at) && depth <= MAX_SYMLINK_DEPTH
    ensures r.Found? ==> Has(t, r.at)
    decreases MAX_SYMLINK_DEPTH + 1 - depth, 1, |parts|
  {
    var node := Follow(t, at, depth);
    if parts == [] || !node.Found? then node
    else if !At(t, node.at).contents.Children? then Missing
    else
      var k := Named(Kids(At(t, node.at)), parts[0]);
      HasKids(t, node.at);
      if k.None? then Missing else FindFrom(t, parts[1..], node.at + [k.value], depth)
  }

  function Follow(t: Entry, at: Position, depth: nat): (r: Outcome)
    requires Has(t, at) && depth <= MAX_SYMLINK_DEPTH
    ensures r.Found? ==> Has(t, r.at)
    decreases MAX_SYMLINK_DEPTH + 1 - depth, 0, 0
  {
    var x := At(t, at);
    if !x.kind.Link? then Found(at)
    else if x.target.None? then Raised(AttributeError)
    else Find(t, x.target.value, depth + 1)
  }

  /** Main result: on every tree, whatever its links do, `_find` answers, and never with a link. */
  lemma {:induction false} FindNeverLink(t: Entry, path: string, depth: nat)
    ensures var r := Find(t, path, depth); r.Found? ==> !At(t, r.at).kind.Link?
    decreases MAX_SYMLINK_DEPTH + 1 - depth, 1, 0
  {
    if depth <= MAX_SYMLINK_DEPTH {
      FindFromNeverLink(t, Names(path), [], depth);
    }
  }

  lemma {:induction false} FindFromNeverLink(t: Entry, parts: seq<string>, at: Position, depth: nat)
    requires Has(t, at) && depth <= MAX_SYMLINK_DEPTH
    ensures var r := FindFrom(t, parts, at, depth); r.Found? ==> !At(t, r.at).kind.Link?
    decreases MAX_SYMLINK_DEPTH + 1 - depth, 0, |parts|
  {
    var x := At(t, at);
    if x.kind.Link? && x.target.Some? {
      FindNeverLink(t, x.target.value, depth + 1);
    }
    var node := Follow(t, at, depth);
    if parts != [] && node.Found? && At(t, node.at).contents.Children? {
      var k := Named(Kids(At(t, node.at)), parts[0]);
      if k.Some? {
        HasKids(t, node.at);
        FindFromNeverLink(t, parts[1..], node.at + [k.value], depth);
      }
    }
  }

  /** The loop of `_find`. */
  method FindEntry(tree: Entry, path: string, depth: nat) returns (r: Outcome)
    ensures r == Find(tree, path, depth)
    decreases MAX_SYMLINK_DEPTH + 1 - depth
  {
    hide Names, Named;
    if depth > MAX_SYMLINK_DEPTH {
      return Missing;
    }
    var parts := Names(path);
    var node: Position := [];
    while parts != []
      invariant Has(tree, node)
      invariant FindFrom(tree, parts, node, depth) == FindFrom(tree, Names(path), [], depth)
      decreases |parts|
    {
      var place := node;
      if At(tree, place).kind.Link? {
        if At(tree, place).target.None? {
          return Raised(AttributeError);
        }
        var resolved := FindEntry(tree, At(tree, place).target.value, depth + 1);
        if !resolved.Found? {
          return resolved;
        }
        place := resolved.at;
      }
      if !At(tree, place).contents.Children? {
        return Missing;
      }
      var k := Named(Kids(At(tree, place)), parts[0]);
      HasKids(tree, place);
      if k.None? {
        return Missing;
      }
      node, parts := place + [k.value], parts[1..];
    }
    if At(tree, node).kind.Link? {
      if At(tree, node).target.None? {
        return Raised(AttributeError);
      }
      r := FindEntry(tree, At(tree, node).target.value, depth + 1);
    } else {
      return Found(node);
    }
  }

  // ---------------------------------------------------------------- well-formed trees

  /** The root, or a path without empty pieces between its outer slashes. */
  predicate WellFormed(path: string) {
    path == "/" || "" !in Pieces(path)
  }

  predicate LinkTargets(e: Entry) {
    e.kind.Link? ==> e.target.Some? && WellFormed(e.target.value)
  }

  ghost predicate Orderly(t: Entry) {
    All(DistinctKids, t) && All(LinkTargets, t)
  }

  lemma NamesOfPieces(path: string)
    requires WellFormed(path)
    ensures path != "" && Names(path) == if path == "/" then [] else Pieces(path)
  {
    if path == "/" {
      NamesEmpty();
    } else {
      NamesRStrip(path);
      NamesLStrip(RStrip(path));
      NonEmptyWhole(Pieces(path));
      assert Split(SLASH, "") == [""];
    }
  }

  lemma {:induction false} RStripSlash(s: string)
    requires s != "" && s[0] != SLASH
    ensures RStrip(s) != "" && RStrip([SLASH] + s) == [SLASH] + RStrip(s)
  {
    if s[|s| - 1] == SLASH {
      RStripSlash(s[..|s| - 1]);
      assert ([SLASH] + s)[..|s|] == [SLASH] + s[..|s| - 1];
    }
  }

  lemma GoalPieces(target: string)
    requires WellFormed(target)
    ensures target != "" && WellFormed(Goal(target))
    ensures (Goal(target) == "/") == (target == "/") && Pieces(Goal(target)) == Pieces(target)
  {
    NamesOfPieces(target);
    if target[0] != SLASH {
      RStripSlash(target);
      assert ([SLASH] + RStrip(target))[1..] == RStrip(target);
    }
  }

  /** With distinct names, the inner loop enters the one entry of that name. */
  lemma {:induction false} ScanOne(t: Entry, pieces: seq<string>, i: nat, dir: Position, j: nat, k: nat,
        p: Position, follow: bool, budget: nat)
    requires i < |pieces| && Has(t, dir) && Has(t, p) && budget > 0
    requires j <= k < |Kids(At(t, dir))| && Distinct(Kids(At(t, dir))) && Kids(At(t, dir))[k].name == pieces[i]
    ensures Has(t, dir + [k])
    ensures Scan(t, pieces, i, dir, j, p, follow, budget)
         == Visit(t, pieces[i] == Last(pieces), dir + [k], follow, budget)
    decreases k - j
  {
    hide Visit;
    HasKids(t, dir);
    if j < k {
      ScanOne(t, pieces, i, dir, j + 1, k, p, follow, budget);
    } else {
      var entered := Visit(t, pieces[i] == Last(pieces), dir + [k], follow, budget);
      if entered.Found? {
        ScanNone(t, pieces, i, dir, k + 1, k, entered.at, follow, budget);
      }
    }
  }

  lemma {:induction false} ScanNone(t: Entry, pieces: seq<string>, i: nat, dir: Position, j: nat, k: nat,
        p: Position, follow: bool, budget: nat)
    requires i < |pieces| && Has(t, dir) && Has(t, p) && budget > 0
    requires k < j <= |Kids(At(t, dir))| && Distinct(Kids(At(t, dir))) && Kids(At(t, dir))[k].name == pieces[i]
    ensures Scan(t, pieces, i, dir, j, p, follow, budget) == Found(p)
    decreases |Kids(At(t, dir))| - j
  {
    if j < |Kids(At(t, dir))| {
      ScanNone(t, pieces, i, dir, j + 1, k, p, follow, budget);
    }
  }

  /** One step of `getfile` on distinct names. */
  lemma DescendStep(t: Entry, pieces: seq<string>, i: nat, at: Position, follow: bool, budget: nat)
    requires i < |pieces| && Has(t, at) && budget > 0 && Distinct(Kids(At(t, at)))
    ensures var k := Named(Kids(At(t, at)), pieces[i]);
            var r := Descend(t, pieces, i, at, follow, budget);
            if k.None? then
              r == (if At(t, at).contents.Data? && At(t, at).contents.bytes != [] then Raised(TypeError) else Missing)
            else
              && Has(t, at + [k.value])
              && var p := Visit(t, pieces[i] == Last(pieces), at + [k.value], follow, budget);
                 r == if p.Found? then Descend(t, pieces, i + 1, p.at, follow, budget) else p
  {
    hide Visit;
    var k := Named(Kids(At(t, at)), pieces[i]);
    if k.Some? {
      ScanOne(t, pieces, i, at, 0, k.value, at, follow, budget);
    }
  }

  // ---------------------------------------------------------------- _find and getfile

  function Settled(r: Outcome): Outcome {
    if r.Raised? then Missing else r
  }

  /** `_find`, at some depth, is `getfile` with the recursion limit that depth leaves. */
  lemma {:induction false} FindIsGetFile(t: Entry, path: string, depth: nat)
    requires Orderly(t) && !t.kind.Link? && WellFormed(path) && depth <= MAX_SYMLINK_DEPTH + 1
    ensures Find(t, path, depth) == Settled(GetFile(t, path, true, MAX_SYMLINK_DEPTH + 1 - depth))
    decreases MAX_SYMLINK_DEPTH + 1 - depth, 2, 0
  {
    hide Descend, FindFrom, Pieces, Names;
    NamesOfPieces(path);
    if depth <= MAX_SYMLINK_DEPTH {
      if path == "/" {
        FindAtRoot(t, depth);
      } else {
        var pieces := Pieces(path);
        assert pieces[0..] == pieces;
        FindFromIsDescend(t, pieces, 0, [], [], depth);
      }
    }
  }

  lemma FindAtRoot(t: Entry, depth: nat)
    requires !t.kind.Link? && depth <= MAX_SYMLINK_DEPTH
    ensures FindFrom(t, [], [], depth) == Found([])
  {
  }

  /** `_find` stands at `node`, a link perhaps, where `getfile` has already arrived at `at`. */
  lemma {:induction false} FindFromIsDescend(t: Entry, pieces: seq<string>, i: nat, node: Position, at: Position,
        depth: nat)
    requires Orderly(t) && !t.kind.Link?
    requires i <= |pieces| && depth <= MAX_SYMLINK_DEPTH
    requires Has(t, node) && Follow(t, node, depth) == Found(at)
    ensures FindFrom(t, pieces[i..], node, depth)
            == Settled(Descend(t, pieces, i, at, true, MAX_SYMLINK_DEPTH + 1 - depth))
    decreases MAX_SYMLINK_DEPTH + 1 - depth, 1, |pieces| - i
  {
    hide Follow, Visit, Scan;
    var budget := MAX_SYMLINK_DEPTH + 1 - depth;
    if i < |pieces| {
      AllAt(DistinctKids, t, at);
      HasKids(t, at);
      DescendStep(t, pieces, i, at, true, budget);
      assert pieces[i..][0] == pieces[i] && pieces[i..][1..] == pieces[i + 1..];
      var k := Named(Kids(At(t, at)), pieces[i]);
      if k.Some? {
        var kid := at + [k.value];
        FollowIsVisit(t, kid, pieces[i] == Last(pieces), depth);
        var next := Follow(t, kid, depth);
        if next.Found? {
          FindFromIsDescend(t, pieces, i + 1, kid, next.at, depth);
        } else {
          FindFromLost(t, pieces[i + 1..], kid, depth);
        }
      }
    }
  }

  lemma FindFromLost(t: Entry, parts: seq<string>, at: Position, depth: nat)
    requires Has(t, at) && depth <= MAX_SYMLINK_DEPTH && !Follow(t, at, depth).Found?
    ensures FindFrom(t, parts, at, depth) == Follow(t, at, depth)
  {
  }

  lemma {:induction false} FollowIsVisit(t: Entry, at: Position, last: bool, depth: nat)
    requires Orderly(t) && !t.kind.Link? && Has(t, at) && depth <= MAX_SYMLINK_DEPTH
    ensures Follow(t, at, depth) == Settled(Visit(t, last, at, true, MAX_SYMLINK_DEPTH + 1 - depth))
    decreases MAX_SYMLINK_DEPTH + 1 - depth, 0, 0
  {
    hide GetFile, Find, Pieces, Names, WellFormed;
    var x := At(t, at);
    AllAt(LinkTargets, t, at);
    assert LinkTargets(x);
    if x.kind.Link? {
      var target := x.target.value;
      GoalPieces(target);
      SameNames(target);
      FindByNames(t, target, Goal(target), depth + 1);
      FindIsGetFile(t, Goal(target), depth + 1);
    }
  }

  lemma SameNames(target: string)
    requires WellFormed(target)
    ensures target != "" && Names(Goal(target)) == Names(target)
  {
    hide Pieces, Names;
    GoalPieces(target);
    NamesOfPieces(target);
    NamesOfPieces(Goal(target));
  }

  lemma FindByNames(t: Entry, path: string, path': string, depth: nat)
    requires Names(path) == Names(path')
    ensures Find(t, path, depth) == Find(t, path', depth)
  {
  }
}
