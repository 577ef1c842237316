/** The two tables of the session state: every change keeps them telling the same tree, and a
    removal takes a whole subtree. */
module SessionTree {
  import opened Sequences
  import opened Strings
  import opened Paths
  import opened FsPaths
  import opened SessionState

  // ---------------------------------------------------------------- paths

  lemma ParentOfChild(p: Norm, n: string)
    ensures Parent(Child(p, n)) == p && Name(Child(p, n)) == n
  {
    assert Front(p.names + [n]) == p.names;
  }

  lemma ChildOfParent(p: Norm)
    requires p.names != []
    ensures Child(Parent(p), Name(p)) == p
  {
  }

  lemma {:induction false} JoinConcat(a: seq<string>, b: seq<string>)
    requires a != [] && b != []
    ensures Join(SLASH, a + b) == Join(SLASH, a) + [SLASH] + Join(SLASH, b)
    decreases |b|
  {
    if |b| == 1 {
      assert b == [b[0]];
      JoinSnoc(a, b[0]);
    } else {
      assert a + b == (a + [b[0]]) + b[1..];
      JoinConcat(a + [b[0]], b[1..]);
      JoinSnoc(a, b[0]);
    }
  }

  /** Main result: on paths of proper names, the prefix test on texts finds exactly the ancestors: `/ab`
      is not taken for a place below `/a`. */
  lemma AncestorIsPrefix(a: Norm, b: Norm)
    requires !a.double && !b.double && AllWhole(a.names) && AllWhole(b.names)
    ensures IsAncestor(a, b) <==> a.names <= b.names
  {
    hide Join, Names;
    assert Text(a) == Abs(a.names) && Text(b) == Abs(b.names) by { TextAbs(a); TextAbs(b); }
    if Text(a) + "/" <= Text(b) {
      var rest := Text(b)[|Text(a)| + 1..];
      assert Text(b) == Abs(a.names) + [SLASH] + rest;
      NamesConcat(Abs(a.names), rest);
      NamesAbs(a.names);
      NamesAbs(b.names);
    }
    if a.names <= b.names && a.names != [] && a != b {
      var c := b.names[|a.names|..];
      assert b.names == a.names + c;
      JoinConcat(a.names, c);
      assert Text(b) == Abs(a.names) + "/" + Join(SLASH, c);
    }
  }

  lemma TextAbs(p: Norm)
    requires !p.double
    ensures Text(p) == Abs(p.names)
  {
  }

  /** Main result: the text of a path splits and joins as `posixpath` does it. */
  lemma TextSplits(p: Norm)
    requires !p.double && AllClean(p.names) && p.names != []
    ensures Filesystem.Dirname(Text(p)) == Text(Parent(p)) && Filesystem.Basename(Text(p)) == Name(p)
    ensures Text(p) == JoinPath(Text(Parent(p)), Name(p))
  {
    hide Join;
    assert p.names == Front(p.names) + [Last(p.names)] && Last(p.names) in p.names;
    CleanIsWhole(p.names);
    assert forall n :: n in Front(p.names) ==> n in p.names;
    AbsSnoc(Front(p.names), Last(p.names));
    TextAbs(p);
    TextAbs(Parent(p));
    if Front(p.names) == [] {
      JoinSmall(Last(p.names));
    }
  }

  lemma NormPathClean(path: string)
    ensures AllClean(NormPath(path).names)
  {
    WalkSkipsEmpty([], Split(SLASH, path));
    NamesWhole(path);
    WalkClean([], Names(path));
  }

  // ---------------------------------------------------------------- growing

  lemma NewIsChild(e: Engine, p: Norm)
    requires AllCleanKeys(e.nodes) && p !in e.nodes && NoPlace(e, p, Invalid).None?
    ensures p.names != [] && !p.double && p == Child(Parent(p), Name(p)) && Parent(p) in e.nodes
        && e.nodes[Parent(p)] == Dir
  {
    assert Parent(p).double == p.double;
    assert CleanKey(Parent(p));
    if p.names != [] {
      ChildOfParent(p);
    }
  }

  lemma NoneBelow(e: Engine, p: Norm, n: string)
    requires ParentsAreDirs(e.nodes) && p !in e.nodes
    ensures Child(p, n) !in e.nodes
  {
    ParentOfChild(p, n);
    assert Child(p, n) in e.nodes ==> HasParent(e.nodes, Child(p, n));
  }

  /** A new key under a directory. */
  lemma GrownParents(nodes: map<Norm, Kind>, p: Norm, kind: Kind)
    requires ParentsAreDirs(nodes) && AllCleanKeys(nodes)
    requires p !in nodes && CleanKey(p) && HasParent(nodes, p)
    ensures ParentsAreDirs(nodes[p := kind]) && AllCleanKeys(nodes[p := kind])
  {
    hide CleanKey;
    var nodes' := nodes[p := kind];
    forall k | k in nodes'
      ensures HasParent(nodes', k)
    {
      assert HasParent(nodes, k);
    }
    forall k | k in nodes'
      ensures CleanKey(k)
    {
    }
  }

  lemma AddDirTables(e: Engine, p: Norm)
    requires SameTables(e.nodes, e.children) && ParentsAreDirs(e.nodes)
    requires p !in e.nodes && p.names != [] && HasParent(e.nodes, p)
    ensures SameTables(AddDir(e, p).nodes, AddDir(e, p).children)
  {
    hide ParentsAreDirs;
    var e' := AddDir(e, p);
    ChildOfParent(p);
    forall d, n | d in e'.children
      ensures n in e'.children[d] <==> Child(d, n) in e'.nodes
    {
      ParentOfChild(d, n);
      NoneBelow(e, p, n);
    }
  }

  lemma AddDirConsistent(e: Engine, p: Norm)
    requires Consistent(e.nodes, e.children) && p !in e.nodes && NoPlace(e, p, Invalid).None? && AllClean(p.names)
    ensures Consistent(AddDir(e, p).nodes, AddDir(e, p).children)
  {
    NewIsChild(e, p);
    AddDirTables(e, p);
    GrownParents(e.nodes, p, Dir);
    hide AllCleanKeys, ParentsAreDirs, SameTables, NoPlace;
  }

  lemma AddFileTables(e: Engine, p: Norm)
    requires SameTables(e.nodes, e.children)
    requires p !in e.nodes && p.names != [] && HasParent(e.nodes, p)
    ensures SameTables(AddFile(e, p).nodes, AddFile(e, p).children)
  {
    var e' := AddFile(e, p);
    ChildOfParent(p);
    forall d, n | d in e'.children
      ensures n in e'.children[d] <==> Child(d, n) in e'.nodes
    {
      ParentOfChild(d, n);
    }
  }

  lemma AddFileConsistent(e: Engine, p: Norm)
    requires Consistent(e.nodes, e.children) && p !in e.nodes && NoPlace(e, p, Invalid).None? && AllClean(p.names)
    ensures Consistent(AddFile(e, p).nodes, AddFile(e, p).children)
  {
    NewIsChild(e, p);
    AddFileTables(e, p);
    GrownParents(e.nodes, p, File);
    hide AllCleanKeys, ParentsAreDirs, SameTables, NoPlace;
  }

  // ---------------------------------------------------------------- removing

  lemma UnderChild(p: Norm, d: Norm, n: string)
    requires !p.double && !d.double
    ensures Under(p, d) ==> Under(p, Child(d, n))
    ensures Under(p, Child(d, n)) ==> Under(p, d) || Child(d, n) == p
  {
  }

  lemma UnderParent(p: Norm, k: Norm)
    requires Under(p, Parent(k))
    ensures Under(p, k)
  {
  }

  /** Both tables without `p` and everything below it. */
  function Removed(e: Engine, p: Norm): Engine {
    e.(nodes := map k | k in e.nodes && !Under(p, k) :: e.nodes[k],
       children := map k | k in e.children && !Under(p, k) ::
         if k == Parent(p) then e.children[k] - {Name(p)} else e.children[k])
  }

  lemma RemovedParents(e: Engine, p: Norm)
    requires ParentsAreDirs(e.nodes) && AllCleanKeys(e.nodes) && p.names != []
    ensures ParentsAreDirs(Removed(e, p).nodes) && AllCleanKeys(Removed(e, p).nodes)
  {
    hide CleanKey;
    var nodes' := Removed(e, p).nodes;
    forall k | k in nodes'
      ensures HasParent(nodes', k)
    {
      assert HasParent(e.nodes, k);
      if Under(p, Parent(k)) {
        UnderParent(p, k);
      }
    }
    forall k | k in nodes'
      ensures CleanKey(k)
    {
    }
  }

  /** Whether a directory still lists a name. */
  lemma RemovedLists(e: Engine, p: Norm, d: Norm, n: string)
    requires SameTables(e.nodes, e.children) && p.names != [] && !p.double && !d.double && d in Removed(e, p).children
    ensures n in Removed(e, p).children[d] <==> Child(d, n) in Removed(e, p).nodes
  {
    ChildOfParent(p);
    ParentOfChild(d, n);
    UnderChild(p, d, n);
  }

  lemma RemovedTables(e: Engine, p: Norm)
    requires SameTables(e.nodes, e.children) && AllCleanKeys(e.nodes) && p.names != [] && !p.double
    ensures SameTables(Removed(e, p).nodes, Removed(e, p).children)
  {
    var e' := Removed(e, p);
    forall d, n | d in e'.children
      ensures n in e'.children[d] <==> Child(d, n) in e'.nodes
    {
      assert d in e.nodes && CleanKey(d);
      RemovedLists(e, p, d, n);
    }
  }

  lemma RemovedConsistent(e: Engine, p: Norm)
    requires Consistent(e.nodes, e.children) && p in e.nodes && p != ROOT
    ensures Consistent(Removed(e, p).nodes, Removed(e, p).children)
  {
    assert CleanKey(p);
    RemovedParents(e, p);
    RemovedTables(e, p);
    hide Removed, ParentsAreDirs, AllCleanKeys, SameTables;
  }

  /** Whatever is below a directory is below, or is, one of the names it lists. */
  lemma {:induction false} BelowIsListed(e: Engine, p: Norm, k: Norm)
    requires Consistent(e.nodes, e.children) && k in e.nodes && Under(p, k) && k != p
    ensures |k.names| > |p.names| && p in e.children && k.names[|p.names|] in e.children[p]
    ensures Under(Child(p, k.names[|p.names|]), k)
    decreases |k.names|
  {
    var n := k.names[|p.names|];
    ChildOfParent(k);
    assert HasParent(e.nodes, k);
    hide ParentsAreDirs, AllCleanKeys;
    if |k.names| == |p.names| + 1 {
      assert Parent(k) == p && Name(k) == n;
    } else {
      BelowIsListed(e, p, Parent(k));
    }
  }

  // ---------------------------------------------------------------- removing, child by child

  /** At or below one of the entries `done` of `p`. */
  predicate UnderOneOf(p: Norm, done: set<string>, k: Norm) {
    |k.names| > |p.names| && Under(p, k) && k.names[|p.names|] in done
  }

  /** The tables once the entries `done` of `p` are gone. */
  function RemovedSome(e: Engine, p: Norm, done: set<string>): Engine {
    e.(nodes := map k | k in e.nodes && !UnderOneOf(p, done, k) :: e.nodes[k],
       children := map k | k in e.children && !UnderOneOf(p, done, k) ::
         if k == p then e.children[k] - done else e.children[k])
  }

  lemma UnderOneMore(p: Norm, done: set<string>, n: string, k: Norm)
    ensures UnderOneOf(p, done + {n}, k) <==> UnderOneOf(p, done, k) || Under(Child(p, n), k)
  {
    if Under(Child(p, n), k) {
      assert k.names[|p.names|] == n && p.names <= k.names;
    }
    if UnderOneOf(p, {n}, k) {
      assert p.names + [n] == k.names[..|p.names| + 1];
    }
  }

  lemma RemovedNone(e: Engine, p: Norm)
    ensures RemovedSome(e, p, {}) == e
  {
    assert RemovedSome(e, p, {}).nodes == e.nodes;
    forall k | k in e.children
      ensures e.children[k] - {} == e.children[k]
    {
    }
    assert RemovedSome(e, p, {}).children == e.children;
  }

  lemma RemovedOneMore(e: Engine, p: Norm, done: set<string>, n: string)
    ensures Removed(RemovedSome(e, p, done), Child(p, n)) == RemovedSome(e, p, done + {n})
  {
    ParentOfChild(p, n);
    var a, b := Removed(RemovedSome(e, p, done), Child(p, n)), RemovedSome(e, p, done + {n});
    forall k: Norm
      ensures UnderOneOf(p, done + {n}, k) <==> UnderOneOf(p, done, k) || Under(Child(p, n), k)
    {
      UnderOneMore(p, done, n, k);
    }
    hide UnderOneOf, Under;
    assert a.nodes == b.nodes;
    assert p in e.children ==> e.children[p] - done - {n} == e.children[p] - (done + {n});
    assert a.children == b.children;
  }

  /** Both tables without `p` itself. */
  function Popped(e: Engine, p: Norm): Engine {
    var children := e.children - {p};
    e.(nodes := e.nodes - {p},
       children := if Parent(p) in children then children[Parent(p) := children[Parent(p)] - {Name(p)}] else children)
  }

  lemma PoppedIsRemoved(e: Engine, p: Norm)
    requires Consistent(e.nodes, e.children) && p in e.nodes && p != ROOT
    ensures Popped(RemovedSome(e, p, Kids(e, p)), p) == Removed(e, p)
  {
    var a, b := Popped(RemovedSome(e, p, Kids(e, p)), p), Removed(e, p);
    assert CleanKey(p) && Parent(p) != p;
    forall k | k in e.nodes && k != p
      ensures Under(p, k) <==> UnderOneOf(p, Kids(e, p), k)
    {
      if Under(p, k) {
        BelowIsListed(e, p, k);
      }
    }
    assert Under(p, p) && !UnderOneOf(p, Kids(e, p), p);
    NotUnderParent(p);
    hide UnderOneOf, Under, AllCleanKeys, ParentsAreDirs;
    assert a.nodes == b.nodes;
    PoppedChildren(e, p);
  }

  lemma NotUnderParent(p: Norm)
    requires p.names != []
    ensures !Under(p, Parent(p))
  {
  }

  lemma PoppedChildren(e: Engine, p: Norm)
    requires SameTables(e.nodes, e.children) && p in e.nodes && Parent(p) != p && !Under(p, Parent(p)) && Under(p, p)
    requires forall k :: k in e.nodes && k != p ==> (Under(p, k) <==> UnderOneOf(p, Kids(e, p), k))
    ensures Popped(RemovedSome(e, p, Kids(e, p)), p).children == Removed(e, p).children
  {
    hide UnderOneOf, Under, Kids, Name, Parent;
    assert forall k :: k in e.children ==> k in e.nodes;
    hide SameTables;
    var some := RemovedSome(e, p, Kids(e, p)).children - {p};
    assert some == map k | k in e.children && !Under(p, k) :: e.children[k];
  }

  lemma ChildListed(e: Engine, p: Norm, done: set<string>, n: string)
    requires Consistent(e.nodes, e.children) && n in Kids(e, p) && n !in done
    ensures Child(p, n) in RemovedSome(e, p, done).nodes && Child(p, n) != ROOT
  {
    assert (p.names + [n])[|p.names|] == n;
  }

  // ---------------------------------------------------------------- the recursive removal

  /** Nothing at or below `p` is as many as `budget` levels below it. */
  ghost predicate Shallow(e: Engine, p: Norm, budget: nat) {
    forall k :: k in e.nodes && Under(p, k) ==> |k.names| < |p.names| + budget
  }

  /** What a removal that was broken off leaves: the same tree, less some things below `p`. */
  ghost predicate Partly(e: Engine, e': Engine, p: Norm) {
    && Consistent(e'.nodes, e'.children) && e' == e.(nodes := e'.nodes, children := e'.children)
    && (forall k :: k in e'.nodes ==> k in e.nodes && e'.nodes[k] == e.nodes[k])
    && (forall k :: k in e.nodes && (k == p || !Under(p, k)) ==> k in e'.nodes)
  }

  ghost predicate Exact(e: Engine, p: Norm, budget: nat, result: (Engine, Removal)) {
    if Shallow(e, p, budget) then result == (Removed(e, p), Gone)
    else result.1 == TooDeep && Partly(e, result.0, p)
  }

  lemma {:induction false} RemoveTreeExact(h: Host, e: Engine, p: Norm, budget: nat)
    requires Faithful(h) && Consistent(e.nodes, e.children) && p in e.nodes && p != ROOT
    ensures Exact(e, p, budget, RemoveTree(h.order, e, p, budget))
    decreases budget, 0
  {
    if budget == 0 {
      NotShallow(e, p);
    } else if e.nodes[p] != Dir {
      FileExact(e, p, budget);
    } else {
      var names := h.order(p, Kids(e, p));
      assert Lists(names, Kids(e, p));
      RemovedNone(e, p);
      EachExact(h, e, p, {}, names, budget - 1);
      DirExact(e, p, names, budget, RemoveEach(h.order, e, p, names, budget - 1));
    }
  }

  /** The names left to remove, from the state in which those of `done` are gone. */
  lemma {:induction false} EachExact(h: Host, e: Engine, p: Norm, done: set<string>, names: seq<string>, budget: nat)
    requires Faithful(h) && Consistent(e.nodes, e.children) && p in e.nodes && e.nodes[p] == Dir
    requires var e' := RemovedSome(e, p, done); Consistent(e'.nodes, e'.children)
    requires done <= Kids(e, p) && Lists(names, Kids(e, p) - done)
    ensures EachDone(e, p, names, budget, RemoveEach(h.order, RemovedSome(e, p, done), p, names, budget))
    decreases budget, |names|
  {
    hide Consistent, RemovedSome, RemoveTree, Shallow, Partly, Removed;
    if names == [] {
      forall n | n in Kids(e, p)
        ensures n in done
      {
        assert n in Kids(e, p) - done ==> n in names;
      }
      assert done == Kids(e, p);
    } else {
      var n, rest, e1 := names[0], names[1..], RemovedSome(e, p, done);
      assert n in Kids(e, p) - done;
      ChildListed(e, p, done, n);
      ShallowKept(e, p, done, n, budget);
      RemoveTreeExact(h, e1, Child(p, n), budget);
      if Shallow(e, Child(p, n), budget) {
        RemovedConsistent(e1, Child(p, n));
        RemovedOneMore(e, p, done, n);
        ListsRest(names, Kids(e, p), done);
        EachExact(h, e, p, done + {n}, rest, budget);
      } else {
        PartlyBelow(e, p, done, n, RemoveTree(h.order, e1, Child(p, n), budget).0);
      }
    }
  }

  lemma ListsRest(names: seq<string>, s: set<string>, done: set<string>)
    requires names != [] && Lists(names, s - done)
    ensures Lists(names[1..], s - (done + {names[0]}))
  {
    var rest := names[1..];
    forall n
      ensures n in rest <==> n in s - (done + {names[0]})
    {
      assert names == [names[0]] + rest;
      assert n in names <==> n in s - done;
      if n in rest {
        var i :| 0 <= i < |rest| && rest[i] == n;
        assert names[0] != names[i + 1];
      }
    }
    forall i, j | 0 <= i < j < |rest|
      ensures rest[i] != rest[j]
    {
      assert names[i + 1] != names[j + 1];
    }
  }

  lemma ShallowKept(e: Engine, p: Norm, done: set<string>, n: string, budget: nat)
    requires n !in done
    ensures Shallow(RemovedSome(e, p, done), Child(p, n), budget) <==> Shallow(e, Child(p, n), budget)
  {
    forall k | Under(Child(p, n), k)
      ensures !UnderOneOf(p, done, k)
    {
      assert (p.names + [n])[|p.names|] == n;
    }
    hide Under, UnderOneOf;
  }

  lemma PartlyBelow(e: Engine, p: Norm, done: set<string>, n: string, e': Engine)
    requires p in e.nodes && n !in done && Partly(RemovedSome(e, p, done), e', Child(p, n))
    ensures Partly(e, e', p)
  {
    forall k | Under(Child(p, n), k) || UnderOneOf(p, done, k)
      ensures Under(p, k) && k != p
    {
      if Under(Child(p, n), k) {
        assert p.names + [n] <= k.names;
        assert p.names == (p.names + [n])[..|p.names|] == k.names[..|p.names|];
      }
    }
    hide Under, UnderOneOf, Consistent;
  }

  lemma NotShallow(e: Engine, p: Norm)
    requires p in e.nodes && Consistent(e.nodes, e.children)
    ensures !Shallow(e, p, 0) && Partly(e, e, p)
  {
    assert Under(p, p);
    hide Consistent;
  }

  lemma FileExact(e: Engine, p: Norm, budget: nat)
    requires Consistent(e.nodes, e.children) && p in e.nodes && p != ROOT && e.nodes[p] != Dir && budget > 0
    ensures Shallow(e, p, budget) && Unlinked(e, p) == Removed(e, p)
  {
    forall k | k in e.nodes && Under(p, k)
      ensures k == p
    {
      if k != p {
        BelowIsListed(e, p, k);
      }
    }
    RemovedNone(e, p);
    PoppedIsRemoved(e, p);
    assert p !in e.children && e.children - {p} == e.children;
  }

  lemma ShallowChildren(e: Engine, p: Norm, budget: nat)
    requires Consistent(e.nodes, e.children) && p in e.nodes && e.nodes[p] == Dir && budget > 0
    ensures Shallow(e, p, budget) <==> forall n :: n in Kids(e, p) ==> Shallow(e, Child(p, n), budget - 1)
  {
    if Shallow(e, p, budget) {
      forall n, k | n in Kids(e, p) && k in e.nodes && Under(Child(p, n), k)
        ensures |k.names| < |Child(p, n).names| + (budget - 1)
      {
        assert p.names == (p.names + [n])[..|p.names|] == k.names[..|p.names|];
        assert Under(p, k);
      }
    }
    if forall n :: n in Kids(e, p) ==> Shallow(e, Child(p, n), budget - 1) {
      forall k | k in e.nodes && Under(p, k)
        ensures |k.names| < |p.names| + budget
      {
        if k != p {
          BelowIsListed(e, p, k);
          assert Shallow(e, Child(p, k.names[|p.names|]), budget - 1);
        }
      }
    }
  }

  lemma DirExact(e: Engine, p: Norm, names: seq<string>, budget: nat, result: (Engine, Removal))
    requires Consistent(e.nodes, e.children) && p in e.nodes && p != ROOT && e.nodes[p] == Dir && budget > 0
    requires Lists(names, Kids(e, p)) && EachDone(e, p, names, budget - 1, result)
    ensures Exact(e, p, budget,
                  if result.1 != Gone then result
                  else (Unlinked(result.0.(children := result.0.children - {p}), p), Gone))
  {
    ShallowChildren(e, p, budget);
    PoppedIsRemoved(e, p);
    hide Consistent, Shallow, Partly, RemovedSome, Removed;
    PoppedUnlinks(RemovedSome(e, p, Kids(e, p)), p);
  }

  lemma PoppedUnlinks(e: Engine, p: Norm)
    requires p != ROOT
    ensures Unlinked(e.(children := e.children - {p}), p) == Popped(e, p)
  {
  }

  /** How the loop over the children ends. */
  ghost predicate EachDone(e: Engine, p: Norm, names: seq<string>, budget: nat, result: (Engine, Removal)) {
    if forall n :: n in names ==> Shallow(e, Child(p, n), budget) then result == (RemovedSome(e, p, Kids(e, p)), Gone)
    else result.1 == TooDeep && Partly(e, result.0, p)
  }
}
