/** Runs of the deterministic commands: what the session state says never contradicts itself. */
module SessionRuns {
  import opened Sequences
  import opened Strings
  import opened Paths
  import opened SessionState
  import opened SessionTree
  import FsPaths

  // ---------------------------------------------------------------- each command keeps the state sound

  lemma ResolvedClean(e: Engine, path: string)
    ensures AllClean(SessionState.Resolved(e, path).names)
  {
    var home := if "HOME" in e.env then e.env["HOME"] else "/root";
    var path' := if path == "~" || "~/" <= path then home + path[1..] else path;
    NormPathClean(if "/" <= path' then path' else JoinPath(Text(e.cwd), path'));
  }

  lemma AddedSound(e: Engine, p: Norm)
    requires Sound(e) && p !in e.nodes && NoPlace(e, p, Invalid).None? && AllClean(p.names)
    ensures Sound(AddDir(e, p).(exit := 0)) && Sound(AddFile(e, p).(exit := 0))
  {
    AddDirConsistent(e, p);
    AddFileConsistent(e, p);
    hide Consistent;
  }

  lemma RemovedSound(e: Engine, p: Norm)
    requires Sound(e) && p in e.nodes && p != ROOT && !IsAncestor(p, e.cwd)
    ensures Sound(Removed(e, p).(exit := 0))
  {
    RemovedConsistent(e, p);
    AncestorUnder(e, p, e.cwd);
    hide Consistent, IsAncestor;
  }

  lemma AncestorUnder(e: Engine, p: Norm, q: Norm)
    requires Consistent(e.nodes, e.children) && p in e.nodes && q in e.nodes
    ensures IsAncestor(p, q) <==> Under(p, q)
  {
    assert CleanKey(p) && CleanKey(q);
    CleanIsWhole(p.names);
    CleanIsWhole(q.names);
    hide ParentsAreDirs, AllCleanKeys, IsAncestor, AllClean, AllWhole;
    AncestorIsPrefix(p, q);
  }

  lemma SameNoPlace(e: Engine, p: Norm, a: Complaint, b: Complaint)
    ensures NoPlace(e, p, a).None? == NoPlace(e, p, b).None?
  {
  }

  lemma MakingSound(e: Engine, args: seq<string>)
    requires Sound(e)
    ensures Sound(DoMkdir(e, args).0) && Sound(DoTouch(e, args).0)
    ensures !DoMkdir(e, args).1.KeyError? && !DoTouch(e, args).1.KeyError?
  {
    hide Consistent, SessionState.Resolved, NoPlace, AddDir, AddFile;
    if |args| == 1 {
      var target := SessionState.Resolved(e, args[0]);
      ResolvedClean(e, args[0]);
      SameNoPlace(e, target, Exists, Invalid);
      if target !in e.nodes && NoPlace(e, target, Invalid).None? {
        AddedSound(e, target);
      }
    }
  }

  /** Main result: what `rm` and `rmdir` decided to remove goes with everything below it, and nothing else
      goes, if and only if the recursion limit reaches below its deepest path; no path is ever found
      missing on the way. Beyond the limit they raise RecursionError, and what is left is sound. */
  lemma RemovesExactly(h: Host, e: Engine, target: Norm)
    requires Faithful(h) && Sound(e) && target in e.nodes && target != ROOT && !IsAncestor(target, e.cwd)
    ensures var (e', r) := RemoveTarget(h, e, target);
            && Sound(e')
            && (Shallow(e, target, h.budget) ==> r == Said("") && e' == Removed(e, target).(exit := 0))
            && (!Shallow(e, target, h.budget) ==> r == RecursionError && Partly(e, e', target))
  {
    hide Consistent, IsAncestor, RemoveTree, Removed, Shallow;
    RemoveTreeExact(h, e, target, h.budget);
    if Shallow(e, target, h.budget) {
      RemovedSound(e, target);
    } else {
      AncestorUnder(e, target, e.cwd);
    }
  }

  lemma RemovingSound(h: Host, e: Engine, args: seq<string>)
    requires Faithful(h) && Sound(e)
    ensures Sound(DoRmdir(h, e, args).0) && Sound(DoRm(h, e, args).0)
    ensures !DoRmdir(h, e, args).1.KeyError? && !DoRm(h, e, args).1.KeyError?
  {
    hide Consistent, SessionState.Resolved, RemoveTarget, IsAncestor, Flags, Targets, Faithful;
    if |args| == 1 {
      var target := SessionState.Resolved(e, args[0]);
      if target in e.nodes && target != ROOT && !IsAncestor(target, e.cwd) {
        RemovesExactly(h, e, target);
      }
    }
    if |Targets(args)| == 1 {
      var target := SessionState.Resolved(e, Targets(args)[0]);
      if target in e.nodes && target != ROOT && !IsAncestor(target, e.cwd) {
        RemovesExactly(h, e, target);
      }
    }
  }

  /** Only there does a command read an environment variable that may not be set. */
  predicate ReadsUnset(e: Engine, c: Command) {
    (c == Cd([]) && "HOME" !in e.env) || (c == Whoami([]) && "USER" !in e.env)
  }

  /** Main result: in a sound state every command leaves a sound state, even one broken off by the
      recursion limit; and it ends in a KeyError if and only if it reads HOME or USER where they are
      not set, so the tables of nodes and of children are never found to disagree. */
  lemma AnswerSound(h: Host, e: Engine, c: Command)
    requires Faithful(h) && Sound(e)
    ensures Sound(Answer(h, e, c).0)
    ensures Answer(h, e, c).1.KeyError? <==> ReadsUnset(e, c)
  {
    hide Consistent, DoMkdir, DoTouch, DoRmdir, DoRm, SessionState.Resolved, IsVarName, FindChar, Flags, Targets;
    hide Faithful;
    match c
    case Mkdir(args) => MakingSound(e, args);
    case Touch(args) => MakingSound(e, args);
    case Rmdir(args) => RemovingSound(h, e, args);
    case Rm(args) => RemovingSound(h, e, args);
    case _ =>
  }

  lemma EachMissing(order: (Norm, set<string>) -> seq<string>, e: Engine, p: Norm, x: string, budget: nat)
    requires budget > 0 && Child(p, x) !in e.nodes
    ensures RemoveEach(order, e, p, [x], budget) == (e, Absent(Child(p, x)))
  {
    assert RemoveTree(order, e, Child(p, x), budget) == (e, Absent(Child(p, x)));
  }

  lemma TreeMissing(order: (Norm, set<string>) -> seq<string>, e: Engine, p: Norm, x: string, budget: nat)
    requires budget >= 2 && p in e.nodes && e.nodes[p] == Dir
    requires order(p, Kids(e, p)) == [x] && Child(p, x) !in e.nodes
    ensures RemoveTree(order, e, p, budget) == (e, Absent(Child(p, x)))
  {
    EachMissing(order, e, p, x, budget - 1);
    hide RemoveEach, Unlinked;
  }

  /** In a state that is not sound the recursion does run into a missing node. */
  lemma MissingNodeRaises(h: Host, e: Engine, p: Norm, x: string)
    requires Faithful(h) && h.budget >= 2
    requires p in e.nodes && e.nodes[p] == Dir && Kids(e, p) == {x} && Child(p, x) !in e.nodes
    ensures RemoveTarget(h, e, p) == (e, KeyError(Text(Child(p, x))))
  {
    hide RemoveTree, Lists;
    assert Lists(h.order(p, {x}), {x});
    OneName(h.order(p, {x}), x);
    TreeMissing(h.order, e, p, x, h.budget);
  }

  lemma OneName(names: seq<string>, x: string)
    requires Lists(names, {x})
    ensures names == [x]
  {
    assert x in names;
    AllOne(names, x);
    var last := if |names| > 1 then 1 else 0;
    assert names[0] == names[last];
  }

  lemma AllOne(names: seq<string>, x: string)
    requires Lists(names, {x})
    ensures forall i :: 0 <= i < |names| ==> names[i] == x
  {
    forall i | 0 <= i < |names|
      ensures names[i] == x
    {
      assert names[i] in names;
    }
  }

  function Session(h: Host, e: Engine, commands: seq<Command>): Engine
    decreases |commands|
  {
    if commands == [] then e else Answer(h, Session(h, e, Front(commands)), Last(commands)).0
  }

  /** Main result: whatever is typed, in whatever order, the two tables keep telling the same tree,
      every path lies in an existing directory, and the working directory is one. */
  lemma {:induction false} SessionStaysSound(h: Host, e: Engine, commands: seq<Command>)
    requires Faithful(h) && Sound(e)
    ensures Sound(Session(h, e, commands))
    decreases |commands|
  {
    hide Sound, Answer, Faithful, ReadsUnset;
    if commands != [] {
      SessionStaysSound(h, e, Front(commands));
      AnswerSound(h, Session(h, e, Front(commands)), Last(commands));
    }
  }

  // ---------------------------------------------------------------- the state a session starts in

  const BARE := Engine(map[ROOT := Dir], map[ROOT := {}], ROOT,
                       map["HOME" := "/root", "USER" := "root", "PWD" := "/"], 0)

  /** The directories of the constructor, each after its parent. */
  predicate Ordered(nodes: set<Norm>, dirs: seq<Norm>)
    decreases |dirs|
  {
    dirs != [] ==>
      && dirs[0] !in nodes && CleanKey(dirs[0]) && dirs[0].names != [] && Parent(dirs[0]) in nodes
      && Ordered(nodes + {dirs[0]}, dirs[1..])
  }

  function Furnished(e: Engine, dirs: seq<Norm>): Engine
    decreases |dirs|
  {
    if dirs == [] then e else Furnished(AddDir(e, dirs[0]), dirs[1..])
  }

  predicate OnlyDirs(e: Engine) {
    forall p :: p in e.nodes ==> e.nodes[p] == Dir
  }

  lemma BareSound()
    ensures Sound(BARE) && OnlyDirs(BARE)
  {
    assert CleanKey(ROOT) && Parent(ROOT) == ROOT && HasParent(BARE.nodes, ROOT);
    forall n
      ensures Child(ROOT, n) !in BARE.nodes
    {
      assert |Child(ROOT, n).names| == 1;
    }
  }

  lemma {:induction false} FurnishedSound(e: Engine, dirs: seq<Norm>)
    requires Sound(e) && OnlyDirs(e) && Ordered(e.nodes.Keys, dirs)
    ensures Sound(Furnished(e, dirs))
    decreases |dirs|
  {
    hide Consistent;
    if dirs != [] {
      var p := dirs[0];
      LastNameClean(p);
      AddDirConsistent(e, p);
      hide AddDir;
      var e' := AddDir(e, p);
      AddDirMeans(e, p);
      assert e'.nodes.Keys == e.nodes.Keys + {p};
      FurnishedSound(e', dirs[1..]);
    }
  }

  /** Main result: the state a session starts in is sound, for any list of directories in which each
      comes after its parent. */
  lemma StartSound(dirs: seq<Norm>)
    requires Ordered({ROOT}, dirs)
    ensures Sound(Furnished(BARE, dirs))
  {
    BareSound();
    assert BARE.nodes.Keys == {ROOT};
    FurnishedSound(BARE, dirs);
  }

  lemma LastNameClean(p: Norm)
    requires CleanKey(p) && p.names != []
    ensures Name(p) != ""
  {
    assert Last(p.names) in p.names;
  }

  lemma AddDirMeans(e: Engine, p: Norm)
    ensures AddDir(e, p).nodes == e.nodes[p := Dir] && AddDir(e, p).cwd == e.cwd
  {
  }

  // ---------------------------------------------------------------- what the answers say

  /** Main result: `ls` of a directory, by default the working directory, names exactly what is in it. */
  lemma LsTellsTheTree(e: Engine, args: seq<string>, n: string)
    requires Sound(e) && |Targets(args)| <= 1 && 'd' !in Flags(args)
    ensures var place := if Targets(args) != [] then SessionState.Resolved(e, Targets(args)[0]) else e.cwd;
            var r := DoLs(e, args).1;
            if place !in e.nodes then r == Error(NoSuch)
            else if e.nodes[place] == File then r == Single(place, 'l' in Flags(args))
            else
              && r.Listing? && (n in r.names <==> Child(place, n) in e.nodes)
              && (r.dots <==> 'a' in Flags(args)) && (r.long <==> 'l' in Flags(args))
  {
    assert CleanKey(e.cwd);
    CwdResolves(e);
    hide SessionState.Resolved, Flags, Targets, AllCleanKeys, ParentsAreDirs, Text;
  }

  lemma CwdResolves(e: Engine)
    requires CleanKey(e.cwd)
    ensures SessionState.Resolved(e, Text(e.cwd)) == e.cwd
  {
    var path := Text(e.cwd);
    TextAbs(e.cwd);
    CleanIsWhole(e.cwd.names);
    NamesAbs(e.cwd.names);
    WalkSkipsEmpty([], Split(SLASH, path));
    WalkOfClean([], e.cwd.names);
    assert [] + e.cwd.names == e.cwd.names;
    SecondChar(e.cwd.names);
  }

  lemma SecondChar(names: seq<string>)
    requires AllWhole(names)
    ensures !("//" <= Abs(names)) && "/" <= Abs(names) && Abs(names) != "~" && !("~/" <= Abs(names))
  {
    hide Join;
    var s := Abs(names);
    assert s[0] == '/' && "~/"[0] == '~';
    assert "//" <= s ==> s[1] == '/';
    if names != [] {
      FsPaths.JoinEnds(names);
    } else {
      assert Abs(names) == "/" by { FsPaths.JoinSmall(""); }
    }
  }

  /** Main result: a removal takes away exactly the paths at and below its target. */
  lemma RemovalIsExact(e: Engine, p: Norm, k: Norm)
    requires Sound(e) && p in e.nodes && k in e.nodes
    ensures k in Removed(e, p).nodes <==> !IsAncestor(p, k)
    ensures k in Removed(e, p).nodes ==> Removed(e, p).nodes[k] == e.nodes[k]
  {
    AncestorUnder(e, p, k);
    hide IsAncestor, Consistent;
  }

  /** Main result: what `mkdir` made, `rmdir` takes away again: both tables are as before. */
  lemma MkdirThenRmdir(h: Host, e: Engine, arg: string)
    requires Faithful(h) && h.budget > 0 && Sound(e) && DoMkdir(e, [arg]).1 == Said("")
    ensures var (e', r) := DoRmdir(h, DoMkdir(e, [arg]).0, [arg]);
            r == Said("") && e' == e.(exit := 0)
  {
    var p := SessionState.Resolved(e, arg);
    var e1 := DoMkdir(e, [arg]).0;
    ResolvedClean(e, arg);
    SameNoPlace(e, p, Exists, Invalid);
    NewIsChild(e, p);
    assert e1 == AddDir(e, p).(exit := 0) && SessionState.Resolved(e1, arg) == p;
    AddedSound(e, p);
    CwdNotUnder(e, e1, p);
    hide SessionState.Resolved, NoPlace, IsAncestor, Faithful, RemoveTarget, Shallow;
    AddThenRemove(e, p);
    AloneIsShallow(e, e1, p, h.budget);
    RemovesExactly(h, e1, p);
  }

  lemma AloneIsShallow(e: Engine, e1: Engine, p: Norm, budget: nat)
    requires Consistent(e.nodes, e.children) && p !in e.nodes && p.names != [] && budget > 0
    requires e1.nodes == e.nodes[p := Dir]
    ensures Shallow(e1, p, budget)
  {
    forall k | k in e1.nodes && Under(p, k)
      ensures |k.names| < |p.names| + budget
    {
      if k != p {
        NothingUnder(e, p, k);
      }
    }
  }

  lemma CwdNotUnder(e: Engine, e1: Engine, p: Norm)
    requires Sound(e) && Sound(e1) && p !in e.nodes && p in e1.nodes && e1.cwd == e.cwd && p.names != [] && !p.double
    ensures !IsAncestor(p, e.cwd)
  {
    AncestorUnder(e1, p, e.cwd);
    if Under(p, e.cwd) {
      NothingUnder(e, p, e.cwd);
    }
  }

  lemma {:induction false} NothingUnder(e: Engine, p: Norm, k: Norm)
    requires Consistent(e.nodes, e.children) && p !in e.nodes && Under(p, k) && p.names != []
    ensures k !in e.nodes
    decreases |k.names|
  {
    if k in e.nodes && k != p {
      assert HasParent(e.nodes, k);
      NothingUnder(e, p, Parent(k));
    }
  }

  lemma AddThenRemove(e: Engine, p: Norm)
    requires Sound(e) && p !in e.nodes && p.names != [] && !p.double && Parent(p) in e.children && CleanKey(p)
    ensures Kids(AddDir(e, p), p) == {}
    ensures Removed(AddDir(e, p), p) == e
  {
    ChildOfParent(p);
    forall k | Under(p, k)
      ensures k !in e.nodes && k !in e.children
    {
      NothingUnder(e, p, k);
    }
    assert !Under(p, Parent(p)) && Parent(p) != p;
    assert Name(p) !in e.children[Parent(p)] by { assert Child(Parent(p), Name(p)) !in e.nodes; }
    hide Consistent, Under;
    var e' := Removed(AddDir(e, p), p);
    assert e'.nodes == e.nodes;
    assert e.children[Parent(p)] + {Name(p)} - {Name(p)} == e.children[Parent(p)];
    assert e'.children == e.children;
  }
}
