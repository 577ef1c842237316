/** Where the paths of a session lead, and what its commands make there. */
module SessionPaths {
  import opened Sequences
  import opened Strings
  import opened Paths
  import opened SessionState
  import opened SessionTree
  import opened SessionRuns
  import FsPaths

  // ---------------------------------------------------------------- texts and names

  /** Prefixes by their characters. */
  lemma Prefixes(s: string)
    ensures "/" <= s <==> |s| >= 1 && s[0] == '/'
    ensures "//" <= s <==> |s| >= 2 && s[0] == '/' && s[1] == '/'
    ensures "///" <= s <==> |s| >= 3 && s[0] == '/' && s[1] == '/' && s[2] == '/'
    ensures "~/" <= s <==> |s| >= 2 && s[0] == '~' && s[1] == '/'
    ensures s == "~" <==> |s| == 1 && s[0] == '~'
  {
    assert |s| >= 1 ==> s[..1] == [s[0]];
    assert |s| >= 2 ==> s[..2] == [s[0], s[1]];
    assert |s| >= 3 ==> s[..3] == [s[0], s[1], s[2]];
    assert |s| == 1 ==> s == [s[0]];
  }

  lemma NormNames(path: string)
    ensures NormPath(path) == Norm("//" <= path && !("///" <= path), Walk([], Names(path)))
  {
    WalkSkipsEmpty([], Split(SLASH, path));
  }

  lemma TextNames(p: Norm)
    requires AllClean(p.names)
    ensures Names(Text(p)) == p.names
  {
    CleanIsWhole(p.names);
    hide Names, Join;
    NamesAbs(p.names);
    if p.double {
      assert Text(p) == "" + [SLASH] + Abs(p.names);
      NamesConcat("", Abs(p.names));
      NamesEmpty();
      assert [] + p.names == p.names;
    } else {
      assert Text(p) == Abs(p.names);
    }
  }

  lemma TextShape(p: Norm)
    requires AllClean(p.names)
    ensures var s := Text(p);
            && "/" <= s && ("//" <= s <==> p.double) && !("///" <= s) && s != "~" && !("~/" <= s)
            && (Last(s) == SLASH <==> p.names == [])
  {
    CleanIsWhole(p.names);
    hide AllClean, AllWhole;
    var s, joined := Text(p), Join(SLASH, p.names);
    hide Join;
    if p.names != [] {
      FsPaths.JoinEnds(p.names);
      assert joined != "" && joined[0] != SLASH && Last(joined) != SLASH;
    } else {
      assert joined == "" by { FsPaths.JoinSmall(""); }
    }
    Prefixes(s);
  }

  lemma JoinedNames(p: Norm, path: string)
    requires AllClean(p.names)
    ensures Names(JoinPath(Text(p), path)) == p.names + Names(path)
  {
    TextNames(p);
    TextShape(p);
    hide Names, Text, AllClean;
    var s := Text(p);
    if p.names == [] {
      assert s == Front(s) + [SLASH] && s + path == Front(s) + [SLASH] + path && s == Front(s) + [SLASH] + "";
      NamesConcat(Front(s), path);
      NamesConcat(Front(s), "");
      NamesEmpty();
    } else {
      NamesConcat(s, path);
    }
  }

  lemma JoinedShape(p: Norm, path: string)
    requires AllClean(p.names) && (path == "" || path[0] != SLASH)
    ensures var s := JoinPath(Text(p), path); "/" <= s && ("//" <= s && !("///" <= s) <==> p.double)
  {
    TextShape(p);
    hide AllClean;
    var t, s := Text(p), JoinPath(Text(p), path);
    if p.names == [] {
      assert t == if p.double then "//" else "/" by { FsPaths.JoinSmall(""); }
      assert s == t + path;
    }
    hide Text;
    Prefixes(t);
    Prefixes(s);
  }

  // ---------------------------------------------------------------- where a path leads

  function Home(e: Engine): string {
    if "HOME" in e.env then e.env["HOME"] else "/root"
  }

  predicate Relative(path: string) {
    (path == "" || path[0] != SLASH) && path != "~" && !("~/" <= path)
  }

  /** Main result: a relative path is walked from the working directory. */
  lemma RelativeResolves(e: Engine, path: string)
    requires AllClean(e.cwd.names) && Relative(path)
    ensures SessionState.Resolved(e, path) == Norm(e.cwd.double, Walk(e.cwd.names, Names(path)))
  {
    JoinedNames(e.cwd, path);
    JoinedShape(e.cwd, path);
    var s := JoinPath(Text(e.cwd), path);
    assert SessionState.Resolved(e, path) == NormPath(s) by {
      Prefixes(path);
      hide JoinPath, Text, NormPath;
    }
    hide Names, Text, JoinPath, NormPath, SessionState.Resolved, AllClean;
    NormNames(s);
    WalkConcat([], e.cwd.names, Names(path));
    WalkOfClean([], e.cwd.names);
    assert [] + e.cwd.names == e.cwd.names;
  }

  /** An absolute one from the root. */
  lemma AbsoluteResolves(e: Engine, path: string)
    requires "/" <= path
    ensures SessionState.Resolved(e, path) == Norm("//" <= path && !("///" <= path), Walk([], Names(path)))
  {
    NormNames(path);
    hide NormPath, Names;
    assert path[0] == '/' && "~/"[0] == '~';
  }

  /** And `~` stands for HOME, or `/root` where that is not set. */
  lemma TildeResolves(e: Engine, path: string)
    requires path == "~" || "~/" <= path
    requires "/" <= Home(e)
    ensures SessionState.Resolved(e, path) == SessionState.Resolved(e, Home(e) + path[1..])
  {
    var full := Home(e) + path[1..];
    assert full[0] == '/' && "~/"[0] == '~';
    hide NormPath;
  }

  /** A plain name leads into the working directory, `..` to its parent, and `.` nowhere else. */
  lemma NameLeads(e: Engine, n: string)
    requires AllClean(e.cwd.names)
    ensures Clean(n) && n != "~" ==> SessionState.Resolved(e, n) == Child(e.cwd, n)
    ensures n == ".." ==> SessionState.Resolved(e, n) == SessionState.Parent(e.cwd)
    ensures n == "." || n == "" ==> SessionState.Resolved(e, n) == e.cwd
  {
    if Clean(n) || n in {"", ".", ".."} {
      assert n != "" ==> n[0] in n;
      assert |n| >= 2 ==> n[1] in n;
      Prefixes(n);
      SplitWhole(SLASH, n);
      assert Split(SLASH, n) == [n];
      if n != "~" {
        RelativeResolves(e, n);
        WalkOne(e.cwd.names, n);
      }
    }
  }

  /** The text of a place leads to it, from anywhere. */
  lemma TextLeads(e: Engine, p: Norm)
    requires AllClean(p.names)
    ensures SessionState.Resolved(e, Text(p)) == p
  {
    TextNames(p);
    TextShape(p);
    AbsoluteResolves(e, Text(p));
    WalkOfClean([], p.names);
    assert [] + p.names == p.names;
  }

  /** `~/n` leads below the home directory. */
  lemma HomeLeads(e: Engine, h: Norm, n: string)
    requires AllClean(h.names) && h.names != [] && Home(e) == Text(h) && Clean(n)
    ensures SessionState.Resolved(e, "~") == h && SessionState.Resolved(e, "~/" + n) == Child(h, n)
  {
    TextShape(h);
    TextLeads(e, h);
    TildeResolves(e, "~");
    assert Text(h) + "~"[1..] == Text(h);
    TildeResolves(e, "~/" + n);
    assert ("~/" + n)[1..] == [SLASH] + n;
    var path := Text(h) + [SLASH] + n;
    assert Text(h) + ([SLASH] + n) == path == JoinPath(Text(h), n);
    assert n[0] in n;
    JoinedShape(h, n);
    JoinedNames(h, n);
    AbsoluteResolves(e, path);
    SplitWhole(SLASH, n);
    NonEmptyWhole([n]);
    WalkCleanAll(h, n);
  }

  lemma WalkCleanAll(h: Norm, n: string)
    requires AllClean(h.names) && Clean(n)
    ensures Walk([], h.names + [n]) == h.names + [n]
  {
    WalkOfClean([], h.names + [n]);
    assert [] + (h.names + [n]) == h.names + [n];
  }

  /** Main result: `p/n` leads where `n` leads from the place `p`. The exceptions are a `p` of one or two
      slashes, since `//` is another root, and paths in which `~` changes its meaning. */
  lemma StepwiseLeads(e: Engine, p: string, n: string)
    requires AllClean(e.cwd.names) && Relative(n) && p != "" && p != "/" && p != "//" && !("~/" <= p) && p != "~"
    ensures SessionState.Resolved(e, p + "/" + n)
            == SessionState.Resolved(e.(cwd := SessionState.Resolved(e, p)), n)
  {
    var place, path := SessionState.Resolved(e, p), p + [SLASH] + n;
    ResolvedClean(e, p);
    RelativeResolves(e.(cwd := place), n);
    NamesConcat(p, n);
    Slashes(p, n);
    hide Names, SessionState.Resolved, AllClean;
    if "/" <= p {
      AbsoluteResolves(e, p);
      AbsoluteResolves(e, path);
      WalkConcat([], Names(p), Names(n));
    } else {
      RelativeResolves(e, p);
      RelativeResolves(e, path);
      WalkConcat(e.cwd.names, Names(p), Names(n));
    }
  }

  lemma Slashes(p: string, n: string)
    requires p != "" && p != "/" && p != "//" && !("~/" <= p) && p != "~"
    ensures var path := p + [SLASH] + n;
            && ("/" <= path <==> "/" <= p) && path != "~" && !("~/" <= path) && path[0] == p[0]
            && ("//" <= path && !("///" <= path) <==> "//" <= p && !("///" <= p))
  {
    var path := p + [SLASH] + n;
    Prefixes(p);
    Prefixes(path);
    assert forall i :: 0 <= i < |p| ==> path[i] == p[i];
    assert path[|p|] == SLASH;
  }

  // ---------------------------------------------------------------- what the commands do there

  predicate PlainArg(n: string) {
    Clean(n) && n != "~" && n[0] != '-'
  }

  /** Main result: `mkdir n` makes the directory `n` in the working directory exactly if nothing of that
      name is there, and changes nothing else. */
  lemma MkdirHere(e: Engine, n: string)
    requires Sound(e) && PlainArg(n)
    ensures var (e', r) := DoMkdir(e, [n]);
            var p := Child(e.cwd, n);
            if p in e.nodes then r == Error(Exists) && e' == e.(exit := 1)
            else
              && r == Said("") && p in e'.nodes && e'.cwd == e.cwd && e'.env == e.env && e'.exit == 0
              && e'.nodes == e.nodes[p := Dir]
              && e'.children == e.children[p := {}][e.cwd := e.children[e.cwd] + {n}]
  {
    assert CleanKey(e.cwd);
    NameLeads(e, n);
    ParentOfChild(e.cwd, n);
    Listed(e);
    assert n[0] != '-' && "-"[0] == '-';
    hide SessionState.Resolved, AllCleanKeys, ParentsAreDirs, Clean;
  }

  lemma Listed(e: Engine)
    requires Sound(e)
    ensures e.cwd in e.children && forall p :: p in e.children <==> p in e.nodes && e.nodes[p] == Dir
    ensures ROOT in e.nodes
  {
  }

  /** Main result: `cd n` goes there exactly if that is a directory. */
  lemma CdHere(e: Engine, n: string)
    requires Sound(e) && Clean(n) && n != "~"
    ensures var (e', r) := DoCd(e, [n]);
            var p := Child(e.cwd, n);
            if p !in e.nodes then r == Error(NoSuch) && e' == e.(exit := 1)
            else if e.nodes[p] != Dir then r == Error(NotDir) && e' == e.(exit := 1)
            else r == Said("") && e' == e.(cwd := p, env := e.env["PWD" := Text(p)], exit := 0)
  {
    assert CleanKey(e.cwd);
    NameLeads(e, n);
    hide SessionState.Resolved, Text;
  }

  /** And `cd ..` goes to the parent, without arguments to HOME, in every sound state. */
  lemma CdUpAndHome(e: Engine, h: Norm)
    requires Sound(e)
    ensures DoCd(e, [".."]).1 == Said("") && DoCd(e, [".."]).0.cwd == SessionState.Parent(e.cwd)
    ensures h in e.nodes && e.nodes[h] == Dir && "HOME" in e.env && e.env["HOME"] == Text(h) ==>
              DoCd(e, []).1 == Said("") && DoCd(e, []).0.cwd == h
  {
    assert CleanKey(e.cwd) && HasParent(e.nodes, e.cwd);
    NameLeads(e, "..");
    if h in e.nodes {
      assert CleanKey(h);
      TextLeads(e, h);
    }
    hide SessionState.Resolved, Text;
  }

  /** Main result: a successful `touch` leaves its target there, as a file if it is new, listed by its
      parent, and all else as it was. */
  lemma TouchMakes(e: Engine, arg: string)
    requires Sound(e)
    ensures var (e', r) := DoTouch(e, [arg]);
            var p := SessionState.Resolved(e, arg);
            && (r == Said("") <==> p in e.nodes || (SessionState.Parent(p) in e.children && Name(p) != ""))
            && (r != Said("") ==> e' == e.(exit := 1))
            && (r == Said("") && p in e.nodes ==> e' == e.(exit := 0))
            && (r == Said("") && p !in e.nodes ==>
                  var d := SessionState.Parent(p);
                  && e'.nodes == e.nodes[p := File] && e'.children == e.children[d := e.children[d] + {Name(p)}]
                  && e'.cwd == e.cwd && e'.env == e.env && e'.exit == 0)
  {
    Listed(e);
    hide SessionState.Resolved, Consistent;
  }

  lemma NotAbove(e: Engine, p: Norm)
    requires Sound(e) && p in e.nodes && SessionState.Parent(p) == e.cwd && p.names != []
    ensures p != ROOT && !IsAncestor(p, e.cwd)
  {
    AncestorUnder(e, p, e.cwd);
  }

  /** Main result: `rmdir n` removes the directory `n` of the working directory exactly if it is empty. */
  lemma RmdirHere(h: Host, e: Engine, n: string)
    requires Faithful(h) && h.budget > 0 && Sound(e) && Clean(n) && n != "~"
    ensures var (e', r) := DoRmdir(h, e, [n]);
            var p := Child(e.cwd, n);
            if p !in e.nodes then r == Error(NoSuch) && e' == e.(exit := 1)
            else if e.nodes[p] != Dir then r == Error(NotDir) && e' == e.(exit := 1)
            else if exists m :: Child(p, m) in e.nodes then r == Error(NotEmpty) && e' == e.(exit := 1)
            else r == Said("") && e' == Removed(e, p).(exit := 0)
  {
    assert CleanKey(e.cwd);
    NameLeads(e, n);
    ParentOfChild(e.cwd, n);
    var p := Child(e.cwd, n);
    if p in e.nodes {
      NotAbove(e, p);
      if e.nodes[p] == Dir {
        EmptyMeans(e, p);
        if Kids(e, p) == {} {
          EmptyIsShallow(e, p, h.budget);
          RemovesExactly(h, e, p);
        }
      }
    }
    hide SessionState.Resolved, Consistent, Faithful, RemoveTarget, Removed, Shallow, IsAncestor, Kids;
  }

  lemma EmptyMeans(e: Engine, p: Norm)
    requires Sound(e) && p in e.nodes && e.nodes[p] == Dir
    ensures Kids(e, p) == {} <==> !exists m :: Child(p, m) in e.nodes
  {
    assert p in e.children && forall m :: m in e.children[p] <==> Child(p, m) in e.nodes;
  }

  lemma EmptyIsShallow(e: Engine, p: Norm, budget: nat)
    requires Sound(e) && p in e.nodes && e.nodes[p] == Dir && Kids(e, p) == {} && budget > 0
    ensures Shallow(e, p, budget)
  {
    forall k | k in e.nodes && Under(p, k)
      ensures |k.names| < |p.names| + budget
    {
      if k != p {
        BelowIsListed(e, p, k);
      }
    }
  }

  predicate RmFlags(flags: string) {
    |flags| > 1 && flags[0] == '-' && forall i :: 1 <= i < |flags| ==> flags[i] in "rRf"
  }

  /** Main result: `rm -... n` removes `n` of the working directory with all that is below it; a directory
      only with `r` or `R` among the flags; and only `f` makes it pass over a missing `n`. */
  lemma RmHere(h: Host, e: Engine, flags: string, n: string)
    requires Faithful(h) && Sound(e) && PlainArg(n) && RmFlags(flags)
    ensures var (e', r) := DoRm(h, e, [flags, n]);
            var p := Child(e.cwd, n);
            if p !in e.nodes then
              if 'f' in flags then r == Said("") && e' == e.(exit := 0) else r == Error(NoSuch) && e' == e.(exit := 1)
            else if e.nodes[p] == Dir && 'r' !in flags && 'R' !in flags then
              r == Error(IsDir) && e' == e.(exit := 1)
            else Shallow(e, p, h.budget) ==> r == Said("") && e' == Removed(e, p).(exit := 0)
  {
    FlagsRead(flags, n);
    TargetHere(h, e, n);
    hide SessionState.Resolved, Sound, Faithful, RemoveTarget, Removed, Shallow, IsAncestor, Flags, Targets, Child;
  }

  /** Without flags. */
  lemma RmPlainHere(h: Host, e: Engine, n: string)
    requires Faithful(h) && Sound(e) && PlainArg(n)
    ensures var (e', r) := DoRm(h, e, [n]);
            var p := Child(e.cwd, n);
            if p !in e.nodes then r == Error(NoSuch) && e' == e.(exit := 1)
            else if e.nodes[p] == Dir then r == Error(IsDir) && e' == e.(exit := 1)
            else Shallow(e, p, h.budget) ==> r == Said("") && e' == Removed(e, p).(exit := 0)
  {
    FlagsRead("-f", n);
    TargetHere(h, e, n);
    hide SessionState.Resolved, Sound, Faithful, RemoveTarget, Removed, Shallow, IsAncestor, Flags, Targets, Child;
  }

  lemma TargetHere(h: Host, e: Engine, n: string)
    requires Faithful(h) && Sound(e) && Clean(n) && n != "~"
    ensures var p := Child(e.cwd, n);
            && SessionState.Resolved(e, n) == p
            && (p in e.nodes ==>
                  && p != ROOT && !IsAncestor(p, e.cwd)
                  && (Shallow(e, p, h.budget) ==>
                        RemoveTarget(h, e, p) == (Removed(e, p).(exit := 0), Said(""))))
  {
    assert CleanKey(e.cwd);
    NameLeads(e, n);
    ParentOfChild(e.cwd, n);
    var p := Child(e.cwd, n);
    hide SessionState.Resolved, Consistent, Faithful, RemoveTarget, Removed, Shallow, IsAncestor;
    if p in e.nodes {
      NotAbove(e, p);
      RemovesExactly(h, e, p);
    }
  }

  lemma FlagsRead(flags: string, n: string)
    requires PlainArg(n) && RmFlags(flags)
    ensures Targets([flags, n]) == [n] == Targets([n]) && Flags([n]) == "" && Flags([flags, n]) == flags[1..]
    ensures !exists i :: 0 <= i < |flags[1..]| && flags[1..][i] !in "rRf"
    ensures forall c :: c in "rRf" ==> (c in flags[1..] <==> c in flags)
  {
    assert [flags, n][1..] == [n] && [n][1..] == [];
    assert "-" <= flags && flags != "-";
    assert n[0] != '-' && "-"[0] == '-';
    assert flags == [flags[0]] + flags[1..];
    assert !IsFlag(n) && IsFlag(flags);
    assert [n] + [] == [n] && [] + [n] == [n] && Targets([]) == [];
  }

  /** `export NAME=value` sets that variable, `unset NAME` removes it, and neither does anything else. */
  lemma ExportSets(h: Host, e: Engine, name: string, value: string)
    requires IsVarName(name)
    ensures DoExport(h, e, [name + "=" + value])
            == (e.(env := e.env[name := h.subst(e.env, value)], exit := 0), Said(""))
    ensures DoUnset(e, [name]) == (e.(env := e.env - {name}, exit := 0), Said(""))
  {
    FirstEquals(name, value);
    var arg := name + "=" + value;
    assert arg[..|name|] == name && arg[|name| + 1..] == value;
    hide FindChar, IsVarName;
  }

  /** A name of letters, digits and underscores that does not begin with a digit; any other is refused. */
  lemma VarNames(h: Host, e: Engine, name: string, value: string)
    ensures IsVarName(name)
            <==> name != "" && !('0' <= name[0] <= '9')
                 && forall c :: c in name ==> 'a' <= c <= 'z' || 'A' <= c <= 'Z' || '0' <= c <= '9' || c == '_'
    ensures !IsVarName(name) && '=' !in name ==>
              && DoExport(h, e, [name + "=" + value]) == (e.(exit := 1), Error(BadName))
              && DoUnset(e, [name]) == (e.(exit := 1), Error(BadName))
  {
    VarNameChars(name);
    hide IsVarName;
    if '=' !in name {
      FirstEquals(name, value);
      var arg := name + "=" + value;
      assert arg[..|name|] == name;
      hide FindChar;
    }
  }

  lemma VarNameChars(name: string)
    ensures IsVarName(name)
            <==> name != "" && !('0' <= name[0] <= '9')
                 && forall c :: c in name ==> 'a' <= c <= 'z' || 'A' <= c <= 'Z' || '0' <= c <= '9' || c == '_'
  {
    assert forall i :: 0 <= i < |name| ==> name[i] in name;
  }

  lemma {:induction false} FirstEquals(name: string, value: string)
    requires '=' !in name || IsVarName(name)
    ensures FindChar(name + "=" + value, '=') == Some(|name|)
    decreases |name|
  {
    var arg := name + "=" + value;
    if name != "" {
      assert arg[1..] == name[1..] + "=" + value && arg[0] == name[0] && name[0] in name;
      assert forall c :: c in name[1..] ==> c in name;
      FirstEquals(name[1..], value);
    } else {
      assert arg[0] == '=';
    }
  }

  /** What a session answers where it only tells of itself. */
  lemma SessionTells(h: Host, e: Engine)
    ensures Answer(h, e, Pwd([])) == (e.(exit := 0), Said(Text(e.cwd)))
    ensures "USER" in e.env ==> Answer(h, e, Whoami([])) == (e.(exit := 0), Said(e.env["USER"]))
  {
  }

  /** Main result: with the wrong arguments a command complains and changes nothing but the exit code. */
  lemma WrongArguments(h: Host, e: Engine, args: seq<string>)
    ensures var refused := e.(exit := 1);
            && (|args| > 1 ==> DoCd(e, args) == (refused, Error(TooMany)))
            && (|args| == 0 ==> DoMkdir(e, args) == (refused, Error(Missing)))
            && (|args| > 1 || (|args| == 1 && args[0] != "" && args[0][0] == '-') ==>
                  DoMkdir(e, args) == (refused, Error(BadOption)))
            && (|Targets(args)| > 1 ==> DoLs(e, args) == (refused, Error(TooMany)))
            && (|args| != 1 ==> DoTouch(e, args) == (refused, Error(Missing)))
            && (|args| != 1 ==> DoRmdir(h, e, args) == (refused, Error(Missing)))
            && (|args| == 0 ==> DoRm(h, e, args) == (refused, Error(Missing)))
            && (|args| != 1 ==> DoExport(h, e, args) == (refused, Error(Usage)))
            && (|args| != 1 ==> DoUnset(e, args) == (refused, Error(Usage)))
            && (|args| > 0 ==> Answer(h, e, Pwd(args)) == (refused, Error(TooMany)))
            && (|args| > 0 ==> Answer(h, e, Whoami(args)) == (refused, Error(TooMany)))
  {
    if |args| == 1 && args[0] != "" && args[0][0] == '-' {
      assert args[0][..1] == "-";
    }
    hide SessionState.Resolved, IsAncestor, RemoveTarget, NoPlace, FindChar, IsVarName, Flags, Targets;
  }
}
