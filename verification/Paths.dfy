/** Path strings, and `HoneyPotFilesystem.resolve_path` of cowrie-shell-source/fs.py. */
module Paths {
  import opened Sequences
  import opened Strings

  const SLASH := '/'

  function RStrip(s: string): string {
    if s != "" && s[|s| - 1] == SLASH then RStrip(s[..|s| - 1]) else s
  }

  function LStrip(s: string): string {
    if s != "" && s[0] == SLASH then LStrip(s[1..]) else s
  }

  function NonEmpty(ps: seq<string>): seq<string> {
    if ps == [] then [] else (if ps[0] == "" then [] else [ps[0]]) + NonEmpty(ps[1..])
  }

  /** The names along a path: its non-empty pieces. */
  function Names(path: string): seq<string> {
    NonEmpty(Split(SLASH, path))
  }

  /** The absolute path along `names`. */
  function Abs(names: seq<string>): string {
    [SLASH] + Join(SLASH, names)
  }

  predicate Whole(p: string) {
    p != "" && SLASH !in p
  }

  predicate Clean(p: string) {
    Whole(p) && p != "." && p != ".."
  }

  predicate AllWhole(ps: seq<string>) {
    forall p :: p in ps ==> Whole(p)
  }

  predicate AllClean(ps: seq<string>) {
    forall p :: p in ps ==> Clean(p)
  }

  /** Absolute, and without empty, `.` or `..` components. */
  predicate Canonical(path: string) {
    AllClean(Names(path)) && path == Abs(Names(path))
  }

  // ---------------------------------------------------------------- splitting and joining

  lemma {:induction false} NonEmptyConcat(ps: seq<string>, qs: seq<string>)
    ensures NonEmpty(ps + qs) == NonEmpty(ps) + NonEmpty(qs)
  {
    if ps == [] {
      assert ps + qs == qs;
    } else {
      assert (ps + qs)[1..] == ps[1..] + qs;
      NonEmptyConcat(ps[1..], qs);
    }
  }

  lemma {:induction false} NonEmptyWhole(ps: seq<string>)
    ensures "" !in ps ==> NonEmpty(ps) == ps
    ensures forall p :: p in NonEmpty(ps) <==> p in ps && p != ""
  {
    if ps != [] {
      NonEmptyWhole(ps[1..]);
      assert ps == [ps[0]] + ps[1..];
    }
  }

  lemma NamesWhole(path: string)
    ensures AllWhole(Names(path))
  {
    SplitHasNoSep(SLASH, path);
    NonEmptyWhole(Split(SLASH, path));
  }

  lemma NamesConcat(a: string, b: string)
    ensures Names(a + [SLASH] + b) == Names(a) + Names(b)
  {
    SplitConcat(SLASH, a, b);
    NonEmptyConcat(Split(SLASH, a), Split(SLASH, b));
  }

  lemma NamesEmpty()
    ensures Names("") == [] && Names("/") == []
  {
    assert Split(SLASH, "") == [""];
    NamesConcat("", "");
    assert "" + [SLASH] + "" == "/";
  }

  lemma NamesAbs(names: seq<string>)
    requires AllWhole(names)
    ensures Names(Abs(names)) == names
  {
    NamesEmpty();
    assert "" + [SLASH] + Join(SLASH, names) == Abs(names);
    NamesConcat("", Join(SLASH, names));
    if names != [] {
      SplitJoin(SLASH, names);
      NonEmptyWhole(names);
    }
  }

  lemma {:induction false} NamesRStrip(s: string)
    ensures Names(RStrip(s)) == Names(s)
  {
    if s != "" && s[|s| - 1] == SLASH {
      NamesRStrip(s[..|s| - 1]);
      NamesEmpty();
      NamesConcat(s[..|s| - 1], "");
      assert s[..|s| - 1] + [SLASH] + "" == s;
    }
  }

  lemma {:induction false} NamesLStrip(s: string)
    ensures Names(LStrip(s)) == Names(s)
  {
    if s != "" && s[0] == SLASH {
      NamesLStrip(s[1..]);
      NamesEmpty();
      NamesConcat("", s[1..]);
      assert "" + [SLASH] + s[1..] == s;
    }
  }

  // ---------------------------------------------------------------- resolve_path

  /** One component: `..` drops the last name, `.` and nothing are skipped, anything else is entered. */
  function Enter(names: seq<string>, piece: string): seq<string> {
    if piece == ".." then (if names == [] then [] else Front(names))
    else if piece == "." || piece == "" then names
    else names + [piece]
  }

  function Walk(names: seq<string>, pieces: seq<string>): seq<string>
    decreases |pieces|
  {
    if pieces == [] then names else Enter(Walk(names, Front(pieces)), Last(pieces))
  }

  function Expand(home: string, path: string): string {
    if |path| >= 2 && path[..2] == "~/" then home + path[1..] else path
  }

  /** The names of the resolved path. Python raises IndexError on an empty path, here None. */
  function Resolved(home: string, path: string, cwd: string): Option<seq<string>> {
    var path' := Expand(home, path);
    if path' == "" then None
    else Some(Walk(if path'[0] == SLASH then [] else Names(cwd), Split(SLASH, RStrip(path'))))
  }

  function Resolve(home: string, path: string, cwd: string): Option<string> {
    var names := Resolved(home, path, cwd);
    if names.None? then None else Some(Abs(names.value))
  }

  method ResolvePath(home: string, pathspec: string, cwd: string) returns (r: Option<string>)
    ensures r == Resolve(home, pathspec, cwd)
  {
    hide Split, RStrip, Names, Join, Expand;
    var path := Expand(home, pathspec);
    var pieces := Split(SLASH, RStrip(path));
    if path == "" {
      return None;
    }
    var cwdpieces: seq<string>;
    if path[0] == SLASH {
      cwdpieces := [];
    } else {
      cwdpieces := Names(cwd);
    }
    ghost var start, all := cwdpieces, pieces;
    ghost var done: seq<string> := [];
    while pieces != []
      invariant done + pieces == all && cwdpieces == Walk(start, done)
      decreases |pieces|
    {
      var piece := pieces[0];
      assert Front(done + [piece]) == done;
      done, pieces := done + [piece], pieces[1..];
      if piece == ".." {
        if cwdpieces != [] {
          cwdpieces := Front(cwdpieces);
        }
        continue;
      }
      if piece == "." || piece == "" {
        continue;
      }
      cwdpieces := cwdpieces + [piece];
    }
    assert done == all;
    return Some([SLASH] + Join(SLASH, cwdpieces));
  }

  lemma {:induction false} WalkConcat(names: seq<string>, ps: seq<string>, qs: seq<string>)
    ensures Walk(names, ps + qs) == Walk(Walk(names, ps), qs)
    decreases |qs|
  {
    if qs == [] {
      assert ps + qs == ps;
    } else {
      assert Front(ps + qs) == ps + Front(qs);
      WalkConcat(names, ps, Front(qs));
    }
  }

  lemma {:induction false} WalkSkipsEmpty(names: seq<string>, ps: seq<string>)
    ensures Walk(names, ps) == Walk(names, NonEmpty(ps))
    decreases |ps|
  {
    if ps != [] {
      WalkSkipsEmpty(names, Front(ps));
      NonEmptyConcat(Front(ps), [Last(ps)]);
      assert ps == Front(ps) + [Last(ps)];
      WalkConcat(names, NonEmpty(Front(ps)), NonEmpty([Last(ps)]));
      WalkOne(Walk(names, Front(ps)), Last(ps));
    }
  }

  lemma WalkOne(names: seq<string>, p: string)
    ensures Walk(names, [p]) == Enter(names, p)
    ensures Walk(names, NonEmpty([p])) == Enter(names, p)
  {
    assert Front([p]) == [];
  }

  lemma WalkNames(names: seq<string>, path: string)
    ensures Walk(names, Split(SLASH, RStrip(path))) == Walk(names, Names(path))
  {
    WalkSkipsEmpty(names, Split(SLASH, RStrip(path)));
    NamesRStrip(path);
  }

  lemma {:induction false} WalkClean(names: seq<string>, ps: seq<string>)
    requires AllClean(names) && AllWhole(ps)
    ensures AllClean(Walk(names, ps))
    decreases |ps|
  {
    if ps != [] {
      WalkClean(names, Front(ps));
      assert Last(ps) in ps;
    }
  }

  lemma {:induction false} WalkOfClean(names: seq<string>, ps: seq<string>)
    requires AllClean(ps)
    ensures Walk(names, ps) == names + ps
    decreases |ps|
  {
    if ps != [] {
      WalkOfClean(names, Front(ps));
      assert Last(ps) in ps;
      assert ps == Front(ps) + [Last(ps)];
    }
  }

  lemma CleanIsWhole(names: seq<string>)
    requires AllClean(names)
    ensures AllWhole(names)
  {
  }

  lemma AbsCanonical(names: seq<string>)
    requires AllClean(names)
    ensures Canonical(Abs(names)) && Names(Abs(names)) == names
  {
    CleanIsWhole(names);
    NamesAbs(names);
  }

  /** Main result: from a canonical directory every non-empty path resolves, to a canonical path. */
  lemma ResolvesToCanonical(home: string, path: string, cwd: string)
    requires path != "" && Canonical(cwd)
    ensures Resolve(home, path, cwd).Some? && Canonical(Resolve(home, path, cwd).value)
  {
    var path' := Expand(home, path);
    var start := if path'[0] == SLASH then [] else Names(cwd);
    WalkNames(start, path');
    NamesWhole(path');
    WalkClean(start, Names(path'));
    AbsCanonical(Walk(start, Names(path')));
  }

  /** Main result: a canonical path resolves to itself, from anywhere. */
  lemma CanonicalIsFixed(home: string, path: string, cwd: string)
    requires Canonical(path)
    ensures Resolve(home, path, cwd) == Some(path)
  {
    assert path[0] == SLASH && Expand(home, path) == path;
    WalkNames([], path);
    WalkOfClean([], Names(path));
    assert [] + Names(path) == Names(path);
  }

  /** The names of `b` are walked from where `a` leads. */
  lemma WalkOn(home: string, a: string, b: string, cwd: string)
    requires Canonical(cwd) && a != "" && a != "~"
    ensures Resolve(home, a, cwd).Some? && Canonical(Resolve(home, a, cwd).value)
    ensures Resolve(home, a + [SLASH] + b, cwd) == Some(Abs(Walk(Names(Resolve(home, a, cwd).value), Names(b))))
  {
    ExpandPrefix(home, a, b);
    ResolvesToCanonical(home, a, cwd);
    var a' := Expand(home, a);
    var start := if a'[0] == SLASH then [] else Names(cwd);
    hide Names, Abs, RStrip, Split;
    WalkNames(start, a');
    WalkNames(start, a' + [SLASH] + b);
    NamesConcat(a', b);
    WalkConcat(start, Names(a'), Names(b));
    NamesWhole(a');
    WalkClean(start, Names(a'));
    AbsCanonical(Walk(start, Names(a')));
  }

  /** Main result: resolving `a/b` is resolving `b` from where `a` leads. The two exceptions name
      the home directory: `b` must not be `~/...`, and `a` must not be the name `~` itself. */
  lemma ResolvesStepwise(home: string, a: string, b: string, cwd: string)
    requires Canonical(cwd) && a != "" && a != "~" && b != ""
    requires b[0] != SLASH && (|b| >= 2 ==> b[..2] != "~/")
    ensures Resolve(home, a, cwd).Some?
    ensures Resolve(home, a + [SLASH] + b, cwd) == Resolve(home, b, Resolve(home, a, cwd).value)
  {
    WalkOn(home, a, b, cwd);
    WalkNames(Names(Resolve(home, a, cwd).value), b);
  }

  lemma ExpandPrefix(home: string, a: string, b: string)
    requires a != "" && a != "~"
    ensures Expand(home, a + [SLASH] + b) == Expand(home, a) + [SLASH] + b && Expand(home, a) != ""
  {
    var whole := a + [SLASH] + b;
    if |a| >= 2 {
      assert whole[..2] == a[..2] && whole[1..] == a[1..] + [SLASH] + b;
      if a[..2] == "~/" {
        assert home + (a[1..] + [SLASH] + b) == (home + a[1..]) + [SLASH] + b;
      }
    } else {
      assert whole[0] == a[0] && a == [a[0]];
    }
  }

  /** A plain name leads into the directory, and `..` to its parent. */
  lemma NameResolves(home: string, name: string, cwd: seq<string>)
    requires Clean(name) || name == ".."
    requires AllClean(cwd)
    ensures Resolve(home, name, Abs(cwd)) == Some(Abs(Enter(cwd, name)))
  {
    AbsCanonical(cwd);
    assert name[0] in name && name[|name| - 1] in name && (|name| >= 2 ==> name[1] in name);
    assert RStrip(name) == name && Expand(home, name) == name;
    SplitWhole(SLASH, name);
    WalkOne(cwd, name);
  }

  // ---------------------------------------------------------------- the home directory

  /** What a walk does in the end: go up `ups` levels, then down along `names`. */
  datatype Net = Net(ups: nat, names: seq<string>)

  function NetOf(pieces: seq<string>): Net {
    if pieces == [] then Net(0, [])
    else
      var net, p := NetOf(Front(pieces)), Last(pieces);
      if p == ".." then (if net.names == [] then Net(net.ups + 1, []) else Net(net.ups, Front(net.names)))
      else if p == "." || p == "" then net
      else Net(net.ups, net.names + [p])
  }

  /** The directory `d` levels up, where the root is above itself. */
  function Up(names: seq<string>, d: nat): seq<string> {
    if d >= |names| then [] else names[..|names| - d]
  }

  lemma {:induction false} WalkNets(names: seq<string>, ps: seq<string>)
    ensures Walk(names, ps) == Up(names, NetOf(ps).ups) + NetOf(ps).names
    decreases |ps|
  {
    if ps == [] {
      assert Up(names, 0) == names;
    } else {
      WalkNets(names, Front(ps));
      var net := NetOf(Front(ps));
      UpOneMore(Up(names, net.ups), net.names, Last(ps));
    }
  }

  lemma UpOneMore(top: seq<string>, names: seq<string>, p: string)
    ensures names != [] ==> Front(top + names) == top + Front(names)
    ensures top + [] == top && top + names + [p] == top + (names + [p])
  {
  }

  /** Two walks along the same names end at the same place exactly if the places they start from have
      the same directory as many levels up as the walks go. */
  lemma SameWalk(xs: seq<string>, ys: seq<string>, ps: seq<string>)
    requires AllClean(xs) && AllClean(ys) && AllWhole(ps)
    ensures Abs(Walk(xs, ps)) == Abs(Walk(ys, ps)) <==> Up(xs, NetOf(ps).ups) == Up(ys, NetOf(ps).ups)
  {
    hide Abs, AllClean, AllWhole;
    WalkClean(xs, ps);
    WalkClean(ys, ps);
    AbsCanonical(Walk(xs, ps));
    AbsCanonical(Walk(ys, ps));
    WalkNets(xs, ps);
    WalkNets(ys, ps);
    SameSuffix(Up(xs, NetOf(ps).ups), Up(ys, NetOf(ps).ups), NetOf(ps).names);
  }

  lemma SameSuffix(xs: seq<string>, ys: seq<string>, ps: seq<string>)
    ensures xs + ps == ys + ps <==> xs == ys
  {
    if xs + ps == ys + ps {
      assert xs == (xs + ps)[..|xs + ps| - |ps|] == (ys + ps)[..|ys + ps| - |ps|] == ys;
    }
  }

  /** Behind `~/` a path is walked from the home directory. */
  lemma TildePath(home: string, rest: string, cwd: string)
    requires Canonical(home)
    ensures Resolve(home, "~/" + rest, cwd) == Some(Abs(Walk(Names(home), Names(rest))))
  {
    var path := "~/" + rest;
    assert path[1..] == [SLASH] + rest;
    assert home + ([SLASH] + rest) == home + [SLASH] + rest;
    assert path[..2] == "~/";
    hide Names, Abs;
    WalkNames([], home + [SLASH] + rest);
    NamesConcat(home, rest);
    WalkConcat([], Names(home), Names(rest));
    WalkOfClean([], Names(home));
    assert [] + Names(home) == Names(home);
  }

  lemma TildeName(home: string, name: string, cwd: string)
    requires Canonical(home) && Clean(name)
    ensures Resolve(home, "~/" + name, cwd) == Some(Abs(Names(home) + [name]))
  {
    SplitWhole(SLASH, name);
    NonEmptyWhole([name]);
    hide Resolve;
    TildePath(home, name, cwd);
    WalkOne(Names(home), name);
  }

  lemma WithTilde(names: seq<string>)
    requires AllClean(names)
    ensures AllClean(names + ["~"])
  {
    assert Clean("~");
  }

  /** The excluded `a`: `~` alone is an ordinary name, but `~/b` is under the home directory. The two
      ways agree exactly if the home directory and the entry `~` of the current one have the same
      directory as many levels up as `b` goes; for plain names, if they are the same directory. */
  lemma TildeIsStepwiseOnlyAtHome(home: string, b: string, cwd: string)
    requires Canonical(home) && Canonical(cwd) && b != "" && b[0] != SLASH && (|b| >= 2 ==> b[..2] != "~/")
    ensures Resolve(home, "~", cwd).Some?
    ensures var ups := NetOf(Names(b)).ups;
            Resolve(home, "~/" + b, cwd) == Resolve(home, b, Resolve(home, "~", cwd).value)
            <==> Up(Names(home), ups) == Up(Names(cwd) + ["~"], ups)
  {
    var here := Names(cwd) + ["~"];
    WithTilde(Names(cwd));
    assert Clean("~");
    NameResolves(home, "~", Names(cwd));
    AbsCanonical(here);
    RelativePath(home, b, Abs(here));
    TildePath(home, b, cwd);
    NamesWhole(b);
    hide Resolve, Names, Abs, AllClean, AllWhole;
    SameWalk(Names(home), here, Names(b));
  }

  lemma RelativePath(home: string, b: string, cwd: string)
    requires b != "" && b[0] != SLASH && (|b| >= 2 ==> b[..2] != "~/")
    ensures Resolve(home, b, cwd) == Some(Abs(Walk(Names(cwd), Names(b))))
  {
    WalkNames(Names(cwd), b);
  }

  /** The excluded `b`: below `a` the `~` of `~/rest` is an ordinary name, alone it is the home
      directory. Again they agree exactly if that entry `~` and the home directory have the same
      directory as many levels up as the rest goes. */
  lemma TildeBelowIsStepwiseOnlyAtHome(home: string, a: string, rest: string, cwd: string)
    requires Canonical(home) && Canonical(cwd) && a != "" && a != "~"
    ensures Resolve(home, a, cwd).Some?
    ensures var place, ups := Resolve(home, a, cwd).value, NetOf(Names(rest)).ups;
            Resolve(home, a + [SLASH] + ("~/" + rest), cwd) == Resolve(home, "~/" + rest, place)
            <==> Up(Names(home), ups) == Up(Names(place) + ["~"], ups)
  {
    ResolvesToCanonical(home, a, cwd);
    var place := Resolve(home, a, cwd).value;
    TildePath(home, rest, place);
    TildeBelow(home, a, rest, cwd);
    WithTilde(Names(place));
    NamesWhole(rest);
    hide Resolve, Names, Abs, AllClean, AllWhole;
    SameWalk(Names(home), Names(place) + ["~"], Names(rest));
  }

  lemma TildeBelow(home: string, a: string, rest: string, cwd: string)
    requires Canonical(cwd) && a != "" && a != "~"
    ensures Resolve(home, a, cwd).Some?
    ensures var middle := Names(Resolve(home, a, cwd).value);
            Resolve(home, a + [SLASH] + ("~/" + rest), cwd) == Some(Abs(Walk(middle + ["~"], Names(rest))))
  {
    WalkOn(home, a, "~/" + rest, cwd);
    hide Names, Resolve, Abs, AllClean, Canonical;
    var middle := Names(Resolve(home, a, cwd).value);
    NamesBelowTilde(rest);
    WalkConcat(middle, ["~"], Names(rest));
    WalkOne(middle, "~");
  }

  lemma NamesBelowTilde(rest: string)
    ensures Names("~/" + rest) == ["~"] + Names(rest)
  {
    assert "~/" + rest == "~" + [SLASH] + rest;
    NamesConcat("~", rest);
    SplitWhole(SLASH, "~");
    NonEmptyWhole(["~"]);
  }

  /** Both at once: `~/~/rest` against `~/rest`. They agree only if the rest goes up past the root. */
  lemma TildeTwice(home: string, rest: string, cwd: string)
    requires Canonical(home) && Canonical(cwd)
    ensures Resolve(home, "~", cwd).Some?
    ensures Resolve(home, "~/" + ("~/" + rest), cwd) == Resolve(home, "~/" + rest, Resolve(home, "~", cwd).value)
            <==> NetOf(Names(rest)).ups > |Names(home)|
  {
    assert Clean("~");
    NameResolves(home, "~", Names(cwd));
    TildePath(home, "~/" + rest, cwd);
    TildePath(home, rest, Resolve(home, "~", cwd).value);
    WithTilde(Names(home));
    NamesWhole(rest);
    NamesBelowTilde(rest);
    hide Resolve, Names, Abs, AllClean, AllWhole;
    WalkConcat(Names(home), ["~"], Names(rest));
    WalkOne(Names(home), "~");
    SameWalk(Names(home) + ["~"], Names(home), Names(rest));
    UpPastRoot(Names(home), NetOf(Names(rest)).ups);
  }

  lemma UpPastRoot(names: seq<string>, d: nat)
    ensures Up(names + ["~"], d) == Up(names, d) <==> d > |names|
  {
  }

  /** Plain names only go down, so for them the conditions above say that the directories are the same. */
  lemma {:induction false} PlainNamesGoDown(ps: seq<string>)
    requires AllClean(ps)
    ensures NetOf(ps) == Net(0, ps) && forall names :: Up(names, 0) == names
    decreases |ps|
  {
    if ps != [] {
      assert Last(ps) in ps && forall p :: p in Front(ps) ==> p in ps;
      PlainNamesGoDown(Front(ps));
    }
  }
}
