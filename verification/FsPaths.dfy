/** Which paths name the entry they look for: `dirname` and `basename` against the walkers' pieces. */
module FsPaths {
  import opened Sequences
  import opened Strings
  import opened Paths
  import opened FsWalkers
  import opened FsAgreement
  import opened Filesystem

  /** A path without empty pieces that does not end in a slash. */
  predicate Proper(path: string) {
    WellFormed(path) && Basename(path) != ""
  }

  lemma {:induction false} AfterSlashMeans(path: string)
    ensures SLASH !in path[AfterSlash(path)..]
    ensures AfterSlash(path) > 0 ==> path[AfterSlash(path) - 1] == SLASH
    ensures AfterSlash(path) == |path| <==> path == "" || Last(path) == SLASH
    decreases |path|
  {
    if path != "" && Last(path) != SLASH {
      AfterSlashMeans(Front(path));
      assert path[AfterSlash(path)..] == Front(path)[AfterSlash(path)..] + [Last(path)];
    }
  }

  lemma {:induction false} BaseIs(head: string, n: string)
    requires SLASH !in n
    ensures AfterSlash(head + [SLASH] + n) == |head| + 1 && Basename(head + [SLASH] + n) == n
    decreases |n|
  {
    var path := head + [SLASH] + n;
    if n != "" {
      assert Last(n) in n && Last(path) == Last(n);
      assert Front(path) == head + [SLASH] + Front(n);
      BaseIs(head, Front(n));
    } else {
      assert path == head + [SLASH] && Last(path) == SLASH;
    }
  }

  lemma NamesOfWhole(name: string)
    requires SLASH !in name
    ensures Names(name) == NonEmpty([name])
  {
    SplitWhole(SLASH, name);
  }

  /** The names of a path are those of its `dirname`, then its `basename` unless that is empty. */
  lemma DirnameNames(path: string)
    ensures Names(path) == Names(Dirname(path)) + NonEmpty([Basename(path)])
  {
    hide NonEmpty, AfterSlash, Names, RStrip;
    var i := AfterSlash(path);
    var head, base := path[..i], path[i..];
    AfterSlashMeans(path);
    NamesOfWhole(base);
    NamesRStrip(head);
    NamesEmpty();
    if i == 0 {
      assert head == "" && base == path;
      assert [] + Names(path) == Names(path);
    } else {
      assert path == path[..i - 1] + [SLASH] + base;
      assert head == path[..i - 1] + [SLASH] + "";
      NamesConcat(path[..i - 1], base);
      NamesConcat(path[..i - 1], "");
      assert Names(path[..i - 1]) + [] == Names(path[..i - 1]);
    }
  }

  lemma DirnameFront(path: string)
    requires Basename(path) != ""
    ensures Names(path) != [] && Names(Dirname(path)) == Front(Names(path)) && Basename(path) == Last(Names(path))
  {
    hide Names, Dirname, Basename;
    DirnameNames(path);
    assert NonEmpty([Basename(path)]) == [Basename(path)] by { NonEmptyOne(Basename(path)); }
  }

  lemma NonEmptyOne(name: string)
    requires name != ""
    ensures NonEmpty([name]) == [name]
  {
    assert [name][1..] == [];
  }

  lemma {:induction false} RStripEnd(s: string)
    ensures RStrip(s) == "" || Last(RStrip(s)) != SLASH
    ensures s != "" && Last(s) != SLASH ==> RStrip(s) == s
  {
    if s != "" && s[|s| - 1] == SLASH {
      RStripEnd(s[..|s| - 1]);
    }
  }

  lemma {:induction false} LStripEnd(s: string)
    requires s == "" || Last(s) != SLASH
    ensures LStrip(s) == "" <==> s == ""
    ensures LStrip(s) != "" ==> Last(LStrip(s)) != SLASH
  {
    if s != "" && s[0] == SLASH {
      assert |s| > 1;
      LStripEnd(s[1..]);
    }
  }

  /** `mkdir` looks for the parent of the stripped path. */
  lemma StrippedFront(path: string)
    requires LStrip(RStrip(path)) != ""
    ensures Names(path) != [] && Names(Dirname(LStrip(RStrip(path)))) == Front(Names(path))
  {
    hide Names, Dirname;
    var p := LStrip(RStrip(path));
    RStripEnd(path);
    LStripEnd(RStrip(path));
    AfterSlashMeans(p);
    DirnameFront(p);
    NamesRStrip(path);
    NamesLStrip(RStrip(path));
  }

  /** Main result: a proper path leads the walkers to where `dirname` and `basename` point. */
  lemma ProperSpells(path: string)
    requires Proper(path)
    ensures var names := Names(path);
            && names != [] && Sought(path) == names
            && Names(Dirname(path)) == Front(names) && Basename(path) == Last(names)
    ensures RStrip(path) == path && LStrip(RStrip(path)) != ""
  {
    DirnameFront(path);
    NamesOfPieces(path);
    AfterSlashMeans(path);
    RStripEnd(path);
    LStripEnd(path);
    NamesEmpty();
  }

  lemma {:induction false} JoinEnds(names: seq<string>)
    requires names != [] && AllWhole(names)
    ensures var s := Join(SLASH, names); s != "" && s[0] != SLASH && Last(s) != SLASH
  {
    assert Whole(names[0]) && names[0][0] in names[0] && Last(names[0]) in names[0];
    if |names| > 1 {
      JoinEnds(names[1..]);
    }
  }

  lemma {:induction false} JoinSnoc(dir: seq<string>, n: string)
    requires dir != []
    ensures Join(SLASH, dir + [n]) == Join(SLASH, dir) + [SLASH] + n
  {
    if |dir| > 1 {
      assert (dir + [n])[1..] == dir[1..] + [n];
      JoinSnoc(dir[1..], n);
      var rest := Join(SLASH, dir[1..]);
      assert dir[0] + [SLASH] + (rest + [SLASH] + n) == dir[0] + [SLASH] + rest + [SLASH] + n;
    } else {
      assert (dir + [n])[1..] == [n];
    }
  }

  lemma AbsSnoc(dir: seq<string>, n: string)
    requires AllWhole(dir) && Whole(n)
    ensures Abs(dir + [n]) == if dir == [] then "/" + n else Abs(dir) + [SLASH] + n
    ensures dir != [] ==> Last(Abs(dir)) != SLASH && RStrip(Abs(dir) + [SLASH]) == Abs(dir)
    ensures Dirname(Abs(dir + [n])) == Abs(dir) && Basename(Abs(dir + [n])) == n
  {
    hide Join, AfterSlash;
    var path := Abs(dir + [n]);
    if dir == [] {
      assert [] + [n] == [n];
      assert Join(SLASH, [n]) == n && Join(SLASH, []) == "" by { JoinSmall(n); }
      Based("", n);
      assert path == "" + [SLASH] + n;
      assert RStrip("/") == "";
    } else {
      JoinSnoc(dir, n);
      JoinEnds(dir);
      assert path == Abs(dir) + [SLASH] + n;
      Based(Abs(dir), n);
      RStripEnd(Abs(dir));
      assert (Abs(dir) + [SLASH])[..|Abs(dir)|] == Abs(dir);
    }
  }

  lemma JoinSmall(n: string)
    ensures Join(SLASH, [n]) == n && Join(SLASH, []) == ""
  {
  }

  lemma Based(head: string, n: string)
    requires Whole(n)
    ensures AfterSlash(head + [SLASH] + n) == |head| + 1
    ensures (head + [SLASH] + n)[..|head| + 1] == head + [SLASH] && (head + [SLASH] + n)[|head| + 1..] == n
  {
    hide AfterSlash, Basename;
    BaseIs(head, n);
  }

  /** Main result: every canonical path but the root is proper, so is every path the shell resolves. */
  lemma CanonicalIsProper(path: string)
    requires Canonical(path) && path != "/"
    ensures Proper(path)
  {
    var names := Names(path);
    CleanIsWhole(names);
    hide Names, Split;
    assert names != [];
    JoinEnds(names);
    var joined := Join(SLASH, names);
    assert path == [SLASH] + joined && Last(path) == Last(joined);
    RStripEnd(path);
    assert path[1..] == joined;
    assert LStrip(path) == joined;
    SplitJoin(SLASH, names);
    AfterSlashMeans(path);
  }

  lemma SoughtCanonical(path: string)
    requires Canonical(path)
    ensures Sought(path) == Names(path)
  {
    NamesEmpty();
    if path != "/" {
      CanonicalIsProper(path);
      ProperSpells(path);
    }
  }
}
