/** `cd` of cowrie-source/commands/fs.py. */
module ChangeDirectory {
  import opened Sequences
  import opened Paths
  import opened FsTree
  import opened FsWalkers
  import opened FsAgreement
  import opened Filesystem
  import opened FsPaths

  function Wanted(home: string, args: seq<string>): string {
    if args == [] || args[0] == "~" then home else args[0]
  }

  /** The working directory after `cd`; it stays what it was when `cd` complains. */
  function NewDir(t: Entry, home: string, cwd: string, args: seq<string>, budget: nat): string {
    var pname := Wanted(home, args);
    var newpath := Resolve(home, pname, cwd);
    if newpath.None? || pname == "-" then cwd
    else
      var inode := GetFile(t, newpath.value, true, budget);
      if inode.Found? && At(t, inode.at).kind == Dir then newpath.value else cwd
  }

  class Protocol {
    var cwd: string
    const fs: HoneyPotFilesystem

    constructor (fs: HoneyPotFilesystem, cwd: string)
      ensures this.fs == fs && this.cwd == cwd
    {
      this.fs, this.cwd := fs, cwd;
    }

    method ChangeDir(args: seq<string>)
      modifies this
      ensures cwd == NewDir(fs.fs, fs.home, old(cwd), args, fs.budget)
    {
      hide GetFile, Resolve;
      var pname := Wanted(fs.home, args);
      var newpath := ResolvePath(fs.home, pname, cwd);
      var inode := Missing;
      if newpath.Some? {
        inode := fs.WalkFile(newpath.value, true, fs.budget);
      }
      if pname == "-" || !inode.Found? || At(fs.fs, inode.at).kind != Dir {
        return;
      }
      cwd := newpath.value;
    }
  }

  /** One `cd`, in whatever state the tree is by then. */
  datatype Visit = Visit(tree: Entry, args: seq<string>)

  function Visits(home: string, cwd: string, visits: seq<Visit>, budget: nat): string
    decreases |visits|
  {
    if visits == [] then cwd
    else NewDir(Last(visits).tree, home, Visits(home, cwd, Front(visits), budget), Last(visits).args, budget)
  }

  lemma NewDirCanonical(t: Entry, home: string, cwd: string, args: seq<string>, budget: nat)
    requires Canonical(cwd)
    ensures Canonical(NewDir(t, home, cwd, args, budget))
  {
    hide Canonical, GetFile, Resolve;
    var pname := Wanted(home, args);
    if pname == "" {
      assert Resolve(home, pname, cwd).None? by { EmptyResolves(home, cwd); }
    } else {
      ResolvesToCanonical(home, pname, cwd);
    }
  }

  lemma EmptyResolves(home: string, cwd: string)
    ensures Resolve(home, "", cwd).None?
  {
  }

  /** Main result: the working directory stays canonical through every run of `cd` commands, with any
      arguments and any home directory, whatever happens to the tree in between. */
  lemma {:induction false} CwdStaysCanonical(home: string, cwd: string, visits: seq<Visit>, budget: nat)
    requires Canonical(cwd)
    ensures Canonical(Visits(home, cwd, visits, budget))
    decreases |visits|
  {
    hide Canonical, NewDir;
    if visits != [] {
      CwdStaysCanonical(home, cwd, Front(visits), budget);
      NewDirCanonical(Last(visits).tree, home, Visits(home, cwd, Front(visits), budget), Last(visits).args, budget);
    }
  }

  /** `getfile` finds a directory there, perhaps through links. */
  predicate IsDirectory(t: Entry, path: string, budget: nat) {
    var inode := GetFile(t, path, true, budget);
    inode.Found? && At(t, inode.at).kind == Dir
  }

  lemma PlainDirectory(t: Entry, names: seq<string>, budget: nat)
    requires Plain(t) && budget > 0 && AllClean(names)
    ensures IsDirectory(t, Abs(names), budget) <==> Lookup(t, names).Some? && Lookup(t, names).value.kind == Dir
  {
    AbsCanonical(names);
    SoughtCanonical(Abs(names));
    GetFileIsLocate(t, Abs(names), true, budget);
  }

  /** `cd` to a name in the working directory, on any tree: there exactly when it is a directory; without
      links that is an entry of the name, or for `..` the parent. */
  lemma CdName(t: Entry, home: string, names: seq<string>, n: string, budget: nat)
    requires AllClean(names) && (Clean(n) || n == "..") && n != "~" && n != "-"
    ensures var names' := Paths.Enter(names, n);
            && NewDir(t, home, Abs(names), [n], budget)
               == (if IsDirectory(t, Abs(names'), budget) then Abs(names') else Abs(names))
            && (Plain(t) && budget > 0 ==>
                  (IsDirectory(t, Abs(names'), budget)
                   <==> Lookup(t, names').Some? && Lookup(t, names').value.kind == Dir))
  {
    NameResolves(home, n, names);
    var names' := Paths.Enter(names, n);
    assert AllClean(names');
    hide GetFile, Resolve, Plain, Lookup, Abs;
    if Plain(t) && budget > 0 {
      PlainDirectory(t, names', budget);
    }
  }

  /** `cd` without arguments, or to `~`, goes to the home directory exactly if that is a directory. */
  lemma CdHome(t: Entry, home: string, cwd: string, args: seq<string>, budget: nat)
    requires Canonical(home) && (args == [] || args[0] == "~")
    ensures NewDir(t, home, cwd, args, budget) == if IsDirectory(t, home, budget) then home else cwd
  {
    CanonicalIsFixed(home, home, cwd);
    assert home[0] == SLASH && "-"[0] != SLASH;
    hide Resolve, GetFile;
  }

  /** Main result: `cd n` and then `cd ..` leads back to where it started, links or not, even if the
      tree has changed in between, if both places are directories when it is their turn. */
  lemma CdAndBack(t: Entry, t': Entry, home: string, names: seq<string>, n: string, budget: nat)
    requires AllClean(names) && Clean(n) && n != "~" && n != "-"
    requires IsDirectory(t, Abs(names + [n]), budget) && IsDirectory(t', Abs(names), budget)
    ensures NewDir(t, home, Abs(names), [n], budget) == Abs(names + [n])
    ensures NewDir(t', home, Abs(names + [n]), [".."], budget) == Abs(names)
  {
    hide NewDir, Lookup, Plain, IsDirectory, Abs;
    CdName(t, home, names, n, budget);
    assert AllClean(names + [n]);
    CdName(t', home, names + [n], "..", budget);
    assert Front(names + [n]) == names;
  }

  /** `cd -` goes nowhere, even where a directory has that name. */
  lemma CdDash(t: Entry, home: string, cwd: string, budget: nat)
    ensures NewDir(t, home, cwd, ["-"], budget) == cwd
  {
    hide GetFile, Resolve;
  }
}
