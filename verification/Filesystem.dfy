/** `HoneyPotFilesystem` of cowrie-shell-source/fs.py and the copying of cowrie-source/commands/fs.py:
    operations that change the tree. */
module Filesystem {
  import Bytes
  import opened Sequences
  import opened Paths
  import opened FsTree
  import opened FsWalkers

  datatype State = State(fs: Entry, newcount: nat)

  /** What an operation returns, or the exception it ends with. */
  datatype Result = Done(ok: bool) | Failed(error: Error)

  // ---------------------------------------------------------------- os.path

  function AfterSlash(path: string): (i: nat)
    ensures i <= |path|
  {
    if path == "" then 0
    else if Last(path) == SLASH then |path|
    else AfterSlash(Front(path))
  }

  function Basename(path: string): string {
    path[AfterSlash(path)..]
  }

  function Dirname(path: string): string {
    var head := path[..AfterSlash(path)];
    if RStrip(head) == "" then head else RStrip(head)
  }

  // ---------------------------------------------------------------- lists of entries

  function Without(entries: seq<Entry>, k: nat): seq<Entry>
    requires k < |entries|
  {
    entries[..k] + entries[k + 1..]
  }

  /** The list without the first entry of that name. */
  function Dropping(entries: seq<Entry>, name: string): seq<Entry> {
    var k := Named(entries, name);
    if k.None? then entries else Without(entries, k.value)
  }

  /** `list.index`: the first element equal to `x` by value. */
  function IndexOf(entries: seq<Entry>, x: Entry): (k: Option<nat>)
    ensures k.Some? ==> k.value < |entries| && entries[k.value] == x
  {
    if entries == [] then None
    else if entries[0] == x then Some(0)
    else
      var k := IndexOf(entries[1..], x);
      if k.None? then None else Some(k.value + 1)
  }

  function WithKids(t: Entry, at: Position, kids: seq<Entry>): Entry
    requires Has(t, at)
  {
    Put(t, at, At(t, at).(contents := Children(kids)))
  }

  function NewEntry(name: string, kind: Kind, uid: int, gid: int, size: int, mode: int, ctime: int): Entry {
    Entry(name, kind, uid, gid, size, mode, ctime, Children([]), None, None)
  }

  // ---------------------------------------------------------------- what the operations do

  const MAX_NEW: nat := 10000

  predicate Special(dir: string) {
    "/sys" <= dir || "/proc" <= dir || "/dev/pts" <= dir
  }

  /** Listing the names in the bytes of a file, or appending to them, raises. */
  function NotAList(bytes: seq<Bytes.Byte>): Error {
    if bytes == [] then AttributeError else TypeError
  }

  function Mkfile(s: State, path: string, uid: int, gid: int, size: int, mode: int, ctime: int, budget: nat)
    : (State, Result)
  {
    if s.newcount > MAX_NEW then (s, Done(false))
    else if Special(Dirname(path)) then (s, Failed(PermissionDenied))
    else
      var dir := GetPath(s.fs, Dirname(path), true, budget);
      if dir.Raised? then (s, Failed(dir.error))
      else match At(s.fs, dir.at).contents
        case Data(bytes) => (s, Failed(NotAList(bytes)))
        case Children(kids) =>
          var name := Basename(path);
          var file := NewEntry(name, File, uid, gid, size, mode, ctime);
          (State(WithKids(s.fs, dir.at, Dropping(kids, name) + [file]), s.newcount + 1), Done(true))
  }

  function Mkdir(s: State, path: string, uid: int, gid: int, size: int, mode: int, ctime: int, budget: nat)
    : (State, Result)
  {
    if s.newcount > MAX_NEW then (s, Failed(Quota))
    else if LStrip(RStrip(path)) == "" then (s, Failed(NoEntry))
    else
      var dir := GetPath(s.fs, Dirname(LStrip(RStrip(path))), true, budget);
      if dir == Raised(FileNotFound) || dir == Raised(IndexError) then (s, Failed(NoEntry))
      else if dir.Raised? then (s, Failed(dir.error))
      else match At(s.fs, dir.at).contents
        case Data(_) => (s, Failed(AttributeError))
        case Children(kids) =>
          var entry := NewEntry(Basename(path), Dir, uid, gid, size, mode, ctime);
          (State(WithKids(s.fs, dir.at, kids + [entry]), s.newcount + 1), Done(true))
  }

  function Mkdir2(s: State, path: string, ctime: int, budget: nat): (State, Result) {
    match GetFile(s.fs, path, true, budget)
    case Raised(error) => (s, Failed(error))
    case Found(_) => (s, Failed(Exists))
    case Missing => Mkdir(s, path, 0, 0, 4096, 16877, ctime, budget)
  }

  function Size(contents: Contents): nat {
    if contents.Children? then |contents.entries| else |contents.bytes|
  }

  function Rmdir(s: State, path: string, budget: nat): (State, Result) {
    var p := RStrip(path);
    match GetFile(s.fs, p, false, budget)
    case Raised(error) => (s, Failed(error))
    case Missing => (s, Failed(Exists))
    case Found(at) =>
      if At(s.fs, at).kind != Dir then (s, Failed(NotDirectory))
      else
        var own := GetPath(s.fs, p, true, budget);
        if own.Raised? then (s, Failed(own.error))
        else if Size(At(s.fs, own.at).contents) > 0 then (s, Failed(NotEmpty))
        else
          var parent := GetPath(s.fs, Dirname(p), true, budget);
          if parent.Raised? then (s, Failed(parent.error))
          else match At(s.fs, parent.at).contents
            case Data(bytes) => (s, if bytes == [] then Done(false) else Failed(TypeError))
            case Children(kids) =>
              if Named(kids, Basename(p)).None? then (s, Done(false))
              else (s.(fs := WithKids(s.fs, parent.at, Dropping(kids, Basename(p)))), Done(true))
  }

  function Remove(s: State, path: string, budget: nat): (State, Result) {
    match GetFile(s.fs, path, false, budget)
    case Raised(error) => (s, Failed(error))
    case Missing => (s, Failed(NoEntry))
    case Found(at) =>
      var parent := GetPath(s.fs, Dirname(path), true, budget);
      if parent.Raised? then (s, Failed(parent.error))
      else match At(s.fs, parent.at).contents
        case Data(_) => (s, Failed(AttributeError))
        case Children(kids) =>
          var k := IndexOf(kids, At(s.fs, at));
          if k.None? then (s, Failed(ValueError))
          else (s.(fs := WithKids(s.fs, parent.at, Without(kids, k.value))), Done(true))
  }

  /** Where `at` is once child `k` of `dir` is gone. */
  function Shifted(at: Position, dir: Position, k: nat): Position {
    if |dir| < |at| && dir <= at && at[|dir|] > k then at[|dir| := at[|dir|] - 1] else at
  }

  /** The tree after `was` left its directory and took its new name. What `list.remove` took out,
      by value, is usually `was` itself; if not, `was` stays where it was under the new name. */
  function Detached(t: Entry, was: Position, dir: Position, k: nat, name: string): Entry
    requires Has(t, dir) && k < |Kids(At(t, dir))|
  {
    var t' := WithKids(t, dir, Without(Kids(At(t, dir)), k));
    var place := Shifted(was, dir, k);
    if was == dir + [k] || !Has(t', place) then t' else Put(t', place, At(t', place).(name := name))
  }

  function Attach(s: State, t: Entry, x: Entry, path: string, budget: nat): (State, Result) {
    var dir := GetPath(t, path, true, budget);
    if dir.Raised? then (s.(fs := t), Failed(dir.error))
    else match At(t, dir.at).contents
      case Data(_) => (s.(fs := t), Failed(AttributeError))
      case Children(kids) => (s.(fs := WithKids(t, dir.at, kids + [x])), Done(true))
  }

  function Rename(s: State, oldpath: string, newpath: string, budget: nat): (State, Result) {
    match GetFile(s.fs, oldpath, true, budget)
    case Raised(error) => (s, Failed(error))
    case Missing => (s, Failed(NoEntry))
    case Found(was) =>
      match GetFile(s.fs, newpath, true, budget)
      case Raised(error) => (s, Failed(error))
      case Found(_) => (s, Failed(Exists))
      case Missing =>
        var dir := GetPath(s.fs, Dirname(oldpath), true, budget);
        if dir.Raised? then (s, Failed(dir.error))
        else match At(s.fs, dir.at).contents
          case Data(_) => (s, Failed(AttributeError))
          case Children(kids) =>
            var k := IndexOf(kids, At(s.fs, was));
            if k.None? then (s, Failed(ValueError))
            else
              var name := Basename(newpath);
              var t := Detached(s.fs, was, dir.at, k.value, name);
              Attach(s, t, At(s.fs, was).(name := name), Dirname(newpath), budget)
  }

  function UpdateSize(s: State, path: string, size: int, budget: nat): (State, Result) {
    match GetFile(s.fs, path, true, budget)
    case Raised(error) => (s, Failed(error))
    case Missing => (s, Done(true))
    case Found(at) =>
      if At(s.fs, at).kind != File then (s, Done(true))
      else (s.(fs := Put(s.fs, at, At(s.fs, at).(size := size))), Done(true))
  }

  // ---------------------------------------------------------------- cp

  /** `isdir`, which answers False where `getfile` raises. */
  predicate IsDir(t: Entry, path: string, budget: nat) {
    path == "/" || (var f := GetFile(t, path, true, budget); f.Found? && At(t, f.at).kind == Dir)
  }

  /** One source, copied into the directory `dir` under the name `name`. */
  function CopyOne(s: State, src: string, recursive: bool, dir: string, name: string, budget: nat): (State, Result) {
    match GetFile(s.fs, src, true, budget)
    case Raised(error) => (s, Failed(error))
    case Missing => (s, Done(false))
    case Found(at) =>
      if !recursive && IsDir(s.fs, src, budget) then (s, Done(false))
      else
        var to := GetPath(s.fs, dir, true, budget);
        if to.Raised? then (s, Failed(to.error))
        else match At(s.fs, to.at).contents
          case Data(bytes) => (s, Failed(NotAList(bytes)))
          case Children(kids) =>
            (s.(fs := WithKids(s.fs, to.at, Dropping(kids, name) + [At(s.fs, at).(name := name)])), Done(true))
  }

  /** The loop over the sources: into the directory `dir`, under `name` or else each under its own. */
  function CopyAll(s: State, sources: seq<string>, recursive: bool, dir: string, name: Option<string>,
                   home: string, cwd: string, budget: nat): (State, Result)
    decreases |sources|
  {
    if sources == [] then (s, Done(true))
    else
      var src := Resolve(home, sources[0], cwd);
      if src.None? then (s, Failed(IndexError))
      else
        var own := if name.Some? then name.value else Basename(sources[0]);
        var (s', r) := CopyOne(s, src.value, recursive, dir, own, budget);
        if r.Failed? then (s', r) else CopyAll(s', sources[1..], recursive, dir, name, home, cwd, budget)
  }

  /** `cp` after its options are read. The messages it prints are not modelled. */
  function Copy(s: State, sources: seq<string>, dest: string, recursive: bool,
                home: string, cwd: string, budget: nat): (State, Result)
  {
    var d := Resolve(home, dest, cwd);
    if d.None? then (s, Failed(IndexError))
    else if |sources| > 1 && !IsDir(s.fs, d.value, budget) then (s, Done(false))
    else
      var there := GetFile(s.fs, d.value, true, budget);
      if Slashed(dest) && there.Raised? then (s, Failed(there.error))
      else if Slashed(dest) && there.Missing? && !recursive then (s, Done(false))
      else if IsDir(s.fs, d.value, budget) then CopyAll(s, sources, recursive, d.value, None, home, cwd, budget)
      else
        var parent := GetFile(s.fs, Dirname(d.value), true, budget);
        match parent
        case Raised(error) => (s, Failed(error))
        case Missing => (s, Done(false))
        case Found(_) =>
          CopyAll(s, sources, recursive, Dirname(d.value), Some(Basename(RStrip(dest))), home, cwd, budget)
  }

  predicate Slashed(path: string) {
    path != "" && Last(path) == SLASH
  }

  // ---------------------------------------------------------------- the class

  class HoneyPotFilesystem {
    var fs: Entry
    var newcount: nat
    const home: string
    /** What is left of Python's recursion limit when a method is called. */
    const budget: nat

    constructor (tree: Entry, home: string, budget: nat)
      ensures fs == tree && newcount == 0 && this.home == home && this.budget == budget
    {
      this.fs, this.newcount, this.home, this.budget := tree, 0, home, budget;
    }

    function Snapshot(): State
      reads this
    {
      State(fs, newcount)
    }

    method WalkFile(path: string, follow: bool, budget: nat) returns (r: Outcome)
      ensures r == GetFile(fs, path, follow, budget)
      decreases budget
    {
      hide Pieces, Named;
      if budget == 0 {
        return Raised(RecursionError);
      }
      if path == "/" {
        return Found([]);
      }
      var pieces := Pieces(path);
      var p: Position := [];
      for i := 0 to |pieces|
        invariant Has(fs, p)
        invariant Descend(fs, pieces, i, p, follow, budget) == Descend(fs, pieces, 0, [], follow, budget)
      {
        var dir := p;
        if At(fs, dir).contents.Data? {
          return if At(fs, dir).contents.bytes == [] then Missing else Raised(TypeError);
        }
        if Named(Kids(At(fs, dir)), pieces[i]).None? {
          return Missing;
        }
        var left := WalkList(pieces, i, dir, follow, budget);
        if !left.Found? {
          return left;
        }
        p := left.at;
      }
      return Found(p);
    }

    /** The inner loop of `getfile`. */
    method WalkList(pieces: seq<string>, i: nat, dir: Position, follow: bool, budget: nat) returns (r: Outcome)
      requires i < |pieces| && Has(fs, dir) && budget > 0
      ensures r == Scan(fs, pieces, i, dir, 0, dir, follow, budget)
      decreases budget, 0
    {
      hide GetFile, Goal;
      var p := dir;
      for k := 0 to |Kids(At(fs, dir))|
        invariant Has(fs, p)
        invariant Scan(fs, pieces, i, dir, k, p, follow, budget) == Scan(fs, pieces, i, dir, 0, dir, follow, budget)
      {
        HasKids(fs, dir);
        var x := Kids(At(fs, dir))[k];
        if x.name == pieces[i] {
          if (pieces[i] == Last(pieces) && !follow) || !x.kind.Link? {
            p := dir + [k];
          } else if x.target.None? {
            return Raised(TypeError);
          } else if x.target.value == "" {
            return Raised(IndexError);
          } else {
            var fileobj := WalkFile(Goal(x.target.value), follow, budget - 1);
            if !fileobj.Found? {
              return fileobj;
            }
            p := fileobj.at;
          }
        }
      }
      return Found(p);
    }

    method WalkPath(path: string, follow: bool, budget: nat) returns (r: Outcome)
      ensures r == GetPath(fs, path, follow, budget)
    {
      hide Names, GetFile;
      if budget == 0 {
        return Raised(RecursionError);
      }
      var cwd: Position := [];
      var parts := Names(path);
      while parts != []
        invariant Has(fs, cwd)
        invariant GetPathFrom(fs, parts, cwd, follow, budget) == GetPathFrom(fs, Names(path), [], follow, budget)
        decreases |parts|
      {
        if !At(fs, cwd).contents.Children? {
          return Raised(FileNotFound);
        }
        HasKids(fs, cwd);
        var k := Named(Kids(At(fs, cwd)), parts[0]);
        if k.None? {
          return Raised(FileNotFound);
        }
        var c := Kids(At(fs, cwd))[k.value];
        if c.kind.Link? {
          if c.target.None? {
            return Raised(AttributeError);
          }
          var f := WalkFile(c.target.value, follow, budget - 1);
          if f.Missing? {
            return Raised(FileNotFound);
          } else if f.Raised? {
            return f;
          }
          cwd := f.at;
        } else {
          cwd := cwd + [k.value];
        }
        parts := parts[1..];
      }
      return Found(cwd);
    }

    method MakeFile(path: string, uid: int, gid: int, size: int, mode: int, ctime: int) returns (r: Result)
      modifies this
      ensures (Snapshot(), r) == Mkfile(old(Snapshot()), path, uid, gid, size, mode, ctime, budget)
    {
      hide GetPath, Dirname, Basename, Special, WithKids, Dropping;
      if newcount > MAX_NEW {
        return Done(false);
      }
      if Special(Dirname(path)) {
        return Failed(PermissionDenied);
      }
      var dir := WalkPath(Dirname(path), true, budget);
      if dir.Raised? {
        return Failed(dir.error);
      }
      var outfile := Basename(path);
      match At(fs, dir.at).contents {
        case Data(bytes) =>
          return Failed(NotAList(bytes));
        case Children(kids) =>
          var rest := Dropping(kids, outfile);
          fs := WithKids(fs, dir.at, rest + [NewEntry(outfile, File, uid, gid, size, mode, ctime)]);
          newcount := newcount + 1;
          return Done(true);
      }
    }

    method MakeDir(path: string, uid: int, gid: int, size: int, mode: int, ctime: int) returns (r: Result)
      modifies this
      ensures (Snapshot(), r) == Mkdir(old(Snapshot()), path, uid, gid, size, mode, ctime, budget)
    {
      hide GetPath, Dirname, Basename, WithKids, LStrip, RStrip;
      if newcount > MAX_NEW {
        return Failed(Quota);
      }
      var stripped := LStrip(RStrip(path));
      if stripped == "" {
        return Failed(NoEntry);
      }
      var dir := WalkPath(Dirname(stripped), true, budget);
      if dir.Raised? {
        return Failed(if dir.error == FileNotFound || dir.error == IndexError then NoEntry else dir.error);
      }
      match At(fs, dir.at).contents {
        case Data(_) =>
          return Failed(AttributeError);
        case Children(kids) =>
          fs := WithKids(fs, dir.at, kids + [NewEntry(Basename(path), Dir, uid, gid, size, mode, ctime)]);
          newcount := newcount + 1;
          return Done(true);
      }
    }

    method MakeDir2(path: string, ctime: int) returns (r: Result)
      modifies this
      ensures (Snapshot(), r) == Mkdir2(old(Snapshot()), path, ctime, budget)
    {
      hide GetFile, Mkdir;
      var directory := WalkFile(path, true, budget);
      match directory {
        case Raised(error) => return Failed(error);
        case Found(_) => return Failed(Exists);
        case Missing => r := MakeDir(path, 0, 0, 4096, 16877, ctime);
      }
    }

    method RemoveDir(path: string) returns (r: Result)
      modifies this
      ensures (Snapshot(), r) == Rmdir(old(Snapshot()), path, budget)
    {
      hide GetFile, GetPath, Dirname, Basename, RStrip, WithKids, Without;
      var p := RStrip(path);
      var name := Basename(p);
      var directory := WalkFile(p, false, budget);
      match directory {
        case Raised(error) => return Failed(error);
        case Missing => return Failed(Exists);
        case Found(at) =>
          if At(fs, at).kind != Dir {
            return Failed(NotDirectory);
          }
      }
      var own := WalkPath(p, true, budget);
      if own.Raised? {
        return Failed(own.error);
      }
      if Size(At(fs, own.at).contents) > 0 {
        return Failed(NotEmpty);
      }
      var pdir := WalkPath(Dirname(p), true, budget);
      if pdir.Raised? {
        return Failed(pdir.error);
      }
      if At(fs, pdir.at).contents.Data? {
        return if At(fs, pdir.at).contents.bytes == [] then Done(false) else Failed(TypeError);
      }
      var kids := At(fs, pdir.at).contents.entries;
      for i := 0 to |kids|
        invariant Snapshot() == old(Snapshot())
        invariant forall j :: 0 <= j < i ==> kids[j].name != name
      {
        if kids[i].name == name {
          NamedFirst(kids, name, i);
          fs := WithKids(fs, pdir.at, Without(kids, i));
          return Done(true);
        }
      }
      NamedNone(kids, name);
      return Done(false);
    }

    method RemoveFile(path: string) returns (r: Result)
      modifies this
      ensures (Snapshot(), r) == Remove(old(Snapshot()), path, budget)
    {
      hide GetFile, GetPath, Dirname, WithKids, Without, IndexOf;
      var p := WalkFile(path, false, budget);
      match p {
        case Raised(error) => return Failed(error);
        case Missing => return Failed(NoEntry);
        case Found(_) =>
      }
      var parent := WalkPath(Dirname(path), true, budget);
      if parent.Raised? {
        return Failed(parent.error);
      }
      match At(fs, parent.at).contents {
        case Data(_) =>
          return Failed(AttributeError);
        case Children(kids) =>
          var k := IndexOf(kids, At(fs, p.at));
          if k.None? {
            return Failed(ValueError);
          }
          fs := WithKids(fs, parent.at, Without(kids, k.value));
          return Done(true);
      }
    }

    method RenameEntry(oldpath: string, newpath: string) returns (r: Result)
      modifies this
      ensures (Snapshot(), r) == Rename(old(Snapshot()), oldpath, newpath, budget)
    {
      hide GetFile, GetPath, Dirname, Basename, WithKids, Detached, IndexOf;
      var oldEntry := WalkFile(oldpath, true, budget);
      match oldEntry {
        case Raised(error) => return Failed(error);
        case Missing => return Failed(NoEntry);
        case Found(_) =>
      }
      var newEntry := WalkFile(newpath, true, budget);
      match newEntry {
        case Raised(error) => return Failed(error);
        case Found(_) => return Failed(Exists);
        case Missing =>
      }
      var parent := WalkPath(Dirname(oldpath), true, budget);
      if parent.Raised? {
        return Failed(parent.error);
      }
      if At(fs, parent.at).contents.Data? {
        return Failed(AttributeError);
      }
      var x := At(fs, oldEntry.at);
      var k := IndexOf(Kids(At(fs, parent.at)), x);
      if k.None? {
        return Failed(ValueError);
      }
      var name := Basename(newpath);
      fs := Detached(fs, oldEntry.at, parent.at, k.value, name);
      var dir := WalkPath(Dirname(newpath), true, budget);
      if dir.Raised? {
        return Failed(dir.error);
      }
      match At(fs, dir.at).contents {
        case Data(_) =>
          return Failed(AttributeError);
        case Children(kids) =>
          fs := WithKids(fs, dir.at, kids + [x.(name := name)]);
          return Done(true);
      }
    }

    method SetSize(filename: string, size: int) returns (r: Result)
      modifies this
      ensures (Snapshot(), r) == UpdateSize(old(Snapshot()), filename, size, budget)
    {
      hide GetFile;
      var f := WalkFile(filename, true, budget);
      match f {
        case Raised(error) => return Failed(error);
        case Missing => return Done(true);
        case Found(at) =>
          if At(fs, at).kind == File {
            fs := Put(fs, at, At(fs, at).(size := size));
          }
          return Done(true);
      }
    }

    method TestDir(path: string) returns (r: bool)
      ensures r == IsDir(fs, path, budget)
    {
      hide GetFile;
      if path == "/" {
        return true;
      }
      var directory := WalkFile(path, true, budget);
      return directory.Found? && At(fs, directory.at).kind == Dir;
    }

    /** One turn of `cp`'s loop. */
    method CopyEntry(src: string, recursive: bool, dir: string, name: string) returns (r: Result)
      modifies this
      ensures (Snapshot(), r) == CopyOne(old(Snapshot()), src, recursive, dir, name, budget)
    {
      hide GetFile, GetPath, IsDir, WithKids, Dropping;
      var f := WalkFile(src, true, budget);
      match f {
        case Raised(error) => return Failed(error);
        case Missing => return Done(false);
        case Found(_) =>
      }
      var isdir := TestDir(src);
      if !recursive && isdir {
        return Done(false);
      }
      var s := At(fs, f.at);
      var directory := WalkPath(dir, true, budget);
      if directory.Raised? {
        return Failed(directory.error);
      }
      match At(fs, directory.at).contents {
        case Data(bytes) =>
          return Failed(NotAList(bytes));
        case Children(kids) =>
          fs := WithKids(fs, directory.at, Dropping(kids, name) + [s.(name := name)]);
          return Done(true);
      }
    }

    method CopyFiles(sources: seq<string>, dest: string, recursive: bool, cwd: string) returns (r: Result)
      modifies this
      ensures (Snapshot(), r) == Copy(old(Snapshot()), sources, dest, recursive, home, cwd, budget)
    {
      hide GetFile, IsDir, Resolve, Dirname, Basename, RStrip, CopyOne;
      var resolved := ResolvePath(home, dest, cwd);
      if resolved.None? {
        return Failed(IndexError);
      }
      var d := resolved.value;
      var isdir := TestDir(d);
      if |sources| > 1 && !isdir {
        return Done(false);
      }
      if Slashed(dest) {
        var there := WalkFile(d, true, budget);
        if there.Raised? {
          return Failed(there.error);
        }
        if there.Missing? && !recursive {
          return Done(false);
        }
      }
      var dir, name := d, None;
      if !isdir {
        dir, name := Dirname(d), Some(Basename(RStrip(dest)));
        var parent := WalkFile(dir, true, budget);
        match parent {
          case Raised(error) => return Failed(error);
          case Missing => return Done(false);
          case Found(_) =>
        }
      }
      ghost var all := CopyAll(Snapshot(), sources, recursive, dir, name, home, cwd, budget);
      var rest := sources;
      while rest != []
        invariant CopyAll(Snapshot(), rest, recursive, dir, name, home, cwd, budget) == all
        decreases |rest|
      {
        var src := ResolvePath(home, rest[0], cwd);
        if src.None? {
          return Failed(IndexError);
        }
        var one := CopyEntry(src.value, recursive, dir, if name.Some? then name.value else Basename(rest[0]));
        if one.Failed? {
          return one;
        }
        rest := rest[1..];
      }
      return Done(true);
    }
  }
}
