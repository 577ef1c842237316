/** Whole runs of filesystem operations on trees without links. */
module FsRuns {
  import opened Sequences
  import opened Paths
  import opened FsTree
  import opened FsWalkers
  import opened FsAgreement
  import opened Filesystem
  import opened FsPaths
  import opened FsGraft
  import opened FsEffects
  import opened FsMoves

  datatype Op =
    | OpMkfile(path: string, uid: int, gid: int, size: int, mode: int, ctime: int)
    | OpMkdir(path: string, ctime: int)
    | OpRmdir(path: string)
    | OpRemove(path: string)
    | OpRename(path: string, newpath: string)
    | OpSize(path: string, size: int)
    | OpCopy(path: string, recursive: bool, dir: string, name: string)

  function Step(s: State, op: Op, budget: nat): State {
    match op
    case OpMkfile(path, uid, gid, size, mode, ctime) => Mkfile(s, path, uid, gid, size, mode, ctime, budget).0
    case OpMkdir(path, ctime) => Mkdir2(s, path, ctime, budget).0
    case OpRmdir(path) => Rmdir(s, path, budget).0
    case OpRemove(path) => Remove(s, path, budget).0
    case OpRename(path, newpath) => Rename(s, path, newpath, budget).0
    case OpSize(path, size) => UpdateSize(s, path, size, budget).0
    case OpCopy(path, recursive, dir, name) => CopyOne(s, path, recursive, dir, name, budget).0
  }

  function Run(s: State, ops: seq<Op>, budget: nat): State
    decreases |ops|
  {
    if ops == [] then s else Step(Run(s, Front(ops), budget), Last(ops), budget)
  }

  /** Paths without empty pieces where the operation would otherwise test one place and add to another.
      The paths that the shell resolves are of this kind. */
  predicate AddsWhereItLooks(op: Op) {
    match op
    case OpMkdir(path, _) => Proper(path)
    case OpRename(path, newpath) => Proper(path) && Proper(newpath)
    case _ => true
  }

  /** The same for the operations that look for one place and remove from or change another; only
      `remove` minds a slash at the end. */
  predicate WellSpelled(op: Op) {
    && AddsWhereItLooks(op)
    && (op.OpRemove? ==> Proper(op.path))
    && (op.OpRmdir? || op.OpSize? ==> Proper(RStrip(op.path)))
  }

  // ---------------------------------------------------------------- names stay distinct

  lemma PlainList(t: Entry, at: Position, kids: seq<Entry>, x: Entry)
    requires Plain(t) && Has(t, at) && kids == Kids(At(t, at)) && Plain(x)
    ensures Plain(WithKids(t, at, Dropping(kids, x.name) + [x]))
  {
    hide DistinctKids, NoLink, WithKids;
    KidsPlain(t, at);
    Refilled(kids, x);
    var rest := Dropping(kids, x.name);
    assert forall k: nat :: k < |rest| ==> Plain(rest[k]) by { DroppedPlain(kids, x.name); }
    var kids' := rest + [x];
    assert forall k: nat :: k < |kids'| ==> kids'[k] == if k < |rest| then rest[k] else x;
    hide Plain, Dropping;
    WithKidsPlain(t, at, kids');
  }

  lemma DroppedPlain(kids: seq<Entry>, name: string)
    requires forall k: nat :: k < |kids| ==> Plain(kids[k])
    ensures forall k: nat :: k < |Dropping(kids, name)| ==> Plain(Dropping(kids, name)[k])
  {
    hide Plain;
    if Named(kids, name).Some? {
      WithoutAt(kids, Named(kids, name).value);
    }
  }

  lemma MkfileKeepsPlain(s: State, path: string, uid: int, gid: int, size: int, mode: int, ctime: int, budget: nat)
    requires Plain(s.fs)
    ensures Plain(Mkfile(s, path, uid, gid, size, mode, ctime, budget).0.fs)
  {
    hide Plain, GetPath, Special, Dropping, Dirname, Basename;
    var x := NewEntry(Basename(path), File, uid, gid, size, mode, ctime);
    NewIsPlain(Basename(path), File, uid, gid, size, mode, ctime);
    var dir := GetPath(s.fs, Dirname(path), true, budget);
    if dir.Found? && At(s.fs, dir.at).contents.Children? {
      PlainList(s.fs, dir.at, Kids(At(s.fs, dir.at)), x);
    }
  }

  lemma MkdirKeepsPlain(s: State, path: string, ctime: int, budget: nat)
    requires Plain(s.fs) && Proper(path) && budget > 0
    ensures Plain(Mkdir2(s, path, ctime, budget).0.fs)
  {
    Mkdir2Effect(s, path, ctime, budget);
    hide Names, Mkdir2, Proper, Plain, Grafted, Grown, Lookup, IsList;
    if CanMkdir(s, Names(path)) {
      Resplit(Names(path));
      NewIsPlain(Last(Names(path)), Dir, 0, 0, 4096, 16877, ctime);
      GrownPlain(s.fs, Front(Names(path)), NewEntry(Last(Names(path)), Dir, 0, 0, 4096, 16877, ctime));
    }
  }

  lemma RmdirKeepsPlain(s: State, path: string, budget: nat)
    requires Plain(s.fs)
    ensures Plain(Rmdir(s, path, budget).0.fs)
  {
    hide Plain, GetPath, GetFile, RStrip, Dirname, Basename, Without;
    var parent := GetPath(s.fs, Dirname(RStrip(path)), true, budget);
    if parent.Found? && At(s.fs, parent.at).contents.Children? {
      var kids := Kids(At(s.fs, parent.at));
      var k := Named(kids, Basename(RStrip(path)));
      if k.Some? {
        ShorterPlain(s.fs, parent.at, kids, k.value);
      }
    }
  }

  lemma RemoveKeepsPlain(s: State, path: string, budget: nat)
    requires Plain(s.fs)
    ensures Plain(Remove(s, path, budget).0.fs)
  {
    hide Plain, GetPath, GetFile, Dirname, Without, IndexOf;
    var f, parent := GetFile(s.fs, path, false, budget), GetPath(s.fs, Dirname(path), true, budget);
    if f.Found? && parent.Found? && At(s.fs, parent.at).contents.Children? {
      var kids := Kids(At(s.fs, parent.at));
      var k := IndexOf(kids, At(s.fs, f.at));
      if k.Some? {
        ShorterPlain(s.fs, parent.at, kids, k.value);
      }
    }
  }

  lemma ShorterPlain(t: Entry, at: Position, kids: seq<Entry>, k: nat)
    requires Plain(t) && Has(t, at) && kids == Kids(At(t, at)) && k < |kids|
    ensures Plain(WithKids(t, at, Without(kids, k)))
  {
    KidsPlain(t, at);
    hide Plain, WithKids, Without;
    WithoutDistinct(kids, k);
    WithoutAt(kids, k);
    WithKidsPlain(t, at, Without(kids, k));
  }

  lemma SizeKeepsPlain(s: State, path: string, size: int, budget: nat)
    requires Plain(s.fs)
    ensures Plain(UpdateSize(s, path, size, budget).0.fs)
  {
    hide GetFile, Put;
    var f := GetFile(s.fs, path, true, budget);
    if f.Found? {
      var x := At(s.fs, f.at);
      PlaceIsPlain(s.fs, f.at);
      assert Kids(x.(size := size)) == Kids(x);
      PutPlain(s.fs, f.at, x.(size := size));
    }
  }

  lemma CopyKeepsPlain(s: State, src: string, recursive: bool, dir: string, name: string, budget: nat)
    requires Plain(s.fs)
    ensures Plain(CopyOne(s, src, recursive, dir, name, budget).0.fs)
  {
    hide Plain, GetPath, GetFile, Dropping, IsDir;
    var f, to := GetFile(s.fs, src, true, budget), GetPath(s.fs, dir, true, budget);
    if f.Found? && to.Found? && At(s.fs, to.at).contents.Children? {
      PlaceIsPlain(s.fs, f.at);
      RenamedPlain(At(s.fs, f.at), name);
      PlainList(s.fs, to.at, Kids(At(s.fs, to.at)), At(s.fs, f.at).(name := name));
    }
  }

  lemma {:induction false} CopyAllKeepsPlain(s: State, sources: seq<string>, recursive: bool, dir: string,
                                             name: Option<string>, home: string, cwd: string, budget: nat)
    requires Plain(s.fs)
    ensures Plain(CopyAll(s, sources, recursive, dir, name, home, cwd, budget).0.fs)
    decreases |sources|
  {
    hide Plain, CopyOne, Resolve;
    if sources != [] {
      var src := Resolve(home, sources[0], cwd);
      if src.Some? {
        var name' := if name.Some? then name.value else Basename(sources[0]);
        CopyKeepsPlain(s, src.value, recursive, dir, name', budget);
        var s' := CopyOne(s, src.value, recursive, dir, name', budget).0;
        CopyAllKeepsPlain(s', sources[1..], recursive, dir, name, home, cwd, budget);
      }
    }
  }

  /** Main result: the whole `cp` command, with any arguments, keeps sibling names distinct. */
  lemma CopyCommandKeepsPlain(s: State, sources: seq<string>, dest: string, recursive: bool, home: string,
        cwd: string, budget: nat)
    requires Plain(s.fs)
    ensures Plain(Copy(s, sources, dest, recursive, home, cwd, budget).0.fs)
  {
    hide Plain, CopyAll, Resolve, IsDir, GetFile, Dirname, Basename;
    var d := Resolve(home, dest, cwd);
    if d.Some? {
      CopyAllKeepsPlain(s, sources, recursive, d.value, None, home, cwd, budget);
      CopyAllKeepsPlain(s, sources, recursive, Dirname(d.value), Some(Basename(RStrip(dest))), home, cwd, budget);
    }
  }

  lemma StepKeepsPlain(s: State, op: Op, budget: nat)
    requires Plain(s.fs) && AddsWhereItLooks(op) && budget > 0
    ensures Plain(Step(s, op, budget).fs)
  {
    hide Plain, Proper, Mkfile, Mkdir2, Rmdir, Remove, Rename, UpdateSize, CopyOne;
    match op
    case OpMkfile(path, uid, gid, size, mode, ctime) => MkfileKeepsPlain(s, path, uid, gid, size, mode, ctime, budget);
    case OpMkdir(path, ctime) => MkdirKeepsPlain(s, path, ctime, budget);
    case OpRmdir(path) => RmdirKeepsPlain(s, path, budget);
    case OpRemove(path) => RemoveKeepsPlain(s, path, budget);
    case OpRename(path, newpath) => RenameKeepsPlain(s, path, newpath, budget);
    case OpSize(path, size) => SizeKeepsPlain(s, path, size, budget);
    case OpCopy(path, recursive, dir, name) => CopyKeepsPlain(s, path, recursive, dir, name, budget);
  }

  lemma StepCounts(s: State, op: Op, budget: nat)
    requires s.newcount <= MAX_NEW + 1
    ensures s.newcount <= Step(s, op, budget).newcount <= MAX_NEW + 1
  {
    hide GetFile, GetPath, WithKids, Detached, Put, IsDir, Dropping, Basename, Dirname;
  }

  /** Main result: over every run of the operations, removals and copies with any paths, no directory
      ever lists a name twice, no link appears, and no more than 10001 entries are made. */
  lemma {:induction false} RunKeepsPlain(s: State, ops: seq<Op>, budget: nat)
    requires Plain(s.fs) && s.newcount <= MAX_NEW + 1 && budget > 0
    requires forall op :: op in ops ==> AddsWhereItLooks(op)
    ensures Plain(Run(s, ops, budget).fs) && s.newcount <= Run(s, ops, budget).newcount <= MAX_NEW + 1
    decreases |ops|
  {
    hide Plain, Step, AddsWhereItLooks;
    if ops != [] {
      RunKeepsPlain(s, Front(ops), budget);
      assert Last(ops) in ops;
      StepKeepsPlain(Run(s, Front(ops), budget), Last(ops), budget);
      StepCounts(Run(s, Front(ops), budget), Last(ops), budget);
    }
  }

  // ---------------------------------------------------------------- untouched paths

  /** The places an operation changes. */
  function Touched(op: Op): seq<seq<string>> {
    match op
    case OpMkfile(path, _, _, _, _, _) => [Names(Dirname(path)) + [Basename(path)]]
    case OpRename(path, newpath) => [Names(path), Names(newpath)]
    case OpCopy(_, _, dir, name) => [Names(dir) + [name]]
    case _ => [Names(op.path)]
  }

  predicate Apart(q: seq<string>, names: seq<string>) {
    !(names <= q) && !(q <= names)
  }

  predicate Untouched(q: seq<string>, op: Op) {
    forall k :: 0 <= k < |Touched(op)| ==> Apart(q, Touched(op)[k])
  }

  lemma GraftApart(t: Entry, t': Entry, names: seq<string>, x: Option<Entry>, q: seq<string>)
    requires Grafted(t, t', names, x) && Apart(q, names)
    ensures Lookup(t', q) == Lookup(t, q)
  {
    assert GraftedAt(t, t', names, x, q);
  }

  lemma TakenApart(t: Entry, t': Entry, names: seq<string>, q: seq<string>)
    requires TakenOut(t, t', names) && Apart(q, names)
    ensures Lookup(t', q) == Lookup(t, q)
  {
    GraftApart(t, t', names, None, q);
  }

  lemma MovedApart(t: Entry, t': Entry, a: seq<string>, b: seq<string>, q: seq<string>)
    requires b != [] && Lookup(t, a).Some? && Moved(t, t', a, b) && Apart(q, a) && Apart(q, b)
    ensures Lookup(t', q) == Lookup(t, q)
  {
    assert MovedAt(t, t', a, b, q);
  }

  lemma RenameApart(s: State, path: string, newpath: string, budget: nat, q: seq<string>)
    requires Plain(s.fs) && Proper(path) && Proper(newpath) && budget > 0
    requires Apart(q, Names(path)) && Apart(q, Names(newpath))
    ensures Lookup(Rename(s, path, newpath, budget).0.fs, q) == Lookup(s.fs, q)
  {
    RenameEffect(s, path, newpath, budget);
    hide Plain, Proper, Rename, TakenOut, Moved, Lookup, HasRoom, BelowBytes, Apart;
    var a, b, t' := Names(path), Names(newpath), Rename(s, path, newpath, budget).0.fs;
    if Movable(s.fs, a, b) {
      if HasRoom(s.fs, a, b) {
        MovedApart(s.fs, t', a, b, q);
      } else {
        TakenApart(s.fs, t', a, q);
      }
    }
  }

  lemma StepApart(s: State, op: Op, budget: nat, q: seq<string>)
    requires Plain(s.fs) && WellSpelled(op) && budget > 0 && Untouched(q, op)
    ensures Lookup(Step(s, op, budget).fs, q) == Lookup(s.fs, q)
  {
    assert Apart(q, Touched(op)[0]);
    hide Plain, Proper, Mkfile, Mkdir2, Rmdir, Remove, Rename, UpdateSize, CopyOne, Grafted, TakenOut, Lookup,
        Apart, Names, Dirname, Basename;
    var t' := Step(s, op, budget).fs;
    match op
    case OpMkfile(path, uid, gid, size, mode, ctime) =>
      MkfileEffect(s, path, uid, gid, size, mode, ctime, budget);
      if t' != s.fs {
        GraftApart(s.fs, t', Touched(op)[0], Some(NewEntry(Basename(path), File, uid, gid, size, mode, ctime)), q);
      }
    case OpMkdir(path, ctime) =>
      Mkdir2Effect(s, path, ctime, budget);
      if t' != s.fs {
        GraftApart(s.fs, t', Names(path), Some(NewEntry(Last(Names(path)), Dir, 0, 0, 4096, 16877, ctime)), q);
      }
    case OpRmdir(path) =>
      ClearWhenPlain(s.fs, Names(path));
      RmdirEffect(s, path, budget);
      if t' != s.fs {
        TakenApart(s.fs, t', Names(path), q);
      }
    case OpRemove(path) =>
      ClearWhenPlain(s.fs, Names(path));
      RemoveEffect(s, path, budget);
      if t' != s.fs {
        TakenApart(s.fs, t', Names(path), q);
      }
    case OpRename(path, newpath) =>
      assert Apart(q, Touched(op)[1]);
      RenameApart(s, path, newpath, budget, q);
    case OpSize(path, size) =>
      SizeEffect(s, path, size, budget);
      if t' != s.fs {
        GraftApart(s.fs, t', Names(path), Some(Lookup(s.fs, Names(path)).value.(size := size)), q);
      }
    case OpCopy(path, recursive, dir, name) =>
      CopyEffect(s, path, recursive, dir, name, budget);
      if t' != s.fs {
        GraftApart(s.fs, t', Names(dir) + [name], Some(Lookup(s.fs, Sought(path)).value.(name := name)), q);
      }
  }

  /** Main result: a path apart from every place a run touches shows at the end what it showed at the start. */
  lemma {:induction false} RunFrame(s: State, ops: seq<Op>, budget: nat, q: seq<string>)
    requires Plain(s.fs) && s.newcount <= MAX_NEW + 1 && budget > 0
    requires forall op :: op in ops ==> WellSpelled(op) && Untouched(q, op)
    ensures Lookup(Run(s, ops, budget).fs, q) == Lookup(s.fs, q)
    decreases |ops|
  {
    hide Plain, Step, Untouched, Lookup, AddsWhereItLooks;
    if ops != [] {
      RunFrame(s, Front(ops), budget, q);
      RunKeepsPlain(s, Front(ops), budget);
      assert Last(ops) in ops;
      StepApart(Run(s, Front(ops), budget), Last(ops), budget, q);
    }
  }
}
