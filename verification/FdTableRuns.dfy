/** What the descriptor table means, and what a command's output amounts to. */
module FdTableRuns {
  import opened Bytes
  import opened Sequences
  import opened RedirectionParser
  import opened FdTable

  predicate Assigns(op: Redirection, fd: nat) {
    op.fd == fd
  }

  /** A descriptor keeps its target as long as no redirection is for it. */
  lemma {:induction false} TargetKept(w: World, s: State, ops: seq<Redirection>, fd: nat)
    requires forall op :: op in ops ==> !Assigns(op, fd)
    ensures fd in ApplyAll(w, s, ops).targets <==> fd in s.targets
    ensures fd in s.targets ==> ApplyAll(w, s, ops).targets[fd] == s.targets[fd]
    decreases |ops|
  {
    hide Prepare;
    if ops != [] {
      if Last(ops).ToFile? {
        PrepareKeepsTable(w, ApplyAll(w, s, Front(ops)), w.resolve(Last(ops).target), Last(ops).append);
      }
      TargetKept(w, s, Front(ops), fd);
      assert Last(ops) in ops;
    }
  }

  lemma PrepareKeepsTable(w: World, s: State, path: string, append: bool)
    ensures var s' := Prepare(w, s, path, append).0;
            && s'.targets == s.targets && s'.counters == s.counters
            && s'.input == s.input && s'.stdinTarget == s.stdinTarget
  {
    hide NeedsNewBacking;
  }

  lemma {:induction false} ApplyAllConcat(w: World, s: State, a: seq<Redirection>, b: seq<Redirection>)
    ensures ApplyAll(w, s, a + b) == ApplyAll(w, ApplyAll(w, s, a), b)
    decreases |b|
  {
    if b == [] {
      assert a + b == a;
    } else {
      assert Front(a + b) == a + Front(b) && Last(a + b) == Last(b);
      ApplyAllConcat(w, s, a, Front(b));
    }
  }

  /** Reading the input touches neither the table nor the files. */
  lemma LoadKeepsFiles(w: World, s: State)
    ensures var s' := LoadInput(w, s);
            && s'.targets == s.targets && s'.counters == s.counters
            && s'.files == s.files && s'.backing == s.backing && s'.next == s.next
  {
    hide ReadFile, Loaded;
    if s.stdinTarget.Some? {
      LoadedKeepsFiles(s, ReadFile(w, s, w.resolve(s.stdinTarget.value)));
    }
  }

  lemma LoadedKeepsFiles(s: State, read: ReadOutcome)
    ensures var s' := Loaded(s, read);
            && s'.targets == s.targets && s'.counters == s.counters
            && s'.files == s.files && s'.backing == s.backing && s'.next == s.next
  {
  }

  /** Main result: a duplicated descriptor gets the target its source has at that moment, and nothing
      done later to the source changes it. */
  lemma DupIsByValue(w: World, s: State, before: seq<Redirection>, fd: nat, source: nat, after: seq<Redirection>)
    requires source in Setup(w, s, before).targets
    requires forall op :: op in after ==> !Assigns(op, fd)
    ensures var targets := Setup(w, s, before + [Dup(fd, source)] + after).targets;
            fd in targets && targets[fd] == Setup(w, s, before).targets[source]
  {
    LoadKeepsFiles(w, Redirected(w, s, before));
    LoadKeepsFiles(w, Redirected(w, s, before + [Dup(fd, source)] + after));
    hide LoadInput;
    var s0 := Initial(w, s);
    ApplyAllConcat(w, s0, before + [Dup(fd, source)], after);
    ApplyAllConcat(w, s0, before, [Dup(fd, source)]);
    var middle := ApplyAll(w, s0, before);
    ApplyOne(w, middle, Dup(fd, source));
    TargetKept(w, Apply(w, middle, Dup(fd, source)), after, fd);
  }

  lemma ApplyOne(w: World, s: State, op: Redirection)
    ensures ApplyAll(w, s, [op]) == Apply(w, s, op)
  {
    assert Front([op]) == [];
  }

  // ---------------------------------------------------------------- routing

  predicate Outputs(outs: seq<Output>) {
    forall o :: o in outs ==> o.fd == 1 || o.fd == 2
  }

  /** The state after writing all of `outs`. */
  function EmitAll(s: State, outs: seq<Output>): (s': State)
    requires Ready(s) && Outputs(outs)
    ensures Ready(s') && s'.targets == s.targets && s'.backing.Keys == s.backing.Keys
    decreases |outs|
  {
    if outs == [] then s
    else
      assert Last(outs) in outs;
      var before := EmitAll(s, Front(outs));
      EmitKeepsTable(before, Last(outs));
      Emit(before, Last(outs))
  }

  lemma EmitKeepsTable(s: State, out: Output)
    requires Ready(s) && (out.fd == 1 || out.fd == 2)
    ensures var s' := Emit(s, out); Ready(s') && s'.targets == s.targets && s'.backing.Keys == s.backing.Keys
  {
  }

  /** Where output can end up. */
  datatype Sink = ToTerminal | ToPipe | ToCapture | ToBacking(file: nat) | Nowhere

  /** The one sink of a descriptor. */
  function SinkOf(s: State, fd: nat): Sink {
    if fd !in s.targets then Nowhere
    else match s.targets[fd]
      case Terminal => ToTerminal
      case Pipe => ToPipe
      case Capture => ToCapture
      case File(info) => ToBacking(info.disk)
      case _ => Nowhere
  }

  function Content(s: State, sink: Sink): seq<Byte> {
    match sink
    case ToTerminal => s.terminal
    case ToPipe => s.pipe
    case ToCapture => s.capture
    case ToBacking(file) => if file in s.backing then s.backing[file] else []
    case Nowhere => []
  }

  /** The data of those writes whose descriptor leads to `sink`, in order. */
  function RoutedTo(s: State, outs: seq<Output>, sink: Sink): seq<Byte>
    decreases |outs|
  {
    if outs == [] then []
    else RoutedTo(s, Front(outs), sink) + if SinkOf(s, Last(outs).fd) == sink then Last(outs).data else []
  }

  /** Main result: after any writes, every sink holds what it held before and then exactly the data
      routed to it, in order. So each byte reaches the one sink of its descriptor, and no other. */
  lemma {:induction false} EverySinkGetsItsOutput(s: State, outs: seq<Output>, sink: Sink)
    requires Ready(s) && Outputs(outs) && sink != Nowhere
    requires sink.ToBacking? ==> sink.file in s.backing
    ensures Content(EmitAll(s, outs), sink) == Content(s, sink) + RoutedTo(s, outs, sink)
    decreases |outs|
  {
    hide Emit, Content, Ready;
    if outs == [] {
      assert Content(s, sink) + [] == Content(s, sink);
    } else {
      var before, out := EmitAll(s, Front(outs)), Last(outs);
      assert out in outs;
      EverySinkGetsItsOutput(s, Front(outs), sink);
      OneWrite(before, out, sink);
      assert SinkOf(before, out.fd) == SinkOf(s, out.fd);
      var more := if SinkOf(s, out.fd) == sink then out.data else [];
      assert Content(s, sink) + RoutedTo(s, Front(outs), sink) + more
          == Content(s, sink) + (RoutedTo(s, Front(outs), sink) + more);
    }
  }

  lemma OneWrite(s: State, out: Output, sink: Sink)
    requires Ready(s) && (out.fd == 1 || out.fd == 2) && sink != Nowhere
    requires sink.ToBacking? ==> sink.file in s.backing
    ensures Content(Emit(s, out), sink) == Content(s, sink) + if SinkOf(s, out.fd) == sink then out.data else []
  {
    assert Content(s, sink) + [] == Content(s, sink);
  }

  // ---------------------------------------------------------------- sizes

  /** Only `fd` writes to this file. */
  predicate SoleWriter(s: State, fd: nat, info: FileInfo) {
    && (fd == 1 || fd == 2) && fd in s.targets && s.targets[fd] == File(info)
    && info.virtual in s.files && info.disk in s.backing
    && var other := 3 - fd;
       other in s.targets && s.targets[other].File? ==>
         s.targets[other].info.virtual != info.virtual && s.targets[other].info.disk != info.disk
  }

  predicate SizeRight(s: State, info: FileInfo) {
    info.virtual in s.files && info.disk in s.backing && s.files[info.virtual].size == |s.backing[info.disk]|
  }

  predicate CounterRight(s: State, fd: nat, info: FileInfo) {
    fd in s.counters && info.disk in s.backing && s.counters[fd] == |s.backing[info.disk]|
  }

  predicate WritesTo(outs: seq<Output>, fd: nat) {
    exists o :: o in outs && o.fd == fd
  }

  lemma EmitSizes(s: State, out: Output, fd: nat, info: FileInfo)
    requires Ready(s) && (out.fd == 1 || out.fd == 2) && SoleWriter(s, fd, info)
    ensures SoleWriter(Emit(s, out), fd, info)
    ensures CounterRight(Emit(s, out), fd, info) <==> CounterRight(s, fd, info)
    ensures out.fd != fd ==> (SizeRight(Emit(s, out), info) <==> SizeRight(s, info))
    ensures out.fd == fd ==> (SizeRight(Emit(s, out), info) <==> CounterRight(s, fd, info))
  {
  }

  /** Main result: with one descriptor writing to it, a file's size is right after any writes exactly
      when its counter starts at the length of the backing file or, if that descriptor is not used,
      when it was right before. */
  lemma {:induction false} SizeStaysRightExactly(s: State, outs: seq<Output>, fd: nat, info: FileInfo)
    requires Ready(s) && Outputs(outs) && SoleWriter(s, fd, info)
    ensures SoleWriter(EmitAll(s, outs), fd, info)
    ensures CounterRight(EmitAll(s, outs), fd, info) <==> CounterRight(s, fd, info)
    ensures SizeRight(EmitAll(s, outs), info)
            <==> if WritesTo(outs, fd) then CounterRight(s, fd, info) else SizeRight(s, info)
    decreases |outs|
  {
    if outs != [] {
      var out := Last(outs);
      assert out in outs;
      SizeStaysRightExactly(s, Front(outs), fd, info);
      EmitSizes(EmitAll(s, Front(outs)), out, fd, info);
      assert WritesTo(outs, fd) <==> WritesTo(Front(outs), fd) || out.fd == fd by {
        assert forall o :: o in outs <==> o in Front(outs) || o == out;
      }
    }
  }

  // ---------------------------------------------------------------- backing files

  /** The backing file of a virtual file, when it may be written in place. */
  function OwnBacking(w: World, s: State, path: string): (n: Option<nat>)
    ensures n.Some? ==> path in s.files
  {
    if NeedsNewBacking(w, s, path) then None else s.files[path].disk
  }

  predicate HasBacking(w: World, s: State, path: string) {
    OwnBacking(w, s, path).Some? ==> OwnBacking(w, s, path).value in s.backing
  }

  predicate Unshared(w: World, s: State, p: string, q: string) {
    OwnBacking(w, s, p).Some? && OwnBacking(w, s, p) == OwnBacking(w, s, q) ==> p == q
  }

  /** Backing files that are written in place exist, none is shared, and the next number is unused. */
  ghost predicate Backed(w: World, s: State) {
    && (forall n :: n in s.backing ==> n < s.next)
    && (forall n :: n in w.honeyfs ==> n < s.next)
    && (forall p :: HasBacking(w, s, p))
    && (forall p, q :: Unshared(w, s, p, q))
  }

  /** Every target file is the current backing of its virtual file. */
  predicate Linked(w: World, s: State) {
    forall fd :: fd in s.targets && s.targets[fd].File? ==>
      OwnBacking(w, s, s.targets[fd].info.virtual) == Some(s.targets[fd].info.disk)
  }

  ghost predicate Sound(w: World, s: State) {
    Backed(w, s) && Linked(w, s) && 1 in s.counters && 2 in s.counters
  }

  function WithNew(s: State, path: string): State {
    s.(files := s.files[path := VFile(0, Some(s.next))], backing := s.backing[s.next := []], next := s.next + 1)
  }

  lemma CreatedOwns(w: World, s: State, path: string, p: string)
    requires Backed(w, s)
    ensures OwnBacking(w, WithNew(s, path), p) == if p == path then Some(s.next) else OwnBacking(w, s, p)
  {
  }

  lemma CreatedBacked(w: World, s: State, path: string)
    requires Backed(w, s) && NeedsNewBacking(w, s, path)
    ensures Backed(w, WithNew(s, path)) && OwnBacking(w, WithNew(s, path), path) == Some(s.next)
    ensures forall p :: OwnBacking(w, s, p).Some? ==> OwnBacking(w, WithNew(s, path), p) == OwnBacking(w, s, p)
  {
    var s' := WithNew(s, path);
    hide NeedsNewBacking;
    forall p
      ensures OwnBacking(w, s', p) == (if p == path then Some(s.next) else OwnBacking(w, s, p)) && HasBacking(w, s, p)
    {
      CreatedOwns(w, s, path, p);
    }
    assert OwnBacking(w, s, path).None? by { NothingToOwn(w, s, path); }
    hide OwnBacking;
    forall p, q
      ensures Unshared(w, s', p, q)
    {
      assert Unshared(w, s, p, q) && HasBacking(w, s, p) && HasBacking(w, s, q);
    }
  }

  lemma NothingToOwn(w: World, s: State, path: string)
    requires NeedsNewBacking(w, s, path)
    ensures OwnBacking(w, s, path).None?
  {
  }

  /** Sizes, contents, targets and counters do not matter. */
  lemma SameBacked(w: World, s: State, s': State)
    requires Backed(w, s) && s'.next == s.next && s'.backing.Keys == s.backing.Keys
    requires s'.files.Keys == s.files.Keys && forall p :: p in s.files ==> s'.files[p].disk == s.files[p].disk
    ensures Backed(w, s') && forall p :: OwnBacking(w, s', p) == OwnBacking(w, s, p)
  {
    forall p
      ensures OwnBacking(w, s', p) == OwnBacking(w, s, p) && HasBacking(w, s, p)
    {
      assert p in s'.files <==> p in s.files;
    }
    hide OwnBacking;
    forall p, q
      ensures Unshared(w, s', p, q)
    {
      assert Unshared(w, s, p, q);
    }
  }

  /** A size the counter must not start from: that of a file whose backing is replaced. */
  predicate StaleSize(w: World, s: State, path: string, append: bool) {
    append && NeedsNewBacking(w, s, path) && path in s.files && s.files[path].size != 0
  }

  /** Appending to a backing of its own goes on from the size the file has, right or wrong. */
  predicate KeepsOldSize(w: World, s: State, path: string, append: bool) {
    append && OwnBacking(w, s, path).Some?
  }

  predicate OldSizeRight(w: World, s: State, path: string) {
    OwnBacking(w, s, path).Some? && SizeRight(s, FileInfo(path, OwnBacking(w, s, path).value))
  }

  /** What `_prepare_output_file` hands out: the file, its size and the start of the counter. */
  ghost predicate Prepared(w: World, s: State, path: string, append: bool, s': State, info: FileInfo, start: int) {
    && info.virtual == path && OwnBacking(w, s', path) == Some(info.disk) && info.disk in s'.backing
    && (if KeepsOldSize(w, s, path, append) then
          (start == |s'.backing[info.disk]| <==> OldSizeRight(w, s, path))
          && (SizeRight(s', info) <==> OldSizeRight(w, s, path))
        else (start == |s'.backing[info.disk]| <==> !StaleSize(w, s, path, append)) && SizeRight(s', info))
    && (KeepsOldSize(w, s, path, append) ==>
          OwnBacking(w, s, path).value in s.backing
          && s'.backing[info.disk] == s.backing[OwnBacking(w, s, path).value])
    && (!KeepsOldSize(w, s, path, append) ==> s'.backing[info.disk] == [])
  }

  lemma CreatedPrepared(w: World, s: State, path: string, append: bool)
    requires Backed(w, s) && Linked(w, s) && NeedsNewBacking(w, s, path) && w.mkfile(path) == Created
    ensures var (s', file) := Prepare(w, s, path, append);
            && s' == WithNew(s, path) && Backed(w, s') && Linked(w, s')
            && file.Some? && Prepared(w, s, path, append, s', file.value.0, file.value.1)
  {
    CreatedBacked(w, s, path);
    hide Backed;
  }

  lemma TruncatedPrepared(w: World, s: State, path: string)
    requires Backed(w, s) && Linked(w, s) && !NeedsNewBacking(w, s, path) && w.truncates(s.files[path].disk.value)
    ensures var (s', file) := Prepare(w, s, path, false);
            && Backed(w, s') && Linked(w, s')
            && file.Some? && Prepared(w, s, path, false, s', file.value.0, file.value.1)
  {
    var s' := Prepare(w, s, path, false).0;
    assert HasBacking(w, s, path);
    assert s'.backing.Keys == s.backing.Keys && s'.files.Keys == s.files.Keys;
    SameBacked(w, s, s');
    hide Backed;
  }

  lemma AppendPrepared(w: World, s: State, path: string)
    requires Backed(w, s) && Linked(w, s) && !NeedsNewBacking(w, s, path)
    ensures var (s', file) := Prepare(w, s, path, true);
            s' == s && file.Some? && Prepared(w, s, path, true, s', file.value.0, file.value.1)
  {
    assert HasBacking(w, s, path);
    hide Backed;
  }

  lemma PrepareBacked(w: World, s: State, path: string, append: bool)
    requires Backed(w, s) && Linked(w, s)
    ensures var (s', file) := Prepare(w, s, path, append);
            && Backed(w, s') && Linked(w, s') && s'.targets == s.targets && s'.counters == s.counters
            && (file.Some? ==> Prepared(w, s, path, append, s', file.value.0, file.value.1))
  {
    if NeedsNewBacking(w, s, path) {
      if w.mkfile(path) == Created {
        CreatedPrepared(w, s, path, append);
      } else {
        SameBacked(w, s, s.(error := true));
      }
    } else if append {
      AppendPrepared(w, s, path);
    } else if w.truncates(s.files[path].disk.value) {
      TruncatedPrepared(w, s, path);
    }
    hide Backed, Prepared, OwnBacking;
  }

  lemma SetFileBacked(w: World, s: State, fd: nat, info: FileInfo, start: int)
    requires Backed(w, s) && Linked(w, s) && OwnBacking(w, s, info.virtual) == Some(info.disk)
    ensures Backed(w, SetFile(s, fd, info, start)) && Linked(w, SetFile(s, fd, info, start))
  {
    SameBacked(w, s, SetFile(s, fd, info, start));
    hide Backed;
  }

  lemma ApplySound(w: World, s: State, op: Redirection)
    requires Sound(w, s)
    ensures Sound(w, Apply(w, s, op))
  {
    hide Prepare, Backed;
    if op.ToFile? && w.resolve(op.target) != "/dev/null" {
      var path := w.resolve(op.target);
      PrepareBacked(w, s, path, op.append);
      var (s', file) := Prepare(w, s, path, op.append);
      if file.Some? {
        SetFileBacked(w, s', op.fd, file.value.0, file.value.1);
      }
    } else {
      SameBacked(w, s, Apply(w, s, op));
    }
  }

  lemma {:induction false} ApplyAllSound(w: World, s: State, ops: seq<Redirection>)
    requires Sound(w, s)
    ensures Sound(w, ApplyAll(w, s, ops)) && Ready(ApplyAll(w, s, ops))
    decreases |ops|
  {
    hide Apply, Sound;
    if ops != [] {
      ApplyAllSound(w, s, Front(ops));
      ApplySound(w, ApplyAll(w, s, Front(ops)), Last(ops));
    }
    SoundIsReady(w, ApplyAll(w, s, ops));
  }

  lemma SoundIsReady(w: World, s: State)
    requires Sound(w, s)
    ensures Ready(s)
  {
    forall fd | fd in s.targets && s.targets[fd].File?
      ensures s.targets[fd].info.disk in s.backing
    {
      assert HasBacking(w, s, s.targets[fd].info.virtual);
    }
  }

  lemma InitialSound(w: World, s: State)
    requires Backed(w, s)
    ensures Sound(w, Initial(w, s))
  {
    SameBacked(w, s, Initial(w, s));
    hide Backed;
  }

  /** After set-up every descriptor's file has a backing that is there, so every write has its place. */
  lemma SetupIsReady(w: World, s: State, ops: seq<Redirection>)
    requires Backed(w, s)
    ensures Ready(Setup(w, s, ops)) && Backed(w, Setup(w, s, ops))
  {
    hide Backed, Ready;
    InitialSound(w, s);
    ApplyAllSound(w, Initial(w, s), ops);
    LoadBacked(w, Redirected(w, s, ops));
    hide LoadInput, Sound;
  }

  lemma LoadBacked(w: World, s: State)
    requires Sound(w, s) && Ready(s)
    ensures Sound(w, LoadInput(w, s)) && Ready(LoadInput(w, s))
  {
    LoadKeepsFiles(w, s);
    SameBacked(w, s, LoadInput(w, s));
    hide Backed, LoadInput;
  }

  // ---------------------------------------------------------------- one command after another

  lemma EmitBacked(w: World, s: State, out: Output)
    requires Backed(w, s) && Ready(s) && (out.fd == 1 || out.fd == 2)
    ensures Backed(w, Emit(s, out))
  {
    EmitKeepsTable(s, out);
    SameBacked(w, s, Emit(s, out));
    hide Backed;
  }

  lemma {:induction false} EmitAllBacked(w: World, s: State, outs: seq<Output>)
    requires Backed(w, s) && Ready(s) && Outputs(outs)
    ensures Backed(w, EmitAll(s, outs))
    decreases |outs|
  {
    hide Backed, Emit, Ready;
    if outs != [] {
      assert Last(outs) in outs;
      EmitAllBacked(w, s, Front(outs));
      EmitBacked(w, EmitAll(s, Front(outs)), Last(outs));
    }
  }

  lemma SameHoneyfs(w: World, w': World, s: State)
    requires Backed(w, s) && w'.honeyfs == w.honeyfs
    ensures Backed(w', s)
  {
    forall p
      ensures OwnBacking(w', s, p) == OwnBacking(w, s, p) && HasBacking(w, s, p)
    {
    }
    hide OwnBacking;
    forall p, q
      ensures Unshared(w', s, p, q)
    {
      assert Unshared(w, s, p, q);
    }
  }

  /** A command: its surroundings, its redirections and what it writes. */
  datatype Command = Command(world: World, redirections: seq<Redirection>, outs: seq<Output>)

  ghost predicate Runs(w: World, commands: seq<Command>) {
    forall c :: c in commands ==> c.world.honeyfs == w.honeyfs && Outputs(c.outs)
  }

  /** Main result: whatever commands run one after the other, each finds the backing files in order, so
      what is said of one command holds of every command of a session. */
  ghost function Session(w: World, s: State, commands: seq<Command>): (s': State)
    requires Backed(w, s) && Runs(w, commands)
    ensures Backed(w, s')
    decreases |commands|
  {
    if commands == [] then s
    else
      var before, c := Session(w, s, Front(commands)), Last(commands);
      assert c in commands;
      SameHoneyfs(w, c.world, before);
      SetupIsReady(c.world, before, c.redirections);
      EmitAllBacked(c.world, Setup(c.world, before, c.redirections), c.outs);
      SameHoneyfs(c.world, w, EmitAll(Setup(c.world, before, c.redirections), c.outs));
      EmitAll(Setup(c.world, before, c.redirections), c.outs)
  }

  // ---------------------------------------------------------------- a descriptor's own redirection

  predicate Opens(w: World, op: Redirection, path: string) {
    op.ToFile? && w.resolve(op.target) == path
  }

  /** The descriptor, its counter and its file are in `s'` what they are in `s`. */
  predicate SameFile(s: State, s': State, fd: nat, info: FileInfo) {
    && fd in s.targets && fd in s'.targets && s.targets[fd] == File(info) == s'.targets[fd]
    && fd in s.counters && fd in s'.counters && s'.counters[fd] == s.counters[fd]
    && info.virtual in s.files && info.virtual in s'.files && s'.files[info.virtual] == s.files[info.virtual]
    && info.disk in s.backing && info.disk in s'.backing && s'.backing[info.disk] == s.backing[info.disk]
  }

  lemma PrepareElsewhere(w: World, s: State, path: string, append: bool, info: FileInfo)
    requires Backed(w, s) && OwnBacking(w, s, info.virtual) == Some(info.disk) && path != info.virtual
    ensures var s' := Prepare(w, s, path, append).0;
            && info.virtual in s.files && info.virtual in s'.files && s'.files[info.virtual] == s.files[info.virtual]
            && info.disk in s.backing && info.disk in s'.backing && s'.backing[info.disk] == s.backing[info.disk]
  {
    assert HasBacking(w, s, info.virtual) && Unshared(w, s, info.virtual, path);
  }

  lemma ApplyElsewhere(w: World, s: State, op: Redirection, fd: nat, info: FileInfo)
    requires Sound(w, s) && (fd == 1 || fd == 2) && fd in s.targets && s.targets[fd] == File(info)
    requires !Assigns(op, fd) && !Opens(w, op, info.virtual)
    ensures SameFile(s, Apply(w, s, op), fd, info)
  {
    assert SameFile(s, s, fd, info) by {
      BackedMeans(w, s, info.virtual);
      hide Backed;
    }
    if op.ToFile? {
      var path := w.resolve(op.target);
      PrepareSame(w, s, path, op.append, fd, info);
      var (s', file) := Prepare(w, s, path, op.append);
      hide Prepare, SameFile, Sound;
      if path != "/dev/null" && file.Some? {
        OtherFile(s, s', op.fd, file.value.0, file.value.1, fd, info);
      }
    }
    hide Sound, Prepare;
  }

  lemma PrepareSame(w: World, s: State, path: string, append: bool, fd: nat, info: FileInfo)
    requires Sound(w, s) && SameFile(s, s, fd, info) && path != info.virtual
    ensures SameFile(s, Prepare(w, s, path, append).0, fd, info)
  {
    hide Prepare, Backed;
    PrepareElsewhere(w, s, path, append, info);
    PrepareKeepsTable(w, s, path, append);
  }

  lemma OtherFile(s: State, s': State, k: nat, other: FileInfo, start: int, fd: nat, info: FileInfo)
    requires SameFile(s, s', fd, info) && k != fd
    ensures SameFile(s, SetFile(s', k, other, start), fd, info)
  {
  }

  lemma BackedMeans(w: World, s: State, path: string)
    requires Backed(w, s)
    ensures HasBacking(w, s, path)
  {
  }

  lemma {:induction false} ApplyAllElsewhere(w: World, s: State, ops: seq<Redirection>, fd: nat, info: FileInfo)
    requires Sound(w, s) && (fd == 1 || fd == 2) && fd in s.targets && s.targets[fd] == File(info)
    requires forall op :: op in ops ==> !Assigns(op, fd) && !Opens(w, op, info.virtual)
    ensures SameFile(s, ApplyAll(w, s, ops), fd, info)
    decreases |ops|
  {
    hide Apply, Opens, Assigns;
    if ops == [] {
      SoundIsReady(w, s);
    } else {
      ApplyAllElsewhere(w, s, Front(ops), fd, info);
      ApplyAllSound(w, s, Front(ops));
      assert Last(ops) in ops;
      hide Sound;
      ApplyElsewhere(w, ApplyAll(w, s, Front(ops)), Last(ops), fd, info);
    }
  }

  /** Opening a file for `fd`. */
  lemma Opening(w: World, s: State, fd: nat, target: string, append: bool)
    requires Sound(w, s) && (fd == 1 || fd == 2) && w.resolve(target) != "/dev/null"
    requires Prepare(w, s, w.resolve(target), append).1.Some?
    ensures var s', info := Apply(w, s, ToFile(fd, target, append)), Prepare(w, s, w.resolve(target), append).1.value.0;
            && Sound(w, s') && fd in s'.targets && s'.targets[fd] == File(info)
            && Prepared(w, s, w.resolve(target), append, s', info, s'.counters[fd])
  {
    var op, path := ToFile(fd, target, append), w.resolve(target);
    ApplySound(w, s, op);
    PrepareBacked(w, s, path, append);
    hide Prepare, Backed;
  }

  /** The size of the file is right after the command's output. */
  predicate EndsRight(w: World, s: State, path: string, append: bool, used: bool) {
    if KeepsOldSize(w, s, path, append) then OldSizeRight(w, s, path) else !used || !StaleSize(w, s, path, append)
  }

  /** Main result: a descriptor redirected to a file by its own `>` or `>>`, where no later redirection
      is for that descriptor or that file and the other descriptor does not write there. After any
      output the file's size is the length of its backing file exactly as follows: after `>` always;
      after `>>` to a backing of its own, if it was before; after `>>` to a file without one, if
      nothing is written or the file had size 0. */
  lemma OwnRedirectionSizeExactly(w: World, s: State, before: seq<Redirection>, fd: nat, target: string, append: bool,
                                  after: seq<Redirection>, outs: seq<Output>)
    requires Backed(w, s) && (fd == 1 || fd == 2) && w.resolve(target) != "/dev/null" && Outputs(outs)
    requires Prepare(w, Redirected(w, s, before), w.resolve(target), append).1.Some?
    requires forall op :: op in after ==> !Assigns(op, fd) && !Opens(w, op, w.resolve(target))
    ensures var m, s' := Redirected(w, s, before), Setup(w, s, before + [ToFile(fd, target, append)] + after);
            && Ready(s') && fd in s'.targets && s'.targets[fd].File? && s'.targets[fd].info.virtual == w.resolve(target)
            && (SoleWriter(s', fd, s'.targets[fd].info) ==>
                  (SizeRight(EmitAll(s', outs), s'.targets[fd].info)
                   <==> EndsRight(w, m, w.resolve(target), append, WritesTo(outs, fd))))
  {
    hide Backed, Ready, Apply, Prepare, Opens, Assigns, Sound, Prepared, SoleWriter;
    var s0, op, path := Initial(w, s), ToFile(fd, target, append), w.resolve(target);
    InitialSound(w, s);
    ApplyAllConcat(w, s0, before + [op], after);
    ApplyAllConcat(w, s0, before, [op]);
    var m := ApplyAll(w, s0, before);
    ApplyOne(w, m, op);
    ApplyAllSound(w, s0, before);
    Opening(w, m, fd, target, append);
    var there, info := Apply(w, m, op), Prepare(w, m, path, append).1.value.0;
    PreparedPath(w, m, path, append, there, info);
    ApplyAllElsewhere(w, there, after, fd, info);
    ApplyAllSound(w, there, after);
    LoadKeepsFiles(w, ApplyAll(w, there, after));
    LoadBacked(w, ApplyAll(w, there, after));
    hide LoadInput;
    var s' := LoadInput(w, ApplyAll(w, there, after));
    if SoleWriter(s', fd, info) {
      SizeStaysRightExactly(s', outs, fd, info);
      EndsExactly(w, m, path, append, there, s', fd, info, WritesTo(outs, fd));
    }
  }

  lemma PreparedPath(w: World, s: State, path: string, append: bool, s': State, info: FileInfo)
    requires exists start :: Prepared(w, s, path, append, s', info, start)
    ensures info.virtual == path
  {
  }

  lemma EndsExactly(w: World, m: State, path: string, append: bool, s: State, s': State, fd: nat, info: FileInfo,
                    used: bool)
    requires SameFile(s, s', fd, info) && Prepared(w, m, path, append, s, info, s.counters[fd])
    ensures (if used then CounterRight(s', fd, info) else SizeRight(s', info)) <==> EndsRight(w, m, path, append, used)
  {
    hide StaleSize, OldSizeRight, KeepsOldSize;
  }

  /** The redirection of standard output to `g` succeeds, and not into `path`. */
  predicate OpensElsewhere(w: World, s: State, g: string, append: bool, path: string) {
    && w.resolve(g) != path
    && (w.resolve(g) == "/dev/null" || Prepare(w, s, w.resolve(g), append).1.Some?)
  }

  /** Main result: a copied descriptor is not tracked. After `>> f 2>&1 > g`, whatever other file, or
      `/dev/null`, `g` is, only standard error writes to `f`, but it counts from 0: its first output
      makes the size of `f` wrong exactly if the backing file was not empty. */
  lemma CopiedDescriptorLosesSize(w: World, s: State, f: string, g: string, append: bool, data: seq<Byte>)
    requires Backed(w, s) && w.resolve(f) != "/dev/null" && OwnBacking(w, s, w.resolve(f)).Some?
    requires OpensElsewhere(w, Redirected(w, s, [ToFile(1, f, true), Dup(2, 1)]), g, append, w.resolve(f))
    ensures var s' := Setup(w, s, [ToFile(1, f, true), Dup(2, 1), ToFile(1, g, append)]);
            var info := FileInfo(w.resolve(f), OwnBacking(w, s, w.resolve(f)).value);
            && info.disk in s.backing
            && Ready(s') && SoleWriter(s', 2, info) && (SizeRight(s', info) <==> SizeRight(s, info))
            && (SizeRight(Emit(s', Output(2, data)), info) <==> s.backing[info.disk] == [])
  {
    var s0, path := Initial(w, s), w.resolve(f);
    var info := FileInfo(path, OwnBacking(w, s, path).value);
    BackedMeans(w, s, path);
    InitialSound(w, s);
    hide Backed;
    var a, b, c := ToFile(1, f, true), Dup(2, 1), ToFile(1, g, append);
    ApplyThree(w, s0, a, b, c);
    var s1 := Apply(w, s0, a);
    assert s1 == SetFile(s0, 1, info, s.files[path].size);
    var s2 := Apply(w, s1, b);
    assert s2.targets[2] == File(info) && s2.counters[2] == 0;
    ApplySound(w, s0, a);
    ApplySound(w, s1, b);
    LeavesToError(w, s2, g, append, info);
    hide Apply, Sound;
    LoadKeepsFiles(w, Apply(w, s2, c));
    hide LoadInput;
    var s' := LoadInput(w, Apply(w, s2, c));
    EmitSizes(s', Output(2, data), 2, info);
  }

  /** Standard output goes elsewhere, standard error stays. */
  lemma LeavesToError(w: World, s: State, g: string, append: bool, info: FileInfo)
    requires Sound(w, s) && 2 in s.targets && s.targets[2] == File(info)
    requires OpensElsewhere(w, s, g, append, info.virtual)
    ensures var s' := Apply(w, s, ToFile(1, g, append));
            Ready(s') && SoleWriter(s', 2, info) && SameFile(s, s', 2, info)
  {
    var op, path := ToFile(1, g, append), w.resolve(g);
    var s' := Apply(w, s, op);
    ApplySound(w, s, op);
    ApplyElsewhere(w, s, op, 2, info);
    SoundIsReady(w, s');
    if path != "/dev/null" {
      Opening(w, s, 1, g, append);
      var other := Prepare(w, s, path, append).1.value.0;
      NotShared(w, s', info.virtual, path);
    }
    hide Prepare, Backed;
  }

  lemma NotShared(w: World, s: State, p: string, q: string)
    requires Backed(w, s) && p != q
    ensures Unshared(w, s, p, q)
  {
  }

  lemma ApplyThree(w: World, s: State, a: Redirection, b: Redirection, c: Redirection)
    ensures ApplyAll(w, s, [a, b]) == Apply(w, Apply(w, s, a), b)
    ensures ApplyAll(w, s, [a, b, c]) == Apply(w, Apply(w, Apply(w, s, a), b), c)
  {
    assert [a, b, c] == [a, b] + [c] && [a, b] == [a] + [b];
    ApplyAllConcat(w, s, [a, b], [c]);
    ApplyAllConcat(w, s, [a], [b]);
    ApplyOne(w, s, a);
    ApplyOne(w, Apply(w, s, a), b);
    ApplyOne(w, Apply(w, Apply(w, s, a), b), c);
  }

  // ---------------------------------------------------------------- reading the input

  lemma ApplyKeepsInput(w: World, s: State, op: Redirection)
    ensures Apply(w, s, op).input == s.input
    ensures !op.FromFile? ==> Apply(w, s, op).stdinTarget == s.stdinTarget
  {
    hide Prepare;
    if op.ToFile? {
      PrepareKeepsTable(w, s, w.resolve(op.target), op.append);
    }
  }

  lemma {:induction false} InputKept(w: World, s: State, ops: seq<Redirection>)
    ensures ApplyAll(w, s, ops).input == s.input
    ensures (forall op :: op in ops ==> !op.FromFile?) ==> ApplyAll(w, s, ops).stdinTarget == s.stdinTarget
    decreases |ops|
  {
    hide Apply;
    if ops != [] {
      InputKept(w, s, Front(ops));
      ApplyKeepsInput(w, ApplyAll(w, s, Front(ops)), Last(ops));
      assert forall op :: op in Front(ops) ==> op in ops;
      assert Last(ops) in ops;
    }
  }

  /** The last `<` counts, and the file is read when all redirections are done. */
  lemma InputIsReadLast(w: World, s: State, before: seq<Redirection>, fd: nat, target: string, after: seq<Redirection>)
    requires target != "" && forall op :: op in after ==> !op.FromFile?
    ensures var ops := before + [FromFile(fd, target)] + after;
            var r, s' := ReadFile(w, Redirected(w, s, ops), w.resolve(target)), Setup(w, s, ops);
            if r.Data? then s'.input == Some(r.bytes) else s'.input == s.input && (s'.error || s'.aborted)
  {
    var s0, op := Initial(w, s), FromFile(fd, target);
    var ops := before + [op] + after;
    ApplyAllConcat(w, s0, before + [op], after);
    ApplyAllConcat(w, s0, before, [op]);
    var m := ApplyAll(w, s0, before);
    ApplyOne(w, m, op);
    InputKept(w, Apply(w, m, op), after);
    InputKept(w, s0, ops);
    hide ApplyAll, ReadFile;
  }

  /** An empty target is no target. */
  lemma EmptyInputIgnored(w: World, s: State, before: seq<Redirection>, fd: nat, after: seq<Redirection>)
    requires forall op :: op in after ==> !op.FromFile?
    ensures var ops := before + [FromFile(fd, "")] + after; Setup(w, s, ops) == Redirected(w, s, ops)
  {
    var s0, op := Initial(w, s), FromFile(fd, "");
    ApplyAllConcat(w, s0, before + [op], after);
    ApplyAllConcat(w, s0, before, [op]);
    var m := ApplyAll(w, s0, before);
    ApplyOne(w, m, op);
    InputKept(w, Apply(w, m, op), after);
    hide ApplyAll, ReadFile;
  }

  /** The file has a backing of its own, and that is empty. */
  predicate Emptied(w: World, s: State, path: string) {
    && OwnBacking(w, s, path).Some? && OwnBacking(w, s, path).value in s.backing
    && s.backing[OwnBacking(w, s, path).value] == []
  }

  lemma PrepareEmpties(w: World, s: State, path: string, append: bool)
    requires Backed(w, s) && Prepare(w, s, path, append).1.Some? && !KeepsOldSize(w, s, path, append)
    ensures Emptied(w, Prepare(w, s, path, append).0, path)
  {
    if NeedsNewBacking(w, s, path) {
      CreatedBacked(w, s, path);
    }
    hide Backed;
  }

  lemma PrepareKeepsEmpty(w: World, s: State, path: string, append: bool, p: string)
    requires Backed(w, s) && Emptied(w, s, p)
    ensures Emptied(w, Prepare(w, s, path, append).0, p)
  {
    if p != path {
      PrepareElsewhere(w, s, path, append, FileInfo(p, OwnBacking(w, s, p).value));
    }
    hide Backed;
  }

  lemma {:induction false} StaysEmpty(w: World, s: State, ops: seq<Redirection>, path: string)
    requires Sound(w, s) && Emptied(w, s, path)
    ensures Emptied(w, ApplyAll(w, s, ops), path)
    decreases |ops|
  {
    hide Prepare, Sound, Backed;
    if ops != [] {
      StaysEmpty(w, s, Front(ops), path);
      var m, op := ApplyAll(w, s, Front(ops)), Last(ops);
      ApplyAllSound(w, s, Front(ops));
      if op.ToFile? {
        assert Backed(w, m) by { SoundMeans(w, m); }
        PrepareKeepsEmpty(w, m, w.resolve(op.target), op.append, path);
      }
    }
  }

  lemma SoundMeans(w: World, s: State)
    requires Sound(w, s)
    ensures Backed(w, s)
  {
  }

  lemma EmptiedReads(w: World, s: State, path: string)
    requires Emptied(w, s, path)
    ensures ReadFile(w, s, path) == Data([])
  {
  }

  /** Main result: a file that the command's own output redirections truncate or give a new backing is
      read as empty, whether its `<` comes before or after them on the line, and whatever the file
      held. Only `>>` to a file that already has a backing of its own leaves something to read. */
  lemma ReadsOwnOutputAsEmpty(w: World, s: State, before: seq<Redirection>, op: Redirection, after: seq<Redirection>)
    requires Backed(w, s) && op.ToFile? && w.resolve(op.target) != "/dev/null"
    requires var m, path := Redirected(w, s, before), w.resolve(op.target);
             Prepare(w, m, path, op.append).1.Some? && !KeepsOldSize(w, m, path, op.append)
    requires var from := Redirected(w, s, before + [op] + after).stdinTarget;
             from.Some? && from.value != "" && w.resolve(from.value) == w.resolve(op.target)
    ensures Setup(w, s, before + [op] + after).input == Some([])
  {
    hide Backed, Prepare, Sound;
    var s0, path := Initial(w, s), w.resolve(op.target);
    InitialSound(w, s);
    ApplyAllConcat(w, s0, before + [op], after);
    ApplyAllConcat(w, s0, before, [op]);
    var m := ApplyAll(w, s0, before);
    ApplyOne(w, m, op);
    ApplyAllSound(w, s0, before);
    SoundMeans(w, m);
    PrepareEmpties(w, m, path, op.append);
    assert Emptied(w, Apply(w, m, op), path);
    ApplySound(w, m, op);
    StaysEmpty(w, Apply(w, m, op), after, path);
    EmptiedReads(w, ApplyAll(w, Apply(w, m, op), after), path);
    hide Apply, ApplyAll, ReadFile;
  }

  // ---------------------------------------------------------------- what ends up where

  /** Main result: without a redirection of its own, standard output goes to the caller that captures it,
      else to the next command, else to the terminal, and standard error to the terminal. */
  lemma UnredirectedSinks(w: World, s: State, ops: seq<Redirection>, fd: nat)
    requires (fd == 1 || fd == 2) && forall op :: op in ops ==> !Assigns(op, fd)
    ensures SinkOf(Setup(w, s, ops), fd)
            == if fd == 1 && w.captured then ToCapture else if fd == 1 && w.hasNext then ToPipe else ToTerminal
  {
    TargetKept(w, Initial(w, s), ops, fd);
    LoadKeepsFiles(w, Redirected(w, s, ops));
    hide LoadInput, ApplyAll;
  }

  /** What is sent to `/dev/null` goes nowhere, and no file changes for it. */
  lemma DevNullDiscards(w: World, s: State, before: seq<Redirection>, fd: nat, target: string, append: bool,
                        after: seq<Redirection>)
    requires w.resolve(target) == "/dev/null" && forall op :: op in after ==> !Assigns(op, fd)
    ensures SinkOf(Setup(w, s, before + [ToFile(fd, target, append)] + after), fd) == Nowhere
    ensures var m, m' := Redirected(w, s, before), Redirected(w, s, before + [ToFile(fd, target, append)]);
            m'.files == m.files && m'.backing == m.backing
  {
    var s0, op := Initial(w, s), ToFile(fd, target, append);
    ApplyAllConcat(w, s0, before + [op], after);
    ApplyAllConcat(w, s0, before, [op]);
    ApplyOne(w, ApplyAll(w, s0, before), op);
    TargetKept(w, Apply(w, ApplyAll(w, s0, before), op), after, fd);
    LoadKeepsFiles(w, Redirected(w, s, before + [op] + after));
    hide LoadInput, ApplyAll;
  }

  /** Main result: the file of a descriptor's own redirection holds, after any output, what was in its
      own backing if it was opened with `>>`, else nothing, and then exactly the output sent there. */
  lemma OwnRedirectionContent(w: World, s: State, before: seq<Redirection>, fd: nat, target: string, append: bool,
                              after: seq<Redirection>, outs: seq<Output>)
    requires Backed(w, s) && (fd == 1 || fd == 2) && w.resolve(target) != "/dev/null" && Outputs(outs)
    requires Prepare(w, Redirected(w, s, before), w.resolve(target), append).1.Some?
    requires forall op :: op in after ==> !Assigns(op, fd) && !Opens(w, op, w.resolve(target))
    ensures var m, s' := Redirected(w, s, before), Setup(w, s, before + [ToFile(fd, target, append)] + after);
            var path := w.resolve(target);
            && Ready(s') && fd in s'.targets && s'.targets[fd].File? && s'.targets[fd].info.virtual == path
            && (KeepsOldSize(w, m, path, append) ==> OwnBacking(w, m, path).value in m.backing)
            && var sink := ToBacking(s'.targets[fd].info.disk);
               Content(EmitAll(s', outs), sink)
               == (if KeepsOldSize(w, m, path, append) then m.backing[OwnBacking(w, m, path).value] else [])
                  + RoutedTo(s', outs, sink)
  {
    hide Backed, Ready, Apply, Prepare, Opens, Assigns, Sound, KeepsOldSize, OwnBacking, OldSizeRight, StaleSize;
    var s0, op, path := Initial(w, s), ToFile(fd, target, append), w.resolve(target);
    InitialSound(w, s);
    ApplyAllConcat(w, s0, before + [op], after);
    ApplyAllConcat(w, s0, before, [op]);
    var m := ApplyAll(w, s0, before);
    ApplyOne(w, m, op);
    ApplyAllSound(w, s0, before);
    Opening(w, m, fd, target, append);
    var there, info := Apply(w, m, op), Prepare(w, m, path, append).1.value.0;
    ApplyAllElsewhere(w, there, after, fd, info);
    ApplyAllSound(w, there, after);
    LoadKeepsFiles(w, ApplyAll(w, there, after));
    LoadBacked(w, ApplyAll(w, there, after));
    hide LoadInput;
    var s' := LoadInput(w, ApplyAll(w, there, after));
    EverySinkGetsItsOutput(s', outs, ToBacking(info.disk));
  }

  // ---------------------------------------------------------------- the read-only files

  /** No backing file of the honeyfs has changed. */
  predicate HoneyfsKept(w: World, s: State, s': State) {
    forall n :: n in w.honeyfs && n in s.backing ==> n in s'.backing && s'.backing[n] == s.backing[n]
  }

  lemma PrepareKeepsHoneyfs(w: World, s: State, path: string, append: bool)
    requires Backed(w, s)
    ensures HoneyfsKept(w, s, Prepare(w, s, path, append).0)
  {
  }

  lemma {:induction false} ApplyAllKeepsHoneyfs(w: World, s: State, ops: seq<Redirection>)
    requires Sound(w, s)
    ensures HoneyfsKept(w, s, ApplyAll(w, s, ops))
    decreases |ops|
  {
    hide Prepare, Backed, Sound;
    if ops != [] {
      ApplyAllKeepsHoneyfs(w, s, Front(ops));
      ApplyAllSound(w, s, Front(ops));
      var m, op := ApplyAll(w, s, Front(ops)), Last(ops);
      SoundMeans(w, m);
      if op.ToFile? {
        PrepareKeepsHoneyfs(w, m, w.resolve(op.target), op.append);
      }
    }
  }

  lemma EmitKeepsHoneyfs(w: World, s: State, out: Output)
    requires Linked(w, s) && Ready(s) && (out.fd == 1 || out.fd == 2)
    ensures HoneyfsKept(w, s, Emit(s, out)) && Linked(w, Emit(s, out))
  {
    EmitKeepsDisks(s, out);
    SameOwns(w, s, Emit(s, out));
    hide OwnBacking;
    if out.fd in s.targets && s.targets[out.fd].File? {
      OwnIsNotHoneyfs(w, s, s.targets[out.fd].info.virtual);
    }
  }

  lemma EmitKeepsDisks(s: State, out: Output)
    requires Ready(s) && (out.fd == 1 || out.fd == 2)
    ensures var s' := Emit(s, out);
            && s'.files.Keys == s.files.Keys && (forall p :: p in s.files ==> s'.files[p].disk == s.files[p].disk)
            && s'.targets == s.targets && s'.backing.Keys == s.backing.Keys
            && forall n :: n in s.backing && s'.backing[n] != s.backing[n] ==>
                 out.fd in s.targets && s.targets[out.fd].File? && n == s.targets[out.fd].info.disk
  {
    if out.fd in s.targets && s.targets[out.fd].File? {
      WriteKeepsDisks(s, s.targets[out.fd].info, out.fd, out.data);
    } else {
      OtherSinksKeepFiles(s, out);
    }
    hide WriteFile;
  }

  lemma WriteKeepsDisks(s: State, info: FileInfo, fd: nat, data: seq<Byte>)
    requires info.disk in s.backing && fd in s.counters
    ensures var s' := WriteFile(s, info, fd, data);
            && s'.files.Keys == s.files.Keys && (forall p :: p in s.files ==> s'.files[p].disk == s.files[p].disk)
            && s'.targets == s.targets && s'.backing.Keys == s.backing.Keys
            && forall n :: n in s.backing && s'.backing[n] != s.backing[n] ==> n == info.disk
  {
  }

  lemma OtherSinksKeepFiles(s: State, out: Output)
    requires Ready(s) && (out.fd == 1 || out.fd == 2) && (out.fd in s.targets ==> !s.targets[out.fd].File?)
    ensures var s' := Emit(s, out); s'.files == s.files && s'.targets == s.targets && s'.backing == s.backing
  {
    hide WriteFile;
  }

  lemma SameOwns(w: World, s: State, s': State)
    requires s'.files.Keys == s.files.Keys && forall p :: p in s.files ==> s'.files[p].disk == s.files[p].disk
    ensures forall p :: OwnBacking(w, s', p) == OwnBacking(w, s, p)
  {
    forall p
      ensures OwnBacking(w, s', p) == OwnBacking(w, s, p)
    {
      assert p in s'.files <==> p in s.files;
    }
  }

  lemma OwnIsNotHoneyfs(w: World, s: State, path: string)
    ensures OwnBacking(w, s, path).Some? ==> OwnBacking(w, s, path).value !in w.honeyfs
  {
  }

  lemma {:induction false} EmitAllKeepsHoneyfs(w: World, s: State, outs: seq<Output>)
    requires Linked(w, s) && Ready(s) && Outputs(outs)
    ensures HoneyfsKept(w, s, EmitAll(s, outs)) && Linked(w, EmitAll(s, outs))
    decreases |outs|
  {
    hide Linked, Ready, Emit;
    if outs != [] {
      assert Last(outs) in outs;
      EmitAllKeepsHoneyfs(w, s, Front(outs));
      EmitKeepsHoneyfs(w, EmitAll(s, Front(outs)), Last(outs));
    }
  }

  /** Main result: no redirection and no output ever changes a backing file of the honeyfs. */
  lemma HoneyfsIsReadOnly(w: World, s: State, ops: seq<Redirection>, outs: seq<Output>)
    requires Backed(w, s) && Outputs(outs)
    ensures Ready(Setup(w, s, ops)) && HoneyfsKept(w, s, EmitAll(Setup(w, s, ops), outs))
  {
    hide Backed, Ready, ApplyAll;
    InitialSound(w, s);
    ApplyAllSound(w, Initial(w, s), ops);
    ApplyAllKeepsHoneyfs(w, Initial(w, s), ops);
    LoadBacked(w, Redirected(w, s, ops));
    LoadKeepsFiles(w, Redirected(w, s, ops));
    hide LoadInput;
    EmitAllKeepsHoneyfs(w, Setup(w, s, ops), outs);
  }

  // ---------------------------------------------------------------- what comes to nothing

  /** Copying a descriptor that is not open does nothing at all. */
  lemma CopyOfNothing(w: World, s: State, before: seq<Redirection>, fd: nat, source: nat, after: seq<Redirection>)
    requires source !in Redirected(w, s, before).targets
    ensures Setup(w, s, before + [Dup(fd, source)] + after) == Setup(w, s, before + after)
  {
    var s0, op := Initial(w, s), Dup(fd, source);
    ApplyAllConcat(w, s0, before + [op], after);
    ApplyAllConcat(w, s0, before, [op]);
    ApplyAllConcat(w, s0, before, after);
    ApplyOne(w, ApplyAll(w, s0, before), op);
    hide ApplyAll, LoadInput;
  }

  /** A descriptor opened for reading takes no output. */
  lemma InputTakesNoOutput(w: World, s: State, before: seq<Redirection>, fd: nat, target: string,
                           after: seq<Redirection>)
    requires forall op :: op in after ==> !Assigns(op, fd)
    ensures SinkOf(Setup(w, s, before + [FromFile(fd, target)] + after), fd) == Nowhere
  {
    var s0, op := Initial(w, s), FromFile(fd, target);
    ApplyAllConcat(w, s0, before + [op], after);
    ApplyAllConcat(w, s0, before, [op]);
    ApplyOne(w, ApplyAll(w, s0, before), op);
    TargetKept(w, Apply(w, ApplyAll(w, s0, before), op), after, fd);
    LoadKeepsFiles(w, Redirected(w, s, before + [op] + after));
    hide LoadInput, ApplyAll;
  }

  lemma ApplyKeepsError(w: World, s: State, op: Redirection)
    requires s.error
    ensures Apply(w, s, op).error
  {
  }

  lemma {:induction false} ErrorStays(w: World, s: State, ops: seq<Redirection>)
    requires s.error
    ensures ApplyAll(w, s, ops).error
    decreases |ops|
  {
    hide Apply;
    if ops != [] {
      ErrorStays(w, s, Front(ops));
      ApplyKeepsError(w, ApplyAll(w, s, Front(ops)), Last(ops));
    }
  }

  /** Main result: a redirection to a file that cannot be made is noted, and leaves its descriptor as it was. */
  lemma FailureIsNoted(w: World, s: State, before: seq<Redirection>, fd: nat, target: string, append: bool,
                       after: seq<Redirection>)
    requires w.resolve(target) != "/dev/null" && w.mkfile(w.resolve(target)) != Created
    requires NeedsNewBacking(w, Redirected(w, s, before), w.resolve(target))
    requires forall op :: op in after ==> !Assigns(op, fd)
    ensures var s' := Setup(w, s, before + [ToFile(fd, target, append)] + after);
            && s'.error && SinkOf(s', fd) == SinkOf(Redirected(w, s, before), fd)
  {
    var s0, op := Initial(w, s), ToFile(fd, target, append);
    ApplyAllConcat(w, s0, before + [op], after);
    ApplyAllConcat(w, s0, before, [op]);
    var m := ApplyAll(w, s0, before);
    ApplyOne(w, m, op);
    assert Apply(w, m, op) == m.(error := true);
    ErrorStays(w, m.(error := true), after);
    TargetKept(w, m.(error := true), after, fd);
    LoadKeepsFiles(w, Redirected(w, s, before + [op] + after));
    LoadKeepsError(w, Redirected(w, s, before + [op] + after));
    hide LoadInput, ApplyAll, Apply;
  }

  lemma LoadKeepsError(w: World, s: State)
    ensures s.error ==> LoadInput(w, s).error
  {
    hide ReadFile;
  }
}
