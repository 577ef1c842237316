/** cowrie-shell-source/pipe.py: the table of file descriptors a command's redirections set up,
    and where its output goes. */
module FdTable {
  import opened Bytes
  import opened Sequences
  import opened RedirectionParser

  /** An entry of the virtual filesystem: its size and its backing file, if any. */
  datatype VFile = VFile(size: int, disk: Option<nat>)

  datatype FileInfo = FileInfo(virtual: string, disk: nat)

  datatype Target =
    | Stdin
    | Terminal
    | Pipe
    | Capture
    | File(info: FileInfo)
    | FileInput(path: string)
    | DevNull

  datatype MkfileOutcome = Created | NotFound | Denied

  /** What reading a file comes to: bytes, a complaint, or an exception nothing catches. */
  datatype ReadOutcome = Data(bytes: seq<Byte>) | Complaint | Uncaught

  /** The surroundings of a command: how a target resolves, what creating a file answers, which backing
      files can be truncated, which belong to the read-only honeyfs, what a path reads as that has no
      backing file here, and how the command was started. */
  datatype World = World(
    resolve: string -> string, mkfile: string -> MkfileOutcome, truncates: nat -> bool, honeyfs: set<nat>,
    contents: string -> ReadOutcome, hasNext: bool, captured: bool)

  /** Backing files are numbered; `next` is the next unused number. `counters` are the two fields
      `_stdout_written` and `_stderr_written`, `input` is `input_data`; `aborted` means that the
      set-up raised. */
  datatype State = State(
    targets: map<nat, Target>, files: map<string, VFile>, backing: map<nat, seq<Byte>>, next: nat,
    counters: map<nat, int>, stdinTarget: Option<string>, input: Option<seq<Byte>>,
    error: bool, aborted: bool,
    terminal: seq<Byte>, capture: seq<Byte>, pipe: seq<Byte>)

  // ---------------------------------------------------------------- _setup_redirections

  function Initial(w: World, s: State): State {
    s.(targets := map[
         0 := Stdin,
         1 := if w.captured then Capture else if w.hasNext then Pipe else Terminal,
         2 := Terminal],
       counters := map[1 := 0, 2 := 0], stdinTarget := None, error := false, aborted := false)
  }

  function NeedsNewBacking(w: World, s: State, path: string): bool {
    path !in s.files || s.files[path].disk.None? || s.files[path].disk.value in w.honeyfs
  }

  /** `_prepare_output_file` on a path other than `/dev/null`: the new state, and where to write
      from which size on. */
  function Prepare(w: World, s: State, path: string, append: bool): (State, Option<(FileInfo, int)>) {
    if NeedsNewBacking(w, s, path) then
      if w.mkfile(path) != Created then (s.(error := true), None)
      else
        var start := if path in s.files && append then s.files[path].size else 0;
        (s.(files := s.files[path := VFile(0, Some(s.next))], backing := s.backing[s.next := []], next := s.next + 1),
         Some((FileInfo(path, s.next), start)))
    else
      var disk := s.files[path].disk.value;
      if append then (s, Some((FileInfo(path, disk), s.files[path].size)))
      else if !w.truncates(disk) then (s, None)
      else
        (s.(files := s.files[path := s.files[path].(size := 0)], backing := s.backing[disk := []]),
         Some((FileInfo(path, disk), 0)))
  }

  function SetFile(s: State, fd: nat, info: FileInfo, start: int): State {
    s.(targets := s.targets[fd := File(info)],
       counters := if fd == 1 || fd == 2 then s.counters[fd := start] else s.counters)
  }

  function Apply(w: World, s: State, op: Redirection): State {
    match op
    case ToFile(fd, target, append) =>
      var path := w.resolve(target);
      if path == "/dev/null" then s.(targets := s.targets[fd := DevNull])
      else
        var (s', file) := Prepare(w, s, path, append);
        if file.None? then s' else SetFile(s', fd, file.value.0, file.value.1)
    case FromFile(fd, target) =>
      s.(targets := s.targets[fd := FileInput(target)], stdinTarget := Some(target))
    case Dup(fd, source) =>
      if source in s.targets then s.(targets := s.targets[fd := s.targets[source]]) else s
  }

  function ApplyAll(w: World, s: State, ops: seq<Redirection>): State {
    if ops == [] then s else Apply(w, ApplyAll(w, s, Front(ops)), Last(ops))
  }

  /** The state after the loop over the redirections. */
  function Redirected(w: World, s: State, ops: seq<Redirection>): State {
    ApplyAll(w, Initial(w, s), ops)
  }

  function ReadFile(w: World, s: State, path: string): ReadOutcome {
    if path in s.files && s.files[path].disk.Some? && s.files[path].disk.value in s.backing
    then Data(s.backing[s.files[path].disk.value]) else w.contents(path)
  }

  /** `_prepare_stdin`, on the last target of `<`. */
  function LoadInput(w: World, s: State): State {
    if s.stdinTarget.None? || s.stdinTarget.value == "" then s
    else Loaded(s, ReadFile(w, s, w.resolve(s.stdinTarget.value)))
  }

  function Loaded(s: State, read: ReadOutcome): State {
    match read
    case Data(bytes) => s.(input := Some(bytes))
    case Complaint => s.(error := true)
    case Uncaught => s.(aborted := true)
  }

  function Setup(w: World, s: State, ops: seq<Redirection>): State {
    LoadInput(w, Redirected(w, s, ops))
  }

  // ---------------------------------------------------------------- writing

  datatype Output = Output(fd: nat, data: seq<Byte>)

  function WriteFile(s: State, info: FileInfo, fd: nat, data: seq<Byte>): State
    requires info.disk in s.backing && fd in s.counters
  {
    var written := s.counters[fd] + |data|;
    s.(backing := s.backing[info.disk := s.backing[info.disk] + data],
       counters := s.counters[fd := written],
       files := if info.virtual in s.files
                then s.files[info.virtual := s.files[info.virtual].(size := written)] else s.files)
  }

  /** Everything a command can reach through its table is really there. */
  predicate Ready(s: State) {
    && 1 in s.counters && 2 in s.counters
    && forall fd :: fd in s.targets && s.targets[fd].File? ==> s.targets[fd].info.disk in s.backing
  }

  function Emit(s: State, out: Output): State
    requires Ready(s) && (out.fd == 1 || out.fd == 2)
  {
    if out.fd !in s.targets then s
    else match s.targets[out.fd]
      case Terminal => s.(terminal := s.terminal + out.data)
      case Pipe => s.(pipe := s.pipe + out.data)
      case Capture => s.(capture := s.capture + out.data)
      case File(info) => WriteFile(s, info, out.fd, out.data)
      case _ => s
  }

  class PipeProtocol {
    const world: World
    var state: State

    constructor (world: World, start: State, redirections: seq<Redirection>)
      ensures this.world == world && state == Setup(world, start, redirections)
    {
      this.world := world;
      state := Initial(world, start);
      new;
      for i := 0 to |redirections|
        invariant state == ApplyAll(world, Initial(world, start), redirections[..i])
      {
        assert Front(redirections[..i + 1]) == redirections[..i];
        ApplyRedirection(redirections[i]);
      }
      assert redirections[..|redirections|] == redirections;
      if state.stdinTarget.Some? && state.stdinTarget.value != "" {
        PrepareStdin(state.stdinTarget.value);
      }
    }

    method PrepareStdin(target: string)
      modifies this
      ensures state == Loaded(old(state), ReadFile(world, old(state), world.resolve(target)))
    {
      match ReadFile(world, state, world.resolve(target)) {
        case Data(bytes) =>
          state := state.(input := Some(bytes));
        case Complaint =>
          state := state.(error := true);
        case Uncaught =>
          state := state.(aborted := true);
      }
    }

    method ApplyRedirection(op: Redirection)
      modifies this
      ensures state == Apply(world, old(state), op)
    {
      match op {
        case ToFile(fd, target, append) =>
          var path := world.resolve(target);
          if path == "/dev/null" {
            state := state.(targets := state.targets[fd := DevNull]);
          } else {
            var file := PrepareOutputFile(path, append);
            if file.Some? {
              state := state.(targets := state.targets[fd := File(file.value.0)]);
              if fd == 1 || fd == 2 {
                state := state.(counters := state.counters[fd := file.value.1]);
              }
            }
          }
        case FromFile(fd, target) =>
          state := state.(stdinTarget := Some(target), targets := state.targets[fd := FileInput(target)]);
        case Dup(fd, source) =>
          if source in state.targets {
            state := state.(targets := state.targets[fd := state.targets[source]]);
          }
      }
    }

    method PrepareOutputFile(path: string, append: bool) returns (file: Option<(FileInfo, int)>)
      modifies this
      ensures (state, file) == Prepare(world, old(state), path, append)
    {
      var start := if path in state.files && append then state.files[path].size else 0;
      if NeedsNewBacking(world, state, path) {
        var disk := CreateRedirectTarget(path);
        if disk.None? {
          return None;
        }
        return Some((FileInfo(path, disk.value), start));
      }
      var disk := state.files[path].disk.value;
      if !append {
        if !world.truncates(disk) {
          return None;
        }
        state := state.(backing := state.backing[disk := []]);
        state := state.(files := state.files[path := state.files[path].(size := 0)]);
        start := 0;
      }
      return Some((FileInfo(path, disk), start));
    }

    method CreateRedirectTarget(path: string) returns (disk: Option<nat>)
      modifies this
      ensures world.mkfile(path) != Created ==> disk.None? && state == old(state).(error := true)
      ensures world.mkfile(path) == Created ==>
                && disk == Some(old(state).next)
                && state == old(state).(files := old(state).files[path := VFile(0, disk)],
                                        backing := old(state).backing[disk.value := []], next := disk.value + 1)
    {
      if world.mkfile(path) != Created {
        state := state.(error := true);
        return None;
      }
      disk := Some(state.next);
      state := state.(files := state.files[path := VFile(0, None)]);
      state := state.(backing := state.backing[state.next := []], next := state.next + 1);
      state := state.(files := state.files[path := state.files[path].(disk := disk)]);
      assert old(state).files[path := VFile(0, None)][path := VFile(0, disk)]
          == old(state).files[path := VFile(0, disk)];
    }

    method WriteToFd(fd: nat, data: seq<Byte>)
      requires Ready(state) && (fd == 1 || fd == 2)
      modifies this
      ensures state == Emit(old(state), Output(fd, data))
    {
      if fd !in state.targets {
        return;
      }
      match state.targets[fd] {
        case Terminal =>
          state := state.(terminal := state.terminal + data);
        case Pipe =>
          state := state.(pipe := state.pipe + data);
        case Capture =>
          state := state.(capture := state.capture + data);
        case File(info) =>
          state := state.(backing := state.backing[info.disk := state.backing[info.disk] + data]);
          var written := state.counters[fd] + |data|;
          state := state.(counters := state.counters[fd := written]);
          if info.virtual in state.files {
            state := state.(files := state.files[info.virtual := state.files[info.virtual].(size := written)]);
          }
        case _ =>
      }
    }
  }
}
