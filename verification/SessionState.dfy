/** middleware/src/state_grounded/state_engine.py: the session state that the deterministic commands
    answer from. */
module SessionState {
  import opened Sequences
  import opened Strings
  import opened Paths

  // ---------------------------------------------------------------- normalised paths

  /** A path as `normpath` leaves it; exactly two leading slashes stay two. */
  datatype Norm = Norm(double: bool, names: seq<string>)

  const ROOT := Norm(false, [])

  function Text(p: Norm): string {
    (if p.double then "//" else "/") + Join(SLASH, p.names)
  }

  /** `posixpath.normpath` of an absolute path. */
  function NormPath(path: string): Norm {
    Norm("//" <= path && !("///" <= path), Walk([], Split(SLASH, path)))
  }

  function Parent(p: Norm): Norm {
    if p.names == [] then p else p.(names := Front(p.names))
  }

  function Name(p: Norm): string {
    if p.names == [] then "" else Last(p.names)
  }

  /** `_join`. */
  function Child(p: Norm, n: string): Norm {
    p.(names := p.names + [n])
  }

  /** `_is_ancestor`, on the texts. */
  predicate IsAncestor(candidate: Norm, path: Norm) {
    candidate == path || candidate == ROOT || Text(candidate) + "/" <= Text(path)
  }

  // ---------------------------------------------------------------- the state

  datatype Kind = Dir | File

  datatype Engine = Engine(
    nodes: map<Norm, Kind>, children: map<Norm, set<string>>,
    cwd: Norm, env: map<string, string>, exit: int)

  datatype Complaint =
    | TooMany | Usage | BadName | Missing | BadOption | Exists | NoSuch | NotDir | IsDir | Busy | NotEmpty | Invalid

  datatype Reply =
    | Said(text: string)
    | Listing(names: set<string>, dots: bool, long: bool)
    | Single(path: Norm, long: bool)
    | Error(complaint: Complaint)
    | KeyError(key: string)
    | RecursionError

  /** What the session is given from outside: how variables are replaced in a value, in which order
      Python lists a set of names, and what is left of its recursion limit when a command starts. */
  datatype Host = Host(
    subst: (map<string, string>, string) -> string,
    order: (Norm, set<string>) -> seq<string>,
    budget: nat)

  /** How a removal ends: with everything gone, at a path that has no node, or too deep. */
  datatype Removal = Gone | Absent(path: Norm) | TooDeep

  datatype Command =
    | Pwd(args: seq<string>) | Cd(args: seq<string>) | Export(args: seq<string>) | Unset(args: seq<string>)
    | Mkdir(args: seq<string>) | Ls(args: seq<string>) | Touch(args: seq<string>) | Rmdir(args: seq<string>)
    | Rm(args: seq<string>) | Whoami(args: seq<string>)

  function Kids(e: Engine, p: Norm): set<string> {
    if p in e.children then e.children[p] else {}
  }

  function JoinPath(dir: string, path: string): string {
    if dir == "" || Last(dir) == SLASH then dir + path else dir + [SLASH] + path
  }

  /** `_resolve_path`. */
  function Resolved(e: Engine, path: string): Norm {
    var home := if "HOME" in e.env then e.env["HOME"] else "/root";
    var path' := if path == "~" || "~/" <= path then home + path[1..] else path;
    NormPath(if "/" <= path' then path' else JoinPath(Text(e.cwd), path'))
  }

  function Fail(e: Engine, c: Complaint): (Engine, Reply) {
    (e.(exit := 1), Error(c))
  }

  function Ok(e: Engine): (Engine, Reply) {
    (e.(exit := 0), Said(""))
  }

  function AddDir(e: Engine, p: Norm): Engine {
    var children := if p in e.children then e.children else e.children[p := {}];
    e.(nodes := e.nodes[p := Dir],
       children := if p == ROOT then children
                   else children[Parent(p) := (if Parent(p) in children then children[Parent(p)] else {}) + {Name(p)}])
  }

  function AddFile(e: Engine, p: Norm): Engine {
    e.(nodes := e.nodes[p := File], children := e.children[Parent(p) := Kids(e, Parent(p)) + {Name(p)}])
  }

  predicate Under(p: Norm, k: Norm) {
    k.double == p.double && p.names <= k.names
  }

  /** The end of `_remove_subtree`: the path leaves its parent's list and the nodes. */
  function Unlinked(e: Engine, p: Norm): Engine {
    e.(nodes := e.nodes - {p},
       children := if p != ROOT && Parent(p) in e.children
                   then e.children[Parent(p) := e.children[Parent(p)] - {Name(p)}] else e.children)
  }

  /** `_remove_subtree`: where it fails, what was removed before stays removed. */
  function RemoveTree(order: (Norm, set<string>) -> seq<string>, e: Engine, p: Norm, budget: nat): (Engine, Removal)
    decreases budget, 0
  {
    if budget == 0 then (e, TooDeep)
    else if p !in e.nodes then (e, Absent(p))
    else if e.nodes[p] != Dir then (Unlinked(e, p), Gone)
    else
      var (e', r) := RemoveEach(order, e, p, order(p, Kids(e, p)), budget - 1);
      if r != Gone then (e', r) else (Unlinked(e'.(children := e'.children - {p}), p), Gone)
  }

  /** The loop over the children of `p`. */
  function RemoveEach(order: (Norm, set<string>) -> seq<string>, e: Engine, p: Norm, names: seq<string>, budget: nat)
    : (Engine, Removal)
    decreases budget, |names|
  {
    if names == [] then (e, Gone)
    else
      var (e', r) := RemoveTree(order, e, Child(p, names[0]), budget);
      if r != Gone then (e', r) else RemoveEach(order, e', p, names[1..], budget)
  }

  function RemoveTarget(h: Host, e: Engine, target: Norm): (Engine, Reply) {
    var (e', r) := RemoveTree(h.order, e, target, h.budget);
    match r
    case Gone => Ok(e')
    case Absent(path) => (e', KeyError(Text(path)))
    case TooDeep => (e', RecursionError)
  }

  // ---------------------------------------------------------------- the commands

  predicate IsLetter(c: char) {
    'a' <= c <= 'z' || 'A' <= c <= 'Z'
  }

  predicate IsVarName(name: string) {
    name != "" && (IsLetter(name[0]) || name[0] == '_')
    && forall i :: 0 <= i < |name| ==> IsLetter(name[i]) || '0' <= name[i] <= '9' || name[i] == '_'
  }

  function FindChar(s: string, c: char): (k: Option<nat>)
    ensures k.Some? ==> k.value < |s|
  {
    if s == "" then None
    else if s[0] == c then Some(0)
    else
      var k := FindChar(s[1..], c);
      if k.None? then None else Some(k.value + 1)
  }

  function DoCd(e: Engine, args: seq<string>): (Engine, Reply) {
    if |args| > 1 then Fail(e, TooMany)
    else if args == [] && "HOME" !in e.env then (e, KeyError("HOME"))
    else
      var target := Resolved(e, if args != [] then args[0] else e.env["HOME"]);
      if target !in e.nodes then Fail(e, NoSuch)
      else if e.nodes[target] != Dir then Fail(e, NotDir)
      else Ok(e.(cwd := target, env := e.env["PWD" := Text(target)]))
  }

  function DoExport(h: Host, e: Engine, args: seq<string>): (Engine, Reply) {
    if |args| != 1 || FindChar(args[0], '=').None? then Fail(e, Usage)
    else
      var k := FindChar(args[0], '=').value;
      var name := args[0][..k];
      if !IsVarName(name) then Fail(e, BadName) else Ok(e.(env := e.env[name := h.subst(e.env, args[0][k + 1..])]))
  }

  function DoUnset(e: Engine, args: seq<string>): (Engine, Reply) {
    if |args| != 1 then Fail(e, Usage)
    else if !IsVarName(args[0]) then Fail(e, BadName)
    else Ok(e.(env := e.env - {args[0]}))
  }

  /** What is wrong with making something new at `p`, which is not there. */
  function NoPlace(e: Engine, p: Norm, nameless: Complaint): Option<Complaint> {
    if Parent(p) !in e.nodes then Some(NoSuch)
    else if e.nodes[Parent(p)] != Dir then Some(NotDir)
    else if Name(p) == "" then Some(nameless)
    else None
  }

  function DoMkdir(e: Engine, args: seq<string>): (Engine, Reply) {
    if args == [] then Fail(e, Missing)
    else if |args| != 1 || "-" <= args[0] then Fail(e, BadOption)
    else
      var target := Resolved(e, args[0]);
      if target in e.nodes then Fail(e, Exists)
      else
        var wrong := NoPlace(e, target, Exists);
        if wrong.Some? then Fail(e, wrong.value) else Ok(AddDir(e, target))
  }

  function DoTouch(e: Engine, args: seq<string>): (Engine, Reply) {
    if |args| != 1 then Fail(e, Missing)
    else
      var target := Resolved(e, args[0]);
      if target in e.nodes then Ok(e)
      else
        var wrong := NoPlace(e, target, Invalid);
        if wrong.Some? then Fail(e, wrong.value) else Ok(AddFile(e, target))
  }

  predicate IsFlag(arg: string) {
    "-" <= arg && arg != "-"
  }

  function Targets(args: seq<string>): seq<string> {
    if args == [] then [] else (if IsFlag(args[0]) then [] else [args[0]]) + Targets(args[1..])
  }

  function Flags(args: seq<string>): string {
    if args == [] then "" else (if IsFlag(args[0]) then args[0][1..] else "") + Flags(args[1..])
  }

  function DoLs(e: Engine, args: seq<string>): (Engine, Reply) {
    var flags, targets := Flags(args), Targets(args);
    if |targets| > 1 then Fail(e, TooMany)
    else
      var target := Resolved(e, if targets != [] then targets[0] else Text(e.cwd));
      if target !in e.nodes then Fail(e, NoSuch)
      else
        (e.(exit := 0),
         if e.nodes[target] == Dir && 'd' !in flags then Listing(Kids(e, target), 'a' in flags, 'l' in flags)
         else Single(target, e.nodes[target] == Dir || 'l' in flags))
  }

  function DoRmdir(h: Host, e: Engine, args: seq<string>): (Engine, Reply) {
    if |args| != 1 then Fail(e, Missing)
    else
      var target := Resolved(e, args[0]);
      if target !in e.nodes then Fail(e, NoSuch)
      else if e.nodes[target] != Dir then Fail(e, NotDir)
      else if target == ROOT || IsAncestor(target, e.cwd) then Fail(e, Busy)
      else if Kids(e, target) != {} then Fail(e, NotEmpty)
      else RemoveTarget(h, e, target)
  }

  function DoRm(h: Host, e: Engine, args: seq<string>): (Engine, Reply) {
    var flags, targets := Flags(args), Targets(args);
    if args == [] then Fail(e, Missing)
    else if exists i :: 0 <= i < |flags| && flags[i] !in "rRf" then Fail(e, BadOption)
    else if |targets| != 1 then Fail(e, Missing)
    else
      var target := Resolved(e, targets[0]);
      if target !in e.nodes then (if 'f' in flags then Ok(e) else Fail(e, NoSuch))
      else if target == ROOT || IsAncestor(target, e.cwd) then Fail(e, Busy)
      else if e.nodes[target] == Dir && 'r' !in flags && 'R' !in flags then Fail(e, IsDir)
      else RemoveTarget(h, e, target)
  }

  function Answer(h: Host, e: Engine, c: Command): (Engine, Reply) {
    match c
    case Pwd(args) => if args != [] then Fail(e, TooMany) else (e.(exit := 0), Said(Text(e.cwd)))
    case Cd(args) => DoCd(e, args)
    case Export(args) => DoExport(h, e, args)
    case Unset(args) => DoUnset(e, args)
    case Mkdir(args) => DoMkdir(e, args)
    case Ls(args) => DoLs(e, args)
    case Touch(args) => DoTouch(e, args)
    case Rmdir(args) => DoRmdir(h, e, args)
    case Rm(args) => DoRm(h, e, args)
    case Whoami(args) =>
      if args != [] then Fail(e, TooMany)
      else if "USER" !in e.env then (e.(exit := 0), KeyError("USER"))
      else (e.(exit := 0), Said(e.env["USER"]))
  }

  // ---------------------------------------------------------------- what holds of every state

  predicate CleanKey(p: Norm) {
    !p.double && AllClean(p.names)
  }

  predicate AllCleanKeys(nodes: map<Norm, Kind>) {
    forall p {:trigger CleanKey(p)} :: p in nodes ==> CleanKey(p)
  }

  predicate HasParent(nodes: map<Norm, Kind>, p: Norm) {
    Parent(p) in nodes && nodes[Parent(p)] == Dir
  }

  predicate ParentsAreDirs(nodes: map<Norm, Kind>) {
    && ROOT in nodes && nodes[ROOT] == Dir
    && forall p {:trigger HasParent(nodes, p)} :: p in nodes ==> HasParent(nodes, p)
  }

  /** The two tables tell the same: a directory lists a name exactly when that path is there. */
  ghost predicate SameTables(nodes: map<Norm, Kind>, children: map<Norm, set<string>>) {
    && (forall p :: p in children <==> p in nodes && nodes[p] == Dir)
    && (forall p, n :: p in children ==> (n in children[p] <==> Child(p, n) in nodes))
  }

  ghost predicate Consistent(nodes: map<Norm, Kind>, children: map<Norm, set<string>>) {
    AllCleanKeys(nodes) && ParentsAreDirs(nodes) && SameTables(nodes, children)
  }

  ghost predicate Sound(e: Engine) {
    Consistent(e.nodes, e.children) && e.cwd in e.nodes && e.nodes[e.cwd] == Dir
  }

  /** The list names each element of the set once. */
  ghost predicate Lists(names: seq<string>, s: set<string>) {
    && (forall n :: n in names <==> n in s)
    && (forall i, j :: 0 <= i < j < |names| ==> names[i] != names[j])
  }

  /** Python lists a set in some order, each element once. */
  ghost predicate Faithful(h: Host) {
    forall p, s :: Lists(h.order(p, s), s)
  }
}
