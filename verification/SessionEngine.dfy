/** The class `StateEngine` of middleware/src/state_grounded/state_engine.py, whose methods do to
    its two tables what the functions of the session state say. */
module SessionEngine {
  import opened SessionState

  // ---------------------------------------------------------------- the class

  class StateEngine {
    const host: Host
    var nodes: map<Norm, Kind>
    var children: map<Norm, set<string>>
    var cwd: Norm
    var env: map<string, string>
    var exit: int

    function Snapshot(): Engine
      reads this
    {
      Engine(nodes, children, cwd, env, exit)
    }

    constructor (host: Host, e: Engine)
      ensures Snapshot() == e && this.host == host
    {
      this.host := host;
      nodes, children, cwd, env, exit := e.nodes, e.children, e.cwd, e.env, e.exit;
    }

    /** `_remove_subtree`. */
    method RemoveSubtree(path: Norm, budget: nat) returns (r: Removal)
      modifies this`nodes, this`children
      ensures (Snapshot(), r) == RemoveTree(host.order, old(Snapshot()), path, budget)
      decreases budget
    {
      hide Unlinked;
      if budget == 0 {
        return TooDeep;
      }
      if path !in nodes {
        return Absent(path);
      }
      if nodes[path] == Dir {
        var names := host.order(path, Kids(Snapshot(), path));
        ghost var all := RemoveEach(host.order, Snapshot(), path, names, budget - 1);
        while names != []
          invariant RemoveEach(host.order, Snapshot(), path, names, budget - 1) == all
          decreases |names|
        {
          r := RemoveSubtree(Child(path, names[0]), budget - 1);
          if r != Gone {
            return r;
          }
          names := names[1..];
        }
        children := children - {path};
      }
      Unlink(path);
      return Gone;
    }

    method Unlink(path: Norm)
      modifies this`nodes, this`children
      ensures Snapshot() == Unlinked(old(Snapshot()), path)
    {
      if path != ROOT && Parent(path) in children {
        children := children[Parent(path) := children[Parent(path)] - {Name(path)}];
      }
      nodes := nodes - {path};
    }

    /** What `rm` and `rmdir` do once they decided to remove. */
    method Remove(target: Norm) returns (r: Reply)
      modifies this
      ensures (Snapshot(), r) == RemoveTarget(host, old(Snapshot()), target)
    {
      hide RemoveTree;
      var removal := RemoveSubtree(target, host.budget);
      match removal {
        case Absent(path) => return KeyError(Text(path));
        case TooDeep => return RecursionError;
        case Gone =>
          exit := 0;
          return Said("");
      }
    }

    method MakeDir(args: seq<string>) returns (r: Reply)
      modifies this
      ensures (Snapshot(), r) == DoMkdir(old(Snapshot()), args)
    {
      hide Resolved, NoPlace;
      if args == [] {
        exit := 1;
        return Error(Missing);
      }
      if |args| != 1 || "-" <= args[0] {
        exit := 1;
        return Error(BadOption);
      }
      var target := Resolved(Snapshot(), args[0]);
      if target in nodes {
        exit := 1;
        return Error(Exists);
      }
      var wrong := NoPlace(Snapshot(), target, Exists);
      if wrong.Some? {
        exit := 1;
        return Error(wrong.value);
      }
      nodes := nodes[target := Dir];
      if target !in children {
        children := children[target := {}];
      }
      if target != ROOT {
        var siblings := if Parent(target) in children then children[Parent(target)] else {};
        children := children[Parent(target) := siblings + {Name(target)}];
      }
      exit := 0;
      return Said("");
    }

    method ChangeDir(args: seq<string>) returns (r: Reply)
      modifies this
      ensures (Snapshot(), r) == DoCd(old(Snapshot()), args)
    {
      hide Resolved;
      if |args| > 1 {
        exit := 1;
        return Error(TooMany);
      }
      if args == [] && "HOME" !in env {
        return KeyError("HOME");
      }
      var target := Resolved(Snapshot(), if args != [] then args[0] else env["HOME"]);
      if target !in nodes {
        exit := 1;
        return Error(NoSuch);
      }
      if nodes[target] != Dir {
        exit := 1;
        return Error(NotDir);
      }
      cwd := target;
      env := env["PWD" := Text(target)];
      exit := 0;
      return Said("");
    }

    method RemoveDir(args: seq<string>) returns (r: Reply)
      modifies this
      ensures (Snapshot(), r) == DoRmdir(host, old(Snapshot()), args)
    {
      hide Resolved, RemoveTarget, IsAncestor;
      if |args| != 1 {
        exit := 1;
        return Error(Missing);
      }
      var target := Resolved(Snapshot(), args[0]);
      if target !in nodes {
        exit := 1;
        return Error(NoSuch);
      }
      if nodes[target] != Dir {
        exit := 1;
        return Error(NotDir);
      }
      if target == ROOT || IsAncestor(target, cwd) {
        exit := 1;
        return Error(Busy);
      }
      if Kids(Snapshot(), target) != {} {
        exit := 1;
        return Error(NotEmpty);
      }
      r := Remove(target);
    }

    method RemoveAny(args: seq<string>) returns (r: Reply)
      modifies this
      ensures (Snapshot(), r) == DoRm(host, old(Snapshot()), args)
    {
      hide Resolved, RemoveTarget, IsAncestor;
      var flags, targets := Flags(args), Targets(args);
      if args == [] {
        exit := 1;
        return Error(Missing);
      }
      if exists i :: 0 <= i < |flags| && flags[i] !in "rRf" {
        exit := 1;
        return Error(BadOption);
      }
      if |targets| != 1 {
        exit := 1;
        return Error(Missing);
      }
      var target := Resolved(Snapshot(), targets[0]);
      if target !in nodes {
        if 'f' in flags {
          exit := 0;
          return Said("");
        }
        exit := 1;
        return Error(NoSuch);
      }
      if target == ROOT || IsAncestor(target, cwd) {
        exit := 1;
        return Error(Busy);
      }
      if nodes[target] == Dir && 'r' !in flags && 'R' !in flags {
        exit := 1;
        return Error(IsDir);
      }
      r := Remove(target);
    }
  }
}
