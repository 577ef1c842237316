/** The tree of cowrie-shell-source/fs.py: an entry is the list indexed by `A_NAME` to `A_REALFILE`.
    A position in the tree, a list of child indices, plays the part of Python's object identity. */
module FsTree {
  import opened Sequences
  import opened Bytes

  datatype Kind = Link | Dir | File | Blk | Chr | Sock | Fifo

  datatype Contents = Children(entries: seq<Entry>) | Data(bytes: seq<Byte>)

  datatype Entry = Entry(
    name: string, kind: Kind, uid: int, gid: int, size: int, mode: int, ctime: int,
    contents: Contents, target: Option<string>, realfile: Option<string>)

  type Position = seq<nat>

  function Kids(e: Entry): seq<Entry> {
    if e.contents.Children? then e.contents.entries else []
  }

  predicate Has(e: Entry, at: Position)
    decreases |at|
  {
    at == [] || (at[0] < |Kids(e)| && Has(Kids(e)[at[0]], at[1..]))
  }

  function At(e: Entry, at: Position): Entry
    requires Has(e, at)
    decreases |at|
  {
    if at == [] then e else At(Kids(e)[at[0]], at[1..])
  }

  function Put(e: Entry, at: Position, x: Entry): Entry
    requires Has(e, at)
    decreases |at|
  {
    if at == [] then x
    else e.(contents := Children(Kids(e)[at[0] := Put(Kids(e)[at[0]], at[1..], x)]))
  }

  /** The index of the first entry of that name. */
  function Named(entries: seq<Entry>, name: string): (k: Option<nat>)
    ensures k.Some? ==> k.value < |entries| && entries[k.value].name == name
  {
    if entries == [] then None
    else if entries[0].name == name then Some(0)
    else
      var k := Named(entries[1..], name);
      if k.None? then None else Some(k.value + 1)
  }

  /** Where the names lead when no entry on the way is a link. */
  function Locate(e: Entry, names: seq<string>): (at: Option<Position>)
    ensures at.Some? ==> Has(e, at.value)
    decreases |names|
  {
    if names == [] then Some([])
    else
      var k := Named(Kids(e), names[0]);
      if k.None? then None
      else
        var below := Locate(Kids(e)[k.value], names[1..]);
        if below.None? then None else Some([k.value] + below.value)
  }

  function Lookup(e: Entry, names: seq<string>): Option<Entry> {
    var at := Locate(e, names);
    if at.None? then None else Some(At(e, at.value))
  }

  /** `p` holds of the entry and of everything below it. */
  ghost predicate All(p: Entry -> bool, e: Entry) {
    p(e) && forall k: nat :: k < |Kids(e)| ==> All(p, Kids(e)[k])
  }

  predicate Distinct(entries: seq<Entry>) {
    forall j, k :: 0 <= j < k < |entries| ==> entries[j].name != entries[k].name
  }

  predicate DistinctKids(e: Entry) {
    Distinct(Kids(e))
  }

  predicate NoLink(e: Entry) {
    !e.kind.Link?
  }

  // ---------------------------------------------------------------- names in a list

  lemma {:induction false} NamedFirst(entries: seq<Entry>, name: string, k: nat)
    requires k < |entries| && entries[k].name == name
    requires forall j :: 0 <= j < k ==> entries[j].name != name
    ensures Named(entries, name) == Some(k)
  {
    if k > 0 {
      assert entries[0].name != name;
      NamedFirst(entries[1..], name, k - 1);
    }
  }

  lemma {:induction false} NamedNone(entries: seq<Entry>, name: string)
    ensures Named(entries, name).None? <==> forall j :: 0 <= j < |entries| ==> entries[j].name != name
  {
    if entries != [] {
      NamedNone(entries[1..], name);
      assert forall j :: 0 < j < |entries| ==> entries[j] == entries[1..][j - 1];
    }
  }

  lemma NamedOnly(entries: seq<Entry>, k: nat)
    requires k < |entries| && Distinct(entries)
    ensures Named(entries, entries[k].name) == Some(k)
  {
    NamedFirst(entries, entries[k].name, k);
  }

  // ---------------------------------------------------------------- positions

  lemma {:induction false} AllAt(p: Entry -> bool, e: Entry, at: Position)
    requires All(p, e) && Has(e, at)
    ensures All(p, At(e, at))
    decreases |at|
  {
    if at != [] {
      AllAt(p, Kids(e)[at[0]], at[1..]);
    }
  }

  lemma {:induction false} HasBelow(e: Entry, at: Position, below: Position)
    requires Has(e, at)
    ensures Has(e, at + below) <==> Has(At(e, at), below)
    ensures Has(e, at + below) ==> At(e, at + below) == At(At(e, at), below)
    decreases |at|
  {
    if at == [] {
      assert at + below == below;
    } else {
      assert (at + below)[1..] == at[1..] + below;
      HasBelow(Kids(e)[at[0]], at[1..], below);
    }
  }

  lemma HasKid(e: Entry, at: Position, k: nat)
    requires Has(e, at) && k < |Kids(At(e, at))|
    ensures Has(e, at + [k]) && At(e, at + [k]) == Kids(At(e, at))[k]
  {
    HasOne(At(e, at), k);
    HasBelow(e, at, [k]);
  }

  lemma HasOne(e: Entry, k: nat)
    requires k < |Kids(e)|
    ensures Has(e, [k]) && At(e, [k]) == Kids(e)[k]
  {
    assert [k][1..] == [];
    assert Has(Kids(e)[k], []) && At(Kids(e)[k], []) == Kids(e)[k];
  }

  /** Going on from a place that may not be there. */
  function Onward(e: Entry, at: Option<Position>, more: seq<string>): Option<Position>
    requires at.Some? ==> Has(e, at.value)
  {
    if at.None? then None
    else
      var below := Locate(At(e, at.value), more);
      if below.None? then None else Some(at.value + below.value)
  }

  lemma {:induction false} LocateConcat(e: Entry, names: seq<string>, more: seq<string>)
    ensures Locate(e, names + more) == Onward(e, Locate(e, names), more)
    decreases |names|
  {
    if names == [] {
      assert names + more == more;
      if Locate(e, more).Some? {
        assert [] + Locate(e, more).value == Locate(e, more).value;
      }
    } else {
      LocateHead(e, names);
      LocateHead(e, names + more);
      assert (names + more)[1..] == names[1..] + more;
      var k := Named(Kids(e), names[0]);
      if k.Some? {
        var kid := Kids(e)[k.value];
        LocateConcat(kid, names[1..], more);
        hide Locate;
        if Locate(kid, names[1..]).Some? {
          OnwardBelow(e, k.value, Locate(kid, names[1..]).value, more);
        }
      }
    }
  }

  lemma LocateHead(e: Entry, names: seq<string>)
    requires names != []
    ensures var k := Named(Kids(e), names[0]);
            Locate(e, names) ==
              if k.None? then None
              else var below := Locate(Kids(e)[k.value], names[1..]);
                   if below.None? then None else Some([k.value] + below.value)
  {
  }

  lemma OnwardBelow(e: Entry, k: nat, at: Position, more: seq<string>)
    requires k < |Kids(e)| && Has(Kids(e)[k], at)
    ensures Has(e, [k] + at)
    ensures var below := Onward(Kids(e)[k], Some(at), more);
            Onward(e, Some([k] + at), more) == if below.None? then None else Some([k] + below.value)
  {
    hide Locate;
    assert ([k] + at)[1..] == at;
    assert At(e, [k] + at) == At(Kids(e)[k], at);
    var below := Locate(At(Kids(e)[k], at), more);
    if below.Some? {
      assert [k] + (at + below.value) == [k] + at + below.value;
    }
  }

  /** Looking up in two stages. */
  lemma LookupConcat(e: Entry, names: seq<string>, more: seq<string>)
    ensures Lookup(e, names + more)
            == if Lookup(e, names).None? then None else Lookup(Lookup(e, names).value, more)
  {
    LocateConcat(e, names, more);
    if Locate(e, names).Some? {
      var at := Locate(e, names).value;
      if Locate(At(e, at), more).Some? {
        HasBelow(e, at, Locate(At(e, at), more).value);
      }
    }
  }

  // ---------------------------------------------------------------- changing one subtree

  lemma {:induction false} PutHas(e: Entry, at: Position, x: Entry)
    requires Has(e, at)
    ensures Has(Put(e, at, x), at) && At(Put(e, at, x), at) == x
    decreases |at|
  {
    if at != [] {
      PutHas(Kids(e)[at[0]], at[1..], x);
    }
  }

  lemma {:induction false} PutName(e: Entry, at: Position, x: Entry)
    requires Has(e, at) && x.name == At(e, at).name
    ensures Put(e, at, x).name == e.name
    decreases |at|
  {
  }

  lemma {:induction false} PutDistinct(e: Entry, at: Position, x: Entry)
    requires Has(e, at) && x.name == At(e, at).name
    requires All(DistinctKids, e) && All(DistinctKids, x)
    ensures All(DistinctKids, Put(e, at, x))
    decreases |at|
  {
    if at != [] {
      PutDistinct(Kids(e)[at[0]], at[1..], x);
      PutName(Kids(e)[at[0]], at[1..], x);
    }
  }

  lemma {:induction false} PutNoLink(e: Entry, at: Position, x: Entry)
    requires Has(e, at)
    requires All(NoLink, e) && All(NoLink, x)
    ensures All(NoLink, Put(e, at, x))
    decreases |at|
  {
    if at != [] {
      PutNoLink(Kids(e)[at[0]], at[1..], x);
    }
  }

  lemma {:induction false} PutPut(e: Entry, at: Position, x: Entry, y: Entry)
    requires Has(e, at)
    ensures Has(Put(e, at, x), at) && Put(Put(e, at, x), at, y) == Put(e, at, y)
    decreases |at|
  {
    if at != [] {
      var k, kids := at[0], Kids(e);
      PutPut(kids[k], at[1..], x, y);
      var once := Put(kids[k], at[1..], x);
      assert Kids(Put(e, at, x)) == kids[k := once];
      assert kids[k := once][k := Put(kids[k], at[1..], y)] == kids[k := Put(kids[k], at[1..], y)];
    }
  }

  lemma {:induction false} PutSame(e: Entry, at: Position)
    requires Has(e, at)
    ensures Put(e, at, At(e, at)) == e
    decreases |at|
  {
    if at != [] {
      PutSame(Kids(e)[at[0]], at[1..]);
      var kids := Kids(e);
      assert kids[at[0] := kids[at[0]]] == kids;
    }
  }
}
