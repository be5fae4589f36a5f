/** File handles of the NFS export: opaque tokens that follow a file through renames and are never
    reused. File contents and the operating system's answers come from outside. */
module NfsHandles {
  import opened Common

  const MAX_HANDLES := 65536

  type Path = string
  type Handle = seq<int>
  /** What `os.SameFile` compares. */
  type FileId = int

  const ROOT_HANDLE: Handle := [1, 0, 0, 0, 0, 0, 0, 0, 0, 0, 0, 0, 0, 0, 0, 0]

  datatype Entry = Entry(name: Path, info: FileId)

  /** All handles ever given out, and the current handle of each tracked path. */
  datatype Table = Table(handles: map<Handle, Entry>, paths: map<Path, Handle>)

  const EMPTY := Table(map[], map[])

  // ----- Operations -----

  /** The current handle of the path if it still denotes the same file, else a fresh one. */
  function Wrap(t: Table, name: Path, info: FileId, drawn: Handle): (Table, Option<Handle>) {
    if name in t.paths && t.paths[name] in t.handles && t.handles[t.paths[name]].info == info then (t, Some(t.paths[name]))
    else if |t.handles| >= MAX_HANDLES then (t, None)
    else (Table(t.handles[drawn := Entry(name, info)], t.paths[name := drawn]), Some(drawn))
  }

  function Remove(t: Table, name: Path): Table {
    t.(paths := t.paths - {name})
  }

  /** The path is the renamed one or lies beneath it. */
  predicate Moves(from: Path, name: Path) {
    name == from || from + "/" <= name
  }

  function Moved(from: Path, to: Path, name: Path): Path
    requires Moves(from, name)
  {
    to + name[|from|..]
  }

  /** The tracked paths that a successful rename relocates: the target's own entry is dropped first. */
  function Movers(t: Table, from: Path, to: Path): set<Path> {
    set n | n in t.paths && n != to && Moves(from, n)
  }

  function Targets(t: Table, from: Path, to: Path): set<Path> {
    set n | n in Movers(t, from, to) :: Moved(from, to, n)
  }

  /** The path that a rename takes to `target`. */
  function Source(from: Path, to: Path, target: Path): Path {
    if to <= target then from + target[|to|..] else target
  }

  function RenamedPaths(t: Table, from: Path, to: Path): map<Path, Handle>
  {
    var movers := Movers(t, from, to);
    var targets := Targets(t, from, to);
    map n | n in (t.paths.Keys - {to} - movers) + targets ::
      if n in targets && Source(from, to, n) in t.paths then t.paths[Source(from, to, n)]
      else if n in t.paths then t.paths[n] else []
  }

  function RenamedHandles(t: Table, from: Path, to: Path): map<Handle, Entry> {
    map h | h in t.handles ::
      var e := t.handles[h];
      if e.name in Movers(t, from, to) && t.paths[e.name] == h then e.(name := Moved(from, to, e.name)) else e
  }

  function Rename(t: Table, from: Path, to: Path): Table {
    Table(RenamedHandles(t, from, to), RenamedPaths(t, from, to))
  }

  predicate Current(t: Table, h: Handle) {
    h in t.handles && t.handles[h].name in t.paths && t.paths[t.handles[h].name] == h
  }

  /** `files` is what the operating system reports for each path that can be reached. */
  function Resolve(t: Table, files: map<Path, FileId>, h: Handle): Option<Path> {
    if |h| != 16 then None
    else if h == ROOT_HANDLE then Some("/")
    else if !Current(t, h) then None
    else if t.handles[h].name in files && files[t.handles[h].name] == t.handles[h].info then Some(t.handles[h].name)
    else None
  }

  // ----- The invariant -----

  /** The entry of a tracked path is found by its own handle and names its own path. */
  predicate PathOk(t: Table, name: Path)
    requires name in t.paths
  {
    t.paths[name] in t.handles && t.handles[t.paths[name]].name == name
  }

  ghost predicate Inv(t: Table) {
    && (forall n :: n in t.paths ==> PathOk(t, n))
    && (forall h :: h in t.handles ==> |h| == 16 && h != ROOT_HANDLE)
    && |t.handles| <= MAX_HANDLES
  }

  lemma SourceOfMoved(from: Path, to: Path, name: Path)
    requires Moves(from, name)
    ensures Source(from, to, Moved(from, to, name)) == name
  {
    assert Moved(from, to, name)[|to|..] == name[|from|..];
    assert name == from + name[|from|..];
  }

  /** Where each path's handle is after a rename. */
  lemma RenamedAt(t: Table, from: Path, to: Path, n: Path)
    ensures n in Movers(t, from, to) ==>
              var m := Moved(from, to, n); m in RenamedPaths(t, from, to) && RenamedPaths(t, from, to)[m] == t.paths[n]
    ensures n in RenamedPaths(t, from, to) ==>
              if n in Targets(t, from, to) then
                var s := Source(from, to, n);
                s in Movers(t, from, to) && Moved(from, to, s) == n && RenamedPaths(t, from, to)[n] == t.paths[s]
              else n in t.paths && n != to && n !in Movers(t, from, to) && RenamedPaths(t, from, to)[n] == t.paths[n]
  {
    if n in Movers(t, from, to) {
      SourceOfMoved(from, to, n);
    }
    if n in Targets(t, from, to) {
      var s :| s in Movers(t, from, to) && Moved(from, to, s) == n;
      SourceOfMoved(from, to, s);
    }
  }

  lemma RenameKeeps(t: Table, from: Path, to: Path)
    requires Inv(t)
    ensures Inv(Rename(t, from, to))
  {
    hide RenamedPaths;
    var r := Rename(t, from, to);
    assert r.handles.Keys == t.handles.Keys;
    forall n | n in r.paths ensures PathOk(r, n) {
      RenamedAt(t, from, to, n);
      if n in Targets(t, from, to) {
        assert PathOk(t, Source(from, to, n));
      } else {
        assert PathOk(t, n);
      }
    }
  }

  // ----- What a rename does to each handle -----

  /** After a successful rename, the handle of a tracked path at or beneath the old name is current at
      the corresponding path beneath the new name if and only if that path was not itself the target. */
  lemma RenameFollows(t: Table, from: Path, to: Path, name: Path)
    requires Inv(t) && name in t.paths && Moves(from, name)
    ensures var r := Rename(t, from, to);
            var h := t.paths[name];
            && (Current(r, h) <==> name != to)
            && (name != to ==> r.handles[h] == Entry(Moved(from, to, name), t.handles[h].info))
  {
    hide RenamedPaths;
    var h := t.paths[name];
    assert PathOk(t, name);
    RenamedAt(t, from, to, name);
    if name == to {
      var r := Rename(t, from, to);
      RenameKeepsStale(t, from, to, h);
    }
  }

  lemma RenamedKeys(t: Table, from: Path, to: Path)
    ensures RenamedPaths(t, from, to).Keys == (t.paths.Keys - {to} - Movers(t, from, to)) + Targets(t, from, to)
  {
  }

  /** The handles that a rename does not concern stay current, unless a relocated file took their path. */
  lemma RenameSpares(t: Table, from: Path, to: Path, name: Path)
    requires Inv(t) && name in t.paths && !Moves(from, name)
    ensures var r := Rename(t, from, to);
            var h := t.paths[name];
            && r.handles[h] == t.handles[h]
            && (Current(r, h) <==> name != to && name !in Targets(t, from, to))
  {
    hide RenamedPaths;
    var h := t.paths[name];
    assert PathOk(t, name);
    RenamedAt(t, from, to, name);
    if name in RenamedPaths(t, from, to) && name in Targets(t, from, to) {
      assert PathOk(t, Source(from, to, name));
    }
    if name !in Targets(t, from, to) && name != to {
      NotRelocated(t, from, to, name);
    }
  }

  lemma NotRelocated(t: Table, from: Path, to: Path, name: Path)
    requires name in t.paths && name != to && name !in Movers(t, from, to)
    ensures name in RenamedPaths(t, from, to)
  {
  }

  /** The path of a dropped entry, as in a rename onto itself, is no longer reachable by its handle. */
  lemma RenameKeepsStale(t: Table, from: Path, to: Path, h: Handle)
    requires Inv(t) && h in t.handles && (!Current(t, h) || t.handles[h].name == to)
    ensures !Current(Rename(t, from, to), h)
  {
    hide RenamedPaths;
    var r := Rename(t, from, to);
    var name := r.handles[h].name;
    assert r.handles[h] == t.handles[h];
    if name in r.paths {
      RenamedAt(t, from, to, name);
      if name in Targets(t, from, to) {
        assert PathOk(t, Source(from, to, name));
      } else {
        assert PathOk(t, name);
      }
    }
  }

  /** Renaming a path to itself loses the handle of that path, though the file has not moved. */
  lemma SelfRenameDropsHandle(t: Table, files: map<Path, FileId>, name: Path)
    requires Inv(t) && name in t.paths
    ensures Resolve(Rename(t, name, name), files, t.paths[name]) == None
  {
    hide Rename;
    assert PathOk(t, name);
    RenameFollows(t, name, name, name);
  }

  // ----- Runs -----

  /** One locked change of the table. `ok` says whether the operating system performed the operation;
      `drawn` is the random handle drawn for a file that needs one. */
  datatype Event =
    | WrapCall(name: Path, info: FileId, drawn: Handle)
    | RemoveCall(name: Path, ok: bool)
    | RenameCall(from: Path, to: Path, ok: bool)

  function Next(t: Table, e: Event): Table {
    match e
    case WrapCall(name, info, drawn) => Wrap(t, name, info, drawn).0
    case RemoveCall(name, ok) => if ok then Remove(t, name) else t
    case RenameCall(from, to, ok) => if ok then Rename(t, from, to) else t
  }

  /** Random handles do not repeat. */
  ghost predicate Steps(t: Table, e: Event, after: Table) {
    && (e.WrapCall? ==> |e.drawn| == 16 && e.drawn != ROOT_HANDLE && e.drawn !in t.handles)
    && after == Next(t, e)
  }

  ghost predicate IsRun(states: seq<Table>, events: seq<Event>) {
    && |states| == |events| + 1 && states[0] == EMPTY
    && forall k {:trigger events[k]} :: 0 <= k < |events| ==> Steps(states[k], events[k], states[k + 1])
  }

  lemma WrapKeeps(t: Table, name: Path, info: FileId, drawn: Handle)
    requires Inv(t) && |drawn| == 16 && drawn != ROOT_HANDLE && drawn !in t.handles
    ensures Inv(Wrap(t, name, info, drawn).0)
  {
    var r := Wrap(t, name, info, drawn).0;
    if r != t {
      assert r.handles.Keys == t.handles.Keys + {drawn};
      forall n | n in r.paths ensures PathOk(r, n) {
        if n != name {
          assert PathOk(t, n);
        }
      }
    }
  }

  lemma RemoveKeeps(t: Table, name: Path)
    requires Inv(t)
    ensures Inv(Remove(t, name))
  {
    var r := Remove(t, name);
    forall n | n in r.paths ensures PathOk(r, n) {
      assert PathOk(t, n);
    }
  }

  lemma StepKeeps(t: Table, e: Event, after: Table)
    requires Inv(t) && Steps(t, e, after)
    ensures Inv(after)
  {
    hide Inv, Wrap, Remove, Rename;
    match e
    case WrapCall(name, info, drawn) => WrapKeeps(t, name, info, drawn);
    case RemoveCall(name, ok) => RemoveKeeps(t, name);
    case RenameCall(from, to, ok) => RenameKeeps(t, from, to);
  }

  /** In every run each tracked path is named by its entry and found by its own handle. */
  lemma {:induction false} RunKeeps(states: seq<Table>, events: seq<Event>, k: nat)
    requires IsRun(states, events) && k < |states|
    ensures Inv(states[k])
  {
    if k > 0 {
      hide Inv, Next, Steps;
      RunKeeps(states, events, k - 1);
      StepKeeps(states[k - 1], events[k - 1], states[k]);
    }
  }

  /** A handle that is not current never becomes current again, and no handle changes its file. */
  lemma StepKeepsStale(t: Table, e: Event, after: Table, h: Handle)
    requires Inv(t) && Steps(t, e, after) && h in t.handles
    ensures h in after.handles && after.handles[h].info == t.handles[h].info
    ensures !Current(t, h) ==> !Current(after, h)
  {
    if e.RenameCall? && e.ok {
      hide RenamedPaths;
      if !Current(t, h) {
        RenameKeepsStale(t, e.from, e.to, h);
      }
    } else {
      hide Rename;
    }
  }

  lemma {:induction false} StaleForever(states: seq<Table>, events: seq<Event>, i: nat, j: nat, h: Handle)
    requires IsRun(states, events) && i <= j < |states| && h in states[i].handles
    ensures h in states[j].handles && states[j].handles[h].info == states[i].handles[h].info
    ensures !Current(states[i], h) ==> !Current(states[j], h)
    decreases j - i
  {
    hide Inv, Next, Current;
    if i < j {
      assert Steps(states[i], events[i], states[i + 1]);
      RunKeeps(states, events, i);
      StepKeepsStale(states[i], events[i], states[i + 1], h);
      StaleForever(states, events, i + 1, j, h);
    }
  }

  /** How a handle is dropped: its path is removed, given to another file, or overwritten by a rename. */
  ghost predicate Drops(t: Table, e: Event, h: Handle) {
    Current(t, h) && !Current(Next(t, e), h)
  }

  /** A dropped handle resolves at no later point of any run, whatever files there are by then. */
  lemma DroppedNeverResolves(states: seq<Table>, events: seq<Event>, i: nat, j: nat, h: Handle, files: map<Path, FileId>)
    requires IsRun(states, events) && i < j < |states| && Drops(states[i], events[i], h)
    ensures Resolve(states[j], files, h) == None
  {
    assert Steps(states[i], events[i], states[i + 1]);
    RunKeeps(states, events, i);
    RunKeeps(states, events, j);
    hide Next;
    StepKeepsStale(states[i], events[i], states[i + 1], h);
    StaleForever(states, events, i + 1, j, h);
  }

  /** Exactly which handles a step drops. */
  lemma WhatDrops(t: Table, e: Event, after: Table, h: Handle)
    requires Inv(t) && Steps(t, e, after) && Current(t, h)
    ensures var name := t.handles[h].name;
            Drops(t, e, h) <==>
              match e
              case RemoveCall(n, ok) => ok && n == name
              case WrapCall(n, info, _) => n == name && t.handles[h].info != info && |t.handles| < MAX_HANDLES
              case RenameCall(from, to, ok) =>
                ok && (name == to || (!Moves(from, name) && name in Targets(t, from, to)))
  {
    var name := t.handles[h].name;
    if e.RenameCall? && e.ok {
      hide RenamedPaths, RenamedHandles, Targets;
      if Moves(e.from, name) {
        RenameFollows(t, e.from, e.to, name);
      } else {
        RenameSpares(t, e.from, e.to, name);
      }
    } else {
      hide Rename;
    }
  }

  /** Where an operation takes a path. */
  function PathAfterStep(e: Event, name: Path): Path {
    if e.RenameCall? && e.ok && Moves(e.from, name) then Moved(e.from, e.to, name) else name
  }

  /** Where a sequence of operations takes a path, one rename after the other. */
  function PathAfter(events: seq<Event>, name: Path): Path {
    if events == [] then name else PathAfter(events[1..], PathAfterStep(events[0], name))
  }

  lemma StepFollows(t: Table, e: Event, after: Table, h: Handle)
    requires Inv(t) && Steps(t, e, after) && Current(t, h) && !Drops(t, e, h)
    ensures Current(after, h) && after.handles[h] == Entry(PathAfterStep(e, t.handles[h].name), t.handles[h].info)
  {
    var name := t.handles[h].name;
    if e.RenameCall? && e.ok {
      hide RenamedPaths, RenamedHandles, Targets;
      if Moves(e.from, name) {
        RenameFollows(t, e.from, e.to, name);
      } else {
        RenameSpares(t, e.from, e.to, name);
      }
    } else {
      hide Rename;
    }
  }

  /** Over every run: a handle that no step drops is current at the path that the renames, composed, lead to. */
  lemma {:induction false} HandleFollows(states: seq<Table>, events: seq<Event>, i: nat, j: nat, h: Handle)
    requires IsRun(states, events) && i <= j < |states| && Current(states[i], h)
    requires forall k :: i <= k < j ==> !Drops(states[k], events[k], h)
    ensures Current(states[j], h)
    ensures states[j].handles[h] == Entry(PathAfter(events[i..j], states[i].handles[h].name), states[i].handles[h].info)
    decreases j - i
  {
    hide Inv, Next, Current, PathAfterStep;
    if i < j {
      assert Steps(states[i], events[i], states[i + 1]);
      RunKeeps(states, events, i);
      assert !Drops(states[i], events[i], h);
      StepFollows(states[i], events[i], states[i + 1], h);
      HandleFollows(states, events, i + 1, j, h);
      assert events[i..j][1..] == events[i + 1..j];
    }
  }

  /** What a current handle resolves to at any later point of any run: nothing once a step has dropped it,
      and otherwise the path that the renames lead to, as long as its own file is there. */
  lemma ResolvesTo(states: seq<Table>, events: seq<Event>, i: nat, j: nat, h: Handle, files: map<Path, FileId>)
    requires IsRun(states, events) && i <= j < |states| && Current(states[i], h)
    ensures var name := PathAfter(events[i..j], states[i].handles[h].name);
            var lost := exists k :: i <= k < j && Drops(states[k], events[k], h);
            Resolve(states[j], files, h) ==
            if !lost && name in files && files[name] == states[i].handles[h].info then Some(name) else None
  {
    hide Next, Steps, PathAfter;
    RunKeeps(states, events, j);
    if k :| i <= k < j && Drops(states[k], events[k], h) {
      DroppedNeverResolves(states, events, k, j, h, files);
    } else {
      HandleFollows(states, events, i, j, h);
    }
  }

  /** A handle denotes one file for ever: in any run, whatever it resolves to later is a path at which
      the operating system reports the very file it was given out for. */
  lemma HandleKeepsFile(states: seq<Table>, events: seq<Event>, i: nat, j: nat, files: map<Path, FileId>)
    requires IsRun(states, events) && i < j < |states| && events[i].WrapCall?
    requires Wrap(states[i], events[i].name, events[i].info, events[i].drawn).1.Some?
    ensures var h := Wrap(states[i], events[i].name, events[i].info, events[i].drawn).1.value;
            var r := Resolve(states[j], files, h);
            r.Some? ==> r.value in files && files[r.value] == events[i].info
  {
    hide Wrap, Next, Inv, Resolve;
    var h := Wrap(states[i], events[i].name, events[i].info, events[i].drawn).1.value;
    assert Steps(states[i], events[i], states[i + 1]);
    RunKeeps(states, events, i);
    WrapRecords(states[i], events[i]);
    StaleForever(states, events, i + 1, j, h);
    ResolvedFile(states[j], files, h);
  }

  lemma WrapRecords(t: Table, e: Event)
    requires Inv(t) && e.WrapCall? && e.drawn != ROOT_HANDLE && Wrap(t, e.name, e.info, e.drawn).1.Some?
    ensures var h := Wrap(t, e.name, e.info, e.drawn).1.value;
            h != ROOT_HANDLE && h in Next(t, e).handles && Next(t, e).handles[h].info == e.info
  {
  }

  lemma ResolvedFile(t: Table, files: map<Path, FileId>, h: Handle)
    requires h in t.handles && h != ROOT_HANDLE
    ensures var r := Resolve(t, files, h); r.Some? ==> r.value in files && files[r.value] == t.handles[h].info
  {
  }

  /** Exactly when a file is given a handle, and which: the path's own one if it is tracked for this very
      file, with nothing changed; else the one drawn, current at the path from now on, while every other
      path keeps its own, as long as the table is not full. */
  lemma WrapGives(t: Table, name: Path, info: FileId, drawn: Handle)
    requires Inv(t) && drawn !in t.handles
    ensures var (r, h) := Wrap(t, name, info, drawn);
            var tracked := name in t.paths && t.handles[t.paths[name]].info == info;
            && (h.Some? <==> tracked || |t.handles| < MAX_HANDLES)
            && (h.None? || tracked ==> r == t)
            && (tracked ==> h == Some(t.paths[name]) && Current(t, t.paths[name]))
            && (h.Some? && !tracked ==>
                  && h == Some(drawn) && Current(r, drawn) && r.handles[drawn] == Entry(name, info)
                  && (forall k :: k in t.handles ==> k in r.handles && r.handles[k] == t.handles[k])
                  && (forall n :: n != name ==> (n in r.paths <==> n in t.paths) && (n in t.paths ==> r.paths[n] == t.paths[n])))
  {
    assert name in t.paths ==> PathOk(t, name);
  }

  /** A handle just given out resolves to its path while the file is there. */
  lemma WrappedResolves(t: Table, name: Path, info: FileId, drawn: Handle, files: map<Path, FileId>)
    requires Inv(t) && |drawn| == 16 && drawn != ROOT_HANDLE && drawn !in t.handles
    requires name in files && files[name] == info
    ensures var (r, h) := Wrap(t, name, info, drawn);
            h.Some? ==> Resolve(r, files, h.value) == Some(name)
  {
    assert name in t.paths ==> PathOk(t, name);
  }

  // ----- The implementation: two maps that share mutable entries -----

  class HandleEntry {
    var name: Path
    const info: FileId
    const handle: Handle

    constructor (name: Path, info: FileId, handle: Handle)
      ensures this.name == name && this.info == info && this.handle == handle
    {
      this.name, this.info, this.handle := name, info, handle;
    }
  }

  class Filesystem {
    var handles: map<Handle, HandleEntry>
    var paths: map<Path, HandleEntry>

    ghost predicate Shared()
      reads this
    {
      && (forall h :: h in handles ==> handles[h].handle == h)
      && (forall n :: n in paths ==> paths[n].handle in handles && handles[paths[n].handle] == paths[n])
    }

    ghost function View(): Table
      requires Shared()
      reads this, handles.Values
    {
      Table(map h | h in handles :: Entry(handles[h].name, handles[h].info), map n | n in paths :: paths[n].handle)
    }

    /** The fields hold table `t`, entry by entry. */
    ghost predicate Shows(t: Table)
      reads this, handles.Values, paths.Values
    {
      && t.handles.Keys == handles.Keys && t.paths.Keys == paths.Keys
      && (forall h :: h in handles ==> t.handles[h] == Entry(handles[h].name, handles[h].info))
      && (forall n :: n in paths ==> t.paths[n] == paths[n].handle)
    }

    lemma ShowsView(t: Table)
      requires Shared()
      ensures Shows(t) <==> View() == t
    {
      if Shows(t) {
        assert View().handles == t.handles;
        assert View().paths == t.paths;
      }
    }

    ghost predicate Valid()
      reads this, handles.Values
    {
      Shared() && Inv(View())
    }

    constructor ()
      ensures Valid() && View() == EMPTY
    {
      handles := map[];
      paths := map[];
    }

    method WrapFile(name: Path, info: FileId, drawn: Handle) returns (r: Option<Handle>)
      requires Valid() && |drawn| == 16 && drawn != ROOT_HANDLE && drawn !in handles
      modifies this
      ensures Valid() && (View(), r) == Wrap(old(View()), name, info, drawn)
      ensures fresh(handles.Values - old(handles.Values))
    {
      hide Inv, View;
      ghost var before := View();
      ShowsView(before);
      WrapKeeps(before, name, info, drawn);
      assert |before.handles| == |before.handles.Keys| == |handles.Keys| == |handles|;
      if name !in paths || paths[name].info != info {
        if |handles| >= MAX_HANDLES {
          return None;
        }
        var entry := new HandleEntry(name, info, drawn);
        AddEntry(entry);
        return Some(drawn);
      }
      return Some(paths[name].handle);
    }

    method AddEntry(entry: HandleEntry)
      requires Shared() && entry.handle !in handles && entry !in handles.Values
      modifies this
      ensures Shared() && handles == old(handles)[entry.handle := entry]
      ensures View() == Table(old(View()).handles[entry.handle := Entry(entry.name, entry.info)], old(View()).paths[entry.name := entry.handle])
    {
      hide View;
      ghost var before := View();
      ShowsView(before);
      paths := paths[entry.name := entry];
      handles := handles[entry.handle := entry];
      ShowsView(Table(before.handles[entry.handle := Entry(entry.name, entry.info)], before.paths[entry.name := entry.handle]));
    }

    method RemovePath(name: Path)
      requires Valid()
      modifies this`paths
      ensures Valid() && View() == Remove(old(View()), name)
    {
      hide Inv, View;
      ghost var before := View();
      ShowsView(before);
      RemoveKeeps(before, name);
      paths := paths - {name};
      ShowsView(Remove(before, name));
    }

    /** How far the paths at or beneath `from` have been taken out of `original`, with the rest in
        `left`; `was` has the names that entries had at first. */
    ghost predicate Progress(original: map<Path, HandleEntry>, was: map<Handle, Path>, left: map<Path, HandleEntry>,
                             updates: map<Path, HandleEntry>, from: Path, to: Path)
      reads this`handles, handles.Values, original.Values
    {
      && (forall n :: n in original ==> Origin(original, was, n))
      && (forall n :: n in left ==> Kept(original, left, n))
      && (forall n :: n in original && n !in left ==> TakenTo(original, updates, from, to, n))
      && (forall m :: m in updates ==> Relocated(original, from, to, m))
      && (forall h :: h in handles ==> h in was && (handles[h].name == was[h] || Taken(original, from, h)))
    }

    ghost predicate Origin(original: map<Path, HandleEntry>, was: map<Handle, Path>, n: Path)
      requires n in original
      reads this`handles
    {
      var h := original[n].handle;
      h in was && was[h] == n && h in handles && handles[h] == original[n]
    }

    method TakeOne(name: Path, oldName: Path, newName: Path, updates: map<Path, HandleEntry>,
                   ghost original: map<Path, HandleEntry>, ghost was: map<Handle, Path>)
      returns (r: map<Path, HandleEntry>)
      requires Shared() && name in paths && Moves(oldName, name) && Progress(original, was, paths, updates, oldName, newName)
      modifies this`paths, paths.Values
      ensures Shared() && paths == old(paths) - {name} && Progress(original, was, paths, r, oldName, newName)
    {
      hide Moves, Moved, Relocated, Taken;
      var entry := paths[name];
      assert Kept(original, paths, name);
      MovedApart(original, oldName, newName, name);
      paths := paths - {name};
      entry.name := Moved(oldName, newName, name);
      r := updates[entry.name := entry];
      forall h | h in handles ensures handles[h].name == was[h] || Taken(original, oldName, h) {
        if handles[h] == entry {
          assert handles[h].handle == h;
        } else {
          assert handles[h].name == old(handles[h].name);
        }
      }
      forall n | n in paths ensures Kept(original, paths, n) {
        assert old(Kept(original, paths, n));
      }
      forall n | n in original && n !in paths ensures TakenTo(original, r, oldName, newName, n) {
        if n != name {
          assert Origin(original, was, n) && Origin(original, was, name);
          assert old(TakenTo(original, updates, oldName, newName, n));
        }
      }
    }

    /** Takes the paths at or beneath `oldName` out of the table and renames their entries. */
    method TakeOut(oldName: Path, newName: Path, ghost was: map<Handle, Path>) returns (updates: map<Path, HandleEntry>)
      requires Shared() && Progress(paths, was, paths, map[], oldName, newName)
      modifies this`paths, paths.Values
      ensures Shared() && Progress(old(paths), was, paths, updates, oldName, newName)
      ensures paths.Keys == set n | n in old(paths) && !Moves(oldName, n)
    {
      hide Moves, Progress;
      ghost var original := paths;
      updates := map[];
      var pending := paths.Keys;
      while pending != {}
        invariant pending <= paths.Keys <= original.Keys && Shared()
        invariant forall n :: n in paths ==> paths[n] == original[n]
        invariant forall n :: n in original && n !in paths ==> Moves(oldName, n)
        invariant forall n :: n in paths && n !in pending ==> !Moves(oldName, n)
        invariant Progress(original, was, paths, updates, oldName, newName)
        decreases |pending|
      {
        var name :| name in pending;
        pending := pending - {name};
        if Moves(oldName, name) {
          updates := TakeOne(name, oldName, newName, updates, original, was);
        }
      }
    }

    method PutBack(updates: map<Path, HandleEntry>)
      requires Shared() && forall n :: n in updates ==> updates[n].handle in handles && handles[updates[n].handle] == updates[n]
      modifies this`paths
      ensures Shared() && paths == old(paths) + updates
    {
      var names := updates.Keys;
      while names != {}
        invariant names <= updates.Keys && Shared()
        invariant paths == old(paths) + (map n | n in updates && n !in names :: updates[n])
        decreases |names|
      {
        var name :| name in names;
        names := names - {name};
        paths := paths[name := updates[name]];
      }
    }

    /** The table part of a rename that the operating system has performed. */
    method RenamePath(oldName: Path, newName: Path)
      requires Valid()
      modifies this`paths, handles.Values
      ensures Valid() && View() == Rename(old(View()), oldName, newName)
    {
      hide View, Moves, Inv, Progress, Begun, Shows, Rename;
      ghost var before := View();
      RenameKeeps(before, oldName, newName);
      RemovePath(newName);
      ghost var was := StartProgress(before, oldName, newName);
      ghost var original := paths;
      var updates := TakeOut(oldName, newName, was);
      ghost var left := paths;
      Waiting(original, was, left, updates, oldName, newName);
      PutBack(updates);
      EndShows(before, original, was, left, updates, oldName, newName);
      ShowsView(Rename(before, oldName, newName));
    }

    lemma EndShows(before: Table, original: map<Path, HandleEntry>, was: map<Handle, Path>, left: map<Path, HandleEntry>,
                   updates: map<Path, HandleEntry>, from: Path, to: Path)
      requires Done(before, original, was, left, updates, from, to) && paths == left + updates
      ensures Shows(Rename(before, from, to))
    {
      hide Done, RenamedPaths, RenamedHandles;
      EndHandles(before, original, was, left, updates, from, to);
      EndPaths(before, original, was, left, updates, from, to);
    }

    lemma StartProgress(before: Table, from: Path, to: Path) returns (was: map<Handle, Path>)
      requires Shared() && View() == Remove(before, to) && Inv(View())
      ensures Progress(paths, was, paths, map[], from, to) && Begun(before, paths, was, to)
    {
      hide Moves, Taken, Inv;
      ShowsView(View());
      hide View;
      was := map h | h in handles :: handles[h].name;
      OwnNames(View());
    }

    lemma OwnNames(t: Table)
      requires Shared() && Shows(t) && Inv(t)
      ensures forall n :: n in paths ==> paths[n].name == n
    {
      forall n | n in paths ensures paths[n].name == n {
        assert PathOk(t, n);
      }
    }

    /** What `original` and `was` have to do with the table before the rename. */
    ghost predicate Begun(before: Table, original: map<Path, HandleEntry>, was: map<Handle, Path>, to: Path)
      reads this`handles
    {
      && original.Keys == before.paths.Keys - {to}
      && (forall n :: n in original ==> before.paths[n] == original[n].handle)
      && before.handles.Keys == handles.Keys
      && (forall h :: h in handles ==> h in was && before.handles[h] == Entry(was[h], handles[h].info))
    }

    /** The entries waiting under `m` are the tabled ones of the paths that move there. */
    lemma Waiting(original: map<Path, HandleEntry>, was: map<Handle, Path>, left: map<Path, HandleEntry>,
                  updates: map<Path, HandleEntry>, from: Path, to: Path)
      requires Progress(original, was, left, updates, from, to)
      requires left.Keys == set n | n in original && !Moves(from, n)
      ensures forall m :: m in updates ==>
                var s := Source(from, to, m);
                s in original && updates[m] == original[s] && updates[m].handle in handles && handles[updates[m].handle] == updates[m]
    {
      hide Moves, Source, Taken, Moved;
      forall m | m in updates
        ensures var s := Source(from, to, m);
                s in original && updates[m] == original[s] && updates[m].handle in handles && handles[updates[m].handle] == updates[m]
      {
        assert Relocated(original, from, to, m);
        assert TakenTo(original, updates, from, to, Source(from, to, m));
        assert Origin(original, was, Source(from, to, m));
      }
    }

    /** All movers have been taken out of the table without the rename's target. */
    ghost predicate Done(before: Table, original: map<Path, HandleEntry>, was: map<Handle, Path>, left: map<Path, HandleEntry>,
                         updates: map<Path, HandleEntry>, from: Path, to: Path)
      reads this`handles, handles.Values, original.Values
    {
      && Progress(original, was, left, updates, from, to)
      && left.Keys == (set n | n in original && !Moves(from, n))
      && Begun(before, original, was, to)
    }

    lemma EndHandles(before: Table, original: map<Path, HandleEntry>, was: map<Handle, Path>, left: map<Path, HandleEntry>,
                     updates: map<Path, HandleEntry>, from: Path, to: Path)
      requires Done(before, original, was, left, updates, from, to)
      ensures var after := RenamedHandles(before, from, to);
              after.Keys == handles.Keys && forall h :: h in handles ==> after[h] == Entry(handles[h].name, handles[h].info)
    {
      hide Moves, Moved, Relocated;
      forall h | h in handles ensures RenamedHandles(before, from, to)[h] == Entry(handles[h].name, handles[h].info) {
        if Taken(original, from, h) {
          var n :| n in original && Moves(from, n) && original[n].handle == h;
          assert TakenTo(original, updates, from, to, n) && Origin(original, was, n);
        }
      }
    }

    lemma EndPaths(before: Table, original: map<Path, HandleEntry>, was: map<Handle, Path>, left: map<Path, HandleEntry>,
                   updates: map<Path, HandleEntry>, from: Path, to: Path)
      requires Done(before, original, was, left, updates, from, to) && paths == left + updates
      ensures var after := RenamedPaths(before, from, to);
              after.Keys == paths.Keys && forall n :: n in paths ==> after[n] == paths[n].handle
    {
      hide Moves, Moved, Source, RenamedPaths, Taken;
      var after := RenamedPaths(before, from, to);
      Waiting(original, was, left, updates, from, to);
      assert updates.Keys == Targets(before, from, to) by {
        forall m | m in updates ensures m in Targets(before, from, to) {
          assert Relocated(original, from, to, m);
        }
        forall n | n in Movers(before, from, to) ensures Moved(from, to, n) in updates {
          assert TakenTo(original, updates, from, to, n);
        }
      }
      RenamedKeys(before, from, to);
      forall n | n in paths ensures n in after && after[n] == paths[n].handle {
        RenamedAt(before, from, to, n);
        if n !in updates {
          assert Kept(original, left, n);
        }
      }
    }

    /** `files` is what the operating system reports. */
    method ResolveHandle(handle: Handle, files: map<Path, FileId>) returns (r: Option<Path>)
      requires Valid()
      ensures r == Resolve(View(), files, handle)
    {
      if |handle| != 16 {
        return None;
      }
      if handle == ROOT_HANDLE {
        return Some("/");
      }
      if handle !in handles {
        return None;
      }
      var entry := handles[handle];
      if entry.name !in paths || paths[entry.name] != entry {
        return None;
      }
      if entry.name !in files || files[entry.name] != entry.info {
        return None;
      }
      return Some(entry.name);
    }
  }

  /** `m` is where a rename takes one of the tracked paths. */
  ghost predicate Relocated(original: map<Path, HandleEntry>, from: Path, to: Path, m: Path) {
    var s := Source(from, to, m);
    s in original && Moves(from, s) && Moved(from, to, s) == m
  }

  ghost predicate Kept(original: map<Path, HandleEntry>, left: map<Path, HandleEntry>, n: Path)
    reads original.Values
  {
    n in original && n in left && left[n] == original[n] && original[n].name == n
  }

  /** The entry of path `n` has been taken out and waits under its new name. */
  ghost predicate TakenTo(original: map<Path, HandleEntry>, updates: map<Path, HandleEntry>, from: Path, to: Path, n: Path)
    reads original.Values
  {
    && n in original && Moves(from, n)
    && var m := Moved(from, to, n); m in updates && updates[m] == original[n] && original[n].name == m
  }

  /** The handle belongs to a tracked path that a rename relocates. */
  ghost predicate Taken(original: map<Path, HandleEntry>, from: Path, h: Handle) {
    exists n :: n in original && Moves(from, n) && original[n].handle == h
  }

  lemma MovedApart(original: map<Path, HandleEntry>, from: Path, to: Path, name: Path)
    requires name in original && Moves(from, name)
    ensures Relocated(original, from, to, Moved(from, to, name)) && Taken(original, from, original[name].handle)
    ensures forall n :: n in original && Moves(from, n) && n != name ==> Moved(from, to, n) != Moved(from, to, name)
  {
    SourceOfMoved(from, to, name);
    forall n | n in original && Moves(from, n) && n != name ensures Moved(from, to, n) != Moved(from, to, name) {
      SourceOfMoved(from, to, n);
    }
  }
}
