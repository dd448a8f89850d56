/** Playlists live in three places: files on disk, the manager's list, and the view model's copy. */
module Playlists {
  import opened Common

  datatype Source = Local | Community

  datatype PlaylistItem = PlaylistItem(id: string, source: Source, path: Option<string>)

  datatype Playlist = Playlist(id: string, name: string, items: seq<PlaylistItem>, interval: int, shuffle: bool)

  /** The files of the directory that decode, by name without the extension; a
      playlist is saved under its id, but nothing ties other files' names to the ids inside. */
  type Disk = map<string, Playlist>

  // ----- Specification -----

  datatype State = State(disk: Disk, memory: seq<Playlist>)

  datatype Op =
    | Create(playlist: Playlist, saveOk: bool)
    | Update(playlist: Playlist, saveOk: bool)
    | Delete(id: string, removeOk: bool)

  predicate Known(memory: seq<Playlist>, id: string) { exists i | 0 <= i < |memory| :: memory[i].id == id }

  /** The first playlist with the id of `p` becomes `p`. */
  function Replaced(memory: seq<Playlist>, p: Playlist): seq<Playlist> {
    if memory == [] then []
    else if memory[0].id == p.id then [p] + memory[1..]
    else [memory[0]] + Replaced(memory[1..], p)
  }

  function Removed(memory: seq<Playlist>, id: string): seq<Playlist> {
    if memory == [] then []
    else if memory[0].id == id then Removed(memory[1..], id)
    else [memory[0]] + Removed(memory[1..], id)
  }

  /** A failing save throws before memory changes; a failing removal is ignored. */
  function Step(s: State, op: Op): State {
    match op
    case Create(p, saveOk) =>
      if saveOk then State(s.disk[p.id := p], s.memory + [p]) else s
    case Update(p, saveOk) =>
      if saveOk then State(s.disk[p.id := p], Replaced(s.memory, p)) else s
    case Delete(id, removeOk) =>
      State(if removeOk then s.disk - {id} else s.disk, Removed(s.memory, id))
  }

  function NewPlaylist(id: string, name: string): Playlist { Playlist(id, name, [], 0, false) }

  /** A list holds exactly what the files hold, each id once. */
  predicate Holds(memory: seq<Playlist>, disk: Disk) {
    && DistinctIds(memory)
    && (forall p | p in memory :: p.id in disk && disk[p.id] == p)
    && (forall id | id in disk :: disk[id].id == id && disk[id] in memory)
  }

  predicate DistinctIds(memory: seq<Playlist>) {
    forall i, j | 0 <= i < j < |memory| :: memory[i].id != memory[j].id
  }

  /** Every file is named after the playlist in it. */
  predicate WellNamed(disk: Disk) { forall id | id in disk :: disk[id].id == id }

  /** The list is what the files named in `names` hold, and these are all the files, each once. */
  ghost predicate Loaded(names: seq<string>, memory: seq<Playlist>, disk: Disk) {
    && |names| == |memory| && Distinct(names)
    && (forall name :: name in names <==> name in disk)
    && (forall i | 0 <= i < |names| && names[i] in disk :: memory[i] == disk[names[i]])
  }

  /** A freshly loaded list agrees with the files exactly when every file is named after the
      playlist in it. */
  lemma LoadAgreesExactly(names: seq<string>, memory: seq<Playlist>, disk: Disk)
    requires Loaded(names, memory, disk)
    ensures Holds(memory, disk) <==> WellNamed(disk)
  {
  }

  // ----- The manager -----

  class PlaylistManager {
    var disk: Disk
    var playlists: seq<Playlist>

    constructor (disk: Disk)
      ensures this.disk == disk && exists names :: Loaded(names, playlists, disk)
      ensures Holds(playlists, disk) <==> WellNamed(disk)
    {
      this.disk := disk;
      new;
      playlists := LoadAll(disk);
      ghost var names :| Loaded(names, playlists, disk);
      LoadAgreesExactly(names, playlists, disk);
    }

    /** The directory is read in no particular order. */
    static method LoadAll(disk: Disk) returns (loaded: seq<Playlist>)
      ensures exists names :: Loaded(names, loaded, disk)
    {
      loaded := [];
      ghost var names: seq<string> := [];
      var rest := disk.Keys;
      while rest != {}
        invariant rest <= disk.Keys
        invariant |names| == |loaded| && Distinct(names)
        invariant forall name :: name in names <==> name in disk && name !in rest
        invariant forall i | 0 <= i < |names| && names[i] in disk :: loaded[i] == disk[names[i]]
        decreases rest
      {
        var name :| name in rest;
        loaded := loaded + [disk[name]];
        names := names + [name];
        rest := rest - {name};
      }
      assert Loaded(names, loaded, disk);
    }

    ghost function Abs(): State
      reads this
    {
      State(disk, playlists)
    }

    method Save(p: Playlist, saveOk: bool) returns (ok: bool)
      modifies this`disk
      ensures ok == saveOk && disk == if saveOk then old(disk)[p.id := p] else old(disk)
    {
      if saveOk { disk := disk[p.id := p]; }
      return saveOk;
    }

    /** `newId` is the fresh UUID. */
    method Create(name: string, newId: string, saveOk: bool) returns (r: Option<Playlist>)
      modifies this
      ensures Abs() == Step(old(Abs()), Op.Create(NewPlaylist(newId, name), saveOk))
      ensures r == if saveOk then Some(NewPlaylist(newId, name)) else None
      ensures r.Some? ==>
        var p := r.value;
        p.id == newId && p.name == name && p.items == [] && p.interval == 0 && !p.shuffle
    {
      var playlist := NewPlaylist(newId, name);
      var saved := Save(playlist, saveOk);
      if !saved { return None; }
      playlists := playlists + [playlist];
      return Some(playlist);
    }

    method Delete(id: string, removeOk: bool)
      modifies this
      ensures Abs() == Step(old(Abs()), Op.Delete(id, removeOk))
    {
      if removeOk { disk := disk - {id}; }
      playlists := Removed(playlists, id);
    }

    method Update(p: Playlist, saveOk: bool) returns (ok: bool)
      modifies this
      ensures Abs() == Step(old(Abs()), Op.Update(p, saveOk))
      ensures ok == saveOk
    {
      var saved := Save(p, saveOk);
      if !saved { return false; }
      var i := 0;
      while i < |playlists| && playlists[i].id != p.id
        invariant 0 <= i <= |playlists|
        invariant Replaced(playlists, p) == playlists[..i] + Replaced(playlists[i..], p)
      {
        assert playlists[i..][1..] == playlists[i + 1..];
        assert playlists[..i] + [playlists[i]] == playlists[..i + 1];
        i := i + 1;
      }
      if i < |playlists| {
        assert playlists[i..][1..] == playlists[i + 1..];
        assert playlists[i := p] == playlists[..i] + ([p] + playlists[i + 1..]);
        playlists := playlists[i := p];
      } else {
        assert playlists[..i] + [] == playlists;
      }
      return true;
    }
  }

  // ----- The view model -----

  /** Unicode's space separators, and the tab. */
  predicate IsSpace(c: char) {
    || c in {' ', '\t', '\U{00A0}', '\U{1680}', '\U{202F}', '\U{205F}', '\U{3000}'}
    || '\U{2000}' <= c <= '\U{200A}'
  }

  /** Among the ASCII characters these are the blank and the tab. */
  lemma AsciiSpaces(c: char)
    requires c < '\U{80}'
    ensures IsSpace(c) <==> c == ' ' || c == '\t'
  {
  }

  predicate AllSpaces(s: string) { forall i | 0 <= i < |s| :: IsSpace(s[i]) }

  function Trim(s: string): string
    decreases |s|
  {
    if s != "" && IsSpace(s[0]) then Trim(s[1..])
    else if s != "" && IsSpace(s[|s| - 1]) then Trim(s[..|s| - 1])
    else s
  }

  predicate SplitAround(s: string, before: string, middle: string, after: string) {
    s == before + middle + after && AllSpaces(before) && AllSpaces(after)
  }

  lemma SpaceBefore(s: string, before: string, middle: string, after: string)
    requires s != "" && IsSpace(s[0]) && SplitAround(s[1..], before, middle, after)
    ensures SplitAround(s, [s[0]] + before, middle, after)
  {
    assert s == [s[0]] + s[1..];
  }

  lemma SpaceAfter(s: string, before: string, middle: string, after: string)
    requires s != "" && IsSpace(s[|s| - 1]) && SplitAround(s[..|s| - 1], before, middle, after)
    ensures SplitAround(s, before, middle, after + [s[|s| - 1]])
  {
    assert s == s[..|s| - 1] + [s[|s| - 1]];
  }

  lemma {:induction false} TrimSplits(s: string) returns (before: string, after: string)
    ensures SplitAround(s, before, Trim(s), after)
    ensures Trim(s) != "" ==> !IsSpace(Trim(s)[0]) && !IsSpace(Trim(s)[|Trim(s)| - 1])
    decreases |s|
  {
    if s != "" && IsSpace(s[0]) {
      before, after := TrimSplits(s[1..]);
      SpaceBefore(s, before, Trim(s), after);
      before := [s[0]] + before;
    } else if s != "" && IsSpace(s[|s| - 1]) {
      before, after := TrimSplits(s[..|s| - 1]);
      SpaceAfter(s, before, Trim(s), after);
      after := after + [s[|s| - 1]];
    } else {
      before, after := "", "";
    }
  }

  /** Trimming cuts the name out of the spaces around it, and leaves nothing exactly of a blank. */
  lemma TrimCutsSpaces(s: string)
    ensures exists before, after :: SplitAround(s, before, Trim(s), after)
    ensures Trim(s) != "" ==> !IsSpace(Trim(s)[0]) && !IsSpace(Trim(s)[|Trim(s)| - 1])
    ensures Trim(s) == "" <==> AllSpaces(s)
  {
    var before, after := TrimSplits(s);
    if Trim(s) != "" { assert s[|before|] == Trim(s)[0]; }
  }

  class PlaylistsViewModel {
    const manager: PlaylistManager
    var playlists: seq<Playlist>
    var newPlaylistName: string
    var error: Option<string>

    constructor (manager: PlaylistManager)
      ensures this.manager == manager && playlists == [] && newPlaylistName == "" && error == None
    {
      this.manager, playlists, newPlaylistName, error := manager, [], "", None;
    }

    method Load()
      modifies this`playlists
      ensures playlists == manager.playlists
    {
      playlists := manager.playlists;
    }

    method Create(newId: string, saveOk: bool)
      modifies this, manager
      ensures Trim(old(newPlaylistName)) == "" ==>
        manager.Abs() == old(manager.Abs()) && playlists == old(playlists)
        && newPlaylistName == old(newPlaylistName) && error == old(error)
      ensures Trim(old(newPlaylistName)) != "" ==>
        var p := NewPlaylist(newId, Trim(old(newPlaylistName)));
        && manager.Abs() == Step(old(manager.Abs()), Op.Create(p, saveOk))
        && playlists == (if saveOk then old(playlists) + [p] else old(playlists))
        && newPlaylistName == (if saveOk then "" else old(newPlaylistName))
        && error == (if saveOk then old(error) else Some("Failed to create playlist."))
      ensures old(playlists) == old(manager.playlists) ==> playlists == manager.playlists
    {
      var name := Trim(newPlaylistName);
      if name == "" { return; }
      var created := manager.Create(name, newId, saveOk);
      if created.Some? {
        playlists := playlists + [created.value];
        newPlaylistName := "";
      } else {
        error := Some("Failed to create playlist.");
      }
    }

    /** The manager's list is copied afresh after a success. */
    method UpdateShuffle(playlist: Playlist, enabled: bool, saveOk: bool)
      modifies this`playlists, this`error, manager
      ensures manager.Abs() == Step(old(manager.Abs()), Op.Update(playlist.(shuffle := enabled), saveOk))
      ensures playlists == if saveOk then manager.playlists else old(playlists)
      ensures error == if saveOk then old(error) else Some("Failed to update playlist.")
      ensures old(playlists) == old(manager.playlists) ==> playlists == manager.playlists
    {
      var updated := playlist.(shuffle := enabled);
      var ok := manager.Update(updated, saveOk);
      if ok { playlists := manager.playlists; } else { error := Some("Failed to update playlist."); }
    }

    method Delete(playlist: Playlist, removeOk: bool)
      modifies this`playlists, manager
      ensures manager.Abs() == Step(old(manager.Abs()), Op.Delete(playlist.id, removeOk))
      ensures playlists == manager.playlists
    {
      manager.Delete(playlist.id, removeOk);
      playlists := manager.playlists;
    }
  }

  // ----- Agreement -----

  lemma {:induction false} ReplacedIds(memory: seq<Playlist>, p: Playlist)
    ensures |Replaced(memory, p)| == |memory|
    ensures forall i | 0 <= i < |memory| :: Replaced(memory, p)[i].id == memory[i].id
  {
    if memory != [] {
      ReplacedIds(memory[1..], p);
      if memory[0].id != p.id {
        assert forall i | 0 <= i < |memory| - 1 :: Replaced(memory, p)[i + 1] == Replaced(memory[1..], p)[i];
      }
    }
  }

  lemma {:induction false} RemovedMembers(memory: seq<Playlist>, id: string)
    ensures forall p :: p in Removed(memory, id) <==> p in memory && p.id != id
    ensures DistinctIds(memory) ==> DistinctIds(Removed(memory, id))
  {
    if memory != [] {
      RemovedMembers(memory[1..], id);
      assert memory == [memory[0]] + memory[1..];
      if DistinctIds(memory) && memory[0].id != id {
        forall p | p in Removed(memory[1..], id) ensures p.id != memory[0].id {
          var i :| 0 <= i < |memory| - 1 && memory[1..][i] == p;
        }
      }
    }
  }

  lemma {:induction false} RemovedConcat(a: seq<Playlist>, b: seq<Playlist>, id: string)
    ensures Removed(a + b, id) == Removed(a, id) + Removed(b, id)
    decreases |a|
  {
    if a == [] {
      assert a + b == b;
    } else {
      assert (a + b)[1..] == a[1..] + b;
      RemovedConcat(a[1..], b, id);
    }
  }

  lemma {:induction false} RemovedUnknown(memory: seq<Playlist>, id: string)
    requires !Known(memory, id)
    ensures Removed(memory, id) == memory
  {
    if memory != [] {
      assert forall i | 0 <= i < |memory| - 1 :: memory[1..][i] == memory[i + 1];
      RemovedUnknown(memory[1..], id);
    }
  }

  /** A delete cuts the playlist out and keeps the others in their order. */
  lemma RemovedKeepsOrder(a: seq<Playlist>, p: Playlist, b: seq<Playlist>)
    requires !Known(a, p.id) && !Known(b, p.id)
    ensures Removed(a + [p] + b, p.id) == a + b
  {
    RemovedConcat(a + [p], b, p.id);
    RemovedConcat(a, [p], p.id);
    RemovedUnknown(a, p.id);
    RemovedUnknown(b, p.id);
  }

  /** An update puts the new playlist where the first one of its id was, and touches no other. */
  lemma {:induction false} ReplacedInPlace(a: seq<Playlist>, q: Playlist, b: seq<Playlist>, p: Playlist)
    requires !Known(a, p.id) && q.id == p.id
    ensures Replaced(a + [q] + b, p) == a + [p] + b
    decreases |a|
  {
    if a == [] {
      assert a + [q] + b == [q] + b;
    } else {
      assert (a + [q] + b)[1..] == a[1..] + [q] + b;
      assert forall i | 0 <= i < |a| - 1 :: a[1..][i] == a[i + 1];
      assert a[0].id != p.id;
      ReplacedInPlace(a[1..], q, b, p);
      assert [a[0]] + (a[1..] + [p] + b) == a + [p] + b;
    }
  }

  /** The operations that keep disk and memory in step. */
  predicate Harmless(s: State, op: Op) {
    match op
    case Create(_, _) => true
    case Update(p, saveOk) => !saveOk || Known(s.memory, p.id)
    case Delete(id, removeOk) => removeOk || id !in s.disk
  }

  /** A created playlist carries a fresh UUID. */
  predicate FreshId(s: State, op: Op) {
    op.Create? ==> op.playlist.id !in s.disk && !Known(s.memory, op.playlist.id)
  }

  lemma {:induction false} ReplacedKnown(memory: seq<Playlist>, p: Playlist)
    requires DistinctIds(memory) && Known(memory, p.id)
    ensures forall q :: q in Replaced(memory, p) <==> q == p || (q in memory && q.id != p.id)
  {
    var rest := memory[1..];
    assert memory == [memory[0]] + rest;
    if memory[0].id == p.id {
      assert forall q | q in rest :: q.id != p.id;
    } else {
      var k :| 0 <= k < |memory| && memory[k].id == p.id;
      assert rest[k - 1].id == p.id;
      ReplacedKnown(rest, p);
    }
  }

  lemma ReplacedStaysDistinct(memory: seq<Playlist>, p: Playlist)
    requires DistinctIds(memory)
    ensures DistinctIds(Replaced(memory, p))
  {
    ReplacedIds(memory, p);
  }

  lemma KnownUpdateAgrees(s: State, p: Playlist)
    requires Holds(s.memory, s.disk) && Known(s.memory, p.id)
    ensures Holds(Replaced(s.memory, p), s.disk[p.id := p])
  {
    var memory, disk := Replaced(s.memory, p), s.disk[p.id := p];
    ReplacedStaysDistinct(s.memory, p);
    ReplacedKnown(s.memory, p);
    forall q | q in memory ensures q.id in disk && disk[q.id] == q { }
    forall id | id in disk ensures disk[id].id == id && disk[id] in memory { }
  }

  lemma UpdateAgreesExactly(s: State, p: Playlist)
    requires Holds(s.memory, s.disk)
    ensures Holds(Replaced(s.memory, p), s.disk[p.id := p]) <==> Known(s.memory, p.id)
  {
    if Known(s.memory, p.id) {
      KnownUpdateAgrees(s, p);
    } else {
      ReplacedUnknown(s.memory, p);
      assert p !in s.memory;
      assert s.disk[p.id := p][p.id] == p;
    }
  }

  lemma DeleteAgreesExactly(s: State, id: string, removeOk: bool)
    requires Holds(s.memory, s.disk)
    ensures
      var t := Step(s, Delete(id, removeOk));
      Holds(t.memory, t.disk) <==> removeOk || id !in s.disk
  {
    RemovedMembers(s.memory, id);
  }

  lemma CreateAgrees(s: State, p: Playlist)
    requires Holds(s.memory, s.disk) && p.id !in s.disk && !Known(s.memory, p.id)
    ensures Holds(s.memory + [p], s.disk[p.id := p])
  {
    assert (s.memory + [p])[|s.memory|] == p;
  }

  /** From agreement, one operation ends in agreement exactly when it is harmless: any create, an
      update that fails or names a playlist in memory, a delete whose file goes away. */
  lemma StepAgreesExactly(s: State, op: Op)
    requires Holds(s.memory, s.disk) && FreshId(s, op)
    ensures Holds(Step(s, op).memory, Step(s, op).disk) <==> Harmless(s, op)
  {
    match op
    case Create(p, _) => CreateAgrees(s, p);
    case Update(p, saveOk) => UpdateAgreesExactly(s, p);
    case Delete(id, removeOk) => DeleteAgreesExactly(s, id, removeOk);
  }

  function Run(s: State, ops: seq<Op>): State
    decreases |ops|
  {
    if ops == [] then s else Run(Step(s, ops[0]), ops[1..])
  }

  predicate HarmlessThroughout(s: State, ops: seq<Op>)
    decreases |ops|
  {
    ops != [] ==> Harmless(s, ops[0]) && HarmlessThroughout(Step(s, ops[0]), ops[1..])
  }

  predicate FreshThroughout(s: State, ops: seq<Op>)
    decreases |ops|
  {
    ops != [] ==> FreshId(s, ops[0]) && FreshThroughout(Step(s, ops[0]), ops[1..])
  }

  predicate HoldsThroughout(s: State, ops: seq<Op>)
    decreases |ops|
  {
    Holds(s.memory, s.disk) && (ops != [] ==> HoldsThroughout(Step(s, ops[0]), ops[1..]))
  }

  /** Memory and disk agree all through a run if and only if every operation in it is harmless. */
  lemma {:induction false} RunAgreesExactly(s: State, ops: seq<Op>)
    requires Holds(s.memory, s.disk) && FreshThroughout(s, ops)
    ensures HoldsThroughout(s, ops) <==> HarmlessThroughout(s, ops)
    decreases |ops|
  {
    if ops != [] {
      StepAgreesExactly(s, ops[0]);
      if Harmless(s, ops[0]) {
        RunAgreesExactly(Step(s, ops[0]), ops[1..]);
      } else {
        NoLongerHolds(Step(s, ops[0]), ops[1..]);
      }
    }
  }

  lemma NoLongerHolds(s: State, ops: seq<Op>)
    requires !Holds(s.memory, s.disk)
    ensures !HoldsThroughout(s, ops)
  {
  }

  /** After any run of harmless operations, with saves that throw among them, memory holds exactly
      what the files hold; so a fresh load differs from memory only in order. */
  lemma {:induction false} CopiesAgree(s: State, ops: seq<Op>, names: seq<string>, loaded: seq<Playlist>)
    requires Holds(s.memory, s.disk) && FreshThroughout(s, ops) && HarmlessThroughout(s, ops)
    requires Loaded(names, loaded, Run(s, ops).disk)
    ensures Holds(Run(s, ops).memory, Run(s, ops).disk)
    ensures multiset(loaded) == multiset(Run(s, ops).memory)
    decreases |ops|
  {
    if ops != [] {
      StepAgreesExactly(s, ops[0]);
      CopiesAgree(Step(s, ops[0]), ops[1..], names, loaded);
    } else {
      LoadAgreesExactly(names, loaded, s.disk);
      SameUpToOrder(loaded, s.memory, s.disk);
    }
  }

  lemma {:induction false} CountsOnce(memory: seq<Playlist>, p: Playlist)
    requires DistinctIds(memory)
    ensures multiset(memory)[p] == if p in memory then 1 else 0
    decreases |memory|
  {
    if memory != [] {
      var init, last := memory[..|memory| - 1], memory[|memory| - 1];
      CountsOnce(init, p);
      assert memory == init + [last];
    }
  }

  lemma SameUpToOrder(a: seq<Playlist>, b: seq<Playlist>, disk: Disk)
    requires Holds(a, disk) && Holds(b, disk)
    ensures multiset(a) == multiset(b)
  {
    forall p ensures multiset(a)[p] == multiset(b)[p] {
      CountsOnce(a, p);
      CountsOnce(b, p);
      assert p in a <==> p in b;
    }
  }

  lemma {:induction false} ReplacedUnknown(memory: seq<Playlist>, p: Playlist)
    requires !Known(memory, p.id)
    ensures Replaced(memory, p) == memory
  {
    if memory != [] {
      assert memory[0].id != p.id;
      assert forall i | 0 <= i < |memory| - 1 :: memory[1..][i] == memory[i + 1];
      ReplacedUnknown(memory[1..], p);
    }
  }

  /** An update for an id that memory does not know changes the disk only, by exactly that playlist. */
  lemma UnknownUpdateChangesDiskOnly(s: State, p: Playlist)
    requires !Known(s.memory, p.id)
    ensures Step(s, Update(p, true)) == State(s.disk[p.id := p], s.memory)
  {
    ReplacedUnknown(s.memory, p);
  }
}
