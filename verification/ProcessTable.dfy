/** The table of spawned processes: one pid and one watch id per entry, -1 in both when it is free. */
module ProcessTable {
  import opened Watches

  const FREE := -1

  datatype Entries = Entries(pids: seq<int>, watchIds: seq<int>)

  /** The cast of a uint8_t to int8_t. */
  function ToInt8(x: int): int
    requires 0 <= x < 256
  {
    if x < 128 then x else x - 256
  }

  /** The first entry holding a value, or -1. */
  function IndexOf(s: seq<int>, v: int, from: nat): (r: int)
    requires from <= |s|
    ensures r == -1 || from <= r < |s|
    ensures r >= 0 ==> s[r] == v
    ensures forall i :: from <= i < (if r >= 0 then r else |s|) ==> s[i] != v
    decreases |s| - from
  {
    if from == |s| then -1
    else if s[from] == v then from
    else IndexOf(s, v, from + 1)
  }

  /** A watch flagged as a spawn blocker. */
  predicate Blocks(watches: seq<WatchConfig>, w: int) {
    0 <= w < |watches| && watches[w].isActive && watches[w].blockSpawns
  }

  /** Some registered process belongs to an active watch that blocks spawns. */
  predicate BlockerRunning(watchIds: seq<int>, watches: seq<WatchConfig>) {
    exists i :: 0 <= i < |watchIds| && Blocks(watches, watchIds[i])
  }

  /** The same, field by field. */
  lemma {:induction false} BlockerInFields(watchIds: seq<int>, watches: seq<WatchConfig>)
    ensures BlockerRunning(watchIds, watches) <==>
            exists w :: 0 <= w < |watches| && w in watchIds && watches[w].isActive && watches[w].blockSpawns
  {
    if w :| 0 <= w < |watches| && w in watchIds && watches[w].isActive && watches[w].blockSpawns {
      var i :| 0 <= i < |watchIds| && watchIds[i] == w;
      assert Blocks(watches, watchIds[i]);
    }
  }

  class Table {
    const size: nat
    const spawnPids: array<int>
    const spawnWatchIds: array<int>

    ghost predicate Valid()
      reads this
    {
      1 <= size <= 127 && spawnPids.Length == size && spawnWatchIds.Length == size && spawnPids != spawnWatchIds
    }

    ghost function Contents(): Entries
      reads this, spawnPids, spawnWatchIds
    {
      Entries(spawnPids[..], spawnWatchIds[..])
    }

    /** init_process_table */
    constructor (size: nat)
      requires 1 <= size <= 127
      ensures Valid() && this.size == size && fresh(spawnPids) && fresh(spawnWatchIds)
      ensures Contents() == Entries(seq(size, i => FREE), seq(size, i => FREE))
    {
      this.size := size;
      spawnPids := new int[size];
      spawnWatchIds := new int[size];
      new;
      for i := 0 to size
        invariant forall k :: 0 <= k < i ==> spawnPids[k] == FREE && spawnWatchIds[k] == FREE
      {
        spawnPids[i] := FREE;
        spawnWatchIds[i] := FREE;
      }
      assert spawnPids[..] == seq(size, i => FREE) && spawnWatchIds[..] == seq(size, i => FREE);
    }

    /** get_next_available_pt_entry */
    method NextAvailable() returns (r: int)
      requires Valid()
      ensures r == IndexOf(Contents().watchIds, FREE, 0)
    {
      r := Search(FREE);
    }

    /** The loop shared by the lookups: the first entry with this watch id. */
    method Search(id: int) returns (r: int)
      requires Valid()
      ensures r == IndexOf(Contents().watchIds, id, 0)
    {
      var i := 0;
      while i < size
        invariant 0 <= i <= size
        invariant IndexOf(Contents().watchIds, id, 0) == IndexOf(Contents().watchIds, id, i)
      {
        if spawnWatchIds[i] == id {
          return i;
        }
        i := i + 1;
      }
      return -1;
    }

    /** add_process_to_table */
    method Add(i: nat, pid: int, watchIdx: nat)
      requires Valid() && i < size && watchIdx < 256
      modifies spawnPids, spawnWatchIds
      ensures Contents() == Entries(old(spawnPids[..])[i := pid], old(spawnWatchIds[..])[i := ToInt8(watchIdx)])
    {
      spawnPids[i] := pid;
      spawnWatchIds[i] := ToInt8(watchIdx);
    }

    /** remove_process_from_table */
    method Remove(i: nat)
      requires Valid() && i < size
      modifies spawnPids, spawnWatchIds
      ensures Contents() == Entries(old(spawnPids[..])[i := FREE], old(spawnWatchIds[..])[i := FREE])
    {
      spawnPids[i] := FREE;
      spawnWatchIds[i] := FREE;
    }

    /** is_watch_already_spawned */
    method IsWatchAlreadySpawned(watchIdx: nat) returns (b: bool)
      requires Valid() && watchIdx < 256
      ensures b <==> ToInt8(watchIdx) in Contents().watchIds
    {
      var r := Search(ToInt8(watchIdx));
      b := r >= 0;
    }

    /** get_spawn_pid_for_watch */
    method SpawnPidForWatch(watchIdx: nat) returns (pid: int)
      requires Valid() && watchIdx < 256
      ensures var i := IndexOf(Contents().watchIds, ToInt8(watchIdx), 0);
              pid == if i >= 0 then Contents().pids[i] else -1
    {
      var r := Search(ToInt8(watchIdx));
      pid := if r >= 0 then spawnPids[r] else -1;
    }

    /** is_blocker_running */
    method IsBlockerRunning(watchConfig: array<WatchConfig>) returns (b: bool)
      requires Valid() && watchConfig.Length == size
      ensures b <==> exists i, w :: 0 <= i < size && 0 <= w < size && spawnWatchIds[i] == w &&
                                    watchConfig[w].isActive && watchConfig[w].blockSpawns
      ensures b <==> BlockerRunning(Contents().watchIds, watchConfig[..])
    {
      for i := 0 to size
        invariant forall k :: 0 <= k < i ==> !Blocks(watchConfig[..], spawnWatchIds[k])
      {
        if spawnWatchIds[i] != FREE {
          for watchIdx := 0 to size
            invariant forall w :: 0 <= w < watchIdx && w == spawnWatchIds[i] ==> !Blocks(watchConfig[..], w)
          {
            if watchConfig[watchIdx].isActive && spawnWatchIds[i] == ToInt8(watchIdx) &&
               watchConfig[watchIdx].blockSpawns {
              assert Blocks(watchConfig[..], spawnWatchIds[..][i]);
              return true;
            }
          }
        }
      }
      return false;
    }
  }
}
