/** The reload of the watch table, file by file, as functions on the table's contents. */
module Reconcile {
  import opened CString
  import opened Watches

  /** A file of the directory walk, with the process table's watch ids as they are when it is handled. */
  datatype Visit = Visit(file: ParseResult, spawnedIds: seq<int>)

  /** State of a reload: the slots, new_watch_list with its count, and the update flag. */
  datatype Walk = Walk(table: seq<WatchConfig>, kept: seq<int>, notify: bool)

  /** What a reload does about one file. */
  datatype Verdict =
    | Ignore             // unparseable, or no slot left
    | Reject(slot: nat)  // tried in a free slot, found invalid, slot cleared
    | Insert(slot: nat)
    | Hold(slot: nat)    // matches a running watch: kept as it is
    | Update(slot: nat)
    | Discard(slot: nat) // matches a watch, but is no longer valid

  function Judge(table: seq<WatchConfig>, v: Visit): (d: Verdict)
    ensures d.Ignore? || d.slot < |table|
  {
    match v.file
    case Broken => Ignore
    case Parsed(c) =>
      var matched := FindNamed(table, c.filename, 0);
      if matched < 0 then
        var free := FindInactive(table, 0);
        if free < 0 then Ignore
        else if Complete(c) && !Clashes(table, c.filename, -1) then Insert(free)
        else Reject(free)
      else if matched in v.spawnedIds then Hold(matched)
      else if Complete(c) then Update(matched)
      else Discard(matched)
  }

  /** The slot of a watch after a complete config for the same file was merged into it. */
  function Merged(w: WatchConfig, c: WatchConfig): WatchConfig {
    w.(action := c.action, labelText := c.labelText, hidden := c.hidden, blockSpawns := c.blockSpawns,
       skipDbChecks := c.skipDbChecks, doDbUpdate := c.doDbUpdate,
       dbTitle := if c.doDbUpdate then c.dbTitle else w.dbTitle,
       dbAuthor := if c.doDbUpdate then c.dbAuthor else w.dbAuthor,
       dbComment := if c.doDbUpdate then c.dbComment else w.dbComment)
  }

  function HandleFile(s: Walk, v: Visit): (s': Walk)
    ensures |s'.table| == |s.table|
  {
    match Judge(s.table, v)
    case Ignore => s
    case Reject(i) => s.(table := s.table[i := CLEARED])
    case Insert(i) => Walk(s.table[i := v.file.config.(isActive := true)], s.kept + [i], true)
    case Hold(i) => s.(kept := s.kept + [i])
    case Update(i) =>
      var merged := Merged(s.table[i], v.file.config);
      Walk(s.table[i := merged], s.kept + [i], s.notify || merged != s.table[i])
    case Discard(i) => Walk(s.table[i := CLEARED], s.kept, true)
  }

  /** The first k files of the walk. */
  function WalkTo(table: seq<WatchConfig>, visits: seq<Visit>, k: nat): (s: Walk)
    requires k <= |visits|
    ensures |s.table| == |table|
  {
    if k == 0 then Walk(table, [], false)
    else HandleFile(WalkTo(table, visits, k - 1), visits[k - 1])
  }

  /** new_watch_list has room for one index per slot; that is all the purge looks at. */
  function Listed(kept: seq<int>, size: nat): seq<int> {
    kept[..Min(|kept|, size)]
  }

  predicate Stale(w: WatchConfig, i: int, listed: seq<int>) {
    w.isActive && i !in listed
  }

  /** Every active watch whose config was not met during the walk is cleared. */
  function Purge(s: Walk): (s': Walk)
    ensures |s'.table| == |s.table| && s'.kept == s.kept
    ensures forall i :: 0 <= i < |s.table| ==>
              s'.table[i] == if Stale(s.table[i], i, Listed(s.kept, |s.table|)) then CLEARED else s.table[i]
  {
    var listed := Listed(s.kept, |s.table|);
    Walk(seq(|s.table|, i requires 0 <= i < |s.table| => if Stale(s.table[i], i, listed) then CLEARED else s.table[i]),
         s.kept,
         s.notify || exists i :: 0 <= i < |s.table| && Stale(s.table[i], i, listed))
  }

  function Reload(table: seq<WatchConfig>, visits: seq<Visit>): Walk {
    Purge(WalkTo(table, visits, |visits|))
  }

  /** One slot of the loop that sets the inotify watches up again. */
  function Rewatch(table: seq<WatchConfig>, i: nat, wd: int, missing: bool, spawnedIds: seq<int>): (t: seq<WatchConfig>)
    requires i < |table|
    ensures |t| == |table|
  {
    if !table[i].isActive then table
    else if wd == -1 && !missing && i !in spawnedIds then table[i := CLEARED]
    else table[i := table[i].(inotifyWd := wd)]
  }

  /** What setting up one watch gave: its descriptor, whether the target was missing, and what ran then. */
  datatype Answer = Answer(wd: int, missing: bool, spawnedIds: seq<int>)

  /** The whole loop, over its first k slots. */
  function RewatchTo(table: seq<WatchConfig>, answers: seq<Answer>, k: nat): (t: seq<WatchConfig>)
    requires k <= |table| && k <= |answers|
    ensures |t| == |table|
  {
    if k == 0 then table
    else Rewatch(RewatchTo(table, answers, k - 1), k - 1, answers[k - 1].wd, answers[k - 1].missing,
                 answers[k - 1].spawnedIds)
  }

  /** The start-up load, file by file: valid configs fill the slots in order. */
  datatype Loading = Loading(table: seq<WatchConfig>, count: nat)

  function LoadFile(s: Loading, file: ParseResult): (s': Loading)
    requires s.count <= |s.table|
    ensures |s'.table| == |s.table| && s'.count <= |s.table|
  {
    if s.count == |s.table| then s
    else match file
      case Broken => s.(table := s.table[s.count := CLEARED])
      case Parsed(c) =>
        if Complete(c) && !Clashes(s.table, c.filename, -1) then
          Loading(s.table[s.count := c.(isActive := true)], s.count + 1)
        else s.(table := s.table[s.count := CLEARED])
  }

  function LoadTo(size: nat, files: seq<ParseResult>, k: nat): (s: Loading)
    requires k <= |files|
    ensures |s.table| == size && s.count <= size
  {
    if k == 0 then Loading(seq(size, i => CLEARED), 0)
    else LoadFile(LoadTo(size, files, k - 1), files[k - 1])
  }

  function Load(size: nat, files: seq<ParseResult>): Loading {
    LoadTo(size, files, |files|)
  }

  // ---- the table invariant ----

  /** Clearing a slot, or rewriting it under the same filename, keeps a good table good. */
  lemma {:induction false} ReplaceKeepsTableOk(table: seq<WatchConfig>, i: nat, w: WatchConfig)
    requires TableOk(table) && i < |table|
    requires w.isActive ==> Complete(w)
    requires w.isActive ==> forall j :: 0 <= j < |table| && j != i && table[j].isActive ==>
                              Basename(table[j].filename) != Basename(w.filename)
    ensures TableOk(table[i := w])
  {
  }

  lemma {:induction false} InsertKeepsTableOk(table: seq<WatchConfig>, i: nat, c: WatchConfig)
    requires TableOk(table) && i < |table| && !table[i].isActive
    requires Complete(c) && !Clashes(table, c.filename, -1)
    ensures TableOk(table[i := c.(isActive := true)])
  {
  }

  lemma {:induction false} UpdateKeepsTableOk(table: seq<WatchConfig>, i: nat, c: WatchConfig)
    requires TableOk(table) && i < |table| && Named(table[i], c.filename) && Complete(c)
    ensures TableOk(table[i := Merged(table[i], c)])
  {
  }

  lemma {:induction false} HandleFileKeepsTableOk(s: Walk, v: Visit)
    requires TableOk(s.table)
    ensures TableOk(HandleFile(s, v).table)
  {
    hide TableOk;
    match Judge(s.table, v)
    case Ignore =>
    case Hold(i) =>
    case Reject(i) => ReplaceKeepsTableOk(s.table, i, CLEARED);
    case Discard(i) => ReplaceKeepsTableOk(s.table, i, CLEARED);
    case Insert(i) => InsertKeepsTableOk(s.table, i, v.file.config);
    case Update(i) => UpdateKeepsTableOk(s.table, i, v.file.config);
  }

  lemma {:induction false} ClearingKeepsTableOk(before: seq<WatchConfig>, after: seq<WatchConfig>)
    requires TableOk(before) && |after| == |before|
    requires forall i :: 0 <= i < |before| ==> after[i] == before[i] || after[i] == CLEARED
    ensures TableOk(after)
  {
    hide Complete, Basename;
    assert forall i :: 0 <= i < |after| && after[i].isActive ==> after[i] == before[i];
  }

  lemma {:induction false} PurgeKeepsTableOk(s: Walk)
    requires TableOk(s.table)
    ensures TableOk(Purge(s).table)
  {
    hide TableOk, Purge;
    ClearingKeepsTableOk(s.table, Purge(s).table);
  }

  lemma {:induction false} RewatchKeepsTableOk(table: seq<WatchConfig>, i: nat, wd: int, missing: bool,
                                               spawnedIds: seq<int>)
    requires TableOk(table) && i < |table|
    ensures TableOk(Rewatch(table, i, wd, missing, spawnedIds))
  {
    ReplaceKeepsTableOk(table, i, Rewatch(table, i, wd, missing, spawnedIds)[i]);
  }

  lemma {:induction false} RewatchToKeepsTableOk(table: seq<WatchConfig>, answers: seq<Answer>, k: nat)
    requires TableOk(table) && k <= |table| == |answers|
    ensures TableOk(RewatchTo(table, answers, k))
  {
    hide TableOk, Rewatch;
    if k == 0 {
    } else {
      RewatchToKeepsTableOk(table, answers, k - 1);
      RewatchKeepsTableOk(RewatchTo(table, answers, k - 1), k - 1, answers[k - 1].wd, answers[k - 1].missing,
                          answers[k - 1].spawnedIds);
    }
  }

  /** The first k slots have been dealt with, the others not. */
  lemma {:induction false} RewatchedSlot(table: seq<WatchConfig>, answers: seq<Answer>, k: nat, i: nat)
    requires i < |table| == |answers| && k <= |table|
    ensures RewatchTo(table, answers, k)[i] ==
            if i < k then Rewatch(table, i, answers[i].wd, answers[i].missing, answers[i].spawnedIds)[i] else table[i]
  {
    if k == 0 {
    } else {
      RewatchedSlot(table, answers, k - 1, i);
      RewatchedSlot(table, answers, k - 1, k - 1);
    }
  }

  /** After the loop a watch is gone exactly when its target was there, could not be watched, and did not run. */
  lemma {:induction false} DroppedByRewatch(table: seq<WatchConfig>, answers: seq<Answer>, i: nat)
    requires i < |table| == |answers| && table[i].isActive
    ensures var w := RewatchTo(table, answers, |table|)[i];
            && (!w.isActive <==> answers[i].wd == -1 && !answers[i].missing && i !in answers[i].spawnedIds)
            && w == if w.isActive then table[i].(inotifyWd := answers[i].wd) else CLEARED
  {
    RewatchedSlot(table, answers, |table|, i);
  }

  lemma {:induction false} WalkKeepsTableOk(table: seq<WatchConfig>, visits: seq<Visit>, k: nat)
    requires TableOk(table) && k <= |visits|
    ensures TableOk(WalkTo(table, visits, k).table)
  {
    if k == 0 {
    } else {
      WalkKeepsTableOk(table, visits, k - 1);
      HandleFileKeepsTableOk(WalkTo(table, visits, k - 1), visits[k - 1]);
    }
  }

  /** A reload of any directory keeps the table good, whatever runs and whatever the files say. */
  lemma {:induction false} ReloadKeepsTableOk(table: seq<WatchConfig>, visits: seq<Visit>)
    requires TableOk(table)
    ensures TableOk(Reload(table, visits).table)
  {
    WalkKeepsTableOk(table, visits, |visits|);
    PurgeKeepsTableOk(WalkTo(table, visits, |visits|));
  }

  /** Loading fills a good table whose active slots are exactly the first `count`. */
  ghost predicate LoadingOk(s: Loading) {
    && s.count <= |s.table|
    && TableOk(s.table)
    && (forall i :: 0 <= i < |s.table| ==> (s.table[i].isActive <==> i < s.count))
    && (forall i :: s.count <= i < |s.table| ==> s.table[i] == CLEARED)
  }

  /** A config turned away leaves the next slot cleared, and nothing else touched. */
  lemma {:induction false} TurnedAwayKeepsLoadingOk(s: Loading)
    requires LoadingOk(s) && s.count < |s.table|
    ensures LoadingOk(s.(table := s.table[s.count := CLEARED]))
  {
    hide TableOk;
    assert s.table[s.count := CLEARED] == s.table;
  }

  lemma {:induction false} TakenKeepsLoadingOk(s: Loading, c: ParsedConfig)
    requires LoadingOk(s) && s.count < |s.table| && Complete(c) && !Clashes(s.table, c.filename, -1)
    ensures LoadingOk(Loading(s.table[s.count := c.(isActive := true)], s.count + 1))
  {
    hide TableOk, Clashes, Complete;
    InsertKeepsTableOk(s.table, s.count, c);
  }

  lemma {:induction false} LoadFileKeepsLoadingOk(s: Loading, file: ParseResult)
    requires LoadingOk(s)
    ensures LoadingOk(LoadFile(s, file))
  {
    assert s.count <= |s.table|;
    hide LoadingOk, Complete, Clashes;
    if s.count < |s.table| {
      TurnedAwayKeepsLoadingOk(s);
      if file.Parsed? && Complete(file.config) && !Clashes(s.table, file.config.filename, -1) {
        TakenKeepsLoadingOk(s, file.config);
      }
    }
  }

  lemma {:induction false} EmptyTableOk(size: nat)
    ensures LoadingOk(Loading(seq(size, i => CLEARED), 0))
  {
  }

  lemma {:induction false} LoadKeepsLoadingOk(size: nat, files: seq<ParseResult>, k: nat)
    requires k <= |files|
    ensures LoadingOk(LoadTo(size, files, k))
  {
    hide LoadingOk, LoadFile;
    if k == 0 {
      EmptyTableOk(size);
    } else {
      LoadKeepsLoadingOk(size, files, k - 1);
      LoadFileKeepsLoadingOk(LoadTo(size, files, k - 1), files[k - 1]);
    }
  }
}
