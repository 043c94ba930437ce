/** The watch table in place: the loops over watchConfig[], proved against the functions on its contents. */
module WatchTable {
  import opened CString
  import opened Watches
  import opened Reconcile
  import opened Processing
  import opened Daemon

  /** get_next_available_watch_entry */
  method GetNextAvailableWatchEntry(watchConfig: array<WatchConfig>) returns (r: int)
    ensures r == FindInactive(watchConfig[..], 0)
  {
    var i := 0;
    while i < watchConfig.Length
      invariant 0 <= i <= watchConfig.Length
      invariant FindInactive(watchConfig[..], 0) == FindInactive(watchConfig[..], i)
    {
      if !watchConfig[i].isActive {
        return i;
      }
      i := i + 1;
    }
    return -1;
  }

  /** The active watches other than `except` with this filename. */
  ghost function NameMatches(table: seq<WatchConfig>, filename: string, except: int): set<int> {
    set k | 0 <= k < |table| && k != except && Named(table[k], filename)
  }

  /** The active watches other than `except` with the same basename. */
  ghost function BasenameMatches(table: seq<WatchConfig>, filename: string, except: int): set<int> {
    set k | 0 <= k < |table| && k != except && SameBasename(table[k], filename)
  }

  /** Count the active watches, other than `except`, with this filename, and with its basename. */
  method CountMatches(watchConfig: array<WatchConfig>, filename: string, except: int)
    returns (matches: nat, bmatches: nat)
    ensures matches == |NameMatches(watchConfig[..], filename, except)|
    ensures bmatches == |BasenameMatches(watchConfig[..], filename, except)|
    ensures matches >= 1 || bmatches >= 1 <==> Clashes(watchConfig[..], filename, except)
  {
    matches, bmatches := 0, 0;
    for i := 0 to watchConfig.Length
      invariant matches == |NameMatches(watchConfig[..i], filename, except)|
      invariant bmatches == |BasenameMatches(watchConfig[..i], filename, except)|
    {
      NameMatchesNext(watchConfig[..], filename, except, i);
      BasenameMatchesNext(watchConfig[..], filename, except, i);
      hide NameMatches, BasenameMatches, Basename;
      if watchConfig[i].isActive && i != except {
        if filename == watchConfig[i].filename {
          matches := matches + 1;
        }
        if Basename(filename) == Basename(watchConfig[i].filename) {
          bmatches := bmatches + 1;
        }
      }
    }
    assert watchConfig[..] == watchConfig[..watchConfig.Length];
    MatchesClash(watchConfig[..], filename, except);
  }

  lemma {:induction false} NameMatchesNext(table: seq<WatchConfig>, filename: string, except: int, i: nat)
    requires i < |table|
    ensures |NameMatches(table[..i + 1], filename, except)| ==
            |NameMatches(table[..i], filename, except)| + if i != except && Named(table[i], filename) then 1 else 0
  {
    hide Named;
    var before, after := NameMatches(table[..i], filename, except), NameMatches(table[..i + 1], filename, except);
    assert table[..i + 1] == table[..i] + [table[i]];
    assert after == if i != except && Named(table[i], filename) then before + {i} else before;
  }

  lemma {:induction false} BasenameMatchesNext(table: seq<WatchConfig>, filename: string, except: int, i: nat)
    requires i < |table|
    ensures |BasenameMatches(table[..i + 1], filename, except)| ==
            |BasenameMatches(table[..i], filename, except)| +
            if i != except && SameBasename(table[i], filename) then 1 else 0
  {
    hide SameBasename;
    var before := BasenameMatches(table[..i], filename, except);
    var after := BasenameMatches(table[..i + 1], filename, except);
    assert table[..i + 1] == table[..i] + [table[i]];
    assert after == if i != except && SameBasename(table[i], filename) then before + {i} else before;
  }

  lemma {:induction false} MatchesClash(table: seq<WatchConfig>, filename: string, except: int)
    ensures |NameMatches(table, filename, except)| >= 1 || |BasenameMatches(table, filename, except)| >= 1 <==>
            Clashes(table, filename, except)
  {
    var names, bases := NameMatches(table, filename, except), BasenameMatches(table, filename, except);
    if Clashes(table, filename, except) {
      var k :| 0 <= k < |table| && k != except && Clash(table[k], filename);
      assert k in names || k in bases;
    } else {
      assert names == {} && bases == {};
    }
  }

  /** validate_watch_config */
  method ValidateWatchConfig(watchConfig: array<WatchConfig>, c: WatchConfig) returns (sane: bool)
    ensures sane <==> Complete(c) && !Clashes(watchConfig[..], c.filename, -1)
    ensures sane <==>
            && c.filename != "" && c.action != ""
            && (c.doDbUpdate ==> c.dbTitle != "" && c.dbAuthor != "" && c.dbComment != "")
            && !exists k :: 0 <= k < watchConfig.Length && watchConfig[k].isActive &&
                            (watchConfig[k].filename == c.filename ||
                             Basename(watchConfig[k].filename) == Basename(c.filename))
  {
    hide Clashes, Basename;
    ClashesInFields(watchConfig[..], c.filename, -1);
    sane := true;
    if c.filename == "" {
      sane := false;
    } else {
      var matches, bmatches := CountMatches(watchConfig, c.filename, -1);
      if matches >= 1 {
        sane := false;
      }
      if bmatches >= 1 {
        sane := false;
      }
    }
    if c.action == "" {
      sane := false;
    }
    if c.doDbUpdate {
      if c.dbTitle == "" {
        sane := false;
      }
      if c.dbAuthor == "" {
        sane := false;
      }
      if c.dbComment == "" {
        sane := false;
      }
    }
  }

  // ---- merging ----

  /** The parsed filename can replace the one of slot i. */
  predicate NameFits(table: seq<WatchConfig>, i: nat, filename: string): (fits: bool)
    requires i < |table|
    ensures fits ==> filename != ""
  {
    filename != "" && (filename == table[i].filename || !Clashes(table, filename, i))
  }

  /** Whether a parsed config may replace slot i. */
  predicate MergeSane(table: seq<WatchConfig>, i: nat, c: WatchConfig)
    requires i < |table|
  {
    Complete(c) && NameFits(table, i, c.filename)
  }

  /** Slot i once every key but the database strings was merged: usable values are taken over one by one. */
  function KeysMerged(table: seq<WatchConfig>, i: nat, c: WatchConfig): WatchConfig
    requires i < |table|
  {
    var w := table[i];
    w.(filename := if NameFits(table, i, c.filename) then c.filename else w.filename,
       action := if c.action != "" then c.action else w.action,
       labelText := c.labelText, hidden := c.hidden, blockSpawns := c.blockSpawns,
       skipDbChecks := c.skipDbChecks, doDbUpdate := c.doDbUpdate)
  }

  /** What a merge leaves in slot i, even when something mandatory is missing. */
  function PartlyMerged(table: seq<WatchConfig>, i: nat, c: WatchConfig): WatchConfig
    requires i < |table|
  {
    var w := table[i];
    KeysMerged(table, i, c).(
      dbTitle := if c.doDbUpdate && c.dbTitle != "" then c.dbTitle else w.dbTitle,
      dbAuthor := if c.doDbUpdate && c.dbAuthor != "" then c.dbAuthor else w.dbAuthor,
      dbComment := if c.doDbUpdate && c.dbComment != "" then c.dbComment else w.dbComment)
  }

  /** The filename part of validate_and_merge_watch_config. */
  method MergeFilename(watchConfig: array<WatchConfig>, c: WatchConfig, target: nat) returns (sane: bool, updated: bool)
    requires target < watchConfig.Length
    modifies watchConfig
    ensures sane <==> NameFits(old(watchConfig[..]), target, c.filename)
    ensures sane <==>
            c.filename != "" &&
            (c.filename == old(watchConfig[target]).filename ||
             !exists k :: 0 <= k < watchConfig.Length && k != target && old(watchConfig[k]).isActive &&
                          (old(watchConfig[k]).filename == c.filename ||
                           Basename(old(watchConfig[k]).filename) == Basename(c.filename)))
    ensures forall k :: 0 <= k < watchConfig.Length && k != target ==> watchConfig[k] == old(watchConfig[k])
    ensures watchConfig[target] ==
            old(watchConfig[target]).(filename := if sane then c.filename else old(watchConfig[target]).filename)
    ensures updated <==> watchConfig[target].filename != old(watchConfig[target]).filename
  {
    hide Clashes, Basename;
    ClashesInFields(watchConfig[..], c.filename, target);
    sane, updated := true, false;
    if c.filename == "" {
      sane := false;
    } else if c.filename != watchConfig[target].filename {
      var matches, bmatches := CountMatches(watchConfig, c.filename, target);
      if matches >= 1 {
        sane := false;
      }
      if bmatches >= 1 {
        sane := false;
      }
      if sane {
        watchConfig[target] := watchConfig[target].(filename := c.filename);
        updated := true;
      }
    }
  }

  /** The action and the label: only the action is mandatory. */
  method MergeActionAndLabel(watchConfig: array<WatchConfig>, c: WatchConfig, target: nat)
    returns (sane: bool, updated: bool)
    requires target < watchConfig.Length
    modifies watchConfig
    ensures sane <==> c.action != ""
    ensures forall k :: 0 <= k < watchConfig.Length && k != target ==> watchConfig[k] == old(watchConfig[k])
    ensures watchConfig[target] == old(watchConfig[target]).(
              action := if sane then c.action else old(watchConfig[target]).action, labelText := c.labelText)
    ensures updated <==> watchConfig[target].action != old(watchConfig[target]).action ||
                         watchConfig[target].labelText != old(watchConfig[target]).labelText
  {
    sane, updated := true, false;
    if c.action == "" {
      sane := false;
    } else if c.action != watchConfig[target].action {
      watchConfig[target] := watchConfig[target].(action := c.action);
      updated := true;
    }
    if c.labelText != watchConfig[target].labelText {
      watchConfig[target] := watchConfig[target].(labelText := c.labelText);
      updated := true;
    }
  }

  /** hidden and block_spawns. */
  method MergeVisibility(watchConfig: array<WatchConfig>, c: WatchConfig, target: nat) returns (updated: bool)
    requires target < watchConfig.Length
    modifies watchConfig
    ensures forall k :: 0 <= k < watchConfig.Length && k != target ==> watchConfig[k] == old(watchConfig[k])
    ensures watchConfig[target] == old(watchConfig[target]).(hidden := c.hidden, blockSpawns := c.blockSpawns)
    ensures updated <==> watchConfig[target].hidden != old(watchConfig[target]).hidden ||
                         watchConfig[target].blockSpawns != old(watchConfig[target]).blockSpawns
  {
    updated := false;
    if c.hidden != watchConfig[target].hidden {
      watchConfig[target] := watchConfig[target].(hidden := c.hidden);
      updated := true;
    }
    if c.blockSpawns != watchConfig[target].blockSpawns {
      watchConfig[target] := watchConfig[target].(blockSpawns := c.blockSpawns);
      updated := true;
    }
  }

  /** skip_db_checks and do_db_update. */
  method MergeDbFlags(watchConfig: array<WatchConfig>, c: WatchConfig, target: nat) returns (updated: bool)
    requires target < watchConfig.Length
    modifies watchConfig
    ensures forall k :: 0 <= k < watchConfig.Length && k != target ==> watchConfig[k] == old(watchConfig[k])
    ensures watchConfig[target] ==
            old(watchConfig[target]).(skipDbChecks := c.skipDbChecks, doDbUpdate := c.doDbUpdate)
    ensures updated <==> watchConfig[target].skipDbChecks != old(watchConfig[target]).skipDbChecks ||
                         watchConfig[target].doDbUpdate != old(watchConfig[target]).doDbUpdate
  {
    updated := false;
    if c.skipDbChecks != watchConfig[target].skipDbChecks {
      watchConfig[target] := watchConfig[target].(skipDbChecks := c.skipDbChecks);
      updated := true;
    }
    if c.doDbUpdate != watchConfig[target].doDbUpdate {
      watchConfig[target] := watchConfig[target].(doDbUpdate := c.doDbUpdate);
      updated := true;
    }
  }

  /** db_title and db_author, of a config that asks for an update. */
  method MergeTitleAndAuthor(watchConfig: array<WatchConfig>, c: WatchConfig, target: nat)
    returns (sane: bool, updated: bool)
    requires target < watchConfig.Length
    modifies watchConfig
    ensures sane <==> c.dbTitle != "" && c.dbAuthor != ""
    ensures forall k :: 0 <= k < watchConfig.Length && k != target ==> watchConfig[k] == old(watchConfig[k])
    ensures var w := old(watchConfig[target]);
            watchConfig[target] == w.(dbTitle := if c.dbTitle != "" then c.dbTitle else w.dbTitle,
                                      dbAuthor := if c.dbAuthor != "" then c.dbAuthor else w.dbAuthor)
    ensures updated <==> watchConfig[target] != old(watchConfig[target])
  {
    sane, updated := true, false;
    if c.dbTitle == "" {
      sane := false;
    } else if c.dbTitle != watchConfig[target].dbTitle {
      watchConfig[target] := watchConfig[target].(dbTitle := c.dbTitle);
      updated := true;
    }
    if c.dbAuthor == "" {
      sane := false;
    } else if c.dbAuthor != watchConfig[target].dbAuthor {
      watchConfig[target] := watchConfig[target].(dbAuthor := c.dbAuthor);
      updated := true;
    }
  }

  /** The database strings: mandatory, and merged, only when an update is asked for. */
  method MergeDbFields(watchConfig: array<WatchConfig>, c: WatchConfig, target: nat) returns (sane: bool, updated: bool)
    requires target < watchConfig.Length
    modifies watchConfig
    ensures sane <==> (c.doDbUpdate ==> c.dbTitle != "" && c.dbAuthor != "" && c.dbComment != "")
    ensures forall k :: 0 <= k < watchConfig.Length && k != target ==> watchConfig[k] == old(watchConfig[k])
    ensures var w := old(watchConfig[target]);
            watchConfig[target] == w.(
              dbTitle := if c.doDbUpdate && c.dbTitle != "" then c.dbTitle else w.dbTitle,
              dbAuthor := if c.doDbUpdate && c.dbAuthor != "" then c.dbAuthor else w.dbAuthor,
              dbComment := if c.doDbUpdate && c.dbComment != "" then c.dbComment else w.dbComment)
    ensures updated <==> watchConfig[target] != old(watchConfig[target])
  {
    sane, updated := true, false;
    if c.doDbUpdate {
      sane, updated := MergeTitleAndAuthor(watchConfig, c, target);
      if c.dbComment == "" {
        sane := false;
      } else if c.dbComment != watchConfig[target].dbComment {
        watchConfig[target] := watchConfig[target].(dbComment := c.dbComment);
        updated := true;
      }
    }
  }

  /** Two states of a slot that only differ in keys a config file sets. */
  lemma {:induction false} DiffersInKeys(w: WatchConfig, x: WatchConfig)
    requires x.processingTs == w.processingTs && x.inotifyWd == w.inotifyWd
    requires x.pendingProcessing == w.pendingProcessing && x.isActive == w.isActive
    requires x.dbTitle == w.dbTitle && x.dbAuthor == w.dbAuthor && x.dbComment == w.dbComment
    ensures x != w <==> x.filename != w.filename || x.action != w.action || x.labelText != w.labelText ||
                        x.hidden != w.hidden || x.blockSpawns != w.blockSpawns ||
                        x.skipDbChecks != w.skipDbChecks || x.doDbUpdate != w.doDbUpdate
  {
  }

  /** Changing the database strings last does not undo an earlier change. */
  lemma {:induction false} DbStep(w: WatchConfig, x: WatchConfig, y: WatchConfig)
    requires x.dbTitle == w.dbTitle && x.dbAuthor == w.dbAuthor && x.dbComment == w.dbComment
    requires y == x.(dbTitle := y.dbTitle, dbAuthor := y.dbAuthor, dbComment := y.dbComment)
    ensures y != w <==> x != w || y != x
  {
  }

  /** Every key but the database strings. */
  method MergeKeys(watchConfig: array<WatchConfig>, c: WatchConfig, target: nat) returns (sane: bool, updated: bool)
    requires target < watchConfig.Length
    modifies watchConfig
    ensures sane <==> c.action != "" && NameFits(old(watchConfig[..]), target, c.filename)
    ensures forall k :: 0 <= k < watchConfig.Length && k != target ==> watchConfig[k] == old(watchConfig[k])
    ensures watchConfig[target] == KeysMerged(old(watchConfig[..]), target, c)
    ensures updated <==> watchConfig[target] != old(watchConfig[target])
  {
    hide NameFits;
    ghost var w := watchConfig[target];
    var nameOk, nameNew := MergeFilename(watchConfig, c, target);
    var actionOk, actionNew := MergeActionAndLabel(watchConfig, c, target);
    var visibilityNew := MergeVisibility(watchConfig, c, target);
    var flagsNew := MergeDbFlags(watchConfig, c, target);
    DiffersInKeys(w, watchConfig[target]);
    sane, updated := nameOk && actionOk, nameNew || actionNew || visibilityNew || flagsNew;
  }

  /** validate_and_merge_watch_config: the flag is raised when the config is sane and anything changed. */
  method ValidateAndMerge(watchConfig: array<WatchConfig>, c: WatchConfig, target: nat)
    returns (sane: bool, wasUpdated: bool)
    requires target < watchConfig.Length
    modifies watchConfig
    ensures sane <==> MergeSane(old(watchConfig[..]), target, c)
    ensures watchConfig[..] == old(watchConfig[..])[target := PartlyMerged(old(watchConfig[..]), target, c)]
    ensures wasUpdated <==> sane && watchConfig[target] != old(watchConfig[target])
  {
    hide NameFits;
    ghost var w := watchConfig[target];
    var keysOk, keysNew := MergeKeys(watchConfig, c, target);
    ghost var x := watchConfig[target];
    var dbOk, dbNew := MergeDbFields(watchConfig, c, target);
    DbStep(w, x, watchConfig[target]);
    sane := keysOk && dbOk;
    wasUpdated := sane && (keysNew || dbNew);
  }

  /** Under an unchanged filename a merge needs no more than a complete config, and takes over all of it. */
  lemma {:induction false} MergeSameName(table: seq<WatchConfig>, i: nat, c: WatchConfig)
    requires i < |table| && c.filename == table[i].filename
    ensures MergeSane(table, i, c) <==> Complete(c)
    ensures Complete(c) ==> PartlyMerged(table, i, c) == Merged(table[i], c)
  {
  }

  // ---- reloading ----

  /** One file of update_watch_configs. */
  method CheckConfigFile(watchConfig: array<WatchConfig>, v: Visit, newWatchList: seq<int>, notifyUpdate: bool)
    returns (newList: seq<int>, notify: bool)
    modifies watchConfig
    ensures Walk(watchConfig[..], newList, notify) ==
            HandleFile(Walk(old(watchConfig[..]), newWatchList, notifyUpdate), v)
  {
    newList, notify := newWatchList, notifyUpdate;
    if v.file.Broken? {
      return;
    }
    var curWatch := v.file.config;
    var watchIdx := MatchFilename(watchConfig, curWatch.filename);
    if watchIdx < 0 {
      var newWatchIdx := GetNextAvailableWatchEntry(watchConfig);
      if newWatchIdx >= 0 {
        newList, notify := SetUpWatch(watchConfig, curWatch, newWatchIdx, newList, notify);
      }
    } else if watchIdx in v.spawnedIds {
      newList := newList + [watchIdx];
    } else {
      newList, notify := RefreshWatch(watchConfig, curWatch, watchIdx, newList, notify);
    }
  }

  /** The matching loop of update_watch_configs. */
  method MatchFilename(watchConfig: array<WatchConfig>, filename: string) returns (r: int)
    ensures r == FindNamed(watchConfig[..], filename, 0)
  {
    var i := 0;
    while i < watchConfig.Length
      invariant 0 <= i <= watchConfig.Length
      invariant FindNamed(watchConfig[..], filename, 0) == FindNamed(watchConfig[..], filename, i)
    {
      if watchConfig[i].isActive && filename == watchConfig[i].filename {
        return i;
      }
      i := i + 1;
    }
    return -1;
  }

  method SetUpWatch(watchConfig: array<WatchConfig>, curWatch: ParsedConfig, i: nat, list: seq<int>, notify: bool)
    returns (newList: seq<int>, newNotify: bool)
    requires i < watchConfig.Length && !watchConfig[i].isActive
    modifies watchConfig
    ensures var valid := Complete(curWatch) && !Clashes(old(watchConfig[..]), curWatch.filename, -1);
            && watchConfig[..] == old(watchConfig[..])[i := if valid then curWatch.(isActive := true) else CLEARED]
            && newList == (if valid then list + [i] else list)
            && newNotify == (notify || valid)
  {
    newList, newNotify := list, notify;
    ghost var before := watchConfig[..];
    watchConfig[i] := curWatch;
    InactiveSlotNeverClashes(before, i, curWatch, curWatch.filename);
    var sane := ValidateWatchConfig(watchConfig, watchConfig[i]);
    if sane {
      watchConfig[i] := watchConfig[i].(isActive := true);
      newList := newList + [i];
      newNotify := true;
    } else {
      watchConfig[i] := CLEARED;
    }
  }

  lemma {:induction false} InactiveSlotNeverClashes(table: seq<WatchConfig>, i: nat, c: WatchConfig, filename: string)
    requires i < |table| && !table[i].isActive && !c.isActive
    ensures Clashes(table[i := c], filename, -1) <==> Clashes(table, filename, -1)
  {
    var t := table[i := c];
    if k :| 0 <= k < |t| && Clash(t[k], filename) {
      assert t[k] == table[k];
    }
    if k :| 0 <= k < |table| && Clash(table[k], filename) {
      assert t[k] == table[k];
    }
  }

  method RefreshWatch(watchConfig: array<WatchConfig>, curWatch: WatchConfig, i: nat, list: seq<int>, notify: bool)
    returns (newList: seq<int>, newNotify: bool)
    requires i < watchConfig.Length && watchConfig[i].filename == curWatch.filename
    modifies watchConfig
    ensures var w := old(watchConfig[i]);
            var valid := Complete(curWatch);
            && watchConfig[..] == old(watchConfig[..])[i := if valid then Merged(w, curWatch) else CLEARED]
            && newList == (if valid then list + [i] else list)
            && newNotify == (notify || !valid || Merged(w, curWatch) != w)
  {
    newList, newNotify := list, notify;
    MergeSameName(watchConfig[..], i, curWatch);
    var sane, wasUpdated := ValidateAndMerge(watchConfig, curWatch, i);
    if sane {
      newList := newList + [i];
      if wasUpdated {
        newNotify := true;
      }
    } else {
      watchConfig[i] := CLEARED;
      newNotify := true;
    }
  }

  /** The purge at the end of update_watch_configs. */
  method PurgeStaleWatches(watchConfig: array<WatchConfig>, newWatchList: seq<int>, notifyUpdate: bool)
    returns (notify: bool)
    modifies watchConfig
    ensures Walk(watchConfig[..], newWatchList, notify) ==
            Purge(Walk(old(watchConfig[..]), newWatchList, notifyUpdate))
  {
    notify := notifyUpdate;
    ghost var before := watchConfig[..];
    ghost var listed := Listed(newWatchList, |before|);
    for i := 0 to watchConfig.Length
      invariant forall k :: 0 <= k < i ==>
        watchConfig[k] == if Stale(before[k], k, listed) then CLEARED else before[k]
      invariant forall k :: i <= k < watchConfig.Length ==> watchConfig[k] == before[k]
      invariant notify <==> notifyUpdate || exists k :: 0 <= k < i && Stale(before[k], k, listed)
    {
      if watchConfig[i].isActive {
        var keep := IsListed(newWatchList, watchConfig.Length, i);
        if !keep {
          watchConfig[i] := CLEARED;
          notify := true;
          assert Stale(before[i], i, listed);
        }
      }
    }
    assert watchConfig[..] == Purge(Walk(before, newWatchList, notifyUpdate)).table;
  }

  /** The inner loop of the purge, over the WATCH_MAX entries of new_watch_list. */
  method IsListed(newWatchList: seq<int>, size: nat, i: nat) returns (keep: bool)
    ensures keep <==> i in Listed(newWatchList, size)
  {
    keep := false;
    for k := 0 to Min(|newWatchList|, size)
      invariant i !in newWatchList[..k]
    {
      if i == newWatchList[k] {
        assert Listed(newWatchList, size)[k] == i;
        return true;
      }
    }
  }

  /** update_watch_configs */
  method UpdateWatchConfigs(watchConfig: array<WatchConfig>, visits: seq<Visit>)
    returns (newWatchList: seq<int>, notifyUpdate: bool)
    modifies watchConfig
    ensures Walk(watchConfig[..], newWatchList, notifyUpdate) == Reload(old(watchConfig[..]), visits)
  {
    newWatchList, notifyUpdate := [], false;
    for k := 0 to |visits|
      invariant Walk(watchConfig[..], newWatchList, notifyUpdate) == WalkTo(old(watchConfig[..]), visits, k)
    {
      newWatchList, notifyUpdate := CheckConfigFile(watchConfig, visits[k], newWatchList, notifyUpdate);
    }
    notifyUpdate := PurgeStaleWatches(watchConfig, newWatchList, notifyUpdate);
  }

  /** The loop of main that sets the inotify watches up again, one answer of the kernel per slot. */
  method RewatchAll(watchConfig: array<WatchConfig>, answers: seq<Answer>)
    requires |answers| == watchConfig.Length
    modifies watchConfig
    ensures watchConfig[..] == RewatchTo(old(watchConfig[..]), answers, watchConfig.Length)
  {
    for i := 0 to watchConfig.Length
      invariant watchConfig[..] == RewatchTo(old(watchConfig[..]), answers, i)
    {
      ghost var before := watchConfig[..];
      var a := answers[i];
      if watchConfig[i].isActive {
        watchConfig[i] := watchConfig[i].(inotifyWd := a.wd);
        if a.wd == -1 && !a.missing {
          if i !in a.spawnedIds {
            watchConfig[i] := CLEARED;
          }
        }
      }
      assert watchConfig[..] == Rewatch(before, i, a.wd, a.missing, a.spawnedIds);
    }
  }

  /** The walk of load_config, over an all-zero table. */
  method LoadConfig(watchConfig: array<WatchConfig>, files: seq<ParseResult>) returns (watchCount: nat)
    requires forall i :: 0 <= i < watchConfig.Length ==> watchConfig[i] == CLEARED
    modifies watchConfig
    ensures Loading(watchConfig[..], watchCount) == Load(watchConfig.Length, files)
  {
    watchCount := 0;
    assert watchConfig[..] == LoadTo(watchConfig.Length, files, 0).table;
    for k := 0 to |files|
      invariant Loading(watchConfig[..], watchCount) == LoadTo(watchConfig.Length, files, k)
      invariant LoadingOk(LoadTo(watchConfig.Length, files, k))
    {
      LoadKeepsLoadingOk(watchConfig.Length, files, k + 1);
      watchCount := LoadConfigFile(watchConfig, files[k], watchCount);
    }
  }

  /** One file of load_config. */
  method LoadConfigFile(watchConfig: array<WatchConfig>, file: ParseResult, count: nat) returns (watchCount: nat)
    requires LoadingOk(Loading(watchConfig[..], count))
    modifies watchConfig
    ensures Loading(watchConfig[..], watchCount) == LoadFile(Loading(old(watchConfig[..]), count), file)
  {
    watchCount := count;
    if watchCount >= watchConfig.Length {
      return;
    }
    var isWatchValid := false;
    ghost var before := watchConfig[..];
    if file.Parsed? {
      watchConfig[watchCount] := file.config;
      InactiveSlotNeverClashes(before, watchCount, file.config, file.config.filename);
      isWatchValid := ValidateWatchConfig(watchConfig, watchConfig[watchCount]);
    }
    if isWatchValid {
      watchConfig[watchCount] := watchConfig[watchCount].(isActive := true);
      watchCount := watchCount + 1;
    } else {
      watchConfig[watchCount] := CLEARED;
    }
  }

  // ---- events ----

  /** A watch after an event that nothing kept from it. */
  function After(w: WatchConfig, e: Event): WatchConfig {
    var t := React(TimerOf(w), e).0;
    w.(pendingProcessing := t.pending, processingTs := t.ts)
  }

  /** The IN_OPEN branch of handle_events, once the locked region has been read. */
  method HandleOpen(watchConfig: array<WatchConfig>, i: nat, isWatchSpawned: bool, isBlockerSpawned: bool,
                    isSpawnBlocked: bool, processed: bool)
    requires i < watchConfig.Length
    modifies watchConfig
    ensures watchConfig[..] ==
            if isWatchSpawned || isBlockerSpawned || isSpawnBlocked then old(watchConfig[..])
            else old(watchConfig[..])[i := After(old(watchConfig[i]), Open(processed))]
    ensures watchConfig[i] == old(watchConfig[i]).(
              pendingProcessing := if isWatchSpawned || isBlockerSpawned || isSpawnBlocked
                                   then old(watchConfig[i]).pendingProcessing else !processed)
  {
    if !isWatchSpawned && !isBlockerSpawned && !isSpawnBlocked {
      if !processed {
        watchConfig[i] := watchConfig[i].(pendingProcessing := true);
      } else {
        watchConfig[i] := watchConfig[i].(pendingProcessing := false);
      }
    }
  }

  /** The IN_CLOSE branch of handle_events: the decision to spawn, and the timestamp it leaves. */
  method HandleClose(watchConfig: array<WatchConfig>, i: nat, isWatchSpawned: bool, isBlockerSpawned: bool,
                     isSpawnBlocked: bool, processed: bool, now: nat, clockOk: bool)
    returns (spawns: bool)
    requires i < watchConfig.Length
    modifies watchConfig
    ensures var e := Close(processed, now, clockOk);
            var held := isWatchSpawned || isBlockerSpawned || isSpawnBlocked;
            && watchConfig[..] == (if held then old(watchConfig[..])
                                   else old(watchConfig[..])[i := After(old(watchConfig[i]), e)])
            && (spawns <==> !held && React(TimerOf(old(watchConfig[i])), e).1)
    ensures var w, sec := old(watchConfig[i]), if clockOk then now / 1_000_000_000 else 0;
            var held := isWatchSpawned || isBlockerSpawned || isSpawnBlocked;
            && (spawns <==> !held && !w.pendingProcessing && processed &&
                            (w.processingTs > 0 ==> sec - w.processingTs > 10))
            && watchConfig[i] == w.(processingTs :=
                                      if held then w.processingTs
                                      else if spawns then (if w.processingTs > 0 then 0 else w.processingTs)
                                      else if w.processingTs == 0 then sec else w.processingTs)
  {
    spawns := false;
    if !isWatchSpawned && !isBlockerSpawned && !isSpawnBlocked {
      var shouldSpawn := !watchConfig[i].pendingProcessing && processed;
      if shouldSpawn && watchConfig[i].processingTs > 0 {
        var sec := if clockOk then Seconds(now) else 0;
        if sec - watchConfig[i].processingTs <= QUARANTINE {
          shouldSpawn := false;
        } else {
          watchConfig[i] := watchConfig[i].(processingTs := 0);
        }
      }
      if shouldSpawn {
        spawns := true;
      } else {
        if watchConfig[i].processingTs == 0 {
          if clockOk {
            watchConfig[i] := watchConfig[i].(processingTs := Seconds(now));
          }
        }
      }
    }
  }
}
