/** The reload that follows the start-up load of the same directory is a no-op. */
module Startup {
  import opened Watches
  import opened Reconcile
  import opened ReloadTracking
  import opened ReloadSignal
  import opened ProcessTable
  import opened Processing
  import opened Daemon

  /** A loaded slot holds this config. */
  ghost predicate Accepted(s: Loading, c: WatchConfig) {
    exists i :: 0 <= i < |s.table| && s.table[i].isActive && s.table[i] == c.(isActive := true)
  }

  ghost predicate TurnedAway(s: Loading, c: WatchConfig) {
    !Complete(c) || Clashes(s.table, c.filename, -1) || s.count == |s.table|
  }

  ghost predicate Decided(s: Loading, file: ParseResult) {
    file.Parsed? ==> Accepted(s, file.config) || TurnedAway(s, file.config)
  }

  ghost predicate FromFile(w: WatchConfig, files: seq<ParseResult>, k: nat)
    requires k <= |files|
  {
    exists m :: 0 <= m < k && files[m].Parsed? && w == files[m].config.(isActive := true)
  }

  ghost predicate Loaded(s: Loading, files: seq<ParseResult>, k: nat) {
    && k <= |files| && LoadingOk(s)
    && (forall m :: 0 <= m < k ==> Decided(s, files[m]))
    && (forall i :: 0 <= i < |s.table| && s.table[i].isActive ==> FromFile(s.table[i], files, k))
  }

  /** Loading one more file changes no active slot. */
  lemma {:induction false} LoadFileExtends(s: Loading, file: ParseResult)
    requires LoadingOk(s)
    ensures var s' := LoadFile(s, file);
            && s'.count >= s.count
            && forall i :: 0 <= i < |s.table| && s.table[i].isActive ==> s'.table[i] == s.table[i]
  {
  }

  lemma {:induction false} DecidedStays(s: Loading, next: ParseResult, file: ParseResult)
    requires LoadingOk(s) && Decided(s, file)
    ensures Decided(LoadFile(s, next), file)
  {
    var s' := LoadFile(s, next);
    LoadFileExtends(s, next);
    if file.Parsed? {
      var c := file.config;
      if Accepted(s, c) {
        var i :| 0 <= i < |s.table| && s.table[i].isActive && s.table[i] == c.(isActive := true);
        assert s'.table[i] == s.table[i];
      } else if Clashes(s.table, c.filename, -1) {
        var i :| 0 <= i < |s.table| && Clash(s.table[i], c.filename);
        assert s'.table[i] == s.table[i];
      }
    }
  }

  lemma {:induction false} DecidedNow(s: Loading, file: ParseResult)
    requires LoadingOk(s)
    ensures Decided(LoadFile(s, file), file)
  {
    var s' := LoadFile(s, file);
    if file.Parsed? && s.count < |s.table| {
      var c := file.config;
      if s'.count > s.count {
        assert s'.table[s.count] == c.(isActive := true);
      } else if Clashes(s.table, c.filename, -1) {
        LoadFileExtends(s, file);
        var i :| 0 <= i < |s.table| && Clash(s.table[i], c.filename);
        assert s'.table[i] == s.table[i];
      }
    }
  }

  lemma {:induction false} SourcesStep(s: Loading, files: seq<ParseResult>, k: nat)
    requires k < |files| && Loaded(s, files, k)
    ensures var s' := LoadFile(s, files[k]);
            forall i :: 0 <= i < |s'.table| && s'.table[i].isActive ==> FromFile(s'.table[i], files, k + 1)
  {
  }

  lemma {:induction false} LoadedStep(s: Loading, files: seq<ParseResult>, k: nat)
    requires k < |files| && Loaded(s, files, k)
    ensures Loaded(LoadFile(s, files[k]), files, k + 1)
  {
    hide LoadFile, Decided, FromFile, TableOk;
    LoadFileKeepsLoadingOk(s, files[k]);
    forall m | 0 <= m < k + 1 ensures Decided(LoadFile(s, files[k]), files[m]) {
      if m < k {
        DecidedStays(s, files[k], files[m]);
      } else {
        DecidedNow(s, files[m]);
      }
    }
    SourcesStep(s, files, k);
  }

  lemma {:induction false} NothingLoaded(size: nat, files: seq<ParseResult>)
    ensures Loaded(LoadTo(size, files, 0), files, 0)
  {
  }

  lemma {:induction false} LoadIsLoaded(size: nat, files: seq<ParseResult>, k: nat)
    requires k <= |files|
    ensures Loaded(LoadTo(size, files, k), files, k)
  {
    hide LoadFile, Loaded;
    if k == 0 {
      NothingLoaded(size, files);
    } else {
      LoadIsLoaded(size, files, k - 1);
      LoadedStep(LoadTo(size, files, k - 1), files, k - 1);
    }
  }

  /** The file says of every watch it names, unless that one runs, what the table has it do already. */
  ghost predicate Confirms(table: seq<WatchConfig>, v: Visit) {
    forall i :: 0 <= i < |table| && v.file.Parsed? && Named(table[i], NameOf(v.file)) && i !in v.spawnedIds ==>
                  Complete(v.file.config) && Effective(v.file.config) == Effective(table[i])
  }

  ghost predicate Confirmed(table: seq<WatchConfig>, visits: seq<Visit>) {
    forall m :: 0 <= m < |visits| ==> Confirms(table, visits[m])
  }

  lemma {:induction false} OnlyNamed(table: seq<WatchConfig>, v: Visit, i: nat)
    requires TableOk(table) && i < |table| && Named(table[i], NameOf(v.file))
    ensures FindNamed(table, NameOf(v.file), 0) == i && v.file.Parsed?
    ensures forall j :: 0 <= j < |table| && Named(table[j], NameOf(v.file)) ==> j == i
  {
    forall j | 0 <= j < |table| && Named(table[j], NameOf(v.file)) ensures j == i {
      NamedUnique(table, j, i);
    }
  }

  /** A file that matches no active watch was turned away by the load, and still is. */
  lemma {:induction false} UnmatchedIsTurnedAway(s: Loading, v: Visit)
    requires LoadingOk(s) && Decided(s, v.file)
    requires forall i :: 0 <= i < |s.table| ==> !Named(s.table[i], NameOf(v.file))
    ensures Judge(s.table, v).Ignore? || Judge(s.table, v).Reject?
  {
  }

  /** Right after the load a file is idle exactly when it confirms the watch it names. */
  lemma {:induction false} IdleIsConfirming(s: Loading, v: Visit)
    requires LoadingOk(s) && Decided(s, v.file)
    ensures Idle(s.table, v) <==> Confirms(s.table, v)
  {
    hide LoadingOk, Decided, TableOk, Complete, Effective;
    LoadedIsOk(s);
    if i :| 0 <= i < |s.table| && Named(s.table[i], NameOf(v.file)) {
      OnlyNamed(s.table, v, i);
    } else {
      UnmatchedIsTurnedAway(s, v);
    }
  }

  lemma {:induction false} LoadedIsOk(s: Loading)
    requires LoadingOk(s)
    ensures TableOk(s.table)
  {
  }

  /** Every loaded watch is named by the file it came from. */
  lemma {:induction false} LoadedIsSeen(s: Loading, files: seq<ParseResult>, visits: seq<Visit>, i: nat)
    requires Loaded(s, files, |files|) && Visits(visits, files) && i < |s.table| && s.table[i].isActive
    ensures Seen(visits, |visits|, s.table[i].filename)
  {
    assert FromFile(s.table[i], files, |files|);
    var m :| 0 <= m < |files| && files[m].Parsed? && s.table[i] == files[m].config.(isActive := true);
    assert NameOf(visits[m].file) == s.table[i].filename;
  }

  /**
   * The first reload after start-up, of the same directory and with new_watch_list within its array: it changes
   * nothing and signals nothing if and only if every file on a loaded watch that does not run confirms it.
   */
  lemma {:induction false} FirstReloadIsQuietExactly(size: nat, files: seq<ParseResult>, visits: seq<Visit>)
    requires Visits(visits, files) && ListInBounds(Load(size, files).table, visits)
    ensures var loaded := Load(size, files).table;
            var after := Reload(loaded, visits);
            && (!after.notify <==> Confirmed(loaded, visits))
            && (!after.notify ==> SameActive(loaded, after.table))
  {
    hide Decided, FromFile, Confirms, Idle, SameActive, TableOk, LoadingOk, WalkTo, Reload, ListInBounds, Seen;
    var s := Load(size, files);
    LoadIsLoaded(size, files, |files|);
    LoadedIsOk(s);
    SignalExactly(s.table, visits);
    forall m | 0 <= m < |visits| ensures Idle(s.table, visits[m]) <==> Confirms(s.table, visits[m]) {
      IdleIsConfirming(s, visits[m]);
    }
    forall i | 0 <= i < |s.table| && s.table[i].isActive ensures Seen(visits, |visits|, s.table[i].filename) {
      LoadedIsSeen(s, files, visits, i);
    }
    if !Reload(s.table, visits).notify {
      QuietReload(s.table, visits);
    }
  }

  /** With distinct names, the file on a loaded watch is the one it was loaded from. */
  lemma {:induction false} DistinctConfirm(s: Loading, files: seq<ParseResult>, visits: seq<Visit>)
    requires Loaded(s, files, |files|) && Visits(visits, files) && DistinctNames(visits)
    ensures Confirmed(s.table, visits)
  {
    hide Loaded, DistinctNames, Complete, Effective;
    forall m, i | 0 <= m < |visits| && 0 <= i < |s.table| && visits[m].file.Parsed? &&
                  Named(s.table[i], NameOf(visits[m].file))
      ensures Complete(visits[m].file.config) && Effective(visits[m].file.config) == Effective(s.table[i])
    {
      NamedByItsOwn(s, files, visits, m, i);
    }
  }

  lemma {:induction false} NamedByItsOwn(s: Loading, files: seq<ParseResult>, visits: seq<Visit>, m: nat, i: nat)
    requires Loaded(s, files, |files|) && Visits(visits, files) && DistinctNames(visits)
    requires m < |visits| && i < |s.table| && visits[m].file.Parsed? && Named(s.table[i], NameOf(visits[m].file))
    ensures Complete(visits[m].file.config) && Effective(visits[m].file.config) == Effective(s.table[i])
  {
    hide Decided;
    assert FromFile(s.table[i], files, |files|);
    var n :| 0 <= n < |files| && files[n].Parsed? && s.table[i] == files[n].config.(isActive := true);
    assert NameOf(visits[n].file) == NameOf(visits[m].file) != "";
  }

  /** So with distinct names it always is quiet, whatever was rejected and whatever runs. */
  lemma {:induction false} FirstReloadIsStable(size: nat, files: seq<ParseResult>, visits: seq<Visit>)
    requires Visits(visits, files) && DistinctNames(visits)
    ensures var loaded := Load(size, files).table;
            var after := Reload(loaded, visits);
            SameActive(loaded, after.table) && !after.notify
  {
    hide Loaded, Confirmed, DistinctNames, SameActive, TableOk, LoadingOk, WalkTo, Reload;
    var s := Load(size, files);
    LoadIsLoaded(size, files, |files|);
    LoadKeepsLoadingOk(size, files, |files|);
    LoadedIsOk(s);
    KeptListFits(s.table, visits, |visits|);
    DistinctConfirm(s, files, visits);
    FirstReloadIsQuietExactly(size, files, visits);
  }

  /** What the load leaves, with an empty process table and a clock past its first second, is where runs begin. */
  lemma {:induction false} LoadStartsARun(size: nat, files: seq<ParseResult>, first: seq<ParseResult>, now: nat)
    requires 1 <= size <= 127 && now >= NANOS
    ensures Init(State(Load(size, files).table, Entries(seq(size, i => FREE), seq(size, i => FREE)),
                       Reloading(first, [], false), [], map[], now))
  {
    hide TableOk;
    var s := Load(size, files);
    LoadIsLoaded(size, files, |files|);
    LoadedIsOk(s);
    forall i | 0 <= i < |s.table| ensures TimerOf(s.table[i]) == IDLE {
      assert s.table[i].isActive ==> FromFile(s.table[i], files, |files|);
    }
  }
}
