/**
 * Spawn blockers over whole runs: at most one of them runs, and only forced requests for other watches get
 * past it, as long as no running watch loses its config and new_watch_list stays within its array.
 */
module BlockerRuns {
  import opened Watches
  import opened Reconcile
  import opened ReloadTracking
  import opened ReloadOutcome
  import opened ProcessTable
  import opened Processing
  import opened Daemon
  import opened QuarantineRuns

  /** Every watch with a registered process is active and still has a file naming it. */
  ghost predicate RunningNamed(watchIds: seq<int>, watches: seq<WatchConfig>, kept: seq<int>, files: seq<ParseResult>) {
    forall w :: w in watchIds && 0 <= w < |watches| ==> w in kept || NamedBy(files, watches[w].filename)
  }

  /**
   * What the run must grant: events of active watches, directories that still name what is running, and, for
   * the C code to mean anything, no more entries on new_watch_list than it has room for.
   */
  ghost predicate Benign(s: State, l: Label) {
    match l
    case OpenEvent(wd) => exists i :: 0 <= i < |s.watches| && s.watches[i].isActive && s.watches[i].inotifyWd == wd
    case CloseEvent(wd) => exists i :: 0 <= i < |s.watches| && s.watches[i].isActive && s.watches[i].inotifyWd == wd
    case Remount(files) => RunningNamed(s.entries.watchIds, s.watches, [], files)
    case PurgeStale => s.main.Reloading? ==> |s.main.kept| <= |s.watches|
    case _ => true
  }

  ghost predicate RunningActive(watchIds: seq<int>, watches: seq<WatchConfig>) {
    forall w :: w in watchIds && 0 <= w < |watches| ==> watches[w].isActive
  }

  ghost predicate OneBlocker(watchIds: seq<int>, watches: seq<WatchConfig>) {
    forall i, j :: 0 <= i < j < |watchIds| ==> !(Blocks(watches, watchIds[i]) && Blocks(watches, watchIds[j]))
  }

  /** What main knows about blockers where it is. */
  ghost predicate MainAndBlockers(m: Main, watchIds: seq<int>, watches: seq<WatchConfig>) {
    match m
    case Opening(w, _, blocker) => Active(watches, w)
    case Closing(w, _, blocker) => Active(watches, w) && (!blocker ==> !BlockerRunning(watchIds, watches))
    case Requested(w, _, _, blocker) => Active(watches, w) && (!blocker ==> !BlockerRunning(watchIds, watches))
    case Forking(w, request) =>
      Active(watches, w) && (BlockerRunning(watchIds, watches) ==> request == Ipc(true) && !Blocks(watches, w))
    case Forked(w, _) => Active(watches, w) && (BlockerRunning(watchIds, watches) ==> !Blocks(watches, w))
    case SlotFound(w, _, _) => Active(watches, w) && (BlockerRunning(watchIds, watches) ==> !Blocks(watches, w))
    case _ => true
  }

  predicate Active(watches: seq<WatchConfig>, w: nat) {
    w < |watches| && watches[w].isActive
  }

  ghost predicate ReloadOk(m: Main, watchIds: seq<int>, watches: seq<WatchConfig>) {
    m.Reloading? ==> RunningNamed(watchIds, watches, m.kept, m.rest)
  }

  ghost predicate BlockInv(s: State) {
    && WatchInv(s)
    && RunningActive(s.entries.watchIds, s.watches)
    && OneBlocker(s.entries.watchIds, s.watches)
    && MainAndBlockers(s.main, s.entries.watchIds, s.watches)
    && ReloadOk(s.main, s.entries.watchIds, s.watches)
  }

  // ---- steps that change watches ----

  /** Running watches keep what matters here. */
  ghost predicate SameRunning(watchIds: seq<int>, before: seq<WatchConfig>, after: seq<WatchConfig>) {
    && |after| == |before|
    && forall w :: w in watchIds && 0 <= w < |before| ==>
         after[w].isActive == before[w].isActive && after[w].blockSpawns == before[w].blockSpawns &&
         after[w].filename == before[w].filename
  }

  lemma {:induction false} SameRunningKeeps(watchIds: seq<int>, before: seq<WatchConfig>, after: seq<WatchConfig>)
    requires SameRunning(watchIds, before, after)
    requires RunningActive(watchIds, before) && OneBlocker(watchIds, before)
    ensures RunningActive(watchIds, after) && OneBlocker(watchIds, after)
    ensures BlockerRunning(watchIds, after) <==> BlockerRunning(watchIds, before)
  {
  }

  /** One file later, what runs is on the list or named by a file to come. */
  lemma {:induction false} NamedStep(s: Walk, rest: seq<ParseResult>, watchIds: seq<int>)
    requires rest != [] && TableOk(s.table)
    requires RunningActive(watchIds, s.table) && RunningNamed(watchIds, s.table, s.kept, rest)
    ensures var s' := HandleFile(s, Visit(rest[0], watchIds)); RunningNamed(watchIds, s'.table, s'.kept, rest[1..])
  {
    hide TableOk, HandleFile, NamedBy;
    var v := Visit(rest[0], watchIds);
    var s' := HandleFile(s, v);
    var i := FileEffect(s, v);
    NamesShift(rest);
    forall w | w in watchIds && 0 <= w < |s.table| ensures s'.table[w] == s.table[w] {
      FileSparesRunning(s, v, w);
    }
    RunningStillNamed(s, s', rest, watchIds, i);
  }

  lemma {:induction false} NamesShift(rest: seq<ParseResult>)
    requires rest != []
    ensures forall f :: NamedBy(rest, f) <==> NameOf(rest[0]) == f || NamedBy(rest[1..], f)
  {
    forall f ensures NamedBy(rest, f) <==> NameOf(rest[0]) == f || NamedBy(rest[1..], f) {
      if m :| 0 <= m < |rest| && NameOf(Pending(rest)[m].file) == f {
        assert m > 0 ==> Pending(rest[1..])[m - 1].file == rest[m];
      }
      if m :| 0 <= m < |rest| - 1 && NameOf(Pending(rest[1..])[m].file) == f {
        assert Pending(rest)[m + 1].file == rest[1..][m];
      }
      assert Pending(rest)[0].file == rest[0];
    }
  }

  lemma {:induction false} RunningStillNamed(s: Walk, s': Walk, rest: seq<ParseResult>, watchIds: seq<int>, i: int)
    requires rest != [] && RunningActive(watchIds, s.table) && RunningNamed(watchIds, s.table, s.kept, rest)
    requires if i == -1 then s' == s else Grew(s, s', i, NameOf(rest[0])) || Shrank(s, s', i, NameOf(rest[0]))
    requires OthersNamedDifferently(s.table, i, NameOf(rest[0]))
    requires forall w :: w in watchIds && 0 <= w < |s.table| ==> s'.table[w] == s.table[w]
    requires forall f :: NamedBy(rest, f) <==> NameOf(rest[0]) == f || NamedBy(rest[1..], f)
    ensures RunningNamed(watchIds, s'.table, s'.kept, rest[1..])
  {
  }

  lemma {:induction false} ReloadFileBlockers(s: State)
    requires BlockInv(s) && Shape(s) && s.main.Reloading? && s.main.rest != []
    ensures var s' := DoReloadFile(s);
            && RunningActive(s'.entries.watchIds, s'.watches) && OneBlocker(s'.entries.watchIds, s'.watches)
            && ReloadOk(s'.main, s'.entries.watchIds, s'.watches)
  {
    hide WatchInv, OneBlocker, HandleFile;
    var s' := DoReloadFile(s);
    var walk := Walk(s.watches, s.main.kept, s.main.notify);
    TableOkOf(s);
    NamedStep(walk, s.main.rest, s.entries.watchIds);
    forall w | w in s.entries.watchIds && 0 <= w < |s.watches| ensures s'.watches[w] == s.watches[w] {
      FileSparesRunning(walk, Visit(s.main.rest[0], s.entries.watchIds), w);
    }
    SameRunningKeeps(s.entries.watchIds, s.watches, s'.watches);
  }

  lemma {:induction false} TableOkOf(s: State)
    requires WatchInv(s)
    ensures TableOk(s.watches) && Shape(s)
  {
  }

  lemma {:induction false} PurgeBlockers(s: State)
    requires BlockInv(s) && s.main.Reloading? && s.main.rest == [] && |s.main.kept| <= |s.watches|
    ensures var s' := DoPurge(s);
            RunningActive(s'.entries.watchIds, s'.watches) && OneBlocker(s'.entries.watchIds, s'.watches)
  {
    hide WatchInv, OneBlocker;
    TableOkOf(s);
    var s' := DoPurge(s);
    assert Listed(s.main.kept, |s.watches|) == s.main.kept;
    forall w | w in s.entries.watchIds && 0 <= w < |s.watches| ensures s'.watches[w] == s.watches[w] {
      assert !NamedBy([], s.watches[w].filename);
    }
    SameRunningKeeps(s.entries.watchIds, s.watches, s'.watches);
  }

  lemma {:induction false} RewatchBlockers(s: State, wd: int, missing: bool)
    requires BlockInv(s) && s.main.Rewatching? && s.main.next < |s.watches|
    ensures var s' := DoRewatch(s, wd, missing);
            RunningActive(s'.entries.watchIds, s'.watches) && OneBlocker(s'.entries.watchIds, s'.watches)
  {
  }

  lemma {:induction false} HeardBlockers(s: State, w: nat, e: Event, next: Main)
    requires w < |s.watches|
    requires RunningActive(s.entries.watchIds, s.watches) && OneBlocker(s.entries.watchIds, s.watches)
    ensures var s' := Heard(s, w, e, next);
            && RunningActive(s'.entries.watchIds, s'.watches) && OneBlocker(s'.entries.watchIds, s'.watches)
            && (BlockerRunning(s'.entries.watchIds, s'.watches) <==> BlockerRunning(s.entries.watchIds, s.watches))
            && (Active(s'.watches, w) <==> Active(s.watches, w))
  {
  }

  // ---- steps that change entries ----

  lemma {:induction false} FillSlotBlockers(watchIds: seq<int>, watches: seq<WatchConfig>, slot: nat, w: nat)
    requires slot < |watchIds| && watchIds[slot] == FREE && Active(watches, w)
    requires RunningActive(watchIds, watches) && OneBlocker(watchIds, watches)
    requires BlockerRunning(watchIds, watches) ==> !Blocks(watches, w)
    ensures RunningActive(watchIds[slot := w], watches) && OneBlocker(watchIds[slot := w], watches)
  {
  }

  lemma {:induction false} FreeEntryBlockers(m: Main, watchIds: seq<int>, watches: seq<WatchConfig>, slot: nat)
    requires slot < |watchIds|
    requires RunningActive(watchIds, watches) && OneBlocker(watchIds, watches)
    requires MainAndBlockers(m, watchIds, watches) && ReloadOk(m, watchIds, watches)
    ensures var ids := watchIds[slot := FREE];
            && RunningActive(ids, watches) && OneBlocker(ids, watches)
            && MainAndBlockers(m, ids, watches) && ReloadOk(m, ids, watches)
  {
  }

  // ---- every step, every run ----

  lemma {:induction false} DecisionsKeepBlockers(s: State, l: Label)
    requires BlockInv(s) && Shape(s) && Enabled(s, l) && (l.DecideOpen? || l.DecideClose? || l.DecideIpc?)
    ensures var s' := Step(s, l);
            && RunningActive(s'.entries.watchIds, s'.watches) && OneBlocker(s'.entries.watchIds, s'.watches)
            && MainAndBlockers(s'.main, s'.entries.watchIds, s'.watches)
            && ReloadOk(s'.main, s'.entries.watchIds, s'.watches)
  {
    hide WatchInv, OneBlocker, RunningActive, BlockerRunning, Heard;
    var s' := Step(s, l);
    match l
    case DecideOpen(blocked, processed) =>
      HeardBlockers(s, s.main.w, Open(processed), Polling);
    case DecideClose(blocked, processed, clockOk) =>
      HeardBlockers(s, s.main.w, Close(processed, s.now, clockOk), s'.main);
    case DecideIpc(blocked) =>
  }

  lemma {:induction false} StepKeepsBlockInv(s: State, l: Label)
    requires BlockInv(s) && Shape(s) && Enabled(s, l) && Benign(s, l)
    ensures BlockInv(Step(s, l))
  {
    hide WatchInv, RunningActive, OneBlocker, BlockerRunning, DoReloadFile, DoPurge, DoRewatch, RunningNamed;
    StepKeepsWatchInv(s, l);
    var s' := Step(s, l);
    match l
    case ReloadFile =>
      ReloadFileBlockers(s);
    case PurgeStale =>
      PurgeBlockers(s);
    case RewatchSlot(wd, missing) =>
      RewatchBlockers(s, wd, missing);
    case DecideOpen(_, _) => DecisionsKeepBlockers(s, l);
    case DecideClose(_, _, _) => DecisionsKeepBlockers(s, l);
    case DecideIpc(_) => DecisionsKeepBlockers(s, l);
    case FillSlot =>
      FreeSlotOf(s);
      FillSlotBlockers(s.entries.watchIds, s.watches, s.main.slot, s.main.w);
    case FreeEntry(t) =>
      FreeEntryBlockers(s.main, s.entries.watchIds, s.watches, s.reapers[t].slot);
    case _ =>
  }

  lemma {:induction false} FreeSlotOf(s: State)
    requires WatchInv(s) && s.main.SlotFound?
    ensures Shape(s) && s.entries.watchIds[s.main.slot] == FREE
  {
  }

  /** A run whose directories still name what is running, and whose events belong to active watches. */
  ghost predicate BenignRun(states: seq<State>, labels: seq<Label>) {
    && Run(states, labels)
    && forall i :: 0 <= i < |labels| ==> Benign(states[i], labels[i])
  }

  lemma {:induction false} InitBlockInv(s: State)
    requires Init(s)
    ensures BlockInv(s)
  {
  }

  lemma {:induction false} RunKeepsBlockInv(states: seq<State>, labels: seq<Label>, i: nat)
    requires BenignRun(states, labels) && i <= |labels|
    ensures BlockInv(states[i])
  {
    if i == 0 {
      InitBlockInv(states[0]);
    } else {
      hide BlockInv, Init, Benign;
      RunKeepsBlockInv(states, labels, i - 1);
      NextKeepsBlockInv(states[i - 1], labels[i - 1], states[i]);
    }
  }

  lemma {:induction false} NextKeepsBlockInv(s: State, l: Label, s': State)
    requires BlockInv(s) && Next(s, l, s') && Benign(s, l)
    ensures BlockInv(s')
  {
    TableOkOf(s);
    StepKeepsBlockInv(s, l);
  }

  /** In every state: of all registered processes and the spawn under way, one at most is a blocker's. */
  lemma {:induction false} AtMostOneBlocker(states: seq<State>, labels: seq<Label>, i: nat, v: nat, w: nat)
    requires BenignRun(states, labels) && i <= |labels| && v != w
    requires v < |states[i].watches| && w < |states[i].watches| && v in states[i].entries.watchIds
    requires var m := states[i].main;
             w in states[i].entries.watchIds || ((m.Forked? || m.SlotFound?) && m.w == w)
    ensures states[i].watches[v].isActive && states[i].watches[w].isActive
    ensures !(states[i].watches[v].blockSpawns && states[i].watches[w].blockSpawns)
  {
    RunKeepsBlockInv(states, labels, i);
    BlockerPairs(states[i], v, w);
  }

  lemma {:induction false} BlockerPairs(s: State, v: nat, w: nat)
    requires BlockInv(s) && v != w && v < |s.watches| && w < |s.watches| && v in s.entries.watchIds
    requires w in s.entries.watchIds || ((s.main.Forked? || s.main.SlotFound?) && s.main.w == w)
    ensures s.watches[v].isActive && s.watches[w].isActive
    ensures !(s.watches[v].blockSpawns && s.watches[w].blockSpawns)
  {
    hide WatchInv;
    var ids := s.entries.watchIds;
    var i :| 0 <= i < |ids| && ids[i] == v;
    if w in ids {
      var j :| 0 <= j < |ids| && ids[j] == w;
    } else if s.watches[v].isActive && s.watches[v].blockSpawns {
      assert Blocks(s.watches, ids[i]);
    }
  }

  /** A process forked while a blocker runs was asked for by force, and does not block spawns itself. */
  lemma {:induction false} OnlyForcedPastBlocker(states: seq<State>, labels: seq<Label>, i: nat, v: nat)
    requires BenignRun(states, labels) && i < |labels| && labels[i].Fork? && states[i].main.Forking?
    requires v in states[i].entries.watchIds && v < |states[i].watches|
    requires states[i].watches[v].isActive && states[i].watches[v].blockSpawns
    ensures states[i].main.w < |states[i].watches| && !states[i].watches[states[i].main.w].blockSpawns
    ensures states[i].main.request == Ipc(true)
  {
    RunKeepsBlockInv(states, labels, i);
    BlockerInFields(states[i].entries.watchIds, states[i].watches);
  }

  /** Running processes never share a target file, nor its basename. */
  lemma {:induction false} RunningTargetsDiffer(states: seq<State>, labels: seq<Label>, i: nat, a: nat, b: nat)
    requires BenignRun(states, labels) && i <= |labels|
    requires a < b < |states[i].entries.watchIds|
    requires states[i].entries.watchIds[a] != FREE && states[i].entries.watchIds[b] != FREE
    ensures var s := states[i];
            var v, w := s.entries.watchIds[a], s.entries.watchIds[b];
            && 0 <= v < |s.watches| && 0 <= w < |s.watches|
            && Basename(s.watches[v].filename) != Basename(s.watches[w].filename)
  {
    RunKeepsBlockInv(states, labels, i);
    var s := states[i];
    var v, w := s.entries.watchIds[a], s.entries.watchIds[b];
    assert v in s.entries.watchIds && w in s.entries.watchIds;
    if Basename(s.watches[v].filename) == Basename(s.watches[w].filename) {
      NamedUnique(s.watches, v, w);
    }
  }

  // ---- without that assumption ----

  /**
   * The purge does not ask what is running. Of blockers that run throughout a reload, one is seen afterwards if
   * and only if a file of the directory names one.
   */
  lemma {:induction false} BlockingSurvivesReload(before: seq<WatchConfig>, visits: seq<Visit>, watchIds: seq<int>)
    requires TableOk(before) && ListInBounds(before, visits) && RunningActive(watchIds, before)
    requires forall m, w :: 0 <= m < |visits| && w in watchIds && w != FREE ==> w in visits[m].spawnedIds
    ensures var after := Reload(before, visits).table;
            (exists w :: 0 <= w < |after| && w in watchIds && after[w].isActive && after[w].blockSpawns) <==>
            (exists w :: 0 <= w < |before| && w in watchIds && before[w].isActive && before[w].blockSpawns &&
                         Seen(visits, |visits|, before[w].filename))
  {
    hide TableOk, ListInBounds, WalkTo, Seen;
    var after := Reload(before, visits).table;
    forall w | 0 <= w < |before| && w in watchIds
      ensures after[w] == if Seen(visits, |visits|, before[w].filename) then before[w] else CLEARED
    {
      RunningWatchUnchanged(before, visits, w);
    }
  }
}
