/** The watch table invariant and the quarantine, over whole runs of the daemon. */
module QuarantineRuns {
  import opened Watches
  import opened Reconcile
  import opened Processing
  import opened Daemon
  import opened SpawnSafety

  ghost predicate WatchInv(s: State) {
    && SpawnInv(s)
    && TableOk(s.watches)
    && s.now >= NANOS
  }

  // ---- the watch table ----

  lemma {:induction false} HeardKeepsTableOk(s: State, w: nat, e: Event, next: Main)
    requires w < |s.watches| && TableOk(s.watches)
    ensures TableOk(Heard(s, w, e, next).watches)
  {
  }

  lemma {:induction false} StepKeepsWatchInv(s: State, l: Label)
    requires WatchInv(s) && Shape(s) && Enabled(s, l)
    ensures WatchInv(Step(s, l))
  {
    hide SpawnInv, TableOk, HandleFile, Purge, Rewatch, Heard;
    StepKeepsSpawnInv(s, l);
    match l
    case ReloadFile =>
      HandleFileKeepsTableOk(Walk(s.watches, s.main.kept, s.main.notify), Visit(s.main.rest[0], s.entries.watchIds));
    case PurgeStale => PurgeKeepsTableOk(Walk(s.watches, s.main.kept, s.main.notify));
    case RewatchSlot(wd, missing) =>
      RewatchKeepsTableOk(s.watches, s.main.next, wd, missing, s.entries.watchIds);
    case DecideOpen(blocked, processed) =>
      HeardKeepsTableOk(s, s.main.w, Open(processed), Step(s, l).main);
    case DecideClose(blocked, processed, clockOk) =>
      HeardKeepsTableOk(s, s.main.w, Close(processed, s.now, clockOk), Step(s, l).main);
    case _ =>
  }

  lemma {:induction false} RunKeepsWatchInv(states: seq<State>, labels: seq<Label>, i: nat)
    requires Run(states, labels) && i <= |labels|
    ensures WatchInv(states[i])
  {
    if i == 0 {
      InitSpawnInv(states[0]);
    } else {
      hide WatchInv, Init;
      RunKeepsWatchInv(states, labels, i - 1);
      NextKeepsWatchInv(states[i - 1], labels[i - 1], states[i]);
    }
  }

  lemma {:induction false} NextKeepsWatchInv(s: State, l: Label, s': State)
    requires WatchInv(s) && Next(s, l, s')
    ensures WatchInv(s')
  {
    StepKeepsWatchInv(s, l);
  }

  /** In every reachable state, field by field: active watches are complete, and differ in basename. */
  lemma {:induction false} WatchesStayGood(states: seq<State>, labels: seq<Label>, i: nat)
    requires Run(states, labels) && i <= |labels|
    ensures var watches := states[i].watches;
            && (forall w :: 0 <= w < |watches| && watches[w].isActive ==>
                  watches[w].filename != "" && watches[w].action != "" &&
                  (watches[w].doDbUpdate ==>
                     watches[w].dbTitle != "" && watches[w].dbAuthor != "" && watches[w].dbComment != ""))
            && (forall v, w :: 0 <= v < w < |watches| && watches[v].isActive && watches[w].isActive ==>
                  Basename(watches[v].filename) != Basename(watches[w].filename))
  {
    RunKeepsWatchInv(states, labels, i);
  }

  // ---- what a slot hears ----

  /** The slot was left alone, or watches the same file on. */
  predicate SameWatcher(before: WatchConfig, after: WatchConfig) {
    after == before || (before.isActive && after.isActive && before.filename == after.filename)
  }

  /**
   * One step, for the events heard by slot w so far. An open or close decided upon while neither the watch nor
   * a blocker ran when it was met, and without the block file, is heard. Reloading or setting up its inotify
   * watch makes the slot start over when it comes to watch another file, or none.
   */
  function HeardAt(h: seq<Event>, s: State, l: Label, s': State, w: nat): seq<Event> {
    match l
    case DecideOpen(blocked, processed) =>
      if s.main == Opening(w, false, false) && !blocked then h + [Open(processed)] else h
    case DecideClose(blocked, processed, clockOk) =>
      if s.main == Closing(w, false, false) && !blocked then h + [Close(processed, s.now, clockOk)] else h
    case ReloadFile => Resumed(h, s, s', w)
    case PurgeStale => Resumed(h, s, s', w)
    case RewatchSlot(_, _) => Resumed(h, s, s', w)
    case _ => h
  }

  function Resumed(h: seq<Event>, s: State, s': State, w: nat): seq<Event> {
    if w < |s.watches| && w < |s'.watches| && SameWatcher(s.watches[w], s'.watches[w]) then h else []
  }

  /** The events slot w heard in the first i steps of a run, from its states and labels alone. */
  function EventsOf(states: seq<State>, labels: seq<Label>, w: nat, i: nat): seq<Event>
    requires i <= |labels| < |states|
  {
    if i == 0 then []
    else HeardAt(EventsOf(states, labels, w, i - 1), states[i - 1], labels[i - 1], states[i], w)
  }

  /** The two fields of the slot are what replaying these events gives. */
  ghost predicate Replays(w: WatchConfig, h: seq<Event>) {
    ClockStarted(h) && Timer(w.pendingProcessing, w.processingTs) == Replay(h, |h|)
  }

  lemma {:induction false} ReplayExtends(h: seq<Event>, e: Event, n: nat)
    requires n <= |h|
    ensures Replay(h + [e], n) == Replay(h, n)
  {
    if n == 0 {
    } else {
      ReplayExtends(h, e, n - 1);
    }
  }

  lemma {:induction false} HeardReplays(s: State, v: nat, w: nat, e: Event, next: Main, h: seq<Event>)
    requires v < |s.watches| && w < |s.watches| && Replays(s.watches[w], h) && (e.Close? ==> e.now >= NANOS)
    ensures Replays(Heard(s, v, e, next).watches[w], if v == w then h + [e] else h)
  {
    hide React;
    if v == w {
      ReplayExtends(h, e, |h|);
      assert (h + [e])[..|h|] == h;
    }
  }

  /** A slot not left to watch its file on has its timer reset. */
  predicate TimerResumed(before: WatchConfig, after: WatchConfig) {
    TimerOf(after) == if SameWatcher(before, after) then TimerOf(before) else IDLE
  }

  lemma {:induction false} HandleFileTimers(s: Walk, v: Visit, w: nat)
    requires w < |s.table|
    ensures TimerResumed(s.table[w], HandleFile(s, v).table[w])
  {
    var d := Judge(s.table, v);
    if d.Ignore? || d.slot != w {
      OtherSlots(s, v, w);
    } else {
      hide Judge;
      OwnSlot(s, v, w);
    }
  }

  lemma {:induction false} OtherSlots(s: Walk, v: Visit, w: nat)
    requires w < |s.table|
    requires var d := Judge(s.table, v); d.Ignore? || d.slot != w
    ensures HandleFile(s, v).table[w] == s.table[w]
  {
    hide Judge;
  }

  lemma {:induction false} OwnSlot(s: Walk, v: Visit, w: nat)
    requires w < |s.table|
    requires var d := Judge(s.table, v); !d.Ignore? && d.slot == w
    ensures TimerResumed(s.table[w], HandleFile(s, v).table[w])
  {
  }

  /** The steps that reload or re-watch: a slot watches on or starts over, and its timer with it. */
  lemma {:induction false} TableStepTimers(s: State, l: Label, w: nat)
    requires Shape(s) && Enabled(s, l) && w < |s.watches| && (l.ReloadFile? || l.PurgeStale? || l.RewatchSlot?)
    ensures |Step(s, l).watches| == |s.watches| && TimerResumed(s.watches[w], Step(s, l).watches[w])
  {
    hide HandleFile;
    if l.ReloadFile? {
      HandleFileTimers(Walk(s.watches, s.main.kept, s.main.notify), Visit(s.main.rest[0], s.entries.watchIds), w);
    }
  }

  lemma {:induction false} OtherStepWatches(s: State, l: Label)
    requires Shape(s) && Enabled(s, l)
    requires !(l.ReloadFile? || l.PurgeStale? || l.RewatchSlot? || l.DecideOpen? || l.DecideClose?)
    ensures Step(s, l).watches == s.watches
  {
    hide WatchOf, IpcSpawns;
  }

  lemma {:induction false} DecideReplays(s: State, l: Label, w: nat, h: seq<Event>)
    requires WatchInv(s) && Shape(s) && Enabled(s, l) && w < |s.watches| && Replays(s.watches[w], h)
    requires l.DecideOpen? || l.DecideClose?
    ensures |Step(s, l).watches| == |s.watches|
    ensures Replays(Step(s, l).watches[w], HeardAt(h, s, l, Step(s, l), w))
  {
    hide Replays, Heard, SpawnInv, TableOk;
    match l
    case DecideOpen(blocked, processed) =>
      HeardReplays(s, s.main.w, w, Open(processed), Polling, h);
    case DecideClose(blocked, processed, clockOk) =>
      HeardReplays(s, s.main.w, w, Close(processed, s.now, clockOk), Step(s, l).main, h);
  }

  lemma {:induction false} NextReplays(s: State, l: Label, s': State, w: nat, h: seq<Event>)
    requires WatchInv(s) && Next(s, l, s') && w < |s.watches| && Replays(s.watches[w], h)
    ensures |s'.watches| == |s.watches| && Replays(s'.watches[w], HeardAt(h, s, l, s', w))
  {
    assert Shape(s);
    hide WatchInv, Step, Enabled, SameWatcher;
    if l.DecideOpen? || l.DecideClose? {
      DecideReplays(s, l, w, h);
    } else if l.ReloadFile? || l.PurgeStale? || l.RewatchSlot? {
      TableStepTimers(s, l, w);
    } else {
      OtherStepWatches(s, l);
    }
  }

  /** In every state of every run: the timer of each slot is the replay of the events it heard. */
  lemma {:induction false} TimersReplayRuns(states: seq<State>, labels: seq<Label>, i: nat, w: nat)
    requires Run(states, labels) && i <= |labels| && w < |states[0].watches|
    ensures |states[i].watches| == |states[0].watches|
    ensures var h := EventsOf(states, labels, w, i);
            && ClockStarted(h)
            && states[i].watches[w].pendingProcessing == Replay(h, |h|).pending
            && states[i].watches[w].processingTs == Replay(h, |h|).ts
  {
    if i == 0 {
    } else {
      hide WatchInv, Init, HeardAt;
      TimersReplayRuns(states, labels, i - 1, w);
      RunKeepsWatchInv(states, labels, i - 1);
      NextReplays(states[i - 1], labels[i - 1], states[i], w, EventsOf(states, labels, w, i - 1));
    }
  }

  // ---- what an event leads to ----

  lemma {:induction false} CloseDecided(s: State, l: Label, s': State, h: seq<Event>)
    requires WatchInv(s) && Next(s, l, s') && l.DecideClose? && s.main.Closing?
    requires s.main.w < |s.watches| && Replays(s.watches[s.main.w], h)
    ensures var e := Close(l.processed, s.now, l.clockOk);
            s'.main ==
            if !s.main.spawned && !s.main.blocker && !l.blocked && SpawnsAt(h + [e], |h|)
            then Forking(s.main.w, Inotify) else Polling
  {
    assert Shape(s);
    hide React, SpawnInv, TableOk;
    ReplayExtends(h, Close(l.processed, s.now, l.clockOk), |h|);
  }

  /**
   * Exactly when a close leads to a spawn, be it of the last slot for want of a match: neither the watch nor a
   * blocker ran when it was met, there is no block file, the target is processed and was so when last opened, and
   * the clock can be read and is over ten whole seconds past the close that started a quarantine, if any did.
   */
  lemma {:induction false} CloseSpawnsExactly(states: seq<State>, labels: seq<Label>, i: nat)
    requires Run(states, labels) && i < |labels| && labels[i].DecideClose?
    ensures states[i].main.Closing? && states[i].main.w < |states[0].watches|
    ensures var s, l := states[i], labels[i];
            var h := EventsOf(states, labels, s.main.w, i) + [Close(l.processed, s.now, l.clockOk)];
            var n := |h| - 1;
            states[i + 1].main ==
            if !s.main.spawned && !s.main.blocker && !l.blocked && l.processed && LatestOpenProcessed(h, n) &&
               (forall f: nat :: Stamp(h, n, f) ==>
                  l.clockOk && s.now / 1_000_000_000 - h[f].now / 1_000_000_000 > 10)
            then Forking(s.main.w, Inotify) else Polling
  {
    var s, l := states[i], labels[i];
    hide SpawnInv, Init, TableOk, Stamp, LatestOpenProcessed, SpawnsAt;
    RunKeepsWatchInv(states, labels, i);
    assert Next(s, l, states[i + 1]);
    ClosingInRange(s, l);
    KeepsSize(states, labels, i);
    TimersReplayRuns(states, labels, i, s.main.w);
    var h := EventsOf(states, labels, s.main.w, i);
    var e := Close(l.processed, s.now, l.clockOk);
    CloseDecided(s, l, states[i + 1], h);
    SpawnsExactly(h + [e], |h|);
  }

  lemma {:induction false} ClosingInRange(s: State, l: Label)
    requires SpawnInv(s) && Enabled(s, l) && l.DecideClose?
    ensures Shape(s) && s.main.Closing? && s.main.w < |s.watches|
  {
  }

  lemma {:induction false} KeepsSize(states: seq<State>, labels: seq<Label>, i: nat)
    requires Run(states, labels) && i <= |labels|
    ensures |states[i].watches| == |states[0].watches| && 1 <= |states[0].watches| <= 127
  {
    TimersReplayRuns(states, labels, i, 0);
  }

  /** Ten real seconds lie between a spawn for an inotify event and the close that started the quarantine. */
  lemma {:induction false} SpawnsOutsideQuarantine(states: seq<State>, labels: seq<Label>, i: nat)
    requires Run(states, labels) && i < |labels| && labels[i].DecideClose? && states[i].main.Closing?
    requires states[i + 1].main.Forking?
    ensures var h := EventsOf(states, labels, states[i].main.w, i) +
                     [Close(labels[i].processed, states[i].now, labels[i].clockOk)];
            var n := |h| - 1;
            && SpawnsAt(h, n) && h[n].processed && LatestOpenProcessed(h, n)
            && forall f: nat :: Stamp(h, n, f) ==> h[n].now - h[f].now > 10_000_000_000
  {
    var s, l := states[i], labels[i];
    hide Init, Next, EventsOf, Stamp, LatestOpenProcessed, SpawnsAt;
    CloseSpawnsExactly(states, labels, i);
    TimersReplayRuns(states, labels, i, s.main.w);
    ClockRuns(states, labels, i);
    MoreThanTenSeconds(EventsOf(states, labels, s.main.w, i), Close(l.processed, s.now, l.clockOk));
  }

  lemma {:induction false} ClockRuns(states: seq<State>, labels: seq<Label>, i: nat)
    requires Run(states, labels) && i <= |labels|
    ensures states[i].now >= NANOS
  {
    RunKeepsWatchInv(states, labels, i);
  }

  lemma {:induction false} MoreThanTenSeconds(past: seq<Event>, e: Event)
    requires ClockStarted(past) && e.Close? && e.now >= NANOS
    requires var h := past + [e];
             && e.processed && LatestOpenProcessed(h, |past|)
             && forall f: nat :: Stamp(h, |past|, f) ==>
                  e.clockOk && e.now / 1_000_000_000 - h[f].now / 1_000_000_000 > 10
    ensures var h := past + [e];
            && SpawnsAt(h, |past|)
            && forall f: nat :: Stamp(h, |past|, f) ==> h[|past|].now - h[f].now > 10_000_000_000
  {
    hide SpawnsAt, LatestOpenProcessed;
    SpawnsExactly(past + [e], |past|);
  }
}
