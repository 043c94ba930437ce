/** What main decides at each of its steps in a run, field by field, and that it is never stuck. */
module Decisions {
  import opened Reconcile
  import opened ProcessTable
  import opened Processing
  import opened Daemon
  import opened SpawnSafety
  import opened QuarantineRuns

  // ---- what main finds out under the lock ----

  /** An event's watch, and whether that or a blocker is registered at that moment. */
  lemma {:induction false} EventMet(states: seq<State>, labels: seq<Label>, i: nat, wd: int)
    requires Run(states, labels) && i < |labels| && labels[i] in {OpenEvent(wd), CloseEvent(wd)}
    ensures |states[i].watches| > 0
    ensures var watches, ids := states[i].watches, states[i].entries.watchIds;
            var w := WatchOf(watches, wd, 0);
            var blocker := exists v :: 0 <= v < |watches| && v in ids && watches[v].isActive && watches[v].blockSpawns;
            states[i + 1] == states[i].(main := if labels[i].OpenEvent? then Opening(w, w in ids, blocker)
                                                else Closing(w, w in ids, blocker))
  {
    hide Init, WatchOf, BlockerRunning;
    RunKeepsSpawnInv(states, labels, i);
    assert Next(states[i], labels[i], states[i + 1]);
    BlockerInFields(states[i].entries.watchIds, states[i].watches);
    SpawnInvInRange(states[i]);
  }

  lemma {:induction false} SpawnInvInRange(s: State)
    requires SpawnInv(s)
    ensures Shape(s)
  {
  }

  lemma {:induction false} RequestMet(states: seq<State>, labels: seq<Label>, i: nat, w: nat, force: bool)
    requires Run(states, labels) && i < |labels| && labels[i] == IpcRequest(w, force)
    ensures w < |states[i].watches| && states[i].watches[w].isActive
    ensures var watches, ids := states[i].watches, states[i].entries.watchIds;
            var blocker := exists v :: 0 <= v < |watches| && v in ids && watches[v].isActive && watches[v].blockSpawns;
            states[i + 1] == states[i].(main := Requested(w, force, w in ids, blocker))
  {
    hide Init, BlockerRunning;
    RunKeepsSpawnInv(states, labels, i);
    assert Next(states[i], labels[i], states[i + 1]);
    BlockerInFields(states[i].entries.watchIds, states[i].watches);
    SpawnInvInRange(states[i]);
  }

  // ---- what it decides ----

  /**
   * Exactly when a request leads to a spawn: the watch did not run when it was met, and either the request is
   * forced and its watch is no blocker, or no blocker ran and there is no block file.
   */
  lemma {:induction false} RequestSpawnsExactly(states: seq<State>, labels: seq<Label>, i: nat, blocked: bool)
    requires Run(states, labels) && i < |labels| && labels[i] == DecideIpc(blocked)
    ensures states[i].main.Requested? && states[i].main.w < |states[i].watches|
    ensures var m := states[i].main;
            var forced := m.force && !states[i].watches[m.w].blockSpawns;
            states[i + 1] == states[i].(main := if !m.spawned && (forced || (!m.blocker && !blocked))
                                                then Forking(m.w, Ipc(forced)) else Polling)
  {
    hide Init;
    RunKeepsSpawnInv(states, labels, i);
    assert Next(states[i], labels[i], states[i + 1]);
    SpawnInvInRange(states[i]);
  }

  /** Nothing is spawned on an open, and a watch is only changed by a reload, or in the timer of what was heard. */
  lemma {:induction false} WatchesOtherwiseKept(states: seq<State>, labels: seq<Label>, i: nat, w: nat)
    requires Run(states, labels) && i < |labels| && w < |states[i].watches|
    requires var l := labels[i]; !l.ReloadFile? && !l.PurgeStale? && !l.RewatchSlot?
    ensures |states[i + 1].watches| == |states[i].watches|
    ensures labels[i].DecideOpen? ==> states[i + 1].main.Polling?
    ensures var before, after := states[i].watches[w], states[i + 1].watches[w];
            && after == before.(pendingProcessing := after.pendingProcessing, processingTs := after.processingTs)
            && (after != before ==>
                  || (labels[i].DecideOpen? && states[i].main == Opening(w, false, false))
                  || (labels[i].DecideClose? && states[i].main == Closing(w, false, false)))
  {
    hide Init, WatchOf;
    RunKeepsSpawnInv(states, labels, i);
    assert Next(states[i], labels[i], states[i + 1]);
    SpawnInvInRange(states[i]);
    StepKeepsOthers(states[i], labels[i], w);
  }

  lemma {:induction false} StepKeepsOthers(s: State, l: Label, w: nat)
    requires Shape(s) && Enabled(s, l) && w < |s.watches| && !l.ReloadFile? && !l.PurgeStale? && !l.RewatchSlot?
    ensures |Step(s, l).watches| == |s.watches|
    ensures l.DecideOpen? ==> Step(s, l).main.Polling?
    ensures var before, after := s.watches[w], Step(s, l).watches[w];
            && after == before.(pendingProcessing := after.pendingProcessing, processingTs := after.processingTs)
            && (after != before ==>
                  || (l.DecideOpen? && s.main == Opening(w, false, false))
                  || (l.DecideClose? && s.main == Closing(w, false, false)))
  {
    hide WatchOf, BlockerRunning, IpcSpawns, Heard;
    match l
    case DecideOpen(blocked, processed) => HeardInFields(s, Open(processed), Polling, w);
    case DecideClose(blocked, processed, clockOk) =>
      HeardInFields(s, Close(processed, s.now, clockOk), Step(s, l).main, w);
    case _ => OtherStepWatches(s, l);
  }

  lemma {:induction false} HeardInFields(s: State, e: Event, next: Main, w: nat)
    requires (s.main.Opening? || s.main.Closing?) && s.main.w < |s.watches| && w < |s.watches|
    ensures var before, after := s.watches[w], Heard(s, s.main.w, e, next).watches[w];
            && after == before.(pendingProcessing := after.pendingProcessing, processingTs := after.processingTs)
            && (w != s.main.w ==> after == before)
  {
    hide React;
  }

  /** A spawn under way stays with its watch and its child, from the decision to its registration. */
  lemma {:induction false} SpawnGoesOn(states: seq<State>, labels: seq<Label>, i: nat)
    requires Run(states, labels) && i < |labels|
    ensures var m, m' := states[i].main, states[i + 1].main;
            match labels[i]
            case Fork(pid) =>
              m.Forking? && m' == Forked(m.w, pid) && states[i + 1].children == states[i].children[pid := Alive]
            case FindSlot =>
              && m.Forked? && m' == SlotFound(m.w, m.pid, if m'.SlotFound? then m'.slot else 0)
              && m'.slot < |states[i].entries.watchIds| && states[i].entries.watchIds[m'.slot] == -1
            case FillSlot =>
              && m.SlotFound? && m' == Registered(m.w, m.pid, m.slot)
              && m.slot < |states[i + 1].entries.watchIds| == |states[i + 1].entries.pids|
              && states[i + 1].entries.watchIds[m.slot] == m.w && states[i + 1].entries.pids[m.slot] == m.pid
            case StartReaper =>
              && m.Registered? && m'.Polling?
              && states[i + 1].reapers == states[i].reapers + [Reaper(m.slot, m.pid, m.w, Started)]
            case Remount(files) => m.Polling? && m' == Reloading(files, [], false)
            case _ => true
  {
    hide Init, HandleFile, Purge, Rewatch;
    RunKeepsSpawnInv(states, labels, i);
    RunKeepsSpawnInv(states, labels, i + 1);
    assert Next(states[i], labels[i], states[i + 1]);
    SpawnInvInRange(states[i]);
    FoundSlotIsFree(states[i + 1]);
  }

  lemma {:induction false} FoundSlotIsFree(s: State)
    requires SpawnInv(s)
    ensures var m, e := s.main, s.entries;
            && |e.pids| == |e.watchIds| && m != Halted(TableFull)
            && (m.SlotFound? ==> m.slot < |e.watchIds| && e.watchIds[m.slot] == -1)
            && (m.Registered? ==> m.slot < |e.watchIds| && e.watchIds[m.slot] == m.w && e.pids[m.slot] == m.pid)
  {
  }

  // ---- what happens beside main ----

  /** Reapers only deal with the child their spawn stored, and time only passes with the clock. */
  lemma {:induction false} WorldMoves(states: seq<State>, labels: seq<Label>, i: nat)
    requires Run(states, labels) && i < |labels|
    ensures !labels[i].Tick? ==> states[i + 1].now == states[i].now
    ensures var s, s' := states[i], states[i + 1];
            match labels[i]
            case Tick(now) => now >= s.now && s' == s.(now := now)
            case ChildExits(pid) =>
              pid in s.children && s.children[pid].Alive? && s' == s.(children := s.children[pid := Zombie])
            case ReadEntry(t) => t < |s.reapers| && s' == Moved(s, t, Waiting(s.reapers[t].pid))
            case WaitReturns(t, ret) =>
              && t < |s.reapers| && ret == s.reapers[t].pid && ret in s.children && s.children[ret].Zombie?
              && s' == Moved(s, t, Reaped(ret)).(children := s.children - {ret})
            case WaitFails(t) => t < |s.reapers| && s' == Moved(s, t, Failed(s.reapers[t].pid))
            case FreeEntry(t) => t < |s.reapers| && s' == Moved(s, t, Done).(entries := s'.entries)
            case _ => true
  {
    hide Init, HandleFile, Purge, Rewatch, WatchOf, BlockerRunning, IpcSpawns, SpawnInv;
    RunKeepsSpawnInv(states, labels, i);
    assert Next(states[i], labels[i], states[i + 1]);
    SpawnInvInRange(states[i]);
    ReadsItsOwn(states[i]);
  }

  function Moved(s: State, t: nat, phase: Phase): State
    requires t < |s.reapers|
  {
    s.(reapers := s.reapers[t := s.reapers[t].(phase := phase)])
  }

  lemma {:induction false} ReadsItsOwn(s: State)
    requires SpawnInv(s)
    ensures forall t :: 0 <= t < |s.reapers| ==>
              (s.reapers[t].phase.Started? ==> s.reapers[t].slot < |s.entries.pids| &&
                                               s.entries.pids[s.reapers[t].slot] == s.reapers[t].pid) &&
              (s.reapers[t].phase.Waiting? ==> s.reapers[t].phase.cpid == s.reapers[t].pid) &&
              (s.reapers[t].phase.Started? || s.reapers[t].phase.Waiting? ==> s.reapers[t].pid > 0)
  {
    forall t | 0 <= t < |s.reapers| && (s.reapers[t].phase.Started? || s.reapers[t].phase.Waiting?)
      ensures SlotOk(s.reapers[t], s.entries) && s.reapers[t].pid > 0
    {
      assert Holds(s.reapers[t]) && Awaits(s.reapers[t]);
    }
  }
}
