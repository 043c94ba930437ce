/** The daemon is never stuck: every process can be reaped, and every request that may spawn something can. */
module Progress {
  import opened Reconcile
  import opened ProcessTable
  import opened Daemon
  import opened SpawnSafety
  import opened Decisions

  /** Whatever the world answers, main can go on. */
  lemma {:induction false} MainGoesOn(s: State)
    requires SpawnInv(s) && !s.main.Halted?
    ensures match s.main
            case Reloading(rest, _, _) => Enabled(s, if rest == [] then PurgeStale else ReloadFile)
            case Rewatching(_) => forall wd, missing :: Enabled(s, RewatchSlot(wd, missing))
            case Polling =>
              && (forall wd :: Enabled(s, OpenEvent(wd)) && Enabled(s, CloseEvent(wd)))
              && (forall files :: Enabled(s, Remount(files)))
              && (forall w: nat, force :: w < |s.watches| && s.watches[w].isActive ==> Enabled(s, IpcRequest(w, force)))
            case Opening(_, _, _) => forall blocked, processed :: Enabled(s, DecideOpen(blocked, processed))
            case Closing(_, _, _) =>
              forall blocked, processed, clockOk :: Enabled(s, DecideClose(blocked, processed, clockOk))
            case Requested(_, _, _, _) => forall blocked :: Enabled(s, DecideIpc(blocked))
            case Forking(_, _) => forall pid :: pid > 0 && pid !in s.children ==> Enabled(s, Fork(pid))
            case Forked(_, _) => Enabled(s, FindSlot)
            case SlotFound(_, _, _) => Enabled(s, FillSlot)
            case Registered(_, _, _) => Enabled(s, StartReaper)
            case _ => true
    ensures Enabled(s, Abort) && Step(s, Abort).main.Halted?
  {
  }

  /** So can the reapers, the children and the clock. */
  lemma {:induction false} WorldGoesOn(s: State)
    requires SpawnInv(s) && !s.main.Halted?
    ensures forall now :: now >= s.now ==> Enabled(s, Tick(now))
    ensures forall pid :: pid in s.children && s.children[pid].Alive? ==> Enabled(s, ChildExits(pid))
    ensures forall t: nat :: t < |s.reapers| ==>
              match s.reapers[t].phase
              case Started => Enabled(s, ReadEntry(t))
              case Waiting(_) =>
                && s.reapers[t].pid in s.children && Enabled(s, WaitFails(t))
                && (s.children[s.reapers[t].pid].Zombie? ==> Enabled(s, WaitReturns(t, s.reapers[t].pid)))
              case Reaped(_) => Enabled(s, FreeEntry(t))
              case _ => true
  {
    forall t: nat | t < |s.reapers| && s.reapers[t].phase.Waiting?
      ensures s.reapers[t].pid in s.children && s.reapers[t].phase.cpid == s.reapers[t].pid
    {
      assert SlotOk(s.reapers[t], s.entries);
    }
  }

  // ---- whole stretches ----

  /** States that follow one another by enabled steps. */
  ghost predicate Path(states: seq<State>, labels: seq<Label>) {
    |states| == |labels| + 1 && forall i :: 0 <= i < |labels| ==> Next(states[i], labels[i], states[i + 1])
  }

  lemma {:induction false} OneMore(states: seq<State>, labels: seq<Label>, l: Label) returns (next: State)
    requires Path(states, labels) && SpawnInv(states[|labels|]) && Enabled(states[|labels|], l)
    ensures Path(states + [next], labels + [l]) && SpawnInv(next)
    ensures Shape(states[|labels|]) && next == Step(states[|labels|], l)
  {
    var s := states[|labels|];
    SpawnInvInRange(s);
    StepKeepsSpawnInv(s, l);
    hide SpawnInv, Step, Enabled;
    next := Step(s, l);
    var after, steps := states + [next], labels + [l];
    forall i | 0 <= i < |steps| ensures Next(after[i], steps[i], after[i + 1]) {
      if i < |labels| {
        assert Next(states[i], labels[i], states[i + 1]);
      }
    }
  }

  /** Main is where it was, and reaper t is through and has given its entry back. */
  ghost predicate Freed(s: State, end: State, t: nat)
    requires t < |s.reapers|
  {
    && end.main == s.main && t < |end.reapers| && end.reapers[t].phase == Done
    && s.reapers[t].slot < |end.entries.watchIds| && end.entries.watchIds[s.reapers[t].slot] == -1
  }

  lemma {:induction false} FreesEntry(before: seq<State>, past: seq<Label>, s: State, t: nat)
    returns (states: seq<State>, labels: seq<Label>)
    requires Path(before, past) && before[|past|] == s && SpawnInv(s) && !s.main.Halted?
    requires t < |s.reapers| && s.reapers[t].phase.Reaped?
    ensures Path(states, labels) && states[0] == before[0] && Freed(s, states[|labels|], t)
  {
    hide SpawnInv, ApplyMain;
    WorldGoesOn(s);
    var freed := OneMore(before, past, FreeEntry(t));
    states, labels := before + [freed], past + [FreeEntry(t)];
  }

  lemma {:induction false} ReapsZombie(before: seq<State>, past: seq<Label>, s: State, t: nat)
    returns (states: seq<State>, labels: seq<Label>)
    requires Path(before, past) && before[|past|] == s && SpawnInv(s) && !s.main.Halted?
    requires t < |s.reapers| && s.reapers[t].phase.Waiting?
    requires s.reapers[t].pid in s.children && s.children[s.reapers[t].pid].Zombie?
    ensures Path(states, labels) && states[0] == before[0] && Freed(s, states[|labels|], t)
  {
    hide SpawnInv, ApplyMain, Path;
    WorldGoesOn(s);
    var pid := s.reapers[t].pid;
    WaitsForItsOwn(s, t, pid);
    PathLength(before, past);
    var reaped := OneMore(before, past, WaitReturns(t, pid));
    states, labels := FreesEntry(before + [reaped], past + [WaitReturns(t, pid)], reaped, t);
  }

  lemma {:induction false} PathLength(states: seq<State>, labels: seq<Label>)
    requires Path(states, labels)
    ensures |states| == |labels| + 1
  {
  }

  lemma {:induction false} Reaps(before: seq<State>, past: seq<Label>, s: State, t: nat)
    returns (states: seq<State>, labels: seq<Label>)
    requires Path(before, past) && before[|past|] == s && SpawnInv(s) && !s.main.Halted?
    requires t < |s.reapers| && s.reapers[t].phase.Waiting?
    ensures Path(states, labels) && states[0] == before[0] && Freed(s, states[|labels|], t)
  {
    hide SpawnInv, ApplyMain, Path;
    WorldGoesOn(s);
    PathLength(before, past);
    var pid := s.reapers[t].pid;
    if s.children[pid].Alive? {
      var exited := OneMore(before, past, ChildExits(pid));
      states, labels := ReapsZombie(before + [exited], past + [ChildExits(pid)], exited, t);
    } else {
      states, labels := ReapsZombie(before, past, s, t);
    }
  }

  /** From any state a reaper that has not given up can come to free its entry, with main staying where it is. */
  lemma {:induction false} EntryCanBeFreed(s: State, t: nat) returns (states: seq<State>, labels: seq<Label>)
    requires SpawnInv(s) && !s.main.Halted? && t < |s.reapers|
    requires s.reapers[t].phase.Started? || s.reapers[t].phase.Waiting? || s.reapers[t].phase.Reaped?
    ensures Path(states, labels) && states[0] == s && Freed(s, states[|labels|], t)
  {
    hide SpawnInv, ApplyMain;
    if s.reapers[t].phase.Started? {
      WorldGoesOn(s);
      var waiting := OneMore([s], [], ReadEntry(t));
      states, labels := Reaps([s] + [waiting], [] + [ReadEntry(t)], waiting, t);
    } else if s.reapers[t].phase.Waiting? {
      states, labels := Reaps([s], [], s, t);
    } else {
      states, labels := FreesEntry([s], [], s, t);
    }
  }

  lemma {:induction false} WaitsForItsOwn(s: State, t: nat, pid: int)
    requires SpawnInv(s) && t < |s.reapers| && s.reapers[t].phase.Waiting? && s.reapers[t].pid == pid
    ensures s.reapers[t].phase.cpid == pid
  {
    assert SlotOk(s.reapers[t], s.entries);
  }

  /** A request for a watch that does not run, forced or with no blocker about, can come to start its process. */
  lemma {:induction false} RequestCanSpawn(s: State, w: nat, force: bool, pid: int)
    returns (states: seq<State>, labels: seq<Label>)
    requires SpawnInv(s) && s.main.Polling? && pid > 0 && pid !in s.children
    requires w < |s.watches| && s.watches[w].isActive && w !in s.entries.watchIds
    requires (force && !s.watches[w].blockSpawns) ||
             forall v :: 0 <= v < |s.watches| && v in s.entries.watchIds ==>
               !(s.watches[v].isActive && s.watches[v].blockSpawns)
    ensures Path(states, labels) && states[0] == s
    ensures var end := states[|labels|];
            && end.main == Polling && w in end.entries.watchIds && end.watches == s.watches
            && |end.reapers| == |s.reapers| + 1 && end.reapers[|s.reapers|].phase == Started
            && end.reapers[|s.reapers|].watch == w && end.reapers[|s.reapers|].pid == pid
  {
    hide SpawnInv, BlockerRunning, ApplyWorld, HandleFile, Purge, Rewatch;
    BlockerInFields(s.entries.watchIds, s.watches);
    states, labels := [s], [];
    var asked := OneMore(states, labels, IpcRequest(w, force));
    states, labels := states + [asked], labels + [IpcRequest(w, force)];
    var decided := OneMore(states, labels, DecideIpc(false));
    states, labels := states + [decided], labels + [DecideIpc(false)];
    assert decided.main.Forking? && decided.main.w == w;
    var rest, steps := SpawnCompletes(states, labels, decided, w, pid);
    states, labels := rest, steps;
  }

  lemma {:induction false} SpawnCompletes(before: seq<State>, past: seq<Label>, s: State, w: nat, pid: int)
    returns (states: seq<State>, labels: seq<Label>)
    requires Path(before, past) && before[|past|] == s && SpawnInv(s)
    requires s.main.Forking? && s.main.w == w && w < |s.watches| && pid > 0 && pid !in s.children
    ensures Path(states, labels) && states[0] == before[0]
    ensures var end := states[|labels|];
            && end.main == Polling && w in end.entries.watchIds && end.watches == s.watches
            && |end.reapers| == |s.reapers| + 1 && end.reapers[|s.reapers|].phase == Started
            && end.reapers[|s.reapers|].watch == w && end.reapers[|s.reapers|].pid == pid
  {
    hide SpawnInv, ApplyWorld, HandleFile, Purge, Rewatch;
    states, labels := before, past;
    var forked := OneMore(states, labels, Fork(pid));
    states, labels := states + [forked], labels + [Fork(pid)];
    var found := OneMore(states, labels, FindSlot);
    FoundSlotIsFree(found);
    states, labels := states + [found], labels + [FindSlot];
    var filled := OneMore(states, labels, FillSlot);
    FoundSlotIsFree(filled);
    assert filled.entries.watchIds[filled.main.slot] == w;
    states, labels := states + [filled], labels + [FillSlot];
    var started := OneMore(states, labels, StartReaper);
    states, labels := states + [started], labels + [StartReaper];
  }
}
