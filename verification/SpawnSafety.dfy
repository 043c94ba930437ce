/**
 * The spawn and reap protocol: check, fork, slot search and slot insert happen in separate locked
 * regions, and still no watch is ever registered twice, no slot is lost, and no child is mixed up.
 */
module SpawnSafety {
  import opened Pigeonhole
  import opened Reconcile
  import opened ProcessTable
  import opened Daemon

  /** The reaper's slot is its own: from its creation until it frees it, or for ever after a failed wait. */
  predicate Holds(r: Reaper) {
    !r.phase.Done?
  }

  /** The reaper is going to wait for its child. */
  predicate Awaits(r: Reaper) {
    r.phase.Started? || r.phase.Waiting?
  }

  predicate CarriesChild(m: Main) {
    m.Forked? || m.SlotFound? || m.Registered?
  }

  /** Entries are free or occupied in both arrays, and no watch has two of them. */
  ghost predicate EntriesOk(e: Entries) {
    && |e.pids| == |e.watchIds|
    && (forall i :: 0 <= i < |e.pids| ==> (e.watchIds[i] == FREE <==> e.pids[i] == FREE))
    && (forall i :: 0 <= i < |e.pids| && e.watchIds[i] != FREE ==> 0 <= e.watchIds[i] < |e.pids|)
    && (forall i :: 0 <= i < |e.pids| && e.watchIds[i] != FREE ==> e.pids[i] > 0)
    && (forall i, j :: 0 <= i < j < |e.pids| && e.watchIds[i] != FREE ==> e.watchIds[i] != e.watchIds[j])
  }

  /** What main found out under the lock is still true when it acts on it. */
  ghost predicate MainOk(m: Main, e: Entries) {
    match m
    case Opening(w, spawned, _) => !spawned ==> w !in e.watchIds
    case Closing(w, spawned, _) => !spawned ==> w !in e.watchIds
    case Requested(w, _, spawned, _) => !spawned ==> w !in e.watchIds
    case Forking(w, _) => w !in e.watchIds
    case Forked(w, pid) => w !in e.watchIds
    case SlotFound(w, pid, slot) =>
      w !in e.watchIds && slot < |e.watchIds| && e.watchIds[slot] == FREE
    case Registered(w, pid, slot) =>
      slot < |e.watchIds| == |e.pids| && e.watchIds[slot] == w && e.pids[slot] == pid
    case _ => true
  }

  /** The slot holds what the reaper's spawn stored there, and that is what the reaper reads. */
  ghost predicate SlotOk(r: Reaper, e: Entries) {
    && r.slot < |e.watchIds| == |e.pids|
    && e.watchIds[r.slot] == r.watch && e.pids[r.slot] == r.pid
    && (r.phase.Waiting? || r.phase.Reaped? || r.phase.Failed? ==> r.phase.cpid == r.pid)
  }

  ghost predicate Owned(reapers: seq<Reaper>, m: Main, e: Entries) {
    && (forall t :: 0 <= t < |reapers| && Holds(reapers[t]) ==> SlotOk(reapers[t], e))
    && (forall t, u :: 0 <= t < u < |reapers| && Holds(reapers[t]) && Holds(reapers[u]) ==>
          reapers[t].slot != reapers[u].slot)
    && (m.Registered? ==> forall t :: 0 <= t < |reapers| && Holds(reapers[t]) ==> reapers[t].slot != m.slot)
  }

  /** Children not waited for yet belong to main or to exactly one reaper. */
  ghost predicate ChildrenOk(reapers: seq<Reaper>, m: Main, children: map<int, Child>) {
    && (forall pid :: pid in children ==> pid > 0)
    && (forall t :: 0 <= t < |reapers| && Awaits(reapers[t]) ==> reapers[t].pid in children)
    && (forall t, u :: 0 <= t < u < |reapers| && Awaits(reapers[t]) && Awaits(reapers[u]) ==>
          reapers[t].pid != reapers[u].pid)
    && (CarriesChild(m) ==> m.pid in children)
    && (CarriesChild(m) ==> forall t :: 0 <= t < |reapers| && Awaits(reapers[t]) ==> reapers[t].pid != m.pid)
  }

  /** Someone is responsible for the child: main, the reaper that awaits it, or one whose waitpid failed. */
  ghost predicate Claimed(pid: int, reapers: seq<Reaper>, m: Main) {
    || (CarriesChild(m) && m.pid == pid)
    || exists t :: 0 <= t < |reapers| && (Awaits(reapers[t]) || reapers[t].phase.Failed?) && reapers[t].pid == pid
  }

  /** As long as the daemon runs, no child is forgotten. */
  ghost predicate AllClaimed(reapers: seq<Reaper>, m: Main, children: map<int, Child>) {
    !m.Halted? ==> forall pid :: pid in children ==> Claimed(pid, reapers, m)
  }

  ghost predicate SpawnInv(s: State) {
    && Shape(s)
    && EntriesOk(s.entries)
    && MainOk(s.main, s.entries)
    && Owned(s.reapers, s.main, s.entries)
    && ChildrenOk(s.reapers, s.main, s.children)
    && AllClaimed(s.reapers, s.main, s.children)
    && s.main != Halted(TableFull)
  }

  // ---- main's steps ----

  /** Steps of main outside a spawn: they may change watches, and remember what they read. */
  lemma {:induction false} QuietMainStep(s: State, s': State)
    requires SpawnInv(s) && Shape(s') && !s.main.Halted?
    requires s'.entries == s.entries && s'.reapers == s.reapers && s'.children == s.children
    requires !CarriesChild(s.main) && !CarriesChild(s'.main)
    requires MainOk(s'.main, s'.entries) && s'.main != Halted(TableFull)
    ensures SpawnInv(s')
  {
  }

  lemma {:induction false} ForkStep(s: State, pid: int)
    requires SpawnInv(s) && Enabled(s, Fork(pid)) && s.main.Forking?
    ensures SpawnInv(Step(s, Fork(pid)))
  {
  }

  /** The slot search succeeds: a watch that is not registered leaves an entry free. */
  lemma {:induction false} SearchSucceeds(e: Entries, w: int)
    requires EntriesOk(e) && 0 <= w < |e.pids| && w !in e.watchIds
    ensures IndexOf(e.watchIds, FREE, 0) >= 0
  {
    SomeSlotIsFree(e.watchIds, w);
  }

  lemma {:induction false} FindSlotStep(s: State)
    requires SpawnInv(s) && s.main.Forked?
    ensures SpawnInv(Step(s, FindSlot))
  {
    var s' := Step(s, FindSlot);
    SearchSucceeds(s.entries, s.main.w);
    forall p | p in s'.children ensures Claimed(p, s'.reapers, s'.main) {
      assert Claimed(p, s.reapers, s.main);
    }
  }

  lemma {:induction false} FillSlotEntries(e: Entries, w: nat, pid: int, slot: nat)
    requires EntriesOk(e) && slot < |e.watchIds| && e.watchIds[slot] == FREE
    requires w < |e.watchIds| && w !in e.watchIds && pid > 0
    ensures EntriesOk(Entries(e.pids[slot := pid], e.watchIds[slot := w]))
  {
  }

  lemma {:induction false} FillSlotStep(s: State)
    requires SpawnInv(s) && s.main.SlotFound?
    ensures SpawnInv(Step(s, FillSlot))
  {
    var s' := Step(s, FillSlot);
    FillSlotEntries(s.entries, s.main.w, s.main.pid, s.main.slot);
    assert Owned(s'.reapers, s'.main, s'.entries);
    forall p | p in s'.children ensures Claimed(p, s'.reapers, s'.main) {
      assert Claimed(p, s.reapers, s.main);
    }
  }

  lemma {:induction false} StartReaperStep(s: State)
    requires SpawnInv(s) && s.main.Registered?
    ensures SpawnInv(Step(s, StartReaper))
  {
    var r := Reaper(s.main.slot, s.main.pid, s.main.w, Started);
    OwnershipHandedOver(s.reapers, s.main, s.entries, r);
    ChildHandedOver(s.reapers, s.main, s.children, r);
    ClaimsHandedOver(s.reapers, s.main, s.children, r);
    hide Owned, ChildrenOk, AllClaimed, EntriesOk;
    assert Step(s, StartReaper) == s.(main := Polling, reapers := s.reapers + [r]);
  }

  lemma {:induction false} OwnershipHandedOver(reapers: seq<Reaper>, m: Main, e: Entries, r: Reaper)
    requires Owned(reapers, m, e) && MainOk(m, e) && m.Registered? && r == Reaper(m.slot, m.pid, m.w, Started)
    ensures Owned(reapers + [r], Polling, e)
  {
  }

  lemma {:induction false} ChildHandedOver(reapers: seq<Reaper>, m: Main, children: map<int, Child>, r: Reaper)
    requires ChildrenOk(reapers, m, children) && m.Registered? && r == Reaper(m.slot, m.pid, m.w, Started)
    ensures ChildrenOk(reapers + [r], Polling, children)
  {
  }

  /** The new reaper takes over the claim main had. */
  lemma {:induction false} ClaimsHandedOver(reapers: seq<Reaper>, m: Main, children: map<int, Child>, r: Reaper)
    requires AllClaimed(reapers, m, children) && m.Registered? && r.pid == m.pid && Awaits(r)
    ensures AllClaimed(reapers + [r], Polling, children)
  {
    var after := reapers + [r];
    forall p | p in children ensures Claimed(p, after, Polling) {
      assert Claimed(p, reapers, m);
      if t :| 0 <= t < |reapers| && (Awaits(reapers[t]) || reapers[t].phase.Failed?) && reapers[t].pid == p {
        assert after[t] == reapers[t];
      } else {
        assert after[|reapers|] == r;
      }
    }
  }

  // ---- the reapers' steps ----

  lemma {:induction false} ReadEntryStep(s: State, t: nat)
    requires SpawnInv(s) && t < |s.reapers| && s.reapers[t].phase.Started? && !s.main.Halted?
    ensures SpawnInv(Step(s, ReadEntry(t)))
  {
    hide ApplyMain, EntriesOk;
    var s' := Step(s, ReadEntry(t));
    assert SlotOk(s.reapers[t], s.entries);
    assert Owned(s'.reapers, s'.main, s'.entries);
    ClaimsKept(s, s', t);
  }

  /** A reaper that keeps its claim keeps every child claimed. */
  lemma {:induction false} ClaimsKept(s: State, s': State, t: nat)
    requires AllClaimed(s.reapers, s.main, s.children) && s'.main == s.main && !s.main.Halted?
    requires t < |s.reapers| == |s'.reapers| && s'.reapers == s.reapers[t := s'.reapers[t]]
    requires forall p :: p in s'.children ==> p in s.children
    requires s'.reapers[t].pid == s.reapers[t].pid
    requires s.reapers[t].pid in s'.children && (Awaits(s.reapers[t]) || s.reapers[t].phase.Failed?) ==>
               Awaits(s'.reapers[t]) || s'.reapers[t].phase.Failed?
    ensures AllClaimed(s'.reapers, s'.main, s'.children)
  {
    forall p | p in s'.children ensures Claimed(p, s'.reapers, s'.main) {
      assert Claimed(p, s.reapers, s.main);
      if u :| 0 <= u < |s.reapers| && (Awaits(s.reapers[u]) || s.reapers[u].phase.Failed?) && s.reapers[u].pid == p {
        assert u != t ==> s'.reapers[u] == s.reapers[u];
        assert Awaits(s'.reapers[u]) || s'.reapers[u].phase.Failed?;
      }
    }
  }

  /** waitpid only ever returns the child the reaper was started for. */
  lemma {:induction false} WaitReturnsStep(s: State, t: nat, ret: int)
    requires SpawnInv(s) && t < |s.reapers| && Enabled(s, WaitReturns(t, ret))
    ensures ret == s.reapers[t].pid
    ensures SpawnInv(Step(s, WaitReturns(t, ret)))
  {
    hide ApplyMain, EntriesOk;
    var s' := Step(s, WaitReturns(t, ret));
    assert SlotOk(s.reapers[t], s.entries);
    assert Owned(s'.reapers, s'.main, s'.entries);
    assert ChildrenOk(s'.reapers, s'.main, s'.children);
    ClaimsKept(s, s', t);
  }

  lemma {:induction false} WaitFailsStep(s: State, t: nat)
    requires SpawnInv(s) && t < |s.reapers| && Enabled(s, WaitFails(t))
    ensures SpawnInv(Step(s, WaitFails(t)))
  {
    hide ApplyMain, EntriesOk;
    var s' := Step(s, WaitFails(t));
    assert SlotOk(s.reapers[t], s.entries);
    assert Owned(s'.reapers, s'.main, s'.entries);
    assert ChildrenOk(s'.reapers, s'.main, s'.children);
    ClaimsKept(s, s', t);
  }

  lemma {:induction false} FreeEntryEntries(e: Entries, slot: nat)
    requires EntriesOk(e) && slot < |e.watchIds|
    ensures EntriesOk(Entries(e.pids[slot := FREE], e.watchIds[slot := FREE]))
  {
  }

  /** Freeing an entry takes nothing away that main relies on. */
  lemma {:induction false} FreeEntryMain(m: Main, e: Entries, slot: nat)
    requires EntriesOk(e) && MainOk(m, e) && slot < |e.watchIds|
    requires m.Registered? ==> m.slot != slot
    requires MainInRange(m, |e.watchIds|)
    ensures MainOk(m, Entries(e.pids[slot := FREE], e.watchIds[slot := FREE]))
  {
  }

  lemma {:induction false} FreeEntryStep(s: State, t: nat)
    requires SpawnInv(s) && t < |s.reapers| && Enabled(s, FreeEntry(t))
    ensures SpawnInv(Step(s, FreeEntry(t)))
  {
    hide ApplyMain, EntriesOk;
    var s' := Step(s, FreeEntry(t));
    var slot := s.reapers[t].slot;
    assert SlotOk(s.reapers[t], s.entries);
    FreeEntryEntries(s.entries, slot);
    FreeEntryMain(s.main, s.entries, slot);
    assert Owned(s'.reapers, s'.main, s'.entries);
    assert ChildrenOk(s'.reapers, s'.main, s'.children);
    ClaimsKept(s, s', t);
  }

  lemma {:induction false} ChildExitsStep(s: State, pid: int)
    requires SpawnInv(s) && Enabled(s, ChildExits(pid)) && pid in s.children
    ensures SpawnInv(Step(s, ChildExits(pid)))
  {
  }

  // ---- every step, every run ----

  predicate QuietLabel(l: Label) {
    || l.ReloadFile? || l.PurgeStale? || l.RewatchSlot? || l.OpenEvent? || l.CloseEvent? || l.DecideOpen?
    || l.DecideClose? || l.IpcRequest? || l.DecideIpc? || l.Remount?
  }

  lemma {:induction false} QuietLabelStep(s: State, l: Label)
    requires SpawnInv(s) && Enabled(s, l) && QuietLabel(l)
    ensures SpawnInv(Step(s, l))
  {
    hide Owned, ChildrenOk, AllClaimed, EntriesOk, HandleFile, Purge, Rewatch;
    QuietMainStep(s, Step(s, l));
  }

  lemma {:induction false} AbortStep(s: State)
    requires SpawnInv(s) && Enabled(s, Abort)
    ensures SpawnInv(Step(s, Abort))
  {
  }

  lemma {:induction false} StepKeepsSpawnInv(s: State, l: Label)
    requires SpawnInv(s) && Enabled(s, l)
    ensures SpawnInv(Step(s, l))
  {
    hide Owned, ChildrenOk, AllClaimed, EntriesOk, MainOk;
    match l
    case Fork(pid) => ForkStep(s, pid);
    case FindSlot => FindSlotStep(s);
    case FillSlot => FillSlotStep(s);
    case StartReaper => StartReaperStep(s);
    case ReadEntry(t) => ReadEntryStep(s, t);
    case WaitReturns(t, ret) => WaitReturnsStep(s, t, ret);
    case WaitFails(t) => WaitFailsStep(s, t);
    case FreeEntry(t) => FreeEntryStep(s, t);
    case ChildExits(pid) => ChildExitsStep(s, pid);
    case Abort => AbortStep(s);
    case Tick(now) =>
    case _ => QuietLabelStep(s, l);
  }

  lemma {:induction false} InitSpawnInv(s: State)
    requires Init(s)
    ensures SpawnInv(s)
  {
  }

  /** Safety over every run: see SpawnInv, and the lemmas below for what it means. */
  lemma {:induction false} RunKeepsSpawnInv(states: seq<State>, labels: seq<Label>, i: nat)
    requires Run(states, labels) && i <= |labels|
    ensures SpawnInv(states[i])
  {
    if i == 0 {
      InitSpawnInv(states[0]);
    } else {
      hide SpawnInv, Init;
      RunKeepsSpawnInv(states, labels, i - 1);
      NextKeepsSpawnInv(states[i - 1], labels[i - 1], states[i]);
    }
  }

  lemma {:induction false} NextKeepsSpawnInv(s: State, l: Label, s': State)
    requires SpawnInv(s) && Next(s, l, s')
    ensures SpawnInv(s')
  {
    StepKeepsSpawnInv(s, l);
  }

  // ---- what it means, in every state of every run ----

  /** No two entries for one watch, none beside a fork under way, and both arrays agree on which are free. */
  lemma {:induction false} OneProcessPerWatch(states: seq<State>, labels: seq<Label>, i: nat, a: nat, b: nat)
    requires Run(states, labels) && i <= |labels|
    requires a < |states[i].watches| && b < |states[i].watches|
    ensures Shape(states[i])
    ensures var e := states[i].entries;
            && (e.watchIds[a] == FREE <==> e.pids[a] == FREE)
            && (a != b && e.watchIds[a] != FREE ==> e.watchIds[a] != e.watchIds[b])
    ensures var m := states[i].main;
            m.Forking? || m.Forked? || m.SlotFound? ==> m.w !in states[i].entries.watchIds
  {
    RunKeepsSpawnInv(states, labels, i);
  }

  /** The exit for want of a table entry is never taken, and the entry found is free when it is filled. */
  lemma {:induction false} TableNeverFull(states: seq<State>, labels: seq<Label>, i: nat)
    requires Run(states, labels) && i <= |labels|
    ensures Shape(states[i]) && states[i].main != Halted(TableFull)
    ensures var m := states[i].main; m.SlotFound? ==> states[i].entries.watchIds[m.slot] == FREE
  {
    RunKeepsSpawnInv(states, labels, i);
  }

  /** A reaper's entry is its own, and holds what its spawn stored, until the reaper itself frees it. */
  lemma {:induction false} ReaperOwnsItsEntry(states: seq<State>, labels: seq<Label>, i: nat)
    requires Run(states, labels) && i <= |labels|
    ensures var r, e := states[i].reapers, states[i].entries;
            && |e.pids| == |e.watchIds|
            && (forall t :: 0 <= t < |r| && r[t].phase != Done ==>
                  r[t].slot < |e.pids| && e.pids[r[t].slot] == r[t].pid && e.watchIds[r[t].slot] == r[t].watch)
            && (forall t :: 0 <= t < |r| ==>
                  match r[t].phase
                  case Waiting(cpid) => cpid == r[t].pid
                  case Reaped(cpid) => cpid == r[t].pid
                  case _ => true)
            && (forall t, u :: 0 <= t < u < |r| && r[t].phase != Done && r[u].phase != Done ==>
                  r[t].slot != r[u].slot)
  {
    RunKeepsSpawnInv(states, labels, i);
    EntriesOwned(states[i]);
  }

  lemma {:induction false} EntriesOwned(s: State)
    requires SpawnInv(s)
    ensures forall t :: 0 <= t < |s.reapers| && s.reapers[t].phase != Done ==>
              SlotOk(s.reapers[t], s.entries) && Holds(s.reapers[t])
  {
  }

  /** A child not waited for is spoken for, and no two threads would wait for it. */
  lemma {:induction false} OneWaiterPerChild(states: seq<State>, labels: seq<Label>, i: nat)
    requires Run(states, labels) && i <= |labels|
    ensures var r, m, children := states[i].reapers, states[i].main, states[i].children;
            && (forall t :: 0 <= t < |r| && (r[t].phase.Started? || r[t].phase.Waiting?) ==> r[t].pid in children)
            && (forall t, u :: 0 <= t < u < |r| ==>
                  (r[t].phase.Started? || r[t].phase.Waiting?) && (r[u].phase.Started? || r[u].phase.Waiting?) ==>
                    r[t].pid != r[u].pid)
            && (m.Forked? || m.SlotFound? || m.Registered? ==>
                  forall t :: 0 <= t < |r| && (r[t].phase.Started? || r[t].phase.Waiting?) ==> r[t].pid != m.pid)
            && (!m.Halted? ==> forall pid :: pid in children ==>
                  || ((m.Forked? || m.SlotFound? || m.Registered?) && m.pid == pid)
                  || (exists t :: 0 <= t < |r| && r[t].pid == pid &&
                                  (r[t].phase.Started? || r[t].phase.Waiting? || r[t].phase.Failed?)))
  {
    RunKeepsSpawnInv(states, labels, i);
    if !states[i].main.Halted? {
      ChildrenSpokenFor(states[i]);
    }
  }

  lemma {:induction false} ChildrenSpokenFor(s: State)
    requires SpawnInv(s) && !s.main.Halted?
    ensures forall pid :: pid in s.children ==>
              || (CarriesChild(s.main) && s.main.pid == pid)
              || (exists t :: 0 <= t < |s.reapers| && s.reapers[t].pid == pid &&
                              (Awaits(s.reapers[t]) || s.reapers[t].phase.Failed?))
  {
    forall pid | pid in s.children ensures Claimed(pid, s.reapers, s.main) {
    }
  }

  // ---- the guarantee every thread gives ----

  /** Entry e is left alone, given back by the one reaper that holds it, or filled by main where it was free. */
  ghost predicate EntryStep(s: State, l: Label, s': State, e: nat)
    requires e < |s.entries.watchIds| == |s.entries.pids|
    requires |s'.entries.watchIds| == |s'.entries.pids| == |s.entries.pids|
  {
    if s'.entries.watchIds[e] == s.entries.watchIds[e] && s'.entries.pids[e] == s.entries.pids[e] then true
    else if s.entries.watchIds[e] != FREE then
      && l.FreeEntry? && l.t < |s.reapers| && Holds(s.reapers[l.t]) && s.reapers[l.t].slot == e
      && (forall u :: 0 <= u < |s.reapers| && u != l.t && Holds(s.reapers[u]) ==> s.reapers[u].slot != e)
      && !(s.main.Registered? && s.main.slot == e)
      && s'.entries.watchIds[e] == FREE && s'.entries.pids[e] == FREE
    else
      && l.FillSlot? && s.main.SlotFound? && s.main.slot == e
      && s'.entries.watchIds[e] == s.main.w && s'.entries.pids[e] == s.main.pid
  }

  lemma {:induction false} FreeGuarantee(s: State, t: nat, e: nat)
    requires SpawnInv(s) && Enabled(s, FreeEntry(t)) && e < |s.entries.watchIds|
    ensures |Step(s, FreeEntry(t)).entries.watchIds| == |Step(s, FreeEntry(t)).entries.pids| == |s.entries.pids|
    ensures EntryStep(s, FreeEntry(t), Step(s, FreeEntry(t)), e)
  {
    hide EntriesOk, ChildrenOk, AllClaimed, MainOk;
    assert SlotOk(s.reapers[t], s.entries);
  }

  lemma {:induction false} FillGuarantee(s: State, e: nat)
    requires SpawnInv(s) && s.main.SlotFound? && e < |s.entries.watchIds|
    ensures |Step(s, FillSlot).entries.watchIds| == |Step(s, FillSlot).entries.pids| == |s.entries.pids|
    ensures EntryStep(s, FillSlot, Step(s, FillSlot), e)
  {
    hide EntriesOk, ChildrenOk, AllClaimed, Owned;
  }

  lemma {:induction false} EntriesLeftAlone(s: State, l: Label)
    requires Shape(s) && Enabled(s, l) && !l.FreeEntry? && !l.FillSlot?
    ensures Step(s, l).entries == s.entries
  {
    hide HandleFile, Purge, Rewatch, WatchOf, IpcSpawns, BlockerRunning;
  }

  /** In every run: only main fills an entry, and only a free one; only its own reaper gives an entry back. */
  lemma {:induction false} EntryGuarantee(states: seq<State>, labels: seq<Label>, i: nat, e: nat)
    requires Run(states, labels) && i < |labels|
    requires e < |states[i].watches|
    ensures Shape(states[i]) && Shape(states[i + 1]) && |states[i + 1].watches| == |states[i].watches|
    ensures EntryStep(states[i], labels[i], states[i + 1], e)
  {
    hide SpawnInv, Init, EntryStep;
    RunKeepsSpawnInv(states, labels, i);
    RunKeepsSpawnInv(states, labels, i + 1);
    NextGuarantee(states[i], labels[i], states[i + 1], e);
  }

  lemma {:induction false} NextGuarantee(s: State, l: Label, s': State, e: nat)
    requires SpawnInv(s) && SpawnInv(s') && Next(s, l, s') && e < |s.watches|
    ensures Shape(s) && Shape(s') && |s'.watches| == |s.watches|
    ensures EntryStep(s, l, s', e)
  {
    assert Shape(s) && Shape(s');
    hide SpawnInv, ApplyMain, ApplyWorld;
    if l.FreeEntry? {
      FreeGuarantee(s, l.t, e);
    } else if l.FillSlot? {
      FillGuarantee(s, e);
    } else {
      EntriesLeftAlone(s, l);
    }
  }

  // ---- conservation ----

  function Count<T>(s: seq<T>, p: T -> bool): nat {
    if s == [] then 0 else Count(s[..|s| - 1], p) + if p(s[|s| - 1]) then 1 else 0
  }

  lemma {:induction false} CountUpdate<T>(s: seq<T>, i: nat, x: T, p: T -> bool)
    requires i < |s|
    ensures Count(s[i := x], p) == Count(s, p) - (if p(s[i]) then 1 else 0) + (if p(x) then 1 else 0)
  {
    var n := |s| - 1;
    if i == n {
      assert s[i := x][..n] == s[..n];
    } else {
      assert s[i := x][..n] == s[..n][i := x];
      CountUpdate(s[..n], i, x, p);
    }
  }

  lemma {:induction false} CountAppend<T>(s: seq<T>, x: T, p: T -> bool)
    ensures Count(s + [x], p) == Count(s, p) + if p(x) then 1 else 0
  {
  }

  predicate Occupied(id: int) {
    id != FREE
  }

  /** The reaper will still free its entry. */
  predicate Live(r: Reaper) {
    r.phase.Started? || r.phase.Waiting? || r.phase.Reaped?
  }

  /** The reaper left through the waitpid failure path. */
  predicate GaveUp(r: Reaper) {
    r.phase.Failed?
  }

  ghost predicate Conserved(s: State) {
    Count(s.entries.watchIds, Occupied) ==
    Count(s.reapers, Live) + Count(s.reapers, GaveUp) +
    (if s.main.Registered? then 1 else 0)
  }

  lemma {:induction false} PhaseChange(s: seq<Reaper>, t: nat, r: Reaper)
    requires t < |s|
    ensures Count(s[t := r], Live) + Count(s[t := r], GaveUp) ==
            Count(s, Live) + Count(s, GaveUp) - (if Holds(s[t]) then 1 else 0) + (if Holds(r) then 1 else 0)
  {
    CountUpdate(s, t, r, Live);
    CountUpdate(s, t, r, GaveUp);
  }

  lemma {:induction false} MainConserves(s: State, l: Label)
    requires SpawnInv(s) && Enabled(s, l) && Conserved(s) && (l.FillSlot? || l.StartReaper?)
    ensures Conserved(Step(s, l))
  {
    hide EntriesOk, Owned, ChildrenOk, AllClaimed, Count;
    if l.FillSlot? {
      CountUpdate(s.entries.watchIds, s.main.slot, s.main.w, Occupied);
    } else {
      StartedConserves(s.reapers, Reaper(s.main.slot, s.main.pid, s.main.w, Started));
    }
  }

  lemma {:induction false} StartedConserves(s: seq<Reaper>, r: Reaper)
    requires r.phase.Started?
    ensures Count(s + [r], Live) == Count(s, Live) + 1 && Count(s + [r], GaveUp) == Count(s, GaveUp)
  {
    hide Count;
    CountAppend(s, r, Live);
    CountAppend(s, r, GaveUp);
  }

  /** A reaper's step frees its entry or leaves the table alone. */
  lemma {:induction false} ReaperConserves(s: State, s': State, t: nat)
    requires Conserved(s) && t < |s.reapers| == |s'.reapers| && s'.main == s.main
    requires s'.reapers == s.reapers[t := s'.reapers[t]] && Holds(s.reapers[t])
    requires if Holds(s'.reapers[t]) then s'.entries == s.entries
             else SlotOk(s.reapers[t], s.entries) && s.entries.watchIds[s.reapers[t].slot] != FREE &&
                  s'.entries.watchIds == s.entries.watchIds[s.reapers[t].slot := FREE]
    ensures Conserved(s')
  {
    hide SlotOk, Holds;
    PhaseChange(s.reapers, t, s'.reapers[t]);
    if !Holds(s'.reapers[t]) {
      OwnSlotInRange(s.reapers[t], s.entries);
      CountUpdate(s.entries.watchIds, s.reapers[t].slot, FREE, Occupied);
    }
  }

  lemma {:induction false} OwnSlotInRange(r: Reaper, e: Entries)
    requires SlotOk(r, e)
    ensures r.slot < |e.watchIds|
  {
  }

  lemma {:induction false} FreeConserves(s: State, t: nat)
    requires SpawnInv(s) && Enabled(s, FreeEntry(t)) && t < |s.reapers| && Conserved(s)
    ensures Conserved(Step(s, FreeEntry(t)))
  {
    hide Conserved, ChildrenOk, AllClaimed, EntriesOk, MainOk;
    assert SlotOk(s.reapers[t], s.entries);
    ReaperConserves(s, Step(s, FreeEntry(t)), t);
  }

  lemma {:induction false} WaitConserves(s: State, l: Label)
    requires Shape(s) && Enabled(s, l) && Conserved(s) && (l.ReadEntry? || l.WaitReturns? || l.WaitFails?)
    ensures Conserved(Step(s, l))
  {
    hide ApplyMain, Conserved;
    ReaperConserves(s, Step(s, l), l.t);
  }

  lemma {:induction false} StepConserves(s: State, l: Label)
    requires SpawnInv(s) && Enabled(s, l) && Conserved(s)
    ensures Step(s, l).main.Halted? || Conserved(Step(s, l))
  {
    assert Shape(s);
    if !Conserving(l) {
      hide SpawnInv, Count, Step;
      TableKept(s, l);
      return;
    }
    hide SpawnInv, Count, ApplyMain;
    match l
    case FillSlot => MainConserves(s, l);
    case StartReaper => MainConserves(s, l);
    case FreeEntry(t) => FreeConserves(s, t);
    case _ => WaitConserves(s, l);
  }

  lemma {:induction false} TableKept(s: State, l: Label)
    requires Shape(s) && Enabled(s, l) && !Conserving(l)
    ensures Step(s, l).entries == s.entries && Step(s, l).reapers == s.reapers
    ensures Step(s, l).main.Registered? ==> s.main.Registered?
    ensures s.main.Registered? ==> Step(s, l).main.Registered? || Step(s, l).main.Halted?
  {
  }

  /** The steps that change what conservation counts. */
  predicate Conserving(l: Label) {
    l.FillSlot? || l.StartReaper? || l.ReadEntry? || l.WaitReturns? || l.WaitFails? || l.FreeEntry?
  }

  lemma {:induction false} CountNone<T>(s: seq<T>, p: T -> bool)
    requires forall x :: x in s ==> !p(x)
    ensures Count(s, p) == 0
  {
    if s == [] {
    } else {
      CountNone(s[..|s| - 1], p);
    }
  }

  /** Entries in use = live reapers + reapers that gave up + a spawn about to start its reaper. */
  lemma {:induction false} RunKeepsConserved(states: seq<State>, labels: seq<Label>, i: nat)
    requires Run(states, labels) && i <= |labels|
    ensures states[i].main.Halted? || Conserved(states[i])
  {
    if i == 0 {
      CountNone(states[0].entries.watchIds, Occupied);
    } else {
      hide SpawnInv, Conserved;
      RunKeepsConserved(states, labels, i - 1);
      RunKeepsSpawnInv(states, labels, i - 1);
      NextConserves(states[i - 1], labels[i - 1], states[i]);
    }
  }

  lemma {:induction false} NextConserves(s: State, l: Label, s': State)
    requires SpawnInv(s) && Next(s, l, s') && Conserved(s)
    ensures s'.main.Halted? || Conserved(s')
  {
    StepConserves(s, l);
  }

  lemma {:induction false} CountIsSize<T>(s: seq<T>, p: T -> bool, all: set<int>)
    requires forall i :: i in all ==> 0 <= i < |s| && p(s[i])
    requires forall i :: 0 <= i < |s| && p(s[i]) ==> i in all
    ensures Count(s, p) == |all|
  {
    if s == [] {
      assert forall i :: i in all ==> 0 <= i < |s|;
      assert all == {};
    } else {
      var n := |s| - 1;
      CountIsSize(s[..n], p, all - {n});
      assert n in all <==> p(s[n]);
      assert all == if n in all then (all - {n}) + {n} else all - {n};
    }
  }

  lemma {:induction false} ReapersByPhase(r: seq<Reaper>)
    ensures Count(r, Live) ==
            |set t | 0 <= t < |r| && (r[t].phase.Started? || r[t].phase.Waiting? || r[t].phase.Reaped?)|
    ensures Count(r, GaveUp) == |set t | 0 <= t < |r| && r[t].phase.Failed?|
  {
    hide Count;
    CountIsSize(r, Live,
                set t | 0 <= t < |r| && (r[t].phase.Started? || r[t].phase.Waiting? || r[t].phase.Reaped?));
    CountIsSize(r, GaveUp, set t | 0 <= t < |r| && r[t].phase.Failed?);
  }

  lemma {:induction false} EntriesInUse(ids: seq<int>)
    ensures Count(ids, Occupied) == |set e | 0 <= e < |ids| && ids[e] != -1|
  {
    hide Count;
    CountIsSize(ids, Occupied, set e | 0 <= e < |ids| && ids[e] != -1);
  }

  /** Entries in use = reapers yet to free theirs + reapers that gave up + a spawn about to start its reaper. */
  lemma {:induction false} RunConserves(states: seq<State>, labels: seq<Label>, i: nat)
    requires Run(states, labels) && i <= |labels| && !states[i].main.Halted?
    ensures var ids, r := states[i].entries.watchIds, states[i].reapers;
            |set e | 0 <= e < |ids| && ids[e] != -1| ==
            |set t | 0 <= t < |r| && (r[t].phase.Started? || r[t].phase.Waiting? || r[t].phase.Reaped?)| +
            |set t | 0 <= t < |r| && r[t].phase.Failed?| +
            (if states[i].main.Registered? then 1 else 0)
  {
    hide Count;
    RunKeepsConserved(states, labels, i);
    EntriesInUse(states[i].entries.watchIds);
    ReapersByPhase(states[i].reapers);
  }
}
