/**
 * The daemon as a system of interleaved steps: one main thread, one reaper thread per spawn, and the
 * kernel's child processes. A step is one locked region of the process table, or code that touches
 * nothing another thread writes.
 */
module Daemon {
  import opened Watches
  import opened Reconcile
  import opened ProcessTable
  import opened Processing

  datatype Request = Inotify | Ipc(force: bool)

  datatype Reason = TableFull | Other

  /** Where the main thread is. */
  datatype Main =
    | Reloading(rest: seq<ParseResult>, kept: seq<int>, notify: bool)
    | Rewatching(next: nat)
    | Polling
    | Opening(w: nat, spawned: bool, blocker: bool)
    | Closing(w: nat, spawned: bool, blocker: bool)
    | Requested(w: nat, force: bool, spawned: bool, blocker: bool)
    | Forking(w: nat, request: Request)
    | Forked(w: nat, pid: int)
    | SlotFound(w: nat, pid: int, slot: nat)
    | Registered(w: nat, pid: int, slot: nat)
    | Halted(reason: Reason)

  datatype Phase =
    | Started
    | Waiting(cpid: int)
    | Reaped(cpid: int)
    | Done
    | Failed(cpid: int)

  /** A reaper thread: its argument, and for reference the pid and watch its spawn registered there. */
  datatype Reaper = Reaper(slot: nat, pid: int, watch: nat, phase: Phase)

  datatype Child = Alive | Zombie

  datatype State = State(
    watches: seq<WatchConfig>,
    entries: Entries,
    main: Main,
    reapers: seq<Reaper>,
    children: map<int, Child>,
    now: nat)

  datatype Label =
    | ReloadFile
    | PurgeStale
    | RewatchSlot(wd: int, missing: bool)
    | OpenEvent(wd: int)
    | CloseEvent(wd: int)
    | DecideOpen(blocked: bool, processed: bool)
    | DecideClose(blocked: bool, processed: bool, clockOk: bool)
    | IpcRequest(w: nat, force: bool)
    | DecideIpc(blocked: bool)
    | Fork(pid: int)
    | FindSlot
    | FillSlot
    | StartReaper
    | Remount(files: seq<ParseResult>)
    | Abort
    | Tick(now: nat)
    | ReadEntry(t: nat)
    | WaitReturns(t: nat, ret: int)
    | WaitFails(t: nat)
    | FreeEntry(t: nat)
    | ChildExits(pid: int)

  /** Every index the state carries is in range: what the C code takes for granted. */
  ghost predicate Shape(s: State) {
    && 1 <= |s.watches| <= 127
    && |s.entries.pids| == |s.entries.watchIds| == |s.watches|
    && (forall t :: 0 <= t < |s.reapers| ==> s.reapers[t].slot < |s.watches| && s.reapers[t].watch < |s.watches|)
    && MainInRange(s.main, |s.watches|)
  }

  predicate MainInRange(m: Main, n: nat) {
    match m
    case Rewatching(next) => next < n
    case Opening(w, _, _) => w < n
    case Closing(w, _, _) => w < n
    case Requested(w, _, _, _) => w < n
    case Forking(w, _) => w < n
    case Forked(w, _) => w < n
    case SlotFound(w, _, slot) => w < n && slot < n
    case Registered(w, _, slot) => w < n && slot < n
    case _ => true
  }

  /** The active watch an event's descriptor belongs to, or the last slot when there is none. */
  function WatchOf(watches: seq<WatchConfig>, wd: int, from: nat): (r: nat)
    requires from <= |watches| && |watches| > 0
    ensures r < |watches|
    ensures var found := exists i :: from <= i < |watches| && watches[i].isActive && watches[i].inotifyWd == wd;
            && (found ==> from <= r && watches[r].isActive && watches[r].inotifyWd == wd)
            && (!found ==> r == |watches| - 1)
    ensures forall i :: from <= i < r ==> !(watches[i].isActive && watches[i].inotifyWd == wd)
    decreases |watches| - from
  {
    if from == |watches| then |watches| - 1
    else if watches[from].isActive && watches[from].inotifyWd == wd then from
    else WatchOf(watches, wd, from + 1)
  }

  function TimerOf(w: WatchConfig): Timer {
    Timer(w.pendingProcessing, w.processingTs)
  }

  /** Let a watch hear an event. */
  function Heard(s: State, w: nat, e: Event, next: Main): (s': State)
    requires w < |s.watches|
    ensures s'.main == next && s'.now == s.now && s'.entries == s.entries
    ensures |s'.watches| == |s.watches| && forall i :: 0 <= i < |s.watches| && i != w ==> s'.watches[i] == s.watches[i]
  {
    var t := React(TimerOf(s.watches[w]), e).0;
    s.(watches := s.watches[w := s.watches[w].(pendingProcessing := t.pending, processingTs := t.ts)],
       main := next)
  }

  /** force is dropped for a watch that is itself a spawn blocker. */
  predicate Forced(watches: seq<WatchConfig>, w: nat, force: bool)
    requires w < |watches|
  {
    force && !watches[w].blockSpawns
  }

  /** What handle_ipc decides once it knows the watch. */
  predicate IpcSpawns(watches: seq<WatchConfig>, w: nat, force: bool, spawned: bool, blocker: bool, blocked: bool)
    requires w < |watches|
  {
    !spawned && (Forced(watches, w, force) || (!blocker && !blocked))
  }

  predicate MainEnabled(s: State, l: Label) {
    match l
    case ReloadFile => s.main.Reloading? && s.main.rest != []
    case PurgeStale => s.main.Reloading? && s.main.rest == []
    case RewatchSlot(_, _) => s.main.Rewatching? && s.main.next < |s.watches|
    case OpenEvent(_) => s.main.Polling?
    case CloseEvent(_) => s.main.Polling?
    case DecideOpen(_, _) => s.main.Opening?
    case DecideClose(_, _, _) => s.main.Closing?
    case IpcRequest(w, _) => s.main.Polling? && w < |s.watches| && s.watches[w].isActive
    case DecideIpc(_) => s.main.Requested?
    case Fork(pid) => s.main.Forking? && pid > 0 && pid !in s.children
    case FindSlot => s.main.Forked?
    case FillSlot => s.main.SlotFound?
    case StartReaper => s.main.Registered?
    case Remount(_) => s.main.Polling?
    case Abort => true
    case _ => false
  }

  function ApplyMain(s: State, l: Label): State
    requires Shape(s) && MainEnabled(s, l)
  {
    match l
    case ReloadFile => DoReloadFile(s)
    case PurgeStale => DoPurge(s)
    case RewatchSlot(wd, missing) => DoRewatch(s, wd, missing)
    case OpenEvent(wd) =>
      var w := WatchOf(s.watches, wd, 0);
      s.(main := Opening(w, w in s.entries.watchIds, BlockerRunning(s.entries.watchIds, s.watches)))
    case CloseEvent(wd) =>
      var w := WatchOf(s.watches, wd, 0);
      s.(main := Closing(w, w in s.entries.watchIds, BlockerRunning(s.entries.watchIds, s.watches)))
    case DecideOpen(blocked, processed) =>
      if s.main.spawned || s.main.blocker || blocked then s.(main := Polling)
      else Heard(s, s.main.w, Open(processed), Polling)
    case DecideClose(blocked, processed, clockOk) =>
      if s.main.spawned || s.main.blocker || blocked then s.(main := Polling)
      else
        var e := Close(processed, s.now, clockOk);
        var spawns := React(TimerOf(s.watches[s.main.w]), e).1;
        Heard(s, s.main.w, e, if spawns then Forking(s.main.w, Inotify) else Polling)
    case IpcRequest(w, force) =>
      s.(main := Requested(w, force, w in s.entries.watchIds, BlockerRunning(s.entries.watchIds, s.watches)))
    case DecideIpc(blocked) =>
      var m := s.main;
      s.(main := if IpcSpawns(s.watches, m.w, m.force, m.spawned, m.blocker, blocked)
                 then Forking(m.w, Ipc(Forced(s.watches, m.w, m.force))) else Polling)
    case Fork(pid) => s.(main := Forked(s.main.w, pid), children := s.children[pid := Alive])
    case FindSlot => DoFindSlot(s)
    case FillSlot => DoFillSlot(s)
    case StartReaper =>
      s.(main := Polling, reapers := s.reapers + [Reaper(s.main.slot, s.main.pid, s.main.w, Started)])
    case Remount(files) => s.(main := Reloading(files, [], false))
    case Abort => s.(main := Halted(Other))
  }

  function DoReloadFile(s: State): (s': State)
    requires Shape(s) && s.main.Reloading? && s.main.rest != []
    ensures s'.now == s.now && s'.entries == s.entries && s'.main.Reloading?
  {
    var m := s.main;
    var walk := HandleFile(Walk(s.watches, m.kept, m.notify), Visit(m.rest[0], s.entries.watchIds));
    s.(watches := walk.table, main := Reloading(m.rest[1..], walk.kept, walk.notify))
  }

  function DoPurge(s: State): (s': State)
    requires Shape(s) && s.main.Reloading?
    ensures s'.now == s.now && s'.entries == s.entries && s'.main == Rewatching(0)
  {
    var walk := Purge(Walk(s.watches, s.main.kept, s.main.notify));
    s.(watches := walk.table, main := Rewatching(0))
  }

  function DoRewatch(s: State, wd: int, missing: bool): (s': State)
    requires Shape(s) && s.main.Rewatching? && s.main.next < |s.watches|
    ensures s'.now == s.now && s'.entries == s.entries && (s'.main.Polling? || s'.main.Rewatching?)
  {
    var i := s.main.next;
    var table := Rewatch(s.watches, i, wd, missing, s.entries.watchIds);
    s.(watches := table, main := if i + 1 == |s.watches| then Polling else Rewatching(i + 1))
  }

  function DoFindSlot(s: State): State
    requires Shape(s) && s.main.Forked?
  {
    var slot := IndexOf(s.entries.watchIds, FREE, 0);
    s.(main := if slot < 0 then Halted(TableFull) else SlotFound(s.main.w, s.main.pid, slot))
  }

  function DoFillSlot(s: State): State
    requires Shape(s) && s.main.SlotFound?
  {
    var m := s.main;
    s.(main := Registered(m.w, m.pid, m.slot),
       entries := Entries(s.entries.pids[m.slot := m.pid], s.entries.watchIds[m.slot := ToInt8(m.w)]))
  }

  predicate WorldEnabled(s: State, l: Label) {
    match l
    case Tick(now) => now >= s.now
    case ReadEntry(t) => t < |s.reapers| && s.reapers[t].phase.Started?
    case WaitReturns(t, ret) =>
      && t < |s.reapers| && s.reapers[t].phase.Waiting?
      && ret in s.children && s.children[ret].Zombie?
      // waitpid(-1) would take any child, another value only that child
      && (s.reapers[t].phase.cpid == ret || s.reapers[t].phase.cpid == -1)
    case WaitFails(t) => t < |s.reapers| && s.reapers[t].phase.Waiting?
    case FreeEntry(t) => t < |s.reapers| && s.reapers[t].phase.Reaped?
    case ChildExits(pid) => pid in s.children && s.children[pid].Alive?
    case _ => false
  }

  function SetPhase(s: State, t: nat, phase: Phase): State
    requires t < |s.reapers|
  {
    s.(reapers := s.reapers[t := s.reapers[t].(phase := phase)])
  }

  function ApplyWorld(s: State, l: Label): State
    requires Shape(s) && WorldEnabled(s, l)
  {
    match l
    case Tick(now) => s.(now := now)
    case ReadEntry(t) => SetPhase(s, t, Waiting(s.entries.pids[s.reapers[t].slot]))
    case WaitReturns(t, ret) =>
      var cpid := s.reapers[t].phase.cpid;
      SetPhase(s, t, if ret == cpid then Reaped(cpid) else Failed(cpid)).(children := s.children - {ret})
    case WaitFails(t) => SetPhase(s, t, Failed(s.reapers[t].phase.cpid))
    case FreeEntry(t) =>
      var slot := s.reapers[t].slot;
      SetPhase(s, t, Done).(
        entries := Entries(s.entries.pids[slot := FREE], s.entries.watchIds[slot := FREE]))
    case ChildExits(pid) => s.(children := s.children[pid := Zombie])
  }

  predicate Enabled(s: State, l: Label) {
    !s.main.Halted? && (MainEnabled(s, l) || WorldEnabled(s, l))
  }

  function Step(s: State, l: Label): State
    requires Shape(s) && Enabled(s, l)
  {
    if MainEnabled(s, l) then ApplyMain(s, l) else ApplyWorld(s, l)
  }

  /** A daemon that has just loaded its configs and enters its main loop. */
  ghost predicate Init(s: State) {
    && 1 <= |s.watches| <= 127
    && TableOk(s.watches)
    && (forall i :: 0 <= i < |s.watches| ==> TimerOf(s.watches[i]) == IDLE)
    && s.entries == Entries(seq(|s.watches|, i => FREE), seq(|s.watches|, i => FREE))
    && s.main.Reloading? && s.main.kept == [] && !s.main.notify
    && s.reapers == [] && s.children == map[]
    && s.now >= NANOS
  }

  /**
   * A run: consecutive states, each an enabled step from the one before. An index out of range would be
   * undefined behaviour, after which anything could follow; that it never happens is proved, not assumed.
   */
  ghost predicate Run(states: seq<State>, labels: seq<Label>) {
    && |states| == |labels| + 1
    && Init(states[0])
    && forall i :: 0 <= i < |labels| ==> Next(states[i], labels[i], states[i + 1])
  }

  ghost predicate Next(s: State, l: Label, s': State) {
    Enabled(s, l) && (Shape(s) ==> s' == Step(s, l))
  }
}
