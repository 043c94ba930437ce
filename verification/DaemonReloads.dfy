/** A reload as the daemon runs it, step by step with processes ending in between, is the one specified. */
module DaemonReloads {
  import opened Watches
  import opened Reconcile
  import opened ReloadTracking
  import opened Daemon
  import opened SpawnSafety

  // ---- the reload ----

  /** The files handled in steps i to j of a run, each with the watch ids registered when it was. */
  function VisitsOf(states: seq<State>, labels: seq<Label>, i: nat, j: nat): seq<Visit>
    requires i <= j <= |labels| < |states|
    decreases j
  {
    if j == i then []
    else
      var s := states[j - 1];
      VisitsOf(states, labels, i, j - 1) +
      if labels[j - 1].ReloadFile? && s.main.Reloading? && s.main.rest != [] then
        [Visit(s.main.rest[0], s.entries.watchIds)]
      else []
  }

  function FilesOf(visits: seq<Visit>): (files: seq<ParseResult>)
    ensures Visits(visits, files)
  {
    seq(|visits|, m requires 0 <= m < |visits| => visits[m].file)
  }

  lemma {:induction false} WalkPrefix(table: seq<WatchConfig>, visits: seq<Visit>, v: Visit, k: nat)
    requires k <= |visits|
    ensures WalkTo(table, visits + [v], k) == WalkTo(table, visits, k)
  {
    if k == 0 {
    } else {
      WalkPrefix(table, visits, v, k - 1);
    }
  }

  /** Part of the way: the state is the walk over the files handled, and the others are still to come. */
  ghost predicate Underway(before: seq<WatchConfig>, files: seq<ParseResult>, visits: seq<Visit>, s: State) {
    && s.main.Reloading?
    && WalkTo(before, visits, |visits|) == Walk(s.watches, s.main.kept, s.main.notify)
    && FilesOf(visits) + s.main.rest == files
  }

  lemma {:induction false} FileUnderway(before: seq<WatchConfig>, files: seq<ParseResult>, visits: seq<Visit>, s: State)
    requires Shape(s) && Underway(before, files, visits, s) && s.main.rest != []
    ensures Underway(before, files, visits + [Visit(s.main.rest[0], s.entries.watchIds)], Step(s, ReloadFile))
  {
    hide HandleFile;
    var v := Visit(s.main.rest[0], s.entries.watchIds);
    WalkPrefix(before, visits, v, |visits|);
    assert FilesOf(visits + [v]) == FilesOf(visits) + [s.main.rest[0]];
  }

  lemma {:induction false} OtherUnderway(s: State, l: Label)
    requires Shape(s) && Enabled(s, l) && s.main.Reloading? && !l.ReloadFile? && Step(s, l).main.Reloading?
    ensures Step(s, l).main == s.main && Step(s, l).watches == s.watches
  {
  }

  lemma {:induction false} NextUnderway(before: seq<WatchConfig>, files: seq<ParseResult>, visits: seq<Visit>,
                                        s: State, l: Label, s': State)
    requires SpawnInv(s) && Next(s, l, s') && Underway(before, files, visits, s) && s'.main.Reloading?
    ensures l.ReloadFile? ==> s.main.rest != []
    ensures Underway(before, files,
                     visits + if l.ReloadFile? then [Visit(s.main.rest[0], s.entries.watchIds)] else [], s')
  {
    assert Shape(s);
    hide SpawnInv, Step;
    if l.ReloadFile? {
      FileUnderway(before, files, visits, s);
    } else {
      OtherUnderway(s, l);
      assert visits + [] == visits;
    }
  }

  lemma {:induction false} StretchUnderway(states: seq<State>, labels: seq<Label>, files: seq<ParseResult>,
                                           i: nat, j: nat)
    requires Run(states, labels) && i <= j <= |labels|
    requires states[i].main == Reloading(files, [], false)
    requires forall k :: i <= k <= j ==> states[k].main.Reloading?
    ensures Underway(states[i].watches, files, VisitsOf(states, labels, i, j), states[j])
    decreases j
  {
    hide Underway, Next, SpawnInv, Init;
    if i == j {
      AtFirst(states[i], files);
    } else {
      StretchUnderway(states, labels, files, i, j - 1);
      RunKeepsSpawnInv(states, labels, j - 1);
      NextUnderway(states[i].watches, files, VisitsOf(states, labels, i, j - 1), states[j - 1], labels[j - 1], states[j]);
    }
  }

  lemma {:induction false} AtFirst(s: State, files: seq<ParseResult>)
    requires s.main == Reloading(files, [], false)
    ensures Underway(s.watches, files, [], s)
  {
    assert FilesOf([]) + files == files;
  }

  lemma {:induction false} PurgeEnds(before: seq<WatchConfig>, files: seq<ParseResult>, visits: seq<Visit>,
                                     s: State, s': State)
    requires SpawnInv(s) && Next(s, PurgeStale, s') && Underway(before, files, visits, s)
    ensures Visits(visits, files) && s'.watches == Reload(before, visits).table && s'.main == Rewatching(0)
  {
    hide SpawnInv, Purge, HandleFile;
    assert Shape(s) by {
      SpawnInvShape(s);
    }
    assert FilesOf(visits) == files;
  }

  lemma {:induction false} SpawnInvShape(s: State)
    requires SpawnInv(s)
    ensures Shape(s)
  {
  }

  /**
   * In any run, from the start of a reload to its purge: it handled exactly the directory's files, in order, and
   * leaves the watches the specification says, for what was registered as each file was handled.
   */
  lemma {:induction false} DaemonReload(states: seq<State>, labels: seq<Label>, files: seq<ParseResult>, i: nat, j: nat)
    requires Run(states, labels) && i <= j < |labels| && labels[j].PurgeStale?
    requires states[i].main == Reloading(files, [], false)
    requires forall k :: i <= k <= j ==> states[k].main.Reloading?
    ensures var visits := VisitsOf(states, labels, i, j);
            && Visits(visits, files)
            && states[j + 1].watches == Reload(states[i].watches, visits).table
            && states[j + 1].main == Rewatching(0)
  {
    hide Underway, SpawnInv, Init, Reload;
    StretchUnderway(states, labels, files, i, j);
    RunKeepsSpawnInv(states, labels, j);
    assert Next(states[j], labels[j], states[j + 1]);
    PurgeEnds(states[i].watches, files, VisitsOf(states, labels, i, j), states[j], states[j + 1]);
  }

  // ---- the re-watch ----

  /** The answers of the kernel in steps i to j, each with the watch ids registered then. */
  function AnswersOf(states: seq<State>, labels: seq<Label>, i: nat, j: nat): seq<Answer>
    requires i <= j <= |labels| < |states|
    decreases j
  {
    if j == i then []
    else
      AnswersOf(states, labels, i, j - 1) +
      match labels[j - 1]
      case RewatchSlot(wd, missing) => [Answer(wd, missing, states[j - 1].entries.watchIds)]
      case _ => []
  }

  lemma {:induction false} RewatchedPrefix(table: seq<WatchConfig>, answers: seq<Answer>, a: Answer, k: nat)
    requires k <= |answers| && k <= |table|
    ensures RewatchTo(table, answers + [a], k) == RewatchTo(table, answers, k)
  {
    if k == 0 {
    } else {
      RewatchedPrefix(table, answers, a, k - 1);
    }
  }

  ghost predicate Rewatchings(before: seq<WatchConfig>, answers: seq<Answer>, s: State) {
    && |answers| <= |before| && s.watches == RewatchTo(before, answers, |answers|)
    && (if |answers| == |before| then s.main.Polling? else s.main == Rewatching(|answers|))
  }

  lemma {:induction false} SlotRewatched(before: seq<WatchConfig>, answers: seq<Answer>, s: State, wd: int, missing: bool)
    requires Shape(s) && Rewatchings(before, answers, s) && s.main.Rewatching? && s.main.next < |s.watches|
    ensures Rewatchings(before, answers + [Answer(wd, missing, s.entries.watchIds)], DoRewatch(s, wd, missing))
  {
    hide Rewatch;
    RewatchedPrefix(before, answers, Answer(wd, missing, s.entries.watchIds), |answers|);
  }

  lemma {:induction false} OtherRewatching(s: State, l: Label)
    requires Shape(s) && Enabled(s, l) && s.main.Rewatching? && !l.RewatchSlot? && !Step(s, l).main.Halted?
    ensures Step(s, l).main == s.main && Step(s, l).watches == s.watches
  {
  }

  lemma {:induction false} NextRewatching(before: seq<WatchConfig>, answers: seq<Answer>, s: State, l: Label, s': State)
    requires SpawnInv(s) && Next(s, l, s') && Rewatchings(before, answers, s) && s.main.Rewatching?
    requires !s'.main.Halted?
    ensures Rewatchings(before, answers + match l
                                          case RewatchSlot(wd, missing) => [Answer(wd, missing, s.entries.watchIds)]
                                          case _ => [], s')
  {
    SpawnInvShape(s);
    hide SpawnInv, DoRewatch, Rewatchings;
    if l.RewatchSlot? {
      SlotRewatched(before, answers, s, l.wd, l.missing);
    } else {
      OtherRewatching(s, l);
      SameRewatchings(before, answers, s, s');
    }
  }

  lemma {:induction false} SameRewatchings(before: seq<WatchConfig>, answers: seq<Answer>, s: State, s': State)
    requires Rewatchings(before, answers, s) && s'.main == s.main && s'.watches == s.watches
    ensures Rewatchings(before, answers + [], s')
  {
    assert answers + [] == answers;
  }

  lemma {:induction false} StretchRewatching(states: seq<State>, labels: seq<Label>, i: nat, j: nat)
    requires Run(states, labels) && i <= j <= |labels| && states[i].main == Rewatching(0)
    requires forall k :: i <= k < j ==> states[k].main.Rewatching?
    requires !states[j].main.Halted?
    ensures Rewatchings(states[i].watches, AnswersOf(states, labels, i, j), states[j])
    decreases j
  {
    hide Rewatchings, Next, SpawnInv, Init;
    if i == j {
      RunKeepsSpawnInv(states, labels, i);
      RewatchBegins(states[i]);
    } else {
      StretchRewatching(states, labels, i, j - 1);
      RunKeepsSpawnInv(states, labels, j - 1);
      NextRewatching(states[i].watches, AnswersOf(states, labels, i, j - 1), states[j - 1], labels[j - 1], states[j]);
    }
  }

  lemma {:induction false} RewatchBegins(s: State)
    requires SpawnInv(s) && s.main == Rewatching(0)
    ensures Rewatchings(s.watches, [], s)
  {
  }

  /** In any run, from the purge until events are awaited: each slot was answered for once, in order. */
  lemma {:induction false} DaemonRewatch(states: seq<State>, labels: seq<Label>, i: nat, j: nat)
    requires Run(states, labels) && i <= j <= |labels|
    requires states[i].main == Rewatching(0) && states[j].main.Polling?
    requires forall k :: i <= k < j ==> states[k].main.Rewatching?
    ensures var answers := AnswersOf(states, labels, i, j);
            && |answers| == |states[i].watches|
            && states[j].watches == RewatchTo(states[i].watches, answers, |answers|)
  {
    hide Next, SpawnInv, Init;
    StretchRewatching(states, labels, i, j);
  }
}
