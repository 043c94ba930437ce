/** A reload and the re-watch after it, as steps of a run with processes ending in between. */
module ReloadRuns {
  import opened Pigeonhole
  import opened Watches
  import opened Reconcile
  import opened ReloadTracking
  import opened ReloadOutcome
  import opened Daemon
  import opened QuarantineRuns
  import opened BlockerRuns

  predicate InReload(m: Main) {
    m.Reloading? || m.Rewatching?
  }

  /** The same watch, except that it may have been given another inotify descriptor. */
  predicate SameWatch(before: WatchConfig, after: WatchConfig) {
    after == before.(inotifyWd := after.inotifyWd)
  }

  /** No step of a reload registers a process. */
  lemma {:induction false} NothingRegistered(s: State, l: Label, w: nat)
    requires Shape(s) && Enabled(s, l) && InReload(s.main) && w in Step(s, l).entries.watchIds
    ensures w in s.entries.watchIds
  {
  }

  /** A step of a reload that changes a registered watch clears it. */
  lemma {:induction false} RegisteredSpared(s: State, l: Label, w: nat)
    requires Shape(s) && Enabled(s, l) && InReload(s.main)
    requires w in s.entries.watchIds && w < |s.watches| && s.watches[w].isActive
    ensures |Step(s, l).watches| == |s.watches|
    ensures Step(s, l).watches[w].isActive ==> SameWatch(s.watches[w], Step(s, l).watches[w])
  {
    hide HandleFile, ApplyWorld, WatchOf;
    if l.ReloadFile? {
      FileSparesRunning(Walk(s.watches, s.main.kept, s.main.notify), Visit(s.main.rest[0], s.entries.watchIds), w);
    } else if WorldEnabled(s, l) {
      WorldSparesWatches(s, l);
    }
  }

  lemma {:induction false} WorldSparesWatches(s: State, l: Label)
    requires Shape(s) && WorldEnabled(s, l)
    ensures ApplyWorld(s, l).watches == s.watches
  {
  }

  lemma {:induction false} RegisteredIsActive(s: State, w: nat)
    requires BlockInv(s) && w in s.entries.watchIds
    ensures Shape(s) && w < |s.watches| && s.watches[w].isActive
  {
  }

  lemma {:induction false} NextSpares(s: State, l: Label, s': State, w: nat)
    requires BlockInv(s) && BlockInv(s') && Next(s, l, s') && InReload(s.main) && w in s'.entries.watchIds
    ensures w in s.entries.watchIds && w < |s.watches| && w < |s'.watches|
    ensures SameWatch(s.watches[w], s'.watches[w])
  {
    hide BlockInv, Step, Enabled, InReload;
    RegisteredIsActive(s', w);
    TableOkOfBlockInv(s);
    NothingRegistered(s, l, w);
    RegisteredIsActive(s, w);
    RegisteredSpared(s, l, w);
  }

  lemma {:induction false} TableOkOfBlockInv(s: State)
    requires BlockInv(s)
    ensures Shape(s)
  {
  }

  /** A reload and re-watch, up to its end: what runs then ran from the start, in an unchanged watch. */
  lemma {:induction false} ReloadSparesRunning(states: seq<State>, labels: seq<Label>, i: nat, j: nat, w: nat)
    requires BenignRun(states, labels) && i <= j <= |labels|
    requires forall k :: i <= k < j ==> InReload(states[k].main)
    requires w in states[j].entries.watchIds
    ensures w in states[i].entries.watchIds && w < |states[i].watches| && w < |states[j].watches|
    ensures SameWatch(states[i].watches[w], states[j].watches[w])
    decreases j - i
  {
    hide BlockInv, Init, Benign, Next, InReload;
    RunKeepsBlockInv(states, labels, j);
    if i == j {
      RegisteredIsActive(states[j], w);
    } else {
      RunKeepsBlockInv(states, labels, j - 1);
      NextSpares(states[j - 1], labels[j - 1], states[j], w);
      ReloadSparesRunning(states, labels, i, j - 1, w);
    }
  }

  // ---- new_watch_list over runs ----

  /** The list so far: different active slots, none of which a file to come names. */
  ghost predicate ListOk(watches: seq<WatchConfig>, kept: seq<int>, rest: seq<ParseResult>) {
    && AllDistinct(kept)
    && DistinctNames(Pending(rest))
    && (forall x :: x in kept ==> 0 <= x < |watches| && watches[x].isActive && !NamedBy(rest, watches[x].filename))
  }

  /** The files to come that name a target. */
  function NamedAhead(rest: seq<ParseResult>): nat {
    NamedCount(Pending(rest), |rest|)
  }

  ghost predicate ListRoom(watches: seq<WatchConfig>, kept: seq<int>, rest: seq<ParseResult>) {
    ListOk(watches, kept, rest) || |kept| + NamedAhead(rest) <= |watches|
  }

  lemma {:induction false} CountFront(visits: seq<Visit>, k: nat)
    requires 0 < k <= |visits|
    ensures NamedCount(visits, k) == (if NameOf(visits[0].file) != "" then 1 else 0) + NamedCount(visits[1..], k - 1)
  {
    if k == 1 {
    } else {
      CountFront(visits, k - 1);
    }
  }

  lemma {:induction false} AheadStep(rest: seq<ParseResult>)
    requires rest != []
    ensures NamedAhead(rest) == (if NameOf(rest[0]) != "" then 1 else 0) + NamedAhead(rest[1..])
  {
    assert Pending(rest)[1..] == Pending(rest[1..]);
    CountFront(Pending(rest), |rest|);
  }

  lemma {:induction false} DistinctShift(rest: seq<ParseResult>)
    requires rest != [] && DistinctNames(Pending(rest))
    ensures DistinctNames(Pending(rest[1..]))
    ensures NameOf(rest[0]) != "" ==> !NamedBy(rest[1..], NameOf(rest[0]))
  {
    assert Pending(rest)[1..] == Pending(rest[1..]);
    assert Pending(rest)[0].file == rest[0];
    assert forall m :: 0 <= m < |rest| - 1 ==> Pending(rest[1..])[m] == Pending(rest)[m + 1];
  }

  lemma {:induction false} ListAfter(s: Walk, s': Walk, rest: seq<ParseResult>, i: int)
    requires rest != [] && ListOk(s.table, s.kept, rest)
    requires Grew(s, s', i, NameOf(rest[0])) || Shrank(s, s', i, NameOf(rest[0]))
    ensures ListOk(s'.table, s'.kept, rest[1..])
  {
    hide NamedBy;
    DistinctShift(rest);
    NamesShift(rest);
    assert i !in s.kept;
    forall x | x in s'.kept
      ensures 0 <= x < |s'.table| && s'.table[x].isActive && !NamedBy(rest[1..], s'.table[x].filename)
    {
      assert x in s.kept || x == i;
      assert x in s.kept ==> s'.table[x] == s.table[x];
    }
  }

  lemma {:induction false} RoomStep(s: Walk, rest: seq<ParseResult>, v: Visit)
    requires rest != [] && v.file == rest[0] && TableOk(s.table) && ListRoom(s.table, s.kept, rest)
    ensures var s' := HandleFile(s, v); ListRoom(s'.table, s'.kept, rest[1..])
  {
    hide TableOk, HandleFile, ListOk, NamedAhead;
    var s' := HandleFile(s, v);
    if ListOk(s.table, s.kept, rest) {
      var i := FileEffect(s, v);
      if i == -1 {
        ListUnchanged(s, rest);
      } else {
        ListAfter(s, s', rest, i);
      }
    } else {
      FileLists(s, v);
      AheadStep(rest);
    }
  }

  lemma {:induction false} ListUnchanged(s: Walk, rest: seq<ParseResult>)
    requires rest != [] && ListOk(s.table, s.kept, rest)
    ensures ListOk(s.table, s.kept, rest[1..])
  {
    hide NamedBy;
    DistinctShift(rest);
    NamesShift(rest);
  }

  lemma {:induction false} RoomToEnd(watches: seq<WatchConfig>, kept: seq<int>, rest: seq<ParseResult>)
    requires ListRoom(watches, kept, rest)
    ensures |kept| <= |watches|
  {
    if ListOk(watches, kept, rest) {
      DistinctIndicesFit(kept, |watches|);
    }
  }

  ghost predicate Room(s: State) {
    s.main.Reloading? ==> ListRoom(s.watches, s.main.kept, s.main.rest)
  }

  /** Every directory the run is given is one the list has room for: what it needs is known from its files. */
  ghost predicate FittingRun(states: seq<State>, labels: seq<Label>) {
    && Run(states, labels)
    && ListFits(Pending(states[0].main.rest), |states[0].watches|)
    && forall i :: 0 <= i < |labels| && labels[i].Remount? ==> ListFits(Pending(labels[i].files), |states[i].watches|)
  }

  lemma {:induction false} RoomAtFirst(watches: seq<WatchConfig>, files: seq<ParseResult>)
    requires ListFits(Pending(files), |watches|)
    ensures ListRoom(watches, [], files)
  {
  }

  lemma {:induction false} StepKeepsRoom(s: State, l: Label)
    requires Shape(s) && TableOk(s.watches) && Enabled(s, l) && Room(s)
    requires l.Remount? ==> ListFits(Pending(l.files), |s.watches|)
    ensures Room(Step(s, l))
  {
    hide TableOk, ListRoom, ListFits, HandleFile, Purge, Rewatch, WatchOf;
    if l.ReloadFile? {
      RoomStep(Walk(s.watches, s.main.kept, s.main.notify), s.main.rest, Visit(s.main.rest[0], s.entries.watchIds));
    } else if l.Remount? {
      RoomAtFirst(s.watches, l.files);
    }
  }

  lemma {:induction false} NextKeepsRoom(s: State, l: Label, s': State)
    requires WatchInv(s) && Next(s, l, s') && Room(s) && (l.Remount? ==> ListFits(Pending(l.files), |s.watches|))
    ensures Room(s')
  {
    hide Step, Enabled, Room, ListFits;
    TableOkOf(s);
    StepKeepsRoom(s, l);
  }

  lemma {:induction false} RunKeepsRoom(states: seq<State>, labels: seq<Label>, i: nat)
    requires FittingRun(states, labels) && i <= |labels|
    ensures Room(states[i])
  {
    if i == 0 {
      hide ListFits, ListRoom;
      RoomAtFirst(states[0].watches, states[0].main.rest);
    } else {
      hide WatchInv, Next, Init, Room, ListFits;
      RunKeepsRoom(states, labels, i - 1);
      RunKeepsWatchInv(states, labels, i - 1);
      NextKeepsRoom(states[i - 1], labels[i - 1], states[i]);
    }
  }

  /** In no state of such a run has new_watch_list been written past its end. */
  lemma {:induction false} ListNeverOverflows(states: seq<State>, labels: seq<Label>, i: nat)
    requires FittingRun(states, labels) && i <= |labels| && states[i].main.Reloading?
    ensures |states[i].main.kept| <= |states[i].watches|
  {
    hide ListRoom;
    RunKeepsRoom(states, labels, i);
    RoomToEnd(states[i].watches, states[i].main.kept, states[i].main.rest);
  }

  /** So directories that fit, and name what is running, are all a run has to grant of its reloads. */
  lemma {:induction false} FittingRunIsBenign(states: seq<State>, labels: seq<Label>)
    requires FittingRun(states, labels)
    requires forall i :: 0 <= i < |labels| && !labels[i].PurgeStale? ==> Benign(states[i], labels[i])
    ensures BenignRun(states, labels)
  {
    hide Init, Next, ListFits;
    forall i | 0 <= i < |labels| && labels[i].PurgeStale? && states[i].main.Reloading?
      ensures |states[i].main.kept| <= |states[i].watches|
    {
      ListNeverOverflows(states, labels, i);
    }
  }
}
