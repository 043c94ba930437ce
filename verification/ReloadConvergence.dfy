/** What a reload leads to in full: when one is enough, and when two are. */
module ReloadConvergence {
  import opened Pigeonhole
  import opened Watches
  import opened Reconcile
  import opened ReloadTracking
  import opened ReloadOutcome
  import opened ReloadMeaning

  // ---- one reload ----

  /** What can be checked before the reload: each valid file will find its watch, or room for one. */
  ghost predicate Ready(before: seq<WatchConfig>, visits: seq<Visit>, n: nat)
    requires n <= |visits|
  {
    forall k :: 0 <= k < n && Valid(visits[k].file) ==> Welcome(before, visits, k)
  }

  /** File m is the last of the first k to name its target. */
  ghost predicate LastNaming(visits: seq<Visit>, k: nat, m: nat)
    requires k <= |visits|
  {
    m < k && NameOf(visits[m].file) != "" && forall n :: m < n < k ==> NameOf(visits[n].file) != NameOf(visits[m].file)
  }

  /** The last file naming a target decides: its watch does what that file says, or is gone. */
  lemma {:induction false} LastDecides(before: seq<WatchConfig>, visits: seq<Visit>, k: nat, m: nat)
    requires k <= |visits| && LastNaming(visits, k, m) && Ready(before, visits, k)
    ensures var x, after := NameOf(visits[m].file), Foreseen(before, visits, k);
            if Valid(visits[m].file) then x in after && after[x] == Effective(visits[m].file.config)
            else x !in after
    decreases k
  {
    hide Valid, CanServe, Effective;
    if m == k - 1 {
    } else {
      LastDecides(before, visits, k - 1, m);
    }
  }

  lemma {:induction false} SomeLast(visits: seq<Visit>, k: nat, name: string) returns (m: nat)
    requires k <= |visits| && Seen(visits, k, name) && name != ""
    ensures LastNaming(visits, k, m) && NameOf(visits[m].file) == name
  {
    if NameOf(visits[k - 1].file) == name {
      m := k - 1;
    } else {
      m := SomeLast(visits, k - 1, name);
    }
  }

  /** What the directory asks for when targets are named repeatedly: of each target, what the last file says. */
  ghost function LastSet(visits: seq<Visit>): set<WatchConfig> {
    set m | 0 <= m < |visits| && Valid(visits[m].file) && LastNaming(visits, |visits|, m) ::
      Effective(visits[m].file.config)
  }

  lemma {:induction false} NamesNotEmpty(before: seq<WatchConfig>, visits: seq<Visit>, k: nat)
    requires k <= |visits| && "" !in ActiveNames(before)
    ensures "" !in Foreseen(before, visits, k)
  {
    hide CanServe;
    if k == 0 {
    } else {
      NamesNotEmpty(before, visits, k - 1);
    }
  }

  lemma {:induction false} ReadyOutcome(before: seq<WatchConfig>, visits: seq<Visit>)
    requires Ready(before, visits, |visits|) && "" !in ActiveNames(before)
    ensures Met(Foreseen(before, visits, |visits|), visits).Values == LastSet(visits)
  {
    hide Foreseen, Valid, CanServe, Effective, Ready, Seen;
    var m := Met(Foreseen(before, visits, |visits|), visits);
    NamesNotEmpty(before, visits, |visits|);
    forall w | w in m.Values ensures w in LastSet(visits) {
      var x :| x in m && m[x] == w;
      var n := SomeLast(visits, |visits|, x);
      LastDecides(before, visits, |visits|, n);
    }
    forall w | w in LastSet(visits) ensures w in m.Values {
      var n :| 0 <= n < |visits| && Valid(visits[n].file) && LastNaming(visits, |visits|, n) &&
        Effective(visits[n].file.config) == w;
      LastDecides(before, visits, |visits|, n);
      NamedIsSeen(visits, n);
      assert m[NameOf(visits[n].file)] == w;
    }
  }

  lemma {:induction false} NamedIsSeen(visits: seq<Visit>, m: nat)
    requires m < |visits|
    ensures Seen(visits, |visits|, NameOf(visits[m].file))
  {
  }

  /** The last file wins: of any directory whose valid files all find their watch or room. */
  lemma {:induction false} LastFileWins(before: seq<WatchConfig>, visits: seq<Visit>)
    requires TableOk(before) && NothingRuns(visits) && ListInBounds(before, visits)
    requires Ready(before, visits, |visits|)
    ensures EffectiveSet(Reload(before, visits).table) == LastSet(visits)
  {
    hide TableOk, NothingRuns, ListInBounds, Met, Foreseen, Ready, LastSet, Reload, EffectiveSet, ActiveNames;
    NoEmptyName(before);
    ReloadRefines(before, visits);
    ReadyOutcome(before, visits);
  }

  /** With distinct names every file is the last on its target. */
  lemma {:induction false} DistinctLast(visits: seq<Visit>)
    requires DistinctNames(visits)
    ensures LastSet(visits) == ValidSet(visits)
  {
    hide Effective;
    assert forall m :: 0 <= m < |visits| && Valid(visits[m].file) ==> LastNaming(visits, |visits|, m);
  }

  /** A name is only brought in by its own file. */
  lemma {:induction false} NameComesFromItsFile(before: seq<WatchConfig>, visits: seq<Visit>, k: nat, j: nat)
    requires k < j <= |visits| && DistinctNames(visits) && Valid(visits[k].file)
    requires NameOf(visits[k].file) in Foreseen(before, visits, j)
    ensures Welcome(before, visits, k)
    decreases j
  {
    if j == k + 1 {
    } else {
      NameComesFromItsFile(before, visits, k, j - 1);
    }
  }

  /** If every valid file ends up in effect, there was room for each. */
  lemma {:induction false} CompleteIsReady(before: seq<WatchConfig>, visits: seq<Visit>)
    requires DistinctNames(visits)
    requires ValidSet(visits) <= Met(Foreseen(before, visits, |visits|), visits).Values
    requires EffectNamed(Foreseen(before, visits, |visits|))
    ensures Ready(before, visits, |visits|)
  {
    hide Foreseen, DistinctNames, Welcome, Seen, Effective;
    var m := Met(Foreseen(before, visits, |visits|), visits);
    forall k | 0 <= k < |visits| && Valid(visits[k].file) ensures Welcome(before, visits, k) {
      var w := Effective(visits[k].file.config);
      assert w in ValidSet(visits);
      var x :| x in m && m[x] == w;
      EffectiveName(visits[k].file.config);
      NameComesFromItsFile(before, visits, k, |visits|);
    }
  }

  lemma {:induction false} EffectiveName(c: WatchConfig)
    ensures Effective(c).filename == c.filename
  {
  }

  /** Each effect is one of the target it is filed under. */
  ghost predicate EffectNamed(m: map<string, WatchConfig>) {
    forall x :: x in m ==> m[x].filename == x
  }

  lemma {:induction false} EffectsNamed(table: seq<WatchConfig>)
    ensures EffectNamed(Effects(table))
  {
    forall x | x in ActiveNames(table) ensures Effects(table)[x].filename == x {
      NamedIsActive(table, x);
      EffectiveName(table[FindNamed(table, x, 0)]);
    }
  }

  lemma {:induction false} ForeseenNamed(before: seq<WatchConfig>, visits: seq<Visit>, k: nat)
    requires k <= |visits|
    ensures EffectNamed(Foreseen(before, visits, k))
  {
    hide CanServe, Effects;
    if k == 0 {
      EffectsNamed(before);
    } else {
      ForeseenNamed(before, visits, k - 1);
    }
  }

  /**
   * One reload of a directory with distinct names reaches the specification if and only if each valid file, when
   * its turn comes, finds a watch on its target or room for one: a free slot, and no active watch with its
   * basename. Stale watches only go after the walk, so what they take up counts, and so does the walk's order.
   */
  lemma {:induction false} OneReloadCompletesExactly(before: seq<WatchConfig>, visits: seq<Visit>)
    requires TableOk(before) && NothingRuns(visits) && DistinctNames(visits)
    ensures EffectiveSet(Reload(before, visits).table) == ValidSet(visits) <==> Ready(before, visits, |visits|)
  {
    hide TableOk, DistinctNames, NothingRuns, Reload, WalkTo, Foreseen, EffectiveSet, ValidSet, LastSet, Met, Ready;
    hide ListInBounds;
    KeptListFits(before, visits, |visits|);
    if Ready(before, visits, |visits|) {
      LastFileWins(before, visits);
      DistinctLast(visits);
    }
    if EffectiveSet(Reload(before, visits).table) == ValidSet(visits) {
      ReloadRefines(before, visits);
      ForeseenNamed(before, visits, |visits|);
      CompleteIsReady(before, visits);
    }
  }

  // ---- two reloads ----

  lemma {:induction false} ForeseenAmongValid(before: seq<WatchConfig>, visits: seq<Visit>, k: nat)
    requires k <= |visits| && ActiveNamesValid(before, visits)
    ensures Foreseen(before, visits, k).Keys <= ValidNames(visits)
  {
    hide CanServe, Effects, Valid;
    if k == 0 {
    } else {
      ForeseenAmongValid(before, visits, k - 1);
      assert Valid(visits[k - 1].file) ==> NameOf(visits[k - 1].file) in ValidNames(visits);
    }
  }

  /** Once all active watches are named by valid files, room for the valid files is all it takes. */
  lemma {:induction false} SettledIsReady(before: seq<WatchConfig>, visits: seq<Visit>)
    requires ActiveNamesValid(before, visits) && Holdable(visits, |before|)
    ensures Ready(before, visits, |visits|)
  {
    hide Holdable, CanServe, Valid, ValidNames, ActiveNamesValid, Foreseen;
    forall k | 0 <= k < |visits| && Valid(visits[k].file) ensures Welcome(before, visits, k) {
      ForeseenAmongValid(before, visits, k);
      RoomAmongValid(Foreseen(before, visits, k).Keys, visits, k, |before|);
    }
  }

  lemma {:induction false} ReadyCounts(before: seq<WatchConfig>, visits: seq<Visit>, k: nat)
    requires k <= |visits| && Ready(before, visits, |visits|)
    ensures WelcomeCount(before, visits, k) == ValidCount(visits, k)
  {
    if k == 0 {
    } else {
      ReadyCounts(before, visits, k - 1);
    }
  }

  /** Then the list stays within its array just when there are no more valid files than slots, repeated or not. */
  lemma {:induction false} SettledListFits(before: seq<WatchConfig>, visits: seq<Visit>)
    requires TableOk(before) && NothingRuns(visits)
    requires ActiveNamesValid(before, visits) && Holdable(visits, |before|)
    ensures ListInBounds(before, visits) <==> ValidCount(visits, |visits|) <= |before|
  {
    hide *;
    SettledIsReady(before, visits);
    ReadyCounts(before, visits, |visits|);
    ListFitsExactly(before, visits);
  }

  /** And then the last file wins, of each target; with distinct names that is every valid file. */
  lemma {:induction false} SettledReloadIsComplete(before: seq<WatchConfig>, visits: seq<Visit>)
    requires TableOk(before) && ActiveNamesValid(before, visits) && Holdable(visits, |before|)
    requires NothingRuns(visits) && ListInBounds(before, visits)
    ensures EffectiveSet(Reload(before, visits).table) == LastSet(visits)
    ensures DistinctNames(visits) ==> LastSet(visits) == ValidSet(visits)
  {
    hide *;
    SettledIsReady(before, visits);
    LastFileWins(before, visits);
    if DistinctNames(visits) {
      DistinctLast(visits);
    }
  }

  lemma {:induction false} SoundNamesValid(table: seq<WatchConfig>, visits: seq<Visit>)
    requires EffectiveSet(table) <= ValidSet(visits)
    ensures ActiveNamesValid(table, visits)
  {
    forall i | 0 <= i < |table| && table[i].isActive ensures table[i].filename in ValidNames(visits) {
      assert Effective(table[i]) in EffectiveSet(table);
      var m :| 0 <= m < |visits| && Valid(visits[m].file) &&
        Effective(visits[m].file.config) == Effective(table[i]);
      assert NameOf(visits[m].file) == table[i].filename;
    }
  }

  /**
   * Two reloads of an unchanged directory, with any re-watch and any events in between: they reach the
   * specification if and only if a table of this size can hold it.
   */
  lemma {:induction false} TwoReloadsConverge(files: seq<ParseResult>, before: seq<WatchConfig>, first: seq<Visit>,
                                              between: seq<WatchConfig>, second: seq<Visit>)
    requires Visits(first, files) && Visits(second, files)
    requires NothingRuns(first) && NothingRuns(second) && DistinctNames(second)
    requires TableOk(between) && EffectiveSet(between) <= EffectiveSet(Reload(before, first).table)
    ensures EffectiveSet(between) <= ValidSet(second)
    ensures EffectiveSet(Reload(between, second).table) == ValidSet(second) <==> Holdable(second, |between|)
  {
    OneReloadIsSound(before, first);
    assert ValidSet(first) == ValidSet(second);
    SoundNamesValid(between, second);
    var after := Reload(between, second).table;
    if Holdable(second, |between|) {
      KeptListFits(between, second, |second|);
      SettledReloadIsComplete(between, second);
    }
    if EffectiveSet(after) == ValidSet(second) {
      ReloadKeepsTableOk(between, second);
      CompleteIsHoldable(after, second);
    }
  }

  /** With repeated names they reach, of each target, what the last file says. */
  lemma {:induction false} TwoReloadsTakeLast(files: seq<ParseResult>, before: seq<WatchConfig>, first: seq<Visit>,
                                              between: seq<WatchConfig>, second: seq<Visit>)
    requires Visits(first, files) && Visits(second, files)
    requires NothingRuns(first) && NothingRuns(second) && ListInBounds(between, second)
    requires TableOk(between) && EffectiveSet(between) <= EffectiveSet(Reload(before, first).table)
    requires Holdable(second, |between|)
    ensures EffectiveSet(Reload(between, second).table) == LastSet(second)
  {
    hide TableOk, NothingRuns, Holdable, Reload, ListInBounds, Effective, EffectiveSet, LastSet;
    OneReloadIsSound(before, first);
    assert ValidSet(first) == ValidSet(second);
    SoundNamesValid(between, second);
    SettledReloadIsComplete(between, second);
  }

  /** What a good table does in full, a table of its size can hold. */
  lemma {:induction false} CompleteIsHoldable(table: seq<WatchConfig>, visits: seq<Visit>)
    requires TableOk(table) && ValidSet(visits) <= EffectiveSet(table)
    ensures Holdable(visits, |table|)
  {
    hide TableOk, Valid, Effective, EffectiveSet, ValidSet;
    forall m | 0 <= m < |visits| && Valid(visits[m].file) ensures NameOf(visits[m].file) in ActiveNames(table) {
      var i := HeldBy(table, visits, m);
    }
    SubsetSize(ValidNames(visits), ActiveNames(table));
    NamesAtMost(table);
    forall m, n | 0 <= m < |visits| && 0 <= n < |visits| && Valid(visits[m].file) && Valid(visits[n].file) &&
                  NameOf(visits[m].file) != NameOf(visits[n].file)
      ensures Basename(NameOf(visits[m].file)) != Basename(NameOf(visits[n].file))
    {
      var i := HeldBy(table, visits, m);
      var j := HeldBy(table, visits, n);
      if Basename(table[i].filename) == Basename(table[j].filename) {
        NamedUnique(table, i, j);
      }
    }
  }

  lemma {:induction false} HeldBy(table: seq<WatchConfig>, visits: seq<Visit>, m: nat) returns (i: nat)
    requires m < |visits| && Valid(visits[m].file) && ValidSet(visits) <= EffectiveSet(table)
    ensures i < |table| && Named(table[i], NameOf(visits[m].file))
  {
    assert Effective(visits[m].file.config) in ValidSet(visits);
    i :| 0 <= i < |table| && table[i].isActive && Effective(table[i]) == Effective(visits[m].file.config);
  }

  /** Setting the inotify watches up again can only drop watches. */
  lemma {:induction false} RewatchAddsNothing(table: seq<WatchConfig>, answers: seq<Answer>)
    requires |answers| == |table|
    ensures EffectiveSet(RewatchTo(table, answers, |table|)) <= EffectiveSet(table)
  {
    var after := RewatchTo(table, answers, |table|);
    forall i | 0 <= i < |after| && after[i].isActive ensures Effective(after[i]) in EffectiveSet(table) {
      RewatchedSlot(table, answers, |table|, i);
      assert Effective(after[i]) == Effective(table[i]);
    }
  }

  /** The main loop from one reload to the end of the next, as the daemon runs it when nothing else happens. */
  lemma {:induction false} TwoIterationsConverge(files: seq<ParseResult>, before: seq<WatchConfig>,
                                                 first: seq<Visit>, answers: seq<Answer>, second: seq<Visit>)
    requires TableOk(before) && |answers| == |before| && Visits(first, files) && Visits(second, files)
    requires NothingRuns(first) && NothingRuns(second) && DistinctNames(second)
    ensures var between := RewatchTo(Reload(before, first).table, answers, |before|);
            && EffectiveSet(between) <= ValidSet(second)
            && (EffectiveSet(Reload(between, second).table) == ValidSet(second) <==> Holdable(second, |before|))
  {
    hide TableOk, NothingRuns, DistinctNames, EffectiveSet, ValidSet, Holdable, RewatchTo, Visits;
    var once := Reload(before, first).table;
    ReloadKeepsTableOk(before, first);
    RewatchToKeepsTableOk(once, answers, |once|);
    RewatchAddsNothing(once, answers);
    TwoReloadsConverge(files, before, first, RewatchTo(once, answers, |once|), second);
  }
}
