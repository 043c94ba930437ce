/** The update signal of a reload is exact: it is raised just when the effective watches changed. */
module ReloadSignal {
  import opened Watches
  import opened Reconcile
  import opened ReloadTracking

  /** Slots active before or now are the same, field for field. */
  ghost predicate SameActive(before: seq<WatchConfig>, after: seq<WatchConfig>) {
    |after| == |before| &&
    forall i :: 0 <= i < |before| && (before[i].isActive || after[i].isActive) ==> after[i] == before[i]
  }

  /** Slot i is listed and does something no watch did before. */
  ghost predicate New(before: seq<WatchConfig>, s: Walk, i: int) {
    0 <= i < |s.table| && i in s.kept && s.table[i].isActive && Effective(s.table[i]) !in EffectiveSet(before)
  }

  /** The watch that was in slot i lost its filename for good. */
  ghost predicate Gone(before: seq<WatchConfig>, s: Walk, visits: seq<Visit>, k: nat, i: int)
    requires k <= |visits|
  {
    && 0 <= i < |before| && before[i].isActive && Seen(visits, k, before[i].filename)
    && forall j :: 0 <= j < |s.table| && s.table[j].isActive ==> s.table[j].filename != before[i].filename
  }

  ghost predicate Changed(before: seq<WatchConfig>, s: Walk, visits: seq<Visit>, k: nat)
    requires k <= |visits|
  {
    exists i :: New(before, s, i) || Gone(before, s, visits, k, i)
  }

  ghost predicate SignalOk(before: seq<WatchConfig>, s: Walk, visits: seq<Visit>, k: nat)
    requires k <= |visits|
  {
    if s.notify then Changed(before, s, visits, k) else SameActive(before, s.table)
  }

  lemma {:induction false} InEffectiveSet(table: seq<WatchConfig>, i: nat)
    requires i < |table| && table[i].isActive
    ensures Effective(table[i]) in EffectiveSet(table)
  {
  }

  /** What already changed stays changed. */
  lemma {:induction false} ChangedStays(before: seq<WatchConfig>, s: Walk, s': Walk, visits: seq<Visit>, k: nat, i: int)
    requires k < |visits| && DistinctNames(visits) && Changed(before, s, visits, k) && TableOk(before)
    requires i !in s.kept
    requires var name := NameOf(visits[k].file); s' == s || Grew(s, s', i, name) || Shrank(s, s', i, name)
    ensures Changed(before, s', visits, k + 1)
  {
    var w :| New(before, s, w) || Gone(before, s, visits, k, w);
    if New(before, s, w) {
      assert New(before, s', w);
    } else {
      SeenStep(visits, k + 1, before[w].filename);
      if NameOf(visits[k].file) == before[w].filename {
        NameIsNew(visits, k);
      }
      assert Gone(before, s', visits, k + 1, w);
    }
  }

  /** A merge that rewrites anything changes what the watch does. */
  lemma {:induction false} MergeIsEffective(w: WatchConfig, c: WatchConfig)
    requires w.isActive && w.filename == c.filename && Merged(w, c) != w
    ensures Effective(Merged(w, c)) != Effective(w)
  {
  }

  lemma {:induction false} InsertIsChange(before: seq<WatchConfig>, visits: seq<Visit>, k: nat, s: Walk)
    requires k < |visits| && DistinctNames(visits) && Tracked(before, visits, k, s)
    requires Judge(s.table, visits[k]).Insert?
    ensures Changed(before, HandleFile(s, visits[k]), visits, k + 1)
  {
    var s' := HandleFile(s, visits[k]);
    var i := Judge(s.table, visits[k]).slot;
    InsertedIsNew(before, visits, k, s, s'.table[i]);
    assert New(before, s', i);
  }

  lemma {:induction false} DiscardIsChange(before: seq<WatchConfig>, visits: seq<Visit>, k: nat, s: Walk)
    requires k < |visits| && DistinctNames(visits) && Tracked(before, visits, k, s)
    requires Judge(s.table, visits[k]).Discard?
    ensures Changed(before, HandleFile(s, visits[k]), visits, k + 1)
  {
    var s' := HandleFile(s, visits[k]);
    var i := Judge(s.table, visits[k]).slot;
    HandledSlotIsNew(before, visits, k, s, i);
    OthersDiffer(s.table, visits[k]);
    SeenStep(visits, k + 1, NameOf(visits[k].file));
    assert Gone(before, s', visits, k + 1, i);
  }

  /** What a file raises the signal for is a change. */
  lemma {:induction false} RaisedByChange(before: seq<WatchConfig>, visits: seq<Visit>, k: nat, s: Walk)
    requires k < |visits| && DistinctNames(visits) && Tracked(before, visits, k, s) && TableOk(before)
    requires var d := Judge(s.table, visits[k]);
             d.Insert? || d.Discard? || (d.Update? && HandleFile(s, visits[k]).table[d.slot] != s.table[d.slot])
    ensures Changed(before, HandleFile(s, visits[k]), visits, k + 1)
  {
    var d := Judge(s.table, visits[k]);
    if d.Insert? {
      InsertIsChange(before, visits, k, s);
    } else if d.Discard? {
      DiscardIsChange(before, visits, k, s);
    } else {
      var s' := HandleFile(s, visits[k]);
      HandledSlotIsNew(before, visits, k, s, d.slot);
      MergeIsEffective(before[d.slot], visits[k].file.config);
      RewrittenIsNew(before, d.slot, s'.table[d.slot]);
      assert New(before, s', d.slot);
    }
  }

  lemma {:induction false} InsertedIsNew(before: seq<WatchConfig>, visits: seq<Visit>, k: nat, s: Walk, w: WatchConfig)
    requires k < |visits| && DistinctNames(visits) && Tracked(before, visits, k, s)
    requires w.filename == NameOf(visits[k].file) != ""
    requires forall j :: 0 <= j < |s.table| ==> !Named(s.table[j], w.filename)
    ensures Effective(w) !in EffectiveSet(before)
  {
  }

  lemma {:induction false} RewrittenIsNew(before: seq<WatchConfig>, i: int, w: WatchConfig)
    requires TableOk(before) && 0 <= i < |before| && before[i].isActive
    requires w.filename == before[i].filename && Effective(w) != Effective(before[i])
    ensures Effective(w) !in EffectiveSet(before)
  {
  }

  /** A file that does not raise the signal leaves every active watch as it was. */
  lemma {:induction false} QuietStep(before: seq<WatchConfig>, v: Visit, s: Walk)
    requires TableOk(s.table) && SameActive(before, s.table) && !HandleFile(s, v).notify
    ensures SameActive(before, HandleFile(s, v).table)
  {
    var s' := HandleFile(s, v);
    match Judge(s.table, v)
    case Ignore =>
    case Hold(i) =>
    case Update(i) => assert s'.table[i] == s.table[i];
    case Reject(i) => assert !s.table[i].isActive;
    case Insert(i) =>
    case Discard(i) =>
  }

  /** The signal is never taken back. */
  lemma {:induction false} SignalStays(s: Walk, v: Visit)
    requires s.notify
    ensures HandleFile(s, v).notify
  {
  }

  lemma {:induction false} QuietWalk(before: seq<WatchConfig>, visits: seq<Visit>, k: nat)
    requires k <= |visits| && TableOk(before) && !WalkTo(before, visits, k).notify
    ensures SameActive(before, WalkTo(before, visits, k).table)
  {
    if k == 0 {
    } else {
      hide HandleFile, SameActive, TableOk;
      var s := WalkTo(before, visits, k - 1);
      if s.notify {
        SignalStays(s, visits[k - 1]);
      }
      WalkKeepsTableOk(before, visits, k - 1);
      QuietWalk(before, visits, k - 1);
      QuietStep(before, visits[k - 1], s);
    }
  }

  /** No signal, no change: of any directory, whatever its files name and however many slots it lists. */
  lemma {:induction false} QuietReload(before: seq<WatchConfig>, visits: seq<Visit>)
    requires TableOk(before) && !Reload(before, visits).notify
    ensures SameActive(before, Reload(before, visits).table)
  {
    hide TableOk, HandleFile;
    QuietWalk(before, visits, |visits|);
    var s := WalkTo(before, visits, |visits|);
    assert forall i :: 0 <= i < |s.table| ==> !Stale(s.table[i], i, Listed(s.kept, |s.table|));
  }

  lemma {:induction false} RaisedStep(before: seq<WatchConfig>, visits: seq<Visit>, k: nat, s: Walk)
    requires k < |visits| && DistinctNames(visits) && Tracked(before, visits, k, s) && TableOk(before)
    requires Changed(before, s, visits, k)
    ensures Changed(before, HandleFile(s, visits[k]), visits, k + 1)
  {
    hide HandleFile, TableOk, Changed;
    var i := FileEffect(s, visits[k]);
    if i >= 0 {
      HandledSlotIsNew(before, visits, k, s, i);
    }
    ChangedStays(before, s, HandleFile(s, visits[k]), visits, k, i);
  }

  lemma {:induction false} SignalStep(before: seq<WatchConfig>, visits: seq<Visit>, k: nat, s: Walk)
    requires k < |visits| && DistinctNames(visits) && Tracked(before, visits, k, s) && TableOk(before)
    requires SignalOk(before, s, visits, k)
    ensures SignalOk(before, HandleFile(s, visits[k]), visits, k + 1)
  {
    hide TableOk, SameActive, Changed;
    if s.notify {
      RaisedStep(before, visits, k, s);
    } else if HandleFile(s, visits[k]).notify {
      RaisedByChange(before, visits, k, s);
    } else {
      QuietStep(before, visits[k], s);
    }
  }

  lemma {:induction false} QuietAtFirst(before: seq<WatchConfig>, visits: seq<Visit>)
    ensures SignalOk(before, Walk(before, [], false), visits, 0)
  {
  }

  lemma {:induction false} WalkSignalOk(before: seq<WatchConfig>, visits: seq<Visit>, k: nat)
    requires k <= |visits| && TableOk(before) && DistinctNames(visits)
    ensures SignalOk(before, WalkTo(before, visits, k), visits, k)
  {
    hide HandleFile, Tracked, TableOk, SignalOk, DistinctNames;
    if k == 0 {
      QuietAtFirst(before, visits);
    } else {
      WalkIsTracked(before, visits, k - 1);
      WalkSignalOk(before, visits, k - 1);
      SignalStep(before, visits, k - 1, WalkTo(before, visits, k - 1));
    }
  }

  /** After the walk: a new watch survives the purge. */
  lemma {:induction false} NewAfterPurge(before: seq<WatchConfig>, s: Walk, i: nat)
    requires |s.kept| <= |s.table| && New(before, s, i)
    ensures EffectiveSet(Purge(s).table) != EffectiveSet(before)
  {
  }

  /** After the walk: a watch that is gone stays gone. */
  lemma {:induction false} GoneAfterPurge(before: seq<WatchConfig>, visits: seq<Visit>, s: Walk, i: nat)
    requires Gone(before, s, visits, |visits|, i)
    ensures EffectiveSet(Purge(s).table) != EffectiveSet(before)
  {
    var after := Purge(s).table;
    InEffectiveSet(before, i);
    forall j | 0 <= j < |after| && after[j].isActive ensures Effective(after[j]) != Effective(before[i]) {
      assert after[j] == s.table[j];
    }
  }

  lemma {:induction false} ChangedAfterPurge(before: seq<WatchConfig>, visits: seq<Visit>, s: Walk)
    requires |s.kept| <= |s.table| && Changed(before, s, visits, |visits|)
    ensures EffectiveSet(Purge(s).table) != EffectiveSet(before)
  {
    var i :| New(before, s, i) || Gone(before, s, visits, |visits|, i);
    if New(before, s, i) {
      NewAfterPurge(before, s, i);
    } else {
      GoneAfterPurge(before, visits, s, i);
    }
  }

  /** After the walk: purging a watch is a change. */
  lemma {:induction false} PurgedIsGone(before: seq<WatchConfig>, visits: seq<Visit>, s: Walk, i: nat)
    requires Tracked(before, visits, |visits|, s) && |s.kept| <= |s.table|
    requires i < |s.table| && s.table[i].isActive && i !in s.kept
    ensures EffectiveSet(Purge(s).table) != EffectiveSet(before)
  {
    var after := Purge(s).table;
    InEffectiveSet(before, i);
    forall j | 0 <= j < |after| && after[j].isActive ensures Effective(after[j]) != Effective(before[i]) {
      if after[j].filename == before[i].filename {
        NamedUnique(s.table, i, j);
      }
    }
  }

  // ---- exactly when the signal is raised ----

  /** The file calls for no change: it does not count, or says of a watch that does not run what it does already. */
  ghost predicate Idle(table: seq<WatchConfig>, v: Visit) {
    var d := Judge(table, v);
    d.Ignore? || d.Reject? || d.Hold? ||
    (d.Update? && Effective(v.file.config) == Effective(table[d.slot]))
  }

  /** A merge leaves a watch as it is exactly when the file says what the watch does already. */
  lemma {:induction false} MergeIsIdle(w: WatchConfig, c: WatchConfig)
    requires w.isActive && w.filename == c.filename
    ensures Merged(w, c) == w <==> Effective(c) == Effective(w)
  {
  }

  lemma {:induction false} FileSignal(s: Walk, v: Visit)
    requires !s.notify
    ensures !HandleFile(s, v).notify <==> Idle(s.table, v)
  {
    hide Merged, Effective;
    var d := Judge(s.table, v);
    if d.Update? {
      MergeIsIdle(s.table[d.slot], v.file.config);
    }
  }

  lemma {:induction false} ClashesSame(a: seq<WatchConfig>, b: seq<WatchConfig>, filename: string)
    requires SameActive(a, b)
    ensures Clashes(a, filename, -1) <==> Clashes(b, filename, -1)
  {
    if i :| 0 <= i < |a| && Clash(a[i], filename) {
      assert b[i] == a[i];
    }
    if i :| 0 <= i < |b| && Clash(b[i], filename) {
      assert a[i] == b[i];
    }
  }

  /** Verdicts look at active watches only. */
  lemma {:induction false} JudgeSame(a: seq<WatchConfig>, b: seq<WatchConfig>, v: Visit)
    requires SameActive(a, b)
    ensures Judge(a, v) == Judge(b, v)
  {
    hide Clashes, Complete;
    if v.file.Parsed? {
      ClashesSame(a, b, v.file.config.filename);
      FindSame(a, b, v.file.config.filename);
    }
  }

  lemma {:induction false} FindSame(a: seq<WatchConfig>, b: seq<WatchConfig>, filename: string)
    requires SameActive(a, b)
    ensures FindNamed(a, filename, 0) == FindNamed(b, filename, 0) && FindInactive(a, 0) == FindInactive(b, 0)
  {
    assert forall i :: 0 <= i < |a| ==> (Named(a[i], filename) <==> Named(b[i], filename));
    assert forall i :: 0 <= i < |a| ==> a[i].isActive == b[i].isActive;
  }

  lemma {:induction false} IdleSame(a: seq<WatchConfig>, b: seq<WatchConfig>, v: Visit)
    requires SameActive(a, b)
    ensures Idle(a, v) <==> Idle(b, v)
  {
    hide Effective;
    JudgeSame(a, b, v);
  }

  lemma {:induction false} WalkSignal(before: seq<WatchConfig>, visits: seq<Visit>, k: nat)
    requires k <= |visits| && TableOk(before)
    ensures !WalkTo(before, visits, k).notify <==> forall m :: 0 <= m < k ==> Idle(before, visits[m])
  {
    hide HandleFile, TableOk, SameActive, Idle;
    if k == 0 {
    } else {
      var s := WalkTo(before, visits, k - 1);
      WalkSignal(before, visits, k - 1);
      if s.notify {
        SignalStays(s, visits[k - 1]);
      } else {
        QuietWalk(before, visits, k - 1);
        IdleSame(before, s.table, visits[k - 1]);
        FileSignal(s, visits[k - 1]);
      }
    }
  }

  /** Every file is idle, and every active watch is named by one. */
  ghost predicate CallsForNothing(before: seq<WatchConfig>, visits: seq<Visit>) {
    && (forall m :: 0 <= m < |visits| ==> Idle(before, visits[m]))
    && (forall i :: 0 <= i < |before| && before[i].isActive ==> Seen(visits, |visits|, before[i].filename))
  }

  /** Exactly when a reload signals nothing: of any directory, whatever runs, from the table and the files alone. */
  lemma {:induction false} SignalExactly(before: seq<WatchConfig>, visits: seq<Visit>)
    requires TableOk(before) && ListInBounds(before, visits)
    ensures !Reload(before, visits).notify <==> CallsForNothing(before, visits)
  {
    hide TableOk, WalkTo, Idle, Seen;
    var s := WalkTo(before, visits, |visits|);
    WalkSignal(before, visits, |visits|);
    if !s.notify {
      QuietWalk(before, visits, |visits|);
      WalkListsSeen(before, visits, |visits|);
      assert forall i :: 0 <= i < |before| ==> before[i].isActive == s.table[i].isActive;
    }
  }

  /** With distinct names the signal is exact: it is raised just when what the active watches do changed. */
  lemma {:induction false} SignalIsExact(before: seq<WatchConfig>, visits: seq<Visit>)
    requires TableOk(before) && DistinctNames(visits)
    ensures var after := Reload(before, visits);
            after.notify <==> EffectiveSet(after.table) != EffectiveSet(before)
  {
    var s := WalkTo(before, visits, |visits|);
    WalkIsTracked(before, visits, |visits|);
    KeptListFits(before, visits, |visits|);
    WalkSignalOk(before, visits, |visits|);
    if s.notify {
      ChangedAfterPurge(before, visits, s);
    } else if i :| 0 <= i < |s.table| && Stale(s.table[i], i, s.kept) {
      PurgedIsGone(before, visits, s, i);
    } else {
      SameEffect(before, Purge(s).table);
    }
  }

  lemma {:induction false} SameEffect(before: seq<WatchConfig>, after: seq<WatchConfig>)
    requires SameActive(before, after)
    ensures EffectiveSet(before) == EffectiveSet(after)
  {
  }
}
