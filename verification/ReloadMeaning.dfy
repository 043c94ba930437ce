/** What a reload means: a fold over the files of the directory, with no slots and no list in it. */
module ReloadMeaning {
  import opened Watches
  import opened Reconcile
  import opened ReloadTracking
  import opened ReloadSignal
  import opened ReloadOutcome

  // ---- a table as a map ----

  lemma {:induction false} NoEmptyName(table: seq<WatchConfig>)
    requires TableOk(table)
    ensures "" !in ActiveNames(table)
  {
  }

  lemma {:induction false} NamedIsActive(table: seq<WatchConfig>, name: string)
    ensures FindNamed(table, name, 0) >= 0 <==> name in ActiveNames(table)
  {
    if name in ActiveNames(table) {
      var i :| 0 <= i < |table| && table[i].isActive && table[i].filename == name;
      assert Named(table[i], name);
    }
  }

  /** The targets that are watched, and to what effect. */
  ghost function Effects(table: seq<WatchConfig>): (m: map<string, WatchConfig>)
    ensures m.Keys == ActiveNames(table)
  {
    map x | x in ActiveNames(table) :: EffectOf(table, x)
  }

  ghost function EffectOf(table: seq<WatchConfig>, name: string): WatchConfig
    requires name in ActiveNames(table)
  {
    NamedIsActive(table, name);
    Effective(table[FindNamed(table, name, 0)])
  }

  lemma {:induction false} EffectAt(table: seq<WatchConfig>, i: nat)
    requires TableOk(table) && i < |table| && table[i].isActive
    ensures table[i].filename in ActiveNames(table)
    ensures Effects(table)[table[i].filename] == Effective(table[i])
  {
    hide Effective;
    var name := table[i].filename;
    assert name in ActiveNames(table) && Named(table[i], name);
    NamedIsActive(table, name);
    NamedUnique(table, FindNamed(table, name, 0), i);
  }

  /** The map is all there is to what the active watches do. */
  lemma {:induction false} EffectsAreValues(table: seq<WatchConfig>)
    requires TableOk(table)
    ensures EffectiveSet(table) == Effects(table).Values
  {
    hide TableOk, Effective, Effects;
    var m := Effects(table);
    forall w | w in EffectiveSet(table) ensures w in m.Values {
      var i :| 0 <= i < |table| && table[i].isActive && Effective(table[i]) == w;
      EffectAt(table, i);
    }
    forall w | w in m.Values ensures w in EffectiveSet(table) {
      var x :| x in m && m[x] == w;
      var i :| 0 <= i < |table| && table[i].isActive && table[i].filename == x;
      EffectAt(table, i);
    }
  }

  lemma {:induction false} EffectsUnique(table: seq<WatchConfig>, m: map<string, WatchConfig>)
    requires TableOk(table) && m.Keys == ActiveNames(table)
    requires forall i :: 0 <= i < |table| && table[i].isActive && table[i].filename in m ==>
               m[table[i].filename] == Effective(table[i])
    ensures Effects(table) == m
  {
    hide TableOk, Effective, Effects;
    forall x | x in m ensures Effects(table)[x] == m[x] {
      var i :| 0 <= i < |table| && table[i].isActive && table[i].filename == x;
      EffectAt(table, i);
    }
    assert Effects(table).Keys == m.Keys;
  }

  ghost function OtherNames(table: seq<WatchConfig>, i: nat): set<string> {
    set j | 0 <= j < |table| && j != i && table[j].isActive :: table[j].filename
  }

  ghost function OwnName(w: WatchConfig): set<string> {
    if w.isActive then {w.filename} else {}
  }

  lemma {:induction false} NamesApart(table: seq<WatchConfig>, i: nat)
    requires i < |table|
    ensures ActiveNames(table) == OtherNames(table, i) + OwnName(table[i])
    ensures TableOk(table) ==> OtherNames(table, i) !! OwnName(table[i])
  {
  }

  lemma {:induction false} OtherNamesStay(table: seq<WatchConfig>, i: nat, w: WatchConfig)
    requires i < |table|
    ensures OtherNames(table[i := w], i) == OtherNames(table, i)
  {
    var after := table[i := w];
    assert forall j :: 0 <= j < |table| && j != i ==> after[j] == table[j];
  }

  lemma {:induction false} ReplacedName(table: seq<WatchConfig>, i: nat, w: WatchConfig)
    requires i < |table| && TableOk(table)
    ensures ActiveNames(table[i := w]) == (ActiveNames(table) - OwnName(table[i])) + OwnName(w)
  {
    hide ActiveNames, OtherNames, TableOk;
    NamesApart(table, i);
    NamesApart(table[i := w], i);
    OtherNamesStay(table, i, w);
  }

  ghost function OwnEffect(w: WatchConfig): map<string, WatchConfig> {
    if w.isActive then map[w.filename := Effective(w)] else map[]
  }

  lemma {:induction false} ReplacedEffect(table: seq<WatchConfig>, i: nat, w: WatchConfig)
    requires i < |table| && TableOk(table) && TableOk(table[i := w])
    ensures Effects(table[i := w]) == (Effects(table) - OwnName(table[i])) + OwnEffect(w)
  {
    hide TableOk, Effects, Effective, ActiveNames;
    var after := table[i := w];
    var m := (Effects(table) - OwnName(table[i])) + OwnEffect(w);
    ReplacedName(table, i, w);
    assert m.Keys == ActiveNames(after);
    forall j | 0 <= j < |after| && after[j].isActive && after[j].filename in m
      ensures m[after[j].filename] == Effective(after[j])
    {
      if j != i {
        EffectAt(table, j);
        OtherNamesDiffer(after, i, j);
        OtherNamesDiffer(table, i, j);
      }
    }
    EffectsUnique(after, m);
  }

  lemma {:induction false} OtherNamesDiffer(table: seq<WatchConfig>, i: nat, j: nat)
    requires TableOk(table) && i < |table| && j < |table| && i != j && table[j].isActive
    ensures table[i].isActive ==> table[i].filename != table[j].filename
  {
    if table[i].isActive && table[i].filename == table[j].filename {
      NamedUnique(table, i, j);
    }
  }

  // ---- one file ----

  /** What a file makes of the watches: an invalid one drops its target's, a valid one sets it if there is room. */
  ghost function Outcome(m: map<string, WatchConfig>, file: ParseResult, size: nat): map<string, WatchConfig> {
    if !Valid(file) then m - {NameOf(file)}
    else if CanServe(m.Keys, NameOf(file), size) then m[NameOf(file) := Effective(file.config)]
    else m
  }

  lemma {:induction false} SlotEffect(s: Walk, v: Visit)
    requires TableOk(s.table) && forall x :: x in v.spawnedIds ==> x == -1
    ensures var m, d := Effects(s.table), Judge(s.table, v);
            Effects(HandleFile(s, v).table) ==
            if d.Insert? || d.Update? then m[NameOf(v.file) := Effective(v.file.config)]
            else if d.Discard? then m - {NameOf(v.file)} else m
  {
    hide TableOk, Effects, Effective;
    HandleFileKeepsTableOk(s, v);
    var d := Judge(s.table, v);
    match d
    case Ignore =>
    case Hold(i) =>
    case Reject(i) => ReplacedEffect(s.table, i, CLEARED);
    case Discard(i) => ReplacedEffect(s.table, i, CLEARED);
    case Insert(i) => ServedEffect(s, v, i, v.file.config.(isActive := true));
    case Update(i) => ServedEffect(s, v, i, Merged(s.table[i], v.file.config));
  }

  lemma {:induction false} ServedEffect(s: Walk, v: Visit, i: nat, w: WatchConfig)
    requires TableOk(s.table) && TableOk(HandleFile(s, v).table) && forall x :: x in v.spawnedIds ==> x == -1
    requires i < |s.table| && Serves(Judge(s.table, v)) && Judge(s.table, v).slot == i
    requires HandleFile(s, v).table == s.table[i := w] && w.isActive && w.filename == NameOf(v.file)
    requires s.table[i].isActive ==> s.table[i].filename == NameOf(v.file)
    ensures Effects(s.table[i := w]) == Effects(s.table)[NameOf(v.file) := Effective(v.file.config)]
  {
    hide TableOk, Effects, Effective, HandleFile, Judge, Valid;
    ReplacedEffect(s.table, i, w);
    TouchedIsValid(s, v, i);
  }

  /** An invalid file only matters to a watch on its own target. */
  lemma {:induction false} InvalidJudged(table: seq<WatchConfig>, v: Visit)
    requires TableOk(table) && !Valid(v.file) && forall x :: x in v.spawnedIds ==> x == -1
    ensures var d := Judge(table, v);
            (d.Ignore? || d.Reject? || d.Discard?) && (d.Discard? <==> NameOf(v.file) in ActiveNames(table))
  {
    hide ActiveNames;
    NoEmptyName(table);
    NamedIsActive(table, NameOf(v.file));
  }

  lemma {:induction false} ValidJudged(table: seq<WatchConfig>, v: Visit)
    requires Valid(v.file) && forall x :: x in v.spawnedIds ==> x == -1
    ensures !Judge(table, v).Discard? && !Judge(table, v).Hold?
  {
  }

  lemma {:induction false} FileOutcome(s: Walk, v: Visit)
    requires TableOk(s.table) && forall x :: x in v.spawnedIds ==> x == -1
    ensures Effects(HandleFile(s, v).table) == Outcome(Effects(s.table), v.file, |s.table|)
  {
    hide TableOk, ActiveNames, CanServe, Valid, Judge, HandleFile, Effects, Effective;
    SlotEffect(s, v);
    if Valid(v.file) {
      ServedExactly(s.table, v);
      ValidJudged(s.table, v);
    } else {
      InvalidJudged(s.table, v);
    }
  }

  /** With nothing running, the list grows by the valid files there is room for, and by no other. */
  lemma {:induction false} FileListed(s: Walk, v: Visit)
    requires TableOk(s.table) && forall x :: x in v.spawnedIds ==> x == -1
    ensures |HandleFile(s, v).kept| ==
            |s.kept| + if Valid(v.file) && CanServe(ActiveNames(s.table), NameOf(v.file), |s.table|) then 1 else 0
  {
    hide TableOk, ActiveNames, CanServe, Valid, Judge;
    if Valid(v.file) {
      ServedExactly(s.table, v);
    } else {
      OnlyValidListed(s.table, v);
    }
  }

  // ---- a whole walk ----

  /** What the first k files make of the watches there were. */
  ghost function Foreseen(before: seq<WatchConfig>, visits: seq<Visit>, k: nat): map<string, WatchConfig>
    requires k <= |visits|
  {
    if k == 0 then Effects(before) else Outcome(Foreseen(before, visits, k - 1), visits[k - 1].file, |before|)
  }

  /** File k is valid and, from what the files before it make of the watches, will find its watch or room. */
  ghost predicate Welcome(before: seq<WatchConfig>, visits: seq<Visit>, k: nat)
    requires k < |visits|
  {
    Valid(visits[k].file) && CanServe(Foreseen(before, visits, k).Keys, NameOf(visits[k].file), |before|)
  }

  /** How many of the first k files are. */
  ghost function WelcomeCount(before: seq<WatchConfig>, visits: seq<Visit>, k: nat): nat
    requires k <= |visits|
  {
    if k == 0 then 0 else WelcomeCount(before, visits, k - 1) + if Welcome(before, visits, k - 1) then 1 else 0
  }

  lemma {:induction false} WalkIsForeseen(before: seq<WatchConfig>, visits: seq<Visit>, k: nat)
    requires k <= |visits| && TableOk(before) && NothingRuns(visits)
    ensures Effects(WalkTo(before, visits, k).table) == Foreseen(before, visits, k)
    ensures |WalkTo(before, visits, k).kept| == WelcomeCount(before, visits, k)
  {
    hide TableOk, HandleFile, Effects, Outcome, CanServe, Valid;
    if k == 0 {
    } else {
      var s := WalkTo(before, visits, k - 1);
      WalkIsForeseen(before, visits, k - 1);
      WalkKeepsTableOk(before, visits, k - 1);
      FileOutcome(s, visits[k - 1]);
      FileListed(s, visits[k - 1]);
    }
  }

  /**
   * When new_watch_list is written past its end, from any good table and of any directory with nothing running:
   * it stays within its array if and only if no more files than there are slots find their watch or room.
   */
  lemma {:induction false} ListFitsExactly(before: seq<WatchConfig>, visits: seq<Visit>)
    requires TableOk(before) && NothingRuns(visits)
    ensures ListInBounds(before, visits) <==> WelcomeCount(before, visits, |visits|) <= |before|
  {
    hide TableOk, NothingRuns, WalkTo, WelcomeCount;
    WalkIsForeseen(before, visits, |visits|);
  }

  /** What is left of a map once the purge is through: the targets some file names. */
  ghost function Met(m: map<string, WatchConfig>, visits: seq<Visit>): map<string, WatchConfig> {
    map x | x in m && Seen(visits, |visits|, x) :: m[x]
  }

  lemma {:induction false} PurgedNames(before: seq<WatchConfig>, visits: seq<Visit>)
    requires TableOk(before) && ListInBounds(before, visits)
    ensures var walked := Effects(WalkTo(before, visits, |visits|).table);
            ActiveNames(Reload(before, visits).table) == Met(walked, visits).Keys
  {
    hide TableOk, WalkTo, Seen, ListInBounds, Effects, Reload;
    var table, after := WalkTo(before, visits, |visits|).table, Reload(before, visits).table;
    ReloadSize(before, visits);
    forall i | 0 <= i < |before|
      ensures after[i] ==
              if table[i].isActive && !Seen(visits, |visits|, table[i].filename) then CLEARED else table[i]
    {
      SurvivesIfSeen(before, visits, i);
    }
    forall x | x in ActiveNames(table) && Seen(visits, |visits|, x) ensures x in ActiveNames(after) {
      var i :| 0 <= i < |table| && table[i].isActive && table[i].filename == x;
      assert after[i] == table[i];
    }
  }

  lemma {:induction false} ReloadSize(before: seq<WatchConfig>, visits: seq<Visit>)
    ensures |Reload(before, visits).table| == |before|
  {
  }

  lemma {:induction false} PurgedEffects(before: seq<WatchConfig>, visits: seq<Visit>)
    requires TableOk(before) && ListInBounds(before, visits)
    ensures Effects(Reload(before, visits).table) == Met(Effects(WalkTo(before, visits, |visits|).table), visits)
  {
    hide TableOk, WalkTo, Seen, ListInBounds, Effects, Effective, Reload, ActiveNames;
    var table, after := WalkTo(before, visits, |visits|).table, Reload(before, visits).table;
    PurgedNames(before, visits);
    ReloadSize(before, visits);
    WalkKeepsTableOk(before, visits, |visits|);
    ReloadKeepsTableOk(before, visits);
    forall i | 0 <= i < |after| && after[i].isActive ensures
        after[i].filename in Effects(table) && Effects(table)[after[i].filename] == Effective(after[i]) {
      SurvivesIfSeen(before, visits, i);
      EffectAt(table, i);
    }
    EffectsUnique(after, Met(Effects(table), visits));
  }

  /**
   * A reload of any directory, repeated names included, with nothing running and the list within its array:
   * the watches afterwards, target by target, are what the files one after the other make of those before, as
   * far as some file names their target.
   */
  lemma {:induction false} ReloadRefines(before: seq<WatchConfig>, visits: seq<Visit>)
    requires TableOk(before) && NothingRuns(visits) && ListInBounds(before, visits)
    ensures var outcome := Met(Foreseen(before, visits, |visits|), visits);
            && Effects(Reload(before, visits).table) == outcome
            && EffectiveSet(Reload(before, visits).table) == outcome.Values
  {
    hide TableOk, NothingRuns, ListInBounds, Effects, Met, WalkTo, Reload, Foreseen, EffectiveSet;
    PurgedEffects(before, visits);
    WalkIsForeseen(before, visits, |visits|);
    ReloadKeepsTableOk(before, visits);
    EffectsAreValues(Reload(before, visits).table);
  }

  // ---- the signal ----

  /** The signal is raised for a change if and only if the files call for nothing, or their outcome is another. */
  lemma {:induction false} RaisedForChangeExactly(before: seq<WatchConfig>, visits: seq<Visit>)
    requires TableOk(before) && NothingRuns(visits) && ListInBounds(before, visits)
    ensures (Reload(before, visits).notify ==> EffectiveSet(Reload(before, visits).table) != EffectiveSet(before)) <==>
            CallsForNothing(before, visits) ||
            Met(Foreseen(before, visits, |visits|), visits).Values != EffectiveSet(before)
  {
    hide TableOk, NothingRuns, ListInBounds, Met, Reload, Foreseen, EffectiveSet, CallsForNothing;
    SignalExactly(before, visits);
    ReloadRefines(before, visits);
  }
}
