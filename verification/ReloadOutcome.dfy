/** Where reloads lead: running watches stay put, and the table converges to the valid configs. */
module ReloadOutcome {
  import opened Pigeonhole
  import opened Watches
  import opened Reconcile
  import opened ReloadTracking

  // ---- running watches ----

  lemma {:induction false} RunningSlotKept(before: seq<WatchConfig>, visits: seq<Visit>, k: nat, i: nat)
    requires k <= |visits| && i < |before| && before[i].isActive
    requires forall m :: 0 <= m < |visits| ==> i in visits[m].spawnedIds
    ensures WalkTo(before, visits, k).table[i] == before[i]
  {
    if k == 0 {
    } else {
      hide HandleFile;
      RunningSlotKept(before, visits, k - 1, i);
      FileSparesRunning(WalkTo(before, visits, k - 1), visits[k - 1], i);
    }
  }

  /** A file leaves a running watch alone. */
  lemma {:induction false} FileSparesRunning(s: Walk, v: Visit, i: nat)
    requires i < |s.table| && s.table[i].isActive && i in v.spawnedIds
    ensures HandleFile(s, v).table[i] == s.table[i]
  {
  }

  lemma {:induction false} OthersUntouched(s: Walk, v: Visit, i: int)
    requires 0 <= i < |s.table|
    requires var d := Judge(s.table, v); d.Ignore? || d.slot != i
    ensures HandleFile(s, v).table[i] == s.table[i] && (i in HandleFile(s, v).kept <==> i in s.kept)
  {
  }

  /** A watch that runs throughout a reload keeps its slot in every field if and only if some file names it. */
  lemma {:induction false} RunningWatchUnchanged(before: seq<WatchConfig>, visits: seq<Visit>, i: nat)
    requires TableOk(before) && ListInBounds(before, visits)
    requires i < |before| && before[i].isActive
    requires forall m :: 0 <= m < |visits| ==> i in visits[m].spawnedIds
    ensures Reload(before, visits).table[i] ==
            if Seen(visits, |visits|, before[i].filename) then before[i] else CLEARED
  {
    hide TableOk, WalkTo, Reload, Seen, ListInBounds;
    RunningSlotKept(before, visits, |visits|, i);
    SurvivesIfSeen(before, visits, i);
  }

  // ---- soundness ----

  ghost predicate Valid(file: ParseResult) {
    file.Parsed? && Complete(file.config)
  }

  ghost predicate NothingRuns(visits: seq<Visit>) {
    forall m, x :: 0 <= m < |visits| && x in visits[m].spawnedIds ==> x == -1
  }

  /** One of the first k files is valid and does exactly what w does. */
  ghost predicate Backed(visits: seq<Visit>, k: nat, w: WatchConfig)
    requires k <= |visits|
  {
    exists m :: 0 <= m < k && Valid(visits[m].file) && Effective(visits[m].file.config) == Effective(w)
  }

  ghost predicate KeptBacked(s: Walk, visits: seq<Visit>, k: nat)
    requires k <= |visits|
  {
    forall i :: 0 <= i < |s.table| && i in s.kept && s.table[i].isActive ==> Backed(visits, k, s.table[i])
  }

  lemma {:induction false} BackedStep(visits: seq<Visit>, k: nat, w: WatchConfig)
    requires k < |visits| && Backed(visits, k, w)
    ensures Backed(visits, k + 1, w)
  {
  }

  /** With nothing running, what a file leaves in an active slot it touched is what the file says. */
  lemma {:induction false} TouchedIsValid(s: Walk, v: Visit, i: int)
    requires 0 <= i < |s.table| && forall x :: x in v.spawnedIds ==> x == -1
    requires var d := Judge(s.table, v); !d.Ignore? && d.slot == i
    requires HandleFile(s, v).table[i].isActive
    ensures Valid(v.file) && Effective(HandleFile(s, v).table[i]) == Effective(v.file.config)
  {
  }

  lemma {:induction false} KeptBackedStep(visits: seq<Visit>, k: nat, s: Walk)
    requires k < |visits| && NothingRuns(visits) && KeptBacked(s, visits, k)
    ensures KeptBacked(HandleFile(s, visits[k]), visits, k + 1)
  {
    hide HandleFile, Judge, Valid, Effective;
    var s' := HandleFile(s, visits[k]);
    var d := Judge(s.table, visits[k]);
    forall i | 0 <= i < |s'.table| && i in s'.kept && s'.table[i].isActive
      ensures Backed(visits, k + 1, s'.table[i])
    {
      if !d.Ignore? && d.slot == i {
        TouchedIsValid(s, visits[k], i);
      } else {
        OthersUntouched(s, visits[k], i);
        BackedStep(visits, k, s.table[i]);
      }
    }
  }

  lemma {:induction false} NothingKept(before: seq<WatchConfig>, visits: seq<Visit>)
    ensures KeptBacked(Walk(before, [], false), visits, 0)
  {
  }

  lemma {:induction false} WalkKeptBacked(before: seq<WatchConfig>, visits: seq<Visit>, k: nat)
    requires k <= |visits| && NothingRuns(visits)
    ensures KeptBacked(WalkTo(before, visits, k), visits, k)
  {
    hide HandleFile, KeptBacked, NothingRuns;
    if k == 0 {
      NothingKept(before, visits);
    } else {
      WalkKeptBacked(before, visits, k - 1);
      KeptBackedStep(visits, k - 1, WalkTo(before, visits, k - 1));
    }
  }

  /** The specification a reload is meant to reach: the effective configs of all valid files. */
  ghost function ValidSet(visits: seq<Visit>): set<WatchConfig> {
    set m | 0 <= m < |visits| && Valid(visits[m].file) :: Effective(visits[m].file.config)
  }

  /** One reload is sound, of any table and any directory: every active watch does what some valid file says. */
  lemma {:induction false} OneReloadIsSound(before: seq<WatchConfig>, visits: seq<Visit>)
    requires NothingRuns(visits)
    ensures EffectiveSet(Reload(before, visits).table) <= ValidSet(visits)
  {
    hide HandleFile, Valid, Effective, NothingRuns;
    var after := Reload(before, visits).table;
    WalkKeptBacked(before, visits, |visits|);
    forall i | 0 <= i < |after| && after[i].isActive ensures Effective(after[i]) in ValidSet(visits) {
      assert Backed(visits, |visits|, after[i]);
    }
  }

  ghost function ValidNames(visits: seq<Visit>): set<string> {
    set m | 0 <= m < |visits| && Valid(visits[m].file) :: NameOf(visits[m].file)
  }

  /** Valid files on different targets differ in basename, which IPC needs to tell watches apart. */
  ghost predicate DistinctBasenames(visits: seq<Visit>) {
    forall m, n :: 0 <= m < |visits| && 0 <= n < |visits| && Valid(visits[m].file) && Valid(visits[n].file) &&
                   NameOf(visits[m].file) != NameOf(visits[n].file) ==>
                     Basename(NameOf(visits[m].file)) != Basename(NameOf(visits[n].file))
  }

  /** A table of this size can hold a watch for every target of a valid file. */
  ghost predicate Holdable(visits: seq<Visit>, size: nat) {
    DistinctBasenames(visits) && |ValidNames(visits)| <= size
  }

  ghost predicate ActiveNamesValid(table: seq<WatchConfig>, visits: seq<Visit>) {
    forall i :: 0 <= i < |table| && table[i].isActive ==> table[i].filename in ValidNames(visits)
  }

  // ---- the files a table can serve ----

  ghost function ActiveNames(table: seq<WatchConfig>): set<string> {
    set i | 0 <= i < |table| && table[i].isActive :: table[i].filename
  }

  /** Among watches on these targets, one on this target can be kept or set up. */
  ghost predicate CanServe(names: set<string>, name: string, size: nat) {
    name in names || (|names| < size && forall x :: x in names ==> Basename(x) != Basename(name))
  }

  lemma {:induction false} NamesAtMost(table: seq<WatchConfig>)
    ensures |ActiveNames(table)| <= |table|
  {
    var names: seq<string> := seq(|table|, i requires 0 <= i < |table| => table[i].filename);
    forall i | 0 <= i < |table| ensures table[i].filename in Elements(names) {
      assert names[i] in names;
    }
    SubsetSize(ActiveNames(table), Elements(names));
    ElementsFit(names);
  }

  lemma {:induction false} NamesOfFull(table: seq<WatchConfig>)
    requires TableOk(table) && forall i :: 0 <= i < |table| ==> table[i].isActive
    ensures |ActiveNames(table)| == |table|
  {
    var names: seq<string> := seq(|table|, i requires 0 <= i < |table| => table[i].filename);
    forall a, b | 0 <= a < b < |names| ensures names[a] != names[b] {
      assert Basename(table[a].filename) != Basename(table[b].filename);
    }
    forall x | x in Elements(names) ensures x in ActiveNames(table) {
      var i :| 0 <= i < |names| && names[i] == x;
      assert table[i].isActive;
    }
    DistinctElements(names);
    SubsetSize(Elements(names), ActiveNames(table));
    NamesAtMost(table);
  }

  lemma {:induction false} NamesOfOthers(table: seq<WatchConfig>, free: nat)
    requires free < |table| && !table[free].isActive
    ensures |ActiveNames(table)| < |table|
  {
    var others := table[..free] + table[free + 1..];
    forall i | 0 <= i < |table| && table[i].isActive ensures table[i].filename in ActiveNames(others) {
      assert others[if i < free then i else i - 1] == table[i];
    }
    SubsetSize(ActiveNames(table), ActiveNames(others));
    NamesAtMost(others);
  }

  lemma {:induction false} RoomExactly(table: seq<WatchConfig>)
    requires TableOk(table)
    ensures FindInactive(table, 0) >= 0 <==> |ActiveNames(table)| < |table|
  {
    hide ActiveNames, TableOk;
    if FindInactive(table, 0) >= 0 {
      NamesOfOthers(table, FindInactive(table, 0));
    } else {
      NamesOfFull(table);
    }
  }

  lemma {:induction false} ClashExactly(table: seq<WatchConfig>, name: string)
    requires name !in ActiveNames(table)
    ensures Clashes(table, name, -1) <==> exists x :: x in ActiveNames(table) && Basename(x) == Basename(name)
  {
    if i :| 0 <= i < |table| && Clash(table[i], name) {
      assert table[i].filename in ActiveNames(table);
    }
    if x :| x in ActiveNames(table) && Basename(x) == Basename(name) {
      var i :| 0 <= i < |table| && table[i].isActive && table[i].filename == x;
      assert Clash(table[i], name);
    }
  }

  predicate Serves(d: Verdict) {
    d.Insert? || d.Hold? || d.Update?
  }

  /** A valid file is served exactly when the names of the active watches leave room for it. */
  lemma {:induction false} ServedExactly(table: seq<WatchConfig>, v: Visit)
    requires TableOk(table) && Valid(v.file)
    ensures Serves(Judge(table, v)) <==> CanServe(ActiveNames(table), NameOf(v.file), |table|)
  {
    hide TableOk, Complete, Clashes;
    var name := NameOf(v.file);
    var matched := FindNamed(table, name, 0);
    if matched < 0 {
      assert forall i :: 0 <= i < |table| ==> !Named(table[i], name);
      RoomExactly(table);
      ClashExactly(table, name);
    }
  }

  /** From a table without strangers, every valid file is, under conditions on the valid files alone. */
  lemma {:induction false} ValidIsServed(table: seq<WatchConfig>, visits: seq<Visit>, k: nat)
    requires k < |visits| && Valid(visits[k].file)
    requires TableOk(table) && ActiveNamesValid(table, visits) && Holdable(visits, |table|)
    ensures Serves(Judge(table, visits[k]))
  {
    hide TableOk, Judge, DistinctBasenames, Valid;
    var names, name := ActiveNames(table), NameOf(visits[k].file);
    forall x | x in names ensures x in ValidNames(visits) {
      var i :| 0 <= i < |table| && table[i].isActive && table[i].filename == x;
    }
    RoomAmongValid(names, visits, k, |table|);
    ServedExactly(table, visits[k]);
  }

  lemma {:induction false} RoomAmongValid(names: set<string>, visits: seq<Visit>, k: nat, size: nat)
    requires names <= ValidNames(visits) && Holdable(visits, size) && k < |visits| && Valid(visits[k].file)
    ensures CanServe(names, NameOf(visits[k].file), size)
  {
    var name := NameOf(visits[k].file);
    assert name in ValidNames(visits);
    if name !in names {
      SubsetSize(names, ValidNames(visits) - {name});
      forall x | x in names ensures Basename(x) != Basename(name) {
        var m :| 0 <= m < |visits| && Valid(visits[m].file) && NameOf(visits[m].file) == x;
      }
    }
  }

  // ---- new_watch_list ----

  /** How many of the first k files are valid. */
  ghost function ValidCount(visits: seq<Visit>, k: nat): nat
    requires k <= |visits|
  {
    if k == 0 then 0 else ValidCount(visits, k - 1) + if Valid(visits[k - 1].file) then 1 else 0
  }

  /** With nothing running, only a valid file lists a slot, and only one. */
  lemma {:induction false} InvalidListsNothing(s: Walk, v: Visit)
    requires forall x :: x in v.spawnedIds ==> x == -1
    ensures |HandleFile(s, v).kept| <= |s.kept| + if Valid(v.file) then 1 else 0
  {
  }

  /** The list has no more entries than there are valid files so far, whatever the table. */
  lemma {:induction false} ListBoundedByValid(before: seq<WatchConfig>, visits: seq<Visit>, k: nat)
    requires k <= |visits| && NothingRuns(visits)
    ensures |WalkTo(before, visits, k).kept| <= ValidCount(visits, k)
  {
    if k == 0 {
    } else {
      hide HandleFile, Valid;
      ListBoundedByValid(before, visits, k - 1);
      InvalidListsNothing(WalkTo(before, visits, k - 1), visits[k - 1]);
    }
  }

  lemma {:induction false} OnlyValidListed(table: seq<WatchConfig>, v: Visit)
    requires !Valid(v.file) && forall x :: x in v.spawnedIds ==> x == -1
    ensures var d := Judge(table, v); d.Ignore? || d.Reject? || d.Discard?
  {
  }
}
