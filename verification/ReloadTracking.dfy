/** What a whole reload does: which watches stay, what changes, and what it signals. */
module ReloadTracking {
  import opened Pigeonhole
  import opened Watches
  import opened Reconcile

  /** The filename a file asks to watch; "" when it does not parse or names nothing. */
  function NameOf(file: ParseResult): string {
    if file.Parsed? then file.config.filename else ""
  }

  /** No two files of the walk name the same target. */
  ghost predicate DistinctNames(visits: seq<Visit>) {
    forall m, n :: 0 <= m < n < |visits| && NameOf(visits[m].file) != "" ==>
                     NameOf(visits[m].file) != NameOf(visits[n].file)
  }

  /** How many of the first k files name a target. */
  function NamedCount(visits: seq<Visit>, k: nat): nat
    requires k <= |visits|
  {
    if k == 0 then 0 else NamedCount(visits, k - 1) + if NameOf(visits[k - 1].file) != "" then 1 else 0
  }

  /** The walk never writes past the end of new_watch_list: beyond that the C code has no meaning. */
  ghost predicate ListInBounds(before: seq<WatchConfig>, visits: seq<Visit>) {
    |WalkTo(before, visits, |visits|).kept| <= |before|
  }

  /** What a caller can read off a directory: no target twice, or no more files naming one than slots. */
  ghost predicate ListFits(visits: seq<Visit>, size: nat) {
    DistinctNames(visits) || NamedCount(visits, |visits|) <= size
  }

  /** One of the first k files names this target. */
  ghost predicate Seen(visits: seq<Visit>, k: nat, filename: string)
    requires k <= |visits|
  {
    exists m :: 0 <= m < k && NameOf(visits[m].file) == filename
  }

  /** The walk is one over these files; what runs meanwhile is left open. */
  ghost predicate Visits(visits: seq<Visit>, files: seq<ParseResult>) {
    |visits| == |files| && forall m :: 0 <= m < |files| ==> visits[m].file == files[m]
  }

  /** A walk over these files that has yet to begin. */
  function Pending(files: seq<ParseResult>): (visits: seq<Visit>)
    ensures Visits(visits, files)
  {
    seq(|files|, m requires 0 <= m < |files| => Visit(files[m], []))
  }

  /** One of these files names this target. */
  ghost predicate NamedBy(files: seq<ParseResult>, filename: string) {
    Seen(Pending(files), |files|, filename)
  }

  /** new_watch_list holds different slots of active watches, each named by a file already handled. */
  ghost predicate KeptOk(s: Walk, visits: seq<Visit>, k: nat)
    requires k <= |visits|
  {
    && (forall a :: 0 <= a < |s.kept| ==>
          0 <= s.kept[a] < |s.table| && s.table[s.kept[a]].isActive &&
          Seen(visits, k, s.table[s.kept[a]].filename))
    && (forall a, b :: 0 <= a < b < |s.kept| ==> s.kept[a] != s.kept[b])
  }

  /** A slot not on the list is exactly as it was, and no file so far named its target. */
  ghost predicate RestUntouched(before: seq<WatchConfig>, s: Walk, visits: seq<Visit>, k: nat)
    requires k <= |visits| && |before| == |s.table|
  {
    && (forall i :: 0 <= i < |before| && s.table[i].isActive && i !in s.kept ==>
          s.table[i] == before[i] && !Seen(visits, k, before[i].filename))
    && (forall i :: 0 <= i < |before| && before[i].isActive && !Seen(visits, k, before[i].filename) ==>
          s.table[i] == before[i])
  }

  ghost predicate Tracked(before: seq<WatchConfig>, visits: seq<Visit>, k: nat, s: Walk) {
    && k <= |visits| && |s.table| == |before|
    && TableOk(s.table)
    && KeptOk(s, visits, k)
    && RestUntouched(before, s, visits, k)
  }

  lemma {:induction false} SeenStep(visits: seq<Visit>, k: nat, filename: string)
    requires 0 < k <= |visits|
    ensures Seen(visits, k, filename) <==>
            Seen(visits, k - 1, filename) || NameOf(visits[k - 1].file) == filename
  {
  }

  /** A name met now was not met before. */
  lemma {:induction false} NameIsNew(visits: seq<Visit>, k: nat)
    requires k < |visits| && DistinctNames(visits) && NameOf(visits[k].file) != ""
    ensures !Seen(visits, k, NameOf(visits[k].file))
  {
  }

  /** The file put slot i on the list, active under its own name. */
  ghost predicate Grew(s: Walk, s': Walk, i: int, name: string) {
    && 0 <= i < |s.table| == |s'.table| && s'.kept == s.kept + [i]
    && s'.table == s.table[i := s'.table[i]]
    && s'.table[i].isActive && s'.table[i].filename == name && name != ""
    && (s.table[i].isActive ==> s.table[i].filename == name)
  }

  /** The file cleared slot i: a free one, or the one under its own name. */
  ghost predicate Shrank(s: Walk, s': Walk, i: int, name: string) {
    && 0 <= i < |s.table| == |s'.table| && s'.kept == s.kept
    && s'.table == s.table[i := CLEARED]
    && (s.table[i].isActive ==> s.table[i].filename == name)
  }

  ghost predicate OthersNamedDifferently(table: seq<WatchConfig>, i: int, name: string) {
    forall j :: 0 <= j < |table| && j != i && table[j].isActive ==> table[j].filename != name
  }

  lemma {:induction false} OthersDiffer(table: seq<WatchConfig>, v: Visit)
    requires TableOk(table)
    ensures var d := Judge(table, v);
            OthersNamedDifferently(table, if d.Ignore? then -1 else d.slot, NameOf(v.file))
  {
  }

  /** Whatever the file says, it touches one slot at most: slot i, or none when i is -1. */
  lemma {:induction false} FileEffect(s: Walk, v: Visit) returns (i: int)
    requires TableOk(s.table)
    ensures var s' := HandleFile(s, v);
            if i == -1 then s' == s else Grew(s, s', i, NameOf(v.file)) || Shrank(s, s', i, NameOf(v.file))
    ensures OthersNamedDifferently(s.table, i, NameOf(v.file))
  {
    var d := Judge(s.table, v);
    i := if d.Ignore? then -1 else d.slot;
    OthersDiffer(s.table, v);
    if !d.Ignore? {
      assert s.table[i := s.table[i]] == s.table;
    }
  }

  /** A slot the file handles is not on the list yet. */
  lemma {:induction false} HandledSlotIsNew(before: seq<WatchConfig>, visits: seq<Visit>, k: nat, s: Walk, i: int)
    requires k < |visits| && Tracked(before, visits, k, s) && DistinctNames(visits)
    requires 0 <= i < |s.table| && (s.table[i].isActive ==> s.table[i].filename == NameOf(visits[k].file))
    ensures i !in s.kept
    ensures s.table[i].isActive ==> s.table[i] == before[i]
  {
  }

  lemma {:induction false} KeptStep(visits: seq<Visit>, k: nat, s: Walk, s': Walk, i: int)
    requires k < |visits| && KeptOk(s, visits, k) && i !in s.kept
    requires var name := NameOf(visits[k].file); s' == s || Grew(s, s', i, name) || Shrank(s, s', i, name)
    ensures KeptOk(s', visits, k + 1)
  {
  }

  /** The first half of RestUntouched, one file later. */
  lemma {:induction false} UnlistedStep(before: seq<WatchConfig>, visits: seq<Visit>, k: nat, s: Walk, s': Walk, i: int)
    requires k < |visits| && |before| == |s.table| && RestUntouched(before, s, visits, k)
    requires var name := NameOf(visits[k].file); Grew(s, s', i, name) || Shrank(s, s', i, name)
    requires OthersNamedDifferently(s.table, i, NameOf(visits[k].file))
    ensures forall j :: 0 <= j < |before| && s'.table[j].isActive && j !in s'.kept ==>
                          s'.table[j] == before[j] && !Seen(visits, k + 1, before[j].filename)
  {
  }

  /** The second half of RestUntouched, one file later. */
  lemma {:induction false} UnseenStep(before: seq<WatchConfig>, visits: seq<Visit>, k: nat, s: Walk, s': Walk, i: int)
    requires k < |visits| && |before| == |s.table| && RestUntouched(before, s, visits, k)
    requires var name := NameOf(visits[k].file); Grew(s, s', i, name) || Shrank(s, s', i, name)
    ensures forall j :: 0 <= j < |before| && before[j].isActive && !Seen(visits, k + 1, before[j].filename) ==>
                          s'.table[j] == before[j]
  {
  }

  /** A file that changes nothing named no active watch, so the unlisted ones stay unseen. */
  lemma {:induction false} IgnoredStep(before: seq<WatchConfig>, visits: seq<Visit>, k: nat, s: Walk)
    requires k < |visits| && Tracked(before, visits, k, s)
    requires OthersNamedDifferently(s.table, -1, NameOf(visits[k].file))
    ensures RestUntouched(before, s, visits, k + 1)
  {
  }

  lemma {:induction false} StepIsTracked(before: seq<WatchConfig>, visits: seq<Visit>, k: nat, s: Walk)
    requires k < |visits| && Tracked(before, visits, k, s) && DistinctNames(visits)
    ensures Tracked(before, visits, k + 1, HandleFile(s, visits[k]))
  {
    HandleFileKeepsTableOk(s, visits[k]);
    var s' := HandleFile(s, visits[k]);
    var i := FileEffect(s, visits[k]);
    if i == -1 {
      KeptStep(visits, k, s, s', -1);
      IgnoredStep(before, visits, k, s);
    } else {
      HandledSlotIsNew(before, visits, k, s, i);
      KeptStep(visits, k, s, s', i);
      UnlistedStep(before, visits, k, s, s', i);
      UnseenStep(before, visits, k, s, s', i);
    }
  }

  lemma {:induction false} StartIsTracked(before: seq<WatchConfig>, visits: seq<Visit>)
    requires TableOk(before)
    ensures Tracked(before, visits, 0, Walk(before, [], false))
  {
  }

  lemma {:induction false} WalkIsTracked(before: seq<WatchConfig>, visits: seq<Visit>, k: nat)
    requires k <= |visits| && TableOk(before) && DistinctNames(visits)
    ensures Tracked(before, visits, k, WalkTo(before, visits, k))
  {
    hide Tracked, HandleFile, TableOk, DistinctNames;
    if k == 0 {
      StartIsTracked(before, visits);
    } else {
      WalkIsTracked(before, visits, k - 1);
      StepIsTracked(before, visits, k - 1, WalkTo(before, visits, k - 1));
    }
  }

  // ---- what is listed ----

  /** Of the active slots, just those are listed whose name was met. */
  ghost predicate ListedIfSeen(s: Walk, visits: seq<Visit>, k: nat)
    requires k <= |visits|
  {
    forall i :: 0 <= i < |s.table| && s.table[i].isActive ==> (i in s.kept <==> Seen(visits, k, s.table[i].filename))
  }

  lemma {:induction false} ListedIfSeenStep(s: Walk, visits: seq<Visit>, k: nat)
    requires k < |visits| && TableOk(s.table) && ListedIfSeen(s, visits, k)
    ensures ListedIfSeen(HandleFile(s, visits[k]), visits, k + 1)
  {
    hide HandleFile, TableOk, Seen;
    var s' := HandleFile(s, visits[k]);
    var i := FileEffect(s, visits[k]);
    forall j | 0 <= j < |s'.table| && s'.table[j].isActive
      ensures j in s'.kept <==> Seen(visits, k + 1, s'.table[j].filename)
    {
      SeenStep(visits, k + 1, s'.table[j].filename);
      assert j != i ==> s'.table[j] == s.table[j];
    }
  }

  lemma {:induction false} NothingSeen(before: seq<WatchConfig>, visits: seq<Visit>)
    ensures ListedIfSeen(Walk(before, [], false), visits, 0)
  {
  }

  lemma {:induction false} WalkListsSeen(before: seq<WatchConfig>, visits: seq<Visit>, k: nat)
    requires k <= |visits| && TableOk(before)
    ensures ListedIfSeen(WalkTo(before, visits, k), visits, k)
  {
    hide HandleFile, TableOk, ListedIfSeen;
    if k == 0 {
      NothingSeen(before, visits);
    } else {
      WalkListsSeen(before, visits, k - 1);
      WalkKeepsTableOk(before, visits, k - 1);
      ListedIfSeenStep(WalkTo(before, visits, k - 1), visits, k - 1);
    }
  }

  /** Of any directory, the purge clears just the active watches whose names were not met. */
  lemma {:induction false} SurvivesIfSeen(before: seq<WatchConfig>, visits: seq<Visit>, i: nat)
    requires TableOk(before) && ListInBounds(before, visits) && i < |before|
    ensures var w := WalkTo(before, visits, |visits|).table[i];
            Reload(before, visits).table[i] == if w.isActive && !Seen(visits, |visits|, w.filename) then CLEARED else w
  {
    hide TableOk, WalkTo, Seen;
    WalkListsSeen(before, visits, |visits|);
  }

  // ---- new_watch_list ----

  /** A file that names no target lists no slot, any other one slot at most. */
  lemma {:induction false} FileLists(s: Walk, v: Visit)
    requires TableOk(s.table)
    ensures |HandleFile(s, v).kept| <= |s.kept| + if NameOf(v.file) != "" then 1 else 0
  {
    hide HandleFile, TableOk;
    var i := FileEffect(s, v);
  }

  /** The list never gets shorter, so what holds of its length at the end of the walk holds all along. */
  lemma {:induction false} ListOnlyGrows(before: seq<WatchConfig>, visits: seq<Visit>, k: nat)
    requires k <= |visits|
    ensures |WalkTo(before, visits, k).kept| <= |WalkTo(before, visits, |visits|).kept|
    decreases |visits| - k
  {
    if k == |visits| {
    } else {
      ListOnlyGrows(before, visits, k + 1);
    }
  }

  lemma {:induction false} KeptIsBounded(before: seq<WatchConfig>, visits: seq<Visit>, k: nat)
    requires k <= |visits| && TableOk(before)
    ensures |WalkTo(before, visits, k).kept| <= NamedCount(visits, k)
  {
    hide TableOk, HandleFile;
    if k == 0 {
    } else {
      KeptIsBounded(before, visits, k - 1);
      WalkKeepsTableOk(before, visits, k - 1);
      FileLists(WalkTo(before, visits, k - 1), visits[k - 1]);
    }
  }

  /** Then new_watch_list never overflows; with distinct names it does not repeat a slot either. */
  lemma {:induction false} KeptListFits(before: seq<WatchConfig>, visits: seq<Visit>, k: nat)
    requires k <= |visits| && TableOk(before) && ListFits(visits, |before|)
    ensures ListInBounds(before, visits) && |WalkTo(before, visits, k).kept| <= |before|
    ensures DistinctNames(visits) ==> AllDistinct(WalkTo(before, visits, k).kept)
  {
    hide TableOk, DistinctNames, WalkTo;
    ListOnlyGrows(before, visits, k);
    if DistinctNames(visits) {
      WalkIsTracked(before, visits, k);
      WalkIsTracked(before, visits, |visits|);
      DistinctIndicesFit(WalkTo(before, visits, |visits|).kept, |before|);
    } else {
      KeptIsBounded(before, visits, |visits|);
    }
  }

  /** A watch active when the walk ends survives the purge, untouched, exactly when its slot is listed. */
  lemma {:induction false} ActiveAfterReload(before: seq<WatchConfig>, visits: seq<Visit>, i: nat)
    requires TableOk(before) && DistinctNames(visits) && i < |before|
    ensures var s := WalkTo(before, visits, |visits|);
            var after := Reload(before, visits).table;
            && (after[i].isActive <==> i in s.kept)
            && (i in s.kept ==> after[i] == s.table[i])
  {
    WalkIsTracked(before, visits, |visits|);
    KeptListFits(before, visits, |visits|);
  }
}
