/** Watch configurations, and what makes one valid next to a table of active ones. */
module Watches {
  import opened CString

  /** CFG_SZ_MAX and DB_SZ_MAX: the size of every string field. */
  const FIELD_SIZE := 128

  /** What a NUL-terminated char[128] can hold. */
  type Field = s: string | |s| < FIELD_SIZE && NUL !in s

  datatype WatchConfig = WatchConfig(
    processingTs: int,
    inotifyWd: int,
    filename: Field,
    action: Field,
    labelText: Field,
    dbTitle: Field,
    dbAuthor: Field,
    dbComment: Field,
    hidden: bool,
    skipDbChecks: bool,
    doDbUpdate: bool,
    blockSpawns: bool,
    pendingProcessing: bool,
    isActive: bool)

  /** The all-zero struct a released slot is overwritten with. */
  const CLEARED := WatchConfig(0, 0, "", "", "", "", "", "", false, false, false, false, false, false)

  /** A config as parsed into an all-zero struct: no parsed key touches the runtime fields. */
  type ParsedConfig = c: WatchConfig |
    c.processingTs == 0 && c.inotifyWd == 0 && !c.pendingProcessing && !c.isActive
    witness CLEARED

  /** The outcome of parsing one watch config file. */
  datatype ParseResult = Broken | Parsed(config: ParsedConfig)

  /** GNU basename: what follows the last '/'. */
  function Basename(path: string): (b: string)
    ensures '/' !in b && |b| <= |path| && b == path[|path| - |b|..]
    ensures |b| < |path| ==> path[|path| - |b| - 1] == '/'
  {
    if '/' !in path then path
    else
      var b := Basename(path[1..]);
      BehindSlash(path, b);
      b
  }

  /** What follows the last '/' of the rest of a path follows the last '/' of the path. */
  lemma {:induction false} BehindSlash(path: string, b: string)
    requires '/' in path && '/' !in b && |b| <= |path| - 1 && b == path[1..][|path| - 1 - |b|..]
    requires |b| < |path| - 1 ==> path[1..][|path| - 1 - |b| - 1] == '/'
    ensures b == path[|path| - |b|..] && path[|path| - |b| - 1] == '/'
  {
    if |b| == |path| - 1 {
      assert path == [path[0]] + b;
    }
  }

  /** The mandatory keys are there: three more of them when a database update was asked for. */
  predicate Complete(c: WatchConfig) {
    && c.filename != ""
    && c.action != ""
    && (c.doDbUpdate ==> c.dbTitle != "" && c.dbAuthor != "" && c.dbComment != "")
  }

  predicate Named(w: WatchConfig, filename: string) {
    w.isActive && w.filename == filename
  }

  predicate SameBasename(w: WatchConfig, filename: string) {
    w.isActive && Basename(w.filename) == Basename(filename)
  }

  predicate Clash(w: WatchConfig, filename: string) {
    Named(w, filename) || SameBasename(w, filename)
  }

  /** Some active watch other than `except` already uses this filename, or its basename. */
  predicate Clashes(table: seq<WatchConfig>, filename: string, except: int) {
    exists i :: 0 <= i < |table| && i != except && Clash(table[i], filename)
  }

  /** The invariant of the watch table. */
  ghost predicate TableOk(table: seq<WatchConfig>) {
    && (forall i :: 0 <= i < |table| && table[i].isActive ==> Complete(table[i]))
    && (forall i, j :: 0 <= i < j < |table| && table[i].isActive && table[j].isActive ==>
          Basename(table[i].filename) != Basename(table[j].filename))
  }

  /** Two active watches of a good table never share a filename. */
  lemma {:induction false} NamedUnique(table: seq<WatchConfig>, i: int, j: int)
    requires TableOk(table) && 0 <= i < |table| && 0 <= j < |table|
    requires table[i].isActive && table[j].isActive
    requires Basename(table[i].filename) == Basename(table[j].filename)
    ensures i == j
  {
  }

  /** The first active watch on a filename, or -1. */
  function FindNamed(table: seq<WatchConfig>, filename: string, from: nat): (r: int)
    requires from <= |table|
    ensures r == -1 || from <= r < |table|
    ensures r >= 0 ==> Named(table[r], filename)
    ensures forall i :: from <= i < (if r >= 0 then r else |table|) ==> !Named(table[i], filename)
    decreases |table| - from
  {
    if from == |table| then -1
    else if Named(table[from], filename) then from
    else FindNamed(table, filename, from + 1)
  }

  /** The first slot without an active watch, or -1. */
  function FindInactive(table: seq<WatchConfig>, from: nat): (r: int)
    requires from <= |table|
    ensures r == -1 || from <= r < |table|
    ensures r >= 0 ==> !table[r].isActive
    ensures forall i :: from <= i < (if r >= 0 then r else |table|) ==> table[i].isActive
    decreases |table| - from
  {
    if from == |table| then -1
    else if !table[from].isActive then from
    else FindInactive(table, from + 1)
  }

  /** What a config makes the daemon do: database strings only count when an update is asked for. */
  function Effective(c: WatchConfig): WatchConfig {
    c.(processingTs := 0, inotifyWd := 0, pendingProcessing := false, isActive := true,
       dbTitle := if c.doDbUpdate then c.dbTitle else "",
       dbAuthor := if c.doDbUpdate then c.dbAuthor else "",
       dbComment := if c.doDbUpdate then c.dbComment else "")
  }

  /** Two configs do the same exactly when they agree in these fields. */
  lemma {:induction false} EffectiveInFields(a: WatchConfig, b: WatchConfig)
    ensures Effective(a) == Effective(b) <==>
            && a.filename == b.filename && a.action == b.action && a.labelText == b.labelText
            && a.hidden == b.hidden && a.skipDbChecks == b.skipDbChecks && a.blockSpawns == b.blockSpawns
            && a.doDbUpdate == b.doDbUpdate
            && (a.doDbUpdate ==> a.dbTitle == b.dbTitle && a.dbAuthor == b.dbAuthor && a.dbComment == b.dbComment)
  {
    if !a.doDbUpdate && Effective(a) == Effective(b) {
      assert Effective(a).doDbUpdate == Effective(b).doDbUpdate;
    }
  }

  /** A config clashes with a table when another active watch has its filename or its basename. */
  lemma {:induction false} ClashesInFields(table: seq<WatchConfig>, filename: string, except: int)
    ensures Clashes(table, filename, except) <==>
            exists k :: 0 <= k < |table| && k != except && table[k].isActive &&
                        (table[k].filename == filename || Basename(table[k].filename) == Basename(filename))
  {
    hide Basename;
    if k :| 0 <= k < |table| && k != except && table[k].isActive &&
            (table[k].filename == filename || Basename(table[k].filename) == Basename(filename)) {
      assert Clash(table[k], filename);
    }
  }

  /** The effective configs of all active watches. */
  ghost function EffectiveSet(table: seq<WatchConfig>): set<WatchConfig> {
    set i | 0 <= i < |table| && table[i].isActive :: Effective(table[i])
  }
}
