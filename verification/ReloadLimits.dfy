/** Small directories that show what the reload results cannot do without. */
module ReloadLimits {
  import opened Watches
  import opened Reconcile
  import opened ReloadTracking
  import opened ReloadOutcome
  import opened ProcessTable

  /** A valid config for a target, with this action. */
  function Config(filename: Field, action: Field): ParsedConfig {
    CLEARED.(filename := filename, action := action)
  }

  function At(filename: Field, action: Field): Visit {
    Visit(Parsed(Config(filename, action)), [])
  }

  /** One reload can end without a valid watch: the slot it needs is only purged after the walk. */
  lemma {:induction false} OneReloadMayFallShort()
    ensures var before := [Config("/a", "x").(isActive := true)];
            var visits := [At("/b", "x")];
            && TableOk(before) && DistinctNames(visits) && Holdable(visits, |before|) && NothingRuns(visits)
            && EffectiveSet(Reload(before, visits).table) == {} != ValidSet(visits)
  {
    var before := [Config("/a", "x").(isActive := true)];
    var visits := [At("/b", "x")];
    assert Valid(visits[0].file) && NameOf(visits[0].file) == "/b";
    assert ValidNames(visits) == {"/b"};
    assert WalkTo(before, visits, 0) == Walk(before, [], false);
    assert !Named(before[0], "/b");
    assert FindNamed(before, "/b", 0) == -1 && FindInactive(before, 0) == -1;
    assert WalkTo(before, visits, 1) == Walk(before, [], false);
    assert Effective(visits[0].file.config) in ValidSet(visits);
  }

  /** Two files for one target: the load keeps the first, the reload that follows takes over the last. */
  lemma {:induction false} DuplicatesDisturbStartup()
    ensures var visits := [At("/a", "x"), At("/a", "y")];
            var loaded := Load(1, [visits[0].file, visits[1].file]).table;
            && loaded == [Config("/a", "x").(isActive := true)]
            && Reload(loaded, visits).table == [Config("/a", "y").(isActive := true)]
            && Reload(loaded, visits).notify
  {
    var visits := [At("/a", "x"), At("/a", "y")];
    var files := [visits[0].file, visits[1].file];
    var x, y := Config("/a", "x").(isActive := true), Config("/a", "y").(isActive := true);
    assert LoadTo(1, files, 0).table == [CLEARED];
    assert LoadTo(1, files, 1) == Loading([x], 1);
    assert LoadTo(1, files, 2) == Loading([x], 1);
    DuplicateWalk(x, y, visits);
    assert Purge(Walk([y], [0, 0], true)).table == [y];
  }

  lemma {:induction false} DuplicateWalk(x: WatchConfig, y: WatchConfig, visits: seq<Visit>)
    requires visits == [At("/a", "x"), At("/a", "y")]
    requires x == Config("/a", "x").(isActive := true) && y == Config("/a", "y").(isActive := true)
    ensures WalkTo([x], visits, 2) == Walk([y], [0, 0], true)
  {
    assert FindNamed([x], "/a", 0) == 0;
    assert Merged(x, Config("/a", "x")) == x && Merged(x, Config("/a", "y")) == y;
    assert WalkTo([x], visits, 0) == Walk([x], [], false);
    assert WalkTo([x], visits, 1) == Walk([x], [0], false);
    assert [x][0 := y] == [y];
  }

  /** Two files for one target also raise the signal when, in the end, nothing changed. */
  lemma {:induction false} DuplicatesSignalInVain()
    ensures var visits := [At("/a", "y"), At("/a", "x")];
            var before := [Config("/a", "x").(isActive := true), CLEARED];
            TableOk(before) && Reload(before, visits).table == before && Reload(before, visits).notify
  {
    var visits := [At("/a", "y"), At("/a", "x")];
    var x, y := Config("/a", "x").(isActive := true), Config("/a", "y").(isActive := true);
    var before, between := [x, CLEARED], [y, CLEARED];
    assert Merged(x, Config("/a", "y")) == y && Merged(y, Config("/a", "x")) == x;
    MergedInFirst(Walk(before, [], false), visits[0], x, y);
    MergedInFirst(Walk(between, [0], true), visits[1], y, x);
    assert [] + [0] == [0] && [0] + [0] == [0, 0];
    hide HandleFile;
    assert WalkTo(before, visits, 0) == Walk(before, [], false);
    assert WalkTo(before, visits, 1) == Walk(between, [0], true);
    assert WalkTo(before, visits, 2) == Walk(before, [0, 0], true);
    assert Listed([0, 0], 2)[0] == 0;
    assert Purge(Walk(before, [0, 0], true)).table == before;
  }

  lemma {:induction false} MergedInFirst(s: Walk, v: Visit, was: WatchConfig, w: WatchConfig)
    requires s.table == [was, CLEARED] && v.file.Parsed? && v.spawnedIds == [] && Complete(v.file.config)
    requires Named(was, v.file.config.filename) && Merged(was, v.file.config) == w != was
    ensures HandleFile(s, v) == Walk([w, CLEARED], s.kept + [0], true)
  {
    assert s.table[0 := w] == [w, CLEARED];
  }

  /** Two files for one target also put its slot on new_watch_list twice, past the end of a full one. */
  lemma {:induction false} DuplicatesOverfillTheList()
    ensures var visits := [At("/a", "x"), At("/a", "y")];
            var before := [Config("/a", "x").(isActive := true)];
            TableOk(before) && |WalkTo(before, visits, 2).kept| > |before|
  {
    DuplicateWalk(Config("/a", "x").(isActive := true), Config("/a", "y").(isActive := true),
                  [At("/a", "x"), At("/a", "y")]);
  }

  /** A blocker whose config file is gone loses its slot while it runs, and no longer blocks anything. */
  lemma {:induction false} RunningBlockerForgotten()
    ensures var blocker := Config("/a", "x").(blockSpawns := true, isActive := true);
            var other := Config("/b", "y").(blockSpawns := true, isActive := true);
            var watchIds := [0, FREE];
            var visits := [Visit(Parsed(Config("/b", "y").(blockSpawns := true)), watchIds)];
            var after := Reload([blocker, other], visits).table;
            && BlockerRunning(watchIds, [blocker, other])
            && after == [CLEARED, other]
            && !BlockerRunning(watchIds, after)
  {
    var blocker := Config("/a", "x").(blockSpawns := true, isActive := true);
    var other := Config("/b", "y").(blockSpawns := true, isActive := true);
    var watchIds := [0, FREE];
    var visits := [Visit(Parsed(Config("/b", "y").(blockSpawns := true)), watchIds)];
    var before := [blocker, other];
    assert Blocks(before, watchIds[0]);
    assert WalkTo(before, visits, 0) == Walk(before, [], false);
    assert !Named(before[0], "/b") && FindNamed(before, "/b", 0) == 1;
    assert Merged(other, Config("/b", "y").(blockSpawns := true)) == other;
    assert WalkTo(before, visits, 1) == Walk(before, [1], false);
    assert Listed([1], 2) == [1];
    assert 0 !in [1] && 1 in [1];
    assert Purge(Walk(before, [1], false)).table == [CLEARED, other];
  }
}
