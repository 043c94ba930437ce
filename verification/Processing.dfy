/** The per-watch processing state: pending targets and the quarantine after a rejected close. */
module Processing {
  const QUARANTINE := 10
  const NANOS := 1_000_000_000

  /**
   * What a watch hears while nothing keeps it from spawning: the target was opened, or closed.
   * `processed` is what the database and thumbnail checks say, `now` the raw monotonic clock in
   * nanoseconds, read successfully or not.
   */
  datatype Event =
    | Open(processed: bool)
    | Close(processed: bool, now: nat, clockOk: bool)

  /** The two fields of a watch the events update. */
  datatype Timer = Timer(pending: bool, ts: int)

  const IDLE := Timer(false, 0)

  function Seconds(now: nat): nat {
    now / NANOS
  }

  /** What one event does to the fields, and whether it spawns. */
  function React(t: Timer, e: Event): (Timer, bool) {
    match e
    case Open(processed) => (t.(pending := !processed), false)
    case Close(processed, now, clockOk) =>
      var ready := !t.pending && processed;
      var sec := if clockOk then Seconds(now) else 0;
      if ready && t.ts > 0 && sec - t.ts <= QUARANTINE then (t, false)
      else if ready then (t.(ts := if t.ts > 0 then 0 else t.ts), true)
      else (t.(ts := if t.ts == 0 && clockOk then Seconds(now) else t.ts), false)
  }

  /** The fields after the first n events of a watch. */
  function Replay(h: seq<Event>, n: nat): Timer
    requires n <= |h|
  {
    if n == 0 then IDLE else React(Replay(h, n - 1), h[n - 1]).0
  }

  predicate SpawnsAt(h: seq<Event>, i: nat)
    requires i < |h|
  {
    React(Replay(h, i), h[i]).1
  }

  /** A close that did not spawn, at a time the clock could tell. */
  predicate RejectedAt(h: seq<Event>, i: nat)
    requires i < |h|
  {
    h[i].Close? && h[i].clockOk && !SpawnsAt(h, i)
  }

  /** The last spawn among the first n events, or -1. */
  function LastSpawn(h: seq<Event>, n: nat): (r: int)
    requires n <= |h|
    ensures -1 <= r < n
    ensures r >= 0 ==> SpawnsAt(h, r)
    ensures forall j :: r < j < n ==> !SpawnsAt(h, j)
  {
    if n == 0 then -1 else if SpawnsAt(h, n - 1) then n - 1 else LastSpawn(h, n - 1)
  }

  /** f is the first rejected close since the last spawn. */
  predicate Stamp(h: seq<Event>, n: nat, f: nat)
    requires n <= |h|
  {
    && LastSpawn(h, n) < f < n
    && RejectedAt(h, f)
    && forall j :: LastSpawn(h, n) < j < f ==> !RejectedAt(h, j)
  }

  predicate NoStamp(h: seq<Event>, n: nat)
    requires n <= |h|
  {
    forall j :: LastSpawn(h, n) < j < n ==> !RejectedAt(h, j)
  }

  /** The clock has been running for a second at least: a timestamp is never mistaken for none. */
  predicate ClockStarted(h: seq<Event>) {
    forall i :: 0 <= i < |h| && h[i].Close? ==> h[i].now >= NANOS
  }

  /** processing_ts is 0, or the second of the first rejected close since the last spawn. */
  lemma {:induction false} TimestampMeaning(h: seq<Event>, n: nat)
    requires n <= |h| && ClockStarted(h)
    ensures if Replay(h, n).ts == 0 then NoStamp(h, n)
            else exists f: nat :: Stamp(h, n, f) && Replay(h, n).ts == h[f].now / 1_000_000_000
  {
    if n == 0 {
    } else {
      TimestampMeaning(h, n - 1);
      if Replay(h, n - 1).ts != 0 {
        var f: nat :| Stamp(h, n - 1, f) && Replay(h, n - 1).ts == Seconds(h[f].now);
        if !SpawnsAt(h, n - 1) {
          assert Stamp(h, n, f);
        }
      } else if RejectedAt(h, n - 1) {
        assert Stamp(h, n, n - 1);
      }
    }
  }

  lemma {:induction false} StampUnique(h: seq<Event>, n: nat, f: nat, g: nat)
    requires n <= |h| && Stamp(h, n, f) && Stamp(h, n, g)
    ensures f == g
  {
  }

  predicate LatestOpen(h: seq<Event>, n: nat, m: int)
    requires n <= |h|
  {
    0 <= m < n && h[m].Open? && forall k :: m < k < n ==> !h[k].Open?
  }

  /** The latest open among the first n events, if any, found the target processed. */
  predicate LatestOpenProcessed(h: seq<Event>, n: nat)
    requires n <= |h|
  {
    forall m :: 0 <= m < n && LatestOpen(h, n, m) ==> h[m].processed
  }

  lemma {:induction false} PendingMeaning(h: seq<Event>, n: nat)
    requires n <= |h|
    ensures !Replay(h, n).pending <==> LatestOpenProcessed(h, n)
  {
    if n == 0 {
    } else {
      PendingMeaning(h, n - 1);
      if h[n - 1].Open? {
        assert LatestOpen(h, n, n - 1);
      } else {
        assert forall m :: 0 <= m < n - 1 ==> (LatestOpen(h, n, m) <==> LatestOpen(h, n - 1, m));
      }
    }
  }

  /** Only closes spawn, and an open does not touch the timestamp. */
  lemma {:induction false} OpensOnlyFlag(h: seq<Event>, i: nat)
    requires i < |h|
    ensures SpawnsAt(h, i) ==> h[i].Close?
    ensures h[i].Open? ==> Replay(h, i + 1).ts == Replay(h, i).ts && Replay(h, i + 1).pending == !h[i].processed
    ensures h[i].Close? ==> Replay(h, i + 1).pending == Replay(h, i).pending
  {
  }

  /** A close spawns exactly when its target is processed, was so when last opened, and no quarantine holds. */
  lemma {:induction false} SpawnsExactly(h: seq<Event>, n: nat)
    requires n < |h| && ClockStarted(h) && h[n].Close?
    ensures SpawnsAt(h, n) <==>
            && h[n].processed
            && LatestOpenProcessed(h, n)
            && forall f: nat :: Stamp(h, n, f) ==>
                 h[n].clockOk && h[n].now / 1_000_000_000 - h[f].now / 1_000_000_000 > 10
  {
    TimestampMeaning(h, n);
    PendingMeaning(h, n);
    var t := Replay(h, n);
    if t.ts != 0 {
      var g: nat :| Stamp(h, n, g) && t.ts == Seconds(h[g].now);
      forall f: nat | Stamp(h, n, f) ensures f == g {
        StampUnique(h, n, f, g);
      }
    }
  }

  /** No spawn within ten real seconds of the close that started the quarantine. */
  lemma {:induction false} NoSpawnInQuarantine(h: seq<Event>, n: nat, f: nat)
    requires n < |h| && ClockStarted(h) && h[n].Close? && Stamp(h, n, f) && SpawnsAt(h, n)
    ensures h[n].now - h[f].now > 10_000_000_000
  {
    SpawnsExactly(h, n);
  }
}
