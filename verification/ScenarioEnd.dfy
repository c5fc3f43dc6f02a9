/** When a scenario has ended (exercise/control.py): a timed loop over scraped counters.
    Times are whole ticks; a source that could not be read is unknown. */
module ScenarioEnd {
  import opened Options

  /** One reading per source, in the order of the configured sources. */
  type Row = seq<Option<real>>

  type Rows = seq<Row>

  // --- counters --------------------------------------------------------------

  ghost predicate Wide(rows: Rows, n: nat) { forall i :: 0 <= i < |rows| ==> |rows[i]| == n }

  /** The last known reading of a source. */
  function Last(rows: Rows, k: nat): Option<real>
    requires forall i :: 0 <= i < |rows| ==> k < |rows[i]|
  {
    if rows == [] then None
    else if rows[|rows| - 1][k].Some? then rows[|rows| - 1][k]
    else Last(rows[..|rows| - 1], k)
  }

  function Up(before: Option<real>, now: Option<real>): real {
    if before.Some? && now.Some? && now.value > before.value then now.value - before.value else 0.0
  }

  /** How far a source rose with the last row; a fall is no rise. */
  function Rise(rows: Rows, k: nat): real
    requires rows != [] && forall i :: 0 <= i < |rows| ==> k < |rows[i]|
  {
    Up(Last(rows[..|rows| - 1], k), rows[|rows| - 1][k])
  }

  /** The rise of the first `n` sources together. */
  function Delta(rows: Rows, n: nat): (d: real)
    requires rows != [] && forall i :: 0 <= i < |rows| ==> n <= |rows[i]|
    ensures d >= 0.0
  {
    if n == 0 then 0.0 else Delta(rows, n - 1) + Rise(rows, n - 1)
  }

  predicate Unknown(row: Row) { exists k :: 0 <= k < |row| && row[k].None? }

  /** Counted fires: the whole part of each row's rise. */
  function Fires(rows: Rows, n: nat): int
    requires forall i :: 0 <= i < |rows| ==> n <= |rows[i]|
  {
    if rows == [] then 0 else Fires(rows[..|rows| - 1], n) + Delta(rows, n).Floor
  }

  // --- what a trace says -----------------------------------------------------

  /** The samples so far and when each was taken. */
  datatype Trace = Trace(fires: Rows, inflight: Rows, at: seq<int>) {
    ghost predicate Shaped(n: nat, m: nat, started: int) {
      && |fires| == |inflight| == |at| && Wide(fires, n) && Wide(inflight, m)
      && (forall i :: 0 <= i < |at| ==> at[i] >= started)
      && forall i, j :: 0 <= i < j < |at| ==> at[i] <= at[j]
    }

    function Size(): nat { |at| }

    function More(fireRow: Row, inflightRow: Row, now: int): Trace {
      Trace(fires + [fireRow], inflight + [inflightRow], at + [now])
    }

    function Then(t: Trace): Trace { Trace(fires + t.fires, inflight + t.inflight, at + t.at) }

    function UpTo(i: nat): Trace
      requires i <= |fires| && i <= |inflight| && i <= |at|
    {
      Trace(fires[..i], inflight[..i], at[..i])
    }
  }

  /** The last sample was not idle, or not fully known. */
  ghost predicate Busy(t: Trace, n: nat, m: nat)
    requires t.Size() > 0 && |t.fires| == |t.inflight| == |t.at| && Wide(t.fires, n) && Wide(t.inflight, m)
  {
    Delta(t.fires, n) > 0.0 || Delta(t.inflight, m) > 0.0
    || Unknown(t.fires[|t.fires| - 1]) || Unknown(t.inflight[|t.inflight| - 1])
  }

  /** The last reading of a source is above its last known one before that, or unknown. */
  ghost predicate Stirs(rows: Rows, k: nat)
    requires rows != [] && forall i :: 0 <= i < |rows| ==> k < |rows[i]|
  {
    var last := |rows| - 1;
    rows[last][k].None?
    || exists i :: 0 <= i < last && rows[i][k].Some? && rows[last][k].value > rows[i][k].value
                   && forall j :: i < j < last ==> rows[j][k].None?
  }

  lemma {:induction false} LastIsLatest(rows: Rows, k: nat)
    requires forall i :: 0 <= i < |rows| ==> k < |rows[i]|
    ensures if Last(rows, k).None? then forall i :: 0 <= i < |rows| ==> rows[i][k].None?
            else exists i :: 0 <= i < |rows| && rows[i][k] == Last(rows, k)
                             && forall j :: i < j < |rows| ==> rows[j][k].None?
  {
    if rows != [] && rows[|rows| - 1][k].None? { LastIsLatest(rows[..|rows| - 1], k); }
  }

  lemma StirsExactly(rows: Rows, k: nat)
    requires rows != [] && forall i :: 0 <= i < |rows| ==> k < |rows[i]|
    ensures Stirs(rows, k) <==> rows[|rows| - 1][k].None? || Rise(rows, k) > 0.0
    ensures Rise(rows, k) >= 0.0
  {
    LastIsLatest(rows[..|rows| - 1], k);
  }

  lemma {:induction false} DeltaExactly(rows: Rows, n: nat)
    requires rows != [] && forall i :: 0 <= i < |rows| ==> n <= |rows[i]|
    ensures Delta(rows, n) > 0.0 <==> exists k: nat :: k < n && Rise(rows, k) > 0.0
  {
    if n > 0 {
      DeltaExactly(rows, n - 1);
      StirsExactly(rows, n - 1);
      hide Rise;
    }
  }

  lemma SomeStirs(rows: Rows, n: nat)
    requires rows != [] && Wide(rows, n)
    ensures (exists k: nat :: k < n && Stirs(rows, k)) <==> Delta(rows, n) > 0.0 || Unknown(rows[|rows| - 1])
  {
    DeltaExactly(rows, n);
    forall k: nat | k < n ensures Stirs(rows, k) <==> rows[|rows| - 1][k].None? || Rise(rows, k) > 0.0 {
      StirsExactly(rows, k);
    }
    hide Stirs, Rise, Delta;
    if Unknown(rows[|rows| - 1]) {
      var k: nat :| k < n && rows[|rows| - 1][k].None?;
      assert Stirs(rows, k);
    }
    if k: nat :| k < n && Rise(rows, k) > 0.0 { assert Stirs(rows, k); }
  }

  /** A sample is busy exactly when some source of either kind is unknown in it or above its
      last known reading before it. */
  lemma BusyExactly(t: Trace, n: nat, m: nat)
    requires t.Size() > 0 && |t.fires| == |t.inflight| == |t.at| && Wide(t.fires, n) && Wide(t.inflight, m)
    ensures Busy(t, n, m) <==>
              (exists k: nat :: k < n && Stirs(t.fires, k)) || exists k: nat :: k < m && Stirs(t.inflight, k)
  {
    SomeStirs(t.fires, n);
    SomeStirs(t.inflight, m);
    hide Stirs, Delta, Unknown;
  }

  /** Whether sample `j` was busy. */
  ghost predicate BusyAt(t: Trace, j: nat, n: nat, m: nat)
    requires j < t.Size() && |t.fires| == |t.inflight| == |t.at| && Wide(t.fires, n) && Wide(t.inflight, m)
  {
    Busy(t.UpTo(j + 1), n, m)
  }

  /** Some source rose after its first known reading. */
  ghost predicate Armed(t: Trace, n: nat)
    requires Wide(t.fires, n)
  {
    exists i :: 0 < i <= |t.fires| && Delta(t.fires[..i], n) > 0.0
  }

  /** A rise was seen, and every sample of the last `quiet` ticks was known and idle. */
  ghost predicate Quiet(t: Trace, n: nat, m: nat, started: int, quiet: int)
    requires t.Shaped(n, m, started) && t.Size() > 0
  {
    Armed(t, n)
    && forall j :: 0 <= j < t.Size() && t.at[j] > t.at[t.Size() - 1] - quiet ==> !BusyAt(t, j, n, m)
  }

  /** Since when it has been quiet, as the loop keeps it. */
  ghost function QuietSince(t: Trace, n: nat, m: nat, started: int): int
    requires t.Shaped(n, m, started)
    decreases t.Size()
  {
    if t.Size() == 0 then started
    else if Armed(t, n) && Busy(t, n, m) then t.at[t.Size() - 1]
    else QuietSince(t.UpTo(t.Size() - 1), n, m, started)
  }

  lemma UpToUpTo(t: Trace, i: nat, j: nat)
    requires i <= j <= |t.fires| && j <= |t.inflight| && j <= |t.at|
    ensures t.UpTo(j).UpTo(i) == t.UpTo(i)
    ensures j == |t.fires| == |t.inflight| == |t.at| ==> t.UpTo(j) == t
  {
    assert t.fires[..j][..i] == t.fires[..i] && t.inflight[..j][..i] == t.inflight[..i] && t.at[..j][..i] == t.at[..i];
  }

  lemma ArmedStep(t: Trace, n: nat)
    requires Wide(t.fires, n) && t.fires != []
    ensures Armed(t, n) <==> Delta(t.fires, n) > 0.0 || Armed(Trace(t.fires[..|t.fires| - 1], [], []), n)
  {
    hide Delta;
    var init := t.fires[..|t.fires| - 1];
    assert t.fires[..|t.fires|] == t.fires;
    assert forall i :: 0 < i <= |init| ==> init[..i] == t.fires[..i];
    if Delta(t.fires, n) > 0.0 { assert Delta(t.fires[..|t.fires|], n) > 0.0; }
  }

  /** Once armed, the loop's quiet time runs from the last busy sample. */
  lemma {:induction false} SinceLastBusy(t: Trace, n: nat, m: nat, started: int) returns (b: nat)
    requires t.Shaped(n, m, started) && Armed(t, n) && t.Size() > 0
    ensures b < t.Size() && QuietSince(t, n, m, started) == t.at[b] && BusyAt(t, b, n, m)
    ensures forall j :: b < j < t.Size() ==> !BusyAt(t, j, n, m)
    decreases t.Size()
  {
    hide Busy, Delta;
    var last := t.Size() - 1;
    UpToUpTo(t, last, last + 1);
    if Busy(t, n, m) {
      b := last;
    } else {
      assert Delta(t.fires, n) <= 0.0 by { BusyMeans(t, n, m); }
      ArmedStep(t, n);
      b := SinceLastBusy(t.UpTo(last), n, m, started);
      UpToUpTo(t, b + 1, last);
      forall j | b < j < t.Size() ensures !BusyAt(t, j, n, m) {
        if j < last {
          UpToUpTo(t, j + 1, last);
          assert !BusyAt(t.UpTo(last), j, n, m);
        }
      }
    }
  }

  lemma BusyMeans(t: Trace, n: nat, m: nat)
    requires t.Size() > 0 && |t.fires| == |t.inflight| == |t.at| && Wide(t.fires, n) && Wide(t.inflight, m)
    requires !Busy(t, n, m)
    ensures Delta(t.fires, n) <= 0.0
  {
  }

  /** The loop's test at the last sample is the condition it stands for. */
  lemma QuietExactly(t: Trace, n: nat, m: nat, started: int, quiet: int)
    requires t.Shaped(n, m, started) && t.Size() > 0 && quiet > 0
    ensures Quiet(t, n, m, started, quiet) <==>
              Armed(t, n) && !Busy(t, n, m) && t.at[t.Size() - 1] - QuietSince(t, n, m, started) >= quiet
  {
    hide Busy, Armed, QuietSince;
    UpToUpTo(t, 0, t.Size());
    if Armed(t, n) {
      var b := SinceLastBusy(t, n, m, started);
      var last := t.Size() - 1;
      assert BusyAt(t, last, n, m) <==> Busy(t, n, m);
      hide BusyAt;
      assert forall j :: 0 <= j < b ==> t.at[j] <= t.at[b];
    }
  }

  // --- the loop --------------------------------------------------------------

  datatype End = QuietEnd | Fallback

  /** `prev` holds the last known readings. */
  ghost predicate Baselines(prev: map<nat, real>, rows: Rows, n: nat)
    requires Wide(rows, n)
  {
    forall k: nat :: (k in prev <==> k < n && Last(rows, k).Some?) && (k in prev ==> prev[k] == Last(rows, k).value)
  }

  function Before(prev: map<nat, real>, k: nat): Option<real> { if k in prev then Some(prev[k]) else None }

  lemma LastStep(rows: Rows, row: Row, k: nat)
    requires Wide(rows, |row|) && k < |row|
    ensures Last(rows + [row], k) == if row[k].Some? then row[k] else Last(rows, k)
    ensures Rise(rows + [row], k) == Up(Last(rows, k), row[k])
  {
    assert (rows + [row])[..|rows|] == rows;
  }

  class LoopRunner {
    const n: nat
    const m: nat
    const quiet: int
    const fallback: int
    const interval: int
    const slice: int
    /** The clock, and the stop event other threads may set at any time. */
    var clock: int
    var stop: bool
    /** Every sample ever taken and when, written by `Sample` alone. */
    ghost var taken: Trace

    ghost predicate Configured() { quiet > 0 && fallback > 0 && interval > 0 && slice > 0 }

    constructor (n: nat, m: nat, quiet: int, fallback: int, interval: int, slice: int)
      requires quiet > 0 && fallback > 0 && interval > 0 && slice > 0
      ensures Configured() && this.n == n && this.m == m && this.quiet == quiet && this.fallback == fallback
    {
      this.n, this.m, this.quiet, this.fallback, this.interval, this.slice := n, m, quiet, fallback, interval, slice;
      taken := Trace([], [], []);
    }

    /** The last sample ends nothing: it is not quiet, and the fallback time is not over. */
    ghost predicate GoesOn(t: Trace, started: int) {
      t.Shaped(n, m, started) && t.Size() > 0 && !Quiet(t, n, m, started, quiet)
        && t.at[t.Size() - 1] - started < fallback
    }

    /** At least the interval lies between two samples. */
    ghost predicate Spaced(t: Trace) {
      forall i :: 0 < i < t.Size() ==> t.at[i] >= t.at[i - 1] + interval
    }

    /** None of the first `k` samples ended anything. */
    ghost predicate WentOn(t: Trace, k: int, started: int)
      requires k <= t.Size() && |t.fires| == |t.inflight| == |t.at|
    {
      forall i :: 0 < i <= k ==> GoesOn(t.UpTo(i), started)
    }

    lemma NothingYet(started: int)
      ensures Spaced(Trace([], [], [])) && WentOn(Trace([], [], []), 0, started)
    {
    }

    lemma OneMore(t: Trace, fireRow: Row, inflightRow: Row, now: int, started: int)
      requires t.Shaped(n, m, started) && Spaced(t) && WentOn(t, t.Size(), started)
      requires t.Size() > 0 ==> now >= t.at[t.Size() - 1] + interval
      requires t.More(fireRow, inflightRow, now).Shaped(n, m, started)
      ensures var next := t.More(fireRow, inflightRow, now);
              && Spaced(next) && WentOn(next, next.Size() - 1, started)
              && (!Quiet(next, n, m, started, quiet) && now - started < fallback ==> WentOn(next, next.Size(), started))
    {
      hide Quiet;
      var next := t.More(fireRow, inflightRow, now);
      PrefixesStay(t, next);
      UpToUpTo(next, 0, next.Size());
      forall i | 0 < i <= t.Size() ensures GoesOn(next.UpTo(i), started) { assert GoesOn(t.UpTo(i), started); }
    }

    method Elapse(least: int)
      requires least >= 0
      modifies this`clock, this`stop
      ensures clock >= old(clock) + least && (old(stop) ==> stop)
    {
      var extra: nat :| extra >= 0;
      var raised: bool := *;
      clock, stop := clock + least + extra, stop || raised;
    }

    /** Sleeps in slices, ending early on a stop. Not stopped means the time has passed. */
    method Wait(ticks: int) returns (stopped: bool)
      requires Configured()
      modifies this`clock, this`stop
      ensures stopped ==> stop
      ensures !stopped ==> clock >= old(clock) + ticks
      ensures clock >= old(clock) && (old(stop) ==> stopped)
    {
      var end := clock + ticks;
      while !stop
        invariant clock >= old(clock) && (old(stop) ==> stop)
        decreases end - clock, !stop
      {
        var left := end - clock;
        if left <= 0 { return false; }
        Elapse(if slice < left then slice else left);
      }
      stopped := true;
    }

    method Scrape(width: nat) returns (row: Row)
      modifies this`clock, this`stop
      ensures |row| == width && clock >= old(clock) && (old(stop) ==> stop)
    {
      row := [];
      while |row| < width
        invariant |row| <= width && clock == old(clock) && stop == old(stop)
      {
        var known: bool := *;
        var value: real := *;
        row := row + [if known then Some(value) else None];
      }
      Elapse(0);
    }

    /** One sample of every source, and the clock read after it. */
    method Sample() returns (fireRow: Row, inflightRow: Row, now: int)
      modifies this`clock, this`stop, this`taken
      ensures |fireRow| == n && |inflightRow| == m && now == clock >= old(clock) && (old(stop) ==> stop)
      ensures taken == old(taken).More(fireRow, inflightRow, now)
    {
      fireRow := Scrape(n);
      inflightRow := Scrape(m);
      now := clock;
      taken := taken.More(fireRow, inflightRow, now);
    }

    /** One row against the baselines, which it moves: the rise, and whether a source was
        unknown. A fall only moves the baseline. */
    method Read(prev: map<nat, real>, row: Row, ghost rows: Rows)
      returns (rise: real, next: map<nat, real>, unknown: bool)
      requires Wide(rows, |row|) && Baselines(prev, rows, |row|)
      ensures rise == Delta(rows + [row], |row|) && unknown == Unknown(row)
      ensures Baselines(next, rows + [row], |row|)
    {
      hide Last, Rise;
      rise, next, unknown := 0.0, prev, false;
      forall i: nat ensures Before(next, i) == if i < |row| then Last(rows, i) else None {
        assert i in prev <==> i < |row| && Last(rows, i).Some?;
      }
      for k := 0 to |row|
        invariant rise == Delta(rows + [row], k)
        invariant unknown <==> exists i :: 0 <= i < k && row[i].None?
        invariant forall i: nat ::
            Before(next, i) == if i < k then Last(rows + [row], i) else if i < |row| then Last(rows, i) else None
      {
        LastStep(rows, row, k);
        assert Before(next, k) == Last(rows, k);
        if row[k].None? {
          unknown := true;
        } else {
          var v := row[k].value;
          if k in next && v > next[k] { rise := rise + (v - next[k]); }
          ghost var was := next;
          next := next[k := v];
          assert forall i: nat :: Before(next, i) == if i == k then Some(v) else Before(was, i);
        }
      }
      forall k: nat
        ensures k in next <==> k < |row| && Last(rows + [row], k).Some?
        ensures k in next ==> next[k] == Last(rows + [row], k).value
      {
        assert Before(next, k) == if k < |row| then Last(rows + [row], k) else None;
      }
    }

    /** What the loop keeps is what the samples so far say. */
    ghost predicate Tracks(w: Watch, t: Trace, begun: int) {
      && t.Shaped(n, m, begun) && w.armed == Armed(t, n) && w.fires == Fires(t.fires, n)
      && w.quietSince == QuietSince(t, n, m, begun)
      && Baselines(w.prev, t.fires, n) && Baselines(w.prevInflight, t.inflight, m)
    }

    /** One round: sample, move the baselines, count, and test for an end. */
    method Tick(w: Watch, begun: int, ghost t: Trace)
      returns (next: Watch, reason: Option<End>, now: int, ghost fireRow: Row, ghost inflightRow: Row)
      requires Configured() && Tracks(w, t, begun) && clock >= begun && (t.Size() > 0 ==> t.at[t.Size() - 1] <= clock)
      modifies this`clock, this`stop, this`taken
      ensures now == clock >= old(clock) && (old(stop) ==> stop)
      ensures taken == old(taken).More(fireRow, inflightRow, now)
      ensures taken.fires == old(taken).fires + [fireRow] && taken.inflight == old(taken).inflight + [inflightRow]
              && taken.at == old(taken).at + [now]
      ensures Tracks(next, t.More(fireRow, inflightRow, now), begun)
      ensures reason == (if Quiet(t.More(fireRow, inflightRow, now), n, m, begun, quiet) then Some(QuietEnd)
                         else if now - begun >= fallback then Some(Fallback) else None)
    {
      hide Busy, Armed, Quiet, QuietSince, Baselines, Delta, Fires, Unknown;
      var fires, inflights;
      fires, inflights, now := Sample();
      fireRow, inflightRow := fires, inflights;
      var delta, prev, unknown := Read(w.prev, fires, t.fires);
      var inflight, prevInflight, unknownInflight := Read(w.prevInflight, inflights, t.inflight);
      ghost var u := t.More(fireRow, inflightRow, now);
      var busy := delta > 0.0 || inflight > 0.0 || unknown || unknownInflight;
      SampleCounts(t, fireRow, inflightRow, now, n, m, begun);
      SampleQuiet(t, fireRow, inflightRow, now, n, m, begun);
      var armed := w.armed || delta > 0.0;
      next := Watch(armed, w.fires + (if delta > 0.0 then delta.Floor else 0),
                    if armed && busy then now else w.quietSince, prev, prevInflight);
      QuietExactly(u, n, m, begun, quiet);
      assert busy == Busy(u, n, m) && armed == Armed(u, n) && next.quietSince == QuietSince(u, n, m, begun);
      reason := if armed && !busy && now - next.quietSince >= quiet then Some(QuietEnd)
                else if now - begun >= fallback then Some(Fallback) else None;
    }

    /** Samples until the scenario is quiet, the fallback time is over or a stop comes. `t` is
        what this call sampled. */
    method AwaitEnd() returns (reason: Option<End>, armed: bool, fires: int, ghost t: Trace)
      requires Configured()
      modifies this
      ensures taken == Trace(old(taken).fires + t.fires, old(taken).inflight + t.inflight, old(taken).at + t.at)
      ensures t.Shaped(n, m, old(clock)) && t.Size() > 0
      ensures t.at[t.Size() - 1] <= clock && (reason.Some? ==> t.at[t.Size() - 1] == clock)
      ensures Spaced(t) && armed == Armed(t, n) && fires == Fires(t.fires, n)
      ensures WentOn(t, t.Size() - 1, old(clock))
      ensures reason == (if Quiet(t, n, m, old(clock), quiet) then Some(QuietEnd)
                         else if t.at[t.Size() - 1] - old(clock) >= fallback then Some(Fallback) else None)
      ensures reason.None? ==> stop
    {
      hide Armed, Quiet, QuietSince, Baselines, Fires, GoesOn, Spaced, WentOn;
      var begun, last := clock, clock;
      reason, t := None, Trace([], [], []);
      StartsEmpty(n, m, begun);
      assert Spaced(t) && WentOn(t, 0, begun) by { NothingYet(begun); }
      var w := Watch(false, 0, begun, map[], map[]);
      var stopped := false;
      while true
        invariant Tracks(w, t, begun) && begun == old(clock) && reason.None?
        invariant taken == old(taken).Then(t)
        invariant clock >= last >= begun && (t.Size() > 0 ==> last == t.at[t.Size() - 1] && clock >= last + interval)
        invariant Spaced(t) && WentOn(t, t.Size(), begun)
        decreases begun + fallback - last, t.Size() == 0
      {
        ghost var before := t;
        var now;
        ghost var fireRow, inflightRow;
        w, reason, now, fireRow, inflightRow := Tick(w, begun, t);
        t := t.More(fireRow, inflightRow, now);
        ThenMore(old(taken), before, fireRow, inflightRow, now);
        OneMore(before, fireRow, inflightRow, now, begun);
        if reason.Some? { break; }
        last := now;
        stopped := Wait(interval);
        if stopped { break; }
      }
      armed, fires := w.armed, w.fires;
    }
  }

  /** The loop's own variables. */
  datatype Watch = Watch(armed: bool, fires: int, quietSince: int, prev: map<nat, real>, prevInflight: map<nat, real>)

  lemma ThenMore(a: Trace, t: Trace, fireRow: Row, inflightRow: Row, now: int)
    ensures a.Then(t).More(fireRow, inflightRow, now) == a.Then(t.More(fireRow, inflightRow, now))
  {
    assert a.fires + t.fires + [fireRow] == a.fires + (t.fires + [fireRow]);
    assert a.inflight + t.inflight + [inflightRow] == a.inflight + (t.inflight + [inflightRow]);
    assert a.at + t.at + [now] == a.at + (t.at + [now]);
  }

  lemma StartsEmpty(n: nat, m: nat, started: int)
    ensures var t := Trace([], [], []);
            && t.Shaped(n, m, started) && !Armed(t, n) && Fires([], n) == 0 && QuietSince(t, n, m, started) == started
            && Baselines(map[], [], n) && Baselines(map[], [], m)
  {
  }

  /** What one more sample does to what the loop counts, */
  lemma SampleCounts(t: Trace, fireRow: Row, inflightRow: Row, now: int, n: nat, m: nat, started: int)
    requires t.Shaped(n, m, started) && |fireRow| == n && |inflightRow| == m && now >= started
    requires forall i :: 0 <= i < t.Size() ==> t.at[i] <= now
    ensures var next := t.More(fireRow, inflightRow, now);
            && next.Shaped(n, m, started)
            && (Armed(next, n) <==> Delta(next.fires, n) > 0.0 || Armed(t, n))
            && Fires(next.fires, n) == Fires(t.fires, n) + Delta(next.fires, n).Floor
    ensures Delta(t.fires + [fireRow], n).Floor >= 0
    ensures Delta(t.fires + [fireRow], n) <= 0.0 ==> Delta(t.fires + [fireRow], n).Floor == 0
  {
    hide Delta, Armed;
    var next := t.More(fireRow, inflightRow, now);
    assert next.fires[..|t.fires|] == t.fires;
    ArmedStep(next, n);
    ArmedIsFires(t, n);
  }

  /** and to what it makes of quiet. */
  lemma SampleQuiet(t: Trace, fireRow: Row, inflightRow: Row, now: int, n: nat, m: nat, started: int)
    requires t.Shaped(n, m, started) && |fireRow| == n && |inflightRow| == m
    requires t.More(fireRow, inflightRow, now).Shaped(n, m, started)
    ensures var next := t.More(fireRow, inflightRow, now);
            && (Busy(next, n, m) <==> Delta(next.fires, n) > 0.0 || Delta(next.inflight, m) > 0.0
                                      || Unknown(fireRow) || Unknown(inflightRow))
            && QuietSince(next, n, m, started)
               == (if Armed(next, n) && Busy(next, n, m) then now else QuietSince(t, n, m, started))
  {
    hide Delta, Unknown, Armed;
    var next := t.More(fireRow, inflightRow, now);
    assert next.fires[..|t.fires|] == t.fires;
    assert next.UpTo(next.Size() - 1) == t by {
      assert next.inflight[..|t.inflight|] == t.inflight && next.at[..|t.at|] == t.at;
    }
  }

  lemma ArmedIsFires(t: Trace, n: nat)
    requires Wide(t.fires, n)
    ensures Armed(Trace(t.fires, [], []), n) <==> Armed(t, n)
  {
  }

  lemma PrefixesStay(t: Trace, next: Trace)
    requires |t.fires| == |t.inflight| == |t.at|
    requires t.fires <= next.fires && t.inflight <= next.inflight && t.at <= next.at
    ensures forall i :: 0 <= i <= t.Size() ==> next.UpTo(i) == t.UpTo(i)
  {
    forall i | 0 <= i <= t.Size() ensures next.UpTo(i) == t.UpTo(i) {
      assert next.fires[..i] == t.fires[..i] && next.inflight[..i] == t.inflight[..i] && next.at[..i] == t.at[..i];
    }
  }

  // --- what the count of fires means -----------------------------------------

  /** The known readings of one source, in order. */
  function Known(rows: Rows, k: nat): seq<real>
    requires forall i :: 0 <= i < |rows| ==> k < |rows[i]|
  {
    if rows == [] then []
    else Known(rows[..|rows| - 1], k) + if rows[|rows| - 1][k].Some? then [rows[|rows| - 1][k].value] else []
  }

  /** The steps up of a counter, and its steps down. */
  function Ups(v: seq<real>): real {
    if |v| < 2 then 0.0 else Ups(v[..|v| - 1]) + if v[|v| - 1] > v[|v| - 2] then v[|v| - 1] - v[|v| - 2] else 0.0
  }

  function Downs(v: seq<real>): real {
    if |v| < 2 then 0.0 else Downs(v[..|v| - 1]) + if v[|v| - 1] < v[|v| - 2] then v[|v| - 2] - v[|v| - 1] else 0.0
  }

  function UpsOf(rows: Rows, n: nat): real
    requires forall i :: 0 <= i < |rows| ==> n <= |rows[i]|
  {
    if n == 0 then 0.0 else UpsOf(rows, n - 1) + Ups(Known(rows, n - 1))
  }

  ghost predicate Whole(x: real) { x.Floor as real == x }

  ghost predicate WholeRows(rows: Rows) {
    forall i, k :: 0 <= i < |rows| && 0 <= k < |rows[i]| && rows[i][k].Some? ==> Whole(rows[i][k].value)
  }

  lemma {:induction false} LastKnown(rows: Rows, k: nat)
    requires forall i :: 0 <= i < |rows| ==> k < |rows[i]|
    ensures Last(rows, k) == if Known(rows, k) == [] then None else Some(Known(rows, k)[|Known(rows, k)| - 1])
  {
    if rows != [] { LastKnown(rows[..|rows| - 1], k); }
  }

  lemma UpsStep(rows: Rows, k: nat)
    requires rows != [] && forall i :: 0 <= i < |rows| ==> k < |rows[i]|
    ensures Ups(Known(rows, k)) == Ups(Known(rows[..|rows| - 1], k)) + Rise(rows, k)
  {
    var init, now := rows[..|rows| - 1], rows[|rows| - 1][k];
    LastKnown(init, k);
    var known := Known(init, k);
    if now.Some? {
      assert (known + [now.value])[..|known|] == known;
    } else {
      assert Known(rows, k) == known;
    }
  }

  lemma {:induction false} UpsOfStep(rows: Rows, n: nat)
    requires rows != [] && forall i :: 0 <= i < |rows| ==> n <= |rows[i]|
    ensures UpsOf(rows, n) == UpsOf(rows[..|rows| - 1], n) + Delta(rows, n)
  {
    hide Known, Rise, Ups;
    if n > 0 {
      UpsOfStep(rows, n - 1);
      UpsStep(rows, n - 1);
    }
  }

  lemma {:induction false} WholeDelta(rows: Rows, n: nat)
    requires rows != [] && (forall i :: 0 <= i < |rows| ==> n <= |rows[i]|) && WholeRows(rows)
    ensures Whole(Delta(rows, n))
  {
    if n == 0 {
      assert Whole(0.0) by { assert (0.0).Floor == 0; }
    } else {
      var init := rows[..|rows| - 1];
      WholeDelta(rows, n - 1);
      WholeLast(init, n - 1);
      hide Whole, Delta;
      WholeUp(Last(init, n - 1), rows[|rows| - 1][n - 1]);
      DeltaStep(rows, n);
      WholeSum(Delta(rows, n - 1), Rise(rows, n - 1));
    }
  }

  lemma DeltaStep(rows: Rows, n: nat)
    requires n > 0 && rows != [] && forall i :: 0 <= i < |rows| ==> n <= |rows[i]|
    ensures Delta(rows, n) == Delta(rows, n - 1) + Rise(rows, n - 1)
  {
  }

  lemma WholeSum(a: real, b: real)
    requires Whole(a) && Whole(b)
    ensures Whole(a + b)
  {
    assert a + b == (a.Floor + b.Floor) as real;
  }

  lemma WholeUp(before: Option<real>, now: Option<real>)
    requires before.Some? ==> Whole(before.value)
    requires now.Some? ==> Whole(now.value)
    ensures Whole(Up(before, now))
  {
    if before.Some? && now.Some? && now.value > before.value {
      assert now.value - before.value == (now.value.Floor - before.value.Floor) as real;
    } else {
      assert (0.0).Floor == 0;
    }
  }

  lemma {:induction false} WholeLast(rows: Rows, k: nat)
    requires (forall i :: 0 <= i < |rows| ==> k < |rows[i]|) && WholeRows(rows)
    ensures Last(rows, k).Some? ==> Whole(Last(rows, k).value)
  {
    if rows != [] { WholeLast(rows[..|rows| - 1], k); }
  }

  /** For counters of whole events, what is counted is every step up of every source between
      known readings: nothing before its first reading, nothing for a reset. */
  lemma {:induction false} FiresAreRises(rows: Rows, n: nat)
    requires (forall i :: 0 <= i < |rows| ==> n <= |rows[i]|) && WholeRows(rows)
    ensures Fires(rows, n) as real == UpsOf(rows, n)
  {
    hide Delta, Whole;
    if rows == [] {
      NothingKnown(n);
    } else {
      FiresAreRises(rows[..|rows| - 1], n);
      UpsOfStep(rows, n);
      WholeDelta(rows, n);
      assert Delta(rows, n).Floor as real == Delta(rows, n) by { WholeIs(Delta(rows, n)); }
    }
  }

  lemma WholeIs(x: real)
    requires Whole(x)
    ensures x.Floor as real == x
  {
  }

  lemma {:induction false} NothingKnown(n: nat)
    ensures UpsOf([], n) == 0.0
  {
    if n > 0 { NothingKnown(n - 1); }
  }

  /** One source: the steps up are what it gained overall plus all it lost in resets. */
  lemma {:induction false} UpsBalance(v: seq<real>)
    requires v != []
    ensures Ups(v) == v[|v| - 1] - v[0] + Downs(v)
  {
    if |v| > 1 { UpsBalance(v[..|v| - 1]); }
  }
}
