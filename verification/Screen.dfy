/** The screen window on live element reads: change messages are folded into one
    answer, and the answer must replay to the same rows as the upstream log. */
module Screen {
  import opened Options

  type Value = map<string, string>
  type RowKey = Option<string>

  datatype Op = Insert | Update | Delete | Other

  /** One change; `value` is `None` when it is absent or not an object. */
  datatype Change = Change(key: RowKey, op: Op, value: Option<Value>)

  /** A message of a shape log: a change, a control (which carries no row), or
      something that is not an object at all. */
  datatype Msg = Data(c: Change) | Control(name: string) | Junk

  const UP_TO_DATE := Control("up-to-date")
  const MUST_REFETCH := Control("must-refetch")
  const TRANSITION_COLUMNS: set<string> := {"tx_active", "rx_active", "moved_by", "health_band"}

  /** An insert, a delete, anything unrecognised, or an update touching a transition
      column. */
  predicate IsTransition(c: Change) {
    c.op != Update || c.value.None? || c.value.value.Keys * TRANSITION_COLUMNS != {}
  }

  // --- what a log means: the reader's replay ---------------------------------

  function RowOf(dk: string, k: RowKey): string {
    if k.None? || k.value == "" then dk else k.value
  }

  function Applied(dk: string, rows: map<string, Value>, m: Msg): map<string, Value> {
    if !m.Data? then rows
    else
      var k := RowOf(dk, m.c.key);
      if m.c.op == Delete then rows - {k}
      else if m.c.value.None? then rows
      else if m.c.op == Update && k in rows then rows[k := rows[k] + m.c.value.value]
      else rows[k := m.c.value.value]
  }

  /** The row a key names: its own text, or the default where it is missing or empty. */
  predicate NamesRow(dk: string, k: RowKey, row: string) {
    if k.Some? && k.value != "" then row == k.value else row == dk
  }

  /** What a message does to each row: nothing to a row it does not name, or without a value;
      a delete removes the row, an update of a row there is sets the columns it carries and
      keeps the others, and anything else makes the row what it carries. */
  lemma AppliedExactly(dk: string, rows: map<string, Value>, m: Msg, row: string)
    ensures var after := Applied(dk, rows, m);
            if !m.Data? || !NamesRow(dk, m.c.key, row) || (m.c.op != Delete && m.c.value.None?) then
              (row in after <==> row in rows) && (row in rows ==> after[row] == rows[row])
            else if m.c.op == Delete then row !in after
            else
              row in after
              && forall column ::
                   var carried, kept := m.c.value.value, row in rows && m.c.op == Update;
                   (column in after[row] <==> column in carried || (kept && column in rows[row]))
                   && (column in carried ==> after[row][column] == carried[column])
                   && (kept && column in rows[row] && column !in carried ==> after[row][column] == rows[row][column])
  {
  }

  /** The rows a log leaves, or `None` when it tells the reader to start over. */
  function Replay(dk: string, rows: map<string, Value>, ms: seq<Msg>): Option<map<string, Value>> {
    if ms == [] then Some(rows)
    else
      var before := Replay(dk, rows, ms[..|ms| - 1]);
      if before.None? || ms[|ms| - 1] == MUST_REFETCH then None
      else Some(Applied(dk, before.value, ms[|ms| - 1]))
  }

  lemma {:induction false} ReplayConcat(dk: string, rows: map<string, Value>, a: seq<Msg>, b: seq<Msg>)
    ensures Replay(dk, rows, a + b)
            == if Replay(dk, rows, a).None? then None else Replay(dk, Replay(dk, rows, a).value, b)
  {
    if b == [] {
      assert a + b == a;
    } else {
      ReplayConcat(dk, rows, a, b[..|b| - 1]);
      assert (a + b)[..|a + b| - 1] == a + b[..|b| - 1];
    }
  }

  lemma RefetchStays(dk: string, rows: map<string, Value>, a: seq<Msg>, b: seq<Msg>)
    requires Replay(dk, rows, a).None?
    ensures Replay(dk, rows, a + b).None?
  {
    ReplayConcat(dk, rows, a, b);
  }

  /** The reader's own loop over one batch: an insert sets a row, an update merges into it,
      a delete removes it; a must-refetch drops everything. */
  method Follow(dk: string, start: map<string, Value>, ms: seq<Msg>) returns (rows: map<string, Value>, refetch: bool)
    ensures Replay(dk, start, ms) == if refetch then None else Some(rows)
  {
    hide Applied;
    rows, refetch := start, false;
    for i := 0 to |ms|
      invariant Replay(dk, start, ms[..i]) == Some(rows)
    {
      assert ms[..i + 1][..i] == ms[..i];
      if ms[i] == MUST_REFETCH {
        RefetchStays(dk, start, ms[..i + 1], ms[i + 1..]);
        assert ms[..i + 1] + ms[i + 1..] == ms;
        return rows, true;
      }
      AppliedIs(dk, rows, ms[i]);
      if ms[i].Data? {
        var c := ms[i].c;
        var key := if c.key.None? || c.key.value == "" then dk else c.key.value;
        if c.op == Delete {
          rows := rows - {key};
        } else if c.value.Some? {
          rows := rows[key := if c.op == Update && key in rows then rows[key] + c.value.value else c.value.value];
        }
      }
    }
    assert ms[..|ms|] == ms;
  }

  lemma AppliedIs(dk: string, rows: map<string, Value>, m: Msg)
    ensures !m.Data? ==> Applied(dk, rows, m) == rows
    ensures m.Data? ==>
              var key, c := RowOf(dk, m.c.key), m.c;
              Applied(dk, rows, m)
              == if c.op == Delete then rows - {key}
                 else if c.value.None? then rows
                 else rows[key := if c.op == Update && key in rows then rows[key] + c.value.value else c.value.value]
  {
  }

  // --- the fold, as a function on values -------------------------------------

  /** The messages held for the answer, and for each key the place of the latest one
      that may still absorb an update. */
  datatype Held = Held(msgs: seq<Msg>, latest: map<RowKey, nat>)

  /** The message an update is folded into. */
  function Merged(p: Change, c: Change): Change
    requires p.value.Some? && c.value.Some?
  {
    p.(value := Some(p.value.value + c.value.value))
  }

  function Folded(h: Held, c: Change): Held
    requires Sound(h)
  {
    if c.key in h.latest && !IsTransition(c) then
      var i := h.latest[c.key];
      var p := h.msgs[i].c;
      h.(msgs := h.msgs[i := Data(Merged(p, c))])
    else
      Held(h.msgs + [Data(c)],
           if c.op in {Insert, Update} && c.value.Some? then h.latest[c.key := |h.msgs|]
           else h.latest - {c.key})
  }

  predicate Merges(h: Held, c: Change) { c.key in h.latest && !IsTransition(c) }

  /** Nothing held after place `i` concerns key `k`. */
  ghost predicate LastFor(ms: seq<Msg>, k: RowKey, i: nat) {
    forall j :: i < j < |ms| && ms[j].Data? ==> ms[j].c.key != k
  }

  ghost predicate Sound(h: Held) {
    forall k :: k in h.latest ==>
      && h.latest[k] < |h.msgs|
      && h.msgs[h.latest[k]].Data?
      && h.msgs[h.latest[k]].c.key == k
      && h.msgs[h.latest[k]].c.op in {Insert, Update}
      && h.msgs[h.latest[k]].c.value.Some?
      && LastFor(h.msgs, k, h.latest[k])
  }

  /** A whole run of messages: changes are folded, up-to-date marks dropped, anything
      else is held as it is. */
  ghost function Absorbed(ms: seq<Msg>): (h: Held)
    ensures Sound(h)
  {
    if ms == [] then Held([], map[])
    else
      var h, m := Absorbed(ms[..|ms| - 1]), ms[|ms| - 1];
      FoldedSound(h, if m.Data? then m.c else Change(None, Other, None));
      if m == UP_TO_DATE then h
      else if m.Data? then Folded(h, m.c)
      else h.(msgs := h.msgs + [m])
  }

  lemma FoldedSound(h: Held, c: Change)
    requires Sound(h)
    ensures Sound(Folded(h, c))
    ensures forall m: Msg :: !m.Data? ==> Sound(h.(msgs := h.msgs + [m]))
  {
    if Merges(h, c) {
      var i, g := h.latest[c.key], Folded(h, c);
      assert |g.msgs| == |h.msgs| && forall j :: 0 <= j < |h.msgs| && j != i ==> g.msgs[j] == h.msgs[j];
    }
  }

  // --- 1. the fold keeps the meaning -----------------------------------------

  ghost predicate Touches(ms: seq<Msg>, k: RowKey) {
    exists j :: 0 <= j < |ms| && ms[j].Data? && ms[j].c.key == k
  }

  /** No two different keys of the log name the same row: a missing key, an empty one
      and the default key all stand for one row. */
  ghost predicate KeysApart(dk: string, ms: seq<Msg>) {
    forall a, b :: Touches(ms, a) && Touches(ms, b) && RowOf(dk, a) == RowOf(dk, b) ==> a == b
  }

  ghost predicate Avoids(dk: string, ms: seq<Msg>, row: string) {
    forall j :: 0 <= j < |ms| && ms[j].Data? ==> RowOf(dk, ms[j].c.key) != row
  }

  lemma AppliedCommutes(dk: string, rows: map<string, Value>, m: Msg, row: string, v: Value)
    requires m.Data? ==> RowOf(dk, m.c.key) != row
    ensures Applied(dk, rows[row := v], m) == Applied(dk, rows, m)[row := v]
    ensures row in Applied(dk, rows, m) <==> row in rows
    ensures row in rows ==> Applied(dk, rows, m)[row] == rows[row]
  {
    AppliedIs(dk, rows, m);
    AppliedIs(dk, rows[row := v], m);
    hide Applied, RowOf;
    if m.Data? {
      var k, c := RowOf(dk, m.c.key), m.c;
      if c.op == Delete {
        assert rows[row := v] - {k} == (rows - {k})[row := v];
      } else if c.value.Some? {
        var x := if c.op == Update && k in rows then rows[k] + c.value.value else c.value.value;
        assert rows[row := v][k := x] == rows[k := x][row := v];
      }
    }
  }

  /** A row the messages never name can be set before or after them. */
  lemma {:induction false} SetCommutes(dk: string, rows: map<string, Value>, ms: seq<Msg>, row: string, v: Value)
    requires Avoids(dk, ms, row)
    ensures Replay(dk, rows, ms).None? <==> Replay(dk, rows[row := v], ms).None?
    ensures Replay(dk, rows, ms).Some? ==>
              Replay(dk, rows[row := v], ms).value == Replay(dk, rows, ms).value[row := v]
    ensures Replay(dk, rows, ms).Some? ==>
              (row in Replay(dk, rows, ms).value <==> row in rows)
              && (row in rows ==> Replay(dk, rows, ms).value[row] == rows[row])
  {
    if ms != [] {
      var init, m := ms[..|ms| - 1], ms[|ms| - 1];
      assert m == ms[|init|];
      SetCommutes(dk, rows, init, row, v);
      if Replay(dk, rows, init).Some? {
        AppliedCommutes(dk, Replay(dk, rows, init).value, m, row, v);
      }
      hide Applied;
    }
  }

  /** One message with its update folded in does what the two do in turn. */
  lemma MergedApplies(dk: string, rows: map<string, Value>, p: Change, c: Change)
    requires p.op in {Insert, Update} && p.value.Some? && c.op == Update && c.value.Some? && c.key == p.key
    ensures var row, ax := RowOf(dk, c.key), Applied(dk, rows, Data(p));
            && row in ax
            && Applied(dk, rows, Data(Merged(p, c))) == ax[row := ax[row] + c.value.value]
  {
    var row := RowOf(dk, c.key);
    if p.op == Update && row in rows {
      assert rows[row] + (p.value.value + c.value.value) == (rows[row] + p.value.value) + c.value.value;
    }
  }

  lemma ReplayOne(dk: string, rows: map<string, Value>, a: seq<Msg>, m: Msg)
    ensures Replay(dk, rows, a + [m])
            == if Replay(dk, rows, a).None? || m == MUST_REFETCH then None
               else Some(Applied(dk, Replay(dk, rows, a).value, m))
  {
    hide Applied;
    assert (a + [m])[..|a|] == a;
  }

  /** Between the message and its update lie only messages of other rows, so the update
      can move up to it. */
  lemma MovesUp(dk: string, rows: map<string, Value>, p: Change, b: seq<Msg>, c: Change)
    requires p.op in {Insert, Update} && p.value.Some? && c.op == Update && c.value.Some? && c.key == p.key
    requires Avoids(dk, b, RowOf(dk, c.key))
    ensures Replay(dk, Applied(dk, rows, Data(Merged(p, c))), b)
            == Replay(dk, Applied(dk, rows, Data(p)), b + [Data(c)])
  {
    var row, ax := RowOf(dk, c.key), Applied(dk, rows, Data(p));
    MergedApplies(dk, rows, p, c);
    SetCommutes(dk, ax, b, row, ax[row] + c.value.value);
    ReplayOne(dk, ax, b, Data(c));
  }

  /** Folding an update into the latest message of its key is the same as appending it. */
  lemma MergeReplays(dk: string, rows: map<string, Value>, h: Held, c: Change)
    requires Sound(h) && Merges(h, c) && Avoids(dk, h.msgs[h.latest[c.key] + 1..], RowOf(dk, c.key))
    ensures Replay(dk, rows, Folded(h, c).msgs) == Replay(dk, rows, h.msgs + [Data(c)])
  {
    var i := h.latest[c.key];
    var a, x, b := h.msgs[..i], h.msgs[i], h.msgs[i + 1..];
    var y := Data(Merged(x.c, c));
    assert h.msgs + [Data(c)] == (a + [x]) + (b + [Data(c)]);
    assert Folded(h, c).msgs == (a + [y]) + b;
    hide Applied, Folded, Replay;
    ReplayConcat(dk, rows, a + [x], b + [Data(c)]);
    ReplayConcat(dk, rows, a + [y], b);
    ReplayOne(dk, rows, a, x);
    ReplayOne(dk, rows, a, y);
    if Replay(dk, rows, a).Some? {
      MovesUp(dk, Replay(dk, rows, a).value, x.c, b, c);
    }
  }

  /** The held messages name no key the input does not. */
  lemma {:induction false} HeldKeys(ms: seq<Msg>, k: RowKey)
    ensures Touches(Absorbed(ms).msgs, k) ==> Touches(ms, k)
  {
    if ms != [] {
      var init, m := ms[..|ms| - 1], ms[|ms| - 1];
      HeldKeys(init, k);
      var h, g := Absorbed(init), Absorbed(ms);
      if j :| 0 <= j < |g.msgs| && g.msgs[j].Data? && g.msgs[j].c.key == k {
        if j < |h.msgs| {
          assert h.msgs[j].Data? && h.msgs[j].c.key == k;
          var n :| 0 <= n < |init| && init[n].Data? && init[n].c.key == k;
          assert ms[n].Data? && ms[n].c.key == k;
        } else {
          assert ms[|init|].Data? && ms[|init|].c.key == k;
        }
      }
    }
  }

  /** Absorbing one more message. */
  lemma AbsorbedStep(ms: seq<Msg>, m: Msg)
    ensures var h := Absorbed(ms);
            Absorbed(ms + [m]) == if m == UP_TO_DATE then h
                                  else if m.Data? then Folded(h, m.c)
                                  else h.(msgs := h.msgs + [m])
  {
    assert (ms + [m])[..|ms|] == ms;
  }

  lemma KeysApartInit(dk: string, ms: seq<Msg>, m: Msg)
    requires KeysApart(dk, ms + [m])
    ensures KeysApart(dk, ms)
  {
    forall k | Touches(ms, k) ensures Touches(ms + [m], k) {
      var n :| 0 <= n < |ms| && ms[n].Data? && ms[n].c.key == k;
      assert (ms + [m])[n] == ms[n];
    }
  }

  /** What is held after the message to fold into concerns other rows. */
  lemma TailAvoids(dk: string, ms: seq<Msg>, c: Change)
    requires KeysApart(dk, ms + [Data(c)]) && Merges(Absorbed(ms), c)
    ensures var h := Absorbed(ms); Avoids(dk, h.msgs[h.latest[c.key] + 1..], RowOf(dk, c.key))
  {
    var h := Absorbed(ms);
    hide Absorbed;
    var i, all := h.latest[c.key], ms + [Data(c)];
    var b := h.msgs[i + 1..];
    forall j | 0 <= j < |b| && b[j].Data? ensures RowOf(dk, b[j].c.key) != RowOf(dk, c.key) {
      assert h.msgs[i + 1 + j] == b[j];
      assert Touches(h.msgs, b[j].c.key);
      HeldKeys(ms, b[j].c.key);
      var n :| 0 <= n < |ms| && ms[n].Data? && ms[n].c.key == b[j].c.key;
      assert all[n] == ms[n] && all[|ms|] == Data(c);
      assert Touches(all, b[j].c.key) && Touches(all, c.key);
    }
  }

  /** One more message, merged into a held one or held itself. */
  lemma FoldingStep(dk: string, rows: map<string, Value>, ms: seq<Msg>, m: Msg)
    requires KeysApart(dk, ms + [m]) && Replay(dk, rows, Absorbed(ms).msgs) == Replay(dk, rows, ms)
    ensures Replay(dk, rows, Absorbed(ms + [m]).msgs) == Replay(dk, rows, ms + [m])
  {
    AbsorbedStep(ms, m);
    var h := Absorbed(ms);
    hide Absorbed, Replay, Applied;
    if m.Data? && Merges(h, m.c) {
      TailAvoids(dk, ms, m.c);
      MergeReplays(dk, rows, h, m.c);
    } else {
      assert m != UP_TO_DATE ==> Absorbed(ms + [m]).msgs == h.msgs + [m];
    }
    hide Folded, Merges, KeysApart;
    ReplayOne(dk, rows, h.msgs, m);
    ReplayOne(dk, rows, ms, m);
    MarkChangesNothing(dk, if Replay(dk, rows, ms).Some? then Replay(dk, rows, ms).value else map[]);
  }

  /** For any starting rows, the folded messages replay to what the originals do. */
  lemma {:induction false} FoldingKeepsMeaning(dk: string, rows: map<string, Value>, ms: seq<Msg>)
    requires KeysApart(dk, ms)
    ensures Replay(dk, rows, Absorbed(ms).msgs) == Replay(dk, rows, ms)
  {
    if ms != [] {
      hide Absorbed, Replay, KeysApart;
      var init, m := ms[..|ms| - 1], ms[|ms| - 1];
      assert ms == init + [m];
      KeysApartInit(dk, init, m);
      FoldingKeepsMeaning(dk, rows, init);
      FoldingStep(dk, rows, init, m);
    }
  }

  lemma MarkChangesNothing(dk: string, rows: map<string, Value>)
    ensures Applied(dk, rows, UP_TO_DATE) == rows && UP_TO_DATE != MUST_REFETCH
  {
    assert UP_TO_DATE.name[0] != MUST_REFETCH.name[0];
  }

  /** And it needs the keys apart: whenever two different keys name one row -- a missing
      key and the default one, say -- there is a log over just those two whose folding
      changes the row, because an update is moved up past the other key's. */
  lemma MixedKeysReorder(dk: string, a: RowKey, b: RowKey) returns (ms: seq<Msg>)
    requires a != b && RowOf(dk, a) == RowOf(dk, b)
    ensures forall k :: Touches(ms, k) ==> k == a || k == b
    ensures Replay(dk, map[], Absorbed(ms).msgs) != Replay(dk, map[], ms)
  {
    var p, u, c := Change(a, Insert, Some(map["v" := "1"])),
                   Change(b, Update, Some(map["v" := "2"])),
                   Change(a, Update, Some(map["v" := "3"]));
    ms := [Data(p), Data(u), Data(c)];
    MixedHeld(p, u, c);
    MixedReplay(dk, p, u, c, Merged(p, c));
  }

  lemma MixedHeld(p: Change, u: Change, c: Change)
    requires p.key != u.key && p.op == Insert && p.value.Some?
    requires u.op == Update && u.value.Some?
    requires c.key == p.key && c.op == Update && c.value == Some(map["v" := "3"])
    ensures Absorbed([Data(p), Data(u), Data(c)]).msgs == [Data(Merged(p, c)), Data(u)]
  {
    assert !IsTransition(c) by {
      assert c.value.value.Keys == {"v"};
      assert forall t :: t in TRANSITION_COLUMNS ==> |t| > 1;
      assert |"v"| == 1;
    }
    hide IsTransition;
    var h0: Held := Held([], map[]);
    var h1 := Held([Data(p)], h0.latest[p.key := 0]);
    var h2 := Held([Data(p), Data(u)], h1.latest[u.key := 1]);
    assert Absorbed([]) == h0;
    assert [] + [Data(p)] == [Data(p)] && [Data(p)] + [Data(u)] == [Data(p), Data(u)];
    assert [Data(p), Data(u)] + [Data(c)] == [Data(p), Data(u), Data(c)];
    hide Absorbed;
    AbsorbedStep([], Data(p));
    assert Folded(h0, p) == h1;
    AbsorbedStep([Data(p)], Data(u));
    assert Folded(h1, u) == h2;
    AbsorbedStep([Data(p), Data(u)], Data(c));
    assert h2.latest[p.key] == 0 && h2.msgs[0] == Data(p);
  }

  lemma MixedReplay(dk: string, p: Change, u: Change, c: Change, q: Change)
    requires p.op == Insert && p.value == Some(map["v" := "1"])
    requires u.op == Update && u.value == Some(map["v" := "2"])
    requires c.op == Update && c.value == Some(map["v" := "3"]) && q == Merged(p, c)
    requires RowOf(dk, p.key) == RowOf(dk, u.key) == RowOf(dk, c.key)
    ensures Replay(dk, map[], [Data(q), Data(u)]) != Replay(dk, map[], [Data(p), Data(u), Data(c)])
  {
    var row := RowOf(dk, p.key);
    var rows: map<string, Value> := map[];
    var s1 := Applied(dk, rows, Data(q));
    var r1 := Applied(dk, s1, Data(u));
    var t1 := Applied(dk, rows, Data(p));
    var t2 := Applied(dk, t1, Data(u));
    var r2 := Applied(dk, t2, Data(c));
    assert row in s1 && row in t1 && row in t2;
    assert r1[row] == s1[row] + u.value.value && r2[row] == t2[row] + c.value.value;
    assert r1[row]["v"] == "2" && r2[row]["v"] == "3";
    hide Applied;
    ReplayTwo(dk, rows, q, u);
    ReplayTwo(dk, rows, p, u);
    assert [Data(p), Data(u)] + [Data(c)] == [Data(p), Data(u), Data(c)];
    ReplayOne(dk, rows, [Data(p), Data(u)], Data(c));
  }

  lemma ReplayTwo(dk: string, rows: map<string, Value>, p: Change, u: Change)
    ensures Replay(dk, rows, [Data(p), Data(u)])
            == Some(Applied(dk, Applied(dk, rows, Data(p)), Data(u)))
  {
    hide Applied;
    assert [] + [Data(p)] == [Data(p)] && [Data(p)] + [Data(u)] == [Data(p), Data(u)];
    assert Replay(dk, rows, []) == Some(rows);
    ReplayOne(dk, rows, [], Data(p));
    ReplayOne(dk, rows, [Data(p)], Data(u));
  }

  // --- 2. transitions pass through, and nothing is lost count of -------------

  function Restrict(v: Option<Value>): Option<Value> {
    if v.None? then None else Some(map k | k in v.value && k in TRANSITION_COLUMNS :: v.value[k])
  }

  /** The transitions of a log, each with its key, operation and transition columns. */
  function Transitions(ms: seq<Msg>): seq<(RowKey, Op, Option<Value>)> {
    if ms == [] then []
    else
      var before, m := Transitions(ms[..|ms| - 1]), ms[|ms| - 1];
      if m.Data? && IsTransition(m.c) then before + [(m.c.key, m.c.op, Restrict(m.c.value))] else before
  }

  function Changes(ms: seq<Msg>): nat {
    if ms == [] then 0 else Changes(ms[..|ms| - 1]) + if ms[|ms| - 1].Data? then 1 else 0
  }

  lemma {:induction false} SameTransitions(ms: seq<Msg>, i: nat, d: Change)
    requires i < |ms| && ms[i].Data? && d.key == ms[i].c.key && d.op == ms[i].c.op
    requires IsTransition(d) == IsTransition(ms[i].c) && Restrict(d.value) == Restrict(ms[i].c.value)
    ensures Transitions(ms[i := Data(d)]) == Transitions(ms)
    ensures Changes(ms[i := Data(d)]) == Changes(ms)
  {
    var init := ms[..|ms| - 1];
    if i == |init| {
      assert ms[i := Data(d)][..|init|] == init;
    } else {
      SameTransitions(init, i, d);
      assert ms[i := Data(d)][..|init|] == init[i := Data(d)];
    }
  }

  ghost function MergedCount(ms: seq<Msg>): nat {
    if ms == [] then 0
    else MergedCount(ms[..|ms| - 1])
         + if ms[|ms| - 1].Data? && Merges(Absorbed(ms[..|ms| - 1]), ms[|ms| - 1].c) then 1 else 0
  }

  /** Folding an update into a message changes none of its transition columns. */
  lemma MergedTransition(p: Change, c: Change)
    requires p.value.Some? && !IsTransition(c)
    ensures IsTransition(Merged(p, c)) == IsTransition(p)
    ensures Restrict(Merged(p, c).value) == Restrict(p.value)
  {
    var d := Merged(p, c);
    forall k | k in c.value.value ensures k !in TRANSITION_COLUMNS {
      assert k in c.value.value.Keys * TRANSITION_COLUMNS <==> k in TRANSITION_COLUMNS;
    }
    assert d.value.value.Keys == p.value.value.Keys + c.value.value.Keys;
    assert d.value.value.Keys * TRANSITION_COLUMNS == p.value.value.Keys * TRANSITION_COLUMNS;
    assert Restrict(d.value).value == Restrict(p.value).value;
  }

  lemma TransitionsOne(ms: seq<Msg>, m: Msg)
    ensures Transitions(ms + [m]) == Transitions(ms) + (if m.Data? && IsTransition(m.c)
                                                        then [(m.c.key, m.c.op, Restrict(m.c.value))] else [])
    ensures Changes(ms + [m]) == Changes(ms) + if m.Data? then 1 else 0
  {
    assert (ms + [m])[..|ms|] == ms;
  }

  /** Folding delays, merges or drops no transition, and every change is either held
      or merged. */
  lemma {:induction false} TransitionsKept(ms: seq<Msg>)
    ensures Transitions(Absorbed(ms).msgs) == Transitions(ms)
    ensures Changes(Absorbed(ms).msgs) + MergedCount(ms) == Changes(ms)
  {
    if ms != [] {
      var init, m := ms[..|ms| - 1], ms[|ms| - 1];
      assert ms == init + [m];
      TransitionsKept(init);
      AbsorbedStep(init, m);
      TransitionsOne(init, m);
      var h := Absorbed(init);
      TransitionsOne(h.msgs, m);
      hide Absorbed, Transitions, Changes, IsTransition;
      if m.Data? && Merges(h, m.c) {
        var i := h.latest[m.c.key];
        MergedTransition(h.msgs[i].c, m.c);
        SameTransitions(h.msgs, i, Merged(h.msgs[i].c, m.c));
      }
    }
  }

  /** An update can be folded into the message: an insert or update with a value. */
  predicate Open(m: Msg) { m.Data? && m.c.op in {Insert, Update} && m.c.value.Some? }

  /** Messages `i` and `j` are neighbours among those of one key. */
  predicate Adjacent(ms: seq<Msg>, i: nat, j: nat) {
    i < j < |ms| && ms[i].Data? && ms[j].Data? && ms[i].c.key == ms[j].c.key
    && forall l :: i < l < j && ms[l].Data? ==> ms[l].c.key != ms[i].c.key
  }

  /** No value update follows a message it could have been folded into. */
  ghost predicate Tight(ms: seq<Msg>) {
    forall i: nat, j: nat :: Adjacent(ms, i, j) && Open(ms[i]) ==> IsTransition(ms[j].c)
  }

  /** The table names exactly the last messages that are open. */
  ghost predicate Tabled(h: Held) {
    forall i: nat :: i < |h.msgs| && Open(h.msgs[i]) && LastFor(h.msgs, h.msgs[i].c.key, i) ==>
      h.msgs[i].c.key in h.latest
  }

  lemma FoldStaysTight(h: Held, c: Change)
    requires Sound(h) && Tight(h.msgs) && Tabled(h)
    ensures Tight(Folded(h, c).msgs) && Tabled(Folded(h, c))
  {
    var g := Folded(h, c);
    if Merges(h, c) {
      var at := h.latest[c.key];
      MergedTransition(h.msgs[at].c, c);
      SameShape(h.msgs, at, Merged(h.msgs[at].c, c));
      hide IsTransition;
    } else {
      GrowTight(h, Data(c));
      hide IsTransition;
      assert forall i :: 0 <= i < |h.msgs| ==> g.msgs[i] == h.msgs[i];
    }
  }

  /** A message in its own place with the same key, operation and kind changes nothing here. */
  lemma SameShape(ms: seq<Msg>, at: nat, d: Change)
    requires at < |ms| && Open(ms[at]) && d.key == ms[at].c.key && d.op == ms[at].c.op && d.value.Some?
    requires IsTransition(d) == IsTransition(ms[at].c)
    ensures Tight(ms) ==> Tight(ms[at := Data(d)])
    ensures forall i: nat :: i < |ms| ==> Open(ms[at := Data(d)][i]) == Open(ms[i])
    ensures forall k, i :: LastFor(ms[at := Data(d)], k, i) == LastFor(ms, k, i)
  {
    hide IsTransition;
    var n := ms[at := Data(d)];
    assert forall i :: 0 <= i < |ms| ==> n[i].Data? == ms[i].Data? && (ms[i].Data? ==> n[i].c.key == ms[i].c.key);
    forall i: nat, j: nat ensures Adjacent(n, i, j) == Adjacent(ms, i, j) { }
  }

  lemma GrowTight(h: Held, m: Msg)
    requires Sound(h) && Tight(h.msgs) && Tabled(h)
    requires m.Data? ==> !Merges(h, m.c)
    ensures Tight(h.msgs + [m])
    ensures forall i: nat, k :: i < |h.msgs| && LastFor(h.msgs + [m], k, i) ==>
              LastFor(h.msgs, k, i) && !(m.Data? && m.c.key == k)
  {
    hide IsTransition;
    var n := h.msgs + [m];
    assert forall i :: 0 <= i < |h.msgs| ==> n[i] == h.msgs[i];
    forall i: nat, k | i < |h.msgs| && LastFor(n, k, i) ensures LastFor(h.msgs, k, i) && !(m.Data? && m.c.key == k) {
      assert n[|h.msgs|] == m;
      forall j | i < j < |h.msgs| && h.msgs[j].Data? ensures h.msgs[j].c.key != k { assert n[j] == h.msgs[j]; }
    }
    forall i: nat, j: nat | Adjacent(n, i, j) && Open(n[i]) ensures IsTransition(n[j].c) {
      if j < |h.msgs| {
        assert Adjacent(h.msgs, i, j);
      } else {
        assert LastFor(h.msgs, m.c.key, i);
      }
    }
  }

  /** Whatever can be folded is folded: in what is held, no value update follows an insert or
      update of its key that nothing of that key stands between. */
  lemma {:induction false} FoldsAllItCan(ms: seq<Msg>)
    ensures Tight(Absorbed(ms).msgs) && Tabled(Absorbed(ms))
  {
    if ms != [] {
      var init, m := ms[..|ms| - 1], ms[|ms| - 1];
      FoldsAllItCan(init);
      assert ms == init + [m];
      AbsorbedStep(init, m);
      var h := Absorbed(init);
      if m.Data? { FoldStaysTight(h, m.c); } else { GrowTight(h, m); }
      hide Absorbed, Folded, IsTransition, Tight;
    }
  }

  // --- 3. the code: aliased messages folded in place -------------------------

  /** A parsed change message; the fold writes into `value` of one already held. */
  class Message {
    const key: RowKey
    const op: Op
    var value: Option<Value>

    constructor (c: Change)
      ensures AsChange() == c
    {
      key, op, value := c.key, c.op, c.value;
    }

    function AsChange(): Change
      reads this
    {
      Change(key, op, value)
    }
  }

  datatype Item = Parsed(m: Message) | Kept(other: Msg)

  /** One answer being gathered: the messages held, and for each key the held message
      (the same object) that may still absorb an update. `model` is what they amount to. */
  class Window {
    var held: seq<Item>
    var latest: map<RowKey, Message>
    ghost var objects: set<Message>
    ghost var model: Held

    ghost predicate Shows(i: nat)
      requires i < |held| && i < |model.msgs|
      reads this, objects
    {
      match held[i]
      case Parsed(m) => m in objects && model.msgs[i] == Data(m.AsChange())
      case Kept(o) => model.msgs[i] == o && !o.Data?
    }

    ghost predicate Valid()
      reads this, objects
    {
      && |held| == |model.msgs|
      && (forall i :: 0 <= i < |held| ==> Shows(i))
      && (forall i, j :: 0 <= i < j < |held| && held[i].Parsed? && held[j].Parsed? ==> held[i].m != held[j].m)
      && Sound(model)
      && latest.Keys == model.latest.Keys
      && (forall k :: k in latest ==> held[model.latest[k]] == Parsed(latest[k]))
    }

    constructor ()
      ensures Valid() && model == Held([], map[]) && objects == {}
    {
      held, latest, objects, model := [], map[], {}, Held([], map[]);
    }

    /** Append `msg`, or fold a value update into the latest earlier message of its
        key. True when it was folded. */
    method Fold(msg: Message) returns (folded: bool)
      requires Valid() && msg !in objects
      modifies this, objects
      ensures Valid()
      ensures model == Folded(old(model), old(msg.AsChange()))
      ensures folded <==> Merges(old(model), old(msg.AsChange()))
      ensures objects == old(objects) + {msg}
    {
      folded := msg.key in latest && !IsTransition(msg.AsChange());
      if folded { Absorb(msg); } else { Append(msg); }
    }

    method Absorb(msg: Message)
      requires Valid() && msg !in objects && Merges(model, msg.AsChange())
      modifies this, objects
      ensures Valid() && model == Folded(old(model), old(msg.AsChange()))
      ensures objects == old(objects) + {msg}
    {
      hide IsTransition;
      ghost var c, i := msg.AsChange(), model.latest[msg.key];
      FoldedSound(model, c);
      HeldHasValue(model, msg.key);
      UpdatesHaveValues(c);
      assert Shows(i);
      var prior := latest[msg.key];
      prior.value := Some(prior.value.value + msg.value.value);
      objects := objects + {msg};
      model := Folded(model, c);
      forall j | 0 <= j < |held| ensures Shows(j) {
        assert old(Shows(j));
      }
    }

    method Append(msg: Message)
      requires Valid() && msg !in objects && !Merges(model, msg.AsChange())
      modifies this
      ensures Valid() && model == Folded(old(model), msg.AsChange())
      ensures objects == old(objects) + {msg}
    {
      hide IsTransition, Sound;
      FoldedSound(model, msg.AsChange());
      LatestInHeld(model);
      ghost var was := |held|;
      forall j | 0 <= j < was && held[j].Parsed? ensures held[j].m != msg {
        assert Shows(j);
      }
      held := held + [Parsed(msg)];
      latest := if msg.op in {Insert, Update} && msg.value.Some? then latest[msg.key := msg]
                else latest - {msg.key};
      model := Folded(model, msg.AsChange());
      objects := objects + {msg};
      forall j | 0 <= j < |held| ensures Shows(j) {
        if j < was { assert old(Shows(j)); }
      }
      LatestInHeld(model);
      forall k | k in latest ensures held[model.latest[k]] == Parsed(latest[k]) {
        assert k != msg.key ==> k in old(latest);
      }
    }

    /** Hold a control or a non-object as it is. */
    method Keep(other: Msg)
      requires Valid() && !other.Data?
      modifies this
      ensures Valid() && objects == old(objects)
      ensures model == old(model).(msgs := old(model).msgs + [other])
    {
      FoldedSound(model, Change(None, Other, None));
      ghost var was := |held|;
      held := held + [Kept(other)];
      model := model.(msgs := model.msgs + [other]);
      assert forall i :: 0 <= i < was ==> old(Shows(i)) && Shows(i);
      assert Shows(was);
    }

    /** The held messages as they go into the answer's body. */
    method Body() returns (ms: seq<Msg>)
      requires Valid()
      ensures ms == model.msgs
    {
      ms := [];
      for i := 0 to |held|
        invariant ms == model.msgs[..i]
      {
        assert Shows(i);
        ms := ms + [match held[i] case Parsed(m) => Data(m.AsChange()) case Kept(o) => o];
      }
    }
  }

  lemma UpdatesHaveValues(c: Change)
    requires !IsTransition(c)
    ensures c.op == Update && c.value.Some?
  {
  }

  lemma LatestInHeld(h: Held)
    requires Sound(h)
    ensures forall k :: k in h.latest ==> h.latest[k] < |h.msgs|
  {
  }

  lemma HeldHasValue(h: Held, k: RowKey)
    requires Sound(h) && k in h.latest
    ensures h.latest[k] < |h.msgs| && h.msgs[h.latest[k]].Data? && h.msgs[h.latest[k]].c.value.Some?
  {
  }
}
