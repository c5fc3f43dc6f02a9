/** Gathering one screen answer: poll upstream from the client's offset, fold what
    comes, and hand back the messages with the offset they reach. */
module ScreenCollect {
  import opened Options
  import opened Screen

  /** One upstream answer. A batch ends at offset `next` of the shape log. */
  datatype Answer = Batch(msgs: seq<Msg>, next: nat) | TimedOut | Conflict | Failed

  datatype Collected =
    | Flush(next: nat, body: seq<Msg>, transitions: nat, values: nat, merged: nat)
    | Refetch
    | Raised

  /** A batch without its up-to-date marks. */
  function Strip(ms: seq<Msg>): seq<Msg> {
    if ms == [] then []
    else if ms[|ms| - 1] == UP_TO_DATE then Strip(ms[..|ms| - 1])
    else Strip(ms[..|ms| - 1]) + [ms[|ms| - 1]]
  }

  lemma {:induction false} StripConcat(a: seq<Msg>, b: seq<Msg>)
    ensures Strip(a + b) == Strip(a) + Strip(b)
  {
    if b == [] {
      assert a + b == a;
    } else {
      StripConcat(a, b[..|b| - 1]);
      assert (a + b)[..|a + b| - 1] == a + b[..|b| - 1];
    }
  }

  lemma {:induction false} StripNothing(ms: seq<Msg>)
    requires UP_TO_DATE !in ms
    ensures Strip(ms) == ms
  {
    if ms != [] {
      StripNothing(ms[..|ms| - 1]);
      assert ms == ms[..|ms| - 1] + [ms[|ms| - 1]];
    }
  }

  lemma MergedStep(ms: seq<Msg>, m: Msg)
    ensures MergedCount(ms + [m]) == MergedCount(ms) + if m.Data? && Merges(Absorbed(ms), m.c) then 1 else 0
  {
    hide Absorbed;
    assert (ms + [m])[..|ms|] == ms;
  }

  /** Up-to-date marks leave no trace in what is held, merged or passed on. */
  lemma {:induction false} MarksLeaveNoTrace(ms: seq<Msg>)
    ensures Absorbed(ms) == Absorbed(Strip(ms)) && MergedCount(ms) == MergedCount(Strip(ms))
    ensures Transitions(ms) == Transitions(Strip(ms)) && Changes(ms) == Changes(Strip(ms))
  {
    if ms != [] {
      var init, m := ms[..|ms| - 1], ms[|ms| - 1];
      MarksLeaveNoTrace(init);
      assert ms == init + [m];
      AbsorbedStep(init, m);
      AbsorbedStep(Strip(init), m);
      MergedStep(init, m);
      MergedStep(Strip(init), m);
      TransitionsOne(init, m);
      TransitionsOne(Strip(init), m);
      assert Strip(ms) == if m == UP_TO_DATE then Strip(init) else Strip(init) + [m];
      hide Absorbed, MergedCount, Transitions, Changes, Strip, Folded, Merges;
    }
  }

  /** What releases the held messages at once: a transition, a control other than
      up-to-date, or something that is not an object. */
  predicate Urgent(m: Msg) {
    m != UP_TO_DATE && (m.Data? ==> IsTransition(m.c))
  }

  ghost predicate Calm(ms: seq<Msg>) {
    forall i :: 0 <= i < |ms| ==> !Urgent(ms[i])
  }

  /** Held messages wait on exactly as long as nothing comes but marks and updates of
      columns other than these four. */
  lemma CalmExactly(ms: seq<Msg>)
    ensures Calm(ms) <==>
              forall i :: 0 <= i < |ms| ==>
                ms[i] == Control("up-to-date")
                || (ms[i].Data? && ms[i].c.op == Update && ms[i].c.value.Some?
                    && var v := ms[i].c.value.value;
                       "tx_active" !in v && "rx_active" !in v && "moved_by" !in v && "health_band" !in v)
  {
    forall i | 0 <= i < |ms| && ms[i].Data? && ms[i].c.value.Some?
      ensures var v := ms[i].c.value.value;
              v.Keys * TRANSITION_COLUMNS == {} <==>
                "tx_active" !in v && "rx_active" !in v && "moved_by" !in v && "health_band" !in v
    {
      var v := ms[i].c.value.value;
      if k :| k in v.Keys * TRANSITION_COLUMNS { assert k in TRANSITION_COLUMNS; }
      assert forall k :: k in TRANSITION_COLUMNS && k in v ==> k in v.Keys * TRANSITION_COLUMNS;
    }
  }

  /** The answer's body for a stretch of the log. */
  ghost predicate BodyOf(stretch: seq<Msg>, body: seq<Msg>) {
    body == Absorbed(stretch).msgs || body == Absorbed(stretch).msgs + [UP_TO_DATE]
  }

  /** Every body of a stretch replays, over any rows, to what the stretch itself does,
      and passes on its transitions. */
  lemma BodyMeans(dk: string, rows: map<string, Value>, stretch: seq<Msg>, body: seq<Msg>)
    requires BodyOf(stretch, body)
    ensures KeysApart(dk, stretch) ==> Replay(dk, rows, body) == Replay(dk, rows, stretch)
    ensures Transitions(body) == Transitions(stretch)
  {
    var held := Absorbed(stretch).msgs;
    if KeysApart(dk, stretch) { FoldingKeepsMeaning(dk, rows, stretch); }
    TransitionsKept(stretch);
    hide Absorbed, Replay;
    TransitionsOne(held, UP_TO_DATE);
    ReplayOne(dk, rows, held, UP_TO_DATE);
    if Replay(dk, rows, held).Some? { MarkChangesNothing(dk, Replay(dk, rows, held).value); }
    MarkChangesNothing(dk, rows);
  }

  /** One read: from which offset, what came, and when it was over. */
  datatype Taken = Taken(from: nat, answer: Answer, at: int)

  /** The shape log behind the upstream, read from an offset on; a read takes time. `taken`
      is every read so far, written by `Read` alone. */
  class Upstream {
    const log: seq<Msg>
    var now: int
    ghost var taken: seq<Taken>

    constructor (log: seq<Msg>)
      ensures this.log == log && taken == []
    {
      this.log, taken := log, [];
    }

    method Read(offset: nat) returns (a: Answer)
      requires offset <= |log| && UP_TO_DATE !in log
      modifies this
      ensures now > old(now) && taken == old(taken) + [Taken(offset, a, now)]
      ensures a.Batch? ==> offset <= a.next <= |log| && Strip(a.msgs) == log[offset..a.next]
    {
      var spent: nat :| spent > 0;
      now := now + spent;
      var next: nat :| offset <= next <= |log|;
      var marked: bool := *;
      var ok: bool := *;
      StripNothing(log[offset..next]);
      StripConcat(log[offset..next], [UP_TO_DATE]);
      assert [UP_TO_DATE][..0] == [];
      if ok {
        a := Batch(if marked then log[offset..next] + [UP_TO_DATE] else log[offset..next], next);
      } else {
        a :| a in {TimedOut, Conflict, Failed};
      }
      taken := taken + [Taken(offset, a, now)];
    }
  }

  /** Fold one batch into the window. */
  method TakeBatch(w: Window, ms: seq<Msg>, ghost seen: seq<Msg>)
    returns (upToDate: bool, urgent: bool, merged: nat)
    requires w.Valid() && w.model == Absorbed(seen)
    modifies w, w.objects
    ensures w.Valid() && w.model == Absorbed(seen + ms)
    ensures fresh(w.objects - old(w.objects))
    ensures urgent <==> !Calm(ms)
    ensures upToDate <==> UP_TO_DATE in ms
    ensures merged == MergedCount(seen + ms) - MergedCount(seen)
  {
    hide Absorbed, MergedCount, Folded, IsTransition, Calm;
    assert Calm(ms[..0]) by { CalmNothing(); }
    upToDate, urgent, merged := false, false, 0;
    assert seen + ms[..0] == seen;
    for i := 0 to |ms|
      invariant w.Valid() && w.model == Absorbed(seen + ms[..i])
      invariant fresh(w.objects - old(w.objects))
      invariant urgent <==> !Calm(ms[..i])
      invariant upToDate <==> UP_TO_DATE in ms[..i]
      invariant merged == MergedCount(seen + ms[..i]) - MergedCount(seen)
    {
      var m := ms[i];
      AbsorbedStep(seen + ms[..i], m);
      assert (seen + ms[..i]) + [m] == seen + ms[..i + 1];
      MergedStep(seen + ms[..i], m);
      assert ms[..i + 1] == ms[..i] + [m];
      CalmOne(ms[..i], m);
      if m == UP_TO_DATE {
        upToDate := true;
      } else if !m.Data? {
        w.Keep(m);
        urgent := true;
      } else {
        if IsTransition(m.c) { urgent := true; }
        var msg := new Message(m.c);
        var folded := w.Fold(msg);
        if folded { merged := merged + 1; }
      }
    }
    assert ms[..|ms|] == ms;
  }

  /** The offset some reads reached: the end of the last batch among them. */
  function Reached(rs: seq<Taken>, client: nat): nat {
    if rs == [] then client
    else if rs[|rs| - 1].answer.Batch? then rs[|rs| - 1].answer.next
    else Reached(rs[..|rs| - 1], client)
  }

  /** Whether the last batch among some reads carried the up-to-date mark. */
  function Marked(rs: seq<Taken>): bool {
    if rs == [] then false
    else if rs[|rs| - 1].answer.Batch? then UP_TO_DATE in rs[|rs| - 1].answer.msgs
    else Marked(rs[..|rs| - 1])
  }

  /** The reads are one after the other through the log. */
  ghost predicate Chained(log: seq<Msg>, client: nat, rs: seq<Taken>) {
    forall i :: 0 <= i < |rs| ==>
      rs[i].from == Reached(rs[..i], client)
      && (rs[i].answer.Batch? ==> client <= rs[i].from <= rs[i].answer.next <= |log|
                                  && Strip(rs[i].answer.msgs) == log[rs[i].from..rs[i].answer.next])
  }

  /** A read after which there is another: a batch with nothing urgent in it, something is
      held, and the window has not run. */
  ghost predicate GoesOn(log: seq<Msg>, client: nat, deadline: int, r: Taken) {
    && r.answer.Batch? && Calm(r.answer.msgs) && r.at < deadline
    && client <= r.answer.next <= |log| && Absorbed(log[client..r.answer.next]).msgs != []
  }

  /** The reads of one call: all but the last go on, the last does not. */
  ghost predicate Polled(log: seq<Msg>, client: nat, deadline: int, rs: seq<Taken>) {
    && rs != [] && Chained(log, client, rs)
    && (forall i :: 0 <= i < |rs| - 1 ==> GoesOn(log, client, deadline, rs[i]))
    && !GoesOn(log, client, deadline, rs[|rs| - 1])
  }

  /** What a call answers after its reads. A conflict asks for a refetch; a failure is
      raised, and so is a timeout of the first read, when nothing is held; otherwise what is
      held is flushed: the fold of exactly the log from the client's offset to the offset
      reached, with the up-to-date mark of the last batch. */
  ghost predicate Answers(log: seq<Msg>, client: nat, rs: seq<Taken>, got: Collected)
    requires rs != []
  {
    match rs[|rs| - 1].answer
    case Conflict => got == Refetch
    case Failed => got == Raised
    case _ =>
      if rs[|rs| - 1].answer.TimedOut? && |rs| == 1 then got == Raised
      else
        var next := Reached(rs, client);
        && got.Flush? && got.next == next && client <= next <= |log|
        && got.body == Absorbed(log[client..next]).msgs + (if Marked(rs) then [UP_TO_DATE] else [])
        && got.transitions == |Transitions(log[client..next])|
        && got.transitions + got.values + got.merged == Changes(log[client..next])
  }

  lemma ReachedMore(rs: seq<Taken>, r: Taken, client: nat)
    ensures Reached(rs + [r], client) == if r.answer.Batch? then r.answer.next else Reached(rs, client)
    ensures Marked(rs + [r]) == if r.answer.Batch? then UP_TO_DATE in r.answer.msgs else Marked(rs)
  {
    assert (rs + [r])[..|rs|] == rs;
  }

  lemma ChainedMore(log: seq<Msg>, client: nat, rs: seq<Taken>, r: Taken)
    requires Chained(log, client, rs) && r.from == Reached(rs, client)
    requires r.answer.Batch? ==> client <= r.from <= r.answer.next <= |log|
                                 && Strip(r.answer.msgs) == log[r.from..r.answer.next]
    ensures Chained(log, client, rs + [r])
  {
    hide Reached, Strip;
    forall i | 0 <= i < |rs + [r]| ensures (rs + [r])[..i] == if i < |rs| then rs[..i] else rs {}
  }

  lemma CollectStart(log: seq<Msg>, client: nat)
    requires client <= |log|
    ensures Strip([]) == log[client..client] && MergedCount([]) == 0 && Absorbed([]) == Held([], map[])
    ensures Reached([], client) == client && !Marked([]) && Chained(log, client, [])
  {
  }

  /** Everything the loop holds stands for the log it has read. */
  ghost predicate Gathered(log: seq<Msg>, client: nat, rs: seq<Taken>, seen: seq<Msg>, offset: nat, merged: int) {
    && Chained(log, client, rs) && offset == Reached(rs, client)
    && client <= offset <= |log| && Strip(seen) == log[client..offset]
    && merged == MergedCount(seen)
  }

  lemma GatherMore(log: seq<Msg>, client: nat, rs: seq<Taken>, seen: seq<Msg>, offset: nat, merged: int,
                   ms: seq<Msg>, next: nat, at: int)
    requires Gathered(log, client, rs, seen, offset, merged)
    requires offset <= next <= |log| && Strip(ms) == log[offset..next]
    ensures Gathered(log, client, rs + [Taken(offset, Batch(ms, next), at)], seen + ms, next, MergedCount(seen + ms))
    ensures Absorbed(seen + ms) == Absorbed(log[client..next])
  {
    hide Absorbed, MergedCount, Strip, Reached, Chained;
    var r := Taken(offset, Batch(ms, next), at);
    ReachedMore(rs, r, client);
    ChainedMore(log, client, rs, r);
    StripConcat(seen, ms);
    assert log[client..offset] + log[offset..next] == log[client..next];
    MarksLeaveNoTrace(seen + ms);
  }

  /** One more read is the last one, or there is another. */
  lemma ReadMore(log: seq<Msg>, client: nat, deadline: int, before: seq<Taken>, r: Taken)
    requires Chained(log, client, before) && r.from == Reached(before, client)
    requires r.answer.Batch? ==> client <= r.from <= r.answer.next <= |log|
                                 && Strip(r.answer.msgs) == log[r.from..r.answer.next]
    requires forall x :: x in before ==> GoesOn(log, client, deadline, x)
    ensures !GoesOn(log, client, deadline, r) ==> Polled(log, client, deadline, before + [r])
    ensures GoesOn(log, client, deadline, r) ==> forall x :: x in before + [r] ==> GoesOn(log, client, deadline, x)
    ensures Reached(before + [r], client) == if r.answer.Batch? then r.answer.next else Reached(before, client)
    ensures Marked(before + [r]) == if r.answer.Batch? then UP_TO_DATE in r.answer.msgs else Marked(before)
  {
    ReachedMore(before, r, client);
    ChainedMore(log, client, before, r);
    hide Chained, GoesOn, Reached, Marked, Strip;
  }

  /** What goes on after a batch is what the loop tests. */
  lemma Tested(log: seq<Msg>, client: nat, deadline: int, r: Taken, w: Held)
    requires r.answer.Batch? && client <= r.answer.next <= |log| && w == Absorbed(log[client..r.answer.next])
    ensures GoesOn(log, client, deadline, r) <==> Calm(r.answer.msgs) && w.msgs != [] && r.at < deadline
  {
  }

  /** Poll until something urgent came, nothing is held, or the window has run. What is
      flushed stands for exactly the log from the client's offset to the offset handed
      back; a timeout with messages held flushes them; any other failure hands back
      nothing, so the client re-reads from its own offset. */
  method Collect(up: Upstream, client: nat, last: Option<int>, window: nat) returns (got: Collected)
    requires client <= |up.log| && UP_TO_DATE !in up.log
    modifies up
    ensures old(up.taken) < up.taken
    ensures Polled(up.log, client, (if last.Some? then last.value else old(up.now)) + window,
                   up.taken[|old(up.taken)|..])
    ensures Answers(up.log, client, up.taken[|old(up.taken)|..], got)
  {
    hide Absorbed, MergedCount, Strip, Transitions, Changes, Sound, Calm, Urgent, Chained, Reached, Marked, GoesOn,
      Polled;
    CollectStart(up.log, client);
    var deadline := (if last.Some? then last.value else up.now) + window;
    var w := new Window();
    var offset, merged, upToDate, done := client, 0, false, false;
    ghost var seen: seq<Msg>, rs: seq<Taken>, read: seq<Taken> := [], [], [];
    assert up.taken + rs == up.taken;
    while !done
      invariant w.Valid() && fresh(w) && fresh(w.objects) && w.model == Absorbed(seen)
      invariant up.taken == old(up.taken) + rs
      invariant Gathered(up.log, client, read, seen, offset, merged) && upToDate == Marked(read)
      invariant |w.held| > 0 ==> read != []
      invariant !done ==> rs == read && forall x :: x in rs ==> GoesOn(up.log, client, deadline, x)
      invariant done ==> Polled(up.log, client, deadline, rs) && rs != []
                         && (rs == read || (read != [] && rs == read + [rs[|rs| - 1]] && rs[|rs| - 1].answer.TimedOut?))
      invariant done && rs == read ==> rs[|rs| - 1].answer.Batch?
      decreases !done, deadline - up.now
    {
      var a := up.Read(offset);
      ghost var r := Taken(offset, a, up.now);
      ReadMore(up.log, client, deadline, rs, r);
      ghost var more := rs + [r];
      assert more[|more| - 1] == r && up.taken[|old(up.taken)|..] == more;
      match a
      case Conflict =>
        NotABatch(up.log, client, deadline, r);
        return Refetch;
      case Failed =>
        NotABatch(up.log, client, deadline, r);
        return Raised;
      case TimedOut =>
        NotABatch(up.log, client, deadline, r);
        if rs != [] { HeldUnlessFirst(up.log, client, deadline, rs, seen, offset, merged); }
        if |w.held| == 0 { return Raised; }
        rs, done := more, true;
      case Batch(ms, next) =>
        var urgent, folded;
        upToDate, urgent, folded := TakeBatch(w, ms, seen);
        GatherMore(up.log, client, rs, seen, offset, merged, ms, next, up.now);
        merged := merged + folded;
        seen, offset, rs := seen + ms, next, more;
        read := rs;
        Tested(up.log, client, deadline, r, w.model);
        if urgent || |w.held| == 0 || up.now >= deadline { done := true; }
    }
    MarksLeaveNoTrace(seen);
    var body := w.Body();
    var transitions, values := Count(body);
    TransitionsKept(up.log[client..offset]);
    got := Flush(offset, if upToDate then body + [UP_TO_DATE] else body, transitions, values, merged);
    if rs != read { ReachedMore(read, rs[|rs| - 1], client); }
    assert up.taken[|old(up.taken)|..] == rs;
  }

  lemma NotABatch(log: seq<Msg>, client: nat, deadline: int, r: Taken)
    requires !r.answer.Batch?
    ensures !GoesOn(log, client, deadline, r)
  {
  }

  /** Nothing is held only before the first batch: every batch read on left something. */
  lemma HeldUnlessFirst(log: seq<Msg>, client: nat, deadline: int, rs: seq<Taken>, seen: seq<Msg>, offset: nat,
                        merged: int)
    requires Gathered(log, client, rs, seen, offset, merged) && rs != []
    requires forall x :: x in rs ==> GoesOn(log, client, deadline, x)
    ensures Absorbed(seen).msgs != []
  {
    MarksLeaveNoTrace(seen);
    assert rs[|rs| - 1] in rs;
    hide Absorbed, Strip, MergedCount, Calm;
  }

  /** What a flushed answer is worth to its reader: over any rows it replays to what the
      stretch of the log does, and passes its transitions on. */
  lemma FlushMeans(log: seq<Msg>, client: nat, rs: seq<Taken>, got: Collected, dk: string, rows: map<string, Value>)
    requires rs != [] && Answers(log, client, rs, got) && got.Flush?
    ensures client <= got.next <= |log|
    ensures KeysApart(dk, log[client..got.next]) ==>
              Replay(dk, rows, got.body) == Replay(dk, rows, log[client..got.next])
    ensures Transitions(got.body) == Transitions(log[client..got.next])
  {
    hide Absorbed, Replay, Transitions, KeysApart, Changes;
    var stretch := log[client..got.next];
    assert Absorbed(stretch).msgs + [] == Absorbed(stretch).msgs;
    BodyMeans(dk, rows, stretch, got.body);
  }

  lemma CalmNothing()
    ensures Calm([])
  {
  }

  lemma CalmOne(x: seq<Msg>, y: Msg)
    ensures Calm(x + [y]) <==> Calm(x) && !Urgent(y)
  {
    if Calm(x + [y]) {
      forall i | 0 <= i < |x| ensures !Urgent(x[i]) { assert (x + [y])[i] == x[i]; }
      assert (x + [y])[|x|] == y;
    }
  }

  /** Where a body's transitions are, and its other changes. */
  ghost function TransitionsAt(ms: seq<Msg>): set<int> {
    set i | 0 <= i < |ms| && ms[i].Data? && IsTransition(ms[i].c)
  }

  ghost function ValuesAt(ms: seq<Msg>): set<int> {
    set i | 0 <= i < |ms| && ms[i].Data? && !IsTransition(ms[i].c)
  }

  lemma NothingAt()
    ensures TransitionsAt([]) == {} && ValuesAt([]) == {} && Transitions([]) == [] && Changes([]) == 0
  {
  }

  lemma OneMoreAt(ms: seq<Msg>, m: Msg)
    ensures |TransitionsAt(ms + [m])| == |TransitionsAt(ms)| + if m.Data? && IsTransition(m.c) then 1 else 0
    ensures |ValuesAt(ms + [m])| == |ValuesAt(ms)| + if m.Data? && !IsTransition(m.c) then 1 else 0
  {
    OneMoreTransition(ms, m);
    OneMoreValue(ms, m);
    hide TransitionsAt, ValuesAt, IsTransition;
  }

  lemma OneMoreTransition(ms: seq<Msg>, m: Msg)
    ensures |TransitionsAt(ms + [m])| == |TransitionsAt(ms)| + if m.Data? && IsTransition(m.c) then 1 else 0
  {
    hide IsTransition;
    var more: set<int> := if m.Data? && IsTransition(m.c) then {|ms|} else {};
    assert TransitionsAt(ms + [m]) == TransitionsAt(ms) + more;
  }

  lemma OneMoreValue(ms: seq<Msg>, m: Msg)
    ensures |ValuesAt(ms + [m])| == |ValuesAt(ms)| + if m.Data? && !IsTransition(m.c) then 1 else 0
  {
    hide IsTransition;
    var more: set<int> := if m.Data? && !IsTransition(m.c) then {|ms|} else {};
    assert ValuesAt(ms + [m]) == ValuesAt(ms) + more;
  }

  /** How many of the held changes are transitions, and how many are values. */
  method Count(ms: seq<Msg>) returns (transitions: nat, values: nat)
    ensures transitions == |Transitions(ms)| && transitions + values == Changes(ms)
    ensures transitions == |TransitionsAt(ms)| && values == |ValuesAt(ms)|
  {
    hide IsTransition, Transitions, Changes, TransitionsAt, ValuesAt;
    NothingAt();
    transitions, values := 0, 0;
    for i := 0 to |ms|
      invariant transitions == |Transitions(ms[..i])| && transitions + values == Changes(ms[..i])
      invariant transitions == |TransitionsAt(ms[..i])| && values == |ValuesAt(ms[..i])|
    {
      OneMoreAt(ms[..i], ms[i]);
      TransitionsOne(ms[..i], ms[i]);
      assert ms[..i + 1] == ms[..i] + [ms[i]];
      if ms[i].Data? {
        if IsTransition(ms[i].c) { transitions := transitions + 1; } else { values := values + 1; }
      }
    }
    assert ms[..|ms|] == ms;
  }
}
