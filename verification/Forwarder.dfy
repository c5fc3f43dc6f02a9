/** The forwarder itself: the retry loop inside one message, the backoff wait that
    keeps polling, the main loop's poll/deliver/commit, and the operator re-send.
    The outside (broker, destination, database, clock, operator) answers
    nondeterministically; every method leaves the journal legal, so every theorem of
    `ForwarderSafety` holds of what this code does. Times are milliseconds. */
module Forwarder {
  import opened Options
  import opened Ledger
  import opened ForwarderProtocol
  import opened ForwarderSafety
  import opened ForwarderDelivery

  const SLICE: nat := 1000

  /** How a delivery attempt loop ends: with an outcome, or by one of its two exceptions. */
  datatype Signal = Finished | LostPartition | BudgetSpent(afterDelivery: bool)

  // --- the retry budget, as arithmetic ---------------------------------------

  /** The i-th backoff delay: doubling from `initial`, never past `cap`. */
  function Delay(initial: nat, cap: nat, i: nat): nat {
    if i == 0 then initial else Min(2 * Delay(initial, cap, i - 1), cap)
  }

  function Slices(delay: nat): nat { (delay + SLICE - 1) / SLICE }

  /** What a wait of `delay` is sure to take: a slice is topped up only when more
      than a millisecond of it is left. */
  function Sure(delay: nat): int { delay - Slices(delay) }

  /** What the first `n` waits are sure to take together. */
  function Span(initial: nat, cap: nat, n: nat): int {
    if n == 0 then 0 else Span(initial, cap, n - 1) + Sure(Delay(initial, cap, n - 1))
  }

  function PowerOfTwo(i: nat): nat { if i == 0 then 1 else 2 * PowerOfTwo(i - 1) }

  /** In closed form: the first delay times two to the `i`, or the cap where that is past it. */
  lemma {:induction false} DelayExactly(initial: nat, cap: nat, i: nat)
    requires initial <= cap
    ensures Delay(initial, cap, i) == Min(initial * PowerOfTwo(i), cap)
  {
    if i > 0 {
      DelayExactly(initial, cap, i - 1);
      Twice(initial, PowerOfTwo(i - 1));
      CapTwice(initial * PowerOfTwo(i - 1), cap);
    }
  }

  lemma Twice(a: nat, b: nat)
    ensures a * (2 * b) == 2 * (a * b)
  {
  }

  lemma CapTwice(x: nat, cap: nat)
    ensures Min(2 * Min(x, cap), cap) == Min(2 * x, cap)
  {
  }

  lemma {:induction false} DelayBounds(initial: nat, cap: nat, i: nat)
    requires 2 <= initial && 2 <= cap
    ensures 2 <= Delay(initial, cap, i)
    ensures i > 0 ==> Delay(initial, cap, i) <= cap
    ensures Sure(Delay(initial, cap, i)) >= 1
  {
    if i > 0 { DelayBounds(initial, cap, i - 1); }
  }

  /** Every wait is sure to take time, so a budget admits only so many of them. */
  lemma {:induction false} SpanGrows(initial: nat, cap: nat, n: nat)
    requires 2 <= initial && 2 <= cap
    ensures Span(initial, cap, n) >= n
  {
    if n > 0 {
      SpanGrows(initial, cap, n - 1);
      DelayBounds(initial, cap, n - 1);
    }
  }

  /** Once the doubling has reached the cap every further wait takes the capped time,
      so the number of waits a budget admits is its length over that. */
  lemma {:induction false} CappedSpan(initial: nat, cap: nat, k: nat, n: nat)
    requires 2 <= initial <= cap && Delay(initial, cap, k) == cap && k <= n
    ensures Span(initial, cap, n) == Span(initial, cap, k) + (n - k) * Sure(cap)
    ensures Delay(initial, cap, n) == cap
  {
    if k < n {
      CappedSpan(initial, cap, k, n - 1);
      calc {
        (n - k) * Sure(cap);
        ((n - 1 - k) + 1) * Sure(cap);
        (n - 1 - k) * Sure(cap) + Sure(cap);
      }
    }
  }

  lemma FirstDelay(initial: nat, cap: nat)
    ensures Delay(initial, cap, 0) == initial && Span(initial, cap, 0) == 0
  {
  }

  // --- the retry budget, along a journal -------------------------------------

  /** The waits completed since a delivery last began. */
  function WaitsSince(j: seq<Event>): nat {
    if j == [] || j[|j| - 1].Began? then 0
    else WaitsSince(j[..|j| - 1]) + if j[|j| - 1].Waited? then 1 else 0
  }

  /** A wait ends here: it ran out, or the partition was lost in it. */
  predicate EndsWait(e: Event) { e.Waited? || (e.Ended? && e.how == Abandoned) }

  /** In every delivery, whenever a wait ends, the waits before it fit in the budget. */
  ghost predicate Patient(initial: nat, cap: nat, retryMax: nat, j: seq<Event>) {
    forall n: nat :: n < |j| && EndsWait(j[n]) ==> Span(initial, cap, WaitsSince(j[..n])) <= retryMax
  }

  lemma PatientStep(initial: nat, cap: nat, retryMax: nat, j: seq<Event>, e: Event)
    requires Patient(initial, cap, retryMax, j)
    requires EndsWait(e) ==> Span(initial, cap, WaitsSince(j)) <= retryMax
    ensures Patient(initial, cap, retryMax, j + [e])
    ensures WaitsSince(j + [e]) == if e.Began? then 0 else WaitsSince(j) + if e.Waited? then 1 else 0
  {
    var k := j + [e];
    assert k[..|j|] == j;
    forall n: nat | n < |k| && EndsWait(k[n]) ensures Span(initial, cap, WaitsSince(k[..n])) <= retryMax {
      if n < |j| { assert k[..n] == j[..n] && EndsWait(j[n]); }
    }
  }

  /** A crash can cut a patient run short anywhere too. */
  lemma PatientCut(initial: nat, cap: nat, retryMax: nat, j: seq<Event>, n: nat)
    requires Patient(initial, cap, retryMax, j) && n <= |j|
    ensures Patient(initial, cap, retryMax, j[..n] + [Crashed])
  {
    hide Span;
    assert forall i: nat :: i < n ==> j[..n][..i] == j[..i];
    PatientStep(initial, cap, retryMax, j[..n], Crashed);
  }

  function WaitsIn(j: seq<Event>): nat {
    if j == [] then 0 else WaitsIn(j[..|j| - 1]) + if j[|j| - 1].Waited? then 1 else 0
  }

  /** Counting since the start of a delivery is counting in it. */
  lemma {:induction false} SinceIsIn(j: seq<Event>, a: nat)
    requires a < |j| && j[a].Began? && forall i :: a < i < |j| ==> !j[i].Began?
    ensures WaitsSince(j) == WaitsIn(j[a..])
  {
    if a == |j| - 1 {
      assert j[a..] == [j[a]] && j[a..][..0] == [];
    } else {
      SinceIsIn(j[..|j| - 1], a);
      assert j[a..][..|j[a..]| - 1] == j[..|j| - 1][a..];
    }
  }

  /** The retry bound: of the waits one delivery completes, all but the last fit in the
      budget, so there are at most one more of them than the budget has milliseconds. */
  lemma RetryIsBounded(initial: nat, cap: nat, retryMax: nat, j: seq<Event>, a: nat, b: nat)
    requires 2 <= initial && 2 <= cap && Patient(initial, cap, retryMax, j)
    requires a < b <= |j| && j[a].Began? && forall i :: a < i < b ==> !j[i].Began?
    ensures var waits := WaitsIn(j[a..b]);
            (waits > 0 ==> Span(initial, cap, waits - 1) <= retryMax) && waits <= retryMax + 1
  {
    SinceIsIn(j[..b], a);
    assert j[..b][a..] == j[a..b];
    FitsSoFar(initial, cap, retryMax, j, b);
    var waits := WaitsIn(j[a..b]);
    if waits > 0 { SpanGrows(initial, cap, waits - 1); }
  }

  lemma {:induction false} FitsSoFar(initial: nat, cap: nat, retryMax: nat, j: seq<Event>, b: nat)
    requires Patient(initial, cap, retryMax, j) && b <= |j|
    ensures WaitsSince(j[..b]) > 0 ==> Span(initial, cap, WaitsSince(j[..b]) - 1) <= retryMax
  {
    hide Span;
    if b > 0 {
      FitsSoFar(initial, cap, retryMax, j, b - 1);
      assert j[..b][..b - 1] == j[..b - 1];
      if j[b - 1].Waited? { assert EndsWait(j[b - 1]); }
    }
  }

  /** And once the doubling has reached the cap, the budget divided by the capped time
      bounds the waits after that. */
  lemma RetryIsBoundedByCap(initial: nat, cap: nat, retryMax: nat, j: seq<Event>, a: nat, b: nat, k: nat)
    requires 2 <= initial <= cap && Delay(initial, cap, k) == cap && Patient(initial, cap, retryMax, j)
    requires a < b <= |j| && j[a].Began? && forall i :: a < i < b ==> !j[i].Began?
    ensures WaitsIn(j[a..b]) > k ==>
              Span(initial, cap, k) + (WaitsIn(j[a..b]) - 1 - k) * Sure(cap) <= retryMax
  {
    RetryIsBounded(initial, cap, retryMax, j, a, b);
    var waits := WaitsIn(j[a..b]);
    if waits > k { CappedSpan(initial, cap, k, waits - 1); }
  }

  // --- what is written -------------------------------------------------------

  /** The answer to the last POST. */
  function LastAnswer(j: seq<Event>): Option<Answer> {
    if j == [] then None
    else if j[|j| - 1].Posted? then Some(j[|j| - 1].answer)
    else LastAnswer(j[..|j| - 1])
  }

  /** A ledger write carries the position of the message in hand and its stamps for the route
      in hand; a delivered one the status and case id of the answer, others neither. */
  ghost predicate EntryFits(stampsOf: (Route, Message) -> Stamps, j: seq<Event>, e: Entry) {
    var d := InDelivery(j);
    && e.Upsert? && Hand(j).Some? && d != [] && d[0].Began?
    && e.place.topic == Hand(j).value.at.topic && e.place.partition == Hand(j).value.at.number
    && e.place.offset == Hand(j).value.offset
    && e.stamps == stampsOf(d[0].route, Hand(j).value)
    && if e.outcome == Ledger.Delivered then LastAnswer(j).Some? && IsAnswer(LastAnswer(j).value, e.status, e.caseId)
       else e.status.None? && e.caseId.None?
  }

  predicate IsAnswer(a: Answer, status: Option<int>, caseId: Option<string>) {
    a.Status? && status == Some(a.code) && caseId == a.caseId
  }

  ghost predicate Truthful(stampsOf: (Route, Message) -> Stamps, j: seq<Event>) {
    forall n: nat :: n < |j| && (j[n].Wrote? || j[n].Unconfirmed?) ==> EntryFits(stampsOf, j[..n], j[n].entry)
  }

  lemma TruthfulStep(stampsOf: (Route, Message) -> Stamps, j: seq<Event>, e: Event)
    requires Truthful(stampsOf, j) && (e.Wrote? || e.Unconfirmed? ==> EntryFits(stampsOf, j, e.entry))
    ensures Truthful(stampsOf, j + [e])
    ensures LastAnswer(j + [e]) == if e.Posted? then Some(e.answer) else LastAnswer(j)
  {
    hide EntryFits;
    var k := j + [e];
    assert k[..|j|] == j;
    forall n: nat | n < |k| && (k[n].Wrote? || k[n].Unconfirmed?) ensures EntryFits(stampsOf, k[..n], k[n].entry) {
      if n < |j| { assert k[..n] == j[..n] && k[n] == j[n]; }
    }
  }

  lemma TruthfulCut(stampsOf: (Route, Message) -> Stamps, j: seq<Event>, n: nat)
    requires Truthful(stampsOf, j) && n <= |j|
    ensures Truthful(stampsOf, j[..n] + [Crashed])
  {
    hide EntryFits;
    forall i: nat | i < n && (j[..n][i].Wrote? || j[..n][i].Unconfirmed?)
      ensures EntryFits(stampsOf, j[..n][..i], j[..n][i].entry)
    {
      assert j[..n][..i] == j[..i];
    }
    TruthfulStep(stampsOf, j[..n], Crashed);
  }

  // --- journals --------------------------------------------------------------

  /** What a wait may write: nothing is taken for processing or committed. */
  predicate OfAWait(e: Event) {
    e.Assigned? || e.Revoked? || e.HandedBack? || e.HandBackFailed?
    || e.OperatorAudited? || e.OperatorPosted? || e.OperatorRecorded?
  }

  ghost predicate WaitedFrom(j: seq<Event>, k: seq<Event>) {
    j <= k && forall i :: |j| <= i < |k| ==> OfAWait(k[i])
  }

  class Forwarder {
    const cfg: Config
    const initial: nat
    const cap: nat
    const retryMax: nat
    /** The episode columns of a record, read through its kind's declarations. */
    const stampsOf: (Route, Message) -> Stamps

    var now: int
    /** Partitions the consumer has paused. */
    var paused: set<Partition>
    /** Broker, ledger and process state, kept in step with the journal. */
    var st: State
    var journal: seq<Event>
    /** The waits the delivery in hand has completed. */
    ghost var waits: nat
    /** The answer to the last POST. */
    ghost var answer: Option<Answer>

    ghost predicate Valid()
      reads this
    {
      && Run(cfg, journal) == Some(st)
      && 2 <= initial && 2 <= cap
      && waits == WaitsSince(journal)
      && Patient(initial, cap, retryMax, journal)
      && answer == LastAnswer(journal)
      && Truthful(stampsOf, journal)
    }

    constructor (cfg: Config, initial: nat, cap: nat, retryMax: nat, stampsOf: (Route, Message) -> Stamps)
      requires 2 <= initial && 2 <= cap
      ensures Valid() && st == START && journal == [] && this.cfg == cfg
    {
      this.cfg, this.initial, this.cap, this.retryMax, this.stampsOf := cfg, initial, cap, retryMax, stampsOf;
      now, paused, st, journal, waits, answer := 0, {}, START, [], 0, None;
    }

    method Emit(e: Event)
      requires Valid() && Step(cfg, st, e).Some? && !e.Began? && !EndsWait(e) && !e.Posted?
      requires e.Wrote? || e.Unconfirmed? ==> EntryFits(stampsOf, journal, e.entry)
      modifies this`st, this`journal
      ensures Valid()
      ensures st == Step(cfg, old(st), e).value
      ensures journal == old(journal) + [e]
    {
      hide Step, Span;
      RunStep(cfg, journal, e);
      PatientStep(initial, cap, retryMax, journal, e);
      TruthfulStep(stampsOf, journal, e);
      hide Run, Truthful, LastAnswer, Patient, WaitsSince, EntryFits;
      st := Step(cfg, st, e).value;
      journal := journal + [e];
    }

    /** The start of a delivery, or the end of one of its waits. */
    method EmitCounted(e: Event)
      requires Valid() && Step(cfg, st, e).Some?
      requires EndsWait(e) ==> Span(initial, cap, waits) <= retryMax
      requires !e.Wrote? && !e.Unconfirmed? && !e.Posted?
      modifies this`st, this`journal, this`waits
      ensures Valid()
      ensures st == Step(cfg, old(st), e).value
      ensures journal == old(journal) + [e]
      ensures waits == if e.Began? then 0 else old(waits) + if e.Waited? then 1 else 0
    {
      hide Step, Span;
      RunStep(cfg, journal, e);
      PatientStep(initial, cap, retryMax, journal, e);
      TruthfulStep(stampsOf, journal, e);
      hide Run, Truthful, LastAnswer, Patient;
      st := Step(cfg, st, e).value;
      journal := journal + [e];
      waits := WaitsSince(journal);
    }

    /** A POST and its answer. */
    method EmitPosted(e: Event)
      requires Valid() && Step(cfg, st, e).Some? && e.Posted?
      modifies this`st, this`journal, this`answer
      ensures Valid()
      ensures st == Step(cfg, old(st), e).value
      ensures journal == old(journal) + [e] && answer == Some(e.answer)
    {
      hide Step, Span;
      RunStep(cfg, journal, e);
      PatientStep(initial, cap, retryMax, journal, e);
      TruthfulStep(stampsOf, journal, e);
      hide Run, Truthful, LastAnswer, Patient, WaitsSince;
      st := Step(cfg, st, e).value;
      journal := journal + [e];
      answer := Some(e.answer);
    }

    /** The delivery in hand, as the journal shows it. */
    lemma HandShows(r: Route, m: Message, i: nat, stage: Stage)
      requires Valid() && Handling(r, m, i, stage) && stage != Between
      ensures Hand(journal) == Some(m) && InDelivery(journal) != [] && InDelivery(journal)[0] == Began(r)
    {
      RunFits(cfg, journal);
      hide Run, Truthful, LastAnswer, Patient, Shows, Over, InDelivery, Hand, Begun, LostSince;
    }

    method Elapse(atLeast: nat)
      modifies this`now
      ensures now >= old(now) + atLeast
    {
      var more: nat :| more >= 0;
      now := now + atLeast + more;
    }

    /** The operator's re-send process may act on the ledger at any moment. */
    method Meddle()
      requires Valid()
      modifies this`st, this`journal
      ensures Valid() && WaitedFrom(old(journal), journal)
      ensures st == old(st).(ledger := st.ledger)
      ensures forall k :: IsDelivered(old(st.ledger), k) ==> IsDelivered(st.ledger, k)
    {
      hide Valid, Logged, IsDelivered;
      var n: nat :| n >= 0;
      for i := 0 to n
        invariant Valid() && WaitedFrom(old(journal), journal)
        invariant st == old(st).(ledger := st.ledger)
        invariant forall k :: IsDelivered(old(st.ledger), k) ==> IsDelivered(st.ledger, k)
      {
        var k: Key := *;
        var status: int := *;
        var caseId: Option<string> := *;
        var stamps: Stamps := *;
        if k in st.ledger {
          LoggedKeeps(st.ledger, k, Resend(Some(status), caseId, stamps, now));
          Operate(OperatorRecorded(k, Resend(Some(status), caseId, stamps, now)));
        }
      }
    }

    /** One route of the message in hand is at `stage`. */
    ghost predicate Handling(r: Route, m: Message, i: nat, stage: Stage)
      reads this
    {
      && st.phase == Busy(m, i, stage, false)
      && i < |Matching(cfg, m)| && Matching(cfg, m)[i] == r
    }

    /** Nothing but the ledger, the journal, the clock and the stage has moved. */
    twostate predicate OnlyStage()
      reads this
    {
      && st == old(st).(ledger := st.ledger, phase := st.phase)
      && old(journal) <= journal
      && now >= old(now)
    }

    // --- the outside ---------------------------------------------------------

    /** A ledger lookup: `None` when the store cannot be reached. */
    method Lookup(r: Route, m: Message, i: nat, k: Key) returns (found: Option<bool>)
      requires Valid() && Handling(r, m, i, Head)
      requires EventId(r, m) == Some(k.event) && k.route == r.name
      modifies this`st, this`journal, this`now
      ensures Valid() && OnlyStage()
      ensures Handling(r, m, i, match found
                                case None => Backoff(false)
                                case Some(d) => if d then Settling(Duplicate) else Ready)
    {
      hide Run, Truthful, LastAnswer, Patient, WaitsSince, Span;
      Meddle();
      Elapse(0);
      var up: bool := *;
      if up {
        found := Some(IsDelivered(st.ledger, k));
        Emit(Looked(k, found.value));
      } else {
        found := None;
        Emit(StoreDown);
      }
    }

    /** A write that raises: it may have run, with its reply lost. */
    method FailWrite(r: Route, m: Message, i: nat, stage: Stage, o: Outcome, key: Key, entry: Entry)
      requires Valid() && Handling(r, m, i, stage) && key == KeyFor(r, m) && entry.Upsert? && entry.outcome == o
      requires EntryFits(stampsOf, journal, entry)
      requires (stage == Ready && r.held && o == Held) || (stage == Recording && o == Delivered)
            || (stage == Aftermath(false) && o == Held) || (stage == Aftermath(true) && o == Failed)
      modifies this`st, this`journal
      ensures Valid() && OnlyStage()
      ensures stage == Ready ==> Handling(r, m, i, Backoff(false))
      ensures stage == Recording ==> Handling(r, m, i, Backoff(true))
      ensures stage == Aftermath(false) ==> Handling(r, m, i, Aftermath(true))
      ensures stage == Aftermath(true) ==> st.phase == Busy(m, i + 1, Between, false)
    {
      hide Run, Truthful, LastAnswer, Patient, WaitsSince, Span, Logged, KeyFor, EventId, EntryFits, Step;
      var landed: bool := *;
      if stage == Aftermath(true) {
        if landed { Unreplied(r, m, i, stage, key, entry); }
        Declare(r, m, i, key);
      } else if landed {
        Unreplied(r, m, i, stage, key, entry);
      } else {
        StoreFails(r, m, i, stage);
      }
    }

    method Unreplied(r: Route, m: Message, i: nat, stage: Stage, key: Key, entry: Entry)
      requires Valid() && Handling(r, m, i, stage) && key == KeyFor(r, m) && entry.Upsert?
      requires EntryFits(stampsOf, journal, entry)
      requires (stage == Ready && r.held && entry.outcome == Held) || (stage == Recording && entry.outcome == Delivered)
            || (stage == Aftermath(false) && entry.outcome == Held)
            || (stage == Aftermath(true) && entry.outcome == Failed)
      modifies this`st, this`journal
      ensures Valid() && OnlyStage()
      ensures Handling(r, m, i, match stage
                                case Ready => Backoff(false)
                                case Recording => Backoff(true)
                                case _ => Aftermath(true))
    {
      hide Run, Truthful, LastAnswer, Patient, WaitsSince, Span, Logged, KeyFor, EventId, EntryFits;
      Emit(Unconfirmed(key, entry));
    }

    method StoreFails(r: Route, m: Message, i: nat, stage: Stage)
      requires Valid() && Handling(r, m, i, stage)
      requires (stage == Ready && r.held) || stage == Recording || stage == Aftermath(false)
      modifies this`st, this`journal
      ensures Valid() && OnlyStage()
      ensures Handling(r, m, i, match stage
                                case Ready => Backoff(false)
                                case Recording => Backoff(true)
                                case _ => Aftermath(true))
    {
      hide Run, Truthful, LastAnswer, Patient, WaitsSince, Span, Logged, KeyFor, EventId, EntryFits;
      Emit(StoreDown);
    }

    method Declare(r: Route, m: Message, i: nat, key: Key)
      requires Valid() && Handling(r, m, i, Aftermath(true)) && key == KeyFor(r, m)
      modifies this`st, this`journal
      ensures Valid() && OnlyStage() && st.phase == Busy(m, i + 1, Between, false)
    {
      hide Run, Truthful, LastAnswer, Patient, WaitsSince, Span, Logged, KeyFor, EventId, EntryFits;
      Emit(Declared(key));
    }

    /** A ledger write in the stages that make one. */
    method Write(r: Route, m: Message, i: nat, stage: Stage, o: Outcome, status: Option<int>, caseId: Option<string>)
      returns (ok: bool)
      requires Valid() && Handling(r, m, i, stage) && r.dedupe.Some? && EventId(r, m).Some?
      requires (stage == Ready && r.held && o == Held) || (stage == Recording && o == Delivered)
            || (stage == Aftermath(false) && o == Held) || (stage == Aftermath(true) && o == Failed)
      requires if o == Delivered then answer.Some? && IsAnswer(answer.value, status, caseId)
               else status.None? && caseId.None?
      modifies this`st, this`journal, this`now
      ensures Valid() && OnlyStage()
      ensures ok && stage == Ready ==> Handling(r, m, i, Settling(WasHeld))
      ensures ok && stage == Recording ==> Handling(r, m, i, Settling(Sent))
      ensures ok && stage.Aftermath? ==> st.phase == Busy(m, i + 1, Between, false)
      ensures !ok && stage == Ready ==> Handling(r, m, i, Backoff(false))
      ensures !ok && stage == Recording ==> Handling(r, m, i, Backoff(true))
      ensures !ok && stage == Aftermath(false) ==> Handling(r, m, i, Aftermath(true))
      ensures !ok && stage == Aftermath(true) ==> st.phase == Busy(m, i + 1, Between, false)
      ensures ok ==> Key(r.name, EventId(r, m).value) in st.ledger
      ensures ok && o == Delivered ==> IsDelivered(st.ledger, Key(r.name, EventId(r, m).value))
    {
      hide Run, Truthful, LastAnswer, Patient, WaitsSince, Span;
      Meddle();
      Elapse(0);
      ok := *;
      var key := Key(r.name, EventId(r, m).value);
      var entry := Upsert(o, status, caseId, Place(m.at.topic, m.at.number, m.offset), stampsOf(r, m), now);
      HandShows(r, m, i, stage);
      assert EntryFits(stampsOf, journal, entry);
      if ok { Emit(Wrote(key, entry)); } else { FailWrite(r, m, i, stage, o, key, entry); }
    }

    method Post(r: Route, m: Message, i: nat) returns (a: Answer)
      requires Valid() && Handling(r, m, i, Ready) && !r.held
      modifies this`st, this`journal, this`now, this`answer
      ensures Valid() && OnlyStage() && answer == Some(a)
      ensures Handling(r, m, i, Answered(r, a))
    {
      hide Run, Truthful, LastAnswer, Patient, WaitsSince, Span;
      a := *;
      EmitPosted(Posted(r, EventId(r, m), a));
      Elapse(0);
      Meddle();
    }

    method Finish(r: Route, m: Message, i: nat, how: Ending)
      requires Valid() && Handling(r, m, i, Settling(how)) && how != Abandoned
      modifies this`st, this`journal
      ensures Valid() && journal == old(journal) + [Ended(r, EventId(r, m), how)]
      ensures st == old(st).(phase := Busy(m, i + 1, Between, false), tally := old(st.tally) + multiset{how})
    {
      hide Run, Truthful, LastAnswer, Patient, WaitsSince, Span;
      Emit(Ended(r, EventId(r, m), how));
    }

    /** A partition is taken away, or given and then not paused. */
    method Rebalance(p: Partition)
      requires Valid() && InPoll(st)
      modifies this`st, this`journal, this`paused
      ensures Valid() && WaitedFrom(old(journal), journal)
      ensures paused == old(paused) - {p}
      ensures st.position.Keys == (if p in old(st.position) then old(st.position.Keys) - {p}
                                   else old(st.position.Keys) + {p})
      ensures InPoll(st) && st == old(st).(position := st.position, phase := st.phase)
      ensures st.phase == if old(st.phase.Busy? && st.phase.m.at == p && p in st.position)
                          then old(st.phase).(revoked := true) else old(st.phase)
    {
      hide Run, Truthful, LastAnswer, Patient, WaitsSince, Span;
      paused := paused - {p};
      if p in st.position { Emit(Revoked(p)); } else { Emit(Assigned(p)); }
    }

    /** Seek a message yielded during a wait back and quiet its partition; a seek that
        fails is logged and the message stays polled. */
    method HandBack(p: Partition, o: nat) returns (hushed: bool)
      requires Valid() && Yielded(st, p, o)
      modifies this`st, this`journal, this`paused
      ensures Valid() && WaitedFrom(old(journal), journal)
      ensures paused == if hushed then old(paused) + {p} else old(paused)
      ensures st == old(st).(position := st.position) && st.position.Keys == old(st.position.Keys)
    {
      hide Run, Truthful, LastAnswer, Patient, WaitsSince, Span;
      var sought: bool := *;
      hushed := *;
      hushed := hushed && sought;
      Emit(if sought then HandedBack(p, o) else HandBackFailed(p, o));
      if hushed { paused := paused + {p}; }
    }

    /** The consumer's poll: rebalances are delivered inside it, and it may hand out
        the next message of an assigned partition that is not paused. */
    method Poll() returns (got: Option<(Partition, nat)>)
      requires Valid() && InPoll(st)
      requires st.phase.Busy? && !st.phase.revoked ==> st.phase.m.at in paused * st.position.Keys
      modifies this`now, this`paused, this`st, this`journal
      ensures Valid() && WaitedFrom(old(journal), journal) && now >= old(now)
      ensures InPoll(st) && st == old(st).(position := st.position, phase := st.phase, ledger := st.ledger)
      ensures old(st.phase.Idle?) ==> st.phase.Idle?
      ensures old(st.phase.Busy?) ==> st.phase.Busy? && st.phase == old(st.phase).(revoked := st.phase.revoked)
                                      && (old(st.phase.revoked) ==> st.phase.revoked)
      ensures st.phase.Busy? && !st.phase.revoked ==> st.phase.m.at in paused * st.position.Keys
      ensures paused <= old(paused) && paused * st.position.Keys <= old(paused * st.position.Keys)
      ensures got.Some? ==> got.value.0 in st.position && got.value.0 !in paused
                            && st.position[got.value.0] == got.value.1
    {
      hide Run, Step, Truthful, LastAnswer, Patient, WaitsSince, Span;
      Meddle();
      var n: nat :| n >= 0;
      for x := 0 to n
        invariant Valid() && WaitedFrom(old(journal), journal) && now == old(now)
        invariant InPoll(st) && st == old(st).(position := st.position, phase := st.phase, ledger := st.ledger)
        invariant old(st.phase.Idle?) ==> st.phase.Idle?
        invariant old(st.phase.Busy?) ==> st.phase.Busy? && st.phase == old(st.phase).(revoked := st.phase.revoked)
                                          && (old(st.phase.revoked) ==> st.phase.revoked)
        invariant st.phase.Busy? && !st.phase.revoked ==> st.phase.m.at in paused * st.position.Keys
        invariant paused <= old(paused) && paused * st.position.Keys <= old(paused * st.position.Keys)
      {
        var p: Partition := *;
        Rebalance(p);
      }
      Elapse(0);
      var p: Partition := *;
      var hand: bool := *;
      got := if hand && p in st.position && p !in paused then Some((p, st.position[p])) else None;
    }

    // --- the backoff wait ----------------------------------------------------

    /** Pause everything assigned, poll in slices until `delay` is used up, hand back
        whatever a poll yields, resume. False once the in-flight partition was revoked. */
    method Wait(delay: nat) returns (elapsed: bool, ghost resumed: bool)
      requires Valid() && st.phase.Busy? && st.phase.stage.Backoff? && !st.phase.revoked
      requires st.phase.m.at in st.position
      modifies this`now, this`paused, this`st, this`journal
      ensures Valid() && WaitedFrom(old(journal), journal) && now >= old(now)
      ensures st == old(st).(position := st.position, phase := st.phase, ledger := st.ledger)
      ensures st.phase == old(st.phase).(revoked := !elapsed)
      ensures elapsed ==> now >= old(now) + Sure(delay)
      ensures elapsed ==> st.phase.m.at in st.position
      ensures resumed ==> paused !! st.position.Keys
      ensures (forall i :: |old(journal)| <= i < |journal| ==> !journal[i].HandBackFailed?)
              ==> forall p :: p in st.position && p in old(st.position)
                              ==> st.position[p] <= old(st.position[p])
    {
      hide Run, Step, Truthful, LastAnswer, Patient, WaitsSince, Span;
      var quiet := st.position.Keys;
      paused := paused + quiet;
      var remaining: nat, slices: nat := delay, 0;
      while remaining > 0 && !st.phase.revoked
        invariant Valid() && WaitedFrom(old(journal), journal)
        invariant st == old(st).(position := st.position, phase := st.phase, ledger := st.ledger)
        invariant st.phase.Busy? && st.phase == old(st.phase).(revoked := st.phase.revoked)
        invariant st.phase.revoked || st.phase.m.at in paused * st.position.Keys
        invariant paused * st.position.Keys <= quiet
        invariant remaining <= delay && slices + Slices(remaining) == Slices(delay)
        invariant now >= old(now) + (delay - remaining) - slices && now >= old(now)
        decreases !st.phase.revoked, remaining
      {
        var slice := Min(remaining, SLICE);
        var started := now;
        var got := Poll();
        if got.Some? {
          var (p, o) := got.value;
          var hushed := HandBack(p, o);
          if hushed { quiet := quiet + {p}; }
        }
        if !st.phase.revoked {
          var idle := slice - (now - started);
          if idle > 1 { Elapse(idle); }
          remaining := remaining - slice;
          slices := slices + 1;
        }
      }
      elapsed := !st.phase.revoked;
      resumed := Resume(quiet);
      StillAssigned();
      assert journal == old(journal) + journal[|old(journal)|..];
      forall p | (forall i :: |old(journal)| <= i < |journal| ==> !journal[i].HandBackFailed?)
                 && p in st.position && p in old(st.position)
        ensures st.position[p] <= old(st.position[p])
      {
        WaitMovesNothingForward(cfg, old(journal), journal[|old(journal)|..], p);
      }
    }

    /** A resume that raises is logged and dropped. */
    method Resume(quiet: set<Partition>) returns (ghost resumed: bool)
      requires paused * st.position.Keys <= quiet
      modifies this`paused
      ensures paused <= old(paused)
      ensures resumed ==> paused !! st.position.Keys
    {
      var ok: bool := *;
      resumed := ok;
      if ok { paused := paused - (quiet * st.position.Keys); }
    }

    /** Unless it was revoked, the in-flight partition is still assigned. */
    lemma StillAssigned()
      requires Valid()
      ensures st.phase.Busy? && !st.phase.revoked
              ==> st.phase.m.at in st.position && st.position[st.phase.m.at] == st.phase.m.offset + 1
    {
      RunCommitInv(cfg, journal);
    }

    /** Give up when the budget is spent, else wait once and double the delay. */
    method BackOff(delay: nat, first: int, r: Route, m: Message, i: nat, rec: bool)
      returns (next: nat, signal: Signal)
      requires Valid() && Handling(r, m, i, Backoff(rec))
      requires delay == Delay(initial, cap, waits) && now >= first && now - first >= Span(initial, cap, waits)
      modifies this`now, this`paused, this`st, this`journal, this`waits
      ensures Valid() && old(journal) <= journal && now >= old(now)
      ensures signal == BudgetSpent(rec) <==> old(now) - first > retryMax
      ensures signal.BudgetSpent? ==> signal == BudgetSpent(rec) && Handling(r, m, i, Backoff(rec))
      ensures !signal.Finished? ==> waits == old(waits)
      ensures signal.LostPartition? ==> st.phase == Busy(m, i, Backoff(rec), true)
                                        && Span(initial, cap, waits) <= retryMax
      ensures signal.Finished? ==> Handling(r, m, i, if rec then Recording else LoopHead(r))
                                   && waits == old(waits) + 1 && next == Delay(initial, cap, waits)
                                   && now > old(now) && now - first >= Span(initial, cap, waits)
      ensures st.tally == old(st.tally) && st.begun == old(st.begun) && st.committed == old(st.committed)
    {
      hide Run, Truthful, LastAnswer, Patient, WaitsSince, ForwarderProtocol.Deliver;
      next := delay;
      if now - first > retryMax { return delay, BudgetSpent(rec); }
      StillAssigned();
      DelayBounds(initial, cap, waits);
      ghost var resumed;
      var elapsed;
      elapsed, resumed := Wait(delay);
      if !elapsed { return delay, LostPartition; }
      CompleteWait(r, m, i, rec);
      next, signal := Min(2 * delay, cap), Finished;
    }

    method CompleteWait(r: Route, m: Message, i: nat, rec: bool)
      requires Valid() && Handling(r, m, i, Backoff(rec)) && Span(initial, cap, waits) <= retryMax
      modifies this`st, this`journal, this`waits
      ensures Valid() && journal == old(journal) + [Waited] && waits == old(waits) + 1
      ensures st == old(st).(phase := st.phase) && Handling(r, m, i, if rec then Recording else LoopHead(r))
    {
      hide Run, Truthful, LastAnswer, Patient, WaitsSince, Span;
      EmitCounted(Waited);
    }

    method Begin(r: Route, m: Message, i: nat)
      requires Valid() && Handling(r, m, i, Between)
      modifies this`st, this`journal, this`waits
      ensures Valid() && journal == old(journal) + [Began(r)] && waits == 0
      ensures Handling(r, m, i, Opening(r, m))
      ensures st == old(st).(phase := st.phase, begun := old(st.begun) + 1)
    {
      hide Run, Truthful, LastAnswer, Patient, WaitsSince, Span;
      EmitCounted(Began(r));
    }

    /** The delivery in hand ends with its partition lost. */
    method Abandon(r: Route, m: Message, i: nat, rec: bool)
      requires Valid() && st.phase == Busy(m, i, Backoff(rec), true) && Span(initial, cap, waits) <= retryMax
      requires i < |Matching(cfg, m)| && Matching(cfg, m)[i] == r
      modifies this`st, this`journal, this`waits
      ensures Valid() && journal == old(journal) + [Ended(r, EventId(r, m), Abandoned)]
      ensures st == old(st).(phase := Idle, tally := old(st.tally) + multiset{Abandoned})
    {
      hide Run, Truthful, LastAnswer, Patient, WaitsSince, Span;
      EmitCounted(Ended(r, EventId(r, m), Abandoned));
    }

    // --- one delivery --------------------------------------------------------

    method LackToken(r: Route, m: Message, i: nat)
      requires Valid() && Handling(r, m, i, Ready) && !r.held && r.credentialed
      modifies this`st, this`journal
      ensures Valid() && journal == old(journal) + [NoCredential]
      ensures st == old(st).(phase := st.phase) && Handling(r, m, i, Backoff(false))
    {
      hide Run, Truthful, LastAnswer, Patient, WaitsSince, Span;
      Emit(NoCredential);
    }

    /** The credential and the POST. */
    method Send(r: Route, m: Message, i: nat) returns (got: Attempted)
      requires Valid() && Handling(r, m, i, Ready) && !r.held
      modifies this`now, this`st, this`journal, this`answer
      ensures Valid() && old(journal) <= journal && now >= old(now)
      ensures st.begun == old(st.begun) && st.committed == old(st.committed)
      ensures got.Concluded? ==> st.phase == Busy(m, i + 1, Between, false)
                                 && st.tally == old(st.tally) + multiset{got.how} && got.how in {Sent, Rejected}
      ensures !got.Concluded? ==> st.tally == old(st.tally)
      ensures got.Again? ==> Handling(r, m, i, Backoff(false))
      ensures got.Taken? ==> r.dedupe.Some? && Handling(r, m, i, Recording)
      ensures got.Taken? ==> answer == Some(Status(got.status, got.caseId))
    {
      hide Run, Truthful, LastAnswer, Patient, WaitsSince, Span, Step;
      var token: bool := *;
      if r.credentialed && !token {
        LackToken(r, m, i);
        return Again;
      }
      var reply := Post(r, m, i);
      if Accepts(reply) {
        if r.dedupe.Some? { return Taken(reply.code, reply.caseId); }
        Finish(r, m, i, Sent);
        return Concluded(Sent);
      }
      if Retryable(reply) { return Again; }
      Finish(r, m, i, Rejected);
      return Concluded(Rejected);
    }

    /** One pass from the loop head: the lookup, the hold, the credential, the POST. */
    method Attempt(r: Route, m: Message, i: nat) returns (got: Attempted)
      requires Valid() && Handling(r, m, i, LoopHead(r))
      requires r.dedupe.Some? ==> EventId(r, m).Some?
      modifies this`now, this`st, this`journal, this`answer
      ensures Valid() && old(journal) <= journal && now >= old(now)
      ensures st.begun == old(st.begun) && st.committed == old(st.committed)
      ensures got.Concluded? ==> st.phase == Busy(m, i + 1, Between, false)
                                 && st.tally == old(st.tally) + multiset{got.how}
                                 && got.how in {Duplicate, WasHeld, Sent, Rejected}
      ensures !got.Concluded? ==> st.tally == old(st.tally)
      ensures got.Again? ==> Handling(r, m, i, Backoff(false))
      ensures got.Taken? ==> r.dedupe.Some? && Handling(r, m, i, Recording)
      ensures got.Taken? ==> answer == Some(Status(got.status, got.caseId))
    {
      hide Run, Truthful, LastAnswer, Patient, WaitsSince, Span, Step, EventId;
      if r.dedupe.Some? {
        var found := Lookup(r, m, i, Key(r.name, EventId(r, m).value));
        if found.None? { return Again; }
        if found.value {
          Finish(r, m, i, Duplicate);
          return Concluded(Duplicate);
        }
      }
      if r.held {
        if r.dedupe.Some? {
          var ok := Write(r, m, i, Ready, Held, None, None);
          if !ok { return Again; }
        }
        Finish(r, m, i, WasHeld);
        return Concluded(WasHeld);
      }
      got := Send(r, m, i);
    }

    /** After a 2xx: retry the write, never the POST, on the same budget. */
    method RecordSent(r: Route, m: Message, i: nat, status: int, caseId: Option<string>, delay0: nat, first: int)
      returns (signal: Signal)
      requires Valid() && Handling(r, m, i, Recording) && r.dedupe.Some? && EventId(r, m).Some?
      requires answer == Some(Status(status, caseId))
      requires delay0 == Delay(initial, cap, waits) && now >= first && now - first >= Span(initial, cap, waits)
      modifies this`now, this`paused, this`st, this`journal, this`waits
      ensures Valid() && old(journal) <= journal && now >= first && waits >= old(waits)
      ensures st.begun == old(st.begun) && st.committed == old(st.committed)
      ensures signal.Finished? ==> st.phase == Busy(m, i + 1, Between, false)
                                   && st.tally == old(st.tally) + multiset{Sent}
                                   && IsDelivered(st.ledger, Key(r.name, EventId(r, m).value))
      ensures !signal.Finished? ==> st.tally == old(st.tally)
      ensures signal.LostPartition? ==>
                st.phase == Busy(m, i, Backoff(true), true) && Span(initial, cap, waits) <= retryMax
      ensures signal.BudgetSpent? ==> signal.afterDelivery && Handling(r, m, i, Backoff(true)) && now - first > retryMax
    {
      hide Run, Step, Truthful, LastAnswer, Patient, WaitsSince, Span, Delay;
      var delay := delay0;
      while true
        invariant Valid() && old(journal) <= journal && now >= first && waits >= old(waits)
        invariant Handling(r, m, i, Recording)
        invariant st.begun == old(st.begun) && st.committed == old(st.committed) && st.tally == old(st.tally)
        invariant delay == Delay(initial, cap, waits) && now - first >= Span(initial, cap, waits)
        decreases retryMax - (now - first)
      {
        var ok := Write(r, m, i, Recording, Delivered, Some(status), caseId);
        if ok {
          Finish(r, m, i, Sent);
          return Finished;
        }
        delay, signal := BackOff(delay, first, r, m, i, true);
        if !signal.Finished? { return; }
      }
    }

    /** The retry loop of one delivery, until an outcome is reached or one of the two
        exceptions ends it. It begins one delivery and counts its waits from there; it gives
        up only when the budget is over. */
    method DeliverInner(r: Route, m: Message, i: nat) returns (signal: Signal)
      requires Valid() && Handling(r, m, i, Between) && m.body.Some?
      modifies this
      ensures Valid() && old(journal) + [Began(r)] <= journal && now >= old(now)
      ensures st.begun == old(st.begun) + 1 && st.committed == old(st.committed)
      ensures signal.Finished? ==> st.phase == Busy(m, i + 1, Between, false)
      ensures !signal.Finished? ==> st.tally == old(st.tally)
      ensures signal.LostPartition? ==> (st.phase == Busy(m, i, Backoff(false), true)
                                         || st.phase == Busy(m, i, Backoff(true), true))
                                        && Span(initial, cap, waits) <= retryMax
      ensures signal.BudgetSpent? ==> Handling(r, m, i, Backoff(signal.afterDelivery))
                                      && (r.dedupe.Some? ==> EventId(r, m).Some?)
                                      && now - old(now) > retryMax
    {
      hide Run, Step, Truthful, LastAnswer, Patient, WaitsSince, Delay;
      Begin(r, m, i);
      if r.dedupe.Some? && EventId(r, m).None? {
        Finish(r, m, i, NoEventId);
        return Finished;
      }
      assert Delay(initial, cap, 0) == initial by { FirstDelay(initial, cap); }
      signal := TryUntil(r, m, i, initial, now);
    }

    method TryUntil(r: Route, m: Message, i: nat, delay0: nat, first: int) returns (signal: Signal)
      requires Valid() && Handling(r, m, i, LoopHead(r)) && (r.dedupe.Some? ==> EventId(r, m).Some?)
      requires delay0 == Delay(initial, cap, waits) && now >= first && now - first >= Span(initial, cap, waits)
      modifies this
      ensures Valid() && old(journal) <= journal && now >= first && waits >= old(waits)
      ensures st.begun == old(st.begun) && st.committed == old(st.committed)
      ensures signal.Finished? ==> st.phase == Busy(m, i + 1, Between, false)
      ensures !signal.Finished? ==> st.tally == old(st.tally)
      ensures signal.LostPartition? ==> (st.phase == Busy(m, i, Backoff(false), true)
                                         || st.phase == Busy(m, i, Backoff(true), true))
                                        && Span(initial, cap, waits) <= retryMax
      ensures signal.BudgetSpent? ==> Handling(r, m, i, Backoff(signal.afterDelivery)) && now - first > retryMax
    {
      hide Run, Step, Truthful, LastAnswer, Patient, WaitsSince, Span, Delay, ForwarderProtocol.Deliver;
      var delay := delay0;
      while true
        invariant Valid() && old(journal) <= journal && now >= first && waits >= old(waits)
        invariant Handling(r, m, i, LoopHead(r))
        invariant st.begun == old(st.begun) && st.committed == old(st.committed) && st.tally == old(st.tally)
        invariant delay == Delay(initial, cap, waits) && now - first >= Span(initial, cap, waits)
        decreases retryMax - (now - first)
      {
        var got := Attempt(r, m, i);
        if got.Concluded? { return Finished; }
        if got.Taken? {
          signal := RecordSent(r, m, i, got.status, got.caseId, delay, first);
          return;
        }
        delay, signal := BackOff(delay, first, r, m, i, false);
        if !signal.Finished? { return; }
      }
    }

    /** One delivery with its two exceptions handled. True when the partition was lost
        and the message must not be committed. */
    method Deliver(r: Route, m: Message, i: nat) returns (abandoned: bool)
      requires Valid() && Handling(r, m, i, Between) && m.body.Some?
      modifies this
      ensures Valid() && old(journal) + [Began(r)] <= journal
      ensures st.committed == old(st.committed)
      ensures abandoned ==> st.phase.Idle?
      ensures !abandoned ==> st.phase == Busy(m, i + 1, Between, false)
    {
      hide Run, Step, Truthful, LastAnswer, Patient, WaitsSince, Span;
      var signal := DeliverInner(r, m, i);
      match signal
      case Finished => abandoned := false;
      case LostPartition =>
        Abandon(r, m, i, st.phase.stage.recording);
        abandoned := true;
      case BudgetSpent(after) =>
        GiveUp(r, m, i, after);
        abandoned := false;
    }

    /** Exhausted: counted, and recorded as held or failed unless the destination already
        accepted it. */
    method GiveUp(r: Route, m: Message, i: nat, after: bool)
      requires Valid() && Handling(r, m, i, Backoff(after)) && (r.dedupe.Some? ==> EventId(r, m).Some?)
      modifies this`now, this`st, this`journal
      ensures Valid() && old(journal) <= journal
      ensures st.committed == old(st.committed) && st.phase == Busy(m, i + 1, Between, false)
    {
      hide Run, Truthful, LastAnswer, Patient, WaitsSince, Span;
      Emit(Ended(r, EventId(r, m), Exhausted));
      if r.dedupe.Some? && !after {
        var ok := Write(r, m, i, Aftermath(false), Held, None, None);
        if !ok { ok := Write(r, m, i, Aftermath(true), Failed, None, None); }
      }
    }

    // --- the main loop -------------------------------------------------------

    method Take(m: Message)
      requires Valid() && st.phase.Idle? && m.at in st.position && st.position[m.at] == m.offset
      modifies this`st, this`journal
      ensures Valid() && journal == old(journal) + [Took(m)]
      ensures st.phase == Busy(m, 0, Between, false) && st.committed == old(st.committed)
    {
      hide Run, Truthful, LastAnswer, Patient, WaitsSince, Span;
      Emit(Took(m));
    }

    /** A commit refused because the member was evicted is counted, not fatal. */
    method Commit(m: Message)
      requires Valid() && st.phase == Busy(m, |Matching(cfg, m)|, Between, false)
      modifies this`st, this`journal
      ensures Valid() && old(journal) <= journal && st.phase.Idle?
      ensures st.committed == old(st.committed) || st.committed == old(st.committed)[m.at := m.offset + 1]
    {
      hide Run, Truthful, LastAnswer, Patient, WaitsSince, Span;
      var refused: bool := *;
      Emit(if refused then CommitRefused else Committed);
    }

    /** Poll once; hand the message to every matching route in turn; commit once, after
        the last of them. False when the poll was empty. */
    method RunOnce() returns (processed: bool)
      requires Valid() && st.phase.Idle?
      modifies this
      ensures Valid() && st.phase.Idle? && old(journal) <= journal
      ensures |st.tally| == st.begun
      ensures !processed ==> st.committed == old(st.committed) && WaitedFrom(old(journal), journal)
      ensures processed ==> (exists m: Message :: Took(m) in journal[|old(journal)|..]
                                                  && (st.committed == old(st.committed)
                                                      || st.committed == old(st.committed)[m.at := m.offset + 1]))
    {
      hide Run, Step, Truthful, LastAnswer, Patient, WaitsSince, Span;
      var got := Poll();
      if got.None? {
        CountersBalance(cfg, journal);
        return false;
      }
      var body: Option<Record> := *;
      var m := Message(got.value.0, got.value.1, body);
      ghost var before := journal;
      Take(m);
      assert journal[|old(journal)|..][|before| - |old(journal)|] == Took(m);
      var routes := Matching(cfg, m);
      var i := 0;
      while i < |routes|
        invariant 0 <= i <= |routes| && Valid() && before + [Took(m)] <= journal
        invariant st.phase == Busy(m, i, Between, false) && st.committed == old(st.committed)
      {
        if body.None? {
          Begin(routes[i], m, i);
          Finish(routes[i], m, i, Undecodable);
        } else {
          var abandoned := Deliver(routes[i], m, i);
          if abandoned {
            CountersBalance(cfg, journal);
            assert journal[|old(journal)|..][|before| - |old(journal)|] == Took(m);
            return true;
          }
        }
        i := i + 1;
      }
      Commit(m);
      CountersBalance(cfg, journal);
      assert journal[|old(journal)|..][|before| - |old(journal)|] == Took(m);
      processed := true;
    }

    /** The process dies somewhere in the round that began after `since` events: only a
        first part of the round happened. */
    method Crash(since: nat)
      requires Valid() && since <= |journal|
      modifies this
      ensures Valid() && st.phase.Idle? && paused == {}
      ensures exists n: nat :: since <= n <= |old(journal)| && journal == old(journal)[..n] + [Crashed]
    {
      var n: nat :| since <= n <= |journal|;
      CrashAnywhere(cfg, journal, n);
      PatientCut(initial, cap, retryMax, journal, n);
      TruthfulCut(stampsOf, journal, n);
      RunStep(cfg, journal[..n], Crashed);
      hide Run, Truthful, LastAnswer, Patient, WaitsSince, Span;
      journal := journal[..n] + [Crashed];
      st, waits, answer, paused := Run(cfg, journal).value, WaitsSince(journal), LastAnswer(journal), {};
    }

    /** The process: any number of rounds, each cut short by a crash and a restart or not. */
    method Live(rounds: nat)
      requires Valid() && st.phase.Idle?
      modifies this
      ensures Valid() && old(journal) <= journal
      ensures forall a: nat, b: nat, k :: a < b < |journal| && AcceptedFor(journal[a], k) && AcceptedFor(journal[b], k)
                                          ==> CutShort(journal, a, b, k)
      ensures forall p, o: nat :: o < CommittedTo(st, p) ==> Settled(cfg, journal, p, o) || Lost(journal, p, o)
      ensures Truthful(stampsOf, journal)
      ensures forall a: nat, b: nat ::
              (a < b <= |journal| && journal[a].Began? && forall i :: a < i < b ==> !journal[i].Began?)
                ==> WaitsIn(journal[a..b]) <= retryMax + 1
                    && (WaitsIn(journal[a..b]) > 0 ==> Span(initial, cap, WaitsIn(journal[a..b]) - 1) <= retryMax)
    {
      hide Run, Truthful, LastAnswer, Patient, WaitsSince, Span;
      for n := 0 to rounds
        invariant Valid() && st.phase.Idle? && old(journal) <= journal
      {
        var since, crash: bool := |journal|, *;
        var _ := RunOnce();
        if crash { Crash(since); }
      }
      forall a: nat, b: nat, k | a < b < |journal| && AcceptedFor(journal[a], k) && AcceptedFor(journal[b], k)
        ensures CutShort(journal, a, b, k)
      {
        AtMostOnce(cfg, journal, a, b, k);
      }
      forall p, o: nat | o < CommittedTo(st, p) ensures Settled(cfg, journal, p, o) || Lost(journal, p, o) {
        CommittedOffsetIsCovered(cfg, journal, p, o);
      }
      forall a: nat, b: nat | a < b <= |journal| && journal[a].Began? && forall i :: a < i < b ==> !journal[i].Began?
        ensures WaitsIn(journal[a..b]) <= retryMax + 1
        ensures WaitsIn(journal[a..b]) > 0 ==> Span(initial, cap, WaitsIn(journal[a..b]) - 1) <= retryMax
      {
        RetryIsBounded(initial, cap, retryMax, journal, a, b);
      }
    }

    // --- the operator re-send ------------------------------------------------

    /** One event of the re-send process. */
    method Operate(e: Event)
      requires Valid() && (((e.OperatorAudited? || e.OperatorPosted?) && e.key in st.ledger)
                           || (e.OperatorRecorded? && e.key in st.ledger && e.entry.Resend?))
      modifies this`st, this`journal
      ensures Valid() && journal == old(journal) + [e]
      ensures st == if e.OperatorRecorded? then old(st).(ledger := Logged(old(st.ledger), e.key, e.entry)) else old(st)
    {
      hide Run, Truthful, LastAnswer, Patient, WaitsSince, Span, Logged;
      Emit(e);
    }

    /** One named event to one named route, at most one attempt, on an operator's
        say-so: refused before anything is sent, or audited, then posted once, then
        recorded if it was accepted; if the reply of that write is lost the row may have
        changed all the same. */
    method ResendOnce(route: Option<Route>, event: string, record: Option<Record>, stamps: Stamps,
                      reasonGiven: bool)
      returns (code: int)
      requires Valid()
      modifies this`st, this`journal
      ensures Valid() && old(journal) <= journal
      ensures code != 2 ==> route.Some? && route.value.dedupe.Some? && !route.value.held && reasonGiven
                            && record.Some? && route.value.dedupe.value in record.value
                            && record.value[route.value.dedupe.value] == Text(event)
                            && Key(route.value.name, event) in old(st.ledger)
      ensures code == 2 ==> journal == old(journal)
      ensures code != 2 ==> ResendTrace(code, Key(route.value.name, event), stamps, journal[|old(journal)|..])
      ensures code == 0 ==> IsDelivered(st.ledger, Key(route.value.name, event))
      ensures code == 1 && |journal| == |old(journal)| + 1 ==> route.value.credentialed
      ensures code in {1, 2} ==> st == old(st)
      ensures code == 3 ==> st == old(st).(ledger := st.ledger)
    {
      hide Run, Valid, Step, Logged, Accepts;
      ghost var was := journal;
      if route.None? || route.value.dedupe.None? || route.value.held || record.None?
         || route.value.dedupe.value !in record.value
         || record.value[route.value.dedupe.value] != Text(event) || !reasonGiven
      {
        return 2;
      }
      var r := route.value;
      var k := Key(r.name, event);
      var storeUp: bool := *;
      if !storeUp || k !in st.ledger { return 2; }
      var audited: bool := *;
      if !audited { return 2; }
      Operate(OperatorAudited(k));
      var token: bool := *;
      if r.credentialed && !token {
        GrewBy(was, [OperatorAudited(k)]);
        return 1;
      }
      var answer: Answer := *;
      Operate(OperatorPosted(k, answer));
      GrewBy(was, [OperatorAudited(k), OperatorPosted(k, answer)]);
      if !Accepts(answer) { return 1; }
      AcceptedIsStatus(answer);
      ghost var last := OperatorRecorded(k, Resend(Some(answer.code), answer.caseId, stamps, now));
      GrewBy(was, [OperatorAudited(k), OperatorPosted(k, answer), last]);
      ResendDelivers(st.ledger, k, last.entry);
      var written: bool := *;
      if !written {
        var lost: bool := *;
        if lost { Operate(OperatorRecorded(k, Resend(Some(answer.code), answer.caseId, stamps, now))); }
        return 3;
      }
      Operate(OperatorRecorded(k, Resend(Some(answer.code), answer.caseId, stamps, now)));
      code := 0;
    }
  }

  lemma GrewBy(was: seq<Event>, did: seq<Event>)
    ensures (was + did)[|was|..] == did
    ensures forall e: Event :: was + did + [e] == was + (did + [e])
  {
  }

  lemma AcceptedIsStatus(a: Answer)
    requires Accepts(a)
    ensures a.Status?
  {
  }

  lemma ResendDelivers(ledger: map<Key, Row>, k: Key, e: Entry)
    requires k in ledger && e.Resend?
    ensures IsDelivered(Logged(ledger, k, e), k)
  {
  }

  datatype Attempted = Concluded(how: Ending) | Again | Taken(status: int, caseId: Option<string>)

  /** What each exit code but the refusal tells the operator: 0 sent and recorded, 1 nothing
      was accepted, 3 accepted but not known to be recorded. The audit line precedes the
      single POST. */
  ghost predicate ResendTrace(code: int, k: Key, stamps: Stamps, did: seq<Event>) {
    && |did| > 0 && did[0] == OperatorAudited(k)
    && match code
       case 0 => |did| == 3 && PostAccepted(k, did[1]) && Records(k, stamps, did[1], did[2])
       case 1 => |did| == 1 || (|did| == 2 && did[1].OperatorPosted? && did[1].key == k && !Accepts(did[1].answer))
       case 3 => (|did| == 2 || (|did| == 3 && Records(k, stamps, did[1], did[2]))) && PostAccepted(k, did[1])
       case _ => false
  }

  predicate PostAccepted(k: Key, e: Event) { e.OperatorPosted? && e.key == k && Accepts(e.answer) }

  predicate Records(k: Key, stamps: Stamps, post: Event, e: Event) {
    post.OperatorPosted? && e.OperatorRecorded? && e.key == k && e.entry.Resend?
    && IsAnswer(post.answer, e.entry.status, e.entry.caseId) && e.entry.stamps == stamps
  }
}
