/** What every run of the forwarder guarantees, proved of every legal journal:
    arbitrary POST answers, store failures, rebalances, crashes, restarts and
    operator re-sends. */
module ForwarderSafety {
  import opened Options
  import opened Ledger
  import opened ForwarderProtocol

  function Current(cfg: Config, s: State): Route
    requires s.phase.Busy? && s.phase.next < |Matching(cfg, s.phase.m)|
  {
    Matching(cfg, s.phase.m)[s.phase.next]
  }

  /** The ledger key of the delivery in hand, when it has one. */
  function CurrentKey(cfg: Config, s: State): Option<Key> {
    if s.phase.Busy? && s.phase.next < |Matching(cfg, s.phase.m)|
       && EventId(Current(cfg, s), s.phase.m).Some?
    then Some(Key(Current(cfg, s).name, EventId(Current(cfg, s), s.phase.m).value))
    else None
  }

  /** Which stages a route can be in; `known` says the record carries its event id. */
  predicate StageFits(stage: Stage, r: Route, known: bool) {
    match stage
    case Between => true
    case Head => known
    case Ready => (r.dedupe.Some? ==> known) && (r.held ==> r.dedupe.Some?)
    case Recording => known
    case Backoff(rec) => if rec then known else (r.dedupe.Some? ==> known) && (r.held ==> r.dedupe.Some?)
    case Settling(how) => how != Exhausted && how != Abandoned
    case Aftermath(_) => known
  }

  ghost predicate WellFormed(cfg: Config, s: State) {
    s.phase.Busy? ==>
      && s.phase.next <= |Matching(cfg, s.phase.m)|
      && (s.phase.revoked ==> s.phase.stage.Backoff?)
      && (s.phase.stage != Between ==>
            && s.phase.next < |Matching(cfg, s.phase.m)|
            && StageFits(s.phase.stage, Current(cfg, s), EventId(Current(cfg, s), s.phase.m).Some?))
  }

  /** What one delivery event can do. */
  ghost predicate MoveFits(ph: Phase, r: Route, e: Event, mv: Move)
    requires ph.Busy?
  {
    var stage, m := ph.stage, ph.m;
    && (mv.To? ==> StageFits(mv.stage, r, EventId(r, m).Some?) && !ph.revoked && mv.stage != Between)
    && (mv.Quit? <==> ph.revoked)
    && (e.Ended? ==> e.route == r && e.event == EventId(r, m) && !stage.Aftermath? && stage != Between)
    && (e.Ended? ==> (e.how == Abandoned <==> mv.Quit?) && (mv.To? ==> mv.stage.Aftermath?))
    && (mv.Quit? ==> e.Ended?)
    && (mv.Next? ==> e.Ended? || stage.Aftermath?)
    && (mv.To? && mv.stage.Aftermath? ==> e.Ended? || stage.Aftermath?)
    && (stage.Aftermath? ==> mv.Next? || (mv.To? && mv.stage.Aftermath?))
    && (e.Wrote? || e.Unconfirmed? ==> e.key == KeyFor(r, m) && e.entry.Upsert? && EventId(r, m).Some?)
    && (e.Began? <==> stage == Between)
    && (e.Began? ==> mv.To? && !mv.stage.Aftermath?)
    && (e.Posted? ==> stage.Ready? && e.route == r && e.event == EventId(r, m))
  }

  lemma MoveFacts(ph: Phase, r: Route, delivered: bool, e: Event)
    requires ph.Busy? && StageFits(ph.stage, r, EventId(r, ph.m).Some?) && (ph.revoked ==> ph.stage.Backoff?)
    requires Deliver(ph.stage, ph.revoked, r, ph.m, EventId(r, ph.m), KeyFor(r, ph.m), delivered, e).Some?
    ensures MoveFits(ph, r, e,
                     Deliver(ph.stage, ph.revoked, r, ph.m, EventId(r, ph.m), KeyFor(r, ph.m), delivered, e).value)
  {
  }

  /** The delivery event behind a step of the message in hand. */
  ghost predicate Delivering(cfg: Config, s: State, e: Event) {
    && s.phase.Busy? && s.phase.next < |Matching(cfg, s.phase.m)|
    && !e.Took? && !e.Committed? && !e.CommitRefused? && !Around(e)
  }

  lemma StepFacts(cfg: Config, s: State, e: Event)
    requires WellFormed(cfg, s) && Step(cfg, s, e).Some? && Delivering(cfg, s, e)
    ensures Deliver(s.phase.stage, s.phase.revoked, Current(cfg, s), s.phase.m,
                    EventId(Current(cfg, s), s.phase.m), KeyFor(Current(cfg, s), s.phase.m),
                    IsDelivered(s.ledger, KeyFor(Current(cfg, s), s.phase.m)), e).Some?
    ensures StageFits(s.phase.stage, Current(cfg, s), EventId(Current(cfg, s), s.phase.m).Some?)
    ensures s.phase.revoked ==> s.phase.stage.Backoff?
    ensures Step(cfg, s, e) == StepRoute(s, Current(cfg, s), e)
  {
  }

  /** The move a delivery event makes. */
  ghost function TheMove(cfg: Config, s: State, e: Event): Option<Move>
    requires Delivering(cfg, s, e)
  {
    var r, m := Current(cfg, s), s.phase.m;
    Deliver(s.phase.stage, s.phase.revoked, r, m, EventId(r, m), KeyFor(r, m), IsDelivered(s.ledger, KeyFor(r, m)), e)
  }

  lemma StepDelivers(cfg: Config, s: State, e: Event)
    requires WellFormed(cfg, s) && Step(cfg, s, e).Some? && Delivering(cfg, s, e)
    ensures TheMove(cfg, s, e).Some?
    ensures MoveFits(s.phase, Current(cfg, s), e, TheMove(cfg, s, e).value)
    ensures StageFits(s.phase.stage, Current(cfg, s), EventId(Current(cfg, s), s.phase.m).Some?)
    ensures s.phase.revoked ==> s.phase.stage.Backoff?
    ensures Step(cfg, s, e) == StepRoute(s, Current(cfg, s), e)
  {
    StepFacts(cfg, s, e);
    hide Deliver;
    MoveFacts(s.phase, Current(cfg, s), IsDelivered(s.ledger, KeyFor(Current(cfg, s), s.phase.m)), e);
  }

  lemma WellFormedStep(cfg: Config, s: State, e: Event)
    requires WellFormed(cfg, s) && Step(cfg, s, e).Some?
    ensures WellFormed(cfg, Step(cfg, s, e).value)
  {
    hide Deliver;
    if Delivering(cfg, s, e) { StepDelivers(cfg, s, e); }
  }

  lemma {:induction false} RunWellFormed(cfg: Config, j: seq<Event>)
    requires Legal(cfg, j)
    ensures WellFormed(cfg, Run(cfg, j).value)
  {
    hide Step;
    if j != [] {
      var p := j[..|j| - 1];
      RunWellFormed(cfg, p);
      WellFormedStep(cfg, Run(cfg, p).value, j[|j| - 1]);
    }
  }

  // --- 1. at most one accepted POST, up to the one declared window -----------

  /** The destination answered 2xx to a forwarder's own POST of this event. */
  ghost predicate AcceptedFor(e: Event, k: Key) {
    e.Posted? && e.route.dedupe.Some? && e.route.name == k.route && e.event == Some(k.event)
    && Accepts(e.answer)
  }

  ghost predicate RecordedFor(e: Event, k: Key) {
    (e.Wrote? || e.Unconfirmed?) && e.key == k && e.entry.Upsert? && e.entry.outcome == Delivered
  }

  /** A crash, or this event's delivery being abandoned or exhausted. */
  ghost predicate Interrupts(e: Event, k: Key) {
    || e.Crashed?
    || (e.Ended? && (e.how == Abandoned || e.how == Exhausted)
        && e.route.name == k.route && e.event == Some(k.event))
  }

  /** After the acceptance at `i` and before `until`, the delivery was interrupted
      with its row still unwritten. */
  ghost predicate CutShort(j: seq<Event>, i: nat, until: nat, k: Key) {
    exists n: nat :: i < n < until && n < |j| && Interrupts(j[n], k)
                     && forall m: nat :: i < m < n ==> !RecordedFor(j[m], k)
  }

  ghost predicate InRecording(cfg: Config, s: State, k: Key) {
    CurrentKey(cfg, s) == Some(k) && (s.phase.stage.Recording? || s.phase.stage == Backoff(true))
  }

  ghost predicate OnceInv(cfg: Config, j: seq<Event>, s: State) {
    && (forall i: nat, k: Key :: i < |j| && AcceptedFor(j[i], k) ==>
          || IsDelivered(s.ledger, k)
          || CutShort(j, i, |j|, k)
          || (InRecording(cfg, s, k) && forall m: nat :: i < m < |j| ==> !RecordedFor(j[m], k)))
    && (s.phase.Busy? && s.phase.stage.Ready? && CurrentKey(cfg, s).Some? ==>
          forall i: nat :: i < |j| && AcceptedFor(j[i], CurrentKey(cfg, s).value)
                           ==> CutShort(j, i, |j|, CurrentKey(cfg, s).value))
  }

  lemma CutShortGrows(j: seq<Event>, e: Event, i: nat, k: Key)
    requires CutShort(j, i, |j|, k)
    ensures CutShort(j + [e], i, |j| + 1, k)
  {
    var n: nat :| i < n < |j| && Interrupts(j[n], k)
                  && forall m: nat :: i < m < n ==> !RecordedFor(j[m], k);
    assert Interrupts((j + [e])[n], k);
  }

  /** No step takes a delivered row back. */
  lemma DeliveredStays(cfg: Config, s: State, e: Event, k: Key)
    requires Step(cfg, s, e).Some?
    ensures IsDelivered(s.ledger, k) ==> IsDelivered(Step(cfg, s, e).value.ledger, k)
    ensures k in s.ledger ==> k in Step(cfg, s, e).value.ledger
  {
    hide Deliver, Apply;
    ApplyLaws();
  }

  lemma LoggedKeeps(ledger: map<Key, Row>, k: Key, e: Entry)
    ensures forall x :: IsDelivered(ledger, x) ==> IsDelivered(Logged(ledger, k, e), x)
    ensures k in ledger ==> Logged(ledger, k, e).Keys == ledger.Keys
  {
    hide Apply;
    ApplyLaws();
  }

  lemma OnceStep(cfg: Config, j: seq<Event>, s: State, e: Event)
    requires WellFormed(cfg, s) && OnceInv(cfg, j, s) && Step(cfg, s, e).Some?
    ensures OnceInv(cfg, j + [e], Step(cfg, s, e).value)
  {
    var t, js := Step(cfg, s, e).value, j + [e];
    forall i: nat, k: Key | i < |js| && AcceptedFor(js[i], k)
      ensures || IsDelivered(t.ledger, k)
              || CutShort(js, i, |js|, k)
              || (InRecording(cfg, t, k) && forall m: nat :: i < m < |js| ==> !RecordedFor(js[m], k))
    {
      if i < |j| {
        assert AcceptedFor(j[i], k);
        if IsDelivered(s.ledger, k) {
          DeliveredStays(cfg, s, e, k);
        } else if CutShort(j, i, |j|, k) {
          CutShortGrows(j, e, i, k);
        } else {
          RecordingStep(cfg, s, e, k);
          if Interrupts(e, k) {
            assert Interrupts(js[|j|], k) && forall m: nat :: i < m < |j| ==> !RecordedFor(js[m], k);
          }
        }
      }
    }
    ReadyStep(cfg, j, s, e);
  }

  /** From the acceptance on, the delivery writes its row, is interrupted, or is
      still at it. */
  lemma RecordingStep(cfg: Config, s: State, e: Event, k: Key)
    requires WellFormed(cfg, s) && InRecording(cfg, s, k) && Step(cfg, s, e).Some?
    ensures var t := Step(cfg, s, e).value;
            IsDelivered(t.ledger, k) || Interrupts(e, k) || (InRecording(cfg, t, k) && !RecordedFor(e, k))
  {
    if Delivering(cfg, s, e) {
      StepDelivers(cfg, s, e);
      RecordingMove(s.phase, Current(cfg, s), IsDelivered(s.ledger, k), e);
    }
    hide Deliver, Apply;
    ApplyLaws();
  }

  lemma RecordingMove(ph: Phase, r: Route, delivered: bool, e: Event)
    requires ph.Busy? && (ph.stage.Recording? || ph.stage == Backoff(true))
    requires Deliver(ph.stage, ph.revoked, r, ph.m, EventId(r, ph.m), KeyFor(r, ph.m), delivered, e).Some?
    ensures var mv := Deliver(ph.stage, ph.revoked, r, ph.m, EventId(r, ph.m), KeyFor(r, ph.m), delivered, e).value;
            || Writes(e, KeyFor(r, ph.m), Delivered)
            || (e.Unconfirmed? && WriteRaises(e, KeyFor(r, ph.m), Delivered))
            || (e.Ended? && (e.how == Abandoned || e.how == Exhausted))
            || (!e.Wrote? && !e.Unconfirmed? && mv.To? && (mv.stage.Recording? || mv.stage == Backoff(true)))
  {
  }

  lemma ReadyMove(ph: Phase, r: Route, delivered: bool, e: Event)
    requires ph.Busy? && r.dedupe.Some?
    requires Deliver(ph.stage, ph.revoked, r, ph.m, EventId(r, ph.m), KeyFor(r, ph.m), delivered, e) == Some(To(Ready))
    ensures ph.stage.Head? && e.Looked? && !delivered
  {
  }

  lemma ReadyStep(cfg: Config, j: seq<Event>, s: State, e: Event)
    requires WellFormed(cfg, s) && OnceInv(cfg, j, s) && Step(cfg, s, e).Some?
    ensures var t := Step(cfg, s, e).value;
            t.phase.Busy? && t.phase.stage.Ready? && CurrentKey(cfg, t).Some? ==>
              forall i: nat :: i <= |j| && AcceptedFor((j + [e])[i], CurrentKey(cfg, t).value)
                               ==> CutShort(j + [e], i, |j| + 1, CurrentKey(cfg, t).value)
  {
    var t, js := Step(cfg, s, e).value, j + [e];
    if t.phase.Busy? && t.phase.stage.Ready? && CurrentKey(cfg, t).Some? {
      var k := CurrentKey(cfg, t).value;
      ReadySource(cfg, s, e);
      forall i: nat | i <= |j| && AcceptedFor(js[i], k) ensures CutShort(js, i, |j| + 1, k) {
        assert i < |j| && AcceptedFor(j[i], k);
        assert CutShort(j, i, |j|, k);
        CutShortGrows(j, e, i, k);
      }
    }
  }

  /** A keyed delivery is ready to send only after a lookup that found no delivery. */
  lemma ReadySource(cfg: Config, s: State, e: Event)
    requires WellFormed(cfg, s) && Step(cfg, s, e).Some?
    requires var t := Step(cfg, s, e).value;
             t.phase.Busy? && t.phase.stage.Ready? && CurrentKey(cfg, t).Some?
    ensures !e.Posted? && CurrentKey(cfg, s) == CurrentKey(cfg, Step(cfg, s, e).value)
    ensures s.phase.stage.Ready? || (s.phase.stage.Head? && !IsDelivered(s.ledger, CurrentKey(cfg, s).value))
  {
    if Delivering(cfg, s, e) {
      StepDelivers(cfg, s, e);
      ReadyMove(s.phase, Current(cfg, s), IsDelivered(s.ledger, KeyFor(Current(cfg, s), s.phase.m)), e);
    }
    hide Deliver;
  }

  lemma {:induction false} RunOnceInv(cfg: Config, j: seq<Event>)
    requires Legal(cfg, j)
    ensures OnceInv(cfg, j, Run(cfg, j).value)
  {
    hide Step;
    if j != [] {
      var p := j[..|j| - 1];
      RunOnceInv(cfg, p);
      RunWellFormed(cfg, p);
      OnceStep(cfg, p, Run(cfg, p).value, j[|j| - 1]);
      assert p + [j[|j| - 1]] == j;
    }
  }

  /** Each event of a legal journal was enabled where it stands. */
  lemma EventEnabled(cfg: Config, j: seq<Event>, n: nat)
    requires Legal(cfg, j) && n < |j|
    ensures Legal(cfg, j[..n]) && Step(cfg, Run(cfg, j[..n]).value, j[n]).Some?
  {
    hide Step;
    CrashAnywhere(cfg, j, n);
    CrashAnywhere(cfg, j, n + 1);
    assert j[..n + 1] == j[..n] + [j[n]];
    RunStep(cfg, j[..n], j[n]);
  }

  lemma PostNeedsReady(cfg: Config, s: State, e: Event)
    requires WellFormed(cfg, s) && Step(cfg, s, e).Some? && e.Posted?
    ensures s.phase.Busy? && s.phase.stage.Ready?
    ensures e.route.dedupe.Some? && e.event.Some?
            ==> CurrentKey(cfg, s) == Some(Key(e.route.name, e.event.value))
  {
    hide Deliver;
    if Delivering(cfg, s, e) { StepDelivers(cfg, s, e); }
  }

  /** Two accepted POSTs of one (route, event id) need a crash, an abandon or an
      exhaustion between them, and it fell before the first one's row was written.
      Operator re-sends are separate events and never count as an acceptance. */
  lemma AtMostOnce(cfg: Config, j: seq<Event>, a: nat, b: nat, k: Key)
    requires Legal(cfg, j) && a < b < |j| && AcceptedFor(j[a], k) && AcceptedFor(j[b], k)
    ensures CutShort(j, a, b, k)
  {
    hide Step;
    var p := j[..b];
    EventEnabled(cfg, j, b);
    RunOnceInv(cfg, p);
    RunWellFormed(cfg, p);
    PostNeedsReady(cfg, Run(cfg, p).value, j[b]);
    ReadyMeansCut(cfg, p, Run(cfg, p).value, a, k);
    CutShortIn(j, a, b, k);
  }

  lemma ReadyMeansCut(cfg: Config, j: seq<Event>, s: State, a: nat, k: Key)
    requires OnceInv(cfg, j, s) && s.phase.Busy? && s.phase.stage.Ready? && CurrentKey(cfg, s) == Some(k)
    requires a < |j| && AcceptedFor(j[a], k)
    ensures CutShort(j, a, |j|, k)
  {
  }

  lemma CutShortIn(j: seq<Event>, a: nat, b: nat, k: Key)
    requires b <= |j| && CutShort(j[..b], a, b, k)
    ensures CutShort(j, a, b, k)
  {
    var p := j[..b];
    var n: nat :| a < n < b && Interrupts(p[n], k) && forall m: nat :: a < m < n ==> !RecordedFor(p[m], k);
    assert Interrupts(j[n], k) && forall m: nat :: a < m < n ==> !RecordedFor(j[m], k);
  }

  /** Inside one delivery at most one POST is accepted, whatever the route: any two
      acceptances are separated by the start of another delivery. */
  lemma OneAcceptancePerDelivery(cfg: Config, j: seq<Event>, a: nat, b: nat)
    requires Legal(cfg, j) && a < b < |j|
    requires j[a].Posted? && Accepts(j[a].answer) && j[b].Posted?
    ensures exists n: nat :: a < n < b && j[n].Began?
  {
    hide Step;
    EventEnabled(cfg, j, b);
    RunWellFormed(cfg, j[..b]);
    PostNeedsReady(cfg, Run(cfg, j[..b]).value, j[b]);
    FreshStart(cfg, j[..b], a);
    var n: nat :| a < n < |j[..b]| && j[..b][n].Began?;
    assert j[n].Began?;
  }

  ghost predicate StillTrying(s: State) {
    s.phase.Busy? && (s.phase.stage.Head? || s.phase.stage.Ready? || s.phase.stage == Backoff(false))
  }

  lemma TryingMove(ph: Phase, r: Route, delivered: bool, e: Event)
    requires ph.Busy?
    requires var mv := Deliver(ph.stage, ph.revoked, r, ph.m, EventId(r, ph.m), KeyFor(r, ph.m), delivered, e);
             mv.Some? && mv.value.To?
             && (mv.value.stage.Head? || mv.value.stage.Ready? || mv.value.stage == Backoff(false))
    ensures e.Began? || ph.stage.Head? || ph.stage.Ready? || ph.stage == Backoff(false)
    ensures e.Posted? ==> !Accepts(e.answer)
  {
  }

  lemma TryingStep(cfg: Config, s: State, e: Event)
    requires WellFormed(cfg, s) && Step(cfg, s, e).Some? && StillTrying(Step(cfg, s, e).value)
    ensures e.Began? || StillTrying(s)
    ensures e.Posted? ==> !Accepts(e.answer)
  {
    if Delivering(cfg, s, e) {
      StepDelivers(cfg, s, e);
      TryingMove(s.phase, Current(cfg, s), IsDelivered(s.ledger, KeyFor(Current(cfg, s), s.phase.m)), e);
    }
    hide Deliver;
  }

  lemma {:induction false} FreshStart(cfg: Config, j: seq<Event>, a: nat)
    requires Legal(cfg, j) && a < |j| && j[a].Posted? && Accepts(j[a].answer)
    requires StillTrying(Run(cfg, j).value)
    ensures exists n: nat :: a < n < |j| && j[n].Began?
  {
    hide Step;
    var p, e := j[..|j| - 1], j[|j| - 1];
    EventEnabled(cfg, j, |p|);
    RunWellFormed(cfg, p);
    TryingStep(cfg, Run(cfg, p).value, e);
    if e.Began? {
      assert a < |j| - 1;
    } else {
      assert a < |p|;
      FreshStart(cfg, p, a);
      var n: nat :| a < n < |p| && p[n].Began?;
      assert j[n].Began?;
    }
  }

  // --- 2. the ledger along a run ---------------------------------------------

  /** The ledger statements a journal executed for one key. */
  function Entries(j: seq<Event>, k: Key): seq<Entry> {
    if j == [] then []
    else
      var before, e := Entries(j[..|j| - 1], k), j[|j| - 1];
      if (e.Wrote? || e.Unconfirmed? || e.OperatorRecorded?) && e.key == k then before + [e.entry] else before
  }

  lemma LedgerStep(cfg: Config, s: State, e: Event, k: Key)
    requires WellFormed(cfg, s) && Step(cfg, s, e).Some?
    ensures RowOf(Step(cfg, s, e).value.ledger, k)
            == if (e.Wrote? || e.Unconfirmed? || e.OperatorRecorded?) && e.key == k
               then Apply(RowOf(s.ledger, k), e.entry)
               else RowOf(s.ledger, k)
  {
    hide Deliver, Apply;
    ApplyLaws();
    if Delivering(cfg, s, e) { StepDelivers(cfg, s, e); }
  }

  /** Along every run each row is what its own statements leave, so `RowMeaning`
      and `NeverUndone` speak about runs. */
  lemma {:induction false} LedgerIsHistory(cfg: Config, j: seq<Event>, k: Key)
    requires Legal(cfg, j)
    ensures RowOf(Run(cfg, j).value.ledger, k) == Replay(Entries(j, k))
  {
    hide Step;
    if j != [] {
      var p, e := j[..|j| - 1], j[|j| - 1];
      LedgerIsHistory(cfg, p, k);
      RunWellFormed(cfg, p);
      LedgerStep(cfg, Run(cfg, p).value, e, k);
      if (e.Wrote? || e.Unconfirmed? || e.OperatorRecorded?) && e.key == k {
        assert (Entries(p, k) + [e.entry])[..|Entries(p, k)|] == Entries(p, k);
      }
    }
  }

  lemma {:induction false} EntriesPrefix(j: seq<Event>, n: nat, k: Key)
    requires n <= |j|
    ensures Entries(j[..n], k) <= Entries(j, k)
  {
    if n == |j| {
      assert j[..n] == j;
    } else {
      EntriesPrefix(j[..|j| - 1], n, k);
      assert j[..|j| - 1][..n] == j[..n];
    }
  }

  /** So along every run, crashes and operators included, a row once written stays; a
      delivered one stays delivered, a stamp once there stays filled, and the first-recorded
      time never moves. */
  lemma RowsAreKept(cfg: Config, j: seq<Event>, n: nat, k: Key)
    requires Legal(cfg, j) && n <= |j| && Legal(cfg, j[..n]) && k in Run(cfg, j[..n]).value.ledger
    ensures k in Run(cfg, j).value.ledger
    ensures Kept(Run(cfg, j[..n]).value.ledger[k], Run(cfg, j).value.ledger[k])
  {
    hide Run, Entries, Step, Replay, Kept;
    LedgerIsHistory(cfg, j[..n], k);
    LedgerIsHistory(cfg, j, k);
    EntriesPrefix(j, n, k);
    KeptByStatements(Entries(j[..n], k), Entries(j, k));
  }

  lemma KeptByStatements(es: seq<Entry>, all: seq<Entry>)
    requires es <= all && Replay(es).Some?
    ensures Replay(all).Some? && Kept(Replay(es).value, Replay(all).value)
  {
    hide Replay;
    NeverUndone(es, all[|es|..]);
    assert es + all[|es|..] == all;
  }

  /** What no later statement takes back from a row. */
  ghost predicate Kept(a: Row, b: Row) {
    && a.firstRecorded == b.firstRecorded
    && (a.outcome == Ledger.Delivered ==> b.outcome == Ledger.Delivered)
    && (a.stamps.episode.Some? ==> b.stamps.episode.Some?)
    && (a.stamps.asset.Some? ==> b.stamps.asset.Some?)
    && (a.stamps.component.Some? ==> b.stamps.component.Some?)
    && (a.stamps.fault.Some? ==> b.stamps.fault.Some?)
  }

  /** What a finished dedupe delivery left behind: a delivered row for a send or a
      duplicate; a row for a hold; for an exhaustion a row, an earlier acceptance,
      a declared loss, a crash before either could be written, or the write still
      due. Nothing ends silently. */
  ghost predicate Accounted(cfg: Config, j: seq<Event>, s: State, i: nat)
    requires i < |j| && j[i].Ended? && j[i].event.Some?
  {
    var k := Key(j[i].route.name, j[i].event.value);
    match j[i].how
    case Sent => IsDelivered(s.ledger, k)
    case Duplicate => IsDelivered(s.ledger, k)
    case WasHeld => k in s.ledger
    case Exhausted =>
      || k in s.ledger
      || (exists n: nat :: n < i && AcceptedFor(j[n], k))
      || (exists n: nat :: i < n < |j| && (j[n] == Declared(k) || j[n].Crashed?))
      || (CurrentKey(cfg, s) == Some(k) && s.phase.stage.Aftermath?)
    case _ => true
  }

  ghost predicate SettledFits(s: State, k: Key)
    requires s.phase.Busy?
  {
    && (s.phase.stage == Settling(Sent) || s.phase.stage == Settling(Duplicate) ==> IsDelivered(s.ledger, k))
    && (s.phase.stage == Settling(WasHeld) ==> k in s.ledger)
  }

  predicate AfterAccept(stage: Stage) { stage.Recording? || stage == Backoff(true) }

  ghost predicate StageAccounted(j: seq<Event>, s: State, k: Key)
    requires s.phase.Busy?
  {
    var stage := s.phase.stage;
    && SettledFits(s, k)
    && (stage.Recording? || stage == Backoff(true) ==> exists n: nat :: n < |j| && AcceptedFor(j[n], k))
  }

  ghost predicate AccountInv(cfg: Config, j: seq<Event>, s: State) {
    && (forall i: nat :: i < |j| && j[i].Ended? && j[i].route.dedupe.Some? && j[i].event.Some?
                         ==> Accounted(cfg, j, s, i))
    && (CurrentKey(cfg, s).Some? ==> StageAccounted(j, s, CurrentKey(cfg, s).value))
  }

  lemma KeyedRoutesDedupe(cfg: Config, s: State)
    requires CurrentKey(cfg, s).Some?
    ensures Current(cfg, s).dedupe.Some?
  {
  }

  lemma AccountStep(cfg: Config, j: seq<Event>, s: State, e: Event)
    requires WellFormed(cfg, s) && AccountInv(cfg, j, s) && Step(cfg, s, e).Some?
    ensures AccountInv(cfg, j + [e], Step(cfg, s, e).value)
  {
    hide Step;
    var t, js := Step(cfg, s, e).value, j + [e];
    assert forall n: nat :: n < |j| ==> js[n] == j[n];
    forall i: nat | i < |js| && js[i].Ended? && js[i].route.dedupe.Some? && js[i].event.Some?
      ensures Accounted(cfg, js, t, i)
    {
      if i < |j| {
        assert Accounted(cfg, j, s, i);
        AccountedGrows(cfg, j, s, e, i);
      } else {
        EndingAccounted(cfg, j, s, e);
      }
    }
    StageAccount(cfg, j, s, e);
  }

  lemma EndingMove(ph: Phase, r: Route, delivered: bool, e: Event)
    requires ph.Busy? && e.Ended? && r.dedupe.Some?
    requires Deliver(ph.stage, ph.revoked, r, ph.m, EventId(r, ph.m), KeyFor(r, ph.m), delivered, e).Some?
    ensures ph.stage == Settling(e.how) || (ph.stage.Backoff? && (e.how == Abandoned || e.how == Exhausted))
    ensures ph.stage == Backoff(false) && e.how == Exhausted ==>
              Deliver(ph.stage, ph.revoked, r, ph.m, EventId(r, ph.m), KeyFor(r, ph.m), delivered, e)
              == Some(To(Aftermath(false)))
  {
  }

  lemma EndingAccounted(cfg: Config, j: seq<Event>, s: State, e: Event)
    requires WellFormed(cfg, s) && AccountInv(cfg, j, s) && Step(cfg, s, e).Some?
    requires e.Ended? && e.route.dedupe.Some? && e.event.Some?
    ensures Accounted(cfg, j + [e], Step(cfg, s, e).value, |j|)
  {
    var t, js := Step(cfg, s, e).value, j + [e];
    assert Delivering(cfg, s, e);
    StepDelivers(cfg, s, e);
    EndingMove(s.phase, Current(cfg, s), IsDelivered(s.ledger, KeyFor(Current(cfg, s), s.phase.m)), e);
    hide Deliver;
    var k := Key(e.route.name, e.event.value);
    assert CurrentKey(cfg, s) == Some(k);
    DeliveredStays(cfg, s, e, k);
    if e.how == Exhausted && s.phase.stage == Backoff(true) {
      var n: nat :| n < |j| && AcceptedFor(j[n], k);
      assert AcceptedFor(js[n], k);
    }
  }

  lemma SettleMove(ph: Phase, r: Route, delivered: bool, e: Event)
    requires ph.Busy? && r.dedupe.Some? && EventId(r, ph.m).Some? && ph.m.body.Some?
    requires Deliver(ph.stage, ph.revoked, r, ph.m, EventId(r, ph.m), KeyFor(r, ph.m), delivered, e).Some?
    ensures var mv := Deliver(ph.stage, ph.revoked, r, ph.m, EventId(r, ph.m), KeyFor(r, ph.m), delivered, e).value;
            mv.To? ==>
              && (mv.stage == Settling(Sent) ==> Writes(e, KeyFor(r, ph.m), Delivered))
              && (mv.stage == Settling(Duplicate) ==> delivered)
              && (mv.stage == Settling(WasHeld) ==> Writes(e, KeyFor(r, ph.m), Held))
              && (mv.stage.Recording? || mv.stage == Backoff(true) ==>
                    || ph.stage.Recording? || ph.stage == Backoff(true)
                    || (e.Posted? && e.route == r && e.event == EventId(r, ph.m) && Accepts(e.answer)))
  {
  }

  lemma WriteLands(cfg: Config, s: State, e: Event, k: Key)
    requires WellFormed(cfg, s) && Step(cfg, s, e).Some?
    ensures Writes(e, k, Delivered) ==> IsDelivered(Step(cfg, s, e).value.ledger, k)
    ensures Writes(e, k, Held) ==> k in Step(cfg, s, e).value.ledger
  {
    hide Deliver;
  }

  lemma StageAround(cfg: Config, s: State, e: Event, k: Key)
    requires WellFormed(cfg, s) && Step(cfg, s, e).Some? && !Delivering(cfg, s, e)
    requires CurrentKey(cfg, Step(cfg, s, e).value) == Some(k) && Step(cfg, s, e).value.phase.stage != Between
    ensures s.phase.Busy? && Step(cfg, s, e).value.phase.stage == s.phase.stage && CurrentKey(cfg, s) == Some(k)
  {
    hide Deliver, EventId, Logged;
  }

  lemma StageDelivering(cfg: Config, s: State, e: Event, k: Key)
    requires WellFormed(cfg, s) && Step(cfg, s, e).Some? && Delivering(cfg, s, e)
    requires CurrentKey(cfg, Step(cfg, s, e).value) == Some(k) && Step(cfg, s, e).value.phase.stage != Between
    ensures CurrentKey(cfg, s) == Some(k) && TheMove(cfg, s, e) == Some(To(Step(cfg, s, e).value.phase.stage))
    ensures Current(cfg, s).dedupe.Some? && s.phase.m.body.Some?
  {
    StepDelivers(cfg, s, e);
    KeyedRoutesDedupe(cfg, Step(cfg, s, e).value);
    hide Deliver, EventId, Logged, Step;
    KeyHasBody(cfg, s);
  }

  lemma KeyHasBody(cfg: Config, s: State)
    requires CurrentKey(cfg, s).Some?
    ensures s.phase.m.body.Some?
  {
  }

  /** The stage of a keyed delivery after one event, from the stage before it. */
  lemma StageStep(cfg: Config, s: State, e: Event, k: Key)
    requires WellFormed(cfg, s) && Step(cfg, s, e).Some?
    requires CurrentKey(cfg, Step(cfg, s, e).value) == Some(k) && Step(cfg, s, e).value.phase.stage != Between
    requires CurrentKey(cfg, s) == Some(k) ==> SettledFits(s, k)
    ensures CurrentKey(cfg, s) == Some(k) && SettledFits(Step(cfg, s, e).value, k)
    ensures AfterAccept(Step(cfg, s, e).value.phase.stage) ==> AfterAccept(s.phase.stage) || AcceptedFor(e, k)
  {
    WriteLands(cfg, s, e, k);
    DeliveredStays(cfg, s, e, k);
    if Delivering(cfg, s, e) {
      StageDelivering(cfg, s, e, k);
      SettleMove(s.phase, Current(cfg, s), IsDelivered(s.ledger, k), e);
    } else {
      StageAround(cfg, s, e, k);
    }
    hide Deliver, Logged, Step, WellFormed;
  }

  lemma StageAccount(cfg: Config, j: seq<Event>, s: State, e: Event)
    requires WellFormed(cfg, s) && AccountInv(cfg, j, s) && Step(cfg, s, e).Some?
    ensures var t := Step(cfg, s, e).value;
            CurrentKey(cfg, t).Some? ==> StageAccounted(j + [e], t, CurrentKey(cfg, t).value)
  {
    hide Step, WellFormed;
    var t, js := Step(cfg, s, e).value, j + [e];
    if CurrentKey(cfg, t).Some? && t.phase.stage != Between {
      var k := CurrentKey(cfg, t).value;
      StageStep(cfg, s, e, k);
      if AfterAccept(t.phase.stage) {
        if AcceptedFor(e, k) {
          assert AcceptedFor(js[|j|], k);
        } else {
          var n: nat :| n < |j| && AcceptedFor(j[n], k);
          assert AcceptedFor(js[n], k);
        }
      }
    }
  }

  lemma AftermathMove(ph: Phase, r: Route, delivered: bool, e: Event)
    requires ph.Busy? && ph.stage.Aftermath?
    requires Deliver(ph.stage, ph.revoked, r, ph.m, EventId(r, ph.m), KeyFor(r, ph.m), delivered, e).Some?
    ensures var mv := Deliver(ph.stage, ph.revoked, r, ph.m, EventId(r, ph.m), KeyFor(r, ph.m), delivered, e).value;
            || (e.Wrote? && e.key == KeyFor(r, ph.m) && e.entry.Upsert?)
            || e == Declared(KeyFor(r, ph.m))
            || mv == To(Aftermath(true))
  {
  }

  /** The exhausted delivery in hand gets its row, is declared lost, or is cut by a crash. */
  lemma AftermathStep(cfg: Config, s: State, e: Event, k: Key)
    requires WellFormed(cfg, s) && Step(cfg, s, e).Some?
    requires CurrentKey(cfg, s) == Some(k) && s.phase.stage.Aftermath?
    ensures var t := Step(cfg, s, e).value;
            k in t.ledger || e == Declared(k) || e.Crashed?
            || (CurrentKey(cfg, t) == Some(k) && t.phase.stage.Aftermath?)
  {
    if Delivering(cfg, s, e) {
      StepDelivers(cfg, s, e);
      AftermathMove(s.phase, Current(cfg, s), IsDelivered(s.ledger, k), e);
    }
    hide Deliver, Apply;
    ApplyLaws();
  }

  lemma AccountedGrows(cfg: Config, j: seq<Event>, s: State, e: Event, i: nat)
    requires WellFormed(cfg, s) && Step(cfg, s, e).Some?
    requires i < |j| && j[i].Ended? && j[i].event.Some? && Accounted(cfg, j, s, i)
    ensures Accounted(cfg, j + [e], Step(cfg, s, e).value, i)
  {
    hide Step;
    var t, js := Step(cfg, s, e).value, j + [e];
    var k := Key(j[i].route.name, j[i].event.value);
    assert forall n: nat :: n < |j| ==> js[n] == j[n];
    DeliveredStays(cfg, s, e, k);
    if j[i].how == Exhausted && k !in s.ledger {
      if n: nat :| n < i && AcceptedFor(j[n], k) {
        assert AcceptedFor(js[n], k);
      } else if n: nat :| i < n < |j| && (j[n] == Declared(k) || j[n].Crashed?) {
        assert js[n] == Declared(k) || js[n].Crashed?;
      } else {
        AftermathStep(cfg, s, e, k);
        assert js[|j|] == e;
      }
    }
  }

  lemma {:induction false} NothingEndsSilently(cfg: Config, j: seq<Event>, i: nat)
    requires Legal(cfg, j) && i < |j| && j[i].Ended? && j[i].route.dedupe.Some? && j[i].event.Some?
    ensures Accounted(cfg, j, Run(cfg, j).value, i)
  {
    RunAccountInv(cfg, j);
  }

  lemma {:induction false} RunAccountInv(cfg: Config, j: seq<Event>)
    requires Legal(cfg, j)
    ensures AccountInv(cfg, j, Run(cfg, j).value)
  {
    hide Step;
    if j != [] {
      var p := j[..|j| - 1];
      RunAccountInv(cfg, p);
      RunWellFormed(cfg, p);
      AccountStep(cfg, p, Run(cfg, p).value, j[|j| - 1]);
      assert p + [j[|j| - 1]] == j;
    }
  }

  // --- 3. what a committed offset stands for ---------------------------------

  /** The message last polled for processing, if the process has not crashed since. */
  function Latest(j: seq<Event>): Option<Message> {
    if j == [] then None
    else match j[|j| - 1]
      case Took(m) => Some(m)
      case Crashed => None
      case _ => Latest(j[..|j| - 1])
  }

  /** The endings since then, in order. */
  function Endings(j: seq<Event>): seq<(Route, Ending)> {
    if j == [] then []
    else match j[|j| - 1]
      case Took(_) => []
      case Crashed => []
      case Ended(r, _, how) => Endings(j[..|j| - 1]) + [(r, how)]
      case _ => Endings(j[..|j| - 1])
  }

  /** Every matching route, in order and once each, reached an ending other than
      `Abandoned`. */
  ghost predicate AllEnded(routes: seq<Route>, ends: seq<(Route, Ending)>) {
    |ends| == |routes|
    && forall i :: 0 <= i < |routes| ==> ends[i].0 == routes[i] && ends[i].1 != Abandoned
  }

  ghost predicate Complete(cfg: Config, j: seq<Event>, p: Partition, o: nat) {
    && Latest(j).Some?
    && Latest(j).value.at == p && Latest(j).value.offset == o
    && AllEnded(Matching(cfg, Latest(j).value), Endings(j))
  }

  /** At some point of the run, the message at (p, o) was in hand with every
      matching route finished. */
  ghost predicate Settled(cfg: Config, j: seq<Event>, p: Partition, o: nat) {
    exists n: nat :: n <= |j| && Complete(cfg, j[..n], p, o)
  }

  /** The message at (p, o) was polled during a wait and could not be handed back. */
  ghost predicate Lost(j: seq<Event>, p: Partition, o: nat) {
    exists n: nat :: n < |j| && j[n] == HandBackFailed(p, o)
  }

  ghost predicate Covered(cfg: Config, j: seq<Event>, p: Partition, o: nat) {
    Settled(cfg, j, p, o) || Lost(j, p, o)
  }

  ghost predicate InHand(s: State, p: Partition, o: nat) {
    s.phase.Busy? && !s.phase.revoked && s.phase.m.at == p && s.phase.m.offset == o
  }

  ghost predicate CommitInv(cfg: Config, j: seq<Event>, s: State) {
    && (forall p, o: nat :: o < CommittedTo(s, p) ==> Covered(cfg, j, p, o))
    && (forall p, o: nat :: p in s.position && o < s.position[p] ==>
          Covered(cfg, j, p, o)
          || InHand(s, p, o))
    && (forall p :: p in s.position ==> CommittedTo(s, p) <= s.position[p])
    && InHandInv(cfg, j, s)
  }

  /** How many of the matching routes have ended. */
  function RoutesDone(ph: Phase): nat
    requires ph.Busy?
  {
    ph.next + if ph.stage.Aftermath? then 1 else 0
  }

  ghost predicate InHandInv(cfg: Config, j: seq<Event>, s: State) {
    s.phase.Busy? ==>
      && Latest(j) == Some(s.phase.m)
      && (!s.phase.revoked ==> s.phase.m.at in s.position
                               && s.position[s.phase.m.at] == s.phase.m.offset + 1)
      && RoutesDone(s.phase) <= |Matching(cfg, s.phase.m)|
      && AllEnded(Matching(cfg, s.phase.m)[..RoutesDone(s.phase)], Endings(j))
  }

  lemma CoveredGrows(cfg: Config, j: seq<Event>, e: Event, p: Partition, o: nat)
    requires Covered(cfg, j, p, o)
    ensures Covered(cfg, j + [e], p, o)
  {
    var js := j + [e];
    if Settled(cfg, j, p, o) {
      var n: nat :| n <= |j| && Complete(cfg, j[..n], p, o);
      assert js[..n] == j[..n];
    } else {
      var n: nat :| n < |j| && j[n] == HandBackFailed(p, o);
      assert js[n] == HandBackFailed(p, o);
    }
  }

  /** What one event does to the message in hand, the offsets and the endings. */
  lemma BusyFrame(cfg: Config, s: State, e: Event)
    requires WellFormed(cfg, s) && Step(cfg, s, e).Some?
    ensures var t := Step(cfg, s, e).value;
            && (e.Took? ==> t.phase == Busy(e.m, 0, Between, false)
                            && t.position == s.position[e.m.at := e.m.offset + 1]
                            && e.m.at in s.position && s.position[e.m.at] == e.m.offset && s.phase.Idle?)
            && (t.phase.Busy? && !e.Took? ==>
                  s.phase.Busy? && t.phase.m == s.phase.m && (s.phase.revoked ==> t.phase.revoked))
            && (e.Ended? ==> s.phase.Busy? && s.phase.next < |Matching(cfg, s.phase.m)|
                             && !s.phase.stage.Aftermath? && e.route == Current(cfg, s))
            && (t.phase.Busy? && e.Ended? ==> e.how != Abandoned && RoutesDone(t.phase) == s.phase.next + 1)
            && (t.phase.Busy? && !e.Ended? && !e.Took? ==> RoutesDone(t.phase) == RoutesDone(s.phase))
            && (!e.Committed? ==> t.committed == s.committed)
            && (e.Committed? || e.CommitRefused? ==>
                  s.phase.Busy? && !s.phase.revoked && RoutesDone(s.phase) == |Matching(cfg, s.phase.m)|
                    && t.phase.Idle?
                  && t.position == s.position)
            && (e.Committed? ==> t.committed == s.committed[s.phase.m.at := s.phase.m.offset + 1])
  {
    hide Deliver;
    if Delivering(cfg, s, e) { StepDelivers(cfg, s, e); }
  }

  /** How the positions and the revocation flag move. */
  lemma PositionFrame(cfg: Config, s: State, e: Event)
    requires WellFormed(cfg, s) && Step(cfg, s, e).Some? && !e.Took?
    ensures var t := Step(cfg, s, e).value;
            && (e.Assigned? ==> e.p !in s.position && t.position == s.position[e.p := CommittedTo(s, e.p)])
            && (e.Revoked? ==> t.position == s.position - {e.p})
            && (e.HandBackFailed? ==> Yielded(s, e.p, e.offset)
                                      && t.position == s.position[e.p := e.offset + 1])
            && (e.Crashed? ==> t.position == map[] && t.phase.Idle?)
            && (!e.Assigned? && !e.Revoked? && !e.HandBackFailed? && !e.Crashed?
                ==> t.position == s.position)
            && (!e.Revoked? && t.phase.Busy? ==> t.phase.revoked == s.phase.revoked)
            && (e.Revoked? && t.phase.Busy? ==> t.phase.revoked == (s.phase.revoked || s.phase.m.at == e.p))
            && (s.phase.Busy? && t.phase.Idle? ==>
                  e.Crashed? || e.Committed? || e.CommitRefused? || s.phase.revoked)
  {
    hide Deliver;
    if Delivering(cfg, s, e) { StepDelivers(cfg, s, e); }
  }

  lemma BusyStep(cfg: Config, j: seq<Event>, s: State, e: Event)
    requires WellFormed(cfg, s) && CommitInv(cfg, j, s) && Step(cfg, s, e).Some?
    ensures InHandInv(cfg, j + [e], Step(cfg, s, e).value)
  {
    var t, js := Step(cfg, s, e).value, j + [e];
    assert js[..|j|] == j && js[|j|] == e;
    BusyFrame(cfg, s, e);
    if !e.Took? { PositionFrame(cfg, s, e); }
    if t.phase.Busy? && e.Ended? {
      var routes := Matching(cfg, s.phase.m);
      assert routes[..s.phase.next + 1] == routes[..s.phase.next] + [routes[s.phase.next]];
    }
  }

  lemma CommitStep(cfg: Config, j: seq<Event>, s: State, e: Event)
    requires WellFormed(cfg, s) && CommitInv(cfg, j, s) && Step(cfg, s, e).Some?
    ensures CommitInv(cfg, j + [e], Step(cfg, s, e).value)
  {
    BusyStep(cfg, j, s, e);
    CommittedStep(cfg, j, s, e);
    PositionStep(cfg, j, s, e);
  }

  /** The commit that moves an offset finds the message complete. */
  lemma CommitIsComplete(cfg: Config, j: seq<Event>, s: State, e: Event)
    requires WellFormed(cfg, s) && CommitInv(cfg, j, s) && Step(cfg, s, e).Some?
    requires e.Committed? || e.CommitRefused?
    ensures s.phase.Busy? && Complete(cfg, j, s.phase.m.at, s.phase.m.offset)
    ensures Covered(cfg, j + [e], s.phase.m.at, s.phase.m.offset)
  {
    BusyFrame(cfg, s, e);
    var m, js := s.phase.m, j + [e];
    assert Matching(cfg, m)[..|Matching(cfg, m)|] == Matching(cfg, m);
    assert js[..|j|] == j;
    assert Settled(cfg, js, m.at, m.offset);
  }

  lemma CommittedStep(cfg: Config, j: seq<Event>, s: State, e: Event)
    requires WellFormed(cfg, s) && CommitInv(cfg, j, s) && Step(cfg, s, e).Some?
    ensures forall p, o: nat :: o < CommittedTo(Step(cfg, s, e).value, p) ==> Covered(cfg, j + [e], p, o)
  {
    var t := Step(cfg, s, e).value;
    BusyFrame(cfg, s, e);
    if e.Committed? { CommitIsComplete(cfg, j, s, e); }
    forall p, o: nat | o < CommittedTo(t, p) ensures Covered(cfg, j + [e], p, o) {
      if o < CommittedTo(s, p) || o != s.phase.m.offset {
        assert Covered(cfg, j, p, o);
        CoveredGrows(cfg, j, e, p, o);
      }
    }
  }

  lemma PositionStep(cfg: Config, j: seq<Event>, s: State, e: Event)
    requires WellFormed(cfg, s) && CommitInv(cfg, j, s) && Step(cfg, s, e).Some?
    ensures var t := Step(cfg, s, e).value;
            && (forall p, o: nat :: p in t.position && o < t.position[p]
                                    ==> Covered(cfg, j + [e], p, o) || InHand(t, p, o))
            && (forall p :: p in t.position ==> CommittedTo(t, p) <= t.position[p])
  {
    var t, js := Step(cfg, s, e).value, j + [e];
    BusyFrame(cfg, s, e);
    if !e.Took? { PositionFrame(cfg, s, e); }
    if e.Committed? || e.CommitRefused? { CommitIsComplete(cfg, j, s, e); }
    forall p, o: nat | p in t.position && o < t.position[p]
      ensures Covered(cfg, js, p, o) || InHand(t, p, o)
    {
      if e.HandBackFailed? && p == e.p && o == e.offset {
        assert js[|j|] == HandBackFailed(p, o);
      } else if !(e.Took? && p == e.m.at && o == e.m.offset) {
        if Covered(cfg, j, p, o) { CoveredGrows(cfg, j, e, p, o); }
      }
    }
  }

  lemma {:induction false} RunCommitInv(cfg: Config, j: seq<Event>)
    requires Legal(cfg, j)
    ensures CommitInv(cfg, j, Run(cfg, j).value)
  {
    hide Step;
    if j != [] {
      var p := j[..|j| - 1];
      RunCommitInv(cfg, p);
      RunWellFormed(cfg, p);
      CommitStep(cfg, p, Run(cfg, p).value, j[|j| - 1]);
      assert p + [j[|j| - 1]] == j;
    }
  }

  /** A committed offset passes a message only when every matching route reached
      exactly one ending for it, none of them `Abandoned` -- or when a wait polled
      that message and could not hand it back. */
  lemma CommittedOffsetIsCovered(cfg: Config, j: seq<Event>, p: Partition, o: nat)
    requires Legal(cfg, j) && o < CommittedTo(Run(cfg, j).value, p)
    ensures Settled(cfg, j, p, o) || Lost(j, p, o)
  {
    hide Step;
    RunCommitInv(cfg, j);
    assert Covered(cfg, j, p, o);
  }

  /** The commit itself: what is in hand is complete, so a message whose delivery
      was abandoned is never the one committed. */
  lemma CommitNeedsEveryRoute(cfg: Config, j: seq<Event>, n: nat)
    requires Legal(cfg, j) && n < |j| && (j[n].Committed? || j[n].CommitRefused?)
    ensures Latest(j[..n]).Some?
    ensures AllEnded(Matching(cfg, Latest(j[..n]).value), Endings(j[..n]))
  {
    hide Step;
    EventEnabled(cfg, j, n);
    RunWellFormed(cfg, j[..n]);
    RunCommitInv(cfg, j[..n]);
    CommitIsComplete(cfg, j[..n], Run(cfg, j[..n]).value, j[n]);
  }

  // --- 4. counters and positions ---------------------------------------------

  /** A delivery is open from its start to its ending. */
  function Open(s: State): nat {
    if s.phase.Busy? && s.phase.stage != Between && !s.phase.stage.Aftermath? then 1 else 0
  }

  lemma CounterStep(cfg: Config, s: State, e: Event)
    requires WellFormed(cfg, s) && Step(cfg, s, e).Some? && |s.tally| + Open(s) == s.begun
    ensures var t := Step(cfg, s, e).value; |t.tally| + Open(t) == t.begun
  {
    hide Deliver;
    if Delivering(cfg, s, e) { StepDelivers(cfg, s, e); }
  }

  /** Within one process life the terminal counters (abandoned included) add up to
      the (message, route) deliveries begun, less the one still open. */
  lemma {:induction false} CountersBalance(cfg: Config, j: seq<Event>)
    requires Legal(cfg, j)
    ensures var s := Run(cfg, j).value; |s.tally| + Open(s) == s.begun
  {
    hide Step;
    if j != [] {
      var p := j[..|j| - 1];
      CountersBalance(cfg, p);
      RunWellFormed(cfg, p);
      CounterStep(cfg, Run(cfg, p).value, j[|j| - 1]);
    }
  }

  /** While no message is taken for processing and every hand-back succeeds -- which
      is what a wait does -- no assigned partition's position moves forward: it stays,
      or restarts from the committed offset after a rebalance. */
  lemma {:induction false} WaitMovesNothingForward(cfg: Config, j: seq<Event>, more: seq<Event>, p: Partition)
    requires Legal(cfg, j + more)
    requires forall e :: e in more ==> !e.Took? && !e.HandBackFailed? && !e.Committed?
    ensures Legal(cfg, j)
    ensures var s, t := Run(cfg, j).value, Run(cfg, j + more).value;
            && CommittedTo(t, p) == CommittedTo(s, p)
            && (p in t.position ==>
                  t.position[p] == CommittedTo(s, p)
                  || (p in s.position && t.position[p] == s.position[p]))
            && (p in t.position && p in s.position ==> t.position[p] <= s.position[p])
  {
    hide Step;
    if more == [] {
      assert j + more == j;
    } else {
      var init, e := more[..|more| - 1], more[|more| - 1];
      assert (j + more)[..|j + more| - 1] == j + init;
      assert j + more == (j + init) + [e];
      EventEnabled(cfg, j + more, |j + init|);
      assert (j + more)[..|j + init|] == j + init;
      WaitMovesNothingForward(cfg, j, init, p);
      RunWellFormed(cfg, j + init);
      RunCommitInv(cfg, j);
      BusyFrame(cfg, Run(cfg, j + init).value, e);
      PositionFrame(cfg, Run(cfg, j + init).value, e);
    }
  }

  // --- 5. what a failed hand-back does ---------------------------------------

  /** Past `o` on `p`: it is not polled next, and not in hand for a commit. */
  ghost predicate Past(s: State, p: Partition, o: nat) {
    && (p in s.position ==> s.position[p] > o)
    && (s.phase.Busy? && s.phase.m.at == p && !s.phase.revoked ==> s.phase.m.offset > o)
  }

  lemma PastStep(cfg: Config, s: State, e: Event, p: Partition, o: nat)
    requires WellFormed(cfg, s) && Step(cfg, s, e).Some? && e != Assigned(p) && !e.Crashed?
    requires Past(s, p, o) || e == HandBackFailed(p, o)
    ensures Past(Step(cfg, s, e).value, p, o)
    ensures e.Took? && e.m.at == p ==> e.m.offset > o
    ensures e.Committed? && s.phase.m.at == p ==> CommittedTo(Step(cfg, s, e).value, p) > o + 1
  {
    BusyFrame(cfg, s, e);
    if !e.Took? { PositionFrame(cfg, s, e); }
  }

  /** The message at (p, o) is not, and will not become, complete with what is in hand. */
  ghost predicate Dead(cfg: Config, j: seq<Event>, p: Partition, o: nat) {
    Latest(j).Some? && Latest(j).value.at == p && Latest(j).value.offset == o
    ==> !AllEnded(Matching(cfg, Latest(j).value), Endings(j))
  }

  lemma DeadStep(cfg: Config, j: seq<Event>, s: State, e: Event, p: Partition, o: nat)
    requires WellFormed(cfg, s) && CommitInv(cfg, j, s) && Step(cfg, s, e).Some? && !e.Crashed?
    requires WellFormed(cfg, Step(cfg, s, e).value) && CommitInv(cfg, j + [e], Step(cfg, s, e).value)
    requires Past(Step(cfg, s, e).value, p, o) && (e.Took? && e.m.at == p ==> e.m.offset > o)
    requires (Past(s, p, o) && Dead(cfg, j, p, o)) || (s.phase.Busy? && e.HandBackFailed?)
    ensures Dead(cfg, j + [e], p, o)
  {
    var t, js := Step(cfg, s, e).value, j + [e];
    assert js[..|j|] == j && js[|j|] == e;
    BusyFrame(cfg, s, e);
    if s.phase.Busy? && t.phase.Idle? { LeavesHand(cfg, s, e); }
    hide Step;
  }

  lemma LeavesHand(cfg: Config, s: State, e: Event)
    requires WellFormed(cfg, s) && Step(cfg, s, e).Some? && s.phase.Busy? && Step(cfg, s, e).value.phase.Idle?
    ensures e.Crashed? || e.Committed? || e.CommitRefused? || (e.Ended? && e.how == Abandoned)
  {
    hide Deliver;
    if Delivering(cfg, s, e) { StepDelivers(cfg, s, e); }
  }

  /** After a hand-back of (p, o) failed, and as long as neither a crash nor a new assignment
      of p starts it over: the message is never taken, every commit on p passes it, and it
      becomes settled by nothing. */
  lemma {:induction false} FailedHandBackLoses(cfg: Config, j: seq<Event>, n: nat, p: Partition, o: nat)
    requires Legal(cfg, j) && n < |j| && j[n] == HandBackFailed(p, o)
    requires forall i :: n < i < |j| ==> j[i] != Assigned(p) && !j[i].Crashed?
    ensures Past(Run(cfg, j).value, p, o) && Dead(cfg, j, p, o)
    ensures forall i :: n < i < |j| && j[i].Took? && j[i].m.at == p ==> j[i].m.offset > o
    ensures forall i :: n < i < |j| && j[i].Committed? && Legal(cfg, j[..i]) && Run(cfg, j[..i]).value.phase.Busy?
                        && Run(cfg, j[..i]).value.phase.m.at == p
                        ==> Legal(cfg, j[..i + 1]) && CommittedTo(Run(cfg, j[..i + 1]).value, p) > o + 1
    ensures Settled(cfg, j, p, o) ==> Settled(cfg, j[..n], p, o)
  {
    hide Step, Past, Dead;
    var init, e := j[..|j| - 1], j[|j| - 1];
    EventEnabled(cfg, j, |init|);
    RunWellFormed(cfg, init);
    RunWellFormed(cfg, j);
    RunCommitInv(cfg, init);
    RunCommitInv(cfg, j);
    var s := Run(cfg, init).value;
    assert j == init + [e];
    RunStep(cfg, init, e);
    if n < |init| { FailedHandBackLoses(cfg, init, n, p, o); }
    if n == |init| { BusyWhenHandedBack(cfg, s, e); }
    PastStep(cfg, s, e, p, o);
    DeadStep(cfg, init, s, e, p, o);
    hide Run, CommitInv, WellFormed;
    forall i | n < i < |j| && j[i].Committed? && Legal(cfg, j[..i]) && Run(cfg, j[..i]).value.phase.Busy?
               && Run(cfg, j[..i]).value.phase.m.at == p
      ensures Legal(cfg, j[..i + 1]) && CommittedTo(Run(cfg, j[..i + 1]).value, p) > o + 1
    {
      if i < |init| {
        assert init[..i] == j[..i] && init[..i + 1] == j[..i + 1];
      } else {
        assert j[..i] == init && j[..i + 1] == j;
      }
    }
    if Settled(cfg, j, p, o) { SettledBefore(cfg, j, n, p, o); }
  }

  lemma BusyWhenHandedBack(cfg: Config, s: State, e: Event)
    requires Step(cfg, s, e).Some? && e.HandBackFailed?
    ensures s.phase.Busy?
  {
  }

  lemma SettledBefore(cfg: Config, j: seq<Event>, n: nat, p: Partition, o: nat)
    requires n < |j| && Settled(cfg, j, p, o) && Dead(cfg, j, p, o)
    requires n < |j| - 1 ==> (Settled(cfg, j[..|j| - 1], p, o) ==> Settled(cfg, j[..|j| - 1][..n], p, o))
    ensures Settled(cfg, j[..n], p, o)
  {
    hide AllEnded;
    var init := j[..|j| - 1];
    var k: nat :| k <= |j| && Complete(cfg, j[..k], p, o);
    assert j[..|j|] == j;
    assert k < |j|;
    assert init[..k] == j[..k];
    assert n < |j| - 1 ==> init[..n] == j[..n];
  }

  /** A route whose delivery can come to a backoff; the others end at once. */
  predicate CanBackOff(r: Route) { r.dedupe.Some? || !r.held }

  ghost predicate NeverWaits(cfg: Config) {
    forall t, i :: t in cfg && 0 <= i < |cfg[t]| ==> !CanBackOff(cfg[t][i])
  }

  lemma NoBackoffNoLoss(cfg: Config, j: seq<Event>, n: nat)
    requires NeverWaits(cfg) && Legal(cfg, j) && n < |j|
    ensures !j[n].HandBackFailed?
  {
    hide Step;
    EventEnabled(cfg, j, n);
    RunWellFormed(cfg, j[..n]);
    var s := Run(cfg, j[..n]).value;
    assert !(s.phase.Busy? && s.phase.stage.Backoff?);
    hide Run;
    if j[n].HandBackFailed? { YieldedWhenHandedBack(cfg, s, j[n]); }
  }

  lemma YieldedWhenHandedBack(cfg: Config, s: State, e: Event)
    requires Step(cfg, s, e).Some? && e.HandBackFailed?
    ensures s.phase.Busy? && s.phase.stage.Backoff?
  {
  }

  // A run that loses a message, for any configuration with a route that can back off.

  ghost predicate NeverTook(j: seq<Event>, p: Partition, o: nat) {
    forall e :: e in j && e.Took? ==> e.m.at != p || e.m.offset != o
  }

  /** The journal `j` leads to `s` and has not taken the message at (p, 0). */
  ghost predicate Reaches(cfg: Config, j: seq<Event>, s: State, p: Partition) {
    Run(cfg, j) == Some(s) && NeverTook(j, p, 0)
  }

  lemma Then(cfg: Config, j: seq<Event>, s: State, e: Event, p: Partition) returns (k: seq<Event>, t: State)
    requires Reaches(cfg, j, s, p) && Step(cfg, s, e).Some?
    requires e.Took? ==> e.m.at != p || e.m.offset != 0
    ensures Reaches(cfg, k, t, p) && Step(cfg, s, e) == Some(t)
  {
    hide Step;
    k, t := j + [e], Step(cfg, s, e).value;
    RunStep(cfg, j, e);
  }

  lemma StepsAssigned(cfg: Config, s: State, p: Partition)
    requires s.phase.Idle? && p !in s.position
    ensures Step(cfg, s, Assigned(p)) == Some(s.(position := s.position[p := CommittedTo(s, p)]))
  {
  }

  lemma StepsTook(cfg: Config, s: State, m: Message)
    requires s.phase.Idle? && m.at in s.position && s.position[m.at] == m.offset
    ensures Step(cfg, s, Took(m))
            == Some(s.(position := s.position[m.at := m.offset + 1], phase := Busy(m, 0, Between, false)))
  {
  }

  /** What a delivery event does to everything but the ledger and the counters. */
  ghost predicate Goes(cfg: Config, s: State, e: Event, phase: Phase) {
    var t := Step(cfg, s, e);
    t.Some? && t.value.phase == phase && t.value.position == s.position && t.value.committed == s.committed
  }

  lemma EndsAtOnce(cfg: Config, s: State, how: Ending)
    requires s.phase.Busy? && s.phase.stage == Between && !s.phase.revoked && s.phase.next < |Matching(cfg, s.phase.m)|
    requires if s.phase.m.body.None? then how == Undecodable else how == WasHeld && !CanBackOff(Current(cfg, s))
    ensures Goes(cfg, s, Began(Current(cfg, s)), s.phase.(stage := Settling(how)))
  {
  }

  lemma StepsEnded(cfg: Config, s: State, how: Ending)
    requires s.phase.Busy? && s.phase.stage == Settling(how) && !s.phase.revoked
             && s.phase.next < |Matching(cfg, s.phase.m)|
    ensures Goes(cfg, s, Ended(Current(cfg, s), EventId(Current(cfg, s), s.phase.m), how),
                 s.phase.(next := s.phase.next + 1, stage := Between))
  {
  }

  /** One route ended at once: a held one without a dedupe field, or a body that does not
      decode. */
  lemma EndOne(cfg: Config, j: seq<Event>, s: State, p: Partition) returns (k: seq<Event>, t: State)
    requires Reaches(cfg, j, s, p) && s.phase.Busy? && s.phase.stage == Between && !s.phase.revoked
    requires s.phase.next < |Matching(cfg, s.phase.m)|
    requires s.phase.m.body.None? || !CanBackOff(Current(cfg, s))
    ensures Reaches(cfg, k, t, p) && t.phase == s.phase.(next := s.phase.next + 1)
    ensures t.position == s.position && t.committed == s.committed
  {
    hide Step, Run, Reaches, EventId;
    var how := if s.phase.m.body.None? then Undecodable else WasHeld;
    EndsAtOnce(cfg, s, how);
    k, t := Then(cfg, j, s, Began(Current(cfg, s)), p);
    StepsEnded(cfg, t, how);
    k, t := Then(cfg, k, t, Ended(Current(cfg, t), EventId(Current(cfg, t), t.phase.m), how), p);
  }

  lemma {:induction false} EndSome(cfg: Config, j: seq<Event>, s: State, n: nat, p: Partition)
    returns (k: seq<Event>, t: State)
    requires Reaches(cfg, j, s, p) && s.phase.Busy? && s.phase.stage == Between && !s.phase.revoked
    requires s.phase.next <= n <= |Matching(cfg, s.phase.m)|
    requires s.phase.m.body.None? || forall i :: 0 <= i < n ==> !CanBackOff(Matching(cfg, s.phase.m)[i])
    ensures Reaches(cfg, k, t, p) && t.phase == s.phase.(next := n)
    ensures t.position == s.position && t.committed == s.committed
    decreases n - s.phase.next
  {
    if s.phase.next == n {
      k, t := j, s;
    } else {
      hide Reaches, Matching;
      k, t := EndOne(cfg, j, s, p);
      k, t := EndSome(cfg, k, t, n, p);
    }
  }

  lemma BeginsToTry(cfg: Config, s: State)
    requires s.phase.Busy? && s.phase.stage == Between && !s.phase.revoked
    requires s.phase.next < |Matching(cfg, s.phase.m)| && CanBackOff(Current(cfg, s))
    requires s.phase.m.body.Some? && (Current(cfg, s).dedupe.Some? ==> EventId(Current(cfg, s), s.phase.m).Some?)
    ensures Goes(cfg, s, Began(Current(cfg, s)), s.phase.(stage := LoopHead(Current(cfg, s))))
  {
    hide EventId;
  }

  function Failing(r: Route, m: Message): Event {
    if r.dedupe.Some? then StoreDown else Posted(r, EventId(r, m), Unreachable)
  }

  lemma FailsToTry(cfg: Config, s: State)
    requires s.phase.Busy? && !s.phase.revoked
    requires s.phase.next < |Matching(cfg, s.phase.m)| && CanBackOff(Current(cfg, s))
    requires s.phase.stage == LoopHead(Current(cfg, s))
    ensures Goes(cfg, s, Failing(Current(cfg, s), s.phase.m), s.phase.(stage := Backoff(false)))
  {
    hide EventId;
  }

  /** The first failing attempt of a route that can back off. */
  lemma FailOne(cfg: Config, j: seq<Event>, s: State, p: Partition) returns (k: seq<Event>, t: State)
    requires Reaches(cfg, j, s, p) && s.phase.Busy? && s.phase.stage == Between && !s.phase.revoked
    requires s.phase.next < |Matching(cfg, s.phase.m)| && CanBackOff(Current(cfg, s))
    requires s.phase.m.body.Some? && (Current(cfg, s).dedupe.Some? ==> EventId(Current(cfg, s), s.phase.m).Some?)
    ensures Reaches(cfg, k, t, p) && t.phase == s.phase.(stage := Backoff(false))
    ensures t.position == s.position && t.committed == s.committed
  {
    hide Step, Run, Reaches, EventId, LoopHead, CanBackOff;
    BeginsToTry(cfg, s);
    k, t := Then(cfg, j, s, Began(Current(cfg, s)), p);
    FailsToTry(cfg, t);
    k, t := Then(cfg, k, t, Failing(Current(cfg, t), t.phase.m), p);
  }

  lemma StepsLoss(cfg: Config, s: State, p: Partition)
    requires s.phase.Busy? && s.phase.stage == Backoff(false) && !s.phase.revoked
    requires p in s.position && s.position[p] == 0 && p != s.phase.m.at
    ensures Step(cfg, s, HandBackFailed(p, 0)) == Some(s.(position := s.position[p := 1]))
  {
  }

  lemma StepsRevoked(cfg: Config, s: State)
    requires s.phase.Busy? && s.phase.stage.Backoff? && s.phase.m.at in s.position
    ensures Step(cfg, s, Revoked(s.phase.m.at))
            == Some(s.(position := s.position - {s.phase.m.at}, phase := s.phase.(revoked := true)))
  {
  }

  lemma StepsAbandoned(cfg: Config, s: State)
    requires s.phase.Busy? && s.phase.stage == Backoff(false) && s.phase.revoked
    requires s.phase.next < |Matching(cfg, s.phase.m)|
    ensures Goes(cfg, s, Ended(Current(cfg, s), EventId(Current(cfg, s), s.phase.m), Abandoned), Idle)
  {
  }

  lemma StepsCommitted(cfg: Config, s: State)
    requires s.phase.Busy? && s.phase.stage == Between && s.phase.next == |Matching(cfg, s.phase.m)|
    ensures Step(cfg, s, Committed)
            == Some(s.(committed := s.committed[s.phase.m.at := s.phase.m.offset + 1], phase := Idle))
  {
  }

  /** Two partitions of the topic assigned, the first message of one of them in hand. */
  lemma TakeFirst(cfg: Config, m: Message, p: Partition) returns (j: seq<Event>, s: State)
    requires m.offset == 0 && p != m.at
    ensures Reaches(cfg, j, s, p) && s.phase == Busy(m, 0, Between, false)
    ensures p in s.position && s.position[p] == 0 && m.at in s.position && s.committed == map[]
  {
    assert Reaches(cfg, [], START, p);
    hide Run, Reaches, Step;
    StepsAssigned(cfg, START, m.at);
    j, s := Then(cfg, [], START, Assigned(m.at), p);
    StepsAssigned(cfg, s, p);
    j, s := Then(cfg, j, s, Assigned(p), p);
    StepsTook(cfg, s, m);
    j, s := Then(cfg, j, s, Took(m), p);
  }

  /** During its backoff the first message of the other partition is polled, the seek back
      fails, and the partition in hand is lost. */
  lemma LoseOne(cfg: Config, j: seq<Event>, s: State, p: Partition) returns (k: seq<Event>, t: State)
    requires Reaches(cfg, j, s, p) && s.phase.Busy? && s.phase.stage == Backoff(false) && !s.phase.revoked
    requires s.phase.next < |Matching(cfg, s.phase.m)| && s.phase.m.at in s.position
    requires p in s.position && s.position[p] == 0 && p != s.phase.m.at
    ensures Reaches(cfg, k, t, p) && t.phase.Idle? && p in t.position && t.position[p] == 1
            && t.committed == s.committed
  {
    hide Run, Reaches, Step;
    StepsLoss(cfg, s, p);
    k, t := Then(cfg, j, s, HandBackFailed(p, 0), p);
    StepsRevoked(cfg, t);
    k, t := Then(cfg, k, t, Revoked(t.phase.m.at), p);
    StepsAbandoned(cfg, t);
    k, t := Then(cfg, k, t, Ended(Current(cfg, t), EventId(Current(cfg, t), t.phase.m), Abandoned), p);
  }

  /** The next message of that partition, whatever its routes, is committed. */
  lemma CommitNext(cfg: Config, j: seq<Event>, s: State, p: Partition) returns (k: seq<Event>, t: State)
    requires Reaches(cfg, j, s, p) && s.phase.Idle? && p in s.position && s.position[p] == 1
    ensures Reaches(cfg, k, t, p) && CommittedTo(t, p) == 2
  {
    hide Run, Reaches, Step;
    var m := Message(p, 1, None);
    StepsTook(cfg, s, m);
    k, t := Then(cfg, j, s, Took(m), p);
    k, t := EndSome(cfg, k, t, |Matching(cfg, m)|, p);
    StepsCommitted(cfg, t);
    k, t := Then(cfg, k, t, Committed, p);
  }

  /** For any topic with a route that can back off there is a run that commits one of its
      partitions past a message no route ever saw. */
  lemma FailedHandBackSkips(cfg: Config, topic: string, n: nat) returns (j: seq<Event>, p: Partition)
    requires topic in cfg && n < |cfg[topic]| && CanBackOff(cfg[topic][n])
    requires forall i :: 0 <= i < n ==> !CanBackOff(cfg[topic][i])
    ensures p.topic == topic && Legal(cfg, j) && CommittedTo(Run(cfg, j).value, p) == 2
    ensures NeverTook(j, p, 0) && !Settled(cfg, j, p, 0)
  {
    var r := cfg[topic][n];
    p := Partition(topic, 1);
    var body: Record := if r.dedupe.Some? then map[r.dedupe.value := Text("x")] else map[];
    var m := Message(Partition(topic, 0), 0, Some(body));
    assert Matching(cfg, m) == cfg[topic];
    assert r.dedupe.Some? ==> EventId(r, m) == Some("x");
    hide Run, EventId, Step;
    var s;
    j, s := TakeFirst(cfg, m, p);
    j, s := EndSome(cfg, j, s, n, p);
    j, s := FailOne(cfg, j, s, p);
    j, s := LoseOne(cfg, j, s, p);
    j, s := CommitNext(cfg, j, s, p);
    NeverSettled(cfg, j, p);
  }

  lemma NeverSettled(cfg: Config, j: seq<Event>, p: Partition)
    requires NeverTook(j, p, 0)
    ensures !Settled(cfg, j, p, 0)
  {
    forall n: nat | n <= |j| ensures !Complete(cfg, j[..n], p, 0) {
      assert forall e :: e in j[..n] ==> e in j;
      NeverTaken(j[..n], p);
    }
  }

  lemma {:induction false} NeverTaken(j: seq<Event>, p: Partition)
    requires NeverTook(j, p, 0)
    ensures Latest(j).Some? ==> Latest(j).value.at != p || Latest(j).value.offset != 0
  {
    if j != [] {
      assert j[|j| - 1] in j;
      NeverTaken(j[..|j| - 1], p);
    }
  }

  ghost predicate CommitsCover(cfg: Config) {
    forall j: seq<Event>, p, o: nat :: Legal(cfg, j) && o < CommittedTo(Run(cfg, j).value, p) ==> Settled(cfg, j, p, o)
  }

  /** The promise that nothing polled during a backoff is dropped, stated of commits: over
      every run a committed offset passes only settled messages, exactly for configurations
      in which no route can come to a backoff. */
  lemma CommitsCoverExactly(cfg: Config)
    ensures CommitsCover(cfg) <==> NeverWaits(cfg)
  {
    hide Run, Settled, CanBackOff;
    if NeverWaits(cfg) {
      forall j: seq<Event>, p, o: nat | Legal(cfg, j) && o < CommittedTo(Run(cfg, j).value, p)
        ensures Settled(cfg, j, p, o)
      {
        CommittedOffsetIsCovered(cfg, j, p, o);
        if n: nat :| n < |j| && j[n] == HandBackFailed(p, o) { NoBackoffNoLoss(cfg, j, n); }
      }
    } else {
      var t, i :| t in cfg && 0 <= i < |cfg[t]| && CanBackOff(cfg[t][i]);
      var n := FirstThatCan(cfg[t], i);
      var j, p := FailedHandBackSkips(cfg, t, n);
      assert 0 < CommittedTo(Run(cfg, j).value, p);
    }
  }

  lemma {:induction false} FirstThatCan(routes: seq<Route>, i: nat) returns (n: nat)
    requires i < |routes| && CanBackOff(routes[i])
    ensures n <= i && CanBackOff(routes[n]) && forall k :: 0 <= k < n ==> !CanBackOff(routes[k])
  {
    if k :| 0 <= k < i && CanBackOff(routes[k]) { n := FirstThatCan(routes, k); } else { n := i; }
  }
}
