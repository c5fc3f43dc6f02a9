/** The protocol once more, as the journal itself shows it: which event can come next is
    decided by the events so far, the routes and the records, and by nothing else. Answers
    are in numbers here, and the automaton's stages do not appear in what is stated. */
module ForwarderDelivery {
  import opened Options
  import opened Ledger
  import opened ForwarderProtocol
  import opened ForwarderSafety

  // --- what the log shows ----------------------------------------------------

  /** The events of deliveries, as against polls, commits, rebalances, crashes, operators. */
  predicate Own(e: Event) {
    || e.Began? || e.Looked? || e.StoreDown? || e.NoCredential? || e.Posted? || e.Wrote? || e.Unconfirmed?
    || e.Waited? || e.Ended? || e.Declared?
  }

  /** The events of the latest delivery of the message in hand, its start first. */
  function InDelivery(j: seq<Event>): seq<Event> {
    if j == [] then []
    else
      var e := j[|j| - 1];
      if e.Began? then [e]
      else if Own(e) then InDelivery(j[..|j| - 1]) + [e]
      else if e.Took? || e.Committed? || e.CommitRefused? || e.Crashed? then []
      else InDelivery(j[..|j| - 1])
  }

  /** The message in hand: taken, not committed, not abandoned, no crash since. */
  function Hand(j: seq<Event>): Option<Message> {
    if j == [] then None
    else
      match j[|j| - 1]
      case Took(m) => Some(m)
      case Committed => None
      case CommitRefused => None
      case Crashed => None
      case Ended(_, _, how) => if how == Abandoned then None else Hand(j[..|j| - 1])
      case _ => Hand(j[..|j| - 1])
  }

  /** How many deliveries of it were begun. */
  function Begun(j: seq<Event>): nat {
    if j == [] || j[|j| - 1].Took? then 0
    else Begun(j[..|j| - 1]) + if j[|j| - 1].Began? then 1 else 0
  }

  /** The partition was taken away since the delivery began. */
  predicate LostSince(j: seq<Event>, p: Partition) {
    j != [] && !j[|j| - 1].Began? && (j[|j| - 1] == Revoked(p) || LostSince(j[..|j| - 1], p))
  }

  // --- what comes next -------------------------------------------------------

  predicate Took2xx(e: Event) { e.Posted? && e.answer.Status? && 200 <= e.answer.code < 300 }

  /** The destination accepted it. */
  predicate Accepted(d: seq<Event>) { exists i :: 0 <= i < |d| && Took2xx(d[i]) }

  predicate IsExhaustion(e: Event) { e.Ended? && e.how == Exhausted }

  predicate GaveUp(d: seq<Event>) { exists i :: 0 <= i < |d| && IsExhaustion(d[i]) }

  /** The routes of a message. */
  function RoutesFor(cfg: Config, m: Message): seq<Route> { if m.at.topic in cfg then cfg[m.at.topic] else [] }

  /** The record carries this event id for the route. */
  predicate Carries(r: Route, m: Message, id: string) {
    r.dedupe.Some? && m.body.Some? && r.dedupe.value in m.body.value && m.body.value[r.dedupe.value] == Text(id)
    && id != ""
  }

  /** The event names the record's id, or nothing where the route wants none or there is none. */
  ghost predicate Names(event: Option<string>, r: Route, m: Message) {
    if event.Some? then Carries(r, m, event.value) else forall id: string :: !Carries(r, m, id)
  }

  predicate Keyed(key: Key, r: Route, m: Message) { key.route == r.name && Carries(r, m, key.event) }

  /** A delivery is over after any ending but one that still owes the ledger a row, and then
      after that row or the declared lack of it. */
  predicate Over(r: Route, d: seq<Event>) {
    d != []
    && match d[|d| - 1]
       case Ended(_, _, how) => how != Exhausted || r.dedupe.None? || Accepted(d)
       case Wrote(_, _) => GaveUp(d)
       case Declared(_) => GaveUp(d)
       case _ => false
  }

  ghost predicate Finishes(e: Event, r: Route, m: Message, how: Ending) {
    e.Ended? && e.route == r && e.how == how && Names(e.event, r, m)
  }

  /** The write runs, runs with its reply lost, or does not run. */
  ghost predicate Writing(e: Event, r: Route, m: Message, o: Outcome) {
    e.StoreDown? || ((e.Wrote? || e.Unconfirmed?) && Keyed(e.key, r, m) && e.entry.Upsert? && e.entry.outcome == o)
  }

  ghost predicate Sending(e: Event, r: Route, m: Message) {
    (e.NoCredential? && r.credentialed) || (e.Posted? && e.route == r && Names(e.event, r, m))
  }

  /** A wait, or the end of waiting: out of time, or out of the partition. */
  ghost predicate Pausing(e: Event, r: Route, m: Message, lost: bool) {
    if lost then Finishes(e, r, m, Abandoned) else e.Waited? || Finishes(e, r, m, Exhausted)
  }

  /** The loop head: the lookup tells whether the ledger holds the event as delivered. */
  ghost predicate Trying(e: Event, r: Route, m: Message, ledger: map<Key, Row>) {
    if r.dedupe.Some? then
      e.StoreDown?
      || (e.Looked? && Keyed(e.key, r, m) && e.found == (e.key in ledger && ledger[e.key].outcome == Ledger.Delivered))
    else if r.held then Finishes(e, r, m, WasHeld)
    else Sending(e, r, m)
  }

  /** What the events `d` of a delivery that is not over let follow. */
  ghost predicate Follows(e: Event, r: Route, m: Message, d: seq<Event>, lost: bool, ledger: map<Key, Row>)
    requires d != []
  {
    var last := d[|d| - 1];
    if GaveUp(d) then
      if last.Ended? then Writing(e, r, m, Held)
      else (Writing(e, r, m, Failed) && !e.StoreDown?) || (e.Declared? && Keyed(e.key, r, m))
    else
      match last
      case Began(_) =>
        if m.body.None? then Finishes(e, r, m, Undecodable)
        else if r.dedupe.Some? && Names(None, r, m) then Finishes(e, r, m, NoEventId)
        else Trying(e, r, m, ledger)
      case Waited => if Accepted(d) then Writing(e, r, m, Delivered) else Trying(e, r, m, ledger)
      case Looked(_, found) =>
        if found then Finishes(e, r, m, Duplicate)
        else if r.held then Writing(e, r, m, Held)
        else Sending(e, r, m)
      case StoreDown => Pausing(e, r, m, lost)
      case NoCredential => Pausing(e, r, m, lost)
      case Unconfirmed(_, _) => Pausing(e, r, m, lost)
      case Posted(_, _, a) =>
        if a.Unreachable? || a.code in {408, 429} || a.code >= 500 then Pausing(e, r, m, lost)
        else if !(200 <= a.code < 300) then Finishes(e, r, m, Rejected)
        else if r.dedupe.Some? then Writing(e, r, m, Delivered)
        else Finishes(e, r, m, Sent)
      case Wrote(_, entry) =>
        Finishes(e, r, m, if entry.Upsert? && entry.outcome == Ledger.Delivered then Sent else WasHeld)
      case _ => false
  }

  /** An event of a delivery that the journal lets follow. */
  ghost predicate Permitted(cfg: Config, j: seq<Event>, e: Event, ledger: map<Key, Row>) {
    Hand(j).Some?
    && var m, d := Hand(j).value, InDelivery(j);
       var routes := RoutesFor(cfg, m);
       if d == [] || (d[0].Began? && Over(d[0].route, d)) then
         Begun(j) < |routes| && e == Began(routes[Begun(j)])
       else d[0].Began? && !e.Began? && Follows(e, d[0].route, m, d, LostSince(j, m.at), ledger)
  }

  // --- the stages, read off the log -------------------------------------------

  lemma CarriesIsId(r: Route, m: Message, id: string)
    ensures Carries(r, m, id) <==> EventId(r, m) == Some(id)
  {
  }

  lemma NamesIsId(event: Option<string>, r: Route, m: Message)
    ensures Names(event, r, m) <==> event == EventId(r, m)
  {
    hide EventId, Carries;
    if event.Some? {
      CarriesIsId(r, m, event.value);
    } else {
      forall id: string ensures Carries(r, m, id) <==> EventId(r, m) == Some(id) { CarriesIsId(r, m, id); }
      if EventId(r, m).Some? { assert Carries(r, m, EventId(r, m).value); }
    }
  }

  lemma KeyedIsKey(key: Key, r: Route, m: Message)
    ensures Keyed(key, r, m) <==> key == KeyFor(r, m) && EventId(r, m).Some?
  {
    CarriesIsId(r, m, key.event);
    hide Carries, EventId;
  }

  /** The same in the automaton's terms. */
  lemma Facts(e: Event, r: Route, m: Message)
    ensures forall how :: Finishes(e, r, m, how) <==> e == Ended(r, EventId(r, m), how)
    ensures e.Wrote? || e.Unconfirmed? || e.Looked? || e.Declared? ==>
              (Keyed(e.key, r, m) <==> e.key == KeyFor(r, m) && EventId(r, m).Some?)
    ensures e.Posted? ==> (Names(e.event, r, m) <==> e.event == EventId(r, m))
    ensures Names(None, r, m) <==> EventId(r, m).None?
  {
    hide Names, Keyed, EventId, KeyFor;
    if e.Ended? || e.Posted? { NamesIsId(e.event, r, m); }
    if e.Wrote? || e.Unconfirmed? || e.Looked? || e.Declared? { KeyedIsKey(e.key, r, m); }
    NamesIsId(None, r, m);
  }

  lemma LogGrows(d: seq<Event>, e: Event)
    ensures Accepted(d + [e]) <==> Accepted(d) || Took2xx(e)
    ensures GaveUp(d + [e]) <==> GaveUp(d) || IsExhaustion(e)
  {
    var k := d + [e];
    assert k[|d|] == e;
    assert forall i :: 0 <= i < |d| ==> k[i] == d[i];
    if i :| 0 <= i < |d| && Took2xx(d[i]) { assert Took2xx(k[i]); }
    if i :| 0 <= i < |d| && IsExhaustion(d[i]) { assert IsExhaustion(k[i]); }
  }

  predicate Fresh(d: seq<Event>)
    requires d != []
  {
    (d[|d| - 1].Began? || d[|d| - 1].Waited?) && !Accepted(d)
  }

  predicate Stalled(e: Event) {
    e.StoreDown? || e.NoCredential? || e.Unconfirmed? || (e.Posted? && Retryable(e.answer))
  }

  predicate ShowsEnding(how: Ending, r: Route, m: Message, d: seq<Event>)
    requires d != []
  {
    var last := d[|d| - 1];
    (how != Sent ==> !Accepted(d))
    && match how
       case Undecodable => last.Began? && m.body.None?
       case NoEventId => last.Began? && m.body.Some? && r.dedupe.Some? && EventId(r, m).None?
       case Duplicate => last.Looked? && last.found
       case WasHeld =>
         (last.Wrote? && last.entry.Upsert? && last.entry.outcome == Held)
         || (Fresh(d) && r.dedupe.None? && r.held && m.body.Some?)
       case Sent =>
         if r.dedupe.Some? then last.Wrote? && last.entry.Upsert? && last.entry.outcome == Ledger.Delivered
         else Took2xx(last)
       case Rejected => last.Posted? && !Retryable(last.answer) && !Accepts(last.answer)
       case _ => false
  }

  /** What the log looks like at each stage of an open delivery. */
  predicate Shows(stage: Stage, r: Route, m: Message, d: seq<Event>)
    requires d != []
  {
    var last := d[|d| - 1];
    && (stage.Aftermath? <==> GaveUp(d))
    && (last.Ended? ==> GaveUp(d))
    && match stage
       case Between => false
       case Head => Fresh(d) && m.body.Some? && r.dedupe.Some? && EventId(r, m).Some?
       case Ready =>
         m.body.Some? && !Accepted(d)
         && if r.dedupe.Some? then EventId(r, m).Some? && last.Looked? && !last.found else Fresh(d) && !r.held
       case Recording => Accepted(d) && (last.Waited? || Took2xx(last)) && r.dedupe.Some? && EventId(r, m).Some?
       case Backoff(rec) =>
         Stalled(last) && rec == Accepted(d) && m.body.Some? && (r.dedupe.Some? ==> EventId(r, m).Some?)
         && (rec ==> r.dedupe.Some?) && (r.held ==> r.dedupe.Some?)
       case Settling(how) => ShowsEnding(how, r, m, d)
       case Aftermath(failing) =>
         r.dedupe.Some? && EventId(r, m).Some? && !Accepted(d)
         && if failing then last.StoreDown? || last.Unconfirmed? else last.Ended?
  }

  /** The automaton lets an event follow exactly when the log does, */
  lemma DeliverExactly(stage: Stage, revoked: bool, r: Route, m: Message, d: seq<Event>,
                   ledger: map<Key, Row>, e: Event)
    requires d != [] && Shows(stage, r, m, d) && !Over(r, d) && (revoked ==> stage.Backoff?)
    ensures Deliver(stage, revoked, r, m, EventId(r, m), KeyFor(r, m), IsDelivered(ledger, KeyFor(r, m)), e).Some?
            <==> !e.Began? && Follows(e, r, m, d, revoked, ledger)
  {
    hide Shows, Follows, Deliver, Over;
    match stage
    case Settling(_) => SettlingExactly(stage, revoked, r, m, d, ledger, e);
    case Recording => RecordingExactly(stage, revoked, r, m, d, ledger, e);
    case Backoff(_) => BackoffExactly(stage, revoked, r, m, d, ledger, e);
    case Aftermath(_) => AftermathExactly(stage, revoked, r, m, d, ledger, e);
    case _ => TryingExactly(stage, revoked, r, m, d, ledger, e);
  }

  lemma TryingExactly(stage: Stage, revoked: bool, r: Route, m: Message, d: seq<Event>,
                   ledger: map<Key, Row>, e: Event)
    requires d != [] && Shows(stage, r, m, d) && !Over(r, d) && (revoked ==> stage.Backoff?)
    requires stage.Between? || stage.Head? || stage.Ready?
    ensures Deliver(stage, revoked, r, m, EventId(r, m), KeyFor(r, m), IsDelivered(ledger, KeyFor(r, m)), e).Some?
            <==> !e.Began? && Follows(e, r, m, d, revoked, ledger)
  {
    Facts(e, r, m);
    hide Names, Keyed, EventId, KeyFor, Carries, Accepted, GaveUp, Finishes;
  }

  lemma RecordingExactly(stage: Stage, revoked: bool, r: Route, m: Message, d: seq<Event>,
                   ledger: map<Key, Row>, e: Event)
    requires d != [] && Shows(stage, r, m, d) && !Over(r, d) && (revoked ==> stage.Backoff?)
    requires stage.Recording?
    ensures Deliver(stage, revoked, r, m, EventId(r, m), KeyFor(r, m), IsDelivered(ledger, KeyFor(r, m)), e).Some?
            <==> !e.Began? && Follows(e, r, m, d, revoked, ledger)
  {
    Facts(e, r, m);
    hide Names, Keyed, EventId, KeyFor, Carries, Accepted, GaveUp, Finishes;
  }

  lemma BackoffExactly(stage: Stage, revoked: bool, r: Route, m: Message, d: seq<Event>,
                   ledger: map<Key, Row>, e: Event)
    requires d != [] && Shows(stage, r, m, d) && !Over(r, d) && (revoked ==> stage.Backoff?)
    requires stage.Backoff?
    ensures Deliver(stage, revoked, r, m, EventId(r, m), KeyFor(r, m), IsDelivered(ledger, KeyFor(r, m)), e).Some?
            <==> !e.Began? && Follows(e, r, m, d, revoked, ledger)
  {
    Facts(e, r, m);
    hide Names, Keyed, EventId, KeyFor, Carries, Accepted, GaveUp, Finishes;
  }

  lemma SettlingExactly(stage: Stage, revoked: bool, r: Route, m: Message, d: seq<Event>,
                   ledger: map<Key, Row>, e: Event)
    requires d != [] && Shows(stage, r, m, d) && !Over(r, d) && (revoked ==> stage.Backoff?)
    requires stage.Settling?
    ensures Deliver(stage, revoked, r, m, EventId(r, m), KeyFor(r, m), IsDelivered(ledger, KeyFor(r, m)), e).Some?
            <==> !e.Began? && Follows(e, r, m, d, revoked, ledger)
  {
    Facts(e, r, m);
    hide Names, Keyed, EventId, KeyFor, Carries, Accepted, GaveUp, Finishes;
  }

  lemma AftermathExactly(stage: Stage, revoked: bool, r: Route, m: Message, d: seq<Event>,
                   ledger: map<Key, Row>, e: Event)
    requires d != [] && Shows(stage, r, m, d) && !Over(r, d) && (revoked ==> stage.Backoff?)
    requires stage.Aftermath?
    ensures Deliver(stage, revoked, r, m, EventId(r, m), KeyFor(r, m), IsDelivered(ledger, KeyFor(r, m)), e).Some?
            <==> !e.Began? && Follows(e, r, m, d, revoked, ledger)
  {
    Facts(e, r, m);
    hide Names, Keyed, EventId, KeyFor, Carries, Accepted, GaveUp, Finishes;
  }

  /** and the stages keep showing in it. */
  lemma MoveShows(stage: Stage, revoked: bool, r: Route, m: Message, d: seq<Event>, delivered: bool, e: Event)
    requires d != [] && Shows(stage, r, m, d) && !Over(r, d)
    requires Deliver(stage, revoked, r, m, EventId(r, m), KeyFor(r, m), delivered, e).Some?
    ensures match Deliver(stage, revoked, r, m, EventId(r, m), KeyFor(r, m), delivered, e).value
            case To(next) => next != Between && Shows(next, r, m, d + [e]) && !Over(r, d + [e])
            case Next => Over(r, d + [e])
            case Quit => e.Ended? && e.how == Abandoned
  {
    LogGrows(d, e);
    assert (d + [e])[|d|] == e;
    hide EventId, KeyFor, Accepted, GaveUp;
  }

  lemma StartShows(r: Route, m: Message)
    ensures Shows(Opening(r, m), r, m, [Began(r)]) && !Over(r, [Began(r)])
  {
    var d := [Began(r)];
    assert !Accepted(d) && !GaveUp(d);
  }

  ghost predicate LogFits(cfg: Config, j: seq<Event>, s: State) {
    && Hand(j) == (if s.phase.Busy? then Some(s.phase.m) else None)
    && (s.phase.Busy? ==> OpenFits(cfg, s, InDelivery(j), Begun(j), LostSince(j, s.phase.m.at)))
  }

  ghost predicate OpenFits(cfg: Config, s: State, d: seq<Event>, begun: nat, lost: bool)
    requires s.phase.Busy?
  {
    if s.phase.stage == Between then
      begun == s.phase.next && (d == [] || (d[0].Began? && Over(d[0].route, d)))
    else
      && begun == s.phase.next + 1 && s.phase.revoked == lost
      && s.phase.next < |Matching(cfg, s.phase.m)|
      && d != [] && d[0] == Began(Current(cfg, s))
      && Shows(s.phase.stage, Current(cfg, s), s.phase.m, d) && !Over(Current(cfg, s), d)
  }

  lemma LogStep(j: seq<Event>, e: Event, p: Partition)
    ensures InDelivery(j + [e]) == if e.Began? then [e] else if Own(e) then InDelivery(j) + [e]
                                   else if e.Took? || e.Committed? || e.CommitRefused? || e.Crashed? then []
                                   else InDelivery(j)
    ensures Begun(j + [e]) == if e.Took? then 0 else Begun(j) + if e.Began? then 1 else 0
    ensures LostSince(j + [e], p) == (!e.Began? && (e == Revoked(p) || LostSince(j, p)))
    ensures Hand(j + [e]) == if e.Took? then Some(e.m)
                             else if e.Committed? || e.CommitRefused? || e.Crashed? || (e.Ended? && e.how == Abandoned)
                             then None else Hand(j)
  {
    var k := j + [e];
    assert k[..|k| - 1] == j;
  }

  lemma OwnStepFits(cfg: Config, s: State, d: seq<Event>, begun: nat, lost: bool, e: Event)
    requires WellFormed(cfg, s) && s.phase.Busy? && OpenFits(cfg, s, d, begun, lost)
    requires Own(e) && Step(cfg, s, e).Some?
    ensures var t := Step(cfg, s, e).value;
            if t.phase.Busy? then
              !(e.Ended? && e.how == Abandoned) && t.phase.m == s.phase.m
              && OpenFits(cfg, t, if e.Began? then [e] else d + [e], begun + if e.Began? then 1 else 0,
                          lost && !e.Began?)
            else e.Ended? && e.how == Abandoned
  {
    StepDelivers(cfg, s, e);
    var r, m, t := Current(cfg, s), s.phase.m, Step(cfg, s, e).value;
    if s.phase.stage == Between {
      StartShows(r, m);
      hide Shows, Over, EventId;
    } else {
      MoveShows(s.phase.stage, s.phase.revoked, r, m, d, IsDelivered(s.ledger, KeyFor(r, m)), e);
      hide Deliver, Shows, Over, EventId, KeyFor;
      assert d[0] == (d + [e])[0];
    }
  }

  /** Other events leave the delivery as it is, or take its message out of hand. */
  lemma OtherStepFits(cfg: Config, j: seq<Event>, s: State, e: Event)
    requires WellFormed(cfg, s) && LogFits(cfg, j, s) && !Own(e) && Step(cfg, s, e).Some?
    ensures LogFits(cfg, j + [e], Step(cfg, s, e).value)
  {
    var t := Step(cfg, s, e).value;
    hide Shows, Over, Deliver, EventId, Logged;
    if t.phase.Busy? { LogStep(j, e, t.phase.m.at); } else { LogStep(j, e, Partition("", 0)); }
    hide InDelivery, Hand, Begun, LostSince;
  }

  lemma {:induction false} RunFits(cfg: Config, j: seq<Event>)
    requires Legal(cfg, j)
    ensures LogFits(cfg, j, Run(cfg, j).value)
  {
    hide Step, OpenFits, InDelivery, Begun, LostSince;
    if j != [] {
      var p, e := j[..|j| - 1], j[|j| - 1];
      var s := Run(cfg, p).value;
      RunFits(cfg, p);
      RunWellFormed(cfg, p);
      assert p + [e] == j;
      if Own(e) {
        OwnNeedsHand(cfg, s, e);
        OwnStepFits(cfg, s, InDelivery(p), Begun(p), LostSince(p, s.phase.m.at), e);
        LogStep(p, e, s.phase.m.at);
      } else {
        OtherStepFits(cfg, p, s, e);
      }
    }
  }

  lemma OwnNeedsHand(cfg: Config, s: State, e: Event)
    requires Own(e) && Step(cfg, s, e).Some?
    ensures s.phase.Busy? && s.phase.next < |Matching(cfg, s.phase.m)| && Delivering(cfg, s, e)
  {
    hide Deliver;
  }

  lemma OwnStepExactly(cfg: Config, s: State, e: Event)
    requires Own(e)
    ensures Step(cfg, s, e).Some? <==>
              s.phase.Busy? && s.phase.next < |Matching(cfg, s.phase.m)|
              && var r, m := Current(cfg, s), s.phase.m;
                 Deliver(s.phase.stage, s.phase.revoked, r, m, EventId(r, m), KeyFor(r, m),
                         IsDelivered(s.ledger, KeyFor(r, m)), e).Some?
  {
    hide Deliver;
  }

  /** The journal alone decides what a delivery does next: its next event is possible
      exactly when the message, the route and the events since its start let it follow. */
  lemma EventsExactly(cfg: Config, j: seq<Event>, e: Event)
    requires Legal(cfg, j) && Own(e)
    ensures Legal(cfg, j + [e]) <==> Permitted(cfg, j, e, Run(cfg, j).value.ledger)
  {
    var s := Run(cfg, j).value;
    RunStep(cfg, j, e);
    RunFits(cfg, j);
    RunWellFormed(cfg, j);
    OwnStepExactly(cfg, s, e);
    hide Run, Step, Deliver, Shows, Follows, InDelivery, Begun, LostSince;
    if s.phase.Busy? && s.phase.next < |Matching(cfg, s.phase.m)| && s.phase.stage != Between {
      DeliverExactly(s.phase.stage, s.phase.revoked, Current(cfg, s), s.phase.m, InDelivery(j), s.ledger, e);
    }
    if s.phase.Busy? && s.phase.next < |Matching(cfg, s.phase.m)| && s.phase.stage == Between {
      BetweenExactly(cfg, s, e);
    }
  }

  lemma BetweenExactly(cfg: Config, s: State, e: Event)
    requires s.phase.Busy? && s.phase.next < |Matching(cfg, s.phase.m)| && s.phase.stage == Between
    ensures var r, m := Current(cfg, s), s.phase.m;
            e == Began(r) <==> Deliver(s.phase.stage, s.phase.revoked, r, m, EventId(r, m), KeyFor(r, m),
                                       IsDelivered(s.ledger, KeyFor(r, m)), e).Some?
  {
  }

  // --- what answers decide ---------------------------------------------------

  lemma LastEvents(cfg: Config, j: seq<Event>, n: nat)
    requires Legal(cfg, j) && n < |j| && Own(j[n])
    ensures Legal(cfg, j[..n]) && Permitted(cfg, j[..n], j[n], Run(cfg, j[..n]).value.ledger)
    ensures LogFits(cfg, j[..n], Run(cfg, j[..n]).value)
  {
    hide Run, Permitted, Own, LogFits;
    CrashAnywhere(cfg, j, n);
    CrashAnywhere(cfg, j, n + 1);
    assert j[..n + 1] == j[..n] + [j[n]];
    EventsExactly(cfg, j[..n], j[n]);
    RunFits(cfg, j[..n]);
  }

  /** A delivery ends as rejected only on an answer that is no success, no 408, no 429 and
      below 500; */
  lemma RejectedWasRefused(cfg: Config, j: seq<Event>, n: nat)
    requires Legal(cfg, j) && n < |j| && j[n].Ended? && j[n].how == Rejected
    ensures var d := InDelivery(j[..n]);
            d != [] && d[|d| - 1].Posted?
            && match d[|d| - 1].answer
               case Status(c, _) => c < 500 && c != 408 && c != 429 && !(200 <= c < 300)
               case Unreachable => false
  {
    LastEvents(cfg, j, n);
    hide Run, Carries, InDelivery, Hand, Accepted, GaveUp, LogFits, LostSince, Follows, Over, Names;
    var d := InDelivery(j[..n]);
    RejectedFollows(j[n], d[0].route, Hand(j[..n]).value, d, LostSince(j[..n], Hand(j[..n]).value.at),
                    Run(cfg, j[..n]).value.ledger);
  }

  lemma RejectedFollows(e: Event, r: Route, m: Message, d: seq<Event>, lost: bool, ledger: map<Key, Row>)
    requires d != [] && Follows(e, r, m, d, lost, ledger) && e.Ended? && e.how == Rejected
    ensures d[|d| - 1].Posted?
            && match d[|d| - 1].answer
               case Status(c, _) => c < 500 && c != 408 && c != 429 && !(200 <= c < 300)
               case Unreachable => false
  {
    hide Names, Keyed, GaveUp, Accepted;
  }

  lemma NothingAfterAcceptance(e: Event, r: Route, m: Message, stage: Stage, d: seq<Event>, lost: bool,
                               ledger: map<Key, Row>)
    requires d != [] && Follows(e, r, m, d, lost, ledger) && Accepted(d) && Shows(stage, r, m, d)
    ensures !e.Posted? && (e.Ended? ==> e.how in {Sent, Exhausted, Abandoned})
  {
    hide Names, Keyed, GaveUp, Accepted;
  }

  /** no answer, 408, 429 and everything from 500 up come to a backoff, whatever happens in
      between; */
  lemma RetriedIsBackedOff(cfg: Config, j: seq<Event>, n: nat)
    requires Legal(cfg, j) && n < |j| && Own(j[n])
    requires var d := InDelivery(j[..n]);
             d != [] && d[|d| - 1].Posted?
             && match d[|d| - 1].answer
                case Unreachable => true
                case Status(c, _) => c == 408 || c == 429 || c >= 500
    ensures j[n].Waited? || (j[n].Ended? && j[n].how in {Exhausted, Abandoned})
  {
    LastEvents(cfg, j, n);
    var d := InDelivery(j[..n]);
    OpenLog(cfg, j[..n], Run(cfg, j[..n]).value);
    hide Run, Carries, InDelivery, Hand, Accepted, LogFits, LostSince, GaveUp;
  }

  /** and once an answer was 200 to 299 nothing is sent again in that delivery, which can
      end only as sent, out of time or out of its partition. */
  lemma AcceptedStaysAccepted(cfg: Config, j: seq<Event>, n: nat)
    requires Legal(cfg, j) && n < |j| && Own(j[n]) && !j[n].Began?
    requires exists e :: e in InDelivery(j[..n]) && e.Posted? && e.answer.Status? && 200 <= e.answer.code < 300
    ensures !j[n].Posted? && (j[n].Ended? ==> j[n].how in {Sent, Exhausted, Abandoned})
  {
    LastEvents(cfg, j, n);
    var d := InDelivery(j[..n]);
    var e :| e in d && e.Posted? && e.answer.Status? && 200 <= e.answer.code < 300;
    var i :| 0 <= i < |d| && d[i] == e;
    assert Took2xx(d[i]) && Accepted(d);
    var s := Run(cfg, j[..n]).value;
    OpenLog(cfg, j[..n], s);
    hide Run, Carries, InDelivery, Hand, Accepted, LogFits, LostSince, GaveUp, Follows, Shows, Over, Names;
    NothingAfterAcceptance(j[n], d[0].route, Hand(j[..n]).value, s.phase.stage, d,
                           LostSince(j[..n], Hand(j[..n]).value.at), s.ledger);
  }

  /** A log that is not over shows a stage. */
  lemma OpenLog(cfg: Config, j: seq<Event>, s: State)
    requires LogFits(cfg, j, s) && Hand(j).Some?
    ensures var d := InDelivery(j);
            d != [] && d[0].Began? && !Over(d[0].route, d) ==> Shows(s.phase.stage, d[0].route, s.phase.m, d)
  {
    hide Shows, Over, InDelivery, Hand, Begun, LostSince;
  }

  // --- everything else a journal can hold -------------------------------------

  /** What is committed for a partition: the offset after the last message committed. */
  function CommittedAt(j: seq<Event>, p: Partition): nat {
    if j == [] then 0
    else
      var init, e := j[..|j| - 1], j[|j| - 1];
      if e.Committed? && Hand(init).Some? && Hand(init).value.at == p then Hand(init).value.offset + 1
      else CommittedAt(init, p)
  }

  /** The offset polled next, of a partition that is assigned. */
  function PositionAt(j: seq<Event>, p: Partition): Option<nat> {
    if j == [] then None
    else
      var init, e := j[..|j| - 1], j[|j| - 1];
      if e == Assigned(p) then Some(CommittedAt(init, p))
      else if e == Revoked(p) || e.Crashed? then None
      else if e.Took? && e.m.at == p then Some(e.m.offset + 1)
      else if e.HandBackFailed? && e.p == p then Some(e.offset + 1)
      else PositionAt(init, p)
  }

  /** The ledger has had a row for the key since some write of it ran. */
  predicate RowWritten(j: seq<Event>, k: Key) {
    exists i :: 0 <= i < |j| && (j[i].Wrote? || j[i].Unconfirmed?) && j[i].key == k
  }

  /** The delivery in hand waits: its last event calls for a backoff. */
  predicate Waiting(j: seq<Event>) {
    var d := InDelivery(j);
    Hand(j).Some? && d != [] && !GaveUp(d)
    && match d[|d| - 1]
       case StoreDown => true
       case NoCredential => true
       case Unconfirmed(_, _) => true
       case Posted(_, _, Unreachable) => true
       case Posted(_, _, Status(c, _)) => c == 408 || c == 429 || c >= 500
       case _ => false
  }

  /** An event that is not a delivery's own. */
  predicate Possible(cfg: Config, j: seq<Event>, e: Event) {
    match e
    case Took(m) => Hand(j).None? && PositionAt(j, m.at) == Some(m.offset)
    case Committed => AllOver(cfg, j)
    case CommitRefused => AllOver(cfg, j)
    case Assigned(p) => (Hand(j).None? || Waiting(j)) && PositionAt(j, p).None?
    case Revoked(p) => (Hand(j).None? || Waiting(j)) && PositionAt(j, p).Some?
    case HandedBack(p, o) => Waiting(j) && PositionAt(j, p) == Some(o) && (p != Hand(j).value.at || LostSince(j, p))
    case HandBackFailed(p, o) => Waiting(j) && PositionAt(j, p) == Some(o) && (p != Hand(j).value.at || LostSince(j, p))
    case Crashed => true
    case OperatorAudited(k) => RowWritten(j, k)
    case OperatorPosted(k, _) => RowWritten(j, k)
    case OperatorRecorded(k, x) => RowWritten(j, k) && x.Resend?
    case _ => false
  }

  /** Every route of the message in hand had its delivery, and none is under way. */
  predicate AllOver(cfg: Config, j: seq<Event>) {
    Hand(j).Some?
    && var d := InDelivery(j);
       (d == [] || (d[0].Began? && Over(d[0].route, d))) && Begun(j) == |RoutesFor(cfg, Hand(j).value)|
  }

  ghost predicate PositionsFit(j: seq<Event>, s: State) {
    && (forall p :: PositionAt(j, p) == if p in s.position then Some(s.position[p]) else None)
    && (forall p :: CommittedAt(j, p) == CommittedTo(s, p))
    && (forall k :: k in s.ledger <==> RowWritten(j, k))
  }

  lemma LogPositions(j: seq<Event>, e: Event, p: Partition)
    ensures CommittedAt(j + [e], p) == if e.Committed? && Hand(j).Some? && Hand(j).value.at == p
                                       then Hand(j).value.offset + 1 else CommittedAt(j, p)
    ensures PositionAt(j + [e], p) == if e == Assigned(p) then Some(CommittedAt(j, p))
                                      else if e == Revoked(p) || e.Crashed? then None
                                      else if e.Took? && e.m.at == p then Some(e.m.offset + 1)
                                      else if e.HandBackFailed? && e.p == p then Some(e.offset + 1)
                                      else PositionAt(j, p)
  {
    var k := j + [e];
    assert k[..|k| - 1] == j && k[|k| - 1] == e;
  }

  lemma LogRows(j: seq<Event>, e: Event, k: Key)
    ensures RowWritten(j + [e], k) <==> RowWritten(j, k) || ((e.Wrote? || e.Unconfirmed?) && e.key == k)
  {
    var l := j + [e];
    assert l[|j|] == e;
    if i :| 0 <= i < |j| && (j[i].Wrote? || j[i].Unconfirmed?) && j[i].key == k { assert l[i] == j[i]; }
  }

  lemma RowsStep(cfg: Config, j: seq<Event>, s: State, e: Event, k: Key)
    requires WellFormed(cfg, s) && Step(cfg, s, e).Some? && (k in s.ledger <==> RowWritten(j, k))
    ensures k in Step(cfg, s, e).value.ledger <==> RowWritten(j + [e], k)
  {
    LogRows(j, e, k);
    LedgerStep(cfg, s, e, k);
    WritesUpsert(cfg, s, e);
    ApplyLaws();
    hide Step, Apply, RowWritten, WellFormed;
  }

  lemma WritesUpsert(cfg: Config, s: State, e: Event)
    requires WellFormed(cfg, s) && Step(cfg, s, e).Some?
    ensures e.Wrote? || e.Unconfirmed? ==> e.entry.Upsert?
    ensures e.OperatorRecorded? ==> e.key in s.ledger
  {
    hide Deliver, Logged;
    if Delivering(cfg, s, e) { StepDelivers(cfg, s, e); }
  }

  lemma {:induction false} RunPositions(cfg: Config, j: seq<Event>)
    requires Legal(cfg, j)
    ensures PositionsFit(j, Run(cfg, j).value)
  {
    hide Step, WellFormed, LogFits;
    if j != [] {
      var init, e := j[..|j| - 1], j[|j| - 1];
      var s, t := Run(cfg, init).value, Run(cfg, j).value;
      RunPositions(cfg, init);
      RunWellFormed(cfg, init);
      RunFits(cfg, init);
      assert init + [e] == j;
      forall p
        ensures PositionAt(j, p) == if p in t.position then Some(t.position[p]) else None
        ensures CommittedAt(j, p) == CommittedTo(t, p)
      {
        PositionsStep(cfg, init, s, e, p);
      }
      forall k ensures k in t.ledger <==> RowWritten(j, k) { RowsStep(cfg, init, s, e, k); }
    }
  }

  lemma PositionsStep(cfg: Config, j: seq<Event>, s: State, e: Event, p: Partition)
    requires WellFormed(cfg, s) && LogFits(cfg, j, s) && Step(cfg, s, e).Some?
    requires PositionAt(j, p) == if p in s.position then Some(s.position[p]) else None
    requires CommittedAt(j, p) == CommittedTo(s, p)
    ensures var t := Step(cfg, s, e).value;
            && PositionAt(j + [e], p) == (if p in t.position then Some(t.position[p]) else None)
            && CommittedAt(j + [e], p) == CommittedTo(t, p)
  {
    LogPositions(j, e, p);
    BusyFrame(cfg, s, e);
    if !e.Took? { PositionFrame(cfg, s, e); }
    hide Step, WellFormed, OpenFits, PositionAt, CommittedAt, Hand, Yielded;
  }

  lemma WaitingIsBackoff(cfg: Config, j: seq<Event>, s: State)
    requires LogFits(cfg, j, s)
    ensures Waiting(j) <==> s.phase.Busy? && s.phase.stage.Backoff?
    ensures Waiting(j) ==> s.phase.revoked == LostSince(j, s.phase.m.at)
    ensures AllOver(cfg, j) <==>
              s.phase.Busy? && s.phase.stage == Between && s.phase.next == |Matching(cfg, s.phase.m)|
  {
    hide InDelivery, Hand, Begun, LostSince, Accepted, GaveUp, EventId, Carries;
  }

  lemma AroundExactly(cfg: Config, s: State, e: Event)
    requires !Own(e)
    ensures Step(cfg, s, e).Some? <==>
              match e
              case Took(m) => s.phase.Idle? && m.at in s.position && s.position[m.at] == m.offset
              case Assigned(p) => InPoll(s) && p !in s.position
              case Revoked(p) => InPoll(s) && p in s.position
              case HandedBack(p, o) => Yielded(s, p, o)
              case HandBackFailed(p, o) => Yielded(s, p, o)
              case Crashed => true
              case OperatorAudited(k) => k in s.ledger
              case OperatorPosted(k, _) => k in s.ledger
              case OperatorRecorded(k, x) => k in s.ledger && x.Resend?
              case _ => s.phase.Busy? && s.phase.stage == Between && s.phase.next == |Matching(cfg, s.phase.m)|
  {
    hide Deliver, Logged;
  }

  lemma PossibleExactly(cfg: Config, j: seq<Event>, s: State, e: Event)
    requires LogFits(cfg, j, s) && PositionsFit(j, s) && !Own(e)
    ensures Step(cfg, s, e).Some? <==> Possible(cfg, j, e)
  {
    AroundExactly(cfg, s, e);
    WaitingIsBackoff(cfg, j, s);
    assert Hand(j).Some? <==> s.phase.Busy?;
    assert Waiting(j) ==> Hand(j) == Some(s.phase.m);
    hide Step, Waiting, AllOver, PositionAt, CommittedAt, RowWritten, LogFits, LostSince, Hand;
  }

  /** The journal alone decides what the process, its broker and its operator can do next: a
      journal grows by an event exactly when the events before it allow that. */
  lemma JournalsExactly(cfg: Config, j: seq<Event>, e: Event)
    requires Legal(cfg, j)
    ensures Legal(cfg, j + [e]) <==>
              if Own(e) then Permitted(cfg, j, e, Run(cfg, j).value.ledger) else Possible(cfg, j, e)
  {
    if Own(e) {
      EventsExactly(cfg, j, e);
    } else {
      RunStep(cfg, j, e);
      RunFits(cfg, j);
      RunPositions(cfg, j);
      PossibleExactly(cfg, j, Run(cfg, j).value, e);
    }
    hide Run, Step, Permitted, Possible, LogFits, PositionsFit;
  }
}
