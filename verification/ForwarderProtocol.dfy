/** The forwarder's protocol as an automaton over a journal of events. Each event
    is one thing the process does or is told: a poll, a lookup, a POST, a ledger
    write, an elapsed wait, a rebalance, a commit, a crash. `Step` says which events
    the code can produce next; the theorems hold of every journal it accepts.
    `Forwarder.dfy` proves that the imperative code only writes such journals. */
module ForwarderProtocol {
  import opened Options
  import opened Ledger

  /** `dedupe` is the record field carrying the event id; `credentialed` says the
      route needs a token before it can send. */
  datatype Route = Route(name: string, dedupe: Option<string>, held: bool, credentialed: bool)

  datatype Partition = Partition(topic: string, number: nat)

  /** A top-level field of a decoded record: a string, or anything else. */
  datatype Field = Text(s: string) | NotText

  type Record = map<string, Field>

  /** `body` is `None` when the bytes do not decode. */
  datatype Message = Message(at: Partition, offset: nat, body: Option<Record>)

  type Config = map<string, seq<Route>>

  datatype Answer = Unreachable | Status(code: int, caseId: Option<string>)

  datatype Ending =
    | Sent | Duplicate | WasHeld | Rejected | NoEventId | Undecodable | Exhausted | Abandoned

  datatype Event =
    | Took(m: Message)
    | Began(route: Route)
    | Looked(key: Key, found: bool)
    | StoreDown
    | NoCredential
    | Posted(route: Route, event: Option<string>, answer: Answer)
    | Wrote(key: Key, entry: Entry)
    | Unconfirmed(key: Key, entry: Entry)   // the statement ran, its reply was lost
    | Waited
    | Ended(route: Route, event: Option<string>, how: Ending)
    | Declared(key: Key)
    | Committed
    | CommitRefused
    | Assigned(p: Partition)
    | Revoked(p: Partition)
    | HandedBack(p: Partition, offset: nat)
    | HandBackFailed(p: Partition, offset: nat)
    | Crashed
    | OperatorAudited(key: Key)
    | OperatorPosted(key: Key, answer: Answer)
    | OperatorRecorded(key: Key, entry: Entry)

  /** Where the delivery of the current route stands. */
  datatype Stage =
    | Between                      // no route in hand
    | Head                         // dedupe route: the lookup is due
    | Ready                        // the hold, the credential or the POST is due
    | Recording                    // a 2xx arrived, its row is not written yet
    | Backoff(recording: bool)     // a backoff is due
    | Settling(how: Ending)        // the outcome is known, its counter is due
    | Aftermath(failing: bool)     // exhausted: the `held` write, then the `failed` write

  datatype Phase = Idle | Busy(m: Message, next: nat, stage: Stage, revoked: bool)

  /** `position` holds exactly the assigned partitions. `begun` and `tally` live in
      process memory. */
  datatype State = State(ledger: map<Key, Row>, committed: map<Partition, nat>,
                         position: map<Partition, nat>, phase: Phase,
                         begun: nat, tally: multiset<Ending>)

  const START := State(map[], map[], map[], Idle, 0, multiset{})

  function Matching(cfg: Config, m: Message): seq<Route> {
    if m.at.topic in cfg then cfg[m.at.topic] else []
  }

  function CommittedTo(s: State, p: Partition): nat {
    if p in s.committed then s.committed[p] else 0
  }

  /** The record's event id for a route: a non-empty string, or nothing. */
  function EventId(r: Route, m: Message): Option<string> {
    if r.dedupe.None? || m.body.None? || r.dedupe.value !in m.body.value then None
    else match m.body.value[r.dedupe.value]
      case Text(s) => if s == "" then None else Some(s)
      case NotText => None
  }

  predicate Accepts(a: Answer) { a.Status? && 200 <= a.code < 300 }

  predicate Retryable(a: Answer) {
    a.Unreachable? || a.code == 408 || a.code == 429 || a.code >= 500
  }

  /** Where the retry loop starts over. */
  function LoopHead(r: Route): Stage {
    if r.dedupe.Some? then Head else if r.held then Settling(WasHeld) else Ready
  }

  function Opening(r: Route, m: Message): Stage {
    if m.body.None? then Settling(Undecodable)
    else if r.dedupe.Some? && EventId(r, m).None? then Settling(NoEventId)
    else LoopHead(r)
  }

  /** Rebalances and hand-backs happen inside a poll: the main loop's own, or one
      of a backoff wait's. */
  predicate InPoll(s: State) {
    s.phase.Idle? || s.phase.stage.Backoff?
  }

  function AfterRevoked(s: State, p: Partition): State {
    var t := s.(position := s.position - {p});
    if s.phase.Busy? && s.phase.m.at == p then t.(phase := s.phase.(revoked := true)) else t
  }

  predicate Around(e: Event) {
    || e.Assigned? || e.Revoked? || e.HandedBack? || e.HandBackFailed? || e.Crashed?
    || e.OperatorAudited? || e.OperatorPosted? || e.OperatorRecorded?
  }

  /** Events that do not concern the delivery in hand. */
  function StepAround(s: State, e: Event): Option<State> {
    match e
    case Assigned(p) =>
      if InPoll(s) && p !in s.position
      then Some(s.(position := s.position[p := CommittedTo(s, p)])) else None
    case Revoked(p) =>
      if InPoll(s) && p in s.position then Some(AfterRevoked(s, p)) else None
    case HandedBack(p, o) =>
      if Yielded(s, p, o) then Some(s) else None
    case HandBackFailed(p, o) =>
      if Yielded(s, p, o) then Some(s.(position := s.position[p := o + 1])) else None
    case Crashed => Some(s.(position := map[], phase := Idle, begun := 0, tally := multiset{}))
    case OperatorAudited(k) => if k in s.ledger then Some(s) else None
    case OperatorPosted(k, _) => if k in s.ledger then Some(s) else None
    case OperatorRecorded(k, x) =>
      if k in s.ledger && x.Resend? then Some(s.(ledger := Logged(s.ledger, k, x))) else None
    case _ => None
  }

  /** A wait's poll yields a message of some partition that is not paused, so not
      the in-flight one unless that one was lost and regained. */
  predicate Yielded(s: State, p: Partition, o: nat) {
    && s.phase.Busy? && s.phase.stage.Backoff?
    && p in s.position && s.position[p] == o
    && (p != s.phase.m.at || s.phase.revoked)
  }

  predicate Writes(e: Event, k: Key, o: Outcome) {
    e.Wrote? && e.key == k && e.entry.Upsert? && e.entry.outcome == o
  }

  /** A write that raises: it did not run, or it ran and the reply was lost. */
  predicate WriteRaises(e: Event, k: Key, o: Outcome) {
    e.StoreDown? || (e.Unconfirmed? && e.key == k && e.entry.Upsert? && e.entry.outcome == o)
  }

  /** 2xx is delivered, 408/429/5xx and no answer are retried, the rest is a refusal. */
  function Answered(r: Route, a: Answer): Stage {
    if Accepts(a) then if r.dedupe.Some? then Recording else Settling(Sent)
    else if Retryable(a) then Backoff(false)
    else Settling(Rejected)
  }

  /** Where an event takes the delivery in hand: to a stage, on to the next route, or
      out of the message altogether. */
  datatype Move = To(stage: Stage) | Next | Quit

  /** The events of one delivery. `id` is the event id of the message for route `r`,
      `delivered` says whether the ledger holds it as delivered. */
  function Deliver(stage: Stage, revoked: bool, r: Route, m: Message, id: Option<string>, key: Key,
                   delivered: bool, e: Event): Option<Move>
  {
    match stage
    case Between => if e == Began(r) then Some(To(Opening(r, m))) else None
    case Head =>
      if e.Looked? && e.key == key && e.found == delivered
      then Some(To(if delivered then Settling(Duplicate) else Ready))
      else if e.StoreDown? then Some(To(Backoff(false)))
      else None
    case Ready =>
      if r.held then
        if WriteRaises(e, key, Held) then Some(To(Backoff(false)))
        else if Writes(e, key, Held) then Some(To(Settling(WasHeld)))
        else None
      else if e.NoCredential? then if r.credentialed then Some(To(Backoff(false))) else None
      else if e.Posted? && e.route == r && e.event == id then Some(To(Answered(r, e.answer)))
      else None
    case Recording =>
      if Writes(e, key, Delivered) then Some(To(Settling(Sent)))
      else if WriteRaises(e, key, Delivered) then Some(To(Backoff(true)))
      else None
    case Backoff(rec) =>
      if e.Waited? && !revoked then Some(To(if rec then Recording else LoopHead(r)))
      else if e == Ended(r, id, Abandoned) && revoked then Some(Quit)
      else if e == Ended(r, id, Exhausted) && !revoked
      then Some(if r.dedupe.Some? && !rec then To(Aftermath(false)) else Next)
      else None
    case Settling(how) => if e == Ended(r, id, how) then Some(Next) else None
    case Aftermath(failing) =>
      if Writes(e, key, if failing then Failed else Held) then Some(Next)
      else if WriteRaises(e, key, Held) && !failing then Some(To(Aftermath(true)))
      else if e.Unconfirmed? && WriteRaises(e, key, Failed) && failing then Some(To(Aftermath(true)))
      else if e == Declared(key) && failing then Some(Next)
      else None
  }

  function Moved(ph: Phase, mv: Move): Phase
    requires ph.Busy?
  {
    match mv
    case To(stage) => ph.(stage := stage)
    case Next => ph.(next := ph.next + 1, stage := Between)
    case Quit => Idle
  }

  function KeyFor(r: Route, m: Message): Key {
    Key(r.name, if EventId(r, m).Some? then EventId(r, m).value else "")
  }

  /** One delivery event: the stage moves, a start is counted, an ending is tallied, a
      write reaches the ledger. */
  function StepRoute(s: State, r: Route, e: Event): Option<State>
    requires s.phase.Busy?
  {
    var m, key := s.phase.m, KeyFor(r, s.phase.m);
    var mv := Deliver(s.phase.stage, s.phase.revoked, r, m, EventId(r, m), key, IsDelivered(s.ledger, key), e);
    if mv.None? then None
    else Some(s.(phase := Moved(s.phase, mv.value),
                 ledger := if e.Wrote? || e.Unconfirmed? then Logged(s.ledger, e.key, e.entry) else s.ledger,
                 begun := s.begun + if e.Began? then 1 else 0,
                 tally := if e.Ended? then s.tally + multiset{e.how} else s.tally))
  }

  function Step(cfg: Config, s: State, e: Event): Option<State> {
    if e.Took? then
      if s.phase.Idle? && e.m.at in s.position && s.position[e.m.at] == e.m.offset
      then Some(s.(position := s.position[e.m.at := e.m.offset + 1], phase := Busy(e.m, 0, Between, false)))
      else None
    else if e.Committed? || e.CommitRefused? then
      if s.phase.Busy? && s.phase.stage == Between && s.phase.next == |Matching(cfg, s.phase.m)| then
        var m := s.phase.m;
        Some(if e.Committed? then s.(committed := s.committed[m.at := m.offset + 1], phase := Idle)
             else s.(phase := Idle))
      else None
    else if Around(e) then StepAround(s, e)
    else if s.phase.Busy? && s.phase.next < |Matching(cfg, s.phase.m)| then
      StepRoute(s, Matching(cfg, s.phase.m)[s.phase.next], e)
    else None
  }

  /** The state a journal leads to, or `None` when the code cannot write it. */
  function Run(cfg: Config, j: seq<Event>): Option<State> {
    if j == [] then Some(START)
    else
      var before := Run(cfg, j[..|j| - 1]);
      if before.None? then None else Step(cfg, before.value, j[|j| - 1])
  }

  predicate Legal(cfg: Config, j: seq<Event>) { Run(cfg, j).Some? }

  lemma RunStep(cfg: Config, j: seq<Event>, e: Event)
    ensures Legal(cfg, j) ==> Run(cfg, j + [e]) == Step(cfg, Run(cfg, j).value, e)
    ensures !Legal(cfg, j) ==> !Legal(cfg, j + [e])
  {
    hide Step;
    assert (j + [e])[..|j|] == j;
  }

  lemma CrashEnabled(cfg: Config, s: State)
    ensures Step(cfg, s, Crashed).Some?
  {
  }

  /** A crash can cut any run short at any point: every prefix of a legal journal
      is legal, and so is that prefix followed by a crash. */
  lemma {:induction false} CrashAnywhere(cfg: Config, j: seq<Event>, n: nat)
    requires Legal(cfg, j) && n <= |j|
    ensures Legal(cfg, j[..n]) && Legal(cfg, j[..n] + [Crashed])
  {
    hide Step;
    if n == |j| {
      assert j[..n] == j;
      RunStep(cfg, j, Crashed);
      CrashEnabled(cfg, Run(cfg, j).value);
    } else {
      CrashAnywhere(cfg, j[..|j| - 1], n);
      assert j[..|j| - 1][..n] == j[..n];
    }
  }
}
