/** Element views and who holds them: a per-viewer bound, idle holders swept away, and
    a grace timer from the moment the last holder leaves until the view is removed. A
    timer that has fired may still be waiting for the lock when it is cancelled, so a
    stale timer can run at any later moment. */
module Elements {
  import opened Options

  const VIEWER_SHAPE_MAX: nat := 8
  const GRACE: int := 30000
  const HOLDER_IDLE: int := 120000

  /** `holders` maps a principal to when it was last seen; `grace` is when the running
      grace timer was started. */
  datatype Entry = Entry(holders: map<string, int>, grace: Option<int>)

  type Views = map<string, Entry>

  datatype Answer = Refused | Fresh | Held

  // --- the transitions, on values --------------------------------------------

  function Kept(holders: map<string, int>, now: int): map<string, int> {
    map p | p in holders && now - holders[p] < HOLDER_IDLE :: holders[p]
  }

  /** A view left without holders starts its grace, unless it is already running. */
  function Graced(e: Entry, now: int): Entry {
    if e.holders == map[] && e.grace.None? then e.(grace := Some(now)) else e
  }

  function Swept(vs: Views, now: int): Views {
    map v | v in vs :: Graced(vs[v].(holders := Kept(vs[v].holders, now)), now)
  }

  function HeldBy(vs: Views, p: string): set<string> {
    set v | v in vs && p in vs[v].holders
  }

  function Holds(vs: Views, p: string, v: string): bool { v in vs && p in vs[v].holders }

  function AcquireAnswer(vs: Views, p: string, v: string): Answer {
    if Holds(vs, p, v) then Held
    else if |HeldBy(vs, p)| >= VIEWER_SHAPE_MAX then Refused
    else Fresh
  }

  function Acquired(vs: Views, p: string, v: string, now: int): Views {
    if AcquireAnswer(vs, p, v) == Refused then vs
    else vs[v := Entry(HoldersOf(vs, v)[p := now], None)]
  }

  function HoldersOf(vs: Views, v: string): map<string, int> {
    if v in vs then vs[v].holders else map[]
  }

  function Released(vs: Views, p: string, v: string, now: int): Views {
    if !Holds(vs, p, v) then vs
    else vs[v := Graced(vs[v].(holders := vs[v].holders - {p}), now)]
  }

  function Expired(vs: Views, v: string): Views {
    if v in vs && vs[v].holders == map[] && vs[v].grace.Some? then vs - {v} else vs
  }

  // --- runs ------------------------------------------------------------------

  /** Why a removed view's upstream shape went or stayed. */
  datatype Outcome = Deleted | UpstreamError | SkippedFlagOff

  datatype Event =
    | Acquire(p: string, v: string)
    | Release(p: string, v: string)
    | Sweep
    | Fire(v: string, started: int)
    | Counted(o: Outcome)
    | Tick(to: int)

  /** `armed` is the grace timers that can still run, by view and start time. Cancelling one
      whose time has come is too late: it may be waiting for the lock. */
  datatype State = State(now: int, views: Views, armed: multiset<(string, int)>,
                         created: nat, removing: nat, outcomes: multiset<Outcome>)

  const START := State(0, map[], multiset{}, 0, 0, multiset{})

  /** The timers a change of the table starts. */
  function Started(vs: Views, t: Views): multiset<(string, int)> {
    multiset(set v | v in t && t[v].grace.Some? && (v in vs ==> vs[v].grace.None?) :: (v, t[v].grace.value))
  }

  /** The timer an acquire cancels in time. */
  function Cancelled(vs: Views, t: Views, v: string, now: int): multiset<(string, int)> {
    if v in vs && v in t && vs[v].grace.Some? && t[v].grace.None? && now < vs[v].grace.value + GRACE
    then multiset{(v, vs[v].grace.value)} else multiset{}
  }

  function Step(s: State, e: Event): Option<State> {
    match e
    case Tick(to) => if to >= s.now then Some(s.(now := to)) else None
    case Sweep => var vs := Swept(s.views, s.now); Some(s.(views := vs, armed := s.armed + Started(s.views, vs)))
    case Acquire(p, v) =>
      var vs := Swept(s.views, s.now);
      var t := Acquired(vs, p, v, s.now);
      Some(s.(views := t, armed := s.armed + Started(s.views, vs) - Cancelled(vs, t, v, s.now),
              created := s.created + if v in t && v !in s.views then 1 else 0))
    case Release(p, v) =>
      var vs := Swept(s.views, s.now);
      var t := Released(vs, p, v, s.now);
      Some(s.(views := t, armed := s.armed + Started(s.views, vs) + Started(vs, t)))
    case Fire(v, started) =>
      if (v, started) !in s.armed || s.now < started + GRACE then None
      else var t := Expired(s.views, v);
           Some(s.(views := t, armed := s.armed - multiset{(v, started)},
                   removing := s.removing + if v in s.views && v !in t then 1 else 0))
    case Counted(o) =>
      if s.removing == 0 then None
      else Some(s.(removing := s.removing - 1, outcomes := s.outcomes + multiset{o}))
  }

  function Run(es: seq<Event>): Option<State> {
    if es == [] then Some(START)
    else
      var before := Run(es[..|es| - 1]);
      if before.None? then None else Step(before.value, es[|es| - 1])
  }

  /** A grace timer runs exactly while nobody holds the view; nobody holds more than
      the bound; every view ever created is live, counted, or removed and about to be. */
  ghost predicate Inv(s: State) {
    && GraceIffIdle(s.views) && WithinBound(s.views)
    && s.created == |s.views| + |s.outcomes| + s.removing
    && Timed(s.armed, s.views, s.now)
  }

  /** Every running grace has its timer, and no timer is from the future. */
  ghost predicate Timed(armed: multiset<(string, int)>, vs: Views, now: int) {
    && (forall v :: v in vs && vs[v].grace.Some? ==> (v, vs[v].grace.value) in armed)
    && (forall x :: x in armed ==> x.1 <= now)
  }

  /** Graces run on, end, or start now. */
  ghost predicate Regraced(vs: Views, t: Views, now: int) {
    forall v :: v in t && t[v].grace.Some? ==>
      t[v].grace == if v in vs && vs[v].grace.Some? then vs[v].grace else Some(now)
  }

  ghost predicate GraceIffIdle(vs: Views) {
    forall v :: v in vs ==> (vs[v].grace.Some? <==> vs[v].holders == map[])
  }

  ghost predicate WithinBound(vs: Views) {
    forall p :: |HeldBy(vs, p)| <= VIEWER_SHAPE_MAX
  }

  lemma SubsetSize<T>(a: set<T>, b: set<T>)
    requires a <= b
    ensures |a| <= |b|
  {
    if a != {} {
      var x :| x in a;
      SubsetSize(a - {x}, b - {x});
    }
  }

  /** A sweep only takes holders away, and starts the graces that are due. */
  lemma SweepKeeps(vs: Views, now: int)
    requires WithinBound(vs)
    requires forall v :: v in vs && vs[v].grace.Some? ==> vs[v].holders == map[]
    ensures WithinBound(Swept(vs, now)) && GraceIffIdle(Swept(vs, now))
    ensures Swept(vs, now).Keys == vs.Keys && |Swept(vs, now)| == |vs|
    ensures Regraced(vs, Swept(vs, now), now)
  {
    var t := Swept(vs, now);
    assert t.Keys == vs.Keys;
    assert |t| == |t.Keys| && |vs| == |vs.Keys|;
    forall p ensures |HeldBy(t, p)| <= VIEWER_SHAPE_MAX {
      assert HeldBy(t, p) <= HeldBy(vs, p);
      SubsetSize(HeldBy(t, p), HeldBy(vs, p));
    }
  }

  lemma UpdateSize(vs: Views, v: string, e: Entry)
    ensures vs[v := e].Keys == vs.Keys + {v} && |vs[v := e]| == |vs| + if v in vs then 0 else 1
  {
    assert vs[v := e].Keys == vs.Keys + {v};
    if v in vs { assert vs.Keys + {v} == vs.Keys; }
  }

  lemma AcquireShape(vs: Views, p: string, v: string, now: int)
    requires GraceIffIdle(vs)
    ensures var t := Acquired(vs, p, v, now);
            && GraceIffIdle(t)
            && |t| == |vs| + (if v in t && v !in vs then 1 else 0)
            && t.Keys - {v} == vs.Keys - {v}
            && (forall w :: w in t && t[w].grace.Some? ==> w != v || AcquireAnswer(vs, p, v) == Refused)
            && (forall w :: w in t && t[w].grace.Some? ==> w in vs && t[w].grace == vs[w].grace)
            && (AcquireAnswer(vs, p, v) == Refused ==> t == vs)
  {
    hide AcquireAnswer, HoldersOf;
    var t := Acquired(vs, p, v, now);
    if AcquireAnswer(vs, p, v) != Refused {
      UpdateSize(vs, v, Entry(HoldersOf(vs, v)[p := now], None));
      assert p in t[v].holders;
    }
  }

  lemma HeldAfterAcquire(vs: Views, p: string, v: string, now: int, q: string)
    requires AcquireAnswer(vs, p, v) != Refused
    ensures HeldBy(Acquired(vs, p, v, now), q) == HeldBy(vs, q) + (if q == p then {v} else {})
  {
    hide AcquireAnswer;
    var t := Acquired(vs, p, v, now);
    assert forall w :: w in t && w != v ==> w in vs && t[w] == vs[w];
    assert q in t[v].holders <==> q == p || q in HoldersOf(vs, v);
  }

  lemma AcquireBound(vs: Views, p: string, v: string, now: int)
    requires WithinBound(vs)
    ensures WithinBound(Acquired(vs, p, v, now))
  {
    if AcquireAnswer(vs, p, v) != Refused {
      hide Acquired;
      forall q ensures |HeldBy(Acquired(vs, p, v, now), q)| <= VIEWER_SHAPE_MAX {
        HeldAfterAcquire(vs, p, v, now, q);
        assert |HeldBy(vs, q)| <= VIEWER_SHAPE_MAX;
        if q == p && Holds(vs, p, v) { assert HeldBy(vs, p) + {v} == HeldBy(vs, p); }
        if q != p { assert HeldBy(vs, q) + {} == HeldBy(vs, q); }
      }
    }
  }

  lemma ReleaseKeeps(vs: Views, p: string, v: string, now: int)
    requires WithinBound(vs) && GraceIffIdle(vs)
    ensures WithinBound(Released(vs, p, v, now)) && GraceIffIdle(Released(vs, p, v, now))
    ensures |Released(vs, p, v, now)| == |vs|
    ensures Regraced(vs, Released(vs, p, v, now), now)
  {
    var t := Released(vs, p, v, now);
    if Holds(vs, p, v) { assert t.Keys == vs.Keys; }
    forall q ensures |HeldBy(t, q)| <= VIEWER_SHAPE_MAX {
      assert HeldBy(t, q) <= HeldBy(vs, q);
      SubsetSize(HeldBy(t, q), HeldBy(vs, q));
    }
  }

  lemma ExpireKeeps(vs: Views, v: string)
    requires WithinBound(vs) && GraceIffIdle(vs)
    ensures WithinBound(Expired(vs, v)) && GraceIffIdle(Expired(vs, v))
    ensures |Expired(vs, v)| == |vs| - if v in vs && v !in Expired(vs, v) then 1 else 0
  {
    var t := Expired(vs, v);
    forall q ensures |HeldBy(t, q)| <= VIEWER_SHAPE_MAX {
      assert HeldBy(t, q) <= HeldBy(vs, q);
      SubsetSize(HeldBy(t, q), HeldBy(vs, q));
    }
    if v in vs && v !in t { assert t.Keys == vs.Keys - {v}; }
  }

  /** The running timers stay armed when a change of the table starts the new ones. */
  lemma StartedTimed(armed: multiset<(string, int)>, vs: Views, t: Views, now: int)
    requires Timed(armed, vs, now) && Regraced(vs, t, now)
    ensures Timed(armed + Started(vs, t), t, now)
  {
    forall v | v in t && t[v].grace.Some? ensures (v, t[v].grace.value) in armed + Started(vs, t) {
      if v in vs && vs[v].grace.Some? {
        assert (v, vs[v].grace.value) in armed;
      } else {
        assert (v, t[v].grace.value) in Started(vs, t);
      }
    }
    forall x | x in Started(vs, t) ensures x.1 <= now {
      assert x.0 in t && t[x.0].grace == Some(x.1);
    }
  }

  /** An acquire cancels the timer of its own view only. */
  lemma CancelledTimed(armed: multiset<(string, int)>, vs: Views, p: string, v: string, now: int)
    requires Timed(armed, vs, now) && GraceIffIdle(vs)
    ensures var t := Acquired(vs, p, v, now);
            Timed(armed - Cancelled(vs, t, v, now), t, now)
  {
    AcquireShape(vs, p, v, now);
    hide AcquireAnswer, Acquired;
    var t := Acquired(vs, p, v, now);
    forall w | w in t && t[w].grace.Some? ensures (w, t[w].grace.value) in armed - Cancelled(vs, t, v, now) {
      assert (w, vs[w].grace.value) in armed;
    }
  }

  lemma SweepStep(s: State)
    requires Inv(s)
    ensures Inv(Step(s, Sweep).value)
    ensures var vs := Swept(s.views, s.now);
            && WithinBound(vs) && GraceIffIdle(vs) && |vs| == |s.views| && vs.Keys == s.views.Keys
            && Timed(s.armed + Started(s.views, vs), vs, s.now)
  {
    SweepKeeps(s.views, s.now);
    hide HeldBy, Swept, Started, Timed, WithinBound, GraceIffIdle, Regraced;
    StartedTimed(s.armed, s.views, Swept(s.views, s.now), s.now);
  }

  lemma AcquireStep(s: State, p: string, v: string)
    requires Inv(s)
    ensures Inv(Step(s, Acquire(p, v)).value)
  {
    hide HeldBy, Swept, Acquired, Started, Cancelled, Timed, WithinBound, GraceIffIdle;
    SweepStep(s);
    var vs := Swept(s.views, s.now);
    AcquireShape(vs, p, v, s.now);
    AcquireBound(vs, p, v, s.now);
    CancelledTimed(s.armed + Started(s.views, vs), vs, p, v, s.now);
  }

  lemma ReleaseStep(s: State, p: string, v: string)
    requires Inv(s)
    ensures Inv(Step(s, Release(p, v)).value)
  {
    hide HeldBy, Swept, Released, Started, Timed, WithinBound, GraceIffIdle, Regraced;
    SweepStep(s);
    var vs := Swept(s.views, s.now);
    ReleaseKeeps(vs, p, v, s.now);
    StartedTimed(s.armed + Started(s.views, vs), vs, Released(vs, p, v, s.now), s.now);
  }

  lemma FireKeeps(s: State, v: string, started: int)
    requires Inv(s) && Step(s, Fire(v, started)).Some?
    ensures Inv(Step(s, Fire(v, started)).value)
  {
    ExpireKeeps(s.views, v);
    hide HeldBy, WithinBound;
    var t := Expired(s.views, v);
    forall w | w in t && t[w].grace.Some? ensures (w, t[w].grace.value) in s.armed - multiset{(v, started)} {
      assert w != v;
    }
  }

  lemma StepKeeps(s: State, e: Event)
    requires Inv(s) && Step(s, e).Some?
    ensures Inv(Step(s, e).value)
  {
    hide HeldBy, WithinBound, GraceIffIdle, Swept, Acquired, Released, Started, Cancelled, Expired;
    match e
    case Tick(_) =>
    case Sweep => SweepStep(s);
    case Acquire(p, v) => AcquireStep(s, p, v);
    case Release(p, v) => ReleaseStep(s, p, v);
    case Fire(v, started) => FireKeeps(s, v, started);
    case Counted(_) =>
  }

  /** Under every interleaving of acquires, releases, sweeps and timers, stale ones
      included. */
  lemma {:induction false} EveryRunKeeps(es: seq<Event>)
    requires Run(es).Some?
    ensures Inv(Run(es).value)
  {
    if es != [] {
      EveryRunKeeps(es[..|es| - 1]);
      StepKeeps(Run(es[..|es| - 1]).value, es[|es| - 1]);
    } else {
      assert forall p :: HeldBy(START.views, p) == {};
    }
  }

  /** The principal holds the view and was seen within the idle time. */
  predicate Active(s: State, p: string, v: string) {
    v in s.views && p in s.views[v].holders && s.now - s.views[v].holders[p] < HOLDER_IDLE
  }

  /** The views a principal holds after the idle holders went. */
  function ActiveViews(s: State, p: string): set<string> { set v | v in s.views && Active(s, p, v) }

  /** Who holds a view after an event: a release of one's own ends it; an acquire of one's
      own gives it to whoever has it already or holds fewer than the bound; acquires,
      releases and sweeps of anyone drop who was not seen for the idle time; nothing else
      changes it. The time seen is that of the acquire. */
  lemma HoldsAfter(s: State, e: Event, p: string, v: string)
    requires Step(s, e).Some?
    ensures var t := Step(s, e).value;
            && (Holds(t.views, p, v) <==>
                  if e == Release(p, v) then false
                  else if e == Acquire(p, v) then Active(s, p, v) || |ActiveViews(s, p)| < VIEWER_SHAPE_MAX
                  else if e.Acquire? || e.Release? || e.Sweep? then Active(s, p, v)
                  else Holds(s.views, p, v))
            && (Holds(t.views, p, v) ==>
                  if e == Acquire(p, v) then t.views[v].holders[p] == s.now
                  else Holds(s.views, p, v) && t.views[v].holders[p] == s.views[v].holders[p])
  {
    SweptHolds(s, p, v);
    hide Swept, HeldBy, Started, Cancelled;
    assert HeldBy(Swept(s.views, s.now), p) == ActiveViews(s, p) by { SweptHeldBy(s, p); }
  }

  lemma SweptHolds(s: State, p: string, v: string)
    ensures Holds(Swept(s.views, s.now), p, v) <==> Active(s, p, v)
    ensures Active(s, p, v) ==> Swept(s.views, s.now)[v].holders[p] == s.views[v].holders[p]
    ensures v in Swept(s.views, s.now) <==> v in s.views
  {
  }

  lemma SweptHeldBy(s: State, p: string)
    ensures HeldBy(Swept(s.views, s.now), p) == ActiveViews(s, p)
  {
    hide Swept;
    forall v ensures v in HeldBy(Swept(s.views, s.now), p) <==> v in ActiveViews(s, p) { SweptHolds(s, p, v); }
  }

  /** A granted acquire cancels the timer of a running grace whose time has not come, and
      only that; one whose time has come may still fire. */
  lemma AcquireCancelsInTime(es: seq<Event>, p: string, v: string)
    requires Run(es).Some? && v in Run(es).value.views && Run(es).value.views[v].grace.Some?
    ensures var s := Run(es).value;
            var g, t := s.views[v].grace.value, Step(s, Acquire(p, v)).value;
            v in t.views
            && (t.views[v].grace.None? <==> |ActiveViews(s, p)| < VIEWER_SHAPE_MAX)
            && (t.views[v].grace.None? ==>
                  t.armed[(v, g)] + (if s.now < g + GRACE then 1 else 0) == s.armed[(v, g)])
  {
    EveryRunKeeps(es);
    var s := Run(es).value;
    hide Run, Step, ActiveViews, HeldBy, WithinBound, Active;
    StepAcquire(s, p, v);
    AcquireCancels(s, p, v);
  }

  lemma AcquireCancels(s: State, p: string, v: string)
    requires v in s.views && s.views[v].grace.Some? && s.views[v].holders == map[]
    requires (v, s.views[v].grace.value) in s.armed
    ensures Step(s, Acquire(p, v)).Some? && v in Step(s, Acquire(p, v)).value.views
    ensures var g, t := s.views[v].grace.value, Step(s, Acquire(p, v)).value;
            (t.views[v].grace.None? <==> |ActiveViews(s, p)| < VIEWER_SHAPE_MAX)
            && (t.views[v].grace.None? ==>
                  t.armed[(v, g)] + (if s.now < g + GRACE then 1 else 0) == s.armed[(v, g)])
  {
    hide Step, HeldBy, Swept, Acquired, Started, Cancelled, ActiveViews;
    var g := s.views[v].grace.value;
    var vs := Swept(s.views, s.now);
    GraceOutlivesSweep(s, v);
    SweptHeldBy(s, p);
    StepAcquire(s, p, v);
    AcquireOfGraced(vs, p, v, s.now);
    TakeOne(s.armed, Started(s.views, vs), (v, g));
  }

  lemma TakeOne(armed: multiset<(string, int)>, started: multiset<(string, int)>, timer: (string, int))
    requires timer in armed && timer !in started
    ensures (armed + started - multiset{timer})[timer] == armed[timer] - 1
    ensures (armed + started - multiset{})[timer] == armed[timer]
  {
  }

  lemma StepAcquire(s: State, p: string, v: string)
    ensures var vs, u := Swept(s.views, s.now), Step(s, Acquire(p, v));
            u.Some? && u.value.views == Acquired(vs, p, v, s.now)
            && u.value.armed == s.armed + Started(s.views, vs) - Cancelled(vs, u.value.views, v, s.now)
  {
    hide Swept, Acquired, Started, Cancelled;
  }

  lemma GraceOutlivesSweep(s: State, v: string)
    requires v in s.views && s.views[v].grace.Some? && s.views[v].holders == map[]
    ensures v in Swept(s.views, s.now) && Swept(s.views, s.now)[v] == s.views[v]
    ensures (v, s.views[v].grace.value) !in Started(s.views, Swept(s.views, s.now))
  {
    assert Kept(s.views[v].holders, s.now) == map[];
  }

  lemma AcquireOfGraced(vs: Views, p: string, v: string, now: int)
    requires v in vs && vs[v].grace.Some? && vs[v].holders == map[]
    ensures var t := Acquired(vs, p, v, now);
            && v in t && (t[v].grace.None? <==> |HeldBy(vs, p)| < VIEWER_SHAPE_MAX)
            && (t[v].grace.None? ==>
                  Cancelled(vs, t, v, now)
                  == if now < vs[v].grace.value + GRACE then multiset{(v, vs[v].grace.value)} else multiset{})
  {
    hide HeldBy;
  }

  /** Every view removed and not counted yet can be counted, with any outcome. */
  lemma RemovalIsCounted(es: seq<Event>, o: Outcome)
    requires Run(es).Some?
    ensures Run(es + [Counted(o)]).Some? <==> Run(es).value.created > |Run(es).value.views| + |Run(es).value.outcomes|
  {
    EveryRunKeeps(es);
    hide Step, Timed, WithinBound, GraceIffIdle;
    StepCounted(Run(es).value, o);
    assert (es + [Counted(o)])[..|es|] == es;
  }

  lemma StepCounted(s: State, o: Outcome)
    ensures Step(s, Counted(o)).Some? <==> s.removing > 0
  {
    hide Swept, Acquired, Released, Expired, Started, Cancelled;
  }

  /** Some step takes the view away. */
  ghost predicate Removable(s: State, v: string) {
    exists e :: Step(s, e).Some? && v !in Step(s, e).value.views
  }

  lemma OnlyTimersRemove(s: State, e: Event, v: string)
    requires Inv(s) && Step(s, e).Some? && v in s.views && v !in Step(s, e).value.views
    ensures e.Fire? && e.v == v && (v, e.started) in s.armed && s.now >= e.started + GRACE && s.views[v].grace.Some?
  {
    hide HeldBy;
    SweepKeeps(s.views, s.now);
  }

  /** In every run, a view can go exactly while nobody holds it and a timer of it is due,
      its own or a stale one. */
  lemma RemovableExactly(es: seq<Event>, v: string)
    requires Run(es).Some? && v in Run(es).value.views
    ensures var s := Run(es).value;
            Removable(s, v) <==> s.views[v].holders == map[] && exists st :: (v, st) in s.armed && s.now >= st + GRACE
  {
    EveryRunKeeps(es);
    var s := Run(es).value;
    hide Run, Step, HeldBy;
    if e :| Step(s, e).Some? && v !in Step(s, e).value.views { OnlyTimersRemove(s, e, v); }
    if st :| s.views[v].holders == map[] && (v, st) in s.armed && s.now >= st + GRACE { FireStep(s, v, st); }
  }

  /** A step can cut a running grace short exactly if a timer started before it, on an
      earlier grace of the view, is due. */
  lemma CutShortExactly(es: seq<Event>, v: string)
    requires Run(es).Some? && v in Run(es).value.views && Run(es).value.views[v].grace.Some?
    requires Run(es).value.now < Run(es).value.views[v].grace.value + GRACE
    ensures var s := Run(es).value;
            Removable(s, v) <==>
              exists st :: (v, st) in s.armed && st < s.views[v].grace.value && s.now >= st + GRACE
  {
    EveryRunKeeps(es);
    RemovableExactly(es, v);
    hide Run, Removable;
  }

  ghost predicate NoOlderTimer(s: State, v: string, since: int) {
    since <= s.now && forall st :: (v, st) in s.armed ==> since <= st
  }

  lemma StepNoOlder(s: State, e: Event, v: string, since: int)
    requires Inv(s) && Step(s, e).Some? && NoOlderTimer(s, v, since)
    ensures NoOlderTimer(Step(s, e).value, v, since)
    ensures v in s.views && s.now < since + GRACE ==> v in Step(s, e).value.views
  {
    var t := Step(s, e).value;
    hide HeldBy, Swept, Acquired, Released;
    StepKeeps(s, e);
    if v in s.views && v !in t.views { OnlyTimersRemove(s, e, v); }
    assert Timed(t.armed, t.views, t.now);
    NewTimersAreNow(s, e);
  }

  lemma NewTimersAreNow(s: State, e: Event)
    requires Inv(s) && Step(s, e).Some?
    ensures forall x :: x in Step(s, e).value.armed ==> x in s.armed || x.1 == s.now
  {
    SweepKeeps(s.views, s.now);
    var vs := Swept(s.views, s.now);
    StartedNow(s.views, vs, s.now);
    if e.Release? {
      ReleaseKeeps(vs, e.p, e.v, s.now);
      StartedNow(vs, Released(vs, e.p, e.v, s.now), s.now);
    }
    hide HeldBy, Swept, Acquired, Released, Expired, Started, Cancelled, WithinBound, GraceIffIdle, Regraced, Timed;
  }

  lemma StartedNow(vs: Views, t: Views, now: int)
    requires Regraced(vs, t, now)
    ensures forall x :: x in Started(vs, t) ==> x.1 == now
  {
  }

  /** Whatever happens, a view stays for a full grace from `since` on if none of its timers
      is older, taken up again and left again in between or not. */
  lemma {:induction false} StaysForAGrace(es: seq<Event>, more: seq<Event>, v: string, since: int)
    requires Run(es).Some? && v in Run(es).value.views && NoOlderTimer(Run(es).value, v, since)
    requires Run(es + more).Some? && Run(es + more).value.now < since + GRACE
    ensures v in Run(es + more).value.views && NoOlderTimer(Run(es + more).value, v, since)
  {
    if more == [] {
      assert es + more == es;
    } else {
      var init, e := more[..|more| - 1], more[|more| - 1];
      assert (es + more)[..|es + more| - 1] == es + init && (es + more)[|es + more| - 1] == e;
      EveryRunKeeps(es + init);
      TimeGoesOn(Run(es + init).value, e);
      StaysForAGrace(es, init, v, since);
      hide Run, Step, Inv;
      StepNoOlder(Run(es + init).value, e, v, since);
    }
  }

  lemma TimeGoesOn(s: State, e: Event)
    requires Step(s, e).Some?
    ensures s.now <= Step(s, e).value.now
  {
    hide Swept, Acquired, Released, Expired, Started, Cancelled;
  }

  /** The removal of `v` within the full time of its grace. */
  ghost predicate GoesEarly(es: seq<Event>, more: seq<Event>, v: string, grace: int) {
    Run(es + more).Some? && v !in Run(es + more).value.views && Run(es + more).value.now < grace + GRACE
  }

  /** Over runs: a running grace has its full time, whatever happens in it, exactly if no
      timer of an earlier grace of the view is still armed. */
  lemma FullGraceExactly(es: seq<Event>, v: string)
    requires Run(es).Some? && v in Run(es).value.views && Run(es).value.views[v].grace.Some?
    requires Run(es).value.now < Run(es).value.views[v].grace.value + GRACE
    ensures var s := Run(es).value;
            (forall more :: !GoesEarly(es, more, v, s.views[v].grace.value))
            <==> forall st :: (v, st) in s.armed ==> s.views[v].grace.value <= st
  {
    EveryRunKeeps(es);
    var s := Run(es).value;
    var g := s.views[v].grace.value;
    hide Run, Step, HeldBy;
    if st :| (v, st) in s.armed && st < g {
      var to := if s.now < st + GRACE then st + GRACE else s.now;
      TickStep(s, to);
      var t := Then(es, s, Tick(to));
      FireStep(t, v, st);
      var u := Then(es + [Tick(to)], t, Fire(v, st));
      FireKeepsTime(t, v, st);
      assert es + [Tick(to)] + [Fire(v, st)] == es + [Tick(to), Fire(v, st)];
      assert GoesEarly(es, [Tick(to), Fire(v, st)], v, g);
    } else {
      assert (v, g) in s.armed;
      forall more ensures !GoesEarly(es, more, v, g) {
        if GoesEarly(es, more, v, g) { StaysForAGrace(es, more, v, g); }
      }
    }
  }

  lemma FireKeepsTime(s: State, v: string, started: int)
    requires Step(s, Fire(v, started)).Some?
    ensures Step(s, Fire(v, started)).value.now == s.now
  {
  }

  /** And for every view there are runs that come to this: a timer that fired just as its
      view was acquired again runs after the next release and removes the view at once. */
  lemma StaleTimerCutsGrace(p: string, v: string) returns (es: seq<Event>, e: Event)
    ensures Run(es).Some? && Step(Run(es).value, e).Some?
    ensures var s := Run(es).value;
            && v in s.views && s.views[v].grace == Some(s.now)
            && v !in Step(s, e).value.views
  {
    var s1, s2, s4, s5;
    s1, s2 := OnceAround([], START, p, v);
    var es2 := ([] + [Acquire(p, v)]) + [Release(p, v)];
    hide Step, Run;
    TickStep(s2, GRACE);
    var s3 := Then(es2, s2, Tick(GRACE));
    var es3 := es2 + [Tick(GRACE)];
    s4, s5 := OnceAround(es3, s3, p, v);
    es, e := (es3 + [Acquire(p, v)]) + [Release(p, v)], Fire(v, 0);
    FireStep(s5, v, 0);
  }

  lemma TickStep(s: State, to: int)
    requires s.now <= to
    ensures Step(s, Tick(to)) == Some(s.(now := to))
  {
  }

  lemma FireStep(s: State, v: string, started: int)
    requires v in s.views && s.views[v].holders == map[] && s.views[v].grace.Some?
    requires (v, started) in s.armed && s.now >= started + GRACE
    ensures Step(s, Fire(v, started)).Some? && v !in Step(s, Fire(v, started)).value.views
  {
  }

  /** One principal acquires a view nobody else holds and releases it again. */
  lemma OnceAround(es: seq<Event>, s: State, p: string, v: string) returns (t: State, u: State)
    requires Run(es) == Some(s)
    requires s.views == map[] || exists g :: s.views == map[v := Entry(map[], Some(g))] && s.now >= g + GRACE
    ensures Run(es + [Acquire(p, v)]) == Some(t) && Run((es + [Acquire(p, v)]) + [Release(p, v)]) == Some(u)
    ensures u.views == map[v := Entry(map[], Some(s.now))] && u.now == s.now
    ensures s.armed + multiset{(v, s.now)} <= u.armed
  {
    hide Run;
    AcquireAlone(s, p, v);
    t := Then(es, s, Acquire(p, v));
    ReleaseAlone(t, p, v);
    u := Then(es + [Acquire(p, v)], t, Release(p, v));
  }

  lemma AcquireAlone(s: State, p: string, v: string)
    requires s.views == map[] || exists g :: s.views == map[v := Entry(map[], Some(g))] && s.now >= g + GRACE
    ensures Step(s, Acquire(p, v)).Some?
    ensures var t := Step(s, Acquire(p, v)).value;
            && t.views == map[v := Entry(map[p := s.now], None)] && t.now == s.now && s.armed <= t.armed
  {
    var vs := Swept(s.views, s.now);
    forall w | w in s.views ensures vs[w] == s.views[w] {
      assert Kept(s.views[w].holders, s.now) == map[];
    }
    assert vs.Keys == s.views.Keys;
    assert vs == s.views;
    assert HeldBy(vs, p) == {};
    assert Acquired(vs, p, v, s.now) == map[v := Entry(map[p := s.now], None)];
  }

  lemma ReleaseAlone(s: State, p: string, v: string)
    requires s.views == map[v := Entry(map[p := s.now], None)]
    ensures Step(s, Release(p, v)).Some?
    ensures var t := Step(s, Release(p, v)).value;
            && t.views == map[v := Entry(map[], Some(s.now))] && t.now == s.now
            && s.armed + multiset{(v, s.now)} <= t.armed
  {
    var vs := Swept(s.views, s.now);
    assert Kept(map[p := s.now], s.now) == map[p := s.now];
    assert vs.Keys == s.views.Keys;
    assert p in s.views[v].holders && vs[v] == s.views[v];
    assert vs == s.views;
    assert map[p := s.now] - {p} == map[];
    var t := Released(vs, p, v, s.now);
    assert t == map[v := Entry(map[], Some(s.now))];
    assert (v, s.now) in Started(vs, t);
  }

  lemma Then(es: seq<Event>, s: State, e: Event) returns (t: State)
    requires Run(es) == Some(s) && Step(s, e).Some?
    ensures t == Step(s, e).value && Run(es + [e]) == Some(t)
  {
    hide Step;
    assert (es + [e])[..|es|] == es;
    t := Step(s, e).value;
  }

  // --- the code --------------------------------------------------------------

  /** The module's table under its lock; each method is one critical section. */
  class Table {
    var views: Views
    var refusals: nat
    var reacquired: nat

    constructor ()
      ensures views == map[]
    {
      views, refusals, reacquired := map[], 0, 0;
    }

    /** Drop idle holders one by one, then start the graces that are due. */
    method SweepLocked(now: int)
      modifies this`views
      ensures views == Swept(old(views), now)
    {
      var was := views;
      var todo := was.Keys;
      while todo != {}
        invariant todo <= was.Keys && views.Keys == was.Keys
        invariant forall v :: v in todo ==> views[v] == was[v]
        invariant forall v :: v in was.Keys - todo ==> views[v] == Swept(was, now)[v]
        decreases todo
      {
        var v :| v in todo;
        var st := views[v];
        var holders := st.holders;
        var people := st.holders.Keys;
        while people != {}
          invariant people <= st.holders.Keys
          invariant holders.Keys == Kept(st.holders, now).Keys + people
          invariant forall p :: p in holders ==> holders[p] == st.holders[p]
          decreases people
        {
          var who :| who in people;
          if now - holders[who] >= HOLDER_IDLE { holders := holders - {who}; }
          people := people - {who};
        }
        assert holders == Kept(st.holders, now);
        var grace := if holders == map[] && st.grace.None? then Some(now) else st.grace;
        views := views[v := Entry(holders, grace)];
        todo := todo - {v};
      }
    }

    /** How many views a principal holds. */
    method CountHeld(principal: string) returns (n: nat)
      ensures n == |HeldBy(views, principal)|
    {
      n := 0;
      var todo := views.Keys;
      ghost var seen: set<string> := {};
      while todo != {}
        invariant todo <= views.Keys && seen == HeldBy(views, principal) - todo && n == |seen|
        decreases todo
      {
        var v :| v in todo;
        if principal in views[v].holders {
          n := n + 1;
          seen := seen + {v};
        }
        todo := todo - {v};
      }
      assert seen == HeldBy(views, principal);
    }

    method ElementAcquire(principal: string, view: string, now: int) returns (answer: Answer)
      modifies this
      ensures answer == AcquireAnswer(Swept(old(views), now), principal, view)
      ensures views == Acquired(Swept(old(views), now), principal, view, now)
      ensures answer == Held <==> view in old(views) && principal in old(views)[view].holders
                                  && now - old(views)[view].holders[principal] < HOLDER_IDLE
      ensures refusals == old(refusals) + if answer == Refused then 1 else 0
      ensures reacquired == old(reacquired)
                            + if answer != Refused && view in old(views)
                                 && Swept(old(views), now)[view].grace.Some? then 1 else 0
    {
      SweepLocked(now);
      var held := view in views && principal in views[view].holders;
      var count := CountHeld(principal);
      if !held && count >= VIEWER_SHAPE_MAX {
        refusals := refusals + 1;
        return Refused;
      }
      var st := if view in views then views[view] else Entry(map[], None);
      if st.grace.Some? { reacquired := reacquired + 1; }
      views := views[view := Entry(st.holders[principal := now], None)];
      answer := if held then Held else Fresh;
    }

    method ElementRelease(principal: string, view: string, now: int)
      modifies this`views
      ensures views == Released(Swept(old(views), now), principal, view, now)
    {
      SweepLocked(now);
      if view !in views || principal !in views[view].holders { return; }
      var st := views[view];
      var holders := st.holders - {principal};
      views := views[view := Entry(holders, if holders == map[] && st.grace.None? then Some(now) else st.grace)];
    }

    method GraceExpired(view: string) returns (removed: bool)
      modifies this`views
      ensures views == Expired(old(views), view)
      ensures removed <==> view in old(views) && view !in views
    {
      if view !in views || views[view].holders != map[] || views[view].grace.None? { return false; }
      views := views - {view};
      removed := true;
    }
  }
}
