/** Sign-in sessions (gateway/oidc.py): renewal, deferral, idle and ceiling. A lookup that
    calls the provider is two steps, so others may happen in between. */
module Sessions {
  import opened Options

  datatype Config = Config(sliding: bool, idle: int, ceiling: int, lead: nat, retry: nat)

  datatype Session = Session(subject: string, refresh: string, refreshExpires: int, expires: int, hard: int,
                             lastActive: int)

  datatype Reason = Idle | Ceiling | NoRefresh | RefreshRejected | SubjectMismatch

  /** What a lookup finds before any call to the provider. */
  datatype Found = Nothing | Ended(reason: Reason) | Served(session: Session) | Renewing(ticket: Ticket)

  /** A renewal under way: what the lookup saw when it began. */
  datatype Ticket = Ticket(started: int, subject: string, refresh: string, refreshExpires: int)

  /** The provider's answer to a renewal; no expiry and no lifetime are 0. */
  datatype Answer = Rejected | Unreachable | Unusable
                  | Fresh(subject: string, exp: int, refresh: string, refreshFor: nat)

  function Until(now: int, lifetime: int, otherwise: int): int { if lifetime != 0 then now + lifetime else otherwise }

  function Or(exp: int, otherwise: int): int { if exp != 0 then exp else otherwise }

  function Created(c: Config, now: int, subject: string, exp: int, refresh: string, refreshFor: nat): Session {
    Session(subject, refresh, Until(now, refreshFor, 0), Min(now + c.ceiling, Or(exp, now + c.ceiling)),
            now + c.ceiling, now)
  }

  predicate CannotRenew(s: Session, now: int) { s.refresh == "" || s.refreshExpires < now || s.hard < now }

  predicate IsIdle(c: Config, s: Session, now: int) { c.sliding && now - s.lastActive > c.idle }

  function Touched(c: Config, s: Session, now: int, touch: bool): Session {
    if c.sliding && touch then s.(lastActive := now) else s
  }

  /** The lookup up to the provider call. */
  function Look(c: Config, s: Session, now: int, touch: bool): Found {
    if IsIdle(c, s, now) then Ended(Idle)
    else if now < s.expires - c.lead then Served(Touched(c, s, now, touch))
    else if CannotRenew(s, now) then
      if s.expires >= now then Served(Touched(c, s, now, touch))
      else Ended(if s.hard < now then Ceiling else NoRefresh)
    else Renewing(Ticket(now, s.subject, s.refresh, s.refreshExpires))
  }

  /** What the sweep drops, and why. */
  function SweepReason(c: Config, s: Session, now: int): Option<Reason> {
    if IsIdle(c, s, now) then Some(Idle)
    else if s.hard < now then Some(Ceiling)
    else if s.expires < now && (s.refresh == "" || s.refreshExpires < now) then Some(NoRefresh)
    else None
  }

  /** The session after the provider answered at `t`; `None` where the answer ends it. */
  function Renewed(c: Config, s: Session, k: Ticket, answer: Answer, t: int): Option<Session> {
    match answer
    case Rejected => None
    case Unusable => None
    case Unreachable => Some(s.(expires := t + c.retry))
    case Fresh(subject, exp, refresh, refreshFor) =>
      if subject != k.subject then None
      else Some(s.(refresh := if refresh != "" then refresh else k.refresh,
                   refreshExpires := Until(k.started, refreshFor, k.refreshExpires),
                   expires := Min(Min(k.started + c.ceiling, Or(exp, k.started + c.ceiling)), s.hard)))
  }

  class SessionTable {
    const c: Config
    var sessions: map<string, Session>

    constructor (c: Config)
      ensures this.c == c && sessions == map[]
    {
      this.c, sessions := c, map[];
    }

    method EndSession(sid: string)
      modifies this
      ensures sessions == old(sessions) - {sid}
    {
      sessions := sessions - {sid};
    }

    /** Every session is looked at once; the dropped ones are named with their reasons. */
    method SweepSessions(now: int) returns (ended: map<string, Reason>)
      modifies this
      ensures sessions == map sid | sid in old(sessions) && SweepReason(c, old(sessions)[sid], now).None?
                            :: old(sessions)[sid]
      ensures ended == map sid | sid in old(sessions) && SweepReason(c, old(sessions)[sid], now).Some?
                         :: SweepReason(c, old(sessions)[sid], now).value
    {
      ended := map[];
      var left := sessions.Keys;
      while left != {}
        invariant left <= old(sessions).Keys
        invariant forall sid :: sid in sessions <==>
                    sid in old(sessions) && (sid in left || SweepReason(c, old(sessions)[sid], now).None?)
        invariant forall sid :: sid in sessions ==> sessions[sid] == old(sessions)[sid]
        invariant forall sid :: sid in ended <==>
                    sid in old(sessions) && sid !in left && SweepReason(c, old(sessions)[sid], now).Some?
        invariant forall sid :: sid in ended ==> ended[sid] == SweepReason(c, old(sessions)[sid], now).value
      {
        hide SweepReason;
        var sid :| sid in left;
        left := left - {sid};
        var reason := SweepReason(c, sessions[sid], now);
        if reason.Some? {
          sessions := sessions - {sid};
          ended := ended[sid := reason.value];
        }
      }
    }

    method CreateSession(sid: string, now: int, subject: string, exp: int, refresh: string, refreshFor: nat)
      modifies this
      ensures sid in sessions && sessions[sid] == Created(c, now, subject, exp, refresh, refreshFor)
      ensures forall other :: other != sid ==>
                (other in sessions <==> other in old(sessions) && SweepReason(c, old(sessions)[other], now).None?)
                && (other in sessions ==> sessions[other] == old(sessions)[other])
    {
      var ended := SweepSessions(now);
      sessions := sessions[sid := Created(c, now, subject, exp, refresh, refreshFor)];
    }

    /** The lookup up to where the provider is needed; an ended session is dropped, a
        touching lookup in sliding mode is remembered even if it goes on to renew. */
    method GetSession(sid: string, now: int, touch: bool) returns (found: Found)
      modifies this
      ensures sid !in old(sessions) ==> found == Nothing && sessions == old(sessions)
      ensures sid in old(sessions) ==>
                found == Look(c, old(sessions)[sid], now, touch)
                && sessions == if found.Ended? then old(sessions) - {sid}
                               else old(sessions)[sid := Touched(c, old(sessions)[sid], now, touch)]
    {
      if sid !in sessions { return Nothing; }
      var s := sessions[sid];
      if c.sliding {
        if now - s.lastActive > c.idle {
          EndSession(sid);
          return Ended(Idle);
        }
        if touch {
          sessions := sessions[sid := s.(lastActive := now)];
          s := s.(lastActive := now);
        }
      }
      assert sessions == old(sessions)[sid := s];
      if now < s.expires - c.lead { return Served(s); }
      if s.refresh == "" || s.refreshExpires < now || s.hard < now {
        if s.expires >= now { return Served(s); }
        found := Ended(if s.hard < now then Ceiling else NoRefresh);
        EndSession(sid);
        assert sessions == old(sessions) - {sid};
        return;
      }
      found := Renewing(Ticket(now, s.subject, s.refresh, s.refreshExpires));
    }

    /** The provider's answer arrives, perhaps for a session that is gone by now. */
    method Renew(sid: string, k: Ticket, answer: Answer, t: int) returns (result: Option<Session>)
      modifies this
      ensures sid !in old(sessions) ==> result.None? && sessions == old(sessions)
      ensures sid in old(sessions) ==>
                result == Renewed(c, old(sessions)[sid], k, answer, t)
                && sessions == if result.Some? then old(sessions)[sid := result.value] else old(sessions) - {sid}
    {
      if answer.Rejected? || answer.Unusable? || (answer.Fresh? && answer.subject != k.subject) {
        EndSession(sid);
        assert sid !in old(sessions) ==> sessions == old(sessions);
        return None;
      }
      if sid !in sessions { return None; }
      var s := sessions[sid];
      if answer.Unreachable? {
        s := s.(expires := t + c.retry);
      } else {
        s := s.(refresh := if answer.refresh != "" then answer.refresh else k.refresh,
                refreshExpires := if answer.refreshFor != 0 then k.started + answer.refreshFor else k.refreshExpires,
                expires := Min(Min(k.started + c.ceiling, Or(answer.exp, k.started + c.ceiling)), s.hard));
      }
      sessions := sessions[sid := s];
      result := Some(s);
    }
  }

  // --- one session's life ----------------------------------------------------

  datatype Event = LookedUp(now: int, touch: bool) | Answered(ticket: Ticket, t: int, answer: Answer)
                 | Swept(now: int) | Destroyed(now: int)

  function TimeOf(e: Event): int {
    match e
    case LookedUp(now, _) => now
    case Answered(_, t, _) => t
    case Swept(now) => now
    case Destroyed(now) => now
  }

  /** The session if it is still there, and every renewal begun so far. */
  datatype World = World(session: Option<Session>, tickets: set<Ticket>)

  function Step(c: Config, w: World, e: Event): World {
    if w.session.None? then w
    else
      var s := w.session.value;
      match e
      case LookedUp(now, touch) =>
        var found := Look(c, s, now, touch);
        if found.Ended? then World(None, w.tickets)
        else World(Some(Touched(c, s, now, touch)), w.tickets + if found.Renewing? then {found.ticket} else {})
      case Answered(k, t, answer) => World(Renewed(c, s, k, answer, t), w.tickets)
      case Swept(now) => if SweepReason(c, s, now).Some? then World(None, w.tickets) else w
      case Destroyed(_) => World(None, w.tickets)
  }

  function Run(c: Config, s: Session, es: seq<Event>): World {
    if es == [] then World(Some(s), {}) else Step(c, Run(c, s, es[..|es| - 1]), es[|es| - 1])
  }

  /** Answers belong to renewals that were begun, and come within `call` of their start. */
  ghost predicate Legal(c: Config, s: Session, es: seq<Event>, call: nat) {
    forall i :: 0 <= i < |es| && es[i].Answered? ==>
      es[i].ticket in Run(c, s, es[..i]).tickets && es[i].t <= es[i].ticket.started + call
  }

  /** Some renewal so far was put off because the provider was unreachable. */
  predicate PutOff(es: seq<Event>) { exists i :: 0 <= i < |es| && es[i].Answered? && es[i].answer.Unreachable? }

  ghost predicate Held(c: Config, s: Session, es: seq<Event>, call: nat) {
    var w := Run(c, s, es);
    && (w.session.Some? ==>
          w.session.value.subject == s.subject && w.session.value.hard == s.hard
          && w.session.value.expires <= s.hard + if PutOff(es) then call + c.retry else 0)
    && forall k :: k in w.tickets ==> k.started <= s.hard && k.subject == s.subject
  }

  lemma StepHeld(c: Config, s: Session, es: seq<Event>, e: Event, call: nat)
    requires Held(c, s, es, call)
    requires e.Answered? ==> e.ticket in Run(c, s, es).tickets && e.t <= e.ticket.started + call
    ensures Held(c, s, es + [e], call)
  {
    var more := es + [e];
    assert more[..|es|] == es && more[|es|] == e;
    assert PutOff(es) ==> PutOff(more) by {
      if i :| 0 <= i < |es| && es[i].Answered? && es[i].answer.Unreachable? { assert more[i] == es[i]; }
    }
    assert e.Answered? && e.answer.Unreachable? ==> PutOff(more);
    hide PutOff;
  }

  /** Subject and ceiling never change, and the renewal time stays within the ceiling, or
      within one call and one retry of it once a renewal was put off. */
  lemma {:induction false} RunHeld(c: Config, s: Session, es: seq<Event>, call: nat)
    requires s.expires <= s.hard && Legal(c, s, es, call)
    ensures Held(c, s, es, call)
  {
    if es != [] {
      var n := |es| - 1;
      assert forall i :: 0 <= i < n ==> es[..n][..i] == es[..i];
      RunHeld(c, s, es[..n], call);
      hide Held, Run;
      StepHeld(c, s, es[..n], es[n], call);
      assert es == es[..n] + [es[n]];
    }
  }

  /** No lookup serves a session, or begins to renew it, past its ceiling; after a put-off
      renewal, past its ceiling by more than the provider call and the retry time. */
  lemma ServedWithinBound(c: Config, s: Session, es: seq<Event>, call: nat, now: int, touch: bool)
    requires s.expires <= s.hard && Legal(c, s, es, call) && Run(c, s, es).session.Some?
    ensures Look(c, Run(c, s, es).session.value, now, touch).Served? ==>
              now <= s.hard + if PutOff(es) then call + c.retry else 0
    ensures Look(c, Run(c, s, es).session.value, now, touch).Renewing? ==> now <= s.hard
  {
    RunHeld(c, s, es, call);
    hide Run, Legal, PutOff;
  }

  /** The next event is the provider's answer and leaves the session in place. */
  ghost predicate AnswerServes(c: Config, s: Session, es: seq<Event>, e: Event, call: nat) {
    e.Answered? && Legal(c, s, es + [e], call) && Run(c, s, es).session.Some? && Run(c, s, es + [e]).session.Some?
  }

  lemma LegalPrefix(c: Config, s: Session, es: seq<Event>, e: Event, call: nat)
    requires Legal(c, s, es + [e], call)
    ensures Legal(c, s, es, call)
    ensures e.Answered? ==> e.ticket in Run(c, s, es).tickets && e.t <= e.ticket.started + call
  {
    var more := es + [e];
    hide Run;
    assert more[..|es|] == es && more[|es|] == e;
    assert forall i :: 0 <= i < |es| ==> more[..i] == es[..i] && more[i] == es[i];
  }

  /** An answer serves the session at most one call past its ceiling, put off or not. */
  lemma AnsweredWithinBound(c: Config, s: Session, es: seq<Event>, e: Event, call: nat)
    requires s.expires <= s.hard && AnswerServes(c, s, es, e, call)
    ensures e.t <= s.hard + call
  {
    LegalPrefix(c, s, es, e, call);
    RunHeld(c, s, es, call);
    hide Run, Legal, PutOff;
  }

  // --- what ends a session, and what an answer makes of it --------------------

  /** Idle time has run out since the last activity. */
  predicate OutOfIdle(c: Config, d: Session, now: int) { c.sliding && d.lastActive + c.idle < now }

  /** There is no refresh token, or its time is over. */
  predicate NoToken(d: Session, now: int) { d.refresh == "" || d.refreshExpires < now }

  /** After any run: a lookup ends a session that idled, or whose renewal time is over with
      no token to renew by or the ceiling passed; a sweep likewise, and at the ceiling in any
      case; an answer ends it unless the provider could not be reached or confirmed the
      subject; a sign-out always. Nothing else does. */
  lemma GoneExactly(c: Config, s: Session, es: seq<Event>, e: Event)
    requires Run(c, s, es).session.Some?
    ensures var d := Run(c, s, es).session.value;
            Run(c, s, es + [e]).session.None? <==>
              match e
              case LookedUp(now, _) =>
                OutOfIdle(c, d, now) || (d.expires < now && (NoToken(d, now) || d.hard < now))
              case Swept(now) =>
                OutOfIdle(c, d, now) || d.hard < now || (d.expires < now && NoToken(d, now))
              case Answered(k, _, answer) =>
                !(answer.Unreachable? || (answer.Fresh? && answer.subject == k.subject))
              case Destroyed(_) => true
  {
    assert (es + [e])[..|es|] == es;
    hide Run;
  }

  /** And a session that is gone stays gone, whatever answers still arrive. */
  lemma GoneStaysGone(c: Config, s: Session, es: seq<Event>, more: seq<Event>)
    requires Run(c, s, es).session.None?
    ensures Run(c, s, es + more).session.None?
  {
    RunOn(c, s, es, more);
  }

  /** What a lookup that does not end the session does: inside the renewal window, if there is
      something to renew by, it calls the provider with what the session holds; otherwise it
      serves. Either way it changes nothing but, if it touches in sliding mode, the last
      activity. */
  lemma LookupServesExactly(c: Config, s: Session, es: seq<Event>, now: int, touch: bool)
    requires Run(c, s, es).session.Some? && Run(c, s, es + [LookedUp(now, touch)]).session.Some?
    ensures var d := Run(c, s, es).session.value;
            var next, found := Run(c, s, es + [LookedUp(now, touch)]), Look(c, d, now, touch);
            && next.session == Some(d.(lastActive := if c.sliding && touch then now else d.lastActive))
            && (found.Renewing? <==> d.expires - c.lead <= now && now <= d.hard && !NoToken(d, now))
            && (found.Renewing? ==> found.ticket == Ticket(now, d.subject, d.refresh, d.refreshExpires)
                                    && next.tickets == Run(c, s, es).tickets + {found.ticket})
            && (!found.Renewing? ==> found == Served(next.session.value) && next.tickets == Run(c, s, es).tickets)
  {
    assert (es + [LookedUp(now, touch)])[..|es|] == es;
    hide Run;
  }

  /** The reason given for an end: idling before the ceiling before the missing token. */
  lemma ReasonExactly(c: Config, s: Session, now: int, touch: bool)
    ensures Look(c, s, now, touch).Ended? ==>
              Look(c, s, now, touch).reason
              == if OutOfIdle(c, s, now) then Idle else if s.hard < now then Ceiling else NoRefresh
    ensures SweepReason(c, s, now).Some? ==>
              SweepReason(c, s, now).value
              == if OutOfIdle(c, s, now) then Idle else if s.hard < now then Ceiling else NoRefresh
  {
  }

  /** `x` is the earliest of three times. */
  predicate Earliest(x: int, a: int, b: int, d: int) { x <= a && x <= b && x <= d && (x == a || x == b || x == d) }

  /** What a session holds after an answer that left it: subject, ceiling and last activity as
      they were; after a deferral all else too but the renewal time, one retry from then;
      after a renewal the new token where there is one and else the one that was sent, its
      lifetime from the lookup on where one is given, and a renewal time that is the earliest
      of the ceiling, the session length from the lookup on, and the token's own expiry. */
  lemma AnswerMakes(c: Config, s: Session, es: seq<Event>, k: Ticket, t: int, answer: Answer)
    requires Run(c, s, es).session.Some? && Run(c, s, es + [Answered(k, t, answer)]).session.Some?
    ensures var d, n := Run(c, s, es).session.value, Run(c, s, es + [Answered(k, t, answer)]).session.value;
            && n.subject == d.subject && n.hard == d.hard && n.lastActive == d.lastActive
            && (answer.Unreachable? ==>
                  n.refresh == d.refresh && n.refreshExpires == d.refreshExpires && n.expires == t + c.retry)
            && (answer.Fresh? ==>
                  && (answer.refresh != "" ==> n.refresh == answer.refresh)
                  && (answer.refresh == "" ==> n.refresh == k.refresh)
                  && (answer.refreshFor > 0 ==> n.refreshExpires == k.started + answer.refreshFor)
                  && (answer.refreshFor == 0 ==> n.refreshExpires == k.refreshExpires)
                  && var length := k.started + c.ceiling;
                     Earliest(n.expires, n.hard, length, if answer.exp == 0 then length else answer.exp))
  {
    assert (es + [Answered(k, t, answer)])[..|es|] == es;
    hide Run;
  }

  /** And at the sign-in: the ceiling is the session length from then on, the renewal time no
      later than it or the token's expiry, and without a lifetime there is nothing to renew by. */
  lemma SignInMakes(c: Config, now: int, subject: string, exp: int, refresh: string, refreshFor: nat)
    ensures var s := Created(c, now, subject, exp, refresh, refreshFor);
            && s.subject == subject && s.refresh == refresh && s.lastActive == now && s.hard == now + c.ceiling
            && Earliest(s.expires, s.hard, s.hard, if exp == 0 then s.hard else exp)
            && (refreshFor > 0 ==> s.refreshExpires == now + refreshFor)
            && (refreshFor == 0 && now > 0 ==> forall t :: t >= now ==> NoToken(s, t))
  {
  }

  // --- service past the ceiling ----------------------------------------------

  /** Lookups in time order from `t` on, and no later than `now`. */
  ghost predicate LooksFrom(es: seq<Event>, t: int, now: int) {
    t <= now
    && (forall i :: 0 <= i < |es| ==> es[i].LookedUp? && t <= es[i].now <= now)
    && forall i, j :: 0 <= i < j < |es| ==> es[i].now <= es[j].now
  }

  /** After those lookups, touching or not, the one at `now` serves the session. */
  ghost predicate ServedAfter(c: Config, s: Session, t: int, es: seq<Event>, now: int, touch: bool) {
    LooksFrom(es, t, now) && Run(c, s, es).session.Some?
    && Look(c, Run(c, s, es).session.value, now, touch).Served?
  }

  /** From `t` on, viewers can be served past the ceiling without another answer. */
  ghost predicate Overruns(c: Config, s: Session, t: int) {
    exists es, now, touch :: now > s.hard && ServedAfter(c, s, t, es, now, touch)
  }

  /** Lookups alone move nothing but the last activity, and none is answered when the
      session was idle already. */
  lemma {:induction false} LooksOnlyTouch(c: Config, s: Session, t: int, es: seq<Event>, now: int)
    requires LooksFrom(es, t, now) && Run(c, s, es).session.Some?
    ensures var d := Run(c, s, es).session.value; d == s.(lastActive := d.lastActive)
    ensures es == [] ==> Run(c, s, es).session.value == s
    ensures es != [] ==> !IsIdle(c, s, t)
  {
    if es != [] {
      var init, e := es[..|es| - 1], es[|es| - 1];
      LooksOnlyTouch(c, s, t, init, now);
      assert es[|init|].LookedUp?;
    }
  }

  /** A lookup at every tick from `t` on, each touching. */
  function Busily(t: int, n: nat): (es: seq<Event>) {
    seq(n, i requires 0 <= i < n => LookedUp(t + i, true))
  }

  /** That keeps a session in use up to its renewal time. */
  lemma {:induction false} BusilyKeeps(c: Config, s: Session, t: int, n: nat)
    requires n > 0 && !IsIdle(c, s, t) && (c.sliding ==> c.idle >= 1) && t + n - 1 <= s.expires
    ensures Run(c, s, Busily(t, n)).session == Some(Touched(c, s, t + n - 1, true))
  {
    var es := Busily(t, n);
    if n == 1 {
      assert es[..0] == [];
    } else {
      BusilyKeeps(c, s, t, n - 1);
      assert es[..n - 1] == Busily(t, n - 1);
    }
  }

  /** From `t` on a session can be served past its ceiling exactly when its renewal time is
      still ahead and past the ceiling and, in sliding mode, it is not idle yet at `t`. */
  lemma ServedPastCeilingExactly(c: Config, s: Session, t: int)
    requires c.sliding ==> c.idle >= 1
    ensures Overruns(c, s, t) <==> s.expires > s.hard && s.expires >= t && !IsIdle(c, s, t)
  {
    if es, now, touch :| now > s.hard && ServedAfter(c, s, t, es, now, touch) {
      LooksOnlyTouch(c, s, t, es, now);
      hide Run;
      if es == [] { assert !IsIdle(c, s, now); }
    }
    if s.expires > s.hard && s.expires >= t && !IsIdle(c, s, t) {
      var now := if t > s.hard then t else s.hard + 1;
      var es := Busily(t, now - t);
      if now > t { BusilyKeeps(c, s, t, now - t); }
      assert ServedAfter(c, s, t, es, now, false);
    }
  }

  lemma {:induction false} RunOn(c: Config, s: Session, es: seq<Event>, more: seq<Event>)
    ensures Run(c, s, es).session.None? ==> Run(c, s, es + more).session.None?
    ensures Run(c, s, es).session.Some? ==>
              Run(c, s, es + more).session == Run(c, Run(c, s, es).session.value, more).session
  {
    if more == [] {
      assert es + more == es;
    } else {
      var init := more[..|more| - 1];
      RunOn(c, s, es, init);
      assert (es + more)[..|es + more| - 1] == es + init;
    }
  }

  /** The same after a run: some lookups from `t` on are served past the ceiling. */
  ghost predicate OverrunsAfter(c: Config, s: Session, es: seq<Event>, t: int) {
    exists more, now, touch :: ServedPastAfter(c, s, es, t, more, now, touch)
  }

  ghost predicate ServedPastAfter(c: Config, s: Session, es: seq<Event>, t: int, more: seq<Event>, now: int,
                                  touch: bool) {
    now > s.hard && LooksFrom(more, t, now) && Run(c, s, es + more).session.Some?
    && Look(c, Run(c, s, es + more).session.value, now, touch).Served?
  }

  lemma OverrunsOn(c: Config, s: Session, es: seq<Event>, t: int)
    requires Run(c, s, es).session.Some? && Run(c, s, es).session.value.hard == s.hard
    ensures OverrunsAfter(c, s, es, t) <==> Overruns(c, Run(c, s, es).session.value, t)
  {
    hide Run, Look, LooksFrom;
    var d := Run(c, s, es).session.value;
    forall more, now, touch
      ensures now > d.hard && ServedAfter(c, d, t, more, now, touch) <==> ServedPastAfter(c, s, es, t, more, now, touch)
    {
      RunOn(c, s, es, more);
    }
  }

  /** After any run, a renewal put off at `t` leads to service past the ceiling exactly when
      the retry time ends past it and, in sliding mode, the last touch was not longer ago
      than the idle time. */
  lemma PutOffPassesCeilingExactly(c: Config, s: Session, es: seq<Event>, k: Ticket, t: int)
    requires (c.sliding ==> c.idle >= 1) && Run(c, s, es).session.Some?
    ensures OverrunsAfter(c, s, es + [Answered(k, t, Unreachable)], t)
            <==> t + c.retry > s.hard && (c.sliding ==> t <= LastTouch(s, es) + c.idle)
  {
    var run := es + [Answered(k, t, Unreachable)];
    assert run[..|es|] == es;
    HardStays(c, s, es);
    if c.sliding { ActiveIsLastTouch(c, s, es); }
    OverrunsOn(c, s, run, t);
    ServedPastCeilingExactly(c, Run(c, s, run).session.value, t);
    hide Overruns, OverrunsAfter;
  }

  lemma {:induction false} HardStays(c: Config, s: Session, es: seq<Event>)
    requires Run(c, s, es).session.Some?
    ensures Run(c, s, es).session.value.hard == s.hard
  {
    if es != [] { HardStays(c, s, es[..|es| - 1]); }
  }

  /** The bound is reached, in both modes: a renewal begun at the ceiling and put off serves
      the session until one call and one retry later, and no longer. */
  lemma BoundIsReached(c: Config, s: Session, call: nat)
    requires s.refresh != "" && s.refreshExpires >= s.hard && s.expires <= s.hard
    requires c.sliding ==> s.hard - s.lastActive <= c.idle && call + c.retry <= c.idle
    ensures var k := Ticket(s.hard, s.subject, s.refresh, s.refreshExpires);
            var es := [LookedUp(s.hard, true), Answered(k, s.hard + call, Unreachable)];
            var last := s.hard + call + c.retry;
            var late := Touched(c, s, s.hard, true).(expires := last);
            && Legal(c, s, es, call)
            && Run(c, s, es).session == Some(late)
            && (last > s.hard ==> Look(c, late, last, true).Served? && Look(c, late, last + 1, true).Ended?)
  {
    var k := Ticket(s.hard, s.subject, s.refresh, s.refreshExpires);
    var es := [LookedUp(s.hard, true), Answered(k, s.hard + call, Unreachable)];
    LateLooks(c, s, call);
    RunTwo(c, s, es[0], es[1]);
    assert Run(c, s, [es[0]]).tickets == {k} by { hide Run; }
    LegalTwo(c, s, es[0], es[1], call);
    hide Run, Look, Legal;
    assert es == [es[0], es[1]];
    assert Run(c, s, [es[0]]) == World(Some(Touched(c, s, s.hard, true)), {k});
  }

  lemma LegalTwo(c: Config, s: Session, a: Event, b: Event, call: nat)
    requires a.LookedUp? && b.Answered? && b.ticket in Run(c, s, [a]).tickets && b.t <= b.ticket.started + call
    ensures Legal(c, s, [a, b], call)
  {
    hide Run;
    assert [a, b][..1] == [a];
  }

  lemma LateLooks(c: Config, s: Session, call: nat)
    requires s.refresh != "" && s.refreshExpires >= s.hard && s.expires <= s.hard
    requires c.sliding ==> s.hard - s.lastActive <= c.idle && call + c.retry <= c.idle
    ensures Look(c, s, s.hard, true) == Renewing(Ticket(s.hard, s.subject, s.refresh, s.refreshExpires))
    ensures var last := s.hard + call + c.retry;
            var late := Touched(c, s, s.hard, true).(expires := last);
            last > s.hard ==> Look(c, late, last, true).Served? && Look(c, late, last + 1, true).Ended?
  {
  }

  lemma RunTwo(c: Config, s: Session, a: Event, b: Event)
    ensures Run(c, s, [a]) == Step(c, World(Some(s), {}), a)
    ensures Run(c, s, [a, b]) == Step(c, Run(c, s, [a]), b)
  {
    hide Step;
    assert [a][..0] == [] && [a, b][..1] == [a];
  }

  // --- idling ----------------------------------------------------------------

  /** The last activity: the last touching lookup, or the start. */
  function LastTouch(s: Session, es: seq<Event>): int {
    if es == [] then s.lastActive
    else
      var e := es[|es| - 1];
      if e.LookedUp? && e.touch then e.now else LastTouch(s, es[..|es| - 1])
  }

  /** The clock does not go back. */
  ghost predicate Ordered(s: Session, es: seq<Event>) {
    (forall i :: 0 <= i < |es| ==> s.lastActive <= TimeOf(es[i]))
    && forall i, j :: 0 <= i < j < |es| ==> TimeOf(es[i]) <= TimeOf(es[j])
  }

  lemma {:induction false} ActiveIsLastTouch(c: Config, s: Session, es: seq<Event>)
    requires c.sliding && Run(c, s, es).session.Some?
    ensures Run(c, s, es).session.value.lastActive == LastTouch(s, es)
  {
    if es != [] { ActiveIsLastTouch(c, s, es[..|es| - 1]); }
  }

  /** In sliding mode a lookup that finds the session is at most the idle time after the last
      touching one, and one later than that ends it. */
  lemma IdleIsExact(c: Config, s: Session, es: seq<Event>, now: int, touch: bool)
    requires c.sliding && Run(c, s, es).session.Some?
    ensures Look(c, Run(c, s, es).session.value, now, touch) == Ended(Idle) <==> now > LastTouch(s, es) + c.idle
  {
    ActiveIsLastTouch(c, s, es);
    hide Run;
  }

  lemma {:induction false} TouchesAreEarlier(s: Session, es: seq<Event>, now: int)
    requires s.lastActive <= now && forall i :: 0 <= i < |es| ==> TimeOf(es[i]) <= now
    ensures LastTouch(s, es) <= now
  {
    if es != [] { TouchesAreEarlier(s, es[..|es| - 1], now); }
  }

  /** Every renewal was begun within the idle time of the last activity, then or since. */
  lemma {:induction false} TicketsAreActive(c: Config, s: Session, es: seq<Event>)
    requires c.sliding && c.idle >= 0 && Ordered(s, es)
    ensures forall k :: k in Run(c, s, es).tickets ==> k.started <= LastTouch(s, es) + c.idle
  {
    if es != [] {
      var init, e := es[..|es| - 1], es[|es| - 1];
      TicketsAreActive(c, s, init);
      TouchesAreEarlier(s, init, TimeOf(e));
      if Run(c, s, init).session.Some? { ActiveIsLastTouch(c, s, init); }
    }
  }

  /** In sliding mode an answer serves the session at most the idle time and one call after
      the last activity. */
  lemma AnsweredWithinIdle(c: Config, s: Session, es: seq<Event>, e: Event, call: nat)
    requires c.sliding && c.idle >= 0 && Ordered(s, es) && AnswerServes(c, s, es, e, call)
    ensures e.t <= LastTouch(s, es) + c.idle + call
  {
    LegalPrefix(c, s, es, e, call);
    TicketsAreActive(c, s, es);
    hide Run, Legal;
  }

  // --- the sweep against the lookup ------------------------------------------

  function LookEnds(c: Config, s: Session, now: int): Option<Reason> {
    var found := Look(c, s, now, false);
    if found.Ended? then Some(found.reason) else None
  }

  /** When the session ends if the viewer does nothing more. */
  function SessionExpiresAt(c: Config, s: Session): int {
    if c.sliding then Min(s.lastActive + c.idle, s.hard) else s.hard
  }

  /** The moment after which no lookup of an untouched session serves it. */
  function LastServed(c: Config, s: Session): int {
    if c.sliding then Min(s.lastActive + c.idle, s.expires) else s.expires
  }

  /** The sweep drops exactly what a lookup would drop without the provider, for the same
      reason, at every moment, exactly for sessions that, left alone, would not be served
      past their ceiling; their promised end is then kept too. */
  lemma SweepIsLookupExactly(c: Config, s: Session)
    ensures (forall now :: SweepReason(c, s, now) == LookEnds(c, s, now)) <==> LastServed(c, s) <= s.hard
    ensures LastServed(c, s) <= s.hard ==>
              forall now :: now > SessionExpiresAt(c, s) ==> LookEnds(c, s, now).Some?
  {
    if LastServed(c, s) > s.hard {
      assert SweepReason(c, s, s.hard + 1) == Some(Ceiling) && LookEnds(c, s, s.hard + 1).None?;
    }
  }

  /** The promised end is when idling or the ceiling ends the session, to the tick. */
  lemma PromiseIsExact(c: Config, s: Session, now: int)
    ensures now > SessionExpiresAt(c, s) <==> SweepReason(c, s, now) in {Some(Idle), Some(Ceiling)}
  {
  }

  /** Before any put-off renewal every session of a run meets that condition. */
  lemma SweepIsLookup(c: Config, s: Session, es: seq<Event>, call: nat, now: int)
    requires s.expires <= s.hard && Legal(c, s, es, call) && !PutOff(es) && Run(c, s, es).session.Some?
    ensures SweepReason(c, Run(c, s, es).session.value, now) == LookEnds(c, Run(c, s, es).session.value, now)
  {
    RunHeld(c, s, es, call);
    SweepIsLookupExactly(c, Run(c, s, es).session.value);
  }

  // --- from the sign-in on ---------------------------------------------------

  lemma CreatedHolds(c: Config, now: int, subject: string, exp: int, refresh: string, refreshFor: nat)
    ensures var s := Created(c, now, subject, exp, refresh, refreshFor);
            s.expires <= s.hard && s.hard == now + c.ceiling && s.subject == subject
  {
  }

  /** Whatever happens after the sign-in at `start`, a session stays its subject's, and a
      lookup serves it past the ceiling counted from there only if a renewal was put off,
      and then by one call and one retry at most. */
  lemma SignInBoundsService(c: Config, start: int, subject: string, exp: int, refresh: string, refreshFor: nat,
                            es: seq<Event>, call: nat, now: int, touch: bool)
    requires var s := Created(c, start, subject, exp, refresh, refreshFor);
             Legal(c, s, es, call) && Run(c, s, es).session.Some?
    ensures var s := Run(c, Created(c, start, subject, exp, refresh, refreshFor), es).session.value;
            && s.subject == subject && s.hard == start + c.ceiling
            && (Look(c, s, now, touch).Served? ==>
                  now <= start + c.ceiling + if PutOff(es) then call + c.retry else 0)
            && (Look(c, s, now, touch).Renewing? ==> now <= start + c.ceiling)
  {
    CreatedHolds(c, start, subject, exp, refresh, refreshFor);
    var s := Created(c, start, subject, exp, refresh, refreshFor);
    RunHeld(c, s, es, call);
    ServedWithinBound(c, s, es, call, now, touch);
    hide Run, Legal, PutOff, Look, Created;
  }
}
