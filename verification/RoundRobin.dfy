/** Which open cases one tick fetches (egress/intake.py): a cap, and a cursor that walks the
    oldest-first list. */
module RoundRobin {

  /** The cases of one tick and the cursor it leaves. */
  function Start(cursor: nat, n: nat): (s: nat)
    ensures n > 0 ==> s < n
  {
    if n > 0 then cursor % n else 0
  }

  function Picks(n: nat, cap: nat): nat { if cap < n then cap else n }

  function Rotated<T>(open: seq<T>, start: nat): seq<T>
    requires start <= |open|
  {
    open[start..] + open[..start]
  }

  class CaseCursor {
    var cursor: nat

    constructor ()
      ensures cursor == 0
    {
      cursor := 0;
    }

    method Choose<T>(open: seq<T>, cap: nat) returns (chosen: seq<T>, waiting: nat)
      modifies this
      ensures chosen == Rotated(open, Start(old(cursor), |open|))[..Picks(|open|, cap)]
      ensures cursor == Start(old(cursor), |open|) + |chosen| && waiting + |chosen| == |open|
    {
      var start := if open != [] then cursor % |open| else 0;
      var rotated := open[start..] + open[..start];
      chosen := rotated[..if cap < |rotated| then cap else |rotated|];
      cursor := start + |chosen|;
      waiting := |open| - |chosen|;
    }
  }

  /** Steps forward from `s` to `i` around `n` places. */
  function Ahead(n: nat, s: nat, i: nat): (d: nat)
    requires s < n && i < n
    ensures d < n
  {
    if i >= s then i - s else i + n - s
  }

  /** The place `d` steps ahead of `s`. */
  function Place(n: nat, s: nat, d: nat): (i: nat)
    requires s < n && d < n
    ensures i < n && Ahead(n, s, i) == d
  {
    if s + d < n then s + d else s + d - n
  }

  /** A tick takes as many different cases as the cap and the list allow: those fewest steps
      ahead of the cursor. */
  lemma TickPicks<T>(open: seq<T>, cursor: nat, cap: nat)
    requires open != []
    ensures var n, s := |open|, Start(cursor, |open|);
            var chosen := Rotated(open, s)[..Picks(n, cap)];
            && |chosen| == Picks(n, cap)
            && (forall d :: 0 <= d < |chosen| ==> chosen[d] == open[Place(n, s, d)])
            && forall c, d :: 0 <= c < d < |chosen| ==> Place(n, s, c) != Place(n, s, d)
  {
  }

  /** Whether the case at `i` is among the picks of a tick that starts at `s`. */
  predicate PickedFrom(n: nat, cap: nat, s: nat, i: nat)
    requires s < n && i < n
  {
    Ahead(n, s, i) < Picks(n, cap)
  }

  /** The start of the tick `t` ticks later, over an unchanged list. */
  function StartAfter(n: nat, cap: nat, cursor: nat, t: nat): (s: nat)
    requires n > 0
    ensures s < n
  {
    if t == 0 then Start(cursor, n) else Start(StartAfter(n, cap, cursor, t - 1) + Picks(n, cap), n)
  }

  lemma Wraps(x: nat, n: nat)
    requires 0 < n && x < 2 * n
    ensures x % n == if x < n then x else x - n
  {
  }

  /** As long as the ticks have not gone round, each starts where the last one stopped. */
  lemma {:induction false} TicksAdvance(n: nat, cap: nat, cursor: nat, t: nat)
    requires n > 0 && t * Picks(n, cap) < n
    ensures StartAfter(n, cap, cursor, t) == Place(n, Start(cursor, n), t * Picks(n, cap))
  {
    var w := Picks(n, cap);
    if t > 0 {
      assert t * w == (t - 1) * w + w;
      TicksAdvance(n, cap, cursor, t - 1);
      Wraps(StartAfter(n, cap, cursor, t - 1) + w, n);
    }
  }

  lemma AheadAfter(n: nat, s: nat, gone: nat, i: nat)
    requires s < n && i < n && gone < n
    ensures Ahead(n, Place(n, s, gone), i)
            == if Ahead(n, s, i) >= gone then Ahead(n, s, i) - gone else Ahead(n, s, i) + n - gone
  {
  }

  ghost predicate Fetched(n: nat, cap: nat, cursor: nat, ticks: nat, i: nat)
    requires n > 0 && i < n
  {
    exists t :: 0 <= t < ticks && PickedFrom(n, cap, StartAfter(n, cap, cursor, t), i)
  }

  lemma {:induction false} TicksBelow(w: nat, a: nat, b: nat)
    requires a <= b
    ensures a * w <= b * w
  {
    if a < b { TicksBelow(w, a, b - 1); assert b * w == (b - 1) * w + w; }
  }

  lemma WhichTick(d: nat, w: nat, ticks: nat) returns (t: nat)
    requires 0 < w && d < ticks * w
    ensures t < ticks && t * w <= d < t * w + w
  {
    t := d / w;
    if t >= ticks { TicksBelow(w, ticks, t); }
  }

  lemma ReachedInTime(n: nat, cap: nat, cursor: nat, ticks: nat, i: nat)
    requires 0 < n && 0 < cap && i < n && ticks * Picks(n, cap) >= n
    ensures Fetched(n, cap, cursor, ticks, i)
  {
    var s, w := Start(cursor, n), Picks(n, cap);
    hide StartAfter;
    var t := WhichTick(Ahead(n, s, i), w, ticks);
    TicksAdvance(n, cap, cursor, t);
    AheadAfter(n, s, t * w, i);
    assert PickedFrom(n, cap, StartAfter(n, cap, cursor, t), i);
  }

  lemma MissedBefore(n: nat, cap: nat, cursor: nat, ticks: nat)
    requires 0 < n && ticks * Picks(n, cap) < n
    ensures !Fetched(n, cap, cursor, ticks, Place(n, Start(cursor, n), ticks * Picks(n, cap)))
  {
    var s, w := Start(cursor, n), Picks(n, cap);
    var i := Place(n, s, ticks * w);
    forall t | 0 <= t < ticks ensures !PickedFrom(n, cap, StartAfter(n, cap, cursor, t), i) {
      TicksBelow(w, t + 1, ticks);
      assert (t + 1) * w == t * w + w;
      TicksAdvance(n, cap, cursor, t);
      AheadAfter(n, s, t * w, i);
    }
  }

  /** From any cursor, a number of consecutive ticks over an unchanged list fetches every
      case exactly when that many caps add up to the list: nobody starves. */
  lemma NobodyStarves(n: nat, cap: nat, cursor: nat, ticks: nat)
    requires 0 < n && 0 < cap
    ensures (forall i :: 0 <= i < n ==> Fetched(n, cap, cursor, ticks, i)) <==> ticks * cap >= n
  {
    hide Fetched;
    var w := Picks(n, cap);
    assert ticks * w >= n <==> ticks * cap >= n by {
      if cap >= n && ticks > 0 {
        TicksBelow(cap, 1, ticks);
        TicksBelow(n, 1, ticks);
      }
    }
    if ticks * w >= n {
      forall i | 0 <= i < n ensures Fetched(n, cap, cursor, ticks, i) { ReachedInTime(n, cap, cursor, ticks, i); }
    } else {
      MissedBefore(n, cap, cursor, ticks);
    }
  }
}
