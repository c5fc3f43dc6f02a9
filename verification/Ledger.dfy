/** The delivered-events ledger: one row per (route, event id), written by an
    upsert that never downgrades a delivered row, and by the operator re-send's
    update of a row that already exists. */
module Ledger {
  import opened Options

  datatype Outcome = Held | Failed | Delivered

  datatype Key = Key(route: string, event: string)

  /** The four episode columns; `None` is NULL. */
  datatype Stamps = Stamps(episode: Option<string>, asset: Option<string>,
                           component: Option<string>, fault: Option<string>)

  /** The sink position a row was recorded from. */
  datatype Place = Place(topic: string, partition: nat, offset: nat)

  datatype Row = Row(outcome: Outcome, status: Option<int>, caseId: Option<string>, place: Place,
                     firstRecorded: int, recorded: int, stamps: Stamps)

  /** One statement executed against a row, at the database's own time. */
  datatype Entry =
    | Upsert(outcome: Outcome, status: Option<int>, caseId: Option<string>, place: Place,
             stamps: Stamps, now: int)
    | Resend(status: Option<int>, caseId: Option<string>, stamps: Stamps, now: int)

  function Coalesce(a: Option<string>, b: Option<string>): Option<string> {
    if a.Some? then a else b
  }

  function Merge(newer: Stamps, stored: Stamps): Stamps {
    Stamps(Coalesce(newer.episode, stored.episode), Coalesce(newer.asset, stored.asset),
           Coalesce(newer.component, stored.component), Coalesce(newer.fault, stored.fault))
  }

  /** INSERT, or ON CONFLICT DO UPDATE guarded against a downgrade; the re-send's
      UPDATE matches no row when there is none. */
  function Apply(row: Option<Row>, e: Entry): Option<Row> {
    match (e, row)
    case (Upsert(o, st, c, p, s, now), None) => Some(Row(o, st, c, p, now, now, s))
    case (Upsert(o, st, c, p, s, now), Some(r)) =>
      if r.outcome == Delivered && o != Delivered then row
      else Some(Row(o, st, c, p, r.firstRecorded, now, Merge(s, r.stamps)))
    case (Resend(_, _, _, _), None) => None
    case (Resend(st, c, s, now), Some(r)) =>
      Some(Row(Delivered, st, c, r.place, r.firstRecorded, now, Merge(s, r.stamps)))
  }

  /** What one statement can and cannot do to a row. */
  lemma ApplyLaws()
    ensures forall row: Option<Row>, e: Entry {:trigger Apply(row, e)} ::
              && (e.Upsert? || row.Some? ==> Apply(row, e).Some?)
              && (Apply(row, e).Some? ==> e.Upsert? || row.Some?)
              && (row.Some? && row.value.outcome == Delivered ==> Apply(row, e).value.outcome == Delivered)
              && (e.Upsert? && e.outcome == Delivered ==> Apply(row, e).value.outcome == Delivered)
  {
  }

  /** The row a history of statements leaves, starting from no row. */
  function Replay(es: seq<Entry>): Option<Row> {
    if es == [] then None else Apply(Replay(es[..|es| - 1]), es[|es| - 1])
  }

  predicate IsDelivered(rows: map<Key, Row>, k: Key) {
    k in rows && rows[k].outcome == Delivered
  }

  function RowOf(rows: map<Key, Row>, k: Key): Option<Row> {
    if k in rows then Some(rows[k]) else None
  }

  /** The ledger after one statement. */
  function Logged(ledger: map<Key, Row>, k: Key, e: Entry): map<Key, Row> {
    var row := Apply(RowOf(ledger, k), e);
    if row.Some? then ledger[k := row.value] else ledger
  }

  // --- what a history means, without running it ---------------------------

  /** Some earlier statement inserted the row. */
  ghost predicate Inserted(es: seq<Entry>, i: nat) {
    exists j: nat :: j < i && j < |es| && es[j].Upsert?
  }

  /** Statement `i` reports a delivery and finds (or creates) a row to put it in. */
  ghost predicate Delivers(es: seq<Entry>, i: nat) {
    i < |es| && (if es[i].Upsert? then es[i].outcome == Delivered else Inserted(es, i))
  }

  ghost predicate DeliveredBefore(es: seq<Entry>, i: nat) {
    exists j: nat :: j < i && Delivers(es, j)
  }

  /** Statement `i` changes the row: not a re-send with no row, not a downgrade. */
  ghost predicate Effective(es: seq<Entry>, i: nat) {
    && i < |es|
    && if es[i].Resend? then Inserted(es, i)
       else es[i].outcome == Delivered || !DeliveredBefore(es, i)
  }

  /** Column `c` of the row is the last non-null value an effective statement carried. */
  ghost predicate LastValue(es: seq<Entry>, c: Stamps -> Option<string>, v: Option<string>) {
    if v.None? then forall i: nat :: Effective(es, i) ==> c(es[i].stamps).None?
    else exists i: nat :: Effective(es, i) && c(es[i].stamps) == v
           && forall j: nat :: i < j && Effective(es, j) ==> c(es[j].stamps).None?
  }

  const EPISODE: Stamps -> Option<string> := (s: Stamps) => s.episode
  const ASSET: Stamps -> Option<string> := (s: Stamps) => s.asset
  const COMPONENT: Stamps -> Option<string> := (s: Stamps) => s.component
  const FAULT: Stamps -> Option<string> := (s: Stamps) => s.fault

  /** Appending a statement leaves the standing of every earlier one alone. */
  lemma Stable(es: seq<Entry>, e: Entry)
    ensures forall i: nat :: i <= |es| ==> (Inserted(es + [e], i) <==> Inserted(es, i))
    ensures forall i: nat :: i < |es| ==> (Delivers(es + [e], i) <==> Delivers(es, i))
    ensures forall i: nat :: i <= |es| ==> (DeliveredBefore(es + [e], i) <==> DeliveredBefore(es, i))
    ensures forall i: nat :: i < |es| ==> (Effective(es + [e], i) <==> Effective(es, i))
  {
    var fs := es + [e];
    assert forall j: nat :: j < |es| ==> fs[j] == es[j];
    forall i: nat | i <= |es| ensures Inserted(fs, i) <==> Inserted(es, i) {
      if Inserted(fs, i) { var j: nat :| j < i && j < |fs| && fs[j].Upsert?; assert es[j].Upsert?; }
      if Inserted(es, i) { var j: nat :| j < i && j < |es| && es[j].Upsert?; assert fs[j].Upsert?; }
    }
    assert forall i: nat :: i < |es| ==> (Delivers(fs, i) <==> Delivers(es, i));
    forall i: nat | i <= |es| ensures DeliveredBefore(fs, i) <==> DeliveredBefore(es, i) {
      if DeliveredBefore(fs, i) { var j: nat :| j < i && Delivers(fs, j); assert Delivers(es, j); }
      if DeliveredBefore(es, i) { var j: nat :| j < i && Delivers(es, j); assert Delivers(fs, j); }
    }
  }

  lemma LastValueStep(es: seq<Entry>, e: Entry, c: Stamps -> Option<string>, v: Option<string>)
    requires LastValue(es, c, v)
    ensures LastValue(es + [e], c,
                      if Effective(es + [e], |es|) then Coalesce(c(e.stamps), v) else v)
  {
    Stable(es, e);
    var fs := es + [e];
    assert fs[|es|] == e;
    if Effective(fs, |es|) && c(e.stamps).Some? {
      assert forall j: nat :: |es| < j ==> !Effective(fs, j);
    } else if v.Some? {
      var i: nat :| Effective(es, i) && c(es[i].stamps) == v
        && forall j: nat :: i < j && Effective(es, j) ==> c(es[j].stamps).None?;
      assert Effective(fs, i) && c(fs[i].stamps) == v;
      forall j: nat | i < j && Effective(fs, j) ensures c(fs[j].stamps).None? {
        if j < |es| { assert Effective(es, j); }
      }
    } else {
      forall i: nat | Effective(fs, i) ensures c(fs[i].stamps).None? {
        if i < |es| { assert Effective(es, i); }
      }
    }
  }

  /** The whole row, read off the history: it exists once something was inserted;
      it is delivered exactly when some statement delivered, whatever came after;
      its first-recorded time is the first insert's; its outcome, status, case id
      and recorded time are the last effective statement's; and each stamp column
      is the last non-null value an effective statement carried. */
  ghost predicate Means(es: seq<Entry>, row: Option<Row>) {
    && (row.Some? <==> Inserted(es, |es|))
    && (row.Some? ==>
          && (row.value.outcome == Delivered <==> DeliveredBefore(es, |es|))
          && (exists i: nat :: i < |es| && es[i].Upsert? && !Inserted(es, i)
                               && row.value.firstRecorded == es[i].now)
          && (exists i: nat :: LastEffective(es, i) && FromEntry(row.value, es[i]))
          && (exists i: nat :: LastUpsert(es, i) && row.value.place == es[i].place)
          && LastValue(es, EPISODE, row.value.stamps.episode)
          && LastValue(es, ASSET, row.value.stamps.asset)
          && LastValue(es, COMPONENT, row.value.stamps.component)
          && LastValue(es, FAULT, row.value.stamps.fault))
  }

  ghost predicate LastEffective(es: seq<Entry>, i: nat) {
    Effective(es, i) && forall j: nat :: i < j ==> !Effective(es, j)
  }

  ghost predicate LastUpsert(es: seq<Entry>, i: nat) {
    Effective(es, i) && es[i].Upsert? && forall j: nat :: i < j && Effective(es, j) ==> es[j].Resend?
  }

  ghost predicate FromEntry(row: Row, e: Entry) {
    && row.recorded == e.now && row.status == e.status && row.caseId == e.caseId
    && row.outcome == (if e.Upsert? then e.outcome else Delivered)
  }

  lemma NothingYet(es: seq<Entry>, e: Entry, i: nat)
    requires !Inserted(es, |es|) && i <= |es|
    ensures !Inserted(es + [e], i) && !DeliveredBefore(es + [e], i)
    ensures i < |es| ==> !Effective(es + [e], i)
  {
    Stable(es, e);
    assert forall j: nat :: j < |es| ==> !es[j].Upsert?;
    assert !Inserted(es, i);
    forall j: nat | j < i ensures !Delivers(es, j) {
      assert !es[j].Upsert?;
      assert !Inserted(es, j);
    }
  }

  lemma {:induction false} RowMeaning(es: seq<Entry>)
    ensures Means(es, Replay(es))
  {
    if es == [] { return; }
    var ps, e := es[..|es| - 1], es[|es| - 1];
    assert es == ps + [e];
    RowMeaning(ps);
    Stable(ps, e);
    var row, row' := Replay(ps), Replay(es);
    if row.None? {
      assert !Inserted(ps, |ps|);
      forall i: nat | i <= |ps|
        ensures !Inserted(es, i) && !DeliveredBefore(es, i) && (i < |ps| ==> !Effective(es, i))
      { NothingYet(ps, e, i); }
      if e.Upsert? {
        assert es[|ps|].Upsert? && Effective(es, |ps|);
        assert LastEffective(es, |ps|) && FromEntry(row'.value, es[|ps|]);
        assert LastUpsert(es, |ps|);
        assert row'.value.outcome == Delivered ==> Delivers(es, |ps|);
      } else {
        assert forall j: nat :: j < |es| ==> !es[j].Upsert?;
      }
    } else {
      MeansStep(ps, e, row.value);
    }
  }

  lemma MeansStep(ps: seq<Entry>, e: Entry, r: Row)
    requires Means(ps, Some(r))
    ensures Means(ps + [e], Apply(Some(r), e))
  {
    var es := ps + [e];
    InsertedStep(ps, e, r);
    EffectiveStep(ps, e, r);
    LastStep(ps, e, r);
    PlaceStep(ps, e, r);
    DeliveredStep(ps, e);
    LastValueStep(ps, e, EPISODE, r.stamps.episode);
    LastValueStep(ps, e, ASSET, r.stamps.asset);
    LastValueStep(ps, e, COMPONENT, r.stamps.component);
    LastValueStep(ps, e, FAULT, r.stamps.fault);
    hide LastValue, LastEffective, LastUpsert, Effective, FromEntry, Inserted, Delivers, DeliveredBefore;
  }

  lemma InsertedStep(ps: seq<Entry>, e: Entry, r: Row)
    requires Means(ps, Some(r))
    ensures Inserted(ps + [e], |ps|) && Inserted(ps + [e], |ps| + 1)
    ensures exists i: nat :: i < |ps| + 1 && (ps + [e])[i].Upsert? && !Inserted(ps + [e], i)
                             && Apply(Some(r), e).value.firstRecorded == (ps + [e])[i].now
  {
    var es := ps + [e];
    Stable(ps, e);
    hide LastValue, LastEffective, FromEntry, Delivers, DeliveredBefore, LastUpsert;
    var j: nat :| j < |ps| && ps[j].Upsert?;
    assert es[j].Upsert?;
    var i: nat :| i < |ps| && ps[i].Upsert? && !Inserted(ps, i) && r.firstRecorded == ps[i].now;
    assert es[i].Upsert? && !Inserted(es, i);
  }

  /** The statement changes the row exactly if it is effective, and delivers it as it says. */
  lemma EffectiveStep(ps: seq<Entry>, e: Entry, r: Row)
    requires Means(ps, Some(r))
    ensures var es := ps + [e];
            && (Effective(es, |ps|) <==> !(r.outcome == Delivered && e.Upsert? && e.outcome != Delivered))
            && (Delivers(es, |ps|) <==> e.Resend? || e.outcome == Delivered)
  {
    Stable(ps, e);
    assert (ps + [e])[|ps|] == e;
    InsertedStep(ps, e, r);
    hide LastValue, LastEffective, FromEntry, LastUpsert, Inserted;
  }

  lemma LastStep(ps: seq<Entry>, e: Entry, r: Row)
    requires Means(ps, Some(r))
    ensures exists i: nat :: LastEffective(ps + [e], i) && FromEntry(Apply(Some(r), e).value, (ps + [e])[i])
  {
    var es := ps + [e];
    Stable(ps, e);
    EffectiveStep(ps, e, r);
    assert es[|ps|] == e;
    hide LastValue, LastUpsert, Delivers, DeliveredBefore, Inserted;
    var l: nat :| LastEffective(ps, l) && FromEntry(r, ps[l]);
    assert es[l] == ps[l];
    if Effective(es, |ps|) {
      assert LastEffective(es, |ps|);
    } else {
      assert LastEffective(es, l);
    }
  }

  lemma PlaceStep(ps: seq<Entry>, e: Entry, r: Row)
    requires Means(ps, Some(r))
    ensures exists i: nat :: LastUpsert(ps + [e], i) && Apply(Some(r), e).value.place == (ps + [e])[i].place
  {
    var es := ps + [e];
    Stable(ps, e);
    assert es[|ps|] == e;
    hide LastValue, LastEffective, FromEntry, Delivers;
    var i: nat :| LastUpsert(ps, i) && r.place == ps[i].place;
    if e.Upsert? && Effective(es, |ps|) {
      assert LastUpsert(es, |ps|);
    } else {
      assert es[i] == ps[i] && Effective(es, i);
      forall j: nat | i < j && Effective(es, j) ensures es[j].Resend? {
        if j < |ps| { assert Effective(ps, j) && es[j] == ps[j]; }
      }
      assert LastUpsert(es, i);
    }
  }

  lemma DeliveredStep(ps: seq<Entry>, e: Entry)
    ensures DeliveredBefore(ps + [e], |ps| + 1) <==> DeliveredBefore(ps, |ps|) || Delivers(ps + [e], |ps|)
  {
    Stable(ps, e);
    var es := ps + [e];
    hide Delivers;
    if DeliveredBefore(es, |es|) {
      var d: nat :| d < |es| && Delivers(es, d);
      if d < |ps| { assert Delivers(ps, d); }
    }
    if DeliveredBefore(ps, |ps|) {
      var d: nat :| d < |ps| && Delivers(ps, d);
      assert Delivers(es, d);
    }
  }

  /** What later statements can never undo: a delivered row stays delivered, a
      non-null stamp stays non-null, and the first-recorded time is fixed. */
  lemma {:induction false} NeverUndone(es: seq<Entry>, more: seq<Entry>)
    requires Replay(es).Some?
    ensures Replay(es + more).Some?
    ensures var a, b := Replay(es).value, Replay(es + more).value;
            && a.firstRecorded == b.firstRecorded
            && (a.outcome == Delivered ==> b.outcome == Delivered)
            && (a.stamps.episode.Some? ==> b.stamps.episode.Some?)
            && (a.stamps.asset.Some? ==> b.stamps.asset.Some?)
            && (a.stamps.component.Some? ==> b.stamps.component.Some?)
            && (a.stamps.fault.Some? ==> b.stamps.fault.Some?)
  {
    if more == [] {
      assert es + more == es;
    } else {
      var init := more[..|more| - 1];
      NeverUndone(es, init);
      assert (es + more)[..|es + more| - 1] == es + init;
    }
  }

  type History = map<Key, seq<Entry>>

  function Of(history: History, k: Key): seq<Entry> { if k in history then history[k] else [] }

  function Extended(history: History, k: Key, e: Entry): History { history[k := Of(history, k) + [e]] }

  /** Every row is what its own history of statements leaves. */
  ghost predicate IsHistory(rows: map<Key, Row>, history: History) {
    forall k: Key :: RowOf(rows, k) == Replay(Of(history, k))
  }

  lemma LoggedIsHistory(rows: map<Key, Row>, history: History, k: Key, e: Entry)
    requires IsHistory(rows, history) && (e.Upsert? || k in rows)
    ensures IsHistory(Logged(rows, k, e), Extended(history, k, e))
  {
    var es := Of(history, k);
    assert (es + [e])[..|es|] == es;
    ApplyLaws();
    assert Replay(es + [e]) == Apply(Replay(es), e);
    hide Apply, Replay;
    assert RowOf(rows, k) == Replay(es);
    forall j: Key ensures RowOf(Logged(rows, k, e), j) == Replay(Of(Extended(history, k, e), j)) {
      assert RowOf(rows, j) == Replay(Of(history, j));
    }
  }

  /** The table itself, as the store's two writers change it: by the one statement that a
      forwarder's journal names. */
  class DeliveredStore {
    var rows: map<Key, Row>
    ghost var history: History

    ghost predicate Valid()
      reads this
    {
      IsHistory(rows, history)
    }

    constructor ()
      ensures Valid() && rows == map[] && history == map[]
    {
      rows := map[];
      history := map[];
    }

    method Write(k: Key, o: Outcome, status: Option<int>, caseId: Option<string>, place: Place,
                 stamps: Stamps, now: int)
      requires Valid()
      modifies this
      ensures Valid()
      ensures history == Extended(old(history), k, Upsert(o, status, caseId, place, stamps, now))
      ensures rows == Logged(old(rows), k, Upsert(o, status, caseId, place, stamps, now))
      ensures k in rows
      ensures rows[k].outcome == (if old(IsDelivered(rows, k)) then Delivered else o)
    {
      ghost var e := Upsert(o, status, caseId, place, stamps, now);
      LoggedIsHistory(rows, history, k, e);
      history := Extended(history, k, e);
      hide IsHistory, Extended;
      if k !in rows {
        rows := rows[k := Row(o, status, caseId, place, now, now, stamps)];
      } else if rows[k].outcome != Delivered || o == Delivered {
        var r := rows[k];
        rows := rows[k := Row(o, status, caseId, place, r.firstRecorded, now, Merge(stamps, r.stamps))];
      }
    }

    method RecordResend(k: Key, status: int, caseId: Option<string>, stamps: Stamps, now: int)
      returns (matched: bool)
      requires Valid()
      modifies this
      ensures Valid()
      ensures matched <==> k in old(rows)
      ensures !matched ==> rows == old(rows) && history == old(history)
      ensures matched ==> history == Extended(old(history), k, Resend(Some(status), caseId, stamps, now))
      ensures rows == Logged(old(rows), k, Resend(Some(status), caseId, stamps, now))
    {
      matched := k in rows;
      if matched {
        ghost var e := Resend(Some(status), caseId, stamps, now);
        LoggedIsHistory(rows, history, k, e);
        history := Extended(history, k, e);
        hide IsHistory, Extended;
        var r := rows[k];
        rows := rows[k := Row(Delivered, Some(status), caseId, r.place, r.firstRecorded, now,
                              Merge(stamps, r.stamps))];
      }
    }
  }
}
