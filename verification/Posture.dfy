/** One assembler route's memory (egress/assembler.py): what it last produced for each
    episode, which assets are marching, and which arrivals it has already re-sent. */
module Posture {
  import opened Gate
  import opened Identity
  import opened Assembler

  // --- producing on a CM state -----------------------------------------------

  /** An episode's key and its sources' ids; order does not matter, repetition does. */
  datatype Item = Item(key: string, ids: multiset<string>)

  type Produced = map<string, multiset<string>>

  predicate Known(last: Produced, x: Item) { x.key in last && last[x.key] == x.ids }

  /** What one pass over a message's episodes produces, and what is remembered after it. */
  function SendsOf(items: seq<Item>, last: Produced): seq<Item> {
    if items == [] then []
    else if Known(last, items[0]) then SendsOf(items[1..], last)
    else [items[0]] + SendsOf(items[1..], last[items[0].key := items[0].ids])
  }

  function Remember(sent: seq<Item>, last: Produced): Produced {
    if sent == [] then last else Remember(sent[1..], last[sent[0].key := sent[0].ids])
  }

  /** Episodes of one message that share a key also share their sources. */
  ghost predicate KeysAgree(items: seq<Item>) {
    forall i, j :: 0 <= i < j < |items| && items[i].key == items[j].key ==> items[i].ids == items[j].ids
  }

  lemma {:induction false} SendsConcat(a: seq<Item>, b: seq<Item>, last: Produced)
    ensures SendsOf(a + b, last) == SendsOf(a, last) + SendsOf(b, Remember(SendsOf(a, last), last))
  {
    if a == [] {
      assert a + b == b;
    } else {
      assert (a + b)[1..] == a[1..] + b;
      SendsConcat(a[1..], b, if Known(last, a[0]) then last else last[a[0].key := a[0].ids]);
      if !Known(last, a[0]) {
        var more := SendsOf(a[1..], last[a[0].key := a[0].ids]);
        assert ([a[0]] + more)[1..] == more;
      }
    }
  }

  lemma {:induction false} AfterPass(items: seq<Item>, last: Produced, k: string)
    ensures var end := Remember(SendsOf(items, last), last);
            (k in end <==> k in last || exists i :: 0 <= i < |items| && items[i].key == k)
            && forall i :: (0 <= i < |items| && items[i].key == k
                            && forall j :: i < j < |items| ==> items[j].key != k) ==> end[k] == items[i].ids
    ensures (forall i :: 0 <= i < |items| ==> items[i].key != k)
            ==> (k in last ==> Remember(SendsOf(items, last), last)[k] == last[k])
  {
    if items != [] {
      var x, rest := items[0], items[1..];
      var next := if Known(last, x) then last else last[x.key := x.ids];
      AfterPass(rest, next, k);
      var sends, more := SendsOf(items, last), SendsOf(rest, next);
      assert !Known(last, x) ==> sends[1..] == more;
      assert Remember(sends, last) == Remember(more, next);
      hide SendsOf, Remember;
      assert forall i :: 0 < i < |items| ==> items[i] == rest[i - 1];
      assert forall i :: 0 <= i < |rest| ==> rest[i] == items[i + 1];
      if i :| 0 <= i < |items| && items[i].key == k && i > 0 {
        assert rest[i - 1].key == k;
      }
    }
  }

  lemma {:induction false} AllKnownSilent(items: seq<Item>, last: Produced)
    ensures SendsOf(items, last) == [] <==> forall i :: 0 <= i < |items| ==> Known(last, items[i])
  {
    if items != [] {
      AllKnownSilent(items[1..], last);
      hide SendsOf;
      assert forall i :: 0 < i < |items| ==> items[i] == items[1..][i - 1];
      assert forall i :: 0 <= i < |items[1..]| ==> items[1..][i] == items[i + 1];
    }
  }

  /** A message delivered again after it was fully handled produces nothing, exactly when
      its episodes with one key have one set of sources. */
  lemma RepeatIsSilentExactly(items: seq<Item>, last: Produced)
    ensures SendsOf(items, Remember(SendsOf(items, last), last)) == [] <==> KeysAgree(items)
  {
    hide SendsOf, Remember;
    var end := Remember(SendsOf(items, last), last);
    AllKnownSilent(items, end);
    forall i | 0 <= i < |items|
      ensures Known(end, items[i]) <==> items[i].ids == items[LastWith(items, items[i].key)].ids
    {
      AfterPass(items, last, items[i].key);
    }
    if KeysAgree(items) {
      forall i | 0 <= i < |items| ensures Known(end, items[i]) {
        var j := LastWith(items, items[i].key);
        assert i <= j;
      }
    }
  }

  /** The last position of a key that is there. */
  function LastWith(items: seq<Item>, k: string): (n: nat)
    requires exists i :: 0 <= i < |items| && items[i].key == k
    ensures n < |items| && items[n].key == k && forall j :: n < j < |items| ==> items[j].key != k
  {
    if items[|items| - 1].key == k then |items| - 1 else LastWith(items[..|items| - 1], k)
  }

  /** If producing fails after the first `n` sends, handling the message again sends exactly
      the rest. */
  lemma {:induction false} RetryProducesRest(items: seq<Item>, last: Produced, n: nat)
    requires KeysAgree(items) && n <= |SendsOf(items, last)|
    ensures SendsOf(items, Remember(SendsOf(items, last)[..n], last)) == SendsOf(items, last)[n..]
  {
    var sends := SendsOf(items, last);
    if items == [] {
    } else if Known(last, items[0]) {
      RetryProducesRest(items[1..], last, n);
      StillKnown(items, last, n);
    } else if n == 0 {
      assert sends[..0] == [];
    } else {
      var x := items[0];
      var next := last[x.key := x.ids];
      assert sends[1..] == SendsOf(items[1..], next);
      assert sends[..n][1..] == sends[1..][..n - 1];
      RetryProducesRest(items[1..], next, n - 1);
      var end := Remember(sends[..n], last);
      assert end == Remember(sends[1..][..n - 1], next);
      assert SendsOf(items, next) == SendsOf(items[1..], next);
      StillKnown(items, next, n - 1);
      assert sends[n..] == sends[1..][n - 1..];
    }
  }

  /** Producing the first sends of a message does not unlearn its first episode. */
  lemma StillKnown(items: seq<Item>, last: Produced, n: nat)
    requires KeysAgree(items) && items != [] && Known(last, items[0]) && n <= |SendsOf(items, last)|
    ensures Known(Remember(SendsOf(items, last)[..n], last), items[0])
  {
    SentComeFrom(items, last);
    forall y | y in SendsOf(items, last)[..n] && y.key == items[0].key ensures y.ids == items[0].ids {
      assert y in SendsOf(items, last) && y in items;
      var j :| 0 <= j < |items| && items[j] == y;
    }
    KeepsKnown(SendsOf(items, last)[..n], last, items[0]);
  }

  lemma {:induction false} SentComeFrom(items: seq<Item>, last: Produced)
    ensures forall x :: x in SendsOf(items, last) ==> x in items
  {
    if items != [] {
      SentComeFrom(items[1..], last);
      SentComeFrom(items[1..], last[items[0].key := items[0].ids]);
    }
  }

  lemma {:induction false} KeepsKnown(sent: seq<Item>, last: Produced, x: Item)
    requires Known(last, x) && forall y :: y in sent && y.key == x.key ==> y.ids == x.ids
    ensures Known(Remember(sent, last), x)
  {
    if sent != [] { KeepsKnown(sent[1..], last[sent[0].key := sent[0].ids], x); }
  }

  // --- re-sending on an arrival ----------------------------------------------

  /** The keys still to send for one arrival, each once, in order. */
  function Due(keys: seq<string>, id: string, done: set<(string, string)>): seq<string> {
    if keys == [] then []
    else if (keys[0], id) in done then Due(keys[1..], id, done)
    else [keys[0]] + Due(keys[1..], id, done + {(keys[0], id)})
  }

  function Pairs(keys: seq<string>, id: string): set<(string, string)> { set k | k in keys :: (k, id) }

  /** Exactly the keys not sent yet for this arrival, none of them twice. */
  lemma {:induction false} DueIsOnce(keys: seq<string>, id: string, done: set<(string, string)>)
    ensures forall k :: k in Due(keys, id, done) <==> k in keys && (k, id) !in done
    ensures forall i, j :: 0 <= i < j < |Due(keys, id, done)| ==> Due(keys, id, done)[i] != Due(keys, id, done)[j]
  {
    if keys != [] {
      assert keys == [keys[0]] + keys[1..];
      if (keys[0], id) in done {
        DueIsOnce(keys[1..], id, done);
      } else {
        var more := Due(keys[1..], id, done + {(keys[0], id)});
        DueIsOnce(keys[1..], id, done + {(keys[0], id)});
        assert keys[0] !in more;
        forall i, j | 0 <= i < j < |[keys[0]] + more| ensures ([keys[0]] + more)[i] != ([keys[0]] + more)[j] {
          assert more[j - 1] in more;
        }
      }
    }
  }

  lemma NothingDue(id: string, done: set<(string, string)>)
    ensures Due([], id, done) == []
  {
  }

  lemma DueStep(keys: seq<string>, id: string, done: set<(string, string)>)
    requires keys != []
    ensures (keys[0], id) in done ==> Due(keys, id, done) == Due(keys[1..], id, done)
    ensures (keys[0], id) !in done ==> Due(keys, id, done) == [keys[0]] + Due(keys[1..], id, done + {(keys[0], id)})
  {
  }

  /** If producing fails after the first `n` sends, the same arrival handled again sends
      exactly the rest. */
  lemma {:induction false} RetrySendsRest(keys: seq<string>, id: string, done: set<(string, string)>, n: nat)
    requires n <= |Due(keys, id, done)|
    ensures Due(keys, id, done + Pairs(Due(keys, id, done)[..n], id)) == Due(keys, id, done)[n..]
  {
    NothingDue(id, done);
    hide Due;
    var due := Due(keys, id, done);
    if n == 0 {
      assert done + Pairs(due[..0], id) == done;
    } else {
      DueStep(keys, id, done);
      var then_ := done + Pairs(due[..n], id);
      DueStep(keys, id, then_);
      if (keys[0], id) in done {
        RetrySendsRest(keys[1..], id, done, n);
      } else {
        var more := Due(keys[1..], id, done + {(keys[0], id)});
        RetrySendsRest(keys[1..], id, done + {(keys[0], id)}, n - 1);
        assert due[..n] == [keys[0]] + more[..n - 1];
        assert then_ == done + {(keys[0], id)} + Pairs(more[..n - 1], id);
        assert due[n..] == more[n - 1..];
      }
    }
  }

  // --- march and move as history ---------------------------------------------

  datatype To = MarchOrdered | Moving | Emplaced | Elsewhere

  datatype Transition = Transition(id: string, asset: string, to: To, at: int)

  /** The asset's last march order or emplacement. */
  ghost function LastTurn(h: seq<Transition>, asset: string): (i: int)
    ensures -1 <= i < |h|
    ensures i >= 0 ==> h[i].asset == asset && (h[i].to.MarchOrdered? || h[i].to.Emplaced?)
    ensures forall j :: i < j < |h| ==> !(h[j].asset == asset && (h[j].to.MarchOrdered? || h[j].to.Emplaced?))
  {
    if h == [] then -1
    else
      var t := h[|h| - 1];
      if t.asset == asset && (t.to.MarchOrdered? || t.to.Emplaced?) then |h| - 1 else LastTurn(h[..|h| - 1], asset)
  }

  ghost predicate Marching(h: seq<Transition>, asset: string) {
    LastTurn(h, asset) >= 0 && h[LastTurn(h, asset)].to.MarchOrdered?
  }

  ghost predicate MovedSince(h: seq<Transition>, asset: string) {
    Marching(h, asset) && exists j :: LastTurn(h, asset) < j < |h| && h[j].asset == asset && h[j].to.Moving?
  }

  /** The two maps hold what the handled transitions say, and nothing else. */
  ghost predicate Remembers(h: seq<Transition>, march: map<string, int>, moved: set<string>) {
    (forall a :: a in march <==> Marching(h, a))
    && (forall a :: a in march ==> march[a] == h[LastTurn(h, a)].at)
    && forall a :: a in moved <==> MovedSince(h, a)
  }

  lemma TurnStep(h: seq<Transition>, t: Transition, a: string)
    ensures LastTurn(h + [t], a)
            == if t.asset == a && (t.to.MarchOrdered? || t.to.Emplaced?) then |h| else LastTurn(h, a)
    ensures Marching(h + [t], a) <==>
              if t.asset == a && (t.to.MarchOrdered? || t.to.Emplaced?) then t.to.MarchOrdered? else Marching(h, a)
    ensures MovedSince(h + [t], a) <==>
              if t.asset == a && (t.to.MarchOrdered? || t.to.Emplaced?) then false
              else MovedSince(h, a) || (t.asset == a && t.to.Moving? && Marching(h, a))
  {
    var g := h + [t];
    assert g[..|g| - 1] == h;
    assert LastTurn(g, a) == if t.asset == a && (t.to.MarchOrdered? || t.to.Emplaced?) then |h| else LastTurn(h, a);
    hide LastTurn;
    assert forall j :: 0 <= j < |h| ==> g[j] == h[j];
    if MovedSince(h, a) && LastTurn(g, a) == LastTurn(h, a) {
      var j :| LastTurn(h, a) < j < |h| && h[j].asset == a && h[j].to.Moving?;
      assert g[j].asset == a;
    }
    assert g[|h|] == t;
  }

  function NextMarch(march: map<string, int>, t: Transition): map<string, int> {
    match t.to
    case MarchOrdered => march[t.asset := t.at]
    case Emplaced => march - {t.asset}
    case _ => march
  }

  function NextMoved(march: map<string, int>, moved: set<string>, t: Transition): set<string> {
    match t.to
    case MarchOrdered => moved - {t.asset}
    case Emplaced => moved - {t.asset}
    case Moving => if t.asset in march then moved + {t.asset} else moved
    case Elsewhere => moved
  }

  /** Handling one more transition keeps the two maps in step with the history. */
  lemma RememberTransition(h: seq<Transition>, march: map<string, int>, moved: set<string>, t: Transition)
    requires Remembers(h, march, moved)
    ensures Remembers(h + [t], NextMarch(march, t), NextMoved(march, moved, t))
  {
    hide LastTurn, Marching, MovedSince;
    var next, gone := NextMarch(march, t), NextMoved(march, moved, t);
    assert (h + [t])[|h|] == t;
    forall a
      ensures a in next <==> Marching(h + [t], a)
      ensures a in next ==> 0 <= LastTurn(h + [t], a) < |h + [t]| && next[a] == (h + [t])[LastTurn(h + [t], a)].at
      ensures a in gone <==> MovedSince(h + [t], a)
    {
      TurnStep(h, t, a);
      if a in march { MarchingHasTurn(h, a); }
    }
  }

  lemma MarchingHasTurn(h: seq<Transition>, a: string)
    requires Marching(h, a)
    ensures 0 <= LastTurn(h, a) < |h|
  {
  }

  // --- the route -------------------------------------------------------------

  /** One message on the output topic: an episode as it stands, or its re-send. */
  datatype Sent = Record(item: Item) | Resend(key: string, id: string)

  function Records(items: seq<Item>): seq<Sent> { seq(|items|, i requires 0 <= i < |items| => Sent.Record(items[i])) }

  function Resends(keys: seq<string>, id: string): seq<Sent> {
    seq(|keys|, i requires 0 <= i < |keys| => Resend(keys[i], id))
  }

  function KeyOf(uuid: string -> string, kind: string, cm: CmState, e: Episode): string {
    RecordKey(uuid, Occurrence(kind, OwningTier(cm), e.asset, e.component, e.fault, e.detectedAt))
  }

  function SourceId(s: Gate.Record): string { if At(s, "event_id").Str? then At(s, "event_id").s else "" }

  function SourceIds(e: Episode): multiset<string> {
    multiset(seq(|e.sources|, i requires 0 <= i < |e.sources| => SourceId(e.sources[i])))
  }

  /** The event id a source carries, and the empty text for one that carries none. */
  predicate Carries(s: Gate.Record, id: string) {
    if "event_id" in s && s["event_id"].Str? then s["event_id"].s == id else id == ""
  }

  /** Each id counts as often as sources carry it. */
  lemma SourceIdsExactly(e: Episode, id: string)
    ensures SourceIds(e)[id] == |set i | 0 <= i < |e.sources| && Carries(e.sources[i], id)|
  {
    var ids := seq(|e.sources|, i requires 0 <= i < |e.sources| => SourceId(e.sources[i]));
    HowOften(ids, id);
    assert (set i | 0 <= i < |e.sources| && Carries(e.sources[i], id)) == Places(ids, id);
  }

  ghost function Places(ids: seq<string>, id: string): set<int> { set i | 0 <= i < |ids| && ids[i] == id }

  lemma {:induction false} HowOften(ids: seq<string>, id: string)
    ensures multiset(ids)[id] == |Places(ids, id)|
  {
    if ids == [] {
      NoPlaces(id);
    } else {
      var init := ids[..|ids| - 1];
      HowOften(init, id);
      assert ids == init + [ids[|init|]];
      var more: set<int> := if ids[|init|] == id then {|init|} else {};
      assert Places(ids, id) == Places(init, id) + more;
    }
  }

  lemma NoPlaces(id: string)
    ensures Places([], id) == {}
  {
  }

  function ItemOf(uuid: string -> string, kind: string, cm: CmState, e: Episode): Item {
    Item(KeyOf(uuid, kind, cm, e), SourceIds(e))
  }

  function ItemsOf(uuid: string -> string, kind: string, cm: CmState): seq<Item> {
    var es := EpisodesOf(cm);
    seq(|es|, i requires 0 <= i < |es| => ItemOf(uuid, kind, cm, es[i]))
  }

  /** The keys of the episodes detected before a march order. */
  function Deferred(uuid: string -> string, kind: string, cm: CmState, es: seq<Episode>, march: int): seq<string> {
    if es == [] then []
    else
      Deferred(uuid, kind, cm, es[..|es| - 1], march)
      + if es[|es| - 1].detectedAt >= march then [] else [KeyOf(uuid, kind, cm, es[|es| - 1])]
  }

  lemma {:induction false} DeferredAre(uuid: string -> string, kind: string, cm: CmState, es: seq<Episode>, march: int)
    ensures forall k :: k in Deferred(uuid, kind, cm, es, march) <==>
                          exists e :: e in es && e.detectedAt < march && KeyOf(uuid, kind, cm, e) == k
  {
    hide KeyOf;
    if es != [] {
      DeferredAre(uuid, kind, cm, es[..|es| - 1], march);
      assert es == es[..|es| - 1] + [es[|es| - 1]];
    }
  }

  /** An arrival owes exactly the keys of the open episodes detected before the march
      order that were not sent for it yet, each once. */
  lemma OwedExactly(uuid: string -> string, kind: string, cm: CmState, march: int, id: string,
                    done: set<(string, string)>)
    ensures var owed := Due(Deferred(uuid, kind, cm, EpisodesOf(cm), march), id, done);
            && (forall k :: k in owed <==>
                  (k, id) !in done
                  && exists e :: e in EpisodesOf(cm) && e.detectedAt < march && KeyOf(uuid, kind, cm, e) == k)
            && forall i, j :: 0 <= i < j < |owed| ==> owed[i] != owed[j]
  {
    hide KeyOf, Due, Deferred;
    DeferredAre(uuid, kind, cm, EpisodesOf(cm), march);
    DueIsOnce(Deferred(uuid, kind, cm, EpisodesOf(cm), march), id, done);
  }

  /** The re-sends so far are the remembered ones, each once. */
  ghost predicate ResendsOnce(sent: seq<Sent>, done: set<(string, string)>) {
    (forall k, id :: (k, id) in done <==> Resend(k, id) in sent)
    && forall i, j :: 0 <= i < j < |sent| && sent[i].Resend? ==> sent[i] != sent[j]
  }

  lemma ResendOne(sent: seq<Sent>, done: set<(string, string)>, k: string, id: string)
    requires ResendsOnce(sent, done) && (k, id) !in done
    ensures ResendsOnce(sent + [Resend(k, id)], done + {(k, id)})
  {
    var more := sent + [Resend(k, id)];
    forall i, j | 0 <= i < j < |more| && more[i].Resend? ensures more[i] != more[j] {
      assert more[i] in sent;
    }
  }

  lemma RecordOne(sent: seq<Sent>, done: set<(string, string)>, x: Item)
    requires ResendsOnce(sent, done)
    ensures ResendsOnce(sent + [Sent.Record(x)], done)
  {
  }

  lemma {:induction false} RememberMore(sent: seq<Item>, x: Item, last: Produced)
    ensures Remember(sent + [x], last) == Remember(sent, last)[x.key := x.ids]
  {
    if sent != [] {
      assert (sent + [x])[1..] == sent[1..] + [x];
      RememberMore(sent[1..], x, last[sent[0].key := sent[0].ids]);
    }
  }

  class RouteState {
    const uuid: string -> string
    const kind: string
    var latest: map<string, CmState>
    var lastProduced: Produced
    var marchOrderedAt: map<string, int>
    var moved: set<string>
    var arrivals: set<(string, string)>
    /** Everything produced, and every transition handled to its end. */
    ghost var sent: seq<Sent>
    ghost var handled: seq<Transition>

    constructor (uuid: string -> string, kind: string)
      ensures this.uuid == uuid && this.kind == kind && sent == [] && handled == [] && Valid()
    {
      this.uuid, this.kind := uuid, kind;
      latest, lastProduced, marchOrderedAt, moved, arrivals := map[], map[], map[], {}, {};
      sent, handled := [], [];
    }

    ghost predicate Valid()
      reads this
    {
      Remembers(handled, marchOrderedAt, moved) && ResendsOnce(sent, arrivals)
    }

    /** Produced if and only if its key or its sources are new; a failure leaves no mark. */
    method ProduceEpisode(cm: CmState, e: Episode) returns (ok: bool)
      requires Valid()
      modifies this`lastProduced, this`sent
      ensures Valid()
      ensures Known(old(lastProduced), ItemOf(uuid, kind, cm, e)) ==> ok
      ensures !ok || Known(old(lastProduced), ItemOf(uuid, kind, cm, e))
              ==> sent == old(sent) && lastProduced == old(lastProduced)
      ensures ok && !Known(old(lastProduced), ItemOf(uuid, kind, cm, e))
              ==> sent == old(sent) + [Sent.Record(ItemOf(uuid, kind, cm, e))]
                  && lastProduced == old(lastProduced)[KeyOf(uuid, kind, cm, e) := SourceIds(e)]
    {
      hide KeyOf, SourceIds, Remembers, ResendsOnce;
      var key, ids := KeyOf(uuid, kind, cm, e), SourceIds(e);
      if key in lastProduced && lastProduced[key] == ids { return true; }
      ok := *;
      if !ok { return; }
      RecordOne(sent, arrivals, Item(key, ids));
      sent := sent + [Sent.Record(Item(key, ids))];
      lastProduced := lastProduced[key := ids];
    }

    /** One CM state: the new or changed episodes are produced in order; a failure stops
        after some of them. */
    method HandleCmState(cm: CmState) returns (ok: bool, ghost n: nat)
      requires Valid()
      modifies this`latest, this`lastProduced, this`sent
      ensures Valid()
      ensures latest == if cm.asset != "" then old(latest)[cm.asset := cm] else old(latest)
      ensures n <= |SendsOf(ItemsOf(uuid, kind, cm), old(lastProduced))|
      ensures ok ==> n == |SendsOf(ItemsOf(uuid, kind, cm), old(lastProduced))|
      ensures var sends := SendsOf(ItemsOf(uuid, kind, cm), old(lastProduced))[..n];
              sent == old(sent) + Records(sends) && lastProduced == Remember(sends, old(lastProduced))
    {
      hide Remembers, ResendsOnce, ItemOf, EpisodesOf, SendsOf, Remember, Known, Records, KeyOf, SourceIds;
      if cm.asset != "" { latest := latest[cm.asset := cm]; }
      var es := Episodes(cm);
      ghost var items, last := ItemsOf(uuid, kind, cm), lastProduced;
      ghost var sends: seq<Item> := [];
      NothingSent(last);
      assert items[..0] == [] && sent + [] == sent;
      for i := 0 to |es|
        invariant Valid() && latest == if cm.asset != "" then old(latest)[cm.asset := cm] else old(latest)
        invariant sends == SendsOf(items[..i], last)
        invariant sent == old(sent) + Records(sends) && lastProduced == Remember(sends, last)
      {
        PassStep(items, i, last);
        assert items[i] == ItemOf(uuid, kind, cm, es[i]);
        ItemParts(uuid, kind, cm, es[i]);
        ok := ProduceEpisode(cm, es[i]);
        if !ok {
          n := |sends|;
          assert SendsOf(items, last)[..n] == sends;
          return;
        }
        sends := SendsOf(items[..i + 1], last);
      }
      assert items[..|es|] == items;
      ok, n := true, |sends|;
      assert sends[..n] == sends;
    }

    /** A march order and a move are only remembered. An emplacement after a move re-sends
        the episodes detected before the order, unless re-sent for this arrival already; a
        failure stops after some of them and forgets nothing. */
    method HandlePosture(t: Transition) returns (ok: bool, ghost n: nat)
      requires Valid()
      modifies this`marchOrderedAt, this`moved, this`arrivals, this`sent, this`handled
      ensures Valid()
      ensures n <= |old(Owed(t))| && (ok ==> n == |old(Owed(t))|)
      ensures sent == old(sent) + Resends(old(Owed(t))[..n], t.id)
      ensures arrivals == old(arrivals) + Pairs(old(Owed(t))[..n], t.id)
      ensures ok ==> handled == old(handled) + [t]
                     && marchOrderedAt == NextMarch(old(marchOrderedAt), t)
                     && moved == NextMoved(old(marchOrderedAt), old(moved), t)
      ensures !ok ==> handled == old(handled) && marchOrderedAt == old(marchOrderedAt) && moved == old(moved)
    {
      hide Remembers, ResendsOnce, Due, Deferred, EpisodesOf, LastTurn;
      RememberTransition(handled, marchOrderedAt, moved, t);
      ghost var owed := Owed(t);
      assert Resends(owed[..0], t.id) == [] && Pairs(owed[..0], t.id) == {};
      ok, n := true, 0;
      if t.to.MarchOrdered? {
        marchOrderedAt := marchOrderedAt[t.asset := t.at];
        moved := moved - {t.asset};
        handled := handled + [t];
        return;
      }
      if t.to.Moving? {
        if t.asset in marchOrderedAt { moved := moved + {t.asset}; }
        handled := handled + [t];
        return;
      }
      if !t.to.Emplaced? || t.asset !in marchOrderedAt {
        assert t.to.Emplaced? ==> marchOrderedAt - {t.asset} == marchOrderedAt && moved - {t.asset} == moved by {
          OnlyMarchingMove(handled, marchOrderedAt, moved);
        }
        handled := handled + [t];
        return;
      }
      if t.asset !in moved {
        assert moved - {t.asset} == moved;
        marchOrderedAt := marchOrderedAt - {t.asset};
        handled := handled + [t];
        return;
      }
      if t.asset in latest {
        ok, n := ResendDeferred(latest[t.asset], marchOrderedAt[t.asset], t.id);
        if !ok { return; }
      }
      marchOrderedAt := marchOrderedAt - {t.asset};
      moved := moved - {t.asset};
      handled := handled + [t];
    }

    /** What a transition makes this route send. */
    ghost function Owed(t: Transition): seq<string>
      reads this
    {
      if t.to.Emplaced? && t.asset in marchOrderedAt && t.asset in moved && t.asset in latest then
        var cm := latest[t.asset];
        Due(Deferred(uuid, kind, cm, EpisodesOf(cm), marchOrderedAt[t.asset]), t.id, arrivals)
      else []
    }

    method ResendDeferred(cm: CmState, march: int, id: string) returns (ok: bool, ghost n: nat)
      requires ResendsOnce(sent, arrivals)
      modifies this`arrivals, this`sent
      ensures ResendsOnce(sent, arrivals)
      ensures var owed := Due(Deferred(uuid, kind, cm, EpisodesOf(cm), march), id, old(arrivals));
              n <= |owed| && (ok ==> n == |owed|)
              && sent == old(sent) + Resends(owed[..n], id) && arrivals == old(arrivals) + Pairs(owed[..n], id)
    {
      hide ResendsOnce, Due, EpisodesOf, KeyOf;
      var es := Episodes(cm);
      ghost var keys, done := Deferred(uuid, kind, cm, es, march), arrivals;
      ghost var owed: seq<string> := [];
      NothingDue(id, done);
      assert es[..0] == [] && Resends([], id) == [] && Pairs([], id) == {};
      for i := 0 to |es|
        invariant ResendsOnce(sent, arrivals)
        invariant owed == Due(Deferred(uuid, kind, cm, es[..i], march), id, done)
        invariant sent == old(sent) + Resends(owed, id) && arrivals == done + Pairs(owed, id)
      {
        assert es[..i + 1][..i] == es[..i];
        ghost var sofar := Deferred(uuid, kind, cm, es[..i], march);
        var key := KeyOf(uuid, kind, cm, es[i]);
        if es[i].detectedAt >= march {
          assert Deferred(uuid, kind, cm, es[..i + 1], march) == sofar;
          continue;
        }
        assert Deferred(uuid, kind, cm, es[..i + 1], march) == sofar + [key];
        DueOne(sofar, key, id, done);
        if (key, id) in arrivals { continue; }
        ok := *;
        if !ok {
          n := |owed|;
          DeferredGrows(uuid, kind, cm, es, i, march, id, done);
          return;
        }
        ResendOne(sent, arrivals, key, id);
        sent := sent + [Resend(key, id)];
        arrivals := arrivals + {(key, id)};
        assert Resends(owed + [key], id) == Resends(owed, id) + [Resend(key, id)];
        assert Pairs(owed + [key], id) == Pairs(owed, id) + {(key, id)};
        owed := owed + [key];
      }
      assert es[..|es|] == es;
      ok, n := true, |owed|;
      assert owed[..n] == owed;
    }
  }

  lemma OnlyMarchingMove(h: seq<Transition>, march: map<string, int>, moved: set<string>)
    requires Remembers(h, march, moved)
    ensures moved <= march.Keys
  {
  }

  lemma NothingSent(last: Produced)
    ensures SendsOf([], last) == [] && Remember([], last) == last && Records([]) == []
  {
  }

  lemma ItemParts(uuid: string -> string, kind: string, cm: CmState, e: Episode)
    ensures ItemOf(uuid, kind, cm, e).key == KeyOf(uuid, kind, cm, e) && ItemOf(uuid, kind, cm, e).ids == SourceIds(e)
  {
  }

  /** One more episode of a pass: skipped or sent, and the pass so far is a prefix of it all. */
  lemma PassStep(items: seq<Item>, i: nat, last: Produced)
    requires i < |items|
    ensures var before, x := SendsOf(items[..i], last), items[i];
            && before <= SendsOf(items, last)
            && (if Known(Remember(before, last), x) then SendsOf(items[..i + 1], last) == before
                else SendsOf(items[..i + 1], last) == before + [x]
                     && Remember(before + [x], last) == Remember(before, last)[x.key := x.ids]
                     && Records(before + [x]) == Records(before) + [Sent.Record(x)]
                     && |before| < |SendsOf(items, last)|)
  {
    hide SendsOf, Remember, Known;
    var before, x := SendsOf(items[..i], last), items[i];
    assert items[..i + 1] == items[..i] + [x];
    SendOne(items[..i], x, last);
    RememberMore(before, x, last);
    assert items == items[..i] + items[i..];
    SendsConcat(items[..i], items[i..], last);
    assert items == items[..i + 1] + items[i + 1..];
    SendsConcat(items[..i + 1], items[i + 1..], last);
    hide Records;
    assert Records(before + [x]) == Records(before) + [Sent.Record(x)] by { RecordsGrow(before, x); }
  }

  lemma RecordsGrow(items: seq<Item>, x: Item)
    ensures Records(items + [x]) == Records(items) + [Sent.Record(x)]
  {
  }

  lemma SendOne(items: seq<Item>, x: Item, last: Produced)
    ensures SendsOf(items + [x], last)
            == SendsOf(items, last) + if Known(Remember(SendsOf(items, last), last), x) then [] else [x]
  {
    SendsConcat(items, [x], last);
  }

  lemma {:induction false} DueOne(keys: seq<string>, k: string, id: string, done: set<(string, string)>)
    ensures Due(keys + [k], id, done)
            == Due(keys, id, done) + if (k, id) in done + Pairs(Due(keys, id, done), id) then [] else [k]
  {
    if keys == [] {
      assert keys + [k] == [k];
    } else {
      assert (keys + [k])[1..] == keys[1..] + [k];
      var next := done + {(keys[0], id)};
      DueOne(keys[1..], k, id, if (keys[0], id) in done then done else next);
      DueStep(keys, id, done);
      DueStep(keys + [k], id, done);
      hide Due;
      if (keys[0], id) !in done {
        var more := Due(keys[1..], id, next);
        assert next + Pairs(more, id) == done + Pairs([keys[0]] + more, id);
      }
    }
  }

  lemma {:induction false} DueGrows(a: seq<string>, b: seq<string>, id: string, done: set<(string, string)>)
    ensures Due(a, id, done) <= Due(a + b, id, done)
    decreases |b|
  {
    if b == [] {
      assert a + b == a;
    } else {
      var init := b[..|b| - 1];
      DueGrows(a, init, id, done);
      DueOne(a + init, b[|b| - 1], id, done);
      assert a + b == a + init + [b[|b| - 1]];
    }
  }

  lemma DeferredGrows(uuid: string -> string, kind: string, cm: CmState, es: seq<Episode>, i: nat, march: int,
                      id: string, done: set<(string, string)>)
    requires i <= |es|
    ensures Due(Deferred(uuid, kind, cm, es[..i], march), id, done)
            <= Due(Deferred(uuid, kind, cm, es, march), id, done)
    decreases |es|
  {
    hide Due, KeyOf;
    if i == |es| {
      assert es[..i] == es;
    } else {
      var init := es[..|es| - 1];
      assert es[..i] == init[..i];
      DeferredGrows(uuid, kind, cm, init, i, march, id, done);
      DueGrows(Deferred(uuid, kind, cm, init, march), [KeyOf(uuid, kind, cm, es[|es| - 1])], id, done);
      assert Deferred(uuid, kind, cm, init, march) + [] == Deferred(uuid, kind, cm, init, march);
    }
  }
}
