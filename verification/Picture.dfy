/** The picture endpoint's index of open episodes (egress/picture.py): one entry per episode
    key, replaced per route and asset. */
module Picture {
  import opened Options
  import opened Identity
  import opened Assembler
  import opened Posture

  datatype Route = Route(name: string, kind: string)

  datatype IndexEntry = IndexEntry(route: Route, cm: CmState, episode: Episode, tier: string)

  type Place = (string, string)

  type Entries = map<string, IndexEntry>

  datatype Index = Index(byKey: Entries, keysByAsset: map<Place, set<string>>)

  /** The entries of one CM state; the last episode with a key keeps it. */
  function EntriesFor(uuid: string -> string, route: Route, cm: CmState, es: seq<Episode>): Entries {
    if es == [] then map[]
    else
      var e := es[|es| - 1];
      EntriesFor(uuid, route, cm, es[..|es| - 1])
        [KeyOf(uuid, route.kind, cm, e) := IndexEntry(route, cm, e, OwningTier(cm))]
  }

  function Open(uuid: string -> string, route: Route, cm: CmState): Entries {
    EntriesFor(uuid, route, cm, EpisodesOf(cm))
  }

  function KeysAt(ix: Index, slot: Place): set<string> {
    if slot in ix.keysByAsset then ix.keysByAsset[slot] else {}
  }

  function Update(uuid: string -> string, ix: Index, route: Route, cm: CmState): Index {
    var slot, entries := (route.name, cm.asset), Open(uuid, route, cm);
    Index(ix.byKey - KeysAt(ix, slot) + entries,
          if entries != map[] then ix.keysByAsset[slot := entries.Keys] else ix.keysByAsset - {slot})
  }

  function Remove(ix: Index, route: Route, asset: string): Index {
    var slot := (route.name, asset);
    Index(ix.byKey - KeysAt(ix, slot), ix.keysByAsset - {slot})
  }

  class EpisodeIndex {
    const uuid: string -> string
    var byKey: Entries
    var keysByAsset: map<Place, set<string>>

    constructor (uuid: string -> string)
      ensures this.uuid == uuid && State() == Index(map[], map[])
    {
      this.uuid, byKey, keysByAsset := uuid, map[], map[];
    }

    function State(): Index
      reads this
    {
      Index(byKey, keysByAsset)
    }

    method Lookup(key: string) returns (entry: Option<IndexEntry>)
      ensures entry == if key in State().byKey then Some(State().byKey[key]) else None
    {
      entry := if key in byKey then Some(byKey[key]) else None;
    }

    method Drop(slot: Place)
      modifies this
      ensures byKey == old(byKey) - KeysAt(old(State()), slot) && keysByAsset == old(keysByAsset) - {slot}
    {
      var keys := if slot in keysByAsset then keysByAsset[slot] else {};
      ghost var all := keys;
      keysByAsset := keysByAsset - {slot};
      while keys != {}
        invariant keys <= all && keysByAsset == old(keysByAsset) - {slot}
        invariant byKey == old(byKey) - (all - keys)
      {
        var k :| k in keys;
        byKey := byKey - {k};
        keys := keys - {k};
      }
    }

    method Refresh(route: Route, cm: CmState)
      modifies this
      ensures State() == Update(uuid, old(State()), route, cm)
    {
      hide KeyOf;
      var es := Episodes(cm);
      var entries: Entries := map[];
      for i := 0 to |es|
        invariant entries == EntriesFor(uuid, route, cm, es[..i]) && State() == old(State())
      {
        assert es[..i + 1][..i] == es[..i];
        entries := entries[KeyOf(uuid, route.kind, cm, es[i]) := IndexEntry(route, cm, es[i], OwningTier(cm))];
      }
      assert es[..|es|] == es;
      Drop((route.name, cm.asset));
      if entries != map[] {
        byKey := byKey + entries;
        keysByAsset := keysByAsset[(route.name, cm.asset) := entries.Keys];
        assert keysByAsset == old(keysByAsset)[(route.name, cm.asset) := entries.Keys];
      } else {
        assert byKey + entries == byKey;
      }
    }

    method Tombstone(route: Route, asset: string)
      modifies this
      ensures State() == Remove(old(State()), route, asset)
    {
      Drop((route.name, asset));
    }
  }

  // --- the index is the latest messages --------------------------------------

  datatype Message = Updated(route: Route, cm: CmState) | Removed(route: Route, asset: string)

  function PlaceOf(m: Message): Place { (m.route.name, if m.Updated? then m.cm.asset else m.asset) }

  function Apply(uuid: string -> string, ix: Index, m: Message): Index {
    if m.Updated? then Update(uuid, ix, m.route, m.cm) else Remove(ix, m.route, m.asset)
  }

  function After(uuid: string -> string, ms: seq<Message>): Index {
    if ms == [] then Index(map[], map[]) else Apply(uuid, After(uuid, ms[..|ms| - 1]), ms[|ms| - 1])
  }

  type Latest = map<Place, (Route, CmState)>

  function ApplyLatest(latest: Latest, m: Message): Latest {
    if m.Updated? then latest[PlaceOf(m) := (m.route, m.cm)] else latest - {PlaceOf(m)}
  }

  /** The last CM state of each route and asset, unless removed since. */
  function LatestOf(ms: seq<Message>): Latest {
    if ms == [] then map[] else ApplyLatest(LatestOf(ms[..|ms| - 1]), ms[|ms| - 1])
  }

  function OpenAt(uuid: string -> string, latest: Latest, slot: Place): Entries
    requires slot in latest
  {
    Open(uuid, latest[slot].0, latest[slot].1)
  }

  ghost predicate FoundIsOpen(uuid: string -> string, ix: Index, latest: Latest) {
    forall k :: k in ix.byKey ==> exists s :: s in latest && k in OpenAt(uuid, latest, s)
  }

  ghost predicate OpenIsFound(uuid: string -> string, ix: Index, latest: Latest) {
    forall s, k :: s in latest && k in OpenAt(uuid, latest, s) ==>
      k in ix.byKey && ix.byKey[k] == OpenAt(uuid, latest, s)[k]
  }

  ghost predicate KeptAt(uuid: string -> string, ix: Index, latest: Latest, s: Place) {
    (s in ix.keysByAsset <==> s in latest && OpenAt(uuid, latest, s) != map[])
    && (s in ix.keysByAsset ==> ix.keysByAsset[s] == OpenAt(uuid, latest, s).Keys)
  }

  ghost predicate KeptPerAsset(uuid: string -> string, ix: Index, latest: Latest) {
    forall s :: KeptAt(uuid, ix, latest, s)
  }

  ghost predicate Disjoint(ix: Index) {
    forall s, t :: s in ix.keysByAsset && t in ix.keysByAsset && s != t ==> ix.keysByAsset[s] !! ix.keysByAsset[t]
  }

  /** An entry is found exactly for the open episodes of the latest messages, and the key
      sets kept per asset are a partition of the keys. */
  ghost predicate Agrees(uuid: string -> string, ix: Index, latest: Latest) {
    FoundIsOpen(uuid, ix, latest) && OpenIsFound(uuid, ix, latest) && KeptPerAsset(uuid, ix, latest) && Disjoint(ix)
  }

  ghost predicate PlainState(cm: CmState) {
    '|' !in OwningTier(cm) && '|' !in cm.asset
    && forall d :: d in cm.discrepancies ==> '|' !in d.component && '|' !in d.fault
  }

  ghost predicate PlainMessages(ms: seq<Message>, routes: set<Route>) {
    forall m :: m in ms ==> m.route in routes && (m.Updated? ==> PlainState(m.cm))
  }

  ghost predicate Named(routes: set<Route>) {
    (forall r :: r in routes ==> '|' !in r.kind)
    && forall r, s :: r in routes && s in routes && r.name == s.name ==> r == s
  }

  ghost predicate DistinctKinds(routes: set<Route>) {
    forall r, s :: r in routes && s in routes && r.kind == s.kind ==> r == s
  }

  lemma {:induction false} EntryMeaning(uuid: string -> string, route: Route, cm: CmState, es: seq<Episode>)
    ensures forall k :: k in EntriesFor(uuid, route, cm, es) ==>
              var x := EntriesFor(uuid, route, cm, es)[k];
              x.route == route && x.cm == cm && x.tier == OwningTier(cm) && x.episode in es
              && KeyOf(uuid, route.kind, cm, x.episode) == k
    ensures forall e :: e in es ==> KeyOf(uuid, route.kind, cm, e) in EntriesFor(uuid, route, cm, es)
  {
    hide KeyOf;
    if es != [] {
      EntryMeaning(uuid, route, cm, es[..|es| - 1]);
      assert es == es[..|es| - 1] + [es[|es| - 1]];
    }
  }

  /** The keys of two different slots never meet. */
  lemma PlacesApart(uuid: string -> string, r: Route, a: CmState, s: Route, b: CmState)
    requires UuidLike(uuid) && PlainState(a) && PlainState(b) && '|' !in r.kind && '|' !in s.kind
    requires r.kind != s.kind || a.asset != b.asset
    ensures Open(uuid, r, a).Keys !! Open(uuid, s, b).Keys
  {
    hide UuidLike, RecordKey, EntriesFor;
    EntryMeaning(uuid, r, a, EpisodesOf(a));
    EntryMeaning(uuid, s, b, EpisodesOf(b));
    EpisodesAre(a.asset, a.discrepancies);
    EpisodesAre(b.asset, b.discrepancies);
    forall k | k in Open(uuid, r, a) && k in Open(uuid, s, b) ensures false {
      var e, f := Open(uuid, r, a)[k].episode, Open(uuid, s, b)[k].episode;
      RecordKeyNamesOccurrence(uuid,
        Occurrence(r.kind, OwningTier(a), e.asset, e.component, e.fault, e.detectedAt),
        Occurrence(s.kind, OwningTier(b), f.asset, f.component, f.fault, f.detectedAt));
    }
  }

  /** What the latest messages hold at a slot belongs to it. */
  ghost predicate InPlace(latest: Latest, routes: set<Route>) {
    forall s :: s in latest ==>
      latest[s].0 in routes && latest[s].0.name == s.0 && latest[s].1.asset == s.1 && PlainState(latest[s].1)
  }

  lemma {:induction false} LatestInPlace(ms: seq<Message>, routes: set<Route>)
    requires PlainMessages(ms, routes)
    ensures InPlace(LatestOf(ms), routes)
  {
    hide PlainState;
    if ms != [] {
      assert ms[|ms| - 1] in ms;
      LatestInPlace(ms[..|ms| - 1], routes);
    }
  }

  ghost predicate AllApart(uuid: string -> string, latest: Latest) {
    forall s, t :: s in latest && t in latest && s != t ==> OpenAt(uuid, latest, s).Keys !! OpenAt(uuid, latest, t).Keys
  }

  lemma AllPlacesApart(uuid: string -> string, latest: Latest, routes: set<Route>)
    requires UuidLike(uuid) && Named(routes) && DistinctKinds(routes) && InPlace(latest, routes)
    ensures AllApart(uuid, latest)
  {
    hide UuidLike, Open, PlainState;
    forall s, t | s in latest && t in latest && s != t
      ensures OpenAt(uuid, latest, s).Keys !! OpenAt(uuid, latest, t).Keys
    {
      PlacesApart(uuid, latest[s].0, latest[s].1, latest[t].0, latest[t].1);
    }
  }

  lemma KeptHere(uuid: string -> string, ix: Index, latest: Latest, slot: Place)
    requires KeptPerAsset(uuid, ix, latest)
    ensures KeysAt(ix, slot) == if slot in latest then OpenAt(uuid, latest, slot).Keys else {}
  {
    hide Open;
    assert KeptAt(uuid, ix, latest, slot);
  }

  lemma ApplyKept(uuid: string -> string, ix: Index, latest: Latest, m: Message)
    requires KeptPerAsset(uuid, ix, latest)
    ensures KeptPerAsset(uuid, Apply(uuid, ix, m), ApplyLatest(latest, m))
  {
    hide OpenAt, KeysAt, Open, ApplyLatest, Apply;
    forall s ensures KeptAt(uuid, Apply(uuid, ix, m), ApplyLatest(latest, m), s) {
      ApplyKeptAt(uuid, ix, latest, m, s);
    }
  }

  lemma ApplyKeptAt(uuid: string -> string, ix: Index, latest: Latest, m: Message, s: Place)
    requires KeptAt(uuid, ix, latest, s)
    ensures KeptAt(uuid, Apply(uuid, ix, m), ApplyLatest(latest, m), s)
  {
    hide Open, KeysAt, OpenAt;
    if s in ApplyLatest(latest, m) { OpenAfter(uuid, latest, m, s); }
  }

  lemma OpenAfter(uuid: string -> string, latest: Latest, m: Message, s: Place)
    requires s in ApplyLatest(latest, m)
    ensures s == PlaceOf(m) ==> m.Updated? && OpenAt(uuid, ApplyLatest(latest, m), s) == Open(uuid, m.route, m.cm)
    ensures s != PlaceOf(m) ==> s in latest && OpenAt(uuid, ApplyLatest(latest, m), s) == OpenAt(uuid, latest, s)
  {
    hide Open;
  }

  lemma ApplyFound(uuid: string -> string, ix: Index, latest: Latest, m: Message, k: string)
    requires FoundIsOpen(uuid, ix, latest) && k in Apply(uuid, ix, m).byKey
    requires KeysAt(ix, PlaceOf(m)) == if PlaceOf(m) in latest then OpenAt(uuid, latest, PlaceOf(m)).Keys else {}
    ensures exists s :: s in ApplyLatest(latest, m) && k in OpenAt(uuid, ApplyLatest(latest, m), s)
  {
    hide Open, KeysAt;
    var next, slot := ApplyLatest(latest, m), PlaceOf(m);
    if m.Updated? && k in Open(uuid, m.route, m.cm) {
      assert k in OpenAt(uuid, next, slot);
    } else {
      var s :| s in latest && k in OpenAt(uuid, latest, s);
      assert k in OpenAt(uuid, next, s);
    }
  }

  lemma ApplyOpen(uuid: string -> string, ix: Index, latest: Latest, m: Message, s: Place, k: string)
    requires OpenIsFound(uuid, ix, latest)
    requires KeysAt(ix, PlaceOf(m)) == if PlaceOf(m) in latest then OpenAt(uuid, latest, PlaceOf(m)).Keys else {}
    requires AllApart(uuid, latest) && AllApart(uuid, ApplyLatest(latest, m))
    requires s in ApplyLatest(latest, m) && k in OpenAt(uuid, ApplyLatest(latest, m), s)
    ensures k in Apply(uuid, ix, m).byKey && Apply(uuid, ix, m).byKey[k] == OpenAt(uuid, ApplyLatest(latest, m), s)[k]
  {
    hide Open, KeysAt;
    var slot := PlaceOf(m);
    if s != slot {
      assert k in OpenAt(uuid, latest, s) && k in ix.byKey && k !in KeysAt(ix, slot);
      if m.Updated? { assert OpenAt(uuid, ApplyLatest(latest, m), slot) == Open(uuid, m.route, m.cm); }
    }
  }

  lemma KeptDisjoint(uuid: string -> string, ix: Index, latest: Latest)
    requires KeptPerAsset(uuid, ix, latest) && AllApart(uuid, latest)
    ensures Disjoint(ix)
  {
    hide OpenAt;
    forall s, t | s in ix.keysByAsset && t in ix.keysByAsset && s != t ensures ix.keysByAsset[s] !! ix.keysByAsset[t] {
      assert KeptAt(uuid, ix, latest, s) && KeptAt(uuid, ix, latest, t);
    }
  }

  lemma ApplyAgrees(uuid: string -> string, ix: Index, latest: Latest, m: Message)
    requires Agrees(uuid, ix, latest) && AllApart(uuid, latest) && AllApart(uuid, ApplyLatest(latest, m))
    ensures Agrees(uuid, Apply(uuid, ix, m), ApplyLatest(latest, m))
  {
    hide OpenAt, Apply, ApplyLatest, KeysAt;
    var next, after := ApplyLatest(latest, m), Apply(uuid, ix, m);
    ApplyKept(uuid, ix, latest, m);
    KeptHere(uuid, ix, latest, PlaceOf(m));
    KeptDisjoint(uuid, after, next);
    hide KeptPerAsset, Disjoint, AllApart;
    forall k | k in after.byKey ensures exists s :: s in next && k in OpenAt(uuid, next, s) {
      ApplyFound(uuid, ix, latest, m, k);
    }
    forall s, k | s in next && k in OpenAt(uuid, next, s)
      ensures k in after.byKey && after.byKey[k] == OpenAt(uuid, next, s)[k]
    {
      ApplyOpen(uuid, ix, latest, m, s, k);
    }
  }

  lemma EmptyAgrees(uuid: string -> string)
    ensures Agrees(uuid, Index(map[], map[]), map[])
  {
    assert forall s :: KeptAt(uuid, Index(map[], map[]), map[], s);
  }

  /** Over any run of updates and tombstones the index is the latest messages. */
  lemma {:induction false} IndexIsLatest(uuid: string -> string, ms: seq<Message>, routes: set<Route>)
    requires UuidLike(uuid) && Named(routes) && DistinctKinds(routes) && PlainMessages(ms, routes)
    ensures Agrees(uuid, After(uuid, ms), LatestOf(ms))
  {
    hide UuidLike, Apply, ApplyLatest, PlainState;
    if ms == [] {
      EmptyAgrees(uuid);
    } else {
      var init := ms[..|ms| - 1];
      IndexIsLatest(uuid, init, routes);
      LatestInPlace(init, routes);
      LatestInPlace(ms, routes);
      AllPlacesApart(uuid, LatestOf(init), routes);
      AllPlacesApart(uuid, LatestOf(ms), routes);
      hide Agrees, AllApart, InPlace;
      ApplyAgrees(uuid, After(uuid, init), LatestOf(init), ms[|ms| - 1]);
    }
  }

  function OneFault(): CmState {
    CmState("A", "T", "", "", [], [Discrepancy("c", "F", 1, [])])
  }

  function OneEpisode(): Episode { Episode("A", "c", "F", 1, []) }

  lemma OneFaultOpens(uuid: string -> string, r: Route)
    ensures Open(uuid, r, OneFault())
            == map[KeyOf(uuid, r.kind, OneFault(), OneEpisode()) := IndexEntry(r, OneFault(), OneEpisode(), "T")]
    ensures PlainState(OneFault()) && OneFault().asset == "A"
  {
    hide KeyOf;
    var ds, es := OneFault().discrepancies, [OneEpisode()];
    assert ds[..0] == [] && es[..0] == [];
    assert EpisodesFrom("A", ds) == EpisodesFrom("A", ds[..0]) + es;
    assert EpisodesOf(OneFault()) == es;
    assert EntriesFor(uuid, r, OneFault(), es[..0]) == map[];
  }

  /** Two routes of one kind share their keys: one route's tombstone takes the other's entry. */
  lemma SameKindLosesEntry(uuid: string -> string, r: Route, s: Route)
    requires r.name != s.name && r.kind == s.kind
    ensures var ms := [Updated(r, OneFault()), Updated(s, OneFault()), Removed(r, "A")];
            !Agrees(uuid, After(uuid, ms), LatestOf(ms))
  {
    OneFaultOpens(uuid, r);
    OneFaultOpens(uuid, s);
    hide Open, KeyOf, After, LatestOf, OneFault, FoundIsOpen, KeptPerAsset, Disjoint;
    var cm := OneFault();
    var k := KeyOf(uuid, r.kind, cm, OneEpisode());
    var ms := [Updated(r, cm), Updated(s, cm), Removed(r, "A")];
    ThreeMessages(uuid, ms[0], ms[1], ms[2]);
    assert ms == [ms[0], ms[1], ms[2]];
    TombstoneTakes(uuid, r, s, cm, k);
    assert (s.name, "A") in LatestOf(ms) && k in OpenAt(uuid, LatestOf(ms), (s.name, "A"));
  }

  lemma TombstoneTakes(uuid: string -> string, r: Route, s: Route, cm: CmState, k: string)
    requires r.name != s.name && cm.asset == "A" && Open(uuid, r, cm).Keys == {k}
    ensures k !in Remove(Update(uuid, Update(uuid, Index(map[], map[]), r, cm), s, cm), r, "A").byKey
  {
    hide Open;
    var one := Update(uuid, Index(map[], map[]), r, cm);
    assert Open(uuid, r, cm) != map[] by { assert k in Open(uuid, r, cm); }
    assert one.keysByAsset[(r.name, "A")] == {k};
    var two := Update(uuid, one, s, cm);
    assert KeysAt(two, (r.name, "A")) == {k};
  }

  lemma AfterOne(uuid: string -> string, ms: seq<Message>, m: Message)
    ensures After(uuid, ms + [m]) == Apply(uuid, After(uuid, ms), m)
    ensures LatestOf(ms + [m]) == ApplyLatest(LatestOf(ms), m)
  {
    assert (ms + [m])[..|ms|] == ms;
  }

  lemma ThreeMessages(uuid: string -> string, a: Message, b: Message, c: Message)
    ensures After(uuid, [a, b, c]) == Apply(uuid, Apply(uuid, Apply(uuid, Index(map[], map[]), a), b), c)
    ensures LatestOf([a, b, c]) == ApplyLatest(ApplyLatest(ApplyLatest(map[], a), b), c)
  {
    hide Apply, ApplyLatest;
    AfterOne(uuid, [], a);
    AfterOne(uuid, [a], b);
    AfterOne(uuid, [a, b], c);
    assert [] + [a] == [a] && [a] + [b] == [a, b] && [a, b] + [c] == [a, b, c];
  }

  /** For a set of routes, the index is the latest messages over every run exactly when no
      two routes share a kind. */
  lemma IndexIsLatestExactly(uuid: string -> string, routes: set<Route>)
    requires UuidLike(uuid) && Named(routes)
    ensures (forall ms: seq<Message> :: PlainMessages(ms, routes) ==> Agrees(uuid, After(uuid, ms), LatestOf(ms)))
            <==> DistinctKinds(routes)
  {
    hide UuidLike, Agrees, After, LatestOf;
    if DistinctKinds(routes) {
      forall ms: seq<Message> | PlainMessages(ms, routes) ensures Agrees(uuid, After(uuid, ms), LatestOf(ms)) {
        IndexIsLatest(uuid, ms, routes);
      }
    } else {
      var r, s :| r in routes && s in routes && r.kind == s.kind && r != s;
      SameKindLosesEntry(uuid, r, s);
      var ms := [Updated(r, OneFault()), Updated(s, OneFault()), Removed(r, "A")];
      assert PlainMessages(ms, routes);
    }
  }
}
