/** From a CM state to one record (egress/assembler.py), and what the forwarder's stamps and
    the gate's label reader find in it (egress/forwarder.py, egress/gate.py). */
module Assembler {
  import opened Options
  import opened Pointer
  import opened Gate
  import opened Documents

  // --- episodes --------------------------------------------------------------

  datatype Discrepancy = Discrepancy(component: string, fault: string, detectedAt: int, sources: seq<Record>)

  datatype CmState = CmState(asset: string, edge: string, region: string, originator: string,
                             releasable: seq<string>, discrepancies: seq<Discrepancy>)

  datatype Episode = Episode(asset: string, component: string, fault: string, detectedAt: int, sources: seq<Record>)

  function EpisodesFrom(asset: string, ds: seq<Discrepancy>): seq<Episode> {
    if ds == [] then []
    else
      var d := ds[|ds| - 1];
      EpisodesFrom(asset, ds[..|ds| - 1])
      + if d.fault != "" then [Episode(asset, d.component, d.fault, d.detectedAt, d.sources)] else []
  }

  function EpisodesOf(cm: CmState): seq<Episode> { EpisodesFrom(cm.asset, cm.discrepancies) }

  /** An episode is a keyed discrepancy that is present, and nothing else. */
  lemma {:induction false} EpisodesAre(asset: string, ds: seq<Discrepancy>)
    ensures forall e :: e in EpisodesFrom(asset, ds) <==>
                          exists d :: d in ds && d.fault != ""
                            && e == Episode(asset, d.component, d.fault, d.detectedAt, d.sources)
  {
    if ds != [] {
      EpisodesAre(asset, ds[..|ds| - 1]);
      assert ds == ds[..|ds| - 1] + [ds[|ds| - 1]];
    }
  }

  method Episodes(cm: CmState) returns (out: seq<Episode>)
    ensures out == EpisodesOf(cm)
  {
    out := [];
    for i := 0 to |cm.discrepancies|
      invariant out == EpisodesFrom(cm.asset, cm.discrepancies[..i])
    {
      var d := cm.discrepancies[i];
      assert cm.discrepancies[..i + 1][..i] == cm.discrepancies[..i];
      if d.fault == "" { continue; }
      out := out + [Episode(cm.asset, d.component, d.fault, d.detectedAt, d.sources)];
    }
    assert cm.discrepancies[..|cm.discrepancies|] == cm.discrepancies;
  }

  function OwningTier(cm: CmState): string { if cm.edge != "" then cm.edge else cm.region }

  // --- the record ------------------------------------------------------------

  datatype EpisodeDecl = EpisodeDecl(asset: string, component: string, fault: string)

  /** Where a kind's schema says each field sits. */
  datatype Declarations = Declarations(key: string, labelAt: string, owningTier: Option<string>,
                                       episode: Option<EpisodeDecl>, episodeId: Option<string>,
                                       trigger: Option<string>, observedAt: Option<string>, sources: Option<string>,
                                       provenance: Option<string>, picture: Option<string>)

  /** The parts of a record computed elsewhere: the two ids, the rendered detection time,
      the sources and provenance entries, the picture sections the schema names. */
  datatype Content = Content(episodeId: string, eventId: string, observedAt: string, sources: seq<Json>,
                             provenance: seq<Json>, picture: Record)

  function Texts(ns: seq<string>): seq<Json> {
    if ns == [] then []
    else Texts(ns[..|ns| - 1]) + if ns[|ns| - 1] != "" then [Str(ns[|ns| - 1])] else []
  }

  /** The label as it stands in the CM state; nothing at all when that names no nation. */
  function LabelValue(cm: CmState): Option<Json> {
    if cm.originator == "" && Texts(cm.releasable) == [] then None
    else Some(Obj(map["originator_nation" := if cm.originator != "" then Str(cm.originator) else Null,
                      "releasable_to" := Arr(Texts(cm.releasable))]))
  }

  /** One pointer and what goes there, if anything. */
  datatype Slot = Slot(ptr: string, value: Option<Json>)

  function Declared(ptr: Option<string>, value: Option<Json>): seq<Slot> {
    if ptr.Some? && ptr.value != "" then [Slot(ptr.value, value)] else []
  }

  predicate Buildable(decl: Declarations) {
    decl.owningTier.Some? && decl.episode.Some?
  }

  function IdSlots(decl: Declarations, c: Content): seq<Slot> {
    if decl.episodeId.None? then [Slot(decl.key, Some(Str(c.episodeId)))]
    else [Slot(decl.episodeId.value, Some(Str(c.episodeId))), Slot(decl.key, Some(Str(c.eventId)))]
  }

  function FieldSlots(decl: Declarations, cm: CmState, e: Episode): seq<Slot>
    requires Buildable(decl)
  {
    [Slot(decl.labelAt, LabelValue(cm)), Slot(decl.owningTier.value, Some(Str(OwningTier(cm)))),
     Slot(decl.episode.value.asset, Some(Str(e.asset))), Slot(decl.episode.value.component, Some(Str(e.component))),
     Slot(decl.episode.value.fault, Some(Str(e.fault)))]
  }

  function BaseSlots(decl: Declarations, cm: CmState, e: Episode, c: Content): seq<Slot>
    requires Buildable(decl)
  {
    IdSlots(decl, c) + FieldSlots(decl, cm, e)
  }

  function PictureValue(c: Content): Option<Json> { if c.picture != map[] then Some(Obj(c.picture)) else None }

  function Slots(decl: Declarations, cm: CmState, e: Episode, c: Content): seq<Slot>
    requires Buildable(decl)
  {
    BaseSlots(decl, cm, e, c)
    + Declared(decl.trigger, Some(Str("cm_discrepancy")))
    + Declared(decl.observedAt, Some(Str(c.observedAt)))
    + Declared(decl.sources, Some(Arr(c.sources)))
    + Declared(decl.provenance, Some(Arr(c.provenance)))
    + Declared(decl.picture, PictureValue(c))
  }

  /** Writing the filled slots in order; `None` where a write raises. */
  function FillAll(slots: seq<Slot>): Option<Record> {
    if slots == [] then Some(map[])
    else
      var before, last := FillAll(slots[..|slots| - 1]), slots[|slots| - 1];
      if before.None? || last.value.None? then before else SetAt(before.value, last.ptr, last.value.value)
  }

  lemma {:induction false} FillStaysFailed(a: seq<Slot>, b: seq<Slot>)
    requires FillAll(a).None?
    ensures FillAll(a + b).None?
    decreases |b|
  {
    if b == [] {
      assert a + b == a;
    } else {
      FillStaysFailed(a, b[..|b| - 1]);
      assert (a + b)[..|a + b| - 1] == a + b[..|b| - 1];
    }
  }

  lemma FillStep(done: seq<Slot>, last: Slot)
    ensures FillAll(done + [last])
            == if FillAll(done).None? || last.value.None? then FillAll(done)
               else SetAt(FillAll(done).value, last.ptr, last.value.value)
  {
    assert (done + [last])[..|done|] == done;
  }

  /** Write some slots, in place; false at the first write that raises. */
  method Fill(out: Dict, ghost done: seq<Slot>, more: seq<Slot>) returns (ok: bool)
    requires out.Valid() && FillAll(done) == Some(out.value)
    modifies out.repr
    ensures out.Valid() && fresh(out.repr - old(out.repr))
    ensures FillAll(done + more) == if ok then Some(out.value) else None
  {
    hide SetAt, FillAll, Dict.Valid, Dict.Fits;
    assert done + more[..0] == done;
    for i := 0 to |more|
      invariant out.Valid() && fresh(out.repr - old(out.repr))
      invariant FillAll(done + more[..i]) == Some(out.value)
    {
      FillStep(done + more[..i], more[i]);
      assert done + more[..i + 1] == done + more[..i] + [more[i]];
      if more[i].value.Some? {
        ok := out.SetPointer(more[i].ptr, more[i].value.value);
        if !ok {
          FillStaysFailed(done + more[..i + 1], more[i + 1..]);
          assert done + more[..i + 1] + more[i + 1..] == done + more;
          return;
        }
      }
    }
    assert more[..|more|] == more;
    ok := true;
  }

  /** One episode, one record, written pointer by pointer; false where a write raises. */
  method Assemble(decl: Declarations, cm: CmState, e: Episode, c: Content) returns (out: Dict, ok: bool)
    requires Buildable(decl)
    ensures fresh(out.repr) && out.Valid()
    ensures FillAll(Slots(decl, cm, e, c)) == if ok then Some(out.value) else None
  {
    hide FillAll, LabelValue, PictureValue, Declared, Dict.Valid, Dict.Fits;
    FillNothing();
    out := new Dict(map[]);
    var ids: seq<Slot>;
    if decl.episodeId.None? {
      ids := [Slot(decl.key, Some(Str(c.episodeId)))];
    } else {
      ids := [Slot(decl.episodeId.value, Some(Str(c.episodeId))), Slot(decl.key, Some(Str(c.eventId)))];
    }
    var fields := [Slot(decl.labelAt, LabelValue(cm)), Slot(decl.owningTier.value, Some(Str(OwningTier(cm)))),
                   Slot(decl.episode.value.asset, Some(Str(e.asset))),
                   Slot(decl.episode.value.component, Some(Str(e.component))),
                   Slot(decl.episode.value.fault, Some(Str(e.fault)))];
    var optional := Declared(decl.trigger, Some(Str("cm_discrepancy")))
                    + Declared(decl.observedAt, Some(Str(c.observedAt)))
                    + Declared(decl.sources, Some(Arr(c.sources)))
                    + Declared(decl.provenance, Some(Arr(c.provenance)))
                    + Declared(decl.picture, PictureValue(c));
    assert [] + (ids + fields + optional) == Slots(decl, cm, e, c);
    ok := Fill(out, [], ids + fields + optional);
  }

  lemma FillNothing()
    ensures FillAll([]) == Some(map[])
  {
  }

  // --- what was written is found ---------------------------------------------

  /** Pointers that can be written at, none of them a prefix of another. */
  ghost predicate Apart(ptrs: seq<string>) {
    (forall i :: 0 <= i < |ptrs| ==> Target(ptrs[i]).Some?)
    && forall i, j :: 0 <= i < j < |ptrs| ==> !Comparable(Target(ptrs[i]).value, Target(ptrs[j]).value)
  }

  function PtrsOf(slots: seq<Slot>): seq<string> { seq(|slots|, i requires 0 <= i < |slots| => slots[i].ptr) }

  /** The filled slots as writes at parsed pointers. */
  function Entries(slots: seq<Slot>): seq<Entry>
    requires forall s :: s in slots ==> Target(s.ptr).Some?
  {
    if slots == [] then []
    else
      var last := slots[|slots| - 1];
      Entries(slots[..|slots| - 1]) + if last.value.Some? then [Entry(Target(last.ptr).value, last.value.value)] else []
  }

  lemma {:induction false} EntriesCome(slots: seq<Slot>)
    requires forall s :: s in slots ==> Target(s.ptr).Some?
    ensures forall x :: x in Entries(slots) <==>
                          exists s :: s in slots && s.value.Some? && x == Entry(Target(s.ptr).value, s.value.value)
    ensures forall x :: x in Entries(slots) ==> x.at != []
  {
    hide Target;
    if slots != [] {
      EntriesCome(slots[..|slots| - 1]);
      assert slots == slots[..|slots| - 1] + [slots[|slots| - 1]];
      assert Target(slots[|slots| - 1].ptr).value != [] by { TargetMoves(slots[|slots| - 1].ptr); }
    }
  }

  lemma {:induction false} EntriesApart(slots: seq<Slot>)
    requires Apart(PtrsOf(slots))
    ensures forall s :: s in slots ==> Target(s.ptr).Some?
    ensures PrefixFree(Entries(slots))
  {
    hide Target;
    forall s | s in slots ensures Target(s.ptr).Some? {
      var i :| 0 <= i < |slots| && slots[i] == s;
      assert PtrsOf(slots)[i] == s.ptr;
    }
    if slots != [] {
      var n, init := |slots| - 1, slots[..|slots| - 1];
      assert PtrsOf(init) == PtrsOf(slots)[..n];
      EntriesApart(init);
      EntriesCome(init);
      forall x | x in Entries(init) ensures !Comparable(x.at, Target(slots[n].ptr).value) {
        var s :| s in init && s.value.Some? && x == Entry(Target(s.ptr).value, s.value.value);
        var i :| 0 <= i < n && slots[i] == s;
        assert PtrsOf(slots)[i] == s.ptr && PtrsOf(slots)[n] == slots[n].ptr;
      }
    }
  }

  lemma {:induction false} FillIsPut(slots: seq<Slot>)
    requires forall s :: s in slots ==> Target(s.ptr).Some?
    requires forall x :: x in Entries(slots) ==> x.at != []
    ensures FillAll(slots) == PutAll(Entries(slots))
  {
    hide Target, Put, Parse;
    if slots != [] {
      var init, last := slots[..|slots| - 1], slots[|slots| - 1];
      var es, before := Entries(slots), Entries(init);
      assert forall x :: x in before ==> x in es;
      FillIsPut(init);
      if last.value.Some? {
        assert es == before + [Entry(Target(last.ptr).value, last.value.value)];
        assert es[..|es| - 1] == before;
      } else {
        assert es == before;
      }
    }
  }

  /** If the slots' pointers are apart, no write raises, every filled slot reads back its
      value and every empty one reads back nothing. */
  lemma FillReadsBack(slots: seq<Slot>)
    requires Apart(PtrsOf(slots))
    ensures FillAll(slots).Some?
    ensures forall s :: s in slots ==> Target(s.ptr).Some?
    ensures forall s :: s in slots ==> ReadAt(Obj(FillAll(slots).value), s.ptr) == s.value
    ensures FromEntries(Entries(slots), FillAll(slots).value)
  {
    hide Get, PutAll, FillAll, Parse;
    EntriesApart(slots);
    EntriesCome(slots);
    FillIsPut(slots);
    var es := Entries(slots);
    PrefixFreeWrites(es);
    var f := FillAll(slots).value;
    forall s | s in slots ensures ReadAt(Obj(f), s.ptr) == s.value {
      var at := Target(s.ptr).value;
      if s.value.Some? {
        assert Entry(at, s.value.value) in es;
        var i :| 0 <= i < |es| && es[i] == Entry(at, s.value.value);
        assert Get(Obj(f), es[i].at) == Some(es[i].value);
      } else {
        forall i | 0 <= i < |es| ensures !Comparable(es[i].at, at) {
          assert es[i] in es;
          var t :| t in slots && t.value.Some? && es[i] == Entry(Target(t.ptr).value, t.value.value);
          SlotsApart(slots, s, t);
        }
      }
    }
  }

  lemma SlotsApart(slots: seq<Slot>, s: Slot, t: Slot)
    requires Apart(PtrsOf(slots)) && s in slots && t in slots && s != t
    requires Target(s.ptr).Some? && Target(t.ptr).Some?
    ensures !Comparable(Target(s.ptr).value, Target(t.ptr).value)
  {
    hide Target;
    var i :| 0 <= i < |slots| && slots[i] == s;
    var j :| 0 <= j < |slots| && slots[j] == t;
    assert PtrsOf(slots)[i] == s.ptr && PtrsOf(slots)[j] == t.ptr;
  }

  // --- the two readers -------------------------------------------------------

  datatype Stamps = Stamps(episodeId: Option<string>, asset: Option<string>, component: Option<string>,
                           fault: Option<string>)

  function ReadText(ptr: Option<string>, record: Json): Option<string> {
    if ptr.None? || ptr.value == "" then None
    else
      var found := ReadAt(record, ptr.value);
      if found.Some? && found.value.Str? && found.value.s != "" then Some(found.value.s) else None
  }

  function EpisodeStamps(decl: Option<Declarations>, record: Json): Stamps {
    if decl.None? || !record.Obj? then Stamps(None, None, None, None)
    else
      var d := decl.value;
      var episodeId := ReadText(d.episodeId, record);
      if d.episode.None? then Stamps(episodeId, None, None, None)
      else Stamps(episodeId, ReadText(Some(d.episode.value.asset), record),
                  ReadText(Some(d.episode.value.component), record), ReadText(Some(d.episode.value.fault), record))
  }

  function NonEmpty(s: string): Option<string> { if s == "" then None else Some(s) }

  /** The pointers a kind declares, in the order they are written. */
  function Pointers(decl: Declarations): seq<string>
    requires Buildable(decl)
  {
    BasePointersOf(decl) + Given(decl.trigger) + Given(decl.observedAt) + Given(decl.sources) + Given(decl.provenance)
      + Given(decl.picture)
  }

  function BasePointersOf(decl: Declarations): seq<string>
    requires Buildable(decl)
  {
    (if decl.episodeId.None? then [decl.key] else [decl.episodeId.value, decl.key])
    + [decl.labelAt, decl.owningTier.value, decl.episode.value.asset, decl.episode.value.component,
       decl.episode.value.fault]
  }

  function Given(ptr: Option<string>): seq<string> { if ptr.Some? && ptr.value != "" then [ptr.value] else [] }

  lemma PtrsConcat(a: seq<Slot>, b: seq<Slot>)
    ensures PtrsOf(a + b) == PtrsOf(a) + PtrsOf(b)
  {
  }

  lemma DeclaredPtrs(slots: seq<Slot>, ptr: Option<string>, value: Option<Json>)
    ensures PtrsOf(slots + Declared(ptr, value)) == PtrsOf(slots) + Given(ptr)
  {
    PtrsConcat(slots, Declared(ptr, value));
    assert PtrsOf(Declared(ptr, value)) == Given(ptr);
  }

  lemma SlotPointers(decl: Declarations, cm: CmState, e: Episode, c: Content)
    requires Buildable(decl)
    ensures PtrsOf(Slots(decl, cm, e, c)) == Pointers(decl)
  {
    hide LabelValue, PictureValue, PtrsOf, Declared, Given;
    var base := BaseSlots(decl, cm, e, c);
    BasePointers(decl, cm, e, c);
    var one := base + Declared(decl.trigger, Some(Str("cm_discrepancy")));
    DeclaredPtrs(base, decl.trigger, Some(Str("cm_discrepancy")));
    var two := one + Declared(decl.observedAt, Some(Str(c.observedAt)));
    DeclaredPtrs(one, decl.observedAt, Some(Str(c.observedAt)));
    var three := two + Declared(decl.sources, Some(Arr(c.sources)));
    DeclaredPtrs(two, decl.sources, Some(Arr(c.sources)));
    var four := three + Declared(decl.provenance, Some(Arr(c.provenance)));
    DeclaredPtrs(three, decl.provenance, Some(Arr(c.provenance)));
    DeclaredPtrs(four, decl.picture, PictureValue(c));
  }

  lemma BasePointers(decl: Declarations, cm: CmState, e: Episode, c: Content)
    requires Buildable(decl)
    ensures PtrsOf(BaseSlots(decl, cm, e, c)) == BasePointersOf(decl)
  {
    hide LabelValue;
    PtrsConcat(IdSlots(decl, c), FieldSlots(decl, cm, e));
    assert PtrsOf(IdSlots(decl, c)) == if decl.episodeId.None? then [decl.key] else [decl.episodeId.value, decl.key];
  }

  /** The nations a CM state names, cleaned as the gate cleans them. */
  function Audience(cm: CmState): set<string> { CleanSet([cm.originator] + cm.releasable) }

  lemma {:induction false} TextsClean(ns: seq<string>)
    ensures forall n :: n in CleanItems(Texts(ns)) <==> n in CleanSet(ns)
  {
    hide Strip, CleanItems;
    CleanItemsMeaning(Texts(ns));
    TextsAre(ns);
    forall n ensures n in CleanItems(Texts(ns)) <==> n in CleanSet(ns) {
      if n in CleanSet(ns) {
        var raw :| raw in ns && Strip(raw) != "" && n == Strip(raw);
        StripEmpty();
        assert Str(raw) in Texts(ns);
        var i :| 0 <= i < |Texts(ns)| && Texts(ns)[i] == Str(raw);
        assert CleanNation(Texts(ns)[i]) == Some(n);
      }
      if i :| 0 <= i < |Texts(ns)| && CleanNation(Texts(ns)[i]) == Some(n) {
        assert Texts(ns)[i] in Texts(ns);
      }
    }
  }

  lemma StripEmpty()
    ensures Strip("") == ""
  {
  }

  lemma {:induction false} TextsAre(ns: seq<string>)
    ensures forall v :: v in Texts(ns) <==> exists n :: n in ns && n != "" && v == Str(n)
  {
    if ns != [] {
      TextsAre(ns[..|ns| - 1]);
      assert ns == ns[..|ns| - 1] + [ns[|ns| - 1]];
    }
  }

  /** What the gate's label reader makes of the label slot. */
  function LabelRead(found: Option<Json>): Label {
    if found.Some? && found.value.Obj? then
      Label(CleanNation(At(found.value.fields, "originator_nation")),
            CleanNations(At(found.value.fields, "releasable_to")))
    else Label(None, [])
  }

  /** The CM state's own label, cleaned as the gate cleans labels. */
  function LabelOfState(cm: CmState): Label {
    Label(CleanNation(Str(cm.originator)), CleanItems(Strs(cm.releasable)))
  }

  /** Leaving out the empty codes changes nothing the gate reads. */
  lemma {:induction false} EmptyCodesDoNotCount(ns: seq<string>)
    ensures CleanItems(Texts(ns)) == CleanItems(Strs(ns))
  {
    if ns == [] {
      assert Strs(ns) == [];
    } else {
      var init, last := ns[..|ns| - 1], ns[|ns| - 1];
      EmptyCodesDoNotCount(init);
      assert Strs(ns)[..|ns| - 1] == Strs(init);
      StripEmpty();
      hide Strip;
      assert last != "" ==> Texts(ns)[..|Texts(ns)| - 1] == Texts(init);
      assert last == "" ==> Texts(ns) == Texts(init);
    }
  }

  /** The label slot reads as the CM state's own label: the same originator, the same
      releasable codes in the same order; together, its audience. */
  lemma LabelReadBack(cm: CmState)
    ensures LabelRead(LabelValue(cm)) == LabelOfState(cm)
    ensures LabelOfState(cm).EffectiveAudience() == Audience(cm)
  {
    EmptyCodesDoNotCount(cm.releasable);
    StripEmpty();
    NothingClean();
    hide Strip, CleanItems, Texts, Strs;
    TextsClean(cm.releasable);
    assert forall n :: n in Audience(cm) <==> n in CleanSet(cm.releasable) || (n == Strip(cm.originator) && n != "");
  }

  function LabelTokens(decl: Declarations): Tokens {
    if Target(decl.labelAt).Some? then Target(decl.labelAt).value else []
  }

  /** What the two readers find in an assembled record. */
  ghost predicate Recovers(decl: Declarations, cm: CmState, e: Episode, c: Content, doc: Record) {
    EpisodeStamps(Some(decl), Obj(doc))
    == Stamps(if decl.episodeId.Some? then NonEmpty(c.episodeId) else None,
              NonEmpty(e.asset), NonEmpty(e.component), NonEmpty(e.fault))
    && ExtractLabelAt(doc, LabelTokens(decl)) == LabelOfState(cm)
  }

  /** A kind whose pointers are apart: assembling never raises, every slot reads back, the
      forwarder stamps the record with the episode it came from, and the gate reads the CM
      state's own label. */
  lemma AssembledReadsBack(decl: Declarations, cm: CmState, e: Episode, c: Content)
    requires Buildable(decl) && Apart(Pointers(decl))
    ensures FillAll(Slots(decl, cm, e, c)).Some?
    ensures forall s :: s in Slots(decl, cm, e, c) ==>
              ReadAt(Obj(FillAll(Slots(decl, cm, e, c)).value), s.ptr) == s.value
    ensures Recovers(decl, cm, e, c, FillAll(Slots(decl, cm, e, c)).value)
  {
    hide FillAll, ReadAt, LabelValue, Slots, Pointers, Recovers;
    SlotPointers(decl, cm, e, c);
    FillReadsBack(Slots(decl, cm, e, c));
    SlotMembers(decl, cm, e, c);
    ReadersFind(decl, cm, e, c, FillAll(Slots(decl, cm, e, c)).value);
  }

  lemma ReadersFind(decl: Declarations, cm: CmState, e: Episode, c: Content, doc: Record)
    requires Buildable(decl) && Apart(Pointers(decl))
    requires FieldsRead(decl, cm, e, c, doc)
    ensures Recovers(decl, cm, e, c, doc)
  {
    hide Get, Parse, LabelValue, LabelOfState, CleanNation, CleanNations, Pointers;
    LabelReadBack(cm);
    ApartTargets(decl);
    assert ExtractLabelAt(doc, LabelTokens(decl)) == LabelRead(ReadAt(Obj(doc), decl.labelAt));
  }

  lemma SlotMembers(decl: Declarations, cm: CmState, e: Episode, c: Content)
    requires Buildable(decl)
    ensures Slot(decl.labelAt, LabelValue(cm)) in Slots(decl, cm, e, c)
    ensures Slot(decl.owningTier.value, Some(Str(OwningTier(cm)))) in Slots(decl, cm, e, c)
    ensures Slot(decl.key, Some(Str(if decl.episodeId.None? then c.episodeId else c.eventId))) in Slots(decl, cm, e, c)
    ensures Slot(decl.episode.value.asset, Some(Str(e.asset))) in Slots(decl, cm, e, c)
    ensures Slot(decl.episode.value.component, Some(Str(e.component))) in Slots(decl, cm, e, c)
    ensures Slot(decl.episode.value.fault, Some(Str(e.fault))) in Slots(decl, cm, e, c)
    ensures decl.episodeId.Some? ==> Slot(decl.episodeId.value, Some(Str(c.episodeId))) in Slots(decl, cm, e, c)
  {
    hide LabelValue, PictureValue, Declared, OwningTier;
    var fields, ids := FieldSlots(decl, cm, e), IdSlots(decl, c);
    assert fields[0] in fields && fields[1] in fields && fields[2] in fields && fields[3] in fields
      && fields[4] in fields;
    assert ids[|ids| - 1] in ids;
    assert decl.episodeId.Some? ==> ids[0] in ids;
    hide FieldSlots, IdSlots;
  }

  lemma ApartTargets(decl: Declarations)
    requires Buildable(decl) && Apart(Pointers(decl))
    ensures Target(decl.labelAt).Some? && decl.episode.value.asset != "" && decl.episode.value.component != ""
            && decl.episode.value.fault != "" && (decl.episodeId.Some? ==> decl.episodeId.value != "")
  {
    var ps := Pointers(decl);
    var base := BasePointersOf(decl);
    assert ps[..|base|] == base;
    forall i | 0 <= i < |base| ensures Target(base[i]).Some? {
      assert base[i] == ps[i];
    }
    hide Pointers, Given;
    var n := if decl.episodeId.None? then 1 else 2;
    assert base[n] == decl.labelAt && base[n + 2] == decl.episode.value.asset;
    assert base[n + 3] == decl.episode.value.component && base[n + 4] == decl.episode.value.fault;
    assert decl.episodeId.Some? ==> base[0] == decl.episodeId.value;
  }

  /** The label a CM state's record carries: none without a code, else the author or null, and
      the codes that are not empty. */
  ghost predicate CarriesLabel(cm: CmState, v: Option<Json>) {
    && (v.None? <==> cm.originator == "" && forall n :: n in cm.releasable ==> n == "")
    && (v.Some? ==>
          v.value.Obj? && v.value.fields.Keys == {"originator_nation", "releasable_to"}
          && v.value.fields["originator_nation"] == (if cm.originator == "" then Null else Str(cm.originator))
          && v.value.fields["releasable_to"].Arr?
          && forall item :: item in v.value.fields["releasable_to"].items <==>
               item.Str? && item.s in cm.releasable && item.s != "")
  }

  lemma LabelCarried(cm: CmState)
    ensures CarriesLabel(cm, LabelValue(cm))
  {
    TextsAre(cm.releasable);
    if n :| n in cm.releasable && n != "" { assert Str(n) in Texts(cm.releasable); }
    if Texts(cm.releasable) != [] { assert Texts(cm.releasable)[0] in Texts(cm.releasable); }
    hide Texts;
  }

  /** Where a declared pointer is given, this stands there; where it is not, nothing is owed. */
  ghost predicate Stands(doc: Record, ptr: Option<string>, v: Option<Json>) {
    ptr.Some? && ptr.value != "" ==> ReadAt(Obj(doc), ptr.value) == v
  }

  /** A whole record, pointer by pointer: the id, or the episode's and the event's; the label;
      the owning tier, the edge or else the region; asset, component and fault; the trigger
      word; and time, sources, provenance and picture as they were computed, an empty picture
      not at all. */
  lemma RecordReads(decl: Declarations, cm: CmState, e: Episode, c: Content)
    requires Buildable(decl) && Apart(Pointers(decl))
    ensures FillAll(Slots(decl, cm, e, c)).Some?
    ensures var doc := FillAll(Slots(decl, cm, e, c)).value;
            && (decl.episodeId.None? ==> ReadAt(Obj(doc), decl.key) == Some(Str(c.episodeId)))
            && (decl.episodeId.Some? ==>
                  ReadAt(Obj(doc), decl.episodeId.value) == Some(Str(c.episodeId))
                  && ReadAt(Obj(doc), decl.key) == Some(Str(c.eventId)))
            && CarriesLabel(cm, ReadAt(Obj(doc), decl.labelAt))
            && ReadAt(Obj(doc), decl.owningTier.value) == Some(Str(if cm.edge == "" then cm.region else cm.edge))
            && ReadAt(Obj(doc), decl.episode.value.asset) == Some(Str(e.asset))
            && ReadAt(Obj(doc), decl.episode.value.component) == Some(Str(e.component))
            && ReadAt(Obj(doc), decl.episode.value.fault) == Some(Str(e.fault))
            && Stands(doc, decl.trigger, Some(Str("cm_discrepancy")))
            && Stands(doc, decl.observedAt, Some(Str(c.observedAt)))
            && Stands(doc, decl.sources, Some(Arr(c.sources)))
            && Stands(doc, decl.provenance, Some(Arr(c.provenance)))
            && Stands(doc, decl.picture, if c.picture == map[] then None else Some(Obj(c.picture)))
  {
    hide FillAll, ReadAt, LabelValue, Slots, Pointers, Recovers, CarriesLabel;
    AssembledReadsBack(decl, cm, e, c);
    AllSlots(decl, cm, e, c);
    SlotMembers(decl, cm, e, c);
    LabelCarried(cm);
    var doc, slots := FillAll(Slots(decl, cm, e, c)).value, Slots(decl, cm, e, c);
    DeclaredStands(doc, slots, decl.trigger, Some(Str("cm_discrepancy")));
    DeclaredStands(doc, slots, decl.observedAt, Some(Str(c.observedAt)));
    DeclaredStands(doc, slots, decl.sources, Some(Arr(c.sources)));
    DeclaredStands(doc, slots, decl.provenance, Some(Arr(c.provenance)));
    DeclaredStands(doc, slots, decl.picture, PictureValue(c));
  }

  lemma DeclaredStands(doc: Record, slots: seq<Slot>, ptr: Option<string>, v: Option<Json>)
    requires forall s :: s in slots ==> ReadAt(Obj(doc), s.ptr) == s.value
    requires forall s :: s in Declared(ptr, v) ==> s in slots
    ensures Stands(doc, ptr, v)
  {
    hide ReadAt;
    if ptr.Some? && ptr.value != "" { assert Declared(ptr, v)[0] in slots; }
  }

  lemma AllSlots(decl: Declarations, cm: CmState, e: Episode, c: Content)
    requires Buildable(decl)
    ensures forall s :: s in Declared(decl.trigger, Some(Str("cm_discrepancy"))) ==> s in Slots(decl, cm, e, c)
    ensures forall s :: s in Declared(decl.observedAt, Some(Str(c.observedAt))) ==> s in Slots(decl, cm, e, c)
    ensures forall s :: s in Declared(decl.sources, Some(Arr(c.sources))) ==> s in Slots(decl, cm, e, c)
    ensures forall s :: s in Declared(decl.provenance, Some(Arr(c.provenance))) ==> s in Slots(decl, cm, e, c)
    ensures forall s :: s in Declared(decl.picture, PictureValue(c)) ==> s in Slots(decl, cm, e, c)
  {
    hide Declared, PictureValue, IdSlots, FieldSlots, LabelValue;
  }

  /** A stamp is the non-empty text at its declared pointer, and nothing else is: without
      declarations, or for what is no record, there are none, and the three of the episode
      need its declaration. */
  lemma StampsExactly(decl: Option<Declarations>, record: Json, text: string)
    ensures EpisodeStamps(decl, record).episodeId == Some(text) <==>
              decl.Some? && record.Obj? && decl.value.episodeId.Some?
              && IsTextAt(record, decl.value.episodeId.value, text)
    ensures EpisodeStamps(decl, record).asset == Some(text) <==>
              decl.Some? && record.Obj? && decl.value.episode.Some?
              && IsTextAt(record, decl.value.episode.value.asset, text)
    ensures EpisodeStamps(decl, record).component == Some(text) <==>
              decl.Some? && record.Obj? && decl.value.episode.Some?
              && IsTextAt(record, decl.value.episode.value.component, text)
    ensures EpisodeStamps(decl, record).fault == Some(text) <==>
              decl.Some? && record.Obj? && decl.value.episode.Some?
              && IsTextAt(record, decl.value.episode.value.fault, text)
  {
    hide ReadAt;
  }

  predicate IsTextAt(record: Json, ptr: string, text: string) {
    ptr != "" && ReadAt(record, ptr) == Some(Str(text)) && text != ""
  }

  // --- an arrival's record ---------------------------------------------------

  /** Nothing but objects on the way to any of the pointers. */
  ghost predicate Clear(doc: Record, ptrs: seq<string>)
    requires Apart(ptrs)
  {
    forall i, n :: 0 <= i < |ptrs| && 0 < n < |Target(ptrs[i]).value|
                   ==> Passable(Get(Obj(doc), Target(ptrs[i]).value[..n]))
  }

  lemma FilledIsClear(slots: seq<Slot>)
    requires Apart(PtrsOf(slots))
    ensures FillAll(slots).Some? && Clear(FillAll(slots).value, PtrsOf(slots))
  {
    hide FillAll, Get, Target;
    FillReadsBack(slots);
    EntriesCome(slots);
    var doc, ptrs, es := FillAll(slots).value, PtrsOf(slots), Entries(slots);
    forall i, n | 0 <= i < |ptrs| && 0 < n < |Target(ptrs[i]).value|
      ensures Passable(Get(Obj(doc), Target(ptrs[i]).value[..n]))
    {
      var at := Target(ptrs[i]).value;
      forall k | 0 <= k < |es| ensures !(es[k].at <= at[..n]) {
        assert es[k] in es;
        var t :| t in slots && t.value.Some? && es[k] == Entry(Target(t.ptr).value, t.value.value);
        var j :| 0 <= j < |slots| && slots[j] == t;
        assert ptrs[j] == t.ptr;
        StillApart(ptrs, j, i, n);
      }
    }
  }

  /** Writing again at a declared pointer replaces what was there and nothing else. */
  lemma ReplaceOne(doc: Record, ptrs: seq<string>, i: nat, v: Json)
    requires Apart(ptrs) && Clear(doc, ptrs) && i < |ptrs|
    ensures SetAt(doc, ptrs[i], v).Some? && Clear(SetAt(doc, ptrs[i], v).value, ptrs)
    ensures forall j :: 0 <= j < |ptrs| ==>
              ReadAt(Obj(SetAt(doc, ptrs[i], v).value), ptrs[j])
              == if j == i then Some(v) else ReadAt(Obj(doc), ptrs[j])
  {
    var at := Target(ptrs[i]).value;
    TargetMoves(ptrs[i]);
    PutSucceeds(doc, at, v);
    GetAfterPut(doc, at, v);
    hide Get, Put, Parse;
    var next := Put(doc, at, v).value;
    forall j | 0 <= j < |ptrs| && j != i
      ensures Get(Obj(next), Target(ptrs[j]).value) == Get(Obj(doc), Target(ptrs[j]).value)
    {
      PutFrame(doc, at, v, Target(ptrs[j]).value);
    }
    forall j, n | 0 <= j < |ptrs| && 0 < n < |Target(ptrs[j]).value|
      ensures Passable(Get(Obj(next), Target(ptrs[j]).value[..n]))
    {
      var to := Target(ptrs[j]).value;
      assert to == to[..n] + to[n..];
      if to[..n] <= at && to[..n] != at {
        assert at[..n] == to[..n];
        PutPath(doc, at, v, n);
      } else {
        assert !(at <= to[..n]) by { StillApart(ptrs, i, j, n); }
        PutFrame(doc, at, v, to[..n]);
      }
    }
  }

  lemma StillApart(ptrs: seq<string>, i: nat, j: nat, n: nat)
    requires Apart(ptrs) && i < |ptrs| && j < |ptrs| && n < |Target(ptrs[j]).value|
    ensures !(Target(ptrs[i]).value <= Target(ptrs[j]).value[..n])
  {
    hide Target;
    var at, to := Target(ptrs[i]).value, Target(ptrs[j]).value;
    assert to == to[..n] + to[n..];
  }

  /** An arrival's record: the episode's record with one more provenance entry and, where
      events have ids of their own, the arrival's id at the key. */
  function ArrivalRecord(decl: Declarations, doc: Record, arrivalId: string, entry: Json): Option<Record> {
    var first :=
      if decl.provenance.None? || decl.provenance.value == "" then Some(doc)
      else
        var found := ReadAt(Obj(doc), decl.provenance.value);
        SetAt(doc, decl.provenance.value,
              Arr((if found.Some? && found.value.Arr? then found.value.items else []) + [entry]));
    if first.None? || decl.episodeId.None? then first else SetAt(first.value, decl.key, Str(arrivalId))
  }

  /** Every fixed field, read at its pointer. */
  ghost predicate FieldsRead(decl: Declarations, cm: CmState, e: Episode, c: Content, doc: Record)
    requires Buildable(decl)
  {
    && ReadAt(Obj(doc), decl.labelAt) == LabelValue(cm)
    && ReadAt(Obj(doc), decl.episode.value.asset) == Some(Str(e.asset))
    && ReadAt(Obj(doc), decl.episode.value.component) == Some(Str(e.component))
    && ReadAt(Obj(doc), decl.episode.value.fault) == Some(Str(e.fault))
    && (decl.episodeId.Some? ==> ReadAt(Obj(doc), decl.episodeId.value) == Some(Str(c.episodeId)))
  }

  /** Writing again at the key or at the provenance leaves the fixed fields and the other one. */
  lemma ReplaceKeepsFields(decl: Declarations, cm: CmState, e: Episode, c: Content, doc: Record, i: nat, v: Json)
    requires Buildable(decl) && Apart(Pointers(decl)) && Clear(doc, Pointers(decl)) && FieldsRead(decl, cm, e, c, doc)
    requires i < |Pointers(decl)| && (i == ProvenanceAt(decl) || (i == KeyAt(decl) && decl.episodeId.Some?))
    ensures var out := SetAt(doc, Pointers(decl)[i], v);
            && out.Some? && Clear(out.value, Pointers(decl)) && FieldsRead(decl, cm, e, c, out.value)
            && ReadAt(Obj(out.value), Pointers(decl)[i]) == Some(v)
            && (i == ProvenanceAt(decl) ==> ReadAt(Obj(out.value), decl.key) == ReadAt(Obj(doc), decl.key))
            && (i == KeyAt(decl) && ProvenanceAt(decl) < |Pointers(decl)| ==>
                  ReadAt(Obj(out.value), decl.provenance.value) == ReadAt(Obj(doc), decl.provenance.value))
  {
    hide ReadAt, SetAt, LabelValue, Pointers, ProvenanceAt, Clear;
    PointerPlaces(decl);
    ReplaceOne(doc, Pointers(decl), i, v);
  }

  lemma AssembledFields(decl: Declarations, cm: CmState, e: Episode, c: Content)
    requires Buildable(decl) && Apart(Pointers(decl))
    ensures FillAll(Slots(decl, cm, e, c)).Some?
    ensures var doc := FillAll(Slots(decl, cm, e, c)).value;
            && FieldsRead(decl, cm, e, c, doc) && Clear(doc, Pointers(decl))
            && ReadAt(Obj(doc), decl.key) == Some(Str(if decl.episodeId.Some? then c.eventId else c.episodeId))
            && (decl.provenance.Some? && decl.provenance.value != "" ==>
                  ReadAt(Obj(doc), decl.provenance.value) == Some(Arr(c.provenance)))
  {
    hide FillAll, ReadAt, LabelValue, Slots, Pointers, Clear;
    var slots := Slots(decl, cm, e, c);
    SlotPointers(decl, cm, e, c);
    FillReadsBack(slots);
    FilledIsClear(slots);
    SlotMembers(decl, cm, e, c);
    KeySlots(decl, cm, e, c);
  }

  /** The re-send of an episode stamps and releases like the episode, says its own id, and
      adds to the provenance without losing any of it. */
  lemma ArrivalReadsBack(decl: Declarations, cm: CmState, e: Episode, c: Content, arrivalId: string, entry: Json)
    requires Buildable(decl) && Apart(Pointers(decl))
    ensures FillAll(Slots(decl, cm, e, c)).Some?
    ensures var out := ArrivalRecord(decl, FillAll(Slots(decl, cm, e, c)).value, arrivalId, entry);
            && out.Some? && Recovers(decl, cm, e, c, out.value)
            && ReadAt(Obj(out.value), decl.key) == Some(Str(if decl.episodeId.Some? then arrivalId else c.episodeId))
            && (decl.provenance.Some? && decl.provenance.value != "" ==>
                  ReadAt(Obj(out.value), decl.provenance.value) == Some(Arr(c.provenance + [entry])))
  {
    hide FillAll, ReadAt, SetAt, Slots, Pointers, Recovers, Clear, FieldsRead, ProvenanceAt;
    AssembledFields(decl, cm, e, c);
    var doc, ps := FillAll(Slots(decl, cm, e, c)).value, Pointers(decl);
    PointerPlaces(decl);
    var first := doc;
    if ProvenanceAt(decl) < |ps| {
      ReplaceKeepsFields(decl, cm, e, c, doc, ProvenanceAt(decl), Arr(c.provenance + [entry]));
      first := SetAt(doc, decl.provenance.value, Arr(c.provenance + [entry])).value;
    }
    var next := first;
    if decl.episodeId.Some? {
      ReplaceKeepsFields(decl, cm, e, c, first, KeyAt(decl), Str(arrivalId));
      next := SetAt(first, decl.key, Str(arrivalId)).value;
    }
    assert ArrivalRecord(decl, doc, arrivalId, entry) == Some(next);
    ReadersFind(decl, cm, e, c, next);
  }

  function KeyAt(decl: Declarations): nat { if decl.episodeId.None? then 0 else 1 }

  function ProvenanceAt(decl: Declarations): nat
    requires Buildable(decl)
  {
    if decl.provenance.None? || decl.provenance.value == "" then |Pointers(decl)|
    else |BasePointersOf(decl)| + |Given(decl.trigger)| + |Given(decl.observedAt)| + |Given(decl.sources)|
  }

  lemma KeySlots(decl: Declarations, cm: CmState, e: Episode, c: Content)
    requires Buildable(decl)
    ensures Slot(decl.key, Some(Str(if decl.episodeId.Some? then c.eventId else c.episodeId))) in Slots(decl, cm, e, c)
    ensures decl.provenance.Some? && decl.provenance.value != "" ==>
              Slot(decl.provenance.value, Some(Arr(c.provenance))) in Slots(decl, cm, e, c)
  {
    hide LabelValue, PictureValue, FieldSlots;
    var ids := IdSlots(decl, c);
    assert ids[|ids| - 1] in ids;
    hide IdSlots;
    assert decl.provenance.Some? && decl.provenance.value != "" ==>
        Declared(decl.provenance, Some(Arr(c.provenance)))[0] == Slot(decl.provenance.value, Some(Arr(c.provenance)));
    hide Declared;
  }

  /** Where the fixed fields stand in a kind's list of pointers. */
  lemma PointerPlaces(decl: Declarations)
    requires Buildable(decl)
    ensures var ps, k := Pointers(decl), KeyAt(decl);
            && |ps| > k + 5 && ps[k] == decl.key && ps[k + 1] == decl.labelAt
            && ps[k + 3] == decl.episode.value.asset && ps[k + 4] == decl.episode.value.component
            && ps[k + 5] == decl.episode.value.fault && (decl.episodeId.Some? ==> ps[0] == decl.episodeId.value)
            && k + 5 < ProvenanceAt(decl)
            && (ProvenanceAt(decl) < |ps| ==> decl.provenance.Some? && decl.provenance.value != ""
                                               && ps[ProvenanceAt(decl)] == decl.provenance.value)
            && (decl.provenance.Some? && decl.provenance.value != "" ==> ProvenanceAt(decl) < |ps|)
  {
    var base := BasePointersOf(decl);
    var before := base + Given(decl.trigger) + Given(decl.observedAt) + Given(decl.sources);
    assert Pointers(decl) == before + Given(decl.provenance) + Given(decl.picture);
    assert Pointers(decl)[..|base|] == base;
    assert forall i :: 0 <= i < |base| ==> Pointers(decl)[i] == base[i];
  }
}
