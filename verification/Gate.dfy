/** The egress gate (egress/gate.py): what a record's label is, which nations it reaches,
    and the one decision made about every record. */
module Gate {
  import opened Options
  import opened Pointer

  type Record = map<string, Json>

  // --- nation codes ----------------------------------------------------------

  /** What `str.strip` removes. */
  predicate IsSpace(c: char) {
    var n := c as int;
    9 <= n <= 13 || 28 <= n <= 32 || n == 0x85 || n == 0xA0 || n == 0x1680 || 0x2000 <= n <= 0x200A
    || n == 0x2028 || n == 0x2029 || n == 0x202F || n == 0x205F || n == 0x3000
  }

  /** Python's 29 blanks, one by one. */
  const BLANKS: string :=
    "\t\n\U{0B}\U{0C}\r\U{1C}\U{1D}\U{1E}\U{1F} \U{85}\U{A0}\U{1680}\U{2000}\U{2001}\U{2002}\U{2003}\U{2004}\U{2005}"
    + "\U{2006}\U{2007}\U{2008}\U{2009}\U{200A}\U{2028}\U{2029}\U{202F}\U{205F}\U{3000}"

  lemma BlanksExactly(c: char)
    ensures IsSpace(c) <==> c in BLANKS
    ensures |BLANKS| == 29
  {
    var n := c as int;
    var i := if n <= 13 then n - 9 else if n <= 32 then n - 23 else if n == 0x85 then 10 else if n == 0xA0 then 11
             else if n == 0x1680 then 12 else if n <= 0x200A then n - 0x2000 + 13 else if n == 0x2028 then 24
             else if n == 0x2029 then 25 else if n == 0x202F then 26 else if n == 0x205F then 27 else 28;
    if IsSpace(c) { assert BLANKS[i] == c; }
  }

  function StripLeft(s: string): (t: string)
    ensures t != "" ==> !IsSpace(t[0])
  {
    if s != "" && IsSpace(s[0]) then StripLeft(s[1..]) else s
  }

  function StripRight(s: string): (t: string)
    ensures t <= s
    ensures t != "" ==> !IsSpace(t[|t| - 1])
  {
    if s != "" && IsSpace(s[|s| - 1]) then StripRight(s[..|s| - 1]) else s
  }

  function Strip(s: string): (t: string)
    ensures t != "" ==> !IsSpace(t[0]) && !IsSpace(t[|t| - 1])
  {
    StripRight(StripLeft(s))
  }

  lemma StripTwice(s: string)
    ensures Strip(Strip(s)) == Strip(s)
  {
  }

  predicate Blank(s: string) { forall i :: 0 <= i < |s| ==> IsSpace(s[i]) }

  /** Stripping takes blanks off both ends and nothing else, so blank text leaves nothing. */
  lemma StripMeans(s: string) returns (before: string, after: string)
    ensures s == before + Strip(s) + after && Blank(before) && Blank(after)
    ensures Strip(s) == "" <==> Blank(s)
  {
    before := StripLeftMeans(s);
    after := StripRightMeans(StripLeft(s));
    assert s == before + Strip(s) + after;
    if Strip(s) != "" { assert s[|before|] == Strip(s)[0]; }
    if Strip(s) == "" { assert s == before + after; }
    hide IsSpace;
  }

  lemma {:induction false} StripLeftMeans(s: string) returns (before: string)
    ensures s == before + StripLeft(s) && Blank(before)
  {
    hide IsSpace;
    if s != "" && IsSpace(s[0]) {
      before := StripLeftMeans(s[1..]);
      before := [s[0]] + before;
      assert s == [s[0]] + s[1..];
    } else {
      before := "";
    }
  }

  lemma {:induction false} StripRightMeans(s: string) returns (after: string)
    ensures s == StripRight(s) + after && Blank(after)
  {
    hide IsSpace;
    if s != "" && IsSpace(s[|s| - 1]) {
      after := StripRightMeans(s[..|s| - 1]);
      after := after + [s[|s| - 1]];
      assert s == s[..|s| - 1] + [s[|s| - 1]];
    } else {
      after := "";
    }
  }

  /** `at` with Python's default of None. */
  function At(f: Record, key: string): Json { if key in f then f[key] else Null }

  function FieldsOf(v: Json): Record { if v.Obj? then v.fields else map[] }

  function CleanNation(v: Json): (nation: Option<string>)
    ensures nation.Some? ==> nation.value != "" && Strip(nation.value) == nation.value
  {
    if v.Str? && Strip(v.s) != "" then StripTwice(v.s); Some(Strip(v.s)) else None
  }

  /** The cleaned codes of a list, each once, in order of first appearance. */
  function CleanItems(items: seq<Json>): seq<string> {
    if items == [] then []
    else
      var before, nation := CleanItems(items[..|items| - 1]), CleanNation(items[|items| - 1]);
      if nation.Some? && nation.value !in before then before + [nation.value] else before
  }

  function CleanNations(v: Json): seq<string> { if v.Arr? then CleanItems(v.items) else [] }

  lemma {:induction false} CleanItemsMeaning(items: seq<Json>)
    ensures forall n :: n in CleanItems(items) <==> exists i :: 0 <= i < |items| && CleanNation(items[i]) == Some(n)
    ensures forall i, j :: 0 <= i < j < |CleanItems(items)| ==> CleanItems(items)[i] != CleanItems(items)[j]
  {
    hide CleanNation;
    if items != [] {
      var init, last := items[..|items| - 1], items[|items| - 1];
      CleanItemsMeaning(init);
      assert items == init + [last];
      forall n ensures n in CleanItems(items) <==> exists i :: 0 <= i < |items| && CleanNation(items[i]) == Some(n) {
        if n in CleanItems(init) {
          var i :| 0 <= i < |init| && CleanNation(init[i]) == Some(n);
          assert CleanNation(items[i]) == Some(n);
        }
        if i :| 0 <= i < |items| && CleanNation(items[i]) == Some(n) {
          if i < |init| { assert CleanNation(init[i]) == Some(n); }
        }
      }
    }
  }

  function Strs(ns: seq<string>): seq<Json> { seq(|ns|, i requires 0 <= i < |ns| => Str(ns[i])) }

  lemma NothingClean()
    ensures CleanItems([]) == []
  {
  }

  // --- labels ----------------------------------------------------------------

  datatype Label = Label(originator: Option<string>, releasable: seq<string>) {
    function EffectiveAudience(): set<string> {
      (set n | n in releasable) + (if originator.Some? && originator.value != "" then {originator.value} else {})
    }

    predicate IsLabelled() { (originator.Some? && originator.value != "") || releasable != [] }
  }

  function OrElse(a: Option<string>, b: Option<string>): Option<string> { if a.Some? then a else b }

  function OrList(a: seq<string>, b: seq<string>): seq<string> { if a != [] then a else b }

  function ExtractLabel(r: Record): Label {
    var prov := FieldsOf(At(r, "provenance"));
    Label(
      OrElse(CleanNation(At(r, "originator_nation")),
             OrElse(CleanNation(At(prov, "originator_nation")), CleanNation(At(prov, "originatorNation")))),
      OrList(CleanNations(At(r, "releasable_to")),
             OrList(CleanNations(At(prov, "releasable_to")), CleanNations(At(prov, "releasableTo")))))
  }

  /** The label at a declared pointer; nothing there, or no object there, is unlabelled. */
  function ExtractLabelAt(r: Record, at: Tokens): Label {
    var found := Get(Obj(r), at);
    if found.Some? && found.value.Obj? then
      Label(CleanNation(At(found.value.fields, "originator_nation")),
            CleanNations(At(found.value.fields, "releasable_to")))
    else Label(None, [])
  }

  /** A marking this gate does not evaluate. */
  function Classification(r: Record): Option<string> {
    OrElse(CleanNation(At(r, "classification")), CleanNation(At(FieldsOf(At(r, "provenance")), "classification")))
  }

  /** The value under a key is text with something in it besides blanks. */
  predicate HasText(f: Record, key: string) {
    key in f && f[key].Str? && exists i :: 0 <= i < |f[key].s| && !IsSpace(f[key].s[i])
  }

  /** The value under a key reads as a nation code: that text without the blanks around it. */
  predicate Reads(f: Record, key: string, nation: string) {
    key in f && f[key].Str? && nation == Strip(f[key].s) && nation != ""
  }

  /** Some entry of the list under a key reads as that nation code. */
  predicate Lists(f: Record, key: string, nation: string) {
    key in f && f[key].Arr?
    && exists i :: 0 <= i < |f[key].items| && f[key].items[i].Str? && nation == Strip(f[key].items[i].s) && nation != ""
  }

  /** What stands under `provenance`, if it is an object. */
  predicate Prov(r: Record, f: Record) { "provenance" in r && r["provenance"].Obj? && r["provenance"].fields == f }

  lemma CleanNationMeans(f: Record, key: string)
    ensures CleanNation(At(f, key)).Some? <==> HasText(f, key)
    ensures forall n :: CleanNation(At(f, key)) == Some(n) <==> Reads(f, key, n)
  {
    if key in f && f[key].Str? {
      var before, after := StripMeans(f[key].s);
      hide Strip, IsSpace;
    }
  }

  lemma CleanNationsMean(f: Record, key: string)
    ensures forall n :: n in CleanNations(At(f, key)) <==> Lists(f, key, n)
  {
    NothingClean();
    if key in f && f[key].Arr? { CleanItemsMeaning(f[key].items); }
    hide Strip, CleanItems;
  }

  /** A record is marked exactly when it has text under `classification`, at the top or under
      `provenance`. */
  lemma MarkedExactly(r: Record)
    ensures Classification(r).Some? <==>
              HasText(r, "classification") || exists f :: Prov(r, f) && HasText(f, "classification")
  {
    CleanNationMeans(r, "classification");
    CleanNationMeans(FieldsOf(At(r, "provenance")), "classification");
    hide Strip, CleanNation, IsSpace;
    assert HasText(FieldsOf(At(r, "provenance")), "classification") ==> Prov(r, FieldsOf(At(r, "provenance")));
  }

  /** A record's originator: the first that reads as a code of its own, the two under
      `provenance`. */
  lemma OriginatorMeans(r: Record, n: string)
    ensures ExtractLabel(r).originator == Some(n) <==>
              Reads(r, "originator_nation", n)
              || (!HasText(r, "originator_nation")
                  && exists f :: Prov(r, f)
                       && (Reads(f, "originator_nation", n)
                           || (!HasText(f, "originator_nation") && Reads(f, "originatorNation", n))))
  {
    var f := FieldsOf(At(r, "provenance"));
    CleanNationMeans(r, "originator_nation");
    CleanNationMeans(f, "originator_nation");
    CleanNationMeans(f, "originatorNation");
    hide Strip, CleanNation, IsSpace, CleanItems;
    assert Reads(f, "originator_nation", n) || Reads(f, "originatorNation", n) ==> Prov(r, f);
  }

  /** Its releasable codes: those of the first of the three lists that has any. */
  lemma ReleasableMeans(r: Record, n: string)
    ensures n in ExtractLabel(r).releasable <==>
              Lists(r, "releasable_to", n)
              || ((forall m :: !Lists(r, "releasable_to", m))
                  && exists f :: Prov(r, f)
                       && (Lists(f, "releasable_to", n)
                           || ((forall m :: !Lists(f, "releasable_to", m)) && Lists(f, "releasableTo", n))))
  {
    var f := FieldsOf(At(r, "provenance"));
    var a, b, d := CleanNations(At(r, "releasable_to")), CleanNations(At(f, "releasable_to")),
                   CleanNations(At(f, "releasableTo"));
    CleanNationsMean(r, "releasable_to");
    CleanNationsMean(f, "releasable_to");
    CleanNationsMean(f, "releasableTo");
    assert ExtractLabel(r).releasable == if a != [] then a else if b != [] then b else d;
    hide Lists, CleanNations, ExtractLabel;
    assert a == [] <==> forall m :: m !in a by { if a != [] { assert a[0] in a; } }
    assert b == [] <==> forall m :: m !in b by { if b != [] { assert b[0] in b; } }
    assert Prov(r, f) || f == map[];
    assert forall m :: !Lists(map[], "releasable_to", m) && !Lists(map[], "releasableTo", m) by { NoLists(); }
  }

  lemma NoLists()
    ensures forall m, key :: !Lists(map[], key, m)
  {
  }

  /** A label at a declared place is what the object there says, and nothing without one. */
  lemma LabelAtMeans(r: Record, at: Tokens)
    ensures forall n :: ExtractLabelAt(r, at).originator == Some(n) <==>
              Get(Obj(r), at).Some? && Get(Obj(r), at).value.Obj?
              && Reads(Get(Obj(r), at).value.fields, "originator_nation", n)
    ensures forall n :: n in ExtractLabelAt(r, at).releasable <==>
              Get(Obj(r), at).Some? && Get(Obj(r), at).value.Obj?
              && Lists(Get(Obj(r), at).value.fields, "releasable_to", n)
  {
    var found := Get(Obj(r), at);
    if found.Some? && found.value.Obj? {
      CleanNationMeans(found.value.fields, "originator_nation");
      CleanNationsMean(found.value.fields, "releasable_to");
    }
    hide Get, Strip, CleanNation, CleanItems;
  }

  datatype Class = Classified | Unlabelled | AuthoredWithRelease | AuthoredNoRelease | AggregateReleased
                 | AggregateEmpty

  function ClassifyLabel(l: Label): Class {
    if !l.IsLabelled() then Unlabelled
    else if l.originator.Some? && l.originator.value != "" then
      if l.releasable != [] then AuthoredWithRelease else AuthoredNoRelease
    else if l.releasable != [] then AggregateReleased
    else AggregateEmpty
  }

  // --- the compiled predicate ------------------------------------------------

  function CleanSet(nations: seq<string>): set<string> {
    set n | n in nations && Strip(n) != "" :: Strip(n)
  }

  predicate Admits(nations: seq<string>, l: Label) {
    var allowed := CleanSet(nations);
    allowed != {}
    && ((l.originator.Some? && l.originator.value != "" && l.originator.value in allowed)
        || exists n :: n in l.releasable && n in allowed)
  }

  /** The two clauses are one question: does the effective audience meet the nations? */
  lemma AdmitsIsOverlap(nations: seq<string>, l: Label)
    ensures Admits(nations, l) <==> l.EffectiveAudience() * CleanSet(nations) != {}
    ensures Admits(nations, l) ==> l.IsLabelled()
  {
    var allowed := CleanSet(nations);
    if n :| n in l.EffectiveAudience() * allowed { assert n in allowed; }
    if Admits(nations, l) {
      if n :| n in l.releasable && n in allowed {
        assert n in l.EffectiveAudience() * allowed;
      } else {
        assert l.originator.value in l.EffectiveAudience() * allowed;
      }
    }
  }

  // --- the gate --------------------------------------------------------------

  datatype Reason = Admit | DestinationUnknown | KindNotAccepted | SchemaInvalid | Marked | NoLabel | NoOverlap

  /** What a gate is built with; it never changes. `valid` stands for the kind's schema. */
  datatype Terms = Terms(nations: seq<string>, known: bool, accepts: seq<string>,
                         kind: Option<string>, valid: Option<Record -> bool>, labelAt: Option<Tokens>)

  function LabelOf(t: Terms, r: Record): Label {
    if t.labelAt.Some? then ExtractLabelAt(r, t.labelAt.value) else ExtractLabel(r)
  }

  function ClassOf(t: Terms, r: Record): Class {
    if Classification(r).Some? then Classified else ClassifyLabel(LabelOf(t, r))
  }

  function ReasonFor(t: Terms, r: Record): Reason {
    if !t.known then DestinationUnknown
    else if t.kind.Some? && t.kind.value !in t.accepts then KindNotAccepted
    else if t.valid.Some? && !t.valid.value(r) then SchemaInvalid
    else if Classification(r).Some? then Marked
    else if !LabelOf(t, r).IsLabelled() then NoLabel
    else if Admits(t.nations, LabelOf(t, r)) then Admit
    else NoOverlap
  }

  lemma AdmittedByAudience(t: Terms, r: Record)
    ensures ReasonFor(t, r) == Admit <==>
              && t.known
              && (t.kind.None? || t.kind.value in t.accepts)
              && (t.valid.None? || t.valid.value(r))
              && Classification(r).None?
              && LabelOf(t, r).EffectiveAudience() * CleanSet(t.nations) != {}
    ensures ReasonFor(t, r) == Admit ==> ClassOf(t, r) in {AuthoredWithRelease, AuthoredNoRelease, AggregateReleased}
    ensures ClassOf(t, r) != AggregateEmpty
    ensures ReasonFor(t, r) == NoLabel ==> ClassOf(t, r) == Unlabelled
  {
    AdmitsIsOverlap(t.nations, LabelOf(t, r));
  }

  ghost predicate IsMarked(r: Record) {
    HasText(r, "classification") || exists f :: Prov(r, f) && HasText(f, "classification")
  }

  /** A code in the label the gate reads: at the place declared for it, if there is one. */
  predicate Named(t: Terms, r: Record, n: string) {
    var l := if t.labelAt.Some? then ExtractLabelAt(r, t.labelAt.value) else ExtractLabel(r);
    l.originator == Some(n) || n in l.releasable
  }

  /** One of the destination's nations, stripped, is a code of the label. */
  ghost predicate Reaches(t: Terms, r: Record) {
    exists i :: 0 <= i < |t.nations| && Strip(t.nations[i]) != "" && Named(t, r, Strip(t.nations[i]))
  }

  /** A record passes the schema, carries no marking and reaches one of the nations. */
  ghost predicate Deserves(t: Terms, r: Record) {
    (t.valid.None? || t.valid.value(r)) && !IsMarked(r) && Reaches(t, r)
  }

  predicate Accepts(t: Terms) { t.kind.None? || t.kind.value in t.accepts }

  lemma LabelCodes(t: Terms, r: Record)
    ensures forall n :: n in LabelOf(t, r).EffectiveAudience() <==> Named(t, r, n)
    ensures LabelOf(t, r).IsLabelled() <==> exists n :: Named(t, r, n)
    ensures LabelOf(t, r).originator.Some? ==> LabelOf(t, r).originator.value != ""
  {
    hide Strip, CleanItems, Get;
    var l := LabelOf(t, r);
    assert l.originator.Some? ==> l.originator.value != "" && Named(t, r, l.originator.value);
    if l.releasable != [] { assert l.releasable[0] in l.releasable && Named(t, r, l.releasable[0]); }
  }

  lemma ReachesIsOverlap(t: Terms, r: Record)
    ensures Reaches(t, r) <==> LabelOf(t, r).EffectiveAudience() * CleanSet(t.nations) != {}
  {
    LabelCodes(t, r);
    hide Strip, LabelOf, Named;
    var both := LabelOf(t, r).EffectiveAudience() * CleanSet(t.nations);
    if i :| 0 <= i < |t.nations| && Strip(t.nations[i]) != "" && Named(t, r, Strip(t.nations[i])) {
      assert Strip(t.nations[i]) in both;
    }
    if n :| n in both {
      var raw :| raw in t.nations && Strip(raw) != "" && n == Strip(raw);
      var i :| 0 <= i < |t.nations| && t.nations[i] == raw;
      assert Named(t, r, Strip(t.nations[i]));
    }
  }

  /** Every verdict, in terms of the record and the terms alone: admitted exactly when every
      fence passes and a nation of the destination is named, refused by the first that fails. */
  lemma AdmittedExactly(t: Terms, r: Record)
    ensures ReasonFor(t, r) == Admit <==> t.known && Accepts(t) && Deserves(t, r)
    ensures ReasonFor(t, r) == DestinationUnknown <==> !t.known
    ensures ReasonFor(t, r) == KindNotAccepted <==> t.known && t.kind.Some? && t.kind.value !in t.accepts
    ensures ReasonFor(t, r) == SchemaInvalid <==> t.known && Accepts(t) && t.valid.Some? && !t.valid.value(r)
    ensures ReasonFor(t, r) == Marked <==>
              t.known && Accepts(t) && (t.valid.None? || t.valid.value(r)) && IsMarked(r)
    ensures ReasonFor(t, r) == NoLabel <==>
              t.known && Accepts(t) && (t.valid.None? || t.valid.value(r)) && !IsMarked(r)
              && forall n :: !Named(t, r, n)
  {
    MarkedExactly(r);
    LabelCodes(t, r);
    ReachesIsOverlap(t, r);
    AdmittedByAudience(t, r);
    hide HasText, Prov, Named, Reaches, CleanSet, Classification, LabelOf, Admits, Strip;
  }

  /** And every class: marked, without a code, and by author and released-to codes; a marked
      record's label does not matter, and an aggregate without audience cannot occur. */
  lemma ClassExactly(t: Terms, r: Record)
    ensures var l := if t.labelAt.Some? then ExtractLabelAt(r, t.labelAt.value) else ExtractLabel(r);
            ClassOf(t, r) == if IsMarked(r) then Classified
                             else if l.originator.Some? then
                               if l.releasable != [] then AuthoredWithRelease else AuthoredNoRelease
                             else if l.releasable != [] then AggregateReleased
                             else Unlabelled
  {
    MarkedExactly(r);
    LabelCodes(t, r);
    hide HasText, Prov, Named, Classification, Strip, ExtractLabel, ExtractLabelAt;
  }

  /** The shortest label object of a class that names `nation` alone. */
  function Naming(class_: Class, nation: string): Record {
    match class_
    case AuthoredWithRelease => map["originator_nation" := Str(nation), "releasable_to" := Arr([Str(nation)])]
    case AggregateReleased => map["releasable_to" := Arr([Str(nation)])]
    case _ => map["originator_nation" := Str(nation)]
  }

  function NamedLabel(class_: Class, nation: string): Label {
    match class_
    case AuthoredWithRelease => Label(Some(nation), [nation])
    case AggregateReleased => Label(None, [nation])
    case _ => Label(Some(nation), [])
  }

  /** The classes of records that can be admitted. */
  predicate Names(class_: Class) { class_ in {AuthoredWithRelease, AuthoredNoRelease, AggregateReleased} }

  lemma NamingFields(class_: Class, nation: string)
    requires Names(class_) && nation != "" && Strip(nation) == nation
    ensures var r := Naming(class_, nation);
            && CleanNation(At(r, "originator_nation")) == NamedLabel(class_, nation).originator
            && CleanNations(At(r, "releasable_to")) == NamedLabel(class_, nation).releasable
            && At(r, "provenance") == Null && At(r, "classification") == Null
  {
    hide Strip;
    var list := [Str(nation)];
    assert list[..0] == [] && CleanNation(list[0]) == Some(nation);
    assert CleanItems(list) == [nation];
  }

  lemma NamedClass(class_: Class, nation: string)
    requires Names(class_) && nation != ""
    ensures ClassifyLabel(NamedLabel(class_, nation)) == class_
    ensures NamedLabel(class_, nation).EffectiveAudience() == {nation}
  {
    assert forall n :: n in NamedLabel(class_, nation).releasable ==> n == nation;
  }

  lemma NamingLabel(class_: Class, nation: string)
    requires Names(class_) && nation != "" && Strip(nation) == nation
    ensures ExtractLabel(Naming(class_, nation)) == NamedLabel(class_, nation)
    ensures Classification(Naming(class_, nation)).None?
  {
    NamingFields(class_, nation);
    hide Strip, Naming, CleanItems;
  }

  /** A record of that class, with its label where a gate reads it. */
  function NamingAt(at: Option<Tokens>, class_: Class, nation: string): Record {
    if at.None? || at.value == [] then Naming(class_, nation)
    else
      var put := Put(map[], at.value, Obj(Naming(class_, nation)));
      if put.Some? then put.value else map[]
  }

  lemma {:induction false} PutIntoNothing(ts: Tokens, v: Json)
    requires ts != [] && v.Obj?
    ensures Put(map[], ts, v).Some? && Put(map[], ts, v).value.Keys == {ts[0]}
    ensures Put(map[], ts, v).value[ts[0]].Obj?
    ensures |ts| == 1 ==> Put(map[], ts, v).value[ts[0]] == v
    ensures |ts| > 1 ==> Put(map[], ts[1..], v).Some?
                         && Put(map[], ts, v).value[ts[0]] == Obj(Put(map[], ts[1..], v).value)
    decreases |ts|
  {
    if |ts| > 1 { PutIntoNothing(ts[1..], v); }
  }

  lemma NamingAtLabel(t: Terms, class_: Class, nation: string)
    requires Names(class_) && nation != "" && Strip(nation) == nation
    ensures LabelOf(t, NamingAt(t.labelAt, class_, nation)) == NamedLabel(class_, nation)
    ensures Classification(NamingAt(t.labelAt, class_, nation)).None?
  {
    NamingLabel(class_, nation);
    NamingFields(class_, nation);
    if t.labelAt.Some? && t.labelAt.value != [] {
      var ts, v := t.labelAt.value, Obj(Naming(class_, nation));
      PutIntoNothing(ts, v);
      if |ts| > 1 { PutIntoNothing(ts[1..], v); }
      GetAfterPut(map[], ts, v);
      hide Put, Get, Strip, Naming, CleanItems;
    } else {
      hide Strip, Naming, CleanItems;
    }
  }

  function Letters(n: nat): string { seq(n, i => 'A') }

  lemma LettersAreClean(n: nat)
    requires n > 0
    ensures Letters(n) != "" && Strip(Letters(n)) == Letters(n)
  {
    var s := Letters(n);
    assert s[0] == 'A' && s[|s| - 1] == 'A' && !IsSpace('A');
    assert StripLeft(s) == s && StripRight(s) == s;
  }

  lemma {:induction false} LongerThanAll(s: set<string>) returns (n: nat)
    ensures n > 0 && forall x :: x in s ==> |x| < n
  {
    if s == {} {
      n := 1;
    } else {
      var one :| one in s;
      n := LongerThanAll(s - {one});
      if |one| >= n { n := |one| + 1; }
    }
  }

  /** A clean code no list of nations names. */
  lemma AnotherNation(nations: seq<string>) returns (other: string)
    ensures other != "" && Strip(other) == other && other !in CleanSet(nations)
  {
    var n := LongerThanAll(CleanSet(nations));
    other := Letters(n);
    LettersAreClean(n);
    assert |other| == n;
  }

  ghost predicate ClassDecides(t: Terms) {
    forall a: Record, b: Record :: ClassOf(t, a) == ClassOf(t, b) ==>
      (ReasonFor(t, a) == Admit <==> ReasonFor(t, b) == Admit)
  }

  /** For every record a gate admits there is one of the same class that it refuses, for
      its audience if the schema lets it through. */
  lemma ClassDoesNotDecide(t: Terms, a: Record) returns (b: Record)
    requires ReasonFor(t, a) == Admit
    ensures ClassOf(t, b) == ClassOf(t, a)
    ensures ReasonFor(t, b) == if t.valid.Some? && !t.valid.value(b) then SchemaInvalid else NoOverlap
  {
    var class_ := ClassOf(t, a);
    var other := AnotherNation(t.nations);
    AdmittedByAudience(t, a);
    b := NamingAt(t.labelAt, class_, other);
    NamingAtLabel(t, class_, other);
    NamedClass(class_, other);
    hide Strip, LabelOf, Classification, CleanSet, NamingAt, NamedLabel, ClassifyLabel;
    AdmitsIsOverlap(t.nations, LabelOf(t, b));
  }

  lemma CleanSetIsClean(nations: seq<string>, n: string)
    requires n in CleanSet(nations)
    ensures n != "" && Strip(n) == n
  {
    var raw :| raw in nations && Strip(raw) != "" && n == Strip(raw);
    StripTwice(raw);
  }

  /** A record's class decides its admission exactly at gates that admit nothing: those with
      an unknown destination or a kind not accepted, and those whose schema leaves no
      unmarked record with an audience among the nations. */
  lemma ClassDecidesExactly(t: Terms)
    ensures ClassDecides(t) <==> forall r: Record :: ReasonFor(t, r) != Admit
    ensures ClassDecides(t) <==>
              !t.known || (t.kind.Some? && t.kind.value !in t.accepts) || forall r: Record :: !Deserves(t, r)
  {
    forall r: Record ensures ReasonFor(t, r) == Admit <==> t.known && Accepts(t) && Deserves(t, r) {
      AdmittedExactly(t, r);
    }
    hide ReasonFor, ClassOf, Deserves;
    if a: Record :| ReasonFor(t, a) == Admit {
      var b := ClassDoesNotDecide(t, a);
      assert !ClassDecides(t);
    }
  }

  /** Without a schema those are the gates that hold no nation. */
  lemma ClassDecidesWithoutSchema(t: Terms)
    requires t.valid.None?
    ensures ClassDecides(t) <==>
              !t.known || (t.kind.Some? && t.kind.value !in t.accepts) || CleanSet(t.nations) == {}
  {
    ClassDecidesExactly(t);
    hide ClassDecides, LabelOf, Classification, CleanSet, NamingAt, NamedLabel, HasText, Prov, Reaches;
    forall r: Record | CleanSet(t.nations) == {} ensures !Deserves(t, r) { ReachesIsOverlap(t, r); }
    if n :| n in CleanSet(t.nations) {
      CleanSetIsClean(t.nations, n);
      NamingAtLabel(t, AuthoredNoRelease, n);
      NamedClass(AuthoredNoRelease, n);
      assert n in {n} * CleanSet(t.nations);
      var r := NamingAt(t.labelAt, AuthoredNoRelease, n);
      MarkedExactly(r);
      ReachesIsOverlap(t, r);
      assert Deserves(t, r);
    }
  }

  datatype Tally = OfReason(reason: Reason) | OfClass(class_: Class)

  function Bump(counts: map<Tally, nat>, key: Tally): map<Tally, nat> {
    counts[key := (if key in counts then counts[key] else 0) + 1]
  }

  function Of(counts: map<Tally, nat>, key: Tally): nat { if key in counts then counts[key] else 0 }

  function CountReasons(counts: map<Tally, nat>): nat {
    Of(counts, OfReason(Admit)) + Of(counts, OfReason(DestinationUnknown)) + Of(counts, OfReason(KindNotAccepted))
    + Of(counts, OfReason(SchemaInvalid)) + Of(counts, OfReason(Marked)) + Of(counts, OfReason(NoLabel))
    + Of(counts, OfReason(NoOverlap))
  }

  function CountClasses(counts: map<Tally, nat>): nat {
    Of(counts, OfClass(Classified)) + Of(counts, OfClass(Unlabelled)) + Of(counts, OfClass(AuthoredWithRelease))
    + Of(counts, OfClass(AuthoredNoRelease)) + Of(counts, OfClass(AggregateReleased))
  }

  lemma BumpCounts(counts: map<Tally, nat>, reason: Reason, class_: Class)
    requires class_ != AggregateEmpty
    ensures CountReasons(Bump(Bump(counts, OfReason(reason)), OfClass(class_))) == CountReasons(counts) + 1
    ensures CountClasses(Bump(Bump(counts, OfReason(reason)), OfClass(class_))) == CountClasses(counts) + 1
  {
    var once, twice := Bump(counts, OfReason(reason)), Bump(Bump(counts, OfReason(reason)), OfClass(class_));
    BumpOne(counts, OfReason(reason));
    BumpOne(once, OfClass(class_));
    hide Of, Bump;
    assert forall c :: Of(once, OfClass(c)) == Of(counts, OfClass(c));
    assert forall q :: Of(twice, OfReason(q)) == Of(once, OfReason(q));
  }

  lemma BumpOne(counts: map<Tally, nat>, key: Tally)
    ensures forall k :: Of(Bump(counts, key), k) == Of(counts, k) + if k == key then 1 else 0
  {
  }

  /** Which of the records met that verdict, and which are of that class. */
  ghost function WithReason(t: Terms, rs: seq<Record>, q: Reason): set<int> {
    set i | 0 <= i < |rs| && ReasonFor(t, rs[i]) == q
  }

  ghost function WithClass(t: Terms, rs: seq<Record>, q: Class): set<int> {
    set i | 0 <= i < |rs| && ClassOf(t, rs[i]) == q
  }

  lemma OneMoreRecord(t: Terms, rs: seq<Record>, r: Record)
    ensures forall q: Reason ::
              |WithReason(t, rs + [r], q)| == |WithReason(t, rs, q)| + if q == ReasonFor(t, r) then 1 else 0
    ensures forall q: Class ::
              |WithClass(t, rs + [r], q)| == |WithClass(t, rs, q)| + if q == ClassOf(t, r) then 1 else 0
  {
    hide ReasonFor, ClassOf, WithReason, WithClass;
    forall q: Reason
      ensures |WithReason(t, rs + [r], q)| == |WithReason(t, rs, q)| + if q == ReasonFor(t, r) then 1 else 0
    {
      OneMoreReason(t, rs, r, q);
    }
    forall q: Class
      ensures |WithClass(t, rs + [r], q)| == |WithClass(t, rs, q)| + if q == ClassOf(t, r) then 1 else 0
    {
      OneMoreClass(t, rs, r, q);
    }
  }

  lemma OneMoreReason(t: Terms, rs: seq<Record>, r: Record, q: Reason)
    ensures |WithReason(t, rs + [r], q)| == |WithReason(t, rs, q)| + if q == ReasonFor(t, r) then 1 else 0
  {
    hide ReasonFor;
    var more: set<int> := if q == ReasonFor(t, r) then {|rs|} else {};
    assert WithReason(t, rs + [r], q) == WithReason(t, rs, q) + more;
  }

  lemma OneMoreClass(t: Terms, rs: seq<Record>, r: Record, q: Class)
    ensures |WithClass(t, rs + [r], q)| == |WithClass(t, rs, q)| + if q == ClassOf(t, r) then 1 else 0
  {
    hide ClassOf;
    var more: set<int> := if q == ClassOf(t, r) then {|rs|} else {};
    assert WithClass(t, rs + [r], q) == WithClass(t, rs, q) + more;
  }

  lemma BumpBoth(counts: map<Tally, nat>, reason: Reason, class_: Class)
    ensures var twice := Bump(Bump(counts, OfReason(reason)), OfClass(class_));
            && (forall q: Reason :: Of(twice, OfReason(q)) == Of(counts, OfReason(q)) + if q == reason then 1 else 0)
            && (forall q: Class :: Of(twice, OfClass(q)) == Of(counts, OfClass(q)) + if q == class_ then 1 else 0)
  {
    BumpOne(counts, OfReason(reason));
    BumpOne(Bump(counts, OfReason(reason)), OfClass(class_));
    hide Of, Bump;
  }

  class EgressGate {
    const terms: Terms
    var counts: map<Tally, nat>
    /** Every record decided so far. */
    ghost var seen: seq<Record>

    constructor (terms: Terms)
      ensures this.terms == terms && seen == [] && Balanced()
    {
      this.terms, counts, seen := terms, map[], [];
    }

    /** One decision per record seen, by reason and by class; no aggregate without audience. */
    ghost predicate Balanced()
      reads this
    {
      && (forall q: Reason :: Of(counts, OfReason(q)) == |WithReason(terms, seen, q)|)
      && (forall q: Class :: Of(counts, OfClass(q)) == |WithClass(terms, seen, q)|)
      && CountReasons(counts) == |seen| && CountClasses(counts) == |seen|
    }

    method Decide(r: Record) returns (allowed: bool, reason: Reason, class_: Class)
      requires Balanced()
      modifies this
      ensures Balanced() && seen == old(seen) + [r]
      ensures reason == ReasonFor(terms, r) && class_ == ClassOf(terms, r) && allowed == (reason == Admit)
      ensures counts == Bump(Bump(old(counts), OfReason(reason)), OfClass(class_))
    {
      AdmittedByAudience(terms, r);
      OneMoreRecord(terms, seen, r);
      hide WithReason, WithClass, Admits, Classification, LabelOf, ClassifyLabel, Bump, Of, CountReasons, CountClasses;
      var claim := LabelOf(terms, r);
      var marking := Classification(r);
      class_ := if marking.Some? then Classified else ClassifyLabel(claim);
      if !terms.known {
        reason := DestinationUnknown;
      } else if terms.kind.Some? && terms.kind.value !in terms.accepts {
        reason := KindNotAccepted;
      } else if terms.valid.Some? && !terms.valid.value(r) {
        reason := SchemaInvalid;
      } else if marking.Some? {
        reason := Marked;
      } else if !claim.IsLabelled() {
        reason := NoLabel;
      } else if Admits(terms.nations, claim) {
        reason := Admit;
      } else {
        reason := NoOverlap;
      }
      allowed := reason == Admit;
      BumpCounts(counts, reason, class_);
      BumpBoth(counts, reason, class_);
      counts := Bump(counts, OfReason(reason));
      counts := Bump(counts, OfClass(class_));
      seen := seen + [r];
    }
  }
}
