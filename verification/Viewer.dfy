/** The viewer filter in front of the egress pane (gateway/egress_view.py), against the two
    other statements of its rule: the gate's predicate and the read path's row policy
    (gateway/pep.py). */
module Viewer {
  import opened Options
  import opened Pointer
  import opened Gate

  datatype Answer = Answer(destination: Json, policyVersion: Json, corpusVersion: Json, records: seq<Json>,
                           admitted: int, refused: int, withheld: nat, viewerNations: set<string>)

  function Items(v: Json): seq<Json> { if v.Arr? then v.items else [] }

  /** No usable originator and no usable entry in `releasable_to`. */
  predicate IsUnlabelled(r: Record) {
    !(At(r, "originator_nation").Str? && At(r, "originator_nation").s != "")
    && !exists v :: v in Items(At(r, "releasable_to")) && v.Str? && v.s != ""
  }

  /** The two clauses, on the values as they stand. */
  predicate IsVisible(r: Record, nations: set<string>) {
    var originator := At(r, "originator_nation");
    (originator.Str? && originator.s != "" && originator.s in nations)
    || exists v :: v in Items(At(r, "releasable_to")) && v.Str? && v.s in nations
  }

  predicate ShownTo(r: Record, nations: set<string>) { !IsUnlabelled(r) && IsVisible(r, nations) }

  function Nations(nations: seq<string>): set<string> { set n | n in nations }

  predicate WellFormed(payload: Json) {
    payload.Obj? && At(payload.fields, "records").Arr?
    && forall r :: r in At(payload.fields, "records").items ==> r.Obj?
  }

  function RecordsOf(payload: Json): seq<Json>
    requires WellFormed(payload)
  {
    At(payload.fields, "records").items
  }

  predicate Dicts(rs: seq<Json>) { forall r :: r in rs ==> r.Obj? }

  /** The shown records, in order. */
  function Shown(rs: seq<Json>, nations: set<string>): (shown: seq<Json>)
    requires Dicts(rs)
  {
    if rs == [] then []
    else
      Shown(rs[..|rs| - 1], nations)
      + if ShownTo(rs[|rs| - 1].fields, nations) then [rs[|rs| - 1]] else []
  }

  function CountAllowed(rs: seq<Json>): nat
    requires Dicts(rs)
  {
    if rs == [] then 0
    else CountAllowed(rs[..|rs| - 1]) + if At(rs[|rs| - 1].fields, "allowed") == Bool(true) then 1 else 0
  }

  function CountUnlabelled(rs: seq<Json>): nat
    requires Dicts(rs)
  {
    if rs == [] then 0
    else CountUnlabelled(rs[..|rs| - 1]) + if IsUnlabelled(rs[|rs| - 1].fields) then 1 else 0
  }

  /** The tallies are over what is shown, apart from the unlabelled count. */
  function Expected(payload: Json, nations: set<string>): Answer
    requires WellFormed(payload)
  {
    var rs := RecordsOf(payload);
    ShownDicts(rs, nations);
    var shown := Shown(rs, nations);
    Answer(At(payload.fields, "destination"), At(payload.fields, "policy_version"),
           At(payload.fields, "corpus_version"),
           shown, CountAllowed(shown), |shown| - CountAllowed(shown), CountUnlabelled(rs), nations)
  }

  lemma {:induction false} ShownDicts(rs: seq<Json>, nations: set<string>)
    requires Dicts(rs)
    ensures Dicts(Shown(rs, nations))
  {
    if rs != [] {
      assert rs[|rs| - 1] in rs;
      ShownDicts(rs[..|rs| - 1], nations);
    }
  }

  /** The positions of the records the gate had admitted, */
  function AdmittedAt(rs: seq<Json>): set<int> {
    set i | 0 <= i < |rs| && rs[i].Obj? && "allowed" in rs[i].fields && rs[i].fields["allowed"] == Bool(true)
  }

  /** and of those with no code at the top level, a non-empty text as author or in the list. */
  function WithoutCodeAt(rs: seq<Json>): set<int> {
    set i | 0 <= i < |rs| && rs[i].Obj? && !HasCode(rs[i].fields)
  }

  predicate HasCode(r: Record) {
    || ("originator_nation" in r && r["originator_nation"].Str? && r["originator_nation"].s != "")
    || ("releasable_to" in r && r["releasable_to"].Arr?
        && exists i :: 0 <= i < |r["releasable_to"].items| && IsText(r["releasable_to"].items[i]))
  }

  predicate IsText(v: Json) { v.Str? && v.s != "" }

  lemma HasCodeExactly(r: Record)
    ensures IsUnlabelled(r) <==> !HasCode(r)
  {
    var items := Items(At(r, "releasable_to"));
    if v :| v in items && v.Str? && v.s != "" {
      var i :| 0 <= i < |items| && items[i] == v;
      assert IsText(items[i]);
    }
  }

  lemma CountsExactly(rs: seq<Json>)
    requires Dicts(rs)
    ensures CountAllowed(rs) == |AdmittedAt(rs)| && CountUnlabelled(rs) == |WithoutCodeAt(rs)|
  {
    AllowedExactly(rs);
    UnlabelledExactly(rs);
  }

  lemma {:induction false} AllowedExactly(rs: seq<Json>)
    requires Dicts(rs)
    ensures CountAllowed(rs) == |AdmittedAt(rs)|
  {
    if rs != [] {
      var init, last := rs[..|rs| - 1], rs[|rs| - 1];
      AllowedExactly(init);
      var more: set<int> := if At(last.fields, "allowed") == Bool(true) then {|init|} else {};
      assert AdmittedAt(rs) == AdmittedAt(init) + more;
    }
  }

  lemma {:induction false} UnlabelledExactly(rs: seq<Json>)
    requires Dicts(rs)
    ensures CountUnlabelled(rs) == |WithoutCodeAt(rs)|
  {
    hide IsUnlabelled, HasCode;
    if rs != [] {
      var init, last := rs[..|rs| - 1], rs[|rs| - 1];
      UnlabelledExactly(init);
      HasCodeExactly(last.fields);
      var more: set<int> := if IsUnlabelled(last.fields) then {|init|} else {};
      assert WithoutCodeAt(rs) == WithoutCodeAt(init) + more;
    }
  }

  /** The records shown are those at the positions where one is shown, in order. */
  lemma {:induction false} ShownInOrder(rs: seq<Json>, nations: set<string>) returns (at: seq<nat>)
    requires Dicts(rs)
    ensures |at| == |Shown(rs, nations)|
    ensures forall k :: 0 <= k < |at| ==> at[k] < |rs| && Shown(rs, nations)[k] == rs[at[k]]
    ensures forall j, k :: 0 <= j < k < |at| ==> at[j] < at[k]
    ensures forall i: nat :: i in at <==> i < |rs| && ShownTo(rs[i].fields, nations)
  {
    hide ShownTo;
    if rs == [] {
      at := [];
    } else {
      var init, last := rs[..|rs| - 1], rs[|rs| - 1];
      at := ShownInOrder(init, nations);
      assert last in rs && forall i :: 0 <= i < |init| ==> init[i] == rs[i];
      assert Shown(rs, nations) == Shown(init, nations) + if ShownTo(last.fields, nations) then [last] else [];
      hide Shown;
      ghost var before := at;
      if ShownTo(last.fields, nations) { at := at + [|init|]; }
      assert forall i: nat :: i in at <==> i in before || (i == |init| && ShownTo(last.fields, nations));
    }
  }

  /** The first pass: every record is a dict, or the whole payload is refused. */
  method AllDicts(records: seq<Json>) returns (ok: bool)
    ensures ok == Dicts(records)
  {
    for i := 0 to |records|
      invariant Dicts(records[..i])
    {
      if !records[i].Obj? {
        assert records[i] in records;
        return false;
      }
    }
    assert records == records[..|records|];
    ok := true;
  }

  /** The second pass: what is shown, how much of it was admitted, and the unlabelled. */
  method Sift(records: seq<Json>, allowed: set<string>) returns (visible: seq<Json>, admitted: nat, withheld: nat)
    requires Dicts(records)
    ensures visible == Shown(records, allowed) && Dicts(visible)
    ensures admitted == CountAllowed(visible) && withheld == CountUnlabelled(records)
  {
    hide IsUnlabelled, IsVisible;
    visible, admitted, withheld := [], 0, 0;
    for i := 0 to |records|
      invariant Dicts(visible) && visible == Shown(records[..i], allowed)
      invariant admitted == CountAllowed(visible) && withheld == CountUnlabelled(records[..i])
    {
      assert records[..i + 1][..i] == records[..i] && records[..i + 1][i] == records[i];
      var record := records[i].fields;
      if IsUnlabelled(record) {
        withheld := withheld + 1;
      } else if IsVisible(record, allowed) {
        visible := visible + [records[i]];
        assert visible[..|visible| - 1] == Shown(records[..i], allowed);
        if At(record, "allowed") == Bool(true) { admitted := admitted + 1; }
      }
    }
    assert records == records[..|records|];
  }

  method FilterDecisions(payload: Json, nations: seq<string>) returns (answer: Result<Answer, string>)
    ensures answer.Ok? <==> WellFormed(payload)
    ensures answer.Ok? ==> answer.value == Expected(payload, Nations(nations))
    ensures answer.Ok? ==>
              && answer.value.admitted == |AdmittedAt(answer.value.records)|
              && answer.value.admitted + answer.value.refused == |answer.value.records|
              && answer.value.withheld == |WithoutCodeAt(At(payload.fields, "records").items)|
  {
    hide Shown, CountAllowed, CountUnlabelled;
    if !payload.Obj? { return Err("payload must be a dict"); }
    if !At(payload.fields, "records").Arr? { return Err("payload['records'] must be a list"); }
    var records := At(payload.fields, "records").items;
    var ok := AllDicts(records);
    if !ok { return Err("every record must be a dict"); }
    var allowed := Nations(nations);
    var visible, admitted, withheld := Sift(records, allowed);
    CountsExactly(visible);
    CountsExactly(records);
    answer := Ok(Answer(At(payload.fields, "destination"), At(payload.fields, "policy_version"),
                        At(payload.fields, "corpus_version"), visible, admitted, |visible| - admitted, withheld,
                        allowed));
  }

  // --- what one viewer can learn ---------------------------------------------

  lemma {:induction false} ShownConcat(a: seq<Json>, b: seq<Json>, nations: set<string>)
    requires Dicts(a) && Dicts(b)
    ensures Shown(a + b, nations) == Shown(a, nations) + Shown(b, nations)
    ensures CountUnlabelled(a + b) == CountUnlabelled(a) + CountUnlabelled(b)
  {
    hide ShownTo, IsUnlabelled;
    if b == [] {
      assert a + b == a;
    } else {
      var init := b[..|b| - 1];
      ShownConcat(a, init, nations);
      assert (a + b)[..|a + b| - 1] == a + init && (a + b)[|a + b| - 1] == b[|b| - 1];
    }
  }

  lemma {:induction false} NothingOfHidden(hidden: seq<Json>, nations: set<string>)
    requires Dicts(hidden)
    requires forall r :: r in hidden ==> !ShownTo(r.fields, nations) && !IsUnlabelled(r.fields)
    ensures Shown(hidden, nations) == [] && CountUnlabelled(hidden) == 0
  {
    if hidden != [] { NothingOfHidden(hidden[..|hidden| - 1], nations); }
  }

  function WithRecords(payload: Json, rs: seq<Json>): Json
    requires payload.Obj?
  {
    Obj(payload.fields["records" := Arr(rs)])
  }

  /** Other nations' records, however many and wherever they stand, change nothing a
      viewer is given. */
  lemma HiddenLeavesNoTrace(payload: Json, a: seq<Json>, hidden: seq<Json>, b: seq<Json>, nations: set<string>)
    requires payload.Obj? && Dicts(a) && Dicts(hidden) && Dicts(b)
    requires forall r :: r in hidden ==> !ShownTo(r.fields, nations) && !IsUnlabelled(r.fields)
    ensures WellFormed(WithRecords(payload, a + hidden + b)) && WellFormed(WithRecords(payload, a + b))
    ensures Expected(WithRecords(payload, a + hidden + b), nations) == Expected(WithRecords(payload, a + b), nations)
  {
    hide Shown, CountUnlabelled, CountAllowed, ShownTo, IsUnlabelled;
    ShownConcat(a + hidden, b, nations);
    ShownConcat(a, hidden, nations);
    ShownConcat(a, b, nations);
    NothingOfHidden(hidden, nations);
    assert Shown(a, nations) + [] == Shown(a, nations);
  }

  /** What two payloads must share to look alike to a viewer: exactly the three header
      fields, the shown records in order and the number of unlabelled records. */
  lemma LookAlikeExactly(p: Json, q: Json, nations: set<string>)
    requires WellFormed(p) && WellFormed(q)
    ensures Expected(p, nations) == Expected(q, nations) <==>
              && At(p.fields, "destination") == At(q.fields, "destination")
              && At(p.fields, "policy_version") == At(q.fields, "policy_version")
              && At(p.fields, "corpus_version") == At(q.fields, "corpus_version")
              && Shown(RecordsOf(p), nations) == Shown(RecordsOf(q), nations)
              && CountUnlabelled(RecordsOf(p)) == CountUnlabelled(RecordsOf(q))
  {
    hide Shown, CountUnlabelled, CountAllowed;
    ShownDicts(RecordsOf(p), nations);
    ShownDicts(RecordsOf(q), nations);
  }

  /** Shown and unlabelled exclude each other for every viewer, and the withheld number is
      the same for every viewer. */
  lemma WithheldAlike(payload: Json, mine: set<string>, yours: set<string>)
    requires WellFormed(payload)
    ensures Expected(payload, mine).withheld == Expected(payload, yours).withheld
    ensures forall r :: r in RecordsOf(payload) && IsUnlabelled(r.fields) ==> r !in Expected(payload, yours).records
  {
    hide IsUnlabelled, IsVisible;
    ShownOnly(RecordsOf(payload), yours);
  }

  lemma {:induction false} ShownOnly(rs: seq<Json>, nations: set<string>)
    requires Dicts(rs)
    ensures forall r :: r in Shown(rs, nations) <==> r in rs && ShownTo(r.fields, nations)
  {
    hide ShownTo;
    if rs != [] {
      ShownOnly(rs[..|rs| - 1], nations);
      assert rs == rs[..|rs| - 1] + [rs[|rs| - 1]];
    }
  }

  // --- three statements of one rule ------------------------------------------

  /** A table row's two label columns, NULL as None. */
  datatype Row = Row(originator: Option<string>, releasable: Option<seq<string>>)

  /** What the shape filter of `policy_predicate` means for a row. */
  predicate PolicyHolds(nations: seq<string>, row: Row) {
    nations != []
    && ((row.originator.Some? && row.originator.value in nations)
        || (row.releasable.Some? && exists n :: n in row.releasable.value && n in nations))
  }

  function Strings(items: seq<Json>): (out: seq<string>)
    ensures forall n :: n in out <==> Str(n) in items
  {
    if items == [] then []
    else
      assert items == [items[0]] + items[1..];
      (if items[0].Str? then [items[0].s] else []) + Strings(items[1..])
  }

  function RowOf(r: Record): Row {
    Row(if At(r, "originator_nation").Str? then Some(At(r, "originator_nation").s) else None,
        if At(r, "releasable_to").Arr? then Some(Strings(At(r, "releasable_to").items)) else None)
  }

  /** The filter and the row policy agree on every record exactly for viewers who do not
      hold the empty string as a nation. */
  lemma ViewerIsPolicyExactly(nations: seq<string>)
    ensures (forall r: Record :: ShownTo(r, Nations(nations)) <==> PolicyHolds(nations, RowOf(r)))
            <==> "" !in nations
  {
    if "" in nations {
      var r: Record := map["originator_nation" := Str("")];
      assert At(r, "originator_nation") == Str("") && At(r, "releasable_to") == Null;
      assert IsUnlabelled(r) && PolicyHolds(nations, RowOf(r));
    } else {
      forall r: Record ensures ShownTo(r, Nations(nations)) <==> PolicyHolds(nations, RowOf(r)) {
        ViewerIsPolicyFor(r, nations);
      }
    }
  }

  lemma ViewerIsPolicyFor(r: Record, nations: seq<string>)
    requires "" !in nations
    ensures ShownTo(r, Nations(nations)) <==> PolicyHolds(nations, RowOf(r))
  {
    hide Strings;
    var list := At(r, "releasable_to");
    if v :| v in Items(list) && v.Str? && v.s in Nations(nations) {
      assert v == Str(v.s) && v.s in Strings(list.items);
      assert ShownTo(r, Nations(nations)) && PolicyHolds(nations, RowOf(r));
    }
  }

  /** The nations a record names at its top level, as they are spelled. */
  function Spelled(r: Record): set<string> {
    (set v | v in Items(At(r, "releasable_to")) && v.Str? :: v.s)
    + (if At(r, "originator_nation").Str? then {At(r, "originator_nation").s} else {})
  }

  /** A record is shown exactly when it has a code and names a nation the viewer holds; for
      viewers without the empty string, exactly when it names one of theirs. */
  lemma ShownExactly(r: Record, nations: set<string>)
    ensures ShownTo(r, nations) <==>
              (exists n :: n in Spelled(r) && n != "")
              && exists n :: n in Spelled(r) && n in nations && (n != "" || Str("") in Items(At(r, "releasable_to")))
    ensures "" !in nations ==> (ShownTo(r, nations) <==> Spelled(r) * nations != {})
  {
    var list, originator := Items(At(r, "releasable_to")), At(r, "originator_nation");
    if v :| v in list && v.Str? && v.s != "" { assert v.s in Spelled(r); }
    if v :| v in list && v.Str? && v.s in nations {
      assert v.s in Spelled(r) && v == Str(v.s);
    }
    if originator.Str? { assert originator.s in Spelled(r); }
    if n :| n in Spelled(r) && n in nations && n != "" {
      assert n in Spelled(r) * nations;
      if originator != Str(n) { assert Str(n) in list; }
    }
    if n :| n in Spelled(r) && n != "" {
      if originator != Str(n) { assert Str(n) in list; }
    }
    if "" !in nations {
      if n :| n in Spelled(r) * nations { assert n != ""; }
    }
  }

  /** The filter shows nothing the gate's predicate would not admit for the same nations,
      on every record, exactly for viewers who hold no blank nation. */
  lemma ViewerWithinGateExactly(nations: seq<string>)
    ensures (forall r: Record :: ShownTo(r, Nations(nations)) ==> Admits(nations, ExtractLabel(r)))
            <==> forall n :: n in nations ==> Strip(n) != ""
  {
    if n :| n in nations && Strip(n) == "" {
      BlankIsShown(nations, n);
    } else {
      forall r: Record | ShownTo(r, Nations(nations)) ensures Admits(nations, ExtractLabel(r)) {
        ShownIsAdmitted(r, nations);
      }
    }
  }

  lemma {:induction false} NoneClean(items: seq<Json>)
    requires forall v :: v in items ==> CleanNation(v).None?
    ensures CleanItems(items) == []
  {
    hide CleanNation;
    if items != [] { NoneClean(items[..|items| - 1]); }
  }

  lemma BlankIsShown(nations: seq<string>, n: string)
    requires n in nations && Strip(n) == ""
    ensures exists r: Record :: ShownTo(r, Nations(nations)) && !Admits(nations, ExtractLabel(r))
  {
    var list := [Str(n), Str(" ")];
    var r: Record := map["releasable_to" := Arr(list)];
    assert At(r, "releasable_to") == Arr(list) && At(r, "originator_nation") == Null && At(r, "provenance") == Null;
    assert list[0] in list && list[1] in list;
    assert ShownTo(r, Nations(nations));
    assert Strip(" ") == "";
    NoneClean(list);
    assert ExtractLabel(r) == Label(None, []);
  }

  lemma ShownIsAdmitted(r: Record, nations: seq<string>)
    requires ShownTo(r, Nations(nations)) && forall n :: n in nations ==> Strip(n) != ""
    ensures Admits(nations, ExtractLabel(r))
  {
    hide Strip, CleanItems;
    var originator, list := At(r, "originator_nation"), At(r, "releasable_to");
    if originator.Str? && originator.s in nations {
      assert Strip(originator.s) in CleanSet(nations);
      assert ExtractLabel(r).originator == Some(Strip(originator.s));
    } else {
      var v :| v in Items(list) && v.Str? && v.s in nations;
      var i :| 0 <= i < |list.items| && list.items[i] == v;
      CleanItemsMeaning(list.items);
      assert CleanNation(list.items[i]) == Some(Strip(v.s));
      assert Strip(v.s) in CleanSet(nations);
      assert Strip(v.s) in ExtractLabel(r).releasable;
    }
  }

  ghost predicate Clean(nations: seq<string>) {
    forall n :: n in nations ==> n != "" && Strip(n) == n
  }

  /** For clean viewer nations the filter and the gate agree on a record exactly when the
      record spells its whole audience at the top level: no blanks around a code, and no
      code that is only under `provenance`. */
  lemma ViewerIsGateExactly(r: Record)
    ensures (forall nations: seq<string> :: Clean(nations) ==>
               (ShownTo(r, Nations(nations)) <==> Admits(nations, ExtractLabel(r))))
            <==> ExtractLabel(r).EffectiveAudience() <= Spelled(r)
  {
    var audience := ExtractLabel(r).EffectiveAudience();
    if audience <= Spelled(r) {
      forall nations: seq<string> | Clean(nations)
        ensures ShownTo(r, Nations(nations)) <==> Admits(nations, ExtractLabel(r))
      {
        if ShownTo(r, Nations(nations)) { ShownIsAdmitted(r, nations); }
        if Admits(nations, ExtractLabel(r)) { AdmittedIsShown(r, nations); }
      }
    } else {
      var n :| n in audience && n !in Spelled(r);
      AudienceIsClean(r, n);
      NotSpelledNotShown(r, n);
      AdmitsIsOverlap([n], ExtractLabel(r));
      assert n in audience * CleanSet([n]);
      assert Clean([n]);
    }
  }

  lemma NotSpelledNotShown(r: Record, n: string)
    requires n !in Spelled(r)
    ensures !ShownTo(r, Nations([n]))
  {
  }

  lemma AudienceIsClean(r: Record, n: string)
    requires n in ExtractLabel(r).EffectiveAudience()
    ensures n != "" && Strip(n) == n
  {
    hide Strip, CleanItems;
    var prov := FieldsOf(At(r, "provenance"));
    CleanItemsMeaning(Items(At(r, "releasable_to")));
    CleanItemsMeaning(Items(At(prov, "releasable_to")));
    CleanItemsMeaning(Items(At(prov, "releasableTo")));
  }

  lemma AdmittedIsShown(r: Record, nations: seq<string>)
    requires Clean(nations) && Admits(nations, ExtractLabel(r))
    requires ExtractLabel(r).EffectiveAudience() <= Spelled(r)
    ensures ShownTo(r, Nations(nations))
  {
    AdmitsIsOverlap(nations, ExtractLabel(r));
    hide Strip, CleanItems, ExtractLabel, Admits;
    var n :| n in ExtractLabel(r).EffectiveAudience() && n in CleanSet(nations);
    assert n in nations && n in Spelled(r);
    if v :| v in Items(At(r, "releasable_to")) && v.Str? && v.s == n {
      assert v.s in Nations(nations);
    }
  }
}
