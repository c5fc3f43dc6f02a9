/** Intake of one artifact over many polls (egress/intake.py): decide, deliver onward, store;
    a refusal for an unknown answered record is provisional until its timeout. */
module Intake {
  import opened Options
  import opened Pointer
  import opened Gate

  // --- one decision ----------------------------------------------------------

  /** What the configuration fixes for one entry. `valid` is its schema, `sha` the hash of
      a body; the timeout is in the same ticks as poll times. */
  datatype Entry = Entry(source: string, keyAt: Tokens, labelAt: Tokens, refAt: Tokens, approversAt: Tokens,
                         subjectField: string, oboAt: Option<Tokens>, timeout: nat,
                         valid: Record -> bool, sha: Record -> string)

  /** The PDP's answer about one subject. */
  datatype Pdp = Pdp(nations: seq<string>, known: bool, trusted: bool)

  /** What the outside is during one poll. `ask` gives no answer where the PDP is out. */
  datatype Poll = Poll(now: int, caughtUp: bool, answered: map<string, Label>, ask: string -> Option<Pdp>,
                       delivered: bool, crash: bool)

  datatype Why = SchemaInvalid | AnsweredUnknown | LabelMismatch | ApproversMissing | ApproverUnresolved
               | ApproverUnentitled | OnBehalfUntrusted | Admitted

  /** A decision as it is stored; old rows carry neither of the last two. */
  datatype Decision = Decision(why: Why, provisional: Option<bool>, since: Option<int>)

  datatype Verdict = Decided(decision: Decision) | Deferred | NoAnswer

  predicate IsProvisional(d: Decision) { d.why.AnsweredUnknown? && d.provisional != Some(false) }

  function TextAt(a: Record, at: Tokens): string {
    var found := Get(Obj(a), at);
    if found.Some? && found.value.Str? then found.value.s else ""
  }

  function SubjectsIn(items: seq<Json>, field: string): seq<string> {
    if items == [] then []
    else
      (if items[0].Obj? && At(items[0].fields, field).Str? && At(items[0].fields, field).s != ""
       then [At(items[0].fields, field).s] else [])
      + SubjectsIn(items[1..], field)
  }

  function Subjects(e: Entry, a: Record): seq<string> {
    var found := Get(Obj(a), e.approversAt);
    if found.Some? && found.value.Arr? then SubjectsIn(found.value.items, e.subjectField) else []
  }

  function OnBehalf(e: Entry, a: Record): string { if e.oboAt.Some? then TextAt(a, e.oboAt.value) else "" }

  /** A subject's gate on a label alone: no kind, no schema, labels at the top level. */
  predicate Entitled(pdp: Pdp, l: Label) {
    var terms := Terms(pdp.nations, pdp.known, [], None, None, None);
    ReasonFor(terms, LabelRecord(l)) == Admit
  }

  function LabelRecord(l: Label): Record {
    map["originator_nation" := if l.originator.Some? then Str(l.originator.value) else Null,
        "releasable_to" := Arr(Strs(l.releasable))]
  }

  /** One subject: no answer, a refusal, or nothing against it. */
  function AskOne(p: Poll, subject: string, l: Label): Option<Option<Why>> {
    if p.ask(subject).None? then None
    else if !p.ask(subject).value.known then Some(Some(ApproverUnresolved))
    else if !Entitled(p.ask(subject).value, l) then Some(Some(ApproverUnentitled))
    else Some(None)
  }

  /** In order; the first subject without an answer or with a refusal ends it. */
  function AskAll(p: Poll, subjects: seq<string>, l: Label): (asked: Option<Option<Why>>)
    ensures asked.Some? && asked.value.Some? ==> asked.value.value in {ApproverUnresolved, ApproverUnentitled}
  {
    if subjects == [] then Some(None)
    else if AskOne(p, subjects[0], l) != Some(None) then AskOne(p, subjects[0], l)
    else AskAll(p, subjects[1..], l)
  }

  function AskOnBehalf(e: Entry, p: Poll, subject: string, l: Label): (asked: Option<Option<Why>>)
    ensures asked.Some? && asked.value.Some? ==>
              asked.value.value in {OnBehalfUntrusted, ApproverUnresolved, ApproverUnentitled}
  {
    if subject == "" then Some(None)
    else if p.ask(e.source).None? then None
    else if !p.ask(e.source).value.trusted then Some(Some(OnBehalfUntrusted))
    else AskOne(p, subject, l)
  }

  function Final(why: Why): Verdict { Decided(Decision(why, Some(false), None)) }

  function FromAsk(asked: Option<Option<Why>>): Verdict {
    if asked.None? then NoAnswer else if asked.value.Some? then Final(asked.value.value) else Final(Admitted)
  }

  predicate SameLabel(a: Label, b: Label) {
    a.originator == b.originator && multiset(a.releasable) == multiset(b.releasable)
  }

  function Decide(e: Entry, a: Record, p: Poll, since: Option<int>): Verdict {
    var ref, l, subjects := TextAt(a, e.refAt), ExtractLabelAt(a, e.labelAt), Subjects(e, a);
    if !e.valid(a) then Final(Why.SchemaInvalid)
    else if ref == "" || ref !in p.answered then
      if !p.caughtUp then Deferred
      else
        var start := if since.Some? then since.value else p.now;
        Decided(Decision(AnsweredUnknown, Some(p.now - start < e.timeout), Some(start)))
    else if !SameLabel(l, p.answered[ref]) then Final(LabelMismatch)
    else if subjects == [] then Final(ApproversMissing)
    else if AskAll(p, subjects, l) != Some(None) then FromAsk(AskAll(p, subjects, l))
    else FromAsk(AskOnBehalf(e, p, OnBehalf(e, a), l))
  }

  /** One of the nations, stripped, is a code of the label. */
  ghost predicate Covers(nations: seq<string>, l: Label) {
    exists i :: 0 <= i < |nations| && Strip(nations[i]) != ""
                && (l.originator == Some(Strip(nations[i])) || Strip(nations[i]) in l.releasable)
  }

  /** The PDP knows the subject and grants it a nation the label names. */
  ghost predicate Vouched(p: Poll, subject: string, l: Label) {
    p.ask(subject).Some? && p.ask(subject).value.known && Covers(p.ask(subject).value.nations, l)
  }

  // --- what a decision rests on ----------------------------------------------

  /** The text at a place of the artifact; empty text is none. */
  predicate Says(a: Record, at: Tokens, text: string) { Get(Obj(a), at) == Some(Str(text)) && text != "" }

  /** Entry `i` of the approver list is an object that names this subject. */
  predicate Names(e: Entry, a: Record, i: nat, subject: string) {
    Get(Obj(a), e.approversAt).Some? && Get(Obj(a), e.approversAt).value.Arr?
    && i < |Get(Obj(a), e.approversAt).value.items|
    && ItemNames(Get(Obj(a), e.approversAt).value.items[i], e.subjectField, subject)
  }

  predicate ItemNames(item: Json, field: string, subject: string) {
    item.Obj? && field in item.fields && item.fields[field] == Str(subject) && subject != ""
  }

  /** The artifact answers a known record, whose label is this. */
  ghost predicate Answers(e: Entry, a: Record, p: Poll, l: Label) {
    exists ref :: Says(a, e.refAt, ref) && ref in p.answered && p.answered[ref] == l
  }

  /** The artifact's own label is that one: one originator, the same codes in any order. */
  predicate Matches(e: Entry, a: Record, l: Label) {
    var own := ExtractLabelAt(a, e.labelAt);
    own.originator == l.originator && multiset(own.releasable) == multiset(l.releasable)
  }

  ghost predicate OnBehalfOf(e: Entry, a: Record, subject: string) { e.oboAt.Some? && Says(a, e.oboAt.value, subject) }

  /** Schema and label hold, and somebody approved. */
  ghost predicate Approved(e: Entry, a: Record, p: Poll) {
    e.valid(a) && (exists l :: Answers(e, a, p, l) && Matches(e, a, l)) && exists i, s :: Names(e, a, i, s)
  }

  /** Every subject named before entry `i` vouches for the label. */
  ghost predicate VouchedBefore(e: Entry, a: Record, p: Poll, i: nat) {
    forall j: nat, s :: j < i && Names(e, a, j, s) ==> Vouched(p, s, ExtractLabelAt(a, e.labelAt))
  }

  ghost predicate AllVouch(e: Entry, a: Record, p: Poll) {
    forall j: nat, s :: Names(e, a, j, s) ==> Vouched(p, s, ExtractLabelAt(a, e.labelAt))
  }

  /** What asking about one subject comes to, if it does not vouch. */
  ghost predicate Objects(p: Poll, subject: string, l: Label, v: Verdict) {
    !Vouched(p, subject, l)
    && v == if p.ask(subject).None? then NoAnswer
            else if !p.ask(subject).value.known then Final(ApproverUnresolved)
            else Final(ApproverUnentitled)
  }

  lemma TextIsSaid(a: Record, at: Tokens)
    ensures forall t :: t != "" ==> (TextAt(a, at) == t <==> Says(a, at, t))
  {
    hide Get;
  }

  /** The subjects are those the entries name, in the entries' order. */
  lemma {:induction false} SubjectsAreNamed(items: seq<Json>, field: string)
    ensures forall s :: s in SubjectsIn(items, field) <==> exists i :: 0 <= i < |items| && ItemNames(items[i], field, s)
  {
    if items != [] {
      var head, rest := items[0], items[1..];
      SubjectsAreNamed(rest, field);
      assert items == [head] + rest;
      forall s
        ensures s in SubjectsIn(items, field) <==> exists i :: 0 <= i < |items| && ItemNames(items[i], field, s)
      {
        if s in SubjectsIn(rest, field) {
          var i :| 0 <= i < |rest| && ItemNames(rest[i], field, s);
          assert ItemNames(items[i + 1], field, s);
        }
        if i :| 0 <= i < |items| && ItemNames(items[i], field, s) {
          if i == 0 {
            assert s in SubjectsIn(items, field);
          } else {
            assert ItemNames(rest[i - 1], field, s);
          }
        }
      }
    }
  }

  lemma HeadNamed(items: seq<Json>, field: string) returns (named: string)
    requires items != []
    ensures SubjectsIn(items, field)
            == (if ItemNames(items[0], field, named) then [named] else []) + SubjectsIn(items[1..], field)
    ensures forall s :: ItemNames(items[0], field, s) ==> s == named
  {
    named := if items[0].Obj? && At(items[0].fields, field).Str? then At(items[0].fields, field).s else "";
  }

  lemma AskOneMeans(e: Entry, a: Record, p: Poll, subject: string)
    ensures var l := ExtractLabelAt(a, e.labelAt);
            if AskOne(p, subject, l) == Some(None) then Vouched(p, subject, l)
            else Objects(p, subject, l, FromAsk(AskOne(p, subject, l)))
  {
    if p.ask(subject).Some? { EntitledExactly(p.ask(subject).value, a, e.labelAt); }
    hide Entitled, ExtractLabelAt, Covers;
  }

  /** Asking stops at the first entry whose subject does not vouch. */
  lemma {:induction false} AskItems(e: Entry, a: Record, p: Poll, items: seq<Json>) returns (i: nat, subject: string)
    ensures var l := ExtractLabelAt(a, e.labelAt);
            var asked := AskAll(p, SubjectsIn(items, e.subjectField), l);
            if asked == Some(None) then
              forall j, s :: 0 <= j < |items| && ItemNames(items[j], e.subjectField, s) ==> Vouched(p, s, l)
            else
              i < |items| && ItemNames(items[i], e.subjectField, subject) && Objects(p, subject, l, FromAsk(asked))
              && forall j, s :: 0 <= j < i && ItemNames(items[j], e.subjectField, s) ==> Vouched(p, s, l)
  {
    hide AskOne, ExtractLabelAt, Vouched, Objects, ItemNames, SubjectsIn;
    i, subject := 0, "";
    if items == [] {
      assert SubjectsIn(items, e.subjectField) == [] by { NoSubjects(e.subjectField); }
    } else {
      var l := ExtractLabelAt(a, e.labelAt);
      var named := HeadNamed(items, e.subjectField);
      AskOneMeans(e, a, p, named);
      var rest := SubjectsIn(items[1..], e.subjectField);
      if ItemNames(items[0], e.subjectField, named) {
        assert SubjectsIn(items, e.subjectField)[1..] == rest;
      } else {
        assert SubjectsIn(items, e.subjectField) == rest;
      }
      if ItemNames(items[0], e.subjectField, named) && AskOne(p, named, l) != Some(None) {
        subject := named;
      } else {
        i, subject := AskItems(e, a, p, items[1..]);
        i := i + 1;
        assert forall j :: 0 < j < |items| ==> items[j] == items[1..][j - 1];
      }
    }
  }

  lemma NoSubjects(field: string)
    ensures SubjectsIn([], field) == []
  {
  }

  lemma NamesAreSubjects(e: Entry, a: Record)
    ensures Subjects(e, a) != [] <==> exists i: nat, s :: Names(e, a, i, s)
  {
    var found := Get(Obj(a), e.approversAt);
    hide Get, SubjectsIn, ItemNames;
    if found.Some? && found.value.Arr? {
      SubjectsAreNamed(found.value.items, e.subjectField);
      forall i: nat, s | Names(e, a, i, s) ensures s in Subjects(e, a) {
        assert ItemNames(found.value.items[i], e.subjectField, s);
      }
      if Subjects(e, a) != [] {
        assert Subjects(e, a)[0] in Subjects(e, a);
        var i :| 0 <= i < |found.value.items| && ItemNames(found.value.items[i], e.subjectField, Subjects(e, a)[0]);
        assert Names(e, a, i, Subjects(e, a)[0]);
      }
    }
  }

  /** The first entry whose subject does not vouch decides for all. */
  lemma AskApprovers(e: Entry, a: Record, p: Poll)
    ensures var l := ExtractLabelAt(a, e.labelAt);
            var asked := AskAll(p, Subjects(e, a), l);
            if asked == Some(None) then AllVouch(e, a, p)
            else exists i: nat, s :: Names(e, a, i, s) && VouchedBefore(e, a, p, i) && Objects(p, s, l, FromAsk(asked))
  {
    var found := Get(Obj(a), e.approversAt);
    hide Get, SubjectsIn, ItemNames, AskOne, Vouched, Objects, ExtractLabelAt, FromAsk;
    if found.Some? && found.value.Arr? {
      var i, s := AskItems(e, a, p, found.value.items);
      if AskAll(p, Subjects(e, a), ExtractLabelAt(a, e.labelAt)) != Some(None) {
        assert Names(e, a, i, s) && VouchedBefore(e, a, p, i);
      }
    }
  }

  lemma AnswersMeans(e: Entry, a: Record, p: Poll)
    ensures var ref := TextAt(a, e.refAt);
            forall k :: Answers(e, a, p, k) <==> ref != "" && ref in p.answered && k == p.answered[ref]
  {
    var ref := TextAt(a, e.refAt);
    TextIsSaid(a, e.refAt);
    hide TextAt, Get;
    if ref != "" && ref in p.answered { assert Answers(e, a, p, p.answered[ref]); }
  }

  lemma OnBehalfMeans(e: Entry, a: Record)
    ensures forall s :: OnBehalfOf(e, a, s) <==> s != "" && OnBehalf(e, a) == s
  {
    if e.oboAt.Some? { TextIsSaid(a, e.oboAt.value); }
    hide TextAt, Get;
  }

  /** Every verdict on an artifact that is not approved, in terms of what it says and what
      the poll finds, */
  lemma UnapprovedExactly(e: Entry, a: Record, p: Poll, since: Option<int>)
    ensures var start := if since.Some? then since.value else p.now;
            !Approved(e, a, p) ==>
              Decide(e, a, p, since)
              == if !e.valid(a) then Final(Why.SchemaInvalid)
                 else if forall k :: !Answers(e, a, p, k) then
                   if !p.caughtUp then Deferred
                   else Decided(Decision(AnsweredUnknown, Some(p.now - start < e.timeout), Some(start)))
                 else if forall k :: Answers(e, a, p, k) ==> !Matches(e, a, k) then Final(LabelMismatch)
                 else Final(ApproversMissing)
  {
    AnswersMeans(e, a, p);
    NamesAreSubjects(e, a);
    hide TextAt, ExtractLabelAt, Subjects, Names, Answers, AskAll, AskOnBehalf, OnBehalf;
    var ref := TextAt(a, e.refAt);
    if ref != "" && ref in p.answered {
      assert Answers(e, a, p, p.answered[ref]);
      assert Matches(e, a, p.answered[ref]) <==> SameLabel(ExtractLabelAt(a, e.labelAt), p.answered[ref]);
    }
  }

  /** on one whose approvers do not all vouch: the first who does not decides, */
  lemma ApproversDecide(e: Entry, a: Record, p: Poll, since: Option<int>)
    requires Approved(e, a, p) && !AllVouch(e, a, p)
    ensures exists i: nat, s :: Names(e, a, i, s) && VouchedBefore(e, a, p, i)
                                && Objects(p, s, ExtractLabelAt(a, e.labelAt), Decide(e, a, p, since))
  {
    ApprovedAsks(e, a, p, since);
    AskApprovers(e, a, p);
    hide Decide, Approved, Names, Subjects, AskAll, Objects, VouchedBefore, ExtractLabelAt;
  }

  lemma ApprovedAsks(e: Entry, a: Record, p: Poll, since: Option<int>)
    requires Approved(e, a, p)
    ensures var asked := AskAll(p, Subjects(e, a), ExtractLabelAt(a, e.labelAt));
            Decide(e, a, p, since) == if asked != Some(None) then FromAsk(asked)
                                      else FromAsk(AskOnBehalf(e, p, OnBehalf(e, a), ExtractLabelAt(a, e.labelAt)))
  {
    AnswersMeans(e, a, p);
    NamesAreSubjects(e, a);
    hide TextAt, ExtractLabelAt, Subjects, Names, Answers, AskAll, AskOnBehalf, OnBehalf;
  }

  /** and on one they do: whoever it is on behalf of needs a trusted source and vouches too. */
  lemma OnBehalfDecides(e: Entry, a: Record, p: Poll, since: Option<int>)
    requires Approved(e, a, p) && AllVouch(e, a, p)
    ensures (forall s :: !OnBehalfOf(e, a, s)) ==> Decide(e, a, p, since) == Final(Admitted)
    ensures forall s :: OnBehalfOf(e, a, s) ==>
              var v, l := Decide(e, a, p, since), ExtractLabelAt(a, e.labelAt);
              if p.ask(e.source).None? then v == NoAnswer
              else if !p.ask(e.source).value.trusted then v == Final(OnBehalfUntrusted)
              else if Vouched(p, s, l) then v == Final(Admitted)
              else Objects(p, s, l, v)
  {
    hide Decide, Approved, Names, Subjects, AskAll, VouchedBefore, AllVouch, ExtractLabelAt, OnBehalf, OnBehalfOf,
      Vouched, AskOne, Objects, FromAsk, AskOnBehalf;
    ApprovedAsks(e, a, p, since);
    AskApprovers(e, a, p);
    VouchedNeverObjects(e, a, p);
    OnBehalfMeans(e, a);
    assert OnBehalf(e, a) != "" ==> OnBehalfOf(e, a, OnBehalf(e, a));
    AskOnBehalfMeans(e, a, p, OnBehalf(e, a));
  }

  lemma AskOnBehalfMeans(e: Entry, a: Record, p: Poll, subject: string)
    ensures var l := ExtractLabelAt(a, e.labelAt);
            var v := FromAsk(AskOnBehalf(e, p, subject, l));
            if subject == "" then v == Final(Admitted)
            else if p.ask(e.source).None? then v == NoAnswer
            else if !p.ask(e.source).value.trusted then v == Final(OnBehalfUntrusted)
            else if Vouched(p, subject, l) then v == Final(Admitted)
            else Objects(p, subject, l, v)
  {
    AskOneMeans(e, a, p, subject);
    hide ExtractLabelAt, Vouched, AskOne;
  }

  lemma VouchedNeverObjects(e: Entry, a: Record, p: Poll)
    requires AllVouch(e, a, p)
    ensures forall i: nat, s, v :: Names(e, a, i, s) ==> !Objects(p, s, ExtractLabelAt(a, e.labelAt), v)
  {
    hide Names, Vouched, ExtractLabelAt;
  }

  /** So an artifact is admitted exactly when its schema holds, the record it answers is known
      and carries the same label, some approver is named, and every subject an entry names,
      and whoever it is on behalf of, is known and granted a nation of that label. */
  lemma AdmittedExactly(e: Entry, a: Record, p: Poll, since: Option<int>)
    ensures Decide(e, a, p, since) == Decided(Decision(Admitted, Some(false), None)) <==>
              Approved(e, a, p) && AllVouch(e, a, p)
              && forall s :: OnBehalfOf(e, a, s) ==>
                   p.ask(e.source).Some? && p.ask(e.source).value.trusted
                   && Vouched(p, s, ExtractLabelAt(a, e.labelAt))
  {
    UnapprovedExactly(e, a, p, since);
    if Approved(e, a, p) && !AllVouch(e, a, p) { ApproversDecide(e, a, p, since); }
    if Approved(e, a, p) && AllVouch(e, a, p) { OnBehalfDecides(e, a, p, since); }
    hide Decide, Approved, AllVouch, Names, Vouched, VouchedBefore, OnBehalfOf, ExtractLabelAt, Answers, Matches;
  }

  /** A subject vouches for an extracted label exactly when its nations meet the audience. */
  lemma EntitledIsOverlap(pdp: Pdp, r: Record, at: Tokens)
    ensures var l := ExtractLabelAt(r, at);
            Entitled(pdp, l) <==> pdp.known && l.EffectiveAudience() * CleanSet(pdp.nations) != {}
  {
    var l := ExtractLabelAt(r, at);
    var terms := Terms(pdp.nations, pdp.known, [], None, None, None);
    Gate.AdmittedByAudience(terms, LabelRecord(l));
    ExtractedIsClean(r, at);
    LabelRecordKeeps(l);
  }

  lemma EntitledExactly(pdp: Pdp, r: Record, at: Tokens)
    ensures var l := ExtractLabelAt(r, at); Entitled(pdp, l) <==> pdp.known && Covers(pdp.nations, l)
  {
    var l := ExtractLabelAt(r, at);
    EntitledIsOverlap(pdp, r, at);
    ExtractedIsClean(r, at);
    hide Entitled, ExtractLabelAt, Strip;
    var both := l.EffectiveAudience() * CleanSet(pdp.nations);
    if n :| n in both {
      var raw :| raw in pdp.nations && Strip(raw) != "" && n == Strip(raw);
      var i :| 0 <= i < |pdp.nations| && pdp.nations[i] == raw;
      assert Covers(pdp.nations, l);
    }
    if i :| 0 <= i < |pdp.nations| && Strip(pdp.nations[i]) != ""
            && (l.originator == Some(Strip(pdp.nations[i])) || Strip(pdp.nations[i]) in l.releasable) {
      assert Strip(pdp.nations[i]) in both;
    }
  }

  ghost predicate CleanLabel(l: Label) {
    (l.originator.Some? ==> l.originator.value != "" && Strip(l.originator.value) == l.originator.value)
    && forall n :: n in l.releasable ==> n != "" && Strip(n) == n
  }

  lemma ExtractedIsClean(r: Record, at: Tokens)
    ensures CleanLabel(ExtractLabelAt(r, at))
  {
    hide Get, Strip, CleanItems;
    var found := Get(Obj(r), at);
    if found.Some? && found.value.Obj? && At(found.value.fields, "releasable_to").Arr? {
      CleanItemsMeaning(At(found.value.fields, "releasable_to").items);
    }
    assert CleanItems([]) == [] by { NothingClean(); }
  }

  /** Reading back the record made of a clean label finds its audience, and no marking. */
  lemma LabelRecordKeeps(l: Label)
    requires CleanLabel(l)
    ensures ExtractLabel(LabelRecord(l)).EffectiveAudience() == l.EffectiveAudience()
    ensures Classification(LabelRecord(l)).None?
  {
    hide Strip, CleanItems;
    var r := LabelRecord(l);
    assert At(r, "provenance") == Null && At(r, "classification") == Null;
    assert At(r, "releasable_to") == Arr(Strs(l.releasable));
    NothingClean();
    StrsClean(l.releasable);
    assert forall n :: n in CleanNations(At(r, "releasable_to")) <==> n in l.releasable;
  }

  lemma StrsClean(ns: seq<string>)
    requires forall n :: n in ns ==> n != "" && Strip(n) == n
    ensures forall n :: n in CleanItems(Strs(ns)) <==> n in ns
  {
    hide Strip, CleanItems;
    CleanItemsMeaning(Strs(ns));
    forall n | n in ns ensures exists i :: 0 <= i < |Strs(ns)| && CleanNation(Strs(ns)[i]) == Some(n) {
      var i :| 0 <= i < |ns| && ns[i] == n;
      assert Strs(ns)[i] == Str(n);
    }
  }

  // --- one poll --------------------------------------------------------------

  datatype Row = Row(sha: string, decision: Decision, decidedAt: int)

  datatype Outcome = NotAnObject | SkippedUnchanged | AuthzUnavailable | NotCaughtUp | HeldProvisional
                   | DeliveryFailed | Crashed | Stored

  /** What one poll does to a row: the row to write, whether the body went onward. */
  datatype Effect = Effect(write: Option<Row>, produced: bool, outcome: Outcome)

  function SinceOf(row: Row): int { if row.decision.since.Some? then row.decision.since.value else row.decidedAt }

  function Handle(e: Entry, existing: Option<Row>, a: Record, p: Poll): Effect {
    var same := existing.Some? && existing.value.sha == e.sha(a);
    var resolving := same && IsProvisional(existing.value.decision);
    if same && !resolving then Effect(None, false, SkippedUnchanged)
    else
      match Decide(e, a, p, if resolving then Some(SinceOf(existing.value)) else None)
      case NoAnswer => Effect(None, false, AuthzUnavailable)
      case Deferred => Effect(None, false, NotCaughtUp)
      case Decided(d) =>
        if resolving && IsProvisional(d) then Effect(None, false, HeldProvisional)
        else if d.why.Admitted? && !p.delivered then Effect(None, false, DeliveryFailed)
        else if p.crash then Effect(None, d.why.Admitted?, Crashed)
        else Effect(Some(Row(e.sha(a), d, p.now)), d.why.Admitted?, Stored)
  }

  /** The row is of this very body and stands: no refusal for an unknown answered record that
      may still resolve, which old rows without the mark count as. */
  predicate Stands(e: Entry, existing: Option<Row>, a: Record) {
    existing.Some? && existing.value.sha == e.sha(a)
    && !(existing.value.decision.why.AnsweredUnknown? && existing.value.decision.provisional != Some(false))
  }

  /** Since when a provisional row of this body stands: its own mark, else its decision time. */
  function StandsSince(e: Entry, existing: Option<Row>, a: Record): Option<int> {
    if existing.Some? && existing.value.sha == e.sha(a) && !Stands(e, existing, a) then
      if existing.value.decision.since.Some? then existing.value.decision.since else Some(existing.value.decidedAt)
    else None
  }

  predicate IsPending(v: Verdict) {
    v.Decided? && v.decision.why.AnsweredUnknown? && v.decision.provisional != Some(false)
  }

  /** What one poll does: a body goes onward exactly when it is admitted anew and the topic
      confirmed it; a row is written exactly when a decision was reached, an admit of it was
      confirmed, no crash came before, and it says more than a provisional row already does. */
  lemma PollExactly(e: Entry, existing: Option<Row>, a: Record, p: Poll)
    ensures var f, v := Handle(e, existing, a, p), Decide(e, a, p, StandsSince(e, existing, a));
            var admits := v.Decided? && v.decision.why.Admitted?;
            var held := StandsSince(e, existing, a).Some? && IsPending(v);
            && (f.produced <==> !Stands(e, existing, a) && admits && p.delivered)
            && (f.write.Some? <==>
                  !Stands(e, existing, a) && v.Decided? && !held && (admits ==> p.delivered) && !p.crash)
            && (f.write.Some? ==> f.write.value == Row(e.sha(a), v.decision, p.now))
            && (f.outcome == Stored <==> f.write.Some?)
            && (f.outcome == SkippedUnchanged <==> Stands(e, existing, a))
            && (f.outcome == AuthzUnavailable <==> !Stands(e, existing, a) && v.NoAnswer?)
            && (f.outcome == NotCaughtUp <==> !Stands(e, existing, a) && v.Deferred?)
            && (f.outcome == HeldProvisional <==> !Stands(e, existing, a) && held)
            && (f.outcome == DeliveryFailed <==> !Stands(e, existing, a) && admits && !p.delivered)
            && f.outcome != NotAnObject
  {
    hide Decide;
    assert StandsSince(e, existing, a)
           == if existing.Some? && existing.value.sha == e.sha(a) && IsProvisional(existing.value.decision)
              then Some(SinceOf(existing.value)) else None;
  }

  class IntakeStore {
    const entry: Entry
    var rows: map<string, Row>
    /** The bodies confirmed onward, by hash. */
    ghost var onward: seq<string>

    constructor (entry: Entry)
      ensures this.entry == entry && rows == map[] && onward == [] && AdmitsWereSent()
    {
      this.entry, rows, onward := entry, map[], [];
    }

    ghost predicate AdmitsWereSent()
      reads this
    {
      forall k :: k in rows && rows[k].decision.why.Admitted? ==> rows[k].sha in onward
    }

    /** One fetched artifact: no row is looked up without a key, a stored admit was always
        confirmed onward first. */
    method ProcessArtifact(artifact: Json, p: Poll) returns (outcome: Outcome)
      requires AdmitsWereSent()
      modifies this
      ensures AdmitsWereSent()
      ensures !artifact.Obj? ==> outcome == NotAnObject && rows == old(rows) && onward == old(onward)
      ensures artifact.Obj? ==>
                var key := TextAt(artifact.fields, entry.keyAt);
                var row := if key != "" && key in old(rows) then Some(old(rows)[key]) else None;
                var effect := Handle(entry, row, artifact.fields, p);
                && outcome == effect.outcome
                && rows == (if effect.write.Some? then old(rows)[key := effect.write.value] else old(rows))
                && onward == old(onward) + if effect.produced then [entry.sha(artifact.fields)] else []
    {
      hide Decide, TextAt;
      if !artifact.Obj? { return NotAnObject; }
      var key := TextAt(artifact.fields, entry.keyAt);
      var existing: Option<Row> := None;
      if key != "" && key in rows { existing := Some(rows[key]); }
      var body := entry.sha(artifact.fields);
      var same := existing.Some? && existing.value.sha == body;
      var resolving := same && IsProvisional(existing.value.decision);
      if same && !resolving { return SkippedUnchanged; }
      var since: Option<int> := None;
      if resolving { since := Some(SinceOf(existing.value)); }
      var verdict := Decide(entry, artifact.fields, p, since);
      if verdict.NoAnswer? { return AuthzUnavailable; }
      if verdict.Deferred? { return NotCaughtUp; }
      var d := verdict.decision;
      if resolving && IsProvisional(d) { return HeldProvisional; }
      if d.why.Admitted? {
        if !p.delivered { return DeliveryFailed; }
        onward := onward + [body];
      }
      if p.crash { return Crashed; }
      rows := rows[key := Row(body, d, p.now)];
      outcome := Stored;
    }
  }

  // --- one body over many polls ----------------------------------------------

  /** The row of one key, how often the body went onward, and how often a crash came after
      that and before the row was written. */
  datatype World = World(row: Option<Row>, produced: nat, lost: nat)

  function Next(e: Entry, a: Record, w: World, p: Poll): World {
    var effect := Handle(e, w.row, a, p);
    World(if effect.write.Some? then effect.write else w.row,
          w.produced + (if effect.produced then 1 else 0),
          w.lost + if effect.produced && effect.outcome.Crashed? then 1 else 0)
  }

  function Life(e: Entry, a: Record, w: World, ps: seq<Poll>): World {
    if ps == [] then w else Next(e, a, Life(e, a, w, ps[..|ps| - 1]), ps[|ps| - 1])
  }

  datatype Stage = Absent | Provisional(since: int) | Settled

  function StageOf(e: Entry, a: Record, w: World): Stage {
    if w.row.None? || w.row.value.sha != e.sha(a) then Absent
    else if IsProvisional(w.row.value.decision) then Provisional(SinceOf(w.row.value))
    else Settled
  }

  /** None to provisional to settled, never back; a provisional row keeps its row and so
      its start; a settled row never changes and is never produced again. */
  lemma StepGoesForward(e: Entry, a: Record, w: World, p: Poll)
    ensures var s, n := StageOf(e, a, w), Next(e, a, w, p);
            && (s.Settled? ==> n == w)
            && (s.Provisional? ==> (StageOf(e, a, n) == s && n.row == w.row) || StageOf(e, a, n).Settled?)
            && (s.Absent? ==> n.row == w.row || StageOf(e, a, n).Settled?
                              || StageOf(e, a, n) == Provisional(p.now))
  {
    hide TextAt, ExtractLabelAt, Subjects, OnBehalf, AskAll, AskOnBehalf, SameLabel;
  }

  /** A settled row that came out of a provisional one by its timeout keeps the start. */
  lemma TimeoutKeepsSince(e: Entry, a: Record, w: World, p: Poll)
    requires StageOf(e, a, w).Provisional?
    requires StageOf(e, a, Next(e, a, w, p)).Settled? && Next(e, a, w, p).row.value.decision.why.AnsweredUnknown?
    ensures SinceOf(Next(e, a, w, p).row.value) == StageOf(e, a, w).since
    ensures p.now >= StageOf(e, a, w).since + e.timeout
  {
    hide TextAt, ExtractLabelAt, Subjects, OnBehalf, AskAll, AskOnBehalf, SameLabel;
  }

  /** Nothing went wrong outside: answers are caught up, the PDP answers, the onward
      delivery is confirmed and the row gets written. */
  ghost predicate Good(p: Poll) {
    p.caughtUp && (forall s :: p.ask(s).Some?) && p.delivered && !p.crash
  }

  predicate AnswersKnown(e: Entry, a: Record, p: Poll) {
    !e.valid(a) || (TextAt(a, e.refAt) != "" && TextAt(a, e.refAt) in p.answered)
  }

  lemma {:induction false} AskAllAnswers(p: Poll, subjects: seq<string>, l: Label)
    requires Good(p)
    ensures AskAll(p, subjects, l).Some?
  {
    hide Entitled;
    if subjects != [] { AskAllAnswers(p, subjects[1..], l); }
  }

  lemma OnBehalfAnswers(e: Entry, p: Poll, subject: string, l: Label)
    requires Good(p)
    ensures AskOnBehalf(e, p, subject, l).Some? && p.caughtUp
  {
    hide Entitled;
  }

  lemma GoodPollDecides(e: Entry, a: Record, p: Poll, since: Option<int>)
    requires Good(p)
    ensures var start := if since.Some? then since.value else p.now;
            && Decide(e, a, p, since).Decided?
            && (if AnswersKnown(e, a, p) then !IsProvisional(Decide(e, a, p, since).decision)
                else Decide(e, a, p, since).decision
                     == Decision(AnsweredUnknown, Some(p.now - start < e.timeout), Some(start)))
  {
    hide TextAt, ExtractLabelAt, Subjects, OnBehalf, AskAll, AskOnBehalf, SameLabel, Good;
    AskAllAnswers(p, Subjects(e, a), ExtractLabelAt(a, e.labelAt));
    OnBehalfAnswers(e, p, OnBehalf(e, a), ExtractLabelAt(a, e.labelAt));
  }

  /** After a good poll the artifact is settled exactly when what it answers is known or
      its refusal has stood for the timeout. */
  lemma GoodPollSettlesExactly(e: Entry, a: Record, w: World, p: Poll)
    requires Good(p) && !StageOf(e, a, w).Settled?
    ensures var s := if StageOf(e, a, w).Provisional? then StageOf(e, a, w).since else p.now;
            && (StageOf(e, a, Next(e, a, w, p)).Settled? <==> AnswersKnown(e, a, p) || p.now - s >= e.timeout)
            && (!StageOf(e, a, Next(e, a, w, p)).Settled? ==> StageOf(e, a, Next(e, a, w, p)) == Provisional(s))
  {
    GoodPollDecides(e, a, p, if StageOf(e, a, w).Provisional? then Some(StageOf(e, a, w).since) else None);
    hide Decide, AnswersKnown;
  }

  lemma LifeStep(e: Entry, a: Record, w: World, ps: seq<Poll>, i: nat)
    requires i < |ps|
    ensures Life(e, a, w, ps[..i + 1]) == Next(e, a, Life(e, a, w, ps[..i]), ps[i])
  {
    assert ps[..i + 1][..i] == ps[..i];
  }

  function Rank(s: Stage): nat { match s case Absent => 0 case Provisional(_) => 1 case Settled => 2 }

  /** Over any run of polls with the same body: stages only go forward, a provisional start
      never moves, and a settled row and the number of deliveries never change again. */
  lemma {:induction false} LifeGoesForward(e: Entry, a: Record, w: World, ps: seq<Poll>, i: nat, j: nat)
    requires i <= j <= |ps|
    ensures var x, y := Life(e, a, w, ps[..i]), Life(e, a, w, ps[..j]);
            && Rank(StageOf(e, a, x)) <= Rank(StageOf(e, a, y))
            && (StageOf(e, a, x).Provisional? && StageOf(e, a, y).Provisional? ==> x.row == y.row)
            && (StageOf(e, a, x).Settled? ==> x == y)
    decreases j - i
  {
    hide Next, Life, StageOf;
    if i < j {
      LifeGoesForward(e, a, w, ps, i, j - 1);
      LifeStep(e, a, w, ps, j - 1);
      StepGoesForward(e, a, Life(e, a, w, ps[..j - 1]), ps[j - 1]);
    }
  }

  /** Provisional since `s`, then a good poll at or past `s` plus the timeout: settled from
      then on. */
  lemma SettledByDeadline(e: Entry, a: Record, w: World, ps: seq<Poll>, i: nat, j: nat, k: nat)
    requires i <= j < k <= |ps| && Good(ps[j])
    requires StageOf(e, a, Life(e, a, w, ps[..i])).Provisional?
    requires ps[j].now >= StageOf(e, a, Life(e, a, w, ps[..i])).since + e.timeout
    ensures StageOf(e, a, Life(e, a, w, ps[..k])).Settled?
  {
    hide Next, Life, Good, AnswersKnown;
    var x, y := Life(e, a, w, ps[..i]), Life(e, a, w, ps[..j]);
    LifeGoesForward(e, a, w, ps, i, j);
    LifeStep(e, a, w, ps, j);
    if StageOf(e, a, y).Settled? {
      LifeGoesForward(e, a, w, ps, j, k);
    } else {
      assert StageOf(e, a, y) == StageOf(e, a, x);
      GoodPollSettlesExactly(e, a, y, ps[j]);
      LifeGoesForward(e, a, w, ps, j + 1, k);
    }
  }

  predicate IsAdmitted(e: Entry, a: Record, w: World) {
    StageOf(e, a, w).Settled? && w.row.value.decision.why.Admitted?
  }

  lemma StepCounts(e: Entry, a: Record, w: World, p: Poll)
    ensures Next(e, a, w, p).produced - Next(e, a, w, p).lost - (if IsAdmitted(e, a, Next(e, a, w, p)) then 1 else 0)
            == w.produced - w.lost - if IsAdmitted(e, a, w) then 1 else 0
  {
    hide Decide;
    DecidedAdmitsAreFinal(e, a, p, if StageOf(e, a, w).Provisional? then Some(SinceOf(w.row.value)) else None);
  }

  lemma DecidedAdmitsAreFinal(e: Entry, a: Record, p: Poll, since: Option<int>)
    ensures Decide(e, a, p, since).Decided? && Decide(e, a, p, since).decision.why.Admitted? ==>
              !IsProvisional(Decide(e, a, p, since).decision)
  {
    hide TextAt, ExtractLabelAt, Subjects, OnBehalf, AskAll, AskOnBehalf, SameLabel;
  }

  /** One body goes onward once for its stored admit, and once more for each crash between
      the confirmation and the write; never without one or the other. */
  lemma {:induction false} SentOncePerAdmit(e: Entry, a: Record, w: World, ps: seq<Poll>)
    requires w.row.None? && w.produced == 0 && w.lost == 0
    ensures Life(e, a, w, ps).produced
            == Life(e, a, w, ps).lost + if IsAdmitted(e, a, Life(e, a, w, ps)) then 1 else 0
  {
    hide Next, IsAdmitted;
    if ps == [] {
      assert !IsAdmitted(e, a, w) by { NoRowNoAdmit(e, a, w); }
    } else {
      SentOncePerAdmit(e, a, w, ps[..|ps| - 1]);
      StepCounts(e, a, Life(e, a, w, ps[..|ps| - 1]), ps[|ps| - 1]);
    }
  }

  lemma NoRowNoAdmit(e: Entry, a: Record, w: World)
    requires w.row.None?
    ensures !IsAdmitted(e, a, w)
  {
  }

  // --- cases -----------------------------------------------------------------

  /** A case is settled when some row answering it is. */
  predicate CaseIsFinal(decisions: seq<Decision>) {
    exists i :: 0 <= i < |decisions| && (decisions[i].why.Admitted? || !IsProvisional(decisions[i]))
  }

  method CaseSettled(decisions: seq<Decision>) returns (settled: bool)
    ensures settled == CaseIsFinal(decisions)
    ensures settled <==> exists d :: d in decisions && !IsProvisional(d)
  {
    for i := 0 to |decisions|
      invariant forall j :: 0 <= j < i ==> IsProvisional(decisions[j])
    {
      if decisions[i].why.Admitted? || !IsProvisional(decisions[i]) {
        assert decisions[i] in decisions;
        return true;
      }
    }
    settled := false;
  }
}
