/** Names for episodes and for their events (egress/assembler.py): each is a uuid5 of one
    line of text. `uuid` stands for uuid5 of a text. */
module Identity {
  import opened Options

  // --- text ------------------------------------------------------------------

  function Join(sep: char, parts: seq<string>): string {
    if parts == [] then "" else if |parts| == 1 then parts[0] else parts[0] + [sep] + Join(sep, parts[1..])
  }

  ghost predicate Free(sep: char, parts: seq<string>) { forall p :: p in parts ==> sep !in p }

  lemma {:induction false} HeadOfJoin(sep: char, a: string, x: string, b: string, y: string)
    requires sep !in a && sep !in b
    requires x == "" || x[0] == sep
    requires y == "" || y[0] == sep
    requires a + x == b + y
    ensures a == b && x == y
  {
    assert a != "" ==> (a + x)[0] == a[0] && (a + x)[1..] == a[1..] + x;
    assert b != "" ==> (b + y)[0] == b[0] && (b + y)[1..] == b[1..] + y;
    assert a == "" ==> a + x == x;
    assert b == "" ==> b + y == y;
    if a != "" && b != "" {
      HeadOfJoin(sep, a[1..], x, b[1..], y);
      assert a == [a[0]] + a[1..] && b == [b[0]] + b[1..];
    }
  }

  /** A joined line of separator-free parts can be taken apart again. */
  lemma {:induction false} JoinInjective(sep: char, a: seq<string>, b: seq<string>)
    requires a != [] && b != [] && Free(sep, a) && Free(sep, b) && Join(sep, a) == Join(sep, b)
    ensures a == b
  {
    var x := if |a| == 1 then "" else [sep] + Join(sep, a[1..]);
    var y := if |b| == 1 then "" else [sep] + Join(sep, b[1..]);
    assert Join(sep, a) == a[0] + x && Join(sep, b) == b[0] + y;
    HeadOfJoin(sep, a[0], x, b[0], y);
    if |a| > 1 {
      assert x[1..] == Join(sep, a[1..]) && y[1..] == Join(sep, b[1..]);
      JoinInjective(sep, a[1..], b[1..]);
      assert a == [a[0]] + a[1..] && b == [b[0]] + b[1..];
    } else {
      assert a == [a[0]] && b == [b[0]];
    }
  }

  function Digit(d: nat): (c: char)
    requires d < 10
    ensures c as int == '0' as int + d
  {
    ('0' as int + d) as char
  }

  /** `str` of an integer. */
  function Decimal(n: int): string {
    if n < 0 then "-" + Digits(-n) else Digits(n)
  }

  function Digits(n: nat): (s: string)
    ensures s != "" && forall i :: 0 <= i < |s| ==> '0' <= s[i] <= '9'
  {
    if n < 10 then [Digit(n)] else Digits(n / 10) + [Digit(n % 10)]
  }

  lemma {:induction false} DigitsInjective(m: nat, n: nat)
    requires Digits(m) == Digits(n)
    ensures m == n
  {
    var s := Digits(m);
    assert s[|s| - 1] == Digit(m % 10) && s[|s| - 1] == Digit(n % 10);
    assert |Digits(m)| == 1 <==> m < 10;
    assert |Digits(n)| == 1 <==> n < 10;
    if m >= 10 && n >= 10 {
      assert s[..|s| - 1] == Digits(m / 10) == Digits(n / 10);
      DigitsInjective(m / 10, n / 10);
      assert m == 10 * (m / 10) + m % 10 && n == 10 * (n / 10) + n % 10;
    }
  }

  lemma DecimalInjective(m: int, n: int)
    requires Decimal(m) == Decimal(n)
    ensures m == n
  {
    assert Decimal(m)[0] == '-' <==> m < 0;
    assert Decimal(n)[0] == '-' <==> n < 0;
    if m < 0 && n < 0 {
      assert Decimal(m)[1..] == Digits(-m) && Decimal(n)[1..] == Digits(-n);
      DigitsInjective(-m, -n);
    } else if m >= 0 && n >= 0 {
      DigitsInjective(m, n);
    }
  }

  lemma DecimalHasNo(n: int, c: char)
    requires c != '-' && !('0' <= c <= '9')
    ensures c !in Decimal(n)
  {
  }

  // --- order of text, for the sorted source ids --------------------------------

  predicate Le(a: string, b: string) {
    a == "" || (b != "" && (a[0] < b[0] || (a[0] == b[0] && Le(a[1..], b[1..]))))
  }

  lemma {:induction false} LeTotal(a: string, b: string)
    ensures Le(a, b) || Le(b, a)
  {
    if a != "" && b != "" { LeTotal(a[1..], b[1..]); }
  }

  lemma {:induction false} LeTransitive(a: string, b: string, c: string)
    requires Le(a, b) && Le(b, c)
    ensures Le(a, c)
  {
    if a != "" && a[0] == b[0] == c[0] { LeTransitive(a[1..], b[1..], c[1..]); }
  }

  lemma {:induction false} LeastExists(s: set<string>) returns (least: string)
    requires s != {}
    ensures least in s && forall x :: x in s ==> Le(least, x)
  {
    var one :| one in s;
    LeTotal(one, one);
    if s == {one} {
      least := one;
    } else {
      var rest := LeastExists(s - {one});
      LeTotal(one, rest);
      if Le(one, rest) {
        forall x | x in s ensures Le(one, x) { if x != one { LeTransitive(one, rest, x); } }
        least := one;
      } else {
        least := rest;
      }
    }
  }

  ghost function Sorted(s: set<string>): (out: seq<string>)
    ensures forall x :: x in out <==> x in s
    ensures |out| == |s|
  {
    if s == {} then []
    else
      assert exists m :: m in s && forall x :: x in s ==> Le(m, x) by { var least := LeastExists(s); }
      var m :| m in s && forall x :: x in s ==> Le(m, x);
      [m] + Sorted(s - {m})
  }

  lemma {:induction false} SortedAscends(s: set<string>)
    ensures forall i, j :: 0 <= i < j < |Sorted(s)| ==> Le(Sorted(s)[i], Sorted(s)[j])
  {
    if s != {} {
      var out := Sorted(s);
      var rest := Sorted(s - {out[0]});
      SortedAscends(s - {out[0]});
      assert out == [out[0]] + rest;
      assert forall x :: x in s ==> Le(out[0], x);
      forall i, j | 0 <= i < j < |out| ensures Le(out[i], out[j]) {
        assert out[j] in s;
        if i > 0 { assert Le(rest[i - 1], rest[j - 1]); }
      }
    }
  }

  lemma {:induction false} LeAntisymmetric(a: string, b: string)
    requires Le(a, b) && Le(b, a)
    ensures a == b
  {
    if a != "" {
      LeAntisymmetric(a[1..], b[1..]);
      assert a == [a[0]] + a[1..] && b == [b[0]] + b[1..];
    }
  }

  /** In ascending order, each once. */
  ghost predicate Ascends(parts: seq<string>) {
    forall i, j :: 0 <= i < j < |parts| ==> Le(parts[i], parts[j]) && parts[i] != parts[j]
  }

  /** What ascends already is its own sorting. */
  lemma {:induction false} SortedIs(s: set<string>, out: seq<string>)
    requires Ascends(out) && forall x :: x in out <==> x in s
    ensures Sorted(s) == out
  {
    var sorted := Sorted(s);
    if out == [] {
      assert s == {};
    } else {
      assert out[0] in s && s != {};
      var m := sorted[0];
      assert m in s && m in out && Le(m, out[0]);
      if m != out[0] { LeAntisymmetric(m, out[0]); }
      assert out == [m] + out[1..];
      SortedIs(s - {m}, out[1..]);
    }
  }

  // --- the ids ---------------------------------------------------------------

  /** One occurrence of a fault. */
  datatype Occurrence = Occurrence(kind: string, tier: string, asset: string, component: string,
                                   fault: string, detectedAt: int)

  function Parts(o: Occurrence): seq<string> {
    [o.kind, o.tier, o.asset, o.component, o.fault, Decimal(o.detectedAt)]
  }

  function RecordKey(uuid: string -> string, o: Occurrence): string { uuid(Join('|', Parts(o))) }

  ghost function Distinct(ids: seq<string>): set<string> { set i | i in ids }

  ghost function EventIdFor(uuid: string -> string, episodeId: string, sources: seq<string>,
                            transition: Option<string>): string {
    if transition.Some? then uuid(Join('|', [episodeId, "arrival", transition.value]))
    else if |Distinct(sources)| < 2 then episodeId
    else uuid(Join('|', [episodeId, "sources", Join(',', Sorted(Distinct(sources)))]))
  }

  /** uuid5 as far as the ids rely on it: no two texts collide, and its text has no '|'. */
  ghost predicate UuidLike(uuid: string -> string) {
    (forall a, b :: uuid(a) == uuid(b) ==> a == b) && forall a :: '|' !in uuid(a)
  }

  ghost predicate PlainOccurrence(o: Occurrence) {
    '|' !in o.kind && '|' !in o.tier && '|' !in o.asset && '|' !in o.component && '|' !in o.fault
  }

  // Counting separators.

  function Count(sep: char, s: string): nat {
    if s == "" then 0 else (if s[0] == sep then 1 else 0) + Count(sep, s[1..])
  }

  function Counts(sep: char, parts: seq<string>): nat {
    if parts == [] then 0 else Count(sep, parts[0]) + Counts(sep, parts[1..])
  }

  lemma {:induction false} CountConcat(sep: char, a: string, b: string)
    ensures Count(sep, a + b) == Count(sep, a) + Count(sep, b)
  {
    if a == "" {
      assert a + b == b;
    } else {
      CountConcat(sep, a[1..], b);
      assert (a + b)[1..] == a[1..] + b;
    }
  }

  lemma {:induction false} CountNone(sep: char, s: string)
    ensures Count(sep, s) == 0 <==> sep !in s
  {
    if s != "" {
      CountNone(sep, s[1..]);
      assert s == [s[0]] + s[1..];
    }
  }

  lemma {:induction false} CountsNone(sep: char, parts: seq<string>)
    ensures Counts(sep, parts) == 0 <==> Free(sep, parts)
  {
    if parts != [] {
      CountNone(sep, parts[0]);
      CountsNone(sep, parts[1..]);
      assert parts == [parts[0]] + parts[1..];
    }
  }

  lemma {:induction false} CountJoin(sep: char, parts: seq<string>)
    requires parts != []
    ensures Count(sep, Join(sep, parts)) == |parts| - 1 + Counts(sep, parts)
  {
    if |parts| > 1 {
      CountJoin(sep, parts[1..]);
      CountConcat(sep, parts[0] + [sep], Join(sep, parts[1..]));
      CountConcat(sep, parts[0], [sep]);
      assert [sep][1..] == "";
    }
  }

  /** As many parts as a separator-free line has are separator-free themselves, and the same. */
  lemma JoinInjectiveOneSided(sep: char, a: seq<string>, b: seq<string>)
    requires a != [] && |a| == |b| && Free(sep, a) && Join(sep, a) == Join(sep, b)
    ensures a == b
  {
    CountJoin(sep, a);
    CountJoin(sep, b);
    CountsNone(sep, a);
    CountsNone(sep, b);
    JoinInjective(sep, a, b);
  }

  /** Two neighbouring parts and one part holding both read alike. */
  lemma {:induction false} JoinMerge(sep: char, pre: seq<string>, u: string, v: string, post: seq<string>)
    ensures Join(sep, pre + [u, v] + post) == Join(sep, pre + [u + [sep] + v] + post)
  {
    var two, one := pre + [u, v] + post, pre + [u + [sep] + v] + post;
    if pre == [] {
      assert two[1..] == [v] + post && one[1..] == post && two[1..][1..] == post;
      if post == [] {
        assert Join(sep, two) == u + [sep] + v;
      } else {
        assert Join(sep, two) == u + [sep] + (v + [sep] + Join(sep, post));
        assert Join(sep, one) == u + [sep] + v + [sep] + Join(sep, post);
      }
    } else {
      assert two[1..] == pre[1..] + [u, v] + post && one[1..] == pre[1..] + [u + [sep] + v] + post;
      JoinMerge(sep, pre[1..], u, v, post);
    }
  }

  /** A separator inside a part can move into the neighbour. */
  lemma JoinShift(sep: char, pre: seq<string>, x: string, y: string, z: string, post: seq<string>)
    ensures Join(sep, pre + [x + [sep] + y, z] + post) == Join(sep, pre + [x, y + [sep] + z] + post)
  {
    JoinMerge(sep, pre, x, y, [z] + post);
    JoinMerge(sep, pre + [x], y, z, post);
    assert pre + [x + [sep] + y] + ([z] + post) == pre + [x + [sep] + y, z] + post;
    assert pre + [x, y] + ([z] + post) == pre + [x] + [y, z] + post;
    assert pre + [x] + [y + [sep] + z] + post == pre + [x, y + [sep] + z] + post;
  }

  lemma {:induction false} CutAt(sep: char, s: string) returns (x: string, y: string)
    requires sep in s
    ensures s == x + [sep] + y
  {
    if s[0] == sep {
      x, y := "", s[1..];
    } else {
      assert s == [s[0]] + s[1..];
      x, y := CutAt(sep, s[1..]);
      x := [s[0]] + x;
    }
  }

  /** Whoever has a separator in a field shares its key with another occurrence, whatever
      `uuid` is. */
  lemma SeparatorsCollide(uuid: string -> string, a: Occurrence) returns (b: Occurrence)
    requires !PlainOccurrence(a)
    ensures b != a && RecordKey(uuid, b) == RecordKey(uuid, a)
  {
    hide Decimal, Join;
    var d := Decimal(a.detectedAt);
    if '|' in a.kind {
      var x, y := CutAt('|', a.kind);
      b := a.(kind := x, tier := y + "|" + a.tier);
      JoinShift('|', [], x, y, a.tier, [a.asset, a.component, a.fault, d]);
      assert Parts(a) == [] + [x + "|" + y, a.tier] + [a.asset, a.component, a.fault, d];
      assert Parts(b) == [] + [x, y + "|" + a.tier] + [a.asset, a.component, a.fault, d];
    } else if '|' in a.tier {
      var x, y := CutAt('|', a.tier);
      b := a.(tier := x, asset := y + "|" + a.asset);
      JoinShift('|', [a.kind], x, y, a.asset, [a.component, a.fault, d]);
      assert Parts(a) == [a.kind] + [x + "|" + y, a.asset] + [a.component, a.fault, d];
      assert Parts(b) == [a.kind] + [x, y + "|" + a.asset] + [a.component, a.fault, d];
    } else if '|' in a.asset {
      var x, y := CutAt('|', a.asset);
      b := a.(asset := x, component := y + "|" + a.component);
      JoinShift('|', [a.kind, a.tier], x, y, a.component, [a.fault, d]);
      assert Parts(a) == [a.kind, a.tier] + [x + "|" + y, a.component] + [a.fault, d];
      assert Parts(b) == [a.kind, a.tier] + [x, y + "|" + a.component] + [a.fault, d];
    } else if '|' in a.component {
      var x, y := CutAt('|', a.component);
      b := a.(component := x, fault := y + "|" + a.fault);
      JoinShift('|', [a.kind, a.tier, a.asset], x, y, a.fault, [d]);
      assert Parts(a) == [a.kind, a.tier, a.asset] + [x + "|" + y, a.fault] + [d];
      assert Parts(b) == [a.kind, a.tier, a.asset] + [x, y + "|" + a.fault] + [d];
    } else {
      var x, y := CutAt('|', a.fault);
      b := a.(component := a.component + "|" + x, fault := y);
      JoinShift('|', [a.kind, a.tier, a.asset], a.component, x, y, [d]);
      assert Parts(a) == [a.kind, a.tier, a.asset] + [a.component, x + "|" + y] + [d];
      assert Parts(b) == [a.kind, a.tier, a.asset] + [a.component + "|" + x, y] + [d];
    }
    assert b != a by {
      assert |b.kind| < |a.kind| || |b.tier| < |a.tier| || |b.asset| < |a.asset|
             || |b.component| < |a.component| || |b.fault| < |a.fault|;
    }
  }

  /** A plain occurrence shares its key with no other, plain or not. */
  lemma RecordKeyNamesOccurrence(uuid: string -> string, a: Occurrence, b: Occurrence)
    requires UuidLike(uuid) && PlainOccurrence(a)
    ensures RecordKey(uuid, a) == RecordKey(uuid, b) <==> a == b
  {
    if RecordKey(uuid, a) == RecordKey(uuid, b) {
      DecimalHasNo(a.detectedAt, '|');
      hide Join, Decimal;
      JoinInjectiveOneSided('|', Parts(a), Parts(b));
      assert Parts(a)[0] == Parts(b)[0] && Parts(a)[1] == Parts(b)[1] && Parts(a)[2] == Parts(b)[2];
      assert Parts(a)[3] == Parts(b)[3] && Parts(a)[4] == Parts(b)[4] && Parts(a)[5] == Parts(b)[5];
      DecimalInjective(a.detectedAt, b.detectedAt);
    }
  }

  /** A key names one occurrence exactly when none of its fields contains the separator. */
  lemma RecordKeyNamesExactly(uuid: string -> string, a: Occurrence)
    requires UuidLike(uuid)
    ensures (forall b :: RecordKey(uuid, b) == RecordKey(uuid, a) ==> b == a) <==> PlainOccurrence(a)
  {
    if PlainOccurrence(a) {
      forall b | RecordKey(uuid, b) == RecordKey(uuid, a) ensures b == a { RecordKeyNamesOccurrence(uuid, a, b); }
    } else {
      var b := SeparatorsCollide(uuid, a);
    }
  }

  /** What one event of an episode is. */
  datatype Event = Opening(of: Occurrence) | Revision(of: Occurrence, sources: set<string>)
                 | Arrival(of: Occurrence, id: string)

  ghost function EventOf(o: Occurrence, sources: seq<string>, transition: Option<string>): Event {
    if transition.Some? then Arrival(o, transition.value)
    else if |Distinct(sources)| < 2 then Opening(o)
    else Revision(o, Distinct(sources))
  }

  /** Source and transition ids without the two separators. */
  ghost predicate PlainIds(sources: seq<string>, transition: Option<string>) {
    (transition.Some? ==> '|' !in transition.value)
    && forall i :: i in sources ==> '|' !in i && ',' !in i
  }

  /** The text an event's id is the uuid of. */
  ghost function Seed(uuid: string -> string, e: Event): seq<string> {
    match e
    case Opening(o) => Parts(o)
    case Revision(o, ids) => [RecordKey(uuid, o), "sources", Join(',', Sorted(ids))]
    case Arrival(o, t) => [RecordKey(uuid, o), "arrival", t]
  }

  lemma {:induction false} JoinFree(sep: char, other: char, parts: seq<string>)
    requires Free(other, parts) && sep != other
    ensures other !in Join(sep, parts)
  {
    if |parts| > 1 { JoinFree(sep, other, parts[1..]); }
  }

  lemma SeedText(uuid: string -> string, o: Occurrence, sources: seq<string>, transition: Option<string>)
    requires UuidLike(uuid) && PlainIds(sources, transition)
    ensures EventIdFor(uuid, RecordKey(uuid, o), sources, transition)
            == uuid(Join('|', Seed(uuid, EventOf(o, sources, transition))))
    ensures PlainOccurrence(o) || !EventOf(o, sources, transition).Opening? ==>
              Free('|', Seed(uuid, EventOf(o, sources, transition)))
  {
    hide Join, Sorted, Decimal;
    DecimalHasNo(o.detectedAt, '|');
    var ids := Sorted(Distinct(sources));
    assert Free('|', ids);
    JoinFree(',', '|', ids);
  }

  /** Without that, two sets of sources can share an id: wherever two neighbours in order,
      read as one id, keep their place, `uuid` being whatever it is. */
  lemma CommasCollide(uuid: string -> string, episodeId: string, pre: seq<string>, x: string, y: string,
                      post: seq<string>)
    requires Ascends(pre + [x, y] + post) && Ascends(pre + [x + "," + y] + post) && pre + post != []
    ensures Distinct(pre + [x + "," + y] + post) != Distinct(pre + [x, y] + post)
    ensures EventIdFor(uuid, episodeId, pre + [x + "," + y] + post, None)
            == EventIdFor(uuid, episodeId, pre + [x, y] + post, None)
  {
    var one, two := pre + [x + "," + y] + post, pre + [x, y] + post;
    hide Le;
    SortedIs(Distinct(one), one);
    SortedIs(Distinct(two), two);
    JoinMerge(',', pre, x, y, post);
    MergedIsNew(pre, x, y, post);
    hide Join, Sorted, Ascends;
    assert |Distinct(one)| == |one| && |Distinct(two)| == |two|;
    assert (x + "," + y in Distinct(one)) by { assert one[|pre|] in one; }
  }

  lemma MergedIsNew(pre: seq<string>, x: string, y: string, post: seq<string>)
    requires Ascends(pre + [x + "," + y] + post)
    ensures x + "," + y !in pre + [x, y] + post
  {
    hide Le;
    var one, merged := pre + [x + "," + y] + post, x + "," + y;
    assert one[|pre|] == merged && |merged| > |x| && |merged| > |y|;
    forall i | 0 <= i < |pre| ensures pre[i] != merged { assert one[i] == pre[i]; }
    forall i | 0 <= i < |post| ensures post[i] != merged { assert one[|pre| + 1 + i] == post[i]; }
  }

  /** The sources `a,b` and `c` read like `a`, `b` and `c`. */
  lemma CommasCollideHere(uuid: string -> string, episodeId: string)
    ensures EventIdFor(uuid, episodeId, ["a,b", "c"], None) == EventIdFor(uuid, episodeId, ["a", "b", "c"], None)
  {
    assert "a" + "," + "b" == "a,b";
    assert [] + ["a", "b"] + ["c"] == ["a", "b", "c"] && [] + ["a,b"] + ["c"] == ["a,b", "c"];
    assert Le("a,b", "c") && Le("a", "b") && Le("a", "c") && Le("b", "c");
    CommasCollide(uuid, episodeId, [], "a", "b", ["c"]);
  }

  /** Two ids are equal exactly for the same event: the opening of one occurrence, its
      revision by one set of sources whatever their order, or its re-send for one arrival.
      One of the two occurrences needs to be plain, and the source and transition ids. */
  lemma EventIdNamesEvent(uuid: string -> string, o: Occurrence, sources: seq<string>, t: Option<string>,
                          p: Occurrence, others: seq<string>, u: Option<string>)
    requires UuidLike(uuid) && PlainOccurrence(o) && PlainIds(sources, t) && PlainIds(others, u)
    ensures EventIdFor(uuid, RecordKey(uuid, o), sources, t) == EventIdFor(uuid, RecordKey(uuid, p), others, u)
            <==> EventOf(o, sources, t) == EventOf(p, others, u)
  {
    SeedText(uuid, o, sources, t);
    SeedText(uuid, p, others, u);
    var e, f := EventOf(o, sources, t), EventOf(p, others, u);
    hide EventIdFor, Join;
    if uuid(Join('|', Seed(uuid, e))) == uuid(Join('|', Seed(uuid, f))) {
      SameSeed(Seed(uuid, e), Seed(uuid, f));
      SeedInjective(uuid, o, sources, t, p, others, u);
    }
  }

  /** A separator-free line and another of as many parts, or of three separator-free ones. */
  lemma SameSeed(a: seq<string>, b: seq<string>)
    requires Free('|', a) && Join('|', a) == Join('|', b) && |a| in {3, 6} && |b| in {3, 6}
    requires |b| == 3 ==> Free('|', b)
    ensures a == b
  {
    CountJoin('|', a);
    CountJoin('|', b);
    CountsNone('|', a);
    CountsNone('|', b);
    hide Join;
    assert |a| == |b|;
    JoinInjectiveOneSided('|', a, b);
  }

  lemma SeedInjective(uuid: string -> string, o: Occurrence, sources: seq<string>, t: Option<string>,
                      p: Occurrence, others: seq<string>, u: Option<string>)
    requires UuidLike(uuid) && PlainOccurrence(o) && PlainIds(sources, t) && PlainIds(others, u)
    requires Seed(uuid, EventOf(o, sources, t)) == Seed(uuid, EventOf(p, others, u))
    ensures EventOf(o, sources, t) == EventOf(p, others, u)
  {
    hide RecordKey, Join, Sorted, Decimal, Le;
    var e, f := EventOf(o, sources, t), EventOf(p, others, u);
    var a, b := Seed(uuid, e), Seed(uuid, f);
    assert |a| == |b|;
    if e.Opening? {
      assert a[5] == b[5] && a[0] == b[0] && a[1] == b[1] && a[2] == b[2] && a[3] == b[3] && a[4] == b[4];
      DecimalInjective(o.detectedAt, p.detectedAt);
    } else {
      assert a[0] == b[0] && a[1] == b[1] && a[2] == b[2];
      RecordKeyNamesOccurrence(uuid, o, p);
      if e.Revision? {
        assert f.Revision?;
        JoinInjective(',', Sorted(e.sources), Sorted(f.sources));
        assert e.sources == f.sources;
      }
    }
  }
}
