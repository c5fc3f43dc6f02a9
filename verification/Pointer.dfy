/** JSON pointers (sections 3 to 5 of RFC 6901): splitting and unescaping, reading a value
    and writing one, creating objects on the way. */
module Pointer {
  import opened Options
  import Identity

  datatype Json =
    | Null
    | Bool(b: bool)
    | Num(n: int)
    | Str(s: string)
    | Arr(items: seq<Json>)
    | Obj(fields: map<string, Json>)

  type Tokens = seq<string>

  // --- text ------------------------------------------------------------------

  /** `str.replace` of the two-character text "~x" by one character. */
  function Replace(s: string, x: char, out: char): string {
    if |s| < 2 then s
    else if s[0] == '~' && s[1] == x then [out] + Replace(s[2..], x, out)
    else [s[0]] + Replace(s[1..], x, out)
  }

  /** "~1" first, then "~0". */
  function Unescape(s: string): string { Replace(Replace(s, '1', '/'), '0', '~') }

  function Escape(t: string): string {
    if t == "" then ""
    else (if t[0] == '~' then "~0" else if t[0] == '/' then "~1" else [t[0]]) + Escape(t[1..])
  }

  /** `str.split("/")`. */
  function Split(s: string): seq<string> {
    if s == "" then [""]
    else if s[0] == '/' then [""] + Split(s[1..])
    else var rest := Split(s[1..]); [[s[0]] + rest[0]] + rest[1..]
  }

  function UnescapeAll(ts: seq<string>): Tokens {
    if ts == [] then [] else [Unescape(ts[0])] + UnescapeAll(ts[1..])
  }

  /** The reference tokens of a pointer; `Err` names one that does not start with "/". */
  function Parse(ptr: string): Result<Tokens, string> {
    if ptr == "" then Ok([])
    else if ptr[0] != '/' then Err(ptr)
    else Ok(UnescapeAll(Split(ptr[1..])))
  }

  function Print(ts: Tokens): string {
    if ts == [] then "" else "/" + (Escape(ts[0]) + Print(ts[1..]))
  }

  /** Half-decoded: only "/" has come back. */
  function Tildes(t: string): string {
    if t == "" then "" else (if t[0] == '~' then "~0" else [t[0]]) + Tildes(t[1..])
  }

  lemma {:induction false} SlashesBack(t: string)
    ensures Replace(Escape(t), '1', '/') == Tildes(t)
  {
    if t != "" {
      SlashesBack(t[1..]);
      var e := Escape(t[1..]);
      if t[0] == '~' {
        assert ("~0" + e)[1..] == "0" + e && ("0" + e)[1..] == e;
        assert Replace("~0" + e, '1', '/') == ['~'] + Replace("0" + e, '1', '/');
      } else if t[0] == '/' {
        assert ("~1" + e)[2..] == e;
      } else {
        assert ([t[0]] + e)[1..] == e;
      }
    }
  }

  lemma {:induction false} TildesBack(t: string)
    ensures Replace(Tildes(t), '0', '~') == t
  {
    if t != "" {
      TildesBack(t[1..]);
      var e := Tildes(t[1..]);
      if t[0] == '~' {
        assert ("~0" + e)[2..] == e;
      } else {
        assert ([t[0]] + e)[1..] == e;
      }
    }
  }

  /** Unescaping undoes escaping, for every token. */
  lemma EscapeRoundTrip(t: string)
    ensures Unescape(Escape(t)) == t
  {
    SlashesBack(t);
    TildesBack(t);
  }

  lemma {:induction false} EscapeHasNoSlash(t: string)
    ensures '/' !in Escape(t)
  {
    if t != "" { EscapeHasNoSlash(t[1..]); }
  }

  lemma {:induction false} SplitAt(a: string, b: string)
    requires '/' !in a
    ensures Split(a + "/" + b) == [a] + Split(b)
  {
    var s := a + "/" + b;
    if a == "" {
      assert s == "/" + b;
      assert s[1..] == b;
    } else {
      SplitAt(a[1..], b);
      assert s[1..] == a[1..] + "/" + b;
      assert [a[0]] + a[1..] == a;
      assert ([a[1..]] + Split(b))[1..] == Split(b);
    }
  }

  lemma {:induction false} SplitWhole(a: string)
    requires '/' !in a
    ensures Split(a) == [a]
  {
    if a != "" {
      SplitWhole(a[1..]);
      assert [a[0]] + a[1..] == a;
    }
  }

  lemma UnescapeStep(t: string, rest: seq<string>)
    ensures UnescapeAll([Escape(t)] + rest) == [t] + UnescapeAll(rest)
  {
    EscapeRoundTrip(t);
    assert ([Escape(t)] + rest)[1..] == rest;
  }

  /** What `Print` makes of a first token and the rest splits back into the two. */
  lemma PrintedSplit(e: string, p: string)
    requires '/' !in e && (p == "" || p[0] == '/')
    ensures Split(e + p) == if p == "" then [e] else [e] + Split(p[1..])
  {
    hide Split;
    if p == "" {
      assert e + p == e;
      SplitWhole(e);
    } else {
      assert e + p == e + "/" + p[1..];
      SplitAt(e, p[1..]);
    }
  }

  lemma PrintStep(ts: Tokens)
    requires ts != []
    ensures Print(ts) != "" && Print(ts)[0] == '/' && Print(ts)[1..] == Escape(ts[0]) + Print(ts[1..])
  {
    hide Escape;
    var rest := Escape(ts[0]) + Print(ts[1..]);
    assert Print(ts) == "/" + rest;
    hide Print;
  }

  lemma {:induction false} SplitPrinted(ts: Tokens)
    requires ts != []
    ensures UnescapeAll(Split(Print(ts)[1..])) == ts
  {
    hide Escape, Unescape, UnescapeAll, Split, Print;
    var e, rest := Escape(ts[0]), ts[1..];
    var p := Print(rest);
    PrintStep(ts);
    EscapeHasNoSlash(ts[0]);
    assert [ts[0]] + rest == ts;
    if rest == [] {
      assert p == "" by { PrintNothing(); }
      PrintedSplit(e, p);
      UnescapeStep(ts[0], []);
      NoTokens();
      assert [e] + [] == [e];
    } else {
      PrintStep(rest);
      PrintedSplit(e, p);
      SplitPrinted(rest);
      UnescapeStep(ts[0], Split(p[1..]));
    }
  }

  /** Printing tokens and parsing them back gives the same tokens. */
  lemma PrintParse(ts: Tokens)
    ensures Parse(Print(ts)) == Ok(ts)
  {
    hide UnescapeAll, Split;
    if ts == [] {
      NoTokens();
    } else {
      PrintStep(ts);
      SplitPrinted(ts);
    }
  }

  lemma PrintNothing()
    ensures Print([]) == ""
  {
  }

  lemma NoTokens()
    ensures UnescapeAll([]) == []
  {
  }

  // --- reading ---------------------------------------------------------------

  predicate AllDigits(s: string) { forall i :: 0 <= i < |s| ==> '0' <= s[i] <= '9' }

  function Number(s: string): nat
    requires AllDigits(s)
  {
    if s == "" then 0 else 10 * Number(s[..|s| - 1]) + (s[|s| - 1] as int - '0' as int)
  }

  /** A list index: decimal digits. */
  function Index(tok: string): Option<nat> {
    if tok != "" && AllDigits(tok) then Some(Number(tok)) else None
  }

  /** Every index in decimal names itself, zeros before it do not count, and a token with
      anything but digits, or with nothing, is no index. */
  lemma {:induction false} IndexReads(n: nat)
    ensures Index(Identity.Digits(n)) == Some(n)
  {
    if n >= 10 {
      var s := Identity.Digits(n);
      IndexReads(n / 10);
      assert s[..|s| - 1] == Identity.Digits(n / 10) && s[|s| - 1] == Identity.Digit(n % 10);
      assert n == 10 * (n / 10) + n % 10;
    } else {
      var s := Identity.Digits(n);
      assert s == [Identity.Digit(n)] && s[..|s| - 1] == "" && Number("") == 0;
    }
  }

  lemma {:induction false} LeadingZero(tok: string)
    requires tok != ""
    ensures Index("0" + tok) == Index(tok)
  {
    var s := "0" + tok;
    assert forall i :: 0 <= i < |tok| ==> s[i + 1] == tok[i];
    if AllDigits(tok) {
      assert s[..|s| - 1] == "0" + tok[..|tok| - 1];
      if |tok| > 1 { LeadingZero(tok[..|tok| - 1]); }
      assert ("0")[..0] == "" && tok[..0] == "" && Number("0") == 0;
    }
  }

  lemma NoIndex(tok: string)
    ensures Index(tok).Some? <==> tok != "" && forall c :: c in tok ==> c in "0123456789"
  {
    forall c: char ensures c in "0123456789" <==> '0' <= c <= '9' { IsDigit(c); }
    assert forall i :: 0 <= i < |tok| ==> tok[i] in tok;
  }

  lemma IsDigit(c: char)
    ensures c in "0123456789" <==> '0' <= c <= '9'
  {
    var digits := "0123456789";
    if '0' <= c <= '9' { assert digits[c as int - '0' as int] == c; }
  }

  /** A token leads from a list to an entry exactly if it is the entry's index, from an object
      to a field of its name, and from anything else nowhere. */
  lemma ChildExactly(node: Json, tok: string, v: Json)
    ensures Get(node, [tok]) == Some(v) <==>
              (node.Obj? && tok in node.fields && node.fields[tok] == v)
              || (node.Arr? && exists i: nat :: i < |node.items| && Index(tok) == Some(i) && node.items[i] == v)
  {
    assert [tok][1..] == [];
  }

  /** A pointer is malformed exactly if it is not empty and does not start with a slash. */
  lemma MalformedExactly(ptr: string)
    ensures Parse(ptr).Ok? <==> ptr == "" || "/" <= ptr
    ensures Parse("") == Ok([])
  {
  }

  function Child(node: Json, tok: string): Option<Json> {
    match node
    case Obj(f) => if tok in f then Some(f[tok]) else None
    case Arr(xs) =>
      if Index(tok).Some? && Index(tok).value < |xs| then Some(xs[Index(tok).value]) else None
    case _ => None
  }

  function Get(doc: Json, ts: Tokens): Option<Json> {
    if ts == [] then Some(doc)
    else if Child(doc, ts[0]).None? then None
    else Get(Child(doc, ts[0]).value, ts[1..])
  }

  lemma {:induction false} GetConcat(doc: Json, a: Tokens, b: Tokens)
    ensures Get(doc, a + b) == if Get(doc, a).None? then None else Get(Get(doc, a).value, b)
  {
    if a == [] {
      assert a + b == b;
    } else {
      assert (a + b)[1..] == a[1..] + b;
      if Child(doc, a[0]).Some? { GetConcat(Child(doc, a[0]).value, a[1..], b); }
    }
  }

  /** The read walks down one token at a time and stops where nothing is. */
  method Read(doc: Json, ts: Tokens) returns (value: Option<Json>)
    ensures value == Get(doc, ts)
  {
    var node := doc;
    for i := 0 to |ts|
      invariant Get(doc, ts[..i]) == Some(node)
    {
      assert ts == ts[..i] + ts[i..];
      GetConcat(doc, ts[..i], ts[i..]);
      var next := Child(node, ts[i]);
      if next.None? { return None; }
      assert ts[..i + 1] == ts[..i] + [ts[i]];
      GetConcat(doc, ts[..i], [ts[i]]);
      node := next.value;
    }
    assert ts[..|ts|] == ts;
    value := Some(node);
  }

  // --- writing ---------------------------------------------------------------

  /** Write below an object, creating objects where nothing (or null) is; `None` when an
      intermediate token names something else. */
  function Put(f: map<string, Json>, ts: Tokens, v: Json): Option<map<string, Json>>
    requires ts != []
    decreases |ts|
  {
    if |ts| == 1 then Some(f[ts[0] := v])
    else if ts[0] !in f || f[ts[0]].Null? then Under(f, ts, map[], v)
    else if f[ts[0]].Obj? then Under(f, ts, f[ts[0]].fields, v)
    else None
  }

  function Under(f: map<string, Json>, ts: Tokens, below: map<string, Json>, v: Json): Option<map<string, Json>>
    requires |ts| > 1
    decreases |ts|, 0
  {
    var g := Put(below, ts[1..], v);
    if g.None? then None else Some(f[ts[0] := Obj(g.value)])
  }

  predicate Comparable(a: Tokens, b: Tokens) { a <= b || b <= a }

  /** What was written is read back. */
  lemma {:induction false} GetAfterPut(f: map<string, Json>, ts: Tokens, v: Json)
    requires ts != [] && Put(f, ts, v).Some?
    ensures Get(Obj(Put(f, ts, v).value), ts) == Some(v)
    decreases |ts|
  {
    var g := Put(f, ts, v).value;
    if |ts| == 1 {
      assert Get(v, ts[1..]) == Some(v);
    } else {
      GetAfterPut(Below(f, ts[0]), ts[1..], v);
    }
  }

  /** The object a write descends into. */
  function Below(f: map<string, Json>, tok: string): map<string, Json> {
    if tok in f && f[tok].Obj? then f[tok].fields else map[]
  }

  /** A read at an incomparable pointer does not see the write. */
  lemma {:induction false} PutFrame(f: map<string, Json>, ts: Tokens, v: Json, q: Tokens)
    requires ts != [] && Put(f, ts, v).Some? && !Comparable(ts, q)
    ensures Get(Obj(Put(f, ts, v).value), q) == Get(Obj(f), q)
    decreases |ts|
  {
    if q[0] == ts[0] && |ts| > 1 {
      assert q == [q[0]] + q[1..] && ts == [ts[0]] + ts[1..];
      assert !Comparable(ts[1..], q[1..]);
      PutFrame(Below(f, ts[0]), ts[1..], v, q[1..]);
      assert q[1..] != [];
    }
  }

  /** On the way to what was written there are only objects. */
  lemma {:induction false} PutPath(f: map<string, Json>, ts: Tokens, v: Json, n: nat)
    requires ts != [] && Put(f, ts, v).Some? && n < |ts|
    ensures Get(Obj(Put(f, ts, v).value), ts[..n]).Some?
    ensures Get(Obj(Put(f, ts, v).value), ts[..n]).value.Obj?
    decreases |ts|
  {
    if n > 0 {
      PutPath(Below(f, ts[0]), ts[1..], v, n - 1);
      assert ts[..n][1..] == ts[1..][..n - 1];
    }
  }

  /** A write fails exactly when a proper prefix of its pointer already names something
      that is neither an object nor null. */
  lemma {:induction false} PutSucceeds(f: map<string, Json>, ts: Tokens, v: Json)
    requires ts != []
    ensures Put(f, ts, v).Some? <==>
              forall n :: 0 < n < |ts| ==> Passable(Get(Obj(f), ts[..n]))
    decreases |ts|
  {
    if |ts| > 1 {
      assert ts[..1] == [ts[0]] && ts[..1][1..] == [];
      assert Passable(Get(Obj(f), ts[..1])) <==> ts[0] !in f || f[ts[0]].Obj? || f[ts[0]].Null?;
      if Passable(Get(Obj(f), ts[..1])) {
        var sub, us := Below(f, ts[0]), ts[1..];
        PutSucceeds(sub, us, v);
        forall n | 0 < n < |us|
          ensures Passable(Get(Obj(f), ts[..n + 1])) <==> Passable(Get(Obj(sub), us[..n]))
        {
          assert ts[..n + 1][1..] == us[..n] && ts[..n + 1][0] == ts[0] && us[..n] != [];
        }
        if forall n :: 0 < n < |us| ==> Passable(Get(Obj(sub), us[..n])) {
          forall n | 0 < n < |ts| ensures Passable(Get(Obj(f), ts[..n])) {
            if n > 1 { assert Passable(Get(Obj(sub), us[..n - 1])); }
          }
        }
        if forall n :: 0 < n < |ts| ==> Passable(Get(Obj(f), ts[..n])) {
          forall n | 0 < n < |us| ensures Passable(Get(Obj(sub), us[..n])) {
            assert Passable(Get(Obj(f), ts[..n + 1]));
          }
        }
      }
    }
  }

  predicate Passable(at: Option<Json>) { at.None? || at.value.Obj? || at.value.Null? }

  /** The tokens of a declared pointer, if it is one that can be written at. */
  function Target(ptr: string): Option<Tokens> {
    if Parse(ptr).Ok? && Parse(ptr).value != [] then Some(Parse(ptr).value) else None
  }

  /** `pointer.set` on the text of a pointer; `None` where it raises. */
  function SetAt(f: map<string, Json>, ptr: string, v: Json): Option<map<string, Json>> {
    if Target(ptr).None? then None else Put(f, Target(ptr).value, v)
  }

  /** `pointer.get` on the text of a pointer; `None` where nothing is or the text is malformed. */
  function ReadAt(doc: Json, ptr: string): Option<Json> {
    if Parse(ptr).Ok? then Get(doc, Parse(ptr).value) else None
  }

  // --- writing a whole record ------------------------------------------------

  datatype Entry = Entry(at: Tokens, value: Json)

  /** Writes in order into an empty document. */
  function PutAll(es: seq<Entry>): Option<map<string, Json>>
    requires forall e :: e in es ==> e.at != []
  {
    if es == [] then Some(map[])
    else
      var before := PutAll(es[..|es| - 1]);
      if before.None? then None else Put(before.value, es[|es| - 1].at, es[|es| - 1].value)
  }

  ghost predicate PrefixFree(es: seq<Entry>) {
    forall i, j :: 0 <= i < j < |es| ==> !Comparable(es[i].at, es[j].at)
  }

  ghost predicate ReadsBack(es: seq<Entry>, f: map<string, Json>) {
    forall i :: 0 <= i < |es| ==> Get(Obj(f), es[i].at) == Some(es[i].value)
  }

  /** Whatever is found below, and is not an object, was put there by an entry. */
  ghost predicate FromEntries(es: seq<Entry>, f: map<string, Json>) {
    forall q: Tokens :: Get(Obj(f), q).Some? && !Get(Obj(f), q).value.Obj?
                        ==> exists i :: 0 <= i < |es| && es[i].at <= q
  }

  lemma FromEntriesStep(es: seq<Entry>, f: map<string, Json>, e: Entry)
    requires FromEntries(es, f) && e.at != [] && Put(f, e.at, e.value).Some?
    ensures FromEntries(es + [e], Put(f, e.at, e.value).value)
  {
    var g := Put(f, e.at, e.value).value;
    forall q: Tokens | Get(Obj(g), q).Some? && !Get(Obj(g), q).value.Obj?
      ensures exists i :: 0 <= i < |es + [e]| && (es + [e])[i].at <= q
    {
      if e.at <= q {
        assert (es + [e])[|es|].at <= q;
      } else if q <= e.at {
        assert e.at[..|q|] == q;
        PutPath(f, e.at, e.value, |q|);
      } else {
        PutFrame(f, e.at, e.value, q);
        var i :| 0 <= i < |es| && es[i].at <= q;
        assert (es + [e])[i].at <= q;
      }
    }
  }

  lemma NextFits(es: seq<Entry>, f: map<string, Json>, e: Entry)
    requires FromEntries(es, f) && e.at != []
    requires forall i :: 0 <= i < |es| ==> !Comparable(es[i].at, e.at)
    ensures Put(f, e.at, e.value).Some?
  {
    PutSucceeds(f, e.at, e.value);
    forall n | 0 < n < |e.at| ensures Passable(Get(Obj(f), e.at[..n])) {
      assert e.at == e.at[..n] + e.at[n..];
    }
  }

  /** Nothing is found at a pointer apart from all entries. */
  ghost predicate NothingElse(es: seq<Entry>, f: map<string, Json>) {
    forall q: Tokens :: q != [] && (forall i :: 0 <= i < |es| ==> !Comparable(es[i].at, q)) ==> Get(Obj(f), q).None?
  }

  lemma ReadsBackStep(es: seq<Entry>, f: map<string, Json>, e: Entry)
    requires ReadsBack(es, f) && e.at != [] && Put(f, e.at, e.value).Some?
    requires forall i :: 0 <= i < |es| ==> !Comparable(es[i].at, e.at)
    ensures ReadsBack(es + [e], Put(f, e.at, e.value).value)
  {
    hide Get, Put;
    GetAfterPut(f, e.at, e.value);
    var g := Put(f, e.at, e.value).value;
    forall i | 0 <= i < |es + [e]| ensures Get(Obj(g), (es + [e])[i].at) == Some((es + [e])[i].value) {
      if i < |es| { PutFrame(f, e.at, e.value, es[i].at); }
    }
  }

  lemma NothingElseStep(es: seq<Entry>, f: map<string, Json>, e: Entry)
    requires NothingElse(es, f) && e.at != [] && Put(f, e.at, e.value).Some?
    ensures NothingElse(es + [e], Put(f, e.at, e.value).value)
  {
    hide Get, Put;
    var g, more := Put(f, e.at, e.value).value, es + [e];
    forall q: Tokens | q != [] && (forall i :: 0 <= i < |more| ==> !Comparable(more[i].at, q))
      ensures Get(Obj(g), q).None?
    {
      assert !Comparable(more[|es|].at, q);
      forall i | 0 <= i < |es| ensures !Comparable(es[i].at, q) { assert !Comparable(more[i].at, q); }
      PutFrame(f, e.at, e.value, q);
    }
  }

  /** If no pointer is a prefix of another, every write succeeds, every value reads back,
      and nothing is found at a pointer apart from all of them. */
  lemma {:induction false} PrefixFreeWrites(es: seq<Entry>)
    requires PrefixFree(es) && forall e :: e in es ==> e.at != []
    ensures PutAll(es).Some? && ReadsBack(es, PutAll(es).value) && FromEntries(es, PutAll(es).value)
    ensures NothingElse(es, PutAll(es).value)
  {
    if es != [] {
      var init, e := es[..|es| - 1], es[|es| - 1];
      assert es == init + [e];
      assert forall x :: x in init ==> x in es;
      PrefixFreeWrites(init);
      hide Put, Get, ReadsBack, FromEntries, NothingElse;
      var f := PutAll(init).value;
      assert PutAll(es) == Put(f, e.at, e.value);
      hide PutAll;
      NextFits(init, f, e);
      FromEntriesStep(init, f, e);
      ReadsBackStep(init, f, e);
      NothingElseStep(init, f, e);
    }
  }

  /** For distinct string values the condition is exact: all writes succeed and all
      values read back precisely when no pointer is a prefix of another. */
  lemma PrefixFreeExactly(es: seq<Entry>)
    requires forall e :: e in es ==> e.at != [] && e.value.Str?
    requires forall i, j :: 0 <= i < j < |es| ==> es[i].value != es[j].value
    ensures PutAll(es).Some? && ReadsBack(es, PutAll(es).value) <==> PrefixFree(es)
  {
    if PrefixFree(es) { PrefixFreeWrites(es); }
    if PutAll(es).Some? && ReadsBack(es, PutAll(es).value) {
      var f := PutAll(es).value;
      forall i, j | 0 <= i < j < |es| ensures !Comparable(es[i].at, es[j].at) {
        NotBoth(f, es[i], es[j]);
        NotBoth(f, es[j], es[i]);
      }
    }
  }

  lemma NotBoth(f: map<string, Json>, a: Entry, b: Entry)
    requires a.value.Str? && b.value.Str? && a.value != b.value
    requires Get(Obj(f), a.at) == Some(a.value) && Get(Obj(f), b.at) == Some(b.value)
    ensures !(a.at <= b.at)
  {
    if a.at <= b.at {
      assert b.at == a.at + b.at[|a.at|..];
      GetConcat(Obj(f), a.at, b.at[|a.at|..]);
    }
  }
}
