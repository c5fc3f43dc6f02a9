/** Shape handles a principal may resume, newest last and bounded per (principal, view). */
module Handles {
  const MAX: nat := 8

  /** `del handles[:-MAX]` keeps the last MAX. */
  function LastMax(l: seq<string>): seq<string> {
    if |l| <= MAX then l else l[|l| - MAX..]
  }

  /** `list.remove`: the first occurrence goes. */
  function Remove(l: seq<string>, x: string): seq<string> {
    if l == [] then [] else if l[0] == x then l[1..] else [l[0]] + Remove(l[1..], x)
  }

  function Bound(l: seq<string>, x: string): seq<string> {
    LastMax(Remove(l, x) + [x])
  }

  /** A history with every earlier repeat left out. */
  function KeepLast(h: seq<string>): seq<string> {
    if h == [] then [] else if h[0] in h[1..] then KeepLast(h[1..]) else [h[0]] + KeepLast(h[1..])
  }

  ghost predicate Distinct(l: seq<string>) {
    forall i, j :: 0 <= i < j < |l| ==> l[i] != l[j]
  }

  lemma {:induction false} KeepLastElements(h: seq<string>)
    ensures forall x :: x in KeepLast(h) <==> x in h
    ensures Distinct(KeepLast(h))
  {
    if h != [] {
      KeepLastElements(h[1..]);
      assert h == [h[0]] + h[1..];
    }
  }

  lemma {:induction false} RemoveAbsent(l: seq<string>, x: string)
    requires x !in l
    ensures Remove(l, x) == l
  {
    if l != [] {
      assert l == [l[0]] + l[1..];
      RemoveAbsent(l[1..], x);
    }
  }

  lemma {:induction false} RemoveConcat(a: seq<string>, b: seq<string>, x: string)
    requires x !in a
    ensures Remove(a + b, x) == a + Remove(b, x)
  {
    if a == [] {
      assert a + b == b;
    } else {
      assert (a + b)[1..] == a[1..] + b;
      RemoveConcat(a[1..], b, x);
    }
  }

  /** Binding once more moves the handle to the end of the repeat-free history. */
  lemma {:induction false} KeepLastAppend(h: seq<string>, x: string)
    ensures KeepLast(h + [x]) == Remove(KeepLast(h), x) + [x]
  {
    if h == [] {
      assert h + [x] == [x];
    } else {
      var t := h[1..];
      KeepLastAppend(t, x);
      KeepLastElements(t);
      assert (h + [x])[1..] == t + [x];
      assert h[0] in t + [x] <==> h[0] in t || h[0] == x;
      if h[0] !in t && h[0] == x {
        RemoveAbsent(KeepLast(t), x);
      }
    }
  }

  lemma LastMaxTail(a: seq<string>, b: seq<string>)
    requires |b| >= MAX
    ensures LastMax(a + b) == LastMax(b)
  {
    assert (a + b)[|a| + (|b| - MAX)..] == b[|b| - MAX..];
  }

  lemma NotInBoth(a: seq<string>, b: seq<string>, x: string)
    requires Distinct(a + b) && x in a
    ensures x !in b
  {
    var i :| 0 <= i < |a| && a[i] == x;
    assert (a + b)[i] == x;
    forall j | 0 <= j < |b| ensures b[j] != x {
      assert (a + b)[|a| + j] == b[j];
    }
  }

  /** Dropping old entries before a bind or after it gives the same list. */
  lemma LastMaxBound(l: seq<string>, x: string)
    requires Distinct(l)
    ensures Bound(LastMax(l), x) == Bound(l, x)
  {
    if |l| > MAX {
      var a, b := l[..|l| - MAX], l[|l| - MAX..];
      assert l == a + b;
      if x in a {
        NotInBoth(a, b, x);
        RemoveAbsent(b, x);
        RemoveFirst(a, b, x);
        assert Remove(l, x) + [x] == Remove(a, x) + (b + [x]);
        LastMaxTail(Remove(a, x), b + [x]);
      } else {
        RemoveConcat(a, b, x);
        RemoveLength(b, x);
        assert Remove(l, x) + [x] == a + (Remove(b, x) + [x]);
        LastMaxTail(a, Remove(b, x) + [x]);
      }
    }
  }

  lemma {:induction false} RemoveLength(l: seq<string>, x: string)
    ensures |l| - 1 <= |Remove(l, x)| <= |l|
  {
    if l != [] { RemoveLength(l[1..], x); }
  }

  lemma {:induction false} RemoveFirst(a: seq<string>, b: seq<string>, x: string)
    requires x in a
    ensures Remove(a + b, x) == Remove(a, x) + b
  {
    if a[0] == x {
      assert (a + b)[1..] == a[1..] + b;
    } else {
      assert a == [a[0]] + a[1..];
      assert (a + b)[1..] == a[1..] + b;
      RemoveFirst(a[1..], b, x);
    }
  }

  /** The handles a bind history of one (principal, view) leaves. */
  function Left(h: seq<string>): seq<string> {
    if h == [] then [] else Bound(Left(h[..|h| - 1]), h[|h| - 1])
  }

  lemma LeftAppend(h: seq<string>, x: string)
    ensures Left(h + [x]) == Bound(Left(h), x)
  {
    assert (h + [x])[..|h|] == h;
  }

  /** After any binds the list is the last eight of the history without its earlier
      repeats. */
  lemma {:induction false} LeftIsRecent(h: seq<string>)
    ensures Left(h) == LastMax(KeepLast(h))
  {
    if h != [] {
      var init, x := h[..|h| - 1], h[|h| - 1];
      assert h == init + [x];
      LeftIsRecent(init);
      KeepLastAppend(init, x);
      KeepLastElements(init);
      LastMaxBound(KeepLast(init), x);
    }
  }

  ghost function Distincts(h: seq<string>): set<string> { set x | x in h }

  lemma {:induction false} KeepLastSize(h: seq<string>)
    ensures |KeepLast(h)| == |Distincts(h)|
  {
    if h != [] {
      KeepLastSize(h[1..]);
      assert h == [h[0]] + h[1..];
      if h[0] in h[1..] {
        assert Distincts(h) == Distincts(h[1..]);
      } else {
        assert Distincts(h) == Distincts(h[1..]) + {h[0]};
      }
    }
  }

  lemma {:induction false} SplitAtLast(h: seq<string>, i: nat)
    requires i < |h| && h[i] !in h[i + 1..]
    ensures exists p :: KeepLast(h) == p + [h[i]] + KeepLast(h[i + 1..])
  {
    if i == 0 {
      assert KeepLast(h) == [] + [h[0]] + KeepLast(h[1..]);
    } else {
      assert h[1..][i - 1] == h[i] && h[1..][i..] == h[i + 1..];
      SplitAtLast(h[1..], i - 1);
      var p :| KeepLast(h[1..]) == p + [h[i]] + KeepLast(h[i + 1..]);
      if h[0] in h[1..] {
        assert KeepLast(h) == p + [h[i]] + KeepLast(h[i + 1..]);
      } else {
        assert KeepLast(h) == ([h[0]] + p) + [h[i]] + KeepLast(h[i + 1..]);
      }
    }
  }

  lemma AmongLast(p: seq<string>, x: string, r: seq<string>)
    requires Distinct(p + [x] + r)
    ensures x in LastMax(p + [x] + r) <==> |r| < MAX
  {
    var l := p + [x] + r;
    assert l[|p|] == x;
    if |l| > MAX {
      var b := l[|l| - MAX..];
      if |r| < MAX {
        assert b[|p| - (|l| - MAX)] == l[|p|];
      } else {
        forall j | 0 <= j < |b| ensures b[j] != x { assert b[j] == l[|l| - MAX + j]; }
      }
    }
  }

  /** A handle resumes exactly while fewer than eight other handles were bound since its
      own last bind (at place `i`). */
  lemma ResumesWhileRecent(h: seq<string>, i: nat)
    requires i < |h| && h[i] !in h[i + 1..]
    ensures h[i] in Left(h) <==> |Distincts(h[i + 1..])| < MAX
  {
    LeftIsRecent(h);
    SplitAtLast(h, i);
    KeepLastSize(h[i + 1..]);
    KeepLastElements(h);
    var p :| KeepLast(h) == p + [h[i]] + KeepLast(h[i + 1..]);
    hide KeepLast, Left, LastMax;
    AmongLast(p, h[i], KeepLast(h[i + 1..]));
  }

  datatype Feed = Feed(principal: string, view: string)

  datatype Bind = Bind(feed: Feed, handle: string)

  /** The handles bound to one feed, in order; an empty handle binds nothing. */
  function Of(hist: seq<Bind>, f: Feed): seq<string> {
    if hist == [] then []
    else
      var before, b := Of(hist[..|hist| - 1], f), hist[|hist| - 1];
      if b.feed == f && b.handle != "" then before + [b.handle] else before
  }

  lemma OfAppend(hist: seq<Bind>, b: Bind)
    ensures forall f :: Of(hist + [b], f)
                        == if b.feed == f && b.handle != "" then Of(hist, f) + [b.handle] else Of(hist, f)
  {
    assert (hist + [b])[..|hist|] == hist;
  }

  /** The binding table; `hist` is every bind so far. */
  class Feeds {
    var feeds: map<Feed, seq<string>>
    ghost var hist: seq<Bind>

    /** Each feed's list depends on that feed's own binds alone. */
    ghost predicate Valid()
      reads this
    {
      forall f: Feed :: (if f in feeds then feeds[f] else []) == Left(Of(hist, f))
    }

    constructor ()
      ensures Valid() && hist == []
    {
      feeds, hist := map[], [];
    }

    method BindHandle(principal: string, view: string, handle: string)
      requires Valid()
      modifies this
      ensures Valid() && hist == old(hist) + [Bind(Feed(principal, view), handle)]
    {
      var key := Feed(principal, view);
      OfAppend(hist, Bind(key, handle));
      hide Of, Left, Remove;
      hist := hist + [Bind(key, handle)];
      if handle == "" { return; }
      var handles := if key in feeds then feeds[key] else [];
      LeftAppend(Of(old(hist), key), handle);
      if handle in handles {
        handles := Remove(handles, handle);
      } else {
        RemoveAbsent(handles, handle);
      }
      handles := handles + [handle];
      feeds := feeds[key := if |handles| > MAX then handles[|handles| - MAX..] else handles];
    }

    method BelongsTo(principal: string, view: string, handle: string) returns (yes: bool)
      requires Valid()
      ensures yes <==> handle in LastMax(KeepLast(Of(hist, Feed(principal, view))))
    {
      var key := Feed(principal, view);
      LeftIsRecent(Of(hist, key));
      yes := handle in if key in feeds then feeds[key] else [];
    }
  }
}
