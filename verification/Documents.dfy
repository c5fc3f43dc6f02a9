/** A document as the process holds it: dictionaries inside dictionaries, written in place
    (egress/pointer.py). */
module Documents {
  import opened Options
  import opened Pointer

  /** What a dictionary holds at a key: a plain value, or a dictionary of its own. */
  datatype Node = Leaf(v: Json) | Sub(d: Dict)

  class Dict {
    var entries: map<string, Node>
    /** This dictionary and every one below it, and what they stand for together. */
    ghost var repr: set<Dict>
    ghost var value: map<string, Json>

    ghost predicate Valid()
      reads this, repr
      decreases repr, 1
    {
      this in repr && Fits(this, entries, value, None, repr)
    }

    /** Entries that stand for a value, apart from what is at `but`: the dictionaries below
        `self` are valid, lie within `all` and share no part. */
    static ghost predicate Fits(self: Dict, es: map<string, Node>, f: map<string, Json>, but: Option<string>,
                                all: set<Dict>)
      reads all - {self}
      decreases all, 0
    {
      && self in all && es.Keys == f.Keys
      && (forall k :: k in es && Some(k) != but && es[k].Leaf? ==> f[k] == es[k].v)
      && (forall k :: k in es && Some(k) != but && es[k].Sub? ==>
          Under(self, es[k].d, all) && f[k] == Obj(es[k].d.value))
      && (forall k, l :: (k in es && l in es && k != l && Some(k) != but && Some(l) != but && es[k].Sub? && es[l].Sub?)
                         ==> es[k].d.repr !! es[l].d.repr)
    }

    static ghost predicate Under(self: Dict, d: Dict, all: set<Dict>)
      reads all - {self}
      decreases all, 0, 0
    {
      self in all && d in all - {self} && d in d.repr && d.repr <= all - {self} && d.Valid()
    }

    /** A valid dictionary without one of its keys leaves that key's part free. */
    static lemma TakeOut(self: Dict, es: map<string, Node>, f: map<string, Json>, tok: string, all: set<Dict>)
      requires Fits(self, es, f, None, all)
      ensures if tok in es && es[tok].Sub? then
                Under(self, es[tok].d, all) && Fits(self, es, f, Some(tok), all - es[tok].d.repr)
              else Fits(self, es, f, Some(tok), all)
    {
      if tok in es && es[tok].Sub? {
        var d := es[tok].d;
        forall k | k in es && k != tok && es[k].Sub? ensures Under(self, es[k].d, all - d.repr) {
          assert es[k].d.repr !! d.repr;
        }
      }
    }

    /** Another node at the key; a dictionary brings its own part. */
    static lemma PutLeaf(self: Dict, es: map<string, Node>, f: map<string, Json>, tok: string, v: Json, all: set<Dict>)
      requires Fits(self, es, f, Some(tok), all)
      ensures Fits(self, es[tok := Leaf(v)], f[tok := v], None, all)
    {
    }

    static lemma PutSub(self: Dict, es: map<string, Node>, f: map<string, Json>, tok: string, next: Dict,
                        all: set<Dict>)
      requires Fits(self, es, f, Some(tok), all) && next.Valid() && next.repr !! all
      ensures Fits(self, es[tok := Sub(next)], f[tok := Obj(next.value)], None, all + next.repr)
    {
      var most := all + next.repr;
      assert Under(self, next, most);
      forall k | k in es && k != tok && es[k].Sub? ensures Under(self, es[k].d, most) && es[k].d.repr !! next.repr {
        assert Under(self, es[k].d, all);
      }
    }

    constructor (f: map<string, Json>)
      ensures Valid() && fresh(repr) && value == f
    {
      entries := map k | k in f :: Leaf(f[k]);
      repr, value := {this}, f;
    }

    method PutLast(tok: string, v: Json)
      requires Valid()
      modifies this
      ensures Valid() && repr <= old(repr) && value == old(value)[tok := v]
    {
      TakeOut(this, entries, value, tok, repr);
      ghost var all := if tok in entries && entries[tok].Sub? then repr - entries[tok].d.repr else repr;
      PutLeaf(this, entries, value, tok, v, all);
      assert this in all by { assert Fits(this, entries, value, Some(tok), all); }
      hide Fits;
      entries, value, repr := entries[tok := Leaf(v)], value[tok := v], all;
    }

    /** Write below the dictionary at a key, which hangs there afterwards if it did before
        or if the write went through. */
    method Descend(tok: string, next: Dict, ghost rest: set<Dict>, ts: Tokens, v: Json) returns (ok: bool)
      requires Fits(this, entries, value, Some(tok), rest) && this in rest && next.Valid() && next.repr !! rest
               && ts != []
      requires tok in entries && entries[tok].Sub? ==> entries[tok] == Sub(next)
      requires !(tok in entries && entries[tok].Sub?) ==> Valid() && repr == rest
      modifies this, next.repr
      ensures Valid() && repr <= rest + next.repr && fresh(next.repr - old(next.repr))
      ensures ok <==> Put(old(next.value), ts, v).Some?
      ensures ok ==> value == old(value)[tok := Obj(Put(old(next.value), ts, v).value)]
      ensures !ok ==>
                value == if old(tok in entries && entries[tok].Sub?) then old(value)[tok := Obj(old(next.value))]
                         else old(value)
      decreases |ts|, 1
    {
      hide Put, Fits;
      ok := next.Set(ts, v);
      if ok || (tok in entries && entries[tok].Sub?) {
        PutSub(this, entries, value, tok, next, rest);
        assert tok in entries && entries[tok].Sub? ==> entries[tok := Sub(next)] == entries;
        entries, value, repr := entries[tok := Sub(next)], value[tok := Obj(next.value)], rest + next.repr;
      }
    }

    /** Walk down, making dictionaries where nothing (or null) is, and put the value at the
        end. A write that meets something else on its way fails and changes nothing. */
    method Set(ts: Tokens, v: Json) returns (ok: bool)
      requires Valid() && ts != []
      modifies repr
      ensures Valid() && fresh(repr - old(repr))
      ensures ok <==> Put(old(value), ts, v).Some?
      ensures value == if ok then Put(old(value), ts, v).value else old(value)
      decreases |ts|, 0
    {
      hide Put;
      var tok := ts[0];
      PutStep(value, ts, v);
      TakeOut(this, entries, value, tok, repr);
      if |ts| == 1 {
        PutLast(tok, v);
        return true;
      }
      if tok in entries && entries[tok].Leaf? && !entries[tok].v.Null? && !entries[tok].v.Obj? { return false; }
      if tok in entries && entries[tok].Sub? {
        var next := entries[tok].d;
        assert value[tok] == Obj(next.value) && next in repr;
        ok := Descend(tok, next, repr - next.repr, ts[1..], v);
      } else {
        var next := new Dict(if tok in entries && entries[tok].v.Obj? then entries[tok].v.fields else map[]);
        ok := Descend(tok, next, repr, ts[1..], v);
      }
    }

    /** The same, at the text of a pointer; a malformed one is refused too. */
    method SetPointer(ptr: string, v: Json) returns (ok: bool)
      requires Valid()
      modifies repr
      ensures Valid() && fresh(repr - old(repr))
      ensures SetAt(old(value), ptr, v) == if ok then Some(value) else None
      ensures !ok ==> value == old(value)
    {
      hide Put, Parse, Fits;
      var target := Target(ptr);
      if target.None? { return false; }
      TargetMoves(ptr);
      ok := Set(target.value, v);
    }
  }

  lemma TargetMoves(ptr: string)
    requires Target(ptr).Some?
    ensures Target(ptr).value != []
  {
  }

  /** One step of a write. */
  lemma PutStep(f: map<string, Json>, ts: Tokens, v: Json)
    requires ts != []
    ensures |ts| == 1 ==> Put(f, ts, v) == Some(f[ts[0] := v])
    ensures |ts| > 1 && ts[0] in f && !f[ts[0]].Null? && !f[ts[0]].Obj? ==> Put(f, ts, v).None?
    ensures |ts| > 1 && (ts[0] !in f || f[ts[0]].Null? || f[ts[0]].Obj?) ==>
              var g := Put(Below(f, ts[0]), ts[1..], v);
              Put(f, ts, v) == if g.None? then None else Some(f[ts[0] := Obj(g.value)])
  {
  }
}
