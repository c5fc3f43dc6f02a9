/** Topic templates (produces_manifest.py): `${V}`, `${V|us}` and `${V:-default}`, where a
    default may nest more of the same. */
module Expander {
  import opened Options

  type Env = map<string, string>

  datatype Error = Unterminated | UnknownFilter(name: string) | Undefined(name: string)

  predicate Opens(s: string, i: nat) { i + 1 < |s| && s[i] == '$' && s[i + 1] == '{' }

  // --- the closing brace -----------------------------------------------------

  /** How deep the text between `i` and `j` leaves us, starting inside one opening. */
  function Level(s: string, i: nat, j: nat): int
    requires i <= j <= |s|
  {
    if i == j then 1
    else Level(s, i, j - 1) + if Opens(s, j - 1) then 1 else if s[j - 1] == '}' then -1 else 0
  }

  /** `j` closes what was opened before `i`: the first brace at level one. */
  ghost predicate Closes(s: string, i: nat, j: nat) {
    i <= j < |s| && s[j] == '}' && Level(s, i, j) == 1
    && forall k :: i <= k < j && s[k] == '}' ==> Level(s, i, k) > 1
  }

  /** The search from position `i` on, `depth` levels deep. */
  function From(s: string, i: nat, depth: nat): Option<nat>
    requires i <= |s|
  {
    Shift(Closing(s[i..], depth), i)
  }

  /** One step of the search, at any position. */
  lemma FromStep(s: string, i: nat, depth: nat)
    requires i < |s|
    ensures Opens(s, i) ==> i + 2 <= |s| && From(s, i, depth) == From(s, i + 2, depth + 1)
    ensures !Opens(s, i) ==>
              From(s, i, depth) == if s[i] == '}' && depth <= 1 then Some(i)
                                   else From(s, i + 1, if s[i] == '}' then depth - 1 else depth)
  {
    OpensHere(s, i);
    if Opens(s, i) { assert s[i..][2..] == s[i + 2..]; } else { assert s[i..][1..] == s[i + 1..]; }
  }

  lemma FromEnd(s: string, depth: nat)
    ensures From(s, |s|, depth).None?
  {
  }

  /** Nothing has closed what was opened before `start`, up to `i`. */
  ghost predicate StillOpen(s: string, start: nat, i: nat) {
    start <= i <= |s| && Level(s, start, i) >= 1
    && forall k :: start <= k < i && s[k] == '}' ==> Level(s, start, k) > 1
  }

  lemma OpenStep(s: string, start: nat, i: nat)
    requires StillOpen(s, start, i) && i < |s|
    ensures Opens(s, i) ==> StillOpen(s, start, i + 2) && Level(s, start, i + 2) == Level(s, start, i) + 1
    ensures !Opens(s, i) && s[i] == '}' && Level(s, start, i) <= 1 ==> Closes(s, start, i)
    ensures !Opens(s, i) && !(s[i] == '}' && Level(s, start, i) <= 1) ==>
              StillOpen(s, start, i + 1)
              && Level(s, start, i + 1) == if s[i] == '}' then Level(s, start, i) - 1 else Level(s, start, i)
  {
  }

  lemma {:induction false} ClosingAt(s: string, start: nat, i: nat)
    requires StillOpen(s, start, i)
    ensures var at := From(s, i, Level(s, start, i));
            if at.Some? then Closes(s, start, at.value) else StillOpen(s, start, |s|)
    decreases |s| - i
  {
    hide From, Closes, Opens;
    if i == |s| {
      FromEnd(s, Level(s, start, i));
    } else {
      FromStep(s, i, Level(s, start, i));
      OpenStep(s, start, i);
      hide Level;
      if Opens(s, i) {
        ClosingAt(s, start, i + 2);
      } else if !(s[i] == '}' && Level(s, start, i) <= 1) {
        ClosingAt(s, start, i + 1);
      }
    }
  }

  /** The search finds exactly the brace that closes, at any nesting depth. */
  lemma ClosingIsTheOne(s: string, start: nat, j: nat)
    requires start <= |s|
    ensures Closes(s, start, j) <==> From(s, start, 1) == Some(j)
  {
    hide From;
    ClosingAt(s, start, start);
  }

  method Close(s: string, start: nat) returns (found: Option<nat>)
    requires start <= |s|
    ensures found == From(s, start, 1)
    ensures found.Some? ==> Closes(s, start, found.value)
    ensures found.None? ==> forall j: nat :: !Closes(s, start, j)
  {
    hide Closes, From, Opens;
    forall j: nat ensures Closes(s, start, j) <==> From(s, start, 1) == Some(j) { ClosingIsTheOne(s, start, j); }
    var i, depth := start, 1;
    while i < |s|
      invariant start <= i <= |s| && depth >= 1 && From(s, start, 1) == From(s, i, depth)
    {
      FromStep(s, i, depth);
      if Opens(s, i) {
        depth, i := depth + 1, i + 2;
        continue;
      }
      if s[i] == '}' {
        depth := depth - 1;
        if depth == 0 { return Some(i); }
      }
      i := i + 1;
    }
    FromEnd(s, depth);
    found := None;
  }

  function Shift(at: Option<nat>, steps: nat): Option<nat> { if at.Some? then Some(at.value + steps) else None }

  /** The closing brace of a text that starts `depth` levels deep. */
  function Closing(s: string, depth: nat): (at: Option<nat>)
    ensures at.Some? ==> at.value < |s|
  {
    if s == "" then None
    else if Opens(s, 0) then Shift(Closing(s[2..], depth + 1), 2)
    else if s[0] == '}' && depth <= 1 then Some(0)
    else Shift(Closing(s[1..], if s[0] == '}' then depth - 1 else depth), 1)
  }

  // --- expanding -------------------------------------------------------------

  predicate IsSet(env: Env, name: string) { name in env && env[name] != "" }

  function Underscored(s: string): string {
    if s == "" then "" else [if s[0] == '-' then '_' else s[0]] + Underscored(s[1..])
  }

  /** The filter, character by character: a dash becomes an underscore, the rest stays. */
  lemma {:induction false} UnderscoredAt(s: string)
    ensures |Underscored(s)| == |s|
    ensures forall i :: 0 <= i < |s| ==> Underscored(s)[i] == if s[i] == '-' then '_' else s[i]
  {
    if s != "" {
      UnderscoredAt(s[1..]);
      assert forall i :: 0 < i < |s| ==> Underscored(s)[i] == Underscored(s[1..])[i - 1];
    }
  }

  /** Where ":-" first is. */
  function DefaultMark(s: string): (at: Option<nat>)
    ensures at.Some? ==> at.value + 1 < |s|
  {
    if |s| < 2 then None
    else if s[0] == ':' && s[1] == '-' then Some(0)
    else Shift(DefaultMark(s[1..]), 1)
  }

  function Bar(s: string): (at: Option<nat>)
    ensures at.Some? ==> at.value < |s|
  {
    if s == "" then None else if s[0] == '|' then Some(0) else Shift(Bar(s[1..]), 1)
  }

  /** A body with no default: a name, perhaps with the one filter there is. */
  function Plain(body: string, env: Env): Result<string, Error> {
    var bar := Bar(body);
    var name := if bar.Some? then body[..bar.value] else body;
    if bar.Some? && body[bar.value + 1..] != "us" then Err(UnknownFilter(body[bar.value + 1..]))
    else if !IsSet(env, name) then Err(Undefined(name))
    else Ok(if bar.Some? then Underscored(env[name]) else env[name])
  }

  function Body(body: string, env: Env): Result<string, Error>
    decreases |body|, 0
  {
    var mark := DefaultMark(body);
    if mark.None? then Plain(body, env)
    else if IsSet(env, body[..mark.value]) then Ok(env[body[..mark.value]])
    else Expanded(body[mark.value + 2..], env)
  }

  function Then(first: Result<string, Error>, rest: Result<string, Error>): Result<string, Error> {
    if first.Err? then first else if rest.Err? then rest else Ok(first.value + rest.value)
  }

  function Expanded(s: string, env: Env): Result<string, Error>
    decreases |s|, 1
  {
    if s == "" then Ok("")
    else if !Opens(s, 0) then Then(Ok([s[0]]), Expanded(s[1..], env))
    else
      var end := Closing(s[2..], 1);
      if end.None? then Err(Unterminated)
      else Then(Body(s[2..][..end.value], env), Expanded(s[2..][end.value + 1..], env))
  }

  lemma ThenAfter(text: string, first: Result<string, Error>, rest: Result<string, Error>)
    ensures Then(Ok(text), Then(first, rest)) == if first.Err? then first else Then(Ok(text + first.value), rest)
    ensures Then(Ok(""), rest) == rest && Then(Ok(text), Ok("")) == Ok(text)
  {
    if first.Ok? && rest.Ok? { assert text + (first.value + rest.value) == text + first.value + rest.value; }
    if rest.Ok? { assert "" + rest.value == rest.value; }
    assert text + "" == text;
  }

  method Expand(template: string, env: Env) returns (result: Result<string, Error>)
    ensures result == Expanded(template, env)
    decreases |template|
  {
    hide Opens, Plain, Expanded, Body, From, Closes, DefaultMark, Bar, Then;
    var text, i := "", 0;
    assert template[0..] == template;
    ThenAfter("", Ok(""), Expanded(template, env));
    while i < |template|
      invariant i <= |template|
      invariant Expanded(template, env) == Then(Ok(text), Expanded(template[i..], env))
    {
      if !Opens(template, i) {
        ExpandedChars(template, i, env);
        ThenAfter(text, Ok([template[i]]), Expanded(template[i + 1..], env));
        text, i := text + [template[i]], i + 1;
        continue;
      }
      ExpandedOpening(template, i, env);
      var end := Close(template, i + 2);
      if end.None? {
        ThenFails(text, Unterminated);
        return Err(Unterminated);
      }
      var body := template[i + 2..end.value];
      ThenAfter(text, Body(body, env), Expanded(template[end.value + 1..], env));
      BodyIs(body, env);
      i := end.value + 1;
      var mark := DefaultMark(body);
      if mark.Some? {
        var name, default := body[..mark.value], body[mark.value + 2..];
        if IsSet(env, name) {
          text := text + env[name];
        } else {
          var nested := Expand(default, env);
          if nested.Err? { return nested; }
          text := text + nested.value;
        }
        continue;
      }
      var bar := Bar(body);
      var name := if bar.Some? then body[..bar.value] else body;
      if bar.Some? && body[bar.value + 1..] != "us" { return Err(UnknownFilter(body[bar.value + 1..])); }
      if !IsSet(env, name) { return Err(Undefined(name)); }
      text := text + if bar.Some? then Underscored(env[name]) else env[name];
    }
    NothingExpands(env);
    assert template[i..] == "";
    ThenAfter(text, Ok(""), Ok(""));
    result := Ok(text);
  }

  lemma ThenFails(text: string, e: Error)
    ensures Then(Ok(text), Err(e)) == Err(e)
  {
  }

  /** One step of expanding, at any position: a character, */
  lemma ExpandedChars(s: string, i: nat, env: Env)
    requires i < |s| && !Opens(s, i)
    ensures Expanded(s[i..], env) == Then(Ok([s[i]]), Expanded(s[i + 1..], env))
  {
    hide Body, Closing, Then;
    OpensHere(s, i);
    assert s[i..][1..] == s[i + 1..];
  }

  lemma Slices(s: string, i: nat, k: nat)
    requires i + 2 + k < |s|
    ensures s[i + 2..][..k] == s[i + 2..i + 2 + k] && s[i + 2..][k + 1..] == s[i + 2 + k + 1..]
  {
  }

  /** or a whole opening. */
  lemma ExpandedOpening(s: string, i: nat, env: Env)
    requires i < |s| && Opens(s, i)
    ensures i + 2 <= |s|
    ensures var end := From(s, i + 2, 1);
            if end.None? then Expanded(s[i..], env) == Err(Unterminated)
            else i + 2 <= end.value < |s|
                 && Expanded(s[i..], env) == Then(Body(s[i + 2..end.value], env), Expanded(s[end.value + 1..], env))
  {
    hide Body, Closing, Then, Expanded, Opens;
    OpensHere(s, i);
    OpeningUnfolds(s[i..], env);
    assert s[i..][2..] == s[i + 2..];
    var end := Closing(s[i + 2..], 1);
    if end.Some? { Slices(s, i, end.value); }
  }

  lemma OpeningUnfolds(s: string, env: Env)
    requires Opens(s, 0)
    ensures var end := Closing(s[2..], 1);
            Expanded(s, env) == if end.None? then Err(Unterminated)
                                else Then(Body(s[2..][..end.value], env), Expanded(s[2..][end.value + 1..], env))
  {
    hide Body, Closing, Then;
  }

  lemma BodyIs(body: string, env: Env)
    ensures var mark := DefaultMark(body);
            Body(body, env) == if mark.None? then Plain(body, env)
                               else if IsSet(env, body[..mark.value]) then Ok(env[body[..mark.value]])
                               else Expanded(body[mark.value + 2..], env)
    ensures var bar := Bar(body);
            var name := if bar.Some? then body[..bar.value] else body;
            Plain(body, env) == if bar.Some?
              && body[bar.value + 1..] != "us" then Err(UnknownFilter(body[bar.value + 1..]))
                                else if !IsSet(env, name) then Err(Undefined(name))
                                else Ok(if bar.Some? then Underscored(env[name]) else env[name])
  {
    hide Expanded, DefaultMark, Bar;
  }

  lemma OpensHere(s: string, i: nat)
    requires i < |s|
    ensures Opens(s[i..], 0) == Opens(s, i)
    ensures Opens(s, i) ==> i + 2 <= |s|
  {
  }

  // --- templates and their text ----------------------------------------------

  datatype Part = Lit(c: char) | Var(name: string) | Us(name: string) | Default(name: string, otherwise: seq<Part>)

  function Print(t: seq<Part>): string
    decreases t
  {
    if t == [] then "" else PrintPart(t[0]) + Print(t[1..])
  }

  function PrintPart(p: Part): string
    decreases p
  {
    match p
    case Lit(c) => [c]
    case Var(n) => "${" + n + "}"
    case Us(n) => "${" + n + "|us" + "}"
    case Default(n, t) => "${" + n + ":-" + Print(t) + "}"
  }

  /** What a template stands for. */
  function Eval(t: seq<Part>, env: Env): Result<string, Error>
    decreases t
  {
    if t == [] then Ok("") else Then(EvalPart(t[0], env), Eval(t[1..], env))
  }

  function EvalPart(p: Part, env: Env): Result<string, Error>
    decreases p
  {
    match p
    case Lit(c) => Ok([c])
    case Var(n) => if IsSet(env, n) then Ok(env[n]) else Err(Undefined(n))
    case Us(n) => if IsSet(env, n) then Ok(Underscored(env[n])) else Err(Undefined(n))
    case Default(n, t) => if IsSet(env, n) then Ok(env[n]) else Eval(t, env)
  }

  /** The names evaluation needs a value for. */
  function Needed(t: seq<Part>, env: Env): set<string>
    decreases t
  {
    if t == [] then {} else NeededPart(t[0], env) + Needed(t[1..], env)
  }

  function NeededPart(p: Part, env: Env): set<string>
    decreases p
  {
    match p
    case Lit(_) => {}
    case Var(n) => {n}
    case Us(n) => {n}
    case Default(n, t) => if IsSet(env, n) then {} else Needed(t, env)
  }

  /** Evaluation fails exactly when it reaches a variable with no default that is undefined
      or empty. */
  lemma {:induction false} EvalFailsExactly(t: seq<Part>, env: Env)
    ensures Eval(t, env).Ok? <==> forall n :: n in Needed(t, env) ==> n in env && env[n] != ""
    ensures Eval(t, env).Err? ==>
              Eval(t, env).error.Undefined?
              && var n := Eval(t, env).error.name; n in Needed(t, env) && (n !in env || env[n] == "")
    decreases t
  {
    if t != [] {
      if t[0].Default? && !IsSet(env, t[0].name) { EvalFailsExactly(t[0].otherwise, env); }
      EvalFailsExactly(t[1..], env);
    }
  }

  /** What a reference gives: the variable's text, filtered or not; where the variable is
      undefined or empty the default, if there is one. */
  lemma ReferenceGives(n: string, d: seq<Part>, env: Env)
    ensures n in env && env[n] != "" ==>
              EvalPart(Var(n), env) == EvalPart(Default(n, d), env) == Ok(env[n])
              && EvalPart(Us(n), env).Ok? && |EvalPart(Us(n), env).value| == |env[n]|
              && forall i :: 0 <= i < |env[n]| ==>
                   EvalPart(Us(n), env).value[i] == if env[n][i] == '-' then '_' else env[n][i]
    ensures n !in env || env[n] == "" ==>
              EvalPart(Var(n), env) == EvalPart(Us(n), env) == Err(Undefined(n))
              && EvalPart(Default(n, d), env) == Eval(d, env)
  {
    if IsSet(env, n) { UnderscoredAt(env[n]); }
    hide Underscored;
  }

  /** A name that cannot be mistaken for anything else: the brace after it is the one that
      closes, and no default begins in it. */
  predicate Name(n: string) { Closing(n + "}", 1) == Some(|n|) && DefaultMark(n).None? }

  /** Literal text is not an opening, and inside a default not a closing brace either. */
  predicate Sound(t: seq<Part>, inside: bool)
    decreases t
  {
    t != [] ==>
      && SoundPart(t[0], inside) && Sound(t[1..], inside)
      && !(t[0] == Lit('$') && |t| > 1 && t[1] == Lit('{'))
  }

  predicate SoundPart(p: Part, inside: bool)
    decreases p
  {
    match p
    case Lit(c) => inside ==> c != '}'
    case Var(n) => Name(n) && Bar(n).None?
    case Us(n) => Name(n) && Bar(n).None?
    case Default(n, t) => Name(n) && Sound(t, true)
  }

  lemma {:induction false} SkipPlain(x: string, rest: string, depth: nat)
    requires '$' !in x && '}' !in x
    ensures Closing(x + rest, depth) == Shift(Closing(rest, depth), |x|)
  {
    if x == "" {
      assert x + rest == rest;
    } else {
      SkipPlain(x[1..], rest, depth);
      assert (x + rest)[1..] == x[1..] + rest;
      assert x[0] in x;
    }
  }

  /** Text whose braces balance is passed over. */
  lemma {:induction false} SkipBalanced(x: string, e: nat, rest: string, k: nat)
    requires e >= 1 && Closing(x + "}", e) == Some(|x|) && (rest == "" || rest[0] != '{')
    ensures Closing(x + rest, e + k) == Shift(Closing(rest, 1 + k), |x|)
  {
    hide Closing;
    if x == "" {
      assert "}" + "" == "}" && x + "}" == "}" && x + rest == rest;
      ClosingBrace("", e);
      ClosingNone(e - 1);
    } else if |x| > 1 && x[0] == '$' && x[1] == '{' {
      var y := x[2..];
      assert x + "}" == "${" + (y + "}") && x + rest == "${" + (y + rest);
      ClosingOpen(y + "}", e);
      ClosingOpen(y + rest, e + k);
      SkipBalanced(y, e + 1, rest, k);
    } else {
      var y := x[1..];
      assert x + "}" == [x[0]] + (y + "}") && x + rest == [x[0]] + (y + rest);
      if x[0] == '}' {
        ClosingBrace(y + "}", e);
        ClosingBrace(y + rest, e + k);
        SkipBalanced(y, e - 1, rest, k);
      } else {
        ClosingChar(x[0], y + "}", e);
        ClosingChar(x[0], y + rest, e + k);
        SkipBalanced(y, e, rest, k);
      }
    }
  }

  lemma StartsPlain(t: seq<Part>, rest: string)
    requires rest != "" && rest[0] != '{' && (t != [] ==> t[0] != Lit('{'))
    ensures (Print(t) + rest) != "" && (Print(t) + rest)[0] != '{'
  {
    hide Print;
    if t == [] {
      assert Print(t) == "" by { PrintNone(); }
    } else {
      PrintOne(t);
      assert PrintPart(t[0]) != "" && PrintPart(t[0])[0] != '{';
    }
  }

  lemma PrintNone()
    ensures Print([]) == ""
  {
  }

  lemma PrintOne(t: seq<Part>)
    requires t != []
    ensures Print(t) == PrintPart(t[0]) + Print(t[1..])
  {
  }

  lemma ClosingNone(depth: nat)
    ensures Closing("", depth).None?
  {
  }

  lemma ClosingOpen(s: string, depth: nat)
    ensures Closing("${" + s, depth) == Shift(Closing(s, depth + 1), 2)
  {
    assert ("${" + s)[2..] == s;
  }

  lemma ClosingChar(c: char, s: string, depth: nat)
    requires c != '}' && !(c == '$' && s != "" && s[0] == '{')
    ensures Closing([c] + s, depth) == Shift(Closing(s, depth), 1)
  {
    assert ([c] + s)[1..] == s;
  }

  lemma ClosingBrace(s: string, depth: nat)
    ensures Closing("}" + s, depth) == if depth <= 1 then Some(0) else Shift(Closing(s, depth - 1), 1)
  {
    assert ("}" + s)[1..] == s;
  }

  /** The search for a closing brace passes over a whole printed template, at any depth. */
  lemma {:induction false} SkipPrinted(t: seq<Part>, rest: string, depth: nat)
    requires Sound(t, true) && depth >= 1 && rest != "" && rest[0] != '{'
    ensures Closing(Print(t) + rest, depth) == Shift(Closing(rest, depth), |Print(t)|)
    decreases t
  {
    hide Closing, Print;
    if t == [] {
      PrintNone();
      assert Print(t) + rest == rest;
    } else {
      PrintOne(t);
      var more := Print(t[1..]) + rest;
      SkipPrinted(t[1..], rest, depth);
      assert Print(t) + rest == PrintPart(t[0]) + more;
      if t[0].Default? {
        SkipPrinted(t[0].otherwise, "}" + more, depth + 1);
        SkipDefault(t[0].name, t[0].otherwise, more, depth);
      } else {
        if t[0] == Lit('$') { StartsPlain(t[1..], rest); }
        SkipSimple(t[0], more, depth);
      }
    }
  }

  lemma SkipBody(p: Part, rest: string, depth: nat)
    requires SoundPart(p, false) && (p.Var? || p.Us?) && rest != "" && rest[0] == '}'
    ensures var body := if p.Var? then p.name else p.name + "|us";
            Closing(body + rest, depth + 1) == Shift(Closing(rest, depth + 1), |body|)
  {
    hide Closing;
    if p.Var? {
      SkipBalanced(p.name, 1, rest, depth);
    } else {
      SkipBalanced(p.name, 1, "|us" + rest, depth);
      SkipPlain("|us", rest, depth + 1);
      assert p.name + "|us" + rest == p.name + ("|us" + rest);
    }
  }

  lemma SkipSimple(p: Part, more: string, depth: nat)
    requires SoundPart(p, true) && !p.Default? && depth >= 1
    requires p == Lit('$') ==> more == "" || more[0] != '{'
    ensures Closing(PrintPart(p) + more, depth) == Shift(Closing(more, depth), |PrintPart(p)|)
  {
    hide Closing;
    if p.Lit? {
      ClosingChar(p.c, more, depth);
    } else {
      var body := if p.Var? then p.name else p.name + "|us";
      assert PrintPart(p) + more == "${" + (body + ("}" + more));
      ClosingOpen(body + ("}" + more), depth);
      SkipBody(p, "}" + more, depth);
      ClosingBrace(more, depth + 1);
    }
  }

  lemma SkipMark(n: string, rest: string, depth: nat)
    requires Name(n)
    ensures Closing((n + ":-") + rest, depth + 1) == Shift(Closing(rest, depth + 1), |n| + 2)
  {
    hide Closing;
    SkipBalanced(n, 1, ":-" + rest, depth);
    SkipPlain(":-", rest, depth + 1);
    assert (n + ":-") + rest == n + (":-" + rest);
  }

  lemma SkipDefault(n: string, t: seq<Part>, more: string, depth: nat)
    requires Name(n) && depth >= 1
    requires Closing(Print(t) + ("}" + more), depth + 1) == Shift(Closing("}" + more, depth + 1), |Print(t)|)
    ensures Closing(PrintPart(Default(n, t)) + more, depth) == Shift(Closing(more, depth), |PrintPart(Default(n, t))|)
  {
    hide Closing, Print;
    var inner := Print(t) + ("}" + more);
    assert PrintPart(Default(n, t)) + more == "${" + ((n + ":-") + inner);
    ClosingOpen((n + ":-") + inner, depth);
    SkipMark(n, inner, depth);
    ClosingBrace(more, depth + 1);
  }

  lemma {:induction false} MarkAfter(n: string, rest: string)
    requires DefaultMark(n).None?
    ensures DefaultMark(n + (":-" + rest)) == Some(|n|)
  {
    var s := n + (":-" + rest);
    if n == "" {
      assert s == ":-" + rest;
    } else {
      MarkAfter(n[1..], rest);
      assert s[1..] == n[1..] + (":-" + rest);
    }
  }

  lemma {:induction false} NoMark(n: string)
    requires DefaultMark(n).None?
    ensures DefaultMark(n + "|us").None?
  {
    var s := n + "|us";
    if n == "" {
      assert s == "|us" && s[1..] == "us" && s[1..][1..] == "s";
    } else {
      NoMark(n[1..]);
      assert s[1..] == n[1..] + "|us";
    }
  }

  lemma {:induction false} BarAfter(n: string, rest: string)
    requires Bar(n).None?
    ensures Bar(n + ("|" + rest)) == Some(|n|)
  {
    if n != "" {
      BarAfter(n[1..], rest);
      assert (n + ("|" + rest))[1..] == n[1..] + ("|" + rest);
    } else {
      assert n + ("|" + rest) == "|" + rest;
    }
  }

  lemma ExpandedOpen(body: string, rest: string, env: Env)
    requires Closing(body + ("}" + rest), 1) == Some(|body|)
    ensures Expanded("${" + body + "}" + rest, env) == Then(Body(body, env), Expanded(rest, env))
  {
    var s := "${" + body + "}" + rest;
    assert s[2..] == body + ("}" + rest);
    assert s[2..][..|body|] == body && s[2..][|body| + 1..] == rest;
    hide Closing, Body;
  }

  lemma SimpleBody(p: Part, env: Env)
    requires SoundPart(p, false) && (p.Var? || p.Us?)
    ensures Body(if p.Var? then p.name else p.name + "|us", env) == EvalPart(p, env)
  {
    var body := if p.Var? then p.name else p.name + "|us";
    NoMark(p.name);
    BarAfter(p.name, "us");
    hide DefaultMark, Bar, Expanded;
    if p.Us? {
      assert body == p.name + ("|" + "us");
      assert body[..|p.name|] == p.name && body[|p.name| + 1..] == "us";
    }
  }

  lemma DefaultBody(n: string, t: seq<Part>, env: Env)
    requires Name(n) && Expanded(Print(t), env) == Eval(t, env)
    ensures Body(n + ":-" + Print(t), env) == EvalPart(Default(n, t), env)
  {
    hide DefaultMark, Expanded, Print, Eval, Bar, Closing, Plain;
    var body := n + ":-" + Print(t);
    assert body == n + (":-" + Print(t));
    MarkAfter(n, Print(t));
    assert body[..|n|] == n && body[|n| + 2..] == Print(t);
  }

  /** Expanding what a template prints as is evaluating the template: same text, same
      failure, whatever the environment and however deep the defaults. */
  lemma {:induction false} ExpandIsEval(t: seq<Part>, inside: bool, env: Env)
    requires Sound(t, inside)
    ensures Expanded(Print(t), env) == Eval(t, env)
    decreases t
  {
    hide Expanded, Eval, Print;
    if t == [] {
      NothingExpands(env);
    } else {
      ExpandIsEval(t[1..], inside, env);
      PrintOne(t);
      EvalOne(t, env);
      match t[0] {
        case Lit(c) =>
          LiteralFirst(t, inside);
          ExpandedChar(c, Print(t[1..]), env);
        case Default(n, d) =>
          ExpandIsEval(d, true, env);
          DefaultCloses(n, d, Print(t[1..]));
          ExpandedOpen(n + ":-" + Print(d), Print(t[1..]), env);
          DefaultBody(n, d, env);
          DefaultText(n, d, Print(t[1..]));
        case Var(_) => SimpleStep(t[0], Print(t[1..]), env);
        case Us(_) => SimpleStep(t[0], Print(t[1..]), env);
      }
    }
  }

  lemma SimpleStep(p: Part, rest: string, env: Env)
    requires SoundPart(p, false) && (p.Var? || p.Us?)
    ensures Expanded(PrintPart(p) + rest, env) == Then(EvalPart(p, env), Expanded(rest, env))
  {
    hide Expanded, EvalPart, Then;
    var body := if p.Var? then p.name else p.name + "|us";
    SimpleCloses(p, rest);
    ExpandedOpen(body, rest, env);
    SimpleBody(p, env);
    assert PrintPart(p) == "${" + body + "}";
  }

  lemma NothingExpands(env: Env)
    ensures Print([]) == "" && Expanded("", env) == Ok("") && Eval([], env) == Ok("")
  {
  }

  lemma DefaultText(n: string, d: seq<Part>, rest: string)
    ensures PrintPart(Default(n, d)) + rest == "${" + (n + ":-" + Print(d)) + "}" + rest
  {
    hide Print;
  }

  lemma ExpandedChar(c: char, rest: string, env: Env)
    requires !Opens([c] + rest, 0)
    ensures Expanded([c] + rest, env) == Then(Ok([c]), Expanded(rest, env))
  {
    assert ([c] + rest)[1..] == rest;
  }

  lemma SimpleCloses(p: Part, rest: string)
    requires SoundPart(p, false) && (p.Var? || p.Us?)
    ensures var body := if p.Var? then p.name else p.name + "|us"; Closing(body + ("}" + rest), 1) == Some(|body|)
  {
    hide Closing;
    SkipBody(p, "}" + rest, 0);
    ClosingBrace(rest, 1);
  }

  lemma EvalOne(t: seq<Part>, env: Env)
    requires t != []
    ensures Eval(t, env) == Then(EvalPart(t[0], env), Eval(t[1..], env))
  {
  }

  lemma DefaultCloses(n: string, t: seq<Part>, rest: string)
    requires Name(n) && Sound(t, true)
    ensures Closing(n + ":-" + Print(t) + ("}" + rest), 1) == Some(|n + ":-" + Print(t)|)
  {
    hide Closing, Print;
    var inner := Print(t) + ("}" + rest);
    assert n + ":-" + Print(t) + ("}" + rest) == (n + ":-") + inner;
    SkipMark(n, inner, 0);
    SkipPrinted(t, "}" + rest, 1);
    ClosingBrace(rest, 1);
  }

  lemma LiteralFirst(t: seq<Part>, inside: bool)
    requires Sound(t, inside) && t != [] && t[0].Lit?
    ensures Print(t) != "" && !Opens(Print(t), 0)
  {
    PrintOne(t);
    if |t| > 1 {
      PrintOne(t[1..]);
      assert PrintPart(t[1]) != "";
      assert Print(t)[1] == PrintPart(t[1])[0];
    } else {
      PrintNone();
    }
  }

  // --- text that is not printed from a template -------------------------------

  /** No opening in the text, nor across its end. */
  predicate NoOpening(x: string, y: string) {
    forall i :: 0 <= i < |x| ==> !(x[i] == '$' && (x + y)[i + 1..] != "" && (x + y)[i + 1] == '{')
  }

  /** Text without an opening stands for itself, */
  lemma {:induction false} TextStands(x: string, y: string, env: Env)
    requires NoOpening(x, y)
    ensures Expanded(x + y, env) == Then(Ok(x), Expanded(y, env))
  {
    if x == "" {
      assert x + y == y;
      ThenAfter("", Ok(""), Expanded(y, env));
    } else {
      assert (x + y)[1..] == x[1..] + y;
      assert !Opens(x + y, 0) by { assert (x + y)[0] == x[0]; }
      forall i | 0 <= i < |x[1..]|
        ensures !(x[1..][i] == '$' && (x[1..] + y)[i + 1..] != "" && (x[1..] + y)[i + 1] == '{')
      {
        assert (x + y)[i + 2..] == (x[1..] + y)[i + 1..];
      }
      TextStands(x[1..], y, env);
      assert [x[0]] + x[1..] == x;
      ThenAfter([x[0]], Ok(x[1..]), Expanded(y, env));
    }
  }

  /** and an opening no brace closes is an error, wherever it stands, even at the very end. */
  lemma UnclosedFails(x: string, y: string, env: Env)
    requires NoOpening(x, "${" + y) && forall j: nat :: !Closes(y, 0, j)
    ensures Expanded(x + "${" + y, env) == Err(Unterminated)
  {
    hide Closes;
    assert y[0..] == y;
    forall j: nat ensures From(y, 0, 1) != Some(j) { ClosingIsTheOne(y, 0, j); }
    assert Closing(y, 1).None?;
    var s := "${" + y;
    assert Expanded(s, env) == Err(Unterminated) by {
      assert s[2..] == y;
      OpeningUnfolds(s, env);
    }
    hide Expanded, Closing;
    TextStands(x, s, env);
    assert x + "${" + y == x + s;
  }

  // --- names that cannot be told apart ---------------------------------------

  function TextOf(p: Part): string
    requires !p.Lit?
  {
    match p
    case Var(n) => n
    case Us(n) => n + "|us"
    case Default(n, t) => n + ":-" + Print(t)
  }

  /** A reference by name, with no default to fall back on. */
  predicate Reference(p: Part) { p.Var? || p.Us? || (p.Default? && p.otherwise == []) }

  lemma {:induction false} MarkIn(n: string, more: string)
    requires DefaultMark(n).Some?
    ensures DefaultMark(n + more) == DefaultMark(n)
  {
    if !(n[0] == ':' && n[1] == '-') {
      MarkIn(n[1..], more);
      assert (n + more)[1..] == n[1..] + more;
    }
  }

  lemma {:induction false} BarIn(n: string, more: string)
    requires Bar(n).Some?
    ensures Bar(n + more) == Bar(n)
  {
    if n[0] != '|' {
      BarIn(n[1..], more);
      assert (n + more)[1..] == n[1..] + more;
    }
  }

  lemma {:induction false} ClosedByBrace(s: string, depth: nat)
    requires Closing(s, depth).Some?
    ensures s[Closing(s, depth).value] == '}'
  {
    if Opens(s, 0) {
      ClosedByBrace(s[2..], depth + 1);
    } else if !(s[0] == '}' && depth <= 1) {
      ClosedByBrace(s[1..], if s[0] == '}' then depth - 1 else depth);
    }
  }

  /** If the brace after a mark closes, so does one in the mark's place. */
  lemma {:induction false} BalancedBack(x: string, mid: string, e: nat)
    requires e >= 1 && '$' !in mid && '}' !in mid && (mid != "" ==> mid[0] != '{')
    requires Closing(x + mid + "}", e) == Some(|x| + |mid|)
    ensures Closing(x + "}", e) == Some(|x|)
  {
    var s, t := x + mid + "}", x + "}";
    if x == "" {
      SkipPlain(mid, "}", e);
      assert s == mid + "}" && t == "}" && t[1..] == "";
    } else if Opens(s, 0) {
      assert |x| >= 2;
      assert s[2..] == x[2..] + mid + "}" && t[2..] == x[2..] + "}";
      BalancedBack(x[2..], mid, e + 1);
    } else {
      assert s[1..] == x[1..] + mid + "}" && t[1..] == x[1..] + "}";
      assert !(s[0] == '}' && e <= 1);
      BalancedBack(x[1..], mid, if x[0] == '}' then e - 1 else e);
    }
  }

  ghost predicate OnlyLongSet(env: Env, length: nat) { forall n :: IsSet(env, n) ==> |n| >= length }

  /** Where no name that fits in is set, expanding makes nothing longer. */
  lemma {:induction false} GrowsNothing(s: string, env: Env)
    requires OnlyLongSet(env, if |s| <= 2 then 0 else |s| - 2)
    ensures Expanded(s, env).Ok? ==> |Expanded(s, env).value| <= |s|
    decreases |s|, 1
  {
    hide Closing, Body;
    if s != "" && !Opens(s, 0) { GrowsNothing(s[1..], env); }
    if s != "" && Opens(s, 0) {
      var end := Closing(s[2..], 1);
      if end.Some? {
        BodyGrowsNothing(s[2..][..end.value], env);
        GrowsNothing(s[2..][end.value + 1..], env);
      }
    }
  }

  lemma {:induction false} BodyGrowsNothing(body: string, env: Env)
    requires OnlyLongSet(env, |body| + 1)
    ensures Body(body, env).Ok? ==> |Body(body, env).value| <= |body|
    decreases |body|, 0
  {
    BodyIs(body, env);
    var mark := DefaultMark(body);
    if mark.Some? { GrowsNothing(body[mark.value + 2..], env); }
    hide Expanded, Body, DefaultMark, Bar;
  }

  /** A whole body that is misread looks up something shorter than the name. */
  lemma MisreadBody(p: Part, env: Env)
    requires Reference(p) && OnlyLongSet(env, |p.name|)
    requires DefaultMark(p.name).Some? || (!p.Default? && Bar(p.name).Some?)
    ensures Body(TextOf(p), env).Ok? ==> |Body(TextOf(p), env).value| <= |TextOf(p)|
  {
    var n, body := p.name, TextOf(p);
    var more := if p.Var? then "" else if p.Us? then "|us" else ":-";
    PrintNone();
    assert body == n + more;
    BodyIs(body, env);
    if DefaultMark(n).Some? {
      MarkIn(n, more);
      GrowsNothing(body[DefaultMark(n).value + 2..], env);
    } else {
      if p.Us? { NoMark(n); }
      BarIn(n, more);
    }
    hide Expanded, Body, DefaultMark, Bar, Print;
  }

  function Ending(p: Part): string
    requires Reference(p)
  {
    if p.Var? then "" else if p.Us? then "|us" else ":-"
  }

  lemma ReferenceText(p: Part)
    requires Reference(p)
    ensures TextOf(p) == p.name + Ending(p) && PrintPart(p) == "${" + TextOf(p) + "}"
    ensures PrintPart(p)[2..] == TextOf(p) + "}" && Opens(PrintPart(p), 0)
    ensures |PrintPart(p)| == |TextOf(p)| + 3
  {
    PrintNone();
  }

  lemma EndsWithin(p: Part, end: nat)
    requires Reference(p) && Closing(TextOf(p) + "}", 1) == Some(end)
    ensures end <= |TextOf(p)| && (end >= |p.name| ==> end == |TextOf(p)|)
  {
    ReferenceText(p);
    ClosedByBrace(TextOf(p) + "}", 1);
    hide Closing, Print, PrintPart, TextOf;
  }

  /** A misread reference splits where its name was not meant to end, or is misread whole. */
  lemma MisreadHalves(p: Part, env: Env, end: nat)
    requires Reference(p) && !SoundPart(p, false) && OnlyLongSet(env, |p.name|) && !IsSet(env, "")
    requires Closing(TextOf(p) + "}", 1) == Some(end)
    ensures end <= |TextOf(p)|
    ensures var first := (TextOf(p) + "}")[..end];
            Body(first, env).Ok? ==> end > 0 && |Body(first, env).value| <= |first|
    ensures end > 0 ==> OnlyLongSet(env, if |TextOf(p)| - end <= 2 then 0 else |TextOf(p)| - end - 2)
  {
    EndsWithin(p, end);
    ReferenceText(p);
    EmptyBody(env);
    hide Closing, Body, Print, PrintPart, TextOf, DefaultMark, Bar, IsSet;
    if end >= |p.name| {
      BalancedBack(p.name, Ending(p), 1);
      MisreadBody(p, env);
      assert (TextOf(p) + "}")[..end] == TextOf(p);
    } else {
      hide SoundPart;
      BodyGrowsNothing((TextOf(p) + "}")[..end], env);
    }
  }

  lemma MisreadReference(p: Part, env: Env)
    requires Reference(p) && !SoundPart(p, false) && OnlyLongSet(env, |p.name|) && !IsSet(env, "")
    ensures Expanded(PrintPart(p), env).Ok? ==> |Expanded(PrintPart(p), env).value| <= |PrintPart(p)|
  {
    ReferenceText(p);
    OpeningUnfolds(PrintPart(p), env);
    hide Expanded, Closing, Body, Then, Opens, OnlyLongSet, PrintPart, TextOf, SoundPart, Reference;
    var end := Closing(TextOf(p) + "}", 1);
    if end.Some? {
      MisreadHalves(p, env, end.value);
      HalvesGrowNothing(TextOf(p) + "}", end.value, env);
    }
  }

  lemma HalvesGrowNothing(t: string, end: nat, env: Env)
    requires end < |t|
    requires var first := t[..end]; Body(first, env).Ok? ==> end > 0 && |Body(first, env).value| <= |first|
    requires end > 0 ==> OnlyLongSet(env, if |t| - end <= 3 then 0 else |t| - end - 3)
    ensures var all := Then(Body(t[..end], env), Expanded(t[end + 1..], env));
            all.Ok? ==> |all.value| < |t|
  {
    hide Expanded, Body, Then, OnlyLongSet;
    var first, rest := t[..end], t[end + 1..];
    assert |rest| == |t| - end - 1;
    if end > 0 { GrowsNothing(rest, env); }
    ThenLength(Body(first, env), Expanded(rest, env));
  }

  lemma ThenLength(first: Result<string, Error>, rest: Result<string, Error>)
    ensures Then(first, rest).Ok? ==>
              first.Ok? && rest.Ok? && |Then(first, rest).value| == |first.value| + |rest.value|
  {
  }

  lemma EmptyBody(env: Env)
    requires !IsSet(env, "")
    ensures Body("", env).Err?
  {
    BodyIs("", env);
  }

  /** Text is read back as the reference it was printed from, in every environment, exactly
      for these names; so no other names can be written. */
  lemma ReferenceReadsBackExactly(p: Part)
    requires Reference(p)
    ensures (forall env: Env :: Expanded(PrintPart(p), env) == EvalPart(p, env)) <==> SoundPart(p, false)
  {
    hide Expanded, PrintPart, EvalPart, SoundPart, Reference;
    if SoundPart(p, false) {
      forall env: Env ensures Expanded(PrintPart(p), env) == EvalPart(p, env) { OneReadsBack(p, env); }
    } else {
      var env := Misreads(p);
    }
  }

  /** Set only the name, to something longer than the text it stands in. */
  lemma Misreads(p: Part) returns (env: Env)
    requires Reference(p) && !SoundPart(p, false)
    ensures Expanded(PrintPart(p), env) != EvalPart(p, env)
  {
    hide Expanded, PrintPart, Underscored, SoundPart;
    var value := seq(|PrintPart(p)| + 1, i => 'x');
    env := map[p.name := value];
    UnderscoredAt(value);
    assert IsSet(env, p.name);
    NameNotEmpty(p);
    MisreadReference(p, env);
    assert EvalPart(p, env).Ok? && |EvalPart(p, env).value| > |PrintPart(p)|;
  }

  lemma NameNotEmpty(p: Part)
    requires Reference(p) && !SoundPart(p, false)
    ensures p.name != ""
  {
    PrintNone();
    assert "" + "}" == "}" && Closing("}", 1) == Some(0) && DefaultMark("").None? && Bar("").None?;
  }

  lemma OneReadsBack(p: Part, env: Env)
    requires Reference(p) && SoundPart(p, false)
    ensures Expanded(PrintPart(p), env) == EvalPart(p, env)
  {
    var t := [p];
    assert t[1..] == [] && t[0] == p;
    SoundNone();
    ExpandIsEval(t, false, env);
    PrintOne(t);
    PrintNone();
    EvalOne(t, env);
    NothingExpands(env);
    assert PrintPart(p) + "" == PrintPart(p);
    var e := EvalPart(p, env);
    if e.Ok? { assert e.value + "" == e.value; }
    hide Expanded, EvalPart, PrintPart;
  }

  lemma SoundNone()
    ensures Sound([], false)
  {
  }
}
