/** Environment references in the configuration file: one left-to-right pass that turns
    `${NAME}` into the variable's value and `$${` into a literal `${`. The reference
    meaning is a grammar of tokens that never looks at the environment, evaluated token
    by token. */
module EnvRefs {
  import opened GoInts

  datatype Fault = Unterminated | BadName | Unset

  /** The expanded text, or the first fault and its byte offset. */
  datatype Expansion = Text(out: string) | Failed(fault: Fault, offset: nat)

  datatype Token = Lit(c: char) | Escape | Ref(name: string) | Broken(rest: string)

  type Env = map<string, string>

  predicate NameStart(c: char) {
    'A' <= c <= 'Z' || 'a' <= c <= 'z' || c == '_'
  }

  predicate ValidName(name: string) {
    && name != "" && NameStart(name[0])
    && forall i :: 1 <= i < |name| ==> NameStart(name[i]) || '0' <= name[i] <= '9'
  }

  // ----- Reference meaning -----

  /** The first closing brace at or after `from`, or the end. */
  function Close(data: string, from: nat): (j: nat)
    requires from <= |data|
    ensures from <= j <= |data|
    ensures j < |data| ==> data[j] == '}'
    ensures forall k :: from <= k < j ==> data[k] != '}'
    decreases |data| - from
  {
    if from == |data| || data[from] == '}' then from else Close(data, from + 1)
  }

  predicate EscapeAt(data: string, i: nat) {
    i + 2 < |data| && data[i] == '$' && data[i + 1] == '$' && data[i + 2] == '{'
  }

  predicate RefAt(data: string, i: nat) {
    i + 1 < |data| && data[i] == '$' && data[i + 1] == '{'
  }

  /** The text a token is written as. */
  function Source(t: Token): string {
    match t
    case Lit(c) => [c]
    case Escape => "$${"
    case Ref(name) => "${" + name + "}"
    case Broken(rest) => "${" + rest
  }

  function Width(t: Token): (w: nat)
    ensures 0 < w
  {
    match t
    case Lit(_) => 1
    case Escape => 3
    case Ref(name) => |name| + 3
    case Broken(rest) => |rest| + 2
  }

  /** The one token that begins at offset i. */
  function TokenAt(data: string, i: nat): (t: Token)
    requires i < |data|
    ensures i + Width(t) <= |data|
  {
    if EscapeAt(data, i) then Escape
    else if RefAt(data, i) then
      var j := Close(data, i + 2);
      if j == |data| then Broken(data[i + 2..]) else Ref(data[i + 2..j])
    else Lit(data[i])
  }

  function NextOffset(data: string, i: nat): (n: nat)
    requires i < |data|
    ensures i < n <= |data|
  {
    i + Width(TokenAt(data, i))
  }

  function FaultOf(t: Token, env: Env): Option<Fault> {
    match t
    case Ref(name) =>
      if !ValidName(name) then Some(BadName) else if name !in env then Some(Unset) else None
    case Broken(_) => Some(Unterminated)
    case _ => None
  }

  function ValueOf(t: Token, env: Env): string
    requires FaultOf(t, env) == None
  {
    match t
    case Lit(c) => [c]
    case Escape => "${"
    case Ref(name) => env[name]
  }

  function Prepend(text: string, e: Expansion): Expansion {
    if e.Text? then Text(text + e.out) else e
  }

  /** The grammar read from offset i on. */
  function Expand(data: string, i: nat, env: Env): Expansion
    requires i <= |data|
    decreases |data| - i
  {
    if i == |data| then Text("")
    else
      var t := TokenAt(data, i);
      if FaultOf(t, env).Some? then Failed(FaultOf(t, env).value, i)
      else Prepend(ValueOf(t, env), Expand(data, NextOffset(data, i), env))
  }

  // ----- The loop -----

  /** Resolve the reference that opens at offset i: the value and the offset after it. */
  method ResolveEnvRef(data: string, i: nat, env: Env)
    returns (value: string, next: nat, fault: Option<Fault>)
    requires RefAt(data, i)
    ensures fault == FaultOf(TokenAt(data, i), env)
    ensures fault == None ==> value == ValueOf(TokenAt(data, i), env) && next == NextOffset(data, i)
  {
    value, next := "", 0;
    var j := i + 2;
    while j < |data| && data[j] != '}'
      invariant i + 2 <= j <= |data| && Close(data, i + 2) == Close(data, j)
    {
      j := j + 1;
    }
    if j == |data| {
      return "", 0, Some(Unterminated);
    }
    var name := data[i + 2..j];
    if !ValidName(name) {
      return "", 0, Some(BadName);
    }
    if name !in env {
      return "", 0, Some(Unset);
    }
    return env[name], j + 1, None;
  }

  lemma Consume(data: string, i: nat, env: Env, out: string)
    requires i < |data| && FaultOf(TokenAt(data, i), env) == None
    ensures Prepend(out, Expand(data, i, env))
         == Prepend(out + ValueOf(TokenAt(data, i), env), Expand(data, NextOffset(data, i), env))
  {
    var e := Expand(data, NextOffset(data, i), env);
    var v := ValueOf(TokenAt(data, i), env);
    if e.Text? {
      assert out + (v + e.out) == out + v + e.out;
    }
  }

  lemma ConsumeChar(data: string, i: nat, env: Env, out: string)
    requires i < |data| && !EscapeAt(data, i) && !RefAt(data, i)
    ensures Prepend(out, Expand(data, i, env)) == Prepend(out + [data[i]], Expand(data, i + 1, env))
  {
    Consume(data, i, env, out);
  }

  lemma ConsumeEscape(data: string, i: nat, env: Env, out: string)
    requires EscapeAt(data, i)
    ensures Prepend(out, Expand(data, i, env)) == Prepend(out + "${", Expand(data, i + 3, env))
  {
    Consume(data, i, env, out);
  }

  /** The pass refines the grammar, with a strictly increasing offset. */
  method ExpandEnvRefs(data: string, env: Env) returns (r: Expansion)
    ensures r == Expand(data, 0, env)
  {
    var out := "";
    var i := 0;
    ghost var whole := Expand(data, 0, env);
    assert whole.Text? ==> "" + whole.out == whole.out;
    while i < |data|
      invariant 0 <= i <= |data| && whole == Prepend(out, Expand(data, i, env))
      decreases |data| - i
    {
      if data[i] != '$' {
        ConsumeChar(data, i, env, out);
        out := out + [data[i]];
        i := i + 1;
        continue;
      }
      if i + 2 < |data| && data[i + 1] == '$' && data[i + 2] == '{' {
        ConsumeEscape(data, i, env, out);
        out := out + "${";
        i := i + 3;
        continue;
      }
      if i + 1 < |data| && data[i + 1] == '{' {
        var value, next, fault := ResolveEnvRef(data, i, env);
        if fault.Some? {
          return Failed(fault.value, i);
        }
        Consume(data, i, env, out);
        out := out + value;
        i := next;
        continue;
      }
      ConsumeChar(data, i, env, out);
      out := out + "$";
      i := i + 1;
    }
    return Text(out);
  }

  // ----- Tokens of a whole file -----

  function Tokens(data: string, i: nat): seq<Token>
    requires i <= |data|
    decreases |data| - i
  {
    if i == |data| then [] else [TokenAt(data, i)] + Tokens(data, NextOffset(data, i))
  }

  function Sources(ts: seq<Token>): string {
    if ts == [] then "" else Source(ts[0]) + Sources(ts[1..])
  }

  lemma SourcesCons(t: Token, ts: seq<Token>)
    ensures Sources([t] + ts) == Source(t) + Sources(ts)
  {
    assert ([t] + ts)[1..] == ts;
  }

  lemma SplitAt(data: string, i: nat, j: nat, k: nat)
    requires i <= j <= k <= |data|
    ensures data[i..k] == data[i..j] + data[j..k]
  {
  }

  lemma RefText(data: string, i: nat, j: nat)
    requires RefAt(data, i) && i + 2 <= j < |data| && data[j] == '}'
    ensures data[i..j + 1] == "${" + data[i + 2..j] + "}"
  {
    SplitAt(data, i, j, j + 1);
    SplitAt(data, i, i + 2, j);
    assert data[i..i + 2] == "${" && data[j..j + 1] == "}";
  }

  lemma BrokenText(data: string, i: nat)
    requires RefAt(data, i)
    ensures data[i..|data|] == "${" + data[i + 2..]
  {
    SplitAt(data, i, i + 2, |data|);
    assert data[i..i + 2] == "${" && data[i + 2..|data|] == data[i + 2..];
  }

  lemma EscapeText(data: string, i: nat)
    requires EscapeAt(data, i)
    ensures data[i..i + 3] == "$${"
  {
  }

  lemma CharText(data: string, i: nat)
    requires i < |data|
    ensures data[i..i + 1] == [data[i]]
  {
  }

  /** A token's text is what stands at its offset. */
  lemma TokenText(data: string, i: nat)
    requires i < |data|
    ensures data[i..NextOffset(data, i)] == Source(TokenAt(data, i))
  {
    var t := TokenAt(data, i);
    if t.Ref? {
      RefText(data, i, Close(data, i + 2));
    } else if t.Broken? {
      BrokenText(data, i);
    } else if t.Escape? {
      EscapeText(data, i);
    } else {
      CharText(data, i);
    }
  }

  lemma TokensCons(data: string, i: nat)
    requires i < |data|
    ensures Sources(Tokens(data, i)) == Source(TokenAt(data, i)) + Sources(Tokens(data, NextOffset(data, i)))
  {
    SourcesCons(TokenAt(data, i), Tokens(data, NextOffset(data, i)));
  }

  /** The tokens are the file: nothing is lost, added or read twice. */
  lemma {:induction false} TokensFaithful(data: string, i: nat)
    requires i <= |data|
    ensures Sources(Tokens(data, i)) == data[i..|data|]
    decreases |data| - i
  {
    if i < |data| {
      var n := NextOffset(data, i);
      TokensFaithful(data, n);
      TokensCons(data, i);
      TokenText(data, i);
      SplitAt(data, i, n, |data|);
    }
  }

  function Values(ts: seq<Token>, env: Env): string {
    if ts == [] then ""
    else (if FaultOf(ts[0], env) == None then ValueOf(ts[0], env) else "") + Values(ts[1..], env)
  }

  ghost predicate Sound(ts: seq<Token>, env: Env) {
    forall k :: 0 <= k < |ts| ==> FaultOf(ts[k], env) == None
  }

  /** Success means every token is sound, and the output is the tokens' values in order:
      an inserted value is copied and never read again. */
  lemma {:induction false} SuccessIsConcatenation(data: string, i: nat, env: Env)
    requires i <= |data|
    ensures Expand(data, i, env).Text? <==> Sound(Tokens(data, i), env)
    ensures Expand(data, i, env).Text? ==> Expand(data, i, env).out == Values(Tokens(data, i), env)
    decreases |data| - i
  {
    if i < |data| {
      var ts, rest := Tokens(data, i), Tokens(data, NextOffset(data, i));
      SuccessIsConcatenation(data, NextOffset(data, i), env);
      assert ts[0] == TokenAt(data, i) && ts[1..] == rest;
      if Sound(rest, env) && FaultOf(ts[0], env) == None {
        assert forall k :: 1 <= k < |ts| ==> ts[k] == rest[k - 1];
      }
      if Sound(ts, env) {
        forall k | 0 <= k < |rest| ensures FaultOf(rest[k], env) == None {
          assert rest[k] == ts[k + 1];
        }
      }
    }
  }

  /** From offset i the reader comes to offset j over sound tokens only. */
  ghost predicate SoundUpTo(data: string, i: nat, j: nat, env: Env)
    requires i <= |data|
    decreases |data| - i
  {
    i == j ||
    (i < |data| && FaultOf(TokenAt(data, i), env) == None && SoundUpTo(data, NextOffset(data, i), j, env))
  }

  /** Failure names the first unsound token: the reader comes to the reported offset over
      sound tokens only, and there stands a reference with the reported fault. */
  lemma {:induction false} FirstFaultReported(data: string, i: nat, env: Env)
    requires i <= |data| && Expand(data, i, env).Failed?
    ensures var e := Expand(data, i, env);
            && SoundUpTo(data, i, e.offset, env)
            && RefAt(data, e.offset)
            && FaultOf(TokenAt(data, e.offset), env) == Some(e.fault)
    decreases |data| - i
  {
    if FaultOf(TokenAt(data, i), env) == None {
      FirstFaultReported(data, NextOffset(data, i), env);
    }
  }

  // ----- The meaning of each piece of text -----

  /** The characters of a name, by their codes. */
  predicate IsLetter(c: char) {
    65 <= c as int <= 90 || 97 <= c as int <= 122 || c as int == 95
  }

  predicate IsDigit(c: char) { 48 <= c as int <= 57 }

  /** A variable's name: a letter or underscore, then letters, digits and underscores. */
  ghost predicate IsName(name: string) {
    && |name| > 0 && IsLetter(name[0])
    && forall i :: 0 <= i < |name| ==> IsLetter(name[i]) || IsDigit(name[i])
  }

  lemma NameIff(name: string)
    ensures ValidName(name) <==> IsName(name)
  {
  }

  /** Is the character at offset i (if any) this one? */
  predicate Reads(data: string, i: nat, c: char) { i < |data| && data[i] == c }

  /** A character that opens neither `${` nor `$${` stands for itself, and the reader goes on
      with the next one. */
  lemma PlainMeans(data: string, i: nat, env: Env)
    requires i < |data|
    requires data[i] != '$'
             || (!Reads(data, i + 1, '{') && !(Reads(data, i + 1, '$') && Reads(data, i + 2, '{')))
    ensures Expand(data, i, env) == Prepend([data[i]], Expand(data, i + 1, env))
  {
  }

  /** `$${` stands for a literal `${`, and the reader goes on behind it. */
  lemma EscapeMeans(data: string, i: nat, env: Env)
    requires Reads(data, i, '$') && Reads(data, i + 1, '$') && Reads(data, i + 2, '{')
    ensures Expand(data, i, env) == Prepend("${", Expand(data, i + 3, env))
  {
  }

  /** `${` closed at offset j stands for the value of the variable named between, and the
      reader goes on behind the brace, not in the value; it is a fault at its own offset if
      the name is none or the variable is not set. */
  lemma ReferenceMeans(data: string, i: nat, j: nat, env: Env)
    requires Reads(data, i, '$') && Reads(data, i + 1, '{') && i + 2 <= j && Reads(data, j, '}')
    requires forall k :: i + 2 <= k < j ==> data[k] != '}'
    ensures var name := data[i + 2..j];
            Expand(data, i, env)
            == if !IsName(name) then Failed(BadName, i)
               else if name !in env then Failed(Unset, i)
               else Prepend(env[name], Expand(data, j + 1, env))
  {
    assert Close(data, i + 2) == j;
    NameIff(data[i + 2..j]);
  }

  /** `${` that is never closed is a fault at its own offset. */
  lemma UnclosedMeans(data: string, i: nat, env: Env)
    requires Reads(data, i, '$') && Reads(data, i + 1, '{') && forall k :: i + 2 <= k < |data| ==> data[k] != '}'
    ensures Expand(data, i, env) == Failed(Unterminated, i)
  {
    assert Close(data, i + 2) == |data|;
  }

  /** At the end there is nothing left. */
  lemma EndMeans(data: string, env: Env)
    ensures Expand(data, |data|, env) == Text("")
  {
  }

  // ----- Escaping undoes expansion -----

  /** Write every `${` as `$${`. */
  function Escaped(s: string): string {
    if s == "" then ""
    else if RefAt(s, 0) then "$${" + Escaped(s[2..])
    else [s[0]] + Escaped(s[1..])
  }

  /** An escaped text never begins with `${`, and begins with `{` only if the text does. */
  lemma EscapedStart(s: string)
    ensures !RefAt(Escaped(s), 0)
    ensures Escaped(s) != "" && Escaped(s)[0] == '{' ==> s != "" && s[0] == '{'
  {
    if s != "" && !RefAt(s, 0) && s[1..] != "" {
      assert s[1..][0] == s[1];
      assert Escaped(s)[1..] == Escaped(s[1..]);
      if !RefAt(s[1..], 0) { assert Escaped(s[1..])[0] == s[1]; }
    }
  }

  /** An escaped reference is read as one escape token. */
  lemma EscapedRef(s: string, t: string, q: nat)
    requires RefAt(s, 0) && q <= |t| && t[q..] == Escaped(s)
    ensures EscapeAt(t, q) && t[q + 3..] == Escaped(s[2..])
  {
    var e := Escaped(s);
    assert e == "$${" + Escaped(s[2..]);
    assert t[q] == e[0] && t[q + 1] == e[1] && t[q + 2] == e[2];
    assert t[q + 3..] == e[3..];
  }

  /** Any other character is read as itself. */
  lemma EscapedChar(s: string, t: string, q: nat)
    requires s != "" && !RefAt(s, 0) && q <= |t| && t[q..] == Escaped(s)
    ensures q < |t| && TokenAt(t, q) == Lit(s[0]) && t[q + 1..] == Escaped(s[1..])
  {
    var e, tail := Escaped(s), Escaped(s[1..]);
    assert e == [s[0]] + tail;
    assert e[1..] == tail;
    assert forall k :: 0 <= k < |e| ==> t[q + k] == e[k];
    assert t[q + 1..] == e[1..];
    EscapedStart(s);
    EscapedStart(s[1..]);
    assert RefAt(t, q) <==> RefAt(e, 0);
    assert EscapeAt(t, q) ==> RefAt(tail, 0);
  }

  lemma TextStep(t: string, q: nat, env: Env, value: string, rest: string, whole: string)
    requires q < |t| && FaultOf(TokenAt(t, q), env) == None && ValueOf(TokenAt(t, q), env) == value
    requires Expand(t, NextOffset(t, q), env) == Text(rest) && value + rest == whole
    ensures Expand(t, q, env) == Text(whole)
  {
  }

  /** Offset q of `t` is where the escaped form of the rest of s begins. */
  lemma {:induction false} EscapedExpands(s: string, t: string, q: nat, env: Env)
    requires q <= |t| && t[q..] == Escaped(s)
    ensures Expand(t, q, env) == Text(s)
    decreases |s|
  {
    if s != "" {
      if RefAt(s, 0) {
        EscapedRef(s, t, q);
        EscapedExpands(s[2..], t, q + 3, env);
        TextStep(t, q, env, "${", s[2..], s);
      } else {
        EscapedChar(s, t, q);
        EscapedExpands(s[1..], t, q + 1, env);
        TextStep(t, q, env, [s[0]], s[1..], s);
      }
    }
  }

  /** For every text and every environment, expanding the text with each `${` written
      as `$${` gives the text back. */
  lemma EscapeRoundTrip(s: string, env: Env)
    ensures Expand(Escaped(s), 0, env) == Text(s)
  {
    assert Escaped(s)[0..] == Escaped(s);
    EscapedExpands(s, Escaped(s), 0, env);
  }
}
