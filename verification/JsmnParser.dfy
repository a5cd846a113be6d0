/**
 `jsmn_parser` and its functions as written: three fields and a caller's token array, all
 updated in place, proved against `JsmnSpec`.
 */
module JsmnParser {
  import opened JsmnSpec
  import opened Texts

  class Parser {
    var pos: nat
    var toknext: nat
    var toksuper: int

    // What the source demands of its callers: a token array that holds the tokens so far.
    ghost predicate Ready(tokens: array?<Token>, numTokens: nat)
      reads this
    {
      tokens != null ==> -1 <= toksuper < toknext <= numTokens <= tokens.Length
    }

    ghost function View(tokens: array<Token>): (s: State)
      requires toknext <= tokens.Length
      reads this, tokens
    {
      State(pos, toksuper, tokens[..toknext])
    }

    constructor ()
      ensures pos == INITIAL.pos && toknext == |INITIAL.toks| && toksuper == INITIAL.super
    {
      pos := 0;
      toknext := 0;
      toksuper := -1;
    }

    // `jsmn_alloc_token` and `jsmn_fill_token`
    method PushToken(tokens: array<Token>, numTokens: nat, t: Token) returns (ok: bool)
      requires toknext <= numTokens <= tokens.Length
      modifies this`toknext, tokens
      ensures ok == (old(toknext) < numTokens)
      ensures toknext == if ok then old(toknext) + 1 else old(toknext)
      ensures tokens[..toknext] == if ok then old(tokens[..toknext]) + [t] else old(tokens[..toknext])
      ensures !ok ==> unchanged(tokens)
      ensures forall i :: toknext <= i < tokens.Length ==> tokens[i] == old(tokens[i])
    {
      if toknext >= numTokens {
        return false;
      }
      tokens[toknext] := t;
      toknext := toknext + 1;
      ok := true;
    }

    // The effect shared by the two leaf parsers once the end `q` of the leaf is known.
    twostate predicate LeafPushed(tokens: array?<Token>, numTokens: nat, r: int, t: Token, last: int)
      requires tokens != null ==> old(toknext) <= tokens.Length && toknext <= tokens.Length
      reads this, tokens
    {
      if tokens == null then r == 0 && pos == last && toknext == old(toknext)
      else if old(toknext) >= numTokens then
        r == ERROR_NOMEM && pos == old(pos) && toknext == old(toknext) && unchanged(tokens)
      else
        && r == 0 && pos == last && toknext == old(toknext) + 1
        && tokens[..toknext] == old(tokens[..toknext]) + [t]
        && (forall i :: toknext <= i < tokens.Length ==> tokens[i] == old(tokens[i]))
    }

    twostate predicate Rejected(tokens: array?<Token>, r: int, code: int)
      reads this, tokens
    {
      r == code && pos == old(pos) && toknext == old(toknext) && (tokens != null ==> unchanged(tokens))
    }

    method ParsePrimitive(js: string, tokens: array?<Token>, numTokens: nat) returns (r: int)
      requires pos < |js| && !AtEnd(js, pos) && !IsDelimiter(js[pos]) && Ready(tokens, numTokens)
      modifies this`pos, this`toknext, tokens
      ensures Ready(tokens, numTokens)
      ensures match ScanPrimitive(js, old(pos))
        case Bad(code) => Rejected(tokens, r, code)
        case Found(q) => LeafPushed(tokens, numTokens, r, Token(Primitive, old(pos), q, 0), q - 1)
    {
      var start := pos;
      while pos < |js| && js[pos] != '\0' && !IsDelimiter(js[pos])
        invariant start <= pos <= |js|
        invariant ScanPrimitive(js, pos) == ScanPrimitive(js, start)
        modifies this`pos
      {
        if js[pos] as int < 32 || js[pos] as int >= 127 {
          pos := start;
          return ERROR_INVAL;
        }
        pos := pos + 1;
      }
      if tokens == null {
        pos := pos - 1;
        return 0;
      }
      var ok := PushToken(tokens, numTokens, Token(Primitive, start, pos, 0));
      if !ok {
        pos := start;
        return ERROR_NOMEM;
      }
      pos := pos - 1;
      return 0;
    }

    // The four digits of a unicode escape.
    method SkipHex(js: string) returns (ok: bool)
      requires pos <= |js|
      modifies this`pos
      ensures match ScanHex(js, old(pos), 4)
        case Bad(_) => !ok
        case Found(q) => ok && pos == q
    {
      var i := 0;
      while i < 4 && pos < |js| && js[pos] != '\0'
        invariant 0 <= i <= 4 && pos <= |js|
        invariant ScanHex(js, pos, 4 - i) == ScanHex(js, old(pos), 4)
      {
        if !IsHexDigit(js[pos]) {
          return false;
        }
        pos := pos + 1;
        i := i + 1;
      }
      return true;
    }

    // The character after a backslash, up to the last character of its escape.
    method SkipEscape(js: string) returns (ok: bool)
      requires 0 < pos < |js| && js[pos - 1] == '\\'
      modifies this`pos
      ensures !ok ==> ScanString(js, old(pos) - 1) == Bad(ERROR_INVAL)
      ensures ok ==> old(pos) <= pos < |js| && ScanString(js, old(pos) - 1) == ScanString(js, pos + 1)
    {
      if js[pos] == 'u' {
        pos := pos + 1;
        ok := SkipHex(js);
        if !ok {
          return false;
        }
        pos := pos - 1;
        return true;
      }
      return IsSimpleEscape(js[pos]);
    }

    method ParseString(js: string, tokens: array?<Token>, numTokens: nat) returns (r: int)
      requires pos < |js| && js[pos] == '"' && Ready(tokens, numTokens)
      modifies this`pos, this`toknext, tokens
      ensures Ready(tokens, numTokens)
      ensures match ScanString(js, old(pos) + 1)
        case Bad(code) => Rejected(tokens, r, code)
        case Found(q) => LeafPushed(tokens, numTokens, r, Token(String, old(pos) + 1, q, 0), q)
    {
      var start := pos;
      pos := pos + 1;
      ghost var goal := ScanString(js, pos);
      while pos < |js| && js[pos] != '\0'
        invariant start < pos <= |js|
        invariant ScanString(js, pos) == goal
        modifies this`pos
      {
        var c := js[pos];
        if c == '"' {
          if tokens == null {
            return 0;
          }
          break;
        }
        if c == '\\' && pos + 1 < |js| {
          pos := pos + 1;
          var ok := SkipEscape(js);
          if !ok {
            pos := start;
            return ERROR_INVAL;
          }
        }
        pos := pos + 1;
      }
      if AtEnd(js, pos) {
        pos := start;
        return ERROR_PART;
      }
      var ok := PushToken(tokens, numTokens, Token(String, start + 1, pos, 0));
      if !ok {
        pos := start;
        return ERROR_NOMEM;
      }
      return 0;
    }

    // One loop iteration agrees with `Step`; `pos` is advanced by the loop itself afterwards.
    twostate predicate Stepped(js: string, tokens: array<Token>, numTokens: nat, r: int)
      requires old(Ready(tokens, numTokens)) && Ready(tokens, numTokens) && old(!AtEnd(js, pos))
      reads this, tokens
    {
      var step := Step(js, numTokens, old(View(tokens)));
      && (r == 0 ==> step == Next(View(tokens).(pos := pos + 1)))
      && (r != 0 ==> step == Stop(r) && View(tokens) == old(View(tokens)))
      && (forall i :: toknext <= i < tokens.Length ==> tokens[i] == old(tokens[i]))
    }

    method OpenContainer(js: string, tokens: array<Token>, numTokens: nat) returns (r: int)
      requires Ready(tokens, numTokens) && pos < |js| && (js[pos] == '{' || js[pos] == '[')
      modifies this`toknext, this`toksuper, tokens
      ensures Ready(tokens, numTokens) && Stepped(js, tokens, numTokens, r)
    {
      var kind := if js[pos] == '{' then Object else Array;
      var ok := PushToken(tokens, numTokens, Token(kind, pos, -1, 0));
      if !ok {
        return ERROR_NOMEM;
      }
      Count(tokens);
      toksuper := toknext - 1;
      return 0;
    }

    // `tokens[toksuper].size++`, for the token just pushed.
    method Count(tokens: array<Token>)
      requires -1 <= toksuper < toknext - 1 < tokens.Length
      modifies tokens
      ensures tokens[..toknext] == Bump(old(tokens[..toknext - 1]), toksuper) + [old(tokens[toknext - 1])]
      ensures forall i :: toknext <= i < tokens.Length ==> tokens[i] == old(tokens[i])
    {
      if toksuper != -1 {
        tokens[toksuper] := tokens[toksuper].(size := tokens[toksuper].size + 1);
      }
    }

    // The backward search for the innermost open token among the first `n`.
    method FindOpen(tokens: array<Token>, n: nat) returns (i: int)
      requires n <= tokens.Length
      ensures i == LastOpen(tokens[..n])
    {
      i := n - 1;
      while i >= 0 && !(tokens[i].start != -1 && tokens[i].end == -1)
        invariant -1 <= i < n
        invariant LastOpen(tokens[..i + 1]) == LastOpen(tokens[..n])
      {
        assert tokens[..i + 1][..i] == tokens[..i];
        i := i - 1;
      }
    }

    method CloseContainer(js: string, tokens: array<Token>, numTokens: nat) returns (r: int)
      requires Ready(tokens, numTokens) && pos < |js| && (js[pos] == '}' || js[pos] == ']')
      modifies this`toksuper, tokens
      ensures Ready(tokens, numTokens) && Stepped(js, tokens, numTokens, r)
    {
      var kind := if js[pos] == '}' then Object else Array;
      var i := FindOpen(tokens, toknext);
      if i == -1 || tokens[i].kind != kind {
        return ERROR_INVAL;
      }
      ghost var was := tokens[..toknext];
      tokens[i] := tokens[i].(end := pos + 1);
      assert tokens[..toknext] == was[i := was[i].(end := pos + 1)];
      var outer := FindOpen(tokens, i);
      assert tokens[..i] == was[..i];
      toksuper := outer;
      return 0;
    }

    method Comma(js: string, tokens: array<Token>, numTokens: nat)
      requires Ready(tokens, numTokens) && pos < |js| && js[pos] == ','
      modifies this`toksuper
      ensures Ready(tokens, numTokens) && Stepped(js, tokens, numTokens, 0)
    {
      if toksuper != -1 && tokens[toksuper].kind != Array && tokens[toksuper].kind != Object {
        var i: int := toknext - 1;
        while i >= 0 && !(IsContainer(tokens[i].kind) && tokens[i].start != -1 && tokens[i].end == -1)
          invariant -1 <= i < toknext
          invariant LastOpenContainer(tokens[..i + 1]) == LastOpenContainer(tokens[..toknext])
        {
          assert tokens[..i + 1][..i] == tokens[..i];
          i := i - 1;
        }
        if i >= 0 {
          toksuper := i;
        }
      }
    }

    // A string in the main loop.
    method StringLeaf(js: string, tokens: array<Token>, numTokens: nat) returns (r: int)
      requires Ready(tokens, numTokens) && !AtEnd(js, pos)
      requires js[pos] == '"'
      modifies this`pos, this`toknext, tokens
      ensures Ready(tokens, numTokens) && Stepped(js, tokens, numTokens, r)
    {
      ghost var s := View(tokens);
      LeafStep(js, numTokens, s);
      ghost var scan := ScanString(js, pos + 1);
      hide Step, ScanString, ScanPrimitive, Bump, LastOpen;
      r := ParseString(js, tokens, numTokens);
      if r == 0 {
        ghost var t := Token(String, s.pos + 1, scan.at, 0);
        assert tokens[..toknext] == s.toks + [t];
        assert tokens[..toknext - 1] == s.toks && tokens[toknext - 1] == tokens[..toknext][|s.toks|] == t;
        Count(tokens);
        assert tokens[..toknext] == Bump(s.toks, toksuper) + [t];
      }
    }

    // Anything else that starts a value.
    method PrimitiveLeaf(js: string, tokens: array<Token>, numTokens: nat) returns (r: int)
      requires Ready(tokens, numTokens) && !AtEnd(js, pos)
      requires js[pos] != '"' && !IsDelimiter(js[pos]) && js[pos] != '{' && js[pos] != '['
      modifies this`pos, this`toknext, tokens
      ensures Ready(tokens, numTokens) && Stepped(js, tokens, numTokens, r)
    {
      ghost var s := View(tokens);
      LeafStep(js, numTokens, s);
      ghost var scan := ScanPrimitive(js, pos);
      hide Step, ScanString, ScanPrimitive, Bump, LastOpen;
      r := ParsePrimitive(js, tokens, numTokens);
      if r == 0 {
        ghost var t := Token(Primitive, s.pos, scan.at, 0);
        assert tokens[..toknext] == s.toks + [t];
        assert tokens[..toknext - 1] == s.toks && tokens[toknext - 1] == tokens[..toknext][|s.toks|] == t;
        Count(tokens);
        assert tokens[..toknext] == Bump(s.toks, toksuper) + [t];
      }
    }

    // The characters for which the main loop counts a token.
    predicate StartsToken(c: char) {
      c != '}' && c != ']' && !IsBlank(c) && c != ':' && c != ','
    }

    // The body of the main loop.
    method Iterate(js: string, tokens: array<Token>, numTokens: nat) returns (r: int)
      requires Ready(tokens, numTokens) && !AtEnd(js, pos)
      modifies this, tokens
      ensures Ready(tokens, numTokens) && Stepped(js, tokens, numTokens, r)
      ensures r == 0 ==> toknext == old(toknext) + if StartsToken(js[old(pos)]) then 1 else 0
    {
      hide ScanString, ScanPrimitive, LastOpen, LastOpenContainer, Bump;
      var c := js[pos];
      r := 0;
      if c == '{' || c == '[' {
        r := OpenContainer(js, tokens, numTokens);
      } else if c == '}' || c == ']' {
        r := CloseContainer(js, tokens, numTokens);
      } else if IsBlank(c) {
      } else if c == ':' {
        toksuper := toknext - 1;
      } else if c == ',' {
        Comma(js, tokens, numTokens);
      } else if c == '"' {
        r := StringLeaf(js, tokens, numTokens);
      } else {
        r := PrimitiveLeaf(js, tokens, numTokens);
      }
    }

    /** `jsmn_parse` with a token array. */
    method ParseTokens(js: string, tokens: array<Token>, numTokens: nat) returns (r: int)
      requires Ready(tokens, numTokens) && pos <= |js|
      modifies this, tokens
      ensures Ready(tokens, numTokens)
      ensures Outcome(r, View(tokens)) == Run(js, numTokens, old(View(tokens)))
      ensures forall i :: toknext <= i < tokens.Length ==> tokens[i] == old(tokens[i])
    {
      hide Step, LastOpen;
      var count := toknext;
      ghost var goal := Run(js, numTokens, View(tokens));
      while pos < |js| && js[pos] != '\0'
        invariant Ready(tokens, numTokens) && pos <= |js| && count == toknext
        invariant Run(js, numTokens, View(tokens)) == goal
        invariant forall i :: toknext <= i < tokens.Length ==> tokens[i] == old(tokens[i])
        decreases |js| - pos
      {
        var c := js[pos];
        r := Iterate(js, tokens, numTokens);
        if r != 0 {
          return;
        }
        if StartsToken(c) {
          count := count + 1;
        }
        pos := pos + 1;
      }
      var i := FindOpen(tokens, toknext);
      if i != -1 {
        return ERROR_PART;
      }
      return count;
    }

    // A leaf in counting mode: only the position moves.
    method CountLeaf(js: string) returns (r: int)
      requires !AtEnd(js, pos)
      requires js[pos] == '"' || (!IsDelimiter(js[pos]) && js[pos] != '{' && js[pos] != '[')
      modifies this`pos, this`toknext
      ensures toknext == old(toknext)
      ensures match (if js[old(pos)] == '"' then ScanString(js, old(pos) + 1) else ScanPrimitive(js, old(pos)))
        case Bad(code) => r == code && pos == old(pos)
        case Found(q) => r == 0 && pos == if js[old(pos)] == '"' then q else q - 1
    {
      hide ScanString, ScanPrimitive;
      if js[pos] == '"' {
        r := ParseString(js, null, 0);
      } else {
        r := ParsePrimitive(js, null, 0);
      }
    }

    /** `jsmn_parse` with `tokens == NULL`: counts, leaves `toknext` alone. */
    method CountTokens(js: string) returns (r: int)
      requires pos <= |js|
      modifies this
      ensures toknext == old(toknext)
      ensures var c := CountRun(js, toknext, CountState(old(pos), old(toksuper), toknext));
        r == c.code && pos == c.st.pos && toksuper == c.st.super
    {
      hide ScanString, ScanPrimitive, CountRun;
      var count := toknext;
      ghost var goal := CountRun(js, toknext, CountState(pos, toksuper, count));
      while pos < |js| && js[pos] != '\0'
        invariant pos <= |js| && count >= 0 && toknext == old(toknext)
        invariant CountRun(js, toknext, CountState(pos, toksuper, count)) == goal
        decreases |js| - pos
      {
        CountUnfold(js, toknext, CountState(pos, toksuper, count));
        var c := js[pos];
        if c == '{' || c == '[' {
          count := count + 1;
        } else if c == '}' || c == ']' || IsBlank(c) || c == ',' {
        } else if c == ':' {
          toksuper := toknext - 1;
        } else {
          r := CountLeaf(js);
          if r < 0 {
            return;
          }
          count := count + 1;
        }
        pos := pos + 1;
      }
      CountUnfold(js, toknext, CountState(pos, toksuper, count));
      return count;
    }
  }

  lemma LeafStep(js: string, cap: nat, s: State)
    requires InRange(s) && !AtEnd(js, s.pos)
    requires js[s.pos] == '"' || (!IsDelimiter(js[s.pos]) && js[s.pos] != '{' && js[s.pos] != '[')
    ensures Step(js, cap, s) ==
      var quoted := js[s.pos] == '"';
      match if quoted then ScanString(js, s.pos + 1) else ScanPrimitive(js, s.pos)
      case Bad(code) => Stop(code)
      case Found(q) =>
        PushLeaf(cap, s, if quoted then Token(String, s.pos + 1, q, 0) else Token(Primitive, s.pos, q, 0),
                 if quoted then q + 1 else q)
  {
    hide ScanString, ScanPrimitive, PushLeaf;
  }
}
