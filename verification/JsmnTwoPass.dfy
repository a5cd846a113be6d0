/**
 `jsmn_parse` against a tokenizer in two passes: one that cuts the text into lexemes, and one that
 builds the tokens with a stack of open brackets where the source searches the tokens backwards.
 For every text, JSON or not, they have the same result and the same tokens.
 */
module JsmnTwoPass {
  import opened JsmnSpec
  import opened Texts

  datatype Lexeme =
    | Open(kind: Kind, at: nat)
    | Close(kind: Kind, at: nat)
    | Leaf(kind: Kind, start: nat, end: nat)
    | Colon
    | Comma

  // The lexemes before the end of the text, or before the first error, which is 0 if there is none.
  datatype Lexed = Lexed(lexemes: seq<Lexeme>, error: int)

  function Lex(js: string, p: nat): Lexed
    requires p <= |js|
    decreases |js| - p
  {
    if p == |js| || js[p] == '\0' then Lexed([], 0)
    else
      match js[p]
      case '{' => Behind(Open(Object, p), Lex(js, p + 1))
      case '[' => Behind(Open(Array, p), Lex(js, p + 1))
      case '}' => Behind(Close(Object, p), Lex(js, p + 1))
      case ']' => Behind(Close(Array, p), Lex(js, p + 1))
      case ':' => Behind(Colon, Lex(js, p + 1))
      case ',' => Behind(Comma, Lex(js, p + 1))
      case ' ' => Lex(js, p + 1)
      case '\t' => Lex(js, p + 1)
      case '\n' => Lex(js, p + 1)
      case '\r' => Lex(js, p + 1)
      case '"' =>
        (match ScanString(js, p + 1)
         case Bad(code) => Lexed([], code)
         case Found(q) => Behind(Leaf(String, p + 1, q), Lex(js, q + 1)))
      case _ =>
        (match ScanPrimitive(js, p)
         case Bad(code) => Lexed([], code)
         case Found(q) => if q > p then Behind(Leaf(Primitive, p, q), Lex(js, q)) else Lexed([], ERROR_INVAL))
  }

  function Behind(first: Lexeme, rest: Lexed): Lexed {
    Lexed([first] + rest.lexemes, rest.error)
  }

  // `open` are the positions of the open brackets among the tokens, innermost last.
  datatype Builder = Builder(open: seq<nat>, super: int, toks: seq<Token>)

  const EMPTY := Builder([], -1, [])

  function Innermost(open: seq<nat>): int {
    if open == [] then -1 else open[|open| - 1]
  }

  function Counted(toks: seq<Token>, super: int): (r: seq<Token>)
    ensures |r| == |toks|
  {
    if 0 <= super < |toks| then toks[super := toks[super].(size := toks[super].size + 1)] else toks
  }

  datatype Put = Put(b: Builder) | Refused(code: int)

  function PutLexeme(x: Lexeme, cap: nat, b: Builder): Put {
    var n := |b.toks|;
    match x
    case Open(kind, at) =>
      if n >= cap then Refused(ERROR_NOMEM)
      else Put(Builder(b.open + [n], n, Counted(b.toks, b.super) + [Token(kind, at, -1, 0)]))
    case Leaf(kind, start, end) =>
      if n >= cap then Refused(ERROR_NOMEM)
      else Put(b.(toks := Counted(b.toks, b.super) + [Token(kind, start, end, 0)]))
    case Close(kind, at) =>
      var i := Innermost(b.open);
      if 0 <= i < n && b.toks[i].kind == kind then
        var outer := b.open[..|b.open| - 1];
        Put(Builder(outer, Innermost(outer), b.toks[i := b.toks[i].(end := at + 1)]))
      else Refused(ERROR_INVAL)
    case Colon => Put(b.(super := n - 1))
    case Comma =>
      if 0 <= b.super < n && !IsContainer(b.toks[b.super].kind) && b.open != []
      then Put(b.(super := Innermost(b.open)))
      else Put(b)
  }

  datatype Built = Built(code: int, b: Builder)

  function Build(l: Lexed, cap: nat, b: Builder): Built
    decreases |l.lexemes|
  {
    if l.lexemes == [] then
      Built(if l.error != 0 then l.error else if b.open == [] then |b.toks| else ERROR_PART, b)
    else
      match PutLexeme(l.lexemes[0], cap, b)
      case Refused(code) => Built(code, b)
      case Put(b') => Build(Lexed(l.lexemes[1..], l.error), cap, b')
  }

  // ---------- the searches find the top of the stack ----------

  function OpenAt(toks: seq<Token>): seq<nat> {
    if toks == [] then []
    else
      var n := |toks| - 1;
      OpenAt(toks[..n]) + if IsOpen(toks[n]) then [n] else []
  }

  predicate OnlyContainersOpen(toks: seq<Token>) {
    forall i :: 0 <= i < |toks| && IsOpen(toks[i]) ==> IsContainer(toks[i].kind)
  }

  lemma {:induction false} LastOpenIsInnermost(toks: seq<Token>)
    ensures LastOpen(toks) == Innermost(OpenAt(toks))
    ensures OnlyContainersOpen(toks) ==> LastOpenContainer(toks) == LastOpen(toks)
  {
    if toks != [] { LastOpenIsInnermost(toks[..|toks| - 1]); }
  }

  lemma {:induction false} OpenAtCounted(toks: seq<Token>, super: int)
    ensures OpenAt(Counted(toks, super)) == OpenAt(toks)
  {
    if toks != [] {
      var n := |toks| - 1;
      OpenAtCounted(toks[..n], super);
      assert Counted(toks, super)[..n] == Counted(toks[..n], super);
    }
  }

  lemma OpenAtPush(toks: seq<Token>, t: Token)
    ensures OpenAt(toks + [t]) == OpenAt(toks) + if IsOpen(t) then [|toks|] else []
  {
    assert (toks + [t])[..|toks|] == toks;
  }

  // Closing the innermost open token pops the stack, and what is left is open before it.
  lemma {:induction false} OpenAtClosed(toks: seq<Token>, end: nat)
    requires LastOpen(toks) != -1
    ensures var i, open := LastOpen(toks), OpenAt(toks);
      && open != [] && open[|open| - 1] == i
      && OpenAt(toks[i := toks[i].(end := end)]) == open[..|open| - 1] == OpenAt(toks[..i])
  {
    var n, i := |toks| - 1, LastOpen(toks);
    var t := toks[i].(end := end);
    if i == n {
      assert toks[i := t][..n] == toks[..n];
    } else {
      OpenAtClosed(toks[..n], end);
      assert toks[i := t][..n] == toks[..n][i := t];
      assert toks[..n][..i] == toks[..i];
    }
  }

  // ---------- both tokenizers agree ----------

  predicate Tracks(s: State, b: Builder): (r: bool)
    ensures r ==> InRange(s) && b.toks == s.toks && b.super == s.super
  {
    && InRange(s) && OnlyContainersOpen(s.toks)
    && b == Builder(OpenAt(s.toks), s.super, s.toks)
  }

  lemma CountedIsBump(toks: seq<Token>, super: int)
    requires -1 <= super < |toks|
    ensures Counted(toks, super) == Bump(toks, super)
    ensures OnlyContainersOpen(toks) ==> OnlyContainersOpen(Counted(toks, super))
  {
  }

  // A token is created.
  lemma PushTracks(s: State, b: Builder, t: Token, super: int, pos: nat)
    requires Tracks(s, b) && (IsOpen(t) ==> IsContainer(t.kind)) && -1 <= super <= |s.toks|
    ensures Tracks(State(pos, super, Bump(s.toks, s.super) + [t]),
                   Builder(b.open + (if IsOpen(t) then [|s.toks|] else []), super, Counted(b.toks, b.super) + [t]))
  {
    hide OpenAt;
    CountedIsBump(s.toks, s.super);
    OpenAtCounted(s.toks, s.super);
    OpenAtPush(Counted(s.toks, s.super), t);
  }

  lemma CloseTracks(s: State, b: Builder, pos: nat)
    requires Tracks(s, b) && LastOpen(s.toks) != -1
    ensures b.open != [] && Innermost(b.open) == LastOpen(s.toks)
    ensures var i, outer := LastOpen(s.toks), b.open[..|b.open| - 1];
      Tracks(State(pos, LastOpen(s.toks[..i]), s.toks[i := s.toks[i].(end := s.pos + 1)]),
                Builder(outer, Innermost(outer), b.toks[i := b.toks[i].(end := s.pos + 1)]))
  {
    hide OpenAt;
    var i := LastOpen(s.toks);
    OpenAtClosed(s.toks, s.pos + 1);
    LastOpenIsInnermost(s.toks[..i]);
  }

  // One step of the source: a blank is skipped, anything else is the next lexeme.
  ghost predicate Agrees(js: string, cap: nat, s: State, b: Builder)
    requires Tracks(s, b) && !AtEnd(js, s.pos)
  {
    var l := Lex(js, s.pos);
    match Step(js, cap, s)
    case Next(n) =>
      n.pos <= |js| &&
      (if IsBlank(js[s.pos]) then Tracks(n, b) && l == Lex(js, n.pos)
       else && l.lexemes != [] && Lexed(l.lexemes[1..], l.error) == Lex(js, n.pos)
            && PutLexeme(l.lexemes[0], cap, b).Put? && Tracks(n, PutLexeme(l.lexemes[0], cap, b).b))
    case Stop(code) =>
      if l.lexemes == [] then l.error == code != 0 else PutLexeme(l.lexemes[0], cap, b) == Refused(code)
  }

  lemma OpenAgrees(js: string, cap: nat, s: State, b: Builder)
    requires Tracks(s, b) && !AtEnd(js, s.pos) && (js[s.pos] == '{' || js[s.pos] == '[')
    ensures Agrees(js, cap, s, b)
  {
    hide OpenAt, Bump, Counted, OnlyContainersOpen, Tracks;
    PushTracks(s, b, Token(if js[s.pos] == '{' then Object else Array, s.pos, -1, 0), |s.toks|, s.pos + 1);
    assert Behind(Open(if js[s.pos] == '{' then Object else Array, s.pos), Lex(js, s.pos + 1)).lexemes[1..]
        == Lex(js, s.pos + 1).lexemes;
  }

  lemma CloseAgrees(js: string, cap: nat, s: State, b: Builder)
    requires Tracks(s, b) && !AtEnd(js, s.pos) && (js[s.pos] == '}' || js[s.pos] == ']')
    ensures Agrees(js, cap, s, b)
  {
    hide OpenAt, OnlyContainersOpen;
    LastOpenIsInnermost(s.toks);
    if LastOpen(s.toks) != -1 { CloseTracks(s, b, s.pos + 1); }
    assert Behind(Close(if js[s.pos] == '}' then Object else Array, s.pos), Lex(js, s.pos + 1)).lexemes[1..]
        == Lex(js, s.pos + 1).lexemes;
  }

  lemma MarkAgrees(js: string, cap: nat, s: State, b: Builder)
    requires Tracks(s, b) && !AtEnd(js, s.pos) && (js[s.pos] == ':' || js[s.pos] == ',' || IsBlank(js[s.pos]))
    ensures Agrees(js, cap, s, b)
  {
    hide OpenAt;
    LastOpenIsInnermost(s.toks);
    var rest := Lex(js, s.pos + 1);
    assert Behind(Colon, rest).lexemes[1..] == rest.lexemes && Behind(Comma, rest).lexemes[1..] == rest.lexemes;
  }

  lemma LeafAgrees(js: string, cap: nat, s: State, b: Builder)
    requires Tracks(s, b) && !AtEnd(js, s.pos) && !IsDelimiter(js[s.pos]) && js[s.pos] != '{' && js[s.pos] != '['
    ensures Agrees(js, cap, s, b)
  {
    hide OpenAt, Bump, Counted, OnlyContainersOpen, Tracks, ScanString;
    var quoted := js[s.pos] == '"';
    match if quoted then ScanString(js, s.pos + 1) else ScanPrimitive(js, s.pos)
    case Bad(_) =>
    case Found(q) =>
      var t := if quoted then Token(String, s.pos + 1, q, 0) else Token(Primitive, s.pos, q, 0);
      var next := if quoted then q + 1 else q;
      PushTracks(s, b, t, s.super, next);
      assert b.open + [] == b.open;
      assert Behind(Leaf(t.kind, t.start, q), Lex(js, next)).lexemes[1..] == Lex(js, next).lexemes;
  }

  lemma {:induction false} RunIsBuild(js: string, cap: nat, s: State, b: Builder)
    requires Tracks(s, b) && s.pos <= |js|
    ensures var r, built := Run(js, cap, s), Build(Lex(js, s.pos), cap, b);
      && r.code == built.code && Tracks(r.st, built.b)
    decreases |js| - s.pos
  {
    hide Step, Lex, PutLexeme, Tracks, AtEnd;
    if AtEnd(js, s.pos) {
      AtTheEnd(js, cap, s, b);
    } else {
      StepAgrees(js, cap, s, b);
      match Step(js, cap, s)
      case Stop(_) =>
      case Next(n) =>
        RunIsBuild(js, cap, n, if IsBlank(js[s.pos]) then b else PutLexeme(Lex(js, s.pos).lexemes[0], cap, b).b);
    }
  }

  lemma AtTheEnd(js: string, cap: nat, s: State, b: Builder)
    requires Tracks(s, b) && s.pos <= |js| && AtEnd(js, s.pos)
    ensures var r, built := Run(js, cap, s), Build(Lex(js, s.pos), cap, b);
      && r.code == built.code && Tracks(r.st, built.b)
  {
    LastOpenIsInnermost(s.toks);
  }

  lemma StepAgrees(js: string, cap: nat, s: State, b: Builder)
    requires Tracks(s, b) && !AtEnd(js, s.pos)
    ensures Agrees(js, cap, s, b) && InRange(s)
  {
    hide Agrees;
    var c := js[s.pos];
    if c == '{' || c == '[' {
      OpenAgrees(js, cap, s, b);
    } else if c == '}' || c == ']' {
      CloseAgrees(js, cap, s, b);
    } else if c == ':' || c == ',' || IsBlank(c) {
      MarkAgrees(js, cap, s, b);
    } else {
      LeafAgrees(js, cap, s, b);
    }
  }

  /** Any text, any number of slots: the result, the tokens and the last parent are those of cutting
      into lexemes and building with a stack. */
  lemma TwoPassesAgree(js: string, cap: nat)
    ensures var r, built := Run(js, cap, INITIAL), Build(Lex(js, 0), cap, EMPTY);
      r.code == built.code && r.st.toks == built.b.toks && r.st.super == built.b.super
  {
    RunIsBuild(js, cap, INITIAL, EMPTY);
  }

  // ---------- which texts are accepted ----------

  // How many tokens the lexemes make.
  function Values(lexemes: seq<Lexeme>): nat {
    if lexemes == [] then 0
    else (if lexemes[0].Open? || lexemes[0].Leaf? then 1 else 0) + Values(lexemes[1..])
  }

  // Every bracket is closed by one of its kind, with the brackets `open` around, innermost last.
  predicate Balanced(lexemes: seq<Lexeme>, open: seq<Kind>) {
    if lexemes == [] then open == []
    else
      match lexemes[0]
      case Open(kind, _) => Balanced(lexemes[1..], open + [kind])
      case Close(kind, _) => open != [] && open[|open| - 1] == kind && Balanced(lexemes[1..], open[..|open| - 1])
      case _ => Balanced(lexemes[1..], open)
  }

  function Kinds(b: Builder): seq<Kind> {
    seq(|b.open|, i requires 0 <= i < |b.open| => if b.open[i] < |b.toks| then b.toks[b.open[i]].kind else Undefined)
  }

  predicate Sound(b: Builder) {
    && (forall i :: 0 <= i < |b.open| ==> b.open[i] < |b.toks|)
    && (forall i, j :: 0 <= i < j < |b.open| ==> b.open[i] < b.open[j])
  }

  lemma PutKinds(x: Lexeme, cap: nat, b: Builder)
    requires Sound(b) && |b.toks| + Values([x]) <= cap
    ensures match PutLexeme(x, cap, b)
      case Put(n) =>
        && Sound(n) && |n.toks| == |b.toks| + Values([x])
        && Kinds(n) == (match x case Open(kind, _) => Kinds(b) + [kind]
                                case Close(_, _) => Kinds(b)[..|Kinds(b)| - 1]
                                case _ => Kinds(b))
        && (x.Close? ==> Kinds(b) != [] && Kinds(b)[|Kinds(b)| - 1] == x.kind)
      case Refused(code) =>
        code == ERROR_INVAL && x.Close? && (Kinds(b) == [] || Kinds(b)[|Kinds(b)| - 1] != x.kind)
  {
    assert Values([x]) == if x.Open? || x.Leaf? then 1 else 0;
    match x
    case Close(_, _) => PutCloseKinds(x, cap, b);
    case _ => PutOtherKinds(x, cap, b);
  }

  lemma PutCloseKinds(x: Lexeme, cap: nat, b: Builder)
    requires Sound(b) && x.Close?
    ensures match PutLexeme(x, cap, b)
      case Put(n) =>
        && Sound(n) && |n.toks| == |b.toks| && Kinds(b) != [] && Kinds(b)[|Kinds(b)| - 1] == x.kind
        && Kinds(n) == Kinds(b)[..|Kinds(b)| - 1]
      case Refused(code) =>
        code == ERROR_INVAL && (Kinds(b) == [] || Kinds(b)[|Kinds(b)| - 1] != x.kind)
  {
  }

  lemma PutOtherKinds(x: Lexeme, cap: nat, b: Builder)
    requires Sound(b) && !x.Close? && (x.Open? || x.Leaf? ==> |b.toks| < cap)
    ensures PutLexeme(x, cap, b).Put?
    ensures var n := PutLexeme(x, cap, b).b;
      && Sound(n) && |n.toks| == |b.toks| + (if x.Open? || x.Leaf? then 1 else 0)
      && Kinds(n) == Kinds(b) + (if x.Open? then [x.kind] else [])
  {
    var n := PutLexeme(x, cap, b).b;
    forall i | 0 <= i < |b.toks| ensures n.toks[i].kind == b.toks[i].kind { }
  }

  lemma {:induction false} BuildAccepts(l: Lexed, cap: nat, b: Builder)
    requires Sound(b) && |b.toks| + Values(l.lexemes) <= cap && l.error <= 0
    ensures Build(l, cap, b).code >= 0 ==> Build(l, cap, b).code == |b.toks| + Values(l.lexemes)
    ensures Build(l, cap, b).code >= 0 <==> l.error == 0 && Balanced(l.lexemes, Kinds(b))
    decreases |l.lexemes|
  {
    if l.lexemes != [] {
      hide PutLexeme, Kinds, Sound;
      var x, rest := l.lexemes[0], Lexed(l.lexemes[1..], l.error);
      assert Values([x]) + Values(rest.lexemes) == Values(l.lexemes);
      PutKinds(x, cap, b);
      match PutLexeme(x, cap, b)
      case Refused(_) =>
      case Put(n) => BuildAccepts(rest, cap, n);
    }
  }

  lemma {:induction false} LexErrors(js: string, p: nat)
    requires p <= |js|
    ensures Lex(js, p).error == 0 || Lex(js, p).error == ERROR_INVAL || Lex(js, p).error == ERROR_PART
    decreases |js| - p
  {
    hide ScanString, ScanPrimitive;
    if p < |js| {
      LexErrors(js, p + 1);
      var s, w := ScanString(js, p + 1), ScanPrimitive(js, p);
      if s.Found? { LexErrors(js, s.at + 1); }
      if w.Found? && w.at > p { LexErrors(js, w.at); }
    }
  }

  /** With a slot for every value a text is accepted exactly if it can be cut into lexemes to its end
      and its brackets match; the result is then the number of its values. */
  lemma AcceptsExactly(js: string, cap: nat)
    requires Values(Lex(js, 0).lexemes) <= cap
    ensures var l, code := Lex(js, 0), Run(js, cap, INITIAL).code;
      && (code >= 0 <==> l.error == 0 && Balanced(l.lexemes, []))
      && (code >= 0 ==> code == Values(l.lexemes))
  {
    hide Lex, Run, Build;
    TwoPassesAgree(js, cap);
    LexErrors(js, 0);
    assert Kinds(EMPTY) == [];
    BuildAccepts(Lex(js, 0), cap, EMPTY);
  }

  // A primitive is not empty.
  lemma StartsInside(js: string, p: nat)
    requires !AtEnd(js, p)
    ensures !IsDelimiter(js[p]) && ScanPrimitive(js, p).Found? ==> ScanPrimitive(js, p).at > p
  {
  }

  /** Counting counts the values of any text that can be cut into lexemes, matching brackets or not,
      and fails with the lexer's error otherwise. */
  lemma {:induction false} CountIsExact(js: string, next: nat, s: CountState)
    requires s.pos <= |js|
    ensures CountRun(js, next, s).code
         == if Lex(js, s.pos).error != 0 then Lex(js, s.pos).error else s.count + Values(Lex(js, s.pos).lexemes)
    decreases |js| - s.pos
  {
    hide ScanString, ScanPrimitive, CountRun;
    CountUnfold(js, next, s);
    if !AtEnd(js, s.pos) { StartsInside(js, s.pos); }
    if !AtEnd(js, s.pos) {
      var c, p := js[s.pos], s.pos + 1;
      if c == '{' || c == '[' {
        CountIsExact(js, next, s.(pos := p, count := s.count + 1));
      } else if c == ':' {
        CountIsExact(js, next, s.(pos := p, super := next - 1));
      } else if c == '}' || c == ']' || IsBlank(c) || c == ',' {
        CountIsExact(js, next, s.(pos := p));
      } else {
        match if c == '"' then ScanString(js, p) else ScanPrimitive(js, s.pos)
        case Bad(_) =>
        case Found(q) => CountIsExact(js, next, s.(pos := if c == '"' then q + 1 else q, count := s.count + 1));
      }
    }
  }
}
