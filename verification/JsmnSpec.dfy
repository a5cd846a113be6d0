/**
 What `jsmn_parse` computes, as functions over the parser's observable state.

 The compiled variant is modelled: JSMN_STRICT and JSMN_PARENT_LINKS are undefined.
 `State.toks` is the allocated part of the token array, so `toknext` is `|toks|`; slots past
 `toknext` never influence the parser because allocation overwrites them.  Every step that
 fails leaves `pos`, `toknext`, `toksuper` and the tokens as they were before the step.
 */
module JsmnSpec {
  import opened Texts

  const ERROR_NOMEM := -1
  const ERROR_INVAL := -2
  const ERROR_PART := -3

  datatype Kind = Undefined | Object | Array | String | Primitive

  datatype Token = Token(kind: Kind, start: int, end: int, size: int)

  datatype State = State(pos: nat, super: int, toks: seq<Token>)

  // `jsmn_init`
  const INITIAL := State(0, -1, [])

  datatype Scan = Found(at: nat) | Bad(code: int)

  datatype StepResult = Next(st: State) | Stop(code: int)

  datatype Outcome = Outcome(code: int, st: State)

  predicate IsBlank(c: char) {
    c == '\t' || c == '\r' || c == '\n' || c == ' '
  }

  // What ends a primitive in non-strict mode.
  predicate IsDelimiter(c: char) {
    IsBlank(c) || c == ':' || c == ',' || c == ']' || c == '}'
  }

  predicate IsHexDigit(c: char) {
    48 <= c as int <= 57 || 65 <= c as int <= 70 || 97 <= c as int <= 102
  }

  predicate IsSimpleEscape(c: char) {
    c == '"' || c == '/' || c == '\\' || c == 'b' || c == 'f' || c == 'r' || c == 'n' || c == 't'
  }

  // Bytes 128..255 are negative as `signed char` and at least 127 as `unsigned char`: rejected
  // on either platform.
  predicate IsUnprintable(c: char) {
    (c as int) < 32 || c as int >= 127
  }

  // Up to `n` hex digits from `p`; stops early only at the end of the text.
  function ScanHex(js: string, p: nat, n: nat): (r: Scan)
    requires p <= |js|
    ensures r.Found? ==> p <= r.at <= |js|
    ensures r.Bad? ==> r.code == ERROR_INVAL
    decreases n
  {
    if n == 0 || AtEnd(js, p) then Found(p)
    else if !IsHexDigit(js[p]) then Bad(ERROR_INVAL)
    else ScanHex(js, p + 1, n - 1)
  }

  // Position of the quote that closes a string whose body starts at `p`.
  function ScanString(js: string, p: nat): (r: Scan)
    requires p <= |js|
    ensures r.Found? ==> p <= r.at < |js| && js[r.at] == '"'
    ensures r.Bad? ==> r.code == ERROR_INVAL || r.code == ERROR_PART
    decreases |js| - p
  {
    if AtEnd(js, p) then Bad(ERROR_PART)
    else if js[p] == '"' then Found(p)
    else if js[p] == '\\' && p + 1 < |js| then
      if IsSimpleEscape(js[p + 1]) then ScanString(js, p + 2)
      else if js[p + 1] == 'u' then
        match ScanHex(js, p + 2, 4)
        case Bad(code) => Bad(code)
        case Found(q) => ScanString(js, q)
      else Bad(ERROR_INVAL)
    else ScanString(js, p + 1)
  }

  // First position from `p` that is not part of a primitive.
  function ScanPrimitive(js: string, p: nat): (r: Scan)
    requires p <= |js|
    ensures r.Found? ==> p <= r.at <= |js| && (AtEnd(js, r.at) || IsDelimiter(js[r.at]))
    ensures r.Bad? ==> r.code == ERROR_INVAL
    decreases |js| - p
  {
    if AtEnd(js, p) || IsDelimiter(js[p]) then Found(p)
    else if IsUnprintable(js[p]) then Bad(ERROR_INVAL)
    else ScanPrimitive(js, p + 1)
  }

  predicate IsOpen(t: Token) {
    t.start != -1 && t.end == -1
  }

  // Index of the innermost open token, -1 if there is none.
  function LastOpen(toks: seq<Token>): (r: int)
    ensures -1 <= r < |toks|
    ensures r != -1 ==> IsOpen(toks[r])
    ensures forall i :: r < i < |toks| ==> !IsOpen(toks[i])
  {
    if toks == [] then -1
    else if IsOpen(toks[|toks| - 1]) then |toks| - 1
    else LastOpen(toks[..|toks| - 1])
  }

  predicate IsContainer(k: Kind) {
    k == Array || k == Object
  }

  // Same search, restricted to containers, as written for ','.
  function LastOpenContainer(toks: seq<Token>): (r: int)
    ensures -1 <= r < |toks|
    ensures r != -1 ==> IsOpen(toks[r]) && IsContainer(toks[r].kind)
    ensures forall i :: r < i < |toks| ==> !(IsOpen(toks[i]) && IsContainer(toks[i].kind))
  {
    if toks == [] then -1
    else if IsOpen(toks[|toks| - 1]) && IsContainer(toks[|toks| - 1].kind) then |toks| - 1
    else LastOpenContainer(toks[..|toks| - 1])
  }

  // One more child for the token `i`, if there is one.
  function Bump(toks: seq<Token>, i: int): (r: seq<Token>)
    requires -1 <= i < |toks|
    ensures |r| == |toks|
  {
    if i == -1 then toks else toks[i := toks[i].(size := toks[i].size + 1)]
  }

  predicate InRange(s: State) {
    -1 <= s.super < |s.toks|
  }

  function PushLeaf(cap: nat, s: State, t: Token, pos: nat): StepResult
    requires InRange(s)
  {
    if |s.toks| >= cap then Stop(ERROR_NOMEM)
    else Next(State(pos, s.super, Bump(s.toks, s.super) + [t]))
  }

  // One iteration of the main loop, with `cap` tokens available.
  function Step(js: string, cap: nat, s: State): (r: StepResult)
    requires InRange(s) && !AtEnd(js, s.pos)
    ensures r.Next? ==> InRange(r.st) && s.pos < r.st.pos <= |js| && |s.toks| <= |r.st.toks|
    ensures r.Next? && |s.toks| <= cap ==> |r.st.toks| <= cap
    ensures r.Stop? ==> r.code == ERROR_NOMEM || r.code == ERROR_INVAL || r.code == ERROR_PART
  {
    var c := js[s.pos];
    if c == '{' || c == '[' then
      if |s.toks| >= cap then Stop(ERROR_NOMEM)
      else
        var t := Token(if c == '{' then Object else Array, s.pos, -1, 0);
        Next(State(s.pos + 1, |s.toks|, Bump(s.toks, s.super) + [t]))
    else if c == '}' || c == ']' then
      var i := LastOpen(s.toks);
      if i == -1 || s.toks[i].kind != (if c == '}' then Object else Array) then Stop(ERROR_INVAL)
      else Next(State(s.pos + 1, LastOpen(s.toks[..i]), s.toks[i := s.toks[i].(end := s.pos + 1)]))
    else if c == '"' then
      match ScanString(js, s.pos + 1)
      case Bad(code) => Stop(code)
      case Found(q) => PushLeaf(cap, s, Token(String, s.pos + 1, q, 0), q + 1)
    else if IsBlank(c) then
      Next(s.(pos := s.pos + 1))
    else if c == ':' then
      Next(s.(pos := s.pos + 1, super := |s.toks| - 1))
    else if c == ',' then
      Next(s.(pos := s.pos + 1, super := AfterComma(s)))
    else
      match ScanPrimitive(js, s.pos)
      case Bad(code) => Stop(code)
      case Found(q) => PushLeaf(cap, s, Token(Primitive, s.pos, q, 0), q)
  }

  function AfterComma(s: State): (r: int)
    requires InRange(s)
    ensures -1 <= r < |s.toks|
  {
    if s.super != -1 && !IsContainer(s.toks[s.super].kind) then
      var i := LastOpenContainer(s.toks);
      if i == -1 then s.super else i
    else s.super
  }

  // A whole call with a token array of `cap` slots, from any state.
  function Run(js: string, cap: nat, s: State): (r: Outcome)
    requires InRange(s)
    ensures InRange(r.st) && |s.toks| <= |r.st.toks|
    ensures s.pos <= |js| ==> s.pos <= r.st.pos <= |js|
    ensures |s.toks| <= cap ==> |r.st.toks| <= cap
    ensures r.code >= 0 ==> r.code == |r.st.toks| && LastOpen(r.st.toks) == -1 && AtEnd(js, r.st.pos)
    decreases |js| - s.pos
  {
    if AtEnd(js, s.pos) then
      Outcome(if LastOpen(s.toks) == -1 then |s.toks| else ERROR_PART, s)
    else
      match Step(js, cap, s)
      case Stop(code) => Outcome(code, s)
      case Next(s') => Run(js, cap, s')
  }

  // Counting mode (`tokens == NULL`): no token is allocated and no bracket is matched.
  datatype CountState = CountState(pos: nat, super: int, count: nat)

  datatype CountOutcome = CountOutcome(code: int, st: CountState)

  // `next` is the parser's `toknext`, which counting mode never changes.
  function CountRun(js: string, next: nat, s: CountState): (r: CountOutcome)
    ensures r.code >= 0 ==> r.code == r.st.count
    ensures s.count <= r.st.count
    ensures s.pos <= |js| ==> s.pos <= r.st.pos <= |js|
    decreases |js| - s.pos
  {
    if AtEnd(js, s.pos) then CountOutcome(s.count, s)
    else
      var c := js[s.pos];
      if c == '{' || c == '[' then
        CountRun(js, next, s.(pos := s.pos + 1, count := s.count + 1))
      else if c == '"' then
        match ScanString(js, s.pos + 1)
        case Bad(code) => CountOutcome(code, s)
        case Found(q) => CountRun(js, next, s.(pos := q + 1, count := s.count + 1))
      else if c == ':' then
        CountRun(js, next, s.(pos := s.pos + 1, super := next - 1))
      else if c == '}' || c == ']' || IsBlank(c) || c == ',' then
        CountRun(js, next, s.(pos := s.pos + 1))
      else
        match ScanPrimitive(js, s.pos)
        case Bad(code) => CountOutcome(code, s)
        case Found(q) => CountRun(js, next, s.(pos := q, count := s.count + 1))
  }

  lemma CountUnfold(js: string, next: nat, s: CountState)
    ensures CountRun(js, next, s) ==
      if AtEnd(js, s.pos) then CountOutcome(s.count, s)
      else
        var c := js[s.pos];
        if c == '{' || c == '[' then CountRun(js, next, s.(pos := s.pos + 1, count := s.count + 1))
        else if c == ':' then CountRun(js, next, s.(pos := s.pos + 1, super := next - 1))
        else if c == '}' || c == ']' || IsBlank(c) || c == ',' then CountRun(js, next, s.(pos := s.pos + 1))
        else
          match if c == '"' then ScanString(js, s.pos + 1) else ScanPrimitive(js, s.pos)
          case Bad(code) => CountOutcome(code, s)
          case Found(q) =>
            CountRun(js, next, s.(pos := if c == '"' then q + 1 else q, count := s.count + 1))
  {
    hide ScanString, ScanPrimitive;
  }
}
