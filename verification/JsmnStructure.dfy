/**
 What `jsmn_parse` guarantees about its tokens for every input text, JSON or not.
 */
module JsmnStructure {
  import opened JsmnSpec
  import opened Texts

  // The characters around a token's span are the ones its kind promises.
  predicate Delimited(js: string, t: Token) {
    match t.kind
    case Undefined => false
    case String =>
      0 < t.start <= t.end < |js| && js[t.start - 1] == '"' && js[t.end] == '"'
    case Primitive =>
      0 <= t.start < t.end <= |js| && (AtEnd(js, t.end) || IsDelimiter(js[t.end]))
    case Object => Bracketed(js, t, '{', '}')
    case Array => Bracketed(js, t, '[', ']')
  }

  predicate Bracketed(js: string, t: Token, opener: char, closer: char) {
    && 0 <= t.start < |js| && js[t.start] == opener
    && (t.end == -1 || (t.start + 2 <= t.end <= |js| && js[t.end - 1] == closer))
  }

  // An open container still holds everything that follows it.
  predicate NestedOrDisjoint(a: Token, b: Token) {
    || a.end == -1
    || a.end <= b.start
    || (IsContainer(a.kind) && b.end != -1 && b.end < a.end)
  }

  predicate Ordered(toks: seq<Token>) {
    forall i, j :: 0 <= i < j < |toks| ==>
      toks[i].start < toks[j].start && NestedOrDisjoint(toks[i], toks[j])
  }

  // What holds between any two iterations of the main loop.
  predicate Structured(js: string, s: State) {
    && InRange(s)
    && s.pos <= |js|
    && (forall i :: 0 <= i < |s.toks| ==>
          Delimited(js, s.toks[i]) && s.toks[i].start < s.pos && s.toks[i].end <= s.pos)
    && Ordered(s.toks)
  }

  function SumSizes(toks: seq<Token>): int {
    if toks == [] then 0 else SumSizes(toks[..|toks| - 1]) + toks[|toks| - 1].size
  }

  lemma {:induction false} SumSizesUpdate(toks: seq<Token>, i: nat, t: Token)
    requires i < |toks|
    ensures SumSizes(toks[i := t]) == SumSizes(toks) - toks[i].size + t.size
  {
    var n := |toks| - 1;
    if i < n {
      SumSizesUpdate(toks[..n], i, t);
      assert toks[i := t][..n] == toks[..n][i := t];
    } else {
      assert toks[i := t][..n] == toks[..n];
    }
  }

  lemma SumSizesPush(toks: seq<Token>, t: Token)
    ensures SumSizes(toks + [t]) == SumSizes(toks) + t.size
  {
    assert (toks + [t])[..|toks|] == toks;
  }

  lemma SumSizesBump(toks: seq<Token>, i: int)
    requires -1 <= i < |toks|
    ensures SumSizes(Bump(toks, i)) == SumSizes(toks) + (if i == -1 then 0 else 1)
  {
    if i != -1 { SumSizesUpdate(toks, i, toks[i].(size := toks[i].size + 1)); }
  }

  // Bumping changes sizes only, so it keeps every claim about spans.
  lemma BumpKeepsStructure(js: string, s: State, i: int)
    requires Structured(js, s) && -1 <= i < |s.toks|
    ensures Structured(js, s.(toks := Bump(s.toks, i)))
  {
    var toks' := Bump(s.toks, i);
    assert forall k :: 0 <= k < |toks'| ==>
      && toks'[k].kind == s.toks[k].kind && toks'[k].start == s.toks[k].start
      && toks'[k].end == s.toks[k].end;
  }

  lemma PushKeepsStructure(js: string, s: State, t: Token, pos: nat, super: int)
    requires Structured(js, s) && s.pos <= t.start < pos <= |js| && t.end <= pos
    requires Delimited(js, t) && -1 <= super <= |s.toks|
    ensures Structured(js, State(pos, super, s.toks + [t]))
  {
    var toks' := s.toks + [t];
    forall i | 0 <= i < |s.toks| ensures NestedOrDisjoint(toks'[i], t) {
      assert s.toks[i].end <= s.pos;
    }
  }

  lemma CloseKeepsStructure(js: string, s: State)
    requires Structured(js, s) && s.pos < |js|
    requires var i := LastOpen(s.toks);
      i != -1 && ((s.toks[i].kind == Object && js[s.pos] == '}')
               || (s.toks[i].kind == Array && js[s.pos] == ']'))
    ensures var i := LastOpen(s.toks);
      Structured(js, State(s.pos + 1, LastOpen(s.toks[..i]), s.toks[i := s.toks[i].(end := s.pos + 1)]))
  {
    var i := LastOpen(s.toks);
    var toks' := s.toks[i := s.toks[i].(end := s.pos + 1)];
    assert s.toks[i].start < s.pos;
    forall a, b | 0 <= a < b < |toks'|
      ensures toks'[a].start < toks'[b].start && NestedOrDisjoint(toks'[a], toks'[b])
    {
      assert NestedOrDisjoint(s.toks[a], s.toks[b]);
      if a == i {
        assert !IsOpen(s.toks[b]) && s.toks[b].start >= 0;
      }
    }
  }

  lemma StepKeepsStructure(js: string, cap: nat, s: State)
    requires Structured(js, s) && !AtEnd(js, s.pos)
    ensures var r := Step(js, cap, s); r.Next? ==> Structured(js, r.st)
  {
    hide Ordered, Delimited, Bump, SumSizes;
    var r := Step(js, cap, s);
    if r.Next? {
      var c := js[s.pos];
      if c == '{' || c == '[' {
        BumpKeepsStructure(js, s, s.super);
        PushKeepsStructure(js, s.(toks := Bump(s.toks, s.super)),
                           r.st.toks[|s.toks|], s.pos + 1, |s.toks|);
      } else if c == '}' || c == ']' {
        CloseKeepsStructure(js, s);
      } else if |r.st.toks| > |s.toks| {
        BumpKeepsStructure(js, s, s.super);
        PushKeepsStructure(js, s.(toks := Bump(s.toks, s.super)),
                           r.st.toks[|s.toks|], r.st.pos, s.super);
      }
    }
  }

  // How many tokens the run creates while `toksuper` is not -1.
  function Linked(js: string, cap: nat, s: State): nat
    requires InRange(s)
    decreases |js| - s.pos
  {
    if AtEnd(js, s.pos) then 0
    else
      match Step(js, cap, s)
      case Stop(_) => 0
      case Next(s') =>
        (if |s'.toks| > |s.toks| && s.super != -1 then 1 else 0) + Linked(js, cap, s')
  }

  lemma StepSizes(js: string, cap: nat, s: State)
    requires InRange(s) && !AtEnd(js, s.pos)
    ensures var r := Step(js, cap, s);
      var linked := if r.Next? && |r.st.toks| > |s.toks| && s.super != -1 then 1 else 0;
      r.Next? ==> SumSizes(r.st.toks) == SumSizes(s.toks) + linked
  {
    var r := Step(js, cap, s);
    if r.Next? {
      var c := js[s.pos];
      if c == '}' || c == ']' {
        var i := LastOpen(s.toks);
        SumSizesUpdate(s.toks, i, s.toks[i].(end := s.pos + 1));
      } else if |r.st.toks| > |s.toks| {
        SumSizesBump(s.toks, s.super);
        SumSizesPush(Bump(s.toks, s.super), r.st.toks[|s.toks|]);
      }
    }
  }

  lemma {:induction false} RunKeepsStructure(js: string, cap: nat, s: State)
    requires Structured(js, s)
    ensures Structured(js, Run(js, cap, s).st)
    ensures SumSizes(Run(js, cap, s).st.toks) == SumSizes(s.toks) + Linked(js, cap, s)
    decreases |js| - s.pos
  {
    if !AtEnd(js, s.pos) {
      StepKeepsStructure(js, cap, s);
      StepSizes(js, cap, s);
      var r := Step(js, cap, s);
      if r.Next? { RunKeepsStructure(js, cap, r.st); }
    }
  }

  // Spans of a finished parse.
  predicate Disjoint(a: Token, b: Token) {
    a.end <= b.start || b.end <= a.start
  }

  predicate Inside(inner: Token, outer: Token) {
    outer.start < inner.start && inner.end < outer.end
  }

  /** Any text at all: if the parser accepts it, its tokens form a well-bracketed forest. */
  lemma {:induction false} AcceptedTokensFormForest(js: string, cap: nat)
    requires Run(js, cap, INITIAL).code >= 0
    ensures var r := Run(js, cap, INITIAL);
      var toks := r.st.toks;
      && r.code == |toks| <= cap
      && (forall i :: 0 <= i < |toks| ==> 0 <= toks[i].start <= toks[i].end <= |js|)
      && (forall i :: 0 <= i < |toks| ==> Delimited(js, toks[i]))
      && (forall i, j :: 0 <= i < j < |toks| ==> toks[i].start < toks[j].start)
      && (forall i, j :: 0 <= i < j < |toks| ==>
            Disjoint(toks[i], toks[j]) || (IsContainer(toks[i].kind) && Inside(toks[j], toks[i])))
      && SumSizes(toks) == Linked(js, cap, INITIAL)
  {
    RunKeepsStructure(js, cap, INITIAL);
    var toks := Run(js, cap, INITIAL).st.toks;
    forall i | 0 <= i < |toks| ensures 0 <= toks[i].start <= toks[i].end <= |js| {
      assert !IsOpen(toks[i]) && Delimited(js, toks[i]);
    }
    forall i, j | 0 <= i < j < |toks|
      ensures Disjoint(toks[i], toks[j]) || (IsContainer(toks[i].kind) && Inside(toks[j], toks[i]))
    {
      assert NestedOrDisjoint(toks[i], toks[j]);
    }
  }
}
