/**
 `jsmn_parse` on JSON: for every RFC 8259 text the tokens are exactly the pre-order list of the
 value's nodes.
 */
module JsmnGrammar {
  import opened JsmnSpec
  import opened Texts
  import R = Rfc8259

  // ---------- the reference: pre-order tokens of a tree rendered at `off` ----------

  function Tokens(v: R.Value, off: nat): (r: seq<Token>)
    ensures |r| == NodeCount(v)
  {
    match v
    case Prim(lexeme) => [Token(Primitive, off, off + |lexeme|, 0)]
    case Str(body) => [Token(String, off + 1, off + 1 + |R.BodyText(body)|, 0)]
    case Arr(_, items) =>
      [Token(Array, off, off + |R.Render(v)|, R.ItemCount(items))] + ItemTokens(items, off + 1)
    case Obj(_, members) =>
      [Token(Object, off, off + |R.Render(v)|, R.MemberCount(members))] + MemberTokens(members, off + 1)
  }

  function ItemTokens(items: R.Items, off: nat): (r: seq<Token>)
    ensures |r| == ItemNodes(items)
  {
    match items
    case NoItems => []
    case Item(pre, val, post, rest) =>
      var at := off + |pre|;
      Tokens(val, at) + ItemTokens(rest, at + |R.Render(val)| + |post| + 1)
  }

  function MemberTokens(members: R.Members, off: nat): (r: seq<Token>)
    ensures |r| == MemberNodes(members)
  {
    match members
    case NoMembers => []
    case Member(pre, key, beforeColon, afterColon, val, post, rest) =>
      var k := off + |pre|;
      var at := k + |R.Quoted(key)| + |beforeColon| + 1 + |afterColon|;
      [Token(String, k + 1, k + 1 + |R.BodyText(key)|, 1)] + Tokens(val, at)
      + MemberTokens(rest, at + |R.Render(val)| + |post| + 1)
  }

  function NodeCount(v: R.Value): nat {
    match v
    case Prim(_) => 1
    case Str(_) => 1
    case Arr(_, items) => 1 + ItemNodes(items)
    case Obj(_, members) => 1 + MemberNodes(members)
  }

  function ItemNodes(items: R.Items): nat {
    if items.NoItems? then 0 else NodeCount(items.val) + ItemNodes(items.rest)
  }

  function MemberNodes(members: R.Members): nat {
    if members.NoMembers? then 0 else 1 + NodeCount(members.val) + MemberNodes(members.rest)
  }

  predicate NoneOpen(toks: seq<Token>) {
    forall i :: 0 <= i < |toks| ==> !IsOpen(toks[i])
  }

  lemma {:induction false} TokensAreClosed(v: R.Value, off: nat)
    ensures NoneOpen(Tokens(v, off))
  {
    match v
    case Prim(_) =>
    case Str(_) =>
    case Arr(_, items) => ItemTokensAreClosed(items, off + 1);
    case Obj(_, members) => MemberTokensAreClosed(members, off + 1);
  }

  lemma {:induction false} ItemTokensAreClosed(items: R.Items, off: nat)
    ensures NoneOpen(ItemTokens(items, off))
  {
    if items.Item? {
      var at := off + |items.pre|;
      TokensAreClosed(items.val, at);
      ItemTokensAreClosed(items.rest, at + |R.Render(items.val)| + |items.post| + 1);
    }
  }

  lemma {:induction false} MemberTokensAreClosed(members: R.Members, off: nat)
    ensures NoneOpen(MemberTokens(members, off))
  {
    hide R.Render, R.Quoted, R.BodyText;
    match members
    case NoMembers =>
    case Member(pre, key, beforeColon, afterColon, val, post, rest) =>
      var at := off + |pre| + |R.Quoted(key)| + |beforeColon| + 1 + |afterColon|;
      TokensAreClosed(val, at);
      MemberTokensAreClosed(rest, at + |R.Render(val)| + |post| + 1);
  }

  // ---------- scanners on lexical elements ----------

  lemma {:induction false} ScanPart(js: string, p: nat, part: R.StrPart)
    requires R.ValidPart(part) && R.At(js, p, R.PartText(part))
    requires p + |R.PartText(part)| < |js|
    ensures ScanString(js, p) == ScanString(js, p + |R.PartText(part)|)
  {
    var text := R.PartText(part);
    R.AtIndex(js, p, text, 0);
    if !part.Plain? {
      R.AtIndex(js, p, text, 1);
      if part.Unicode? {
        ScanFourHex(js, p + 2, part.hex);
      }
    }
  }

  lemma {:induction false} ScanFourHex(js: string, p: nat, hex: string)
    requires R.ValidPart(R.Unicode(hex)) && p >= 2 && R.At(js, p - 2, R.PartText(R.Unicode(hex)))
    ensures p + 4 <= |js| && ScanHex(js, p, 4) == Found(p + 4)
  {
    var text := R.PartText(R.Unicode(hex));
    R.AtIndex(js, p - 2, text, 2);
    R.AtIndex(js, p - 2, text, 3);
    R.AtIndex(js, p - 2, text, 4);
    R.AtIndex(js, p - 2, text, 5);
    assert R.IsHex(hex[0]) && R.IsHex(hex[1]) && R.IsHex(hex[2]) && R.IsHex(hex[3]);
    assert ScanHex(js, p + 3, 1) == Found(p + 4);
    assert ScanHex(js, p + 2, 2) == Found(p + 4);
    assert ScanHex(js, p + 1, 3) == Found(p + 4);
  }

  lemma {:induction false} ScanBody(js: string, p: nat, body: R.StrBody)
    requires R.ValidBody(body) && R.At(js, p, R.BodyText(body))
    requires R.At(js, p + |R.BodyText(body)|, "\"")
    ensures p <= |js| && ScanString(js, p) == Found(p + |R.BodyText(body)|)
    decreases |body|
  {
    hide R.At, R.PartText, R.ValidPart, ScanHex;
    R.AtBound(js, p, R.BodyText(body));
    R.AtIndex(js, p + |R.BodyText(body)|, "\"", 0);
    if body != [] {
      var head := R.PartText(body[0]);
      R.AtConcat(js, p, head, R.BodyText(body[1..]));
      ScanBody(js, p + |head|, body[1..]);
      ScanPart(js, p, body[0]);
    }
  }

  lemma {:induction false} ScanLexeme(js: string, p: nat, lexeme: string)
    requires R.AllPrimChars(lexeme) && R.At(js, p, lexeme)
    requires EndsPrimitive(js, p + |lexeme|)
    ensures p <= |js| && ScanPrimitive(js, p) == Found(p + |lexeme|)
    decreases |lexeme|
  {
    R.AtBound(js, p, lexeme);
    if lexeme != "" {
      assert R.IsPrimChar(lexeme[0]);
      ScanLexeme(js, p + 1, lexeme[1..]);
    }
  }

  // ---------- the run, piece by piece ----------

  ghost predicate Ends(js: string, cap: nat, s: State, r: Outcome)
    requires InRange(s)
  {
    Run(js, cap, s) == r
  }

  // The run from `s` passes through `s'`: it ends the way the run from `s'` ends.
  ghost predicate Leads(js: string, cap: nat, s: State, s': State)
    requires InRange(s) && InRange(s')
  {
    forall r {:trigger Ends(js, cap, s', r)} :: Ends(js, cap, s', r) ==> Ends(js, cap, s, r)
  }

  lemma LeadsTrans(js: string, cap: nat, s: State, s': State, s'': State)
    requires InRange(s) && InRange(s') && InRange(s'')
    requires Leads(js, cap, s, s') && Leads(js, cap, s', s'')
    ensures Leads(js, cap, s, s'')
  {
    forall r | Ends(js, cap, s'', r) ensures Ends(js, cap, s, r) {
      assert Ends(js, cap, s', r);
    }
  }

  lemma StepLeads(js: string, cap: nat, s: State, s': State)
    requires InRange(s) && InRange(s') && !AtEnd(js, s.pos)
    requires Step(js, cap, s) == Next(s')
    ensures Leads(js, cap, s, s')
  {
  }

  lemma {:induction false} Blanks(js: string, cap: nat, s: State, ws: string)
    requires InRange(s) && R.AllWs(ws) && R.At(js, s.pos, ws)
    ensures Leads(js, cap, s, s.(pos := s.pos + |ws|))
    decreases |ws|
  {
    if ws != "" {
      var s1 := s.(pos := s.pos + 1);
      assert R.IsWs(ws[0]);
      StepLeads(js, cap, s, s1);
      Blanks(js, cap, s1, ws[1..]);
      LeadsTrans(js, cap, s, s1, s.(pos := s.pos + |ws|));
    }
  }

  lemma QuotedLeads(js: string, cap: nat, s: State, body: R.StrBody)
    requires InRange(s) && |s.toks| < cap
    requires R.ValidBody(body) && R.At(js, s.pos, R.Quoted(body))
    ensures var t := Token(String, s.pos + 1, s.pos + 1 + |R.BodyText(body)|, 0);
      Leads(js, cap, s, State(s.pos + |R.Quoted(body)|, s.super, Bump(s.toks, s.super) + [t]))
  {
    hide R.At, R.BodyText, R.ValidBody, ScanString, Bump, Leads;
    QuotedAt(js, s.pos, body);
    StringStep(js, cap, s, s.pos + 1 + |R.BodyText(body)|);
  }

  lemma QuotedAt(js: string, p: nat, body: R.StrBody)
    requires R.ValidBody(body) && R.At(js, p, R.Quoted(body))
    ensures p + |R.Quoted(body)| <= |js| && js[p] == '"' && |R.Quoted(body)| == |R.BodyText(body)| + 2
    ensures ScanString(js, p + 1) == Found(p + 1 + |R.BodyText(body)|)
  {
    hide R.At, R.BodyText, R.ValidBody, ScanString;
    R.AtBound(js, p, R.Quoted(body));
    R.AtIndex(js, p, R.Quoted(body), 0);
    R.AtConcat(js, p, "\"" + R.BodyText(body), "\"");
    R.AtConcat(js, p, "\"", R.BodyText(body));
    ScanBody(js, p + 1, body);
  }

  lemma StringStep(js: string, cap: nat, s: State, q: nat)
    requires InRange(s) && |s.toks| < cap && !AtEnd(js, s.pos) && js[s.pos] == '"'
    requires ScanString(js, s.pos + 1) == Found(q)
    ensures Leads(js, cap, s, State(q + 1, s.super, Bump(s.toks, s.super) + [Token(String, s.pos + 1, q, 0)]))
  {
    hide ScanString, Bump, Leads;
    StepLeads(js, cap, s, State(q + 1, s.super, Bump(s.toks, s.super) + [Token(String, s.pos + 1, q, 0)]));
  }

  predicate EndsPrimitive(js: string, p: nat) {
    AtEnd(js, p) || IsDelimiter(js[p])
  }

  lemma LexemeLeads(js: string, cap: nat, s: State, lexeme: string)
    requires InRange(s) && |s.toks| < cap
    requires R.IsPrimitive(lexeme) && R.At(js, s.pos, lexeme)
    requires EndsPrimitive(js, s.pos + |lexeme|)
    ensures var t := Token(Primitive, s.pos, s.pos + |lexeme|, 0);
      Leads(js, cap, s, State(s.pos + |lexeme|, s.super, Bump(s.toks, s.super) + [t]))
  {
    R.PrimitiveChars(lexeme);
    R.AtIndex(js, s.pos, lexeme, 0);
    assert R.IsPrimChar(lexeme[0]);
    ScanLexeme(js, s.pos, lexeme);
    StepLeads(js, cap, s,
      State(s.pos + |lexeme|, s.super,
            Bump(s.toks, s.super) + [Token(Primitive, s.pos, s.pos + |lexeme|, 0)]));
  }

  lemma {:induction false} LastOpenAppend(toks: seq<Token>, closed: seq<Token>)
    requires NoneOpen(closed)
    ensures LastOpen(toks + closed) == LastOpen(toks)
    decreases |closed|
  {
    if closed == [] {
      assert toks + closed == toks;
    } else {
      var n := |closed| - 1;
      LastOpenAppend(toks, closed[..n]);
      assert (toks + closed)[..|toks + closed| - 1] == toks + closed[..n];
    }
  }

  lemma LastOpenBump(toks: seq<Token>, i: int)
    requires -1 <= i < |toks|
    ensures LastOpen(Bump(toks, i)) == LastOpen(toks)
  {
    assert forall k :: 0 <= k < |toks| ==> IsOpen(Bump(toks, i)[k]) == IsOpen(toks[k]);
  }

  // A token array inside an open container: what came before, the container, its finished content.
  function Around(base: seq<Token>, t: Token, inner: seq<Token>): (r: seq<Token>)
    ensures |r| == |base| + 1 + |inner|
  {
    base + [t] + inner
  }

  ghost predicate OpenAround(base: seq<Token>, t: Token, inner: seq<Token>) {
    IsOpen(t) && IsContainer(t.kind) && NoneOpen(inner)
  }

  lemma AroundIsOpen(base: seq<Token>, t: Token, inner: seq<Token>)
    requires OpenAround(base, t, inner)
    ensures LastOpen(Around(base, t, inner)) == |base|
    ensures LastOpenContainer(Around(base, t, inner)) == |base|
  {
    var toks := Around(base, t, inner);
    assert toks[|base|] == t;
    forall i | |base| < i < |toks| ensures !IsOpen(toks[i]) {
      assert toks[i] == inner[i - |base| - 1];
    }
  }

  lemma AroundBump(base: seq<Token>, t: Token, inner: seq<Token>)
    ensures Bump(Around(base, t, inner), |base|) == Around(base, t.(size := t.size + 1), inner)
  {
  }

  lemma AroundPush(base: seq<Token>, t: Token, inner: seq<Token>, kt: Token)
    ensures Around(base, t, inner) + [kt] == Around(base, t, inner + [kt])
  {
  }

  lemma FreshIsOpen(base: seq<Token>, t: Token)
    requires IsOpen(t) && IsContainer(t.kind)
    ensures OpenAround(base, t, [])
  {
  }

  lemma GrowKeepsOpen(base: seq<Token>, t: Token, inner: seq<Token>)
    requires OpenAround(base, t, inner)
    ensures OpenAround(base, t.(size := t.size + 1), inner)
  {
  }

  // The opening bracket.
  lemma OpenLeads(js: string, cap: nat, s: State, kind: Kind)
    requires InRange(s) && |s.toks| < cap
    requires (kind == Object && R.At(js, s.pos, "{")) || (kind == Array && R.At(js, s.pos, "["))
    ensures var base := Bump(s.toks, s.super);
      Leads(js, cap, s, State(s.pos + 1, |base|, Around(base, Token(kind, s.pos, -1, 0), [])))
  {
    var base := Bump(s.toks, s.super);
    R.AtIndex(js, s.pos, if kind == Object then "{" else "[", 0);
    assert base + [Token(kind, s.pos, -1, 0)] == Around(base, Token(kind, s.pos, -1, 0), []);
    StepLeads(js, cap, s, State(s.pos + 1, |base|, Around(base, Token(kind, s.pos, -1, 0), [])));
  }

  // `toksuper` inside a container is the container or a key in it.
  predicate SuperAt(s: State, n: int) {
    s.super == n || (InRange(s) && s.super != -1 && s.toks[s.super].kind == String)
  }

  lemma CommaLeads(js: string, cap: nat, s: State, base: seq<Token>, t: Token, inner: seq<Token>)
    requires OpenAround(base, t, inner) && s.toks == Around(base, t, inner)
    requires InRange(s) && SuperAt(s, |base|) && R.At(js, s.pos, ",")
    ensures Leads(js, cap, s, State(s.pos + 1, |base|, s.toks))
  {
    R.AtIndex(js, s.pos, ",", 0);
    AroundIsOpen(base, t, inner);
    assert s.toks[|base|] == t;
    StepLeads(js, cap, s, State(s.pos + 1, |base|, s.toks));
  }

  lemma ColonLeads(js: string, cap: nat, s: State)
    requires InRange(s) && R.At(js, s.pos, ":")
    ensures Leads(js, cap, s, State(s.pos + 1, |s.toks| - 1, s.toks))
  {
    R.AtIndex(js, s.pos, ":", 0);
    StepLeads(js, cap, s, State(s.pos + 1, |s.toks| - 1, s.toks));
  }

  // The parser right after a value: leaves keep `toksuper`, containers move it to the
  // innermost container that is still open.
  function After(s: State, v: R.Value): State
    requires InRange(s)
  {
    State(s.pos + |R.Render(v)|,
          if v.Prim? || v.Str? then s.super else LastOpen(s.toks),
          Bump(s.toks, s.super) + Tokens(v, s.pos))
  }

  // The parser after the content of a container whose content starts at `pos`.
  function AfterContent(base: seq<Token>, t: Token, inner: seq<Token>, n: nat, more: seq<Token>, end: nat): (r: State)
    ensures InRange(r)
  {
    State(end, LastOpen(base), Around(base, t.(size := t.size + n, end := end), inner + more))
  }

  lemma AfterContentSplit(base: seq<Token>, t: Token, inner: seq<Token>,
                          a: seq<Token>, n: nat, b: seq<Token>, end: nat)
    ensures AfterContent(base, t.(size := t.size + 1), inner + a, n, b, end)
         == AfterContent(base, t, inner, n + 1, a + b, end)
  {
    assert inner + a + b == inner + (a + b);
  }

  // The closing bracket: closes the container around and returns to the one outside.
  lemma CloseLeads(js: string, cap: nat, s: State, base: seq<Token>, t: Token, inner: seq<Token>)
    requires OpenAround(base, t, inner) && s.toks == Around(base, t, inner) && InRange(s)
    requires (t.kind == Object && R.At(js, s.pos, "}")) || (t.kind == Array && R.At(js, s.pos, "]"))
    ensures Leads(js, cap, s, AfterContent(base, t, inner, 0, [], s.pos + 1))
  {
    R.AtIndex(js, s.pos, if t.kind == Object then "}" else "]", 0);
    AroundIsOpen(base, t, inner);
    assert s.toks[..|base|] == base;
    assert inner + [] == inner;
    assert s.toks[|base| := t.(end := s.pos + 1)] == Around(base, t.(end := s.pos + 1), inner);
    StepLeads(js, cap, s, AfterContent(base, t, inner, 0, [], s.pos + 1));
  }

  lemma {:induction false} ValueLeads(js: string, cap: nat, s: State, v: R.Value)
    requires InRange(s) && R.Valid(v) && R.At(js, s.pos, R.Render(v))
    requires |s.toks| + NodeCount(v) <= cap
    requires v.Prim? ==> EndsPrimitive(js, s.pos + |R.Render(v)|)
    ensures InRange(After(s, v)) && Leads(js, cap, s, After(s, v))
    decreases v
  {
    hide R.At, R.IsPrimitive, R.ValidBody, R.BodyText, Leads, Bump, LastOpen, LastOpenContainer, EndsPrimitive, R.RenderItems, R.RenderMembers;
    match v
    case Prim(lexeme) => LexemeLeads(js, cap, s, lexeme);
    case Str(body) => QuotedLeads(js, cap, s, body);
    case Arr(pad, items) => ArrayLeads(js, cap, s, pad, items);
    case Obj(pad, members) => ObjectLeads(js, cap, s, pad, members);
  }

  // The state after a container is the one after its content, seen from inside.
  lemma ArrAfter(s: State, pad: string, items: R.Items)
    requires InRange(s)
    ensures var v := R.Arr(pad, items);
      After(s, v) == AfterContent(Bump(s.toks, s.super), Token(Array, s.pos, -1, 0), [],
                                  R.ItemCount(items), ItemTokens(items, s.pos + 1), s.pos + |R.Render(v)|)
  {
    hide R.Render, ItemTokens, LastOpen, Bump, R.ItemCount;
    LastOpenBump(s.toks, s.super);
    var base, tok := Bump(s.toks, s.super), Tokens(R.Arr(pad, items), s.pos)[0];
    var more := ItemTokens(items, s.pos + 1);
    assert base + ([tok] + more) == base + [tok] + ([] + more);
  }

  lemma ObjAfter(s: State, pad: string, members: R.Members)
    requires InRange(s)
    ensures var v := R.Obj(pad, members);
      After(s, v) == AfterContent(Bump(s.toks, s.super), Token(Object, s.pos, -1, 0), [],
                                  R.MemberCount(members), MemberTokens(members, s.pos + 1), s.pos + |R.Render(v)|)
  {
    hide R.Render, MemberTokens, LastOpen, Bump, R.MemberCount;
    LastOpenBump(s.toks, s.super);
    var base, tok := Bump(s.toks, s.super), Tokens(R.Obj(pad, members), s.pos)[0];
    var more := MemberTokens(members, s.pos + 1);
    assert base + ([tok] + more) == base + [tok] + ([] + more);
  }

  lemma {:induction false} ArrayLeads(js: string, cap: nat, s: State, pad: string, items: R.Items)
    requires R.AllWs(pad) && R.ValidItems(items) && InRange(s)
    requires var v := R.Arr(pad, items);
      R.At(js, s.pos, R.Render(v)) && |s.toks| + NodeCount(v) <= cap
    ensures var v := R.Arr(pad, items);
      InRange(After(s, v)) && Leads(js, cap, s, After(s, v))
    decreases items, 1
  {
    hide Leads, R.At, OpenAround, R.Render, R.RenderItems, After, AfterContent, ItemTokens, LastOpen;
    var v := R.Arr(pad, items);
    R.ArrPieces(js, s.pos, pad, items);
    var base := Bump(s.toks, s.super);
    var t := Token(Array, s.pos, -1, 0);
    var s1 := State(s.pos + 1, |base|, Around(base, t, []));
    OpenLeads(js, cap, s, Array);
    FreshIsOpen(base, t);
    var s2 := After(s, v);
    ArrAfter(s, pad, items);
    if items.NoItems? {
      var s1' := s1.(pos := s1.pos + |pad|);
      Blanks(js, cap, s1, pad);
      CloseLeads(js, cap, s1', base, t, []);
      LeadsTrans(js, cap, s1, s1', s2);
    } else {
      ItemsLead(js, cap, s1.pos, base, t, [], items);
    }
    LeadsTrans(js, cap, s, s1, s2);
  }

  lemma {:induction false} ObjectLeads(js: string, cap: nat, s: State, pad: string, members: R.Members)
    requires R.AllWs(pad) && R.ValidMembers(members) && InRange(s)
    requires var v := R.Obj(pad, members);
      R.At(js, s.pos, R.Render(v)) && |s.toks| + NodeCount(v) <= cap
    ensures var v := R.Obj(pad, members);
      InRange(After(s, v)) && Leads(js, cap, s, After(s, v))
    decreases members, 2
  {
    hide Leads, R.At, OpenAround, R.Render, R.RenderMembers, After, AfterContent, MemberTokens, LastOpen;
    var v := R.Obj(pad, members);
    R.ObjPieces(js, s.pos, pad, members);
    var base := Bump(s.toks, s.super);
    var t := Token(Object, s.pos, -1, 0);
    var s1 := State(s.pos + 1, |base|, Around(base, t, []));
    OpenLeads(js, cap, s, Object);
    FreshIsOpen(base, t);
    var s2 := After(s, v);
    ObjAfter(s, pad, members);
    if members.NoMembers? {
      var s1' := s1.(pos := s1.pos + |pad|);
      Blanks(js, cap, s1, pad);
      CloseLeads(js, cap, s1', base, t, []);
      LeadsTrans(js, cap, s1, s1', s2);
    } else {
      MembersLead(js, cap, s1.pos, base, t, [], members);
    }
    LeadsTrans(js, cap, s, s1, s2);
  }

  lemma {:induction false} ItemsLead(js: string, cap: nat, pos: nat, base: seq<Token>, t: Token,
                                     inner: seq<Token>, items: R.Items)
    requires items.Item? && R.ValidItems(items) && OpenAround(base, t, inner) && t.kind == Array
    requires R.At(js, pos, R.RenderItems(items)) && R.At(js, pos + |R.RenderItems(items)|, "]")
    requires |Around(base, t, inner)| + ItemNodes(items) <= cap
    ensures Leads(js, cap, State(pos, |base|, Around(base, t, inner)),
      AfterContent(base, t, inner, R.ItemCount(items), ItemTokens(items, pos), pos + |R.RenderItems(items)| + 1))
    decreases items, 0
  {
    hide Leads, R.At, R.RenderItems, OpenAround, Around, LastOpen, LastOpenContainer, Bump, R.AllWs, R.Render;
    var val, post, rest := items.val, items.post, items.rest;
    var end := pos + |R.RenderItems(items)| + 1;
    R.ItemPieces(js, pos, items);
    var at := pos + |items.pre|;
    var s0 := State(pos, |base|, Around(base, t, inner));
    var s1 := s0.(pos := at);
    Blanks(js, cap, s0, items.pre);
    var p1 := at + |R.Render(val)|;
    R.FollowsValue(js, p1, post, if rest.NoItems? then "]" else ",");
    ValueLeads(js, cap, s1, val);
    var t1, inner1 := t.(size := t.size + 1), inner + Tokens(val, at);
    var s2 := State(p1, |base|, Around(base, t1, inner1));
    ItemAfter(s1, base, t, inner, val);
    LeadsTrans(js, cap, s0, s1, s2);
    var s3 := s2.(pos := p1 + |post|);
    Blanks(js, cap, s2, post);
    LeadsTrans(js, cap, s0, s2, s3);
    AfterContentSplit(base, t, inner, Tokens(val, at), R.ItemCount(rest), ItemTokens(rest, s3.pos + 1), end);
    var goal := AfterContent(base, t1, inner1, R.ItemCount(rest), ItemTokens(rest, s3.pos + 1), end);
    if rest.NoItems? {
      CloseLeads(js, cap, s3, base, t1, inner1);
    } else {
      var s4 := s3.(pos := s3.pos + 1);
      CommaLeads(js, cap, s3, base, t1, inner1);
      ItemsLead(js, cap, s4.pos, base, t1, inner1, rest);
      LeadsTrans(js, cap, s3, s4, goal);
    }
    LeadsTrans(js, cap, s0, s3, goal);
  }

  lemma ItemAfter(s: State, base: seq<Token>, t: Token, inner: seq<Token>, val: R.Value)
    requires OpenAround(base, t, inner) && s.super == |base| && s.toks == Around(base, t, inner)
    ensures After(s, val) == State(s.pos + |R.Render(val)|, |base|,
                                   Around(base, t.(size := t.size + 1), inner + Tokens(val, s.pos)))
    ensures OpenAround(base, t.(size := t.size + 1), inner + Tokens(val, s.pos))
  {
    hide R.Render, Tokens, NodeCount;
    AroundIsOpen(base, t, inner);
    AroundBump(base, t, inner);
    TokensAreClosed(val, s.pos);
  }

  lemma {:induction false} MembersLead(js: string, cap: nat, pos: nat, base: seq<Token>, t: Token,
                                       inner: seq<Token>, members: R.Members)
    requires members.Member? && R.ValidMembers(members) && OpenAround(base, t, inner) && t.kind == Object
    requires R.At(js, pos, R.RenderMembers(members)) && R.At(js, pos + |R.RenderMembers(members)|, "}")
    requires |Around(base, t, inner)| + MemberNodes(members) <= cap
    ensures Leads(js, cap, State(pos, |base|, Around(base, t, inner)),
      AfterContent(base, t, inner, R.MemberCount(members), MemberTokens(members, pos),
                   pos + |R.RenderMembers(members)| + 1))
    decreases members, 1
  {
    hide Leads, AfterContent, Around, OpenAround, MemberTokens, Tokens, R.At, R.Quoted, R.RenderMembers, R.BodyText;
    R.MemberPieces(js, pos, members);
    var s0 := State(pos, |base|, Around(base, t, inner));
    var kt := Token(String, pos + |members.pre| + 1, pos + |members.pre| + 1 + |R.BodyText(members.key)|, 0);
    var t1 := t.(size := t.size + 1);
    var at := pos + |members.pre| + |R.Quoted(members.key)| + |members.beforeColon| + 1 + |members.afterColon|;
    var s1 := State(at, |base| + 1 + |inner|, Around(base, t1, inner + [kt]));
    KeyLeads(js, cap, pos, base, t, inner, members);
    GrowKeepsOpen(base, t, inner);
    MemberValueLeads(js, cap, pos, at, base, t1, inner, kt, members);
    var goal := MemberContent(base, t, inner, kt, members, pos, at);
    LeadsTrans(js, cap, s0, s1, goal);
  }

  // The tokens of a member, split between the member itself and the members after it.
  lemma MemberContent(base: seq<Token>, t: Token, inner: seq<Token>, kt: Token, members: R.Members, pos: nat, at: nat)
    returns (goal: State)
    requires members.Member?
    requires var k := pos + |members.pre|;
      && kt == Token(String, k + 1, k + 1 + |R.BodyText(members.key)|, 0)
      && at == k + |R.Quoted(members.key)| + |members.beforeColon| + 1 + |members.afterColon|
    ensures InRange(goal)
    ensures goal == AfterContent(base, t, inner, R.MemberCount(members), MemberTokens(members, pos),
                                 pos + |R.RenderMembers(members)| + 1)
    ensures goal == AfterContent(base, t.(size := t.size + 1),
                                 inner + ([kt.(size := 1)] + Tokens(members.val, at)),
                                 R.MemberCount(members.rest),
                                 MemberTokens(members.rest, at + |R.Render(members.val)| + |members.post| + 1),
                                 pos + |R.RenderMembers(members)| + 1)
  {
    hide Around, R.RenderMembers, R.Quoted, R.Render;
    var next := at + |R.Render(members.val)| + |members.post| + 1;
    var end := pos + |R.RenderMembers(members)| + 1;
    var own, more := [kt.(size := 1)] + Tokens(members.val, at), MemberTokens(members.rest, next);
    AfterContentSplit(base, t, inner, own, R.MemberCount(members.rest), more, end);
    goal := AfterContent(base, t, inner, R.MemberCount(members), MemberTokens(members, pos), end);
  }

  // The member up to its value, which leaves `toksuper` at the key.
  lemma KeyLeads(js: string, cap: nat, pos: nat, base: seq<Token>, t: Token,
                 inner: seq<Token>, members: R.Members)
    requires members.Member? && R.ValidMembers(members) && OpenAround(base, t, inner)
    requires R.At(js, pos, R.RenderMembers(members)) && |Around(base, t, inner)| < cap
    ensures
      var k := pos + |members.pre|;
      var kt := Token(String, k + 1, k + 1 + |R.BodyText(members.key)|, 0);
      var at := k + |R.Quoted(members.key)| + |members.beforeColon| + 1 + |members.afterColon|;
      Leads(js, cap, State(pos, |base|, Around(base, t, inner)),
            State(at, |base| + 1 + |inner|, Around(base, t.(size := t.size + 1), inner + [kt])))
  {
    hide Leads, Around, OpenAround, Bump, R.At, R.Quoted, R.RenderMembers, R.BodyText, R.AllWs, R.ValidBody, R.Valid;
    R.MemberPieces(js, pos, members);
    var s0 := State(pos, |base|, Around(base, t, inner));
    var k := pos + |members.pre|;
    var s1 := s0.(pos := k);
    Blanks(js, cap, s0, members.pre);
    var kt := Token(String, k + 1, k + 1 + |R.BodyText(members.key)|, 0);
    QuotedLeads(js, cap, s1, members.key);
    AroundBump(base, t, inner);
    var t1 := t.(size := t.size + 1);
    AroundPush(base, t1, inner, kt);
    var s2 := State(k + |R.Quoted(members.key)|, |base|, Around(base, t1, inner + [kt]));
    LeadsTrans(js, cap, s0, s1, s2);
    var s3 := s2.(pos := s2.pos + |members.beforeColon|);
    Blanks(js, cap, s2, members.beforeColon);
    LeadsTrans(js, cap, s0, s2, s3);
    var s4 := State(s3.pos + 1, |s3.toks| - 1, s3.toks);
    ColonLeads(js, cap, s3);
    LeadsTrans(js, cap, s0, s3, s4);
    Blanks(js, cap, s4, members.afterColon);
    LeadsTrans(js, cap, s0, s4, s4.(pos := s4.pos + |members.afterColon|));
  }

  lemma {:induction false} MemberValueLeads(js: string, cap: nat, pos: nat, at: nat, base: seq<Token>, t: Token,
                                            inner: seq<Token>, kt: Token, members: R.Members)
    requires members.Member? && R.ValidMembers(members) && OpenAround(base, t, inner) && t.kind == Object
    requires R.At(js, pos, R.RenderMembers(members)) && R.At(js, pos + |R.RenderMembers(members)|, "}")
    requires at == pos + |members.pre| + |R.Quoted(members.key)| + |members.beforeColon| + 1 + |members.afterColon|
    requires kt.kind == String && !IsOpen(kt) && kt.size == 0
    requires |Around(base, t, inner)| + MemberNodes(members) <= cap
    ensures
      var next := at + |R.Render(members.val)| + |members.post| + 1;
      Leads(js, cap, State(at, |base| + 1 + |inner|, Around(base, t, inner + [kt])),
        AfterContent(base, t, inner + ([kt.(size := 1)] + Tokens(members.val, at)),
                     R.MemberCount(members.rest), MemberTokens(members.rest, next),
                     pos + |R.RenderMembers(members)| + 1))
    decreases members, 0
  {
    hide Leads, Around, OpenAround, Tokens, Bump, R.At, R.Quoted, R.RenderMembers, R.AllWs, R.Valid, R.Render;
    hide LastOpen, LastOpenContainer, R.ValidBody, R.BodyText;
    var val, post, rest := members.val, members.post, members.rest;
    R.MemberPieces(js, pos, members);
    var s0 := State(at, |base| + 1 + |inner|, Around(base, t, inner + [kt]));
    var p1 := at + |R.Render(val)|;
    R.FollowsValue(js, p1, post, if rest.NoMembers? then "}" else ",");
    ValueLeads(js, cap, s0, val);
    MemberAfter(s0, base, t, inner, kt, val);
    var inner1 := inner + ([kt.(size := 1)] + Tokens(val, at));
    var s1 := After(s0, val);
    var s2 := s1.(pos := p1 + |post|);
    Blanks(js, cap, s1, post);
    LeadsTrans(js, cap, s0, s1, s2);
    var end := pos + |R.RenderMembers(members)| + 1;
    var goal := AfterContent(base, t, inner1, R.MemberCount(rest), MemberTokens(rest, s2.pos + 1), end);
    if rest.NoMembers? {
      CloseLeads(js, cap, s2, base, t, inner1);
    } else {
      var s3 := State(s2.pos + 1, |base|, s2.toks);
      CommaLeads(js, cap, s2, base, t, inner1);
      MembersLead(js, cap, s3.pos, base, t, inner1, rest);
      LeadsTrans(js, cap, s2, s3, goal);
    }
    LeadsTrans(js, cap, s0, s2, goal);
  }

  lemma MemberAfter(s: State, base: seq<Token>, t: Token, inner: seq<Token>, kt: Token, val: R.Value)
    requires OpenAround(base, t, inner) && kt.kind == String && !IsOpen(kt) && kt.size == 0
    requires s.super == |base| + 1 + |inner| && s.toks == Around(base, t, inner + [kt])
    ensures
      var inner1 := inner + ([kt.(size := 1)] + Tokens(val, s.pos));
      && OpenAround(base, t, inner1)
      && After(s, val).toks == Around(base, t, inner1)
      && SuperAt(After(s, val), |base|)
  {
    hide R.Render, Tokens, NodeCount, LastOpenContainer;
    AroundIsOpen(base, t, inner + [kt]);
    TokensAreClosed(val, s.pos);
    assert Bump(s.toks, s.super) == Around(base, t, inner + [kt.(size := 1)]);
    var inner1 := inner + ([kt.(size := 1)] + Tokens(val, s.pos));
    assert Around(base, t, inner + [kt.(size := 1)]) + Tokens(val, s.pos) == Around(base, t, inner1);
    assert Around(base, t, inner1)[s.super] == kt.(size := 1);
  }

  /** Every JSON text, with any nesting and any insignificant whitespace, is accepted, and the
      token array is the pre-order list of its nodes. */
  lemma JsonIsTokenized(before: string, v: R.Value, after: string, cap: nat)
    requires R.AllWs(before) && R.Valid(v) && R.AllWs(after)
    requires NodeCount(v) <= cap
    ensures var js := before + R.Render(v) + after;
      Run(js, cap, INITIAL)
      == Outcome(NodeCount(v), State(|js|, -1, Tokens(v, |before|)))
  {
    hide Leads, R.At, R.Render, R.Valid, Tokens, NodeCount, LastOpen, NoneOpen;
    var js := before + R.Render(v) + after;
    var s0, s1 := INITIAL, State(|before|, -1, []);
    R.AtThree(before, R.Render(v), after);
    Blanks(js, cap, s0, before);
    if after != "" { assert R.IsWs(after[0]); R.AtIndex(js, |before| + |R.Render(v)|, after, 0); }
    ValueLeads(js, cap, s1, v);
    LeadsTrans(js, cap, s0, s1, After(s1, v));
    assert After(s1, v).toks == Tokens(v, |before|);
    var s2 := State(|js|, -1, Tokens(v, |before|));
    Blanks(js, cap, After(s1, v), after);
    LeadsTrans(js, cap, s0, After(s1, v), s2);
    TokensAreClosed(v, |before|);
    LastOpenAppend([], Tokens(v, |before|));
    assert [] + Tokens(v, |before|) == Tokens(v, |before|);
    assert Ends(js, cap, s2, Outcome(NodeCount(v), s2));
    assert Ends(js, cap, s0, Outcome(NodeCount(v), s2));
  }
}
