/**
 What a JSON parser (yajl, in the source) makes of a text: the concrete syntax tree of which
 the text is the rendering.  Proved: reading undoes rendering, for every valid tree.
 */
module JsonReader {
  import opened R = Rfc8259
  import opened Wrappers

  // The end of the whitespace that starts at `p`.
  function BlankEnd(js: string, p: nat): (r: nat)
    requires p <= |js|
    ensures p <= r <= |js| && AllWs(js[p..r])
    decreases |js| - p
  {
    if p < |js| && IsWs(js[p]) then
      var r := BlankEnd(js, p + 1);
      assert js[p..r] == [js[p]] + js[p + 1..r];
      r
    else p
  }

  // The end of the run of characters a literal or number may hold.
  function LexemeEnd(js: string, p: nat): (r: nat)
    requires p <= |js|
    ensures p <= r <= |js|
    decreases |js| - p
  {
    if p < |js| && IsPrimChar(js[p]) then LexemeEnd(js, p + 1) else p
  }

  // The body of a string and the position of its closing quote.
  function ReadBody(js: string, p: nat): (r: Option<(StrBody, nat)>)
    requires p <= |js|
    ensures r.Some? ==> p <= r.value.1 < |js| && js[r.value.1] == '"'
    decreases |js| - p
  {
    if p >= |js| then None
    else if js[p] == '"' then Some(([], p))
    else if js[p] == '\\' then
      if p + 1 < |js| && IsEscapable(js[p + 1]) then Prepend(Escape(js[p + 1]), ReadBody(js, p + 2))
      else if p + 5 < |js| && js[p + 1] == 'u' && ValidPart(Unicode(js[p + 2..p + 6])) then
        Prepend(Unicode(js[p + 2..p + 6]), ReadBody(js, p + 6))
      else None
    else if js[p] as int < 0x20 then None
    else Prepend(Plain(js[p]), ReadBody(js, p + 1))
  }

  function Prepend(part: StrPart, r: Option<(StrBody, nat)>): Option<(StrBody, nat)> {
    if r.None? then None else Some(([part] + r.value.0, r.value.1))
  }

  // A value at `p` and the position after it.
  ghost function ReadValue(js: string, p: nat): (r: Option<(Value, nat)>)
    requires p <= |js|
    ensures r.Some? ==> p < r.value.1 <= |js|
    decreases |js| - p, 0
  {
    if p >= |js| then None
    else if js[p] == '"' then
      var b := ReadBody(js, p + 1);
      if b.None? then None else Some((Str(b.value.0), b.value.1 + 1))
    else if js[p] == '[' then
      var q := BlankEnd(js, p + 1);
      if q < |js| && js[q] == ']' then Some((Arr(js[p + 1..q], NoItems), q + 1))
      else
        var r := ReadItems(js, p + 1);
        if r.Some? && r.value.1 < |js| && js[r.value.1] == ']' then Some((Arr("", r.value.0), r.value.1 + 1))
        else None
    else if js[p] == '{' then
      var q := BlankEnd(js, p + 1);
      if q < |js| && js[q] == '}' then Some((Obj(js[p + 1..q], NoMembers), q + 1))
      else
        var r := ReadMembers(js, p + 1);
        if r.Some? && r.value.1 < |js| && js[r.value.1] == '}' then Some((Obj("", r.value.0), r.value.1 + 1))
        else None
    else
      var q := LexemeEnd(js, p);
      if q > p && IsPrimitive(js[p..q]) then Some((Prim(js[p..q]), q)) else None
  }

  // One or more items, up to whatever is not a comma.
  ghost function ReadItems(js: string, p: nat): (r: Option<(Items, nat)>)
    requires p <= |js|
    ensures r.Some? ==> p <= r.value.1 <= |js|
    decreases |js| - p, 1
  {
    var at := BlankEnd(js, p);
    var v := ReadValue(js, at);
    if v.None? then None
    else
      var q := BlankEnd(js, v.value.1);
      var pre, post := js[p..at], js[v.value.1..q];
      if q < |js| && js[q] == ',' then
        var rest := ReadItems(js, q + 1);
        if rest.None? then None
        else Some((Item(pre, v.value.0, post, rest.value.0), rest.value.1))
      else Some((Item(pre, v.value.0, post, NoItems), q))
  }

  // A member up to its value, which starts at `at`.
  datatype KeyPart = KeyPart(pre: string, key: StrBody, beforeColon: string, afterColon: string, at: nat)

  function ReadKey(js: string, p: nat): (r: Option<KeyPart>)
    requires p <= |js|
    ensures r.Some? ==> p < r.value.at <= |js|
  {
    var k := BlankEnd(js, p);
    if k >= |js| || js[k] != '"' then None
    else
      var key := ReadBody(js, k + 1);
      if key.None? then None
      else
        var p1 := key.value.1 + 1;
        var colon := BlankEnd(js, p1);
        if colon >= |js| || js[colon] != ':' then None
        else
          var at := BlankEnd(js, colon + 1);
          Some(KeyPart(js[p..k], key.value.0, js[p1..colon], js[colon + 1..at], at))
  }

  ghost function ReadMembers(js: string, p: nat): (r: Option<(Members, nat)>)
    requires p <= |js|
    ensures r.Some? ==> p <= r.value.1 <= |js|
    decreases |js| - p, 1
  {
    var key := ReadKey(js, p);
    if key.None? then None
    else
      var KeyPart(pre, body, beforeColon, afterColon, at) := key.value;
      var v := ReadValue(js, at);
      if v.None? then None
      else
        var q := BlankEnd(js, v.value.1);
        var post := js[v.value.1..q];
        if q < |js| && js[q] == ',' then
          var rest := ReadMembers(js, q + 1);
          if rest.None? then None
          else Some((Member(pre, body, beforeColon, afterColon, v.value.0, post, rest.value.0), rest.value.1))
        else Some((Member(pre, body, beforeColon, afterColon, v.value.0, post, NoMembers), q))
  }

  // A whole text: one value with whitespace around it.
  ghost function Read(js: string): Option<Value> {
    var v := ReadValue(js, BlankEnd(js, 0));
    if v.Some? && BlankEnd(js, v.value.1) == |js| then Some(v.value.0) else None
  }

  // ---------- reading undoes rendering ----------

  lemma {:induction false} AtSlice(js: string, p: nat, text: string)
    requires At(js, p, text)
    ensures p + |text| <= |js| && js[p..p + |text|] == text
    decreases |text|
  {
    AtBound(js, p, text);
    if text != "" {
      AtSlice(js, p + 1, text[1..]);
      assert js[p..p + |text|] == [js[p]] + js[p + 1..p + 1 + |text[1..]|];
    }
  }

  predicate NotBlank(js: string, p: nat) {
    p >= |js| || !IsWs(js[p])
  }

  lemma {:induction false} ReadsBlanks(js: string, p: nat, ws: string)
    requires At(js, p, ws) && AllWs(ws) && NotBlank(js, p + |ws|)
    ensures p + |ws| <= |js| && BlankEnd(js, p) == p + |ws| && js[p..p + |ws|] == ws
    decreases |ws|
  {
    AtSlice(js, p, ws);
    if ws != "" {
      assert IsWs(ws[0]);
      ReadsBlanks(js, p + 1, ws[1..]);
    }
  }

  lemma {:induction false} ReadsLexeme(js: string, p: nat, lexeme: string)
    requires At(js, p, lexeme) && AllPrimChars(lexeme) && Follows(js, p + |lexeme|)
    ensures p + |lexeme| <= |js| && LexemeEnd(js, p) == p + |lexeme|
    decreases |lexeme|
  {
    AtBound(js, p, lexeme);
    if lexeme != "" {
      assert IsPrimChar(lexeme[0]);
      ReadsLexeme(js, p + 1, lexeme[1..]);
    }
  }

  lemma ReadsPart(js: string, p: nat, part: StrPart)
    requires ValidPart(part) && At(js, p, PartText(part)) && p + |PartText(part)| < |js|
    ensures ReadBody(js, p) == Prepend(part, ReadBody(js, p + |PartText(part)|))
  {
    AtIndex(js, p, PartText(part), 0);
    if !part.Plain? {
      AtIndex(js, p, PartText(part), 1);
      if part.Unicode? {
        AtConcat(js, p, "\\u", part.hex);
        AtSlice(js, p + 2, part.hex);
      }
    }
  }

  lemma {:induction false} ReadsBody(js: string, p: nat, body: StrBody)
    requires ValidBody(body) && At(js, p, BodyText(body)) && At(js, p + |BodyText(body)|, "\"")
    ensures p <= |js| && ReadBody(js, p) == Some((body, p + |BodyText(body)|))
    decreases |body|
  {
    hide At, PartText, ValidPart;
    AtBound(js, p, BodyText(body));
    AtIndex(js, p + |BodyText(body)|, "\"", 0);
    if body != [] {
      AtConcat(js, p, PartText(body[0]), BodyText(body[1..]));
      ReadsBody(js, p + |PartText(body[0])|, body[1..]);
      ReadsPart(js, p, body[0]);
      assert [body[0]] + body[1..] == body;
    }
  }

  lemma QuotedPieces(js: string, p: nat, body: StrBody)
    requires At(js, p, Quoted(body))
    ensures At(js, p, "\"") && At(js, p + 1, BodyText(body)) && At(js, p + 1 + |BodyText(body)|, "\"")
    ensures p < |js| && js[p] == '"' && p + |Quoted(body)| <= |js| && |Quoted(body)| == |BodyText(body)| + 2
  {
    AtBound(js, p, Quoted(body));
    AtConcat(js, p, "\"" + BodyText(body), "\"");
    AtConcat(js, p, "\"", BodyText(body));
    AtIndex(js, p, "\"", 0);
  }

  // The first character of a rendered value is not whitespace and tells its kind.
  lemma FirstChar(js: string, p: nat, v: Value)
    requires Valid(v) && At(js, p, Render(v))
    ensures p + |Render(v)| <= |js| && |Render(v)| > 0 && NotBlank(js, p)
    ensures js[p] != ']' && js[p] != '}'
    ensures v.Prim? ==> js[p] != '"' && js[p] != '[' && js[p] != '{'
  {
    AtBound(js, p, Render(v));
    if v.Prim? { PrimitiveChars(v.lexeme); }
    AtIndex(js, p, Render(v), 0);
    if v.Prim? { assert IsPrimChar(v.lexeme[0]); }
  }

  lemma ReadsPrimitive(js: string, p: nat, lexeme: string)
    requires IsPrimitive(lexeme) && At(js, p, lexeme) && Follows(js, p + |lexeme|)
    ensures p <= |js| && ReadValue(js, p) == Some((Prim(lexeme), p + |lexeme|))
  {
    hide At, AllPrimChars, LexemeEnd;
    FirstChar(js, p, Prim(lexeme));
    PrimitiveChars(lexeme);
    ReadsLexeme(js, p, lexeme);
    AtSlice(js, p, lexeme);
  }

  lemma ReadsString(js: string, p: nat, body: StrBody)
    requires ValidBody(body) && At(js, p, Quoted(body))
    ensures p <= |js| && ReadValue(js, p) == Some((Str(body), p + |Quoted(body)|))
  {
    hide At, BodyText, ValidBody, ReadBody, Quoted;
    QuotedPieces(js, p, body);
    ReadsBody(js, p + 1, body);
  }

  lemma {:induction false} ReadsValue(js: string, p: nat, v: Value)
    requires Valid(v) && At(js, p, Render(v))
    requires v.Prim? ==> Follows(js, p + |Render(v)|)
    ensures p <= |js| && ReadValue(js, p) == Some((v, p + |Render(v)|))
    decreases v
  {
    hide At, IsPrimitive, AllPrimChars, ValidBody, BodyText, RenderItems, RenderMembers;
    FirstChar(js, p, v);
    match v
    case Prim(lexeme) => ReadsPrimitive(js, p, lexeme);
    case Str(body) => ReadsString(js, p, body);
    case Arr(pad, items) => ReadsArray(js, p, pad, items);
    case Obj(pad, members) => ReadsObject(js, p, pad, members);
  }

  lemma {:induction false} ReadsArray(js: string, p: nat, pad: string, items: Items)
    requires Valid(Arr(pad, items)) && At(js, p, Render(Arr(pad, items)))
    ensures p <= |js| && ReadValue(js, p) == Some((Arr(pad, items), p + |Render(Arr(pad, items))|))
    decreases items, 1
  {
    hide At, Render, RenderItems, ReadItems;
    ArrPieces(js, p, pad, items);
    AtIndex(js, p, "[", 0);
    AtIndex(js, p + |Render(Arr(pad, items))| - 1, "]", 0);
    if items.NoItems? {
      ReadsBlanks(js, p + 1, pad);
    } else {
      ItemsStart(js, p + 1, items);
      ReadsItems(js, p + 1, items, "]");
    }
  }

  lemma {:induction false} ReadsObject(js: string, p: nat, pad: string, members: Members)
    requires Valid(Obj(pad, members)) && At(js, p, Render(Obj(pad, members)))
    ensures p <= |js| && ReadValue(js, p) == Some((Obj(pad, members), p + |Render(Obj(pad, members))|))
    decreases members, 1
  {
    hide At, Render, RenderMembers, ReadMembers;
    ObjPieces(js, p, pad, members);
    AtIndex(js, p, "{", 0);
    AtIndex(js, p + |Render(Obj(pad, members))| - 1, "}", 0);
    if members.NoMembers? {
      ReadsBlanks(js, p + 1, pad);
    } else {
      MembersStart(js, p + 1, members);
      ReadsMembers(js, p + 1, members);
    }
  }

  // The blanks before the first item end at the value, not at a bracket.
  lemma ItemsStart(js: string, p: nat, items: Items)
    requires items.Item? && ValidItems(items) && At(js, p, RenderItems(items))
    ensures var at := p + |items.pre|;
      && At(js, at, Render(items.val)) && NotBlank(js, at)
      && at < |js| && js[at] != ']' && BlankEnd(js, p) == at && js[p..at] == items.pre
  {
    hide At, Render;
    ItemPieces(js, p, items);
    FirstChar(js, p + |items.pre|, items.val);
    ReadsBlanks(js, p, items.pre);
  }

  lemma MembersStart(js: string, p: nat, members: Members)
    requires members.Member? && ValidMembers(members) && At(js, p, RenderMembers(members))
    ensures var k := p + |members.pre|;
      k < |js| && js[k] == '"' && BlankEnd(js, p) == k && js[p..k] == members.pre
  {
    hide At, Render, Quoted, RenderMembers, AllWs, BlankEnd, Valid, ValidBody;
    MemberPieces(js, p, members);
    QuotedPieces(js, p + |members.pre|, members.key);
    ReadsBlanks(js, p, members.pre);
  }

  lemma {:induction false} ReadsItems(js: string, p: nat, items: Items, close: string)
    requires items.Item? && ValidItems(items) && At(js, p, RenderItems(items))
    requires close == "]" && At(js, p + |RenderItems(items)|, close)
    ensures p <= |js| && ReadItems(js, p) == Some((items, p + |RenderItems(items)|))
    decreases items, 0
  {
    hide At, Render, RenderItems, ReadValue, BlankEnd, AllWs, Valid, Follows;
    ItemPieces(js, p, items);
    ItemsStart(js, p, items);
    var at := p + |items.pre|;
    var p1 := at + |Render(items.val)|;
    var p2 := p1 + |items.post|;
    var next := if items.rest.NoItems? then "]" else ",";
    FollowsValue(js, p1, items.post, next);
    AtIndex(js, p2, next, 0);
    ReadsValue(js, at, items.val);
    ReadsBlanks(js, p1, items.post);
    if items.rest.Item? { ReadsItems(js, p2 + 1, items.rest, close); }
  }

  lemma ReadsKey(js: string, p: nat, members: Members)
    requires members.Member? && ValidMembers(members) && At(js, p, RenderMembers(members))
    ensures var at := p + |members.pre| + |Quoted(members.key)| + |members.beforeColon| + 1 + |members.afterColon|;
      && p < at <= |js| && At(js, at, Render(members.val))
      && ReadKey(js, p)
         == Some(KeyPart(members.pre, members.key, members.beforeColon, members.afterColon, at))
  {
    hide At, Render, RenderMembers, ReadValue, Quoted, ReadBody, AllWs, ValidBody, BodyText, BlankEnd, Valid;
    MemberPieces(js, p, members);
    MembersStart(js, p, members);
    var k := p + |members.pre|;
    QuotedPieces(js, k, members.key);
    ReadsBody(js, k + 1, members.key);
    var p1 := k + |Quoted(members.key)|;
    var p2 := p1 + |members.beforeColon|;
    AtIndex(js, p2, ":", 0);
    ReadsBlanks(js, p1, members.beforeColon);
    FirstChar(js, p2 + 1 + |members.afterColon|, members.val);
    ReadsBlanks(js, p2 + 1, members.afterColon);
  }

  lemma {:induction false} ReadsMembers(js: string, p: nat, members: Members)
    requires members.Member? && ValidMembers(members) && At(js, p, RenderMembers(members))
    requires At(js, p + |RenderMembers(members)|, "}")
    ensures p <= |js| && ReadMembers(js, p) == Some((members, p + |RenderMembers(members)|))
    decreases members, 0
  {
    hide At, Render, RenderMembers, ReadValue, ReadKey, Quoted, AllWs, ValidBody, BlankEnd, Valid, Follows;
    MemberPieces(js, p, members);
    ReadsKey(js, p, members);
    var at := p + |members.pre| + |Quoted(members.key)| + |members.beforeColon| + 1 + |members.afterColon|;
    var p1 := at + |Render(members.val)|;
    var p2 := p1 + |members.post|;
    var next := if members.rest.NoMembers? then "}" else ",";
    FollowsValue(js, p1, members.post, next);
    AtIndex(js, p2, next, 0);
    ReadsValue(js, at, members.val);
    ReadsBlanks(js, p1, members.post);
    if members.rest.Member? { ReadsMembers(js, p2 + 1, members.rest); }
  }

  /** Every rendering reads back as the tree it came from, so a text has at most one tree. */
  lemma ReadRender(before: string, v: Value, after: string)
    requires AllWs(before) && Valid(v) && AllWs(after)
    ensures Read(before + Render(v) + after) == Some(v)
  {
    hide At, Render, ReadValue, BlankEnd, Valid;
    var js := before + Render(v) + after;
    AtThree(before, Render(v), after);
    var p := |before| + |Render(v)|;
    FirstChar(js, |before|, v);
    ReadsBlanks(js, 0, before);
    if after != "" { assert IsWs(after[0]); AtIndex(js, p, after, 0); }
    ReadsValue(js, |before|, v);
    ReadsBlanks(js, p, after);
  }
}
