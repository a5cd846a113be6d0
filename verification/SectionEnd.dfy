/**
 `FIND_JSON_SECTION_END`: from an opening brace, one past the brace that matches it.

 The text is a C string; its NUL is the position `|js|` (or an earlier NUL character).
 */
module SectionEnd {
  import opened R = Rfc8259
  import opened Texts

  // The backslash at `p` is followed by a character the scanner jumps over.
  predicate Jumps(js: string, p: nat) {
    p + 1 < |js| && js[p] == '\\' && (js[p + 1] == '\\' || js[p + 1] == '"')
  }

  datatype End = NotFound | End(at: nat)

  // The rest of a scan at `p`, `depth` braces deep, inside a string if `suspended`.
  function Scan(js: string, p: nat, depth: nat, suspended: bool): (r: End)
    requires p <= |js|
    ensures r.End? ==> p <= r.at <= |js|
    decreases |js| - p
  {
    if depth == 0 then End(p)
    else if AtEnd(js, p) then NotFound
    else if Jumps(js, p) then Scan(js, p + 2, depth, suspended)
    else if js[p] == '"' then Scan(js, p + 1, depth, !suspended)
    else if js[p] == '{' && !suspended then Scan(js, p + 1, depth + 1, suspended)
    else if js[p] == '}' && !suspended then Scan(js, p + 1, depth - 1, suspended)
    else Scan(js, p + 1, depth, suspended)
  }

  /** The macro's loop. */
  method FindSectionEnd(js: string, start: nat) returns (r: End)
    requires start < |js|
    ensures r == Scan(js, start + 1, 1, false)
  {
    var suspended := false;
    var depth := 1;
    var ptr := start + 1;
    while depth > 0
      invariant ptr <= |js| && depth >= 0
      invariant Scan(js, ptr, depth, suspended) == Scan(js, start + 1, 1, false)
      decreases |js| - ptr, depth
    {
      if AtEnd(js, ptr) {
        return NotFound;
      }
      var c := js[ptr];
      ptr := ptr + 1;
      if c == '\\' {
        if ptr < |js| && (js[ptr] == '\\' || js[ptr] == '"') {
          ptr := ptr + 1;
          continue;
        }
      }
      if c == '"' {
        suspended := !suspended;
      } else if c == '{' && !suspended {
        depth := depth + 1;
      } else if c == '}' && !suspended {
        depth := depth - 1;
      }
    }
    return End(ptr);
  }

  // ---------- text without braces ----------

  predicate Inert(c: char) {
    c != '\0' && c != '"' && c != '\\' && c != '{' && c != '}'
  }

  predicate AllInert(s: string) {
    forall i :: 0 <= i < |s| ==> Inert(s[i])
  }

  lemma {:induction false} SkipInert(js: string, p: nat, text: string, depth: nat, suspended: bool)
    requires At(js, p, text) && AllInert(text) && depth > 0
    ensures p + |text| <= |js| && Scan(js, p, depth, suspended) == Scan(js, p + |text|, depth, suspended)
    decreases |text|
  {
    if text != "" {
      assert Inert(text[0]);
      SkipInert(js, p + 1, text[1..], depth, suspended);
    }
  }

  lemma SkipWs(js: string, p: nat, ws: string, depth: nat)
    requires At(js, p, ws) && AllWs(ws) && depth > 0
    ensures p + |ws| <= |js| && Scan(js, p, depth, false) == Scan(js, p + |ws|, depth, false)
  {
    assert forall i :: 0 <= i < |ws| ==> IsWs(ws[i]) ==> Inert(ws[i]);
    SkipInert(js, p, ws, depth, false);
  }

  // Every escape keeps the scanner inside the string: the two it must not misread are jumped over.
  lemma SkipPart(js: string, p: nat, part: StrPart, depth: nat)
    requires ValidPart(part) && At(js, p, PartText(part)) && depth > 0
    ensures var q := p + |PartText(part)|;
      q <= |js| && Scan(js, p, depth, true) == Scan(js, q, depth, true)
  {
    var text := PartText(part);
    AtBound(js, p, text);
    AtIndex(js, p, text, 0);
    if !part.Plain? {
      AtIndex(js, p, text, 1);
      if part.Unicode? {
        AtConcat(js, p, "\\u", part.hex);
        AtIndex(js, p, "\\u", 1);
        assert forall i :: 0 <= i < 4 ==> IsHex(part.hex[i]) ==> Inert(part.hex[i]);
        SkipInert(js, p + 2, part.hex, depth, true);
      }
    }
  }

  lemma {:induction false} SkipBody(js: string, p: nat, body: StrBody, depth: nat)
    requires ValidBody(body) && At(js, p, BodyText(body)) && depth > 0
    ensures var q := p + |BodyText(body)|;
      q <= |js| && Scan(js, p, depth, true) == Scan(js, q, depth, true)
    decreases |body|
  {
    if body != [] {
      AtConcat(js, p, PartText(body[0]), BodyText(body[1..]));
      SkipPart(js, p, body[0], depth);
      SkipBody(js, p + |PartText(body[0])|, body[1..], depth);
    }
  }

  lemma SkipQuoted(js: string, p: nat, body: StrBody, depth: nat)
    requires ValidBody(body) && At(js, p, Quoted(body)) && depth > 0
    ensures var q := p + |Quoted(body)|;
      q <= |js| && Scan(js, p, depth, false) == Scan(js, q, depth, false)
  {
    AtConcat(js, p, "\"" + BodyText(body), "\"");
    AtConcat(js, p, "\"", BodyText(body));
    SkipBody(js, p + 1, body, depth);
  }

  // ---------- whole values leave the depth as they found it ----------

  lemma {:induction false} SkipValue(js: string, p: nat, v: Value, depth: nat)
    requires Valid(v) && At(js, p, Render(v)) && depth > 0
    ensures var q := p + |Render(v)|;
      q <= |js| && Scan(js, p, depth, false) == Scan(js, q, depth, false)
    decreases v
  {
    hide At, Scan, Quoted, RenderItems, RenderMembers, IsPrimitive;
    AtBound(js, p, Render(v));
    match v
    case Prim(lexeme) =>
      PrimitiveChars(lexeme);
      assert forall i :: 0 <= i < |lexeme| ==> IsPrimChar(lexeme[i]) ==> Inert(lexeme[i]);
      SkipInert(js, p, lexeme, depth, false);
    case Str(body) => SkipQuoted(js, p, body, depth);
    case Arr(pad, items) =>
      ArrPieces(js, p, pad, items);
      SkipInert(js, p, "[", depth, false);
      if items.NoItems? { SkipWs(js, p + 1, pad, depth); } else { SkipItems(js, p + 1, items, depth); }
      SkipInert(js, p + |Render(v)| - 1, "]", depth, false);
    case Obj(pad, members) => SkipObject(js, p, pad, members, depth);
  }

  lemma {:induction false} SkipObject(js: string, p: nat, pad: string, members: Members, depth: nat)
    requires AllWs(pad) && ValidMembers(members) && At(js, p, Render(Obj(pad, members))) && depth > 0
    ensures var q := p + |Render(Obj(pad, members))|;
      q <= |js| && Scan(js, p, depth, false) == Scan(js, q, depth, false)
    decreases members, 2
  {
    hide At, Render, Scan;
    ObjPieces(js, p, pad, members);
    AtIndex(js, p, "{", 0);
    ScanBrace(js, p, depth);
    SkipContent(js, p + 1, pad, members, depth + 1);
    var last := p + |Render(Obj(pad, members))| - 1;
    AtIndex(js, last, "}", 0);
    ScanBrace(js, last, depth + 1);
  }

  lemma ScanBrace(js: string, p: nat, depth: nat)
    requires p < |js| && depth > 0
    ensures js[p] == '{' ==> Scan(js, p, depth, false) == Scan(js, p + 1, depth + 1, false)
    ensures js[p] == '}' ==> Scan(js, p, depth, false) == Scan(js, p + 1, depth - 1, false)
  {
  }

  // Inside an object, up to its closing brace.
  lemma {:induction false} SkipContent(js: string, p: nat, pad: string, members: Members, depth: nat)
    requires AllWs(pad) && ValidMembers(members) && depth > 0
    requires At(js, p, if members.NoMembers? then pad else RenderMembers(members))
    ensures var q := p + |if members.NoMembers? then pad else RenderMembers(members)|;
      q <= |js| && Scan(js, p, depth, false) == Scan(js, q, depth, false)
    decreases members, 1
  {
    if members.NoMembers? { SkipWs(js, p, pad, depth); } else { SkipMembers(js, p, members, depth); }
  }

  lemma {:induction false} SkipItems(js: string, p: nat, items: Items, depth: nat)
    requires items.Item? && ValidItems(items) && At(js, p, RenderItems(items)) && depth > 0
    ensures var q := p + |RenderItems(items)|;
      q <= |js| && Scan(js, p, depth, false) == Scan(js, q, depth, false)
    decreases items, 0
  {
    hide At, Scan, RenderItems, Render, AllWs;
    ItemPieces(js, p, items);
    var at := p + |items.pre|;
    var p1 := at + |Render(items.val)|;
    SkipWs(js, p, items.pre, depth);
    SkipValue(js, at, items.val, depth);
    SkipWs(js, p1, items.post, depth);
    if items.rest.Item? {
      SkipInert(js, p1 + |items.post|, ",", depth, false);
      SkipItems(js, p1 + |items.post| + 1, items.rest, depth);
    }
  }

  lemma {:induction false} SkipMembers(js: string, p: nat, members: Members, depth: nat)
    requires members.Member? && ValidMembers(members) && At(js, p, RenderMembers(members)) && depth > 0
    ensures var q := p + |RenderMembers(members)|;
      q <= |js| && Scan(js, p, depth, false) == Scan(js, q, depth, false)
    decreases members, 0
  {
    hide At, Scan, Quoted, RenderMembers, Render, AllWs;
    MemberPieces(js, p, members);
    var k := p + |members.pre|;
    var p1 := k + |Quoted(members.key)|;
    var p2 := p1 + |members.beforeColon|;
    var at := p2 + 1 + |members.afterColon|;
    var p3 := at + |Render(members.val)|;
    SkipWs(js, p, members.pre, depth);
    SkipQuoted(js, k, members.key, depth);
    SkipWs(js, p1, members.beforeColon, depth);
    SkipInert(js, p2, ":", depth, false);
    SkipWs(js, p2 + 1, members.afterColon, depth);
    SkipValue(js, at, members.val, depth);
    SkipWs(js, p3, members.post, depth);
    if members.rest.Member? {
      SkipInert(js, p3 + |members.post|, ",", depth, false);
      SkipMembers(js, p3 + |members.post| + 1, members.rest, depth);
    }
  }

  /** From the opening brace of any JSON object, whatever stands before and after it, the scan
      stops exactly one past the matching brace. */
  lemma SectionIsObject(js: string, p: nat, v: Value)
    requires v.Obj? && Valid(v) && At(js, p, Render(v))
    ensures p < |js| && Scan(js, p + 1, 1, false) == End(p + |Render(v)|)
  {
    AtBound(js, p, Render(v));
    ObjPieces(js, p, v.pad, v.members);
    SkipContent(js, p + 1, v.pad, v.members, 1);
    AtIndex(js, p + |Render(v)| - 1, "}", 0);
  }

  // ---------- texts that are not objects ----------

  /** The end that is found is one past a closing brace. */
  lemma {:induction false} EndIsPastABrace(js: string, p: nat, depth: nat, suspended: bool)
    requires p <= |js| && depth > 0 && Scan(js, p, depth, suspended).End?
    ensures var q := Scan(js, p, depth, suspended).at; p < q <= |js| && js[q - 1] == '}'
    decreases |js| - p
  {
    if Jumps(js, p) {
      EndIsPastABrace(js, p + 2, depth, suspended);
    } else if !(js[p] == '}' && !suspended && depth == 1) {
      EndIsPastABrace(js, p + 1,
        if js[p] == '{' && !suspended then depth + 1 else if js[p] == '}' && !suspended then depth - 1 else depth,
        if js[p] == '"' then !suspended else suspended);
    }
  }

  /** The scan needs the text up to the end it finds and no further: cut anywhere before it, or
      anywhere at all if there is no end, the text has none. */
  lemma {:induction false} ScanOfPrefix(js: string, n: nat, p: nat, depth: nat, suspended: bool)
    requires p <= n <= |js| && depth > 0
    ensures var r := Scan(js, p, depth, suspended);
      Scan(js[..n], p, depth, suspended) == if r.End? && r.at <= n then r else NotFound
    decreases n - p
  {
    var r := Scan(js, p, depth, suspended);
    if r.End? { EndIsPastABrace(js, p, depth, suspended); }
    if p < n && !AtEnd(js, p) {
      if Jumps(js, p) {
        if p + 2 <= n { ScanOfPrefix(js, n, p + 2, depth, suspended); } else { CutJump(js, p, depth, suspended); }
      } else if js[p] == '}' && !suspended && depth == 1 {
      } else {
        ScanOfPrefix(js, n, p + 1,
          if js[p] == '{' && !suspended then depth + 1 else if js[p] == '}' && !suspended then depth - 1 else depth,
          if js[p] == '"' then !suspended else suspended);
      }
    }
  }

  // A text cut between a backslash and what it escapes.
  lemma CutJump(js: string, p: nat, depth: nat, suspended: bool)
    requires p + 1 < |js| && Jumps(js, p) && depth > 0
    ensures Scan(js[..p + 1], p, depth, suspended) == NotFound
    ensures var r := Scan(js, p, depth, suspended); r.End? ==> r.at > p + 1
  {
  }
}
