/**
 The JSON grammar of RFC 8259, sections 2 to 7, as concrete syntax trees.

 A `Value` keeps everything the text keeps (lexemes, escapes, insignificant whitespace),
 so `Render` is the exact text of a tree and every JSON text is the rendering of some tree.
 */
module Rfc8259 {

  // Section 7: one unit of a string body.
  datatype StrPart =
    | Plain(c: char)
    | Escape(c: char)
    | Unicode(hex: string)

  type StrBody = seq<StrPart>

  datatype Value =
    | Prim(lexeme: string)
    | Str(body: StrBody)
    | Arr(pad: string, items: Items)
    | Obj(pad: string, members: Members)

  // `pad` of a container is only rendered when the container is empty.
  datatype Items =
    | NoItems
    | Item(pre: string, val: Value, post: string, rest: Items)

  datatype Members =
    | NoMembers
    | Member(pre: string, key: StrBody, beforeColon: string, afterColon: string,
             val: Value, post: string, rest: Members)

  // ---------- characters ----------

  predicate IsWs(c: char) {
    c == ' ' || c == '\t' || c == '\n' || c == '\r'
  }

  predicate AllWs(s: string) {
    forall i :: 0 <= i < |s| ==> IsWs(s[i])
  }

  predicate IsDigit(c: char) {
    '0' <= c <= '9'
  }

  predicate AllDigits(s: string) {
    forall i :: 0 <= i < |s| ==> IsDigit(s[i])
  }

  predicate IsHex(c: char) {
    '0' <= c <= '9' || 'A' <= c <= 'F' || 'a' <= c <= 'f'
  }

  predicate IsEscapable(c: char) {
    c == '"' || c == '/' || c == '\\' || c == 'b' || c == 'f' || c == 'r' || c == 'n' || c == 't'
  }

  // ---------- primitives: section 3 (literal names) and section 6 (numbers) ----------

  predicate IsInt(s: string) {
    |s| > 0 && AllDigits(s) && (s[0] == '0' ==> |s| == 1)
  }

  predicate IsFrac(s: string) {
    s == "" || (|s| > 1 && s[0] == '.' && AllDigits(s[1..]))
  }

  predicate IsExp(s: string) {
    s == "" ||
    (|s| > 1 && (s[0] == 'e' || s[0] == 'E') &&
     var t := if s[1] == '+' || s[1] == '-' then s[2..] else s[1..];
     |t| > 0 && AllDigits(t))
  }

  ghost predicate IsNumber(s: string) {
    exists minus, whole, frac, exp ::
      && s == minus + whole + frac + exp
      && (minus == "" || minus == "-")
      && IsInt(whole) && IsFrac(frac) && IsExp(exp)
  }

  ghost predicate IsPrimitive(s: string) {
    s == "true" || s == "false" || s == "null" || IsNumber(s)
  }

  // Every character a primitive may hold; none of them is structural.
  predicate IsPrimChar(c: char) {
    IsDigit(c) || c == '-' || c == '+' || c == '.' || 'a' <= c <= 'z' || c == 'E'
  }

  predicate AllPrimChars(s: string) {
    forall i :: 0 <= i < |s| ==> IsPrimChar(s[i])
  }

  lemma PrimitiveChars(s: string)
    requires IsPrimitive(s)
    ensures |s| > 0 && AllPrimChars(s)
  {
    if IsNumber(s) {
      var minus, whole, frac, exp :|
        && s == minus + whole + frac + exp
        && (minus == "" || minus == "-")
        && IsInt(whole) && IsFrac(frac) && IsExp(exp);
      assert AllPrimChars(minus) && AllPrimChars(whole);
      assert AllPrimChars(frac) by {
        forall i | 0 <= i < |frac| ensures IsPrimChar(frac[i]) {
          if i > 0 { assert frac[i] == frac[1..][i - 1]; }
        }
      }
      assert AllPrimChars(exp) by {
        forall i | 0 <= i < |exp| ensures IsPrimChar(exp[i]) {
          if i > 1 {
            assert exp[i] == exp[2..][i - 2];
            assert exp[i] == exp[1..][i - 1];
          } else if i == 1 {
            assert exp[1] == exp[1..][0];
          }
        }
      }
    }
  }

  // ---------- validity ----------

  predicate ValidPart(p: StrPart) {
    match p
    case Plain(c) => c as int >= 0x20 && c != '"' && c != '\\'
    case Escape(c) => IsEscapable(c)
    case Unicode(hex) => |hex| == 4 && forall i :: 0 <= i < 4 ==> IsHex(hex[i])
  }

  predicate ValidBody(b: StrBody) {
    forall i :: 0 <= i < |b| ==> ValidPart(b[i])
  }

  ghost predicate Valid(v: Value) {
    match v
    case Prim(lexeme) => IsPrimitive(lexeme)
    case Str(body) => ValidBody(body)
    case Arr(pad, items) => AllWs(pad) && ValidItems(items) && (items.Item? ==> pad == "")
    case Obj(pad, members) => AllWs(pad) && ValidMembers(members) && (members.Member? ==> pad == "")
  }

  ghost predicate ValidItems(items: Items) {
    match items
    case NoItems => true
    case Item(pre, val, post, rest) =>
      AllWs(pre) && Valid(val) && AllWs(post) && ValidItems(rest)
  }

  ghost predicate ValidMembers(members: Members) {
    match members
    case NoMembers => true
    case Member(pre, key, beforeColon, afterColon, val, post, rest) =>
      && AllWs(pre) && ValidBody(key) && AllWs(beforeColon) && AllWs(afterColon)
      && Valid(val) && AllWs(post) && ValidMembers(rest)
  }

  // ---------- rendering ----------

  function PartText(p: StrPart): string {
    match p
    case Plain(c) => [c]
    case Escape(c) => ['\\', c]
    case Unicode(hex) => ['\\', 'u'] + hex
  }

  function BodyText(b: StrBody): string {
    if b == [] then "" else PartText(b[0]) + BodyText(b[1..])
  }

  function Quoted(b: StrBody): string {
    "\"" + BodyText(b) + "\""
  }

  function Render(v: Value): string {
    match v
    case Prim(lexeme) => lexeme
    case Str(body) => Quoted(body)
    case Arr(pad, items) => "[" + (if items.NoItems? then pad else RenderItems(items)) + "]"
    case Obj(pad, members) => "{" + (if members.NoMembers? then pad else RenderMembers(members)) + "}"
  }

  function RenderItems(items: Items): string {
    match items
    case NoItems => ""
    case Item(pre, val, post, rest) =>
      pre + Render(val) + post + (if rest.NoItems? then "" else "," + RenderItems(rest))
  }

  function RenderMembers(members: Members): string {
    match members
    case NoMembers => ""
    case Member(pre, key, beforeColon, afterColon, val, post, rest) =>
      pre + Quoted(key) + beforeColon + ":" + afterColon + Render(val) + post
      + (if rest.NoMembers? then "" else "," + RenderMembers(rest))
  }

  function ItemCount(items: Items): nat {
    if items.NoItems? then 0 else 1 + ItemCount(items.rest)
  }

  function MemberCount(members: Members): nat {
    if members.NoMembers? then 0 else 1 + MemberCount(members.rest)
  }

  // ---------- text at a position ----------

  // `text` occurs in `js` at position `p`.
  ghost predicate At(js: string, p: nat, text: string)
    decreases |text|
  {
    if text == "" then p <= |js|
    else p < |js| && js[p] == text[0] && At(js, p + 1, text[1..])
  }

  lemma {:induction false} AtConcat(js: string, p: nat, a: string, b: string)
    requires At(js, p, a + b)
    ensures At(js, p, a) && At(js, p + |a|, b)
    decreases |a|
  {
    if a == "" {
      assert a + b == b;
      AtBound(js, p, b);
    } else {
      assert (a + b)[1..] == a[1..] + b;
      AtConcat(js, p + 1, a[1..], b);
    }
  }

  lemma {:induction false} AtBound(js: string, p: nat, text: string)
    requires At(js, p, text)
    ensures p + |text| <= |js|
    decreases |text|
  {
    if text != "" { AtBound(js, p + 1, text[1..]); }
  }

  lemma {:induction false} AtIndex(js: string, p: nat, text: string, i: nat)
    requires At(js, p, text) && i < |text|
    ensures p + i < |js| && js[p + i] == text[i]
    decreases |text|
  {
    if i > 0 { AtIndex(js, p + 1, text[1..], i - 1); }
  }

  lemma {:induction false} AtMiddle(before: string, text: string, after: string)
    ensures At(before + text + after, |before|, text)
    decreases |text|
  {
    if text != "" {
      AtMiddle(before + text[..1], text[1..], after);
      assert before + text[..1] + text[1..] == before + text;
    }
  }

  lemma AtThree(before: string, text: string, after: string)
    ensures var js := before + text + after;
      At(js, 0, before) && At(js, |before|, text) && At(js, |before| + |text|, after)
  {
    hide At;
    EmptyEnds(before, text, after);
    AtMiddle("", before, text + after);
    AtMiddle(before, text, after);
    AtMiddle(before + text, after, "");
  }

  lemma EmptyEnds(a: string, b: string, c: string)
    ensures "" + a + (b + c) == a + b + c == a + b + c + ""
  {
  }

  // Where the pieces of a rendered item are.
  lemma ItemPieces(js: string, pos: nat, items: Items)
    requires items.Item? && At(js, pos, RenderItems(items))
    ensures var at := pos + |items.pre|;
      var p1 := at + |Render(items.val)|;
      var p2 := p1 + |items.post|;
      && At(js, pos, items.pre) && At(js, at, Render(items.val)) && At(js, p1, items.post)
      && (items.rest.NoItems? ==> p2 == pos + |RenderItems(items)|)
      && (items.rest.Item? ==>
            At(js, p2, ",") && At(js, p2 + 1, RenderItems(items.rest))
            && pos + |RenderItems(items)| == p2 + 1 + |RenderItems(items.rest)|)
  {
    hide At, Render;
    var pre, val, post, rest := items.pre, items.val, items.post, items.rest;
    var tail := if rest.NoItems? then "" else "," + RenderItems(rest);
    AtConcat(js, pos, pre + Render(val) + post, tail);
    AtConcat(js, pos, pre + Render(val), post);
    AtConcat(js, pos, pre, Render(val));
    if rest.Item? {
      AtConcat(js, pos + |pre + Render(val) + post|, ",", RenderItems(rest));
    }
  }

  lemma MemberPieces(js: string, pos: nat, members: Members)
    requires members.Member? && At(js, pos, RenderMembers(members))
    ensures var k := pos + |members.pre|;
      var p1 := k + |Quoted(members.key)|;
      var p2 := p1 + |members.beforeColon|;
      var at := p2 + 1 + |members.afterColon|;
      var p3 := at + |Render(members.val)|;
      var p4 := p3 + |members.post|;
      && At(js, pos, members.pre) && At(js, k, Quoted(members.key))
      && At(js, p1, members.beforeColon) && At(js, p2, ":") && At(js, p2 + 1, members.afterColon)
      && At(js, at, Render(members.val)) && At(js, p3, members.post)
      && (members.rest.NoMembers? ==> p4 == pos + |RenderMembers(members)|)
      && (members.rest.Member? ==>
            At(js, p4, ",") && At(js, p4 + 1, RenderMembers(members.rest))
            && pos + |RenderMembers(members)| == p4 + 1 + |RenderMembers(members.rest)|)
  {
    hide At, Quoted, Render;
    var rest := members.rest;
    var a := members.pre;
    var b := a + Quoted(members.key);
    var c := b + members.beforeColon;
    var d := c + ":";
    var e := d + members.afterColon;
    var f := e + Render(members.val);
    var g := f + members.post;
    var tail := if rest.NoMembers? then "" else "," + RenderMembers(rest);
    AtConcat(js, pos, g, tail);
    AtConcat(js, pos, f, members.post);
    AtConcat(js, pos, e, Render(members.val));
    AtConcat(js, pos, d, members.afterColon);
    AtConcat(js, pos, c, ":");
    AtConcat(js, pos, b, members.beforeColon);
    AtConcat(js, pos, a, Quoted(members.key));
    if rest.Member? { AtConcat(js, pos + |g|, ",", RenderMembers(rest)); }
  }

  lemma ArrPieces(js: string, pos: nat, pad: string, items: Items)
    requires At(js, pos, Render(Arr(pad, items)))
    ensures var content := if items.NoItems? then pad else RenderItems(items);
      && At(js, pos, "[") && At(js, pos + 1, content) && At(js, pos + 1 + |content|, "]")
      && |Render(Arr(pad, items))| == |content| + 2
  {
    hide At;
    var content := if items.NoItems? then pad else RenderItems(items);
    AtConcat(js, pos, "[" + content, "]");
    AtConcat(js, pos, "[", content);
  }

  lemma ObjPieces(js: string, pos: nat, pad: string, members: Members)
    requires At(js, pos, Render(Obj(pad, members)))
    ensures var content := if members.NoMembers? then pad else RenderMembers(members);
      && At(js, pos, "{") && At(js, pos + 1, content) && At(js, pos + 1 + |content|, "}")
      && |Render(Obj(pad, members))| == |content| + 2
  {
    hide At;
    var content := if members.NoMembers? then pad else RenderMembers(members);
    AtConcat(js, pos, "{" + content, "}");
    AtConcat(js, pos, "{", content);
  }

  // What may follow a value in a JSON text.
  predicate Follows(js: string, p: nat) {
    p >= |js| || IsWs(js[p]) || js[p] == ',' || js[p] == ']' || js[p] == '}'
  }

  lemma FollowsValue(js: string, p: nat, post: string, next: string)
    requires AllWs(post) && At(js, p, post) && At(js, p + |post|, next)
    requires next == "," || next == "]" || next == "}"
    ensures Follows(js, p)
  {
    if post == "" { AtIndex(js, p, next, 0); } else { assert IsWs(post[0]); AtIndex(js, p, post, 0); }
  }
}
