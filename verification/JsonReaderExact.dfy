/**
 The JSON reader takes nothing but JSON: what it reads is a valid tree whose rendering, with
 whitespace around it, is the text.
 */
module JsonReaderExact {
  import opened R = Rfc8259
  import opened JsonReader
  import opened Wrappers

  // ---------- slices ----------

  lemma Quotes(js: string, p: nat, q: nat)
    requires p < q < |js|
    ensures js[p..q + 1] == [js[p]] + js[p + 1..q] + [js[q]]
  {
  }

  lemma ThreeSlices(js: string, p: nat, a: nat, b: nat, q: nat)
    requires p <= a <= b <= q <= |js|
    ensures js[p..q] == js[p..a] + js[a..b] + js[b..q]
  {
  }

  lemma SlicesAndComma(js: string, p: nat, a: nat, b: nat, c: nat, q: nat)
    requires p <= a <= b <= c < q <= |js| && js[c] == ','
    ensures js[p..q] == js[p..a] + js[a..b] + js[b..c] + ("," + js[c + 1..q])
  {
    ThreeSlices(js, p, a, b, c);
    assert js[p..q] == js[p..c] + ([js[c]] + js[c + 1..q]);
  }

  lemma SlicesAndColon(js: string, p: nat, a: nat, b: nat, c: nat, q: nat)
    requires p <= a <= b <= c < q <= |js| && js[c] == ':'
    ensures js[p..q] == js[p..a] + js[a..b] + js[b..c] + ":" + js[c + 1..q]
  {
    ThreeSlices(js, p, a, b, c);
    assert js[p..q] == js[p..c] + [js[c]] + js[c + 1..q];
  }

  // ---------- what is read is what is there ----------

  lemma PartIs(js: string, p: nat, n: nat, part: StrPart)
    requires p < n <= |js| && ValidPart(part)
    requires match part
      case Plain(c) => n == p + 1 && js[p] == c
      case Escape(c) => n == p + 2 && js[p] == '\\' && js[p + 1] == c
      case Unicode(hex) => n == p + 6 && js[p] == '\\' && js[p + 1] == 'u' && js[p + 2..p + 6] == hex
    ensures js[p..n] == PartText(part)
  {
    if part.Unicode? { assert js[p..n] == [js[p], js[p + 1]] + js[p + 2..p + 6]; }
  }

  lemma {:induction false} ReadBodyIs(js: string, p: nat)
    requires p <= |js| && ReadBody(js, p).Some?
    ensures var (b, q) := ReadBody(js, p).value; ValidBody(b) && js[p..q] == BodyText(b)
    decreases |js| - p
  {
    if js[p] != '"' {
      var n := if js[p] != '\\' then p + 1 else if IsEscapable(js[p + 1]) then p + 2 else p + 6;
      ReadBodyIs(js, n);
      PrependIs(js, p, n);
    }
  }

  lemma PrependIs(js: string, p: nat, n: nat)
    requires p < |js| && js[p] != '"' && ReadBody(js, p).Some?
    requires n == if js[p] != '\\' then p + 1 else if p + 1 < |js| && IsEscapable(js[p + 1]) then p + 2 else p + 6
    requires n <= |js| && ReadBody(js, n).Some?
    requires var (b, q) := ReadBody(js, n).value; ValidBody(b) && js[n..q] == BodyText(b)
    ensures var (b, q) := ReadBody(js, p).value; ValidBody(b) && js[p..q] == BodyText(b)
  {
    hide ValidPart, PartText;
    var (rest, _) := ReadBody(js, n).value;
    var (b, q) := ReadBody(js, p).value;
    var part := b[0];
    assert b == [part] + rest && b[1..] == rest;
    FirstPart(js, p, n, part);
    assert js[p..q] == js[p..n] + js[n..q];
  }

  lemma FirstPart(js: string, p: nat, n: nat, part: StrPart)
    requires p < |js| && js[p] != '"' && ReadBody(js, p).Some? && ReadBody(js, p).value.0 != []
    requires part == ReadBody(js, p).value.0[0]
    requires n == if js[p] != '\\' then p + 1 else if p + 1 < |js| && IsEscapable(js[p + 1]) then p + 2 else p + 6
    ensures n <= |js| && ValidPart(part) && js[p..n] == PartText(part)
  {
    hide PartText;
    PartIs(js, p, n, part);
  }

  lemma {:induction false} ReadValueIs(js: string, p: nat)
    requires p <= |js| && ReadValue(js, p).Some?
    ensures var (v, q) := ReadValue(js, p).value; Valid(v) && js[p..q] == Render(v)
    decreases |js| - p, 0, 1
  {
    hide ReadItems, ReadMembers, ReadBody, IsPrimitive, BodyText;
    if js[p] == '"' {
      ReadBodyIs(js, p + 1);
      Quotes(js, p, ReadBody(js, p + 1).value.1);
    } else if js[p] == '[' {
      ReadArrayIs(js, p);
    } else if js[p] == '{' {
      ReadObjectIs(js, p);
    }
  }

  lemma {:induction false} ReadArrayIs(js: string, p: nat)
    requires p < |js| && js[p] == '[' && ReadValue(js, p).Some?
    ensures var (v, q) := ReadValue(js, p).value; Valid(v) && js[p..q] == Render(v)
    decreases |js| - p, 0, 0
  {
    hide ReadItems, RenderItems;
    var q := BlankEnd(js, p + 1);
    if q < |js| && js[q] == ']' {
      Quotes(js, p, q);
    } else {
      ReadItemsIs(js, p + 1);
      Quotes(js, p, ReadItems(js, p + 1).value.1);
    }
  }

  lemma {:induction false} ReadObjectIs(js: string, p: nat)
    requires p < |js| && js[p] == '{' && ReadValue(js, p).Some?
    ensures var (v, q) := ReadValue(js, p).value; Valid(v) && js[p..q] == Render(v)
    decreases |js| - p, 0, 0
  {
    hide ReadMembers, RenderMembers;
    var q := BlankEnd(js, p + 1);
    if q < |js| && js[q] == '}' {
      Quotes(js, p, q);
    } else {
      ReadMembersIs(js, p + 1);
      Quotes(js, p, ReadMembers(js, p + 1).value.1);
    }
  }

  lemma {:induction false} ReadItemsIs(js: string, p: nat)
    requires p <= |js| && ReadItems(js, p).Some?
    ensures var (items, q) := ReadItems(js, p).value;
      items.Item? && ValidItems(items) && js[p..q] == RenderItems(items)
    decreases |js| - p, 1
  {
    hide ReadValue, Render, Valid, AllWs, BlankEnd;
    var at := BlankEnd(js, p);
    ReadValueIs(js, at);
    var end := ReadValue(js, at).value.1;
    var q := BlankEnd(js, end);
    if q < |js| && js[q] == ',' {
      ReadItemsIs(js, q + 1);
      SlicesAndComma(js, p, at, end, q, ReadItems(js, p).value.1);
    } else {
      ThreeSlices(js, p, at, end, q);
      Ends(js[p..at] + js[at..end] + js[end..q]);
    }
  }

  lemma Ends(s: string)
    ensures s == s + ""
  {
  }

  lemma {:induction false} ReadKeyIs(js: string, p: nat)
    requires p <= |js| && ReadKey(js, p).Some?
    ensures var k := ReadKey(js, p).value;
      && AllWs(k.pre) && ValidBody(k.key) && AllWs(k.beforeColon) && AllWs(k.afterColon)
      && js[p..k.at] == k.pre + Quoted(k.key) + k.beforeColon + ":" + k.afterColon
  {
    hide ReadBody, AllWs, ValidBody, BodyText, BlankEnd;
    var q := BlankEnd(js, p);
    ReadBodyIs(js, q + 1);
    var close := ReadBody(js, q + 1).value.1;
    var colon := BlankEnd(js, close + 1);
    Quotes(js, q, close);
    SlicesAndColon(js, p, q, close + 1, colon, ReadKey(js, p).value.at);
  }

  lemma {:induction false} ReadMembersIs(js: string, p: nat)
    requires p <= |js| && ReadMembers(js, p).Some?
    ensures var (members, q) := ReadMembers(js, p).value;
      members.Member? && ValidMembers(members) && js[p..q] == RenderMembers(members)
    decreases |js| - p, 1
  {
    hide ReadValue, Render, Valid, AllWs, ReadKey, Quoted, ValidBody, BlankEnd;
    ReadKeyIs(js, p);
    var k := ReadKey(js, p).value;
    ReadValueIs(js, k.at);
    var end := ReadValue(js, k.at).value.1;
    var q := BlankEnd(js, end);
    if q < |js| && js[q] == ',' {
      ReadMembersIs(js, q + 1);
      SlicesAndComma(js, p, k.at, end, q, ReadMembers(js, p).value.1);
    } else {
      ThreeSlices(js, p, k.at, end, q);
      Ends(js[p..k.at] + js[k.at..end] + js[end..q]);
    }
  }

  // The text is the tree's rendering with whitespace around it.
  ghost predicate TextOf(js: string, v: Value) {
    exists before, after :: AllWs(before) && AllWs(after) && js == before + Render(v) + after
  }

  /** A text reads as a tree exactly if the tree is valid and the text is one of its texts. */
  lemma ReadIsExact(js: string, v: Value)
    ensures Read(js) == Some(v) <==> Valid(v) && TextOf(js, v)
  {
    hide ReadValue, Valid, Render, AllWs, Read;
    if Read(js) == Some(v) { ReadIsText(js); }
    if Valid(v) && TextOf(js, v) {
      var before, after :| AllWs(before) && AllWs(after) && js == before + Render(v) + after;
      ReadRender(before, v, after);
    }
  }

  lemma ReadIsText(js: string)
    requires Read(js).Some?
    ensures Valid(Read(js).value) && TextOf(js, Read(js).value)
  {
    hide ReadValue, Valid, Render, AllWs;
    var p := BlankEnd(js, 0);
    ReadValueIs(js, p);
    var q := ReadValue(js, p).value.1;
    assert js == js[0..p] + js[p..q] + js[q..|js|];
  }
}
