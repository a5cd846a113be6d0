/**
 Searching for words and brace sections in the rendering of a JSON tree, with any whitespace.
 */
module DatatypeSearch {
  import opened R = Rfc8259
  import opened JsonReader
  import opened Wrappers
  import opened Datatype
  import opened DatatypeText
  import opened DatatypeReader
  import SectionEnd

  predicate NoQuote(s: string) {
    forall i :: 0 <= i < |s| ==> s[i] != '"'
  }

  predicate NoBrace(s: string) {
    forall i :: 0 <= i < |s| ==> s[i] != '{'
  }

  // What the parser searches for, without its quotes.
  predicate Word(w: string) {
    w != "" && NoQuote(w) && !IsWs(w[0]) && w[0] != ':' && w[0] != ','
  }

  lemma Words()
    ensures Word("type") && Word("base") && Word("fields")
    ensures NoQuote("class") && NoQuote("name") && NoQuote("H5T_ARRAY") && NoQuote("H5T_ENUM") && NoQuote("H5T_COMPOUND")
    ensures NoBrace(Q("type")) && NoBrace(Q("base"))
  {
  }

  lemma WordLength(s: string)
    ensures |Q(s)| == |s| + 2 && Q(s)[0] == '"'
  {
  }

  // ---------- passing over text ----------

  // Text that does not hold the first character of what is searched for is passed over.
  lemma {:induction false} SkipText(js: string, pat: string, p: nat, text: string)
    requires pat != "" && At(js, p, text) && forall i :: 0 <= i < |text| ==> text[i] != pat[0]
    ensures p + |text| <= |js| && Find(js, pat, p) == Find(js, pat, p + |text|)
    decreases |text|
  {
    AtBound(js, p, text);
    if text != "" { SkipText(js, pat, p + 1, text[1..]); }
  }

  lemma SkipBlanks(js: string, pat: string, p: nat, ws: string)
    requires pat != "" && !IsWs(pat[0]) && At(js, p, ws) && AllWs(ws)
    ensures p + |ws| <= |js| && Find(js, pat, p) == Find(js, pat, p + |ws|)
  {
    hide At, Find;
    SkipText(js, pat, p, ws);
  }

  lemma FindHere(js: string, pat: string, p: nat)
    requires p <= |js| && At(js, p, pat)
    ensures Find(js, pat, p) == Some(p)
  {
  }

  lemma {:induction false} AtAgree(js: string, p: nat, a: string, b: string, i: nat)
    requires At(js, p, a) && At(js, p, b) && i < |a| && i < |b|
    ensures a[i] == b[i]
  {
    AtIndex(js, p, a, i);
    AtIndex(js, p, b, i);
  }

  // Two quoted words at one place are the same word.
  lemma SameWord(js: string, p: nat, s: string, w: string)
    requires NoQuote(s) && NoQuote(w) && At(js, p, Q(s)) && At(js, p, Q(w))
    ensures s == w
  {
    var a, b := Q(s), Q(w);
    if |s| < |w| {
      assert a[|s| + 1] == '"' && b[|s| + 1] == w[|s|];
      AtAgree(js, p, a, b, |s| + 1);
    } else if |w| < |s| {
      assert b[|w| + 1] == '"' && a[|w| + 1] == s[|w|];
      AtAgree(js, p, a, b, |w| + 1);
    } else {
      forall i | 0 <= i < |s| ensures s[i] == w[i] {
        AtAgree(js, p, a, b, i + 1);
        assert a[i + 1] == s[i] && b[i + 1] == w[i];
      }
    }
  }

  // A quoted word that is not the one searched for is passed over, closing quote included, when
  // something else than the word follows it.
  lemma SkipWord(js: string, w: string, p: nat, s: string)
    requires NoQuote(s) && NoQuote(w) && w != "" && s != w
    requires At(js, p, Q(s)) && p + |Q(s)| < |js| && js[p + |Q(s)|] != w[0]
    ensures Find(js, Q(w), p) == Find(js, Q(w), p + |Q(s)|)
  {
    var close := p + 1 + |s|;
    AtConcat(js, p, "\"" + s, "\"");
    AtConcat(js, p, "\"", s);
    if At(js, p, Q(w)) { SameWord(js, p, s, w); }
    SkipText(js, Q(w), p + 1, s);
    if At(js, close, Q(w)) { AtIndex(js, close, Q(w), 1); }
  }

  // The same with blanks and a colon or comma after it, which are passed over too.
  lemma SkipWordAndMark(js: string, w: string, p: nat, s: string, blanks: string, mark: string)
    requires NoQuote(s) && Word(w) && s != w && AllWs(blanks) && (mark == ":" || mark == ",")
    requires At(js, p, Q(s)) && At(js, p + |Q(s)|, blanks) && At(js, p + |Q(s)| + |blanks|, mark)
    ensures var q := p + |Q(s)| + |blanks| + 1;
      q <= |js| && Find(js, Q(w), p) == Find(js, Q(w), q)
  {
    hide At, Find, Q;
    WordLength(w);
    AtIndex(js, p + |Q(s)| + |blanks|, mark, 0);
    if blanks != "" { AtIndex(js, p + |Q(s)|, blanks, 0); }
    SkipWord(js, w, p, s);
    SkipBlanks(js, Q(w), p + |Q(s)|, blanks);
    SkipText(js, Q(w), p + |Q(s)| + |blanks|, mark);
  }

  // ---------- the pieces of a member ----------

  predicate Keyed(m: Members, key: string): (r: bool)
    ensures r ==> m.Member?
  {
    && m.Member? && m.key == Plains(key)
    && AllWs(m.pre) && AllWs(m.beforeColon) && AllWs(m.afterColon) && AllWs(m.post)
  }

  // Where the key and the value of a member rendered at `p` are.
  function KeyAt(p: nat, m: Members): nat
    requires m.Member?
  {
    p + |m.pre|
  }

  function ColonAt(p: nat, m: Members): nat
    requires m.Member?
  {
    KeyAt(p, m) + |Quoted(m.key)| + |m.beforeColon|
  }

  function ValueAt(p: nat, m: Members): nat
    requires m.Member?
  {
    ColonAt(p, m) + 1 + |m.afterColon|
  }

  function ValueEnd(p: nat, m: Members): nat
    requires m.Member?
  {
    ValueAt(p, m) + |Render(m.val)|
  }

  function MemberEnd(p: nat, m: Members): nat
    requires m.Member?
  {
    ValueEnd(p, m) + |m.post|
  }

  lemma MemberAt(js: string, p: nat, m: Members, key: string)
    requires Keyed(m, key) && At(js, p, RenderMembers(m))
    ensures At(js, p, m.pre) && At(js, KeyAt(p, m), Q(key)) && At(js, KeyAt(p, m) + |Q(key)|, m.beforeColon)
    ensures ColonAt(p, m) == KeyAt(p, m) + |Q(key)| + |m.beforeColon|
    ensures At(js, ColonAt(p, m), ":") && At(js, ColonAt(p, m) + 1, m.afterColon)
    ensures At(js, ValueAt(p, m), Render(m.val)) && At(js, ValueEnd(p, m), m.post)
    ensures m.rest.Member? ==> At(js, MemberEnd(p, m), ",") && At(js, MemberEnd(p, m) + 1, RenderMembers(m.rest))
    ensures m.rest.NoMembers? ==> p + |RenderMembers(m)| == MemberEnd(p, m)
    ensures m.rest.Member? ==> p + |RenderMembers(m)| == MemberEnd(p, m) + 1 + |RenderMembers(m.rest)|
  {
    hide At, Render, RenderMembers, Q;
    PlainsText(key);
    MemberPieces(js, p, m);
  }

  // Searching for a word from a member on leads to its key, or to its value.
  lemma SkipKey(js: string, w: string, p: nat, m: Members, key: string)
    requires Keyed(m, key) && NoQuote(key) && Word(w) && At(js, p, RenderMembers(m))
    ensures ValueAt(p, m) <= |js| && p <= |js|
    ensures Find(js, Q(w), p) == if key == w then Some(KeyAt(p, m)) else Find(js, Q(w), ValueAt(p, m))
  {
    hide At, Find, Render, RenderMembers, Q;
    MemberAt(js, p, m, key);
    AtBound(js, ValueAt(p, m), Render(m.val));
    WordLength(w);
    var k := KeyAt(p, m);
    QuoteNotBlank();
    SkipBlanks(js, Q(w), p, m.pre);
    if key == w {
      FindHere(js, Q(w), k);
    } else {
      SkipWordAndMark(js, w, k, key, m.beforeColon, ":");
      SkipBlanks(js, Q(w), ColonAt(p, m) + 1, m.afterColon);
    }
  }

  lemma QuoteNotBlank()
    ensures !IsWs('"') && !IsWs('{') && AllWs(" ") && AllWs("")
  {
  }

  // The same over a whole member with a string value, up to the member after it.
  lemma SkipTextMember(js: string, w: string, p: nat, m: Members, key: string, s: string)
    requires Keyed(m, key) && NoQuote(key) && Word(w) && At(js, p, RenderMembers(m))
    requires m.val == Text(s) && m.rest.Member? && NoQuote(s) && key != w && s != w
    ensures MemberEnd(p, m) + 1 <= |js| && p <= |js|
    ensures Find(js, Q(w), p) == Find(js, Q(w), MemberEnd(p, m) + 1)
  {
    hide At, Find, Render, RenderMembers, Q, Text;
    MemberAt(js, p, m, key);
    SkipKey(js, w, p, m, key);
    TextText(s);
    SkipWordAndMark(js, w, ValueAt(p, m), s, m.post, ",");
  }

  // From an object's brace to its members.
  lemma EnterObject(js: string, p: nat, v: Value, w: string)
    requires v.Obj? && v.members.Member? && At(js, p, Render(v))
    ensures p + 1 <= |js| && Find(js, Q(w), p) == Find(js, Q(w), p + 1)
    ensures At(js, p + 1, RenderMembers(v.members)) && At(js, p + 1 + |RenderMembers(v.members)|, "}")
    ensures |Render(v)| == |RenderMembers(v.members)| + 2
  {
    hide At, Find, Render, RenderMembers, Q;
    ObjPieces(js, p, v.pad, v.members);
    WordLength(w);
    SkipText(js, Q(w), p, "{");
  }

  // ---------- sections ----------

  lemma SectionHere(js: string, q: nat, b: nat, v: Value)
    requires q <= b <= |js| && At(js, b, Render(v)) && v.Obj? && Valid(v)
    requires Find(js, "{", q) == Find(js, "{", b)
    ensures b + |Render(v)| <= |js| && SectionAfter(js, q) == Some((b, b + |Render(v)|))
  {
    hide At, Render, Valid, SectionEnd.Scan;
    ObjPieces(js, b, v.pad, v.members);
    AtBound(js, b, Render(v));
    FindHere(js, "{", b);
    SectionEnd.SectionIsObject(js, b, v);
  }

  // The first section after a quoted word, a colon and an object is the object.
  lemma SectionAfterWord(js: string, k: nat, key: string, before: string, after: string, v: Value)
    requires At(js, k, Q(key)) && At(js, k + |Q(key)|, before) && At(js, k + |Q(key)| + |before|, ":")
    requires At(js, k + |Q(key)| + |before| + 1, after) && At(js, k + |Q(key)| + |before| + 1 + |after|, Render(v))
    requires v.Obj? && Valid(v) && AllWs(before) && AllWs(after) && NoBrace(Q(key))
    ensures var b := k + |Q(key)| + |before| + 1 + |after|;
      b + |Render(v)| <= |js| && SectionAfter(js, k) == Some((b, b + |Render(v)|))
  {
    hide At, Render, Valid, SectionAfter, Find, Q;
    var c := k + |Q(key)|;
    QuoteNotBlank();
    SkipText(js, "{", k, Q(key));
    SkipBlanks(js, "{", c, before);
    SkipText(js, "{", c + |before|, ":");
    SkipBlanks(js, "{", c + |before| + 1, after);
    AtBound(js, c + |before| + 1 + |after|, Render(v));
    SectionHere(js, k, c + |before| + 1 + |after|, v);
  }

  // From a member's key, the first section is the member's value.
  lemma SectionOfMember(js: string, p: nat, m: Members, key: string)
    requires Keyed(m, key) && At(js, p, RenderMembers(m)) && m.val.Obj? && Valid(m.val) && NoBrace(Q(key))
    ensures ValueEnd(p, m) <= |js| && SectionAfter(js, KeyAt(p, m)) == Some((ValueAt(p, m), ValueEnd(p, m)))
  {
    hide At, Render, RenderMembers, Valid, SectionAfter, Find, Q, AllWs, NoBrace;
    MemberAt(js, p, m, key);
    SectionAfterWord(js, KeyAt(p, m), key, m.beforeColon, m.afterColon, m.val);
  }

  // ---------- the text the converter is given ----------

  lemma WrapText(before: string, sp: string, v: Value)
    ensures Render(Wrap(before, sp, v)) == "{" + Q("type") + before + ":" + sp + Render(v) + "}"
  {
    hide Render, Q;
    PlainsText("type");
    var m := Member("", Plains("type"), before, sp, v, "", NoMembers);
    assert "" + Q("type") + before + ":" + sp + Render(v) + "" + "" == Q("type") + before + ":" + sp + Render(v);
    ObjText(m);
    JoinBraces(Q("type"), before, sp, Render(v));
  }

  lemma JoinBraces(a: string, b: string, c: string, d: string)
    ensures "{" + (a + b + ":" + c + d) + "}" == "{" + a + b + ":" + c + d + "}"
  {
  }

  lemma WrapLength(before: string, sp: string, v: Value)
    ensures |Render(Wrap(before, sp, v))| == |before| + |sp| + |Render(v)| + 9
  {
    hide Render, Q;
    WrapText(before, sp, v);
    WordLength("type");
  }

  // A section cut out together with the key before it.
  lemma CutText(js: string, q: nat, before: string, after: string, v: Value)
    requires At(js, q, Q("type")) && At(js, q + |Q("type")|, before) && At(js, q + |Q("type")| + |before|, ":")
    requires At(js, q + |Q("type")| + |before| + 1, after)
    requires At(js, q + |Q("type")| + |before| + 1 + |after|, Render(v))
    ensures var end := q + |Q("type")| + |before| + 1 + |after| + |Render(v)|;
      end <= |js| && "{" + js[q..end] + "}" == Render(Wrap(before, after, v))
  {
    hide At, Render, Q, Wrap;
    CutPieces(js, q, Q("type"), before, after, Render(v));
    WrapText(before, after, v);
  }

  lemma CutPieces(js: string, q: nat, key: string, before: string, after: string, text: string)
    requires At(js, q, key) && At(js, q + |key|, before) && At(js, q + |key| + |before|, ":")
    requires At(js, q + |key| + |before| + 1, after) && At(js, q + |key| + |before| + 1 + |after|, text)
    ensures var end := q + |key| + |before| + 1 + |after| + |text|;
      end <= |js| && "{" + js[q..end] + "}" == "{" + key + before + ":" + after + text + "}"
  {
    hide At;
    var c := q + |key|;
    AtSlice(js, q, key);
    AtSlice(js, c, before);
    AtSlice(js, c + |before|, ":");
    AtSlice(js, c + |before| + 1, after);
    AtSlice(js, c + |before| + 1 + |after|, text);
    JoinSlices(js, q, key, before, ":", after, text);
    JoinBraces(key, before, after, text);
  }

  lemma JoinSlices(js: string, q: nat, a: string, b: string, c: string, d: string, e: string)
    requires q + |a| + |b| + |c| + |d| + |e| <= |js|
    requires js[q..q + |a|] == a && js[q + |a|..q + |a| + |b|] == b
    requires js[q + |a| + |b|..q + |a| + |b| + |c|] == c
    requires js[q + |a| + |b| + |c|..q + |a| + |b| + |c| + |d|] == d
    requires js[q + |a| + |b| + |c| + |d|..q + |a| + |b| + |c| + |d| + |e|] == e
    ensures js[q..q + |a| + |b| + |c| + |d| + |e|] == a + b + c + d + e
  {
  }

  // The text is a tree with blanks around it, the tree an object with the key "type", and the
  // value of the key an object: up to its members, no other word is found.
  ghost predicate Holds(js: string, before: string, tree: Value, after: string): (r: bool)
    ensures r ==> tree.Obj? && tree.members.Member?
  {
    js == before + Render(tree) + after && AllWs(before) && AllWs(after) && tree.Obj? && Keyed(tree.members, "type")
  }

  lemma HoldsAt(js: string, before: string, tree: Value, after: string)
    requires Holds(js, before, tree, after)
    ensures At(js, 0, before) && At(js, |before|, Render(tree)) && |js| >= |before| + |Render(tree)|
  {
    hide At, Render;
    AtThree(before, Render(tree), after);
  }

  function BodyAt(before: string, tree: Value): nat
    requires tree.Obj? && tree.members.Member?
  {
    ValueAt(|before| + 1, tree.members)
  }

  lemma EnterBody(js: string, before: string, tree: Value, after: string, w: string)
    requires Holds(js, before, tree, after) && Word(w) && w != "type"
    requires tree.members.val.Obj? && tree.members.val.members.Member?
    ensures var v := tree.members.val;
      var b := BodyAt(before, tree);
      && 9 <= b + 1 <= |js| && At(js, b + 1, RenderMembers(v.members)) && At(js, b, Render(v))
      && Find(js, Q(w), 0) == Find(js, Q(w), b + 1)
      && b + |Render(v)| < |js|
  {
    hide Find, At, Render, RenderMembers, Q;
    HoldsAt(js, before, tree, after);
    WordLength(w);
    WordLength("type");
    QuoteNotBlank();
    SkipBlanks(js, Q(w), 0, before);
    EnterObject(js, |before|, tree, w);
    SkipKey(js, w, |before| + 1, tree.members, "type");
    MemberAt(js, |before| + 1, tree.members, "type");
    EnterObject(js, BodyAt(before, tree), tree.members.val, w);
    AtBound(js, |before| + 1 + |RenderMembers(tree.members)|, "}");
  }
}
