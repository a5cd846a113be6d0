/**
 Which strings and primitives `jsmn_parse` takes, and with which error it refuses the others.
 */
module JsmnLexemes {
  import opened Rfc8259
  import opened JsmnSpec
  import opened Texts

  // An ordinary character or an escape.
  predicate Part(s: string) {
    || (|s| == 1 && s[0] != '"' && s[0] != '\\' && s[0] != '\0')
    || (|s| == 2 && s[0] == '\\' && s[1] in "\"\\/bfnrt")
    || (|s| == 6 && s[0] == '\\' && s[1] == 'u' && forall k :: 2 <= k < 6 ==> IsHex(s[k]))
  }

  predicate Parts(parts: seq<string>) {
    forall k :: 0 <= k < |parts| ==> Part(parts[k])
  }

  ghost predicate Body(s: string) {
    exists parts :: Parts(parts) && Joined(parts) == s
  }

  // The `k` characters from `p` on are hexadecimal digits.
  predicate HexRun(js: string, p: nat, k: nat) {
    p + k <= |js| && forall j :: p <= j < p + k ==> IsHex(js[j])
  }

  // The first of four characters that is no digit is there, or the text ends before it.
  predicate BadDigits(js: string, p: nat) {
    exists k: nat :: k < 4 && HexRun(js, p, k) && p + k < |js| && js[p + k] != '\0' && !IsHex(js[p + k])
  }

  predicate CutDigits(js: string, p: nat) {
    exists k: nat :: k < 4 && HexRun(js, p, k) && AtEnd(js, p + k)
  }

  // A backslash with something after it that makes no escape.
  predicate BadEscape(js: string, n: nat) {
    && n + 1 < |js| && js[n] == '\\' && js[n + 1] !in "\"\\/bfnrt"
    && (js[n + 1] == 'u' ==> BadDigits(js, n + 2))
  }

  // The text ends here, or within the escape that starts here.
  predicate CutOff(js: string, n: nat) {
    || AtEnd(js, n)
    || (js[n] == '\\' && n + 1 == |js|)
    || (js[n] == '\\' && n + 1 < |js| && js[n + 1] == 'u' && CutDigits(js, n + 2))
  }

  lemma {:induction false} HexScanned(js: string, p: nat, n: nat) returns (k: nat)
    requires p <= |js|
    ensures k <= n && HexRun(js, p, k)
    ensures match ScanHex(js, p, n)
      case Found(q) => q == p + k && (k == n || AtEnd(js, q))
      case Bad(_) => k < n && p + k < |js| && js[p + k] != '\0' && !IsHex(js[p + k])
    decreases n
  {
    if n == 0 || AtEnd(js, p) || !IsHexDigit(js[p]) {
      k := 0;
    } else {
      k := HexScanned(js, p + 1, n - 1);
      k := k + 1;
    }
  }

  // An escape of four digits is passed.
  lemma {:induction false} HexPassed(js: string, p: nat, n: nat)
    requires HexRun(js, p, n)
    ensures ScanHex(js, p, n) == Found(p + n)
    decreases n
  {
    if n > 0 { HexPassed(js, p + 1, n - 1); }
  }

  lemma {:induction false} HexRefused(js: string, p: nat, k: nat, n: nat)
    requires k < n && HexRun(js, p, k) && p + k < |js| && js[p + k] != '\0' && !IsHex(js[p + k])
    ensures ScanHex(js, p, n).Bad?
    decreases n
  {
    if k > 0 { HexRefused(js, p + 1, k - 1, n - 1); }
  }

  // A part is passed over.
  lemma PartPassed(js: string, p: nat, part: string)
    requires Part(part) && p + |part| <= |js| && js[p..p + |part|] == part
    ensures ScanString(js, p) == ScanString(js, p + |part|)
  {
    hide ScanHex;
    assert forall k :: 0 <= k < |part| ==> js[p + k] == part[k];
    if |part| == 6 { HexPassed(js, p + 2, 4); }
  }

  lemma {:induction false} PartsPassed(js: string, p: nat, parts: seq<string>)
    requires Parts(parts) && p + |Joined(parts)| <= |js| && js[p..p + |Joined(parts)|] == Joined(parts)
    ensures ScanString(js, p) == ScanString(js, p + |Joined(parts)|)
    decreases |parts|
  {
    if parts != [] {
      hide ScanString, Part;
      var first, rest := parts[0], parts[1..];
      var n := p + |first|;
      assert js[p..n] == Joined(parts)[..|first|] == first;
      assert js[n..n + |Joined(rest)|] == Joined(parts)[|first|..] == Joined(rest);
      PartPassed(js, p, first);
      PartsPassed(js, n, rest);
    }
  }

  // What the scan does at one place: it stops there, or passes a part.
  lemma OnePart(js: string, p: nat) returns (part: string)
    requires p <= |js|
    ensures part == "" || (Part(part) && p + |part| <= |js| && js[p..p + |part|] == part)
    ensures part == "" ==>
      match ScanString(js, p)
      case Found(q) => q == p
      case Bad(code) => if code == ERROR_INVAL then BadEscape(js, p) else CutOff(js, p)
  {
    if AtEnd(js, p) || js[p] == '"' || (js[p] == '\\' && p + 1 == |js|) {
      part := "";
    } else if js[p] != '\\' {
      part := js[p..p + 1];
    } else if IsSimpleEscape(js[p + 1]) {
      part := js[p..p + 2];
    } else if js[p + 1] == 'u' {
      part := UnicodePart(js, p);
    } else {
      part := "";
    }
  }

  lemma UnicodePart(js: string, p: nat) returns (part: string)
    requires p + 1 < |js| && js[p] == '\\' && js[p + 1] == 'u'
    ensures part == "" || (Part(part) && p + |part| <= |js| && js[p..p + |part|] == part)
    ensures part == "" ==>
      match ScanString(js, p)
      case Found(q) => q == p
      case Bad(code) => if code == ERROR_INVAL then BadEscape(js, p) else CutOff(js, p)
  {
    var k := HexScanned(js, p + 2, 4);
    if k == 4 {
      part := js[p..p + 6];
    } else {
      part := "";
    }
  }

  // The parts the scan passes before it stops, and why it stops.
  lemma {:induction false} ScannedParts(js: string, p: nat) returns (parts: seq<string>, n: nat)
    requires p <= |js|
    ensures p <= n <= |js| && Parts(parts) && Joined(parts) == js[p..n]
    ensures match ScanString(js, p)
      case Found(q) => q == n
      case Bad(code) => if code == ERROR_INVAL then BadEscape(js, n) else CutOff(js, n)
    decreases |js| - p
  {
    hide ScanString, BadEscape, CutOff, Part;
    var part := OnePart(js, p);
    if part == "" {
      parts, n := [], p;
    } else {
      PartPassed(js, p, part);
      var rest;
      rest, n := ScannedParts(js, p + |part|);
      parts := [part] + rest;
      assert js[p..n] == part + js[p + |part|..n];
    }
  }

  /** A string ends at the first quote that only ordinary characters and whole escapes precede. */
  lemma StringFoundExactly(js: string, p: nat, q: nat)
    requires p <= |js|
    ensures ScanString(js, p) == Found(q) <==> p <= q < |js| && js[q] == '"' && Body(js[p..q])
  {
    hide BadEscape, CutOff, Part;
    if ScanString(js, p) == Found(q) {
      var parts, n := ScannedParts(js, p);
      assert Joined(parts) == js[p..q];
    }
    if p <= q < |js| && js[q] == '"' && Body(js[p..q]) {
      BodyPassed(js, p, q);
    }
  }

  lemma BodyPassed(js: string, p: nat, n: nat)
    requires p <= n <= |js| && Body(js[p..n])
    ensures ScanString(js, p) == ScanString(js, n)
  {
    hide ScanString, Part;
    var parts :| Parts(parts) && Joined(parts) == js[p..n];
    PartsPassed(js, p, parts);
  }

  /** A string is invalid exactly if after ordinary characters and whole escapes comes a backslash
      that makes no escape; otherwise, if there is no closing quote, the text is incomplete. */
  lemma StringRefusedExactly(js: string, p: nat)
    requires p <= |js|
    ensures ScanString(js, p) == Bad(ERROR_INVAL)
       <==> exists n :: p <= n <= |js| && Body(js[p..n]) && BadEscape(js, n)
  {
    hide Part, Body, BadEscape, CutOff;
    if ScanString(js, p) == Bad(ERROR_INVAL) {
      var parts, n := ScannedParts(js, p);
      IsBody(parts, js[p..n]);
    }
    if exists n :: p <= n <= |js| && Body(js[p..n]) && BadEscape(js, n) {
      var n :| p <= n <= |js| && Body(js[p..n]) && BadEscape(js, n);
      BadEscapeRefused(js, p, n);
    }
  }

  lemma IsBody(parts: seq<string>, s: string)
    requires Parts(parts) && Joined(parts) == s
    ensures Body(s)
  {
  }

  lemma BadEscapeRefused(js: string, p: nat, n: nat)
    requires p <= n <= |js| && Body(js[p..n]) && BadEscape(js, n)
    ensures ScanString(js, p) == Bad(ERROR_INVAL)
  {
    hide Body, Part, HexRun, ScanHex;
    BodyPassed(js, p, n);
    if js[n + 1] == 'u' {
      DigitsRefused(js, n + 2);
    }
  }

  lemma DigitsRefused(js: string, p: nat)
    requires BadDigits(js, p)
    ensures ScanHex(js, p, 4).Bad?
  {
    var k: nat :| k < 4 && HexRun(js, p, k) && p + k < |js| && js[p + k] != '\0' && !IsHex(js[p + k]);
    HexRefused(js, p, k, 4);
  }

  // ---------- primitives ----------

  predicate Delimits(js: string, k: nat) {
    k == |js| || (k < |js| && js[k] in "\t\r\n :,]}\0")
  }

  /** A primitive ends at the first delimiter, with printable characters before it; a character that
      is not printable makes it invalid. */
  lemma {:induction false} PrimitiveFoundExactly(js: string, p: nat, q: nat)
    requires p <= |js|
    ensures ScanPrimitive(js, p) == Found(q)
       <==> p <= q && Delimits(js, q) && forall k :: p <= k < q ==> !Delimits(js, k) && k < |js| && ' ' <= js[k] <= '~'
    decreases |js| - p
  {
    assert Delimits(js, p) <==> AtEnd(js, p) || IsDelimiter(js[p]);
    if !Delimits(js, p) && !IsUnprintable(js[p]) { PrimitiveFoundExactly(js, p + 1, q); }
  }
}
