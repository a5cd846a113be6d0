/**
 Base64 as the connector writes and reads it, against RFC 4648.
 Source: rest_vol.c, RV_base64_encode and RV_base64_decode.
 */
module Base64 {
  import opened Numbers
  import opened Wrappers

  type Sextet = n: int | 0 <= n < 64

  // The alphabets of section 4 (standard) and section 5 (URL and filename safe) of RFC 4648:
  // they differ in the last two characters.
  datatype Alphabet = Standard | UrlSafe

  function Char(a: Alphabet, n: Sextet): char {
    if n < 26 then (n + 'A' as int) as char
    else if n < 52 then (n - 26 + 'a' as int) as char
    else if n < 62 then (n - 52 + '0' as int) as char
    else if n == 62 then (if a == Standard then '+' else '-')
    else (if a == Standard then '/' else '_')
  }

  // The place of a character in an alphabet.
  function Place(a: Alphabet, c: char): Option<Sextet> {
    if 'A' <= c <= 'Z' then Some(c as int - 'A' as int)
    else if 'a' <= c <= 'z' then Some(c as int - 'a' as int + 26)
    else if '0' <= c <= '9' then Some(c as int - '0' as int + 52)
    else if c == Char(a, 62) then Some(62)
    else if c == Char(a, 63) then Some(63)
    else None
  }

  lemma PlaceOfChar(a: Alphabet, n: Sextet)
    ensures Place(a, Char(a, n)) == Some(n) && Char(a, n) != '='
  {
  }

  // Table 1 and table 2 of RFC 4648.
  function Upper(): (t: string) ensures |t| == 26 { "ABCDEFGHIJKLMNOPQRSTUVWXYZ" }
  function Lower(): (t: string) ensures |t| == 26 { "abcdefghijklmnopqrstuvwxyz" }
  function Figures(): (t: string) ensures |t| == 10 { "0123456789" }

  function Table(a: Alphabet): (t: string)
    ensures |t| == 64
  {
    Upper() + Lower() + Figures() + if a == Standard then "+/" else "-_"
  }

  lemma UpperChars(n: nat)
    requires n < 26
    ensures (n + 'A' as int) as char == Upper()[n]
  {
  }

  lemma LowerChars(n: nat)
    requires n < 26
    ensures (n + 'a' as int) as char == Lower()[n]
  {
  }

  lemma FigureChars(n: nat)
    requires n < 10
    ensures (n + '0' as int) as char == Figures()[n]
  {
  }

  lemma CharIsInTable(a: Alphabet, n: Sextet)
    ensures Char(a, n) == Table(a)[n]
  {
    hide Upper, Lower, Figures;
    if n < 26 {
      UpperChars(n);
    } else if n < 52 {
      LowerChars(n - 26);
    } else if n < 62 {
      FigureChars(n - 52);
    }
  }

  lemma CharOfPlace(a: Alphabet, c: char)
    requires Place(a, c).Some?
    ensures Char(a, Place(a, c).value) == c
  {
  }

  // ----- Section 4: three bytes become four characters, the last group is padded -----

  // The sextets of three bytes.
  function Sextet0(b0: Byte): Sextet { b0 as int / 4 }
  function Sextet1(b0: Byte, b1: Byte): Sextet { b0 as int % 4 * 16 + b1 as int / 16 }
  function Sextet2(b1: Byte, b2: Byte): Sextet { b1 as int % 16 * 4 + b2 as int / 64 }
  function Sextet3(b2: Byte): Sextet { b2 as int % 64 }

  function Group(a: Alphabet, b0: Byte, b1: Byte, b2: Byte): (g: string)
    ensures |g| == 4
  {
    [Char(a, Sextet0(b0)), Char(a, Sextet1(b0, b1)), Char(a, Sextet2(b1, b2)), Char(a, Sextet3(b2))]
  }

  function Encode(a: Alphabet, x: seq<Byte>): string {
    if |x| == 0 then ""
    else if |x| == 1 then Group(a, x[0], 0, 0)[..2] + "=="
    else if |x| == 2 then Group(a, x[0], x[1], 0)[..3] + "="
    else Group(a, x[0], x[1], x[2]) + Encode(a, x[3..])
  }

  // The bytes of four sextets.
  function Byte0(p: Sextet, q: Sextet): Byte { p as int * 4 + q as int / 16 }
  function Byte1(q: Sextet, r: Sextet): Byte { q as int % 16 * 16 + r as int / 4 }
  function Byte2(r: Sextet, s: Sextet): Byte { r as int % 4 * 64 + s as int }

  // A decoder written from the same section: padding only in the last group, and its unused
  // bits are zero.
  function Decode(a: Alphabet, y: string): Option<seq<Byte>> {
    if |y| == 0 then Some([])
    else if |y| < 4 then None
    else
      match (Place(a, y[0]), Place(a, y[1]), Place(a, y[2]), Place(a, y[3]))
      case (Some(p), Some(q), Some(r), Some(s)) =>
        (match Decode(a, y[4..])
         case Some(rest) => Some([Byte0(p, q), Byte1(q, r), Byte2(r, s)] + rest)
         case None => None)
      case (Some(p), Some(q), Some(r), None) =>
        if |y| == 4 && y[3] == '=' && r % 4 == 0 then Some([Byte0(p, q), Byte1(q, r)]) else None
      case (Some(p), Some(q), None, _) =>
        if |y| == 4 && y[2] == '=' && y[3] == '=' && q % 16 == 0 then Some([Byte0(p, q)]) else None
      case _ => None
  }

  // Cutting bytes into sextets and gluing them together gives the bytes.
  lemma Regroup(b0: Byte, b1: Byte, b2: Byte)
    ensures Byte0(Sextet0(b0), Sextet1(b0, b1)) == b0
    ensures Byte1(Sextet1(b0, b1), Sextet2(b1, b2)) == b1
    ensures Byte2(Sextet2(b1, b2), Sextet3(b2)) == b2
  {
  }

  lemma Sextets(a: Alphabet, b0: Byte, b1: Byte, b2: Byte)
    ensures var g := Group(a, b0, b1, b2);
            && Place(a, g[0]) == Some(Sextet0(b0)) && Place(a, g[1]) == Some(Sextet1(b0, b1))
            && Place(a, g[2]) == Some(Sextet2(b1, b2)) && Place(a, g[3]) == Some(Sextet3(b2))
  {
    hide Place, Char, Sextet0, Sextet1, Sextet2, Sextet3;
    PlaceOfChar(a, Sextet0(b0));
    PlaceOfChar(a, Sextet1(b0, b1));
    PlaceOfChar(a, Sextet2(b1, b2));
    PlaceOfChar(a, Sextet3(b2));
  }

  // The bits of the last sextet that padding leaves unused are zero.
  lemma LastBits(b0: Byte, b1: Byte)
    ensures Sextet2(b1, 0) % 4 == 0 && Sextet1(b0, 0) % 16 == 0
  {
  }

  lemma {:induction false} DecodeEncode(a: Alphabet, x: seq<Byte>)
    ensures Decode(a, Encode(a, x)) == Some(x)
  {
    hide Place, Char, Group, Byte0, Byte1, Byte2, Sextet0, Sextet1, Sextet2, Sextet3;
    PadIsNoPlace(a);
    if |x| >= 3 {
      DecodeEncode(a, x[3..]);
      assert Encode(a, x)[4..] == Encode(a, x[3..]);
      Sextets(a, x[0], x[1], x[2]);
      Regroup(x[0], x[1], x[2]);
      assert x == [x[0], x[1], x[2]] + x[3..];
    } else if |x| == 2 {
      assert x == [x[0], x[1]];
      Sextets(a, x[0], x[1], 0);
      Regroup(x[0], x[1], 0);
      LastBits(x[0], x[1]);
    } else if |x| == 1 {
      assert x == [x[0]];
      Sextets(a, x[0], 0, 0);
      Regroup(x[0], 0, 0);
      LastBits(x[0], 0);
    }
  }

  /** The vectors of section 10 of RFC 4648: the encodings of the beginnings of "foobar". */
  lemma TestVectors()
    ensures Encode(Standard, []) == "" && Encode(Standard, [102]) == "Zg=="
    ensures Encode(Standard, [102, 111]) == "Zm8=" && Encode(Standard, [102, 111, 111]) == "Zm9v"
    ensures Encode(Standard, [102, 111, 111, 98]) == "Zm9vYg=="
    ensures Encode(Standard, [102, 111, 111, 98, 97]) == "Zm9vYmE="
    ensures Encode(Standard, [102, 111, 111, 98, 97, 114]) == "Zm9vYmFy"
  {
    assert Group(Standard, 102, 111, 111) == "Zm9v";
    var x: seq<Byte> := [102, 111, 111, 98, 97, 114];
    assert x[3..] == [98, 97, 114] && x[..5][3..] == [98, 97] && x[..4][3..] == [98];
    assert [102, 111, 111, 98, 97] == x[..5] && [102, 111, 111, 98] == x[..4];
  }

  lemma PadIsNoPlace(a: Alphabet)
    ensures Place(a, '=') == None
  {
  }

  lemma {:induction false} EncodeLength(a: Alphabet, x: seq<Byte>)
    ensures |Encode(a, x)| == 4 * ((|x| + 2) / 3)
  {
    hide Group;
    if |x| >= 3 {
      EncodeLength(a, x[3..]);
    }
  }

  // ----- The encoder of the connector -----

  lemma Quotient(q: int, k: int, r: int)
    requires 0 <= r < k
    ensures (q * k + r) / k == q && (q * k + r) % k == r
  {
    var d, m := (q * k + r) / k, (q * k + r) % k;
    assert d * k + m == q * k + r;
    assert d < q ==> (d + 1) * k <= q * k;
    assert d > q ==> (q + 1) * k <= d * k;
  }

  // Shifting and masking the 24-bit number three bytes make gives their sextets.
  lemma WordSextets(b0: Byte, b1: Byte, b2: Byte)
    ensures var n := b0 as int * 0x10000 + b1 as int * 0x100 + b2 as int;
            && n / 0x40000 % 64 == Sextet0(b0) && n / 0x1000 % 64 == Sextet1(b0, b1)
            && n / 64 % 64 == Sextet2(b1, b2) && n % 64 == Sextet3(b2)
  {
    var x, y, z: int := b0, b1, b2;
    Quotient(x / 4, 0x40000, x % 4 * 0x10000 + y * 0x100 + z);
    Quotient(x * 16 + y / 16, 0x1000, y % 16 * 0x100 + z);
    Quotient(x / 4, 64, x % 4 * 16 + y / 16);
    Quotient(x * 1024 + y * 4 + z / 64, 64, z % 64);
    Quotient(x * 16 + y / 16, 64, y % 16 * 4 + z / 64);
  }

  // What is still to be written when the first `i` bytes have been read: `i` moves in steps
  // of three, so it may end beyond the input, with the padding left to write.
  function Remaining(x: seq<Byte>, i: nat): string
    requires i <= |x| + 2
  {
    if i <= |x| then Encode(Standard, x[i..])
    else if i == |x| + 1 then "="
    else "=="
  }

  lemma GroupWritten(x: seq<Byte>, i: nat)
    requires i < |x|
    ensures var b1: Byte := if i + 1 < |x| then x[i + 1] else 0;
            var b2: Byte := if i + 2 < |x| then x[i + 2] else 0;
            var g := Group(Standard, x[i], b1, b2);
            Remaining(x, i) ==
            (if i + 2 < |x| then g else if i + 1 < |x| then g[..3] else g[..2]) + Remaining(x, i + 3)
  {
    hide Group;
    assert x[i..][0] == x[i];
    if i + 2 < |x| {
      assert x[i..][1] == x[i + 1] && x[i..][2] == x[i + 2];
      assert x[i..][3..] == x[i + 3..];
    } else if i + 1 < |x| {
      assert x[i..][1] == x[i + 1];
    }
  }

  lemma NothingWritten(x: seq<Byte>)
    ensures "" + Remaining(x, 0) == Encode(Standard, x)
  {
    assert x[0..] == x;
  }

  // At the end only the padding remains.
  lemma AllWritten(x: seq<Byte>, i: nat)
    requires |x| <= i <= |x| + 2
    ensures Remaining(x, i) == ["", "=", "=="][i - |x|]
  {
  }

  method Base64Encode(buf: seq<Byte>) returns (out: string)
    ensures out == Encode(Standard, buf)
  {
    hide Encode, Char, Remaining, Sextet0, Sextet1, Sextet2, Sextet3;
    out := "";
    var i := 0;
    ghost var groups := 0;
    NothingWritten(buf);
    while i < |buf|
      invariant i <= |buf| + 2
      invariant out + Remaining(buf, i) == Encode(Standard, buf)
      invariant i == 3 * groups && |out| == 4 * groups - if i <= |buf| then 0 else i - |buf|
      decreases |buf| - i
    {
      ghost var before := out;
      GroupWritten(buf, i);
      var threeByteSet: int := buf[i] as int * 0x10000;
      if i + 1 < |buf| {
        threeByteSet := threeByteSet + buf[i + 1] as int * 0x100;
      }
      if i + 2 < |buf| {
        threeByteSet := threeByteSet + buf[i + 2] as int;
      }
      var c0, c1 := threeByteSet / 0x40000 % 64, threeByteSet / 0x1000 % 64;
      var c2, c3 := threeByteSet / 64 % 64, threeByteSet % 64;
      out := out + [Char(Standard, c0)];
      out := out + [Char(Standard, c1)];
      if i + 1 < |buf| {
        out := out + [Char(Standard, c2)];
      }
      if i + 2 < |buf| {
        out := out + [Char(Standard, c3)];
      }
      ghost var b1: Byte := if i + 1 < |buf| then buf[i + 1] else 0;
      ghost var b2: Byte := if i + 2 < |buf| then buf[i + 2] else 0;
      ghost var g := Group(Standard, buf[i], b1, b2);
      ghost var part := if i + 2 < |buf| then g else if i + 1 < |buf| then g[..3] else g[..2];
      WordSextets(buf[i], b1, b2);
      OneByOne(before, g);
      AppendedTwice(before, part, Remaining(buf, i + 3));
      i, groups := i + 3, groups + 1;
    }
    AllWritten(buf, i);
    var npad := (4 - |out| % 4) % 4;
    while npad > 0
      invariant 0 <= npad <= 2
      invariant out + ["", "=", "=="][npad] == Encode(Standard, buf)
    {
      out := out + "=";
      npad := npad - 1;
    }
  }

  lemma OneByOne(s: string, g: string)
    requires |g| == 4
    ensures s + [g[0]] + [g[1]] == s + g[..2]
    ensures s + [g[0]] + [g[1]] + [g[2]] == s + g[..3]
    ensures s + [g[0]] + [g[1]] + [g[2]] + [g[3]] == s + g
  {
  }

  lemma AppendedTwice(s: string, t: string, u: string)
    ensures s + (t + u) == s + t + u
  {
  }

  // ----- The decoder of the connector -----

  // One group of four characters. Padding in the last place means a single byte, whatever
  // stands in the third place; a character that is not in the alphabet has no meaning here
  // (the source computes with the null pointer strchr returns for it).
  function DecodedGroup(g: string): Option<seq<Byte>>
    requires |g| == 4
  {
    match (Place(UrlSafe, g[0]), Place(UrlSafe, g[1]), Place(UrlSafe, g[2]), Place(UrlSafe, g[3]))
    case (Some(p), Some(q), Some(r), Some(s)) => Some([Byte0(p, q), Byte1(q, r), Byte2(r, s)])
    case (Some(p), Some(q), _, None) => if g[3] == '=' then Some([Byte0(p, q)]) else None
    case _ => None
  }

  function Decoded(y: string): Option<seq<Byte>> {
    if |y| == 0 then Some([])
    else if |y| < 4 then None
    else
      match (DecodedGroup(y[..4]), Decoded(y[4..]))
      case (Some(first), Some(rest)) => Some(first + rest)
      case _ => None
  }

  lemma DecodedStep(y: string, i: nat, out: seq<Byte>)
    requires |y| % 4 == 0 && i % 4 == 0 && i < |y|
    ensures Ahead(out, Decoded(y[i..])) ==
            match DecodedGroup(y[i..i + 4]) case Some(g) => Ahead(out + g, Decoded(y[i + 4..])) case None => None
  {
    assert y[i..][..4] == y[i..i + 4] && y[i..][4..] == y[i + 4..];
    match (DecodedGroup(y[i..i + 4]), Decoded(y[i + 4..]))
    case (Some(g), Some(rest)) => assert out + (g + rest) == out + g + rest;
    case _ =>
  }

  function Ahead(out: seq<Byte>, rest: Option<seq<Byte>>): Option<seq<Byte>> {
    match rest case Some(r) => Some(out + r) case None => None
  }

  lemma GlueTwo(p: Sextet, q: Sextet)
    ensures (p as int * 64 + q as int) / 16 % 256 == Byte0(p, q)
  {
    Quotient(p as int * 4 + q as int / 16, 16, q as int % 16);
  }

  lemma GlueFour(p: Sextet, q: Sextet, r: Sextet, s: Sextet)
    ensures var n := p as int * 0x40000 + q as int * 0x1000 + r as int * 64 + s as int;
            n / 0x10000 % 256 == Byte0(p, q) && n / 0x100 % 256 == Byte1(q, r) && n % 256 == Byte2(r, s)
  {
    var u, v, w, x: int := p, q, r, s;
    Quotient(u * 4 + v / 16, 0x10000, v % 16 * 0x1000 + w * 64 + x);
    Quotient(u * 0x400 + v * 16 + w / 4, 0x100, w % 4 * 64 + x);
    Quotient(u * 4 + v / 16, 256, v % 16 * 16 + w / 4);
  }

  lemma Bytewise(s: seq<Byte>, b0: Byte, b1: Byte, b2: Byte)
    ensures s + [b0] + [b1] + [b2] == s + [b0, b1, b2]
  {
  }

  // The decoder takes as many characters as make whole groups of four, as every encoder
  // writes, and its input is a C string. It ends its output with a zero byte, which is counted in.
  method Base64Decode(buf: string) returns (r: Option<seq<Byte>>)
    requires |buf| % 4 == 0 && (0 as char) !in buf
    ensures r == match Decoded(buf) case Some(x) => Some(x + [0]) case None => None
  {
    hide Decoded, Place, Byte0, Byte1, Byte2;
    var out: seq<Byte> := [];
    var i := 0;
    DecodedStart(buf);
    PadIsNoPlace(UrlSafe);
    while i < |buf|
      invariant i <= |buf| && i % 4 == 0
      invariant Ahead(out, Decoded(buf[i..])) == Decoded(buf)
    {
      DecodedStep(buf, i, out);
      var c0, c1 := Place(UrlSafe, buf[i]), Place(UrlSafe, buf[i + 1]);
      var c2, c3 := Place(UrlSafe, buf[i + 2]), Place(UrlSafe, buf[i + 3]);
      if c0 == None || c1 == None {
        return None;
      }
      if buf[i + 3] == '=' {
        var fourByteSet: int := c0.value as int * 64 + c1.value as int;
        fourByteSet := fourByteSet / 16;
        GlueTwo(c0.value, c1.value);
        out := out + [fourByteSet % 256];
      } else if buf[i + 2] == '=' || c2 == None || c3 == None {
        return None;
      } else {
        var fourByteSet: int :=
          c0.value as int * 0x40000 + c1.value as int * 0x1000 + c2.value as int * 64 + c3.value as int;
        GlueFour(c0.value, c1.value, c2.value, c3.value);
        ghost var before := out;
        out := out + [fourByteSet / 0x10000 % 256];
        out := out + [fourByteSet / 0x100 % 256];
        out := out + [fourByteSet % 256];
        Bytewise(before, fourByteSet / 0x10000 % 256, fourByteSet / 0x100 % 256, fourByteSet % 256);
      }
      i := i + 4;
    }
    DecodedEnd(buf, out);
    return Some(out + [0]);
  }

  lemma DecodedStart(y: string)
    ensures Ahead([], Decoded(y[0..])) == Decoded(y)
  {
    assert y[0..] == y;
    match Decoded(y)
    case Some(x) => assert [] + x == x;
    case None =>
  }

  lemma DecodedEnd(y: string, out: seq<Byte>)
    ensures Ahead(out, Decoded(y[|y|..])) == Some(out)
  {
    assert out + [] == out;
  }

  // ----- What the decoder makes of an encoding -----

  lemma LastGroup(g: string)
    requires |g| == 4
    ensures Decoded(g) == DecodedGroup(g)
  {
    assert g[..4] == g && g[4..] == "";
    match DecodedGroup(g)
    case Some(first) => assert first + [] == first;
    case None =>
  }

  lemma FullGroup(x: seq<Byte>)
    requires |x| >= 3
    ensures Decoded(Encode(UrlSafe, x)) == Ahead([x[0], x[1], x[2]], Decoded(Encode(UrlSafe, x[3..])))
  {
    hide Place, Group, Byte0, Byte1, Byte2, Sextet0, Sextet1, Sextet2, Sextet3;
    Sextets(UrlSafe, x[0], x[1], x[2]);
    Regroup(x[0], x[1], x[2]);
    assert Encode(UrlSafe, x)[..4] == Group(UrlSafe, x[0], x[1], x[2]);
    assert Encode(UrlSafe, x)[4..] == Encode(UrlSafe, x[3..]);
  }

  lemma PaddedGroup(x: seq<Byte>)
    requires |x| == 1 || |x| == 2
    ensures Decoded(Encode(UrlSafe, x)) == Some([x[0]])
  {
    hide Decoded, Place, Group, Byte0, Byte1, Byte2, Sextet0, Sextet1, Sextet2, Sextet3;
    var b1 := if |x| == 2 then x[1] else 0;
    Sextets(UrlSafe, x[0], b1, 0);
    Regroup(x[0], b1, 0);
    PadIsNoPlace(UrlSafe);
    LastGroup(Encode(UrlSafe, x));
  }

  // Gluing sextets into bytes and cutting them again gives the sextets.
  lemma Ungroup(p: Sextet, q: Sextet, r: Sextet, s: Sextet)
    ensures Sextet0(Byte0(p, q)) == p && Sextet1(Byte0(p, q), Byte1(q, r)) == q
    ensures Sextet2(Byte1(q, r), Byte2(r, s)) == r && Sextet3(Byte2(r, s)) == s
    ensures Sextet1(Byte0(p, q), Byte1(q, 0)) == q
  {
  }

  // A group that ends in padding is the first byte of some encoding of at least two bytes.
  ghost predicate FirstByteOnly(g: string, b: Byte)
    requires |g| == 4
  {
    g[3] == '=' && exists next: Byte :: g[..2] == Group(UrlSafe, b, next, 0)[..2]
  }

  /** Any group of four characters: without padding at its end it is read as the three bytes it is
      the encoding of, with padding as one byte, and otherwise not at all. */
  lemma GroupExactly(g: string, x: seq<Byte>)
    requires |g| == 4
    ensures DecodedGroup(g) == Some(x) <==>
      || (|x| == 3 && Group(UrlSafe, x[0], x[1], x[2]) == g)
      || (|x| == 1 && FirstByteOnly(g, x[0]))
  {
    hide Place, Char, Byte0, Byte1, Byte2, Sextet0, Sextet1, Sextet2, Sextet3;
    PadIsNoPlace(UrlSafe);
    if DecodedGroup(g).Some? { ReadGroup(g); }
    if |x| == 3 && Group(UrlSafe, x[0], x[1], x[2]) == g {
      Sextets(UrlSafe, x[0], x[1], x[2]);
      Regroup(x[0], x[1], x[2]);
      assert x == [x[0], x[1], x[2]];
    }
    if |x| == 1 && FirstByteOnly(g, x[0]) {
      var next: Byte :| g[..2] == Group(UrlSafe, x[0], next, 0)[..2];
      assert g[0] == g[..2][0] && g[1] == g[..2][1];
      Sextets(UrlSafe, x[0], next, 0);
      Regroup(x[0], next, 0);
      assert x == [x[0]];
    }
  }

  lemma ReadGroup(g: string)
    requires |g| == 4 && DecodedGroup(g).Some?
    ensures var x := DecodedGroup(g).value;
      || (|x| == 3 && Group(UrlSafe, x[0], x[1], x[2]) == g)
      || (|x| == 1 && FirstByteOnly(g, x[0]))
  {
    hide Place, Char, Byte0, Byte1, Byte2, Sextet0, Sextet1, Sextet2, Sextet3;
    var p, q := Place(UrlSafe, g[0]).value, Place(UrlSafe, g[1]).value;
    CharOfPlace(UrlSafe, g[0]);
    CharOfPlace(UrlSafe, g[1]);
    match (Place(UrlSafe, g[2]), Place(UrlSafe, g[3]))
    case (Some(r), Some(s)) =>
      Ungroup(p, q, r, s);
      CharOfPlace(UrlSafe, g[2]);
      CharOfPlace(UrlSafe, g[3]);
    case _ =>
      Ungroup(p, q, 0, 0);
      assert g[..2] == Group(UrlSafe, Byte0(p, q), Byte1(q, 0), 0)[..2];
  }

  /** A text is read group by group. */
  lemma {:induction false} DecodedAppend(y: string, z: string)
    requires |y| % 4 == 0
    ensures Decoded(y + z) ==
      match Decoded(y) case Some(x) => Ahead(x, Decoded(z)) case None => None
    decreases |y|
  {
    hide DecodedGroup;
    if y == "" {
      assert y + z == z;
      match Decoded(z) case Some(x) => assert [] + x == x; case None =>
    } else {
      assert (y + z)[..4] == y[..4] && (y + z)[4..] == y[4..] + z;
      DecodedAppend(y[4..], z);
      match (DecodedGroup(y[..4]), Decoded(y[4..]), Decoded(z))
      case (Some(a), Some(b), Some(c)) => assert a + (b + c) == a + b + c;
      case _ =>
    }
  }

  // What of the input survives: all of it, unless it ends in a group of two bytes.
  function Kept(x: seq<Byte>): seq<Byte> {
    if |x| % 3 == 2 then x[..|x| - 1] else x
  }

  lemma KeptStep(x: seq<Byte>)
    requires |x| >= 3
    ensures Kept(x) == [x[0], x[1], x[2]] + Kept(x[3..])
  {
    assert |x[3..]| % 3 == |x| % 3;
  }

  lemma KeptEnd(x: seq<Byte>)
    requires |x| < 3
    ensures Kept(x) == if |x| == 0 then [] else [x[0]]
  {
  }

  // Text in the decoder's own alphabet: it gives back the input, except that when one
  // character of padding is at the end the last byte is missing.
  lemma {:induction false} DecodedUrlSafe(x: seq<Byte>)
    ensures Decoded(Encode(UrlSafe, x)) == Some(Kept(x))
  {
    if |x| >= 3 {
      hide Decoded, Encode, Kept;
      FullGroup(x);
      DecodedUrlSafe(x[3..]);
      KeptStep(x);
    } else if |x| > 0 {
      hide Decoded, Encode, Kept;
      PaddedGroup(x);
      KeptEnd(x);
    }
  }

  // The input comes back exactly when its length leaves no single character of padding.
  lemma UrlSafeComesBack(x: seq<Byte>)
    ensures Decoded(Encode(UrlSafe, x)) == Some(x) <==> |x| % 3 != 2
  {
    hide Decoded, Encode;
    DecodedUrlSafe(x);
  }

  predicate OnlyCommon(y: string) {
    '+' !in y && '/' !in y
  }

  // Text the connector itself has encoded: exactly when the two characters that the decoder's
  // alphabet lacks do not occur, and again there is no single character of padding.
  lemma StandardComesBack(x: seq<Byte>)
    ensures Decoded(Encode(Standard, x)) == Some(x) <==> OnlyCommon(Encode(Standard, x)) && |x| % 3 != 2
  {
    DecodedUrlSafe(x);
    if OnlyCommon(Encode(Standard, x)) {
      SameWithoutTheLastTwo(x);
    } else {
      ForeignCharacters(x);
    }
  }

  lemma {:induction false} SameWithoutTheLastTwo(x: seq<Byte>)
    requires OnlyCommon(Encode(Standard, x))
    ensures Encode(Standard, x) == Encode(UrlSafe, x)
  {
    hide Sextet0, Sextet1, Sextet2, Sextet3;
    if |x| >= 3 {
      var g := Group(Standard, x[0], x[1], x[2]);
      assert Encode(Standard, x) == g + Encode(Standard, x[3..]);
      SameWithoutTheLastTwo(x[3..]);
      assert g[0] in g && g[1] in g && g[2] in g && g[3] in g;
    } else if |x| == 2 {
      var g := Group(Standard, x[0], x[1], 0);
      assert g[0] in g[..3] && g[1] in g[..3] && g[2] in g[..3];
    } else if |x| == 1 {
      var g := Group(Standard, x[0], 0, 0);
      assert g[0] in g[..2] && g[1] in g[..2];
    }
  }

  lemma {:induction false} ForeignCharacters(x: seq<Byte>)
    requires !OnlyCommon(Encode(Standard, x))
    ensures Decoded(Encode(Standard, x)) == None
  {
    hide Char, Place, Sextet0, Sextet1, Sextet2, Sextet3;
    PadIsNoPlace(UrlSafe);
    if |x| >= 3 {
      var g := Group(Standard, x[0], x[1], x[2]);
      assert Encode(Standard, x)[..4] == g && Encode(Standard, x)[4..] == Encode(Standard, x[3..]);
      if OnlyCommon(g) {
        ForeignCharacters(x[3..]);
      } else {
        ForeignSextets(x[0], x[1], x[2]);
      }
    } else if |x| == 2 {
      ForeignSextets(x[0], x[1], 0);
      LastBits(x[0], x[1]);
    } else if |x| == 1 {
      ForeignSextets(x[0], 0, 0);
    }
  }

  // A foreign character in a group makes the whole group unreadable, unless it stands where
  // the unused bits of padding are.
  lemma ForeignSextets(b0: Byte, b1: Byte, b2: Byte)
    ensures var g := Group(Standard, b0, b1, b2);
            forall k :: 0 <= k < 4 ==> (g[k] == '+' || g[k] == '/' <==> Place(UrlSafe, g[k]) == None)
    ensures b2 == 0 ==> Group(Standard, b0, b1, b2)[2] != '+' && Group(Standard, b0, b1, b2)[2] != '/'
  {
  }
}
