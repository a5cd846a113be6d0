/**
 Printing a datatype and reading the text back, with any whitespace between its tokens.
 */
module DatatypeRoundTrip {
  import opened R = Rfc8259
  import opened JsonReader
  import opened Wrappers
  import opened Numbers
  import opened Datatype
  import opened DatatypeText
  import opened DatatypeReader
  import opened DatatypeSpacing
  import opened DatatypeSearch

  // ---------- looking up in the tree of printed text ----------

  lemma PlainsString(s: string)
    ensures StringOf(Text(s)) == Some(s)
  {
    assert Chars(Plains(s)) == s;
  }

  lemma GetWrap(members: Members, k: string)
    ensures Get(Wrap("", "", Obj("", members)), k) == Lookup(members, k)
  {
    PlainsString("type");
  }

  // What the two members every leaf type starts with answer to a lookup.
  lemma TwoStrings(pre: string, cls: string, base: string)
    ensures var tree := Wrap("", "", Obj("", Mem("", "class", Text(cls), Mem(pre, "base", Text(base), NoMembers))));
      GetString(tree, "class") == Some(cls) && GetString(tree, "base") == Some(base)
  {
    hide Lookup, Get, StringOf, Text, Wrap;
    var m2 := Mem(pre, "base", Text(base), NoMembers);
    var m1 := Mem("", "class", Text(cls), m2);
    GetWrap(m1, "class");
    GetWrap(m1, "base");
    StringLookup("", "class", Text(cls), m2);
    StringLookup(pre, "base", Text(base), NoMembers);
    PlainsString(cls);
    PlainsString(base);
  }

  lemma StringLookups(pad: string, length: Value)
    ensures var tree := Wrap("", "", StringTree(pad, length));
      && GetString(tree, "class") == Some("H5T_STRING") && GetString(tree, "charSet") == Some("H5T_CSET_ASCII")
      && GetString(tree, "strPad") == Some(pad) && Get(tree, "length") == Some(length)
  {
    hide Lookup, Get, StringOf, Text, Wrap;
    var m4 := Mem(" ", "length", length, NoMembers);
    var m3 := Mem(" ", "strPad", Text(pad), m4);
    var m2 := Mem(" ", "charSet", Text("H5T_CSET_ASCII"), m3);
    var m1 := Mem("", "class", Text("H5T_STRING"), m2);
    GetWrap(m1, "class");
    GetWrap(m1, "charSet");
    GetWrap(m1, "strPad");
    GetWrap(m1, "length");
    StringLookup("", "class", Text("H5T_STRING"), m2);
    StringLookup(" ", "charSet", Text("H5T_CSET_ASCII"), m3);
    StringLookup(" ", "strPad", Text(pad), m4);
    StringLookup(" ", "length", length, NoMembers);
    PlainsString("H5T_STRING");
    PlainsString("H5T_CSET_ASCII");
    PlainsString(pad);
  }

  lemma StringLookup(pre: string, key: string, val: Value, rest: Members)
    ensures Lookup(Mem(pre, key, val, rest), key) == Some(val)
    ensures forall k :: k != key ==> Lookup(Mem(pre, key, val, rest), k) == Lookup(rest, k)
  {
    PlainsString(key);
  }

  lemma ThreeLookups(cls: string, base: Value, key: string, val: Value)
    requires key != "class" && key != "base"
    ensures var tree := Wrap("", "", Obj("", Mem("", "class", Text(cls), Mem(" ", "base", base, Mem(" ", key, val, NoMembers)))));
      GetString(tree, "class") == Some(cls) && Get(tree, key) == Some(val)
  {
    hide Lookup, Get, StringOf, Text, Wrap;
    var m3 := Mem(" ", key, val, NoMembers);
    var m2 := Mem(" ", "base", base, m3);
    var m1 := Mem("", "class", Text(cls), m2);
    GetWrap(m1, "class");
    GetWrap(m1, key);
    StringLookup("", "class", Text(cls), m2);
    StringLookup(" ", "base", base, m3);
    StringLookup(" ", key, val, NoMembers);
    PlainsString(cls);
  }

  lemma CompoundLookups(items: Items)
    ensures var tree := Wrap("", "", Obj("", Mem("", "class", Text("H5T_COMPOUND"), Mem(" ", "fields", Arr("", items), NoMembers))));
      GetString(tree, "class") == Some("H5T_COMPOUND") && Get(tree, "fields") == Some(Arr("", items))
  {
    hide Lookup, Get, StringOf, Text, Wrap;
    var m2 := Mem(" ", "fields", Arr("", items), NoMembers);
    var m1 := Mem("", "class", Text("H5T_COMPOUND"), m2);
    GetWrap(m1, "class");
    GetWrap(m1, "fields");
    StringLookup("", "class", Text("H5T_COMPOUND"), m2);
    StringLookup(" ", "fields", Arr("", items), NoMembers);
    PlainsString("H5T_COMPOUND");
  }

  // ---------- the shape of a tree that is like a printed one ----------

  // The tree has the key "type" first, and behind it a tree like the type's.
  lemma Unwrap(tree: Value, t: DType)
    requires Supported(t) && Valid(tree) && Like(tree, Wrap("", "", Tree(t)))
    ensures tree.Obj? && Keyed(tree.members, "type") && tree.members.rest.NoMembers?
    ensures Like(tree.members.val, Tree(t)) && Valid(tree.members.val)
  {
    hide Tree, Plains, AllWs, Supported, Keyed;
    var m := Member("", Plains("type"), "", "", Tree(t), "", NoMembers);
    NextKeyed(tree.members, m, "type");
  }

  lemma NextKeyed(m: Members, n: Members, key: string)
    requires n.Member? && n.key == Plains(key)
    requires ValidMembers(m) && SqueezeMembers(m) == SqueezeMembers(n)
    ensures Keyed(m, key) && Like(m.val, n.val) && Valid(m.val)
    ensures ValidMembers(m.rest) && SqueezeMembers(m.rest) == SqueezeMembers(n.rest)
    ensures m.rest.NoMembers? <==> n.rest.NoMembers?
  {
    hide Squeeze, Valid, Plains, AllWs;
    SqueezedEnd(m);
    SqueezedEnd(n);
    SqueezedEnd(m.rest);
    SqueezedEnd(n.rest);
  }

  lemma SqueezedEnd(m: Members)
    ensures SqueezeMembers(m).NoMembers? <==> m.NoMembers?
  {
  }

  lemma LikeText(v: Value, s: string)
    requires Like(v, Text(s))
    ensures v == Text(s)
  {
  }

  lemma TwoShape(v: Value, cls: string, pre: string, key: string, val: Value)
    requires Valid(v) && Like(v, Obj("", Mem("", "class", Text(cls), Mem(pre, key, val, NoMembers))))
    ensures v.Obj? && Keyed(v.members, "class") && v.members.val == Text(cls)
    ensures var m := v.members.rest; Keyed(m, key) && m.rest.NoMembers? && Like(m.val, val) && Valid(m.val)
  {
    hide Keyed, Text, Plains, AllWs;
    var m2 := Mem(pre, key, val, NoMembers);
    NextKeyed(v.members, Mem("", "class", Text(cls), m2), "class");
    LikeText(v.members.val, cls);
    NextKeyed(v.members.rest, m2, key);
  }

  lemma ThreeShape(v: Value, cls: string, base: Value, key: string, val: Value)
    requires Valid(v)
    requires Like(v, Obj("", Mem("", "class", Text(cls), Mem(" ", "base", base, Mem(" ", key, val, NoMembers)))))
    ensures v.Obj? && Keyed(v.members, "class") && v.members.val == Text(cls)
    ensures var m := v.members.rest; Keyed(m, "base") && Like(m.val, base) && Valid(m.val)
  {
    hide Keyed, Text, Plains, AllWs;
    var m2 := Mem(" ", "base", base, Mem(" ", key, val, NoMembers));
    NextKeyed(v.members, Mem("", "class", Text(cls), m2), "class");
    LikeText(v.members.val, cls);
    NextKeyed(v.members.rest, m2, "base");
  }

  lemma LikeObject(v: Value, w: Value)
    requires Like(v, w) && w.Obj? && w.members.Member?
    ensures v.Obj? && v.members.Member?
  {
    hide SqueezeMembers;
    SqueezedEnd(v.members);
    SqueezedEnd(w.members);
  }

  lemma LikeArray(v: Value, items: Items)
    requires Like(v, Arr("", items))
    ensures v.Arr? && SqueezeItems(v.items) == SqueezeItems(items) && (v.items.NoItems? <==> items.NoItems?)
  {
  }

  // ---------- leaf classes ----------

  lemma KnownSizes(n: nat)
    requires IntSizeKnown(n)
    ensures Digits(n * 8) == match n case 1 => "8" case 2 => "16" case 4 => "32" case _ => "64"
  {
    assert Digits(1) == "1" && Digits(3) == "3" && Digits(6) == "6";
  }

  lemma IntNameRead(i: IntSpec)
    requires i.size > 0
    ensures IntNamed(IntName(i)) == Some(Int(i)) <==> IntSizeKnown(i.size)
  {
    var name := IntName(i);
    if IntSizeKnown(i.size) {
      KnownSizes(i.size);
      assert name[8] == if i.signed then 'I' else 'U';
      assert name[9] == Digits(i.size * 8)[0];
      assert name[9 + |Digits(i.size * 8)|] == OrderName(i.order)[0];
    }
  }

  lemma FloatNameRead(size: nat, order: Order)
    requires size > 0
    ensures FloatNamed(FloatName(size, order)) == Some(Float(size, order)) <==> size == 4 || size == 8
  {
    var name := FloatName(size, order);
    if size == 4 || size == 8 {
      KnownSizes(size);
      assert name[10] == Digits(size * 8)[0];
      assert name[12] == OrderName(order)[0];
    }
  }

  lemma ConvertsLeaf(js: string, tree: Value, t: DType)
    requires Supported(t) && WellFormed(t) && !t.Compound? && !t.Enum? && !t.Array?
    requires Read(js) == Some(tree) && Like(tree, Wrap("", "", Tree(t)))
    ensures ConvertJson(js) == Some(Norm(t)) <==> Readable(t)
  {
    hide Read, GetString, Get, IntNamed, FloatNamed, IntName, FloatName, IntegerOf, NumText, Text, Wrap, Squeeze, StringType;
    var w := Wrap("", "", Tree(t));
    SameAnswers(tree, w, "class");
    SameAnswers(tree, w, "base");
    match t
    case Int(spec) =>
      TwoStrings(" ", "H5T_INTEGER", IntName(spec));
      IntNameRead(spec);
    case Float(size, order) =>
      TwoStrings(" ", "H5T_FLOAT", FloatName(size, order));
      FloatNameRead(size, order);
    case FixedString(length, _, _) =>
      StringTypeSqueezed(tree);
      StringTypeSqueezed(w);
      FixedStringRead(length);
    case VarString(_, _) =>
      StringTypeSqueezed(tree);
      StringTypeSqueezed(w);
      VarStringRead();
    case ObjectRef => TwoStrings("", "H5T_REFERENCE", "H5T_STD_REF_OBJ");
    case RegionRef => TwoStrings("", "H5T_REFERENCE", "H5T_STD_REF_DSETREG");
  }

  lemma FixedStringRead(length: nat)
    requires 0 < length < LLONG_LIMIT
    ensures var tree := Wrap("", "", StringTree("H5T_STR_NULLPAD", Prim(NumText(length))));
      GetString(tree, "class") == Some("H5T_STRING") && StringType(tree) == Some(FixedString(length, Ascii, NullPad))
  {
    hide GetString, Get, IntegerOf, NumText, Wrap, StringTree;
    StringLookups("H5T_STR_NULLPAD", Prim(NumText(length)));
    NumTextRead(length);
  }

  lemma VarStringRead()
    ensures var tree := Wrap("", "", StringTree("H5T_STR_NULLTERM", Text("H5T_VARIABLE")));
      GetString(tree, "class") == Some("H5T_STRING") && StringType(tree) == Some(VarString(Ascii, NullTerm))
  {
    hide GetString, Get, Wrap, StringTree;
    StringLookups("H5T_STR_NULLTERM", Text("H5T_VARIABLE"));
  }

  // ---------- the base of an array or enum ----------

  lemma BaseOf(js: string, before: string, tree: Value, after: string, cls: string)
    requires Holds(js, before, tree, after) && NoQuote(cls) && cls != "base"
    requires var v := tree.members.val;
      && v.Obj? && Keyed(v.members, "class") && v.members.val == Text(cls)
      && Keyed(v.members.rest, "base") && v.members.rest.val.Obj? && Valid(v.members.rest.val)
    ensures var sub := Render(Wrap("", "", tree.members.val.members.rest.val));
      BaseText(js) == Some(sub) && |sub| < |js|
  {
    hide Find, At, Render, RenderMembers, SectionAfter, Text, Q, Valid, Wrap, Keyed, BodyAt, NoBrace, NoQuote;
    Words();
    var m1 := tree.members.val.members;
    var p := BodyAt(before, tree) + 1;
    EnterBody(js, before, tree, after, "base");
    MemberAt(js, p, m1, "class");
    SkipTextMember(js, "base", p, m1, "class", cls);
    BaseHere(js, MemberEnd(p, m1) + 1, m1.rest);
  }

  lemma BaseHere(js: string, p: nat, m: Members)
    requires Keyed(m, "base") && m.val.Obj? && Valid(m.val) && At(js, p, RenderMembers(m)) && p >= 10
    requires Find(js, Q("base"), 0) == Find(js, Q("base"), p)
    ensures var sub := Render(Wrap("", "", m.val));
      BaseText(js) == Some(sub) && |sub| < |js|
  {
    hide Find, At, Render, RenderMembers, SectionAfter, Q, Valid, Wrap, Keyed, NoBrace, NoQuote;
    Words();
    MemberAt(js, p, m, "base");
    SkipKey(js, "base", p, m, "base");
    SectionOfMember(js, p, m, "base");
    AtSlice(js, ValueAt(p, m), Render(m.val));
    WrapText("", "", m.val);
    WrapLength("", "", m.val);
    NoBlanks(Q("type"), Render(m.val));
  }

  lemma NoBlanks(a: string, b: string)
    ensures "{" + a + "" + ":" + "" + b + "}" == "{" + a + ":" + b + "}"
  {
  }

  lemma {:induction false} DimsRead(dims: seq<nat>)
    requires forall i :: 0 <= i < |dims| ==> 0 < dims[i] < LLONG_LIMIT
    ensures Dims(DimItems(dims)) == Some(dims)
  {
    if dims != [] {
      NumTextRead(dims[0]);
      DimsRead(dims[1..]);
      assert [dims[0]] + dims[1..] == dims;
    }
  }

  lemma {:induction false} ConvertsArray(js: string, before: string, tree: Value, after: string, t: DType)
    requires Supported(t) && WellFormed(t) && t.Array? && Valid(tree) && Like(tree, Wrap("", "", Tree(t)))
    requires Read(js) == Some(tree) && Holds(js, before, tree, after)
    ensures ConvertJson(js) == Some(Norm(t)) <==> Readable(t)
    decreases t, 0
  {
    hide Read, GetString, Get, Valid, Text, Wrap, BaseText, Dims, DimItems, DimsFit, Render, Squeeze, Keyed, Mem, Holds;
    var w := Wrap("", "", Tree(t));
    var body, dims := Tree(t.elem), Arr("", DimItems(t.dims));
    Unwrap(tree, t);
    var v := tree.members.val;
    ThreeShape(v, "H5T_ARRAY", body, "dims", dims);
    var base := v.members.rest.val;
    SameAnswers(tree, w, "class");
    SameAnswers(tree, w, "dims");
    ThreeLookups("H5T_ARRAY", body, "dims", dims);
    DimsLikeRead(Get(tree, "dims"), t.dims);
    ConvertsBase(js, before, tree, after, "H5T_ARRAY", t.elem);
    assert ConvertShorter(js, Render(Wrap("", "", base))) == ConvertJson(Render(Wrap("", "", base)));
  }

  // The text cut out for a base is converted as the base is.
  lemma {:induction false} ConvertsBase(js: string, before: string, tree: Value, after: string, cls: string, t: DType)
    requires Supported(t) && WellFormed(t) && Holds(js, before, tree, after) && (cls == "H5T_ARRAY" || cls == "H5T_ENUM")
    requires var v := tree.members.val;
      && v.Obj? && Keyed(v.members, "class") && v.members.val == Text(cls)
      && Keyed(v.members.rest, "base") && Like(v.members.rest.val, Tree(t)) && Valid(v.members.rest.val)
    ensures var sub := Render(Wrap("", "", tree.members.val.members.rest.val));
      && BaseText(js) == Some(sub) && |sub| < |js|
      && (ConvertJson(sub) == Some(Norm(t)) <==> Readable(t))
    decreases t, 4
  {
    hide Valid, Text, Wrap, BaseText, Render, Squeeze, Keyed, Holds, Supported, WellFormed, Tree, NoQuote;
    var base := tree.members.val.members.rest.val;
    Words();
    TreeIsObject(t);
    LikeObject(base, Tree(t));
    BaseOf(js, before, tree, after, cls);
    ConvertsWrapped("", "", base, t);
  }

  lemma DimsLikeRead(v: Option<Value>, dims: seq<nat>)
    requires Squeezed(v) == Some(Squeeze(Arr("", DimItems(dims)))) && dims != []
    requires forall i :: 0 <= i < |dims| ==> 0 < dims[i] < LLONG_LIMIT
    ensures v.Some? && v.value.Arr? && v.value.items.Item? && Dims(v.value.items) == Some(dims)
  {
    hide Dims;
    LikeArray(v.value, DimItems(dims));
    DimsSqueezed(v.value.items);
    DimsSqueezed(DimItems(dims));
    DimsRead(dims);
  }

  lemma {:induction false} MappingRead(pre: string, base: IntSpec, members: seq<EnumMember>)
    requires 0 < base.size <= 8 && forall i :: 0 <= i < |members| ==> PlainName(members[i].name)
    ensures Mapping(base, MappingMembers(pre, base, members)) == Some(members)
       <==> forall i :: 0 <= i < |members| ==> Survives(base, members[i].value)
    decreases |members|
  {
    hide NumText, NativeReading, Saturate, IntegerOf, StringOf, ValidPart;
    if members != [] {
      var m, rest := members[0], members[1..];
      assert PlainName(m.name);
      PlainsString(m.name);
      NumTextRead(NativeReading(base, m.value));
      ReadingBound(base, m.value);
      MappingRead(" ", base, rest);
      assert members == [m] + rest;
      assert forall i :: 0 < i < |members| ==> members[i] == rest[i - 1];
      assert (forall i :: 0 <= i < |rest| ==> Survives(base, rest[i].value)) ==>
        forall i :: 0 < i < |members| ==> Survives(base, members[i].value);
    }
  }

  lemma ReadingBound(base: IntSpec, v: int)
    requires 0 < base.size <= 8
    ensures NativeReading(base, v) >= -LLONG_LIMIT
  {
    hide Pow256, Swap;
    Pow256Facts(base.size);
  }

  lemma MappingLikeRead(v: Option<Value>, base: IntSpec, members: seq<EnumMember>)
    requires Squeezed(v) == Some(Squeeze(Obj("", MappingMembers("", base, members))))
    requires 0 < base.size <= 8 && forall i :: 0 <= i < |members| ==> PlainName(members[i].name)
    ensures v.Some? && v.value.Obj?
    ensures Mapping(base, v.value.members) == Some(members)
       <==> forall i :: 0 <= i < |members| ==> Survives(base, members[i].value)
  {
    hide Mapping, MappingMembers, Survives, PlainName;
    MappingSqueezed(base, v.value.members);
    MappingSqueezed(base, MappingMembers("", base, members));
    MappingRead("", base, members);
  }

  lemma {:induction false} ConvertsEnum(js: string, before: string, tree: Value, after: string, t: DType)
    requires Supported(t) && WellFormed(t) && t.Enum? && Valid(tree) && Like(tree, Wrap("", "", Tree(t)))
    requires Read(js) == Some(tree) && Holds(js, before, tree, after)
    ensures ConvertJson(js) == Some(Norm(t)) <==> Readable(t)
    decreases t, 0
  {
    hide Read, GetString, Get, Valid, Text, Wrap, BaseText, MappingMembers, Mapping, Survives, PlainName, IntTree, Render;
    hide Lowest, Highest, IntName, Squeeze, Keyed, Mem, Holds;
    var w := Wrap("", "", Tree(t));
    var body, mapping := IntTree(t.base), Obj("", MappingMembers("", t.base, t.members));
    Unwrap(tree, t);
    var v := tree.members.val;
    ThreeShape(v, "H5T_ENUM", body, "mapping", mapping);
    var base := v.members.rest.val;
    SameAnswers(tree, w, "class");
    SameAnswers(tree, w, "mapping");
    ThreeLookups("H5T_ENUM", body, "mapping", mapping);
    MappingLikeRead(Get(tree, "mapping"), t.base, t.members);
    ConvertsIntBase(js, before, tree, after, t.base);
    assert ConvertShorter(js, Render(Wrap("", "", base))) == ConvertJson(Render(Wrap("", "", base)));
  }

  lemma ConvertsIntBase(js: string, before: string, tree: Value, after: string, spec: IntSpec)
    requires Supported(Int(spec)) && Holds(js, before, tree, after)
    requires var v := tree.members.val;
      && v.Obj? && Keyed(v.members, "class") && v.members.val == Text("H5T_ENUM")
      && Keyed(v.members.rest, "base") && Like(v.members.rest.val, IntTree(spec)) && Valid(v.members.rest.val)
    ensures var sub := Render(Wrap("", "", tree.members.val.members.rest.val));
      && BaseText(js) == Some(sub) && |sub| < |js|
      && (ConvertJson(sub) == Some(Int(spec)) <==> IntSizeKnown(spec.size))
  {
    hide Valid, Text, Wrap, BaseText, Render, Squeeze, Keyed, Holds, IntTree, NoQuote;
    var base := tree.members.val.members.rest.val;
    Words();
    TreeIsObject(Int(spec));
    LikeObject(base, IntTree(spec));
    BaseOf(js, before, tree, after, "H5T_ENUM");
    WrapReads("", "", base);
    WrapLike("", "", base, IntTree(spec));
    ConvertsLeaf(Render(Wrap("", "", base)), Wrap("", "", base), Int(spec));
  }

  lemma WrapLike(before: string, sp: string, v: Value, w: Value)
    requires Like(v, w)
    ensures Like(Wrap(before, sp, v), Wrap("", "", w))
  {
  }

  lemma WrapReads(before: string, sp: string, v: Value)
    requires Valid(v) && AllWs(before) && AllWs(sp)
    ensures Read(Render(Wrap(before, sp, v))) == Some(Wrap(before, sp, v)) && Valid(Wrap(before, sp, v))
  {
    hide Valid, Render, Read, Wrap;
    WrapValid(before, sp, v);
    ReadRender("", Wrap(before, sp, v), "");
    assert "" + Render(Wrap(before, sp, v)) + "" == Render(Wrap(before, sp, v));
  }

  // ---------- compounds ----------

  // Where the fields of a compound are, and that no "type" is found before the first of them.
  lemma FieldsAt(js: string, before: string, tree: Value, after: string) returns (f: nat, p: nat)
    requires Holds(js, before, tree, after)
    requires var v := tree.members.val;
      && v.Obj? && Keyed(v.members, "class") && v.members.val == Text("H5T_COMPOUND")
      && Keyed(v.members.rest, "fields") && v.members.rest.val.Arr? && v.members.rest.val.items.Item?
    ensures f <= |js| && p <= |js| && p >= 10
    ensures Find(js, Q("fields"), 0) == Some(f) && Find(js, Q("type"), f) == Find(js, Q("type"), p)
    ensures At(js, p, RenderItems(tree.members.val.members.rest.val.items))
  {
    hide Find, At, Render, RenderMembers, RenderItems, Text, Q, Keyed, NoQuote;
    Words();
    var m1 := tree.members.val.members;
    var m2 := m1.rest;
    var p0 := BodyAt(before, tree) + 1;
    EnterBody(js, before, tree, after, "fields");
    MemberAt(js, p0, m1, "class");
    SkipTextMember(js, "fields", p0, m1, "class", "H5T_COMPOUND");
    var p1 := MemberEnd(p0, m1) + 1;
    MemberAt(js, p1, m2, "fields");
    SkipKey(js, "fields", p1, m2, "fields");
    f := KeyAt(p1, m2);
    p := ValueAt(p1, m2) + 1;
    FromKey(js, "type", p1, m2, "fields");
    ArrPieces(js, ValueAt(p1, m2), m2.val.pad, m2.val.items);
    WordLength("type");
    AtBound(js, p, RenderItems(m2.val.items));
    SkipText(js, Q("type"), ValueAt(p1, m2), "[");
  }

  // From another key to its value.
  lemma FromKey(js: string, w: string, p: nat, m: Members, key: string)
    requires Keyed(m, key) && NoQuote(key) && Word(w) && At(js, p, RenderMembers(m)) && key != w
    ensures ValueAt(p, m) <= |js| && KeyAt(p, m) <= |js|
    ensures Find(js, Q(w), KeyAt(p, m)) == Find(js, Q(w), ValueAt(p, m))
  {
    hide At, Find, Render, RenderMembers, Q;
    MemberAt(js, p, m, key);
    AtBound(js, ValueAt(p, m), Render(m.val));
    WordLength(w);
    QuoteNotBlank();
    SkipWordAndMark(js, w, KeyAt(p, m), key, m.beforeColon, ":");
    SkipBlanks(js, Q(w), ColonAt(p, m) + 1, m.afterColon);
  }

  // A field of a compound: an object with the keys "name" and "type".
  predicate FieldLike(v: Value, name: string): (r: bool)
    ensures r ==> v.Obj? && v.members.Member? && v.members.rest.Member? && v.members.rest.val.Obj?
  {
    && v.Obj? && Keyed(v.members, "name") && v.members.val == Text(name)
    && Keyed(v.members.rest, "type") && v.members.rest.val.Obj? && v.members.rest.rest.NoMembers?
  }

  function TypeMember(v: Value): Members
    requires v.Obj? && v.members.Member?
  {
    v.members.rest
  }

  // Where the "type" of the field at `p` is.
  function TypeMemberAt(p: nat, v: Value): nat
    requires v.Obj? && v.members.Member?
  {
    MemberEnd(p + 1, v.members) + 1
  }

  // The type of the field at `p` is cut out exactly, unless the field is called "type".
  lemma MemberHere(js: string, ptr: nat, p: nat, v: Value, name: string)
    requires ptr <= |js| && p <= |js| && p >= 10 && At(js, p, Render(v)) && FieldLike(v, name)
    requires Find(js, Q("type"), ptr) == Find(js, Q("type"), p)
    requires PlainName(name) && Valid(TypeMember(v).val)
    ensures var m, q := TypeMember(v), TypeMemberAt(p, v);
      var end := ValueEnd(q, m) + 1;
      && end <= p + |Render(v)| <= |js|
      && Find(js, Q("type"), end) == Find(js, Q("type"), p + |Render(v)|)
      && var sub := Render(Wrap(m.beforeColon, m.afterColon, m.val));
      && |sub| < |js|
      && (name != "type" ==> MemberText(js, ptr) == Some((sub, end)))
      && (name == "type" ==> exists other :: MemberText(js, ptr) == Some((other, end)) && Read(other) == None)
  {
    hide Find, At, Render, RenderMembers, SectionAfter, Text, Q, Valid, PlainName, Read, Wrap, Keyed, NoQuote, NoBrace, MemberText;
    Words();
    NameFacts(name);
    EnterObject(js, p, v, "type");
    var m1, m2 := v.members, TypeMember(v);
    MemberAt(js, p + 1, m1, "name");
    var q := TypeMemberAt(p, v);
    MemberAt(js, q, m2, "type");
    FieldEnd(js, p, v, name);
    SectionOfMember(js, q, m2, "type");
    WrapLength(m2.beforeColon, m2.afterColon, m2.val);
    if name != "type" {
      SkipTextMember(js, "type", p + 1, m1, "name", name);
      SkipKey(js, "type", q, m2, "type");
      OtherName(js, ptr, q, m2);
    } else {
      SkipKey(js, "type", p + 1, m1, "name");
      NamedType(js, ptr, p + 1, m1);
    }
  }

  // What follows a field's type up to the end of the field.
  lemma FieldEnd(js: string, p: nat, v: Value, name: string)
    requires p <= |js| && At(js, p, Render(v)) && FieldLike(v, name)
    ensures var m, q := TypeMember(v), TypeMemberAt(p, v);
      var end := ValueEnd(q, m) + 1;
      && end <= p + |Render(v)| <= |js|
      && Find(js, Q("type"), end) == Find(js, Q("type"), p + |Render(v)|)
  {
    hide Find, At, Render, RenderMembers, Q, Text, Keyed;
    EnterObject(js, p, v, "type");
    var m, q := TypeMember(v), TypeMemberAt(p, v);
    MemberAt(js, p + 1, v.members, "name");
    MemberAt(js, q, m, "type");
    AtBound(js, p, Render(v));
    WordLength("type");
    QuoteNotBlank();
    KeyedBlanks(m, "type");
    SkipBlanksAndBrace(js, ValueEnd(q, m), m.post);
  }

  lemma KeyedBlanks(m: Members, key: string)
    requires Keyed(m, key)
    ensures AllWs(m.pre) && AllWs(m.beforeColon) && AllWs(m.afterColon) && AllWs(m.post)
  {
  }

  // After the first of them, too, blanks and a brace are passed over.
  lemma SkipBlanksAndBrace(js: string, p: nat, ws: string)
    requires AllWs(ws) && At(js, p, ws) && At(js, p + |ws|, "}")
    ensures p + |ws| + 1 <= |js| && Find(js, Q("type"), p + 1) == Find(js, Q("type"), p + |ws| + 1)
  {
    hide Find, Q;
    WordLength("type");
    QuoteNotBlank();
    AtBound(js, p + |ws|, "}");
    if ws != "" {
      assert AllWs(ws[1..]);
      SkipBlanks(js, Q("type"), p + 1, ws[1..]);
      SkipText(js, Q("type"), p + |ws|, "}");
    }
  }

  lemma OtherName(js: string, ptr: nat, q: nat, m: Members)
    requires ptr <= |js| && Keyed(m, "type") && At(js, q, RenderMembers(m))
    requires Find(js, Q("type"), ptr) == Some(KeyAt(q, m)) && ValueEnd(q, m) < |js|
    requires SectionAfter(js, KeyAt(q, m)) == Some((ValueAt(q, m), ValueEnd(q, m)))
    ensures MemberText(js, ptr) == Some((Render(Wrap(m.beforeColon, m.afterColon, m.val)), ValueEnd(q, m) + 1))
  {
    hide Find, At, Render, RenderMembers, SectionAfter, Q, Wrap, Keyed;
    MemberAt(js, q, m, "type");
    CutText(js, KeyAt(q, m), m.beforeColon, m.afterColon, m.val);
  }

  lemma NameFacts(name: string)
    requires PlainName(name)
    ensures NoQuote(name)
  {
    assert forall i :: 0 <= i < |name| ==> ValidPart(Plain(name[i])) ==> name[i] != '"';
  }

  // At a field called "type" the search finds the name's value, and what is cut out is no JSON.
  lemma NamedType(js: string, ptr: nat, p: nat, m: Members)
    requires ptr <= |js| && Keyed(m, "name") && m.val == Text("type") && At(js, p, RenderMembers(m))
    requires ValueAt(p, m) <= |js| && Find(js, Q("type"), ptr) == Find(js, Q("type"), ValueAt(p, m))
    requires m.rest.Member? && Keyed(m.rest, "type") && m.rest.val.Obj? && Valid(m.rest.val)
    requires ValueEnd(MemberEnd(p, m) + 1, m.rest) < |js|
    ensures exists other ::
      MemberText(js, ptr) == Some((other, ValueEnd(MemberEnd(p, m) + 1, m.rest) + 1)) && Read(other) == None
  {
    hide Find, At, Render, RenderMembers, SectionAfter, Valid, Read, Q, Keyed, Text, NoBrace;
    Words();
    var at, q := ValueAt(p, m), MemberEnd(p, m) + 1;
    MemberAt(js, p, m, "name");
    MemberAt(js, q, m.rest, "type");
    TextText("type");
    FindHere(js, Q("type"), at);
    QuoteNotBlank();
    KeyedBlanks(m, "name");
    KeyedBlanks(m.rest, "type");
    SkipText(js, "{", at, Q("type"));
    SkipBlanks(js, "{", ValueEnd(p, m), m.post);
    SkipText(js, "{", MemberEnd(p, m), ",");
    SkipBlanks(js, "{", q, m.rest.pre);
    SectionOfMember(js, q, m.rest, "type");
    SameSection(js, at, KeyAt(q, m.rest), ValueAt(q, m.rest), ValueEnd(q, m.rest));
    NoJson(js, at, m.post, ValueEnd(q, m.rest));
    assert MemberText(js, ptr) == Some(("{" + js[at..ValueEnd(q, m.rest)] + "}", ValueEnd(q, m.rest) + 1));
  }

  lemma SameSection(js: string, at: nat, k: nat, b: nat, e: nat)
    requires at <= k <= |js| && Find(js, "{", at) == Find(js, "{", k) && SectionAfter(js, k) == Some((b, e))
    ensures SectionAfter(js, at) == Some((b, e))
  {
    hide Find;
  }

  // Text that starts with a quoted word and a comma is not the inside of an object.
  lemma NoJson(js: string, at: nat, ws: string, end: nat)
    requires At(js, at, Q("type")) && At(js, at + |Q("type")|, ws) && AllWs(ws)
    requires At(js, at + |Q("type")| + |ws|, ",") && at + |Q("type")| + |ws| + 1 <= end <= |js|
    ensures Read("{" + js[at..end] + "}") == None
  {
    hide At, Read, Q;
    var c := at + |Q("type")| + |ws|;
    AtSlice(js, at, Q("type"));
    AtSlice(js, at + |Q("type")|, ws);
    AtSlice(js, c, ",");
    SplitCut(js, at, Q("type"), ws, end);
    CommaAfterKey(ws, js[c + 1..end] + "}");
  }

  lemma SplitCut(js: string, at: nat, a: string, b: string, end: nat)
    requires at + |a| + |b| + 1 <= end <= |js|
    requires js[at..at + |a|] == a && js[at + |a|..at + |a| + |b|] == b
    requires js[at + |a| + |b|..at + |a| + |b| + 1] == ","
    ensures "{" + js[at..end] + "}" == "{" + a + b + "," + (js[at + |a| + |b| + 1..end] + "}")
  {
    var c := at + |a| + |b|;
    assert js[at..end] == js[at..at + |a|] + js[at + |a|..c] + js[c..c + 1] + js[c + 1..end];
  }

  lemma CommaAfterKey(ws: string, rest: string)
    requires AllWs(ws)
    ensures Read("{" + Q("type") + ws + "," + rest) == None
  {
    hide ReadMembers, ReadKey, At;
    var js := "{" + Q("type") + ws + "," + rest;
    KeyFails(ws, rest);
    assert js[0] == '{' && js[1] == '"';
    assert BlankEnd(js, 0) == 0 && BlankEnd(js, 1) == 1;
    MembersFail(js, 1);
    assert ReadValue(js, 0) == None;
  }

  lemma MembersFail(js: string, p: nat)
    requires p <= |js| && ReadKey(js, p) == None
    ensures ReadMembers(js, p) == None
  {
    hide ReadKey;
  }

  lemma KeyFails(ws: string, rest: string)
    requires AllWs(ws)
    ensures ReadKey("{" + Q("type") + ws + "," + rest, 1) == None
  {
    hide At, Q;
    var js := "{" + Q("type") + ws + "," + rest;
    KeyAndBlanks(ws, rest);
    WordLength("type");
    PlainsText("type");
    QuotedPieces(js, 1, Plains("type"));
    AtIndex(js, 1, Q("type"), 0);
    assert BlankEnd(js, 1) == 1;
    assert AllPlain("type");
    ReadsBody(js, 2, Plains("type"));
    AtIndex(js, 7 + |ws|, ",", 0);
    ReadsBlanks(js, 7, ws);
  }

  lemma KeyAndBlanks(ws: string, rest: string)
    ensures var js := "{" + Q("type") + ws + "," + rest;
      At(js, 1, Q("type")) && At(js, 7, ws) && At(js, 7 + |ws|, ",")
  {
    hide At, Q;
    WordLength("type");
    AtMiddle("{" + Q("type") + ws, ",", rest);
    AtMiddle("{" + Q("type"), ws, "," + rest);
    AtMiddle("{", Q("type"), ws + ("," + rest));
    assert "{" + Q("type") + ws + ("," + rest) == "{" + Q("type") + ws + "," + rest;
    assert "{" + Q("type") + (ws + ("," + rest)) == "{" + Q("type") + ws + "," + rest;
  }

  lemma {:induction false} PackNames(fields: Fields, offset: nat)
    requires WellFormedFields(fields)
    ensures forall name :: HasName(Pack(fields, offset), name) <==> HasName(fields, name)
    ensures DistinctNames(Pack(fields, offset)) == DistinctNames(fields)
    ensures NonEmptyNames(Pack(fields, offset))
  {
    hide WellFormed, Norm;
    if fields.Field? { PackNames(fields.rest, offset + Size(Norm(fields.ty))); }
  }

  lemma FieldLookups(v: Value, name: string, body: Value)
    requires Like(v, FieldTree(name, body))
    ensures v.Obj? && NameIn(v.members, None) == Some(name)
  {
    var w := FieldTree(name, body);
    PlainsString("name");
    PlainsString("type");
    PlainsString(name);
    NameSqueezed(v.members, None);
    NameSqueezed(w.members, None);
    assert NameIn(Mem(" ", "type", body, NoMembers), Some(name)) == Some(name);
  }

  lemma FieldShape(v: Value, name: string, body: Value)
    requires Valid(v) && Like(v, FieldTree(name, body)) && body.Obj? && body.members.Member?
    ensures FieldLike(v, name) && Valid(TypeMember(v).val) && Like(TypeMember(v).val, body)
  {
    hide Keyed, Text, Mem, Valid, Squeeze;
    FieldParts(v, name, body);
    LikeObject(v.members.rest.val, body);
  }

  lemma FieldParts(v: Value, name: string, body: Value)
    requires Valid(v) && Like(v, FieldTree(name, body))
    ensures v.Obj? && Keyed(v.members, "name") && v.members.val == Text(name)
    ensures var m := v.members.rest; Keyed(m, "type") && m.rest.NoMembers? && Like(m.val, body) && Valid(m.val)
  {
    hide Keyed, Text, Plains, AllWs;
    var m2 := Mem(" ", "type", body, NoMembers);
    NextKeyed(v.members, Mem("", "name", Text(name), m2), "name");
    LikeText(v.members.val, name);
    NextKeyed(v.members.rest, m2, "type");
  }

  lemma NextItem(items: Items, pre: string, fields: Fields)
    requires fields.Field? && SupportedFields(fields) && ValidItems(items)
    requires SqueezeItems(items) == SqueezeItems(FieldItems(pre, fields))
    ensures items.Item? && Like(items.val, FieldTree(fields.name, Tree(fields.ty))) && Valid(items.val)
    ensures AllWs(items.pre) && AllWs(items.post) && ValidItems(items.rest)
    ensures SqueezeItems(items.rest) == SqueezeItems(FieldItems(" ", fields.rest))
    ensures items.rest.Item? <==> fields.rest.Field?
  {
    hide Squeeze, Valid, Tree, FieldTree, Supported;
  }

  lemma {:induction false} ConvertsFields(js: string, ptr: nat, p: nat, items: Items, pre: string, fields: Fields, offset: nat)
    requires fields.Field? && SupportedFields(fields) && WellFormedFields(fields) && ValidItems(items)
    requires ptr <= |js| && 10 <= p <= |js| && Find(js, Q("type"), ptr) == Find(js, Q("type"), p)
    requires At(js, p, RenderItems(items)) && SqueezeItems(items) == SqueezeItems(FieldItems(pre, fields))
    ensures ConvertFields(js, ptr, items, offset) == Some(Pack(fields, offset)) <==> ReadableFields(fields)
    decreases fields, 5
  {
    hide Read, Valid, Find, At, RenderItems, Render, Q, Supported, WellFormed, FieldTree, Tree, PlainName, Size, Readable;
    hide ConvertJson, NameIn, Norm, AllWs, MemberText, IsWs, FieldLike, ValueEnd, ValueAt, Wrap, Squeeze, Keyed;
    var name, ty, rest := fields.name, fields.ty, fields.rest;
    NextItem(items, pre, fields);
    ItemPieces(js, p, items);
    var v := items.val;
    TreeIsObject(ty);
    FieldShape(v, name, Tree(ty));
    FieldLookups(v, name, Tree(ty));
    var at := p + |items.pre|;
    WordLength("type");
    QuoteNotBlank();
    SkipBlanks(js, Q("type"), p, items.pre);
    MemberHere(js, ptr, at, v, name);
    FieldWraps(v, name);
    var m := TypeMember(v);
    ConvertsWrapped(m.beforeColon, m.afterColon, m.val, ty);
    ConvertsNone();
    if name != "type" && Readable(ty) && rest.Field? {
      var stop := at + |Render(v)|;
      SkipBlanks(js, Q("type"), stop, items.post);
      SkipText(js, Q("type"), stop + |items.post|, ",");
      var end := ValueEnd(TypeMemberAt(at, v), m) + 1;
      ConvertsFields(js, end, stop + |items.post| + 1, items.rest, " ", rest, offset + Size(Norm(ty)));
    }
  }

  lemma FieldWraps(v: Value, name: string)
    requires FieldLike(v, name)
    ensures AllWs(TypeMember(v).beforeColon) && AllWs(TypeMember(v).afterColon)
  {
  }

  lemma ConvertsNone()
    ensures forall sub :: Read(sub) == None ==> ConvertJson(sub) == None
  {
  }

  lemma {:induction false} ConvertsCompound(js: string, before: string, tree: Value, after: string, t: DType)
    requires Supported(t) && WellFormed(t) && t.Compound? && Valid(tree) && Like(tree, Wrap("", "", Tree(t)))
    requires Read(js) == Some(tree) && Holds(js, before, tree, after)
    ensures ConvertJson(js) == Some(Norm(t)) <==> Readable(t)
    decreases t, 0
  {
    hide Read, GetString, Get, Valid, Text, Wrap, Find, At, RenderItems, DistinctNames, TotalSize, Q, Squeeze, Keyed, Mem, Holds;
    var w := Wrap("", "", Tree(t));
    var items := FieldItems("", t.fields);
    Unwrap(tree, t);
    var v := tree.members.val;
    TwoShape(v, "H5T_COMPOUND", " ", "fields", Arr("", items));
    SameAnswers(tree, w, "class");
    SameAnswers(tree, w, "fields");
    CompoundLookups(items);
    var a := v.members.rest.val;
    LikeArray(a, items);
    TheFields(tree, a);
    if t.fields.Field? {
      ArrItemsValid(a);
      var f, p := FieldsAt(js, before, tree, after);
      PackNames(t.fields, 0);
      ConvertsFields(js, f, p, a.items, "", t.fields, 0);
    }
  }

  // The lookup finds the same fields as the text search.
  lemma TheFields(tree: Value, a: Value)
    requires tree.Obj? && Keyed(tree.members, "type") && tree.members.val.Obj?
    requires var m := tree.members.val.members;
      Keyed(m, "class") && Keyed(m.rest, "fields") && m.rest.val == a
    ensures Get(tree, "fields") == Some(a)
  {
    hide Keyed, Lookup;
    var m := tree.members.val.members;
    LookupKeyed(tree.members, "type", "type");
    LookupKeyed(m, "class", "fields");
    LookupKeyed(m.rest, "fields", "fields");
  }

  lemma LookupKeyed(m: Members, key: string, k: string)
    requires Keyed(m, key)
    ensures Lookup(m, k) == if k == key then Some(m.val) else Lookup(m.rest, k)
  {
    PlainsString(key);
  }

  lemma ArrItemsValid(a: Value)
    requires a.Arr? && Valid(a)
    ensures ValidItems(a.items)
  {
  }

  // ---------- any printed type, with any whitespace ----------

  lemma {:induction false} ConvertsWrapped(before: string, sp: string, v: Value, t: DType)
    requires Supported(t) && WellFormed(t) && Valid(v) && Like(v, Tree(t)) && AllWs(before) && AllWs(sp)
    ensures ConvertJson(Render(Wrap(before, sp, v))) == Some(Norm(t)) <==> Readable(t)
    decreases t, 3
  {
    hide Valid, Render, Wrap, Squeeze, Supported, WellFormed, Tree, ConvertJson, Readable;
    var tree := Wrap(before, sp, v);
    WrapReads(before, sp, v);
    WrapLike(before, sp, v, Tree(t));
    assert "" + Render(tree) + "" == Render(tree);
    Converts("", tree, "", t);
  }

  /** Whatever the whitespace between the tokens of a printed type and around it: the parser makes
      the packed, string-normalised type of it exactly if it is readable. */
  lemma {:induction false} Converts(before: string, tree: Value, after: string, t: DType)
    requires Supported(t) && WellFormed(t) && Valid(tree) && Like(tree, Wrap("", "", Tree(t)))
    requires AllWs(before) && AllWs(after)
    ensures ConvertJson(before + Render(tree) + after) == Some(Norm(t)) <==> Readable(t)
    decreases t, 2
  {
    hide Valid, Render, Wrap, Squeeze, Tree, ConvertJson, Readable, Read, Keyed, Norm;
    var js := before + Render(tree) + after;
    Unwrap(tree, t);
    ReadRender(before, tree, after);
    match t
    case Compound(_, _) => ConvertsCompound(js, before, tree, after, t);
    case Enum(_, _) => ConvertsEnum(js, before, tree, after, t);
    case Array(_, _) => ConvertsArray(js, before, tree, after, t);
    case _ => ConvertsLeaf(js, tree, t);
  }

  // ---------- the round trip ----------

  lemma PrintedIsWrapped(t: DType)
    requires Supported(t)
    ensures "{" + Print(t, false).value + "}" == Render(Wrap("", " ", Tree(t)))
  {
    hide Body, Supported, Tree, Render, Q, Wrap;
    TreeText(t);
    WrapText("", " ", Tree(t));
    KeyAndBody(Q("type"), Body(t));
  }

  lemma KeyAndBody(key: string, body: string)
    ensures "{" + (key + ": " + body) + "}" == "{" + key + "" + ":" + " " + body + "}"
  {
  }

  // The text the printer makes, given what is in the memory it leaves unwritten, is read as the
  // normal form of the type.
  ghost predicate ComesBack(t: DType, memory: Memory) {
    var text := PrintFrom(t, false, memory);
    text.Some? && ParseDatatype("{" + text.value + "}", false) == Some(Norm(t))
  }

  /** A printed datatype parses to its packed, string-normalised form, whatever is in the memory the
      printer leaves unwritten, exactly if it is printable (every enum has a member), uses the sizes
      the parser knows, none of its compounds is empty or has a field called "type", and its enum
      values survive; and then printing the result gives the same text again. */
  lemma PrintParse(t: DType)
    requires Supported(t) && WellFormed(t)
    ensures (forall memory: Memory :: ComesBack(t, memory)) <==> RoundTrips(t)
    ensures RoundTrips(t) ==>
      forall memory: Memory :: PrintFrom(Norm(t), false, memory) == PrintFrom(t, false, memory) == Print(t, false)
  {
    hide Body, Supported, Tree, ConvertJson, PrintFrom, Print, WellFormed, Readable, Printable, Norm;
    if Printable(t, false) {
      forall memory: Memory ensures ComesBack(t, memory) <==> Readable(t) {
        PrintedComesBack(t, memory);
      }
      if RoundTrips(t) { NormPrints(t); }
      var any: Memory := NOTHING;
      assert ComesBack(t, any) <==> Readable(t);
    } else {
      FailingPrint(t);
      assert !ComesBack(t, NOTHING);
    }
  }

  lemma FailingPrint(t: DType)
    requires Supported(t) && !Printable(t, false)
    ensures PrintFrom(t, false, NOTHING) == None
  {
    hide BodyFrom, Supported, Printable;
    FailingMemory(t, false);
  }

  lemma PrintedComesBack(t: DType, memory: Memory)
    requires Supported(t) && WellFormed(t) && Printable(t, false)
    ensures ComesBack(t, memory) <==> Readable(t)
  {
    hide Body, Supported, Tree, ConvertJson, PrintFrom, WellFormed, Readable, Printable, Norm, Render, Wrap, Squeeze, Valid;
    PrintsTheText(t, false);
    PrintedIsWrapped(t);
    TreeValid(t);
    QuoteNotBlank();
    ConvertsWrapped("", " ", Tree(t), t);
  }

  // The normal form prints the same text.
  lemma NormPrints(t: DType)
    requires Supported(t) && WellFormed(t) && RoundTrips(t)
    ensures forall memory: Memory :: PrintFrom(Norm(t), false, memory) == PrintFrom(t, false, memory) == Print(t, false)
  {
    hide Body, Supported, PrintFrom, WellFormed, Readable, Printable, Norm;
    NormPrintsTheSame(t);
    NormPrintable(t, false);
    PrintsTheText(t, false);
    PrintsTheText(Norm(t), false);
  }

  /** An enum without members cannot be printed: its text comes from memory that has not been
      written to, although the text with nothing between the braces would be read back. */
  lemma EmptyEnum(base: IntSpec)
    requires Supported(Enum(base, [])) && IntSizeKnown(base.size)
    ensures var t := Enum(base, []);
      && WellFormed(t) && Readable(t) && !RoundTrips(t)
      && PrintFrom(t, false, NOTHING) == None
      && ParseDatatype("{" + Print(t, false).value + "}", false) == Some(t)
  {
    hide Body, Tree, ConvertJson, Render, Wrap, Squeeze, Valid;
    var t := Enum(base, []);
    FailingPrint(t);
    PrintedIsWrapped(t);
    TreeValid(t);
    QuoteNotBlank();
    ConvertsWrapped("", " ", Tree(t), t);
  }

  /** An array of empty compounds cannot be printed either, though an empty compound alone can. */
  lemma ArrayOfEmptyCompounds(size: nat, dims: seq<nat>)
    requires size > 0 && dims != [] && DimsFit(dims)
    ensures var c := Compound(size, NoFields);
      && Printable(c, false) && !Printable(Array(c, dims), false)
      && PrintFrom(Array(c, dims), false, NOTHING) == None
  {
    var c := Compound(size, NoFields);
    assert Supported(c) && !Printable(c, true);
    FailingPrint(Array(c, dims));
  }

  /** A type anywhere in a longer text, with any whitespace, as long as no "type" comes before it:
      the truncating caller cuts it out and reads it. */
  lemma ParseInside(head: string, before: string, sp: string, v: Value, tail: string, t: DType)
    requires Supported(t) && WellFormed(t) && Valid(v) && Like(v, Tree(t)) && AllWs(before) && AllWs(sp)
    requires Find(head + (Q("type") + before + ":" + sp + Render(v)) + tail, Q("type"), 0) == Some(|head|)
    ensures ParseDatatype(head + (Q("type") + before + ":" + sp + Render(v)) + tail, true) == Some(Norm(t))
       <==> Readable(t)
  {
    hide Supported, Tree, ConvertJson, Find, At, Render, Q, Valid, WellFormed, Readable, Norm, SectionAfter, Squeeze, Wrap, NoBrace;
    var entry := Q("type") + before + ":" + sp + Render(v);
    var js := head + entry + tail;
    Words();
    TreeIsObject(t);
    LikeObject(v, Tree(t));
    AtThree(head, entry, tail);
    EntryPieces(js, |head|, before, sp, Render(v));
    SectionAfterWord(js, |head|, "type", before, sp, v);
    CutText(js, |head|, before, sp, v);
    ConvertsWrapped(before, sp, v, t);
  }

  lemma EntryPieces(js: string, q: nat, before: string, sp: string, text: string)
    requires At(js, q, Q("type") + before + ":" + sp + text)
    ensures var c := q + |Q("type")|;
      && At(js, q, Q("type")) && At(js, c, before) && At(js, c + |before|, ":")
      && At(js, c + |before| + 1, sp) && At(js, c + |before| + 1 + |sp|, text)
  {
    hide At, Q;
    AtConcat(js, q, Q("type") + before + ":" + sp, text);
    AtConcat(js, q, Q("type") + before + ":", sp);
    AtConcat(js, q, Q("type") + before, ":");
    AtConcat(js, q, Q("type"), before);
  }
}
