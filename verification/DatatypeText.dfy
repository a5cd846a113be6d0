/**
 The printed text of a datatype as a JSON tree: every printed type is the rendering of one.
 */
module DatatypeText {
  import opened R = Rfc8259
  import opened Datatype

  function Plains(s: string): StrBody {
    seq(|s|, i requires 0 <= i < |s| => Plain(s[i]))
  }

  function Text(s: string): Value {
    Str(Plains(s))
  }

  // A member the way the printer writes one.
  function Mem(pre: string, key: string, val: Value, rest: Members): Members {
    Member(pre, Plains(key), "", " ", val, "", rest)
  }

  function IntTree(i: IntSpec): Value {
    Obj("", Mem("", "class", Text("H5T_INTEGER"), Mem(" ", "base", Text(IntName(i)), NoMembers)))
  }

  function StringTree(pad: string, length: Value): Value {
    Obj("", Mem("", "class", Text("H5T_STRING"), Mem(" ", "charSet", Text("H5T_CSET_ASCII"),
        Mem(" ", "strPad", Text(pad), Mem(" ", "length", length, NoMembers)))))
  }

  function RefTree(name: string): Value {
    Obj("", Mem("", "class", Text("H5T_REFERENCE"), Mem("", "base", Text(name), NoMembers)))
  }

  function DimItems(dims: seq<nat>): Items {
    if dims == [] then NoItems else Item("", Prim(NumText(dims[0])), "", DimItems(dims[1..]))
  }

  function MappingMembers(pre: string, base: IntSpec, members: seq<EnumMember>): Members
    decreases |members|
  {
    if members == [] then NoMembers
    else Mem(pre, members[0].name, Prim(NumText(NativeReading(base, members[0].value))),
             MappingMembers(" ", base, members[1..]))
  }

  function Tree(t: DType): Value
    requires Supported(t)
    decreases t
  {
    match t
    case Int(spec) => IntTree(spec)
    case Float(size, order) =>
      Obj("", Mem("", "class", Text("H5T_FLOAT"), Mem(" ", "base", Text(FloatName(size, order)), NoMembers)))
    case FixedString(length, _, _) => StringTree("H5T_STR_NULLPAD", Prim(NumText(length)))
    case VarString(_, _) => StringTree("H5T_STR_NULLTERM", Text("H5T_VARIABLE"))
    case Compound(_, fields) =>
      Obj("", Mem("", "class", Text("H5T_COMPOUND"),
                  Mem(" ", "fields", Arr("", FieldItems("", fields)), NoMembers)))
    case Enum(base, members) =>
      Obj("", Mem("", "class", Text("H5T_ENUM"), Mem(" ", "base", IntTree(base),
          Mem(" ", "mapping", Obj("", MappingMembers("", base, members)), NoMembers))))
    case Array(elem, dims) =>
      Obj("", Mem("", "class", Text("H5T_ARRAY"), Mem(" ", "base", Tree(elem),
          Mem(" ", "dims", Arr("", DimItems(dims)), NoMembers))))
    case ObjectRef => RefTree("H5T_STD_REF_OBJ")
    case RegionRef => RefTree("H5T_STD_REF_DSETREG")
  }

  function FieldTree(name: string, body: Value): Value {
    Obj("", Mem("", "name", Text(name), Mem(" ", "type", body, NoMembers)))
  }

  function FieldItems(pre: string, fields: Fields): Items
    requires SupportedFields(fields)
    decreases fields
  {
    if fields.NoFields? then NoItems
    else Item(pre, FieldTree(fields.name, Tree(fields.ty)), "", FieldItems(" ", fields.rest))
  }

  // The object the parser is given: the printed type behind the key "type", with blanks before
  // and after the colon.
  function Wrap(before: string, sp: string, body: Value): Value {
    Obj("", Member("", Plains("type"), before, sp, body, "", NoMembers))
  }

  // ---------- the trees render to the printed text ----------

  lemma {:induction false} PlainsText(s: string)
    ensures BodyText(Plains(s)) == s && Quoted(Plains(s)) == Q(s)
    decreases |s|
  {
    if s != "" {
      PlainsText(s[1..]);
      assert Plains(s)[1..] == Plains(s[1..]);
      assert s == [s[0]] + s[1..];
    }
  }

  lemma MemText(pre: string, key: string, val: Value, rest: Members)
    ensures RenderMembers(Mem(pre, key, val, rest))
         == pre + Entry(key, Render(val)) + (if rest.NoMembers? then "" else "," + RenderMembers(rest))
  {
    hide Render, Quoted, Q;
    PlainsText(key);
    assert pre + Q(key) + "" + ":" + " " + Render(val) + "" == pre + (Q(key) + ": " + Render(val));
  }

  lemma TextText(s: string)
    ensures Render(Text(s)) == Q(s)
  {
    PlainsText(s);
  }

  lemma TwoText(pre: string, k1: string, v1: Value, k2: string, v2: Value)
    ensures Render(Obj("", Mem("", k1, v1, Mem(pre, k2, v2, NoMembers))))
         == "{" + Entry(k1, Render(v1)) + ("," + pre) + Entry(k2, Render(v2)) + "}"
  {
    hide Entry, Render;
    var m2 := Mem(pre, k2, v2, NoMembers);
    MemText("", k1, v1, m2);
    MemText(pre, k2, v2, NoMembers);
    ObjText(Mem("", k1, v1, m2));
    JoinTwo(Entry(k1, Render(v1)), pre, Entry(k2, Render(v2)));
  }

  lemma JoinTwo(a: string, pre: string, b: string)
    ensures "{" + ("" + a + ("," + (pre + b + ""))) + "}" == "{" + a + ("," + pre) + b + "}"
  {
  }

  lemma ThreeText(k1: string, v1: Value, k2: string, v2: Value, k3: string, v3: Value)
    ensures Render(Obj("", Mem("", k1, v1, Mem(" ", k2, v2, Mem(" ", k3, v3, NoMembers)))))
         == "{" + Entry(k1, Render(v1)) + ", " + Entry(k2, Render(v2)) + ", " + Entry(k3, Render(v3)) + "}"
  {
    hide Entry, Render;
    var m3 := Mem(" ", k3, v3, NoMembers);
    var m2 := Mem(" ", k2, v2, m3);
    MemText("", k1, v1, m2);
    MemText(" ", k2, v2, m3);
    MemText(" ", k3, v3, NoMembers);
    ObjText(Mem("", k1, v1, m2));
    JoinThree(Entry(k1, Render(v1)), Entry(k2, Render(v2)), Entry(k3, Render(v3)));
  }

  lemma ObjText(members: Members)
    requires members.Member?
    ensures Render(Obj("", members)) == "{" + RenderMembers(members) + "}"
  {
  }

  lemma JoinThree(a: string, b: string, c: string)
    ensures "{" + ("" + a + ("," + (" " + b + ("," + (" " + c + ""))))) + "}" == "{" + a + ", " + b + ", " + c + "}"
  {
  }

  lemma JoinFour(a: string, b: string, c: string, d: string)
    ensures "{" + ("" + a + ("," + (" " + b + ("," + (" " + c + ("," + (" " + d + ""))))))) + "}"
         == "{" + a + ", " + b + ", " + c + ", " + d + "}"
  {
    JoinThree(a, b, c + ("," + (" " + d + "")));
    assert c + ("," + (" " + d + "")) + "" == c + ("," + (" " + d + ""));
    var l := "{" + a + ", " + b + ", ";
    assert l + (c + ("," + (" " + d + ""))) + "}" == l + c + ", " + d + "}";
  }

  lemma StringText(pad: string, length: Value)
    ensures Render(StringTree(pad, length))
         == "{" + Entry("class", Q("H5T_STRING")) + ", " + Entry("charSet", Q("H5T_CSET_ASCII")) + ", "
            + Entry("strPad", Q(pad)) + ", " + Entry("length", Render(length)) + "}"
  {
    hide Entry, Q, Render, Text;
    TextText("H5T_STRING");
    TextText("H5T_CSET_ASCII");
    TextText(pad);
    FourText("class", Text("H5T_STRING"), "charSet", Text("H5T_CSET_ASCII"), "strPad", Text(pad), "length", length);
  }

  lemma FourText(k1: string, v1: Value, k2: string, v2: Value, k3: string, v3: Value, k4: string, v4: Value)
    ensures Render(Obj("", Mem("", k1, v1, Mem(" ", k2, v2, Mem(" ", k3, v3, Mem(" ", k4, v4, NoMembers))))))
         == "{" + Entry(k1, Render(v1)) + ", " + Entry(k2, Render(v2)) + ", "
            + Entry(k3, Render(v3)) + ", " + Entry(k4, Render(v4)) + "}"
  {
    hide Entry, Render;
    var m4 := Mem(" ", k4, v4, NoMembers);
    var m3 := Mem(" ", k3, v3, m4);
    var m2 := Mem(" ", k2, v2, m3);
    MemText("", k1, v1, m2);
    MemText(" ", k2, v2, m3);
    MemText(" ", k3, v3, m4);
    MemText(" ", k4, v4, NoMembers);
    ObjText(Mem("", k1, v1, m2));
    JoinFour(Entry(k1, Render(v1)), Entry(k2, Render(v2)), Entry(k3, Render(v3)), Entry(k4, Render(v4)));
  }

  lemma {:induction false} DimItemsText(dims: seq<nat>)
    requires dims != []
    ensures RenderItems(DimItems(dims)) == DimsText(dims)
  {
    var d := NumText(dims[0]);
    if |dims| > 1 {
      DimItemsText(dims[1..]);
      assert "" + d + "" + ("," + DimsText(dims[1..])) == d + "," + DimsText(dims[1..]);
    } else {
      assert "" + d + "" + "" == d;
    }
  }

  lemma {:induction false} MappingMembersText(pre: string, base: IntSpec, members: seq<EnumMember>)
    requires members != []
    ensures RenderMembers(MappingMembers(pre, base, members)) == pre + MappingText(base, members)
    decreases |members|
  {
    hide Entry, NumText, NativeReading, RenderMembers;
    var val := Prim(NumText(NativeReading(base, members[0].value)));
    var e := Entry(members[0].name, NumText(NativeReading(base, members[0].value)));
    MemText(pre, members[0].name, val, MappingMembers(" ", base, members[1..]));
    if |members| > 1 {
      MappingMembersText(" ", base, members[1..]);
      JoinRest(pre, e, MappingText(base, members[1..]));
    } else {
      assert pre + e + "" == pre + (e + "");
    }
  }

  lemma JoinRest(pre: string, e: string, rest: string)
    ensures pre + e + ("," + (" " + rest)) == pre + (e + (", " + rest))
  {
  }

  lemma MappingObjectText(base: IntSpec, members: seq<EnumMember>)
    ensures Render(Obj("", MappingMembers("", base, members))) == "{" + MappingText(base, members) + "}"
  {
    if members != [] {
      MappingMembersText("", base, members);
      assert "" + MappingText(base, members) == MappingText(base, members);
    }
  }

  lemma {:induction false} TreeText(t: DType)
    requires Supported(t)
    ensures Render(Tree(t)) == Body(t)
  {
    hide Entry, Q, Render, Text, IntName, FloatName, Digits, FieldsText, MappingText, DimsText, MappingMembers, DimItems, DimsFit;
    match t
    case Int(spec) => IntTreeText(spec);
    case Float(size, order) =>
      TextText("H5T_FLOAT");
      TextText(FloatName(size, order));
      TwoText(" ", "class", Text("H5T_FLOAT"), "base", Text(FloatName(size, order)));
    case FixedString(length, _, _) =>
      StringText("H5T_STR_NULLPAD", Prim(NumText(length)));
      PrimText(NumText(length));
    case VarString(_, _) =>
      TextText("H5T_VARIABLE");
      StringText("H5T_STR_NULLTERM", Text("H5T_VARIABLE"));
    case Compound(_, fields) =>
      TextText("H5T_COMPOUND");
      FieldsArrayText(fields);
      TwoText(" ", "class", Text("H5T_COMPOUND"), "fields", Arr("", FieldItems("", fields)));
    case Enum(base, members) =>
      TextText("H5T_ENUM");
      IntTreeText(base);
      MappingObjectText(base, members);
      ThreeText("class", Text("H5T_ENUM"), "base", IntTree(base), "mapping", Obj("", MappingMembers("", base, members)));
    case Array(elem, dims) =>
      TextText("H5T_ARRAY");
      TreeText(elem);
      DimsArrayText(dims);
      ThreeText("class", Text("H5T_ARRAY"), "base", Tree(elem), "dims", Arr("", DimItems(dims)));
    case ObjectRef => RefText("H5T_STD_REF_OBJ");
    case RegionRef => RefText("H5T_STD_REF_DSETREG");
  }

  lemma PrimText(s: string)
    ensures Render(Prim(s)) == s
  {
  }

  lemma RefText(name: string)
    ensures Render(RefTree(name)) == "{" + Entry("class", Q("H5T_REFERENCE")) + "," + Entry("base", Q(name)) + "}"
  {
    hide Entry, Q, Render, Text;
    TextText("H5T_REFERENCE");
    TextText(name);
    TwoText("", "class", Text("H5T_REFERENCE"), "base", Text(name));
    assert "," + "" == ",";
  }

  lemma IntTreeText(i: IntSpec)
    ensures Render(IntTree(i)) == IntBody(i)
  {
    hide Entry, Q, Render, Text, IntName;
    TextText("H5T_INTEGER");
    TextText(IntName(i));
    TwoText(" ", "class", Text("H5T_INTEGER"), "base", Text(IntName(i)));
  }

  lemma DimsArrayText(dims: seq<nat>)
    requires dims != []
    ensures Render(Arr("", DimItems(dims))) == "[" + DimsText(dims) + "]"
  {
    DimItemsText(dims);
  }

  lemma {:induction false} FieldsArrayText(fields: Fields)
    requires SupportedFields(fields)
    ensures Render(Arr("", FieldItems("", fields))) == "[" + FieldsText(fields) + "]"
    decreases fields, 1
  {
    hide FieldTree, FieldText, Body, Tree;
    if fields.Field? {
      FieldItemsText("", fields);
      assert "" + FieldsText(fields) == FieldsText(fields);
    }
  }

  lemma FieldTreeText(name: string, body: Value)
    ensures Render(FieldTree(name, body)) == FieldText(name, Render(body))
  {
    hide Entry, Q, Render, Text;
    TextText(name);
    TwoText(" ", "name", Text(name), "type", body);
  }

  lemma {:induction false} FieldItemsText(pre: string, fields: Fields)
    requires SupportedFields(fields) && fields.Field?
    ensures RenderItems(FieldItems(pre, fields)) == pre + FieldsText(fields)
    decreases fields, 0
  {
    hide FieldTree, FieldText, Body, Tree;
    FieldTreeText(fields.name, Tree(fields.ty));
    TreeText(fields.ty);
    var f := FieldText(fields.name, Body(fields.ty));
    if fields.rest.Field? {
      FieldItemsText(" ", fields.rest);
      var rest := FieldsText(fields.rest);
      assert pre + f + "" + ("," + (" " + rest)) == pre + (f + (", " + rest));
    } else {
      assert pre + f + "" + "" == pre + (f + "");
    }
  }

  // ---------- the trees are JSON ----------

  predicate AllPlain(s: string) {
    forall i :: 0 <= i < |s| ==> ValidPart(Plain(s[i]))
  }

  lemma {:induction false} DigitsPlain(n: nat)
    ensures AllPlain(Digits(n))
  {
    DigitsRead(n);
    forall i | 0 <= i < |Digits(n)| ensures ValidPart(Plain(Digits(n)[i])) { assert IsDigit(Digits(n)[i]); }
  }

  lemma NamesPlain(i: IntSpec, size: nat, order: Order)
    ensures AllPlain(IntName(i)) && AllPlain(FloatName(size, order))
  {
    DigitsPlain(i.size * 8);
    DigitsPlain(size * 8);
  }

  lemma MemValid(pre: string, key: string, val: Value, rest: Members)
    requires AllWs(pre) && AllPlain(key) && Valid(val) && ValidMembers(rest)
    ensures ValidMembers(Mem(pre, key, val, rest))
  {
  }

  lemma TextValid(s: string)
    requires AllPlain(s)
    ensures Valid(Text(s))
  {
  }

  lemma NumValid(n: int)
    ensures Valid(Prim(NumText(n)))
  {
    NumTextRead(n);
  }

  lemma TwoValid(pre: string, k1: string, v1: Value, k2: string, v2: Value)
    requires AllWs(pre) && AllPlain(k1) && AllPlain(k2) && Valid(v1) && Valid(v2)
    ensures Valid(Obj("", Mem("", k1, v1, Mem(pre, k2, v2, NoMembers))))
  {
    MemValid(pre, k2, v2, NoMembers);
    MemValid("", k1, v1, Mem(pre, k2, v2, NoMembers));
  }

  lemma ThreeValid(k1: string, v1: Value, k2: string, v2: Value, k3: string, v3: Value)
    requires AllPlain(k1) && AllPlain(k2) && AllPlain(k3) && Valid(v1) && Valid(v2) && Valid(v3)
    ensures Valid(Obj("", Mem("", k1, v1, Mem(" ", k2, v2, Mem(" ", k3, v3, NoMembers)))))
  {
    MemValid(" ", k3, v3, NoMembers);
    MemValid(" ", k2, v2, Mem(" ", k3, v3, NoMembers));
    MemValid("", k1, v1, Mem(" ", k2, v2, Mem(" ", k3, v3, NoMembers)));
  }

  lemma StringValid(pad: string, length: Value)
    requires AllPlain(pad) && Valid(length)
    ensures Valid(StringTree(pad, length))
  {
    hide Valid, ValidMembers;
    TextValid("H5T_STRING");
    TextValid("H5T_CSET_ASCII");
    TextValid(pad);
    NoMembersValid();
    MemValid(" ", "length", length, NoMembers);
    var m3 := Mem(" ", "strPad", Text(pad), Mem(" ", "length", length, NoMembers));
    MemValid(" ", "strPad", Text(pad), Mem(" ", "length", length, NoMembers));
    var m2 := Mem(" ", "charSet", Text("H5T_CSET_ASCII"), m3);
    MemValid(" ", "charSet", Text("H5T_CSET_ASCII"), m3);
    MemValid("", "class", Text("H5T_STRING"), m2);
    ObjValid(Mem("", "class", Text("H5T_STRING"), m2));
  }

  lemma NoMembersValid()
    ensures ValidMembers(NoMembers)
  {
  }

  lemma ObjValid(members: Members)
    requires ValidMembers(members)
    ensures Valid(Obj("", members))
  {
  }

  lemma IntTreeValid(i: IntSpec)
    ensures Valid(IntTree(i))
  {
    hide Valid, IntName;
    NamesPlain(i, 1, LE);
    TextValid("H5T_INTEGER");
    TextValid(IntName(i));
    TwoValid(" ", "class", Text("H5T_INTEGER"), "base", Text(IntName(i)));
  }

  lemma {:induction false} MappingValid(pre: string, base: IntSpec, members: seq<EnumMember>)
    requires AllWs(pre) && forall i :: 0 <= i < |members| ==> PlainName(members[i].name)
    ensures ValidMembers(MappingMembers(pre, base, members))
    decreases |members|
  {
    hide Valid, NumText, NativeReading;
    if members != [] {
      NumValid(NativeReading(base, members[0].value));
      MappingValid(" ", base, members[1..]);
      assert PlainName(members[0].name);
    }
  }

  lemma {:induction false} DimItemsValid(dims: seq<nat>)
    ensures ValidItems(DimItems(dims))
  {
    hide Valid, NumText;
    if dims != [] {
      NumValid(dims[0]);
      DimItemsValid(dims[1..]);
    }
  }

  // The keys and fixed values the printer writes.
  lemma WordsPlain()
    ensures AllPlain("class") && AllPlain("base") && AllPlain("fields") && AllPlain("dims") && AllPlain("mapping")
    ensures AllPlain("H5T_FLOAT") && AllPlain("H5T_COMPOUND") && AllPlain("H5T_ENUM") && AllPlain("H5T_ARRAY")
    ensures AllPlain("H5T_STR_NULLPAD") && AllPlain("H5T_STR_NULLTERM") && AllPlain("H5T_VARIABLE")
    ensures AllPlain("H5T_STD_REF_OBJ") && AllPlain("H5T_STD_REF_DSETREG")
  {
    hide AllPlain;
    KeysPlain();
    ClassesPlain();
    StringValuesPlain();
    ReferencesPlain();
  }

  lemma KeysPlain()
    ensures AllPlain("class") && AllPlain("base") && AllPlain("fields") && AllPlain("dims") && AllPlain("mapping")
  {
  }

  lemma ClassesPlain()
    ensures AllPlain("H5T_FLOAT") && AllPlain("H5T_COMPOUND") && AllPlain("H5T_ENUM") && AllPlain("H5T_ARRAY")
  {
  }

  lemma StringValuesPlain()
    ensures AllPlain("H5T_STR_NULLPAD") && AllPlain("H5T_STR_NULLTERM") && AllPlain("H5T_VARIABLE")
  {
  }

  lemma ReferencesPlain()
    ensures AllPlain("H5T_STD_REF_OBJ") && AllPlain("H5T_STD_REF_DSETREG")
  {
  }

  lemma {:induction false} TreeValid(t: DType)
    requires Supported(t) && WellFormed(t)
    ensures Valid(Tree(t))
  {
    hide AllPlain, IntTree, StringTree, RefTree, FieldItems, Text, IntName, FloatName, NumText, MappingMembers, DimItems, DimsFit, Valid, DistinctNames, DistinctMembers;
    WordsPlain();
    match t
    case Int(spec) => IntTreeValid(spec);
    case Float(size, order) =>
      NamesPlain(IntSpec(1, true, LE), size, order);
      TextValid("H5T_FLOAT");
      TextValid(FloatName(size, order));
      TwoValid(" ", "class", Text("H5T_FLOAT"), "base", Text(FloatName(size, order)));
    case FixedString(length, _, _) =>
      NumValid(length);
      StringValid("H5T_STR_NULLPAD", Prim(NumText(length)));
    case VarString(_, _) =>
      TextValid("H5T_VARIABLE");
      StringValid("H5T_STR_NULLTERM", Text("H5T_VARIABLE"));
    case Compound(_, fields) =>
      TextValid("H5T_COMPOUND");
      FieldItemsValid("", fields);
      ArrValid(FieldItems("", fields));
      TwoValid(" ", "class", Text("H5T_COMPOUND"), "fields", Arr("", FieldItems("", fields)));
    case Enum(base, members) =>
      TextValid("H5T_ENUM");
      IntTreeValid(base);
      MappingValid("", base, members);
      ObjValid(MappingMembers("", base, members));
      ThreeValid("class", Text("H5T_ENUM"), "base", IntTree(base), "mapping", Obj("", MappingMembers("", base, members)));
    case Array(elem, dims) =>
      TextValid("H5T_ARRAY");
      TreeValid(elem);
      DimItemsValid(dims);
      ArrValid(DimItems(dims));
      ThreeValid("class", Text("H5T_ARRAY"), "base", Tree(elem), "dims", Arr("", DimItems(dims)));
    case ObjectRef => RefValid("H5T_STD_REF_OBJ");
    case RegionRef => RefValid("H5T_STD_REF_DSETREG");
  }

  lemma TreeIsObject(t: DType)
    requires Supported(t)
    ensures Tree(t).Obj? && Tree(t).members.Member?
  {
  }

  lemma ArrValid(items: Items)
    requires ValidItems(items)
    ensures Valid(Arr("", items))
  {
  }

  lemma RefValid(name: string)
    requires AllPlain(name)
    ensures Valid(RefTree(name))
  {
    hide Valid;
    TextValid("H5T_REFERENCE");
    TextValid(name);
    TwoValid("", "class", Text("H5T_REFERENCE"), "base", Text(name));
  }

  lemma {:induction false} FieldItemsValid(pre: string, fields: Fields)
    requires AllWs(pre) && SupportedFields(fields) && WellFormedFields(fields)
    ensures ValidItems(FieldItems(pre, fields))
    decreases fields
  {
    hide Tree, Valid, Text, Supported, WellFormed;
    if fields.Field? {
      TreeValid(fields.ty);
      TextValid(fields.name);
      TwoValid(" ", "name", Text(fields.name), "type", Tree(fields.ty));
      FieldItemsValid(" ", fields.rest);
    }
  }

  lemma WrapValid(before: string, sp: string, body: Value)
    requires Valid(body) && AllWs(before) && AllWs(sp)
    ensures Valid(Wrap(before, sp, body))
  {
    hide Valid;
    assert AllPlain("type");
    WrapMemberValid(before, sp, body);
    ObjValid(Member("", Plains("type"), before, sp, body, "", NoMembers));
  }

  lemma WrapMemberValid(before: string, sp: string, body: Value)
    requires Valid(body) && AllWs(before) && AllWs(sp)
    ensures ValidMembers(Member("", Plains("type"), before, sp, body, "", NoMembers))
  {
    assert AllPlain("type");
  }
}
