/**
 `RV_convert_datatype_to_JSON` as written: one buffer that grows, one loop per kind of list.
 `memory` is what reading the parts of a buffer that nothing has been written to comes to.
 */
module DatatypePrinter {
  import opened Datatype
  import opened Wrappers

  method ConvertDatatypeToJson(t: DType, nested: bool, memory: Memory) returns (r: Option<string>)
    ensures r == PrintFrom(t, nested, memory)
    decreases t, 1
  {
    hide Lead, Entry, Q, IntBody, CompoundText, EnumText, ArrayText, FieldsFrom, MappingText, DimsText, DimsFit;
    var out := Lead(nested);
    match t
    case Int(spec) =>
      if spec.size == 0 || |IntName(spec)| >= PREDEFINED_NAME_MAX { return None; }
      return Some(out + IntBody(spec));
    case Float(size, order) =>
      if size == 0 || |FloatName(size, order)| >= PREDEFINED_NAME_MAX { return None; }
      return Some(out + ("{" + Entry("class", Q("H5T_FLOAT")) + ", "
                         + Entry("base", Q(FloatName(size, order))) + "}"));
    case FixedString(length, _, _) =>
      if length == 0 { return None; }
      return Some(out + ("{" + Entry("class", Q("H5T_STRING")) + ", " + Entry("charSet", Q("H5T_CSET_ASCII")) + ", "
                         + Entry("strPad", Q("H5T_STR_NULLPAD")) + ", " + Entry("length", Digits(length)) + "}"));
    case VarString(_, _) =>
      return Some(out + ("{" + Entry("class", Q("H5T_STRING")) + ", " + Entry("charSet", Q("H5T_CSET_ASCII")) + ", "
                         + Entry("strPad", Q("H5T_STR_NULLTERM")) + ", "
                         + Entry("length", Q("H5T_VARIABLE")) + "}"));
    case Compound(csize, fields) =>
      if csize == 0 { return None; }
      var text := PrintFields(t, nested, memory);
      if text.None? { return None; }
      return Some(out + CompoundText(text.value));
    case Enum(base, members) =>
      if base.size == 0 || |IntName(base)| >= PREDEFINED_NAME_MAX { return None; }
      var mapping := PrintMapping(t, memory);
      if mapping.None? { return None; }
      return Some(out + EnumText(base, mapping.value));
    case Array(elem, dims) =>
      if dims == [] { return None; }
      var shape := PrintDims(dims);
      if shape.None? { return None; }
      var base := ConvertDatatypeToJson(elem, true, memory);
      if base.None? { return None; }
      NestedHasNoKey(elem, memory);
      ArrayTextUnfold(base.value, dims);
      return Some(out + ("{" + Entry("class", Q("H5T_ARRAY")) + ", " + Entry("base", base.value) + ", "
                         + Entry("dims", "[" + shape.value + "]") + "}"));
    case ObjectRef =>
      return Some(out + ("{" + Entry("class", Q("H5T_REFERENCE")) + "," + Entry("base", Q("H5T_STD_REF_OBJ")) + "}"));
    case RegionRef =>
      return Some(out + ("{" + Entry("class", Q("H5T_REFERENCE")) + "," + Entry("base", Q("H5T_STD_REF_DSETREG")) + "}"));
    case Unsupported(_) =>
      return None;
  }

  lemma NestedHasNoKey(t: DType, memory: Memory)
    ensures PrintFrom(t, true, memory) == BodyFrom(t, true, memory)
  {
    hide BodyFrom;
    var body := BodyFrom(t, true, memory);
    if body.Some? { assert "" + body.value == body.value; }
  }

  lemma ArrayTextUnfold(base: string, dims: seq<nat>)
    requires dims != []
    ensures ArrayText(base, dims)
         == "{" + Entry("class", Q("H5T_ARRAY")) + ", " + Entry("base", base) + ", "
            + Entry("dims", "[" + DimsText(dims) + "]") + "}"
  {
  }

  lemma Assoc(a: string, b: string, c: string)
    ensures (a + b) + c == a + (b + c)
  {
  }

  // ---------- compound members ----------

  function Prepend(s: string, text: Option<string>): Option<string> {
    match text case Some(t) => Some(s + t) case None => None
  }

  lemma PrependTwice(a: string, b: string, text: Option<string>)
    ensures Prepend(a, Prepend(b, text)) == Prepend(a + b, text)
  {
    if text.Some? { Assoc(a, b, text.value); }
  }

  lemma PrependNothing(text: Option<string>)
    ensures Prepend("", text) == text
  {
    if text.Some? { assert "" + text.value == text.value; }
  }

  // A list printed element by element: `sofar` ends in the comma that announces the next one.
  lemma FieldsUnfold(fields: Fields, memory: Memory)
    requires fields.Field?
    ensures var body := BodyFrom(fields.ty, false, memory);
      FieldsFrom(fields, memory) ==
      if body.None? then None
      else Prepend(FieldText(fields.name, body.value) + (if fields.rest.Field? then ", " else ""),
                   FieldsFrom(fields.rest, memory))
  {
    hide FieldText, BodyFrom;
  }

  lemma FieldUnfold(name: string, body: string)
    ensures FieldText(name, body) == "{" + Entry("name", Q(name)) + ", " + (Lead(false) + body) + "}"
  {
    hide Q;
    Assoc("{" + Entry("name", Q(name)) + ", ", Q("type") + ": ", body);
  }

  // The loop over a compound's members. Without a leading key before them, the buffer has no end
  // until the first member is printed.
  method PrintFields(t: DType, nested: bool, memory: Memory) returns (r: Option<string>)
    requires t.Compound?
    ensures r == if nested && t.fields.NoFields? then memory(t) else FieldsFrom(t.fields, memory)
    decreases t, 0
  {
    hide BodyFrom, Entry, Q, FieldsFrom, FieldText, Lead;
    if nested && t.fields.NoFields? {
      return memory(t);
    }
    var out := "";
    var left := t.fields;
    PrependNothing(FieldsFrom(left, memory));
    while left.Field?
      invariant t.fields == left || (t.fields decreases to left)
      invariant FieldsFrom(t.fields, memory) == Prepend(out, FieldsFrom(left, memory))
      decreases left
    {
      FieldsUnfold(left, memory);
      var body := ConvertDatatypeToJson(left.ty, false, memory);
      if body.None? { return None; }
      ghost var text := BodyFrom(left.ty, false, memory).value;
      var item := "{" + Entry("name", Q(left.name)) + ", " + body.value + "}" + (if left.rest.Field? then ", " else "");
      FieldUnfold(left.name, text);
      PrependTwice(out, item, FieldsFrom(left.rest, memory));
      out := out + item;
      left := left.rest;
    }
    FieldsEnd(memory);
    assert out + "" == out;
    return Some(out);
  }

  lemma FieldsEnd(memory: Memory)
    ensures FieldsFrom(NoFields, memory) == Some("")
  {
  }

  // ---------- enum members ----------

  lemma MappingUnfold(base: IntSpec, members: seq<EnumMember>)
    requires members != []
    ensures MappingText(base, members)
         == Entry(members[0].name, NumText(NativeReading(base, members[0].value)))
            + (if |members| > 1 then ", " else "") + MappingText(base, members[1..])
  {
    hide Entry, NumText, NativeReading;
    Assoc(Entry(members[0].name, NumText(NativeReading(base, members[0].value))), ", ", MappingText(base, members[1..]));
  }

  // The loop over an enum's members; before it the buffer is as allocated.
  method PrintMapping(t: DType, memory: Memory) returns (r: Option<string>)
    requires t.Enum?
    ensures r == if t.members == [] then memory(t) else Some(MappingText(t.base, t.members))
  {
    hide Entry, NumText, NativeReading, MappingText;
    var base, members := t.base, t.members;
    var buffer := memory(t);
    var out := "";
    var i := 0;
    assert members[0..] == members && "" + MappingText(base, members) == MappingText(base, members);
    while i < |members|
      invariant 0 <= i <= |members|
      invariant buffer == if i == 0 then memory(t) else Some(out)
      invariant MappingText(base, members) == out + MappingText(base, members[i..])
    {
      var entry := Entry(members[i].name, NumText(NativeReading(base, members[i].value)))
                   + (if i < |members| - 1 then ", " else "");
      MappingUnfold(base, members[i..]);
      assert members[i..][1..] == members[i + 1..];
      Assoc(out, entry, MappingText(base, members[i + 1..]));
      out := out + entry;
      buffer := Some(out);
      i := i + 1;
    }
    MappingEnd(base);
    assert members[i..] == [] && out + "" == out;
    return buffer;
  }

  lemma MappingEnd(base: IntSpec)
    ensures MappingText(base, []) == ""
  {
  }

  // ---------- array dimensions ----------

  lemma DimsUnfold(dims: seq<nat>, i: nat, out: string)
    requires i < |dims|
    ensures i + 1 < |dims| ==>
      out + DimsText(dims[i..]) == (out + Digits(dims[i])) + ("," + DimsText(dims[i + 1..]))
    ensures i + 1 == |dims| ==> out + DimsText(dims[i..]) == out + Digits(dims[i])
  {
    hide Digits;
    assert dims[i..][1..] == dims[i + 1..];
    if i + 1 < |dims| {
      var d, rest := Digits(dims[i]), DimsText(dims[i + 1..]);
      Assoc(d, ",", rest);
      Assoc(out, d, "," + rest);
    }
  }

  method PrintDims(dims: seq<nat>) returns (r: Option<string>)
    requires dims != []
    ensures r == if DimsFit(dims) then Some(DimsText(dims)) else None
  {
    hide Digits, DimsText;
    var out := "";
    var i := 0;
    assert dims[0..] == dims && "" + ("" + DimsText(dims)) == DimsText(dims);
    while i < |dims|
      invariant 0 <= i <= |dims|
      invariant forall k :: 0 <= k < i ==> (if k > 0 then 1 else 0) + |Digits(dims[k])| < MAX_NUM_LENGTH
      invariant i < |dims| ==> DimsText(dims) == out + ((if i > 0 then "," else "") + DimsText(dims[i..]))
      invariant i == |dims| ==> DimsText(dims) == out
    {
      var comma := if i > 0 then "," else "";
      var piece := comma + Digits(dims[i]);
      if |piece| >= MAX_NUM_LENGTH { return None; }
      Assoc(out, comma, DimsText(dims[i..]));
      DimsUnfold(dims, i, out + comma);
      Assoc(out, comma, Digits(dims[i]));
      out := out + piece;
      i := i + 1;
    }
    return Some(out);
  }
}
