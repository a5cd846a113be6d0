/**
 What `RV_convert_JSON_to_datatype` accepts, whoever wrote the text: which strings, names and
 numbers a type may be made of, and what every accepted type looks like.
 */
module DatatypeAccepted {
  import opened R = Rfc8259
  import opened JsonReader
  import opened Wrappers
  import opened Datatype
  import opened DatatypeReader
  import opened DatatypeRoundTrip

  // ---------- leaves ----------

  /** A string type is ASCII; it is of variable length, ended by NUL, if its length is a text, and
      of fixed length, padded with NULs, if its length is a positive integer. */
  lemma StringTypeExactly(tree: Value, t: DType)
    ensures StringType(tree) == Some(t) <==>
      && GetString(tree, "charSet") == Some("H5T_CSET_ASCII") && Get(tree, "length").Some?
      && (if Get(tree, "length").value.Str?
          then GetString(tree, "strPad") == Some("H5T_STR_NULLTERM") && t == VarString(Ascii, NullTerm)
          else && GetString(tree, "strPad") == Some("H5T_STR_NULLPAD")
               && t.FixedString? && t.length > 0 && t.cset == Ascii && t.pad == NullPad
               && IntegerIn(Get(tree, "length").value) == Some(t.length))
  {
    hide Get, GetString, IntegerIn;
  }

  lemma RefTypeExactly(tree: Value, t: DType)
    ensures RefType(tree) == Some(t) <==>
      || (t == ObjectRef && GetString(tree, "base") == Some("H5T_STD_REF_OBJ"))
      || (t == RegionRef && GetString(tree, "base") == Some("H5T_STD_REF_DSETREG"))
  {
    hide Get, GetString;
  }

  lemma WidthText(size: nat)
    requires IntSizeKnown(size)
    ensures Digits(size * 8) == (if size == 1 then "8" else if size == 2 then "16" else if size == 4 then "32" else "64")
  {
    assert Digits(8) == "8" && Digits(1) == "1" && Digits(3) == "3" && Digits(6) == "6";
  }

  /** An integer name is told by its sign letter, the first digit of its width and its order letter,
      at the places where the printed name of the type has them, and by nothing else. */
  lemma IntNamedExactly(name: string, spec: IntSpec)
    ensures IntNamed(name) == Some(Int(spec)) <==>
      && IntSizeKnown(spec.size)
      && CharAt(name, 9) == IntName(spec)[9]
      && (CharAt(name, 8) == 'U' <==> !spec.signed)
      && (CharAt(name, |IntName(spec)| - 2) == 'L' <==> spec.order == LE)
  {
    if IntSizeKnown(spec.size) {
      WidthText(spec.size);
      hide Digits;
      assert IntName(spec)[9] == Digits(spec.size * 8)[0];
    }
  }

  lemma FloatNamedExactly(name: string, size: nat, order: Order)
    ensures FloatNamed(name) == Some(Float(size, order)) <==>
      && (size == 4 || size == 8)
      && CharAt(name, 10) == FloatName(size, order)[10]
      && (CharAt(name, 12) == 'L' <==> order == LE)
  {
    if size == 4 || size == 8 {
      WidthText(size);
      hide Digits;
      assert FloatName(size, order)[10] == Digits(size * 8)[0];
    }
  }

  // ---------- lists ----------

  function Elements(items: Items): seq<Value> {
    if items.NoItems? then [] else [items.val] + Elements(items.rest)
  }

  function Pairs(members: Members): seq<(StrBody, Value)> {
    if members.NoMembers? then [] else [(members.key, members.val)] + Pairs(members.rest)
  }

  /** Dimensions are positive integers, all of them. */
  lemma {:induction false} DimsExactly(items: Items, dims: seq<nat>)
    ensures Dims(items) == Some(dims) <==>
      && |dims| == |Elements(items)|
      && forall k :: 0 <= k < |dims| ==> dims[k] > 0 && IntegerIn(Elements(items)[k]) == Some(dims[k])
    decreases items
  {
    hide IntegerIn;
    if items.Item? {
      var values := Elements(items);
      assert values[1..] == Elements(items.rest);
      if dims != [] {
        DimsExactly(items.rest, dims[1..]);
        assert dims == [dims[0]] + dims[1..];
      }
      if Dims(items).Some? { DimsExactly(items.rest, Dims(items.rest).value); }
    }
  }

  /** An enum has a member for every entry of its mapping, in order: the names are not empty, the
      values integers, taken to the nearest value of the base. */
  lemma {:induction false} MappingExactly(base: IntSpec, members: Members, r: seq<EnumMember>)
    ensures Mapping(base, members) == Some(r) <==>
      && |r| == |Pairs(members)|
      && forall k :: 0 <= k < |r| ==>
           && r[k].name != "" && StringOf(Str(Pairs(members)[k].0)) == Some(r[k].name)
           && IntegerIn(Pairs(members)[k].1).Some?
           && r[k].value == Saturate(base, IntegerIn(Pairs(members)[k].1).value)
    decreases members
  {
    hide IntegerIn, StringOf, Saturate;
    if members.Member? {
      assert Pairs(members)[1..] == Pairs(members.rest);
      if r != [] {
        MappingExactly(base, members.rest, r[1..]);
        assert r == [r[0]] + r[1..];
      }
      if Mapping(base, members).Some? { MappingExactly(base, members.rest, Mapping(base, members.rest).value); }
    }
  }

  // ---------- every accepted type ----------

  function ClassName(t: DType): string {
    match t
    case Int(_) => "H5T_INTEGER"
    case Float(_, _) => "H5T_FLOAT"
    case FixedString(_, _, _) => "H5T_STRING"
    case VarString(_, _) => "H5T_STRING"
    case Compound(_, _) => "H5T_COMPOUND"
    case Enum(_, _) => "H5T_ENUM"
    case Array(_, _) => "H5T_ARRAY"
    case ObjectRef => "H5T_REFERENCE"
    case RegionRef => "H5T_REFERENCE"
    case Unsupported(_) => ""
  }

  // Sizes the parser knows, ASCII strings, packed compounds with at least one member and different
  // names, enums with different members in the range of their base, positive dimensions.
  predicate Canonical(t: DType) {
    match t
    case Int(spec) => IntSizeKnown(spec.size)
    case Float(size, _) => size == 4 || size == 8
    case FixedString(length, cset, pad) => length > 0 && cset == Ascii && pad == NullPad
    case VarString(cset, pad) => cset == Ascii && pad == NullTerm
    case Compound(csize, fields) =>
      && fields.Field? && CanonicalFields(fields, 0) && DistinctNames(fields) && NonEmptyNames(fields)
      && csize == TotalSize(fields)
    case Enum(base, members) =>
      && IntSizeKnown(base.size) && DistinctMembers(members)
      && forall k :: 0 <= k < |members| ==>
           members[k].name != "" && Lowest(base) <= members[k].value <= Highest(base)
    case Array(elem, dims) => Canonical(elem) && dims != [] && forall k :: 0 <= k < |dims| ==> dims[k] > 0
    case ObjectRef => true
    case RegionRef => true
    case Unsupported(_) => false
  }

  predicate CanonicalFields(fields: Fields, offset: nat) {
    fields.Field? ==>
      && fields.offset == offset && Canonical(fields.ty)
      && CanonicalFields(fields.rest, offset + Size(fields.ty))
  }

  lemma RangeNotEmpty(base: IntSpec)
    requires IntSizeKnown(base.size)
    ensures Lowest(base) <= Highest(base)
  {
  }

  lemma MappingInRange(base: IntSpec, members: Members)
    requires IntSizeKnown(base.size) && Mapping(base, members).Some?
    ensures forall k :: 0 <= k < |Mapping(base, members).value| ==>
      && Mapping(base, members).value[k].name != ""
      && Lowest(base) <= Mapping(base, members).value[k].value <= Highest(base)
  {
    hide Lowest, Highest, Mapping, IntegerIn, StringOf;
    RangeNotEmpty(base);
    MappingExactly(base, members, Mapping(base, members).value);
  }

  ghost function ClassOf(text: string): Option<string> {
    var tree := Read(text);
    if tree.None? then None else GetString(tree.value, "class")
  }

  lemma LeafIsCanonical(text: string)
    requires ConvertJson(text).Some?
    requires ClassOf(text) != Some("H5T_COMPOUND") && ClassOf(text) != Some("H5T_ARRAY") && ClassOf(text) != Some("H5T_ENUM")
    ensures ClassOf(text) == Some(ClassName(ConvertJson(text).value)) && Canonical(ConvertJson(text).value)
  {
    hide Read, GetString, Get, IntegerIn;
  }

  /** Whatever text the parser accepts, its class is one of the seven, named as the printer names it,
      and the type is canonical. */
  lemma {:induction false} AcceptedIsCanonical(text: string)
    requires ConvertJson(text).Some?
    ensures ClassOf(text) == Some(ClassName(ConvertJson(text).value)) && Canonical(ConvertJson(text).value)
    decreases |text|, 3
  {
    var c := ClassOf(text);
    if c == Some("H5T_COMPOUND") {
      CompoundIsCanonical(text);
    } else if c == Some("H5T_ARRAY") {
      ArrayIsCanonical(text);
    } else if c == Some("H5T_ENUM") {
      EnumIsCanonical(text);
    } else {
      LeafIsCanonical(text);
    }
  }

  lemma {:induction false} ArrayIsCanonical(text: string)
    requires ConvertJson(text).Some? && ClassOf(text) == Some("H5T_ARRAY")
    ensures ConvertJson(text).value.Array? && Canonical(ConvertJson(text).value)
    decreases |text|, 2
  {
    hide Read, GetString, Get, BaseText, Dims, IntegerIn;
    var tree := Read(text).value;
    assert ConvertJson(text) == ConvertArray(text, tree);
    var items := Get(tree, "dims").value.items;
    DimsExactly(items, Dims(items).value);
    AcceptedIsCanonical(BaseText(text).value);
  }

  lemma {:induction false} EnumIsCanonical(text: string)
    requires ConvertJson(text).Some? && ClassOf(text) == Some("H5T_ENUM")
    ensures ConvertJson(text).value.Enum? && Canonical(ConvertJson(text).value)
    decreases |text|, 2
  {
    hide Read, GetString, Get, BaseText, Mapping, Lowest, Highest, DistinctMembers;
    var tree := Read(text).value;
    assert ConvertJson(text) == ConvertEnum(text, tree);
    AcceptedIsCanonical(BaseText(text).value);
    MappingInRange(ConvertJson(text).value.base, Get(tree, "mapping").value.members);
  }

  lemma {:induction false} CompoundIsCanonical(text: string)
    requires ConvertJson(text).Some? && ClassOf(text) == Some("H5T_COMPOUND")
    ensures ConvertJson(text).value.Compound? && Canonical(ConvertJson(text).value)
    decreases |text|, 2
  {
    hide Read, GetString, Get, Find, DistinctNames, NonEmptyNames, ConvertFields, CanonicalFields, TotalSize;
    var tree := Read(text).value;
    assert ConvertJson(text) == ConvertCompound(text, tree);
    FieldsAreCanonical(text, Find(text, Q("fields"), 0).value, Get(tree, "fields").value.items, 0);
  }

  lemma {:induction false} FieldsAreCanonical(text: string, ptr: nat, items: Items, offset: nat)
    requires ptr <= |text| && ConvertFields(text, ptr, items, offset).Some?
    ensures var fields := ConvertFields(text, ptr, items, offset).value;
      CanonicalFields(fields, offset) && (fields.Field? <==> items.Item?)
    decreases |text|, 1, items
  {
    hide MemberText, NameIn, Canonical, ConvertJson, Size, Read;
    if items.Item? {
      var sub := MemberText(text, ptr).value;
      AcceptedIsCanonical(sub.0);
      FieldsAreCanonical(text, sub.1, items.rest, offset + Size(ConvertJson(sub.0).value));
    }
  }

  // ---------- and it is printed back ----------

  lemma {:induction false} CanonicalIsNormal(t: DType)
    requires Canonical(t)
    ensures Norm(t) == t
  {
    match t
    case Compound(_, fields) => CanonicalIsPacked(fields, 0);
    case Array(elem, _) => CanonicalIsNormal(elem);
    case _ =>
  }

  lemma {:induction false} CanonicalIsPacked(fields: Fields, offset: nat)
    requires CanonicalFields(fields, offset)
    ensures Pack(fields, offset) == fields
  {
    if fields.Field? {
      CanonicalIsNormal(fields.ty);
      CanonicalIsPacked(fields.rest, offset + Size(fields.ty));
    }
  }

  /** What has been parsed from any text is printed and parsed back as the very same type, if it can
      be printed, its names need no escape and its enum values survive, and only then. */
  lemma AcceptedComesBack(text: string)
    requires ConvertJson(text).Some?
    requires var t := ConvertJson(text).value; Supported(t) && WellFormed(t)
    ensures var t := ConvertJson(text).value;
      Norm(t) == t && ((forall memory: Memory :: ComesBack(t, memory)) <==> RoundTrips(t))
  {
    hide ConvertJson, Supported, WellFormed, Norm, RoundTrips, PrintFrom;
    AcceptedIsCanonical(text);
    CanonicalIsNormal(ConvertJson(text).value);
    PrintParse(ConvertJson(text).value);
  }
}
