/**
 HDF5 datatypes as the connector sees them, and the JSON it prints for them.
 */
module Datatype {
  import opened R = Rfc8259
  import opened Numbers
  import opened Wrappers

  datatype Order = LE | BE
  datatype Cset = Ascii | Utf8
  datatype Pad = NullTerm | NullPad | SpacePad

  datatype IntSpec = IntSpec(size: nat, signed: bool, order: Order)

  datatype EnumMember = EnumMember(name: string, value: int)

  datatype DType =
    | Int(spec: IntSpec)
    | Float(size: nat, order: Order)
    | FixedString(length: nat, cset: Cset, pad: Pad)
    | VarString(vcset: Cset, vpad: Pad)
    | Compound(csize: nat, fields: Fields)
    | Enum(base: IntSpec, members: seq<EnumMember>)
    | Array(elem: DType, dims: seq<nat>)
    | ObjectRef
    | RegionRef
    | Unsupported(usize: nat)  // bitfield, opaque, vlen and time types

  datatype Fields =
    | NoFields
    | Field(name: string, offset: nat, ty: DType, rest: Fields)

  // ---------- decimal numbers ----------

  function DigitChar(d: nat): char
    requires d < 10
  {
    '0' + d as char
  }

  function Digits(n: nat): (r: string)
    ensures |r| > 0
  {
    if n < 10 then [DigitChar(n)] else Digits(n / 10) + [DigitChar(n % 10)]
  }

  function NumText(n: int): string {
    if n < 0 then "-" + Digits(-n) else Digits(n)
  }

  function DigitsValue(s: string): nat
    requires AllDigits(s)
  {
    if s == "" then 0
    else DigitsValue(s[..|s| - 1]) * 10 + (s[|s| - 1] - '0') as nat
  }

  const LLONG_LIMIT := 0x8000_0000_0000_0000

  // The integer a JSON number denotes, if yajl's reader takes it for one: the magnitude is what
  // it compares with the largest `long long`.
  function IntegerOf(lexeme: string): Option<int> {
    var negative := |lexeme| > 0 && lexeme[0] == '-';
    var digits := if negative then lexeme[1..] else lexeme;
    if digits == "" || !AllDigits(digits) then None
    else
      var magnitude: int := DigitsValue(digits);
      var v := if negative then -magnitude else magnitude;
      if -LLONG_LIMIT < v < LLONG_LIMIT then Some(v) else None
  }

  lemma {:induction false} DigitsRead(n: nat)
    ensures AllDigits(Digits(n)) && DigitsValue(Digits(n)) == n
    ensures Digits(n)[0] == '0' ==> n == 0
  {
    if n >= 10 {
      DigitsRead(n / 10);
      var s := Digits(n);
      assert s[..|s| - 1] == Digits(n / 10);
      assert s[0] == Digits(n / 10)[0];
      assert IsDigit(DigitChar(n % 10));
      assert (DigitChar(n % 10) - '0') as nat == n % 10;
    } else {
      assert Digits(n)[..0] == "";
      assert (DigitChar(n) - '0') as nat == n;
    }
  }

  /** A printed number is a JSON number and reads back as itself exactly if its magnitude fits. */
  lemma NumTextRead(n: int)
    ensures IsPrimitive(NumText(n))
    ensures IntegerOf(NumText(n)) == if -LLONG_LIMIT < n < LLONG_LIMIT then Some(n) else None
  {
    hide IsPrimitive, DigitsValue;
    var m := if n < 0 then -n else n;
    DigitsRead(m);
    NumTextIsNumber(n);
    assert n < 0 ==> NumText(n)[1..] == Digits(m);
    assert IsDigit(Digits(m)[0]);
  }

  lemma NumTextIsNumber(n: int)
    ensures IsPrimitive(NumText(n))
  {
    hide DigitsValue;
    var m := if n < 0 then -n else n;
    var minus := if n < 0 then "-" else "";
    DigitsRead(m);
    assert IsInt(Digits(m));
    assert NumText(n) == minus + Digits(m) + "" + "";
    assert IsNumber(NumText(n));
  }

  // ---------- printing ----------

  function Q(s: string): string {
    "\"" + s + "\""
  }

  function Entry(key: string, text: string): string {
    Q(key) + ": " + text
  }

  function OrderName(o: Order): string {
    if o == LE then "LE" else "BE"
  }

  const PREDEFINED_NAME_MAX := 20
  const MAX_NUM_LENGTH := 20

  // `RV_convert_predefined_datatype_to_string`
  function IntName(i: IntSpec): string {
    "H5T_STD_" + (if i.signed then "I" else "U") + Digits(i.size * 8) + OrderName(i.order)
  }

  function FloatName(size: nat, order: Order): string {
    "H5T_IEEE_F" + Digits(size * 8) + OrderName(order)
  }

  function DimsText(dims: seq<nat>): string
    requires dims != []
  {
    if |dims| == 1 then Digits(dims[0]) else Digits(dims[0]) + "," + DimsText(dims[1..])
  }

  // A dimension is formatted, comma included, into a buffer of MAX_NUM_LENGTH bytes.
  predicate DimsFit(dims: seq<nat>) {
    forall i :: 0 <= i < |dims| ==> (if i > 0 then 1 else 0) + |Digits(dims[i])| < MAX_NUM_LENGTH
  }

  // The types the printer has a branch for.
  predicate Supported(t: DType) {
    match t
    case Int(spec) => spec.size > 0 && |IntName(spec)| < PREDEFINED_NAME_MAX
    case Float(size, order) => size > 0 && |FloatName(size, order)| < PREDEFINED_NAME_MAX
    case FixedString(length, _, _) => length > 0
    case VarString(_, _) => true
    case Compound(csize, fields) => csize > 0 && SupportedFields(fields)
    case Enum(base, _) => base.size > 0 && |IntName(base)| < PREDEFINED_NAME_MAX
    case Array(elem, dims) => dims != [] && DimsFit(dims) && Supported(elem)
    case ObjectRef => true
    case RegionRef => true
    case Unsupported(_) => false
  }

  predicate SupportedFields(fields: Fields) {
    fields.NoFields? || (Supported(fields.ty) && SupportedFields(fields.rest))
  }

  // ---------- which types have a text ----------

  function Pow10(k: nat): (r: nat)
    ensures r > 0
  {
    if k == 0 then 1 else 10 * Pow10(k - 1)
  }

  lemma {:induction false} DigitsLength(n: nat, k: nat)
    requires k > 0
    ensures |Digits(n)| <= k <==> n < Pow10(k)
    decreases k
  {
    if k == 1 {
      assert Pow10(1) == 10;
    } else if n >= 10 {
      DigitsLength(n / 10, k - 1);
    }
  }

  // No class without a branch anywhere, and nothing of size zero or too large to be written.
  predicate HasText(t: DType) {
    match t
    case Int(spec) => 0 < spec.size * 8 < 100_000_000
    case Float(size, _) => 0 < size * 8 < 10_000_000
    case FixedString(length, _, _) => length > 0
    case VarString(_, _) => true
    case Compound(csize, fields) => csize > 0 && FieldsHaveText(fields)
    case Enum(base, _) => 0 < base.size * 8 < 100_000_000
    case Array(elem, dims) =>
      && dims != [] && dims[0] < 10_000_000_000_000_000_000
      && (forall i :: 0 < i < |dims| ==> dims[i] < 1_000_000_000_000_000_000)
      && HasText(elem)
    case ObjectRef => true
    case RegionRef => true
    case Unsupported(_) => false
  }

  predicate FieldsHaveText(fields: Fields) {
    fields.NoFields? || (HasText(fields.ty) && FieldsHaveText(fields.rest))
  }

  lemma Powers()
    ensures Pow10(7) == 10_000_000 && Pow10(8) == 100_000_000
    ensures Pow10(18) == 1_000_000_000_000_000_000 && Pow10(19) == 10_000_000_000_000_000_000
  {
    assert Pow10(4) == 10_000;
    assert Pow10(7) == 10_000_000;
    assert Pow10(11) == 100_000_000_000;
    assert Pow10(15) == 1_000_000_000_000_000;
  }

  lemma DimsFitExactly(dims: seq<nat>)
    requires dims != []
    ensures DimsFit(dims) <==>
      && dims[0] < 10_000_000_000_000_000_000
      && forall i :: 0 < i < |dims| ==> dims[i] < 1_000_000_000_000_000_000
  {
    hide Digits, Pow10;
    Powers();
    forall i | 0 <= i < |dims|
      ensures (if i > 0 then 1 else 0) + |Digits(dims[i])| < MAX_NUM_LENGTH
         <==> dims[i] < if i > 0 then 1_000_000_000_000_000_000 else 10_000_000_000_000_000_000
    {
      DigitsLength(dims[i], if i > 0 then 18 else 19);
    }
  }

  /** The printer has a text for a type exactly if no part of it is of a class without a branch, of
      size zero or too large for the buffers of names and dimensions. */
  lemma {:induction false} SupportedExactly(t: DType)
    ensures Supported(t) <==> HasText(t)
  {
    hide Digits, Pow10;
    Powers();
    match t
    case Int(spec) => DigitsLength(spec.size * 8, 8);
    case Float(size, _) => DigitsLength(size * 8, 7);
    case Enum(base, _) => DigitsLength(base.size * 8, 8);
    case Compound(_, fields) => SupportedFieldsExactly(fields);
    case Array(elem, dims) =>
      if dims != [] { DimsFitExactly(dims); }
      SupportedExactly(elem);
    case _ =>
  }

  lemma {:induction false} SupportedFieldsExactly(fields: Fields)
    ensures SupportedFields(fields) <==> FieldsHaveText(fields)
  {
    if fields.Field? {
      SupportedExactly(fields.ty);
      SupportedFieldsExactly(fields.rest);
    }
  }

  function IntBody(i: IntSpec): string {
    "{" + Entry("class", Q("H5T_INTEGER")) + ", " + Entry("base", Q(IntName(i))) + "}"
  }

  function CompoundText(fields: string): string {
    "{" + Entry("class", Q("H5T_COMPOUND")) + ", " + Entry("fields", "[" + fields + "]") + "}"
  }

  function EnumText(base: IntSpec, mapping: string): string {
    "{" + Entry("class", Q("H5T_ENUM")) + ", " + Entry("base", IntBody(base)) + ", "
    + Entry("mapping", "{" + mapping + "}") + "}"
  }

  function ArrayText(base: string, dims: seq<nat>): string
    requires dims != []
  {
    "{" + Entry("class", Q("H5T_ARRAY")) + ", " + Entry("base", base) + ", "
    + Entry("dims", "[" + DimsText(dims) + "]") + "}"
  }

  // The text of a type, without the leading key.
  function Body(t: DType): string
    requires Supported(t)
  {
    match t
    case Int(spec) => IntBody(spec)
    case Float(size, order) =>
      "{" + Entry("class", Q("H5T_FLOAT")) + ", " + Entry("base", Q(FloatName(size, order))) + "}"
    case FixedString(length, _, _) =>
      "{" + Entry("class", Q("H5T_STRING")) + ", " + Entry("charSet", Q("H5T_CSET_ASCII")) + ", "
      + Entry("strPad", Q("H5T_STR_NULLPAD")) + ", " + Entry("length", Digits(length)) + "}"
    case VarString(_, _) =>
      "{" + Entry("class", Q("H5T_STRING")) + ", " + Entry("charSet", Q("H5T_CSET_ASCII")) + ", "
      + Entry("strPad", Q("H5T_STR_NULLTERM")) + ", " + Entry("length", Q("H5T_VARIABLE")) + "}"
    case Compound(_, fields) => CompoundText(FieldsText(fields))
    case Enum(base, members) => EnumText(base, MappingText(base, members))
    case Array(elem, dims) => ArrayText(Body(elem), dims)
    case ObjectRef => "{" + Entry("class", Q("H5T_REFERENCE")) + "," + Entry("base", Q("H5T_STD_REF_OBJ")) + "}"
    case RegionRef => "{" + Entry("class", Q("H5T_REFERENCE")) + "," + Entry("base", Q("H5T_STD_REF_DSETREG")) + "}"
  }

  function FieldText(name: string, body: string): string {
    "{" + Entry("name", Q(name)) + ", " + Entry("type", body) + "}"
  }

  function FieldsText(fields: Fields): string
    requires SupportedFields(fields)
  {
    if fields.NoFields? then ""
    else FieldText(fields.name, Body(fields.ty)) + (if fields.rest.NoFields? then "" else ", ")
         + FieldsText(fields.rest)
  }

  function MappingText(base: IntSpec, members: seq<EnumMember>): string {
    if members == [] then ""
    else Entry(members[0].name, NumText(NativeReading(base, members[0].value)))
         + (if |members| == 1 then "" else ", " + MappingText(base, members[1..]))
  }

  // The text of a type, with its leading key unless it is nested in an array.
  function Print(t: DType, nested: bool): Option<string> {
    if Supported(t) then Some(Lead(nested) + Body(t)) else None
  }

  function Lead(nested: bool): string {
    if nested then "" else Q("type") + ": "
  }

  // ---------- printing from memory nothing has been written to ----------

  // Two of the printer's buffers stay as allocated: the mapping of an enum without members, and
  // what follows "fields": [ in a compound without members when no leading key has cleared the
  // buffer. What comes of reading them is a parameter: some text, or a failure.
  type Memory = DType -> Option<string>

  function Mapped(f: string -> string, text: Option<string>): Option<string> {
    match text case Some(s) => Some(f(s)) case None => None
  }

  // `RV_convert_datatype_to_JSON`
  function PrintFrom(t: DType, nested: bool, memory: Memory): Option<string> {
    Mapped(body => Lead(nested) + body, BodyFrom(t, nested, memory))
  }

  function BodyFrom(t: DType, nested: bool, memory: Memory): Option<string> {
    match t
    case Compound(csize, fields) =>
      if csize == 0 then None
      else Mapped(CompoundText, if nested && fields.NoFields? then memory(t) else FieldsFrom(fields, memory))
    case Enum(base, members) =>
      if base.size == 0 || |IntName(base)| >= PREDEFINED_NAME_MAX then None
      else Mapped(mapping => EnumText(base, mapping),
                  if members == [] then memory(t) else Some(MappingText(base, members)))
    case Array(elem, dims) =>
      if dims == [] || !DimsFit(dims) then None
      else Mapped(body => ArrayText(body, dims), BodyFrom(elem, true, memory))
    case _ => if Supported(t) then Some(Body(t)) else None
  }

  function FieldsFrom(fields: Fields, memory: Memory): Option<string> {
    match fields
    case NoFields => Some("")
    case Field(name, _, ty, rest) =>
      match (BodyFrom(ty, false, memory), FieldsFrom(rest, memory))
      case (Some(body), Some(more)) =>
        Some(FieldText(name, body) + (if rest.NoFields? then "" else ", ") + more)
      case _ => None
  }

  // No such memory is read: every enum has a member, and so has every compound that is the
  // element of an array.
  predicate Printable(t: DType, nested: bool) {
    match t
    case Compound(_, fields) => (nested ==> fields.Field?) && PrintableFields(fields)
    case Enum(_, members) => members != []
    case Array(elem, _) => Printable(elem, true)
    case _ => true
  }

  predicate PrintableFields(fields: Fields) {
    fields.NoFields? || (Printable(fields.ty, false) && PrintableFields(fields.rest))
  }

  /** The printer produces the specified text whatever is in memory, exactly if the type is
      printable (or has no text at all). */
  lemma PrintsTheText(t: DType, nested: bool)
    ensures (forall memory: Memory :: PrintFrom(t, nested, memory) == Print(t, nested))
       <==> !Supported(t) || Printable(t, nested)
  {
    forall memory: Memory | !Supported(t) || Printable(t, nested)
      ensures PrintFrom(t, nested, memory) == Print(t, nested)
    {
      if Supported(t) {
        PrintedBody(t, nested, memory);
      } else {
        NothingPrinted(t, nested, memory);
      }
    }
    if Supported(t) && !Printable(t, nested) {
      FailingMemory(t, nested);
      assert PrintFrom(t, nested, NOTHING) != Print(t, nested);
    }
  }

  const NOTHING: Memory := _ => None

  lemma {:induction false} PrintedBody(t: DType, nested: bool, memory: Memory)
    requires Supported(t) && Printable(t, nested)
    ensures BodyFrom(t, nested, memory) == Some(Body(t))
  {
    match t
    case Compound(_, fields) => PrintedFields(fields, memory);
    case Array(elem, _) => PrintedBody(elem, true, memory);
    case _ =>
  }

  lemma {:induction false} PrintedFields(fields: Fields, memory: Memory)
    requires SupportedFields(fields) && PrintableFields(fields)
    ensures FieldsFrom(fields, memory) == Some(FieldsText(fields))
  {
    if fields.Field? {
      PrintedBody(fields.ty, false, memory);
      PrintedFields(fields.rest, memory);
    }
  }

  lemma {:induction false} NothingPrinted(t: DType, nested: bool, memory: Memory)
    requires !Supported(t)
    ensures BodyFrom(t, nested, memory) == None
  {
    match t
    case Compound(csize, fields) => if csize > 0 { NoFieldsPrinted(fields, memory); }
    case Array(elem, dims) => if dims != [] && DimsFit(dims) { NothingPrinted(elem, true, memory); }
    case _ =>
  }

  lemma {:induction false} NoFieldsPrinted(fields: Fields, memory: Memory)
    requires !SupportedFields(fields)
    ensures FieldsFrom(fields, memory) == None
  {
    if !Supported(fields.ty) {
      NothingPrinted(fields.ty, false, memory);
    } else {
      NoFieldsPrinted(fields.rest, memory);
    }
  }

  lemma {:induction false} FailingMemory(t: DType, nested: bool)
    requires Supported(t) && !Printable(t, nested)
    ensures BodyFrom(t, nested, NOTHING) == None
  {
    match t
    case Compound(_, fields) => if !(nested && fields.NoFields?) { FailingFields(fields); }
    case Array(elem, _) => FailingMemory(elem, true);
    case _ =>
  }

  lemma {:induction false} FailingFields(fields: Fields)
    requires SupportedFields(fields) && !PrintableFields(fields)
    ensures FieldsFrom(fields, NOTHING) == None
  {
    if !Printable(fields.ty, false) {
      FailingMemory(fields.ty, false);
    } else {
      FailingFields(fields.rest);
    }
  }

  // ---------- enum values through an eight-byte buffer ----------

  // The number whose `k` bytes are those of `n` in the other order.
  function Swap(n: nat, k: nat): nat {
    if k == 0 then 0 else (n % 256) * Pow256(k - 1) + Swap(n / 256, k - 1)
  }

  function Lowest(i: IntSpec): int {
    if i.signed then -(Pow256(i.size) / 2) else 0
  }

  function Highest(i: IntSpec): int {
    if i.signed then Pow256(i.size) / 2 - 1 else Pow256(i.size) - 1
  }

  // The printer reads the member's bytes, copied into a zeroed eight-byte buffer, as a native
  // (little-endian) number of eight bytes, signed if the base is.
  function NativeReading(base: IntSpec, v: int): int {
    var m := Pow256(base.size);
    var raw := if base.order == LE then v % m else Swap(v % m, base.size);
    if base.size >= 8 && base.signed && raw >= m / 2 then raw - m else raw
  }

  // `H5Tconvert` from `long long`: out-of-range values saturate.
  function Saturate(base: IntSpec, v: int): int {
    if v < Lowest(base) then Lowest(base)
    else if v > Highest(base) then Highest(base)
    else v
  }

  // ---------- the normal form a round trip ends in ----------

  const SIZE_OF_CHAR_PTR := 8
  const SIZE_OF_OBJECT_REF := 8
  const SIZE_OF_REGION_REF := 12

  function Product(dims: seq<nat>): nat {
    if dims == [] then 1 else dims[0] * Product(dims[1..])
  }

  // `H5Tget_size`
  function Size(t: DType): nat {
    match t
    case Int(spec) => spec.size
    case Float(size, _) => size
    case FixedString(length, _, _) => length
    case VarString(_, _) => SIZE_OF_CHAR_PTR
    case Compound(csize, _) => csize
    case Enum(base, _) => base.size
    case Array(elem, dims) => Size(elem) * Product(dims)
    case ObjectRef => SIZE_OF_OBJECT_REF
    case RegionRef => SIZE_OF_REGION_REF
    case Unsupported(usize) => usize
  }

  function TotalSize(fields: Fields): nat {
    if fields.NoFields? then 0 else Size(fields.ty) + TotalSize(fields.rest)
  }

  // Compounds packed, strings ASCII with the padding the connector prints.
  function Norm(t: DType): DType {
    match t
    case FixedString(length, _, _) => FixedString(length, Ascii, NullPad)
    case VarString(_, _) => VarString(Ascii, NullTerm)
    case Compound(_, fields) => var packed := Pack(fields, 0); Compound(TotalSize(packed), packed)
    case Array(elem, dims) => Array(Norm(elem), dims)
    case _ => t
  }

  function Pack(fields: Fields, offset: nat): Fields {
    match fields
    case NoFields => NoFields
    case Field(name, _, ty, rest) =>
      Field(name, offset, Norm(ty), Pack(rest, offset + Size(Norm(ty))))
  }

  // ---------- what HDF5 guarantees of a type handed to the printer ----------

  // Names are printed unescaped, so they must be JSON string bodies as they are.
  predicate PlainName(s: string) {
    s != "" && forall i :: 0 <= i < |s| ==> ValidPart(Plain(s[i]))
  }

  predicate HasName(fields: Fields, name: string) {
    fields.Field? && (fields.name == name || HasName(fields.rest, name))
  }

  predicate DistinctNames(fields: Fields) {
    fields.NoFields? || (!HasName(fields.rest, fields.name) && DistinctNames(fields.rest))
  }

  predicate DistinctMembers(members: seq<EnumMember>) {
    forall i, j :: 0 <= i < j < |members| ==>
      members[i].name != members[j].name && members[i].value != members[j].value
  }

  predicate WellFormed(t: DType) {
    match t
    case FixedString(length, _, _) => length < LLONG_LIMIT
    case Compound(_, fields) => DistinctNames(fields) && WellFormedFields(fields)
    case Enum(base, members) =>
      && base.size <= 8 && DistinctMembers(members)
      && forall i :: 0 <= i < |members| ==>
           PlainName(members[i].name) && Lowest(base) <= members[i].value <= Highest(base)
    case Array(elem, dims) =>
      WellFormed(elem) && forall i :: 0 <= i < |dims| ==> 0 < dims[i] < LLONG_LIMIT
    case _ => true
  }

  predicate WellFormedFields(fields: Fields) {
    fields.NoFields? || (PlainName(fields.name) && WellFormed(fields.ty) && WellFormedFields(fields.rest))
  }

  // ---------- exactly when the round trip works ----------

  // ... of the text: the parser makes the type of it.

  // The value printed for a member converts back to the member's value.
  predicate Survives(base: IntSpec, v: int) {
    -LLONG_LIMIT < NativeReading(base, v) < LLONG_LIMIT && Saturate(base, NativeReading(base, v)) == v
  }

  predicate IntSizeKnown(size: nat) {
    size == 1 || size == 2 || size == 4 || size == 8
  }

  predicate Readable(t: DType) {
    match t
    case Int(spec) => IntSizeKnown(spec.size)
    case Float(size, _) => size == 4 || size == 8
    case Compound(_, fields) => fields.Field? && ReadableFields(fields)
    case Enum(base, members) =>
      IntSizeKnown(base.size) && forall i :: 0 <= i < |members| ==> Survives(base, members[i].value)
    case Array(elem, _) => Readable(elem)
    case _ => true
  }

  predicate ReadableFields(fields: Fields) {
    fields.NoFields?
    || (fields.name != "type" && Readable(fields.ty) && ReadableFields(fields.rest))
  }

  // ... of printing and parsing.
  predicate RoundTrips(t: DType) {
    Printable(t, false) && Readable(t)
  }

  /** For little-endian bases a value survives exactly if it is not negative, or the base has all
      eight bytes, and its magnitude fits. */
  lemma LittleEndianSurvives(base: IntSpec, v: int)
    requires base.order == LE && 0 < base.size <= 8 && Lowest(base) <= v <= Highest(base)
    ensures Survives(base, v) <==> (v >= 0 || base.size == 8) && -LLONG_LIMIT < v < LLONG_LIMIT
  {
    hide Pow256;
    var m := Pow256(base.size);
    Pow256Facts(base.size);
    ModRange(v, m);
  }

  lemma Pow256Facts(k: nat)
    requires 0 < k <= 8
    ensures Pow256(k) % 2 == 0 && 0 < Pow256(k) <= 2 * LLONG_LIMIT
    ensures k == 8 <==> Pow256(k) == 2 * LLONG_LIMIT
    ensures k < 8 ==> Pow256(k) <= LLONG_LIMIT
  {
    assert Pow256(2) == 0x1_0000;
    assert Pow256(4) == 0x1_0000_0000;
    assert Pow256(6) == 0x1_0000_0000_0000;
  }

  lemma {:induction false} SwapRange(n: nat, k: nat)
    ensures Swap(n, k) < Pow256(k)
    decreases k
  {
    if k > 0 {
      assert Swap(n, k) == (n % 256) * Pow256(k - 1) + Swap(n / 256, k - 1);
      hide Swap;
      SwapRange(n / 256, k - 1);
      Scaled(n % 256, Pow256(k - 1));
    }
  }

  lemma Scaled(d: nat, p: nat)
    requires d < 256
    ensures d * p + p <= 256 * p
  {
    assert (255 - d) * p >= 0;
  }

  /** For big-endian bases a value survives exactly if swapping its bytes gives it again; in a base
      shorter than eight bytes it must not be negative, and the largest value survives, too, if
      swapping leads beyond it. */
  lemma BigEndianSurvives(base: IntSpec, v: int)
    requires base.order == BE && 0 < base.size <= 8 && Lowest(base) <= v <= Highest(base)
    ensures base.size < 8 ==>
      (Survives(base, v) <==>
         v >= 0 && (Swap(v, base.size) == v || (v == Highest(base) && Swap(v, base.size) > v)))
    ensures base.size == 8 ==>
      (Survives(base, v) <==>
         -LLONG_LIMIT < v < LLONG_LIMIT && Swap(v % Pow256(8), 8) == v % Pow256(8))
  {
    hide Pow256, Swap;
    var m := Pow256(base.size);
    Pow256Facts(base.size);
    ModRange(v, m);
    SwapRange(v % m, base.size);
  }

  /** In a big-endian base of two bytes the value 1 is printed as 256 and comes back as 256. */
  lemma BigEndianSwaps()
    ensures var base := IntSpec(2, false, BE);
      NativeReading(base, 1) == 256 && Saturate(base, 256) == 256 && !Survives(base, 1)
  {
    assert Pow256(1) == 256;
    assert Swap(0, 1) == 0;
    assert Swap(1, 2) == 256;
  }

  /** Printing does not see what normalising changes. */
  lemma {:induction false} NormPrintsTheSame(t: DType)
    requires Supported(t) && WellFormed(t) && Readable(t)
    ensures Supported(Norm(t)) && Body(Norm(t)) == Body(t) && Size(Norm(t)) > 0
  {
    hide Entry, Q, IntName, FloatName, IntBody, Digits, DimsText, FieldsText, MappingText, DimsFit, Pack, TotalSize, DistinctNames;
    match t
    case Compound(_, fields) =>
      PackPrintsTheSame(fields, 0);
    case Array(elem, dims) =>
      NormPrintsTheSame(elem);
      ProductPositive(dims);
    case _ =>
  }

  lemma {:induction false} ProductPositive(dims: seq<nat>)
    requires forall i :: 0 <= i < |dims| ==> 0 < dims[i]
    ensures Product(dims) > 0
  {
    if dims != [] { ProductPositive(dims[1..]); }
  }

  lemma {:induction false} PackPrintsTheSame(fields: Fields, offset: nat)
    requires SupportedFields(fields) && WellFormedFields(fields) && ReadableFields(fields)
    ensures SupportedFields(Pack(fields, offset)) && FieldsText(Pack(fields, offset)) == FieldsText(fields)
    ensures fields.Field? ==> TotalSize(Pack(fields, offset)) > 0
  {
    hide Entry, Q, Body, Supported, WellFormed, Readable, Norm, FieldText;
    if fields.Field? {
      NormPrintsTheSame(fields.ty);
      PackPrintsTheSame(fields.rest, offset + Size(Norm(fields.ty)));
    }
  }

  lemma {:induction false} NormPrintable(t: DType, nested: bool)
    requires Printable(t, nested)
    ensures Printable(Norm(t), nested)
  {
    match t
    case Compound(_, fields) => PackPrintable(fields, 0);
    case Array(elem, _) => NormPrintable(elem, true);
    case _ =>
  }

  lemma {:induction false} PackPrintable(fields: Fields, offset: nat)
    requires PrintableFields(fields)
    ensures PrintableFields(Pack(fields, offset)) && (fields.Field? ==> Pack(fields, offset).Field?)
  {
    if fields.Field? {
      NormPrintable(fields.ty, false);
      PackPrintable(fields.rest, offset + Size(Norm(fields.ty)));
    }
  }
}
