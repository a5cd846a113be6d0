/**
 `RV_convert_JSON_to_datatype`: a JSON tree tells the class, but nested types are cut out of the
 text itself with `strstr` and the section scanner, and read again.
 */
module DatatypeReader {
  import opened R = Rfc8259
  import opened JsonReader
  import opened Wrappers
  import opened Datatype
  import opened SectionEnd

  // `strstr` from position `p`.
  ghost function Find(js: string, pat: string, p: nat): (r: Option<nat>)
    requires p <= |js|
    ensures r.Some? ==> p <= r.value && r.value <= |js| && At(js, r.value, pat)
    decreases |js| - p
  {
    if At(js, p, pat) then Some(p)
    else if p == |js| then None
    else Find(js, pat, p + 1)
  }

  // The first brace section after `q`.
  ghost function SectionAfter(js: string, q: nat): (r: Option<(nat, nat)>)
    requires q <= |js|
    ensures r.Some? ==> q <= r.value.0 < r.value.1 <= |js|
  {
    var b := Find(js, "{", q);
    if b.None? || b.value >= |js| then None
    else
      match Scan(js, b.value + 1, 1, false)
      case NotFound => None
      case End(e) => Some((b.value, e))
  }

  // ---------- the JSON tree ----------

  predicate AllPlainParts(b: StrBody) {
    forall i :: 0 <= i < |b| ==> b[i].Plain?
  }

  function Chars(b: StrBody): string
    requires AllPlainParts(b)
  {
    seq(|b|, i requires 0 <= i < |b| => b[i].c)
  }

  // The characters of a string without escapes; escapes are outside this model.
  function StringOf(v: Value): Option<string> {
    if v.Str? && AllPlainParts(v.body) then Some(Chars(v.body)) else None
  }

  function Lookup(members: Members, key: string): Option<Value> {
    if members.NoMembers? then None
    else if StringOf(Str(members.key)) == Some(key) then Some(members.val)
    else Lookup(members.rest, key)
  }

  // The path {"type", key}.
  function Get(tree: Value, key: string): Option<Value> {
    if !tree.Obj? then None
    else
      var ty := Lookup(tree.members, "type");
      if ty.None? || !ty.value.Obj? then None else Lookup(ty.value.members, key)
  }

  function GetString(tree: Value, key: string): Option<string> {
    var v := Get(tree, key);
    if v.None? then None else StringOf(v.value)
  }

  // The last "name" of a compound field's object, if every one of them is a string.
  function NameIn(members: Members, sofar: Option<string>): Option<string> {
    if members.NoMembers? then sofar
    else if StringOf(Str(members.key)) == Some("name") then
      var s := StringOf(members.val);
      if s.None? then None else NameIn(members.rest, s)
    else NameIn(members.rest, sofar)
  }

  // ---------- leaf classes ----------

  function CharAt(s: string, i: nat): char {
    if i < |s| then s[i] else '\0'
  }

  function IntNamed(name: string): Option<DType> {
    var signed := CharAt(name, 8) != 'U';
    var wide := if CharAt(name, 11) == 'L' then LE else BE;
    match CharAt(name, 9)
    case '8' => Some(Int(IntSpec(1, signed, if CharAt(name, 10) == 'L' then LE else BE)))
    case '1' => Some(Int(IntSpec(2, signed, wide)))
    case '3' => Some(Int(IntSpec(4, signed, wide)))
    case '6' => Some(Int(IntSpec(8, signed, wide)))
    case _ => None
  }

  function FloatNamed(name: string): Option<DType> {
    var order := if CharAt(name, 12) == 'L' then LE else BE;
    match CharAt(name, 10)
    case '3' => Some(Float(4, order))
    case '6' => Some(Float(8, order))
    case _ => None
  }

  function IntegerIn(v: Value): Option<int> {
    if v.Prim? then IntegerOf(v.lexeme) else None
  }

  function StringType(tree: Value): Option<DType> {
    var length := Get(tree, "length");
    if length.None? then None
    else
      var variable := length.value.Str?;
      if GetString(tree, "charSet") != Some("H5T_CSET_ASCII") then None
      else if GetString(tree, "strPad") != Some(if variable then "H5T_STR_NULLTERM" else "H5T_STR_NULLPAD") then None
      else if variable then Some(VarString(Ascii, NullTerm))
      else
        var n := IntegerIn(length.value);
        if n.None? || n.value <= 0 then None else Some(FixedString(n.value, Ascii, NullPad))
  }

  function RefType(tree: Value): Option<DType> {
    var base := GetString(tree, "base");
    if base == Some("H5T_STD_REF_OBJ") then Some(ObjectRef)
    else if base == Some("H5T_STD_REF_DSETREG") then Some(RegionRef)
    else None
  }

  function Dims(items: Items): Option<seq<nat>> {
    if items.NoItems? then Some([])
    else
      var d, rest := IntegerIn(items.val), Dims(items.rest);
      if d.None? || d.value <= 0 || rest.None? then None else Some([d.value] + rest.value)
  }

  function Mapping(base: IntSpec, members: Members): Option<seq<EnumMember>> {
    if members.NoMembers? then Some([])
    else
      var name, v, rest := StringOf(Str(members.key)), IntegerIn(members.val), Mapping(base, members.rest);
      if name.None? || name.value == "" || v.None? || rest.None? then None
      else Some([EnumMember(name.value, Saturate(base, v.value))] + rest.value)
  }

  predicate NonEmptyNames(fields: Fields) {
    fields.NoFields? || (fields.name != "" && NonEmptyNames(fields.rest))
  }

  // ---------- nested types ----------

  // The base type of an array or enum, wrapped so that it can be converted again.
  ghost function BaseText(text: string): Option<string> {
    var q := Find(text, Q("base"), 0);
    if q.None? then None
    else
      var s := SectionAfter(text, q.value);
      if s.None? then None else Some("{" + Q("type") + ":" + text[s.value.0..s.value.1] + "}")
  }

  // The next compound member's type, wrapped, and where the search for the one after it starts.
  ghost function MemberText(text: string, ptr: nat): (r: Option<(string, nat)>)
    requires ptr <= |text|
    ensures r.Some? ==> r.value.1 <= |text|
  {
    var q := Find(text, Q("type"), ptr);
    if q.None? then None
    else
      var s := SectionAfter(text, q.value);
      if s.None? then None
      else
        var end := s.value.1;
        Some(("{" + text[q.value..end] + "}", if end < |text| then end + 1 else end))
  }

  // A nested text is only read again when it is shorter than the text it was cut from.
  ghost function ConvertShorter(text: string, sub: string): Option<DType>
    decreases |text|, 0
  {
    if |sub| < |text| then ConvertJson(sub) else None
  }

  ghost function ConvertJson(text: string): Option<DType>
    decreases |text|, 3
  {
    var r := Read(text);
    if r.None? then None
    else
      var tree := r.value;
      var c := GetString(tree, "class");
      if c == Some("H5T_INTEGER") then
        var name := GetString(tree, "base");
        if name.None? then None else IntNamed(name.value)
      else if c == Some("H5T_FLOAT") then
        var name := GetString(tree, "base");
        if name.None? then None else FloatNamed(name.value)
      else if c == Some("H5T_STRING") then StringType(tree)
      else if c == Some("H5T_COMPOUND") then ConvertCompound(text, tree)
      else if c == Some("H5T_ARRAY") then ConvertArray(text, tree)
      else if c == Some("H5T_ENUM") then ConvertEnum(text, tree)
      else if c == Some("H5T_REFERENCE") then RefType(tree)
      else None
  }

  ghost function ConvertArray(text: string, tree: Value): Option<DType>
    decreases |text|, 1
  {
    var items := Get(tree, "dims");
    if items.None? || !items.value.Arr? || items.value.items.NoItems? then None
    else
      var dims, sub := Dims(items.value.items), BaseText(text);
      if dims.None? || sub.None? then None
      else
        var elem := ConvertShorter(text, sub.value);
        if elem.None? then None else Some(Array(elem.value, dims.value))
  }

  ghost function ConvertEnum(text: string, tree: Value): Option<DType>
    decreases |text|, 1
  {
    var sub := BaseText(text);
    if sub.None? then None
    else
      var base, mapping := ConvertShorter(text, sub.value), Get(tree, "mapping");
      if base.None? || !base.value.Int? || mapping.None? || !mapping.value.Obj? then None
      else
        var members := Mapping(base.value.spec, mapping.value.members);
        if members.None? || !DistinctMembers(members.value) then None
        else Some(Enum(base.value.spec, members.value))
  }

  ghost function ConvertCompound(text: string, tree: Value): Option<DType>
    decreases |text|, 2
  {
    var items, ptr := Get(tree, "fields"), Find(text, Q("fields"), 0);
    if items.None? || !items.value.Arr? || items.value.items.NoItems? || ptr.None? then None
    else
      var fields := ConvertFields(text, ptr.value, items.value.items, 0);
      if fields.None? || !DistinctNames(fields.value) || !NonEmptyNames(fields.value) then None
      else Some(Compound(TotalSize(fields.value), fields.value))
  }

  ghost function ConvertFields(text: string, ptr: nat, items: Items, offset: nat): Option<Fields>
    requires ptr <= |text|
    decreases |text|, 1, items
  {
    if items.NoItems? then Some(NoFields)
    else
      var sub := MemberText(text, ptr);
      if sub.None? || !items.val.Obj? then None
      else
        var name, ty := NameIn(items.val.members, None), ConvertShorter(text, sub.value.0);
        if name.None? || ty.None? then None
        else
          var rest := ConvertFields(text, sub.value.1, items.rest, offset + Size(ty.value));
          if rest.None? then None else Some(Field(name.value, offset, ty.value, rest.value))
  }

  /** `RV_parse_datatype`: with `truncate`, the type's section is first cut out of a longer text. */
  ghost function ParseDatatype(text: string, truncate: bool): Option<DType> {
    if !truncate then ConvertJson(text)
    else
      var sub := MemberText(text, 0);
      if sub.None? then None else ConvertJson(sub.value.0)
  }
}
