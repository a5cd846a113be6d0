/**
 JSON trees up to insignificant whitespace (section 2 of RFC 8259), and that the parser's
 lookups do not see it.
 */
module DatatypeSpacing {
  import opened R = Rfc8259
  import opened Wrappers
  import opened Datatype
  import opened DatatypeReader

  // The tree without its insignificant whitespace.
  function Squeeze(v: Value): Value {
    match v
    case Prim(_) => v
    case Str(_) => v
    case Arr(_, items) => Arr("", SqueezeItems(items))
    case Obj(_, members) => Obj("", SqueezeMembers(members))
  }

  function SqueezeItems(items: Items): Items {
    match items
    case NoItems => NoItems
    case Item(_, val, _, rest) => Item("", Squeeze(val), "", SqueezeItems(rest))
  }

  function SqueezeMembers(members: Members): Members {
    match members
    case NoMembers => NoMembers
    case Member(_, key, _, _, val, _, rest) => Member("", key, "", "", Squeeze(val), "", SqueezeMembers(rest))
  }

  // The same tree but for the whitespace.
  predicate Like(v: Value, w: Value) {
    Squeeze(v) == Squeeze(w)
  }

  function Squeezed(v: Option<Value>): Option<Value> {
    match v case Some(w) => Some(Squeeze(w)) case None => None
  }

  // ---------- lookups do not see whitespace ----------

  lemma StringSqueezed(v: Value)
    ensures StringOf(Squeeze(v)) == StringOf(v) && IntegerIn(Squeeze(v)) == IntegerIn(v)
  {
  }

  lemma {:induction false} LookupSqueezed(members: Members, key: string)
    ensures Lookup(SqueezeMembers(members), key) == Squeezed(Lookup(members, key))
  {
    if members.Member? { LookupSqueezed(members.rest, key); }
  }

  lemma GetSqueezed(tree: Value, key: string)
    ensures Get(Squeeze(tree), key) == Squeezed(Get(tree, key))
  {
    hide StringOf;
    if tree.Obj? {
      LookupSqueezed(tree.members, "type");
      var ty := Lookup(tree.members, "type");
      if ty.Some? && ty.value.Obj? { LookupSqueezed(ty.value.members, key); }
    }
  }

  lemma GetStringSqueezed(tree: Value, key: string)
    ensures GetString(Squeeze(tree), key) == GetString(tree, key)
  {
    hide Get, StringOf;
    GetSqueezed(tree, key);
    var v := Get(tree, key);
    if v.Some? { StringSqueezed(v.value); }
  }

  // Two trees alike answer every lookup alike.
  lemma SameAnswers(v: Value, w: Value, key: string)
    requires Like(v, w)
    ensures GetString(v, key) == GetString(w, key)
    ensures Squeezed(Get(v, key)) == Squeezed(Get(w, key))
  {
    hide GetString, Get;
    GetStringSqueezed(v, key);
    GetStringSqueezed(w, key);
    GetSqueezed(v, key);
    GetSqueezed(w, key);
  }

  lemma StringTypeSqueezed(tree: Value)
    ensures StringType(Squeeze(tree)) == StringType(tree)
  {
    hide GetString, Get, IntegerIn;
    GetSqueezed(tree, "length");
    GetStringSqueezed(tree, "charSet");
    GetStringSqueezed(tree, "strPad");
    var length := Get(tree, "length");
    if length.Some? { StringSqueezed(length.value); }
  }

  lemma {:induction false} DimsSqueezed(items: Items)
    ensures Dims(SqueezeItems(items)) == Dims(items)
  {
    hide IntegerIn;
    if items.Item? {
      StringSqueezed(items.val);
      DimsSqueezed(items.rest);
    }
  }

  lemma {:induction false} MappingSqueezed(base: IntSpec, members: Members)
    ensures Mapping(base, SqueezeMembers(members)) == Mapping(base, members)
  {
    hide IntegerIn, StringOf, Saturate;
    if members.Member? {
      StringSqueezed(members.val);
      MappingSqueezed(base, members.rest);
    }
  }

  lemma {:induction false} NameSqueezed(members: Members, sofar: Option<string>)
    ensures NameIn(SqueezeMembers(members), sofar) == NameIn(members, sofar)
  {
    hide StringOf;
    if members.Member? {
      StringSqueezed(members.val);
      NameSqueezed(members.rest, sofar);
      NameSqueezed(members.rest, StringOf(members.val));
    }
  }
}
