/**
 Whether a datatype conversion needs the destination's old bytes: `RV_need_bkg`, `RV_tconv_init`.
 */
module Background {
  import opened Numbers

  // A datatype as the conversion looks at it.
  datatype MemType =
    | Atom(asize: nat)                         // integer, float, time, fixed string, bitfield, opaque
    | VarString(ssize: nat)                    // variable-length string, with characters beneath it
    | EnumType(esize: nat, names: set<string>)
    | Reference(rsize: nat)
    | Vlen(vsize: nat, velem: MemType)
    | Compound(csize: nat, fields: Fields)
    | Array(elem: MemType, count: nat)         // `count` elements over all dimensions

  datatype Fields =
    | NoFields
    | Field(name: string, offset: nat, ty: MemType, rest: Fields)

  // `H5Tget_size`
  function Size(t: MemType): nat {
    match t
    case Atom(s) => s
    case VarString(s) => s
    case EnumType(s, _) => s
    case Reference(s) => s
    case Vlen(s, _) => s
    case Compound(s, _) => s
    case Array(elem, count) => count * Size(elem)
  }

  datatype Found = Missing | Unusable | Member(ty: MemType)

  function FindField(fields: Fields, name: string): Found {
    if fields.NoFields? then Missing
    else if fields.name == name then Member(fields.ty)
    else FindField(fields.rest, name)
  }

  // `H5Tget_member_index` followed by `H5Tget_member_type`: an enum has members, but no types.
  function SourceMember(src: MemType, name: string): Found {
    match src
    case Compound(_, fields) => FindField(fields, name)
    case EnumType(_, names) => if name in names then Unusable else Missing
    case _ => Missing
  }

  // `H5Tget_super`
  function SourceElem(src: MemType): Found {
    match src
    case Array(elem, _) => Member(elem)
    case Vlen(_, elem) => Member(elem)
    case EnumType(size, _) => Member(Atom(size))
    case VarString(_) => Member(Atom(1))
    case _ => Unusable
  }

  datatype Answer = Failed | Answer(need: bool, fill: bool)

  // What `RV_need_bkg` answers when `*fill_bkg` is FALSE on entry.
  function NeedBkg(src: MemType, dst: MemType, dstFile: bool): Answer
    decreases dst
  {
    if Size(dst) == 0 then Failed
    else
      match dst
      case Atom(_) => Answer(false, false)
      case VarString(_) => Answer(false, false)
      case EnumType(_, _) => Answer(false, false)
      case Reference(_) => Answer(dstFile, dstFile)
      case Vlen(_, _) => Answer(dstFile, dstFile)
      case Compound(size, fields) => NeedFields(src, fields, dstFile, size, 0)
      case Array(elem, _) =>
        match SourceElem(src)
        case Member(s) => NeedBkg(s, elem, dstFile)
        case _ => Failed
  }

  // The loop over a compound's members, with `used` bytes accounted for so far.
  function NeedFields(src: MemType, fields: Fields, dstFile: bool, size: nat, used: nat): Answer
    decreases fields
  {
    if fields.NoFields? then Answer(true, used != size)
    else
      match SourceMember(src, fields.name)
      case Missing => Answer(true, true)
      case Unusable => Failed
      case Member(s) =>
        var r := NeedBkg(s, fields.ty, dstFile);
        if r.Failed? then Failed
        else if r.fill then Answer(true, true)
        else NeedFields(src, fields.rest, dstFile, size, used + Size(fields.ty))
  }

  /** `RV_need_bkg`, with its out-parameters as results. */
  method ComputeNeedBkg(src: MemType, dst: MemType, dstFile: bool) returns (r: Answer, dstSize: nat)
    ensures r == NeedBkg(src, dst, dstFile)
    ensures dstSize == Size(dst)
    decreases dst
  {
    dstSize := Size(dst);
    if dstSize == 0 {
      return Failed, dstSize;
    }
    match dst
    case Atom(_) => r := Answer(false, false);
    case VarString(_) => r := Answer(false, false);
    case EnumType(_, _) => r := Answer(false, false);
    case Reference(_) => r := Answer(dstFile, dstFile);
    case Vlen(_, _) => r := Answer(dstFile, dstFile);
    case Compound(size, fields) =>
      var used := 0;
      var left := fields;
      while left.Field?
        invariant fields == left || (fields decreases to left)
        invariant NeedFields(src, fields, dstFile, size, 0) == NeedFields(src, left, dstFile, size, used)
        decreases left
      {
        var found := SourceMember(src, left.name);
        if found.Missing? {
          return Answer(true, true), dstSize;
        }
        if found.Unusable? {
          return Failed, dstSize;
        }
        var sub, membSize := ComputeNeedBkg(found.ty, left.ty, dstFile);
        if sub.Failed? {
          return Failed, dstSize;
        }
        if sub.fill {
          return Answer(true, true), dstSize;
        }
        used := used + membSize;
        left := left.rest;
      }
      r := Answer(true, used != dstSize);
    case Array(elem, _) =>
      var s := SourceElem(src);
      if !s.Member? {
        return Failed, dstSize;
      }
      var elemSize;
      r, elemSize := ComputeNeedBkg(s.ty, elem, dstFile);
  }

  // ---------- what a conversion writes ----------

  predicate Within(x: int, offset: nat, size: nat) {
    offset <= x < offset + size
  }

  // Byte `x` of a destination element gets a value from a name-matched source member.
  predicate Writes(src: MemType, dst: MemType, x: int)
    decreases dst
  {
    0 <= x < Size(dst) &&
    match dst
    case Compound(_, fields) => WritesFields(src, fields, x)
    case Array(elem, _) =>
      SourceElem(src).Member? && Size(elem) > 0 && Writes(SourceElem(src).ty, elem, x % Size(elem))
    case _ => true
  }

  predicate WritesFields(src: MemType, fields: Fields, x: int)
    decreases fields
  {
    fields.Field?
    && ((Within(x, fields.offset, Size(fields.ty)) && SourceMember(src, fields.name).Member?
         && Writes(SourceMember(src, fields.name).ty, fields.ty, x - fields.offset))
        || WritesFields(src, fields.rest, x))
  }

  // A vlen or reference of the destination gets a value, so that its old value must be freed.
  predicate Replaces(src: MemType, dst: MemType)
    decreases dst
  {
    match dst
    case Reference(_) => true
    case Vlen(_, _) => true
    case Compound(_, fields) => ReplacesIn(src, fields)
    case Array(elem, _) => SourceElem(src).Member? && Replaces(SourceElem(src).ty, elem)
    case _ => false
  }

  predicate ReplacesIn(src: MemType, fields: Fields)
    decreases fields
  {
    fields.Field?
    && ((SourceMember(src, fields.name).Member? && Replaces(SourceMember(src, fields.name).ty, fields.ty))
        || ReplacesIn(src, fields.rest))
  }

  ghost predicate Gap(src: MemType, dst: MemType) {
    exists x :: 0 <= x < Size(dst) && !Writes(src, dst, x)
  }

  // ---------- what HDF5 guarantees of a compound: its members do not overlap ----------

  ghost predicate WellFormed(t: MemType) {
    match t
    case Compound(size, fields) => Apart(fields, size)
    case Array(elem, _) => WellFormed(elem)
    case _ => true
  }

  ghost predicate Apart(fields: Fields, size: nat) {
    fields.Field? ==>
      && WellFormed(fields.ty) && Size(fields.ty) > 0 && fields.offset + Size(fields.ty) <= size
      && (forall x :: Within(x, fields.offset, Size(fields.ty)) ==> !Covered(fields.rest, x))
      && Apart(fields.rest, size)
  }

  predicate Covered(fields: Fields, x: int) {
    fields.Field? && (Within(x, fields.offset, Size(fields.ty)) || Covered(fields.rest, x))
  }

  function SumSizes(fields: Fields): nat {
    if fields.NoFields? then 0 else Size(fields.ty) + SumSizes(fields.rest)
  }

  // ---------- the members leave no gap exactly if their sizes add up ----------

  predicate Between(x: int, lo: int, hi: int) {
    lo <= x < hi
  }

  ghost function Range(lo: int, hi: int): set<int> {
    set x | lo <= x < hi && Between(x, lo, hi)
  }

  lemma {:induction false} RangeSize(lo: int, hi: int)
    requires lo <= hi
    ensures |Range(lo, hi)| == hi - lo
    decreases hi - lo
  {
    if lo == hi {
      assert Range(lo, hi) == {};
    } else {
      RangeSize(lo, hi - 1);
      assert Between(hi - 1, lo, hi);
      assert forall x :: Between(x, lo, hi) <==> Between(x, lo, hi - 1) || x == hi - 1;
      assert Range(lo, hi) == Range(lo, hi - 1) + {hi - 1};
    }
  }

  ghost function CoveredSet(fields: Fields, size: nat): set<int> {
    set x | 0 <= x < size && Covered(fields, x)
  }

  lemma {:induction false} CoveredSetSize(fields: Fields, size: nat)
    requires Apart(fields, size)
    ensures |CoveredSet(fields, size)| == SumSizes(fields)
    decreases fields
  {
    if fields.NoFields? {
      assert CoveredSet(fields, size) == {};
    } else {
      var own, rest := Range(fields.offset, fields.offset + Size(fields.ty)), CoveredSet(fields.rest, size);
      CoveredSetSize(fields.rest, size);
      RangeSize(fields.offset, fields.offset + Size(fields.ty));
      assert CoveredSet(fields, size) == own + rest;
      forall x | x in own ensures x !in rest { assert Within(x, fields.offset, Size(fields.ty)); }
      assert own * rest == {};
    }
  }

  ghost predicate AllCovered(fields: Fields, size: nat) {
    forall x :: 0 <= x < size ==> Covered(fields, x)
  }

  lemma NoGapIffSizesAddUp(fields: Fields, size: nat)
    requires Apart(fields, size)
    ensures SumSizes(fields) <= size
    ensures SumSizes(fields) == size <==> AllCovered(fields, size)
  {
    CoveredSetSize(fields, size);
    RangeSize(0, size);
    var covered, all := CoveredSet(fields, size), Range(0, size);
    SubsetSize(covered, all);
    if SumSizes(fields) == size {
      forall x | 0 <= x < size ensures Covered(fields, x) { assert Between(x, 0, size) && x in all; }
    }
    if AllCovered(fields, size) {
      forall x ensures x in covered <==> x in all { }
      assert covered == all;
    }
  }

  lemma {:induction false} SubsetSize<T>(a: set<T>, b: set<T>)
    requires a <= b
    ensures |a| <= |b| && (|a| == |b| ==> a == b)
    decreases |a|
  {
    if a != {} {
      var x :| x in a;
      SubsetSize(a - {x}, b - {x});
      assert a == (a - {x}) + {x} && b == (b - {x}) + {x};
    }
  }

  // ---------- the answer is exact ----------

  // What the loop knows once every member has been passed: all of them fully written.
  ghost predicate FullyWritten(src: MemType, fields: Fields, dstFile: bool) {
    fields.Field? ==>
      && SourceMember(src, fields.name).Member?
      && !Gap(SourceMember(src, fields.name).ty, fields.ty)
      && !(dstFile && Replaces(SourceMember(src, fields.name).ty, fields.ty))
      && FullyWritten(src, fields.rest, dstFile)
  }

  lemma {:induction false} FullyWrittenWrites(src: MemType, fields: Fields, dstFile: bool, x: int)
    requires FullyWritten(src, fields, dstFile)
    ensures WritesFields(src, fields, x) == Covered(fields, x)
    ensures dstFile ==> !ReplacesIn(src, fields)
    decreases fields
  {
    if fields.Field? {
      FullyWrittenWrites(src, fields.rest, dstFile, x);
      if Within(x, fields.offset, Size(fields.ty)) {
        assert !Gap(SourceMember(src, fields.name).ty, fields.ty);
        assert Writes(SourceMember(src, fields.name).ty, fields.ty, x - fields.offset);
      }
    }
  }

  lemma {:induction false} WritesFieldsCovered(src: MemType, fields: Fields, x: int)
    ensures WritesFields(src, fields, x) ==> Covered(fields, x)
    decreases fields
  {
    if fields.Field? { WritesFieldsCovered(src, fields.rest, x); }
  }

  // Why the loop may stop early: a member with a gap leaves a gap in the compound.
  ghost predicate FieldsFill(src: MemType, fields: Fields, dstFile: bool, size: nat) {
    || (exists x :: 0 <= x < size && Covered(fields, x) && !WritesFields(src, fields, x))
    || (dstFile && ReplacesIn(src, fields))
  }

  lemma FirstFieldGap(src: MemType, fields: Fields, dstFile: bool, size: nat)
    requires Apart(fields, size) && fields.Field?
    requires SourceMember(src, fields.name).Member? ==> Gap(SourceMember(src, fields.name).ty, fields.ty)
    ensures FieldsFill(src, fields, dstFile, size)
  {
    var found := SourceMember(src, fields.name);
    var y := 0;
    if found.Member? {
      y :| 0 <= y < Size(fields.ty) && !Writes(found.ty, fields.ty, y);
    }
    var x := fields.offset + y;
    assert Within(x, fields.offset, Size(fields.ty)) && x - fields.offset == y;
    WritesFieldsCovered(src, fields.rest, x);
    assert Covered(fields, x) && !WritesFields(src, fields, x);
  }

  lemma RestFill(src: MemType, fields: Fields, dstFile: bool, size: nat)
    requires Apart(fields, size) && fields.Field? && FieldsFill(src, fields.rest, dstFile, size)
    ensures FieldsFill(src, fields, dstFile, size)
  {
    if !(dstFile && ReplacesIn(src, fields.rest)) {
      var x :| 0 <= x < size && Covered(fields.rest, x) && !WritesFields(src, fields.rest, x);
      assert !Within(x, fields.offset, Size(fields.ty));
      assert Covered(fields, x) && !WritesFields(src, fields, x);
    }
  }

  lemma {:induction false} FieldsExact(src: MemType, fields: Fields, dstFile: bool, size: nat, used: nat)
    requires Apart(fields, size)
    requires var r := NeedFields(src, fields, dstFile, size, used); !r.Failed?
    ensures var r := NeedFields(src, fields, dstFile, size, used);
      if FieldsFill(src, fields, dstFile, size) then r.fill
      else FullyWritten(src, fields, dstFile) && r.fill == (used + SumSizes(fields) != size)
    decreases fields, 0
  {
    if fields.NoFields? {
      assert forall x :: !Covered(fields, x);
    } else {
      var found := SourceMember(src, fields.name);
      if !found.Member? {
        FirstFieldGap(src, fields, dstFile, size);
      } else {
        NeedBkgIsExact(found.ty, fields.ty, dstFile);
        if NeedBkg(found.ty, fields.ty, dstFile).fill {
          if Gap(found.ty, fields.ty) { FirstFieldGap(src, fields, dstFile, size); }
        } else {
          FieldsExact(src, fields.rest, dstFile, size, used + Size(fields.ty));
          if FieldsFill(src, fields.rest, dstFile, size) {
            RestFill(src, fields, dstFile, size);
          } else {
            FullyWrittenNoFill(src, fields, dstFile, size);
          }
        }
      }
    }
  }

  lemma FullyWrittenNoFill(src: MemType, fields: Fields, dstFile: bool, size: nat)
    requires FullyWritten(src, fields, dstFile)
    ensures !FieldsFill(src, fields, dstFile, size)
  {
    forall x ensures WritesFields(src, fields, x) == Covered(fields, x) {
      FullyWrittenWrites(src, fields, dstFile, x);
    }
    FullyWrittenWrites(src, fields, dstFile, 0);
  }

  /** The background buffer is filled exactly if some byte of the destination element is not written
      by a matched source member, or the destination is in the file and a vlen or reference of it is
      overwritten. */
  lemma {:induction false} NeedBkgIsExact(src: MemType, dst: MemType, dstFile: bool)
    requires WellFormed(dst) && !NeedBkg(src, dst, dstFile).Failed?
    ensures NeedBkg(src, dst, dstFile).fill <==> Gap(src, dst) || (dstFile && Replaces(src, dst))
    decreases dst, 1
  {
    match dst
    case Compound(size, fields) =>
      FieldsExact(src, fields, dstFile, size, 0);
      NoGapIffSizesAddUp(fields, size);
      CompoundGap(src, dst, dstFile);
    case Array(elem, count) =>
      var s := SourceElem(src).ty;
      ArrayPositive(elem, count);
      NeedBkgIsExact(s, elem, dstFile);
      ArrayGap(src, dst);
    case _ =>
  }

  // ---------- when the analysis fails, and what it answers otherwise ----------

  ghost predicate Fills(src: MemType, dst: MemType, dstFile: bool) {
    Gap(src, dst) || (dstFile && Replaces(src, dst))
  }

  // What is looked at has a size, an array stands against a source with elements, and a member that
  // the source has by name has a type there; members after the first one that calls for the old
  // bytes are not looked at.
  ghost predicate Analysable(src: MemType, dst: MemType, dstFile: bool)
    decreases dst
  {
    Size(dst) > 0 &&
    match dst
    case Compound(_, fields) => AnalysableFields(src, fields, dstFile)
    case Array(elem, _) => SourceElem(src).Member? && Analysable(SourceElem(src).ty, elem, dstFile)
    case _ => true
  }

  ghost predicate AnalysableFields(src: MemType, fields: Fields, dstFile: bool)
    decreases fields
  {
    fields.Field? && SourceMember(src, fields.name) != Missing ==>
      && SourceMember(src, fields.name).Member?
      && Analysable(SourceMember(src, fields.name).ty, fields.ty, dstFile)
      && (Fills(SourceMember(src, fields.name).ty, fields.ty, dstFile) || AnalysableFields(src, fields.rest, dstFile))
  }

  // What is left of a type without its array dimensions.
  function Core(t: MemType): MemType {
    if t.Array? then Core(t.elem) else t
  }

  predicate Needs(dst: MemType, dstFile: bool) {
    Core(dst).Compound? || (dstFile && (Core(dst).Reference? || Core(dst).Vlen?))
  }

  /** The whole answer: it fails exactly if the types cannot be analysed; a buffer is needed exactly
      for compounds, and for vlens and references in the file, through arrays; and the buffer has to
      be filled exactly if a byte is not written or a vlen or reference in the file is replaced. */
  lemma AnswerIsExact(src: MemType, dst: MemType, dstFile: bool)
    requires WellFormed(dst)
    ensures NeedBkg(src, dst, dstFile)
         == if Analysable(src, dst, dstFile) then Answer(Needs(dst, dstFile), Fills(src, dst, dstFile)) else Failed
  {
    hide NeedBkg, Analysable;
    FailsExactly(src, dst, dstFile);
    if Analysable(src, dst, dstFile) {
      NeedBkgIsExact(src, dst, dstFile);
      NeedIsExact(src, dst, dstFile);
    }
  }

  lemma {:induction false} FailsExactly(src: MemType, dst: MemType, dstFile: bool)
    requires WellFormed(dst)
    ensures NeedBkg(src, dst, dstFile).Failed? <==> !Analysable(src, dst, dstFile)
    decreases dst, 1
  {
    hide Fills, Size, SourceMember;
    match dst
    case Compound(size, fields) => FieldsFailExactly(src, fields, dstFile, size, 0);
    case Array(elem, _) =>
      ElementSize(dst);
      if SourceElem(src).Member? { FailsExactly(SourceElem(src).ty, elem, dstFile); }
    case _ =>
  }

  lemma ElementSize(dst: MemType)
    requires dst.Array?
    ensures Size(dst) > 0 ==> Size(dst.elem) > 0
  {
  }

  lemma {:induction false} FieldsFailExactly(src: MemType, fields: Fields, dstFile: bool, size: nat, used: nat)
    requires Apart(fields, size)
    ensures NeedFields(src, fields, dstFile, size, used).Failed? <==> !AnalysableFields(src, fields, dstFile)
    decreases fields, 0
  {
    hide NeedBkg, Analysable, Gap, Replaces, SourceMember;
    if fields.Field? && SourceMember(src, fields.name).Member? {
      var s := SourceMember(src, fields.name).ty;
      FailsExactly(s, fields.ty, dstFile);
      if Analysable(s, fields.ty, dstFile) { NeedBkgIsExact(s, fields.ty, dstFile); }
      FieldsFailExactly(src, fields.rest, dstFile, size, used + Size(fields.ty));
    }
  }

  lemma {:induction false} NeedIsExact(src: MemType, dst: MemType, dstFile: bool)
    requires !NeedBkg(src, dst, dstFile).Failed?
    ensures NeedBkg(src, dst, dstFile).need <==> Needs(dst, dstFile)
    ensures NeedBkg(src, dst, dstFile).fill ==> NeedBkg(src, dst, dstFile).need
    decreases dst
  {
    if dst.Array? {
      NeedIsExact(SourceElem(src).ty, dst.elem, dstFile);
    } else if dst.Compound? {
      FieldsNeed(src, dst.fields, dstFile, dst.csize, 0);
    }
  }

  lemma {:induction false} FieldsNeed(src: MemType, fields: Fields, dstFile: bool, size: nat, used: nat)
    ensures var r := NeedFields(src, fields, dstFile, size, used); r.Answer? ==> r.need
    decreases fields
  {
    hide NeedBkg, SourceMember, Size;
    if fields.Field? {
      FieldsNeed(src, fields.rest, dstFile, size, used + Size(fields.ty));
    }
  }

  // ---------- a type converts to itself ----------

  predicate HasName(fields: Fields, name: string) {
    fields.Field? && (fields.name == name || HasName(fields.rest, name))
  }

  // Every part has a size, and the members of a compound have different names.
  predicate Proper(t: MemType) {
    Size(t) > 0 &&
    match t
    case Compound(_, fields) => ProperFields(fields)
    case Array(elem, _) => Proper(elem)
    case _ => true
  }

  predicate ProperFields(fields: Fields) {
    fields.Field? ==> Proper(fields.ty) && !HasName(fields.rest, fields.name) && ProperFields(fields.rest)
  }

  // The source has each member with the type it has here.
  predicate Offers(src: MemType, fields: Fields)
    decreases fields
  {
    fields.Field? ==> SourceMember(src, fields.name) == Member(fields.ty) && Offers(src, fields.rest)
  }

  lemma {:induction false} OffersBehind(size: nat, first: Fields, fields: Fields)
    requires first.Field? && Offers(Compound(size, first.rest), fields) && !HasName(fields, first.name)
    ensures Offers(Compound(size, first), fields)
    decreases fields
  {
    if fields.Field? { OffersBehind(size, first, fields.rest); }
  }

  lemma {:induction false} OffersItself(size: nat, fields: Fields)
    requires ProperFields(fields)
    ensures Offers(Compound(size, fields), fields)
    decreases fields
  {
    if fields.Field? {
      OffersItself(size, fields.rest);
      OffersBehind(size, fields, fields.rest);
    }
  }

  /** The analysis of a type against itself never fails. */
  lemma {:induction false} SameTypeIsAnalysable(t: MemType, dstFile: bool)
    requires Proper(t)
    ensures Analysable(t, t, dstFile)
    decreases t, 1
  {
    match t
    case Compound(size, fields) =>
      OffersItself(size, fields);
      OfferedAreAnalysable(t, fields, dstFile);
    case Array(elem, _) => SameTypeIsAnalysable(elem, dstFile);
    case _ =>
  }

  lemma {:induction false} OfferedAreAnalysable(src: MemType, fields: Fields, dstFile: bool)
    requires ProperFields(fields) && Offers(src, fields)
    ensures AnalysableFields(src, fields, dstFile)
    decreases fields, 0
  {
    hide SourceMember, Fills;
    if fields.Field? {
      SameTypeIsAnalysable(fields.ty, dstFile);
      OfferedAreAnalysable(src, fields.rest, dstFile);
    }
  }

  lemma ArrayPositive(elem: MemType, count: nat)
    requires count * Size(elem) != 0
    ensures count > 0 && Size(elem) > 0
  {
  }

  lemma CompoundGap(src: MemType, dst: MemType, dstFile: bool)
    requires dst.Compound? && Apart(dst.fields, dst.csize)
    ensures FieldsFill(src, dst.fields, dstFile, dst.csize) ==> Gap(src, dst) || (dstFile && Replaces(src, dst))
    ensures FullyWritten(src, dst.fields, dstFile) ==>
      (Gap(src, dst) <==> !AllCovered(dst.fields, dst.csize)) && !(dstFile && Replaces(src, dst))
  {
    var fields := dst.fields;
    if exists x :: 0 <= x < dst.csize && Covered(fields, x) && !WritesFields(src, fields, x) {
      var x :| 0 <= x < dst.csize && Covered(fields, x) && !WritesFields(src, fields, x);
      assert !Writes(src, dst, x);
    }
    if FullyWritten(src, fields, dstFile) {
      forall x ensures Writes(src, dst, x) <==> 0 <= x < dst.csize && Covered(fields, x) {
        FullyWrittenWrites(src, fields, dstFile, x);
      }
      FullyWrittenWrites(src, fields, dstFile, 0);
    }
  }

  lemma ArrayGap(src: MemType, dst: MemType)
    requires dst.Array? && SourceElem(src).Member? && dst.count > 0 && Size(dst.elem) > 0
    ensures Gap(src, dst) <==> Gap(SourceElem(src).ty, dst.elem)
  {
    var s, n := SourceElem(src).ty, Size(dst.elem);
    ScaleMono(n, 1, dst.count);
    assert Size(dst) == dst.count * n;
    hide Size, NeedBkg;
    if Gap(src, dst) {
      var x :| 0 <= x < Size(dst) && !Writes(src, dst, x);
      ModRange(x, n);
      ArrayWrites(src, dst, x);
    }
    if Gap(s, dst.elem) {
      var y :| 0 <= y < n && !Writes(s, dst.elem, y);
      ModRange(y, n);
      ArrayWrites(src, dst, y);
    }
  }

  lemma ArrayWrites(src: MemType, dst: MemType, x: nat)
    requires dst.Array? && SourceElem(src).Member? && Size(dst.elem) > 0 && x < Size(dst)
    ensures Writes(src, dst, x) == Writes(SourceElem(src).ty, dst.elem, x % Size(dst.elem))
  {
  }

  // ---------- the buffers of a conversion ----------

  datatype Reuse = ReuseNone | ReuseTconv | ReuseBkg

  datatype Block = Null | Block(bytes: nat, zeroed: bool)

  // The caller's destination buffer holds one destination element for each element converted.
  function ConversionBytes(tconv: Block, reuse: Reuse, numElem: nat, dstSize: nat): nat {
    if reuse == ReuseTconv then numElem * dstSize else if tconv.Null? then 0 else tconv.bytes
  }

  function BackgroundBytes(bkg: Block, reuse: Reuse, numElem: nat, dstSize: nat): nat {
    if reuse == ReuseBkg then numElem * dstSize else if bkg.Null? then 0 else bkg.bytes
  }

  /** `RV_tconv_init` for at least one element; `canReuse` says whether the caller offers its
      destination buffer.  The two buffers are never the same storage, and both hold all elements. */
  method InitConversion(src: MemType, dst: MemType, numElem: nat, clear: bool, dstFile: bool, canReuse: bool)
    returns (ok: bool, srcSize: nat, dstSize: nat, tconv: Block, bkg: Block, reuse: Reuse, fill: bool)
    requires numElem > 0
    ensures ok <==> Size(src) > 0 && !NeedBkg(src, dst, dstFile).Failed?
    ensures WellFormed(dst) ==> (ok <==> Size(src) > 0 && Analysable(src, dst, dstFile))
    ensures !ok ==> tconv.Null? && bkg.Null? && reuse == ReuseNone
    ensures ok ==> fill == NeedBkg(src, dst, dstFile).fill && (WellFormed(dst) ==> fill == Fills(src, dst, dstFile))
    ensures ok ==>
      && srcSize == Size(src) && dstSize == Size(dst)
      && ConversionBytes(tconv, reuse, numElem, dstSize) >= numElem * srcSize
      && ConversionBytes(tconv, reuse, numElem, dstSize) >= numElem * dstSize
      && (reuse == ReuseTconv <==> tconv.Null?)
      && (reuse == ReuseTconv <==> canReuse && dstSize >= srcSize)
      && (Needs(dst, dstFile) ==> BackgroundBytes(bkg, reuse, numElem, dstSize) >= numElem * dstSize)
      && (fill ==> BackgroundBytes(bkg, reuse, numElem, dstSize) >= numElem * dstSize)
      && (Needs(dst, dstFile) ==> (reuse == ReuseBkg <==> bkg.Null?))
      && (reuse == ReuseBkg <==> Needs(dst, dstFile) && canReuse && dstSize < srcSize)
      && (!Needs(dst, dstFile) ==> bkg.Null?)
      && (bkg.Block? ==> bkg.zeroed) && (tconv.Block? ==> tconv.zeroed == clear)
  {
    hide NeedBkg, Analysable, Fills, WellFormed, Needs;
    if WellFormed(dst) { AnswerIsExact(src, dst, dstFile); }
    tconv, bkg, reuse, fill := Null, Null, ReuseNone, false;
    srcSize, dstSize := Size(src), 0;
    if srcSize == 0 {
      return false, srcSize, dstSize, tconv, bkg, reuse, fill;
    }
    var answer;
    answer, dstSize := ComputeNeedBkg(src, dst, dstFile);
    if answer.Failed? {
      return false, srcSize, dstSize, tconv, bkg, reuse, fill;
    }
    NeedIsExact(src, dst, dstFile);
    fill := answer.fill;
    if canReuse {
      if dstSize >= srcSize {
        reuse := ReuseTconv;
      } else if answer.need {
        reuse := ReuseBkg;
      }
    }
    var widest := if srcSize > dstSize then srcSize else dstSize;
    ScaleMono(numElem, srcSize, widest);
    ScaleMono(numElem, dstSize, widest);
    if reuse != ReuseTconv {
      tconv := Block(numElem * widest, clear);
    }
    if answer.need && reuse != ReuseBkg {
      bkg := Block(numElem * dstSize, true);
    }
    ok := true;
  }

  lemma ScaleMono(n: nat, a: nat, b: nat)
    requires a <= b
    ensures n * a <= n * b
  {
    assert n * b == n * a + n * (b - a);
  }
}
