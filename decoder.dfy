/**
 * The dispatch of custom attributes: every CustomAttribute row attached to a member
 * names its attribute type through its constructor (a MemberRef whose parent is a
 * TypeRef); the type is either skipped, handed to the extractor the member kind's
 * catalog registers for it, or, when neither, the decoding fails.
 *
 * Each extractor is specified by a function from the data accumulated so far to the
 * new data (ApplyType, ApplyMethod, ApplyField, ApplyParam), and the decoding of all
 * rows by a fold of that function over the rows (ExtractAll). The methods update the
 * accumulator objects in place and are proved to agree with those functions.
 */
module AttributeDecoder {
  import opened Wrappers
  import opened Metadata
  import opened Signatures
  import opened AttributeValues
  import opened Guids
  import opened Catalogs
  import opened Records

  /** What an extractor sees: the decoder, the CustomAttribute row and its constructor's MemberRef row. */
  datatype ExtractionContext = ExtractionContext(decoder: Decoder, attribute: CustomAttributeRow, memberRef: MemberRefRow)
  {
    /** getValue: the value blob decoded against the constructor's signature. */
    function DecodedValue(): Decoded<CustomAttributeValue> {
      ValueOf(decoder.collaborators, memberRef.signature, attribute.value)
    }

    /** getLazyString: the value blob read as a single string. */
    function DecodedLazyString(): Decoded<LazyString> {
      LazyStringOf(decoder.collaborators, memberRef.signature, attribute.value)
    }
  }

  // ---------------------------------------------------------------------------------
  // Reading the first fixed argument

  /** fixedArguments()[0].value(): fails when there is no argument. */
  function FirstArgument(v: CustomAttributeValue): (r: Decoded<Value>)
    ensures r.Success? <==> |v.fixedArguments| > 0
    ensures r.Success? ==> r.value == v.fixedArguments[0].value
    ensures r.Failure? ==> r.error == MissingArgument(0)
  {
    if |v.fixedArguments| == 0 then Failure(MissingArgument(0)) else Success(v.fixedArguments[0].value)
  }

  /** Java's narrowing of an integer to int: the low 32 bits read as two's complement. */
  function ToInt32(v: int): (r: int)
    ensures -0x8000_0000 <= r < 0x8000_0000
    ensures (v - r) % 0x1_0000_0000 == 0
    ensures -0x8000_0000 <= v < 0x8000_0000 ==> r == v
  {
    var low := v % 0x1_0000_0000;
    if low < 0x8000_0000 then low else low - 0x1_0000_0000
  }

  /**
   * ((Number) x).intValue(): integers of every width are narrowed to int; booleans,
   * characters and strings are not numbers, so the cast fails.
   */
  function IntValue(x: Value): (r: Decoded<int>)
    ensures r.Success? <==> x.VInt?
    ensures r.Success? ==> -0x8000_0000 <= r.value < 0x8000_0000 && (x.v - r.value) % 0x1_0000_0000 == 0
    ensures x.VBool? || x.VChar? || x.VString? ==> r == Failure(WrongArgumentKind(0))
  {
    match x
    case VInt(v, _) => Success(ToInt32(v))
    case VFloat(_) => Failure(FloatNotModelled)
    case _ => Failure(WrongArgumentKind(0))
  }

  /** (String) x: only a string argument passes the cast. */
  function StringValue(x: Value): (r: Decoded<string>)
    ensures r.Success? <==> x.VString?
    ensures r.Success? ==> r.value == x.text
  {
    match x
    case VString(s) => Success(s)
    case _ => Failure(WrongArgumentKind(0))
  }

  function ArchitectureArgument(v: CustomAttributeValue): Decoded<int> {
    var x :- FirstArgument(v);
    IntValue(x)
  }

  function StringArgument(v: CustomAttributeValue): Decoded<string> {
    var x :- FirstArgument(v);
    StringValue(x)
  }

  // ---------------------------------------------------------------------------------
  // The extractors as functions of the accumulated data

  function ApplyType(k: TypeExtractor, ctx: ExtractionContext, data: TypeAttributes): Decoded<TypeAttributes> {
    match k
    case SupportedArchitecture =>
      var value :- ctx.DecodedValue();
      var arch :- ArchitectureArgument(value);
      Success(data.(supportedArchitecture := arch))
    case DocumentationUrl =>
      var url :- ctx.DecodedLazyString();
      Success(data.(documentationUrl := Some(url)))
    case EnumFlags => Success(data.(isEnumFlags := true))
    case GuidConstant =>
      var value :- ctx.DecodedValue();
      var guid :- GuidOf(value);
      Success(data.(guidConstant := Some(guid)))
    case Typedef => Success(data.(isTypedef := true))
    case StructSizeField =>
      var value :- ctx.DecodedValue();
      var name :- StringArgument(value);
      Success(data.(structSizeField := Some(name)))
  }

  function ApplyMethod(k: MethodExtractor, ctx: ExtractionContext, data: MethodAttributes): Decoded<MethodAttributes> {
    match k
    case SupportedArchitecture =>
      var value :- ctx.DecodedValue();
      var arch :- ArchitectureArgument(value);
      Success(data.(supportedArchitecture := arch))
    case DocumentationUrl =>
      var url :- ctx.DecodedLazyString();
      Success(data.(documentationUrl := Some(url)))
    case ConstantValue =>
      var value :- ctx.DecodedValue();
      var constant :- FirstArgument(value);
      Success(data.(constantValue := Some(constant)))
  }

  function ApplyField(k: FieldExtractor, ctx: ExtractionContext, data: FieldAttributes): Decoded<FieldAttributes> {
    match k
    case DocumentationUrl =>
      var url :- ctx.DecodedLazyString();
      Success(data.(documentationUrl := Some(url)))
    case GuidConstant =>
      var value :- ctx.DecodedValue();
      var guid :- GuidOf(value);
      Success(data.(guidConstant := Some(guid)))
    case AnsiEncoding => Success(data.(isAnsiEncoding := true))
    case FlexibleArray => Success(data.(isFlexibleArray := true))
    case ConstantValue =>
      var value :- ctx.DecodedValue();
      var constant :- FirstArgument(value);
      Success(data.(constantValue := Some(constant)))
  }

  function ApplyParam(k: ParamExtractor, ctx: ExtractionContext, data: ParamAttributes): Decoded<ParamAttributes> {
    match k
    case AssociatedEnumType =>
      var value :- ctx.DecodedValue();
      var name :- StringArgument(value);
      Success(data.(associatedEnumType := Some(name)))
  }

  // ---------------------------------------------------------------------------------
  // Resolving a row to its attribute type, and the fold over all rows

  /**
   * The qualified name of the attribute type a row instantiates, with the constructor's
   * MemberRef row: the constructor must be a non-null MemberRef, and that MemberRef's
   * parent a non-null TypeRef, both naming existing rows.
   */
  function AttributeType(d: Decoder, row: CustomAttributeRow): (r: Decoded<(QualifiedName, MemberRefRow)>)
    ensures r.Success? <==>
      row.constructorIndex.table == MemberRefTable && 1 <= row.constructorIndex.index <= |d.file.memberRefs|
      && var m := d.file.memberRefs[row.constructorIndex.index - 1];
         m.parent.table == TypeRefTable && 1 <= m.parent.index <= |d.file.typeRefs|
    ensures r.Success? ==>
      var m := d.file.memberRefs[row.constructorIndex.index - 1];
      var t := d.file.typeRefs[m.parent.index - 1];
      r.value == (QualifiedName(t.typeNamespace, t.typeName), m)
  {
    if row.constructorIndex.table != MemberRefTable then Failure(ConstructorNotMemberRef)
    else if row.constructorIndex.index == 0 then Failure(NullConstructor)
    else
      var memberRef :- d.file.GetMemberRef(row.constructorIndex.index);
      if memberRef.parent.table != TypeRefTable then Failure(ParentNotTypeRef)
      else if memberRef.parent.index == 0 then Failure(NullParent)
      else
        var typeRef :- d.file.GetTypeRef(memberRef.parent.index);
        Success((QualifiedName(typeRef.typeNamespace, typeRef.typeName), memberRef))
  }

  /** What to do with a row: skip it (None), run an extractor in a context, or fail. */
  function Classify<K>(d: Decoder, row: CustomAttributeRow, catalog: Catalog<K>): Decoded<Option<(K, ExtractionContext)>> {
    var (name, memberRef) :- AttributeType(d, row);
    if name in catalog.ignored then Success(None)
    else if name !in catalog.extractors then Failure(UnknownAttribute(name))
    else Success(Some((catalog.extractors[name], ExtractionContext(d, row, memberRef))))
  }

  /** extractAttributes: the rows in order, each skipped or applied to the data, stopping at the first failure. */
  function ExtractAll<K, R>(d: Decoder, rows: seq<CustomAttributeRow>, catalog: Catalog<K>,
                            apply: (K, ExtractionContext, R) -> Decoded<R>, data: R): Decoded<R>
  {
    if rows == [] then Success(data)
    else
      var step :- Classify(d, rows[0], catalog);
      match step
      case None => ExtractAll(d, rows[1..], catalog, apply, data)
      case Some((k, ctx)) =>
        var next :- apply(k, ctx, data);
        ExtractAll(d, rows[1..], catalog, apply, next)
  }

  function TypeDefAttributes(d: Decoder, typeDef: nat): Decoded<TypeAttributes> {
    ExtractAll(d, d.file.CustomAttributesOf(CodedRef(TypeDefTable, typeDef)), TypeCatalog, ApplyType, DefaultTypeAttributes)
  }

  function MethodDefAttributes(d: Decoder, methodDef: nat): Decoded<MethodAttributes> {
    ExtractAll(d, d.file.CustomAttributesOf(CodedRef(MethodDefTable, methodDef)), MethodCatalog, ApplyMethod, DefaultMethodAttributes)
  }

  function FieldAttributesOf(d: Decoder, field: nat): Decoded<FieldAttributes> {
    ExtractAll(d, d.file.CustomAttributesOf(CodedRef(FieldTable, field)), FieldCatalog, ApplyField, DefaultFieldAttributes)
  }

  function ParamAttributesOf(d: Decoder, param: nat): Decoded<ParamAttributes> {
    ExtractAll(d, d.file.CustomAttributesOf(CodedRef(ParamTable, param)), ParamCatalog, ApplyParam, DefaultParamAttributes)
  }

  /** One more row of the fold: what ExtractAll does with the row at position i. */
  lemma ExtractAllStep<K, R>(d: Decoder, rows: seq<CustomAttributeRow>, i: nat, catalog: Catalog<K>,
                             apply: (K, ExtractionContext, R) -> Decoded<R>, data: R)
    requires i < |rows|
    ensures ExtractAll(d, rows[i..], catalog, apply, data) ==
      match Classify(d, rows[i], catalog)
      case Failure(e) => Failure(e)
      case Success(None) => ExtractAll(d, rows[i + 1..], catalog, apply, data)
      case Success(Some((k, ctx))) =>
        match apply(k, ctx, data)
        case Failure(e) => Failure(e)
        case Success(next) => ExtractAll(d, rows[i + 1..], catalog, apply, next)
  {
    assert rows[i..][0] == rows[i];
    assert rows[i..][1..] == rows[i + 1..];
  }

  // ---------------------------------------------------------------------------------
  // The extractors and the decoding loops, updating the data objects in place

  method ExtractType(k: TypeExtractor, ctx: ExtractionContext, data: TypeCustomAttributeData) returns (err: Option<Error>)
    modifies data
    ensures var r := ApplyType(k, ctx, old(data.Snapshot()));
      (r.Success? ==> err == None && data.Snapshot() == r.value)
      && (r.Failure? ==> err == Some(r.error) && data.Snapshot() == old(data.Snapshot()))
  {
    err := None;
    match k
    case SupportedArchitecture =>
      var value := GetValue(ctx.decoder.collaborators, ctx.memberRef.signature, ctx.attribute.value);
      if value.Failure? { return Some(value.error); }
      var arch := ArchitectureArgument(value.value);
      if arch.Failure? { return Some(arch.error); }
      data.supportedArchitecture := arch.value;
    case DocumentationUrl =>
      var url := GetLazyString(ctx.decoder.collaborators, ctx.memberRef.signature, ctx.attribute.value);
      if url.Failure? { return Some(url.error); }
      data.documentationUrl := Some(url.value);
    case EnumFlags =>
      data.isEnumFlags := true;
    case GuidConstant =>
      var value := GetValue(ctx.decoder.collaborators, ctx.memberRef.signature, ctx.attribute.value);
      if value.Failure? { return Some(value.error); }
      var guid := CreateGuidConstant(value.value);
      if guid.Failure? { return Some(guid.error); }
      data.guidConstant := Some(guid.value);
    case Typedef =>
      data.isTypedef := true;
    case StructSizeField =>
      var value := GetValue(ctx.decoder.collaborators, ctx.memberRef.signature, ctx.attribute.value);
      if value.Failure? { return Some(value.error); }
      var name := StringArgument(value.value);
      if name.Failure? { return Some(name.error); }
      data.structSizeField := Some(name.value);
  }

  method ExtractMethod(k: MethodExtractor, ctx: ExtractionContext, data: MethodCustomAttributeData) returns (err: Option<Error>)
    modifies data
    ensures var r := ApplyMethod(k, ctx, old(data.Snapshot()));
      (r.Success? ==> err == None && data.Snapshot() == r.value)
      && (r.Failure? ==> err == Some(r.error) && data.Snapshot() == old(data.Snapshot()))
  {
    err := None;
    match k
    case SupportedArchitecture =>
      var value := GetValue(ctx.decoder.collaborators, ctx.memberRef.signature, ctx.attribute.value);
      if value.Failure? { return Some(value.error); }
      var arch := ArchitectureArgument(value.value);
      if arch.Failure? { return Some(arch.error); }
      data.supportedArchitecture := arch.value;
    case DocumentationUrl =>
      var url := GetLazyString(ctx.decoder.collaborators, ctx.memberRef.signature, ctx.attribute.value);
      if url.Failure? { return Some(url.error); }
      data.documentationUrl := Some(url.value);
    case ConstantValue =>
      var value := GetValue(ctx.decoder.collaborators, ctx.memberRef.signature, ctx.attribute.value);
      if value.Failure? { return Some(value.error); }
      var constant := FirstArgument(value.value);
      if constant.Failure? { return Some(constant.error); }
      data.constantValue := Some(constant.value);
  }

  method ExtractField(k: FieldExtractor, ctx: ExtractionContext, data: FieldCustomAttributeData) returns (err: Option<Error>)
    modifies data
    ensures var r := ApplyField(k, ctx, old(data.Snapshot()));
      (r.Success? ==> err == None && data.Snapshot() == r.value)
      && (r.Failure? ==> err == Some(r.error) && data.Snapshot() == old(data.Snapshot()))
  {
    err := None;
    match k
    case DocumentationUrl =>
      var url := GetLazyString(ctx.decoder.collaborators, ctx.memberRef.signature, ctx.attribute.value);
      if url.Failure? { return Some(url.error); }
      data.documentationUrl := Some(url.value);
    case GuidConstant =>
      var value := GetValue(ctx.decoder.collaborators, ctx.memberRef.signature, ctx.attribute.value);
      if value.Failure? { return Some(value.error); }
      var guid := CreateGuidConstant(value.value);
      if guid.Failure? { return Some(guid.error); }
      data.guidConstant := Some(guid.value);
    case AnsiEncoding =>
      data.isAnsiEncoding := true;
    case FlexibleArray =>
      data.isFlexibleArray := true;
    case ConstantValue =>
      var value := GetValue(ctx.decoder.collaborators, ctx.memberRef.signature, ctx.attribute.value);
      if value.Failure? { return Some(value.error); }
      var constant := FirstArgument(value.value);
      if constant.Failure? { return Some(constant.error); }
      data.constantValue := Some(constant.value);
  }

  method ExtractParam(k: ParamExtractor, ctx: ExtractionContext, data: ParamCustomAttributeData) returns (err: Option<Error>)
    modifies data
    ensures var r := ApplyParam(k, ctx, old(data.Snapshot()));
      (r.Success? ==> err == None && data.Snapshot() == r.value)
      && (r.Failure? ==> err == Some(r.error) && data.Snapshot() == old(data.Snapshot()))
  {
    err := None;
    match k
    case AssociatedEnumType =>
      var value := GetValue(ctx.decoder.collaborators, ctx.memberRef.signature, ctx.attribute.value);
      if value.Failure? { return Some(value.error); }
      var name := StringArgument(value.value);
      if name.Failure? { return Some(name.error); }
      data.associatedEnumType := Some(name.value);
  }

  method GetTypeDefAttributes(d: Decoder, typeDef: nat) returns (r: Result<TypeCustomAttributeData, Error>)
    ensures r.Success? <==> TypeDefAttributes(d, typeDef).Success?
    ensures r.Success? ==> fresh(r.value) && r.value.Snapshot() == TypeDefAttributes(d, typeDef).value
    ensures r.Failure? ==> TypeDefAttributes(d, typeDef) == Failure(r.error)
  {
    var rows := d.file.CustomAttributesOf(CodedRef(TypeDefTable, typeDef));
    var data := new TypeCustomAttributeData();
    for i := 0 to |rows|
      invariant ExtractAll(d, rows[i..], TypeCatalog, ApplyType, data.Snapshot()) == TypeDefAttributes(d, typeDef)
    {
      ExtractAllStep(d, rows, i, TypeCatalog, ApplyType, data.Snapshot());
      var step := Classify(d, rows[i], TypeCatalog);
      if step.Failure? { return Failure(step.error); }
      if step.value.Some? {
        var err := ExtractType(step.value.value.0, step.value.value.1, data);
        if err.Some? { return Failure(err.value); }
      }
    }
    return Success(data);
  }

  method GetMethodDefAttributes(d: Decoder, methodDef: nat) returns (r: Result<MethodCustomAttributeData, Error>)
    ensures r.Success? <==> MethodDefAttributes(d, methodDef).Success?
    ensures r.Success? ==> fresh(r.value) && r.value.Snapshot() == MethodDefAttributes(d, methodDef).value
    ensures r.Failure? ==> MethodDefAttributes(d, methodDef) == Failure(r.error)
  {
    var rows := d.file.CustomAttributesOf(CodedRef(MethodDefTable, methodDef));
    var data := new MethodCustomAttributeData();
    for i := 0 to |rows|
      invariant ExtractAll(d, rows[i..], MethodCatalog, ApplyMethod, data.Snapshot()) == MethodDefAttributes(d, methodDef)
    {
      ExtractAllStep(d, rows, i, MethodCatalog, ApplyMethod, data.Snapshot());
      var step := Classify(d, rows[i], MethodCatalog);
      if step.Failure? { return Failure(step.error); }
      if step.value.Some? {
        var err := ExtractMethod(step.value.value.0, step.value.value.1, data);
        if err.Some? { return Failure(err.value); }
      }
    }
    return Success(data);
  }

  method GetFieldAttributes(d: Decoder, field: nat) returns (r: Result<FieldCustomAttributeData, Error>)
    ensures r.Success? <==> FieldAttributesOf(d, field).Success?
    ensures r.Success? ==> fresh(r.value) && r.value.Snapshot() == FieldAttributesOf(d, field).value
    ensures r.Failure? ==> FieldAttributesOf(d, field) == Failure(r.error)
  {
    var rows := d.file.CustomAttributesOf(CodedRef(FieldTable, field));
    var data := new FieldCustomAttributeData();
    for i := 0 to |rows|
      invariant ExtractAll(d, rows[i..], FieldCatalog, ApplyField, data.Snapshot()) == FieldAttributesOf(d, field)
    {
      ExtractAllStep(d, rows, i, FieldCatalog, ApplyField, data.Snapshot());
      var step := Classify(d, rows[i], FieldCatalog);
      if step.Failure? { return Failure(step.error); }
      if step.value.Some? {
        var err := ExtractField(step.value.value.0, step.value.value.1, data);
        if err.Some? { return Failure(err.value); }
      }
    }
    return Success(data);
  }

  method GetParamAttributes(d: Decoder, param: nat) returns (r: Result<ParamCustomAttributeData, Error>)
    ensures r.Success? <==> ParamAttributesOf(d, param).Success?
    ensures r.Success? ==> fresh(r.value) && r.value.Snapshot() == ParamAttributesOf(d, param).value
    ensures r.Failure? ==> ParamAttributesOf(d, param) == Failure(r.error)
  {
    var rows := d.file.CustomAttributesOf(CodedRef(ParamTable, param));
    var data := new ParamCustomAttributeData();
    for i := 0 to |rows|
      invariant ExtractAll(d, rows[i..], ParamCatalog, ApplyParam, data.Snapshot()) == ParamAttributesOf(d, param)
    {
      ExtractAllStep(d, rows, i, ParamCatalog, ApplyParam, data.Snapshot());
      var step := Classify(d, rows[i], ParamCatalog);
      if step.Failure? { return Failure(step.error); }
      if step.value.Some? {
        var err := ExtractParam(step.value.value.0, step.value.value.1, data);
        if err.Some? { return Failure(err.value); }
      }
    }
    return Success(data);
  }

  // ---------------------------------------------------------------------------------
  // Properties of the fold

  /** Decoding a list of rows is decoding its front, then its back from the data the front left. */
  lemma {:induction false} ExtractAllAppend<K, R>(d: Decoder, front: seq<CustomAttributeRow>, back: seq<CustomAttributeRow>,
                                                  catalog: Catalog<K>, apply: (K, ExtractionContext, R) -> Decoded<R>, data: R)
    ensures ExtractAll(d, front + back, catalog, apply, data) ==
      match ExtractAll(d, front, catalog, apply, data)
      case Failure(e) => Failure(e)
      case Success(mid) => ExtractAll(d, back, catalog, apply, mid)
    decreases |front|
  {
    if front == [] {
      assert front + back == back;
    } else {
      assert (front + back)[0] == front[0] && (front + back)[1..] == front[1..] + back;
      match Classify(d, front[0], catalog)
      case Failure(_) =>
      case Success(None) =>
        ExtractAllAppend(d, front[1..], back, catalog, apply, data);
      case Success(Some((k, ctx))) =>
        match apply(k, ctx, data)
        case Failure(_) =>
        case Success(next) =>
          ExtractAllAppend(d, front[1..], back, catalog, apply, next);
    }
  }

  /** Rows whose attribute types are all skipped leave the data as it was. */
  lemma {:induction false} SkippedRowsChangeNothing<K, R>(d: Decoder, rows: seq<CustomAttributeRow>, catalog: Catalog<K>,
                                                          apply: (K, ExtractionContext, R) -> Decoded<R>, data: R)
    requires forall i :: 0 <= i < |rows| ==>
      AttributeType(d, rows[i]).Success? && AttributeType(d, rows[i]).value.0 in catalog.ignored
    ensures ExtractAll(d, rows, catalog, apply, data) == Success(data)
    decreases |rows|
  {
    if rows != [] {
      assert AttributeType(d, rows[0]).Success?;
      SkippedRowsChangeNothing(d, rows[1..], catalog, apply, data);
    }
  }

  /**
   * An attribute type that is neither skipped nor extracted makes the whole decoding fail,
   * and when every row before it was decoded, the failure names that type.
   */
  lemma {:induction false} UnknownAttributeFails<K, R>(d: Decoder, rows: seq<CustomAttributeRow>, i: nat, catalog: Catalog<K>,
                                                       apply: (K, ExtractionContext, R) -> Decoded<R>, data: R)
    requires i < |rows| && AttributeType(d, rows[i]).Success?
    requires var name := AttributeType(d, rows[i]).value.0; name !in catalog.ignored && name !in catalog.extractors
    ensures ExtractAll(d, rows, catalog, apply, data).Failure?
    ensures ExtractAll(d, rows[..i], catalog, apply, data).Success? ==>
      ExtractAll(d, rows, catalog, apply, data) == Failure(UnknownAttribute(AttributeType(d, rows[i]).value.0))
  {
    assert rows == rows[..i] + rows[i..];
    ExtractAllAppend(d, rows[..i], rows[i..], catalog, apply, data);
    match ExtractAll(d, rows[..i], catalog, apply, data)
    case Failure(_) =>
    case Success(mid) =>
      ExtractAllStep(d, rows, i, catalog, apply, mid);
  }

  /** A property of the data that every extractor keeps holds of whatever the decoding produces. */
  lemma {:induction false} ExtractAllPreserves<K, R>(d: Decoder, rows: seq<CustomAttributeRow>, catalog: Catalog<K>,
                                                     apply: (K, ExtractionContext, R) -> Decoded<R>, data: R, p: R -> bool)
    requires p(data)
    requires forall k, ctx, r :: p(r) && apply(k, ctx, r).Success? ==> p(apply(k, ctx, r).value)
    ensures ExtractAll(d, rows, catalog, apply, data).Success? ==> p(ExtractAll(d, rows, catalog, apply, data).value)
    decreases |rows|
  {
    if rows != [] {
      match Classify(d, rows[0], catalog)
      case Failure(_) =>
      case Success(None) =>
        ExtractAllPreserves(d, rows[1..], catalog, apply, data, p);
      case Success(Some((k, ctx))) =>
        match apply(k, ctx, data)
        case Failure(_) =>
        case Success(next) =>
          ExtractAllPreserves(d, rows[1..], catalog, apply, next, p);
    }
  }

  /** No field extractor touches supportedArchitecture, so a field always supports every architecture. */
  lemma FieldArchitectureIsAll(d: Decoder, field: nat)
    ensures FieldAttributesOf(d, field).Success? ==> FieldAttributesOf(d, field).value.supportedArchitecture == ArchitectureAll
  {
    var p := (r: FieldAttributes) => r.supportedArchitecture == ArchitectureAll;
    forall k, ctx, r | p(r) && ApplyField(k, ctx, r).Success?
      ensures p(ApplyField(k, ctx, r).value)
    {
    }
    ExtractAllPreserves(d, d.file.CustomAttributesOf(CodedRef(FieldTable, field)), FieldCatalog, ApplyField, DefaultFieldAttributes, p);
  }

  /** When several SupportedArchitecture attributes are attached to a type, the last one decides. */
  lemma LastArchitectureWins(d: Decoder, front: seq<CustomAttributeRow>, row: CustomAttributeRow, data: TypeAttributes)
    requires AttributeType(d, row).Success? && AttributeType(d, row).value.0 == SupportedArchitectureAttribute
    requires ExtractAll(d, front + [row], TypeCatalog, ApplyType, data).Success?
    ensures var ctx := ExtractionContext(d, row, AttributeType(d, row).value.1);
      ctx.DecodedValue().Success? && ArchitectureArgument(ctx.DecodedValue().value).Success?
      && ExtractAll(d, front + [row], TypeCatalog, ApplyType, data).value.supportedArchitecture
         == ArchitectureArgument(ctx.DecodedValue().value).value
  {
    TypeCatalogDisjoint();
    assert TypeCatalog.extractors[SupportedArchitectureAttribute] == TypeExtractor.SupportedArchitecture;
    ExtractAllAppend(d, front, [row], TypeCatalog, ApplyType, data);
    var mid := ExtractAll(d, front, TypeCatalog, ApplyType, data).value;
    assert [row][1..] == [];
  }

  /** Marker attributes set their flag without reading the blobs, so they cannot fail. */
  lemma MarkerAttributesReadNothing(ctx: ExtractionContext, t: TypeAttributes, f: FieldAttributes)
    ensures ApplyType(TypeExtractor.EnumFlags, ctx, t) == Success(t.(isEnumFlags := true))
    ensures ApplyType(TypeExtractor.Typedef, ctx, t) == Success(t.(isTypedef := true))
    ensures ApplyField(FieldExtractor.AnsiEncoding, ctx, f) == Success(f.(isAnsiEncoding := true))
    ensures ApplyField(FieldExtractor.FlexibleArray, ctx, f) == Success(f.(isFlexibleArray := true))
  {
  }

  /** ConstAttribute on a field is skipped, while SupportedArchitectureAttribute on a field is not recognised. */
  lemma FieldCatalogExamples(d: Decoder, row: CustomAttributeRow)
    requires AttributeType(d, row).Success?
    ensures AttributeType(d, row).value.0 == QualifiedName(METADATA, "ConstAttribute") ==>
      Classify(d, row, FieldCatalog) == Success(None)
    ensures AttributeType(d, row).value.0 == SupportedArchitectureAttribute ==>
      Classify(d, row, FieldCatalog) == Failure(UnknownAttribute(SupportedArchitectureAttribute))
  {
  }

  /** DocumentationAttribute is extracted for types, methods and fields, but skipped for parameters. */
  lemma DocumentationOnParamSkipped(d: Decoder, row: CustomAttributeRow)
    requires AttributeType(d, row).Success? && AttributeType(d, row).value.0 == DocumentationAttribute
    ensures Classify(d, row, ParamCatalog) == Success(None)
    ensures Classify(d, row, FieldCatalog).Success? && Classify(d, row, FieldCatalog).value.Some?
    ensures Classify(d, row, FieldCatalog).value.value.0 == FieldExtractor.DocumentationUrl
  {
    FieldCatalogDisjoint();
    assert FieldCatalog.extractors[DocumentationAttribute] == FieldExtractor.DocumentationUrl;
  }

  // ---------------------------------------------------------------------------------
  // What each extractor writes

  /** SupportedArchitectureAttribute: the first argument, an integer narrowed to int, replaces the architecture. */
  lemma ArchitectureExtractor(ctx: ExtractionContext, t: TypeAttributes, m: MethodAttributes)
    ensures var v := ctx.DecodedValue();
      var ok := v.Success? && |v.value.fixedArguments| > 0 && v.value.fixedArguments[0].value.VInt?;
      && (ApplyType(TypeExtractor.SupportedArchitecture, ctx, t).Success? <==> ok)
      && (ApplyMethod(MethodExtractor.SupportedArchitecture, ctx, m).Success? <==> ok)
      && (ok ==> var arch := ToInt32(v.value.fixedArguments[0].value.v);
                 && ApplyType(TypeExtractor.SupportedArchitecture, ctx, t) == Success(t.(supportedArchitecture := arch))
                 && ApplyMethod(MethodExtractor.SupportedArchitecture, ctx, m) == Success(m.(supportedArchitecture := arch)))
  {
  }

  /** StructSizeFieldAttribute and AssociatedEnumAttribute: the first argument must be a string, and is stored. */
  lemma StringExtractors(ctx: ExtractionContext, t: TypeAttributes, p: ParamAttributes)
    ensures var v := ctx.DecodedValue();
      var ok := v.Success? && |v.value.fixedArguments| > 0 && v.value.fixedArguments[0].value.VString?;
      && (ApplyType(TypeExtractor.StructSizeField, ctx, t).Success? <==> ok)
      && (ApplyParam(ParamExtractor.AssociatedEnumType, ctx, p).Success? <==> ok)
      && (ok ==> var name := v.value.fixedArguments[0].value.text;
                 && ApplyType(TypeExtractor.StructSizeField, ctx, t) == Success(t.(structSizeField := Some(name)))
                 && ApplyParam(ParamExtractor.AssociatedEnumType, ctx, p) == Success(p.(associatedEnumType := Some(name))))
  {
  }

  /** ConstantAttribute: the first argument's decoded value is stored unchanged, whatever its kind. */
  lemma ConstantExtractor(ctx: ExtractionContext, m: MethodAttributes, f: FieldAttributes)
    ensures var v := ctx.DecodedValue();
      var ok := v.Success? && |v.value.fixedArguments| > 0;
      && (ApplyMethod(MethodExtractor.ConstantValue, ctx, m).Success? <==> ok)
      && (ApplyField(FieldExtractor.ConstantValue, ctx, f).Success? <==> ok)
      && (ok ==> var constant := v.value.fixedArguments[0].value;
                 && ApplyMethod(MethodExtractor.ConstantValue, ctx, m) == Success(m.(constantValue := Some(constant)))
                 && ApplyField(FieldExtractor.ConstantValue, ctx, f) == Success(f.(constantValue := Some(constant))))
  {
  }

  /** GuidAttribute: the GUID packed from the eleven arguments is stored; a bad argument fails the decoding. */
  lemma GuidExtractor(ctx: ExtractionContext, t: TypeAttributes, f: FieldAttributes)
    ensures var v := ctx.DecodedValue();
      var ok := v.Success? && GuidOf(v.value).Success?;
      && (ApplyType(TypeExtractor.GuidConstant, ctx, t).Success? <==> ok)
      && (ApplyField(FieldExtractor.GuidConstant, ctx, f).Success? <==> ok)
      && (ok ==> && ApplyType(TypeExtractor.GuidConstant, ctx, t) == Success(t.(guidConstant := Some(GuidOf(v.value).value)))
                 && ApplyField(FieldExtractor.GuidConstant, ctx, f) == Success(f.(guidConstant := Some(GuidOf(v.value).value))))
  {
  }

  /** DocumentationAttribute: the single-string view is stored as the documentation URL. */
  lemma DocumentationExtractor(ctx: ExtractionContext, t: TypeAttributes, m: MethodAttributes, f: FieldAttributes)
    ensures var s := ctx.DecodedLazyString();
      && (ApplyType(TypeExtractor.DocumentationUrl, ctx, t).Success? <==> s.Success?)
      && (ApplyMethod(MethodExtractor.DocumentationUrl, ctx, m).Success? <==> s.Success?)
      && (ApplyField(FieldExtractor.DocumentationUrl, ctx, f).Success? <==> s.Success?)
      && (s.Success? ==>
            && ApplyType(TypeExtractor.DocumentationUrl, ctx, t) == Success(t.(documentationUrl := Some(s.value)))
            && ApplyMethod(MethodExtractor.DocumentationUrl, ctx, m) == Success(m.(documentationUrl := Some(s.value)))
            && ApplyField(FieldExtractor.DocumentationUrl, ctx, f) == Success(f.(documentationUrl := Some(s.value))))
  {
  }

  // ---------------------------------------------------------------------------------
  // Ignored attributes

  /** A type whose attributes are all in the type ignore set keeps the default record. */
  lemma IgnoredTypeAttributesGiveDefaults(d: Decoder, typeDef: nat)
    requires var rows := d.file.CustomAttributesOf(CodedRef(TypeDefTable, typeDef));
      forall i :: 0 <= i < |rows| ==> AttributeType(d, rows[i]).Success? && AttributeType(d, rows[i]).value.0 in TypeCatalog.ignored
    ensures TypeDefAttributes(d, typeDef) == Success(DefaultTypeAttributes)
  {
    SkippedRowsChangeNothing(d, d.file.CustomAttributesOf(CodedRef(TypeDefTable, typeDef)), TypeCatalog, ApplyType, DefaultTypeAttributes);
  }

  /** DoesNotReturnAttribute and UnicodeAttribute on a method leave whatever the method data holds. */
  lemma IgnoredMethodAttributesChangeNothing(d: Decoder, row: CustomAttributeRow, data: MethodAttributes)
    requires AttributeType(d, row).Success?
    requires AttributeType(d, row).value.0 in
      {QualifiedName("System.Diagnostics.CodeAnalysis", "DoesNotReturnAttribute"), QualifiedName(METADATA, "UnicodeAttribute")}
    ensures ExtractAll(d, [row], MethodCatalog, ApplyMethod, data) == Success(data)
  {
    SkippedRowsChangeNothing(d, [row], MethodCatalog, ApplyMethod, data);
  }
}
