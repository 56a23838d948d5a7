/**
 * A worked example: a TypeDef carrying a GuidAttribute, a FlagsAttribute, an ignored
 * ObsoleteAttribute and a DocumentationAttribute, decoded with sample collaborators
 * that know a handful of one-byte element types and read unsigned integers
 * little-endian into the signed Java box of the same width.
 */
module Scenario {
  import opened Wrappers
  import opened Metadata
  import opened Blob
  import opened Signatures
  import opened AttributeValues
  import opened Guids
  import opened Catalogs
  import opened Records
  import opened AttributeDecoder

  const VoidType := PrimitiveType(Primitive(0x01))
  const U1Type := PrimitiveType(Primitive(0x05))
  const U2Type := PrimitiveType(Primitive(0x07))
  const U4Type := PrimitiveType(Primitive(0x09))

  /** A decodeType that knows void, the unsigned 8-, 16- and 32-bit integers and the string type. */
  function SampleDecodeType(s: seq<byte>): TypeStep {
    if |s| == 0 then TypeMalformed
    else if s[0] == 0x01 then TypeDecoded(Some(VoidType), 1)
    else if s[0] == 0x05 then TypeDecoded(Some(U1Type), 1)
    else if s[0] == 0x07 then TypeDecoded(Some(U2Type), 1)
    else if s[0] == 0x09 then TypeDecoded(Some(U4Type), 1)
    else if s[0] == 0x0E then TypeDecoded(Some(StringType), 1)
    else TypeMalformed
  }

  /** The two's complement reading of an unsigned number below m. */
  function AsSigned(v: int, m: int): int {
    if v >= m / 2 then v - m else v
  }

  /** A readPrimitiveVal for the unsigned integers: Byte, Short or Integer holding the same bits. */
  function SampleReadPrimitiveVal(s: seq<byte>, code: ElementCode): ValueStep {
    if code == 0x05 && |s| >= 1 then ValueDecoded(VInt(AsSigned(s[0] as int, 0x100), 8), 1)
    else if code == 0x07 && |s| >= 2 then
      ValueDecoded(VInt(AsSigned(s[0] as int + 0x100 * s[1] as int, 0x1_0000), 16), 2)
    else if code == 0x09 && |s| >= 4 then
      ValueDecoded(VInt(AsSigned(s[0] as int + 0x100 * s[1] as int + 0x1_0000 * s[2] as int
                                 + 0x100_0000 * s[3] as int, 0x1_0000_0000), 32), 4)
    else ValueMalformed
  }

  const Sample := Collaborators(SampleDecodeType, SampleReadPrimitiveVal)

  /** GuidAttribute(uint, ushort, ushort, byte x 8), an instance method returning void. */
  const GuidParamEncodings: seq<seq<byte>> :=
    [[0x09], [0x07], [0x07], [0x05], [0x05], [0x05], [0x05], [0x05], [0x05], [0x05], [0x05]]
  const GuidParams: seq<Type> := [U4Type, U2Type, U2Type, U1Type, U1Type, U1Type, U1Type, U1Type, U1Type, U1Type, U1Type]
  const GuidSignature: seq<byte> := [0x20, 11, 0x01, 0x09, 0x07, 0x07, 0x05, 0x05, 0x05, 0x05, 0x05, 0x05, 0x05, 0x05]
  const GuidArgumentEncodings: seq<seq<byte>> :=
    [[0xDD, 0xCC, 0xBB, 0xAA], [0x22, 0x11], [0x44, 0x33], [0], [1], [2], [3], [4], [5], [6], [7]]
  const GuidValues: seq<Value> := ExampleGuidValues
  /** The prolog, the eleven arguments in the order and width of the parameters, no named arguments. */
  const GuidArgumentData: seq<byte> := [0xDD, 0xCC, 0xBB, 0xAA] + [0x22, 0x11] + [0x44, 0x33] + [0, 1, 2, 3, 4, 5, 6, 7]
  const GuidBlob: seq<byte> := [1, 0] + GuidArgumentData + [0, 0]

  /** FlagsAttribute() and ObsoleteAttribute(): no parameters. */
  const NoArgumentSignature: seq<byte> := [0x20, 0, 0x01]
  const NoArgumentBlob: seq<byte> := [1, 0, 0, 0]

  /** DocumentationAttribute(string), with the three-byte text "doc". */
  const DocSignature: seq<byte> := [0x20, 1, 0x01, 0x0E]
  const DocText: seq<byte> := [0x64, 0x6F, 0x63]
  const DocBlob: seq<byte> := [1, 0, 3, 0x64, 0x6F, 0x63, 0, 0]

  const TypeDefOne := CodedRef(TypeDefTable, 1)

  const GuidRow := CustomAttributeRow(TypeDefOne, CodedRef(MemberRefTable, 1), GuidBlob)
  const OtherTypeRow := CustomAttributeRow(CodedRef(TypeDefTable, 2), CodedRef(MemberRefTable, 3), NoArgumentBlob)
  const FlagsRow := CustomAttributeRow(TypeDefOne, CodedRef(MemberRefTable, 2), NoArgumentBlob)
  const ObsoleteRow := CustomAttributeRow(TypeDefOne, CodedRef(MemberRefTable, 3), NoArgumentBlob)
  const DocRow := CustomAttributeRow(TypeDefOne, CodedRef(MemberRefTable, 4), DocBlob)

  const SampleFile := MetadataFile(
    [GuidRow, OtherTypeRow, FlagsRow, ObsoleteRow, DocRow],
    [MemberRefRow(CodedRef(TypeRefTable, 1), GuidSignature),
     MemberRefRow(CodedRef(TypeRefTable, 2), NoArgumentSignature),
     MemberRefRow(CodedRef(TypeRefTable, 3), NoArgumentSignature),
     MemberRefRow(CodedRef(TypeRefTable, 4), DocSignature)],
    [TypeRefRow(METADATA, "GuidAttribute"),
     TypeRefRow(SYSTEM, "FlagsAttribute"),
     TypeRefRow(SYSTEM, "ObsoleteAttribute"),
     TypeRefRow(METADATA, "DocumentationAttribute")])

  const SampleDecoder := Decoder(SampleFile, Sample)

  lemma ConcatStep(encs: seq<seq<byte>>, i: nat)
    requires i < |encs|
    ensures Concat(encs[i..]) == encs[i] + Concat(encs[i + 1..])
  {
    assert encs[i..][1..] == encs[i + 1..];
  }

  /** Concatenating one-byte encodings from i on yields those bytes. */
  lemma {:induction false} ConcatSingletons(encs: seq<seq<byte>>, i: nat)
    requires i <= |encs| && forall j :: i <= j < |encs| ==> |encs[j]| == 1
    ensures Concat(encs[i..]) == seq(|encs| - i, j requires 0 <= j < |encs| - i => encs[i + j][0])
    decreases |encs| - i
  {
    if i < |encs| {
      ConcatStep(encs, i);
      ConcatSingletons(encs, i + 1);
    }
  }


  lemma SampleTypeEncodings()
    ensures DecodesTo(Sample, [0x01], Some(VoidType))
    ensures DecodesTo(Sample, [0x05], Some(U1Type))
    ensures DecodesTo(Sample, [0x07], Some(U2Type))
    ensures DecodesTo(Sample, [0x09], Some(U4Type))
    ensures DecodesTo(Sample, [0x0E], Some(StringType))
  {
    forall rest: seq<byte> ensures Sample.decodeType([0x01] + rest) == TypeDecoded(Some(VoidType), 1) {
      assert ([0x01] + rest)[0] == 0x01;
    }
    forall rest: seq<byte> ensures Sample.decodeType([0x05] + rest) == TypeDecoded(Some(U1Type), 1) {
      assert ([0x05] + rest)[0] == 0x05;
    }
    forall rest: seq<byte> ensures Sample.decodeType([0x07] + rest) == TypeDecoded(Some(U2Type), 1) {
      assert ([0x07] + rest)[0] == 0x07;
    }
    forall rest: seq<byte> ensures Sample.decodeType([0x09] + rest) == TypeDecoded(Some(U4Type), 1) {
      assert ([0x09] + rest)[0] == 0x09;
    }
    forall rest: seq<byte> ensures Sample.decodeType([0x0E] + rest) == TypeDecoded(Some(StringType), 1) {
      assert ([0x0E] + rest)[0] == 0x0E;
    }
  }

  lemma GuidParamsDecode()
    ensures forall i :: 0 <= i < |GuidParams| ==> DecodesTo(Sample, GuidParamEncodings[i], Some(GuidParams[i]))
  {
    SampleTypeEncodings();
    forall i | 0 <= i < |GuidParams| ensures DecodesTo(Sample, GuidParamEncodings[i], Some(GuidParams[i])) {
      if i == 0 {
      } else if i < 3 {
        assert GuidParamEncodings[i] == [0x07] && GuidParams[i] == U2Type;
      } else {
        assert GuidParamEncodings[i] == [0x05] && GuidParams[i] == U1Type;
      }
    }
  }

  lemma GuidByteParams()
    ensures Concat(GuidParamEncodings[3..]) == [0x05, 0x05, 0x05, 0x05, 0x05, 0x05, 0x05, 0x05]
  {
    var e := GuidParamEncodings;
    ConcatSingletons(e, 3);
    var tail := Concat(e[3..]);
    assert |tail| == 8;
    forall j | 0 <= j < 8 ensures tail[j] == 0x05 {
      assert tail[j] == e[3 + j][0];
    }
  }

  lemma GuidParamBytes()
    ensures Concat(GuidParamEncodings) == [0x09] + [0x07] + [0x07] + [0x05, 0x05, 0x05, 0x05, 0x05, 0x05, 0x05, 0x05]
  {
    var e := GuidParamEncodings;
    GuidByteParams();
    ConcatStep(e, 2);
    ConcatStep(e, 1);
    ConcatStep(e, 0);
  }

  lemma GuidSignatureEncoding()
    ensures EncodeSignature(0x20, [0x01], GuidParamEncodings) == GuidSignature
  {
    GuidParamBytes();
    assert EncodeCompressedUnsignedInt(11) == [11];
    var sig := EncodeSignature(0x20, [0x01], GuidParamEncodings);
    assert |sig| == 14;
    forall j | 0 <= j < 14 ensures sig[j] == GuidSignature[j] {
    }
  }

  lemma GuidSignatureDecodes()
    ensures SignatureOf(Sample, GuidSignature) == Success(MethodSignature(Some(VoidType), GuidParams))
  {
    SampleTypeEncodings();
    GuidParamsDecode();
    GuidSignatureEncoding();
    SignatureRoundTrip(Sample, 0x20, [0x01], Some(VoidType), GuidParamEncodings, GuidParams);
  }

  lemma ByteArgumentEncoding(b: byte)
    requires b < 0x80
    ensures ElementDecodesTo(Sample, 0x05, [b], VInt(b as int, 8))
  {
    forall rest: seq<byte> ensures Sample.readPrimitiveVal([b] + rest, 0x05) == ValueDecoded(VInt(b as int, 8), 1) {
      assert ([b] + rest)[0] == b;
    }
  }

  lemma GuidArgumentsEncode()
    ensures forall i :: 0 <= i < |GuidArgumentEncodings| ==>
      EncodesArgument(Sample, GuidParams[i], GuidArgumentEncodings[i], GuidValues[i])
  {
    forall rest: seq<byte>
      ensures Sample.readPrimitiveVal([0xDD, 0xCC, 0xBB, 0xAA] + rest, 0x09) == ValueDecoded(VInt(-0x5544_3323, 32), 4)
    {
      var s := [0xDD, 0xCC, 0xBB, 0xAA] + rest;
      assert s[0] == 0xDD && s[1] == 0xCC && s[2] == 0xBB && s[3] == 0xAA;
    }
    forall rest: seq<byte> ensures Sample.readPrimitiveVal([0x22, 0x11] + rest, 0x07) == ValueDecoded(VInt(0x1122, 16), 2) {
      var s := [0x22, 0x11] + rest;
      assert s[0] == 0x22 && s[1] == 0x11;
    }
    forall rest: seq<byte> ensures Sample.readPrimitiveVal([0x44, 0x33] + rest, 0x07) == ValueDecoded(VInt(0x3344, 16), 2) {
      var s := [0x44, 0x33] + rest;
      assert s[0] == 0x44 && s[1] == 0x33;
    }
    forall i | 0 <= i < |GuidArgumentEncodings|
      ensures EncodesArgument(Sample, GuidParams[i], GuidArgumentEncodings[i], GuidValues[i])
    {
      if i >= 3 {
        var b := (i - 3) as byte;
        assert GuidArgumentEncodings[i] == [b] && GuidValues[i] == VInt(b as int, 8) && GuidParams[i] == U1Type;
        ByteArgumentEncoding(b);
      }
    }
  }

  lemma GuidByteArguments()
    ensures Concat(GuidArgumentEncodings[3..]) == [0, 1, 2, 3, 4, 5, 6, 7]
  {
    var e := GuidArgumentEncodings;
    ConcatSingletons(e, 3);
    var tail := Concat(e[3..]);
    assert |tail| == 8;
    forall j | 0 <= j < 8 ensures tail[j] == j as byte {
      assert tail[j] == e[3 + j][0];
    }
  }

  lemma GuidArgumentBytes()
    ensures Concat(GuidArgumentEncodings) == GuidArgumentData
  {
    var e := GuidArgumentEncodings;
    GuidByteArguments();
    ConcatStep(e, 2);
    ConcatStep(e, 1);
    ConcatStep(e, 0);
  }

  lemma GuidBlobEncoding()
    ensures EncodeValueBlob(GuidArgumentEncodings) == GuidBlob
  {
    GuidArgumentBytes();
  }

  lemma GuidValueDecodes()
    ensures CustomAttributeValueOf(Sample, MethodSignature(Some(VoidType), GuidParams), GuidBlob)
            == Success(CustomAttributeValue(Arguments(GuidParams, GuidValues)))
  {
    GuidArgumentsEncode();
    GuidBlobEncoding();
    EncodedValueDecodes(Sample, MethodSignature(Some(VoidType), GuidParams), GuidArgumentEncodings, GuidValues);
  }

  /** The DocumentationAttribute row reads as a view of the three bytes of its text. */
  lemma DocStringDecodes()
    ensures LazyStringOf(Sample, DocSignature, DocBlob) == Success(LazyString(DocBlob, 3, 3))
    ensures ViewBytes(LazyString(DocBlob, 3, 3)) == DocText
  {
    SampleTypeEncodings();
    assert EncodeCompressedUnsignedInt(1) == [1];
    assert Concat([[0x0E]]) == [0x0E];
    assert EncodeSignature(0x20, [0x01], [[0x0E]]) == DocSignature;
    SignatureRoundTrip(Sample, 0x20, [0x01], Some(VoidType), [[0x0E]], [StringType]);
    SingleStringRoundTrip(Sample, DocSignature, Some(VoidType), DocText);
    assert EncodeCompressedUnsignedInt(3) == [3];
    assert [1, 0] + [3] + DocText + [0, 0] == DocBlob;
  }

  lemma AttachedOne(e: CustomAttributeRow, p: CodedRef)
    requires e.parent == p
    ensures Attached([e], p) == [e]
  {
    assert [e][1..] == [];
  }

  lemma AttachedTwo(d: CustomAttributeRow, e: CustomAttributeRow, p: CodedRef)
    requires d.parent == p && e.parent == p
    ensures Attached([d, e], p) == [d, e]
  {
    AttachedOne(e, p);
    assert [d, e][1..] == [e];
  }

  lemma AttachedThree(c: CustomAttributeRow, d: CustomAttributeRow, e: CustomAttributeRow, p: CodedRef)
    requires c.parent == p && d.parent == p && e.parent == p
    ensures Attached([c, d, e], p) == [c, d, e]
  {
    AttachedTwo(d, e, p);
    assert [c, d, e][1..] == [d, e];
  }

  lemma AttachedSkipFirst(b: CustomAttributeRow, c: CustomAttributeRow, d: CustomAttributeRow, e: CustomAttributeRow, p: CodedRef)
    requires b.parent != p && c.parent == p && d.parent == p && e.parent == p
    ensures Attached([b, c, d, e], p) == [c, d, e]
  {
    AttachedThree(c, d, e, p);
    assert [b, c, d, e][1..] == [c, d, e];
  }

  /** Five rows of which the second belongs to another parent. */
  lemma AttachedAllButSecond(a: CustomAttributeRow, b: CustomAttributeRow, c: CustomAttributeRow,
                             d: CustomAttributeRow, e: CustomAttributeRow, p: CodedRef)
    requires a.parent == p && b.parent != p && c.parent == p && d.parent == p && e.parent == p
    ensures Attached([a, b, c, d, e], p) == [a, c, d, e]
  {
    AttachedSkipFirst(b, c, d, e, p);
    assert [a, b, c, d, e][1..] == [b, c, d, e];
  }

  /** The CustomAttribute rows of the first TypeDef: all but the one attached to the second. */
  lemma SampleRows()
    ensures SampleFile.CustomAttributesOf(TypeDefOne) == [GuidRow, FlagsRow, ObsoleteRow, DocRow]
  {
    AttachedAllButSecond(GuidRow, OtherTypeRow, FlagsRow, ObsoleteRow, DocRow, TypeDefOne);
  }

  const AfterGuid := DefaultTypeAttributes.(guidConstant := Some(Guid(0xAABB_CCDD_1122_3344, 0x0001_0203_0405_0607)))
  const AfterFlags := AfterGuid.(isEnumFlags := true)
  const AfterDoc := AfterFlags.(documentationUrl := Some(LazyString(DocBlob, 3, 3)))

  /** The GuidAttribute row's value, decoded against its constructor, denotes the sample GUID. */
  lemma GuidValueOf()
    ensures var value := ValueOf(Sample, GuidSignature, GuidBlob);
      value.Success? && GuidOf(value.value) == Success(Guid(0xAABB_CCDD_1122_3344, 0x0001_0203_0405_0607))
  {
    GuidSignatureDecodes();
    GuidValueDecodes();
    ArgumentsAt(GuidParams, GuidValues);
    GuidExample(CustomAttributeValue(Arguments(GuidParams, GuidValues)));
  }

  const GuidContext := ExtractionContext(SampleDecoder, GuidRow, SampleFile.memberRefs[0])

  lemma GuidRowClassified()
    ensures Classify(SampleDecoder, GuidRow, TypeCatalog) == Success(Some((TypeExtractor.GuidConstant, GuidContext)))
  {
    assert AttributeType(SampleDecoder, GuidRow) == Success((GuidAttribute, SampleFile.memberRefs[0]));
    assert GuidAttribute in TypeCatalog.extractors && GuidAttribute !in TypeCatalog.ignored;
  }

  lemma GuidRowApplies()
    ensures Classify(SampleDecoder, GuidRow, TypeCatalog) == Success(Some((TypeExtractor.GuidConstant, GuidContext)))
    ensures ApplyType(TypeExtractor.GuidConstant, GuidContext, DefaultTypeAttributes) == Success(AfterGuid)
  {
    GuidRowClassified();
    assert GuidContext.DecodedValue() == ValueOf(Sample, GuidSignature, GuidBlob);
    GuidValueOf();
    GuidConstantApplies(GuidContext, DefaultTypeAttributes, Guid(0xAABB_CCDD_1122_3344, 0x0001_0203_0405_0607));
  }

  lemma GuidConstantApplies(ctx: ExtractionContext, data: TypeAttributes, g: Guid)
    requires ctx.DecodedValue().Success? && GuidOf(ctx.DecodedValue().value) == Success(g)
    ensures ApplyType(TypeExtractor.GuidConstant, ctx, data) == Success(data.(guidConstant := Some(g)))
  {
  }

  lemma FlagsRowApplies()
    ensures var row := FlagsRow;
      Classify(SampleDecoder, row, TypeCatalog)
        == Success(Some((TypeExtractor.EnumFlags, ExtractionContext(SampleDecoder, row, SampleFile.memberRefs[1]))))
  {
    assert AttributeType(SampleDecoder, FlagsRow) == Success((FlagsAttribute, SampleFile.memberRefs[1]));
    TypeCatalogDisjoint();
  }

  lemma ObsoleteRowSkipped()
    ensures Classify(SampleDecoder, ObsoleteRow, TypeCatalog) == Success(None)
  {
    assert AttributeType(SampleDecoder, ObsoleteRow)
      == Success((QualifiedName(SYSTEM, "ObsoleteAttribute"), SampleFile.memberRefs[2]));
  }

  lemma DocRowApplies()
    ensures var row := DocRow;
      var ctx := ExtractionContext(SampleDecoder, row, SampleFile.memberRefs[3]);
      && Classify(SampleDecoder, row, TypeCatalog) == Success(Some((TypeExtractor.DocumentationUrl, ctx)))
      && ApplyType(TypeExtractor.DocumentationUrl, ctx, AfterFlags) == Success(AfterDoc)
  {
    assert AttributeType(SampleDecoder, DocRow) == Success((DocumentationAttribute, SampleFile.memberRefs[3]));
    TypeCatalogDisjoint();
    DocStringDecodes();
  }

  lemma LastRowsExtracted()
    ensures ExtractAll(SampleDecoder, [ObsoleteRow, DocRow], TypeCatalog, ApplyType, AfterFlags) == Success(AfterDoc)
  {
    DocRowApplies();
    ObsoleteRowSkipped();
    assert ExtractAll(SampleDecoder, [DocRow], TypeCatalog, ApplyType, AfterFlags) == Success(AfterDoc) by {
      assert [DocRow][1..] == [];
    }
    assert [ObsoleteRow, DocRow][1..] == [DocRow];
  }

  lemma FlagsRowsExtracted()
    ensures ExtractAll(SampleDecoder, [FlagsRow, ObsoleteRow, DocRow], TypeCatalog, ApplyType, AfterGuid) == Success(AfterDoc)
  {
    LastRowsExtracted();
    FlagsRowApplies();
    assert [FlagsRow, ObsoleteRow, DocRow][1..] == [ObsoleteRow, DocRow];
  }

  lemma AllRowsExtracted()
    ensures ExtractAll(SampleDecoder, [GuidRow, FlagsRow, ObsoleteRow, DocRow], TypeCatalog, ApplyType, DefaultTypeAttributes)
            == Success(AfterDoc)
  {
    FlagsRowsExtracted();
    GuidRowApplies();
    assert [GuidRow, FlagsRow, ObsoleteRow, DocRow][1..] == [FlagsRow, ObsoleteRow, DocRow];
  }

  /**
   * The type's record: the GUID {AABBCCDD-1122-3344-0001-020304050607}, the flags bit, a
   * documentation view of the text "doc" (DocStringDecodes), and every other field at its default. The
   * attribute attached to the second TypeDef and the ignored ObsoleteAttribute leave no trace.
   */
  lemma SampleTypeDefAttributes()
    ensures TypeDefAttributes(SampleDecoder, 1) == Success(DefaultTypeAttributes.(
      isEnumFlags := true,
      documentationUrl := Some(LazyString(DocBlob, 3, 3)),
      guidConstant := Some(Guid(0xAABB_CCDD_1122_3344, 0x0001_0203_0405_0607))))
  {
    SampleRows();
    AllRowsExtracted();
    assert SampleDecoder.file.CustomAttributesOf(CodedRef(TypeDefTable, 1)) == [GuidRow, FlagsRow, ObsoleteRow, DocRow];
  }
}
