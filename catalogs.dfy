/**
 * The attribute catalogs: for each kind of member (TypeDef, MethodDef, Field, Param),
 * the attribute types the decoder extracts, each with the extractor it runs, and the
 * attribute types it deliberately skips. An attribute type in neither is an error.
 */
module Catalogs {
  import opened Metadata

  const SYSTEM: string := "System"
  const METADATA: string := "Windows.Win32.Foundation.Metadata"

  const FlagsAttribute := QualifiedName(SYSTEM, "FlagsAttribute")
  const AssociatedEnumAttribute := QualifiedName(METADATA, "AssociatedEnumAttribute")
  const ConstantAttribute := QualifiedName(METADATA, "ConstantAttribute")
  const DocumentationAttribute := QualifiedName(METADATA, "DocumentationAttribute")
  const FlexibleArrayAttribute := QualifiedName(METADATA, "FlexibleArrayAttribute")
  const GuidAttribute := QualifiedName(METADATA, "GuidAttribute")
  const NativeEncodingAttribute := QualifiedName(METADATA, "NativeEncodingAttribute")
  const NativeTypedefAttribute := QualifiedName(METADATA, "NativeTypedefAttribute")
  const StructSizeFieldAttribute := QualifiedName(METADATA, "StructSizeFieldAttribute")
  const SupportedArchitectureAttribute := QualifiedName(METADATA, "SupportedArchitectureAttribute")

  /** The extractors for types, named after the field of the type data each one sets. */
  datatype TypeExtractor = SupportedArchitecture | DocumentationUrl | EnumFlags | GuidConstant | Typedef | StructSizeField

  datatype MethodExtractor = SupportedArchitecture | DocumentationUrl | ConstantValue

  datatype FieldExtractor = DocumentationUrl | GuidConstant | AnsiEncoding | FlexibleArray | ConstantValue

  datatype ParamExtractor = AssociatedEnumType

  /** An extractor per attribute type, and the attribute types that are skipped. */
  datatype Catalog<K> = Catalog(extractors: map<QualifiedName, K>, ignored: set<QualifiedName>)

  const TypeCatalog: Catalog<TypeExtractor> := Catalog(
    map[
      SupportedArchitectureAttribute := TypeExtractor.SupportedArchitecture,
      DocumentationAttribute := TypeExtractor.DocumentationUrl,
      FlagsAttribute := TypeExtractor.EnumFlags,
      GuidAttribute := TypeExtractor.GuidConstant,
      NativeTypedefAttribute := TypeExtractor.Typedef,
      StructSizeFieldAttribute := TypeExtractor.StructSizeField],
    {
      QualifiedName(SYSTEM, "AttributeUsageAttribute"),
      QualifiedName(SYSTEM, "ObsoleteAttribute"),
      QualifiedName("System.Runtime.InteropServices", "ComVisibleAttribute"),
      QualifiedName("System.Runtime.InteropServices", "UnmanagedFunctionPointerAttribute"),
      QualifiedName(METADATA, "AgileAttribute"),
      QualifiedName(METADATA, "AlsoUsableForAttribute"),
      QualifiedName(METADATA, "AnsiAttribute"),
      QualifiedName(METADATA, "AssociatedConstantAttribute"),
      QualifiedName(METADATA, "InvalidHandleValueAttribute"),
      QualifiedName(METADATA, "MetadataTypedefAttribute"),
      QualifiedName(METADATA, "RAIIFreeAttribute"),
      QualifiedName(METADATA, "ScopedEnumAttribute"),
      QualifiedName(METADATA, "SupportedOSPlatformAttribute"),
      QualifiedName(METADATA, "UnicodeAttribute")
    })

  const MethodCatalog: Catalog<MethodExtractor> := Catalog(
    map[
      SupportedArchitectureAttribute := MethodExtractor.SupportedArchitecture,
      DocumentationAttribute := MethodExtractor.DocumentationUrl,
      ConstantAttribute := MethodExtractor.ConstantValue],
    {
      QualifiedName(SYSTEM, "ObsoleteAttribute"),
      QualifiedName(METADATA, "AnsiAttribute"),
      QualifiedName(METADATA, "CanReturnErrorsAsSuccessAttribute"),
      QualifiedName(METADATA, "CanReturnMultipleSuccessValuesAttribute"),
      QualifiedName(METADATA, "SupportedOSPlatformAttribute"),
      QualifiedName(METADATA, "UnicodeAttribute"),
      QualifiedName("System.Diagnostics.CodeAnalysis", "DoesNotReturnAttribute")
    })

  const FieldCatalog: Catalog<FieldExtractor> := Catalog(
    map[
      DocumentationAttribute := FieldExtractor.DocumentationUrl,
      GuidAttribute := FieldExtractor.GuidConstant,
      NativeEncodingAttribute := FieldExtractor.AnsiEncoding,
      FlexibleArrayAttribute := FieldExtractor.FlexibleArray,
      ConstantAttribute := FieldExtractor.ConstantValue],
    {
      QualifiedName(METADATA, "ConstAttribute")
    })

  const ParamCatalog: Catalog<ParamExtractor> := Catalog(
    map[
      AssociatedEnumAttribute := ParamExtractor.AssociatedEnumType],
    {
      QualifiedName(METADATA, "ComOutPtrAttribute"),
      QualifiedName(METADATA, "ConstAttribute"),
      DocumentationAttribute,
      QualifiedName(METADATA, "DoNotReleaseAttribute"),
      QualifiedName(METADATA, "FreeWithAttribute"),
      QualifiedName(METADATA, "IgnoreIfReturnAttribute"),
      QualifiedName(METADATA, "MemorySizeAttribute"),
      QualifiedName(METADATA, "NativeArrayInfoAttribute"),
      QualifiedName(METADATA, "NotNullTerminatedAttribute"),
      QualifiedName(METADATA, "NullNullTerminatedAttribute"),
      QualifiedName(METADATA, "RAIIFreeAttribute"),
      QualifiedName(METADATA, "ReservedAttribute"),
      QualifiedName(METADATA, "RetainedAttribute"),
      QualifiedName(METADATA, "RetValAttribute")
    })

  /** No attribute type is both extracted and skipped, so the order of the two tests does not matter. */
  predicate Disjoint<K>(c: Catalog<K>) {
    forall n :: n in c.extractors ==> n !in c.ignored
  }

  lemma TypeCatalogDisjoint() ensures Disjoint(TypeCatalog) { }

  lemma MethodCatalogDisjoint() ensures Disjoint(MethodCatalog) { }

  lemma FieldCatalogDisjoint() ensures Disjoint(FieldCatalog) { }

  lemma ParamCatalogDisjoint() ensures Disjoint(ParamCatalog) { }
}
