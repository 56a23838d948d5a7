/**
 * The custom attribute data a member accumulates: one class per kind of member, whose
 * fields start at their defaults and are overwritten by the extractors, and one
 * datatype per class holding the same fields as a value, against which the
 * extractors and the decoding loops are specified.
 */
module Records {
  import opened Wrappers
  import opened Metadata

  /**
   * Architecture.ALL, every processor architecture (X86 = 1, X64 = 2, Arm64 = 4).
   * Architecture.java is not part of this model; the value follows the
   * SupportedArchitectureAttribute enumeration of the Win32 metadata.
   */
  const ArchitectureAll: int := 7

  datatype TypeAttributes = TypeAttributes(
    supportedArchitecture: int,
    documentationUrl: Option<LazyString>,
    isTypedef: bool,
    isEnumFlags: bool,
    structSizeField: Option<string>,
    guidConstant: Option<Guid>)

  const DefaultTypeAttributes := TypeAttributes(ArchitectureAll, None, false, false, None, None)

  datatype MethodAttributes = MethodAttributes(
    supportedArchitecture: int,
    documentationUrl: Option<LazyString>,
    constantValue: Option<Value>)

  const DefaultMethodAttributes := MethodAttributes(ArchitectureAll, None, None)

  datatype FieldAttributes = FieldAttributes(
    supportedArchitecture: int,
    documentationUrl: Option<LazyString>,
    guidConstant: Option<Guid>,
    isAnsiEncoding: bool,
    isFlexibleArray: bool,
    constantValue: Option<Value>)

  const DefaultFieldAttributes := FieldAttributes(ArchitectureAll, None, None, false, false, None)

  datatype ParamAttributes = ParamAttributes(associatedEnumType: Option<string>)

  const DefaultParamAttributes := ParamAttributes(None)

  /** Custom attribute data for types. */
  class TypeCustomAttributeData {
    var supportedArchitecture: int
    var documentationUrl: Option<LazyString>
    var isTypedef: bool
    var isEnumFlags: bool
    var structSizeField: Option<string>
    var guidConstant: Option<Guid>

    constructor ()
      ensures Snapshot() == DefaultTypeAttributes
    {
      supportedArchitecture := ArchitectureAll;
      documentationUrl := None;
      isTypedef := false;
      isEnumFlags := false;
      structSizeField := None;
      guidConstant := None;
    }

    function Snapshot(): TypeAttributes
      reads this
    {
      TypeAttributes(supportedArchitecture, documentationUrl, isTypedef, isEnumFlags, structSizeField, guidConstant)
    }
  }

  /** Custom attribute data for methods. */
  class MethodCustomAttributeData {
    var supportedArchitecture: int
    var documentationUrl: Option<LazyString>
    var constantValue: Option<Value>

    constructor ()
      ensures Snapshot() == DefaultMethodAttributes
    {
      supportedArchitecture := ArchitectureAll;
      documentationUrl := None;
      constantValue := None;
    }

    function Snapshot(): MethodAttributes
      reads this
    {
      MethodAttributes(supportedArchitecture, documentationUrl, constantValue)
    }
  }

  /** Custom attribute data for fields. */
  class FieldCustomAttributeData {
    var supportedArchitecture: int
    var documentationUrl: Option<LazyString>
    var guidConstant: Option<Guid>
    var isAnsiEncoding: bool
    var isFlexibleArray: bool
    var constantValue: Option<Value>

    constructor ()
      ensures Snapshot() == DefaultFieldAttributes
    {
      supportedArchitecture := ArchitectureAll;
      documentationUrl := None;
      guidConstant := None;
      isAnsiEncoding := false;
      isFlexibleArray := false;
      constantValue := None;
    }

    function Snapshot(): FieldAttributes
      reads this
    {
      FieldAttributes(supportedArchitecture, documentationUrl, guidConstant, isAnsiEncoding, isFlexibleArray, constantValue)
    }
  }

  /** Custom attribute data for parameters, reduced to the one field the decoder sets. */
  class ParamCustomAttributeData {
    var associatedEnumType: Option<string>

    constructor ()
      ensures Snapshot() == DefaultParamAttributes
    {
      associatedEnumType := None;
    }

    function Snapshot(): ParamAttributes
      reads this
    {
      ParamAttributes(associatedEnumType)
    }
  }
}
