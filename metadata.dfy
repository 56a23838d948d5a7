/**
 * The entities the custom-attribute decoder works on: bytes, qualified names, types,
 * decoded argument values, the rows of the metadata tables it reads, and the errors
 * it raises. The metadata file itself is represented by its already-parsed rows.
 */
module Metadata {
  import opened Wrappers

  newtype byte = b: int | 0 <= b < 0x100

  /** A namespace and a type name; equality is by content. */
  datatype QualifiedName = QualifiedName(namespace: string, name: string)

  /** An ECMA-335 element type code (ELEMENT_TYPE_*, section II.23.1.16). */
  type ElementCode = byte

  const ELEMENT_TYPE_STRING: ElementCode := 0x0E

  /** A primitive type is identified by its element code. */
  datatype Primitive = Primitive(elementType: ElementCode)

  /** The closed variant of types a signature can declare. */
  datatype Type =
    | PrimitiveType(primitive: Primitive)
    | EnumType(name: QualifiedName, baseType: Primitive)
    | ArrayType(elementType: Type)
    | OtherType(name: QualifiedName)   // struct, interface, delegate, ...

  /** The canonical string type; the type lookup memoizes primitives, so equality is by value. */
  const StringType: Type := PrimitiveType(Primitive(ELEMENT_TYPE_STRING))

  /** TypeLookup.getElementType for a primitive. */
  function ElementTypeOf(p: Primitive): ElementCode {
    p.elementType
  }

  /**
   * A decoded element value, one variant per boxed Java type readPrimitiveVal can return.
   * `VInt` carries the signed value and the width of its box (8 Byte, 16 Short, 32 Integer,
   * 64 Long); floating-point values are not modelled beyond their width.
   */
  datatype Value =
    | VBool(b: bool)
    | VChar(code: nat)
    | VInt(v: int, bits: nat)
    | VFloat(bits: nat)
    | VString(text: string)

  /** A zero-copy view of `length` bytes at `offset` in `data`. */
  datatype LazyString = LazyString(data: seq<byte>, offset: nat, length: nat)

  /** One fixed argument: its declared type, its name (always null for fixed arguments) and its value. */
  datatype ArgumentValue = ArgumentValue(declaredType: Type, name: Option<string>, value: Value)

  datatype CustomAttributeValue = CustomAttributeValue(fixedArguments: seq<ArgumentValue>)

  /** A decoded MethodRef signature; the return type is null when decodeType yields nothing. */
  datatype MethodSignature = MethodSignature(returnType: Option<Type>, paramTypes: seq<Type>)

  /**
   * A 128-bit GUID as its two 64-bit halves (java.util.UUID), each read as an
   * unsigned number below 2^64 (the long it is stored in holds the same bits).
   */
  datatype Guid = Guid(mostSigBits: nat, leastSigBits: nat)

  datatype Error =
    | EndOfBlob(offset: nat)               // a read ran past the end of a blob
    | BadCompressedInteger(offset: nat)    // a compressed integer whose first byte is 111xxxxx
    | MalformedType(offset: nat)           // decodeType rejected the bytes
    | MalformedElement(offset: nat)        // readPrimitiveVal rejected the bytes
    | VarArgSignature(index: nat)          // parameter `index` decoded to null
    | SignatureTrailingBytes(offset: nat)  // the signature blob is not fully consumed
    | BadProlog(prolog: nat)
    | ArrayArgument(index: nat)
    | UnsupportedElementType(index: nat)
    | NamedArguments(count: nat)
    | TrailingBytes(offset: nat)
    | NotSingleString
    | MissingArgument(index: nat)          // fixedArguments[index] does not exist
    | WrongArgumentKind(index: nat)        // a cast of fixedArguments[index] fails
    | FloatNotModelled
    | ConstructorNotMemberRef
    | NullConstructor
    | ParentNotTypeRef
    | NullParent
    | RowOutOfRange(index: nat)
    | UnknownAttribute(name: QualifiedName)

  type Decoded<T> = Result<T, Error>

  /** What decodeType makes of the unread bytes: a type (null for a vararg sentinel) and how many bytes it read. */
  datatype TypeStep = TypeDecoded(t: Option<Type>, width: nat) | TypeMalformed

  /** What readPrimitiveVal makes of the unread bytes for an element code. */
  datatype ValueStep = ValueDecoded(v: Value, width: nat) | ValueMalformed

  /**
   * The decoding routines of the surrounding decoder that are not part of this model.
   * Each is applied to the unread part of a blob only, so it cannot look back.
   */
  datatype Collaborators = Collaborators(
    decodeType: seq<byte> -> TypeStep,
    readPrimitiveVal: (seq<byte>, ElementCode) -> ValueStep)

  /** The metadata tables a HasCustomAttribute or MemberRefParent coded index can point into. */
  datatype Table = TypeDefTable | TypeRefTable | MethodDefTable | FieldTable | ParamTable | MemberRefTable | OtherTable(id: nat)

  /** A decoded coded index: a table and a 1-based row number, 0 being the null reference. */
  datatype CodedRef = CodedRef(table: Table, index: nat)

  /** A CustomAttribute row (ECMA-335 section II.22.10) with its value blob resolved. */
  datatype CustomAttributeRow = CustomAttributeRow(parent: CodedRef, constructorIndex: CodedRef, value: seq<byte>)

  /** A MemberRef row with its signature blob resolved. */
  datatype MemberRefRow = MemberRefRow(parent: CodedRef, signature: seq<byte>)

  /** A TypeRef row with its two strings resolved. */
  datatype TypeRefRow = TypeRefRow(typeNamespace: string, typeName: string)

  /** The parts of a metadata file the decoder reads, with heaps already resolved. */
  datatype MetadataFile = MetadataFile(
    customAttributes: seq<CustomAttributeRow>,
    memberRefs: seq<MemberRefRow>,
    typeRefs: seq<TypeRefRow>)
  {
    /** The CustomAttribute rows attached to `parent`, in row order. */
    function CustomAttributesOf(parent: CodedRef): (rows: seq<CustomAttributeRow>)
      ensures forall i :: 0 <= i < |rows| ==> rows[i].parent == parent
      ensures forall r :: r in customAttributes && r.parent == parent ==> r in rows
    {
      Attached(customAttributes, parent)
    }

    function GetMemberRef(index: nat): (r: Decoded<MemberRefRow>)
      requires index != 0
      ensures r.Success? <==> index <= |memberRefs|
      ensures r.Success? ==> r.value == memberRefs[index - 1]
    {
      if index <= |memberRefs| then Success(memberRefs[index - 1]) else Failure(RowOutOfRange(index))
    }

    function GetTypeRef(index: nat): (r: Decoded<TypeRefRow>)
      requires index != 0
      ensures r.Success? <==> index <= |typeRefs|
      ensures r.Success? ==> r.value == typeRefs[index - 1]
    {
      if index <= |typeRefs| then Success(typeRefs[index - 1]) else Failure(RowOutOfRange(index))
    }
  }

  function Attached(rows: seq<CustomAttributeRow>, parent: CodedRef): (r: seq<CustomAttributeRow>)
    ensures forall i :: 0 <= i < |r| ==> r[i].parent == parent
    ensures forall x :: x in rows && x.parent == parent ==> x in r
  {
    if rows == [] then []
    else (if rows[0].parent == parent then [rows[0]] else []) + Attached(rows[1..], parent)
  }

  /** Filtering a concatenation filters each part, so the rows keep their table order. */
  lemma {:induction false} AttachedAppend(a: seq<CustomAttributeRow>, b: seq<CustomAttributeRow>, parent: CodedRef)
    ensures Attached(a + b, parent) == Attached(a, parent) + Attached(b, parent)
    decreases |a|
  {
    if a == [] {
      assert a + b == b;
    } else {
      assert (a + b)[0] == a[0] && (a + b)[1..] == a[1..] + b;
      AttachedAppend(a[1..], b, parent);
    }
  }

  /** A single row is kept exactly when it is attached to the parent. */
  lemma AttachedSingleton(x: CustomAttributeRow, parent: CodedRef)
    ensures Attached([x], parent) == if x.parent == parent then [x] else []
  {
    assert [x][1..] == [];
  }

  /** A row occurs in the result as often as in the table when it is attached to the parent, and not at all otherwise. */
  lemma {:induction false} AttachedCount(rows: seq<CustomAttributeRow>, parent: CodedRef, x: CustomAttributeRow)
    ensures multiset(Attached(rows, parent))[x] == if x.parent == parent then multiset(rows)[x] else 0
  {
    if rows != [] {
      var head := if rows[0].parent == parent then [rows[0]] else [];
      var tail := rows[1..];
      AttachedCount(tail, parent, x);
      assert Attached(rows, parent) == head + Attached(tail, parent);
      assert multiset(Attached(rows, parent)) == multiset(head) + multiset(Attached(tail, parent));
      assert rows == [rows[0]] + tail;
      assert multiset(rows) == multiset([rows[0]]) + multiset(tail);
    }
  }

  /** The result holds only rows of the table, and no more of them than the table has. */
  lemma {:induction false} AttachedFromRows(rows: seq<CustomAttributeRow>, parent: CodedRef)
    ensures |Attached(rows, parent)| <= |rows|
    ensures forall x :: x in Attached(rows, parent) ==> x in rows
  {
    if rows != [] {
      AttachedFromRows(rows[1..], parent);
    }
    forall x | x in Attached(rows, parent) ensures x in rows {
      AttachedCount(rows, parent, x);
      assert multiset(Attached(rows, parent))[x] > 0;
    }
  }

  /** The decoder's own state: the metadata file and its collaborators. */
  datatype Decoder = Decoder(file: MetadataFile, collaborators: Collaborators)
}
