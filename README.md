# Custom attribute decoder of the Windows API code generator

A Dafny model of `CustomAttributeDecoder`, the part of the Windows API code generator
that reads the custom attributes attached to types, methods, fields and parameters in
a Windows metadata (.winmd) file and collects them into a per-member record:
supported architectures, documentation URL, GUID, constant value, flags, typedef
marker, struct-size field, ANSI encoding, flexible array and associated enum.

For each CustomAttribute row attached to a member, the decoder resolves the row's
constructor: a MemberRef whose parent is a TypeRef. The namespace and name of that
TypeRef are the attribute type. The member kind has a catalog, and the type is looked
up in it:

- a type in the catalog's ignore set is skipped;
- a type with a registered extractor is handed to that extractor;
- any other type makes the decoding fail.

Extractors read the attribute's value blob in one of two ways:

- decoded against the constructor's MethodRef signature (sections II.23.2.2 and
  II.23.3 of ECMA-335): a prolog of 1, one element per fixed parameter, and a zero
  named-argument count at the end;
- as a single-string view (`LazyString`), which is not copied.

**Modules**

- `Wrappers` holds `Option` and `Result`.
- `Metadata` holds the data model: types, values, errors, and metadata rows with
  their heaps resolved.
- `Blob` holds sequential blob reads and compressed integers.
- `Signatures` decodes MethodRef signatures.
- `AttributeValues` holds value blobs, `readElem` and the single-string view.
- `Guids` holds `createGuidConstant`.
- `Catalogs` holds the four extractor maps and ignore sets.
- `Records` holds the four record classes.
- `AttributeDecoder` holds the extractors, the loop over rows, and the four
  `get…Attributes` operations.
- `Scenario` is a worked example: it decodes a TypeDef with four attributes.

**How the model works**

- Every operation that loops or updates a record in place is a method. Each method is
  proved equal to a specification function. The properties are proved about those
  functions.
- Three kinds of failure become `Failure` values with a distinguishing `Error`:
  - the `assert` statements of the Java code, taken as enabled;
  - the runtime exceptions the code relies on: `ClassCastException`,
    `ArrayIndexOutOfBoundsException` and `IllegalArgumentException`;
  - a read past the end of a blob.
- The decoder's two collaborators, `decodeType` and `readPrimitiveVal`, belong to
  the surrounding decoder, which is not part of this model. They are parameters
  (`Metadata.Collaborators`), applied only to the unread rest of a blob. Each returns
  what it decoded and how many bytes it read.

## Model

| member | source | states |
|---|---|---|
| Blob.ReadByte | windowsapi-code-generator/src/main/java/net/codecrete/windowsapi/winmd/CustomAttributeDecoder.java:283 | Succeeds exactly when a byte remains at the position; returns that byte and the position after it. |
| Blob.ReadUInt16 | windowsapi-code-generator/src/main/java/net/codecrete/windowsapi/winmd/CustomAttributeDecoder.java:320-321 | Succeeds exactly when two bytes remain. The value is the little-endian reading of those two bytes, below 2^16, and the position advances by two. |
| Blob.ReadCompressedUnsignedInt | windowsapi-code-generator/src/main/java/net/codecrete/windowsapi/winmd/CustomAttributeDecoder.java:284 | A decoded count is at most 0x1FFFFFFF and is read from at least one byte inside the blob. |
| Blob.EncodeCompressedUnsignedInt | windowsapi-code-generator/src/main/java/net/codecrete/windowsapi/winmd/CustomAttributeDecoder.java:284 | A writer's encoding of n takes 1, 2 or 4 bytes, by the magnitude of n. |
| Blob.CompressedIntegerRejected | windowsapi-code-generator/src/main/java/net/codecrete/windowsapi/winmd/CustomAttributeDecoder.java:284 | A first byte of the form 111xxxxx starts no compressed integer: the read fails with BadCompressedInteger at that position. |
| Blob.CompressedRoundTrip | windowsapi-code-generator/src/main/java/net/codecrete/windowsapi/winmd/CustomAttributeDecoder.java:343 | Reading an encoded integer back, whatever precedes or follows it, yields the integer and consumes exactly its encoding. |
| Blob.CompressedWidthBoundaries | windowsapi-code-generator/src/main/java/net/codecrete/windowsapi/winmd/CustomAttributeDecoder.java:284 | The encodings of 0x7F, 0x80, 0x3FFF and 0x4000, at the points where the width changes. |
| Metadata.MetadataFile.CustomAttributesOf | windowsapi-code-generator/src/main/java/net/codecrete/windowsapi/winmd/CustomAttributeDecoder.java:245 | Every row returned is attached to the given parent, and every row attached to it is returned. It is the table filtered by Attached, whose table order and multiplicity the Attached lemmas state. |
| Metadata.Attached | windowsapi-code-generator/src/main/java/net/codecrete/windowsapi/winmd/CustomAttributeDecoder.java:245 | Every row returned has the given parent, and every table row with that parent is returned. Order and multiplicity are stated by the four lemmas below. |
| Metadata.AttachedAppend | windowsapi-code-generator/src/main/java/net/codecrete/windowsapi/winmd/CustomAttributeDecoder.java:245 | Filtering a concatenation of rows is the concatenation of the filtered parts, so the rows keep their table order. |
| Metadata.AttachedSingleton | windowsapi-code-generator/src/main/java/net/codecrete/windowsapi/winmd/CustomAttributeDecoder.java:245 | A single row is kept exactly when it has the given parent. |
| Metadata.AttachedCount | windowsapi-code-generator/src/main/java/net/codecrete/windowsapi/winmd/CustomAttributeDecoder.java:245 | A row occurs in the result as often as in the table when it has the parent, and not at all otherwise: nothing is duplicated or invented. |
| Metadata.AttachedFromRows | windowsapi-code-generator/src/main/java/net/codecrete/windowsapi/winmd/CustomAttributeDecoder.java:245 | The result holds only rows of the table, and is no longer than the table. |
| Metadata.MetadataFile.GetMemberRef | windowsapi-code-generator/src/main/java/net/codecrete/windowsapi/winmd/CustomAttributeDecoder.java:249 | Succeeds exactly for a 1-based index within the table and returns that row. |
| Metadata.MetadataFile.GetTypeRef | windowsapi-code-generator/src/main/java/net/codecrete/windowsapi/winmd/CustomAttributeDecoder.java:253 | Succeeds exactly for a 1-based index within the table and returns that row. |
| Signatures.DecodeTypeAt | windowsapi-code-generator/src/main/java/net/codecrete/windowsapi/winmd/CustomAttributeDecoder.java:285 | A decoded type never moves the position backwards or past the end of the blob. |
| Signatures.ParamTypes | windowsapi-code-generator/src/main/java/net/codecrete/windowsapi/winmd/CustomAttributeDecoder.java:286-290 | A successful decoding appends exactly the requested number of types after those already decoded, within the blob. |
| Signatures.DecodeMethodRefSignature | windowsapi-code-generator/src/main/java/net/codecrete/windowsapi/winmd/CustomAttributeDecoder.java:281-294 | The loop computes exactly SignatureOf, including each failure: a vararg parameter, a short blob, trailing bytes. |
| Signatures.SignatureHasDeclaredCount | windowsapi-code-generator/src/main/java/net/codecrete/windowsapi/winmd/CustomAttributeDecoder.java:284-288 | A decoded signature has as many parameters as the compressed count after the header byte says. |
| Signatures.ParamTypesOfConcat | windowsapi-code-generator/src/main/java/net/codecrete/windowsapi/winmd/CustomAttributeDecoder.java:287-290 | Concatenated parameter encodings decode to their types, in order, and consume exactly the concatenation. |
| Signatures.SignatureParts | windowsapi-code-generator/src/main/java/net/codecrete/windowsapi/winmd/CustomAttributeDecoder.java:283-288 | For an encoded signature: the header byte, the count, the return type and the parameter types, each read back. |
| Signatures.SignatureRoundTrip | windowsapi-code-generator/src/main/java/net/codecrete/windowsapi/winmd/CustomAttributeDecoder.java:281-294 | Decoding the blob a writer builds from a header, a return type and parameter types gives back exactly that return type and those parameter types. |
| Signatures.SignatureTrailer | windowsapi-code-generator/src/main/java/net/codecrete/windowsapi/winmd/CustomAttributeDecoder.java:292 | Any byte after an encoded signature makes decoding fail at the end of the encoding; with no extra bytes it succeeds. |
| Signatures.VarArgSignatureRejected | windowsapi-code-generator/src/main/java/net/codecrete/windowsapi/winmd/CustomAttributeDecoder.java:289 | A parameter that decodes to null (a vararg sentinel) fails the signature and names that parameter's position. |
| Signatures.HeaderByteIgnored | windowsapi-code-generator/src/main/java/net/codecrete/windowsapi/winmd/CustomAttributeDecoder.java:283 | The calling-convention byte is skipped: two signatures that differ only in it decode alike. |
| AttributeValues.ReadPrimitiveAt | windowsapi-code-generator/src/main/java/net/codecrete/windowsapi/winmd/CustomAttributeDecoder.java:352 | An element read stays within the blob and never moves backwards. |
| AttributeValues.ReadElem | windowsapi-code-generator/src/main/java/net/codecrete/windowsapi/winmd/CustomAttributeDecoder.java:349-357 | A primitive or enum element read stays within the blob. |
| AttributeValues.FixedArguments | windowsapi-code-generator/src/main/java/net/codecrete/windowsapi/winmd/CustomAttributeDecoder.java:324-330 | Exactly one argument per parameter type is appended after the earlier ones, within the blob. |
| AttributeValues.DecodeCustomAttributeValue | windowsapi-code-generator/src/main/java/net/codecrete/windowsapi/winmd/CustomAttributeDecoder.java:318-338 | The loop computes exactly CustomAttributeValueOf: bad prolog, array or unsupported parameter, named arguments and trailing bytes fail as in the source. |
| AttributeValues.GetValue | windowsapi-code-generator/src/main/java/net/codecrete/windowsapi/winmd/CustomAttributeDecoder.java:269-273 | Decodes the constructor's signature, then the value blob against it, and fails when either fails. |
| AttributeValues.GetLazyString | windowsapi-code-generator/src/main/java/net/codecrete/windowsapi/winmd/CustomAttributeDecoder.java:306-316 | Computes exactly LazyStringOf: one string parameter, the prolog, the length and view, and a zero named count at the very end. |
| AttributeValues.PrologMustBeOne | windowsapi-code-generator/src/main/java/net/codecrete/windowsapi/winmd/CustomAttributeDecoder.java:320-321 | A decoded value blob starts with the 16-bit word 1; a blob that starts with any other word fails with BadProlog, carrying that word. |
| AttributeValues.DecodedValueFollowsSignature | windowsapi-code-generator/src/main/java/net/codecrete/windowsapi/winmd/CustomAttributeDecoder.java:324-336 | A decoded value has one unnamed argument per parameter, with the parameter's declared type. Every parameter is a primitive or an enum, and the blob ends in a zero named count. |
| AttributeValues.NonElementParameterRejected | windowsapi-code-generator/src/main/java/net/codecrete/windowsapi/winmd/CustomAttributeDecoder.java:327-330 | A parameter that is neither a primitive nor an enum makes decoding fail, whatever the blob. |
| AttributeValues.ArgumentsAt | windowsapi-code-generator/src/main/java/net/codecrete/windowsapi/winmd/CustomAttributeDecoder.java:329 | The i-th argument built pairs the i-th declared type with the i-th value and no name. |
| AttributeValues.ReadElemOfEncoding | windowsapi-code-generator/src/main/java/net/codecrete/windowsapi/winmd/CustomAttributeDecoder.java:349-357 | An element's exact encoding reads back as its value, whatever follows, with the enum read through its base type. |
| AttributeValues.FixedArgumentsOfConcat | windowsapi-code-generator/src/main/java/net/codecrete/windowsapi/winmd/CustomAttributeDecoder.java:327-330 | Concatenated argument encodings decode to exactly those arguments, in parameter order. |
| AttributeValues.FixedArgumentsSplit | windowsapi-code-generator/src/main/java/net/codecrete/windowsapi/winmd/CustomAttributeDecoder.java:327-330 | Decoding the arguments for front + back parameters decodes the front, then the back from where the front ended. |
| AttributeValues.ValueRoundTrip | windowsapi-code-generator/src/main/java/net/codecrete/windowsapi/winmd/CustomAttributeDecoder.java:318-338 | Between a prolog and a zero named count, concatenated encodings decode to the arguments. A non-zero count fails with NamedArguments; any trailing byte fails with TrailingBytes. |
| AttributeValues.EncodedValueDecodes | windowsapi-code-generator/src/main/java/net/codecrete/windowsapi/winmd/CustomAttributeDecoder.java:318-338 | A writer's value blob decodes to exactly the arguments it was built from. |
| AttributeValues.BadParameterStopsDecoding | windowsapi-code-generator/src/main/java/net/codecrete/windowsapi/winmd/CustomAttributeDecoder.java:327-330 | After arguments that decode, the first array parameter fails with ArrayArgument and any other non-element parameter with UnsupportedElementType, each at its index. |
| AttributeValues.BadParameterStopsArguments | windowsapi-code-generator/src/main/java/net/codecrete/windowsapi/winmd/CustomAttributeDecoder.java:328 | The same for the fixed-argument loop alone. |
| AttributeValues.SingleStringShape | windowsapi-code-generator/src/main/java/net/codecrete/windowsapi/winmd/CustomAttributeDecoder.java:306-316 | A single-string view implies a signature with exactly one string parameter and a prolog of 1. The length sits at offset 2, the view follows it and spans that length, and exactly a zero named count follows the view. |
| AttributeValues.SingleStringRoundTrip | windowsapi-code-generator/src/main/java/net/codecrete/windowsapi/winmd/CustomAttributeDecoder.java:340-347 | Reading an encoded string back yields a view onto exactly the original bytes. |
| AttributeValues.SingleStringNeedsStringParameter | windowsapi-code-generator/src/main/java/net/codecrete/windowsapi/winmd/CustomAttributeDecoder.java:308-309 | A constructor whose parameters are not exactly one string type gives NotSingleString. |
| Guids.Unsigned | windowsapi-code-generator/src/main/java/net/codecrete/windowsapi/winmd/CustomAttributeDecoder.java:363-370 | Masking a sign-extended integer to its width gives a number below 2^width: the value itself when non-negative, the value plus 2^width when negative. |
| Guids.ByteFields | windowsapi-code-generator/src/main/java/net/codecrete/windowsapi/winmd/CustomAttributeDecoder.java:369-370 | The eight byte fields are arguments 3 to 10, in order. |
| Guids.LeastSigPrefixComplete | windowsapi-code-generator/src/main/java/net/codecrete/windowsapi/winmd/CustomAttributeDecoder.java:368-372 | Eight rounds of the byte loop accumulate the whole least significant half. |
| Guids.CreateGuidConstant | windowsapi-code-generator/src/main/java/net/codecrete/windowsapi/winmd/CustomAttributeDecoder.java:359-374 | The method, including its byte loop, computes exactly GuidOf: the GUID, or the first missing or wrongly boxed argument. |
| Guids.GuidOfSucceedsIff | windowsapi-code-generator/src/main/java/net/codecrete/windowsapi/winmd/CustomAttributeDecoder.java:362-372 | A GUID is produced exactly when the eleven arguments are integers boxed as Integer, Short, Short and then eight Bytes. |
| Guids.FirstBadArgumentReported | windowsapi-code-generator/src/main/java/net/codecrete/windowsapi/winmd/CustomAttributeDecoder.java:363-370 | The failure names the first argument that is missing (index beyond the arguments) or has the wrong kind. |
| Guids.PackBytesDigit | windowsapi-code-generator/src/main/java/net/codecrete/windowsapi/winmd/CustomAttributeDecoder.java:371 | Byte i of eight packed bytes, counted from the most significant, is the i-th byte. |
| Guids.GuidLayout | windowsapi-code-generator/src/main/java/net/codecrete/windowsapi/winmd/CustomAttributeDecoder.java:363-373 | Both halves are below 2^64. The 32-bit field is the top half of the most significant half, the two 16-bit fields lie below it, and byte field i sits at bits 56-8i of the least significant half. |
| Guids.GuidFieldsDetermined | windowsapi-code-generator/src/main/java/net/codecrete/windowsapi/winmd/CustomAttributeDecoder.java:359-374 | Two values that give the same GUID have the same eleven unsigned fields: the packing loses nothing. |
| Guids.GuidExample | windowsapi-code-generator/src/main/java/net/codecrete/windowsapi/winmd/CustomAttributeDecoder.java:359-374 | The arguments of {AABBCCDD-1122-3344-0001-020304050607}, with the first one negative, give that GUID. |
| Catalogs.TypeCatalogDisjoint | windowsapi-code-generator/src/main/java/net/codecrete/windowsapi/winmd/CustomAttributeDecoder.java:63-97 | Consistency fact of the catalog as written, checked by evaluation: no attribute type is both extracted and ignored for types, so the order of the two lookups does not matter. |
| Catalogs.MethodCatalogDisjoint | windowsapi-code-generator/src/main/java/net/codecrete/windowsapi/winmd/CustomAttributeDecoder.java:102-123 | Consistency fact of the catalog as written, checked by evaluation: no attribute type is both extracted and ignored for methods, so the order of the two lookups does not matter. |
| Catalogs.FieldCatalogDisjoint | windowsapi-code-generator/src/main/java/net/codecrete/windowsapi/winmd/CustomAttributeDecoder.java:128-146 | Consistency fact of the catalog as written, checked by evaluation: no attribute type is both extracted and ignored for fields, so the order of the two lookups does not matter. |
| Catalogs.ParamCatalogDisjoint | windowsapi-code-generator/src/main/java/net/codecrete/windowsapi/winmd/CustomAttributeDecoder.java:151-174 | Consistency fact of the catalog as written, checked by evaluation: no attribute type is both extracted and ignored for parameters, so the order of the two lookups does not matter. |
| Records.TypeCustomAttributeData.constructor | windowsapi-code-generator/src/main/java/net/codecrete/windowsapi/winmd/TypeCustomAttributeData.java:11-36 | A new type record supports every architecture and has every other field unset or false. |
| Records.MethodCustomAttributeData.constructor | windowsapi-code-generator/src/main/java/net/codecrete/windowsapi/winmd/MethodCustomAttributeData.java:9-22 | A new method record supports every architecture and has no documentation or constant. |
| Records.FieldCustomAttributeData.constructor | windowsapi-code-generator/src/main/java/net/codecrete/windowsapi/winmd/FieldCustomAttributeData.java:11-36 | A new field record supports every architecture and has every other field unset or false. |
| Records.ParamCustomAttributeData.constructor | windowsapi-code-generator/src/main/java/net/codecrete/windowsapi/winmd/CustomAttributeDecoder.java:238 | A new parameter record has no associated enum. |
| AttributeDecoder.FirstArgument | windowsapi-code-generator/src/main/java/net/codecrete/windowsapi/winmd/CustomAttributeDecoder.java:66 | Fails exactly when there is no fixed argument; otherwise returns the first argument's value. |
| AttributeDecoder.ToInt32 | windowsapi-code-generator/src/main/java/net/codecrete/windowsapi/winmd/CustomAttributeDecoder.java:66 | Java's narrowing to int is in the 32-bit signed range, agrees with its input modulo 2^32, and keeps values already in range. |
| AttributeDecoder.IntValue | windowsapi-code-generator/src/main/java/net/codecrete/windowsapi/winmd/CustomAttributeDecoder.java:65-66 | The Number cast succeeds exactly for integers and gives the int narrowing; booleans, characters and strings fail with WrongArgumentKind. |
| AttributeDecoder.StringValue | windowsapi-code-generator/src/main/java/net/codecrete/windowsapi/winmd/CustomAttributeDecoder.java:76 | The String cast succeeds exactly for a string and returns its text. |
| AttributeDecoder.AttributeType | windowsapi-code-generator/src/main/java/net/codecrete/windowsapi/winmd/CustomAttributeDecoder.java:246-257 | Succeeds exactly when the constructor is a non-null, existing MemberRef whose parent is a non-null, existing TypeRef. The result is that TypeRef's namespace and name, with the MemberRef. |
| AttributeDecoder.ExtractAllStep | windowsapi-code-generator/src/main/java/net/codecrete/windowsapi/winmd/CustomAttributeDecoder.java:245-266 | One row of the loop: a failed lookup stops it, an ignored row leaves the data, an extracted row passes the data on or stops with the extractor's failure. |
| AttributeDecoder.ExtractType | windowsapi-code-generator/src/main/java/net/codecrete/windowsapi/winmd/CustomAttributeDecoder.java:63-77 | The type extractor updates the record exactly as ApplyType says, and leaves it unchanged when it fails. |
| AttributeDecoder.ExtractMethod | windowsapi-code-generator/src/main/java/net/codecrete/windowsapi/winmd/CustomAttributeDecoder.java:102-110 | The method extractor updates the record exactly as ApplyMethod says, and leaves it unchanged when it fails. |
| AttributeDecoder.ExtractField | windowsapi-code-generator/src/main/java/net/codecrete/windowsapi/winmd/CustomAttributeDecoder.java:128-139 | The field extractor updates the record exactly as ApplyField says, and leaves it unchanged when it fails. |
| AttributeDecoder.ExtractParam | windowsapi-code-generator/src/main/java/net/codecrete/windowsapi/winmd/CustomAttributeDecoder.java:151-154 | The parameter extractor updates the record exactly as ApplyParam says, and leaves it unchanged when it fails. |
| AttributeDecoder.GetTypeDefAttributes | windowsapi-code-generator/src/main/java/net/codecrete/windowsapi/winmd/CustomAttributeDecoder.java:197-202 | The loop over a TypeDef's rows, starting from a new record, gives a fresh record equal to the fold TypeDefAttributes, or that fold's failure. |
| AttributeDecoder.GetMethodDefAttributes | windowsapi-code-generator/src/main/java/net/codecrete/windowsapi/winmd/CustomAttributeDecoder.java:210-215 | The same for a MethodDef and the method catalog. |
| AttributeDecoder.GetFieldAttributes | windowsapi-code-generator/src/main/java/net/codecrete/windowsapi/winmd/CustomAttributeDecoder.java:223-228 | The same for a Field and the field catalog. |
| AttributeDecoder.GetParamAttributes | windowsapi-code-generator/src/main/java/net/codecrete/windowsapi/winmd/CustomAttributeDecoder.java:236-241 | The same for a Param and the parameter catalog. |
| AttributeDecoder.ExtractAllAppend | windowsapi-code-generator/src/main/java/net/codecrete/windowsapi/winmd/CustomAttributeDecoder.java:245-266 | Processing front + back rows processes the front, then the back from the record the front left, and stops at the front's failure. |
| AttributeDecoder.SkippedRowsChangeNothing | windowsapi-code-generator/src/main/java/net/codecrete/windowsapi/winmd/CustomAttributeDecoder.java:259-260 | Rows whose attribute types are all ignored leave the record as it was. |
| AttributeDecoder.UnknownAttributeFails | windowsapi-code-generator/src/main/java/net/codecrete/windowsapi/winmd/CustomAttributeDecoder.java:261-262 | An attribute type that is neither ignored nor extracted makes the whole decoding fail. When the rows before it decode, the failure names that type. |
| AttributeDecoder.ExtractAllPreserves | windowsapi-code-generator/src/main/java/net/codecrete/windowsapi/winmd/CustomAttributeDecoder.java:243-267 | A property of the record that every extractor keeps holds of every record the decoding produces. |
| AttributeDecoder.FieldArchitectureIsAll | windowsapi-code-generator/src/main/java/net/codecrete/windowsapi/winmd/CustomAttributeDecoder.java:128-139 | A field's record always supports every architecture. |
| AttributeDecoder.LastArchitectureWins | windowsapi-code-generator/src/main/java/net/codecrete/windowsapi/winmd/CustomAttributeDecoder.java:64-66 | With several SupportedArchitecture attributes on a type, the last one decides. |
| AttributeDecoder.MarkerAttributesReadNothing | windowsapi-code-generator/src/main/java/net/codecrete/windowsapi/winmd/CustomAttributeDecoder.java:69-74 | Flags, NativeTypedef, NativeEncoding and FlexibleArray set their flag without reading any blob, so they cannot fail. |
| AttributeDecoder.FieldCatalogExamples | windowsapi-code-generator/src/main/java/net/codecrete/windowsapi/winmd/CustomAttributeDecoder.java:144-146 | ConstAttribute on a field is skipped; SupportedArchitectureAttribute on a field is an unknown attribute. |
| AttributeDecoder.DocumentationOnParamSkipped | windowsapi-code-generator/src/main/java/net/codecrete/windowsapi/winmd/CustomAttributeDecoder.java:159-174 | DocumentationAttribute is skipped on parameters, but extracted on fields. |
| AttributeDecoder.ArchitectureExtractor | windowsapi-code-generator/src/main/java/net/codecrete/windowsapi/winmd/CustomAttributeDecoder.java:64-66 | For types and methods: succeeds exactly when the value decodes and its first argument is an integer, then stores that integer narrowed to int. |
| AttributeDecoder.StringExtractors | windowsapi-code-generator/src/main/java/net/codecrete/windowsapi/winmd/CustomAttributeDecoder.java:75-76 | StructSizeField (types) and AssociatedEnum (parameters): succeed exactly when the first argument is a string, then store it. |
| AttributeDecoder.ConstantExtractor | windowsapi-code-generator/src/main/java/net/codecrete/windowsapi/winmd/CustomAttributeDecoder.java:108-109 | ConstantAttribute on methods and fields: succeeds exactly when the value has a first argument, then stores its value unchanged. |
| AttributeDecoder.GuidExtractor | windowsapi-code-generator/src/main/java/net/codecrete/windowsapi/winmd/CustomAttributeDecoder.java:71-72 | GuidAttribute on types and fields: succeeds exactly when the value decodes to a GUID, then stores it. |
| AttributeDecoder.DocumentationExtractor | windowsapi-code-generator/src/main/java/net/codecrete/windowsapi/winmd/CustomAttributeDecoder.java:67-68 | DocumentationAttribute on types, methods and fields: succeeds exactly when the single-string view exists, then stores it. |
| AttributeDecoder.IgnoredTypeAttributesGiveDefaults | windowsapi-code-generator/src/main/java/net/codecrete/windowsapi/winmd/CustomAttributeDecoder.java:197-202 | A type whose attributes are all in the type ignore set gets the default record. |
| AttributeDecoder.IgnoredMethodAttributesChangeNothing | windowsapi-code-generator/src/main/java/net/codecrete/windowsapi/winmd/CustomAttributeDecoder.java:115-123 | DoesNotReturnAttribute and UnicodeAttribute leave a method's record unchanged. |
| Scenario.GuidSignatureDecodes | windowsapi-code-generator/src/main/java/net/codecrete/windowsapi/winmd/CustomAttributeDecoder.java:281-294 | The GuidAttribute constructor signature (uint, ushort, ushort, 8 x byte) decodes to its eleven parameter types. |
| Scenario.GuidValueDecodes | windowsapi-code-generator/src/main/java/net/codecrete/windowsapi/winmd/CustomAttributeDecoder.java:318-338 | The example value blob decodes to its eleven integer arguments. |
| Scenario.GuidValueOf | windowsapi-code-generator/src/main/java/net/codecrete/windowsapi/winmd/CustomAttributeDecoder.java:359-374 | That value denotes the GUID {AABBCCDD-1122-3344-0001-020304050607}. |
| Scenario.DocStringDecodes | windowsapi-code-generator/src/main/java/net/codecrete/windowsapi/winmd/CustomAttributeDecoder.java:306-316 | The DocumentationAttribute blob gives the view of "doc" at offset 3. |
| Scenario.SampleRows | windowsapi-code-generator/src/main/java/net/codecrete/windowsapi/winmd/CustomAttributeDecoder.java:245 | Of the five rows in the example file, the four attached to TypeDef 1 are found, in order. |
| Scenario.SampleTypeDefAttributes | windowsapi-code-generator/src/main/java/net/codecrete/windowsapi/winmd/CustomAttributeDecoder.java:197-202 | The example type's record holds the GUID, the flags bit and the documentation view, and every other field is at its default. The row of another TypeDef and the ignored ObsoleteAttribute leave no trace. |

## Left out

- Heaps and coded indexes: `MetadataFile`, `Blob`, `CodedIndex` and the string heap are
  not part of this model. Rows are given with their blobs and strings resolved and
  their coded indexes decoded into a table and a row number (`CodedRef`). The encoding
  of the HasCustomAttribute index in `getTypeDefAttributes` and its siblings is
  therefore not modelled.
- `decodeType` and `readPrimitiveVal` (of the base class `Decoder`) and
  `TypeLookup.getElementType` are not part of this model.
  - The two routines are parameters: the model states their effect on the decoder,
    not their own decoding.
  - `Scenario` gives sample instances of both.
  - A primitive carries its element code directly.
- Strings: a string argument's text comes from `readPrimitiveVal`, and a `LazyString`
  view is never decoded to text. A null SerString (0xFF) is not modelled.
- `AttributeDecoder.IntValue`: a floating-point first argument gives
  `FloatNotModelled`, while Java would narrow the float to an int.
  - Floating-point values are kept only as their width.
- `Guids.GuidOf`: the two halves of the UUID stay unsigned numbers below 2^64.
  - Java stores the same bits in a signed `long`.
  - Each masked, shifted field is added rather than OR-ed in. The fields occupy
    disjoint bits, so the two are the same.
- The comparison of the signature's parameter to `stringType` is a reference
  comparison in Java. The model uses value equality of types.
- `Records.ArchitectureAll`: `Architecture.java` is not part of this model. The default
  `Architecture.ALL` is taken to be 7, meaning X86, X64 and Arm64.
- `Records.ParamCustomAttributeData`: `ParamCustomAttributeData.java` is not part of
  this model. The record has only `associatedEnumType`, the one field the decoder
  sets.
- Java `assert` statements are modelled as enabled. Each one becomes a failure that
  stops the decoding.
  - With assertions disabled, the Java code would go on with the invalid data; the
    model does not capture that.
  - The Java code aborts through exceptions; the model aborts through returned
    failures.
- A `LazyString` holds the whole value blob in `data`, as the Java view holds the
  blob's backing array. The model does not capture the sharing of that array.
- `Catalogs`: the four Disjoint lemmas are facts about constant maps and sets. They
  need no proof beyond evaluation.
