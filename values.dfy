/**
 * Custom attribute value blobs (sections II.22.10 and II.23.3 of ECMA-335): a 16-bit
 * prolog equal to 1, one element per fixed parameter of the constructor, and a 16-bit
 * count of named arguments, which must be 0, at the very end of the blob.
 */
module AttributeValues {
  import opened Wrappers
  import opened Metadata
  import opened Blob
  import opened Signatures

  /** readPrimitiveVal applied to the bytes from `pos` on; it may not read beyond the blob. */
  function ReadPrimitiveAt(c: Collaborators, data: seq<byte>, pos: nat, code: ElementCode)
    : (r: Decoded<(Value, nat)>)
    requires pos <= |data|
    ensures r.Success? ==> pos <= r.value.1 <= |data|
  {
    match c.readPrimitiveVal(data[pos..], code)
    case ValueDecoded(v, width) =>
      if pos + width <= |data| then Success((v, pos + width)) else Failure(EndOfBlob(|data|))
    case ValueMalformed => Failure(MalformedElement(pos))
  }

  /** readElem: a primitive is read with its element type, an enum with its base type's. */
  function ReadElem(c: Collaborators, data: seq<byte>, pos: nat, t: Type, index: nat)
    : (r: Decoded<(Value, nat)>)
    requires pos <= |data|
    ensures r.Success? ==> pos <= r.value.1 <= |data|
  {
    match t
    case PrimitiveType(p) => ReadPrimitiveAt(c, data, pos, ElementTypeOf(p))
    case EnumType(_, base) => ReadPrimitiveAt(c, data, pos, ElementTypeOf(base))
    case _ => Failure(UnsupportedElementType(index))
  }

  /** Decodes one fixed argument per type in `types`, from `pos` on, after the arguments `acc`. */
  function FixedArguments(c: Collaborators, data: seq<byte>, pos: nat, types: seq<Type>, acc: seq<ArgumentValue>)
    : (r: Decoded<(seq<ArgumentValue>, nat)>)
    requires pos <= |data|
    ensures r.Success? ==> |r.value.0| == |acc| + |types| && r.value.0[..|acc|] == acc
    ensures r.Success? ==> pos <= r.value.1 <= |data|
    decreases |types|
  {
    if types == [] then Success((acc, pos))
    else if types[0].ArrayType? then Failure(ArrayArgument(|acc|))
    else
      var elem :- ReadElem(c, data, pos, types[0], |acc|);
      FixedArguments(c, data, elem.1, types[1..], acc + [ArgumentValue(types[0], None, elem.0)])
  }

  /** The value a custom attribute's value blob denotes under the constructor's signature. */
  function CustomAttributeValueOf(c: Collaborators, sig: MethodSignature, blob: seq<byte>)
    : Decoded<CustomAttributeValue>
  {
    var prolog :- ReadUInt16(blob, 0);
    if prolog.0 != 1 then Failure(BadProlog(prolog.0))
    else
      var fixed :- FixedArguments(c, blob, prolog.1, sig.paramTypes, []);
      var named :- ReadUInt16(blob, fixed.1);
      if named.0 != 0 then Failure(NamedArguments(named.0))
      else if named.1 != |blob| then Failure(TrailingBytes(named.1))
      else Success(CustomAttributeValue(fixed.0))
  }

  method DecodeCustomAttributeValue(c: Collaborators, sig: MethodSignature, blob: seq<byte>)
    returns (r: Decoded<CustomAttributeValue>)
    ensures r == CustomAttributeValueOf(c, sig, blob)
  {
    var prolog := ReadUInt16(blob, 0);
    if prolog.Failure? { return Failure(prolog.error); }
    if prolog.value.0 != 1 { return Failure(BadProlog(prolog.value.0)); }
    var types := sig.paramTypes;
    var pos: nat := prolog.value.1;
    var fixedArguments: seq<ArgumentValue> := [];
    var i := 0;
    while i < |types|
      invariant i <= |types| && |fixedArguments| == i && pos <= |blob|
      invariant FixedArguments(c, blob, pos, types[i..], fixedArguments)
                == FixedArguments(c, blob, prolog.value.1, types, [])
    {
      assert types[i..][0] == types[i] && types[i..][1..] == types[i + 1..];
      if types[i].ArrayType? { return Failure(ArrayArgument(i)); }
      var elem := ReadElem(c, blob, pos, types[i], i);
      if elem.Failure? { return Failure(elem.error); }
      fixedArguments := fixedArguments + [ArgumentValue(types[i], None, elem.value.0)];
      pos := elem.value.1;
      i := i + 1;
    }
    assert types[i..] == [];
    var named := ReadUInt16(blob, pos);
    if named.Failure? { return Failure(named.error); }
    if named.value.0 != 0 { return Failure(NamedArguments(named.value.0)); }
    if named.value.1 != |blob| { return Failure(TrailingBytes(named.value.1)); }
    return Success(CustomAttributeValue(fixedArguments));
  }

  /** ExtractionContext.getValue: the constructor's signature, then the value blob decoded against it. */
  function ValueOf(c: Collaborators, signature: seq<byte>, blob: seq<byte>): Decoded<CustomAttributeValue> {
    var sig :- SignatureOf(c, signature);
    CustomAttributeValueOf(c, sig, blob)
  }

  method GetValue(c: Collaborators, signature: seq<byte>, blob: seq<byte>) returns (r: Decoded<CustomAttributeValue>)
    ensures r == ValueOf(c, signature, blob)
  {
    var sig := DecodeMethodRefSignature(c, signature);
    if sig.Failure? { return Failure(sig.error); }
    r := DecodeCustomAttributeValue(c, sig.value, blob);
  }

  /**
   * The string of a single-string attribute as a view into the value blob: after the
   * prolog, a compressed length and that many bytes, which are skipped, not decoded.
   */
  function DecodeSingleStringValue(blob: seq<byte>): Decoded<(LazyString, nat)> {
    var prolog :- ReadUInt16(blob, 0);
    if prolog.0 != 1 then Failure(BadProlog(prolog.0))
    else
      var len :- ReadCompressedUnsignedInt(blob, prolog.1);
      Success((LazyString(blob, len.1, len.0), len.1 + len.0))
  }

  /** getLazyString: valid only for a constructor with exactly one parameter, of the string type. */
  function LazyStringOf(c: Collaborators, signature: seq<byte>, blob: seq<byte>): Decoded<LazyString> {
    var sig :- SignatureOf(c, signature);
    if |sig.paramTypes| != 1 || sig.paramTypes[0] != StringType then Failure(NotSingleString)
    else
      var str :- DecodeSingleStringValue(blob);
      var named :- ReadUInt16(blob, str.1);
      if named.0 != 0 then Failure(NamedArguments(named.0))
      else if named.1 != |blob| then Failure(TrailingBytes(named.1))
      else Success(str.0)
  }

  method GetLazyString(c: Collaborators, signature: seq<byte>, blob: seq<byte>) returns (r: Decoded<LazyString>)
    ensures r == LazyStringOf(c, signature, blob)
  {
    var sig := DecodeMethodRefSignature(c, signature);
    if sig.Failure? { return Failure(sig.error); }
    if |sig.value.paramTypes| != 1 || sig.value.paramTypes[0] != StringType { return Failure(NotSingleString); }
    var str := DecodeSingleStringValue(blob);
    if str.Failure? { return Failure(str.error); }
    var named := ReadUInt16(blob, str.value.1);
    if named.Failure? { return Failure(named.error); }
    if named.value.0 != 0 { return Failure(NamedArguments(named.value.0)); }
    if named.value.1 != |blob| { return Failure(TrailingBytes(named.value.1)); }
    return Success(str.value.0);
  }

  /** The bytes a view stands for. */
  function ViewBytes(s: LazyString): seq<byte>
    requires s.offset + s.length <= |s.data|
  {
    s.data[s.offset..s.offset + s.length]
  }

  /** A value blob is rejected unless its first 16-bit word is 1. */
  lemma PrologMustBeOne(c: Collaborators, sig: MethodSignature, blob: seq<byte>)
    ensures CustomAttributeValueOf(c, sig, blob).Success? ==> |blob| >= 2 && blob[0] == 1 && blob[1] == 0
    ensures |blob| >= 2 && (blob[0] != 1 || blob[1] != 0) ==>
              CustomAttributeValueOf(c, sig, blob) == Failure(BadProlog(blob[0] as nat + 0x100 * blob[1] as nat))
  {
  }

  lemma {:induction false} FixedArgumentsFollowTypes(c: Collaborators, data: seq<byte>, pos: nat, types: seq<Type>,
                                                     acc: seq<ArgumentValue>)
    requires pos <= |data| && FixedArguments(c, data, pos, types, acc).Success?
    ensures var args := FixedArguments(c, data, pos, types, acc).value.0;
            forall i :: 0 <= i < |types| ==>
              && args[|acc| + i].declaredType == types[i] && args[|acc| + i].name == None
              && (types[i].PrimitiveType? || types[i].EnumType?)
    decreases |types|
  {
    if types != [] {
      var elem := ReadElem(c, data, pos, types[0], |acc|).value;
      var acc' := acc + [ArgumentValue(types[0], None, elem.0)];
      FixedArgumentsFollowTypes(c, data, elem.1, types[1..], acc');
      var args := FixedArguments(c, data, pos, types, acc).value.0;
      assert args == FixedArguments(c, data, elem.1, types[1..], acc').value.0;
      forall i | 0 <= i < |types|
        ensures args[|acc| + i].declaredType == types[i] && args[|acc| + i].name == None
        ensures types[i].PrimitiveType? || types[i].EnumType?
      {
        if i == 0 {
          assert args[..|acc'|][|acc|] == acc'[|acc|];
        } else {
          assert types[1..][i - 1] == types[i];
          assert |acc'| + (i - 1) == |acc| + i;
        }
      }
    }
  }

  /**
   * A decoded value has exactly one argument per parameter, with the parameter's declared
   * type and no name; every parameter is a primitive or an enum; and the blob ends with a
   * zero named-argument count right after the last argument.
   */
  lemma DecodedValueFollowsSignature(c: Collaborators, sig: MethodSignature, blob: seq<byte>)
    requires CustomAttributeValueOf(c, sig, blob).Success?
    ensures var args := CustomAttributeValueOf(c, sig, blob).value.fixedArguments;
            && |args| == |sig.paramTypes|
            && (forall i :: 0 <= i < |args| ==>
                  args[i].declaredType == sig.paramTypes[i] && args[i].name == None
                  && (sig.paramTypes[i].PrimitiveType? || sig.paramTypes[i].EnumType?))
            && 4 <= |blob| && blob[|blob| - 2] == 0 && blob[|blob| - 1] == 0
            && FixedArguments(c, blob, 2, sig.paramTypes, []) == Success((args, |blob| - 2))
  {
    FixedArgumentsFollowTypes(c, blob, 2, sig.paramTypes, []);
  }

  /** A parameter that is an array, or neither a primitive nor an enum, makes decoding fail. */
  lemma NonElementParameterRejected(c: Collaborators, sig: MethodSignature, blob: seq<byte>, j: nat)
    requires j < |sig.paramTypes| && !sig.paramTypes[j].PrimitiveType? && !sig.paramTypes[j].EnumType?
    ensures CustomAttributeValueOf(c, sig, blob).Failure?
  {
    if CustomAttributeValueOf(c, sig, blob).Success? {
      DecodedValueFollowsSignature(c, sig, blob);
    }
  }

  /** `enc` is exactly what readPrimitiveVal reads for `code` to produce `v`, whatever follows it. */
  ghost predicate ElementDecodesTo(c: Collaborators, code: ElementCode, enc: seq<byte>, v: Value) {
    forall rest :: c.readPrimitiveVal(enc + rest, code) == ValueDecoded(v, |enc|)
  }

  /** `enc` encodes `v` as an argument of type `t`: a primitive with its own element type, an enum with its base type's. */
  ghost predicate EncodesArgument(c: Collaborators, t: Type, enc: seq<byte>, v: Value) {
    match t
    case PrimitiveType(p) => ElementDecodesTo(c, ElementTypeOf(p), enc, v)
    case EnumType(_, base) => ElementDecodesTo(c, ElementTypeOf(base), enc, v)
    case _ => false
  }

  /** The fixed arguments built from declared types and values, in order. */
  function Arguments(types: seq<Type>, vals: seq<Value>): (args: seq<ArgumentValue>)
    requires |types| == |vals|
  {
    if types == [] then [] else [ArgumentValue(types[0], None, vals[0])] + Arguments(types[1..], vals[1..])
  }

  /** The i-th argument pairs the i-th declared type with the i-th value. */
  lemma {:induction false} ArgumentsAt(types: seq<Type>, vals: seq<Value>)
    requires |types| == |vals|
    ensures |Arguments(types, vals)| == |types|
    ensures forall i :: 0 <= i < |types| ==> Arguments(types, vals)[i] == ArgumentValue(types[i], None, vals[i])
  {
    if types != [] {
      ArgumentsAt(types[1..], vals[1..]);
    }
  }

  /** The value blob a writer produces from argument encodings, with no named arguments. */
  function EncodeValueBlob(encs: seq<seq<byte>>): seq<byte> {
    [1, 0] + Concat(encs) + [0, 0]
  }

  lemma ReadElemOfEncoding(c: Collaborators, data: seq<byte>, pos: nat, t: Type, enc: seq<byte>,
                           rest: seq<byte>, v: Value, index: nat)
    requires pos <= |data| && data[pos..] == enc + rest
    requires EncodesArgument(c, t, enc, v)
    ensures ReadElem(c, data, pos, t, index) == Success((v, pos + |enc|))
    ensures data[pos + |enc|..] == rest
  {
    assert data[pos..][|enc|..] == rest;
    match t
    case PrimitiveType(p) =>
      assert c.readPrimitiveVal(enc + rest, ElementTypeOf(p)) == ValueDecoded(v, |enc|);
    case EnumType(_, base) =>
      assert c.readPrimitiveVal(enc + rest, ElementTypeOf(base)) == ValueDecoded(v, |enc|);
  }

  lemma {:induction false} FixedArgumentsOfConcat(c: Collaborators, data: seq<byte>, pos: nat,
                                                  encs: seq<seq<byte>>, suffix: seq<byte>,
                                                  types: seq<Type>, vals: seq<Value>, acc: seq<ArgumentValue>)
    requires pos <= |data| && data[pos..] == Concat(encs) + suffix
    requires |encs| == |types| == |vals|
    requires forall i :: 0 <= i < |encs| ==> EncodesArgument(c, types[i], encs[i], vals[i])
    ensures FixedArguments(c, data, pos, types, acc) == Success((acc + Arguments(types, vals), |data| - |suffix|))
    decreases |encs|
  {
    if encs == [] {
      assert acc + [] == acc;
    } else {
      ReadElemOfEncoding(c, data, pos, types[0], encs[0], Concat(encs[1..]) + suffix, vals[0], |acc|);
      forall i | 0 <= i < |encs[1..]| ensures EncodesArgument(c, types[1..][i], encs[1..][i], vals[1..][i]) {
        assert encs[1..][i] == encs[i + 1] && types[1..][i] == types[i + 1] && vals[1..][i] == vals[i + 1];
      }
      var acc' := acc + [ArgumentValue(types[0], None, vals[0])];
      FixedArgumentsOfConcat(c, data, pos + |encs[0]|, encs[1..], suffix, types[1..], vals[1..], acc');
      assert acc' + Arguments(types[1..], vals[1..]) == acc + Arguments(types, vals);
    }
  }

  /**
   * Arguments are consumed from the blob in parameter order: the concatenated encodings
   * of the arguments, between the prolog and a zero named-argument count, decode to exactly
   * those arguments. Appending a non-zero count or any trailing byte makes decoding fail.
   */
  lemma ValueRoundTrip(c: Collaborators, sig: MethodSignature, encs: seq<seq<byte>>, vals: seq<Value>,
                       named: seq<byte>, extra: seq<byte>)
    requires |encs| == |vals| == |sig.paramTypes| && |named| == 2
    requires forall i :: 0 <= i < |encs| ==> EncodesArgument(c, sig.paramTypes[i], encs[i], vals[i])
    ensures var blob := [1, 0] + Concat(encs) + named + extra;
            var count := named[0] as nat + 0x100 * named[1] as nat;
            CustomAttributeValueOf(c, sig, blob)
            == if count != 0 then Failure(NamedArguments(count))
               else if extra != [] then Failure(TrailingBytes(|blob| - |extra|))
               else Success(CustomAttributeValue(Arguments(sig.paramTypes, vals)))
  {
    var blob := [1, 0] + Concat(encs) + named + extra;
    assert blob[2..] == Concat(encs) + (named + extra);
    FixedArgumentsOfConcat(c, blob, 2, encs, named + extra, sig.paramTypes, vals, []);
    var q := 2 + |Concat(encs)|;
    assert blob[q] == named[0] && blob[q + 1] == named[1];
    assert [] + Arguments(sig.paramTypes, vals) == Arguments(sig.paramTypes, vals);
  }

  /** The writer's encoding decodes to exactly the arguments it was built from. */
  lemma EncodedValueDecodes(c: Collaborators, sig: MethodSignature, encs: seq<seq<byte>>, vals: seq<Value>)
    requires |encs| == |vals| == |sig.paramTypes|
    requires forall i :: 0 <= i < |encs| ==> EncodesArgument(c, sig.paramTypes[i], encs[i], vals[i])
    ensures CustomAttributeValueOf(c, sig, EncodeValueBlob(encs)) == Success(CustomAttributeValue(Arguments(sig.paramTypes, vals)))
  {
    ValueRoundTrip(c, sig, encs, vals, [0, 0], []);
    assert [1, 0] + Concat(encs) + [0, 0] + [] == EncodeValueBlob(encs);
  }

  /** Once the leading arguments decode, an array parameter is rejected as such, any other non-element type as unsupported. */
  lemma BadParameterStopsDecoding(c: Collaborators, sig: MethodSignature, encs: seq<seq<byte>>, vals: seq<Value>,
                                  tail: seq<byte>)
    requires |encs| == |vals| < |sig.paramTypes|
    requires forall i :: 0 <= i < |encs| ==> EncodesArgument(c, sig.paramTypes[i], encs[i], vals[i])
    requires var t := sig.paramTypes[|encs|]; !t.PrimitiveType? && !t.EnumType?
    ensures CustomAttributeValueOf(c, sig, [1, 0] + Concat(encs) + tail)
            == if sig.paramTypes[|encs|].ArrayType? then Failure(ArrayArgument(|encs|))
               else Failure(UnsupportedElementType(|encs|))
  {
    var blob := [1, 0] + Concat(encs) + tail;
    BadParameterStopsArguments(c, sig.paramTypes, encs, vals, tail);
    assert blob[0] == 1 && blob[1] == 0;
  }

  lemma BadParameterStopsArguments(c: Collaborators, types: seq<Type>, encs: seq<seq<byte>>, vals: seq<Value>,
                                   tail: seq<byte>)
    requires |encs| == |vals| < |types|
    requires forall i :: 0 <= i < |encs| ==> EncodesArgument(c, types[i], encs[i], vals[i])
    requires var t := types[|encs|]; !t.PrimitiveType? && !t.EnumType?
    ensures var blob := [1, 0] + Concat(encs) + tail;
            FixedArguments(c, blob, 2, types, [])
            == if types[|encs|].ArrayType? then Failure(ArrayArgument(|encs|))
               else Failure(UnsupportedElementType(|encs|))
  {
    var blob := [1, 0] + Concat(encs) + tail;
    var k := |encs|;
    assert blob[2..] == Concat(encs) + tail;
    FixedArgumentsOfConcat(c, blob, 2, encs, tail, types[..k], vals, []);
    var mid := FixedArguments(c, blob, 2, types[..k], []).value;
    FixedArgumentsSplit(c, blob, 2, types[..k], types[k..], []);
    assert types[..k] + types[k..] == types;
    assert |mid.0| == k && types[k..][0] == types[k];
  }

  lemma {:induction false} FixedArgumentsSplit(c: Collaborators, data: seq<byte>, pos: nat, front: seq<Type>,
                                               back: seq<Type>, acc: seq<ArgumentValue>)
    requires pos <= |data| && FixedArguments(c, data, pos, front, acc).Success?
    ensures var mid := FixedArguments(c, data, pos, front, acc).value;
            FixedArguments(c, data, pos, front + back, acc) == FixedArguments(c, data, mid.1, back, mid.0)
    decreases |front|
  {
    if front == [] {
      assert front + back == back;
    } else {
      assert (front + back)[0] == front[0] && (front + back)[1..] == front[1..] + back;
      var elem := ReadElem(c, data, pos, front[0], |acc|).value;
      FixedArgumentsSplit(c, data, elem.1, front[1..], back, acc + [ArgumentValue(front[0], None, elem.0)]);
    }
  }

  /**
   * A single-string value is a view into the value blob: after the prolog, a compressed
   * length `len` at offset 2, the view starts right after it and spans `len` bytes, and
   * exactly a zero named-argument count follows. The constructor has one string parameter.
   */
  lemma SingleStringShape(c: Collaborators, signature: seq<byte>, blob: seq<byte>)
    requires LazyStringOf(c, signature, blob).Success?
    ensures SignatureOf(c, signature).Success? && SignatureOf(c, signature).value.paramTypes == [StringType]
    ensures var s := LazyStringOf(c, signature, blob).value;
            && s.data == blob && s.offset + s.length + 2 == |blob|
            && ReadCompressedUnsignedInt(blob, 2) == Success((s.length, s.offset))
            && blob[0] == 1 && blob[1] == 0 && blob[|blob| - 2] == 0 && blob[|blob| - 1] == 0
  {
  }

  /** Reading a single-string value back from its encoding yields a view of exactly the original bytes. */
  lemma SingleStringRoundTrip(c: Collaborators, signature: seq<byte>, ret: Option<Type>, text: seq<byte>)
    requires SignatureOf(c, signature) == Success(MethodSignature(ret, [StringType]))
    requires |text| <= 0x1FFF_FFFF
    ensures var blob := [1, 0] + EncodeCompressedUnsignedInt(|text|) + text + [0, 0];
            var r := LazyStringOf(c, signature, blob);
            && r.Success? && r.value.data == blob && r.value.offset + r.value.length <= |blob|
            && ViewBytes(r.value) == text
  {
    var e := EncodeCompressedUnsignedInt(|text|);
    var blob := [1, 0] + e + text + [0, 0];
    CompressedRoundTrip(|text|, [1, 0], text + [0, 0]);
    assert blob == [1, 0] + e + (text + [0, 0]);
    var off := 2 + |e|;
    assert blob[off..off + |text|] == text;
    assert blob[off + |text|] == 0 && blob[off + |text| + 1] == 0;
  }

  /** Only a constructor whose one parameter is the string type has a single-string value. */
  lemma SingleStringNeedsStringParameter(c: Collaborators, signature: seq<byte>, blob: seq<byte>)
    requires SignatureOf(c, signature).Success? && SignatureOf(c, signature).value.paramTypes != [StringType]
    ensures LazyStringOf(c, signature, blob) == Failure(NotSingleString)
  {
    var ps := SignatureOf(c, signature).value.paramTypes;
    if |ps| == 1 {
      assert ps == [ps[0]];
    }
  }
}
