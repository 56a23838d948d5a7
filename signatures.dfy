/**
 * MethodRef signatures (section II.23.2.2 of ECMA-335): a calling-convention byte, a
 * compressed parameter count, the return type and exactly that many parameter types.
 * Varargs signatures (a parameter that decodes to null) are rejected and the blob must
 * be consumed to its end.
 */
module Signatures {
  import opened Wrappers
  import opened Metadata
  import opened Blob

  /** decodeType applied to the bytes from `pos` on; it may not read beyond the blob. */
  function DecodeTypeAt(c: Collaborators, data: seq<byte>, pos: nat): (r: Decoded<(Option<Type>, nat)>)
    requires pos <= |data|
    ensures r.Success? ==> pos <= r.value.1 <= |data|
  {
    match c.decodeType(data[pos..])
    case TypeDecoded(t, width) =>
      if pos + width <= |data| then Success((t, pos + width)) else Failure(EndOfBlob(|data|))
    case TypeMalformed => Failure(MalformedType(pos))
  }

  /** Decodes `n` more parameter types from `pos` on, after the `acc` already decoded. */
  function ParamTypes(c: Collaborators, data: seq<byte>, pos: nat, n: nat, acc: seq<Type>)
    : (r: Decoded<(seq<Type>, nat)>)
    requires pos <= |data|
    ensures r.Success? ==> |r.value.0| == |acc| + n && r.value.0[..|acc|] == acc
    ensures r.Success? ==> pos <= r.value.1 <= |data|
    decreases n
  {
    if n == 0 then Success((acc, pos))
    else
      var step :- DecodeTypeAt(c, data, pos);
      if step.0.None? then Failure(VarArgSignature(|acc|))
      else ParamTypes(c, data, step.1, n - 1, acc + [step.0.value])
  }

  /** The signature a MethodRef signature blob denotes. */
  function SignatureOf(c: Collaborators, sig: seq<byte>): Decoded<MethodSignature> {
    var header :- ReadByte(sig, 0);
    var count :- ReadCompressedUnsignedInt(sig, header.1);
    var ret :- DecodeTypeAt(c, sig, count.1);
    var params :- ParamTypes(c, sig, ret.1, count.0, []);
    if params.1 != |sig| then Failure(SignatureTrailingBytes(params.1))
    else Success(MethodSignature(ret.0, params.0))
  }

  method DecodeMethodRefSignature(c: Collaborators, sig: seq<byte>) returns (r: Decoded<MethodSignature>)
    ensures r == SignatureOf(c, sig)
  {
    var header := ReadByte(sig, 0);
    if header.Failure? { return Failure(header.error); }
    var count := ReadCompressedUnsignedInt(sig, header.value.1);
    if count.Failure? { return Failure(count.error); }
    var paramCount := count.value.0;
    var returnType := DecodeTypeAt(c, sig, count.value.1);
    if returnType.Failure? { return Failure(returnType.error); }
    var pos := returnType.value.1;
    var params: seq<Type> := [];
    var i := 0;
    while i < paramCount
      invariant i <= paramCount && |params| == i
      invariant returnType.value.1 <= pos <= |sig|
      invariant ParamTypes(c, sig, pos, paramCount - i, params)
                == ParamTypes(c, sig, returnType.value.1, paramCount, [])
    {
      var t := DecodeTypeAt(c, sig, pos);
      if t.Failure? { return Failure(t.error); }
      if t.value.0.None? { return Failure(VarArgSignature(i)); }
      params := params + [t.value.0.value];
      pos := t.value.1;
      i := i + 1;
    }
    if pos != |sig| { return Failure(SignatureTrailingBytes(pos)); }
    return Success(MethodSignature(returnType.value.0, params));
  }

  /** The concatenation of a sequence of encodings. */
  function Concat(encs: seq<seq<byte>>): seq<byte> {
    if encs == [] then [] else encs[0] + Concat(encs[1..])
  }

  /** `enc` is exactly what decodeType reads to produce `t`, whatever follows it. */
  ghost predicate DecodesTo(c: Collaborators, enc: seq<byte>, t: Option<Type>) {
    forall rest :: c.decodeType(enc + rest) == TypeDecoded(t, |enc|)
  }

  /** The signature blob a writer produces from a header byte and the encodings of the types. */
  function EncodeSignature(header: byte, retEnc: seq<byte>, paramEncs: seq<seq<byte>>): seq<byte>
    requires |paramEncs| <= 0x1FFF_FFFF
  {
    [header] + EncodeCompressedUnsignedInt(|paramEncs|) + retEnc + Concat(paramEncs)
  }

  /** A parameter count read from byte 1 and the return type yield exactly that many parameters. */
  lemma SignatureHasDeclaredCount(c: Collaborators, sig: seq<byte>)
    requires SignatureOf(c, sig).Success?
    ensures ReadCompressedUnsignedInt(sig, 1).Success?
    ensures |SignatureOf(c, sig).value.paramTypes| == ReadCompressedUnsignedInt(sig, 1).value.0
  {
  }

  /** One type decoded from its exact encoding, whatever follows it. */
  lemma DecodeTypeAtEncoding(c: Collaborators, data: seq<byte>, pos: nat, enc: seq<byte>, rest: seq<byte>,
                             t: Option<Type>)
    requires pos <= |data| && data[pos..] == enc + rest
    requires DecodesTo(c, enc, t)
    ensures DecodeTypeAt(c, data, pos) == Success((t, pos + |enc|))
    ensures data[pos + |enc|..] == rest
  {
    assert c.decodeType(enc + rest) == TypeDecoded(t, |enc|);
    assert data[pos..][|enc|..] == rest;
  }

  lemma DecodesToTail(c: Collaborators, encs: seq<seq<byte>>, ts: seq<Type>)
    requires |encs| == |ts| > 0
    requires forall i :: 0 <= i < |encs| ==> DecodesTo(c, encs[i], Some(ts[i]))
    ensures forall i :: 0 <= i < |encs[1..]| ==> DecodesTo(c, encs[1..][i], Some(ts[1..][i]))
  {
    forall i | 0 <= i < |encs[1..]| ensures DecodesTo(c, encs[1..][i], Some(ts[1..][i])) {
      assert encs[1..][i] == encs[i + 1];
    }
  }

  /** Parameter types read back from their concatenated encodings. */
  lemma {:induction false} ParamTypesOfConcat(c: Collaborators, data: seq<byte>, pos: nat, encs: seq<seq<byte>>,
                                              suffix: seq<byte>, ts: seq<Type>, acc: seq<Type>)
    requires pos <= |data| && data[pos..] == Concat(encs) + suffix
    requires |encs| == |ts|
    requires forall i :: 0 <= i < |encs| ==> DecodesTo(c, encs[i], Some(ts[i]))
    ensures ParamTypes(c, data, pos, |encs|, acc) == Success((acc + ts, |data| - |suffix|))
    decreases |encs|
  {
    if encs == [] {
      assert acc + ts == acc;
    } else {
      DecodeTypeAtEncoding(c, data, pos, encs[0], Concat(encs[1..]) + suffix, Some(ts[0]));
      DecodesToTail(c, encs, ts);
      ParamTypesOfConcat(c, data, pos + |encs[0]|, encs[1..], suffix, ts[1..], acc + [ts[0]]);
      assert acc + [ts[0]] + ts[1..] == acc + ts;
    }
  }

  /** Decoding an encoded signature gives back its return and parameter types. */
  lemma SignatureRoundTrip(c: Collaborators, header: byte, retEnc: seq<byte>, ret: Option<Type>,
                           paramEncs: seq<seq<byte>>, params: seq<Type>)
    requires |paramEncs| == |params| <= 0x1FFF_FFFF
    requires DecodesTo(c, retEnc, ret)
    requires forall i :: 0 <= i < |params| ==> DecodesTo(c, paramEncs[i], Some(params[i]))
    ensures SignatureOf(c, EncodeSignature(header, retEnc, paramEncs)) == Success(MethodSignature(ret, params))
  {
    SignatureTrailer(c, header, retEnc, ret, paramEncs, params, []);
    assert EncodeSignature(header, retEnc, paramEncs) + [] == EncodeSignature(header, retEnc, paramEncs);
  }

  /** Any byte after an encoded signature is rejected; without them, decoding succeeds. */
  lemma SignatureTrailer(c: Collaborators, header: byte, retEnc: seq<byte>, ret: Option<Type>,
                         paramEncs: seq<seq<byte>>, params: seq<Type>, extra: seq<byte>)
    requires |paramEncs| == |params| <= 0x1FFF_FFFF
    requires DecodesTo(c, retEnc, ret)
    requires forall i :: 0 <= i < |params| ==> DecodesTo(c, paramEncs[i], Some(params[i]))
    ensures var enc := EncodeSignature(header, retEnc, paramEncs);
            SignatureOf(c, enc + extra)
            == if extra == [] then Success(MethodSignature(ret, params)) else Failure(SignatureTrailingBytes(|enc|))
  {
    SignatureParts(c, header, retEnc, ret, paramEncs, params, extra);
  }

  /** The count, the return type and the parameter types of an encoded signature, field by field. */
  lemma SignatureParts(c: Collaborators, header: byte, retEnc: seq<byte>, ret: Option<Type>,
                       paramEncs: seq<seq<byte>>, params: seq<Type>, extra: seq<byte>)
    requires |paramEncs| == |params| <= 0x1FFF_FFFF
    requires DecodesTo(c, retEnc, ret)
    requires forall i :: 0 <= i < |params| ==> DecodesTo(c, paramEncs[i], Some(params[i]))
    ensures var data := EncodeSignature(header, retEnc, paramEncs) + extra;
            var p2 := 1 + |EncodeCompressedUnsignedInt(|params|)|;
            && |data| == |EncodeSignature(header, retEnc, paramEncs)| + |extra|
            && ReadByte(data, 0) == Success((header, 1))
            && ReadCompressedUnsignedInt(data, 1) == Success((|params|, p2))
            && p2 + |retEnc| <= |data|
            && DecodeTypeAt(c, data, p2) == Success((ret, p2 + |retEnc|))
            && ParamTypes(c, data, p2 + |retEnc|, |params|, []) == Success((params, |data| - |extra|))
  {
    var countEnc := EncodeCompressedUnsignedInt(|params|);
    var data := EncodeSignature(header, retEnc, paramEncs) + extra;
    var tail := retEnc + Concat(paramEncs) + extra;
    assert data == [header] + countEnc + tail;
    CompressedRoundTrip(|params|, [header], tail);
    var p2 := 1 + |countEnc|;
    assert data[p2..] == retEnc + (Concat(paramEncs) + extra);
    DecodeTypeAtEncoding(c, data, p2, retEnc, Concat(paramEncs) + extra, ret);
    ParamTypesOfConcat(c, data, p2 + |retEnc|, paramEncs, extra, params, []);
    assert [] + params == params;
  }

  lemma {:induction false} ParamTypesOfVarArg(c: Collaborators, data: seq<byte>, pos: nat, encs: seq<seq<byte>>,
                                              sentinel: seq<byte>, suffix: seq<byte>, ts: seq<Type>,
                                              acc: seq<Type>, n: nat)
    requires pos <= |data| && data[pos..] == Concat(encs) + sentinel + suffix
    requires |encs| == |ts| < n
    requires forall i :: 0 <= i < |encs| ==> DecodesTo(c, encs[i], Some(ts[i]))
    requires DecodesTo(c, sentinel, None)
    ensures ParamTypes(c, data, pos, n, acc) == Failure(VarArgSignature(|acc| + |encs|))
    decreases |encs|
  {
    if encs == [] {
      DecodeTypeAtEncoding(c, data, pos, sentinel, suffix, None);
    } else {
      assert data[pos..] == encs[0] + (Concat(encs[1..]) + sentinel + suffix);
      DecodeTypeAtEncoding(c, data, pos, encs[0], Concat(encs[1..]) + sentinel + suffix, Some(ts[0]));
      DecodesToTail(c, encs, ts);
      ParamTypesOfVarArg(c, data, pos + |encs[0]|, encs[1..], sentinel, suffix, ts[1..], acc + [ts[0]], n - 1);
    }
  }

  /** A parameter that decodes to null (a varargs sentinel) makes the signature unsupported. */
  lemma VarArgSignatureRejected(c: Collaborators, header: byte, retEnc: seq<byte>, ret: Option<Type>,
                                paramEncs: seq<seq<byte>>, params: seq<Type>, sentinel: seq<byte>,
                                more: seq<seq<byte>>)
    requires |paramEncs| == |params| && |paramEncs| + 1 + |more| <= 0x1FFF_FFFF
    requires DecodesTo(c, retEnc, ret)
    requires forall i :: 0 <= i < |params| ==> DecodesTo(c, paramEncs[i], Some(params[i]))
    requires DecodesTo(c, sentinel, None)
    ensures SignatureOf(c, EncodeSignature(header, retEnc, paramEncs + [sentinel] + more))
            == Failure(VarArgSignature(|params|))
  {
    var all := paramEncs + [sentinel] + more;
    var countEnc := EncodeCompressedUnsignedInt(|all|);
    var data := EncodeSignature(header, retEnc, all);
    ConcatAppend(paramEncs, [sentinel] + more);
    ConcatAppend([sentinel], more);
    assert Concat(all) == Concat(paramEncs) + sentinel + Concat(more) by {
      assert all == paramEncs + ([sentinel] + more);
      assert Concat([sentinel]) == sentinel;
    }
    var tail := retEnc + Concat(all);
    assert data == [header] + countEnc + tail;
    CompressedRoundTrip(|all|, [header], tail);
    var p2 := 1 + |countEnc|;
    assert data[p2..] == retEnc + (Concat(paramEncs) + sentinel + Concat(more));
    DecodeTypeAtEncoding(c, data, p2, retEnc, Concat(paramEncs) + sentinel + Concat(more), ret);
    ParamTypesOfVarArg(c, data, p2 + |retEnc|, paramEncs, sentinel, Concat(more), params, [], |all|);
  }

  lemma {:induction false} ConcatAppend(a: seq<seq<byte>>, b: seq<seq<byte>>)
    ensures Concat(a + b) == Concat(a) + Concat(b)
  {
    if a == [] {
      assert a + b == b;
    } else {
      assert (a + b)[1..] == a[1..] + b;
      ConcatAppend(a[1..], b);
    }
  }

  lemma {:induction false} ParamTypesIgnoreFirstByte(c: Collaborators, s1: seq<byte>, s2: seq<byte>,
                                                     pos: nat, n: nat, acc: seq<Type>)
    requires |s1| == |s2| && 1 <= pos <= |s1| && s1[1..] == s2[1..]
    ensures ParamTypes(c, s1, pos, n, acc) == ParamTypes(c, s2, pos, n, acc)
    decreases n
  {
    assert s1[pos..] == s1[1..][pos - 1..] == s2[pos..];
    if n > 0 {
      var step := DecodeTypeAt(c, s1, pos);
      if step.Success? && step.value.0.Some? {
        ParamTypesIgnoreFirstByte(c, s1, s2, step.value.1, n - 1, acc + [step.value.0.value]);
      }
    }
  }

  /** The calling-convention byte is skipped, not interpreted: it never changes the decoded signature. */
  lemma HeaderByteIgnored(c: Collaborators, h1: byte, h2: byte, rest: seq<byte>)
    ensures SignatureOf(c, [h1] + rest) == SignatureOf(c, [h2] + rest)
  {
    var s1, s2 := [h1] + rest, [h2] + rest;
    assert s1[1..] == rest == s2[1..];
    var count := ReadCompressedUnsignedInt(s1, 1);
    if rest != [] {
      assert s1[1] == s2[1];
      if count.Success? {
        assert forall k :: 1 <= k < |s1| ==> s1[k] == s2[k] by {
          forall k | 1 <= k < |s1| ensures s1[k] == s2[k] { assert s1[k] == rest[k - 1] == s2[k]; }
        }
        assert ReadCompressedUnsignedInt(s2, 1) == count;
        var p2 := count.value.1;
        assert s1[p2..] == rest[p2 - 1..] == s2[p2..];
        var ret := DecodeTypeAt(c, s1, p2);
        if ret.Success? {
          ParamTypesIgnoreFirstByte(c, s1, s2, ret.value.1, count.value.0, []);
        }
      }
    }
  }
}
