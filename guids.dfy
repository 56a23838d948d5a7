/**
 * GUID constants: GuidAttribute has 11 fixed arguments, a 32-bit integer, two 16-bit
 * integers and eight 8-bit integers. Each is taken as unsigned and they are packed, in
 * order, into the most and least significant 64-bit halves of the GUID.
 *
 * The halves are unsigned numbers. A field masked to its width and shifted into bits
 * no other field occupies is added rather than OR-ed in: on such disjoint bit ranges
 * the two coincide, and the arithmetic form is the one the verifier reasons about well.
 */
module Guids {
  import opened Wrappers
  import opened Metadata

  const GuidArgumentCount: nat := 11

  /** The width of the boxed integer the i-th argument is cast to: Integer, Short, Short, then Byte. */
  function GuidArgumentBits(i: nat): nat {
    if i == 0 then 32 else if i < 3 then 16 else 8
  }

  predicate GuidArgumentOk(args: seq<ArgumentValue>, i: nat) {
    i < |args| && args[i].value.VInt? && args[i].value.bits == GuidArgumentBits(i)
  }

  /** The failure of reading argument i: it is missing, or the cast to its integer box fails. */
  function GuidArgumentError(args: seq<ArgumentValue>, i: nat): Error {
    if i < |args| then WrongArgumentKind(i) else MissingArgument(i)
  }

  /** The first failing argument from i on, if any. */
  function GuidArgumentsFrom(args: seq<ArgumentValue>, i: nat): Option<Error>
    decreases GuidArgumentCount - i
  {
    if i >= GuidArgumentCount then None
    else if !GuidArgumentOk(args, i) then Some(GuidArgumentError(args, i))
    else GuidArgumentsFrom(args, i + 1)
  }

  /** 2^bits for the three widths a GUID field has. */
  function Modulus(bits: nat): nat {
    if bits == 8 then 0x100 else if bits == 16 then 0x1_0000 else 0x1_0000_0000
  }

  /**
   * `0xff..ffL & v` on a sign-extended boxed integer of width `bits`: the value itself
   * when it is not negative, and the value plus 2^bits when it is.
   */
  function Unsigned(v: int, bits: nat): (r: nat)
    ensures r < Modulus(bits)
    ensures 0 <= v < Modulus(bits) ==> r == v
    ensures v < 0 <= v + Modulus(bits) ==> r == v + Modulus(bits)
  {
    v % Modulus(bits)
  }

  /** The unsigned value of the i-th argument. */
  function Field(args: seq<ArgumentValue>, i: nat): nat
    requires GuidArgumentOk(args, i)
  {
    Unsigned(args[i].value.v, GuidArgumentBits(i))
  }

  ghost predicate GuidArgumentsOk(args: seq<ArgumentValue>) {
    forall i :: 0 <= i < GuidArgumentCount ==> GuidArgumentOk(args, i)
  }

  /** First field in the top 32 bits, then the two 16-bit fields. */
  function MostSigBits(args: seq<ArgumentValue>): nat
    requires GuidArgumentsOk(args)
  {
    Field(args, 0) * 0x1_0000_0000 + Field(args, 1) * 0x1_0000 + Field(args, 2)
  }

  /** 1 << (56 - i * 8): where the i-th byte field lands in the least significant half. */
  function ByteWeight(i: nat): (w: nat)
    requires i < 8
    ensures w > 0
  {
    if i == 0 then 0x100_0000_0000_0000 else if i == 1 then 0x1_0000_0000_0000
    else if i == 2 then 0x100_0000_0000 else if i == 3 then 0x1_0000_0000
    else if i == 4 then 0x100_0000 else if i == 5 then 0x1_0000
    else if i == 6 then 0x100 else 1
  }

  /** Eight bytes, the first one most significant. */
  function PackBytes(d: seq<nat>): nat
    requires |d| == 8
  {
    d[0] * 0x100_0000_0000_0000 + d[1] * 0x1_0000_0000_0000 + d[2] * 0x100_0000_0000
    + d[3] * 0x1_0000_0000 + d[4] * 0x100_0000 + d[5] * 0x1_0000 + d[6] * 0x100 + d[7]
  }

  /** The eight byte fields, arguments 3 to 10. */
  function ByteFields(args: seq<ArgumentValue>): (d: seq<nat>)
    requires GuidArgumentsOk(args)
    ensures |d| == 8 && forall i :: 0 <= i < 8 ==> d[i] == Field(args, 3 + i)
  {
    [Field(args, 3), Field(args, 4), Field(args, 5), Field(args, 6),
     Field(args, 7), Field(args, 8), Field(args, 9), Field(args, 10)]
  }

  function LeastSigBits(args: seq<ArgumentValue>): nat
    requires GuidArgumentsOk(args)
  {
    PackBytes(ByteFields(args))
  }

  /** The GUID an attribute value denotes, or the first argument that is not the integer expected. */
  function GuidOf(value: CustomAttributeValue): Decoded<Guid> {
    var args := value.fixedArguments;
    match GuidArgumentsFrom(args, 0)
    case Some(e) => Failure(e)
    case None =>
      GuidArgumentsFromNone(args, 0);
      Success(Guid(MostSigBits(args), LeastSigBits(args)))
  }

  lemma {:induction false} GuidArgumentsFromNone(args: seq<ArgumentValue>, i: nat)
    requires GuidArgumentsFrom(args, i).None?
    ensures forall j :: i <= j < GuidArgumentCount ==> GuidArgumentOk(args, j)
    decreases GuidArgumentCount - i
  {
    if i < GuidArgumentCount {
      GuidArgumentsFromNone(args, i + 1);
    }
  }

  /** What the first k rounds of the byte loop have accumulated. */
  function LeastSigPrefix(args: seq<ArgumentValue>, k: nat): nat
    requires k <= 8 && forall j :: 3 <= j < 3 + k ==> GuidArgumentOk(args, j)
  {
    if k == 0 then 0
    else LeastSigPrefix(args, k - 1) + Field(args, k + 2) * ByteWeight(k - 1)
  }

  lemma LeastSigPrefixComplete(args: seq<ArgumentValue>)
    requires GuidArgumentsOk(args)
    ensures LeastSigPrefix(args, 8) == LeastSigBits(args)
  {
    assert LeastSigPrefix(args, 1) == Field(args, 3) * 0x100_0000_0000_0000;
    assert LeastSigPrefix(args, 2) == LeastSigPrefix(args, 1) + Field(args, 4) * 0x1_0000_0000_0000;
    assert LeastSigPrefix(args, 3) == LeastSigPrefix(args, 2) + Field(args, 5) * 0x100_0000_0000;
    assert LeastSigPrefix(args, 4) == LeastSigPrefix(args, 3) + Field(args, 6) * 0x1_0000_0000;
    assert LeastSigPrefix(args, 5) == LeastSigPrefix(args, 4) + Field(args, 7) * 0x100_0000;
    assert LeastSigPrefix(args, 6) == LeastSigPrefix(args, 5) + Field(args, 8) * 0x1_0000;
    assert LeastSigPrefix(args, 7) == LeastSigPrefix(args, 6) + Field(args, 9) * 0x100;
  }

  method CreateGuidConstant(value: CustomAttributeValue) returns (r: Decoded<Guid>)
    ensures r == GuidOf(value)
  {
    var args := value.fixedArguments;
    if !GuidArgumentOk(args, 0) { return Failure(GuidArgumentError(args, 0)); }
    if !GuidArgumentOk(args, 1) { return Failure(GuidArgumentError(args, 1)); }
    if !GuidArgumentOk(args, 2) { return Failure(GuidArgumentError(args, 2)); }
    var a := Unsigned(args[0].value.v, 32);
    var b := Unsigned(args[1].value.v, 16);
    var c := Unsigned(args[2].value.v, 16);
    var mostSigBits := a * 0x1_0000_0000 + b * 0x1_0000 + c;
    var leastSigBits := 0;
    for i := 0 to 8
      invariant forall j :: 3 <= j < 3 + i ==> GuidArgumentOk(args, j)
      invariant GuidArgumentsFrom(args, 0) == GuidArgumentsFrom(args, 3 + i)
      invariant leastSigBits == LeastSigPrefix(args, i)
    {
      if !GuidArgumentOk(args, i + 3) { return Failure(GuidArgumentError(args, i + 3)); }
      var v := Unsigned(args[i + 3].value.v, 8);
      leastSigBits := leastSigBits + v * ByteWeight(i);
    }
    GuidArgumentsFromNone(args, 0);
    LeastSigPrefixComplete(args);
    return Success(Guid(mostSigBits, leastSigBits));
  }

  // ---------------------------------------------------------------------------------
  // Properties

  lemma {:induction false} GuidArgumentsFromAllOk(args: seq<ArgumentValue>, i: nat)
    requires GuidArgumentsOk(args)
    ensures GuidArgumentsFrom(args, i) == None
    decreases GuidArgumentCount - i
  {
    if i < GuidArgumentCount {
      GuidArgumentsFromAllOk(args, i + 1);
    }
  }

  /** A GUID is produced exactly when all eleven arguments are integers of the expected widths. */
  lemma GuidOfSucceedsIff(value: CustomAttributeValue)
    ensures GuidOf(value).Success? <==> GuidArgumentsOk(value.fixedArguments)
  {
    if GuidArgumentsOk(value.fixedArguments) {
      GuidArgumentsFromAllOk(value.fixedArguments, 0);
    }
  }

  lemma {:induction false} GuidArgumentsFromFirstBad(args: seq<ArgumentValue>, i: nat, k: nat)
    requires i <= k < GuidArgumentCount && !GuidArgumentOk(args, k)
    requires forall j :: i <= j < k ==> GuidArgumentOk(args, j)
    ensures GuidArgumentsFrom(args, i) == Some(GuidArgumentError(args, k))
    decreases k - i
  {
    if i < k {
      GuidArgumentsFromFirstBad(args, i + 1, k);
    }
  }

  /**
   * The failure names the first argument that is missing or of the wrong kind: a
   * missing one when fewer than eleven are present and all present ones are fine.
   */
  lemma FirstBadArgumentReported(value: CustomAttributeValue, k: nat)
    requires k < GuidArgumentCount && !GuidArgumentOk(value.fixedArguments, k)
    requires forall j :: 0 <= j < k ==> GuidArgumentOk(value.fixedArguments, j)
    ensures GuidOf(value) == Failure(GuidArgumentError(value.fixedArguments, k))
    ensures k >= |value.fixedArguments| ==> GuidOf(value) == Failure(MissingArgument(k))
  {
    GuidArgumentsFromFirstBad(value.fixedArguments, 0, k);
  }

  lemma DivModUnique(x: int, w: int, q: int, r: int)
    requires w > 0 && x == q * w + r && 0 <= r < w
    ensures x / w == q && x % w == r
  {
    var q', r' := x / w, x % w;
    assert x == q' * w + r';
    assert (q - q') * w == r' - r;
    if q > q' {
      MulAtLeast(q - q', w);
    } else if q < q' {
      MulAtLeast(q' - q, w);
    }
  }

  lemma {:induction false} MulAtLeast(a: int, w: int)
    requires a >= 1 && w > 0
    ensures a * w >= w
  {
    if a > 1 {
      MulAtLeast(a - 1, w);
      assert a * w == (a - 1) * w + w;
    }
  }

  /** The byte of x at weight w, when x is that byte between a high and a low part. */
  lemma DigitAt(x: int, w: int, above: int, byte: int, below: int)
    requires w > 0 && 0 <= byte < 0x100 && 0 <= below < w && x == (above * 0x100 + byte) * w + below
    ensures (x / w) % 0x100 == byte
  {
    DivModUnique(x, w, above * 0x100 + byte, below);
    DivModUnique(above * 0x100 + byte, 0x100, above, byte);
  }

  /** Byte i of the packing of eight bytes, counted from the most significant, is d[i]. */
  lemma PackBytesDigit(d: seq<nat>, i: nat)
    requires |d| == 8 && i < 8 && forall j :: 0 <= j < 8 ==> d[j] < 0x100
    ensures (PackBytes(d) / ByteWeight(i)) % 0x100 == d[i]
  {
    var x := PackBytes(d);
    var d0, d1, d2, d3, d4, d5, d6, d7 := d[0], d[1], d[2], d[3], d[4], d[5], d[6], d[7];
    if i == 0 {
      DigitAt(x, 0x100_0000_0000_0000, 0, d0,
        d1 * 0x1_0000_0000_0000 + d2 * 0x100_0000_0000 + d3 * 0x1_0000_0000 + d4 * 0x100_0000 + d5 * 0x1_0000 + d6 * 0x100 + d7);
    } else if i == 1 {
      DigitAt(x, 0x1_0000_0000_0000, d0, d1,
        d2 * 0x100_0000_0000 + d3 * 0x1_0000_0000 + d4 * 0x100_0000 + d5 * 0x1_0000 + d6 * 0x100 + d7);
    } else if i == 2 {
      DigitAt(x, 0x100_0000_0000, d0 * 0x100 + d1, d2,
        d3 * 0x1_0000_0000 + d4 * 0x100_0000 + d5 * 0x1_0000 + d6 * 0x100 + d7);
    } else if i == 3 {
      DigitAt(x, 0x1_0000_0000, d0 * 0x1_0000 + d1 * 0x100 + d2, d3,
        d4 * 0x100_0000 + d5 * 0x1_0000 + d6 * 0x100 + d7);
    } else if i == 4 {
      DigitAt(x, 0x100_0000, d0 * 0x100_0000 + d1 * 0x1_0000 + d2 * 0x100 + d3, d4,
        d5 * 0x1_0000 + d6 * 0x100 + d7);
    } else if i == 5 {
      DigitAt(x, 0x1_0000, d0 * 0x1_0000_0000 + d1 * 0x100_0000 + d2 * 0x1_0000 + d3 * 0x100 + d4, d5,
        d6 * 0x100 + d7);
    } else if i == 6 {
      DigitAt(x, 0x100, d0 * 0x100_0000_0000 + d1 * 0x1_0000_0000 + d2 * 0x100_0000 + d3 * 0x1_0000 + d4 * 0x100 + d5, d6,
        d7);
    } else {
      DigitAt(x, 1, d0 * 0x1_0000_0000_0000 + d1 * 0x100_0000_0000 + d2 * 0x1_0000_0000 + d3 * 0x100_0000 + d4 * 0x1_0000 + d5 * 0x100 + d6, d7,
        0);
    }
  }

  /**
   * Where the arguments end up: the 32-bit field in the top half of the most significant
   * bits, the two 16-bit fields below it, and byte field i at bits 56 - 8i of the least
   * significant bits; both halves fit in 64 bits.
   */
  lemma GuidLayout(value: CustomAttributeValue)
    requires GuidOf(value).Success?
    ensures var g := GuidOf(value).value; var args := value.fixedArguments;
      GuidArgumentsOk(args)
      && g.mostSigBits < 0x1_0000_0000_0000_0000 && g.leastSigBits < 0x1_0000_0000_0000_0000
      && g.mostSigBits / 0x1_0000_0000 == Field(args, 0)
      && (g.mostSigBits / 0x1_0000) % 0x1_0000 == Field(args, 1)
      && g.mostSigBits % 0x1_0000 == Field(args, 2)
      && forall i :: 0 <= i < 8 ==> (g.leastSigBits / ByteWeight(i)) % 0x100 == Field(args, 3 + i)
  {
    var args := value.fixedArguments;
    GuidArgumentsFromNone(args, 0);
    var g := GuidOf(value).value;
    var a, b, c := Field(args, 0), Field(args, 1), Field(args, 2);
    assert g.mostSigBits == (a * 0x1_0000 + b) * 0x1_0000 + c;
    DivModUnique(g.mostSigBits, 0x1_0000, a * 0x1_0000 + b, c);
    DivModUnique(a * 0x1_0000 + b, 0x1_0000, a, b);
    DivModUnique(g.mostSigBits, 0x1_0000_0000, a, b * 0x1_0000 + c);
    var d := ByteFields(args);
    forall i | 0 <= i < 8
      ensures (g.leastSigBits / ByteWeight(i)) % 0x100 == Field(args, 3 + i)
    {
      PackBytesDigit(d, i);
    }
  }

  /** Two GUID attributes that decode to the same GUID have the same unsigned fields. */
  lemma GuidFieldsDetermined(v1: CustomAttributeValue, v2: CustomAttributeValue)
    requires GuidOf(v1).Success? && GuidOf(v1) == GuidOf(v2)
    ensures GuidArgumentsOk(v1.fixedArguments) && GuidArgumentsOk(v2.fixedArguments)
    ensures forall i :: 0 <= i < GuidArgumentCount ==> Field(v1.fixedArguments, i) == Field(v2.fixedArguments, i)
  {
    GuidLayout(v1);
    GuidLayout(v2);
    var a1, a2 := v1.fixedArguments, v2.fixedArguments;
    forall i | 3 <= i < GuidArgumentCount
      ensures Field(a1, i) == Field(a2, i)
    {
      var k := i - 3;
      assert Field(a1, 3 + k) == (GuidOf(v1).value.leastSigBits / ByteWeight(k)) % 0x100;
    }
  }

  /** The argument values of GuidAttribute for {AABBCCDD-1122-3344-0001-020304050607}. */
  const ExampleGuidValues: seq<Value> :=
    [VInt(-0x5544_3323, 32), VInt(0x1122, 16), VInt(0x3344, 16),
     VInt(0, 8), VInt(1, 8), VInt(2, 8), VInt(3, 8), VInt(4, 8), VInt(5, 8), VInt(6, 8), VInt(7, 8)]

  /**
   * {AABBCCDD-1122-3344-0001-020304050607}: the negative Integer 0xAABBCCDD is read
   * unsigned, and the bytes fill the least significant half from the top down.
   */
  lemma GuidExample(value: CustomAttributeValue)
    requires |value.fixedArguments| == GuidArgumentCount
    requires forall i :: 0 <= i < GuidArgumentCount ==> value.fixedArguments[i].value == ExampleGuidValues[i]
    ensures GuidOf(value) == Success(Guid(0xAABB_CCDD_1122_3344, 0x0001_0203_0405_0607))
  {
    var args := value.fixedArguments;
    assert GuidArgumentsOk(args);
    GuidArgumentsFromAllOk(args, 0);
    assert ByteFields(args) == [0, 1, 2, 3, 4, 5, 6, 7];
  }
}
