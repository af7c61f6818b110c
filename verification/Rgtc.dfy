/**
 The RGTC block encoder. Its partner is the decoder of the public standard (RGTC formats, Appendix
 C.1 of the OpenGL 3.3 specification), written here on the scale 0 to 255.
 */
module Rgtc {
  import Arithmetic

  type Byte = Arithmetic.Byte

  // ---------------------------------------------------------------- numbers in base 8 and base 256

  function Pow(base: nat, n: nat): nat {
    if n == 0 then 1 else base * Pow(base, n - 1)
  }

  /** The number whose digits in the given base are `digits`, least significant first. */
  function Number(base: nat, digits: seq<nat>): nat {
    if digits == [] then 0 else Number(base, digits[..|digits| - 1]) + digits[|digits| - 1] * Pow(base, |digits| - 1)
  }

  lemma {:induction false} PowPositive(base: nat, n: nat)
    requires base > 0
    ensures Pow(base, n) > 0
  {
    if n > 0 {
      PowPositive(base, n - 1);
      Arithmetic.MulMonotone(base, 1, Pow(base, n - 1));
    }
  }

  ghost predicate Digits(base: nat, digits: seq<nat>) {
    forall i :: 0 <= i < |digits| ==> digits[i] < base
  }

  lemma {:induction false} NumberBound(base: nat, digits: seq<nat>)
    requires base > 0 && Digits(base, digits)
    ensures Number(base, digits) < Pow(base, |digits|)
  {
    if digits != [] {
      var n := |digits| - 1;
      NumberBound(base, digits[..n]);
      Arithmetic.MulMonotone(Pow(base, n), digits[n] + 1, base);
      Arithmetic.MulSucc(Pow(base, n), digits[n]);
      assert digits[n] * Pow(base, n) == Pow(base, n) * digits[n];
    }
  }

  lemma DivMulAdd(x: nat, q: nat, n: nat, m: nat)
    requires n > 0
    ensures (x + q * m * n) / n == x / n + q * m
  {
    var r := x % n;
    assert (x / n + q * m) * n == (x / n) * n + q * m * n;
    Arithmetic.DivModUnique(x + q * m * n, n, x / n + q * m, r);
  }

  lemma ModMulAdd(x: nat, q: nat, n: nat)
    requires n > 0
    ensures (x + q * n) % n == x % n
  {
    assert (x / n + q) * n == (x / n) * n + q * n;
    Arithmetic.DivModUnique(x + q * n, n, x / n + q, x % n);
  }

  lemma PowSplit(base: nat, i: nat, n: nat)
    requires i < n
    ensures Pow(base, n) == Pow(base, n - i - 1) * base * Pow(base, i)
    decreases n - i
  {
    if i < n - 1 {
      PowSplit(base, i, n - 1);
      Assoc(base, Pow(base, n - i - 2), base, Pow(base, i));
    }
  }

  lemma Assoc(d: nat, a: nat, b: nat, c: nat)
    ensures d * (a * b * c) == d * a * b * c
  {
    assert d * (a * b * c) == d * (a * b) * c;
    assert d * (a * b) == d * a * b;
  }

  /** A multiple of base * p added on top does not disturb the digit at p. */
  lemma DigitBelow(low: nat, d: nat, a: nat, base: nat, p: nat)
    requires base > 0 && p > 0
    ensures ((low + d * (a * base * p)) / p) % base == (low / p) % base
  {
    Assoc(d, a, base, p);
    DivMulAdd(low, d * a, p, base);
    ModMulAdd(low / p, d * a, base);
  }

  /** Every digit can be read back: divide by its place value and take the remainder. */
  lemma {:induction false} DigitAt(base: nat, digits: seq<nat>, i: nat)
    requires base > 0 && Digits(base, digits) && i < |digits|
    ensures Pow(base, i) > 0
    ensures (Number(base, digits) / Pow(base, i)) % base == digits[i]
  {
    PowPositive(base, i);
    var n := |digits| - 1;
    var low, d, p := Number(base, digits[..n]), digits[n], Pow(base, i);
    if i == n {
      NumberBound(base, digits[..n]);
      Arithmetic.DivModUnique(low + d * p, p, d, low);
      Arithmetic.DivModUnique(d, base, 0, d);
    } else {
      DigitAt(base, digits[..n], i);
      PowSplit(base, i, n);
      DigitBelow(low, d, Pow(base, n - i - 1), base, p);
    }
  }

  /** All digits at their largest: one less than the next power. */
  lemma {:induction false} AllOnes(base: nat, digits: seq<nat>)
    requires base > 0 && forall i :: 0 <= i < |digits| ==> digits[i] == base - 1
    ensures Number(base, digits) == Pow(base, |digits|) - 1
  {
    if digits != [] {
      var n := |digits| - 1;
      AllOnes(base, digits[..n]);
      assert (base - 1) * Pow(base, n) == base * Pow(base, n) - Pow(base, n);
    }
  }

  lemma {:induction false} AllZeros(base: nat, digits: seq<nat>)
    requires forall i :: 0 <= i < |digits| ==> digits[i] == 0
    ensures Number(base, digits) == 0
  {
    if digits != [] {
      AllZeros(base, digits[..|digits| - 1]);
    }
  }

  // ---------------------------------------------------------------- the standard's decoder

  /** The 3-bit code of texel i: bits 3i to 3i + 2 of the 48-bit little-endian number in bytes 2 to 7. */
  function Code(block: seq<Byte>, i: nat): nat
    requires |block| == 8
  {
    PowPositive(8, i);
    (Number(256, block[2..8]) / Pow(8, i)) % 8
  }

  function Interpolated(red0: nat, red1: nat, code: nat): real {
    var r0, r1 := red0 as real, red1 as real;
    if code == 0 then r0
    else if code == 1 then r1
    else if red0 > red1 then ((8 - code) as real * r0 + (code - 1) as real * r1) / 7.0
    else if code == 6 then 0.0
    else if code == 7 then 255.0
    else ((6 - code) as real * r0 + (code - 1) as real * r1) / 5.0
  }

  /** The decoded value of texel i. */
  function Texel(block: seq<Byte>, i: nat): real
    requires |block| == 8
  {
    Interpolated(block[0], block[1], Code(block, i))
  }

  /** The 48-bit number, byte by byte. */
  lemma CodeBits(block: seq<Byte>, i: nat)
    requires |block| == 8
    ensures Pow(8, i) > 0
    ensures Code(block, i)
         == (block[2] + 256 * block[3] + 65536 * block[4] + 16777216 * block[5] + 4294967296 * block[6] + 1099511627776 * block[7])
            / Pow(8, i) % 8
  {
    PowPositive(8, i);
    var b := block[2..8];
    NumberBytes(b);
  }

  lemma NumberBytes(b: seq<nat>)
    requires |b| == 6
    ensures Number(256, b) == b[0] + 256 * b[1] + 65536 * b[2] + 16777216 * b[3] + 4294967296 * b[4] + 1099511627776 * b[5]
  {
    assert b == [b[0], b[1], b[2], b[3], b[4], b[5]];
    NumberAppend(256, [b[0], b[1], b[2], b[3], b[4]], b[5]);
    NumberAppend(256, [b[0], b[1], b[2], b[3]], b[4]);
    FirstBytes(b[0], b[1], b[2], b[3]);
    assert [b[0], b[1], b[2], b[3], b[4], b[5]] == [b[0], b[1], b[2], b[3], b[4]] + [b[5]];
    assert [b[0], b[1], b[2], b[3], b[4]] == [b[0], b[1], b[2], b[3]] + [b[4]];
    assert Pow(256, 4) == 4294967296;
    assert Pow(256, 5) == 1099511627776;
  }

  lemma FirstBytes(b0: nat, b1: nat, b2: nat, b3: nat)
    ensures Number(256, [b0, b1, b2, b3]) == b0 + 256 * b1 + 65536 * b2 + 16777216 * b3
  {
    NumberAppend(256, [b0, b1, b2], b3);
    NumberAppend(256, [b0, b1], b2);
    NumberAppend(256, [b0], b1);
    NumberAppend(256, [], b0);
    assert [b0, b1, b2, b3] == [b0, b1, b2] + [b3] && [b0, b1, b2] == [b0, b1] + [b2] && [b0, b1] == [b0] + [b1];
    assert [] + [b0] == [b0];
    assert Pow(256, 2) == 65536 && Pow(256, 3) == 16777216;
  }

  /** What the codes stand for: with red0 above red1 two ends and six steps between, else four steps and the two extremes. */
  lemma DecoderTable(red0: nat, red1: nat)
    ensures
      var r0, r1 := red0 as real, red1 as real;
      && Interpolated(red0, red1, 0) == r0 && Interpolated(red0, red1, 1) == r1
      && (red0 > red1 ==>
            && 7.0 * Interpolated(red0, red1, 2) == 6.0 * r0 + r1 && 7.0 * Interpolated(red0, red1, 3) == 5.0 * r0 + 2.0 * r1
            && 7.0 * Interpolated(red0, red1, 4) == 4.0 * r0 + 3.0 * r1 && 7.0 * Interpolated(red0, red1, 5) == 3.0 * r0 + 4.0 * r1
            && 7.0 * Interpolated(red0, red1, 6) == 2.0 * r0 + 5.0 * r1 && 7.0 * Interpolated(red0, red1, 7) == r0 + 6.0 * r1)
      && (red0 <= red1 ==>
            && 5.0 * Interpolated(red0, red1, 2) == 4.0 * r0 + r1 && 5.0 * Interpolated(red0, red1, 3) == 3.0 * r0 + 2.0 * r1
            && 5.0 * Interpolated(red0, red1, 4) == 2.0 * r0 + 3.0 * r1 && 5.0 * Interpolated(red0, red1, 5) == r0 + 4.0 * r1
            && Interpolated(red0, red1, 6) == 0.0 && Interpolated(red0, red1, 7) == 255.0)
  {
  }

  // ---------------------------------------------------------------- quantization

  const FIX_INDEX: seq<nat> := [1, 7, 6, 5, 4, 3, 2, 0]

  /** The code the encoder picks for value v in a block between lo and hi. */
  function CodeFor(v: nat, hi: nat, lo: nat): (code: nat)
    requires lo <= v <= hi && lo < hi
    ensures code < 8
  {
    QuotientInRange(v, hi, lo);
    FIX_INDEX[(v * 7 + ((hi - lo) / 2 - lo * 7)) / (hi - lo)]
  }

  lemma QuotientInRange(v: nat, hi: nat, lo: nat)
    requires lo <= v <= hi && lo < hi
    ensures
      var diff := hi - lo;
      var x := v * 7 + (diff / 2 - lo * 7);
      && 0 <= x && 0 <= x / diff < 8
      && -diff <= 14 * (v - lo) - 2 * ((x / diff) * diff) <= diff
  {
    var diff := hi - lo;
    var x := v * 7 + (diff / 2 - lo * 7);
    var q, r := x / diff, x % diff;
    assert q * diff + r == x && q * diff == diff * q;
    if q >= 8 {
      Arithmetic.MulMonotone(diff, 8, q);
    }
  }

  /** Decoding the chosen code gives the value back to within a fourteenth of the block's range. */
  lemma CodeForIsClose(v: nat, hi: nat, lo: nat)
    requires lo <= v <= hi && lo < hi
    ensures
      var error := 14.0 * (Interpolated(hi, lo, CodeFor(v, hi, lo)) - v as real);
      -((hi - lo) as real) <= error <= (hi - lo) as real
  {
    QuotientInRange(v, hi, lo);
    var diff := hi - lo;
    var q := (v * 7 + (diff / 2 - lo * 7)) / diff;
    InterpolatedAt(q, hi, lo);
    var e := 2 * (q * diff) - 14 * (v - lo);
    assert 14.0 * (Interpolated(hi, lo, FIX_INDEX[q]) - v as real) == e as real;
  }

  /** Seven times the decoded value, whichever of the eight codes it comes from. */
  lemma InterpolatedAt(q: nat, hi: nat, lo: nat)
    requires q < 8 && lo < hi
    ensures 7.0 * Interpolated(hi, lo, FIX_INDEX[q]) == (7 * lo + q * (hi - lo)) as real
  {
    assert FIX_INDEX[q] == if q == 0 then 1 else if q == 7 then 0 else 8 - q;
    var r0, r1 := hi as real, lo as real;
    if q == 1 { assert 7.0 * Interpolated(hi, lo, 7) == 1.0 * r0 + 6.0 * r1; }
    else if q == 2 { assert 7.0 * Interpolated(hi, lo, 6) == 2.0 * r0 + 5.0 * r1; }
    else if q == 3 { assert 7.0 * Interpolated(hi, lo, 5) == 3.0 * r0 + 4.0 * r1; }
    else if q == 4 { assert 7.0 * Interpolated(hi, lo, 4) == 4.0 * r0 + 3.0 * r1; }
    else if q == 5 { assert 7.0 * Interpolated(hi, lo, 3) == 5.0 * r0 + 2.0 * r1; }
    else if q == 6 { assert 7.0 * Interpolated(hi, lo, 2) == 6.0 * r0 + 1.0 * r1; }
  }

  // ---------------------------------------------------------------- packing

  /** a | b, bit by bit. */
  function Or(a: nat, b: nat): nat {
    if a == 0 && b == 0 then 0 else (if a % 2 == 1 || b % 2 == 1 then 1 else 0) + 2 * Or(a / 2, b / 2)
  }

  lemma {:induction false} OrZero(b: nat)
    ensures Or(0, b) == b
  {
    if b > 0 {
      OrZero(b / 2);
    }
  }

  /** Or-ing an index above the pending bits is adding it there, since they do not overlap. */
  lemma {:induction false} OrIsAdd(outbyte: nat, index: nat, shift: nat)
    requires outbyte < Pow(2, shift)
    ensures 0 <= index * Pow(2, shift) && Or(outbyte, index * Pow(2, shift)) == outbyte + index * Pow(2, shift)
  {
    Arithmetic.MulNonNegative(index, Pow(2, shift));
    if shift == 0 {
      OrZero(index);
    } else {
      var p := Pow(2, shift - 1);
      OrIsAdd(outbyte / 2, index, shift - 1);
      Doubled(index, p);
      OrEven(outbyte, index * p);
    }
  }

  lemma Doubled(index: int, p: int)
    ensures index * (2 * p) == 2 * (index * p)
  {
  }

  lemma OrEven(a: nat, high: nat)
    ensures Or(a, 2 * high) == a % 2 + 2 * Or(a / 2, high)
  {
    if a > 0 || high > 0 {
      assert 2 * high % 2 == 0 && 2 * high / 2 == high;
    }
  }

  /** outbyte | index << shift. */
  function WithIndex(outbyte: nat, index: nat, shift: nat): nat {
    Arithmetic.MulNonNegative(index, Pow(2, shift));
    Or(outbyte, index * Pow(2, shift))
  }

  lemma PowThree(n: nat)
    ensures Pow(2, n + 3) == 8 * Pow(2, n)
  {
    assert Pow(2, n + 3) == 2 * Pow(2, n + 2) == 4 * Pow(2, n + 1);
  }

  lemma PowEight(n: nat)
    ensures Pow(2, n + 8) == 256 * Pow(2, n)
  {
    PowThree(n);
    PowThree(n + 3);
    assert Pow(2, n + 8) == 2 * Pow(2, n + 7) == 4 * Pow(2, n + 6);
  }

  lemma NumberAppend(base: nat, digits: seq<nat>, d: nat)
    ensures Number(base, digits + [d]) == Number(base, digits) + d * Pow(base, |digits|)
  {
    assert (digits + [d])[..|digits|] == digits;
  }

  /** The packing loop half way: the bytes written and the pending bits spell the codes seen so far. */
  ghost predicate Packed(bytes: seq<nat>, outbyte: nat, shift: nat, codes: seq<nat>) {
    && 8 * |bytes| + shift == 3 * |codes|
    && Digits(256, bytes)
    && outbyte < Pow(2, shift)
    && Pow(256, |bytes|) * Pow(2, shift) == Pow(8, |codes|)
    && Number(256, bytes) + outbyte * Pow(256, |bytes|) == Number(8, codes)
  }

  lemma Associative(a: int, b: int, c: int)
    ensures a * (b * c) == (a * b) * c
  {
  }

  lemma Distributive(a: int, b: int, c: int)
    ensures (a + b) * c == a * c + b * c
  {
  }

  lemma RoomForIndex(s: nat, outbyte: nat, index: nat)
    requires outbyte < s && index < 8
    ensures outbyte + index * s < 8 * s
  {
    Arithmetic.MulMonotone(s, index, 7);
    assert s * index == index * s;
  }

  lemma ScaledIndex(p: nat, s: nat, n: nat, outbyte: nat, index: nat)
    requires p * s == n
    ensures p * (8 * s) == 8 * n
    ensures (outbyte + index * s) * p == outbyte * p + index * n
  {
    Associative(p, 8, s);
    Associative(8, p, s);
    Distributive(outbyte, index * s, p);
    Associative(index, s, p);
    assert s * p == p * s;
  }

  /** One more index goes above the pending bits. */
  lemma PackIndex(bytes: seq<nat>, outbyte: nat, shift: nat, codes: seq<nat>, index: nat)
    requires Packed(bytes, outbyte, shift, codes) && index < 8
    ensures Packed(bytes, WithIndex(outbyte, index, shift), shift + 3, codes + [index])
  {
    PowThree(shift);
    NumberAppend(8, codes, index);
    OrIsAdd(outbyte, index, shift);
    RoomForIndex(Pow(2, shift), outbyte, index);
    ScaledIndex(Pow(256, |bytes|), Pow(2, shift), Pow(8, |codes|), outbyte, index);
  }

  /** Eight or more pending bits give up their low byte. */
  lemma EmitByte(bytes: seq<nat>, outbyte: nat, shift: nat, codes: seq<nat>)
    requires Packed(bytes, outbyte, shift, codes) && shift >= 8
    ensures Packed(bytes + [outbyte % 256], outbyte / 256, shift - 8, codes)
  {
    PowEight(shift - 8);
    NumberAppend(256, bytes, outbyte % 256);
    var p, s, q, r := Pow(256, |bytes|), Pow(2, shift - 8), outbyte / 256, outbyte % 256;
    assert (bytes + [r])[..|bytes|] == bytes && Pow(256, |bytes| + 1) == 256 * p;
    calc {
      (256 * p) * s;
      { Associative(256, p, s); Associative(p, 256, s); }
      p * (256 * s);
    }
    calc {
      outbyte * p;
      { assert outbyte == q * 256 + r; }
      (q * 256 + r) * p;
      { Distributive(q * 256, r, p); Associative(q, 256, p); }
      q * (256 * p) + r * p;
    }
  }

  // ---------------------------------------------------------------- CompressMonoBlock

  function CodesFor(data: seq<Byte>, hi: nat, lo: nat): (codes: seq<nat>)
    requires lo < hi && forall i :: 0 <= i < |data| ==> lo <= data[i] <= hi
    ensures |codes| == |data| && Digits(8, codes)
    ensures forall i :: 0 <= i < |data| ==> codes[i] == CodeFor(data[i], hi, lo)
  {
    seq(|data|, i requires 0 <= i < |data| => CodeFor(data[i], hi, lo))
  }

  /** What the packing loop holds: the bytes written, and the bits that wait for the next byte. */
  datatype Packing = Packing(bytes: seq<Byte>, outbyte: nat, shift: nat)

  function PackStep(st: Packing, index: nat): Packing {
    var outbyte := WithIndex(st.outbyte, index, st.shift);
    if st.shift + 3 < 8 then Packing(st.bytes, outbyte, st.shift + 3)
    else Packing(st.bytes + [outbyte % 256], outbyte / 256, st.shift + 3 - 8)
  }

  function PackRun(codes: seq<nat>): Packing {
    if codes == [] then Packing([], 0, 0) else PackStep(PackRun(codes[..|codes| - 1]), codes[|codes| - 1])
  }

  /** The codes so far, three bits each, are in the bytes and in the pending bits, which are no byte yet. */
  ghost predicate IsPacked(st: Packing, codes: seq<nat>) {
    st.shift < 8 && 8 * |st.bytes| + st.shift == 3 * |codes| && Packed(st.bytes, st.outbyte, st.shift, codes)
  }

  lemma PackStepPacked(st: Packing, codes: seq<nat>, index: nat)
    requires IsPacked(st, codes) && index < 8
    ensures IsPacked(PackStep(st, index), codes + [index])
  {
    PackIndex(st.bytes, st.outbyte, st.shift, codes, index);
    if st.shift + 3 >= 8 {
      EmitByte(st.bytes, WithIndex(st.outbyte, index, st.shift), st.shift + 3, codes + [index]);
    }
  }

  lemma {:induction false} PackRunPacked(codes: seq<nat>)
    requires Digits(8, codes)
    ensures IsPacked(PackRun(codes), codes)
  {
    if codes != [] {
      var before, index := codes[..|codes| - 1], codes[|codes| - 1];
      PackRunPacked(before);
      PackStepPacked(PackRun(before), before, index);
      assert before + [index] == codes;
    }
  }

  /** Sixteen codes of three bits fill six bytes, and nothing is left over. */
  lemma PackRunIsNumber(codes: seq<nat>)
    requires |codes| == 16 && Digits(8, codes)
    ensures |PackRun(codes).bytes| == 6 && Number(256, PackRun(codes).bytes) == Number(8, codes)
  {
    PackRunPacked(codes);
    assert Pow(2, 0) == 1;
  }

  lemma PackRunNext(codes: seq<nat>, i: nat)
    requires i < |codes|
    ensures PackRun(codes[..i + 1]) == PackStep(PackRun(codes[..i]), codes[i])
  {
    assert codes[..i + 1][..i] == codes[..i];
  }

  method NextIndex(v: Byte, diff: int, bias: int, ghost hi: nat, ghost lo: nat) returns (index: nat)
    requires lo <= v <= hi && lo < hi && diff == hi - lo && bias == diff / 2 - lo * 7
    ensures index == CodeFor(v, hi, lo)
  {
    QuotientInRange(v, hi, lo);
    index := FIX_INDEX[(v * 7 + bias) / diff];
  }

  /** Bytes p + 2 on hold the packed bytes so far; nothing outside the block's index bytes has changed. */
  ghost predicate Written(now: seq<Byte>, was: seq<Byte>, p: nat, bytes: seq<Byte>) {
    && |now| == |was| && p + 8 <= |now| && |bytes| <= 6
    && now[p + 2..p + 2 + |bytes|] == bytes && now[..p + 2] == was[..p + 2] && now[p + 8..] == was[p + 8..]
  }

  method WriteByte(out: array<Byte>, p: nat, n: nat, b: Byte, ghost was: seq<Byte>, ghost bytes: seq<Byte>)
    requires Written(out[..], was, p, bytes) && |bytes| == n < 6
    modifies out
    ensures Written(out[..], was, p, bytes + [b])
  {
    ghost var before := out[..];
    out[p + 2 + n] := b;
    assert out[..] == before[p + 2 + n := b];
    assert out[..][p + 2..p + 2 + n] == before[p + 2..p + 2 + n];
  }

  /** Puts an index above the pending bits. */
  method PutIndex(outbyte: nat, shift: nat, index: nat, ghost codes: seq<nat>, ghost i: nat, ghost bytes: seq<Byte>)
    returns (outbyte': nat, shift': nat)
    requires i < |codes| && index == codes[i] && PackRun(codes[..i]) == Packing(bytes, outbyte, shift)
    ensures shift' == shift + 3
    ensures PackRun(codes[..i + 1])
         == if shift' >= 8 then Packing(bytes + [outbyte' % 256], outbyte' / 256, shift' - 8) else Packing(bytes, outbyte', shift')
  {
    PackRunNext(codes, i);
    outbyte', shift' := WithIndex(outbyte, index, shift), shift + 3;
  }

  method PackBlock(out: array<Byte>, p: nat, data: seq<Byte>, hi: nat, lo: nat)
    requires |data| == 16 && p + 8 <= out.Length && lo < hi && forall i :: 0 <= i < 16 ==> lo <= data[i] <= hi
    modifies out
    ensures Number(256, out[p + 2..p + 8]) == Number(8, CodesFor(data, hi, lo))
    ensures out[..p + 2] == old(out[..p + 2]) && out[p + 8..] == old(out[p + 8..])
  {
    var diff := hi - lo;
    var bias := diff / 2 - lo * 7;
    var outbyte: nat, shift: nat, n := 0, 0, 0;
    ghost var codes, bytes: seq<Byte> := CodesFor(data, hi, lo), [];
    for i := 0 to 16
      invariant PackRun(codes[..i]) == Packing(bytes, outbyte, shift)
      invariant shift < 8 && 8 * n + shift == 3 * i && |bytes| == n
      invariant Written(out[..], old(out[..]), p, bytes)
    {
      var index := NextIndex(data[i], diff, bias, hi, lo);
      outbyte, shift := PutIndex(outbyte, shift, index, codes, i, bytes);
      if shift >= 8 {
        WriteByte(out, p, n, outbyte % 256, old(out[..]), bytes);
        bytes := bytes + [outbyte % 256];
        n := n + 1;
        shift := shift - 8;
        outbyte := outbyte / 256;
      }
    }
    assert codes[..16] == codes;
    PackRunIsNumber(codes);
  }

  /** Every decoded texel is within a fourteenth of the block's range, and exact in a constant block. */
  ghost predicate Encodes(block: seq<Byte>, data: seq<Byte>, hi: nat, lo: nat) {
    && |block| == 8 && |data| == 16 && lo <= hi
    && hi in data && lo in data && (forall i :: 0 <= i < 16 ==> lo <= data[i] <= hi)
    && (forall i :: 0 <= i < 16 ==>
          -((hi - lo) as real) <= 14.0 * (Texel(block, i) - data[i] as real) <= (hi - lo) as real)
  }

  lemma ConstantBlock(block: seq<Byte>, data: seq<Byte>, v: Byte)
    requires |block| == 8 && |data| == 16 && forall i :: 0 <= i < 16 ==> data[i] == v
    requires block[0] == v && block[1] == v && forall k :: 2 <= k < 8 ==> block[k] == if v == 255 then 255 else 0
    ensures Encodes(block, data, v, v)
  {
    assert data[0] == v;
    var code := if v == 255 then 7 else 0;
    var codes := seq(16, _ => code);
    assert Number(256, block[2..8]) == Number(8, codes) by {
      if v == 255 {
        AllOnes(256, block[2..8]);
        AllOnes(8, codes);
        assert Pow(256, 3) == 16777216 && Pow(8, 8) == 16777216 by {
          assert Pow(256, 2) == 65536;
          assert Pow(8, 2) == 64 && Pow(8, 4) == 4096 && Pow(8, 6) == 262144;
        }
        assert Pow(256, 6) == 281474976710656 by {
          assert Pow(256, 4) == 4294967296;
        }
        assert Pow(8, 16) == 281474976710656 by {
          assert Pow(8, 10) == 1073741824;
          assert Pow(8, 12) == 68719476736;
          assert Pow(8, 14) == 4398046511104;
        }
      } else {
        AllZeros(256, block[2..8]);
        AllZeros(8, codes);
      }
    }
    forall i | 0 <= i < 16
      ensures Texel(block, i) == v as real
    {
      DigitAt(8, codes, i);
    }
  }

  lemma VariedBlock(block: seq<Byte>, data: seq<Byte>, hi: nat, lo: nat)
    requires |block| == 8 && |data| == 16 && lo < hi && hi in data && lo in data
    requires forall i :: 0 <= i < 16 ==> lo <= data[i] <= hi
    requires block[0] == hi && block[1] == lo && Number(256, block[2..8]) == Number(8, CodesFor(data, hi, lo))
    ensures Encodes(block, data, hi, lo)
  {
    var codes := CodesFor(data, hi, lo);
    forall i | 0 <= i < 16
      ensures -((hi - lo) as real) <= 14.0 * (Texel(block, i) - data[i] as real) <= (hi - lo) as real
    {
      DigitAt(8, codes, i);
      assert Code(block, i) == codes[i];
      CodeForIsClose(data[i], hi, lo);
    }
  }

  /** The six equal index bytes of a constant block. */
  method FillBlock(out: array<Byte>, p: nat, outbyte: Byte)
    requires p + 8 <= out.Length
    modifies out
    ensures forall k :: p + 2 <= k < p + 8 ==> out[k] == outbyte
    ensures out[..p + 2] == old(out[..p + 2]) && out[p + 8..] == old(out[p + 8..])
  {
    for i := 0 to 6
      invariant out[..p + 2] == old(out[..p + 2]) && out[p + 8..] == old(out[p + 8..])
      invariant forall k :: p + 2 <= k < p + 2 + i ==> out[k] == outbyte
    {
      out[p + 2 + i] := outbyte;
    }
  }

  method Range(data: array<Byte>) returns (hi: Byte, lo: Byte)
    requires data.Length == 16
    ensures hi in data[..] && lo in data[..] && forall k :: 0 <= k < 16 ==> lo <= data[k] <= hi
  {
    hi, lo := data[0], data[0];
    for i := 1 to 16
      invariant hi in data[..] && lo in data[..] && forall k :: 0 <= k < i ==> lo <= data[k] <= hi
    {
      hi := if data[i] > hi then data[i] else hi;
      lo := if data[i] < lo then data[i] else lo;
    }
  }

  /** Writes the eight bytes of a block at p, and nothing else. */
  method CompressMonoBlock(out: array<Byte>, p: nat, data: array<Byte>) returns (hi: Byte, lo: Byte)
    requires data.Length == 16 && p + 8 <= out.Length && out != data
    modifies out
    ensures Encodes(out[p..p + 8], data[..], hi, lo)
    ensures out[..p] == old(out[..p]) && out[p + 8..] == old(out[p + 8..])
  {
    hi, lo := Range(data);
    out[p], out[p + 1] := hi, lo;
    ghost var head := out[..p + 2];
    if hi == lo {
      FillBlock(out, p, if hi == 255 then 255 else 0);
      HeadKept(out[..], old(out[..]), head, p);
      ConstantBlock(out[p..p + 8], data[..], hi);
    } else {
      PackBlock(out, p, data[..], hi, lo);
      HeadKept(out[..], old(out[..]), head, p);
      assert out[p..p + 8][2..8] == out[p + 2..p + 8];
      VariedBlock(out[p..p + 8], data[..], hi, lo);
    }
  }

  lemma HeadKept(out: seq<Byte>, was: seq<Byte>, head: seq<Byte>, p: nat)
    requires p + 8 <= |out| == |was| && |head| == p + 2 && head[..p] == was[..p] && out[..p + 2] == head
    ensures out[..p] == was[..p] && out[p] == head[p] && out[p + 1] == head[p + 1]
  {
    assert out[..p] == out[..p + 2][..p];
  }
}
