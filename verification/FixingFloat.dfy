/**
 * Fixed-point quantisation of an array: every value becomes an integer of a few
 * bytes, rounded down or up by a random bit, and comes back within one step of
 * the grid. Values are reals.
 */
module FixingFloat {
  import opened Options
  import opened Bytes

  function Pow256(n: nat): (p: nat)
    ensures p >= 1
  {
    if n == 0 then 1 else 256 * Pow256(n - 1)
  }

  /** The number of steps of the grid: two less than the number of codes. */
  function Ratio(nbytes: nat): real
    requires 1 <= nbytes
  {
    (Pow256(nbytes) - 2) as real
  }

  lemma RatioPositive(nbytes: nat)
    requires 1 <= nbytes
    ensures Ratio(nbytes) >= 254.0
  {
  }

  function Clamp(v: real, lo: real, hi: real): real {
    if v > hi then hi else if v < lo then lo else v
  }

  // ------------------------------------------------------------- the interval

  /** Both ends may be preset by the user; the interval is measured when one is missing. */
  datatype Conf = Conf(minValue: Option<real>, maxValue: Option<real>)

  const Huge: real := 100000000000000000000.0

  /** The smallest and the largest value, within the bounds the search starts from. */
  function Least(values: seq<real>): real {
    if values == [] then Huge
    else
      var rest, v := Least(values[..|values| - 1]), values[|values| - 1];
      if v < rest then v else rest
  }

  function Largest(values: seq<real>): real {
    if values == [] then -Huge
    else
      var rest, v := Largest(values[..|values| - 1]), values[|values| - 1];
      if v > rest then v else rest
  }

  /** Symmetric if both signs occur, and never without width for an array with values. */
  function Ends(values: seq<real>): (real, real) {
    var lo, hi := Least(values), Largest(values);
    var low := if lo * hi < 0.0 && lo > -hi then -hi else lo;
    var high := if lo * hi < 0.0 && hi < -low then -low else hi;
    (low, if high == low then low + 0.000001 else high)
  }

  lemma {:induction false} EndsHold(values: seq<real>)
    ensures Least(values) <= Huge && -Huge <= Largest(values)
    ensures forall i :: 0 <= i < |values| ==> Least(values) <= values[i] <= Largest(values)
  {
    if values != [] {
      EndsHold(values[..|values| - 1]);
    }
  }

  /** The ends hold every value, apart from each other, and both signs make them symmetric. */
  lemma EndsOf(values: seq<real>)
    ensures values != [] ==> Ends(values).0 < Ends(values).1
    ensures forall i :: 0 <= i < |values| ==> Ends(values).0 <= values[i] <= Ends(values).1
    ensures values == [] ==> Ends(values).1 < Ends(values).0
    ensures (exists i :: 0 <= i < |values| && values[i] < 0.0) && (exists i :: 0 <= i < |values| && values[i] > 0.0) ==>
              Ends(values).0 == -Ends(values).1
  {
    EndsHold(values);
    SignOfProduct(Least(values), Largest(values));
    hide Least, Largest;
    if values == [] {
      assert Least(values) == Huge && Largest(values) == -Huge by { NoEnds(); }
    } else {
      assert Least(values) <= values[0] <= Largest(values);
    }
  }

  lemma {:induction false} EndsAttained(values: seq<real>)
    requires values != [] && forall i :: 0 <= i < |values| ==> -Huge < values[i] < Huge
    ensures Least(values) in values && Largest(values) in values
  {
    var front, last := values[..|values| - 1], values[|values| - 1];
    assert values == front + [last];
    if front != [] {
      EndsAttained(front);
    }
  }

  /** The interval is no wider than needed: its ends are values, or one of them is the largest absolute value. */
  lemma EndsTight(values: seq<real>)
    requires values != [] && forall i :: 0 <= i < |values| ==> -Huge < values[i] < Huge
    ensures (exists i :: 0 <= i < |values| && values[i] < 0.0) && (exists i :: 0 <= i < |values| && values[i] > 0.0) ==>
              Ends(values).1 in values || -Ends(values).1 in values
    ensures (forall i :: 0 <= i < |values| ==> values[i] >= 0.0) || (forall i :: 0 <= i < |values| ==> values[i] <= 0.0) ==>
              Ends(values).0 in values && (Ends(values).1 in values || Ends(values).1 == Ends(values).0 + 0.000001)
  {
    EndsAttained(values);
    EndsHold(values);
    SignOfProduct(Least(values), Largest(values));
    hide Least, Largest;
  }

  lemma NoEnds()
    ensures Least([]) == Huge && Largest([]) == -Huge
  {
  }

  /** Measures the interval of an array. */
  method Measure(values: seq<real>) returns (lo: real, hi: real)
    ensures (lo, hi) == Ends(values)
    ensures values != [] ==> lo < hi && forall i :: 0 <= i < |values| ==> lo <= values[i] <= hi
    ensures values == [] ==> hi < lo
    ensures (exists i :: 0 <= i < |values| && values[i] < 0.0) && (exists i :: 0 <= i < |values| && values[i] > 0.0) ==>
              lo == -hi
  {
    lo, hi := Huge, -Huge;
    assert values[..0] == [];
    for i := 0 to |values|
      invariant lo == Least(values[..i]) && hi == Largest(values[..i])
    {
      assert values[..i + 1][..i] == values[..i];
      lo := if values[i] < lo then values[i] else lo;
      hi := if values[i] > hi then values[i] else hi;
    }
    assert values[..|values|] == values;
    EndsOf(values);
    hide Least, Largest;
    if lo * hi < 0.0 {
      if lo > -hi {
        lo := -hi;
      }
      if hi < -lo {
        hi := -lo;
      }
    }
    if hi == lo {
      hi := lo + 0.000001;
    }
  }

  lemma SignOfProduct(a: real, b: real)
    ensures a * b < 0.0 <==> (a < 0.0 < b || b < 0.0 < a)
  {
    if a > 0.0 && b > 0.0 {
      assert a * b > 0.0;
    }
  }

  // ------------------------------------------------------------------ the codes

  /** The code of one value: its place on the grid rounded down, plus a random bit. */
  function CodeOf(v: real, lo: real, hi: real, nbytes: nat, bit: bool): int
    requires lo < hi && 1 <= nbytes
  {
    Scale(Clamp(v, lo, hi) - lo, hi - lo, Ratio(nbytes)).Floor + if bit then 1 else 0
  }

  function ValueOf(code: nat, lo: real, hi: real, nbytes: nat): real
    requires lo < hi && 1 <= nbytes
  {
    RatioPositive(nbytes);
    Scale(code as real, Ratio(nbytes), hi - lo) + lo
  }

  function Scale(x: real, from: real, to: real): real
    requires from > 0.0
  {
    x / from * to
  }

  function Abs(x: real): real {
    if x < 0.0 then -x else x
  }

  lemma Product(a: real, b: real)
    requires a >= 0.0 && b >= 0.0
    ensures a * b >= 0.0
  {
  }

  lemma Scaled(p: real, bin: real, r: real)
    requires bin > 0.0 && 0.0 <= p <= bin && r >= 0.0
    ensures 0.0 <= Scale(p, bin, r) <= r
  {
    var q := p / bin;
    assert 0.0 <= q <= 1.0;
    Product(q, r);
    Product(1.0 - q, r);
  }

  /** Every code fits its bytes. */
  lemma CodeFits(v: real, lo: real, hi: real, nbytes: nat, bit: bool)
    requires lo < hi && 1 <= nbytes
    ensures 0 <= CodeOf(v, lo, hi, nbytes, bit) < Pow256(nbytes)
  {
    RatioPositive(nbytes);
    Scaled(Clamp(v, lo, hi) - lo, hi - lo, Ratio(nbytes));
  }

  lemma GridStep(t: real, c: real, r: real, bin: real)
    requires bin > 0.0 && r > 0.0 && -1.0 <= c - t <= 1.0
    ensures Abs(Scale(c, r, bin) - Scale(t, r, bin)) <= bin / r
  {
    var d, step := c - t, bin / r;
    assert Scale(c, r, bin) == c * step;
    assert Scale(t, r, bin) == t * step;
    assert c * step - t * step == d * step;
    Product(1.0 - d, step);
    Product(1.0 + d, step);
  }

  lemma BackToPlace(p: real, bin: real, r: real)
    requires bin > 0.0 && r > 0.0
    ensures Scale(Scale(p, bin, r), r, bin) == p
  {
    var q := p / bin;
    assert q * r / r == q;
    assert q * bin == p;
  }

  /** The decoded value is within one step of the value, clamped to the interval. */
  lemma DecodedIsClose(v: real, lo: real, hi: real, nbytes: nat, bit: bool)
    requires lo < hi && 1 <= nbytes
    ensures CodeOf(v, lo, hi, nbytes, bit) >= 0
    ensures Ratio(nbytes) > 0.0
    ensures Abs(ValueOf(CodeOf(v, lo, hi, nbytes, bit), lo, hi, nbytes) - Clamp(v, lo, hi)) <= (hi - lo) / Ratio(nbytes)
  {
    CodeFits(v, lo, hi, nbytes, bit);
    RatioPositive(nbytes);
    hide Scale, Clamp, Ratio, Abs;
    var p, bin, r := Clamp(v, lo, hi) - lo, hi - lo, Ratio(nbytes);
    var t, c := Scale(p, bin, r), CodeOf(v, lo, hi, nbytes, bit) as real;
    GridStep(t, c, r, bin);
    BackToPlace(p, bin, r);
    assert ValueOf(CodeOf(v, lo, hi, nbytes, bit), lo, hi, nbytes) - Clamp(v, lo, hi) == Scale(c, r, bin) - Scale(t, r, bin);
  }

  /** In numbers: the error is at most a 254th, a 65534th or a 16777214th of the interval. */
  lemma ErrorInNumbers(v: real, lo: real, hi: real, nbytes: nat, bit: bool)
    requires lo < hi && 1 <= nbytes <= 3
    ensures CodeOf(v, lo, hi, nbytes, bit) >= 0
    ensures var back := ValueOf(CodeOf(v, lo, hi, nbytes, bit), lo, hi, nbytes);
            && (nbytes == 1 ==> Abs(back - Clamp(v, lo, hi)) <= (hi - lo) / 254.0)
            && (nbytes == 2 ==> Abs(back - Clamp(v, lo, hi)) <= (hi - lo) / 65534.0)
            && (nbytes == 3 ==> Abs(back - Clamp(v, lo, hi)) <= (hi - lo) / 16777214.0)
  {
    DecodedIsClose(v, lo, hi, nbytes, bit);
    assert Pow256(1) == 256 && Pow256(2) == 65536 && Pow256(3) == 16777216;
    assert Ratio(nbytes) == if nbytes == 1 then 254.0 else if nbytes == 2 then 65534.0 else 16777214.0;
    hide Abs, Clamp, CodeOf, ValueOf;
  }

  /** The ends of the interval come back exactly, if they are rounded down. */
  lemma EndsComeBack(lo: real, hi: real, nbytes: nat)
    requires lo < hi && 1 <= nbytes
    ensures CodeOf(lo, lo, hi, nbytes, false) == 0 && ValueOf(0, lo, hi, nbytes) == lo
    ensures CodeOf(hi, lo, hi, nbytes, false) == Pow256(nbytes) - 2 >= 0
    ensures ValueOf(Pow256(nbytes) - 2, lo, hi, nbytes) == hi
  {
    RatioPositive(nbytes);
    ScaleEnds(hi - lo, Ratio(nbytes));
    ScaleEnds(Ratio(nbytes), hi - lo);
    hide Scale;
    assert Ratio(nbytes).Floor == Pow256(nbytes) - 2;
  }

  lemma ScaleEnds(from: real, to: real)
    requires from > 0.0
    ensures Scale(0.0, from, to) == 0.0 && Scale(from, from, to) == to
  {
  }

  // ----------------------------------------------------------------- the bytes

  function Pack(n: nat, r: nat): seq<byte> {
    if n == 0 then [] else [(r % 256) as byte] + Pack(n - 1, r / 256)
  }

  function Unpack(b: seq<byte>): nat {
    if b == [] then 0 else b[0] as nat + 256 * Unpack(b[1..])
  }

  /** Packing and unpacking are inverse on the codes that fit. */
  lemma {:induction false} UnpackUndoesPack(n: nat, r: nat)
    requires r < Pow256(n)
    ensures |Pack(n, r)| == n && Unpack(Pack(n, r)) == r
  {
    if n > 0 {
      UnpackUndoesPack(n - 1, r / 256);
      assert Pack(n, r)[1..] == Pack(n - 1, r / 256);
    }
  }

  lemma {:induction false} PackUndoesUnpack(b: seq<byte>)
    ensures Unpack(b) < Pow256(|b|) && Pack(|b|, Unpack(b)) == b
  {
    if b != [] {
      PackUndoesUnpack(b[1..]);
      LowByte(b[0] as nat, Unpack(b[1..]));
    }
  }

  lemma LowByte(x: nat, rest: nat)
    requires x < 256
    ensures (x + 256 * rest) % 256 == x && (x + 256 * rest) / 256 == rest
  {
  }

  /** Writes the low bytes of a code. */
  method PackCode(nbytes: nat, code: nat) returns (out: seq<byte>)
    ensures out == Pack(nbytes, code)
  {
    out := [];
    var r := code;
    for j := 0 to nbytes
      invariant Pack(nbytes, code) == out + Pack(nbytes - j, r)
    {
      out := out + [(r % 256) as byte];
      r := r / 256;
    }
  }

  /** Sums the bytes, each shifted to its place. */
  method UnpackCode(b: seq<byte>) returns (r: nat)
    ensures r == Unpack(b)
  {
    r := 0;
    var shift := 1;
    for j := 0 to |b|
      invariant shift == Pow256(j) && Unpack(b) == r + shift * Unpack(b[j..])
    {
      Shifted(shift, b[j] as nat, Unpack(b[j + 1..]));
      assert b[j..][1..] == b[j + 1..];
      r := r + b[j] as nat * shift;
      shift := shift * 256;
    }
  }

  lemma Shifted(s: nat, x: nat, y: nat)
    ensures s * (x + 256 * y) == x * s + (s * 256) * y
  {
  }

  // ------------------------------------------------------------------ the array

  function EncodeAll(values: seq<real>, lo: real, hi: real, nbytes: nat, bits: seq<bool>): seq<byte>
    requires lo < hi && 1 <= nbytes && |bits| == |values|
  {
    if values == [] then []
    else
      CodeFits(values[0], lo, hi, nbytes, bits[0]);
      Pack(nbytes, CodeOf(values[0], lo, hi, nbytes, bits[0])) + EncodeAll(values[1..], lo, hi, nbytes, bits[1..])
  }

  /** Bytes after the last whole code are ignored. */
  function DecodeAll(code: seq<byte>, lo: real, hi: real, nbytes: nat): seq<real>
    requires lo < hi && 1 <= nbytes
  {
    if |code| < nbytes then []
    else [ValueOf(Unpack(code[..nbytes]), lo, hi, nbytes)] + DecodeAll(code[nbytes..], lo, hi, nbytes)
  }

  method EncodeValues(values: seq<real>, lo: real, hi: real, nbytes: nat, bits: seq<bool>) returns (code: seq<byte>)
    requires lo < hi && 1 <= nbytes && |bits| == |values|
    ensures code == EncodeAll(values, lo, hi, nbytes, bits)
  {
    code := [];
    assert values[0..] == values && bits[0..] == bits;
    for i := 0 to |values|
      invariant EncodeAll(values, lo, hi, nbytes, bits) == code + EncodeAll(values[i..], lo, hi, nbytes, bits[i..])
    {
      CodeFits(values[i], lo, hi, nbytes, bits[i]);
      var r := CodeOf(values[i], lo, hi, nbytes, bits[i]);
      var b := PackCode(nbytes, r);
      EncodeStep(values, lo, hi, nbytes, bits, i);
      code := code + b;
    }
  }

  lemma EncodeStep(values: seq<real>, lo: real, hi: real, nbytes: nat, bits: seq<bool>, i: nat)
    requires lo < hi && 1 <= nbytes && |bits| == |values| && i < |values|
    ensures CodeOf(values[i], lo, hi, nbytes, bits[i]) >= 0
    ensures EncodeAll(values[i..], lo, hi, nbytes, bits[i..])
         == Pack(nbytes, CodeOf(values[i], lo, hi, nbytes, bits[i])) + EncodeAll(values[i + 1..], lo, hi, nbytes, bits[i + 1..])
  {
    CodeFits(values[i], lo, hi, nbytes, bits[i]);
    assert values[i..][1..] == values[i + 1..] && bits[i..][1..] == bits[i + 1..];
  }

  method DecodeValues(code: seq<byte>, lo: real, hi: real, nbytes: nat) returns (values: seq<real>)
    requires lo < hi && 1 <= nbytes
    ensures values == DecodeAll(code, lo, hi, nbytes)
  {
    values := [];
    var p := 0;
    assert code[0..] == code;
    while p + nbytes <= |code|
      invariant p <= |code| && DecodeAll(code, lo, hi, nbytes) == values + DecodeAll(code[p..], lo, hi, nbytes)
    {
      var r := UnpackCode(code[p..p + nbytes]);
      assert code[p..][..nbytes] == code[p..p + nbytes] && code[p..][nbytes..] == code[p + nbytes..];
      values := values + [ValueOf(r, lo, hi, nbytes)];
      p := p + nbytes;
    }
  }

  /** As many values come back as were sent, each within one step of its clamped original. */
  lemma {:induction false} RoundTripIsClose(values: seq<real>, lo: real, hi: real, nbytes: nat, bits: seq<bool>, i: nat)
    requires lo < hi && 1 <= nbytes && |bits| == |values|
    ensures var back := DecodeAll(EncodeAll(values, lo, hi, nbytes, bits), lo, hi, nbytes);
            && |back| == |values| && Ratio(nbytes) > 0.0
            && (i < |values| ==> Abs(back[i] - Clamp(values[i], lo, hi)) <= (hi - lo) / Ratio(nbytes))
  {
    hide Abs, Clamp, CodeOf, ValueOf, Ratio, Pack, Unpack;
    RatioPositive(nbytes);
    if values != [] {
      var r := CodeOf(values[0], lo, hi, nbytes, bits[0]);
      CodeFits(values[0], lo, hi, nbytes, bits[0]);
      UnpackUndoesPack(nbytes, r);
      var rest := EncodeAll(values[1..], lo, hi, nbytes, bits[1..]);
      var code := EncodeAll(values, lo, hi, nbytes, bits);
      assert code == Pack(nbytes, r) + rest;
      assert code[..nbytes] == Pack(nbytes, r) && code[nbytes..] == rest;
      DecodedIsClose(values[0], lo, hi, nbytes, bits[0]);
      RoundTripIsClose(values[1..], lo, hi, nbytes, bits[1..], if i == 0 then 0 else i - 1);
      if 0 < i < |values| {
        assert values[i] == values[1..][i - 1];
      }
    }
  }

  // ------------------------------------------------------------------ the filter

  /** What becomes of an array: converted, a failed check, or a shift of an int by its width or more. */
  datatype Outcome<T> = Done(value: T) | CheckFailed | ShiftTooFar

  /** The number of bytes a code may have; with four or more of those allowed the shift is out of range. */
  predicate BytesAllowed(nbytes: int) {
    0 < nbytes < 8
  }

  predicate ShiftInRange(nbytes: int) {
    8 * nbytes < 32
  }

  /** Stores a number in 32 bits. */
  type Rounding = real -> real

  /** The interval that encoding works with and sends: measured and stored unless both ends were preset. */
  function Stored(values: seq<real>, conf: Conf, round: Rounding): Conf {
    if Preset(conf) then conf else Conf(Some(round(Ends(values).0)), Some(round(Ends(values).1)))
  }

  method Interval(values: seq<real>, conf: Conf, round: Rounding) returns (used: Conf)
    ensures used == Stored(values, conf, round)
  {
    hide Ends;
    used := conf;
    if conf.minValue.None? || conf.maxValue.None? {
      var lo, hi := Measure(values);
      used := Conf(Some(round(lo)), Some(round(hi)));
    }
  }

  /** How far storing moves the ends of a measured interval. */
  function Moved(values: seq<real>, round: Rounding): real {
    var lo, hi := Abs(round(Ends(values).0) - Ends(values).0), Abs(round(Ends(values).1) - Ends(values).1);
    if lo < hi then hi else lo
  }

  predicate Preset(conf: Conf) {
    conf.minValue.Some? && conf.maxValue.Some?
  }

  predicate Wide(conf: Conf) {
    Preset(conf) && conf.minValue.value < conf.maxValue.value
  }

  /**
   * Encoding fails its check exactly when the stored ends of the interval do not
   * differ in this order, whether they were preset or measured.
   */
  method Encode(values: seq<real>, conf: Conf, nbytes: int, bits: seq<bool>, round: Rounding)
    returns (code: Outcome<seq<byte>>, used: Conf)
    requires |bits| == |values|
    ensures code.ShiftTooFar? <==> 4 <= nbytes <= 7
    ensures code.Done? <==> 1 <= nbytes <= 3 && Wide(Stored(values, conf, round))
    ensures code.Done? ==>
              && used == Stored(values, conf, round)
              && code.value == EncodeAll(values, used.minValue.value, used.maxValue.value, nbytes, bits)
  {
    used := conf;
    if !BytesAllowed(nbytes) {
      return CheckFailed, used;
    }
    if !ShiftInRange(nbytes) {
      return ShiftTooFar, used;
    }
    hide Ends;
    used := Interval(values, conf, round);
    var lo, hi := used.minValue.value, used.maxValue.value;
    if hi - lo <= 0.0 {
      return CheckFailed, used;
    }
    var bytes := EncodeValues(values, lo, hi, nbytes, bits);
    code := Done(bytes);
  }

  /** An array of one value fails exactly when storing closes the gap of one millionth. */
  lemma {:induction false} ConstantInterval(values: seq<real>, v: real, conf: Conf, round: Rounding)
    requires values != [] && (forall i :: 0 <= i < |values| ==> values[i] == v) && -Huge < v < Huge && !Preset(conf)
    ensures Wide(Stored(values, conf, round)) <==> round(v) < round(v + 0.000001)
  {
    ConstantEnds(values, v);
    SignOfProduct(v, v);
  }

  lemma {:induction false} ConstantEnds(values: seq<real>, v: real)
    requires values != [] && (forall i :: 0 <= i < |values| ==> values[i] == v) && -Huge < v < Huge
    ensures Least(values) == v && Largest(values) == v
  {
    if |values| > 1 {
      ConstantEnds(values[..|values| - 1], v);
    } else {
      assert values[..0] == [];
    }
  }

  /** The decoder never measures: an interval without both ends fails its check. */
  method Decode(code: seq<byte>, conf: Conf, nbytes: int) returns (values: Outcome<seq<real>>)
    ensures values.ShiftTooFar? <==> 4 <= nbytes <= 7
    ensures values.Done? <==> 1 <= nbytes <= 3 && Wide(conf)
    ensures values.Done? ==> values.value == DecodeAll(code, conf.minValue.value, conf.maxValue.value, nbytes)
  {
    if !BytesAllowed(nbytes) {
      return CheckFailed;
    }
    if !ShiftInRange(nbytes) {
      return ShiftTooFar;
    }
    if conf.minValue.None? || conf.maxValue.None? || conf.maxValue.value - conf.minValue.value <= 0.0 {
      return CheckFailed;
    }
    var back := DecodeValues(code, conf.minValue.value, conf.maxValue.value, nbytes);
    values := Done(back);
  }

  /**
   * The decoder works with the interval that travels with the message, and then
   * fails only where the encoder did. A measured interval adds what storing its ends
   * moved them by.
   */
  method Exchange(values: seq<real>, conf: Conf, nbytes: int, bits: seq<bool>, round: Rounding)
    returns (back: Outcome<seq<real>>, used: Conf)
    requires |bits| == |values|
    ensures back.ShiftTooFar? <==> 4 <= nbytes <= 7
    ensures back.Done? <==> 1 <= nbytes <= 3 && Wide(Stored(values, conf, round))
    ensures back.Done? ==> used == Stored(values, conf, round) && |back.value| == |values| && Ratio(nbytes) > 0.0
    ensures back.Done? ==>
              var lo, hi := used.minValue.value, used.maxValue.value;
              forall i :: 0 <= i < |values| ==>
                && Abs(back.value[i] - Clamp(values[i], lo, hi)) <= (hi - lo) / Ratio(nbytes)
                && (!Preset(conf) ==> Abs(back.value[i] - values[i]) <= (hi - lo) / Ratio(nbytes) + Moved(values, round))
  {
    hide Ends;
    var code;
    code, used := Encode(values, conf, nbytes, bits, round);
    match code {
      case CheckFailed =>
        return CheckFailed, used;
      case ShiftTooFar =>
        return ShiftTooFar, used;
      case Done(bytes) =>
        back := Decode(bytes, used, nbytes);
        hide Abs, Ratio, EncodeAll, DecodeAll, Clamp, Moved;
        ghost var lo, hi := used.minValue.value, used.maxValue.value;
        forall i: nat
          ensures |back.value| == |values| && Ratio(nbytes) > 0.0
          ensures i < |values| ==> Abs(back.value[i] - Clamp(values[i], lo, hi)) <= (hi - lo) / Ratio(nbytes)
          ensures i < |values| && !Preset(conf) ==>
                    Abs(back.value[i] - values[i]) <= (hi - lo) / Ratio(nbytes) + Moved(values, round)
        {
          RoundTripIsClose(values, lo, hi, nbytes, bits, i);
          if i < |values| && !Preset(conf) {
            ClampMoves(values, round, i);
            Triangle(back.value[i], Clamp(values[i], lo, hi), values[i]);
          }
        }
    }
  }

  /** Clamping to the stored ends moves a value by no more than storing moved the ends. */
  lemma ClampMoves(values: seq<real>, round: Rounding, i: nat)
    requires i < |values|
    ensures Abs(Clamp(values[i], round(Ends(values).0), round(Ends(values).1)) - values[i]) <= Moved(values, round)
  {
    EndsOf(values);
    hide Ends;
  }

  lemma Triangle(a: real, b: real, c: real)
    ensures Abs(a - c) <= Abs(a - b) + Abs(b - c)
  {
  }
}
