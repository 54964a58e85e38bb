/**
  The byte codec of coverage sets: ascending numbers as differences, each an unsigned LEB128
  number (section 7.6 of the DWARF Debugging Information Format, version 5). Compression and
  base64 around it are inverse pairs and not modelled.
 */
module CoverageCodec {
  import opened Common

  type Byte = b: int | 0 <= b < 0x100

  datatype EncodeError = NegativeValue

  datatype DecodeError = Truncated

  // ----- Bit operations on unbounded naturals ---------------------------------------------------

  function Pow2(k: nat): (r: nat)
    ensures r >= 1
  {
    if k == 0 then 1 else 2 * Pow2(k - 1)
  }

  /** Python's bitwise or on naturals. */
  function BitOr(a: nat, b: nat): nat {
    if a == 0 then b
    else if b == 0 then a
    else (if a % 2 == 1 || b % 2 == 1 then 1 else 0) + 2 * BitOr(a / 2, b / 2)
  }

  /** Python's left shift of a natural. */
  function ShiftLeft(v: nat, k: nat): nat {
    if k == 0 then v else 2 * ShiftLeft(v, k - 1)
  }

  lemma {:induction false} OrOfDisjointBits(a: nat, v: nat, k: nat)
    requires a < Pow2(k)
    ensures BitOr(a, ShiftLeft(v, k)) == a + ShiftLeft(v, k)
  {
    if k > 0 && a > 0 && ShiftLeft(v, k) > 0 {
      OrOfDisjointBits(a / 2, v, k - 1);
    }
  }

  lemma {:induction false} ShiftAdds(v: nat, w: nat, k: nat)
    ensures ShiftLeft(v + w, k) == ShiftLeft(v, k) + ShiftLeft(w, k)
  {
    if k > 0 {
      ShiftAdds(v, w, k - 1);
    }
  }

  lemma {:induction false} ShiftByOne(v: nat, k: nat)
    ensures ShiftLeft(2 * v, k) == ShiftLeft(v, k + 1)
  {
    if k > 0 {
      ShiftByOne(v, k - 1);
    }
  }

  lemma ShiftBySeven(v: nat, k: nat)
    ensures ShiftLeft(128 * v, k) == ShiftLeft(v, k + 7)
  {
    ShiftByOne(64 * v, k);
    ShiftByOne(32 * v, k + 1);
    ShiftByOne(16 * v, k + 2);
    ShiftByOne(8 * v, k + 3);
    ShiftByOne(4 * v, k + 4);
    ShiftByOne(2 * v, k + 5);
    ShiftByOne(v, k + 6);
  }

  lemma PowerStep(k: nat)
    ensures Pow2(k + 1) == 2 * Pow2(k)
  {}

  lemma PowerBySeven(k: nat)
    ensures Pow2(k + 7) == 128 * Pow2(k)
  {
    PowerStep(k);
    PowerStep(k + 1);
    PowerStep(k + 2);
    PowerStep(k + 3);
    PowerStep(k + 4);
    PowerStep(k + 5);
    PowerStep(k + 6);
  }

  lemma {:induction false} ShiftScales(v: nat, k: nat)
    requires v < 128
    ensures ShiftLeft(v, k) + Pow2(k) <= 128 * Pow2(k)
  {
    if k > 0 {
      ShiftScales(v, k - 1);
    }
  }

  lemma ShiftBelow(v: nat, k: nat)
    requires v < 128
    ensures ShiftLeft(v, k) + Pow2(k) <= Pow2(k + 7)
  {
    ShiftScales(v, k);
    PowerBySeven(k);
  }

  // ----- One number --------------------------------------------------------------------------------

  /** Little-endian groups of seven bits; all but the last carry the high bit. */
  function Uvarint(v: nat): (r: seq<Byte>)
    ensures r != [] && r[|r| - 1] < 0x80
  {
    if v < 0x80 then [v] else [v % 0x80 + 0x80] + Uvarint(v / 0x80)
  }

  /** The number at the front of the bytes and how many bytes it takes. */
  function Parse(data: seq<Byte>): (r: Option<(nat, nat)>)
    ensures r.Some? ==> 1 <= r.value.1 <= |data|
  {
    if data == [] then None
    else if data[0] < 0x80 then Some((data[0], 1))
    else
      var rest := Parse(data[1..]);
      if rest.None? then None else Some((data[0] - 0x80 + 0x80 * rest.value.0, rest.value.1 + 1))
  }

  lemma {:induction false} ParseUvarint(v: nat, rest: seq<Byte>)
    ensures Parse(Uvarint(v) + rest) == Some((v, |Uvarint(v)|))
  {
    if v >= 0x80 {
      assert (Uvarint(v) + rest)[1..] == Uvarint(v / 0x80) + rest;
      ParseUvarint(v / 0x80, rest);
    }
  }

  // ----- The bytes of one number ---------------------------------------------------------------------

  lemma QuotientUnique(v: int, d: int, q: int, r: int)
    requires v == q * d + r && 0 <= r < d
    ensures v / d == q
  {
    var p := v / d;
    if p < q {
      ProductOrder(p + 1, q, d);
    } else if q < p {
      ProductOrder(q + 1, p, d);
    }
  }

  lemma DivideTwice(v: nat, p: nat)
    requires p >= 1
    ensures v / 128 / p == v / (128 * p)
  {
    var q := v / 128;
    var s, t := q / p, q % p;
    assert q == s * p + t;
    assert v == s * (128 * p) + (128 * t + v % 128) by {
      assert 128 * (s * p) == s * (128 * p);
    }
    QuotientUnique(v, 128 * p, s, 128 * t + v % 128);
  }

  /** What is read at the front of any bytes: up to the first byte below 0x80, seven bits from each. */
  lemma {:induction false} ParseDigits(data: seq<Byte>, i: nat)
    requires Parse(data).Some? && i < Parse(data).value.1
    ensures var (v, n) := Parse(data).value;
      v / Pow2(7 * i) % 128 == data[i] % 128 && (data[i] < 0x80 <==> i == n - 1)
  {
    if i > 0 {
      var v, rest := Parse(data).value.0, data[1..];
      ParseDigits(rest, i - 1);
      PowerBySeven(7 * (i - 1));
      DivideTwice(v, Pow2(7 * (i - 1)));
      assert v / 128 == Parse(rest).value.0;
    }
  }

  /** There is nothing in a number above the bits its bytes hold. */
  lemma {:induction false} ParseBelow(data: seq<Byte>)
    requires Parse(data).Some?
    ensures Parse(data).value.0 < Pow2(7 * Parse(data).value.1)
  {
    var n := Parse(data).value.1;
    PowerBySeven(7 * (n - 1));
    if data[0] >= 0x80 {
      ParseBelow(data[1..]);
    }
  }

  /** Byte `i` of a number holds its bits from `7 * i` on, and the high bit in all bytes but the last. */
  lemma UvarintDigits(v: nat, i: nat)
    requires i < |Uvarint(v)|
    ensures Uvarint(v)[i] == v / Pow2(7 * i) % 128 + if i < |Uvarint(v)| - 1 then 128 else 0
  {
    var data := Uvarint(v);
    ParseUvarint(v, []);
    assert data + [] == data;
    ParseDigits(data, i);
    ByteOf(data[i], v / Pow2(7 * i) % 128, i == |data| - 1);
  }

  lemma ByteOf(b: Byte, digit: int, last: bool)
    requires digit == b % 128 && (b < 0x80 <==> last)
    ensures b == digit + if last then 0 else 128
  {
  }

  /** No byte is wasted. */
  lemma {:induction false} UvarintIsShortest(v: nat)
    ensures |Uvarint(v)| > 1 ==> Uvarint(v)[|Uvarint(v)| - 1] != 0
  {
    if v >= 0x80 {
      UvarintIsShortest(v / 0x80);
    }
  }

  /** The examples of the standard. */
  lemma UvarintExamples()
    ensures Uvarint(2) == [2] && Uvarint(127) == [127]
    ensures Uvarint(128) == [0x80, 1] && Uvarint(129) == [0x81, 1] && Uvarint(12857) == [0xB9, 0x64]
  {
  }

  lemma AppendAssociates<T>(front: seq<T>, x: T, rest: seq<T>)
    ensures front + ([x] + rest) == (front + [x]) + rest
  {
  }

  lemma UvarintStep(out: seq<Byte>, v: nat)
    requires v >= 0x80
    ensures out + [v % 0x80 + 0x80] + Uvarint(v / 0x80) == out + Uvarint(v)
  {
    AppendAssociates(out, v % 0x80 + 0x80, Uvarint(v / 0x80));
  }

  /** The encoder of one number; appending a negative number to a byte array raises. */
  method EncodeUvarint(value: int) returns (r: Result<seq<Byte>, EncodeError>)
    ensures r == if value < 0 then Err(NegativeValue) else Ok(Uvarint(value))
  {
    if value < 0 {
      return Err(NegativeValue);
    }
    var v: nat := value;
    var out: seq<Byte> := [];
    while v >= 0x80
      invariant out + Uvarint(v) == Uvarint(value)
    {
      UvarintStep(out, v);
      out := out + [v % 0x80 + 0x80];
      v := v / 0x80;
    }
    r := Ok(out + [v]);
  }

  /** What parsing gives when `used` bytes already contributed `value`. */
  ghost function Extend(value: nat, shift: nat, used: nat, p: Option<(nat, nat)>): Option<(nat, nat)> {
    if p.None? then None else Some((value + ShiftLeft(p.value.0, shift), used + p.value.1))
  }

  /** One more byte moves its seven bits into the value. */
  lemma ExtendStep(value: nat, shift: nat, used: nat, data: seq<Byte>, offset: nat)
    requires offset < |data|
    ensures var more := value + ShiftLeft(data[offset] % 0x80, shift);
      Extend(value, shift, used, Parse(data[offset..])) ==
        if data[offset] < 0x80 then Some((more, used + 1))
        else Extend(more, shift + 7, used + 1, Parse(data[offset + 1..]))
  {
    assert data[offset..][1..] == data[offset + 1..];
    var rest := Parse(data[offset + 1..]);
    if data[offset] >= 0x80 && rest.Some? {
      ShiftAdds(data[offset] % 0x80, 0x80 * rest.value.0, shift);
      ShiftBySeven(rest.value.0, shift);
    }
  }

  lemma OrStep(value: nat, bits: nat, shift: nat)
    requires value < Pow2(shift) && bits < 0x80
    ensures BitOr(value, ShiftLeft(bits, shift)) == value + ShiftLeft(bits, shift) < Pow2(shift + 7)
  {
    OrOfDisjointBits(value, bits, shift);
    ShiftBelow(bits, shift);
  }

  /** The value so far and what is left at the offset make up the number that began at `start`. */
  ghost predicate Reading(data: seq<Byte>, start: nat, offset: nat, value: nat, shift: nat)
    requires start <= offset <= |data|
  {
    value < Pow2(shift) && Parse(data[start..]) == Extend(value, shift, offset - start, Parse(data[offset..]))
  }

  lemma ReadingStep(data: seq<Byte>, start: nat, offset: nat, value: nat, shift: nat)
    requires start <= offset < |data| && Reading(data, start, offset, value, shift)
    ensures var more := BitOr(value, ShiftLeft(data[offset] % 0x80, shift));
      if data[offset] < 0x80 then Parse(data[start..]) == Some((more, offset + 1 - start))
      else Reading(data, start, offset + 1, more, shift + 7)
  {
    ExtendStep(value, shift, offset - start, data, offset);
    OrStep(value, data[offset] % 0x80, shift);
  }

  /** The decoder of one number, from an offset on. */
  method DecodeUvarint(data: seq<Byte>, start: nat) returns (r: Result<(nat, nat), DecodeError>)
    requires start <= |data|
    ensures var p := Parse(data[start..]);
      r == if p.None? then Err(Truncated) else Ok((p.value.0, start + p.value.1))
  {
    var value: nat, shift: nat, offset: nat := 0, 0, start;
    while offset < |data|
      invariant start <= offset <= |data| && Reading(data, start, offset, value, shift)
      decreases |data| - offset
    {
      ReadingStep(data, start, offset, value, shift);
      var byte := data[offset];
      offset := offset + 1;
      value := BitOr(value, ShiftLeft(byte % 0x80, shift));
      if byte < 0x80 {
        return Ok((value, offset));
      }
      shift := shift + 7;
    }
    r := Err(Truncated);
  }

  // ----- Whole sets ---------------------------------------------------------------------------------

  predicate Ascending(prev: int, values: seq<int>)
    decreases |values|
  {
    values == [] || (prev <= values[0] && Ascending(values[0], values[1..]))
  }

  /** The differences, each as a number; the first one counts from zero. */
  function DeltaBytes(prev: int, values: seq<int>): seq<Byte>
    requires Ascending(prev, values)
    decreases |values|
  {
    if values == [] then [] else Uvarint(values[0] - prev) + DeltaBytes(values[0], values[1..])
  }

  /** Ascending from `prev`, in terms of the values alone. */
  lemma {:induction false} AscendingMeaning(prev: int, values: seq<int>)
    ensures Ascending(prev, values) <==>
      && (forall i :: 0 <= i < |values| ==> prev <= values[i])
      && (forall i, j :: 0 <= i < j < |values| ==> values[i] <= values[j])
    decreases |values|
  {
    if values != [] {
      var rest := values[1..];
      AscendingMeaning(values[0], rest);
      assert forall i :: 1 <= i < |values| ==> values[i] == rest[i - 1];
      assert forall i :: 0 <= i < |rest| ==> rest[i] == values[i + 1];
    }
  }

  /** One more value adds its difference to the one before, or to the start. */
  lemma {:induction false} DeltaAppend(prev: int, values: seq<int>, v: int)
    requires Ascending(prev, values) && v >= if values == [] then prev else values[|values| - 1]
    ensures Ascending(prev, values + [v]) && DeltaBytes(prev, []) == []
    ensures DeltaBytes(prev, values + [v])
         == DeltaBytes(prev, values) + Uvarint(v - if values == [] then prev else values[|values| - 1])
    decreases |values|
  {
    if values == [] {
      assert values + [v] == [v] && [v][1..] == [];
    } else {
      var one, rest := Uvarint(values[0] - prev), values[1..];
      assert (values + [v])[1..] == rest + [v];
      DeltaAppend(values[0], rest, v);
      var more := Uvarint(v - values[|values| - 1]);
      assert one + (DeltaBytes(values[0], rest) + more) == one + DeltaBytes(values[0], rest) + more;
    }
  }

  /** All numbers of a payload, added up; `None` when the last one is cut off. */
  function ParseAll(current: nat, raw: seq<Byte>): Option<seq<nat>>
    decreases |raw|
  {
    if raw == [] then Some([])
    else
      var one := Parse(raw);
      if one.None? then None
      else
        var rest := ParseAll(current + one.value.0, raw[one.value.1..]);
        if rest.None? then None else Some([current + one.value.0] + rest.value)
  }

  lemma DeltaStep(prev: int, values: seq<int>, i: nat, payload: seq<Byte>)
    requires i < |values|
    ensures Ascending(prev, values[i..]) <==> prev <= values[i] && Ascending(values[i], values[i + 1..])
    ensures Ascending(prev, values[i..]) ==>
      payload + DeltaBytes(prev, values[i..])
        == payload + Uvarint(values[i] - prev) + DeltaBytes(values[i], values[i + 1..])
  {
    assert values[i..][1..] == values[i + 1..];
    if prev <= values[i] && Ascending(values[i], values[i + 1..]) {
      var one, rest := Uvarint(values[i] - prev), DeltaBytes(values[i], values[i + 1..]);
      assert DeltaBytes(prev, values[i..]) == one + rest;
      assert payload + (one + rest) == payload + one + rest;
    }
  }

  /** The encoder of a whole set. */
  method EncodeDeltas(values: seq<int>) returns (r: Result<seq<Byte>, EncodeError>)
    ensures r.Ok? <==> Ascending(0, values)
    ensures r.Ok? <==>
      && (forall i :: 0 <= i < |values| ==> values[i] >= 0)
      && (forall i, j :: 0 <= i < j < |values| ==> values[i] <= values[j])
    ensures r.Ok? ==> r.value == DeltaBytes(0, values)
  {
    var payload: seq<Byte> := [];
    var prev: Option<int> := None;
    ghost var base := 0;
    assert values[0..] == values;
    AscendingMeaning(0, values);
    for i := 0 to |values|
      invariant base == if prev.None? then 0 else prev.value
      invariant Ascending(0, values) <==> Ascending(base, values[i..])
      invariant Ascending(0, values) ==> payload + DeltaBytes(base, values[i..]) == DeltaBytes(0, values)
    {
      DeltaStep(base, values, i, payload);
      var one := EncodeUvarint(if prev.None? then values[i] else values[i] - prev.value);
      if one.Err? {
        return Err(one.error);
      }
      payload := payload + one.value;
      prev := Some(values[i]);
      base := values[i];
    }
    r := Ok(payload);
  }

  ghost function Prepend(values: seq<nat>, rest: Option<seq<nat>>): Option<seq<nat>> {
    if rest.None? then None else Some(values + rest.value)
  }

  lemma ParseStep(values: seq<nat>, current: nat, raw: seq<Byte>, offset: nat)
    requires offset < |raw|
    ensures var p := Parse(raw[offset..]);
      Prepend(values, ParseAll(current, raw[offset..])) ==
        if p.None? then None
        else Prepend(values + [current + p.value.0], ParseAll(current + p.value.0, raw[offset + p.value.1..]))
  {
    var p := Parse(raw[offset..]);
    if p.Some? {
      var sum, end := current + p.value.0, offset + p.value.1;
      assert raw[offset..][p.value.1..] == raw[end..];
      if ParseAll(sum, raw[end..]).Some? {
        AppendAssociates(values, sum, ParseAll(sum, raw[end..]).value);
      }
    }
  }

  /** The values so far and what is left of the payload make up the whole. */
  ghost predicate Continues(raw: seq<Byte>, values: seq<nat>, current: nat, offset: nat)
    requires offset <= |raw|
  {
    ParseAll(0, raw) == Prepend(values, ParseAll(current, raw[offset..]))
  }

  lemma ContinuesBegin(raw: seq<Byte>)
    ensures Continues(raw, [], 0, 0)
  {
    assert raw[0..] == raw;
    assert forall all: seq<nat> :: [] + all == all;
  }

  lemma ContinuesStep(raw: seq<Byte>, values: seq<nat>, current: nat, offset: nat)
    requires offset < |raw| && Continues(raw, values, current, offset)
    ensures var p := Parse(raw[offset..]);
      if p.None? then ParseAll(0, raw).None?
      else Continues(raw, values + [current + p.value.0], current + p.value.0, offset + p.value.1)
  {
    ParseStep(values, current, raw, offset);
  }

  lemma ContinuesEnd(raw: seq<Byte>, values: seq<nat>, current: nat)
    requires Continues(raw, values, current, |raw|)
    ensures ParseAll(0, raw) == Some(values)
  {
    assert raw[|raw|..] == [] && values + [] == values;
  }

  /** One round of the loop: the next number, or the error. */
  method ReadNext(raw: seq<Byte>, values: seq<nat>, current: nat, offset: nat)
    returns (r: Result<(nat, nat), DecodeError>)
    requires offset < |raw| && Continues(raw, values, current, offset) && (values == [] ==> current == 0)
    ensures r.Err? ==> ParseAll(0, raw).None? && r.error == Truncated
    ensures r.Ok? ==> offset < r.value.1 <= |raw| && Continues(raw, values + [r.value.0], r.value.0, r.value.1)
  {
    ContinuesStep(raw, values, current, offset);
    var one := DecodeUvarint(raw, offset);
    if one.Err? {
      return Err(one.error);
    }
    r := Ok((if values == [] then one.value.0 else current + one.value.0, one.value.1));
  }

  /** The loop of `_decode_compact_metric`. */
  method DecodeDeltas(raw: seq<Byte>) returns (r: Result<seq<nat>, DecodeError>)
    ensures var p := ParseAll(0, raw); r == if p.None? then Err(Truncated) else Ok(p.value)
  {
    var values: seq<nat> := [];
    var current: nat, offset: nat := 0, 0;
    ContinuesBegin(raw);
    while offset < |raw|
      invariant 0 <= offset <= |raw| && (values == [] ==> current == 0)
      invariant Continues(raw, values, current, offset)
      decreases |raw| - offset
    {
      var next := ReadNext(raw, values, current, offset);
      if next.Err? {
        return Err(next.error);
      }
      current, offset := next.value.0, next.value.1;
      values := values + [current];
    }
    ContinuesEnd(raw, values, current);
    r := Ok(values);
  }

  lemma ParseFront(current: nat, v: nat, rest: seq<Byte>)
    ensures ParseAll(current, Uvarint(v) + rest) == Prepend([current + v], ParseAll(current + v, rest))
  {
    var raw := Uvarint(v) + rest;
    ParseUvarint(v, rest);
    assert raw != [] && raw[|Uvarint(v)|..] == rest;
  }

  lemma DeltaFront(prev: nat, values: seq<int>)
    requires values != [] && Ascending(prev, values)
    ensures DeltaBytes(prev, values) == Uvarint(values[0] - prev) + DeltaBytes(values[0], values[1..])
    ensures Ascending(values[0], values[1..]) && [values[0]] + values[1..] == values
  {}

  /** The main result: decoding what was encoded gives every ascending sequence of naturals back. */
  lemma {:induction false} DeltaRoundTrip(prev: nat, values: seq<int>)
    requires Ascending(prev, values)
    ensures ParseAll(prev, DeltaBytes(prev, values)) == Some(values)
    decreases |values|
  {
    if values != [] {
      DeltaFront(prev, values);
      ParseFront(prev, values[0] - prev, DeltaBytes(values[0], values[1..]));
      DeltaRoundTrip(values[0], values[1..]);
    }
  }

  /** Whatever decodes is ascending, so the encoder takes it back. */
  lemma {:induction false} DecodedIsAscending(current: nat, raw: seq<Byte>)
    ensures ParseAll(current, raw).Some? ==> Ascending(current, ParseAll(current, raw).value)
    decreases |raw|
  {
    if raw != [] && Parse(raw).Some? {
      var one := Parse(raw).value;
      DecodedIsAscending(current + one.0, raw[one.1..]);
      if ParseAll(current, raw).Some? {
        assert ParseAll(current, raw).value[1..] == ParseAll(current + one.0, raw[one.1..]).value;
      }
    }
  }

  lemma {:induction false} ParseStops(data: seq<Byte>)
    requires data != []
    ensures Parse(data).None? ==> data[|data| - 1] >= 0x80
    ensures Parse(data).Some? ==> data[Parse(data).value.1 - 1] < 0x80
  {
    if data[0] >= 0x80 && |data| > 1 {
      ParseStops(data[1..]);
    }
  }

  /** A payload is rejected exactly when its last byte announces another one. */
  lemma {:induction false} RejectedExactlyWhenTruncated(current: nat, raw: seq<Byte>)
    ensures ParseAll(current, raw).None? <==> raw != [] && raw[|raw| - 1] >= 0x80
    decreases |raw|
  {
    if raw != [] {
      ParseStops(raw);
      if Parse(raw).Some? {
        var one := Parse(raw).value;
        RejectedExactlyWhenTruncated(current + one.0, raw[one.1..]);
      }
    }
  }
}
