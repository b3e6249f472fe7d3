/**
 Decoding Modbus registers into integers.  The gateway has two decoders written
 independently: the telemetry converter
 (`novena_gateway/connectors/modbus/bytes_modbus_uplink_converter.py`) and the
 commissioning check (`novena_gateway/gateway/discovery_service.py`,
 `_decode_validation_value`).  Registers are 16 bits, big-endian on the wire (section 4.2
 of the MODBUS Application Protocol Specification V1.1b3).
 */
module ModbusDecode {
  type Byte = b: int | 0 <= b < 0x100
  type Register = r: int | 0 <= r < 0x1_0000

  datatype Order = Big | Little

  /** The 16-, 32- and 64-bit integer types. */
  datatype Kind = Kind(words: nat, signed: bool)

  predicate Supported(t: Kind) { t.words in {1, 2, 4} }

  // ---------------------------------------------------------------- bytes and numbers

  /** `struct.pack('>H', r)` */
  function PackWord(r: Register): seq<Byte> { [r / 0x100, r % 0x100] }

  /** `struct.unpack('>H', b)` */
  function UnpackWord(b: seq<Byte>): Register
    requires |b| == 2
  {
    var high: int := b[0];
    high * 0x100 + b[1]
  }

  function Pack(registers: seq<Register>): (b: seq<Byte>)
    ensures |b| == 2 * |registers|
  {
    if registers == [] then [] else PackWord(registers[0]) + Pack(registers[1..])
  }

  function Reverse<T>(s: seq<T>): (r: seq<T>)
    ensures |r| == |s| && forall i :: 0 <= i < |s| ==> r[i] == s[|s| - 1 - i]
  {
    if s == [] then [] else Reverse(s[1..]) + [s[0]]
  }

  function Power256(n: nat): nat { if n == 0 then 1 else 0x100 * Power256(n - 1) }

  /** The big-endian value of the bytes. */
  function ToNat(b: seq<Byte>): nat {
    if b == [] then 0 else ToNat(b[..|b| - 1]) * 0x100 + b[|b| - 1]
  }

  /** `n` big-endian bytes of a number. */
  function FromNat(v: nat, n: nat): (b: seq<Byte>)
    ensures |b| == n
  {
    if n == 0 then [] else FromNat(v / 0x100, n - 1) + [v % 0x100]
  }

  /** Two's complement over `n` bytes, as `struct` and pymodbus read it. */
  function AsInteger(b: seq<Byte>, signed: bool): int {
    var v := ToNat(b);
    if signed && 2 * v >= Power256(|b|) then v - Power256(|b|) else v
  }

  // ---------------------------------------------------------------- the two decoders

  function SwapBytes(r: Register): Register { (r % 0x100) * 0x100 + r / 0x100 }

  function SwapAll(registers: seq<Register>): (s: seq<Register>)
    ensures |s| == |registers| && forall i :: 0 <= i < |s| ==> s[i] == SwapBytes(registers[i])
  {
    if registers == [] then [] else [SwapBytes(registers[0])] + SwapAll(registers[1..])
  }

  /** `_ordered_registers`: bytes are swapped inside every word, then the words are reversed. */
  function OrderedRegisters(registers: seq<Register>, byteOrder: Order, wordOrder: Order): (s: seq<Register>)
    ensures |s| == |registers|
  {
    var words := if byteOrder == Little then SwapAll(registers) else registers;
    if wordOrder == Little then Reverse(words) else words
  }

  /** The telemetry converter: order all registers, keep what the type needs, read it big-endian. */
  function Telemetry(registers: seq<Register>, t: Kind, byteOrder: Order, wordOrder: Order): int
    requires t.words <= |registers|
  {
    AsInteger(Pack(OrderedRegisters(registers, byteOrder, wordOrder)[..t.words]), t.signed)
  }

  datatype Decoded = Value(value: int) | NoValue | UnknownType | TooFewRegisters

  /** The commissioning check's raw value for integer types. */
  function Commissioned(values: seq<int>, t: Kind, byteOrder: Order, wordOrder: Order): Decoded {
    if values == [] then NoValue
    else if !Supported(t) then UnknownType
    else if |values| < t.words then TooFewRegisters
    else
      var words := Masked(values[..t.words]);
      var ordered := if wordOrder == Little then Reverse(words) else words;
      Value(AsInteger(CommissionedBytes(ordered, byteOrder), t.signed))
  }

  function Masked(values: seq<int>): (words: seq<Register>)
    ensures |words| == |values| && forall i :: 0 <= i < |words| ==> words[i] == values[i] % 0x1_0000
  {
    if values == [] then [] else [values[0] % 0x1_0000] + Masked(values[1..])
  }

  function CommissionedBytes(words: seq<Register>, byteOrder: Order): (b: seq<Byte>)
    ensures |b| == 2 * |words|
  {
    if words == [] then []
    else (if byteOrder == Little then Reverse(PackWord(words[0])) else PackWord(words[0]))
         + CommissionedBytes(words[1..], byteOrder)
  }

  /** `_decode_validation_value` for the integer types, step by step as the gateway runs it. */
  method DecodeValidationValue(values: seq<int>, t: Kind, byteOrder: Order, wordOrder: Order) returns (d: Decoded)
    ensures d == Commissioned(values, t, byteOrder, wordOrder)
  {
    if |values| == 0 { return NoValue; }
    if t.words !in {1, 2, 4} { return UnknownType; }
    if |values| < t.words { return TooFewRegisters; }
    var words := Masked(values[..t.words]);
    ReverseOne(words);
    if wordOrder == Little && t.words > 1 { words := Reverse(words); }
    var raw := EncodeWords(words, byteOrder);
    d := Value(AsInteger(raw, t.signed));
  }

  method EncodeWords(words: seq<Register>, byteOrder: Order) returns (raw: seq<Byte>)
    ensures raw == CommissionedBytes(words, byteOrder)
  {
    raw := [];
    for i := 0 to |words|
      invariant raw + CommissionedBytes(words[i..], byteOrder) == CommissionedBytes(words, byteOrder)
    {
      assert words[i..][1..] == words[i + 1..];
      var encoded := PackWord(words[i]);
      if byteOrder == Little { encoded := Reverse(encoded); }
      raw := raw + encoded;
    }
  }

  lemma ReverseOne<T>(s: seq<T>)
    ensures |s| <= 1 ==> Reverse(s) == s
  {
  }

  /** `_ordered_registers` as the converter runs it, through byte pairs. */
  method OrderRegisters(registers: seq<Register>, byteOrder: Order, wordOrder: Order) returns (s: seq<Register>)
    ensures s == OrderedRegisters(registers, byteOrder, wordOrder)
  {
    s := [];
    for i := 0 to |registers|
      invariant |s| == i
      invariant forall j :: 0 <= j < i ==>
                  s[j] == if byteOrder == Little then SwapBytes(registers[j]) else registers[j]
    {
      var word := PackWord(registers[i]);
      if byteOrder == Little { word := [word[1], word[0]]; }
      s := s + [UnpackWord(word)];
    }
    assert s == if byteOrder == Little then SwapAll(registers) else registers;
    if wordOrder == Little { s := Reverse(s); }
  }

  // ---------------------------------------------------------------- agreement

  lemma PackSwapped(r: Register)
    ensures PackWord(SwapBytes(r)) == Reverse(PackWord(r))
  {
    assert SwapBytes(r) / 0x100 == r % 0x100 && SwapBytes(r) % 0x100 == r / 0x100;
    assert Reverse([r / 0x100, r % 0x100]) == [r % 0x100, r / 0x100];
  }

  /** Swapping before packing and reversing the packed pairs give the same bytes. */
  lemma {:induction false} BytesAgree(words: seq<Register>, byteOrder: Order)
    ensures CommissionedBytes(words, byteOrder) == Pack(if byteOrder == Little then SwapAll(words) else words)
  {
    if words != [] {
      BytesAgree(words[1..], byteOrder);
      PackSwapped(words[0]);
      assert SwapAll(words)[1..] == SwapAll(words[1..]);
    }
  }

  lemma SwapReverse(words: seq<Register>)
    ensures SwapAll(Reverse(words)) == Reverse(SwapAll(words))
  {
    hide SwapBytes, SwapAll, Reverse;
    var n := |words|;
    var left, right := SwapAll(Reverse(words)), Reverse(SwapAll(words));
    forall i | 0 <= i < n ensures left[i] == right[i] {
      assert Reverse(words)[i] == words[n - 1 - i];
      assert SwapAll(words)[n - 1 - i] == SwapBytes(words[n - 1 - i]);
    }
  }

  lemma MaskedRegisters(registers: seq<Register>)
    ensures Masked(registers) == registers
  {
  }

  /** On exactly the registers a type needs, both decoders read the same integer. */
  lemma DecodersAgree(registers: seq<Register>, t: Kind, byteOrder: Order, wordOrder: Order)
    requires Supported(t) && |registers| == t.words
    ensures Commissioned(registers, t, byteOrder, wordOrder) == Value(Telemetry(registers, t, byteOrder, wordOrder))
  {
    MaskedRegisters(registers);
    assert registers[..t.words] == registers;
    var words := if wordOrder == Little then Reverse(registers) else registers;
    BytesAgree(words, byteOrder);
    SwapReverse(registers);
    var ordered := OrderedRegisters(registers, byteOrder, wordOrder);
    assert ordered == if byteOrder == Little then SwapAll(words) else words;
    assert ordered[..t.words] == ordered;
  }

  // ---------------------------------------------------------------- the decode is a bijection

  /** The range of an integer of `n` bytes. */
  predicate Fits(v: int, n: nat, signed: bool) {
    var p: int := Power256(n);
    if signed then -p <= 2 * v < p else 0 <= v < p
  }

  predicate InRange(v: int, t: Kind) { Fits(v, 2 * t.words, t.signed) }

  function Unpack(b: seq<Byte>): (registers: seq<Register>)
    requires |b| % 2 == 0
    ensures 2 * |registers| == |b|
  {
    if b == [] then [] else [UnpackWord(b[..2])] + Unpack(b[2..])
  }

  /** The unsigned number whose two's complement over `n` bytes is `v`. */
  function Unsigned(v: int, n: nat): int { if v < 0 then v + Power256(n) else v }

  /** The registers in which a device with these orders holds `v`. */
  function Encode(v: int, t: Kind, byteOrder: Order, wordOrder: Order): (registers: seq<Register>)
    requires InRange(v, t)
    ensures |registers| == t.words
  {
    OrderedRegisters(Unpack(FromNat(Unsigned(v, 2 * t.words), 2 * t.words)), byteOrder, wordOrder)
  }

  lemma {:induction false} ToNatBound(b: seq<Byte>)
    ensures ToNat(b) < Power256(|b|)
  {
    if b != [] { ToNatBound(b[..|b| - 1]); }
  }

  lemma {:induction false} NatRoundTrip(v: nat, n: nat)
    requires v < Power256(n)
    ensures ToNat(FromNat(v, n)) == v
  {
    if n > 0 {
      NatRoundTrip(v / 0x100, n - 1);
      var b := FromNat(v, n);
      assert b[..|b| - 1] == FromNat(v / 0x100, n - 1);
    }
  }

  lemma {:induction false} BytesRoundTrip(b: seq<Byte>)
    ensures FromNat(ToNat(b), |b|) == b
  {
    if b != [] {
      var front := b[..|b| - 1];
      BytesRoundTrip(front);
      assert ToNat(b) / 0x100 == ToNat(front) && ToNat(b) % 0x100 == b[|b| - 1];
      assert b == front + [b[|b| - 1]];
    }
  }

  lemma {:induction false} PackUnpack(b: seq<Byte>)
    requires |b| % 2 == 0
    ensures Pack(Unpack(b)) == b
  {
    if b != [] {
      PackUnpack(b[2..]);
      assert Unpack(b)[1..] == Unpack(b[2..]);
      assert PackWord(UnpackWord(b[..2])) == b[..2];
    }
  }

  lemma {:induction false} UnpackPack(registers: seq<Register>)
    ensures Unpack(Pack(registers)) == registers
  {
    if registers != [] {
      UnpackPack(registers[1..]);
      var b := Pack(registers);
      assert b[..2] == PackWord(registers[0]) && b[2..] == Pack(registers[1..]);
    }
  }

  lemma SwapTwice(r: Register)
    ensures SwapBytes(SwapBytes(r)) == r
  {
    assert SwapBytes(r) / 0x100 == r % 0x100 && SwapBytes(r) % 0x100 == r / 0x100;
  }

  /** Ordering twice restores the registers. */
  lemma OrderTwice(registers: seq<Register>, byteOrder: Order, wordOrder: Order)
    ensures OrderedRegisters(OrderedRegisters(registers, byteOrder, wordOrder), byteOrder, wordOrder) == registers
  {
    hide SwapBytes, SwapAll, Reverse;
    var once := OrderedRegisters(registers, byteOrder, wordOrder);
    var twice := OrderedRegisters(once, byteOrder, wordOrder);
    var n := |registers|;
    forall i | 0 <= i < n ensures twice[i] == registers[i] {
      SwapTwice(registers[i]);
      var j := if wordOrder == Little then n - 1 - i else i;
      assert once[j] == if byteOrder == Little then SwapBytes(registers[i]) else registers[i];
      assert twice[i] == if byteOrder == Little then SwapBytes(once[j]) else once[j];
    }
  }

  lemma IntegerRoundTrip(b: seq<Byte>, signed: bool)
    ensures Unsigned(AsInteger(b, signed), |b|) == ToNat(b)
    ensures Fits(AsInteger(b, signed), |b|, signed)
  {
    ToNatBound(b);
  }

  lemma IntegerOf(b: seq<Byte>, v: int, signed: bool)
    requires ToNat(b) == Unsigned(v, |b|) && Fits(v, |b|, signed)
    ensures AsInteger(b, signed) == v
  {
  }

  /** Every register content decodes into the type's range, and is what that value encodes to. */
  lemma EncodeInvertsDecode(registers: seq<Register>, t: Kind, byteOrder: Order, wordOrder: Order)
    requires |registers| == t.words
    ensures InRange(Telemetry(registers, t, byteOrder, wordOrder), t)
    ensures Encode(Telemetry(registers, t, byteOrder, wordOrder), t, byteOrder, wordOrder) == registers
  {
    hide OrderedRegisters, FromNat, Unpack, Pack, ToNat, AsInteger, Power256;
    var ordered := OrderedRegisters(registers, byteOrder, wordOrder);
    assert ordered[..t.words] == ordered;
    IntegerRoundTrip(Pack(ordered), t.signed);
    BytesRoundTrip(Pack(ordered));
    UnpackPack(ordered);
    OrderTwice(registers, byteOrder, wordOrder);
  }

  /** Every value of the type's range is decoded from its own encoding. */
  lemma DecodeInvertsEncode(v: int, t: Kind, byteOrder: Order, wordOrder: Order)
    requires InRange(v, t)
    ensures Telemetry(Encode(v, t, byteOrder, wordOrder), t, byteOrder, wordOrder) == v
  {
    hide OrderedRegisters, FromNat, Unpack, Pack, ToNat, AsInteger, Power256;
    var u := Unsigned(v, 2 * t.words);
    var b := FromNat(u, 2 * t.words);
    NatRoundTrip(u, 2 * t.words);
    PackUnpack(b);
    IntegerOf(b, v, t.signed);
    OrderTwice(Unpack(b), byteOrder, wordOrder);
    assert Unpack(b)[..t.words] == Unpack(b);
  }

  // ---------------------------------------------------------------- the value in figures

  /** The bytes of a register exchanged, if the byte order is little. */
  function InOrder(r: Register, byteOrder: Order): int {
    if byteOrder == Big then r else (r % 0x100) * 0x100 + r / 0x100
  }

  /** The unsigned number that the registers stand for, the most significant one first. */
  function Positional(registers: seq<Register>, byteOrder: Order): int {
    if registers == [] then 0
    else Positional(registers[..|registers| - 1], byteOrder) * 0x1_0000 + InOrder(registers[|registers| - 1], byteOrder)
  }

  lemma {:induction false} PackAppend(registers: seq<Register>, r: Register)
    ensures Pack(registers + [r]) == Pack(registers) + PackWord(r)
  {
    if registers == [] {
      assert [r][1..] == [] && PackWord(r) + [] == PackWord(r) == [] + PackWord(r);
    } else {
      assert (registers + [r])[0] == registers[0] && (registers + [r])[1..] == registers[1..] + [r];
      PackAppend(registers[1..], r);
      assert PackWord(registers[0]) + (Pack(registers[1..]) + PackWord(r)) == (PackWord(registers[0]) + Pack(registers[1..])) + PackWord(r);
    }
  }

  lemma TwoMoreBytes(b: seq<Byte>, r: Register)
    ensures ToNat(b + PackWord(r)) == ToNat(b) * 0x1_0000 + r
  {
    var high, low := r / 0x100, r % 0x100;
    var all := b + PackWord(r);
    assert all == b + [high] + [low];
    assert all[..|all| - 1] == b + [high] && (b + [high])[..|b|] == b;
    assert ToNat(b + [high]) == ToNat(b) * 0x100 + high;
  }

  lemma EmptyValue()
    ensures ToNat(Pack([])) == 0
  {
  }

  lemma OneWord(r: Register, byteOrder: Order)
    ensures (if byteOrder == Little then SwapBytes(r) else r) == InOrder(r, byteOrder)
  {
  }

  lemma {:induction false} PackedValue(registers: seq<Register>, byteOrder: Order)
    ensures ToNat(Pack(if byteOrder == Little then SwapAll(registers) else registers)) == Positional(registers, byteOrder)
    decreases |registers|
  {
    hide Pack, ToNat, SwapBytes;
    if registers == [] {
      EmptyValue();
    } else {
      var front, r := registers[..|registers| - 1], registers[|registers| - 1];
      OneWord(r, byteOrder);
      PackedValue(front, byteOrder);
      assert registers == front + [r];
      var word := if byteOrder == Little then SwapBytes(r) else r;
      var ordered := if byteOrder == Little then SwapAll(front) else front;
      assert (if byteOrder == Little then SwapAll(registers) else registers) == ordered + [word];
      PackAppend(ordered, word);
      TwoMoreBytes(Pack(ordered), word);
    }
  }

  /**
   The integer in figures: in big word order the first register is the most significant, in
   little word order the last; little byte order exchanges the bytes of each; and a signed
   number from half the range up stands for itself less the range.
   */
  lemma TelemetryInFigures(registers: seq<Register>, t: Kind, byteOrder: Order, wordOrder: Order)
    requires |registers| == t.words
    ensures var u := Positional(if wordOrder == Big then registers else Reverse(registers), byteOrder);
            var range := Power256(2 * t.words);
            Telemetry(registers, t, byteOrder, wordOrder) == if t.signed && 2 * u >= range then u - range else u
  {
    hide Pack, ToNat, Reverse, SwapBytes, Positional, Power256;
    var words := if wordOrder == Big then registers else Reverse(registers);
    PackedValue(words, byteOrder);
    SwapReverse(registers);
    var ordered := OrderedRegisters(registers, byteOrder, wordOrder);
    assert ordered == if byteOrder == Little then SwapAll(words) else words;
    assert ordered[..t.words] == ordered;
  }

  /** The ranges of the types, in figures. */
  lemma Ranges()
    ensures Power256(2) == 0x1_0000 && Power256(4) == 0x1_0000_0000 && Power256(8) == 0x1_0000_0000_0000_0000
  {
    assert Power256(1) == 0x100;
    assert Power256(3) == 0x100 * Power256(2);
    assert Power256(5) == 0x100 * Power256(4);
    assert Power256(6) == 0x100 * Power256(5);
    assert Power256(7) == 0x100 * Power256(6);
  }

  // ---------------------------------------------------------------- more registers than needed

  /** With surplus registers the telemetry decoder looks at the first ones, or for little word order at the last ones. */
  lemma TelemetryWindow(registers: seq<Register>, t: Kind, byteOrder: Order, wordOrder: Order)
    requires t.words <= |registers|
    ensures Telemetry(registers, t, byteOrder, wordOrder) ==
            Telemetry(if wordOrder == Big then registers[..t.words] else registers[|registers| - t.words..],
                      t, byteOrder, wordOrder)
  {
    hide SwapBytes, SwapAll, Reverse, Pack, AsInteger;
    var window := if wordOrder == Big then registers[..t.words] else registers[|registers| - t.words..];
    assert OrderedRegisters(registers, byteOrder, wordOrder)[..t.words]
        == OrderedRegisters(window, byteOrder, wordOrder)[..t.words];
  }

  /** The commissioning decoder always looks at the first registers. */
  lemma CommissionedWindow(registers: seq<Register>, t: Kind, byteOrder: Order, wordOrder: Order)
    requires Supported(t) && t.words <= |registers|
    ensures Commissioned(registers, t, byteOrder, wordOrder) == Commissioned(registers[..t.words], t, byteOrder, wordOrder)
  {
    hide Reverse, CommissionedBytes, AsInteger, Masked;
    assert registers[..t.words][..t.words] == registers[..t.words];
  }

  /**
   Given at least the registers the type needs, the two decoders agree exactly when the
   word order is big or the first and the last registers of that number are the same.
   */
  lemma DecodersAgreeExactly(registers: seq<Register>, t: Kind, byteOrder: Order, wordOrder: Order)
    requires Supported(t) && t.words <= |registers|
    ensures Commissioned(registers, t, byteOrder, wordOrder) == Value(Telemetry(registers, t, byteOrder, wordOrder))
       <==> wordOrder == Big || registers[..t.words] == registers[|registers| - t.words..]
  {
    var first, last := registers[..t.words], registers[|registers| - t.words..];
    TelemetryWindow(registers, t, byteOrder, wordOrder);
    DecodersAgree(first, t, byteOrder, wordOrder);
    CommissionedWindow(registers, t, byteOrder, wordOrder);
    hide Telemetry, Encode, Commissioned;
    EncodeInvertsDecode(first, t, byteOrder, wordOrder);
    EncodeInvertsDecode(last, t, byteOrder, wordOrder);
  }
}
