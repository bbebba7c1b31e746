/**
 The protobuf wire format as the reader of console/src/lib/otlp.ts takes it apart: varints of at most
 ten bytes, tags, and the payloads of four wire types. `None` is an `OtlpError`.
 */
module Protobuf {
  import opened Arithmetic
  import opened Basics

  type byte = x: int | 0 <= x < 256

  datatype Payload = VarintP(value: nat) | Fixed64P(octets: seq<byte>) | BytesP(octets: seq<byte>) | Fixed32P(octets: seq<byte>)

  datatype Field = Field(number: nat, payload: Payload)

  // ---------------------------------------------------------------- numbers

  function Unit(n: nat): nat
    ensures Unit(n) > 0
  {
    if n < SAFE then 1 else 2 * Unit(n / 2)
  }

  /** `Number` of a non-negative BigInt: the nearest double, ties to even. */
  function Number(n: nat): nat {
    var unit := Unit(n);
    var q, r := n / unit, n % unit;
    if 2 * r < unit || (2 * r == unit && q % 2 == 0) then q * unit else (q + 1) * unit
  }

  lemma {:induction false} NumberExact(n: nat)
    requires n <= SAFE
    ensures Number(n) == n
  {
    if n == SAFE {
      assert Unit(n / 2) == 1 && Unit(n) == 2;
    } else {
      assert n / 1 == n && n % 1 == 0;
    }
  }

  function LittleEndian(s: seq<byte>): nat {
    if s == [] then 0 else s[0] + 256 * LittleEndian(s[1..])
  }

  // ---------------------------------------------------------------- reading

  /** A varint of at most `n` more bytes, the first of them worth `scale`. */
  function VarintFrom(s: seq<byte>, n: nat, scale: nat, acc: nat): Option<(nat, seq<byte>)> {
    if n == 0 || s == [] then None
    else if s[0] < 128 then Some((acc + s[0] * scale, s[1..]))
    else VarintFrom(s[1..], n - 1, scale * 128, acc + (s[0] - 128) * scale)
  }

  /** How many bytes of these a varint may take. */
  function VarintLimit(s: seq<byte>): nat {
    if |s| < 10 then |s| else 10
  }

  function Varint(s: seq<byte>): Option<(nat, seq<byte>)> {
    VarintFrom(s, VarintLimit(s), 1, 0)
  }

  function Take(s: seq<byte>, length: nat): Option<(seq<byte>, seq<byte>)> {
    if length > |s| then None else Some((s[..length], s[length..]))
  }

  function Delimited(s: seq<byte>): Option<(seq<byte>, seq<byte>)> {
    match Varint(s)
    case None => None
    case Some((length, rest)) => Take(rest, Number(length))
  }

  function ReadPayload(s: seq<byte>, wire: nat): Option<(Payload, seq<byte>)> {
    match wire
    case 0 => (match Varint(s) case None => None case Some((v, rest)) => Some((VarintP(v), rest)))
    case 1 => (match Take(s, 8) case None => None case Some((octets, rest)) => Some((Fixed64P(octets), rest)))
    case 2 => (match Delimited(s) case None => None case Some((octets, rest)) => Some((BytesP(octets), rest)))
    case 5 => (match Take(s, 4) case None => None case Some((octets, rest)) => Some((Fixed32P(octets), rest)))
    case _ => None
  }

  /** `tag >>> 3` and `tag & 7` of the tag as a 32-bit number. */
  function FieldNumber(tag: nat): nat {
    tag % 0x1_0000_0000 / 8
  }

  function ReadField(s: seq<byte>): Option<(Field, seq<byte>)> {
    match Varint(s)
    case None => None
    case Some((v, rest)) =>
      var tag := Number(v);
      match ReadPayload(rest, tag % 8)
      case None => None
      case Some((payload, after)) => Some((Field(FieldNumber(tag), payload), after))
  }

  lemma {:induction false} VarintConsumes(s: seq<byte>, n: nat, scale: nat, acc: nat)
    ensures VarintFrom(s, n, scale, acc).Some? ==> |VarintFrom(s, n, scale, acc).value.1| < |s|
    decreases n
  {
    if n > 0 && s != [] && s[0] >= 128 {
      VarintConsumes(s[1..], n - 1, scale * 128, acc + (s[0] - 128) * scale);
    }
  }

  lemma {:induction false} PayloadConsumes(s: seq<byte>, wire: nat)
    ensures ReadPayload(s, wire).Some? ==> |ReadPayload(s, wire).value.1| <= |s|
  {
    VarintConsumes(s, VarintLimit(s), 1, 0);
  }

  lemma {:induction false} FieldConsumes(s: seq<byte>)
    ensures ReadField(s).Some? ==> |ReadField(s).value.1| < |s|
  {
    VarintConsumes(s, VarintLimit(s), 1, 0);
    if Varint(s).Some? {
      PayloadConsumes(Varint(s).value.1, Number(Varint(s).value.0) % 8);
    }
  }

  /** `eachField`: every field of a message in turn changes the state, or fails. */
  function FoldFields<S>(s: seq<byte>, state: S, step: (S, Field) -> Option<S>): Option<S>
    decreases |s|
  {
    if s == [] then Some(state)
    else
      FieldConsumes(s);
      match ReadField(s)
      case None => None
      case Some((f, rest)) =>
        match step(state, f)
        case None => None
        case Some(next) => FoldFields(rest, next, step)
  }

  // ---------------------------------------------------------------- writing

  function WriteVarint(v: nat): seq<byte> {
    if v < 128 then [v] else [v % 128 + 128] + WriteVarint(v / 128)
  }

  function Wire(p: Payload): nat {
    match p
    case VarintP(_) => 0
    case Fixed64P(_) => 1
    case BytesP(_) => 2
    case Fixed32P(_) => 5
  }

  function WritePayload(p: Payload): seq<byte> {
    match p
    case VarintP(v) => WriteVarint(v)
    case Fixed64P(octets) => octets
    case BytesP(octets) => WriteVarint(|octets|) + octets
    case Fixed32P(octets) => octets
  }

  function WriteField(f: Field): seq<byte> {
    WriteVarint(f.number * 8 + Wire(f.payload)) + WritePayload(f.payload)
  }

  function WriteFields(fs: seq<Field>): seq<byte> {
    if fs == [] then [] else WriteField(fs[0]) + WriteFields(fs[1..])
  }

  /** A field protobuf allows: a 29-bit number, a 64-bit varint, a length a buffer can have. */
  predicate WellFormed(f: Field) {
    && f.number < 0x2000_0000
    && match f.payload
       case VarintP(v) => v < 0x1_0000_0000_0000_0000
       case Fixed64P(octets) => |octets| == 8
       case BytesP(octets) => |octets| < SAFE
       case Fixed32P(octets) => |octets| == 4
  }

  lemma {:induction false} Groups(v: nat, scale: nat)
    ensures (v % 128) * scale + (v / 128) * (scale * 128) == v * scale
  {
    assert v == v % 128 + 128 * (v / 128);
    assert (v / 128) * (scale * 128) == (128 * (v / 128)) * scale;
  }

  lemma {:induction false} VarintRoundTrip(v: nat, tail: seq<byte>, n: nat, scale: nat, acc: nat)
    requires |WriteVarint(v)| <= n
    ensures VarintFrom(WriteVarint(v) + tail, n, scale, acc) == Some((acc + v * scale, tail))
    decreases n
  {
    var s := WriteVarint(v) + tail;
    if v < 128 {
      assert s[1..] == tail;
    } else {
      assert s[1..] == WriteVarint(v / 128) + tail;
      VarintRoundTrip(v / 128, tail, n - 1, scale * 128, acc + (v % 128) * scale);
      Groups(v, scale);
    }
  }

  function Pow128(n: nat): nat {
    if n == 0 then 1 else 128 * Pow128(n - 1)
  }

  lemma {:induction false} VarintLength(v: nat, n: nat)
    requires n > 0 && v < Pow128(n)
    ensures |WriteVarint(v)| <= n
    decreases n
  {
    if v >= 128 {
      VarintLength(v / 128, n - 1);
    }
  }

  lemma {:induction false} TenGroups()
    ensures Pow128(10) == 0x40_0000_0000_0000_0000
  {
    assert Pow128(3) == 0x20_0000;
    assert Pow128(6) == 128 * (128 * (128 * Pow128(3)));
    assert Pow128(9) == 128 * (128 * (128 * Pow128(6)));
  }

  lemma {:induction false} VarintReads(v: nat, tail: seq<byte>)
    requires v < 0x1_0000_0000_0000_0000
    ensures Varint(WriteVarint(v) + tail) == Some((v, tail))
  {
    TenGroups();
    VarintLength(v, 10);
    VarintRoundTrip(v, tail, VarintLimit(WriteVarint(v) + tail), 1, 0);
  }

  lemma {:induction false} Cut(a: seq<byte>, b: seq<byte>)
    ensures (a + b)[..|a|] == a && (a + b)[|a|..] == b
  {}

  lemma {:induction false} PayloadReads(p: Payload, tail: seq<byte>)
    requires WellFormed(Field(0, p))
    ensures ReadPayload(WritePayload(p) + tail, Wire(p)) == Some((p, tail))
  {
    match p
    case VarintP(v) => VarintReads(v, tail);
    case Fixed64P(octets) => Cut(octets, tail);
    case Fixed32P(octets) => Cut(octets, tail);
    case BytesP(octets) =>
      Assoc(WriteVarint(|octets|), octets, tail);
      VarintReads(|octets|, octets + tail);
      NumberExact(|octets|);
      Cut(octets, tail);
  }

  lemma {:induction false} TagSplits(number: nat, wire: nat)
    requires number < 0x2000_0000 && wire < 8
    ensures (number * 8 + wire) % 8 == wire && FieldNumber(number * 8 + wire) == number
  {}

  /** What is written is read back, whatever follows it. */
  lemma {:induction false} FieldReads(f: Field, tail: seq<byte>)
    requires WellFormed(f)
    ensures ReadField(WriteField(f) + tail) == Some((f, tail))
  {
    var tag := f.number * 8 + Wire(f.payload);
    Assoc(WriteVarint(tag), WritePayload(f.payload), tail);
    VarintReads(tag, WritePayload(f.payload) + tail);
    NumberExact(tag);
    TagSplits(f.number, Wire(f.payload));
    PayloadReads(f.payload, tail);
  }

  /** The state changes of a list of fields. */
  function Fold<S>(fs: seq<Field>, state: S, step: (S, Field) -> Option<S>): Option<S> {
    if fs == [] then Some(state)
    else
      match step(state, fs[0])
      case None => None
      case Some(next) => Fold(fs[1..], next, step)
  }

  lemma {:induction false} WriteNotEmpty(f: Field)
    ensures WriteField(f) != []
  {}

  /** Reading a written message folds its fields. */
  lemma {:induction false} FoldReads<S>(fs: seq<Field>, state: S, step: (S, Field) -> Option<S>)
    requires forall i :: 0 <= i < |fs| ==> WellFormed(fs[i])
    ensures FoldFields(WriteFields(fs), state, step) == Fold(fs, state, step)
    decreases |fs|
  {
    if fs != [] {
      FieldReads(fs[0], WriteFields(fs[1..]));
      WriteNotEmpty(fs[0]);
      match step(state, fs[0])
      case None =>
      case Some(next) => FoldReads(fs[1..], next, step);
    }
  }

  /** The fields of a message, however its varints are padded. */
  function FieldsOf(s: seq<byte>): Option<seq<Field>>
    decreases |s|
  {
    if s == [] then Some([])
    else
      FieldConsumes(s);
      match ReadField(s)
      case None => None
      case Some((f, rest)) =>
        match FieldsOf(rest)
        case None => None
        case Some(fs) => Some([f] + fs)
  }

  /** Reading a message visits its fields in order, and fails on bytes that are not fields. */
  lemma {:induction false} FoldIsRead<S>(s: seq<byte>, state: S, step: (S, Field) -> Option<S>)
    ensures FoldFields(s, state, step)
         == (match FieldsOf(s) case None => None case Some(fs) => Fold(fs, state, step))
    decreases |s|
  {
    if s != [] {
      FieldConsumes(s);
      match ReadField(s)
      case None =>
      case Some((f, rest)) =>
        match step(state, f)
        case None =>
          if FieldsOf(rest).Some? {
            assert ([f] + FieldsOf(rest).value)[1..] == FieldsOf(rest).value;
          }
        case Some(next) =>
          FoldIsRead(rest, next, step);
          if FieldsOf(rest).Some? {
            assert ([f] + FieldsOf(rest).value)[1..] == FieldsOf(rest).value;
          }
    }
  }

  /** Written fields are read back. */
  lemma {:induction false} FieldsRoundTrip(fs: seq<Field>)
    requires forall i :: 0 <= i < |fs| ==> WellFormed(fs[i])
    ensures FieldsOf(WriteFields(fs)) == Some(fs)
    decreases |fs|
  {
    if fs != [] {
      FieldReads(fs[0], WriteFields(fs[1..]));
      WriteNotEmpty(fs[0]);
      FieldsRoundTrip(fs[1..]);
      assert fs == [fs[0]] + fs[1..];
    }
  }

  // ---------------------------------------------------------------- fields that are not read

  /** The fields a message's decoder reads. */
  function Known(fs: seq<Field>, numbers: set<nat>): seq<Field> {
    if fs == [] then []
    else (if fs[0].number in numbers then [fs[0]] else []) + Known(fs[1..], numbers)
  }

  /** A decoder that lets every other field pass. */
  ghost predicate Ignores<S(!new)>(step: (S, Field) -> Option<S>, numbers: set<nat>) {
    forall s, f: Field :: f.number !in numbers ==> step(s, f) == Some(s)
  }

  /** Fields a decoder does not read, wherever they stand, change nothing. */
  lemma {:induction false} UnknownFieldsPass<S(!new)>(
      fs: seq<Field>, state: S, step: (S, Field) -> Option<S>, numbers: set<nat>)
    requires Ignores(step, numbers)
    ensures Fold(fs, state, step) == Fold(Known(fs, numbers), state, step)
    decreases |fs|
  {
    if fs != [] {
      var known := Known(fs[1..], numbers);
      if fs[0].number in numbers {
        assert ([fs[0]] + known)[1..] == known;
        match step(state, fs[0])
        case None =>
        case Some(next) => UnknownFieldsPass(fs[1..], next, step, numbers);
      } else {
        assert [] + known == known;
        UnknownFieldsPass(fs[1..], state, step, numbers);
      }
    }
  }

  lemma {:induction false} FoldConcat<S>(a: seq<Field>, b: seq<Field>, state: S, step: (S, Field) -> Option<S>)
    ensures Fold(a + b, state, step)
         == (match Fold(a, state, step) case None => None case Some(s) => Fold(b, s, step))
    decreases |a|
  {
    if a == [] {
      assert a + b == b;
    } else {
      assert (a + b)[1..] == a[1..] + b;
      match step(state, a[0])
      case None =>
      case Some(next) => FoldConcat(a[1..], b, next, step);
    }
  }

  // ---------------------------------------------------------------- fixed-width numbers

  function Octets(n: nat, k: nat): (s: seq<byte>)
    ensures |s| == k
  {
    if k == 0 then [] else [n % 256] + Octets(n / 256, k - 1)
  }

  function Pow256(k: nat): nat {
    if k == 0 then 1 else 256 * Pow256(k - 1)
  }

  lemma {:induction false} OctetsRead(n: nat, k: nat)
    requires n < Pow256(k)
    ensures LittleEndian(Octets(n, k)) == n
    decreases k
  {
    if k > 0 {
      OctetsRead(n / 256, k - 1);
      assert Octets(n, k)[1..] == Octets(n / 256, k - 1);
    }
  }

  lemma {:induction false} EightOctets(n: nat)
    requires n < 0x1_0000_0000_0000_0000
    ensures LittleEndian(Octets(n, 8)) == n
  {
    assert Pow256(4) == 0x1_0000_0000;
    assert Pow256(8) == 256 * (256 * (256 * (256 * Pow256(4))));
    OctetsRead(n, 8);
  }

  // ---------------------------------------------------------------- the reader

  class Reader {
    const bytes: seq<byte>
    var offset: nat

    ghost predicate Valid()
      reads this
    {
      offset <= |bytes|
    }

    ghost function Rest(): seq<byte>
      reads this
      requires Valid()
    {
      bytes[offset..]
    }

    constructor (bytes: seq<byte>)
      ensures this.bytes == bytes && Valid() && Rest() == bytes
    {
      this.bytes := bytes;
      offset := 0;
    }

    method ReadVarint() returns (r: Option<nat>)
      requires Valid()
      modifies this
      ensures Valid() && offset >= old(offset) && (r.None? <==> Varint(old(Rest())).None?)
      ensures r.Some? ==> Varint(old(Rest())) == Some((r.value, Rest())) && offset > old(offset)
    {
      var result: nat, scale: nat, i := 0, 1, 0;
      ghost var limit := VarintLimit(Rest());
      while i < 10
        invariant 0 <= i <= limit && Valid() && offset == old(offset) + i
        invariant VarintFrom(Rest(), limit - i, scale, result) == Varint(old(Rest()))
      {
        if offset >= |bytes| {
          return None;
        }
        var b: nat := bytes[offset];
        assert Rest()[0] == b && Rest()[1..] == bytes[offset + 1..];
        offset := offset + 1;
        result := result + b % 128 * scale;
        if b < 128 {
          return Some(result);
        }
        scale := scale * 128;
        i := i + 1;
      }
      return None;
    }

    method TakeBytes(length: nat) returns (r: Option<seq<byte>>)
      requires Valid()
      modifies this
      ensures Valid() && offset >= old(offset) && (r.None? <==> Take(old(Rest()), length).None?)
      ensures r.Some? ==> Take(old(Rest()), length) == Some((r.value, Rest()))
      ensures r.None? ==> offset == old(offset)
    {
      if offset + length > |bytes| {
        return None;
      }
      r := Some(bytes[offset..offset + length]);
      assert bytes[offset..][..length] == bytes[offset..offset + length];
      offset := offset + length;
    }

    method ReadBytes() returns (r: Option<seq<byte>>)
      requires Valid()
      modifies this
      ensures Valid() && offset >= old(offset) && (r.None? <==> Delimited(old(Rest())).None?)
      ensures r.Some? ==> Delimited(old(Rest())) == Some((r.value, Rest()))
    {
      var length := ReadVarint();
      if length.None? {
        return None;
      }
      r := TakeBytes(Number(length.value));
    }

    method ReadTag() returns (r: Option<(nat, nat)>)
      requires Valid()
      modifies this
      ensures Valid() && (r.None? <==> Varint(old(Rest())).None?)
      ensures r.Some? ==>
        var tag := Varint(old(Rest())).value;
        r.value == (FieldNumber(Number(tag.0)), Number(tag.0) % 8) && Rest() == tag.1 && offset > old(offset)
    {
      var tag := ReadVarint();
      if tag.None? {
        return None;
      }
      r := Some((FieldNumber(Number(tag.value)), Number(tag.value) % 8));
    }

    /** The payload of a field, as its wire type says; `skip` reads it the same way and drops it. */
    method ReadWire(wire: nat) returns (r: Option<Payload>)
      requires Valid()
      modifies this
      ensures Valid() && offset >= old(offset) && (r.None? <==> ReadPayload(old(Rest()), wire).None?)
      ensures r.Some? ==> ReadPayload(old(Rest()), wire) == Some((r.value, Rest()))
    {
      if wire == 0 {
        var v := ReadVarint();
        r := if v.None? then None else Some(VarintP(v.value));
      } else if wire == 1 {
        var octets := TakeBytes(8);
        r := if octets.None? then None else Some(Fixed64P(octets.value));
      } else if wire == 2 {
        var octets := ReadBytes();
        r := if octets.None? then None else Some(BytesP(octets.value));
      } else if wire == 5 {
        var octets := TakeBytes(4);
        r := if octets.None? then None else Some(Fixed32P(octets.value));
      } else {
        r := None;
      }
    }

    method NextField() returns (r: Option<Field>)
      requires Valid()
      modifies this
      ensures Valid() && (r.None? <==> ReadField(old(Rest())).None?)
      ensures r.Some? ==> ReadField(old(Rest())) == Some((r.value, Rest())) && offset > old(offset)
    {
      var tag := ReadTag();
      if tag.None? {
        return None;
      }
      var payload := ReadWire(tag.value.1);
      r := if payload.None? then None else Some(Field(tag.value.0, payload.value));
    }
  }
}
