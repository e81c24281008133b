/**
 nanopb: messages described by tables of fields, their encoding, and what decoding gives.
 Pointer, callback and extension fields are not part of the model.
 */
module NanoPb {
  import opened Basics
  import opened ProtoWire
  import opened Varints

  // ---------------------------------------------------------------------------
  // Descriptors and messages
  // ---------------------------------------------------------------------------

  /** The data type of a field; size is the size of its storage in bytes. */
  datatype Kind =
    | Int(size: nat)
    | UInt(size: nat)
    | SInt(size: nat)
    | Fixed32
    | Fixed64
    | Bytes(room: nat)
    | Text(buffer: nat)
    | Submessage(fields: seq<Field>)
    | FixedBytes(length: nat)

  datatype Rule = Required | Optional | Repeated(max: nat) | Oneof(group: nat)

  /** initial is the default value, or zeros; a submessage has its fields' defaults instead. */
  datatype Field = Field(tag: nat, rule: Rule, kind: Kind, initial: Value)

  /** A text is the characters before the first NUL, or the whole buffer if it has none. */
  datatype Value = Num(n: int) | Data(data: seq<byte>) | Message(slots: seq<Slot>)

  /** A field's part of the struct: its value with the has flag, the count, or the share in a union. */
  datatype Slot = One(value: Value) | Maybe(has: bool, optional: Value) | Many(items: seq<Value>) | Choice(chosen: Option<Value>)


  function Limit(size: nat): (n: nat)
    ensures n > 0
  {
    if size == 1 then 0x100 else if size == 2 then 0x1_0000 else if size == 4 then TWO32 else TWO64
  }

  predicate IsSize(size: nat) { size == 1 || size == 2 || size == 4 || size == 8 }

  function WireType(k: Kind): nat {
    match k
    case Int(_) | UInt(_) | SInt(_) => 0
    case Fixed32 => 5
    case Fixed64 => 1
    case _ => 2
  }

  predicate Packable(k: Kind) { k.Int? || k.UInt? || k.SInt? || k.Fixed32? || k.Fixed64? }

  // ---------------------------------------------------------------------------
  // The bytes of a message
  // ---------------------------------------------------------------------------

  function LittleEndian(v: nat, n: nat): (b: seq<byte>)
    ensures |b| == n
  {
    if n == 0 then [] else [v % 256] + LittleEndian(v / 256, n - 1)
  }

  function FromLittleEndian(b: seq<byte>): nat {
    if b == [] then 0 else b[0] as int + 256 * FromLittleEndian(b[1..])
  }

  /** A 64-bit word holds a signed number modulo 2^64. */
  function Word(n: int): nat { n % TWO64 }

  function ZigZag(n: int): nat { if n < 0 then -2 * n - 1 else 2 * n }

  function Scalar(k: Kind, v: Value): Option<seq<byte>> {
    if !v.Num? then None
    else
      match k
      case Int(size) => if IsSize(size) then Some(Varint(Word(v.n))) else None
      case UInt(size) => if IsSize(size) then Some(Varint(Word(v.n))) else None
      case SInt(size) => if IsSize(size) then Some(Varint(ZigZag(v.n))) else None
      case Fixed32 => Some(LittleEndian(v.n % TWO32, 4))
      case Fixed64 => Some(LittleEndian(Word(v.n), 8))
      case _ => None
  }

  /** The text in a buffer. */
  function UpToNul(data: seq<byte>): (t: seq<byte>)
    ensures t <= data && 0 !in t && (|t| < |data| ==> data[|t|] == 0)
  {
    if data == [] || data[0] == 0 then [] else [data[0]] + UpToNul(data[1..])
  }

  function Prefixed(data: seq<byte>): seq<byte> { Varint(|data|) + data }

  /** The encoding of one value, without its tag. */
  function ValueBytes(k: Kind, v: Value): Option<seq<byte>>
    decreases k, 0
  {
    if Packable(k) then Scalar(k, v)
    else
      match k
      case Bytes(room) => if v.Data? && |v.data| <= room then Some(Prefixed(v.data)) else None
      case Text(buffer) => if v.Data? && |v.data| <= buffer then Some(Prefixed(UpToNul(v.data))) else None
      case FixedBytes(length) => if v.Data? && |v.data| == length then Some(Prefixed(v.data)) else None
      case Submessage(fields) =>
        if v.Message? && |v.slots| == |fields| then
          var b := MessageBytes(fields, v.slots, 0);
          if b.None? then None else Some(Prefixed(b.value))
        else None
  }

  function Tag(wiretype: nat, tag: nat): seq<byte> { Varint(tag * 8 + wiretype) }

  function Tagged(f: Field, v: Value): Option<seq<byte>>
    decreases f, 1
  {
    Then(Some(Tag(WireType(f.kind), f.tag)), ValueBytes(f.kind, v))
  }

  /** The elements from index i on, each with its tag. */
  function Elements(f: Field, items: seq<Value>, i: nat): Option<seq<byte>>
    requires i <= |items|
    decreases f, 2, |items| - i
  {
    if i == |items| then Some([]) else Then(Tagged(f, items[i]), Elements(f, items, i + 1))
  }

  function PackedBytes(k: Kind, items: seq<Value>, i: nat): Option<seq<byte>>
    requires i <= |items|
    decreases |items| - i
  {
    if i == |items| then Some([]) else Then(Scalar(k, items[i]), PackedBytes(k, items, i + 1))
  }

  function ArrayBytes(f: Field, max: nat, items: seq<Value>): Option<seq<byte>>
    decreases f, 3
  {
    if items == [] then Some([])
    else if |items| > max then None
    else if Packable(f.kind) then
      var b := PackedBytes(f.kind, items, 0);
      if b.None? then None else Some(Tag(2, f.tag) + Prefixed(b.value))
    else Elements(f, items, 0)
  }

  function SlotBytes(f: Field, s: Slot): Option<seq<byte>>
    decreases f, 4
  {
    match f.rule
    case Required => if s.One? then Tagged(f, s.value) else None
    case Optional => if !s.Maybe? then None else if s.has then Tagged(f, s.optional) else Some([])
    case Repeated(max) => if s.Many? then ArrayBytes(f, max, s.items) else None
    case Oneof(_) => if !s.Choice? then None else if s.chosen.Some? then Tagged(f, s.chosen.value) else Some([])
  }

  /** The fields from index i on. */
  function MessageBytes(fields: seq<Field>, slots: seq<Slot>, i: nat): Option<seq<byte>>
    requires i <= |fields| == |slots|
    decreases fields, 5, |fields| - i
  {
    if i == |fields| then Some([]) else Then(SlotBytes(fields[i], slots[i]), MessageBytes(fields, slots, i + 1))
  }

  // ---------------------------------------------------------------------------
  // The encoder
  // ---------------------------------------------------------------------------

  lemma {:induction false} TextIsUnique(data: seq<byte>, n: nat)
    requires n <= |data| && 0 !in data[..n] && (n < |data| ==> data[n] == 0)
    ensures data[..n] == UpToNul(data)
  {
    if n > 0 {
      assert data[0] == data[..n][0] && data[1..][..n - 1] == data[..n][1..];
      TextIsUnique(data[1..], n - 1);
    }
  }

  method EncodeTag(s: OStream, wiretype: nat, tag: nat) returns (error: Option<Error>, t: OStream)
    ensures Encodes(s, Some(Tag(wiretype, tag)), error, t)
  {
    error, t := EncodeVarint(s, tag * 8 + wiretype);
  }

  method EncodeString(s: OStream, data: seq<byte>) returns (error: Option<Error>, t: OStream)
    ensures Encodes(s, Some(Prefixed(data)), error, t)
  {
    hide Varint;
    error, t := EncodeVarint(s, |data|);
    if error.Some? {
      return;
    }
    error, t := Write(t, data);
  }

  method EncodeScalar(s: OStream, k: Kind, v: Value) returns (error: Option<Error>, t: OStream)
    ensures Encodes(s, Scalar(k, v), error, t)
  {
    hide Varint, LittleEndian;
    if !v.Num? {
      return Some(InvalidValue), s;
    }
    match k
    case Int(size) =>
      if !IsSize(size) { return Some(InvalidValue), s; }
      error, t := EncodeVarint(s, Word(v.n));
    case UInt(size) =>
      if !IsSize(size) { return Some(InvalidValue), s; }
      error, t := EncodeVarint(s, Word(v.n));
    case SInt(size) =>
      if !IsSize(size) { return Some(InvalidValue), s; }
      error, t := EncodeVarint(s, ZigZag(v.n));
    case Fixed32 => error, t := Write(s, LittleEndian(v.n % TWO32, 4));
    case Fixed64 => error, t := Write(s, LittleEndian(Word(v.n), 8));
    case _ => error, t := Some(InvalidValue), s;
  }

  /** The encoder that the kind of the field selects. */
  method EncodeValue(s: OStream, k: Kind, v: Value) returns (error: Option<Error>, t: OStream)
    ensures Encodes(s, ValueBytes(k, v), error, t)
    decreases k, 0
  {
    hide Scalar, Prefixed;
    if Packable(k) {
      error, t := EncodeScalar(s, k, v);
      return;
    }
    match k
    case Submessage(fields) =>
      if !v.Message? || |v.slots| != |fields| { return Some(InvalidValue), s; }
      error, t := EncodeSubmessage(s, fields, v.slots);
    case Bytes(room) =>
      if !v.Data? { return Some(InvalidValue), s; }
      if |v.data| > room { return Some(BytesSizeExceeded), s; }
      error, t := EncodeString(s, v.data);
    case Text(buffer) =>
      if !v.Data? || |v.data| > buffer { return Some(InvalidValue), s; }
      var size := 0;
      while size < |v.data| && v.data[size] != 0
        invariant size <= |v.data| && 0 !in v.data[..size]
      {
        size := size + 1;
      }
      TextIsUnique(v.data, size);
      error, t := EncodeString(s, v.data[..size]);
    case FixedBytes(length) =>
      if !v.Data? || |v.data| != length { return Some(InvalidValue), s; }
      error, t := EncodeString(s, v.data);
  }

  /** The size comes from a run that only counts; the run that writes cannot come out with another size. */
  method EncodeSubmessage(s: OStream, fields: seq<Field>, slots: seq<Slot>) returns (error: Option<Error>, t: OStream)
    requires |slots| == |fields|
    ensures var b := MessageBytes(fields, slots, 0);
            Encodes(s, if b.None? then None else Some(Prefixed(b.value)), error, t)
    decreases fields, 6
  {
    hide MessageBytes, Varint;
    var sub: OStream;
    error, sub := Encode(SizingStream(), fields, slots);
    if error.Some? {
      return error, s;
    }
    var size := sub.written;
    error, t := EncodeVarint(s, size);
    if error.Some? {
      return;
    }
    if s.sizing {
      t := WriteNothing(t, size);
      return;
    }
    if t.written + size > t.max {
      return Some(StreamFull), t;
    }
    error, sub := Encode(OStream(false, t.out, size, 0), fields, slots);
    t := t.(written := t.written + sub.written, out := sub.out);
    if sub.written != size {
      return Some(SizeChanged), t;
    }
  }

  method EncodeTagged(s: OStream, f: Field, v: Value) returns (error: Option<Error>, t: OStream)
    ensures Encodes(s, Tagged(f, v), error, t)
    decreases f, 1
  {
    hide Tag, ValueBytes;
    error, t := EncodeTag(s, WireType(f.kind), f.tag);
    if error.Some? {
      return;
    }
    error, t := EncodeValue(t, f.kind, v);
  }

  /** What is left to encode of a list of parts. */
  ghost predicate EncodedSoFar(s: OStream, whole: Option<seq<byte>>, t: OStream, rest: Option<seq<byte>>) {
    exists done: seq<byte> :: Encodes(s, Some(done), None, t) && whole == Then(Some(done), rest)
  }

  lemma StartEncoding(s: OStream, whole: Option<seq<byte>>)
    requires s.sizing || s.written <= s.max
    ensures EncodedSoFar(s, whole, s, whole)
  {
    assert Encodes(s, Some([]), None, s);
    if whole.Some? { assert [] + whole.value == whole.value; }
  }

  lemma StepEncoding(s: OStream, whole: Option<seq<byte>>, t: OStream, part: Option<seq<byte>>, rest: Option<seq<byte>>,
                     error: Option<Error>, u: OStream)
    requires EncodedSoFar(s, whole, t, Then(part, rest)) && Encodes(t, part, error, u)
    ensures error.Some? ==> Encodes(s, whole, error, u)
    ensures error.None? ==> EncodedSoFar(s, whole, u, rest)
  {
    var done: seq<byte> :| Encodes(s, Some(done), None, t) && whole == Then(Some(done), Then(part, rest));
    ThenAssociates(done, part, rest);
    if error.None? {
      EncodesThen(s, Some(done), t, part, error, u);
      assert part.Some? && Encodes(s, Some(done + part.value), None, u);
    } else {
      assert part.Some? ==> Encodes(t, Some(part.value), error, u);
    }
  }

  lemma ThenAssociates(done: seq<byte>, part: Option<seq<byte>>, rest: Option<seq<byte>>)
    ensures part.Some? ==> Then(Some(done), Then(part, rest)) == Then(Some(done + part.value), rest)
  {
    if part.Some? && rest.Some? {
      assert done + (part.value + rest.value) == done + part.value + rest.value;
    }
  }

  lemma EndEncoding(s: OStream, whole: Option<seq<byte>>, t: OStream)
    requires EncodedSoFar(s, whole, t, Some([]))
    ensures Encodes(s, whole, None, t)
  {
    var done: seq<byte> :| Encodes(s, Some(done), None, t) && whole == Then(Some(done), Some([]));
    assert done + [] == done;
  }

  method EncodeArray(s: OStream, f: Field, max: nat, items: seq<Value>) returns (error: Option<Error>, t: OStream)
    requires s.sizing || s.written <= s.max
    ensures Encodes(s, ArrayBytes(f, max, items), error, t)
    decreases f, 3
  {
    if items == [] {
      return None, s;
    }
    if |items| > max {
      return Some(ArrayMaxSizeExceeded), s;
    }
    if Packable(f.kind) {
      error, t := EncodePacked(s, f, items);
    } else {
      error, t := EncodeElements(s, f, items);
    }
  }

  method EncodeElements(s: OStream, f: Field, items: seq<Value>) returns (error: Option<Error>, t: OStream)
    requires s.sizing || s.written <= s.max
    ensures Encodes(s, Elements(f, items, 0), error, t)
    decreases f, 2
  {
    hide Tagged, Then, Encodes;
    t := s;
    var i := 0;
    ghost var whole := Elements(f, items, 0);
    StartEncoding(s, whole);
    while i < |items|
      invariant i <= |items| && EncodedSoFar(s, whole, t, Elements(f, items, i))
    {
      var u: OStream;
      error, u := EncodeTagged(t, f, items[i]);
      StepEncoding(s, whole, t, Tagged(f, items[i]), Elements(f, items, i + 1), error, u);
      t := u;
      if error.Some? {
        return;
      }
      i := i + 1;
    }
    EndEncoding(s, whole, t);
    error := None;
  }

  /** The elements without tags; the loop is run once to count and once to write. */
  method EncodeItems(s: OStream, k: Kind, items: seq<Value>) returns (error: Option<Error>, t: OStream)
    requires s.sizing || s.written <= s.max
    ensures Encodes(s, PackedBytes(k, items, 0), error, t)
  {
    hide Scalar, Then, Encodes;
    t := s;
    var i := 0;
    ghost var whole := PackedBytes(k, items, 0);
    StartEncoding(s, whole);
    while i < |items|
      invariant i <= |items| && EncodedSoFar(s, whole, t, PackedBytes(k, items, i))
    {
      var u: OStream;
      error, u := EncodeScalar(t, k, items[i]);
      StepEncoding(s, whole, t, Scalar(k, items[i]), PackedBytes(k, items, i + 1), error, u);
      t := u;
      if error.Some? {
        return;
      }
      i := i + 1;
    }
    EndEncoding(s, whole, t);
    error := None;
  }

  method EncodePacked(s: OStream, f: Field, items: seq<Value>) returns (error: Option<Error>, t: OStream)
    requires s.sizing || s.written <= s.max
    requires Packable(f.kind) && items != []
    ensures var b := PackedBytes(f.kind, items, 0);
            Encodes(s, if b.None? then None else Some(Tag(2, f.tag) + Prefixed(b.value)), error, t)
  {
    hide Tag, PackedBytes, Varint;
    error, t := EncodeTag(s, 2, f.tag);
    if error.Some? {
      return;
    }
    var size: nat;
    if f.kind.Fixed32? && (forall i :: 0 <= i < |items| ==> items[i].Num?) {
      size := 4 * |items|;
      FixedSize(f.kind, 4, items, 0);
    } else if f.kind.Fixed64? && (forall i :: 0 <= i < |items| ==> items[i].Num?) {
      size := 8 * |items|;
      FixedSize(f.kind, 8, items, 0);
    } else {
      var sizestream: OStream;
      error, sizestream := EncodeItems(SizingStream(), f.kind, items);
      if error.Some? {
        return;
      }
      size := sizestream.written;
    }
    ghost var b := PackedBytes(f.kind, items, 0);
    assert b.Some? && |b.value| == size;
    var u: OStream;
    error, u := EncodeVarint(t, size);
    EncodesThen(s, Some(Tag(2, f.tag)), t, Some(Varint(size)), error, u);
    if error.Some? {
      return error, u;
    }
    if s.sizing {
      t := WriteNothing(u, size);
    } else {
      error, t := EncodeItems(u, f.kind, items);
    }
    EncodesThen(s, Some(Tag(2, f.tag) + Varint(size)), u, b, error, t);
    assert Tag(2, f.tag) + Varint(size) + b.value == Tag(2, f.tag) + Prefixed(b.value);
  }

  lemma {:induction false} FixedSize(k: Kind, width: nat, items: seq<Value>, i: nat)
    requires (k.Fixed32? && width == 4) || (k.Fixed64? && width == 8)
    requires i <= |items| && forall j :: 0 <= j < |items| ==> items[j].Num?
    ensures PackedBytes(k, items, i).Some? && |PackedBytes(k, items, i).value| == width * (|items| - i)
    decreases |items| - i
  {
    if i < |items| {
      FixedSize(k, width, items, i + 1);
    }
  }

  method EncodeField(s: OStream, f: Field, slot: Slot) returns (error: Option<Error>, t: OStream)
    requires s.sizing || s.written <= s.max
    ensures Encodes(s, SlotBytes(f, slot), error, t)
    decreases f, 4
  {
    hide Tagged, ArrayBytes;
    error, t := Some(InvalidValue), s;
    match f.rule
    case Required =>
      if slot.One? { error, t := EncodeTagged(s, f, slot.value); }
    case Optional =>
      if slot.Maybe? {
        if slot.has { error, t := EncodeTagged(s, f, slot.optional); } else { error := None; }
      }
    case Repeated(max) =>
      if slot.Many? { error, t := EncodeArray(s, f, max, slot.items); }
    case Oneof(_) =>
      if slot.Choice? {
        if slot.chosen.Some? { error, t := EncodeTagged(s, f, slot.chosen.value); } else { error := None; }
      }
  }

  /** pb_encode: all fields in the order of the descriptor. */
  method Encode(s: OStream, fields: seq<Field>, slots: seq<Slot>) returns (error: Option<Error>, t: OStream)
    requires |slots| == |fields| && (s.sizing || s.written <= s.max)
    ensures Encodes(s, MessageBytes(fields, slots, 0), error, t)
    decreases fields, 5
  {
    hide SlotBytes, Then, Encodes;
    t := s;
    var i := 0;
    ghost var whole := MessageBytes(fields, slots, 0);
    StartEncoding(s, whole);
    while i < |fields|
      invariant i <= |fields| && EncodedSoFar(s, whole, t, MessageBytes(fields, slots, i))
      invariant t.sizing || t.written <= t.max
    {
      var u: OStream;
      ghost var before := t;
      error, u := EncodeField(t, fields[i], slots[i]);
      StepEncoding(s, whole, t, SlotBytes(fields[i], slots[i]), MessageBytes(fields, slots, i + 1), error, u);
      t := u;
      if error.Some? {
        return;
      }
      WithinRoom(before, SlotBytes(fields[i], slots[i]), error, u);
      i := i + 1;
    }
    EndEncoding(s, whole, t);
    error := None;
  }

  lemma WithinRoom(s: OStream, e: Option<seq<byte>>, error: Option<Error>, t: OStream)
    requires Encodes(s, e, error, t) && error.None?
    ensures t.sizing || t.written <= t.max
  {
  }

  /** The size that is told before is the size of what is written. */
  method GetEncodedSize(fields: seq<Field>, slots: seq<Slot>) returns (size: Option<nat>)
    requires |slots| == |fields|
    ensures size == var b := MessageBytes(fields, slots, 0); if b.None? then None else Some(|b.value|)
  {
    var error, t := Encode(SizingStream(), fields, slots);
    size := if error.Some? then None else Some(t.written);
  }
}
