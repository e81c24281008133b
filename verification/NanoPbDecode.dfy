/**
 nanopb's decoder: what it makes of any bytes, and that it restores an encoded message.
 */
module NanoPbDecode {
  import opened Basics
  import opened ProtoWire
  import opened Varints
  import opened NanoPb

  // ---------------------------------------------------------------------------
  // What decoding gives
  // ---------------------------------------------------------------------------

  /** The initial struct: flags clear, counts zero, values at their defaults. */
  function DefaultValue(f: Field): Value
    decreases f, 1
  {
    if f.kind.Submessage? then Message(Defaults(f.kind.fields, |f.kind.fields|)) else f.initial
  }

  function DefaultSlot(f: Field): Slot
    decreases f, 2
  {
    match f.rule
    case Required => One(DefaultValue(f))
    case Optional => Maybe(false, DefaultValue(f))
    case Repeated(_) => Many([])
    case Oneof(_) => Choice(None)
  }

  function Defaults(fields: seq<Field>, n: nat): (slots: seq<Slot>)
    requires n <= |fields|
    ensures |slots| == n
    decreases fields, 3, n
  {
    if n == 0 then [] else Defaults(fields, n - 1) + [DefaultSlot(fields[n - 1])]
  }

  /** Reading an unsigned word as a signed one of the same width. */
  function Signed(v: nat, limit: nat): int { if 2 * v < limit then v else v - limit }

  /** The cast to a narrower type, and whether the value survives it. */
  function Narrow(n: int, size: nat): Option<int> {
    if IsSize(size) && Signed(n % Limit(size), Limit(size)) == n then Some(n) else None
  }

  function ReadNumber(k: Kind, v: nat): Option<int> {
    match k
    case Int(size) => Narrow(if size == 8 then Signed(v % TWO64, TWO64) else Signed(v % TWO32, TWO32), size)
    case UInt(size) => if IsSize(size) && v % Limit(size) == v then Some(v) else None
    case SInt(size) => Narrow(if v % 2 == 1 then -(v / 2) - 1 else v / 2, size)
    case _ => None
  }

  /** A number of a packable kind and the bytes it takes. */
  function ReadScalar(k: Kind, b: seq<byte>): (r: Option<(Value, nat)>)
    ensures r.Some? ==> 0 < r.value.1 <= |b|
  {
    match k
    case Fixed32 => if |b| < 4 then None else Some((Num(FromLittleEndian(b[..4])), 4))
    case Fixed64 => if |b| < 8 then None else Some((Num(FromLittleEndian(b[..8])), 8))
    case _ =>
      match ReadVarint(b, 0, 64)
      case Broken(_) => None
      case Number(v, n) => var x := ReadNumber(k, v); if x.None? then None else Some((Num(x.value), n))
  }

  /** A length and that many bytes: where they start and end. */
  function ReadLength(b: seq<byte>): (r: Option<(nat, nat)>)
    ensures r.Some? ==> 0 < r.value.0 <= r.value.1 <= |b|
  {
    match ReadVarint(b, 0, 32)
    case Broken(_) => None
    case Number(n, used) => if used + n > |b| then None else Some((used, used + n))
  }

  /** One value read over an old one, which matters only for submessages: their fields are merged in. */
  function ReadValue(k: Kind, prior: Value, b: seq<byte>): (r: Option<(Value, nat)>)
    ensures r.Some? ==> 0 < r.value.1 <= |b|
    decreases k, 0, 0
  {
    if Packable(k) then ReadScalar(k, b)
    else
      var length := ReadLength(b);
      if length.None? then None
      else
        var (i, j) := length.value;
        match k
        case Bytes(room) => if j - i > room then None else Some((Data(b[i..j]), j))
        case Text(buffer) => if j - i + 1 > buffer then None else Some((Data(b[i..j]), j))
        case FixedBytes(n) => if j == i then Some((Data(seq(n, _ => 0)), j)) else if j - i != n then None else Some((Data(b[i..j]), j))
        case Submessage(fields) =>
          if !prior.Message? || |prior.slots| != |fields| then None
          else
            var m := ReadMessage(fields, prior.slots, {}, b[i..j]);
            if m.None? then None else Some((Message(m.value.0), j))
  }

  /** The elements of a packed array, until the bytes are used up; too many of them are an error. */
  function ReadPacked(k: Kind, max: nat, items: seq<Value>, b: seq<byte>): Option<seq<Value>>
    decreases |b|
  {
    if b == [] then Some(items)
    else if |items| >= max then None
    else
      var v := ReadScalar(k, b);
      if v.None? then None else ReadPacked(k, max, items + [v.value.0], b[v.value.1..])
  }

  function ReadSlot(f: Field, s: Slot, wiretype: nat, b: seq<byte>): (r: Option<(Slot, nat)>)
    ensures r.Some? ==> 0 < r.value.1 <= |b|
    decreases f, 1, 0
  {
    match f.rule
    case Required =>
      if !s.One? then None
      else
        var v := ReadValue(f.kind, s.value, b);
        if v.None? then None else Some((One(v.value.0), v.value.1))
    case Optional =>
      if !s.Maybe? then None
      else
        var v := ReadValue(f.kind, s.optional, b);
        if v.None? then None else Some((Maybe(true, v.value.0), v.value.1))
    case Repeated(max) =>
      if !s.Many? then None
      else if wiretype == 2 && Packable(f.kind) then
        var length := ReadLength(b);
        if length.None? then None
        else
          var items := ReadPacked(f.kind, max, s.items, b[length.value.0..length.value.1]);
          if items.None? then None else Some((Many(items.value), length.value.1))
      else if |s.items| >= max then None
      else
        var v := ReadValue(f.kind, DefaultValue(f), b);
        if v.None? then None else Some((Many(s.items + [v.value.0]), v.value.1))
    case Oneof(_) =>
      var v := ReadValue(f.kind, DefaultValue(f), b);
      if v.None? then None else Some((Choice(Some(v.value.0)), v.value.1))
  }

  /** The field with the tag, if there is one. */
  function FieldOf(fields: seq<Field>, tag: nat): (r: Option<nat>)
    ensures r.Some? ==> r.value < |fields| && fields[r.value].tag == tag
    ensures r.None? ==> forall i :: 0 <= i < |fields| ==> fields[i].tag != tag
  {
    if fields == [] then None
    else if fields[|fields| - 1].tag == tag then Some(|fields| - 1)
    else FieldOf(fields[..|fields| - 1], tag)
  }

  /** Setting a member of a union unsets the others. */
  function Put(fields: seq<Field>, slots: seq<Slot>, i: nat, s: Slot): (r: seq<Slot>)
    requires i < |fields| == |slots|
    ensures |r| == |slots|
  {
    seq(|slots|, j requires 0 <= j < |slots| =>
      if j == i then s
      else if fields[i].rule.Oneof? && fields[j].rule == fields[i].rule then Choice(None)
      else slots[j])
  }

  /** How many bytes an unknown field takes. */
  function SkipLength(wiretype: nat, b: seq<byte>): (r: Option<nat>)
    ensures r.Some? ==> r.value <= |b|
  {
    if wiretype == 0 then SkipVarint(b)
    else if wiretype == 1 then if |b| < 8 then None else Some(8)
    else if wiretype == 5 then if |b| < 4 then None else Some(4)
    else if wiretype == 2 then var r := ReadLength(b); if r.None? then None else Some(r.value.1)
    else None
  }

  function SkipVarint(b: seq<byte>): (r: Option<nat>)
    ensures r.Some? ==> r.value <= |b|
  {
    if b == [] then None
    else if b[0] < 128 then Some(1)
    else var r := SkipVarint(b[1..]); if r.None? then None else Some(r.value + 1)
  }

  predicate AllSeen(fields: seq<Field>, seen: set<nat>) {
    forall i :: 0 <= i < |fields| && fields[i].rule.Required? ==> i in seen
  }

  function Finished(fields: seq<Field>, slots: seq<Slot>, seen: set<nat>, left: nat): Option<(seq<Slot>, nat)> {
    if AllSeen(fields, seen) then Some((slots, left)) else None
  }

  /** The table of a message without fields holds only the entry that ends a table. Its tag is zero, so a key with that
      tag leads to it; it has no size, and no decoder stores anything for it. */
  predicate IsTerminator(fields: seq<Field>, tag: nat) { fields == [] && tag == 0 }

  /** pb_decode_noinit: fields in any order, unknown ones skipped, until the bytes end or a zero stands for a tag.
      The second result is how many bytes are left then. */
  function ReadMessage(fields: seq<Field>, slots: seq<Slot>, seen: set<nat>, b: seq<byte>): (r: Option<(seq<Slot>, nat)>)
    requires |slots| == |fields|
    ensures r.Some? ==> |r.value.0| == |fields| && r.value.1 <= |b|
    decreases fields, 2, |b|
  {
    if b == [] then Finished(fields, slots, seen, 0)
    else
      match ReadVarint(b, 0, 32)
      case Broken(n) => if n == |b| then Finished(fields, slots, seen, 0) else None
      case Number(key, used) =>
        if key == 0 then Finished(fields, slots, seen, |b| - used)
        else
          var i := FieldOf(fields, key / 8);
          if i.None? then
            var n := if IsTerminator(fields, key / 8) then None else SkipLength(key % 8, b[used..]);
            if n.None? then None else ReadMessage(fields, slots, seen, b[used + n.value..])
          else
            var r := ReadSlot(fields[i.value], slots[i.value], key % 8, b[used..]);
            if r.None? then None
            else ReadMessage(fields, Put(fields, slots, i.value, r.value.0), seen + {i.value}, b[used + r.value.1..])
  }

  // ---------------------------------------------------------------------------
  // Round trip
  // ---------------------------------------------------------------------------

  predicate InRange(k: Kind, n: int) {
    match k
    case Int(size) => IsSize(size) && -2 * n <= Limit(size) && 2 * n < Limit(size)
    case SInt(size) => IsSize(size) && -2 * n <= Limit(size) && 2 * n < Limit(size)
    case UInt(size) => IsSize(size) && 0 <= n < Limit(size)
    case Fixed32 => 0 <= n < TWO32
    case Fixed64 => 0 <= n < TWO64
    case _ => false
  }

  /** What a struct of this descriptor can hold, with texts that leave room for their NUL. */
  ghost predicate Storable(k: Kind, v: Value)
    decreases k, 0
  {
    if Packable(k) then v.Num? && InRange(k, v.n)
    else
      match k
      case Bytes(room) => v.Data? && |v.data| <= room
      case Text(buffer) => v.Data? && |v.data| < buffer && 0 !in v.data
      case FixedBytes(n) => v.Data? && |v.data| == n && n > 0
      case Submessage(fields) => v.Message? && |v.slots| == |fields| && StorableMessage(fields, v.slots)
  }

  ghost predicate StorableSlot(f: Field, s: Slot)
    decreases f, 1
  {
    match f.rule
    case Required => s.One? && Storable(f.kind, s.value)
    case Optional => s.Maybe? && (s.has ==> Storable(f.kind, s.optional))
    case Repeated(max) => s.Many? && |s.items| <= max && forall i :: 0 <= i < |s.items| ==> Storable(f.kind, s.items[i])
    case Oneof(_) => s.Choice? && (s.chosen.Some? ==> Storable(f.kind, s.chosen.value))
  }

  ghost predicate StorableMessage(fields: seq<Field>, slots: seq<Slot>)
    requires |slots| == |fields|
    decreases fields, 2
  {
    && (forall i :: 0 <= i < |fields| ==> StorableSlot(fields[i], slots[i]))
    && forall i, j :: 0 <= i < j < |fields| && fields[i].rule.Oneof? && fields[i].rule == fields[j].rule ==>
         slots[i] == Choice(None) || slots[j] == Choice(None)
  }

  /** Tags are distinct and fit into 29 bits, in nested descriptors too. */
  ghost predicate DescribedKind(k: Kind)
    decreases k, 1
  {
    k.Submessage? ==> Described(k.fields)
  }

  ghost predicate DescribedField(f: Field)
    decreases f, 2
  {
    DescribedKind(f.kind)
  }

  ghost predicate Described(fields: seq<Field>)
    decreases fields, 0
  {
    && (forall i :: 0 <= i < |fields| ==> 0 < fields[i].tag < 0x2000_0000)
    && (forall i, j :: 0 <= i < j < |fields| ==> fields[i].tag != fields[j].tag)
    && forall i :: 0 <= i < |fields| ==> DescribedField(fields[i])
  }

  /** The message that comes back: what was not present is at its default. */
  function RestoredValue(k: Kind, v: Value): Value
    decreases k, 0
  {
    if k.Submessage? && v.Message? && |v.slots| == |k.fields| then Message(Restored(k.fields, v.slots)) else v
  }

  function RestoredSlot(f: Field, s: Slot): Slot
    decreases f, 1
  {
    match s
    case One(v) => One(RestoredValue(f.kind, v))
    case Maybe(has, v) => if has then Maybe(true, RestoredValue(f.kind, v)) else Maybe(false, DefaultValue(f))
    case Many(items) => Many(seq(|items|, i requires 0 <= i < |items| => RestoredValue(f.kind, items[i])))
    case Choice(v) => if v.Some? then Choice(Some(RestoredValue(f.kind, v.value))) else Choice(None)
  }

  function Restored(fields: seq<Field>, slots: seq<Slot>): (r: seq<Slot>)
    requires |slots| == |fields|
    ensures |r| == |slots|
    decreases fields, 2
  {
    seq(|slots|, i requires 0 <= i < |slots| => RestoredSlot(fields[i], slots[i]))
  }

  lemma {:induction false} LittleEndianRoundTrip(v: nat, n: nat)
    requires v < Pow2(8 * n)
    ensures FromLittleEndian(LittleEndian(v, n)) == v
    decreases n
  {
    if n > 0 {
      var m := 8 * (n - 1);
      assert Pow2(8 * n) == 256 * Pow2(m) by { Pow2Sum(8, m); assert Pow2(4) == 16; assert Pow2(8) == 256; }
      LittleEndianRoundTrip(v / 256, n - 1);
      assert LittleEndian(v, n)[1..] == LittleEndian(v / 256, n - 1);
    }
  }

  lemma WideNumber(n: int)
    requires -2 * n <= TWO64 && 2 * n < TWO64
    ensures Word(n) < TWO64 && Signed(Word(n) % TWO64, TWO64) == n
    ensures ZigZag(n) < TWO64 && n == if ZigZag(n) % 2 == 1 then -(ZigZag(n) / 2) - 1 else ZigZag(n) / 2
  {
  }

  /** A negative number of 32 bits or less is written as a word of 64 bits; its low half tells it. */
  lemma NarrowNumber(n: int)
    requires -2 * n <= TWO32 && 2 * n < TWO32
    ensures Signed(Word(n) % TWO32, TWO32) == n
  {
    if n < 0 {
      assert Word(n) == n + TWO64 == (TWO32 - 1) * TWO32 + (n + TWO32);
      assert Word(n) % TWO32 == n + TWO32;
    } else {
      assert Word(n) == n == n % TWO32;
    }
  }

  lemma NarrowKeeps(n: int, size: nat)
    requires IsSize(size) && -2 * n <= Limit(size) && 2 * n < Limit(size)
    ensures Narrow(n, size) == Some(n)
    ensures -2 * n <= TWO64 && 2 * n < TWO64
    ensures size != 8 ==> -2 * n <= TWO32 && 2 * n < TWO32
  {
  }

  /** The words of the three varint kinds lead back to the number. */
  lemma NumberRoundTrip(k: Kind, n: int)
    requires (k.Int? || k.UInt? || k.SInt?) && InRange(k, n)
    ensures var v := if k.SInt? then ZigZag(n) else Word(n); v < TWO64 && ReadNumber(k, v) == Some(n)
  {
    if !k.UInt? {
      NarrowKeeps(n, k.size);
      hide Word, Signed, ZigZag, Narrow, Limit;
      WideNumber(n);
      if k.size != 8 { NarrowNumber(n); }
    }
  }

  lemma FixedRead(v: nat, n: nat, tail: seq<byte>)
    requires v < Pow2(8 * n)
    ensures FromLittleEndian((LittleEndian(v, n) + tail)[..n]) == v
  {
    LittleEndianRoundTrip(v, n);
    assert (LittleEndian(v, n) + tail)[..n] == LittleEndian(v, n);
  }

  lemma ScalarRead(k: Kind, v: Value, tail: seq<byte>)
    requires Packable(k) && v.Num? && InRange(k, v.n)
    ensures Scalar(k, v).Some? && ReadScalar(k, Scalar(k, v).value + tail) == Some((v, |Scalar(k, v).value|))
  {
    hide Pow2, LittleEndian, FromLittleEndian, Varint, ReadVarint, ReadNumber, Limit, Word, ZigZag;
    WordBits();
    if k.Fixed32? {
      FixedRead(v.n, 4, tail);
    } else if k.Fixed64? {
      WordOfNat(v.n);
      FixedRead(v.n, 8, tail);
    } else {
      NumberRoundTrip(k, v.n);
      VarintRoundTrip(if k.SInt? then ZigZag(v.n) else Word(v.n), 64, tail);
    }
  }

  lemma WordOfNat(n: nat)
    requires n < TWO64
    ensures Word(n) == n
  {
  }

  lemma LengthRead(data: seq<byte>, tail: seq<byte>)
    requires |data| < TWO32
    ensures
      var b, u := Prefixed(data) + tail, |Varint(|data|)|;
      ReadLength(b) == Some((u, u + |data|)) && |Prefixed(data)| == u + |data| && b[u..u + |data|] == data
  {
    WordBits();
    VarintRoundTrip(|data|, 32, data + tail);
    assert Prefixed(data) + tail == Varint(|data|) + (data + tail);
  }

  /** A scalar in front is read first. */
  lemma PackedHead(k: Kind, max: nat, items: seq<Value>, v: Value, head: seq<byte>, rest: seq<byte>)
    requires |items| < max && head != [] && ReadScalar(k, head + rest) == Some((v, |head|))
    ensures ReadPacked(k, max, items, head + rest) == ReadPacked(k, max, items + [v], rest)
  {
    hide ReadScalar;
    assert (head + rest)[|head|..] == rest;
  }

  lemma PackedNone(k: Kind, max: nat, items: seq<Value>)
    ensures PackedBytes(k, items, |items|) == Some([]) && ReadPacked(k, max, items, []) == Some(items)
  {
  }

  lemma PackedFirst(k: Kind, items: seq<Value>, j: nat, head: seq<byte>, rest: seq<byte>)
    requires j < |items| && Scalar(k, items[j]) == Some(head) && PackedBytes(k, items, j + 1) == Some(rest)
    ensures PackedBytes(k, items, j) == Some(head + rest)
  {
    hide Scalar;
  }

  lemma {:induction false} PackedRead(k: Kind, max: nat, items: seq<Value>, j: nat)
    requires Packable(k) && j <= |items| <= max && forall i :: 0 <= i < |items| ==> items[i].Num? && InRange(k, items[i].n)
    ensures PackedBytes(k, items, j).Some?
    ensures ReadPacked(k, max, items[..j], PackedBytes(k, items, j).value) == Some(items)
    decreases |items| - j
  {
    hide *;
    if j == |items| {
      assert items[..j] == items;
      PackedNone(k, max, items);
    } else {
      PackedRead(k, max, items, j + 1);
      var rest := PackedBytes(k, items, j + 1).value;
      ScalarRead(k, items[j], rest);
      var head := Scalar(k, items[j]).value;
      PackedFirst(k, items, j, head, rest);
      assert items[..j + 1] == items[..j] + [items[j]];
      PackedHead(k, max, items[..j], items[j], head, rest);
    }
  }

  /** A key is read, leads to its field, and does not end the message. */
  lemma KeyRead(fields: seq<Field>, i: nat, wiretype: nat, tail: seq<byte>)
    requires Described(fields) && i < |fields| && wiretype < 8
    ensures
      var key := fields[i].tag * 8 + wiretype;
      && ReadVarint(Tag(wiretype, fields[i].tag) + tail, 0, 32) == Number(key, |Tag(wiretype, fields[i].tag)|)
      && key > 0 && key / 8 == fields[i].tag && key % 8 == wiretype && FieldOf(fields, key / 8) == Some(i)
  {
    WordBits();
    VarintRoundTrip(fields[i].tag * 8 + wiretype, 32, tail);
  }

  /** One turn of the decoding loop over an encoded field. */
  lemma FieldRead(fields: seq<Field>, slots: seq<Slot>, seen: set<nat>, i: nat, wiretype: nat, v: seq<byte>, tail: seq<byte>, s: Slot)
    requires Described(fields) && i < |fields| == |slots| && wiretype < 8
    requires ReadSlot(fields[i], slots[i], wiretype, v + tail) == Some((s, |v|))
    ensures ReadMessage(fields, slots, seen, Tag(wiretype, fields[i].tag) + v + tail)
            == ReadMessage(fields, Put(fields, slots, i, s), seen + {i}, tail)
  {
    hide ReadSlot, ReadVarint, FieldOf, Described, Put, AllSeen, SkipLength;
    KeyRead(fields, i, wiretype, v + tail);
    var key := Tag(wiretype, fields[i].tag);
    hide Tag;
    var b := key + v + tail;
    assert b == key + (v + tail);
    assert b[|key|..] == v + tail;
    assert b[|key| + |v|..] == tail;
  }

  /** After i fields: those before are restored, the others at their defaults. */
  function StateAt(fields: seq<Field>, slots: seq<Slot>, i: nat): (r: seq<Slot>)
    requires |slots| == |fields|
    ensures |r| == |slots|
  {
    seq(|slots|, j requires 0 <= j < |slots| => if j < i then RestoredSlot(fields[j], slots[j]) else DefaultSlot(fields[j]))
  }

  lemma {:induction false} DefaultsAre(fields: seq<Field>, n: nat)
    requires n <= |fields|
    ensures forall j :: 0 <= j < n ==> Defaults(fields, n)[j] == DefaultSlot(fields[j])
  {
    if n > 0 {
      hide DefaultSlot;
      DefaultsAre(fields, n - 1);
    }
  }

  lemma FirstAndLastState(fields: seq<Field>, slots: seq<Slot>)
    requires |slots| == |fields|
    ensures StateAt(fields, slots, 0) == Defaults(fields, |fields|)
    ensures StateAt(fields, slots, |fields|) == Restored(fields, slots)
  {
    DefaultsAre(fields, |fields|);
    hide DefaultSlot, RestoredSlot;
    assert Defaults(fields, |fields|) == StateAt(fields, slots, 0);
  }

  /** Putting the restored slot of field i makes the next state; of a union at most this member is set. */
  lemma PutRestores(fields: seq<Field>, slots: seq<Slot>, i: nat)
    requires i < |fields| == |slots| && StorableMessage(fields, slots)
    requires fields[i].rule.Oneof? ==> slots[i] != Choice(None)
    ensures Put(fields, StateAt(fields, slots, i), i, RestoredSlot(fields[i], slots[i])) == StateAt(fields, slots, i + 1)
  {
    var a, b := Put(fields, StateAt(fields, slots, i), i, RestoredSlot(fields[i], slots[i])), StateAt(fields, slots, i + 1);
    forall j | 0 <= j < |fields| ensures a[j] == b[j] {
      if j != i && fields[i].rule.Oneof? && fields[j].rule == fields[i].rule {
        assert StorableSlot(fields[j], slots[j]);
        assert slots[j] == Choice(None);
      }
    }
  }

  /** A field that writes nothing is restored by its default. */
  lemma AbsentIsDefault(fields: seq<Field>, slots: seq<Slot>, i: nat)
    requires i < |fields| == |slots| && StorableSlot(fields[i], slots[i])
    requires slots[i] == Choice(None) || slots[i] == Many([]) || (slots[i].Maybe? && !slots[i].has)
    ensures StateAt(fields, slots, i) == StateAt(fields, slots, i + 1) && SlotBytes(fields[i], slots[i]) == Some([])
  {
    hide DefaultValue, RestoredValue, Storable;
    var f, s := fields[i], slots[i];
    assert RestoredSlot(f, s) == DefaultSlot(f);
    assert SlotBytes(f, s) == Some([]);
    hide RestoredSlot, DefaultSlot;
    var a, b := StateAt(fields, slots, i), StateAt(fields, slots, i + 1);
    forall j | 0 <= j < |fields| ensures a[j] == b[j] {
    }
  }

  // ---- values, fields and messages, by recursion over the descriptor

  /** An encoded value reads back; a submessage is read over its defaults. */
  lemma {:induction false} ValueRead(k: Kind, v: Value, prior: Value, tail: seq<byte>)
    requires DescribedKind(k) && Storable(k, v) && ValueBytes(k, v).Some? && |ValueBytes(k, v).value| < TWO32
    requires k.Submessage? ==> prior == Message(Defaults(k.fields, |k.fields|))
    ensures ReadValue(k, prior, ValueBytes(k, v).value + tail) == Some((RestoredValue(k, v), |ValueBytes(k, v).value|))
    decreases k, 0
  {
    if Packable(k) {
      ScalarRead(k, v, tail);
    } else if k.Submessage? {
      var b := MessageBytes(k.fields, v.slots, 0).value;
      FirstAndLastState(k.fields, v.slots);
      MessageRead(k.fields, v.slots, 0, {});
      LengthRead(b, tail);
    } else {
      var data := if k.Text? then UpToNul(v.data) else v.data;
      if k.Text? { TextIsUnique(v.data, |v.data|); assert v.data[..|v.data|] == v.data; }
      LengthRead(data, tail);
    }
  }

  /** The elements of an unpacked array, one field after the other. */
  lemma {:induction false} ElementsRead(fields: seq<Field>, state: seq<Slot>, seen: set<nat>, i: nat, max: nat, items: seq<Value>, j: nat, tail: seq<byte>)
    requires Described(fields) && i < |fields| == |state| && fields[i].rule == Repeated(max) && !Packable(fields[i].kind)
    requires j <= |items| <= max && forall n :: 0 <= n < |items| ==> Storable(fields[i].kind, items[n])
    requires RestoredSlot(fields[i], Many(items[..j])) == state[i]
    requires Elements(fields[i], items, j).Some? && |Elements(fields[i], items, j).value| < TWO32
    ensures ReadMessage(fields, state, seen, Elements(fields[i], items, j).value + tail)
            == ReadMessage(fields, state[i := RestoredSlot(fields[i], Many(items))], if j == |items| then seen else seen + {i}, tail)
    decreases fields, 2, |items| - j
  {
    var f := fields[i];
    if j == |items| {
      assert items[..j] == items;
      assert [] + tail == tail;
      assert state[i := state[i]] == state;
    } else {
      ElementBytes(f, items, j);
      var rest := Elements(f, items, j + 1).value;
      var v := ValueBytes(f.kind, items[j]).value;
      assert DescribedField(f);
      hide ReadMessage, ReadSlot, ReadValue, RestoredValue, DefaultValue, Storable, Described, DescribedField, Put, RestoredSlot, Tag, Elements, ValueBytes, Tagged;
      FieldValueRead(f, items[j], rest + tail);
      var state' := state[i := RestoredSlot(f, Many(items[..j + 1]))];
      NextElement(f, max, items, j, state[i], v, rest + tail);
      FieldRead(fields, state, seen, i, WireType(f.kind), v, rest + tail, state'[i]);
      PutOne(fields, state, i, state'[i]);
      ElementsRead(fields, state', seen + {i}, i, max, items, j + 1, tail);
      Rejoin(Tag(WireType(f.kind), f.tag), v, rest, tail);
      var last := RestoredSlot(f, Many(items));
      assert state'[i := last] == state[i := last];
      assert seen + {i} + {i} == seen + {i};
    }
  }

  lemma ElementBytes(f: Field, items: seq<Value>, j: nat)
    requires j < |items| && Elements(f, items, j).Some?
    ensures ValueBytes(f.kind, items[j]).Some? && Elements(f, items, j + 1).Some?
    ensures Elements(f, items, j).value == Tag(WireType(f.kind), f.tag) + ValueBytes(f.kind, items[j]).value + Elements(f, items, j + 1).value
  {
  }

  lemma Rejoin(a: seq<byte>, b: seq<byte>, c: seq<byte>, d: seq<byte>)
    ensures a + b + c + d == a + b + (c + d)
  {
  }

  /** An element extends the list, read over a fresh default. */
  lemma NextElement(f: Field, max: nat, items: seq<Value>, j: nat, s: Slot, v: seq<byte>, tail: seq<byte>)
    requires f.rule == Repeated(max) && !Packable(f.kind) && j < |items| <= max && s == RestoredSlot(f, Many(items[..j]))
    requires ReadValue(f.kind, DefaultValue(f), v + tail) == Some((RestoredValue(f.kind, items[j]), |v|))
    ensures ReadSlot(f, s, WireType(f.kind), v + tail) == Some((RestoredSlot(f, Many(items[..j + 1])), |v|))
  {
    hide ReadValue, DefaultValue, RestoredValue;
    var longer := RestoredSlot(f, Many(items[..j + 1])).items;
    assert longer == s.items + [RestoredValue(f.kind, items[j])];
  }

  lemma PutOne(fields: seq<Field>, slots: seq<Slot>, i: nat, s: Slot)
    requires i < |fields| == |slots| && !fields[i].rule.Oneof?
    ensures Put(fields, slots, i, s) == slots[i := s]
  {
  }

  lemma {:induction false} FieldValueRead(f: Field, v: Value, tail: seq<byte>)
    requires DescribedField(f) && Storable(f.kind, v) && ValueBytes(f.kind, v).Some? && |ValueBytes(f.kind, v).value| < TWO32
    ensures ReadValue(f.kind, DefaultValue(f), ValueBytes(f.kind, v).value + tail)
            == Some((RestoredValue(f.kind, v), |ValueBytes(f.kind, v).value|))
    decreases f, 0
  {
    ValueRead(f.kind, v, DefaultValue(f), tail);
  }

  /** One present value of a required, optional or union field. */
  lemma {:induction false} SingleRead(fields: seq<Field>, slots: seq<Slot>, i: nat, seen: set<nat>, v: Value, tail: seq<byte>)
    requires Described(fields) && i < |fields| == |slots| && StorableMessage(fields, slots)
    requires (fields[i].rule.Required? && slots[i] == One(v)) || (fields[i].rule.Optional? && slots[i] == Maybe(true, v))
             || (fields[i].rule.Oneof? && slots[i] == Choice(Some(v)))
    requires SlotBytes(fields[i], slots[i]).Some? && |SlotBytes(fields[i], slots[i]).value| < TWO32
    ensures ReadMessage(fields, StateAt(fields, slots, i), seen, SlotBytes(fields[i], slots[i]).value + tail)
            == ReadMessage(fields, StateAt(fields, slots, i + 1), seen + {i}, tail)
    decreases fields, 1
  {
    var f, state := fields[i], StateAt(fields, slots, i);
    assert DescribedField(f) && StorableSlot(f, slots[i]);
    var b := ValueBytes(f.kind, v).value;
    FieldValueRead(f, v, tail);
    SingleSlot(f, slots[i], v, b + tail, |b|);
    FieldRead(fields, state, seen, i, WireType(f.kind), b, tail, RestoredSlot(f, slots[i]));
    PutRestores(fields, slots, i);
  }

  lemma SingleSlot(f: Field, s: Slot, v: Value, b: seq<byte>, n: nat)
    requires (f.rule.Required? && s == One(v)) || (f.rule.Optional? && s == Maybe(true, v)) || (f.rule.Oneof? && s == Choice(Some(v)))
    requires ReadValue(f.kind, DefaultValue(f), b) == Some((RestoredValue(f.kind, v), n))
    ensures 0 < n <= |b| && ReadSlot(f, DefaultSlot(f), WireType(f.kind), b) == Some((RestoredSlot(f, s), n))
  {
    hide ReadValue, DefaultValue, RestoredValue;
  }

  lemma PackedSlot(f: Field, max: nat, items: seq<Value>, tail: seq<byte>)
    requires f.rule == Repeated(max) && Packable(f.kind) && |items| <= max
    requires forall n :: 0 <= n < |items| ==> Storable(f.kind, items[n])
    requires PackedBytes(f.kind, items, 0).Some? && |PackedBytes(f.kind, items, 0).value| < TWO32
    ensures var b := Prefixed(PackedBytes(f.kind, items, 0).value);
            ReadSlot(f, Many([]), 2, b + tail) == Some((Many(items), |b|)) && RestoredSlot(f, Many(items)) == Many(items)
  {
    assert forall n :: 0 <= n < |items| ==> items[n].Num? && InRange(f.kind, items[n].n);
    PackedRead(f.kind, max, items, 0);
    LengthRead(PackedBytes(f.kind, items, 0).value, tail);
    assert items[..0] == [];
    hide ReadPacked, ReadLength, PackedBytes, Storable, InRange;
    assert RestoredSlot(f, Many(items)).items == items;
  }

  /** The encoding of one field takes the decoder from one state to the next. */
  lemma {:induction false} SlotRead(fields: seq<Field>, slots: seq<Slot>, i: nat, seen: set<nat>, tail: seq<byte>)
    returns (seen': set<nat>)
    requires Described(fields) && i < |fields| == |slots| && StorableMessage(fields, slots)
    requires SlotBytes(fields[i], slots[i]).Some? && |SlotBytes(fields[i], slots[i]).value| < TWO32
    ensures seen <= seen' && (fields[i].rule.Required? ==> i in seen')
    ensures ReadMessage(fields, StateAt(fields, slots, i), seen, SlotBytes(fields[i], slots[i]).value + tail)
            == ReadMessage(fields, StateAt(fields, slots, i + 1), seen', tail)
    decreases fields, 3
  {
    var f, s := fields[i], slots[i];
    assert StorableSlot(f, s);
    seen' := seen + {i};
    if s == Choice(None) || s == Many([]) || (s.Maybe? && !s.has) {
      seen' := seen;
      AbsentIsDefault(fields, slots, i);
      assert [] + tail == tail;
    } else if s.Many? {
      ManyRead(fields, slots, i, seen, tail);
    } else {
      SingleRead(fields, slots, i, seen, if s.One? then s.value else if s.Maybe? then s.optional else s.chosen.value, tail);
    }
  }

  lemma {:induction false} ManyRead(fields: seq<Field>, slots: seq<Slot>, i: nat, seen: set<nat>, tail: seq<byte>)
    requires Described(fields) && i < |fields| == |slots| && StorableMessage(fields, slots)
    requires SlotBytes(fields[i], slots[i]).Some? && |SlotBytes(fields[i], slots[i]).value| < TWO32
    requires slots[i].Many? && slots[i].items != []
    ensures ReadMessage(fields, StateAt(fields, slots, i), seen, SlotBytes(fields[i], slots[i]).value + tail)
            == ReadMessage(fields, StateAt(fields, slots, i + 1), seen + {i}, tail)
    decreases fields, 2, |slots[i].items| + 1
  {
    var f, items, state := fields[i], slots[i].items, StateAt(fields, slots, i);
    assert StorableSlot(f, slots[i]);
    var max := f.rule.max;
    PutRestores(fields, slots, i);
    if Packable(f.kind) {
      var b := Prefixed(PackedBytes(f.kind, items, 0).value);
      PackedSlot(f, max, items, tail);
      FieldRead(fields, state, seen, i, 2, b, tail, Many(items));
    } else {
      assert items[..0] == [];
      ElementsRead(fields, state, seen, i, max, items, 0, tail);
      PutOne(fields, state, i, RestoredSlot(f, slots[i]));
    }
  }

  lemma MessageEnd(fields: seq<Field>, slots: seq<Slot>, seen: set<nat>)
    requires |fields| == |slots| && forall j :: 0 <= j < |fields| && fields[j].rule.Required? ==> j in seen
    ensures MessageBytes(fields, slots, |fields|) == Some([])
    ensures ReadMessage(fields, StateAt(fields, slots, |fields|), seen, []) == Some((Restored(fields, slots), 0))
  {
    FirstAndLastState(fields, slots);
  }

  lemma MessageHead(fields: seq<Field>, slots: seq<Slot>, i: nat)
    requires i < |fields| == |slots| && MessageBytes(fields, slots, i).Some? && |MessageBytes(fields, slots, i).value| < TWO32
    ensures SlotBytes(fields[i], slots[i]).Some? && MessageBytes(fields, slots, i + 1).Some?
    ensures MessageBytes(fields, slots, i).value == SlotBytes(fields[i], slots[i]).value + MessageBytes(fields, slots, i + 1).value
    ensures |SlotBytes(fields[i], slots[i]).value| < TWO32 && |MessageBytes(fields, slots, i + 1).value| < TWO32
  {
    hide SlotBytes;
  }

  /** The fields from index i on lead from the state at i to the restored message. */
  lemma {:induction false} MessageRead(fields: seq<Field>, slots: seq<Slot>, i: nat, seen: set<nat>)
    requires Described(fields) && i <= |fields| == |slots| && StorableMessage(fields, slots)
    requires forall j :: 0 <= j < i && fields[j].rule.Required? ==> j in seen
    requires MessageBytes(fields, slots, i).Some? && |MessageBytes(fields, slots, i).value| < TWO32
    ensures ReadMessage(fields, StateAt(fields, slots, i), seen, MessageBytes(fields, slots, i).value) == Some((Restored(fields, slots), 0))
    decreases fields, 4, |fields| - i
  {
    hide *;
    if i == |fields| {
      MessageEnd(fields, slots, seen);
    } else {
      MessageHead(fields, slots, i);
      var rest := MessageBytes(fields, slots, i + 1).value;
      var seen' := SlotRead(fields, slots, i, seen, rest);
      MessageRead(fields, slots, i + 1, seen');
    }
  }

  /** Decoding what was encoded, over the initial struct, restores the message and uses up the bytes. */
  lemma RoundTrip(fields: seq<Field>, slots: seq<Slot>)
    requires Described(fields) && |slots| == |fields| && StorableMessage(fields, slots)
    requires MessageBytes(fields, slots, 0).Some? && |MessageBytes(fields, slots, 0).value| < TWO32
    ensures ReadMessage(fields, Defaults(fields, |fields|), {}, MessageBytes(fields, slots, 0).value) == Some((Restored(fields, slots), 0))
  {
    FirstAndLastState(fields, slots);
    MessageRead(fields, slots, 0, {});
  }

  /** A text that fills its buffer without a NUL is written but cannot be read back; every other text can. */
  lemma TextRestoredIff(buffer: nat, data: seq<byte>, tail: seq<byte>)
    requires |data| <= buffer < TWO32
    ensures ValueBytes(Text(buffer), Data(data)).Some?
    ensures
      var b := ValueBytes(Text(buffer), Data(data)).value;
      ReadValue(Text(buffer), Data([]), b + tail) == Some((Data(UpToNul(data)), |b|)) <==> |UpToNul(data)| < buffer
  {
    LengthRead(UpToNul(data), tail);
  }
}
