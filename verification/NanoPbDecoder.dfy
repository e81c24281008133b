/**
 The loops of nanopb's decoder: streams limited to a submessage or a packed
 array, the circular search for a field, and the record of required fields.
 */
module NanoPbDecoder {
  import opened Basics
  import opened ProtoWire
  import opened Varints
  import opened NanoPb
  import opened NanoPbDecode

  // ---------------------------------------------------------------------------
  // Streams
  // ---------------------------------------------------------------------------

  method Read(s: IStream, count: nat) returns (ok: bool, data: seq<byte>, t: IStream)
    requires Readable(s)
    ensures ok <==> count <= s.left
    ensures ok ==> t == Skip(s, count) && Readable(t) && data == Unread(s)[..count]
  {
    if s.left < count {
      return false, [], s;
    }
    data, t := s.buf[s.pos..s.pos + count], Skip(s, count);
    assert Unread(s)[..count] == data;
    ok := true;
  }

  /** The substream starts where the stream stands; the stream itself moves on only when the substream is closed. */
  method MakeSubstream(s: IStream) returns (ok: bool, t: IStream, sub: IStream)
    requires Readable(s)
    ensures ok <==> ReadLength(Unread(s)).Some?
    ensures ok ==>
              var (i, j) := ReadLength(Unread(s)).value;
              && j <= s.left && sub == IStream(s.buf, s.pos + i, j - i) && t == IStream(s.buf, s.pos + i, s.left - j)
              && Readable(sub) && Unread(sub) == Unread(s)[i..j]
  {
    hide *;
    Announced(s);
    var size: nat;
    ok, size, t := DecodeVarint(s, 32);
    sub := t;
    if !ok {
      return;
    }
    if sub.left < size {
      return false, t, sub;
    }
    SliceUnread(s, s.left - t.left, size);
    sub := sub.(left := size);
    t := t.(left := t.left - size);
  }

  /** A number in front announces how many bytes the substream has. */
  lemma Announced(s: IStream)
    requires Readable(s)
    ensures var length := ReadLength(Unread(s));
            match ReadVarint(Unread(s), 0, 32)
            case Broken(_) => length.None?
            case Number(size, n) =>
              && |Unread(s)| == s.left && n <= s.left && Skip(s, n) == IStream(s.buf, s.pos + n, s.left - n)
              && length == if s.left < n + size then None else Some((n, n + size))
  {
    UnreadRest(s, 0);
    hide Unread, ReadVarint;
  }

  lemma SliceUnread(s: IStream, i: nat, n: nat)
    requires Readable(s) && i + n <= s.left
    ensures |Unread(s)| == s.left && Readable(IStream(s.buf, s.pos + i, n))
    ensures Unread(IStream(s.buf, s.pos + i, n)) == Unread(s)[i..i + n]
  {
    var a, b := Unread(IStream(s.buf, s.pos + i, n)), Unread(s)[i..i + n];
    forall k | 0 <= k < n ensures a[k] == b[k] {
    }
  }

  /** Skips what is left of the substream and hands its position back. */
  method CloseSubstream(t: IStream, sub: IStream) returns (u: IStream)
    requires Readable(sub)
    ensures u == t.(pos := sub.pos + sub.left)
  {
    u := t.(pos := sub.pos + sub.left);
  }

  // ---------------------------------------------------------------------------
  // Values
  // ---------------------------------------------------------------------------

  method DecodeScalar(s: IStream, k: Kind) returns (ok: bool, v: Value, t: IStream)
    requires Readable(s) && Packable(k)
    ensures ok <==> ReadScalar(k, Unread(s)).Some?
    ensures ok ==> var r := ReadScalar(k, Unread(s)).value; r.1 <= s.left && v == r.0 && t == Skip(s, r.1) && Readable(t)
  {
    UnreadRest(s, 0);
    v := Num(0);
    if k.Fixed32? || k.Fixed64? {
      var data: seq<byte>;
      ok, data, t := Read(s, if k.Fixed32? then 4 else 8);
      if ok { v := Num(FromLittleEndian(data)); }
    } else {
      hide ReadVarint;
      var word: nat;
      ok, word, t := DecodeVarint(s, 64);
      if ok {
        var n := ReadNumber(k, word);
        if n.None? { return false, v, t; }
        v := Num(n.value);
      }
    }
  }

  /** The decoder that the kind of the field selects, over what the struct holds. */
  method DecodeValue(s: IStream, k: Kind, prior: Value) returns (defined: bool, ok: bool, v: Value, t: IStream)
    requires Readable(s) && DescribedKind(k)
    ensures Countable(k) ==> defined
    ensures defined ==> (ok <==> ReadValue(k, prior, Unread(s)).Some?)
    ensures defined && ok ==> var r := ReadValue(k, prior, Unread(s)).value; r.1 <= s.left && v == r.0 && t == Skip(s, r.1) && Readable(t)
    decreases k, 0
  {
    hide ReadScalar, ReadLength, ReadMessage;
    UnreadRest(s, 0);
    defined := true;
    if Packable(k) {
      ok, v, t := DecodeScalar(s, k);
      return;
    }
    var sub: IStream;
    v := prior;
    ok, t, sub := MakeSubstream(s);
    if !ok {
      return;
    }
    var data := sub.buf[sub.pos..sub.pos + sub.left];
    if k.Submessage? {
      if !prior.Message? || |prior.slots| != |k.fields| { return true, false, v, t; }
      var slots, rest;
      defined, ok, slots, rest := DecodeFields(sub, k.fields, prior.slots);
      if !defined { return; }
      v := Message(slots);
      sub := rest;
    } else if k.Bytes? {
      if sub.left > k.room { return true, false, v, t; }
      v, sub := Data(data), Skip(sub, sub.left);
    } else if k.Text? {
      if sub.left + 1 > k.buffer { return true, false, v, t; }
      v, sub := Data(data), Skip(sub, sub.left);
    } else {
      if sub.left == 0 {
        v := Data(seq(k.length, _ => 0));
      } else {
        if sub.left != k.length { return true, false, v, t; }
        v, sub := Data(data), Skip(sub, sub.left);
      }
    }
    if ok {
      assert sub.pos + sub.left == s.pos + ReadLength(Unread(s)).value.1;
      t := CloseSubstream(t, sub);
      assert t == Skip(s, ReadLength(Unread(s)).value.1);
    }
  }

  // ---------------------------------------------------------------------------
  // Fields
  // ---------------------------------------------------------------------------

  method DecodePacked(s: IStream, k: Kind, max: nat, before: seq<Value>) returns (ok: bool, items: seq<Value>)
    requires Readable(s) && Packable(k)
    ensures ok <==> ReadPacked(k, max, before, Unread(s)).Some?
    ensures ok ==> items == ReadPacked(k, max, before, Unread(s)).value
  {
    hide ReadScalar;
    items := before;
    var t := s;
    UnreadRest(t, 0);
    while t.left > 0 && |items| < max
      invariant Readable(t) && |Unread(t)| == t.left
      invariant ReadPacked(k, max, before, Unread(s)) == ReadPacked(k, max, items, Unread(t))
      decreases t.left
    {
      var v, u;
      ok, v, u := DecodeScalar(t, k);
      if !ok {
        return;
      }
      UnreadRest(t, t.left - u.left);
      UnreadRest(u, 0);
      items, t := items + [v], u;
    }
    ok := t.left == 0;
  }

  method DecodeField(s: IStream, f: Field, slot: Slot, wiretype: nat) returns (defined: bool, ok: bool, r: Slot, t: IStream)
    requires Readable(s) && DescribedField(f)
    ensures CountableField(f) ==> defined
    ensures defined ==> (ok <==> ReadSlot(f, slot, wiretype, Unread(s)).Some?)
    ensures defined && ok ==> var q := ReadSlot(f, slot, wiretype, Unread(s)).value; q.1 <= s.left && r == q.0 && t == Skip(s, q.1) && Readable(t)
    decreases f, 1
  {
    hide ReadValue, ReadPacked, ReadLength;
    UnreadRest(s, 0);
    defined, r, t := true, slot, s;
    var v: Value;
    match f.rule
    case Required =>
      if !slot.One? { return true, false, r, t; }
      defined, ok, v, t := DecodeValue(s, f.kind, slot.value);
      r := One(v);
    case Optional =>
      if !slot.Maybe? { return true, false, r, t; }
      defined, ok, v, t := DecodeValue(s, f.kind, slot.optional);
      r := Maybe(true, v);
    case Repeated(max) =>
      if !slot.Many? { return true, false, r, t; }
      if wiretype == 2 && Packable(f.kind) {
        var sub, items;
        ok, t, sub := MakeSubstream(s);
        if !ok { return; }
        ok, items := DecodePacked(sub, f.kind, max, slot.items);
        r := Many(items);
        t := CloseSubstream(t, sub);
      } else {
        if |slot.items| >= max { return true, false, r, t; }
        defined, ok, v, t := DecodeValue(s, f.kind, DefaultValue(f));
        r := Many(slot.items + [v]);
      }
    case Oneof(_) =>
      defined, ok, v, t := DecodeValue(s, f.kind, DefaultValue(f));
      r := Choice(Some(v));
  }

  /** How many required fields stand before place i. */
  function RequiredBefore(fields: seq<Field>, i: nat): (n: nat)
    requires i <= |fields|
  {
    if i == 0 then 0 else RequiredBefore(fields, i - 1) + if fields[i - 1].rule.Required? then 1 else 0
  }

  /** Where the iterator can stand, with how many required fields before it: at a field, or at the end of an empty table. */
  predicate Stands(fields: seq<Field>, pos: nat, index: nat) {
    (pos < |fields| || (pos == 0 && fields == [])) && index == RequiredBefore(fields, pos)
  }

  function TagAt(fields: seq<Field>, pos: nat): nat {
    if pos < |fields| then fields[pos].tag else 0
  }

  /** pb_field_iter_next: on to the next field, or back to the first. */
  method Advance(fields: seq<Field>, pos: nat, index: nat) returns (pos': nat, index': nat)
    requires Stands(fields, pos, index)
    ensures pos' == (if pos + 1 < |fields| then pos + 1 else 0) && Stands(fields, pos', index')
  {
    if pos == |fields| {
      return pos, index;
    }
    pos' := pos + 1;
    if pos' == |fields| {
      return 0, 0;
    }
    index' := if fields[pos].rule.Required? then index + 1 else index;
  }

  /** pb_field_iter_find: from where the iterator stands, once around. */
  method FindField(fields: seq<Field>, start: nat, index: nat, tag: nat) returns (found: bool, pos: nat, index': nat)
    requires Stands(fields, start, index)
    ensures Stands(fields, pos, index')
    ensures found ==> TagAt(fields, pos) == tag
    ensures !found ==> pos == start && !IsTerminator(fields, tag) && forall i :: 0 <= i < |fields| ==> fields[i].tag != tag
  {
    pos, index' := start, index;
    ghost var n := 0;
    while true
      invariant (n == 0 || n < |fields|) && pos == (if start + n < |fields| then start + n else start + n - |fields|)
      invariant Stands(fields, pos, index')
      invariant forall i :: start <= i < start + n && i < |fields| ==> fields[i].tag != tag
      invariant forall i :: 0 <= i < start + n - |fields| ==> fields[i].tag != tag
      decreases |fields| - n
    {
      if TagAt(fields, pos) == tag {
        return true, pos, index';
      }
      pos, index' := Advance(fields, pos, index');
      n := n + 1;
      if pos == start {
        return false, pos, index';
      }
    }
  }

  // ---------------------------------------------------------------------------
  // The record of required fields: 64 bits in two words
  // ---------------------------------------------------------------------------

  /** A word is the set of its bits. */
  type Word = set<nat>

  /** The n low bits. */
  function LowBits(n: nat): (w: Word)
    ensures forall r: nat :: r in w <==> r < n
  {
    if n == 0 then {} else LowBits(n - 1) + {n - 1}
  }

  /** All 32 bits shifted right. The language does not define a shift by the width of the word. */
  function AllBitsShifted(n: nat): Option<Word> {
    if n < 32 then Some(LowBits(32 - n)) else None
  }

  /** The bit of field i, if it is a required one, tells whether it was seen. */
  ghost predicate BitTells(fields: seq<Field>, words: seq<Word>, seen: set<nat>, i: nat)
    requires i < |fields| && |words| == 2
  {
    var n := RequiredBefore(fields, i);
    fields[i].rule.Required? && n < 64 ==> (n % 32 in words[n / 32] <==> i in seen)
  }

  ghost predicate IsPlace(fields: seq<Field>, n: nat) {
    exists i :: 0 <= i < |fields| && fields[i].rule.Required? && RequiredBefore(fields, i) == n
  }

  /** The record has a bit for each required field seen, at its place among the required fields, and no other bits. */
  ghost predicate Records(fields: seq<Field>, words: seq<Word>, seen: set<nat>) {
    && |words| == 2
    && (forall i :: 0 <= i < |fields| ==> BitTells(fields, words, seen, i))
    && forall w, r :: 0 <= w < 2 && r in words[w] ==> r < 32 && IsPlace(fields, 32 * w + r)
  }

  /** The check is defined whatever has been seen. */
  predicate Checkable(fields: seq<Field>) {
    var n := RequiredBefore(fields, |fields|);
    n == 0 || (n < 64 && n % 32 != 0)
  }

  /** The check comes to a verdict before it shifts by the whole width or reads behind the record: it need not, or one of
      the fields in its whole words is missing. */
  ghost predicate CheckDefined(fields: seq<Field>, seen: set<nat>) {
    Checkable(fields) || exists i :: 0 <= i < |fields| && MissingInWholeWord(fields, seen, i)
  }

  ghost predicate MissingInWholeWord(fields: seq<Field>, seen: set<nat>, i: nat)
    requires i < |fields|
  {
    fields[i].rule.Required? && i !in seen && RequiredBefore(fields, i) < 64
    && RequiredBefore(fields, i) / 32 < RequiredBefore(fields, |fields|) / 32
  }

  /** The check is defined for every descriptor in it, whatever has been seen. */
  ghost predicate Countable(k: Kind)
    decreases k
  {
    k.Submessage? ==> CountableFields(k.fields)
  }

  ghost predicate CountableField(f: Field)
    decreases f
  {
    Countable(f.kind)
  }

  ghost predicate CountableParts(fields: seq<Field>)
    decreases fields, 0
  {
    forall i :: 0 <= i < |fields| ==> CountableField(fields[i])
  }

  ghost predicate CountableFields(fields: seq<Field>)
    decreases fields, 1
  {
    Checkable(fields) && CountableParts(fields)
  }

  lemma {:induction false} RequiredGrows(fields: seq<Field>, i: nat, j: nat)
    requires i < j <= |fields|
    ensures RequiredBefore(fields, i) + (if fields[i].rule.Required? then 1 else 0) <= RequiredBefore(fields, j)
  {
    if i + 1 < j {
      RequiredGrows(fields, i, j - 1);
    }
  }

  /** The bit at the index of a required field is set, if the record holds that many. */
  function Marked(words: seq<Word>, required: bool, index: nat): (r: seq<Word>)
    requires |words| == 2
    ensures |r| == 2
  {
    if required && index < 64 then words[index / 32 := words[index / 32] + {index % 32}] else words
  }

  function Recorded(fields: seq<Field>, words: seq<Word>, i: nat): (r: seq<Word>)
    requires |words| == 2 && i < |fields|
    ensures |r| == 2
  {
    Marked(words, fields[i].rule.Required?, RequiredBefore(fields, i))
  }

  lemma OtherPlace(fields: seq<Field>, i: nat, j: nat)
    requires i < |fields| && j < |fields| && i != j && fields[i].rule.Required? && fields[j].rule.Required?
    ensures RequiredBefore(fields, i) != RequiredBefore(fields, j)
  {
    if i < j { RequiredGrows(fields, i, j); } else { RequiredGrows(fields, j, i); }
  }

  lemma RecordedBit(fields: seq<Field>, words: seq<Word>, seen: set<nat>, i: nat, j: nat)
    requires |words| == 2 && i < |fields| && j < |fields| && BitTells(fields, words, seen, j)
    ensures BitTells(fields, Recorded(fields, words, i), seen + {i}, j)
  {
    if j != i && fields[i].rule.Required? && fields[j].rule.Required? {
      OtherPlace(fields, i, j);
    }
    hide RequiredBefore;
  }

  lemma RecordField(fields: seq<Field>, words: seq<Word>, seen: set<nat>, i: nat)
    requires |words| == 2 && Records(fields, words, seen) && i < |fields|
    ensures Records(fields, Recorded(fields, words, i), seen + {i})
  {
    var after := Recorded(fields, words, i);
    hide RequiredBefore;
    forall j | 0 <= j < |fields| ensures BitTells(fields, after, seen + {i}, j) {
      assert BitTells(fields, words, seen, j);
      RecordedBit(fields, words, seen, i, j);
    }
    hide BitTells;
    forall w, r | 0 <= w < 2 && r in after[w] ensures r < 32 && IsPlace(fields, 32 * w + r) {
      if r !in words[w] {
        assert 32 * w + r == RequiredBefore(fields, i) && fields[i].rule.Required?;
      }
    }
  }

  /** Some required field stands at each place among the required fields. */
  lemma {:induction false} RequiredAt(fields: seq<Field>, m: nat, n: nat) returns (i: nat)
    requires m <= |fields| && n < RequiredBefore(fields, m)
    ensures i < m && fields[i].rule.Required? && RequiredBefore(fields, i) == n
  {
    if n < RequiredBefore(fields, m - 1) {
      i := RequiredAt(fields, m - 1, n);
    } else {
      i := m - 1;
    }
  }

  /** Seeks to the end of the field table to count the required fields. */
  method CountRequired(fields: seq<Field>, start: nat, index: nat) returns (count: nat)
    requires Stands(fields, start, index)
    ensures count == RequiredBefore(fields, |fields|)
  {
    var pos, i := start, index;
    while pos + 1 < |fields|
      invariant Stands(fields, pos, i)
      decreases |fields| - pos
    {
      pos, i := Advance(fields, pos, i);
    }
    count := if pos < |fields| && fields[pos].rule.Required? then i + 1 else i;
  }

  datatype Verdict = Present | Missing | Undefined

  /** The check of whole words and of the remaining bits. The language leaves it undefined exactly when it comes to a
      shift by 32 or to a word that the record does not have. */
  method RequiredPresent(fields: seq<Field>, words: seq<Word>, start: nat, index: nat, ghost seen: set<nat>)
    returns (verdict: Verdict)
    requires Records(fields, words, seen) && Stands(fields, start, index)
    ensures verdict.Undefined? <==> !CheckDefined(fields, seen)
    ensures verdict.Present? ==> AllSeen(fields, seen)
    ensures verdict.Missing? ==> !AllSeen(fields, seen)
  {
    var count := CountRequired(fields, start, index);
    assert |words| == 2;
    hide Records, AllSeen, CheckDefined, RequiredBefore, LowBits;
    if count == 0 {
      NoneRequired(fields, seen);
      return Present;
    }
    var w := 0;
    while w < count / 32
      invariant 0 <= w <= count / 32 && w <= 2
      invariant forall v :: 0 <= v < w ==> words[v] == LowBits(32)
    {
      if w == 2 {
        WholeWordsSeen(fields, words, seen, w);
        return Undefined;
      }
      if words[w] != LowBits(32) {
        WordNotWhole(fields, words, seen, w);
        return Missing;
      }
      w := w + 1;
    }
    WholeWordsSeen(fields, words, seen, w);
    var mask := AllBitsShifted(32 - count % 32);
    if w == 2 || mask.None? {
      return Undefined;
    }
    PresentMeansBits(fields, words, seen, count);
    verdict := if words[w] == mask.value then Present else Missing;
  }

  ghost predicate BitsSet(words: seq<Word>, n: nat)
    requires |words| == 2 && n < 64
  {
    (forall v :: 0 <= v < n / 32 ==> words[v] == LowBits(32)) && words[n / 32] == LowBits(n % 32)
  }

  /** No bit beyond the number of required fields is ever set. */
  lemma BitsAreBelow(fields: seq<Field>, words: seq<Word>, seen: set<nat>, w: nat, r: nat)
    requires Records(fields, words, seen) && w < 2 && r in words[w]
    ensures r < 32 && 32 * w + r < RequiredBefore(fields, |fields|)
  {
    assert IsPlace(fields, 32 * w + r);
    var i :| 0 <= i < |fields| && fields[i].rule.Required? && RequiredBefore(fields, i) == 32 * w + r;
    RequiredGrows(fields, i, |fields|);
  }

  lemma Place(w: nat, r: nat)
    requires r < 32
    ensures (32 * w + r) % 32 == r && (32 * w + r) / 32 == w
  {
  }

  lemma SeenSetsBit(fields: seq<Field>, words: seq<Word>, seen: set<nat>, w: nat, r: nat)
    requires Records(fields, words, seen) && AllSeen(fields, seen) && w < 2 && r < 32
    requires 32 * w + r < RequiredBefore(fields, |fields|)
    ensures r in words[w]
  {
    var i := RequiredAt(fields, |fields|, 32 * w + r);
    Place(w, r);
    hide RequiredBefore;
    assert BitTells(fields, words, seen, i);
  }

  lemma SeenSetsBits(fields: seq<Field>, words: seq<Word>, seen: set<nat>, n: nat)
    requires Records(fields, words, seen) && n == RequiredBefore(fields, |fields|) && n < 64 && AllSeen(fields, seen)
    ensures BitsSet(words, n)
  {
    forall w, r: nat | 0 <= w < 2 ensures r in words[w] <==> r < 32 && 32 * w + r < n {
      if r in words[w] { BitsAreBelow(fields, words, seen, w, r); }
      if r < 32 && 32 * w + r < n { SeenSetsBit(fields, words, seen, w, r); }
    }
    hide Records, AllSeen, RequiredBefore;
    forall v | 0 <= v < n / 32 ensures words[v] == LowBits(32) {
      assert forall r :: r in words[v] <==> r in LowBits(32);
    }
    assert forall r :: r in words[n / 32] <==> r in LowBits(n % 32);
  }

  lemma BitsMeanSeen(fields: seq<Field>, words: seq<Word>, seen: set<nat>, n: nat)
    requires Records(fields, words, seen) && n == RequiredBefore(fields, |fields|) && n < 64 && BitsSet(words, n)
    ensures AllSeen(fields, seen)
  {
    forall i | 0 <= i < |fields| && fields[i].rule.Required? ensures i in seen {
      RequiredGrows(fields, i, |fields|);
      hide RequiredBefore;
      assert BitTells(fields, words, seen, i);
      BelowIsSet(words, n, RequiredBefore(fields, i));
    }
  }

  lemma BelowIsSet(words: seq<Word>, n: nat, m: nat)
    requires |words| == 2 && n < 64 && BitsSet(words, n) && m < n
    ensures m % 32 in words[m / 32]
  {
    if m / 32 == n / 32 {
      assert m % 32 in LowBits(n % 32);
    } else {
      assert words[m / 32] == LowBits(32);
    }
  }

  /** With some required fields, all are seen exactly when the low bits are set, in whole words and in the last one. */
  lemma PresentMeansBits(fields: seq<Field>, words: seq<Word>, seen: set<nat>, n: nat)
    requires Records(fields, words, seen) && n == RequiredBefore(fields, |fields|) && n < 64
    ensures AllSeen(fields, seen) <==> BitsSet(words, n)
  {
    if AllSeen(fields, seen) {
      SeenSetsBits(fields, words, seen, n);
    }
    if BitsSet(words, n) {
      BitsMeanSeen(fields, words, seen, n);
    }
  }

  lemma NoneRequired(fields: seq<Field>, seen: set<nat>)
    requires RequiredBefore(fields, |fields|) == 0
    ensures CheckDefined(fields, seen) && AllSeen(fields, seen)
  {
    forall i | 0 <= i < |fields| ensures !fields[i].rule.Required? { RequiredGrows(fields, i, |fields|); }
  }

  /** A whole word with a bit missing: a required field is missing. */
  lemma WordNotWhole(fields: seq<Field>, words: seq<Word>, seen: set<nat>, w: nat)
    requires Records(fields, words, seen) && w < 2 && w < RequiredBefore(fields, |fields|) / 32 && words[w] != LowBits(32)
    ensures CheckDefined(fields, seen) && !AllSeen(fields, seen)
  {
    var missing := LowBits(32) - words[w];
    assert words[w] <= LowBits(32) && words[w] + missing == LowBits(32);
    assert missing != {};
    var r: nat :| r in missing;
    var i := RequiredAt(fields, |fields|, 32 * w + r);
    Place(w, r);
    hide RequiredBefore;
    assert BitTells(fields, words, seen, i);
    assert MissingInWholeWord(fields, seen, i);
  }

  /** With all whole words of the record full, no field in them is missing. */
  lemma WholeWordsSeen(fields: seq<Field>, words: seq<Word>, seen: set<nat>, w: nat)
    requires Records(fields, words, seen) && (w == 2 || (w < 2 && w == RequiredBefore(fields, |fields|) / 32))
    requires forall v :: 0 <= v < w ==> words[v] == LowBits(32)
    ensures CheckDefined(fields, seen) <==> Checkable(fields)
  {
    hide RequiredBefore, Checkable;
    forall i | 0 <= i < |fields| ensures !MissingInWholeWord(fields, seen, i) {
      var n := RequiredBefore(fields, i);
      assert BitTells(fields, words, seen, i);
      if n / 32 < w { assert n % 32 in LowBits(32); }
    }
  }

  /** The check is defined whatever has been seen exactly for counts of required fields that are 0, or below 64 and no
      multiple of 32: with all of them seen, it comes to the shift by 32 or behind the record. */
  lemma CheckDefinedIff(fields: seq<Field>)
    ensures (forall seen :: CheckDefined(fields, seen)) <==> Checkable(fields)
  {
    var all := LowBits(|fields|);
    if !Checkable(fields) { assert !CheckDefined(fields, all); }
  }

  /** A descriptor with 32 required fields, all of them seen. */
  lemma Required32Undefined() returns (fields: seq<Field>, seen: set<nat>)
    ensures |fields| == 32 && Described(fields) && (forall i :: 0 <= i < 32 ==> fields[i].rule.Required?)
    ensures AllSeen(fields, seen) && !CheckDefined(fields, seen)
  {
    fields := seq(32, i requires 0 <= i => Field(i + 1, Required, Fixed32, Num(0)));
    seen := LowBits(32);
    AllRequired(fields, 32);
  }

  lemma {:induction false} AllRequired(fields: seq<Field>, n: nat)
    requires n <= |fields| && forall i :: 0 <= i < n ==> fields[i].rule.Required?
    ensures RequiredBefore(fields, n) == n
  {
    if n > 0 { AllRequired(fields, n - 1); }
  }

  // ---------------------------------------------------------------------------
  // Messages
  // ---------------------------------------------------------------------------

  method SkipVarintField(s: IStream) returns (ok: bool, t: IStream)
    requires Readable(s)
    ensures ok <==> SkipVarint(Unread(s)).Some?
    ensures ok ==> var n := SkipVarint(Unread(s)).value; n <= s.left && t == Skip(s, n) && Readable(t)
  {
    hide Unread;
    t := s;
    UnreadRest(t, 0);
    while true
      invariant Readable(t) && t.left <= s.left && t == Skip(s, s.left - t.left) && |Unread(t)| == t.left
      invariant var all, rest := SkipVarint(Unread(s)), SkipVarint(Unread(t));
                if rest.None? then all.None? else all == Some(s.left - t.left + rest.value)
      decreases t.left
    {
      var data, u;
      ok, data, u := Read(t, 1);
      if !ok { return; }
      UnreadRest(t, 1);
      UnreadRest(u, 0);
      t := u;
      if data[0] < 128 { return; }
    }
  }

  method SkipField(s: IStream, wiretype: nat) returns (ok: bool, t: IStream)
    requires Readable(s)
    ensures ok <==> SkipLength(wiretype, Unread(s)).Some?
    ensures ok ==> var n := SkipLength(wiretype, Unread(s)).value; n <= s.left && t == Skip(s, n) && Readable(t)
  {
    hide ReadVarint;
    UnreadRest(s, 0);
    t := s;
    var data;
    if wiretype == 0 {
      ok, t := SkipVarintField(s);
    } else if wiretype == 1 {
      ok, data, t := Read(s, 8);
    } else if wiretype == 5 {
      ok, data, t := Read(s, 4);
    } else if wiretype == 2 {
      var sub;
      ok, t, sub := MakeSubstream(s);
      if ok { t := CloseSubstream(t, sub); }
    } else {
      ok := false;
    }
  }

  /** What ReadMessage does with a key. */
  ghost predicate KeyStep(fields: seq<Field>, slots: seq<Slot>, seen: set<nat>, b: seq<byte>, key: nat, used: nat)
    requires |slots| == |fields| && used <= |b|
  {
    var all, i := ReadMessage(fields, slots, seen, b), FieldOf(fields, key / 8);
    if key == 0 then all == Finished(fields, slots, seen, |b| - used)
    else if i.None? then
      var n := if IsTerminator(fields, key / 8) then None else SkipLength(key % 8, b[used..]);
      if n.None? then all.None? else all == ReadMessage(fields, slots, seen, b[used + n.value..])
    else FieldStep(fields, slots, seen, b, key, used, i.value)
  }

  /** What it does when the key leads to field i. */
  ghost predicate FieldStep(fields: seq<Field>, slots: seq<Slot>, seen: set<nat>, b: seq<byte>, key: nat, used: nat, i: nat)
    requires i < |slots| == |fields| && used <= |b|
  {
    var all, r := ReadMessage(fields, slots, seen, b), ReadSlot(fields[i], slots[i], key % 8, b[used..]);
    if r.None? then all.None?
    else all == ReadMessage(fields, Put(fields, slots, i, r.value.0), seen + {i}, b[used + r.value.1..])
  }

  /** The equation of ReadMessage, for the loop that computes it. */
  lemma MessageStep(fields: seq<Field>, slots: seq<Slot>, seen: set<nat>, b: seq<byte>)
    requires |slots| == |fields|
    ensures b == [] ==> ReadMessage(fields, slots, seen, b) == Finished(fields, slots, seen, 0)
    ensures b != [] && ReadVarint(b, 0, 32).Broken? ==>
              ReadMessage(fields, slots, seen, b) == if ReadVarint(b, 0, 32).read == |b| then Finished(fields, slots, seen, 0) else None
    ensures b != [] && ReadVarint(b, 0, 32).Number? ==> KeyStep(fields, slots, seen, b, ReadVarint(b, 0, 32).value, ReadVarint(b, 0, 32).used)
  {
    hide Finished, ReadVarint, FieldOf, SkipLength, ReadSlot, Put;
  }

  lemma FoundIsFieldOf(fields: seq<Field>, i: nat, tag: nat)
    requires Described(fields) && i < |fields| && fields[i].tag == tag
    ensures FieldOf(fields, tag) == Some(i) && DescribedField(fields[i])
    ensures CountableParts(fields) ==> CountableField(fields[i])
  {
  }

  /** One field after its key: decoded and recorded, or skipped. b is what was unread before the key. */
  method DecodeKey(s: IStream, fields: seq<Field>, before: seq<Slot>, record: seq<Word>, start: nat, first: nat, key: nat,
                   ghost had: set<nat>, ghost b: seq<byte>, ghost used: nat)
    returns (defined: bool, ok: bool, t: IStream, slots: seq<Slot>, words: seq<Word>, pos: nat, index: nat, ghost seen: set<nat>)
    requires Readable(s) && Described(fields) && |before| == |fields| && Records(fields, record, had)
    requires Stands(fields, start, first)
    requires used <= |b| && Unread(s) == b[used..] && key != 0 && KeyStep(fields, before, had, b, key, used)
    ensures |slots| == |fields| && Stands(fields, pos, index)
    ensures CountableParts(fields) ==> defined
    ensures defined && ok ==> Records(fields, words, seen) && Further(s, t)
    ensures defined ==>
            if ok then ReadMessage(fields, before, had, b) == ReadMessage(fields, slots, seen, Unread(t))
            else ReadMessage(fields, before, had, b).None?
    decreases fields, 1
  {
    hide *;
    defined, t, slots, words, seen := true, s, before, record, had;
    var found;
    ghost var n: nat;
    found, pos, index := FindField(fields, start, first, key / 8);
    Standing(fields, pos, index);
    if found && pos == |fields| {
      TerminatorStep(fields, slots, seen, b, key, used);
      return true, false, t, slots, words, pos, index, seen;
    }
    if found {
      FoundIsFieldOf(fields, pos, key / 8);
      LeadsToField(fields, slots, seen, b, key, used, pos);
      SlotStep(fields, slots, seen, b, key, used, pos);
      var slot;
      defined, ok, slot, t := DecodeField(s, fields[pos], slots[pos], key % 8);
      if !defined || !ok { return; }
      n := ReadSlot(fields[pos], slots[pos], key % 8, Unread(s)).value.1;
      MarkRecords(fields, words, seen, pos, index);
      words := Marked(words, fields[pos].rule.Required?, index);
      slots, seen := Put(fields, slots, pos, slot), seen + {pos};
    } else {
      SkipStep(fields, slots, seen, b, key, used);
      ok, t := SkipField(s, key % 8);
      if !ok { return; }
      n := SkipLength(key % 8, Unread(s)).value;
    }
    RestOfRest(s, n, b, used);
  }

  lemma Standing(fields: seq<Field>, pos: nat, index: nat)
    requires Stands(fields, pos, index)
    ensures pos <= |fields| && (pos == |fields| ==> fields == []) && (pos < |fields| ==> TagAt(fields, pos) == fields[pos].tag)
    ensures pos == |fields| ==> TagAt(fields, pos) == 0
  {
  }

  lemma TerminatorStep(fields: seq<Field>, slots: seq<Slot>, seen: set<nat>, b: seq<byte>, key: nat, used: nat)
    requires fields == [] && slots == [] && key != 0 && key / 8 == 0 && used <= |b| && KeyStep(fields, slots, seen, b, key, used)
    ensures ReadMessage(fields, slots, seen, b).None?
  {
    hide ReadMessage;
  }

  lemma SkipStep(fields: seq<Field>, slots: seq<Slot>, seen: set<nat>, b: seq<byte>, key: nat, used: nat)
    requires |fields| == |slots| && key != 0 && used <= |b| && KeyStep(fields, slots, seen, b, key, used)
    requires !IsTerminator(fields, key / 8) && forall i :: 0 <= i < |fields| ==> fields[i].tag != key / 8
    ensures var n := SkipLength(key % 8, b[used..]);
            if n.None? then ReadMessage(fields, slots, seen, b).None?
            else ReadMessage(fields, slots, seen, b) == ReadMessage(fields, slots, seen, b[used + n.value..])
  {
    hide ReadMessage, SkipLength, FieldOf;
  }

  lemma LeadsToField(fields: seq<Field>, slots: seq<Slot>, seen: set<nat>, b: seq<byte>, key: nat, used: nat, i: nat)
    requires |fields| == |slots| && key != 0 && used <= |b| && KeyStep(fields, slots, seen, b, key, used)
    requires i < |fields| && FieldOf(fields, key / 8) == Some(i)
    ensures FieldStep(fields, slots, seen, b, key, used, i)
  {
    hide FieldStep, ReadMessage, FieldOf;
  }

  lemma SlotStep(fields: seq<Field>, slots: seq<Slot>, seen: set<nat>, b: seq<byte>, key: nat, used: nat, i: nat)
    requires i < |slots| == |fields| && used <= |b| && FieldStep(fields, slots, seen, b, key, used, i)
    ensures var r := ReadSlot(fields[i], slots[i], key % 8, b[used..]);
            if r.None? then ReadMessage(fields, slots, seen, b).None?
            else ReadMessage(fields, slots, seen, b)
                 == ReadMessage(fields, Put(fields, slots, i, r.value.0), seen + {i}, b[used + r.value.1..])
  {
    hide ReadMessage, ReadSlot, Put;
  }

  lemma MarkRecords(fields: seq<Field>, words: seq<Word>, seen: set<nat>, i: nat, index: nat)
    requires Records(fields, words, seen) && i < |fields| && Stands(fields, i, index)
    ensures |words| == 2 && Records(fields, Marked(words, fields[i].rule.Required?, index), seen + {i})
  {
    RecordField(fields, words, seen, i);
  }

  /** t is further on in the stream s. */
  ghost predicate Further(s: IStream, t: IStream) {
    Readable(t) && t.left <= s.left && t == Skip(s, s.left - t.left)
  }

  lemma FurtherOn(s: IStream, t: IStream, u: IStream)
    requires Readable(s) && Further(s, t) && Further(t, u)
    ensures Further(s, u) && |Unread(u)| == u.left && u.left <= t.left
  {
    UnreadRest(u, 0);
  }

  lemma StartsHere(s: IStream)
    requires Readable(s)
    ensures Further(s, s) && |Unread(s)| == s.left
  {
    UnreadRest(s, 0);
  }

  lemma RestOfRest(s: IStream, n: nat, b: seq<byte>, used: nat)
    requires Readable(s) && used <= |b| && Unread(s) == b[used..] && n <= s.left
    ensures Further(s, Skip(s, n)) && used + n <= |b| && Unread(Skip(s, n)) == b[used + n..]
  {
    UnreadRest(s, n);
  }

  /** pb_decode_tag: the next key, or how the message ends. */
  method DecodeTag(s: IStream, ghost fields: seq<Field>, ghost slots: seq<Slot>, ghost seen: set<nat>)
    returns (ok: bool, eof: bool, key: nat, t: IStream)
    requires Readable(s) && s.left > 0 && |slots| == |fields|
    ensures Readable(t) && Further(s, t) && (ok ==> t.left < s.left)
    ensures ok ==> s.left - t.left <= |Unread(s)| && Unread(t) == Unread(s)[s.left - t.left..]
                   && key != 0 && KeyStep(fields, slots, seen, Unread(s), key, s.left - t.left)
    ensures !ok ==> ReadMessage(fields, slots, seen, Unread(s)) == if eof then Finished(fields, slots, seen, t.left) else None
  {
    hide *;
    ok, key, t := DecodeVarint(s, 32);
    ghost var first := ReadVarint(Unread(s), 0, 32);
    if !ok {
      TagBroken(s, fields, slots, seen, first.read);
      return false, t.left == 0, 0, t;
    }
    TagRead(s, fields, slots, seen, key, first.used);
    if key == 0 {
      return false, true, 0, t;
    }
    eof := false;
  }

  lemma KeyZero(fields: seq<Field>, slots: seq<Slot>, seen: set<nat>, b: seq<byte>, used: nat)
    requires |slots| == |fields| && used <= |b| && KeyStep(fields, slots, seen, b, 0, used)
    ensures ReadMessage(fields, slots, seen, b) == Finished(fields, slots, seen, |b| - used)
  {
    hide ReadMessage, Finished, FieldOf, FieldStep;
  }

  lemma TagBroken(s: IStream, fields: seq<Field>, slots: seq<Slot>, seen: set<nat>, n: nat)
    requires Readable(s) && s.left > 0 && |slots| == |fields| && ReadVarint(Unread(s), 0, 32) == Broken(n) && n <= s.left
    ensures Skip(s, n).left == s.left - n && Further(s, Skip(s, n))
    ensures n == s.left ==> ReadMessage(fields, slots, seen, Unread(s)) == Finished(fields, slots, seen, 0)
    ensures n < s.left ==> ReadMessage(fields, slots, seen, Unread(s)).None?
  {
    UnreadRest(s, 0);
    MessageStep(fields, slots, seen, Unread(s));
    hide ReadMessage, ReadVarint, Unread, Finished, KeyStep;
  }

  lemma TagRead(s: IStream, fields: seq<Field>, slots: seq<Slot>, seen: set<nat>, key: nat, n: nat)
    requires Readable(s) && s.left > 0 && |slots| == |fields| && ReadVarint(Unread(s), 0, 32) == Number(key, n)
    ensures 0 < n <= s.left == |Unread(s)| && Skip(s, n).left == s.left - n && Further(s, Skip(s, n))
    ensures Unread(Skip(s, n)) == Unread(s)[n..]
    ensures key == 0 ==> ReadMessage(fields, slots, seen, Unread(s)) == Finished(fields, slots, seen, s.left - n)
    ensures key != 0 ==> KeyStep(fields, slots, seen, Unread(s), key, n)
  {
    UnreadRest(s, 0);
    MessageStep(fields, slots, seen, Unread(s));
    UnreadRest(s, n);
    hide ReadMessage, ReadVarint, Unread, Finished, KeyStep;
    if key == 0 { KeyZero(fields, slots, seen, Unread(s), n); }
  }

  /** The loop over keys, until the stream or the message ends. */
  method DecodeKeys(s: IStream, fields: seq<Field>, before: seq<Slot>)
    returns (defined: bool, ok: bool, slots: seq<Slot>, t: IStream, words: seq<Word>, pos: nat, index: nat, ghost seen: set<nat>)
    requires Readable(s) && Described(fields) && |before| == |fields|
    ensures CountableParts(fields) ==> defined
    ensures defined && !ok ==> ReadMessage(fields, before, {}, Unread(s)).None?
    ensures defined && ok ==>
              && ReadMessage(fields, before, {}, Unread(s)) == Finished(fields, slots, seen, t.left)
              && Records(fields, words, seen) && Stands(fields, pos, index) && |slots| == |fields| && Further(s, t)
    decreases fields, 2
  {
    hide *;
    defined, slots, t := true, before, s;
    words, pos, index, seen := [{}, {}], 0, 0, {};
    NothingRecorded(fields);
    StartsHere(s);
    while t.left > 0
      invariant Readable(t) && Further(s, t) && |slots| == |fields| && |Unread(t)| == t.left
      invariant Stands(fields, pos, index) && Records(fields, words, seen) && defined
      invariant ReadMessage(fields, before, {}, Unread(s)) == ReadMessage(fields, slots, seen, Unread(t))
      decreases t.left
    {
      var eof, key, u, w;
      ok, eof, key, u := DecodeTag(t, fields, slots, seen);
      if !ok {
        FurtherOn(s, t, u);
        return defined, eof, slots, u, words, pos, index, seen;
      }
      ghost var used := t.left - u.left;
      defined, ok, w, slots, words, pos, index, seen := DecodeKey(u, fields, slots, words, pos, index, key, seen, Unread(t), used);
      if !defined || !ok { return; }
      FurtherOn(t, u, w);
      FurtherOn(s, t, w);
      t := w;
    }
    ok := true;
    MessageStep(fields, slots, seen, Unread(t));
  }

  /** pb_decode_noinit: the loop over keys, then the check of the required fields. */
  method DecodeFields(s: IStream, fields: seq<Field>, before: seq<Slot>)
    returns (defined: bool, ok: bool, slots: seq<Slot>, t: IStream)
    requires Readable(s) && Described(fields) && |before| == |fields|
    ensures CountableFields(fields) ==> defined
    ensures CountableParts(fields) && ReadMessage(fields, before, {}, Unread(s)).Some? ==> (defined <==> Checkable(fields))
    ensures defined ==> (ok <==> ReadMessage(fields, before, {}, Unread(s)).Some?)
    ensures defined && ok ==> var r := ReadMessage(fields, before, {}, Unread(s)).value;
                              slots == r.0 && r.1 <= s.left && t == Skip(s, s.left - r.1) && Readable(t)
    decreases fields, 3
  {
    hide ReadMessage, Unread, Finished, Records, Described, CountableParts, CountableFields;
    hide Checkable, CheckDefined, AllSeen, RequiredBefore, Stands;
    var words, pos, index;
    ghost var seen;
    defined, ok, slots, t, words, pos, index, seen := DecodeKeys(s, fields, before);
    CountableMeans(fields);
    if !defined || !ok { return; }
    var verdict := RequiredPresent(fields, words, pos, index, seen);
    FinishedMeans(fields, slots, seen, t.left);
    DefinedMeans(fields, seen);
    defined, ok := !verdict.Undefined?, verdict.Present?;
  }

  lemma CountableMeans(fields: seq<Field>)
    ensures CountableFields(fields) <==> Checkable(fields) && CountableParts(fields)
  {
  }

  lemma FinishedMeans(fields: seq<Field>, slots: seq<Slot>, seen: set<nat>, left: nat)
    ensures Finished(fields, slots, seen, left) == if AllSeen(fields, seen) then Some((slots, left)) else None
  {
  }

  lemma DefinedMeans(fields: seq<Field>, seen: set<nat>)
    ensures Checkable(fields) ==> CheckDefined(fields, seen)
    ensures AllSeen(fields, seen) ==> (CheckDefined(fields, seen) <==> Checkable(fields))
  {
    hide Checkable, RequiredBefore;
  }

  lemma NothingRecorded(fields: seq<Field>)
    ensures Records(fields, [{}, {}], {}) && Stands(fields, 0, 0)
  {
  }

  /** pb_decode: over the initial struct. */
  method Decode(s: IStream, fields: seq<Field>) returns (defined: bool, ok: bool, slots: seq<Slot>, t: IStream)
    requires Readable(s) && Described(fields)
    ensures CountableFields(fields) ==> defined
    ensures CountableParts(fields) && ReadMessage(fields, Defaults(fields, |fields|), {}, Unread(s)).Some? ==>
              (defined <==> Checkable(fields))
    ensures defined ==> (ok <==> ReadMessage(fields, Defaults(fields, |fields|), {}, Unread(s)).Some?)
    ensures defined && ok ==> var r := ReadMessage(fields, Defaults(fields, |fields|), {}, Unread(s)).value;
                   slots == r.0 && r.1 <= s.left && t == Skip(s, s.left - r.1)
  {
    hide ReadMessage, Defaults, CountableFields;
    defined, ok, slots, t := DecodeFields(s, fields, Defaults(fields, |fields|));
  }

  /**
   The whole way: encoding into a buffer that is large enough succeeds, and decoding those bytes succeeds, restores
   the message and uses up exactly the bytes that were written.
   */
  method EncodeThenDecode(fields: seq<Field>, slots: seq<Slot>, max: nat)
    returns (encoded: bool, defined: bool, ok: bool, restored: seq<Slot>, unread: nat)
    requires Described(fields) && |slots| == |fields| && StorableMessage(fields, slots)
    requires max < TWO32
    ensures encoded <==> MessageBytes(fields, slots, 0).Some? && |MessageBytes(fields, slots, 0).value| <= max
    ensures encoded && CountableFields(fields) ==> defined
    ensures encoded && CountableParts(fields) ==> (defined <==> Checkable(fields))
    ensures encoded && defined ==> ok && restored == Restored(fields, slots) && unread == 0
  {
    hide ReadMessage, MessageBytes, Restored, Described, StorableMessage, CountableFields, Defaults;
    var error, out := Encode(OStream(false, [], max, 0), fields, slots);
    encoded, defined, ok, restored, unread := error.None?, true, false, [], 0;
    if encoded {
      RoundTrip(fields, slots);
      var s, t := IStream(out.out, 0, |out.out|), IStream([], 0, 0);
      assert Unread(s) == MessageBytes(fields, slots, 0).value;
      defined, ok, restored, t := Decode(s, fields);
      unread := t.left;
    }
  }
}
