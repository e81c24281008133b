/**
 The checksum of the log: CRC32C (section 12.1 of RFC 3720), bit by bit instead of by tables, and its masked form.
 Words are numbers below 2^32, so shifts are divisions and multiplications.
 */
module Crc32c {
  import opened Basics
  import opened Coding

  const kMaskDelta: word := 0xa282ead8
  const kPolynomial: word := 0x82f63b78

  /** Exclusive or, bit by bit. */
  function Xor(a: nat, b: nat): (x: nat)
    decreases a + b
  {
    if a == 0 && b == 0 then 0 else 2 * Xor(a / 2, b / 2) + if a % 2 == b % 2 then 0 else 1
  }

  lemma {:induction false} XorTwice(a: nat, b: nat)
    ensures Xor(Xor(a, b), b) == a
    decreases a + b
  {
    if a != 0 || b != 0 {
      XorTwice(a / 2, b / 2);
      var x := Xor(a, b);
      assert x / 2 == Xor(a / 2, b / 2);
    }
  }

  lemma {:induction false} XorBound(a: nat, b: nat, n: nat)
    requires a < Pow2(n) && b < Pow2(n)
    ensures Xor(a, b) < Pow2(n)
    decreases n
  {
    if n > 0 && (a != 0 || b != 0) {
      XorBound(a / 2, b / 2, n - 1);
    }
  }

  function XorWords(a: word, b: word): word {
    WordBits();
    XorBound(a, b, 32);
    Xor(a, b)
  }

  function Shift(l: word, bits: nat): word
    decreases bits
  {
    if bits == 0 then l
    else Shift(if l % 2 == 1 then XorWords(l / 2, kPolynomial) else l / 2, bits - 1)
  }

  function Fold(l: word, data: seq<byte>): word {
    if data == [] then l
    else Shift(XorWords(Fold(l, data[..|data| - 1]), data[|data| - 1]), 8)
  }

  function Invert(l: word): word { XorWords(l, 0xffffffff) }

  function Extend(crc: word, data: seq<byte>): word { Invert(Fold(Invert(crc), data)) }

  function Value(data: seq<byte>): word { Extend(0, data) }

  /** What is stored: the low 15 bits change places with the high 17, and kMaskDelta comes on top. */
  function Mask(crc: word): word { (crc / 0x8000 + crc % 0x8000 * 0x20000 + kMaskDelta) % 0x1_0000_0000 }

  function Unmask(masked: word): word {
    var rot := (masked - kMaskDelta) % 0x1_0000_0000;
    rot / 0x20000 + rot % 0x20000 * 0x8000
  }

  lemma {:induction false} FoldInTwo(l: word, a: seq<byte>, b: seq<byte>)
    ensures Fold(l, a + b) == Fold(Fold(l, a), b)
  {
    if b == [] {
      assert a + b == a;
    } else {
      var n := |b| - 1;
      assert (a + b)[..|a + b| - 1] == a + b[..n];
      FoldInTwo(l, a, b[..n]);
    }
  }

  lemma InvertTwice(x: word)
    ensures Invert(Invert(x)) == x
  {
    XorTwice(x, 0xffffffff);
  }

  /** Extending the checksum of a by b is the checksum of a followed by b. */
  lemma ExtendInTwo(crc: word, a: seq<byte>, b: seq<byte>)
    ensures Extend(Extend(crc, a), b) == Extend(crc, a + b)
  {
    hide Fold, Invert;
    InvertTwice(Fold(Invert(crc), a));
    FoldInTwo(Invert(crc), a, b);
  }

  lemma ValueInTwo(a: seq<byte>, b: seq<byte>)
    ensures Extend(Value(a), b) == Value(a + b)
  {
    hide Extend;
    ExtendInTwo(0, a, b);
  }

  lemma MaskRoundTrip(crc: word)
    ensures Unmask(Mask(crc)) == crc
  {
    var high, low := crc / 0x8000, crc % 0x8000;
    assert crc == high * 0x8000 + low && high < 0x20000;
    Halves(high, low);
    OnTop(high + low * 0x20000, kMaskDelta);
  }

  lemma Halves(high: nat, low: nat)
    requires high < 0x20000 && low < 0x8000
    ensures (high + low * 0x20000) / 0x20000 == low && (high + low * 0x20000) % 0x20000 == high
    ensures high + low * 0x20000 < 0x1_0000_0000
  {
  }

  lemma OnTop(x: nat, delta: nat)
    requires x < 0x1_0000_0000 && delta < 0x1_0000_0000
    ensures ((x + delta) % 0x1_0000_0000 - delta) % 0x1_0000_0000 == x
  {
    if x + delta < 0x1_0000_0000 {
      assert (x + delta) % 0x1_0000_0000 == x + delta;
    } else {
      assert (x + delta) % 0x1_0000_0000 == x + delta - 0x1_0000_0000;
    }
  }

  /** What the reader compares is the checksum that the writer stored. */
  lemma StoredChecksum(crc: word)
    ensures Unmask(DecodeFixed32(EncodeFixed32(Mask(crc)))) == crc
  {
    hide Mask, Unmask, DecodeFixed32, EncodeFixed32;
    FixedRoundTrip(Mask(crc));
    MaskRoundTrip(crc);
  }
}

/** The log: records cut into fragments that never straddle a block, and put together again. */
module LogFormat {
  import opened Basics
  import opened Coding
  import opened Crc32c

  const kBlockSize: nat := 32768
  const kHeaderSize: nat := 7

  const kZeroType: byte := 0
  const kFullType: byte := 1
  const kFirstType: byte := 2
  const kMiddleType: byte := 3
  const kLastType: byte := 4

  // Codes that the reader returns in place of a type; a damaged type byte can be taken for one of them.
  const kEof: byte := 5
  const kBadRecord: byte := 6

  // ---------------------------------------------------------------------------
  // The bytes that a list of records stands for
  // ---------------------------------------------------------------------------

  /** The end of the block that the byte at pos belongs to. */
  function BlockEnd(pos: nat): (e: nat)
    ensures pos < e <= pos + 32768 && e % 32768 == 0
    ensures pos % 32768 == 0 ==> e == pos + 32768
  {
    pos - pos % 32768 + 32768
  }

  lemma SameBlock(pos: nat, q: nat)
    requires pos <= q < BlockEnd(pos)
    ensures BlockEnd(q) == BlockEnd(pos)
  {
  }

  function TypeOf(begin: bool, end: bool): byte {
    if begin && end then kFullType else if begin then kFirstType else if end then kLastType else kMiddleType
  }

  function Header(t: byte, data: seq<byte>): (h: seq<byte>)
    requires |data| <= 0xffff
    ensures |h| == kHeaderSize
  {
    EncodeFixed32(Mask(Extend(Crc32c.Value([t]), data))) + [Low(|data|), Low(|data| / 256)] + [t]
  }

  /** A physical record: what EmitPhysicalRecord appends. */
  function Emitted(t: byte, data: seq<byte>): (e: seq<byte>)
    requires |data| <= 0xffff
    ensures |e| == kHeaderSize + |data|
  {
    Header(t, data) + data
  }

  function Zeros(n: nat): (z: seq<byte>)
    ensures |z| == n
  {
    seq(n, _ => 0)
  }

  /** Where the next fragment goes: a tail of the block too short for a header is filled up. */
  function FragmentStart(pos: nat): (q: nat)
    ensures pos <= q && q + 7 <= BlockEnd(q)
    ensures q != pos ==> q == BlockEnd(pos) && q < pos + 7
  {
    if BlockEnd(pos) - pos < 7 then BlockEnd(pos) else pos
  }

  function FragmentLength(pos: nat, left: nat): (n: nat)
    ensures n <= left && n <= 32761 && FragmentStart(pos) + 7 + n <= BlockEnd(FragmentStart(pos))
    ensures n == 0 && left > 0 ==> FragmentStart(pos) == pos && BlockEnd(pos) == pos + 7
  {
    var q := FragmentStart(pos);
    var avail := BlockEnd(q) - q - 7;
    if left < avail then left else avail
  }

  /** The bytes of one record whose writing starts at file position pos. */
  function Fragments(pos: nat, data: seq<byte>, begin: bool): seq<byte>
    decreases |data|, BlockEnd(pos) <= pos + 7
  {
    var q, n := FragmentStart(pos), FragmentLength(pos, |data|);
    var end := n == |data|;
    Zeros(q - pos) + (Emitted(TypeOf(begin, end), data[..n]) + if end then [] else Fragments(q + 7 + n, data[n..], false))
  }

  /** The log file after these records. */
  function Log(records: seq<seq<byte>>): seq<byte> {
    if records == [] then []
    else
      var before := Log(records[..|records| - 1]);
      before + Fragments(|before|, records[|records| - 1], true)
  }

  // ---------------------------------------------------------------------------
  // What reading gives at a position of a file
  // ---------------------------------------------------------------------------

  /** A physical record, or why there is none; bad says how many bytes were dropped with a report. */
  datatype Physical =
    | Eof
    | BadRecord(resume: nat, reports: nat)
    | Fragment(t: byte, data: seq<byte>, after: nat)

  function LengthAt(file: seq<byte>, pos: nat): (n: nat)
    requires pos + 7 <= |file|
    ensures n <= 0xffff
  {
    file[pos + 4] as int + file[pos + 5] as int * 256
  }

  /** The physical record at pos, in a block of which the file holds the part up to end. */
  function Parse(file: seq<byte>, pos: nat, end: nat, full: bool, checksum: bool): (r: Physical)
    requires pos + 7 <= end <= |file|
    ensures r.BadRecord? ==> r.resume == end
    ensures r.Fragment? ==> pos + 7 <= r.after <= end
  {
    var length, t := LengthAt(file, pos), file[pos + 6];
    if pos + 7 + length > end then
      if full then BadRecord(end, 1) else Eof
    else if t == kZeroType && length == 0 then BadRecord(end, 0)
    else if checksum && Crc32c.Value(file[pos + 6..pos + 7 + length]) != Unmask(DecodeFixed32(file[pos..pos + 4])) then BadRecord(end, 1)
    else Fragment(t, file[pos + 7..pos + 7 + length], pos + 7 + length)
  }

  /** A block that the file holds only in part is its last. */
  function ReadPhysical(file: seq<byte>, pos: nat, checksum: bool): (r: Physical)
    requires pos <= |file|
    ensures r.BadRecord? ==> pos < r.resume <= |file|
    ensures r.Fragment? ==> pos < r.after <= |file|
    decreases |file| - pos
  {
    var full := BlockEnd(pos) <= |file|;
    var end := if full then BlockEnd(pos) else |file|;
    if end - pos >= 7 then Parse(file, pos, end, full, checksum)
    else if full then ReadPhysical(file, BlockEnd(pos), checksum)
    else Eof
  }

  /** One call of ReadRecord: the record if there is one, where reading goes on, and how many reports were made. */
  datatype Reading = Reading(record: Option<seq<byte>>, pos: nat, reports: nat)

  datatype Action = Stop(reading: Reading) | Continue(from: nat, fragment: Option<seq<byte>>, told: nat)

  /** What ReadRecord does with the next physical record; fragment is what it has collected of a fragmented one. */
  function Act(p: Physical, eof: nat, fragment: Option<seq<byte>>, reports: nat): (a: Action)
    ensures a.Continue? ==> !p.Eof? && a.from == (if p.BadRecord? then p.resume else p.after) && a.told >= reports
    ensures a.Stop? ==> a.reading.pos == (if p.Fragment? then p.after else eof) && a.reading.reports >= reports
    ensures a.Stop? && a.reading.record.Some? ==> p.Fragment?
  {
    match p
    case Eof => Stop(Reading(None, eof, reports))
    case BadRecord(resume, n) => Continue(resume, None, reports + n + if fragment.Some? then 1 else 0)
    case Fragment(t, data, after) =>
      var cut := if fragment.Some? && fragment.value != [] then 1 else 0;
      if t == kFullType then Stop(Reading(Some(data), after, reports + cut))
      else if t == kFirstType then Continue(after, Some(data), reports + cut)
      else if t == kMiddleType then
        if fragment.None? then Continue(after, None, reports + 1) else Continue(after, Some(fragment.value + data), reports)
      else if t == kLastType then
        if fragment.None? then Continue(after, None, reports + 1) else Stop(Reading(Some(fragment.value + data), after, reports))
      else if t == kEof then Stop(Reading(None, after, reports))
      else if t == kBadRecord then Continue(after, None, reports + if fragment.Some? then 1 else 0)
      else Continue(after, None, reports + 1)
  }

  function ReadOn(file: seq<byte>, pos: nat, checksum: bool, fragment: Option<seq<byte>>, reports: nat): (r: Reading)
    requires pos <= |file|
    ensures pos <= r.pos <= |file| && (r.record.Some? ==> pos < r.pos) && reports <= r.reports
    decreases |file| - pos
  {
    match Act(ReadPhysical(file, pos, checksum), |file|, fragment, reports)
    case Stop(reading) => reading
    case Continue(from, next, told) => ReadOn(file, from, checksum, next, told)
  }

  /** All the records that calling ReadRecord until it fails gives, and the number of corruption reports. */
  function ReadAll(file: seq<byte>, pos: nat, checksum: bool): (r: (seq<seq<byte>>, nat))
    requires pos <= |file|
    decreases |file| - pos
  {
    var one := ReadOn(file, pos, checksum, None, 0);
    if one.record.None? then ([], one.reports)
    else
      var rest := ReadAll(file, one.pos, checksum);
      ([one.record.value] + rest.0, one.reports + rest.1)
  }

  // ---------------------------------------------------------------------------
  // Reading what was written
  // ---------------------------------------------------------------------------

  /** As far as the file goes, it holds these bytes at pos. */
  ghost predicate HoldsAt(file: seq<byte>, pos: nat, bytes: seq<byte>) {
    forall i :: pos <= i < |file| && i < pos + |bytes| ==> file[i] == bytes[i - pos]
  }

  lemma HoldsInTwo(file: seq<byte>, pos: nat, a: seq<byte>, b: seq<byte>)
    requires HoldsAt(file, pos, a + b)
    ensures HoldsAt(file, pos, a) && HoldsAt(file, pos + |a|, b)
  {
    forall i | pos <= i < |file| && i < pos + |a| ensures file[i] == a[i - pos] {
      assert file[i] == (a + b)[i - pos];
    }
    forall i | pos + |a| <= i < |file| && i < pos + |a| + |b| ensures file[i] == b[i - pos - |a|] {
      assert file[i] == (a + b)[i - pos];
    }
  }

  lemma HeldSlice(file: seq<byte>, pos: nat, bytes: seq<byte>)
    requires HoldsAt(file, pos, bytes) && pos + |bytes| <= |file|
    ensures file[pos..pos + |bytes|] == bytes
  {
  }

  /** A header tells its length, and its type and payload pass the checksum. */
  lemma HeaderRead(file: seq<byte>, pos: nat, t: byte, data: seq<byte>)
    requires |data| <= 0xffff && HoldsAt(file, pos, Header(t, data)) && pos + 7 <= |file|
    ensures LengthAt(file, pos) == |data| && file[pos + 6] == t
    ensures Unmask(DecodeFixed32(file[pos..pos + 4])) == Crc32c.Value([t] + data)
  {
    hide Unmask, DecodeFixed32, EncodeFixed32, Mask, Extend, Crc32c.Value;
    var crc := Extend(Crc32c.Value([t]), data);
    var h := Header(t, data);
    HeldSlice(file, pos, h);
    assert file[pos + 4] == h[4] && file[pos + 5] == h[5] && file[pos + 6] == h[6];
    assert file[pos..pos + 4] == EncodeFixed32(Mask(crc));
    StoredChecksum(crc);
    ValueInTwo([t], data);
  }

  lemma PayloadRead(file: seq<byte>, pos: nat, t: byte, data: seq<byte>)
    requires |data| <= 0xffff && HoldsAt(file, pos, Emitted(t, data)) && pos + 7 + |data| <= |file|
    ensures file[pos + 7..pos + 7 + |data|] == data
    ensures file[pos + 6..pos + 7 + |data|] == [t] + data
  {
    hide Header, LengthAt, Unmask, DecodeFixed32, Crc32c.Value;
    HoldsInTwo(file, pos, Header(t, data), data);
    HeldSlice(file, pos + 7, data);
    HeaderRead(file, pos, t, data);
  }

  lemma ParseWhole(file: seq<byte>, pos: nat, end: nat, full: bool, t: byte, data: seq<byte>, checksum: bool)
    requires pos + 7 + |data| <= end <= |file| && t != kZeroType
    requires |data| <= 0xffff && HoldsAt(file, pos, Emitted(t, data))
    ensures Parse(file, pos, end, full, checksum) == Fragment(t, data, pos + 7 + |data|)
  {
    hide Unmask, DecodeFixed32, Crc32c.Value, LengthAt, Header;
    HoldsInTwo(file, pos, Header(t, data), data);
    HeaderRead(file, pos, t, data);
    PayloadRead(file, pos, t, data);
  }

  lemma ParseCut(file: seq<byte>, pos: nat, t: byte, data: seq<byte>, checksum: bool)
    requires pos + 7 <= |file| < pos + 7 + |data|
    requires |data| <= 0xffff && HoldsAt(file, pos, Emitted(t, data))
    ensures Parse(file, pos, |file|, false, checksum) == Eof
  {
    hide Unmask, DecodeFixed32, Crc32c.Value, LengthAt, Header;
    HoldsInTwo(file, pos, Header(t, data), data);
    HeaderRead(file, pos, t, data);
  }

  /** A fragment that the file holds whole is read back; one that is cut off reads as the end of the file. */
  lemma FragmentRead(file: seq<byte>, pos: nat, t: byte, data: seq<byte>, checksum: bool)
    requires pos <= |file| && pos + 7 + |data| <= BlockEnd(pos) && t != kZeroType
    requires |data| <= 0xffff && HoldsAt(file, pos, Emitted(t, data))
    ensures ReadPhysical(file, pos, checksum) == if pos + 7 + |data| <= |file| then Fragment(t, data, pos + 7 + |data|) else Eof
  {
    hide Parse, Emitted, HoldsAt, BlockEnd;
    var full := BlockEnd(pos) <= |file|;
    if pos + 7 + |data| <= |file| {
      ParseWhole(file, pos, if full then BlockEnd(pos) else |file|, full, t, data, checksum);
    } else if pos + 7 <= |file| {
      ParseCut(file, pos, t, data, checksum);
    }
  }

  /** The filling at the end of a block is skipped, or is where the file ends. */
  lemma FillingRead(file: seq<byte>, pos: nat, checksum: bool)
    requires pos <= |file|
    ensures FragmentStart(pos) <= |file| ==> ReadPhysical(file, pos, checksum) == ReadPhysical(file, FragmentStart(pos), checksum)
    ensures FragmentStart(pos) > |file| ==> ReadPhysical(file, pos, checksum) == Eof
  {
  }

  lemma HoldsInThree(file: seq<byte>, pos: nat, a: seq<byte>, b: seq<byte>, c: seq<byte>)
    requires HoldsAt(file, pos, a + (b + c))
    ensures HoldsAt(file, pos + |a|, b) && HoldsAt(file, pos + |a| + |b|, c)
  {
    HoldsInTwo(file, pos, a, b + c);
    HoldsInTwo(file, pos + |a|, b, c);
  }

  lemma FragmentsAsParts(pos: nat, left: seq<byte>, begin: bool)
    ensures
      var q, n := FragmentStart(pos), FragmentLength(pos, |left|);
      Fragments(pos, left, begin) ==
      Zeros(q - pos) + (Emitted(TypeOf(begin, n == |left|), left[..n]) + (if n == |left| then [] else Fragments(q + 7 + n, left[n..], false)))
  {
    hide Emitted, Zeros;
  }

  lemma FragmentsHeld(file: seq<byte>, pos: nat, data: seq<byte>, begin: bool)
    requires HoldsAt(file, pos, Fragments(pos, data, begin))
    ensures
      var q, n := FragmentStart(pos), FragmentLength(pos, |data|);
      && HoldsAt(file, q, Emitted(TypeOf(begin, n == |data|), data[..n]))
      && (n < |data| ==> HoldsAt(file, q + 7 + n, Fragments(q + 7 + n, data[n..], false)))
  {
    hide Emitted, HoldsAt, Zeros, Fragments, FragmentStart, FragmentLength, TypeOf;
    var q, n := FragmentStart(pos), FragmentLength(pos, |data|);
    var rest := if n == |data| then [] else Fragments(q + 7 + n, data[n..], false);
    FragmentsAsParts(pos, data, begin);
    HoldsInThree(file, pos, Zeros(q - pos), Emitted(TypeOf(begin, n == |data|), data[..n]), rest);
  }

  /** The physical record that reading meets next. */
  lemma NextPhysical(file: seq<byte>, pos: nat, t: byte, data: seq<byte>, checksum: bool)
    requires pos <= |file| && t != kZeroType && |data| <= 0xffff
    requires FragmentStart(pos) + 7 + |data| <= BlockEnd(FragmentStart(pos))
    requires HoldsAt(file, FragmentStart(pos), Emitted(t, data))
    ensures Meets(file, pos, FragmentStart(pos) + 7 + |data|, t, data, checksum)
  {
    FillingRead(file, pos, checksum);
    if FragmentStart(pos) <= |file| {
      FragmentRead(file, FragmentStart(pos), t, data, checksum);
    }
  }

  /** Reading meets this fragment, or the end of the file if the fragment is cut off. */
  ghost predicate Meets(file: seq<byte>, pos: nat, after: nat, t: byte, data: seq<byte>, checksum: bool)
    requires pos <= |file|
  {
    ReadPhysical(file, pos, checksum) == if after <= |file| then Fragment(t, data, after) else Eof
  }

  /** Reading meets the fragments of a record one after the other, up to the end of the file. */
  ghost predicate MeetsAll(file: seq<byte>, pos: nat, data: seq<byte>, begin: bool, checksum: bool)
    requires pos <= |file|
    decreases |data|, BlockEnd(pos) <= pos + 7
  {
    var n := FragmentLength(pos, |data|);
    var after := FragmentStart(pos) + 7 + n;
    && Meets(file, pos, after, TypeOf(begin, n == |data|), data[..n], checksum)
    && (after <= |file| && n < |data| ==> MeetsAll(file, after, data[n..], false, checksum))
  }

  lemma {:induction false} WrittenIsMet(file: seq<byte>, pos: nat, data: seq<byte>, begin: bool, checksum: bool)
    requires pos <= |file| && HoldsAt(file, pos, Fragments(pos, data, begin))
    ensures MeetsAll(file, pos, data, begin, checksum)
    decreases |data|, BlockEnd(pos) <= pos + 7
  {
    hide Emitted, ReadPhysical, HoldsAt, Fragments, FragmentStart, FragmentLength, BlockEnd, Meets;
    var n := FragmentLength(pos, |data|);
    var after := FragmentStart(pos) + 7 + n;
    FragmentsHeld(file, pos, data, begin);
    NextPhysical(file, pos, TypeOf(begin, n == |data|), data[..n], checksum);
    if after <= |file| && n < |data| {
      WrittenIsMet(file, after, data[n..], false, checksum);
    }
  }

  lemma SizeOfFragments(pos: nat, data: seq<byte>, begin: bool)
    ensures
      var n := FragmentLength(pos, |data|);
      var after := FragmentStart(pos) + 7 + n;
      pos + |Fragments(pos, data, begin)| == after + if n == |data| then 0 else |Fragments(after, data[n..], false)|
  {
  }

  /** A fragment in its place extends the record, and the last one completes it. */
  lemma ReadOnFragment(file: seq<byte>, pos: nat, begin: bool, end: bool, data: seq<byte>, after: nat, scratch: seq<byte>, checksum: bool)
    requires pos <= |file| && after <= |file| && (begin ==> scratch == [])
    requires ReadPhysical(file, pos, checksum) == Fragment(TypeOf(begin, end), data, after)
    ensures ReadOn(file, pos, checksum, if begin then None else Some(scratch), 0)
            == if end then Reading(Some(scratch + data), after, 0) else ReadOn(file, after, checksum, Some(scratch + data), 0)
  {
    if begin {
      assert scratch + data == data;
    }
  }

  lemma ReadOnEof(file: seq<byte>, pos: nat, checksum: bool, fragment: Option<seq<byte>>, reports: nat)
    requires pos <= |file| && ReadPhysical(file, pos, checksum) == Eof
    ensures ReadOn(file, pos, checksum, fragment, reports) == Reading(None, |file|, reports)
  {
  }

  /** What is met is put together: the whole record if the file holds all of it; otherwise reading ends quietly. */
  lemma {:induction false} MetIsRead(file: seq<byte>, pos: nat, data: seq<byte>, begin: bool, scratch: seq<byte>, checksum: bool)
    requires pos <= |file| && MeetsAll(file, pos, data, begin, checksum) && (begin ==> scratch == [])
    ensures
      var after := pos + |Fragments(pos, data, begin)|;
      ReadOn(file, pos, checksum, if begin then None else Some(scratch), 0)
      == if after <= |file| then Reading(Some(scratch + data), after, 0) else Reading(None, |file|, 0)
    decreases |data|, BlockEnd(pos) <= pos + 7
  {
    hide Emitted, ReadPhysical, HoldsAt, Fragments, FragmentStart, FragmentLength, TypeOf, ReadOn, BlockEnd;
    var n := FragmentLength(pos, |data|);
    var after := FragmentStart(pos) + 7 + n;
    SizeOfFragments(pos, data, begin);
    if after <= |file| {
      ReadOnFragment(file, pos, begin, n == |data|, data[..n], after, scratch, checksum);
      if n < |data| {
        MetIsRead(file, after, data[n..], false, scratch + data[..n], checksum);
        assert scratch + data[..n] + data[n..] == scratch + data;
      } else {
        assert data[..n] == data;
      }
    } else {
      ReadOnEof(file, pos, checksum, if begin then None else Some(scratch), 0);
    }
  }

  /** Reading at the start of a record: the record, or quietly nothing if the file does not hold all of it. */
  lemma RecordRead(file: seq<byte>, pos: nat, data: seq<byte>, checksum: bool)
    requires pos <= |file| && HoldsAt(file, pos, Fragments(pos, data, true))
    ensures
      var after := pos + |Fragments(pos, data, true)|;
      ReadOn(file, pos, checksum, None, 0) == if after <= |file| then Reading(Some(data), after, 0) else Reading(None, |file|, 0)
  {
    hide Fragments, ReadOn, HoldsAt, MeetsAll;
    WrittenIsMet(file, pos, data, true, checksum);
    MetIsRead(file, pos, data, true, [], checksum);
    assert [] + data == data;
  }

  lemma {:induction false} LogOfPrefix(records: seq<seq<byte>>, i: nat)
    requires i <= |records|
    ensures Log(records[..i]) <= Log(records)
  {
    if i == |records| {
      assert records[..i] == records;
    } else {
      hide Fragments;
      assert records[..|records| - 1][..i] == records[..i];
      LogOfPrefix(records[..|records| - 1], i);
    }
  }

  /** Where record i is written, and what. */
  lemma RecordInLog(records: seq<seq<byte>>, i: nat, k: nat)
    requires i < |records| && |Log(records[..i])| <= k <= |Log(records)|
    ensures HoldsAt(Log(records)[..k], |Log(records[..i])|, Fragments(|Log(records[..i])|, records[i], true))
    ensures |Log(records[..i + 1])| == |Log(records[..i])| + |Fragments(|Log(records[..i])|, records[i], true)|
  {
    hide Fragments;
    assert records[..i + 1][..i] == records[..i];
    assert Log(records[..i + 1]) == Log(records[..i]) + Fragments(|Log(records[..i])|, records[i], true);
    LogOfPrefix(records, i + 1);
  }

  lemma EmittedParts(t: byte, data: seq<byte>)
    requires |data| <= 0xffff
    ensures Emitted(t, data) ==
            EncodeFixed32(Mask(Extend(Crc32c.Value([t]), data))) + [Low(|data|), Low(|data| / 256)] + [t] + data
  {
  }

  lemma SameRemainder(a: nat, b: nat, n: nat)
    requires a % 32768 == b % 32768
    ensures (a + n) % 32768 == (b + n) % 32768
  {
  }

  /** How many records lie wholly within the first k bytes. */
  function Whole(records: seq<seq<byte>>, k: nat): (c: nat)
    ensures c <= |records|
  {
    if records == [] || |Log(records)| <= k then |records| else Whole(records[..|records| - 1], k)
  }

  lemma {:induction false} WholeMeaning(records: seq<seq<byte>>, k: nat, i: nat)
    requires i <= |records|
    ensures i <= Whole(records, k) <==> |Log(records[..i])| <= k
  {
    hide Fragments;
    LogOfPrefix(records, i);
    assert records[..|records|] == records;
    if records != [] && |Log(records)| > k {
      if i < |records| {
        assert records[..|records| - 1][..i] == records[..i];
        WholeMeaning(records[..|records| - 1], k, i);
      }
    } else if records == [] {
      assert records[..i] == [];
    }
  }

  lemma {:induction false} ReadFrom(records: seq<seq<byte>>, k: nat, i: nat, checksum: bool)
    requires k <= |Log(records)| && i <= Whole(records, k)
    ensures |Log(records[..i])| <= k
    ensures ReadAll(Log(records)[..k], |Log(records[..i])|, checksum) == (records[i..Whole(records, k)], 0)
    decreases |records| - i
  {
    hide Fragments, ReadOn, Whole;
    var file, pos, c := Log(records)[..k], |Log(records[..i])|, Whole(records, k);
    WholeMeaning(records, k, i);
    if i == |records| {
      assert records[..i] == records;
      assert pos == |file|;
      EndRead(file, checksum);
    } else {
      RecordInLog(records, i, k);
      RecordRead(file, pos, records[i], checksum);
      WholeMeaning(records, k, i + 1);
      if i < c {
        ReadFrom(records, k, i + 1, checksum);
        assert records[i..c] == [records[i]] + records[i + 1..c];
      } else {
        assert records[i..c] == [];
      }
    }
  }

  lemma EndRead(file: seq<byte>, checksum: bool)
    ensures ReadOn(file, |file|, checksum, None, 0) == Reading(None, |file|, 0)
  {
  }

  /** Torn tails: whatever part of the log survives, reading it gives exactly the records wholly within it, and reports nothing. */
  lemma PrefixRoundTrip(records: seq<seq<byte>>, k: nat, checksum: bool)
    requires k <= |Log(records)|
    ensures ReadAll(Log(records)[..k], 0, checksum) == (records[..Whole(records, k)], 0)
    ensures |Log(records[..Whole(records, k)])| <= k
    ensures Whole(records, k) < |records| ==> k < |Log(records[..Whole(records, k) + 1])|
  {
    hide Fragments, ReadAll, Whole;
    WholeMeaning(records, k, 0);
    WholeMeaning(records, k, Whole(records, k));
    if Whole(records, k) < |records| {
      WholeMeaning(records, k, Whole(records, k) + 1);
    }
    assert records[..0] == [];
    ReadFrom(records, k, 0, checksum);
    assert records[0..Whole(records, k)] == records[..Whole(records, k)];
  }

  /** Any list of records of any lengths reads back as it was written. */
  lemma RoundTrip(records: seq<seq<byte>>, checksum: bool)
    ensures ReadAll(Log(records), 0, checksum) == (records, 0)
  {
    hide Fragments, ReadAll, Whole;
    PrefixRoundTrip(records, |Log(records)|, checksum);
    WholeMeaning(records, |Log(records)|, |records|);
    assert records[..|records|] == records;
    assert Log(records)[..|Log(records)|] == Log(records);
  }

  // ---------------------------------------------------------------------------
  // An append that failed halfway
  // ---------------------------------------------------------------------------

  /** Records at the start of a file are read, and then whatever comes behind them. */
  lemma {:induction false} ReadThrough(records: seq<seq<byte>>, file: seq<byte>, i: nat, checksum: bool)
    requires Log(records) <= file && i <= |records|
    ensures |Log(records[..i])| <= |Log(records)|
    ensures var behind := ReadAll(file, |Log(records)|, checksum);
            ReadAll(file, |Log(records[..i])|, checksum) == (records[i..] + behind.0, behind.1)
    decreases |records| - i
  {
    hide Fragments, ReadOn;
    LogOfPrefix(records, i);
    if i == |records| {
      assert records[..i] == records;
      var behind := ReadAll(file, |Log(records)|, checksum);
      assert records[i..] + behind.0 == behind.0;
    } else {
      var pos := |Log(records[..i])|;
      RecordInLog(records, i, |Log(records)|);
      assert Log(records)[..|Log(records)|] == Log(records);
      LogOfPrefix(records, i + 1);
      HoldsInMore(Log(records), file, pos, Fragments(pos, records[i], true));
      RecordRead(file, pos, records[i], checksum);
      ReadThrough(records, file, i + 1, checksum);
      var behind := ReadAll(file, |Log(records)|, checksum);
      assert records[i..] + behind.0 == [records[i]] + (records[i + 1..] + behind.0);
    }
  }

  lemma HoldsInMore(a: seq<byte>, file: seq<byte>, pos: nat, bytes: seq<byte>)
    requires a <= file && pos + |bytes| <= |a| && HoldsAt(a, pos, bytes)
    ensures HoldsAt(file, pos, bytes)
  {
    forall i | pos <= i < |file| && i < pos + |bytes| ensures file[i] == bytes[i - pos] {
      assert file[i] == a[i];
    }
  }

  /**
   A record of which only the header and a part reached the file swallows what is appended behind it: as long as
   the file is shorter than the header announces, the reader takes everything from the tear on for the remains of
   a writer that died, and reports nothing.
   */
  lemma TornRecordSwallows(records: seq<seq<byte>>, t: byte, data: seq<byte>, n: nat, behind: seq<byte>, checksum: bool)
    requires |data| <= 0xffff && 7 <= n <= 7 + |data| && n + |behind| < 7 + |data|
    requires |Log(records)| + 7 + |data| <= BlockEnd(|Log(records)|)
    ensures ReadAll(Log(records) + Emitted(t, data)[..n] + behind, 0, checksum) == (records, 0)
  {
    assert Log([]) == [];
    hide Log, Header, ReadAll, ReadPhysical, BlockEnd;
    var pos, file := |Log(records)|, Log(records) + Emitted(t, data)[..n] + behind;
    StartHeld(Log(records), Header(t, data), data, n, behind);
    hide Emitted;
    ReadThrough(records, file, 0, checksum);
    assert records[..0] == [] && records[0..] == records;
    TornPhysical(file, pos, t, data, checksum);
    ReadOnEof(file, pos, checksum, None, 0);
    NothingBehind(file, pos, checksum);
    assert records + [] == records;
  }

  lemma StartHeld(a: seq<byte>, h: seq<byte>, d: seq<byte>, n: nat, b: seq<byte>)
    requires |h| <= n <= |h + d|
    ensures var file := a + (h + d)[..n] + b; a <= file && HoldsAt(file, |a|, h) && |file| == |a| + n + |b|
  {
    var file := a + (h + d)[..n] + b;
    forall i | |a| <= i < |file| && i < |a| + |h| ensures file[i] == h[i - |a|] {
    }
  }

  lemma TornPhysical(file: seq<byte>, pos: nat, t: byte, data: seq<byte>, checksum: bool)
    requires |data| <= 0xffff && HoldsAt(file, pos, Header(t, data)) && pos + 7 <= |file| < pos + 7 + |data| <= BlockEnd(pos)
    ensures ReadPhysical(file, pos, checksum) == Eof
  {
    hide Header, Unmask, DecodeFixed32, Crc32c.Value, HoldsAt, LengthAt;
    HeaderRead(file, pos, t, data);
  }

  lemma NothingBehind(file: seq<byte>, pos: nat, checksum: bool)
    requires pos <= |file| && ReadOn(file, pos, checksum, None, 0) == Reading(None, |file|, 0)
    ensures ReadAll(file, pos, checksum) == ([], 0)
  {
  }

  // ---------------------------------------------------------------------------
  // The writer and the reader
  // ---------------------------------------------------------------------------

  /** The writer's offset within the block and the position in the file agree on where the next fragment goes. */
  lemma NextPlace(blockOffset: nat, pos: nat, left: nat)
    requires blockOffset <= 32768 && blockOffset % 32768 == pos % 32768
    ensures FragmentStart(pos) == if 32768 - blockOffset < 7 then pos + (32768 - blockOffset) else pos
    ensures
      var offset := if 32768 - blockOffset < 7 then 0 else blockOffset;
      && offset % 32768 == FragmentStart(pos) % 32768
      && FragmentLength(pos, left) == if left < 32768 - offset - 7 then left else 32768 - offset - 7
  {
  }

  class Writer {
    /** What has been appended to the file. */
    var dest: seq<byte>
    var blockOffset: nat
    ghost var records: seq<seq<byte>>

    /** The block offset is the position within the block, which may also be its end. */
    ghost predicate InStep()
      reads this
    {
      blockOffset <= kBlockSize && blockOffset % 32768 == |dest| % 32768
    }

    ghost predicate Valid()
      reads this
    {
      InStep() && dest == Log(records)
    }

    constructor ()
      ensures Valid() && records == []
    {
      dest, blockOffset, records := [], 0, [];
    }

    method EmitPhysicalRecord(t: byte, data: seq<byte>)
      requires InStep() && blockOffset + kHeaderSize + |data| <= kBlockSize
      modifies this`dest, this`blockOffset
      ensures InStep() && dest == old(dest) + Emitted(t, data)
      ensures blockOffset == old(blockOffset) + kHeaderSize + |data|
    {
      hide Extend, Crc32c.Value, Mask, EncodeFixed32, Low, Emitted, Header;
      EmittedParts(t, data);
      SameRemainder(blockOffset, |dest|, kHeaderSize + |data|);
      var crc := Extend(Crc32c.Value([t]), data);
      crc := Mask(crc);
      var buf := EncodeFixed32(crc) + [Low(|data|), Low(|data| / 256)] + [t];
      Associate(dest, buf, data);
      dest := dest + buf;
      dest := dest + data;
      blockOffset := blockOffset + kHeaderSize + |data|;
    }

    /** One turn of the loop in AddRecord. */
    method EmitFragment(left: seq<byte>, begin: bool) returns (n: nat)
      requires InStep()
      modifies this`dest, this`blockOffset
      ensures InStep() && n == FragmentLength(|old(dest)|, |left|)
      ensures dest == old(dest) + Zeros(FragmentStart(|old(dest)|) - |old(dest)|) + Emitted(TypeOf(begin, n == |left|), left[..n])
    {
      hide Emitted;
      NextPlace(blockOffset, |dest|, |left|);
      var leftover := kBlockSize - blockOffset;
      if leftover < kHeaderSize {
        if leftover > 0 {
          dest := dest + Zeros(leftover);
        }
        blockOffset := 0;
      }
      var avail := kBlockSize - blockOffset - kHeaderSize;
      n := if |left| < avail then |left| else avail;
      var end := |left| == n;
      EmitPhysicalRecord(TypeOf(begin, end), left[..n]);
    }

    method AddRecord(data: seq<byte>)
      requires Valid()
      modifies this
      ensures Valid() && records == old(records) + [data]
    {
      hide Emitted, Fragments, FragmentStart, FragmentLength;
      ghost var before := dest;
      ghost var goal := dest + Fragments(|dest|, data, true);
      var left, begin := data, true;
      while begin || left != []
        invariant InStep() && records == old(records)
        invariant goal == dest + if begin || left != [] then Fragments(|dest|, left, begin) else []
        decreases begin, |left|, BlockEnd(|dest|) <= |dest| + 7
      {
        OneFragment(dest, left, begin);
        var n := EmitFragment(left, begin);
        left, begin := left[n..], false;
      }
      assert dest == goal;
      records := records + [data];
      assert records[..|records| - 1] == old(records);
    }
  }

  /** What one turn of the writer's loop appends. */
  lemma OneFragment(dest: seq<byte>, left: seq<byte>, begin: bool)
    ensures
      var q, n := FragmentStart(|dest|), FragmentLength(|dest|, |left|);
      var next := dest + Zeros(q - |dest|) + Emitted(TypeOf(begin, n == |left|), left[..n]);
      && |next| == q + 7 + n
      && dest + Fragments(|dest|, left, begin) == next + (if n == |left| then [] else Fragments(|next|, left[n..], false))
      && (n == 0 && left != [] ==> BlockEnd(|dest|) == |dest| + 7 && BlockEnd(|next|) > |next| + 7)
  {
    hide Emitted, Zeros, Fragments, FragmentStart, FragmentLength;
    var q, n := FragmentStart(|dest|), FragmentLength(|dest|, |left|);
    var pad, first := Zeros(q - |dest|), Emitted(TypeOf(begin, n == |left|), left[..n]);
    var rest := if n == |left| then [] else Fragments(q + 7 + n, left[n..], false);
    FragmentsAsParts(|dest|, left, begin);
    Reassociate(dest, pad, first, rest);
    assert |dest + pad + first| == q + 7 + n;
  }

  lemma Associate(a: seq<byte>, b: seq<byte>, c: seq<byte>)
    ensures a + b + c == a + (b + c)
  {
  }

  lemma Reassociate(a: seq<byte>, b: seq<byte>, c: seq<byte>, d: seq<byte>)
    ensures a + (b + (c + d)) == a + b + c + d
  {
  }

  class Reader {
    const file: seq<byte>
    const checksum: bool
    var buffer: seq<byte>
    var eof: bool
    var endOfBufferOffset: nat
    /** How often the reporter has been told of a corruption. */
    var reports: nat

    /** The buffer is the unread part of the last block read; a short block is the end of the file. */
    ghost predicate Valid()
      reads this`buffer, this`eof, this`endOfBufferOffset
    {
      && |buffer| <= endOfBufferOffset <= |file|
      && buffer == file[endOfBufferOffset - |buffer|..endOfBufferOffset]
      && (eof ==> endOfBufferOffset == |file| < BlockEnd(endOfBufferOffset - |buffer|))
      && (!eof ==> endOfBufferOffset % 32768 == 0)
      && (!eof && buffer != [] ==> BlockEnd(endOfBufferOffset - |buffer|) == endOfBufferOffset)
    }

    ghost function Pos(): (p: nat)
      ensures p <= |file|
      requires Valid()
      reads this`buffer, this`eof, this`endOfBufferOffset
    {
      endOfBufferOffset - |buffer|
    }

    constructor (file: seq<byte>, checksum: bool)
      ensures Valid() && this.file == file && this.checksum == checksum && Pos() == 0 && reports == 0
    {
      this.file, this.checksum := file, checksum;
      buffer, eof, endOfBufferOffset, reports := [], false, 0, 0;
    }

    /** Reads the next block into the empty or exhausted buffer. */
    method ReadBlock()
      requires Valid() && |buffer| < kHeaderSize && !eof
      modifies this`buffer, this`eof, this`endOfBufferOffset
      ensures Valid() && endOfBufferOffset - |buffer| == old(endOfBufferOffset)
      ensures eof ==> old(endOfBufferOffset) + 32768 > |file|
      ensures !eof ==> |buffer| == 32768
    {
      var end := if endOfBufferOffset + kBlockSize <= |file| then endOfBufferOffset + kBlockSize else |file|;
      buffer := file[endOfBufferOffset..end];
      endOfBufferOffset := end;
      if |buffer| < kBlockSize {
        eof := true;
      }
    }

    /** Skips an exhausted block, so that a header is in the buffer unless the file ends. */
    method FillBuffer()
      requires Valid()
      modifies this`buffer, this`eof, this`endOfBufferOffset
      ensures Valid() && (|buffer| >= kHeaderSize || eof)
      ensures ReadPhysical(file, old(Pos()), checksum) == ReadPhysical(file, Pos(), checksum)
    {
      hide ReadPhysical;
      while |buffer| < kHeaderSize && !eof
        invariant Valid()
        invariant ReadPhysical(file, old(Pos()), checksum) == ReadPhysical(file, Pos(), checksum)
        decreases !eof, |file| - endOfBufferOffset
      {
        ExhaustedBlock(file, Pos(), endOfBufferOffset, checksum);
        ReadBlock();
      }
    }

    /** Forgets what is left in the buffer. */
    method Drop()
      requires Valid()
      modifies this`buffer
      ensures Valid() && Pos() == endOfBufferOffset
    {
      buffer := [];
    }

    method Consume(n: nat)
      requires Valid() && n <= |buffer|
      modifies this`buffer
      ensures Valid() && Pos() == old(Pos()) + n
    {
      hide BlockEnd;
      SliceOfSlice(file, Pos(), |buffer|, n, |buffer|);
      if n < |buffer| { SameBlock(Pos(), Pos() + n); }
      buffer := buffer[n..];
    }

    method ReadPhysicalRecord() returns (t: byte, data: seq<byte>, ghost r: Physical)
      requires Valid()
      modifies this`buffer, this`eof, this`endOfBufferOffset, this`reports
      ensures Valid() && r == ReadPhysical(file, old(Pos()), checksum)
      ensures Told(r, t, data, Pos(), reports - old(reports))
    {
      hide ReadPhysical;
      FillBuffer();
      if |buffer| < kHeaderSize {
        AtEnd(file, Pos(), checksum);
        Drop();
        return kEof, [], Eof;
      }
      t, data, r := ParseHeader();
    }

    /** How the code and the slice that are returned, the position and the reports tell a physical record. */
    ghost predicate Told(r: Physical, t: byte, data: seq<byte>, pos: nat, told: int) {
      match r
      case Eof => t == kEof && pos == |file| && told == 0
      case BadRecord(resume, n) => t == kBadRecord && pos == resume && told == n
      case Fragment(ft, d, after) => t == ft && data == d && pos == after && told == 0
    }

    /** The part of ReadPhysicalRecord that has a header in the buffer. */
    method ParseHeader() returns (t: byte, data: seq<byte>, ghost r: Physical)
      requires Valid() && |buffer| >= kHeaderSize
      modifies this`buffer, this`reports
      ensures Valid() && r == ReadPhysical(file, old(Pos()), checksum)
      ensures Told(r, t, data, Pos(), reports - old(reports))
    {
      hide ReadPhysical, LengthAt, Unmask, DecodeFixed32, Crc32c.Value;
      data := [];
      r := ReadPhysical(file, Pos(), checksum);
      AtHeader(file, Pos(), |buffer|, buffer, checksum);
      var length := LengthAt(buffer, 0);
      t := buffer[6];
      if kHeaderSize + length > |buffer| {
        t := if eof then kEof else kBadRecord;
        reports := if eof then reports else reports + 1;
        Drop();
      } else if t == kZeroType && length == 0 {
        t := kBadRecord;
        Drop();
      } else if checksum && Crc32c.Value(buffer[6..7 + length]) != Unmask(DecodeFixed32(buffer[0..4])) {
        t := kBadRecord;
        reports := reports + 1;
        Drop();
      } else {
        data := buffer[7..7 + length];
        Consume(7 + length);
      }
    }

    /** The next record; a record without its end, or out of place, is reported or skipped as ReadOn says. */
    method ReadRecord() returns (record: Option<seq<byte>>)
      requires Valid()
      modifies this`buffer, this`eof, this`endOfBufferOffset, this`reports
      ensures Valid() && reports >= old(reports)
      ensures Reading(record, Pos(), reports - old(reports)) == ReadOn(file, old(Pos()), checksum, None, 0)
    {
      hide ReadPhysical, ReadOn, Valid, Pos;
      var scratch: seq<byte> := [];
      var inFragmentedRecord := false;
      while true
        invariant Valid() && reports >= old(reports)
        invariant !inFragmentedRecord ==> scratch == []
        invariant ReadOn(file, old(Pos()), checksum, None, 0)
                  == ReadOn(file, Pos(), checksum, if inFragmentedRecord then Some(scratch) else None, reports - old(reports))
        decreases |file| - Pos()
      {
        ghost var fragmentSoFar := if inFragmentedRecord then Some(scratch) else None;
        ReadOnStep(file, Pos(), checksum, fragmentSoFar, reports - old(reports));
        var t, fragment, _ := ReadPhysicalRecord();
        if t == kFullType {
          if inFragmentedRecord && scratch != [] {
            reports := reports + 1;
          }
          return Some(fragment);
        } else if t == kFirstType {
          if inFragmentedRecord && scratch != [] {
            reports := reports + 1;
          }
          scratch, inFragmentedRecord := fragment, true;
        } else if t == kMiddleType {
          if !inFragmentedRecord {
            reports := reports + 1;
          } else {
            scratch := scratch + fragment;
          }
        } else if t == kLastType {
          if !inFragmentedRecord {
            reports := reports + 1;
          } else {
            return Some(scratch + fragment);
          }
        } else if t == kEof {
          return None;
        } else if t == kBadRecord {
          if inFragmentedRecord {
            reports := reports + 1;
            scratch, inFragmentedRecord := [], false;
          }
        } else {
          reports := reports + 1;
          scratch, inFragmentedRecord := [], false;
        }
      }
    }

    /** The loop of recovery: all records up to the first failure to read one. */
    method ReadLog() returns (records: seq<seq<byte>>)
      requires Valid()
      modifies this`buffer, this`eof, this`endOfBufferOffset, this`reports
      ensures Valid() && reports >= old(reports)
      ensures (records, reports - old(reports)) == ReadAll(file, old(Pos()), checksum)
    {
      hide ReadOn, ReadAll, Valid, Pos;
      records := [];
      ghost var all := ReadAll(file, Pos(), checksum);
      while true
        invariant Valid() && reports >= old(reports)
        invariant all.0 == records + ReadAll(file, Pos(), checksum).0
        invariant all.1 == reports - old(reports) + ReadAll(file, Pos(), checksum).1
        decreases |file| - Pos()
      {
        ReadAllStep(file, Pos(), checksum, records);
        var record := ReadRecord();
        if record.None? {
          return;
        }
        records := records + [record.value];
      }
    }
  }

  /** The equation of ReadOn, for the loop that computes it. */
  lemma ReadOnStep(file: seq<byte>, pos: nat, checksum: bool, fragment: Option<seq<byte>>, reports: nat)
    requires pos <= |file|
    ensures ReadOn(file, pos, checksum, fragment, reports) ==
            match Act(ReadPhysical(file, pos, checksum), |file|, fragment, reports)
            case Stop(reading) => reading
            case Continue(from, next, told) => ReadOn(file, from, checksum, next, told)
  {
    hide ReadPhysical, Act;
  }

  lemma ReadAllStep(file: seq<byte>, pos: nat, checksum: bool, records: seq<seq<byte>>)
    requires pos <= |file|
    ensures
      var one, all := ReadOn(file, pos, checksum, None, 0), ReadAll(file, pos, checksum);
      if one.record.None? then records + all.0 == records && all.1 == one.reports
      else
        && records + all.0 == records + [one.record.value] + ReadAll(file, one.pos, checksum).0
        && all.1 == one.reports + ReadAll(file, one.pos, checksum).1
  {
    hide ReadOn;
  }

  /** A tail too short for a header is skipped when its block is whole. */
  lemma ExhaustedBlock(file: seq<byte>, pos: nat, end: nat, checksum: bool)
    requires pos <= end <= |file| && end - pos < 7 && end % 32768 == 0
    ensures ReadPhysical(file, pos, checksum) == ReadPhysical(file, end, checksum)
  {
    hide LengthAt, Unmask, DecodeFixed32, Crc32c.Value;
    if pos < end {
      assert BlockEnd(pos) == end;
    }
  }

  lemma AtEnd(file: seq<byte>, pos: nat, checksum: bool)
    requires pos <= |file| < BlockEnd(pos) && |file| - pos < 7
    ensures ReadPhysical(file, pos, checksum) == Eof
  {
    hide LengthAt, Unmask, DecodeFixed32, Crc32c.Value;
  }

  lemma SliceOfSlice(file: seq<byte>, pos: nat, n: nat, i: nat, j: nat)
    requires pos + n <= |file| && i <= j <= n
    ensures file[pos..pos + n][i..j] == file[pos + i..pos + j]
  {
    var whole, a, b := file[pos..pos + n], file[pos..pos + n][i..j], file[pos + i..pos + j];
    forall k | 0 <= k < j - i ensures a[k] == b[k] {
      assert whole[i + k] == file[pos + i + k];
    }
  }

  lemma SameLength(file: seq<byte>, pos: nat, n: nat)
    requires pos + n <= |file| && 7 <= n
    ensures LengthAt(file[pos..pos + n], 0) == LengthAt(file, pos)
  {
  }

  /** The equation of ReadPhysical in terms of the buffer. */
  lemma AtHeader(file: seq<byte>, pos: nat, n: nat, buffer: seq<byte>, checksum: bool)
    requires pos + n <= |file| && 7 <= n == |buffer| && buffer == file[pos..pos + n]
    requires pos + n == if BlockEnd(pos) <= |file| then BlockEnd(pos) else |file|
    ensures
      var length := LengthAt(buffer, 0);
      ReadPhysical(file, pos, checksum) ==
      if 7 + length > n then
        if BlockEnd(pos) <= |file| then BadRecord(pos + n, 1) else Eof
      else if buffer[6] == kZeroType && length == 0 then BadRecord(pos + n, 0)
      else if checksum && Crc32c.Value(buffer[6..7 + length]) != Unmask(DecodeFixed32(buffer[0..4])) then BadRecord(pos + n, 1)
      else Fragment(buffer[6], buffer[7..7 + length], pos + 7 + length)
  {
    hide Unmask, DecodeFixed32, Crc32c.Value, LengthAt;
    var length := LengthAt(buffer, 0);
    SameLength(file, pos, n);
    assert file[pos + 6] == buffer[6];
    if 7 + length <= n {
      SliceOfSlice(file, pos, n, 0, 4);
      SliceOfSlice(file, pos, n, 6, 7 + length);
      SliceOfSlice(file, pos, n, 7, 7 + length);
    }
    assert ReadPhysical(file, pos, checksum) == Parse(file, pos, pos + n, BlockEnd(pos) <= |file|, checksum) by {
      hide Parse;
    }
  }
}
