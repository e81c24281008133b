/**
 Version edits as manifest records: how an edit is written and read back, and what
 a record that is cut short reads as.
 */
module VersionEdits {
  import opened Basics
  import opened Varints

  // ---------------------------------------------------------------------------
  // Edits
  // ---------------------------------------------------------------------------

  /** A file's description in an edit; keys are encoded internal keys. */
  datatype FileMeta = FileMeta(number: nat, size: nat, smallest: seq<byte>, largest: seq<byte>)

  /** The deleted files are a std::set, kept here in the order it is walked in. */
  datatype Edit = Edit(comparator: Option<seq<byte>>, logNumber: Option<nat>, prevLogNumber: Option<nat>,
                       nextFile: Option<nat>, lastSequence: Option<nat>, pointers: seq<(nat, seq<byte>)>,
                       deleted: seq<(nat, nat)>, added: seq<(nat, FileMeta)>)

  function NoEdit(): Edit { Edit(None, None, None, None, None, [], [], []) }

  /** Clear leaves the compaction pointers. */
  function Cleared(e: Edit): Edit { NoEdit().(pointers := e.pointers) }

  const kNumLevels: nat := 7

  predicate PairBefore(a: (nat, nat), b: (nat, nat)) {
    a.0 < b.0 || (a.0 == b.0 && a.1 < b.1)
  }

  ghost predicate Ascending(s: seq<(nat, nat)>) {
    forall i, j :: 0 <= i < j < |s| ==> PairBefore(s[i], s[j])
  }

  function InsertPair(s: seq<(nat, nat)>, x: (nat, nat)): seq<(nat, nat)> {
    if s == [] || PairBefore(x, s[0]) then [x] + s
    else if s[0] == x then s
    else [s[0]] + InsertPair(s[1..], x)
  }

  lemma {:induction false} InsertPairInserts(s: seq<(nat, nat)>, x: (nat, nat))
    requires Ascending(s)
    ensures Ascending(InsertPair(s, x))
    ensures forall y :: y in InsertPair(s, x) <==> y in s || y == x
  {
    if s == [] || PairBefore(x, s[0]) || s[0] == x {
    } else {
      InsertPairInserts(s[1..], x);
      assert s == [s[0]] + s[1..];
      var r := InsertPair(s[1..], x);
      forall j | 0 <= j < |r| ensures PairBefore(s[0], r[j]) {
        assert r[j] in r;
      }
    }
  }

  lemma {:induction false} InsertLargest(s: seq<(nat, nat)>, x: (nat, nat))
    requires Ascending(s + [x])
    ensures InsertPair(s, x) == s + [x]
  {
    if s != [] {
      var t := s + [x];
      assert PairBefore(t[0], t[|s|]);
      assert t[1..] == s[1..] + [x];
      InsertLargest(s[1..], x);
    }
  }

  // ---------------------------------------------------------------------------
  // Fields: a tag and the items after it
  // ---------------------------------------------------------------------------

  datatype Item = Int(n: nat) | Text(s: seq<byte>)

  datatype Kind = Level | Number64 | String

  datatype Field = Field(tag: nat, items: seq<Item>)

  const kComparator: nat := 1
  const kLogNumber: nat := 2
  const kNextFileNumber: nat := 3
  const kLastSequence: nat := 4
  const kCompactPointer: nat := 5
  const kDeletedFile: nat := 6
  const kNewFile: nat := 7
  const kPrevLogNumber: nat := 9

  /** What follows each known tag. */
  function Shape(tag: nat): Option<seq<Kind>> {
    if tag == kComparator then Some([String])
    else if tag == kLogNumber || tag == kPrevLogNumber || tag == kNextFileNumber || tag == kLastSequence then Some([Number64])
    else if tag == kCompactPointer then Some([Level, String])
    else if tag == kDeletedFile then Some([Level, Number64])
    else if tag == kNewFile then Some([Level, Number64, Number64, String, String])
    else None
  }

  ghost predicate Fits(i: Item, k: Kind) {
    match k
    case Level => i.Int? && i.n < kNumLevels
    case Number64 => i.Int? && i.n < TWO64
    case String => i.Text? && |i.s| < TWO32
  }

  ghost predicate AllFit(items: seq<Item>, ks: seq<Kind>) {
    |items| == |ks| && forall j :: 0 <= j < |items| ==> Fits(items[j], ks[j])
  }

  ghost predicate Shaped(f: Field) {
    Shape(f.tag).Some? && AllFit(f.items, Shape(f.tag).value)
  }

  /** What any item read as some kind is, in range or not. */
  ghost predicate OfKind(i: Item, k: Kind) {
    if k.String? then i.Text? else i.Int?
  }

  ghost predicate AllOfKind(items: seq<Item>, ks: seq<Kind>) {
    |items| == |ks| && forall j :: 0 <= j < |items| ==> OfKind(items[j], ks[j])
  }

  ghost predicate Parsed(f: Field) {
    Shape(f.tag).Some? && AllOfKind(f.items, Shape(f.tag).value)
  }

  ghost predicate AllParsed(fs: seq<Field>) {
    forall j :: 0 <= j < |fs| ==> Parsed(fs[j])
  }

  ghost function ItemBytes(i: Item): seq<byte> {
    match i
    case Int(n) => Varint(n)
    case Text(s) => SliceBytes(s)
  }

  ghost function ItemsBytes(items: seq<Item>): seq<byte> {
    if items == [] then [] else ItemBytes(items[0]) + ItemsBytes(items[1..])
  }

  ghost function FieldBytes(f: Field): (b: seq<byte>)
    ensures |b| > 0
  {
    Varint(f.tag) + ItemsBytes(f.items)
  }

  ghost function FieldsBytes(fs: seq<Field>): seq<byte> {
    if fs == [] then [] else FieldBytes(fs[0]) + FieldsBytes(fs[1..])
  }

  // ---------------------------------------------------------------------------
  // Reading
  // ---------------------------------------------------------------------------

  /** GetLevel, GetVarint64 and GetInternalKey or GetLengthPrefixedSlice. */
  ghost function TakeItem(k: Kind, b: seq<byte>): (r: Option<Got<Item>>)
    ensures r.Some? ==> |r.value.rest| < |b| && OfKind(r.value.value, k)
  {
    match k
    case Level =>
      var n := TakeNumber(b, 32);
      if n.None? || n.value.value >= kNumLevels then None else Some(Got(Int(n.value.value), n.value.rest))
    case Number64 =>
      var n := TakeNumber(b, 64);
      if n.None? then None else Some(Got(Int(n.value.value), n.value.rest))
    case String =>
      var s := TakeSlice(b);
      if s.None? then None else Some(Got(Text(s.value.value), s.value.rest))
  }

  ghost function TakeItems(ks: seq<Kind>, b: seq<byte>): (r: Option<Got<seq<Item>>>)
    ensures r.Some? ==> |r.value.rest| <= |b| && AllOfKind(r.value.value, ks)
  {
    if ks == [] then Some(Got([], b))
    else
      var i := TakeItem(ks[0], b);
      if i.None? then None
      else
        var items := TakeItems(ks[1..], i.value.rest);
        if items.None? then None else Some(Got([i.value.value] + items.value.value, items.value.rest))
  }

  /** "invalid tag", "unknown tag", or the message of the field that could not be read. */
  datatype Fault = InvalidTag | UnknownTag | BadField(tag: nat)

  datatype Taken = Taken(field: Field, rest: seq<byte>) | Failed(fault: Fault)

  ghost function TakePayload(tag: nat, b: seq<byte>): (r: Taken)
    ensures r.Taken? ==> |r.rest| <= |b| && Parsed(r.field)
  {
    if Shape(tag).None? then Failed(UnknownTag)
    else
      var items := TakeItems(Shape(tag).value, b);
      if items.None? then Failed(BadField(tag)) else Taken(Field(tag, items.value.value), items.value.rest)
  }

  /** The fields taken, and the fault that ended the reading. */
  datatype Reading = Reading(fields: seq<Field>, fault: Option<Fault>)

  ghost function ReadFields(b: seq<byte>): (r: Reading)
    ensures AllParsed(r.fields)
    decreases |b|
  {
    var tag := TakeNumber(b, 32);
    if tag.None? then Reading([], if b == [] then None else Some(InvalidTag))
    else
      match TakePayload(tag.value.value, tag.value.rest)
      case Failed(fault) => Reading([], Some(fault))
      case Taken(f, rest) => var r := ReadFields(rest); Reading([f] + r.fields, r.fault)
  }

  lemma ItemReads(i: Item, k: Kind, tail: seq<byte>)
    requires Fits(i, k)
    ensures TakeItem(k, ItemBytes(i) + tail) == Some(Got(i, tail))
  {
    hide TakeNumber, TakeSlice, SliceBytes;
    match i
    case Int(n) => NumberReads(n, if k.Level? then 32 else 64, tail);
    case Text(s) => SliceReads(s, tail);
  }

  lemma TornItem(i: Item, k: Kind, n: nat)
    requires Fits(i, k) && n < |ItemBytes(i)|
    ensures TakeItem(k, ItemBytes(i)[..n]).None?
  {
    match i
    case Int(v) => TornVarint(v, 0, if k.Level? then 32 else 64, n);
    case Text(s) => TornSlice(s, n);
  }

  lemma FirstItem(items: seq<Item>)
    requires items != []
    ensures ItemsBytes(items) == ItemBytes(items[0]) + ItemsBytes(items[1..])
  {
  }

  lemma NoItemsRead(tail: seq<byte>)
    ensures TakeItems([], ItemsBytes([]) + tail) == Some(Got([], tail))
  {
    assert [] + tail == tail;
  }

  lemma FittingItems(items: seq<Item>, ks: seq<Kind>)
    requires AllFit(items, ks)
    ensures |items| == |ks| && (items == [] ==> ks == []) && (items != [] ==> Fits(items[0], ks[0]) && AllFit(items[1..], ks[1..]))
  {
    hide Fits;
  }

  lemma FirstItemRead(ks: seq<Kind>, b: seq<byte>, i: Item, rest: seq<byte>, items: seq<Item>, tail: seq<byte>)
    requires ks != [] && TakeItem(ks[0], b) == Some(Got(i, rest)) && TakeItems(ks[1..], rest) == Some(Got(items, tail))
    ensures TakeItems(ks, b) == Some(Got([i] + items, tail))
  {
    hide TakeItem;
  }

  lemma {:induction false} ItemsRead(items: seq<Item>, ks: seq<Kind>, tail: seq<byte>)
    requires AllFit(items, ks)
    ensures TakeItems(ks, ItemsBytes(items) + tail) == Some(Got(items, tail))
  {
    hide *;
    NoItemsRead(tail);
    FittingItems(items, ks);
    if items != [] {
      FirstItem(items);
      var rest := ItemsBytes(items[1..]);
      ItemReads(items[0], ks[0], rest + tail);
      ItemsRead(items[1..], ks[1..], tail);
      Regroup(ItemBytes(items[0]), rest, tail);
      FirstItemRead(ks, ItemsBytes(items) + tail, items[0], rest + tail, items[1..], tail);
      assert items == [items[0]] + items[1..];
    }
  }

  lemma {:induction false} TornItems(items: seq<Item>, ks: seq<Kind>, n: nat)
    requires AllFit(items, ks) && n < |ItemsBytes(items)|
    ensures TakeItems(ks, ItemsBytes(items)[..n]).None?
  {
    hide TakeItem, ItemBytes, Fits;
    var k := |ItemBytes(items[0])|;
    CutSum(ItemBytes(items[0]), ItemsBytes(items[1..]), n);
    if n < k {
      TornItem(items[0], ks[0], n);
    } else {
      ItemReads(items[0], ks[0], ItemsBytes(items[1..])[..n - k]);
      TornItems(items[1..], ks[1..], n - k);
    }
  }

  lemma CutSum(a: seq<byte>, b: seq<byte>, n: nat)
    requires n <= |a| + |b|
    ensures (a + b)[..n] == if n < |a| then a[..n] else a + b[..n - |a|]
  {
  }

  ghost predicate AllShaped(fs: seq<Field>) {
    forall j :: 0 <= j < |fs| ==> Shaped(fs[j])
  }

  /** A field is taken off the front whole, and a proper prefix of one is a fault. */
  lemma FieldReads(f: Field, tail: seq<byte>)
    requires Shaped(f)
    ensures var r := ReadFields(tail);
            ReadFields(FieldBytes(f) + tail) == Reading([f] + r.fields, r.fault)
  {
    hide TakeItems, ItemsBytes, AllFit;
    NumberReads(f.tag, 32, ItemsBytes(f.items) + tail);
    ItemsRead(f.items, Shape(f.tag).value, tail);
    Regroup(Varint(f.tag), ItemsBytes(f.items), tail);
  }

  lemma TornField(f: Field, n: nat)
    requires Shaped(f) && 0 < n < |FieldBytes(f)|
    ensures var r := ReadFields(FieldBytes(f)[..n]); r.fields == [] && r.fault.Some?
  {
    hide TakeItems, ItemsBytes, AllFit;
    var k := |Varint(f.tag)|;
    CutSum(Varint(f.tag), ItemsBytes(f.items), n);
    if n < k {
      TornVarint(f.tag, 0, 32, n);
    } else {
      NumberReads(f.tag, 32, ItemsBytes(f.items)[..n - k]);
      TornItems(f.items, Shape(f.tag).value, n - k);
    }
  }

  lemma {:induction false} FieldsRead(fs: seq<Field>)
    requires AllShaped(fs)
    ensures ReadFields(FieldsBytes(fs)) == Reading(fs, None)
  {
    if fs != [] {
      hide Shaped, FieldBytes;
      assert Shaped(fs[0]);
      FieldsRead(fs[1..]);
      FieldReads(fs[0], FieldsBytes(fs[1..]));
      hide ReadFields;
    }
  }

  /** The fields that lie wholly within the first `n` bytes, and a fault unless those end exactly there. */
  ghost predicate TornAs(fs: seq<Field>, n: nat, r: Reading) {
    && r.fields <= fs && |FieldsBytes(r.fields)| <= n
    && (|r.fields| < |fs| ==> n < |FieldsBytes(r.fields)| + |FieldBytes(fs[|r.fields|])|)
    && (r.fault.None? <==> n == |FieldsBytes(r.fields)|)
  }

  lemma ShapedParts(fs: seq<Field>)
    requires AllShaped(fs) && fs != []
    ensures Shaped(fs[0]) && AllShaped(fs[1..])
  {
    hide Shaped;
  }

  /**
   A record cut short reads as the fields that are whole, and it is taken for a valid
   edit exactly when the cut falls between two fields.
   */
  lemma {:induction false} TornRecord(fs: seq<Field>, n: nat)
    requires AllShaped(fs) && n <= |FieldsBytes(fs)|
    ensures TornAs(fs, n, ReadFields(FieldsBytes(fs)[..n]))
  {
    hide *;
    if fs == [] || n == 0 {
      TornAtStart(fs, n);
    } else {
      FirstField(fs);
      ShapedParts(fs);
      var k := |FieldBytes(fs[0])|;
      CutSum(FieldBytes(fs[0]), FieldsBytes(fs[1..]), n);
      if n < k {
        TornField(fs[0], n);
        TornFirst(fs, n, ReadFields(FieldBytes(fs[0])[..n]));
      } else {
        TornRecord(fs[1..], n - k);
        FieldReads(fs[0], FieldsBytes(fs[1..])[..n - k]);
        TornLater(fs, n, ReadFields(FieldsBytes(fs[1..])[..n - k]));
      }
    }
  }

  lemma TornAtStart(fs: seq<Field>, n: nat)
    requires (fs == [] || n == 0) && n <= |FieldsBytes(fs)|
    ensures TornAs(fs, n, ReadFields(FieldsBytes(fs)[..n]))
  {
    NothingRead();
    hide ReadFields, FieldBytes;
    assert FieldsBytes(fs)[..n] == [];
    assert fs != [] ==> |FieldBytes(fs[0])| > 0;
  }

  lemma NothingRead()
    ensures ReadFields([]) == Reading([], None)
  {
  }

  lemma TornFirst(fs: seq<Field>, n: nat, r: Reading)
    requires fs != [] && 0 < n < |FieldBytes(fs[0])| && r.fields == [] && r.fault.Some?
    ensures TornAs(fs, n, r)
  {
  }

  lemma TornLater(fs: seq<Field>, n: nat, r: Reading)
    requires fs != [] && n >= |FieldBytes(fs[0])| && TornAs(fs[1..], n - |FieldBytes(fs[0])|, r)
    ensures TornAs(fs, n, Reading([fs[0]] + r.fields, r.fault))
  {
    hide FieldBytes;
    var fs' := [fs[0]] + r.fields;
    assert fs'[1..] == r.fields;
    assert fs == [fs[0]] + fs[1..];
    assert |r.fields| < |fs[1..]| ==> fs[1..][|r.fields|] == fs[|fs'|];
  }

  // ---------------------------------------------------------------------------
  // What fields do to an edit
  // ---------------------------------------------------------------------------

  /** One turn of the switch in DecodeFrom. */
  ghost function Apply(e: Edit, f: Field): Edit
    requires Parsed(f)
  {
    var i := f.items;
    if f.tag == kComparator then e.(comparator := Some(i[0].s))
    else if f.tag == kLogNumber then e.(logNumber := Some(i[0].n))
    else if f.tag == kPrevLogNumber then e.(prevLogNumber := Some(i[0].n))
    else if f.tag == kNextFileNumber then e.(nextFile := Some(i[0].n))
    else if f.tag == kLastSequence then e.(lastSequence := Some(i[0].n))
    else if f.tag == kCompactPointer then e.(pointers := e.pointers + [(i[0].n, i[1].s)])
    else if f.tag == kDeletedFile then e.(deleted := InsertPair(e.deleted, (i[0].n, i[1].n)))
    else e.(added := e.added + [(i[0].n, FileMeta(i[1].n, i[2].n, i[3].s, i[4].s))])
  }

  ghost function Fold(e: Edit, fs: seq<Field>): Edit
    requires AllParsed(fs)
    decreases |fs|
  {
    if fs == [] then e else Fold(Apply(e, fs[0]), fs[1..])
  }

  ghost predicate WellFormed(e: Edit) {
    && (e.comparator.Some? ==> |e.comparator.value| < TWO32)
    && NumberFits(e.logNumber) && NumberFits(e.prevLogNumber) && NumberFits(e.nextFile) && NumberFits(e.lastSequence)
    && (forall i :: 0 <= i < |e.pointers| ==> Shaped(PointerField(e.pointers[i])))
    && Ascending(e.deleted)
    && (forall i :: 0 <= i < |e.deleted| ==> Shaped(DeletedField(e.deleted[i])))
    && (forall i :: 0 <= i < |e.added| ==> Shaped(AddedField(e.added[i])))
  }

  ghost predicate NumberFits(n: Option<nat>) { n.Some? ==> n.value < TWO64 }

  ghost function PointerField(p: (nat, seq<byte>)): Field { Field(kCompactPointer, [Int(p.0), Text(p.1)]) }

  ghost function DeletedField(d: (nat, nat)): Field { Field(kDeletedFile, [Int(d.0), Int(d.1)]) }

  ghost function AddedField(a: (nat, FileMeta)): Field {
    Field(kNewFile, [Int(a.0), Int(a.1.number), Int(a.1.size), Text(a.1.smallest), Text(a.1.largest)])
  }

  ghost function PointerFields(ps: seq<(nat, seq<byte>)>): seq<Field> {
    seq(|ps|, i requires 0 <= i < |ps| => PointerField(ps[i]))
  }

  ghost function DeletedFields(ds: seq<(nat, nat)>): seq<Field> {
    seq(|ds|, i requires 0 <= i < |ds| => DeletedField(ds[i]))
  }

  ghost function AddedFields(fs: seq<(nat, FileMeta)>): seq<Field> {
    seq(|fs|, i requires 0 <= i < |fs| => AddedField(fs[i]))
  }

  ghost function NumberField(tag: nat, n: Option<nat>): seq<Field> {
    if n.None? then [] else [Field(tag, [Int(n.value)])]
  }

  ghost function NameField(name: Option<seq<byte>>): seq<Field> {
    if name.None? then [] else [Field(kComparator, [Text(name.value)])]
  }

  ghost function Scalars(e: Edit): seq<Field> {
    NameField(e.comparator)
    + NumberField(kLogNumber, e.logNumber)
    + NumberField(kPrevLogNumber, e.prevLogNumber)
    + NumberField(kNextFileNumber, e.nextFile)
    + NumberField(kLastSequence, e.lastSequence)
  }

  /** The fields of an edit, in the order they are written. */
  ghost function FieldsOf(e: Edit): seq<Field> {
    Scalars(e) + PointerFields(e.pointers) + DeletedFields(e.deleted) + AddedFields(e.added)
  }

  lemma {:induction false} FoldJoins(e: Edit, a: seq<Field>, b: seq<Field>)
    requires AllParsed(a) && AllParsed(b)
    ensures AllParsed(a + b) && Fold(e, a + b) == Fold(Fold(e, a), b)
    decreases |a|
  {
    if a == [] {
      assert a + b == b;
    } else {
      hide Apply;
      FoldJoins(Apply(e, a[0]), a[1..], b);
      assert (a + b)[1..] == a[1..] + b;
    }
  }

  lemma FoldOne(e: Edit, f: Field)
    requires Parsed(f)
    ensures Fold(e, [f]) == Apply(e, f)
  {
    assert [f][1..] == [];
  }

  lemma {:induction false} FoldPointers(e: Edit, ps: seq<(nat, seq<byte>)>)
    ensures AllParsed(PointerFields(ps)) && Fold(e, PointerFields(ps)) == e.(pointers := e.pointers + ps)
    decreases |ps|
  {
    if ps != [] {
      var p, e' := ps[0], e.(pointers := e.pointers + [ps[0]]);
      assert Apply(e, PointerField(p)) == e';
      FoldPointers(e', ps[1..]);
      assert PointerFields(ps)[1..] == PointerFields(ps[1..]);
      assert e.pointers + [p] + ps[1..] == e.pointers + ps;
    } else {
      assert e.pointers + ps == e.pointers;
    }
  }

  lemma {:induction false} FoldDeleted(e: Edit, ds: seq<(nat, nat)>)
    requires Ascending(e.deleted + ds)
    ensures AllParsed(DeletedFields(ds)) && Fold(e, DeletedFields(ds)) == e.(deleted := e.deleted + ds)
    decreases |ds|
  {
    if ds != [] {
      var d, e' := ds[0], e.(deleted := e.deleted + [ds[0]]);
      assert e.deleted + [d] + ds[1..] == e.deleted + ds;
      assert e.deleted + [d] == (e.deleted + ds)[..|e.deleted| + 1];
      InsertLargest(e.deleted, d);
      assert Apply(e, DeletedField(d)) == e';
      FoldDeleted(e', ds[1..]);
      assert DeletedFields(ds)[1..] == DeletedFields(ds[1..]);
    } else {
      assert e.deleted + ds == e.deleted;
    }
  }

  lemma {:induction false} FoldAdded(e: Edit, fs: seq<(nat, FileMeta)>)
    ensures AllParsed(AddedFields(fs)) && Fold(e, AddedFields(fs)) == e.(added := e.added + fs)
    decreases |fs|
  {
    if fs != [] {
      var f, e' := fs[0], e.(added := e.added + [fs[0]]);
      assert Apply(e, AddedField(f)) == e';
      FoldAdded(e', fs[1..]);
      assert AddedFields(fs)[1..] == AddedFields(fs[1..]);
      assert e.added + [f] + fs[1..] == e.added + fs;
    } else {
      assert e.added + fs == e.added;
    }
  }

  function NumberOf(e: Edit, tag: nat): Option<nat> {
    if tag == kLogNumber then e.logNumber
    else if tag == kPrevLogNumber then e.prevLogNumber
    else if tag == kNextFileNumber then e.nextFile
    else e.lastSequence
  }

  function WithNumber(e: Edit, tag: nat, n: Option<nat>): Edit {
    if tag == kLogNumber then e.(logNumber := n)
    else if tag == kPrevLogNumber then e.(prevLogNumber := n)
    else if tag == kNextFileNumber then e.(nextFile := n)
    else e.(lastSequence := n)
  }

  /** Fields and then perhaps one number more. */
  lemma FoldNumber(d: Edit, a: seq<Field>, e: Edit, tag: nat, n: Option<nat>)
    requires tag in {kLogNumber, kPrevLogNumber, kNextFileNumber, kLastSequence}
    requires AllParsed(a) && Fold(d, a) == e
    ensures AllParsed(a + NumberField(tag, n))
    requires NumberOf(e, tag).None?
    ensures Fold(d, a + NumberField(tag, n)) == WithNumber(e, tag, n)
  {
    if n.Some? {
      FoldOne(e, Field(tag, [Int(n.value)]));
      FoldJoins(d, a, NumberField(tag, n));
    } else {
      assert a + NumberField(tag, n) == a;
    }
  }

  lemma FoldName(d: Edit, name: Option<seq<byte>>)
    requires d.comparator.None?
    ensures AllParsed(NameField(name)) && Fold(d, NameField(name)) == d.(comparator := name)
  {
    if name.Some? { FoldOne(d, NameField(name)[0]); } else { FoldNone(d); }
  }

  lemma FoldScalars(d: Edit, e: Edit)
    requires d.comparator.None? && d.logNumber.None? && d.prevLogNumber.None? && d.nextFile.None? && d.lastSequence.None?
    ensures AllParsed(Scalars(e))
    ensures Fold(d, Scalars(e)) == e.(pointers := d.pointers, deleted := d.deleted, added := d.added)
  {
    var a1, d1 := NameField(e.comparator), d.(comparator := e.comparator);
    FoldName(d, e.comparator);
    hide NameField, Fold, NumberField, AllParsed, Parsed, Shape, AllOfKind, Apply;
    var a2, d2 := a1 + NumberField(kLogNumber, e.logNumber), d1.(logNumber := e.logNumber);
    FoldNumber(d, a1, d1, kLogNumber, e.logNumber);
    var a3, d3 := a2 + NumberField(kPrevLogNumber, e.prevLogNumber), d2.(prevLogNumber := e.prevLogNumber);
    FoldNumber(d, a2, d2, kPrevLogNumber, e.prevLogNumber);
    var a4, d4 := a3 + NumberField(kNextFileNumber, e.nextFile), d3.(nextFile := e.nextFile);
    FoldNumber(d, a3, d3, kNextFileNumber, e.nextFile);
    FoldNumber(d, a4, d4, kLastSequence, e.lastSequence);
  }

  lemma FoldNone(d: Edit)
    ensures Fold(d, []) == d
  {
  }

  /** An edit's fields rebuild it, after whatever compaction pointers were there. */
  lemma FieldsRebuild(d: Edit, e: Edit)
    requires WellFormed(e)
    ensures AllParsed(FieldsOf(e))
    ensures Fold(Cleared(d), FieldsOf(e)) == e.(pointers := d.pointers + e.pointers)
  {
    var c := Cleared(d);
    FoldScalars(c, e);
    var e1 := e.(pointers := d.pointers, deleted := [], added := []);
    FoldPointers(e1, e.pointers);
    var e2 := e1.(pointers := d.pointers + e.pointers);
    assert [] + e.deleted == e.deleted;
    FoldDeleted(e2, e.deleted);
    var e3 := e2.(deleted := e.deleted);
    assert [] + e.added == e.added;
    FoldAdded(e3, e.added);
    hide Fold, Scalars, PointerFields, DeletedFields, AddedFields;
    FoldJoins(c, Scalars(e), PointerFields(e.pointers));
    FoldJoins(c, Scalars(e) + PointerFields(e.pointers), DeletedFields(e.deleted));
    FoldJoins(c, Scalars(e) + PointerFields(e.pointers) + DeletedFields(e.deleted), AddedFields(e.added));
  }

  lemma ShapedFields(e: Edit)
    requires WellFormed(e)
    ensures AllShaped(FieldsOf(e))
  {
    ShapedScalars(e);
    hide Scalars, Shaped;
    assert AllShaped(PointerFields(e.pointers)) && AllShaped(DeletedFields(e.deleted)) && AllShaped(AddedFields(e.added));
    hide PointerFields, DeletedFields, AddedFields;
  }

  lemma ShapedNumber(tag: nat, n: Option<nat>)
    requires tag in {kLogNumber, kPrevLogNumber, kNextFileNumber, kLastSequence} && NumberFits(n)
    ensures AllShaped(NumberField(tag, n))
  {
  }

  lemma ShapedScalars(e: Edit)
    requires WellFormed(e)
    ensures AllShaped(Scalars(e))
  {
    ShapedNumber(kLogNumber, e.logNumber);
    ShapedNumber(kPrevLogNumber, e.prevLogNumber);
    ShapedNumber(kNextFileNumber, e.nextFile);
    ShapedNumber(kLastSequence, e.lastSequence);
    assert AllShaped(NameField(e.comparator));
    hide Shaped, NumberField, NameField;
  }

  ghost function EditBytes(e: Edit): seq<byte> { FieldsBytes(FieldsOf(e)) }

  /** Decoding into a new edit gives back the edit; into a used one, after its compaction pointers. */
  lemma EditRoundTrip(d: Edit, e: Edit)
    requires WellFormed(e)
    ensures var r := ReadFields(EditBytes(e));
            r.fault.None? && Fold(Cleared(d), r.fields) == e.(pointers := d.pointers + e.pointers)
  {
    ShapedFields(e);
    FieldsRead(FieldsOf(e));
    FieldsRebuild(d, e);
  }

  // ---------------------------------------------------------------------------
  // The class
  // ---------------------------------------------------------------------------

  lemma FirstField(fs: seq<Field>)
    requires fs != []
    ensures FieldsBytes(fs) == FieldBytes(fs[0]) + FieldsBytes(fs[1..])
  {
  }

  lemma {:induction false} FieldsJoin(a: seq<Field>, b: seq<Field>)
    ensures FieldsBytes(a + b) == FieldsBytes(a) + FieldsBytes(b)
  {
    if a == [] {
      assert a + b == b;
    } else {
      hide FieldBytes, FieldsBytes;
      FieldsJoin(a[1..], b);
      assert (a + b)[1..] == a[1..] + b && (a + b)[0] == a[0];
      FirstField(a);
      FirstField(a + b);
      Regroup(FieldBytes(a[0]), FieldsBytes(a[1..]), FieldsBytes(b));
    }
  }

  /** Another field's bytes after those of some. */
  lemma OneMore(dst: seq<byte>, fs: seq<Field>, f: Field)
    ensures dst + FieldsBytes(fs) + FieldBytes(f) == dst + FieldsBytes(fs + [f])
  {
    hide FieldBytes;
    FieldsJoin(fs, [f]);
    assert [f][1..] == [];
    assert FieldsBytes([f]) == FieldBytes(f) + [];
    Regroup(dst, FieldsBytes(fs), FieldBytes(f));
  }

  /** One more item's bytes in a field. */
  lemma {:induction false} OneItemMore(items: seq<Item>, i: Item)
    ensures ItemsBytes(items + [i]) == ItemsBytes(items) + ItemBytes(i)
  {
    hide ItemBytes;
    if items == [] {
      assert [i][1..] == [];
    } else {
      OneItemMore(items[1..], i);
      assert (items + [i])[1..] == items[1..] + [i] && (items + [i])[0] == items[0];
      Regroup(ItemBytes(items[0]), ItemsBytes(items[1..]), ItemBytes(i));
    }
  }

  /** What has been written of a field: its tag and some of its items. */
  ghost predicate Begun(dst: seq<byte>, tag: nat, items: seq<Item>, r: seq<byte>) {
    r == dst + FieldBytes(Field(tag, items))
  }

  method PutTag(dst: seq<byte>, tag: nat) returns (r: seq<byte>)
    requires tag < TWO32
    ensures Begun(dst, tag, [], r)
  {
    r := PutVarint32(dst, tag);
    assert ItemsBytes([]) == [];
  }

  lemma BegunMore(dst: seq<byte>, tag: nat, items: seq<Item>, r: seq<byte>, i: Item)
    requires Begun(dst, tag, items, r)
    ensures Begun(dst, tag, items + [i], r + ItemBytes(i))
  {
    hide ItemBytes, ItemsBytes;
    OneItemMore(items, i);
    Regroup(Varint(tag), ItemsBytes(items), ItemBytes(i));
    Regroup(dst, FieldBytes(Field(tag, items)), ItemBytes(i));
  }

  method PutLevel(dst: seq<byte>, level: nat, ghost to: seq<byte>, ghost tag: nat, ghost items: seq<Item>) returns (r: seq<byte>)
    requires level < TWO32 && Begun(to, tag, items, dst)
    ensures Begun(to, tag, items + [Int(level)], r)
  {
    BegunMore(to, tag, items, dst, Int(level));
    hide Begun;
    r := PutVarint32(dst, level);
  }

  method PutNumber(dst: seq<byte>, n: nat, ghost to: seq<byte>, ghost tag: nat, ghost items: seq<Item>) returns (r: seq<byte>)
    requires Begun(to, tag, items, dst)
    ensures Begun(to, tag, items + [Int(n)], r)
  {
    BegunMore(to, tag, items, dst, Int(n));
    hide Begun;
    r := PutVarint64(dst, n);
  }

  method PutText(dst: seq<byte>, s: seq<byte>, ghost to: seq<byte>, ghost tag: nat, ghost items: seq<Item>) returns (r: seq<byte>)
    requires |s| < TWO32 && Begun(to, tag, items, dst)
    ensures Begun(to, tag, items + [Text(s)], r)
  {
    BegunMore(to, tag, items, dst, Text(s));
    hide Begun;
    r := PutLengthPrefixedSlice(dst, s);
  }

  method PutNumberField(dst: seq<byte>, tag: nat, n: Option<nat>) returns (r: seq<byte>)
    requires tag < TWO32
    ensures r == dst + FieldsBytes(NumberField(tag, n))
  {
    hide FieldBytes;
    r := dst;
    if n.Some? {
      r := PutTag(r, tag);
      r := PutNumber(r, n.value, dst, tag, []);
      assert [] + [Int(n.value)] == [Int(n.value)];
      OneMore(dst, [], Field(tag, [Int(n.value)]));
      assert [] + [Field(tag, [Int(n.value)])] == [Field(tag, [Int(n.value)])];
    }
  }

  lemma NoFields(dst: seq<byte>)
    ensures dst + FieldsBytes([]) == dst
  {
  }

  method PutAnother(dst: seq<byte>, ghost to: seq<byte>, ghost fs: seq<Field>, tag: nat, n: Option<nat>) returns (r: seq<byte>)
    requires dst == to + FieldsBytes(fs) && tag < TWO32
    ensures r == to + FieldsBytes(fs + NumberField(tag, n))
  {
    FieldsJoin(fs, NumberField(tag, n));
    hide FieldsBytes, NumberField;
    r := PutNumberField(dst, tag, n);
    Regroup(to, FieldsBytes(fs), FieldsBytes(NumberField(tag, n)));
  }

  method PutPointer(dst: seq<byte>, p: (nat, seq<byte>)) returns (r: seq<byte>)
    requires Shaped(PointerField(p))
    ensures r == dst + FieldBytes(PointerField(p))
  {
    var f := PointerField(p);
    assert Fits(f.items[0], Level) && Fits(f.items[1], String);
    r := PutTag(dst, kCompactPointer);
    r := PutLevel(r, p.0, dst, kCompactPointer, []);
    r := PutText(r, p.1, dst, kCompactPointer, [] + [Int(p.0)]);
    assert [] + [Int(p.0)] + [Text(p.1)] == f.items;
  }

  method PutDeleted(dst: seq<byte>, d: (nat, nat)) returns (r: seq<byte>)
    requires Shaped(DeletedField(d))
    ensures r == dst + FieldBytes(DeletedField(d))
  {
    var f := DeletedField(d);
    assert Fits(f.items[0], Level) && Fits(f.items[1], Number64);
    r := PutTag(dst, kDeletedFile);
    r := PutLevel(r, d.0, dst, kDeletedFile, []);
    r := PutNumber(r, d.1, dst, kDeletedFile, [] + [Int(d.0)]);
    assert [] + [Int(d.0)] + [Int(d.1)] == f.items;
  }

  method PutAdded(dst: seq<byte>, a: (nat, FileMeta)) returns (r: seq<byte>)
    requires Shaped(AddedField(a))
    ensures r == dst + FieldBytes(AddedField(a))
  {
    ghost var f := AddedField(a);
    assert Fits(f.items[0], Level) && Fits(f.items[3], String) && Fits(f.items[4], String);
    hide Begun, FieldBytes;
    ghost var i: seq<Item> := [];
    r := PutTag(dst, kNewFile);
    r := PutLevel(r, a.0, dst, kNewFile, i);
    i := i + [Int(a.0)];
    r := PutNumber(r, a.1.number, dst, kNewFile, i);
    i := i + [Int(a.1.number)];
    r := PutNumber(r, a.1.size, dst, kNewFile, i);
    i := i + [Int(a.1.size)];
    r := PutText(r, a.1.smallest, dst, kNewFile, i);
    i := i + [Text(a.1.smallest)];
    r := PutText(r, a.1.largest, dst, kNewFile, i);
    i := i + [Text(a.1.largest)];
    assert i == f.items;
    BegunMeans(dst, kNewFile, i, r);
  }

  lemma BegunMeans(dst: seq<byte>, tag: nat, items: seq<Item>, r: seq<byte>)
    requires Begun(dst, tag, items, r)
    ensures r == dst + FieldBytes(Field(tag, items))
  {
  }

  method GetItem(k: Kind, input: seq<byte>) returns (r: Option<Got<Item>>)
    ensures r == TakeItem(k, input)
  {
    match k
    case Level =>
      var v := GetVarint(input, 32);
      r := if v.Some? && v.value.value < kNumLevels then Some(Got(Int(v.value.value), v.value.rest)) else None;
    case Number64 =>
      var v := GetVarint(input, 64);
      r := if v.Some? then Some(Got(Int(v.value.value), v.value.rest)) else None;
    case String =>
      var str := GetLengthPrefixedSlice(input);
      r := if str.Some? then Some(Got(Text(str.value.value), str.value.rest)) else None;
  }

  /** The items a tag calls for, one after the other until one cannot be read. */
  method ParsePayload(tag: nat, input: seq<byte>) returns (r: Taken)
    ensures r == TakePayload(tag, input)
  {
    hide TakeItem;
    var shape := Shape(tag);
    if shape.None? {
      return Failed(UnknownTag);
    }
    hide Shape;
    var ks, items, rest := shape.value, [], input;
    var i := 0;
    assert ks[0..] == ks;
    OnwardNone(TakeItems(ks, input));
    while i < |ks|
      invariant i <= |ks| && |items| == i
      invariant TakeItems(ks, input) == Onward(items, TakeItems(ks[i..], rest))
    {
      var item := GetItem(ks[i], rest);
      if item.None? {
        return Failed(BadField(tag));
      }
      assert ks[i..][1..] == ks[i + 1..];
      OnwardMore(items, item.value.value, TakeItems(ks[i + 1..], item.value.rest));
      items, rest, i := items + [item.value.value], item.value.rest, i + 1;
    }
    r := Taken(Field(tag, items), rest);
  }

  /** Items already taken in front of what the rest gives. */
  ghost function Onward(items: seq<Item>, r: Option<Got<seq<Item>>>): Option<Got<seq<Item>>> {
    if r.None? then None else Some(Got(items + r.value.value, r.value.rest))
  }

  lemma OnwardNone(r: Option<Got<seq<Item>>>)
    ensures Onward([], r) == r
  {
    if r.Some? { assert [] + r.value.value == r.value.value; }
  }

  lemma OnwardMore(items: seq<Item>, i: Item, r: Option<Got<seq<Item>>>)
    ensures Onward(items, if r.None? then None else Some(Got([i] + r.value.value, r.value.rest))) == Onward(items + [i], r)
  {
    if r.Some? { assert items + ([i] + r.value.value) == items + [i] + r.value.value; }
  }

  /** Reading the rest from here ends as reading it all from the start. */
  ghost predicate Reads(c: Edit, src: seq<byte>, e: Edit, input: seq<byte>) {
    && ReadFields(src).fault == ReadFields(input).fault
    && Fold(c, ReadFields(src).fields) == Fold(e, ReadFields(input).fields)
  }

  lemma NothingFolded(c: Edit, src: seq<byte>)
    ensures Reads(c, src, c, src)
  {
  }

  lemma ReadsOn(c: Edit, src: seq<byte>, e: Edit, input: seq<byte>, f: Field, rest: seq<byte>)
    requires Reads(c, src, e, input) && TakeNumber(input, 32).Some?
    requires TakePayload(TakeNumber(input, 32).value.value, TakeNumber(input, 32).value.rest) == Taken(f, rest)
    ensures Parsed(f) && Reads(c, src, Apply(e, f), rest) && |rest| < |input|
  {
    hide TakePayload, Apply, TakeNumber;
    var r := ReadFields(rest);
    assert ([f] + r.fields)[1..] == r.fields;
  }

  lemma ReadsFault(c: Edit, src: seq<byte>, e: Edit, input: seq<byte>, fault: Fault)
    requires Reads(c, src, e, input) && TakeNumber(input, 32).Some?
    requires TakePayload(TakeNumber(input, 32).value.value, TakeNumber(input, 32).value.rest) == Failed(fault)
    ensures ReadFields(src).fault == Some(fault) && Fold(c, ReadFields(src).fields) == e
  {
  }

  lemma ReadsEnd(c: Edit, src: seq<byte>, e: Edit, input: seq<byte>)
    requires Reads(c, src, e, input) && TakeNumber(input, 32).None?
    ensures ReadFields(src).fault == (if input == [] then None else Some(InvalidTag))
    ensures Fold(c, ReadFields(src).fields) == e
  {
  }

  /** What has been read from the bytes of an edit is that edit. */
  lemma Decoded(d: Edit, src: seq<byte>, e': Edit, fault: Option<Fault>)
    requires ReadFields(src).fault == fault && Fold(Cleared(d), ReadFields(src).fields) == e'
    ensures forall e :: WellFormed(e) && src == EditBytes(e) && d.pointers == [] ==> fault.None? && e' == e
  {
    forall e | WellFormed(e) && src == EditBytes(e) && d.pointers == [] ensures fault.None? && e' == e {
      EditRoundTrip(d, e);
      assert [] + e.pointers == e.pointers;
    }
  }

  class VersionEdit {
    var comparator: Option<seq<byte>>
    var logNumber: Option<nat>
    var prevLogNumber: Option<nat>
    var nextFile: Option<nat>
    var lastSequence: Option<nat>
    var pointers: seq<(nat, seq<byte>)>
    var deleted: seq<(nat, nat)>
    var added: seq<(nat, FileMeta)>

    function State(): Edit
      reads this
    {
      Edit(comparator, logNumber, prevLogNumber, nextFile, lastSequence, pointers, deleted, added)
    }

    constructor ()
      ensures State() == NoEdit()
    {
      comparator, logNumber, prevLogNumber, nextFile, lastSequence := None, None, None, None, None;
      pointers, deleted, added := [], [], [];
    }

    method Clear()
      modifies this
      ensures State() == Cleared(old(State()))
    {
      comparator, logNumber, prevLogNumber, nextFile, lastSequence := None, None, None, None, None;
      deleted, added := [], [];
    }

    method AddFile(level: nat, f: FileMeta)
      modifies this`added
      ensures State() == old(State()).(added := old(added) + [(level, f)])
    {
      added := added + [(level, f)];
    }

    /** std::set insert. */
    method DeleteFile(level: nat, number: nat)
      requires Ascending(deleted)
      modifies this`deleted
      ensures Ascending(deleted) && forall d :: d in deleted <==> d in old(deleted) || d == (level, number)
      ensures State() == old(State()).(deleted := InsertPair(old(deleted), (level, number)))
    {
      InsertPairInserts(deleted, (level, number));
      deleted := InsertPair(deleted, (level, number));
    }

    method EncodeScalars(dst: seq<byte>) returns (r: seq<byte>)
      requires WellFormed(State())
      ensures r == dst + FieldsBytes(Scalars(State()))
    {
      ghost var e := State();
      ghost var fs: seq<Field> := [];
      hide FieldBytes;
      NoFields(dst);
      r := dst;
      if comparator.Some? {
        r := PutTag(r, kComparator);
        r := PutText(r, comparator.value, dst, kComparator, []);
        ghost var f := Field(kComparator, [Text(comparator.value)]);
        assert [] + [Text(comparator.value)] == f.items;
        OneMore(dst, [], f);
        fs := [f];
        assert [] + [f] == fs;
        BegunMeans(dst, kComparator, f.items, r);
      }
      hide FieldsBytes, NumberField, Begun, WellFormed;
      r := PutAnother(r, dst, fs, kLogNumber, logNumber);
      fs := fs + NumberField(kLogNumber, e.logNumber);
      r := PutAnother(r, dst, fs, kPrevLogNumber, prevLogNumber);
      fs := fs + NumberField(kPrevLogNumber, e.prevLogNumber);
      r := PutAnother(r, dst, fs, kNextFileNumber, nextFile);
      fs := fs + NumberField(kNextFileNumber, e.nextFile);
      r := PutAnother(r, dst, fs, kLastSequence, lastSequence);
    }

    method EncodeTo(dst: seq<byte>) returns (r: seq<byte>)
      requires WellFormed(State())
      ensures r == dst + EditBytes(State())
    {
      ghost var e := State();
      ghost var fs := Scalars(e);
      hide FieldBytes, FieldsBytes, Scalars, Shaped, PointerField, DeletedField, AddedField;
      r := EncodeScalars(dst);
      var i := 0;
      assert fs + PointerFields(e.pointers[..0]) == fs;
      while i < |pointers|
        invariant i <= |pointers| && r == dst + FieldsBytes(fs + PointerFields(e.pointers[..i]))
      {
        r := PutPointer(r, pointers[i]);
        OneMore(dst, fs + PointerFields(e.pointers[..i]), PointerField(pointers[i]));
        assert fs + PointerFields(e.pointers[..i]) + [PointerField(pointers[i])] == fs + PointerFields(e.pointers[..i + 1]);
        i := i + 1;
      }
      fs := fs + PointerFields(e.pointers);
      assert e.pointers[..i] == e.pointers;
      i := 0;
      assert fs + DeletedFields(e.deleted[..0]) == fs;
      while i < |deleted|
        invariant i <= |deleted| && r == dst + FieldsBytes(fs + DeletedFields(e.deleted[..i]))
      {
        r := PutDeleted(r, deleted[i]);
        OneMore(dst, fs + DeletedFields(e.deleted[..i]), DeletedField(deleted[i]));
        assert fs + DeletedFields(e.deleted[..i]) + [DeletedField(deleted[i])] == fs + DeletedFields(e.deleted[..i + 1]);
        i := i + 1;
      }
      fs := fs + DeletedFields(e.deleted);
      assert e.deleted[..i] == e.deleted;
      i := 0;
      assert fs + AddedFields(e.added[..0]) == fs;
      while i < |added|
        invariant i <= |added| && r == dst + FieldsBytes(fs + AddedFields(e.added[..i]))
      {
        r := PutAdded(r, added[i]);
        OneMore(dst, fs + AddedFields(e.added[..i]), AddedField(added[i]));
        assert fs + AddedFields(e.added[..i]) + [AddedField(added[i])] == fs + AddedFields(e.added[..i + 1]);
        i := i + 1;
      }
      assert e.added[..i] == e.added;
    }

    /** The assignments of one turn of the switch. */
    method Store(f: Field)
      requires Parsed(f)
      modifies this
      ensures State() == Apply(old(State()), f)
    {
      var i := f.items;
      if f.tag == kComparator { comparator := Some(i[0].s); }
      else if f.tag == kLogNumber { logNumber := Some(i[0].n); }
      else if f.tag == kPrevLogNumber { prevLogNumber := Some(i[0].n); }
      else if f.tag == kNextFileNumber { nextFile := Some(i[0].n); }
      else if f.tag == kLastSequence { lastSequence := Some(i[0].n); }
      else if f.tag == kCompactPointer { pointers := pointers + [(i[0].n, i[1].s)]; }
      else if f.tag == kDeletedFile { deleted := InsertPair(deleted, (i[0].n, i[1].n)); }
      else { added := added + [(i[0].n, FileMeta(i[1].n, i[2].n, i[3].s, i[4].s))]; }
    }

    /** Whatever the bytes are: the edit takes on the fields up to the first fault. */
    method DecodeFrom(src: seq<byte>) returns (fault: Option<Fault>)
      modifies this
      ensures fault == ReadFields(src).fault
      ensures State() == Fold(Cleared(old(State())), ReadFields(src).fields)
      ensures forall e :: WellFormed(e) && src == EditBytes(e) && old(pointers) == [] ==> fault.None? && State() == e
    {
      hide Shape, TakeItems, Apply, Parsed, Fold, TakePayload, ReadFields;
      Clear();
      ghost var c := State();
      var input := src;
      NothingFolded(c, src);
      while true
        invariant Reads(c, src, State(), input)
        decreases |input|
      {
        var tag := GetVarint(input, 32);
        if tag.None? { break; }
        var next := ParsePayload(tag.value.value, tag.value.rest);
        if next.Failed? {
          ReadsFault(c, src, State(), input, next.fault);
          Decoded(old(State()), src, State(), Some(next.fault));
          return Some(next.fault);
        }
        ReadsOn(c, src, State(), input, next.field, next.rest);
        Store(next.field);
        input := next.rest;
      }
      fault := if input != [] then Some(InvalidTag) else None;
      ReadsEnd(c, src, State(), input);
      Decoded(old(State()), src, State(), fault);
    }
  }
}
