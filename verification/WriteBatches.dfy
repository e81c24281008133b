/**
 Write batches: what a log record holds, how it is read back into the memtable,
 and why a batch cut short is never taken for a whole one.
 */
module WriteBatches {
  import opened Basics
  import opened Coding
  import opened Varints
  import opened Keys

  /** One record of a batch, with the user key as the bytes it is written in. */
  datatype Change = Change(key: seq<byte>, op: Op)

  datatype Fault = TooSmall | BadPut | BadDelete | UnknownTag | WrongCount

  /** kHeader: the sequence number and the count. */
  const kHeader: nat := 12

  /** A batch's count is an int. */
  const kMaxCount: nat := 0x7FFF_FFFF

  /** Lengths are written in 32 bits. */
  ghost predicate Small(c: Change) {
    |c.key| < TWO32 && (c.op.Put? ==> |c.op.value| < TWO32)
  }

  ghost predicate AllSmall(cs: seq<Change>) {
    forall i :: 0 <= i < |cs| ==> Small(cs[i])
  }

  // ---------------------------------------------------------------------------
  // The bytes of a batch, and what reading bytes gives
  // ---------------------------------------------------------------------------

  ghost function ChangeBytes(c: Change): (b: seq<byte>)
    ensures |b| > 0
  {
    match c.op
    case Put(value) => [1] + (SliceBytes(c.key) + SliceBytes(value))
    case Delete => [0] + SliceBytes(c.key)
  }

  ghost function Body(cs: seq<Change>): seq<byte> {
    if cs == [] then [] else ChangeBytes(cs[0]) + Body(cs[1..])
  }

  ghost function BatchBytes(sn: nat, cs: seq<Change>): seq<byte>
    requires sn < TWO32 * TWO32 && |cs| <= kMaxCount
  {
    EncodeFixed64(sn) + EncodeFixed32(|cs|) + Body(cs)
  }

  datatype Taken = Taken(change: Change, rest: seq<byte>) | Failed(fault: Fault)

  ghost function TakeChange(b: seq<byte>): (r: Taken)
    requires b != []
    ensures r.Taken? ==> |r.rest| < |b|
  {
    if b[0] == 1 then
      var key := TakeSlice(b[1..]);
      if key.None? then Failed(BadPut)
      else
        var value := TakeSlice(key.value.rest);
        if value.None? then Failed(BadPut) else Taken(Change(key.value.value, Put(value.value.value)), value.value.rest)
    else if b[0] == 0 then
      var key := TakeSlice(b[1..]);
      if key.None? then Failed(BadDelete) else Taken(Change(key.value.value, Delete), key.value.rest)
    else Failed(UnknownTag)
  }

  /** The changes given to the handler, and the fault that ended the reading. */
  datatype Reading = Reading(changes: seq<Change>, fault: Option<Fault>)

  ghost function ReadBody(b: seq<byte>): Reading
    decreases |b|
  {
    if b == [] then Reading([], None)
    else
      match TakeChange(b)
      case Failed(fault) => Reading([], Some(fault))
      case Taken(c, rest) => var r := ReadBody(rest); Reading([c] + r.changes, r.fault)
  }

  ghost function ReadBatch(rep: seq<byte>): Reading {
    if |rep| < kHeader then Reading([], Some(TooSmall))
    else
      var r := ReadBody(rep[kHeader..]);
      if r.fault.None? && |r.changes| != DecodeFixed32(rep[8..12]) as nat then Reading(r.changes, Some(WrongCount)) else r
  }

  // ---------------------------------------------------------------------------
  // Round trip
  // ---------------------------------------------------------------------------

  lemma ChangeReads(c: Change, tail: seq<byte>)
    requires Small(c)
    ensures TakeChange(ChangeBytes(c) + tail) == Taken(c, tail)
  {
    hide *;
    SmallChange(c);
    var b, key := ChangeBytes(c) + tail, SliceBytes(c.key);
    match c.op
    case Put(value) =>
      SliceReads(c.key, SliceBytes(value) + tail);
      SliceReads(value, tail);
      Regroup(key, SliceBytes(value), tail);
      TagFirst(1, key + SliceBytes(value), tail);
      PutTaken(b, c, value, SliceBytes(value) + tail, tail);
    case Delete =>
      SliceReads(c.key, tail);
      TagFirst(0, key, tail);
      DeleteTaken(b, c, tail);
  }

  lemma SmallChange(c: Change)
    requires Small(c)
    ensures |c.key| < TWO32 && (c.op.Put? ==> |c.op.value| < TWO32)
    ensures ChangeBytes(c) == if c.op.Put? then [1] + (SliceBytes(c.key) + SliceBytes(c.op.value)) else [0] + SliceBytes(c.key)
  {
    hide SliceBytes;
  }

  lemma TagFirst(t: byte, b: seq<byte>, tail: seq<byte>)
    ensures var r := [t] + b + tail; r != [] && r[0] == t && r[1..] == b + tail
  {
  }

  lemma PutTaken(b: seq<byte>, c: Change, value: seq<byte>, rest: seq<byte>, tail: seq<byte>)
    requires b != [] && b[0] == 1 && c.op == Put(value)
    requires TakeSlice(b[1..]) == Some(Got(c.key, rest)) && TakeSlice(rest) == Some(Got(value, tail))
    ensures TakeChange(b) == Taken(c, tail)
  {
    hide TakeSlice;
  }

  lemma DeleteTaken(b: seq<byte>, c: Change, tail: seq<byte>)
    requires b != [] && b[0] == 0 && c.op == Delete && TakeSlice(b[1..]) == Some(Got(c.key, tail))
    ensures TakeChange(b) == Taken(c, tail)
  {
    hide TakeSlice;
  }

  lemma {:induction false} BodyReads(cs: seq<Change>)
    requires AllSmall(cs)
    ensures ReadBody(Body(cs)) == Reading(cs, None)
  {
    if cs != [] {
      hide TakeChange, ChangeBytes;
      ChangeReads(cs[0], Body(cs[1..]));
      BodyReads(cs[1..]);
    }
  }

  lemma HeaderOf(sn: nat, cs: seq<Change>)
    requires sn < TWO32 * TWO32 && |cs| <= kMaxCount
    ensures var rep := BatchBytes(sn, cs);
            && |rep| >= kHeader && rep[kHeader..] == Body(cs)
            && rep[..8] == EncodeFixed64(sn) && rep[8..12] == EncodeFixed32(|cs|)
  {
  }

  /** A batch reads back as the changes put in it. */
  lemma BatchReads(sn: nat, cs: seq<Change>)
    requires sn < TWO32 * TWO32 && |cs| <= kMaxCount && AllSmall(cs)
    ensures ReadBatch(BatchBytes(sn, cs)) == Reading(cs, None)
  {
    hide BatchBytes, EncodeFixed32, DecodeFixed32;
    HeaderOf(sn, cs);
    FixedRoundTrip(|cs|);
    BodyReads(cs);
  }

  // ---------------------------------------------------------------------------
  // Batches cut short
  // ---------------------------------------------------------------------------

  lemma TornChange(c: Change, n: nat)
    requires Small(c) && 0 < n < |ChangeBytes(c)|
    ensures TakeChange(ChangeBytes(c)[..n]).Failed?
  {
    hide *;
    SmallChange(c);
    var key := SliceBytes(c.key);
    var t, value := if c.op.Put? then 1 else 0, if c.op.Put? then SliceBytes(c.op.value) else [];
    assert ChangeBytes(c) == [t] + (key + value);
    CutAfterTag(t, key, value, n);
    if n - 1 < |key| {
      TornSlice(c.key, n - 1);
    } else {
      SliceReads(c.key, value[..n - 1 - |key|]);
      TornSlice(c.op.value, n - 1 - |key|);
    }
    TakeFails(ChangeBytes(c)[..n]);
  }

  lemma CutAfterTag(t: byte, key: seq<byte>, value: seq<byte>, n: nat)
    requires 0 < n < 1 + |key| + |value|
    ensures var b := ([t] + (key + value))[..n];
            && b != [] && b[0] == t && (n - 1 < |key| ==> b[1..] == key[..n - 1])
            && (n - 1 >= |key| ==> b[1..] == key + value[..n - 1 - |key|])
  {
  }

  lemma TakeFails(b: seq<byte>)
    requires b != [] && b[0] <= 1
    requires TakeSlice(b[1..]).Some? ==> b[0] == 1 && TakeSlice(TakeSlice(b[1..]).value.rest).None?
    ensures TakeChange(b).Failed?
  {
    hide TakeSlice;
  }

  /** A body cut short gives the handler fewer changes, from the first on. */
  lemma {:induction false} TornBody(cs: seq<Change>, n: nat)
    requires AllSmall(cs) && n < |Body(cs)|
    ensures ReadBody(Body(cs)[..n]).changes < cs
  {
    hide TakeChange, ChangeBytes;
    var k, b := |ChangeBytes(cs[0])|, Body(cs)[..n];
    if n == 0 {
    } else if n < k {
      TornChange(cs[0], n);
      assert b == ChangeBytes(cs[0])[..n];
    } else {
      ChangeReads(cs[0], Body(cs[1..])[..n - k]);
      assert b == ChangeBytes(cs[0]) + Body(cs[1..])[..n - k];
      TornBody(cs[1..], n - k);
      assert cs == [cs[0]] + cs[1..];
    }
  }

  /**
   Every proper prefix of a batch is refused. What the handler has been given by
   then is a prefix of the changes, and not all of them if there are any.
   */
  lemma TornBatchRefused(sn: nat, cs: seq<Change>, n: nat)
    requires sn < TWO32 * TWO32 && |cs| <= kMaxCount && AllSmall(cs)
    requires n < |BatchBytes(sn, cs)|
    ensures var r := ReadBatch(BatchBytes(sn, cs)[..n]);
            r.fault.Some? && r.changes <= cs && (cs != [] ==> r.changes < cs)
  {
    hide BatchBytes, EncodeFixed32, DecodeFixed32, Body, ReadBody, AllSmall;
    HeaderOf(sn, cs);
    FixedRoundTrip(|cs|);
    if n >= kHeader {
      TornBody(cs, n - kHeader);
      TornRep(BatchBytes(sn, cs), n);
    }
  }

  lemma TornRep(rep: seq<byte>, n: nat)
    requires kHeader <= n <= |rep|
    ensures rep[..n][kHeader..] == rep[kHeader..][..n - kHeader] && rep[..n][8..12] == rep[8..12]
  {
  }

  lemma {:induction false} BodyJoins(a: seq<Change>, b: seq<Change>)
    ensures Body(a + b) == Body(a) + Body(b)
  {
    if a == [] {
      assert a + b == b;
    } else {
      hide ChangeBytes;
      BodyJoins(a[1..], b);
      TailOfSum(a, b);
      Regroup(ChangeBytes(a[0]), Body(a[1..]), Body(b));
    }
  }

  lemma TailOfSum<T>(a: seq<T>, b: seq<T>)
    requires a != []
    ensures (a + b)[1..] == a[1..] + b && (a + b)[0] == a[0] && a + b != []
  {
  }

  lemma Renumbered(sn: nat, sn': nat, cs: seq<Change>)
    requires sn < TWO32 * TWO32 && sn' < TWO32 * TWO32 && |cs| <= kMaxCount
    ensures |BatchBytes(sn, cs)| >= 8 && BatchBytes(sn', cs) == EncodeFixed64(sn') + BatchBytes(sn, cs)[8..]
  {
    hide EncodeFixed32, EncodeFixed64, Body;
    Regroup(EncodeFixed64(sn), EncodeFixed32(|cs|), Body(cs));
    Regroup(EncodeFixed64(sn'), EncodeFixed32(|cs|), Body(cs));
  }

  /** A new count and more records make the bytes of the longer batch. */
  lemma Grown(sn: nat, cs: seq<Change>, ds: seq<Change>)
    requires sn < TWO32 * TWO32 && |cs| + |ds| <= kMaxCount
    ensures var rep := BatchBytes(sn, cs);
            && |rep| >= kHeader
            && BatchBytes(sn, cs + ds) == rep[..8] + EncodeFixed32(|cs| + |ds|) + rep[kHeader..] + Body(ds)
  {
    hide BatchBytes, EncodeFixed32, EncodeFixed64, Body;
    HeaderOf(sn, cs);
    HeaderOf(sn, cs + ds);
    BodyJoins(cs, ds);
    var rep := BatchBytes(sn, cs + ds);
    assert rep == rep[..8] + rep[8..12] + rep[kHeader..];
    Regroup(rep[..8] + rep[8..12], Body(cs), Body(ds));
  }

  // ---------------------------------------------------------------------------
  // The memtable
  // ---------------------------------------------------------------------------

  /** An entry handed to the memtable. */
  datatype Insertion = Insertion(sn: nat, change: Change)

  ghost function Numbered(sn: nat, cs: seq<Change>): seq<Insertion> {
    seq(|cs|, i requires 0 <= i < |cs| => Insertion(sn + i, cs[i]))
  }

  // ---------------------------------------------------------------------------
  // The class
  // ---------------------------------------------------------------------------

  lemma NoneNumbered(sn: nat, cs: seq<Change>)
    ensures Numbered(sn, cs[..0]) == []
  {
  }

  lemma NextNumbered(sn: nat, cs: seq<Change>, i: nat)
    requires i < |cs|
    ensures Numbered(sn, cs[..i + 1]) == Numbered(sn, cs[..i]) + [Insertion(sn + i, cs[i])]
  {
  }

  lemma BatchNumbered(sn: nat, changes: seq<Change>)
    requires sn < TWO32 * TWO32 && |changes| <= kMaxCount && AllSmall(changes)
    ensures |BatchBytes(sn, changes)| >= kHeader && DecodeFixed64(BatchBytes(sn, changes)[..8]) == sn
    ensures ReadBatch(BatchBytes(sn, changes)).fault.None? && ReadBatch(BatchBytes(sn, changes)).changes == changes
  {
    hide *;
    BatchReads(sn, changes);
    HeaderOf(sn, changes);
    Fixed64RoundTrip(sn);
  }

  class WriteBatch {
    var rep: seq<byte>
    ghost var sn: nat
    ghost var changes: seq<Change>

    ghost predicate Valid()
      reads this
    {
      sn < TWO32 * TWO32 && |changes| <= kMaxCount && AllSmall(changes) && rep == BatchBytes(sn, changes)
    }

    constructor ()
      ensures Valid() && sn == 0 && changes == []
    {
      rep, sn, changes := seq(kHeader, _ => 0), 0, [];
    }

    method Clear()
      modifies this
      ensures Valid() && sn == 0 && changes == []
    {
      rep, sn, changes := seq(kHeader, _ => 0), 0, [];
    }

    method Count() returns (n: nat)
      requires Valid()
      ensures n == |changes|
    {
      HeaderOf(sn, changes);
      FixedRoundTrip(|changes|);
      n := DecodeFixed32(rep[8..12]);
    }

    method Sequence() returns (s: nat)
      requires Valid()
      ensures s == sn
    {
      HeaderOf(sn, changes);
      Fixed64RoundTrip(sn);
      s := DecodeFixed64(rep[..8]);
    }

    method SetSequence(s: nat)
      requires Valid() && s < TWO32 * TWO32
      modifies this`rep, this`sn
      ensures Valid() && sn == s
    {
      Renumbered(sn, s, changes);
      hide BatchBytes, EncodeFixed64;
      rep := EncodeFixed64(s) + rep[8..];
      sn := s;
    }

    /** One more change at the end, and one more in the count. */
    method Record(ghost c: Change, bytes: seq<byte>)
      requires Valid() && Small(c) && bytes == ChangeBytes(c) && |changes| < kMaxCount
      modifies this`rep, this`changes
      ensures Valid() && changes == old(changes) + [c]
    {
      hide ChangeBytes, EncodeFixed32, DecodeFixed32, EncodeFixed64, BatchBytes, Small;
      var n := Count();
      Grown(sn, changes, [c]);
      rep := rep[..8] + EncodeFixed32(n + 1) + rep[kHeader..];
      assert Body([c]) == ChangeBytes(c) by { assert [c][1..] == []; }
      rep := rep + bytes;
      changes := changes + [c];
    }

    method Put(key: seq<byte>, value: seq<byte>)
      requires Valid() && |key| < TWO32 && |value| < TWO32 && |changes| < kMaxCount
      modifies this`rep, this`changes
      ensures Valid() && changes == old(changes) + [Change(key, Op.Put(value))]
    {
      var bytes := PutLengthPrefixedSlice([1], key);
      bytes := PutLengthPrefixedSlice(bytes, value);
      Regroup([1], SliceBytes(key), SliceBytes(value));
      hide SliceBytes;
      Record(Change(key, Op.Put(value)), bytes);
    }

    method Delete(key: seq<byte>)
      requires Valid() && |key| < TWO32 && |changes| < kMaxCount
      modifies this`rep, this`changes
      ensures Valid() && changes == old(changes) + [Change(key, Op.Delete)]
    {
      var bytes := PutLengthPrefixedSlice([0], key);
      Record(Change(key, Op.Delete), bytes);
    }

    /** The other batch's changes after this one's; its sequence number plays no part. */
    method Append(src: WriteBatch)
      requires Valid() && src.Valid() && |changes| + |src.changes| <= kMaxCount
      modifies this`rep, this`changes
      ensures Valid() && changes == old(changes) + old(src.changes)
    {
      hide EncodeFixed32, DecodeFixed32, EncodeFixed64, BatchBytes, Body, Small;
      var m := Count();
      var n := src.Count();
      HeaderOf(src.sn, src.changes);
      Grown(sn, changes, src.changes);
      var tail := src.rep[kHeader..];
      rep := rep[..8] + EncodeFixed32(m + n) + rep[kHeader..];
      rep := rep + tail;
      changes := changes + src.changes;
    }

    /** SetContents: whatever a log record holds. */
    method SetContents(contents: seq<byte>)
      requires |contents| >= kHeader
      modifies this`rep
      ensures rep == contents
    {
      rep := contents;
    }

    /** The switch on the tag of one record. */
    static method ParseOne(input: seq<byte>) returns (r: Taken)
      requires input != []
      ensures r == TakeChange(input)
    {
      var tag := input[0];
      if tag == 1 {
        var key := GetLengthPrefixedSlice(input[1..]);
        if key.None? {
          return Failed(BadPut);
        }
        var value := GetLengthPrefixedSlice(key.value.rest);
        if value.None? {
          return Failed(BadPut);
        }
        r := Taken(Change(key.value.value, Op.Put(value.value.value)), value.value.rest);
      } else if tag == 0 {
        var key := GetLengthPrefixedSlice(input[1..]);
        if key.None? {
          return Failed(BadDelete);
        }
        r := Taken(Change(key.value.value, Op.Delete), key.value.rest);
      } else {
        r := Failed(UnknownTag);
      }
    }

    /** Whatever the bytes are: the handler gets the changes up to the first fault. */
    method Iterate() returns (given: seq<Change>, fault: Option<Fault>)
      ensures Reading(given, fault) == ReadBatch(rep)
    {
      hide TakeChange, DecodeFixed32;
      given := [];
      if |rep| < kHeader {
        return given, Some(TooSmall);
      }
      var input, found := rep[kHeader..], 0;
      while input != []
        invariant found == |given|
        invariant ReadBody(rep[kHeader..]) == Reading(given + ReadBody(input).changes, ReadBody(input).fault)
        decreases |input|
      {
        found := found + 1;
        var next := ParseOne(input);
        if next.Failed? {
          return given, Some(next.fault);
        }
        Gives(given, input, next.change, next.rest);
        given, input := given + [next.change], next.rest;
      }
      fault := if found != DecodeFixed32(rep[8..12]) as nat then Some(WrongCount) else None;
    }

    static lemma Gives(given: seq<Change>, input: seq<byte>, c: Change, rest: seq<byte>)
      requires input != [] && TakeChange(input) == Taken(c, rest)
      ensures |rest| < |input|
      ensures given + ReadBody(input).changes == (given + [c]) + ReadBody(rest).changes
      ensures ReadBody(input).fault == ReadBody(rest).fault
    {
    }

    /** InsertInto: consecutive sequence numbers from the batch's own, also for what precedes a fault. */
    method InsertInto() returns (inserted: seq<Insertion>, fault: Option<Fault>)
      requires |rep| >= kHeader
      ensures fault == ReadBatch(rep).fault
      ensures inserted == Numbered(DecodeFixed64(rep[..8]), ReadBatch(rep).changes)
      ensures Valid() ==> fault.None? && inserted == Numbered(sn, changes)
    {
      hide DecodeFixed64, BatchBytes, ReadBatch, Numbered, Small, AllSmall;
      if Valid() { BatchNumbered(sn, changes); }
      var sequence := DecodeFixed64(rep[..8]);
      var given;
      given, fault := Iterate();
      assert given == ReadBatch(rep).changes && fault == ReadBatch(rep).fault;
      inserted := [];
      NoneNumbered(DecodeFixed64(rep[..8]), given);
      var i := 0;
      while i < |given|
        invariant i <= |given| && sequence == DecodeFixed64(rep[..8]) + i
        invariant inserted == Numbered(DecodeFixed64(rep[..8]), given[..i])
      {
        NextNumbered(DecodeFixed64(rep[..8]), given, i);
        inserted := inserted + [Insertion(sequence, given[i])];
        sequence, i := sequence + 1, i + 1;
      }
      assert given[..i] == given;
    }
  }
}
