/**
 User keys, internal keys, entries, and the specification that every reader of
 the store must meet: "the last operation on this key with sequence <= snapshot".

 A user key is represented by its rank under the user comparator, a real number.
 The store looks at user keys only through that comparator, the set of byte
 strings is countable, and every total order on a countable set embeds in the
 reals, so this covers every comparator. Module Bytewise gives the embedding
 for the comparator that the library uses by default.
 */
module Keys {
  import opened Basics

  type UserKey = real
  type Value = seq<byte>

  /** kTypeValue and kTypeDeletion. */
  datatype Op = Put(value: Value) | Delete

  const kMaxSequenceNumber: nat := 0xFF_FFFF_FFFF_FFFF

  datatype Entry = Entry(key: UserKey, sn: nat, op: Op)

  /** A user key with the packed (sequence, type) word that follows it on disk. */
  datatype InternalKey = InternalKey(user: UserKey, tag: nat)

  function TypeCode(op: Op): nat { if op.Put? then 1 else 0 }

  function PackSequenceAndType(sn: nat, code: nat): nat { sn * 256 + code }

  function IKey(e: Entry): InternalKey {
    InternalKey(e.key, PackSequenceAndType(e.sn, TypeCode(e.op)))
  }

  /** The key that a lookup at a snapshot seeks to: kValueTypeForSeek is the largest type code. */
  function SeekKey(k: UserKey, snapshot: nat): InternalKey {
    InternalKey(k, PackSequenceAndType(snapshot, 1))
  }

  /** Increasing user key, then decreasing tag. */
  predicate Less(a: InternalKey, b: InternalKey) {
    a.user < b.user || (a.user == b.user && a.tag > b.tag)
  }

  predicate Before(a: Entry, b: Entry) { Less(IKey(a), IKey(b)) }

  predicate SortedEntries(es: seq<Entry>) {
    forall i, j :: 0 <= i < j < |es| ==> Before(es[i], es[j])
  }

  /** An entry is at or after a seek key exactly when it has a larger user key,
      or the same user key and a sequence number within the snapshot. */
  lemma SeekKeyMeaning(e: Entry, k: UserKey, snapshot: nat)
    ensures !Less(IKey(e), SeekKey(k, snapshot)) <==> e.key > k || (e.key == k && e.sn <= snapshot)
  {
  }

  // ---------------------------------------------------------------------------
  // What a set of entries means to a reader
  // ---------------------------------------------------------------------------

  predicate Candidate(e: Entry, k: UserKey, s: nat) { e.key == k && e.sn <= s }

  ghost predicate IsLatest(es: set<Entry>, k: UserKey, s: nat, e: Entry) {
    e in es && Candidate(e, k, s) && forall x :: x in es && Candidate(x, k, s) ==> x.sn <= e.sn
  }

  /** Reading k at snapshot s in es gives r; None is the NotFound status. */
  ghost predicate ReadsAs(es: set<Entry>, k: UserKey, s: nat, r: Option<Value>) {
    match r
    case Some(v) => exists e :: IsLatest(es, k, s, e) && e.op == Put(v)
    case None => forall e :: IsLatest(es, k, s, e) ==> e.op.Delete?
  }

  /** Two sets of entries that no reader of k at snapshot s can tell apart. */
  ghost predicate SameReads(a: set<Entry>, b: set<Entry>, k: UserKey, s: nat) {
    forall r :: ReadsAs(a, k, s, r) <==> ReadsAs(b, k, s, r)
  }

  /** All entries of a for a key are newer than all entries of b for it. */
  ghost predicate Newer(a: set<Entry>, b: set<Entry>) {
    forall x, y :: x in a && y in b && x.key == y.key ==> x.sn > y.sn
  }

  ghost function Elements(es: seq<Entry>): set<Entry> { set e | e in es }

  /** A candidate has a latest candidate at or above it. */
  lemma {:induction false} LatestExists(es: set<Entry>, k: UserKey, s: nat, c: Entry) returns (e: Entry)
    requires c in es && Candidate(c, k, s)
    ensures IsLatest(es, k, s, e) && e.sn >= c.sn
    decreases es
  {
    if x :| x in es && Candidate(x, k, s) && x.sn > c.sn {
      var m := LatestExists(es - {c}, k, s, x);
      e := m;
    } else {
      e := c;
    }
  }

  // ---------------------------------------------------------------------------
  // The history of operations, and entries drawn from it
  // ---------------------------------------------------------------------------

  datatype Write = Write(key: UserKey, op: Op)

  /** What each sequence number went to, from 1 on; a write that failed used its numbers up for nothing. */
  type History = seq<Option<Write>>

  /** The last operation on k among the first s operations. */
  function LastOp(h: History, k: UserKey, s: nat): (r: Option<Op>)
    requires s <= |h|
  {
    if s == 0 then None
    else if h[s - 1].Some? && h[s - 1].value.key == k then Some(h[s - 1].value.op)
    else LastOp(h, k, s - 1)
  }

  /** What a reader sees of that operation. */
  function LastValue(h: History, k: UserKey, s: nat): (r: Option<Value>)
    requires s <= |h|
  {
    match LastOp(h, k, s)
    case Some(Put(v)) => Some(v)
    case _ => None
  }

  function EntryOf(h: History, sn: nat): Entry
    requires 1 <= sn <= |h| && h[sn - 1].Some?
  {
    Entry(h[sn - 1].value.key, sn, h[sn - 1].value.op)
  }

  /** Every entry is some operation of the history, under its own sequence number. */
  ghost predicate FromHistory(es: set<Entry>, h: History) {
    forall e :: e in es ==> 1 <= e.sn <= |h| && h[e.sn - 1].Some? && e == EntryOf(h, e.sn)
  }

  /** Reads from es agree with the history for every key and every snapshot from floor on. */
  ghost predicate Agrees(es: set<Entry>, h: History, floor: nat) {
    forall k, s :: floor <= s <= |h| ==> ReadsAs(es, k, s, LastValue(h, k, s))
  }

  lemma {:induction false} LastOpOfExtension(h: History, w: Option<Write>, k: UserKey, s: nat)
    requires s <= |h|
    ensures LastOp(h + [w], k, s) == LastOp(h, k, s)
  {
    if s > 0 {
      LastOpOfExtension(h, w, k, s - 1);
    }
  }

  /** Two sets with the same candidates read alike. */
  lemma SameCandidates(a: set<Entry>, b: set<Entry>, k: UserKey, s: nat, t: nat, r: Option<Value>)
    requires forall x :: x in a && Candidate(x, k, s) <==> x in b && Candidate(x, k, t)
    requires ReadsAs(a, k, s, r)
    ensures ReadsAs(b, k, t, r)
  {
    assert forall x :: IsLatest(a, k, s, x) <==> IsLatest(b, k, t, x);
  }

  lemma AppendAgreesAt(es: set<Entry>, h: History, w: Write, e: Entry, k: UserKey, s: nat, floor: nat)
    requires FromHistory(es, h) && Agrees(es, h, floor)
    requires floor <= |h| && floor <= s <= |h| + 1
    requires e == Entry(w.key, |h| + 1, w.op)
    ensures ReadsAs(es + {e}, k, s, LastValue(h + [Some(w)], k, s))
  {
    var es' := es + {e};
    if s <= |h| {
      LastOpOfExtension(h, Some(w), k, s);
      SameCandidates(es, es', k, s, s, LastValue(h, k, s));
    } else if w.key == k {
      assert IsLatest(es', k, s, e);
      assert forall x :: IsLatest(es', k, s, x) ==> x == e;
    } else {
      LastOpOfExtension(h, Some(w), k, |h|);
      SameCandidates(es, es', k, |h|, s, LastValue(h, k, |h|));
    }
  }

  /** Appending one operation to the history and its entry to the store keeps them in agreement. */
  lemma AppendAgrees(es: set<Entry>, h: History, floor: nat, w: Write)
    requires FromHistory(es, h) && Agrees(es, h, floor)
    requires floor <= |h|
    ensures FromHistory(es + {Entry(w.key, |h| + 1, w.op)}, h + [Some(w)])
    ensures Agrees(es + {Entry(w.key, |h| + 1, w.op)}, h + [Some(w)], floor)
  {
    var e := Entry(w.key, |h| + 1, w.op);
    forall k, s | floor <= s <= |h + [Some(w)]| ensures ReadsAs(es + {e}, k, s, LastValue(h + [Some(w)], k, s)) {
      AppendAgreesAt(es, h, w, e, k, s, floor);
    }
  }

  /** A sequence number that was used up for nothing changes no read. */
  lemma LostAgrees(es: set<Entry>, h: History, floor: nat)
    requires FromHistory(es, h) && Agrees(es, h, floor) && floor <= |h|
    ensures FromHistory(es, h + [None]) && Agrees(es, h + [None], floor)
  {
    forall k, s | floor <= s <= |h + [None]| ensures ReadsAs(es, k, s, LastValue(h + [None], k, s)) {
      var t := if s <= |h| then s else |h|;
      LastOpOfExtension(h, None, k, t);
      SameCandidates(es, es, k, t, s, LastValue(h, k, t));
    }
  }

  /** With entries drawn from a history, a key reads as at most one value. */
  lemma ReadsAsIsDeterministic(es: set<Entry>, h: History, k: UserKey, s: nat, r: Option<Value>, q: Option<Value>)
    requires FromHistory(es, h)
    requires ReadsAs(es, k, s, r) && ReadsAs(es, k, s, q)
    ensures r == q
  {
    forall x, y | IsLatest(es, k, s, x) && IsLatest(es, k, s, y) ensures x == y {
      assert x.sn == y.sn;
    }
  }
}

/** The default comparator, and the order embedding of byte strings in the reals. */
module Bytewise {
  import opened Basics
  import opened Keys

  /** Slice::compare: lexicographic over unsigned bytes, a proper prefix first. */
  predicate ByteLess(a: seq<byte>, b: seq<byte>) {
    if b == [] then false
    else if a == [] then true
    else a[0] < b[0] || (a[0] == b[0] && ByteLess(a[1..], b[1..]))
  }

  function Rank(s: seq<byte>): (r: UserKey)
    ensures 0.0 <= r < 1.0
  {
    if s == [] then 0.0 else (s[0] as real + 1.0 + Rank(s[1..])) / 257.0
  }

  /** Comparing ranks is comparing byte strings; distinct byte strings have distinct ranks. */
  lemma {:induction false} RankEmbedsOrder(a: seq<byte>, b: seq<byte>)
    ensures ByteLess(a, b) <==> Rank(a) < Rank(b)
    ensures a == b <==> Rank(a) == Rank(b)
  {
    if a != [] && b != [] {
      RankEmbedsOrder(a[1..], b[1..]);
      assert a == [a[0]] + a[1..] && b == [b[0]] + b[1..];
      if a[0] < b[0] {
        assert a[0] + 1 <= b[0];
      } else if b[0] < a[0] {
        assert b[0] + 1 <= a[0];
      }
    }
  }
}
