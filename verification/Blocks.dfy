/**
 Blocks: entries whose keys are stored without the prefix they share with the key
 before, restart points where they are not, and the iterator that searches them.
 */
module Blocks {
  import opened Basics
  import opened Coding
  import opened Varints

  datatype Pair = Pair(key: seq<byte>, value: seq<byte>)

  // ---------------------------------------------------------------------------
  // Entries
  // ---------------------------------------------------------------------------

  /** The three lengths in front of an entry, and how many bytes they take. */
  datatype Lengths = Lengths(shared: nat, nonShared: nat, valueLength: nat, size: nat)

  /** DecodeEntry up to its last check: one byte for each length if they are small, otherwise three varints. */
  function ReadLengths(b: seq<byte>): (r: Option<Lengths>)
    ensures r.Some? ==> 3 <= r.value.size <= |b|
  {
    if |b| < 3 then None
    else if b[0] < 128 && b[1] < 128 && b[2] < 128 then Some(Lengths(b[0], b[1], b[2], 3))
    else
      var x := ReadVarint(b, 0, 32);
      if x.Broken? then None
      else
        var y := ReadVarint(b[x.used..], 0, 32);
        if y.Broken? then None
        else
          var z := ReadVarint(b[x.used + y.used..], 0, 32);
          if z.Broken? then None else Some(Lengths(x.value, y.value, z.value, x.used + y.used + z.used))
  }

  /** The lengths of the entry at p, if they leave room for what they announce; their sum is taken in 32 bits. */
  function DecodeEntry(data: seq<byte>, p: nat, limit: nat): (r: Option<Lengths>)
    requires p <= limit <= |data|
    ensures r.Some? ==> p + r.value.size <= limit
  {
    var r := ReadLengths(data[p..limit]);
    if r.None? || limit - p - r.value.size < (r.value.nonShared + r.value.valueLength) % TWO32 then None else r
  }

  function LengthBytes(shared: nat, nonShared: nat, valueLength: nat): seq<byte> {
    Varint(shared) + (Varint(nonShared) + Varint(valueLength))
  }

  function EntryBytes(shared: nat, rest: seq<byte>, value: seq<byte>): seq<byte> {
    LengthBytes(shared, |rest|, |value|) + (rest + value)
  }

  lemma FirstByteTells(v: nat)
    ensures Varint(v)[0] < 128 <==> v < 128
    ensures v < 128 ==> Varint(v) == [v]
  {
  }

  lemma LengthRead(b: seq<byte>, v: nat, tail: seq<byte>)
    requires v < TWO32 && b == Varint(v) + tail
    ensures Front(b, v, tail)
  {
    WordBits();
    VarintRoundTrip(v, 32, tail);
    FirstByteTells(v);
  }

  /** A number at the front; a first byte below 128 is all of it. */
  ghost predicate Front(b: seq<byte>, v: nat, tail: seq<byte>) {
    && ReadVarint(b, 0, 32).Number? && ReadVarint(b, 0, 32).value == v && b[ReadVarint(b, 0, 32).used..] == tail
    && (b[0] < 128 ==> ReadVarint(b, 0, 32).used == 1 && b[0] == v)
  }

  /** Three numbers in a row are read alike on either path of the decoder. */
  lemma ThreeNumbers(a: seq<byte>, u: nat, b: seq<byte>, v: nat, c: seq<byte>, w: nat, d: seq<byte>)
    requires Front(a, u, b) && Front(b, v, c) && Front(c, w, d)
    ensures ReadLengths(a) == Some(Lengths(u, v, w, |a| - |d|))
  {
    hide ReadVarint;
    var m, n := ReadVarint(a, 0, 32).used, ReadVarint(b, 0, 32).used;
    Drops(a, m, b, n);
    if a[0] < 128 && b[0] < 128 {
      assert a[1] == b[0] && a[2] == c[0];
    }
  }

  lemma Drops(a: seq<byte>, m: nat, b: seq<byte>, n: nat)
    requires m <= |a| && a[m..] == b && n <= |b|
    ensures a[m + n..] == b[n..]
  {
  }

  lemma ThreeLengths(u: nat, v: nat, w: nat)
    ensures LengthBytes(u, v, w) == Varint(u) + (Varint(v) + Varint(w))
  {
    hide Varint;
  }

  /** The lengths read back. */
  lemma LengthsRead(u: nat, v: nat, w: nat, tail: seq<byte>)
    requires u < TWO32 && v < TWO32 && w < TWO32
    ensures ReadLengths(LengthBytes(u, v, w) + tail) == Some(Lengths(u, v, w, |LengthBytes(u, v, w)|))
  {
    hide *;
    var x, y, z := Varint(u), Varint(v), Varint(w);
    ThreeLengths(u, v, w);
    LengthRead(z + tail, w, tail);
    LengthRead(y + (z + tail), v, z + tail);
    LengthRead(x + (y + (z + tail)), u, y + (z + tail));
    Regroup(x, y + z, tail);
    Regroup(y, z, tail);
    ThreeNumbers(x + (y + (z + tail)), u, y + (z + tail), v, z + tail, w, tail);
  }

  /** An entry decodes wherever it lies, whatever follows it. */
  lemma EntryDecodes(data: seq<byte>, p: nat, next: nat, limit: nat, shared: nat, rest: seq<byte>, value: seq<byte>)
    requires p <= next <= limit <= |data| && data[p..next] == EntryBytes(shared, rest, value)
    requires shared < TWO32 && |rest| + |value| < TWO32
    ensures
      var n := |LengthBytes(shared, |rest|, |value|)|;
      && DecodeEntry(data, p, limit) == Some(Lengths(shared, |rest|, |value|, n))
      && p + n + |rest| + |value| == next && data[p + n..p + n + |rest|] == rest && data[p + n + |rest|..next] == value
  {
    var head, body := LengthBytes(shared, |rest|, |value|), rest + value;
    LengthsRead(shared, |rest|, |value|, body + data[next..limit]);
    hide LengthBytes, ReadLengths;
    assert data[p..limit] == data[p..next] + data[next..limit];
    assert data[p..limit] == head + (body + data[next..limit]);
    EntryParts(data, p, next, head, rest, value);
  }

  lemma EntryParts(data: seq<byte>, p: nat, next: nat, head: seq<byte>, rest: seq<byte>, value: seq<byte>)
    requires p <= next <= |data| && data[p..next] == head + (rest + value)
    ensures var q := p + |head|; q + |rest| + |value| == next && data[q..q + |rest|] == rest && data[q + |rest|..next] == value
  {
    var e := data[p..next];
    assert e[|head|..][..|rest|] == rest && e[|head|..][|rest|..] == value;
    assert data[p + |head|..next] == e[|head|..];
  }

  // ---------------------------------------------------------------------------
  // The layout of a block
  // ---------------------------------------------------------------------------

  /**
   What a block is made of: the pairs, where each entry starts (and where they end), how much of its key each
   shares with the key before, and which entries are restart points.
   */
  datatype Plan = Plan(pairs: seq<Pair>, offs: seq<nat>, shares: seq<nat>, starts: seq<nat>)

  function PrevKey(pairs: seq<Pair>, i: nat): seq<byte>
    requires i <= |pairs|
  {
    if i == 0 then [] else pairs[i - 1].key
  }

  ghost predicate Sized(plan: Plan) {
    |plan.offs| == |plan.pairs| + 1 && |plan.shares| == |plan.pairs|
  }

  ghost predicate EntryAt(data: seq<byte>, plan: Plan, i: nat)
    requires Sized(plan) && i < |plan.pairs|
  {
    var pair, share, prev := plan.pairs[i], plan.shares[i], PrevKey(plan.pairs, i);
    && plan.offs[i] + 3 <= plan.offs[i + 1] <= |data|
    && share <= |prev| && share <= |pair.key| && prev[..share] == pair.key[..share]
    && |pair.key| + |pair.value| < TWO32
    && data[plan.offs[i]..plan.offs[i + 1]] == EntryBytes(share, pair.key[share..], pair.value)
  }

  /** The first limit bytes are the entries of the pairs, one after the other. */
  ghost predicate Laid(data: seq<byte>, limit: nat, plan: Plan) {
    && Sized(plan) && limit <= |data| && plan.offs[0] == 0 && plan.offs[|plan.pairs|] == limit
    && forall i :: 0 <= i < |plan.pairs| ==> EntryAt(data, plan, i)
  }

  /** Restart j is the offset of an entry that has its whole key. */
  ghost predicate RestartAt(plan: Plan, restarts: seq<nat>, j: nat)
    requires Sized(plan) && j < |plan.starts| == |restarts|
  {
    && plan.starts[j] <= |plan.pairs| && restarts[j] == plan.offs[plan.starts[j]]
    && (plan.pairs != [] ==> plan.starts[j] < |plan.pairs| && plan.shares[plan.starts[j]] == 0)
  }

  ghost predicate Restarted(plan: Plan, restarts: seq<nat>)
    requires Sized(plan)
  {
    && |plan.starts| == |restarts| > 0 && plan.starts[0] == 0
    && (forall i, j :: 0 <= i < j < |restarts| ==> plan.starts[i] < plan.starts[j])
    && forall j :: 0 <= j < |restarts| ==> RestartAt(plan, restarts, j)
  }

  lemma {:induction false} OffsetsGrow(data: seq<byte>, limit: nat, plan: Plan, i: nat, j: nat)
    requires Laid(data, limit, plan) && i < j <= |plan.pairs|
    ensures plan.offs[i] + 3 <= plan.offs[j]
    decreases j
  {
    assert EntryAt(data, plan, j - 1);
    if i < j - 1 {
      OffsetsGrow(data, limit, plan, i, j - 1);
    }
  }

  // ---------------------------------------------------------------------------
  // Building a block
  // ---------------------------------------------------------------------------

  function WithPair(plan: Plan, pair: Pair, share: nat, end: nat, restart: bool): Plan {
    Plan(plan.pairs + [pair], plan.offs + [end], plan.shares + [share], if restart then plan.starts + [|plan.pairs|] else plan.starts)
  }

  class BlockBuilder {
    const restartInterval: nat
    var buffer: seq<byte>
    var restarts: seq<nat>
    var counter: nat
    var lastKey: seq<byte>
    ghost var plan: Plan

    ghost predicate Valid()
      reads this
    {
      && restartInterval >= 1 && counter <= restartInterval
      && Laid(buffer, |buffer|, plan) && Restarted(plan, restarts)
      && lastKey == PrevKey(plan.pairs, |plan.pairs|)
      && (plan.pairs == [] ==> counter == 0 && restarts == [0])
    }

    constructor (restartInterval: nat)
      requires restartInterval >= 1
      ensures Valid() && plan.pairs == []
    {
      this.restartInterval := restartInterval;
      buffer, restarts, counter, lastKey := [], [0], 0, [];
      plan := Plan([], [0], [], [0]);
    }

    method Reset()
      requires Valid()
      modifies this
      ensures Valid() && plan.pairs == []
    {
      buffer, restarts, counter, lastKey := [], [0], 0, [];
      plan := Plan([], [0], [], [0]);
    }

    /** How many bytes the key has in common with the last one. */
    method SharedBytes(key: seq<byte>) returns (shared: nat)
      ensures shared <= |lastKey| && shared <= |key| && lastKey[..shared] == key[..shared]
    {
      var minLength := if |lastKey| < |key| then |lastKey| else |key|;
      shared := 0;
      while shared < minLength && lastKey[shared] == key[shared]
        invariant shared <= minLength && lastKey[..shared] == key[..shared]
      {
        shared := shared + 1;
      }
    }

    method Add(key: seq<byte>, value: seq<byte>)
      requires Valid() && |key| + |value| < TWO32
      modifies this
      ensures Valid() && plan.pairs == old(plan.pairs) + [Pair(key, value)]
    {
      var shared: nat := 0;
      ghost var restart := counter == restartInterval;
      if counter < restartInterval {
        shared := SharedBytes(key);
      } else {
        restarts := restarts + [|buffer|];
        counter := 0;
      }
      ghost var before := buffer;
      var rest := key[shared..];
      buffer := buffer + EntryBytes(shared, rest, value);
      lastKey := lastKey[..shared] + rest;
      assert lastKey == key[..shared] + key[shared..] == key;
      counter := counter + 1;
      PairAdded(before, plan, old(restarts), Pair(key, value), shared, restart);
      plan := WithPair(plan, Pair(key, value), shared, |buffer|, restart);
    }

    /** The entries, the restart array and its length. */
    method Finish() returns (contents: seq<byte>)
      requires Valid()
      ensures |buffer| < TWO32 && |restarts| < TWO32 ==> IsBlock(contents, plan, |buffer|, restarts)
      ensures |buffer| <= |contents|
    {
      contents := buffer;
      if |buffer| < TWO32 && |restarts| < TWO32 {
        RestartsFit(buffer, plan, restarts);
        contents := buffer + Fixed32s(restarts) + EncodeFixed32(|restarts|);
        EntriesStay(buffer, contents, plan);
      }
    }
  }

  /** A finished block: entries up to limit, then the restart array. */
  ghost predicate IsBlock(contents: seq<byte>, plan: Plan, limit: nat, restarts: seq<nat>) {
    && Laid(contents, limit, plan) && Restarted(plan, restarts)
    && (forall j :: 0 <= j < |restarts| ==> restarts[j] < TWO32) && |restarts| < TWO32
    && |contents| == limit + 4 * |restarts| + 4
    && contents[limit..] == Fixed32s(restarts) + EncodeFixed32(|restarts|)
  }

  lemma EntriesStay(data: seq<byte>, more: seq<byte>, plan: Plan)
    requires Laid(data, |data|, plan) && |data| <= |more| && more[..|data|] == data
    ensures Laid(more, |data|, plan)
  {
    hide EntryBytes;
    forall i | 0 <= i < |plan.pairs| ensures EntryAt(more, plan, i) {
      assert EntryAt(data, plan, i);
      assert more[..|data|][plan.offs[i]..plan.offs[i + 1]] == more[plan.offs[i]..plan.offs[i + 1]];
    }
  }

  lemma RestartsFit(data: seq<byte>, plan: Plan, restarts: seq<nat>)
    requires Laid(data, |data|, plan) && Restarted(plan, restarts) && |data| < TWO32
    ensures forall j :: 0 <= j < |restarts| ==> restarts[j] < TWO32
  {
    forall j | 0 <= j < |restarts| ensures restarts[j] < TWO32 {
      assert RestartAt(plan, restarts, j);
      if plan.starts[j] < |plan.pairs| { OffsetsGrow(data, |data|, plan, plan.starts[j], |plan.pairs|); }
    }
  }

  /** An entry at the end of the buffer, and a restart point for it if it shares nothing because of the interval. */
  lemma PairAdded(buffer: seq<byte>, plan: Plan, restarts: seq<nat>, pair: Pair, share: nat, restart: bool)
    requires Laid(buffer, |buffer|, plan) && Restarted(plan, restarts)
    requires var prev := PrevKey(plan.pairs, |plan.pairs|);
             share <= |prev| && share <= |pair.key| && prev[..share] == pair.key[..share]
    requires restart ==> share == 0 && plan.pairs != []
    requires |pair.key| + |pair.value| < TWO32
    ensures
      var data := buffer + EntryBytes(share, pair.key[share..], pair.value);
      var longer := WithPair(plan, pair, share, |data|, restart);
      && Laid(data, |data|, longer)
      && Restarted(longer, if restart then restarts + [|buffer|] else restarts)
  {
    var e := EntryBytes(share, pair.key[share..], pair.value);
    var data := buffer + e;
    var n, longer := |plan.pairs|, WithPair(plan, pair, share, |data|, restart);
    EntryTakesThree(share, pair.key[share..], pair.value);
    hide EntryBytes;
    EntriesStay(buffer, data, plan);
    forall i | 0 <= i < n + 1 ensures EntryAt(data, longer, i) {
      if i < n {
        assert EntryAt(data, plan, i);
      } else {
        assert data[|buffer|..|data|] == e;
      }
    }
    RestartsStay(plan, restarts, pair, share, |data|, restart, |buffer|);
  }

  lemma EntryTakesThree(share: nat, rest: seq<byte>, value: seq<byte>)
    ensures |EntryBytes(share, rest, value)| >= 3
  {
  }

  lemma RestartsStay(plan: Plan, restarts: seq<nat>, pair: Pair, share: nat, end: nat, restart: bool, at: nat)
    requires Sized(plan) && Restarted(plan, restarts) && plan.offs[|plan.pairs|] == at
    requires restart ==> share == 0 && plan.pairs != []
    requires plan.pairs == [] ==> share == 0
    ensures Restarted(WithPair(plan, pair, share, end, restart), if restart then restarts + [at] else restarts)
  {
    var longer, rs := WithPair(plan, pair, share, end, restart), if restart then restarts + [at] else restarts;
    forall j | 0 <= j < |rs| ensures RestartAt(longer, rs, j) {
      if j < |restarts| {
        assert RestartAt(plan, restarts, j);
      }
    }
    forall i, j | 0 <= i < j < |rs| ensures longer.starts[i] < longer.starts[j] {
      assert RestartAt(plan, restarts, i);
    }
  }

  // ---------------------------------------------------------------------------
  // The iterator
  // ---------------------------------------------------------------------------

  /** Keys are compared through the comparator, a total order; rank represents it. */
  ghost predicate Ascending(rank: seq<byte> -> real, pairs: seq<Pair>) {
    forall i, j :: 0 <= i < j < |pairs| ==> rank(pairs[i].key) < rank(pairs[j].key)
  }

  lemma RestartWord(contents: seq<byte>, plan: Plan, limit: nat, restarts: seq<nat>, j: nat)
    requires IsBlock(contents, plan, limit, restarts) && j <= |restarts|
    ensures
      DecodeFixed32(contents[limit + 4 * j..limit + 4 * j + 4]) == if j < |restarts| then restarts[j] else |restarts|
  {
    hide EncodeFixed32, DecodeFixed32, Laid, Restarted;
    var tail, words := contents[limit..], Fixed32s(restarts);
    assert contents[limit + 4 * j..limit + 4 * j + 4] == tail[4 * j..4 * j + 4];
    if j < |restarts| {
      Fixed32At(restarts, j);
      assert tail[4 * j..4 * j + 4] == words[4 * j..4 * j + 4];
      FixedRoundTrip(restarts[j]);
    } else {
      assert tail[4 * j..4 * j + 4] == EncodeFixed32(|restarts|);
      FixedRoundTrip(|restarts|);
    }
  }

  class BlockIter {
    const rank: seq<byte> -> real
    const data: seq<byte>
    /** Where the restart array starts, and how long it is. */
    const restartOffset: nat
    const numRestarts: nat
    ghost const plan: Plan
    ghost const restarts: seq<nat>

    var current: nat
    var restartIndex: nat
    var key: seq<byte>
    /** The value is a slice of the data. */
    var valueStart: nat
    var valueEnd: nat
    /** The index of the current pair; their number means not valid. */
    ghost var at: nat

    ghost predicate Block() {
      IsBlock(data, plan, restartOffset, restarts) && numRestarts == |restarts| && Ascending(rank, plan.pairs)
    }

    ghost predicate Valid()
      reads this
    {
      && Block() && at <= |plan.pairs| && current == plan.offs[at]
      && (at < |plan.pairs| ==>
           && key == plan.pairs[at].key && valueEnd == plan.offs[at + 1]
           && valueStart <= valueEnd <= |data| && data[valueStart..valueEnd] == plan.pairs[at].value
           && restartIndex < numRestarts && restarts[restartIndex] <= current)
    }

    /** The next call of ParseNextKey parses entry i. */
    ghost predicate Before(i: nat)
      reads this
    {
      && Block() && i <= |plan.pairs| && valueEnd == plan.offs[i]
      && restartIndex < numRestarts && restarts[restartIndex] <= plan.offs[i]
      && (i < |plan.pairs| ==>
           plan.shares[i] <= |key| && plan.shares[i] <= |plan.pairs[i].key| && key[..plan.shares[i]] == plan.pairs[i].key[..plan.shares[i]])
    }

    constructor (rank: seq<byte> -> real, contents: seq<byte>, ghost plan: Plan, ghost limit: nat, ghost restarts: seq<nat>)
      requires IsBlock(contents, plan, limit, restarts) && Ascending(rank, plan.pairs)
      ensures Valid() && this.plan == plan && this.rank == rank && at == |plan.pairs|
    {
      RestartWord(contents, plan, limit, restarts, |restarts|);
      var n := DecodeFixed32(contents[|contents| - 4..|contents|]);
      this.rank, data, this.plan, this.restarts := rank, contents, plan, restarts;
      numRestarts := n;
      restartOffset := |contents| - (1 + n as nat) * 4;
      current, restartIndex := |contents| - (1 + n as nat) * 4, n;
      key, valueStart, valueEnd := [], 0, 0;
      at := |plan.pairs|;
    }

    method GetRestartPoint(j: nat) returns (p: nat)
      requires Block() && j < numRestarts
      ensures p == restarts[j]
    {
      RestartWord(data, plan, restartOffset, restarts, j);
      p := DecodeFixed32(data[restartOffset + 4 * j..restartOffset + 4 * j + 4]);
    }

    method SeekToRestartPoint(j: nat)
      requires Block() && j < numRestarts
      modifies this
      ensures Before(plan.starts[j]) && restartIndex == j && at == old(at)
    {
      assert RestartAt(plan, restarts, j);
      key := [];
      restartIndex := j;
      valueStart := GetRestartPoint(j);
      valueEnd := valueStart;
    }

    /** Parses the entry behind the current value; false at the end of the entries. */
    method ParseNextKey(ghost i: nat) returns (ok: bool)
      requires Before(i)
      modifies this
      ensures Valid() && at == i && (ok <==> i < |plan.pairs|)
      ensures ok ==> restartIndex < numRestarts
    {
      hide EntryBytes, LengthBytes, ReadLengths, DecodeEntry;
      current := valueEnd;
      at := i;
      if current >= restartOffset {
        EndIsLast(i);
        current := restartOffset;
        restartIndex := numRestarts;
        return false;
      }
      EntryHere(i);
      var e := DecodeEntry(data, current, restartOffset);
      if e.None? || |key| < e.value.shared {
        assert false;  // CorruptionError: not in a block that the builder made
      }
      var p := current + e.value.size;
      key := key[..e.value.shared] + data[p..p + e.value.nonShared];
      valueStart := p + e.value.nonShared;
      valueEnd := valueStart + e.value.valueLength;
      KeyInTwo(plan.pairs[i].key, plan.shares[i]);
      ok := true;
      AdvanceRestart();
    }

    /** Keeps the restart index at a restart point at or before the current entry. */
    method AdvanceRestart()
      requires Valid() && at < |plan.pairs|
      modifies this`restartIndex
      ensures Valid()
    {
      while restartIndex + 1 < numRestarts
        invariant Valid() && at < |plan.pairs|
        decreases numRestarts - restartIndex
      {
        var p := GetRestartPoint(restartIndex + 1);
        if p >= current {
          return;
        }
        restartIndex := restartIndex + 1;
      }
    }

    static lemma KeyInTwo(k: seq<byte>, n: nat)
      requires n <= |k|
      ensures k[..n] + k[n..] == k
    {
    }

    lemma EndIsLast(i: nat)
      requires Block() && i <= |plan.pairs| && plan.offs[i] >= restartOffset
      ensures i == |plan.pairs|
    {
      if i < |plan.pairs| { OffsetsGrow(data, restartOffset, plan, i, |plan.pairs|); }
    }

    lemma EntryHere(i: nat)
      requires Block() && i < |plan.pairs|
      ensures plan.offs[i] <= plan.offs[i + 1] <= restartOffset && plan.shares[i] <= |plan.pairs[i].key|
      ensures
        var d, share, rest, value := DecodeEntry(data, plan.offs[i], restartOffset), plan.shares[i], plan.pairs[i].key[plan.shares[i]..], plan.pairs[i].value;
        && d.Some? && d.value.shared == share && d.value.nonShared == |rest| && d.value.valueLength == |value|
        && var p := plan.offs[i] + d.value.size;
           p + |rest| + |value| == plan.offs[i + 1] && data[p..p + |rest|] == rest && data[p + |rest|..plan.offs[i + 1]] == value
    {
      hide EntryBytes, LengthBytes, DecodeEntry, ReadLengths;
      assert EntryAt(data, plan, i);
      if i + 1 < |plan.pairs| { OffsetsGrow(data, restartOffset, plan, i + 1, |plan.pairs|); }
      EntryDecodes(data, plan.offs[i], plan.offs[i + 1], restartOffset, plan.shares[i], plan.pairs[i].key[plan.shares[i]..], plan.pairs[i].value);
    }

    /** After a pair the next one can be parsed. */
    lemma AfterPair()
      requires Valid() && at < |plan.pairs|
      ensures Before(at + 1)
    {
      OffsetsGrow(data, restartOffset, plan, at, at + 1);
      if at + 1 < |plan.pairs| { assert EntryAt(data, plan, at + 1); }
    }

    method Next()
      requires Valid() && at < |plan.pairs|
      modifies this
      ensures Valid() && at == old(at) + 1
    {
      AfterPair();
      var _ := ParseNextKey(at + 1);
    }

    method SeekToFirst()
      requires Valid()
      modifies this
      ensures Valid() && at == 0
    {
      SeekToRestartPoint(0);
      var _ := ParseNextKey(0);
    }

    /** Parses on while the entry after the current one starts before the given offset. */
    method ParseUntil(end: nat, ghost i: nat, ghost last: nat)
      requires Before(i) && i <= last < |plan.pairs| && end == plan.offs[last + 1]
      modifies this
      ensures Valid() && at == last
    {
      ghost var n := i;
      while true
        invariant Before(n) && i <= n <= last
        decreases last - n
      {
        var ok := ParseNextKey(n);
        if n < last {
          OffsetsGrow(data, restartOffset, plan, n + 1, last + 1);
          AfterPair();
        }
        if !ok || valueEnd >= end {
          return;
        }
        n := n + 1;
      }
    }

    method SeekToLast()
      requires Valid()
      modifies this
      ensures Valid() && at == if |plan.pairs| == 0 then 0 else |plan.pairs| - 1
    {
      SeekToRestartPoint(numRestarts - 1);
      assert RestartAt(plan, restarts, numRestarts - 1);
      if valueEnd >= restartOffset {
        EndIsLast(plan.starts[numRestarts - 1]);
        var _ := ParseNextKey(plan.starts[numRestarts - 1]);
      } else {
        ParseUntil(restartOffset, plan.starts[numRestarts - 1], |plan.pairs| - 1);
      }
    }

    /** Back to a restart point before the current entry, then forward to the entry before it. */
    method Prev()
      requires Valid() && at < |plan.pairs|
      modifies this
      ensures Valid() && at == if old(at) == 0 then |plan.pairs| else old(at) - 1
    {
      var original := current;
      var p := GetRestartPoint(restartIndex);
      while p >= original
        invariant restartIndex < numRestarts && p == restarts[restartIndex] && at == old(at) && current == original && Block()
        decreases restartIndex
      {
        if restartIndex == 0 {
          if at > 0 { OffsetsGrow(data, restartOffset, plan, 0, at); }
          assert RestartAt(plan, restarts, 0);
          current := restartOffset;
          restartIndex := numRestarts;
          at := |plan.pairs|;
          return;
        }
        restartIndex := restartIndex - 1;
        p := GetRestartPoint(restartIndex);
      }
      assert RestartAt(plan, restarts, restartIndex);
      if at < plan.starts[restartIndex] { OffsetsGrow(data, restartOffset, plan, at, plan.starts[restartIndex]); }
      ghost var from := plan.starts[restartIndex];
      SeekToRestartPoint(restartIndex);
      ParseUntil(original, from, at - 1);
    }

    /** Binary search for the last restart point with a key before the target, or the first one. */
    method FindRestart(target: seq<byte>) returns (left: nat)
      requires Block()
      ensures left < numRestarts && forall i :: 0 <= i < plan.starts[left] && i < |plan.pairs| ==> rank(plan.pairs[i].key) < rank(target)
    {
      hide IsBlock, EntryBytes, LengthBytes, ReadLengths, DecodeEntry;
      RestartFacts();
      left := 0;
      var right := numRestarts - 1;
      while left < right
        invariant 0 <= left <= right < numRestarts
        invariant forall i :: 0 <= i < plan.starts[left] && i < |plan.pairs| ==> rank(plan.pairs[i].key) < rank(target)
        decreases right - left
      {
        var mid := (left + right + 1) / 2;
        var regionOffset := GetRestartPoint(mid);
        RestartEntry(mid);
        var e := DecodeEntry(data, regionOffset, restartOffset);
        if e.None? || e.value.shared != 0 {
          assert false;  // CorruptionError
        }
        var p := regionOffset + e.value.size;
        var midKey := data[p..p + e.value.nonShared];
        if rank(midKey) < rank(target) {
          left := mid;
        } else {
          right := mid - 1;
        }
      }
    }

    lemma RestartFacts()
      requires Block()
      ensures Sized(plan) && |plan.starts| == numRestarts > 0 && plan.starts[0] == 0 && restartOffset <= |data|
      ensures |restarts| == numRestarts
    {
    }

    /** The entry at a restart point after the first has its whole key. */
    lemma RestartEntry(j: nat)
      requires Block() && 0 < j < numRestarts
      ensures plan.starts[j] < |plan.pairs| && restarts[j] <= restartOffset <= |data|
      ensures
        var d, k := DecodeEntry(data, restarts[j], restartOffset), plan.pairs[plan.starts[j]].key;
        && d.Some? && d.value.shared == 0
        && var p := restarts[j] + d.value.size;
           p + d.value.nonShared <= |data| && data[p..p + d.value.nonShared] == k
    {
      assert RestartAt(plan, restarts, j) && RestartAt(plan, restarts, 0);
      assert plan.starts[0] < plan.starts[j];
      EntryHere(plan.starts[j]);
    }

    /** Binary search over the restart points, then a linear search. */
    method Seek(target: seq<byte>)
      requires Valid()
      modifies this
      ensures Valid()
      ensures forall i :: 0 <= i < at ==> rank(plan.pairs[i].key) < rank(target)
      ensures at < |plan.pairs| ==> rank(plan.pairs[at].key) >= rank(target)
    {
      var left := FindRestart(target);
      assert RestartAt(plan, restarts, left);
      ghost var n := plan.starts[left];
      SeekToRestartPoint(left);
      while true
        invariant Before(n)
        invariant forall i :: 0 <= i < n ==> rank(plan.pairs[i].key) < rank(target)
        decreases |plan.pairs| - n
      {
        var ok := ParseNextKey(n);
        if !ok || rank(key) >= rank(target) {
          return;
        }
        AfterPair();
        n := n + 1;
      }
    }
  }

  /** Reading the entries of a block in order gives back the pairs it was built from. */
  method ReadAll(iter: BlockIter) returns (pairs: seq<Pair>)
    requires iter.Valid()
    modifies iter
    ensures pairs == iter.plan.pairs
  {
    pairs := [];
    iter.SeekToFirst();
    while iter.current < iter.restartOffset
      invariant iter.Valid() && pairs == iter.plan.pairs[..iter.at]
      decreases |iter.plan.pairs| - iter.at
    {
      pairs := pairs + [Pair(iter.key, iter.data[iter.valueStart..iter.valueEnd])];
      iter.Next();
    }
    iter.EndIsLast(iter.at);
  }
}
