/**
 Tables down to the bytes: blocks hold encoded internal keys, the index block leads
 to a data block, and a lookup through both iterators, with or without a filter,
 answers what a search of the whole table answers.
 */
module TableBlocks {
  import opened Basics
  import opened Coding
  import opened Keys
  import opened Bytewise
  import opened Versions
  import opened Tables
  import TwoLevels
  import B = Blocks

  // ---------------------------------------------------------------------------
  // Encoded internal keys, and their order
  // ---------------------------------------------------------------------------

  /** AppendInternalKey: the user key, then the tag. */
  function EncodeKey(k: TableKey): (s: seq<byte>)
    requires k.tag < TWO64
    ensures |s| == |k.user| + 8
  {
    k.user + EncodeFixed64(k.tag)
  }

  function DecodeKey(s: seq<byte>): TableKey
    requires |s| >= 8
  {
    TableKey(s[..|s| - 8], DecodeFixed64(s[|s| - 8..]))
  }

  lemma KeyRoundTrip(k: TableKey)
    requires k.tag < TWO64
    ensures DecodeKey(EncodeKey(k)) == k
  {
    Fixed64RoundTrip(k.tag);
    assert EncodeKey(k)[..|k.user|] == k.user && EncodeKey(k)[|k.user|..] == EncodeFixed64(k.tag);
  }

  /** How far behind a string of n bytes the next ones are at least. */
  function Gap(n: nat): (g: real)
    ensures 0.0 < g <= 1.0
  {
    if n == 0 then 1.0 else Gap(n - 1) / 257.0
  }

  lemma {:induction false} RankBelow(a: seq<byte>)
    ensures Rank(a) <= 1.0 - Gap(|a|)
  {
    if a != [] { RankBelow(a[1..]); }
  }

  lemma {:induction false} RankGap(a: seq<byte>, b: seq<byte>)
    requires ByteLess(a, b)
    ensures Rank(b) >= Rank(a) + Gap(|a| + 1)
  {
    if a != [] {
      if a[0] < b[0] {
        RankBelow(a[1..]);
        assert Gap(|a|) <= Gap(|a| - 1);
      } else {
        RankGap(a[1..], b[1..]);
      }
    }
  }

  function Part(g: real, x: real): real { g * x }

  /** The internal comparator as an order on reals: between a user key and the next there is room for its tags. */
  function KeyRank(s: seq<byte>): real {
    if |s| < 8 then 0.0
    else
      var k := DecodeKey(s);
      Rank(k.user) + Part(Gap(|k.user| + 1), Share(k.tag))
  }

  /** A number between 0 and 1, smaller for larger tags. */
  function Share(tag: nat): real { if tag < TWO64 then (TWO64 - tag) as real / (2 * TWO64) as real else 0.0 }

  lemma ShareBounds(a: nat, b: nat)
    requires a < TWO64 && b < TWO64
    ensures 0.0 < Share(a) <= 0.5
    ensures a > b <==> Share(a) < Share(b)
  {
  }

  lemma Scaled(g: real, x: real, y: real)
    requires 0.0 < g && 0.0 < x <= 0.5
    ensures 0.0 < Part(g, x) < g
    ensures x < y <==> Part(g, x) < Part(g, y)
  {
  }

  lemma KeyRankOf(k: TableKey)
    requires k.tag < TWO64
    ensures KeyRank(EncodeKey(k)) == Rank(k.user) + Part(Gap(|k.user| + 1), Share(k.tag))
    ensures Rank(k.user) < KeyRank(EncodeKey(k)) < Rank(k.user) + Gap(|k.user| + 1)
  {
    KeyRoundTrip(k);
    ShareBounds(k.tag, k.tag);
    hide Share, Rank, Gap, Part, EncodeKey, DecodeKey;
    Scaled(Gap(|k.user| + 1), Share(k.tag), Share(k.tag));
  }

  lemma KeyRankEmbeds(a: TableKey, b: TableKey)
    requires a.tag < TWO64 && b.tag < TWO64
    ensures KeyRank(EncodeKey(a)) < KeyRank(EncodeKey(b)) <==> Less(Ranked(a), Ranked(b))
  {
    hide Share, Rank, Gap, Part, EncodeKey, KeyRank;
    KeyRankOf(a);
    KeyRankOf(b);
    RankEmbedsOrder(a.user, b.user);
    RankEmbedsOrder(b.user, a.user);
    if ByteLess(a.user, b.user) {
      RankGap(a.user, b.user);
    } else if ByteLess(b.user, a.user) {
      RankGap(b.user, a.user);
    } else {
      ShareBounds(b.tag, a.tag);
      ShareBounds(a.tag, b.tag);
      Scaled(Gap(|a.user| + 1), Share(a.tag), Share(b.tag));
    }
  }

  // ---------------------------------------------------------------------------
  // Blocks on disk
  // ---------------------------------------------------------------------------

  datatype Layout = Layout(plan: B.Plan, limit: nat, restarts: seq<nat>)

  ghost predicate Holds(contents: seq<byte>, layout: Layout, pairs: seq<B.Pair>) {
    B.IsBlock(contents, layout.plan, layout.limit, layout.restarts) && layout.plan.pairs == pairs
  }

  ghost predicate IsBlockOf(contents: seq<byte>, pairs: seq<B.Pair>) { exists l :: Holds(contents, l, pairs) }

  lemma LaidOut(contents: seq<byte>, layout: Layout, pairs: seq<B.Pair>)
    requires Holds(contents, layout, pairs)
    ensures IsBlockOf(contents, pairs)
  {
  }

  function ValueOf(op: Op): seq<byte> { if op.Put? then op.value else [] }

  ghost predicate Numbered(block: seq<Record>) { forall i :: 0 <= i < |block| ==> block[i].sn <= kMaxSequenceNumber }

  /** The pairs of a data block. */
  ghost function Pairs(block: seq<Record>): (r: seq<B.Pair>)
    requires Numbered(block)
    ensures |r| == |block|
    ensures forall i :: 0 <= i < |r| ==> KeyOf(block[i]).tag < TWO64 && r[i] == B.Pair(EncodeKey(KeyOf(block[i])), ValueOf(block[i].op))
  {
    seq(|block|, i requires 0 <= i < |block| => B.Pair(EncodeKey(KeyOf(block[i])), ValueOf(block[i].op)))
  }

  /** The pairs of the index block: keys, and handles that lead to the blocks. */
  ghost function IndexPairs(index: seq<TableKey>, handles: seq<seq<byte>>): (r: seq<B.Pair>)
    requires |handles| == |index| && forall b :: 0 <= b < |index| ==> index[b].tag < TWO64
    ensures |r| == |index| && forall b :: 0 <= b < |r| ==> r[b] == B.Pair(EncodeKey(index[b]), handles[b])
  {
    seq(|index|, b requires 0 <= b < |index| => B.Pair(EncodeKey(index[b]), handles[b]))
  }

  /** The record that a pair holds. */
  function RecordOf(key: seq<byte>, value: seq<byte>): Record
    requires |key| >= 8
  {
    var k := DecodeKey(key);
    Record(k.user, k.tag / 256, if k.tag % 256 == 1 then Put(value) else Delete)
  }

  lemma RecordRoundTrip(r: Record)
    requires r.sn <= kMaxSequenceNumber
    ensures KeyOf(r).tag < TWO64 && RecordOf(EncodeKey(KeyOf(r)), ValueOf(r.op)) == r
  {
    KeyRoundTrip(KeyOf(r));
    hide EncodeKey, DecodeKey;
  }

  lemma BlockAscends(block: seq<Record>)
    requires Numbered(block) && Ascending(block)
    ensures B.Ascending(KeyRank, Pairs(block))
  {
    var pairs := Pairs(block);
    hide KeyRank, Ranked, KeyOf;
    forall i, j | 0 <= i < j < |block| ensures KeyRank(Pairs(block)[i].key) < KeyRank(Pairs(block)[j].key) {
      KeyRankEmbeds(KeyOf(block[i]), KeyOf(block[j]));
    }
  }

  lemma IndexAscends(index: seq<TableKey>, handles: seq<seq<byte>>)
    requires |handles| == |index| && forall b :: 0 <= b < |index| ==> index[b].tag < TWO64
    requires forall b, c :: 0 <= b < c < |index| ==> Less(Ranked(index[b]), Ranked(index[c]))
    ensures B.Ascending(KeyRank, IndexPairs(index, handles))
  {
    hide KeyRank, Ranked;
    forall b, c | 0 <= b < c < |index| ensures KeyRank(IndexPairs(index, handles)[b].key) < KeyRank(IndexPairs(index, handles)[c].key) {
      KeyRankEmbeds(index[b], index[c]);
    }
  }

  /** Restart points are entries, so there are no more of them than entries and one. */
  lemma {:induction false} Spread(starts: seq<nat>, n: nat)
    requires (forall i, j :: 0 <= i < j < |starts| ==> starts[i] < starts[j]) && forall i :: 0 <= i < |starts| ==> starts[i] <= n
    ensures |starts| <= n + 1
  {
    if |starts| > 1 {
      assert starts[0] < starts[1];
      forall i | 0 <= i < |starts| - 1 ensures starts[i] <= n - 1 {
        assert starts[i] < starts[|starts| - 1];
      }
      Spread(starts[..|starts| - 1], n - 1);
    }
  }

  /** BlockBuilder over the records of a block: what it finishes holds their pairs. */
  method WriteBlock(block: seq<Record>, restartInterval: nat) returns (contents: seq<byte>, ghost layout: Layout)
    requires restartInterval >= 1 && Numbered(block) && |block| + 1 < TWO32
    requires forall i :: 0 <= i < |block| ==> |block[i].user| + 8 + |ValueOf(block[i].op)| < TWO32
    ensures |contents| < TWO32 ==> Holds(contents, layout, Pairs(block))
    ensures |contents| < TWO32 ==> IsBlockOf(contents, Pairs(block))
  {
    var builder := new B.BlockBuilder(restartInterval);
    for i := 0 to |block|
      invariant builder.Valid() && builder.plan.pairs == Pairs(block)[..i]
    {
      builder.Add(EncodeKey(KeyOf(block[i])), ValueOf(block[i].op));
      assert Pairs(block)[..i + 1] == Pairs(block)[..i] + [Pairs(block)[i]];
    }
    assert Pairs(block)[..|block|] == Pairs(block);
    contents := builder.Finish();
    layout := Layout(builder.plan, |builder.buffer|, builder.restarts);
    RestartsFew(builder.plan, builder.restarts);
    hide B.IsBlock, IsBlockOf;
    if |contents| < TWO32 { LaidOut(contents, layout, Pairs(block)); }
  }

  lemma RestartsFew(plan: B.Plan, restarts: seq<nat>)
    requires B.Sized(plan) && B.Restarted(plan, restarts)
    ensures |restarts| <= |plan.pairs| + 1
  {
    forall j | 0 <= j < |restarts| ensures plan.starts[j] <= |plan.pairs| { assert B.RestartAt(plan, restarts, j); }
    Spread(plan.starts, |plan.pairs|);
  }

  // ---------------------------------------------------------------------------
  // Looking up
  // ---------------------------------------------------------------------------

  /** Where a seek ends: the first pair at or after the target. */
  ghost predicate Lands(pairs: seq<B.Pair>, target: seq<byte>, at: nat) {
    && at <= |pairs|
    && (forall i :: 0 <= i < at ==> KeyRank(pairs[i].key) < KeyRank(target))
    && (at < |pairs| ==> KeyRank(pairs[at].key) >= KeyRank(target))
  }

  /** A block's iterator is made, sought and looked at once. */
  method SeekOnce(contents: seq<byte>, ghost layout: Layout, ghost pairs: seq<B.Pair>, target: seq<byte>)
    returns (r: Option<B.Pair>, ghost at: nat)
    requires Holds(contents, layout, pairs) && B.Ascending(KeyRank, pairs)
    ensures Lands(pairs, target, at) && r == if at < |pairs| then Some(pairs[at]) else None
    ensures r.None? <==> forall i :: 0 <= i < |pairs| ==> KeyRank(pairs[i].key) < KeyRank(target)
    ensures r.Some? ==> r.value in pairs && KeyRank(r.value.key) >= KeyRank(target)
  {
    hide KeyRank;
    var iter := new B.BlockIter(KeyRank, contents, layout.plan, layout.limit, layout.restarts);
    iter.Seek(target);
    at := iter.at;
    r := None;
    if iter.current < iter.restartOffset {
      r := Some(B.Pair(iter.key, iter.data[iter.valueStart..iter.valueEnd]));
    } else {
      iter.EndIsLast(at);
    }
  }

  function Target(k: seq<byte>, s: nat): TableKey { TableKey(k, PackSequenceAndType(s, 1)) }

  lemma LandsInBlock(block: seq<Record>, k: seq<byte>, s: nat, at: nat)
    requires Numbered(block) && s <= kMaxSequenceNumber && Target(k, s).tag < TWO64 && Lands(Pairs(block), EncodeKey(Target(k, s)), at)
    requires Ascending(block)
    ensures at == LowerBound(Entries(block), SeekKey(Rank(k), s))
  {
    hide KeyRank, Rank, EncodeKey;
    var pairs, i := Pairs(block), LowerBound(Entries(block), SeekKey(Rank(k), s));
    if i < at {
      KeyRankEmbeds(KeyOf(block[i]), Target(k, s));
    }
    if at < i {
      KeyRankEmbeds(KeyOf(block[at]), Target(k, s));
    }
  }

  lemma LandsInIndex(index: seq<TableKey>, handles: seq<seq<byte>>, k: seq<byte>, s: nat, at: nat)
    requires |handles| == |index| && forall b :: 0 <= b < |index| ==> index[b].tag < TWO64
    requires s <= kMaxSequenceNumber && Target(k, s).tag < TWO64 && Lands(IndexPairs(index, handles), EncodeKey(Target(k, s)), at)
    ensures at == TwoLevels.IndexBound(RankedKeys(index), SeekKey(Rank(k), s))
  {
    hide KeyRank, Rank, EncodeKey;
    var pairs, b := IndexPairs(index, handles), TwoLevels.IndexBound(RankedKeys(index), SeekKey(Rank(k), s));
    if b < at {
      KeyRankEmbeds(index[b], Target(k, s));
    }
    if at < b {
      KeyRankEmbeds(index[at], Target(k, s));
    }
  }

  /** A table as its reader finds it: the index block's contents, and the data blocks' contents by their handles. */
  ghost predicate OnDisk(index: seq<byte>, reader: map<seq<byte>, seq<byte>>, blocks: seq<seq<Record>>, keys: seq<TableKey>,
                         handles: seq<seq<byte>>, indexLayout: Layout, layouts: seq<Layout>)
  {
    && Complete(blocks, keys) && |handles| == |layouts| == |keys|
    && (forall b :: 0 <= b < |keys| ==> keys[b].tag < TWO64)
    && Holds(index, indexLayout, IndexPairs(keys, handles))
    && forall b :: 0 <= b < |blocks| ==>
         Numbered(blocks[b]) && handles[b] in reader && Holds(reader[handles[b]], layouts[b], Pairs(blocks[b]))
  }

  /** The filter of a block may say no only to user keys that the block does not have. */
  ghost predicate NoFalseNegatives(mayMatch: (seq<byte>, seq<byte>) -> bool, blocks: seq<seq<Record>>, handles: seq<seq<byte>>) {
    |handles| == |blocks| && forall b, i :: 0 <= b < |blocks| && 0 <= i < |blocks[b]| ==> mayMatch(handles[b], blocks[b][i].user)
  }

  lemma TableAscends(blocks: seq<seq<Record>>, keys: seq<TableKey>)
    requires Complete(blocks, keys)
    ensures forall b, c :: 0 <= b < c < |keys| ==> Less(Ranked(keys[b]), Ranked(keys[c]))
    ensures forall b :: 0 <= b < |blocks| ==> Ascending(blocks[b])
  {
    forall b, c | 0 <= b < c < |keys| ensures Less(Ranked(keys[b]), Ranked(keys[c])) {
      IndexBeforeNext(blocks, keys, b, c, 0);
      IndexAfterBlock(blocks, keys, c, 0);
    }
    forall b | 0 <= b < |blocks| ensures Ascending(blocks[b]) {
      forall i, j | 0 <= i < j < |blocks[b]| ensures Less(Ranked(KeyOf(blocks[b][i])), Ranked(KeyOf(blocks[b][j]))) {
        RecordsInOrder(blocks, b, i, b, j);
      }
    }
  }

  /** SaveValue over what the block's iterator gives. */
  function Saved(record: Option<Record>, k: seq<byte>): Answer {
    if record.Some? && record.value.user == k then
      match record.value.op { case Put(v) => Found(v) case Delete => Deleted }
    else NotFound
  }

  lemma SavedIsRunGet(block: seq<Record>, k: seq<byte>, s: nat, at: nat)
    requires at == LowerBound(Entries(block), SeekKey(Rank(k), s))
    ensures Saved(if at < |block| then Some(block[at]) else None, k) == RunGet(Entries(block), Rank(k), s)
  {
    hide Rank;
    if at < |block| { RankEmbedsOrder(block[at].user, k); }
  }

  lemma NotInBlock(block: seq<Record>, k: seq<byte>, s: nat)
    requires forall i :: 0 <= i < |block| ==> block[i].user != k
    ensures RunGet(Entries(block), Rank(k), s) == NotFound
  {
    hide Rank;
    var i := LowerBound(Entries(block), SeekKey(Rank(k), s));
    if i < |block| { RankEmbedsOrder(block[i].user, k); }
  }

  /** Table::InternalGet from the index block's bytes through the filter to the data block's bytes: the answer is
      that of a search of the whole table. */
  method InternalGet(index: seq<byte>, reader: map<seq<byte>, seq<byte>>, mayMatch: (seq<byte>, seq<byte>) -> bool, k: seq<byte>, s: nat,
                     ghost blocks: seq<seq<Record>>, ghost keys: seq<TableKey>, ghost handles: seq<seq<byte>>,
                     ghost indexLayout: Layout, ghost layouts: seq<Layout>)
    returns (a: Answer)
    requires OnDisk(index, reader, blocks, keys, handles, indexLayout, layouts) && NoFalseNegatives(mayMatch, blocks, handles)
    requires s <= kMaxSequenceNumber
    ensures a == RunGet(TwoLevels.Concat(EntryBlocks(blocks)), Rank(k), s)
  {
    TableGetIsRunGet(blocks, keys, Rank(k), s);
    TableAscends(blocks, keys);
    IndexAscends(keys, handles);
    var target := EncodeKey(Target(k, s));
    var entry, b := SeekOnce(index, indexLayout, IndexPairs(keys, handles), target);
    LandsInIndex(keys, handles, k, s, b);
    if entry.None? {
      return NotFound;
    }
    if !mayMatch(entry.value.value, k) {
      NotInBlock(blocks[b], k, s);
      return NotFound;
    }
    BlockAscends(blocks[b]);
    var pair, i := SeekOnce(reader[entry.value.value], layouts[b], Pairs(blocks[b]), target);
    LandsInBlock(blocks[b], k, s, i);
    SavedIsRunGet(blocks[b], k, s, i);
    var record := None;
    if pair.Some? {
      RecordRoundTrip(blocks[b][i]);
      record := Some(RecordOf(pair.value.key, pair.value.value));
    }
    a := Saved(record, k);
  }
}
