/**
 Tables: blocks of entries and an index of shortened keys between them, and why
 a lookup in the one block that the index names is enough.
 */
module Tables {
  import opened Basics
  import opened Keys
  import opened Bytewise
  import opened Versions
  import opened TwoLevels

  // ---------------------------------------------------------------------------
  // Shortening byte strings
  // ---------------------------------------------------------------------------

  lemma {:induction false} FirstDifference(a: seq<byte>, b: seq<byte>, i: nat)
    requires i < |a| && i < |b| && a[..i] == b[..i] && a[i] < b[i]
    ensures ByteLess(a, b) && !ByteLess(b, a)
  {
    if i > 0 {
      assert a[0] == a[..i][0] == b[..i][0] == b[0];
      assert a[1..][..i - 1] == a[..i][1..] == b[..i][1..] == b[1..][..i - 1];
      FirstDifference(a[1..], b[1..], i - 1);
    }
  }

  lemma {:induction false} NotLessItself(a: seq<byte>)
    ensures !ByteLess(a, a)
  {
    if a != [] { NotLessItself(a[1..]); }
  }

  /** The bytewise comparator's separator: the start or something longer-lived but shorter, before the limit. */
  method FindShortestSeparator(start: seq<byte>, limit: seq<byte>) returns (r: seq<byte>)
    ensures r == start || (ByteLess(start, r) && ByteLess(r, limit) && |r| <= |start|)
  {
    var minLength := if |start| < |limit| then |start| else |limit|;
    var diffIndex := 0;
    while diffIndex < minLength && start[diffIndex] == limit[diffIndex]
      invariant diffIndex <= minLength && start[..diffIndex] == limit[..diffIndex]
    {
      diffIndex := diffIndex + 1;
    }
    r := start;
    if diffIndex < minLength {
      var diffByte := start[diffIndex];
      if diffByte < 0xff && diffByte as int + 1 < limit[diffIndex] as int {
        r := start[..diffIndex] + [diffByte + 1];
        assert r[..diffIndex] == start[..diffIndex];
        FirstDifference(start, r, diffIndex);
        FirstDifference(r, limit, diffIndex);
      }
    }
  }

  /** The bytewise comparator's successor: at or after the key, and no longer. */
  method FindShortSuccessor(key: seq<byte>) returns (r: seq<byte>)
    ensures r == key || (ByteLess(key, r) && |r| <= |key|)
  {
    for i := 0 to |key| {
      if key[i] != 0xff {
        r := key[..i] + [key[i] + 1];
        assert r[..i] == key[..i];
        FirstDifference(key, r, i);
        return;
      }
    }
    r := key;
  }

  // ---------------------------------------------------------------------------
  // Internal keys of byte strings
  // ---------------------------------------------------------------------------

  /** An internal key with its user key as bytes. */
  datatype TableKey = TableKey(user: seq<byte>, tag: nat)

  function Ranked(k: TableKey): InternalKey { InternalKey(Rank(k.user), k.tag) }

  datatype Record = Record(user: seq<byte>, sn: nat, op: Op)

  function KeyOf(r: Record): TableKey { TableKey(r.user, PackSequenceAndType(r.sn, TypeCode(r.op))) }

  function EntryOfRecord(r: Record): Entry { Entry(Rank(r.user), r.sn, r.op) }

  /** What the index may hold for a block: the block's last key, or a shorter key that is strictly after it and
      strictly before the user key that follows. */
  ghost predicate Separator(last: TableKey, sep: TableKey, next: TableKey) {
    sep == last || (Rank(last.user) < Rank(sep.user) && Rank(sep.user) < Rank(next.user))
  }

  method SeparatorOf(last: TableKey, next: TableKey) returns (sep: TableKey)
    requires Less(Ranked(last), Ranked(next))
    ensures Separator(last, sep, next)
  {
    var tmp := FindShortestSeparator(last.user, next.user);
    sep := last;
    if |tmp| < |last.user| && ByteLess(last.user, tmp) {
      sep := TableKey(tmp, PackSequenceAndType(kMaxSequenceNumber, 1));
      RankEmbedsOrder(last.user, tmp);
      RankEmbedsOrder(tmp, next.user);
    }
  }

  method SuccessorOf(last: TableKey) returns (sep: TableKey)
    ensures sep == last || Rank(last.user) < Rank(sep.user)
  {
    var tmp := FindShortSuccessor(last.user);
    sep := last;
    if |tmp| < |last.user| && ByteLess(last.user, tmp) {
      sep := TableKey(tmp, PackSequenceAndType(kMaxSequenceNumber, 1));
      RankEmbedsOrder(last.user, tmp);
    }
  }

  // ---------------------------------------------------------------------------
  // Building a table
  // ---------------------------------------------------------------------------

  ghost predicate Ascending(rs: seq<Record>) {
    forall i, j :: 0 <= i < j < |rs| ==> Less(Ranked(KeyOf(rs[i])), Ranked(KeyOf(rs[j])))
  }

  function Entries(block: seq<Record>): (es: seq<Entry>)
    ensures |es| == |block| && forall i :: 0 <= i < |es| ==> es[i] == EntryOfRecord(block[i])
  {
    seq(|block|, i requires 0 <= i < |block| => EntryOfRecord(block[i]))
  }

  /** The records of the blocks, in order. */
  function Flat(blocks: seq<seq<Record>>): seq<Record> {
    if blocks == [] then [] else Flat(blocks[..|blocks| - 1]) + blocks[|blocks| - 1]
  }

  function LastKey(block: seq<Record>): TableKey
    requires block != []
  {
    KeyOf(block[|block| - 1])
  }

  /** The index entry of block b, given the block after it. */
  ghost predicate SeparatesAt(blocks: seq<seq<Record>>, index: seq<TableKey>, b: nat)
    requires b < |index| && b + 1 < |blocks| && blocks[b] != [] && blocks[b + 1] != []
  {
    Separator(LastKey(blocks[b]), index[b], KeyOf(blocks[b + 1][0]))
  }

  /** Non-empty ascending blocks, and index entries that separate each from the next. */
  ghost predicate Indexed(blocks: seq<seq<Record>>, index: seq<TableKey>) {
    && (forall b :: 0 <= b < |blocks| ==> blocks[b] != [])
    && Ascending(Flat(blocks))
    && forall b :: 0 <= b < |index| && b + 1 < |blocks| ==> SeparatesAt(blocks, index, b)
  }

  /** A finished table: the entry of the last block is at or after its last key. */
  ghost predicate Complete(blocks: seq<seq<Record>>, index: seq<TableKey>) {
    && Indexed(blocks, index) && |index| == |blocks|
    && (blocks != [] ==> var last, sep := LastKey(blocks[|blocks| - 1]), index[|index| - 1]; sep == last || Rank(last.user) < Rank(sep.user))
  }

  function WithData(blocks: seq<seq<Record>>, dataBlock: seq<Record>): (all: seq<seq<Record>>) {
    if dataBlock == [] then blocks else blocks + [dataBlock]
  }

  class TableBuilder {
    var blocks: seq<seq<Record>>
    var dataBlock: seq<Record>
    var index: seq<TableKey>
    var pendingIndexEntry: bool
    var lastKey: TableKey
    ghost var added: seq<Record>

    /** The entry of a full block waits for the first key after it. */
    ghost predicate Valid()
      reads this
    {
      var all := WithData(blocks, dataBlock);
      && Indexed(all, index) && added == Flat(all)
      && (added != [] ==> lastKey == KeyOf(added[|added| - 1]))
      && |blocks| == (if pendingIndexEntry then |index| + 1 else |index|)
      && (pendingIndexEntry ==> dataBlock == [])
      && (!pendingIndexEntry && blocks != [] ==> dataBlock != [])
    }

    constructor ()
      ensures Valid() && added == []
    {
      blocks, dataBlock, index, pendingIndexEntry, added := [], [], [], false, [];
      lastKey := TableKey([], 0);
    }

    /** full stands for the comparison of the block's size with the configured one. */
    method Add(r: Record, full: bool)
      requires Valid() && (added != [] ==> Less(Ranked(lastKey), Ranked(KeyOf(r))))
      modifies this
      ensures Valid() && added == old(added) + [r] && lastKey == KeyOf(r)
    {
      hide Separator, Ascending, Ranked, Less, KeyOf, LastKey, Flat;
      LastOfFlat(WithData(blocks, dataBlock));
      if pendingIndexEntry {
        var sep := SeparatorOf(lastKey, KeyOf(r));
        index := index + [sep];
        pendingIndexEntry := false;
      }
      AddedRecord(blocks, dataBlock, index, r);
      dataBlock := dataBlock + [r];
      lastKey := KeyOf(r);
      added := added + [r];
      if full {
        Flush();
      }
    }

    method Flush()
      requires Valid()
      modifies this`blocks, this`dataBlock, this`pendingIndexEntry
      ensures Valid() && dataBlock == [] && pendingIndexEntry == (blocks != [])
    {
      if dataBlock == [] {
        return;
      }
      blocks, dataBlock, pendingIndexEntry := blocks + [dataBlock], [], true;
    }

    /** The blocks and the index of the file. */
    method Finish()
      requires Valid()
      modifies this
      ensures Complete(blocks, index) && Flat(blocks) == old(added)
    {
      hide Ascending, Ranked, Flat, KeyOf, Separator;
      Flush();
      LastOfFlat(blocks);
      if pendingIndexEntry {
        var sep := SuccessorOf(lastKey);
        ghost var shorter := index;
        index := index + [sep];
        pendingIndexEntry := false;
        forall b | 0 <= b < |index| && b + 1 < |blocks| ensures SeparatesAt(blocks, index, b) {
          assert SeparatesAt(blocks, shorter, b);
        }
      }
    }
  }

  lemma LastOfFlat(blocks: seq<seq<Record>>)
    requires blocks != [] ==> blocks[|blocks| - 1] != []
    ensures blocks != [] ==> Flat(blocks) != [] && KeyOf(Flat(blocks)[|Flat(blocks)| - 1]) == LastKey(blocks[|blocks| - 1])
  {
  }

  /** A record at the end of the data block, with the separator before it if the block is new. */
  lemma AddedRecord(blocks: seq<seq<Record>>, dataBlock: seq<Record>, index: seq<TableKey>, r: Record)
    requires Indexed(WithData(blocks, dataBlock), if |index| == |blocks| > 0 && dataBlock == [] then index[..|index| - 1] else index)
    requires |index| == |blocks|
    requires Flat(WithData(blocks, dataBlock)) != [] ==>
               var f := Flat(WithData(blocks, dataBlock)); Less(Ranked(KeyOf(f[|f| - 1])), Ranked(KeyOf(r)))
    requires blocks != [] && dataBlock == [] ==> Separator(LastKey(blocks[|blocks| - 1]), index[|index| - 1], KeyOf(r))
    ensures Indexed(WithData(blocks, dataBlock + [r]), index)
    ensures Flat(WithData(blocks, dataBlock + [r])) == Flat(WithData(blocks, dataBlock)) + [r]
  {
    var was, now := WithData(blocks, dataBlock), WithData(blocks, dataBlock + [r]);
    assert now[..|blocks|] == blocks;
    assert dataBlock != [] ==> was[..|blocks|] == blocks;
    var f := Flat(was);
    assert Flat(now) == f + [r];
    hide Flat, Ranked, KeyOf, Separator, LastKey;
    OneAtTheEnd(f, r);
    forall b | 0 <= b < |index| && b + 1 < |now| ensures SeparatesAt(now, index, b) {
      if b + 1 < |was| {
        assert SeparatesAt(was, if |index| == |blocks| > 0 && dataBlock == [] then index[..|index| - 1] else index, b);
        SameSeparator(blocks, dataBlock, index, r, b);
      }
    }
  }

  lemma OneAtTheEnd(f: seq<Record>, r: Record)
    requires Ascending(f) && (f != [] ==> Less(Ranked(KeyOf(f[|f| - 1])), Ranked(KeyOf(r))))
    ensures Ascending(f + [r])
  {
    hide Ranked, KeyOf;
    forall i, j | 0 <= i < j < |f| + 1 ensures Less(Ranked(KeyOf((f + [r])[i])), Ranked(KeyOf((f + [r])[j]))) {
      if j == |f| && i < |f| - 1 { assert Less(Ranked(KeyOf(f[i])), Ranked(KeyOf(f[|f| - 1]))); }
    }
  }

  /** The entries before the last are between the same records as before. */
  lemma SameSeparator(blocks: seq<seq<Record>>, dataBlock: seq<Record>, index: seq<TableKey>, r: Record, b: nat)
    requires var was := WithData(blocks, dataBlock);
             && |index| == |blocks| && b + 1 < |was| && (forall c :: 0 <= c < |was| ==> was[c] != [])
             && SeparatesAt(was, if |index| == |blocks| > 0 && dataBlock == [] then index[..|index| - 1] else index, b)
    ensures var now := WithData(blocks, dataBlock + [r]);
            b < |index| && b + 1 < |now| && now[b] != [] && now[b + 1] != [] && SeparatesAt(now, index, b)
  {
    hide Separator, Ranked;
    var was, now := WithData(blocks, dataBlock), WithData(blocks, dataBlock + [r]);
    assert now[b] == was[b] && now[b + 1][0] == was[b + 1][0];
  }

  // ---------------------------------------------------------------------------
  // The table as iterators and lookups see it
  // ---------------------------------------------------------------------------

  function EntryBlocks(blocks: seq<seq<Record>>): (r: seq<seq<Entry>>)
    ensures |r| == |blocks| && forall b :: 0 <= b < |r| ==> r[b] == Entries(blocks[b])
  {
    seq(|blocks|, b requires 0 <= b < |blocks| => Entries(blocks[b]))
  }

  function RankedKeys(index: seq<TableKey>): (r: seq<InternalKey>)
    ensures |r| == |index| && forall b :: 0 <= b < |r| ==> r[b] == Ranked(index[b])
  {
    seq(|index|, b requires 0 <= b < |index| => Ranked(index[b]))
  }

  lemma {:induction false} BlockInFlat(blocks: seq<seq<Record>>, b: nat)
    requires b < |blocks|
    ensures |Flat(blocks[..b])| + |blocks[b]| <= |Flat(blocks)|
    ensures forall i :: 0 <= i < |blocks[b]| ==> Flat(blocks)[|Flat(blocks[..b])| + i] == blocks[b][i]
  {
    var n := |blocks| - 1;
    var head := Flat(blocks[..n]);
    assert Flat(blocks) == head + blocks[n];
    if b < n {
      assert blocks[..n][..b] == blocks[..b];
      BlockInFlat(blocks[..n], b);
      hide Flat;
      forall i | 0 <= i < |blocks[b]| ensures Flat(blocks)[|Flat(blocks[..b])| + i] == blocks[b][i] {
        assert head[|Flat(blocks[..b])| + i] == blocks[b][i];
      }
    }
  }

  lemma RecordAt(blocks: seq<seq<Record>>, b: nat, i: nat)
    requires b < |blocks| && i < |blocks[b]|
    ensures |Flat(blocks[..b])| + i < |Flat(blocks)| && Flat(blocks)[|Flat(blocks[..b])| + i] == blocks[b][i]
  {
    BlockInFlat(blocks, b);
  }

  lemma {:induction false} BlocksInOrder(blocks: seq<seq<Record>>, b: nat, c: nat)
    requires b < c < |blocks|
    ensures |Flat(blocks[..b])| + |blocks[b]| <= |Flat(blocks[..c])|
  {
    assert blocks[..c][..c - 1] == blocks[..c - 1];
    if b < c - 1 {
      BlocksInOrder(blocks, b, c - 1);
    }
  }

  /** Records of the table are in order within a block and across blocks. */
  lemma RecordsInOrder(blocks: seq<seq<Record>>, b: nat, i: nat, c: nat, j: nat)
    requires Ascending(Flat(blocks)) && b < |blocks| && i < |blocks[b]| && c < |blocks| && j < |blocks[c]|
    requires b < c || (b == c && i < j)
    ensures Less(Ranked(KeyOf(blocks[b][i])), Ranked(KeyOf(blocks[c][j])))
  {
    hide Flat, Ranked, KeyOf;
    RecordAt(blocks, b, i);
    RecordAt(blocks, c, j);
    if b < c { BlocksInOrder(blocks, b, c); }
    assert |Flat(blocks[..b])| + i < |Flat(blocks[..c])| + j;
  }

  /** The index key of a block is at or after every key in it. */
  lemma IndexAfterBlock(blocks: seq<seq<Record>>, index: seq<TableKey>, b: nat, i: nat)
    requires Complete(blocks, index) && b < |blocks| && i < |blocks[b]|
    ensures !Less(Ranked(index[b]), Ranked(KeyOf(blocks[b][i])))
  {
    var last := |blocks[b]| - 1;
    if i < last { RecordsInOrder(blocks, b, i, b, last); }
    if b + 1 < |blocks| { assert SeparatesAt(blocks, index, b); }
  }

  /** Unless it is the last key of the block, its user key is strictly before every user key of later blocks. */
  lemma IndexBeforeNext(blocks: seq<seq<Record>>, index: seq<TableKey>, b: nat, c: nat, i: nat)
    requires Complete(blocks, index) && b < c < |blocks| && i < |blocks[c]|
    ensures Less(Ranked(index[b]), Ranked(KeyOf(blocks[c][i])))
    ensures index[b] == LastKey(blocks[b]) || Rank(index[b].user) < Rank(blocks[c][i].user)
  {
    assert SeparatesAt(blocks, index, b);
    if b + 1 < c || i > 0 { RecordsInOrder(blocks, b + 1, 0, c, i); }
    RecordsInOrder(blocks, b, |blocks[b]| - 1, c, i);
  }

  /** So the table's index is one that the two-level iterator may use. */
  lemma IndexSeparates(blocks: seq<seq<Record>>, index: seq<TableKey>)
    requires Complete(blocks, index)
    ensures Separates(EntryBlocks(blocks), RankedKeys(index))
  {
    var es := EntryBlocks(blocks);
    forall b | 0 <= b < |es| ensures SortedEntries(es[b]) {
      forall i, j | 0 <= i < j < |es[b]| ensures Before(es[b][i], es[b][j]) {
        RecordsInOrder(blocks, b, i, b, j);
      }
    }
    forall b, i | 0 <= b < |es| && 0 <= i < |es[b]| ensures !Less(RankedKeys(index)[b], IKey(es[b][i])) {
      IndexAfterBlock(blocks, index, b, i);
    }
    forall b, c, i | 0 <= b < c < |es| && 0 <= i < |es[c]| ensures Less(RankedKeys(index)[b], IKey(es[c][i])) {
      IndexBeforeNext(blocks, index, b, c, i);
    }
  }

  /** InternalGet with the saver of a point lookup: the index, the one block it names, the first entry there. */
  function TableGet(blocks: seq<seq<Record>>, index: seq<TableKey>, k: UserKey, s: nat): Answer
    requires |index| == |blocks|
  {
    var b := IndexBound(RankedKeys(index), SeekKey(k, s));
    if b < |blocks| then RunGet(Entries(blocks[b]), k, s) else NotFound
  }

  /** Nothing is missed: the one block gives the answer that a search of the whole table gives. */
  lemma TableGetIsRunGet(blocks: seq<seq<Record>>, index: seq<TableKey>, k: UserKey, s: nat)
    requires Complete(blocks, index)
    ensures TableGet(blocks, index, k, s) == RunGet(Concat(EntryBlocks(blocks)), k, s)
  {
    hide Complete, Concat, Offset, Entries, Separates, LowerBound;
    var es, keys, t := EntryBlocks(blocks), RankedKeys(index), SeekKey(k, s);
    var b := IndexBound(keys, t);
    IndexSeparates(blocks, index);
    SeekInBlock(es, keys, t);
    OffsetEnds(es);
    if b < |blocks| {
      var i := LowerBound(es[b], t);
      if i < |es[b]| {
        EntryAt(es, b, i);
      } else if LowerBound(Concat(es), t) < |Concat(es)| {
        NextBlockHasOtherKey(blocks, index, k, s, b);
      }
    }
  }

  /** If the named block has nothing at or after the target, what follows it in the table has a larger user key. */
  lemma NextBlockHasOtherKey(blocks: seq<seq<Record>>, index: seq<TableKey>, k: UserKey, s: nat, b: nat)
    requires Complete(blocks, index) && b < |blocks| && b == IndexBound(RankedKeys(index), SeekKey(k, s))
    requires LowerBound(Entries(blocks[b]), SeekKey(k, s)) == |blocks[b]|
    requires Offset(EntryBlocks(blocks), b) + |blocks[b]| < |Concat(EntryBlocks(blocks))|
    ensures Concat(EntryBlocks(blocks))[Offset(EntryBlocks(blocks), b) + |blocks[b]|].key > k
  {
    hide Concat, Offset;
    var c, i := FollowsBlock(EntryBlocks(blocks), b);
    IndexBeforeNext(blocks, index, b, c, i);
    var last := Entries(blocks[b])[|blocks[b]| - 1];
    assert Less(IKey(last), SeekKey(k, s));
  }
}
