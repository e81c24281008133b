/**
 The two-level iterator: an index whose entries lead to blocks. It walks the
 blocks as if they were one run. A table uses it over its index block, and a
 level above 0 uses it over its list of files.
 */
module TwoLevels {
  import opened Basics
  import opened Keys
  import opened Versions

  function Concat(blocks: seq<seq<Entry>>): seq<Entry> {
    if blocks == [] then [] else Concat(blocks[..|blocks| - 1]) + blocks[|blocks| - 1]
  }

  /** Where block b starts in the run. */
  function Offset(blocks: seq<seq<Entry>>, b: nat): (n: nat)
    requires b <= |blocks|
  {
    |Concat(blocks[..b])|
  }

  /** An index key is at or after everything in its block and before everything in later blocks. */
  ghost predicate Separates(blocks: seq<seq<Entry>>, index: seq<InternalKey>) {
    && |index| == |blocks|
    && (forall b :: 0 <= b < |blocks| ==> SortedEntries(blocks[b]))
    && (forall b, i :: 0 <= b < |blocks| && 0 <= i < |blocks[b]| ==> !Less(index[b], IKey(blocks[b][i])))
    && forall b, c, i :: 0 <= b < c < |blocks| && 0 <= i < |blocks[c]| ==> Less(index[b], IKey(blocks[c][i]))
  }

  lemma {:induction false} ConcatAt(blocks: seq<seq<Entry>>, b: nat)
    requires b < |blocks|
    ensures Offset(blocks, b + 1) == Offset(blocks, b) + |blocks[b]| <= |Concat(blocks)|
    ensures forall i :: 0 <= i < |blocks[b]| ==> Concat(blocks)[Offset(blocks, b) + i] == blocks[b][i]
  {
    var n := |blocks| - 1;
    assert blocks[..b + 1][..b] == blocks[..b];
    if b < n {
      assert blocks[..n][..b] == blocks[..b] && blocks[..n][..b + 1] == blocks[..b + 1];
      ConcatAt(blocks[..n], b);
      assert Concat(blocks)[..|Concat(blocks[..n])|] == Concat(blocks[..n]);
    } else {
      assert blocks[..b + 1] == blocks;
    }
  }

  lemma EntryAt(blocks: seq<seq<Entry>>, b: nat, i: nat)
    requires b < |blocks| && i < |blocks[b]|
    ensures Offset(blocks, b) + i < |Concat(blocks)| && Concat(blocks)[Offset(blocks, b) + i] == blocks[b][i]
  {
    ConcatAt(blocks, b);
  }

  lemma OffsetEnds(blocks: seq<seq<Entry>>)
    ensures Offset(blocks, 0) == 0 && Offset(blocks, |blocks|) == |Concat(blocks)|
  {
    assert blocks[..0] == [] && blocks[..|blocks|] == blocks;
  }

  lemma {:induction false} OffsetsGrow(blocks: seq<seq<Entry>>, b: nat, c: nat)
    requires b <= c <= |blocks|
    ensures Offset(blocks, b) <= Offset(blocks, c)
  {
    if b < c {
      ConcatAt(blocks, c - 1);
      OffsetsGrow(blocks, b, c - 1);
    }
  }

  /** The block that holds a place of the run. */
  lemma {:induction false} BlockOf(blocks: seq<seq<Entry>>, p: nat) returns (b: nat)
    requires p < |Concat(blocks)|
    ensures b < |blocks| && Offset(blocks, b) <= p < Offset(blocks, b) + |blocks[b]|
  {
    var n := |blocks| - 1;
    if p < |Concat(blocks[..n])| {
      b := BlockOf(blocks[..n], p);
      assert blocks[..n][..b] == blocks[..b];
    } else {
      b := n;
    }
  }

  /** The place of an entry of the run: its block, and its index there. */
  lemma PlaceOf(blocks: seq<seq<Entry>>, p: nat) returns (b: nat, i: nat)
    requires p < |Concat(blocks)|
    ensures b < |blocks| && i < |blocks[b]| && p == Offset(blocks, b) + i && Concat(blocks)[p] == blocks[b][i]
  {
    b := BlockOf(blocks, p);
    ConcatAt(blocks, b);
    i := p - Offset(blocks, b);
    assert Concat(blocks)[Offset(blocks, b) + i] == blocks[b][i];
  }

  /** What follows a block's last entry is in a later block. */
  lemma FollowsBlock(blocks: seq<seq<Entry>>, b: nat) returns (c: nat, i: nat)
    requires b < |blocks| && Offset(blocks, b) + |blocks[b]| < |Concat(blocks)|
    ensures b < c < |blocks| && i < |blocks[c]|
    ensures Concat(blocks)[Offset(blocks, b) + |blocks[b]|] == blocks[c][i]
  {
    c, i := PlaceOf(blocks, Offset(blocks, b) + |blocks[b]|);
    ConcatAt(blocks, b);
    ConcatAt(blocks, c);
    if c <= b { OffsetsGrow(blocks, c + 1, b + 1); }
  }

  /** Where the index seek lands: the first key at or after the target. */
  function IndexBound(index: seq<InternalKey>, t: InternalKey): (b: nat)
    ensures b <= |index|
    ensures forall j :: 0 <= j < b ==> Less(index[j], t)
    ensures b < |index| ==> !Less(index[b], t)
  {
    if index == [] || !Less(index[0], t) then 0 else 1 + IndexBound(index[1..], t)
  }

  /** An entry of an earlier block is before the target, one of a later block is not. */
  lemma IndexDecides(blocks: seq<seq<Entry>>, index: seq<InternalKey>, t: InternalKey, c: nat, i: nat)
    requires Separates(blocks, index) && c < |blocks| && i < |blocks[c]|
    ensures c < IndexBound(index, t) ==> Less(IKey(blocks[c][i]), t)
    ensures c > IndexBound(index, t) ==> !Less(IKey(blocks[c][i]), t)
  {
  }

  /** Seeking in the index and then in the one block it names finds the place in the whole run. */
  lemma SeekInBlock(blocks: seq<seq<Entry>>, index: seq<InternalKey>, t: InternalKey)
    requires Separates(blocks, index)
    ensures
      var b := IndexBound(index, t);
      LowerBound(Concat(blocks), t) == Offset(blocks, b) + if b < |blocks| then LowerBound(blocks[b], t) else 0
  {
    var all, b := Concat(blocks), IndexBound(index, t);
    var n := LowerBound(all, t);
    var m := Offset(blocks, b) + if b < |blocks| then LowerBound(blocks[b], t) else 0;
    OffsetEnds(blocks);
    if b < |blocks| { ConcatAt(blocks, b); }
    if n < |all| && n < m {
      Side(blocks, index, t, n);
    }
    if m < n {
      Side(blocks, index, t, m);
    }
  }

  /** Which places of the run are before the target. */
  lemma Side(blocks: seq<seq<Entry>>, index: seq<InternalKey>, t: InternalKey, p: nat)
    requires Separates(blocks, index) && p < |Concat(blocks)|
    ensures
      var b := IndexBound(index, t);
      Less(IKey(Concat(blocks)[p]), t) <==> p < Offset(blocks, b) + if b < |blocks| then LowerBound(blocks[b], t) else 0
  {
    var b := IndexBound(index, t);
    var c, i := PlaceOf(blocks, p);
    ConcatAt(blocks, c);
    IndexDecides(blocks, index, t, c, i);
    if c < b {
      OffsetsGrow(blocks, c + 1, b);
    } else if b < c {
      ConcatAt(blocks, b);
      OffsetsGrow(blocks, b + 1, c);
    } else {
      var k := LowerBound(blocks[b], t);
      if k < i { assert Before(blocks[b][k], blocks[b][i]); }
    }
  }

  // ---------------------------------------------------------------------------
  // The iterator
  // ---------------------------------------------------------------------------

  /** A cursor in a block; the length of the block means not valid. */
  datatype BlockCursor = BlockCursor(block: nat, pos: nat)

  class TwoLevelIterator {
    const blocks: seq<seq<Entry>>
    const index: seq<InternalKey>
    /** The length of the index means that the index iterator is not valid. */
    var indexPos: nat
    var data: Option<BlockCursor>

    /** The data iterator, if there is one, is in the block that the index iterator stands at. */
    ghost predicate InStep()
      reads this
    {
      && Separates(blocks, index) && indexPos <= |blocks|
      && (data.None? ==> indexPos == |blocks|)
      && (data.Some? ==> data.value.block == indexPos < |blocks| && data.value.pos <= |blocks[indexPos]|)
    }

    ghost predicate Valid()
      reads this
    {
      InStep() && (data.Some? ==> data.value.pos < |blocks[indexPos]|)
    }

    /** The place in the run; its length means not valid. */
    ghost function Place(): (p: nat)
      requires InStep()
      reads this
    {
      Offset(blocks, indexPos) + if data.Some? then data.value.pos else 0
    }

    constructor (blocks: seq<seq<Entry>>, index: seq<InternalKey>)
      requires Separates(blocks, index)
      ensures Valid() && this.blocks == blocks && this.index == index && Place() == |Concat(blocks)|
    {
      this.blocks, this.index, indexPos, data := blocks, index, |blocks|, None;
      new;
      OffsetEnds(blocks);
    }

    method Key() returns (e: Entry)
      requires Valid() && data.Some?
      ensures Place() < |Concat(blocks)| && e == Concat(blocks)[Place()]
    {
      ConcatAt(blocks, indexPos);
      e := blocks[data.value.block][data.value.pos];
    }

    method InitDataBlock()
      requires Separates(blocks, index) && indexPos <= |blocks|
      requires data.Some? && data.value.block == indexPos && indexPos < |blocks| ==> data.value.pos <= |blocks[indexPos]|
      modifies this`data
      ensures InStep()
    {
      if indexPos == |blocks| {
        data := None;
      } else if data.Some? && data.value.block == indexPos {
        // the block is already open
      } else {
        data := Some(BlockCursor(indexPos, |blocks[indexPos]|));
      }
    }

    /** On to the next block that has an entry; the place stays, because empty blocks take no room. */
    method SkipEmptyDataBlocksForward()
      requires InStep()
      modifies this
      ensures Valid() && Place() == old(Place())
    {
      while data.None? || data.value.pos == |blocks[data.value.block]|
        invariant InStep() && Place() == old(Place())
        decreases |blocks| - indexPos
      {
        if indexPos == |blocks| {
          data := None;
          return;
        }
        ConcatAt(blocks, indexPos);
        indexPos := indexPos + 1;
        InitDataBlock();
        if data.Some? {
          data := Some(BlockCursor(data.value.block, 0));
        }
      }
    }

    /** Back to the last entry before a block that has run out. */
    method SkipEmptyDataBlocksBackward(ghost end: nat)
      requires InStep()
      requires if data.Some? && data.value.pos < |blocks[indexPos]| then Place() + 1 == end
               else end == if data.None? then 0 else Offset(blocks, indexPos)
      modifies this
      ensures Valid() && Place() == if end == 0 then |Concat(blocks)| else end - 1
    {
      OffsetEnds(blocks);
      while data.None? || data.value.pos == |blocks[data.value.block]|
        invariant InStep()
        invariant if data.Some? && data.value.pos < |blocks[indexPos]| then Place() + 1 == end
                  else end == if data.None? then 0 else Offset(blocks, indexPos)
        decreases if data.None? then 0 else indexPos + 1
      {
        if indexPos == |blocks| {
          data := None;
          return;
        }
        if indexPos > 0 { ConcatAt(blocks, indexPos - 1); }
        indexPos := if indexPos == 0 then |blocks| else indexPos - 1;
        InitDataBlock();
        if data.Some? {
          var n := |blocks[data.value.block]|;
          data := Some(BlockCursor(data.value.block, if n == 0 then 0 else n - 1));
        }
      }
    }

    method SeekToFirst()
      requires Valid()
      modifies this
      ensures Valid() && Place() == 0
    {
      OffsetEnds(blocks);
      indexPos := 0;
      InitDataBlock();
      if data.Some? {
        data := Some(BlockCursor(data.value.block, 0));
      }
      SkipEmptyDataBlocksForward();
    }

    method SeekToLast()
      requires Valid()
      modifies this
      ensures Valid() && Place() == if |Concat(blocks)| == 0 then 0 else |Concat(blocks)| - 1
    {
      OffsetEnds(blocks);
      if |blocks| > 0 { ConcatAt(blocks, |blocks| - 1); }
      indexPos := if |blocks| == 0 then 0 else |blocks| - 1;
      InitDataBlock();
      if data.Some? {
        var n := |blocks[data.value.block]|;
        data := Some(BlockCursor(data.value.block, if n == 0 then 0 else n - 1));
      }
      SkipEmptyDataBlocksBackward(|Concat(blocks)|);
    }

    method Seek(target: InternalKey)
      requires Valid()
      modifies this
      ensures Valid() && Place() == LowerBound(Concat(blocks), target)
    {
      assert |index| == |blocks|;
      hide Concat, Offset, LowerBound, Separates, IndexBound;
      SeekInBlock(blocks, index, target);
      indexPos := IndexBound(index, target);
      InitDataBlock();
      if data.Some? {
        data := Some(BlockCursor(data.value.block, LowerBound(blocks[data.value.block], target)));
      }
      SkipEmptyDataBlocksForward();
    }

    method Next()
      requires Valid() && data.Some?
      modifies this
      ensures Valid() && Place() == old(Place()) + 1
    {
      data := Some(BlockCursor(data.value.block, data.value.pos + 1));
      SkipEmptyDataBlocksForward();
    }

    method Prev()
      requires Valid() && data.Some?
      modifies this
      ensures Valid() && Place() == if old(Place()) == 0 then |Concat(blocks)| else old(Place()) - 1
    {
      ghost var end := Place();
      var n := |blocks[data.value.block]|;
      data := Some(BlockCursor(data.value.block, if data.value.pos == 0 then n else data.value.pos - 1));
      SkipEmptyDataBlocksBackward(end);
    }
  }
}
