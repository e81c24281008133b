/**
 Bloom filters and the filter block: a key that was added under a block offset is
 never reported absent at that offset.
 */
module Filters {
  import opened Basics
  import opened Coding

  // ---------------------------------------------------------------------------
  // One Bloom filter
  // ---------------------------------------------------------------------------

  /** Rotate right by 17 bits. */
  function Delta(h: word): word { h as int / 0x2_0000 + h as int % 0x2_0000 * 0x8000 }

  /** The hash value of the j-th probe: double hashing in 32-bit arithmetic. */
  function Probe(h: word, j: nat): word {
    if j == 0 then h else (Probe(h, j - 1) as int + Delta(h) as int) % 0x1_0000_0000
  }

  /** b & (1 << i) */
  predicate BitSet(b: nat, i: nat) {
    if i == 0 then b % 2 == 1 else BitSet(b / 2, i - 1)
  }

  /** b | (1 << i) */
  function SetBit(b: nat, i: nat): nat {
    if i == 0 then b / 2 * 2 + 1 else SetBit(b / 2, i - 1) * 2 + b % 2
  }

  lemma {:induction false} SetBitSets(b: nat, i: nat, j: nat)
    ensures BitSet(SetBit(b, i), j) <==> j == i || BitSet(b, j)
  {
    if i > 0 && j > 0 {
      assert SetBit(b, i) / 2 == SetBit(b / 2, i - 1);
      SetBitSets(b / 2, i - 1, j - 1);
    }
  }

  lemma {:induction false} SetBitBound(b: nat, i: nat, n: nat)
    requires b < Pow2(n) && i < n
    ensures SetBit(b, i) < Pow2(n)
  {
    if i > 0 {
      SetBitBound(b / 2, i - 1, n - 1);
    }
  }

  predicate BitAt(data: seq<byte>, p: nat)
    requires p < 8 * |data|
  {
    BitSet(data[p / 8], p % 8)
  }

  function WithBit(data: seq<byte>, p: nat): (r: seq<byte>)
    requires p < 8 * |data|
    ensures |r| == |data|
  {
    assert Pow2(4) == 16 && Pow2(8) == 256;
    SetBitBound(data[p / 8], p % 8, 8);
    data[p / 8 := SetBit(data[p / 8], p % 8)]
  }

  lemma WithBitSets(data: seq<byte>, p: nat, q: nat)
    requires p < 8 * |data| && q < 8 * |data|
    ensures BitAt(WithBit(data, p), q) <==> q == p || BitAt(data, q)
  {
    SetBitSets(data[p / 8], p % 8, q % 8);
  }

  /** The first n probes of a hash value hit set bits. */
  predicate ProbesSet(data: seq<byte>, h: word, n: nat)
    requires |data| > 0
  {
    forall j: nat :: j < n ==> ProbeSet(data, h, j)
  }

  predicate ProbeSet(data: seq<byte>, h: word, j: nat)
    requires |data| > 0
  {
    BitAt(data, Probe(h, j) as int % (8 * |data|))
  }

  /** What the filter says of a hash value; the last byte is the number of probes. */
  predicate Matches(filter: seq<byte>, h: word) {
    |filter| >= 2 && (filter[|filter| - 1] > 30 || ProbesSet(filter[..|filter| - 1], h, filter[|filter| - 1]))
  }

  /** hash stands for the hash function of the policy. */
  class BloomFilterPolicy {
    const hash: seq<byte> -> word
    const bitsPerKey: nat
    const k: nat

    ghost predicate Valid() { 1 <= k <= 30 }

    /** probes is the rounded product of bitsPerKey and 0.69. */
    constructor (hash: seq<byte> -> word, bitsPerKey: nat, probes: nat)
      ensures Valid() && this.hash == hash
    {
      this.hash, this.bitsPerKey := hash, bitsPerKey;
      k := if probes < 1 then 1 else if probes > 30 then 30 else probes;
    }

    /** Sets the bits of all probes of a key. */
    method AddHash(data: seq<byte>, start: word) returns (r: seq<byte>)
      requires |data| > 0
      ensures BitsKept(data, r) && ProbesSet(r, start, k)
    {
      var h, delta := start, Delta(start);
      r := data;
      for j := 0 to k
        invariant h == Probe(start, j) && BitsKept(data, r) && ProbesSet(r, start, j)
      {
        var bitpos := h as int % (8 * |r|);
        ghost var before := r;
        r := WithBit(r, bitpos);
        forall q: nat | q < 8 * |r| ensures BitAt(r, q) <==> q == bitpos || BitAt(before, q) {
          WithBitSets(before, bitpos, q);
        }
        ProbesStay(before, r, start, j);
        h := (h as int + delta as int) % 0x1_0000_0000;
      }
    }

    /** Appends a filter that matches every key it was made for. */
    method CreateFilter(keys: seq<seq<byte>>, dst: seq<byte>) returns (r: seq<byte>)
      requires Valid()
      ensures |r| >= |dst| + 2 && r[..|dst|] == dst
      ensures forall i :: 0 <= i < |keys| ==> Matches(r[|dst|..], hash(keys[i]))
    {
      var bits := |keys| * bitsPerKey;
      if bits < 64 {
        bits := 64;
      }
      var bytes := (bits + 7) / 8;
      bits := bytes * 8;
      var data: seq<byte> := seq(bytes, _ => 0);
      for i := 0 to |keys|
        invariant |data| == bytes && forall p :: 0 <= p < i ==> ProbesSet(data, hash(keys[p]), k)
      {
        var more := AddHash(data, hash(keys[i]));
        forall p | 0 <= p < i ensures ProbesSet(more, hash(keys[p]), k) {
          ProbesStay(data, more, hash(keys[p]), k);
        }
        data := more;
      }
      r := dst + data + [k];
      assert r[|dst|..] == data + [k];
      assert (data + [k])[..|data|] == data;
    }

    method KeyMayMatch(key: seq<byte>, filter: seq<byte>) returns (r: bool)
      ensures r <==> Matches(filter, hash(key))
    {
      var len := |filter|;
      if len < 2 {
        return false;
      }
      var data, probes := filter[..len - 1], filter[len - 1];
      var bits := (len - 1) * 8;
      if probes > 30 {
        return true;
      }
      var h := hash(key);
      var delta := Delta(h);
      for j := 0 to probes
        invariant h == Probe(hash(key), j) && delta == Delta(hash(key)) && ProbesSet(data, hash(key), j)
      {
        var bitpos := h as int % bits;
        if !BitAt(data, bitpos) {
          assert !ProbeSet(data, hash(key), j);
          return false;
        }
        assert ProbeSet(data, hash(key), j);
        h := (h as int + delta as int) % 0x1_0000_0000;
      }
      r := true;
    }
  }

  ghost predicate BitsKept(a: seq<byte>, b: seq<byte>) {
    |a| == |b| && forall p: nat :: p < 8 * |a| && BitAt(a, p) ==> BitAt(b, p)
  }

  lemma ProbesStay(a: seq<byte>, b: seq<byte>, h: word, n: nat)
    requires |a| > 0 && BitsKept(a, b) && ProbesSet(a, h, n)
    ensures ProbesSet(b, h, n)
  {
    forall j: nat | j < n ensures ProbeSet(b, h, j) {
      assert ProbeSet(a, h, j);
    }
  }

  // ---------------------------------------------------------------------------
  // The filter block: one filter for every 2 KB of data
  // ---------------------------------------------------------------------------

  const kFilterBase: nat := 2048
  const kFilterBaseLg: byte := 11

  /** Piece i ends where the next one starts, or at the end. */
  function Limit(starts: seq<nat>, end: nat, i: nat): nat
    requires i < |starts|
  {
    if i + 1 < |starts| then starts[i + 1] else end
  }

  ghost predicate PieceOk(starts: seq<nat>, end: nat, i: nat)
    requires i < |starts|
  {
    starts[i] <= Limit(starts, end, i) <= end
  }

  /** The starts cut a string of the given length into pieces. */
  ghost predicate Cut(starts: seq<nat>, end: nat) {
    forall i :: 0 <= i < |starts| ==> PieceOk(starts, end, i)
  }

  function Piece(text: seq<byte>, starts: seq<nat>, i: nat): seq<byte>
    requires i < |starts| && PieceOk(starts, |text|, i)
  {
    text[starts[i]..Limit(starts, |text|, i)]
  }

  /** A key added under a block offset: in its filter if that is done, else among the pending keys. */
  ghost predicate Covered(hash: seq<byte> -> word, result: seq<byte>, offsets: seq<nat>, pending: seq<seq<byte>>, blockOffset: nat, key: seq<byte>)
    requires Cut(offsets, |result|)
  {
    var n := blockOffset / kFilterBase;
    if n < |offsets| then PieceOk(offsets, |result|, n) && Matches(Piece(result, offsets, n), hash(key))
    else n == |offsets| && key in pending
  }

  /** The keys that the flattened text and the start positions stand for. */
  function Keys(text: seq<byte>, start: seq<nat>): (r: seq<seq<byte>>)
    requires Cut(start, |text|)
    ensures |r| == |start| && forall i :: 0 <= i < |r| ==> PieceOk(start, |text|, i) && r[i] == Piece(text, start, i)
  {
    assert forall i :: 0 <= i < |start| ==> PieceOk(start, |text|, i);
    seq(|start|, i requires 0 <= i < |start| && PieceOk(start, |text|, i) => Piece(text, start, i))
  }

  class FilterBlockBuilder {
    const policy: BloomFilterPolicy
    /** Flattened keys and where each starts. */
    var keys: seq<byte>
    var start: seq<nat>
    var result: seq<byte>
    var filterOffsets: seq<nat>
    ghost var blockOffset: nat
    /** Every key with the offset of its block. */
    ghost var added: set<(nat, seq<byte>)>

    ghost predicate Shaped()
      reads this
    {
      policy.Valid() && Cut(filterOffsets, |result|) && Cut(start, |keys|)
    }

    ghost predicate AllCovered()
      requires Shaped()
      reads this
    {
      forall a :: a in added ==> Covered(policy.hash, result, filterOffsets, Keys(keys, start), a.0, a.1)
    }

    ghost predicate Valid()
      reads this
    {
      Shaped() && AllCovered() && |filterOffsets| == blockOffset / kFilterBase
    }

    constructor (policy: BloomFilterPolicy)
      requires policy.Valid()
      ensures Valid() && this.policy == policy && added == {} && blockOffset == 0
    {
      this.policy, keys, start, result, filterOffsets := policy, [], [], [], [];
      blockOffset, added := 0, {};
    }

    /** Block offsets do not go back. */
    method StartBlock(offset: nat)
      requires Valid() && offset >= blockOffset
      modifies this
      ensures Valid() && blockOffset == offset && added == old(added)
    {
      var filterIndex := offset / kFilterBase;
      while filterIndex > |filterOffsets|
        invariant Shaped() && AllCovered() && |filterOffsets| <= filterIndex && added == old(added)
        decreases filterIndex - |filterOffsets|
      {
        GenerateFilter();
      }
      blockOffset := offset;
    }

    method AddKey(key: seq<byte>)
      requires Valid()
      modifies this`keys, this`start, this`added
      ensures Valid() && added == old(added) + {(blockOffset, key)}
    {
      ghost var before := Keys(keys, start);
      start := start + [|keys|];
      keys := keys + key;
      added := added + {(blockOffset, key)};
      assert Keys(keys, start) == before + [key] by {
        KeyAdded(old(keys), old(start), key);
      }
    }

    method GenerateFilter()
      requires Shaped() && AllCovered()
      modifies this`keys, this`start, this`result, this`filterOffsets
      ensures Shaped() && AllCovered() && |filterOffsets| == |old(filterOffsets)| + 1
    {
      ghost var before, offsets, pending := result, filterOffsets, Keys(keys, start);
      filterOffsets := filterOffsets + [|result|];
      if start != [] {
        var tmpKeys := Keys(keys, start);
        result := policy.CreateFilter(tmpKeys, result);
        keys, start := [], [];
      }
      CutMore(offsets, |before|, |result|);
      forall a | a in added ensures Covered(policy.hash, result, filterOffsets, Keys(keys, start), a.0, a.1) {
        FilterGenerated(policy.hash, before, offsets, pending, result, Keys(keys, start), a.0, a.1);
      }
    }

    /** The block's contents: filters, their offsets, where the offsets start, and the base. */
    method Finish() returns (contents: seq<byte>)
      requires Valid()
      modifies this
      ensures |result| < 0x1_0000_0000 ==> forall a :: a in old(added) ==> MayMatch(policy.hash, contents, a.0, a.1)
    {
      if start != [] {
        GenerateFilter();
      }
      contents := result;
      if |result| < 0x1_0000_0000 {
        forall i | 0 <= i < |filterOffsets| ensures filterOffsets[i] < 0x1_0000_0000 {
          assert PieceOk(filterOffsets, |result|, i);
        }
        contents := Contents(result, filterOffsets);
        forall a | a in added ensures MayMatch(policy.hash, contents, a.0, a.1) {
          ReaderFinds(policy.hash, result, filterOffsets, a.0, a.1);
        }
      }
    }
  }

  /** Filters, their offsets, where the offsets start, and the base. */
  function Contents(result: seq<byte>, offsets: seq<nat>): (c: seq<byte>)
    requires |result| < 0x1_0000_0000 && forall i :: 0 <= i < |offsets| ==> offsets[i] < 0x1_0000_0000
    ensures |c| == |result| + 4 * |offsets| + 5
  {
    result + Fixed32s(offsets) + EncodeFixed32(|result|) + [kFilterBaseLg]
  }

  /** A piece more: the last one ends where it starts. */
  lemma CutMore(starts: seq<nat>, end: nat, more: nat)
    requires Cut(starts, end) && end <= more
    ensures Cut(starts + [end], more)
    ensures forall i :: 0 <= i < |starts| ==> Limit(starts + [end], more, i) == Limit(starts, end, i)
  {
    forall i | 0 <= i < |starts| + 1 ensures PieceOk(starts + [end], more, i) {
      if i < |starts| { assert PieceOk(starts, end, i); }
    }
  }

  lemma KeyAdded(text: seq<byte>, start: seq<nat>, key: seq<byte>)
    requires Cut(start, |text|)
    ensures Cut(start + [|text|], |text + key|) && Keys(text + key, start + [|text|]) == Keys(text, start) + [key]
  {
    CutMore(start, |text|, |text + key|);
    var a, b := Keys(text + key, start + [|text|]), Keys(text, start) + [key];
    forall i | 0 <= i < |a| ensures a[i] == b[i] {
      assert PieceOk(start + [|text|], |text + key|, i);
      if i < |start| { assert PieceOk(start, |text|, i); }
    }
  }

  /** A new filter at the end takes the pending keys and leaves the earlier filters as they were. */
  lemma FilterGenerated(hash: seq<byte> -> word, before: seq<byte>, offsets: seq<nat>, pending: seq<seq<byte>>,
                        after: seq<byte>, rest: seq<seq<byte>>, blockOffset: nat, key: seq<byte>)
    requires Cut(offsets, |before|) && Covered(hash, before, offsets, pending, blockOffset, key)
    requires |after| >= |before| && after[..|before|] == before
    requires forall i :: 0 <= i < |pending| ==> Matches(after[|before|..], hash(pending[i]))
    ensures Cut(offsets + [|before|], |after|) && Covered(hash, after, offsets + [|before|], rest, blockOffset, key)
  {
    var n, more := blockOffset / kFilterBase, offsets + [|before|];
    CutMore(offsets, |before|, |after|);
    assert PieceOk(more, |after|, n);
    if n < |offsets| {
      assert PieceOk(offsets, |before|, n);
      var from, limit := offsets[n], Limit(offsets, |before|, n);
      assert after[..|before|][from..limit] == after[from..limit];
    } else {
      assert Piece(after, more, n) == after[|before|..];
    }
  }

  // ---------------------------------------------------------------------------
  // The reader
  // ---------------------------------------------------------------------------

  /** What KeyMayMatch answers; anything that does not look like a filter block may match. */
  predicate MayMatch(hash: seq<byte> -> word, contents: seq<byte>, blockOffset: nat, key: seq<byte>) {
    var n := |contents|;
    n < 5 ||
    var offset := DecodeFixed32(contents[n - 5..n - 1]) as nat;
    offset > n - 5 ||
    var num, index := (n - 5 - offset) / 4, blockOffset / Pow2(contents[n - 1]);
    index >= num ||
    assert 4 * index + 4 <= 4 * num <= n - 5 - offset;
    var from, limit := DecodeFixed32(contents[offset + index * 4..offset + index * 4 + 4]) as nat,
                       DecodeFixed32(contents[offset + index * 4 + 4..offset + index * 4 + 8]) as nat;
    if from <= limit <= offset then Matches(contents[from..limit], hash(key)) else from != limit
  }

  /** The word at index i of the offset array; the one after the last offset is the array's own start. */
  lemma OffsetWord(result: seq<byte>, offsets: seq<nat>, i: nat)
    requires |result| < 0x1_0000_0000 && i <= |offsets| && forall i :: 0 <= i < |offsets| ==> offsets[i] < 0x1_0000_0000
    ensures
      var at := |result| + 4 * i;
      DecodeFixed32(Contents(result, offsets)[at..at + 4]) == if i < |offsets| then offsets[i] else |result|
  {
    hide EncodeFixed32, DecodeFixed32;
    var c, words, at := Contents(result, offsets), Fixed32s(offsets), |result| + 4 * i;
    if i < |offsets| {
      Fixed32At(offsets, i);
      assert c[at..at + 4] == words[4 * i..4 * i + 4];
      FixedRoundTrip(offsets[i]);
    } else {
      assert c[at..at + 4] == EncodeFixed32(|result|);
      FixedRoundTrip(|result|);
    }
  }

  /** The trailer says where the offsets start and how blocks share filters; filters come first. */
  lemma Trailer(result: seq<byte>, offsets: seq<nat>)
    requires |result| < 0x1_0000_0000 && forall i :: 0 <= i < |offsets| ==> offsets[i] < 0x1_0000_0000
    ensures
      var c := Contents(result, offsets);
      c[|c| - 1] == kFilterBaseLg && DecodeFixed32(c[|c| - 5..|c| - 1]) == |result| && c[..|result|] == result
    ensures Pow2(kFilterBaseLg) == kFilterBase
  {
    OffsetWord(result, offsets, |offsets|);
    hide EncodeFixed32, DecodeFixed32, Fixed32s;
    assert Pow2(11) == kFilterBase by { assert Pow2(4) == 16; assert Pow2(8) == 256; }
  }

  /** What the reader does with a well-formed block of num filters. */
  lemma Found(hash: seq<byte> -> word, c: seq<byte>, start: nat, num: nat, from: nat, limit: nat, blockOffset: nat, key: seq<byte>)
    requires |c| == start + 4 * num + 5 && DecodeFixed32(c[|c| - 5..|c| - 1]) == start
    requires Pow2(c[|c| - 1]) == kFilterBase && blockOffset / kFilterBase < num
    requires var at := start + 4 * (blockOffset / kFilterBase);
             DecodeFixed32(c[at..at + 4]) == from && DecodeFixed32(c[at + 4..at + 8]) == limit
    requires from <= limit <= start && Matches(c[from..limit], hash(key))
    ensures MayMatch(hash, c, blockOffset, key)
  {
    hide DecodeFixed32, Matches, Pow2;
  }

  /** The reader finds the filter of the key's block, and it matches. */
  lemma ReaderFinds(hash: seq<byte> -> word, result: seq<byte>, offsets: seq<nat>, blockOffset: nat, key: seq<byte>)
    requires |result| < 0x1_0000_0000 && Cut(offsets, |result|) && forall i :: 0 <= i < |offsets| ==> offsets[i] < 0x1_0000_0000
    requires Covered(hash, result, offsets, [], blockOffset, key)
    ensures MayMatch(hash, Contents(result, offsets), blockOffset, key)
  {
    hide EncodeFixed32, DecodeFixed32, Matches, MayMatch, Contents, Fixed32s, Pow2, Cut, Covered, Piece, Limit;
    var c := Contents(result, offsets);
    var i := blockOffset / kFilterBase;
    CoveredPiece(hash, result, offsets, blockOffset, key);
    var from, limit := offsets[i], Limit(offsets, |result|, i);
    Trailer(result, offsets);
    OffsetWord(result, offsets, i);
    LimitWord(result, offsets, i);
    assert c[..|result|][from..limit] == c[from..limit];
    Found(hash, c, |result|, |offsets|, from, limit, blockOffset, key);
  }

  lemma CoveredPiece(hash: seq<byte> -> word, result: seq<byte>, offsets: seq<nat>, blockOffset: nat, key: seq<byte>)
    requires Cut(offsets, |result|) && Covered(hash, result, offsets, [], blockOffset, key)
    ensures var i := blockOffset / kFilterBase;
            && i < |offsets| && offsets[i] <= Limit(offsets, |result|, i) <= |result|
            && Matches(result[offsets[i]..Limit(offsets, |result|, i)], hash(key))
  {
    hide Matches;
  }

  /** The word behind a filter's offset is where the filter ends. */
  lemma LimitWord(result: seq<byte>, offsets: seq<nat>, i: nat)
    requires |result| < 0x1_0000_0000 && i < |offsets| && forall i :: 0 <= i < |offsets| ==> offsets[i] < 0x1_0000_0000
    ensures
      var at := |result| + 4 * i + 4;
      DecodeFixed32(Contents(result, offsets)[at..at + 4]) == Limit(offsets, |result|, i)
  {
    hide DecodeFixed32, Contents;
    OffsetWord(result, offsets, i + 1);
  }
}
