/**
 The cache: a hash table with chained buckets, a circular list in the order of
 use, and reference counts. Handles are numbered as they are allocated, and each
 pointer field of the handles is a map from handle to handle; 0 stands for the
 head of the circular list, and for the null pointer in a bucket's chain.
 */
module LruCache {
  import opened Basics

  /** What the table files a handle under: its key and the hash of it. */
  datatype Ident = Ident(key: seq<byte>, hash: nat)

  ghost predicate Distinct<T>(s: seq<T>) {
    forall i, j :: 0 <= i < j < |s| ==> s[i] != s[j]
  }

  /** The sequence less the first occurrence of an element. */
  ghost function Without(s: seq<nat>, e: nat): (r: seq<nat>) {
    if s == [] then [] else if s[0] == e then s[1..] else [s[0]] + Without(s[1..], e)
  }

  lemma CutAt<T>(s: seq<T>, i: nat)
    requires i < |s| && Distinct(s)
    ensures Distinct(s[..i] + s[i + 1..])
    ensures forall x :: x in s[..i] + s[i + 1..] <==> x in s && x != s[i]
  {
    var r := s[..i] + s[i + 1..];
    forall j, k | 0 <= j < k < |r| ensures r[j] != r[k] {
      assert s[if j < i then j else j + 1] != s[if k < i then k else k + 1];
    }
    forall x | x in s && x != s[i] ensures x in r {
      var k :| 0 <= k < |s| && s[k] == x;
      assert r[if k < i then k else k - 1] == x;
    }
  }

  lemma {:induction false} WithoutAt(s: seq<nat>, i: nat)
    requires i < |s| && Distinct(s)
    ensures Without(s, s[i]) == s[..i] + s[i + 1..]
  {
    if i > 0 {
      WithoutAt(s[1..], i - 1);
      assert s[1..][i - 1] == s[i];
      assert s[..i] + s[i + 1..] == [s[0]] + (s[1..][..i - 1] + s[1..][i..]);
    }
  }

  lemma WithoutMembers(s: seq<nat>, e: nat)
    requires Distinct(s) && e in s
    ensures Distinct(Without(s, e))
    ensures forall x :: x in Without(s, e) <==> x in s && x != e
  {
    var i :| 0 <= i < |s| && s[i] == e;
    WithoutAt(s, i);
    CutAt(s, i);
  }

  lemma WithoutLast(s: seq<nat>, x: nat, e: nat)
    requires e in s
    ensures Without(s + [x], e) == Without(s, e) + [x]
  {
    if s[0] != e {
      WithoutLast(s[1..], x, e);
      assert (s + [x])[1..] == s[1..] + [x];
    } else {
      assert (s + [x])[1..] == s[1..] + [x];
    }
  }

  // ---------------------------------------------------------------------------
  // The circular list
  // ---------------------------------------------------------------------------

  /** The list head, which is never an entry. */
  const HEAD: nat := 0

  /** The links of a circle through the elements of `c`, in order. */
  ghost predicate Circle(c: seq<nat>, next: map<nat, nat>, prev: map<nat, nat>) {
    forall i :: 0 <= i < |c| ==> LinkAt(c, next, prev, i)
  }

  ghost predicate LinkAt(c: seq<nat>, next: map<nat, nat>, prev: map<nat, nat>, i: nat)
    requires i < |c|
  {
    var j := if i + 1 < |c| then i + 1 else 0;
    c[i] in next && next[c[i]] == c[j] && c[j] in prev && prev[c[j]] == c[i]
  }

  lemma CutOut(c: seq<nat>, next: map<nat, nat>, prev: map<nat, nat>, i: nat)
    requires Distinct(c) && Circle(c, next, prev) && 0 < i < |c|
    ensures c[i] in next && c[i] in prev
    ensures Circle(c[..i] + c[i + 1..], next[prev[c[i]] := next[c[i]]], prev[next[c[i]] := prev[c[i]]])
  {
    assert LinkAt(c, next, prev, i) && LinkAt(c, next, prev, i - 1);
    var n, p := next[c[i]], prev[c[i]];
    var d := c[..i] + c[i + 1..];
    var next', prev' := next[p := n], prev[n := p];
    forall k | 0 <= k < |d| ensures LinkAt(d, next', prev', k) {
      assert LinkAt(c, next, prev, if k < i then k else k + 1);
    }
  }

  lemma AddLast(c: seq<nat>, next: map<nat, nat>, prev: map<nat, nat>, e: nat)
    requires Distinct(c) && Circle(c, next, prev) && 0 < |c| && e !in c
    ensures c[0] in prev
    ensures Circle(c + [e], next[e := c[0]][prev[c[0]] := e], prev[e := prev[c[0]]][c[0] := e])
  {
    assert LinkAt(c, next, prev, |c| - 1);
    var p := prev[c[0]];
    var d := c + [e];
    var next', prev' := next[e := c[0]][p := e], prev[e := p][c[0] := e];
    forall k | 0 <= k < |d| ensures LinkAt(d, next', prev', k) {
      if k < |c| { assert LinkAt(c, next, prev, k); }
    }
  }

  class LruList {
    var next: map<nat, nat>
    var prev: map<nat, nat>
    /** The entries, oldest first. */
    ghost var order: seq<nat>

    ghost predicate Valid()
      reads this
    {
      Distinct([HEAD] + order) && Circle([HEAD] + order, next, prev)
    }

    constructor ()
      ensures Valid() && order == []
    {
      next, prev, order := map[HEAD := HEAD], map[HEAD := HEAD], [];
    }

    /** LRU_Remove. */
    method Remove(e: nat)
      requires Valid() && e in order
      modifies this
      ensures Valid() && order == Without(old(order), e)
    {
      ghost var c := [HEAD] + order;
      ghost var i :| 0 <= i < |order| && order[i] == e;
      assert c[i + 1] == e;
      CutOut(c, next, prev, i + 1);
      WithoutAt(c, i + 1);
      CutAt(c, i + 1);
      assert c[1..] == order;
      assert Without(c, e) == [HEAD] + Without(order, e);
      var n, p := next[e], prev[e];
      prev := prev[n := p];
      next := next[p := n];
      order := Without(order, e);
    }

    /** LRU_Append: the newest entry, just before the head. */
    method Append(e: nat)
      requires Valid() && e != HEAD && e !in order
      modifies this
      ensures Valid() && order == old(order) + [e]
    {
      ghost var c := [HEAD] + order;
      AddLast(c, next, prev, e);
      assert [HEAD] + (order + [e]) == c + [e];
      next := next[e := HEAD];
      prev := prev[e := prev[HEAD]];
      next := next[prev[e] := e];
      prev := prev[HEAD := e];
      order := order + [e];
    }

    /** The entry after the one at place `i`, or the head after the newest. */
    method Following(e: nat, ghost i: nat) returns (n: nat)
      requires Valid() && i < |order| && order[i] == e
      ensures n == if i + 1 < |order| then order[i + 1] else HEAD
      ensures n == HEAD <==> i + 1 == |order|
    {
      ghost var c := [HEAD] + order;
      assert c[i + 1] == e && LinkAt(c, next, prev, i + 1);
      assert i + 1 < |order| ==> c[0] != c[i + 2];
      n := next[e];
    }

    /** The oldest entry, or the head if there is none. */
    method Oldest() returns (e: nat)
      requires Valid()
      ensures e == if order == [] then HEAD else order[0]
      ensures e == HEAD <==> order == []
    {
      ghost var c := [HEAD] + order;
      assert LinkAt(c, next, prev, 0);
      assert order != [] ==> c[0] != c[1];
      e := next[HEAD];
    }
  }

  // ---------------------------------------------------------------------------
  // The hash table
  // ---------------------------------------------------------------------------

  /** Bitwise and. */
  function And(a: nat, b: nat): nat {
    if a == 0 || b == 0 then 0 else (a % 2) * (b % 2) + 2 * And(a / 2, b / 2)
  }

  ghost predicate IsPower(n: nat) {
    exists k: nat :: n == Pow2(k)
  }

  /** Masking with a power of two less one takes the remainder. */
  lemma {:induction false} MaskIsRemainder(h: nat, k: nat)
    ensures And(h, Pow2(k) - 1) == h % Pow2(k)
  {
    if h == 0 || k == 0 {
      AndNothing(h, Pow2(k) - 1);
      RemainderIs(h, Pow2(k), if h == 0 then 0 else h, 0);
    } else {
      MaskIsRemainder(h / 2, k - 1);
      hide And;
      MaskTwice(h, Pow2(k - 1), Pow2(k));
    }
  }

  lemma AndNothing(a: nat, b: nat)
    ensures a == 0 || b == 0 ==> And(a, b) == 0
  {
  }

  lemma MaskTwice(h: nat, m: nat, p: nat)
    requires h > 0 && m > 0 && p == 2 * m && And(h / 2, m - 1) == (h / 2) % m
    ensures And(h, p - 1) == h % p
  {
    AndOdd(h, m);
    hide And;
    RemainderOfTwice(h, m);
  }

  lemma AndOdd(h: nat, m: nat)
    requires h > 0 && m > 0
    ensures And(h, 2 * m - 1) == h % 2 + 2 * And(h / 2, m - 1)
  {
    var o := 2 * m - 1;
    assert o % 2 == 1 && o / 2 == m - 1;
  }

  lemma RemainderOfTwice(h: nat, m: nat)
    requires m > 0
    ensures h % (2 * m) == h % 2 + 2 * ((h / 2) % m)
  {
    var q, r := (h / 2) / m, (h / 2) % m;
    assert h == (2 * m) * q + (h % 2 + 2 * r);
    RemainderIs(h, 2 * m, q, h % 2 + 2 * r);
  }

  lemma RemainderIs(h: nat, m: nat, q: nat, r: nat)
    requires h == m * q + r && r < m
    ensures h % m == r
  {
    var d := h / m - q;
    assert m * d == r - h % m;
    AtLeastOnce(m, d);
  }

  lemma AtLeastOnce(m: int, d: int)
    requires m > 0
    ensures d > 0 ==> m * d >= m
    ensures d < 0 ==> m * d <= -m
  {
  }

  /** No handle: the end of a chain. */
  const NULL: nat := 0

  /** The chain of handles from `head` along the `nextHash` pointers. */
  ghost predicate Chained(head: nat, chain: seq<nat>, nextHash: map<nat, nat>) {
    && NULL !in chain
    && head == Nth(chain, 0)
    && forall k :: 0 <= k < |chain| ==> chain[k] in nextHash && nextHash[chain[k]] == Nth(chain, k + 1)
  }

  ghost function Nth(chain: seq<nat>, k: nat): nat {
    if k < |chain| then chain[k] else NULL
  }

  /** A place that holds a pointer into a chain: a bucket, or a handle's `next_hash`. */
  datatype Slot = Bucket(index: nat) | After(handle: nat)

  /** The chains hold exactly the contents, each handle in the bucket its hash selects. */
  ghost predicate Files(chains: seq<seq<nat>>, contents: map<Ident, nat>, ident: map<nat, Ident>) {
    && |chains| > 0
    && (forall b, e :: 0 <= b < |chains| && e in chains[b] ==> FiledAt(|chains|, contents, ident, b, e))
    && (forall id :: id in contents ==> contents[id] in chains[id.hash % |chains|])
    && (forall id :: id in contents ==> contents[id] in ident && ident[contents[id]] == id)
  }

  ghost predicate FiledAt(length: nat, contents: map<Ident, nat>, ident: map<nat, Ident>, b: nat, e: nat)
    requires length > 0
  {
    e in ident && ident[e] in contents && contents[ident[e]] == e && ident[e].hash % length == b
  }

  lemma FileIn(chains: seq<seq<nat>>, contents: map<Ident, nat>, ident: map<nat, Ident>, id: Ident, h: nat,
               chain: seq<nat>)
    requires Files(chains, contents, ident) && h in ident && ident[h] == id
    requires forall x :: x in chain <==>
               x == h || (x in chains[id.hash % |chains|] && !(id in contents && x == contents[id]))
    ensures Files(chains[id.hash % |chains| := chain], contents[id := h], ident)
  {
    var b := id.hash % |chains|;
    var chains', contents' := chains[b := chain], contents[id := h];
    forall c, e | 0 <= c < |chains'| && e in chains'[c] ensures FiledAt(|chains|, contents', ident, c, e) {
      if e != h {
        assert FiledAt(|chains|, contents, ident, c, e);
      }
    }
    forall d | d in contents' ensures contents'[d] in chains'[d.hash % |chains|] {
      if d != id { assert contents[d] in chains[d.hash % |chains|]; }
    }
  }

  lemma FileOut(chains: seq<seq<nat>>, contents: map<Ident, nat>, ident: map<nat, Ident>, id: Ident, chain: seq<nat>)
    requires Files(chains, contents, ident) && id in contents
    requires forall x :: x in chain <==> x in chains[id.hash % |chains|] && x != contents[id]
    ensures Files(chains[id.hash % |chains| := chain], contents - {id}, ident)
  {
    var b := id.hash % |chains|;
    var chains', contents' := chains[b := chain], contents - {id};
    forall c, e | 0 <= c < |chains'| && e in chains'[c] ensures FiledAt(|chains|, contents', ident, c, e) {
      assert FiledAt(|chains|, contents, ident, c, e);
    }
  }

  lemma NewIdent(chains: seq<seq<nat>>, contents: map<Ident, nat>, ident: map<nat, Ident>, h: nat, id: Ident)
    requires Files(chains, contents, ident) && h !in ident
    ensures Files(chains, contents, ident[h := id])
    ensures forall b :: 0 <= b < |chains| ==> h !in chains[b]
  {
    forall b, e | 0 <= b < |chains| && e in chains[b] ensures e != h && FiledAt(|chains|, contents, ident[h := id], b, e) {
      assert FiledAt(|chains|, contents, ident, b, e);
    }
  }

  /** A handle is in the chain of its own bucket and in no other. */
  lemma OneBucket(chains: seq<seq<nat>>, contents: map<Ident, nat>, ident: map<nat, Ident>, b: nat, e: nat)
    requires Files(chains, contents, ident) && b < |chains| && e in chains[b]
    ensures FiledAt(|chains|, contents, ident, b, e)
    ensures forall c :: 0 <= c < |chains| && c != b ==> e !in chains[c]
  {
    assert FiledAt(|chains|, contents, ident, b, e);
    assert forall c :: 0 <= c < |chains| && e in chains[c] ==> FiledAt(|chains|, contents, ident, c, e);
  }

  /** Pointing slot `at` of a chain elsewhere replaces the rest of the chain. */
  lemma Splice(head: nat, chain: seq<nat>, next: map<nat, nat>, at: nat, newHead: nat, rest: seq<nat>)
    requires Chained(head, chain, next) && Distinct(chain) && at <= |chain|
    requires Chained(newHead, rest, next)
    requires at > 0 ==> chain[at - 1] !in rest
    ensures at == 0 ==> Chained(newHead, rest, next)
    ensures at > 0 ==> Chained(head, chain[..at] + rest, next[chain[at - 1] := newHead])
  {
    if at > 0 {
      var r, next' := chain[..at] + rest, next[chain[at - 1] := newHead];
      forall k | 0 <= k < |r| ensures r[k] in next' && next'[r[k]] == Nth(r, k + 1) {
        if k < at {
          SplicedFront(head, chain, next, at, newHead, rest, k);
        } else {
          SplicedBack(chain[at - 1], newHead, rest, next, chain[..at], k - at);
        }
      }
      hide Distinct, Nth;
      assert r[0] == chain[0] && Nth(r, 0) == Nth(chain, 0) by { FirstIs(r); FirstIs(chain); }
    }
  }

  lemma FirstIs(chain: seq<nat>)
    requires chain != []
    ensures Nth(chain, 0) == chain[0]
  {
  }

  lemma SplicedFront(head: nat, chain: seq<nat>, next: map<nat, nat>, at: nat, newHead: nat, rest: seq<nat>, k: nat)
    requires Chained(head, chain, next) && Distinct(chain) && k < at <= |chain| && newHead == Nth(rest, 0)
    ensures var r, next' := chain[..at] + rest, next[chain[at - 1] := newHead];
            r[k] in next' && next'[r[k]] == Nth(r, k + 1)
  {
    assert (chain[..at] + rest)[k] == chain[k];
    if k < at - 1 { assert chain[k] != chain[at - 1]; }
  }

  lemma SplicedBack(last: nat, head: nat, rest: seq<nat>, next: map<nat, nat>, front: seq<nat>, k: nat)
    requires Chained(head, rest, next) && last !in rest && k < |rest|
    ensures var r, next', i := front + rest, next[last := head], |front| + k;
            r[i] in next' && next'[r[i]] == Nth(r, i + 1)
  {
    assert (front + rest)[|front| + k] == rest[k] && rest[k] != last;
  }

  lemma Suffix(head: nat, chain: seq<nat>, next: map<nat, nat>, at: nat)
    requires Chained(head, chain, next) && at <= |chain|
    ensures Chained(Nth(chain, at), chain[at..], next)
    ensures Distinct(chain) ==> Distinct(chain[at..])
    ensures Distinct(chain) && at > 0 ==> chain[at - 1] !in chain[at..]
  {
    var s := chain[at..];
    forall k | 0 <= k < |s| ensures s[k] in next && next[s[k]] == Nth(s, k + 1) {
      assert s[k] == chain[at + k];
    }
  }

  lemma Push(head: nat, chain: seq<nat>, next: map<nat, nat>, h: nat)
    requires Chained(head, chain, next) && h !in chain && h != NULL
    ensures Chained(h, [h] + chain, next[h := head])
    ensures Distinct(chain) ==> Distinct([h] + chain)
  {
    var s, next' := [h] + chain, next[h := head];
    forall k | 0 <= k < |s| ensures s[k] in next' && next'[s[k]] == Nth(s, k + 1) {
      if k > 0 { assert s[k] == chain[k - 1]; }
    }
  }

  lemma Untouched(head: nat, chain: seq<nat>, next: map<nat, nat>, e: nat, to: nat)
    requires Chained(head, chain, next) && e !in chain
    ensures Chained(head, chain, next[e := to])
  {
  }

  ghost predicate AllChained(heads: seq<nat>, chains: seq<seq<nat>>, nextHash: map<nat, nat>)
    requires |heads| == |chains|
  {
    forall b :: 0 <= b < |chains| ==> Chained(heads[b], chains[b], nextHash) && Distinct(chains[b])
  }

  ghost function SlotOf(b: nat, chain: seq<nat>, at: nat): Slot
    requires at <= |chain|
  {
    if at == 0 then Bucket(b) else After(chain[at - 1])
  }

  function BucketsSet(buckets: seq<nat>, slot: Slot, h: nat): (r: seq<nat>)
    requires slot.Bucket? ==> slot.index < |buckets|
    ensures |r| == |buckets|
  {
    if slot.Bucket? then buckets[slot.index := h] else buckets
  }

  function NextSet(nextHash: map<nat, nat>, slot: Slot, h: nat): map<nat, nat> {
    if slot.After? then nextHash[slot.handle := h] else nextHash
  }

  /** Pointing one slot of the table elsewhere replaces the rest of one chain. */
  lemma SpliceTable(heads: seq<nat>, chains: seq<seq<nat>>, next: map<nat, nat>, b: nat, at: nat,
                    newHead: nat, rest: seq<nat>)
    requires |heads| == |chains| && AllChained(heads, chains, next)
    requires b < |chains| && at <= |chains[b]| && Chained(newHead, rest, next)
    requires Distinct(chains[b][..at] + rest)
    requires at > 0 ==> forall c :: 0 <= c < |chains| && c != b ==> chains[b][at - 1] !in chains[c]
    ensures var slot := SlotOf(b, chains[b], at);
            AllChained(BucketsSet(heads, slot, newHead), chains[b := chains[b][..at] + rest], NextSet(next, slot, newHead))
  {
    var slot, chain := SlotOf(b, chains[b], at), chains[b][..at] + rest;
    if at > 0 {
      assert chain[at - 1] == chains[b][at - 1];
      assert chains[b][at - 1] !in rest by {
        assert forall k :: 0 <= k < |rest| ==> rest[k] == chain[at + k];
      }
    }
    Splice(heads[b], chains[b], next, at, newHead, rest);
    assert at == 0 ==> chain == rest;
    var heads', chains', next' := BucketsSet(heads, slot, newHead), chains[b := chain], NextSet(next, slot, newHead);
    forall c | 0 <= c < |chains'| ensures Chained(heads'[c], chains'[c], next') && Distinct(chains'[c]) {
      if c != b && at > 0 { Untouched(heads[c], chains[c], next, chains[b][at - 1], newHead); }
    }
  }

  /** A resize under way: the new buckets, what is in them, and what the old ones still hold. */
  datatype Moving = Moving(newHeads: seq<nat>, newChains: seq<seq<nat>>, moved: map<Ident, nat>,
                           heads: seq<nat>, pending: seq<seq<nat>>, left: map<Ident, nat>)
  {
    ghost predicate Sized() {
      |newHeads| == |newChains| > 0 && |heads| == |pending|
    }
  }

  ghost predicate MovingWell(m: Moving, nextHash: map<nat, nat>, ident: map<nat, Ident>, contents: map<Ident, nat>) {
    && m.Sized()
    && AllChained(m.newHeads, m.newChains, nextHash)
    && Files(m.newChains, m.moved, ident)
    && AllChained(m.heads, m.pending, nextHash)
    && (if m.pending == [] then m.left == map[] else Files(m.pending, m.left, ident))
    && m.moved.Keys !! m.left.Keys
    && contents == m.moved + m.left
  }

  /** The handle at the head of old bucket `i` goes to the front of its new bucket. */
  ghost function Move(m: Moving, nextHash: map<nat, nat>, ident: map<nat, Ident>, i: nat): (m': Moving)
    requires m.Sized() && i < |m.heads| && m.pending[i] != [] && m.heads[i] in nextHash && m.heads[i] in ident
    ensures m'.Sized() && |m'.heads| == |m.heads|
  {
    var h := m.heads[i];
    var id := ident[h];
    var b := id.hash % |m.newHeads|;
    Moving(m.newHeads[b := h], m.newChains[b := [h] + m.newChains[b]], m.moved[id := h],
           m.heads[i := nextHash[h]], m.pending[i := m.pending[i][1..]], m.left - {id})
  }

  lemma NothingMoved(m: Moving, nextHash: map<nat, nat>, ident: map<nat, Ident>, contents: map<Ident, nat>)
    requires |m.newHeads| == |m.newChains| > 0 && |m.heads| == |m.pending|
    requires forall b :: 0 <= b < |m.newChains| ==> m.newHeads[b] == NULL && m.newChains[b] == []
    requires AllChained(m.heads, m.pending, nextHash)
    requires if m.pending == [] then contents == map[] else Files(m.pending, contents, ident)
    requires m.moved == map[] && m.left == contents
    ensures MovingWell(m, nextHash, ident, contents) && m.Sized()
  {
    assert contents == map[] + contents;
  }

  lemma HeadOfBucket(m: Moving, nextHash: map<nat, nat>, ident: map<nat, Ident>, contents: map<Ident, nat>, i: nat)
    requires MovingWell(m, nextHash, ident, contents) && i < |m.heads| && m.heads[i] != NULL
    ensures m.pending[i] != [] && m.pending[i][0] == m.heads[i]
    ensures FiledAt(|m.pending|, m.left, ident, i, m.heads[i]) && m.heads[i] in nextHash
    ensures forall b :: 0 <= b < |m.newChains| ==> m.heads[i] !in m.newChains[b]
    ensures forall b :: 0 <= b < |m.pending| && b != i ==> m.heads[i] !in m.pending[b]
  {
    var h := m.heads[i];
    assert Chained(h, m.pending[i], nextHash);
    assert h == m.pending[i][0];
    OneBucket(m.pending, m.left, ident, i, h);
    forall b | 0 <= b < |m.newChains| ensures h !in m.newChains[b] {
      assert h in m.newChains[b] ==> FiledAt(|m.newChains|, m.moved, ident, b, h);
    }
  }

  lemma MoveKeepsChains(heads: seq<nat>, chains: seq<seq<nat>>, next: map<nat, nat>, b: nat, h: nat)
    requires |heads| == |chains| && AllChained(heads, chains, next) && b < |chains| && h != NULL
    requires forall c :: 0 <= c < |chains| ==> h !in chains[c]
    ensures AllChained(heads[b := h], chains[b := [h] + chains[b]], next[h := heads[b]])
  {
    Push(heads[b], chains[b], next, h);
    var heads', chains', next' := heads[b := h], chains[b := [h] + chains[b]], next[h := heads[b]];
    forall c | 0 <= c < |chains'| ensures Chained(heads'[c], chains'[c], next') && Distinct(chains'[c]) {
      if c != b { Untouched(heads[c], chains[c], next, h, heads[b]); }
    }
  }

  lemma PopKeepsChains(heads: seq<nat>, chains: seq<seq<nat>>, next: map<nat, nat>, i: nat, to: nat)
    requires |heads| == |chains| && AllChained(heads, chains, next) && i < |chains| && chains[i] != []
    requires forall c :: 0 <= c < |chains| && c != i ==> heads[i] !in chains[c]
    ensures heads[i] in next
    ensures AllChained(heads[i := next[heads[i]]], chains[i := chains[i][1..]], next[heads[i] := to])
  {
    var h := heads[i];
    assert Chained(h, chains[i], next) && Distinct(chains[i]);
    Suffix(h, chains[i], next, 1);
    var heads', chains', next' := heads[i := next[h]], chains[i := chains[i][1..]], next[h := to];
    forall c | 0 <= c < |chains'| ensures Chained(heads'[c], chains'[c], next') && Distinct(chains'[c]) {
      Untouched(heads'[c], chains'[c], next, h, to);
    }
  }

  lemma OneMore<K, V>(m: map<K, V>, k: K, v: V)
    ensures |m[k := v]| == if k in m then |m| else |m| + 1
  {
    assert m[k := v].Keys == m.Keys + {k};
    assert |m[k := v].Keys| == |m[k := v]|;
  }

  lemma OneLess<K, V>(m: map<K, V>, k: K)
    requires k in m
    ensures |m - {k}| == |m| - 1
  {
    assert (m - {k}).Keys == m.Keys - {k};
    assert |(m - {k}).Keys| == |m - {k}|;
  }

  lemma Transfer(moved: map<Ident, nat>, left: map<Ident, nat>, id: Ident)
    requires moved.Keys !! left.Keys && id in left
    ensures moved[id := left[id]].Keys !! (left - {id}).Keys
    ensures moved[id := left[id]] + (left - {id}) == moved + left
  {
    assert moved[id := left[id]].Keys == moved.Keys + {id};
    assert (left - {id}).Keys == left.Keys - {id};
  }

  lemma MoveKeepsWell(m: Moving, nextHash: map<nat, nat>, ident: map<nat, Ident>, contents: map<Ident, nat>, i: nat)
    requires MovingWell(m, nextHash, ident, contents) && i < |m.heads| && m.heads[i] != NULL
    ensures m.Sized() && m.pending[i] != [] && m.heads[i] in nextHash && m.heads[i] in ident
    ensures var h := m.heads[i];
            var m' := Move(m, nextHash, ident, i);
            && MovingWell(m', nextHash[h := m.newHeads[ident[h].hash % |m.newHeads|]], ident, contents)
            && |m'.moved| == |m.moved| + 1
  {
    HeadOfBucket(m, nextHash, ident, contents, i);
    hide Chained, AllChained, Distinct, Files;
    var h := m.heads[i];
    Transfer(m.moved, m.left, ident[h]);
    OneMore(m.moved, ident[h], h);
    MoveKeepsChains(m.newHeads, m.newChains, nextHash, ident[h].hash % |m.newHeads|, h);
    PopKeepsChains(m.heads, m.pending, nextHash, i, m.newHeads[ident[h].hash % |m.newHeads|]);
    MoveKeepsFiles(m, nextHash, ident, contents, i);
  }

  lemma MoveKeepsFiles(m: Moving, nextHash: map<nat, nat>, ident: map<nat, Ident>, contents: map<Ident, nat>, i: nat)
    requires MovingWell(m, nextHash, ident, contents) && i < |m.heads| && m.heads[i] != NULL
    requires m.pending[i] != [] && m.heads[i] in nextHash && m.heads[i] in ident
    ensures var m' := Move(m, nextHash, ident, i);
            Files(m'.newChains, m'.moved, ident) && Files(m'.pending, m'.left, ident)
  {
    HeadOfBucket(m, nextHash, ident, contents, i);
    hide Chained, AllChained, Distinct, Files;
    var id, m' := ident[m.heads[i]], Move(m, nextHash, ident, i);
    FileIn(m.newChains, m.moved, ident, id, m.heads[i], m'.newChains[id.hash % |m.newHeads|]);
    PopMembers(m.heads, m.pending, nextHash, i);
    FileOut(m.pending, m.left, ident, id, m'.pending[i]);
  }

  lemma PopMembers(heads: seq<nat>, chains: seq<seq<nat>>, next: map<nat, nat>, i: nat)
    requires |heads| == |chains| && AllChained(heads, chains, next) && i < |chains| && chains[i] != []
    ensures forall x :: x in chains[i][1..] <==> x in chains[i] && x != heads[i]
  {
    assert Chained(heads[i], chains[i], next) && Distinct(chains[i]);
    assert chains[i] == [chains[i][0]] + chains[i][1..];
  }

  /** Buckets before `i` are empty, bucket `i` now begins at `h`, and later ones are as they were. */
  ghost predicate Sweeping(m: Moving, buckets: seq<nat>, i: nat, h: nat) {
    && |m.heads| == |buckets| && i < |buckets|
    && m.heads[i] == h
    && (forall b :: i < b < |buckets| ==> m.heads[b] == buckets[b])
    && forall b :: 0 <= b < i ==> m.heads[b] == NULL
  }

  /** A resize that has emptied the buckets before `i` and has come to `h` in that one. */
  ghost predicate Resizing(m: Moving, newList: seq<nat>, buckets: seq<nat>, nextHash: map<nat, nat>, ident: map<nat, Ident>,
                           contents: map<Ident, nat>, i: nat, h: nat, count: nat) {
    MovingWell(m, nextHash, ident, contents) && m.newHeads == newList && Sweeping(m, buckets, i, h) && count == |m.moved|
  }

  ghost function Remaining(m: Moving, i: nat): nat { if i < |m.pending| then |m.pending[i]| else 0 }

  lemma CanMove(m: Moving, newList: seq<nat>, buckets: seq<nat>, nextHash: map<nat, nat>, ident: map<nat, Ident>,
                contents: map<Ident, nat>, i: nat, h: nat, count: nat)
    requires Resizing(m, newList, buckets, nextHash, ident, contents, i, h, count) && h != NULL
    ensures |newList| > 0 && h in nextHash && h in ident
    ensures m.Sized() && i < |m.heads| && m.pending[i] != [] && m.heads[i] == h
  {
    MoveKeepsWell(m, nextHash, ident, contents, i);
  }

  lemma ResizeOn(m: Moving, newList: seq<nat>, buckets: seq<nat>, nextHash: map<nat, nat>, ident: map<nat, Ident>,
                 contents: map<Ident, nat>, i: nat, h: nat, count: nat)
    requires Resizing(m, newList, buckets, nextHash, ident, contents, i, h, count) && h != NULL
    ensures |newList| > 0 && h in nextHash && h in ident
    ensures m.Sized() && i < |m.heads| && m.pending[i] != [] && m.heads[i] == h
    ensures var b, m' := ident[h].hash % |newList|, Move(m, nextHash, ident, i);
            && Resizing(m', newList[b := h], buckets, nextHash[h := newList[b]], ident, contents, i, nextHash[h], count + 1)
            && Remaining(m', i) < Remaining(m, i)
  {
    hide MovingWell, Files, AllChained, Chained, Distinct;
    CanMove(m, newList, buckets, nextHash, ident, contents, i, h, count);
    MoveKeepsWell(m, nextHash, ident, contents, i);
  }

  ghost predicate Resized(m: Moving, newList: seq<nat>, nextHash: map<nat, nat>, ident: map<nat, Ident>,
                          contents: map<Ident, nat>, count: nat) {
    && MovingWell(m, nextHash, ident, contents) && m.newHeads == newList && count == |m.moved|
    && forall b :: 0 <= b < |m.heads| ==> m.heads[b] == NULL
  }

  lemma ResizeStarts(m: Moving, newList: seq<nat>, buckets: seq<nat>, nextHash: map<nat, nat>, ident: map<nat, Ident>,
                     contents: map<Ident, nat>)
    requires |m.newHeads| == |m.newChains| > 0 && |m.heads| == |m.pending|
    requires forall b :: 0 <= b < |m.newChains| ==> m.newHeads[b] == NULL && m.newChains[b] == []
    requires AllChained(m.heads, m.pending, nextHash)
    requires if m.pending == [] then contents == map[] else Files(m.pending, contents, ident)
    requires m.left == contents && m.heads == buckets && m.newHeads == newList && m.moved == map[]
    ensures if buckets == [] then Resized(m, newList, nextHash, ident, contents, 0)
            else Resizing(m, newList, buckets, nextHash, ident, contents, 0, buckets[0], 0)
  {
    hide MovingWell, AllChained, Files;
    NothingMoved(m, nextHash, ident, contents);
  }

  lemma NextBucket(m: Moving, newList: seq<nat>, buckets: seq<nat>, nextHash: map<nat, nat>, ident: map<nat, Ident>,
                   contents: map<Ident, nat>, i: nat, count: nat)
    requires Resizing(m, newList, buckets, nextHash, ident, contents, i, NULL, count)
    ensures i < |buckets|
    ensures i + 1 < |buckets| ==> Resizing(m, newList, buckets, nextHash, ident, contents, i + 1, buckets[i + 1], count)
    ensures i + 1 == |buckets| ==> Resized(m, newList, nextHash, ident, contents, count)
  {
    hide MovingWell;
  }

  lemma AllMoved(m: Moving, newList: seq<nat>, nextHash: map<nat, nat>, ident: map<nat, Ident>, contents: map<Ident, nat>,
                 count: nat)
    requires Resized(m, newList, nextHash, ident, contents, count)
    ensures m.moved == contents && count == |contents|
    ensures |newList| == |m.newChains| && AllChained(newList, m.newChains, nextHash) && Files(m.newChains, contents, ident)
  {
    hide Files, Chained, Distinct;
    EmptyHeads(m.heads, m.pending, nextHash);
    hide AllChained;
    if m.pending != [] { NothingLeft(m.pending, m.left, ident); }
    NothingAdded(m.moved);
  }

  lemma NothingAdded(moved: map<Ident, nat>)
    ensures moved + map[] == moved
  {
  }

  lemma EmptyHeads(heads: seq<nat>, chains: seq<seq<nat>>, nextHash: map<nat, nat>)
    requires |heads| == |chains| && AllChained(heads, chains, nextHash) && forall b :: 0 <= b < |heads| ==> heads[b] == NULL
    ensures forall b :: 0 <= b < |chains| ==> chains[b] == []
  {
    forall b | 0 <= b < |chains| ensures chains[b] == [] {
      assert Chained(NULL, chains[b], nextHash);
    }
  }

  lemma NothingLeft(chains: seq<seq<nat>>, contents: map<Ident, nat>, ident: map<nat, Ident>)
    requires Files(chains, contents, ident) && forall b :: 0 <= b < |chains| ==> chains[b] == []
    ensures contents == map[]
  {
    assert contents.Keys == {};
  }

  class HandleTable {
    var buckets: seq<nat>
    var elems: nat
    var nextHash: map<nat, nat>
    var ident: map<nat, Ident>
    ghost var chains: seq<seq<nat>>
    /** What the table holds. */
    ghost var contents: map<Ident, nat>

    ghost predicate Valid()
      reads this
    {
      && IsPower(|buckets|)
      && |chains| == |buckets|
      && AllChained(buckets, chains, nextHash)
      && Files(chains, contents, ident)
      && elems == |contents|
    }

    constructor ()
      ensures Valid() && contents == map[] && ident == map[]
    {
      buckets, elems, nextHash, ident, chains, contents := [], 0, map[], map[], [], map[];
      new;
      Resize();
    }

    function Read(slot: Slot): nat
      requires slot.Bucket? ==> slot.index < |buckets|
      requires slot.After? ==> slot.handle in nextHash
      reads this`buckets, this`nextHash
    {
      match slot
      case Bucket(i) => buckets[i]
      case After(h) => nextHash[h]
    }

    /** The slot that points at the handle filed under `id`, or at the end of its bucket's chain. */
    method FindPointer(id: Ident) returns (slot: Slot, ghost b: nat, ghost at: nat)
      requires Valid()
      ensures |chains| == |buckets| > 0 && b == id.hash % |buckets| && at <= |chains[b]|
      ensures slot == SlotOf(b, chains[b], at)
      ensures slot.Bucket? ==> slot.index < |buckets|
      ensures slot.After? ==> slot.handle in nextHash
      ensures Read(slot) == if id in contents then contents[id] else NULL
      ensures id in contents <==> at < |chains[b]|
      ensures id in contents ==> chains[b][at] == contents[id] && contents[id] != NULL
    {
      hide Valid, Walking, And;
      Masked(id);
      slot, b, at := Bucket(And(id.hash, |buckets| - 1)), id.hash % |buckets|, 0;
      WalkStarts(id);
      var e := Read(slot);
      while e != NULL && ident[e] != id
        invariant |chains| == |buckets| > 0 && b == id.hash % |buckets|
        invariant slot.Bucket? ==> slot.index < |buckets|
        invariant slot.After? ==> slot.handle in nextHash
        invariant Walking(id, slot, b, at, e)
        invariant e != NULL ==> e in ident && e in nextHash && at < |chains[b]|
        decreases if b < |chains| then |chains[b]| - at else 0
      {
        WalksOn(id, slot, b, at, e);
        slot, at := After(e), at + 1;
        e := nextHash[e];
      }
      WalkEnds(id, slot, b, at, e);
    }

    /** The first `at` handles of the bucket have other names, and the slot holds the pointer to the next. */
    ghost predicate Walking(id: Ident, slot: Slot, b: nat, at: nat, e: nat)
      reads this
    {
      && |chains| == |buckets| > 0 && b < |chains| && at <= |chains[b]|
      && slot == SlotOf(b, chains[b], at)
      && (slot.After? ==> slot.handle in nextHash)
      && e == Read(slot) && e == Nth(chains[b], at)
      && forall k :: 0 <= k < at ==> chains[b][k] in ident && ident[chains[b][k]] != id
    }

    lemma Masked(id: Ident)
      requires Valid()
      ensures |chains| == |buckets| > 0 && And(id.hash, |buckets| - 1) == id.hash % |buckets|
    {
      hide Files, AllChained, And, Pow2;
      var k: nat :| |buckets| == Pow2(k);
      MaskIsRemainder(id.hash, k);
    }

    lemma PlaceIn(b: nat, at: nat)
      requires Valid() && b < |chains| && at < |chains[b]|
      ensures var e := chains[b][at];
              e != NULL && e in nextHash && nextHash[e] == Nth(chains[b], at + 1) && FiledAt(|buckets|, contents, ident, b, e)
    {
      assert Chained(buckets[b], chains[b], nextHash);
    }

    lemma WalkStarts(id: Ident)
      requires Valid() && |chains| == |buckets| > 0
      ensures var b := id.hash % |buckets|;
              && Walking(id, Bucket(b), b, 0, buckets[b])
              && (buckets[b] != NULL ==> buckets[b] in ident && buckets[b] in nextHash && 0 < |chains[b]|)
    {
      hide IsPower;
      var b := id.hash % |buckets|;
      assert Chained(buckets[b], chains[b], nextHash);
      if |chains[b]| > 0 { PlaceIn(b, 0); }
    }

    lemma WalksOn(id: Ident, slot: Slot, b: nat, at: nat, e: nat)
      requires Valid() && Walking(id, slot, b, at, e) && e != NULL && e in ident && ident[e] != id
      ensures at < |chains[b]| && e in nextHash && Walking(id, After(e), b, at + 1, nextHash[e])
      ensures nextHash[e] != NULL ==> nextHash[e] in ident && nextHash[e] in nextHash && at + 1 < |chains[b]|
    {
      hide IsPower, Files, AllChained;
      PlaceIn(b, at);
      if at + 1 < |chains[b]| { PlaceIn(b, at + 1); }
    }

    /** The walk ends at the handle filed under the name, or at the end of the chain if there is none. */
    lemma WalkEnds(id: Ident, slot: Slot, b: nat, at: nat, e: nat)
      requires Valid() && Walking(id, slot, b, at, e) && b == id.hash % |buckets|
      requires e != NULL ==> e in ident && ident[e] == id
      ensures at <= |chains[b]| && slot == SlotOf(b, chains[b], at)
      ensures e == Read(slot) && e == if id in contents then contents[id] else NULL
      ensures id in contents <==> at < |chains[b]|
      ensures id in contents ==> chains[b][at] == contents[id] && contents[id] != NULL
    {
      hide IsPower, AllChained;
      assert id in contents ==> contents[id] in chains[b] && ident[contents[id]] == id;
      if at < |chains[b]| { PlaceIn(b, at); }
    }

    method Lookup(id: Ident) returns (e: nat)
      requires Valid()
      ensures e == if id in contents then contents[id] else NULL
      ensures id in contents ==> e != NULL
    {
      ghost var b, at;
      var slot;
      slot, b, at := FindPointer(id);
      e := Read(slot);
    }

    method Write(slot: Slot, h: nat)
      requires slot.Bucket? ==> slot.index < |buckets|
      modifies this`buckets, this`nextHash
      ensures buckets == BucketsSet(old(buckets), slot, h) && nextHash == NextSet(old(nextHash), slot, h)
    {
      match slot
      case Bucket(i) => buckets := buckets[i := h];
      case After(e) => nextHash := nextHash[e := h];
    }

    method Remove(id: Ident) returns (result: nat)
      requires Valid()
      modifies this
      ensures Valid() && ident == old(ident)
      ensures result == if id in old(contents) then old(contents)[id] else NULL
      ensures contents == old(contents) - {id}
      ensures id in old(contents) ==> result != NULL
    {
      hide Files, AllChained, Distinct, IsPower;
      ghost var b, at;
      var slot;
      slot, b, at := FindPointer(id);
      result := Read(slot);
      if result != NULL {
        Detached(b, at, id);
        Write(slot, nextHash[result]);
        elems := elems - 1;
        chains := chains[b := chains[b][..at] + chains[b][at + 1..]];
        contents := contents - {id};
      } else {
        assert contents - {id} == contents;
      }
    }

    lemma Detached(b: nat, at: nat, id: Ident)
      requires Valid() && id in contents && b == id.hash % |buckets| && at < |chains[b]| && chains[b][at] == contents[id]
      ensures |contents - {id}| == |contents| - 1
      ensures chains[b][at] in nextHash
      ensures var n, slot, rest := nextHash[chains[b][at]], SlotOf(b, chains[b], at), chains[b][at + 1..];
              && Files(chains[b := chains[b][..at] + rest], contents - {id}, ident)
              && AllChained(BucketsSet(buckets, slot, n), chains[b := chains[b][..at] + rest], NextSet(nextHash, slot, n))
    {
      OneLess(contents, id);
      Suffix(buckets[b], chains[b], nextHash, at + 1);
      CutAt(chains[b], at);
      if at > 0 { OneBucket(chains, contents, ident, b, chains[b][at - 1]); }
      var chain := chains[b][..at] + chains[b][at + 1..];
      FileOut(chains, contents, ident, id, chain);
      SpliceTable(buckets, chains, nextHash, b, at, nextHash[chains[b][at]], chains[b][at + 1..]);
    }

    /** The rest of a chain once `h` is put at place `at`, over the handle there if there is one. */
    ghost function Beyond(chain: seq<nat>, at: nat): seq<nat>
      requires at <= |chain|
    {
      if at < |chain| then chain[at + 1..] else []
    }

    method Insert(h: nat, id: Ident) returns (old_: nat)
      requires Valid() && h != NULL && h !in ident
      modifies this
      ensures Valid() && ident == old(ident)[h := id]
      ensures old_ == if id in old(contents) then old(contents)[id] else NULL
      ensures id in old(contents) ==> old_ != NULL
      ensures contents == old(contents)[id := h]
    {
      hide Files, AllChained, Distinct, IsPower, SlotOf, BucketsSet, NextSet;
      NewIdent(chains, contents, ident, h, id);
      ident := ident[h := id];
      ghost var b, at;
      var slot;
      slot, b, at := FindPointer(id);
      old_ := Read(slot);
      Attached(b, at, id, h);
      nextHash := nextHash[h := if old_ == NULL then NULL else nextHash[old_]];
      Write(slot, h);
      chains := chains[b := chains[b][..at] + ([h] + Beyond(chains[b], at))];
      contents := contents[id := h];
      if old_ == NULL {
        elems := elems + 1;
        if elems > |buckets| {
          Resize();
        }
      }
    }

    lemma Attached(b: nat, at: nat, id: Ident, h: nat)
      requires Valid() && h != NULL && h in ident && ident[h] == id && forall c :: 0 <= c < |chains| ==> h !in chains[c]
      requires |buckets| > 0 && b == id.hash % |buckets| && at <= |chains[b]|
      requires id in contents <==> at < |chains[b]|
      requires id in contents ==> chains[b][at] == contents[id] && contents[id] != NULL
      ensures |contents[id := h]| == if id in contents then |contents| else |contents| + 1
      ensures at < |chains[b]| ==> chains[b][at] in nextHash
      ensures var next := if at < |chains[b]| then nextHash[chains[b][at]] else NULL;
              var slot, chain := SlotOf(b, chains[b], at), chains[b][..at] + ([h] + Beyond(chains[b], at));
              && Files(chains[b := chain], contents[id := h], ident)
              && AllChained(BucketsSet(buckets, slot, h), chains[b := chain], NextSet(nextHash[h := next], slot, h))
    {
      OneMore(contents, id, h);
      var chain, rest := chains[b], Beyond(chains[b], at);
      var next := if at < |chain| then nextHash[chain[at]] else NULL;
      PutInChain(chain, at, h);
      Suffix(buckets[b], chain, nextHash, if at < |chain| then at + 1 else at);
      Push(next, rest, nextHash, h);
      if at > 0 { OneBucket(chains, contents, ident, b, chain[at - 1]); }
      FileIn(chains, contents, ident, id, h, chain[..at] + ([h] + rest));
      forall c | 0 <= c < |chains| ensures Chained(buckets[c], chains[c], nextHash[h := next]) && Distinct(chains[c]) {
        Untouched(buckets[c], chains[c], nextHash, h, next);
      }
      SpliceTable(buckets, chains, nextHash[h := next], b, at, h, [h] + rest);
    }

    lemma PutInChain(chain: seq<nat>, at: nat, h: nat)
      requires Distinct(chain) && at <= |chain| && h !in chain
      ensures var r := chain[..at] + ([h] + Beyond(chain, at));
              Distinct(r) && forall x :: x in r <==> x == h || (x in chain && !(at < |chain| && x == chain[at]))
    {
      if at < |chain| {
        assert chain[..at] + ([h] + Beyond(chain, at)) == chain[at := h];
        CutAt(chain, at);
        forall x | x in chain && x != chain[at] ensures x in chain[at := h] {
          var k :| 0 <= k < |chain| && chain[k] == x;
          assert chain[at := h][k] == x;
        }
      } else {
        assert chain[..at] + ([h] + Beyond(chain, at)) == chain + [h];
      }
    }

    method NewLength() returns (n: nat, ghost k: nat)
      ensures n == Pow2(k) && n >= 4 && n >= elems
      ensures n > 4 ==> n < 2 * elems
    {
      n, k := 4, 2;
      assert Pow2(2) == 4;
      while n < elems
        invariant n == Pow2(k) && n >= 4
        invariant n > 4 ==> n < 2 * elems
      {
        n, k := n * 2, k + 1;
      }
    }

    /** Moves the handles of one bucket, each to the front of its new chain. */
    method MoveBucket(list: seq<nat>, i: nat, before: nat, ghost k: nat, ghost m: Moving)
      returns (newList: seq<nat>, count: nat, ghost m': Moving)
      requires i < |buckets| && |list| == Pow2(k)
      requires Resizing(m, list, buckets, nextHash, ident, contents, i, buckets[i], before)
      modifies this`nextHash
      ensures |newList| == |list| && Resizing(m', newList, buckets, nextHash, ident, contents, i, NULL, count)
    {
      hide Resizing, And, Pow2, Move, Remaining, Moving.Sized;
      newList, count, m' := list, before, m;
      var h: nat := buckets[i];
      while h != NULL
        invariant |newList| == |list|
        invariant Resizing(m', newList, buckets, nextHash, ident, contents, i, h, count)
        decreases Remaining(m', i)
      {
        ResizeOn(m', newList, buckets, nextHash, ident, contents, i, h, count);
        var next, hash := nextHash[h], ident[h].hash;
        MaskIsRemainder(hash, k);
        var b := And(hash, |newList| - 1);
        m' := Move(m', nextHash, ident, i);
        nextHash := nextHash[h := newList[b]];
        newList := newList[b := h];
        h, count := next, count + 1;
      }
    }

    method Resize()
      requires |chains| == |buckets| && AllChained(buckets, chains, nextHash)
      requires if buckets == [] then contents == map[] else Files(chains, contents, ident)
      requires elems == |contents|
      modifies this`buckets, this`nextHash, this`chains
      ensures Valid() && |buckets| >= 4 && |buckets| >= elems
    {
      hide Files, AllChained, MovingWell, Sweeping, Resizing, Resized, Pow2, Moving.Sized;
      ghost var k;
      var newLength;
      newLength, k := NewLength();
      var newList: seq<nat> := seq(newLength, _ => NULL);
      ghost var moving := Moving(newList, seq(newLength, _ => []), map[], buckets, chains, contents);
      var count, i := 0, 0;
      ResizeStarts(moving, newList, buckets, nextHash, ident, contents);
      while i < |buckets|
        invariant i <= |buckets| && buckets == old(buckets) && |newList| == newLength
        invariant if i < |buckets| then Resizing(moving, newList, buckets, nextHash, ident, contents, i, buckets[i], count)
                  else Resized(moving, newList, nextHash, ident, contents, count)
      {
        newList, count, moving := MoveBucket(newList, i, count, k, moving);
        NextBucket(moving, newList, buckets, nextHash, ident, contents, i, count);
        i := i + 1;
      }
      AllMoved(moving, newList, nextHash, ident, contents, count);
      assert elems == count;
      buckets, chains := newList, moving.newChains;
    }
  }

  // ---------------------------------------------------------------------------
  // The cache
  // ---------------------------------------------------------------------------

  /**
   A cache's whole state: the cached handles oldest first, what the table files
   them under, every handle's name and charge, the reference counts of handles not
   yet freed, the handles freed in order, and the references clients hold.
   */
  datatype Book = Book(capacity: nat, order: seq<nat>, contents: map<Ident, nat>,
                       ident: map<nat, Ident>, charge: map<nat, nat>, refs: map<nat, nat>,
                       freed: seq<nat>, usage: int, count: nat, held: multiset<nat>)

  /** The total charge of the handles up to `n` that are not yet freed. */
  ghost function Unfreed(n: nat, refs: map<nat, nat>, charge: map<nat, nat>): nat {
    if n == 0 then 0
    else Unfreed(n - 1, refs, charge) + (if n in refs && n in charge then charge[n] else 0)
  }

  /** The list and the table hold the same handles, each under its own name. */
  ghost predicate SameEntries(order: seq<nat>, contents: map<Ident, nat>, ident: map<nat, Ident>) {
    && Distinct(order)
    && (forall e :: e in order ==> Named(contents, ident, e))
    && (forall id :: id in contents ==> contents[id] in order && contents[id] in ident && ident[contents[id]] == id)
  }

  ghost predicate Named(contents: map<Ident, nat>, ident: map<nat, Ident>, e: nat) {
    e in ident && ident[e] in contents && contents[ident[e]] == e
  }

  ghost function Cached(order: seq<nat>, e: nat): nat {
    if e in order then 1 else 0
  }

  /** A count is the references clients hold, plus one if the handle is cached. */
  ghost predicate RefsCount(order: seq<nat>, refs: map<nat, nat>, held: multiset<nat>) {
    && (forall e :: e in refs ==> refs[e] == held[e] + Cached(order, e))
    && (forall e :: e in refs <==> held[e] + Cached(order, e) > 0)
  }

  /** Handles are numbered 1 to `count`; each is either still referenced or freed, once. */
  ghost predicate FreedOnce(count: nat, refs: map<nat, nat>, freed: seq<nat>) {
    && Distinct(freed)
    && (forall e :: e in freed ==> e !in refs)
    && (forall e :: e in refs || e in freed <==> 1 <= e <= count)
  }

  ghost predicate Numbered<V>(count: nat, field: map<nat, V>) {
    forall e :: e in field <==> 1 <= e <= count
  }

  ghost predicate Consistent(b: Book) {
    && SameEntries(b.order, b.contents, b.ident)
    && RefsCount(b.order, b.refs, b.held)
    && FreedOnce(b.count, b.refs, b.freed)
    && Numbered(b.count, b.ident) && Numbered(b.count, b.charge)
    && b.usage == Unfreed(b.count, b.refs, b.charge)
  }

  /** Unref. */
  ghost function Unreferenced(b: Book, e: nat): Book
    requires e in b.refs && b.refs[e] > 0 && e in b.charge
  {
    if b.refs[e] == 1 then b.(refs := b.refs - {e}, usage := b.usage - b.charge[e], freed := b.freed + [e])
    else b.(refs := b.refs[e := b.refs[e] - 1])
  }

  /** A handle leaves the list and the table, and the cache gives up its reference. */
  ghost function Dropped(b: Book, e: nat): Book
    requires Consistent(b) && e in b.order
  {
    RefsOfCached(b, e);
    Unreferenced(b.(order := Without(b.order, e), contents := b.contents - {b.ident[e]}), e)
  }

  lemma RefsOfCached(b: Book, e: nat)
    requires Consistent(b) && e in b.order
    ensures e in b.refs && b.refs[e] > 0 && e in b.charge && e in b.ident && 1 <= e <= b.count && e !in b.freed
    ensures b.ident[e] in b.contents && b.contents[b.ident[e]] == e
  {
    assert Cached(b.order, e) == 1 && Named(b.contents, b.ident, e);
  }

  ghost function Added(b: Book, id: Ident, charge: nat): Book {
    var e := b.count + 1;
    b.(order := b.order + [e], contents := b.contents[id := e], ident := b.ident[e := id],
       charge := b.charge[e := charge], refs := b.refs[e := 2], usage := b.usage + charge,
       count := e, held := b.held + multiset{e})
  }

  lemma UnfreedWithout(n: nat, refs: map<nat, nat>, charge: map<nat, nat>, e: nat)
    requires e in refs && e in charge && 1 <= e <= n
    ensures Unfreed(n, refs - {e}, charge) == Unfreed(n, refs, charge) - charge[e]
  {
    if e < n {
      UnfreedWithout(n - 1, refs, charge, e);
    } else {
      UnfreedSame(n - 1, refs, refs - {e}, charge, charge);
    }
  }

  lemma {:induction false} UnfreedSame(n: nat, refs: map<nat, nat>, refs': map<nat, nat>,
                                       charge: map<nat, nat>, charge': map<nat, nat>)
    requires forall e :: 1 <= e <= n ==> (e in refs <==> e in refs')
    requires forall e :: 1 <= e <= n && e in charge ==> e in charge' && charge'[e] == charge[e]
    requires forall e :: 1 <= e <= n && e in charge' ==> e in charge
    ensures Unfreed(n, refs, charge) == Unfreed(n, refs', charge')
  {
    if n > 0 {
      UnfreedSame(n - 1, refs, refs', charge, charge');
    }
  }

  lemma NamedStays(contents: map<Ident, nat>, ident: map<nat, Ident>, e: nat, x: nat)
    requires Named(contents, ident, e) && Named(contents, ident, x) && x != e
    ensures Named(contents - {ident[e]}, ident, x)
  {
  }

  lemma ContentsStay(order: seq<nat>, contents: map<Ident, nat>, ident: map<nat, Ident>, e: nat)
    requires SameEntries(order, contents, ident) && Named(contents, ident, e)
    ensures var contents' := contents - {ident[e]};
            forall id :: id in contents' ==>
              contents'[id] in order && contents'[id] != e && contents'[id] in ident && ident[contents'[id]] == id
  {
  }

  lemma DropKeepsEntries(order: seq<nat>, contents: map<Ident, nat>, ident: map<nat, Ident>, e: nat)
    requires SameEntries(order, contents, ident) && e in order
    ensures e in ident
    ensures SameEntries(Without(order, e), contents - {ident[e]}, ident)
  {
    assert Named(contents, ident, e) && e in ident;
    OrderStays(order, contents, ident, e);
    ContentsStay(order, contents, ident, e);
    WithoutMembers(order, e);
    hide Without, Distinct, Named;
  }

  lemma OrderStays(order: seq<nat>, contents: map<Ident, nat>, ident: map<nat, Ident>, e: nat)
    requires SameEntries(order, contents, ident) && Named(contents, ident, e) && e in order
    ensures forall x :: x in Without(order, e) ==> Named(contents - {ident[e]}, ident, x)
  {
    WithoutMembers(order, e);
    hide Without, Distinct, Named;
    forall x | x in Without(order, e) ensures Named(contents - {ident[e]}, ident, x) {
      assert Named(contents, ident, x);
      NamedStays(contents, ident, e, x);
    }
  }

  lemma AddKeepsEntries(order: seq<nat>, contents: map<Ident, nat>, ident: map<nat, Ident>, e: nat, id: Ident)
    requires SameEntries(order, contents, ident) && id !in contents && e !in ident
    ensures SameEntries(order + [e], contents[id := e], ident[e := id])
  {
    assert e !in order;
    forall x | x in order ensures Named(contents[id := e], ident[e := id], x) {
      assert Named(contents, ident, x);
    }
  }

  lemma DropKeepsRefs(order: seq<nat>, refs: map<nat, nat>, held: multiset<nat>, e: nat)
    requires RefsCount(order, refs, held) && Distinct(order) && e in order
    ensures e in refs
    ensures RefsCount(Without(order, e), if refs[e] == 1 then refs - {e} else refs[e := refs[e] - 1], held)
  {
    WithoutMembers(order, e);
    hide Without, Distinct;
    forall x ensures Cached(Without(order, e), x) == if x == e then 0 else Cached(order, x) {}
    assert Cached(order, e) == 1;
  }

  lemma ReleaseKeepsRefs(order: seq<nat>, refs: map<nat, nat>, held: multiset<nat>, e: nat)
    requires RefsCount(order, refs, held) && e in held
    ensures e in refs
    ensures RefsCount(order, if refs[e] == 1 then refs - {e} else refs[e := refs[e] - 1], held - multiset{e})
  {
    assert held[e] + Cached(order, e) > 0;
    hide Cached;
  }

  lemma AddKeepsRefs(order: seq<nat>, refs: map<nat, nat>, held: multiset<nat>, e: nat)
    requires RefsCount(order, refs, held) && e !in refs
    ensures RefsCount(order + [e], refs[e := 2], held + multiset{e})
  {
    assert held[e] + Cached(order, e) == 0;
    forall x ensures Cached(order + [e], x) == if x == e then 1 else Cached(order, x) {}
  }

  lemma UnrefKeepsFreed(b: Book, e: nat)
    requires e in b.refs && b.refs[e] > 0 && e in b.charge && FreedOnce(b.count, b.refs, b.freed)
    requires b.usage == Unfreed(b.count, b.refs, b.charge)
    ensures var u := Unreferenced(b, e);
            FreedOnce(u.count, u.refs, u.freed) && u.usage == Unfreed(u.count, u.refs, u.charge)
  {
    if b.refs[e] == 1 {
      UnfreedWithout(b.count, b.refs, b.charge, e);
    } else {
      UnfreedSame(b.count, b.refs, b.refs[e := b.refs[e] - 1], b.charge, b.charge);
    }
  }

  lemma DropKeepsConsistent(b: Book, e: nat)
    requires Consistent(b) && e in b.order
    ensures Consistent(Dropped(b, e))
  {
    RefsOfCached(b, e);
    DropKeepsEntries(b.order, b.contents, b.ident, e);
    DropKeepsRefs(b.order, b.refs, b.held, e);
    hide SameEntries, RefsCount, Numbered, Unfreed, FreedOnce;
    UnrefKeepsFreed(b.(order := Without(b.order, e), contents := b.contents - {b.ident[e]}), e);
  }

  lemma AddKeepsFreed(b: Book, id: Ident, charge: nat)
    requires FreedOnce(b.count, b.refs, b.freed) && Numbered(b.count, b.charge)
    requires b.usage == Unfreed(b.count, b.refs, b.charge)
    ensures var a := Added(b, id, charge);
            FreedOnce(a.count, a.refs, a.freed) && a.usage == Unfreed(a.count, a.refs, a.charge)
  {
    var a := Added(b, id, charge);
    UnfreedSame(b.count, b.refs, a.refs, b.charge, a.charge);
  }

  lemma AddKeepsConsistent(b: Book, id: Ident, charge: nat)
    requires Consistent(b) && id !in b.contents
    ensures Consistent(Added(b, id, charge))
  {
    hide SameEntries, RefsCount, FreedOnce, Unfreed, Numbered;
    AddKeepsFreed(b, id, charge);
    NewHandle(b);
    AddKeepsNumbered(b.count, b.ident, id);
    AddKeepsNumbered(b.count, b.charge, charge);
    AddKeepsEntries(b.order, b.contents, b.ident, b.count + 1, id);
    AddKeepsRefs(b.order, b.refs, b.held, b.count + 1);
  }

  lemma AddKeepsNumbered<V>(count: nat, field: map<nat, V>, v: V)
    requires Numbered(count, field)
    ensures Numbered(count + 1, field[count + 1 := v])
  {
  }

  lemma NewHandle(b: Book)
    requires Consistent(b)
    ensures b.count + 1 !in b.ident && b.count + 1 !in b.refs && b.count + 1 !in b.order
  {
    hide Distinct, Unfreed, RefsCount;
    assert forall e :: e in b.order ==> Named(b.contents, b.ident, e);
  }

  // The operations ------------------------------------------------------------

  ghost function Inserted(b: Book, id: Ident, charge: nat): Book
    requires Consistent(b)
  {
    CachedIfNamed(b, id);
    var d := if id in b.contents then Dropped(b, b.contents[id]) else b;
    Added(d, id, charge)
  }

  /** Oldest entries go until the charge fits or nothing is left in the cache. */
  ghost function Trimmed(b: Book): (t: Book)
    requires Consistent(b)
    decreases |b.order|
  {
    if b.usage > b.capacity && b.order != [] then
      DropKeepsConsistent(b, b.order[0]);
      Trimmed(Dropped(b, b.order[0]))
    else b
  }

  ghost function LookedUp(b: Book, id: Ident): Book
    requires Consistent(b)
  {
    if id in b.contents then
      var e := b.contents[id];
      RefsOfCached(b, e);
      b.(refs := b.refs[e := b.refs[e] + 1], order := Without(b.order, e) + [e], held := b.held + multiset{e})
    else b
  }

  ghost function Released(b: Book, e: nat): Book
    requires Consistent(b) && e in b.held
  {
    RefsOfHeld(b, e);
    Unreferenced(b.(held := b.held - multiset{e}), e)
  }

  lemma RefsOfHeld(b: Book, e: nat)
    requires Consistent(b) && e in b.held
    ensures e in b.refs && b.refs[e] > 0 && e in b.charge
  {
    assert b.held[e] + Cached(b.order, e) > 0;
  }

  lemma CachedIfNamed(b: Book, id: Ident)
    requires Consistent(b)
    ensures id in b.contents ==> b.contents[id] in b.order
  {
  }

  ghost function Erased(b: Book, id: Ident): Book
    requires Consistent(b)
  {
    if id in b.contents then Dropped(b, b.contents[id]) else b
  }

  lemma InsertKeepsConsistent(b: Book, id: Ident, charge: nat)
    requires Consistent(b)
    ensures Consistent(Inserted(b, id, charge))
    ensures b.freed <= Inserted(b, id, charge).freed
  {
    hide Consistent;
    if id in b.contents {
      CachedUnder(b, id);
      DropKeepsConsistent(b, b.contents[id]);
      AddKeepsConsistent(Dropped(b, b.contents[id]), id, charge);
    } else {
      AddKeepsConsistent(b, id, charge);
    }
  }

  lemma CachedUnder(b: Book, id: Ident)
    requires Consistent(b) && id in b.contents
    ensures b.contents[id] in b.order && b.contents[id] in b.ident && b.ident[b.contents[id]] == id
  {
  }

  /**
   `t` is `b` less its oldest entries, as few as bring the usage within the capacity
   or else all of them; what clients hold stays.
   */
  ghost predicate IsTrimmed(b: Book, t: Book) {
    && |t.order| <= |b.order|
    && t.order == b.order[|b.order| - |t.order|..]
    && (t.usage <= t.capacity || t.order == [])
    && (|t.order| == |b.order| ==> t == b)
    && (|t.order| < |b.order| ==> StillNeeded(b, t, b.order[|b.order| - |t.order| - 1]))
    && t.held == b.held && t.count == b.count && t.charge == b.charge && t.capacity == b.capacity
    && b.freed <= t.freed
  }

  /** Without the last eviction the cache would be over its capacity. */
  ghost predicate StillNeeded(b: Book, t: Book, last: nat) {
    last in b.charge && t.usage + b.charge[last] > b.capacity
  }

  lemma {:induction false} TrimmedMeaning(b: Book)
    requires Consistent(b)
    ensures Consistent(Trimmed(b)) && IsTrimmed(b, Trimmed(b))
    decreases |b.order|
  {
    if b.usage > b.capacity && b.order != [] {
      DropOldest(b);
      hide Consistent, Dropped, IsTrimmed;
      TrimmedMeaning(Dropped(b, b.order[0]));
      TrimStep(b, Dropped(b, b.order[0]), Trimmed(b));
    }
  }

  lemma TrimStep(b: Book, d: Book, t: Book)
    requires b.order != [] && b.usage > b.capacity && IsTrimmed(d, t)
    requires d.order == b.order[1..] && b.order[0] in b.charge && d.usage + b.charge[b.order[0]] >= b.usage
    requires d.held == b.held && d.count == b.count && d.charge == b.charge && d.capacity == b.capacity
    requires b.freed <= d.freed
    ensures IsTrimmed(b, t)
  {
    var k := |b.order| - |t.order|;
    assert d.order[k - 1..] == b.order[k..];
    if k > 1 {
      assert d.order[k - 2] == b.order[k - 1];
      assert StillNeeded(d, t, d.order[k - 2]);
    } else {
      assert t == d;
    }
  }

  lemma DropOldest(b: Book)
    requires Consistent(b) && b.order != []
    ensures var e, d := b.order[0], Dropped(b, b.order[0]);
            && Consistent(d) && d.order == b.order[1..]
            && e in b.charge && d.usage + b.charge[e] >= b.usage
            && d.held == b.held && d.count == b.count && d.charge == b.charge && d.capacity == b.capacity
            && b.freed <= d.freed
  {
    RefsOfCached(b, b.order[0]);
    DropKeepsConsistent(b, b.order[0]);
    hide SameEntries, RefsCount, FreedOnce, Numbered, Unfreed;
  }

  lemma LookupKeepsConsistent(b: Book, id: Ident)
    requires Consistent(b)
    ensures Consistent(LookedUp(b, id))
    ensures b.freed <= LookedUp(b, id).freed
  {
    hide SameEntries, RefsCount, FreedOnce, Numbered, Unfreed;
    if id in b.contents {
      var e := b.contents[id];
      CachedUnder(b, id);
      RefsOfCached(b, e);
      InOrderOnce(b);
      TouchKeepsEntries(b.order, b.contents, b.ident, e);
      TouchKeepsRefs(b.order, b.refs, b.held, e);
      TouchKeepsFreed(b, e);
    }
  }

  lemma InOrderOnce(b: Book)
    requires Consistent(b)
    ensures Distinct(b.order)
  {
  }

  lemma TouchKeepsFreed(b: Book, e: nat)
    requires FreedOnce(b.count, b.refs, b.freed) && e in b.refs
    ensures var refs := b.refs[e := b.refs[e] + 1];
            FreedOnce(b.count, refs, b.freed) && Unfreed(b.count, refs, b.charge) == Unfreed(b.count, b.refs, b.charge)
  {
    UnfreedSame(b.count, b.refs, b.refs[e := b.refs[e] + 1], b.charge, b.charge);
  }

  lemma TouchKeepsEntries(order: seq<nat>, contents: map<Ident, nat>, ident: map<nat, Ident>, e: nat)
    requires SameEntries(order, contents, ident) && e in order
    ensures SameEntries(Without(order, e) + [e], contents, ident)
  {
    WithoutMembers(order, e);
    hide Without, Named;
  }

  lemma TouchKeepsRefs(order: seq<nat>, refs: map<nat, nat>, held: multiset<nat>, e: nat)
    requires RefsCount(order, refs, held) && Distinct(order) && e in order && e in refs
    ensures RefsCount(Without(order, e) + [e], refs[e := refs[e] + 1], held + multiset{e})
  {
    WithoutMembers(order, e);
    hide Without, Distinct;
    forall x ensures Cached(Without(order, e) + [e], x) == Cached(order, x) {}
  }

  lemma ReleaseKeepsConsistent(b: Book, e: nat)
    requires Consistent(b) && e in b.held
    ensures Consistent(Released(b, e))
    ensures b.freed <= Released(b, e).freed
  {
    RefsOfHeld(b, e);
    ReleaseKeepsRefs(b.order, b.refs, b.held, e);
    hide SameEntries, RefsCount, FreedOnce, Unfreed, Numbered, Cached;
    UnrefKeepsFreed(b.(held := b.held - multiset{e}), e);
  }

  lemma EraseKeepsConsistent(b: Book, id: Ident)
    requires Consistent(b)
    ensures Consistent(Erased(b, id))
    ensures b.freed <= Erased(b, id).freed
  {
    if id in b.contents { DropKeepsConsistent(b, b.contents[id]); }
  }

  // Whole runs ----------------------------------------------------------------

  datatype Call = Insert(id: Ident, charge: nat) | Lookup(id: Ident) | Release(e: nat) | Erase(id: Ident)

  /** Clients release only references they hold. */
  ghost predicate Permitted(b: Book, call: Call) {
    call.Release? ==> call.e in b.held
  }

  ghost function AfterCall(b: Book, call: Call): Book
    requires Consistent(b) && Permitted(b, call)
  {
    match call
    case Insert(id, charge) =>
      InsertKeepsConsistent(b, id, charge);
      Trimmed(Inserted(b, id, charge))
    case Lookup(id) => LookedUp(b, id)
    case Release(e) => Released(b, e)
    case Erase(id) => Erased(b, id)
  }

  lemma CallKeepsConsistent(b: Book, call: Call)
    requires Consistent(b) && Permitted(b, call)
    ensures Consistent(AfterCall(b, call)) && b.freed <= AfterCall(b, call).freed
  {
    hide Consistent;
    match call
    case Insert(id, charge) =>
      InsertKeepsConsistent(b, id, charge);
      TrimmedMeaning(Inserted(b, id, charge));
    case Lookup(id) => LookupKeepsConsistent(b, id);
    case Release(e) => ReleaseKeepsConsistent(b, e);
    case Erase(id) => EraseKeepsConsistent(b, id);
  }

  ghost function EmptyBook(capacity: nat): Book {
    Book(capacity, [], map[], map[], map[], map[], [], 0, 0, multiset{})
  }

  lemma EmptyIsConsistent(capacity: nat)
    ensures Consistent(EmptyBook(capacity))
  {
  }

  ghost predicate Called(b: Book, call: Call, b': Book) {
    Consistent(b) && Permitted(b, call) && b' == AfterCall(b, call)
  }

  ghost predicate IsRun(bs: seq<Book>, calls: seq<Call>) {
    && |bs| == |calls| + 1
    && bs[0] == EmptyBook(bs[0].capacity)
    && forall i :: 0 <= i < |calls| ==> Consistent(bs[i]) ==> Called(bs[i], calls[i], bs[i + 1])
  }

  lemma CalledKeepsConsistent(b: Book, call: Call, b': Book)
    requires Called(b, call, b')
    ensures Consistent(b') && b.freed <= b'.freed
  {
    hide Consistent, AfterCall, Permitted;
    CallKeepsConsistent(b, call);
  }

  lemma {:induction false} RunKeepsConsistent(bs: seq<Book>, calls: seq<Call>, i: nat, j: nat)
    requires IsRun(bs, calls) && i <= j < |bs|
    ensures Consistent(bs[j]) && bs[i].freed <= bs[j].freed
  {
    hide Consistent, Called, EmptyBook;
    if j == 0 {
      EmptyIsConsistent(bs[0].capacity);
    } else {
      RunKeepsConsistent(bs, calls, if i < j then i else j - 1, j - 1);
      CalledKeepsConsistent(bs[j - 1], calls[j - 1], bs[j]);
    }
  }

  /** At every point of every run a handle has been freed, and only once, exactly when nothing refers to it. */
  lemma FreedExactlyOnce(bs: seq<Book>, calls: seq<Call>, j: nat, e: nat)
    requires IsRun(bs, calls) && j < |bs|
    ensures multiset(bs[j].freed)[e] <= 1
    ensures multiset(bs[j].freed)[e] == 1 <==> 1 <= e <= bs[j].count && e !in bs[j].order && e !in bs[j].held
    ensures bs[j].usage == Unfreed(bs[j].count, bs[j].refs, bs[j].charge)
  {
    RunKeepsConsistent(bs, calls, j, j);
    var b := bs[j];
    DistinctOnce(b.freed, e);
    assert RefsCount(b.order, b.refs, b.held) && FreedOnce(b.count, b.refs, b.freed);
    hide Unfreed, SameEntries, Distinct;
  }

  lemma {:induction false} DistinctOnce(s: seq<nat>, e: nat)
    requires Distinct(s)
    ensures multiset(s)[e] == if e in s then 1 else 0
  {
    if s != [] {
      DistinctOnce(s[1..], e);
      assert s == [s[0]] + s[1..];
    }
  }

  // The cache itself ----------------------------------------------------------

  lemma NotTheHead(b: Book, e: nat)
    requires Consistent(b) && e in b.order
    ensures e != HEAD && e !in Without(b.order, e)
  {
    RefsOfCached(b, e);
    WithoutMembers(b.order, e);
  }

  lemma TrimStops(b: Book)
    requires Consistent(b) && (b.usage <= b.capacity || b.order == [])
    ensures Trimmed(b) == b
  {
  }

  /** Entering first and dropping the old entry after comes to the same. */
  lemma ReplaceIsDropThenAdd(b: Book, id: Ident, charge: nat)
    requires Consistent(b) && id in b.contents
    ensures var a, e := Added(b, id, charge), b.contents[id];
            && e in a.refs && a.refs[e] > 0 && e in a.charge && e in a.order
            && Unreferenced(a.(order := Without(a.order, e)), e) == Inserted(b, id, charge)
  {
    hide Consistent, Without, Distinct;
    var a, e := Added(b, id, charge), b.contents[id];
    CachedUnder(b, id);
    RefsOfCached(b, e);
    NewHandle(b);
    WithoutLast(b.order, b.count + 1, e);
    ReplaceNamed(b.contents, id, b.count + 1);
    var d := b.(order := Without(b.order, e), contents := b.contents - {id});
    assert Added(d, id, charge) == a.(order := Without(a.order, e));
    AddAfterUnref(d, e, id, charge);
  }

  lemma AddAfterUnref(d: Book, e: nat, id: Ident, charge: nat)
    requires e in d.refs && d.refs[e] > 0 && e in d.charge && e != d.count + 1
    ensures var a := Added(d, id, charge);
            e in a.refs && a.refs[e] > 0 && e in a.charge && Unreferenced(a, e) == Added(Unreferenced(d, e), id, charge)
  {
    UnrefThenPut(d.refs, e, d.count + 1);
    AddedKeeps(d, e, id, charge);
    if d.refs[e] == 1 {
      Freed(d, e);
      Freed(Added(d, id, charge), e);
    } else {
      Counted(d, e);
      Counted(Added(d, id, charge), e);
    }
    hide Unreferenced;
  }

  lemma AddedKeeps(d: Book, e: nat, id: Ident, charge: nat)
    requires e in d.refs && e in d.charge && e != d.count + 1
    ensures var a := Added(d, id, charge); e in a.refs && a.refs[e] == d.refs[e] && e in a.charge && a.charge[e] == d.charge[e]
  {
  }

  lemma Freed(b: Book, e: nat)
    requires e in b.refs && b.refs[e] == 1 && e in b.charge
    ensures Unreferenced(b, e) == b.(refs := b.refs - {e}, usage := b.usage - b.charge[e], freed := b.freed + [e])
  {
  }

  lemma Counted(b: Book, e: nat)
    requires e in b.refs && b.refs[e] > 1 && e in b.charge
    ensures Unreferenced(b, e) == b.(refs := b.refs[e := b.refs[e] - 1])
  {
  }

  lemma UnrefThenPut(refs: map<nat, nat>, e: nat, n: nat)
    requires e in refs && refs[e] > 0 && e != n
    ensures refs[n := 2] - {e} == (refs - {e})[n := 2]
    ensures refs[n := 2][e := refs[e] - 1] == refs[e := refs[e] - 1][n := 2]
  {
  }

  lemma ReplaceNamed(contents: map<Ident, nat>, id: Ident, n: nat)
    ensures contents[id := n] == (contents - {id})[id := n]
  {
  }

  /** The destructor has dropped the first `i` entries. */
  ghost predicate Closing(b: Book, i: nat) {
    && i <= |b.order| && Distinct(b.order)
    && FreedOnce(b.count, b.refs, b.freed) && Numbered(b.count, b.charge)
    && b.usage == Unfreed(b.count, b.refs, b.charge)
    && (forall e :: e in b.refs <==> e in b.order[i..])
    && (forall e :: e in b.refs ==> b.refs[e] == 1)
  }

  lemma ClosingStarts(b: Book)
    requires Consistent(b) && b.held == multiset{}
    ensures Closing(b, 0)
  {
    assert b.order[0..] == b.order;
    hide SameEntries, FreedOnce, Unfreed, Numbered;
    assert forall e :: Cached(b.order, e) == if e in b.order then 1 else 0;
  }

  lemma ClosingStep(b: Book, i: nat)
    requires Closing(b, i) && i < |b.order|
    ensures b.order[i] in b.refs && b.refs[b.order[i]] == 1 && b.order[i] in b.charge
    ensures Closing(Unreferenced(b, b.order[i]), i + 1)
    ensures b.freed <= Unreferenced(b, b.order[i]).freed
  {
    var e := b.order[i];
    RestOf(b.order, i);
    assert e in b.refs;
    UnrefKeepsFreed(b, e);
    hide FreedOnce, Unfreed, Distinct;
  }

  lemma RestOf(s: seq<nat>, i: nat)
    requires i < |s| && Distinct(s)
    ensures forall x :: x in s[i + 1..] <==> x in s[i..] && x != s[i]
  {
    assert s[i..] == [s[i]] + s[i + 1..];
    var t := s[i + 1..];
    forall x | x in t ensures x != s[i] {
      var k :| i + 1 <= k < |s| && s[k] == x;
    }
  }

  lemma ClosingEnds(b: Book)
    requires Closing(b, |b.order|)
    ensures b.refs == map[] && b.usage == 0
    ensures forall e: nat :: multiset(b.freed)[e] == if 1 <= e <= b.count then 1 else 0
  {
    assert b.refs.Keys == {};
    NothingUnfreed(b.count, b.refs, b.charge);
    forall e: nat ensures multiset(b.freed)[e] == if 1 <= e <= b.count then 1 else 0 {
      DistinctOnce(b.freed, e);
    }
  }

  lemma NothingUnfreed(n: nat, refs: map<nat, nat>, charge: map<nat, nat>)
    requires refs == map[]
    ensures Unfreed(n, refs, charge) == 0
  {
  }

  class LRUCache {
    const list: LruList
    const table: HandleTable
    var capacity: nat
    var usage: int
    var count: nat
    var charge: map<nat, nat>
    var refs: map<nat, nat>
    /** The handles passed to their deleters, in order. */
    var freed: seq<nat>
    /** The references handed to clients and not yet released. */
    ghost var held: multiset<nat>

    ghost function State(): Book
      reads this, list`order, table`contents, table`ident
    {
      Book(capacity, list.order, table.contents, table.ident, charge, refs, freed, usage, count, held)
    }

    ghost predicate Valid()
      reads this, list, table
    {
      list.Valid() && table.Valid() && Consistent(State())
    }

    constructor (capacity: nat)
      ensures Valid() && State() == EmptyBook(capacity) && fresh(list) && fresh(table)
    {
      list := new LruList();
      table := new HandleTable();
      this.capacity, usage, count, charge, refs, freed, held := capacity, 0, 0, map[], map[], [], multiset{};
      new;
      EmptyIsConsistent(capacity);
      hide Consistent, Circle, Files, AllChained, LruList.Valid, HandleTable.Valid;
    }

    method Unref(e: nat)
      requires e in refs && refs[e] > 0 && e in charge
      modifies this`refs, this`usage, this`freed
      ensures State() == Unreferenced(old(State()), e)
    {
      if refs[e] == 1 {
        usage := usage - charge[e];
        freed := freed + [e];
        refs := refs - {e};
      } else {
        refs := refs[e := refs[e] - 1];
      }
    }

    method Lookup(id: Ident) returns (e: nat)
      requires Valid()
      modifies this`refs, this`held, list
      ensures Valid() && State() == LookedUp(old(State()), id)
      ensures e == if id in old(table.contents) then old(table.contents)[id] else NULL
      ensures id in old(table.contents) ==> e != NULL && table.ident[e] == id && e in held
    {
      hide Consistent, LruList.Valid, HandleTable.Valid;
      ghost var b := State();
      LookupKeepsConsistent(b, id);
      e := table.Lookup(id);
      if e != NULL {
        CachedUnder(b, id);
        RefsOfCached(b, e);
        NotTheHead(b, e);
        refs := refs[e := refs[e] + 1];
        held := held + multiset{e};
        list.Remove(e);
        list.Append(e);
      }
    }

    method Release(e: nat)
      requires Valid() && e in held
      modifies this`refs, this`usage, this`freed, this`held
      ensures Valid() && State() == Released(old(State()), e)
    {
      hide Consistent, LruList.Valid, HandleTable.Valid;
      ghost var b := State();
      RefsOfHeld(b, e);
      ReleaseKeepsConsistent(b, e);
      held := held - multiset{e};
      Unref(e);
    }

    method Erase(id: Ident)
      requires Valid()
      modifies this`refs, this`usage, this`freed, list, table
      ensures Valid() && State() == Erased(old(State()), id)
    {
      hide Consistent, LruList.Valid, HandleTable.Valid;
      ghost var b := State();
      EraseKeepsConsistent(b, id);
      CachedIfNamed(b, id);
      var e := table.Remove(id);
      if e != NULL {
        CachedUnder(b, id);
        RefsOfCached(b, e);
        list.Remove(e);
        Unref(e);
      } else {
        assert table.contents == b.contents;
      }
    }

    method Insert(id: Ident, chargeOf: nat) returns (e: nat)
      requires Valid()
      modifies this, list, table
      ensures Valid() && Consistent(Inserted(old(State()), id, chargeOf))
      ensures State() == Trimmed(Inserted(old(State()), id, chargeOf))
      ensures e == old(count) + 1
    {
      hide Consistent, Distinct, Circle, Files, AllChained, IsPower, Trimmed;
      ghost var b := State();
      InsertKeepsConsistent(b, id, chargeOf);
      e := Replace(id, chargeOf);
      ghost var g := State();
      while usage > capacity
        invariant list.Valid() && table.Valid() && Consistent(State()) && Consistent(g)
        invariant Trimmed(State()) == Trimmed(g)
        decreases |list.order|
      {
        var oldest := list.Oldest();
        if oldest == HEAD {
          TrimStops(State());
          break;
        }
        EvictOldest(oldest);
      }
      TrimStops(State());
    }

    /** A new handle at the end of the list and in the table; the entry it replaces is still in the list. */
    method Enter(id: Ident, chargeOf: nat) returns (e: nat, old_: nat)
      requires list.Valid() && table.Valid()
      requires count + 1 !in list.order && count + 1 !in table.ident
      modifies this, list, table
      ensures list.Valid() && table.Valid() && State() == Added(old(State()), id, chargeOf)
      ensures e == old(count) + 1
      ensures old_ == if id in old(table.contents) then old(table.contents)[id] else NULL
      ensures id in old(table.contents) ==> old_ != NULL
    {
      hide LruList.Valid, HandleTable.Valid;
      e := count + 1;
      old_ := Link(e, id);
      count := e;
      charge, refs, held := charge[e := chargeOf], refs[e := 2], held + multiset{e};
      usage := usage + chargeOf;
    }

    method Link(e: nat, id: Ident) returns (old_: nat)
      requires list.Valid() && table.Valid()
      requires e != NULL && e !in list.order && e !in table.ident
      modifies list, table
      ensures list.Valid() && table.Valid()
      ensures list.order == old(list.order) + [e]
      ensures table.contents == old(table.contents)[id := e] && table.ident == old(table.ident)[e := id]
      ensures old_ == if id in old(table.contents) then old(table.contents)[id] else NULL
      ensures id in old(table.contents) ==> old_ != NULL
    {
      hide LruList.Valid, HandleTable.Valid;
      list.Append(e);
      old_ := table.Insert(e, id);
    }

    /** The new handle takes the place of one of the same name. */
    method Replace(id: Ident, chargeOf: nat) returns (e: nat)
      requires Valid()
      modifies this, list, table
      ensures Valid() && State() == Inserted(old(State()), id, chargeOf)
      ensures e == old(count) + 1
    {
      hide Consistent, Distinct, Circle, Files, AllChained, IsPower, LruList.Valid, HandleTable.Valid;
      ghost var b := State();
      InsertKeepsConsistent(b, id, chargeOf);
      NewHandle(b);
      var old_;
      e, old_ := Enter(id, chargeOf);
      if old_ != NULL {
        ReplaceIsDropThenAdd(b, id, chargeOf);
        list.Remove(old_);
        Unref(old_);
      }
    }

    method EvictOldest(oldest: nat)
      requires Valid() && usage > capacity && list.order != [] && oldest == list.order[0]
      modifies this`refs, this`usage, this`freed, list, table
      ensures Valid() && State() == Dropped(old(State()), oldest)
      ensures |list.order| < |old(list.order)|
      ensures Trimmed(State()) == Trimmed(old(State()))
    {
      hide Consistent, Distinct, Circle, Files, AllChained, IsPower;
      ghost var b := State();
      RefsOfCached(b, oldest);
      DropOldest(b);
      list.Remove(oldest);
      var removed := table.Remove(table.ident[oldest]);
      assert removed == oldest;
      Unref(oldest);
    }

    /** The destructor: nothing is held, and every handle ends freed exactly once. */
    method Destroy()
      requires Valid() && held == multiset{}
      modifies this`refs, this`usage, this`freed
      ensures refs == map[] && usage == 0
      ensures old(freed) <= freed
      ensures forall e: nat :: multiset(freed)[e] == if 1 <= e <= count then 1 else 0
    {
      hide Consistent, Closing, LruList.Valid, HandleTable.Valid;
      ClosingStarts(State());
      var e := list.Oldest();
      ghost var i := 0;
      while e != HEAD
        invariant i <= |list.order| && e == if i < |list.order| then list.order[i] else HEAD
        invariant e == HEAD <==> i == |list.order|
        invariant Closing(State(), i) && old(freed) <= freed
        decreases |list.order| - i
      {
        var next := list.Following(e, i);
        ClosingStep(State(), i);
        assert refs[e] == 1;
        Unref(e);
        e, i := next, i + 1;
      }
      ClosingEnds(State());
    }
  }
}
