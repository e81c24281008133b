/**
 The skip list of the memtable: one writer that links a node level by level, and
 readers that walk the links without a lock. Every single pointer store is a step.
 */
module SkipLists {
  import opened Basics
  import opened Keys

  const kMaxHeight: nat := 12

  /** Keys are compared through the memtable's comparator, a total order; as in Keys, a key is its rank. */
  type Key = real

  /** A node in the arena, with one link per level; the arena index is the pointer. */
  datatype Node = Node(key: Key, next: seq<Option<nat>>)

  type Arena = seq<Node>

  const HEAD: nat := 0

  // ---------------------------------------------------------------------------
  // What the links mean
  // ---------------------------------------------------------------------------

  /** up[n] is the number of levels, from 0, on which node n has been made reachable. */
  type Levels = seq<nat>

  ghost predicate OnLevel(up: Levels, l: nat, n: nat) {
    n < |up| && l < up[n]
  }

  /** Node m comes after node n; the head comes before every other node. */
  ghost predicate After(a: Arena, n: nat, m: nat)
    requires n < |a| && m < |a|
  {
    m != HEAD && (n == HEAD || a[n].key < a[m].key)
  }

  ghost predicate Shaped(a: Arena, up: Levels) {
    && |a| > 0 && |up| == |a| && up[HEAD] == kMaxHeight
    && (forall n: nat :: n < |a| ==> up[n] <= |a[n].next| <= kMaxHeight)
    && (forall n: nat, m: nat :: 0 < n < |a| && 0 < m < |a| && a[n].key == a[m].key ==> n == m)
  }

  /** Link is the least node of the level after n, or null if there is none. */
  ghost predicate IsSuccessor(a: Arena, up: Levels, l: nat, n: nat, link: Option<nat>)
    requires |up| == |a| && n < |a|
  {
    match link
    case None => forall m: nat :: OnLevel(up, l, m) ==> !After(a, n, m)
    case Some(q) => OnLevel(up, l, q) && After(a, n, q) && forall m: nat :: OnLevel(up, l, m) && After(a, n, m) ==> a[q].key <= a[m].key
  }

  ghost predicate LinkIsRight(a: Arena, up: Levels, l: nat, n: nat)
    requires Shaped(a, up)
  {
    OnLevel(up, l, n) ==> IsSuccessor(a, up, l, n, a[n].next[l])
  }

  /** Every link of every level is the successor on that level. */
  ghost predicate Ordered(a: Arena, up: Levels) {
    Shaped(a, up) && forall l: nat, n: nat :: LinkIsRight(a, up, l, n)
  }

  // ---------------------------------------------------------------------------
  // Walking a level
  // ---------------------------------------------------------------------------

  /** The nodes of a level that come after n: what a walk from n has still to meet. */
  ghost function Later(a: Arena, up: Levels, l: nat, n: nat): (s: set<nat>)
    requires |up| == |a| && n < |a|
  {
    set m: nat | m < |a| && OnLevel(up, l, m) && After(a, n, m)
  }

  lemma LaterShrinks(a: Arena, up: Levels, l: nat, n: nat, m: nat)
    requires |up| == |a| && n < |a| && OnLevel(up, l, m) && After(a, n, m)
    ensures Later(a, up, l, m) < Later(a, up, l, n)
  {
    assert m in Later(a, up, l, n) && m !in Later(a, up, l, m);
  }

  /** The nodes that a walk along level l meets after n. */
  ghost function Walk(a: Arena, up: Levels, l: nat, n: nat): (w: seq<nat>)
    requires Ordered(a, up) && OnLevel(up, l, n)
    decreases Later(a, up, l, n)
  {
    assert LinkIsRight(a, up, l, n);
    var next := a[n].next[l];
    if next.None? then []
    else
      LaterShrinks(a, up, l, n, next.value);
      [next.value] + Walk(a, up, l, next.value)
  }

  ghost predicate SortedFrom(a: Arena, n: nat, w: seq<nat>)
    decreases w
  {
    n < |a| && (w != [] ==> w[0] < |a| && After(a, n, w[0]) && SortedFrom(a, w[0], w[1..]))
  }

  /** A walk meets, in key order, exactly the nodes of the level that come after its start. */
  lemma {:induction false} WalkIsSorted(a: Arena, up: Levels, l: nat, n: nat)
    requires Ordered(a, up) && OnLevel(up, l, n)
    ensures SortedFrom(a, n, Walk(a, up, l, n))
    ensures forall m: nat :: m in Walk(a, up, l, n) <==> OnLevel(up, l, m) && After(a, n, m)
    decreases Later(a, up, l, n)
  {
    assert LinkIsRight(a, up, l, n);
    var next := a[n].next[l];
    if next.Some? {
      LaterShrinks(a, up, l, n, next.value);
      WalkIsSorted(a, up, l, next.value);
      var w := Walk(a, up, l, next.value);
      assert Walk(a, up, l, n) == [next.value] + w;
      assert ([next.value] + w)[1..] == w;
    }
  }

  /** Each level is a sublist of the one below it: the same order, fewer nodes. */
  lemma {:induction false} LevelIsSublist(a: Arena, up: Levels, l: nat)
    requires Ordered(a, up) && l + 1 < kMaxHeight
    ensures SortedFrom(a, HEAD, Walk(a, up, l, HEAD)) && SortedFrom(a, HEAD, Walk(a, up, l + 1, HEAD))
    ensures forall m: nat :: m in Walk(a, up, l + 1, HEAD) ==> m in Walk(a, up, l, HEAD)
  {
    WalkIsSorted(a, up, l, HEAD);
    WalkIsSorted(a, up, l + 1, HEAD);
  }

  // ---------------------------------------------------------------------------
  // The stores of Insert
  // ---------------------------------------------------------------------------

  function SetNext(a: Arena, n: nat, l: nat, link: Option<nat>): Arena
    requires n < |a| && l < |a[n].next|
  {
    a[n := Node(a[n].key, a[n].next[l := link])]
  }

  /** p is the last node of the level before key. */
  ghost predicate IsPredecessor(a: Arena, up: Levels, l: nat, key: Key, p: nat)
    requires |up| == |a|
  {
    && OnLevel(up, l, p) && (p == HEAD || a[p].key < key)
    && forall m: nat :: OnLevel(up, l, m) && After(a, p, m) ==> a[m].key > key
  }

  /** The writer has linked node x on levels below i and holds the predecessors for the rest. */
  ghost predicate Linking(a: Arena, up: Levels, x: nat, prev: seq<nat>, i: nat) {
    && Ordered(a, up)
    && HEAD < x < |a| && up[x] == i && |prev| == kMaxHeight
    && forall l: nat :: i <= l < |a[x].next| ==> IsPredecessor(a, up, l, a[x].key, prev[l])
  }

  /** The first store on level i goes into the new node, which no reader reaches on that level yet. */
  lemma PrepareKeepsLinking(a: Arena, up: Levels, x: nat, prev: seq<nat>, i: nat, link: Option<nat>)
    requires Linking(a, up, x, prev, i) && i < |a[x].next|
    ensures Linking(SetNext(a, x, i, link), up, x, prev, i)
  {
    var b := SetNext(a, x, i, link);
    forall l: nat, n: nat ensures LinkIsRight(b, up, l, n) {
      assert LinkIsRight(a, up, l, n);
    }
    forall l: nat | i <= l < |b[x].next| ensures IsPredecessor(b, up, l, b[x].key, prev[l]) {
      assert IsPredecessor(a, up, l, a[x].key, prev[l]);
    }
  }

  lemma OtherLevelsKeepTheirLinks(a: Arena, up: Levels, x: nat, p: nat, i: nat, l: nat, n: nat)
    requires Ordered(a, up) && HEAD < x < |a| && i < |a[x].next| && up[x] == i && OnLevel(up, i, p) && l != i
    requires Shaped(SetNext(a, p, i, Some(x)), up[x := i + 1])
    ensures LinkIsRight(SetNext(a, p, i, Some(x)), up[x := i + 1], l, n)
  {
    var b, vp := SetNext(a, p, i, Some(x)), up[x := i + 1];
    assert forall m: nat :: OnLevel(vp, l, m) <==> OnLevel(up, l, m);
    assert LinkIsRight(a, up, l, n);
  }

  /** On the level itself: p now leads to x, x to what followed p, and nobody else notices. */
  lemma LevelTakesTheNode(a: Arena, up: Levels, x: nat, p: nat, i: nat, n: nat)
    requires Ordered(a, up) && HEAD < x < |a| && i < |a[x].next| && up[x] == i && p != x
    requires IsPredecessor(a, up, i, a[x].key, p) && a[x].next[i] == a[p].next[i]
    requires OnLevel(up, i, n) || n == x
    ensures
      var b, vp := SetNext(a, p, i, Some(x)), up[x := i + 1];
      i < |b[n].next| && IsSuccessor(b, vp, i, n, b[n].next[i])
  {
    var b, vp := SetNext(a, p, i, Some(x)), up[x := i + 1];
    assert forall m: nat :: OnLevel(vp, i, m) <==> OnLevel(up, i, m) || m == x;
    assert LinkIsRight(a, up, i, p);
    assert LinkIsRight(a, up, i, n);
    assert forall m: nat, q: nat :: m < |a| && q < |a| ==> After(b, m, q) == After(a, m, q);
    assert After(a, p, x);
    if n != p && n != x {
      assert b[n].next[i] == a[n].next[i];
      if After(a, n, x) {
        assert After(a, n, p);
      }
    }
  }

  /** The store that makes x reachable on level i leaves every link right. */
  lemma PublishedLinkIsRight(a: Arena, up: Levels, x: nat, p: nat, i: nat, l: nat, n: nat)
    requires Ordered(a, up) && HEAD < x < |a| && i < |a[x].next| && up[x] == i && p != x
    requires IsPredecessor(a, up, i, a[x].key, p) && a[x].next[i] == a[p].next[i]
    requires Shaped(SetNext(a, p, i, Some(x)), up[x := i + 1])
    ensures LinkIsRight(SetNext(a, p, i, Some(x)), up[x := i + 1], l, n)
  {
    if l != i {
      OtherLevelsKeepTheirLinks(a, up, x, p, i, l, n);
    } else if OnLevel(up, i, n) || n == x {
      LevelTakesTheNode(a, up, x, p, i, n);
    }
  }

  /** The second store on level i publishes the node there. */
  lemma PublishKeepsLinking(a: Arena, up: Levels, x: nat, prev: seq<nat>, i: nat)
    requires Linking(a, up, x, prev, i) && i < |a[x].next|
    requires OnLevel(up, i, prev[i]) && a[x].next[i] == a[prev[i]].next[i]
    ensures Linking(SetNext(a, prev[i], i, Some(x)), up[x := i + 1], x, prev, i + 1)
  {
    var p := prev[i];
    assert IsPredecessor(a, up, i, a[x].key, p);
    var b, vp := SetNext(a, p, i, Some(x)), up[x := i + 1];
    assert Shaped(b, vp);
    forall l: nat, n: nat ensures LinkIsRight(b, vp, l, n) {
      PublishedLinkIsRight(a, up, x, p, i, l, n);
    }
    forall l: nat | i + 1 <= l < |b[x].next| ensures IsPredecessor(b, vp, l, b[x].key, prev[l]) {
      assert IsPredecessor(a, up, l, a[x].key, prev[l]);
    }
  }

  // ---------------------------------------------------------------------------
  // One writer and any number of readers
  // ---------------------------------------------------------------------------

  datatype Writer =
    | Idle
    | Placing(key: Key, prev: seq<nat>, height: nat)
    | Joining(node: nat, preds: seq<nat>, level: nat, prepared: bool)

  /**
   A search in progress: FindGreaterOrEqual and FindLessThan of a target, or FindLast when there is none.
   atStart is the set of nodes that were linked when the search began; no step looks at it.
   */
  datatype Reader = Reader(target: Option<Key>, x: nat, level: nat, atStart: set<nat>)

  datatype State = State(a: Arena, up: Levels, maxHeight: nat, writer: Writer, readers: map<nat, Reader>)

  /** One load or one store of shared memory, with the private work that goes with it. */
  datatype Step =
    | Begin(key: Key, prev: seq<nat>, height: nat)
    | Raise
    | Allocate(links: seq<Option<nat>>)
    | Prepare
    | Publish
    | EndInsert
    | Start(id: nat, target: Option<Key>, height: nat)
    | Advance(id: nat)
    | Descend(id: nat)
    | Return(id: nat)

  ghost predicate IsBefore(a: Arena, n: nat, target: Option<Key>)
    requires n < |a|
  {
    n == HEAD || target.None? || a[n].key < target.value
  }

  ghost function Present(a: Arena, up: Levels): set<nat> {
    set n: nat | 0 < n < |up| && OnLevel(up, 0, n)
  }

  ghost function Link(s: State, r: Reader): Option<nat> {
    if r.x < |s.a| && r.level < |s.a[r.x].next| then s.a[r.x].next[r.level] else None
  }

  ghost predicate Ahead(s: State, r: Reader) {
    Link(s, r).Some? && Link(s, r).value < |s.a| && IsBefore(s.a, Link(s, r).value, r.target)
  }

  /** What FindGreaterOrEqual leaves in prev, and Insert adds for the levels the list does not have yet. */
  ghost predicate Predecessors(s: State, key: Key, prev: seq<nat>) {
    && |s.up| == |s.a| && |prev| == kMaxHeight
    && forall l: nat :: l < kMaxHeight ==> if l < s.maxHeight then IsPredecessor(s.a, s.up, l, key, prev[l]) else prev[l] == HEAD
  }

  ghost predicate Enabled(s: State, step: Step) {
    match step
    case Begin(key, prev, height) =>
      s.writer.Idle? && Predecessors(s, key, prev) && 1 <= height <= kMaxHeight
      && forall n: nat :: 0 < n < |s.a| && OnLevel(s.up, 0, n) ==> s.a[n].key != key
    case Raise => s.writer.Placing? && s.writer.height > s.maxHeight
    case Allocate(links) => s.writer.Placing? && s.writer.height <= s.maxHeight && |links| == s.writer.height
    case Prepare =>
      s.writer.Joining? && !s.writer.prepared && s.writer.node < |s.a| && s.writer.level < |s.a[s.writer.node].next|
    case Publish => s.writer.Joining? && s.writer.prepared
    case EndInsert => s.writer.Joining? && !s.writer.prepared && s.writer.node < |s.a| && s.writer.level == |s.a[s.writer.node].next|
    case Start(id, target, height) => id !in s.readers && 1 <= height <= s.maxHeight
    case Advance(id) => id in s.readers && Ahead(s, s.readers[id])
    case Descend(id) => id in s.readers && !Ahead(s, s.readers[id]) && s.readers[id].level > 0
    case Return(id) => id in s.readers && !Ahead(s, s.readers[id]) && s.readers[id].level == 0
  }

  ghost function Load(a: Arena, n: nat, l: nat): Option<nat> {
    if n < |a| && l < |a[n].next| then a[n].next[l] else None
  }

  ghost function Store(a: Arena, n: nat, l: nat, link: Option<nat>): Arena {
    if n < |a| && l < |a[n].next| then SetNext(a, n, l, link) else a
  }

  ghost function Apply(s: State, step: Step): State
    requires Enabled(s, step)
  {
    match step
    case Begin(key, prev, height) => s.(writer := Placing(key, prev, height))
    case Raise => s.(maxHeight := s.writer.height)
    case Allocate(links) =>
      s.(a := s.a + [Node(s.writer.key, links)], up := s.up + [0], writer := Joining(|s.a|, s.writer.prev, 0, false))
    case Prepare =>
      var w := s.writer;
      var p := if w.level < |w.preds| then w.preds[w.level] else HEAD;
      s.(a := SetNext(s.a, w.node, w.level, Load(s.a, p, w.level)), writer := w.(prepared := true))
    case Publish =>
      var w := s.writer;
      var p := if w.level < |w.preds| then w.preds[w.level] else HEAD;
      s.(a := Store(s.a, p, w.level, Some(w.node)),
         up := if w.node < |s.up| then s.up[w.node := w.level + 1] else s.up,
         writer := w.(level := w.level + 1, prepared := false))
    case EndInsert => s.(writer := Idle)
    case Start(id, target, height) =>
      s.(readers := s.readers[id := Reader(target, HEAD, height - 1, Present(s.a, s.up))])
    case Advance(id) => s.(readers := s.readers[id := s.readers[id].(x := Link(s, s.readers[id]).value)])
    case Descend(id) => s.(readers := s.readers[id := s.readers[id].(level := s.readers[id].level - 1)])
    case Return(id) => s.(readers := s.readers - {id})
  }

  // ---------------------------------------------------------------------------
  // What every step keeps
  // ---------------------------------------------------------------------------

  ghost predicate AllPresent(a: Arena, up: Levels, besides: nat)
    requires |up| == |a|
  {
    forall n: nat :: 0 < n < |a| && n != besides ==> up[n] >= 1
  }

  ghost predicate WriterInv(s: State)
    requires Shaped(s.a, s.up)
  {
    match s.writer
    case Idle => AllPresent(s.a, s.up, HEAD)
    case Placing(key, prev, height) =>
      && AllPresent(s.a, s.up, HEAD) && 1 <= height <= kMaxHeight && |prev| == kMaxHeight
      && (forall n: nat :: 0 < n < |s.a| ==> s.a[n].key != key)
      && forall l: nat :: l < height ==> IsPredecessor(s.a, s.up, l, key, prev[l])
    case Joining(node, preds, level, prepared) =>
      && AllPresent(s.a, s.up, node) && Linking(s.a, s.up, node, preds, level)
      && 1 <= |s.a[node].next| <= s.maxHeight
      && (prepared ==> level < |s.a[node].next| && s.a[node].next[level] == Load(s.a, preds[level], level))
  }

  /** A reader stands on its level, before its target, and what it could see at the start is still there. */
  ghost predicate ReaderInv(a: Arena, up: Levels, r: Reader)
    requires |up| == |a|
  {
    && OnLevel(up, r.level, r.x) && IsBefore(a, r.x, r.target)
    && forall m: nat :: m in r.atStart ==> m != HEAD && OnLevel(up, 0, m)
  }

  ghost predicate ListInv(s: State) {
    && Ordered(s.a, s.up) && 1 <= s.maxHeight <= kMaxHeight
    && forall n: nat :: 0 < n < |s.a| ==> s.up[n] <= s.maxHeight
  }

  ghost predicate ReadersInv(s: State)
    requires |s.up| == |s.a|
  {
    forall id :: id in s.readers ==> ReaderInv(s.a, s.up, s.readers[id])
  }

  ghost predicate Inv(s: State) {
    ListInv(s) && WriterInv(s) && ReadersInv(s)
  }

  /** Stores never take a node off a level or change a key. */
  ghost predicate Grows(s: State, t: State) {
    && |s.up| == |s.a| <= |t.a| == |t.up| && s.readers == t.readers
    && forall n: nat :: n < |s.a| ==> s.a[n].key == t.a[n].key && s.up[n] <= t.up[n]
  }

  lemma GrowthKeepsReaders(s: State, t: State)
    requires Grows(s, t) && ReadersInv(s)
    ensures ReadersInv(t)
  {
    forall id | id in t.readers ensures ReaderInv(t.a, t.up, t.readers[id]) {
      assert ReaderInv(s.a, s.up, s.readers[id]);
    }
  }

  lemma BeginKeepsInv(s: State, step: Step)
    requires Inv(s) && step.Begin? && Enabled(s, step)
    ensures Inv(Apply(s, step))
  {
    var t := Apply(s, step);
    forall l: nat | l < step.height ensures IsPredecessor(t.a, t.up, l, step.key, step.prev[l]) {
      if l >= s.maxHeight {
        assert step.prev[l] == HEAD;
      }
    }
    GrowthKeepsReaders(s, t);
  }

  lemma RaiseKeepsInv(s: State)
    requires Inv(s) && Enabled(s, Raise)
    ensures Inv(Apply(s, Raise))
  {
    GrowthKeepsReaders(s, Apply(s, Raise));
  }

  lemma AllocateKeepsOrder(a: Arena, up: Levels, node: Node)
    requires Ordered(a, up) && |node.next| <= kMaxHeight && forall n: nat :: 0 < n < |a| ==> a[n].key != node.key
    ensures Ordered(a + [node], up + [0])
  {
    var b, vp := a + [node], up + [0];
    assert forall l: nat, n: nat :: OnLevel(vp, l, n) <==> OnLevel(up, l, n);
    forall l: nat, n: nat ensures LinkIsRight(b, vp, l, n) {
      assert LinkIsRight(a, up, l, n);
      assert forall m: nat :: n < |a| && m < |a| ==> After(b, n, m) == After(a, n, m);
    }
  }

  lemma AllocateKeepsInv(s: State, links: seq<Option<nat>>)
    requires Inv(s) && Enabled(s, Allocate(links))
    ensures Inv(Apply(s, Allocate(links)))
  {
    var t, w := Apply(s, Allocate(links)), s.writer;
    AllocateKeepsOrder(s.a, s.up, Node(w.key, links));
    assert forall l: nat, n: nat :: OnLevel(t.up, l, n) <==> OnLevel(s.up, l, n);
    forall l: nat | 0 <= l < |links| ensures IsPredecessor(t.a, t.up, l, w.key, w.prev[l]) {
      assert IsPredecessor(s.a, s.up, l, w.key, w.prev[l]);
    }
    GrowthKeepsReaders(s, t);
  }

  lemma PrepareKeepsInv(s: State)
    requires Inv(s) && Enabled(s, Prepare)
    ensures Inv(Apply(s, Prepare))
  {
    var t, w := Apply(s, Prepare), s.writer;
    var p := w.preds[w.level];
    assert IsPredecessor(s.a, s.up, w.level, s.a[w.node].key, p);
    PrepareKeepsLinking(s.a, s.up, w.node, w.preds, w.level, Load(s.a, p, w.level));
    GrowthKeepsReaders(s, t);
  }

  lemma PublishStores(s: State)
    requires Inv(s) && Enabled(s, Publish)
    ensures
      var t, w := Apply(s, Publish), s.writer;
      && Linking(s.a, s.up, w.node, w.preds, w.level) && w.level < |s.a[w.node].next|
      && OnLevel(s.up, w.level, w.preds[w.level]) && w.preds[w.level] < |s.a| && w.level < |s.a[w.preds[w.level]].next|
      && s.a[w.node].next[w.level] == s.a[w.preds[w.level]].next[w.level]
      && t.a == SetNext(s.a, w.preds[w.level], w.level, Some(w.node)) && t.up == s.up[w.node := w.level + 1]
  {
    var w := s.writer;
    assert IsPredecessor(s.a, s.up, w.level, s.a[w.node].key, w.preds[w.level]);
    hide LinkIsRight, ReaderInv, AllPresent, SetNext;
  }

  lemma PublishKeepsInv(s: State)
    requires Inv(s) && Enabled(s, Publish)
    ensures Inv(Apply(s, Publish))
  {
    var t, w := Apply(s, Publish), s.writer;
    PublishStores(s);
    PublishKeepsLinking(s.a, s.up, w.node, w.preds, w.level);
    hide LinkIsRight, ReaderInv, IsPredecessor, OnLevel;
    GrowthKeepsReaders(s, t);
    hide Shaped, ReadersInv;
  }

  lemma EndInsertKeepsInv(s: State)
    requires Inv(s) && Enabled(s, EndInsert)
    ensures Inv(Apply(s, EndInsert))
  {
    GrowthKeepsReaders(s, Apply(s, EndInsert));
  }

  /** A reader's own step: the link it follows stays on its level and before its target. */
  lemma ReaderStepKeepsInv(s: State, step: Step)
    requires Inv(s) && Enabled(s, step) && (step.Start? || step.Advance? || step.Descend? || step.Return?)
    ensures Inv(Apply(s, step))
  {
    var t := Apply(s, step);
    assert |s.a| == |s.up| && |s.a| > 0;
    hide ListInv, WriterInv, ReaderInv, OnLevel, Shaped, Ahead;
    ReadersAside(s, t);
    forall id | id in t.readers ensures ReaderInv(t.a, t.up, t.readers[id]) {
      if id in s.readers {
        assert ReaderInv(s.a, s.up, s.readers[id]);
        ReaderStays(s, s.readers[id], t.readers[id]);
      } else {
        ReaderStarts(s, t.readers[id]);
      }
    }
  }

  lemma ReadersAside(s: State, t: State)
    requires ListInv(s) && WriterInv(s) && t == s.(readers := t.readers)
    ensures ListInv(t) && WriterInv(t)
  {
    hide LinkIsRight, IsPredecessor, OnLevel, AllPresent;
  }

  lemma ReaderStarts(s: State, r: Reader)
    requires ListInv(s) && r.x == HEAD && r.level < s.maxHeight && r.atStart == Present(s.a, s.up)
    ensures ReaderInv(s.a, s.up, r)
  {
    hide LinkIsRight;
  }

  lemma ReaderStays(s: State, r: Reader, r': Reader)
    requires ListInv(s) && ReaderInv(s.a, s.up, r)
    requires || r' == r
             || (Ahead(s, r) && r' == r.(x := Link(s, r).value))
             || (r.level > 0 && r' == r.(level := r.level - 1))
    ensures ReaderInv(s.a, s.up, r')
  {
    assert LinkIsRight(s.a, s.up, r.level, r.x);
  }

  lemma StepKeepsInv(s: State, step: Step)
    requires Inv(s) && Enabled(s, step)
    ensures Inv(Apply(s, step))
  {
    match step
    case Begin(_, _, _) => BeginKeepsInv(s, step);
    case Raise => RaiseKeepsInv(s);
    case Allocate(links) => AllocateKeepsInv(s, links);
    case Prepare => PrepareKeepsInv(s);
    case Publish => PublishKeepsInv(s);
    case EndInsert => EndInsertKeepsInv(s);
    case _ => ReaderStepKeepsInv(s, step);
  }

  ghost predicate Initial(s: State) {
    s == State([Node(0.0, seq(kMaxHeight, _ => None))], [kMaxHeight], 1, Idle, map[])
  }

  ghost predicate StepAt(run: seq<State>, steps: seq<Step>, i: nat)
    requires i + 1 < |run| && i < |steps|
  {
    Enabled(run[i], steps[i]) && run[i + 1] == Apply(run[i], steps[i])
  }

  ghost predicate IsRun(run: seq<State>, steps: seq<Step>) {
    && |run| == |steps| + 1 && Initial(run[0])
    && forall i: nat :: i < |steps| ==> StepAt(run, steps, i)
  }

  /** After every store of every run, each link of each level is the successor, and every reader is before its target. */
  lemma {:induction false} RunKeepsInv(run: seq<State>, steps: seq<Step>, i: nat)
    requires IsRun(run, steps) && i < |run|
    ensures Inv(run[i])
  {
    if i == 0 {
      var s := run[0];
      forall l: nat, n: nat ensures LinkIsRight(s.a, s.up, l, n) {
      }
    } else {
      RunKeepsInv(run, steps, i - 1);
      assert StepAt(run, steps, i - 1);
      StepKeepsInv(run[i - 1], steps[i - 1]);
    }
  }

  // ---------------------------------------------------------------------------
  // What a finished search returns
  // ---------------------------------------------------------------------------

  /** Link is the first linked node that is not before the target. */
  ghost predicate IsFirstNotBefore(a: Arena, up: Levels, target: Option<Key>, link: Option<nat>)
    requires |up| == |a|
  {
    match link
    case None => forall m: nat :: OnLevel(up, 0, m) ==> IsBefore(a, m, target)
    case Some(q) =>
      && q != HEAD && OnLevel(up, 0, q) && !IsBefore(a, q, target)
      && forall m: nat :: OnLevel(up, 0, m) && !IsBefore(a, m, target) ==> a[q].key <= a[m].key
  }

  /** Node n is the last linked node before the target, or the head. */
  ghost predicate IsLastBefore(a: Arena, up: Levels, target: Option<Key>, n: nat)
    requires |up| == |a|
  {
    && OnLevel(up, 0, n) && IsBefore(a, n, target)
    && forall m: nat :: OnLevel(up, 0, m) && IsBefore(a, m, target) && m != n ==> m == HEAD || After(a, m, n)
  }

  /** At its last load a search knows the exact answer for the list as it is at that moment. */
  lemma FinishedSearchIsExact(s: State, id: nat)
    requires Inv(s) && Enabled(s, Return(id))
    ensures IsFirstNotBefore(s.a, s.up, s.readers[id].target, Link(s, s.readers[id]))
    ensures IsLastBefore(s.a, s.up, s.readers[id].target, s.readers[id].x)
  {
    var r := s.readers[id];
    assert ReaderInv(s.a, s.up, r);
    assert LinkIsRight(s.a, s.up, 0, r.x);
  }

  /** A step leaves nodes and keys in place, and a running search keeps what it began with. */
  lemma StepKeepsSearch(s: State, step: Step, id: nat)
    requires Inv(s) && Enabled(s, step) && id in Apply(s, step).readers
    ensures |s.a| <= |Apply(s, step).a| && forall n: nat :: n < |s.a| ==> Apply(s, step).a[n].key == s.a[n].key
    ensures id in s.readers ==>
              && Apply(s, step).readers[id].atStart == s.readers[id].atStart
              && Apply(s, step).readers[id].target == s.readers[id].target
    ensures id !in s.readers ==> Apply(s, step).readers[id].atStart == Present(s.a, s.up)
  {
    hide ReadersInv, LinkIsRight, IsPredecessor, Present, AllPresent;
  }

  lemma {:induction false} StartIsKept(run: seq<State>, steps: seq<Step>, i: nat, j: nat, id: nat, m: nat)
    requires IsRun(run, steps) && i < j < |run|
    requires id !in run[i].readers && forall k: nat :: i < k <= j ==> id in run[k].readers
    requires m in Present(run[i].a, run[i].up)
    ensures m in run[j].readers[id].atStart
    ensures m < |run[i].a| <= |run[j].a| && run[i].a[m].key == run[j].a[m].key
    ensures run[j].readers[id].target == run[i + 1].readers[id].target
    decreases j
  {
    RunKeepsInv(run, steps, i);
    RunKeepsInv(run, steps, j - 1);
    assert StepAt(run, steps, j - 1);
    StepKeepsSearch(run[j - 1], steps[j - 1], id);
    if j > i + 1 {
      StartIsKept(run, steps, i, j - 1, id, m);
    }
  }

  /**
   A search finds every key whose insertion had linked it before the search began, whatever the
   writer and the other readers do meanwhile; later arrivals can only make a search for another key end earlier.
   */
  lemma SearchFindsEarlierInserts(run: seq<State>, steps: seq<Step>, i: nat, j: nat, id: nat, m: nat)
    requires IsRun(run, steps) && i < j < |run|
    requires id !in run[i].readers && forall k: nat :: i < k <= j ==> id in run[k].readers
    requires m in Present(run[i].a, run[i].up) && Enabled(run[j], Return(id))
    ensures m < |run[i].a|
    ensures run[i + 1].readers[id].target == Some(run[i].a[m].key) ==> Link(run[j], run[j].readers[id]) == Some(m)
    ensures run[i + 1].readers[id].target.Some? && run[i].a[m].key >= run[i + 1].readers[id].target.value ==>
              var link := Link(run[j], run[j].readers[id]);
              link.Some? && link.value < |run[j].a| && run[j].a[link.value].key <= run[i].a[m].key
  {
    RunKeepsInv(run, steps, j);
    StartIsKept(run, steps, i, j, id, m);
    FinishedSearchIsExact(run[j], id);
    assert ReaderInv(run[j].a, run[j].up, run[j].readers[id]);
    assert OnLevel(run[j].up, 0, m);
  }

  // ---------------------------------------------------------------------------
  // The list as one thread sees it
  // ---------------------------------------------------------------------------

  ghost predicate IsFirstFrom(keys: set<Key>, target: Key, r: Option<Key>) {
    match r
    case None => forall k :: k in keys ==> k < target
    case Some(q) => q in keys && q >= target && forall k :: k in keys && k >= target ==> q <= k
  }

  ghost predicate IsLastBelow(keys: set<Key>, target: Option<Key>, r: Option<Key>) {
    match r
    case None => forall k :: k in keys ==> target.Some? && k >= target.value
    case Some(q) => q in keys && (target.Some? ==> q < target.value) && forall k :: k in keys && (target.Some? ==> k < target.value) ==> k <= q
  }

  ghost function KeysIn(a: Arena): set<Key> {
    set n: nat | 0 < n < |a| :: a[n].key
  }

  lemma KeysOfGrownArena(a: Arena, node: Node)
    requires |a| > 0
    ensures KeysIn(a + [node]) == KeysIn(a) + {node.key}
  {
    var b := a + [node];
    assert b[|a|].key in KeysIn(b);
    forall k | k in KeysIn(a) ensures k in KeysIn(b) {
      var n: nat :| 0 < n < |a| && a[n].key == k;
      assert b[n].key == k;
    }
  }

  lemma KeysSurviveStore(a: Arena, n: nat, l: nat, link: Option<nat>)
    requires n < |a| && l < |a[n].next|
    ensures KeysIn(SetNext(a, n, l, link)) == KeysIn(a)
  {
    var b := SetNext(a, n, l, link);
    assert forall m: nat :: m < |a| ==> a[m].key == b[m].key;
    forall k | k in KeysIn(a) ensures k in KeysIn(b) {
      var m: nat :| 0 < m < |a| && a[m].key == k;
      assert b[m].key == k;
    }
  }

  lemma FirstOfNodesIsFirstOfKeys(a: Arena, up: Levels, target: Key, link: Option<nat>)
    requires Ordered(a, up) && AllPresent(a, up, HEAD) && IsFirstNotBefore(a, up, Some(target), link)
    ensures link.Some? ==> HEAD < link.value < |a|
    ensures IsFirstFrom(KeysIn(a), target, if link.None? then None else Some(a[link.value].key))
  {
    forall k | k in KeysIn(a) && k >= target ensures link.Some? && a[link.value].key <= k {
      var m: nat :| 0 < m < |a| && a[m].key == k;
      assert OnLevel(up, 0, m) && !IsBefore(a, m, Some(target));
    }
  }

  lemma LastOfNodesIsLastOfKeys(a: Arena, up: Levels, target: Option<Key>, n: nat)
    requires Ordered(a, up) && AllPresent(a, up, HEAD) && IsLastBefore(a, up, target, n)
    ensures n < |a| && IsLastBelow(KeysIn(a), target, if n == HEAD then None else Some(a[n].key))
  {
    forall k | k in KeysIn(a) && (target.Some? ==> k < target.value) ensures n != HEAD && k <= a[n].key {
      var m: nat :| 0 < m < |a| && a[m].key == k;
      assert OnLevel(up, 0, m) && IsBefore(a, m, target);
    }
  }

  class SkipList {
    var nodes: Arena
    var maxHeight: nat
    ghost var up: Levels

    ghost predicate Valid()
      reads this
    {
      && Ordered(nodes, up) && AllPresent(nodes, up, HEAD) && 1 <= maxHeight <= kMaxHeight
      && forall n: nat :: 0 < n < |nodes| ==> up[n] <= maxHeight
    }

    ghost function Keys(): set<Key>
      reads this
    {
      KeysIn(nodes)
    }

    constructor ()
      ensures Valid() && Keys() == {}
    {
      nodes, maxHeight, up := [Node(0.0, seq(kMaxHeight, _ => None))], 1, [kMaxHeight];
      new;
      forall l: nat, n: nat ensures LinkIsRight(nodes, up, l, n) {
      }
    }

    method FindGreaterOrEqual(key: Key) returns (r: Option<nat>, prev: seq<nat>)
      requires Valid()
      ensures r.Some? ==> HEAD < r.value < |nodes|
      ensures IsFirstNotBefore(nodes, up, Some(key), r)
      ensures IsFirstFrom(Keys(), key, if r.None? then None else Some(nodes[r.value].key))
      ensures |prev| == kMaxHeight
      ensures forall l: nat :: l < maxHeight && key !in Keys() ==> IsPredecessor(nodes, up, l, key, prev[l])
    {
      prev := seq(kMaxHeight, _ => HEAD);
      var x: nat, level: nat := HEAD, maxHeight - 1;
      while true
        invariant 0 <= level < maxHeight && |prev| == kMaxHeight
        invariant OnLevel(up, level, x) && IsBefore(nodes, x, Some(key))
        invariant forall l: nat :: level < l < maxHeight && key !in Keys() ==> IsPredecessor(nodes, up, l, key, prev[l])
        decreases level, Later(nodes, up, level, x)
      {
        assert LinkIsRight(nodes, up, level, x);
        var next := nodes[x].next[level];
        if next.Some? && nodes[next.value].key < key {
          LaterShrinks(nodes, up, level, x, next.value);
          x := next.value;
        } else {
          prev := prev[level := x];
          if key !in Keys() {
            StoppedAtPredecessor(level, key, x);
          }
          if level == 0 {
            r := next;
            FirstOfNodesIsFirstOfKeys(nodes, up, key, r);
            return;
          }
          level := level - 1;
        }
      }
    }

    lemma StoppedAtPredecessor(level: nat, key: Key, x: nat)
      requires Valid() && OnLevel(up, level, x) && IsBefore(nodes, x, Some(key)) && key !in Keys()
      requires var next := nodes[x].next[level]; next.Some? ==> next.value < |nodes| && nodes[next.value].key >= key
      ensures IsPredecessor(nodes, up, level, key, x)
    {
      assert LinkIsRight(nodes, up, level, x);
      forall m: nat | OnLevel(up, level, m) && After(nodes, x, m) ensures nodes[m].key > key {
        assert nodes[m].key in Keys();
      }
    }

    method FindLessThan(key: Key) returns (r: nat)
      requires Valid()
      ensures r < |nodes| && IsLastBelow(Keys(), Some(key), if r == HEAD then None else Some(nodes[r].key))
    {
      var x: nat, level: nat := HEAD, maxHeight - 1;
      while true
        invariant 0 <= level < maxHeight
        invariant OnLevel(up, level, x) && IsBefore(nodes, x, Some(key))
        decreases level, Later(nodes, up, level, x)
      {
        assert LinkIsRight(nodes, up, level, x);
        var next := nodes[x].next[level];
        if next.None? || nodes[next.value].key >= key {
          if level == 0 {
            LastOfNodesIsLastOfKeys(nodes, up, Some(key), x);
            return x;
          }
          level := level - 1;
        } else {
          LaterShrinks(nodes, up, level, x, next.value);
          x := next.value;
        }
      }
    }

    method FindLast() returns (r: nat)
      requires Valid()
      ensures r < |nodes| && IsLastBelow(Keys(), None, if r == HEAD then None else Some(nodes[r].key))
    {
      var x: nat, level: nat := HEAD, maxHeight - 1;
      while true
        invariant 0 <= level < maxHeight && OnLevel(up, level, x)
        decreases level, Later(nodes, up, level, x)
      {
        assert LinkIsRight(nodes, up, level, x);
        var next := nodes[x].next[level];
        if next.None? {
          if level == 0 {
            LastOfNodesIsLastOfKeys(nodes, up, None, x);
            return x;
          }
          level := level - 1;
        } else {
          LaterShrinks(nodes, up, level, x, next.value);
          x := next.value;
        }
      }
    }

    method Contains(key: Key) returns (r: bool)
      requires Valid()
      ensures r <==> key in Keys()
    {
      var x, _ := FindGreaterOrEqual(key);
      r := x.Some? && nodes[x.value].key == key;
    }

    /** Height stands for the random one. Duplicates are refused by the caller, as the source asserts. */
    method Insert(key: Key, height: nat)
      requires Valid() && key !in Keys() && 1 <= height <= kMaxHeight
      modifies this
      ensures Valid() && Keys() == old(Keys()) + {key}
      ensures |nodes| == old(|nodes|) + 1 && forall n: nat :: n < old(|nodes|) ==> nodes[n].key == old(nodes)[n].key
      ensures maxHeight == if height > old(maxHeight) then height else old(maxHeight)
    {
      var _, prev: seq<nat> := FindGreaterOrEqual(key);
      if height > maxHeight {
        var i := maxHeight;
        while i < height
          invariant maxHeight <= i <= height && |prev| == kMaxHeight
          invariant forall l: nat :: l < i ==> IsPredecessor(nodes, up, l, key, prev[l])
        {
          prev := prev[i := HEAD];
          i := i + 1;
        }
        maxHeight := height;
      }
      Allocated(key, height, prev);
      KeysOfGrownArena(nodes, Node(key, seq(height, _ => None)));
      var x := |nodes|;
      nodes, up := nodes + [Node(key, seq(height, _ => None))], up + [0];
      Join(x, prev, height);
    }

    /** The loop of Insert that links the node level by level, bottom up. */
    method Join(x: nat, prev: seq<nat>, height: nat)
      requires Linking(nodes, up, x, prev, 0) && AllPresent(nodes, up, x)
      requires 1 <= height == |nodes[x].next| <= maxHeight <= kMaxHeight
      requires forall n: nat :: 0 < n < |nodes| ==> up[n] <= maxHeight
      modifies this`nodes, this`up
      ensures Valid() && Keys() == old(Keys())
      ensures |nodes| == old(|nodes|) && forall n: nat :: n < |nodes| ==> nodes[n].key == old(nodes)[n].key
    {
      var i := 0;
      while i < height
        invariant 0 <= i <= height && x < |nodes| == old(|nodes|) && |nodes[x].next| == height
        invariant Linking(nodes, up, x, prev, i) && AllPresent(nodes, up, x)
        invariant forall n: nat :: 0 < n < |nodes| ==> up[n] <= maxHeight
        invariant KeysIn(nodes) == old(Keys())
        invariant forall n: nat :: n < |nodes| ==> nodes[n].key == old(nodes)[n].key
      {
        assert IsPredecessor(nodes, up, i, nodes[x].key, prev[i]);
        PrepareKeepsLinking(nodes, up, x, prev, i, nodes[prev[i]].next[i]);
        KeysSurviveStore(nodes, x, i, nodes[prev[i]].next[i]);
        nodes := SetNext(nodes, x, i, nodes[prev[i]].next[i]);
        PublishKeepsLinking(nodes, up, x, prev, i);
        KeysSurviveStore(nodes, prev[i], i, Some(x));
        nodes, up := SetNext(nodes, prev[i], i, Some(x)), up[x := i + 1];
        i := i + 1;
      }
    }

    lemma Allocated(key: Key, height: nat, prev: seq<nat>)
      requires Ordered(nodes, up) && key !in Keys() && 1 <= height <= kMaxHeight && |prev| == kMaxHeight
      requires forall l: nat :: l < height ==> IsPredecessor(nodes, up, l, key, prev[l])
      ensures Linking(nodes + [Node(key, seq(height, _ => None))], up + [0], |nodes|, prev, 0)
    {
      var node := Node(key, seq(height, _ => None));
      forall n: nat | 0 < n < |nodes| ensures nodes[n].key != key {
        assert nodes[n].key in Keys();
      }
      AllocateKeepsOrder(nodes, up, node);
      var b, vp := nodes + [node], up + [0];
      assert forall l: nat, n: nat :: OnLevel(vp, l, n) <==> OnLevel(up, l, n);
      forall l: nat | 0 <= l < height ensures IsPredecessor(b, vp, l, key, prev[l]) {
        assert IsPredecessor(nodes, up, l, key, prev[l]);
      }
    }
  }

  /** Where an iterator stands: the key under it, if any. */
  class Iterator {
    const list: SkipList
    var node: Option<nat>

    ghost predicate Valid()
      reads this, list
    {
      list.Valid() && (node.Some? ==> HEAD < node.value < |list.nodes|)
    }

    ghost function Key(): Option<Key>
      requires Valid()
      reads this, list
    {
      if node.None? then None else Some(list.nodes[node.value].key)
    }

    constructor (list: SkipList)
      requires list.Valid()
      ensures this.list == list && Valid() && Key() == None
    {
      this.list, node := list, None;
    }

    method Next()
      requires Valid() && node.Some?
      modifies this
      ensures Valid() && IsFirstFrom(list.Keys() - {old(Key()).value}, old(Key()).value, Key())
    {
      var n := node.value;
      assert LinkIsRight(list.nodes, list.up, 0, n);
      node := list.nodes[n].next[0];
      forall k | k in list.Keys() && k > list.nodes[n].key ensures node.Some? && list.nodes[node.value].key <= k {
        var m: nat :| 0 < m < |list.nodes| && list.nodes[m].key == k;
        assert OnLevel(list.up, 0, m) && After(list.nodes, n, m);
      }
    }

    method Prev()
      requires Valid() && node.Some?
      modifies this
      ensures Valid() && IsLastBelow(list.Keys(), old(Key()), Key())
    {
      var n := list.FindLessThan(list.nodes[node.value].key);
      node := if n == HEAD then None else Some(n);
    }

    method Seek(target: Key)
      requires Valid()
      modifies this
      ensures Valid() && IsFirstFrom(list.Keys(), target, Key())
    {
      var n, _ := list.FindGreaterOrEqual(target);
      node := n;
    }

    method SeekToFirst()
      requires Valid()
      modifies this
      ensures Valid()
      ensures match Key()
              case None => list.Keys() == {}
              case Some(k) => k in list.Keys() && forall q :: q in list.Keys() ==> k <= q
    {
      assert LinkIsRight(list.nodes, list.up, 0, HEAD);
      node := list.nodes[HEAD].next[0];
      forall k | k in list.Keys() ensures node.Some? && list.nodes[node.value].key <= k {
        var m: nat :| 0 < m < |list.nodes| && list.nodes[m].key == k;
        assert OnLevel(list.up, 0, m) && After(list.nodes, HEAD, m);
      }
    }

    method SeekToLast()
      requires Valid()
      modifies this
      ensures Valid() && IsLastBelow(list.Keys(), None, Key())
    {
      var n := list.FindLast();
      node := if n == HEAD then None else Some(n);
    }
  }

  /** The back step undoes the forward step, and the other way round. */
  lemma PrevUndoesNext(keys: set<Key>, k: Key, n: Key, p: Option<Key>)
    requires k in keys && IsFirstFrom(keys - {k}, k, Some(n)) && IsLastBelow(keys, Some(n), p)
    ensures p == Some(k)
  {
    assert n in keys - {k};
    match p
    case Some(q) => assert q != k ==> q in keys - {k};
  }
}
