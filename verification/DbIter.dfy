/**
 DBIter: a bidirectional cursor over the live keys at one sequence number, on top of
 an iterator over all internal entries.
 */
module DbIter {
  import opened Basics
  import opened Keys
  import opened Versions
  import opened Mergers

  // ---------------------------------------------------------------------------
  // The live map
  // ---------------------------------------------------------------------------

  /** es[i] is the entry that a reader at s sees for its key: a value within s with no newer entry within s. */
  ghost predicate Yields(es: seq<Entry>, s: nat, i: nat)
    requires i < |es|
  {
    es[i].sn <= s && es[i].op.Put? && forall j :: 0 <= j < i && es[j].key == es[i].key ==> es[j].sn > s
  }

  type Pair = (UserKey, Value)

  /** The live pairs among the first n entries, in key order. */
  ghost function LiveUpTo(es: seq<Entry>, s: nat, n: nat): seq<Pair>
    requires n <= |es|
  {
    if n == 0 then []
    else LiveUpTo(es, s, n - 1) + (if Yields(es, s, n - 1) then [(es[n - 1].key, es[n - 1].op.value)] else [])
  }

  ghost function LiveMap(es: seq<Entry>, s: nat): seq<Pair> { LiveUpTo(es, s, |es|) }

  lemma {:induction false} LiveFlat(es: seq<Entry>, s: nat, a: nat, b: nat)
    requires a <= b <= |es|
    requires forall i :: a <= i < b ==> !Yields(es, s, i)
    ensures LiveUpTo(es, s, a) == LiveUpTo(es, s, b)
  {
    if a < b { LiveFlat(es, s, a, b - 1); }
  }

  lemma {:induction false} LivePrefix(es: seq<Entry>, s: nat, a: nat, b: nat)
    requires a <= b <= |es|
    ensures LiveUpTo(es, s, a) <= LiveUpTo(es, s, b)
  {
    if a < b { LivePrefix(es, s, a, b - 1); }
  }

  /** A yielding entry stands in the live map at the number of yielding entries before it. */
  lemma LiveAt(es: seq<Entry>, s: nat, i: nat)
    requires i < |es| && Yields(es, s, i)
    ensures |LiveUpTo(es, s, i)| < |LiveMap(es, s)|
    ensures LiveMap(es, s)[|LiveUpTo(es, s, i)|] == (es[i].key, es[i].op.value)
    ensures |LiveUpTo(es, s, i + 1)| == |LiveUpTo(es, s, i)| + 1
  {
    LivePrefix(es, s, i + 1, |es|);
  }

  lemma KeysAscend(es: seq<Entry>, i: nat, j: nat)
    requires SortedEntries(es) && i <= j < |es|
    ensures es[i].key <= es[j].key
  {
    assert i < j ==> Before(es[i], es[j]);
  }

  /** The live map has strictly increasing keys, and holds exactly what readers at s see. */
  lemma LiveMapMeaning(es: seq<Entry>, s: nat)
    requires SortedEntries(es) && (forall x, y :: x in es && y in es && x.key == y.key && x.sn == y.sn ==> x == y)
    ensures forall p, q :: 0 <= p < q < |LiveMap(es, s)| ==> LiveMap(es, s)[p].0 < LiveMap(es, s)[q].0
    ensures forall k, v :: (k, v) in LiveMap(es, s) <==> ReadsAs(Elements(es), k, s, Some(v))
  {
    LiveSorted(es, s, |es|);
    forall k, v ensures (k, v) in LiveMap(es, s) <==> ReadsAs(Elements(es), k, s, Some(v)) {
      LiveMembers(es, s, |es|, k, v);
      if ReadsAs(Elements(es), k, s, Some(v)) {
        var e :| IsLatest(Elements(es), k, s, e) && e.op == Put(v);
        var i :| 0 <= i < |es| && es[i] == e;
        LatestYields(es, s, i);
      }
      if i :| 0 <= i < |es| && Yields(es, s, i) && es[i].key == k && es[i].op.value == v {
        YieldsIsLatest(es, s, i);
      }
    }
  }

  /** Iterating a store that agrees with a history lists exactly the keys whose last write within s is a value. */
  lemma IterationAgreesWithHistory(es: seq<Entry>, h: History, floor: nat, s: nat, k: UserKey, v: Value)
    requires SortedEntries(es) && FromHistory(Elements(es), h) && Agrees(Elements(es), h, floor)
    requires floor <= s <= |h|
    ensures (k, v) in LiveMap(es, s) <==> LastValue(h, k, s) == Some(v)
  {
    forall x, y | x in es && y in es && x.key == y.key && x.sn == y.sn ensures x == y {
      assert x in Elements(es) && y in Elements(es);
    }
    LiveMapMeaning(es, s);
    if (k, v) in LiveMap(es, s) {
      ReadsAsIsDeterministic(Elements(es), h, k, s, Some(v), LastValue(h, k, s));
    }
  }

  lemma LatestYields(es: seq<Entry>, s: nat, i: nat)
    requires SortedEntries(es) && (forall x, y :: x in es && y in es && x.key == y.key && x.sn == y.sn ==> x == y)
    requires i < |es| && IsLatest(Elements(es), es[i].key, s, es[i]) && es[i].op.Put?
    ensures Yields(es, s, i)
  {
    forall j | 0 <= j < i && es[j].key == es[i].key ensures es[j].sn > s {
      assert Before(es[j], es[i]);
      assert es[j] in Elements(es);
    }
  }

  lemma YieldsIsLatest(es: seq<Entry>, s: nat, i: nat)
    requires SortedEntries(es) && i < |es| && Yields(es, s, i)
    ensures IsLatest(Elements(es), es[i].key, s, es[i])
  {
    forall x | x in Elements(es) && Candidate(x, es[i].key, s) ensures x.sn <= es[i].sn {
      var j :| 0 <= j < |es| && es[j] == x;
      if j > i { assert Before(es[i], es[j]); }
    }
  }

  lemma {:induction false} LiveMembers(es: seq<Entry>, s: nat, n: nat, k: UserKey, v: Value)
    requires n <= |es|
    ensures (k, v) in LiveUpTo(es, s, n) <==>
              exists i :: 0 <= i < n && Yields(es, s, i) && es[i].key == k && es[i].op.value == v
  {
    if n > 0 { LiveMembers(es, s, n - 1, k, v); }
  }

  lemma {:induction false} LiveSorted(es: seq<Entry>, s: nat, n: nat)
    requires SortedEntries(es) && n <= |es|
    ensures forall p, q :: 0 <= p < q < |LiveUpTo(es, s, n)| ==> LiveUpTo(es, s, n)[p].0 < LiveUpTo(es, s, n)[q].0
  {
    if n > 0 {
      LiveSorted(es, s, n - 1);
      if Yields(es, s, n - 1) {
        var l := LiveUpTo(es, s, n - 1);
        forall p | 0 <= p < |l| ensures l[p].0 < es[n - 1].key {
          LiveMembers(es, s, n - 1, l[p].0, l[p].1);
          var i :| 0 <= i < n - 1 && Yields(es, s, i) && es[i].key == l[p].0;
          KeysAscend(es, i, n - 1);
        }
      }
    }
  }

  // ---------------------------------------------------------------------------
  // The internal iterator
  // ---------------------------------------------------------------------------

  // ---------------------------------------------------------------------------
  // DBIter
  // ---------------------------------------------------------------------------

  ghost predicate NoneWantedIn(es: seq<Entry>, s: nat, a: nat, b: nat, skip: Option<UserKey>)
    requires b <= |es|
  {
    forall i :: a <= i < b ==> !Wanted(es, s, i, skip)
  }

  /** Having passed es[start..p]: none of it is wanted, and neither is anything up to the hidden key. */
  ghost predicate Skipping(es: seq<Entry>, s: nat, start: nat, p: nat, skip: Option<UserKey>, hidden: Option<UserKey>)
    requires start <= p <= |es|
  {
    && SortedEntries(es)
    && (hidden.None? ==> skip.None?)
    && (hidden.Some? && skip.Some? ==> hidden.value >= skip.value)
    && NoneWantedIn(es, s, start, p, skip)
    && (hidden.Some? ==> forall i :: p <= i < |es| && es[i].key <= hidden.value ==> !Wanted(es, s, i, skip))
    && CleanStart(es, s, p, hidden)
  }

  lemma SkipStarts(es: seq<Entry>, s: nat, start: nat, skip: Option<UserKey>)
    requires start <= |es| && SortedEntries(es) && CleanStart(es, s, start, skip)
    ensures Skipping(es, s, start, start, skip, skip)
  {
  }

  lemma CleanPast(es: seq<Entry>, s: nat, p: nat, hidden: Option<UserKey>)
    requires p < |es| && CleanStart(es, s, p, hidden)
    requires es[p].sn > s || (hidden.Some? && es[p].key <= hidden.value)
    ensures CleanStart(es, s, p + 1, hidden)
  {
  }

  lemma CleanAfterMarker(es: seq<Entry>, s: nat, p: nat, hidden: Option<UserKey>)
    requires p < |es| && SortedEntries(es) && CleanStart(es, s, p, hidden) && es[p].sn <= s
    ensures CleanStart(es, s, p + 1, Some(es[p].key))
    ensures hidden.Some? ==> es[p].key >= hidden.value
  {
    forall i | p < i < |es| ensures es[p].key <= es[i].key { KeysAscend(es, p, i); }
  }

  /** A deletion marker hides its key from itself on. */
  lemma MarkerHides(es: seq<Entry>, s: nat, p: nat)
    requires p < |es| && SortedEntries(es) && es[p].sn <= s && es[p].op.Delete?
    ensures forall i :: p <= i < |es| && es[i].key <= es[p].key ==> !Yields(es, s, i)
  {
    forall i | p <= i < |es| && es[i].key <= es[p].key ensures !Yields(es, s, i) {
      KeysAscend(es, p, i);
    }
  }

  /** What the entry at p does: a deletion hides its key, a value that is not hidden is the wanted entry,
      and anything else is passed over. */
  lemma SkipStep(es: seq<Entry>, s: nat, start: nat, p: nat, skip: Option<UserKey>, hidden: Option<UserKey>)
    requires start <= p < |es| && Skipping(es, s, start, p, skip, hidden)
    ensures var e := es[p];
            if e.sn <= s && e.op.Delete? then Skipping(es, s, start, p + 1, skip, Some(e.key))
            else if e.sn <= s && (hidden.Some? ==> e.key > hidden.value) then
              Yields(es, s, p) && Wanted(es, s, p, skip) && NoneWantedIn(es, s, start, p, skip)
            else Skipping(es, s, start, p + 1, skip, hidden)
  {
    var e := es[p];
    if e.sn <= s && e.op.Delete? {
      CleanAfterMarker(es, s, p, hidden);
      MarkerHides(es, s, p);
      hide SortedEntries, CleanStart, Yields;
    } else if e.sn <= s && (hidden.Some? ==> e.key > hidden.value) {
      hide SortedEntries;
    } else {
      CleanPast(es, s, p, hidden);
      hide SortedEntries, CleanStart;
    }
  }

  lemma SkipMeaning(es: seq<Entry>, s: nat, start: nat, p: nat, skip: Option<UserKey>, hidden: Option<UserKey>)
    requires start <= p <= |es| && Skipping(es, s, start, p, skip, hidden)
    ensures SortedEntries(es) && NoneWantedIn(es, s, start, p, skip)
  {
  }

  /** No entry before p that is within s has the key of an entry from p on, except keys up to the skipped
      one; and entries within s from p on do not fall below the skipped key. */
  ghost predicate CleanStart(es: seq<Entry>, s: nat, p: nat, skip: Option<UserKey>) {
    && (skip.Some? ==> forall i :: p <= i < |es| && es[i].sn <= s ==> es[i].key >= skip.value)
    && forall j, i :: 0 <= j < p <= i < |es| && es[j].key == es[i].key && (skip.Some? ==> es[i].key > skip.value) ==> es[j].sn > s
  }

  ghost predicate Wanted(es: seq<Entry>, s: nat, i: nat, skip: Option<UserKey>)
    requires i < |es|
  {
    Yields(es, s, i) && (skip.Some? ==> es[i].key > skip.value)
  }

  /** Moving backwards, the internal iterator stands before the current key's entries; what lies between
      is newer than s. (Entries newer than s may also be skipped over, so it need not stand just before.) */
  ghost predicate BehindCurrent(es: seq<Entry>, s: nat, pos: nat, at: nat)
    requires at < |es| && pos <= |es|
  {
    && (pos < |es| ==> pos < at && es[pos].key < es[at].key)
    && forall j :: (if pos < |es| then pos + 1 else 0) <= j < at ==> es[j].sn > s || es[j].key == es[at].key
  }

  datatype ValueType = kTypeDeletion | kTypeValue

  /** How many entries a backward scan has still ahead of it. */
  ghost function Ahead(n: nat, place: nat): nat {
    if place < n then place + 1 else 0
  }

  lemma AheadMeans(n: nat, place: nat)
    ensures Ahead(n, place) == if place < n then place + 1 else 0
  {
  }

  ghost predicate LastYield(es: seq<Entry>, s: nat, i: nat, n: nat)
    requires i < n <= |es|
  {
    Yields(es, s, i) && forall j :: i < j < n ==> !Yields(es, s, j)
  }

  lemma LastYieldYields(es: seq<Entry>, s: nat, i: nat, n: nat)
    requires i < n <= |es| && LastYield(es, s, i, n)
    ensures Yields(es, s, i)
  {
  }

  /** After scanning es[n..hi] backwards: seen is the least visible entry met, and nothing after it yields. */
  ghost predicate Scanned(es: seq<Entry>, s: nat, n: nat, hi: nat, seen: Option<nat>)
    requires n <= hi <= |es|
  {
    match seen
    case None => forall j :: n <= j < hi ==> es[j].sn > s
    case Some(i) =>
      && n <= i < hi && es[i].sn <= s
      && (forall j :: n <= j < i ==> es[j].sn > s)
      && forall j :: i < j < hi ==> !Yields(es, s, j)
  }

  /** A visible entry of a smaller key shows that the remembered entry is the newest visible one of its key. */
  lemma CompleteKey(es: seq<Entry>, s: nat, p: nat, hi: nat, i: nat)
    requires SortedEntries(es) && p < hi <= |es| && Scanned(es, s, p + 1, hi, Some(i))
    requires es[i].op.Put? && es[p].key < es[i].key
    ensures LastYield(es, s, i, hi)
    ensures es[p].sn <= s ==> BehindCurrent(es, s, p, i)
  {
    forall j | 0 <= j < i && es[j].key == es[i].key ensures es[j].sn > s {
      if j <= p { KeysAscend(es, j, p); }
    }
  }

  /** Nothing has been scanned yet. */
  lemma ScanStarts(es: seq<Entry>, s: nat, hi: nat)
    requires hi <= |es|
    ensures Scanned(es, s, hi, hi, None)
  {
  }

  lemma FirstStart(es: seq<Entry>, s: nat)
    ensures CleanStart(es, s, 0, None)
  {
  }

  lemma NothingBetween(es: seq<Entry>, s: nat, p: nat)
    requires p <= |es|
    ensures NoneWantedIn(es, s, p, p, None)
  {
  }

  /** The first wanted entry is the first one of the live map. */
  lemma FirstIsLive(es: seq<Entry>, s: nat, d: nat)
    requires SortedEntries(es) && d <= |es| && NoneWantedIn(es, s, 0, d, None) && (d < |es| ==> Wanted(es, s, d, None))
    ensures if d < |es| then |LiveMap(es, s)| > 0 && |LiveUpTo(es, s, d)| == 0 else |LiveMap(es, s)| == 0
  {
    NoneWanted(es, s, 0, d);
    if d < |es| { LiveAt(es, s, d); }
  }

  /** The last entry that yields is the last one of the live map. */
  lemma LastIsLive(es: seq<Entry>, s: nat, at: Option<nat>)
    requires SortedEntries(es)
    requires if at.Some? then at.value < |es| && LastYield(es, s, at.value, |es|) else forall i :: 0 <= i < |es| ==> !Yields(es, s, i)
    ensures at.Some? ==> |LiveMap(es, s)| > 0 && |LiveUpTo(es, s, at.value)| == |LiveMap(es, s)| - 1
    ensures at.None? ==> |LiveMap(es, s)| == 0
  {
    if at.Some? {
      LiveFlat(es, s, at.value + 1, |es|);
      LiveAt(es, s, at.value);
    } else {
      LiveFlat(es, s, 0, |es|);
    }
  }

  /** Where a standing cursor has its internal iterator. */
  lemma StandsBefore(es: seq<Entry>, s: nat, pos: nat, valid: bool, at: nat, direction: Direction,
                     savedKey: Option<UserKey>, savedValue: Value)
    requires valid && Stands(es, s, pos, valid, at, direction, savedKey, savedValue)
    ensures at < |es| && pos <= |es|
    ensures direction == Forward ==> pos == at
    ensures direction == Reverse ==> Ahead(|es|, pos) <= at && UnseenBetween(es, s, Ahead(|es|, pos), at)
  {
  }

  lemma SameKeyUnseen(es: seq<Entry>, s: nat, n: nat, c: nat)
    requires n <= c < |es| && forall j :: n <= j < c ==> es[j].key == es[c].key
    ensures UnseenBetween(es, s, n, c)
  {
  }

  /** Scanned to the front. */
  lemma ScanEnds(es: seq<Entry>, s: nat, hi: nat, seen: Option<nat>)
    requires hi <= |es| && Scanned(es, s, 0, hi, seen)
    ensures if seen.Some? && es[seen.value].op.Put? then
              LastYield(es, s, seen.value, hi) && BehindCurrent(es, s, |es|, seen.value)
            else forall i :: 0 <= i < hi ==> !Yields(es, s, i)
  {
  }

  /** An entry that is newer than the snapshot is passed over. */
  lemma ScanPasses(es: seq<Entry>, s: nat, p: nat, hi: nat, seen: Option<nat>)
    requires p < hi <= |es| && Scanned(es, s, p + 1, hi, seen) && es[p].sn > s
    ensures Scanned(es, s, p, hi, seen)
  {
  }

  /** A visible entry that is not of a smaller key than a remembered value hides it. */
  lemma SupersededBy(es: seq<Entry>, s: nat, p: nat, hi: nat, seen: Option<nat>)
    requires SortedEntries(es) && p < hi <= |es| && Scanned(es, s, p + 1, hi, seen)
    requires es[p].sn <= s
    requires seen.Some? && es[seen.value].op.Put? ==> es[p].key >= es[seen.value].key
    ensures Scanned(es, s, p, hi, Some(p))
  {
    if seen.Some? {
      KeysAscend(es, p, seen.value);
      assert !Yields(es, s, seen.value);
    }
  }

  /** The greatest yielding entry before c's key is the previous one of the live map. */
  lemma RetreatFrom(es: seq<Entry>, s: nat, c: nat, n: nat, d: Option<nat>)
    requires SortedEntries(es) && c < |es| && Yields(es, s, c) && n <= c && UnseenBetween(es, s, n, c)
    requires d.Some? ==> d.value < n && LastYield(es, s, d.value, n)
    requires d.None? ==> forall i :: 0 <= i < n ==> !Yields(es, s, i)
    ensures d.Some? ==> |LiveUpTo(es, s, d.value)| + 1 == |LiveUpTo(es, s, c)|
    ensures d.None? ==> |LiveUpTo(es, s, c)| == 0
  {
    if d.Some? {
      LiveFlat(es, s, d.value + 1, c);
    } else {
      LiveFlat(es, s, 0, c);
    }
  }

  /** The cursor is at entry at: moving forward, the internal iterator is there too; moving backwards, the key
      and the value are saved and the internal iterator stands before the key's entries. */
  ghost predicate Stands(es: seq<Entry>, s: nat, pos: nat, valid: bool, at: nat, direction: Direction,
                         savedKey: Option<UserKey>, savedValue: Value)
  {
    && SortedEntries(es) && pos <= |es|
    && (valid ==>
         && at < |es| && Yields(es, s, at)
         && (direction.Forward? ==> pos == at)
         && (direction.Reverse? ==>
              savedKey == Some(es[at].key) && savedValue == es[at].op.value && BehindCurrent(es, s, pos, at)))
  }

  lemma StandsForward(es: seq<Entry>, s: nat, pos: nat, savedKey: Option<UserKey>, savedValue: Value)
    requires SortedEntries(es) && pos < |es| && Yields(es, s, pos)
    ensures Stands(es, s, pos, true, pos, Forward, savedKey, savedValue)
  {
  }

  lemma StandsReverse(es: seq<Entry>, s: nat, pos: nat, at: nat)
    requires SortedEntries(es) && pos <= |es| && at < |es| && Yields(es, s, at) && BehindCurrent(es, s, pos, at)
    ensures Stands(es, s, pos, true, at, Reverse, Some(es[at].key), es[at].op.value)
  {
  }

  lemma StandsNowhere(es: seq<Entry>, s: nat, pos: nat, at: nat, direction: Direction, savedKey: Option<UserKey>, savedValue: Value)
    requires SortedEntries(es) && pos <= |es|
    ensures Stands(es, s, pos, false, at, direction, savedKey, savedValue)
  {
  }

  class DBIter {
    const iter: MergingIterator
    const sequence: nat
    var savedKey: Option<UserKey>
    var savedValue: Value
    var direction: Direction
    var valid: bool
    /** The entry that the cursor is at, when valid. */
    ghost var at: nat

    ghost predicate Valid()
      reads this, iter, iter.pos
    {
      iter.Valid() && Stands(iter.all, sequence, iter.place, valid, at, direction, savedKey, savedValue)
    }

    lemma IsValid()
      requires iter.Valid() && Stands(iter.all, sequence, iter.place, valid, at, direction, savedKey, savedValue)
      ensures Valid()
    {
    }

    lemma StandsThere()
      requires Valid()
      ensures iter.Valid() && Stands(iter.all, sequence, iter.place, valid, at, direction, savedKey, savedValue)
      ensures iter.HasEntry() <==> iter.place < |iter.all|
      ensures SortedEntries(iter.all) && iter.place <= |iter.all| && (valid ==> at < |iter.all| && Yields(iter.all, sequence, at))
    {
      iter.HasEntryMeans();
    }

    lemma PositionIs()
      requires Valid()
      ensures Position() == if valid then Some(|LiveUpTo(iter.all, sequence, at)|) else None
      ensures Live() == LiveMap(iter.all, sequence)
    {
    }

    ghost function Live(): seq<Pair> { LiveMap(iter.all, sequence) }

    /** The cursor's index in the live map. */
    ghost function Position(): Option<nat>
      reads this, iter, iter.pos
      requires Valid()
    {
      if valid then Some(|LiveUpTo(iter.all, sequence, at)|) else None
    }

    constructor (runs: seq<seq<Entry>>, ghost all: seq<Entry>, sequence: nat)
      requires MergeOf(all, runs)
      ensures Valid() && !valid && iter.runs == runs && iter.all == all && this.sequence == sequence
      ensures fresh(iter) && fresh(iter.pos)
    {
      iter := new MergingIterator(runs, all);
      this.sequence := sequence;
      savedKey, savedValue, direction, valid, at := None, [], Forward, false, 0;
    }

    method Key() returns (k: UserKey)
      requires Valid() && valid
      ensures Position().value < |Live()| && k == Live()[Position().value].0
    {
      LiveAt(iter.all, sequence, at);
      if direction == Forward {
        var e := iter.Key();
        k := e.key;
      } else {
        k := savedKey.value;
      }
    }

    method CurrentValue() returns (v: Value)
      requires Valid() && valid
      ensures Position().value < |Live()| && v == Live()[Position().value].1
    {
      LiveAt(iter.all, sequence, at);
      if direction == Forward {
        var e := iter.Key();
        v := e.op.value;
      } else {
        v := savedValue;
      }
    }

    /** A deletion within the snapshot hides its key; a value within it is acceptable unless its key is hidden. */
    method Judge(e: Entry, hidden: Option<UserKey>) returns (acceptable: bool, hidden': Option<UserKey>)
      ensures acceptable <==> e.sn <= sequence && e.op.Put? && (hidden.Some? ==> e.key > hidden.value)
      ensures hidden' == if e.sn <= sequence && e.op.Delete? then Some(e.key) else hidden
    {
      acceptable, hidden' := false, hidden;
      if e.sn <= sequence {
        if e.op.Delete? {
          hidden' := Some(e.key);
        } else if hidden.Some? && e.key <= hidden.value {
        } else {
          acceptable := true;
        }
      }
    }

    /** Loop until an acceptable entry is found; keys up to skip are passed over while skipping. */
    method FindNextUserEntry(skip: Option<UserKey>)
      requires iter.Valid() && iter.HasEntry() && direction == Forward
      requires CleanStart(iter.all, sequence, iter.place, skip)
      modifies this, iter, iter.pos
      ensures Valid() && direction == Forward
      ensures valid ==> at >= old(iter.place) && Wanted(iter.all, sequence, at, skip)
      ensures NoneWantedIn(iter.all, sequence, old(iter.place), if valid then at else |iter.all|, skip)
    {
      hide *;
      iter.HasEntryMeans();
      ghost var start := iter.place;
      var hidden := skip;
      SkipStarts(iter.all, sequence, start, skip);
      while iter.HasEntry()
        invariant iter.Valid() && start <= iter.place <= |iter.all| && direction == Forward
        invariant Skipping(iter.all, sequence, start, iter.place, skip, hidden)
        decreases |iter.all| - iter.place
      {
        iter.HasEntryMeans();
        SkipStep(iter.all, sequence, start, iter.place, skip, hidden);
        var e := iter.Key();
        var acceptable;
        acceptable, hidden := Judge(e, hidden);
        if acceptable {
          valid, at := true, iter.place;
          savedKey := None;
          StandsForward(iter.all, sequence, iter.place, savedKey, savedValue);
          IsValid();
          return;
        }
        iter.Next();
      }
      iter.HasEntryMeans();
      savedKey := None;
      valid := false;
      SkipMeaning(iter.all, sequence, start, iter.place, skip, hidden);
      StandsNowhere(iter.all, sequence, iter.place, at, direction, savedKey, savedValue);
      IsValid();
    }

    /** Stand at or before the current entry with only entries newer than s, or of the current key, in between. */
    method FaceForward()
      requires Valid() && valid
      modifies this, iter, iter.pos
      ensures unchanged(this`at) && unchanged(this`valid)
      ensures iter.Valid() && direction == Forward && savedKey == Some(iter.all[at].key)
      ensures iter.place <= at && UnseenBetween(iter.all, sequence, iter.place, at)
    {
      if direction == Reverse {
        direction := Forward;
        if !iter.HasEntry() {
          iter.SeekToFirst();
        } else {
          iter.Next();
        }
      } else {
        var e := iter.Key();
        savedKey := Some(e.key);
      }
    }

    /** Next; after turning round, the internal iterator is valid because the current entry is still ahead. */
    method Next()
      requires Valid() && valid
      modifies this, iter, iter.pos
      ensures Valid()
      ensures Position() == if old(Position()).value + 1 < |Live()| then Some(old(Position()).value + 1) else None
    {
      hide *;
      StandsThere();
      PositionIs();
      ghost var c := at;
      FaceForward();
      ghost var p := iter.place;
      iter.HasEntryMeans();
      SkipIsClean(iter.all, sequence, c, p);
      FindNextUserEntry(savedKey);
      StandsThere();
      AdvanceFrom(iter.all, sequence, c, p, if valid then at else |iter.all|);
      PositionIs();
    }

    method Remember(e: Entry) returns (valueType: ValueType)
      modifies this`savedKey, this`savedValue
      ensures valueType == if e.op.Put? then kTypeValue else kTypeDeletion
      ensures e.op.Put? ==> savedKey == Some(e.key) && savedValue == e.op.value
    {
      valueType := if e.op.Put? then kTypeValue else kTypeDeletion;
      if valueType == kTypeDeletion {
        savedKey := None;
        savedValue := [];
      } else {
        savedKey := Some(e.key);
        savedValue := e.op.value;
      }
    }

    /** Scan backwards, remembering the oldest visible entry of each key met, until a live key is complete. */
    method FindPrevUserEntry()
      requires iter.Valid() && direction == Reverse
      modifies this, iter, iter.pos
      ensures Valid() && (valid <==> direction == Reverse)
      ensures valid ==> at < old(Ahead(|iter.all|, iter.place)) && LastYield(iter.all, sequence, at, old(Ahead(|iter.all|, iter.place)))
      ensures !valid ==> forall i :: 0 <= i < old(Ahead(|iter.all|, iter.place)) ==> !Yields(iter.all, sequence, i)
    {
      hide *;
      iter.HasEntryMeans();
      AheadMeans(|iter.all|, iter.place);
      ghost var hi := Ahead(|iter.all|, iter.place);
      ghost var seen: Option<nat> := None;
      ScanStarts(iter.all, sequence, hi);
      ghost var n := hi;
      var valueType := kTypeDeletion;
      ghost var complete := false;
      while iter.HasEntry()
        invariant iter.Valid() && n <= hi <= |iter.all| && n == (if iter.place < |iter.all| then iter.place + 1 else 0)
        invariant direction == Reverse && Scanned(iter.all, sequence, n, hi, seen)
        invariant seen.Some? ==> seen.value < hi
        invariant !complete
        invariant valueType == if seen.Some? && iter.all[seen.value].op.Put? then kTypeValue else kTypeDeletion
        invariant valueType == kTypeValue ==>
          savedKey == Some(iter.all[seen.value].key) && savedValue == iter.all[seen.value].op.value
        decreases n
      {
        iter.HasEntryMeans();
        var e := iter.Key();
        if e.sn <= sequence {
          if valueType != kTypeDeletion && e.key < savedKey.value {
            CompleteKey(iter.all, sequence, iter.place, hi, seen.value);
            complete := true;
            break;
          }
          SupersededBy(iter.all, sequence, iter.place, hi, seen);
          seen := Some(iter.place);
          valueType := Remember(e);
        } else {
          ScanPasses(iter.all, sequence, iter.place, hi, seen);
        }
        iter.Prev();
        n := n - 1;
      }
      iter.HasEntryMeans();
      if !complete { ScanEnds(iter.all, sequence, hi, seen); }
      if valueType == kTypeDeletion {
        valid := false;
        savedKey := None;
        savedValue := [];
        direction := Forward;
        StandsNowhere(iter.all, sequence, iter.place, at, direction, savedKey, savedValue);
      } else {
        valid, at := true, seen.value;
        LastYieldYields(iter.all, sequence, at, hi);
        StandsReverse(iter.all, sequence, iter.place, at);
      }
      IsValid();
    }

    /** Stand before the current key's entries; not valid, if there is nothing before them. */
    method FaceBackward()
      requires Valid() && valid && direction == Forward
      modifies this`savedKey, iter, iter.pos
      ensures iter.Valid() && Ahead(|iter.all|, iter.place) <= at && UnseenBetween(iter.all, sequence, Ahead(|iter.all|, iter.place), at)
      ensures iter.HasEntry() <==> Ahead(|iter.all|, iter.place) > 0
    {
      hide *;
      StandsThere();
      StandsBefore(iter.all, sequence, iter.place, valid, at, direction, savedKey, savedValue);
      var e := iter.Key();
      savedKey := Some(e.key);
      iter.Prev();
      ghost var n := at;
      while iter.HasEntry()
        invariant iter.Valid() && n <= at && n == (if iter.place < |iter.all| then iter.place + 1 else 0)
        invariant savedKey == Some(iter.all[at].key)
        invariant forall j :: n <= j < at ==> iter.all[j].key == iter.all[at].key
        decreases n
      {
        iter.HasEntryMeans();
        e := iter.Key();
        if e.key < savedKey.value { break; }
        KeysAscend(iter.all, iter.place, at);
        iter.Prev();
        n := n - 1;
      }
      iter.HasEntryMeans();
      AheadMeans(|iter.all|, iter.place);
      SameKeyUnseen(iter.all, sequence, n, at);
    }

    method Prev()
      requires Valid() && valid
      modifies this, iter, iter.pos
      ensures Valid()
      ensures Position() == if old(Position()).value > 0 then Some(old(Position()).value - 1) else None
    {
      hide *;
      StandsThere();
      PositionIs();
      StandsBefore(iter.all, sequence, iter.place, valid, at, direction, savedKey, savedValue);
      ghost var c := at;
      if direction == Forward {
        FaceBackward();
        if !iter.HasEntry() {
          RetreatFrom(iter.all, sequence, c, 0, None);
          valid := false;
          savedKey := None;
          savedValue := [];
          iter.HasEntryMeans();
          StandsNowhere(iter.all, sequence, iter.place, at, direction, savedKey, savedValue);
          IsValid();
          PositionIs();
          return;
        }
        direction := Reverse;
      }
      ghost var n := Ahead(|iter.all|, iter.place);
      FindPrevUserEntry();
      StandsThere();
      RetreatFrom(iter.all, sequence, c, n, if valid then Some(at) else None);
      PositionIs();
    }

    method SeekToLast()
      requires Valid()
      modifies this, iter, iter.pos
      ensures Valid()
      ensures Position() == if |Live()| > 0 then Some(|Live()| - 1) else None
    {
      hide *;
      StandsThere();
      direction := Reverse;
      savedValue := [];
      iter.SeekToLast();
      AheadMeans(|iter.all|, iter.place);
      FindPrevUserEntry();
      StandsThere();
      LastIsLive(iter.all, sequence, if valid then Some(at) else None);
      PositionIs();
    }

    /** On to the first acceptable entry, if the internal iterator is at an entry at all. */
    method FromThere(ghost p: nat)
      requires iter.Valid() && p == iter.place && direction == Forward && CleanStart(iter.all, sequence, p, None)
      modifies this, iter, iter.pos
      ensures Valid()
      ensures valid ==> p <= at < |iter.all| && Wanted(iter.all, sequence, at, None)
      ensures NoneWantedIn(iter.all, sequence, p, if valid then at else |iter.all|, None)
    {
      hide *;
      iter.HasEntryMeans();
      if iter.HasEntry() {
        FindNextUserEntry(None);
        StandsThere();
      } else {
        valid := false;
        StandsNowhere(iter.all, sequence, iter.place, at, direction, savedKey, savedValue);
        IsValid();
        NothingBetween(iter.all, sequence, p);
      }
    }

    method Seek(target: UserKey)
      requires Valid()
      modifies this, iter, iter.pos
      ensures Valid()
      ensures Position().Some? ==> Position().value < |Live()| && Live()[Position().value].0 >= target
      ensures forall p :: 0 <= p < (if Position().Some? then Position().value else |Live()|) ==> Live()[p].0 < target
    {
      hide *;
      StandsThere();
      direction := Forward;
      savedValue := [];
      iter.Seek(SeekKey(target, sequence));
      ghost var p := iter.place;
      SeekStart(iter.all, sequence, target, p);
      FromThere(p);
      SeekLands(iter.all, sequence, target, p, if valid then at else |iter.all|);
      PositionIs();
    }

    method SeekToFirst()
      requires Valid()
      modifies this, iter, iter.pos
      ensures Valid()
      ensures Position() == if |Live()| > 0 then Some(0) else None
    {
      hide *;
      StandsThere();
      direction := Forward;
      savedValue := [];
      iter.SeekToFirst();
      FirstStart(iter.all, sequence);
      FromThere(0);
      FirstIsLive(iter.all, sequence, if valid then at else |iter.all|);
      PositionIs();
    }
  }

  ghost predicate UnseenBetween(es: seq<Entry>, s: nat, p: nat, c: nat)
    requires c < |es|
  {
    forall j :: p <= j < c ==> es[j].sn > s || es[j].key == es[c].key
  }

  lemma SkipIsClean(es: seq<Entry>, s: nat, c: nat, p: nat)
    requires SortedEntries(es) && c < |es| && p <= c && UnseenBetween(es, s, p, c)
    ensures CleanStart(es, s, p, Some(es[c].key))
  {
    forall j | 0 <= j <= c ensures es[j].key <= es[c].key {
      KeysAscend(es, j, c);
    }
    forall i | c <= i < |es| ensures es[i].key >= es[c].key {
      KeysAscend(es, c, i);
    }
  }

  lemma NoneWanted(es: seq<Entry>, s: nat, a: nat, b: nat)
    requires a <= b <= |es| && NoneWantedIn(es, s, a, b, None)
    ensures LiveUpTo(es, s, a) == LiveUpTo(es, s, b)
  {
    forall i | a <= i < b ensures !Yields(es, s, i) {
      assert !Wanted(es, s, i, None);
    }
    LiveFlat(es, s, a, b);
  }

  /** The least wanted entry after c is the next one of the live map. */
  lemma AdvanceFrom(es: seq<Entry>, s: nat, c: nat, p: nat, d: nat)
    requires SortedEntries(es) && c < |es| && Yields(es, s, c) && p <= c
    requires UnseenBetween(es, s, p, c)
    requires d <= |es| && (d < |es| ==> d >= p && Wanted(es, s, d, Some(es[c].key)))
    requires NoneWantedIn(es, s, p, d, Some(es[c].key))
    ensures d < |es| ==> |LiveUpTo(es, s, d)| == |LiveUpTo(es, s, c)| + 1 < |LiveMap(es, s)|
    ensures d == |es| ==> |LiveUpTo(es, s, c)| + 1 == |LiveMap(es, s)|
  {
    hide SortedEntries;
    if d <= c { KeysAscend(es, d, c); }
    forall i | c + 1 <= i < d ensures !Yields(es, s, i) {
      KeysAscend(es, c, i);
      assert !Wanted(es, s, i, Some(es[c].key));
    }
    LiveFlat(es, s, c + 1, d);
    LiveAt(es, s, c);
    if d < |es| { LiveAt(es, s, d); }
  }

  lemma SeekStart(es: seq<Entry>, s: nat, target: UserKey, p: nat)
    requires SortedEntries(es) && p == LowerBound(es, SeekKey(target, s))
    ensures CleanStart(es, s, p, None)
    ensures forall i :: 0 <= i < p ==> es[i].key < target || (es[i].key == target && es[i].sn > s)
    ensures forall i :: p <= i < |es| ==> es[i].key >= target
  {
    forall i | 0 <= i < p ensures es[i].key < target || (es[i].key == target && es[i].sn > s) {
      SeekKeyMeaning(es[i], target, s);
    }
    forall i | p <= i < |es| ensures es[i].key >= target {
      SeekKeyMeaning(es[p], target, s);
      KeysAscend(es, p, i);
    }
  }

  lemma SeekLands(es: seq<Entry>, s: nat, target: UserKey, p: nat, d: nat)
    requires SortedEntries(es) && p <= d <= |es|
    requires forall i :: 0 <= i < p ==> es[i].key < target || (es[i].key == target && es[i].sn > s)
    requires forall i :: p <= i < |es| ==> es[i].key >= target
    requires NoneWantedIn(es, s, p, d, None)
    requires d < |es| ==> Wanted(es, s, d, None)
    ensures d < |es| ==> |LiveUpTo(es, s, d)| < |LiveMap(es, s)| && LiveMap(es, s)[|LiveUpTo(es, s, d)|].0 >= target
    ensures if d == |es| then LiveUpTo(es, s, d) == LiveMap(es, s) else |LiveUpTo(es, s, d)| <= |LiveMap(es, s)|
    ensures forall q :: 0 <= q < |LiveUpTo(es, s, d)| ==> LiveMap(es, s)[q].0 < target
  {
    NoneWanted(es, s, p, d);
    LivePrefix(es, s, d, |es|);
    if d < |es| { LiveAt(es, s, d); }
    forall q | 0 <= q < |LiveUpTo(es, s, d)| ensures LiveMap(es, s)[q].0 < target {
      var pair := LiveUpTo(es, s, p)[q];
      LiveMembers(es, s, p, pair.0, pair.1);
      var i :| 0 <= i < p && Yields(es, s, i) && es[i].key == pair.0;
    }
  }
}
