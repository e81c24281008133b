/**
 Compaction: merging files of level L and L+1 while dropping entries that no
 live snapshot can see, and the proof that readers cannot tell.
 */
module Compactions {
  import opened Basics
  import opened Keys
  import opened Versions

  // ---------------------------------------------------------------------------
  // IsBaseLevelForKey with its monotone file pointers
  // ---------------------------------------------------------------------------

  /** No level below level+1 has a file whose range covers k. */
  ghost predicate BaseLevel(v: Version, level: nat, k: UserKey)
    requires ValidVersion(v)
  {
    forall l, i :: level + 2 <= l < kNumLevels && 0 <= i < |v[l]| ==> !CoversUserKey(v[l][i], k)
  }

  class Compaction {
    const v: Version
    const level: nat
    const levelPtrs: array<nat>
    /** The last key asked about; the keys of a compaction arrive in increasing order. */
    ghost var lastKey: Option<UserKey>

    ghost predicate Valid()
      reads this, levelPtrs
    {
      && ValidVersion(v)
      && levelPtrs.Length == kNumLevels
      && forall l :: 0 <= l < kNumLevels ==>
           && levelPtrs[l] <= |v[l]|
           && forall i :: 0 <= i < levelPtrs[l] ==> lastKey.Some? && Largest(v[l][i]).user < lastKey.value
    }

    ghost predicate MayAsk(k: UserKey)
      reads this
    {
      lastKey.Some? ==> lastKey.value <= k
    }

    constructor (v: Version, level: nat)
      requires ValidVersion(v)
      ensures Valid() && this.v == v && this.level == level && lastKey == None && fresh(levelPtrs)
    {
      this.v := v;
      this.level := level;
      levelPtrs := new nat[kNumLevels](_ => 0);
      lastKey := None;
    }

    /** Advance the pointer of one level up to the file that could cover k. */
    method LevelCovers(lvl: nat, k: UserKey) returns (r: bool)
      requires Valid() && lastKey == Some(k) && 1 <= lvl < kNumLevels
      modifies levelPtrs
      ensures Valid()
      ensures r <==> exists i :: 0 <= i < |v[lvl]| && CoversUserKey(v[lvl][i], k)
    {
      while levelPtrs[lvl] < |v[lvl]|
        invariant Valid()
        decreases |v[lvl]| - levelPtrs[lvl]
      {
        var f := v[lvl][levelPtrs[lvl]];
        if k <= Largest(f).user {
          if k >= Smallest(f).user {
            assert CoversUserKey(v[lvl][levelPtrs[lvl]], k);
            return true;
          }
          LaterFilesAreLarger(v[lvl], levelPtrs[lvl], k);
          return false;
        }
        levelPtrs[lvl] := levelPtrs[lvl] + 1;
      }
      return false;
    }

    /** The pointers only move forward, yet the answer is exact. */
    method IsBaseLevelForKey(k: UserKey) returns (r: bool)
      requires Valid() && MayAsk(k)
      modifies this, levelPtrs
      ensures Valid() && lastKey == Some(k)
      ensures r <==> BaseLevel(v, level, k)
    {
      lastKey := Some(k);
      var lvl := level + 2;
      while lvl < kNumLevels
        invariant level + 2 <= lvl
        invariant Valid() && lastKey == Some(k)
        invariant forall l, i :: level + 2 <= l < lvl && l < kNumLevels && 0 <= i < |v[l]| ==> !CoversUserKey(v[l][i], k)
      {
        var covers := LevelCovers(lvl, k);
        if covers {
          return false;
        }
        lvl := lvl + 1;
      }
      return true;
    }
  }

  lemma LaterFilesAreLarger(files: Level, p: nat, k: UserKey)
    requires ValidFiles(files) && SortedFiles(files)
    requires p < |files| && k < Smallest(files[p]).user
    ensures forall i :: p <= i < |files| ==> k < Smallest(files[i]).user
  {
    forall i | p < i < |files| ensures k < Smallest(files[i]).user {
      WithinFile(files[p], files[p].entries[|files[p].entries| - 1]);
    }
  }

  // ---------------------------------------------------------------------------
  // The compaction loop
  // ---------------------------------------------------------------------------

  /** An earlier, that is newer, entry for the same key is itself within the smallest snapshot. */
  ghost predicate Hidden(input: seq<Entry>, i: nat, smallest: nat)
    requires i < |input|
  {
    exists j :: 0 <= j < i && input[j].key == input[i].key && input[j].sn <= smallest
  }

  /** A deletion marker that no snapshot needs and below which there is no data. */
  ghost predicate Obsolete(v: Version, level: nat, e: Entry, smallest: nat)
    requires ValidVersion(v)
  {
    e.op.Delete? && e.sn <= smallest && BaseLevel(v, level, e.key)
  }

  ghost predicate Keep(v: Version, level: nat, input: seq<Entry>, i: nat, smallest: nat)
    requires ValidVersion(v) && i < |input|
  {
    !Hidden(input, i, smallest) && !Obsolete(v, level, input[i], smallest)
  }

  /** The entries among the first n that survive, in order. */
  ghost function Kept(v: Version, level: nat, input: seq<Entry>, n: nat, smallest: nat): seq<Entry>
    requires ValidVersion(v) && n <= |input|
  {
    if n == 0 then []
    else Kept(v, level, input, n - 1, smallest) +
         (if Keep(v, level, input, n - 1, smallest) then [input[n - 1]] else [])
  }

  function Flatten(files: seq<seq<Entry>>): seq<Entry> {
    if files == [] then [] else Flatten(files[..|files| - 1]) + files[|files| - 1]
  }

  ghost predicate NoneEmpty(files: seq<seq<Entry>>) { forall i :: 0 <= i < |files| ==> files[i] != [] }

  /** Comparing with the previous entry decides whether an entry is hidden. */
  lemma HiddenByPrevious(input: seq<Entry>, i: nat, smallest: nat)
    requires SortedEntries(input) && i < |input|
    ensures Hidden(input, i, smallest) <==>
            i > 0 && input[i - 1].key == input[i].key && input[i - 1].sn <= smallest
  {
    if Hidden(input, i, smallest) {
      var j :| 0 <= j < i && input[j].key == input[i].key && input[j].sn <= smallest;
      assert Before(input[i - 1], input[i]);
      if j < i - 1 { assert Before(input[j], input[i - 1]); }
    }
  }

  /** The drop rules of the loop, for the entry at position i. */
  method ShouldDrop(c: Compaction, input: seq<Entry>, i: nat, smallest: nat, lastSequenceForKey: nat) returns (drop: bool)
    requires c.Valid() && SortedEntries(input) && i < |input| && c.MayAsk(input[i].key)
    requires smallest < kMaxSequenceNumber
    requires lastSequenceForKey == if i > 0 && input[i - 1].key == input[i].key then input[i - 1].sn else kMaxSequenceNumber
    modifies c, c.levelPtrs
    ensures c.Valid() && forall k :: input[i].key <= k ==> c.MayAsk(k)
    ensures drop <==> !Keep(c.v, c.level, input, i, smallest)
  {
    HiddenByPrevious(input, i, smallest);
    drop := false;
    if lastSequenceForKey <= smallest {
      drop := true;
    } else if input[i].op.Delete? && input[i].sn <= smallest {
      drop := c.IsBaseLevelForKey(input[i].key);
    }
  }

  /** The finished outputs and the one being built hold the entries kept so far. */
  ghost predicate Written(outputs: seq<seq<Entry>>, builder: seq<Entry>, kept: seq<Entry>) {
    NoneEmpty(outputs) && Flatten(outputs) + builder == kept
  }

  lemma NothingWritten(v: Version, level: nat, input: seq<Entry>, smallest: nat)
    requires ValidVersion(v)
    ensures Written([], [], Kept(v, level, input, 0, smallest))
  {
  }

  lemma WriteNext(v: Version, level: nat, input: seq<Entry>, n: nat, smallest: nat, outputs: seq<seq<Entry>>, builder: seq<Entry>)
    requires ValidVersion(v) && n < |input| && Written(outputs, builder, Kept(v, level, input, n, smallest))
    ensures Written(outputs, if Keep(v, level, input, n, smallest) then builder + [input[n]] else builder,
                    Kept(v, level, input, n + 1, smallest))
  {
    Regroup(Flatten(outputs), builder, [input[n]]);
  }

  lemma AllWritten(outputs: seq<seq<Entry>>, kept: seq<Entry>)
    requires Written(outputs, [], kept)
    ensures NoneEmpty(outputs) && Flatten(outputs) == kept
  {
    assert Flatten(outputs) + [] == Flatten(outputs);
  }

  /** DoCompactionWork over the merged input. The decisions to close an output file, which
      depend on byte sizes and on grandparent overlap, are arbitrary. */
  method DoCompactionWork(c: Compaction, input: seq<Entry>, smallest: nat, stopBefore: seq<bool>, bigEnough: seq<bool>)
    returns (outputs: seq<seq<Entry>>)
    requires c.Valid() && c.lastKey == None
    requires SortedEntries(input) && |stopBefore| == |bigEnough| == |input|
    requires smallest < kMaxSequenceNumber
    modifies c, c.levelPtrs
    ensures Flatten(outputs) == Kept(c.v, c.level, input, |input|, smallest)
    ensures NoneEmpty(outputs)
  {
    assert forall k :: c.MayAsk(k);
    hide *;
    NothingWritten(c.v, c.level, input, smallest);
    outputs := [];
    var builder: seq<Entry> := [];
    var currentUserKey: Option<UserKey> := None;
    var lastSequenceForKey := kMaxSequenceNumber;
    for i := 0 to |input|
      invariant c.Valid()
      invariant i < |input| ==> c.MayAsk(input[i].key)
      invariant i == 0 ==> currentUserKey == None
      invariant i > 0 ==> currentUserKey == Some(input[i - 1].key) && lastSequenceForKey == input[i - 1].sn
      invariant Written(outputs, builder, Kept(c.v, c.level, input, i, smallest))
    {
      outputs, builder := CutOutput(outputs, builder, stopBefore[i]);
      if currentUserKey == None || currentUserKey.value != input[i].key {
        currentUserKey := Some(input[i].key);
        lastSequenceForKey := kMaxSequenceNumber;
      }
      var drop := ShouldDrop(c, input, i, smallest, lastSequenceForKey);
      lastSequenceForKey := input[i].sn;
      WriteNext(c.v, c.level, input, i, smallest, outputs, builder);
      if !drop {
        builder := builder + [input[i]];
        outputs, builder := CutOutput(outputs, builder, bigEnough[i]);
      }
      NextKey(input, i);
    }
    outputs, builder := CutOutput(outputs, builder, true);
    AllWritten(outputs, Kept(c.v, c.level, input, |input|, smallest));
  }

  lemma NextKey(input: seq<Entry>, i: nat)
    requires SortedEntries(input) && i < |input|
    ensures i + 1 < |input| ==> input[i].key <= input[i + 1].key
  {
    assert i + 1 < |input| ==> Before(input[i], input[i + 1]);
  }

  /** Where the current output file is to end, and has entries, it is finished. */
  method CutOutput(outputs: seq<seq<Entry>>, builder: seq<Entry>, end: bool)
    returns (outputs': seq<seq<Entry>>, builder': seq<Entry>)
    ensures end ==> builder' == []
    ensures Flatten(outputs') + builder' == Flatten(outputs) + builder
    ensures forall kept :: Written(outputs, builder, kept) ==> Written(outputs', builder', kept)
  {
    outputs', builder' := outputs, builder;
    if end && builder != [] {
      outputs', builder' := outputs + [builder], [];
      assert outputs'[..|outputs|] == outputs;
    }
  }

  // ---------------------------------------------------------------------------
  // Dropping entries without changing what readers see
  // ---------------------------------------------------------------------------

  ghost predicate UniqueSequences(es: set<Entry>) {
    forall x, y :: x in es && y in es && x.key == y.key && x.sn == y.sn ==> x == y
  }

  /** An entry that may go: hidden by a newer entry within the smallest snapshot, or a deletion
      marker within it with nothing older left. */
  ghost predicate MayGo(before: set<Entry>, after: set<Entry>, smallest: nat, d: Entry) {
    || (exists p :: p in before && p.key == d.key && d.sn < p.sn <= smallest)
    || (d.op.Delete? && forall x :: x in after && x.key == d.key ==> x.sn > d.sn)
  }

  /** Removing only entries that may go leaves every read at every snapshot from smallest on unchanged. */
  lemma DroppingPreservesReads(before: set<Entry>, after: set<Entry>, smallest: nat, k: UserKey, s: nat)
    requires UniqueSequences(before) && after <= before
    requires forall d :: d in before && d !in after ==> MayGo(before, after, smallest, d)
    requires smallest <= s
    ensures SameReads(before, after, k, s)
  {
    forall e | IsLatest(before, k, s, e) ensures e in after ==> IsLatest(after, k, s, e)
      ensures e !in after ==> e.op.Delete? && forall x :: x in after ==> !Candidate(x, k, s)
    {
      if e !in after {
        assert MayGo(before, after, smallest, e);
        forall x | x in after ensures !Candidate(x, k, s) {
        }
      }
    }
    forall e | IsLatest(after, k, s, e) ensures IsLatest(before, k, s, e) {
      var m := LatestExists(before, k, s, e);
      assert m in after ==> m.sn == e.sn;
    }
  }

  // ---------------------------------------------------------------------------
  // Installing the result
  // ---------------------------------------------------------------------------

  ghost function RestContent(files: Level, inputs: Level): set<Entry> {
    set f, e | f in files && f !in inputs && e in f.entries :: e
  }

  ghost predicate NoSharedKeys(a: set<Entry>, b: set<Entry>) {
    forall x, y :: x in a && y in b ==> x.key != y.key
  }

  /** The inputs of a compaction of level L: in0 lies within [lo, hi], and in1 is every
      file of the next level that meets [lo, hi]. */
  ghost predicate ValidInputs(v: Version, level: nat, in0: Level, in1: Level, lo: UserKey, hi: UserKey)
    requires ValidVersion(v)
  {
    && level + 1 < kNumLevels
    && (forall f :: f in in0 ==> f in v[level] && ValidFile(f) && lo <= Smallest(f).user && Largest(f).user <= hi)
    && (forall f :: f in in1 ==> f in v[level + 1])
    && forall f :: f in v[level + 1] && |f.entries| > 0 ==>
         (f in in1 <==> Smallest(f).user <= hi && lo <= Largest(f).user)
  }

  /** No user key occurs both in an input file and in a file of the same level that is left out. */
  ghost predicate ClosedInputs(v: Version, level: nat, in0: Level, in1: Level)
    requires level + 1 < |v|
  {
    && NoSharedKeys(Content(in0), RestContent(v[level], in0))
    && NoSharedKeys(Content(in1), RestContent(v[level + 1], in1))
  }

  /** The version edit of a compaction: the inputs go, the outputs enter level L+1. */
  ghost predicate Installed(v: Version, level: nat, in0: Level, in1: Level, outs: Level, v': Version) {
    && |v| == |v'| && level + 1 < |v|
    && (forall l :: 0 <= l < |v| && l != level && l != level + 1 ==> v'[l] == v[l])
    && (forall f :: f in v'[level] <==> f in v[level] && f !in in0)
    && (forall f :: f in v'[level + 1] <==> (f in v[level + 1] && f !in in1) || f in outs)
  }

  /** The compaction input iterator, and the surviving entries in the output files. */
  ghost predicate Merged(in0: Level, in1: Level, input: seq<Entry>) {
    SortedEntries(input) && Elements(input) == Content(in0) + Content(in1)
  }

  ghost predicate Survivors(v: Version, level: nat, input: seq<Entry>, smallest: nat, outs: Level)
    requires ValidVersion(v)
  {
    forall e :: e in Content(outs) <==> exists i :: 0 <= i < |input| && input[i] == e && Keep(v, level, input, i, smallest)
  }

  lemma InLevel(v: Version, l: nat, f: File, e: Entry)
    requires l < |v| && f in v[l] && e in f.entries
    ensures e in Content(v[l]) && e in Contents(v)
  {
    assert v[l] in v;
  }

  /** Contents only lose entries. */
  lemma AfterIsSubset(v: Version, level: nat, in0: Level, in1: Level, outs: Level, v': Version)
    requires level + 1 < |v|
    requires (forall f :: f in in0 ==> f in v[level]) && (forall f :: f in in1 ==> f in v[level + 1])
    requires Content(outs) <= Content(in0) + Content(in1) && Installed(v, level, in0, in1, outs, v')
    ensures Contents(v') <= Contents(v)
  {
    forall e | e in Contents(v') ensures e in Contents(v) {
      var l, f :| 0 <= l < |v'| && f in v'[l] && e in f.entries;
      if l == level + 1 && f in outs {
        assert e in Content(outs);
        if e in Content(in0) {
          var g :| g in in0 && e in g.entries;
          InLevel(v, level, g, e);
        } else {
          var g :| g in in1 && e in g.entries;
          InLevel(v, level + 1, g, e);
        }
      } else {
        InLevel(v, l, f, e);
      }
    }
  }

  /** An entry that disappears is an input entry that the loop did not keep. */
  lemma GoneWasDropped(v: Version, level: nat, in0: Level, in1: Level, input: seq<Entry>, smallest: nat, outs: Level,
                       v': Version, d: Entry) returns (i: nat)
    requires ValidVersion(v) && Merged(in0, in1, input) && level + 1 < kNumLevels
    requires Survivors(v, level, input, smallest, outs) && Installed(v, level, in0, in1, outs, v')
    requires d in Contents(v) && d !in Contents(v')
    ensures i < |input| && input[i] == d && !Keep(v, level, input, i, smallest)
  {
    var l, f :| 0 <= l < |v| && f in v[l] && d in f.entries;
    if f in v'[l] { InLevel(v', l, f, d); }
    assert f in in0 || f in in1;
    assert d in Content(in0) + Content(in1);
    assert d in Elements(input);
    i :| 0 <= i < |input| && input[i] == d;
    if Keep(v, level, input, i, smallest) {
      assert d in Content(outs);
      var g :| g in outs && d in g.entries;
      InLevel(v', level + 1, g, d);
    }
  }

  lemma OrderOfSameKey(input: seq<Entry>, j: nat, i: nat)
    requires SortedEntries(input) && j <= i < |input| && input[j].key == input[i].key
    ensures input[j].sn >= input[i].sn
  {
    assert j < i ==> Before(input[j], input[i]);
  }

  lemma InputsAreContents(v: Version, level: nat, in0: Level, in1: Level, x: Entry)
    requires level + 1 < |v| && x in Content(in0) + Content(in1)
    requires (forall f :: f in in0 ==> f in v[level]) && (forall f :: f in in1 ==> f in v[level + 1])
    ensures x in Contents(v)
  {
    if x in Content(in0) {
      var g :| g in in0 && x in g.entries;
      InLevel(v, level, g, x);
    } else {
      var g :| g in in1 && x in g.entries;
      InLevel(v, level + 1, g, x);
    }
  }

  /** Where a key is in its base level, no deeper level holds it. */
  lemma NoDeeperEntry(v: Version, level: nat, l: nat, f: File, x: Entry)
    requires ValidVersion(v) && BaseLevel(v, level, x.key)
    requires l < kNumLevels && f in v[l] && x in f.entries
    ensures l < level + 2
  {
    var q :| 0 <= q < |v[l]| && v[l][q] == f;
    WithinFile(f, x);
    assert l >= level + 2 ==> CoversUserKey(v[l][q], x.key);
  }

  /** A file of level L+1 that is left out has no key in common with the inputs of level L. */
  lemma LeftOutBelowSharesNothing(v: Version, level: nat, in0: Level, in1: Level, lo: UserKey, hi: UserKey,
                                  g: File, d: Entry, f: File, x: Entry)
    requires ValidVersion(v) && ValidInputs(v, level, in0, in1, lo, hi)
    requires g in in0 && d in g.entries && f in v[level + 1] && f !in in1 && x in f.entries
    ensures x.key != d.key
  {
    var q :| 0 <= q < |v[level + 1]| && v[level + 1][q] == f;
    WithinFile(f, x);
    WithinFile(g, d);
  }

  /** Entries left in place that share the key of a dropped marker are newer than it. */
  lemma RestIsNewer(v: Version, level: nat, in0: Level, in1: Level, m: nat, g: File, d: Entry, l: nat, f: File, x: Entry)
    requires ShallowerIsNewer(v) && level + 1 < |v| && ClosedInputs(v, level, in0, in1)
    requires m == level ==> g in in0
    requires m == level + 1 ==> g in in1
    requires level <= m <= level + 1 && g in v[m] && d in g.entries
    requires l <= m && f in v[l] && x in f.entries && x.key == d.key
    requires l == level ==> f !in in0
    requires l == level + 1 ==> f !in in1
    ensures x.sn > d.sn
  {
    assert d in Content(v[m]) && x in Content(v[l]);
    if l < m {
      assert Newer(Content(v[l]), Content(v[m]));
    }
  }

  /** A kept entry of the key of a dropped marker is newer than it. */
  lemma KeptIsNewer(v: Version, input: seq<Entry>, level: nat, smallest: nat, i: nat, j: nat)
    requires ValidVersion(v) && SortedEntries(input) && i < |input| && j < |input|
    requires input[i].sn <= smallest && !Keep(v, level, input, i, smallest)
    requires input[j].key == input[i].key && Keep(v, level, input, j, smallest)
    ensures j < i && input[j].sn >= input[i].sn
  {
    if j <= i {
      OrderOfSameKey(input, j, i);
    }
  }

  lemma InputFile(v: Version, level: nat, in0: Level, in1: Level, d: Entry) returns (m: nat, g: File)
    requires level + 1 < |v| && d in Content(in0) + Content(in1)
    requires (forall f :: f in in0 ==> f in v[level]) && (forall f :: f in in1 ==> f in v[level + 1])
    ensures level <= m <= level + 1 && g in v[m] && d in g.entries
    ensures m == level ==> g in in0
    ensures m == level + 1 ==> g in in1
    ensures d in Contents(v)
  {
    if d in Content(in0) {
      m := level;
      g :| g in in0 && d in g.entries;
    } else {
      m := level + 1;
      g :| g in in1 && d in g.entries;
    }
    InLevel(v, m, g, d);
  }

  /** The surviving inputs are newer than a dropped marker of their key. */
  lemma OutputIsNewer(v: Version, level: nat, in0: Level, in1: Level, input: seq<Entry>, smallest: nat, outs: Level,
                      i: nat, x: Entry)
    requires ValidVersion(v) && UniqueSequences(Contents(v)) && level + 1 < |v|
    requires (forall f :: f in in0 ==> f in v[level]) && (forall f :: f in in1 ==> f in v[level + 1])
    requires Merged(in0, in1, input) && Survivors(v, level, input, smallest, outs)
    requires i < |input| && input[i].sn <= smallest && !Keep(v, level, input, i, smallest)
    requires x in Content(outs) && x.key == input[i].key
    ensures x.sn > input[i].sn
  {
    var j :| 0 <= j < |input| && input[j] == x && Keep(v, level, input, j, smallest);
    KeptIsNewer(v, input, level, smallest, i, j);
    assert Before(input[j], input[i]);
    assert x in Elements(input) && input[i] in Elements(input);
    InputsAreContents(v, level, in0, in1, x);
    InputsAreContents(v, level, in0, in1, input[i]);
  }

  /** After an obsolete deletion marker is dropped, nothing older remains for its key. */
  lemma NothingOlderRemains(v: Version, level: nat, in0: Level, in1: Level, lo: UserKey, hi: UserKey,
                            input: seq<Entry>, smallest: nat, outs: Level, v': Version, i: nat, x: Entry)
    requires ValidVersion(v) && UniqueSequences(Contents(v))
    requires ValidInputs(v, level, in0, in1, lo, hi) && ClosedInputs(v, level, in0, in1)
    requires Merged(in0, in1, input) && Survivors(v, level, input, smallest, outs)
    requires Installed(v, level, in0, in1, outs, v')
    requires i < |input| && Obsolete(v, level, input[i], smallest) && !Keep(v, level, input, i, smallest)
    requires x in Contents(v') && x.key == input[i].key
    ensures x.sn > input[i].sn
  {
    var l, f :| 0 <= l < |v'| && f in v'[l] && x in f.entries;
    if l == level + 1 && f in outs {
      assert x in Content(outs);
      OutputIsNewer(v, level, in0, in1, input, smallest, outs, i, x);
    } else {
      assert input[i] in Elements(input);
      var m, g := InputFile(v, level, in0, in1, input[i]);
      RestOrBelow(v, level, in0, in1, lo, hi, m, g, input[i], l, f, x);
    }
  }

  lemma RestOrBelow(v: Version, level: nat, in0: Level, in1: Level, lo: UserKey, hi: UserKey,
                    m: nat, g: File, d: Entry, l: nat, f: File, x: Entry)
    requires ValidVersion(v) && ValidInputs(v, level, in0, in1, lo, hi) && ClosedInputs(v, level, in0, in1)
    requires BaseLevel(v, level, d.key)
    requires m == level ==> g in in0
    requires m == level + 1 ==> g in in1
    requires level <= m <= level + 1 && g in v[m] && d in g.entries
    requires l < kNumLevels && f in v[l] && x in f.entries && x.key == d.key
    requires l == level ==> f !in in0
    requires l == level + 1 ==> f !in in1
    ensures x.sn > d.sn
  {
    assert ShallowerIsNewer(v) && level + 1 < |v| by {
      hide ClosedInputs, BaseLevel, ShallowerIsNewer, ValidFiles, SortedFiles, OrderedFiles, NewestByNumber;
    }
    hide ValidInputs, ClosedInputs, BaseLevel, ValidVersion, ShallowerIsNewer;
    NoDeeperEntry(v, level, l, f, x);
    if l > m {
      LeftOutBelowSharesNothing(v, level, in0, in1, lo, hi, g, d, f, x);
    } else {
      RestIsNewer(v, level, in0, in1, m, g, d, l, f, x);
    }
  }

  /** Compaction preserves meaning: for every user key and every snapshot at or above the smallest
      live one, a reader sees the same before and after. */
  lemma CompactionPreservesReads(v: Version, shallow: set<Entry>, level: nat, in0: Level, in1: Level, lo: UserKey, hi: UserKey,
                                 input: seq<Entry>, smallest: nat, outs: Level, v': Version, k: UserKey, s: nat)
    requires ValidVersion(v) && Newer(shallow, Contents(v)) && UniqueSequences(shallow + Contents(v))
    requires ValidInputs(v, level, in0, in1, lo, hi) && ClosedInputs(v, level, in0, in1)
    requires Merged(in0, in1, input) && Survivors(v, level, input, smallest, outs)
    requires Installed(v, level, in0, in1, outs, v')
    requires smallest <= s
    ensures SameReads(shallow + Contents(v), shallow + Contents(v'), k, s)
  {
    var before, after := shallow + Contents(v), shallow + Contents(v');
    assert Content(outs) <= Content(in0) + Content(in1) by {
      forall e | e in Content(outs) ensures e in Content(in0) + Content(in1) {
        assert e in Elements(input);
      }
    }
    AfterIsSubset(v, level, in0, in1, outs, v');
    forall d | d in before && d !in after ensures MayGo(before, after, smallest, d) {
      DroppedMayGo(v, shallow, level, in0, in1, lo, hi, input, smallest, outs, v', d);
    }
    DroppingPreservesReads(before, after, smallest, k, s);
  }

  lemma DroppedMayGo(v: Version, shallow: set<Entry>, level: nat, in0: Level, in1: Level, lo: UserKey, hi: UserKey,
                     input: seq<Entry>, smallest: nat, outs: Level, v': Version, d: Entry)
    requires ValidVersion(v) && Newer(shallow, Contents(v)) && UniqueSequences(shallow + Contents(v))
    requires ValidInputs(v, level, in0, in1, lo, hi) && ClosedInputs(v, level, in0, in1)
    requires Merged(in0, in1, input) && Survivors(v, level, input, smallest, outs)
    requires Installed(v, level, in0, in1, outs, v')
    requires d in Contents(v) && d !in shallow + Contents(v')
    ensures MayGo(shallow + Contents(v), shallow + Contents(v'), smallest, d)
  {
    var i := GoneWasDropped(v, level, in0, in1, input, smallest, outs, v', d);
    if Hidden(input, i, smallest) {
      var j :| 0 <= j < i && input[j].key == input[i].key && input[j].sn <= smallest;
      OrderOfSameKey(input, j, i);
      assert Before(input[j], input[i]);
      assert input[j] in Elements(input);
      InputsAreContents(v, level, in0, in1, input[j]);
    } else {
      forall x | x in shallow + Contents(v') && x.key == d.key ensures x.sn > d.sn {
        if x !in shallow {
          NothingOlderRemains(v, level, in0, in1, lo, hi, input, smallest, outs, v', i, x);
        }
      }
    }
  }
}
