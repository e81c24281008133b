/**
 Merging compactions whose inputs are cut off inside a user key: exactly when the
 new version is in order, and exactly when no reader can tell.
 */
module Boundaries {
  import opened Basics
  import opened Keys
  import opened Versions
  import opened Compactions
  import opened CompactionOrder
  import opened Stretches
  import opened Picking

  // ---------------------------------------------------------------------------
  // A choice and its right-hand boundary
  // ---------------------------------------------------------------------------

  /** The file after the inputs goes on with their last user key. */
  ghost predicate GoesOn(files: Level, b: nat)
    requires ValidFiles(files)
  {
    0 < b < |files| && Largest(files[b - 1]).user == Smallest(files[b]).user
  }

  /** A merging compaction of level L and what it installs. */
  ghost predicate Merging(v: Version, level: nat, in0: Level, in1: Level, lo: UserKey, hi: UserKey,
                          input: seq<Entry>, smallest: nat, outs: Level, v': Version) {
    && ValidVersion(v) && UniqueSequences(Contents(v))
    && ValidInputs(v, level, in0, in1, lo, hi)
    && (level == 0 ==> NoSharedKeys(Content(in0), RestContent(v[0], in0)))
    && Merged(in0, in1, input) && Survivors(v, level, input, smallest, outs)
    && Installed(v, level, in0, in1, outs, v')
  }

  /** The loop drops this entry as a deletion marker that covers nothing, not as one that is hidden. */
  ghost predicate DropsMarker(v: Version, level: nat, input: seq<Entry>, smallest: nat, i: nat)
    requires ValidVersion(v) && i < |input|
  {
    !Hidden(input, i, smallest) && Obsolete(v, level, input[i], smallest)
  }

  lemma SameNumberSameEntry(v: Version, x: Entry, y: Entry)
    requires UniqueSequences(Contents(v)) && x in Contents(v) && y in Contents(v) && x.key == y.key && x.sn == y.sn
    ensures x == y
  {
  }

  /** Before means newer, for one user key. */
  lemma BeforeIsNewer(x: Entry, y: Entry)
    requires Before(x, y) && x.key == y.key
    ensures x.sn >= y.sn
  {
  }

  /** An older entry of the same key in a later file that is left out: then the first file left out goes on with the
      key, and its first entry is between the two. */
  lemma AcrossBoundary(files: Level, inputs: Level, a: nat, b: nat, p: nat, q: nat, t: Entry, z: Entry)
    requires ValidFiles(files) && SortedFiles(files) && Stretch(files, inputs, a, b)
    requires a <= p < b <= q < |files| && t in files[p].entries && z in files[q].entries && t.key == z.key
    ensures GoesOn(files, b)
    ensures var x := files[b].entries[0];
            x.key == t.key && Before(t, x) && (x == z || Before(x, z))
  {
    var last, x := files[b - 1].entries[|files[b - 1].entries| - 1], files[b].entries[0];
    WithinFile(files[p], t);
    WithinFile(files[q], z);
    if p < b - 1 { OrderAcross(files, p, b - 1, t, last); }
    OrderAcross(files, b - 1, b, last, x);
    OrderAcross(files, p, b, t, x);
    if b < q { OrderAcross(files, b, q, x, z); }
    if b == q && x != z {
      var j :| 0 <= j < |files[q].entries| && files[q].entries[j] == z;
      assert Before(files[q].entries[0], files[q].entries[j]);
    }
  }

  // ---------------------------------------------------------------------------
  // What is left under a dropped marker
  // ---------------------------------------------------------------------------

  lemma LevelsOrder(v: Version, l: nat, m: nat, f: File, z: Entry, g: File, t: Entry)
    requires ShallowerIsNewer(v) && l < m < |v| && f in v[l] && z in f.entries && g in v[m] && t in g.entries && z.key == t.key
    ensures z.sn > t.sn
  {
    assert z in Content(v[l]) && t in Content(v[m]);
    assert Newer(Content(v[l]), Content(v[m]));
  }

  /** No output holds the key of a dropped marker at or below the marker. */
  lemma OutputsAreNewer(v: Version, level: nat, input: seq<Entry>, smallest: nat, outs: Level, i: nat, f: File, z: Entry)
    requires ValidVersion(v) && SortedEntries(input) && Survivors(v, level, input, smallest, outs)
    requires i < |input| && DropsMarker(v, level, input, smallest, i)
    requires f in outs && z in f.entries && z.key == input[i].key
    ensures z.sn >= input[i].sn && z != input[i]
  {
    assert z in Content(outs);
    assert forall j :: i < j < |input| && input[j].key == input[i].key ==> Hidden(input, j, smallest);
    var j :| 0 <= j < |input| && input[j] == z && Keep(v, level, input, j, smallest);
    if j < i {
      assert Before(input[j], input[i]);
    }
  }

  lemma LeftOutOnTop(v: Version, in0: Level, g: File, t: Entry, f: File, z: Entry)
    requires |v| > 0 && NoSharedKeys(Content(in0), RestContent(v[0], in0))
    requires g in in0 && t in g.entries && f in v[0] && f !in in0 && z in f.entries
    ensures z.key != t.key
  {
    assert t in Content(in0) && z in RestContent(v[0], in0);
  }

  /** An entry of the new version at or below a dropped marker is in a file left out of the marker's own level. */
  lemma WhereOlderIs(v: Version, level: nat, in0: Level, in1: Level, lo: UserKey, hi: UserKey, input: seq<Entry>,
                     smallest: nat, outs: Level, v': Version, i: nat, m: nat, g: File, l: nat, f: File, z: Entry)
    requires Merging(v, level, in0, in1, lo, hi, input, smallest, outs, v')
    requires i < |input| && DropsMarker(v, level, input, smallest, i)
    requires level <= m <= level + 1 && g in v[m] && input[i] in g.entries && g in (if m == level then in0 else in1)
    requires l < |v'| && f in v'[l] && z in f.entries && z.key == input[i].key && z.sn <= input[i].sn
    ensures l == m && f in v[m] && f !in (if m == level then in0 else in1) && (m == level ==> level > 0)
  {
    var t := input[i];
    InLevel(v, m, g, t);
    if l == level + 1 && f in outs {
      OutputsAreNewer(v, level, input, smallest, outs, i, f, z);
      OutputIsContent(v, level, in0, in1, input, smallest, outs, f, z);
      SameNumberSameEntry(v, z, t);
      assert false;
    } else {
      assert f in v[l];
      InLevel(v, l, f, z);
      if l < m {
        LevelsOrder(v, l, m, f, z, g, t);
        assert false;
      }
      NoDeeperEntry(v, level, l, f, z);
      if l == m + 1 {
        assert m == level && l == level + 1;
        LeftOutBelowSharesNothing(v, level, in0, in1, lo, hi, g, t, f, z);
        assert false;
      }
      if m == level && level == 0 {
        LeftOutOnTop(v, in0, g, t, f, z);
        assert false;
      }
    }
  }

  lemma OutputIsContent(v: Version, level: nat, in0: Level, in1: Level, input: seq<Entry>, smallest: nat, outs: Level, f: File, z: Entry)
    requires ValidVersion(v) && level + 1 < |v| && Merged(in0, in1, input) && Survivors(v, level, input, smallest, outs)
    requires (forall f :: f in in0 ==> f in v[level]) && (forall f :: f in in1 ==> f in v[level + 1])
    requires f in outs && z in f.entries
    ensures z in Contents(v)
  {
    assert z in Content(outs);
    assert z in Elements(input);
    InputsAreContents(v, level, in0, in1, z);
  }

  /** The entry that the level goes on with behind the inputs. */
  ghost function NextEntry(v: Version, m: nat, b: nat): Entry
    requires m < |v| && b < |v[m]| && |v[m][b].entries| > 0
  {
    v[m][b].entries[0]
  }

  /**
   Older data that a dropped marker leaves behind: the level of the marker goes on with its key behind the inputs,
   and the newest older entry is the next one there.
   */
  lemma OlderRemains(v: Version, level: nat, in0: Level, in1: Level, lo: UserKey, hi: UserKey, input: seq<Entry>,
                     smallest: nat, outs: Level, v': Version, i: nat, a0: nat, b0: nat, a1: nat, b1: nat, z: Entry) returns (m: nat)
    requires Merging(v, level, in0, in1, lo, hi, input, smallest, outs, v')
    requires i < |input| && DropsMarker(v, level, input, smallest, i)
    requires (level > 0 ==> Stretch(v[level], in0, a0, b0)) && (in1 != [] ==> Stretch(v[level + 1], in1, a1, b1))
    requires z in Contents(v') && z.key == input[i].key && z.sn <= input[i].sn
    ensures (m == level > 0) || (m == level + 1 && in1 != [])
    ensures var b := if m == level then b0 else b1;
            && GoesOn(v[m], b)
            && NextEntry(v, m, b) in Contents(v') && NextEntry(v, m, b).key == input[i].key
            && z.sn <= NextEntry(v, m, b).sn < input[i].sn
  {
    hide Merging, DropsMarker, UniqueSequences, Stretch, ValidVersion, Contents, GoesOn, SortedFiles, ValidFiles, Survivors, Installed;
    var p, q;
    m, p, q := MarkerAndOlder(v, level, in0, in1, lo, hi, input, smallest, outs, v', i, z);
    var inputs, a, b := if m == level then in0 else in1, if m == level then a0 else a1, if m == level then b0 else b1;
    MergingParts(v, level, in0, in1, lo, hi, input, smallest, outs, v', i);
    var t := input[i];
    InLevel(v, m, v[m][q], z);
    NotOlderBefore(v, m, p, q, t, z);
    LevelParts(v, m);
    InStretch(v[m], inputs, a, b, p, q);
    AcrossBoundary(v[m], inputs, a, b, p, q, t, z);
    NextIsOlder(v, m, b, t, z);
    StaysThere(v, level, in0, in1, lo, hi, input, smallest, outs, v', m, b);
  }

  lemma InStretch(files: Level, inputs: Level, a: nat, b: nat, p: nat, q: nat)
    requires Stretch(files, inputs, a, b) && p < q < |files| && files[p] in inputs && files[q] !in inputs
    ensures a <= p < b <= q && files[b] !in inputs
  {
  }

  lemma MergingParts(v: Version, level: nat, in0: Level, in1: Level, lo: UserKey, hi: UserKey, input: seq<Entry>,
                     smallest: nat, outs: Level, v': Version, i: nat)
    requires Merging(v, level, in0, in1, lo, hi, input, smallest, outs, v') && i < |input|
    ensures ValidVersion(v) && UniqueSequences(Contents(v)) && level + 1 < kNumLevels == |v| == |v'|
    ensures input[i] in Contents(v)
  {
    assert input[i] in Elements(input);
    InputsAreContents(v, level, in0, in1, input[i]);
  }

  lemma LevelParts(v: Version, m: nat)
    requires ValidVersion(v) && 1 <= m < kNumLevels
    ensures ValidFiles(v[m]) && SortedFiles(v[m])
    ensures forall b :: 0 <= b < |v[m]| ==> |v[m][b].entries| > 0
  {
  }

  lemma InputOfMerging(v: Version, level: nat, in0: Level, in1: Level, lo: UserKey, hi: UserKey, input: seq<Entry>,
                       smallest: nat, outs: Level, v': Version, i: nat)
    requires Merging(v, level, in0, in1, lo, hi, input, smallest, outs, v') && i < |input|
    ensures input[i] in Content(in0) + Content(in1)
  {
    hide ValidVersion, UniqueSequences, ValidInputs, Survivors, Installed, SortedEntries, Content;
    assert input[i] in Elements(input);
  }

  /** The places of a dropped marker and of an older entry that stays, on one level. */
  lemma MarkerAndOlder(v: Version, level: nat, in0: Level, in1: Level, lo: UserKey, hi: UserKey, input: seq<Entry>,
                       smallest: nat, outs: Level, v': Version, i: nat, z: Entry) returns (m: nat, p: nat, q: nat)
    requires Merging(v, level, in0, in1, lo, hi, input, smallest, outs, v')
    requires i < |input| && DropsMarker(v, level, input, smallest, i)
    requires z in Contents(v') && z.key == input[i].key && z.sn <= input[i].sn
    ensures (m == level > 0) || (m == level + 1 && in1 != [])
    ensures m < |v| && p < |v[m]| && q < |v[m]| && p != q
    ensures var inputs := if m == level then in0 else in1; v[m][p] in inputs && v[m][q] !in inputs
    ensures input[i] in v[m][p].entries && z in v[m][q].entries
  {
    hide *;
    var t := input[i];
    InputOfMerging(v, level, in0, in1, lo, hi, input, smallest, outs, v', i);
    MergingSources(v, level, in0, in1, lo, hi, input, smallest, outs, v');
    var g, l, f;
    m, g := InputFile(v, level, in0, in1, t);
    l, f := FileOf(v', z);
    WhereOlderIs(v, level, in0, in1, lo, hi, input, smallest, outs, v', i, m, g, l, f, z);
    p :| 0 <= p < |v[m]| && v[m][p] == g;
    q :| 0 <= q < |v[m]| && v[m][q] == f;
  }

  lemma FileOf(v: Version, z: Entry) returns (l: nat, f: File)
    requires z in Contents(v)
    ensures l < |v| && f in v[l] && z in f.entries
  {
    var k;
    k, f :| k in v && f in k && z in f.entries;
    l :| 0 <= l < |v| && v[l] == k;
  }

  lemma NotOlderBefore(v: Version, m: nat, p: nat, q: nat, t: Entry, z: Entry)
    requires ValidVersion(v) && 1 <= m < kNumLevels && p < |v[m]| && q < |v[m]| && p != q
    requires UniqueSequences(Contents(v)) && t in Contents(v) && z in Contents(v)
    requires t in v[m][p].entries && z in v[m][q].entries && t.key == z.key && z.sn <= t.sn
    ensures p < q && z.sn < t.sn
  {
    if q < p {
      OrderAcross(v[m], q, p, z, t);
      SameNumberSameEntry(v, z, t);
      assert false;
    }
    OrderAcross(v[m], p, q, t, z);
    if z.sn == t.sn { SameNumberSameEntry(v, z, t); }
  }

  lemma NextIsOlder(v: Version, m: nat, b: nat, t: Entry, z: Entry)
    requires ValidVersion(v) && UniqueSequences(Contents(v)) && 1 <= m < kNumLevels && b < |v[m]|
    requires t in Contents(v) && z in Contents(v) && z.key == t.key
    requires var x := NextEntry(v, m, b); x.key == t.key && Before(t, x) && (x == z || Before(x, z))
    ensures z.sn <= NextEntry(v, m, b).sn < t.sn
  {
    var x := NextEntry(v, m, b);
    assert x in v[m][b].entries;
    InLevel(v, m, v[m][b], x);
    if x.sn == t.sn { SameNumberSameEntry(v, x, t); }
  }

  /** The file behind the inputs is left where it is. */
  lemma StaysThere(v: Version, level: nat, in0: Level, in1: Level, lo: UserKey, hi: UserKey, input: seq<Entry>,
                   smallest: nat, outs: Level, v': Version, m: nat, b: nat)
    requires Merging(v, level, in0, in1, lo, hi, input, smallest, outs, v')
    requires level <= m <= level + 1 && b < |v[m]| && |v[m][b].entries| > 0 && v[m][b] !in (if m == level then in0 else in1)
    ensures NextEntry(v, m, b) in Contents(v') && NextEntry(v, m, b) in Contents(v)
  {
    var f := v[m][b];
    MergingSources(v, level, in0, in1, lo, hi, input, smallest, outs, v');
    hide Merging, Contents, ShallowerIsNewer;
    assert f.entries[0] in f.entries && f in v[m];
    InLevel(v, m, f, f.entries[0]);
    assert f in v'[m];
    InLevel(v', m, f, f.entries[0]);
  }

  // ---------------------------------------------------------------------------
  // Exactly when no reader can tell
  // ---------------------------------------------------------------------------

  /** No newer operation on the marker's key is within the smallest snapshot. */
  ghost predicate Topmost(before: set<Entry>, t: Entry, smallest: nat) {
    forall p :: p in before && p.key == t.key && p.sn > t.sn ==> p.sn > smallest
  }

  /** A marker that is dropped and that a reader at the smallest snapshot would have found goes away above x. */
  ghost predicate TakesCover(before: set<Entry>, v: Version, level: nat, input: seq<Entry>, smallest: nat, i: nat, x: Entry)
    requires ValidVersion(v) && i < |input|
  {
    DropsMarker(v, level, input, smallest, i) && input[i].key == x.key && x.sn < input[i].sn && Topmost(before, input[i], smallest)
  }

  /** The value in x comes back to life. */
  ghost predicate Uncovers(before: set<Entry>, v: Version, level: nat, input: seq<Entry>, smallest: nat, x: Entry)
    requires ValidVersion(v)
  {
    x.op.Put? && exists i :: 0 <= i < |input| && TakesCover(before, v, level, input, smallest, i, x)
  }

  /** Where level m goes on behind the inputs with their last user key, the next entry is not uncovered. */
  ghost predicate BoundaryKeeps(before: set<Entry>, v: Version, level: nat, input: seq<Entry>, smallest: nat, m: nat, b: nat)
    requires ValidVersion(v) && m < |v|
  {
    GoesOn(v[m], b) ==> !Uncovers(before, v, level, input, smallest, NextEntry(v, m, b))
  }

  ghost function Of(es: set<Entry>, k: UserKey): set<Entry> { set e | e in es && e.key == k }

  lemma ReadsOfKey(es: set<Entry>, k: UserKey, s: nat, r: Option<Value>)
    ensures ReadsAs(es, k, s, r) <==> ReadsAs(Of(es, k), k, s, r)
  {
    if ReadsAs(es, k, s, r) { SameCandidates(es, Of(es, k), k, s, s, r); }
    if ReadsAs(Of(es, k), k, s, r) { SameCandidates(Of(es, k), es, k, s, s, r); }
  }

  lemma SameReadsOfKey(a: set<Entry>, b: set<Entry>, k: UserKey, s: nat)
    requires SameReads(Of(a, k), Of(b, k), k, s)
    ensures SameReads(a, b, k, s)
  {
    forall r ensures ReadsAs(a, k, s, r) <==> ReadsAs(b, k, s, r) {
      ReadsOfKey(a, k, s, r);
      ReadsOfKey(b, k, s, r);
    }
  }

  /** A dropped marker above another marker is missed by nobody. */
  lemma MarkerOverMarker(a: set<Entry>, b: set<Entry>, k: UserKey, s: nat, t: Entry, x: Entry)
    requires UniqueSequences(a) && b <= a && t in a && x in b && t.key == k && x.key == k
    requires t.op.Delete? && x.op.Delete? && x.sn < t.sn <= s
    requires forall e :: e in a && e !in b && e.key == k ==> e.sn <= t.sn
    requires forall e :: e in b && e.key == k && e.sn <= t.sn ==> e.sn <= x.sn
    ensures SameReads(a, b, k, s)
  {
    if c :| c in a && Candidate(c, k, s) && c.sn > t.sn {
      forall e ensures IsLatest(a, k, s, e) <==> IsLatest(b, k, s, e) {
        if IsLatest(b, k, s, e) { assert c in b; }
      }
    } else {
      forall e | IsLatest(a, k, s, e) ensures e == t {
        assert Candidate(t, k, s);
      }
      forall e | IsLatest(b, k, s, e) ensures e == x {
        assert Candidate(x, k, s);
      }
      assert IsLatest(a, k, s, t) && IsLatest(b, k, s, x);
    }
  }

  /** The entries of one key that the compaction takes away, with the reason. */
  lemma GoneOfKey(v: Version, level: nat, in0: Level, in1: Level, lo: UserKey, hi: UserKey, input: seq<Entry>,
                  smallest: nat, outs: Level, v': Version, before: set<Entry>, d: Entry) returns (i: nat)
    requires Merging(v, level, in0, in1, lo, hi, input, smallest, outs, v') && Contents(v) <= before
    requires d in Contents(v) && d !in Contents(v')
    ensures i < |input| && input[i] == d
    ensures DropsMarker(v, level, input, smallest, i)
            || exists p :: p in before && p.key == d.key && d.sn < p.sn <= smallest
  {
    i := GoneWasDropped(v, level, in0, in1, input, smallest, outs, v', d);
    if Hidden(input, i, smallest) {
      var j :| 0 <= j < i && input[j].key == input[i].key && input[j].sn <= smallest;
      assert input[j] in Elements(input) && input[i] in Elements(input);
      InputsAreContents(v, level, in0, in1, input[j]);
      assert Before(input[j], input[i]);
      BeforeIsNewer(input[j], input[i]);
      assert input[j] in before;
    }
  }

  /** At most one marker of a key is dropped as such: the newest input entry within the smallest snapshot. */
  lemma OneMarker(v: Version, level: nat, input: seq<Entry>, smallest: nat, i: nat, j: nat)
    requires ValidVersion(v) && i < |input| && j < |input| && input[i].key == input[j].key
    requires DropsMarker(v, level, input, smallest, i) && DropsMarker(v, level, input, smallest, j)
    ensures i == j
  {
  }

  /** Reads of one key whose marker is dropped, when the boundaries uncover nothing. */
  lemma MarkedKeyKept(v: Version, level: nat, in0: Level, in1: Level, lo: UserKey, hi: UserKey, input: seq<Entry>,
                      smallest: nat, outs: Level, v': Version, shallow: set<Entry>, i: nat, a0: nat, b0: nat, a1: nat, b1: nat,
                      z: Entry, s: nat)
    requires Merging(v, level, in0, in1, lo, hi, input, smallest, outs, v')
    requires Newer(shallow, Contents(v)) && UniqueSequences(shallow + Contents(v)) && Contents(v') <= Contents(v)
    requires (level > 0 ==> Stretch(v[level], in0, a0, b0)) && (in1 != [] ==> Stretch(v[level + 1], in1, a1, b1))
    requires level > 0 ==> BoundaryKeeps(shallow + Contents(v), v, level, input, smallest, level, b0)
    requires in1 != [] ==> BoundaryKeeps(shallow + Contents(v), v, level, input, smallest, level + 1, b1)
    requires i < |input| && DropsMarker(v, level, input, smallest, i) && smallest <= s
    requires z in Contents(v') && z.key == input[i].key && z.sn <= input[i].sn
    ensures SameReads(shallow + Contents(v), shallow + Contents(v'), input[i].key, s)
  {
    hide Merging, ValidVersion, Stretch, Contents, DropsMarker, Newer, UniqueSequences, Uncovers, TakesCover, Topmost;
    var before, after, t, k := shallow + Contents(v), shallow + Contents(v'), input[i], input[i].key;
    var m := OlderRemains(v, level, in0, in1, lo, hi, input, smallest, outs, v', i, a0, b0, a1, b1, z);
    MergingParts(v, level, in0, in1, lo, hi, input, smallest, outs, v', i);
    LevelParts(v, m);
    var b := if m == level then b0 else b1;
    var x := NextEntry(v, m, b);
    forall e | e in after && e.key == k && e.sn <= t.sn ensures e.sn <= x.sn && e in Contents(v') {
      RestUnderMarker(v, level, in0, in1, lo, hi, input, smallest, outs, v', shallow, i, a0, b0, a1, b1, m, e);
    }
    forall d | d in before && d !in after && d.key == k
      ensures d.sn <= t.sn && (d == t || exists p :: p in before && p.key == k && d.sn < p.sn <= smallest)
    {
      GoneUnderMarker(v, level, in0, in1, lo, hi, input, smallest, outs, v', before, i, d);
    }
    MarkerIsWithin(v, level, input, smallest, i);
    if x.op.Delete? {
      MarkerOverMarker(before, after, k, s, t, x);
    } else {
      var p := CoveredAgain(before, v, level, input, smallest, i, x);
      HiddenKey(before, after, k, smallest, s);
    }
  }

  /** What is gone of the marker's key is the marker itself or hidden, and not newer than it. */
  lemma GoneUnderMarker(v: Version, level: nat, in0: Level, in1: Level, lo: UserKey, hi: UserKey, input: seq<Entry>,
                        smallest: nat, outs: Level, v': Version, before: set<Entry>, i: nat, d: Entry)
    requires Merging(v, level, in0, in1, lo, hi, input, smallest, outs, v') && Contents(v) <= before
    requires i < |input| && DropsMarker(v, level, input, smallest, i)
    requires d in Contents(v) && d !in Contents(v') && d.key == input[i].key
    ensures d.sn <= input[i].sn && (d == input[i] || exists p :: p in before && p.key == input[i].key && d.sn < p.sn <= smallest)
  {
    hide Contents, Survivors, Installed, ValidVersion, UniqueSequences;
    var j := GoneOfKey(v, level, in0, in1, lo, hi, input, smallest, outs, v', before, d);
    GoneIsBelow(v, level, input, smallest, i, j, d);
    if DropsMarker(v, level, input, smallest, j) { OneMarker(v, level, input, smallest, i, j); }
  }

  /** A marker that may be dropped over a value is itself covered by something newer within the smallest snapshot. */
  lemma CoveredAgain(before: set<Entry>, v: Version, level: nat, input: seq<Entry>, smallest: nat, i: nat, x: Entry) returns (p: Entry)
    requires ValidVersion(v) && i < |input| && DropsMarker(v, level, input, smallest, i)
    requires x.op.Put? && x.key == input[i].key && x.sn < input[i].sn && !Uncovers(before, v, level, input, smallest, x)
    ensures p in before && p.key == input[i].key && input[i].sn < p.sn <= smallest
  {
    hide DropsMarker, ValidVersion;
    assert !TakesCover(before, v, level, input, smallest, i, x);
    assert !Topmost(before, input[i], smallest);
    p :| p in before && p.key == input[i].key && p.sn > input[i].sn && p.sn <= smallest;
  }

  /** If every entry of a key that goes is hidden within the smallest snapshot, the key reads as before. */
  lemma HiddenKey(before: set<Entry>, after: set<Entry>, k: UserKey, smallest: nat, s: nat)
    requires UniqueSequences(before) && after <= before && smallest <= s
    requires forall d :: d in before && d !in after && d.key == k ==> exists p :: p in before && p.key == k && d.sn < p.sn <= smallest
    ensures SameReads(before, after, k, s)
  {
    var a, b := Of(before, k), Of(after, k);
    forall d | d in a && d !in b ensures MayGo(a, b, smallest, d) {
      var p :| p in before && p.key == k && d.sn < p.sn <= smallest;
      assert p in a;
    }
    DroppingPreservesReads(a, b, smallest, k, s);
    SameReadsOfKey(before, after, k, s);
  }

  lemma MarkerIsWithin(v: Version, level: nat, input: seq<Entry>, smallest: nat, i: nat)
    requires ValidVersion(v) && i < |input| && DropsMarker(v, level, input, smallest, i)
    ensures input[i].op.Delete? && input[i].sn <= smallest
  {
  }

  lemma GoneIsBelow(v: Version, level: nat, input: seq<Entry>, smallest: nat, i: nat, j: nat, d: Entry)
    requires ValidVersion(v) && SortedEntries(input) && i < |input| && j < |input| && input[j] == d && d.key == input[i].key
    requires DropsMarker(v, level, input, smallest, i) && !Keep(v, level, input, j, smallest)
    ensures d.sn <= input[i].sn
  {
    assert forall h :: 0 <= h < i && input[h].key == input[i].key ==> input[h].sn > smallest;
    if i < j { assert Before(input[i], input[j]); }
  }

  /** The inputs of the two levels do not end within the same user key. */
  lemma BoundaryKeysDiffer(upper: Level, lower: Level, in0: Level, in1: Level, lo: UserKey, hi: UserKey, a0: nat, b0: nat, a1: nat, b1: nat)
    requires ValidFiles(upper) && ValidFiles(lower) && Stretch(upper, in0, a0, b0) && Stretch(lower, in1, a1, b1)
    requires forall f :: f in in0 ==> |f.entries| > 0 && lo <= Smallest(f).user && Largest(f).user <= hi
    requires forall f :: f in lower && |f.entries| > 0 && Smallest(f).user <= hi && lo <= Largest(f).user ==> f in in1
    requires GoesOn(upper, b0) && GoesOn(lower, b1)
    ensures Smallest(upper[b0]).user != Smallest(lower[b1]).user
  {
    var f, g := upper[b0 - 1], lower[b1];
    assert f in in0 && g !in in1 && g in lower;
    WithinFile(f, f.entries[0]);
    WithinFile(g, g.entries[0]);
  }

  /** All that is left at or below a dropped marker lies behind one boundary. */
  lemma RestUnderMarker(v: Version, level: nat, in0: Level, in1: Level, lo: UserKey, hi: UserKey, input: seq<Entry>,
                        smallest: nat, outs: Level, v': Version, shallow: set<Entry>, i: nat, a0: nat, b0: nat, a1: nat, b1: nat,
                        m: nat, e: Entry)
    requires Merging(v, level, in0, in1, lo, hi, input, smallest, outs, v') && Newer(shallow, Contents(v))
    requires (level > 0 ==> Stretch(v[level], in0, a0, b0)) && (in1 != [] ==> Stretch(v[level + 1], in1, a1, b1))
    requires i < |input| && DropsMarker(v, level, input, smallest, i)
    requires (m == level > 0) || (m == level + 1 && in1 != [])
    requires var b := if m == level then b0 else b1;
             GoesOn(v[m], b) && NextEntry(v, m, b).key == input[i].key && NextEntry(v, m, b).sn < input[i].sn
             && NextEntry(v, m, b) in Contents(v')
    requires e in shallow + Contents(v') && e.key == input[i].key && e.sn <= input[i].sn
    ensures e in Contents(v') && e.sn <= NextEntry(v, m, if m == level then b0 else b1).sn
  {
    hide Stretch, Contents, DropsMarker, UniqueSequences, GoesOn, Merged, Survivors, Installed, ShallowerIsNewer, SortedFiles;
    MergingParts(v, level, in0, in1, lo, hi, input, smallest, outs, v', i);
    assert e !in shallow;
    var n := OlderRemains(v, level, in0, in1, lo, hi, input, smallest, outs, v', i, a0, b0, a1, b1, e);
    if n != m {
      BoundaryKeysDiffer(v[level], v[level + 1], in0, in1, lo, hi, a0, b0, a1, b1);
      assert false;
    }
  }

  /** A dropped marker with something of its key left at or below it. */
  ghost predicate LeavesOlder(v: Version, level: nat, input: seq<Entry>, smallest: nat, v': Version, i: nat, k: UserKey, z: Entry)
    requires ValidVersion(v)
  {
    i < |input| && input[i].key == k && DropsMarker(v, level, input, smallest, i) && z in Contents(v') && z.key == k && z.sn <= input[i].sn
  }

  lemma UnmarkedKeyKept(v: Version, level: nat, in0: Level, in1: Level, lo: UserKey, hi: UserKey, input: seq<Entry>,
                        smallest: nat, outs: Level, v': Version, shallow: set<Entry>, k: UserKey, s: nat)
    requires Merging(v, level, in0, in1, lo, hi, input, smallest, outs, v')
    requires Newer(shallow, Contents(v)) && UniqueSequences(shallow + Contents(v)) && Contents(v') <= Contents(v) && smallest <= s
    requires forall i, z :: !LeavesOlder(v, level, input, smallest, v', i, k, z)
    ensures SameReads(shallow + Contents(v), shallow + Contents(v'), k, s)
  {
    var before, after := shallow + Contents(v), shallow + Contents(v');
    var a, b := Of(before, k), Of(after, k);
    forall d | d in a && d !in b ensures MayGo(a, b, smallest, d) {
      var i := GoneOfKey(v, level, in0, in1, lo, hi, input, smallest, outs, v', before, d);
      if DropsMarker(v, level, input, smallest, i) {
        forall x | x in b ensures x.sn > d.sn {
          if x !in shallow { assert !LeavesOlder(v, level, input, smallest, v', i, k, x); }
        }
      } else {
        var p :| p in before && p.key == d.key && d.sn < p.sn <= smallest;
        assert p in a;
      }
    }
    hide Merging, ValidVersion, Contents, MayGo;
    DroppingPreservesReads(a, b, smallest, k, s);
    SameReadsOfKey(before, after, k, s);
  }

  /** An uncovered value is what a reader at the smallest snapshot finds; before, it found the deletion. */
  lemma UncoveredIsRead(v: Version, level: nat, in0: Level, in1: Level, lo: UserKey, hi: UserKey, input: seq<Entry>,
                        smallest: nat, outs: Level, v': Version, shallow: set<Entry>, a0: nat, b0: nat, a1: nat, b1: nat, m: nat)
    requires Merging(v, level, in0, in1, lo, hi, input, smallest, outs, v')
    requires Newer(shallow, Contents(v)) && UniqueSequences(shallow + Contents(v))
    requires (level > 0 ==> Stretch(v[level], in0, a0, b0)) && (in1 != [] ==> Stretch(v[level + 1], in1, a1, b1))
    requires (m == level > 0) || (m == level + 1 && in1 != [])
    requires var b := if m == level then b0 else b1;
             GoesOn(v[m], b) && Uncovers(shallow + Contents(v), v, level, input, smallest, NextEntry(v, m, b))
    ensures !SameReads(shallow + Contents(v), shallow + Contents(v'), NextEntry(v, m, if m == level then b0 else b1).key, smallest)
  {
    var before, after, b := shallow + Contents(v), shallow + Contents(v'), if m == level then b0 else b1;
    var x := NextEntry(v, m, b);
    var i :| 0 <= i < |input| && TakesCover(before, v, level, input, smallest, i, x);
    var t := input[i];
    MarkerIsWithin(v, level, input, smallest, i);
    MergingParts(v, level, in0, in1, lo, hi, input, smallest, outs, v', i);
    StaysThere(v, level, in0, in1, lo, hi, input, smallest, outs, v', m, b);
    forall e | e in after && e.key == t.key && e.sn <= t.sn ensures e.sn <= x.sn {
      RestUnderMarker(v, level, in0, in1, lo, hi, input, smallest, outs, v', shallow, i, a0, b0, a1, b1, m, e);
    }
    ContentsShrink(v, level, in0, in1, lo, hi, input, smallest, outs, v');
    hide Merging, ValidVersion, Stretch, Contents, DropsMarker, Newer;
    ComesBack(before, after, t, x, smallest);
  }

  lemma ContentsShrink(v: Version, level: nat, in0: Level, in1: Level, lo: UserKey, hi: UserKey, input: seq<Entry>,
                       smallest: nat, outs: Level, v': Version)
    requires Merging(v, level, in0, in1, lo, hi, input, smallest, outs, v')
    ensures Contents(v') <= Contents(v)
  {
    assert Content(outs) <= Content(in0) + Content(in1) by {
      forall e | e in Content(outs) ensures e in Content(in0) + Content(in1) {
        assert e in Elements(input);
      }
    }
    AfterIsSubset(v, level, in0, in1, outs, v');
  }

  lemma ComesBack(before: set<Entry>, after: set<Entry>, t: Entry, x: Entry, smallest: nat)
    requires UniqueSequences(before) && after <= before && t in before && x in after && t.key == x.key
    requires t.op.Delete? && x.op.Put? && x.sn < t.sn <= smallest && Topmost(before, t, smallest)
    requires forall e :: e in after && e.key == t.key && e.sn <= t.sn ==> e.sn <= x.sn
    ensures !SameReads(before, after, x.key, smallest)
  {
    var r := Some(x.op.value);
    assert IsLatest(after, x.key, smallest, x);
    assert ReadsAs(after, x.key, smallest, r);
    forall e | IsLatest(before, x.key, smallest, e) ensures e == t {
      assert Candidate(t, x.key, smallest);
    }
    assert !ReadsAs(before, x.key, smallest, r);
  }

  lemma KeyKept(v: Version, level: nat, in0: Level, in1: Level, lo: UserKey, hi: UserKey, input: seq<Entry>,
                smallest: nat, outs: Level, v': Version, shallow: set<Entry>, a0: nat, b0: nat, a1: nat, b1: nat, k: UserKey, s: nat)
    requires Merging(v, level, in0, in1, lo, hi, input, smallest, outs, v')
    requires Newer(shallow, Contents(v)) && UniqueSequences(shallow + Contents(v))
    requires (level > 0 ==> Stretch(v[level], in0, a0, b0)) && (in1 != [] ==> Stretch(v[level + 1], in1, a1, b1))
    requires level > 0 ==> BoundaryKeeps(shallow + Contents(v), v, level, input, smallest, level, b0)
    requires in1 != [] ==> BoundaryKeeps(shallow + Contents(v), v, level, input, smallest, level + 1, b1)
    requires smallest <= s
    ensures SameReads(shallow + Contents(v), shallow + Contents(v'), k, s)
  {
    ContentsShrink(v, level, in0, in1, lo, hi, input, smallest, outs, v');
    hide Merging, Stretch, Contents, DropsMarker, Newer, BoundaryKeeps, UniqueSequences, SameReads;
    if i, z :| LeavesOlder(v, level, input, smallest, v', i, k, z) {
      MarkedKeyKept(v, level, in0, in1, lo, hi, input, smallest, outs, v', shallow, i, a0, b0, a1, b1, z, s);
    } else {
      UnmarkedKeyKept(v, level, in0, in1, lo, hi, input, smallest, outs, v', shallow, k, s);
    }
  }

  /**
   Whatever inputs were chosen: readers at every snapshot from the smallest live one on see the same before and after
   exactly when, where one of the two levels goes on behind the inputs with their last user key, the next entry is not
   a value whose deletion the compaction drops.
   */
  lemma ReadsKeptIff(v: Version, level: nat, in0: Level, in1: Level, lo: UserKey, hi: UserKey, input: seq<Entry>,
                     smallest: nat, outs: Level, v': Version, shallow: set<Entry>, a0: nat, b0: nat, a1: nat, b1: nat)
    requires Merging(v, level, in0, in1, lo, hi, input, smallest, outs, v')
    requires Newer(shallow, Contents(v)) && UniqueSequences(shallow + Contents(v))
    requires (level > 0 ==> Stretch(v[level], in0, a0, b0)) && (in1 != [] ==> Stretch(v[level + 1], in1, a1, b1))
    ensures (forall k, s :: s >= smallest ==> SameReads(shallow + Contents(v), shallow + Contents(v'), k, s))
            <==> (level > 0 ==> BoundaryKeeps(shallow + Contents(v), v, level, input, smallest, level, b0))
                 && (in1 != [] ==> BoundaryKeeps(shallow + Contents(v), v, level, input, smallest, level + 1, b1))
  {
    var before := shallow + Contents(v);
    assert ValidVersion(v) && level + 1 < |v|;
    hide Merging, Stretch, Contents, Newer, UniqueSequences, SameReads, Uncovers, ValidVersion;
    if (level > 0 ==> BoundaryKeeps(before, v, level, input, smallest, level, b0))
       && (in1 != [] ==> BoundaryKeeps(before, v, level, input, smallest, level + 1, b1)) {
      forall k, s | s >= smallest ensures SameReads(before, shallow + Contents(v'), k, s) {
        KeyKept(v, level, in0, in1, lo, hi, input, smallest, outs, v', shallow, a0, b0, a1, b1, k, s);
      }
    } else {
      var m := if level > 0 && !BoundaryKeeps(before, v, level, input, smallest, level, b0) then level else level + 1;
      UncoveredIsRead(v, level, in0, in1, lo, hi, input, smallest, outs, v', shallow, a0, b0, a1, b1, m);
    }
  }

  // ---------------------------------------------------------------------------
  // Exactly when the new version is in order
  // ---------------------------------------------------------------------------

  /** Nothing of the key comes out of the compaction: its newest input entry is a marker that is dropped. */
  ghost predicate Vanishes(v: Version, level: nat, input: seq<Entry>, smallest: nat, k: UserKey)
    requires ValidVersion(v)
  {
    exists i :: 0 <= i < |input| && IsFirst(input, i, k) && Obsolete(v, level, input[i], smallest)
  }

  ghost predicate IsFirst(input: seq<Entry>, i: nat, k: UserKey)
    requires i < |input|
  {
    input[i].key == k && forall j :: 0 <= j < i ==> input[j].key != k
  }

  lemma {:induction false} FirstExists(input: seq<Entry>, n: nat, k: UserKey) returns (i: nat)
    requires n < |input| && input[n].key == k
    ensures i <= n && IsFirst(input, i, k)
  {
    if j :| 0 <= j < n && input[j].key == k {
      i := FirstExists(input, j, k);
    } else {
      i := n;
    }
  }

  lemma VanishedIsGone(v: Version, level: nat, input: seq<Entry>, smallest: nat, outs: Level, e: Entry)
    requires ValidVersion(v) && Survivors(v, level, input, smallest, outs) && Vanishes(v, level, input, smallest, e.key)
    ensures e !in Content(outs)
  {
    var i :| 0 <= i < |input| && IsFirst(input, i, e.key) && Obsolete(v, level, input[i], smallest);
    assert forall j :: i < j < |input| && input[j].key == e.key ==> Hidden(input, j, smallest);
  }

  /** The data that stays on level L is newer than what goes down, unless the level goes on with a key that does not vanish. */
  lemma RestIsNewerIff(v: Version, level: nat, in0: Level, in1: Level, lo: UserKey, hi: UserKey, input: seq<Entry>,
                       smallest: nat, outs: Level, v': Version, a0: nat, b0: nat, x: Entry, y: Entry)
    requires Merging(v, level, in0, in1, lo, hi, input, smallest, outs, v') && (level > 0 ==> Stretch(v[level], in0, a0, b0))
    requires level > 0 && GoesOn(v[level], b0) ==> Vanishes(v, level, input, smallest, NextEntry(v, level, b0).key)
    requires x in RestContent(v[level], in0) && y in Content(in0) && y in Content(outs) && x.key == y.key
    ensures x.sn > y.sn
  {
    var f :| f in v[level] && f !in in0 && x in f.entries;
    var g :| g in in0 && y in g.entries;
    if level > 0 && x.sn <= y.sn {
      var p :| 0 <= p < |v[level]| && v[level][p] == g;
      var q :| 0 <= q < |v[level]| && v[level][q] == f;
      InLevel(v, level, f, x);
      InLevel(v, level, g, y);
      NotOlderBefore(v, level, p, q, y, x);
      AcrossBoundary(v[level], in0, a0, b0, p, q, y, x);
      VanishedIsGone(v, level, input, smallest, outs, y);
      assert false;
    }
  }

  /** The order of one pair of entries on two levels of the new version. */
  lemma PairInOrder(v: Version, level: nat, in0: Level, in1: Level, lo: UserKey, hi: UserKey, input: seq<Entry>,
                    smallest: nat, outs: Level, v': Version, a0: nat, b0: nat, l: nat, m: nat, x: Entry, y: Entry)
    requires Merging(v, level, in0, in1, lo, hi, input, smallest, outs, v') && (level > 0 ==> Stretch(v[level], in0, a0, b0))
    requires level > 0 && GoesOn(v[level], b0) ==> Vanishes(v, level, input, smallest, NextEntry(v, level, b0).key)
    requires ValidOutputs(in0, in1, outs)
    requires l < m < |v'| && x in Content(v'[l]) && y in Content(v'[m]) && x.key == y.key
    ensures x.sn > y.sn
  {
    MergingSources(v, level, in0, in1, lo, hi, input, smallest, outs, v');
    hide Merging, Installed, ValidOutputs, ShallowerIsNewer, Vanishes, GoesOn, Stretch, ValidVersion, Content, RestContent;
    var lx := CameFrom(v, level, in0, in1, outs, v', l, x);
    var ly := CameFrom(v, level, in0, in1, outs, v', m, y);
    if lx < ly {
      OrderOfLevels(v, lx, ly);
    } else {
      RestIsNewerIff(v, level, in0, in1, lo, hi, input, smallest, outs, v', a0, b0, x, y);
    }
  }

  /** Where an entry of the new version was: on the same level, or in a compacted file of the level above. */
  lemma CameFrom(v: Version, level: nat, in0: Level, in1: Level, outs: Level, v': Version, l: nat, x: Entry) returns (lx: nat)
    requires level + 1 < |v| && Installed(v, level, in0, in1, outs, v') && ValidOutputs(in0, in1, outs)
    requires (forall f :: f in in0 ==> f in v[level]) && (forall f :: f in in1 ==> f in v[level + 1])
    requires l < |v'| && x in Content(v'[l])
    ensures lx < |v| && x in Content(v[lx])
    ensures lx == l || (l == level + 1 && lx == level && x in Content(in0) && x in Content(outs))
    ensures l == level ==> x in RestContent(v[level], in0)
  {
    lx := l;
    if l == level {
      RestOfLevel(v, level, in0, in1, outs, v', x);
    } else if l == level + 1 {
      LowerContent(v, level, in0, in1, outs, v', x);
      if x !in Content(v[level + 1]) {
        FromOutputs(v, level, in0, in1, outs, v', x);
        lx := level;
      }
    } else {
      SameElsewhere(v, level, in0, in1, outs, v', l);
    }
  }

  lemma MergingSources(v: Version, level: nat, in0: Level, in1: Level, lo: UserKey, hi: UserKey, input: seq<Entry>,
                       smallest: nat, outs: Level, v': Version)
    requires Merging(v, level, in0, in1, lo, hi, input, smallest, outs, v')
    ensures |v| == |v'| && level + 1 < |v| && ShallowerIsNewer(v) && Installed(v, level, in0, in1, outs, v')
    ensures (forall f :: f in in0 ==> f in v[level]) && (forall f :: f in in1 ==> f in v[level + 1])
  {
    hide Merged, Survivors, UniqueSequences, ShallowerIsNewer, SortedFiles;
  }

  lemma OrderOfLevels(v: Version, l: nat, m: nat)
    requires ShallowerIsNewer(v) && l < m < |v|
    ensures Newer(Content(v[l]), Content(v[m]))
  {
  }

  lemma SameElsewhere(v: Version, level: nat, in0: Level, in1: Level, outs: Level, v': Version, l: nat)
    requires Installed(v, level, in0, in1, outs, v') && l < |v| && l != level && l != level + 1
    ensures v'[l] == v[l]
  {
  }

  lemma LowerContent(v: Version, level: nat, in0: Level, in1: Level, outs: Level, v': Version, y: Entry)
    requires level + 1 < |v| && Installed(v, level, in0, in1, outs, v') && ValidOutputs(in0, in1, outs)
    requires (forall f :: f in in0 ==> f in v[level]) && (forall f :: f in in1 ==> f in v[level + 1])
    requires y in Content(v'[level + 1])
    ensures y in Content(v[level + 1]) || y in Content(in0)
    ensures Content(in0) <= Content(v[level])
  {
    NewLowerContent(v, level, in0, in1, outs, v', y);
  }

  lemma RestOfLevel(v: Version, level: nat, in0: Level, in1: Level, outs: Level, v': Version, x: Entry)
    requires level + 1 < |v| && Installed(v, level, in0, in1, outs, v') && x in Content(v'[level])
    ensures x in RestContent(v[level], in0) && x in Content(v[level])
  {
  }

  lemma FromOutputs(v: Version, level: nat, in0: Level, in1: Level, outs: Level, v': Version, y: Entry)
    requires level + 1 < |v| && Installed(v, level, in0, in1, outs, v')
    requires y in Content(v'[level + 1]) && y !in Content(v[level + 1])
    ensures y in Content(outs)
  {
  }

  /** Of a key that does not vanish the newest input entry comes out. */
  lemma NewestSurvives(v: Version, level: nat, input: seq<Entry>, smallest: nat, outs: Level, y: Entry) returns (e: Entry)
    requires ValidVersion(v) && SortedEntries(input) && Survivors(v, level, input, smallest, outs)
    requires y in Elements(input) && !Vanishes(v, level, input, smallest, y.key)
    ensures e in Content(outs) && e.key == y.key && e.sn >= y.sn
  {
    var n :| 0 <= n < |input| && input[n] == y;
    var i := FirstExists(input, n, y.key);
    assert Keep(v, level, input, i, smallest);
    e := input[i];
    OrderOfSameKey(input, i, n);
  }

  lemma NotNewer(a: set<Entry>, b: set<Entry>, x: Entry, y: Entry)
    requires x in a && y in b && x.key == y.key && x.sn <= y.sn
    ensures !Newer(a, b)
  {
  }

  /** The last input entry and the next one of the level, which stays. */
  lemma LastAndNext(v: Version, level: nat, in0: Level, in1: Level, lo: UserKey, hi: UserKey, input: seq<Entry>,
                    smallest: nat, outs: Level, v': Version, a0: nat, b0: nat) returns (y: Entry)
    requires Merging(v, level, in0, in1, lo, hi, input, smallest, outs, v') && level > 0 && Stretch(v[level], in0, a0, b0)
    requires GoesOn(v[level], b0)
    ensures var x := NextEntry(v, level, b0);
            y in Elements(input) && y.key == x.key && x.sn <= y.sn && x in Content(v'[level])
  {
    MergingSources(v, level, in0, in1, lo, hi, input, smallest, outs, v');
    LevelParts(v, level);
    y := LastOf(v[level], in0, a0, b0);
    assert Merged(in0, in1, input);
    hide Merging, ValidVersion, ShallowerIsNewer, Stretch, SortedFiles;
    NextStays(v, level, in0, in1, outs, v', b0);
  }

  lemma LastOf(files: Level, inputs: Level, a: nat, b: nat) returns (y: Entry)
    requires ValidFiles(files) && SortedFiles(files) && Stretch(files, inputs, a, b) && GoesOn(files, b)
    ensures y in Content(inputs) && files[b] !in inputs
    ensures y.key == files[b].entries[0].key && files[b].entries[0].sn <= y.sn
  {
    var f := files[b - 1];
    y := f.entries[|f.entries| - 1];
    OrderAcross(files, b - 1, b, y, files[b].entries[0]);
    BeforeIsNewer(y, files[b].entries[0]);
    assert f in inputs && y in f.entries;
  }

  lemma NextStays(v: Version, level: nat, in0: Level, in1: Level, outs: Level, v': Version, b: nat)
    requires level + 1 < |v| && Installed(v, level, in0, in1, outs, v')
    requires b < |v[level]| && v[level][b] !in in0 && |v[level][b].entries| > 0
    ensures NextEntry(v, level, b) in Content(v'[level])
  {
    assert v[level][b] in v'[level] && NextEntry(v, level, b) in v[level][b].entries;
  }

  /** A key that does not vanish is inverted where the level goes on with it. */
  lemma BoundaryInverts(v: Version, level: nat, in0: Level, in1: Level, lo: UserKey, hi: UserKey, input: seq<Entry>,
                        smallest: nat, outs: Level, v': Version, a0: nat, b0: nat)
    requires Merging(v, level, in0, in1, lo, hi, input, smallest, outs, v') && level > 0 && Stretch(v[level], in0, a0, b0)
    requires GoesOn(v[level], b0) && !Vanishes(v, level, input, smallest, NextEntry(v, level, b0).key)
    ensures !ShallowerIsNewer(v')
  {
    var y := LastAndNext(v, level, in0, in1, lo, hi, input, smallest, outs, v', a0, b0);
    var e := NewestSurvives(v, level, input, smallest, outs, y);
    hide ValidVersion, Merged, Survivors, UniqueSequences, ValidInputs, Vanishes, GoesOn, Stretch;
    assert Content(outs) <= Content(v'[level + 1]);
    NotNewer(Content(v'[level]), Content(v'[level + 1]), NextEntry(v, level, b0), e);
  }

  /**
   Whatever inputs were chosen: the new version is valid exactly when, should level L go on behind the inputs with
   their last user key, nothing of that key comes out of the compaction.
   */
  lemma VersionValidIff(v: Version, level: nat, in0: Level, in1: Level, lo: UserKey, hi: UserKey, input: seq<Entry>,
                        smallest: nat, outs: Level, v': Version, a0: nat, b0: nat)
    requires Merging(v, level, in0, in1, lo, hi, input, smallest, outs, v') && (level > 0 ==> Stretch(v[level], in0, a0, b0))
    requires ValidOutputs(in0, in1, outs) && WellListed(v', level)
    ensures ValidVersion(v') <==>
            (level > 0 && GoesOn(v[level], b0) ==> Vanishes(v, level, input, smallest, NextEntry(v, level, b0).key))
  {
    if level > 0 && GoesOn(v[level], b0) && !Vanishes(v, level, input, smallest, NextEntry(v, level, b0).key) {
      BoundaryInverts(v, level, in0, in1, lo, hi, input, smallest, outs, v', a0, b0);
    } else {
      forall l, m, x, y | 0 <= l < m < |v'| && x in Content(v'[l]) && y in Content(v'[m]) && x.key == y.key
        ensures x.sn > y.sn
      {
        PairInOrder(v, level, in0, in1, lo, hi, input, smallest, outs, v', a0, b0, l, m, x, y);
      }
      assert ShallowerIsNewer(v');
      LevelsAreValid(v, level, in0, in1, lo, hi, input, smallest, outs, v');
    }
  }

  lemma LevelsAreValid(v: Version, level: nat, in0: Level, in1: Level, lo: UserKey, hi: UserKey, input: seq<Entry>,
                       smallest: nat, outs: Level, v': Version)
    requires Merging(v, level, in0, in1, lo, hi, input, smallest, outs, v')
    requires ValidOutputs(in0, in1, outs) && WellListed(v', level) && ShallowerIsNewer(v')
    ensures ValidVersion(v')
  {
    hide ShallowerIsNewer, UniqueSequences, Merged, Survivors, Contents;
    forall l | 0 <= l < |v'|
      ensures ValidFiles(v'[l])
      ensures l >= 1 ==> SortedFiles(v'[l])
      ensures l == 0 ==> OrderedFiles(v'[l]) && NewestByNumber(v'[0])
    {
      LevelsStaySorted(v, level, in0, in1, lo, hi, outs, v', l);
    }
  }

  /** A merging compaction is safe, in order and unseen by any reader, exactly when both boundaries are. */
  lemma MergeSafeIff(v: Version, level: nat, in0: Level, in1: Level, lo: UserKey, hi: UserKey, input: seq<Entry>,
                     smallest: nat, outs: Level, v': Version, shallow: set<Entry>, a0: nat, b0: nat, a1: nat, b1: nat)
    requires Merging(v, level, in0, in1, lo, hi, input, smallest, outs, v')
    requires ValidOutputs(in0, in1, outs) && WellListed(v', level)
    requires Newer(shallow, Contents(v)) && UniqueSequences(shallow + Contents(v))
    requires (level > 0 ==> Stretch(v[level], in0, a0, b0)) && (in1 != [] ==> Stretch(v[level + 1], in1, a1, b1))
    ensures
      ValidVersion(v') && (forall k, s :: s >= smallest ==> SameReads(shallow + Contents(v), shallow + Contents(v'), k, s))
      <==>
      && (level > 0 && GoesOn(v[level], b0) ==>
            Vanishes(v, level, input, smallest, NextEntry(v, level, b0).key)
            && !Uncovers(shallow + Contents(v), v, level, input, smallest, NextEntry(v, level, b0)))
      && (in1 != [] && GoesOn(v[level + 1], b1) ==>
            !Uncovers(shallow + Contents(v), v, level, input, smallest, NextEntry(v, level + 1, b1)))
  {
    VersionValidIff(v, level, in0, in1, lo, hi, input, smallest, outs, v', a0, b0);
    ReadsKeptIff(v, level, in0, in1, lo, hi, input, smallest, outs, v', shallow, a0, b0, a1, b1);
    hide Merging, ValidOutputs, WellListed, Newer, UniqueSequences, Stretch, SameReads, Vanishes, Uncovers, Contents;
  }

  // ---------------------------------------------------------------------------
  // The condition as a check on the choice
  // ---------------------------------------------------------------------------

  /** The inputs end between these two neighbours. */
  ghost predicate Ends(files: Level, inputs: Level, b: nat) {
    0 < b < |files| && files[b - 1] in inputs && files[b] !in inputs
  }

  /** Where the inputs of level m end inside a user key, the loop uncovers nothing. */
  ghost predicate EndsUnseen(v: Version, level: nat, m: nat, inputs: Level, input: seq<Entry>, smallest: nat, before: set<Entry>)
    requires ValidVersion(v) && m < kNumLevels
  {
    forall b: nat :: Ends(v[m], inputs, b) && GoesOn(v[m], b) ==> !Uncovers(before, v, level, input, smallest, NextEntry(v, m, b))
  }

  /** Where the inputs of the upper level end inside a user key, the loop drops that key for good. */
  ghost predicate EndsForGood(v: Version, level: nat, inputs: Level, input: seq<Entry>, smallest: nat)
    requires ValidVersion(v) && level < kNumLevels
  {
    forall b: nat :: Ends(v[level], inputs, b) && GoesOn(v[level], b) ==> Vanishes(v, level, input, smallest, NextEntry(v, level, b).key)
  }

  /** No reader can tell. */
  ghost predicate UnseenChoice(v: Version, level: nat, in0: Level, in1: Level, input: seq<Entry>, smallest: nat, before: set<Entry>)
    requires ValidVersion(v) && level + 1 < kNumLevels
  {
    && (level > 0 ==> EndsUnseen(v, level, level, in0, input, smallest, before))
    && EndsUnseen(v, level, level + 1, in1, input, smallest, before)
  }

  /** And the new version is in order. */
  ghost predicate SafeChoice(v: Version, level: nat, in0: Level, in1: Level, input: seq<Entry>, smallest: nat, before: set<Entry>)
    requires ValidVersion(v) && level + 1 < kNumLevels
  {
    && (level > 0 ==> EndsForGood(v, level, in0, input, smallest))
    && UnseenChoice(v, level, in0, in1, input, smallest, before)
  }

  /** A stretch ends once, so one boundary decides. */
  lemma StretchEnds(v: Version, level: nat, m: nat, inputs: Level, a: nat, b: nat, input: seq<Entry>, smallest: nat, before: set<Entry>)
    requires ValidVersion(v) && level + 1 < kNumLevels && m < kNumLevels && Stretch(v[m], inputs, a, b)
    ensures EndsUnseen(v, level, m, inputs, input, smallest, before) <==>
            (GoesOn(v[m], b) ==> !Uncovers(before, v, level, input, smallest, NextEntry(v, m, b)))
    ensures m == level ==> (EndsForGood(v, level, inputs, input, smallest) <==>
              (GoesOn(v[m], b) ==> Vanishes(v, level, input, smallest, NextEntry(v, m, b).key)))
  {
    hide Uncovers, Vanishes;
    var files := v[m];
    forall c: nat ensures Ends(files, inputs, c) <==> c == b < |files| {
    }
  }

  lemma NothingEnds(v: Version, level: nat, m: nat, input: seq<Entry>, smallest: nat, before: set<Entry>)
    requires ValidVersion(v) && m < kNumLevels
    ensures EndsUnseen(v, level, m, [], input, smallest, before)
  {
  }

  /** Where the inputs that the code chooses end on either level. */
  lemma ChoiceEnds(v: Version, level: nat, in0: Level, in1: Level, lo: UserKey, hi: UserKey, input: seq<Entry>,
                   smallest: nat, before: set<Entry>) returns (a0: nat, b0: nat, a1: nat, b1: nat)
    requires ValidVersion(v) && level + 1 < kNumLevels == |v| && ValidInputs(v, level, in0, in1, lo, hi)
    requires level > 0 ==> Together(v[level], in0)
    ensures (level > 0 ==> Stretch(v[level], in0, a0, b0)) && (in1 != [] ==> Stretch(v[level + 1], in1, a1, b1))
    ensures level > 0 ==>
              && (EndsUnseen(v, level, level, in0, input, smallest, before)
                  <==> BoundaryKeeps(before, v, level, input, smallest, level, b0))
              && (EndsForGood(v, level, in0, input, smallest)
                  <==> (GoesOn(v[level], b0) ==> Vanishes(v, level, input, smallest, NextEntry(v, level, b0).key)))
    ensures EndsUnseen(v, level, level + 1, in1, input, smallest, before)
            <==> (in1 != [] ==> BoundaryKeeps(before, v, level, input, smallest, level + 1, b1))
  {
    hide Stretch, Vanishes, Uncovers, EndsUnseen, EndsForGood, GoesOn, NextEntry, ValidInputs, ValidVersion;
    a0, b0, a1, b1 := 0, 0, 0, 0;
    if level > 0 {
      a0, b0 :| Stretch(v[level], in0, a0, b0);
      StretchEnds(v, level, level, in0, a0, b0, input, smallest, before);
    }
    if in1 != [] {
      a1, b1 := LowerStretch(v, level, in0, in1, lo, hi);
      StretchEnds(v, level, level + 1, in1, a1, b1, input, smallest, before);
    } else {
      NothingEnds(v, level, level + 1, input, smallest, before);
    }
  }

  /** The choices that the code makes lead to a valid version that no reader can tell exactly when they are safe. */
  lemma SafeChoiceIff(v: Version, level: nat, in0: Level, in1: Level, lo: UserKey, hi: UserKey, input: seq<Entry>,
                      smallest: nat, outs: Level, v': Version, shallow: set<Entry>)
    requires Merging(v, level, in0, in1, lo, hi, input, smallest, outs, v')
    requires ValidOutputs(in0, in1, outs) && WellListed(v', level)
    requires Newer(shallow, Contents(v)) && UniqueSequences(shallow + Contents(v))
    requires level > 0 ==> Together(v[level], in0)
    ensures ValidVersion(v') && (forall k, s :: s >= smallest ==> SameReads(shallow + Contents(v), shallow + Contents(v'), k, s))
            <==> SafeChoice(v, level, in0, in1, input, smallest, shallow + Contents(v))
  {
    hide Merging, ValidOutputs, WellListed, Newer, UniqueSequences, Stretch, SameReads, Vanishes, Uncovers, Contents;
    hide EndsUnseen, EndsForGood, ValidVersion, GoesOn, Together, NextEntry;
    MergingLevels(v, level, in0, in1, lo, hi, input, smallest, outs, v');
    var a0, b0, a1, b1 := ChoiceEnds(v, level, in0, in1, lo, hi, input, smallest, shallow + Contents(v));
    MergeSafeIff(v, level, in0, in1, lo, hi, input, smallest, outs, v', shallow, a0, b0, a1, b1);
  }

  /** Readers alone ask for less: that no dropped marker uncovers a value of the next file. */
  lemma UnseenChoiceIff(v: Version, level: nat, in0: Level, in1: Level, lo: UserKey, hi: UserKey, input: seq<Entry>,
                        smallest: nat, outs: Level, v': Version, shallow: set<Entry>)
    requires Merging(v, level, in0, in1, lo, hi, input, smallest, outs, v')
    requires Newer(shallow, Contents(v)) && UniqueSequences(shallow + Contents(v))
    requires level > 0 ==> Together(v[level], in0)
    ensures (forall k, s :: s >= smallest ==> SameReads(shallow + Contents(v), shallow + Contents(v'), k, s))
            <==> UnseenChoice(v, level, in0, in1, input, smallest, shallow + Contents(v))
  {
    hide Merging, Newer, UniqueSequences, Stretch, SameReads, BoundaryKeeps, Contents;
    hide EndsUnseen, EndsForGood, ValidVersion, Vanishes, GoesOn, Together, NextEntry;
    MergingLevels(v, level, in0, in1, lo, hi, input, smallest, outs, v');
    var a0, b0, a1, b1 := ChoiceEnds(v, level, in0, in1, lo, hi, input, smallest, shallow + Contents(v));
    ReadsKeptIff(v, level, in0, in1, lo, hi, input, smallest, outs, v', shallow, a0, b0, a1, b1);
  }

  lemma MergingLevels(v: Version, level: nat, in0: Level, in1: Level, lo: UserKey, hi: UserKey, input: seq<Entry>,
                      smallest: nat, outs: Level, v': Version)
    requires Merging(v, level, in0, in1, lo, hi, input, smallest, outs, v')
    ensures ValidVersion(v) && |v| == kNumLevels && level + 1 < kNumLevels && ValidInputs(v, level, in0, in1, lo, hi)
    ensures ValidFiles(v[level]) && ValidFiles(v[level + 1])
  {
    hide Merged, Survivors, Installed, UniqueSequences;
  }

  lemma LowerStretch(v: Version, level: nat, in0: Level, in1: Level, lo: UserKey, hi: UserKey) returns (a: nat, b: nat)
    requires ValidVersion(v) && ValidInputs(v, level, in0, in1, lo, hi) && in1 != []
    ensures Stretch(v[level + 1], in1, a, b)
  {
    a, b := MeetingFilesAreStretch(v[level + 1], in1, Some(lo), Some(hi));
  }

  /** Inputs that share no user key with what is left out on their levels are a safe choice. */
  lemma ClosedIsSafe(v: Version, level: nat, in0: Level, in1: Level, input: seq<Entry>, smallest: nat, before: set<Entry>)
    requires ValidVersion(v) && level + 1 < kNumLevels && ClosedInputs(v, level, in0, in1)
    ensures SafeChoice(v, level, in0, in1, input, smallest, before)
  {
    CleanEnds(v, level, in0);
    CleanEnds(v, level + 1, in1);
  }

  lemma CleanEnds(v: Version, m: nat, inputs: Level)
    requires ValidVersion(v) && m < kNumLevels && NoSharedKeys(Content(inputs), RestContent(v[m], inputs))
    ensures forall b: nat :: Ends(v[m], inputs, b) ==> !GoesOn(v[m], b)
  {
    forall b: nat | Ends(v[m], inputs, b) ensures !GoesOn(v[m], b) {
      if GoesOn(v[m], b) { UncleanIsShared(v[m], inputs, b); }
    }
  }

  // ---------------------------------------------------------------------------
  // Inputs that show it
  // ---------------------------------------------------------------------------

  lemma ContentOfOne(f: File)
    ensures Content([f]) == Elements(f.entries)
  {
  }

  lemma ContentOfTwo(f: File, g: File)
    ensures Content([f, g]) == Elements(f.entries) + Elements(g.entries)
  {
    assert f in [f, g] && g in [f, g];
  }

  /** A version with files on levels 1 and 2 only. */
  ghost predicate Small(v: Version, upper: Level, lower: Level) {
    |v| == kNumLevels && v[0] == [] && v[1] == upper && v[2] == lower && forall l :: 3 <= l < |v| ==> v[l] == []
  }

  lemma SmallContents(v: Version, upper: Level, lower: Level)
    requires Small(v, upper, lower)
    ensures Contents(v) == Content(upper) + Content(lower)
    ensures Content(v[0]) == {} && forall l :: 3 <= l < |v| ==> Content(v[l]) == {}
  {
    forall e | e in Content(upper) + Content(lower) ensures e in Contents(v) {
      if e in Content(upper) {
        var f :| f in v[1] && e in f.entries;
        InLevel(v, 1, f, e);
      } else {
        var f :| f in v[2] && e in f.entries;
        InLevel(v, 2, f, e);
      }
    }
  }

  lemma SmallIsValid(v: Version, upper: Level, lower: Level)
    requires Small(v, upper, lower)
    requires ValidFiles(upper) && SortedFiles(upper) && ValidFiles(lower) && SortedFiles(lower)
    requires Newer(Content(upper), Content(lower))
    ensures ValidVersion(v)
  {
    SmallContents(v, upper, lower);
    hide Content, SortedFiles;
    forall l, m | 0 <= l < m < |v| ensures Newer(Content(v[l]), Content(v[m])) {
      assert (l == 1 && m == 2) || Content(v[l]) == {} || Content(v[m]) == {};
    }
  }

  /** f and g hold one entry each of the same key, f the newer one: an earlier compaction closed a file between them. */
  ghost predicate SplitKey(f: File, g: File, x: Entry, y: Entry) {
    f.entries == [x] && g.entries == [y] && x.key == y.key && y.sn < x.sn <= kMaxSequenceNumber && f.number != g.number
  }

  lemma SplitKeyFiles(f: File, g: File, x: Entry, y: Entry)
    requires SplitKey(f, g, x, y)
    ensures ValidFiles([f, g]) && SortedFiles([f, g]) && ValidFiles([f]) && ValidFiles([g])
    ensures Content([f, g]) == {x, y} && Content([f]) == {x} && Content([g]) == {y} && Content([]) == {}
  {
    ContentOfTwo(f, g);
    ContentOfOne(f);
    ContentOfOne(g);
    assert x in f.entries && y in g.entries;
    assert Elements(f.entries) == {x} && Elements(g.entries) == {y};
  }

  lemma SplitKeyInstalled(f: File, g: File, v: Version, v': Version)
    requires f != g && Small(v, [f, g], []) && Small(v', [g], [f]) && ValidFiles([f]) && ValidFiles([g])
    ensures Installed(v, 1, [f], [], [f], v') && WellListed(v', 1)
  {
    assert |v| == |v'| && 1 + 1 < |v|;
    forall l | 0 <= l < |v| && l != 1 && l != 2 ensures v'[l] == v[l] {
    }
  }

  /** Moving f down, as PickCompaction and IsTrivialMove decide when level 2 is empty, gives a version out of order. */
  lemma MoveOfSplitKey(f: File, g: File, x: Entry, y: Entry, v: Version, v': Version)
    requires SplitKey(f, g, x, y) && Small(v, [f, g], []) && Small(v', [g], [f])
    ensures ValidVersion(v) && UniqueSequences(Contents(v))
    ensures Installed(v, 1, [f], [], [f], v') && WellListed(v', 1)
    ensures !ValidVersion(v')
  {
    SplitKeyFiles(f, g, x, y);
    SmallContents(v, [f, g], []);
    SplitKeyInstalled(f, g, v, v');
    hide Content, Contents, ValidFiles, SortedFiles, Installed, WellListed;
    SmallIsValid(v, [f, g], []);
    assert !Newer(Content(v'[1]), Content(v'[2])) by {
      NotNewer(Content(v'[1]), Content(v'[2]), y, x);
    }
    hide Newer;
    assert !ShallowerIsNewer(v');
    hide ShallowerIsNewer;
  }

  lemma SplitKeyExists() returns (f: File, g: File, x: Entry, y: Entry, v: Version, v': Version)
    ensures SplitKey(f, g, x, y) && Small(v, [f, g], []) && Small(v', [g], [f])
  {
    x, y := Entry(1.0, 2, Put([])), Entry(1.0, 1, Put([]));
    f, g := File(1, 0, [x]), File(2, 0, [y]);
    v, v' := [[], [f, g], [], [], [], [], []], [[], [g], [f], [], [], [], []];
  }

  /**
   The file t of level 1 has a newer value for key k; below it a ends with the deletion of a larger key, and b goes
   on with the value that was deleted. The compaction of t takes in a, but not b.
   */
  ghost predicate Guarded(t: File, a: File, b: File, k: UserKey, l: UserKey, value: Value) {
    && k < l && t.entries == [Entry(k, 5, Put(value))]
    && a.entries == [Entry(k, 3, Put(value)), Entry(l, 4, Delete)]
    && b.entries == [Entry(l, 2, Put(value))]
  }

  lemma GuardedContents(t: File, a: File, b: File, o: File, k: UserKey, l: UserKey, value: Value, v: Version, v': Version)
    requires Guarded(t, a, b, k, l, value) && o.entries == t.entries && Small(v, [t], [a, b]) && Small(v', [], [o, b])
    ensures Contents(v) == {Entry(k, 5, Put(value)), Entry(k, 3, Put(value)), Entry(l, 4, Delete), Entry(l, 2, Put(value))}
    ensures Contents(v') == {Entry(k, 5, Put(value)), Entry(l, 2, Put(value))}
  {
    ContentOfOne(t);
    ContentOfTwo(a, b);
    ContentOfTwo(o, b);
    assert Content([]) == {};
    SmallContents(v, [t], [a, b]);
    SmallContents(v', [], [o, b]);
    hide Content, Contents;
    assert Elements(t.entries) == {Entry(k, 5, Put(value))} && Elements(b.entries) == {Entry(l, 2, Put(value))};
    assert Elements(a.entries) == {Entry(k, 3, Put(value)), Entry(l, 4, Delete)} by {
      assert a.entries[0] in a.entries && a.entries[1] in a.entries;
    }
  }

  lemma GuardedIsValid(t: File, a: File, b: File, k: UserKey, l: UserKey, value: Value, v: Version)
    requires Guarded(t, a, b, k, l, value) && Small(v, [t], [a, b])
    ensures ValidVersion(v) && ValidInputs(v, 1, [t], [a], k, k)
  {
    ContentOfOne(t);
    ContentOfTwo(a, b);
    hide Content, Contents;
    assert ValidFiles([t]) && SortedFiles([t]) && ValidFiles([a, b]) && SortedFiles([a, b]);
    assert Newer(Content([t]), Content([a, b])) by {
      forall x, y | x in Elements(t.entries) && y in Elements(a.entries) + Elements(b.entries) && x.key == y.key ensures x.sn > y.sn {
      }
    }
    SmallIsValid(v, [t], [a, b]);
    hide ValidVersion;
    assert a.entries[0] in a.entries;
    assert v[1] == [t] && v[2] == [a, b];
  }

  /** The loop keeps the newest value and drops the marker: no level below has the key. */
  lemma GuardedSurvivors(t: File, a: File, b: File, o: File, k: UserKey, l: UserKey, value: Value, v: Version)
    requires Guarded(t, a, b, k, l, value) && Small(v, [t], [a, b]) && o.entries == t.entries && ValidVersion(v)
    ensures var input := [Entry(k, 5, Put(value)), Entry(k, 3, Put(value)), Entry(l, 4, Delete)];
            Merged([t], [a], input) && Survivors(v, 1, input, 5, [o]) && DropsMarker(v, 1, input, 5, 2)
  {
    var input := [Entry(k, 5, Put(value)), Entry(k, 3, Put(value)), Entry(l, 4, Delete)];
    ContentOfOne(t);
    ContentOfOne(a);
    ContentOfOne(o);
    hide Content, ValidVersion;
    assert BaseLevel(v, 1, l) by {
      hide ValidFiles;
      assert forall m :: 3 <= m < |v| ==> v[m] == [];
    }
    hide Small, BaseLevel;
    assert input[0] in input && input[1] in input && input[2] in input;
    assert Elements(input) == Elements(t.entries) + Elements(a.entries) by {
      assert t.entries[0] in t.entries && a.entries[0] in a.entries && a.entries[1] in a.entries;
    }
    assert !Hidden(input, 0, 5) && !Obsolete(v, 1, input[0], 5) && Keep(v, 1, input, 0, 5);
    assert Hidden(input, 1, 5) && !Hidden(input, 2, 5);
    assert Elements(o.entries) == {input[0]};
  }

  /** The compaction is one that the code makes: every condition that it checks is met. */
  lemma GuardedIsMerged(t: File, a: File, b: File, o: File, k: UserKey, l: UserKey, value: Value, v: Version, v': Version)
    requires Guarded(t, a, b, k, l, value) && o.entries == t.entries && Small(v, [t], [a, b]) && Small(v', [], [o, b])
    ensures Merging(v, 1, [t], [a], k, k, [Entry(k, 5, Put(value)), Entry(k, 3, Put(value)), Entry(l, 4, Delete)], 5, [o], v')
  {
    GuardedUnique(t, a, b, o, k, l, value, v, v');
    GuardedIsValid(t, a, b, k, l, value, v);
    GuardedSurvivors(t, a, b, o, k, l, value, v);
    assert |a.entries| != |b.entries|;
    GuardedInstalled(t, a, b, o, v, v');
    hide Small, Installed, Guarded, Contents, ValidVersion, ValidInputs, Merged, Survivors, DropsMarker, Content, UniqueSequences;
  }

  lemma GuardedUnique(t: File, a: File, b: File, o: File, k: UserKey, l: UserKey, value: Value, v: Version, v': Version)
    requires Guarded(t, a, b, k, l, value) && o.entries == t.entries && Small(v, [t], [a, b]) && Small(v', [], [o, b])
    ensures UniqueSequences(Contents(v))
  {
    GuardedContents(t, a, b, o, k, l, value, v, v');
    hide Contents, Small, Content;
  }

  lemma MarkerGone(k: UserKey, l: UserKey, value: Value, before: set<Entry>, after: set<Entry>)
    requires before == {Entry(k, 5, Put(value)), Entry(k, 3, Put(value)), Entry(l, 4, Delete), Entry(l, 2, Put(value))} && k < l
    requires after == {Entry(k, 5, Put(value)), Entry(l, 2, Put(value))}
    ensures ReadsAs(before, l, 5, None) && !ReadsAs(before, l, 5, Some(value)) && ReadsAs(after, l, 5, Some(value))
  {
    assert IsLatest(after, l, 5, Entry(l, 2, Put(value)));
    forall e | IsLatest(before, l, 5, e) ensures e == Entry(l, 4, Delete) {
      assert Candidate(Entry(l, 4, Delete), l, 5);
    }
  }

  /** A deleted key reads as its old value again: at the smallest live snapshot, 5, nothing was found for key l, and
      after the compaction something is. */
  lemma DeletedKeyComesBack(t: File, a: File, b: File, o: File, k: UserKey, l: UserKey, value: Value, v: Version, v': Version)
    requires Guarded(t, a, b, k, l, value) && o.entries == t.entries && Small(v, [t], [a, b]) && Small(v', [], [o, b])
    ensures Merging(v, 1, [t], [a], k, k, [Entry(k, 5, Put(value)), Entry(k, 3, Put(value)), Entry(l, 4, Delete)], 5, [o], v')
    ensures ReadsAs(Contents(v), l, 5, None) && !ReadsAs(Contents(v), l, 5, Some(value))
    ensures ReadsAs(Contents(v'), l, 5, Some(value))
  {
    GuardedContents(t, a, b, o, k, l, value, v, v');
    GuardedIsMerged(t, a, b, o, k, l, value, v, v');
    hide Merging, Contents, Small;
    MarkerGone(k, l, value, Contents(v), Contents(v'));
  }

  lemma GuardedExists() returns (t: File, a: File, b: File, o: File, v: Version, v': Version)
    ensures Guarded(t, a, b, 1.0, 2.0, []) && o.entries == t.entries && Small(v, [t], [a, b]) && Small(v', [], [o, b])
  {
    a := File(1, 0, [Entry(1.0, 3, Put([])), Entry(2.0, 4, Delete)]);
    b, t, o := File(2, 0, [Entry(2.0, 2, Put([]))]), File(3, 0, [Entry(1.0, 5, Put([]))]), File(4, 0, [Entry(1.0, 5, Put([]))]);
    v, v' := [[], [t], [a, b], [], [], [], []], [[], [], [o, b], [], [], [], []];
  }

  lemma GuardedInstalled(t: File, a: File, b: File, o: File, v: Version, v': Version)
    requires Small(v, [t], [a, b]) && Small(v', [], [o, b]) && |a.entries| != |b.entries|
    ensures Installed(v, 1, [t], [a], [o], v')
  {
  }
}
