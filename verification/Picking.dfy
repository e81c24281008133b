/**
 Choosing the inputs of a compaction: where it starts, what goes with it, when the
 inputs are closed under shared user keys, which is enough for safety, and exactly
 when a single file may be moved down. The exact condition for merging compactions
 is in module Boundaries.
 */
module Picking {
  import opened Basics
  import opened Keys
  import opened Versions
  import opened Overlaps
  import opened Compactions
  import opened CompactionOrder
  import opened Stretches

  const kExpandedCompactionByteSizeLimit: nat := 25 * kTargetFileSize

  /** GetRange, for the user keys that the callers use. */
  method GetRange(inputs: Level) returns (lo: UserKey, hi: UserKey)
    requires |inputs| > 0 && ValidFiles(inputs)
    ensures forall i :: 0 <= i < |inputs| ==> lo <= Smallest(inputs[i]).user && Largest(inputs[i]).user <= hi
    ensures exists i :: 0 <= i < |inputs| && Smallest(inputs[i]).user == lo
    ensures exists i :: 0 <= i < |inputs| && Largest(inputs[i]).user == hi
  {
    lo, hi := Smallest(inputs[0]).user, Largest(inputs[0]).user;
    for i := 1 to |inputs|
      invariant forall j :: 0 <= j < i ==> lo <= Smallest(inputs[j]).user && Largest(inputs[j]).user <= hi
      invariant exists j :: 0 <= j < |inputs| && Smallest(inputs[j]).user == lo
      invariant exists j :: 0 <= j < |inputs| && Largest(inputs[j]).user == hi
    {
      if Smallest(inputs[i]).user < lo { lo := Smallest(inputs[i]).user; }
      if Largest(inputs[i]).user > hi { hi := Largest(inputs[i]).user; }
    }
  }

  /** The files selected on one level: on level 0 none of them shares a key with the rest; above, they stand side by side. */
  ghost predicate Selected(v: Version, level: nat, inputs: Level)
    requires ValidVersion(v) && level < kNumLevels
  {
    && |inputs| > 0 && ValidFiles(inputs)
    && (forall f :: f in inputs ==> f in v[level])
    && (level == 0 ==> NoSharedKeys(Content(inputs), RestContent(v[0], inputs)))
    && (level > 0 ==> Together(v[level], inputs))
  }

  /** What a range selects on a level, and on a level above 0 the first few of it, is a selection. */
  lemma OverlappingIsSelected(v: Version, level: nat, lo: Bound, hi: Bound, n: nat)
    requires ValidVersion(v) && level < kNumLevels && 0 < n <= |Overlapping(v[level], lo, hi)|
    requires level == 0 ==> AllWithin(Overlapping(v[0], lo, hi), lo, hi) && n == |Overlapping(v[0], lo, hi)|
    ensures Selected(v, level, Overlapping(v[level], lo, hi)[..n])
  {
    var r := Overlapping(v[level], lo, hi)[..n];
    OverlappingMembers(v[level], lo, hi);
    forall i | 0 <= i < |r| ensures ValidFile(r[i]) && r[i] in v[level] {
      var j :| 0 <= j < |v[level]| && v[level][j] == r[i];
    }
    if level > 0 {
      FirstOfRangeIsStretch(v[level], lo, hi, n);
    } else {
      assert r == Overlapping(v[0], lo, hi);
      NothingSharedOnTop(v, lo, hi);
    }
  }

  lemma NothingSharedOnTop(v: Version, lo: Bound, hi: Bound)
    requires ValidVersion(v) && AllWithin(Overlapping(v[0], lo, hi), lo, hi)
    ensures NoSharedKeys(Content(Overlapping(v[0], lo, hi)), RestContent(v[0], Overlapping(v[0], lo, hi)))
  {
    var r := Overlapping(v[0], lo, hi);
    OverlappingMembers(v[0], lo, hi);
    forall x, y | x in Content(r) && y in RestContent(v[0], r) ensures x.key != y.key {
      var f :| f in r && x in f.entries;
      var g :| g in v[0] && g !in r && y in g.entries;
      LeftOutSharesNothing(v[0], lo, hi, f, g);
    }
  }

  lemma RangeGivesInputs(v: Version, level: nat, in0: Level, lo: UserKey, hi: UserKey)
    requires ValidVersion(v) && level + 1 < kNumLevels && Selected(v, level, in0)
    requires forall i :: 0 <= i < |in0| ==> lo <= Smallest(in0[i]).user && Largest(in0[i]).user <= hi
    ensures ValidInputs(v, level, in0, Overlapping(v[level + 1], Some(lo), Some(hi)), lo, hi)
  {
    OverlappingMembers(v[level + 1], Some(lo), Some(hi));
  }

  lemma LevelFiles(v: Version, l: nat)
    requires ValidVersion(v) && l < kNumLevels
    ensures |v| == kNumLevels && ValidFiles(v[l])
  {
  }

  lemma SelectedFiles(v: Version, level: nat, inputs: Level)
    requires ValidVersion(v) && level < kNumLevels && Selected(v, level, inputs)
    ensures |inputs| > 0 && ValidFiles(inputs)
  {
  }

  /** The next level's files that the range of the inputs meets. */
  method OtherInputs(v: Version, level: nat, in0: Level) returns (in1: Level, lo: UserKey, hi: UserKey)
    requires ValidVersion(v) && level + 1 < kNumLevels && Selected(v, level, in0)
    ensures ValidInputs(v, level, in0, in1, lo, hi)
    ensures in1 == [] || Selected(v, level + 1, in1)
  {
    hide *;
    LevelFiles(v, level + 1);
    SelectedFiles(v, level, in0);
    lo, hi := GetRange(in0);
    ghost var l, h;
    in1, l, h := GetOverlappingInputs(level + 1, v[level + 1], Some(lo), Some(hi));
    RangeGivesInputs(v, level, in0, lo, hi);
    WholeRangeIsSelected(v, level + 1, in1, Some(lo), Some(hi));
  }

  lemma WholeRangeIsSelected(v: Version, level: nat, inputs: Level, lo: Bound, hi: Bound)
    requires ValidVersion(v) && level < kNumLevels && inputs == Overlapping(v[level], lo, hi)
    requires level == 0 ==> AllWithin(inputs, lo, hi)
    ensures inputs == [] || Selected(v, level, inputs)
  {
    if inputs != [] {
      OverlappingIsSelected(v, level, lo, hi, |inputs|);
      assert inputs[..|inputs|] == inputs;
    }
  }

  /** The files of the first level that meet the range of both input sets. */
  method Expanded(v: Version, level: nat, in0: Level, in1: Level) returns (expanded0: Level)
    requires ValidVersion(v) && level + 1 < kNumLevels && Selected(v, level, in0) && ValidFiles(in1)
    ensures expanded0 == [] || Selected(v, level, expanded0)
    ensures forall f :: f in in0 ==> f in expanded0
  {
    var allStart, allLimit := GetRange(in0 + in1);
    ghost var l, h;
    expanded0, l, h := GetOverlappingInputs(level, v[level], Some(allStart), Some(allLimit));
    forall f | f in in0 ensures f in expanded0 {
      var i :| 0 <= i < |in0| && in0[i] == f;
      assert (in0 + in1)[i] == f;
      if level == 0 { ReachableFirst(v[0], Some(allStart), Some(allLimit), f); }
    }
    WholeRangeIsSelected(v, level, expanded0, l, h);
  }

  /** SetupOtherInputs: the next level's files that the range meets, then the expansion of the
      first level if it leaves the second unchanged in number and stays small enough. */
  method SetupOtherInputs(v: Version, level: nat, inputs: Level) returns (in0: Level, in1: Level, lo: UserKey, hi: UserKey)
    requires ValidVersion(v) && level + 1 < kNumLevels && Selected(v, level, inputs)
    ensures Selected(v, level, in0) && ValidInputs(v, level, in0, in1, lo, hi)
    ensures |in0| >= |inputs| && forall f :: f in inputs ==> f in in0
  {
    in0 := inputs;
    in1, lo, hi := OtherInputs(v, level, in0);
    if in1 != [] {
      var expanded0 := Expanded(v, level, in0, in1);
      if |expanded0| > |in0| && TotalFileSize(in1) + TotalFileSize(expanded0) < kExpandedCompactionByteSizeLimit {
        var expanded1, newStart, newLimit := OtherInputs(v, level, expanded0);
        if |expanded1| == |in1| {
          in0, in1, lo, hi := expanded0, expanded1, newStart, newLimit;
        }
      }
    }
  }

  // ---------------------------------------------------------------------------
  // Where a compaction starts
  // ---------------------------------------------------------------------------

  /** The file is not behind the place where the last compaction of its level stopped. */
  predicate Passed(f: File, pointer: Option<InternalKey>)
    requires |f.entries| > 0
  {
    pointer.Some? && !Less(pointer.value, Largest(f))
  }

  /** File p is the first behind that place, or, when there is none, the first of all. */
  ghost predicate ComesAfter(files: Level, pointer: Option<InternalKey>, p: nat)
    requires ValidFiles(files)
  {
    && p < |files| && (forall q :: 0 <= q < p ==> Passed(files[q], pointer))
    && (!Passed(files[p], pointer) || (p == 0 && forall q :: 0 <= q < |files| ==> Passed(files[q], pointer)))
  }

  method FirstAfter(files: Level, pointer: Option<InternalKey>) returns (p: nat)
    requires ValidFiles(files) && files != []
    ensures ComesAfter(files, pointer, p)
  {
    p := 0;
    while p < |files|
      invariant p <= |files|
      invariant forall q :: 0 <= q < p ==> Passed(files[q], pointer)
    {
      if !Passed(files[p], pointer) { return; }
      p := p + 1;
    }
    p := 0;
  }

  /** A level that has grown too large, with the place where its last compaction stopped; or a file that too many
      lookups have passed through. */
  datatype Cause = TooLarge(level: nat, pointer: Option<InternalKey>) | TooManySeeks(level: nat, file: nat)

  ghost predicate Picked(v: Version, cause: Cause, p: nat)
    requires ValidVersion(v) && cause.level < kNumLevels
  {
    match cause
    case TooLarge(level, pointer) => ComesAfter(v[level], pointer, p)
    case TooManySeeks(level, file) => p == file < |v[level]|
  }

  /** The level is not empty, and is not the last. */
  ghost predicate MayCause(v: Version, cause: Cause)
    requires ValidVersion(v)
  {
    cause.level + 1 < kNumLevels && v[cause.level] != [] && (cause.TooManySeeks? ==> cause.file < |v[cause.level]|)
  }

  lemma OneFileIsSelected(v: Version, level: nat, p: nat)
    requires ValidVersion(v) && 0 < level < kNumLevels && p < |v[level]|
    ensures Selected(v, level, [v[level][p]])
  {
    OneFileIsStretch(v[level], p);
  }

  /** On level 0 the picked file is replaced by all that overlap it, directly or through others, and stays among them. */
  method WithOverlaps(v: Version, p: nat) returns (inputs: Level)
    requires ValidVersion(v) && p < |v[0]|
    ensures Selected(v, 0, inputs) && v[0][p] in inputs
  {
    var one, f := [v[0][p]], v[0][p];
    assert one[0] == f;
    var smallest, largest := GetRange(one);
    ghost var l, h;
    inputs, l, h := GetOverlappingInputs(0, v[0], Some(smallest), Some(largest));
    assert f in v[0] && Touches(f, Some(smallest), Some(largest));
    ReachableFirst(v[0], Some(smallest), Some(largest), f);
    hide *;
    WholeRangeIsSelected(v, 0, inputs, l, h);
  }

  /** PickCompaction: one file, on level 0 with its overlaps, and what goes with it on the next level. */
  method PickCompaction(v: Version, cause: Cause) returns (ghost p: nat, in0: Level, in1: Level, lo: UserKey, hi: UserKey)
    requires ValidVersion(v) && MayCause(v, cause)
    ensures Picked(v, cause, p) && p < |v[cause.level]| && v[cause.level][p] in in0
    ensures Selected(v, cause.level, in0) && ValidInputs(v, cause.level, in0, in1, lo, hi)
  {
    var level := cause.level;
    var at: nat;
    match cause {
      case TooLarge(_, pointer) => at := FirstAfter(v[level], pointer);
      case TooManySeeks(_, file) => at := file;
    }
    p := at;
    var inputs := [v[level][at]];
    if level == 0 {
      inputs := WithOverlaps(v, at);
    } else {
      OneFileIsSelected(v, level, at);
    }
    in0, in1, lo, hi := SetupOtherInputs(v, level, inputs);
  }

  /** How many of the files a manual compaction takes at once: up to the one with which they reach the limit. */
  ghost predicate Enough(files: Level, n: nat) {
    && 0 < n <= |files|
    && (n < |files| ==> TotalFileSize(files[..n]) >= kTargetFileSize)
    && forall m :: 0 <= m < n ==> TotalFileSize(files[..m]) < kTargetFileSize
  }

  lemma {:induction false} SizeOfMore(files: Level, f: File)
    ensures TotalFileSize(files + [f]) == TotalFileSize(files) + f.size
  {
    if files == [] {
      assert [f][1..] == [];
    } else {
      SizeOfMore(files[1..], f);
      assert (files + [f])[1..] == files[1..] + [f];
    }
  }

  method Shorten(files: Level) returns (n: nat)
    requires files != []
    ensures Enough(files, n)
  {
    var total := 0;
    n := 0;
    while n < |files|
      invariant n <= |files| && total == TotalFileSize(files[..n]) < kTargetFileSize
      invariant forall m :: 0 <= m < n ==> TotalFileSize(files[..m]) < kTargetFileSize
    {
      SizeOfMore(files[..n], files[n]);
      assert files[..n + 1] == files[..n] + [files[n]];
      total := total + files[n].size;
      n := n + 1;
      if total >= kTargetFileSize { return; }
    }
  }

  /** Some file of the level meets the range. */
  ghost predicate Meets(v: Version, level: nat, begin: Bound, end: Bound)
    requires ValidVersion(v) && level < kNumLevels
  {
    exists f: File :: f in v[level] && |f.entries| > 0 && Touches(f, begin, end)
  }

  lemma FirstOfRangeIsSelected(v: Version, level: nat, lo: Bound, hi: Bound, inputs: Level, n: nat)
    requires ValidVersion(v) && level < kNumLevels && inputs == Overlapping(v[level], lo, hi) && 0 < n <= |inputs|
    requires level == 0 ==> AllWithin(inputs, lo, hi) && n == |inputs|
    ensures Selected(v, level, inputs[..n])
  {
    OverlappingIsSelected(v, level, lo, hi, n);
  }

  /** CompactRange: the files that meet a range, on a level above 0 no more than reach the limit. Nothing to do, if none
      meets it. */
  method CompactRange(v: Version, level: nat, begin: Bound, end: Bound)
    returns (found: bool, in0: Level, in1: Level, lo: UserKey, hi: UserKey)
    requires ValidVersion(v) && level + 1 < kNumLevels
    ensures found <==> Meets(v, level, begin, end)
    ensures found ==> Selected(v, level, in0) && ValidInputs(v, level, in0, in1, lo, hi)
  {
    ghost var l, h;
    in1, lo, hi := [], 0.0, 0.0;
    in0, l, h := GetOverlappingInputs(level, v[level], begin, end);
    OverlappingMembers(v[level], l, h);
    RangeFinds(v, level, begin, end, in0);
    hide *;
    if in0 == [] {
      return false, in0, in1, lo, hi;
    }
    var n := |in0|;
    if level > 0 { n := Shorten(in0); }
    FirstOfRangeIsSelected(v, level, l, h, in0, n);
    in0, in1, lo, hi := SetupOtherInputs(v, level, in0[..n]);
    found := true;
  }

  lemma RangeFinds(v: Version, level: nat, begin: Bound, end: Bound, inputs: Level)
    requires ValidVersion(v) && level < kNumLevels
    requires level > 0 ==> forall f :: f in inputs <==> f in v[level] && |f.entries| > 0 && Touches(f, begin, end)
    requires level == 0 ==> (forall f :: f in v[0] ==> (f in inputs <==> Reachable(v[0], begin, end, f))) && forall f :: f in inputs ==> f in v[0]
    ensures inputs != [] <==> Meets(v, level, begin, end)
  {
    if inputs != [] {
      var f := inputs[0];
      assert f in inputs;
      if level == 0 {
        var path: seq<File> :| Chain(v[0], begin, end, path) && path[|path| - 1] == f;
        ChainBegins(v[0], begin, end, path);
        assert path[0] in v[0] && |path[0].entries| > 0 && Touches(path[0], begin, end);
      }
    }
    if f: File :| f in v[level] && |f.entries| > 0 && Touches(f, begin, end) {
      if level == 0 { ReachableFirst(v[0], begin, end, f); }
      assert f in inputs;
    }
  }

  lemma {:induction false} ChainBegins(files: Level, begin: Bound, end: Bound, path: seq<File>)
    requires ValidFiles(files) && Chain(files, begin, end, path)
    ensures path[0] in files && |path[0].entries| > 0 && Touches(path[0], begin, end)
    decreases |path|
  {
    var n := |path| - 1;
    if n == 0 {
      var j :| 0 <= j < |files| && files[j] == path[0];
    } else {
      ChainBegins(files, begin, end, path[..n]);
    }
  }

  lemma BothValid(a: Level, b: Level)
    requires ValidFiles(a) && ValidFiles(b)
    ensures ValidFiles(a + b)
  {
  }

  lemma RangeOfOne(inputs: Level)
    requires inputs != [] && ValidFiles(inputs)
    ensures TotalFileSize([]) == 0
    ensures |inputs[0].entries| > 0 && (|inputs| == 1 ==> inputs == [inputs[0]] && inputs + [] == inputs)
  {
  }

  /** IsTrivialMove: a single file, with nothing to merge it with, that overlaps not too much two levels down. */
  method IsTrivialMove(v: Version, level: nat, in0: Level, in1: Level) returns (trivial: bool)
    requires ValidVersion(v) && level + 1 < kNumLevels && in0 != [] && ValidFiles(in0) && ValidFiles(in1)
    ensures trivial <==>
              && |in0| == 1 && in1 == []
              && (level + 2 < kNumLevels ==>
                    TotalFileSize(Overlapping(v[level + 2], Some(Smallest(in0[0]).user), Some(Largest(in0[0]).user)))
                    <= kMaxGrandParentOverlapBytes)
  {
    var grandparents := [];
    hide *;
    RangeOfOne(in0);
    if level + 2 < kNumLevels {
      LevelFiles(v, level + 2);
      BothValid(in0, in1);
      var allStart, allLimit := GetRange(in0 + in1);
      ghost var l, h;
      grandparents, l, h := GetOverlappingInputs(level + 2, v[level + 2], Some(allStart), Some(allLimit));
    }
    trivial := |in0| == 1 && in1 == [] && TotalFileSize(grandparents) <= kMaxGrandParentOverlapBytes;
  }

  // ---------------------------------------------------------------------------
  // Closed inputs, as a check on the boundaries of the chosen files
  // ---------------------------------------------------------------------------

  /** Wherever the choice changes between neighbours, they do not share a user key. */
  ghost predicate BoundariesClean(files: Level, inputs: Level)
    requires ValidFiles(files)
  {
    forall i :: 1 <= i < |files| && (files[i - 1] in inputs <==> files[i] !in inputs) ==>
      Largest(files[i - 1]).user != Smallest(files[i]).user
  }

  /** On a sorted level the inputs share no user key with the rest exactly when every boundary is clean. */
  lemma ClosedIffBoundariesClean(files: Level, inputs: Level)
    requires ValidFiles(files) && SortedFiles(files)
    requires forall f :: f in inputs ==> f in files
    ensures NoSharedKeys(Content(inputs), RestContent(files, inputs)) <==> BoundariesClean(files, inputs)
  {
    if BoundariesClean(files, inputs) {
      forall x, y | x in Content(inputs) && y in RestContent(files, inputs) ensures x.key != y.key {
        SharedKeyIsUnclean(files, inputs, x, y);
      }
    } else {
      var i :| 1 <= i < |files| && (files[i - 1] in inputs <==> files[i] !in inputs)
             && Largest(files[i - 1]).user == Smallest(files[i]).user;
      UncleanIsShared(files, inputs, i);
    }
  }

  lemma UncleanIsShared(files: Level, inputs: Level, i: nat)
    requires ValidFiles(files)
    requires 1 <= i < |files| && (files[i - 1] in inputs <==> files[i] !in inputs)
    requires Largest(files[i - 1]).user == Smallest(files[i]).user
    ensures !NoSharedKeys(Content(inputs), RestContent(files, inputs))
  {
    var f, g := files[i - 1], files[i];
    var x, y := f.entries[|f.entries| - 1], g.entries[0];
    assert x.key == y.key && x in f.entries && y in g.entries;
    assert f in files && g in files;
    if f in inputs {
      assert x in Content(inputs) && y in RestContent(files, inputs);
    } else {
      assert y in Content(inputs) && x in RestContent(files, inputs);
    }
  }

  lemma PlaceOf(files: Level, f: File, x: Entry) returns (i: nat)
    requires ValidFiles(files) && f in files && x in f.entries
    ensures i < |files| && files[i] == f && |f.entries| > 0 && Smallest(f).user <= x.key <= Largest(f).user
  {
    i :| 0 <= i < |files| && files[i] == f;
    WithinFile(f, x);
  }

  lemma SharedKeyIsUnclean(files: Level, inputs: Level, x: Entry, y: Entry)
    requires ValidFiles(files) && SortedFiles(files) && BoundariesClean(files, inputs)
    requires forall f :: f in inputs ==> f in files
    requires x in Content(inputs) && y in RestContent(files, inputs)
    ensures x.key != y.key
  {
    hide SortedFiles, BoundariesClean, ValidFiles;
    var f :| f in inputs && x in f.entries;
    var g :| g in files && g !in inputs && y in g.entries;
    hide *;
    var i := PlaceOf(files, f, x);
    var j := PlaceOf(files, g, y);
    if x.key == y.key && i < j {
      KeyAcross(files, inputs, i, j, x.key);
    } else if x.key == y.key {
      KeyAcross(files, inputs, j, i, x.key);
    }
  }

  /** A key shared across files i..j sits on every boundary between them, so one boundary is unclean. */
  lemma {:induction false} KeyAcross(files: Level, inputs: Level, i: nat, j: nat, k: UserKey)
    requires ValidFiles(files) && SortedFiles(files) && i < j < |files|
    requires files[i] in inputs <==> files[j] !in inputs
    requires k <= Largest(files[i]).user && Smallest(files[j]).user <= k
    ensures !BoundariesClean(files, inputs)
    decreases j - i
  {
    assert Less(Largest(files[i]), Smallest(files[i + 1]));
    if files[i + 1] in inputs <==> files[i] in inputs {
      WithinFile(files[i + 1], files[i + 1].entries[0]);
      assert i + 1 < j;
      KeyAcross(files, inputs, i + 1, j, k);
    } else {
      if i + 1 < j { SmallestUserIncreases(files, i + 1, j); }
      assert Largest(files[i + 1 - 1]).user == Smallest(files[i + 1]).user;
    }
  }

  /** The inputs that SetupOtherInputs gives are closed exactly when the boundaries of the chosen files are
      clean; on level 0 the choice of whole overlap chains already guarantees its half. */
  lemma InputsClosedIff(v: Version, level: nat, in0: Level, in1: Level, lo: UserKey, hi: UserKey)
    requires ValidVersion(v) && level + 1 < kNumLevels
    requires Selected(v, level, in0) && ValidInputs(v, level, in0, in1, lo, hi)
    ensures ClosedInputs(v, level, in0, in1) <==>
            (level > 0 ==> BoundariesClean(v[level], in0)) && BoundariesClean(v[level + 1], in1)
  {
    if level > 0 { ClosedIffBoundariesClean(v[level], in0); }
    ClosedIffBoundariesClean(v[level + 1], in1);
  }

  // ---------------------------------------------------------------------------
  // Moving one file down
  // ---------------------------------------------------------------------------

  /** Moving a picked file down keeps the version valid exactly when, above level 0, the next file of its own level does
      not continue its last user key. */
  lemma TrivialMoveSafeIff(v: Version, level: nat, p: nat, v': Version)
    requires ValidVersion(v) && UniqueSequences(Contents(v)) && PickedAlone(v, level, p)
    requires Installed(v, level, [v[level][p]], [], [v[level][p]], v') && WellListed(v', level)
    ensures ValidVersion(v') <==> LastKeyEnds(v, level, p)
  {
    hide Installed, UniqueSequences, Contents;
    if LastKeyEnds(v, level, p) {
      MoveIsSafe(v, level, p, v');
    } else {
      MoveInvertsOrder(v, level, p, v');
    }
  }

  /** Newer data of a user key slips below older data of it. */
  lemma MoveInvertsOrder(v: Version, level: nat, p: nat, v': Version)
    requires level + 1 < |v| && ValidFiles(v[level]) && SortedFiles(v[level]) && p + 1 < |v[level]|
    requires Installed(v, level, [v[level][p]], [], [v[level][p]], v')
    requires Largest(v[level][p]).user == Smallest(v[level][p + 1]).user
    ensures !ShallowerIsNewer(v')
  {
    var f, g := v[level][p], v[level][p + 1];
    var y, x := f.entries[|f.entries| - 1], g.entries[0];
    assert Less(Largest(f), Smallest(g));
    WithinFile(f, f.entries[0]);
    assert f in [f];
    assert g in v'[level] && f in v'[level + 1];
    assert x in g.entries && y in f.entries;
    assert x in Content(v'[level]) && y in Content(v'[level + 1]);
    assert x.key == y.key && x.sn <= y.sn;
    assert !Newer(Content(v'[level]), Content(v'[level + 1]));
  }

  /** And then a lookup stops too early: at the snapshot of the moved file's last entry, the level's
      lookup hits the next file and answers with an older entry, while the newer one waits one level down. */
  lemma MoveReadsStale(v: Version, level: nat, p: nat, v': Version) returns (index: nat)
    requires ValidVersion(v) && UniqueSequences(Contents(v))
    requires 1 <= level && level + 1 < kNumLevels && p + 1 < |v[level]|
    requires Installed(v, level, [v[level][p]], [], [v[level][p]], v') && WellListed(v', level)
    requires Largest(v[level][p]).user == Smallest(v[level][p + 1]).user
    ensures
      var f := v[level][p];
      var y := f.entries[|f.entries| - 1];
      && y in Content(v'[level + 1])
      && SortedFiles(v'[level]) && Picks(v'[level], y.key, y.sn, index)
      && index < |v'[level]| && Smallest(v'[level][index]).user <= y.key
      && RunGet(v'[level][index].entries, y.key, y.sn) != NotFound
      && forall e :: e in v'[level][index].entries && Candidate(e, y.key, y.sn) ==> e.sn < y.sn
  {
    var f, g := v[level][p], v[level][p + 1];
    var y, x := f.entries[|f.entries| - 1], g.entries[0];
    assert Less(Largest(f), Smallest(g));
    WithinFile(f, f.entries[0]);
    UpperLevelSorted(v, level, [f], [], [f], v');
    assert f in [f] && f in v'[level + 1] && y in f.entries;
    assert g in v'[level];
    index :| 0 <= index < |v'[level]| && v'[level][index] == g;
    forall e | e in g.entries && Candidate(e, y.key, y.sn) ensures e.sn < y.sn {
      WithinFile(g, e);
      SameSequence(v, level, f, y, g, e);
    }
    FirstOfNext(v, level, p, y, x);
    forall i | 0 <= i < index ensures Less(Largest(v'[level][i]), SeekKey(y.key, y.sn)) {
      EarlierFile(v, level, p, v', index, i, y);
    }
    WithinFile(g, g.entries[0]);
    SeekKeyMeaning(g.entries[|g.entries| - 1], y.key, y.sn);
  }

  lemma SameSequence(v: Version, level: nat, f: File, y: Entry, g: File, e: Entry)
    requires UniqueSequences(Contents(v)) && level < |v|
    requires f in v[level] && y in f.entries && g in v[level] && e in g.entries
    requires e.key == y.key && Before(y, e)
    ensures e.sn < y.sn
  {
    InLevel(v, level, f, y);
    InLevel(v, level, g, e);
  }

  lemma FirstOfNext(v: Version, level: nat, p: nat, y: Entry, x: Entry)
    requires ValidVersion(v) && level < kNumLevels && p + 1 < |v[level]| && level >= 1
    requires x == v[level][p + 1].entries[0] && x.key == y.key
    requires y == v[level][p].entries[|v[level][p].entries| - 1]
    ensures RunGet(v[level][p + 1].entries, y.key, y.sn) != NotFound
  {
    var g := v[level][p + 1];
    assert Less(Largest(v[level][p]), Smallest(g));
    SeekKeyMeaning(x, y.key, y.sn);
  }

  lemma EarlierFile(v: Version, level: nat, p: nat, v': Version, index: nat, i: nat, y: Entry)
    requires ValidVersion(v) && UniqueSequences(Contents(v)) && 1 <= level && level + 1 < kNumLevels && p + 1 < |v[level]|
    requires Installed(v, level, [v[level][p]], [], [v[level][p]], v')
    requires ValidFiles(v'[level]) && SortedFiles(v'[level])
    requires i < index < |v'[level]| && v'[level][index] == v[level][p + 1]
    requires y == v[level][p].entries[|v[level][p].entries| - 1]
    ensures Less(Largest(v'[level][i]), SeekKey(y.key, y.sn))
  {
    hide ShallowerIsNewer, NewestByNumber, OrderedFiles;
    var h, g := v'[level][i], v[level][p + 1];
    var z := h.entries[|h.entries| - 1];
    assert h in v'[level];
    assert Less(Largest(h), Smallest(g));
    var q :| 0 <= q < |v[level]| && v[level][q] == h;
    assert v[level][p] in [v[level][p]];
    hide Installed, UniqueSequences, Contents;
    WithinFile(h, z);
    WithinFile(g, g.entries[0]);
    if q < p {
      assert Less(Largest(h), Smallest(v[level][p]));
      WithinFile(v[level][p], y);
      SeekKeyMeaning(z, y.key, y.sn);
      if z.key == y.key { SameSequence(v, level, h, z, v[level][p], y); }
    }
  }

  /** What the rest of the level holds of a key of the moved file is newer. */
  lemma MovedIsOlder(v: Version, level: nat, p: nat)
    requires ValidVersion(v) && UniqueSequences(Contents(v))
    requires 1 <= level < kNumLevels && p < |v[level]|
    requires p + 1 < |v[level]| ==> Largest(v[level][p]).user != Smallest(v[level][p + 1]).user
    ensures Newer(RestContent(v[level], [v[level][p]]), Elements(v[level][p].entries))
  {
    var f := v[level][p];
    assert |v| == kNumLevels;
    hide ValidVersion, UniqueSequences, Contents;
    forall x, y | x in RestContent(v[level], [f]) && y in Elements(f.entries) && x.key == y.key ensures x.sn > y.sn {
      var g :| g in v[level] && g !in [f] && x in g.entries;
      var q :| 0 <= q < |v[level]| && v[level][q] == g;
      assert q != p;
      ElsewhereIsNewer(v, level, p, q, x, y);
    }
  }

  lemma ElsewhereIsNewer(v: Version, level: nat, p: nat, q: nat, x: Entry, y: Entry)
    requires ValidVersion(v) && UniqueSequences(Contents(v))
    requires 1 <= level < kNumLevels && p < |v[level]| && q < |v[level]| && p != q
    requires p + 1 < |v[level]| ==> Largest(v[level][p]).user != Smallest(v[level][p + 1]).user
    requires y in v[level][p].entries && x in v[level][q].entries && x.key == y.key
    ensures x.sn > y.sn
  {
    hide ShallowerIsNewer, NewestByNumber, OrderedFiles, Contents;
    var f, g := v[level][p], v[level][q];
    WithinFile(f, y);
    WithinFile(g, x);
    InLevel(v, level, f, y);
    InLevel(v, level, g, x);
    if p < q {
      assert Less(Largest(f), Smallest(v[level][p + 1]));
      if p + 1 < q { SmallestUserIncreases(v[level], p + 1, q); }
    } else {
      assert Less(Largest(g), Smallest(f));
    }
  }

  lemma MovedAsInputs(v: Version, level: nat, p: nat)
    requires ValidVersion(v) && level + 1 < kNumLevels && p < |v[level]|
    requires forall g :: g in v[level + 1] && |g.entries| > 0 ==> !UserOverlap(v[level][p], g)
    ensures var f := v[level][p];
            |f.entries| > 0 && ValidInputs(v, level, [f], [], Smallest(f).user, Largest(f).user) && ValidOutputs([f], [], [f])
  {
    var f := v[level][p];
    assert ValidFile(f);
    assert forall o :: o in [f] ==> Elements(o.entries) <= Content([f]) + Content([]);
  }

  lemma MoveKeepsValid(v: Version, level: nat, p: nat, v': Version)
    requires ValidVersion(v) && level + 1 < kNumLevels && p < |v[level]|
    requires forall g :: g in v[level + 1] && |g.entries| > 0 ==> !UserOverlap(v[level][p], g)
    requires Installed(v, level, [v[level][p]], [], [v[level][p]], v') && WellListed(v', level)
    requires Newer(RestContent(v[level], [v[level][p]]), Elements(v[level][p].entries))
    ensures ValidVersion(v')
  {
    var f := v[level][p];
    var lo, hi := Smallest(f).user, Largest(f).user;
    MovedAsInputs(v, level, p);
    assert |v'| == |v| == kNumLevels && ShallowerIsNewer(v);
    hide ValidFiles, SortedFiles, OrderedFiles, NewestByNumber, ValidInputs, ValidOutputs, Installed, WellListed, Newer;
    hide Smallest, Largest, UserOverlap, Elements, Content, RestContent;
    forall l | 0 <= l < |v'|
      ensures ValidFiles(v'[l])
      ensures l >= 1 ==> SortedFiles(v'[l])
      ensures l == 0 ==> OrderedFiles(v'[l]) && NewestByNumber(v'[0])
    {
      LevelsStaySorted(v, level, [f], [], lo, hi, [f], v', l);
    }
    forall l, m, x, y | 0 <= l < m < |v'| && x in Content(v'[l]) && y in Content(v'[m]) && x.key == y.key
      ensures x.sn > y.sn
    {
      MovedOrder(v, level, p, v', l, m, x, y);
    }
  }

  /** A file of the new version, and the level of the old version that holds it. */
  lemma FormerLevel(v: Version, level: nat, f: File, v': Version, l: nat, g: File) returns (l': nat)
    requires level + 1 < |v| && f in v[level]
    requires Installed(v, level, [f], [], [f], v')
    requires l < |v'| && g in v'[l]
    ensures l' < |v| && g in v[l']
    ensures l' == l || (l == level + 1 && l' == level && g == f)
    ensures l == level ==> g != f
  {
    l' := if l == level + 1 && g !in v[level + 1] then level else l;
    if l == level + 1 && g !in v[level + 1] {
      assert g in [f];
    }
    if l == level { assert f in [f]; }
  }

  /** A file that the code moves: nothing of the next level meets it, and on level 0 it was picked without others. */
  ghost predicate PickedAlone(v: Version, level: nat, p: nat)
    requires ValidVersion(v)
  {
    && level + 1 < kNumLevels && p < |v[level]|
    && (forall g :: g in v[level + 1] && |g.entries| > 0 ==> !UserOverlap(v[level][p], g))
    && (level == 0 ==> NoSharedKeys(Content([v[0][p]]), RestContent(v[0], [v[0][p]])))
  }

  /** On a level above 0, the next file does not continue the file's last user key. */
  ghost predicate LastKeyEnds(v: Version, level: nat, p: nat)
    requires ValidVersion(v) && level < kNumLevels && p < |v[level]|
  {
    level > 0 && p + 1 < |v[level]| ==> Largest(v[level][p]).user != Smallest(v[level][p + 1]).user
  }

  /** A single selected file that has nothing to be merged with. */
  lemma SingleIsPickedAlone(v: Version, level: nat, in0: Level, lo: UserKey, hi: UserKey) returns (p: nat)
    requires ValidVersion(v) && level + 1 < kNumLevels && Selected(v, level, in0) && ValidInputs(v, level, in0, [], lo, hi)
    requires |in0| == 1
    ensures p < |v[level]| && in0 == [v[level][p]] && PickedAlone(v, level, p)
  {
    assert in0[0] in in0;
    p :| 0 <= p < |v[level]| && v[level][p] == in0[0];
    assert in0 == [v[level][p]];
  }

  /** Such a move keeps the version valid then, and keeps every entry. */
  lemma MoveIsSafe(v: Version, level: nat, p: nat, v': Version)
    requires ValidVersion(v) && UniqueSequences(Contents(v)) && PickedAlone(v, level, p) && LastKeyEnds(v, level, p)
    requires Installed(v, level, [v[level][p]], [], [v[level][p]], v') && WellListed(v', level)
    ensures ValidVersion(v') && Contents(v') == Contents(v)
  {
    var f := v[level][p];
    if level == 0 {
      AloneOnTop(v[0], p);
    } else {
      MovedIsOlder(v, level, p);
    }
    hide ValidVersion, Newer, UniqueSequences, Installed;
    MoveKeepsValid(v, level, p, v');
    MoveKeepsContents(v, level, f, v');
  }

  lemma MoveKeepsContents(v: Version, level: nat, f: File, v': Version)
    requires level + 1 < |v| && f in v[level] && Installed(v, level, [f], [], [f], v')
    ensures Contents(v') == Contents(v)
  {
    hide Contents, Installed;
    forall e ensures e in Contents(v') <==> e in Contents(v) { MovedContents(v, level, f, v', e); }
  }

  lemma AloneOnTop(files: Level, p: nat)
    requires p < |files| && NoSharedKeys(Content([files[p]]), RestContent(files, [files[p]]))
    ensures Newer(RestContent(files, [files[p]]), Elements(files[p].entries))
  {
    var f := files[p];
    assert f in [f];
    forall y | y in Elements(f.entries) ensures y in Content([f]) {
    }
  }

  lemma StaysPut(v: Version, level: nat, f: File, v': Version, l: nat, g: File)
    requires Installed(v, level, [f], [], [f], v') && l < |v| && g in v[l] && (l != level || g != f)
    ensures g in v'[l]
  {
    if l == level {
      assert g !in [f];
    } else if l == level + 1 {
      assert g !in [];
    } else {
      assert v'[l] == v[l];
    }
  }

  lemma MovedContents(v: Version, level: nat, f: File, v': Version, e: Entry)
    requires level + 1 < |v| && f in v[level] && Installed(v, level, [f], [], [f], v')
    ensures e in Contents(v') <==> e in Contents(v)
  {
    if e in Contents(v') {
      var files, g :| files in v' && g in files && e in g.entries;
      var l :| 0 <= l < |v'| && v'[l] == files;
      var m := FormerLevel(v, level, f, v', l, g);
      assert v[m] in v;
    }
    if e in Contents(v) {
      var files, g :| files in v && g in files && e in g.entries;
      var l :| 0 <= l < |v| && v[l] == files;
      assert f in [f];
      if l == level && g == f {
        assert f in v'[level + 1] && v'[level + 1] in v';
      } else {
        StaysPut(v, level, f, v', l, g);
        assert v'[l] in v';
      }
    }
  }

  lemma MovedOrder(v: Version, level: nat, p: nat, v': Version, l: nat, m: nat, x: Entry, y: Entry)
    requires ShallowerIsNewer(v) && level + 1 < |v| && p < |v[level]|
    requires Installed(v, level, [v[level][p]], [], [v[level][p]], v')
    requires Newer(RestContent(v[level], [v[level][p]]), Elements(v[level][p].entries))
    requires l < m < |v'| && x in Content(v'[l]) && y in Content(v'[m]) && x.key == y.key
    ensures x.sn > y.sn
  {
    var f := v[level][p];
    var fx :| fx in v'[l] && x in fx.entries;
    var fy :| fy in v'[m] && y in fy.entries;
    var lx := FormerLevel(v, level, f, v', l, fx);
    var ly := FormerLevel(v, level, f, v', m, fy);
    assert x in Content(v[lx]) && y in Content(v[ly]);
    if lx < ly {
      assert Newer(Content(v[lx]), Content(v[ly]));
    } else {
      assert x in RestContent(v[level], [f]) && y in Elements(f.entries);
    }
  }
}
