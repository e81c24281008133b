/**
 Which files of a level meet a range of user keys: the overlap test used when a
 memtable is flushed, and the input selection of compactions.
 */
module Overlaps {
  import opened Basics
  import opened Keys
  import opened Versions

  /** A bound on user keys; None is the null pointer, which bounds nothing. */
  type Bound = Option<UserKey>

  predicate AfterFile(k: Bound, f: File)
    requires |f.entries| > 0
  {
    k.Some? && k.value > Largest(f).user
  }

  predicate BeforeFile(k: Bound, f: File)
    requires |f.entries| > 0
  {
    k.Some? && k.value < Smallest(f).user
  }

  /** The user-key range of f meets [lo, hi]. */
  predicate Touches(f: File, lo: Bound, hi: Bound)
    requires |f.entries| > 0
  {
    !AfterFile(lo, f) && !BeforeFile(hi, f)
  }

  /** SomeFileOverlapsRange: a scan for level 0, a binary search elsewhere. */
  method SomeFileOverlapsRange(disjointSorted: bool, files: Level, lo: Bound, hi: Bound) returns (r: bool)
    requires ValidFiles(files) && (disjointSorted ==> SortedFiles(files))
    ensures r <==> exists i :: 0 <= i < |files| && Touches(files[i], lo, hi)
  {
    if !disjointSorted {
      for i := 0 to |files|
        invariant forall j :: 0 <= j < i ==> !Touches(files[j], lo, hi)
      {
        if !(AfterFile(lo, files[i]) || BeforeFile(hi, files[i])) {
          return true;
        }
      }
      return false;
    }
    var index := 0;
    if lo.Some? {
      index := FindFile(files, SeekKey(lo.value, kMaxSequenceNumber));
    }
    forall i | 0 <= i < |files| ensures i < index <==> AfterFile(lo, files[i]) {
      var last := files[i].entries[|files[i].entries| - 1];
      if lo.Some? { SeekKeyMeaning(last, lo.value, kMaxSequenceNumber); }
    }
    if index >= |files| {
      return false;
    }
    forall i | index <= i < |files| && BeforeFile(hi, files[index]) ensures BeforeFile(hi, files[i]) {
      if index < i { SmallestUserIncreases(files, index, i); }
    }
    return !BeforeFile(hi, files[index]);
  }

  lemma SmallestUserIncreases(files: Level, i: nat, j: nat)
    requires ValidFiles(files) && SortedFiles(files) && i < j < |files|
    ensures Smallest(files[i]).user <= Largest(files[i]).user <= Smallest(files[j]).user
  {
    WithinFile(files[i], files[i].entries[0]);
  }

  // ---------------------------------------------------------------------------
  // GetOverlappingInputs
  // ---------------------------------------------------------------------------

  /** The files that meet [lo, hi], in order. */
  ghost function Overlapping(files: Level, lo: Bound, hi: Bound): Level
    requires ValidFiles(files)
  {
    if files == [] then []
    else
      var n := |files| - 1;
      var rest := Overlapping(files[..n], lo, hi);
      if Touches(files[n], lo, hi) then rest + [files[n]] else rest
  }

  lemma {:induction false} OverlappingMembers(files: Level, lo: Bound, hi: Bound)
    requires ValidFiles(files)
    ensures forall f :: f in Overlapping(files, lo, hi) <==> f in files && |f.entries| > 0 && Touches(f, lo, hi)
  {
    if files != [] {
      var n := |files| - 1;
      OverlappingMembers(files[..n], lo, hi);
      assert files == files[..n] + [files[n]];
    }
  }

  /** f reaches neither below lo nor above hi. */
  predicate Within(f: File, lo: Bound, hi: Bound)
    requires |f.entries| > 0
  {
    (lo.Some? ==> lo.value <= Smallest(f).user) && (hi.Some? ==> Largest(f).user <= hi.value)
  }

  predicate UserOverlap(f: File, g: File)
    requires |f.entries| > 0 && |g.entries| > 0
  {
    Smallest(f).user <= Largest(g).user && Smallest(g).user <= Largest(f).user
  }

  /** A chain of overlapping files that starts at a file meeting the range. */
  ghost predicate Chain(files: Level, lo: Bound, hi: Bound, path: seq<File>)
    requires ValidFiles(files)
    decreases |path|
  {
    var n := |path| - 1;
    && n >= 0
    && path[n] in files
    && if n == 0 then Touches(path[0], lo, hi)
       else Chain(files, lo, hi, path[..n]) && UserOverlap(path[n - 1], path[n])
  }

  ghost predicate Reachable(files: Level, lo: Bound, hi: Bound, f: File)
    requires ValidFiles(files)
  {
    exists path :: Chain(files, lo, hi, path) && path[|path| - 1] == f
  }

  lemma ReachableFirst(files: Level, lo: Bound, hi: Bound, f: File)
    requires ValidFiles(files) && f in files && Touches(f, lo, hi)
    ensures Reachable(files, lo, hi, f)
  {
    assert Chain(files, lo, hi, [f]);
  }

  lemma ReachableNext(files: Level, lo: Bound, hi: Bound, f: File, g: File)
    requires ValidFiles(files) && f in files && Reachable(files, lo, hi, f)
    requires g in files && UserOverlap(f, g)
    ensures Reachable(files, lo, hi, g)
  {
    var path :| Chain(files, lo, hi, path) && path[|path| - 1] == f;
    assert (path + [g])[..|path|] == path;
    assert Chain(files, lo, hi, path + [g]);
  }

  /** [lo, hi] grown from [lo0, hi0] by files reachable from it. */
  ghost predicate Grown(files: Level, lo0: Bound, hi0: Bound, lo: Bound, hi: Bound)
    requires ValidFiles(files)
  {
    && (lo0.Some? <==> lo.Some?) && (hi0.Some? <==> hi.Some?)
    && (lo.Some? ==> lo.value <= lo0.value) && (hi.Some? ==> hi0.value <= hi.value)
    && forall f :: f in files && |f.entries| > 0 && Touches(f, lo, hi) ==> Reachable(files, lo0, hi0, f)
  }

  /** Growing the range to take in one more file that meets it only brings in files that overlap that file. */
  lemma GrowByFile(files: Level, lo0: Bound, hi0: Bound, lo: Bound, hi: Bound, f: File, lo': Bound, hi': Bound)
    requires ValidFiles(files) && Grown(files, lo0, hi0, lo, hi)
    requires f in files && |f.entries| > 0 && Touches(f, lo, hi)
    requires (lo' == Some(Smallest(f).user) && hi' == hi && lo.Some? && Smallest(f).user < lo.value)
          || (lo' == lo && hi' == Some(Largest(f).user) && hi.Some? && hi.value < Largest(f).user)
    ensures Grown(files, lo0, hi0, lo', hi')
  {
    forall g | g in files && |g.entries| > 0 && Touches(g, lo', hi') ensures Reachable(files, lo0, hi0, g) {
      if !Touches(g, lo, hi) {
        var i :| 0 <= i < |files| && files[i] == f;
        var j :| 0 <= j < |files| && files[j] == g;
        WithinFile(f, f.entries[0]);
        WithinFile(g, g.entries[0]);
        ReachableNext(files, lo0, hi0, f, g);
      }
    }
  }

  /** Files left to extend the range: the measure of the restarts. */
  ghost function Sticking(files: Level, lo: Bound, hi: Bound): set<(bool, nat)>
    requires ValidFiles(files)
  {
    (set j | 0 <= j < |files| && lo.Some? && Smallest(files[j]).user < lo.value :: (false, j)) +
    (set j | 0 <= j < |files| && hi.Some? && Largest(files[j]).user > hi.value :: (true, j))
  }

  ghost predicate AllWithin(inputs: Level, lo: Bound, hi: Bound) {
    forall i :: 0 <= i < |inputs| ==> |inputs[i].entries| > 0 && Within(inputs[i], lo, hi)
  }

  /** What the search has established when it stands before files[i]. */
  ghost predicate Searching(level: nat, files: Level, begin: Bound, end: Bound,
                            lo: Bound, hi: Bound, i: nat, inputs: Level)
    requires ValidFiles(files)
  {
    && i <= |files|
    && inputs == Overlapping(files[..i], lo, hi)
    && (level > 0 ==> lo == begin && hi == end)
    && (level == 0 ==> Grown(files, begin, end, lo, hi) && AllWithin(inputs, lo, hi))
  }

  lemma SearchingStart(level: nat, files: Level, begin: Bound, end: Bound)
    requires ValidFiles(files)
    ensures Searching(level, files, begin, end, begin, end, 0, [])
  {
    forall f | f in files && |f.entries| > 0 && Touches(f, begin, end) ensures Reachable(files, begin, end, f) {
      ReachableFirst(files, begin, end, f);
    }
  }

  lemma SearchingStep(level: nat, files: Level, begin: Bound, end: Bound, lo: Bound, hi: Bound, i: nat, inputs: Level)
    requires ValidFiles(files) && Searching(level, files, begin, end, lo, hi, i, inputs)
    requires i < |files|
    ensures !Touches(files[i], lo, hi) ==> Searching(level, files, begin, end, lo, hi, i + 1, inputs)
    ensures Touches(files[i], lo, hi) && (level == 0 ==> Within(files[i], lo, hi)) ==>
              Searching(level, files, begin, end, lo, hi, i + 1, inputs + [files[i]])
  {
    assert files[..i + 1][..i] == files[..i];
  }

  lemma SearchingRestart(files: Level, begin: Bound, end: Bound, lo: Bound, hi: Bound, i: nat, inputs: Level,
                         lo': Bound, hi': Bound, side: bool)
    requires ValidFiles(files) && Searching(0, files, begin, end, lo, hi, i, inputs)
    requires i < |files| && Touches(files[i], lo, hi)
    requires !side ==> lo' == Some(Smallest(files[i]).user) && hi' == hi && lo.Some? && Smallest(files[i]).user < lo.value
    requires side ==> lo' == lo && hi' == Some(Largest(files[i]).user) && hi.Some? && hi.value < Largest(files[i]).user
    ensures Searching(0, files, begin, end, lo', hi', 0, [])
    ensures Sticking(files, lo', hi') < Sticking(files, lo, hi)
  {
    GrowByFile(files, begin, end, lo, hi, files[i], lo', hi');
    StickingShrinks(files, lo, hi, lo', hi', (side, i));
  }

  /** GetOverlappingInputs: on level 0 a file that sticks out of the range restarts the search.
      lo and hi give the range that the search ended with. */
  method GetOverlappingInputs(level: nat, files: Level, begin: Bound, end: Bound)
    returns (inputs: Level, ghost lo: Bound, ghost hi: Bound)
    requires ValidFiles(files)
    ensures inputs == Overlapping(files, lo, hi)
    ensures level > 0 ==> lo == begin && hi == end
    ensures level == 0 ==> Grown(files, begin, end, lo, hi) && AllWithin(inputs, lo, hi)
    ensures level > 0 ==> forall f :: f in inputs <==> f in files && |f.entries| > 0 && Touches(f, begin, end)
    ensures level == 0 ==> forall f :: f in files ==> (f in inputs <==> Reachable(files, begin, end, f))
  {
    inputs := [];
    var userBegin, userEnd := begin, end;
    var i := 0;
    SearchingStart(level, files, begin, end);
    while i < |files|
      invariant Searching(level, files, begin, end, userBegin, userEnd, i, inputs)
      decreases Sticking(files, userBegin, userEnd), |files| - i
    {
      var f := files[i];
      SearchingStep(level, files, begin, end, userBegin, userEnd, i, inputs);
      if userBegin.Some? && Largest(f).user < userBegin.value {
        i := i + 1;
      } else if userEnd.Some? && Smallest(f).user > userEnd.value {
        i := i + 1;
      } else if level == 0 && userBegin.Some? && Smallest(f).user < userBegin.value {
        SearchingRestart(files, begin, end, userBegin, userEnd, i, inputs, Some(Smallest(f).user), userEnd, false);
        userBegin := Some(Smallest(f).user);
        inputs, i := [], 0;
      } else if level == 0 && userEnd.Some? && Largest(f).user > userEnd.value {
        SearchingRestart(files, begin, end, userBegin, userEnd, i, inputs, userBegin, Some(Largest(f).user), true);
        userEnd := Some(Largest(f).user);
        inputs, i := [], 0;
      } else {
        inputs := inputs + [f];
        i := i + 1;
      }
    }
    assert files[..i] == files;
    lo, hi := userBegin, userEnd;
    OverlappingMembers(files, lo, hi);
    if level == 0 { AllReachable(files, begin, end, lo, hi); }
  }

  lemma AllReachable(files: Level, begin: Bound, end: Bound, lo: Bound, hi: Bound)
    requires ValidFiles(files) && Grown(files, begin, end, lo, hi)
    requires AllWithin(Overlapping(files, lo, hi), lo, hi)
    ensures forall f :: f in files ==> (f in Overlapping(files, lo, hi) <==> Reachable(files, begin, end, f))
  {
    hide Overlapping, Reachable, Grown, AllWithin;
    forall f | f in files ensures f in Overlapping(files, lo, hi) <==> Reachable(files, begin, end, f) {
      InputsAreReachable(files, begin, end, lo, hi, f);
    }
  }

  lemma StickingShrinks(files: Level, lo: Bound, hi: Bound, lo': Bound, hi': Bound, gone: (bool, nat))
    requires ValidFiles(files)
    requires lo.Some? <==> lo'.Some?
    requires hi.Some? <==> hi'.Some?
    requires lo.Some? ==> lo'.value <= lo.value
    requires hi.Some? ==> hi.value <= hi'.value
    requires gone in Sticking(files, lo, hi) && gone !in Sticking(files, lo', hi')
    ensures Sticking(files, lo', hi') < Sticking(files, lo, hi)
  {
  }

  /** On level 0 the inputs are exactly the files reachable from the requested range by chains of overlap. */
  lemma InputsAreReachable(files: Level, begin: Bound, end: Bound, lo: Bound, hi: Bound, f: File)
    requires ValidFiles(files) && Grown(files, begin, end, lo, hi)
    requires AllWithin(Overlapping(files, lo, hi), lo, hi)
    requires f in files
    ensures Reachable(files, begin, end, f) <==> f in Overlapping(files, lo, hi)
  {
    OverlappingMembers(files, lo, hi);
    if Reachable(files, begin, end, f) {
      var path :| Chain(files, begin, end, path) && path[|path| - 1] == f;
      ChainStaysInside(files, begin, end, lo, hi, path);
    }
  }

  lemma {:induction false} ChainStaysInside(files: Level, begin: Bound, end: Bound, lo: Bound, hi: Bound, path: seq<File>)
    requires ValidFiles(files) && Grown(files, begin, end, lo, hi)
    requires AllWithin(Overlapping(files, lo, hi), lo, hi)
    requires Chain(files, begin, end, path)
    ensures path[|path| - 1] in Overlapping(files, lo, hi)
  {
    hide Chain, Overlapping, Grown, AllWithin, ValidFile, Touches, UserOverlap;
    var n := |path| - 1;
    ChainEnds(files, begin, end, path);
    if n == 0 {
      StartsInside(files, begin, end, lo, hi, path[0]);
    } else {
      ChainStaysInside(files, begin, end, lo, hi, path[..n]);
      NextInside(files, lo, hi, path[n - 1], path[n]);
    }
  }

  /** The end of a chain: where it starts, or a file that overlaps the one before. */
  lemma ChainEnds(files: Level, begin: Bound, end: Bound, path: seq<File>)
    requires ValidFiles(files) && Chain(files, begin, end, path)
    ensures var n := |path| - 1;
            && n >= 0 && path[n] in files && |path[n].entries| > 0
            && if n == 0 then Touches(path[0], begin, end)
               else Chain(files, begin, end, path[..n]) && path[n - 1] in files && |path[n - 1].entries| > 0 && UserOverlap(path[n - 1], path[n])
  {
    var n := |path| - 1;
    if n > 0 { assert path[..n][|path[..n]| - 1] == path[n - 1]; }
    hide Touches, UserOverlap;
  }

  lemma StartsInside(files: Level, begin: Bound, end: Bound, lo: Bound, hi: Bound, f: File)
    requires ValidFiles(files) && Grown(files, begin, end, lo, hi)
    requires f in files && |f.entries| > 0 && Touches(f, begin, end)
    ensures f in Overlapping(files, lo, hi)
  {
    OverlappingMembers(files, lo, hi);
    hide Overlapping;
  }

  lemma NextInside(files: Level, lo: Bound, hi: Bound, f: File, g: File)
    requires ValidFiles(files) && AllWithin(Overlapping(files, lo, hi), lo, hi)
    requires f in Overlapping(files, lo, hi) && g in files && |f.entries| > 0 && |g.entries| > 0 && UserOverlap(f, g)
    ensures g in Overlapping(files, lo, hi)
  {
    OverlappingMembers(files, lo, hi);
    var inputs := Overlapping(files, lo, hi);
    hide Overlapping;
    var i :| 0 <= i < |inputs| && inputs[i] == f;
    assert Within(f, lo, hi);
  }

  /** So no file left out shares a user key with the inputs. */
  lemma LeftOutSharesNothing(files: Level, lo: Bound, hi: Bound, f: File, g: File)
    requires ValidFiles(files)
    requires AllWithin(Overlapping(files, lo, hi), lo, hi)
    requires f in Overlapping(files, lo, hi) && g in files && g !in Overlapping(files, lo, hi)
    ensures forall x, y :: x in f.entries && y in g.entries ==> x.key != y.key
  {
    OverlappingMembers(files, lo, hi);
    var i :| 0 <= i < |Overlapping(files, lo, hi)| && Overlapping(files, lo, hi)[i] == f;
    var m :| 0 <= m < |files| && files[m] == f;
    var j :| 0 <= j < |files| && files[j] == g;
    forall x, y | x in f.entries && y in g.entries ensures x.key != y.key {
      WithinFile(f, x);
      WithinFile(g, y);
    }
  }

  // ---------------------------------------------------------------------------
  // PickLevelForMemTableOutput
  // ---------------------------------------------------------------------------

  function TotalFileSize(files: Level): nat {
    if files == [] then 0 else files[0].size + TotalFileSize(files[1..])
  }

  ghost predicate NoOverlap(files: Level, lo: UserKey, hi: UserKey)
    requires ValidFiles(files)
  {
    forall i :: 0 <= i < |files| ==> !Touches(files[i], Some(lo), Some(hi))
  }

  /** A flushed memtable may skip levels, but only levels it does not overlap. */
  method PickLevelForMemTableOutput(v: Version, lo: UserKey, hi: UserKey) returns (level: nat)
    requires ValidVersion(v)
    ensures level <= kMaxMemCompactLevel
    ensures level > 0 ==> forall l :: 0 <= l <= level ==> NoOverlap(v[l], lo, hi)
  {
    hide Touches, Reachable, Grown, AllWithin, Overlapping, TotalFileSize, NewestByNumber, ShallowerIsNewer, OrderedFiles;
    level := 0;
    var overlap := SomeFileOverlapsRange(false, v[0], Some(lo), Some(hi));
    if !overlap {
      while level < kMaxMemCompactLevel
        invariant level <= kMaxMemCompactLevel
        invariant forall l :: 0 <= l <= level ==> NoOverlap(v[l], lo, hi)
      {
        overlap := SomeFileOverlapsRange(true, v[level + 1], Some(lo), Some(hi));
        if overlap { break; }
        if level + 2 < kNumLevels {
          var overlaps, _, _ := GetOverlappingInputs(level + 2, v[level + 2], Some(lo), Some(hi));
          if TotalFileSize(overlaps) > kMaxGrandParentOverlapBytes { break; }
        }
        level := level + 1;
      }
    }
  }
}
