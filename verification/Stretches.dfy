/**
 Files that stand side by side on a sorted level: what one range of user keys
 selects, one file, and the first of either.
 */
module Stretches {
  import opened Basics
  import opened Keys
  import opened Versions
  import opened Overlaps

  /** The inputs are the files of their level from number a up to number b. */
  ghost predicate Stretch(files: Level, inputs: Level, a: nat, b: nat) {
    && a < b <= |files|
    && (forall f :: f in inputs ==> f in files)
    && forall j :: 0 <= j < |files| ==> (files[j] in inputs <==> a <= j < b)
  }

  /** The files stand side by side. */
  ghost predicate Together(files: Level, inputs: Level) { exists a: nat, b: nat :: Stretch(files, inputs, a, b) }

  lemma OrderAcross(files: Level, p: nat, q: nat, x: Entry, y: Entry)
    requires ValidFiles(files) && SortedFiles(files) && p < q < |files|
    requires x in files[p].entries && y in files[q].entries
    ensures Before(x, y)
  {
    WithinFile(files[p], x);
    WithinFile(files[q], y);
    assert Less(Largest(files[p]), Smallest(files[q]));
  }

  // ---------------------------------------------------------------------------
  // One file, and the files that meet a range
  // ---------------------------------------------------------------------------

  lemma SliceIsStretch(files: Level, a: nat, b: nat)
    requires ValidFiles(files) && SortedFiles(files) && a < b <= |files|
    ensures Stretch(files, files[a..b], a, b)
  {
    forall j | 0 <= j < |files| ensures files[j] in files[a..b] <==> a <= j < b {
      if files[j] in files[a..b] {
        var i :| 0 <= i < b - a && files[a..b][i] == files[j];
        OneIndex(files, a + i, j);
      }
    }
  }

  /** A file stands at one place of a sorted level. */
  lemma OneIndex(files: Level, i: nat, j: nat)
    requires ValidFiles(files) && SortedFiles(files) && i < |files| && j < |files| && files[i] == files[j]
    ensures i == j
  {
    var x := files[i].entries[0];
    if i < j { OrderAcross(files, i, j, x, x); }
    if j < i { OrderAcross(files, j, i, x, x); }
  }

  lemma OneFileIsStretch(files: Level, p: nat)
    requires ValidFiles(files) && SortedFiles(files) && p < |files|
    ensures Together(files, [files[p]])
  {
    SliceIsStretch(files, p, p + 1);
    assert files[p..p + 1] == [files[p]];
  }

  /** The inputs are the files that meet a range of user keys. */
  ghost predicate Meeting(files: Level, inputs: Level, lo: Bound, hi: Bound) {
    forall f :: f in files && |f.entries| > 0 ==> (f in inputs <==> Touches(f, lo, hi))
  }

  lemma StretchBelow(files: Level, inputs: Level, lo: Bound, hi: Bound, m: nat) returns (a: nat)
    requires ValidFiles(files) && SortedFiles(files) && Meeting(files, inputs, lo, hi) && m < |files| && files[m] in inputs
    ensures a <= m && forall j :: 0 <= j <= m ==> (files[j] in inputs <==> a <= j)
  {
    hide Meeting, ValidFiles, SortedFiles;
    a := m;
    while a > 0 && files[a - 1] in inputs
      invariant a <= m && forall j :: a <= j <= m ==> files[j] in inputs
    {
      a := a - 1;
    }
    forall j | 0 <= j < a ensures files[j] !in inputs {
      MeetsBetween(files, inputs, lo, hi, j, a - 1, m);
    }
  }

  lemma StretchAbove(files: Level, inputs: Level, lo: Bound, hi: Bound, m: nat) returns (b: nat)
    requires ValidFiles(files) && SortedFiles(files) && Meeting(files, inputs, lo, hi) && m < |files| && files[m] in inputs
    ensures m < b <= |files| && forall j :: m <= j < |files| ==> (files[j] in inputs <==> j < b)
  {
    hide Meeting, ValidFiles, SortedFiles;
    b := m + 1;
    while b < |files| && files[b] in inputs
      invariant m < b <= |files| && forall j :: m <= j < b ==> files[j] in inputs
    {
      b := b + 1;
    }
    forall j | b <= j < |files| ensures files[j] !in inputs {
      MeetsAfter(files, inputs, lo, hi, m, b, j);
    }
  }

  /** The files of a sorted level that meet a range of user keys. */
  lemma MeetingFilesAreStretch(files: Level, inputs: Level, lo: Bound, hi: Bound) returns (a: nat, b: nat)
    requires ValidFiles(files) && SortedFiles(files) && inputs != []
    requires (forall f :: f in inputs ==> f in files) && Meeting(files, inputs, lo, hi)
    ensures Stretch(files, inputs, a, b)
  {
    var f := inputs[0];
    assert f in inputs;
    var m :| 0 <= m < |files| && files[m] == f;
    hide Meeting, ValidFiles, SortedFiles;
    a := StretchBelow(files, inputs, lo, hi, m);
    b := StretchAbove(files, inputs, lo, hi, m);
  }

  lemma MeetsBetween(files: Level, inputs: Level, lo: Bound, hi: Bound, j: nat, i: nat, m: nat)
    requires ValidFiles(files) && SortedFiles(files) && j <= i < m < |files|
    requires Meeting(files, inputs, lo, hi) && files[m] in inputs && files[i] !in inputs
    ensures files[j] !in inputs
  {
    var x, y := files[i].entries[0], files[m].entries[0];
    OrderAcross(files, i, m, x, y);
    if j < i { OrderAcross(files, j, i, files[j].entries[|files[j].entries| - 1], files[i].entries[|files[i].entries| - 1]); }
  }

  lemma MeetsAfter(files: Level, inputs: Level, lo: Bound, hi: Bound, m: nat, i: nat, j: nat)
    requires ValidFiles(files) && SortedFiles(files) && m < i <= j < |files|
    requires Meeting(files, inputs, lo, hi) && files[m] in inputs && files[i] !in inputs
    ensures files[j] !in inputs
  {
    OrderAcross(files, m, i, files[m].entries[|files[m].entries| - 1], files[i].entries[|files[i].entries| - 1]);
    if i < j { OrderAcross(files, i, j, files[i].entries[0], files[j].entries[0]); }
  }

  // ---------------------------------------------------------------------------
  // The first files of a stretch
  // ---------------------------------------------------------------------------

  lemma NothingOverlaps(lo: Bound, hi: Bound)
    ensures ValidFiles([]) && Overlapping([], lo, hi) == []
  {
  }

  lemma LastOverlaps(files: Level, lo: Bound, hi: Bound)
    requires ValidFiles(files) && files != []
    ensures var n := |files| - 1;
            && ValidFiles(files[..n]) && |files[n].entries| > 0
            && Overlapping(files, lo, hi) == Overlapping(files[..n], lo, hi) + if Touches(files[n], lo, hi) then [files[n]] else []
  {
    hide Touches;
  }

  /** What a range selects, as a list: the files of the stretch in order. */
  lemma {:induction false} OverlappingSlice(files: Level, lo: Bound, hi: Bound, a: nat, b: nat)
    requires ValidFiles(files) && a <= b <= |files|
    requires forall j :: 0 <= j < |files| ==> (Touches(files[j], lo, hi) <==> a <= j < b)
    ensures Overlapping(files, lo, hi) == files[a..b]
  {
    hide *;
    if files == [] {
      NothingOverlaps(lo, hi);
    } else {
      var n := |files| - 1;
      LastOverlaps(files, lo, hi);
      if b <= n {
        OverlappingSlice(files[..n], lo, hi, a, b);
        assert files[..n][a..b] == files[a..b];
      } else if a < b {
        OverlappingSlice(files[..n], lo, hi, a, n);
        assert files[..n][a..n] + [files[n]] == files[a..b];
      } else {
        OverlappingSlice(files[..n], lo, hi, n, n);
      }
    }
  }

  /** The first few files that a range selects stand side by side. */
  lemma FirstOfRangeIsStretch(files: Level, lo: Bound, hi: Bound, n: nat)
    requires ValidFiles(files) && SortedFiles(files) && 0 < n <= |Overlapping(files, lo, hi)|
    ensures Together(files, Overlapping(files, lo, hi)[..n])
  {
    hide *;
    var r := Overlapping(files, lo, hi);
    RangeMeets(files, lo, hi);
    var a, b := MeetingFilesAreStretch(files, r, lo, hi);
    StretchTouches(files, r, lo, hi, a, b);
    OverlappingSlice(files, lo, hi, a, b);
    assert files[a..b][..n] == files[a..a + n];
    SliceIsStretch(files, a, a + n);
    IsTogether(files, r[..n], a, a + n);
  }

  lemma RangeMeets(files: Level, lo: Bound, hi: Bound)
    requires ValidFiles(files)
    ensures var r := Overlapping(files, lo, hi);
            Meeting(files, r, lo, hi) && forall f :: f in r ==> f in files
  {
    OverlappingMembers(files, lo, hi);
    hide Touches, Overlapping;
  }

  lemma StretchTouches(files: Level, inputs: Level, lo: Bound, hi: Bound, a: nat, b: nat)
    requires ValidFiles(files) && Stretch(files, inputs, a, b) && Meeting(files, inputs, lo, hi)
    ensures a < b <= |files|
    ensures forall j :: 0 <= j < |files| ==> |files[j].entries| > 0 && (Touches(files[j], lo, hi) <==> a <= j < b)
  {
    hide Touches;
  }

  lemma IsTogether(files: Level, inputs: Level, a: nat, b: nat)
    requires Stretch(files, inputs, a, b)
    ensures Together(files, inputs)
  {
  }
}
