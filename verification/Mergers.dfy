/**
 The merging iterator: a cursor over several sorted runs that behaves like one
 cursor over the merged run, in both directions.
 */
module Mergers {
  import opened Basics
  import opened Keys
  import opened Versions

  datatype Direction = Forward | Reverse

  /** The merged run: all entries of the runs, each in exactly one of them, in order. */
  ghost predicate MergeOf(all: seq<Entry>, runs: seq<seq<Entry>>) {
    && SortedEntries(all)
    && (forall i :: 0 <= i < |runs| ==> SortedEntries(runs[i]))
    && (forall i, e :: 0 <= i < |runs| && e in runs[i] ==> e in all)
    && (forall e :: e in all ==> exists i :: 0 <= i < |runs| && e in runs[i])
    && forall i, j, e :: 0 <= i < j < |runs| && e in runs[i] ==> e !in runs[j]
  }

  /** How many entries of the run come before position q of the merged run. */
  ghost function Cut(run: seq<Entry>, all: seq<Entry>, q: nat): (n: nat)
    ensures n <= |run|
  {
    if q < |all| then LowerBound(run, IKey(all[q])) else |run|
  }

  lemma CutIsSought(all: seq<Entry>, q: nat)
    requires q < |all|
    ensures forall run :: Cut(run, all, q) == LowerBound(run, IKey(all[q]))
  {
  }

  /** The last entry of the run before position q; a cursor that runs off the front is invalid. */
  ghost function Back(run: seq<Entry>, all: seq<Entry>, q: nat): (n: nat)
    ensures n <= |run|
  {
    var n := Cut(run, all, q);
    if n == 0 then |run| else n - 1
  }

  /** An entry of the run lies before the cut exactly when its place in the merged run does. */
  lemma CutMeaning(run: seq<Entry>, all: seq<Entry>, q: nat, i: nat, p: nat)
    requires SortedEntries(run) && SortedEntries(all) && i < |run| && p < |all| && all[p] == run[i]
    ensures i < Cut(run, all, q) <==> p < q
  {
    if q < |all| {
      var n := LowerBound(run, IKey(all[q]));
      if n < i { assert Before(run[n], run[i]); }
      if p < q { assert Before(all[p], all[q]); }
      if q < p { assert Before(all[q], all[p]); }
    }
  }

  lemma PlaceOf(all: seq<Entry>, runs: seq<seq<Entry>>, i: nat, k: nat) returns (p: nat)
    requires MergeOf(all, runs) && i < |runs| && k < |runs[i]|
    ensures p < |all| && all[p] == runs[i][k]
  {
    assert runs[i][k] in all;
    p :| 0 <= p < |all| && all[p] == runs[i][k];
  }

  lemma RunOf(all: seq<Entry>, runs: seq<seq<Entry>>, q: nat) returns (i: nat)
    requires MergeOf(all, runs) && q < |all|
    ensures i < |runs| && all[q] in runs[i]
  {
    assert all[q] in all;
    i :| 0 <= i < |runs| && all[q] in runs[i];
  }

  /** Moving the cut over one entry moves the cursor of the run that has it, and no other. */
  lemma CutStep(all: seq<Entry>, runs: seq<seq<Entry>>, i: nat, q: nat)
    requires MergeOf(all, runs) && i < |runs| && q < |all|
    ensures Cut(runs[i], all, q + 1) == Cut(runs[i], all, q) + if all[q] in runs[i] then 1 else 0
    ensures all[q] in runs[i] ==> Cut(runs[i], all, q) < |runs[i]| && runs[i][Cut(runs[i], all, q)] == all[q]
  {
    var run, n, m := runs[i], Cut(runs[i], all, q), Cut(runs[i], all, q + 1);
    if all[q] in run {
      var k :| 0 <= k < |run| && run[k] == all[q];
      CutMeaning(run, all, q, k, q);
      CutMeaning(run, all, q + 1, k, q);
      if k + 1 < m { OthersOutside(all, runs, i, q, m - 1); }
    } else {
      if n < m { OthersOutside(all, runs, i, q, n); }
      if m < n { OthersOutside(all, runs, i, q, m); }
    }
  }

  /** No entry but the one at place q is on different sides of the cuts at q and q + 1. */
  lemma OthersOutside(all: seq<Entry>, runs: seq<seq<Entry>>, i: nat, q: nat, k: nat)
    requires MergeOf(all, runs) && i < |runs| && k < |runs[i]| && q < |all| && runs[i][k] != all[q]
    ensures k < Cut(runs[i], all, q) <==> k < Cut(runs[i], all, q + 1)
  {
    var p := PlaceOf(all, runs, i, k);
    CutMeaning(runs[i], all, q, k, p);
    CutMeaning(runs[i], all, q + 1, k, p);
  }

  lemma CutAtStart(all: seq<Entry>, runs: seq<seq<Entry>>, i: nat)
    requires MergeOf(all, runs) && i < |runs|
    ensures Cut(runs[i], all, 0) == 0
  {
    var n := Cut(runs[i], all, 0);
    if n > 0 {
      var p := PlaceOf(all, runs, i, 0);
      CutMeaning(runs[i], all, 0, 0, p);
    }
  }

  /** Seeking in the run and seeking in the merged run agree. */
  lemma SeekIsCut(all: seq<Entry>, runs: seq<seq<Entry>>, i: nat, t: InternalKey)
    requires MergeOf(all, runs) && i < |runs|
    ensures LowerBound(runs[i], t) == Cut(runs[i], all, LowerBound(all, t))
  {
    var run, q := runs[i], LowerBound(all, t);
    var n, m := LowerBound(run, t), Cut(run, all, q);
    if n != m {
      var k := if n < m then n else m;
      var p := PlaceOf(all, runs, i, k);
      CutMeaning(run, all, q, k, p);
    }
  }

  // ---------------------------------------------------------------------------
  // The iterator
  // ---------------------------------------------------------------------------

  class MergingIterator {
    /** The sorted runs of the children, and where each child stands; the length of the run means not valid. */
    const runs: seq<seq<Entry>>
    const pos: array<nat>
    var current: Option<nat>
    var direction: Direction
    ghost const all: seq<Entry>

    ghost predicate Shaped()
      reads pos
    {
      && MergeOf(all, runs) && pos.Length == |runs|
      && forall i :: 0 <= i < |runs| ==> pos[i] <= |runs[i]|
    }

    ghost predicate AtCut(q: nat)
      requires pos.Length == |runs|
      reads pos
    {
      forall i :: 0 <= i < |runs| ==> pos[i] == Cut(runs[i], all, q)
    }

    ghost predicate AtBack(q: nat)
      requires pos.Length == |runs|
      reads pos
    {
      forall i :: 0 <= i < |runs| ==> pos[i] == Back(runs[i], all, q)
    }

    /** The current child holds the entry at place q of the merged run. */
    ghost predicate Stands(q: nat)
      requires Shaped()
      reads this`current, pos
    {
      if q < |all| then current.Some? && current.value < |runs| && pos[current.value] < |runs[current.value]|
                        && runs[current.value][pos[current.value]] == all[q]
      else current == None && q == |all|
    }

    /** The place in the merged run where this iterator stands; its length means not valid. */
    ghost var place: nat

    ghost predicate Valid()
      reads this`current, this`direction, this`place, pos
    {
      && Shaped() && Stands(place)
      && (place < |all| ==> if direction == Forward then AtCut(place) else AtBack(place + 1))
    }

    constructor (runs: seq<seq<Entry>>, ghost all: seq<Entry>)
      requires MergeOf(all, runs)
      ensures Valid() && this.runs == runs && this.all == all && place == |all| && fresh(pos)
    {
      this.runs, this.all, place := runs, all, |all|;
      current, direction := None, Forward;
      pos := new nat[|runs|](i requires 0 <= i < |runs| => |runs[i]|);
    }

    /** The source's Valid: there is a current child. */
    predicate HasEntry()
      reads this
    {
      current.Some?
    }

    lemma HasEntryMeans()
      requires Valid()
      ensures HasEntry() <==> place < |all|
      ensures SortedEntries(all) && place <= |all|
    {
    }

    method Key() returns (e: Entry)
      requires Valid() && place < |all|
      ensures e == all[place]
    {
      e := runs[current.value][pos[current.value]];
    }

    /** Children are at a cut: the least entry under them is the one at the cut. */
    method FindSmallest(ghost q: nat)
      requires Shaped() && q <= |all| && AtCut(q)
      modifies this`current
      ensures Shaped() && AtCut(q) && Stands(q)
    {
      var smallest: Option<nat> := None;
      for i := 0 to |runs|
        invariant smallest.None? ==> forall j :: 0 <= j < i ==> pos[j] == |runs[j]|
        invariant smallest.Some? ==> smallest.value < i && pos[smallest.value] < |runs[smallest.value]|
        invariant smallest.Some? ==> forall j :: 0 <= j < i && pos[j] < |runs[j]| ==>
                    !Less(IKey(runs[j][pos[j]]), IKey(runs[smallest.value][pos[smallest.value]]))
      {
        if pos[i] < |runs[i]| {
          if smallest.None? {
            smallest := Some(i);
          } else if Less(IKey(runs[i][pos[i]]), IKey(runs[smallest.value][pos[smallest.value]])) {
            smallest := Some(i);
          }
        }
      }
      current := smallest;
      SmallestIsNext(q);
    }

    lemma SmallestIsNext(q: nat)
      requires Shaped() && q <= |all| && AtCut(q)
      requires current.None? ==> forall j :: 0 <= j < |runs| ==> pos[j] == |runs[j]|
      requires current.Some? ==> current.value < |runs| && pos[current.value] < |runs[current.value]|
      requires current.Some? ==> forall j :: 0 <= j < |runs| && pos[j] < |runs[j]| ==>
                 !Less(IKey(runs[j][pos[j]]), IKey(runs[current.value][pos[current.value]]))
      ensures Stands(q)
    {
      if q < |all| {
        var i := RunOf(all, runs, q);
        CutStep(all, runs, i, q);
        assert pos[i] < |runs[i]| && runs[i][pos[i]] == all[q];
        var p := PlaceOf(all, runs, current.value, pos[current.value]);
        CutMeaning(runs[current.value], all, q, pos[current.value], p);
      }
    }

    /** Children are behind a cut: the largest entry under them is the one before the cut. */
    method FindLargest(ghost q: nat)
      requires Shaped() && q <= |all| && AtBack(q)
      modifies this`current
      ensures Shaped() && AtBack(q) && Stands(if q == 0 then |all| else q - 1)
    {
      var largest: Option<nat> := None;
      for i := |runs| downto 0
        invariant largest.None? ==> forall j :: i <= j < |runs| ==> pos[j] == |runs[j]|
        invariant largest.Some? ==> i <= largest.value < |runs| && pos[largest.value] < |runs[largest.value]|
        invariant largest.Some? ==> forall j :: i <= j < |runs| && pos[j] < |runs[j]| ==>
                    !Less(IKey(runs[largest.value][pos[largest.value]]), IKey(runs[j][pos[j]]))
      {
        if pos[i] < |runs[i]| {
          if largest.None? {
            largest := Some(i);
          } else if Less(IKey(runs[largest.value][pos[largest.value]]), IKey(runs[i][pos[i]])) {
            largest := Some(i);
          }
        }
      }
      current := largest;
      LargestIsPrevious(q);
    }

    lemma LargestIsPrevious(q: nat)
      requires Shaped() && q <= |all| && AtBack(q)
      requires current.None? ==> forall j :: 0 <= j < |runs| ==> pos[j] == |runs[j]|
      requires current.Some? ==> current.value < |runs| && pos[current.value] < |runs[current.value]|
      requires current.Some? ==> forall j :: 0 <= j < |runs| && pos[j] < |runs[j]| ==>
                 !Less(IKey(runs[current.value][pos[current.value]]), IKey(runs[j][pos[j]]))
      ensures Stands(if q == 0 then |all| else q - 1)
    {
      if q > 0 {
        var i := RunOf(all, runs, q - 1);
        CutStep(all, runs, i, q - 1);
        hide MergeOf, Cut;
        assert pos[i] < |runs[i]| && runs[i][pos[i]] == all[q - 1];
      }
      if current.Some? {
        var c := current.value;
        var p := PlaceOf(all, runs, c, pos[c]);
        CutMeaning(runs[c], all, q, pos[c], p);
        hide MergeOf, Cut;
        }
    }

    method SeekToFirst()
      requires Valid()
      modifies this`current, this`direction, this`place, pos
      ensures Valid() && place == 0
    {
      for i := 0 to |runs|
        invariant Shaped() && forall j :: 0 <= j < i ==> pos[j] == Cut(runs[j], all, 0)
      {
        CutAtStart(all, runs, i);
        pos[i] := 0;
      }
      FindSmallest(0);
      direction, place := Forward, 0;
    }

    method SeekToLast()
      requires Valid()
      modifies this`current, this`direction, this`place, pos
      ensures Valid() && place == if |all| == 0 then 0 else |all| - 1
    {
      hide MergeOf, LowerBound;
      for i := 0 to |runs|
        invariant Shaped() && forall j :: 0 <= j < i ==> pos[j] == Back(runs[j], all, |all|)
      {
        pos[i] := if |runs[i]| == 0 then 0 else |runs[i]| - 1;
      }
      FindLargest(|all|);
      direction, place := Reverse, if |all| == 0 then 0 else |all| - 1;
    }

    method Seek(target: InternalKey)
      requires Valid()
      modifies this`current, this`direction, this`place, pos
      ensures Valid() && place == LowerBound(all, target)
    {
      ghost var q := LowerBound(all, target);
      for i := 0 to |runs|
        invariant Shaped() && forall j :: 0 <= j < i ==> pos[j] == Cut(runs[j], all, q)
      {
        SeekIsCut(all, runs, i, target);
        pos[i] := LowerBound(runs[i], target);
      }
      FindSmallest(q);
      direction, place := Forward, q;
    }

    method Next()
      requires Valid() && place < |all|
      modifies this`current, this`direction, this`place, pos
      ensures Valid() && place == old(place) + 1
    {
      hide MergeOf, Cut, Back;
      if direction != Forward {
        FaceForward();
      }
      StepChild();
      FindSmallest(place + 1);
      place := place + 1;
    }

    /** Positions the children other than the current one after the current key. */
    method FaceForward()
      requires Shaped() && place < |all| && Stands(place) && AtBack(place + 1)
      modifies this`direction, pos
      ensures Shaped() && Stands(place) && AtCut(place) && direction == Forward
    {
      hide MergeOf, Cut, Back;
      var key := IKey(runs[current.value][pos[current.value]]);
      OwnPlace(current.value);
      CutIsSought(all, place);
      for i := 0 to |runs|
        invariant Shaped() && Stands(place)
        invariant forall j :: 0 <= j < i ==> pos[j] == Cut(runs[j], all, place)
        invariant pos[current.value] == Cut(runs[current.value], all, place)
      {
        if i != current.value {
          pos[i] := LowerBound(runs[i], key);
          if pos[i] < |runs[i]| && key == IKey(runs[i][pos[i]]) {
            pos[i] := pos[i] + 1;
            NotElsewhere(i);
          }
        }
      }
      direction := Forward;
    }

    /** The current child stands at the cut: the entry there is its own. */
    lemma OwnPlace(c: nat)
      requires Shaped() && place < |all| && Stands(place) && current == Some(c)
      ensures pos[c] == Cut(runs[c], all, place)
    {
      CutStep(all, runs, c, place);
      var n := Cut(runs[c], all, place);
      assert runs[c][pos[c]] in runs[c];
    }

    /** No other child has the current key. */
    lemma NotElsewhere(i: nat)
      requires Shaped() && place < |all| && Stands(place) && i < |runs| && i != current.value
      ensures all[place] !in runs[i]
      ensures forall k :: 0 <= k < |runs[i]| ==> IKey(runs[i][k]) != IKey(all[place])
    {
      var c := current.value;
      assert all[place] in runs[c];
      forall k | 0 <= k < |runs[i]| ensures IKey(runs[i][k]) != IKey(all[place]) {
        var p := PlaceOf(all, runs, i, k);
        if p < place { assert Before(all[p], all[place]); }
        if place < p { assert Before(all[place], all[p]); }
      }
    }

    /** Between the two sides of the current entry only the current child's cut differs. */
    lemma CutsStep()
      requires Shaped() && place < |all| && Stands(place)
      ensures forall i :: 0 <= i < |runs| ==> StepAt(i)
    {
      forall i | 0 <= i < |runs| ensures StepAt(i) {
        CutStep(all, runs, i, place);
        if i != current.value { NotElsewhere(i); }
        assert all[place] in runs[current.value];
      }
    }

    ghost predicate StepAt(i: nat)
      requires i < |runs|
      reads this`current, this`place
    {
      var n := Cut(runs[i], all, place);
      && Cut(runs[i], all, place + 1) == (if current == Some(i) then n + 1 else n)
      && Back(runs[i], all, place + 1) == (if current == Some(i) then n else Back(runs[i], all, place))
    }

    /** Moving the current child past the cut moves the cut of all children. */
    method StepChild()
      requires Shaped() && place < |all| && Stands(place) && AtCut(place)
      modifies pos
      ensures Shaped() && AtCut(place + 1)
    {
      var c := current.value;
      CutsStep();
      hide MergeOf, Cut, Back;
      pos[c] := pos[c] + 1;
      forall i | 0 <= i < |runs| ensures pos[i] == Cut(runs[i], all, place + 1) {
        assert StepAt(i);
      }
    }

    method Prev()
      requires Valid() && place < |all|
      modifies this`current, this`direction, this`place, pos
      ensures Valid() && place == if old(place) == 0 then |all| else old(place) - 1
    {
      hide MergeOf, Cut, Back;
      if direction != Reverse {
        FaceBackward();
      }
      StepChildBack();
      FindLargest(place);
      direction, place := Reverse, if place == 0 then |all| else place - 1;
    }

    /** Puts a child behind the current key: step back from the first entry at or after it, or go to the last. */
    method ChildBefore(i: nat, key: InternalKey)
      requires Shaped() && i < |runs| && place < |all| && key == IKey(all[place])
      modifies pos
      ensures Shaped() && pos[i] == Back(runs[i], all, place)
      ensures forall j :: 0 <= j < |runs| && j != i ==> pos[j] == old(pos[j])
    {
      hide MergeOf, LowerBound;
      var n := LowerBound(runs[i], key);
      if n < |runs[i]| {
        pos[i] := if n == 0 then |runs[i]| else n - 1;
      } else {
        pos[i] := if |runs[i]| == 0 then 0 else |runs[i]| - 1;
      }
    }

    /** Positions the children other than the current one before the current key. */
    method FaceBackward()
      requires Shaped() && place < |all| && Stands(place) && AtCut(place)
      modifies this`direction, pos
      ensures Shaped() && Stands(place) && AtBack(place + 1) && direction == Reverse
    {
      hide MergeOf, Cut, Back;
      var c := current.value;
      var key := IKey(runs[c][pos[c]]);
      for i := 0 to |runs|
        invariant Shaped() && Stands(place) && pos[c] == Cut(runs[c], all, place)
        invariant forall j :: 0 <= j < i && j != c ==> pos[j] == Back(runs[j], all, place)
      {
        if i != c {
          ChildBefore(i, key);
        }
      }
      direction := Reverse;
      AllBehind();
    }

    lemma AllBehind()
      requires Shaped() && place < |all| && Stands(place) && pos[current.value] == Cut(runs[current.value], all, place)
      requires forall j :: 0 <= j < |runs| && j != current.value ==> pos[j] == Back(runs[j], all, place)
      ensures AtBack(place + 1)
    {
      CutsStep();
      hide MergeOf, Cut, Back;
      forall i | 0 <= i < |runs| ensures pos[i] == Back(runs[i], all, place + 1) {
        assert StepAt(i);
      }
    }

    method StepChildBack()
      requires Shaped() && place < |all| && Stands(place) && AtBack(place + 1)
      modifies pos
      ensures Shaped() && AtBack(place)
    {
      hide MergeOf, Cut, Back;
      var c := current.value;
      BacksStep();
      pos[c] := if pos[c] == 0 then |runs[c]| else pos[c] - 1;
    }

    /** Moving back over the current entry moves its child, and no other. */
    lemma BacksStep()
      requires Shaped() && place < |all| && Stands(place) && AtBack(place + 1)
      ensures forall i :: 0 <= i < |runs| ==>
                Back(runs[i], all, place) == if current != Some(i) then pos[i] else if pos[i] == 0 then |runs[i]| else pos[i] - 1
    {
      OwnPlace(current.value);
      CutsStep();
      hide MergeOf, Cut;
      forall i | 0 <= i < |runs|
        ensures Back(runs[i], all, place) == if current != Some(i) then pos[i] else if pos[i] == 0 then |runs[i]| else pos[i] - 1
      {
        assert StepAt(i);
      }
    }

  }
}
