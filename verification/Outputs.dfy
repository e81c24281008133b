/**
 From the entries that a compaction keeps to the files that it installs.
 */
module Outputs {
  import opened Basics
  import opened Keys
  import opened Versions
  import opened Compactions
  import opened CompactionOrder
  import opened Builders
  import opened Flushes

  method MergeRun(input: seq<Entry>, run: seq<Entry>) returns (r: seq<Entry>)
    requires SortedEntries(input) && UniqueSequences(Elements(input) + Elements(run))
    ensures SortedEntries(r) && Elements(r) == Elements(input) + Elements(run)
  {
    r := input;
    for j := 0 to |run|
      invariant SortedEntries(r) && Elements(r) == Elements(input) + Elements(run[..j])
    {
      assert forall x :: x in r ==> x in Elements(r);
      assert run[j] in Elements(run) && Elements(r) <= Elements(input) + Elements(run);
      InsertEntryInserts(r, run[j]);
      r := InsertEntry(r, run[j]);
      assert run[..j + 1] == run[..j] + [run[j]];
    }
    assert run[..|run|] == run;
  }

  /** The compaction input iterator: all entries of the input files, in order. */
  method MergeInputs(files: Level) returns (input: seq<Entry>)
    requires ValidFiles(files) && UniqueSequences(Content(files))
    ensures SortedEntries(input) && Elements(input) == Content(files)
  {
    input := [];
    for i := 0 to |files|
      invariant SortedEntries(input) && Elements(input) == Content(files[..i])
    {
      assert files[..i + 1] == files[..i] + [files[i]];
      assert Content(files[..i + 1]) == Content(files[..i]) + Elements(files[i].entries);
      assert Content(files[..i + 1]) <= Content(files);
      input := MergeRun(input, files[i].entries);
    }
    assert files[..|files|] == files;
  }

  /** The entries kept are the inputs that the drop rules spare, in order. */
  lemma {:induction false} KeptEntries(v: Version, level: nat, input: seq<Entry>, n: nat, smallest: nat)
    requires ValidVersion(v) && SortedEntries(input) && n <= |input|
    ensures SortedEntries(Kept(v, level, input, n, smallest))
    ensures forall e :: e in Kept(v, level, input, n, smallest) <==>
              exists i :: 0 <= i < n && input[i] == e && Keep(v, level, input, i, smallest)
  {
    if n > 0 {
      KeptEntries(v, level, input, n - 1, smallest);
      var k := Kept(v, level, input, n - 1, smallest);
      forall i | 0 <= i < |k| ensures Before(k[i], input[n - 1]) {
        assert k[i] in k;
        var j :| 0 <= j < n - 1 && input[j] == k[i];
      }
    }
  }

  function NumberFiles(outputs: seq<seq<Entry>>, first: nat, sizes: nat -> nat): (r: Level)
    ensures |r| == |outputs|
    ensures forall i :: 0 <= i < |r| ==> r[i] == File(first + i, sizes(i), outputs[i])
  {
    seq(|outputs|, i requires 0 <= i < |outputs| => File(first + i, sizes(i), outputs[i]))
  }

  /** Cutting a sorted run into non-empty pieces gives sorted pieces in order. */
  lemma {:induction false} PiecesAreSorted(outputs: seq<seq<Entry>>)
    requires SortedEntries(Flatten(outputs)) && NoneEmpty(outputs)
    ensures forall i :: 0 <= i < |outputs| ==> SortedEntries(outputs[i])
    ensures forall i, j :: 0 <= i < j < |outputs| ==> Before(outputs[i][|outputs[i]| - 1], outputs[j][0])
    ensures forall e :: e in Flatten(outputs) <==> exists i :: 0 <= i < |outputs| && e in outputs[i]
  {
    if outputs != [] {
      var n := |outputs| - 1;
      var head, last := outputs[..n], outputs[n];
      var all := Flatten(outputs);
      assert all == Flatten(head) + last;
      assert SortedEntries(Flatten(head)) by {
        forall i, j | 0 <= i < j < |Flatten(head)| ensures Before(Flatten(head)[i], Flatten(head)[j]) {
          assert Before(all[i], all[j]);
        }
      }
      PiecesAreSorted(head);
      var off := |Flatten(head)|;
      forall i, j | 0 <= i < j < |last| ensures Before(last[i], last[j]) {
        assert Before(all[off + i], all[off + j]);
      }
      assert outputs == head + [last];
      forall i | 0 <= i < n ensures Before(outputs[i][|outputs[i]| - 1], last[0]) {
        var e := outputs[i][|outputs[i]| - 1];
        assert e in head[i] && e in Flatten(head);
        var p :| 0 <= p < off && Flatten(head)[p] == e;
        assert Before(all[p], all[off]);
      }
    }
  }

  /** The output files of the loop are valid outputs of the compaction and hold exactly the survivors. */
  lemma OutputsAreValid(v: Version, level: nat, in0: Level, in1: Level, input: seq<Entry>, smallest: nat,
                        outputs: seq<seq<Entry>>, first: nat, sizes: nat -> nat)
    requires ValidVersion(v) && Merged(in0, in1, input)
    requires forall e :: e in input ==> e.sn <= kMaxSequenceNumber
    requires Flatten(outputs) == Kept(v, level, input, |input|, smallest)
    requires NoneEmpty(outputs)
    ensures ValidOutputs(in0, in1, NumberFiles(outputs, first, sizes))
    ensures Survivors(v, level, input, smallest, NumberFiles(outputs, first, sizes))
  {
    hide ValidVersion, Flatten, Kept, Keep;
    var outs := NumberFiles(outputs, first, sizes);
    KeptEntries(v, level, input, |input|, smallest);
    PiecesAreSorted(outputs);
    forall i, e | 0 <= i < |outs| && e in outs[i].entries ensures e in input && e in Content(in0) + Content(in1) {
      assert e in Flatten(outputs);
      assert e in Elements(input);
    }
    NumberedContent(outputs, first, sizes);
  }

  /** The files hold what the pieces hold. */
  lemma NumberedContent(outputs: seq<seq<Entry>>, first: nat, sizes: nat -> nat)
    requires forall e :: e in Flatten(outputs) <==> exists i :: 0 <= i < |outputs| && e in outputs[i]
    ensures forall e :: e in Content(NumberFiles(outputs, first, sizes)) <==> e in Flatten(outputs)
  {
    hide Flatten;
    var outs := NumberFiles(outputs, first, sizes);
    forall e ensures e in Content(outs) <==> e in Flatten(outputs) {
      if e in Content(outs) {
        var f :| f in outs && e in f.entries;
        var i :| 0 <= i < |outs| && outs[i] == f;
        assert e in outputs[i];
      }
      if e in Flatten(outputs) {
        var i :| 0 <= i < |outputs| && e in outputs[i];
        assert outs[i] in outs && e in outs[i].entries;
      }
    }
  }

  /** A level without the files of the given numbers is the level without those files. */
  lemma DeletedByNumber(files: Level, inputs: Level, deleted: set<nat>)
    requires Identified(FileSet(files)) && forall f :: f in inputs ==> f in files
    requires deleted == NumbersOf(FileSet(inputs))
    ensures forall f :: f in files ==> (f.number in deleted <==> f in inputs)
  {
    forall f | f in files && f.number in deleted ensures f in inputs {
      var g :| g in FileSet(inputs) && g.number == f.number;
      assert g in FileSet(files) && f in FileSet(files);
    }
    forall f | f in inputs ensures f.number in deleted {
      assert f in FileSet(inputs);
    }
  }

  lemma SortedIsOrdered(files: Level)
    requires ValidFiles(files) && SortedFiles(files)
    ensures OrderedFiles(files)
  {
    forall i, j | 0 <= i < j < |files| ensures BySmallestKey(files[i], files[j]) {
      WithinFile(files[i], files[i].entries[0]);
      assert Less(Largest(files[i]), Smallest(files[j]));
    }
  }
}
