/**
 The iterator over the whole store: its children walk the memtables, the files
 of level 0, and the deeper levels one by one; together they hold every entry
 exactly once, so the merging iterator over them walks the sorted store.
 */
module Iterators {
  import opened Basics
  import opened Keys
  import opened Versions
  import opened Compactions
  import opened Flushes
  import TwoLevels
  import Mergers

  function FileRuns(files: Level): (runs: seq<seq<Entry>>)
    ensures |runs| == |files| && forall i :: 0 <= i < |files| ==> runs[i] == files[i].entries
  {
    seq(|files|, i requires 0 <= i < |files| => files[i].entries)
  }

  /** One concatenating iterator for each level from l on that has files. */
  function DeepRuns(v: Version, l: nat): seq<seq<Entry>>
    requires l <= |v|
    decreases |v| - l
  {
    if l == |v| then []
    else (if v[l] == [] then [] else [TwoLevels.Concat(FileRuns(v[l]))]) + DeepRuns(v, l + 1)
  }

  function MemRuns(mem: seq<Entry>, imm: Option<seq<Entry>>): seq<seq<Entry>> {
    [mem] + if imm.Some? then [imm.value] else []
  }

  /** The children of the merging iterator, in the order in which they are collected. */
  function Children(mem: seq<Entry>, imm: Option<seq<Entry>>, v: Version): seq<seq<Entry>>
    requires |v| > 0
  {
    MemRuns(mem, imm) + (FileRuns(v[0]) + DeepRuns(v, 1))
  }

  // ---------------------------------------------------------------------------
  // Every entry in exactly one child
  // ---------------------------------------------------------------------------

  ghost function Union(runs: seq<seq<Entry>>): set<Entry> { set r, e | r in runs && e in r :: e }

  /** Sorted runs, no two of which share an entry. */
  ghost predicate Apart(runs: seq<seq<Entry>>) {
    && (forall i :: 0 <= i < |runs| ==> SortedEntries(runs[i]))
    && forall i, j, e :: 0 <= i < j < |runs| && e in runs[i] ==> e !in runs[j]
  }

  lemma UnionJoins(a: seq<seq<Entry>>, b: seq<seq<Entry>>)
    ensures Union(a + b) == Union(a) + Union(b)
  {
    forall r ensures r in a + b <==> r in a || r in b {
    }
  }

  lemma ApartJoins(a: seq<seq<Entry>>, b: seq<seq<Entry>>)
    requires Apart(a) && Apart(b) && Newer(Union(a), Union(b))
    ensures Apart(a + b) && Union(a + b) == Union(a) + Union(b)
  {
    UnionJoins(a, b);
    var c := a + b;
    forall i, j, e | 0 <= i < j < |c| && e in c[i] ensures e !in c[j] {
      if i < |a| <= j {
        assert c[i] in a && c[j] in b;
        assert e in Union(a);
        assert e in c[j] ==> e in Union(b);
      }
    }
  }

  lemma OneRun(run: seq<Entry>)
    requires SortedEntries(run)
    ensures Apart([run]) && Union([run]) == Elements(run)
  {
  }

  lemma NoRuns()
    ensures Apart([]) && Union([]) == {}
  {
  }

  /** A level above 0 is one sorted run. */
  lemma LevelRun(files: Level)
    requires ValidFiles(files) && SortedFiles(files)
    ensures SortedEntries(TwoLevels.Concat(FileRuns(files))) && Elements(TwoLevels.Concat(FileRuns(files))) == Content(files)
  {
    var runs, all := FileRuns(files), TwoLevels.Concat(FileRuns(files));
    forall p, q | 0 <= p < q < |all| ensures Before(all[p], all[q]) {
      var b, i := TwoLevels.PlaceOf(runs, p);
      var c, j := TwoLevels.PlaceOf(runs, q);
      PlacesInOrder(runs, b, i, c, j);
      if b < c { EndsApart(files, b, i, c, j); }
    }
    forall e ensures e in all <==> e in Content(files) {
      if e in all {
        var p :| 0 <= p < |all| && all[p] == e;
        var b, i := TwoLevels.PlaceOf(runs, p);
        assert files[b] in files && e in files[b].entries;
      }
      if e in Content(files) {
        var f :| f in files && e in f.entries;
        var b :| 0 <= b < |files| && files[b] == f;
        var i :| 0 <= i < |runs[b]| && runs[b][i] == e;
        TwoLevels.ConcatAt(runs, b);
        assert all[TwoLevels.Offset(runs, b) + i] == e;
      }
    }
  }

  lemma PlacesInOrder(runs: seq<seq<Entry>>, b: nat, i: nat, c: nat, j: nat)
    requires b < |runs| && i < |runs[b]| && c < |runs| && j < |runs[c]|
    requires TwoLevels.Offset(runs, b) + i < TwoLevels.Offset(runs, c) + j
    ensures b < c || (b == c && i < j)
  {
    if c < b {
      TwoLevels.ConcatAt(runs, c);
      TwoLevels.OffsetsGrow(runs, c + 1, b);
    }
  }

  lemma EndsApart(files: Level, b: nat, i: nat, c: nat, j: nat)
    requires ValidFiles(files) && SortedFiles(files) && b < c < |files| && i < |files[b].entries| && j < |files[c].entries|
    ensures Before(files[b].entries[i], files[c].entries[j])
  {
    var last := files[b].entries[|files[b].entries| - 1];
    assert Less(IKey(last), IKey(files[c].entries[0]));
    if i < |files[b].entries| - 1 { assert Before(files[b].entries[i], last); }
    if j > 0 { assert Before(files[c].entries[0], files[c].entries[j]); }
  }

  /** The files of level 0, told apart by number. */
  lemma TopRuns(files: Level)
    requires ValidFiles(files) && NewestByNumber(files)
    ensures Apart(FileRuns(files)) && Union(FileRuns(files)) == Content(files)
  {
    var runs := FileRuns(files);
    forall i, j, e | 0 <= i < j < |runs| && e in runs[i] ensures e !in runs[j] {
      var a, b := Elements(files[i].entries), Elements(files[j].entries);
      assert e in runs[j] ==> e in a && e in b;
      assert Newer(a, b) || Newer(b, a);
    }
    forall e ensures e in Union(runs) <==> e in Content(files) {
      if e in Union(runs) {
        var r :| r in runs && e in r;
        var i :| 0 <= i < |runs| && runs[i] == r;
        assert files[i] in files;
      }
      if e in Content(files) {
        var f :| f in files && e in f.entries;
        var i :| 0 <= i < |files| && files[i] == f;
        assert runs[i] in runs;
      }
    }
  }

  /** What the levels from l on hold. */
  ghost function Deep(v: Version, l: nat): set<Entry>
    requires l <= |v|
  {
    set m, e | l <= m < |v| && e in Content(v[m]) :: e
  }

  lemma {:induction false} DeepRunsApart(v: Version, l: nat)
    requires ValidVersion(v) && 1 <= l <= |v|
    ensures Apart(DeepRuns(v, l)) && Union(DeepRuns(v, l)) == Deep(v, l)
    decreases |v| - l
  {
    if l == |v| {
      NoRuns();
    } else {
      DeepRunsApart(v, l + 1);
      LevelRun(v[l]);
      assert Deep(v, l) == Content(v[l]) + Deep(v, l + 1);
      if v[l] == [] {
        assert DeepRuns(v, l) == DeepRuns(v, l + 1);
      } else {
        var run := TwoLevels.Concat(FileRuns(v[l]));
        OneRun(run);
        assert Newer(Content(v[l]), Deep(v, l + 1));
        ApartJoins([run], DeepRuns(v, l + 1));
      }
    }
  }

  lemma VersionRuns(v: Version)
    requires ValidVersion(v)
    ensures Apart(FileRuns(v[0]) + DeepRuns(v, 1)) && Union(FileRuns(v[0]) + DeepRuns(v, 1)) == Contents(v)
  {
    TopRuns(v[0]);
    DeepRunsApart(v, 1);
    assert Newer(Content(v[0]), Deep(v, 1));
    ApartJoins(FileRuns(v[0]), DeepRuns(v, 1));
    forall e ensures e in Contents(v) <==> e in Content(v[0]) || e in Deep(v, 1) {
      if e in Contents(v) {
        var l, f :| l in v && f in l && e in f.entries;
        var m :| 0 <= m < |v| && v[m] == l;
        assert e in Content(v[m]);
      }
      if m :| 0 <= m < |v| && e in Content(v[m]) {
        assert v[m] in v;
      }
    }
  }

  lemma ChildrenApart(mem: seq<Entry>, imm: Option<seq<Entry>>, v: Version)
    requires SortedEntries(mem) && (imm.Some? ==> SortedEntries(imm.value)) && ValidVersion(v)
    requires imm.Some? ==> Newer(Elements(mem), Elements(imm.value))
    requires Newer(Elements(mem) + (if imm.Some? then Elements(imm.value) else {}), Contents(v))
    ensures Apart(Children(mem, imm, v))
    ensures Union(Children(mem, imm, v)) ==
            Elements(mem) + (if imm.Some? then Elements(imm.value) else {}) + Contents(v)
  {
    OneRun(mem);
    if imm.Some? {
      OneRun(imm.value);
      ApartJoins([mem], [imm.value]);
    } else {
      assert MemRuns(mem, imm) == [mem];
    }
    VersionRuns(v);
    ApartJoins(MemRuns(mem, imm), FileRuns(v[0]) + DeepRuns(v, 1));
  }

  /** Entries of different sequence numbers have one sorted sequence. */
  lemma SortedSequence(entries: set<Entry>) returns (es: seq<Entry>)
    requires UniqueSequences(entries)
    ensures SortedEntries(es) && Elements(es) == entries
  {
    es := [];
    var rest := entries;
    while rest != {}
      invariant rest <= entries && SortedEntries(es) && Elements(es) == entries - rest
      decreases |rest|
    {
      var e :| e in rest;
      assert forall x :: x in es ==> x in Elements(es);
      InsertEntryInserts(es, e);
      es, rest := InsertEntry(es, e), rest - {e};
    }
  }

  /** The sorted sequence that the merging iterator over the children walks. */
  lemma MergeExists(runs: seq<seq<Entry>>) returns (es: seq<Entry>)
    requires Apart(runs) && UniqueSequences(Union(runs))
    ensures Elements(es) == Union(runs) && Mergers.MergeOf(es, runs)
  {
    hide *;
    es := SortedSequence(Union(runs));
    IsMerge(es, runs);
  }

  lemma UnionMeaning(runs: seq<seq<Entry>>, e: Entry)
    ensures e in Union(runs) <==> exists i :: 0 <= i < |runs| && e in runs[i]
  {
    if e in Union(runs) {
      var r :| r in runs && e in r;
      var i :| 0 <= i < |runs| && runs[i] == r;
      assert e in runs[i];
    }
    if i :| 0 <= i < |runs| && e in runs[i] {
      assert runs[i] in runs;
    }
  }

  lemma IsMerge(es: seq<Entry>, runs: seq<seq<Entry>>)
    requires SortedEntries(es) && Apart(runs) && Elements(es) == Union(runs)
    ensures Mergers.MergeOf(es, runs)
  {
    hide Union;
    forall i, e | 0 <= i < |runs| && e in runs[i] ensures e in es {
      UnionMeaning(runs, e);
      assert e in Elements(es);
    }
    forall e | e in es ensures exists i :: 0 <= i < |runs| && e in runs[i] {
      assert e in Elements(es);
      UnionMeaning(runs, e);
    }
  }
}
