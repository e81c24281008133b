/**
 A Version: seven levels of immutable sorted files, and the lookups on it.
 */
module Versions {
  import opened Basics
  import opened Keys

  const kNumLevels: nat := 7
  const kMaxMemCompactLevel: nat := 2
  const kTargetFileSize: nat := 2 * 1048576
  const kMaxGrandParentOverlapBytes: nat := 10 * kTargetFileSize

  /** FileMetaData together with the entries that the file holds. */
  datatype File = File(number: nat, size: nat, entries: seq<Entry>)

  type Level = seq<File>
  type Version = seq<Level>

  ghost predicate ValidFile(f: File) {
    && |f.entries| > 0
    && SortedEntries(f.entries)
    && forall e :: e in f.entries ==> e.sn <= kMaxSequenceNumber
  }

  function Smallest(f: File): InternalKey
    requires |f.entries| > 0
  {
    IKey(f.entries[0])
  }

  function Largest(f: File): InternalKey
    requires |f.entries| > 0
  {
    IKey(f.entries[|f.entries| - 1])
  }

  ghost predicate ValidFiles(fs: Level) { forall i :: 0 <= i < |fs| ==> ValidFile(fs[i]) }

  /** Files of a level above 0: ordered, and disjoint as ranges of internal keys. Two
      neighbours may still share a user key, because a compaction can close an output
      file between two entries of one user key. */
  ghost predicate SortedFiles(fs: Level)
    requires ValidFiles(fs)
  {
    forall i, j :: 0 <= i < j < |fs| ==> Less(Largest(fs[i]), Smallest(fs[j]))
  }

  ghost function Content(fs: Level): set<Entry> { set f, e | f in fs && e in f.entries :: e }

  ghost function Contents(v: Version): set<Entry> { set l, f, e | l in v && f in l && e in f.entries :: e }

  /** Level 0: files may overlap; a larger file number means newer data. */
  ghost predicate NewestByNumber(fs: Level) {
    forall i, j :: 0 <= i < |fs| && 0 <= j < |fs| && i != j ==>
      && fs[i].number != fs[j].number
      && (fs[i].number > fs[j].number ==> Newer(Elements(fs[i].entries), Elements(fs[j].entries)))
  }

  /** The order in which a Version lists the files of a level. */
  predicate BySmallestKey(f: File, g: File)
    requires |f.entries| > 0 && |g.entries| > 0
  {
    Less(Smallest(f), Smallest(g)) || (Smallest(f) == Smallest(g) && f.number < g.number)
  }

  ghost predicate OrderedFiles(fs: Level)
    requires ValidFiles(fs)
  {
    forall i, j :: 0 <= i < j < |fs| ==> BySmallestKey(fs[i], fs[j])
  }

  /** For every user key, data in a shallower level is newer than data in a deeper one. */
  ghost predicate ShallowerIsNewer(v: Version) {
    forall l, m :: 0 <= l < m < |v| ==> Newer(Content(v[l]), Content(v[m]))
  }

  ghost predicate ValidVersion(v: Version) {
    && |v| == kNumLevels
    && (forall l :: 0 <= l < |v| ==> ValidFiles(v[l]))
    && (forall l :: 1 <= l < |v| ==> SortedFiles(v[l]))
    && OrderedFiles(v[0])
    && NewestByNumber(v[0])
    && ShallowerIsNewer(v)
  }

  // ---------------------------------------------------------------------------
  // Answers of a lookup, and how they combine
  // ---------------------------------------------------------------------------

  /** The states of a Saver after a table lookup. */
  datatype Answer = NotFound | Found(value: Value) | Deleted

  ghost predicate Answers(es: set<Entry>, k: UserKey, s: nat, a: Answer) {
    match a
    case NotFound => forall e :: e in es ==> !Candidate(e, k, s)
    case Found(v) => exists e :: IsLatest(es, k, s, e) && e.op == Put(v)
    case Deleted => exists e :: IsLatest(es, k, s, e) && e.op == Delete
  }

  function AsRead(a: Answer): Option<Value> {
    match a
    case Found(v) => Some(v)
    case _ => None
  }

  /** Searching newer data first and stopping at the first hit answers for both. */
  lemma NewerFirst(a: set<Entry>, b: set<Entry>, k: UserKey, s: nat, x: Answer, y: Answer)
    requires Newer(a, b)
    requires Answers(a, k, s, x)
    requires x == NotFound ==> Answers(b, k, s, y)
    ensures Answers(a + b, k, s, if x == NotFound then y else x)
  {
    if x == NotFound {
      assert forall e :: e in a + b && Candidate(e, k, s) <==> e in b && Candidate(e, k, s);
      assert forall e :: IsLatest(b, k, s, e) ==> IsLatest(a + b, k, s, e);
    } else {
      assert forall e :: IsLatest(a, k, s, e) ==> IsLatest(a + b, k, s, e);
    }
  }

  /** An answer over entries drawn from a history is what the entries read as. */
  lemma AnswerIsRead(es: set<Entry>, h: History, k: UserKey, s: nat, a: Answer)
    requires FromHistory(es, h)
    requires Answers(es, k, s, a)
    ensures ReadsAs(es, k, s, AsRead(a))
  {
    forall x, y | IsLatest(es, k, s, x) && IsLatest(es, k, s, y) ensures x == y {
      assert x.sn == y.sn;
    }
  }

  // ---------------------------------------------------------------------------
  // Lookup in one sorted run: a memtable, or one table
  // ---------------------------------------------------------------------------

  /** Seek: the first position at or after t. */
  function LowerBound(es: seq<Entry>, t: InternalKey): (i: nat)
    ensures i <= |es|
    ensures forall j :: 0 <= j < i ==> Less(IKey(es[j]), t)
    ensures i < |es| ==> !Less(IKey(es[i]), t)
  {
    if es == [] || !Less(IKey(es[0]), t) then 0 else 1 + LowerBound(es[1..], t)
  }

  /** MemTable::Get and SaveValue: seek, then check that the user key is the wanted one. */
  function RunGet(es: seq<Entry>, k: UserKey, s: nat): Answer {
    var i := LowerBound(es, SeekKey(k, s));
    if i < |es| && es[i].key == k then
      match es[i].op { case Put(v) => Found(v) case Delete => Deleted }
    else NotFound
  }

  lemma RunGetAnswers(es: seq<Entry>, k: UserKey, s: nat)
    requires SortedEntries(es)
    ensures Answers(Elements(es), k, s, RunGet(es, k, s))
  {
    var i := LowerBound(es, SeekKey(k, s));
    if i < |es| && es[i].key == k {
      forall x | x in Elements(es) && Candidate(x, k, s) ensures x.sn <= es[i].sn {
        var j :| 0 <= j < |es| && es[j] == x;
        if j > i { assert Before(es[i], es[j]); }
      }
      assert IsLatest(Elements(es), k, s, es[i]);
    } else {
      forall x | x in Elements(es) ensures !Candidate(x, k, s) {
        var j :| 0 <= j < |es| && es[j] == x;
        if j > i { assert Before(es[i], es[j]); }
      }
    }
  }

  // ---------------------------------------------------------------------------
  // Lookup among files
  // ---------------------------------------------------------------------------

  lemma WithinFile(f: File, e: Entry)
    requires ValidFile(f) && e in f.entries
    ensures !Less(IKey(e), Smallest(f)) && !Less(Largest(f), IKey(e))
  {
    var j :| 0 <= j < |f.entries| && f.entries[j] == e;
    assert j > 0 ==> Before(f.entries[0], f.entries[j]);
    assert j < |f.entries| - 1 ==> Before(f.entries[j], f.entries[|f.entries| - 1]);
  }

  /** Binary search for the first file whose largest key is at or after t. */
  method FindFile(files: Level, t: InternalKey) returns (right: nat)
    requires ValidFiles(files) && SortedFiles(files)
    ensures right <= |files|
    ensures forall i :: 0 <= i < right ==> Less(Largest(files[i]), t)
    ensures forall i :: right <= i < |files| ==> !Less(Largest(files[i]), t)
  {
    var left := 0;
    right := |files|;
    while left < right
      invariant left <= right <= |files|
      invariant forall i :: 0 <= i < left ==> Less(Largest(files[i]), t)
      invariant forall i :: right <= i < |files| ==> !Less(Largest(files[i]), t)
    {
      var mid := (left + right) / 2;
      if Less(Largest(files[mid]), t) {
        forall i | 0 <= i <= mid ensures Less(Largest(files[i]), t) {
          if i < mid { LargestIncreases(files, i, mid); }
        }
        left := mid + 1;
      } else {
        forall i | mid <= i < |files| ensures !Less(Largest(files[i]), t) {
          if mid < i { LargestIncreases(files, mid, i); }
        }
        right := mid;
      }
    }
  }

  lemma LargestIncreases(files: Level, i: nat, j: nat)
    requires ValidFiles(files) && SortedFiles(files)
    requires i < j < |files|
    ensures Less(Largest(files[i]), Largest(files[j]))
  {
    WithinFile(files[j], files[j].entries[|files[j].entries| - 1]);
  }

  /** FindFile's answer for a lookup. */
  ghost predicate Picks(files: Level, k: UserKey, s: nat, index: nat)
    requires ValidFiles(files)
  {
    && index <= |files|
    && (forall i :: 0 <= i < index ==> Less(Largest(files[i]), SeekKey(k, s)))
    && (index < |files| ==> !Less(Largest(files[index]), SeekKey(k, s)))
  }

  /** A candidate is in the picked file, or in a later file and the picked file ends with a newer candidate. */
  lemma CandidatePosition(files: Level, k: UserKey, s: nat, index: nat, j: nat, x: Entry)
    requires ValidFiles(files) && SortedFiles(files) && Picks(files, k, s, index)
    requires j < |files| && x in files[j].entries && Candidate(x, k, s)
    ensures index <= j
    ensures index < j ==>
      var last := files[index].entries[|files[index].entries| - 1];
      Candidate(last, k, s) && x.sn <= last.sn
  {
    WithinFile(files[j], x);
    SeekKeyMeaning(x, k, s);
    if index < j {
      assert Less(Largest(files[index]), Smallest(files[j]));
      SeekKeyMeaning(files[index].entries[|files[index].entries| - 1], k, s);
    }
  }

  /** The picked file holds a candidate whenever the level does, and its latest one is the level's. */
  lemma PickedFileAnswers(files: Level, k: UserKey, s: nat, index: nat, a: Answer)
    requires ValidFiles(files) && SortedFiles(files) && Picks(files, k, s, index)
    requires index < |files| && Answers(Elements(files[index].entries), k, s, a)
    ensures Answers(Content(files), k, s, a)
  {
    var f := files[index];
    var last := f.entries[|f.entries| - 1];
    assert last in Elements(f.entries);
    if a == NotFound {
      forall x | x in Content(files) ensures !Candidate(x, k, s) {
        if Candidate(x, k, s) {
          var j :| 0 <= j < |files| && x in files[j].entries;
          CandidatePosition(files, k, s, index, j, x);
        }
      }
    } else {
      forall e | IsLatest(Elements(f.entries), k, s, e) ensures IsLatest(Content(files), k, s, e) {
        forall x | x in Content(files) && Candidate(x, k, s) ensures x.sn <= e.sn {
          var j :| 0 <= j < |files| && x in files[j].entries;
          CandidatePosition(files, k, s, index, j, x);
          assert x in Elements(files[j].entries);
        }
      }
    }
  }

  /** The one file picked by FindFile answers for its whole level. */
  lemma LevelAnswer(files: Level, k: UserKey, s: nat, index: nat, a: Answer)
    requires ValidFiles(files) && SortedFiles(files) && Picks(files, k, s, index)
    requires a == if index < |files| && !(k < Smallest(files[index]).user)
                  then RunGet(files[index].entries, k, s) else NotFound
    ensures Answers(Content(files), k, s, a)
  {
    if index < |files| {
      if k < Smallest(files[index]).user {
        OutsideFile(files[index], k, s);
      } else {
        RunGetAnswers(files[index].entries, k, s);
      }
      PickedFileAnswers(files, k, s, index, a);
    } else {
      forall x | x in Content(files) ensures !Candidate(x, k, s) {
        if Candidate(x, k, s) {
          var j :| 0 <= j < |files| && x in files[j].entries;
          CandidatePosition(files, k, s, index, j, x);
        }
      }
    }
  }

  // std::sort by NewestFirst, as an insertion sort.

  ghost predicate NewestFirst(fs: Level) { forall i, j :: 0 <= i < j < |fs| ==> fs[i].number >= fs[j].number }

  function InsertByNumber(fs: Level, f: File): Level {
    if fs == [] || f.number >= fs[0].number then [f] + fs
    else [fs[0]] + InsertByNumber(fs[1..], f)
  }

  function SortByNumber(fs: Level): Level {
    if fs == [] then [] else InsertByNumber(SortByNumber(fs[1..]), fs[0])
  }

  lemma {:induction false} InsertByNumberInserts(fs: Level, f: File)
    requires NewestFirst(fs)
    ensures multiset(InsertByNumber(fs, f)) == multiset(fs) + multiset{f}
    ensures NewestFirst(InsertByNumber(fs, f))
  {
    if fs != [] && f.number < fs[0].number {
      InsertByNumberInserts(fs[1..], f);
      NoneNewer(fs, f, InsertByNumber(fs[1..], f));
      assert fs == [fs[0]] + fs[1..];
      hide InsertByNumber;
      InsertedBehind(fs, f);
      NewestInFront(fs[0], InsertByNumber(fs[1..], f));
    } else {
      NewestInFront(f, fs);
    }
  }

  lemma InsertedBehind(fs: Level, f: File)
    requires fs != [] && f.number < fs[0].number
    ensures InsertByNumber(fs, f) == [fs[0]] + InsertByNumber(fs[1..], f)
  {
  }

  lemma NewestInFront(f: File, fs: Level)
    requires NewestFirst(fs) && forall i :: 0 <= i < |fs| ==> f.number >= fs[i].number
    ensures NewestFirst([f] + fs)
  {
  }

  lemma NoneNewer(fs: Level, f: File, t: Level)
    requires fs != [] && NewestFirst(fs) && f.number < fs[0].number && multiset(t) == multiset(fs[1..]) + multiset{f}
    ensures forall i :: 0 <= i < |t| ==> fs[0].number >= t[i].number
  {
    forall i | 0 <= i < |t| ensures fs[0].number >= t[i].number {
      assert t[i] in multiset(t);
      if t[i] != f {
        var j :| 0 <= j < |fs[1..]| && fs[1..][j] == t[i];
        assert fs[0].number >= fs[j + 1].number;
      }
    }
  }

  lemma {:induction false} SortByNumberSorts(fs: Level)
    ensures multiset(SortByNumber(fs)) == multiset(fs)
    ensures NewestFirst(SortByNumber(fs))
  {
    if fs != [] {
      SortByNumberSorts(fs[1..]);
      assert fs == [fs[0]] + fs[1..];
      InsertByNumberInserts(SortByNumber(fs[1..]), fs[0]);
    }
  }

  predicate CoversUserKey(f: File, k: UserKey)
    requires |f.entries| > 0
  {
    Smallest(f).user <= k <= Largest(f).user
  }

  lemma OutsideFile(f: File, k: UserKey, s: nat)
    requires ValidFile(f) && !CoversUserKey(f, k)
    ensures Answers(Elements(f.entries), k, s, NotFound)
  {
    forall e | e in f.entries ensures !Candidate(e, k, s) {
      WithinFile(f, e);
    }
  }

  /** tmp holds, newest first, every file that may have an entry for k. */
  ghost predicate Searchable(files: Level, tmp: Level, k: UserKey)
    requires ValidFiles(files)
  {
    && (forall i :: 0 <= i < |tmp| ==> tmp[i] in files)
    && (forall j :: 0 <= j < |files| && CoversUserKey(files[j], k) ==> files[j] in tmp)
    && NewestFirst(tmp)
  }

  method FilesToSearch(files: Level, k: UserKey) returns (tmp: Level)
    requires ValidFiles(files)
    ensures Searchable(files, tmp, k)
  {
    var picked: Level := [];
    for i := 0 to |files|
      invariant forall f :: f in picked ==> f in files
      invariant forall j :: 0 <= j < i && CoversUserKey(files[j], k) ==> files[j] in picked
    {
      if CoversUserKey(files[i], k) {
        picked := picked + [files[i]];
      }
    }
    tmp := SortByNumber(picked);
    SortByNumberSorts(picked);
    forall i | 0 <= i < |tmp| ensures tmp[i] in files {
      assert tmp[i] in multiset(tmp);
    }
    forall j | 0 <= j < |files| && CoversUserKey(files[j], k) ensures files[j] in tmp {
      assert files[j] in multiset(picked);
    }
  }

  /** Level 0: search every file that covers the key, newest file first. */
  method LevelZeroGet(files: Level, k: UserKey, s: nat) returns (a: Answer)
    requires ValidFiles(files) && NewestByNumber(files)
    ensures Answers(Content(files), k, s, a)
  {
    var tmp := FilesToSearch(files, k);
    for i := 0 to |tmp|
      invariant forall j :: 0 <= j < i ==> Answers(Elements(tmp[j].entries), k, s, NotFound)
    {
      assert tmp[i] in files;
      RunGetAnswers(tmp[i].entries, k, s);
      a := RunGet(tmp[i].entries, k, s);
      if a != NotFound {
        HitInLevelZero(files, tmp, i, k, s, a);
        return;
      }
    }
    a := NotFound;
    MissInLevelZero(files, tmp, k, s);
  }

  lemma MissInLevelZero(files: Level, tmp: Level, k: UserKey, s: nat)
    requires ValidFiles(files) && Searchable(files, tmp, k)
    requires forall j :: 0 <= j < |tmp| ==> Answers(Elements(tmp[j].entries), k, s, NotFound)
    ensures Answers(Content(files), k, s, NotFound)
  {
    forall e | e in Content(files) ensures !Candidate(e, k, s) {
      var j :| 0 <= j < |files| && e in files[j].entries;
      assert e in Elements(files[j].entries);
      if CoversUserKey(files[j], k) {
        var i :| 0 <= i < |tmp| && tmp[i] == files[j];
      } else {
        OutsideFile(files[j], k, s);
      }
    }
  }

  /** The first hit in newest-first order is the latest of all level-0 files. */
  lemma HitInLevelZero(files: Level, tmp: Level, i: nat, k: UserKey, s: nat, a: Answer)
    requires ValidFiles(files) && NewestByNumber(files) && Searchable(files, tmp, k)
    requires i < |tmp|
    requires forall j :: 0 <= j < i ==> Answers(Elements(tmp[j].entries), k, s, NotFound)
    requires a != NotFound && Answers(Elements(tmp[i].entries), k, s, a)
    ensures Answers(Content(files), k, s, a)
  {
    var m :| 0 <= m < |files| && files[m] == tmp[i];
    forall e | IsLatest(Elements(tmp[i].entries), k, s, e) ensures IsLatest(Content(files), k, s, e) {
      forall x | x in Content(files) && Candidate(x, k, s) ensures x.sn <= e.sn {
        var j :| 0 <= j < |files| && x in files[j].entries;
        HitIsNewer(files, tmp, i, m, k, s, e, j, x);
      }
    }
  }

  lemma HitIsNewer(files: Level, tmp: Level, i: nat, m: nat, k: UserKey, s: nat, e: Entry, j: nat, x: Entry)
    requires ValidFiles(files) && NewestByNumber(files) && Searchable(files, tmp, k)
    requires i < |tmp| && m < |files| && files[m] == tmp[i]
    requires forall j :: 0 <= j < i ==> Answers(Elements(tmp[j].entries), k, s, NotFound)
    requires IsLatest(Elements(tmp[i].entries), k, s, e)
    requires j < |files| && x in files[j].entries && Candidate(x, k, s)
    ensures x.sn <= e.sn
  {
    assert x in Elements(files[j].entries);
    if j != m {
      if CoversUserKey(files[j], k) {
        var q :| 0 <= q < |tmp| && tmp[q] == files[j];
        assert q > i;
        assert Newer(Elements(files[m].entries), Elements(files[j].entries));
      } else {
        OutsideFile(files[j], k, s);
      }
    }
  }

  lemma ContentsStep(v: Version, l: nat)
    requires l < |v|
    ensures Contents(v[..l + 1]) == Contents(v[..l]) + Content(v[l])
  {
    assert v[..l + 1] == v[..l] + [v[l]];
  }

  lemma PrefixIsNewer(v: Version, l: nat)
    requires l < |v| && ShallowerIsNewer(v)
    ensures Newer(Contents(v[..l]), Content(v[l]))
  {
    forall x, y | x in Contents(v[..l]) && y in Content(v[l]) && x.key == y.key ensures x.sn > y.sn {
      var j :| 0 <= j < l && x in Content(v[j]);
      assert Newer(Content(v[j]), Content(v[l]));
    }
  }

  /** Version::Get, level by level; one file per level above 0. */
  method Get(v: Version, k: UserKey, s: nat) returns (a: Answer)
    requires ValidVersion(v)
    ensures Answers(Contents(v), k, s, a)
  {
    a := LevelZeroGet(v[0], k, s);
    ContentsStep(v, 0);
    assert Contents(v[..0]) == {};
    for level := 1 to kNumLevels
      invariant Answers(Contents(v[..level]), k, s, a)
    {
      if a == NotFound {
        var index := FindFile(v[level], SeekKey(k, s));
        a := if index < |v[level]| && !(k < Smallest(v[level][index]).user)
             then RunGet(v[level][index].entries, k, s) else NotFound;
        LevelAnswer(v[level], k, s, index, a);
        PrefixIsNewer(v, level);
        NewerFirst(Contents(v[..level]), Content(v[level]), k, s, NotFound, a);
      } else {
        PrefixIsNewer(v, level);
        NewerFirst(Contents(v[..level]), Content(v[level]), k, s, a, NotFound);
      }
      ContentsStep(v, level);
    }
    assert v[..kNumLevels] == v;
  }
}
