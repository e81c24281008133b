/**
 The store as one object: writes, memtable switches, flushes, compactions and
 snapshots in any order, with every read agreeing with the history of writes.
 */
module DbImpl {
  import opened Basics
  import opened Keys
  import opened Versions
  import opened Overlaps
  import opened Compactions
  import opened CompactionOrder
  import opened Stretches
  import opened Picking
  import opened Boundaries
  import opened Builders
  import opened Flushes
  import opened Outputs
  import opened Iterators
  import DbIter
  import Mergers

  /** The entries of an optional memtable. */
  ghost function ImmEntries(imm: Option<seq<Entry>>): set<Entry> {
    if imm.Some? then Elements(imm.value) else {}
  }

  /** A file number stands for one file of a level, and the next one is larger than all of them. */
  ghost predicate Numbers(files: Level, next: nat) {
    Identified(FileSet(files)) && forall f :: f in files ==> f.number < next
  }

  ghost predicate OtherNumbers(a: Level, b: Level) {
    forall f, g :: f in a && g in b ==> f.number != g.number
  }

  /** No two levels share a number. */
  ghost predicate WellNumbered(v: Version, next: nat) {
    && (forall l :: 0 <= l < |v| ==> Numbers(v[l], next))
    && forall l, m :: 0 <= l < m < |v| ==> OtherNumbers(v[l], v[m])
  }

  ghost predicate Within(a: Level, b: Level, c: Level) { forall f :: f in a ==> f in b || f in c }

  /** New files with fresh numbers on one level keep a version well numbered. */
  lemma FreshKeepsNumbers(v: Version, next: nat, level: nat, added: Level, v': Version, next': nat)
    requires WellNumbered(v, next) && |v'| == |v| && next <= next'
    requires forall l :: 0 <= l < |v'| ==> Within(v'[l], v[l], if l == level then added else [])
    requires forall i :: 0 <= i < |added| ==> next <= added[i].number < next'
    requires forall i, j :: 0 <= i < j < |added| ==> added[i].number != added[j].number
    ensures WellNumbered(v', next')
  {
    forall l | 0 <= l < |v'| ensures Numbers(v'[l], next') {
      assert Within(v'[l], v[l], if l == level then added else []);
      forall f, g | f in FileSet(v'[l]) && g in FileSet(v'[l]) && f.number == g.number ensures f == g {
        if f in v[l] && g in v[l] { assert f in FileSet(v[l]) && g in FileSet(v[l]); }
      }
    }
    forall l, m | 0 <= l < m < |v'| ensures OtherNumbers(v'[l], v'[m]) {
      assert Within(v'[l], v[l], if l == level then added else []);
      assert Within(v'[m], v[m], if m == level then added else []);
      assert OtherNumbers(v[l], v[m]) && Numbers(v[l], next) && Numbers(v[m], next);
    }
  }

  lemma MoreNumbers(v: Version, next: nat)
    requires WellNumbered(v, next)
    ensures WellNumbered(v, next + 1)
  {
    assert forall l :: 0 <= l < |v| ==> Numbers(v[l], next);
  }

  lemma LevelNumbers(v: Version, next: nat, l: nat)
    requires WellNumbered(v, next) && l < |v|
    ensures Identified(FileSet(v[l])) && forall f :: f in v[l] ==> f.number < next
  {
    assert Numbers(v[l], next);
  }

  /** A number leads to one file. */
  lemma NumberMeansFile(v: Version, next: nat, l: nat, f: File, m: nat, g: File)
    requires WellNumbered(v, next) && l < |v| && m < |v| && f in v[l] && g in v[m] && f.number == g.number
    ensures l == m && f == g
  {
    assert l < m ==> OtherNumbers(v[l], v[m]);
    assert m < l ==> OtherNumbers(v[m], v[l]);
    assert Numbers(v[l], next);
    assert f in FileSet(v[l]);
    assert l == m ==> g in FileSet(v[l]);
  }

  /** A moved file keeps its number, and leaves its level. */
  lemma MoveKeepsNumbers(v: Version, next: nat, level: nat, f: File, v': Version)
    requires WellNumbered(v, next) && level + 1 < |v| && f in v[level]
    requires Installed(v, level, [f], [], [f], v')
    ensures WellNumbered(v', next)
  {
    hide WellNumbered, Installed;
    forall l | 0 <= l < |v'| ensures Numbers(v'[l], next) {
      forall g | g in v'[l] ensures g.number < next {
        var m := FormerLevel(v, level, f, v', l, g);
        LevelNumbers(v, next, m);
      }
      forall g, h | g in FileSet(v'[l]) && h in FileSet(v'[l]) && g.number == h.number ensures g == h {
        var l0 := FormerLevel(v, level, f, v', l, g);
        var m0 := FormerLevel(v, level, f, v', l, h);
        NumberMeansFile(v, next, l0, g, m0, h);
      }
    }
    forall l, m | 0 <= l < m < |v'| ensures OtherNumbers(v'[l], v'[m]) {
      forall g, h | g in v'[l] && h in v'[m] ensures g.number != h.number {
        var l0 := FormerLevel(v, level, f, v', l, g);
        var m0 := FormerLevel(v, level, f, v', m, h);
        if g.number == h.number { NumberMeansFile(v, next, l0, g, m0, h); }
      }
    }
    AllNumbers(v', next);
  }

  lemma AllNumbers(v: Version, next: nat)
    requires forall l :: 0 <= l < |v| ==> Numbers(v[l], next)
    requires forall l, m :: 0 <= l < m < |v| ==> OtherNumbers(v[l], v[m])
    ensures WellNumbered(v, next)
  {
  }

  lemma FreshHasNoTwins(base: Level, added: Level, next: nat)
    requires ValidFiles(base) && ValidFiles(added)
    requires forall f :: f in base ==> f.number < next
    requires forall i :: 0 <= i < |added| ==> next <= added[i].number
    ensures NoTwins(base, added)
  {
    forall i, j | 0 <= i < |base| && 0 <= j < |added|
      ensures Smallest(base[i]) != Smallest(added[j]) || base[i].number != added[j].number
    {
      assert base[i] in base;
    }
  }

  lemma LevelIsOrdered(v: Version, l: nat)
    requires ValidVersion(v) && l < kNumLevels
    ensures ValidFiles(v[l]) && OrderedFiles(v[l])
  {
    if l > 0 { SortedIsOrdered(v[l]); }
  }

  lemma EmptyVersion()
    ensures ValidVersion([[], [], [], [], [], [], []])
    ensures Contents([[], [], [], [], [], [], []]) == {}
    ensures WellNumbered([[], [], [], [], [], [], []], 2)
  {
    var v: Version := [[], [], [], [], [], [], []];
    forall l | 0 <= l < kNumLevels ensures v[l] == [] && Content(v[l]) == {} && FileSet(v[l]) == {} {
    }
  }

  /** An entry with the next sequence number enters the memtable above everything else. */
  lemma NewestEntry(mem: seq<Entry>, imm: Option<seq<Entry>>, v: Version, h: History, e: Entry)
    requires SortedEntries(mem) && FromHistory(Elements(mem) + ImmEntries(imm) + Contents(v), h) && e.sn == |h| + 1
    requires Newer(Elements(mem), ImmEntries(imm)) && Newer(Elements(mem) + ImmEntries(imm), Contents(v))
    ensures SortedEntries(InsertEntry(mem, e)) && Elements(InsertEntry(mem, e)) == Elements(mem) + {e}
    ensures Newer(Elements(InsertEntry(mem, e)), ImmEntries(imm))
    ensures Newer(Elements(InsertEntry(mem, e)) + ImmEntries(imm), Contents(v))
  {
    forall x | x in mem ensures IKey(x) != IKey(e) {
      assert x in Elements(mem);
    }
    InsertEntryInserts(mem, e);
  }

  /** What a batch adds to the history, and what one that fails does. */
  ghost function Made(batch: seq<Write>): History { seq(|batch|, i requires 0 <= i < |batch| => Some(batch[i])) }

  ghost function Lost(n: nat): History { seq(n, _ => None) }

  class DB {
    var mem: seq<Entry>
    var imm: Option<seq<Entry>>
    var current: Version
    var lastSequence: nat
    var nextFileNumber: nat
    /** Sequence numbers of the live snapshots, oldest first. */
    var snapshots: seq<nat>

    /** What every sequence number so far went to. */
    ghost var history: History
    /** The largest smallest_snapshot of any compaction so far. */
    ghost var floor: nat

    ghost function Shallow(): set<Entry>
      reads this
    {
      Elements(mem) + ImmEntries(imm)
    }

    ghost function All(): set<Entry>
      reads this
    {
      Shallow() + Contents(current)
    }

    ghost predicate Structured()
      reads this
    {
      && SortedEntries(mem) && (imm.Some? ==> SortedEntries(imm.value))
      && ValidVersion(current) && WellNumbered(current, nextFileNumber)
      && Newer(Elements(mem), ImmEntries(imm))
      && Newer(Shallow(), Contents(current))
    }

    ghost predicate Faithful()
      reads this
    {
      && lastSequence == |history| < kMaxSequenceNumber
      && floor <= |history|
      && FromHistory(All(), history) && Agrees(All(), history, floor)
    }

    ghost predicate SnapshotsAlive()
      reads this
    {
      && (forall i :: 0 <= i < |snapshots| ==> floor <= snapshots[i] <= |history|)
      && forall i, j :: 0 <= i < j < |snapshots| ==> snapshots[i] <= snapshots[j]
    }

    ghost predicate Valid()
      reads this
    {
      Structured() && Faithful() && SnapshotsAlive()
    }

    constructor ()
      ensures Valid() && history == [] && snapshots == [] && floor == 0
    {
      mem, imm, current := [], None, [[], [], [], [], [], [], []];
      lastSequence, nextFileNumber, snapshots := 0, 2, [];
      history, floor := [], 0;
      EmptyVersion();
    }

    /** Get at a live snapshot, or at the last sequence number: memtable, immutable memtable, then
        the version; the answer is the last operation on the key within the snapshot. */
    method Get(k: UserKey, snapshot: Option<nat>) returns (r: Option<Value>)
      requires Valid()
      requires snapshot.Some? ==> snapshot.value in snapshots
      ensures r == LastValue(history, k, if snapshot.Some? then snapshot.value else |history|)
    {
      var s := if snapshot.Some? then snapshot.value else lastSequence;
      var a := RunGet(mem, k, s);
      RunGetAnswers(mem, k, s);
      var b := NotFound;
      if a == NotFound && imm.Some? {
        b := RunGet(imm.value, k, s);
      }
      if imm.Some? { RunGetAnswers(imm.value, k, s); }
      NewerFirst(Elements(mem), ImmEntries(imm), k, s, a, b);
      a := if a == NotFound then b else a;
      var c := NotFound;
      if a == NotFound {
        c := Versions.Get(current, k, s);
      }
      NewerFirst(Shallow(), Contents(current), k, s, a, c);
      a := if a == NotFound then c else a;
      AnswerIsRead(All(), history, k, s, a);
      ReadsAsIsDeterministic(All(), history, k, s, AsRead(a), LastValue(history, k, s));
      r := AsRead(a);
    }

    /** NewIterator at a live snapshot, or at the last sequence number: a cursor over the merged children,
        whose live map pairs each key with its last value within the snapshot. */
    method NewIterator(snapshot: Option<nat>) returns (it: DbIter.DBIter)
      requires Valid()
      requires snapshot.Some? ==> snapshot.value in snapshots
      ensures fresh(it) && fresh(it.iter) && fresh(it.iter.pos) && it.Valid() && !it.valid
      ensures it.sequence == if snapshot.Some? then snapshot.value else |history|
      ensures it.iter.runs == Children(mem, imm, current) && Mergers.MergeOf(it.iter.all, it.iter.runs)
      ensures forall k, v :: (k, v) in it.Live() <==> LastValue(history, k, it.sequence) == Some(v)
    {
      var s := if snapshot.Some? then snapshot.value else lastSequence;
      HistoryNumbersOnce(All(), history);
      ChildrenApart(mem, imm, current);
      ghost var es := MergeExists(Children(mem, imm, current));
      forall k, v ensures (k, v) in DbIter.LiveMap(es, s) <==> LastValue(history, k, s) == Some(v) {
        DbIter.IterationAgreesWithHistory(es, history, floor, s, k, v);
      }
      it := new DbIter.DBIter(Children(mem, imm, current), es, s);
    }

    method GetSnapshot() returns (s: nat)
      requires Valid()
      modifies this`snapshots
      ensures Valid() && s == |history| && snapshots == old(snapshots) + [s]
    {
      s := lastSequence;
      snapshots := snapshots + [s];
    }

    method ReleaseSnapshot(i: nat)
      requires Valid() && i < |snapshots|
      modifies this`snapshots
      ensures Valid() && snapshots == old(snapshots)[..i] + old(snapshots)[i + 1..]
    {
      snapshots := snapshots[..i] + snapshots[i + 1..];
    }

    /** MemTable::Add of one operation under the next sequence number. */
    method Add(w: Write)
      requires Valid() && |history| + 1 < kMaxSequenceNumber
      modifies this`mem, this`lastSequence, this`history
      ensures Valid() && history == old(history) + [Some(w)]
    {
      hide WellNumbered, ValidVersion, Newer, SortedEntries, Agrees, FromHistory, Contents, Elements, InsertEntry;
      var e := Entry(w.key, lastSequence + 1, w.op);
      AppendAgrees(All(), history, floor, w);
      NewestEntry(mem, imm, current, history, e);
      ghost var before := All();
      mem := InsertEntry(mem, e);
      lastSequence := lastSequence + 1;
      history := history + [Some(w)];
      assert All() == before + {e};
    }

    /** Write: a batch takes consecutive sequence numbers, and uses them up even if it cannot be logged. */
    method Write(batch: seq<Write>, logged: bool) returns (ok: bool)
      requires Valid() && |history| + |batch| < kMaxSequenceNumber
      modifies this`mem, this`lastSequence, this`history
      ensures Valid() && ok == logged
      ensures history == old(history) + if ok then Made(batch) else Lost(|batch|)
      ensures !ok ==> mem == old(mem)
    {
      hide WellNumbered, ValidVersion, Newer, SortedEntries;
      ok := logged;
      if !logged {
        for i := 0 to |batch|
          invariant Valid() && history == old(history) + Lost(i) && mem == old(mem)
        {
          LostAgrees(All(), history, floor);
          lastSequence, history := lastSequence + 1, history + [None];
        }
        return;
      }
      for i := 0 to |batch|
        invariant Valid() && history == old(history) + Made(batch[..i])
      {
        Add(batch[i]);
      }
      assert batch[..|batch|] == batch;
    }

    /** MakeRoomForWrite, where it starts a new memtable. */
    method SwitchMemTable()
      requires Valid() && imm == None
      modifies this`mem, this`imm
      ensures Valid() && mem == [] && imm == Some(old(mem))
    {
      imm, mem := Some(mem), [];
      assert All() == old(All());
    }

    /** CompactMemTable: the immutable memtable becomes a table on the level that the base version picks. */
    method CompactMemTable(size: nat)
      requires Valid() && imm.Some?
      modifies this`imm, this`current, this`nextFileNumber
      ensures Valid() && imm == None
      ensures All() == old(All())
    {
      MoreNumbers(current, nextFileNumber);
      hide WellNumbered;
      if imm.value != [] {
        var f := File(nextFileNumber, size, imm.value);
        assert ValidFile(f) by {
          assert forall e :: e in f.entries ==> e in All();
        }
        current := InstallFlush(current, f, nextFileNumber);
      }
      nextFileNumber := nextFileNumber + 1;
      imm := None;
      assert All() == old(All());
    }

    /** The oldest live snapshot, or the last sequence number. */
    ghost function OldestSnapshot(): nat
      reads this
    {
      if snapshots == [] then |history| else snapshots[0]
    }

    /** DoCompactionWork and InstallCompactionResults as one step, for any inputs that the code chooses: the store is still
        in order, and no live reader can tell, exactly when the choice is safe. */
    method Compact(level: nat, in0: Level, in1: Level, lo: UserKey, hi: UserKey,
                   stopBefore: nat -> bool, bigEnough: nat -> bool, sizes: nat -> nat)
      returns (smallest: nat, ghost input: seq<Entry>, ghost outs: Level)
      requires Valid() && level + 1 < kNumLevels
      requires Selected(current, level, in0) && ValidInputs(current, level, in0, in1, lo, hi)
      modifies this`current, this`nextFileNumber, this`floor
      ensures smallest == old(OldestSnapshot()) == floor
      ensures Merged(in0, in1, input) && Survivors(old(current), level, input, smallest, outs)
      ensures Installed(old(current), level, in0, in1, outs, current) && All() <= old(All())
      ensures Valid() <==> SafeChoice(old(current), level, in0, in1, input, smallest, old(All()))
    {
      hide FromHistory, Agrees, SameReads, Newer, UniqueSequences, SortedEntries, ValidVersion, WellNumbered;
      hide Merged, Survivors, Installed, Contents, Elements, ValidInputs, Selected, SafeChoice;
      smallest := if snapshots == [] then lastSequence else snapshots[0];
      ghost var shallow, before := Shallow(), All();
      HistoryNumbersOnce(before, history);
      current, nextFileNumber, input, outs :=
        RunCompaction(current, shallow, nextFileNumber, level, in0, in1, lo, hi, smallest, stopBefore, bigEnough, sizes);
      FewerBelow(shallow, Contents(old(current)), Contents(current));
      AgreesIff(before, shallow + Contents(current), history, floor, smallest);
      floor := smallest;
    }

    /** The trivial move of BackgroundCompaction: one file goes down a level as it is, and nothing else changes. The store
        is still in order exactly when the file's last user key ends with it. */
    method TrivialMove(level: nat, f: File, ghost p: nat)
      requires Valid() && PickedAlone(current, level, p) && f == current[level][p]
      modifies this`current
      ensures All() == old(All())
      ensures Installed(old(current), level, [f], [], [f], current)
      ensures Valid() <==> LastKeyEnds(old(current), level, p)
    {
      hide FromHistory, Agrees, Newer, UniqueSequences, SortedEntries, ValidVersion, WellNumbered, Contents, Elements, Installed;
      hide LastKeyEnds;
      ghost var v := current;
      HistoryNumbersOnce(All(), history);
      FewerOnce(Contents(current), All());
      PickedPlace(v, level, p);
      current := InstallMove(current, nextFileNumber, level, f);
      MoveKeepsContents(v, level, f, current);
      TrivialMoveSafeIff(v, level, p, current);
    }

    lemma ValidIsValid()
      requires Valid()
      ensures ValidVersion(current)
    {
    }

    /** BackgroundCompaction: flush the immutable memtable, if there is one; else make a compaction of the manual request,
        or of what the version asks for, and move its file or do its work. */
    method BackgroundCompaction(manual: Option<Manual>, cause: Option<Cause>, size: nat,
                                stopBefore: nat -> bool, bigEnough: nat -> bool, sizes: nat -> nat)
      returns (work: Work, ghost place: nat, ghost input: seq<Entry>, ghost outs: Level)
      requires Valid()
      requires manual.Some? ==> manual.value.level + 1 < kNumLevels
      requires cause.Some? ==> MayCause(current, cause.value)
      modifies this`imm, this`current, this`nextFileNumber, this`floor
      ensures work.Flushed? <==> old(imm).Some?
      ensures work.Nothing? <==>
                old(imm).None? && if manual.Some? then !Meets(old(current), manual.value.level, manual.value.begin, manual.value.end)
                                  else cause.None?
      ensures work.Nothing? ==> unchanged(this)
      ensures work.Moved? || work.Compacted? ==> work.level == if manual.Some? then manual.value.level else cause.value.level
      ensures work.Flushed? ==> Valid() && imm == None && All() == old(All())
      ensures work.Moved? ==>
                && manual.None? && cause.Some? && PickedAlone(old(current), work.level, place)
                && work.file == old(current)[work.level][place]
                && Installed(old(current), work.level, [work.file], [], [work.file], current)
                && All() == old(All()) && (Valid() <==> LastKeyEnds(old(current), work.level, place))
      ensures work.Compacted? ==>
                && work.level + 1 < kNumLevels && Selected(old(current), work.level, work.in0)
                && Merged(work.in0, work.in1, input)
                && Survivors(old(current), work.level, input, old(OldestSnapshot()), outs)
                && Installed(old(current), work.level, work.in0, work.in1, outs, current)
                && (Valid() <==> SafeChoice(old(current), work.level, work.in0, work.in1, input, old(OldestSnapshot()), old(All())))
    {
      hide *;
      place, input, outs := 0, [], [];
      if imm.Some? {
        CompactMemTable(size);
        return Flushed, place, input, outs;
      }
      ValidIsValid();
      var level: nat, found: bool, in0: Level, in1: Level, lo, hi := 0, false, [], [], 0.0, 0.0;
      if manual.Some? {
        level := manual.value.level;
        found, in0, in1, lo, hi := CompactRange(current, level, manual.value.begin, manual.value.end);
      } else if cause.Some? {
        ghost var p;
        level, found := cause.value.level, true;
        p, in0, in1, lo, hi := PickCompaction(current, cause.value);
      }
      if !found {
        return Nothing, place, input, outs;
      }
      ChosenFiles(current, level, in0, in1, lo, hi);
      var trivial := IsTrivialMove(current, level, in0, in1);
      if manual.None? && trivial {
        place := SingleIsPickedAlone(current, level, in0, lo, hi);
        TrivialMove(level, in0[0], place);
        return Moved(level, in0[0]), place, input, outs;
      }
      var smallest;
      smallest, input, outs := Compact(level, in0, in1, lo, hi, stopBefore, bigEnough, sizes);
      work := Compacted(level, in0, in1);
    }
  }

  /** What a background compaction can be asked for, and what it can do. */
  datatype Manual = Manual(level: nat, begin: Bound, end: Bound)
  datatype Work = Nothing | Flushed | Moved(level: nat, file: File) | Compacted(level: nat, in0: Level, in1: Level)

  /** Whether reads from the smallest snapshot on stay as they were decides whether they still agree with the history. */
  lemma AgreesIff(before: set<Entry>, after: set<Entry>, h: History, floor: nat, smallest: nat)
    requires FromHistory(before, h) && Agrees(before, h, floor) && after <= before && floor <= smallest <= |h|
    ensures FromHistory(after, h)
    ensures Agrees(after, h, smallest) <==> forall k, s :: s >= smallest ==> SameReads(before, after, k, s)
  {
    hide FromHistory, SameReads, ReadsAs;
    assert FromHistory(after, h) by { FewerFromHistory(before, after, h); }
    if Agrees(after, h, smallest) {
      forall k, s: nat | s >= smallest ensures SameReads(before, after, k, s) {
        var t := if s <= |h| then s else |h|;
        assert ReadsAs(after, k, t, LastValue(h, k, t)) && ReadsAs(before, k, t, LastValue(h, k, t));
        OneAnswer(before, after, h, k, t, LastValue(h, k, t));
        SameBeyond(before, after, h, k, t, s);
      }
    }
    if forall k, s :: s >= smallest ==> SameReads(before, after, k, s) {
      forall k, s: nat | smallest <= s <= |h| ensures ReadsAs(after, k, s, LastValue(h, k, s)) {
        assert SameReads(before, after, k, s) && ReadsAs(before, k, s, LastValue(h, k, s));
        SameMeans(before, after, k, s, LastValue(h, k, s));
      }
    }
  }

  lemma FewerFromHistory(before: set<Entry>, after: set<Entry>, h: History)
    requires FromHistory(before, h) && after <= before
    ensures FromHistory(after, h)
  {
  }

  lemma SameMeans(a: set<Entry>, b: set<Entry>, k: UserKey, s: nat, r: Option<Value>)
    requires SameReads(a, b, k, s) && ReadsAs(a, k, s, r)
    ensures ReadsAs(b, k, s, r)
  {
    hide ReadsAs;
  }

  lemma OneAnswer(a: set<Entry>, b: set<Entry>, h: History, k: UserKey, s: nat, r: Option<Value>)
    requires FromHistory(a, h) && FromHistory(b, h) && ReadsAs(a, k, s, r) && ReadsAs(b, k, s, r)
    ensures SameReads(a, b, k, s)
  {
    hide FromHistory, ReadsAs;
    forall q ensures ReadsAs(a, k, s, q) <==> ReadsAs(b, k, s, q) {
      if ReadsAs(a, k, s, q) { ReadsAsIsDeterministic(a, h, k, s, r, q); }
      if ReadsAs(b, k, s, q) { ReadsAsIsDeterministic(b, h, k, s, r, q); }
    }
  }

  /** Nothing is newer than the history. */
  lemma SameBeyond(a: set<Entry>, b: set<Entry>, h: History, k: UserKey, t: nat, s: nat)
    requires FromHistory(a, h) && FromHistory(b, h) && SameReads(a, b, k, t) && (s == t || (t == |h| && s > t))
    ensures SameReads(a, b, k, s)
  {
    hide ReadsAs;
    forall q ensures ReadsAs(a, k, s, q) <==> ReadsAs(b, k, s, q) {
      if ReadsAs(a, k, s, q) {
        SameCandidates(a, a, k, s, t, q);
        SameCandidates(b, b, k, t, s, q);
      }
      if ReadsAs(b, k, s, q) {
        SameCandidates(b, b, k, s, t, q);
        SameCandidates(a, a, k, t, s, q);
      }
    }
  }

  lemma MovedNumber(v: Version, next: nat, level: nat, f: File)
    requires ValidVersion(v) && WellNumbered(v, next) && level + 1 < |v| && f in v[level]
    ensures forall g :: g in v[level] && g.number == f.number ==> g == f
    ensures ValidFiles([f]) && OrderedFiles([f]) && NoTwins(v[level + 1], [f])
  {
    hide ValidFile;
    LevelNumbers(v, next, level);
    forall g | g in v[level] && g.number == f.number ensures g == f { NumberMeansFile(v, next, level, g, level, f); }
    assert OtherNumbers(v[level], v[level + 1]);
    var below := v[level + 1];
    forall i | 0 <= i < |below| ensures below[i].number != f.number {
      assert below[i] in v[level + 1];
    }
    var p :| 0 <= p < |v[level]| && v[level][p] == f;
  }

  lemma SavedMove(v: Version, level: nat, f: File, upper: Level, lower: Level)
    requires level + 1 < |v| && f in v[level] && forall g :: g in v[level] && g.number == f.number ==> g == f
    requires Saved(v[level], {f.number}, [], upper) && Saved(v[level + 1], {}, [f], lower)
    ensures var v' := v[level := upper][level + 1 := lower];
            Installed(v, level, [f], [], [f], v') && WellListed(v', level)
  {
    hide Listed, OrderedFiles, ValidFiles;
  }

  /** The edit of a trivial move: the file is deleted on its level and added on the next one. */
  method InstallMove(v: Version, next: nat, level: nat, f: File) returns (v': Version)
    requires ValidVersion(v) && WellNumbered(v, next) && level + 1 < kNumLevels == |v| && f in v[level]
    ensures Installed(v, level, [f], [], [f], v') && WellListed(v', level)
    ensures WellNumbered(v', next)
  {
    hide *;
    LevelIsOrdered(v, level);
    LevelIsOrdered(v, level + 1);
    MovedNumber(v, next, level, f);
    NothingHasNoTwins(v[level]);
    var upper := SaveLevel(v[level], {f.number}, []);
    var lower := SaveLevel(v[level + 1], {}, [f]);
    v' := v[level := upper][level + 1 := lower];
    SavedMove(v, level, f, upper, lower);
    MoveKeepsNumbers(v, next, level, f, v');
  }

  /** A history numbers each operation once. */
  lemma HistoryNumbersOnce(es: set<Entry>, h: History)
    requires FromHistory(es, h)
    ensures UniqueSequences(es)
  {
  }

  lemma FewerOnce(a: set<Entry>, b: set<Entry>)
    requires UniqueSequences(b) && a <= b
    ensures UniqueSequences(a)
  {
  }

  lemma FewerBelow(a: set<Entry>, b: set<Entry>, b': set<Entry>)
    requires Newer(a, b) && b' <= b
    ensures Newer(a, b')
  {
  }

  /** WriteLevel0Table and the version edit that follows it. */
  method InstallFlush(v: Version, f: File, next: nat) returns (v': Version)
    requires ValidVersion(v) && WellNumbered(v, next) && ValidFile(f) && f.number == next
    requires Newer(Elements(f.entries), Contents(v))
    ensures ValidVersion(v') && WellNumbered(v', next + 1)
    ensures Contents(v') == Contents(v) + Elements(f.entries)
  {
    hide WellNumbered;
    var level := PickLevelForMemTableOutput(v, Smallest(f).user, Largest(f).user);
    LevelNumbers(v, next, 0);
    assert MayEnter(v, f, level) by {
      assert forall i :: 0 <= i < |v[0]| ==> v[0][i] in v[0];
    }
    LevelNumbers(v, next, level);
    FreshHasNoTwins(v[level], [f], next);
    LevelIsOrdered(v, level);
    var files := SaveLevel(v[level], {}, [f]);
    v' := v[level := files];
    FreshKeepsNumbers(v, next, level, [f], v', next + 1);
    FlushKeepsVersionValid(v, f, level, v');
  }

  /** Numbers of the input files, for the deletions of the version edit. */
  function NumbersIn(files: Level): set<nat> { set f | f in files :: f.number }

  /** The edit of a compaction: both levels saved with their inputs deleted and the outputs added. */
  method InstallCompaction(v: Version, next: nat, level: nat, in0: Level, in1: Level, outs: Level) returns (v': Version)
    requires ValidVersion(v) && WellNumbered(v, next) && level + 1 < kNumLevels
    requires (forall f :: f in in0 ==> f in v[level]) && (forall f :: f in in1 ==> f in v[level + 1])
    requires ValidOutputs(in0, in1, outs)
    requires forall i :: 0 <= i < |outs| ==> outs[i].number == next + i
    ensures Installed(v, level, in0, in1, outs, v') && WellListed(v', level)
    ensures WellNumbered(v', next + |outs|)
  {
    assert |v| == kNumLevels && ValidFiles(outs) && SortedFiles(outs);
    hide *;
    LevelIsOrdered(v, level);
    LevelIsOrdered(v, level + 1);
    SortedIsOrdered(outs);
    LevelNumbers(v, next, level);
    LevelNumbers(v, next, level + 1);
    FreshHasNoTwins(v[level + 1], outs, next);
    NothingHasNoTwins(v[level]);
    var upper := SaveLevel(v[level], NumbersIn(in0), []);
    var lower := SaveLevel(v[level + 1], NumbersIn(in1), outs);
    InputNumbersAreOld(v, level + 1, in1, next, outs);
    SavedCompaction(v, next, level, in0, in1, outs, upper, lower);
    v' := v[level := upper][level + 1 := lower];
  }

  lemma NothingHasNoTwins(files: Level)
    requires ValidFiles(files)
    ensures ValidFiles([]) && OrderedFiles([]) && NoTwins(files, [])
  {
  }

  lemma SavedCompaction(v: Version, next: nat, level: nat, in0: Level, in1: Level, outs: Level, upper: Level, lower: Level)
    requires WellNumbered(v, next) && level + 1 < |v|
    requires (forall f :: f in in0 ==> f in v[level]) && (forall f :: f in in1 ==> f in v[level + 1])
    requires forall i :: 0 <= i < |outs| ==> outs[i].number == next + i
    requires forall f :: f in outs ==> f.number !in NumbersIn(in1)
    requires Saved(v[level], NumbersIn(in0), [], upper) && Saved(v[level + 1], NumbersIn(in1), outs, lower)
    ensures var v' := v[level := upper][level + 1 := lower];
            Installed(v, level, in0, in1, outs, v') && WellListed(v', level) && WellNumbered(v', next + |outs|)
  {
    LevelNumbers(v, next, level);
    LevelNumbers(v, next, level + 1);
    hide WellNumbered, ValidFiles, OrderedFiles;
    assert NumbersIn(in0) == NumbersOf(FileSet(in0)) && NumbersIn(in1) == NumbersOf(FileSet(in1));
    DeletedByNumber(v[level], in0, NumbersIn(in0));
    DeletedByNumber(v[level + 1], in1, NumbersIn(in1));
    FreshKeepsNumbers(v, next, level + 1, outs, v[level := upper][level + 1 := lower], next + |outs|);
  }

  lemma InputNumbersAreOld(v: Version, l: nat, inputs: Level, next: nat, outs: Level)
    requires WellNumbered(v, next) && l < |v| && forall f :: f in inputs ==> f in v[l]
    requires forall i :: 0 <= i < |outs| ==> outs[i].number == next + i
    ensures forall f :: f in outs ==> f.number !in NumbersIn(inputs)
  {
  }

  lemma ChosenFiles(v: Version, level: nat, in0: Level, in1: Level, lo: UserKey, hi: UserKey)
    requires ValidVersion(v) && level + 1 < kNumLevels && Selected(v, level, in0) && ValidInputs(v, level, in0, in1, lo, hi)
    ensures in0 != [] && ValidFiles(in0) && ValidFiles(in1)
  {
    forall i | 0 <= i < |in1| ensures ValidFile(in1[i]) {
      assert in1[i] in in1;
      var j :| 0 <= j < |v[level + 1]| && v[level + 1][j] == in1[i];
    }
  }

  lemma InputsAreThere(v: Version, level: nat, in0: Level, in1: Level, lo: UserKey, hi: UserKey)
    requires ValidVersion(v) && level + 1 < kNumLevels && Selected(v, level, in0) && ValidInputs(v, level, in0, in1, lo, hi)
    ensures |v| == kNumLevels && in0 != []
    ensures (forall f :: f in in0 ==> f in v[level]) && (forall f :: f in in1 ==> f in v[level + 1])
    ensures level == 0 ==> NoSharedKeys(Content(in0), RestContent(v[0], in0))
    ensures level > 0 ==> Together(v[level], in0)
  {
  }

  lemma InputIsMerged(in0: Level, in1: Level, input: seq<Entry>)
    requires SortedEntries(input) && Elements(input) == Content(in0 + in1) && Content(in0 + in1) == Content(in0) + Content(in1)
    ensures Merged(in0, in1, input)
  {
  }

  lemma PickedPlace(v: Version, level: nat, p: nat)
    requires ValidVersion(v) && PickedAlone(v, level, p)
    ensures level + 1 < kNumLevels == |v| && p < |v[level]| && v[level][p] in v[level]
  {
  }

  method RunCompaction(v: Version, ghost shallow: set<Entry>, next: nat, level: nat, in0: Level, in1: Level,
                       lo: UserKey, hi: UserKey, smallest: nat,
                       stopBefore: nat -> bool, bigEnough: nat -> bool, sizes: nat -> nat)
    returns (v': Version, next': nat, ghost merged: seq<Entry>, ghost installed: Level)
    requires ValidVersion(v) && WellNumbered(v, next) && smallest < kMaxSequenceNumber
    requires Newer(shallow, Contents(v)) && UniqueSequences(shallow + Contents(v))
    requires level + 1 < kNumLevels && Selected(v, level, in0) && ValidInputs(v, level, in0, in1, lo, hi)
    ensures WellNumbered(v', next')
    ensures Merged(in0, in1, merged) && Survivors(v, level, merged, smallest, installed)
    ensures Installed(v, level, in0, in1, installed, v')
    ensures Contents(v') <= Contents(v)
    ensures ValidVersion(v') && (forall k, s :: s >= smallest ==> SameReads(shallow + Contents(v), shallow + Contents(v'), k, s))
            <==> SafeChoice(v, level, in0, in1, merged, smallest, shallow + Contents(v))
  {
    hide *;
    FewerOnce(Contents(v), shallow + Contents(v));
    InputsAreThere(v, level, in0, in1, lo, hi);
    InputFacts(v, level, in0, in1);
    var input := MergeInputs(in0 + in1);
    var c := new Compaction(v, level);
    var outputs := DoCompactionWork(c, input, smallest, seq(|input|, (i: nat) => stopBefore(i)), seq(|input|, (i: nat) => bigEnough(i)));
    var outs := NumberFiles(outputs, next, sizes);
    InputIsMerged(in0, in1, input);
    InputSequences(v, level, in0, in1, input);
    OutputsAreValid(v, level, in0, in1, input, smallest, outputs, next, sizes);
    v' := InstallCompaction(v, next, level, in0, in1, outs);
    next', merged, installed := next + |outs|, input, outs;
    OutputContent(in0, in1, outs);
    AfterIsSubset(v, level, in0, in1, outs, v');
    IsMerging(v, level, in0, in1, lo, hi, input, smallest, outs, v');
    SafeChoiceIff(v, level, in0, in1, lo, hi, input, smallest, outs, v', shallow);
  }

  lemma IsMerging(v: Version, level: nat, in0: Level, in1: Level, lo: UserKey, hi: UserKey, input: seq<Entry>,
                  smallest: nat, outs: Level, v': Version)
    requires ValidVersion(v) && UniqueSequences(Contents(v)) && ValidInputs(v, level, in0, in1, lo, hi)
    requires level == 0 ==> NoSharedKeys(Content(in0), RestContent(v[0], in0))
    requires Merged(in0, in1, input) && Survivors(v, level, input, smallest, outs) && Installed(v, level, in0, in1, outs, v')
    ensures Merging(v, level, in0, in1, lo, hi, input, smallest, outs, v')
  {
  }

  lemma OutputContent(in0: Level, in1: Level, outs: Level)
    requires ValidOutputs(in0, in1, outs)
    ensures Content(outs) <= Content(in0) + Content(in1)
  {
    forall e | e in Content(outs) ensures e in Content(in0) + Content(in1) {
      var f :| f in outs && e in f.entries;
      assert e in Elements(f.entries);
    }
  }

  lemma InputFacts(v: Version, level: nat, in0: Level, in1: Level)
    requires ValidVersion(v) && UniqueSequences(Contents(v)) && level + 1 < kNumLevels
    requires (forall f :: f in in0 ==> f in v[level]) && (forall f :: f in in1 ==> f in v[level + 1])
    ensures ValidFiles(in0 + in1) && Content(in0 + in1) == Content(in0) + Content(in1)
    ensures UniqueSequences(Content(in0 + in1))
  {
    var all := in0 + in1;
    forall i | 0 <= i < |all| ensures ValidFile(all[i]) {
      var l := if i < |in0| then level else level + 1;
      assert all[i] in (if i < |in0| then in0 else in1);
      var j :| 0 <= j < |v[l]| && v[l][j] == all[i];
    }
    assert Content(all) <= Contents(v) by {
      forall e | e in Content(all) ensures e in Contents(v) { InputsAreContents(v, level, in0, in1, e); }
    }
  }

  lemma InputSequences(v: Version, level: nat, in0: Level, in1: Level, input: seq<Entry>)
    requires ValidFiles(in0 + in1) && Elements(input) == Content(in0 + in1)
    ensures forall e :: e in input ==> e.sn <= kMaxSequenceNumber
  {
    forall e | e in input ensures e.sn <= kMaxSequenceNumber {
      assert e in Elements(input);
      var f :| f in in0 + in1 && e in f.entries;
      var i :| 0 <= i < |in0 + in1| && (in0 + in1)[i] == f;
    }
  }
}
