/**
 The compaction of the level files and the compaction step of the crash protocol
 are one: what DoCompactionWork leaves out is what the protocol lets a compaction
 leave out.
 */
module CrashCompactions {
  import opened Basics
  import opened Keys
  import opened Versions
  import opened Compactions
  import opened Stretches
  import opened Picking
  import opened Boundaries
  import opened Builders
  import opened Disks
  import opened CrashSafety

  ghost function Files(v: Version): set<File> { set l, f | l in v && f in l :: f }

  ghost function Numbers(fs: set<File>): set<nat> { set f | f in fs :: f.number }

  ghost function Held(fs: set<File>): set<Entry> { set f, e | f in fs && e in f.entries :: e }

  /** No file is on two levels. */
  ghost predicate OnOneLevel(v: Version) {
    forall l, m, f :: 0 <= l < |v| && 0 <= m < |v| && f in v[l] && f in v[m] ==> l == m
  }

  ghost predicate Stored(d: Disk, f: File) { f.number in d.tables && d.tables[f.number].entries == Elements(f.entries) }

  /** The live tables of the disk are these files. */
  ghost predicate OnDisk(d: Disk, fs: set<File>, live: set<nat>) {
    Identified(fs) && live == Numbers(fs) && forall f :: f in fs ==> Stored(d, f)
  }

  lemma ContentsAreHeld(v: Version)
    ensures Contents(v) == Held(Files(v))
  {
  }

  lemma TablesHold(d: Disk, fs: set<File>, live: set<nat>)
    requires OnDisk(d, fs, live)
    ensures TableEntries(d, live) == Held(fs)
  {
    forall e | e in TableEntries(d, live) ensures e in Held(fs) {
      var n :| n in live && n in d.tables && e in d.tables[n].entries;
      var f :| f in fs && f.number == n;
      assert Stored(d, f);
      assert e in Elements(f.entries);
    }
    forall e | e in Held(fs) ensures e in TableEntries(d, live) {
      var f :| f in fs && e in f.entries;
      assert Stored(d, f) && f.number in live;
      assert e in Elements(f.entries);
    }
  }

  lemma PartOnDisk(d: Disk, fs: set<File>, live: set<nat>, part: set<File>)
    requires OnDisk(d, fs, live) && part <= fs
    ensures OnDisk(d, part, Numbers(part)) && OnDisk(d, fs - part, live - Numbers(part))
  {
    forall n | n in live - Numbers(part) ensures n in Numbers(fs - part) {
      var f :| f in fs && f.number == n;
      assert f in fs - part;
    }
    forall n | n in Numbers(fs - part) ensures n in live - Numbers(part) {
      var f :| f in fs - part && f.number == n;
      assert forall g :: g in part ==> g.number != n;
    }
  }

  ghost function InputFiles(in0: Level, in1: Level): set<File> { FileSet(in0) + FileSet(in1) }

  /** The output tables by number. */
  ghost function Tables(fs: set<File>): map<nat, set<Entry>> {
    map n | n in Numbers(fs) :: Held(set f | f in fs && f.number == n)
  }

  lemma TablesHoldFiles(fs: set<File>)
    ensures (set n, e | n in Tables(fs) && e in Tables(fs)[n] :: e) == Held(fs)
  {
    forall e | e in Held(fs) ensures e in set n, e | n in Tables(fs) && e in Tables(fs)[n] :: e {
      var f :| f in fs && e in f.entries;
      assert f.number in Numbers(fs) && f in set g | g in fs && g.number == f.number;
      assert e in Tables(fs)[f.number];
    }
  }

  lemma FilesInstalled(v: Version, level: nat, in0: Level, in1: Level, outs: Level, v': Version)
    requires OnOneLevel(v) && Installed(v, level, in0, in1, outs, v')
    requires (forall g :: g in in0 ==> g in v[level]) && (forall g :: g in in1 ==> g in v[level + 1])
    ensures InputFiles(in0, in1) <= Files(v)
    ensures Files(v') - FileSet(outs) <= Files(v) - InputFiles(in0, in1) <= Files(v')
    ensures FileSet(outs) <= Files(v')
  {
    forall f | f in Files(v') && f !in FileSet(outs) ensures f in Files(v) - InputFiles(in0, in1) {
      var k :| k in v' && f in k;
      var l :| 0 <= l < |v'| && v'[l] == k;
      assert f in v[l] && v[l] in v;
    }
    forall f | f in Files(v) - InputFiles(in0, in1) ensures f in Files(v') {
      var k :| k in v && f in k;
      var l :| 0 <= l < |v| && v[l] == k;
      assert f in v'[l] && v'[l] in v';
    }
    assert v'[level + 1] in v' && v[level] in v && v[level + 1] in v;
  }

  lemma HeldTogether(a: set<File>, b: set<File>)
    ensures Held(a + b) == Held(a) + Held(b)
  {
  }

  /** The new version's contents are the remaining tables and the outputs. */
  lemma ReplacedIsNewVersion(d: Disk, v: Version, live: set<nat>, level: nat, in0: Level, in1: Level, outs: Level, v': Version)
    requires OnDisk(d, Files(v), live) && OnOneLevel(v) && Installed(v, level, in0, in1, outs, v')
    requires (forall g :: g in in0 ==> g in v[level]) && (forall g :: g in in1 ==> g in v[level + 1])
    ensures Replaced(d, live, Numbers(InputFiles(in0, in1)), Tables(FileSet(outs))) == Contents(v')
  {
    FilesInstalled(v, level, in0, in1, outs, v');
    var fs, ins, os := Files(v), InputFiles(in0, in1), FileSet(outs);
    hide Installed, OnOneLevel, Contents, Held, OnDisk, Numbers, Files, FileSet, InputFiles, Tables, TableEntries;
    PartOnDisk(d, fs, live, ins);
    TablesHold(d, fs - ins, live - Numbers(ins));
    TablesHoldFiles(os);
    HeldTogether(fs - ins, os);
    assert fs - ins + os == Files(v');
    ContentsAreHeld(v');
  }

  lemma OutputsAreInputs(v: Version, level: nat, in0: Level, in1: Level, input: seq<Entry>, smallest: nat, outs: Level)
    requires ValidVersion(v) && Merged(in0, in1, input) && Survivors(v, level, input, smallest, outs)
    ensures Held(FileSet(outs)) <= Held(InputFiles(in0, in1))
  {
    forall e | e in Held(FileSet(outs)) ensures e in Held(InputFiles(in0, in1)) {
      assert e in Content(outs);
      assert e in Elements(input);
      assert e in Content(in0) || e in Content(in1);
    }
  }

  /**
   What the code chooses to compact, of a version that is on disk, may be built in the crash protocol, entries left out
   and all, exactly when no reader from the smallest live snapshot on can tell.
   */
  lemma CompactionMayBeBuilt(s: State, v: Version, level: nat, in0: Level, in1: Level, lo: UserKey, hi: UserKey,
                             input: seq<Entry>, smallest: nat, outs: Level, v': Version, next: nat)
    requires s.proc.Up? && !s.proc.failed && s.proc.job == Idle && OnDisk(s.disk, Files(v), s.proc.live) && OnOneLevel(v)
    requires ValidVersion(v) && UniqueSequences(Contents(v)) && level + 1 < kNumLevels
    requires Selected(v, level, in0) && ValidInputs(v, level, in0, in1, lo, hi)
    requires Merged(in0, in1, input) && Survivors(v, level, input, smallest, outs) && Installed(v, level, in0, in1, outs, v')
    requires s.proc.next <= next && forall f :: f in outs ==> s.proc.next <= f.number < next
    ensures CanBuildCompaction(s, Numbers(InputFiles(in0, in1)), Tables(FileSet(outs)), next, smallest)
            <==> UnseenChoice(v, level, in0, in1, input, smallest, Contents(v))
  {
    FilesInstalled(v, level, in0, in1, outs, v');
    ReplacedIsNewVersion(s.disk, v, s.proc.live, level, in0, in1, outs, v');
    OutputsAreInputs(v, level, in0, in1, input, smallest, outs);
    OutputNumbers(outs, s.proc.next, next);
    ContentsAreHeld(v);
    hide ValidVersion, Selected, Merged, Survivors, Installed, ValidInputs, OnOneLevel, Contents, UniqueSequences, UnseenChoice;
    BuildConditions(s, Files(v), InputFiles(in0, in1), FileSet(outs));
    ReadsStayAlikeIff(v, level, in0, in1, lo, hi, input, smallest, outs, v');
    hide ReadAlike, Replaced, TableEntries, OnDisk, Files, InputFiles, FileSet, Numbers, Tables;
  }

  lemma ReadsStayAlikeIff(v: Version, level: nat, in0: Level, in1: Level, lo: UserKey, hi: UserKey,
                          input: seq<Entry>, smallest: nat, outs: Level, v': Version)
    requires ValidVersion(v) && UniqueSequences(Contents(v)) && level + 1 < kNumLevels
    requires Selected(v, level, in0) && ValidInputs(v, level, in0, in1, lo, hi)
    requires Merged(in0, in1, input) && Survivors(v, level, input, smallest, outs) && Installed(v, level, in0, in1, outs, v')
    ensures ReadAlike(Contents(v), Contents(v'), smallest) <==> UnseenChoice(v, level, in0, in1, input, smallest, Contents(v))
  {
    assert {} + Contents(v) == Contents(v) && {} + Contents(v') == Contents(v');
    assert Merging(v, level, in0, in1, lo, hi, input, smallest, outs, v');
    hide ValidVersion, Merged, Merging, Survivors, Installed, ValidInputs, Contents, UniqueSequences, SameReads, UnseenChoice, Together;
    UnseenChoiceIff(v, level, in0, in1, lo, hi, input, smallest, outs, v', {});
  }

  lemma OutputNumbers(outs: Level, from: nat, to: nat)
    requires forall f :: f in outs ==> from <= f.number < to
    ensures forall n :: n in Tables(FileSet(outs)) ==> from <= n < to
  {
  }

  lemma BuildConditions(s: State, fs: set<File>, ins: set<File>, os: set<File>)
    requires s.proc.Up? && OnDisk(s.disk, fs, s.proc.live) && ins <= fs && Held(os) <= Held(ins)
    ensures TableEntries(s.disk, s.proc.live) == Held(fs) && Numbers(ins) <= s.proc.live
    ensures forall n :: n in Tables(os) ==> Tables(os)[n] <= TableEntries(s.disk, Numbers(ins))
  {
    TablesHold(s.disk, fs, s.proc.live);
    PartOnDisk(s.disk, fs, s.proc.live, ins);
    TablesHold(s.disk, ins, Numbers(ins));
    hide TableEntries;
    forall n | n in Tables(os) ensures Tables(os)[n] <= Held(ins) {
      forall e | e in Tables(os)[n] ensures e in Held(os) {
      }
    }
  }

  /** Once the edit is installed the new version is on disk, under the live numbers. */
  lemma CompactionStaysOnDisk(d: Disk, v: Version, live: set<nat>, level: nat, in0: Level, in1: Level, outs: Level, v': Version,
                              next: nat, d': Disk)
    requires OnDisk(d, Files(v), live) && OnOneLevel(v) && Installed(v, level, in0, in1, outs, v')
    requires (forall g :: g in in0 ==> g in v[level]) && (forall g :: g in in1 ==> g in v[level + 1])
    requires (forall n :: n in live ==> n < next) && (forall f :: f in outs ==> f.number >= next) && Identified(FileSet(outs))
    requires forall n :: n in d.tables && n < next ==> n in d'.tables && d'.tables[n] == d.tables[n]
    requires forall n :: n in Tables(FileSet(outs)) ==> n in d'.tables && d'.tables[n] == TableFile(Tables(FileSet(outs))[n], true)
    ensures OnDisk(d', Files(v'), live - Numbers(InputFiles(in0, in1)) + Tables(FileSet(outs)).Keys)
  {
    FilesInstalled(v, level, in0, in1, outs, v');
    var fs, ins, os := Files(v), InputFiles(in0, in1), FileSet(outs);
    assert forall f :: f in os ==> f.number >= next;
    hide Installed, OnOneLevel, Files, FileSet, InputFiles;
    PartOnDisk(d, fs, live, ins);
    OutputsOnDisk(d', os);
    assert Files(v') == fs - ins + os;
    BothOnDisk(d, d', fs - ins, live - Numbers(ins), os, next);
  }

  lemma OutputsOnDisk(d: Disk, os: set<File>)
    requires Identified(os) && forall n :: n in Tables(os) ==> n in d.tables && d.tables[n] == TableFile(Tables(os)[n], true)
    ensures OnDisk(d, os, Numbers(os))
  {
    forall f | f in os ensures Stored(d, f) {
      assert f.number in Tables(os);
      assert (set g | g in os && g.number == f.number) == {f};
      assert Held({f}) == Elements(f.entries);
    }
  }

  lemma BothOnDisk(d: Disk, d': Disk, a: set<File>, live: set<nat>, b: set<File>, next: nat)
    requires OnDisk(d, a, live) && OnDisk(d', b, Numbers(b))
    requires (forall n :: n in live ==> n < next) && forall f :: f in b ==> f.number >= next
    requires forall n :: n in d.tables && n < next ==> n in d'.tables && d'.tables[n] == d.tables[n]
    ensures OnDisk(d', a + b, live + Numbers(b))
  {
    forall f | f in a ensures Stored(d', f) && f.number < next {
      assert Stored(d, f) && f.number in live;
    }
    assert forall f :: f in b ==> Stored(d', f);
    assert Identified(a + b) by { hide Stored; }
  }
}
