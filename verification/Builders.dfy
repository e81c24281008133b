/**
 VersionSet::Builder: accumulating version edits and saving a new version, and
 why replaying a manifest gives the version that the live process had.
 */
module Builders {
  import opened Basics
  import opened Keys
  import opened Versions

  /** The file changes of a version edit. */
  datatype VersionEdit = VersionEdit(deleted: set<(nat, nat)>, added: seq<(nat, File)>)

  ghost predicate ValidEdit(e: VersionEdit) {
    && (forall d :: d in e.deleted ==> d.0 < kNumLevels)
    && forall i :: 0 <= i < |e.added| ==> e.added[i].0 < kNumLevels && ValidFile(e.added[i].1)
  }

  /** No two files have both their smallest key and their number in common. */
  ghost predicate NoTwins(a: Level, b: Level)
    requires ValidFiles(a) && ValidFiles(b)
  {
    forall i, j :: 0 <= i < |a| && 0 <= j < |b| ==> Smallest(a[i]) != Smallest(b[j]) || a[i].number != b[j].number
  }

  // ---------------------------------------------------------------------------
  // The set of added files, ordered by smallest key
  // ---------------------------------------------------------------------------

  /** std::set insert: an equivalent element that is already there stays. */
  function InsertFile(fs: Level, f: File): Level
    requires |f.entries| > 0 && forall i :: 0 <= i < |fs| ==> |fs[i].entries| > 0
  {
    if fs == [] || BySmallestKey(f, fs[0]) then [f] + fs
    else if BySmallestKey(fs[0], f) then [fs[0]] + InsertFile(fs[1..], f)
    else fs
  }

  /** A file number identifies a file. */
  ghost predicate Identified(fs: set<File>) {
    forall f, g :: f in fs && g in fs && f.number == g.number ==> f == g
  }

  ghost function FileSet(fs: Level): (r: set<File>) { set f | f in fs }

  ghost predicate NewOrSame(fs: Level, f: File) {
    forall i :: 0 <= i < |fs| && fs[i].number == f.number ==> fs[i] == f
  }

  ghost predicate Listed(fs: Level) { ValidFiles(fs) && OrderedFiles(fs) }

  lemma {:induction false} InsertFileInserts(fs: Level, f: File)
    requires Listed(fs) && ValidFile(f) && NewOrSame(fs, f)
    ensures Listed(InsertFile(fs, f))
    ensures FileSet(InsertFile(fs, f)) == FileSet(fs) + {f}
  {
    if fs == [] || BySmallestKey(f, fs[0]) {
      PrependOrdered(f, fs);
    } else if BySmallestKey(fs[0], f) {
      var rest := fs[1..];
      InsertFileInserts(rest, f);
      InsertAfter(fs, f, InsertFile(rest, f));
    } else {
      assert fs[0] == f;
    }
  }

  lemma InsertAfter(fs: Level, f: File, t: Level)
    requires ValidFiles(fs) && OrderedFiles(fs) && fs != [] && ValidFile(f) && BySmallestKey(fs[0], f)
    requires ValidFiles(t) && OrderedFiles(t) && FileSet(t) == FileSet(fs[1..]) + {f}
    ensures ValidFiles([fs[0]] + t) && OrderedFiles([fs[0]] + t)
    ensures FileSet([fs[0]] + t) == FileSet(fs) + {f}
  {
    assert fs == [fs[0]] + fs[1..];
    forall i | 0 <= i < |t| ensures BySmallestKey(fs[0], t[i]) {
      assert t[i] in FileSet(t);
      if t[i] != f { var j :| 0 <= j < |fs[1..]| && fs[1..][j] == t[i]; }
    }
    PrependOrdered(fs[0], t);
  }

  lemma PrependOrdered(f: File, fs: Level)
    requires ValidFile(f) && ValidFiles(fs) && OrderedFiles(fs)
    requires (forall i :: 0 <= i < |fs| ==> BySmallestKey(f, fs[i])) || (fs != [] && BySmallestKey(f, fs[0]))
    ensures ValidFiles([f] + fs) && OrderedFiles([f] + fs)
    ensures FileSet([f] + fs) == FileSet(fs) + {f}
  {
    forall i | 0 <= i < |fs| ensures BySmallestKey(f, fs[i]) {
      if i > 0 { assert BySmallestKey(fs[0], fs[i]); }
    }
  }

  // ---------------------------------------------------------------------------
  // SaveTo for one level
  // ---------------------------------------------------------------------------

  /** r lists, by smallest key, the files of base and added whose numbers are not deleted. */
  ghost predicate Saved(base: Level, deleted: set<nat>, added: Level, r: Level) {
    && ValidFiles(r) && OrderedFiles(r)
    && forall f :: f in r <==> (f in base || f in added) && f.number !in deleted
  }

  /** r holds the files of both lists whose numbers are not deleted. */
  ghost predicate Taken(a: Level, b: Level, deleted: set<nat>, r: Level) {
    forall f :: f in r <==> (f in a || f in b) && f.number !in deleted
  }

  ghost predicate AllBefore(r: Level, fs: Level, i: nat)
    requires ValidFiles(r) && ValidFiles(fs)
  {
    forall p, q :: 0 <= p < |r| && i <= q < |fs| ==> BySmallestKey(r[p], fs[q])
  }

  /** What the merge has written when it stands before base[i] and added[j]. */
  ghost predicate Saving(base: Level, deleted: set<nat>, added: Level, i: nat, j: nat, r: Level)
    requires ValidFiles(base) && ValidFiles(added) && i <= |base| && j <= |added|
  {
    && Listed(r) && Taken(base[..i], added[..j], deleted, r)
    && AllBefore(r, base, i) && AllBefore(r, added, j)
  }

  lemma TakeFromBase(base: Level, deleted: set<nat>, added: Level, i: nat, j: nat, r: Level)
    requires Listed(base) && Listed(added) && i < |base| && j <= |added| && Saving(base, deleted, added, i, j, r)
    requires j < |added| ==> BySmallestKey(base[i], added[j])
    ensures Saving(base, deleted, added, i + 1, j, if base[i].number in deleted then r else r + [base[i]])
  {
    hide *;
    SavingParts(base, deleted, added, i, j, r);
    TakeFirst(base, i, added, j, deleted, r);
    SavingParts(base, deleted, added, i + 1, j, if base[i].number in deleted then r else r + [base[i]]);
  }

  lemma TakeFromAdded(base: Level, deleted: set<nat>, added: Level, i: nat, j: nat, r: Level)
    requires Listed(base) && Listed(added) && i <= |base| && j < |added| && Saving(base, deleted, added, i, j, r)
    requires i < |base| ==> BySmallestKey(added[j], base[i])
    ensures Saving(base, deleted, added, i, j + 1, if added[j].number in deleted then r else r + [added[j]])
  {
    hide *;
    SavingParts(base, deleted, added, i, j, r);
    TakeFirst(added, j, base, i, deleted, r);
    SavingParts(base, deleted, added, i, j + 1, if added[j].number in deleted then r else r + [added[j]]);
  }

  /** It does not matter which of the lists is called the first. */
  lemma SavingParts(base: Level, deleted: set<nat>, added: Level, i: nat, j: nat, r: Level)
    requires Listed(base) && Listed(added) && i <= |base| && j <= |added|
    ensures Saving(base, deleted, added, i, j, r) <==>
            Listed(r) && Taken(base[..i], added[..j], deleted, r) && AllBefore(r, base, i) && AllBefore(r, added, j)
    ensures Taken(base[..i], added[..j], deleted, r) <==> Taken(added[..j], base[..i], deleted, r)
  {
    hide AllBefore, OrderedFiles, ValidFile;
  }

  /** The first file of a list that is left, when it is before what is left of the other. */
  lemma TakeFirst(a: Level, i: nat, b: Level, j: nat, deleted: set<nat>, r: Level)
    requires Listed(a) && Listed(b) && Listed(r) && i < |a| && j <= |b|
    requires Taken(a[..i], b[..j], deleted, r) && AllBefore(r, a, i) && AllBefore(r, b, j)
    requires j < |b| ==> BySmallestKey(a[i], b[j])
    ensures var r' := if a[i].number in deleted then r else r + [a[i]];
            Listed(r') && Taken(a[..i + 1], b[..j], deleted, r') && AllBefore(r', a, i + 1) && AllBefore(r', b, j)
  {
    assert ValidFile(a[i]);
    hide BySmallestKey, ValidFile, Taken;
    OneMoreTaken(a, i, b[..j], deleted, r);
    BehindFirst(a, i + 1, a[i]);
    BehindFirst(b, j, a[i]);
    if a[i].number !in deleted { AppendListed(r, a[i]); }
  }

  lemma OneMoreTaken(a: Level, i: nat, b: Level, deleted: set<nat>, r: Level)
    requires i < |a| && Taken(a[..i], b, deleted, r)
    ensures Taken(a[..i + 1], b, deleted, if a[i].number in deleted then r else r + [a[i]])
  {
    assert a[..i + 1] == a[..i] + [a[i]];
  }

  /** What is before the next file of a list is before all files behind it. */
  lemma BehindFirst(fs: Level, i: nat, f: File)
    requires Listed(fs) && i <= |fs| && |f.entries| > 0
    requires i < |fs| ==> BySmallestKey(f, fs[i])
    ensures forall q :: i <= q < |fs| ==> BySmallestKey(f, fs[q])
  {
    forall q | i < q < |fs| ensures BySmallestKey(f, fs[q]) {
      assert BySmallestKey(fs[i], fs[q]);
    }
  }

  lemma AppendListed(r: Level, f: File)
    requires Listed(r) && ValidFile(f) && forall p :: 0 <= p < |r| ==> BySmallestKey(r[p], f)
    ensures Listed(r + [f])
  {
    hide ValidFile, BySmallestKey;
  }

  /** SaveTo for one level, with std::upper_bound as a scan. */
  method SaveLevel(base: Level, deleted: set<nat>, added: Level) returns (r: Level)
    requires ValidFiles(base) && OrderedFiles(base) && ValidFiles(added) && OrderedFiles(added) && NoTwins(base, added)
    ensures Saved(base, deleted, added, r)
  {
    assert Listed(base) && Listed(added);
    r := [];
    var i, j := 0, 0;
    while j < |added|
      invariant i <= |base| && j <= |added|
      invariant Saving(base, deleted, added, i, j, r)
    {
      while i < |base| && !BySmallestKey(added[j], base[i])
        invariant i <= |base|
        invariant Saving(base, deleted, added, i, j, r)
      {
        TakeFromBase(base, deleted, added, i, j, r);
        if base[i].number !in deleted { r := r + [base[i]]; }
        i := i + 1;
      }
      TakeFromAdded(base, deleted, added, i, j, r);
      if added[j].number !in deleted { r := r + [added[j]]; }
      j := j + 1;
    }
    while i < |base|
      invariant i <= |base|
      invariant Saving(base, deleted, added, i, j, r)
    {
      TakeFromBase(base, deleted, added, i, j, r);
      if base[i].number !in deleted { r := r + [base[i]]; }
      i := i + 1;
    }
    assert base[..i] == base && added[..j] == added;
  }

  /** Two listings by smallest key of the same files are the same list. */
  lemma {:induction false} ListingIsUnique(a: Level, b: Level)
    requires ValidFiles(a) && OrderedFiles(a) && ValidFiles(b) && OrderedFiles(b)
    requires forall f :: f in a <==> f in b
    ensures a == b
  {
    assert a != [] ==> a[0] in a;
    assert b != [] ==> b[0] in b;
    if a != [] {
      FirstIsLeast(a, b);
      TailMembers(a);
      TailMembers(b);
      ListingIsUnique(a[1..], b[1..]);
      assert a == [a[0]] + a[1..] && b == [b[0]] + b[1..];
    }
  }

  lemma FirstIsLeast(a: Level, b: Level)
    requires ValidFiles(a) && OrderedFiles(a) && ValidFiles(b) && OrderedFiles(b)
    requires a != [] && b != [] && a[0] in b && b[0] in a
    ensures a[0] == b[0]
  {
    var i :| 0 <= i < |b| && b[i] == a[0];
    var j :| 0 <= j < |a| && a[j] == b[0];
  }

  lemma TailMembers(a: Level)
    requires ValidFiles(a) && OrderedFiles(a) && a != []
    ensures forall f :: f in a[1..] <==> f in a && f != a[0]
  {
    assert a == [a[0]] + a[1..];
    forall f | f in a[1..] ensures f != a[0] {
      var i :| 0 <= i < |a[1..]| && a[1..][i] == f;
      assert BySmallestKey(a[0], a[i + 1]);
    }
  }

  // ---------------------------------------------------------------------------
  // The builder
  // ---------------------------------------------------------------------------

  /** What the edits so far say about one level: numbers deleted, files added. */
  datatype LevelState = LevelState(deleted: set<nat>, added: set<File>)

  function AddedAt(e: VersionEdit, l: nat): (r: set<File>) { set p | p in e.added && p.0 == l :: p.1 }

  function NumbersOf(fs: set<File>): (r: set<nat>) { set f | f in fs :: f.number }

  function DeletedAt(e: VersionEdit, l: nat): (r: set<nat>) { set d | d in e.deleted && d.0 == l :: d.1 }

  /** Apply on one level: deletions first, then additions, which cancel deletions of their numbers. */
  function ApplyLevel(st: LevelState, e: VersionEdit, l: nat): LevelState {
    LevelState(st.deleted + DeletedAt(e, l) - NumbersOf(AddedAt(e, l)), st.added + AddedAt(e, l))
  }

  /** The files that saving this state over base gives. */
  ghost function SavedSet(base: set<File>, st: LevelState): set<File> {
    set f | f in base + st.added && f.number !in st.deleted
  }

  class Builder {
    const base: Version
    var deleted: seq<set<nat>>
    var added: seq<Level>

    ghost predicate Valid()
      reads this
    {
      && |base| == |deleted| == |added| == kNumLevels
      && forall l :: 0 <= l < kNumLevels ==>
           ValidFiles(base[l]) && OrderedFiles(base[l]) && ValidFiles(added[l]) && OrderedFiles(added[l])
    }

    ghost function State(l: nat): LevelState
      requires |deleted| == |added| == kNumLevels && l < kNumLevels
      reads this
    {
      LevelState(deleted[l], FileSet(added[l]))
    }

    constructor (base: Version)
      requires |base| == kNumLevels
      requires forall l :: 0 <= l < kNumLevels ==> ValidFiles(base[l]) && OrderedFiles(base[l])
      ensures Valid() && this.base == base
      ensures forall l :: 0 <= l < kNumLevels ==> State(l) == LevelState({}, {})
    {
      this.base := base;
      deleted := seq(kNumLevels, _ => {});
      added := seq(kNumLevels, _ => []);
    }

    method ApplyDeletions(e: VersionEdit)
      requires Valid() && ValidEdit(e)
      modifies this
      ensures Valid() && added == old(added)
      ensures forall l :: 0 <= l < kNumLevels ==> deleted[l] == old(deleted)[l] + DeletedAt(e, l)
    {
      var del := e.deleted;
      while del != {}
        invariant Valid() && added == old(added) && del <= e.deleted
        invariant forall l :: 0 <= l < kNumLevels ==>
          deleted[l] == old(deleted)[l] + (set d | d in e.deleted - del && d.0 == l :: d.1)
        decreases del
      {
        var d :| d in del;
        del := del - {d};
        deleted := deleted[d.0 := deleted[d.0] + {d.1}];
      }
      assert e.deleted - del == e.deleted;
    }

    method AddOne(l: nat, f: File)
      requires Valid() && l < kNumLevels && ValidFile(f) && Identified(State(l).added + {f})
      modifies this
      ensures Valid()
      ensures State(l) == LevelState(old(State(l)).deleted - {f.number}, old(State(l)).added + {f})
      ensures forall m :: 0 <= m < kNumLevels && m != l ==> State(m) == old(State(m))
    {
      assert forall g :: g in added[l] ==> g in State(l).added;
      InsertFileInserts(added[l], f);
      deleted := deleted[l := deleted[l] - {f.number}];
      added := added[l := InsertFile(added[l], f)];
    }

    /** Apply: deletions first; an addition cancels an earlier deletion of its number. */
    method Apply(e: VersionEdit)
      requires Valid() && ValidEdit(e)
      requires forall l :: 0 <= l < kNumLevels ==> Identified(State(l).added + AddedAt(e, l))
      modifies this
      ensures Valid()
      ensures forall l :: 0 <= l < kNumLevels ==> State(l) == ApplyLevel(old(State(l)), e, l)
    {
      ghost var start := seq(kNumLevels, l requires 0 <= l < kNumLevels reads this requires Valid() => State(l));
      ApplyDeletions(e);
      for i := 0 to |e.added|
        invariant Valid()
        invariant forall l :: 0 <= l < kNumLevels ==> State(l) == ApplyLevel(start[l], Prefix(e, i), l)
      {
        var (l, f) := e.added[i];
        assert AddedAt(Prefix(e, i), l) <= AddedAt(e, l) && f in AddedAt(e, l);
        AddOne(l, f);
        forall m | 0 <= m < kNumLevels ensures State(m) == ApplyLevel(start[m], Prefix(e, i + 1), m) {
          PrefixStep(start[m], e, i, m);
        }
      }
      assert Prefix(e, |e.added|) == e;
    }

    method SaveTo() returns (v: Version)
      requires Valid() && forall l :: 0 <= l < kNumLevels ==> NoTwins(base[l], added[l])
      ensures |v| == kNumLevels
      ensures forall l :: 0 <= l < kNumLevels ==> Saved(base[l], deleted[l], added[l], v[l])
    {
      v := [];
      for level := 0 to kNumLevels
        invariant |v| == level
        invariant forall l :: 0 <= l < level ==> Saved(base[l], deleted[l], added[l], v[l])
      {
        var files := SaveLevel(base[level], deleted[level], added[level]);
        v := v + [files];
      }
    }
  }

  ghost function Prefix(e: VersionEdit, n: nat): VersionEdit
    requires n <= |e.added|
  {
    VersionEdit(e.deleted, e.added[..n])
  }

  lemma PrefixStep(st: LevelState, e: VersionEdit, i: nat, l: nat)
    requires i < |e.added|
    ensures
      var before, after := ApplyLevel(st, Prefix(e, i), l), ApplyLevel(st, Prefix(e, i + 1), l);
      after == if e.added[i].0 != l then before
               else LevelState(before.deleted - {e.added[i].1.number}, before.added + {e.added[i].1})
  {
    var p, q := Prefix(e, i), Prefix(e, i + 1);
    assert q.added == p.added + [e.added[i]];
    assert AddedAt(q, l) == AddedAt(p, l) + (if e.added[i].0 == l then {e.added[i].1} else {});
    assert NumbersOf(AddedAt(q, l)) ==
           NumbersOf(AddedAt(p, l)) + (if e.added[i].0 == l then {e.added[i].1.number} else {});
  }

  // ---------------------------------------------------------------------------
  // Replay
  // ---------------------------------------------------------------------------

  /** The state after applying the edits in order. */
  ghost function Replay(st: LevelState, es: seq<VersionEdit>, l: nat): LevelState {
    if es == [] then st else ApplyLevel(Replay(st, es[..|es| - 1], l), es[|es| - 1], l)
  }

  /** Saving a version after every edit, as the live process does. */
  ghost function LiveRun(base: set<File>, es: seq<VersionEdit>, l: nat): set<File> {
    if es == [] then base
    else SavedSet(LiveRun(base, es[..|es| - 1], l), ApplyLevel(LevelState({}, {}), es[|es| - 1], l))
  }

  /** One more edit keeps one builder and the live process in step exactly when the edit does not
      re-use the number of another file that was deleted on this level. */
  lemma ReplayStepIff(base: set<File>, st: LevelState, e: VersionEdit, l: nat)
    ensures SavedSet(base, ApplyLevel(st, e, l))
              == SavedSet(SavedSet(base, st), ApplyLevel(LevelState({}, {}), e, l))
            <==> forall f :: f in base + st.added && f.number in st.deleted && f.number in NumbersOf(AddedAt(e, l))
                   ==> f in AddedAt(e, l)
  {
    var A := AddedAt(e, l);
    var one := SavedSet(base, ApplyLevel(st, e, l));
    var live := SavedSet(SavedSet(base, st), ApplyLevel(LevelState({}, {}), e, l));
    forall f | f in A ensures f in one && f in live {
      assert f.number in NumbersOf(A);
    }
    forall f | f !in A
      ensures f in one <==> f in base + st.added && f.number !in st.deleted + DeletedAt(e, l) - NumbersOf(A)
      ensures f in live <==> f in base + st.added && f.number !in st.deleted && f.number !in DeletedAt(e, l) - NumbersOf(A)
    {
    }
    if one != live {
      var f :| f in one <==> f !in live;
    }
  }

  lemma OneMoreEdit(base: set<File>, es: seq<VersionEdit>, e: VersionEdit, l: nat)
    ensures Replay(LevelState({}, {}), es + [e], l) == ApplyLevel(Replay(LevelState({}, {}), es, l), e, l)
    ensures LiveRun(base, es + [e], l) == SavedSet(LiveRun(base, es, l), ApplyLevel(LevelState({}, {}), e, l))
  {
    hide ApplyLevel, SavedSet;
    assert (es + [e])[..|es + [e]| - 1] == es;
  }

  lemma DeletedThenAdded(f: File, g: File)
    requires f.number == g.number
    ensures var none, one := LevelState({}, {}), LevelState({f.number}, {});
            && ApplyLevel(none, VersionEdit({(0, f.number)}, []), 0) == one
            && ApplyLevel(one, VersionEdit({}, [(0, g)]), 0) == LevelState({}, {g})
            && ApplyLevel(none, VersionEdit({}, [(0, g)]), 0) == LevelState({}, {g})
  {
    var d, a := VersionEdit({(0, f.number)}, []), VersionEdit({}, [(0, g)]);
    assert DeletedAt(d, 0) == {f.number} && AddedAt(d, 0) == {} && DeletedAt(a, 0) == {};
    assert AddedAt(a, 0) == {g} by { assert (0, g) in a.added; }
    hide AddedAt, DeletedAt;
    assert NumbersOf({g}) == {f.number} && NumbersOf({}) == {};
  }

  lemma SavedOver(f: File, g: File)
    requires f.number == g.number
    ensures SavedSet({f}, LevelState({f.number}, {})) == {} && SavedSet({}, LevelState({}, {g})) == {g}
    ensures SavedSet({f}, LevelState({}, {g})) == {f, g}
  {
  }

  /** A file is deleted, and another one added under its number: the live process has the new one, and a replay both. */
  lemma ReusedNumberDiffers() returns (f: File, g: File, es: seq<VersionEdit>)
    ensures f.number == g.number && ValidFile(f) && ValidFile(g) && forall i :: 0 <= i < |es| ==> ValidEdit(es[i])
    ensures LiveRun({f}, es, 0) == {g}
    ensures SavedSet({f}, Replay(LevelState({}, {}), es, 0)) == {f, g} != {g}
  {
    f, g := File(1, 1, [Entry(1.0, 1, Delete)]), File(1, 1, [Entry(2.0, 2, Delete)]);
    assert ValidFile(f) && ValidFile(g) && f != g && f in {f, g};
    var d, a := VersionEdit({(0, f.number)}, []), VersionEdit({}, [(0, g)]);
    assert Replay(LevelState({}, {}), [], 0) == LevelState({}, {}) && LiveRun({f}, [], 0) == {f};
    hide Replay, LiveRun, SavedSet, ApplyLevel, ValidFile;
    es := [] + [d] + [a];
    OneMoreEdit({f}, [], d, 0);
    OneMoreEdit({f}, [] + [d], a, 0);
    DeletedThenAdded(f, g);
    SavedOver(f, g);
  }

  /** Every number is added at most once on level l, and never one that base has there. */
  ghost predicate AddedOnce(base: set<File>, es: seq<VersionEdit>, l: nat) {
    && (forall i, f, g :: 0 <= i < |es| && f in AddedAt(es[i], l) && g in base ==> f.number != g.number)
    && forall i, j, f, g :: 0 <= i < j < |es| && f in AddedAt(es[i], l) && g in AddedAt(es[j], l) ==> f.number != g.number
  }

  lemma {:induction false} ReplayedFiles(st: LevelState, es: seq<VersionEdit>, l: nat, f: File)
    requires f in Replay(st, es, l).added
    ensures f in st.added || exists i :: 0 <= i < |es| && f in AddedAt(es[i], l)
  {
    if es != [] {
      var n := |es| - 1;
      if f !in AddedAt(es[n], l) {
        ReplayedFiles(st, es[..n], l, f);
        if f !in st.added {
          var i :| 0 <= i < |es[..n]| && f in AddedAt(es[..n][i], l);
          assert f in AddedAt(es[i], l);
        }
      }
    }
  }

  /** Manifest replay: all edits in one builder, saved once, give the files that the live process had
      after saving a version for each edit. */
  lemma {:induction false} ReplayEqualsLive(base: set<File>, es: seq<VersionEdit>, l: nat)
    requires AddedOnce(base, es, l)
    ensures SavedSet(base, Replay(LevelState({}, {}), es, l)) == LiveRun(base, es, l)
  {
    if es != [] {
      var n := |es| - 1;
      var st := Replay(LevelState({}, {}), es[..n], l);
      ReplayEqualsLive(base, es[..n], l);
      forall f | f in base + st.added && f.number in NumbersOf(AddedAt(es[n], l)) ensures false {
        var g :| g in AddedAt(es[n], l) && g.number == f.number;
        hide Replay, LiveRun, SavedSet;
        if f in st.added {
          ReplayedFiles(LevelState({}, {}), es[..n], l, f);
        }
      }
      hide AddedOnce, NumbersOf, AddedAt;
      ReplayStepIff(base, st, es[n], l);
    }
  }

  /** The first record of a new manifest lists every file of the current version; replaying it
      over nothing gives that version back, whatever edits follow. */
  lemma {:induction false} SnapshotThenReplay(base: set<File>, snapshot: VersionEdit, es: seq<VersionEdit>, l: nat)
    requires snapshot.deleted == {} && AddedAt(snapshot, l) == base
    ensures Replay(LevelState({}, {}), [snapshot] + es, l)
              == LevelState(Replay(LevelState({}, {}), es, l).deleted, base + Replay(LevelState({}, {}), es, l).added)
  {
    var all := [snapshot] + es;
    if es == [] {
      assert all[..0] == [];
      assert DeletedAt(snapshot, l) == {};
    } else {
      var n := |es| - 1;
      assert all[..|all| - 1] == [snapshot] + es[..n];
      SnapshotThenReplay(base, snapshot, es[..n], l);
    }
  }

  /** So the recovered version lists exactly the files of the live one, in the same order. */
  lemma RecoveredListsEqualLive(base: Level, es: seq<VersionEdit>, l: nat, added: Level, recovered: Level, live: Level)
    requires AddedOnce(FileSet(base), es, l)
    requires FileSet(added) == Replay(LevelState({}, {}), es, l).added
    requires Saved(base, Replay(LevelState({}, {}), es, l).deleted, added, recovered)
    requires ValidFiles(live) && OrderedFiles(live) && FileSet(live) == LiveRun(FileSet(base), es, l)
    ensures recovered == live
  {
    ReplayEqualsLive(FileSet(base), es, l);
    assert forall f :: f in recovered <==> f in FileSet(live) by {
      assert forall f :: f in added <==> f in FileSet(added);
      assert forall f :: f in base <==> f in FileSet(base);
    }
    ListingIsUnique(recovered, live);
  }
}
