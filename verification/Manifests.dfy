/**
 A manifest as bytes: edits are encoded, framed as log records, cut anywhere by a
 crash, read back, decoded and applied to one builder. What comes out is the
 version of the live process after the edits that were written whole.
 */
module Manifests {
  import opened Basics
  import opened Versions
  import opened Builders
  import L = LogFormat
  import V = VersionEdits

  /** The records that LogAndApply writes for these edits. */
  ghost function Records(es: seq<V.Edit>): seq<seq<byte>> { seq(|es|, i requires 0 <= i < |es| => V.EditBytes(es[i])) }

  /** What a record decodes to. */
  ghost function Decoded(record: seq<byte>): Option<V.Edit> {
    var r := V.ReadFields(record);
    if r.fault.None? then Some(V.Fold(V.NoEdit(), r.fields)) else None
  }

  ghost function AllDecoded(records: seq<seq<byte>>): Option<seq<V.Edit>> {
    if records == [] then Some([])
    else
      var n := |records| - 1;
      var before, last := AllDecoded(records[..n]), Decoded(records[n]);
      if before.None? || last.None? then None else Some(before.value + [last.value])
  }

  /** The edits in a file; none if anything in it is reported or does not decode. */
  ghost function EditsIn(file: seq<byte>): Option<seq<V.Edit>> {
    var (records, reports) := L.ReadAll(file, 0, true);
    if reports > 0 then None else AllDecoded(records)
  }

  /** The last value that the edits give to one of the numbers. */
  ghost function Latest(es: seq<V.Edit>, number: V.Edit -> Option<nat>): Option<nat> {
    if es == [] then None
    else if number(es[|es| - 1]).Some? then number(es[|es| - 1])
    else Latest(es[..|es| - 1], number)
  }

  const LOG := (e: V.Edit) => e.logNumber
  const PREV := (e: V.Edit) => e.prevLogNumber
  const NEXT := (e: V.Edit) => e.nextFile
  const LAST := (e: V.Edit) => e.lastSequence

  predicate Accepted(e: V.Edit, name: seq<byte>) { e.comparator.Some? ==> e.comparator.value == name }

  // ---------------------------------------------------------------------------
  // Edits about files
  // ---------------------------------------------------------------------------

  /** The tables behind the file numbers. */
  type Tables = map<nat, File>

  ghost predicate ValidTables(tables: Tables) {
    forall n :: n in tables ==> tables[n].number == n && ValidFile(tables[n])
  }

  /** The added files have tables, and the levels exist. */
  ghost predicate Known(e: V.Edit, tables: Tables) {
    && (forall i :: 0 <= i < |e.added| ==> e.added[i].0 < kNumLevels && e.added[i].1.number in tables)
    && forall d :: d in e.deleted ==> d.0 < kNumLevels
  }

  function AddedFiles(added: seq<(nat, V.FileMeta)>, tables: Tables): seq<(nat, File)>
    requires forall i :: 0 <= i < |added| ==> added[i].1.number in tables
  {
    seq(|added|, i requires 0 <= i < |added| => (added[i].0, tables[added[i].1.number]))
  }

  /** The edit that the builder applies. */
  function Meant(e: V.Edit, tables: Tables): VersionEdit
    requires forall i :: 0 <= i < |e.added| ==> e.added[i].1.number in tables
  {
    VersionEdit((set d | d in e.deleted), AddedFiles(e.added, tables))
  }

  ghost predicate AllKnown(es: seq<V.Edit>, tables: Tables) {
    forall i :: 0 <= i < |es| ==> Known(es[i], tables)
  }

  ghost function AllMeant(es: seq<V.Edit>, tables: Tables): (r: seq<VersionEdit>)
    requires AllKnown(es, tables)
    ensures |r| == |es|
  {
    if es == [] then [] else
      assert forall i :: 0 <= i < |es| - 1 ==> es[..|es| - 1][i] == es[i];
      AllMeant(es[..|es| - 1], tables) + [Meant(es[|es| - 1], tables)]
  }

  /** One builder over the empty version, after these edits. */
  ghost function Built(es: seq<V.Edit>, tables: Tables, l: nat): LevelState
    requires AllKnown(es, tables)
  {
    Replay(LevelState({}, {}), AllMeant(es, tables), l)
  }

  /** Everything that has been added to a builder comes from the tables. */
  lemma {:induction false} BuiltFromTables(es: seq<V.Edit>, tables: Tables, l: nat)
    requires AllKnown(es, tables)
    ensures forall f :: f in Built(es, tables, l).added ==> exists n :: n in tables && tables[n] == f
  {
    if es != [] {
      BuiltStep(es, tables, l);
      BuiltFromTables(es[..|es| - 1], tables, l);
      MeantFromTables(es[|es| - 1], tables, l);
    }
  }

  lemma BuiltStep(es: seq<V.Edit>, tables: Tables, l: nat)
    requires AllKnown(es, tables) && es != []
    ensures AllKnown(es[..|es| - 1], tables)
    ensures Built(es, tables, l) == ApplyLevel(Built(es[..|es| - 1], tables, l), Meant(es[|es| - 1], tables), l)
  {
    var all := AllMeant(es, tables);
    assert all[..|all| - 1] == AllMeant(es[..|es| - 1], tables);
  }

  lemma MeantFromTables(e: V.Edit, tables: Tables, l: nat)
    requires Known(e, tables)
    ensures forall f :: f in AddedAt(Meant(e, tables), l) ==> exists n :: n in tables && tables[n] == f
  {
    forall f | f in AddedAt(Meant(e, tables), l) ensures exists n :: n in tables && tables[n] == f {
      var p :| p in Meant(e, tables).added && p.0 == l && p.1 == f;
      var i :| 0 <= i < |e.added| && Meant(e, tables).added[i] == p;
      assert tables[e.added[i].1.number] == f;
    }
  }

  /** Tables have different numbers, so any set of them is identified. */
  lemma TablesIdentified(fs: set<File>, tables: Tables)
    requires ValidTables(tables) && forall f :: f in fs ==> exists n :: n in tables && tables[n] == f
    ensures Identified(fs)
  {
  }

  lemma MeantIsValid(e: V.Edit, tables: Tables)
    requires Known(e, tables) && ValidTables(tables)
    ensures ValidEdit(Meant(e, tables))
  {
  }

  // ---------------------------------------------------------------------------
  // Recovery
  // ---------------------------------------------------------------------------

  datatype Recovered = Recovered(version: Version, log: nat, prev: nat, next: nat, last: nat)

  /** When recovery succeeds. */
  ghost predicate Complete(file: seq<byte>, name: seq<byte>) {
    && EditsIn(file).Some?
    && var es := EditsIn(file).value;
      && (forall i :: 0 <= i < |es| ==> Accepted(es[i], name))
      && Latest(es, LOG).Some? && Latest(es, NEXT).Some? && Latest(es, LAST).Some?
  }

  /** What it gives: the files that are left in one builder, listed, and the latest numbers. */
  ghost predicate Rebuilt(es: seq<V.Edit>, tables: Tables, r: Recovered)
    requires AllKnown(es, tables)
  {
    && |r.version| == kNumLevels
    && (forall l :: 0 <= l < kNumLevels ==>
         Listed(r.version[l]) && FileSet(r.version[l]) == SavedSet({}, Built(es, tables, l)))
    && Some(r.log) == Latest(es, LOG) && Some(r.next) == Latest(es, NEXT) && Some(r.last) == Latest(es, LAST)
    && r.prev == if Latest(es, PREV).Some? then Latest(es, PREV).value else 0
  }

  /** The numbers that the edits so far give. */
  ghost predicate Numbered(es: seq<V.Edit>, log: Option<nat>, prev: Option<nat>, next: Option<nat>, last: Option<nat>) {
    log == Latest(es, LOG) && prev == Latest(es, PREV) && next == Latest(es, NEXT) && last == Latest(es, LAST)
  }

  function OrElse(n: Option<nat>, old_: Option<nat>): Option<nat> { if n.Some? then n else old_ }

  lemma NumbersMore(es: seq<V.Edit>, e: V.Edit, log: Option<nat>, prev: Option<nat>, next: Option<nat>, last: Option<nat>)
    requires Numbered(es, log, prev, next, last)
    ensures Numbered(es + [e], OrElse(e.logNumber, log), OrElse(e.prevLogNumber, prev),
                     OrElse(e.nextFile, next), OrElse(e.lastSequence, last))
  {
    var more := es + [e];
    assert more[..|more| - 1] == es;
  }

  lemma DecodedMore(records: seq<seq<byte>>, n: nat)
    requires n < |records|
    ensures var before, last := AllDecoded(records[..n]), Decoded(records[n]);
            AllDecoded(records[..n + 1]) == if before.None? || last.None? then None else Some(before.value + [last.value])
  {
    assert records[..n + 1][..n] == records[..n];
  }

  /** If all records decode, so do the first ones, to the first edits. */
  lemma {:induction false} DecodedFirst(records: seq<seq<byte>>, n: nat)
    requires n <= |records| && AllDecoded(records).Some?
    ensures |AllDecoded(records).value| == |records|
    ensures AllDecoded(records[..n]) == Some(AllDecoded(records).value[..n])
  {
    hide Decoded;
    assert records[..|records|] == records;
    if n < |records| {
      var m := |records| - 1;
      DecodedFirst(records[..m], n);
      assert records[..m][..n] == records[..n];
      var es, before := AllDecoded(records).value, AllDecoded(records[..m]).value;
      assert es == before + [es[m]] && es[..n] == before[..n];
    } else if records != [] {
      DecodedFirst(records[..n - 1], n - 1);
      assert AllDecoded(records).value[..n] == AllDecoded(records).value;
    }
  }

  /** A record that does not decode, or is not accepted, spoils the whole file. */
  lemma Spoilt(file: seq<byte>, name: seq<byte>, n: nat, es: seq<V.Edit>)
    requires var records := L.ReadAll(file, 0, true).0;
             && n < |records| && AllDecoded(records[..n]) == Some(es)
             && (Decoded(records[n]).Some? ==> !Accepted(Decoded(records[n]).value, name))
    ensures !Complete(file, name)
  {
    hide Decoded;
    var records := L.ReadAll(file, 0, true).0;
    if AllDecoded(records).Some? {
      DecodedFirst(records, n + 1);
      DecodedFirst(records, n);
      DecodedMore(records, n);
      var all := AllDecoded(records).value;
      assert all[..n + 1][n] == all[n];
    }
  }

  /** With all records accepted, success depends on the numbers and on there being no report. */
  lemma AllAccepted(file: seq<byte>, name: seq<byte>, es: seq<V.Edit>)
    requires AllDecoded(L.ReadAll(file, 0, true).0) == Some(es) && forall j :: 0 <= j < |es| ==> Accepted(es[j], name)
    ensures Complete(file, name) <==> L.ReadAll(file, 0, true).1 == 0 && Latest(es, LOG).Some? && Latest(es, NEXT).Some? && Latest(es, LAST).Some?
    ensures Complete(file, name) ==> EditsIn(file) == Some(es)
  {
  }

  lemma NothingBuilt(tables: Tables)
    ensures AllKnown([], tables) && forall l :: 0 <= l < kNumLevels ==> Built([], tables, l) == LevelState({}, {})
  {
  }

  lemma OneMoreEdit(es: seq<V.Edit>, e: V.Edit, tables: Tables, l: nat)
    requires AllKnown(es, tables) && Known(e, tables)
    ensures AllKnown(es + [e], tables)
    ensures Built(es + [e], tables, l) == ApplyLevel(Built(es, tables, l), Meant(e, tables), l)
  {
    var more := es + [e];
    assert more[..|more| - 1] == es;
    BuiltStep(more, tables, l);
  }

  /** The builder may apply the edit: what it then holds comes from the tables. */
  lemma MayApply(es: seq<V.Edit>, e: V.Edit, tables: Tables)
    requires AllKnown(es, tables) && Known(e, tables) && ValidTables(tables)
    ensures ValidEdit(Meant(e, tables))
    ensures forall l :: 0 <= l < kNumLevels ==> Identified(Built(es, tables, l).added + AddedAt(Meant(e, tables), l))
  {
    MeantIsValid(e, tables);
    forall l | 0 <= l < kNumLevels ensures Identified(Built(es, tables, l).added + AddedAt(Meant(e, tables), l)) {
      BuiltFromTables(es, tables, l);
      MeantFromTables(e, tables, l);
      hide Built, Meant, AddedAt;
      TablesIdentified(Built(es, tables, l).added + AddedAt(Meant(e, tables), l), tables);
    }
  }

  /** A decoder object that is used for one record. */
  method Decode(record: seq<byte>) returns (e: Option<V.Edit>)
    ensures e == Decoded(record)
  {
    var edit := new V.VersionEdit();
    var fault := edit.DecodeFrom(record);
    e := if fault.None? then Some(edit.State()) else None;
  }

  /** VersionSet::Recover: every record is decoded and applied to one builder over the empty version. */
  method Recover(file: seq<byte>, name: seq<byte>, tables: Tables) returns (r: Option<Recovered>)
    requires ValidTables(tables)
    requires forall record :: record in L.ReadAll(file, 0, true).0 && Decoded(record).Some? ==> Known(Decoded(record).value, tables)
    ensures r.Some? <==> Complete(file, name)
    ensures r.Some? ==> AllKnown(EditsIn(file).value, tables) && Rebuilt(EditsIn(file).value, tables, r.value)
  {
    hide Decoded, AllDecoded, Built, Complete, Rebuilt, EditsIn, Latest, Meant, ApplyLevel, AddedAt, AllKnown, Numbered;
    var all := L.ReadAll(file, 0, true);
    var records := all.0;
    var builder := new Builder(seq(kNumLevels, _ => []));
    var log, prev, next, last := None, None, None, None;
    ghost var es: seq<V.Edit> := [];
    NothingDecoded(records);
    NothingBuilt(tables);
    for i := 0 to |records|
      invariant AllDecoded(records[..i]) == Some(es) && AllKnown(es, tables)
      invariant forall j :: 0 <= j < |es| ==> Accepted(es[j], name)
      invariant builder.Valid() && builder.base == seq(kNumLevels, _ => [])
      invariant forall l :: 0 <= l < kNumLevels ==> builder.State(l) == Built(es, tables, l)
      invariant Numbered(es, log, prev, next, last)
    {
      var e := Decode(records[i]);
      if e.None? || !Accepted(e.value, name) {
        Spoilt(file, name, i, es);
        return None;
      }
      ApplyNext(builder, es, e.value, tables);
      NumbersMore(es, e.value, log, prev, next, last);
      log, prev := OrElse(e.value.logNumber, log), OrElse(e.value.prevLogNumber, prev);
      next, last := OrElse(e.value.nextFile, next), OrElse(e.value.lastSequence, last);
      DecodedMore(records, i);
      es := es + [e.value];
    }
    assert records[..|records|] == records;
    AllAccepted(file, name, es);
    if all.1 > 0 || next.None? || log.None? || last.None? {
      NumbersAre(es, log, prev, next, last);
      return None;
    }
    var v := builder.SaveTo();
    r := Some(Recovered(v, log.value, if prev.Some? then prev.value else 0, next.value, last.value));
    NumbersAre(es, log, prev, next, last);
    SavedIsRebuilt(es, tables, builder.deleted, builder.added, r.value);
  }

  lemma NothingDecoded(records: seq<seq<byte>>)
    ensures AllDecoded(records[..0]) == Some([]) && Numbered([], None, None, None, None)
  {
    assert records[..0] == [];
  }

  lemma NumbersAre(es: seq<V.Edit>, log: Option<nat>, prev: Option<nat>, next: Option<nat>, last: Option<nat>)
    requires Numbered(es, log, prev, next, last)
    ensures log == Latest(es, LOG) && prev == Latest(es, PREV) && next == Latest(es, NEXT) && last == Latest(es, LAST)
  {
  }

  lemma SavedIsRebuilt(es: seq<V.Edit>, tables: Tables, deleted: seq<set<nat>>, added: seq<Level>, r: Recovered)
    requires AllKnown(es, tables) && |deleted| == |added| == |r.version| == kNumLevels
    requires forall l :: 0 <= l < kNumLevels ==> LevelState(deleted[l], FileSet(added[l])) == Built(es, tables, l)
    requires forall l :: 0 <= l < kNumLevels ==> Saved([], deleted[l], added[l], r.version[l])
    requires Some(r.log) == Latest(es, LOG) && Some(r.next) == Latest(es, NEXT) && Some(r.last) == Latest(es, LAST)
    requires r.prev == if Latest(es, PREV).Some? then Latest(es, PREV).value else 0
    ensures Rebuilt(es, tables, r)
  {
    hide Built, Latest, AllKnown;
    forall l | 0 <= l < kNumLevels
      ensures Listed(r.version[l]) && FileSet(r.version[l]) == SavedSet({}, Built(es, tables, l))
    {
      assert Saved([], deleted[l], added[l], r.version[l]);
      assert Built(es, tables, l) == LevelState(deleted[l], FileSet(added[l]));
      forall f ensures f in FileSet(r.version[l]) <==> f in SavedSet({}, Built(es, tables, l)) {
        assert f in added[l] <==> f in FileSet(added[l]);
      }
    }
  }

  /** The builder applies one edit more. */
  method ApplyNext(builder: Builder, ghost es: seq<V.Edit>, e: V.Edit, tables: Tables)
    requires ValidTables(tables) && AllKnown(es, tables) && Known(e, tables)
    requires builder.Valid() && forall l :: 0 <= l < kNumLevels ==> builder.State(l) == Built(es, tables, l)
    modifies builder
    ensures AllKnown(es + [e], tables)
    ensures builder.Valid() && forall l :: 0 <= l < kNumLevels ==> builder.State(l) == Built(es + [e], tables, l)
  {
    MayApply(es, e, tables);
    hide Built, Meant, ApplyLevel, AddedAt, AllKnown;
    builder.Apply(Meant(e, tables));
    OneMoreEdit(es, e, tables, 0);
    forall l | 0 <= l < kNumLevels ensures builder.State(l) == Built(es + [e], tables, l) {
      OneMoreEdit(es, e, tables, l);
    }
  }

  // ---------------------------------------------------------------------------
  // From the live process, through a crash, to the recovered version
  // ---------------------------------------------------------------------------

  ghost predicate AllWellFormed(es: seq<V.Edit>) { forall i :: 0 <= i < |es| ==> V.WellFormed(es[i]) }

  lemma {:induction false} RecordsDecode(es: seq<V.Edit>, n: nat)
    requires AllWellFormed(es) && n <= |es|
    ensures AllDecoded(Records(es)[..n]) == Some(es[..n])
  {
    hide Decoded, V.WellFormed, V.EditBytes, AllDecoded;
    if n == 0 {
      NothingDecoded(Records(es));
    } else {
      RecordsDecode(es, n - 1);
      RecordDecodes(es[n - 1]);
      DecodedMore(Records(es), n - 1);
      assert es[..n] == es[..n - 1] + [es[n - 1]];
    }
  }

  lemma RecordDecodes(e: V.Edit)
    requires V.WellFormed(e)
    ensures Decoded(V.EditBytes(e)) == Some(e)
  {
    V.EditRoundTrip(V.NoEdit(), e);
    hide V.WellFormed, V.EditBytes, V.ReadFields, V.Fold;
    assert V.Cleared(V.NoEdit()) == V.NoEdit();
    assert [] + e.pointers == e.pointers;
  }

  /** Wherever a crash cuts the manifest, reading it gives the edits that were written whole. */
  lemma CutManifestReads(es: seq<V.Edit>, k: nat)
    requires AllWellFormed(es) && k <= |L.Log(Records(es))|
    ensures EditsIn(L.Log(Records(es))[..k]) == Some(es[..L.Whole(Records(es), k)])
  {
    hide L.ReadAll, L.Log, L.Whole, V.WellFormed, V.EditBytes, AllDecoded;
    var n := L.Whole(Records(es), k);
    L.PrefixRoundTrip(Records(es), k, true);
    RecordsDecode(es, n);
  }

  /** And recovery from it lists, level by level, the files that the live process had after those edits. */
  lemma RecoveredIsLive(es: seq<V.Edit>, tables: Tables, k: nat, r: Recovered, live: Version, l: nat)
    requires AllWellFormed(es) && k <= |L.Log(Records(es))| && l < kNumLevels
    requires EditsIn(L.Log(Records(es))[..k]).Some? && AllKnown(EditsIn(L.Log(Records(es))[..k]).value, tables)
    requires Rebuilt(EditsIn(L.Log(Records(es))[..k]).value, tables, r)
    requires var whole := es[..L.Whole(Records(es), k)];
             && AllKnown(whole, tables) && AddedOnce({}, AllMeant(whole, tables), l)
             && |live| == kNumLevels && Listed(live[l]) && FileSet(live[l]) == LiveRun({}, AllMeant(whole, tables), l)
    ensures r.version[l] == live[l]
  {
    CutManifestReads(es, k);
    var whole := es[..L.Whole(Records(es), k)];
    ReplayEqualsLive({}, AllMeant(whole, tables), l);
    assert forall f :: f in r.version[l] <==> f in FileSet(r.version[l]);
    assert forall f :: f in live[l] <==> f in FileSet(live[l]);
    ListingIsUnique(r.version[l], live[l]);
  }
}
