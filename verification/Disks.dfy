/**
 The disk as the store uses it: logs of batches, tables, manifests of edits and
 CURRENT, what a crash may leave of them, and what makes a disk recoverable.
 */
module Disks {
  import opened Basics
  import opened Keys

  // ---------------------------------------------------------------------------
  // Files
  // ---------------------------------------------------------------------------

  /**
   One log record is one batch. The first `synced` records are on the medium and will be read back. After an
   append that failed halfway the log is torn: what was on the medium before stays readable, but what comes
   behind the tear may be passed over by a reader, however well it is synced.
   */
  datatype LogFile = LogFile(records: seq<set<Entry>>, synced: nat, torn: bool)

  /** A table that is not synced may hold anything after a crash. */
  datatype TableFile = TableFile(entries: set<Entry>, synced: bool)

  datatype Edit = Edit(log: Option<nat>, next: Option<nat>, last: Option<nat>, deleted: set<nat>, added: set<nat>)

  datatype Manifest = Manifest(edits: seq<Edit>, synced: nat)

  datatype Disk = Disk(logs: map<nat, LogFile>, tables: map<nat, TableFile>, manifests: map<nat, Manifest>, current: nat)

  /** What replaying a manifest tells: live tables, the first log still needed, the next file number and the last
      sequence number. */
  datatype Meta = Meta(live: set<nat>, log: Option<nat>, next: Option<nat>, last: Option<nat>)

  function ApplyEdit(m: Meta, e: Edit): Meta {
    Meta(m.live - e.deleted + e.added, if e.log.Some? then e.log else m.log, if e.next.Some? then e.next else m.next,
         if e.last.Some? then e.last else m.last)
  }

  function Replay(es: seq<Edit>): Meta {
    if es == [] then Meta({}, None, None, None) else ApplyEdit(Replay(es[..|es| - 1]), es[|es| - 1])
  }

  function RecordEntries(rs: seq<set<Entry>>): (r: set<Entry>) { set b, e | b in rs && e in b :: e }

  /** What is sure to be read back from a log. */
  function Durable(log: LogFile): set<Entry> {
    if log.synced <= |log.records| then RecordEntries(log.records[..log.synced]) else {}
  }

  /** Everything in the logs numbered from first on. */
  function LogEntries(d: Disk, first: nat): set<Entry> {
    set n, e | n in d.logs && n >= first && e in RecordEntries(d.logs[n].records) :: e
  }

  /** The durable part of it. */
  function DurableEntries(d: Disk, first: nat): set<Entry> {
    set n, e | n in d.logs && n >= first && e in Durable(d.logs[n]) :: e
  }

  function TableEntries(d: Disk, live: set<nat>): set<Entry> {
    set n, e | n in live && n in d.tables && e in d.tables[n].entries :: e
  }

  ghost predicate SyncedTables(d: Disk, ns: set<nat>) { forall n :: n in ns ==> n in d.tables && d.tables[n].synced }

  lemma RecordPrefix(a: seq<set<Entry>>, i: nat, j: nat)
    requires i <= j <= |a|
    ensures RecordEntries(a[..i]) <= RecordEntries(a[..j]) <= RecordEntries(a)
  {
    forall b | b in a[..i] ensures b in a[..j] {
      var p :| 0 <= p < i && a[..i][p] == b;
      assert a[..j][p] == b;
    }
  }

  lemma DurableIsRecorded(log: LogFile)
    ensures Durable(log) <= RecordEntries(log.records)
  {
    if log.synced <= |log.records| { RecordPrefix(log.records, log.synced, |log.records|); }
  }

  lemma DurableIsLogged(d: Disk, first: nat)
    ensures DurableEntries(d, first) <= LogEntries(d, first)
  {
    forall e | e in DurableEntries(d, first) ensures e in LogEntries(d, first) {
      var n :| n in d.logs && n >= first && e in Durable(d.logs[n]);
      DurableIsRecorded(d.logs[n]);
    }
  }

  // ---------------------------------------------------------------------------
  // Sets of entries
  // ---------------------------------------------------------------------------

  /** Sequence numbers name entries. */
  ghost predicate OneEach(es: set<Entry>) { forall x, y :: x in es && y in es && x.sn == y.sn ==> x == y }

  ghost predicate Above(a: set<Entry>, b: set<Entry>) { forall x, y :: x in a && y in b ==> x.sn > y.sn }

  ghost predicate Within(es: set<Entry>, last: nat) { forall e :: e in es ==> e.sn <= last }

  /** No reader at a snapshot from `from` on can tell the two sets apart. */
  ghost predicate ReadAlike(a: set<Entry>, b: set<Entry>, from: nat) {
    forall k, s :: s >= from ==> SameReads(a, b, k, s)
  }

  lemma AlikeItself(a: set<Entry>, from: nat)
    ensures ReadAlike(a, a, from)
  {
  }

  lemma AlikeThrough(a: set<Entry>, b: set<Entry>, c: set<Entry>, i: nat, j: nat, from: nat)
    requires ReadAlike(b, a, i) && ReadAlike(b, c, j) && from >= i && from >= j
    ensures ReadAlike(a, c, from)
  {
    forall k, s | s >= from ensures SameReads(a, c, k, s) {
      assert SameReads(b, a, k, s) && SameReads(b, c, k, s);
      forall r ensures ReadsAs(a, k, s, r) <==> ReadsAs(c, k, s, r) {
        assert ReadsAs(b, k, s, r) <==> ReadsAs(a, k, s, r);
      }
    }
  }

  /** Two sets with the same latest entries read alike. */
  lemma SameLatest(a: set<Entry>, b: set<Entry>, k: UserKey, s: nat)
    requires forall x :: IsLatest(a, k, s, x) <==> IsLatest(b, k, s, x)
    ensures SameReads(a, b, k, s)
  {
  }

  /** Newer entries on top of both sets keep them alike. */
  lemma AlikeUnderNewer(a: set<Entry>, b: set<Entry>, newer: set<Entry>, from: nat)
    requires ReadAlike(a, b, from) && Above(newer, a + b)
    ensures ReadAlike(a + newer, b + newer, from)
  {
    forall k, s | s >= from ensures SameReads(a + newer, b + newer, k, s) {
      if c :| c in newer && Candidate(c, k, s) {
        forall x ensures IsLatest(a + newer, k, s, x) <==> IsLatest(b + newer, k, s, x) {
        }
        SameLatest(a + newer, b + newer, k, s);
      } else {
        assert SameReads(a, b, k, s);
        forall r ensures ReadsAs(a + newer, k, s, r) <==> ReadsAs(b + newer, k, s, r) {
          UnderNothing(a, newer, k, s, r);
          UnderNothing(b, newer, k, s, r);
          assert ReadsAs(a, k, s, r) <==> ReadsAs(b, k, s, r);
        }
      }
    }
  }

  lemma UnderNothing(a: set<Entry>, newer: set<Entry>, k: UserKey, s: nat, r: Option<Value>)
    requires forall c :: c in newer ==> !Candidate(c, k, s)
    ensures ReadsAs(a + newer, k, s, r) <==> ReadsAs(a, k, s, r)
  {
    if ReadsAs(a, k, s, r) { SameCandidates(a, a + newer, k, s, s, r); }
    if ReadsAs(a + newer, k, s, r) { SameCandidates(a + newer, a, k, s, s, r); }
  }

  /** Sets that read alike from some snapshot on do so from the last sequence number on. */
  lemma AlikeFromLast(a: set<Entry>, b: set<Entry>, from: nat, last: nat)
    requires ReadAlike(a, b, from) && Within(a + b, last)
    ensures ReadAlike(a, b, last)
  {
    forall k, s | s >= last ensures SameReads(a, b, k, s) {
      var t := if s >= from then s else from;
      assert SameReads(a, b, k, t);
      forall r ensures ReadsAs(a, k, s, r) <==> ReadsAs(b, k, s, r) {
        LaterSnapshot(a, k, s, t, r);
        LaterSnapshot(b, k, s, t, r);
        assert ReadsAs(a, k, t, r) <==> ReadsAs(b, k, t, r);
      }
    }
  }

  lemma LaterSnapshot(a: set<Entry>, k: UserKey, s: nat, t: nat, r: Option<Value>)
    requires Within(a, s) && s <= t
    ensures ReadsAs(a, k, s, r) <==> ReadsAs(a, k, t, r)
  {
    if ReadsAs(a, k, s, r) { SameCandidates(a, a, k, s, t, r); }
    if ReadsAs(a, k, t, r) { SameCandidates(a, a, k, t, s, r); }
  }

  // ---------------------------------------------------------------------------
  // What a run has promised, and when contents keep the promise
  // ---------------------------------------------------------------------------

  /**
   told: entries of writes that returned OK after a sync; acked: those of them in a log that was not torn then;
   written: entries of all batches ever appended; dropped: entries that compactions left out; floor: the largest
   smallest snapshot that a compaction worked with.
   */
  datatype Story = Story(told: set<Entry>, acked: set<Entry>, written: set<Entry>, dropped: set<Entry>, floor: nat)

  /**
   Tables t and logs l, of which dur is durable, are good for recovery: together with what compactions dropped
   they hold every acknowledged entry and only written ones; what was dropped is missed by no reader; the logs
   are newer than everything in the tables or dropped, and last is at or above that.
   */
  ghost predicate Sound(t: set<Entry>, l: set<Entry>, dur: set<Entry>, last: nat, st: Story) {
    && dur <= l
    && st.acked <= t + st.dropped + dur
    && t + l + st.dropped <= st.written
    && ReadAlike(t, t + st.dropped, st.floor)
    && Above(l, t + st.dropped)
    && Within(t + st.dropped, last)
    && OneEach(t + l + st.dropped)
  }

  /** Logs may lose what is not durable. */
  lemma SoundShrinks(t: set<Entry>, l: set<Entry>, dur: set<Entry>, last: nat, st: Story, l': set<Entry>, dur': set<Entry>)
    requires Sound(t, l, dur, last, st) && l' <= l && dur <= dur' <= l'
    ensures Sound(t, l', dur', last, st)
  {
    hide ReadAlike;
  }

  /** A batch under new sequence numbers reaches the logs. */
  lemma SoundGrows(t: set<Entry>, l: set<Entry>, dur: set<Entry>, last: nat, st: Story, batch: set<Entry>, bound: nat)
    requires Sound(t, l, dur, last, st) && Within(t + l + st.dropped, bound)
    requires OneEach(batch) && forall e :: e in batch ==> e.sn > bound
    ensures Sound(t, l + batch, dur, last, st.(written := st.written + batch))
  {
    hide ReadAlike;
  }

  /** Durable entries may be acknowledged. */
  lemma SoundAcks(t: set<Entry>, l: set<Entry>, dur: set<Entry>, last: nat, st: Story, more: set<Entry>, told: set<Entry>)
    requires Sound(t, l, dur, last, st) && more <= dur
    ensures Sound(t, l, dur, last, st.(acked := st.acked + more, told := told))
  {
    hide ReadAlike, Above, Within, OneEach;
  }

  /** A flush moves the older logs into a table. */
  lemma SoundFlush(t: set<Entry>, l: set<Entry>, dur: set<Entry>, last: nat, st: Story,
                   imm: set<Entry>, l': set<Entry>, dur': set<Entry>, last': nat)
    requires Sound(t, l, dur, last, st) && imm <= l && l' <= l && dur' <= l'
    requires dur <= t + imm + dur' && Above(l', imm) && Within(t + l + st.dropped, last')
    ensures Sound(t + imm, l', dur', last', st)
  {
    AlikeUnderNewer(t, t + st.dropped, imm, st.floor);
    assert t + st.dropped + imm == t + imm + st.dropped;
    hide ReadAlike;
  }

  /** Recovery moves all logs into tables. */
  lemma SoundRecovers(t: set<Entry>, l: set<Entry>, dur: set<Entry>, last: nat, st: Story, last': nat)
    requires Sound(t, l, dur, last, st) && last <= last' && Within(l, last')
    ensures Sound(t + l, {}, {}, last', st)
  {
    AlikeUnderNewer(t, t + st.dropped, l, st.floor);
    assert t + st.dropped + l == t + l + st.dropped;
    hide ReadAlike;
  }

  /** What becomes of the story when tables t are replaced by tables t'. */
  ghost function Dropping(st: Story, t: set<Entry>, t': set<Entry>): Story { st.(dropped := st.dropped + (t - t')) }

  /** The tables without the dropped entries are as good as before... */
  lemma SoundCompacts(t: set<Entry>, l: set<Entry>, dur: set<Entry>, last: nat, st: Story, t': set<Entry>, last': nat)
    requires Sound(t, l, dur, last, st) && t' <= t && ReadAlike(t, t', st.floor) && last <= last'
    ensures Sound(t', l, dur, last', Dropping(st, t, t'))
  {
    assert t' + Dropping(st, t, t').dropped == t + st.dropped;
    AlikeThrough(t', t, t + st.dropped, st.floor, st.floor, st.floor);
    hide ReadAlike;
  }

  /** ...and so are the tables with them, should the edit be lost. */
  lemma SoundUncompacted(t: set<Entry>, l: set<Entry>, dur: set<Entry>, last: nat, st: Story, t': set<Entry>)
    requires Sound(t, l, dur, last, st)
    ensures Sound(t, l, dur, last, Dropping(st, t, t'))
  {
    assert t + Dropping(st, t, t').dropped == t + st.dropped;
    hide ReadAlike;
  }

  lemma SoundFloor(t: set<Entry>, l: set<Entry>, dur: set<Entry>, last: nat, st: Story, floor: nat)
    requires Sound(t, l, dur, last, st) && floor >= st.floor
    ensures Sound(t, l, dur, last, st.(floor := floor))
  {
    hide Above, Within, OneEach, SameReads;
  }

  // ---------------------------------------------------------------------------
  // Recoverable disks
  // ---------------------------------------------------------------------------

  ghost predicate FilesThere(d: Disk, m: Meta) {
    && m.log.Some? && m.next.Some? && m.last.Some? && d.current < m.next.value && m.log.value < m.next.value
    && forall n :: n in m.live ==> n in d.tables && d.tables[n].synced && n < m.next.value
  }

  ghost predicate SoundAt(d: Disk, m: Meta, st: Story)
    requires m.log.Some? && m.last.Some?
  {
    Sound(TableEntries(d, m.live), LogEntries(d, m.log.value), DurableEntries(d, m.log.value), m.last.value, st)
  }

  /** Recovery from this replayed manifest finds every table and sound contents. */
  ghost predicate Recoverable(d: Disk, m: Meta, st: Story) { FilesThere(d, m) && SoundAt(d, m, st) }

  ghost predicate WellFormed(d: Disk) {
    && (forall n :: n in d.logs ==> d.logs[n].synced <= |d.logs[n].records|)
    && d.current in d.manifests
    && d.manifests[d.current].synced <= |d.manifests[d.current].edits|
  }

  function Current(d: Disk): Manifest
    requires d.current in d.manifests
  {
    d.manifests[d.current]
  }

  /** The replayed state if the first k edits of the current manifest survive. */
  function MetaAt(d: Disk, k: nat): Meta
    requires d.current in d.manifests && k <= |Current(d).edits|
  {
    Replay(Current(d).edits[..k])
  }

  /** Which numbers of edits may survive a crash. */
  ghost predicate MaySurvive(d: Disk, k: nat)
    requires d.current in d.manifests
  {
    Current(d).synced <= k <= |Current(d).edits|
  }

  /** Only a manifest that was never synced may be lost whole, and then nothing has been acknowledged. */
  ghost predicate SurvivesWith(d: Disk, k: nat, st: Story)
    requires WellFormed(d) && k <= |Current(d).edits|
  {
    if k == 0 then st.acked == {} else Recoverable(d, MetaAt(d, k), st)
  }

  /** Recovery works whatever part of the unsynced manifest tail survives. */
  ghost predicate DiskInv(d: Disk, st: Story) {
    && WellFormed(d)
    && (forall k :: MaySurvive(d, k) ==> SurvivesWith(d, k, st))
    && NumbersGrow(d)
  }

  function NextAfter(d: Disk, k: nat): int
    requires d.current in d.manifests && k <= |Current(d).edits|
  {
    if MetaAt(d, k).next.Some? then MetaAt(d, k).next.value else -1
  }

  /** Later edits never lower the next file number. */
  ghost predicate NumbersGrow(d: Disk)
    requires WellFormed(d)
  {
    forall j, k :: MaySurvive(d, j) && MaySurvive(d, k) && 0 < j <= k ==> NextAfter(d, j) <= NextAfter(d, k)
  }

  // ---------------------------------------------------------------------------
  // What a crash leaves
  // ---------------------------------------------------------------------------

  /** A log keeps its durable records and some of what follows: a prefix, or any part behind a tear. */
  ghost predicate LogSurvivesAs(a: LogFile, b: LogFile) {
    && a.synced <= b.synced <= |b.records| && a.synced <= |a.records| && b.torn == a.torn
    && b.records[..a.synced] == a.records[..a.synced]
    && if a.torn then forall r :: r in b.records ==> r in a.records
       else |b.records| <= |a.records| && b.records == a.records[..|b.records|]
  }

  ghost predicate ManifestSurvivesAs(a: Manifest, b: Manifest) {
    && a.synced <= b.synced <= |b.edits| <= |a.edits|
    && b.edits == a.edits[..|b.edits|]
  }

  /** d' is what a crash, or the end of the process, may leave of d, as the next process reads it. */
  ghost predicate CrashTo(d: Disk, d': Disk) {
    && d'.current == d.current
    && d'.logs.Keys == d.logs.Keys && d'.manifests.Keys == d.manifests.Keys
    && (forall n :: n in d.logs ==> LogSurvivesAs(d.logs[n], d'.logs[n]))
    && (forall n :: n in d.manifests && d.manifests[n].synced <= |d.manifests[n].edits| ==>
          ManifestSurvivesAs(d.manifests[n], d'.manifests[n]))
    && forall n :: n in d.tables && d.tables[n].synced ==> n in d'.tables && d'.tables[n] == d.tables[n]
  }

  lemma LogSurvives(a: LogFile, b: LogFile)
    requires LogSurvivesAs(a, b)
    ensures Durable(a) <= Durable(b)
    ensures RecordEntries(b.records) <= RecordEntries(a.records)
  {
    assert b.records[..a.synced] == a.records[..a.synced];
    RecordPrefix(b.records, a.synced, b.synced);
    if !a.torn { RecordPrefix(a.records, |b.records|, |a.records|); }
  }

  lemma CrashKeepsLogs(d: Disk, d': Disk, first: nat)
    requires CrashTo(d, d')
    ensures DurableEntries(d, first) <= DurableEntries(d', first)
    ensures LogEntries(d', first) <= LogEntries(d, first)
  {
    forall n | n in d.logs
      ensures Durable(d.logs[n]) <= Durable(d'.logs[n]) && RecordEntries(d'.logs[n].records) <= RecordEntries(d.logs[n].records)
    {
      LogSurvives(d.logs[n], d'.logs[n]);
    }
    hide Durable, RecordEntries, LogSurvivesAs;
    forall e | e in DurableEntries(d, first) ensures e in DurableEntries(d', first) {
      var n :| n in d.logs && n >= first && e in Durable(d.logs[n]);
      assert n in d'.logs;
    }
    forall e | e in LogEntries(d', first) ensures e in LogEntries(d, first) {
      var n :| n in d'.logs && n >= first && e in RecordEntries(d'.logs[n].records);
      assert n in d.logs;
    }
  }

  /** Keeping the live tables, the durable records and nothing new keeps a disk recoverable. */
  lemma RecoverableStays(d: Disk, d': Disk, m: Meta, st: Story)
    requires Recoverable(d, m, st) && d'.current == d.current
    requires forall n :: n in m.live ==> n in d'.tables && d'.tables[n] == d.tables[n]
    requires DurableEntries(d, m.log.value) <= DurableEntries(d', m.log.value)
    requires LogEntries(d', m.log.value) <= LogEntries(d, m.log.value)
    ensures Recoverable(d', m, st)
    ensures TableEntries(d', m.live) == TableEntries(d, m.live)
  {
    hide Sound, LogEntries, DurableEntries;
    assert TableEntries(d', m.live) == TableEntries(d, m.live);
    DurableIsLogged(d', m.log.value);
    hide TableEntries;
    SoundShrinks(TableEntries(d, m.live), LogEntries(d, m.log.value), DurableEntries(d, m.log.value), m.last.value, st,
                 LogEntries(d', m.log.value), DurableEntries(d', m.log.value));
  }

  lemma CrashKeepsMeta(d: Disk, d': Disk, k: nat)
    requires WellFormed(d) && CrashTo(d, d')
    ensures WellFormed(d')
    ensures MaySurvive(d', k) ==> MaySurvive(d, k) && MetaAt(d', k) == MetaAt(d, k)
  {
    var m, m' := Current(d), Current(d');
    assert ManifestSurvivesAs(m, m');
    forall n | n in d'.logs ensures d'.logs[n].synced <= |d'.logs[n].records| {
      assert LogSurvivesAs(d.logs[n], d'.logs[n]);
    }
    if MaySurvive(d', k) { assert m'.edits[..k] == m.edits[..k]; }
  }

  lemma CrashKeepsSurvivor(d: Disk, d': Disk, k: nat, st: Story)
    requires DiskInv(d, st) && CrashTo(d, d') && WellFormed(d') && MaySurvive(d', k)
    ensures SurvivesWith(d', k, st)
  {
    CrashKeepsMeta(d, d', k);
    assert SurvivesWith(d, k, st);
    if k > 0 {
      hide Sound, MetaAt, NumbersGrow;
      CrashKeepsLogs(d, d', MetaAt(d, k).log.value);
      RecoverableStays(d, d', MetaAt(d, k), st);
    }
  }

  /** A crash at any moment leaves a disk from which recovery works. */
  lemma CrashKeepsDisk(d: Disk, d': Disk, st: Story)
    requires DiskInv(d, st) && CrashTo(d, d')
    ensures DiskInv(d', st)
  {
    CrashKeepsMeta(d, d', 0);
    forall k | MaySurvive(d', k) ensures SurvivesWith(d', k, st) { CrashKeepsSurvivor(d, d', k, st); }
    hide CrashTo, SurvivesWith, MaySurvive, MetaAt;
    forall j, k | MaySurvive(d', j) && MaySurvive(d', k) && 0 < j <= k ensures NextAfter(d', j) <= NextAfter(d', k) {
      CrashKeepsMeta(d, d', j);
      CrashKeepsMeta(d, d', k);
    }
  }

  // ---------------------------------------------------------------------------
  // Opening a disk
  // ---------------------------------------------------------------------------

  /** What VersionSet::Recover and DBImpl::Recover insist on before they accept a database. */
  ghost predicate Opens(d: Disk) {
    && d.current in d.manifests
    && var meta := Replay(Current(d).edits);
       meta.log.Some? && meta.next.Some? && meta.last.Some? && forall n :: n in meta.live ==> n in d.tables
  }

  /** The entries that opening the store brings back: the live tables and the logs not yet in them. */
  function Recovered(d: Disk): set<Entry>
    requires d.current in d.manifests
  {
    var meta := Replay(Current(d).edits);
    if meta.log.Some? then TableEntries(d, meta.live) + LogEntries(d, meta.log.value) else {}
  }

  /** The last sequence number after opening: the manifest's, or the largest in a log if that is larger. */
  ghost predicate RecoversLast(d: Disk, last: nat)
    requires Opens(d)
  {
    var meta := Replay(Current(d).edits);
    && last >= meta.last.value && Within(LogEntries(d, meta.log.value), last)
    && (last > meta.last.value ==> exists e :: e in LogEntries(d, meta.log.value) && e.sn == last)
  }

  lemma WholeManifest(d: Disk)
    requires WellFormed(d)
    ensures MaySurvive(d, |Current(d).edits|) && MetaAt(d, |Current(d).edits|) == Replay(Current(d).edits)
  {
    assert Current(d).edits[..|Current(d).edits|] == Current(d).edits;
  }

  /**
   From any disk that the protocol or a crash may leave: opening fails exactly when the manifest is empty, and
   then no write was acknowledged. Otherwise what comes back, with what compactions dropped, is a set of written
   entries that has every acknowledged one, numbers name entries, no entry is above the restored last sequence
   number, and from there on every key reads from what comes back as it does from that whole set.
   */
  lemma OpeningRecovers(d: Disk, st: Story)
    requires DiskInv(d, st)
    ensures Opens(d) <==> Current(d).edits != []
    ensures !Opens(d) ==> st.acked == {}
    ensures Opens(d) ==>
              var h := Recovered(d) + st.dropped;
              && st.acked <= h <= st.written && OneEach(h)
              && forall last :: RecoversLast(d, last) ==> Within(h, last) && ReadAlike(Recovered(d), h, last)
  {
    WholeManifest(d);
    assert SurvivesWith(d, |Current(d).edits|, st);
    if Current(d).edits != [] {
      var m := Replay(Current(d).edits);
      assert Recoverable(d, m, st);
      var t, l := TableEntries(d, m.live), LogEntries(d, m.log.value);
      hide Replay, TableEntries, LogEntries, DurableEntries, ReadAlike;
      AlikeUnderNewer(t, t + st.dropped, l, st.floor);
      assert t + st.dropped + l == t + l + st.dropped;
      forall last | RecoversLast(d, last) ensures Within(t + l + st.dropped, last) && ReadAlike(t + l, t + l + st.dropped, last) {
        assert t + l + (t + l + st.dropped) == t + l + st.dropped;
        AlikeFromLast(t + l, t + l + st.dropped, st.floor, last);
      }
    }
  }

  /** An acknowledged entry with no newer surviving one for its key is what its key reads as. */
  lemma AckedReadsBack(d: Disk, st: Story, e: Entry, last: nat)
    requires DiskInv(d, st) && Opens(d) && RecoversLast(d, last)
    requires e in st.acked && forall x :: x in Recovered(d) + st.dropped && x.key == e.key ==> x.sn <= e.sn
    ensures ReadsAs(Recovered(d), e.key, last, if e.op.Put? then Some(e.op.value) else None)
  {
    OpeningRecovers(d, st);
    var h := Recovered(d) + st.dropped;
    hide DiskInv, Opens, Recovered, RecoversLast;
    assert IsLatest(h, e.key, last, e);
    assert forall x :: IsLatest(h, e.key, last, x) ==> x.sn == e.sn;
    assert SameReads(Recovered(d), h, e.key, last);
  }
}
