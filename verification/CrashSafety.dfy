/**
 The commit and recovery protocol over an abstract disk: every step that the
 running process, a crash or recovery may take, what all of them keep, and what
 opening the store after any run brings back.

 A step of the protocol is a function from states to states together with the
 condition under which the code takes it. Sections run under the mutex, single
 appends, syncs, the rename of CURRENT and the deletion of one file are atomic.
 */
module CrashSafety {
  import opened Basics
  import opened Keys
  import opened Disks

  // ---------------------------------------------------------------------------
  // The process
  // ---------------------------------------------------------------------------

  datatype Job =
    | Idle
    | Built(flush: bool, deleted: set<nat>, added: set<nat>)   // tables written and synced
    | Logged(flush: bool, edit: Edit)                          // edit appended to the manifest, not yet synced

  datatype OpenPhase = ReadingLogs(todo: set<nat>) | ManifestWritten(newLog: nat) | ManifestSynced(newLog: nat)

  datatype Proc =
    | Down
    | Opening(base: Meta, nextFile: nat, last: nat, added: set<nat>, phase: OpenPhase)
    | Up(mem: set<Entry>, imm: Option<set<Entry>>, inFlight: Option<set<Entry>>, logFile: nat, logNumber: nat,
         live: set<nat>, next: nat, last: nat, failed: bool, job: Job)

  datatype State = State(disk: Disk, proc: Proc, story: Story)

  function SetOf(o: Option<set<Entry>>): set<Entry> { if o.Some? then o.value else {} }

  // ---------------------------------------------------------------------------
  // The invariant
  // ---------------------------------------------------------------------------

  /** A surviving part of the manifest points at or before the current log and below the next numbers. */
  ghost predicate TailFits(d: Disk, m: Meta, p: Proc, dropped: set<Entry>)
    requires p.Up?
  {
    && m.log.Some? && m.log.value <= p.logFile && m.next.Some? && m.next.value <= p.next
    && Within(TableEntries(d, m.live) + LogEntries(d, m.log.value) + dropped, p.last)
  }

  ghost predicate ManifestFits(d: Disk, p: Proc, dropped: set<Entry>)
    requires p.Up? && WellFormed(d)
  {
    && Current(d).synced > 0
    && MetaAt(d, Current(d).synced).live == p.live && MetaAt(d, Current(d).synced).log == Some(p.logNumber)
    && forall k :: MaySurvive(d, k) ==> TailFits(d, MetaAt(d, k), p, dropped)
  }

  ghost predicate LogsFit(d: Disk, p: Proc)
    requires p.Up?
  {
    p.logFile in d.logs && p.logNumber <= p.logFile < p.next && forall n :: n in d.logs ==> n <= p.logFile
  }

  /** The current log holds the memtable and the write in flight; what is durable of it is in them, and everything
      is as long as no append or sync has failed; and it is newer than the rest. */
  ghost predicate MemFits(d: Disk, p: Proc, dropped: set<Entry>)
    requires p.Up? && p.logFile in d.logs
  {
    var log := d.logs[p.logFile];
    && p.mem + SetOf(p.inFlight) <= RecordEntries(log.records)
    && Durable(log) <= p.mem
    && (!log.torn && (p.inFlight.Some? || !p.failed) ==> RecordEntries(log.records) <= p.mem + SetOf(p.inFlight))
    && Above(RecordEntries(log.records), SetOf(p.imm) + TableEntries(d, p.live) + dropped)
  }

  /** The log of the immutable memtable is still needed; what is durable of it is in the memtable. Without an
      immutable memtable only the current log is needed. */
  ghost predicate ImmFits(d: Disk, p: Proc)
    requires p.Up?
  {
    && SetOf(p.imm) <= LogEntries(d, p.logNumber)
    && (p.imm.None? ==> p.logNumber == p.logFile)
    && forall n :: n in d.logs && p.logNumber <= n < p.logFile ==> Durable(d.logs[n]) <= SetOf(p.imm)
  }

  /** New tables hold what they replace: on top, the immutable memtable; or no less than every reader needs. */
  ghost predicate EditFits(d: Disk, p: Proc, floor: nat, flush: bool, deleted: set<nat>, added: set<nat>)
    requires p.Up?
  {
    && deleted <= p.live && SyncedTables(d, added) && (forall n :: n in added ==> n < p.next)
    && var t, t' := TableEntries(d, p.live), TableEntries(d, p.live - deleted + added);
       if flush then p.imm.Some? && t' == t + p.imm.value else t' <= t && ReadAlike(t, t', floor)
  }

  ghost predicate JobFits(d: Disk, p: Proc, floor: nat)
    requires p.Up? && WellFormed(d)
  {
    var m := Current(d);
    match p.job
    case Idle => p.failed || |m.edits| == m.synced
    case Built(flush, deleted, added) => |m.edits| == m.synced && EditFits(d, p, floor, flush, deleted, added)
    case Logged(flush, e) =>
      && |m.edits| == m.synced + 1 && m.edits[m.synced] == e
      && e.log == Some(if flush then p.logFile else p.logNumber)
      && EditFits(d, p, floor, flush, e.deleted, e.added)
  }

  ghost predicate UpInv(s: State)
    requires WellFormed(s.disk) && s.proc.Up?
  {
    && ManifestFits(s.disk, s.proc, s.story.dropped)
    && LogsFit(s.disk, s.proc) && MemFits(s.disk, s.proc, s.story.dropped) && ImmFits(s.disk, s.proc)
    && JobFits(s.disk, s.proc, s.story.floor)
  }

  ghost predicate OpeningBase(d: Disk, p: Proc)
    requires p.Opening? && WellFormed(d)
  {
    && Current(d).edits != [] && p.base == Replay(Current(d).edits)
    && p.base.log.Some? && p.base.next.Some? && p.base.last.Some?
    && p.base.next.value < p.nextFile && p.base.last.value <= p.last
  }

  /** The tables made so far hold entries of the logs. */
  ghost predicate OpeningTables(d: Disk, p: Proc)
    requires p.Opening? && p.base.log.Some? && p.base.next.Some?
  {
    && SyncedTables(d, p.added) && (forall n :: n in p.added ==> p.base.next.value < n < p.nextFile)
    && TableEntries(d, p.added) <= LogEntries(d, p.base.log.value) && Within(TableEntries(d, p.added), p.last)
  }

  ghost predicate OpeningPhase(d: Disk, p: Proc)
    requires p.Opening? && p.base.log.Some? && p.base.next.Some?
  {
    match p.phase
    case ReadingLogs(todo) => LogsRead(d, p, todo)
    case ManifestWritten(newLog) => NewManifest(d, p, newLog)
    case ManifestSynced(newLog) => NewManifest(d, p, newLog) && d.manifests[p.base.next.value].synced == 2
  }

  ghost predicate OpeningInv(s: State)
    requires WellFormed(s.disk) && s.proc.Opening?
  {
    OpeningBase(s.disk, s.proc) && OpeningTables(s.disk, s.proc) && OpeningPhase(s.disk, s.proc)
  }

  /** The logs that are not left to read are in tables. */
  ghost predicate LogsRead(d: Disk, p: Proc, todo: set<nat>)
    requires p.Opening? && p.base.log.Some?
  {
    && (forall n :: n in todo ==> n >= p.base.log.value)
    && forall n :: n in d.logs && n >= p.base.log.value && n !in todo ==>
         n < p.nextFile && RecordEntries(d.logs[n].records) <= TableEntries(d, p.added)
  }

  /** The new manifest: a snapshot of the recovered version, then the edit that adds the tables made from the logs. */
  ghost predicate NewManifest(d: Disk, p: Proc, newLog: nat)
    requires p.Opening? && p.base.next.Some? && p.base.log.Some?
  {
    && newLog < p.nextFile && p.base.next.value < newLog
    && newLog in d.logs && d.logs[newLog] == LogFile([], 0, false)
    && (forall n :: n in d.logs ==> n <= newLog)
    && LogEntries(d, p.base.log.value) == TableEntries(d, p.added)
    && p.base.next.value in d.manifests
    && d.manifests[p.base.next.value].edits == NewEdits(p, newLog, p.nextFile)
  }

  function NewEdits(p: Proc, newLog: nat, next: nat): seq<Edit>
    requires p.Opening?
  {
    [Edit(None, None, None, {}, p.base.live), Edit(Some(newLog), Some(next), Some(p.last), {}, p.added)]
  }

  ghost predicate Inv(s: State) {
    && DiskInv(s.disk, s.story)
    && (s.proc.Up? ==> UpInv(s))
    && (s.proc.Opening? ==> OpeningInv(s))
  }

  /** The version in use is one that recovery would find. */
  lemma LiveIsRecoverable(s: State)
    requires Inv(s) && s.proc.Up?
    ensures MaySurvive(s.disk, Current(s.disk).synced)
    ensures Recoverable(s.disk, MetaAt(s.disk, Current(s.disk).synced), s.story)
    ensures SyncedTables(s.disk, s.proc.live) && forall n :: n in s.proc.live ==> n < s.proc.next
  {
    var k := Current(s.disk).synced;
    assert SurvivesWith(s.disk, k, s.story);
    assert TailFits(s.disk, MetaAt(s.disk, k), s.proc, s.story.dropped);
  }

  lemma Assemble(s: State)
    requires s.proc.Up? && WellFormed(s.disk) && NumbersGrow(s.disk)
    requires forall k :: MaySurvive(s.disk, k) ==>
               SurvivesWith(s.disk, k, s.story) && TailFits(s.disk, MetaAt(s.disk, k), s.proc, s.story.dropped)
    requires Current(s.disk).synced > 0
    requires MetaAt(s.disk, Current(s.disk).synced).live == s.proc.live
    requires MetaAt(s.disk, Current(s.disk).synced).log == Some(s.proc.logNumber)
    requires LogsFit(s.disk, s.proc) && MemFits(s.disk, s.proc, s.story.dropped) && ImmFits(s.disk, s.proc)
    requires JobFits(s.disk, s.proc, s.story.floor)
    ensures Inv(s)
  {
    hide WellFormed, NumbersGrow, MaySurvive, SurvivesWith, TailFits, MetaAt, MemFits, ImmFits, JobFits;
  }

  // ---------------------------------------------------------------------------
  // Logs that change
  // ---------------------------------------------------------------------------

  /** Only the current log differs. */
  ghost predicate OnlyLog(d: Disk, d': Disk, n: nat, log: LogFile) {
    n in d.logs && d' == d.(logs := d.logs[n := log])
  }

  lemma AppendedEntries(log: LogFile, batch: set<Entry>, torn: bool)
    requires log.synced <= |log.records|
    ensures RecordEntries(log.records + [batch]) == RecordEntries(log.records) + batch
    ensures Durable(LogFile(log.records + [batch], log.synced, torn)) == Durable(log)
  {
    assert (log.records + [batch])[..log.synced] == log.records[..log.synced];
  }

  lemma LogReplaced(d: Disk, d': Disk, n: nat, log: LogFile, batch: set<Entry>, first: nat)
    requires OnlyLog(d, d', n, log) && first <= n
    requires RecordEntries(log.records) == RecordEntries(d.logs[n].records) + batch && Durable(d.logs[n]) <= Durable(log)
    ensures LogEntries(d', first) == LogEntries(d, first) + batch
    ensures DurableEntries(d', first) == DurableEntries(d, first) + Durable(log)
  {
    hide RecordEntries, Durable;
    forall e | e in LogEntries(d', first) ensures e in LogEntries(d, first) + batch {
      var i :| i in d'.logs && i >= first && e in RecordEntries(d'.logs[i].records);
      assert i in d.logs && (i != n ==> d'.logs[i] == d.logs[i]);
    }
    forall e | e in LogEntries(d, first) + batch ensures e in LogEntries(d', first) {
      if e in LogEntries(d, first) {
        var i :| i in d.logs && i >= first && e in RecordEntries(d.logs[i].records);
        assert i in d'.logs && (i != n ==> d'.logs[i] == d.logs[i]);
      } else {
        assert n in d'.logs && e in RecordEntries(d'.logs[n].records);
      }
    }
    forall e | e in DurableEntries(d', first) ensures e in DurableEntries(d, first) + Durable(log) {
      var i :| i in d'.logs && i >= first && e in Durable(d'.logs[i]);
      assert i in d.logs && (i != n ==> d'.logs[i] == d.logs[i]);
    }
    forall e | e in DurableEntries(d, first) + Durable(log) ensures e in DurableEntries(d', first) {
      if e in DurableEntries(d, first) {
        var i :| i in d.logs && i >= first && e in Durable(d.logs[i]);
        assert i in d'.logs && (i != n ==> d'.logs[i] == d.logs[i]);
      } else {
        assert n in d'.logs && e in Durable(d'.logs[n]);
      }
    }
  }

  /** Same manifests and tables: what may survive, and the tables it leads to, stay. */
  lemma OnlyLogKeepsRest(d: Disk, d': Disk, n: nat, log: LogFile)
    requires WellFormed(d) && OnlyLog(d, d', n, log) && log.synced <= |log.records|
    ensures WellFormed(d') && Current(d') == Current(d)
    ensures forall k :: MaySurvive(d', k) <==> MaySurvive(d, k)
    ensures forall k :: MaySurvive(d, k) ==> MetaAt(d', k) == MetaAt(d, k)
    ensures forall ns :: TableEntries(d', ns) == TableEntries(d, ns)
    ensures NumbersGrow(d) ==> NumbersGrow(d')
  {
    assert Current(d') == Current(d);
    assert d'.tables == d.tables;
  }

  // ---------------------------------------------------------------------------
  // Writes
  // ---------------------------------------------------------------------------

  /** A batch takes the sequence numbers from last + 1 to to. */
  ghost predicate CanAppend(s: State, batch: set<Entry>, to: nat) {
    && s.proc.Up? && s.proc.inFlight.None? && !s.proc.failed && s.proc.logFile in s.disk.logs
    && s.proc.last <= to && OneEach(batch) && forall e :: e in batch ==> s.proc.last < e.sn <= to
  }

  /** The leader of a group appends one record to the log. */
  ghost function Append(s: State, batch: set<Entry>, to: nat): State
    requires CanAppend(s, batch, to)
  {
    var p := s.proc;
    var log := s.disk.logs[p.logFile];
    State(s.disk.(logs := s.disk.logs[p.logFile := log.(records := log.records + [batch])]),
          p.(inFlight := Some(batch), last := to),
          s.story.(written := s.story.written + batch))
  }

  /** The append fails: the record may be in the file in part, or whole; the writers get an error, the sequence
      numbers are used up, and the store goes on. */
  ghost function FailAppend(s: State, batch: set<Entry>, to: nat): State
    requires CanAppend(s, batch, to)
  {
    var p := s.proc;
    var log := s.disk.logs[p.logFile];
    State(s.disk.(logs := s.disk.logs[p.logFile := log.(records := log.records + [batch], torn := true)]),
          p.(last := to),
          s.story.(written := s.story.written + batch))
  }

  /** What may survive of the manifest of a running store. */
  lemma Survivor(s: State, k: nat)
    requires Inv(s) && s.proc.Up? && MaySurvive(s.disk, k)
    ensures k > 0 && Recoverable(s.disk, MetaAt(s.disk, k), s.story)
    ensures TailFits(s.disk, MetaAt(s.disk, k), s.proc, s.story.dropped)
  {
    assert SurvivesWith(s.disk, k, s.story);
    hide Recoverable, TailFits;
  }

  lemma RecoverableAppended(d: Disk, d': Disk, m: Meta, st: Story, n: nat, log: LogFile, batch: set<Entry>, last: nat, to: nat)
    requires Recoverable(d, m, st) && OnlyLog(d, d', n, log) && m.log.value <= n
    requires RecordEntries(log.records) == RecordEntries(d.logs[n].records) + batch && Durable(log) == Durable(d.logs[n])
    requires Within(TableEntries(d, m.live) + LogEntries(d, m.log.value) + st.dropped, last)
    requires last <= to && OneEach(batch) && forall e :: e in batch ==> last < e.sn <= to
    ensures Recoverable(d', m, st.(written := st.written + batch))
    ensures Within(TableEntries(d', m.live) + LogEntries(d', m.log.value) + st.dropped, to)
  {
    hide Sound, RecordEntries, Durable;
    LogReplaced(d, d', n, log, batch, m.log.value);
    DurableOfCurrent(d, n, m.log.value);
    assert TableEntries(d', m.live) == TableEntries(d, m.live);
    assert DurableEntries(d', m.log.value) == DurableEntries(d, m.log.value);
    hide LogEntries, DurableEntries, TableEntries;
    SoundGrows(TableEntries(d, m.live), LogEntries(d, m.log.value), DurableEntries(d, m.log.value), m.last.value, st, batch, last);
  }

  lemma AppendKeepsSurvivor(s: State, batch: set<Entry>, to: nat, d': Disk, log: LogFile, k: nat)
    requires Inv(s) && CanAppend(s, batch, to) && OnlyLog(s.disk, d', s.proc.logFile, log) && WellFormed(d')
    requires log.records == s.disk.logs[s.proc.logFile].records + [batch] && log.synced == s.disk.logs[s.proc.logFile].synced
    requires MaySurvive(d', k)
    ensures SurvivesWith(d', k, s.story.(written := s.story.written + batch))
    ensures TailFits(d', MetaAt(d', k), s.proc.(last := to), s.story.dropped)
  {
    OnlyLogKeepsRest(s.disk, d', s.proc.logFile, log);
    AppendedEntries(s.disk.logs[s.proc.logFile], batch, log.torn);
    Survivor(s, k);
    hide Inv, MetaAt, RecordEntries, Durable, Recoverable, TableEntries, LogEntries, Within, MaySurvive, OnlyLog;
    RecoverableAppended(s.disk, d', MetaAt(s.disk, k), s.story, s.proc.logFile, log, batch, s.proc.last, to);
  }

  lemma DurableOfCurrent(d: Disk, n: nat, first: nat)
    requires n in d.logs && first <= n
    ensures Durable(d.logs[n]) <= DurableEntries(d, first) && RecordEntries(d.logs[n].records) <= LogEntries(d, first)
  {
  }

  /** Everything the store knows of is within the last sequence number. */
  lemma AllWithin(s: State)
    requires Inv(s) && s.proc.Up?
    ensures Within(TableEntries(s.disk, s.proc.live) + SetOf(s.proc.imm) + s.story.dropped, s.proc.last)
  {
    assert TailFits(s.disk, MetaAt(s.disk, Current(s.disk).synced), s.proc, s.story.dropped);
    hide DiskInv, TableEntries, LogEntries, MemFits, JobFits, LogsFit;
  }

  lemma AppendKeepsMem(d: Disk, d': Disk, p: Proc, dropped: set<Entry>, batch: set<Entry>, to: nat, log: LogFile, inFlight: Option<set<Entry>>)
    requires p.Up? && p.logFile in d.logs && MemFits(d, p, dropped) && OnlyLog(d, d', p.logFile, log)
    requires d.logs[p.logFile].synced <= |d.logs[p.logFile].records|
    requires log.records == d.logs[p.logFile].records + [batch] && log.synced == d.logs[p.logFile].synced
    requires Within(TableEntries(d, p.live) + SetOf(p.imm) + dropped, p.last) && forall e :: e in batch ==> e.sn > p.last
    requires p.inFlight.None? && !p.failed && (d.logs[p.logFile].torn ==> log.torn)
    requires if inFlight.None? then log.torn else inFlight == Some(batch)
    ensures MemFits(d', p.(last := to, inFlight := inFlight), dropped)
  {
    AppendedEntries(d.logs[p.logFile], batch, log.torn);
    assert TableEntries(d', p.live) == TableEntries(d, p.live);
    hide RecordEntries, Durable, TableEntries;
  }

  lemma AppendKeepsImm(d: Disk, d': Disk, p: Proc, batch: set<Entry>, to: nat, log: LogFile, inFlight: Option<set<Entry>>)
    requires p.Up? && ImmFits(d, p) && OnlyLog(d, d', p.logFile, log) && p.logNumber <= p.logFile
    requires RecordEntries(log.records) == RecordEntries(d.logs[p.logFile].records) + batch
    requires Durable(d.logs[p.logFile]) <= Durable(log)
    ensures ImmFits(d', p.(last := to, inFlight := inFlight))
  {
    LogReplaced(d, d', p.logFile, log, batch, p.logNumber);
    assert TableEntries(d', p.live) == TableEntries(d, p.live);
    hide RecordEntries, Durable, TableEntries, LogEntries, DurableEntries;
    forall n | n in d'.logs && p.logNumber <= n < p.logFile ensures Durable(d'.logs[n]) <= SetOf(p.imm) {
      assert n in d.logs && d'.logs[n] == d.logs[n];
    }
  }

  /** An edit that fits the tables fits whatever happens to the logs. */
  lemma JobKeptByTables(d: Disk, d': Disk, p: Proc, p': Proc, floor: nat)
    requires p.Up? && p'.Up? && WellFormed(d) && WellFormed(d') && JobFits(d, p, floor)
    requires d'.tables == d.tables && Current(d') == Current(d)
    requires p'.job == p.job && p'.live == p.live && p.next <= p'.next && (p.failed ==> p'.failed)
    requires p.job != Idle ==> (p.job.flush ==> p'.imm == p.imm) && p'.logNumber == p.logNumber && (p.job.flush ==> p'.logFile == p.logFile)
    ensures JobFits(d', p', floor)
  {
    assert forall ns :: TableEntries(d', ns) == TableEntries(d, ns);
    hide TableEntries, ReadAlike;
  }

  lemma AppendKeepsUp(s: State, batch: set<Entry>, to: nat, d': Disk, log: LogFile, inFlight: Option<set<Entry>>)
    requires Inv(s) && CanAppend(s, batch, to) && OnlyLog(s.disk, d', s.proc.logFile, log)
    requires log.records == s.disk.logs[s.proc.logFile].records + [batch] && log.synced == s.disk.logs[s.proc.logFile].synced
    requires s.disk.logs[s.proc.logFile].torn ==> log.torn
    requires if inFlight.None? then log.torn else inFlight == Some(batch)
    ensures Inv(State(d', s.proc.(inFlight := inFlight, last := to), s.story.(written := s.story.written + batch)))
  {
    var d, p := s.disk, s.proc;
    var p' := p.(inFlight := inFlight, last := to);
    OnlyLogKeepsRest(d, d', p.logFile, log);
    AllWithin(s);
    AppendedEntries(d.logs[p.logFile], batch, log.torn);
    forall k | MaySurvive(d', k)
      ensures SurvivesWith(d', k, s.story.(written := s.story.written + batch)) && TailFits(d', MetaAt(d', k), p', s.story.dropped)
    {
      AppendKeepsSurvivor(s, batch, to, d', log, k);
    }
    SameStart(s, d', p.logFile, log);
    hide SurvivesWith, TailFits, MetaAt, MaySurvive, Durable, RecordEntries, Within, TableEntries, NumbersGrow;
    AppendKeepsMem(d, d', p, s.story.dropped, batch, to, log, inFlight);
    AppendKeepsImm(d, d', p, batch, to, log, inFlight);
    LogsFitStill(d, d', p, log);
    JobKeptByTables(d, d', p, p', s.story.floor);
    hide MemFits, ImmFits, JobFits, OnlyLog, LogsFit, DiskInv;
    assert LogsFit(d', p') by { LogsFitAlike(d', p, p'); }
    Assemble(State(d', p', s.story.(written := s.story.written + batch)));
  }

  lemma LogsFitAlike(d: Disk, p: Proc, p': Proc)
    requires p.Up? && p'.Up? && LogsFit(d, p)
    requires p'.logFile == p.logFile && p'.logNumber == p.logNumber && p.next <= p'.next
    ensures LogsFit(d, p')
  {
  }

  /** The synced manifest starts from the same place when only a log changes. */
  lemma SameStart(s: State, d': Disk, n: nat, log: LogFile)
    requires Inv(s) && s.proc.Up? && OnlyLog(s.disk, d', n, log) && log.synced <= |log.records|
    ensures WellFormed(d') && NumbersGrow(d') && Current(d') == Current(s.disk) && Current(d').synced > 0
    ensures MetaAt(d', Current(d').synced).live == s.proc.live && MetaAt(d', Current(d').synced).log == Some(s.proc.logNumber)
  {
    OnlyLogKeepsRest(s.disk, d', n, log);
  }

  lemma LogsFitStill(d: Disk, d': Disk, p: Proc, log: LogFile)
    requires p.Up? && LogsFit(d, p) && OnlyLog(d, d', p.logFile, log)
    ensures LogsFit(d', p)
  {
  }

  lemma AppendKeeps(s: State, batch: set<Entry>, to: nat)
    requires Inv(s) && CanAppend(s, batch, to)
    ensures Inv(Append(s, batch, to)) && Inv(FailAppend(s, batch, to))
  {
    var log := s.disk.logs[s.proc.logFile];
    hide Inv;
    AppendKeepsUp(s, batch, to, Append(s, batch, to).disk, log.(records := log.records + [batch]), Some(batch));
    AppendKeepsUp(s, batch, to, FailAppend(s, batch, to).disk, log.(records := log.records + [batch], torn := true), None);
  }

  /** The leader's batch reaches the memtable and is acknowledged; with sync, after the log was synced. What is
      synced behind a tear may still not be readable. */
  ghost predicate CanFinish(s: State) { s.proc.Up? && s.proc.inFlight.Some? && s.proc.logFile in s.disk.logs }

  ghost function FinishWrite(s: State, sync: bool): State
    requires CanFinish(s)
  {
    var p, batch := s.proc, s.proc.inFlight.value;
    var log := s.disk.logs[p.logFile];
    var p' := p.(mem := p.mem + batch, inFlight := None);
    if !sync then s.(proc := p')
    else if log.torn then State(s.disk, p', s.story.(told := s.story.told + batch))
    else
      State(s.disk.(logs := s.disk.logs[p.logFile := log.(synced := |log.records|)]), p',
            s.story.(told := s.story.told + batch, acked := s.story.acked + batch))
  }

  lemma RecoverableSynced(d: Disk, d': Disk, m: Meta, st: Story, n: nat, log: LogFile, batch: set<Entry>, told: set<Entry>)
    requires Recoverable(d, m, st) && OnlyLog(d, d', n, log) && m.log.value <= n
    requires log == d.logs[n].(synced := |log.records|) && batch <= RecordEntries(log.records)
    ensures Recoverable(d', m, st.(told := told, acked := st.acked + batch))
    ensures TableEntries(d', m.live) == TableEntries(d, m.live) && LogEntries(d', m.log.value) == LogEntries(d, m.log.value)
  {
    hide Sound;
    SyncedLog(d.logs[n], log);
    hide RecordEntries, Durable;
    LogReplaced(d, d', n, log, {}, m.log.value);
    assert TableEntries(d', m.live) == TableEntries(d, m.live) && LogEntries(d', m.log.value) == LogEntries(d, m.log.value);
    DurableIsLogged(d', m.log.value);
    DurableOfCurrent(d', n, m.log.value);
    assert batch <= DurableEntries(d', m.log.value);
    hide LogEntries, DurableEntries, TableEntries;
    var t, l, dur := TableEntries(d, m.live), LogEntries(d, m.log.value), DurableEntries(d', m.log.value);
    SoundShrinks(t, l, DurableEntries(d, m.log.value), m.last.value, st, l, dur);
    SoundAcks(t, l, dur, m.last.value, st, batch, told);
  }

  lemma SyncKeepsSurvivor(s: State, d': Disk, log: LogFile, told: set<Entry>, k: nat)
    requires Inv(s) && CanFinish(s) && OnlyLog(s.disk, d', s.proc.logFile, log) && WellFormed(d')
    requires log == s.disk.logs[s.proc.logFile].(synced := |log.records|) && MaySurvive(d', k)
    ensures SurvivesWith(d', k, s.story.(told := told, acked := s.story.acked + s.proc.inFlight.value))
    ensures TailFits(d', MetaAt(d', k), s.proc, s.story.dropped)
  {
    OnlyLogKeepsRest(s.disk, d', s.proc.logFile, log);
    Survivor(s, k);
    assert s.proc.inFlight.value <= RecordEntries(log.records);
    hide Inv, MetaAt, RecordEntries, Durable, Recoverable, TableEntries, LogEntries, Within, MaySurvive, OnlyLog;
    RecoverableSynced(s.disk, d', MetaAt(s.disk, k), s.story, s.proc.logFile, log, s.proc.inFlight.value, told);
  }

  /** The promises may be added to without touching anything else. */
  lemma ToldKeeps(s: State, told: set<Entry>)
    requires Inv(s)
    ensures Inv(s.(story := s.story.(told := told)))
  {
    var st' := s.story.(told := told);
    forall k | MaySurvive(s.disk, k) ensures SurvivesWith(s.disk, k, st') {
      assert SurvivesWith(s.disk, k, s.story);
    }
  }

  /** The memtable and the write in flight concern only the current log. */
  lemma OthersKept(d: Disk, p: Proc, p': Proc, story: Story)
    requires p.Up? && p'.Up? && WellFormed(d)
    requires p' == p.(mem := p'.mem, inFlight := p'.inFlight, failed := p'.failed) && (p.failed ==> p'.failed)
    ensures ManifestFits(d, p, story.dropped) ==> ManifestFits(d, p', story.dropped)
    ensures LogsFit(d, p) ==> LogsFit(d, p')
    ensures ImmFits(d, p) ==> ImmFits(d, p')
    ensures JobFits(d, p, story.floor) ==> JobFits(d, p', story.floor)
  {
    hide TableEntries, LogEntries, MetaAt, Within, ReadAlike;
  }

  lemma FinishMem(s: State)
    requires Inv(s) && CanFinish(s)
    ensures Inv(FinishWrite(s, false))
  {
    var p' := FinishWrite(s, false).proc;
    OthersKept(s.disk, s.proc, p', s.story);
    hide DiskInv, ManifestFits, LogsFit, ImmFits, JobFits;
    assert p'.mem + SetOf(p'.inFlight) == s.proc.mem + SetOf(s.proc.inFlight);
    hide Durable, RecordEntries, TableEntries;
  }

  lemma SyncKeepsMem(d: Disk, d': Disk, p: Proc, p': Proc, dropped: set<Entry>, log: LogFile)
    requires p.Up? && p.logFile in d.logs && MemFits(d, p, dropped) && p.inFlight.Some? && OnlyLog(d, d', p.logFile, log)
    requires log == d.logs[p.logFile].(synced := |log.records|) && !log.torn
    requires p' == p.(mem := p.mem + p.inFlight.value, inFlight := None)
    ensures MemFits(d', p', dropped)
  {
    SyncedLog(d.logs[p.logFile], log);
    assert p'.mem + SetOf(p'.inFlight) == p.mem + SetOf(p.inFlight);
    assert TableEntries(d', p.live) == TableEntries(d, p.live);
    hide RecordEntries, Durable, TableEntries;
  }

  lemma SyncKeeps(s: State)
    requires Inv(s) && CanFinish(s) && !s.disk.logs[s.proc.logFile].torn
    ensures Inv(FinishWrite(s, true))
  {
    var s', d, p := FinishWrite(s, true), s.disk, s.proc;
    var d', log := s'.disk, s'.disk.logs[p.logFile];
    OnlyLogKeepsRest(d, d', p.logFile, log);
    forall k | MaySurvive(d', k)
      ensures SurvivesWith(d', k, s'.story) && TailFits(d', MetaAt(d', k), s'.proc, s'.story.dropped)
    {
      SyncKeepsSurvivor(s, d', log, s'.story.told, k);
    }
    SameStart(s, d', p.logFile, log);
    hide SurvivesWith, TailFits, MetaAt, MaySurvive, TableEntries, MemFits, NumbersGrow;
    SyncKeepsMem(d, d', p, s'.proc, s.story.dropped, log);
    SyncedLog(d.logs[p.logFile], log);
    hide RecordEntries, Durable;
    AppendKeepsImm(d, d', p, {}, p.last, log, None);
    assert ImmFits(d', s'.proc);
    JobKeptByTables(d, d', p, s'.proc, s.story.floor);
    LogsFitStill(d, d', p, log);
    hide ImmFits, JobFits, OnlyLog, LogsFit, DiskInv;
    LogsFitAlike(d', p, s'.proc);
    Assemble(s');
  }

  lemma SyncedLog(log: LogFile, log': LogFile)
    requires log' == log.(synced := |log.records|)
    ensures RecordEntries(log'.records) == RecordEntries(log.records) + {} && Durable(log) <= Durable(log') == RecordEntries(log.records)
  {
    assert log.records[..|log.records|] == log.records;
    DurableIsRecorded(log);
  }

  lemma FinishKeeps(s: State, sync: bool)
    requires Inv(s) && CanFinish(s)
    ensures Inv(FinishWrite(s, sync))
  {
    FinishMem(s);
    if sync && !s.disk.logs[s.proc.logFile].torn {
      SyncKeeps(s);
    } else if sync {
      ToldKeeps(FinishWrite(s, false), s.story.told + s.proc.inFlight.value);
    }
  }

  /** The log could not be synced: the record may or may not survive, and all later writes fail. */
  ghost function FailWrite(s: State): State
    requires s.proc.Up?
  {
    s.(proc := s.proc.(inFlight := None, failed := true))
  }

  lemma FailWriteKeeps(s: State)
    requires Inv(s) && s.proc.Up?
    ensures Inv(FailWrite(s))
  {
    OthersKept(s.disk, s.proc, FailWrite(s).proc, s.story);
    hide DiskInv, ManifestFits, LogsFit, ImmFits, JobFits, Durable, RecordEntries, TableEntries;
  }

  // ---------------------------------------------------------------------------
  // Memtable switch
  // ---------------------------------------------------------------------------

  ghost predicate CanSwitch(s: State) {
    s.proc.Up? && !s.proc.failed && s.proc.inFlight.None? && s.proc.imm.None?
  }

  ghost function SwitchMemTable(s: State): State
    requires CanSwitch(s)
  {
    var p := s.proc;
    s.(disk := s.disk.(logs := s.disk.logs[p.next := LogFile([], 0, false)]),
       proc := p.(mem := {}, imm := Some(p.mem), logFile := p.next, next := p.next + 1))
  }

  /** Only an empty log is new. */
  ghost predicate EmptyLogAdded(d: Disk, d': Disk, n: nat) {
    n !in d.logs && d'.logs == d.logs[n := LogFile([], 0, false)] && d'.tables == d.tables && d'.current == d.current
  }

  lemma EmptyLogReads(d: Disk, d': Disk, n: nat, first: nat)
    requires EmptyLogAdded(d, d', n)
    ensures DurableEntries(d, first) == DurableEntries(d', first)
    ensures LogEntries(d', first) == LogEntries(d, first)
  {
    assert RecordEntries(d'.logs[n].records) == {} && Durable(d'.logs[n]) == {};
    hide RecordEntries, Durable;
    forall e | e in DurableEntries(d, first) ensures e in DurableEntries(d', first) {
      var i :| i in d.logs && i >= first && e in Durable(d.logs[i]);
      assert i in d'.logs && d'.logs[i] == d.logs[i];
    }
    forall e | e in LogEntries(d, first) ensures e in LogEntries(d', first) {
      var i :| i in d.logs && i >= first && e in RecordEntries(d.logs[i].records);
      assert i in d'.logs && d'.logs[i] == d.logs[i];
    }
    forall e | e in DurableEntries(d', first) ensures e in DurableEntries(d, first) {
      var i :| i in d'.logs && i >= first && e in Durable(d'.logs[i]);
      assert i in d.logs;
    }
    forall e | e in LogEntries(d', first) ensures e in LogEntries(d, first) {
      var i :| i in d'.logs && i >= first && e in RecordEntries(d'.logs[i].records);
      assert i in d.logs;
    }
  }

  lemma EmptyLogKeepsMeta(d: Disk, d': Disk, n: nat, m: Meta, st: Story)
    requires EmptyLogAdded(d, d', n) && Recoverable(d, m, st)
    ensures Recoverable(d', m, st)
    ensures TableEntries(d', m.live) == TableEntries(d, m.live) && LogEntries(d', m.log.value) == LogEntries(d, m.log.value)
  {
    hide Sound;
    EmptyLogReads(d, d', n, m.log.value);
    hide LogEntries, DurableEntries;
    assert TableEntries(d', m.live) == TableEntries(d, m.live);
  }

  lemma SwitchKeepsSurvivor(s: State, k: nat)
    requires Inv(s) && CanSwitch(s) && WellFormed(SwitchMemTable(s).disk) && MaySurvive(s.disk, k)
    requires s.proc.next !in s.disk.logs && Current(SwitchMemTable(s).disk) == Current(s.disk)
    ensures SurvivesWith(SwitchMemTable(s).disk, k, s.story)
    ensures TailFits(SwitchMemTable(s).disk, MetaAt(s.disk, k), SwitchMemTable(s).proc, s.story.dropped)
  {
    Survivor(s, k);
    assert LogsFit(s.disk, s.proc);
    hide Inv, Recoverable, TableEntries, LogEntries, Within, LogsFit;
    EmptyLogKeepsMeta(s.disk, SwitchMemTable(s).disk, s.proc.next, MetaAt(s.disk, k), s.story);
    assert s.proc.logFile < s.proc.next by { LogsBelow(s.disk, s.proc); }
  }

  lemma LogsBelow(d: Disk, p: Proc)
    requires p.Up? && LogsFit(d, p)
    ensures p.logNumber <= p.logFile < p.next && p.next !in d.logs && p.logFile in d.logs
  {
  }

  lemma SwitchKeepsImm(s: State)
    requires Inv(s) && CanSwitch(s)
    ensures ImmFits(SwitchMemTable(s).disk, SwitchMemTable(s).proc)
  {
    var d, p, d', p' := s.disk, s.proc, SwitchMemTable(s).disk, SwitchMemTable(s).proc;
    LogsBelow(d, p);
    EmptyLogReads(d, d', p.next, p.logNumber);
    DurableOfCurrent(d, p.logFile, p.logNumber);
    hide DiskInv, ManifestFits, JobFits, RecordEntries, Durable, LogEntries, DurableEntries, TableEntries;
    forall n | n in d'.logs && p.logNumber <= n < p'.logFile ensures Durable(d'.logs[n]) <= p.mem {
      assert n in d.logs && d'.logs[n] == d.logs[n] && n == p.logFile;
    }
  }

  lemma SwitchKeepsMem(s: State)
    requires Inv(s) && CanSwitch(s)
    ensures WellFormed(SwitchMemTable(s).disk) && Current(SwitchMemTable(s).disk) == Current(s.disk)
    ensures LogsFit(SwitchMemTable(s).disk, SwitchMemTable(s).proc)
    ensures MemFits(SwitchMemTable(s).disk, SwitchMemTable(s).proc, s.story.dropped)
  {
    var s', p := SwitchMemTable(s), s.proc;
    LogsBelow(s.disk, p);
    assert RecordEntries(s'.disk.logs[p.next].records) == {} && Durable(s'.disk.logs[p.next]) == {};
    hide RecordEntries, Durable, DiskInv, UpInv, ImmFits;
  }

  lemma SwitchKeeps(s: State)
    requires Inv(s) && CanSwitch(s)
    ensures Inv(SwitchMemTable(s))
  {
    var s', p, d := SwitchMemTable(s), s.proc, s.disk;
    LogsBelow(d, p);
    SwitchKeepsMem(s);
    SwitchKeepsImm(s);
    JobKeptByTables(d, s'.disk, p, s'.proc, s.story.floor);
    SameManifest(d, s'.disk);
    hide MemFits, ImmFits, JobFits, LogsFit, TailFits, SurvivesWith, MetaAt, MaySurvive, WellFormed;
    forall k | MaySurvive(s'.disk, k)
      ensures SurvivesWith(s'.disk, k, s'.story) && TailFits(s'.disk, MetaAt(s'.disk, k), s'.proc, s'.story.dropped)
    {
      SwitchKeepsSurvivor(s, k);
    }
    Assemble(s');
  }

  /** What may survive depends on the manifest alone. */
  lemma SameManifest(d: Disk, d': Disk)
    requires WellFormed(d) && WellFormed(d') && Current(d') == Current(d)
    ensures forall k :: MaySurvive(d', k) <==> MaySurvive(d, k)
    ensures forall k :: MaySurvive(d, k) ==> MetaAt(d', k) == MetaAt(d, k)
    ensures NumbersGrow(d) ==> NumbersGrow(d')
  {
  }

  // ---------------------------------------------------------------------------
  // Tables under fresh numbers
  // ---------------------------------------------------------------------------

  /** Only table files under numbers from next on have changed. */
  ghost predicate OnlyFreshTables(d: Disk, d': Disk, next: nat) {
    && d'.logs == d.logs && d'.manifests == d.manifests && d'.current == d.current
    && forall n :: n in d.tables && n < next ==> n in d'.tables && d'.tables[n] == d.tables[n]
  }

  lemma FreshTables(d: Disk, d': Disk, next: nat, ns: set<nat>)
    requires OnlyFreshTables(d, d', next) && SyncedTables(d, ns) && forall n :: n in ns ==> n < next
    ensures SyncedTables(d', ns) && TableEntries(d', ns) == TableEntries(d, ns)
  {
  }

  lemma SameLogs(d: Disk, d': Disk, first: nat)
    requires d'.logs == d.logs
    ensures LogEntries(d', first) == LogEntries(d, first) && DurableEntries(d', first) == DurableEntries(d, first)
  {
  }

  /** Fresh table files disturb no surviving manifest. */
  lemma FreshTablesKeepMeta(d: Disk, d': Disk, next: nat, m: Meta, st: Story)
    requires OnlyFreshTables(d, d', next) && Recoverable(d, m, st) && m.next.value <= next
    ensures Recoverable(d', m, st)
    ensures TableEntries(d', m.live) == TableEntries(d, m.live) && LogEntries(d', m.log.value) == LogEntries(d, m.log.value)
  {
    SameLogs(d, d', m.log.value);
    hide Sound, TableEntries, LogEntries, DurableEntries;
    FreshTables(d, d', next, m.live);
  }

  lemma FreshTablesKeepDisk(d: Disk, d': Disk, next: nat, st: Story)
    requires DiskInv(d, st) && OnlyFreshTables(d, d', next)
    requires forall k :: MaySurvive(d, k) && k > 0 && MetaAt(d, k).next.Some? ==> MetaAt(d, k).next.value <= next
    ensures DiskInv(d', st)
  {
    SameManifest(d, d');
    hide MetaAt, Recoverable, NumbersGrow, WellFormed, MaySurvive, OnlyFreshTables;
    forall k | MaySurvive(d', k) ensures SurvivesWith(d', k, st) {
      assert SurvivesWith(d, k, st);
      if k > 0 {
        NextIsThere(d, MetaAt(d, k), st);
        FreshTablesKeepMeta(d, d', next, MetaAt(d, k), st);
      }
    }
  }

  lemma NextIsThere(d: Disk, m: Meta, st: Story)
    requires Recoverable(d, m, st)
    ensures m.next.Some? && m.log.Some? && m.last.Some?
  {
  }

  lemma FreshTablesKeepEdit(d: Disk, d': Disk, p: Proc, p': Proc, floor: nat, flush: bool, deleted: set<nat>, added: set<nat>)
    requires p.Up? && p'.Up? && EditFits(d, p, floor, flush, deleted, added) && OnlyFreshTables(d, d', p.next)
    requires SyncedTables(d, p.live) && forall n :: n in p.live ==> n < p.next
    requires p'.live == p.live && p'.imm == p.imm && p.next <= p'.next
    ensures EditFits(d', p', floor, flush, deleted, added)
  {
    FreshTables(d, d', p.next, p.live);
    FreshTables(d, d', p.next, p.live - deleted + added);
    FreshTables(d, d', p.next, added);
    hide TableEntries, ReadAlike, OnlyFreshTables;
  }

  lemma FreshTablesKeepJob(d: Disk, d': Disk, p: Proc, p': Proc, floor: nat)
    requires p.Up? && p'.Up? && WellFormed(d) && WellFormed(d') && JobFits(d, p, floor) && OnlyFreshTables(d, d', p.next)
    requires SyncedTables(d, p.live) && forall n :: n in p.live ==> n < p.next
    requires p' == p.(next := p'.next) && p.next <= p'.next
    ensures JobFits(d', p', floor)
  {
    assert Current(d') == Current(d);
    if p.job.Built? {
      FreshTablesKeepEdit(d, d', p, p', floor, p.job.flush, p.job.deleted, p.job.added);
    } else if p.job.Logged? {
      FreshTablesKeepEdit(d, d', p, p', floor, p.job.flush, p.job.edit.deleted, p.job.edit.added);
    }
    hide EditFits, OnlyFreshTables, SyncedTables;
  }

  lemma FreshTablesKeepMem(d: Disk, d': Disk, p: Proc, p': Proc, dropped: set<Entry>)
    requires p.Up? && p'.Up? && p.logFile in d.logs && OnlyFreshTables(d, d', p.next)
    requires SyncedTables(d, p.live) && forall n :: n in p.live ==> n < p.next
    requires p' == p.(next := p'.next) && p.next <= p'.next
    ensures MemFits(d, p, dropped) ==> MemFits(d', p', dropped)
    ensures ImmFits(d, p) ==> ImmFits(d', p')
    ensures LogsFit(d, p) ==> LogsFit(d', p')
  {
    FreshTables(d, d', p.next, p.live);
    SameLogs(d, d', p.logNumber);
    hide TableEntries, LogEntries, RecordEntries, Durable;
  }

  /** A process that knows only tables below the fresh numbers is not concerned. */
  lemma FreshTablesKeepUp(s: State, d': Disk, next: nat)
    requires Inv(s) && s.proc.Up? && OnlyFreshTables(s.disk, d', s.proc.next) && next >= s.proc.next
    ensures Inv(s.(disk := d', proc := s.proc.(next := next)))
  {
    var d, p, s' := s.disk, s.proc, s.(disk := d', proc := s.proc.(next := next));
    var p' := s'.proc;
    LiveIsRecoverable(s);
    SameManifest(d, d');
    FreshTablesKeepJob(d, d', p, p', s.story.floor);
    FreshTablesKeepMem(d, d', p, p', s.story.dropped);
    hide MetaAt, Recoverable, NumbersGrow, MaySurvive, MemFits, ImmFits, LogsFit, JobFits, OnlyFreshTables, SyncedTables, WellFormed;
    hide TableEntries, LogEntries, Within;
    forall k | MaySurvive(d', k)
      ensures SurvivesWith(d', k, s.story) && TailFits(d', MetaAt(d', k), p', s.story.dropped)
    {
      Survivor(s, k);
      NextIsThere(d, MetaAt(d, k), s.story);
      FreshTablesKeepMeta(d, d', p.next, MetaAt(d, k), s.story);
    }
    hide SurvivesWith, TailFits, DiskInv;
    Assemble(s');
  }

  /** A table file appears under a fresh number, its contents not yet durable. */
  ghost predicate CanScribble(s: State) { s.proc.Up? || (s.proc.Opening? && s.proc.phase.ReadingLogs?) }

  ghost function Scribble(s: State, junk: set<Entry>): State
    requires CanScribble(s)
  {
    var n := if s.proc.Up? then s.proc.next else s.proc.nextFile;
    s.(disk := s.disk.(tables := s.disk.tables[n := TableFile(junk, false)]),
       proc := if s.proc.Up? then s.proc.(next := n + 1) else s.proc.(nextFile := n + 1))
  }

  lemma ScribbleKeeps(s: State, junk: set<Entry>)
    requires Inv(s) && CanScribble(s)
    ensures Inv(Scribble(s, junk))
  {
    hide Inv, OnlyFreshTables;
    var s' := Scribble(s, junk);
    OneFreshTable(s.disk, if s.proc.Up? then s.proc.next else s.proc.nextFile, TableFile(junk, false));
    if s.proc.Up? {
      FreshTablesKeepUp(s, s'.disk, s.proc.next + 1);
    } else {
      FreshTablesKeepOpening(s, s'.disk, s.proc.nextFile, s.proc.nextFile + 1);
    }
  }

  /** The numbers in the manifest that is being opened are below those in use. */
  lemma OpeningBounds(s: State)
    requires Inv(s) && s.proc.Opening?
    ensures forall k :: MaySurvive(s.disk, k) && k > 0 && MetaAt(s.disk, k).next.Some? ==>
              MetaAt(s.disk, k).next.value <= s.proc.base.next.value
    ensures Recoverable(s.disk, s.proc.base, s.story)
  {
    var d := s.disk;
    WholeManifest(d);
    var n := |Current(d).edits|;
    assert SurvivesWith(d, n, s.story) && MetaAt(d, n) == s.proc.base;
    hide MetaAt, Recoverable, OpeningInv, UpInv;
    forall k | MaySurvive(d, k) && k > 0 && MetaAt(d, k).next.Some? ensures MetaAt(d, k).next.value <= s.proc.base.next.value {
      assert NextAfter(d, k) <= NextAfter(d, n);
    }
  }

  lemma FreshTablesKeepOpening(s: State, d': Disk, next: nat, next': nat)
    requires Inv(s) && s.proc.Opening? && s.proc.phase.ReadingLogs? && OnlyFreshTables(s.disk, d', next)
    requires next == s.proc.nextFile <= next'
    ensures Inv(s.(disk := d', proc := s.proc.(nextFile := next')))
  {
    OpeningBounds(s);
    assert OpeningInv(s);
    FreshTablesKeepDisk(s.disk, d', next, s.story);
    SameManifest(s.disk, d');
    hide DiskInv, MetaAt, Recoverable, Replay;
    OpeningKept(s.disk, d', s.proc, s.proc.(nextFile := next'));
  }

  /** Fresh tables change nothing for an opening process that is still reading logs. */
  lemma OpeningKept(d: Disk, d': Disk, p: Proc, p': Proc)
    requires p.Opening? && p'.Opening? && p.phase.ReadingLogs? && WellFormed(d) && WellFormed(d')
    requires OpeningBase(d, p) && OpeningTables(d, p) && OpeningPhase(d, p) && OnlyFreshTables(d, d', p.nextFile)
    requires p' == p.(nextFile := p'.nextFile) && p.nextFile <= p'.nextFile
    ensures OpeningBase(d', p') && OpeningTables(d', p') && OpeningPhase(d', p')
  {
    FreshTables(d, d', p.nextFile, p.added);
    SameLogs(d, d', p.base.log.value);
    assert Current(d') == Current(d);
    hide TableEntries, LogEntries, RecordEntries, Replay, SyncedTables;
  }

  // ---------------------------------------------------------------------------
  // Flushes and compactions
  // ---------------------------------------------------------------------------

  /** BuildTable for the immutable memtable: a synced table, or none if it is empty. */
  ghost predicate CanBuildFlush(s: State) {
    s.proc.Up? && !s.proc.failed && s.proc.job == Idle && s.proc.imm.Some?
  }

  ghost function BuildFlush(s: State): State
    requires CanBuildFlush(s)
  {
    var p := s.proc;
    if p.imm.value == {} then s.(proc := p.(next := p.next + 1, job := Built(true, {}, {})))
    else
      s.(disk := s.disk.(tables := s.disk.tables[p.next := TableFile(p.imm.value, true)]),
         proc := p.(next := p.next + 1, job := Built(true, {}, {p.next})))
  }

  /** The job is the background thread's own business. */
  lemma JobBegins(s: State, job: Job)
    requires Inv(s) && s.proc.Up? && s.proc.job == Idle && !s.proc.failed && job.Built?
    requires EditFits(s.disk, s.proc, s.story.floor, job.flush, job.deleted, job.added)
    ensures Inv(s.(proc := s.proc.(job := job)))
  {
    var p' := s.proc.(job := job);
    JobIsApart(s.disk, s.proc, p', s.story.dropped);
    EditIsApart(s.disk, s.proc, p', s.story.floor, job.flush, job.deleted, job.added);
    hide DiskInv, ManifestFits, LogsFit, MemFits, ImmFits, EditFits;
  }

  lemma EditIsApart(d: Disk, p: Proc, p': Proc, floor: nat, flush: bool, deleted: set<nat>, added: set<nat>)
    requires p.Up? && p'.Up? && p'.live == p.live && p'.next == p.next && p'.imm == p.imm
    requires EditFits(d, p, floor, flush, deleted, added)
    ensures EditFits(d, p', floor, flush, deleted, added)
  {
    hide ReadAlike, TableEntries, SyncedTables;
  }

  lemma JobIsApart(d: Disk, p: Proc, p': Proc, dropped: set<Entry>)
    requires p.Up? && p'.Up? && WellFormed(d) && p.logFile in d.logs
    requires p' == p.(job := p'.job, failed := p'.failed) && (p.failed ==> p'.failed)
    ensures ManifestFits(d, p, dropped) ==> ManifestFits(d, p', dropped)
    ensures LogsFit(d, p) ==> LogsFit(d, p')
    ensures MemFits(d, p, dropped) ==> MemFits(d, p', dropped)
    ensures ImmFits(d, p) ==> ImmFits(d, p')
  {
    hide TableEntries, LogEntries, MetaAt, Within, Above, RecordEntries, Durable;
  }

  lemma OneFreshTable(d: Disk, n: nat, t: TableFile)
    ensures OnlyFreshTables(d, d.(tables := d.tables[n := t]), n) && OnlyFreshTables(d, d, n)
  {
  }

  lemma BuildFlushKeeps(s: State)
    requires Inv(s) && CanBuildFlush(s)
    ensures Inv(BuildFlush(s))
  {
    hide Inv, EditFits, OnlyFreshTables, SyncedTables, TableEntries, Recoverable, MetaAt, MaySurvive;
    var s', p := BuildFlush(s), s.proc;
    LiveIsRecoverable(s);
    OneFreshTable(s.disk, p.next, TableFile(p.imm.value, true));
    FreshTablesKeepUp(s, s'.disk, p.next + 1);
    FreshTables(s.disk, s'.disk, p.next, p.live);
    var mid := s.(disk := s'.disk, proc := p.(next := p.next + 1));
    FlushFits(s'.disk, mid.proc, s.story.floor, s'.proc.job.added);
    JobBegins(mid, s'.proc.job);
  }

  lemma FlushFits(d: Disk, p: Proc, floor: nat, added: set<nat>)
    requires p.Up? && p.imm.Some? && SyncedTables(d, p.live) && forall n :: n in added ==> n < p.next
    requires if p.imm.value == {} then added == {} else
               exists n :: added == {n} && n in d.tables && d.tables[n] == TableFile(p.imm.value, true)
    ensures EditFits(d, p, floor, true, {}, added)
  {
    if p.imm.value == {} {
      assert p.live - {} + added == p.live;
    } else {
      var n :| added == {n} && n in d.tables && d.tables[n] == TableFile(p.imm.value, true);
      assert p.live - {} + added == p.live + {n};
      forall e | e in p.imm.value ensures e in TableEntries(d, p.live + {n}) {
        assert n in p.live + {n};
      }
    }
  }

  /** What the live tables hold once the outputs have replaced the inputs. */
  ghost function Replaced(d: Disk, live: set<nat>, inputs: set<nat>, outs: map<nat, set<Entry>>): set<Entry> {
    TableEntries(d, live - inputs) + set n, e | n in outs && e in outs[n] :: e
  }

  /**
   A compaction writes and syncs new tables. They hold only entries of the inputs, and may leave out entries as
   long as no reader at a snapshot from the smallest live one on can tell.
   */
  ghost predicate CanBuildCompaction(s: State, inputs: set<nat>, outs: map<nat, set<Entry>>, next: nat, smallest: nat) {
    && s.proc.Up? && !s.proc.failed && s.proc.job == Idle
    && inputs <= s.proc.live && s.proc.next <= next && (forall n :: n in outs ==> s.proc.next <= n < next)
    && (forall n :: n in outs ==> outs[n] <= TableEntries(s.disk, inputs))
    && ReadAlike(TableEntries(s.disk, s.proc.live), Replaced(s.disk, s.proc.live, inputs, outs), smallest)
  }

  ghost function BuildCompaction(s: State, inputs: set<nat>, outs: map<nat, set<Entry>>, next: nat, smallest: nat): State
    requires CanBuildCompaction(s, inputs, outs, next, smallest)
  {
    State(s.disk.(tables := s.disk.tables + map n | n in outs :: TableFile(outs[n], true)),
          s.proc.(next := next, job := Built(false, inputs, outs.Keys)),
          s.story.(floor := Larger(s.story.floor, smallest)))
  }

  function Larger(a: nat, b: nat): nat { if a < b then b else a }

  lemma FloorRises(s: State, floor: nat)
    requires Inv(s) && s.proc.Up? && s.proc.job == Idle && floor >= s.story.floor
    ensures Inv(s.(story := s.story.(floor := floor)))
  {
    var st' := s.story.(floor := floor);
    forall k | MaySurvive(s.disk, k) ensures SurvivesWith(s.disk, k, st') {
      assert SurvivesWith(s.disk, k, s.story);
      if k > 0 {
        var m := MetaAt(s.disk, k);
        hide Sound;
        SoundFloor(TableEntries(s.disk, m.live), LogEntries(s.disk, m.log.value), DurableEntries(s.disk, m.log.value),
                   m.last.value, s.story, floor);
      }
    }
    hide SurvivesWith, ManifestFits, MemFits, ImmFits, LogsFit;
  }

  lemma CompactionFits(d: Disk, d': Disk, p: Proc, inputs: set<nat>, outs: map<nat, set<Entry>>)
    requires p.Up? && OnlyFreshTables(d, d', p.next) && SyncedTables(d, p.live) && forall n :: n in p.live ==> n < p.next
    requires inputs <= p.live && forall n :: n in outs ==> p.next <= n && outs[n] <= TableEntries(d, inputs)
    requires forall n :: n in outs ==> n in d'.tables && d'.tables[n] == TableFile(outs[n], true)
    ensures SyncedTables(d', outs.Keys)
    ensures TableEntries(d', p.live - inputs + outs.Keys) == Replaced(d, p.live, inputs, outs)
    ensures TableEntries(d', p.live) == TableEntries(d, p.live)
    ensures Replaced(d, p.live, inputs, outs) <= TableEntries(d, p.live)
  {
    FreshTables(d, d', p.next, p.live);
    FreshTables(d, d', p.next, p.live - inputs);
    var t := TableEntries(d', p.live - inputs + outs.Keys);
    forall e | e in t ensures e in Replaced(d, p.live, inputs, outs) {
      var n :| n in p.live - inputs + outs.Keys && n in d'.tables && e in d'.tables[n].entries;
      if n !in outs { assert e in TableEntries(d', p.live - inputs); }
    }
    forall e | e in Replaced(d, p.live, inputs, outs) ensures e in t {
      if e in TableEntries(d', p.live - inputs) {
        var n :| n in p.live - inputs && n in d'.tables && e in d'.tables[n].entries;
        assert n in p.live - inputs + outs.Keys;
      } else {
        var n :| n in outs && e in outs[n];
        assert n in p.live - inputs + outs.Keys && n in d'.tables;
      }
    }
  }

  lemma BuildCompactionKeeps(s: State, inputs: set<nat>, outs: map<nat, set<Entry>>, next: nat, smallest: nat)
    requires Inv(s) && CanBuildCompaction(s, inputs, outs, next, smallest)
    ensures Inv(BuildCompaction(s, inputs, outs, next, smallest))
  {
    hide Inv, SyncedTables, TableEntries, Replaced, ReadAlike, Recoverable, MetaAt, MaySurvive;
    var s', p, d := BuildCompaction(s, inputs, outs, next, smallest), s.proc, s.disk;
    LiveIsRecoverable(s);
    var up := s.(story := s'.story);
    FloorRises(s, s'.story.floor);
    assert OnlyFreshTables(d, s'.disk, p.next);
    hide OnlyFreshTables;
    FreshTablesKeepUp(up, s'.disk, next);
    CompactionFits(d, s'.disk, p, inputs, outs);
    var mid := up.(disk := s'.disk, proc := p.(next := next));
    HigherFloor(TableEntries(d, p.live), Replaced(d, p.live, inputs, outs), smallest, s'.story.floor);
    assert EditFits(s'.disk, mid.proc, s'.story.floor, false, inputs, outs.Keys);
    hide EditFits;
    JobBegins(mid, s'.proc.job);
  }

  lemma HigherFloor(a: set<Entry>, b: set<Entry>, from: nat, floor: nat)
    requires ReadAlike(a, b, from) && floor >= from
    ensures ReadAlike(a, b, floor)
  {
    hide SameReads;
  }

  /** A trivial move: the edit takes a table out of one level and puts the same table into the next. */
  ghost predicate CanMove(s: State, n: nat) {
    s.proc.Up? && !s.proc.failed && s.proc.job == Idle && n in s.proc.live
  }

  ghost function Move(s: State, n: nat): State
    requires CanMove(s, n)
  {
    s.(proc := s.proc.(job := Built(false, {n}, {n})))
  }

  lemma MoveKeeps(s: State, n: nat)
    requires Inv(s) && CanMove(s, n)
    ensures Inv(Move(s, n))
  {
    hide Inv, Recoverable, MetaAt, MaySurvive, ReadAlike;
    LiveIsRecoverable(s);
    assert s.proc.live - {n} + {n} == s.proc.live;
    AlikeItself(TableEntries(s.disk, s.proc.live), s.story.floor);
    assert EditFits(s.disk, s.proc, s.story.floor, false, {n}, {n});
    hide EditFits, Inv;
    JobBegins(s, Built(false, {n}, {n}));
  }

  /** Background work fails before its edit is logged: it is given up, and no more is begun. */
  ghost predicate CanFailWork(s: State) { s.proc.Up? && !s.proc.job.Logged? }

  ghost function FailWork(s: State): State
    requires CanFailWork(s)
  {
    s.(proc := s.proc.(failed := true, job := Idle))
  }

  /** Writing or syncing the manifest failed: nobody knows whether the edit is on disk, so background work and
      deletions stop. */
  ghost function FailManifest(s: State): State
    requires s.proc.Up? && s.proc.job.Logged?
  {
    s.(proc := s.proc.(failed := true, job := Idle))
  }

  lemma FailWorkKeeps(s: State)
    requires Inv(s) && s.proc.Up?
    ensures Inv(s.(proc := s.proc.(failed := true, job := Idle)))
  {
    JobIsApart(s.disk, s.proc, s.proc.(failed := true, job := Idle), s.story.dropped);
    hide DiskInv, ManifestFits, LogsFit, MemFits, ImmFits;
  }

  // ---------------------------------------------------------------------------
  // The manifest
  // ---------------------------------------------------------------------------

  /** LogAndApply appends the edit to the manifest. A flush moves the log number to the current log. */
  ghost predicate CanLogEdit(s: State) {
    s.proc.Up? && s.proc.job.Built? && WellFormed(s.disk)
  }

  function JobEdit(p: Proc): Edit
    requires p.Up? && p.job.Built?
  {
    Edit(Some(if p.job.flush then p.logFile else p.logNumber), Some(p.next), Some(p.last), p.job.deleted, p.job.added)
  }

  /** From here on what the edit leaves out may be gone. */
  ghost function LogEdit(s: State): State
    requires CanLogEdit(s)
  {
    var p, m, e := s.proc, Current(s.disk), JobEdit(s.proc);
    State(s.disk.(manifests := s.disk.manifests[s.disk.current := m.(edits := m.edits + [e])]),
          p.(job := Logged(p.job.flush, e)),
          Dropping(s.story, TableEntries(s.disk, p.live), TableEntries(s.disk, p.live - e.deleted + e.added)))
  }

  /** The manifest with the new edit: its prefixes are the old ones and the whole. */
  lemma LogEditPrefixes(s: State, k: nat)
    requires CanLogEdit(s) && k <= |Current(s.disk).edits| + 1
    ensures
      var d, d' := s.disk, LogEdit(s).disk;
      && WellFormed(d') && |Current(d').edits| == |Current(d).edits| + 1 && Current(d').synced == Current(d).synced
      && MetaAt(d', k) == (if k <= |Current(d).edits| then MetaAt(d, k)
                           else ApplyEdit(MetaAt(d, |Current(d).edits|), JobEdit(s.proc)))
  {
    var m, m' := Current(s.disk), Current(LogEdit(s).disk);
    assert m'.edits[..|m.edits|] == m.edits && m.edits[..|m.edits|] == m.edits && m'.edits[..|m'.edits|] == m'.edits;
    assert k <= |m.edits| ==> m'.edits[..k] == m.edits[..k];
  }

  /** The logs still needed after a flush are the current one, and its durable part is all that counts of the rest. */
  lemma LogsOfFlush(d: Disk, p: Proc)
    requires p.Up? && LogsFit(d, p) && ImmFits(d, p)
    ensures LogEntries(d, p.logFile) == RecordEntries(d.logs[p.logFile].records)
    ensures LogEntries(d, p.logFile) <= LogEntries(d, p.logNumber)
    ensures DurableEntries(d, p.logNumber) <= SetOf(p.imm) + DurableEntries(d, p.logFile)
  {
    hide RecordEntries, Durable;
    forall e | e in DurableEntries(d, p.logNumber) ensures e in SetOf(p.imm) + DurableEntries(d, p.logFile) {
      var n :| n in d.logs && n >= p.logNumber && e in Durable(d.logs[n]);
    }
  }

  lemma FlushSound(d: Disk, p: Proc, m: Meta, st: Story)
    requires p.Up? && p.imm.Some? && LogsFit(d, p) && ImmFits(d, p) && MemFits(d, p, st.dropped)
    requires Recoverable(d, m, st) && m.live == p.live && m.log == Some(p.logNumber) && TailFits(d, m, p, st.dropped)
    ensures Sound(TableEntries(d, p.live) + p.imm.value, LogEntries(d, p.logFile), DurableEntries(d, p.logFile), p.last, st)
  {
    hide Sound;
    LogsOfFlush(d, p);
    DurableIsLogged(d, p.logFile);
    hide TableEntries, LogEntries, DurableEntries, RecordEntries, Durable, ReadAlike, WellFormed;
    var t := TableEntries(d, p.live);
    assert DurableEntries(d, p.logNumber) <= t + p.imm.value + DurableEntries(d, p.logFile);
    SoundFlush(t, LogEntries(d, p.logNumber), DurableEntries(d, p.logNumber), m.last.value, st,
               p.imm.value, LogEntries(d, p.logFile), DurableEntries(d, p.logFile), p.last);
  }

  /** A flush drops nothing. */
  lemma FlushDrops(d: Disk, p: Proc, e: Edit, st: Story)
    requires p.Up? && EditFits(d, p, st.floor, true, e.deleted, e.added)
    ensures p.imm.Some? && TableEntries(d, p.live - e.deleted + e.added) == TableEntries(d, p.live) + p.imm.value
    ensures Dropping(st, TableEntries(d, p.live), TableEntries(d, p.live - e.deleted + e.added)) == st
  {
    hide TableEntries;
    var t := TableEntries(d, p.live);
    assert t - (t + p.imm.value) == {} && st.dropped + {} == st.dropped;
  }

  lemma FlushedFilesThere(d: Disk, p: Proc, m: Meta, e: Edit, floor: nat)
    requires p.Up? && LogsFit(d, p) && FilesThere(d, m) && m.live == p.live && EditFits(d, p, floor, true, e.deleted, e.added)
    requires m.next.value <= p.next && e.log == Some(p.logFile) && e.next == Some(p.next) && e.last == Some(p.last)
    ensures FilesThere(d, ApplyEdit(m, e))
  {
    hide TableEntries, ReadAlike;
  }

  /** A flush's version is as good as the one before it, and newer data are above it. */
  lemma FlushRecoverable(d: Disk, p: Proc, m: Meta, e: Edit, st: Story)
    requires p.Up? && p.imm.Some? && LogsFit(d, p) && ImmFits(d, p) && MemFits(d, p, st.dropped)
    requires Recoverable(d, m, st) && m.live == p.live && m.log == Some(p.logNumber) && TailFits(d, m, p, st.dropped)
    requires EditFits(d, p, st.floor, true, e.deleted, e.added)
    requires e.log == Some(p.logFile) && e.next == Some(p.next) && e.last == Some(p.last)
    ensures Recoverable(d, ApplyEdit(m, e), Dropping(st, TableEntries(d, p.live), TableEntries(d, p.live - e.deleted + e.added)))
    ensures Dropping(st, TableEntries(d, p.live), TableEntries(d, p.live - e.deleted + e.added)) == st
  {
    hide Sound, TableEntries, LogEntries, DurableEntries;
    FlushDrops(d, p, e, st);
    FlushedFilesThere(d, p, m, e, st.floor);
    FlushSound(d, p, m, st);
    hide FilesThere, LogsFit, ImmFits, MemFits, TailFits, EditFits, Dropping;
  }

  /** A compaction's version is as good as the one before it, once what it leaves out counts as dropped. */
  lemma CompactionRecoverable(d: Disk, p: Proc, m: Meta, e: Edit, st: Story)
    requires p.Up? && LogsFit(d, p)
    requires Recoverable(d, m, st) && m.live == p.live && m.log == Some(p.logNumber) && TailFits(d, m, p, st.dropped)
    requires EditFits(d, p, st.floor, false, e.deleted, e.added)
    requires e.log == Some(p.logNumber) && e.next == Some(p.next) && e.last == Some(p.last)
    ensures Recoverable(d, ApplyEdit(m, e), Dropping(st, TableEntries(d, p.live), TableEntries(d, p.live - e.deleted + e.added)))
  {
    var t, t' := TableEntries(d, p.live), TableEntries(d, p.live - e.deleted + e.added);
    var l, dur := LogEntries(d, p.logNumber), DurableEntries(d, p.logNumber);
    hide TableEntries, LogEntries, DurableEntries, ReadAlike;
    LastWithin(t, l, dur, m.last.value, st, p.last);
    hide Sound;
    SoundCompacts(t, l, dur, p.last, st, t', p.last);
  }

  lemma LastWithin(t: set<Entry>, l: set<Entry>, dur: set<Entry>, last: nat, st: Story, last': nat)
    requires Sound(t, l, dur, last, st) && Within(t + l + st.dropped, last')
    ensures Sound(t, l, dur, last', st)
  {
    hide ReadAlike, Above, OneEach;
  }

  /** Losing the edit loses nothing. */
  lemma BaseRecoverable(d: Disk, p: Proc, m: Meta, e: Edit, st: Story)
    requires p.Up? && Recoverable(d, m, st) && m.live == p.live && TailFits(d, m, p, st.dropped)
    ensures var st' := Dropping(st, TableEntries(d, p.live), TableEntries(d, p.live - e.deleted + e.added));
            Recoverable(d, m, st') && TailFits(d, m, p, st'.dropped)
  {
    var t, t' := TableEntries(d, p.live), TableEntries(d, p.live - e.deleted + e.added);
    hide TableEntries, LogEntries, DurableEntries, Sound;
    SoundUncompacted(t, LogEntries(d, m.log.value), DurableEntries(d, m.log.value), m.last.value, st, t');
  }

  lemma SameContents(d: Disk, d': Disk, m: Meta, st: Story)
    requires d'.tables == d.tables && d'.logs == d.logs && d'.current == d.current && Recoverable(d, m, st)
    ensures Recoverable(d', m, st)
    ensures TableEntries(d', m.live) == TableEntries(d, m.live) && LogEntries(d', m.log.value) == LogEntries(d, m.log.value)
  {
    SameLogs(d, d', m.log.value);
    assert TableEntries(d', m.live) == TableEntries(d, m.live);
    hide Sound, LogEntries, TableEntries, DurableEntries;
  }

  lemma NewVersionFits(d: Disk, p: Proc, m: Meta, e: Edit, st: Story, flush: bool)
    requires p.Up? && LogsFit(d, p) && TailFits(d, m, p, st.dropped) && m.live == p.live && m.log == Some(p.logNumber)
    requires EditFits(d, p, st.floor, flush, e.deleted, e.added) && ImmFits(d, p)
    requires e.log == Some(if flush then p.logFile else p.logNumber) && e.next == Some(p.next)
    ensures TailFits(d, ApplyEdit(m, e), p, Dropping(st, TableEntries(d, p.live), TableEntries(d, p.live - e.deleted + e.added)).dropped)
  {
    LogsOfFlush(d, p);
    hide TableEntries, LogEntries, DurableEntries, RecordEntries, ReadAlike;
  }

  lemma LogEditKeepsSurvivor(s: State, k: nat)
    requires Inv(s) && CanLogEdit(s) && WellFormed(LogEdit(s).disk) && MaySurvive(LogEdit(s).disk, k)
    ensures SurvivesWith(LogEdit(s).disk, k, LogEdit(s).story)
    ensures TailFits(LogEdit(s).disk, MetaAt(LogEdit(s).disk, k), s.proc, LogEdit(s).story.dropped)
  {
    var s', d, p, e, n := LogEdit(s), s.disk, s.proc, JobEdit(s.proc), |Current(s.disk).edits|;
    LogEditPrefixes(s, k);
    Survivor(s, n);
    var m := MetaAt(d, n);
    assert UpInv(s) && n == Current(d).synced;
    hide DiskInv, Recoverable, TailFits, MetaAt, LogsFit, MemFits, ImmFits, EditFits, TableEntries, LogEntries, Within;
    assert m.live == p.live && m.log == Some(p.logNumber);
    if k <= n {
      BaseRecoverable(d, p, m, e, s.story);
      SameContents(d, s'.disk, m, s'.story);
      TailFitsStill(d, s'.disk, m, p, s'.story);
    } else {
      if p.job.flush {
        ImmIsThere(d, p, s.story.floor, e);
        FlushRecoverable(d, p, m, e, s.story);
      } else {
        CompactionRecoverable(d, p, m, e, s.story);
      }
      NewVersionFits(d, p, m, e, s.story, p.job.flush);
      SameContents(d, s'.disk, ApplyEdit(m, e), s'.story);
      TailFitsStill(d, s'.disk, ApplyEdit(m, e), p, s'.story);
    }
  }

  lemma ImmIsThere(d: Disk, p: Proc, floor: nat, e: Edit)
    requires p.Up? && EditFits(d, p, floor, true, e.deleted, e.added)
    ensures p.imm.Some?
  {
  }

  lemma TailFitsStill(d: Disk, d': Disk, m: Meta, p: Proc, st: Story)
    requires d'.tables == d.tables && d'.logs == d.logs && p.Up? && TailFits(d, m, p, st.dropped)
    ensures TailFits(d', m, p, st.dropped)
  {
    SameLogs(d, d', m.log.value);
    assert TableEntries(d', m.live) == TableEntries(d, m.live);
    hide LogEntries, TableEntries, Within;
  }

  lemma AllSynced(s: State)
    requires Inv(s) && CanLogEdit(s)
    ensures var d, n := s.disk, |Current(s.disk).edits|;
            && Current(d).synced == n > 0
            && MetaAt(d, n).next.Some? && MetaAt(d, n).next.value <= s.proc.next
  {
    var n := |Current(s.disk).edits|;
    assert Current(s.disk).synced == n by { hide ManifestFits, LogsFit, MemFits, ImmFits, EditFits, DiskInv; }
    Survivor(s, n);
    hide Inv, MetaAt, Recoverable, LogsFit;
  }

  lemma GrowsByOne(d: Disk, n: nat)
    requires WellFormed(d) && Current(d).synced == n && |Current(d).edits| == n + 1
    requires NextAfter(d, n) <= NextAfter(d, n + 1)
    ensures NumbersGrow(d)
  {
    hide NextAfter;
  }

  lemma LogEditNumbers(s: State)
    requires Inv(s) && CanLogEdit(s)
    ensures WellFormed(LogEdit(s).disk) && NumbersGrow(LogEdit(s).disk)
    ensures Current(LogEdit(s).disk).synced == Current(s.disk).synced == |Current(s.disk).edits| > 0
    ensures MetaAt(LogEdit(s).disk, Current(s.disk).synced) == MetaAt(s.disk, Current(s.disk).synced)
  {
    var n := |Current(s.disk).edits|;
    hide Inv, MetaAt, LogEdit, WellFormed, NumbersGrow;
    AllSynced(s);
    LogEditPrefixes(s, n);
    LogEditPrefixes(s, n + 1);
    GrowsByOne(LogEdit(s).disk, n);
  }

  lemma LogEditKeepsMem(d: Disk, d': Disk, p: Proc, e: Edit, flush: bool, st: Story)
    requires p.Up? && LogsFit(d, p) && MemFits(d, p, st.dropped) && d'.tables == d.tables && d'.logs == d.logs
    requires EditFits(d, p, st.floor, flush, e.deleted, e.added)
    ensures MemFits(d', p, Dropping(st, TableEntries(d, p.live), TableEntries(d, p.live - e.deleted + e.added)).dropped)
    ensures LogsFit(d', p) && (ImmFits(d, p) ==> ImmFits(d', p))
    ensures EditFits(d', p, st.floor, flush, e.deleted, e.added)
  {
    assert forall ns :: TableEntries(d', ns) == TableEntries(d, ns);
    SameLogs(d, d', p.logNumber);
    hide TableEntries, RecordEntries, Durable, ReadAlike, LogEntries;
  }

  lemma LogEditKeepsUp(s: State)
    requires Inv(s) && CanLogEdit(s)
    ensures var s', p := LogEdit(s), s.proc;
            && s'.proc.Up? && s'.proc == p.(job := s'.proc.job) && WellFormed(s'.disk)
            && LogsFit(s'.disk, s'.proc) && MemFits(s'.disk, s'.proc, s'.story.dropped) && ImmFits(s'.disk, s'.proc)
            && JobFits(s'.disk, s'.proc, s'.story.floor)
  {
    var s', d, p, e := LogEdit(s), s.disk, s.proc, JobEdit(s.proc);
    LogEditNumbers(s);
    hide DiskInv, ManifestFits, MemFits, LogsFit, ImmFits, EditFits, MetaAt, WellFormed, TableEntries;
    LogEditKeepsMem(d, s'.disk, p, e, p.job.flush, s.story);
    JobIsApart(s'.disk, p, s'.proc, s'.story.dropped);
    EditIsApart(s'.disk, p, s'.proc, s'.story.floor, p.job.flush, e.deleted, e.added);
  }

  lemma LogEditKeeps(s: State)
    requires Inv(s) && CanLogEdit(s)
    ensures Inv(LogEdit(s))
  {
    var s', p := LogEdit(s), s.proc;
    LogEditNumbers(s);
    assert UpInv(s) && ManifestFits(s.disk, p, s.story.dropped);
    LogEditKeepsUp(s);
    hide DiskInv, UpInv, MemFits, LogsFit, ImmFits, JobFits, TailFits, SurvivesWith, MetaAt, MaySurvive, WellFormed, NumbersGrow, LogEdit;
    forall k | MaySurvive(s'.disk, k)
      ensures SurvivesWith(s'.disk, k, s'.story) && TailFits(s'.disk, MetaAt(s'.disk, k), s'.proc, s'.story.dropped)
    {
      LogEditKeepsSurvivor(s, k);
      TailIsApart(s'.disk, MetaAt(s'.disk, k), p, s'.proc, s'.story.dropped);
    }
    Assemble(s');
  }

  lemma TailIsApart(d: Disk, m: Meta, p: Proc, p': Proc, dropped: set<Entry>)
    requires p.Up? && p'.Up? && TailFits(d, m, p, dropped)
    requires p'.logFile == p.logFile && p'.next == p.next && p'.last == p.last
    ensures TailFits(d, m, p', dropped)
  {
    hide TableEntries, LogEntries, Within;
  }

  /** The manifest is synced and the new version installed; a flush releases the immutable memtable. */
  ghost predicate CanInstall(s: State) {
    s.proc.Up? && s.proc.job.Logged? && WellFormed(s.disk) && s.proc.job.edit.log.Some?
  }

  ghost function Install(s: State): State
    requires CanInstall(s)
  {
    var p, m := s.proc, Current(s.disk);
    var e := p.job.edit;
    s.(disk := s.disk.(manifests := s.disk.manifests[s.disk.current := m.(synced := |m.edits|)]),
       proc := p.(live := p.live - e.deleted + e.added, logNumber := e.log.value,
                  imm := if p.job.flush then None else p.imm, job := Idle))
  }

  /** Of a manifest that is synced to its end everything survives. */
  lemma SyncedManifest(d: Disk, d': Disk)
    requires WellFormed(d)
    requires d' == d.(manifests := d.manifests[d.current := Current(d).(synced := |Current(d).edits|)])
    ensures WellFormed(d') && Current(d').synced == |Current(d).edits|
    ensures forall k :: MaySurvive(d', k) ==> k == |Current(d).edits| && MaySurvive(d, k) && MetaAt(d', k) == MetaAt(d, k)
    ensures MetaAt(d', |Current(d).edits|) == MetaAt(d, |Current(d).edits|)
    ensures NumbersGrow(d')
  {
    assert Current(d').edits == Current(d).edits;
  }

  lemma LastEdit(d: Disk, n: nat)
    requires WellFormed(d) && n + 1 == |Current(d).edits|
    ensures MetaAt(d, n + 1) == ApplyEdit(MetaAt(d, n), Current(d).edits[n])
  {
    var es := Current(d).edits;
    assert es[..n + 1] == es && es[..n] == es[..|es| - 1];
  }

  lemma InstallKeepsManifest(s: State)
    requires Inv(s) && CanInstall(s)
    ensures
      var d', p' := Install(s).disk, Install(s).proc;
      && WellFormed(d') && NumbersGrow(d') && Current(d').synced > 0
      && (forall k :: MaySurvive(d', k) ==> MaySurvive(s.disk, k) && MetaAt(d', k) == MetaAt(s.disk, k))
      && MetaAt(d', Current(d').synced).live == p'.live && MetaAt(d', Current(d').synced).log == Some(p'.logNumber)
  {
    hide DiskInv, NumbersGrow, MetaAt, MaySurvive, LogsFit, MemFits, ImmFits, EditFits, TailFits;
    SyncedManifest(s.disk, Install(s).disk);
    LastEdit(s.disk, Current(s.disk).synced);
  }

  lemma InstallKeepsMem(d: Disk, d': Disk, p: Proc, p': Proc, e: Edit, flush: bool, st: Story)
    requires p.Up? && LogsFit(d, p) && MemFits(d, p, st.dropped) && ImmFits(d, p) && d'.tables == d.tables && d'.logs == d.logs
    requires EditFits(d, p, st.floor, flush, e.deleted, e.added) && e.log == Some(if flush then p.logFile else p.logNumber)
    requires p' == p.(live := p.live - e.deleted + e.added, logNumber := e.log.value, imm := if flush then None else p.imm, job := Idle)
    ensures MemFits(d', p', st.dropped) && LogsFit(d', p') && ImmFits(d', p')
  {
    assert forall ns :: TableEntries(d', ns) == TableEntries(d, ns);
    SameLogs(d, d', p.logNumber);
    hide TableEntries, RecordEntries, Durable, ReadAlike, LogEntries;
  }

  lemma InstallKeeps(s: State)
    requires Inv(s) && CanInstall(s)
    ensures Inv(Install(s))
  {
    var s', d, p := Install(s), s.disk, s.proc;
    InstallKeepsManifest(s);
    InstallKeepsMem(d, s'.disk, p, s'.proc, p.job.edit, p.job.flush, s.story);
    hide MemFits, LogsFit, ImmFits, EditFits, MetaAt, NumbersGrow, TableEntries;
    forall k | MaySurvive(s'.disk, k)
      ensures SurvivesWith(s'.disk, k, s'.story) && TailFits(s'.disk, MetaAt(s'.disk, k), s'.proc, s'.story.dropped)
    {
      Survivor(s, k);
      hide Inv, Recoverable, TailFits;
      SameContents(d, s'.disk, MetaAt(d, k), s.story);
      TailFitsStill(d, s'.disk, MetaAt(d, k), p, s.story);
      TailIsApart(s'.disk, MetaAt(d, k), p, s'.proc, s.story.dropped);
    }
    hide SurvivesWith, TailFits;
    Assemble(s');
  }

  // ---------------------------------------------------------------------------
  // DeleteObsoleteFiles
  // ---------------------------------------------------------------------------

  ghost predicate MayDelete(s: State) { s.proc.Up? && !s.proc.failed && s.proc.job == Idle }

  ghost function DeleteLog(s: State, n: nat): State
    requires MayDelete(s) && n < s.proc.logNumber
  {
    s.(disk := s.disk.(logs := s.disk.logs - {n}))
  }

  ghost function DeleteTable(s: State, n: nat): State
    requires MayDelete(s) && n !in s.proc.live
  {
    s.(disk := s.disk.(tables := s.disk.tables - {n}))
  }

  ghost function DeleteManifest(s: State, n: nat): State
    requires MayDelete(s) && n < s.disk.current
  {
    s.(disk := s.disk.(manifests := s.disk.manifests - {n}))
  }

  /** Everything that the live version and the logs from its log number on need is still there. */
  ghost predicate NeededStays(d: Disk, d': Disk, p: Proc)
    requires p.Up?
  {
    && d'.current == d.current && d.current in d.manifests && d.current in d'.manifests
    && d'.manifests[d.current] == d.manifests[d.current]
    && (forall n :: n in p.live && n in d.tables ==> n in d'.tables && d'.tables[n] == d.tables[n])
    && (forall n :: n in d.logs && n >= p.logNumber ==> n in d'.logs)
    && forall n :: n in d'.logs ==> n in d.logs && d'.logs[n] == d.logs[n]
  }

  lemma NeededReads(d: Disk, d': Disk, p: Proc, first: nat)
    requires p.Up? && NeededStays(d, d', p) && SyncedTables(d, p.live) && first >= p.logNumber
    ensures TableEntries(d', p.live) == TableEntries(d, p.live)
    ensures LogEntries(d', first) == LogEntries(d, first) && DurableEntries(d', first) == DurableEntries(d, first)
  {
    hide RecordEntries, Durable;
    forall e | e in LogEntries(d, first) ensures e in LogEntries(d', first) {
      var n :| n in d.logs && n >= first && e in RecordEntries(d.logs[n].records);
      assert n in d'.logs;
    }
    forall e | e in DurableEntries(d, first) ensures e in DurableEntries(d', first) {
      var n :| n in d.logs && n >= first && e in Durable(d.logs[n]);
      assert n in d'.logs;
    }
  }

  lemma NeededKeepsUp(d: Disk, d': Disk, p: Proc, st: Story, m: Meta)
    requires p.Up? && NeededStays(d, d', p) && SyncedTables(d, p.live)
    requires LogsFit(d, p) && MemFits(d, p, st.dropped) && ImmFits(d, p)
    requires Recoverable(d, m, st) && TailFits(d, m, p, st.dropped) && m.live == p.live && m.log == Some(p.logNumber)
    ensures LogsFit(d', p) && MemFits(d', p, st.dropped) && ImmFits(d', p)
    ensures Recoverable(d', m, st) && TailFits(d', m, p, st.dropped)
  {
    NeededReads(d, d', p, p.logNumber);
    hide TableEntries, LogEntries, DurableEntries, RecordEntries, Durable, Sound, Within;
  }

  /** With no edit in doubt, only one manifest can survive, and it needs nothing that is deleted. */
  lemma DeletionKeeps(s: State, d': Disk)
    requires Inv(s) && MayDelete(s) && NeededStays(s.disk, d', s.proc)
    ensures Inv(s.(disk := d'))
  {
    var d, p := s.disk, s.proc;
    var n := Current(d).synced;
    assert |Current(d).edits| == n && Current(d') == Current(d) && WellFormed(d');
    LiveIsRecoverable(s);
    Survivor(s, n);
    SameManifest(d, d');
    assert UpInv(s) && ManifestFits(d, p, s.story.dropped);
    hide Recoverable, TailFits, MetaAt, LogsFit, MemFits, ImmFits, NumbersGrow, NeededStays, SyncedTables, WellFormed;
    NeededKeepsUp(d, d', p, s.story, MetaAt(d, n));
    forall k | MaySurvive(d', k) ensures SurvivesWith(d', k, s.story) && TailFits(d', MetaAt(d', k), p, s.story.dropped) {
      assert k == n;
    }
    assert JobFits(d', p, s.story.floor);
    hide SurvivesWith, JobFits, DiskInv, MaySurvive;
    Assemble(s.(disk := d'));
  }

  lemma DeleteLogKeeps(s: State, n: nat)
    requires Inv(s) && MayDelete(s) && n < s.proc.logNumber
    ensures Inv(DeleteLog(s, n))
  {
    hide UpInv;
    DeletionKeeps(s, DeleteLog(s, n).disk);
  }

  lemma DeleteTableKeeps(s: State, n: nat)
    requires Inv(s) && MayDelete(s) && n !in s.proc.live
    ensures Inv(DeleteTable(s, n))
  {
    hide UpInv;
    DeletionKeeps(s, DeleteTable(s, n).disk);
  }

  lemma DeleteManifestKeeps(s: State, n: nat)
    requires Inv(s) && MayDelete(s) && n < s.disk.current
    ensures Inv(DeleteManifest(s, n))
  {
    hide UpInv;
    DeletionKeeps(s, DeleteManifest(s, n).disk);
  }

  // ---------------------------------------------------------------------------
  // Crash and recovery
  // ---------------------------------------------------------------------------

  ghost function Crash(s: State, d': Disk): State { s.(disk := d', proc := Down) }

  lemma CrashKeeps(s: State, d': Disk)
    requires Inv(s) && CrashTo(s.disk, d')
    ensures Inv(Crash(s, d'))
  {
    hide DiskInv, CrashTo;
    CrashKeepsDisk(s.disk, d', s.story);
  }

  ghost function StartOpen(s: State): State
    requires s.proc.Down? && Opens(s.disk)
  {
    var meta := Replay(Current(s.disk).edits);
    s.(proc := Opening(meta, meta.next.value + 1, meta.last.value, {},
                       ReadingLogs(set n | n in s.disk.logs && n >= meta.log.value)))
  }

  lemma StartOpenKeeps(s: State)
    requires Inv(s) && s.proc.Down? && Opens(s.disk)
    ensures Inv(StartOpen(s))
  {
    var s' := StartOpen(s);
    assert Current(s.disk).edits != [] by {
      hide UpInv, OpeningInv, Recovered, ReadAlike;
      OpeningRecovers(s.disk, s.story);
    }
    assert TableEntries(s.disk, {}) == {};
    hide DiskInv, Replay, TableEntries, LogEntries, RecordEntries;
    assert OpeningBase(s'.disk, s'.proc);
  }

  /** RecoverLogFile: the records of one log become a table; the log's number is marked used, and the last sequence
      number is at least that of every record. */
  ghost predicate CanRecoverLog(s: State, n: nat, last: nat) {
    && s.proc.Opening? && s.proc.phase.ReadingLogs? && n in s.proc.phase.todo && n in s.disk.logs
    && last >= s.proc.last && Within(RecordEntries(s.disk.logs[n].records), last)
    && (last > s.proc.last ==> exists e :: e in RecordEntries(s.disk.logs[n].records) && e.sn == last)
  }

  ghost function RecoverLog(s: State, n: nat, last: nat): State
    requires CanRecoverLog(s, n, last)
  {
    var p := s.proc;
    var entries := RecordEntries(s.disk.logs[n].records);
    var t := p.nextFile;
    var used := if entries == {} then t else t + 1;
    s.(disk := if entries == {} then s.disk else s.disk.(tables := s.disk.tables[t := TableFile(entries, true)]),
       proc := p.(nextFile := if used <= n then n + 1 else used, last := last,
                  added := if entries == {} then p.added else p.added + {t},
                  phase := ReadingLogs(p.phase.todo - {n})))
  }

  lemma OneMoreTable(d: Disk, d': Disk, added: set<nat>, t: nat, entries: set<Entry>)
    requires SyncedTables(d, added) && (forall n :: n in added ==> n < t)
    requires d'.tables == d.tables[t := TableFile(entries, true)]
    ensures SyncedTables(d', added + {t})
    ensures TableEntries(d', added + {t}) == TableEntries(d, added) + entries
  {
    assert t in added + {t} && t in d'.tables;
    forall e | e in TableEntries(d, added) ensures e in TableEntries(d', added + {t}) {
      var n :| n in added && n in d.tables && e in d.tables[n].entries;
      assert n in d'.tables && d'.tables[n] == d.tables[n];
    }
  }

  lemma RecoverLogTables(s: State, n: nat, last: nat)
    requires Inv(s) && CanRecoverLog(s, n, last)
    ensures
      var s', p := RecoverLog(s, n, last), s.proc;
      && OnlyFreshTables(s.disk, s'.disk, p.nextFile)
      && SyncedTables(s'.disk, s'.proc.added)
      && TableEntries(s'.disk, s'.proc.added) == TableEntries(s.disk, p.added) + RecordEntries(s.disk.logs[n].records)
  {
    var s', p := RecoverLog(s, n, last), s.proc;
    var entries := RecordEntries(s.disk.logs[n].records);
    if entries != {} {
      OneMoreTable(s.disk, s'.disk, p.added, p.nextFile, entries);
    } else {
      assert TableEntries(s.disk, p.added) + entries == TableEntries(s.disk, p.added);
    }
  }

  lemma RecoverLogKeeps(s: State, n: nat, last: nat)
    requires Inv(s) && CanRecoverLog(s, n, last)
    ensures Inv(RecoverLog(s, n, last))
  {
    var s', p, d := RecoverLog(s, n, last), s.proc, s.disk;
    RecoverLogTables(s, n, last);
    OpeningBounds(s);
    assert OpeningInv(s);
    hide TableEntries, RecordEntries, SyncedTables, OnlyFreshTables, MetaAt, Recoverable;
    FreshTablesKeepDisk(d, s'.disk, p.nextFile, s.story);
    hide DiskInv;
    RecoverLogKeepsOpening(s, n, last);
  }

  lemma RecoverLogKeepsOpening(s: State, n: nat, last: nat)
    requires WellFormed(s.disk) && s.proc.Opening? && OpeningInv(s) && CanRecoverLog(s, n, last)
    requires WellFormed(RecoverLog(s, n, last).disk) && SyncedTables(RecoverLog(s, n, last).disk, RecoverLog(s, n, last).proc.added)
    requires TableEntries(RecoverLog(s, n, last).disk, RecoverLog(s, n, last).proc.added)
             == TableEntries(s.disk, s.proc.added) + RecordEntries(s.disk.logs[n].records)
    ensures OpeningInv(RecoverLog(s, n, last))
  {
    var s', p, d := RecoverLog(s, n, last), s.proc, s.disk;
    DurableOfCurrent(d, n, p.base.log.value);
    SameLogs(d, s'.disk, p.base.log.value);
    assert Current(s'.disk) == Current(d);
    hide TableEntries, LogEntries, RecordEntries, Replay, SyncedTables, Durable, DurableEntries;
    LogsReadOn(d, s'.disk, p, s'.proc, n);
    hide LogsRead;
  }

  lemma LogsReadOn(d: Disk, d': Disk, p: Proc, p': Proc, n: nat)
    requires p.Opening? && p'.Opening? && p.phase.ReadingLogs? && p.base.log.Some? && p'.base == p.base
    requires LogsRead(d, p, p.phase.todo) && d'.logs == d.logs && n in p.phase.todo && n in d.logs
    requires TableEntries(d', p'.added) == TableEntries(d, p.added) + RecordEntries(d.logs[n].records)
    requires p'.nextFile > n && p'.nextFile >= p.nextFile
    ensures LogsRead(d', p', p.phase.todo - {n})
  {
    hide TableEntries, RecordEntries;
  }

  /** A new log, and a new manifest that starts with a snapshot of the recovered version. */
  ghost predicate CanWriteManifest(s: State) {
    s.proc.Opening? && s.proc.phase == ReadingLogs({}) && s.proc.base.next.Some?
  }

  ghost function WriteManifest(s: State): State
    requires CanWriteManifest(s)
  {
    var p, newLog := s.proc, s.proc.nextFile;
    s.(disk := s.disk.(logs := s.disk.logs[newLog := LogFile([], 0, false)],
                       manifests := s.disk.manifests[p.base.next.value := Manifest(NewEdits(p, newLog, newLog + 1), 0)]),
       proc := p.(nextFile := newLog + 1, phase := ManifestWritten(newLog)))
  }

  /** Files that the current manifest does not lead to may change freely. */
  lemma ElsewhereKeepsDisk(d: Disk, d': Disk, st: Story)
    requires DiskInv(d, st) && WellFormed(d')
    requires d'.current == d.current && Current(d') == Current(d) && d'.tables == d.tables
    requires forall first :: DurableEntries(d, first) == DurableEntries(d', first)
    requires forall first :: LogEntries(d', first) == LogEntries(d, first)
    ensures DiskInv(d', st)
  {
    SameManifest(d, d');
    hide MetaAt, NumbersGrow, MaySurvive;
    forall k | MaySurvive(d', k) ensures SurvivesWith(d', k, st) {
      assert SurvivesWith(d, k, st);
      assert k > 0 ==> TableEntries(d', MetaAt(d, k).live) == TableEntries(d, MetaAt(d, k).live);
      hide Sound, LogEntries, DurableEntries, TableEntries;
    }
  }

  /** All the logs that matter are in the new tables. */
  lemma AllLogsRead(s: State)
    requires Inv(s) && CanWriteManifest(s)
    ensures s.proc.base.log.Some? && LogEntries(s.disk, s.proc.base.log.value) == TableEntries(s.disk, s.proc.added)
    ensures forall n :: n in s.disk.logs ==> n < s.proc.nextFile
    ensures s.proc.base.next.value < s.proc.nextFile && s.disk.current < s.proc.base.next.value
  {
    var p, d := s.proc, s.disk;
    OpeningBounds(s);
    hide DiskInv, RecordEntries, TableEntries;
    forall e | e in LogEntries(d, p.base.log.value) ensures e in TableEntries(d, p.added) {
      var n :| n in d.logs && n >= p.base.log.value && e in RecordEntries(d.logs[n].records);
    }
  }

  lemma WriteManifestKeepsDisk(s: State)
    requires Inv(s) && CanWriteManifest(s)
    ensures DiskInv(WriteManifest(s).disk, s.story)
    ensures var d, d' := s.disk, WriteManifest(s).disk;
            WellFormed(d') && Current(d') == Current(d) && d'.tables == d.tables && EmptyLogAdded(d, d', s.proc.nextFile)
  {
    var d, d' := s.disk, WriteManifest(s).disk;
    AllLogsRead(s);
    hide UpInv, OpeningInv, Replay, LogEntries, DurableEntries, NumbersGrow;
    assert EmptyLogAdded(d, d', s.proc.nextFile) && WellFormed(d') && Current(d') == Current(d);
    forall first ensures LogEntries(d', first) == LogEntries(d, first) && DurableEntries(d', first) == DurableEntries(d, first) {
      hide DiskInv;
      EmptyLogReads(d, d', s.proc.nextFile, first);
    }
    hide EmptyLogAdded;
    ElsewhereKeepsDisk(d, d', s.story);
  }

  lemma ManifestBegins(d: Disk, d': Disk, p: Proc, p': Proc)
    requires p.Opening? && p'.Opening? && WellFormed(d) && WellFormed(d') && OpeningBase(d, p) && OpeningTables(d, p)
    requires LogEntries(d, p.base.log.value) == TableEntries(d, p.added) && forall n :: n in d.logs ==> n < p.nextFile
    requires d'.logs == d.logs[p.nextFile := LogFile([], 0, false)] && d'.tables == d.tables && Current(d') == Current(d)
    requires LogEntries(d', p.base.log.value) == LogEntries(d, p.base.log.value)
    requires p' == p.(nextFile := p.nextFile + 1, phase := ManifestWritten(p.nextFile))
    requires p.base.next.value in d'.manifests
    requires d'.manifests[p.base.next.value].edits == NewEdits(p, p.nextFile, p.nextFile + 1)
    ensures OpeningBase(d', p') && OpeningTables(d', p') && OpeningPhase(d', p')
  {
    assert TableEntries(d', p.added) == TableEntries(d, p.added);
    hide TableEntries, LogEntries, Replay;
  }

  lemma OpeningParts(s: State)
    requires Inv(s) && s.proc.Opening?
    ensures WellFormed(s.disk) && OpeningBase(s.disk, s.proc) && OpeningTables(s.disk, s.proc)
    ensures s.proc.base.log.Some? && s.proc.base.next.Some? && s.proc.base.last.Some?
  {
    assert OpeningInv(s);
    hide Replay, TableEntries, LogEntries;
  }

  lemma WrittenAs(s: State)
    requires CanWriteManifest(s)
    ensures s.proc.Opening? && s.proc.base.next.Some?
    ensures var s', p := WriteManifest(s), s.proc;
            && s'.story == s.story && s'.proc == p.(nextFile := p.nextFile + 1, phase := ManifestWritten(p.nextFile))
            && s'.disk.logs == s.disk.logs[p.nextFile := LogFile([], 0, false)]
            && p.base.next.value in s'.disk.manifests
            && s'.disk.manifests[p.base.next.value].edits == NewEdits(p, p.nextFile, p.nextFile + 1)
  {
    hide NewEdits;
  }

  lemma OpeningHolds(s: State)
    requires DiskInv(s.disk, s.story) && s.proc.Opening? && s.proc.base.log.Some? && s.proc.base.next.Some?
    requires WellFormed(s.disk) && OpeningBase(s.disk, s.proc) && OpeningTables(s.disk, s.proc) && OpeningPhase(s.disk, s.proc)
    ensures Inv(s)
  {
    hide DiskInv, OpeningBase, OpeningTables, OpeningPhase;
  }

  lemma WriteManifestKeeps(s: State)
    requires Inv(s) && CanWriteManifest(s)
    ensures Inv(WriteManifest(s))
  {
    hide *;
    var s', p, d := WriteManifest(s), s.proc, s.disk;
    WriteManifestKeepsDisk(s);
    AllLogsRead(s);
    WrittenAs(s);
    OpeningParts(s);
    EmptyLogReads(d, s'.disk, p.nextFile, p.base.log.value);
    ManifestBegins(d, s'.disk, p, s'.proc);
    OpeningHolds(s');
  }

  ghost predicate CanSyncManifest(s: State) {
    && s.proc.Opening? && s.proc.phase.ManifestWritten? && s.proc.base.next.Some?
    && s.proc.base.next.value in s.disk.manifests
  }

  ghost function SyncManifest(s: State): State
    requires CanSyncManifest(s)
  {
    var n := s.proc.base.next.value;
    var m := s.disk.manifests[n];
    s.(disk := s.disk.(manifests := s.disk.manifests[n := m.(synced := |m.edits|)]),
       proc := s.proc.(phase := ManifestSynced(s.proc.phase.newLog)))
  }

  lemma SyncedManifestIsNew(s: State)
    requires Inv(s) && CanSyncManifest(s)
    ensures s.proc.base.next.value != s.disk.current
    ensures OpeningBase(s.disk, s.proc) && OpeningTables(s.disk, s.proc) && NewManifest(s.disk, s.proc, s.proc.phase.newLog)
  {
    OpeningBounds(s);
    assert OpeningInv(s);
    hide MetaAt, Recoverable;
  }

  lemma SyncManifestKeepsDisk(s: State)
    requires Inv(s) && CanSyncManifest(s)
    ensures DiskInv(SyncManifest(s).disk, s.story) && Current(SyncManifest(s).disk) == Current(s.disk)
  {
    var s', d := SyncManifest(s), s.disk;
    SyncedManifestIsNew(s);
    hide OpeningBase, OpeningTables, NewManifest, Replay, Recoverable, MetaAt, UpInv, OpeningInv;
    forall first ensures LogEntries(s'.disk, first) == LogEntries(d, first) && DurableEntries(s'.disk, first) == DurableEntries(d, first) {
      SameLogs(d, s'.disk, first);
    }
    hide LogEntries, DurableEntries;
    ElsewhereKeepsDisk(d, s'.disk, s.story);
  }

  lemma ManifestIsSynced(d: Disk, d': Disk, p: Proc, p': Proc)
    requires p.Opening? && WellFormed(d) && WellFormed(d') && OpeningBase(d, p) && OpeningTables(d, p)
    requires p.phase.ManifestWritten? && NewManifest(d, p, p.phase.newLog) && p' == p.(phase := ManifestSynced(p.phase.newLog))
    requires d'.logs == d.logs && d'.tables == d.tables && Current(d') == Current(d)
    requires p.base.next.value in d'.manifests
    requires d'.manifests[p.base.next.value] == Manifest(d.manifests[p.base.next.value].edits, 2)
    ensures OpeningBase(d', p') && OpeningTables(d', p') && OpeningPhase(d', p')
  {
    assert TableEntries(d', p.added) == TableEntries(d, p.added);
    SameLogs(d, d', p.base.log.value);
    hide TableEntries, LogEntries, DurableEntries, Replay;
  }

  lemma SyncManifestKeeps(s: State)
    requires Inv(s) && CanSyncManifest(s)
    ensures Inv(SyncManifest(s))
  {
    var s' := SyncManifest(s);
    SyncedManifestIsNew(s);
    SyncManifestKeepsDisk(s);
    assert |NewEdits(s.proc, s.proc.phase.newLog, s.proc.nextFile)| == 2;
    hide DiskInv, Replay, TableEntries, LogEntries, DurableEntries, OpeningBase, OpeningTables, OpeningPhase, UpInv, NewEdits;
    ManifestIsSynced(s.disk, s'.disk, s.proc, s'.proc);
  }

  /** The rename that makes CURRENT point at the new manifest; the store is open. */
  ghost predicate CanSetCurrent(s: State) { s.proc.Opening? && s.proc.phase.ManifestSynced? && s.proc.base.next.Some? }

  ghost function SetCurrent(s: State): State
    requires CanSetCurrent(s)
  {
    var p := s.proc;
    s.(disk := s.disk.(current := p.base.next.value),
       proc := Up({}, None, None, p.phase.newLog, p.phase.newLog, p.base.live + p.added, p.nextFile, p.last, false, Idle))
  }

  lemma ReplayTwo(a: Edit, b: Edit)
    ensures Replay([a, b]) == ApplyEdit(ApplyEdit(Meta({}, None, None, None), a), b)
  {
    assert [a, b][..1] == [a] && [a][..0] == [];
    assert Replay([a]) == ApplyEdit(Replay([a][..0]), a);
  }

  function NewMeta(p: Proc): Meta
    requires p.Opening? && !p.phase.ReadingLogs?
  {
    Meta(p.base.live + p.added, Some(p.phase.newLog), Some(p.nextFile), Some(p.last))
  }

  lemma NewManifestMeta(s: State)
    requires Inv(s) && CanSetCurrent(s)
    ensures
      var d' := SetCurrent(s).disk;
      && WellFormed(d') && Current(d').synced == |Current(d').edits| == 2 && MetaAt(d', 2) == NewMeta(s.proc)
      && NumbersGrow(d')
  {
    var p, m := s.proc, s.disk.manifests[s.proc.base.next.value];
    hide Recoverable, SurvivesWith;
    var es := NewEdits(p, p.phase.newLog, p.nextFile);
    ReplayTwo(es[0], es[1]);
    assert m.edits == [es[0], es[1]] && m.edits[..2] == m.edits;
  }

  lemma TwoTables(d: Disk, a: set<nat>, b: set<nat>)
    ensures TableEntries(d, a + b) == TableEntries(d, a) + TableEntries(d, b)
  {
    forall e | e in TableEntries(d, a) + TableEntries(d, b) ensures e in TableEntries(d, a + b) {
      var n :| (n in a || n in b) && n in d.tables && e in d.tables[n].entries;
      assert n in a + b;
    }
  }

  lemma NewLogIsEmpty(d: Disk, n: nat)
    requires n in d.logs && d.logs[n].records == [] && forall i :: i in d.logs ==> i <= n
    ensures LogEntries(d, n) == {} && DurableEntries(d, n) == {}
  {
  }

  lemma NewManifestRecovers(s: State)
    requires Inv(s) && CanSetCurrent(s)
    ensures Recoverable(SetCurrent(s).disk, NewMeta(s.proc), s.story)
    ensures Within(TableEntries(s.disk, s.proc.base.live + s.proc.added) + s.story.dropped, s.proc.last)
  {
    var p, d, d' := s.proc, s.disk, SetCurrent(s).disk;
    OpeningBounds(s);
    assert OpeningInv(s);
    hide DiskInv, MetaAt, Replay;
    TwoTables(d, p.base.live, p.added);
    assert TableEntries(d', p.base.live + p.added) == TableEntries(d, p.base.live + p.added);
    NewLogIsEmpty(d', p.phase.newLog);
    hide TableEntries, LogEntries, DurableEntries, RecordEntries, Sound;
    SoundRecovers(TableEntries(d, p.base.live), LogEntries(d, p.base.log.value), DurableEntries(d, p.base.log.value),
                  p.base.last.value, s.story, p.last);
    SoundWithin(TableEntries(d, p.base.live) + LogEntries(d, p.base.log.value), {}, {}, p.last, s.story);
  }

  lemma SoundWithin(t: set<Entry>, l: set<Entry>, dur: set<Entry>, last: nat, st: Story)
    requires Sound(t, l, dur, last, st)
    ensures Within(t + st.dropped, last)
  {
  }

  lemma SetCurrentKeeps(s: State)
    requires Inv(s) && CanSetCurrent(s)
    ensures Inv(SetCurrent(s))
  {
    var s', p := SetCurrent(s), s.proc;
    NewManifestMeta(s);
    NewManifestRecovers(s);
    NewLogFits(s);
    hide Recoverable, MetaAt, NumbersGrow, Inv, LogsFit, MemFits, ImmFits, TailFits;
    forall k | MaySurvive(s'.disk, k)
      ensures SurvivesWith(s'.disk, k, s'.story) && TailFits(s'.disk, MetaAt(s'.disk, k), s'.proc, s'.story.dropped)
    {
      assert k == 2;
    }
    assert JobFits(s'.disk, s'.proc, s'.story.floor);
    hide SurvivesWith, JobFits, WellFormed;
    Assemble(s');
  }

  lemma NewLogFits(s: State)
    requires Inv(s) && CanSetCurrent(s)
    requires Within(TableEntries(s.disk, s.proc.base.live + s.proc.added) + s.story.dropped, s.proc.last)
    ensures
      var s' := SetCurrent(s);
      && LogsFit(s'.disk, s'.proc) && MemFits(s'.disk, s'.proc, s.story.dropped) && ImmFits(s'.disk, s'.proc)
      && TailFits(s'.disk, NewMeta(s.proc), s'.proc, s.story.dropped)
  {
    var s', p := SetCurrent(s), s.proc;
    OpeningParts(s);
    assert OpeningInv(s);
    hide DiskInv, UpInv, OpeningBase, OpeningTables, Replay;
    NewLogIsEmpty(s'.disk, p.phase.newLog);
    assert Durable(s'.disk.logs[p.phase.newLog]) == {} && RecordEntries(s'.disk.logs[p.phase.newLog].records) == {};
    assert TableEntries(s'.disk, p.base.live + p.added) == TableEntries(s.disk, p.base.live + p.added);
    hide TableEntries, LogEntries, DurableEntries, RecordEntries, Durable;
  }

  // ---------------------------------------------------------------------------
  // Every run
  // ---------------------------------------------------------------------------

  /** Just after NewDB: one manifest with one edit, not synced, and CURRENT pointing at it. */
  ghost function Initial(): State {
    State(Disk(map[], map[], map[1 := Manifest([Edit(Some(0), Some(2), Some(0), {}, {})], 0)], 1), Down, Story({}, {}, {}, {}, 0))
  }

  ghost predicate NextWrite(s: State, s': State) {
    || (exists batch, to :: CanAppend(s, batch, to) && (s' == Append(s, batch, to) || s' == FailAppend(s, batch, to)))
    || (exists sync :: CanFinish(s) && s' == FinishWrite(s, sync))
    || (s.proc.Up? && s' == FailWrite(s))
    || (CanSwitch(s) && s' == SwitchMemTable(s))
  }

  ghost predicate NextWork(s: State, s': State) {
    || (exists junk :: CanScribble(s) && s' == Scribble(s, junk))
    || (CanBuildFlush(s) && s' == BuildFlush(s))
    || (exists inputs, outs, next, smallest ::
          CanBuildCompaction(s, inputs, outs, next, smallest) && s' == BuildCompaction(s, inputs, outs, next, smallest))
    || (exists n :: CanMove(s, n) && s' == Move(s, n))
    || (CanFailWork(s) && s' == FailWork(s))
    || (CanLogEdit(s) && s' == LogEdit(s))
    || (CanInstall(s) && s' == Install(s))
    || (s.proc.Up? && s.proc.job.Logged? && s' == FailManifest(s))
  }

  ghost predicate NextDeletion(s: State, s': State) {
    && MayDelete(s)
    && exists n: nat ::
         || (n < s.proc.logNumber && s' == DeleteLog(s, n))
         || (n !in s.proc.live && s' == DeleteTable(s, n))
         || (n < s.disk.current && s' == DeleteManifest(s, n))
  }

  ghost predicate NextRecovery(s: State, s': State) {
    || (exists d' :: CrashTo(s.disk, d') && s' == Crash(s, d'))
    || (s.proc.Down? && Opens(s.disk) && s' == StartOpen(s))
    || (exists n, last :: CanRecoverLog(s, n, last) && s' == RecoverLog(s, n, last))
    || (CanWriteManifest(s) && s' == WriteManifest(s))
    || (CanSyncManifest(s) && s' == SyncManifest(s))
    || (CanSetCurrent(s) && s' == SetCurrent(s))
  }

  ghost predicate Next(s: State, s': State) {
    NextWrite(s, s') || NextWork(s, s') || NextDeletion(s, s') || NextRecovery(s, s')
  }

  lemma InitialInv()
    ensures Inv(Initial())
  {
    var d := Initial().disk;
    assert Current(d).edits[..1] == Current(d).edits && Current(d).edits[..0] == [];
    assert Replay(Current(d).edits) == ApplyEdit(Replay(Current(d).edits[..0]), Current(d).edits[0]);
    assert MetaAt(d, 1) == Meta({}, Some(0), Some(2), Some(0));
    assert TableEntries(d, {}) == {} && LogEntries(d, 0) == {} && DurableEntries(d, 0) == {};
    AlikeItself({}, 0);
    forall k | MaySurvive(d, k) ensures SurvivesWith(d, k, Initial().story) {
    }
  }

  lemma WriteKeepsInv(s: State, s': State)
    requires Inv(s) && NextWrite(s, s')
    ensures Inv(s')
  {
    hide Inv, CanAppend, CanFinish, CanSwitch;
    if batch, to :| CanAppend(s, batch, to) && (s' == Append(s, batch, to) || s' == FailAppend(s, batch, to)) {
      AppendKeeps(s, batch, to);
    } else if sync :| CanFinish(s) && s' == FinishWrite(s, sync) {
      FinishKeeps(s, sync);
    } else if s.proc.Up? && s' == FailWrite(s) {
      FailWriteKeeps(s);
    } else {
      SwitchKeeps(s);
    }
  }

  lemma WorkKeepsInv(s: State, s': State)
    requires Inv(s) && NextWork(s, s')
    ensures Inv(s')
  {
    hide Inv, CanBuildCompaction, CanLogEdit, CanBuildFlush, CanInstall;
    if junk :| CanScribble(s) && s' == Scribble(s, junk) {
      ScribbleKeeps(s, junk);
    } else if CanBuildFlush(s) && s' == BuildFlush(s) {
      BuildFlushKeeps(s);
    } else if inputs, outs, next, smallest :|
        CanBuildCompaction(s, inputs, outs, next, smallest) && s' == BuildCompaction(s, inputs, outs, next, smallest) {
      BuildCompactionKeeps(s, inputs, outs, next, smallest);
    } else if n :| CanMove(s, n) && s' == Move(s, n) {
      MoveKeeps(s, n);
    } else if CanLogEdit(s) && s' == LogEdit(s) {
      LogEditKeeps(s);
    } else if CanInstall(s) && s' == Install(s) {
      InstallKeeps(s);
    } else {
      FailWorkKeeps(s);
    }
  }

  lemma DeletionKeepsInv(s: State, s': State)
    requires Inv(s) && NextDeletion(s, s')
    ensures Inv(s')
  {
    hide Inv;
    if n: nat :| n < s.proc.logNumber && s' == DeleteLog(s, n) {
      DeleteLogKeeps(s, n);
    } else if n: nat :| n !in s.proc.live && s' == DeleteTable(s, n) {
      DeleteTableKeeps(s, n);
    } else {
      var n: nat :| n < s.disk.current && s' == DeleteManifest(s, n);
      DeleteManifestKeeps(s, n);
    }
  }

  lemma RecoveryKeepsInv(s: State, s': State)
    requires Inv(s) && NextRecovery(s, s')
    ensures Inv(s')
  {
    hide Inv, Opens, CrashTo, CanRecoverLog, CanWriteManifest, CanSyncManifest;
    if d' :| CrashTo(s.disk, d') && s' == Crash(s, d') {
      CrashKeeps(s, d');
    } else if s.proc.Down? && Opens(s.disk) && s' == StartOpen(s) {
      StartOpenKeeps(s);
    } else if n, last :| CanRecoverLog(s, n, last) && s' == RecoverLog(s, n, last) {
      RecoverLogKeeps(s, n, last);
    } else if CanWriteManifest(s) && s' == WriteManifest(s) {
      WriteManifestKeeps(s);
    } else if CanSyncManifest(s) && s' == SyncManifest(s) {
      SyncManifestKeeps(s);
    } else {
      SetCurrentKeeps(s);
    }
  }

  lemma NextKeepsInv(s: State, s': State)
    requires Inv(s) && Next(s, s')
    ensures Inv(s')
  {
    hide Inv, NextWrite, NextWork, NextDeletion, NextRecovery;
    if NextWrite(s, s') {
      WriteKeepsInv(s, s');
    } else if NextWork(s, s') {
      WorkKeepsInv(s, s');
    } else if NextDeletion(s, s') {
      DeletionKeepsInv(s, s');
    } else {
      RecoveryKeepsInv(s, s');
    }
  }

  ghost predicate IsRun(run: seq<State>) {
    var n := |run| - 1;
    n >= 0 && if n == 0 then run[0] == Initial() else IsRun(run[..n]) && Next(run[n - 1], run[n])
  }

  function Last(run: seq<State>): State
    requires run != []
  {
    run[|run| - 1]
  }

  lemma {:induction false} RunKeepsInv(run: seq<State>)
    requires IsRun(run)
    ensures Inv(Last(run))
  {
    var n := |run| - 1;
    hide Inv, Next, Initial;
    if n == 0 {
      InitialInv();
    } else {
      RunKeepsInv(run[..n]);
      NextKeepsInv(run[n - 1], run[n]);
    }
  }

  /**
   Crash safety: cut any run off by a crash. The store opens again unless the manifest of a store that was never
   opened was lost whole, and then nothing had been acknowledged. What comes back, with what compactions dropped,
   is a set of written entries with every acknowledged one in it; and from the restored last sequence number on
   every key reads from what comes back exactly as it does from that set. So no acknowledged write is lost or
   hidden by an older one, and nothing that a dropped deletion covered comes back to life.
   */
  lemma AcknowledgedWritesSurvive(run: seq<State>, d': Disk)
    requires IsRun(run) && CrashTo(Last(run).disk, d')
    ensures var st := Last(run).story;
            && d'.current in d'.manifests
            && (Opens(d') <==> Current(d').edits != [])
            && (!Opens(d') ==> st.acked == {})
            && (Opens(d') ==>
                  var h := Recovered(d') + st.dropped;
                  && st.acked <= h <= st.written && OneEach(h)
                  && forall last :: RecoversLast(d', last) ==> Within(h, last) && ReadAlike(Recovered(d'), h, last))
  {
    var s := Last(run);
    RunKeepsInv(run);
    hide DiskInv, CrashTo, Opens, Recovered, RecoversLast, ReadAlike, UpInv, OpeningInv;
    CrashKeepsDisk(s.disk, d', s.story);
    DiskIsWellFormed(d', s.story);
    OpeningRecovers(d', s.story);
  }

  lemma DiskIsWellFormed(d: Disk, st: Story)
    requires DiskInv(d, st)
    ensures WellFormed(d)
  {
  }

  /** Nothing of the current manifest is left. */
  function WithoutManifest(d: Disk): Disk { d.(manifests := d.manifests[d.current := Manifest([], 0)]) }

  lemma UnsyncedManifestMayGo(d: Disk)
    requires WellFormed(d) && Current(d).synced == 0
    ensures CrashTo(d, WithoutManifest(d)) && !Opens(WithoutManifest(d))
  {
    var d' := WithoutManifest(d);
    forall n | n in d.logs ensures LogSurvivesAs(d.logs[n], d'.logs[n]) {
      assert d.logs[n].records == d.logs[n].records[..|d.logs[n].records|];
    }
    forall n | n in d.manifests && d.manifests[n].synced <= |d.manifests[n].edits| ensures ManifestSurvivesAs(d.manifests[n], d'.manifests[n]) {
      if n != d.current { assert d.manifests[n].edits == d.manifests[n].edits[..|d.manifests[n].edits|]; }
    }
    assert Current(d').edits == [] && Replay([]).log.None?;
  }

  lemma SyncedManifestStays(d: Disk, d': Disk)
    requires WellFormed(d) && Current(d).synced > 0 && CrashTo(d, d')
    ensures Current(d').edits != []
  {
    assert ManifestSurvivesAs(d.manifests[d.current], d'.manifests[d.current]);
  }

  /** The store opens again whatever a crash leaves exactly when some of its current manifest has been synced. */
  lemma OpensIff(run: seq<State>)
    requires IsRun(run)
    ensures Last(run).disk.current in Last(run).disk.manifests
    ensures (forall d' :: CrashTo(Last(run).disk, d') ==> Opens(d')) <==> Current(Last(run).disk).synced > 0
  {
    var d := Last(run).disk;
    RunKeepsInv(run);
    hide IsRun, CrashTo, Opens, UpInv, OpeningInv, Recovered, ReadAlike, RecoversLast, NumbersGrow, MaySurvive;
    if Current(d).synced == 0 {
      UnsyncedManifestMayGo(d);
    } else {
      forall d' | CrashTo(d, d') ensures Opens(d') {
        AcknowledgedWritesSurvive(run, d');
        SyncedManifestStays(d, d');
      }
    }
  }

  /** A store whose very first manifest was never synced: a crash right after it was created may leave nothing to open. */
  lemma NewStoreMayNotOpen() returns (run: seq<State>, d': Disk)
    ensures IsRun(run) && CrashTo(Last(run).disk, d') && !Opens(d')
  {
    run, d' := [Initial()], WithoutManifest(Initial().disk);
    UnsyncedManifestMayGo(Initial().disk);
  }

  /** As long as no compaction has left anything out, every acknowledged entry itself comes back. */
  lemma NothingDroppedNothingLost(run: seq<State>, d': Disk)
    requires IsRun(run) && CrashTo(Last(run).disk, d') && Last(run).story.dropped == {}
    ensures d'.current in d'.manifests && Last(run).story.acked <= Recovered(d')
    ensures Opens(d') ==> Recovered(d') <= Last(run).story.written
  {
    hide IsRun, CrashTo, ReadAlike;
    AcknowledgedWritesSurvive(run, d');
  }

  /** An acknowledged write with no newer surviving one for its key is what a reader finds after the crash. */
  lemma NewestAcknowledgedIsRead(run: seq<State>, d': Disk, e: Entry, last: nat)
    requires IsRun(run) && CrashTo(Last(run).disk, d') && d'.current in d'.manifests && Opens(d') && RecoversLast(d', last)
    requires e in Last(run).story.acked
    requires forall x :: x in Recovered(d') + Last(run).story.dropped && x.key == e.key ==> x.sn <= e.sn
    ensures ReadsAs(Recovered(d'), e.key, last, if e.op.Put? then Some(e.op.value) else None)
  {
    RunKeepsInv(run);
    hide DiskInv, CrashTo, IsRun, Opens, RecoversLast, Recovered, UpInv, OpeningInv;
    CrashKeepsDisk(Last(run).disk, d', Last(run).story);
    AckedReadsBack(d', Last(run).story, e, last);
  }

  /** A running store numbers new writes above everything it holds, will recover, or ever dropped. */
  lemma NewNumbersAreNew(run: seq<State>)
    requires IsRun(run) && Last(run).proc.Up?
    ensures var s := Last(run);
            && WellFormed(s.disk) && Within(s.story.dropped + TableEntries(s.disk, s.proc.live) + SetOf(s.proc.imm), s.proc.last)
            && s.proc.logFile in s.disk.logs && Within(RecordEntries(s.disk.logs[s.proc.logFile].records), s.proc.last)
            && s.proc.mem <= RecordEntries(s.disk.logs[s.proc.logFile].records)
  {
    var s := Last(run);
    RunKeepsInv(run);
    AllWithin(s);
    Survivor(s, Current(s.disk).synced);
    assert UpInv(s) && LogsFit(s.disk, s.proc);
    DurableOfCurrent(s.disk, s.proc.logFile, s.proc.logNumber);
    hide IsRun, DiskInv, TableEntries, LogEntries, RecordEntries, Durable, Recoverable, ImmFits, JobFits;
  }
}
