/**
 What a failed append costs: writes behind it in the same log are told OK, synced
 and all, but a crash may lose them. Without a failed append no such write is lost.
 */
module TornLogs {
  import opened Basics
  import opened Keys
  import opened Disks
  import opened CrashSafety

  // ---------------------------------------------------------------------------
  // Runs without a failed append
  // ---------------------------------------------------------------------------

  ghost predicate NoTear(d: Disk) { forall n :: n in d.logs ==> !d.logs[n].torn }

  ghost predicate SamePromises(s: State, s': State) { s'.story.told == s.story.told && s'.story.acked == s.story.acked }

  lemma WriteTellsWhatItAcks(s: State, s': State)
    requires NextWrite(s, s') && NoTear(s.disk) && s.story.told == s.story.acked
    ensures s'.story.told == s'.story.acked
  {
    hide CanAppend, CanSwitch;
    if batch, to :| CanAppend(s, batch, to) && (s' == Append(s, batch, to) || s' == FailAppend(s, batch, to)) {
    } else if sync :| CanFinish(s) && s' == FinishWrite(s, sync) {
      assert !s.disk.logs[s.proc.logFile].torn;
    } else {
    }
  }

  lemma WorkPromisesNothing(s: State, s': State)
    requires NextWork(s, s')
    ensures SamePromises(s, s')
  {
    hide CanBuildCompaction, CanLogEdit, CanBuildFlush, CanInstall;
    if junk :| CanScribble(s) && s' == Scribble(s, junk) {
    } else if inputs, outs, next, smallest :|
        CanBuildCompaction(s, inputs, outs, next, smallest) && s' == BuildCompaction(s, inputs, outs, next, smallest) {
    } else if n :| CanMove(s, n) && s' == Move(s, n) {
    } else {
    }
  }

  lemma RecoveryPromisesNothing(s: State, s': State)
    requires NextRecovery(s, s')
    ensures SamePromises(s, s')
  {
    hide Opens, CrashTo, CanRecoverLog, CanWriteManifest, CanSyncManifest;
    if d' :| CrashTo(s.disk, d') && s' == Crash(s, d') {
    } else if n, last :| CanRecoverLog(s, n, last) && s' == RecoverLog(s, n, last) {
    } else {
    }
  }

  lemma StepTellsWhatItAcks(s: State, s': State)
    requires Next(s, s') && NoTear(s.disk) && s.story.told == s.story.acked
    ensures s'.story.told == s'.story.acked
  {
    hide NextWrite, NextWork, NextRecovery;
    if NextWrite(s, s') {
      WriteTellsWhatItAcks(s, s');
    } else if NextWork(s, s') {
      WorkPromisesNothing(s, s');
    } else if NextRecovery(s, s') {
      RecoveryPromisesNothing(s, s');
    } else {
      assert SamePromises(s, s');
    }
  }

  /** As long as no append has failed, every write that returned OK after a sync is one that survives. */
  lemma {:induction false} UntornRunsKeepWhatTheyTell(run: seq<State>)
    requires IsRun(run) && forall i :: 0 <= i < |run| ==> NoTear(run[i].disk)
    ensures Last(run).story.told == Last(run).story.acked
  {
    hide Next;
    if |run| > 1 {
      UntornRunsKeepWhatTheyTell(run[..|run| - 1]);
      StepTellsWhatItAcks(run[|run| - 2], Last(run));
    }
  }

  // ---------------------------------------------------------------------------
  // Behind a tear
  // ---------------------------------------------------------------------------

  function CutAtTear(d: Disk, n: nat): Disk
    requires n in d.logs && d.logs[n].synced <= |d.logs[n].records|
  {
    d.(logs := d.logs[n := d.logs[n].(records := d.logs[n].records[..d.logs[n].synced])])
  }

  /** A crash may leave of a torn log nothing but what was durable before the tear. */
  lemma BehindTheTear(d: Disk, n: nat)
    requires n in d.logs && d.logs[n].torn && forall i :: i in d.logs ==> d.logs[i].synced <= |d.logs[i].records|
    ensures CrashTo(d, CutAtTear(d, n)) && RecordEntries(CutAtTear(d, n).logs[n].records) == Durable(d.logs[n])
  {
    var d', log := CutAtTear(d, n), d.logs[n];
    assert d'.logs[n].records[..log.synced] == log.records[..log.synced];
    forall i | i in d.logs ensures LogSurvivesAs(d.logs[i], d'.logs[i]) {
      if i != n { assert d.logs[i].records == d.logs[i].records[..|d.logs[i].records|]; }
    }
    forall i | i in d.manifests && d.manifests[i].synced <= |d.manifests[i].edits| ensures ManifestSurvivesAs(d.manifests[i], d'.manifests[i]) {
      assert d.manifests[i].edits == d.manifests[i].edits[..|d.manifests[i].edits|];
    }
  }

  // ---------------------------------------------------------------------------
  // A write that is told OK and lost
  // ---------------------------------------------------------------------------

  lemma Extend(run: seq<State>, s: State)
    requires IsRun(run) && Next(Last(run), s)
    ensures IsRun(run + [s]) && Last(run + [s]) == s
  {
    assert (run + [s])[..|run|] == run;
  }

  ghost function First(): Entry { Entry(1.0, 1, Put([])) }

  ghost function Second(): Entry { Entry(2.0, 2, Put([])) }

  /** The first opening of a new store. */
  lemma OpenNewStore() returns (run: seq<State>)
    ensures IsRun(run) && Last(run).proc == Up({}, None, None, 3, 3, {}, 4, 0, false, Idle)
    ensures Last(run).disk.logs == map[3 := LogFile([], 0, false)] && Last(run).disk.tables == map[]
    ensures Last(run).disk.current == 2 && 2 in Last(run).disk.manifests
    ensures Current(Last(run).disk) == Manifest([Edit(None, None, None, {}, {}), Edit(Some(3), Some(4), Some(0), {}, {})], 2)
    ensures Last(run).story == Story({}, {}, {}, {}, 0)
  {
    run := [Initial()];
    var s := Initial();
    assert Current(s.disk).edits[..0] == [];
    assert Replay(Current(s.disk).edits) == ApplyEdit(Replay(Current(s.disk).edits[..0]), Current(s.disk).edits[0]);
    assert Replay(Current(s.disk).edits) == Meta({}, Some(0), Some(2), Some(0));
    assert Opens(s.disk);
    assert (set n | n in s.disk.logs && n >= 0) == {};
    run, s := Then(run, s, StartOpen(s)), StartOpen(s);
    assert s.proc == Opening(Meta({}, Some(0), Some(2), Some(0)), 3, 0, {}, ReadingLogs({}));
    assert CanWriteManifest(s);
    run, s := Then(run, s, WriteManifest(s)), WriteManifest(s);
    assert CanSyncManifest(s);
    run, s := Then(run, s, SyncManifest(s)), SyncManifest(s);
    assert CanSetCurrent(s);
    run, s := Then(run, s, SetCurrent(s)), SetCurrent(s);
  }

  ghost function Then(run: seq<State>, s: State, s': State): (r: seq<State>)
    requires IsRun(run) && Last(run) == s && Next(s, s')
    ensures IsRun(r) && Last(r) == s'
  {
    Extend(run, s');
    run + [s']
  }

  /** The state after a failed append of the first batch and a synced write of the second. */
  ghost function FailThenWrite(s: State): State
    requires s.proc == Up({}, None, None, 3, 3, {}, 4, 0, false, Idle) && 3 in s.disk.logs
  {
    FinishWrite(Append(FailAppend(s, {First()}, 1), {Second()}, 2), true)
  }

  lemma RunThrough(run: seq<State>, s': State) returns (r: seq<State>)
    requires IsRun(run) && Last(run).proc == Up({}, None, None, 3, 3, {}, 4, 0, false, Idle) && 3 in Last(run).disk.logs
    requires s' == FailThenWrite(Last(run))
    ensures IsRun(r) && Last(r) == s'
  {
    var s := Last(run);
    hide IsRun;
    var a := FailAppend(s, {First()}, 1);
    assert CanAppend(s, {First()}, 1) && NextWrite(s, a);
    var b := Append(a, {Second()}, 2);
    assert CanAppend(a, {Second()}, 2) && NextWrite(a, b);
    assert CanFinish(b) && NextWrite(b, FinishWrite(b, true));
    r := Then(Then(Then(run, s, a), a, b), b, s');
  }

  /**
   A run and a crash after it: the first append fails halfway, the store takes the next write to the same log,
   syncs it and returns OK, and the write is gone when the store opens again.
   */
  lemma ToldWriteIsLost() returns (run: seq<State>, d': Disk)
    ensures IsRun(run) && CrashTo(Last(run).disk, d') && d'.current in d'.manifests && Opens(d')
    ensures Second() in Last(run).story.told && Second() !in Recovered(d') && Last(run).story.dropped == {}
  {
    run := OpenNewStore();
    var s := FailThenWrite(Last(run));
    run := RunThrough(run, s);
    BehindTheTear(s.disk, 3);
    d' := CutAtTear(s.disk, 3);
    assert Current(d') == Current(s.disk) && d'.tables == map[];
    ReplayTwo(Current(d').edits[0], Current(d').edits[1]);
    assert Current(d').edits == [Current(d').edits[0], Current(d').edits[1]];
    assert Replay(Current(d').edits) == Meta({}, Some(3), Some(4), Some(0));
    assert LogEntries(d', 3) == {} && TableEntries(d', {}) == {};
  }
}
