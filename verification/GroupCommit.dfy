/**
 The writer queue: any number of threads hand in batches, the one at the front
 commits a group on behalf of those behind it. Sections run under the mutex are
 one step; while the leader logs, syncs and inserts, the mutex is free.
 */
module GroupCommit {
  import opened Basics
  import opened Keys

  /** A batch as the caller built it; bytes is the length of its encoded form. */
  datatype Batch = Batch(ops: seq<Write>, bytes: nat)

  /** A queued writer. No batch means: only wait for the writes before. */
  datatype Writer = Writer(id: nat, batch: Option<Batch>, sync: bool)

  function OpsOf(w: Writer): seq<Write> { if w.batch.Some? then w.batch.value.ops else [] }

  function BytesOf(w: Writer): nat { if w.batch.Some? then w.batch.value.bytes else 0 }

  /** The operations of a list of writers, in order. */
  function Ops(ws: seq<Writer>): seq<Write> {
    if ws == [] then [] else Ops(ws[..|ws| - 1]) + OpsOf(ws[|ws| - 1])
  }

  function Bytes(ws: seq<Writer>): nat {
    if ws == [] then 0 else Bytes(ws[..|ws| - 1]) + BytesOf(ws[|ws| - 1])
  }

  // ---------------------------------------------------------------------------
  // Which writers form a group
  // ---------------------------------------------------------------------------

  const kGrowth: nat := 131072       // 128 << 10
  const kLargeGroup: nat := 1048576  // 1 << 20

  /** A small write is not slowed down by a large group. */
  function MaxSize(first: Batch): nat {
    if first.bytes <= kGrowth then first.bytes + kGrowth else kLargeGroup
  }

  /** Writer i may follow the ones before it into the group led by writer 0. */
  predicate Joins(ws: seq<Writer>, i: nat)
    requires i < |ws| && ws[0].batch.Some?
  {
    && !(ws[i].sync && !ws[0].sync)
    && (ws[i].batch.Some? ==> Bytes(ws[..i + 1]) <= MaxSize(ws[0].batch.value))
  }

  ghost predicate AllJoin(ws: seq<Writer>, n: nat)
    requires n <= |ws| && ws != [] && ws[0].batch.Some?
  {
    forall i: nat :: 1 <= i < n ==> Joins(ws, i)
  }

  /** The group is the longest prefix of writers that may join. */
  ghost predicate IsGroup(ws: seq<Writer>, n: nat) {
    && 1 <= n <= |ws| && ws[0].batch.Some?
    && AllJoin(ws, n)
    && (n < |ws| ==> !Joins(ws, n))
  }

  lemma OneMoreJoins(ws: seq<Writer>, n: nat)
    requires 1 <= n < |ws| && ws[0].batch.Some? && AllJoin(ws, n) && Joins(ws, n)
    ensures AllJoin(ws, n + 1)
  {
  }

  lemma BytesOfTail(ws: seq<Writer>, n: nat)
    requires 1 <= n <= |ws| && ws[0].batch.Some? && AllJoin(ws, n)
    ensures Bytes(ws[..n]) <= MaxSize(ws[0].batch.value) || Bytes(ws[..n]) == ws[0].batch.value.bytes
  {
    assert ws[..n][..n - 1] == ws[..n - 1];
    if n > 1 {
      assert Joins(ws, n - 1);
      BytesOfTail(ws, n - 1);
    } else {
      assert ws[..1][..0] == [];
    }
  }

  /** What a group may be: no sync writer behind a leader that does not sync, within the size limit unless the
      leader's batch alone exceeds it, and determined by the queue. */
  lemma GroupIsBounded(ws: seq<Writer>, n: nat, m: nat)
    requires IsGroup(ws, n) && IsGroup(ws, m)
    ensures n == m
    ensures forall i :: 0 <= i < n && ws[i].sync ==> ws[0].sync
    ensures Bytes(ws[..n]) <= MaxSize(ws[0].batch.value) || Bytes(ws[..n]) == ws[0].batch.value.bytes
  {
    BytesOfTail(ws, n);
    forall i | 0 <= i < n && ws[i].sync ensures ws[0].sync {
      if i > 0 { assert Joins(ws, i); }
    }
  }

  lemma OneMore(ws: seq<Writer>, n: nat)
    requires n < |ws|
    ensures Ops(ws[..n + 1]) == Ops(ws[..n]) + OpsOf(ws[n])
    ensures ws[n].batch.None? ==> Ops(ws[..n + 1]) == Ops(ws[..n])
    ensures n == 0 ==> Ops(ws[..1]) == OpsOf(ws[0])
    ensures Bytes(ws[..n + 1]) == Bytes(ws[..n]) + BytesOf(ws[n])
  {
    assert ws[..n + 1][..n] == ws[..n];
  }

  /** The first n writers may form a group, of this size and with these operations. */
  ghost predicate Gathered(ws: seq<Writer>, n: nat, size: nat, ops: seq<Write>) {
    1 <= n <= |ws| && ws[0].batch.Some? && AllJoin(ws, n) && size == Bytes(ws[..n]) && ops == Ops(ws[..n])
  }

  lemma LeaderGathered(ws: seq<Writer>)
    requires ws != [] && ws[0].batch.Some?
    ensures Gathered(ws, 1, ws[0].batch.value.bytes, ws[0].batch.value.ops)
  {
    OneMore(ws, 0);
    assert ws[..0] == [];
  }

  /** Whether the next writer joins, and the group with it if it does. */
  lemma NextGathered(ws: seq<Writer>, n: nat, size: nat, ops: seq<Write>)
    requires n < |ws| && Gathered(ws, n, size, ops)
    ensures
      var w, first := ws[n], ws[0];
      if (w.sync && !first.sync) || (w.batch.Some? && size + w.batch.value.bytes > MaxSize(first.batch.value)) then IsGroup(ws, n) && ops == Ops(ws[..n])
      else Gathered(ws, n + 1, size + BytesOf(w), ops + OpsOf(w)) && (w.batch.None? ==> ops + OpsOf(w) == ops)
  {
    OneMore(ws, n);
    hide Ops, Bytes, AllJoin;
    if Joins(ws, n) { OneMoreJoins(ws, n); }
  }

  lemma AllGathered(ws: seq<Writer>, size: nat, ops: seq<Write>)
    requires Gathered(ws, |ws|, size, ops)
    ensures IsGroup(ws, |ws|) && ops == Ops(ws[..|ws|])
  {
  }

  // ---------------------------------------------------------------------------
  // The two loops of the queue
  // ---------------------------------------------------------------------------

  predicate DistinctIds(ws: seq<Writer>) {
    forall i, j :: 0 <= i < j < |ws| ==> ws[i].id != ws[j].id
  }

  /** Every writer of the group gets the same outcome. */
  function Outcomes(o: map<nat, bool>, ws: seq<Writer>, ok: bool): map<nat, bool> {
    if ws == [] then o else Outcomes(o, ws[..|ws| - 1], ok)[ws[|ws| - 1].id := ok]
  }

  lemma {:induction false} OutcomesMeaning(o: map<nat, bool>, ws: seq<Writer>, ok: bool, id: nat)
    ensures id in Outcomes(o, ws, ok) <==> id in o || exists i :: 0 <= i < |ws| && ws[i].id == id
    ensures (exists i :: 0 <= i < |ws| && ws[i].id == id) ==> Outcomes(o, ws, ok)[id] == ok
    ensures !(exists i :: 0 <= i < |ws| && ws[i].id == id) && id in o ==> Outcomes(o, ws, ok)[id] == o[id]
  {
    if ws != [] {
      var n := |ws| - 1;
      OutcomesMeaning(o, ws[..n], ok, id);
      if i :| 0 <= i < |ws| && ws[i].id == id {
        assert i < n ==> ws[..n][i].id == id;
      }
    }
  }

  class WriteQueue {
    var writers: seq<Writer>
    var tmpBatch: seq<Write>
    var outcome: map<nat, bool>

    /** The second batch of a group is where the queue starts to collect a copy; a writer's own batch never grows. */
    method Append(first: Batch, batch: Batch, inTmp: bool)
      requires !inTmp ==> tmpBatch == []
      modifies this`tmpBatch
      ensures tmpBatch == (if inTmp then old(tmpBatch) else first.ops) + batch.ops
    {
      if !inTmp {
        tmpBatch := tmpBatch + first.ops;
      }
      tmpBatch := tmpBatch + batch.ops;
    }

    /** The updates are the caller's own batch if nobody else brings one, otherwise the temporary batch. */
    method BuildBatchGroup() returns (n: nat, updates: seq<Write>, inTmp: bool)
      requires |writers| > 0 && writers[0].batch.Some? && tmpBatch == []
      modifies this`tmpBatch
      ensures IsGroup(writers, n) && updates == Ops(writers[..n])
      ensures tmpBatch == if inTmp then updates else []
    {
      var ws, first := writers, writers[0];
      var size: nat := first.batch.value.bytes;
      var maxSize := kLargeGroup;
      if size <= kGrowth {
        maxSize := size + kGrowth;
      }
      inTmp, n := false, 1;
      ghost var sofar := first.batch.value.ops;
      LeaderGathered(ws);
      hide Ops, Bytes, AllJoin, Joins, Gathered;
      while n < |ws|
        invariant 1 <= n <= |ws| && Gathered(ws, n, size, sofar) && maxSize == MaxSize(first.batch.value)
        invariant if inTmp then tmpBatch == sofar else tmpBatch == [] && first.batch.value.ops == sofar
      {
        var w := ws[n];
        NextGathered(ws, n, size, sofar);
        if w.sync && !first.sync {
          break;
        }
        if w.batch.Some? {
          size := size + w.batch.value.bytes;
          if size > maxSize {
            break;
          }
          Append(first.batch.value, w.batch.value, inTmp);
          inTmp, sofar := true, tmpBatch;
        }
        n := n + 1;
      }
      if n == |ws| { AllGathered(ws, size, sofar); }
      updates := if inTmp then tmpBatch else first.batch.value.ops;
    }

    /** The loop at the end of Write: pop up to the last writer of the group and hand everybody the status. */
    method CompleteGroup(lastWriter: Writer, ok: bool, ghost n: nat)
      requires 1 <= n <= |writers| && DistinctIds(writers) && lastWriter == writers[n - 1]
      modifies this`writers, this`outcome
      ensures writers == old(writers)[n..]
      ensures outcome == Outcomes(old(outcome), old(writers)[..n], ok)
    {
      ghost var k := 0;
      ghost var ws := writers;
      while true
        invariant 0 <= k < n && writers == ws[k..] && ws == old(writers)
        invariant outcome == Outcomes(old(outcome), ws[..k], ok)
        decreases n - k
      {
        var ready := writers[0];
        writers := writers[1..];
        outcome := outcome[ready.id := ok];
        assert ws[..k + 1][..k] == ws[..k];
        k := k + 1;
        if ready == lastWriter {
          assert ws[k - 1].id == ws[n - 1].id;
          return;
        }
      }
    }
  }

  // ---------------------------------------------------------------------------
  // All interleavings
  // ---------------------------------------------------------------------------

  datatype Phase = Logging | Syncing | Inserting | Ended(ok: bool, syncError: bool)

  datatype Leader = Nobody | MakingRoom | Committing(n: nat, updates: seq<Write>, phase: Phase)

  /** One record of the log, whether a sync has covered it, and whether it was appended whole. What a sync is worth
      behind a record that was not is said in module TornLogs. */
  datatype Record = Record(first: nat, ops: seq<Write>, durable: bool, whole: bool)

  /** A group that is over. A leader that got no room, or had no batch, makes a group of one without operations. */
  datatype Group = Group(members: seq<Writer>, first: nat, ops: seq<Write>, ok: bool, syncError: bool)

  /**
   queue to applied are the state the code keeps; fileStart is the first record of the current log file.
   The last two fields record the past, for the statements below; no step depends on them.
   */
  datatype State = State(
    queue: seq<Writer>,
    outcome: map<nat, bool>,
    leader: Leader,
    last: nat,
    bgError: bool,
    tmp: seq<Write>,
    records: seq<Record>,
    fileStart: nat,
    applied: map<nat, Write>,
    arrived: seq<Writer>,
    groups: seq<Group>)

  datatype Step =
    | Arrive(w: Writer)
    | Lead
    | SwitchLog
    | BackgroundError
    | NoRoom
    | NothingToWrite
    | Build(n: nat)
    | AddRecord(logged: bool, part: bool)   // a failed append may leave a part of the record
    | Sync(synced: bool)
    | Insert(count: nat, inserted: bool)
    | Complete

  ghost predicate Enabled(s: State, step: Step) {
    match step
    case Arrive(w) => forall i :: 0 <= i < |s.arrived| ==> s.arrived[i].id != w.id
    case Lead => s.leader.Nobody? && s.queue != []
    case SwitchLog => s.leader.MakingRoom? && !s.bgError
    case BackgroundError => true
    case NoRoom => s.leader.MakingRoom? && s.queue != []
    case NothingToWrite => s.leader.MakingRoom? && s.queue != [] && !s.bgError && s.queue[0].batch.None?
    case Build(n) => s.leader.MakingRoom? && !s.bgError && IsGroup(s.queue, n)
    case AddRecord(_, _) => s.leader.Committing? && s.leader.phase.Logging?
    case Sync(_) => s.leader.Committing? && s.leader.phase.Syncing?
    case Insert(count, inserted) =>
      s.leader.Committing? && s.leader.phase.Inserting? && count <= |s.leader.updates| && (inserted ==> count == |s.leader.updates|)
    case Complete => s.leader.Committing? && s.leader.phase.Ended? && s.leader.n <= |s.queue|
  }

  /** The updates that BuildBatchGroup returns, given what is in the temporary batch. */
  function Collected(tmp: seq<Write>, ws: seq<Writer>): seq<Write> {
    if exists i :: 1 <= i < |ws| && ws[i].batch.Some? then tmp + Ops(ws) else Ops(ws)
  }

  function InsertAll(applied: map<nat, Write>, first: nat, ops: seq<Write>): map<nat, Write> {
    if ops == [] then applied
    else InsertAll(applied, first, ops[..|ops| - 1])[first + |ops| - 1 := ops[|ops| - 1]]
  }

  function SyncFrom(rs: seq<Record>, start: nat): seq<Record> {
    seq(|rs|, i requires 0 <= i < |rs| => if i >= start then rs[i].(durable := true) else rs[i])
  }

  /** Pops the group and hands out the outcome. */
  function Finish(s: State, n: nat, ops: seq<Write>, ok: bool, syncError: bool): State
    requires n <= |s.queue|
  {
    s.(queue := s.queue[n..], outcome := Outcomes(s.outcome, s.queue[..n], ok), leader := Nobody,
       last := s.last + |ops|, bgError := s.bgError || syncError, tmp := [],
       groups := s.groups + [Group(s.queue[..n], s.last + 1, ops, ok, syncError)])
  }

  ghost function Apply(s: State, step: Step): State
    requires Enabled(s, step)
  {
    match step
    case Arrive(w) => s.(queue := s.queue + [w], arrived := s.arrived + [w])
    case Lead => s.(leader := MakingRoom)
    case SwitchLog => s.(fileStart := |s.records|)
    case BackgroundError => s.(bgError := true)
    case NoRoom => Finish(s, 1, [], false, false)
    case NothingToWrite => Finish(s, 1, [], true, false)
    case Build(n) =>
      var updates := Collected(s.tmp, s.queue[..n]);
      s.(leader := Committing(n, updates, Logging),
         tmp := if exists i :: 1 <= i < n && s.queue[i].batch.Some? then updates else s.tmp)
    case AddRecord(logged, part) =>
      if logged then
        s.(records := s.records + [Record(s.last + 1, s.leader.updates, false, true)],
           leader := s.leader.(phase := if s.queue != [] && s.queue[0].sync then Syncing else Inserting))
      else if part then
        s.(records := s.records + [Record(s.last + 1, s.leader.updates, false, false)],
           leader := s.leader.(phase := Ended(false, false)))
      else s.(leader := s.leader.(phase := Ended(false, false)))
    case Sync(synced) =>
      if synced then s.(records := SyncFrom(s.records, s.fileStart), leader := s.leader.(phase := Inserting))
      else s.(leader := s.leader.(phase := Ended(false, true)))
    case Insert(count, inserted) =>
      s.(applied := InsertAll(s.applied, s.last + 1, s.leader.updates[..count]),
         leader := s.leader.(phase := Ended(inserted, false)))
    case Complete => Finish(s, s.leader.n, s.leader.updates, s.leader.phase.ok, s.leader.phase.syncError)
  }

  // ---------------------------------------------------------------------------
  // What every step keeps
  // ---------------------------------------------------------------------------

  /** The members of all finished groups, in order. */
  function Members(gs: seq<Group>): seq<Writer> {
    if gs == [] then [] else Members(gs[..|gs| - 1]) + gs[|gs| - 1].members
  }

  function OpCount(gs: seq<Group>): nat {
    if gs == [] then 0 else OpCount(gs[..|gs| - 1]) + |gs[|gs| - 1].ops|
  }

  /** Each group starts at the sequence number after the group before it, whether that one succeeded or not. */
  ghost predicate Consecutive(gs: seq<Group>) {
    forall g :: 0 <= g < |gs| ==> gs[g].first == 1 + OpCount(gs[..g])
  }

  /** The group's operations are in the log, synced if the leader asked for it. */
  ghost predicate Recorded(rs: seq<Record>, first: nat, ops: seq<Write>, sync: bool) {
    exists i :: 0 <= i < |rs| && rs[i].first == first && rs[i].ops == ops && rs[i].whole && (sync ==> rs[i].durable)
  }

  ghost predicate Holds(applied: map<nat, Write>, q: nat, w: Write) { q in applied && applied[q] == w }

  /** The operations are in the memtable under consecutive sequence numbers. */
  ghost predicate Inserted(applied: map<nat, Write>, first: nat, ops: seq<Write>) {
    forall k: nat :: k < |ops| ==> Holds(applied, first + k, ops[k])
  }

  ghost predicate GroupOk(s: State, g: Group) {
    && g.members != []
    && (forall i :: 0 <= i < |g.members| && g.members[i].sync ==> g.members[0].sync)
    && (forall i :: 0 <= i < |g.members| ==> g.members[i].id in s.outcome && s.outcome[g.members[i].id] == g.ok)
    && (g.ok ==> g.ops == Ops(g.members) && Inserted(s.applied, g.first, g.ops))
    && (g.ok && |g.members| > 1 ==> g.members[0].batch.Some?)
    && (g.ok && g.members[0].batch.Some? ==> Recorded(s.records, g.first, g.ops, g.members[0].sync))
    && (g.syncError ==> !g.ok && s.bgError)
  }

  ghost predicate GroupsOk(s: State) {
    forall g :: 0 <= g < |s.groups| ==> GroupOk(s, s.groups[g])
  }

  /** After a failed sync nothing succeeds any more. */
  ghost predicate FailsForGood(gs: seq<Group>) {
    forall g, h :: 0 <= g < h < |gs| && gs[g].syncError ==> !gs[h].ok
  }

  ghost predicate QueueOk(s: State) {
    && Members(s.groups) + s.queue == s.arrived && DistinctIds(s.arrived)
    && forall id :: id in s.outcome ==> exists i :: 0 <= i < |Members(s.groups)| && Members(s.groups)[i].id == id
  }

  ghost predicate NumbersOk(s: State) {
    && Consecutive(s.groups) && s.last == OpCount(s.groups)
    && s.fileStart <= |s.records|
    && forall q :: q in s.applied ==> 1 <= q <= s.last + Pending(s)
  }

  function Pending(s: State): nat {
    if s.leader.Committing? && s.leader.phase.Ended? then |s.leader.updates| else 0
  }

  ghost predicate LeaderOk(s: State) {
    match s.leader
    case Nobody => s.tmp == []
    case MakingRoom => s.tmp == [] && s.queue != []
    case Committing(n, updates, phase) =>
      && 1 <= n <= |s.queue| && updates == Ops(s.queue[..n]) && s.queue[0].batch.Some?
      && (forall i :: 0 <= i < n && s.queue[i].sync ==> s.queue[0].sync)
      && (forall g :: 0 <= g < |s.groups| ==> !s.groups[g].syncError)
      && match phase
         case Logging => true
         case Syncing => s.queue[0].sync && LoggedLast(s, updates)
         case Inserting => Recorded(s.records, s.last + 1, updates, s.queue[0].sync)
         case Ended(ok, syncError) =>
           && (syncError ==> !ok)
           && (ok ==> Recorded(s.records, s.last + 1, updates, s.queue[0].sync) && Inserted(s.applied, s.last + 1, updates))
  }

  ghost predicate LoggedLast(s: State, updates: seq<Write>) {
    s.records != [] && s.fileStart < |s.records|
    && var r := s.records[|s.records| - 1]; r.first == s.last + 1 && r.ops == updates && r.whole
  }

  ghost predicate Inv(s: State) {
    QueueOk(s) && NumbersOk(s) && GroupsOk(s) && FailsForGood(s.groups) && LeaderOk(s)
  }

  lemma {:induction false} MemberIsListed(gs: seq<Group>, g: nat, i: nat)
    requires g < |gs| && i < |gs[g].members|
    ensures |Members(gs[..g])| + i < |Members(gs)|
    ensures Members(gs)[|Members(gs[..g])| + i] == gs[g].members[i]
  {
    var n := |gs| - 1;
    if g < n {
      assert gs[..n][..g] == gs[..g];
      MemberIsListed(gs[..n], g, i);
    }
  }

  lemma {:induction false} InsertAllMeaning(applied: map<nat, Write>, first: nat, ops: seq<Write>)
    ensures Inserted(InsertAll(applied, first, ops), first, ops)
    ensures forall q :: q in InsertAll(applied, first, ops) <==> q in applied || first <= q < first + |ops|
    ensures forall q :: q in applied && !(first <= q < first + |ops|) ==> InsertAll(applied, first, ops)[q] == applied[q]
  {
    if ops != [] {
      InsertAllMeaning(applied, first, ops[..|ops| - 1]);
    }
  }

  // ---- finished groups are not disturbed

  ghost predicate RecordsGrow(rs: seq<Record>, rs': seq<Record>) {
    && |rs| <= |rs'|
    && forall i :: 0 <= i < |rs| ==> rs'[i].first == rs[i].first && rs'[i].ops == rs[i].ops && rs'[i].whole == rs[i].whole && (rs[i].durable ==> rs'[i].durable)
  }

  lemma RecordedStays(rs: seq<Record>, rs': seq<Record>, first: nat, ops: seq<Write>, sync: bool, sync': bool)
    requires RecordsGrow(rs, rs') && Recorded(rs, first, ops, sync) && (sync' ==> sync)
    ensures Recorded(rs', first, ops, sync')
  {
    var i :| 0 <= i < |rs| && rs[i].first == first && rs[i].ops == ops && (sync ==> rs[i].durable);
    assert rs'[i].first == first;
  }

  lemma InsertedStays(a: map<nat, Write>, a': map<nat, Write>, first: nat, ops: seq<Write>)
    requires Inserted(a, first, ops) && forall q :: q in a ==> q in a' && a'[q] == a[q]
    ensures Inserted(a', first, ops)
  {
    forall k: nat | k < |ops| ensures Holds(a', first + k, ops[k]) {
      var w := ops[k];
      assert a[first + k] == w;
    }
  }

  lemma SyncMakesDurable(rs: seq<Record>, start: nat)
    ensures RecordsGrow(rs, SyncFrom(rs, start))
    ensures start < |rs| && rs[|rs| - 1].whole ==>
              var r := rs[|rs| - 1]; Recorded(SyncFrom(rs, start), r.first, r.ops, true)
  {
    if start < |rs| {
      assert SyncFrom(rs, start)[|rs| - 1].durable;
    }
  }

  ghost predicate Undisturbed(s: State, t: State) {
    && RecordsGrow(s.records, t.records) && (s.bgError ==> t.bgError)
    && forall q :: q in s.applied ==> q in t.applied && t.applied[q] == s.applied[q]
  }

  lemma GroupStays(s: State, t: State, g: Group)
    requires GroupOk(s, g) && Undisturbed(s, t)
    requires forall i :: 0 <= i < |g.members| ==> g.members[i].id in t.outcome && t.outcome[g.members[i].id] == s.outcome[g.members[i].id]
    ensures GroupOk(t, g)
  {
    if g.ok && g.members[0].batch.Some? {
      RecordedStays(s.records, t.records, g.first, g.ops, g.members[0].sync, g.members[0].sync);
    }
    if g.ok { InsertedStays(s.applied, t.applied, g.first, g.ops); }
  }

  lemma GroupsStay(s: State, t: State)
    requires GroupsOk(s) && Undisturbed(s, t) && t.groups == s.groups && t.outcome == s.outcome
    ensures GroupsOk(t)
  {
    forall g | 0 <= g < |t.groups| ensures GroupOk(t, t.groups[g]) {
      assert GroupOk(s, s.groups[g]);
      GroupStays(s, t, s.groups[g]);
    }
  }

  // ---- the end of a group

  /** What the leader must have done before it hands out the outcome. */
  ghost predicate Finishable(s: State, n: nat, ops: seq<Write>, ok: bool, syncError: bool) {
    && 1 <= n <= |s.queue|
    && (forall i :: 0 <= i < n && s.queue[i].sync ==> s.queue[0].sync)
    && (ok ==> ops == Ops(s.queue[..n]) && Inserted(s.applied, s.last + 1, ops))
    && (ok && n > 1 ==> s.queue[0].batch.Some?)
    && (ok && s.queue[0].batch.Some? ==> Recorded(s.records, s.last + 1, ops, s.queue[0].sync))
    && (syncError ==> !ok)
    && (ok ==> forall g :: 0 <= g < |s.groups| ==> !s.groups[g].syncError)
    && forall q :: q in s.applied ==> 1 <= q <= s.last + |ops|
  }

  lemma FinishKeepsQueue(s: State, n: nat, ops: seq<Write>, ok: bool, syncError: bool)
    requires QueueOk(s) && n <= |s.queue|
    ensures QueueOk(Finish(s, n, ops, ok, syncError))
  {
    hide Members, Outcomes, DistinctIds, OpCount;
    var t := Finish(s, n, ops, ok, syncError);
    MembersOfMore(s.groups, Group(s.queue[..n], s.last + 1, ops, ok, syncError));
    assert s.queue == s.queue[..n] + s.queue[n..];
    Regroup(Members(s.groups), s.queue[..n], s.queue[n..]);
    OutcomesListed(s.outcome, Members(s.groups), s.queue[..n], ok);
  }

  lemma MembersOfMore(gs: seq<Group>, g: Group)
    ensures Members(gs + [g]) == Members(gs) + g.members && OpCount(gs + [g]) == OpCount(gs) + |g.ops|
  {
    assert (gs + [g])[..|gs|] == gs;
  }

  /** Whoever has an outcome is listed, before and after. */
  lemma OutcomesListed(o: map<nat, bool>, ms: seq<Writer>, ws: seq<Writer>, ok: bool)
    requires forall id :: id in o ==> exists i :: 0 <= i < |ms| && ms[i].id == id
    ensures forall id :: id in Outcomes(o, ws, ok) ==> exists i :: 0 <= i < |ms + ws| && (ms + ws)[i].id == id
  {
    hide Outcomes;
    forall id | id in Outcomes(o, ws, ok) ensures exists i :: 0 <= i < |ms + ws| && (ms + ws)[i].id == id {
      OutcomesMeaning(o, ws, ok, id);
      if id in o {
        var i :| 0 <= i < |ms| && ms[i].id == id;
        assert (ms + ws)[i].id == id;
      } else {
        var i :| 0 <= i < |ws| && ws[i].id == id;
        assert (ms + ws)[|ms| + i].id == id;
      }
    }
  }

  lemma OldMemberNotQueued(s: State, g: nat, i: nat, n: nat, ok: bool)
    requires QueueOk(s) && g < |s.groups| && i < |s.groups[g].members| && n <= |s.queue|
    requires s.groups[g].members[i].id in s.outcome
    ensures s.groups[g].members[i].id in Outcomes(s.outcome, s.queue[..n], ok)
    ensures Outcomes(s.outcome, s.queue[..n], ok)[s.groups[g].members[i].id] == s.outcome[s.groups[g].members[i].id]
  {
    var id, p := s.groups[g].members[i].id, |Members(s.groups[..g])| + i;
    MemberIsListed(s.groups, g, i);
    assert s.arrived[p].id == id;
    forall j | 0 <= j < n ensures s.queue[..n][j].id != id {
      assert s.arrived[|Members(s.groups)| + j] == s.queue[j];
    }
    OutcomesMeaning(s.outcome, s.queue[..n], ok, id);
  }

  lemma FinishKeepsGroups(s: State, n: nat, ops: seq<Write>, ok: bool, syncError: bool)
    requires QueueOk(s) && GroupsOk(s) && Finishable(s, n, ops, ok, syncError)
    ensures GroupsOk(Finish(s, n, ops, ok, syncError))
  {
    var t, ws := Finish(s, n, ops, ok, syncError), s.queue[..n];
    forall g | 0 <= g < |s.groups| ensures GroupOk(t, s.groups[g]) {
      assert GroupOk(s, s.groups[g]);
      forall i | 0 <= i < |s.groups[g].members|
        ensures s.groups[g].members[i].id in t.outcome && t.outcome[s.groups[g].members[i].id] == s.outcome[s.groups[g].members[i].id]
      {
        OldMemberNotQueued(s, g, i, n, ok);
      }
      GroupStays(s, t, s.groups[g]);
    }
    forall i | 0 <= i < n ensures ws[i].id in t.outcome && t.outcome[ws[i].id] == ok {
      OutcomesMeaning(s.outcome, ws, ok, ws[i].id);
    }
    assert GroupOk(t, Group(ws, s.last + 1, ops, ok, syncError));
  }

  lemma FinishKeepsNumbers(s: State, n: nat, ops: seq<Write>, ok: bool, syncError: bool)
    requires NumbersOk(s) && n <= |s.queue| && forall q :: q in s.applied ==> 1 <= q <= s.last + |ops|
    ensures NumbersOk(Finish(s, n, ops, ok, syncError))
  {
    hide Members, Outcomes, OpCount, Consecutive;
    ConsecutiveMore(s.groups, Group(s.queue[..n], s.last + 1, ops, ok, syncError));
  }

  lemma ConsecutiveMore(gs: seq<Group>, g: Group)
    requires Consecutive(gs) && g.first == 1 + OpCount(gs)
    ensures Consecutive(gs + [g]) && OpCount(gs + [g]) == OpCount(gs) + |g.ops|
  {
    MembersOfMore(gs, g);
    hide OpCount;
    forall h | 0 <= h < |gs + [g]| ensures (gs + [g])[h].first == 1 + OpCount((gs + [g])[..h]) {
      assert (gs + [g])[..h] == gs[..h];
      assert gs[..|gs|] == gs;
    }
  }

  lemma FinishKeepsInv(s: State, n: nat, ops: seq<Write>, ok: bool, syncError: bool)
    requires Inv(s) && Finishable(s, n, ops, ok, syncError)
    ensures Inv(Finish(s, n, ops, ok, syncError))
  {
    FinishKeepsQueue(s, n, ops, ok, syncError);
    FinishKeepsGroups(s, n, ops, ok, syncError);
    FinishKeepsNumbers(s, n, ops, ok, syncError);
  }

  // ---- the steps

  lemma ArriveKeepsInv(s: State, w: Writer)
    requires Inv(s) && Enabled(s, Arrive(w))
    ensures Inv(Apply(s, Arrive(w)))
  {
    hide Consecutive, OpCount, FailsForGood, Recorded, Inserted, Ops;
    var t := Apply(s, Arrive(w));
    assert Members(s.groups) + (s.queue + [w]) == s.arrived + [w];
    GroupsStay(s, t);
    if s.leader.Committing? {
      assert t.queue[..s.leader.n] == s.queue[..s.leader.n];
    }
  }

  lemma BuildKeepsInv(s: State, n: nat)
    requires Inv(s) && Enabled(s, Build(n))
    ensures Inv(Apply(s, Build(n)))
  {
    var t := Apply(s, Build(n));
    GroupsStay(s, t);
    GroupIsBounded(s.queue, n, n);
    assert Collected(s.tmp, s.queue[..n]) == Ops(s.queue[..n]);
    forall g | 0 <= g < |s.groups| ensures !s.groups[g].syncError {
      assert GroupOk(s, s.groups[g]);
    }
  }

  lemma AddRecordKeepsInv(s: State, logged: bool, part: bool)
    requires Inv(s) && Enabled(s, AddRecord(logged, part))
    ensures Inv(Apply(s, AddRecord(logged, part)))
  {
    hide Consecutive, Members, DistinctIds, OpCount, FailsForGood, Inserted, InsertAll;
    var t := Apply(s, AddRecord(logged, part));
    GroupsStay(s, t);
    if logged {
      assert t.records[|s.records|] == Record(s.last + 1, s.leader.updates, false, true);
    }
  }

  lemma SyncKeepsInv(s: State, synced: bool)
    requires Inv(s) && Enabled(s, Sync(synced))
    ensures Inv(Apply(s, Sync(synced)))
  {
    hide Consecutive, Members, DistinctIds, OpCount, FailsForGood, Inserted, InsertAll;
    var t := Apply(s, Sync(synced));
    SyncMakesDurable(s.records, s.fileStart);
    GroupsStay(s, t);
  }

  lemma InsertKeepsNumbers(s: State, count: nat, inserted: bool)
    requires NumbersOk(s) && Enabled(s, Insert(count, inserted))
    ensures NumbersOk(Apply(s, Insert(count, inserted))) && Undisturbed(s, Apply(s, Insert(count, inserted)))
    ensures Inserted(Apply(s, Insert(count, inserted)).applied, s.last + 1, s.leader.updates[..count])
  {
    InsertAllMeaning(s.applied, s.last + 1, s.leader.updates[..count]);
  }

  lemma InsertKeepsInv(s: State, count: nat, inserted: bool)
    requires Inv(s) && Enabled(s, Insert(count, inserted))
    ensures Inv(Apply(s, Insert(count, inserted)))
  {
    hide Consecutive, Members, DistinctIds, OpCount, FailsForGood, Recorded, Inserted, InsertAll;
    InsertKeepsNumbers(s, count, inserted);
    GroupsStay(s, Apply(s, Insert(count, inserted)));
    if inserted {
      assert s.leader.updates[..count] == s.leader.updates;
    }
  }

  lemma StepKeepsInv(s: State, step: Step)
    requires Inv(s) && Enabled(s, step)
    ensures Inv(Apply(s, step))
  {
    match step
    case Arrive(w) => ArriveKeepsInv(s, w);
    case NoRoom => NoRoomKeepsInv(s);
    case NothingToWrite => NothingToWriteKeepsInv(s);
    case Build(n) => BuildKeepsInv(s, n);
    case AddRecord(logged, part) => AddRecordKeepsInv(s, logged, part);
    case Sync(synced) => SyncKeepsInv(s, synced);
    case Insert(count, inserted) => InsertKeepsInv(s, count, inserted);
    case Complete => CompleteKeepsInv(s);
    case _ => PlainStepKeepsInv(s, step);
  }

  lemma CompleteKeepsInv(s: State)
    requires Inv(s) && Enabled(s, Complete)
    ensures Inv(Apply(s, Complete))
  {
    FinishKeepsInv(s, s.leader.n, s.leader.updates, s.leader.phase.ok, s.leader.phase.syncError);
  }

  lemma NoRoomKeepsInv(s: State)
    requires Inv(s) && Enabled(s, NoRoom)
    ensures Inv(Apply(s, NoRoom))
  {
    FinishKeepsInv(s, 1, [], false, false);
  }

  /** Steps that leave queue, outcomes, numbers and groups alone. */
  lemma PlainStepKeepsInv(s: State, step: Step)
    requires Inv(s) && Enabled(s, step) && (step.Lead? || step.SwitchLog? || step.BackgroundError?)
    ensures Inv(Apply(s, step))
  {
    hide Consecutive, Members, DistinctIds, OpCount, FailsForGood, Recorded, Inserted, Ops;
    GroupsStay(s, Apply(s, step));
  }

  lemma NothingToWriteKeepsInv(s: State)
    requires Inv(s) && Enabled(s, NothingToWrite)
    ensures Inv(Apply(s, NothingToWrite))
  {
    OneMore(s.queue, 0);
    forall g | 0 <= g < |s.groups| ensures !s.groups[g].syncError {
      assert GroupOk(s, s.groups[g]);
    }
    FinishKeepsInv(s, 1, [], true, false);
  }

  function Initial(): State {
    State([], map[], Nobody, 0, false, [], [], 0, map[], [], [])
  }

  ghost predicate Next(s: State, t: State) {
    exists step :: Enabled(s, step) && t == Apply(s, step)
  }

  ghost predicate IsRun(run: seq<State>) {
    var n := |run| - 1;
    n >= 0 && if n == 0 then run[0] == Initial() else IsRun(run[..n]) && Next(run[n - 1], run[n])
  }

  lemma {:induction false} RunKeepsInv(run: seq<State>)
    requires IsRun(run)
    ensures Inv(run[|run| - 1])
  {
    var n := |run| - 1;
    if n > 0 {
      RunKeepsInv(run[..n]);
      var step :| Enabled(run[n - 1], step) && run[n] == Apply(run[n - 1], step);
      StepKeepsInv(run[n - 1], step);
    }
  }

  // ---------------------------------------------------------------------------
  // What the callers of Write get
  // ---------------------------------------------------------------------------

  /** The sequence number of the first operation of member i of a group. */
  function FirstOf(g: Group, i: nat): nat
    requires i < |g.members|
  {
    g.first + |Ops(g.members[..i])|
  }

  lemma {:induction false} OpsOfMember(ws: seq<Writer>, i: nat)
    requires i < |ws|
    ensures |Ops(ws[..i])| + |OpsOf(ws[i])| <= |Ops(ws)|
    ensures Ops(ws)[|Ops(ws[..i])|..|Ops(ws[..i])| + |OpsOf(ws[i])|] == OpsOf(ws[i])
  {
    var n := |ws| - 1;
    if i < n {
      assert ws[..n][..i] == ws[..i];
      OpsOfMember(ws[..n], i);
    }
  }

  lemma PlacesInArrival(s: State, g: nat, i: nat)
    requires QueueOk(s) && g < |s.groups| && i < |s.groups[g].members|
    ensures |Members(s.groups[..g])| + i < |s.arrived|
    ensures s.groups[g].members[i] == s.arrived[|Members(s.groups[..g])| + i]
  {
    MemberIsListed(s.groups, g, i);
  }

  lemma LaterGroupLaterPlace(s: State, g: nat, i: nat, h: nat, j: nat)
    requires QueueOk(s) && g < |s.groups| && i < |s.groups[g].members| && h < |s.groups| && j < |s.groups[h].members|
    requires g < h || (g == h && i < j)
    ensures |Members(s.groups[..g])| + i < |Members(s.groups[..h])| + j < |s.arrived|
    ensures s.groups[g].members[i].id != s.groups[h].members[j].id
  {
    PlacesInArrival(s, g, i);
    PlacesInArrival(s, h, j);
    if g < h { MembersGrow(s.groups, g, h); }
  }

  /** Whoever has arrived is in the queue or in a group, and groups take writers in the order of arrival. */
  lemma EveryArrivalIsKept(run: seq<State>)
    requires IsRun(run)
    ensures var s := run[|run| - 1]; s.arrived == Members(s.groups) + s.queue && DistinctIds(s.arrived)
  {
    RunKeepsInv(run);
  }

  /** Two places in groups: the one in the later group, or later in the group, arrived later and is another writer. */
  lemma BatchesCommitOnceInOrder(run: seq<State>, g: nat, i: nat, h: nat, j: nat)
    requires IsRun(run)
    requires var gs := run[|run| - 1].groups;
             g < |gs| && i < |gs[g].members| && h < |gs| && j < |gs[h].members| && (g < h || (g == h && i < j))
    ensures
      var s := run[|run| - 1];
      exists p, q :: 0 <= p < q < |s.arrived|
        && s.arrived[p] == s.groups[g].members[i] && s.arrived[q] == s.groups[h].members[j]
    ensures var gs := run[|run| - 1].groups; gs[g].members[i].id != gs[h].members[j].id
  {
    RunKeepsInv(run);
    var s := run[|run| - 1];
    PlacesInArrival(s, g, i);
    PlacesInArrival(s, h, j);
    LaterGroupLaterPlace(s, g, i, h, j);
  }

  lemma {:induction false} MembersGrow(gs: seq<Group>, g: nat, h: nat)
    requires g < h <= |gs|
    ensures |Members(gs[..g])| + |gs[g].members| <= |Members(gs[..h])|
    ensures OpCount(gs[..g]) + |gs[g].ops| <= OpCount(gs[..h])
  {
    assert gs[..h][..h - 1] == gs[..h - 1];
    if g < h - 1 {
      MembersGrow(gs, g, h - 1);
    }
  }

  /** Groups take consecutive, disjoint ranges of sequence numbers in the order of arrival. */
  lemma RangesAreConsecutive(run: seq<State>, g: nat, h: nat)
    requires IsRun(run) && g < h < |run[|run| - 1].groups|
    ensures
      var gs := run[|run| - 1].groups;
      && gs[g].first + |gs[g].ops| <= gs[h].first && gs[h].first + |gs[h].ops| <= run[|run| - 1].last + 1
      && (h == g + 1 ==> gs[g].first + |gs[g].ops| == gs[h].first)
  {
    RunKeepsInv(run);
    hide IsRun, QueueOk, GroupsOk, FailsForGood, LeaderOk, Members;
    var s := run[|run| - 1];
    assert NumbersOk(s);
    RangesOfGroups(s.groups, g, h);
  }

  lemma RangesOfGroups(gs: seq<Group>, g: nat, h: nat)
    requires Consecutive(gs) && g < h < |gs|
    ensures gs[g].first + |gs[g].ops| <= gs[h].first && gs[h].first + |gs[h].ops| <= OpCount(gs) + 1
    ensures h == g + 1 ==> gs[g].first + |gs[g].ops| == gs[h].first
  {
    hide Members;
    MembersGrow(gs, g, h);
    MembersGrow(gs, h, |gs|);
    assert gs[..|gs|] == gs;
    assert gs[..g + 1][..g] == gs[..g];
  }

  lemma MemberIsInserted(s: State, g: Group, i: nat)
    requires GroupOk(s, g) && g.ok && i < |g.members|
    ensures Inserted(s.applied, FirstOf(g, i), OpsOf(g.members[i]))
    ensures FirstOf(g, i) + |OpsOf(g.members[i])| <= g.first + |g.ops|
  {
    var w, p := g.members[i], |Ops(g.members[..i])|;
    OpsOfMember(g.members, i);
    forall k: nat | k < |OpsOf(w)|
      ensures Holds(s.applied, FirstOf(g, i) + k, OpsOf(w)[k])
    {
      var op := g.ops[p + k];
      assert s.applied[g.first + (p + k)] == op;
      assert op == g.ops[p..p + |OpsOf(w)|][k];
    }
  }

  /**
   A writer that was told OK is in a group that succeeded; its operations are in the memtable under its own
   consecutive sequence numbers, its group's record is in the log, and if it asked for a sync that record is durable.
   */
  lemma OkMeansCommitted(run: seq<State>, id: nat)
    requires IsRun(run) && id in run[|run| - 1].outcome && run[|run| - 1].outcome[id]
    ensures
      var s := run[|run| - 1];
      exists g, i :: 0 <= g < |s.groups| && 0 <= i < |s.groups[g].members|
        && var group, w := s.groups[g], s.groups[g].members[i];
           && w.id == id && group.ok
           && Inserted(s.applied, FirstOf(group, i), OpsOf(w))
           && FirstOf(group, i) + |OpsOf(w)| <= group.first + |group.ops|
           && (w.batch.Some? ==> Recorded(s.records, group.first, group.ops, w.sync))
  {
    RunKeepsInv(run);
    var s := run[|run| - 1];
    var p :| 0 <= p < |Members(s.groups)| && Members(s.groups)[p].id == id;
    var g, i := GroupOfMember(s.groups, p);
    var group, w := s.groups[g], s.groups[g].members[i];
    assert GroupOk(s, group);
    MemberIsInserted(s, group, i);
    if w.batch.Some? {
      RecordedStays(s.records, s.records, group.first, group.ops, group.members[0].sync, w.sync);
    }
  }

  lemma {:induction false} GroupOfMember(gs: seq<Group>, p: nat) returns (g: nat, i: nat)
    requires p < |Members(gs)|
    ensures g < |gs| && i < |gs[g].members| && gs[g].members[i] == Members(gs)[p]
  {
    var n := |gs| - 1;
    if p < |Members(gs[..n])| {
      g, i := GroupOfMember(gs[..n], p);
    } else {
      g, i := n, p - |Members(gs[..n])|;
    }
  }

  /** No writer that asked for a sync rides behind a leader that did not, and after a failed sync nobody is told OK. */
  lemma SyncIsHonoured(run: seq<State>, g: nat, i: nat, h: nat)
    requires IsRun(run) && g < |run[|run| - 1].groups| && i < |run[|run| - 1].groups[g].members|
    ensures run[|run| - 1].groups[g].members[i].sync ==> run[|run| - 1].groups[g].members[0].sync
    ensures g < h < |run[|run| - 1].groups| && run[|run| - 1].groups[g].syncError ==> !run[|run| - 1].groups[h].ok
  {
    RunKeepsInv(run);
    assert GroupOk(run[|run| - 1], run[|run| - 1].groups[g]);
  }
}
