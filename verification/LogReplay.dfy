/**
 A write-ahead log as bytes: batches are framed as log records, cut anywhere by a
 crash, and replayed. What is replayed is the batches that were written whole, each
 under its own numbers; this is how the disk model sees a log.
 */
module LogReplay {
  import opened Basics
  import opened Coding
  import opened Keys
  import opened WriteBatches
  import Bytewise
  import Disks
  import L = LogFormat

  datatype Batch = Batch(sn: nat, changes: seq<Change>)

  ghost predicate Writable(b: Batch) {
    b.sn < TWO32 * TWO32 && |b.changes| <= kMaxCount && AllSmall(b.changes)
  }

  ghost predicate AllWritable(bs: seq<Batch>) { forall i :: 0 <= i < |bs| ==> Writable(bs[i]) }

  ghost function Records(bs: seq<Batch>): (r: seq<seq<byte>>)
    requires AllWritable(bs)
    ensures |r| == |bs| && forall i :: 0 <= i < |r| ==> r[i] == BatchBytes(bs[i].sn, bs[i].changes)
  {
    seq(|bs|, i requires 0 <= i < |bs| => BatchBytes(bs[i].sn, bs[i].changes))
  }

  /** What one record puts into the memtable; a record without room for a header is skipped, and a faulty batch
      still gives the changes before the fault. */
  ghost function Inserted(record: seq<byte>): seq<Insertion> {
    if |record| < kHeader then [] else Numbered(DecodeFixed64(record[..8]), ReadBatch(record).changes)
  }

  ghost function AllInserted(records: seq<seq<byte>>): seq<Insertion> {
    if records == [] then [] else AllInserted(records[..|records| - 1]) + Inserted(records[|records| - 1])
  }

  /** RecoverLogFile, without paranoid checks. */
  method RecoverLogFile(file: seq<byte>) returns (inserted: seq<Insertion>)
    ensures inserted == AllInserted(L.ReadAll(file, 0, true).0)
  {
    hide Inserted, L.ReadAll;
    var records := L.ReadAll(file, 0, true).0;
    var batch := new WriteBatch();
    inserted := [];
    for i := 0 to |records|
      invariant inserted == AllInserted(records[..i])
    {
      var more := [];
      if |records[i]| >= kHeader {
        batch.SetContents(records[i]);
        var fault;
        more, fault := batch.InsertInto();
      }
      assert more == Inserted(records[i]) by { InsertedMeaning(records[i], more); }
      assert records[..i + 1][..i] == records[..i];
      inserted := inserted + more;
    }
    assert records[..|records|] == records;
  }

  lemma InsertedMeaning(record: seq<byte>, more: seq<Insertion>)
    requires if |record| < kHeader then more == [] else more == Numbered(DecodeFixed64(record[..8]), ReadBatch(record).changes)
    ensures more == Inserted(record)
  {
  }

  // ---------------------------------------------------------------------------
  // Cut logs
  // ---------------------------------------------------------------------------

  /** The operations of the batches, under their numbers. */
  ghost function Insertions(bs: seq<Batch>): seq<Insertion> {
    if bs == [] then [] else Insertions(bs[..|bs| - 1]) + Numbered(bs[|bs| - 1].sn, bs[|bs| - 1].changes)
  }

  lemma BatchInserted(b: Batch)
    requires Writable(b)
    ensures Inserted(BatchBytes(b.sn, b.changes)) == Numbered(b.sn, b.changes)
  {
    hide BatchBytes, ReadBatch, DecodeFixed64, AllSmall, Numbered;
    BatchReads(b.sn, b.changes);
    HeaderOf(b.sn, b.changes);
    Fixed64RoundTrip(b.sn);
  }

  lemma {:induction false} RecordsInserted(bs: seq<Batch>, n: nat)
    requires AllWritable(bs) && n <= |bs|
    ensures AllInserted(Records(bs)[..n]) == Insertions(bs[..n])
  {
    hide Inserted, Writable, BatchBytes;
    if n > 0 {
      RecordsInserted(bs, n - 1);
      assert Writable(bs[n - 1]);
      BatchInserted(bs[n - 1]);
      assert Records(bs)[..n][..n - 1] == Records(bs)[..n - 1] && bs[..n][..n - 1] == bs[..n - 1];
    }
  }

  /** Wherever the log is cut, replaying it inserts exactly the operations of the batches written whole. */
  lemma CutLogReplays(bs: seq<Batch>, k: nat)
    requires AllWritable(bs) && k <= |L.Log(Records(bs))|
    ensures AllInserted(L.ReadAll(L.Log(Records(bs))[..k], 0, true).0) == Insertions(bs[..L.Whole(Records(bs), k)])
  {
    hide L.ReadAll, L.Log, L.Whole, Writable, BatchBytes, AllInserted, Insertions;
    L.PrefixRoundTrip(Records(bs), k, true);
    RecordsInserted(bs, L.Whole(Records(bs), k));
  }

  // ---------------------------------------------------------------------------
  // The log of the disk model
  // ---------------------------------------------------------------------------

  function EntryOf(i: Insertion): Entry { Entry(Bytewise.Rank(i.change.key), i.sn, i.change.op) }

  ghost function EntriesOf(is_: seq<Insertion>): set<Entry> { set i | i in is_ :: EntryOf(i) }

  ghost function BatchEntries(b: Batch): set<Entry> { EntriesOf(Numbered(b.sn, b.changes)) }

  ghost predicate Models(log: Disks.LogFile, bs: seq<Batch>) {
    |log.records| == |bs| && forall i :: 0 <= i < |bs| ==> log.records[i] == BatchEntries(bs[i])
  }

  lemma {:induction false} InsertionsAreRecords(log: Disks.LogFile, bs: seq<Batch>, n: nat)
    requires Models(log, bs) && n <= |bs|
    ensures EntriesOf(Insertions(bs[..n])) == Disks.RecordEntries(log.records[..n])
  {
    if n > 0 {
      InsertionsAreRecords(log, bs, n - 1);
      assert bs[..n][..n - 1] == bs[..n - 1] && log.records[..n] == log.records[..n - 1] + [log.records[n - 1]];
      var a, b := Insertions(bs[..n - 1]), Numbered(bs[n - 1].sn, bs[n - 1].changes);
      assert EntriesOf(a + b) == EntriesOf(a) + EntriesOf(b);
      assert Disks.RecordEntries(log.records[..n]) == Disks.RecordEntries(log.records[..n - 1]) + log.records[n - 1];
    }
  }

  /** A crash that cuts the bytes anywhere behind the synced part is, in the disk model, one that leaves some of
      the records, the synced ones among them; and what is replayed is what those records hold. */
  lemma CutIsPrefixOfRecords(log: Disks.LogFile, bs: seq<Batch>, k: nat)
    requires AllWritable(bs) && Models(log, bs) && !log.torn && log.synced <= |bs|
    requires |L.Log(Records(bs)[..log.synced])| <= k <= |L.Log(Records(bs))|
    ensures
      var n := L.Whole(Records(bs), k);
      && log.synced <= n <= |bs|
      && Disks.LogSurvivesAs(log, Disks.LogFile(log.records[..n], n, false))
      && EntriesOf(AllInserted(L.ReadAll(L.Log(Records(bs))[..k], 0, true).0)) == Disks.RecordEntries(log.records[..n])
  {
    hide *;
    L.WholeMeaning(Records(bs), k, log.synced);
    CutLogReplays(bs, k);
    InsertionsAreRecords(log, bs, L.Whole(Records(bs), k));
    PrefixSurvives(log, bs, L.Whole(Records(bs), k));
  }

  lemma PrefixSurvives(log: Disks.LogFile, bs: seq<Batch>, n: nat)
    requires Models(log, bs) && !log.torn && log.synced <= n <= |bs|
    ensures |log.records| == |bs| && Disks.LogSurvivesAs(log, Disks.LogFile(log.records[..n], n, false))
  {
    assert log.records[..n][..log.synced] == log.records[..log.synced];
  }
}
