/**
 The memtable as a sorted run, and the version that a memtable flush installs.
 */
module Flushes {
  import opened Basics
  import opened Keys
  import opened Versions
  import opened Overlaps
  import opened CompactionOrder

  /** Insert into a memtable or a merged run; nothing that compares equal is there, or it is the same entry. */
  function InsertEntry(es: seq<Entry>, e: Entry): seq<Entry> {
    if es == [] || Before(e, es[0]) then [e] + es
    else if Before(es[0], e) then [es[0]] + InsertEntry(es[1..], e)
    else es
  }

  lemma {:induction false} InsertEntryInserts(es: seq<Entry>, e: Entry)
    requires SortedEntries(es)
    requires forall x :: x in es && IKey(x) == IKey(e) ==> x == e
    ensures SortedEntries(InsertEntry(es, e))
    ensures Elements(InsertEntry(es, e)) == Elements(es) + {e}
  {
    if es == [] || Before(e, es[0]) {
      PrependSorted(e, es);
    } else if Before(es[0], e) {
      assert es == [es[0]] + es[1..];
      InsertEntryInserts(es[1..], e);
      var t := InsertEntry(es[1..], e);
      forall i | 0 <= i < |t| ensures Before(es[0], t[i]) {
        assert t[i] in Elements(t);
        if t[i] != e { var j :| 0 <= j < |es[1..]| && es[1..][j] == t[i]; }
      }
      PrependSorted(es[0], t);
    } else {
      assert es[0] in es;
    }
  }

  lemma PrependSorted(e: Entry, es: seq<Entry>)
    requires SortedEntries(es)
    requires (forall i :: 0 <= i < |es| ==> Before(e, es[i])) || (es != [] && Before(e, es[0]))
    ensures SortedEntries([e] + es)
    ensures Elements([e] + es) == Elements(es) + {e}
  {
    forall i | 0 <= i < |es| ensures Before(e, es[i]) {
      if i > 0 { assert Before(es[0], es[i]); }
    }
  }

  /** The edit of a flush: one new file on level l. */
  ghost predicate Flushed(v: Version, f: File, l: nat, v': Version) {
    && |v| == |v'| && l < |v|
    && (forall m :: 0 <= m < |v| && m != l ==> v'[m] == v[m])
    && ValidFiles(v'[l]) && OrderedFiles(v'[l])
    && forall g :: g in v'[l] <==> g in v[l] || g == f
  }

  /** A new file may enter level l if it is newer than everything, and meets no file down to l. */
  ghost predicate MayEnter(v: Version, f: File, l: nat)
    requires ValidVersion(v) && ValidFile(f)
  {
    && l < kNumLevels
    && Newer(Elements(f.entries), Contents(v))
    && (forall i :: 0 <= i < |v[0]| ==> v[0][i].number < f.number)
    && (l > 0 ==> forall m :: 0 <= m <= l ==> NoOverlap(v[m], Smallest(f).user, Largest(f).user))
  }

  lemma NoOverlapMeansApart(files: Level, i: nat, f: File)
    requires ValidFiles(files) && ValidFile(f) && i < |files|
    requires NoOverlap(files, Smallest(f).user, Largest(f).user)
    ensures Apart(files[i], f)
    ensures forall x, y :: x in files[i].entries && y in f.entries ==> x.key != y.key
  {
    forall x, y | x in files[i].entries && y in f.entries ensures x.key != y.key {
      WithinFile(files[i], x);
      WithinFile(f, y);
    }
  }

  lemma FlushedLevel(v: Version, f: File, l: nat, v': Version)
    requires ValidVersion(v) && ValidFile(f) && MayEnter(v, f, l) && Flushed(v, f, l, v')
    ensures l >= 1 ==> SortedFiles(v'[l])
    ensures l == 0 ==> NewestByNumber(v'[0])
  {
    var fs := v'[l];
    if l >= 1 {
      forall i, j | 0 <= i < j < |fs| ensures Apart(fs[i], fs[j]) {
        DistinctInOrdered(fs, i, j);
        if fs[i] != f && fs[j] != f {
          ApartInSorted(v[l], fs[i], fs[j]);
        } else {
          var g := if fs[i] == f then fs[j] else fs[i];
          assert g in fs && g != f;
          var q :| 0 <= q < |v[l]| && v[l][q] == g;
          NoOverlapMeansApart(v[l], q, f);
        }
      }
      SortedFromApart(fs);
    } else {
      forall i, j | 0 <= i < |fs| && 0 <= j < |fs| && i != j
        ensures fs[i].number != fs[j].number
        ensures fs[i].number > fs[j].number ==> Newer(Elements(fs[i].entries), Elements(fs[j].entries))
      {
        if i < j { DistinctInOrdered(fs, i, j); } else { DistinctInOrdered(fs, j, i); }
        FlushedPair(v, f, v', fs[i], fs[j]);
      }
    }
  }

  lemma FlushedPair(v: Version, f: File, v': Version, g: File, h: File)
    requires ValidVersion(v) && ValidFile(f) && MayEnter(v, f, 0) && Flushed(v, f, 0, v')
    requires g in v'[0] && h in v'[0] && g != h
    ensures g.number != h.number
    ensures g.number > h.number ==> Newer(Elements(g.entries), Elements(h.entries))
  {
    if g != f { var p :| 0 <= p < |v[0]| && v[0][p] == g; }
    if h != f { var q :| 0 <= q < |v[0]| && v[0][q] == h; }
    if g == f {
      assert Elements(h.entries) <= Contents(v) by { assert v[0] in v; }
    }
  }

  lemma FlushedOrder(v: Version, f: File, l: nat, v': Version, a: nat, b: nat, x: Entry, y: Entry)
    requires ValidVersion(v) && ValidFile(f) && MayEnter(v, f, l) && Flushed(v, f, l, v')
    requires a < b < |v| && x in Content(v'[a]) && y in Content(v'[b]) && x.key == y.key
    ensures x.sn > y.sn
  {
    var g :| g in v'[a] && x in g.entries;
    var h :| h in v'[b] && y in h.entries;
    if a == l && g == f {
      assert h in v[b] && v[b] in v && y in Contents(v) && x in Elements(f.entries);
    } else if b == l && h == f {
      var q :| 0 <= q < |v[a]| && v[a][q] == g;
      NoOverlapMeansApart(v[a], q, f);
    } else {
      assert x in Content(v[a]) && y in Content(v[b]);
      assert Newer(Content(v[a]), Content(v[b]));
    }
  }

  /** A flush installs a valid version that holds the old entries and the new ones. */
  lemma FlushKeepsVersionValid(v: Version, f: File, l: nat, v': Version)
    requires ValidVersion(v) && ValidFile(f) && MayEnter(v, f, l) && Flushed(v, f, l, v')
    ensures ValidVersion(v')
    ensures Contents(v') == Contents(v) + Elements(f.entries)
  {
    FlushedLevel(v, f, l, v');
    forall a, b, x, y | 0 <= a < b < |v'| && x in Content(v'[a]) && y in Content(v'[b]) && x.key == y.key
      ensures x.sn > y.sn
    {
      FlushedOrder(v, f, l, v', a, b, x, y);
    }
    FlushedContents(v, f, l, v');
  }

  lemma FlushedContents(v: Version, f: File, l: nat, v': Version)
    requires Flushed(v, f, l, v')
    ensures Contents(v') == Contents(v) + Elements(f.entries)
  {
    forall e | e in Contents(v) + Elements(f.entries) ensures e in Contents(v') {
      if e in f.entries {
        assert f in v'[l] && v'[l] in v';
      } else {
        var m, g :| 0 <= m < |v| && g in v[m] && e in g.entries;
        assert g in v'[m] && v'[m] in v';
      }
    }
    forall e | e in Contents(v') ensures e in Contents(v) + Elements(f.entries) {
      var m, g :| 0 <= m < |v'| && g in v'[m] && e in g.entries;
      if g != f { assert g in v[m] && v[m] in v; }
    }
  }
}
