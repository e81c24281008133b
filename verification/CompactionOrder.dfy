/**
 The version that a compaction installs is again a valid version, given inputs
 that are closed under shared user keys. Module Boundaries says exactly when it is
 without that.
 */
module CompactionOrder {
  import opened Basics
  import opened Keys
  import opened Versions
  import opened Compactions

  predicate Apart(f: File, g: File)
    requires |f.entries| > 0 && |g.entries| > 0
  {
    Less(Largest(f), Smallest(g)) || Less(Largest(g), Smallest(f))
  }

  /** Files that are listed by smallest key and do not overlap are a sorted level. */
  lemma SortedFromApart(fs: Level)
    requires ValidFiles(fs) && OrderedFiles(fs)
    requires forall i, j :: 0 <= i < j < |fs| ==> Apart(fs[i], fs[j])
    ensures SortedFiles(fs)
  {
    forall i, j | 0 <= i < j < |fs| ensures Less(Largest(fs[i]), Smallest(fs[j])) {
      WithinFile(fs[i], fs[i].entries[0]);
      WithinFile(fs[j], fs[j].entries[0]);
      assert BySmallestKey(fs[i], fs[j]) && Apart(fs[i], fs[j]);
    }
  }

  lemma ApartInSorted(fs: Level, f: File, g: File)
    requires ValidFiles(fs) && SortedFiles(fs)
    requires f in fs && g in fs && f != g
    ensures |f.entries| > 0 && |g.entries| > 0 && Apart(f, g)
  {
    var i :| 0 <= i < |fs| && fs[i] == f;
    var j :| 0 <= j < |fs| && fs[j] == g;
    if i < j {
      assert Less(Largest(fs[i]), Smallest(fs[j]));
    } else {
      assert Less(Largest(fs[j]), Smallest(fs[i]));
    }
  }

  lemma DistinctInOrdered(fs: Level, i: nat, j: nat)
    requires ValidFiles(fs) && OrderedFiles(fs) && i < j < |fs|
    ensures fs[i] != fs[j]
  {
    assert BySmallestKey(fs[i], fs[j]);
  }

  /** The user keys of an input file of level L+1 reach into the range of the inputs of level L. */
  ghost predicate MeetsRange(f: File, lo: UserKey, hi: UserKey)
    requires |f.entries| > 0
  {
    Smallest(f).user <= hi && lo <= Largest(f).user
  }

  /** g stays out of the range [lo, hi] and away from each file of in1; x and y are entries of the
      inputs. Then g cannot lie between x and y. */
  lemma NotBetween(g: File, x: Entry, y: Entry, lo: UserKey, hi: UserKey, fx: File, fy: File)
    requires ValidFile(g) && !MeetsRange(g, lo, hi)
    requires ValidFile(fx) && x in fx.entries && ValidFile(fy) && y in fy.entries
    requires (lo <= Smallest(fx).user && Largest(fx).user <= hi) || (MeetsRange(fx, lo, hi) && Apart(fx, g))
    requires (lo <= Smallest(fy).user && Largest(fy).user <= hi) || (MeetsRange(fy, lo, hi) && Apart(fy, g))
    ensures !(Less(IKey(x), Smallest(g)) && Less(Largest(g), IKey(y)))
  {
    WithinFile(fx, x);
    WithinFile(fy, y);
    WithinFile(g, g.entries[0]);
  }

  /** An entry of an input lies wholly before or wholly after a file left out of level L+1. */
  lemma OnOneSide(g: File, x: Entry, lo: UserKey, hi: UserKey, fx: File)
    requires ValidFile(g) && !MeetsRange(g, lo, hi)
    requires ValidFile(fx) && x in fx.entries
    requires (lo <= Smallest(fx).user && Largest(fx).user <= hi) || (MeetsRange(fx, lo, hi) && Apart(fx, g))
    ensures Less(IKey(x), Smallest(g)) || Less(Largest(g), IKey(x))
  {
    WithinFile(fx, x);
    WithinFile(g, g.entries[0]);
  }

  lemma SourceFile(v: Version, level: nat, in0: Level, in1: Level, lo: UserKey, hi: UserKey, g: File, x: Entry)
    returns (fx: File)
    requires ValidVersion(v) && ValidInputs(v, level, in0, in1, lo, hi)
    requires g in v[level + 1] && g !in in1
    requires x in Content(in0) + Content(in1)
    ensures ValidFile(g) && !MeetsRange(g, lo, hi)
    ensures ValidFile(fx) && x in fx.entries
    ensures (lo <= Smallest(fx).user && Largest(fx).user <= hi) || (MeetsRange(fx, lo, hi) && Apart(fx, g))
  {
    var q :| 0 <= q < |v[level + 1]| && v[level + 1][q] == g;
    if x in Content(in0) {
      fx :| fx in in0 && x in fx.entries;
    } else {
      fx :| fx in in1 && x in fx.entries;
      ApartInSorted(v[level + 1], fx, g);
      var r :| 0 <= r < |v[level + 1]| && v[level + 1][r] == fx;
    }
  }

  /** An output file does not overlap a file left out of level L+1. */
  lemma OutputApart(v: Version, level: nat, in0: Level, in1: Level, lo: UserKey, hi: UserKey, o: File, g: File)
    requires ValidVersion(v) && ValidInputs(v, level, in0, in1, lo, hi)
    requires ValidFile(o) && Elements(o.entries) <= Content(in0) + Content(in1)
    requires g in v[level + 1] && g !in in1
    ensures ValidFile(g) && Apart(o, g)
  {
    var x, y := o.entries[0], o.entries[|o.entries| - 1];
    assert x in Elements(o.entries) && y in Elements(o.entries);
    var fx := SourceFile(v, level, in0, in1, lo, hi, g, x);
    var fy := SourceFile(v, level, in0, in1, lo, hi, g, y);
    NotBetween(g, x, y, lo, hi, fx, fy);
    OnOneSide(g, x, lo, hi, fx);
    OnOneSide(g, y, lo, hi, fy);
    WithinFile(o, y);
    WithinFile(g, g.entries[0]);
  }

  /** The output files of a compaction: chunks, in order, of the merged input. */
  ghost predicate ValidOutputs(in0: Level, in1: Level, outs: Level) {
    && ValidFiles(outs) && SortedFiles(outs)
    && forall o :: o in outs ==> Elements(o.entries) <= Content(in0) + Content(in1)
  }

  /** What Builder::SaveTo adds: both changed levels are listed by smallest key. */
  ghost predicate WellListed(v': Version, level: nat) {
    && level + 1 < |v'|
    && ValidFiles(v'[level]) && OrderedFiles(v'[level])
    && ValidFiles(v'[level + 1]) && OrderedFiles(v'[level + 1])
  }

  lemma UpperLevelSorted(v: Version, level: nat, in0: Level, in1: Level, outs: Level, v': Version)
    requires ValidVersion(v) && 1 <= level && level + 1 < kNumLevels
    requires Installed(v, level, in0, in1, outs, v') && WellListed(v', level)
    ensures SortedFiles(v'[level])
  {
    var fs := v'[level];
    forall i, j | 0 <= i < j < |fs| ensures Apart(fs[i], fs[j]) {
      DistinctInOrdered(fs, i, j);
      ApartInSorted(v[level], fs[i], fs[j]);
    }
    SortedFromApart(fs);
  }

  lemma LowerLevelSorted(v: Version, level: nat, in0: Level, in1: Level, lo: UserKey, hi: UserKey, outs: Level, v': Version)
    requires ValidVersion(v) && ValidInputs(v, level, in0, in1, lo, hi) && ValidOutputs(in0, in1, outs)
    requires Installed(v, level, in0, in1, outs, v') && WellListed(v', level)
    ensures SortedFiles(v'[level + 1])
  {
    var fs := v'[level + 1];
    forall i, j | 0 <= i < j < |fs| ensures Apart(fs[i], fs[j]) {
      DistinctInOrdered(fs, i, j);
      NewPairApart(v, level, in0, in1, lo, hi, outs, v', fs[i], fs[j]);
    }
    SortedFromApart(fs);
  }

  lemma NewPairApart(v: Version, level: nat, in0: Level, in1: Level, lo: UserKey, hi: UserKey, outs: Level, v': Version,
                     f: File, g: File)
    requires ValidVersion(v) && ValidInputs(v, level, in0, in1, lo, hi) && ValidOutputs(in0, in1, outs)
    requires Installed(v, level, in0, in1, outs, v')
    requires f in v'[level + 1] && g in v'[level + 1] && f != g
    ensures |f.entries| > 0 && |g.entries| > 0 && Apart(f, g)
  {
    if f in outs && g in outs {
      ApartInSorted(outs, f, g);
    } else if f in outs {
      var i :| 0 <= i < |outs| && outs[i] == f;
      OutputApart(v, level, in0, in1, lo, hi, f, g);
    } else if g in outs {
      var i :| 0 <= i < |outs| && outs[i] == g;
      OutputApart(v, level, in0, in1, lo, hi, g, f);
    } else {
      ApartInSorted(v[level + 1], f, g);
    }
  }

  lemma LevelZeroStaysNewestByNumber(v: Version, in0: Level, in1: Level, outs: Level, v': Version)
    requires ValidVersion(v) && Installed(v, 0, in0, in1, outs, v') && WellListed(v', 0)
    ensures NewestByNumber(v'[0])
  {
    var fs := v'[0];
    forall i, j | 0 <= i < |fs| && 0 <= j < |fs| && i != j
      ensures fs[i].number != fs[j].number
      ensures fs[i].number > fs[j].number ==> Newer(Elements(fs[i].entries), Elements(fs[j].entries))
    {
      if i < j { DistinctInOrdered(fs, i, j); } else { DistinctInOrdered(fs, j, i); }
      assert fs[i] in v'[0] && fs[j] in v'[0];
      var p :| 0 <= p < |v[0]| && v[0][p] == fs[i];
      var q :| 0 <= q < |v[0]| && v[0][q] == fs[j];
    }
  }

  /** Entries of the new level L+1 come from the old one or from the inputs of level L. */
  lemma NewLowerContent(v: Version, level: nat, in0: Level, in1: Level, outs: Level, v': Version, y: Entry)
    requires level + 1 < |v| && Installed(v, level, in0, in1, outs, v')
    requires (forall f :: f in in0 ==> f in v[level]) && (forall f :: f in in1 ==> f in v[level + 1])
    requires forall o :: o in outs ==> Elements(o.entries) <= Content(in0) + Content(in1)
    requires y in Content(v'[level + 1])
    ensures y in Content(v[level + 1]) || y in Content(in0)
    ensures Content(in0) <= Content(v[level])
  {
    var f :| f in v'[level + 1] && y in f.entries;
    if f in outs {
      assert y in Elements(f.entries);
      assert y in Content(in0) + Content(in1);
    }
  }

  /** With closed inputs, shallower data stays newer across every pair of levels. */
  lemma OrderKept(v: Version, level: nat, in0: Level, in1: Level, outs: Level, v': Version, l: nat, m: nat, x: Entry, y: Entry)
    requires ShallowerIsNewer(v) && level + 1 < |v| && Installed(v, level, in0, in1, outs, v')
    requires (forall f :: f in in0 ==> f in v[level]) && (forall f :: f in in1 ==> f in v[level + 1])
    requires forall o :: o in outs ==> Elements(o.entries) <= Content(in0) + Content(in1)
    requires NoSharedKeys(Content(in0), RestContent(v[level], in0))
    requires l < m < |v| && x in Content(v'[l]) && y in Content(v'[m]) && x.key == y.key
    ensures x.sn > y.sn
  {
    if l == level { assert x in RestContent(v[level], in0) && x in Content(v[level]); }
    if m == level { assert y in Content(v[level]); }
    if m == level + 1 { NewLowerContent(v, level, in0, in1, outs, v', y); }
    if l == level + 1 { NewLowerContent(v, level, in0, in1, outs, v', x); }
    var ly := if m == level + 1 && y !in Content(v[level + 1]) then level else m;
    var lx := if l == level + 1 && x !in Content(v[level + 1]) then level else l;
    assert lx < |v| && ly < |v| && x in Content(v[lx]) && y in Content(v[ly]);
    if lx < ly {
      assert Newer(Content(v[lx]), Content(v[ly]));
    }
  }

  lemma ShallowerStaysNewer(v: Version, level: nat, in0: Level, in1: Level, outs: Level, v': Version)
    requires ShallowerIsNewer(v) && level + 1 < |v| && Installed(v, level, in0, in1, outs, v')
    requires (forall f :: f in in0 ==> f in v[level]) && (forall f :: f in in1 ==> f in v[level + 1])
    requires forall o :: o in outs ==> Elements(o.entries) <= Content(in0) + Content(in1)
    requires NoSharedKeys(Content(in0), RestContent(v[level], in0))
    ensures ShallowerIsNewer(v')
  {
    forall l, m, x, y | 0 <= l < m < |v'| && x in Content(v'[l]) && y in Content(v'[m]) && x.key == y.key
      ensures x.sn > y.sn
    {
      OrderKept(v, level, in0, in1, outs, v', l, m, x, y);
    }
  }

  lemma LevelsStaySorted(v: Version, level: nat, in0: Level, in1: Level, lo: UserKey, hi: UserKey, outs: Level, v': Version, l: nat)
    requires ValidVersion(v) && ValidInputs(v, level, in0, in1, lo, hi)
    requires ValidOutputs(in0, in1, outs)
    requires Installed(v, level, in0, in1, outs, v') && WellListed(v', level)
    requires l < kNumLevels
    ensures ValidFiles(v'[l])
    ensures l >= 1 ==> SortedFiles(v'[l])
    ensures l == 0 ==> OrderedFiles(v'[l]) && NewestByNumber(v'[0])
  {
    if l == level {
      if l == 0 { LevelZeroStaysNewestByNumber(v, in0, in1, outs, v'); }
      else { UpperLevelSorted(v, level, in0, in1, outs, v'); }
    } else if l == level + 1 {
      LowerLevelSorted(v, level, in0, in1, lo, hi, outs, v');
    }
  }

  /** A compaction of closed inputs installs a valid version. */
  lemma CompactionKeepsVersionValid(v: Version, level: nat, in0: Level, in1: Level, lo: UserKey, hi: UserKey,
                                    outs: Level, v': Version)
    requires ValidVersion(v) && ValidInputs(v, level, in0, in1, lo, hi) && ClosedInputs(v, level, in0, in1)
    requires ValidOutputs(in0, in1, outs)
    requires Installed(v, level, in0, in1, outs, v') && WellListed(v', level)
    ensures ValidVersion(v')
  {
    forall l | 0 <= l < |v'|
      ensures ValidFiles(v'[l])
      ensures l >= 1 ==> SortedFiles(v'[l])
      ensures l == 0 ==> OrderedFiles(v'[l]) && NewestByNumber(v'[0])
    {
      LevelsStaySorted(v, level, in0, in1, lo, hi, outs, v', l);
    }
    ShallowerStaysNewer(v, level, in0, in1, outs, v');
  }
}
