/** Gap-scan interval extraction (`build_interval_list`): from two columns-aligned gapped
    strings, the list of maximal ungapped runs, each giving the residue range it covers on
    both strings. The source carries five identical copies of this function; this module is
    the one model of all of them. */
module GapScan {
  import opened Results
  import opened PyText

  const Gap: char := '-'

  const BCountCheck := "b_count == len(b.replace('-', ''))"

  /** Residues `[aStart, aEnd)` of the first string align one to one, in order, with residues
      `[bStart, bEnd)` of the second (0-based, half-open). */
  datatype Run = Run(aStart: int, aEnd: int, bStart: int, bEnd: int)

  /** Column `i` has a residue, not a gap, in both strings. */
  predicate Matched(a: string, b: string, i: nat)
    requires i < |a| && i < |b|
  {
    a[i] != Gap && b[i] != Gap
  }

  /** The number of residues of `s` in its columns `[0, i)`: the ungapped position of column `i`. */
  function Pos(s: string, i: nat): nat
    requires i <= |s|
  {
    if i == 0 then 0 else Pos(s, i - 1) + (if s[i - 1] != Gap then 1 else 0)
  }

  /** `len(s.replace('-', ''))`: the length of `s` with its gaps stripped. */
  function Residues(s: string): nat {
    |RemoveAll(s, [Gap])|
  }

  /** The residue `(Pos(a, i), Pos(b, i))` pair of column `i` lies in run `r`, at the same offset on
      both strings. */
  ghost predicate InRun(r: Run, x: int, y: int) {
    r.aStart <= x < r.aEnd && y - r.bStart == x - r.aStart
  }

  /** `seqDb[name][start:stop]`, kept as coordinates: the sequence name and a 0-based, half-open
      range of residues. */
  datatype Ival = Ival(name: string, start: int, stop: int)

  /** The interval pair a run stands for once each side is offset by where its string starts
      (`seqDb[name1][off1:...][aStart:aEnd]` and its counterpart). */
  function PairOf(r: Run, name1: string, off1: int, name2: string, off2: int): (Ival, Ival) {
    (Ival(name1, off1 + r.aStart, off1 + r.aEnd), Ival(name2, off2 + r.bStart, off2 + r.bEnd))
  }

  /** One interval pair per run, in run order. */
  function RunPairs(runs: seq<Run>, name1: string, off1: int, name2: string, off2: int): (ps: seq<(Ival, Ival)>)
    ensures |ps| == |runs|
  {
    seq(|runs|, k requires 0 <= k < |runs| => PairOf(runs[k], name1, off1, name2, off2))
  }

  /** `for (a, b, x, y) in interval_list: ivals.append(((name1, off1 + a, off1 + b), (name2, off2 + x, off2 + y)))`. */
  method AppendRunPairs(ivals: seq<(Ival, Ival)>, runs: seq<Run>, name1: string, off1: int, name2: string, off2: int)
    returns (out: seq<(Ival, Ival)>)
    ensures out == ivals + RunPairs(runs, name1, off1, name2, off2)
  {
    out := ivals;
    for k := 0 to |runs|
      invariant out == ivals + RunPairs(runs[..k], name1, off1, name2, off2)
    {
      var run := runs[k];
      assert RunPairs(runs[..k + 1], name1, off1, name2, off2) == RunPairs(runs[..k], name1, off1, name2, off2) + [PairOf(run, name1, off1, name2, off2)];
      out := out + [(Ival(name1, off1 + run.aStart, off1 + run.aEnd), Ival(name2, off2 + run.bStart, off2 + run.bEnd))];
    }
    assert runs[..|runs|] == runs;
  }

  // ------------------------------------------------------------ specification

  /** The first column of the stretch of matched columns that ends just before or at `j`. */
  function StretchStart(a: string, b: string, j: nat): (p: nat)
    requires j < |a| && j < |b|
    ensures p <= j
  {
    if j > 0 && Matched(a, b, j - 1) then StretchStart(a, b, j - 1) else j
  }

  /** The maximal stretches `[p, q)` of matched columns inside the first `n` columns, left to right. */
  function Stretches(a: string, b: string, n: nat): (ss: seq<(nat, nat)>)
    requires n <= |a| && n <= |b|
    ensures forall k :: 0 <= k < |ss| ==> ss[k].0 < ss[k].1 <= n
  {
    if n == 0 then []
    else if !Matched(a, b, n - 1) then Stretches(a, b, n - 1)
    else
      var p := StretchStart(a, b, n - 1);
      Stretches(a, b, p) + [(p, n)]
  }

  /** The residue ranges a stretch of columns `[p, q)` covers on the two strings. */
  function RunOf(a: string, b: string, st: (nat, nat)): Run
    requires st.0 <= st.1 <= |a| && st.1 <= |b|
  {
    Run(Pos(a, st.0), Pos(a, st.1), Pos(b, st.0), Pos(b, st.1))
  }

  function RunsOf(a: string, b: string, ss: seq<(nat, nat)>): (runs: seq<Run>)
    requires forall k :: 0 <= k < |ss| ==> ss[k].0 <= ss[k].1 <= |a| && ss[k].1 <= |b|
    ensures |runs| == |ss|
  {
    seq(|ss|, k requires 0 <= k < |ss| => RunOf(a, b, ss[k]))
  }

  /** What `build_interval_list(a, b)` returns: an IndexError when `b` is shorter than `a`, a
      failed assertion when `b` has residues past the end of `a`, and otherwise the runs of the
      maximal stretches of matched columns. */
  function IntervalList(a: string, b: string): Result<seq<Run>> {
    if |a| > |b| then Err(IndexOutOfRange)
    else if Pos(b, |a|) != Residues(b) then Err(AssertionFailed(BCountCheck))
    else Ok(RunsOf(a, b, Stretches(a, b, |a|)))
  }

  // ------------------------------------------------------------ the loop

  /** `build_interval_list(a, b)`: one pass over the columns with a residue counter per string;
      a run opens at a matched column and closes at the next column with a gap in either string
      or at the end. */
  method BuildIntervalList(a: string, b: string) returns (r: Result<seq<Run>>)
    ensures r == IntervalList(a, b)
  {
    var runs: seq<Run> := [];
    var open := false;       // the source's `a_start is not None`
    var aStart, bStart := 0, 0;
    var aCount, bCount := 0, 0;
    ghost var p := 0;        // the column where the open run began
    var i := 0;
    while i < |a|
      invariant i <= |a| && i <= |b|
      invariant aCount == Pos(a, i) && bCount == Pos(b, i)
      invariant open ==> && p < i && Matched(a, b, i - 1) && StretchStart(a, b, i - 1) == p
                         && aStart == Pos(a, p) && bStart == Pos(b, p)
                         && runs == RunsOf(a, b, Stretches(a, b, p))
      invariant !open ==> (i == 0 || !Matched(a, b, i - 1)) && runs == RunsOf(a, b, Stretches(a, b, i))
    {
      if i >= |b| {
        return Err(IndexOutOfRange);
      }
      if a[i] == Gap || b[i] == Gap {
        if open {
          RunsOfSnoc(a, b, Stretches(a, b, p), (p, i));
          runs := runs + [Run(aStart, aCount, bStart, bCount)];
          open := false;
        }
      } else if !open {
        open := true;
        aStart, bStart := aCount, bCount;
        p := i;
      }
      if a[i] != Gap {
        aCount := aCount + 1;
      }
      if b[i] != Gap {
        bCount := bCount + 1;
      }
      i := i + 1;
    }
    if open {
      RunsOfSnoc(a, b, Stretches(a, b, p), (p, i));
      runs := runs + [Run(aStart, aCount, bStart, bCount)];
    }
    ResiduesIsPos(a);
    assert aCount == Residues(a);
    if bCount != Residues(b) {
      return Err(AssertionFailed(BCountCheck));
    }
    return Ok(runs);
  }

  lemma RunsOfSnoc(a: string, b: string, ss: seq<(nat, nat)>, st: (nat, nat))
    requires forall k :: 0 <= k < |ss| ==> ss[k].0 <= ss[k].1 <= |a| && ss[k].1 <= |b|
    requires st.0 <= st.1 <= |a| && st.1 <= |b|
    ensures RunsOf(a, b, ss + [st]) == RunsOf(a, b, ss) + [RunOf(a, b, st)]
  {
  }

  // ------------------------------------------------------------ residue positions

  lemma {:induction false} PosIsCount(s: string, i: nat)
    requires i <= |s|
    ensures Pos(s, i) == i - Count(s[..i], Gap)
  {
    if i > 0 {
      PosIsCount(s, i - 1);
      assert s[..i][..i - 1] == s[..i - 1];
    }
  }

  /** The gap-stripped length is the residue position past the last column. */
  lemma ResiduesIsPos(s: string)
    ensures Residues(s) == Pos(s, |s|)
  {
    RemoveCharCount(s, Gap);
    PosIsCount(s, |s|);
    assert s[..|s|] == s;
  }

  lemma {:induction false} PosMonotone(s: string, i: nat, j: nat)
    requires i <= j <= |s|
    ensures Pos(s, i) <= Pos(s, j)
    decreases j
  {
    if i < j {
      PosMonotone(s, i, j - 1);
    }
  }

  /** Through columns without gaps the residue position advances by one per column. */
  lemma {:induction false} PosThroughResidues(s: string, i: nat, j: nat)
    requires i <= j <= |s|
    requires forall m :: i <= m < j ==> s[m] != Gap
    ensures Pos(s, j) == Pos(s, i) + (j - i)
    decreases j
  {
    if i < j {
      PosThroughResidues(s, i, j - 1);
    }
  }

  /** The residue position does not move across columns `[i, j)` exactly when they are all gaps. */
  lemma {:induction false} PosStillOnlyThroughGaps(s: string, i: nat, j: nat)
    requires i <= j <= |s|
    ensures Pos(s, j) == Pos(s, i) <==> forall m :: i <= m < j ==> s[m] == Gap
    decreases j
  {
    if i < j {
      PosStillOnlyThroughGaps(s, i, j - 1);
      PosMonotone(s, i, j - 1);
    }
  }

  // ------------------------------------------------------------ shape of the stretches

  /** `[st.0, st.1)` is a non-empty stretch of matched columns among the first `n` that cannot be
      extended on either side. */
  ghost predicate MaximalStretch(a: string, b: string, n: nat, st: (nat, nat))
    requires n <= |a| && n <= |b|
  {
    && st.0 < st.1 <= n
    && (forall m :: st.0 <= m < st.1 ==> Matched(a, b, m))
    && (st.0 == 0 || !Matched(a, b, st.0 - 1))
    && (st.1 == n || !Matched(a, b, st.1))
  }

  /** `ss` are the maximal stretches of matched columns among the first `n`, in order. */
  ghost predicate MaximalStretches(a: string, b: string, n: nat, ss: seq<(nat, nat)>)
    requires n <= |a| && n <= |b|
  {
    && (forall k :: 0 <= k < |ss| ==> MaximalStretch(a, b, n, ss[k]))
    && (forall k, l :: 0 <= k < l < |ss| ==> ss[k].1 < ss[l].0)
    && (forall j :: 0 <= j < n && Matched(a, b, j) ==> exists k :: 0 <= k < |ss| && ss[k].0 <= j < ss[k].1)
  }

  lemma {:induction false} StretchStartFacts(a: string, b: string, j: nat)
    requires j < |a| && j < |b|
    ensures var p := StretchStart(a, b, j);
            && (forall m :: p <= m < j ==> Matched(a, b, m))
            && (p == 0 || !Matched(a, b, p - 1))
    decreases j
  {
    if j > 0 && Matched(a, b, j - 1) {
      StretchStartFacts(a, b, j - 1);
    }
  }

  lemma {:induction false} StretchesAreMaximal(a: string, b: string, n: nat)
    requires n <= |a| && n <= |b|
    ensures MaximalStretches(a, b, n, Stretches(a, b, n))
    decreases n
  {
    if n == 0 {
    } else if !Matched(a, b, n - 1) {
      StretchesAreMaximal(a, b, n - 1);
      ExtendPastUnmatched(a, b, n, Stretches(a, b, n - 1));
    } else {
      var p := StretchStart(a, b, n - 1);
      StretchStartFacts(a, b, n - 1);
      StretchesAreMaximal(a, b, p);
      ExtendByStretch(a, b, n, p, Stretches(a, b, p));
    }
  }

  /** An unmatched column after the last stretch leaves the stretches maximal. */
  lemma ExtendPastUnmatched(a: string, b: string, n: nat, ss: seq<(nat, nat)>)
    requires 0 < n <= |a| && n <= |b| && !Matched(a, b, n - 1)
    requires MaximalStretches(a, b, n - 1, ss)
    ensures MaximalStretches(a, b, n, ss)
  {
    forall k | 0 <= k < |ss|
      ensures MaximalStretch(a, b, n, ss[k])
    {
      assert MaximalStretch(a, b, n - 1, ss[k]);
    }
  }

  /** A stretch `[p, n)` of matched columns with an unmatched column (or the start) before it
      extends maximal stretches of the first `p` columns to maximal stretches of the first `n`. */
  lemma ExtendByStretch(a: string, b: string, n: nat, p: nat, before: seq<(nat, nat)>)
    requires p < n <= |a| && n <= |b|
    requires forall m :: p <= m < n ==> Matched(a, b, m)
    requires p == 0 || !Matched(a, b, p - 1)
    requires MaximalStretches(a, b, p, before)
    ensures MaximalStretches(a, b, n, before + [(p, n)])
  {
    var ss := before + [(p, n)];
    forall k | 0 <= k < |before|
      ensures before[k].1 < p && MaximalStretch(a, b, n, before[k])
    {
      assert MaximalStretch(a, b, p, before[k]);
      assert Matched(a, b, before[k].1 - 1);  // its last column, while column p - 1 is unmatched
    }
    assert MaximalStretch(a, b, n, (p, n));
    assert forall k :: 0 <= k < |ss| ==> MaximalStretch(a, b, n, ss[k]);
    forall j | 0 <= j < n && Matched(a, b, j)
      ensures exists k :: 0 <= k < |ss| && ss[k].0 <= j < ss[k].1
    {
      if j >= p {
        assert ss[|before|].0 <= j < ss[|before|].1;
      } else {
        var k :| 0 <= k < |before| && before[k].0 <= j < before[k].1;
        assert ss[k] == before[k];
      }
    }
  }

  /** Matched columns carry a residue in each string. */
  lemma MatchedResidues(a: string, b: string, lo: nat, hi: nat)
    requires lo <= hi <= |a| && hi <= |b|
    requires forall m :: lo <= m < hi ==> Matched(a, b, m)
    ensures forall m :: lo <= m < hi ==> a[m] != Gap
    ensures forall m :: lo <= m < hi ==> b[m] != Gap
  {
    forall m | lo <= m < hi
      ensures a[m] != Gap && b[m] != Gap
    {
      assert Matched(a, b, m);
    }
  }

  // ------------------------------------------------------------ properties of the runs

  /** Every run is non-empty and covers as many residues on one string as on the other. */
  lemma RunsNonEmpty(a: string, b: string)
    requires IntervalList(a, b).Ok?
    ensures forall r :: r in IntervalList(a, b).value ==>
              0 <= r.aStart < r.aEnd && 0 <= r.bStart < r.bEnd && r.aEnd - r.aStart == r.bEnd - r.bStart
  {
    var ss := Stretches(a, b, |a|);
    StretchesAreMaximal(a, b, |a|);
    forall k | 0 <= k < |ss|
      ensures Pos(a, ss[k].1) - Pos(a, ss[k].0) == ss[k].1 - ss[k].0 == Pos(b, ss[k].1) - Pos(b, ss[k].0)
    {
      assert MaximalStretch(a, b, |a|, ss[k]);
      MatchedResidues(a, b, ss[k].0, ss[k].1);
      PosThroughResidues(a, ss[k].0, ss[k].1);
      PosThroughResidues(b, ss[k].0, ss[k].1);
    }
  }

  /** Runs come in order and do not overlap: each starts at or after the end of every earlier
      run, on both strings. */
  lemma RunsOrdered(a: string, b: string)
    requires IntervalList(a, b).Ok?
    ensures var runs := IntervalList(a, b).value;
            forall k, l :: 0 <= k < l < |runs| ==> runs[k].aEnd <= runs[l].aStart && runs[k].bEnd <= runs[l].bStart
  {
    var ss := Stretches(a, b, |a|);
    StretchesAreMaximal(a, b, |a|);
    forall k, l | 0 <= k < l < |ss|
      ensures Pos(a, ss[k].1) <= Pos(a, ss[l].0) && Pos(b, ss[k].1) <= Pos(b, ss[l].0)
    {
      PosMonotone(a, ss[k].1, ss[l].0);
      PosMonotone(b, ss[k].1, ss[l].0);
    }
  }

  /** Runs stay inside the gap-stripped strings. */
  lemma RunsBounded(a: string, b: string)
    requires IntervalList(a, b).Ok?
    ensures forall r :: r in IntervalList(a, b).value ==> r.aEnd <= Residues(a) && r.bEnd <= Residues(b)
  {
    var ss := Stretches(a, b, |a|);
    ResiduesIsPos(a);
    forall k | 0 <= k < |ss|
      ensures Pos(a, ss[k].1) <= Pos(a, |a|) && Pos(b, ss[k].1) <= Pos(b, |a|)
    {
      PosMonotone(a, ss[k].1, |a|);
      PosMonotone(b, ss[k].1, |a|);
    }
  }

  /** Every column with a residue in both strings lies in exactly one run, at the same offset
      on both strings. */
  lemma RunsCoverMatchedColumns(a: string, b: string, j: nat)
    requires IntervalList(a, b).Ok?
    requires j < |a| && Matched(a, b, j)
    ensures var runs := IntervalList(a, b).value;
            && (exists k :: 0 <= k < |runs| && InRun(runs[k], Pos(a, j), Pos(b, j)))
            && (forall k, l ::
                  (0 <= k < |runs| && 0 <= l < |runs| && InRun(runs[k], Pos(a, j), Pos(b, j))
                   && InRun(runs[l], Pos(a, j), Pos(b, j))) ==> k == l)
  {
    var ss := Stretches(a, b, |a|);
    var runs := IntervalList(a, b).value;
    StretchesAreMaximal(a, b, |a|);
    var k :| 0 <= k < |ss| && ss[k].0 <= j < ss[k].1;
    assert MaximalStretch(a, b, |a|, ss[k]);
    MatchedResidues(a, b, ss[k].0, ss[k].1);
    PosThroughResidues(a, ss[k].0, j);
    PosThroughResidues(b, ss[k].0, j);
    PosThroughResidues(a, ss[k].0, ss[k].1);
    assert InRun(runs[k], Pos(a, j), Pos(b, j));
    forall k1, l | 0 <= k1 < |runs| && 0 <= l < |runs| && InRun(runs[k1], Pos(a, j), Pos(b, j))
                   && InRun(runs[l], Pos(a, j), Pos(b, j))
      ensures k1 == l
    {
      RunsOrdered(a, b);
    }
  }

  /** Conversely, every residue pair a run aligns comes from one column with a residue in both
      strings: the runs align nothing else. */
  lemma RunsOnlyMatchedColumns(a: string, b: string, k: nat, d: nat)
    requires IntervalList(a, b).Ok?
    requires k < |IntervalList(a, b).value|
    requires d < IntervalList(a, b).value[k].aEnd - IntervalList(a, b).value[k].aStart
    ensures var r := IntervalList(a, b).value[k];
            exists j :: 0 <= j < |a| && Matched(a, b, j) && Pos(a, j) == r.aStart + d && Pos(b, j) == r.bStart + d
  {
    var ss := Stretches(a, b, |a|);
    StretchesAreMaximal(a, b, |a|);
    assert MaximalStretch(a, b, |a|, ss[k]);
    MatchedResidues(a, b, ss[k].0, ss[k].1);
    var j := ss[k].0 + d;
    PosThroughResidues(a, ss[k].0, ss[k].1);
    PosThroughResidues(a, ss[k].0, j);
    PosThroughResidues(b, ss[k].0, j);
    assert Matched(a, b, j);
  }

  /** The source's two closing assertions: the first counter always ends at the gap-stripped
      length of `a`; the call fails exactly when `b` is shorter than `a` (IndexError) or has a
      residue past the last column of `a` (the assertion on `b_count`). */
  lemma IntervalListFails(a: string, b: string)
    ensures IntervalList(a, b).Err? <==> |a| > |b| || exists m :: |a| <= m < |b| && b[m] != Gap
    ensures |a| > |b| ==> IntervalList(a, b) == Err(IndexOutOfRange)
  {
    if |a| <= |b| {
      ResiduesIsPos(b);
      PosStillOnlyThroughGaps(b, |a|, |b|);
    }
  }

  /** For strings of equal length the scan always succeeds. */
  lemma EqualLengthsSucceed(a: string, b: string)
    requires |a| == |b|
    ensures IntervalList(a, b).Ok?
  {
    IntervalListFails(a, b);
  }

  /** The interval pairs built from the runs of two aligned strings cover equally many residues
      on both sides, stay inside each string's residues past its offset, and come in order
      without overlap. */
  lemma PairsOfRuns(a: string, b: string, name1: string, off1: int, name2: string, off2: int)
    requires IntervalList(a, b).Ok?
    ensures var ps := RunPairs(IntervalList(a, b).value, name1, off1, name2, off2);
            && (forall k :: 0 <= k < |ps| ==>
                  && ps[k].0.name == name1 && ps[k].1.name == name2
                  && off1 <= ps[k].0.start < ps[k].0.stop <= off1 + Residues(a)
                  && off2 <= ps[k].1.start < ps[k].1.stop <= off2 + Residues(b)
                  && ps[k].0.stop - ps[k].0.start == ps[k].1.stop - ps[k].1.start)
            && (forall k, l :: 0 <= k < l < |ps| ==> ps[k].0.stop <= ps[l].0.start && ps[k].1.stop <= ps[l].1.start)
  {
    var runs := IntervalList(a, b).value;
    RunsNonEmpty(a, b);
    RunsBounded(a, b);
    RunsOrdered(a, b);
    assert forall k :: 0 <= k < |runs| ==> runs[k] in runs;
  }
}
