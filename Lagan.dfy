/** The two-sequence LAGAN loaders: `build_lagan_ivals`, which yields one list of
    correspondences, and the run loop of `create_NLMSA_lagan`, which hands the same
    correspondences to the alignment index. Both scan the first two texts `read_lagan`
    gives and name the two sides after its two headers. */
module Lagan {
  import opened Results
  import opened PyText
  import opened GapScan
  import opened GappedFasta
  import opened Mlagan

  // ------------------------------------------------------------ specification

  /** The correspondences of the runs of `seqList[0]` and `seqList[1]`, in run order. Reading
      either text fails when the buffer gives fewer. */
  function LaganCorrespondences(buf: string): Result<seq<Pair>> {
    var read :- LaganSequences(buf);
    PairsOfTwo(read.0, read.1)
  }

  /** The rest of both loaders once the buffer is read. */
  function PairsOfTwo(seqList: seq<string>, seqNames: (string, string)): Result<seq<Pair>> {
    var seq1 :- At(seqList, 0);
    var seq2 :- At(seqList, 1);
    var runs :- IntervalList(seq1, seq2);
    Ok(RunPairs(runs, seqNames.0, 0, seqNames.1, 0))
  }

  /** What the generator `build_lagan_ivals` yields: that list, once. */
  function LaganIvals(buf: string): Result<seq<seq<Pair>>> {
    var ivals :- LaganCorrespondences(buf);
    Ok([ivals])
  }

  // ------------------------------------------------------------ the loops

  /** `build_lagan_ivals`. */
  method BuildLaganIvals(buf: string) returns (r: Result<seq<seq<Pair>>>)
    ensures r == LaganIvals(buf)
  {
    var read :- LaganSequences(buf);
    var ivals :- BuildPairs(read.0, read.1);
    return Ok([ivals]);
  }

  /** The run loop of `create_NLMSA_lagan`, with the correspondences it adds to the index
      collected in order. */
  method CreateLagan(buf: string) returns (r: Result<seq<Pair>>)
    ensures r == LaganCorrespondences(buf)
  {
    var read :- LaganSequences(buf);
    r := BuildPairs(read.0, read.1);
  }

  /** Scan `seqList[0]` and `seqList[1]` and append one correspondence per run. */
  method BuildPairs(seqList: seq<string>, seqNames: (string, string)) returns (r: Result<seq<Pair>>)
    ensures r == PairsOfTwo(seqList, seqNames)
  {
    if |seqList| < 2 {
      return Err(IndexOutOfRange);
    }
    var intervals :- BuildIntervalList(seqList[0], seqList[1]);
    var ivals := AppendRunPairs([], intervals, seqNames.0, 0, seqNames.1, 0);
    assert ivals == RunPairs(intervals, seqNames.0, 0, seqNames.1, 0);
    return Ok(ivals);
  }

  // ------------------------------------------------------------ properties

  /** The loaders succeed exactly when the buffer is read, gives at least two texts, and the
      first two scan; texts of equal length always do. */
  lemma LaganSucceeds(buf: string)
    ensures LaganCorrespondences(buf).Ok? <==>
              && LaganSequences(buf).Ok?
              && var seqs := LaganSequences(buf).value.0;
                 |seqs| >= 2 && IntervalList(seqs[0], seqs[1]).Ok?
    ensures LaganIvals(buf).Ok? <==> LaganCorrespondences(buf).Ok?
    ensures LaganSequences(buf).Ok? ==>
              var seqs := LaganSequences(buf).value.0;
              |seqs| >= 2 && |seqs[0]| == |seqs[1]| ==> LaganCorrespondences(buf).Ok?
  {
    if LaganSequences(buf).Ok? {
      var seqs := LaganSequences(buf).value.0;
      if |seqs| >= 2 {
        IntervalListFails(seqs[0], seqs[1]);
      }
    }
  }

  /** `build_lagan_ivals` yields exactly one list: one correspondence per run of the first two
      texts, in run order, from the first header's sequence to the second's, covering equal
      lengths on both sides and without overlap on either. */
  lemma LaganPairs(buf: string)
    requires LaganIvals(buf).Ok?
    ensures LaganSequences(buf).Ok? && |LaganSequences(buf).value.0| >= 2
    ensures var (seqs, (name1, name2)) := LaganSequences(buf).value;
            var runs := IntervalList(seqs[0], seqs[1]);
            var lists := LaganIvals(buf).value;
            && runs.Ok? && |lists| == 1 && |lists[0]| == |runs.value|
            && (forall k :: 0 <= k < |runs.value| ==>
                  lists[0][k] == (Ival(name1, runs.value[k].aStart, runs.value[k].aEnd), Ival(name2, runs.value[k].bStart, runs.value[k].bEnd)))
            && (forall k :: 0 <= k < |lists[0]| ==>
                  lists[0][k].0.stop - lists[0][k].0.start == lists[0][k].1.stop - lists[0][k].1.start > 0)
            && (forall k, l :: 0 <= k < l < |lists[0]| ==>
                  lists[0][k].0.stop <= lists[0][l].0.start && lists[0][k].1.stop <= lists[0][l].1.start)
  {
    var (seqs, (name1, name2)) := LaganSequences(buf).value;
    LaganSucceeds(buf);
    PairsOfRuns(seqs[0], seqs[1], name1, 0, name2, 0);
  }

  /** For a buffer with exactly two headers that gives two texts, `build_lagan_ivals` yields
      the first of the two lists `build_mlagan_ivals` yields, and fails exactly when it does. */
  lemma LaganIsFirstMlaganList(buf: string)
    requires |buf| > 0 && buf[0] == '>' && |Markers(buf)| == 2
    requires LaganSequences(buf).Ok? ==> |LaganSequences(buf).value.0| == 2
    ensures LaganIvals(buf).Ok? <==> MlaganIvals(buf).Ok?
    ensures LaganIvals(buf).Ok? ==> |MlaganIvals(buf).value| == 2 && LaganIvals(buf).value == MlaganIvals(buf).value[..1]
  {
    LaganIsTwoSequenceMlagan(buf);
    if LaganSequences(buf).Ok? {
      var (seqs, names) := MlaganSequences(buf).value;
      assert LaganCorrespondences(buf) == PairsOfTwo(seqs, (names[0], names[1]));
      assert MlaganIvals(buf) == ListsFrom(IntervalList, seqs, names, 0, []);
      PairsOfTwoIsFirstList(seqs, names);
    }
  }

  /** On two texts, the LAGAN pairs are the first of the two MLAGAN lists, the second being
      empty, and either fails exactly when the other does. */
  lemma PairsOfTwoIsFirstList(seqs: seq<string>, names: seq<string>)
    requires |seqs| == 2 && |names| == 2
    ensures PairsOfTwo(seqs, (names[0], names[1])).Ok? <==> ListsFrom(IntervalList, seqs, names, 0, []).Ok?
    ensures PairsOfTwo(seqs, (names[0], names[1])).Ok? ==>
              ListsFrom(IntervalList, seqs, names, 0, []).value == [PairsOfTwo(seqs, (names[0], names[1])).value, []]
  {
    TwoTextLists(IntervalList, seqs, names);
  }
}
