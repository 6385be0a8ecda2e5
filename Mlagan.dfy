/** The N-sequence LAGAN loaders: `build_mlagan_ivals`, which yields one list of
    correspondences per sequence, and the pair loop of `create_NLMSA_mlagan`, which hands
    the same correspondences to the alignment index one at a time. A multiple alignment is
    read as a collection of pairwise ones: every pair of texts `i < j` gets one gap scan, and
    each ungapped run becomes the correspondence `((name_i, a, b), (name_j, x, y))`. A
    `seqDb[name]` lookup becomes the name itself, with coordinates from offset 0. */
module Mlagan {
  import opened Results
  import opened PyText
  import opened GapScan
  import opened GappedFasta

  type Pair = (Ival, Ival)

  /** The gap scan of two texts; it is `IntervalList` everywhere, and a parameter only so
      that the loop lemmas need not look inside it. */
  type Scan = (string, string) -> Result<seq<Run>>

  // ------------------------------------------------------------ specification

  /** The inner loop of both functions, from `j` on, with the correspondences collected so
      far in `acc`: look up `seqNames[j]`, scan texts `i` and `j`, append one pair per run. */
  function RowFrom(scan: Scan, seqs: seq<string>, names: seq<string>, i: nat, name1: string, j: nat, acc: seq<Pair>): Result<seq<Pair>>
    requires i < |seqs|
    decreases |seqs| - j
  {
    if j >= |seqs| then Ok(acc)
    else
      var name2 :- At(names, j);
      var runs :- scan(seqs[i], seqs[j]);
      RowFrom(scan, seqs, names, i, name1, j + 1, acc + RunPairs(runs, name1, 0, name2, 0))
  }

  /** One pass of the outer loop of `build_mlagan_ivals`: look up `seqNames[i]`, then pair
      text `i` with every later text. */
  function Row(scan: Scan, seqs: seq<string>, names: seq<string>, i: nat): Result<seq<Pair>>
    requires i < |seqs|
  {
    var name1 :- At(names, i);
    RowFrom(scan, seqs, names, i, name1, i + 1, [])
  }

  /** The outer loop of `build_mlagan_ivals`, from `i` on, with the lists yielded so far in
      `acc`. */
  function ListsFrom(scan: Scan, seqs: seq<string>, names: seq<string>, i: nat, acc: seq<seq<Pair>>): Result<seq<seq<Pair>>>
    decreases |seqs| - i
  {
    if i >= |seqs| then Ok(acc)
    else
      var row :- Row(scan, seqs, names, i);
      ListsFrom(scan, seqs, names, i + 1, acc + [row])
  }

  /** What the generator `build_mlagan_ivals` yields, as one list of lists; a failure
      anywhere fails the whole call. */
  function MlaganIvals(buf: string): Result<seq<seq<Pair>>> {
    var read :- MlaganSequences(buf);
    ListsFrom(IntervalList, read.0, read.1, 0, [])
  }

  /** The outer loop of `create_NLMSA_mlagan`, from `i` on, with every correspondence handed
      to the index so far in `acc`. */
  function PairsFrom(scan: Scan, seqs: seq<string>, names: seq<string>, i: nat, acc: seq<Pair>): Result<seq<Pair>>
    decreases |seqs| - i
  {
    if i >= |seqs| then Ok(acc)
    else
      var name1 :- At(names, i);
      var acc' :- RowFrom(scan, seqs, names, i, name1, i + 1, acc);
      PairsFrom(scan, seqs, names, i + 1, acc')
  }

  /** The correspondences `create_NLMSA_mlagan` adds to the index, in the order it adds them.
      It first registers `seqDb[seqNames[0]]`, which fails when there is no name. */
  function MlaganCorrespondences(buf: string): Result<seq<Pair>> {
    var read :- MlaganSequences(buf);
    var first :- At(read.1, 0);
    PairsFrom(IntervalList, read.0, read.1, 0, [])
  }

  /** The lists one after the other. */
  function Flatten(ls: seq<seq<Pair>>): seq<Pair> {
    if |ls| == 0 then [] else Flatten(ls[..|ls| - 1]) + ls[|ls| - 1]
  }

  /** `p` is the correspondence `((names[i], a, b), (names[k], x, y))` of a run of texts `i`
      and `k`. */
  ghost predicate PairOfTexts(scan: Scan, seqs: seq<string>, names: seq<string>, i: nat, k: nat, p: Pair) {
    && i < |seqs| && i < |names| && k < |seqs| && k < |names|
    && scan(seqs[i], seqs[k]).Ok?
    && p in RunPairs(scan(seqs[i], seqs[k]).value, names[i], 0, names[k], 0)
  }

  /** The pairs a pass of the inner loop collects for text `i` against the texts
      `i + 1 .. j - 1`: for each of them in turn, one pair per run of their scan. */
  function PairsOfRow(scan: Scan, seqs: seq<string>, names: seq<string>, i: nat, j: nat): seq<Pair>
    requires i < |seqs| <= |names| && j <= |seqs|
    requires forall k :: i < k < j ==> scan(seqs[i], seqs[k]).Ok?
    decreases j
  {
    if j <= i + 1 then []
    else PairsOfRow(scan, seqs, names, i, j - 1) + RunPairs(scan(seqs[i], seqs[j - 1]).value, names[i], 0, names[j - 1], 0)
  }

  /** One list per text: the pairs of text `i` against every later text. */
  function RowLists(scan: Scan, seqs: seq<string>, names: seq<string>): seq<seq<Pair>>
    requires |seqs| <= |names|
    requires forall i, j :: 0 <= i < j < |seqs| ==> scan(seqs[i], seqs[j]).Ok?
  {
    seq(|seqs|, i requires 0 <= i < |seqs| => PairsOfRow(scan, seqs, names, i, |seqs|))
  }

  // ------------------------------------------------------------ the loops

  /** `build_mlagan_ivals`, with the lists it yields collected in order. */
  method BuildMlaganIvals(buf: string) returns (r: Result<seq<seq<Pair>>>)
    ensures r == MlaganIvals(buf)
  {
    var read :- ReadMlagan(buf);
    var seqList, seqNames := read.0, read.1;
    var lists: seq<seq<Pair>> := [];
    for i := 0 to |seqList|
      invariant ListsFrom(IntervalList, seqList, seqNames, 0, []) == ListsFrom(IntervalList, seqList, seqNames, i, lists)
    {
      if i >= |seqNames| {
        return Err(IndexOutOfRange);
      }
      var row :- BuildRow(seqList, seqNames, i, seqNames[i], []);
      lists := lists + [row];
    }
    return Ok(lists);
  }

  /** The inner loop: pairs text `i` with every later text, appending to `ivals`. */
  method BuildRow(seqList: seq<string>, seqNames: seq<string>, i: nat, name1: string, ivals: seq<Pair>) returns (r: Result<seq<Pair>>)
    requires i < |seqList|
    ensures r == RowFrom(IntervalList, seqList, seqNames, i, name1, i + 1, ivals)
  {
    var out := ivals;
    for j := i + 1 to |seqList|
      invariant RowFrom(IntervalList, seqList, seqNames, i, name1, i + 1, ivals) == RowFrom(IntervalList, seqList, seqNames, i, name1, j, out)
    {
      if j >= |seqNames| {
        return Err(IndexOutOfRange);
      }
      var name2 := seqNames[j];
      var runs :- BuildIntervalList(seqList[i], seqList[j]);
      out := AppendRunPairs(out, runs, name1, 0, name2, 0);
    }
    return Ok(out);
  }

  /** The pair loop of `create_NLMSA_mlagan`, with the correspondences it adds to the index
      collected in order. */
  method CreateMlagan(buf: string) returns (r: Result<seq<Pair>>)
    ensures r == MlaganCorrespondences(buf)
  {
    var read :- ReadMlagan(buf);
    var seqList, seqNames := read.0, read.1;
    if |seqNames| == 0 {
      return Err(IndexOutOfRange);
    }
    var al: seq<Pair> := [];
    for i := 0 to |seqList|
      invariant PairsFrom(IntervalList, seqList, seqNames, 0, []) == PairsFrom(IntervalList, seqList, seqNames, i, al)
    {
      if i >= |seqNames| {
        return Err(IndexOutOfRange);
      }
      var more := BuildRow(seqList, seqNames, i, seqNames[i], al);
      if more.Err? {
        return Err(more.error);
      }
      al := more.value;
    }
    return Ok(al);
  }

  // ------------------------------------------------------------ properties

  /** Every text from `j` on has a name and scans against text `i`. */
  ghost predicate ScansFrom(scan: Scan, seqs: seq<string>, names: seq<string>, i: nat, j: nat)
    requires i < |seqs|
  {
    && (j < |seqs| ==> |seqs| <= |names|)
    && forall k :: j <= k < |seqs| ==> scan(seqs[i], seqs[k]).Ok?
  }

  /** The inner loop succeeds exactly when every later text has a name and scans against
      text `i`. */
  lemma {:induction false} RowFromSucceeds(scan: Scan, seqs: seq<string>, names: seq<string>, i: nat, j: nat, acc: seq<Pair>)
    requires i < |seqs| && i < |names|
    ensures RowFrom(scan, seqs, names, i, names[i], j, acc).Ok? <==> ScansFrom(scan, seqs, names, i, j)
    decreases |seqs| - j
  {
    var r := RowFrom(scan, seqs, names, i, names[i], j, acc);
    if j >= |seqs| {
      assert r == Ok(acc);
    } else if j >= |names| || scan(seqs[i], seqs[j]).Err? {
      assert r.Err?;
      assert !(j < |names| && scan(seqs[i], seqs[j]).Ok?);
    } else {
      var ps := RunPairs(scan(seqs[i], seqs[j]).value, names[i], 0, names[j], 0);
      assert r == RowFrom(scan, seqs, names, i, names[i], j + 1, acc + ps);
      RowFromSucceeds(scan, seqs, names, i, j + 1, acc + ps);
      assert ScansFrom(scan, seqs, names, i, j) <==> ScansFrom(scan, seqs, names, i, j + 1);
    }
  }

  /** When the inner loop succeeds, it keeps what was collected and adds exactly the
      correspondences of the scans of text `i` with each later text. */
  lemma {:induction false} RowFromMembers(scan: Scan, seqs: seq<string>, names: seq<string>, i: nat, j: nat, acc: seq<Pair>)
    requires i < |seqs| && i < |names|
    requires RowFrom(scan, seqs, names, i, names[i], j, acc).Ok?
    ensures var r := RowFrom(scan, seqs, names, i, names[i], j, acc).value;
            && acc <= r
            && forall p :: p in r <==> p in acc || exists k :: j <= k && PairOfTexts(scan, seqs, names, i, k, p)
    decreases |seqs| - j
  {
    var r := RowFrom(scan, seqs, names, i, names[i], j, acc);
    if j < |seqs| {
      assert j < |names| && scan(seqs[i], seqs[j]).Ok?;
      var ps := RunPairs(scan(seqs[i], seqs[j]).value, names[i], 0, names[j], 0);
      assert r == RowFrom(scan, seqs, names, i, names[i], j + 1, acc + ps);
      RowFromMembers(scan, seqs, names, i, j + 1, acc + ps);
      forall p
        ensures p in r.value <==> p in acc || exists k :: j <= k && PairOfTexts(scan, seqs, names, i, k, p)
      {
        if PairOfTexts(scan, seqs, names, i, j, p) {
          assert p in ps;
        }
        if p in ps {
          assert PairOfTexts(scan, seqs, names, i, j, p);
        }
      }
    }
  }

  /** The inner loop's collected list only ever grows at the end: starting from `pre + acc`
      gives `pre` followed by what starting from `acc` gives, and the same failure. */
  lemma {:induction false} RowFromPrefix(scan: Scan, seqs: seq<string>, names: seq<string>, i: nat, name1: string, j: nat, pre: seq<Pair>, acc: seq<Pair>)
    requires i < |seqs|
    ensures var r := RowFrom(scan, seqs, names, i, name1, j, acc);
            RowFrom(scan, seqs, names, i, name1, j, pre + acc) == if r.Ok? then Ok(pre + r.value) else r
    decreases |seqs| - j
  {
    if j < |seqs| && j < |names| && scan(seqs[i], seqs[j]).Ok? {
      var ps := RunPairs(scan(seqs[i], seqs[j]).value, name1, 0, names[j], 0);
      assert pre + acc + ps == pre + (acc + ps);
      RowFromPrefix(scan, seqs, names, i, name1, j + 1, pre, acc + ps);
    }
  }

  /** The outer loop succeeds exactly when every remaining pass does; it then adds one list
      per remaining text, the one its pass gives. */
  lemma {:induction false} ListsFromShape(scan: Scan, seqs: seq<string>, names: seq<string>, i: nat, acc: seq<seq<Pair>>)
    requires i <= |seqs|
    ensures var r := ListsFrom(scan, seqs, names, i, acc);
            && (r.Ok? <==> forall k :: i <= k < |seqs| ==> Row(scan, seqs, names, k).Ok?)
            && (r.Ok? ==> && |r.value| == |acc| + |seqs| - i && r.value[..|acc|] == acc
                          && forall k :: i <= k < |seqs| ==> Row(scan, seqs, names, k) == Ok(r.value[|acc| + k - i]))
    decreases |seqs| - i
  {
    if i < |seqs| {
      var row := Row(scan, seqs, names, i);
      if row.Ok? {
        var acc' := acc + [row.value];
        assert ListsFrom(scan, seqs, names, i, acc) == ListsFrom(scan, seqs, names, i + 1, acc');
        ListsFromShape(scan, seqs, names, i + 1, acc');
        var r := ListsFrom(scan, seqs, names, i + 1, acc');
        if r.Ok? {
          assert r.value[..|acc'|][..|acc|] == r.value[..|acc|];
          assert r.value[|acc|] == acc'[|acc|];
        }
      } else {
        assert ListsFrom(scan, seqs, names, i, acc).Err?;
      }
    }
  }

  /** The flattened outer loop of `create_NLMSA_mlagan` hands over the lists of
      `build_mlagan_ivals` one after the other. */
  lemma {:induction false} PairsFromLists(scan: Scan, seqs: seq<string>, names: seq<string>, i: nat, acc: seq<seq<Pair>>)
    ensures var r := ListsFrom(scan, seqs, names, i, acc);
            PairsFrom(scan, seqs, names, i, Flatten(acc)) == if r.Ok? then Ok(Flatten(r.value)) else Err(r.error)
    decreases |seqs| - i
  {
    if i < |seqs| && i < |names| {
      RowFromPrefix(scan, seqs, names, i, names[i], i + 1, Flatten(acc), []);
      assert Flatten(acc) + [] == Flatten(acc);
      var row := Row(scan, seqs, names, i);
      if row.Ok? {
        assert (acc + [row.value])[..|acc|] == acc;
        PairsFromLists(scan, seqs, names, i + 1, acc + [row.value]);
      }
    }
  }

  lemma {:induction false} FlattenMembers(ls: seq<seq<Pair>>, p: Pair)
    ensures p in Flatten(ls) <==> exists k :: 0 <= k < |ls| && p in ls[k]
    decreases |ls|
  {
    if |ls| > 0 {
      var init := ls[..|ls| - 1];
      FlattenMembers(init, p);
      if p in Flatten(init) {
        var k :| 0 <= k < |init| && p in init[k];
        assert ls[k] == init[k];
      }
      if exists k :: 0 <= k < |ls| && p in ls[k] {
        var k :| 0 <= k < |ls| && p in ls[k];
        if k < |ls| - 1 {
          assert init[k] == ls[k];
        }
      }
    }
  }

  /** The outer loop over texts with at least as many names succeeds exactly when every
      pair `i < j` of texts scans. */
  lemma ListsSucceed(scan: Scan, seqs: seq<string>, names: seq<string>)
    requires |seqs| <= |names|
    ensures ListsFrom(scan, seqs, names, 0, []).Ok? <==> forall i, j :: 0 <= i < j < |seqs| ==> scan(seqs[i], seqs[j]).Ok?
  {
    ListsFromShape(scan, seqs, names, 0, []);
    forall i | 0 <= i < |seqs|
      ensures Row(scan, seqs, names, i).Ok? <==> ScansFrom(scan, seqs, names, i, i + 1)
    {
      RowFromSucceeds(scan, seqs, names, i, i + 1, []);
    }
    if !forall i, j :: 0 <= i < j < |seqs| ==> scan(seqs[i], seqs[j]).Ok? {
      var i, j :| 0 <= i < j < |seqs| && !scan(seqs[i], seqs[j]).Ok?;
      assert !Row(scan, seqs, names, i).Ok?;
    }
  }

  /** When it succeeds, the outer loop gives one list per text; list `i` holds exactly the
      correspondences of the scans of text `i` with each later text, so the last is empty. */
  lemma ListsMembers(scan: Scan, seqs: seq<string>, names: seq<string>)
    requires 0 < |seqs| <= |names|
    requires ListsFrom(scan, seqs, names, 0, []).Ok?
    ensures var lists := ListsFrom(scan, seqs, names, 0, []).value;
            && |lists| == |seqs|
            && lists[|lists| - 1] == []
            && forall i, p :: 0 <= i < |lists| ==> (p in lists[i] <==> exists j :: i < j && PairOfTexts(scan, seqs, names, i, j, p))
  {
    var lists := ListsFrom(scan, seqs, names, 0, []).value;
    ListsFromShape(scan, seqs, names, 0, []);
    forall i, p | 0 <= i < |lists|
      ensures p in lists[i] <==> exists j :: i < j && PairOfTexts(scan, seqs, names, i, j, p)
    {
      assert Ok(lists[i]) == Row(scan, seqs, names, i);
      RowFromMembers(scan, seqs, names, i, i + 1, []);
      if exists j :: i < j && PairOfTexts(scan, seqs, names, i, j, p) {
        var j :| i < j && PairOfTexts(scan, seqs, names, i, j, p);
        assert i + 1 <= j;
      }
    }
    assert Ok(lists[|seqs| - 1]) == Row(scan, seqs, names, |seqs| - 1);
  }

  /** From text `j` on, the inner loop extends the pairs against the texts before `j` to
      the pairs against all later texts. */
  lemma {:induction false} RowFromPairsOfRow(scan: Scan, seqs: seq<string>, names: seq<string>, i: nat, j: nat)
    requires i < j <= |seqs| <= |names|
    requires forall k :: i < k < |seqs| ==> scan(seqs[i], seqs[k]).Ok?
    ensures RowFrom(scan, seqs, names, i, names[i], j, PairsOfRow(scan, seqs, names, i, j))
              == Ok(PairsOfRow(scan, seqs, names, i, |seqs|))
    decreases |seqs| - j
  {
    if j < |seqs| {
      var ps := RunPairs(scan(seqs[i], seqs[j]).value, names[i], 0, names[j], 0);
      assert PairsOfRow(scan, seqs, names, i, j + 1) == PairsOfRow(scan, seqs, names, i, j) + ps;
      RowFromPairsOfRow(scan, seqs, names, i, j + 1);
    }
  }

  /** When it succeeds, the outer loop yields exactly `RowLists`: list `i` is the pairs of
      text `i` against each later text, once each and in order, one pair per run. */
  lemma ListsAreRowLists(scan: Scan, seqs: seq<string>, names: seq<string>)
    requires |seqs| <= |names|
    requires ListsFrom(scan, seqs, names, 0, []).Ok?
    ensures forall i, j :: 0 <= i < j < |seqs| ==> scan(seqs[i], seqs[j]).Ok?
    ensures ListsFrom(scan, seqs, names, 0, []).value == RowLists(scan, seqs, names)
  {
    ListsSucceed(scan, seqs, names);
    ListsFromShape(scan, seqs, names, 0, []);
    var lists := ListsFrom(scan, seqs, names, 0, []).value;
    forall i | 0 <= i < |seqs|
      ensures lists[i] == PairsOfRow(scan, seqs, names, i, |seqs|)
    {
      assert Ok(lists[i]) == Row(scan, seqs, names, i);
      assert PairsOfRow(scan, seqs, names, i, i + 1) == [];
      RowFromPairsOfRow(scan, seqs, names, i, i + 1);
    }
  }

  /** With two texts the outer loop yields the pairs of their scan, then an empty list. */
  lemma TwoTextLists(scan: Scan, seqs: seq<string>, names: seq<string>)
    requires |seqs| == 2 <= |names|
    ensures var runs := scan(seqs[0], seqs[1]);
            ListsFrom(scan, seqs, names, 0, []) ==
              if runs.Ok? then Ok([RunPairs(runs.value, names[0], 0, names[1], 0), []]) else Err(runs.error)
  {
    var runs := scan(seqs[0], seqs[1]);
    assert RowFrom(scan, seqs, names, 1, names[1], 2, []) == Ok([]);
    assert Row(scan, seqs, names, 1) == Ok([]);
    if runs.Ok? {
      var ps := RunPairs(runs.value, names[0], 0, names[1], 0);
      assert [] + ps == ps;
      assert RowFrom(scan, seqs, names, 0, names[0], 1, []) == RowFrom(scan, seqs, names, 0, names[0], 2, ps);
      assert RowFrom(scan, seqs, names, 0, names[0], 2, ps) == Ok(ps);
      assert Row(scan, seqs, names, 0) == Ok(ps);
      assert [] + [ps] == [ps] && [ps] + [[]] == [ps, []];
      assert ListsFrom(scan, seqs, names, 0, []) == ListsFrom(scan, seqs, names, 1, [ps]);
      assert ListsFrom(scan, seqs, names, 1, [ps]) == ListsFrom(scan, seqs, names, 2, [ps, []]);
    } else {
      assert RowFrom(scan, seqs, names, 0, names[0], 1, []) == Err(runs.error);
    }
  }

  /** `build_mlagan_ivals` succeeds exactly when the texts are read and every pair `i < j` of
      them scans; the name lookups never fail, since there are never more texts than names. */
  lemma MlaganIvalsSucceed(buf: string)
    ensures MlaganIvals(buf).Ok? <==>
              && MlaganSequences(buf).Ok?
              && var seqs := MlaganSequences(buf).value.0;
                 forall i, j :: 0 <= i < j < |seqs| ==> IntervalList(seqs[i], seqs[j]).Ok?
  {
    if MlaganSequences(buf).Ok? {
      var (seqs, names) := MlaganSequences(buf).value;
      assert MlaganIvals(buf) == ListsFrom(IntervalList, seqs, names, 0, []);
      MlaganTextsWithinNames(buf);
      ListsSucceed(IntervalList, seqs, names);
    }
  }

  /** Texts of equal length always scan, so a read buffer whose texts all have one length
      always gives its lists. */
  lemma EqualTextsSucceed(buf: string)
    requires MlaganSequences(buf).Ok?
    requires var seqs := MlaganSequences(buf).value.0;
             forall i :: 0 <= i < |seqs| ==> |seqs[i]| == |seqs[0]|
    ensures MlaganIvals(buf).Ok?
  {
    var seqs := MlaganSequences(buf).value.0;
    forall i, j | 0 <= i < j < |seqs|
      ensures IntervalList(seqs[i], seqs[j]).Ok?
    {
      EqualLengthsSucceed(seqs[i], seqs[j]);
    }
    MlaganIvalsSucceed(buf);
  }

  /** `build_mlagan_ivals` yields one list per text, and the last one is empty; list `i` is
      `PairsOfRow` of text `i`: the correspondences `((name_i, a, b), (name_j, x, y))` of the
      runs of texts `i` and `j`, for each `j > i` once and in increasing order. */
  lemma MlaganLists(buf: string)
    requires MlaganIvals(buf).Ok?
    ensures MlaganSequences(buf).Ok?
    ensures var (seqs, names) := MlaganSequences(buf).value;
            var lists := MlaganIvals(buf).value;
            && |lists| == |seqs| <= |names|
            && lists[|lists| - 1] == []
            && forall i, p :: 0 <= i < |lists| ==> (p in lists[i] <==> exists j :: i < j && PairOfTexts(IntervalList, seqs, names, i, j, p))
    ensures var (seqs, names) := MlaganSequences(buf).value;
            && |seqs| <= |names|
            && (forall i, j :: 0 <= i < j < |seqs| ==> IntervalList(seqs[i], seqs[j]).Ok?)
            && MlaganIvals(buf).value == RowLists(IntervalList, seqs, names)
  {
    var (seqs, names) := MlaganSequences(buf).value;
    assert MlaganIvals(buf) == ListsFrom(IntervalList, seqs, names, 0, []);
    MlaganTextsWithinNames(buf);
    ListsMembers(IntervalList, seqs, names);
    ListsAreRowLists(IntervalList, seqs, names);
  }

  /** `create_NLMSA_mlagan` adds the lists of `build_mlagan_ivals` one after the other, and
      fails exactly when that does. */
  lemma CorrespondencesFlattenLists(buf: string)
    ensures MlaganCorrespondences(buf) == if MlaganIvals(buf).Ok? then Ok(Flatten(MlaganIvals(buf).value)) else Err(MlaganIvals(buf).error)
  {
    if MlaganSequences(buf).Ok? {
      var (seqs, names) := MlaganSequences(buf).value;
      MlaganNames(buf);
      PairsFromLists(IntervalList, seqs, names, 0, []);
    }
  }

  /** `create_NLMSA_mlagan` adds the `PairsOfRow` lists of texts `0, 1, ...` one after the
      other, so every pair of texts `i < j` is scanned once and gives one correspondence per
      run; as a set, they are the correspondences of the runs of all pairs `i < j`. */
  lemma CorrespondencesOfPairs(buf: string, p: Pair)
    requires MlaganCorrespondences(buf).Ok?
    ensures MlaganSequences(buf).Ok?
    ensures var (seqs, names) := MlaganSequences(buf).value;
            p in MlaganCorrespondences(buf).value <==> exists i, j :: 0 <= i < j && PairOfTexts(IntervalList, seqs, names, i, j, p)
    ensures var (seqs, names) := MlaganSequences(buf).value;
            && |seqs| <= |names|
            && (forall i, j :: 0 <= i < j < |seqs| ==> IntervalList(seqs[i], seqs[j]).Ok?)
            && MlaganCorrespondences(buf).value == Flatten(RowLists(IntervalList, seqs, names))
  {
    CorrespondencesFlattenLists(buf);
    MlaganLists(buf);
    var (seqs, names) := MlaganSequences(buf).value;
    var lists := MlaganIvals(buf).value;
    FlattenMembers(lists, p);
    if exists i, j :: 0 <= i < j && PairOfTexts(IntervalList, seqs, names, i, j, p) {
      var i, j :| 0 <= i < j && PairOfTexts(IntervalList, seqs, names, i, j, p);
      assert p in lists[i];
    }
  }
}
