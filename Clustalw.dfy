/** The CLUSTAL W parser: a CLUSTAL file is a header line, two more lines, then blocks of one
    row per sequence (`name  gapped-residues  [running-count]`) followed by a consensus line and
    a blank line. The parser counts the sequences, cuts the lines into blocks, carries a running
    start index per sequence across blocks, and turns every pair of rows of a block into
    interval pairs through the gap scan. */
module Clustalw {
  import opened Results
  import opened PyText
  import opened GapScan

  const ClustalHeader := "CLUSTAL "
  const HeaderCheck := "lines[0].startswith('CLUSTAL ')"

  /** The value held by one `ClustalwResidues` object: the number of sequences, their names,
      their gapped rows in this block and the index of each row's first residue in its
      sequence. */
  datatype Block = Block(noSeq: nat, names: seq<string>, seqs: seq<string>, starts: seq<int>)

  /** A block as `read_clustalw` builds it: `n` names, rows and starts. */
  predicate WellFormed(b: Block, n: nat) {
    b.noSeq == n && |b.names| == n && |b.seqs| == n && |b.starts| == n
  }

  // ------------------------------------------------------------ per-block counts

  /** `s.count('-')` for each row. */
  function GapCounts(rows: seq<string>): (gs: seq<nat>)
    ensures |gs| == |rows|
  {
    seq(|rows|, i requires 0 <= i < |rows| => Count(rows[i], Gap))
  }

  /** `len(s) - s.count('-')` for each row. */
  function UngappedCounts(rows: seq<string>): (us: seq<int>)
    ensures |us| == |rows|
  {
    seq(|rows|, i requires 0 <= i < |rows| => |rows[i]| - Count(rows[i], Gap))
  }

  /** The ungapped count of a row is the length of the row with its gaps stripped. */
  lemma UngappedIsResidues(rows: seq<string>, i: nat)
    requires i < |rows|
    ensures UngappedCounts(rows)[i] == Residues(rows[i]) >= 0
  {
    RemoveCharCount(rows[i], Gap);
  }

  /** A row has no residue exactly when it is all gaps. */
  lemma {:induction false} UngappedZeroIffAllGaps(row: string)
    ensures |row| - Count(row, Gap) == 0 <==> forall k :: 0 <= k < |row| ==> row[k] == Gap
    decreases |row|
  {
    if |row| > 0 {
      var init := row[..|row| - 1];
      UngappedZeroIffAllGaps(init);
      if forall k :: 0 <= k < |row| ==> row[k] == Gap {
        assert forall k :: 0 <= k < |init| ==> init[k] == Gap;
      }
    }
  }

  /** The inclusive end index `get_end_indices` gives a row starting at `start`. */
  function EndIndex(start: int, ungapped: int): int {
    if ungapped != 0 then start + ungapped - 1 else start
  }

  /** What `get_end_indices` returns: an IndexError when the block claims more sequences than
      it has rows or starts. */
  function EndIndices(b: Block): (r: Result<seq<int>>)
    ensures r.Ok? <==> b.noSeq <= |b.seqs| && b.noSeq <= |b.starts|
    ensures r.Ok? ==> |r.value| == b.noSeq
  {
    if b.noSeq > |b.seqs| || b.noSeq > |b.starts| then Err(IndexOutOfRange)
    else
      var us := UngappedCounts(b.seqs);
      Ok(seq(b.noSeq, i requires 0 <= i < b.noSeq => EndIndex(b.starts[i], us[i])))
  }

  /** A row with residues spans the inclusive range `[start, end]` of exactly its residues; an
      all-gap row gets `end == start`. */
  lemma EndIndexSpansResidues(b: Block, i: nat)
    requires EndIndices(b).Ok? && i < b.noSeq
    ensures var end := EndIndices(b).value[i];
            && (Residues(b.seqs[i]) > 0 ==> end - b.starts[i] + 1 == Residues(b.seqs[i]))
            && (Residues(b.seqs[i]) == 0 ==> end == b.starts[i])
  {
    UngappedIsResidues(b.seqs, i);
  }

  /** The starts after `reset_start_indices`: one less for every all-gap row among the first
      `noSeq`. */
  function ResetStarts(b: Block): (starts: seq<int>)
    requires b.noSeq <= |b.seqs| && b.noSeq <= |b.starts|
    ensures |starts| == |b.starts|
  {
    var us := UngappedCounts(b.seqs);
    seq(|b.starts|, i requires 0 <= i < |b.starts| => if i < b.noSeq && us[i] == 0 then b.starts[i] - 1 else b.starts[i])
  }

  /** Only all-gap rows move their start, and each moves back by one. */
  lemma ResetOnlyAllGapRows(b: Block, i: nat)
    requires b.noSeq <= |b.seqs| && b.noSeq <= |b.starts| && i < |b.starts|
    ensures ResetStarts(b)[i] == b.starts[i] - 1 <==>
              i < b.noSeq && forall k :: 0 <= k < |b.seqs[i]| ==> b.seqs[i][k] == Gap
    ensures ResetStarts(b)[i] != b.starts[i] - 1 ==> ResetStarts(b)[i] == b.starts[i]
  {
    if i < b.noSeq {
      UngappedZeroIffAllGaps(b.seqs[i]);
    }
  }

  // ------------------------------------------------------------ the block object

  /** One alignment block (`ClustalwResidues`). */
  class ClustalwResidues {
    var noSeq: nat
    var seqNames: seq<string>
    var seqs: seq<string>
    var startIndices: seq<int>

    function View(): Block
      reads this
    {
      Block(noSeq, seqNames, seqs, startIndices)
    }

    /** The object keeps its own copy of the start indices. */
    constructor (noSeq: nat, seqNames: seq<string>, seqs: seq<string>, startIndices: seq<int>)
      ensures View() == Block(noSeq, seqNames, seqs, startIndices)
    {
      this.noSeq := noSeq;
      this.seqNames := seqNames;
      this.seqs := seqs;
      var copy: seq<int> := [];
      for i := 0 to |startIndices|
        invariant copy == startIndices[..i]
      {
        copy := copy + [startIndices[i]];
      }
      this.startIndices := copy;
    }

    /** `gap_count`: the number of gaps in each row. */
    method GapCount() returns (gaps: seq<nat>)
      ensures gaps == GapCounts(seqs)
    {
      gaps := [];
      for i := 0 to |seqs|
        invariant gaps == GapCounts(seqs[..i])
      {
        assert seqs[..i + 1] == seqs[..i] + [seqs[i]];
        gaps := gaps + [Count(seqs[i], Gap)];
      }
      assert seqs[..|seqs|] == seqs;
    }

    /** `ungapped_count`: the number of residues in each row. */
    method UngappedCount() returns (ungapped: seq<int>)
      ensures ungapped == UngappedCounts(seqs)
    {
      var gaps := GapCount();
      ungapped := [];
      for i := 0 to |seqs|
        invariant ungapped == UngappedCounts(seqs[..i])
      {
        assert seqs[..i + 1] == seqs[..i] + [seqs[i]];
        ungapped := ungapped + [|seqs[i]| - gaps[i]];
      }
      assert seqs[..|seqs|] == seqs;
    }

    /** `get_end_indices`. */
    method GetEndIndices() returns (r: Result<seq<int>>)
      ensures r == EndIndices(View())
    {
      var ungapped := UngappedCount();
      var starts := startIndices;
      var ends: seq<int> := [];
      for i := 0 to noSeq
        invariant i <= |seqs| && i <= |starts|
        invariant |ends| == i && forall k :: 0 <= k < i ==> ends[k] == EndIndex(starts[k], ungapped[k])
      {
        if i >= |seqs| || i >= |starts| {
          return Err(IndexOutOfRange);
        }
        ends := ends + [EndIndex(starts[i], ungapped[i])];
      }
      assert ends == EndIndices(View()).value;
      return Ok(ends);
    }

    /** `reset_start_indices`: moves the start of every all-gap row back by one. */
    method ResetStartIndices()
      requires noSeq <= |seqs| && noSeq <= |startIndices|
      modifies this
      ensures startIndices == ResetStarts(old(View()))
      ensures noSeq == old(noSeq) && seqNames == old(seqNames) && seqs == old(seqs)
    {
      var ungapped := UngappedCount();
      ghost var before := View();
      for i := 0 to noSeq
        invariant noSeq == before.noSeq && seqNames == before.names && seqs == before.seqs
        invariant |startIndices| == |before.starts|
        invariant forall k :: 0 <= k < |startIndices| ==>
                    startIndices[k] == if k < i && ungapped[k] == 0 then before.starts[k] - 1 else before.starts[k]
      {
        if ungapped[i] == 0 {
          startIndices := startIndices[i := startIndices[i] - 1];
        }
      }
    }
  }

  function Views(objs: seq<ClustalwResidues>): (vs: seq<Block>)
    reads set o | o in objs
    ensures |vs| == |objs|
  {
    seq(|objs|, k requires 0 <= k < |objs| reads objs => objs[k].View())
  }

  // ------------------------------------------------------------ reading the file

  /** The first 16 characters of the line are white space: the line has no sequence name. */
  predicate NameColumnBlank(line: string) {
    forall k :: 0 <= k < |line| && k < 16 ==> line[k] in Whitespace
  }

  /** The test the source writes as `not line[:16].strip()`. */
  lemma NameColumnBlankIsStrip(line: string)
    ensures NameColumnBlank(line) <==> Strip(Slice(line, 0, 16)) == []
  {
    StripEmpty(Slice(line, 0, 16), Whitespace);
    assert Slice(line, 0, 16) == line[..if |line| < 16 then |line| else 16];
  }

  /** `seq_counter` when the counting loop starts at `i`: the first line from `i` on without a
      name, or an IndexError when every line from `i` on has one. */
  function CountFrom(body: seq<string>, i: nat): (r: Result<nat>)
    ensures r.Ok? ==> i <= r.value < |body|
    decreases |body| - i
  {
    if i >= |body| then Err(IndexOutOfRange)
    else if NameColumnBlank(body[i]) then Ok(i)
    else CountFrom(body, i + 1)
  }

  /** `name, seq, length = ls` or `name, seq = ls` on the words of one row. */
  function ParseRow(line: string): Result<(string, string)> {
    var ls := Words(Strip(line));
    if |ls| == 3 || |ls| == 2 then Ok((ls[0], ls[1])) else Err(WrongArity)
  }

  /** The names and rows of lines `i .. i + j - 1` of the body, read in order. */
  function RowsUpTo(body: seq<string>, i: nat, j: nat): (r: Result<(seq<string>, seq<string>)>)
    ensures r.Ok? ==> |r.value.0| == j && |r.value.1| == j
  {
    if j == 0 then Ok(([], []))
    else
      var prev :- RowsUpTo(body, i, j - 1);
      var line :- At(body, i + j - 1);
      var row :- ParseRow(line);
      Ok((prev.0 + [row.0], prev.1 + [row.1]))
  }

  /** An error while reading a block's rows is the error of reading all of them. */
  lemma {:induction false} RowsUpToErr(body: seq<string>, i: nat, j: nat, m: nat)
    requires j <= m && RowsUpTo(body, i, j).Err?
    ensures RowsUpTo(body, i, m) == RowsUpTo(body, i, j)
    decreases m
  {
    if j < m {
      RowsUpToErr(body, i, j, m - 1);
    }
  }

  /** `start_indices[j] += ungapped_len[j]` for every `j`. */
  function AddCounts(running: seq<int>, us: seq<int>): (next: seq<int>)
    requires |us| >= |running|
    ensures |next| == |running|
  {
    seq(|running|, j requires 0 <= j < |running| => running[j] + us[j])
  }

  function Zeros(n: nat): (z: seq<int>)
    ensures |z| == n
  {
    seq(n, _ => 0)
  }

  /** The blocks starting at line `i` of the body, each `n + 2` lines long, given the running
      start index of each sequence. */
  function BlocksFrom(body: seq<string>, n: nat, i: nat, running: seq<int>): (r: Result<seq<Block>>)
    requires |running| == n
    ensures r.Ok? ==> (i < |body| <==> |r.value| > 0)
    ensures r.Ok? ==> forall k :: 0 <= k < |r.value| ==> WellFormed(r.value[k], n)
    decreases |body| - i
  {
    if i >= |body| then Ok([])
    else
      var rows :- RowsUpTo(body, i, n);
      var b := Block(n, rows.0, rows.1, running);
      var next := AddCounts(running, UngappedCounts(rows.1));
      var rest :- BlocksFrom(body, n, i + n + 2, next);
      Ok([Block(n, rows.0, rows.1, ResetStarts(b))] + rest)
  }

  /** What `read_clustalw(lines)` returns. */
  function ReadClustalw(lines: seq<string>): (r: Result<seq<Block>>)
    ensures |lines| == 0 ==> r == Err(IndexOutOfRange)
    ensures |lines| > 0 && !StartsWith(lines[0], ClustalHeader) ==> r == Err(AssertionFailed(HeaderCheck))
    ensures r.Ok? ==> |r.value| > 0 && forall k :: 0 <= k < |r.value| ==> WellFormed(r.value[k], r.value[0].noSeq)
  {
    var first :- At(lines, 0);
    if !StartsWith(first, ClustalHeader) then Err(AssertionFailed(HeaderCheck))
    else
      var body := Drop(lines, 3);
      var n :- CountFrom(body, 0);
      BlocksFrom(body, n, 0, Zeros(n))
  }

  /** The number of sequences is the number of lines after the first three whose first 16
      characters are not all white space, up to the first line whose are; the count fails when
      there is no such line. */
  lemma CountMeaning(body: seq<string>, n: nat)
    ensures CountFrom(body, 0) == Ok(n) <==>
              n < |body| && NameColumnBlank(body[n]) && forall k :: 0 <= k < n ==> !NameColumnBlank(body[k])
    ensures CountFrom(body, 0).Err? <==> forall k :: 0 <= k < |body| ==> !NameColumnBlank(body[k])
  {
    CountFromMeaning(body, 0, n);
  }

  lemma {:induction false} CountFromMeaning(body: seq<string>, i: nat, n: nat)
    ensures CountFrom(body, i) == Ok(n) <==>
              i <= n < |body| && NameColumnBlank(body[n]) && forall k :: i <= k < n ==> !NameColumnBlank(body[k])
    ensures CountFrom(body, i).Err? <==> forall k :: i <= k < |body| ==> !NameColumnBlank(body[k])
    decreases |body| - i
  {
    if i < |body| && !NameColumnBlank(body[i]) {
      CountFromMeaning(body, i + 1, n);
    }
  }

  /** A row `name <blanks> residues`, optionally followed by `<blanks> count`, reads back as its
      name and its residues. */
  lemma ParseRowOfRow(name: string, pad: string, residues: string, pad2: string, count: string)
    requires name != [] && forall k :: 0 <= k < |name| ==> name[k] !in Whitespace
    requires pad != [] && forall k :: 0 <= k < |pad| ==> pad[k] in Whitespace
    requires residues != [] && forall k :: 0 <= k < |residues| ==> residues[k] !in Whitespace
    requires (pad2 == [] && count == []) ||
             (&& pad2 != [] && (forall k :: 0 <= k < |pad2| ==> pad2[k] in Whitespace)
              && count != [] && (forall k :: 0 <= k < |count| ==> count[k] !in Whitespace))
    ensures ParseRow(name + pad + residues + pad2 + count) == Ok((name, residues))
  {
    var tail := pad2 + count;
    var line := name + pad + residues + tail;
    AppendAssoc(name + pad + residues, pad2, count);
    if count == [] {
      assert tail == [] && Words(tail) == [];
    } else {
      assert tail[0] == pad2[0];
      WordsOfWord(pad2, count, []);
      AppendNil(tail);
      assert Words([]) == [];
      AppendNil([count]);
    }
    WordsOfTwo(name, pad, residues, tail);
    assert line[0] == name[0];
    assert line[|line| - 1] == if count == [] then residues[|residues| - 1] else count[|count| - 1];
    StripUnpadded(line, Whitespace);
  }

  // ------------------------------------------------------------ start indices

  /** The number of residues sequence `s` has in blocks `0 .. k - 1` (a block without row `s`
      adds nothing). */
  function Offset(blocks: seq<Block>, k: nat, s: nat): int
    requires k <= |blocks|
  {
    if k == 0 then 0
    else
      var us := UngappedCounts(blocks[k - 1].seqs);
      Offset(blocks, k - 1, s) + (if s < |us| then us[s] else 0)
  }

  lemma {:induction false} OffsetCons(b: Block, rest: seq<Block>, k: nat, s: nat)
    requires 0 < k <= |rest| + 1
    requires s < |b.seqs|
    ensures Offset([b] + rest, k, s) == UngappedCounts(b.seqs)[s] + Offset(rest, k - 1, s)
  {
    if k > 1 {
      OffsetCons(b, rest, k - 1, s);
      assert ([b] + rest)[k - 1] == rest[k - 2];
    }
  }

  /** One step of `BlocksFrom`: read the rows of the block at line `i`, then the rest. */
  lemma BlocksFromStep(body: seq<string>, n: nat, i: nat, running: seq<int>)
    requires |running| == n && i < |body|
    ensures RowsUpTo(body, i, n).Err? ==> BlocksFrom(body, n, i, running) == Err(RowsUpTo(body, i, n).error)
    ensures RowsUpTo(body, i, n).Ok? ==>
              var rows := RowsUpTo(body, i, n).value;
              BlocksFrom(body, n, i, running)
              == Prepend([Block(n, rows.0, rows.1, ResetStarts(Block(n, rows.0, rows.1, running)))],
                         BlocksFrom(body, n, i + n + 2, AddCounts(running, UngappedCounts(rows.1))))
  {
  }

  lemma BlocksFromUnfold(body: seq<string>, n: nat, i: nat, running: seq<int>)
    requires |running| == n && BlocksFrom(body, n, i, running).Ok?
    ensures i < |body| ==>
              && RowsUpTo(body, i, n).Ok?
              && var rows := RowsUpTo(body, i, n).value;
                 var next := AddCounts(running, UngappedCounts(rows.1));
                 && BlocksFrom(body, n, i + n + 2, next).Ok?
                 && BlocksFrom(body, n, i, running).value
                    == [Block(n, rows.0, rows.1, ResetStarts(Block(n, rows.0, rows.1, running)))]
                       + BlocksFrom(body, n, i + n + 2, next).value
  {
  }

  /** Each block stores the running starts it was built with, reset for its all-gap rows, and
      the running starts move on by the block's ungapped counts. */
  ghost predicate Chained(bs: seq<Block>, running: seq<int>, n: nat)
    decreases |bs|
  {
    && |running| == n
    && (forall k :: 0 <= k < |bs| ==> WellFormed(bs[k], n))
    && (bs != [] ==>
          && bs[0].starts == ResetStarts(Block(n, bs[0].names, bs[0].seqs, running))
          && Chained(bs[1..], AddCounts(running, UngappedCounts(bs[0].seqs)), n))
  }

  lemma {:induction false} BlocksChained(body: seq<string>, n: nat, i: nat, running: seq<int>)
    requires |running| == n && BlocksFrom(body, n, i, running).Ok?
    ensures Chained(BlocksFrom(body, n, i, running).value, running, n)
    decreases |body| - i
  {
    if i < |body| {
      BlocksFromUnfold(body, n, i, running);
      var rows := RowsUpTo(body, i, n).value;
      var next := AddCounts(running, UngappedCounts(rows.1));
      BlocksChained(body, n, i + n + 2, next);
      var bs := BlocksFrom(body, n, i, running).value;
      assert bs[1..] == BlocksFrom(body, n, i + n + 2, next).value;
    }
  }

  lemma {:induction false} StoredStartsChained(bs: seq<Block>, running: seq<int>, n: nat, k: nat, s: nat)
    requires Chained(bs, running, n) && k < |bs| && s < n
    ensures bs[k].starts[s] == running[s] + Offset(bs, k, s) - (if Residues(bs[k].seqs[s]) == 0 then 1 else 0)
    decreases k
  {
    UngappedIsResidues(bs[k].seqs, s);
    if k > 0 {
      var next := AddCounts(running, UngappedCounts(bs[0].seqs));
      StoredStartsChained(bs[1..], next, n, k - 1, s);
      assert bs == [bs[0]] + bs[1..];
      OffsetCons(bs[0], bs[1..], k, s);
    }
  }

  /** Block `k` stores, for sequence `s`, the number of residues `s` has in the earlier blocks,
      less one when its row in block `k` is all gaps. */
  lemma StoredStarts(lines: seq<string>, k: nat, s: nat)
    requires ReadClustalw(lines).Ok?
    requires k < |ReadClustalw(lines).value| && s < ReadClustalw(lines).value[0].noSeq
    ensures var bs := ReadClustalw(lines).value;
            bs[k].starts[s] == Offset(bs, k, s) - (if Residues(bs[k].seqs[s]) == 0 then 1 else 0)
  {
    var body := Drop(lines, 3);
    var n := CountFrom(body, 0).value;
    BlocksChained(body, n, 0, Zeros(n));
    StoredStartsChained(ReadClustalw(lines).value, Zeros(n), n, k, s);
  }

  /** Consecutive blocks abut: when a sequence has residues in blocks `k` and `k + 1`, its start
      in block `k + 1` is one past its inclusive end in block `k`. */
  lemma BlocksAbut(lines: seq<string>, k: nat, s: nat)
    requires ReadClustalw(lines).Ok?
    requires k + 1 < |ReadClustalw(lines).value| && s < ReadClustalw(lines).value[0].noSeq
    requires Residues(ReadClustalw(lines).value[k].seqs[s]) > 0
    requires Residues(ReadClustalw(lines).value[k + 1].seqs[s]) > 0
    ensures var bs := ReadClustalw(lines).value;
            bs[k + 1].starts[s] == EndIndices(bs[k]).value[s] + 1
  {
    var bs := ReadClustalw(lines).value;
    StoredStarts(lines, k, s);
    StoredStarts(lines, k + 1, s);
    UngappedIsResidues(bs[k].seqs, s);
  }

  // ------------------------------------------------------------ the read loop

  /** The counting loop of `read_clustalw`. */
  method CountSequences(body: seq<string>) returns (r: Result<nat>)
    ensures r == CountFrom(body, 0)
  {
    var n := 0;
    while true
      invariant n <= |body| && CountFrom(body, n) == CountFrom(body, 0)
      decreases |body| - n
    {
      if n >= |body| {
        return Err(IndexOutOfRange);
      }
      NameColumnBlankIsStrip(body[n]);
      if Strip(Slice(body[n], 0, 16)) == [] {
        return Ok(n);
      }
      n := n + 1;
    }
  }

  /** The row loop of `read_clustalw` for the block starting at line `i`. */
  method ReadRows(body: seq<string>, i: nat, n: nat) returns (r: Result<(seq<string>, seq<string>)>)
    ensures r == RowsUpTo(body, i, n)
  {
    var names: seq<string> := [];
    var rows: seq<string> := [];
    for j := 0 to n
      invariant RowsUpTo(body, i, j) == Ok((names, rows))
    {
      if i + j >= |body| {
        RowsUpToErr(body, i, j + 1, n);
        return Err(IndexOutOfRange);
      }
      var row := ParseRow(body[i + j]);
      if row.Err? {
        RowsUpToErr(body, i, j + 1, n);
        return Err(row.error);
      }
      names, rows := names + [row.value.0], rows + [row.value.1];
    }
    return Ok((names, rows));
  }

  /** `start_indices[j] += ungapped_len[j]` for every `j`. */
  method AddInto(running: seq<int>, ungapped: seq<int>) returns (next: seq<int>)
    requires |ungapped| >= |running|
    ensures next == AddCounts(running, ungapped)
  {
    next := running;
    for j := 0 to |running|
      invariant |next| == |running|
      invariant forall m :: 0 <= m < |running| ==> next[m] == if m < j then running[m] + ungapped[m] else running[m]
    {
      next := next[j := next[j] + ungapped[j]];
    }
  }

  /** The body of the block loop of `read_clustalw`: read the block at line `i`, build its
      object from the running starts, move the running starts on and reset the object's. */
  method ReadBlock(body: seq<string>, n: nat, i: nat, starts: seq<int>) returns (r: Result<(ClustalwResidues, seq<int>)>)
    requires |starts| == n
    ensures r.Err? ==> RowsUpTo(body, i, n).Err? && r.error == RowsUpTo(body, i, n).error
    ensures r.Ok? ==> && RowsUpTo(body, i, n).Ok?
                      && var rows := RowsUpTo(body, i, n).value;
                         && fresh(r.value.0)
                         && r.value.0.View() == Block(n, rows.0, rows.1, ResetStarts(Block(n, rows.0, rows.1, starts)))
                         && r.value.1 == AddCounts(starts, UngappedCounts(rows.1))
  {
    var rows := ReadRows(body, i, n);
    if rows.Err? {
      return Err(rows.error);
    }
    var cl := new ClustalwResidues(n, rows.value.0, rows.value.1, starts);
    var ungapped := cl.UngappedCount();
    var next := AddInto(starts, ungapped);
    cl.ResetStartIndices();
    return Ok((cl, next));
  }

  /** `read_clustalw(lines)`: one fresh object per block, each holding its stored starts. */
  method ReadClustalwBlocks(lines: seq<string>) returns (r: Result<seq<ClustalwResidues>>)
    ensures r.Err? <==> ReadClustalw(lines).Err?
    ensures r.Err? ==> r.error == ReadClustalw(lines).error
    ensures r.Ok? ==> Views(r.value) == ReadClustalw(lines).value
    ensures r.Ok? ==> forall k :: 0 <= k < |r.value| ==> fresh(r.value[k])
    ensures r.Ok? ==> forall k, l :: 0 <= k < l < |r.value| ==> r.value[k] != r.value[l]
  {
    if |lines| == 0 {
      return Err(IndexOutOfRange);
    }
    if !StartsWith(lines[0], ClustalHeader) {
      return Err(AssertionFailed(HeaderCheck));
    }
    var body := Drop(lines, 3);
    var count := CountSequences(body);
    if count.Err? {
      return Err(count.error);
    }
    var n := count.value;
    r := ReadBlocks(body, n);
  }

  /** The block loop of `read_clustalw`, once the number of sequences `n` is known. */
  method ReadBlocks(body: seq<string>, n: nat) returns (r: Result<seq<ClustalwResidues>>)
    ensures r.Err? <==> BlocksFrom(body, n, 0, Zeros(n)).Err?
    ensures r.Err? ==> r.error == BlocksFrom(body, n, 0, Zeros(n)).error
    ensures r.Ok? ==> Views(r.value) == BlocksFrom(body, n, 0, Zeros(n)).value
    ensures r.Ok? ==> forall k :: 0 <= k < |r.value| ==> fresh(r.value[k])
    ensures r.Ok? ==> forall k, l :: 0 <= k < l < |r.value| ==> r.value[k] != r.value[l]
  {
    var starts := Zeros(n);
    ghost var whole := BlocksFrom(body, n, 0, starts);
    var out: seq<ClustalwResidues> := [];
    ghost var vs: seq<Block> := [];   // the views of `out`
    var i := 0;
    PrependNil(whole);
    while i < |body|
      invariant |starts| == n
      invariant forall k :: 0 <= k < |out| ==> fresh(out[k])
      invariant forall k, l :: 0 <= k < l < |out| ==> out[k] != out[l]
      invariant |vs| == |out| && forall k :: 0 <= k < |out| ==> out[k].View() == vs[k]
      invariant whole == Prepend(vs, BlocksFrom(body, n, i, starts))
      decreases |body| - i
    {
      var step := NextBlock(body, n, i, starts, vs, whole);
      if step.Err? {
        return Err(step.error);
      }
      var cl := step.value.0;
      ghost var b := cl.View();
      out := out + [cl];
      vs := vs + [b];
      starts := step.value.1;
      i := i + n + 2;
    }
    BlocksFromEnd(body, n, i, starts, vs, whole);
    assert Views(out) == vs;
    return Ok(out);
  }

  /** `ReadBlock` seen from the block loop: the block read joins the blocks before it and the
      search goes on after it, or its failure is the failure of the whole call. */
  method NextBlock(body: seq<string>, n: nat, i: nat, starts: seq<int>, ghost done: seq<Block>,
                   ghost whole: Result<seq<Block>>) returns (r: Result<(ClustalwResidues, seq<int>)>)
    requires |starts| == n && i < |body|
    requires whole == Prepend(done, BlocksFrom(body, n, i, starts))
    ensures r.Err? ==> whole == Err(r.error)
    ensures r.Ok? ==> && fresh(r.value.0) && |r.value.1| == n
                      && whole == Prepend(done + [r.value.0.View()], BlocksFrom(body, n, i + n + 2, r.value.1))
  {
    r := ReadBlock(body, n, i, starts);
    if r.Err? {
      BlocksFromErr(body, n, i, starts, done, whole);
    } else {
      BlocksFromNext(body, n, i, starts, r.value.0.View(), r.value.1, done, whole);
    }
  }

  /** Past the last line nothing more is read: the blocks so far are the whole result. */
  lemma BlocksFromEnd(body: seq<string>, n: nat, i: nat, starts: seq<int>, done: seq<Block>, whole: Result<seq<Block>>)
    requires |starts| == n && i >= |body|
    requires whole == Prepend(done, BlocksFrom(body, n, i, starts))
    ensures whole == Ok(done)
  {
    assert done + [] == done;
  }

  /** One block read: it joins the blocks before it, and the search goes on after it. */
  lemma BlocksFromNext(body: seq<string>, n: nat, i: nat, starts: seq<int>, b: Block, next: seq<int>,
                       done: seq<Block>, whole: Result<seq<Block>>)
    requires |starts| == n && i < |body| && RowsUpTo(body, i, n).Ok?
    requires var rows := RowsUpTo(body, i, n).value;
             && b == Block(n, rows.0, rows.1, ResetStarts(Block(n, rows.0, rows.1, starts)))
             && next == AddCounts(starts, UngappedCounts(rows.1))
    requires whole == Prepend(done, BlocksFrom(body, n, i, starts))
    ensures whole == Prepend(done + [b], BlocksFrom(body, n, i + n + 2, next))
  {
    BlocksFromStep(body, n, i, starts);
    PrependTwice(done, [b], BlocksFrom(body, n, i + n + 2, next));
  }

  /** A block that cannot be read fails the whole call. */
  lemma BlocksFromErr(body: seq<string>, n: nat, i: nat, starts: seq<int>, done: seq<Block>, whole: Result<seq<Block>>)
    requires |starts| == n && i < |body| && RowsUpTo(body, i, n).Err?
    requires whole == Prepend(done, BlocksFrom(body, n, i, starts))
    ensures whole == Err(RowsUpTo(body, i, n).error)
  {
    BlocksFromStep(body, n, i, starts);
  }

  /** `xs + r` for a result `r`, passing an error through. */
  function Prepend<T>(xs: seq<T>, r: Result<seq<T>>): Result<seq<T>> {
    if r.Ok? then Ok(xs + r.value) else r
  }

  lemma PrependTwice<T>(xs: seq<T>, ys: seq<T>, r: Result<seq<T>>)
    ensures Prepend(xs, Prepend(ys, r)) == Prepend(xs + ys, r)
  {
    if r.Ok? {
      assert xs + (ys + r.value) == (xs + ys) + r.value;
    }
  }

  lemma PrependNil<T>(r: Result<seq<T>>)
    ensures Prepend([], r) == r
  {
    if r.Ok? {
      assert [] + r.value == r.value;
    }
  }

  // ------------------------------------------------------------ total lengths

  /** The rows of each block. */
  function RowsOf(bs: seq<Block>): (rows: seq<seq<string>>)
    ensures |rows| == |bs|
  {
    seq(|bs|, k requires 0 <= k < |bs| => bs[k].seqs)
  }

  /** `total_lengths` once blocks `1 .. k - 1` are folded in: each block's counts are added to
      the totals so far, position by position over the block's own rows; an IndexError when a
      block has more rows than there are totals. */
  function TotalUpTo(rows: seq<seq<string>>, k: nat): Result<seq<int>>
    requires 1 <= k <= |rows|
  {
    if k == 1 then Ok(UngappedCounts(rows[0]))
    else
      var prev :- TotalUpTo(rows, k - 1);
      var ls := UngappedCounts(rows[k - 1]);
      if |prev| < |ls| then Err(IndexOutOfRange)
      else Ok(seq(|ls|, i requires 0 <= i < |ls| => prev[i] + ls[i]))
  }

  /** What `calc_total_length` returns: an IndexError on an empty list of blocks. */
  function TotalLength(rows: seq<seq<string>>): Result<seq<int>> {
    if |rows| == 0 then Err(IndexOutOfRange) else TotalUpTo(rows, |rows|)
  }

  lemma {:induction false} TotalUpToErr(rows: seq<seq<string>>, k: nat, m: nat)
    requires 1 <= k <= m <= |rows| && TotalUpTo(rows, k).Err?
    ensures TotalUpTo(rows, m) == TotalUpTo(rows, k)
    decreases m
  {
    if k < m {
      TotalUpToErr(rows, k, m - 1);
    }
  }

  /** `calc_total_length(clustal_res_list)`. */
  method CalcTotalLength(blocks: seq<ClustalwResidues>) returns (r: Result<seq<int>>)
    ensures r == TotalLength(RowsOf(Views(blocks)))
  {
    ghost var rows := RowsOf(Views(blocks));
    if |blocks| == 0 {
      return Err(IndexOutOfRange);
    }
    var total := blocks[0].UngappedCount();
    for k := 1 to |blocks|
      invariant TotalUpTo(rows, k) == Ok(total)
    {
      var ls := blocks[k].UngappedCount();
      if |total| < |ls| {
        TotalUpToErr(rows, k + 1, |rows|);
        return Err(IndexOutOfRange);
      }
      var sums := total;
      total := seq(|ls|, i requires 0 <= i < |ls| => sums[i] + ls[i]);
    }
    return Ok(total);
  }

  lemma {:induction false} TotalUpToIsOffset(bs: seq<Block>, n: nat, k: nat)
    requires 1 <= k <= |bs| && forall l :: 0 <= l < |bs| ==> WellFormed(bs[l], n)
    ensures TotalUpTo(RowsOf(bs), k).Ok?
    ensures |TotalUpTo(RowsOf(bs), k).value| == n
    ensures forall s :: 0 <= s < n ==> TotalUpTo(RowsOf(bs), k).value[s] == Offset(bs, k, s)
    decreases k
  {
    var rows := RowsOf(bs);
    assert WellFormed(bs[k - 1], n);
    assert rows[k - 1] == bs[k - 1].seqs;
    if k == 1 {
      forall s | 0 <= s < n
        ensures TotalUpTo(rows, 1).value[s] == Offset(bs, 1, s)
      {
        assert Offset(bs, 0, s) == 0;
      }
    } else {
      TotalUpToIsOffset(bs, n, k - 1);
    }
  }

  /** The totals are, for each sequence, its number of residues over all blocks: the running
      start index the last block leaves behind. */
  lemma TotalIsResidueCount(lines: seq<string>)
    requires ReadClustalw(lines).Ok?
    ensures var bs := ReadClustalw(lines).value;
            && TotalLength(RowsOf(bs)).Ok?
            && |TotalLength(RowsOf(bs)).value| == bs[0].noSeq
            && forall s :: 0 <= s < bs[0].noSeq ==> TotalLength(RowsOf(bs)).value[s] == Offset(bs, |bs|, s)
  {
    var bs := ReadClustalw(lines).value;
    TotalUpToIsOffset(bs, bs[0].noSeq, |bs|);
  }

  // ------------------------------------------------------------ interval pairs

  /** The pairs row `i` of block `b` forms with rows `i + 1 .. j - 1`: rows whose start equals
      their end are skipped, the others are gap-scanned against row `i` and each run becomes a
      pair offset by the two rows' starts. */
  function PairsUpTo(names: seq<string>, b: Block, ends: seq<int>, i: nat, j: nat): Result<seq<(Ival, Ival)>>
    requires WellFormed(b, |names|) && |ends| == |names| && i < j <= |names|
    decreases j
  {
    if j == i + 1 then Ok([])
    else
      var prev :- PairsUpTo(names, b, ends, i, j - 1);
      if b.starts[j - 1] == ends[j - 1] then Ok(prev)
      else
        var runs :- IntervalList(b.seqs[i], b.seqs[j - 1]);
        Ok(prev + RunPairs(runs, names[i], b.starts[i], names[j - 1], b.starts[j - 1]))
  }

  /** The list yielded for row `i` of a block: empty when the row's start equals its end. */
  function RowIvals(names: seq<string>, b: Block, ends: seq<int>, i: nat): Result<seq<(Ival, Ival)>>
    requires WellFormed(b, |names|) && |ends| == |names| && i < |names|
  {
    if b.starts[i] == ends[i] then Ok([]) else PairsUpTo(names, b, ends, i, |names|)
  }

  /** The lists yielded for rows `0 .. i - 1` of a block, one per row. */
  function BlockIvals(names: seq<string>, b: Block, ends: seq<int>, i: nat): (r: Result<seq<seq<(Ival, Ival)>>>)
    requires WellFormed(b, |names|) && |ends| == |names| && i <= |names|
    ensures r.Ok? ==> |r.value| == i
    ensures r.Ok? ==> forall m {:trigger RowIvals(names, b, ends, m)} :: 0 <= m < i ==> RowIvals(names, b, ends, m) == Ok(r.value[m])
  {
    if i == 0 then Ok([])
    else
      var prev :- BlockIvals(names, b, ends, i - 1);
      var row :- RowIvals(names, b, ends, i - 1);
      Ok(prev + [row])
  }

  /** The lists yielded for blocks `0 .. k - 1`. */
  function IvalsUpTo(names: seq<string>, bs: seq<Block>, k: nat): (r: Result<seq<seq<(Ival, Ival)>>>)
    requires k <= |bs| && forall l :: 0 <= l < |bs| ==> WellFormed(bs[l], |names|)
  {
    if k == 0 then Ok([])
    else
      var prev :- IvalsUpTo(names, bs, k - 1);
      var ends :- EndIndices(bs[k - 1]);
      var lists :- BlockIvals(names, bs[k - 1], ends, |names|);
      Ok(prev + lists)
  }

  /** What `build_clustalw_ivals(lines, seqDb)` yields, with the names of the first block used
      for every block. */
  function ClustalwIvals(lines: seq<string>): Result<seq<seq<(Ival, Ival)>>> {
    var bs :- ReadClustalw(lines);
    IvalsUpTo(bs[0].names, bs, |bs|)
  }

  lemma {:induction false} PairsUpToErr(names: seq<string>, b: Block, ends: seq<int>, i: nat, j: nat, m: nat)
    requires WellFormed(b, |names|) && |ends| == |names| && i < j <= m <= |names|
    requires PairsUpTo(names, b, ends, i, j).Err?
    ensures PairsUpTo(names, b, ends, i, m) == PairsUpTo(names, b, ends, i, j)
    decreases m
  {
    if j < m {
      PairsUpToErr(names, b, ends, i, j, m - 1);
    }
  }

  lemma {:induction false} BlockIvalsErr(names: seq<string>, b: Block, ends: seq<int>, i: nat, m: nat)
    requires WellFormed(b, |names|) && |ends| == |names| && i <= m <= |names|
    requires BlockIvals(names, b, ends, i).Err?
    ensures BlockIvals(names, b, ends, m) == BlockIvals(names, b, ends, i)
    decreases m
  {
    if i < m {
      BlockIvalsErr(names, b, ends, i, m - 1);
    }
  }

  lemma {:induction false} IvalsUpToErr(names: seq<string>, bs: seq<Block>, k: nat, m: nat)
    requires k <= m <= |bs| && forall l :: 0 <= l < |bs| ==> WellFormed(bs[l], |names|)
    requires IvalsUpTo(names, bs, k).Err?
    ensures IvalsUpTo(names, bs, m) == IvalsUpTo(names, bs, k)
    decreases m
  {
    if k < m {
      IvalsUpToErr(names, bs, k, m - 1);
    }
  }

  /** The list for row `i` (the `j` loop and the run loop of `build_clustalw_ivals`). */
  method BuildRowIvals(names: seq<string>, b: Block, ends: seq<int>, i: nat) returns (r: Result<seq<(Ival, Ival)>>)
    requires WellFormed(b, |names|) && |ends| == |names| && i < |names|
    ensures r == RowIvals(names, b, ends, i)
  {
    var ivals: seq<(Ival, Ival)> := [];
    var start1, stop1 := b.starts[i], ends[i];
    if start1 != stop1 {
      for j := i + 1 to |names|
        invariant PairsUpTo(names, b, ends, i, j) == Ok(ivals)
      {
        var start2, stop2 := b.starts[j], ends[j];
        if start2 != stop2 {
          var intervals := BuildIntervalList(b.seqs[i], b.seqs[j]);
          if intervals.Err? {
            PairsUpToErr(names, b, ends, i, j + 1, |names|);
            return Err(intervals.error);
          }
          ivals := AppendRunPairs(ivals, intervals.value, names[i], start1, names[j], start2);
        }
      }
    }
    return Ok(ivals);
  }

  /** The lists for every row of a block. */
  method BuildBlockIvals(names: seq<string>, b: Block, ends: seq<int>) returns (r: Result<seq<seq<(Ival, Ival)>>>)
    requires WellFormed(b, |names|) && |ends| == |names|
    ensures r == BlockIvals(names, b, ends, |names|)
  {
    var lists: seq<seq<(Ival, Ival)>> := [];
    for i := 0 to |names|
      invariant BlockIvals(names, b, ends, i) == Ok(lists)
    {
      var row := BuildRowIvals(names, b, ends, i);
      if row.Err? {
        BlockIvalsErr(names, b, ends, i + 1, |names|);
        return Err(row.error);
      }
      lists := lists + [row.value];
    }
    return Ok(lists);
  }

  /** One step of `IvalsUpTo`: the lists of block `k` follow those of the blocks before it. */
  lemma IvalsUpToStep(names: seq<string>, bs: seq<Block>, k: nat, out: seq<seq<(Ival, Ival)>>)
    requires k < |bs| && forall l :: 0 <= l < |bs| ==> WellFormed(bs[l], |names|)
    requires IvalsUpTo(names, bs, k) == Ok(out)
    ensures EndIndices(bs[k]).Ok? && |EndIndices(bs[k]).value| == |names|
    ensures var ends := EndIndices(bs[k]).value;
            IvalsUpTo(names, bs, k + 1) == Prepend(out, BlockIvals(names, bs[k], ends, |names|))
  {
    assert WellFormed(bs[k], |names|);
  }

  /** A successful `IvalsUpTo(k)` is that of the blocks before the last one followed by the
      lists of the last one, one per row. */
  lemma IvalsUpToLast(names: seq<string>, bs: seq<Block>, k: nat)
    requires 0 < k <= |bs| && forall l :: 0 <= l < |bs| ==> WellFormed(bs[l], |names|)
    requires IvalsUpTo(names, bs, k).Ok?
    ensures IvalsUpTo(names, bs, k - 1).Ok?
    ensures EndIndices(bs[k - 1]).Ok? && |EndIndices(bs[k - 1]).value| == |names|
    ensures var lists := BlockIvals(names, bs[k - 1], EndIndices(bs[k - 1]).value, |names|);
            && lists.Ok? && |lists.value| == |names|
            && IvalsUpTo(names, bs, k).value == IvalsUpTo(names, bs, k - 1).value + lists.value
  {
    assert WellFormed(bs[k - 1], |names|);
  }

  /** The loop's step, once the lists of block `k` are known: they extend the output, or
      their failure is the failure of the whole call. */
  lemma IvalsUpToNext(names: seq<string>, bs: seq<Block>, k: nat, out: seq<seq<(Ival, Ival)>>,
                      lists: Result<seq<seq<(Ival, Ival)>>>)
    requires k < |bs| && forall l :: 0 <= l < |bs| ==> WellFormed(bs[l], |names|)
    requires IvalsUpTo(names, bs, k) == Ok(out)
    requires EndIndices(bs[k]).Ok? && |EndIndices(bs[k]).value| == |names|
    requires lists == BlockIvals(names, bs[k], EndIndices(bs[k]).value, |names|)
    ensures lists.Ok? ==> IvalsUpTo(names, bs, k + 1) == Ok(out + lists.value)
    ensures lists.Err? ==> IvalsUpTo(names, bs, |bs|) == Err(lists.error)
  {
    IvalsUpToStep(names, bs, k, out);
    if lists.Err? {
      IvalsUpToErr(names, bs, k + 1, |bs|);
    }
  }

  /** One turn of the block loop of `build_clustalw_ivals`: the end indices of the block,
      then the lists of its rows. */
  method BuildIvalsOfBlock(names: seq<string>, block: ClustalwResidues) returns (r: Result<seq<seq<(Ival, Ival)>>>)
    requires WellFormed(block.View(), |names|)
    ensures EndIndices(block.View()).Ok? && |EndIndices(block.View()).value| == |names|
    ensures r == BlockIvals(names, block.View(), EndIndices(block.View()).value, |names|)
  {
    var ends := block.GetEndIndices();
    r := BuildBlockIvals(names, block.View(), ends.value);
  }

  /** The block loop of `build_clustalw_ivals` over blocks read already. */
  method BuildIvalsOfBlocks(blocks: seq<ClustalwResidues>, ghost bs: seq<Block>) returns (r: Result<seq<seq<(Ival, Ival)>>>)
    requires |blocks| > 0 && bs == Views(blocks)
    requires forall l :: 0 <= l < |bs| ==> WellFormed(bs[l], |blocks[0].seqNames|)
    ensures r == IvalsUpTo(blocks[0].seqNames, bs, |blocks|)
  {
    var names := blocks[0].seqNames;
    var out: seq<seq<(Ival, Ival)>> := [];
    for k := 0 to |blocks|
      invariant IvalsUpTo(names, bs, k) == Ok(out)
    {
      assert blocks[k].View() == bs[k];
      var lists := BuildIvalsOfBlock(names, blocks[k]);
      IvalsUpToNext(names, bs, k, out, lists);
      if lists.Err? {
        return Err(lists.error);
      }
      out := out + lists.value;
    }
    return Ok(out);
  }

  /** `build_clustalw_ivals(lines, seqDb)`, with every yielded list collected in order. */
  method BuildClustalwIvals(lines: seq<string>) returns (r: Result<seq<seq<(Ival, Ival)>>>)
    ensures r == ClustalwIvals(lines)
  {
    var read := ReadClustalwBlocks(lines);
    if read.Err? {
      return Err(read.error);
    }
    ghost var bs := ReadClustalw(lines).value;
    assert read.value[0].View() == bs[0];
    r := BuildIvalsOfBlocks(read.value, bs);
  }

  // ------------------------------------------------------------ properties of the pairs

  /** Pair `p` comes from a run of the gap scan of row `i` against a later row `j` of the
      block whose start differs from its end. */
  ghost predicate FromRow(names: seq<string>, b: Block, ends: seq<int>, i: nat, j: nat, p: (Ival, Ival))
    requires WellFormed(b, |names|) && |ends| == |names| && i < |names|
  {
    && i < j < |names| && b.starts[j] != ends[j]
    && IntervalList(b.seqs[i], b.seqs[j]).Ok?
    && p in RunPairs(IntervalList(b.seqs[i], b.seqs[j]).value, names[i], b.starts[i], names[j], b.starts[j])
  }

  lemma {:induction false} PairsUpToSound(names: seq<string>, b: Block, ends: seq<int>, i: nat, j: nat)
    requires WellFormed(b, |names|) && |ends| == |names| && i < j <= |names|
    requires PairsUpTo(names, b, ends, i, j).Ok?
    ensures forall p :: p in PairsUpTo(names, b, ends, i, j).value ==>
              exists j': nat :: j' < j && FromRow(names, b, ends, i, j', p)
    decreases j
  {
    if j > i + 1 {
      PairsUpToSound(names, b, ends, i, j - 1);
      var prev := PairsUpTo(names, b, ends, i, j - 1).value;
      if b.starts[j - 1] != ends[j - 1] {
        var added := RunPairs(IntervalList(b.seqs[i], b.seqs[j - 1]).value, names[i], b.starts[i], names[j - 1], b.starts[j - 1]);
        assert PairsUpTo(names, b, ends, i, j).value == prev + added;
        forall p | p in added
          ensures FromRow(names, b, ends, i, j - 1, p)
        {
        }
      }
    }
  }

  lemma {:induction false} PairsUpToComplete(names: seq<string>, b: Block, ends: seq<int>, i: nat, j: nat, j': nat)
    requires WellFormed(b, |names|) && |ends| == |names| && i < j' < j <= |names|
    requires PairsUpTo(names, b, ends, i, j).Ok? && b.starts[j'] != ends[j']
    ensures IntervalList(b.seqs[i], b.seqs[j']).Ok?
    ensures forall p :: p in RunPairs(IntervalList(b.seqs[i], b.seqs[j']).value, names[i], b.starts[i], names[j'], b.starts[j'])
              ==> p in PairsUpTo(names, b, ends, i, j).value
    decreases j
  {
    if j' < j - 1 {
      PairsUpToComplete(names, b, ends, i, j - 1, j');
    }
  }

  /** The list for row `i` is empty when the row's start equals its end; otherwise it holds
      exactly the pairs of the runs of row `i` against every later row whose start differs
      from its end. */
  lemma RowIvalsExact(names: seq<string>, b: Block, ends: seq<int>, i: nat)
    requires WellFormed(b, |names|) && |ends| == |names| && i < |names|
    requires RowIvals(names, b, ends, i).Ok?
    ensures b.starts[i] == ends[i] ==> RowIvals(names, b, ends, i).value == []
    ensures forall p :: p in RowIvals(names, b, ends, i).value ==> exists j: nat :: FromRow(names, b, ends, i, j, p)
    ensures b.starts[i] != ends[i] ==>
              forall j: nat, p :: FromRow(names, b, ends, i, j, p) ==> p in RowIvals(names, b, ends, i).value
  {
    if b.starts[i] != ends[i] {
      PairsUpToSound(names, b, ends, i, |names|);
      forall j: nat, p | FromRow(names, b, ends, i, j, p)
        ensures p in RowIvals(names, b, ends, i).value
      {
        PairsUpToComplete(names, b, ends, i, |names|, j);
      }
    }
  }

  /** Every pair of a row's list covers equally many residues of two named sequences, and each
      side lies inside its row's inclusive range `[start, end]` of the block (the slice
      `seqDb[name][start:end + 1]`). */
  lemma RowIvalsInsideRows(names: seq<string>, b: Block, ends: seq<int>, i: nat, p: (Ival, Ival))
    requires WellFormed(b, |names|) && ends == EndIndices(b).value && i < |names|
    requires RowIvals(names, b, ends, i).Ok? && p in RowIvals(names, b, ends, i).value
    ensures p.0.name == names[i] && b.starts[i] <= p.0.start < p.0.stop <= ends[i] + 1
    ensures exists j :: i < j < |names| && p.1.name == names[j] && b.starts[j] <= p.1.start < p.1.stop <= ends[j] + 1
    ensures p.0.stop - p.0.start == p.1.stop - p.1.start
  {
    RowIvalsExact(names, b, ends, i);
    var j: nat :| FromRow(names, b, ends, i, j, p);
    var a, c := b.seqs[i], b.seqs[j];
    PairsOfRuns(a, c, names[i], b.starts[i], names[j], b.starts[j]);
    var ps := RunPairs(IntervalList(a, c).value, names[i], b.starts[i], names[j], b.starts[j]);
    var q :| 0 <= q < |ps| && ps[q] == p;
    EndIndexSpansResidues(b, i);
    EndIndexSpansResidues(b, j);
    UngappedIsResidues(b.seqs, i);
    UngappedIsResidues(b.seqs, j);
  }

  // ------------------------------------------------------------ layout and success

  lemma MulStep(a: nat, b: nat, n: nat, i: nat)
    requires a < b && i < n
    ensures 0 <= a * n + i < b * n
  {
    assert (a + 1) * n <= b * n by {
      assert b * n == (a + 1) * n + (b - a - 1) * n;
    }
  }

  lemma {:induction false} IvalsAt(names: seq<string>, bs: seq<Block>, k: nat, k': nat, i: nat)
    requires k <= |bs| && forall l :: 0 <= l < |bs| ==> WellFormed(bs[l], |names|)
    requires IvalsUpTo(names, bs, k).Ok? && k' < k && i < |names|
    ensures |IvalsUpTo(names, bs, k).value| == k * |names| && 0 <= k' * |names| + i < k * |names|
    ensures EndIndices(bs[k']).Ok? && |EndIndices(bs[k']).value| == |names|
    ensures RowIvals(names, bs[k'], EndIndices(bs[k']).value, i) == Ok(IvalsUpTo(names, bs, k).value[k' * |names| + i])
    decreases k
  {
    var n := |names|;
    IvalsUpToLast(names, bs, k);
    var prev := IvalsUpTo(names, bs, k - 1).value;
    var ends := EndIndices(bs[k - 1]).value;
    var lists := BlockIvals(names, bs[k - 1], ends, n).value;
    IvalsUpToLength(names, bs, k - 1);
    IndexSplit(prev, lists, k - 1, k, n, k', i);
    if k' < k - 1 {
      IvalsAt(names, bs, k - 1, k', i);
      assert IvalsUpTo(names, bs, k).value[k' * n + i] == prev[k' * n + i];
    } else {
      assert RowIvals(names, bs[k - 1], ends, i) == Ok(lists[i]);
      assert bs[k'] == bs[k - 1];
    }
  }

  /** Every block adds one list per sequence. */
  lemma {:induction false} IvalsUpToLength(names: seq<string>, bs: seq<Block>, k: nat)
    requires k <= |bs| && forall l :: 0 <= l < |bs| ==> WellFormed(bs[l], |names|)
    requires IvalsUpTo(names, bs, k).Ok?
    ensures |IvalsUpTo(names, bs, k).value| == k * |names|
    decreases k
  {
    if k > 0 {
      IvalsUpToLast(names, bs, k);
      IvalsUpToLength(names, bs, k - 1);
      MulSucc(k - 1, |names|);
    }
  }

  /** `a` groups of `n` followed by one more are `a + 1` groups of `n`. */
  lemma GroupsLength<T>(prev: seq<T>, last: seq<T>, a: nat, b: nat, n: nat)
    requires b == a + 1 && |prev| == a * n && |last| == n
    ensures |prev + last| == b * n
  {
    MulSucc(a, n);
  }

  /** Position `a' * n + i` of `b` groups of `n`, split into the groups before the last one
      and the last one. */
  lemma IndexSplit<T>(prev: seq<T>, last: seq<T>, a: nat, b: nat, n: nat, a': nat, i: nat)
    requires b == a + 1 && |prev| == a * n && |last| == n && a' <= a && i < n
    ensures |prev + last| == b * n && 0 <= a' * n + i < b * n
    ensures a' < a ==> a' * n + i < a * n && (prev + last)[a' * n + i] == prev[a' * n + i]
    ensures a' == a ==> (prev + last)[a' * n + i] == last[i]
  {
    GroupsLength(prev, last, a, b, n);
    MulStep(a', b, n, i);
    if a' < a {
      MulStep(a', a, n, i);
    }
  }

  lemma MulSucc(a: nat, n: nat)
    ensures a * n + n == (a + 1) * n
  {
  }

  /** Row `i` of block `b` yields the list `iv`. */
  ghost predicate RowYields(names: seq<string>, b: Block, i: nat, iv: seq<(Ival, Ival)>) {
    && WellFormed(b, |names|) && i < |names|
    && EndIndices(b).Ok? && |EndIndices(b).value| == |names|
    && RowIvals(names, b, EndIndices(b).value, i) == Ok(iv)
  }

  /** `build_clustalw_ivals` yields one list per row of every block, block by block: the list
      at position `k * N + i` is the list of row `i` of block `k`. */
  lemma ClustalwIvalsLayout(lines: seq<string>, bs: seq<Block>, ivs: seq<seq<(Ival, Ival)>>, k: nat, i: nat)
    requires ReadClustalw(lines) == Ok(bs) && ClustalwIvals(lines) == Ok(ivs)
    requires k < |bs| && i < bs[0].noSeq
    ensures |ivs| == |bs| * bs[0].noSeq && 0 <= k * bs[0].noSeq + i < |ivs|
    ensures RowYields(bs[0].names, bs[k], i, ivs[k * bs[0].noSeq + i])
  {
    var names, n := bs[0].names, bs[0].noSeq;
    assert WellFormed(bs[0], n);
    assert IvalsUpTo(names, bs, |bs|) == Ok(ivs);
    IvalsAt(names, bs, |bs|, k, i);
    assert ivs[k * n + i] == IvalsUpTo(names, bs, |bs|).value[k * |names| + i];
  }

  /** Rows of one block that all have the same length never make the gap scan fail. */
  ghost predicate EvenRows(b: Block) {
    forall i, j :: 0 <= i < |b.seqs| && 0 <= j < |b.seqs| ==> |b.seqs[i]| == |b.seqs[j]|
  }

  lemma {:induction false} PairsUpToSucceeds(names: seq<string>, b: Block, ends: seq<int>, i: nat, j: nat)
    requires WellFormed(b, |names|) && |ends| == |names| && i < j <= |names| && EvenRows(b)
    ensures PairsUpTo(names, b, ends, i, j).Ok?
    decreases j
  {
    if j > i + 1 {
      PairsUpToSucceeds(names, b, ends, i, j - 1);
      EqualLengthsSucceed(b.seqs[i], b.seqs[j - 1]);
    }
  }

  lemma {:induction false} BlockIvalsSucceeds(names: seq<string>, b: Block, ends: seq<int>, i: nat)
    requires WellFormed(b, |names|) && |ends| == |names| && i <= |names| && EvenRows(b)
    ensures BlockIvals(names, b, ends, i).Ok?
    decreases i
  {
    if i > 0 {
      BlockIvalsSucceeds(names, b, ends, i - 1);
      PairsUpToSucceeds(names, b, ends, i - 1, |names|);
    }
  }

  lemma {:induction false} IvalsUpToSucceeds(names: seq<string>, bs: seq<Block>, k: nat)
    requires k <= |bs| && forall l :: 0 <= l < |bs| ==> WellFormed(bs[l], |names|) && EvenRows(bs[l])
    ensures IvalsUpTo(names, bs, k).Ok?
    decreases k
  {
    if k > 0 {
      IvalsUpToSucceeds(names, bs, k - 1);
      assert WellFormed(bs[k - 1], |names|) && EvenRows(bs[k - 1]);
      BlockIvalsSucceeds(names, bs[k - 1], EndIndices(bs[k - 1]).value, |names|);
    }
  }

  /** A file that reads without error and whose blocks have rows of one length per block
      yields its lists without error. */
  lemma ClustalwIvalsSucceed(lines: seq<string>)
    requires ReadClustalw(lines).Ok?
    requires forall l :: 0 <= l < |ReadClustalw(lines).value| ==> EvenRows(ReadClustalw(lines).value[l])
    ensures ClustalwIvals(lines).Ok?
  {
    var bs := ReadClustalw(lines).value;
    IvalsUpToSucceeds(bs[0].names, bs, |bs|);
  }
}
