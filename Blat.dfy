/** The BLAT PSL parser.

    A BLAT output buffer starts with a `psLayout` header of five lines; every later line is
    one gapped alignment, its fields separated by tabs. The parser reads the strand, the two
    sequence names, the overall span on both sequences and three comma-terminated lists
    (block sizes, query starts, target starts), and computes each block's ends by adding its
    size to its starts. `build_blat_ivals` then turns each alignment into one list of
    `(name, start, stop, orientation)` pairs, one pair per ungapped block. */
module Blat {
  import opened Results
  import opened PyText

  const BlatHeader := "psLayout"
  const FormatCheck := "buf[0:8] == 'psLayout'"

  // ------------------------------------------------------------ entities

  /** One ungapped block: `[qStart, qEnd)` on the query against `[tStart, tEnd)` on the
      target, with the alignment's two-character strand. */
  datatype UngappedBlock = UngappedBlock(qStart: int, qEnd: int, tStart: int, tEnd: int, orient: string)

  /** `len(block)`: the length on the target. */
  function Len(b: UngappedBlock): int {
    b.tEnd - b.tStart
  }

  /** `convert_to_text`: the query and target stretches of text. */
  function ConvertToText(b: UngappedBlock, seq1: string, seq2: string): (r: (string, string))
    ensures 0 <= b.qStart <= b.qEnd <= |seq1| ==> r.0 == seq1[b.qStart..b.qEnd]
    ensures 0 <= b.tStart <= b.tEnd <= |seq2| ==> r.1 == seq2[b.tStart..b.tEnd]
  {
    (Slice(seq1, b.qStart, b.qEnd), Slice(seq2, b.tStart, b.tEnd))
  }

  /** A gapped local alignment: its overall span on both sequences, their names, the strand
      and the ungapped blocks. */
  datatype LocalAlignment = LocalAlignment(
    qStart: int, qEnd: int, tStart: int, tEnd: int,
    qName: string, tName: string,
    orient: string,
    blocks: seq<UngappedBlock>)

  // ------------------------------------------------------------ block ends

  /** `calculate_end`: `starts[i] + sizes[i]` for every block size; fewer starts than sizes
      make the indexing fail. */
  function Ends(starts: seq<int>, sizes: seq<int>): Result<seq<int>> {
    if |starts| < |sizes| then Err(IndexOutOfRange)
    else Ok(seq(|sizes|, i requires 0 <= i < |sizes| => starts[i] + sizes[i]))
  }

  method CalculateEnd(starts: seq<int>, sizes: seq<int>) returns (r: Result<seq<int>>)
    ensures r == Ends(starts, sizes)
    ensures r.Ok? <==> |sizes| <= |starts|
    ensures r.Ok? ==> |r.value| == |sizes| && forall i :: 0 <= i < |sizes| ==> r.value[i] - starts[i] == sizes[i]
  {
    var ends: seq<int> := [];
    for i := 0 to |sizes|
      invariant |ends| == i
      invariant i <= |starts|
      invariant forall k :: 0 <= k < i ==> ends[k] == starts[k] + sizes[k]
    {
      if i >= |starts| {
        return Err(IndexOutOfRange);
      }
      ends := ends + [starts[i] + sizes[i]];
    }
    assert ends == seq(|sizes|, i requires 0 <= i < |sizes| => starts[i] + sizes[i]);
    r := Ok(ends);
  }

  // ------------------------------------------------------------ one record

  /** A one-character strand stands for both sequences; a two-character one is kept. */
  function Orient(strand: string): string {
    if |strand| == 1 then strand + strand else strand
  }

  /** A strand of one or two characters becomes two: the query's, then the target's. */
  lemma OrientPerSequence(strand: string)
    requires |strand| == 1 || |strand| == 2
    ensures |Orient(strand)| == 2
    ensures Orient(strand)[0] == strand[0] && Orient(strand)[1] == strand[|strand| - 1]
  {
  }

  /** `map(int, field.strip(',').split(','))`: a comma-separated list of integers, with the
      commas at either end dropped. */
  function CommaInts(field: string): Result<seq<int>> {
    ParseInts(Split(StripChars(field, {','}), ","))
  }

  /** A list written as PSL writes it, every number followed by a comma, reads back as itself. */
  lemma CommaIntsRoundTrip(ns: seq<int>)
    requires |ns| > 0
    ensures CommaInts(Join(IntStrings(ns), ",") + ",") == Ok(ns)
  {
    var ws := IntStrings(ns);
    ParseIntsRoundTrip(ns);
    forall k | 0 <= k < |ws|
      ensures ',' !in ws[k]
    {
      IntToStringChars(ns[k]);
    }
    var s := Join(ws, ",");
    JoinEnds(ws, ",");
    assert ws[0][0] in ws[0] && ws[|ws| - 1][|ws[|ws| - 1]| - 1] in ws[|ws| - 1];
    StripTrailingComma(s);
    SplitOfJoin(ws, ',');
  }

  lemma StripTrailingComma(s: string)
    requires s != [] && s[0] != ',' && s[|s| - 1] != ','
    ensures StripChars(s + ",", {','}) == s
  {
    assert (s + ",")[..|s|] == s;
    assert LStrip(s + ",", {','}) == s + ",";
    assert RStrip(s + ",", {','}) == RStrip(s, {','});
    assert RStrip(s, {','}) == s;
  }

  /** The blocks of one record: query start, query end, target start and target end of
      block `i` come from position `i` of the four lists; a list shorter than the query
      starts makes the indexing fail. */
  function BlockList(qStarts: seq<int>, tStarts: seq<int>, qEnds: seq<int>, tEnds: seq<int>, orient: string): Result<seq<UngappedBlock>> {
    if |tStarts| < |qStarts| || |qEnds| < |qStarts| || |tEnds| < |qStarts| then Err(IndexOutOfRange)
    else Ok(seq(|qStarts|, i requires 0 <= i < |qStarts| => UngappedBlock(qStarts[i], qEnds[i], tStarts[i], tEnds[i], orient)))
  }

  /** The block ends, then the blocks. */
  function Blocks(qStarts: seq<int>, tStarts: seq<int>, sizes: seq<int>, orient: string): Result<seq<UngappedBlock>> {
    var qEnds :- Ends(qStarts, sizes);
    var tEnds :- Ends(tStarts, sizes);
    BlockList(qStarts, tStarts, qEnds, tEnds, orient)
  }

  method BuildBlocks(qStarts: seq<int>, tStarts: seq<int>, blockSize: seq<int>, orient: string) returns (r: Result<seq<UngappedBlock>>)
    ensures r == Blocks(qStarts, tStarts, blockSize, orient)
  {
    var qEnds :- CalculateEnd(qStarts, blockSize);
    var tEnds :- CalculateEnd(tStarts, blockSize);
    var blocks: seq<UngappedBlock> := [];
    for i := 0 to |qStarts|
      invariant |blocks| == i
      invariant i <= |tStarts| && i <= |qEnds| && i <= |tEnds|
      invariant forall k :: 0 <= k < i ==> blocks[k] == UngappedBlock(qStarts[k], qEnds[k], tStarts[k], tEnds[k], orient)
    {
      if i >= |tStarts| || i >= |qEnds| || i >= |tEnds| {
        return Err(IndexOutOfRange);
      }
      blocks := blocks + [UngappedBlock(qStarts[i], qEnds[i], tStarts[i], tEnds[i], orient)];
    }
    assert blocks == seq(|qStarts|, i requires 0 <= i < |qStarts| => UngappedBlock(qStarts[i], qEnds[i], tStarts[i], tEnds[i], orient));
    r := Ok(blocks);
  }

  /** The blocks are built exactly when there are as many sizes as query starts and no more
      than target starts; block `i` then runs for `sizes[i]` from both of its starts. */
  lemma BlocksShape(qStarts: seq<int>, tStarts: seq<int>, sizes: seq<int>, orient: string)
    ensures Blocks(qStarts, tStarts, sizes, orient).Ok? <==> |qStarts| == |sizes| <= |tStarts|
    ensures Blocks(qStarts, tStarts, sizes, orient).Ok? ==>
              var bs := Blocks(qStarts, tStarts, sizes, orient).value;
              && |bs| == |qStarts|
              && forall i :: 0 <= i < |bs| ==>
                   bs[i] == UngappedBlock(qStarts[i], qStarts[i] + sizes[i], tStarts[i], tStarts[i] + sizes[i], orient)
  {
  }

  /** `int(record[i])`. */
  function IntField(record: seq<string>, i: nat): Result<int> {
    var text :- At(record, i);
    ParseInt(text)
  }

  /** `record[i].strip(',').split(',')` read as integers. */
  function ListField(record: seq<string>, i: nat): Result<seq<int>> {
    var text :- At(record, i);
    CommaInts(text)
  }

  /** The body of the loop of `parse_blat` for one tab-separated record, its fields read in the
      order the source reads them. */
  function RecordAlignment(record: seq<string>): Result<LocalAlignment> {
    var strand :- At(record, 8);
    var orient := Orient(strand);
    var qName :- At(record, 9);
    var tName :- At(record, 13);
    var qStart :- IntField(record, 11);
    var tStart :- IntField(record, 15);
    var qEnd :- IntField(record, 12);
    var tEnd :- IntField(record, 16);
    var blockCount :- IntField(record, 17);
    var sizes :- ListField(record, 18);
    var qStarts :- ListField(record, 19);
    var tStarts :- ListField(record, 20);
    var blocks :- Blocks(qStarts, tStarts, sizes, orient);
    Ok(LocalAlignment(qStart, qEnd, tStart, tEnd, qName, tName, orient, blocks))
  }

  method ParseRecord(record: seq<string>) returns (r: Result<LocalAlignment>)
    ensures r == RecordAlignment(record)
  {
    var strand :- At(record, 8);
    var orient;
    if |strand| == 1 {
      orient := strand + strand;
    } else {
      orient := strand;
    }
    var qName :- At(record, 9);
    var tName :- At(record, 13);
    var qStart :- IntField(record, 11);
    var tStart :- IntField(record, 15);
    var qEnd :- IntField(record, 12);
    var tEnd :- IntField(record, 16);
    var blockCount :- IntField(record, 17);
    var blockSize :- ListField(record, 18);
    var qStarts :- ListField(record, 19);
    var tStarts :- ListField(record, 20);
    var blocks :- BuildBlocks(qStarts, tStarts, blockSize, orient);
    r := Ok(LocalAlignment(qStart, qEnd, tStart, tEnd, qName, tName, orient, blocks));
  }

  /** A record that parses has all of its fields: the names are fields 9 and 13, the spans
      on the query and the target are read from fields 11, 12, 15 and 16, and the strand is
      field 8, doubled when it is one character. */
  lemma RecordFields(record: seq<string>)
    requires RecordAlignment(record).Ok?
    ensures |record| > 20
    ensures IntField(record, 17).Ok?
    ensures ListField(record, 18).Ok? && ListField(record, 19).Ok? && ListField(record, 20).Ok?
    ensures var al := RecordAlignment(record).value;
            && al.qName == record[9] && al.tName == record[13]
            && IntField(record, 11) == Ok(al.qStart) && IntField(record, 12) == Ok(al.qEnd)
            && IntField(record, 15) == Ok(al.tStart) && IntField(record, 16) == Ok(al.tEnd)
            && al.orient == Orient(record[8])
  {
  }

  /** A record that parses has one block per query start, there are as many block sizes as
      query starts, and block `i` spans `[qStarts[i], qStarts[i] + sizes[i])` on the query
      and `[tStarts[i], tStarts[i] + sizes[i])` on the target, so both sides have the same
      length. */
  lemma RecordBlocks(record: seq<string>)
    requires RecordAlignment(record).Ok?
    ensures ListField(record, 18).Ok? && ListField(record, 19).Ok? && ListField(record, 20).Ok?
    ensures var al := RecordAlignment(record).value;
            var sizes := ListField(record, 18).value;
            var qStarts := ListField(record, 19).value;
            var tStarts := ListField(record, 20).value;
            && |al.blocks| == |qStarts| == |sizes| <= |tStarts|
            && forall i :: 0 <= i < |al.blocks| ==>
                 al.blocks[i] == UngappedBlock(qStarts[i], qStarts[i] + sizes[i], tStarts[i], tStarts[i] + sizes[i], al.orient)
  {
    RecordFields(record);
    BlocksShape(ListField(record, 19).value, ListField(record, 20).value, ListField(record, 18).value, Orient(record[8]));
  }

  /** The converse: a record with every field present and readable and with as many block
      sizes as query starts, and no more than target starts, parses. */
  lemma RecordParses(record: seq<string>)
    requires |record| > 20
    requires IntField(record, 11).Ok? && IntField(record, 12).Ok? && IntField(record, 15).Ok?
    requires IntField(record, 16).Ok? && IntField(record, 17).Ok?
    requires ListField(record, 18).Ok? && ListField(record, 19).Ok? && ListField(record, 20).Ok?
    requires |ListField(record, 19).value| == |ListField(record, 18).value| <= |ListField(record, 20).value|
    ensures RecordAlignment(record).Ok?
  {
    BlocksShape(ListField(record, 19).value, ListField(record, 20).value, ListField(record, 18).value, Orient(record[8]));
  }

  // ------------------------------------------------------------ the whole buffer

  /** `[i.strip().split('\t') for i in buf.strip().split('\n')[5:]]`. */
  function Records(buf: string): (rs: seq<seq<string>>) {
    var lines := Drop(Split(Strip(buf), "\n"), 5);
    seq(|lines|, k requires 0 <= k < |lines| => Split(Strip(lines[k]), "\t"))
  }

  /** The alignments and the names after the records from `k` on have been parsed with
      `parse` and added to `acc`; the first record that fails fails the whole parse. */
  function CollectFrom(parse: seq<string> -> Result<LocalAlignment>, records: seq<seq<string>>, k: nat,
                       acc: (seq<LocalAlignment>, set<string>)): Result<(seq<LocalAlignment>, set<string>)>
    requires k <= |records|
    decreases |records| - k
  {
    if k == |records| then Ok(acc)
    else
      var al :- parse(records[k]);
      CollectFrom(parse, records, k + 1, (acc.0 + [al], acc.1 + {al.qName, al.tName}))
  }

  /** `parse_blat`: one alignment per record after the header, and the names they use. */
  function BlatAlignments(buf: string): Result<(seq<LocalAlignment>, set<string>)> {
    if Slice(buf, 0, 8) != BlatHeader then Err(AssertionFailed(FormatCheck))
    else CollectFrom(RecordAlignment, Records(buf), 0, ([], {}))
  }

  method ParseBlat(buf: string) returns (r: Result<(seq<LocalAlignment>, set<string>)>)
    ensures r == BlatAlignments(buf)
  {
    if Slice(buf, 0, 8) != BlatHeader {
      return Err(AssertionFailed(FormatCheck));
    }
    var records := Records(buf);
    var seqsNames: set<string> := {};
    var matches: seq<LocalAlignment> := [];
    for k := 0 to |records|
      invariant CollectFrom(RecordAlignment, records, 0, ([], {})) == CollectFrom(RecordAlignment, records, k, (matches, seqsNames))
    {
      var al := ParseRecord(records[k]);
      if al.Err? {
        return Err(al.error);
      }
      seqsNames := seqsNames + {al.value.qName, al.value.tName};
      matches := matches + [al.value];
    }
    r := Ok((matches, seqsNames));
  }

  /** What collecting adds to `acc`: one alignment per remaining record, each that record's
      parse, and the query and target names of each. */
  lemma {:induction false} CollectFromShape(parse: seq<string> -> Result<LocalAlignment>, records: seq<seq<string>>, k: nat,
                                            acc: (seq<LocalAlignment>, set<string>))
    requires k <= |records| && CollectFrom(parse, records, k, acc).Ok?
    ensures var (als, names) := CollectFrom(parse, records, k, acc).value;
            && |als| == |acc.0| + |records| - k
            && als[..|acc.0|] == acc.0
            && (forall m :: k <= m < |records| ==> parse(records[m]) == Ok(als[|acc.0| + m - k]))
            && forall n :: n in names <==>
                 n in acc.1 || exists m :: |acc.0| <= m < |als| && (n == als[m].qName || n == als[m].tName)
    decreases |records| - k
  {
    if k < |records| {
      var al := parse(records[k]).value;
      var acc' := (acc.0 + [al], acc.1 + {al.qName, al.tName});
      CollectFromShape(parse, records, k + 1, acc');
      var (als, names) := CollectFrom(parse, records, k, acc).value;
      assert als[..|acc'.0|] == acc'.0;
      assert als[..|acc.0|] == acc'.0[..|acc.0|];
      assert als[|acc.0|] == al;
      forall n
        ensures n in names <==> n in acc.1 || exists m :: |acc.0| <= m < |als| && (n == als[m].qName || n == als[m].tName)
      {
        if n == al.qName || n == al.tName {
          assert als[|acc.0|] == al;
        }
      }
    }
  }

  /** Collecting fails exactly when some remaining record fails, and then with the error of
      the first such record. */
  lemma {:induction false} CollectFromFails(parse: seq<string> -> Result<LocalAlignment>, records: seq<seq<string>>, k: nat,
                                            acc: (seq<LocalAlignment>, set<string>))
    requires k <= |records|
    ensures CollectFrom(parse, records, k, acc).Err? <==> exists m :: k <= m < |records| && parse(records[m]).Err?
    ensures CollectFrom(parse, records, k, acc).Err? ==>
              exists m :: k <= m < |records| && parse(records[m]) == Err(CollectFrom(parse, records, k, acc).error)
                && forall j :: k <= j < m ==> parse(records[j]).Ok?
    decreases |records| - k
  {
    if k < |records| {
      var r := parse(records[k]);
      if r.Ok? {
        var al := r.value;
        CollectFromFails(parse, records, k + 1, (acc.0 + [al], acc.1 + {al.qName, al.tName}));
      }
    }
  }

  /** A buffer that does not start with `psLayout` is rejected. Otherwise the parse yields one
      alignment per line after the first five of the stripped buffer, each the parse of that
      line's tab-separated fields. */
  lemma BlatShape(buf: string)
    ensures !StartsWith(buf, BlatHeader) ==> BlatAlignments(buf) == Err(AssertionFailed(FormatCheck))
    ensures BlatAlignments(buf).Ok? ==>
              var als := BlatAlignments(buf).value.0;
              && |als| == |Records(buf)|
              && forall m :: 0 <= m < |als| ==> RecordAlignment(Records(buf)[m]) == Ok(als[m])
  {
    SliceIsPrefix(buf, BlatHeader);
    if BlatAlignments(buf).Ok? {
      CollectFromShape(RecordAlignment, Records(buf), 0, ([], {}));
    }
  }

  /** The name set is exactly the query and target names of the alignments. */
  lemma BlatNames(buf: string)
    ensures BlatAlignments(buf).Ok? ==>
              var (als, names) := BlatAlignments(buf).value;
              forall n :: n in names <==> exists m :: 0 <= m < |als| && (n == als[m].qName || n == als[m].tName)
  {
    if BlatAlignments(buf).Ok? {
      CollectFromShape(RecordAlignment, Records(buf), 0, ([], {}));
    }
  }

  /** With the right header, the parse fails exactly when some record fails, and then with
      the error of the first such record. */
  lemma BlatFails(buf: string)
    requires StartsWith(buf, BlatHeader)
    ensures var records := Records(buf);
            && (BlatAlignments(buf).Err? <==> exists m :: 0 <= m < |records| && RecordAlignment(records[m]).Err?)
            && (BlatAlignments(buf).Err? ==>
                  exists m :: 0 <= m < |records| && RecordAlignment(records[m]) == Err(BlatAlignments(buf).error)
                    && forall j :: 0 <= j < m ==> RecordAlignment(records[j]).Ok?)
  {
    SliceIsPrefix(buf, BlatHeader);
    CollectFromFails(RecordAlignment, Records(buf), 0, ([], {}));
  }

  // ------------------------------------------------------------ intervals

  /** An interval of a named sequence with its orientation, in place of a sequence slice. */
  datatype Span = Span(name: string, start: int, stop: int, ori: int)

  /** `1 if c == '+' else -1`. */
  function StrandSign(c: char): (s: int)
    ensures s == 1 || s == -1
    ensures s == 1 <==> c == '+'
  {
    if c == '+' then 1 else -1
  }

  /** The pairs of one alignment's first `k` blocks; each block needs a two-character strand. */
  function BlockPairs(al: LocalAlignment, k: nat): Result<seq<(Span, Span)>>
    requires k <= |al.blocks|
  {
    if k == 0 then Ok([])
    else
      var prev :- BlockPairs(al, k - 1);
      var b := al.blocks[k - 1];
      var c1 :- At(b.orient, 0);
      var c2 :- At(b.orient, 1);
      Ok(prev + [(Span(al.qName, b.qStart, b.qEnd, StrandSign(c1)), Span(al.tName, b.tStart, b.tEnd, StrandSign(c2)))])
  }

  /** The lists of the first `k` alignments. */
  function ListsUpTo(als: seq<LocalAlignment>, k: nat): Result<seq<seq<(Span, Span)>>>
    requires k <= |als|
  {
    if k == 0 then Ok([])
    else
      var prev :- ListsUpTo(als, k - 1);
      var list :- BlockPairs(als[k - 1], |als[k - 1].blocks|);
      Ok(prev + [list])
  }

  /** `build_blat_ivals`, with all the lists it yields. */
  function BlatIvals(buf: string): Result<seq<seq<(Span, Span)>>> {
    var parsed :- BlatAlignments(buf);
    ListsUpTo(parsed.0, |parsed.0|)
  }

  lemma {:induction false} BlockPairsErr(al: LocalAlignment, k: nat, m: nat)
    requires k <= m <= |al.blocks| && BlockPairs(al, k).Err?
    ensures BlockPairs(al, m) == BlockPairs(al, k)
    decreases m
  {
    if k < m {
      BlockPairsErr(al, k, m - 1);
    }
  }

  lemma {:induction false} ListsUpToErr(als: seq<LocalAlignment>, k: nat, m: nat)
    requires k <= m <= |als| && ListsUpTo(als, k).Err?
    ensures ListsUpTo(als, m) == ListsUpTo(als, k)
    decreases m
  {
    if k < m {
      ListsUpToErr(als, k, m - 1);
    }
  }

  method BuildBlockPairs(al: LocalAlignment) returns (r: Result<seq<(Span, Span)>>)
    ensures r == BlockPairs(al, |al.blocks|)
  {
    var ivals: seq<(Span, Span)> := [];
    for k := 0 to |al.blocks|
      invariant BlockPairs(al, k) == Ok(ivals)
    {
      var ungapped := al.blocks[k];
      var a, b := ungapped.qStart, ungapped.qEnd;
      var x, y := ungapped.tStart, ungapped.tEnd;
      var orient := ungapped.orient;
      if |orient| < 2 {
        BlockPairsErr(al, k + 1, |al.blocks|);
        return Err(IndexOutOfRange);
      }
      var orient1 := if orient[0] == '+' then 1 else -1;
      var orient2 := if orient[1] == '+' then 1 else -1;
      ivals := ivals + [(Span(al.qName, a, b, orient1), Span(al.tName, x, y, orient2))];
    }
    r := Ok(ivals);
  }

  method BuildBlatIvals(buf: string) returns (r: Result<seq<seq<(Span, Span)>>>)
    ensures r == BlatIvals(buf)
  {
    var parsed :- ParseBlat(buf);
    var blataln := parsed.0;
    var lists: seq<seq<(Span, Span)>> := [];
    for k := 0 to |blataln|
      invariant ListsUpTo(blataln, k) == Ok(lists)
    {
      var ivals := BuildBlockPairs(blataln[k]);
      if ivals.Err? {
        ListsUpToErr(blataln, k + 1, |blataln|);
        return Err(ivals.error);
      }
      lists := lists + [ivals.value];
    }
    r := Ok(lists);
  }

  lemma {:induction false} BlockPairsShape(al: LocalAlignment, k: nat)
    requires k <= |al.blocks| && BlockPairs(al, k).Ok?
    ensures var ps := BlockPairs(al, k).value;
            && |ps| == k
            && forall i :: 0 <= i < k ==>
                 var b := al.blocks[i];
                 && |b.orient| >= 2
                 && ps[i].0 == Span(al.qName, b.qStart, b.qEnd, StrandSign(b.orient[0]))
                 && ps[i].1 == Span(al.tName, b.tStart, b.tEnd, StrandSign(b.orient[1]))
    decreases k
  {
    if k > 0 {
      BlockPairsShape(al, k - 1);
    }
  }

  lemma {:induction false} BlockPairsSucceed(al: LocalAlignment, k: nat)
    requires k <= |al.blocks| && forall i :: 0 <= i < k ==> |al.blocks[i].orient| >= 2
    ensures BlockPairs(al, k).Ok?
    decreases k
  {
    if k > 0 {
      BlockPairsSucceed(al, k - 1);
    }
  }

  lemma {:induction false} ListsUpToShape(als: seq<LocalAlignment>, k: nat)
    requires k <= |als| && ListsUpTo(als, k).Ok?
    ensures var lists := ListsUpTo(als, k).value;
            && |lists| == k
            && forall m :: 0 <= m < k ==> BlockPairs(als[m], |als[m].blocks|) == Ok(lists[m])
    decreases k
  {
    if k > 0 {
      ListsUpToShape(als, k - 1);
    }
  }

  /** `build_blat_ivals` yields one list per alignment and one pair per block of it: the
      query's interval with the sign of the strand's first character, the target's with the
      sign of its second, each 1 for `+` and -1 otherwise. */
  lemma BlatIvalsShape(buf: string, m: nat, i: nat)
    requires BlatIvals(buf).Ok?
    requires m < |BlatAlignments(buf).value.0| && i < |BlatAlignments(buf).value.0[m].blocks|
    ensures var als := BlatAlignments(buf).value.0;
            var lists := BlatIvals(buf).value;
            var al := als[m];
            var b := al.blocks[i];
            && |lists| == |als|
            && |lists[m]| == |al.blocks|
            && |b.orient| >= 2
            && lists[m][i] == (Span(al.qName, b.qStart, b.qEnd, StrandSign(b.orient[0])),
                               Span(al.tName, b.tStart, b.tEnd, StrandSign(b.orient[1])))
  {
    var als := BlatAlignments(buf).value.0;
    ListsUpToShape(als, |als|);
    BlockPairsShape(als[m], |als[m].blocks|);
  }

  /** `build_blat_ivals` yields one list per alignment, however many there are, and each
      list holds one pair per block of its alignment. */
  lemma BlatIvalsCounts(buf: string)
    requires BlatIvals(buf).Ok?
    ensures var als := BlatAlignments(buf).value.0;
            var lists := BlatIvals(buf).value;
            && |lists| == |als|
            && forall m :: 0 <= m < |als| ==> |lists[m]| == |als[m].blocks|
  {
    var als := BlatAlignments(buf).value.0;
    ListsUpToShape(als, |als|);
    forall m | 0 <= m < |als|
      ensures |BlatIvals(buf).value[m]| == |als[m].blocks|
    {
      BlockPairsShape(als[m], |als[m].blocks|);
    }
  }

  /** The lists fail exactly when some block of some alignment has a strand shorter than two
      characters, which only an empty strand field can give. */
  lemma {:induction false} ListsFail(als: seq<LocalAlignment>, k: nat)
    requires k <= |als|
    ensures ListsUpTo(als, k).Err? <==>
              exists m, i :: 0 <= m < k && 0 <= i < |als[m].blocks| && |als[m].blocks[i].orient| < 2
    decreases k
  {
    if k > 0 {
      ListsFail(als, k - 1);
      var al := als[k - 1];
      if BlockPairs(al, |al.blocks|).Err? {
        if forall i :: 0 <= i < |al.blocks| ==> |al.blocks[i].orient| >= 2 {
          BlockPairsSucceed(al, |al.blocks|);
        }
      } else {
        BlockPairsShape(al, |al.blocks|);
      }
    }
  }
}
