/** The blastz "lav" parser.

    A blastz output buffer is a sequence of stanzas, each introduced by a `#:lav` marker.
    The parser skips the marker at offset 0, cuts the buffer into one section per later
    marker, reads the two sequence names from each section's `h` record and turns every
    `a { ... }` record into a local alignment: its score, its overall begin and end
    coordinates and its ungapped `l` blocks. Coordinates in the file are 1-based and
    inclusive; the parser makes them 0-based and half-open by decrementing every start. */
module Blastz {
  import opened Results
  import opened PyText

  const LavMarker := "#:lav"
  const FormatCheck := "buf[0:5] == '#:lav'"
  const OrientCheck := "abs(orient) == 1"
  const BraceCheck := "lines[0][2] == '{'"
  const ScoreCheck := "score is None"
  const BeginCheck := "begin_coords is None"
  const EndCheck := "end_coords is None"

  // ------------------------------------------------------------ entities

  /** One ungapped block: `[startTop, endTop)` on the first sequence aligned to
      `[startBot, endBot)` on the second, with its percent identity. */
  datatype UngappedBlock = UngappedBlock(startTop: int, endTop: int, startBot: int, endBot: int, ident: int)

  /** `len(block)`: the length on the first sequence. */
  function Len(b: UngappedBlock): int {
    b.endTop - b.startTop
  }

  /** `convert_to_text`: the two aligned stretches of text. */
  function ConvertToText(b: UngappedBlock, seq1: string, seq2: string): (r: (string, string))
    ensures 0 <= b.startTop <= b.endTop <= |seq1| ==> r.0 == seq1[b.startTop..b.endTop]
    ensures 0 <= b.startBot <= b.endBot <= |seq2| ==> r.1 == seq2[b.startBot..b.endBot]
  {
    (Slice(seq1, b.startTop, b.endTop), Slice(seq2, b.startBot, b.endBot))
  }

  /** A block of equal length on both sequences and inside both texts converts to two texts
      of that length. */
  lemma ConvertToTextLengths(b: UngappedBlock, seq1: string, seq2: string)
    requires 0 <= b.startTop <= b.endTop <= |seq1| && 0 <= b.startBot <= b.endBot <= |seq2|
    requires b.endTop - b.startTop == b.endBot - b.startBot
    ensures |ConvertToText(b, seq1, seq2).0| == |ConvertToText(b, seq1, seq2).1| == Len(b)
  {
  }

  /** A gapped local alignment: its score (None when the record has no `s` line), its overall
      span on both sequences, the two names, the orientation and the ungapped blocks. */
  datatype LocalAlignment = LocalAlignment(
    score: Option<int>,
    startTop: int, endTop: int, startBot: int, endBot: int,
    name1: string, name2: string,
    orient: int,
    blocks: seq<UngappedBlock>)

  /** The `BlastzLocalAlignment` constructor, which asserts that the orientation is 1 or -1. */
  function NewAlignment(score: Option<int>, startTop: int, endTop: int, startBot: int, endBot: int,
                        name1: string, name2: string, orient: int, blocks: seq<UngappedBlock>): (r: Result<LocalAlignment>)
    ensures r.Ok? <==> orient == 1 || orient == -1
    ensures r.Err? ==> r.error == AssertionFailed(OrientCheck)
    ensures r.Ok? ==> r.value.name1 == name1 && r.value.name2 == name2 && r.value.orient == orient
  {
    if orient != 1 && orient != -1 then Err(AssertionFailed(OrientCheck))
    else Ok(LocalAlignment(score, startTop, endTop, startBot, endBot, name1, name2, orient, blocks))
  }

  // ------------------------------------------------------------ markers and sections

  /** `find_lavmarkers`: every `#:lav` at offset 1 or later, then `len(buf) - 1`; nothing when
      there is no such marker. */
  function LavMarkers(buf: string): seq<int> {
    var occ := Occurrences(buf, LavMarker, 1);
    if occ == [] then [] else occ + [|buf| - 1]
  }

  method FindLavMarkers(buf: string) returns (markers: seq<int>)
    ensures markers == LavMarkers(buf)
  {
    ghost var occ := Occurrences(buf, LavMarker, 1);
    markers := [];
    var next := 1;
    OccurrencesFromAcc(buf, LavMarker, 1, []);
    NilAppend(occ);
    while true
      invariant 1 <= next <= |buf| + 1
      invariant OccurrencesFrom(buf, LavMarker, next, markers) == occ
      decreases |buf| + 1 - next
    {
      var m := Find(buf, LavMarker, next);
      assert m == FindFrom(buf, LavMarker, next);
      if m == -1 {
        OccurrencesFromDone(buf, LavMarker, next, markers, occ);
        break;
      }
      OccurrencesFromNext(buf, LavMarker, next, markers, occ);
      markers := markers + [m];
      next := m + 1;
    }
    if |markers| >= 1 {
      markers := markers + [|buf| - 1];
    }
  }

  /** The markers are the `#:lav` offsets from 1 on, strictly increasing and complete, followed
      by the last offset of the buffer. */
  lemma LavMarkersShape(buf: string)
    ensures var ms := LavMarkers(buf);
            && (ms == [] <==> forall m :: 1 <= m ==> !MatchAt(buf, LavMarker, m))
            && (ms != [] ==> |ms| >= 2 && ms[|ms| - 1] == |buf| - 1)
            && (forall k :: 0 <= k < |ms| - 1 ==> 1 <= ms[k] && MatchAt(buf, LavMarker, ms[k]))
            && (forall k, l :: 0 <= k < l < |ms| ==> ms[k] < ms[l])
            && (forall m :: 1 <= m && MatchAt(buf, LavMarker, m) ==> m in ms[..|ms| - 1])
  {
    var occ := Occurrences(buf, LavMarker, 1);
    OccurrencesFacts(buf, LavMarker, 1);
    if occ != [] {
      var ms := LavMarkers(buf);
      assert ms[..|ms| - 1] == occ;
      assert forall k :: 0 <= k < |occ| ==> ms[k] == occ[k] && occ[k] + 5 <= |buf|;
    }
  }

  /** `construct_coord`: one range per pair of consecutive markers; every range except the last
      stops one short of the next marker. */
  function Coords(ms: seq<int>): (cs: seq<(int, int)>)
    ensures |cs| == if |ms| == 0 then 0 else |ms| - 1
  {
    if |ms| < 2 then []
    else seq(|ms| - 1, i requires 0 <= i < |ms| - 1 =>
               if i != |ms| - 2 then (ms[i], ms[i + 1] - 1) else (ms[i], ms[i + 1]))
  }

  method ConstructCoord(ms: seq<int>) returns (coords: seq<(int, int)>)
    ensures coords == Coords(ms)
  {
    ghost var cs := Coords(ms);
    coords := [];
    var i := 0;
    while i < |ms| - 1
      invariant 0 <= i <= |cs| && coords == cs[..i]
    {
      if i != |ms| - 2 {
        coords := coords + [(ms[i], ms[i + 1] - 1)];
      } else {
        coords := coords + [(ms[i], ms[i + 1])];
      }
      assert cs[..i + 1] == cs[..i] + [cs[i]];
      i := i + 1;
    }
    assert cs[..|cs|] == cs;
  }

  lemma MarkerFacts(buf: string, i: nat)
    requires i < |LavMarkers(buf)| - 1
    ensures var ms := LavMarkers(buf);
            && ms[|ms| - 1] == |buf| - 1
            && 1 <= ms[i] && MatchAt(buf, LavMarker, ms[i]) && ms[i] < ms[i + 1]
  {
    LavMarkersShape(buf);
  }

  lemma SectionBounds(buf: string, i: nat)
    requires i < |Coords(LavMarkers(buf))|
    ensures var cs := Coords(LavMarkers(buf));
            && 1 <= cs[i].0 < cs[i].1 <= |buf| - 1
            && MatchAt(buf, LavMarker, cs[i].0)
            && (i + 1 < |cs| ==> cs[i].1 + 1 == cs[i + 1].0)
            && (i + 1 == |cs| ==> cs[i].1 == |buf| - 1)
  {
    var ms := LavMarkers(buf);
    var cs := Coords(ms);
    MarkerFacts(buf, i);
    assert cs[i] == if i != |ms| - 2 then (ms[i], ms[i + 1] - 1) else (ms[i], ms[i + 1]);
    if i + 1 < |cs| {
      MarkerFacts(buf, i + 1);
      assert cs[i + 1].0 == ms[i + 1];
      MarkersApart(buf, ms[i], ms[i + 1]);
    }
  }

  /** `#` does not recur in `#:lav`, so two occurrences are at least five characters apart. */
  lemma MarkersApart(buf: string, a: int, b: int)
    requires MatchAt(buf, LavMarker, a) && MatchAt(buf, LavMarker, b) && a < b
    ensures a + 5 <= b
  {
    assert buf[b] == buf[b..b + 5][0] == '#';
    forall j | a < j < a + 5
      ensures buf[j] != '#'
    {
      assert buf[j] == buf[a..a + 5][j - a];
    }
  }

  lemma SectionHoldsOneMarker(buf: string, i: nat, m: int)
    requires i < |Coords(LavMarkers(buf))|
    requires Coords(LavMarkers(buf))[i].0 < m < Coords(LavMarkers(buf))[i].1
    ensures !MatchAt(buf, LavMarker, m)
  {
    var ms := LavMarkers(buf);
    LavMarkersShape(buf);
    CoordsAt(ms, i);
    NotBetweenSorted(ms, i, m);
    assert m !in ms[..|ms| - 1];
  }

  /** Range `i` starts at marker `i` and stops at or before marker `i + 1`. */
  lemma CoordsAt(ms: seq<int>, i: nat)
    requires i < |Coords(ms)|
    ensures Coords(ms)[i].0 == ms[i] && Coords(ms)[i].1 <= ms[i + 1]
  {
  }

  /** A value strictly between two neighbours of an increasing sequence is none of its elements. */
  lemma NotBetweenSorted(ms: seq<int>, i: nat, m: int)
    requires i + 1 < |ms| && forall k, l :: 0 <= k < l < |ms| ==> ms[k] < ms[l]
    requires ms[i] < m < ms[i + 1]
    ensures forall j :: 0 <= j < |ms| ==> ms[j] != m
  {
    forall j | 0 <= j < |ms|
      ensures ms[j] != m
    {
      if j > i + 1 {
        assert ms[i + 1] < ms[j];
      } else if j < i {
        assert ms[j] < ms[i];
      }
    }
  }

  lemma SectionTiles(buf: string, i: nat)
    requires i < |Coords(LavMarkers(buf))|
    ensures var cs := Coords(LavMarkers(buf));
            && 1 <= cs[i].0 < cs[i].1 <= |buf| - 1
            && MatchAt(buf, LavMarker, cs[i].0)
            && (forall m :: cs[i].0 < m < cs[i].1 ==> !MatchAt(buf, LavMarker, m))
            && (i + 1 < |cs| ==> cs[i].1 + 1 == cs[i + 1].0)
            && (i + 1 == |cs| ==> cs[i].1 == |buf| - 1)
  {
    SectionBounds(buf, i);
    var cs := Coords(LavMarkers(buf));
    forall m | cs[i].0 < m < cs[i].1
      ensures !MatchAt(buf, LavMarker, m)
    {
      SectionHoldsOneMarker(buf, i, m);
    }
  }

  /** The sections tile the buffer from the first marker after offset 0 to its last character:
      each starts at a marker, holds no other marker, and the next one starts one character
      after it ends (the character dropped is the one in front of the next marker). */
  lemma SectionsTile(buf: string)
    ensures var cs := Coords(LavMarkers(buf));
            && (forall i :: 0 <= i < |cs| ==>
                  && 1 <= cs[i].0 < cs[i].1 <= |buf| - 1
                  && MatchAt(buf, LavMarker, cs[i].0)
                  && forall m :: cs[i].0 < m < cs[i].1 ==> !MatchAt(buf, LavMarker, m))
            && (forall i :: 0 <= i < |cs| - 1 ==> cs[i].1 + 1 == cs[i + 1].0)
            && (cs != [] ==> cs[|cs| - 1].1 == |buf| - 1)
  {
    var cs := Coords(LavMarkers(buf));
    forall i | 0 <= i < |cs|
      ensures 1 <= cs[i].0 < cs[i].1 <= |buf| - 1
      ensures MatchAt(buf, LavMarker, cs[i].0)
      ensures forall m :: cs[i].0 < m < cs[i].1 ==> !MatchAt(buf, LavMarker, m)
      ensures i + 1 < |cs| ==> cs[i].1 + 1 == cs[i + 1].0
    {
      SectionTiles(buf, i);
    }
    if cs != [] {
      SectionTiles(buf, |cs| - 1);
    }
  }

  // ------------------------------------------------------------ names and orientation

  /** `get_orient`: the orientation of every section is taken to be 1. */
  function GetOrient(records: seq<string>): (orient: int)
    ensures orient == 1
  {
    1
  }

  /** `get_names`: the text between `>` and the next `"`, twice, searching `records[1]` from
      its first `h`. A `find` that fails gives -1, which Python's negative indexing then
      reads from the end of the text. */
  function GetNames(records: seq<string>): (r: Result<seq<string>>)
    ensures r.Ok? <==> |records| >= 2
    ensures r.Ok? ==> |r.value| <= 2
  {
    var h :- At(records, 1);
    Ok(HeaderNames(h))
  }

  /** The names `get_names` finds in the header line `h`. */
  function HeaderNames(h: string): (names: seq<string>)
    ensures |names| <= 2
  {
    var pos := Find(h, "h", 0);
    var index1 := Find(h, ">", pos);
    var index2 := Find(h, "\"", index1);
    var index3 := Find(h, ">", index2);
    var index4 := Find(h, "\"", index3);
    (if index1 != -1 || index2 != -1 then [Slice(h, index1 + 1, index2)] else [])
      + (if index3 != -1 || index4 != -1 then [Slice(h, index3 + 1, index4)] else [])
  }

  /** The header layout `get_names` expects: the first `h` at `p`, the first `>` after it at
      `i1`, the next `"` at `i2`, the next `>` at `i3` and the next `"` at `i4`. */
  ghost predicate HeaderLayout(h: string, p: nat, i1: nat, i2: nat, i3: nat, i4: nat) {
    && p < i1 < i2 < i3 < i4 < |h|
    && h[p] == 'h' && h[i1] == '>' && h[i2] == '"' && h[i3] == '>' && h[i4] == '"'
    && (forall k :: 0 <= k < p ==> h[k] != 'h')
    && (forall k :: p <= k < i1 ==> h[k] != '>')
    && (forall k :: i1 <= k < i2 ==> h[k] != '"')
    && (forall k :: i2 <= k < i3 ==> h[k] != '>')
    && (forall k :: i3 <= k < i4 ==> h[k] != '"')
  }

  /** With that layout every `find` of `get_names` lands on the expected offset. */
  lemma HeaderFinds(h: string, p: nat, i1: nat, i2: nat, i3: nat, i4: nat)
    requires HeaderLayout(h, p, i1, i2, i3, i4)
    ensures Find(h, "h", 0) == p && Find(h, ">", p) == i1 && Find(h, "\"", i1) == i2
    ensures Find(h, ">", i2) == i3 && Find(h, "\"", i3) == i4
  {
    FindCharAt(h, 'h', 0, p);
    FindCharAt(h, '>', p, i1);
    FindCharAt(h, '"', i1, i2);
    FindCharAt(h, '>', i2, i3);
    FindCharAt(h, '"', i3, i4);
  }

  /** ... and the names are the texts strictly between `i1` and `i2` and between `i3` and
      `i4`. */
  lemma GetNamesOfHeader(records: seq<string>, p: nat, i1: nat, i2: nat, i3: nat, i4: nat)
    requires |records| >= 2 && HeaderLayout(records[1], p, i1, i2, i3, i4)
    ensures GetNames(records) == Ok([records[1][i1 + 1..i2], records[1][i3 + 1..i4]])
  {
    var h := records[1];
    HeaderFinds(h, p, i1, i2, i3, i4);
    HeaderNamesAt(h, i1, i2, i3, i4);
    assert At(records, 1) == Ok(h);
  }

  lemma HeaderNamesAt(h: string, i1: nat, i2: nat, i3: nat, i4: nat)
    requires i1 < i2 < i3 < i4 < |h|
    requires Find(h, ">", Find(h, "h", 0)) == i1 && Find(h, "\"", i1) == i2
    requires Find(h, ">", i2) == i3 && Find(h, "\"", i3) == i4
    ensures HeaderNames(h) == [h[i1 + 1..i2], h[i3 + 1..i4]]
  {
    var n1, n2 := h[i1 + 1..i2], h[i3 + 1..i4];
    assert Slice(h, i1 + 1, i2) == n1 && Slice(h, i3 + 1, i4) == n2;
    assert [n1] + [n2] == [n1, n2];
  }

  // ------------------------------------------------------------ one alignment record

  /** What `_parse_record` has gathered so far: the score, the begin and end coordinates and
      the integer fields of every `l` line. */
  datatype Gathered = Gathered(score: Option<int>, beginCoords: Option<seq<int>>,
                               endCoords: Option<seq<int>>, lLines: seq<seq<int>>)

  /** `[i.strip().split() for i in record]`. */
  function Tokens(record: seq<string>): (ts: seq<seq<string>>)
    ensures |ts| == |record|
  {
    seq(|record|, k requires 0 <= k < |record| => Words(Strip(record[k])))
  }

  /** One turn of the loop over the tokenised lines: `s`, `b` and `e` may each come once;
      `l` lines accumulate; a line of any other kind is ignored. */
  function Gather(g: Gathered, t: seq<string>): Result<Gathered> {
    var kind :- At(t, 0);
    if kind == "s" then
      if g.score.Some? then Err(AssertionFailed(ScoreCheck))
      else
        var text :- At(t, 1);
        var n :- ParseInt(text);
        Ok(g.(score := Some(n)))
    else if kind == "b" then
      if g.beginCoords.Some? then Err(AssertionFailed(BeginCheck))
      else
        var ns :- ParseInts(t[1..]);
        Ok(g.(beginCoords := Some(ns)))
    else if kind == "e" then
      if g.endCoords.Some? then Err(AssertionFailed(EndCheck))
      else
        var ns :- ParseInts(t[1..]);
        Ok(g.(endCoords := Some(ns)))
    else if kind == "l" then
      var ns :- ParseInts(t[1..]);
      Ok(g.(lLines := g.lLines + [ns]))
    else Ok(g)
  }

  /** The state after the first `k` tokenised lines. */
  function GatherUpTo(ts: seq<seq<string>>, k: nat): Result<Gathered>
    requires k <= |ts|
  {
    if k == 0 then Ok(Gathered(None, None, None, []))
    else
      var g :- GatherUpTo(ts, k - 1);
      Gather(g, ts[k - 1])
  }

  /** One more line read: it extends the state, or its failure fails the whole record. */
  lemma GatherUpToNext(ts: seq<seq<string>>, k: nat, g: Gathered, next: Result<Gathered>)
    requires k < |ts| && GatherUpTo(ts, k) == Ok(g) && next == Gather(g, ts[k])
    ensures next.Ok? ==> GatherUpTo(ts, k + 1) == next
    ensures next.Err? ==> GatherUpTo(ts, |ts|) == next
  {
    if next.Err? {
      GatherUpToErr(ts, k + 1, |ts|);
    }
  }

  lemma {:induction false} GatherUpToErr(ts: seq<seq<string>>, k: nat, m: nat)
    requires k <= m <= |ts| && GatherUpTo(ts, k).Err?
    ensures GatherUpTo(ts, m) == GatherUpTo(ts, k)
    decreases m
  {
    if k < m {
      GatherUpToErr(ts, k, m - 1);
    }
  }

  /** `start_top, start_bot = begin_coords`: exactly two values, or the unpacking fails. */
  function Unpack2(o: Option<seq<int>>): (r: Result<(int, int)>)
    ensures r.Ok? <==> o.Some? && |o.value| == 2
    ensures r.Ok? ==> r.value == (o.value[0], o.value[1])
  {
    if o.None? || |o.value| != 2 then Err(WrongArity) else Ok((o.value[0], o.value[1]))
  }

  /** `BlastzUngappedBlock(a - 1, c, b - 1, d, e) for (a, b, c, d, e) in blocks`: an `l` line
      `x1 y1 x2 y2 id` of inclusive 1-based coordinates becomes the half-open block
      `[x1 - 1, x2)` against `[y1 - 1, y2)`. */
  function BlockOf(ns: seq<int>): (r: Result<UngappedBlock>)
    ensures r.Ok? <==> |ns| == 5
    ensures r.Ok? ==> var b := r.value;
              && b.startTop + 1 == ns[0] && b.endTop == ns[2]
              && b.startBot + 1 == ns[1] && b.endBot == ns[3] && b.ident == ns[4]
  {
    if |ns| != 5 then Err(WrongArity) else Ok(UngappedBlock(ns[0] - 1, ns[2], ns[1] - 1, ns[3], ns[4]))
  }

  function BlocksOf(nss: seq<seq<int>>): (r: Result<seq<UngappedBlock>>)
    ensures r.Ok? <==> forall k :: 0 <= k < |nss| ==> |nss[k]| == 5
    ensures r.Ok? ==> |r.value| == |nss| && forall k :: 0 <= k < |nss| ==> BlockOf(nss[k]) == Ok(r.value[k])
  {
    if |nss| == 0 then Ok([])
    else
      var b :- BlockOf(nss[0]);
      var bs :- BlocksOf(nss[1..]);
      assert forall k :: 1 <= k < |nss| ==> nss[k] == nss[1..][k - 1];
      Ok([b] + bs)
  }

  /** `_parse_record`: the alignment an `a` record's lines (after its first) describe. */
  function RecordAlignment(record: seq<string>, orient: int, name1: string, name2: string): (r: Result<LocalAlignment>)
    ensures r.Ok? ==> r.value.name1 == name1 && r.value.name2 == name2 && r.value.orient == orient
  {
    var g :- GatherUpTo(Tokens(record), |record|);
    var begin :- Unpack2(g.beginCoords);
    var end :- Unpack2(g.endCoords);
    var blocks :- BlocksOf(g.lLines);
    NewAlignment(g.score, begin.0 - 1, end.0, begin.1 - 1, end.1, name1, name2, orient, blocks)
  }

  method ParseRecord(record: seq<string>, orient: int, name1: string, name2: string) returns (r: Result<LocalAlignment>)
    ensures r == RecordAlignment(record, orient, name1, name2)
  {
    var g :- GatherLines(record);
    var begin := Unpack2(g.beginCoords);
    var end := Unpack2(g.endCoords);
    if begin.Err? || end.Err? {
      return Err(WrongArity);
    }
    var startTop, startBot := begin.value.0, begin.value.1;
    var endTop, endBot := end.value.0, end.value.1;
    var blocks := BlocksOf(g.lLines);
    if blocks.Err? {
      return Err(blocks.error);
    }
    r := NewAlignment(g.score, startTop - 1, endTop, startBot - 1, endBot, name1, name2, orient, blocks.value);
  }

  /** The line loop of `_parse_record`. */
  method GatherLines(record: seq<string>) returns (r: Result<Gathered>)
    ensures r == GatherUpTo(Tokens(record), |record|)
  {
    ghost var ts := Tokens(record);
    var g := Gathered(None, None, None, []);
    for i := 0 to |record|
      invariant GatherUpTo(ts, i) == Ok(g)
    {
      var t := Words(Strip(record[i]));
      assert t == ts[i];
      var next := ReadLine(g, t);
      GatherUpToNext(ts, i, g, next);
      if next.Err? {
        return Err(next.error);
      }
      g := next.value;
    }
    return Ok(g);
  }

  /** One turn of that loop, on the tokens `t` of one line. */
  method ReadLine(g: Gathered, t: seq<string>) returns (r: Result<Gathered>)
    ensures r == Gather(g, t)
  {
    if |t| == 0 {
      return Err(IndexOutOfRange);
    }
    if t[0] == "s" {
      if g.score.Some? {
        return Err(AssertionFailed(ScoreCheck));
      } else if |t| < 2 {
        return Err(IndexOutOfRange);
      }
      var n :- ParseInt(t[1]);
      return Ok(g.(score := Some(n)));
    } else if t[0] == "b" {
      if g.beginCoords.Some? {
        return Err(AssertionFailed(BeginCheck));
      }
      var ns :- ParseInts(t[1..]);
      return Ok(g.(beginCoords := Some(ns)));
    } else if t[0] == "e" {
      if g.endCoords.Some? {
        return Err(AssertionFailed(EndCheck));
      }
      var ns :- ParseInts(t[1..]);
      return Ok(g.(endCoords := Some(ns)));
    } else if t[0] == "l" {
      var ns :- ParseInts(t[1..]);
      return Ok(g.(lLines := g.lLines + [ns]));
    }
    return Ok(g);
  }

  /** The kinds of line a record may hold at most once. */
  predicate Singular(kind: string) {
    kind == "s" || kind == "b" || kind == "e"
  }

  predicate Filled(g: Gathered, kind: string) {
    if kind == "s" then g.score.Some? else if kind == "b" then g.beginCoords.Some? else g.endCoords.Some?
  }

  lemma {:induction false} StaysFilled(ts: seq<seq<string>>, k1: nat, m: nat)
    requires k1 < m <= |ts| && |ts[k1]| > 0 && Singular(ts[k1][0]) && GatherUpTo(ts, m).Ok?
    ensures Filled(GatherUpTo(ts, m).value, ts[k1][0])
    decreases m
  {
    if m > k1 + 1 {
      StaysFilled(ts, k1, m - 1);
    }
  }

  /** A second `s`, `b` or `e` line in one record makes the record fail. */
  lemma DuplicateFails(record: seq<string>, k1: nat, k2: nat, orient: int, name1: string, name2: string)
    requires k1 < k2 < |record|
    requires var ts := Tokens(record);
             |ts[k1]| > 0 && |ts[k2]| > 0 && ts[k1][0] == ts[k2][0] && Singular(ts[k1][0])
    ensures RecordAlignment(record, orient, name1, name2).Err?
  {
    var ts := Tokens(record);
    if GatherUpTo(ts, k2).Err? {
      GatherUpToErr(ts, k2, |ts|);
    } else {
      StaysFilled(ts, k1, k2);
      assert GatherUpTo(ts, k2 + 1).Err?;
      GatherUpToErr(ts, k2 + 1, |ts|);
    }
  }

  /** A line of the record, as blastz writes it: a kind and some integers, separated by
      single spaces. */
  function Line(kind: string, ns: seq<int>): string {
    Join([kind] + IntStrings(ns), " ")
  }

  lemma LineTokens(kind: string, ns: seq<int>)
    requires IsWord(kind)
    ensures Words(Strip(Line(kind, ns))) == [kind] + IntStrings(ns)
  {
    var ws := [kind] + IntStrings(ns);
    forall k | 0 <= k < |ws|
      ensures IsWord(ws[k])
    {
      if k > 0 {
        assert ws[k] == IntToString(ns[k - 1]);
        IntToStringIsWord(ns[k - 1]);
      }
    }
    WordsOfJoin(ws);
  }

  /** The lines of an `a` record after its first: a score, the overall begin and end, and one
      `l` line `x1 y1 x2 y2 id` per ungapped block. */
  function RecordText(score: int, begin: (int, int), end: (int, int), ls: seq<(int, int, int, int, int)>): (lines: seq<string>)
    ensures |lines| == 3 + |ls|
  {
    [Line("s", [score]), Line("b", [begin.0, begin.1]), Line("e", [end.0, end.1])]
      + seq(|ls|, k requires 0 <= k < |ls| => Line("l", [ls[k].0, ls[k].1, ls[k].2, ls[k].3, ls[k].4]))
  }

  function LFields(ls: seq<(int, int, int, int, int)>): seq<seq<int>> {
    seq(|ls|, k requires 0 <= k < |ls| => [ls[k].0, ls[k].1, ls[k].2, ls[k].3, ls[k].4])
  }

  lemma TextTokens(score: int, begin: (int, int), end: (int, int), ls: seq<(int, int, int, int, int)>, k: nat)
    requires k < 3 + |ls|
    ensures var ts := Tokens(RecordText(score, begin, end, ls));
            && (k == 0 ==> ts[k] == ["s"] + IntStrings([score]))
            && (k == 1 ==> ts[k] == ["b"] + IntStrings([begin.0, begin.1]))
            && (k == 2 ==> ts[k] == ["e"] + IntStrings([end.0, end.1]))
            && (k >= 3 ==> ts[k] == ["l"] + IntStrings(LFields(ls)[k - 3]))
  {
    var lines := RecordText(score, begin, end, ls);
    if k == 0 {
      LineTokens("s", [score]);
    } else if k == 1 {
      LineTokens("b", [begin.0, begin.1]);
    } else if k == 2 {
      LineTokens("e", [end.0, end.1]);
    } else {
      assert lines[k] == Line("l", LFields(ls)[k - 3]);
      LineTokens("l", LFields(ls)[k - 3]);
    }
  }

  /** A line of kind `kind` followed by the digits of `ns` is read as those integers. */
  lemma GatherLine(g: Gathered, kind: string, ns: seq<int>)
    requires kind == "b" ==> g.beginCoords.None?
    requires kind == "e" ==> g.endCoords.None?
    requires kind == "s" ==> g.score.None? && |ns| == 1
    ensures var t := [kind] + IntStrings(ns);
            Gather(g, t) == Ok(if kind == "s" then g.(score := Some(ns[0]))
                               else if kind == "b" then g.(beginCoords := Some(ns))
                               else if kind == "e" then g.(endCoords := Some(ns))
                               else if kind == "l" then g.(lLines := g.lLines + [ns])
                               else g)
  {
    var t := [kind] + IntStrings(ns);
    ParseIntsRoundTrip(ns);
    assert t[1..] == IntStrings(ns);
    if kind == "s" {
      ParseIntRoundTrip(ns[0]);
    }
  }

  lemma GatherHeader(score: int, begin: (int, int), end: (int, int), ls: seq<(int, int, int, int, int)>)
    ensures GatherUpTo(Tokens(RecordText(score, begin, end, ls)), 3)
              == Ok(Gathered(Some(score), Some([begin.0, begin.1]), Some([end.0, end.1]), []))
  {
    var ts := Tokens(RecordText(score, begin, end, ls));
    var g0 := Gathered(None, None, None, []);
    TextTokens(score, begin, end, ls, 0);
    TextTokens(score, begin, end, ls, 1);
    TextTokens(score, begin, end, ls, 2);
    GatherLine(g0, "s", [score]);
    var g1 := g0.(score := Some(score));
    assert GatherUpTo(ts, 1) == Ok(g1);
    GatherLine(g1, "b", [begin.0, begin.1]);
    var g2 := g1.(beginCoords := Some([begin.0, begin.1]));
    assert GatherUpTo(ts, 2) == Ok(g2);
    GatherLine(g2, "e", [end.0, end.1]);
    assert GatherUpTo(ts, 3) == Ok(g2.(endCoords := Some([end.0, end.1])));
  }

  lemma {:induction false} GatherText(score: int, begin: (int, int), end: (int, int), ls: seq<(int, int, int, int, int)>, j: nat)
    requires j <= |ls|
    ensures GatherUpTo(Tokens(RecordText(score, begin, end, ls)), 3 + j)
              == Ok(Gathered(Some(score), Some([begin.0, begin.1]), Some([end.0, end.1]), LFields(ls)[..j]))
    decreases j
  {
    if j == 0 {
      GatherHeader(score, begin, end, ls);
      assert LFields(ls)[..0] == [];
    } else {
      GatherText(score, begin, end, ls, j - 1);
      var g := Gathered(Some(score), Some([begin.0, begin.1]), Some([end.0, end.1]), LFields(ls)[..j - 1]);
      TextTokens(score, begin, end, ls, 3 + j - 1);
      GatherLine(g, "l", LFields(ls)[j - 1]);
      TakeSnoc(LFields(ls), j);
    }
  }

  /** Reading back a record written as blastz writes it gives its score, its span with both
      starts made 0-based, and one half-open block `[x1 - 1, x2)` against `[y1 - 1, y2)` per
      `l` line, in order. */
  lemma RecordRoundTrip(score: int, begin: (int, int), end: (int, int), ls: seq<(int, int, int, int, int)>,
                        orient: int, name1: string, name2: string)
    requires orient == 1 || orient == -1
    ensures var r := RecordAlignment(RecordText(score, begin, end, ls), orient, name1, name2);
            && r.Ok?
            && r.value.score == Some(score)
            && r.value.startTop == begin.0 - 1 && r.value.endTop == end.0
            && r.value.startBot == begin.1 - 1 && r.value.endBot == end.1
            && |r.value.blocks| == |ls|
            && forall k :: 0 <= k < |ls| ==>
                 r.value.blocks[k] == UngappedBlock(ls[k].0 - 1, ls[k].2, ls[k].1 - 1, ls[k].3, ls[k].4)
  {
    GatherText(score, begin, end, ls, |ls|);
    assert LFields(ls)[..|ls|] == LFields(ls);
    var r := RecordAlignment(RecordText(score, begin, end, ls), orient, name1, name2);
    var blocks := BlocksOf(LFields(ls));
    assert blocks.Ok?;
    forall k | 0 <= k < |ls|
      ensures blocks.value[k] == UngappedBlock(ls[k].0 - 1, ls[k].2, ls[k].1 - 1, ls[k].3, ls[k].4)
    {
      assert BlockOf(LFields(ls)[k]) == Ok(blocks.value[k]);
    }
  }

  // ------------------------------------------------------------ the records of one section

  /** A line survives the comment filter when it is not empty and does not start with `#`. */
  predicate Kept(line: string) {
    |line| > 0 && line[0] != '#'
  }

  /** `[i for i in lines if len(i) and i[0] != '#']`. */
  function Significant(lines: seq<string>): seq<string> {
    if |lines| == 0 then []
    else (if Kept(lines[0]) then [lines[0]] else []) + Significant(lines[1..])
  }

  /** The filter keeps exactly the lines that are neither empty nor comments. */
  lemma {:induction false} SignificantKeeps(lines: seq<string>)
    ensures forall l :: l in Significant(lines) <==> l in lines && Kept(l)
    decreases |lines|
  {
    if |lines| > 0 {
      SignificantKeeps(lines[1..]);
      assert forall l :: l in lines <==> l == lines[0] || l in lines[1..];
    }
  }

  /** The record is an `a` record: its first significant line has the brace at index 2 and
      starts with `a`. */
  predicate IsAlignmentRecord(record: string) {
    var lines := Significant(Split(record, "\n"));
    lines != [] && |lines[0]| > 2 && lines[0][2] == '{' && lines[0][0] == 'a'
  }

  /** How many of the first `k` records are `a` records. */
  function AlignmentRecords(records: seq<string>, k: nat): nat
    requires k <= |records|
  {
    if k == 0 then 0 else AlignmentRecords(records, k - 1) + (if IsAlignmentRecord(records[k - 1]) then 1 else 0)
  }

  /** One turn of `_parse_blastz_record_block`: the alignment of an `a` record, nothing for a
      record that is empty once comments are dropped or of another kind. */
  function RecordOf(record: string, orient: int, name1: string, name2: string): Result<Option<LocalAlignment>> {
    var lines := Significant(Split(record, "\n"));
    if lines == [] then Ok(None)
    else
      var brace :- At(lines[0], 2);
      if brace != '{' then Err(AssertionFailed(BraceCheck))
      else if lines[0][0] != 'a' then Ok(None)
      else
        var al :- RecordAlignment(lines[1..], orient, name1, name2);
        Ok(Some(al))
  }

  /** `_parse_blastz_record_block` over the first `k` records: one alignment per `a` record,
      in order, all carrying the section's names and orientation. */
  function RecordBlockUpTo(records: seq<string>, orient: int, name1: string, name2: string, k: nat): Result<seq<LocalAlignment>>
    requires k <= |records|
  {
    if k == 0 then Ok([])
    else
      var prev :- RecordBlockUpTo(records, orient, name1, name2, k - 1);
      var found :- RecordOf(records[k - 1], orient, name1, name2);
      Ok(if found.Some? then prev + [found.value] else prev)
  }

  lemma RecordOfFacts(record: string, orient: int, name1: string, name2: string)
    ensures var r := RecordOf(record, orient, name1, name2);
            && (r.Ok? ==> (r.value.Some? <==> IsAlignmentRecord(record)))
            && (r.Ok? && r.value.Some? ==>
                  r.value.value.name1 == name1 && r.value.value.name2 == name2 && r.value.value.orient == orient)
  {
  }

  /** A record block that parses gives one alignment per `a` record, each carrying the
      section's names and orientation. */
  lemma {:induction false} RecordBlockFacts(records: seq<string>, orient: int, name1: string, name2: string, k: nat)
    requires k <= |records| && RecordBlockUpTo(records, orient, name1, name2, k).Ok?
    ensures var als := RecordBlockUpTo(records, orient, name1, name2, k).value;
            && |als| == AlignmentRecords(records, k)
            && forall m :: 0 <= m < |als| ==> als[m].name1 == name1 && als[m].name2 == name2 && als[m].orient == orient
    decreases k
  {
    if k > 0 {
      RecordBlockFacts(records, orient, name1, name2, k - 1);
      RecordOfFacts(records[k - 1], orient, name1, name2);
    }
  }

  lemma {:induction false} RecordBlockErr(records: seq<string>, orient: int, name1: string, name2: string, k: nat, m: nat)
    requires k <= m <= |records| && RecordBlockUpTo(records, orient, name1, name2, k).Err?
    ensures RecordBlockUpTo(records, orient, name1, name2, m) == RecordBlockUpTo(records, orient, name1, name2, k)
    decreases m
  {
    if k < m {
      RecordBlockErr(records, orient, name1, name2, k, m - 1);
    }
  }

  /** One more record read: an alignment record extends the list, any other leaves it, and a
      failure fails the whole block. */
  lemma RecordBlockNext(records: seq<string>, orient: int, name1: string, name2: string, k: nat,
                        matches: seq<LocalAlignment>, found: Result<Option<LocalAlignment>>)
    requires k < |records| && RecordBlockUpTo(records, orient, name1, name2, k) == Ok(matches)
    requires found == RecordOf(records[k], orient, name1, name2)
    ensures found.Ok? ==> RecordBlockUpTo(records, orient, name1, name2, k + 1)
                            == Ok(if found.value.Some? then matches + [found.value.value] else matches)
    ensures found.Err? ==> RecordBlockUpTo(records, orient, name1, name2, |records|) == Err(found.error)
  {
    if found.Err? {
      RecordBlockErr(records, orient, name1, name2, k + 1, |records|);
    }
  }

  /** One record of `_parse_blastz_record_block`: `None` for a record that is not an alignment. */
  method ReadRecord(record: string, orient: int, name1: string, name2: string) returns (r: Result<Option<LocalAlignment>>)
    ensures r == RecordOf(record, orient, name1, name2)
  {
    var lines := Split(record, "\n");
    lines := Significant(lines);
    if lines == [] {
      return Ok(None);
    }
    if |lines[0]| <= 2 {
      return Err(IndexOutOfRange);
    }
    if lines[0][2] != '{' {
      return Err(AssertionFailed(BraceCheck));
    }
    if lines[0][0] != 'a' {
      return Ok(None);
    }
    var al := ParseRecord(lines[1..], orient, name1, name2);
    if al.Err? {
      return Err(al.error);
    }
    return Ok(Some(al.value));
  }

  method ParseRecordBlock(records: seq<string>, orient: int, name1: string, name2: string) returns (r: Result<seq<LocalAlignment>>)
    ensures r == RecordBlockUpTo(records, orient, name1, name2, |records|)
  {
    var matches: seq<LocalAlignment> := [];
    for k := 0 to |records|
      invariant RecordBlockUpTo(records, orient, name1, name2, k) == Ok(matches)
    {
      var found := ReadRecord(records[k], orient, name1, name2);
      RecordBlockNext(records, orient, name1, name2, k, matches, found);
      if found.Err? {
        return Err(found.error);
      }
      if found.value.Some? {
        matches := matches + [found.value.value];
      }
    }
    r := Ok(matches);
  }

  // ------------------------------------------------------------ the whole buffer

  /** One turn of the loop of `parse_blastz`: the section's alignments and names. */
  function Section(buf: string, c: (int, int)): Result<(seq<LocalAlignment>, seq<string>)> {
    var records := Split(Slice(buf, c.0, c.1), "\n}\n");
    var names :- GetNames(records);
    var name1 :- At(names, 0);
    var name2 :- At(names, 1);
    var found :- RecordBlockUpTo(records, GetOrient(records), name1, name2, |records|);
    Ok((found, names))
  }

  /** The result of every section, each a function of the buffer alone. */
  function Sections(buf: string, coords: seq<(int, int)>): (rs: seq<Result<(seq<LocalAlignment>, seq<string>)>>)
    ensures |rs| == |coords|
  {
    seq(|coords|, k requires 0 <= k < |coords| => Section(buf, coords[k]))
  }

  /** `parse_blastz` over the first `k` sections, given the result of each: the alignments
      found so far and the union of the names read so far; the first section that fails
      fails the whole parse. */
  function Collect(rs: seq<Result<(seq<LocalAlignment>, seq<string>)>>, k: nat): Result<(seq<LocalAlignment>, set<string>)>
    requires k <= |rs|
  {
    if k == 0 then Ok(([], {}))
    else
      var prev :- Collect(rs, k - 1);
      var found :- rs[k - 1];
      Ok((prev.0 + found.0, prev.1 + NameSet(found.1)))
  }

  /** `set(names)`. */
  function NameSet(names: seq<string>): set<string> {
    set n | n in names
  }

  /** Each alignment of a section names sequences among the names the section reads. */
  ghost predicate Covered(r: Result<(seq<LocalAlignment>, seq<string>)>) {
    r.Ok? ==>
      var (als, names) := r.value;
      forall m :: 0 <= m < |als| ==> als[m].name1 in names && als[m].name2 in names && als[m].orient == 1
  }

  lemma SectionCovered(buf: string, c: (int, int))
    ensures Covered(Section(buf, c))
  {
    if Section(buf, c).Ok? {
      var records := Split(Slice(buf, c.0, c.1), "\n}\n");
      var names := GetNames(records).value;
      RecordBlockFacts(records, 1, names[0], names[1], |records|);
      assert Section(buf, c).value == (RecordBlockUpTo(records, 1, names[0], names[1], |records|).value, names);
    }
  }

  lemma {:induction false} CollectCovered(rs: seq<Result<(seq<LocalAlignment>, seq<string>)>>, k: nat)
    requires k <= |rs| && Collect(rs, k).Ok?
    requires forall i :: 0 <= i < |rs| ==> Covered(rs[i])
    ensures var (als, names) := Collect(rs, k).value;
            forall m :: 0 <= m < |als| ==> als[m].name1 in names && als[m].name2 in names && als[m].orient == 1
    decreases k
  {
    if k > 0 {
      CollectCovered(rs, k - 1);
      var prev := Collect(rs, k - 1).value;
      var found := rs[k - 1].value;
      assert Covered(rs[k - 1]);
      assert Collect(rs, k).value == (prev.0 + found.0, prev.1 + NameSet(found.1));
      forall m | 0 <= m < |prev.0| + |found.0|
        ensures (prev.0 + found.0)[m].name1 in prev.1 + NameSet(found.1)
        ensures (prev.0 + found.0)[m].name2 in prev.1 + NameSet(found.1)
        ensures (prev.0 + found.0)[m].orient == 1
      {
        if m >= |prev.0| {
          assert (prev.0 + found.0)[m] == found.0[m - |prev.0|];
        }
      }
    }
  }

  lemma {:induction false} CollectErr(rs: seq<Result<(seq<LocalAlignment>, seq<string>)>>, k: nat, m: nat)
    requires k <= m <= |rs| && Collect(rs, k).Err?
    ensures Collect(rs, m) == Collect(rs, k)
    decreases m
  {
    if k < m {
      CollectErr(rs, k, m - 1);
    }
  }

  /** One turn of the section loop: the section's alignments and names join those before it,
      or its failure is the failure of the whole parse. */
  lemma CollectStep(rs: seq<Result<(seq<LocalAlignment>, seq<string>)>>, k: nat,
                    matches: seq<LocalAlignment>, names: set<string>, section: Result<(seq<LocalAlignment>, seq<string>)>)
    requires k < |rs| && Collect(rs, k) == Ok((matches, names)) && rs[k] == section
    ensures section.Ok? ==> Collect(rs, k + 1) == Ok((matches + section.value.0, names + NameSet(section.value.1)))
    ensures section.Err? ==> Collect(rs, |rs|) == Err(section.error)
  {
    if section.Err? {
      CollectErr(rs, k + 1, |rs|);
    }
  }

  /** `parse_blastz`: the alignments of every section and the set of names they use. */
  function BlastzAlignments(buf: string): Result<(seq<LocalAlignment>, set<string>)> {
    if Slice(buf, 0, 5) != LavMarker then Err(AssertionFailed(FormatCheck))
    else
      var markers := LavMarkers(buf);
      if markers == [] then Ok(([], {}))
      else Collect(Sections(buf, Coords(markers)), |Coords(markers)|)
  }

  /** The body of the loop of `parse_blastz` for one section. */
  method ReadSection(buf: string, c: (int, int)) returns (r: Result<(seq<LocalAlignment>, seq<string>)>)
    ensures r == Section(buf, c)
  {
    var startIndex, endIndex := c.0, c.1;
    var lavBlock := Slice(buf, startIndex, endIndex);
    var records := Split(lavBlock, "\n}\n");
    var orient := GetOrient(records);
    var names := GetNames(records);
    if names.Err? {
      return Err(names.error);
    }
    if |names.value| < 2 {
      return Err(IndexOutOfRange);
    }
    var found := ParseRecordBlock(records, orient, names.value[0], names.value[1]);
    if found.Err? {
      return Err(found.error);
    }
    r := Ok((found.value, names.value));
  }

  method ParseBlastz(buf: string) returns (r: Result<(seq<LocalAlignment>, set<string>)>)
    ensures r == BlastzAlignments(buf)
  {
    if Slice(buf, 0, 5) != LavMarker {
      return Err(AssertionFailed(FormatCheck));
    }
    var markers := FindLavMarkers(buf);
    if |markers| == 0 {
      return Ok(([], {}));
    }
    var coords := ConstructCoord(markers);
    ghost var rs := Sections(buf, coords);
    assert forall k :: 0 <= k < |coords| ==> SectionIs(buf, coords, rs, k);
    r := CollectSections(buf, coords, rs);
  }

  /** `rs[k]` is what section `k` reads to. */
  ghost predicate SectionIs(buf: string, coords: seq<(int, int)>, rs: seq<Result<(seq<LocalAlignment>, seq<string>)>>, k: nat)
    requires k < |coords| == |rs|
  {
    rs[k] == Section(buf, coords[k])
  }

  /** One pass of the section loop: read section `k` and say what it does to the collected
      alignments and names. */
  method NextSection(buf: string, coords: seq<(int, int)>, ghost rs: seq<Result<(seq<LocalAlignment>, seq<string>)>>,
                     k: nat, ghost matches: seq<LocalAlignment>, ghost names: set<string>)
      returns (section: Result<(seq<LocalAlignment>, seq<string>)>)
    requires k < |rs| == |coords| && SectionIs(buf, coords, rs, k) && Collect(rs, k) == Ok((matches, names))
    ensures section.Ok? ==> Collect(rs, k + 1) == Ok((matches + section.value.0, names + NameSet(section.value.1)))
    ensures section.Err? ==> Collect(rs, |rs|) == Err(section.error)
  {
    section := ReadSection(buf, coords[k]);
    CollectStep(rs, k, matches, names, section);
  }

  /** The section loop of `parse_blastz`: the alignments of every section in order, and the
      union of their names. */
  method CollectSections(buf: string, coords: seq<(int, int)>, ghost rs: seq<Result<(seq<LocalAlignment>, seq<string>)>>)
      returns (r: Result<(seq<LocalAlignment>, set<string>)>)
    requires |rs| == |coords| && forall k :: 0 <= k < |coords| ==> SectionIs(buf, coords, rs, k)
    ensures r == Collect(rs, |coords|)
  {
    var seqsNames: set<string> := {};
    var matches: seq<LocalAlignment> := [];
    for k := 0 to |coords|
      invariant Collect(rs, k) == Ok((matches, seqsNames))
    {
      var section := NextSection(buf, coords, rs, k, matches, seqsNames);
      if section.Err? {
        return Err(section.error);
      }
      seqsNames := seqsNames + NameSet(section.value.1);
      matches := matches + section.value.0;
    }
    r := Ok((matches, seqsNames));
  }

  /** A buffer that does not start with `#:lav` is rejected; one that does but has no later
      marker holds no alignment and no name. */
  lemma BlastzHeader(buf: string)
    ensures !StartsWith(buf, LavMarker) ==> BlastzAlignments(buf) == Err(AssertionFailed(FormatCheck))
    ensures StartsWith(buf, LavMarker) && (forall m :: 1 <= m ==> !MatchAt(buf, LavMarker, m)) ==>
              BlastzAlignments(buf) == Ok(([], {}))
  {
    SliceIsPrefix(buf, LavMarker);
    LavMarkersShape(buf);
  }

  /** Every alignment names two sequences of the returned name set and has orientation 1. */
  lemma BlastzNamesCovered(buf: string)
    requires BlastzAlignments(buf).Ok?
    ensures var (als, names) := BlastzAlignments(buf).value;
            forall m :: 0 <= m < |als| ==> als[m].name1 in names && als[m].name2 in names && als[m].orient == 1
  {
    var markers := LavMarkers(buf);
    if markers != [] {
      var rs := Sections(buf, Coords(markers));
      forall i | 0 <= i < |rs|
        ensures Covered(rs[i])
      {
        SectionCovered(buf, Coords(markers)[i]);
      }
      CollectCovered(rs, |rs|);
    }
  }
}
