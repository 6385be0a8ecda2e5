/** The gapped-FASTA readers shared by the LAGAN and MLAGAN loaders.

    A buffer holds one header line per sequence, starting with `>`, each followed by the
    sequence's gapped text. `find_markers` finds every `>` and the header text after it. The
    readers then delete the header texts and every newline from the buffer, without its
    leading `>`, and split what is left at `>`. The sequence names are the first words of
    the headers. The two copies of each reader in the source are identical; this module
    models them once. */
module GappedFasta {
  import opened Results
  import opened PyText
  import opened GapScan

  const Marker := ">"
  const FastaCheck := "buf[0].startswith('>')"

  // ------------------------------------------------------------ markers

  /** `buf[m + 1:buf.find('\n', m)]`: the rest of the header line that starts at `m`. When no
      newline follows, `find` gives -1 and the slice stops one character short of the end. */
  function HeaderText(buf: string, m: int): string {
    Slice(buf, m + 1, Find(buf, "\n", m))
  }

  /** The offsets of every `>` in the buffer. */
  function Markers(buf: string): seq<int> {
    Occurrences(buf, Marker, 0)
  }

  /** The header text after each marker. */
  function HeaderTexts(buf: string, ms: seq<int>): (hs: seq<string>)
    ensures |hs| == |ms|
  {
    seq(|ms|, k requires 0 <= k < |ms| => HeaderText(buf, ms[k]))
  }

  lemma HeaderTextsSnoc(buf: string, ms: seq<int>, m: int)
    ensures HeaderTexts(buf, ms + [m]) == HeaderTexts(buf, ms) + [HeaderText(buf, m)]
  {
  }

  /** `find_markers`. */
  method FindMarkers(buf: string) returns (seqMarkers: seq<int>, seqInfos: seq<string>)
    ensures seqMarkers == Markers(buf)
    ensures seqInfos == HeaderTexts(buf, seqMarkers)
  {
    seqMarkers, seqInfos := [], [];
    var index1 := Find(buf, Marker, 0);
    ghost var next: nat := 0;       // where the search that gave `index1` started
    OccurrencesFromAcc(buf, Marker, 0, []);
    assert [] + Markers(buf) == Markers(buf);
    while index1 != -1
      invariant next <= |buf| && index1 == FindFrom(buf, Marker, next)
      invariant OccurrencesFrom(buf, Marker, next, seqMarkers) == Markers(buf)
      invariant seqInfos == HeaderTexts(buf, seqMarkers)
      decreases |buf| - next
    {
      OccurrencesFromNext(buf, Marker, next, seqMarkers, Markers(buf));
      HeaderTextsSnoc(buf, seqMarkers, index1);
      seqMarkers := seqMarkers + [index1];
      var index2 := Find(buf, "\n", index1);
      seqInfos := seqInfos + [Slice(buf, index1 + 1, index2)];
      next := index1 + 1;
      index1 := Find(buf, Marker, index1 + 1);
    }
    OccurrencesFromDone(buf, Marker, next, seqMarkers, Markers(buf));
  }

  /** The markers are the offsets of `>`, strictly increasing, and every `>` is one of them. */
  lemma MarkersShape(buf: string)
    ensures var ms := Markers(buf);
            && (forall k :: 0 <= k < |ms| ==> 0 <= ms[k] < |buf| && buf[ms[k]] == '>')
            && (forall k, l :: 0 <= k < l < |ms| ==> ms[k] < ms[l])
            && (forall m :: 0 <= m < |buf| && buf[m] == '>' ==> m in ms)
  {
    var ms := Markers(buf);
    OccurrencesFacts(buf, Marker, 0);
    forall k | 0 <= k < |ms|
      ensures 0 <= ms[k] < |buf| && buf[ms[k]] == '>'
    {
      assert MatchAt(buf, Marker, ms[k]);
      assert buf[ms[k]..ms[k] + 1][0] == buf[ms[k]];
    }
    forall m | 0 <= m < |buf| && buf[m] == '>'
      ensures m in ms
    {
      assert buf[m..m + 1] == Marker;
    }
  }

  /** A header text is the rest of its line: up to the next newline, or, on a last line
      without one, up to one character short of the end. It holds no newline. */
  lemma HeaderTextShape(buf: string, m: nat)
    requires m < |buf| && buf[m] == '>'
    ensures var n := Find(buf, "\n", m);
            && (n != -1 ==> m < n < |buf| && buf[n] == '\n' && HeaderText(buf, m) == buf[m + 1..n])
            && (n == -1 ==> HeaderText(buf, m) == if m + 1 < |buf| - 1 then buf[m + 1..|buf| - 1] else [])
            && forall k :: 0 <= k < |HeaderText(buf, m)| ==> HeaderText(buf, m)[k] != '\n'
  {
    FindCharFrom(buf, '\n', m);
    var n := Find(buf, "\n", m);
    var h := HeaderText(buf, m);
    if n != -1 {
      assert n != m;
      assert forall k :: 0 <= k < |h| ==> h[k] == buf[m + 1 + k];
    } else if m + 1 < |buf| - 1 {
      assert forall k :: 0 <= k < |h| ==> h[k] == buf[m + 1 + k];
    }
  }

  // ------------------------------------------------------------ read_mlagan

  /** What remains of `text` once the header texts `infos[..k]` have been removed, in order,
      each from everywhere it occurs. */
  function WithoutHeaders(text: string, infos: seq<string>, k: nat): string
    requires k <= |infos|
  {
    if k == 0 then text else RemoveAll(WithoutHeaders(text, infos, k - 1), infos[k - 1])
  }

  /** `infos[i].split()[0]` for each of the first `k` header texts. */
  function FirstWords(infos: seq<string>, k: nat): Result<seq<string>>
    requires k <= |infos|
  {
    if k == 0 then Ok([])
    else
      var prev :- FirstWords(infos, k - 1);
      var w :- FirstWord(infos[k - 1]);
      Ok(prev + [w])
  }

  lemma {:induction false} FirstWordsErr(infos: seq<string>, k: nat, m: nat)
    requires k <= m <= |infos| && FirstWords(infos, k).Err?
    ensures FirstWords(infos, m) == FirstWords(infos, k)
    decreases m
  {
    if k < m {
      FirstWordsErr(infos, k, m - 1);
    }
  }

  /** The names are read exactly when every header text has a word, and each is the first. */
  lemma {:induction false} FirstWordsShape(infos: seq<string>, k: nat)
    requires k <= |infos|
    ensures FirstWords(infos, k).Ok? <==> forall i :: 0 <= i < k ==> Words(infos[i]) != []
    ensures FirstWords(infos, k).Ok? ==>
              var ns := FirstWords(infos, k).value;
              |ns| == k && forall i :: 0 <= i < k ==> ns[i] == Words(infos[i])[0]
    decreases k
  {
    if k > 0 {
      FirstWordsShape(infos, k - 1);
    }
  }

  /** `read_mlagan`: the gapped texts and the names, in file order. */
  function MlaganSequences(buf: string): Result<(seq<string>, seq<string>)> {
    if |buf| == 0 then Err(IndexOutOfRange)
    else if buf[0] != '>' then Err(AssertionFailed(FastaCheck))
    else
      ManySequences(buf[1..], HeaderTexts(buf, Markers(buf)))
  }

  /** The rest of `read_mlagan` once the header texts are known: remove each of them, then
      the newlines, split at `>`, and take the first word of each header. */
  function ManySequences(body: string, infos: seq<string>): Result<(seq<string>, seq<string>)> {
    var names :- FirstWords(infos, |infos|);
    var text := WithoutHeaders(body, infos, |infos|);
    Ok((Split(RemoveAll(text, "\n"), Marker), names))
  }

  method ReadMlagan(buf: string) returns (r: Result<(seq<string>, seq<string>)>)
    ensures r == MlaganSequences(buf)
  {
    if |buf| == 0 {
      return Err(IndexOutOfRange);
    }
    if buf[0] != '>' {
      return Err(AssertionFailed(FastaCheck));
    }
    var seqMarkers, seqInfos := FindMarkers(buf);
    var text := buf[1..];
    var seqName: seq<string> := [];
    for k := 0 to |seqInfos|
      invariant text == WithoutHeaders(buf[1..], seqInfos, k)
      invariant FirstWords(seqInfos, k) == Ok(seqName)
    {
      text := RemoveAll(text, seqInfos[k]);
      var w := FirstWord(seqInfos[k]);
      if w.Err? {
        FirstWordsErr(seqInfos, k + 1, |seqInfos|);
        return Err(w.error);
      }
      seqName := seqName + [w.value];
    }
    text := RemoveAll(text, "\n");
    r := Ok((Split(text, Marker), seqName));
  }

  /** An empty buffer fails on `buf[0]`; one that does not start with `>` fails the check. */
  lemma FastaRejects(buf: string)
    ensures |buf| == 0 ==> MlaganSequences(buf) == Err(IndexOutOfRange) && LaganSequences(buf) == Err(IndexOutOfRange)
    ensures |buf| > 0 && buf[0] != '>' ==>
              MlaganSequences(buf) == Err(AssertionFailed(FastaCheck)) && LaganSequences(buf) == Err(AssertionFailed(FastaCheck))
  {
  }

  /** A buffer starting with `>` is read exactly when every header has a word; there is then
      one name per marker, the first word of its header, in file order. */
  lemma MlaganNames(buf: string)
    requires |buf| > 0 && buf[0] == '>'
    ensures var infos := HeaderTexts(buf, Markers(buf));
            && (MlaganSequences(buf).Ok? <==> forall i :: 0 <= i < |infos| ==> Words(infos[i]) != [])
            && (MlaganSequences(buf).Ok? ==>
                  var names := MlaganSequences(buf).value.1;
                  |names| == |Markers(buf)| >= 1 && forall i :: 0 <= i < |names| ==> names[i] == Words(infos[i])[0])
  {
    var infos := HeaderTexts(buf, Markers(buf));
    FirstWordsShape(infos, |infos|);
    MarkersShape(buf);
    assert 0 in Markers(buf);
  }

  lemma {:induction false} WithoutHeadersCount(text: string, infos: seq<string>, k: nat, c: char)
    requires k <= |infos|
    ensures Count(WithoutHeaders(text, infos, k), c) <= Count(text, c)
    decreases k
  {
    if k > 0 {
      WithoutHeadersCount(text, infos, k - 1, c);
      RemoveAllCount(WithoutHeaders(text, infos, k - 1), infos[k - 1], c);
    }
  }

  /** A buffer that starts with `>` has one marker more than its tail has `>`. */
  lemma MarkersCount(buf: string)
    requires |buf| > 0 && buf[0] == '>'
    ensures |Markers(buf)| == 1 + Count(buf[1..], '>')
  {
    assert Marker == ['>'];
    OccurrencesCount(buf, '>', 0);
    assert buf[0..] == buf;
    CountAtFirst(buf, '>', 0);
  }

  /** There are never more sequence texts than names: each `>` left in the body is one of
      the markers after the first, so `seqName[i]` exists for every text `i`. */
  lemma MlaganTextsWithinNames(buf: string)
    requires MlaganSequences(buf).Ok?
    ensures |MlaganSequences(buf).value.0| <= |MlaganSequences(buf).value.1|
  {
    var infos := HeaderTexts(buf, Markers(buf));
    var body := WithoutHeaders(buf[1..], infos, |infos|);
    var flat := RemoveAll(body, "\n");
    assert MlaganSequences(buf).value.0 == Split(flat, Marker);
    MlaganNames(buf);
    assert |MlaganSequences(buf).value.1| == |Markers(buf)|;
    WithoutHeadersCount(buf[1..], infos, |infos|, '>');
    RemoveAllCount(body, "\n", '>');
    SplitCount(flat, '>');
    MarkersCount(buf);
  }

  /** No piece of a split holds a character its text does not hold. */
  lemma {:induction false} SplitPiecesAvoid(s: string, sep: string, c: char)
    requires sep != [] && forall k :: 0 <= k < |s| ==> s[k] != c
    ensures forall p, m :: p in Split(s, sep) && 0 <= m < |p| ==> p[m] != c
    decreases |s|
  {
    var k := FindFrom(s, sep, 0);
    if k != -1 {
      var rest := s[k + |sep|..];
      assert forall m :: 0 <= m < |rest| ==> rest[m] == s[k + |sep| + m];
      SplitPiecesAvoid(rest, sep, c);
      assert Split(s, sep) == [s[..k]] + Split(rest, sep);
    }
  }

  /** The sequence texts hold neither newlines nor `>`. */
  lemma MlaganTextsFlat(buf: string)
    requires MlaganSequences(buf).Ok?
    ensures forall s, m :: s in MlaganSequences(buf).value.0 && 0 <= m < |s| ==> s[m] != '\n' && s[m] != '>'
  {
    var infos := HeaderTexts(buf, Markers(buf));
    var flat := RemoveAll(WithoutHeaders(buf[1..], infos, |infos|), "\n");
    RemoveCharAbsent(WithoutHeaders(buf[1..], infos, |infos|), '\n');
    SplitPiecesAvoid(flat, Marker, '\n');
    SplitCharPieces(flat, '>');
  }

  // ------------------------------------------------------------ read_lagan

  /** The two header texts `read_lagan` finds: after the `>` at offset 0, and after the next
      `>`; with only one marker, `find` gives -1 there and the slicing counts from the end. */
  function LaganHeaderTexts(buf: string): (string, string) {
    var index1 := Find(buf, Marker, 0);
    var index2 := Find(buf, "\n", 0);
    var index3 := Find(buf, Marker, index1 + 1);
    var index4 := Find(buf, "\n", index3);
    (Slice(buf, index1 + 1, index2), Slice(buf, index3 + 1, index4))
  }

  /** `read_lagan`: the gapped texts and the two names. Only the two header texts it finds
      are removed. */
  function LaganSequences(buf: string): Result<(seq<string>, (string, string))> {
    if |buf| == 0 then Err(IndexOutOfRange)
    else if buf[0] != '>' then Err(AssertionFailed(FastaCheck))
    else
      var (seqInfo1, seqInfo2) := LaganHeaderTexts(buf);
      TwoSequences(buf[1..], seqInfo1, seqInfo2)
  }

  /** The rest of `read_lagan` once the two header texts are known: remove both, then the
      newlines, split at `>`, and take the first word of each header. */
  function TwoSequences(body: string, seqInfo1: string, seqInfo2: string): Result<(seq<string>, (string, string))> {
    var text := RemoveAll(RemoveAll(RemoveAll(body, seqInfo1), seqInfo2), "\n");
    var seqName1 :- FirstWord(seqInfo1);
    var seqName2 :- FirstWord(seqInfo2);
    Ok((Split(text, Marker), (seqName1, seqName2)))
  }

  /** With two markers or more, the two names are the first words of the first two headers. */
  lemma LaganNames(buf: string)
    requires |buf| > 0 && buf[0] == '>' && |Markers(buf)| >= 2
    ensures var infos := HeaderTexts(buf, Markers(buf));
            && (LaganSequences(buf).Ok? <==> Words(infos[0]) != [] && Words(infos[1]) != [])
            && (LaganSequences(buf).Ok? ==> LaganSequences(buf).value.1 == (Words(infos[0])[0], Words(infos[1])[0]))
  {
    LaganHeaders(buf);
  }

  /** The header texts `read_lagan` finds are the first two that `find_markers` finds. */
  lemma LaganHeaders(buf: string)
    requires |buf| > 0 && buf[0] == '>' && |Markers(buf)| >= 2
    ensures var infos := HeaderTexts(buf, Markers(buf));
            LaganHeaderTexts(buf) == (infos[0], infos[1])
  {
    assert buf[0..1] == Marker;
    assert Find(buf, Marker, 0) == 0;
    OccurrencesUnfold(buf, Marker, 0);
    var second := Occurrences(buf, Marker, 1);
    assert Markers(buf) == [0] + second;
    OccurrencesUnfold(buf, Marker, 1);
    assert second[0] == Find(buf, Marker, 1);
    assert Markers(buf)[1] == second[0];
  }

  /** With two header texts, the rest of `read_mlagan` does what the rest of `read_lagan`
      does. */
  lemma ManyOfTwo(body: string, infos: seq<string>)
    requires |infos| == 2
    ensures var l := TwoSequences(body, infos[0], infos[1]);
            && (l.Ok? <==> ManySequences(body, infos).Ok?)
            && (l.Ok? ==> var (seqs, names) := ManySequences(body, infos).value;
                          |names| == 2 && l.value == (seqs, (names[0], names[1])))
  {
    assert WithoutHeaders(body, infos, 1) == RemoveAll(body, infos[0]);
    assert WithoutHeaders(body, infos, 2) == RemoveAll(RemoveAll(body, infos[0]), infos[1]);
    var w0, w1 := FirstWord(infos[0]), FirstWord(infos[1]);
    assert FirstWords(infos, 0) == Ok([]);
    if w0.Ok? {
      assert [] + [w0.value] == [w0.value];
      assert FirstWords(infos, 1) == Ok([w0.value]);
      if w1.Ok? {
        assert [w0.value] + [w1.value] == [w0.value, w1.value];
      }
    } else {
      assert FirstWords(infos, 1).Err?;
    }
  }

  /** For a buffer with exactly two headers, `read_lagan` and `read_mlagan` agree. */
  lemma LaganIsTwoSequenceMlagan(buf: string)
    requires |buf| > 0 && buf[0] == '>' && |Markers(buf)| == 2
    ensures LaganSequences(buf).Ok? <==> MlaganSequences(buf).Ok?
    ensures LaganSequences(buf).Ok? ==>
              var (seqs, names) := MlaganSequences(buf).value;
              |names| == 2 && LaganSequences(buf).value == (seqs, (names[0], names[1]))
  {
    LaganHeaders(buf);
    ManyOfTwo(buf[1..], HeaderTexts(buf, Markers(buf)));
  }
}
