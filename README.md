# pygr-align parsers in Dafny

This project models the text-handling core of pygr-align. That core reads the output of five
sequence-alignment tools and turns it into lists of ungapped coordinate correspondences
between named sequences, ready for pygr's NLMSA alignment index. The model stops where the
index is fed. A sequence slice `seqDb[name][start:stop]` is kept as plain coordinates,
`Ival(name, start, stop)` (with an orientation, `Span`, for BLAT).

Modules:

- `Results`: the outcome of a Python call. It is a value or the exception it raises, one of
  a failed `assert` (carrying the asserted text), an `IndexError`, a non-numeric `int()`
  argument, or a tuple unpacking of the wrong size.
- `PyText`: the Python 2 byte-string operations the parsers use, with their edge cases:
  `find` with a negative start, slicing with negative and out-of-range bounds, `split`,
  `strip`, `replace(pat, '')`, `count` and `int()`.
- `GapScan`: `build_interval_list`, the gap scan of the CLUSTAL W, MLAGAN and LAGAN
  loaders (the blastz and BLAT loaders do not use it). It is a
  column loop with one residue counter per string, proved against a functional
  specification: the maximal stretches of columns without a gap in either string. The
  same function is copied at `clustalw/Clustalw_NLMSA.py:207`,
  `pw-m-lagan/mlagan/mlagan_NLMSA.py:84`, `mlagan/mlagan_NLMSA.py:51`,
  `pw-m-lagan/lagan/lagan_NLMSA.py:72` and `lagan/lagan_NLMSA.py:36`. It is modelled
  once, and its lemmas serve every copy.
- `Clustalw`: the CLUSTAL W reader. `ClustalwResidues` is a class whose
  `reset_start_indices` updates its start indices in place. `read_clustalw` counts the
  sequences, cuts the lines into blocks and carries the running start index of each
  sequence. `calc_total_length` and `build_clustalw_ivals` complete the module.
- `Blastz`: the blastz `lav` reader, covering `find_lavmarkers`, `construct_coord`,
  `get_orient`, `get_names`, `parse_blastz`, `_parse_blastz_record_block` and
  `_parse_record`. The two record classes are values.
- `Blat`: the BLAT PSL reader, covering `calculate_end`, `parse_blat` and
  `build_blat_ivals`.
- `GappedFasta`: the gapped-FASTA readers shared by the LAGAN and MLAGAN loaders:
  `find_markers`, `read_mlagan` and `read_lagan`.
- `Mlagan`: `build_mlagan_ivals` and the pair loop of `create_NLMSA_mlagan`.
- `Lagan`: `build_lagan_ivals` and the run loop of `create_NLMSA_lagan`.

Each loop of the source is a method with loop invariants. Each method is proved equal to a
specification function, and the properties the source promises are lemmas about those
functions.

## Model

| member | source | states |
|---|---|---|
| GapScan.BuildIntervalList | clustalw/Clustalw_NLMSA.py:207-240 | The column loop returns exactly `IntervalList(a, b)`. That is an IndexError when `b` is shorter than `a`. It is the failed `b_count` assertion when `b` has residues past `len(a)`. Otherwise it is one run per maximal stretch of matched columns, with its residue ranges on both strings. |
| GapScan.StretchesAreMaximal | clustalw/Clustalw_NLMSA.py:218-235 | The stretches the runs come from are exactly the maximal non-empty stretches of columns with a residue in both strings, left to right. |
| GapScan.RunsNonEmpty | pw-m-lagan/lagan/lagan_NLMSA.py:83-100 | Every run is non-empty and half-open on both strings, with `aEnd - aStart == bEnd - bStart`. |
| GapScan.RunsOrdered | lagan/lagan_NLMSA.py:47-64 | Each run starts at or after the end of every earlier run, on both strings. |
| GapScan.RunsBounded | pw-m-lagan/mlagan/mlagan_NLMSA.py:95-115 | Runs stay within the gap-stripped length of each string. |
| GapScan.RunsCoverMatchedColumns | mlagan/mlagan_NLMSA.py:62-79 | Every column with a residue in both strings lies in exactly one run, at the same offset on both strings. |
| GapScan.RunsOnlyMatchedColumns | clustalw/Clustalw_NLMSA.py:218-235 | Conversely, every residue pair a run aligns comes from such a column. |
| GapScan.ResiduesIsPos | clustalw/Clustalw_NLMSA.py:229-237 | After the last column, a string's counter equals its gap-stripped length, so the `a_count` assertion always holds. |
| GapScan.IntervalListFails | clustalw/Clustalw_NLMSA.py:218-238 | The scan fails exactly when `b` is shorter than `a` (IndexError) or `b` holds a residue past `len(a)` (the `b_count` assertion). |
| GapScan.EqualLengthsSucceed | pw-m-lagan/lagan/lagan_NLMSA.py:102-103 | For strings of equal length both counter assertions hold. |
| GapScan.AppendRunPairs | clustalw/Clustalw_NLMSA.py:278-281 | The run loop appends one interval pair per run, in run order, each side offset by the start of its row. |
| GapScan.PairsOfRuns | pw-m-lagan/lagan/lagan_NLMSA.py:117-122 | The pairs built from the runs carry the two names, cover equal lengths inside the offset gap-stripped strings, and do not overlap on either side. |
| Clustalw.ClustalwResidues.constructor | clustalw/Clustalw_NLMSA.py:54-62 | The new block holds the given count, names and rows, plus its own element-by-element copy of the start indices. |
| Clustalw.ClustalwResidues.GapCount | clustalw/Clustalw_NLMSA.py:120-129 | One `count('-')` per row, in row order. |
| Clustalw.ClustalwResidues.UngappedCount | clustalw/Clustalw_NLMSA.py:131-142 | One `len(row) - count('-')` per row, in row order. |
| Clustalw.UngappedIsResidues | clustalw/Clustalw_NLMSA.py:131-142 | A row's ungapped count is the length of the row with its gaps removed, and is never negative. |
| Clustalw.UngappedZeroIffAllGaps | clustalw/Clustalw_NLMSA.py:100-102 | A row's ungapped count is zero exactly when the row is all gaps. |
| Clustalw.EndIndices | clustalw/Clustalw_NLMSA.py:105-118 | The end indices exist exactly when the block has at least `no_seq` rows and starts; there is then one per sequence. |
| Clustalw.ClustalwResidues.GetEndIndices | clustalw/Clustalw_NLMSA.py:105-118 | The loop returns `start + ungapped - 1` for a row with residues and `start` otherwise, or the IndexError. |
| Clustalw.EndIndexSpansResidues | clustalw/Clustalw_NLMSA.py:105-118 | A row with residues spans the inclusive range `[start, end]` of exactly its residues; an all-gap row has `end == start`. |
| Clustalw.ClustalwResidues.ResetStartIndices | clustalw/Clustalw_NLMSA.py:93-103 | The new start indices are the old ones, less one for every all-gap row. The count, names and rows are unchanged. |
| Clustalw.ResetOnlyAllGapRows | clustalw/Clustalw_NLMSA.py:93-103 | A start moves back by one exactly when its row is all gaps; every other start stays. |
| Clustalw.NameColumnBlankIsStrip | clustalw/Clustalw_NLMSA.py:155 | `not line[:16].strip()` holds exactly when the first 16 characters are white space. |
| Clustalw.CountMeaning | clustalw/Clustalw_NLMSA.py:150-158 | N is the index of the first line after the three header lines with a blank name column, all earlier lines having a name. The count fails with IndexError exactly when no such line exists. |
| Clustalw.CountSequences | clustalw/Clustalw_NLMSA.py:154-158 | The `while` loop gives that count, or the IndexError. |
| Clustalw.ParseRowOfRow | clustalw/Clustalw_NLMSA.py:169-182 | A row `name <blanks> residues`, with or without a trailing `<blanks> count`, reads back as its name and its residues. |
| Clustalw.ReadRows | clustalw/Clustalw_NLMSA.py:166-182 | The row loop gives the names and rows of the block's N lines, in order, or the first failure (a missing line or a row of the wrong arity). |
| Clustalw.AddInto | clustalw/Clustalw_NLMSA.py:186-187 | The running start of each sequence advances by that row's ungapped count. |
| Clustalw.ReadBlock | clustalw/Clustalw_NLMSA.py:166-192 | One loop turn builds a fresh block object whose starts are the running starts, reset for all-gap rows, and returns the running starts advanced by the block's ungapped counts. |
| Clustalw.ReadBlocks | clustalw/Clustalw_NLMSA.py:159-195 | The block loop gives fresh, pairwise distinct objects whose states are the blocks of the specification, or its error. |
| Clustalw.ReadClustalw | clustalw/Clustalw_NLMSA.py:144-149 | An empty list of lines raises IndexError. A first line not starting with `CLUSTAL ` fails the assertion. A result that reads has at least one block, each with N names, rows and starts. |
| Clustalw.ReadClustalwBlocks | clustalw/Clustalw_NLMSA.py:144-195 | `read_clustalw` fails exactly when the specification does, and with the same error. Otherwise its fresh, distinct objects hold the specified blocks. |
| Clustalw.StoredStarts | clustalw/Clustalw_NLMSA.py:183-192 | Block k stores, for sequence s, the residues s has in blocks 0..k-1, less one when its row in block k is all gaps. |
| Clustalw.BlocksAbut | clustalw/Clustalw_NLMSA.py:186-192 | When a sequence has residues in blocks k and k+1, its start in block k+1 is one past its inclusive end in block k. |
| Clustalw.CalcTotalLength | clustalw/Clustalw_NLMSA.py:197-205 | The loop gives the per-position sums of the blocks' ungapped counts, an IndexError on an empty list, or an IndexError when a block has more rows than the totals. |
| Clustalw.TotalIsResidueCount | clustalw/Clustalw_NLMSA.py:197-205 | For a file that reads, the totals are, per sequence, its residue count over all blocks. |
| Clustalw.BlockIvals | clustalw/Clustalw_NLMSA.py:258-283 | A block yields one list per row, each the list of that row. |
| Clustalw.BuildRowIvals | clustalw/Clustalw_NLMSA.py:258-283 | The `j` loop and the run loop give the list of row i. |
| Clustalw.BuildBlockIvals | clustalw/Clustalw_NLMSA.py:258-283 | The `i` loop gives the lists of every row of the block. |
| Clustalw.BuildIvalsOfBlock | clustalw/Clustalw_NLMSA.py:254-283 | One turn of the block loop computes the end indices (which exist for a block as read) and the block's lists. |
| Clustalw.BuildIvalsOfBlocks | clustalw/Clustalw_NLMSA.py:251-283 | The block loop gives the lists of all blocks, block by block, or the first failure. |
| Clustalw.BuildClustalwIvals | clustalw/Clustalw_NLMSA.py:242-283 | `build_clustalw_ivals` gives every list it yields, using the first block's names, or the error that stops it. |
| Clustalw.RowIvalsExact | clustalw/Clustalw_NLMSA.py:258-283 | A row whose start equals its end yields an empty list. Otherwise the list holds exactly the pairs of the runs of row i against each later row j whose start differs from its end. |
| Clustalw.RowIvalsInsideRows | clustalw/Clustalw_NLMSA.py:261-281 | Every pair in row i's list names sequence i and a later sequence j. Each side lies within its row's `[start, end + 1)` range, and both sides have equal length. |
| Clustalw.ClustalwIvalsLayout | clustalw/Clustalw_NLMSA.py:248-283 | There are N lists per block, and the list at position `k * N + i` is the list of row i of block k. |
| Clustalw.ClustalwIvalsSucceed | clustalw/Clustalw_NLMSA.py:248-283 | A file that reads, and whose rows within each block share one length, yields all its lists without error. |
| Blastz.ConvertToText | blastz/blastz_NLMSA.py:100-107 | The block's two stretches of text are the slices of its top and bottom ranges. |
| Blastz.ConvertToTextLengths | blastz/blastz_NLMSA.py:97-107 | A block of equal length on both sequences converts to two texts of `len(block)`. |
| Blastz.NewAlignment | blastz/blastz_NLMSA.py:64-78 | The constructor succeeds exactly when the orientation is 1 or -1, and otherwise fails the assertion. It keeps the names and the orientation. |
| Blastz.FindLavMarkers | blastz/blastz_NLMSA.py:111-129 | The `while` loop gives every `#:lav` offset from 1 on, then `len(buf) - 1`, or nothing when there is none. |
| Blastz.LavMarkersShape | blastz/blastz_NLMSA.py:111-129 | The markers are empty exactly when no `#:lav` occurs after offset 0. Otherwise they are those offsets, strictly increasing and complete, followed by `len(buf) - 1`. |
| Blastz.ConstructCoord | blastz/blastz_NLMSA.py:131-143 | The loop gives one range per pair of consecutive markers. |
| Blastz.Coords | blastz/blastz_NLMSA.py:131-143 | There are `len(list) - 1` ranges, and none for an empty list. |
| Blastz.SectionsTile | blastz/blastz_NLMSA.py:131-143 | Each range starts at a marker and holds no other marker. Each range ends one short of the next range's start, and the last one ends at `len(buf) - 1`. |
| Blastz.GetOrient | blastz/blastz_NLMSA.py:146-152 | Every section's orientation is 1; the records are not consulted. |
| Blastz.GetNames | blastz/blastz_NLMSA.py:154-173 | `get_names` succeeds exactly when there are at least two records, and gives at most two names. |
| Blastz.GetNamesOfHeader | blastz/blastz_NLMSA.py:159-171 | For a header `...h...>name1"...>name2"`, the names are the texts between each `>` and the following `"`. |
| Blastz.GatherLines | blastz/blastz_NLMSA.py:241-256 | The line loop gives the state its specification reaches after every line, or the first failure. |
| Blastz.ReadLine | blastz/blastz_NLMSA.py:246-256 | One line updates the score, begin, end or block list according to its first token. |
| Blastz.DuplicateFails | blastz/blastz_NLMSA.py:244-254 | A second `s`, `b` or `e` line in one record makes the record fail. |
| Blastz.Unpack2 | blastz/blastz_NLMSA.py:258-259 | Unpacking into two names succeeds exactly for two values, and gives them in order. |
| Blastz.BlockOf | blastz/blastz_NLMSA.py:261-262 | An `l x1 y1 x2 y2 id` line becomes the block `[x1 - 1, x2)` against `[y1 - 1, y2)` with identity `id`. It needs exactly five values. |
| Blastz.BlocksOf | blastz/blastz_NLMSA.py:261-262 | Every `l` line becomes its block, in order, when each has five values. |
| Blastz.RecordAlignment | blastz/blastz_NLMSA.py:236-267 | A record that parses gives an alignment with the given names and orientation. |
| Blastz.ParseRecord | blastz/blastz_NLMSA.py:236-267 | `_parse_record` computes that alignment, or the failure. |
| Blastz.RecordRoundTrip | blastz/blastz_NLMSA.py:241-267 | A record as blastz writes it (`s`, `b`, `e` and `l` lines) reads back with its score, its begin coordinates less one, its end coordinates kept, and one block per `l` line in order. |
| Blastz.SignificantKeeps | blastz/blastz_NLMSA.py:215 | The comment filter keeps exactly the lines that are neither empty nor start with `#`. |
| Blastz.RecordOfFacts | blastz/blastz_NLMSA.py:210-231 | A record yields an alignment exactly when its first kept line has `{` at index 2 and starts with `a`. The alignment carries the section's names and orientation. |
| Blastz.ReadRecord | blastz/blastz_NLMSA.py:211-231 | One loop turn gives nothing for a record left empty or not of type `a`. A short first line raises IndexError and a missing brace fails the assertion. |
| Blastz.ParseRecordBlock | blastz/blastz_NLMSA.py:203-233 | The record loop gives the alignments of the `a` records, in order, or the first failure. |
| Blastz.RecordBlockFacts | blastz/blastz_NLMSA.py:203-233 | A block that parses gives one alignment per `a` record, each with the section's names and orientation. |
| Blastz.ReadSection | blastz/blastz_NLMSA.py:191-199 | One section gives its records' alignments and its names. A section with fewer than two names fails. |
| Blastz.CollectSections | blastz/blastz_NLMSA.py:188-201 | The section loop concatenates the sections' alignments and unions their names, or gives the first failure. |
| Blastz.ParseBlastz | blastz/blastz_NLMSA.py:175-201 | `parse_blastz` gives all alignments and the set of names, or its error. |
| Blastz.BlastzHeader | blastz/blastz_NLMSA.py:180-186 | A buffer not starting with `#:lav` fails the assertion; one with no later marker gives no alignment and no name. |
| Blastz.BlastzNamesCovered | blastz/blastz_NLMSA.py:146-201 | Every alignment names two sequences from the returned name set and has orientation 1. |
| Blat.ConvertToText | blat/blat_NLMSA.py:83-90 | The block's query and target texts are the slices of its two ranges. |
| Blat.CalculateEnd | blat/blat_NLMSA.py:92-102 | `Ends[i] - Starts[i] == blockSize[i]` for every size. Fewer starts than sizes raise IndexError. |
| Blat.OrientPerSequence | blat/blat_NLMSA.py:127-130 | A one-character strand is doubled and a two-character one kept: the query's, then the target's. |
| Blat.CommaIntsRoundTrip | blat/blat_NLMSA.py:139-141 | A comma list as PSL writes it, with a trailing comma, reads back as its numbers. |
| Blat.BuildBlocks | blat/blat_NLMSA.py:142-155 | The block loop builds the blocks from the starts and the computed ends. |
| Blat.BlocksShape | blat/blat_NLMSA.py:142-155 | The blocks exist exactly when there are as many sizes as query starts and no more than target starts. Block i is `[qStarts[i], qStarts[i] + size[i])` against `[tStarts[i], tStarts[i] + size[i])`. |
| Blat.ParseRecord | blat/blat_NLMSA.py:125-161 | One record's fields read in the source's order give its alignment, or the first failure. |
| Blat.RecordFields | blat/blat_NLMSA.py:127-138 | A record that parses has its names from fields 9 and 13, its span from fields 11, 12, 15 and 16, and its strand from field 8. |
| Blat.RecordBlocks | blat/blat_NLMSA.py:139-155 | A record that parses has one block per query start, in the order of the comma lists, each of its block size on both sequences. |
| Blat.RecordParses | blat/blat_NLMSA.py:125-161 | Conversely, a record with readable fields and matching list lengths parses. |
| Blat.ParseBlat | blat/blat_NLMSA.py:104-163 | `parse_blat` gives the alignments and the name set, or its error. |
| Blat.BlatShape | blat/blat_NLMSA.py:110-124 | A buffer not starting with `psLayout` is rejected. Otherwise there is one alignment per record after the first five lines, each that record's parse. |
| Blat.BlatNames | blat/blat_NLMSA.py:144-163 | The name set is exactly the query and target names of the alignments. |
| Blat.BlatFails | blat/blat_NLMSA.py:125-161 | With the right header, the parse fails exactly when some record fails, and with the first such record's error. |
| Blat.StrandSign | blat/blat_NLMSA.py:186-194 | A strand character maps to 1 exactly when it is `+`, and to -1 otherwise. |
| Blat.BuildBlockPairs | blat/blat_NLMSA.py:176-199 | The block loop gives the pairs of one alignment. |
| Blat.BuildBlatIvals | blat/blat_NLMSA.py:165-201 | `build_blat_ivals` gives all the lists it yields, or the first failure. |
| Blat.BlatIvalsCounts | blat/blat_NLMSA.py:171-201 | There is exactly one list per alignment, including when there are none, and each list holds one pair per block of its alignment. |
| Blat.BlatIvalsShape | blat/blat_NLMSA.py:171-201 | There is one list per alignment and one pair per block, `(qName, qStart, qEnd, sign of strand[0])` against `(tName, tStart, tEnd, sign of strand[1])`. |
| Blat.ListsFail | blat/blat_NLMSA.py:184-194 | The lists fail exactly when some block has a strand shorter than two characters. |
| GappedFasta.FindMarkers | pw-m-lagan/mlagan/mlagan_NLMSA.py:66-82 | The loop gives the offset of every `>` and the header text after each one. |
| GappedFasta.MarkersShape | mlagan/mlagan_NLMSA.py:39-46 | The markers are `>` offsets, strictly increasing, and every `>` is among them. |
| GappedFasta.HeaderTextShape | pw-m-lagan/mlagan/mlagan_NLMSA.py:78-79 | A header text runs up to the next newline, or, on a last line without one, stops one character short of the end. It holds no newline. |
| GappedFasta.FirstWordsShape | pw-m-lagan/mlagan/mlagan_NLMSA.py:57-59 | The names are read exactly when every header has a word, and each name is its header's first word. |
| GappedFasta.ReadMlagan | pw-m-lagan/mlagan/mlagan_NLMSA.py:45-64 | `read_mlagan`'s loop removes each header text and reads each name, then removes newlines and splits at `>`. |
| GappedFasta.FastaRejects | pw-m-lagan/mlagan/mlagan_NLMSA.py:50 | An empty buffer raises IndexError and one not starting with `>` fails the assertion, in both readers. |
| GappedFasta.MlaganNames | mlagan/mlagan_NLMSA.py:20-25 | There is one name per marker, the first word of its header, in file order. |
| GappedFasta.MlaganTextsWithinNames | pw-m-lagan/mlagan/mlagan_NLMSA.py:55-62 | There are never more sequence texts than names. |
| GappedFasta.MlaganTextsFlat | mlagan/mlagan_NLMSA.py:27-29 | The sequence texts hold neither newlines nor `>`. |
| GappedFasta.LaganNames | pw-m-lagan/lagan/lagan_NLMSA.py:55-67 | With two markers or more, the names are the first words of the first two headers, and reading fails exactly when one of them has none. |
| GappedFasta.LaganHeaders | lagan/lagan_NLMSA.py:19-24 | The two header texts `read_lagan` finds are the first two that `find_markers` finds. |
| GappedFasta.LaganIsTwoSequenceMlagan | pw-m-lagan/lagan/lagan_NLMSA.py:47-69 | For a buffer with exactly two headers, `read_lagan` and `read_mlagan` agree. |
| Mlagan.BuildRow | pw-m-lagan/mlagan/mlagan_NLMSA.py:132-140 | The inner loop appends the pairs of text i against each later text, in order. |
| Mlagan.BuildMlaganIvals | pw-m-lagan/mlagan/mlagan_NLMSA.py:119-141 | `build_mlagan_ivals` gives every list it yields, or the error that stops it. |
| Mlagan.CreateMlagan | mlagan/mlagan_NLMSA.py:87-113 | The pair loop gives the correspondences handed to the index, in order, or the error. |
| Mlagan.MlaganIvalsSucceed | pw-m-lagan/mlagan/mlagan_NLMSA.py:124-141 | `build_mlagan_ivals` succeeds exactly when the buffer reads and every pair i<j of texts scans. The name lookups never fail. |
| Mlagan.EqualTextsSucceed | pw-m-lagan/mlagan/mlagan_NLMSA.py:128-141 | A buffer whose texts share one length yields all its lists. |
| Mlagan.MlaganLists | pw-m-lagan/mlagan/mlagan_NLMSA.py:128-141 | There is one list per text, and the last list is empty. List i is exactly `PairsOfRow` of text i: each later text j once, in increasing j, with one pair per run of their scan, in run order. Its members are exactly the pairs of the runs of text i against a later text. |
| Mlagan.RowFromPairsOfRow | pw-m-lagan/mlagan/mlagan_NLMSA.py:132-140 | From text j on, the inner loop extends the pairs against texts i+1 .. j-1 to the pairs against all later texts, text by text in order. |
| Mlagan.ListsAreRowLists | pw-m-lagan/mlagan/mlagan_NLMSA.py:128-141 | A successful outer loop means every pair i<j scans, and it yields exactly one `PairsOfRow` list per text, in text order. |
| Mlagan.CorrespondencesFlattenLists | mlagan/mlagan_NLMSA.py:92-110 | `create_NLMSA_mlagan` hands over the lists of `build_mlagan_ivals` one after the other, and fails exactly when that does. |
| Mlagan.CorrespondencesOfPairs | mlagan/mlagan_NLMSA.py:99-110 | The correspondences handed over are exactly the `PairsOfRow` lists of texts 0, 1, ... flattened in order: each pair i<j is scanned once, with one correspondence per run. As a set, they are exactly the pairs of the runs of some texts i<j. |
| Lagan.BuildPairs | pw-m-lagan/lagan/lagan_NLMSA.py:117-122 | The first two texts are scanned and one pair is appended per run. |
| Lagan.BuildLaganIvals | pw-m-lagan/lagan/lagan_NLMSA.py:108-124 | `build_lagan_ivals` yields that one list, or the error. |
| Lagan.CreateLagan | lagan/lagan_NLMSA.py:72-91 | The run loop gives the correspondences handed to the index, in run order. |
| Lagan.LaganSucceeds | pw-m-lagan/lagan/lagan_NLMSA.py:114-122 | The loaders succeed exactly when the buffer reads, gives two texts, and those texts scan. Texts of equal length always do. |
| Lagan.LaganPairs | pw-m-lagan/lagan/lagan_NLMSA.py:117-124 | Exactly one list: one pair per run, in run order, from the first header's sequence to the second's, equal in length and without overlap. |
| Lagan.LaganIsFirstMlaganList | pw-m-lagan/lagan/lagan_NLMSA.py:108-124 | For a buffer with exactly two headers whose read gives two texts, `build_lagan_ivals` yields the first list of `build_mlagan_ivals` and fails exactly when it does. |

## Left out

- The NLMSA index is an external collaborator, so the model stops at the correspondences. Not modelled: `al += seqDb[...]`, `al[ival] += ival2`, `add_aligned_intervals`, `al.build()` and `nlmsa_utils.CoordsToIntervals`.
- `create_NLMSA_clustalw`, `create_NLMSA_blastz`, `create_NLMSA_blat` and `create_NLMSA_tblat` only feed the index, and the translation database is foreign code.
- Sequence lookup is not modelled. A `seqDb[name]` slice is a name and a coordinate range. A name missing from `seqDb` (a KeyError) is not modelled. A slice of a slice is the sum of the two starts, without the clamp a Python slice applies past the end of the sequence.
- The generators (`build_*_ivals`) are modelled as the list of every list they yield. A failure part-way is a failure of the whole call, so the lists yielded before it are not visible.
- `list(set(...))` is a set. The order Python lists it in is not part of the model.
- `str.split()` and `str.strip()` use ASCII white space only. `int()` is plain decimal with an optional sign and surrounding white space; other forms Python 2 accepts are not modelled.
- Clustalw.ClustalwResidues.ResetStartIndices: requires the block to have `no_seq` rows and starts. Its only caller builds it so, and the IndexError path is not modelled.
- The accessors `get_no_seqs`, `get_names`, `get_seqs` and `get_start_indices` are the fields of the class, read directly.
- The blastz and BLAT alignment and block classes are never updated after construction, so they are datatypes. `len(block)` is `Len`.
- File reading, and the tests that query the built index from data files, are I/O.
