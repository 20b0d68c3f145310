# A verified model of parts of BioJava

This project is a Dafny model of a selection of BioJava classes, together with proofs about them.
Each Java class becomes one module. Classes whose fields change in place become Dafny classes, with
`modifies` and `reads` frames. Value classes and pure helpers become datatypes and functions. Loops
become methods whose invariants tie them to a specification function. Thrown exceptions become
`Result` values. Java's 16- and 32-bit integer arithmetic and its truncating `/` and `%` are written
out in `JavaLang`.

| file | module | models |
|---|---|---|
| `wrappers.dfy` | `Wrappers` | `Option` and `Result`, standing in for `null` and thrown exceptions |
| `java_lang.dfy` | `JavaLang` | 16- and 32-bit truncation, truncating division, `String.trim`, `equalsIgnoreCase`, decimal text of an `int` and its parsing |
| `needleman_wunsch.dfy` | `Alignment` | `NeedlemanWunsch`: the linear- and affine-gap score matrices, the traceback and `align` |
| `aligned_sequence.dfy`, `sequence_pair.dfy` | `AlignedSequences`, `SequencePairs` | `SimpleSequencePair`: the two aligned rows, the memoised counts of identical and similar columns, and the index arithmetic of an aligned row |
| `dna_to_rna.dfy`, `rna_to_amino_acid.dfy` | `DnaToRna`, `RnaToAminoAcid` | the DNA→RNA and RNA→amino-acid translators |
| `locations.dfy` | `Locations` | the range, point, fuzzy and compound locations shared by the writers and parsers |
| `seq_format_tools.dfy` | `SeqFormat` | `SeqFormatTools`: qualifier and location line wrapping, location text |
| `insdc_writer.dfy` | `Insdc` | `InsdcWriter`: location text in the INSDC syntax of each data source |
| `embl_file_former.dfy` | `EmblFormer` | `EmblFileFormer`: the ID, accession, feature and sequence sections of an EMBL entry |
| `embl_like_location_parser.dfy`, `embl_like_location_examples.dfy` | `EmblLikeLocations`, `EmblLikeExamples` | `EmblLikeLocationParser`: the token lexer, the parsing state machine, and worked location forms |
| `genbank_location_parser.dfy`, `genbank_round_trip.dfy` | `GenbankLocations`, `GenbankRoundTrip` | `GenbankLocationParser` and the location text its `writeLocation` produces, with the round trip for simple locations |
| `chunked_symbol_list.dfy` | `Chunked` | `ChunkedSymbolListFactory` and the chunked symbol list it builds |
| `assembled_symbol_list.dfy` | `Assembled` | `AssembledSymbolList`: components laid on a sequence, gaps read as `n` |
| `circular_location.dfy` | `Circular` | `CircularLocation`: the wrapped blocks in natural order, rotated so the block at the 5' end comes first |
| `line_split_parser.dfy` | `LineSplit` | `LineSplitParser`: a line split at a fixed column into tag and value, end-of-record lines, and continuation lines |
| `feature_filter.dfy` | `FeatureFilters` | `FeatureFilter`: what each filter accepts, and the `equals`/`isProperSubset`/`isDisjoint` shortcuts |
| `integer_alphabet.dfy` | `IntegerAlphabets` | `IntegerAlphabet`, its integer symbols and symbol lists, and `SubIntegerAlphabet` over a closed range |
| `cache_list.dfy` | `CacheLists` | `CacheList`: writes kept in a shadow list over a delegate list until commit or rollback |
| `fixed_width_parser.dfy` | `FixedWidth` | `FixedWidthParser`: text cut into tokens of one width and looked up in a token table |
| `simple_annotation.dfy` | `Annotations` | `SimpleAnnotation`: a property map allocated on the first write or rendering |
| `all_tokens_alphabet.dfy` | `AllTokens` | `AllTokensAlphabet`: a token alphabet that grows as tokens are asked for |
| `dist_component_feature.dfy` | `DistComponent` | `DistComponentFeature`: a component placed on an assembly, and the offset between their coordinates |

The table below lists, for every member that states a property of the source, the source lines it
models and what its contract says. Paths are relative to the root of the BioJava source tree.

## Model

| member | source | states |
|---|---|---|
| Alignment.Max3 | biojava3-alignment/src/main/java/org/biojava3/alignment/NeedlemanWunsch.java:158 | the result is at least each of the three values and is one of them |
| Alignment.LinCell | biojava3-alignment/src/main/java/org/biojava3/alignment/NeedlemanWunsch.java:94-105 | every cell of the linear matrix is a 16-bit value, as the `(short)` cast leaves it |
| Alignment.LinColumnStep | biojava3-alignment/src/main/java/org/biojava3/alignment/NeedlemanWunsch.java:94-96 | a column-0 cell below the origin is the cell above it plus the extension penalty, cast to short |
| Alignment.LinRowStep | biojava3-alignment/src/main/java/org/biojava3/alignment/NeedlemanWunsch.java:97-99 | a row-0 cell right of the origin is the cell left of it plus the extension penalty, cast to short |
| Alignment.LinInnerStep | biojava3-alignment/src/main/java/org/biojava3/alignment/NeedlemanWunsch.java:100-105 | an inner cell is the cast of the best of: up plus extension, left plus extension, diagonal plus the substitution score |
| Alignment.FillLinear | biojava3-alignment/src/main/java/org/biojava3/alignment/NeedlemanWunsch.java:86-106 | returns a new (n+1)×(m+1) matrix holding every cell of the linear recurrence |
| Alignment.FillLinearRow | biojava3-alignment/src/main/java/org/biojava3/alignment/NeedlemanWunsch.java:100-105 | after row x is filled, every cell of rows 0..x and of column 0 holds the recurrence's value |
| Alignment.LinearMove | biojava3-alignment/src/main/java/org/biojava3/alignment/NeedlemanWunsch.java:110-129 | the highroad move goes up only when x > 0, left only when y > 0, and diagonally only when both are, so the walk stays inside the matrix |
| Alignment.NoDoubleGapAt | biojava3-alignment/src/main/java/org/biojava3/alignment/NeedlemanWunsch.java:110-129 | no column of a traceback shows a gap in both rows |
| Alignment.LinearTrace | biojava3-alignment/src/main/java/org/biojava3/alignment/NeedlemanWunsch.java:107-130 | the path back from (x, y) is well formed: equal lengths, x compounds in the query row, y in the target row, no double-gap column |
| Alignment.TracebackLinear | biojava3-alignment/src/main/java/org/biojava3/alignment/NeedlemanWunsch.java:107-130 | the loop returns exactly the highroad path from (n, m), a well-formed alignment of both whole sequences |
| Alignment.ReplayExtend | biojava3-alignment/src/main/java/org/biojava3/alignment/NeedlemanWunsch.java:110-129 | one more column adds its own score: the substitution score for a compound pair, the extension penalty for a gap |
| Alignment.LinearMoveScore | biojava3-alignment/src/main/java/org/biojava3/alignment/NeedlemanWunsch.java:115-129 | without overflow, the cell a highroad move comes from differs from (x, y) by exactly that move's score, the Left case included |
| Alignment.LinearTraceReplaysScore | biojava3-alignment/src/main/java/org/biojava3/alignment/NeedlemanWunsch.java:94-130 | without overflow, the column scores along the highroad alignment add up to the cell's score: the alignment returned achieves the score reported |
| Alignment.Sentinel | biojava3-alignment/src/main/java/org/biojava3/alignment/NeedlemanWunsch.java:135 | `min` is a 16-bit value, and equals Short.MIN_VALUE - open - extension whenever that fits |
| Alignment.AffM | biojava3-alignment/src/main/java/org/biojava3/alignment/NeedlemanWunsch.java:137-154 | every cell of scores (M) in affine mode is a 16-bit value |
| Alignment.AffIX | biojava3-alignment/src/main/java/org/biojava3/alignment/NeedlemanWunsch.java:137-154 | every cell of ix is a 16-bit value |
| Alignment.AffIY | biojava3-alignment/src/main/java/org/biojava3/alignment/NeedlemanWunsch.java:137-154 | every cell of iy is a 16-bit value |
| Alignment.AffColumnStep | biojava3-alignment/src/main/java/org/biojava3/alignment/NeedlemanWunsch.java:137-140 | a column-0 cell below the origin holds min in scores and iy, and ix above it plus the extension penalty in ix |
| Alignment.AffRowStep | biojava3-alignment/src/main/java/org/biojava3/alignment/NeedlemanWunsch.java:141-144 | a row-0 cell right of the origin holds min in scores and ix, and iy left of it plus the extension penalty in iy |
| Alignment.AffMStep | biojava3-alignment/src/main/java/org/biojava3/alignment/NeedlemanWunsch.java:147-148 | scores at an inner cell is the cast of the best diagonal value of the three matrices plus the substitution score |
| Alignment.AffIXStep | biojava3-alignment/src/main/java/org/biojava3/alignment/NeedlemanWunsch.java:149-150 | ix at an inner cell is the cast of the better of (scores above + open) and (ix above), plus extension |
| Alignment.AffIYStep | biojava3-alignment/src/main/java/org/biojava3/alignment/NeedlemanWunsch.java:151-152 | iy at an inner cell is the cast of the better of (scores left + open) and (iy left), plus extension |
| Alignment.FillAffine | biojava3-alignment/src/main/java/org/biojava3/alignment/NeedlemanWunsch.java:133-154 | returns three new, distinct (n+1)×(m+1) arrays holding the three matrices at every cell |
| Alignment.FillAffineBorders | biojava3-alignment/src/main/java/org/biojava3/alignment/NeedlemanWunsch.java:136-144 | the origin, row 0 and column 0 of the three arrays hold the recurrences' values |
| Alignment.FillAffineRow | biojava3-alignment/src/main/java/org/biojava3/alignment/NeedlemanWunsch.java:145-154 | after row x, every cell of rows 0..x and of column 0 of the three arrays holds the recurrences' values |
| Alignment.StartState | biojava3-alignment/src/main/java/org/biojava3/alignment/NeedlemanWunsch.java:158-159 | the chosen matrix holds the largest of the three values; ties go to ix, then to scores (IY only when strictly larger than both, M only when strictly larger than ix) |
| Alignment.AffineTrace | biojava3-alignment/src/main/java/org/biojava3/alignment/NeedlemanWunsch.java:156-182 | a walk that stays inside the matrices gives a well-formed alignment, and the walk from the origin is empty |
| Alignment.TracebackAffine | biojava3-alignment/src/main/java/org/biojava3/alignment/NeedlemanWunsch.java:156-182 | the loop returns exactly the affine walk from (n, m) in the start state, and None where the Java code reads index -1 |
| Alignment.Collapse | biojava3-alignment/src/main/java/org/biojava3/alignment/NeedlemanWunsch.java:184-188 | afterwards each cell of scores holds the cast of the largest of its old value, ix and iy; ix and iy are unchanged |
| Alignment.CollapseRow | biojava3-alignment/src/main/java/org/biojava3/alignment/NeedlemanWunsch.java:185-187 | row x of scores gets the largest of the three matrices, every other row keeps its old values |
| Alignment.WellFormedFits | biojava3-alignment/src/main/java/org/biojava3/alignment/NeedlemanWunsch.java:193 | the two step lists of a well-formed traceback are accepted by the SimpleSequencePair constructor |
| Alignment.AlignAffine | biojava3-alignment/src/main/java/org/biojava3/alignment/NeedlemanWunsch.java:133-188 | the affine path returned is the walk from the start state, and when it exists scores holds the largest of the three matrices |
| Alignment.NeedlemanWunsch.constructor | biojava3-alignment/src/main/java/org/biojava3/alignment/NeedlemanWunsch.java:65-67 | stores the query, target, gap penalty and substitution matrix; nothing has been aligned yet |
| Alignment.NeedlemanWunsch.Align | biojava3-alignment/src/main/java/org/biojava3/alignment/NeedlemanWunsch.java:74-200 | with an input missing or different compound sets, it leaves pair and scores null. Otherwise score is the bottom-right cell, and pair is a new pair over the traceback's step lists. scores is kept only when storing is on. The affine walk that leaves the matrices is the one failure |
| Alignment.AffReplayExtend | biojava3-alignment/src/main/java/org/biojava3/alignment/NeedlemanWunsch.java:160-181 | one more traceback column adds the substitution score for a compound pair, the extension penalty for a gap that continues a gap in the same row, and open plus extension for a gap that starts one |
| Alignment.TraceEndsWith | biojava3-alignment/src/main/java/org/biojava3/alignment/NeedlemanWunsch.java:160-181 | a walk out of a state that reaches the origin ends with the column that state emits: Up for ix, Diag for scores, Left for iy |
| Alignment.StepOutOfM | biojava3-alignment/src/main/java/org/biojava3/alignment/NeedlemanWunsch.java:147-173 | without overflow, scores at (x, y) is the value of the state line 173 picks at the diagonal cell plus the substitution score (the substitution score alone at (1, 1)) |
| Alignment.StepOutOfIX | biojava3-alignment/src/main/java/org/biojava3/alignment/NeedlemanWunsch.java:149-166 | without overflow, ix at (x, y) is the value of the state line 166 picks above, plus the extension penalty, plus the opening penalty exactly when that state is scores |
| Alignment.StepOutOfIY | biojava3-alignment/src/main/java/org/biojava3/alignment/NeedlemanWunsch.java:151-180 | without overflow, iy at (x, y) is the value of the state line 179 picks to the left, plus the extension penalty, plus the opening penalty exactly when that state is scores |
| Alignment.ReplayOutOfM | biojava3-alignment/src/main/java/org/biojava3/alignment/NeedlemanWunsch.java:168-173 | if the rest of the walk replays to the value of the state it starts in, the walk out of scores replays to scores at (x, y) |
| Alignment.ReplayOutOfIX | biojava3-alignment/src/main/java/org/biojava3/alignment/NeedlemanWunsch.java:162-166 | if the rest of the walk replays to the value of the state it starts in, the walk out of ix replays to ix at (x, y) |
| Alignment.ReplayOutOfIY | biojava3-alignment/src/main/java/org/biojava3/alignment/NeedlemanWunsch.java:175-180 | if the rest of the walk replays to the value of the state it starts in, the walk out of iy replays to iy at (x, y) |
| Alignment.AffineTraceReplaysScore | biojava3-alignment/src/main/java/org/biojava3/alignment/NeedlemanWunsch.java:137-182 | with penalties no greater than 0 and no overflow, every affine walk that reaches the origin scores, column by column with one opening per gap, exactly the value of the matrix it starts in |
| Alignment.AffineScoreReplays | biojava3-alignment/src/main/java/org/biojava3/alignment/NeedlemanWunsch.java:156-192 | with penalties no greater than 0 and no overflow, the affine pair align() builds scores exactly the score it reports |
| Alignment.LinearScoreReplays | biojava3-alignment/src/main/java/org/biojava3/alignment/NeedlemanWunsch.java:94-192 | without overflow, the linear pair align() builds scores exactly the score it reports |
| Alignment.LinearQueryBorder | biojava3-alignment/src/main/java/org/biojava3/alignment/NeedlemanWunsch.java:97-113 | linear mode, empty query prefix: cell (0, y) is y times the extension penalty, and the walk back is y gap-over-compound columns |
| Alignment.LinearTargetBorder | biojava3-alignment/src/main/java/org/biojava3/alignment/NeedlemanWunsch.java:94-117 | linear mode, empty target prefix: cell (x, 0) is x times the extension penalty, and the walk back is x compound-over-gap columns |
| Alignment.AffineQueryBorder | biojava3-alignment/src/main/java/org/biojava3/alignment/NeedlemanWunsch.java:135-144 | affine mode, row 0: iy at (0, y) is open plus y extensions, and scores and ix hold min, while the gap costs less than min |
| Alignment.AffineQueryWalk | biojava3-alignment/src/main/java/org/biojava3/alignment/NeedlemanWunsch.java:175-180 | affine mode, row 0: the walk back from iy is y gap-over-compound columns, while the gap costs less than min |
| Alignment.AffineTargetBorder | biojava3-alignment/src/main/java/org/biojava3/alignment/NeedlemanWunsch.java:135-140 | affine mode, column 0: ix at (x, 0) is open plus x extensions, and scores and iy hold min, while the gap costs no less than min |
| Alignment.AffineTargetWalk | biojava3-alignment/src/main/java/org/biojava3/alignment/NeedlemanWunsch.java:160-166 | affine mode, column 0: the walk back from ix is x compound-over-gap columns, while the gap costs no less than min |
| Alignment.AffineEmptyQuery | biojava3-alignment/src/main/java/org/biojava3/alignment/NeedlemanWunsch.java:133-192 | an empty query against m > 0 compounds scores one gap, open plus m extensions, and aligns every target compound against a gap |
| Alignment.AffineEmptyTarget | biojava3-alignment/src/main/java/org/biojava3/alignment/NeedlemanWunsch.java:133-192 | an empty target against n > 0 compounds scores one gap, open plus n extensions, and aligns every query compound against a gap |
| Alignment.LinearScoreAtMost | biojava3-alignment/src/main/java/org/biojava3/alignment/NeedlemanWunsch.java:100-105 | when no compound pair scores more than best (best at least 0, extension at most 0), no cell beats min(x, y) pairs at best plus abs(x - y) gaps |
| Alignment.SelfScore | biojava3-alignment/src/main/java/org/biojava3/alignment/NeedlemanWunsch.java:100-105 | a sequence against itself, best on the diagonal of the substitution scores: cell (k, k) is k times best |
| Alignment.SelfMove | biojava3-alignment/src/main/java/org/biojava3/alignment/NeedlemanWunsch.java:114-122 | a sequence against itself, unless best and the extension penalty are both 0: the highroad steps diagonally out of (k, k) |
| Alignment.SelfWalk | biojava3-alignment/src/main/java/org/biojava3/alignment/NeedlemanWunsch.java:107-130 | a sequence against itself, unless best and the extension penalty are both 0: the walk back from (k, k) pairs every compound with itself |
| Alignment.SelfAlignment | biojava3-alignment/src/main/java/org/biojava3/alignment/NeedlemanWunsch.java:86-193 | a sequence aligned with itself scores length times best; unless best and extension are both 0, the pair is the sequence over itself, every column identical |
| Alignment.OneGapReplay | biojava3-alignment/src/main/java/org/biojava3/alignment/NeedlemanWunsch.java:149-152 | two query compounds after two pairs, as one gap, score the two substitution scores plus one opening and two extensions |
| Alignment.SpreadGapsReplay | biojava3-alignment/src/main/java/org/biojava3/alignment/NeedlemanWunsch.java:149-152 | the same two compounds spread between the pairs score two openings and two extensions |
| Alignment.AffineFavoursOneGap | biojava3-alignment/src/main/java/org/biojava3/alignment/NeedlemanWunsch.java:149-152 | with an opening penalty below 0, the single gap scores at least the spread gaps plus the saved opening penalty |
| AlignedSequences.CompoundCountMonotone | biojava3-alignment/src/main/java/org/biojava3/alignment/SimpleSequencePair.java:71-73 | counting the compounds of a longer prefix of a row never gives fewer |
| AlignedSequences.AlignedSequence.SequenceIndexAt | biojava3-alignment/src/main/java/org/biojava3/alignment/SimpleSequencePair.java:71-73 | the sequence index at column a is at most a and at most the number of compounds, and at least 1 where column a shows a compound |
| AlignedSequences.AlignedSequence.CompoundAt | biojava3-alignment/src/main/java/org/biojava3/alignment/SimpleSequencePair.java:60-63 | a gap column shows the gap symbol; a compound column shows the original compound at that column's sequence index |
| AlignedSequences.AlignedSequence.AlignmentIndexAt | biojava3-alignment/src/main/java/org/biojava3/alignment/SimpleSequencePair.java:75-78 | the column of the s-th compound shows a compound, and its sequence index is s (an inverse of SequenceIndexAt) |
| AlignedSequences.ColumnOf | biojava3-alignment/src/main/java/org/biojava3/alignment/SimpleSequencePair.java:75-78 | the first column whose prefix holds s compounds: it shows a compound, and the prefix before it holds s - 1 |
| AlignedSequences.ColumnOfMonotone | biojava3-alignment/src/main/java/org/biojava3/alignment/SimpleSequencePair.java:75-78 | later compounds sit in later (or the same) columns |
| SequencePairs.IdenticalColumns | biojava3-alignment/src/main/java/org/biojava3/alignment/SimpleSequencePair.java:90-101 | the identity count over columns 1..k is at most k |
| SequencePairs.SimilarColumns | biojava3-alignment/src/main/java/org/biojava3/alignment/SimpleSequencePair.java:103-114 | the similarity count over columns 1..k is at most k |
| SequencePairs.IdenticalColumnsOfSameRow | biojava3-alignment/src/main/java/org/biojava3/alignment/SimpleSequencePair.java:90-101 | a row aligned against itself is identical in every column |
| SequencePairs.CheckPair | biojava3-alignment/src/main/java/org/biojava3/alignment/SimpleSequencePair.java:56-58 | the pair is accepted exactly when both step lists have the same length and each holds one compound step per compound of its sequence |
| SequencePairs.SimpleSequencePair.constructor | biojava3-alignment/src/main/java/org/biojava3/alignment/SimpleSequencePair.java:56-58 | aligned sequences 1 and 2 are built from the query, the target and the two step lists; neither count has been computed (-1) |
| SequencePairs.SimpleSequencePair.CompoundInQueryAt | biojava3-alignment/src/main/java/org/biojava3/alignment/SimpleSequencePair.java:60-63 | the compound at a column is aligned sequence 1's compound there |
| SequencePairs.SimpleSequencePair.CompoundInTargetAt | biojava3-alignment/src/main/java/org/biojava3/alignment/SimpleSequencePair.java:65-68 | the compound at a column is aligned sequence 2's compound there |
| SequencePairs.SimpleSequencePair.IndexInQueryAt | biojava3-alignment/src/main/java/org/biojava3/alignment/SimpleSequencePair.java:70-73 | the query index at a column is aligned sequence 1's sequence index there, never past the query's end |
| SequencePairs.SimpleSequencePair.IndexInTargetAt | biojava3-alignment/src/main/java/org/biojava3/alignment/SimpleSequencePair.java:80-83 | the target index at a column is aligned sequence 2's sequence index there, never past the target's end |
| SequencePairs.SimpleSequencePair.IndexInQueryForTargetAt | biojava3-alignment/src/main/java/org/biojava3/alignment/SimpleSequencePair.java:75-78 | the query index in the column that shows the t-th target compound; that column does show it |
| SequencePairs.SimpleSequencePair.IndexInTargetForQueryAt | biojava3-alignment/src/main/java/org/biojava3/alignment/SimpleSequencePair.java:85-88 | the target index in the column that shows the q-th query compound; that column does show it |
| SequencePairs.SimpleSequencePair.GetNumIdenticals | biojava3-alignment/src/main/java/org/biojava3/alignment/SimpleSequencePair.java:90-101 | returns the number of columns whose two compounds are equal ignoring case, caches it, and on a later call returns the cached value |
| SequencePairs.SimpleSequencePair.GetNumSimilars | biojava3-alignment/src/main/java/org/biojava3/alignment/SimpleSequencePair.java:103-114 | returns the number of columns whose two compounds the compound set calls equivalent, caches it, and on a later call returns the cached value |
| SequencePairs.NewSimpleSequencePair | biojava3-alignment/src/main/java/org/biojava3/alignment/SimpleSequencePair.java:56-58 | refuses step lists that do not fit (IllegalArgumentException) with the reason, and otherwise builds the pair |
| SequencePairs.IndexInQueryForTargetMonotone | biojava3-alignment/src/main/java/org/biojava3/alignment/SimpleSequencePair.java:75-78 | the query index opposite a target compound never decreases as the target index grows |
| SequencePairs.SimpleSequencePair.CountIdenticals | biojava3-alignment/src/main/java/org/biojava3/alignment/SimpleSequencePair.java:92-97 | the column loop counts exactly the columns whose two compounds are equal ignoring case |
| SequencePairs.SimpleSequencePair.CountSimilars | biojava3-alignment/src/main/java/org/biojava3/alignment/SimpleSequencePair.java:105-110 | the column loop counts exactly the columns whose two compounds the compound set calls equivalent |
| FixedWidth.ParseFrom | src/org/biojava/bio/seq/FixedWidthParser.java:63-69 | from position i with a positive width, a parse that succeeds yields one residue per token, exactly covering the rest of the input. A failed lookup names a width-sized token missing from the table, and the loop never diverges |
| FixedWidth.Parse | src/org/biojava/bio/seq/FixedWidthParser.java:63-69 | an empty input gives no residues. A negative width fails with an out-of-bounds substring, and a zero width never succeeds on non-empty input. With a positive width, success means the input is a whole number of tokens |
| FixedWidth.ParseFromTokens | src/org/biojava/bio/seq/FixedWidthParser.java:63-69 | the k-th residue from position i is the table's residue for the k-th width-sized slice after i |
| FixedWidth.ParseFromWholeTokens | src/org/biojava/bio/seq/FixedWidthParser.java:63-69 | from a position a whole number of tokens before the end, the parse never runs past the input |
| FixedWidth.FixedWidthParser.constructor | src/org/biojava/bio/seq/FixedWidthParser.java:87-90 | stores the alphabet and the token length, with an empty token map |
| FixedWidth.FixedWidthParser.ParseToken | src/org/biojava/bio/seq/FixedWidthParser.java:71-76 | succeeds exactly for a mapped token, with its residue. Under the parser's invariant, that residue is in the alphabet and the token has the parser's width |
| FixedWidth.FixedWidthParser.AddTokenMap | src/org/biojava/bio/seq/FixedWidthParser.java:78-85 | the residue is checked first, then the token length. Only when both pass is the mapping added, replacing an earlier one. The map keeps only width-sized tokens of alphabet residues |
| FixedWidth.FixedWidthParser.ParseString | src/org/biojava/bio/seq/FixedWidthParser.java:63-69 | the loop returns exactly what Parse gives for the parser's map and width |
| FixedWidth.ParseTokens | src/org/biojava/bio/seq/FixedWidthParser.java:63-69 | a successful parse maps each token of the input, in order, to its residue |
| FixedWidth.ParseWholeTokens | src/org/biojava/bio/seq/FixedWidthParser.java:63-69 | an input of n whole tokens never fails for lack of characters |
| Annotations.Entries | src/org/biojava/bio/seq/SimpleAnnotation.java:77-85 | no keys give no text, and one key gives exactly its "key=value" entry |
| Annotations.EntriesSeparators | src/org/biojava/bio/seq/SimpleAnnotation.java:77-85 | with no commas in keys or values, toString puts one comma fewer than there are keys |
| Annotations.SimpleAnnotation.constructor | src/org/biojava/bio/seq/SimpleAnnotation.java:38 | a new annotation has not allocated its map |
| Annotations.SimpleAnnotation.GetProperty | src/org/biojava/bio/seq/SimpleAnnotation.java:60-64 | before the map exists every key is refused (IllegalArgumentException). Afterwards it returns the stored value, or null for an unknown key |
| Annotations.SimpleAnnotation.Keys | src/org/biojava/bio/seq/SimpleAnnotation.java:70-72 | fails (NullPointerException) before the map exists; afterwards it returns exactly the keys getProperty finds a value for |
| Annotations.SimpleAnnotation.SetProperty | src/org/biojava/bio/seq/SimpleAnnotation.java:66-68 | allocates the map if needed and stores the value under the name. Every other key reads as before |
| Annotations.SimpleAnnotation.ToString | src/org/biojava/bio/seq/SimpleAnnotation.java:74-88 | allocates the map if needed and returns "{" + the entries in iteration order + "}", which is "{}" exactly for an empty map |
| CacheLists.Nulls | src/org/biojava/bio/program/indexdb/CacheList.java:52-55 | n null slots |
| CacheLists.CacheList.constructor | src/org/biojava/bio/program/indexdb/CacheList.java:49-56 | the shadow holds one null per element of the delegate |
| CacheLists.CacheList.Size | src/org/biojava/bio/program/indexdb/CacheList.java:58-60 | the size is the shadow's size |
| CacheLists.CacheList.Get | src/org/biojava/bio/program/indexdb/CacheList.java:62-69 | a non-null shadow slot wins; a null slot reads through to the delegate. An index outside the shadow (or, when reading through, outside the delegate) is an error |
| CacheLists.CacheList.Set | src/org/biojava/bio/program/indexdb/CacheList.java:71-73 | writes only the shadow and returns the previous shadow entry; an index outside the shadow is an error; every other slot reads as before |
| CacheLists.CacheList.Add | src/org/biojava/bio/program/indexdb/CacheList.java:75-77 | appends to the shadow only and returns true; existing slots read as before |
| CacheLists.CacheList.Commit | src/org/biojava/bio/program/indexdb/CacheList.java:87-96 | the delegate is replaced by the shadow, nulls included, and made durable. Afterwards every slot reads as its shadow entry |
| CacheLists.CacheList.Rollback | src/org/biojava/bio/program/indexdb/CacheList.java:98-105 | the delegate returns to its durable contents and the shadow to one null per element; every slot then reads the durable value |
| DnaToRna.Lookup | biojava3-core/src/main/java/org/biojava3/core/sequence/transcription/DNAToRNATranslator.java:25-26 | the RNA set yields a compound exactly when it has one by that name, and then that compound |
| DnaToRna.DefaultTableContents | biojava3-core/src/main/java/org/biojava3/core/sequence/transcription/DNAToRNATranslator.java:19-30 | the default table holds exactly the DNA compounds not equal, ignoring case, to the set's "T" (none when the set has no "T"), each sent to the RNA compound of the same name |
| DnaToRna.DNAToRNATranslator.constructor | biojava3-core/src/main/java/org/biojava3/core/sequence/transcription/DNAToRNATranslator.java:12-37 | every DNA compound other than T and t maps to its RNA namesake; t's key (null when the set lacks "t") maps to u, and T's key to U unless t's null key overwrote it; keys are DNA compounds or null, and null is a key exactly when T or t is missing |
| DnaToRna.MissingThymineIsNullKey | biojava3-core/src/main/java/org/biojava3/core/sequence/transcription/DNAToRNATranslator.java:19-37 | with no "T" in the DNA set, U (or u, when "t" is missing too) lands under the null key, t still maps to u, and every other compound maps to its namesake |
| DnaToRna.DNAToRNATranslator.PostProcessCompoundLists | biojava3-core/src/main/java/org/biojava3/core/sequence/transcription/DNAToRNATranslator.java:39-43 | the compound lists are left as they are |
| DnaToRna.Transcribe | biojava3-core/src/main/java/org/biojava3/core/sequence/transcription/DNAToRNATranslator.java:10-17 | the transcription has one compound per DNA compound, each the table's image of it |
| DnaToRna.TranscribeReplacesThymine | biojava3-core/src/main/java/org/biojava3/core/sequence/transcription/DNAToRNATranslator.java:19-37 | transcribing replaces T by U and t by u and keeps every other compound that the RNA set also has |
| RnaToAminoAcid.CodonsFor | biojava3-core/src/main/java/org/biojava3/core/sequence/transcription/RNAToAminoAcidTranslator.java:41-47 | the multimap's list for an amino acid holds only table codons of that amino acid |
| RnaToAminoAcid.QuickLookupContents | biojava3-core/src/main/java/org/biojava3/core/sequence/transcription/RNAToAminoAcidTranslator.java:39-47 | a nucleotide triple is looked up exactly when some table codon has it, and then to the last such codon of the table |
| RnaToAminoAcid.Translated | biojava3-core/src/main/java/org/biojava3/core/sequence/transcription/RNAToAminoAcidTranslator.java:50-69 | with stop trimming no "*" is added, and no window adds more than one amino acid |
| RnaToAminoAcid.TranslatedWindows | biojava3-core/src/main/java/org/biojava3/core/sequence/transcription/RNAToAminoAcidTranslator.java:59-69 | without stop trimming, the i-th amino acid is the one the table gives the i-th codon window |
| RnaToAminoAcid.RNAToAminoAcidTranslator.constructor | biojava3-core/src/main/java/org/biojava3/core/sequence/transcription/RNAToAminoAcidTranslator.java:29-48 | stores both switches and fills quickLookup and aminoAcidToCodon in one pass over the table |
| RnaToAminoAcid.RNAToAminoAcidTranslator.CreateSequences | biojava3-core/src/main/java/org/biojava3/core/sequence/transcription/RNAToAminoAcidTranslator.java:59-85 | translates each whole window in order (an unknown window fails with the NullPointerException of line 68); no amino acid gives no sequence, otherwise one post-processed sequence |
| RnaToAminoAcid.RNAToAminoAcidTranslator.TranslationStops | biojava3-core/src/main/java/org/biojava3/core/sequence/transcription/RNAToAminoAcidTranslator.java:66-69 | once a window fails, every longer prefix fails the same way |
| RnaToAminoAcid.RNAToAminoAcidTranslator.PostProcessed | biojava3-core/src/main/java/org/biojava3/core/sequence/transcription/RNAToAminoAcidTranslator.java:74-85 | post-processing removes at most the last amino acid, and introduces no "*" when trimming |
| RnaToAminoAcid.RNAToAminoAcidTranslator.PostProcess | biojava3-core/src/main/java/org/biojava3/core/sequence/transcription/RNAToAminoAcidTranslator.java:74-85 | initMet when asked for, then trimStop when asked for |
| RnaToAminoAcid.RNAToAminoAcidTranslator.InitMet | biojava3-core/src/main/java/org/biojava3/core/sequence/transcription/RNAToAminoAcidTranslator.java:87-101 | the first amino acid becomes M exactly when one of its codons is a start codon; otherwise nothing changes |
| RnaToAminoAcid.RNAToAminoAcidTranslator.TrimStop | biojava3-core/src/main/java/org/biojava3/core/sequence/transcription/RNAToAminoAcidTranslator.java:103-116 | the last amino acid is removed exactly when one of its codons is a stop codon; otherwise nothing changes |
| LineSplit.Split | src/org/biojava/bio/program/tagvalue/LineSplitParser.java:216-233 | fails only for a negative offset (StringIndexOutOfBounds). Otherwise tag and value concatenate back to the line, and the tag is the first offset characters, or the whole shorter line |
| LineSplit.LineSplitParser.constructor | src/org/biojava/bio/program/tagvalue/LineSplitParser.java:68-82 | no end-of-record marker, offset 0, every switch off, no remembered tag |
| LineSplit.LineSplitParser.TagAndValue | src/org/biojava/bio/program/tagvalue/LineSplitParser.java:216-236 | fails only for a negative offset. The tag is trimmed when trimTag is set, and the value is the text after the offset ("" on a shorter line) when trimValue is not |
| LineSplit.LineSplitParser.Parse | src/org/biojava/bio/program/tagvalue/LineSplitParser.java:197-245 | an end-of-record line gives null. An empty tag continues the remembered tag (continueOnEmptyTag), and a repeat of it continues it (mergeSameTag). Any other tag becomes the remembered tag and is marked new; the configuration never changes |
| LineSplit.Embl | src/org/biojava/bio/program/tagvalue/LineSplitParser.java:50-57 | records end at "//", the tag is the first 5 columns trimmed, the value untrimmed, and runs of one tag merge |
| LineSplit.Genbank | src/org/biojava/bio/program/tagvalue/LineSplitParser.java:59-65 | records end at "///", the tag is the first 12 columns trimmed, the value untrimmed, and empty tags continue the previous one |
| LineSplit.GenbankContinuation | src/org/biojava/bio/program/tagvalue/LineSplitParser.java:216-239 | a line of twelve blanks and text has an empty trimmed tag and the text as its value, so GENBANK continues the previous tag |
| IntegerAlphabets.SymbolEqualsIsValueEquality | src/org/biojava/bio/symbol/IntegerAlphabet.java:278-287 | two integer symbols are equal exactly when their values are, and equality is symmetric |
| IntegerAlphabets.HashCode | src/org/biojava/bio/symbol/IntegerAlphabet.java:272-276 | the hash is a 32-bit int, 629 + value whenever that does not overflow; equal symbols hash alike |
| IntegerAlphabets.SymbolName | src/org/biojava/bio/symbol/IntegerAlphabet.java:247-249 | the name is the decimal text of the value, all digits for a non-negative value |
| IntegerAlphabets.Contains | src/org/biojava/bio/symbol/IntegerAlphabet.java:194-200 | contains accepts an IntegerSymbol of any value and rejects every other symbol |
| IntegerAlphabets.Validate | src/org/biojava/bio/symbol/IntegerAlphabet.java:194-209 | validation passes exactly for the symbols the alphabet contains, i.e. the integer symbols |
| IntegerAlphabets.Tokenization | src/org/biojava/bio/symbol/IntegerAlphabet.java:364-370 | only the "token" tokenization exists; any other name raises NoSuchElementException |
| IntegerAlphabets.IntegerArray.Length | src/org/biojava/bio/symbol/IntegerAlphabet.java:308-310 | the length is the array's length |
| IntegerAlphabets.IntegerArray.SymbolAt | src/org/biojava/bio/symbol/IntegerAlphabet.java:304-306 | positions 1..length give the integer symbol of element i-1; any other position is out of bounds |
| IntegerAlphabets.FromArrayRoundTrip | src/org/biojava/bio/symbol/IntegerAlphabet.java:296-315 | reading an integer array symbol by symbol gives the array back |
| IntegerAlphabets.SubIntegerAlphabet.GetSymbol | src/org/biojava/bio/symbol/IntegerAlphabet.java:372-383 | a value in [min, max] gives its symbol, which the alphabet contains; any other value is an IllegalSymbolException |
| IntegerAlphabets.SubIntegerAlphabet.ContainsImpl | src/org/biojava/bio/symbol/IntegerAlphabet.java:351-358 | only symbols of IntegerAlphabet with a value in [min, max] are contained, so an empty range contains nothing, and both bounds are contained when the range is non-empty |
| IntegerAlphabets.SubIntegerAlphabet.ContainsExactlyGetSymbols | src/org/biojava/bio/symbol/IntegerAlphabet.java:351-383 | the alphabet contains exactly the symbols getSymbol returns for their own values |
| IntegerAlphabets.SubIntegerAlphabet.AddSymbol | src/org/biojava/bio/symbol/IntegerAlphabet.java:398-404 | adding is always vetoed |
| IntegerAlphabets.SubIntegerAlphabet.RemoveSymbol | src/org/biojava/bio/symbol/IntegerAlphabet.java:406-412 | removing is always vetoed |
| IntegerAlphabets.SubIntegerAlphabet.Count | src/org/biojava/bio/symbol/IntegerAlphabet.java:385-387 | the true number of symbols is positive exactly for a non-empty range |
| IntegerAlphabets.SubIntegerAlphabet.Size | src/org/biojava/bio/symbol/IntegerAlphabet.java:385-387 | size() is a 32-bit int, and equals the true count whenever max - min + 1 fits |
| IntegerAlphabets.NewSubIntegerAlphabet | src/org/biojava/bio/symbol/IntegerAlphabet.java:333-345 | rejects max < min (IllegalArgumentException); otherwise keeps both bounds and is named "SubIntegerAlphabet[min..max]" |
| IntegerAlphabets.SubIntegerIterator.constructor | src/org/biojava/bio/symbol/IntegerAlphabet.java:419-421 | the iterator starts at min |
| IntegerAlphabets.SubIntegerIterator.HasNext | src/org/biojava/bio/symbol/IntegerAlphabet.java:423-425 | there is a next symbol exactly while indx <= max |
| IntegerAlphabets.SubIntegerIterator.Next | src/org/biojava/bio/symbol/IntegerAlphabet.java:427-439 | inside the range it returns the symbol for indx and steps indx; outside it fails with the assertion BioError and does not step |
| IntegerAlphabets.AllSymbols | src/org/biojava/bio/symbol/IntegerAlphabet.java:419-445 | iterating a non-empty alphabet to the end yields min, min+1, ..., max in order, each in the alphabet |
| IntegerAlphabets.WrappedStep | src/org/biojava/bio/symbol/IntegerAlphabet.java:430 | the 32-bit `indx++` is an int, and is indx + 1 below Integer.MAX_VALUE |
| IntegerAlphabets.WrappedIteratorOverruns | src/org/biojava/bio/symbol/IntegerAlphabet.java:423-438 | with max = Integer.MAX_VALUE the step wraps to Integer.MIN_VALUE, hasNext stays true and next() fails |
| IntegerAlphabets.SizeWraps | src/org/biojava/bio/symbol/IntegerAlphabet.java:385-387 | for [0, Integer.MAX_VALUE] size() is Integer.MIN_VALUE while the alphabet has 2^31 symbols |
| AllTokens.GetParser | src/org/biojava/bio/symbol/AllTokensAlphabet.java:84-167 | "name" and "token" give their parsers; any other name raises NoSuchElementException |
| AllTokens.AllTokensAlphabet.constructor | src/org/biojava/bio/symbol/AllTokensAlphabet.java:194-199 | a named alphabet with no symbols and empty token and name maps |
| AllTokens.AllTokensAlphabet.Size | src/org/biojava/bio/symbol/AllTokensAlphabet.java:178-180 | the number of distinct symbols, 0 exactly when there are none |
| AllTokens.AllTokensAlphabet.RemoveSymbol | src/org/biojava/bio/symbol/AllTokensAlphabet.java:182-187 | removing always raises IllegalSymbolException |
| AllTokens.AllTokensAlphabet.AddSymbolImpl | src/org/biojava/bio/symbol/AllTokensAlphabet.java:53-60 | the symbol joins the set. Its token is mapped only if unmapped, so the first symbol keeps a token; its name is always remapped. The maps hold only symbols of the alphabet |
| AllTokens.AllTokensAlphabet.ParseToken | src/org/biojava/bio/symbol/AllTokensAlphabet.java:122-139 | an empty token fails (charAt(0)) and changes nothing. Otherwise it returns the symbol mapped to the first character, or a new symbol for it (named by the whole token) that is then mapped |
| AllTokens.AllTokensAlphabet.ParseName | src/org/biojava/bio/symbol/AllTokensAlphabet.java:87-102 | returns the symbol mapped to the name and changes nothing, or fails on an empty new name and changes nothing. Otherwise it adds a new symbol (the name's first character, named by the name): it joins the set, the name is mapped to it, and its first character is mapped to it only if that character was unmapped; every other entry keeps its symbol |
| AllTokens.AllTokensAlphabet.Parse | src/org/biojava/bio/symbol/AllTokensAlphabet.java:109-120 | one symbol per character, in order: each is the symbol mapped to that character. Exactly the characters not mapped before are new: each adds the symbol of that character named by itself to the set, the token map and (under its one-character name) the name map; nothing else changes |
| AllTokens.NewCharsStep | src/org/biojava/bio/symbol/AllTokensAlphabet.java:112-113 | one more character of the text is new exactly when neither the start map nor the earlier text holds it |
| AllTokens.LearnIsLearned | src/org/biojava/bio/symbol/AllTokensAlphabet.java:109-139 | the state reached by parsing the characters one at a time is the start state plus one symbol, one token entry and one name entry per new character |
| SeqFormat.RunLength | src/org/biojava/bio/seq/io/SeqFormatTools.java:90-94 | the run that starts the text holds no delimiter and ends at a delimiter or at the end of the text |
| SeqFormat.Tokens | src/org/biojava/bio/seq/io/SeqFormatTools.java:90-94 | every token StringTokenizer returns is non-empty and free of delimiters |
| SeqFormat.TokensCoverText | src/org/biojava/bio/seq/io/SeqFormatTools.java:90-94 | the tokens, put back together, are the text with every delimiter removed: nothing is lost and nothing reordered |
| SeqFormat.CharByChar | src/org/biojava/bio/seq/io/SeqFormatTools.java:127-142 | copying an overwide token character by character writes exactly its characters, in order, with only line breaks between them |
| SeqFormat.QualStep | src/org/biojava/bio/seq/io/SeqFormatTools.java:106-160 | each token of the qualifier loop, whichever of FIRST, OVERWIDE, NOFIT or FIT applies, adds exactly that token to the text |
| SeqFormat.QualLayout | src/org/biojava/bio/seq/io/SeqFormatTools.java:80-162 | after n tokens the words of the output are those n tokens, in order |
| SeqFormat.FormatQualifierBlock | src/org/biojava/bio/seq/io/SeqFormatTools.java:80-162 | the method's output is the leader followed by the rendering of the token layout (with the column kept correctly after an overwide token) |
| SeqFormat.QualLayoutNext | src/org/biojava/bio/seq/io/SeqFormatTools.java:104-160 | the layout after token i + 1 is one loop step after the layout after token i |
| SeqFormat.AppendToken | src/org/biojava/bio/seq/io/SeqFormatTools.java:106-160 | one pass of the token loop chooses the token type and writes the token exactly as one layout step describes (corrected: after a character-by-character copy the column is the one the copy reached, where line 141 sets it to the token length modulo the wrap width; see QualifierColumnResetOverflows) |
| SeqFormat.CopyOverwide | src/org/biojava/bio/seq/io/SeqFormatTools.java:129-140 | the inner character loop leaves the output and column the character-by-character copy describes |
| SeqFormat.CopyChar | src/org/biojava/bio/seq/io/SeqFormatTools.java:131-138 | one character is written, after a newline and the leader when the column has reached the wrap width |
| SeqFormat.QualifierKeepsText | src/org/biojava/bio/seq/io/SeqFormatTools.java:80-162 | taking the spaces and breaks out of a formatted qualifier block gives back the text without its whitespace |
| SeqFormat.CharByCharColumn | src/org/biojava/bio/seq/io/SeqFormatTools.java:129-140 | the character loop ends at the true length of the last output line |
| SeqFormat.QualStepColumn | src/org/biojava/bio/seq/io/SeqFormatTools.java:106-160 | one corrected token step keeps the column equal to the length of the last output line |
| SeqFormat.QualifierColumn | src/org/biojava/bio/seq/io/SeqFormatTools.java:80-162 | in the corrected layout the column used for the fit decisions is always the length of the last output line |
| SeqFormat.QualifierColumnResetOverflows | src/org/biojava/bio/seq/io/SeqFormatTools.java:141 | as written, the column reset after an overwide token lets a later token overflow the wrap width ("x aaaaa bb" at width 4 gives a 5-wide last line); corrected, it goes to a new line |
| SeqFormat.TokenBlockKeepsTokens | src/org/biojava/bio/seq/io/SeqFormatTools.java:176-188 | removing the block separators from a token block gives back the symbol tokens, in order |
| SeqFormat.TokenBlockLength | src/org/biojava/bio/seq/io/SeqFormatTools.java:176-188 | with blocks of two or more tokens, a block of n tokens is n characters plus one space per full block |
| SeqFormat.FormatTokenBlock | src/org/biojava/bio/seq/io/SeqFormatTools.java:176-188 | the result fails (ArithmeticException) exactly when the block size is 0 and there are two or more tokens, and otherwise is the token block |
| SeqFormat.PointReadsBack | src/org/biojava/bio/seq/io/SeqFormatTools.java:483-486 | the text formatPoint writes reads back as the point |
| SeqFormat.RangeReadsBack | src/org/biojava/bio/seq/io/SeqFormatTools.java:463-473 | the text formatRange writes is the minimum, "..", and the maximum, each side reading back as its coordinate |
| SeqFormat.FuzzyRangeShowsEnds | src/org/biojava/bio/seq/io/SeqFormatTools.java:373-418 | the text formatFuzzyRange writes starts with "<" exactly when the minimum is unbounded and with "(" exactly when it is uncertain, holds ">" exactly when the maximum is unbounded, and ends with ")" exactly when the maximum is uncertain |
| SeqFormat.FuzzyMinShows | src/org/biojava/bio/seq/io/SeqFormatTools.java:377-394 | the lower end's text starts with "<" exactly when unbounded and with "(" exactly when uncertain, and never holds ">" |
| SeqFormat.FuzzyMaxShows | src/org/biojava/bio/seq/io/SeqFormatTools.java:398-415 | the upper end's text holds ">" exactly when unbounded and ends with ")" exactly when uncertain |
| SeqFormat.FuzzyPointShowsBounds | src/org/biojava/bio/seq/io/SeqFormatTools.java:428-453 | the text formatFuzzyPoint writes starts with "<" exactly when the minimum is unbounded, with ">" exactly when only the maximum is, and with "(" exactly when both are bounded; after "<" or ">" the bound given reads back |
| SeqFormat.ComplementUnwraps | src/org/biojava/bio/seq/io/SeqFormatTools.java:498-501 | toComplement wraps the text in "complement(" and ")", and taking those off gives the text back |
| SeqFormat.BlockTextIsOneWord | src/org/biojava/bio/seq/io/SeqFormatTools.java:279-320 | the text chosen for a block of any kind is non-empty and holds no comma, space or line break, the separators the location layout adds |
| SeqFormat.SharpFuzzyRangeIsRange | src/org/biojava/bio/seq/io/SeqFormatTools.java:373-418 | a fuzzy range with no fuzziness at either end is written exactly as the plain range "min..max" |
| SeqFormat.Reverse | src/org/biojava/bio/seq/io/SeqFormatTools.java:260-264 | the reversed list has the same length and element i is element n-1-i of the original |
| SeqFormat.FirstIndex | src/org/biojava/bio/seq/io/SeqFormatTools.java:328 | List.indexOf returns a position that holds the block |
| SeqFormat.FirstIndexIsFirst | src/org/biojava/bio/seq/io/SeqFormatTools.java:328 | no position before the one indexOf returns holds the block |
| SeqFormat.Ordered | src/org/biojava/bio/seq/io/SeqFormatTools.java:249-264 | the blocks written are a permutation of the location's blocks |
| SeqFormat.ReverseMultiset | src/org/biojava/bio/seq/io/SeqFormatTools.java:260-264 | Collections.reverse keeps the same blocks |
| SeqFormat.LocLayoutEnds | src/org/biojava/bio/seq/io/SeqFormatTools.java:273-347 | after the loop the output ends with the last location text and diff is that text's length |
| SeqFormat.LocLayoutWords | src/org/biojava/bio/seq/io/SeqFormatTools.java:273-347 | without its line breaks the laid-out output is the location texts one after another |
| SeqFormat.FormatLocationBlock | src/org/biojava/bio/seq/io/SeqFormatTools.java:225-363 | the method's output is the leader, "join(" for a compound location, the wrapped comma-separated block texts, and the closing ")" (with the closing break corrected) |
| SeqFormat.LocationBlockTextIs | src/org/biojava/bio/seq/io/SeqFormatTools.java:225-363 | the layout the loop builds from the ordered blocks is the one the output is defined by |
| SeqFormat.CloseJoin | src/org/biojava/bio/seq/io/SeqFormatTools.java:349-360 | closing a join appends ")" and, when that passes the wrap width, moves the whole last location text to a new line (corrected: the break goes before the whole last location text, where line 356 inserts it one character later; see LocationCloseAsWritten) |
| SeqFormat.CloseBreaksBeforeLastText | src/org/biojava/bio/seq/io/SeqFormatTools.java:349-360 | closing a join ends with ")"; a break is added exactly when ")" passes the wrap width, right before the last location text and keeping every piece before it; otherwise ")" just follows the pieces |
| SeqFormat.AppendLocations | src/org/biojava/bio/seq/io/SeqFormatTools.java:273-347 | the block loop leaves the output, column and last-text length of the layout of all the block texts |
| SeqFormat.AppendLocation | src/org/biojava/bio/seq/io/SeqFormatTools.java:273-347 | one pass of the block loop adds the block's text, after a line break when it would pass the wrap width |
| SeqFormat.AppendLocationText | src/org/biojava/bio/seq/io/SeqFormatTools.java:276-331 | the block's form, complemented on strand -1, then a comma when indexOf finds it before the last position; diff is the number of characters added |
| SeqFormat.LocationCloseAsWritten | src/org/biojava/bio/seq/io/SeqFormatTools.java:356 | as written, the closing break of join(1..2,3..4) at width 14 lands one character late, splitting "3..4"; corrected, "3..4" moves whole to the new line |
| SeqFormat.JoinExamplePieces | src/org/biojava/bio/seq/io/SeqFormatTools.java:225-363 | the corrected formatter writes join(1..2,3..4) at width 14 as "join(1..2," then "3..4)" on the next line |
| SeqFormat.JoinExampleAsWritten | src/org/biojava/bio/seq/io/SeqFormatTools.java:349-360 | the closing code as written inserts the break between "3" and "..4" |
| SeqFormat.LocationKeepsTexts | src/org/biojava/bio/seq/io/SeqFormatTools.java:225-363 | without its line breaks a formatted location is the block texts one after another, closed by ")" for a join |
| SeqFormat.LayoutKeepsTexts | src/org/biojava/bio/seq/io/SeqFormatTools.java:273-360 | the same for any list of texts laid out from any column and closed or not |
| SeqFormat.CloseKeepsWords | src/org/biojava/bio/seq/io/SeqFormatTools.java:349-360 | the closing of a join adds ")" and line breaks, nothing else |
| SeqFormat.LocationTextsAreCommaSeparated | src/org/biojava/bio/seq/io/SeqFormatTools.java:276-331 | when no block repeats, the location texts are the block forms separated by single commas, with no trailing comma |
| Insdc.Join | biojava3-core/src/main/java/org/biojava3/core/sequence/location/InsdcWriter.java:113-123 | the keyword is one of order, one-of, group and join, and it is "join" exactly for a location of the plain join kind |
| Insdc.NewInsdcWriter | biojava3-core/src/main/java/org/biojava3/core/sequence/location/InsdcWriter.java:38-43 | a writer is made exactly for the INSDC sources ENA, GenBank and DDBJ and keeps that source; any other source fails with "is not INSDC" |
| Insdc.DefaultInsdcWriter | biojava3-core/src/main/java/org/biojava3/core/sequence/location/InsdcWriter.java:34-36 | the no-argument constructor is the one for ENA |
| Insdc.InsdcWriter.Write | biojava3-core/src/main/java/org/biojava3/core/sequence/location/InsdcWriter.java:64-111 | write appends to the writer exactly the text defined for the location, source and inherited complement flag |
| Insdc.InsdcWriter.WriteGroup | biojava3-core/src/main/java/org/biojava3/core/sequence/location/InsdcWriter.java:74-89 | the complex branch appends the keyword, "(", the sub-locations separated by commas, and ")" |
| Insdc.InsdcWriter.WriteSimple | biojava3-core/src/main/java/org/biojava3/core/sequence/location/InsdcWriter.java:90-107 | the simple branch appends "<" for an unknown start, the start, and, when the end differs, "^" or "..", ">" for an unknown end, and the end |
| Insdc.PartsNext | biojava3-core/src/main/java/org/biojava3/core/sequence/location/InsdcWriter.java:80-85 | each pass of the sub-location loop appends the sub-location's text and, unless it is the last, a comma |
| Insdc.WrittenBalanced | biojava3-core/src/main/java/org/biojava3/core/sequence/location/InsdcWriter.java:64-111 | every text the writer produces has balanced brackets: each "(" it opens (for complement or a group) is closed |
| Insdc.BodyBalanced | biojava3-core/src/main/java/org/biojava3/core/sequence/location/InsdcWriter.java:74-107 | the text between the complement brackets is balanced |
| Insdc.PartsBalanced | biojava3-core/src/main/java/org/biojava3/core/sequence/location/InsdcWriter.java:80-85 | the comma-separated sub-location texts are balanced |
| Insdc.PositiveIgnoresSource | biojava3-core/src/main/java/org/biojava3/core/sequence/location/InsdcWriter.java:64-73 | a location with no part on the negative strand is written the same whatever the source and the inherited complement flag |
| Insdc.PartsIgnoreSource | biojava3-core/src/main/java/org/biojava3/core/sequence/location/InsdcWriter.java:80-85 | the same for the sub-location loop |
| Insdc.Forward | biojava3-core/src/main/java/org/biojava3/core/sequence/location/InsdcWriter.java:64-73 | setting every strand positive keeps the number of sub-locations |
| Insdc.EnaComplementsOnce | biojava3-core/src/main/java/org/biojava3/core/sequence/location/InsdcWriter.java:66-72 | ENA writes a negative join of negative parts as one complement(...) around the join of the forward parts |
| Insdc.GenbankComplementsParts | biojava3-core/src/main/java/org/biojava3/core/sequence/location/InsdcWriter.java:66-72 | GenBank writes the same join as a join of individually complemented parts |
| Insdc.ComplementedParts | biojava3-core/src/main/java/org/biojava3/core/sequence/location/InsdcWriter.java:66-72 | one complemented text per sub-location |
| Insdc.ForwardParts | biojava3-core/src/main/java/org/biojava3/core/sequence/location/InsdcWriter.java:80-85 | under an ENA complement the parts are written as the forward parts |
| Insdc.GenbankParts | biojava3-core/src/main/java/org/biojava3/core/sequence/location/InsdcWriter.java:80-85 | GenBank's sub-location loop yields the complemented parts separated by commas |
| Insdc.GenbankPart | biojava3-core/src/main/java/org/biojava3/core/sequence/location/InsdcWriter.java:66-72 | GenBank writes a negative simple part inside complement(...) |
| Insdc.SimpleWritten | biojava3-core/src/main/java/org/biojava3/core/sequence/location/InsdcWriter.java:64-111 | a simple location is its text, inside complement(...) when write opens a complement |
| Insdc.SinglePoint | biojava3-core/src/test/java/org/biojava3/core/sequence/location/LocationWriterTest.java:16 | the point 1 is written "1" |
| Insdc.PlainRange | biojava3-core/src/test/java/org/biojava3/core/sequence/location/LocationWriterTest.java:17 | the range 1..2 is written "1..2" |
| Insdc.BetweenRange | biojava3-core/src/test/java/org/biojava3/core/sequence/location/LocationWriterTest.java:18 | a location between residues 1 and 2 is written "1^2" |
| Insdc.PositiveJoin | biojava3-core/src/test/java/org/biojava3/core/sequence/location/LocationWriterTest.java:23 | the join of 1..2 and 7..8 is written "join(1..2,7..8)" |
| Insdc.NestedExample | biojava3-core/src/test/java/org/biojava3/core/sequence/location/LocationWriterTest.java:24 | nested joins with a complemented part are written "join(1..2,join(4..5,complement(6..8)))" |
| Insdc.GenbankNegativeJoin | biojava3-core/src/test/java/org/biojava3/core/sequence/location/LocationWriterTest.java:25 | GenBank writes the negative join "join(complement(1..2),complement(7..8))" |
| Insdc.EnaNegativeJoin | biojava3-core/src/test/java/org/biojava3/core/sequence/location/LocationWriterTest.java:26 | ENA writes the negative join "complement(join(1..2,7..8))" |
| Insdc.FuzzyComplement | biojava3-core/src/test/java/org/biojava3/core/sequence/location/LocationWriterTest.java:35 | a negative range with unknown ends is written "complement(<123..>456)" |
| Insdc.OrderExample | biojava3-core/src/test/java/org/biojava3/core/sequence/location/LocationWriterTest.java:45 | an order location is written "order(1..2,7..8)" |
| Insdc.OneOfExample | biojava3-core/src/test/java/org/biojava3/core/sequence/location/LocationWriterTest.java:46 | a one-of location is written "one-of(1..2,7..8)" |
| Insdc.GroupExample | biojava3-core/src/test/java/org/biojava3/core/sequence/location/LocationWriterTest.java:47 | a group location is written "group(1..2,7..8)" |
| Circular.CircularLocation.Contains | src/org/biojava/bio/symbol/CircularLocation.java:134-142 | contains fails (ArithmeticException) exactly when the length is 0; otherwise it looks up p modulo the length, with Java's sign-keeping remainder, shifted by the whole turns before the wrapped minimum |
| Circular.ChosenEnd | src/org/biojava/bio/symbol/CircularLocation.java:101-107 | the block loop keeps the requested 5' end exactly when some block starts there (or it is 0), and otherwise leaves the default 0 |
| Circular.FirstAt | src/org/biojava/bio/symbol/CircularLocation.java:112-116 | the first block that starts at the 5' end: it starts there and no earlier block does |
| Circular.Rotate | src/org/biojava/bio/symbol/CircularLocation.java:112-116 | k turns of the rotation loop keep the same blocks and the same number of them |
| Circular.Construct | src/org/biojava/bio/symbol/CircularLocation.java:94-122 | construction fails for a location with no block, succeeds exactly when the requested 5' end is not 0 and some block starts there, and then keeps the wrapped location, length and 5' end and leads with a block starting at the 5' end, holding the same blocks; where no block starts there and 0 is not a block start, the rotation loop never ends |
| Circular.ConstructAtMin | src/org/biojava/bio/symbol/CircularLocation.java:90-92 | the two-argument constructor is the three-argument one with the wrapped minimum as the 5' end |
| Circular.SortedStartsAt | src/org/biojava/bio/symbol/CircularLocation.java:110 | sorting the blocks does not change whether one starts at the 5' end |
| Circular.RotateStep | src/org/biojava/bio/symbol/CircularLocation.java:113-115 | one turn moves the head block to the back |
| Circular.RotateFull | src/org/biojava/bio/symbol/CircularLocation.java:112-116 | after as many turns as there are blocks the list is back in its first order, so a loop that has not stopped by then never stops |
| Circular.ConstructOk | src/org/biojava/bio/symbol/CircularLocation.java:94-122 | a valid 5' end yields the sorted blocks rotated to the first block starting there |
| Circular.CollectBlocks | src/org/biojava/bio/symbol/CircularLocation.java:100-107 | the block loop copies every block and settles on the 5' end ChosenEnd describes |
| Circular.RotateToEnd | src/org/biojava/bio/symbol/CircularLocation.java:112-116 | the rotation loop stops at the first block starting at the 5' end, or comes back to the first order after a full turn exactly when no block starts there |
| Circular.New | src/org/biojava/bio/symbol/CircularLocation.java:94-122 | the constructor's outcome is the one Construct describes |
| Circular.SortedHeadIsMin | src/org/biojava/bio/symbol/CircularLocation.java:110 | after sorting in natural order the first block starts at the minimum |
| Circular.AtMinNeedsNoRotation | src/org/biojava/bio/symbol/CircularLocation.java:90-92 | the two-argument constructor keeps the blocks in natural order, with no rotation |
| Circular.FivePrimeEndStartsABlock | src/org/biojava/bio/symbol/CircularLocation.java:99-121 | a constructed circular location's 5' end is never 0 and its first block starts there and is one of the wrapped blocks |
| Circular.ContainsPeriodic | src/org/biojava/bio/symbol/CircularLocation.java:134-142 | positions one full turn apart are both in or both out of the location |
| Circular.ContainsFirstTurn | src/org/biojava/bio/symbol/CircularLocation.java:134-142 | when the wrapped minimum is in the first turn, contains(p) looks up p % length |
| Circular.FirstHundredExample | tests/org/biojava/bio/symbol/CircularLocationTest.java:51 | the circle of length 200 holding 1..100 has 5' end 1 and is contiguous |
| Circular.InFirstHundred | tests/org/biojava/bio/symbol/CircularLocationTest.java:51 | that location holds exactly the positions 1 to 100 |
| Circular.FirstHundredContains | tests/org/biojava/bio/symbol/CircularLocationTest.java:135-138 | on that circle 1, 100 and 202 are contained and 101 is not |
| Circular.CompoundExample | tests/org/biojava/bio/symbol/CircularLocationTest.java:180-182 | the union of 1..4 and 7..10 on a circle of 200 is constructed and is not contiguous |
| Circular.DivergenceExample | src/org/biojava/bio/symbol/CircularLocation.java:112-116 | a requested 5' end of 5 on 1..4 and 7..10 sends the rotation loop round forever |
| Assembled.MinKey | src/org/biojava/bio/seq/impl/AssembledSymbolList.java:61 | the least key of a non-empty key set in natural order is a key and comes before every other key |
| Assembled.SortedKeysOrder | src/org/biojava/bio/seq/impl/AssembledSymbolList.java:61-63 | the keys as the sorted map iterates them: each key once, nothing else, strictly increasing |
| Assembled.KeyList | src/org/biojava/bio/seq/impl/AssembledSymbolList.java:73 | componentList.addAll(components.keySet()) appends the keys in the sorted map's order |
| Assembled.Containing | src/org/biojava/bio/seq/impl/AssembledSymbolList.java:105-136 | the first listed location holding p holds p and is listed, and there is none exactly when no listed location holds p |
| Assembled.FirstAfter | src/org/biojava/bio/seq/impl/AssembledSymbolList.java:138-167 | the first listed location starting after p starts after p, and there is none exactly when every location starts at or before p |
| Assembled.ContainingIs | src/org/biojava/bio/seq/impl/AssembledSymbolList.java:105-108 | in a sorted, non-overlapping list the location holding p is the only one |
| Assembled.NoneBetween | src/org/biojava/bio/seq/impl/AssembledSymbolList.java:224-233 | between a position in no location and the next location to start no position is in any location |
| Assembled.NarrowBelow | src/org/biojava/bio/seq/impl/AssembledSymbolList.java:128-129 | moving the binary search's upper bound below a location starting after p keeps every later location after p |
| Assembled.NarrowAbove | src/org/biojava/bio/seq/impl/AssembledSymbolList.java:130-131 | moving the lower bound past a location ending before p keeps every earlier location before p |
| Assembled.SearchGap | src/org/biojava/bio/seq/impl/AssembledSymbolList.java:144-166 | when the search ends, p is in no location and the upstream location is the one at the search's lower bound, if any |
| Assembled.InComponent | src/org/biojava/bio/seq/impl/AssembledSymbolList.java:182-188 | within a component, the assembly's symbol at q is the component's own symbol at q - min + 1 |
| Assembled.ContainingMember | src/org/biojava/bio/seq/impl/AssembledSymbolList.java:112-136 | a listed location that holds q is the one the search finds |
| Assembled.SliceReads | src/org/biojava/bio/seq/impl/AssembledSymbolList.java:216-223 | a stretch of one component reads, symbol by symbol, as the assembly does |
| Assembled.GapReadsN | src/org/biojava/bio/seq/impl/AssembledSymbolList.java:182-191 | every position from a gap up to the next component reads as 'n' |
| Assembled.NRun | src/org/biojava/bio/seq/impl/AssembledSymbolList.java:234-236 | a run of count 'n' symbols (none for a negative count) |
| Assembled.AppendN | src/org/biojava/bio/seq/impl/AssembledSymbolList.java:234-236 | the padding loop appends exactly count 'n' symbols |
| Assembled.GapReadsRun | src/org/biojava/bio/seq/impl/AssembledSymbolList.java:224-236 | a run of 'n' from a gap, stopping short of the next component, reads as the assembly |
| Assembled.SortedKeysAreKeys | src/org/biojava/bio/seq/impl/AssembledSymbolList.java:61-63 | the sorted key list holds exactly the map's keys |
| Assembled.AssembledSymbolList.constructor | src/org/biojava/bio/seq/impl/AssembledSymbolList.java:43-63 | a new assembly takes its length from its components, has none, and has no cached location |
| Assembled.AssembledSymbolList.SetLength | src/org/biojava/bio/seq/impl/AssembledSymbolList.java:65-68 | setLength fixes the length and changes nothing else |
| Assembled.AssembledSymbolList.PutComponent | src/org/biojava/bio/seq/impl/AssembledSymbolList.java:76-83 | putComponent refuses the assembly itself (circular reference), otherwise puts the symbols at the location, replacing any there, keeps every other component, and rebuilds the list in natural order |
| Assembled.AssembledSymbolList.RemoveComponent | src/org/biojava/bio/seq/impl/AssembledSymbolList.java:85-89 | removeComponent drops the location, keeps every other component, rebuilds the list and (corrected) clears the cached location |
| Assembled.AssembledSymbolList.RemoveComponentAsWritten | src/org/biojava/bio/seq/impl/AssembledSymbolList.java:85-89 | as written, the cached location survives the removal, so the list and cache agree only when the removed location was not cached |
| Assembled.AssembledSymbolList.ComponentSymbols | src/org/biojava/bio/seq/impl/AssembledSymbolList.java:91-99 | getComponentSymbols returns symbols exactly for a listed location, and null otherwise |
| Assembled.AssembledSymbolList.ComponentLocationSet | src/org/biojava/bio/seq/impl/AssembledSymbolList.java:101-103 | the component location set holds exactly the listed locations |
| Assembled.AssembledSymbolList.Length | src/org/biojava/bio/seq/impl/AssembledSymbolList.java:173-180 | the length is the fixed one when set, else the end of the last component (the furthest end when the components are separated), and fails for an empty auto-length assembly |
| Assembled.AssembledSymbolList.LocationOfPoint | src/org/biojava/bio/seq/impl/AssembledSymbolList.java:112-136 | returns the cached location when it holds p, else the result of the binary search, which for sorted non-overlapping components is the location holding p; a hit is cached and nothing else changes |
| Assembled.AssembledSymbolList.LocationUpstreamOfPoint | src/org/biojava/bio/seq/impl/AssembledSymbolList.java:138-167 | returns the location holding p, else the first to start after p, else null, for sorted non-overlapping components |
| Assembled.AssembledSymbolList.SymbolAt | src/org/biojava/bio/seq/impl/AssembledSymbolList.java:182-191 | the symbol at pos is that of the component holding it, else 'n'; it fails when a stale cached location has lost its component |
| Assembled.AssembledSymbolList.SubList | src/org/biojava/bio/seq/impl/AssembledSymbolList.java:193-206 | subList is a slice of one component exactly when one component holds both ends, else a view of the assembly |
| Assembled.AssembledSymbolList.ComponentStretch | src/org/biojava/bio/seq/impl/AssembledSymbolList.java:218-223 | one stretch of subStr is the component's symbols from pos to the component's end or to end, whichever comes first |
| Assembled.AssembledSymbolList.NextStretch | src/org/biojava/bio/seq/impl/AssembledSymbolList.java:215-237 | one turn of subStr's loop moves forward and appends symbols that read as the assembly from pos |
| Assembled.AssembledSymbolList.GapStretch | src/org/biojava/bio/seq/impl/AssembledSymbolList.java:224-236 | at a gap, the 'n' symbols up to the next component or to end, which read as the assembly |
| Assembled.AssembledSymbolList.SubStr | src/org/biojava/bio/seq/impl/AssembledSymbolList.java:208-241 | subStr fails exactly when start < 1 or end passes the length, and otherwise returns end - start + 1 symbols reading as the assembly does position by position |
| Assembled.AssembledSymbolList.Collect | src/org/biojava/bio/seq/impl/AssembledSymbolList.java:213-240 | the loop of subStr collects stretch after stretch, reading as the assembly from start to end |
| Assembled.StaleCacheAsWritten | src/org/biojava/bio/seq/impl/AssembledSymbolList.java:85-89 | as written, reading position 2 of a removed component again finds the stale cached location and fails on its missing symbols |
| Assembled.StaleCacheCorrected | src/org/biojava/bio/seq/impl/AssembledSymbolList.java:85-89 | with the cache cleared on removal the same read gives 'n' |
| Chunked.TilingLength | src/org/biojava/bio/seq/io/ChunkedSymbolListFactory.java:321 | a list of chunks, all full but the last, holds (chunks - 1) * CHUNK_SIZE plus the last chunk's count symbols |
| Chunked.ChunkAt | src/org/biojava/bio/seq/io/ChunkedSymbolListFactory.java:149-160 | slot r of chunk q is symbol q * size + r of the list |
| Chunked.Beyond | src/org/biojava/bio/seq/io/ChunkedSymbolListFactory.java:149-154 | a chunk and offset that name no slot lie at or past the end of the list |
| Chunked.TilingAddress | src/org/biojava/bio/seq/io/ChunkedSymbolListFactory.java:149-160 | position p of the list is slot p % size of chunk p / size, and lies in the list exactly when that slot exists |
| Chunked.ChunkSlice | src/org/biojava/bio/seq/io/ChunkedSymbolListFactory.java:181-185 | slots lo..hi of a chunk are the stretch of the list starting at chunk * size + lo |
| Chunked.ArrayCopy | src/org/biojava/bio/seq/io/ChunkedSymbolListFactory.java:251 | System.arraycopy copies n slots into the destination and leaves the rest of it unchanged |
| Chunked.NoNulls | src/org/biojava/bio/seq/io/ChunkedSymbolListFactory.java:237-242 | the check before stashing passes exactly when no slot of the chunk is null |
| Chunked.ReadCached | src/org/biojava/bio/seq/io/ChunkedSymbolListFactory.java:160 | reading the cached chunk fails with a null pointer before any chunk is cached, and otherwise reads the slot at the offset when it exists |
| Chunked.ChunkCache.constructor | src/org/biojava/bio/seq/io/ChunkedSymbolListFactory.java:102-104 | the cached window starts empty (MAX_VALUE..MIN_VALUE) with no chunk |
| Chunked.ChunkedSymbolList.constructor | src/org/biojava/bio/seq/io/ChunkedSymbolListFactory.java:124-134 | the list keeps its chunks, chunk size, length and alphabet |
| Chunked.ChunkedSymbolList.IndexOf | src/org/biojava/bio/seq/io/ChunkedSymbolListFactory.java:147 | --pos in int arithmetic: pos - 1, wrapping to MAX_VALUE at MIN_VALUE |
| Chunked.ChunkedSymbolList.WindowAround | src/org/biojava/bio/seq/io/ChunkedSymbolListFactory.java:149-153 | a missed non-negative index moves the window to the chunk-aligned stretch that holds it |
| Chunked.ChunkedSymbolList.WindowEnd | src/org/biojava/bio/seq/io/ChunkedSymbolListFactory.java:153 | the window's end in int arithmetic is exact or wraps below its start |
| Chunked.ChunkedSymbolList.NegativeQuot | src/org/biojava/bio/seq/io/ChunkedSymbolListFactory.java:149-150 | Java's truncating division puts a negative index in chunk 0 only when it is above -size, at its own (negative) offset |
| Chunked.ChunkedSymbolList.MissLands | src/org/biojava/bio/seq/io/ChunkedSymbolListFactory.java:148-155 | for a missed index the chunk and offset Java computes hold the index's symbol exactly when the index is in the list |
| Chunked.ChunkedSymbolList.InWindow | src/org/biojava/bio/seq/io/ChunkedSymbolListFactory.java:156-158 | a position in an agreeing window is read from the cached chunk at position - currentMin |
| Chunked.ChunkedSymbolList.MoveWindow | src/org/biojava/bio/seq/io/ChunkedSymbolListFactory.java:148-155 | the miss branch moves the window to the stretch around the index and caches the chunk only when it exists |
| Chunked.ChunkedSymbolList.SymbolAt | src/org/biojava/bio/seq/io/ChunkedSymbolListFactory.java:144-161 | symbolAt reads position pos - 1 of the list when the window agreed with the cache, succeeds exactly for 1 <= pos <= length, and moves the window even for a chunk past the end, leaving the previous chunk cached |
| Chunked.ChunkedSymbolList.SymbolAtChecked | src/org/biojava/bio/seq/io/ChunkedSymbolListFactory.java:144-161 | with the chunk index checked first the window and the cached chunk always agree, and every position outside the list is refused |
| Chunked.ChunkedSymbolList.SubList | src/org/biojava/bio/seq/io/ChunkedSymbolListFactory.java:163-189 | subList fails exactly when start < 1 or end > length, or end < start, and otherwise is the stretch of one chunk when both ends share it, else a view |
| Chunked.ChunkedSymbolList.SubListInChunk | src/org/biojava/bio/seq/io/ChunkedSymbolListFactory.java:181-185 | a range inside one chunk reads as the matching stretch of that chunk |
| Chunked.ChunkedSymbolListFactory.constructor | src/org/biojava/bio/seq/io/ChunkedSymbolListFactory.java:94-109 | a new factory holds no symbols, no alphabet and no head chunk, make() is allowed, and its window is empty |
| Chunked.ChunkedSymbolListFactory.Stash | src/org/biojava/bio/seq/io/ChunkedSymbolListFactory.java:235-248 | a full head chunk is stashed exactly when it holds no null, and a fresh empty head chunk takes its place |
| Chunked.ChunkedSymbolListFactory.Fill | src/org/biojava/bio/seq/io/ChunkedSymbolListFactory.java:250-253 | arraycopy into the head chunk appends exactly those symbols to the contents |
| Chunked.ChunkedSymbolListFactory.Step | src/org/biojava/bio/seq/io/ChunkedSymbolListFactory.java:233-254 | one turn of the addSymbols loop adds at least one and at most the remaining symbols, or fails on a full chunk holding a null, or fails with nothing copied (IndexOutOfBounds) only when the symbols asked for are not all inside the array |
| Chunked.ChunkedSymbolListFactory.CopyIn | src/org/biojava/bio/seq/io/ChunkedSymbolListFactory.java:250-253 | the copy takes the smaller of the symbols left and the room left, appending exactly those symbols, or copies nothing and fails when they are not all inside the array |
| Chunked.ChunkedSymbolListFactory.Transfer | src/org/biojava/bio/seq/io/ChunkedSymbolListFactory.java:231-254 | the addSymbols loop appends the len symbols in order, or stops at a full chunk holding a null or at an out-of-range copy, having appended a prefix of them; it never fails out of range when pos..pos+len lies inside the array |
| Chunked.ChunkedSymbolListFactory.AddSymbols | src/org/biojava/bio/seq/io/ChunkedSymbolListFactory.java:208-255 | addSymbols locks out make, refuses a changed alphabet before adding anything, and otherwise appends the symbols; it fails only when a full chunk holding a null is stashed or when the symbols are not all inside the array (line 251), keeping the symbols added before the failure |
| Chunked.ChunkedSymbolListFactory.ClearState | src/org/biojava/bio/seq/io/ChunkedSymbolListFactory.java:257-265 | clearState leaves no symbols, no alphabet, no head chunk, and make() allowed |
| Chunked.ChunkedSymbolListFactory.ChunkArray | src/org/biojava/bio/seq/io/ChunkedSymbolListFactory.java:313-318 | the copy loop puts every stashed chunk into the array, in order |
| Chunked.ChunkedSymbolListFactory.Build | src/org/biojava/bio/seq/io/ChunkedSymbolListFactory.java:267-328 | makeSymbolList returns the empty list, one trimmed array, or a chunked list, each holding exactly the symbols added, and clears the factory |
| Chunked.ChunkedSymbolListFactory.MakeSymbolList | src/org/biojava/bio/seq/io/ChunkedSymbolListFactory.java:267-328 | the same, the chunked list sharing the factory's cached window |
| Chunked.ChunkedSymbolListFactory.MakeSymbolListOwnCache | src/org/biojava/bio/seq/io/ChunkedSymbolListFactory.java:267-328 | the same with a window of the list's own, which starts out agreeing with its chunks |
| Chunked.ChunkedSymbolListFactory.ReadStep | src/org/biojava/bio/seq/io/ChunkedSymbolListFactory.java:341-352 | one turn of make's loop appends at least one of the reader's symbols |
| Chunked.ChunkedSymbolListFactory.ReadAll | src/org/biojava/bio/seq/io/ChunkedSymbolListFactory.java:341-352 | make's loop appends all the reader's symbols, in order |
| Chunked.ChunkedSymbolListFactory.Make | src/org/biojava/bio/seq/io/ChunkedSymbolListFactory.java:330-356 | make is refused once addSymbols was used and then changes nothing; otherwise, as written, it returns the empty list whatever the reader held |
| Chunked.ChunkedSymbolListFactory.MakeCorrected | src/org/biojava/bio/seq/io/ChunkedSymbolListFactory.java:330-356 | without the clearState before makeSymbolList, make returns a list holding exactly the reader's symbols |
| Chunked.StaleWindowAsWritten | src/org/biojava/bio/seq/io/ChunkedSymbolListFactory.java:148-155 | as written, reading past the end of a one-chunk list fails but leaves the window moved, so the same read again returns a symbol of chunk 0 |
| Chunked.StaleWindowCorrected | src/org/biojava/bio/seq/io/ChunkedSymbolListFactory.java:148-155 | with the chunk checked first both reads are refused |
| Chunked.SharedWindowAsWritten | src/org/biojava/bio/seq/io/ChunkedSymbolListFactory.java:102-104 | two lists made by one factory share its window: the second list reads the first list's symbol at position 1 |
| Chunked.SharedWindowCorrected | src/org/biojava/bio/seq/io/ChunkedSymbolListFactory.java:102-104 | with a window per list the second list reads its own symbol |
| Chunked.MakeDropsSymbols | src/org/biojava/bio/seq/io/ChunkedSymbolListFactory.java:354-355 | make on a one-symbol reader returns the empty list as written, and the one-symbol list when corrected |
| EmblFormer.TallyCounts | src/org/biojava/bio/seq/io/EmblFileFormer.java:123-145 | each base count is the number of that letter in either case, and the five counts add up to the number of symbols counted |
| EmblFormer.CountedRange | src/org/biojava/bio/seq/io/EmblFileFormer.java:121-145 | over a range inside the array, the counting loop yields the counts of the range's symbols, which add up to length |
| EmblFormer.CountBases | src/org/biojava/bio/seq/io/EmblFileFormer.java:115-145 | the counting loop from start to start + length - 1 (in int arithmetic) yields the counts, or fails at the first index outside the array |
| EmblFormer.LineLens | src/org/biojava/bio/seq/io/EmblFileFormer.java:164-175 | every line length lies in 0..60 and line i never reaches past length; as written the last entry is set even when length % 60 is 0, and with no lines lineLens[-1] fails |
| EmblFormer.LineLengths | src/org/biojava/bio/seq/io/EmblFileFormer.java:164-175 | new int[lineCount], Arrays.fill with 60 and the patch of the last entry give the lengths LineLens describes |
| EmblFormer.LinesCoverSymbols | src/org/biojava/bio/seq/io/EmblFileFormer.java:164-175 | corrected, a sequence of any length gets (length + 59) / 60 lines that together hold its symbols once each |
| EmblFormer.LastLineDropped | src/org/biojava/bio/seq/io/EmblFileFormer.java:175 | as written, a length that is a positive multiple of 60 gets an empty last line |
| EmblFormer.EmptySequenceFails | src/org/biojava/bio/seq/io/EmblFileFormer.java:171-175 | as written, an empty sequence fails on lineLens[-1]; corrected it has no lines |
| EmblFormer.SeqLine | src/org/biojava/bio/seq/io/EmblFileFormer.java:188-204 | a sequence line is exactly 80 characters wide |
| EmblFormer.TokenBlockLength | src/org/biojava/bio/seq/io/EmblFileFormer.java:198 | a block of n tokens in blocks of 10 is n characters plus one space per ten, at most 66 for a line |
| EmblFormer.CountFits | src/org/biojava/bio/seq/io/EmblFileFormer.java:203 | an int running count has at most ten digits, so it fits in the 80-column line |
| EmblFormer.FormatLine | src/org/biojava/bio/seq/io/EmblFileFormer.java:188-204 | the line buffer is 80 spaces with the blocks copied in from column 5 and the count over the last columns |
| EmblFormer.FormatSeqLine | src/org/biojava/bio/seq/io/EmblFileFormer.java:185-204 | a sequence line is the symbols in blocks of 10 and the running count, laid out in the 80-column buffer |
| EmblFormer.LineReadsBack | src/org/biojava/bio/seq/io/EmblFileFormer.java:188-204 | when blocks and count do not meet, the line is five spaces, the blocks, padding, and the count |
| EmblFormer.LineEndsWithCount | src/org/biojava/bio/seq/io/EmblFileFormer.java:204 | the running count always ends the line |
| EmblFormer.LineRoundTrip | src/org/biojava/bio/seq/io/EmblFileFormer.java:185-207 | a line of up to 60 symbols gives back its symbols, once the spaces are taken out, and its count, read as a decimal number |
| EmblFormer.CoveredLinesFit | src/org/biojava/bio/seq/io/EmblFileFormer.java:196 | over a range inside the array every line's arraycopy succeeds |
| EmblFormer.LinesShowSymbols | src/org/biojava/bio/seq/io/EmblFileFormer.java:177-208 | corrected, the first n lines show the first 60 n symbols of the range, in order and each once |
| EmblFormer.AllSymbolsShown | src/org/biojava/bio/seq/io/EmblFileFormer.java:164-208 | corrected, all the lines together show the whole range |
| EmblFormer.FirstOutside | src/org/biojava/bio/seq/io/EmblFileFormer.java:177-208 | the first line whose arraycopy fails: every earlier line fits |
| EmblFormer.SectionCorrected | src/org/biojava/bio/seq/io/EmblFileFormer.java:109-212 | corrected, over a range inside the array addSymbols counts exactly the range, prints every line and "//", and the lines show the whole range in order |
| EmblFormer.AllLinesPrinted | src/org/biojava/bio/seq/io/EmblFileFormer.java:177-211 | over a range inside the array every line is printed, then "//" |
| EmblFormer.SectionDropsLastLine | src/org/biojava/bio/seq/io/EmblFileFormer.java:164-175 | as written, when length is a positive multiple of 60 the last 60 symbols are never printed and the last count shown is length - 60 |
| EmblFormer.DroppedLineSymbols | src/org/biojava/bio/seq/io/EmblFileFormer.java:164-208 | as written, with such a length, the lines show all but the last 60 symbols |
| EmblFormer.FirstSemicolon | src/org/biojava/bio/seq/io/EmblFileFormer.java:221-225 | the first ';' of a text, or its end |
| EmblFormer.AccessionsRoundTrip | src/org/biojava/bio/seq/io/EmblFileFormer.java:217-227 | when no accession holds a ';', the AC line reads back as the accessions, in order |
| EmblFormer.QualifierBlocks | src/org/biojava/bio/seq/io/EmblFileFormer.java:268-280 | one qualifier block per value |
| EmblFormer.QualifierBlockAt | src/org/biojava/bio/seq/io/EmblFileFormer.java:270-279 | block k is the qualifier block of value k |
| EmblFormer.QualifierLinesKeepText | src/org/biojava/bio/seq/io/EmblFileFormer.java:274-278 | a qualifier block under the FT leader keeps every token of its text, whole and in order |
| EmblFormer.FeatureLineLayout | src/org/biojava/bio/seq/io/EmblFileFormer.java:230-252 | a feature line starts with "FT", three spaces and the feature type; a type of at most 16 characters is padded to column 21 and the location text follows untouched |
| EmblFormer.EmblFileFormer.constructor | src/org/biojava/bio/seq/io/EmblFileFormer.java:86-89 | a new former has printed nothing |
| EmblFormer.EmblFileFormer.PrintLine | src/org/biojava/bio/seq/io/EmblFileFormer.java:177-208 | one sequence line is printed exactly when its arraycopy succeeds |
| EmblFormer.EmblFileFormer.PrintLines | src/org/biojava/bio/seq/io/EmblFileFormer.java:177-208 | the line loop prints the lines up to the first whose arraycopy fails |
| EmblFormer.EmblFileFormer.PrintSequence | src/org/biojava/bio/seq/io/EmblFileFormer.java:164-211 | the sequence lines and "//" are printed as LinesOutput describes, and the call ends as it does |
| EmblFormer.EmblFileFormer.AddSymbols | src/org/biojava/bio/seq/io/EmblFileFormer.java:109-212 | nothing is printed when counting runs off the array; otherwise the header with the counts, the sequence lines and "//" |
| EmblFormer.EmblFileFormer.AddSequenceProperty | src/org/biojava/bio/seq/io/EmblFileFormer.java:214-228 | the accessions key prints "AC   " and every accession followed by ";", failing when the value is not a List; every other key prints nothing |
| EmblFormer.EmblFileFormer.StartFeature | src/org/biojava/bio/seq/io/EmblFileFormer.java:230-252 | startFeature prints the location block under the FT leader with the feature type copied over it from column 5, with strand 0 for an unstranded template |
| EmblFormer.EmblFileFormer.AddFeatureProperty | src/org/biojava/bio/seq/io/EmblFileFormer.java:256-291 | the data key prints nothing; a Collection prints one qualifier block per element, in order; any other value one block |
| EmblFormer.EmblFileFormer.PrintQualifiers | src/org/biojava/bio/seq/io/EmblFileFormer.java:270-279 | the Collection loop prints one qualifier block per element |
| EmblFormer.EmblFileFormer.PrintQualifier | src/org/biojava/bio/seq/io/EmblFileFormer.java:283-289 | one formatted qualifier block is printed |
| SeqFormat.LocationBlockStartsWithLeader | src/org/biojava/bio/seq/io/SeqFormatTools.java:225-363 | the output of formatLocationBlock (LocationBlockText) starts with the leader, then "join(" for a compound location |
| GenbankLocations.Flip | src/org/biojavax/bio/seq/io/GenbankLocationParser.java:153-157 | a complemented location is on a known strand, positive exactly when its parent is negative |
| GenbankLocations.DropOpen | src/org/biojavax/bio/seq/io/GenbankLocationParser.java:119 | after the leading `\(*` the rest is a suffix of the input that does not start with '(' |
| GenbankLocations.DropClose | src/org/biojavax/bio/seq/io/GenbankLocationParser.java:119 | the trailing `\)*` leaves a prefix of the input that does not end with ')' |
| GenbankLocations.XrefColon | src/org/biojavax/bio/seq/io/GenbankLocationParser.java:119 | the xref group, when it matches, ends at a ':' inside the string |
| GenbankLocations.GroupWord | src/org/biojavax/bio/seq/io/GenbankLocationParser.java:119 | the group keyword found is a prefix of the text it is read from |
| GenbankLocations.Inner | src/org/biojavax/bio/seq/io/GenbankLocationParser.java:119 | the inner text `(.*?)` is never longer than the text it comes from |
| GenbankLocations.LeadingDigits | src/org/biojavax/bio/seq/io/GenbankLocationParser.java:122 | the digits read are a prefix of the input, all decimal digits, and maximal: the next character, if any, is not a digit |
| GenbankLocations.LastDot | src/org/biojavax/bio/seq/io/GenbankLocationParser.java:121 | the version separator found is a '.' inside the xref name |
| GenbankLocations.SplitVersion | src/org/biojavax/bio/seq/io/GenbankLocationParser.java:121-136 | the accession is a prefix of the xref name; a version, when found, is a non-empty run of digits and the name is the accession, '.', the version |
| GenbankLocations.ReadXref | src/org/biojavax/bio/seq/io/GenbankLocationParser.java:131-149 | the xref fails with "Bad location xref found: " plus the name exactly when the name runs over a line break; a version past Integer.MAX_VALUE is the NumberFormatException of Integer.valueOf; the feature's own accession gives no cross reference, any other a cross reference in the feature's namespace whose accession starts the name and whose version is an int of at least 0 |
| GenbankLocations.ReadPosition | src/org/biojavax/bio/seq/io/GenbankLocationParser.java:193-236 | a position is refused when nothing is left after the leading brackets, a refusal of the pattern has the message "Could not understand start/end position: " plus the text, a digit run past Integer.MAX_VALUE is parseInt's NumberFormatException; an accepted position has start and end in 0..Integer.MAX_VALUE, equal for an exact position, and is fuzzy at the start exactly when '<' opens it |
| GenbankLocations.ParseSimple | src/org/biojavax/bio/seq/io/GenbankLocationParser.java:187-238 | a simple location fails exactly when its positions do; otherwise it carries the positions read, the current rank, the strand and cross reference handed down, and moves the counter on by one |
| GenbankLocations.FirstDots | src/org/biojavax/bio/seq/io/GenbankLocationParser.java:120 | the range separator found is a ".." inside the string |
| GenbankLocations.ReadHeader | src/org/biojavax/bio/seq/io/GenbankLocationParser.java:124-149 | whenever a group keyword matches, the text recursed on is strictly shorter than the location string, so the recursion of parseLocString ends |
| GenbankLocations.ParseLocString | src/org/biojavax/bio/seq/io/GenbankLocationParser.java:124-239 | a string the group pattern or the xref pattern refuses fails with that error; a successful parse never moves the rank counter back, and from a known parent strand every simple location it yields is on a known strand |
| GenbankLocations.ParseHeader | src/org/biojavax/bio/seq/io/GenbankLocationParser.java:151-238 | without a group keyword the result is a simple location on the parent strand with the header's cross reference; join(...) and order(...) give a compound of that term with one member per member text; the counter never goes back and a known parent strand gives known strands throughout |
| GenbankLocations.Scan | src/org/biojavax/bio/seq/io/GenbankLocationParser.java:168-180 | the member being read is never longer than the text read so far, and the finished members, each followed by its comma, then the member being read, give the text back |
| GenbankLocations.Pieces | src/org/biojavax/bio/seq/io/GenbankLocationParser.java:166-181 | the member texts, each followed by a comma, give back the group's inner text, save that a last member with no comma after it is not followed by one |
| GenbankLocations.ScanShorter | src/org/biojavax/bio/seq/io/GenbankLocationParser.java:168-180 | every member closed by a comma at depth 0 is strictly shorter than the text it was split from |
| GenbankLocations.PiecesShorter | src/org/biojavax/bio/seq/io/GenbankLocationParser.java:168-181 | no member handed to the recursive call is longer than the group's inner text |
| GenbankLocations.SplitMembers | src/org/biojavax/bio/seq/io/GenbankLocationParser.java:166-181 | the character loop with its bracket counter and buffer yields exactly the members Pieces describes: split at depth-0 commas, last member kept only when non-empty |
| GenbankLocations.ParseMembers | src/org/biojavax/bio/seq/io/GenbankLocationParser.java:171-183 | a successful group parse has one member location per member text, the rank counter never goes back, and under a known strand every member's simple locations are on a known strand |
| GenbankLocations.Span | src/org/biojavax/bio/seq/io/GenbankLocationParser.java:123 | the rank counter values from lo up to hi are hi - lo consecutive integers starting at lo |
| GenbankLocations.SpanJoin | src/org/biojavax/bio/seq/io/GenbankLocationParser.java:123 | two consecutive runs of the counter join into one run |
| GenbankLocations.SimpleRank | src/org/biojavax/bio/seq/io/GenbankLocationParser.java:213-237 | a simple location takes the current rank and moves the counter on by exactly one |
| GenbankLocations.MemberRanksInReadingOrder | src/org/biojavax/bio/seq/io/GenbankLocationParser.java:171-183 | the members of a group are numbered by consecutive ranks, left to right, and the counter ends just past the last |
| GenbankLocations.HeaderRanks | src/org/biojavax/bio/seq/io/GenbankLocationParser.java:151-238 | after the header, complement, join/order and simple locations all number their simple locations consecutively from the incoming rank |
| GenbankLocations.RanksInReadingOrder | src/org/biojavax/bio/seq/io/GenbankLocationParser.java:124-239 | a successful parseLocString numbers its simple locations rank, rank + 1, ... in reading order, and the counter never goes back |
| GenbankLocations.ParseLocationRanks | src/org/biojavax/bio/seq/io/GenbankLocationParser.java:113-116 | parseLocation restarts the counter, so its simple locations are ranked 1, 2, 3, ... in reading order |
| GenbankLocations.ParseLocation | src/org/biojavax/bio/seq/io/GenbankLocationParser.java:52-116 | parseLocation fails exactly when parseLocString from a positive strand and rank 1 does, and every simple location it returns is on a known strand |
| GenbankLocations.MembersTextSnoc | src/org/biojavax/bio/seq/io/GenbankLocationParser.java:279-287 | appending a member to a non-empty group appends a comma and that member's text |
| GenbankLocations.MembersTextStep | src/org/biojavax/bio/seq/io/GenbankLocationParser.java:279-287 | each loop step adds a comma (after the first member) and the next member's text |
| GenbankLocations.LocationText | src/org/biojavax/bio/seq/io/GenbankLocationParser.java:241-290 | the text written is never empty; a group is its term name and '(' up to a closing ')'; a simple location starts with its cross-reference prefix, and on the negative strand that prefix is followed by "complement(" and the text ends with ')' |
| GenbankLocations.WriteLocation | src/org/biojavax/bio/seq/io/GenbankLocationParser.java:241-250 | writeLocation returns exactly LocationText: the group form for compound locations, the single form otherwise |
| GenbankLocations.WriteSingleLocation | src/org/biojavax/bio/seq/io/GenbankLocationParser.java:252-273 | the inserts at position 0 build accession, ".version" when the version is not 0, ':', then complement(...) around min..max on the negative strand, with "..max" only when min and max differ |
| GenbankLocations.WriteGroupLocation | src/org/biojavax/bio/seq/io/GenbankLocationParser.java:275-290 | the term name, '(', the members' texts separated by commas, ')' — nested groups written recursively |
| GenbankRoundTrip.PositionTextShape | src/org/biojavax/bio/seq/io/GenbankLocationParser.java:122 | the text a position is written as holds only digits, '<', '>', '.' and '^', starts with '<' or a digit, ends with '>' or a digit, and has a digit after every '.' |
| GenbankRoundTrip.ReadExactPosition | src/org/biojavax/bio/seq/io/GenbankLocationParser.java:193-211 | the position pattern reads an optional '<', digits and an optional '>' as an exact position with those fuzzy flags and that value |
| GenbankRoundTrip.ReadPairPosition | src/org/biojavax/bio/seq/io/GenbankLocationParser.java:193-207 | the position pattern reads digits, '.' or '^', digits as a range or between position with both values and the fuzzy flags written |
| GenbankRoundTrip.ReadPositionOfText | src/org/biojavax/bio/seq/io/GenbankLocationParser.java:193-211 | every position with int coordinates that are not negative is read back from its text unchanged |
| GenbankRoundTrip.RangePartsOfPair | src/org/biojavax/bio/seq/io/GenbankLocationParser.java:188-191 | the range pattern splits start ".." end at the ".." the writer put there, since a position's text has no ".." of its own |
| GenbankRoundTrip.ReadPositionsOfPair | src/org/biojavax/bio/seq/io/GenbankLocationParser.java:188-237 | a written start ".." end is read back as the two positions |
| GenbankRoundTrip.ReadPositionsOfPoint | src/org/biojavax/bio/seq/io/GenbankLocationParser.java:188-215 | a written position without ".." is read back as a point location whose end position is its start position |
| GenbankRoundTrip.ReadPositionsOfBody | src/org/biojavax/bio/seq/io/GenbankLocationParser.java:188-258 | the body the writer produces for a simple location (the minimum, and "..maximum" when they differ) is read back as its positions |
| GenbankRoundTrip.BodyTextPlain | src/org/biojavax/bio/seq/io/GenbankLocationParser.java:254-258 | the body of a simple location holds only position characters and starts and ends with a position boundary |
| GenbankRoundTrip.XrefTextShape | src/org/biojavax/bio/seq/io/GenbankLocationParser.java:263-271 | the xref prefix the writer puts in front is a name without ':', '(' or ')' followed by ':' |
| GenbankRoundTrip.ReadXrefOfText | src/org/biojavax/bio/seq/io/GenbankLocationParser.java:132-149 | the xref pattern reads the written accession and version back: no cross reference for the feature's own accession, else the same accession and version (0 when none was written) |
| GenbankRoundTrip.HeaderOfXref | src/org/biojavax/bio/seq/io/GenbankLocationParser.java:119-149 | the group pattern cuts a written xref prefix off at its ':' and the rest is matched for the group keyword |
| GenbankRoundTrip.NoKeyword | src/org/biojavax/bio/seq/io/GenbankLocationParser.java:119 | a text that does not start with 'c', 'j' or 'o' has no group keyword |
| GenbankRoundTrip.StrandedGroup | src/org/biojavax/bio/seq/io/GenbankLocationParser.java:259-262 | a written body wrapped in complement(...) is read as the complement group with the body as its inner text; written plain it is read as no group with the body itself inside |
| GenbankRoundTrip.HeaderOfStranded | src/org/biojavax/bio/seq/io/GenbankLocationParser.java:124-157 | the group pattern splits what the writer wrote for a simple location into its cross reference (read back), complement for the negative strand, and the body |
| GenbankRoundTrip.ParsePlain | src/org/biojavax/bio/seq/io/GenbankLocationParser.java:187-238 | parseLocString reads a written body as a simple location with the incoming cross reference, strand and rank |
| GenbankRoundTrip.SimpleRoundTrip | src/org/biojavax/bio/seq/io/GenbankLocationParser.java:241-273 | parseLocation reads back what writeLocation writes for a simple location: the same positions, rank 1, the negative strand kept and any other strand read as positive, and the cross reference unless it names the feature's own accession |
| EmblLikeLocations.DigitsEnd | src/org/biojava/bio/seq/io/EmblLikeLocationParser.java:449-465 | followInteger's loop stops at the end of the maximal run of digits from the index, and takes at least one digit when it starts on one |
| EmblLikeLocations.TextEnd | src/org/biojava/bio/seq/io/EmblLikeLocationParser.java:472-493 | followText's loop stops at the end of the maximal run of letters, digits and dots |
| EmblLikeLocations.Lex | src/org/biojava/bio/seq/io/EmblLikeLocationParser.java:394-441 | every token getNextToken returns moves the index forward and stays inside the text |
| EmblLikeLocations.LexCorrected | src/org/biojava/bio/seq/io/EmblLikeLocationParser.java:394-441 | the corrected lexer also moves forward inside the text on every token |
| EmblLikeLocations.LexWith | src/org/biojava/bio/seq/io/EmblLikeLocationParser.java:394-441 | whichever lexer the parser uses, a token moves the index forward inside the text |
| EmblLikeLocations.LexConsumes | src/org/biojava/bio/seq/io/EmblLikeLocationParser.java:394-441 | a Character is the one character read, a String is exactly the text read, an Integer is the value of a whole run of digits, and no token takes in a blank |
| EmblLikeLocations.LexCorrectedTotal | src/org/biojava/bio/seq/io/EmblLikeLocationParser.java:405-424 | the corrected lexer never spins on a blank and never reads past the end |
| EmblLikeLocations.LexCorrectedAgrees | src/org/biojava/bio/seq/io/EmblLikeLocationParser.java:394-441 | wherever the lexer as written returns, the corrected one returns the same token and index |
| EmblLikeLocations.Cleared | src/org/biojava/bio/seq/io/EmblLikeLocationParser.java:324-328 | the end of processCoords empties both coordinate lists and resets the four flags, keeping the instructions, the sub-locations and the complement flag |
| EmblLikeLocations.CoordShapes | src/org/biojava/bio/seq/io/EmblLikeLocationParser.java:222-321 | processCoords makes a block exactly for one start coordinate of a bounded point, or one or two start and one or two end coordinates; every other shape is refused |
| EmblLikeLocations.CoordBlockBounds | src/org/biojava/bio/seq/io/EmblLikeLocationParser.java:226-321 | the block spans the last start coordinate to the first end coordinate, and is unbounded at an end exactly where '<' or '>' was seen in a plain range |
| EmblLikeLocations.Coords | src/org/biojava/bio/seq/io/EmblLikeLocationParser.java:214-329 | without coordinates nothing changes; a refusal leaves the fields as they were; otherwise exactly one block is appended and the coordinates and flags are reset |
| EmblLikeLocations.Instructs | src/org/biojava/bio/seq/io/EmblLikeLocationParser.java:337-366 | an empty stack throws; otherwise the last instruction is popped, and the complement flag is set exactly when it was already set or the popped instruction is "complement" |
| EmblLikeLocations.Count | src/org/biojava/bio/seq/io/EmblLikeLocationParser.java:368-375 | the count of a character never exceeds the length of the text |
| EmblLikeLocations.CountAbsent | src/org/biojava/bio/seq/io/EmblLikeLocationParser.java:368-375 | a text without the character counts zero of it |
| EmblLikeLocations.Assemble | src/org/biojava/bio/seq/io/EmblLikeLocationParser.java:197-202 | the location returned has exactly the sub-locations made, in order: the only block alone, otherwise a compound |
| EmblLikeLocations.Parse | src/org/biojava/bio/seq/io/EmblLikeLocationParser.java:104-203 | a successful parse returns exactly the blocks the parser holds afterwards, paired with its complement flag |
| EmblLikeLocations.Finish | src/org/biojava/bio/seq/io/EmblLikeLocationParser.java:195-202 | the parser's fields after parseLocation are those the loop left |
| EmblLikeLocations.ReturnsOnlyWithoutBlanks | src/org/biojava/bio/seq/io/EmblLikeLocationParser.java:396-406 | as written the loop returns normally only on text with no blank or tab from the index on |
| EmblLikeLocations.CorrectedRunReturns | src/org/biojava/bio/seq/io/EmblLikeLocationParser.java:121-195 | with the corrected lexer the loop never spins and never reads past the end |
| EmblLikeLocations.RunNeverUnbalanced | src/org/biojava/bio/seq/io/EmblLikeLocationParser.java:121-195 | the loop itself never throws the parenthesis refusal |
| EmblLikeLocations.ParenthesisCheck | src/org/biojava/bio/seq/io/EmblLikeLocationParser.java:109-111 | as written the check compares the '(' count with itself and never refuses; corrected it refuses exactly when the '(' and ')' counts differ |
| EmblLikeLocations.ConsumeFailures | src/org/biojava/bio/seq/io/EmblLikeLocationParser.java:121-192 | one pass of the loop throws only a BioException other than the parenthesis refusal, or removes from an empty stack |
| EmblLikeLocations.ConsumeKeeps | src/org/biojava/bio/seq/io/EmblLikeLocationParser.java:121-192 | one pass keeps the blocks already made as a prefix and never clears the complement flag |
| EmblLikeLocations.RunKeeps | src/org/biojava/bio/seq/io/EmblLikeLocationParser.java:121-195 | the loop only appends blocks, so they come out in text order, and a set complement flag stays set |
| EmblLikeLocations.ComplementCarriesOver | src/org/biojava/bio/seq/io/EmblLikeLocationParser.java:84 | the complement flag is never reset, so after one complement every later parse on the same parser reports complement |
| EmblLikeLocations.LexDigit | src/org/biojava/bio/seq/io/EmblLikeLocationParser.java:426-428 | a single digit is lexed as the Integer of its value |
| EmblLikeLocations.StepIgnored | src/org/biojava/bio/seq/io/EmblLikeLocationParser.java:149-150 | '(' and ':' change nothing |
| EmblLikeLocations.StepBelow | src/org/biojava/bio/seq/io/EmblLikeLocationParser.java:156-158 | '<' marks the minimum unbounded and changes nothing else |
| EmblLikeLocations.StepAbove | src/org/biojava/bio/seq/io/EmblLikeLocationParser.java:160-162 | '>' marks the maximum unbounded and changes nothing else |
| EmblLikeLocations.StepFuzzyOpen | src/org/biojava/bio/seq/io/EmblLikeLocationParser.java:164-167 | a lone '.' opens a fuzzy coordinate |
| EmblLikeLocations.StepFuzzyClose | src/org/biojava/bio/seq/io/EmblLikeLocationParser.java:173-178 | ')' with a fuzzy coordinate open only closes it |
| EmblLikeLocations.StepRange | src/org/biojava/bio/seq/io/EmblLikeLocationParser.java:126-130 | ".." ends the start coordinates |
| EmblLikeLocations.StepDigit | src/org/biojava/bio/seq/io/EmblLikeLocationParser.java:136-142 | an Integer is a start coordinate before "..", an end coordinate after |
| EmblLikeLocations.StepFuzzyPair | src/org/biojava/bio/seq/io/EmblLikeLocationParser.java:149-178 | "(a.b)" adds a and then b to the current coordinate list and leaves no fuzzy coordinate open |
| EmblLikeLocations.StepWord | src/org/biojava/bio/seq/io/EmblLikeLocationParser.java:131-134 | a word is pushed as an instruction |
| EmblLikeLocations.TextEndAt | src/org/biojava/bio/seq/io/EmblLikeLocationParser.java:481-491 | the run of text characters ends at the first character that is not a letter, digit or dot |
| EmblLikeLocations.StepComma | src/org/biojava/bio/seq/io/EmblLikeLocationParser.java:169-171 | ',' closes a sub-location through processCoords |
| EmblLikeLocations.StepClose | src/org/biojava/bio/seq/io/EmblLikeLocationParser.java:179-183 | ')' outside a fuzzy coordinate runs processCoords and then processInstructs |
| EmblLikeLocations.StepCaret | src/org/biojava/bio/seq/io/EmblLikeLocationParser.java:152-154 | '^' is refused as a location between residues |
| EmblLikeLocations.StepBlank | src/org/biojava/bio/seq/io/EmblLikeLocationParser.java:405-406 | on a blank the loop as written never returns; the corrected lexer skips it |
| EmblLikeLocations.StepTrailingDot | src/org/biojava/bio/seq/io/EmblLikeLocationParser.java:414-415 | a '.' in the last place makes the lexer as written read past the end |
| EmblLikeLocations.StepTrailingDotCorrected | src/org/biojava/bio/seq/io/EmblLikeLocationParser.java:414-424 | the corrected lexer reads a final '.' as a lone '.' |
| EmblLikeLocations.StepEnd | src/org/biojava/bio/seq/io/EmblLikeLocationParser.java:121-195 | at the end of the text the loop stops and processCoords closes the last sub-location |
| EmblLikeLocations.EmblLikeLocationParser.constructor | src/org/biojava/bio/seq/io/EmblLikeLocationParser.java:62-89 | a new parser holds empty lists, isPointLoc set and the other flags clear |
| EmblLikeLocations.EmblLikeLocationParser.GetNextToken | src/org/biojava/bio/seq/io/EmblLikeLocationParser.java:394-441 | getNextToken returns what Lex describes and leaves the index just after the token |
| EmblLikeLocations.EmblLikeLocationParser.FollowInteger | src/org/biojava/bio/seq/io/EmblLikeLocationParser.java:449-465 | followInteger consumes the whole run of digits and returns its value, or the NumberFormatException of a run too large for an int |
| EmblLikeLocations.EmblLikeLocationParser.FollowText | src/org/biojava/bio/seq/io/EmblLikeLocationParser.java:472-493 | followText returns "" unless the first character is a letter, else the run of letters, digits and dots, and moves the index past it |
| EmblLikeLocations.EmblLikeLocationParser.ProcessCoords | src/org/biojava/bio/seq/io/EmblLikeLocationParser.java:214-329 | processCoords changes the fields exactly as Coords describes |
| EmblLikeLocations.EmblLikeLocationParser.ProcessInstructs | src/org/biojava/bio/seq/io/EmblLikeLocationParser.java:337-366 | processInstructs changes the fields exactly as Instructs describes and leaves the text and the index alone |
| EmblLikeLocations.EmblLikeLocationParser.Accept | src/org/biojava/bio/seq/io/EmblLikeLocationParser.java:123-192 | one pass of the loop body changes the fields exactly as Consume describes |
| EmblLikeLocations.EmblLikeLocationParser.CountChar | src/org/biojava/bio/seq/io/EmblLikeLocationParser.java:368-375 | countChar's loop returns the number of occurrences |
| EmblLikeLocations.EmblLikeLocationParser.ParseLocation | src/org/biojava/bio/seq/io/EmblLikeLocationParser.java:104-203 | parseLocation's result and the parser's fields afterwards are those Parse gives for the old fields, with the check as written |
| EmblLikeExamples.PointForm | src/org/biojava/bio/seq/io/EmblLikeLocationParser.java:37 | "7" parses to the point 7 |
| EmblLikeExamples.RangeForm | src/org/biojava/bio/seq/io/EmblLikeLocationParser.java:41 | "1..9" parses to the range 1..9 |
| EmblLikeExamples.UnboundedOpening | src/org/biojava/bio/seq/io/EmblLikeLocationParser.java:42 | "<1.." sets the minimum unbounded and reads the start coordinate |
| EmblLikeExamples.UnboundedForm | src/org/biojava/bio/seq/io/EmblLikeLocationParser.java:42 | "<1..>9" parses to a fuzzy location unbounded at both ends with inner bounds 1 and 9 |
| EmblLikeExamples.FuzzyStartForm | src/org/biojava/bio/seq/io/EmblLikeLocationParser.java:38 | "(1.2)..9" parses to a fuzzy location with outer 1..9 and inner 2..9 |
| EmblLikeExamples.FuzzyEndForm | src/org/biojava/bio/seq/io/EmblLikeLocationParser.java:39 | "1..(2.3)" parses to a fuzzy location with outer 1..3 and inner 1..2 |
| EmblLikeExamples.FuzzyPointRefused | src/org/biojava/bio/seq/io/EmblLikeLocationParser.java:47 | "(1.2)" is refused as a fuzzy point |
| EmblLikeExamples.UnboundedPointRefused | src/org/biojava/bio/seq/io/EmblLikeLocationParser.java:48 | "<1" is refused as an unbounded point, and the parser keeps the unbounded flag |
| EmblLikeExamples.BetweenRefused | src/org/biojava/bio/seq/io/EmblLikeLocationParser.java:49 | "1^2" is refused as a location between residues |
| EmblLikeExamples.RemoteOpening | src/org/biojava/bio/seq/io/EmblLikeLocationParser.java:50 | "J1:(" pushes the accession and nothing else |
| EmblLikeExamples.RemoteRefused | src/org/biojava/bio/seq/io/EmblLikeLocationParser.java:50 | "J1:(1..2)" is refused as a remote location when its ')' pops the accession |
| EmblLikeExamples.FlagsCarryOver | src/org/biojava/bio/seq/io/EmblLikeLocationParser.java:77-80 | after "<1" is refused, the same parser reads "1..9" as unbounded at the minimum |
| EmblLikeExamples.BlankNeverReturns | src/org/biojava/bio/seq/io/EmblLikeLocationParser.java:405-406 | "1, 2": the parser as written never returns |
| EmblLikeExamples.BlankOpening | src/org/biojava/bio/seq/io/EmblLikeLocationParser.java:169-171 | "1," closes the first point with the corrected lexer |
| EmblLikeExamples.BlankSkipped | src/org/biojava/bio/seq/io/EmblLikeLocationParser.java:405-406 | the corrected parser reads "1, 2" as the compound of the points 1 and 2 |
| EmblLikeExamples.TrailingDotReadsPastEnd | src/org/biojava/bio/seq/io/EmblLikeLocationParser.java:415 | "1.": the parser as written reads past the end of the text |
| EmblLikeExamples.TrailingDotRead | src/org/biojava/bio/seq/io/EmblLikeLocationParser.java:414-424 | the corrected parser reads "1." as the point 1 |
| EmblLikeExamples.UnbalancedAccepted | src/org/biojava/bio/seq/io/EmblLikeLocationParser.java:109 | "(1" has unequal parenthesis counts yet the check as written lets it through and it parses to the point 1 |
| EmblLikeExamples.UnbalancedRefused | src/org/biojava/bio/seq/io/EmblLikeLocationParser.java:109 | the corrected check refuses "(1" |
| FeatureFilters.NewByType | src/org/biojava/bio/seq/FeatureFilter.java:210-214 | new ByType refuses exactly a null type, with the message "Type may not be null", and otherwise filters on the type given |
| FeatureFilters.NewBySource | src/org/biojava/bio/seq/FeatureFilter.java:269-273 | new BySource refuses exactly a null source, with the message "Source may not be null", and otherwise filters on the source given |
| FeatureFilters.Accept | src/org/biojava/bio/seq/FeatureFilter.java:822-1070 | ByParent, ByAncestor (and ByDescendant as written) never pass a feature without a Feature parent; ByChild (and ByDescendant corrected) never pass a leaf |
| FeatureFilters.SomeAncestor | src/org/biojava/bio/seq/FeatureFilter.java:899-911 | an ancestor can pass only when there is a Feature parent, and a passing Feature parent is enough |
| FeatureFilters.SomeDescendant | src/org/biojava/bio/seq/FeatureFilter.java:979-987 | a descendant can pass only when there are children, and any passing child is enough |
| FeatureFilters.AncestorLooksUp | src/org/biojava/bio/seq/FeatureFilter.java:899-911 | ByAncestor accepts a feature exactly when some feature in its list of Feature ancestors passes the inner filter |
| FeatureFilters.DescendantLooksDown | src/org/biojava/bio/seq/FeatureFilter.java:1058-1070 | corrected, ByDescendant accepts a feature exactly when some feature in its list of descendants passes the inner filter |
| FeatureFilters.Equals | src/org/biojava/bio/seq/FeatureFilter.java:88-1541 | corrected, for filters built without And and Or, equals answers yes exactly when the two filters are the same filter (so every such filter equals itself); only an And or an Or puts the question to FilterUtils |
| FeatureFilters.IsProperSubset | src/org/biojava/bio/seq/FeatureFilter.java:234-1545 | corrected, a type, source, top-level or leaf filter is a subset exactly of itself and of AcceptAll, a strand or frame filter exactly of itself, AcceptNone of everything; only the wrapping filters ask FilterUtils |
| FeatureFilters.IsDisjoint | src/org/biojava/bio/seq/FeatureFilter.java:238-1549 | corrected, a type, source, strand or frame filter is disjoint exactly from AcceptNone and from a different filter on the same property; only the wrapping filters ask FilterUtils |
| FeatureFilters.WalkAncestors | src/org/biojava/bio/seq/FeatureFilter.java:899-911 | the do-while loop climbing Feature parents returns true exactly when some Feature ancestor passes the inner filter |
| FeatureFilters.AnyChild | src/org/biojava/bio/seq/FeatureFilter.java:979-987 | the loop over children returns true exactly when some child passes the inner filter |
| FeatureFilters.EqualsSound | src/org/biojava/bio/seq/FeatureFilter.java:84-1541 | corrected, filters that equal each other accept exactly the same features |
| FeatureFilters.AncestorsAgree | src/org/biojava/bio/seq/FeatureFilter.java:899-917 | filters that equal each other find the same ancestors |
| FeatureFilters.DescendantsAgree | src/org/biojava/bio/seq/FeatureFilter.java:979-1076 | filters that equal each other find the same descendants |
| FeatureFilters.ProperSubsetSound | src/org/biojava/bio/seq/FeatureFilter.java:234-1545 | corrected, when isProperSubset answers yes every feature the filter accepts is accepted by the other filter too |
| FeatureFilters.TopLevelHasNoAncestors | src/org/biojava/bio/seq/FeatureFilter.java:899-911 | a feature whose parent is a Sequence has no Feature ancestor for any filter to pass |
| FeatureFilters.DisjointSound | src/org/biojava/bio/seq/FeatureFilter.java:238-1549 | corrected, when isDisjoint answers yes no feature passes both filters |
| FeatureFilters.FrameEqualsStrand | src/org/biojava/bio/seq/FeatureFilter.java:1159-1165 | as written a FrameFilter is not equal to itself, equals a StrandFilter, and so claims to be a proper subset of one that rejects a feature it accepts |
| FeatureFilters.StrandDisjointFromItself | src/org/biojava/bio/seq/FeatureFilter.java:431-436 | as written a StrandFilter claims to be disjoint from itself although a feature on that strand passes it |
| FeatureFilters.FrameDisjointFromItself | src/org/biojava/bio/seq/FeatureFilter.java:1167-1172 | as written a FrameFilter claims to be disjoint from itself although a feature in that frame passes it |
| FeatureFilters.DescendantLooksUp | src/org/biojava/bio/seq/FeatureFilter.java:1058-1070 | as written ByDescendant rejects a top-level feature whose child passes, and accepts a leaf under a passing feature although IsLeaf claims to be disjoint from it |
| DistComponent.Validate | src/org/biojava/bio/seq/distributed/DistComponentFeature.java:57-98 | the constructor's checks in source order, each with its own error exactly when the earlier ones pass: null location, null component location, unequal content, a non-contiguous location, an unspecified strand. An accepted feature copies every template field and is Valid: contiguous, equal content, a known strand, translation = max + component min on the negative strand and min - component min on the positive |
| DistComponent.New | src/org/biojava/bio/seq/distributed/DistComponentFeature.java:57-99 | the constructor's outcome, from the two locationContent calls onward, is the one Validate describes |
| DistComponent.LocationContent | src/org/biojava/bio/seq/distributed/DistComponentFeature.java:113-122 | the loop's 32-bit total equals Content: the span of a contiguous location, or the block sizes added up with int wrap-around |
| DistComponent.DistComponentFeature.MakeTemplate | src/org/biojava/bio/seq/distributed/DistComponentFeature.java:101-111 | the template of a valid feature rebuilds exactly the same feature |
| DistComponent.DistComponentFeature.SetLocation | src/org/biojava/bio/seq/distributed/DistComponentFeature.java:140-146 | changing the location is always vetoed |
| DistComponent.DistComponentFeature.SetSource | src/org/biojava/bio/seq/distributed/DistComponentFeature.java:160-166 | changing the source is always vetoed |
| DistComponent.DistComponentFeature.SetType | src/org/biojava/bio/seq/distributed/DistComponentFeature.java:172-178 | changing the type is always vetoed |
| DistComponent.SumContentExact | src/org/biojava/bio/seq/distributed/DistComponentFeature.java:116-121 | without 32-bit overflow the block loop counts the block sizes exactly |
| DistComponent.BlockTotalNonNegative | src/org/biojava/bio/seq/distributed/DistComponentFeature.java:116-121 | the sizes of well-formed blocks add up to at least 0 |
| DistComponent.TranslationMapsEnds | src/org/biojava/bio/seq/distributed/DistComponentFeature.java:92-95 | without overflow the stored translation sends the component's ends onto the location's ends: by adding it on the positive strand, by subtracting from it on the negative strand, which swaps the ends |

## Left out

- Alignment.NeedlemanWunsch.Align: the `reset()` of `AbstractPairwiseSequenceAligner`, which is not part of this model, is taken to clear the pair and the score matrix and to keep the score it stored last; the model starts each alignment from that state.
- Alignment.AffineTraceReplaysScore: holds for penalties no greater than 0 and matrices that do not overflow 16 bits; with a positive opening penalty, scores at (1, 1) can take `open` from ix or iy at the origin, which no traceback column pays.
- Alignment.AffineEmptyQuery and Alignment.AffineEmptyTarget: assume the gap costs less than `min` of line 135 (no more than `min` for an empty target); for costlier gaps the sentinel competes with the gap in the start state and the traceback tests, and neither the score nor the walk is promised.
- Alignment.SelfAlignment: when the diagonal score and the extension penalty are both 0, the highroad of line 113 prefers Up, and the pair returned is not the sequence over itself; only the score is promised then.
- Alignment.AffineFavoursOneGap: compares the scores of the two alignments, not which of them the traceback returns; running the three matrices on a concrete pair is out of the solver's reach here.
- Worked examples: the textbook pair GCATGCU / GATTACA (score 0 with match 1, mismatch -1, gap -1) is not proved; unfolding the 8 by 8 matrix cell by cell is out of the solver's reach here. The general lemmas above cover the boundaries, self-alignment and the replay of the score.
- Timing: `NeedlemanWunsch.align` records `System.nanoTime` readings, which are not modelled. `AbstractPairwiseSequenceAligner`, `GapPenalty` and `SubstitutionMatrix` are not part of this model; the penalties and the substitution function are parameters.
- Aligned sequences: `SimpleAlignedSequence` and `SimpleProfile` are not part of this model. An aligned row is a list of compounds plus a list of compound/gap steps, with the index arithmetic those classes document.
- Translator base classes: `AbstractCompoundTranslator` and the compound sets are not part of this model. Compounds are their strings; a translation has one working list.
- `DNAToRNATranslator`: `addCompounds` of `AbstractCompoundTranslator` is taken to replace the target a source maps to. When the DNA set has no "T", the thymine is null, the compound class's `equalsIgnoreCase(null)` is taken to be false, and "t" then receives two `addCompounds` calls; a base class that keeps both targets would map "t" to two compounds, which the model does not represent.
- `SeqFormatTools.loadFeatureData` reads an XML resource through a DOM parser and is not modelled.
- `EmblFileFormer`: the output stream is modelled as the list of printed lines, and the line separator is a parameter. `formatQualifier` is a parameter. The block formatters inherited from `AbstractGenEmblFileFormer` are taken to be the `SeqFormatTools` layouts, in their corrected form: the qualifier layout is called with `asWritten` false, and the location and qualifier blocks are `SeqFormat.FormatLocationBlock` and `SeqFormat.FormatQualifierBlock` (see Findings for `SeqFormatTools.java:141` and `:356`). The layouts as written are modelled only in `SeqFormat`.
- JavaLang.Lower and JavaLang.EqualsIgnoreCase: case is folded over ASCII letters only, where Java's `Character.toLowerCase` and `String.equalsIgnoreCase` fold every Unicode letter. The identity count of `SequencePairs`, which compares compounds this way, therefore differs from the source's for non-ASCII compounds.
- Locations and JavaLang members that have no row of their own stand in for code that is not part of this model: the location classes of `org.biojava.bio.symbol` (`getMin`, `getMax`, `contains`, `blockIterator`), `Collections.sort`, and the casts, `String.trim`, `Integer.toString` and `Integer.parseInt` of the Java library. Their contracts state only what the modelled code relies on.
- `EmblLikeLocationParser`: `Character.isLetter` and `Character.isDigit` are taken over ASCII. The lexer's endless loop on a blank is the outcome `NeverReturns`, because a model cannot loop forever.
- `GenbankLocationParser`:
  - `Position.toString` of the position classes, which are not part of this model, is taken to be the syntax the parser reads back (`<`, start, `.` or `^` and end, `>`).
  - `getMin`/`getMax` of a simple location are taken as the start of its start position and the end of its end position.
  - A version of 0 stands for "no version".
  - The static `rank` counter is threaded through the parse as a value.
  - The `RichObjectFactory` lookup becomes a plain cross-reference record.
- GenbankRoundTrip.SimpleRoundTrip: the write-then-parse round trip is proved for simple locations only. The round trip through `join`/`order` groups is not proved. It needs non-negative coordinates and an accession that is a plain word; the source states neither.
- `InsdcParser` is not part of this model. The `LocationWriterTest` inputs are built directly as locations.
- Insdc.Location.IsComplex: `isComplex()` of the location classes, which are not part of this model, is taken to be "has sub-locations", not the location's class. A compound location with exactly one sub-location is therefore complex and written with its group keyword, and a location class that calls itself complex while holding no sub-locations would be written as simple.
- Chunked.ChunkedSymbolListFactory.AddSymbols: after the `IndexOutOfBoundsException` of `System.arraycopy` (`ChunkedSymbolListFactory.java:251`) that follows the stashing of a full head chunk, the factory holds an empty head chunk behind stashed chunks. The model states only that the chunks still hold the contents (`Linked`). `makeSymbolList` from that state, whose length computation at `ChunkedSymbolListFactory.java:321` would then leave out a chunk, is not modelled: the model's `MakeSymbolList` needs a non-empty head chunk once a chunk is stashed (`Valid`).
- `ChunkedSymbolListFactory`: the pluggable `SymbolListFactory` that packs a chunk is modelled as a copy of the chunk.
- `AssembledSymbolList.putComponent(ComponentFeature)` fetches its symbols lazily from the feature and is not modelled; `putComponent(Location, SymbolList)` is. A location is a range and a symbol list is its text.
- Assembled.AssembledSymbolList.SubStr, Assembled.AssembledSymbolList.LocationUpstreamOfPoint and Assembled.AssembledSymbolList.NextStretch: their results are stated only for sorted, non-overlapping components. This is the assumption the source states for its binary searches (`AssembledSymbolList.java:105-107`); overlapping components are not described.
- `CircularLocation`: `intersection`, `overlaps`, `union`, `contains(Location)`, `equals` and `toString` go to `LocationTools`, which is not part of this model. The constructor loop that never ends is the outcome `Diverges`.
- `CircularLocation.overlapsOrigin` and the `overlaps` field it returns: the constructor sets the field with `CircularLocationTools.overlapsOrigin`, which is not part of this model, so the model has no such field.
- `FeatureFilter`:
  - `FilterUtils` is not part of this model; a shortcut that asks it returns the question instead of an answer.
  - The `ByClass`, `ByAnnotationType`, `ContainedByLocation`, `OverlapsLocation`, `ByPairwiseScore`, `BySequenceName` and `ByComponentName` filters are not modelled.
  - Null arguments are modelled only for `ByType` and `BySource`.
  - A feature's parent and children are independent values; the model does not tie a child back to its parent.
- FeatureFilters.ProperSubsetSound and FeatureFilters.DisjointSound: stated for the filters that implement `OptimizableFilter`, the only ones that have `isProperSubset` and `isDisjoint`.
- `IntegerAlphabet`: the weak-reference symbol cache behind `getSymbol(int)` and the `AlphabetManager` registry behind `getSubAlphabet` are not modelled. A symbol is its value.
- `CacheList`: `search`, `searchAll` and `getComparator` pass straight to the delegate's index and are not modelled. The delegate is two fields of the list: its contents and the contents of its last commit.
- `SimpleAnnotation`: keys and values are strings, so a null key or a null value is not modelled. `getProperty` answers null both for an absent key and for a key stored with a null value; the model's `Ok(None)` stands for the absent key only, and `keys()` would list a key whose value is null.
- `DistComponentFeature`: the lazily resolved component sequence, the distributed sequence database and the projected child features are not modelled.
- `AllTokensAlphabet`: the stream parser `parseStream` is not modelled; `parse` over a whole string is.
- SeqFormat.AppendToken: the column kept after a character-by-character copy is the column the copy reached, not the `s.length() % wrapWidth` set at `SeqFormatTools.java:141` (see Findings); its contract ties it to `SeqFormat.QualStep` with `asWritten` false. The column as written is `SeqFormat.QualStep` with `asWritten` true, shown by `SeqFormat.QualifierColumnResetOverflows`.
- SeqFormat.CloseJoin: the break before the last block of a join goes before the whole block, at `|sb| - diff - 1`, not at the `sb.length() - diff` of `SeqFormatTools.java:356` (see Findings). The placement as written is `SeqFormat.CloseJoinAsWritten`, shown by `SeqFormat.LocationCloseAsWritten`.
- SeqFormat.FormatQualifierBlock: models the corrected column after a character-by-character copy (see Findings). The line as written at `SeqFormatTools.java:141` is modelled by `SeqFormat.QualLayout` with its `asWritten` flag set.
- SeqFormat.FormatLocationBlock: models the corrected placement of the break before the last block of a join (see Findings). The placement as written at `SeqFormatTools.java:356` is `SeqFormat.CloseJoinAsWritten`.

## Findings

| source | as written | input that shows it | evidently intended | confidence | as-written member | corrected member |
|---|---|---|---|---|---|---|
| src/org/biojava/bio/seq/io/EmblLikeLocationParser.java:109 | the balance check counts `(` on both sides, so it never refuses | `(1` is parsed as the point 1 | count `(` against `)` and refuse unbalanced text | not executed | EmblLikeExamples.UnbalancedAccepted | EmblLikeExamples.UnbalancedRefused |
| src/org/biojava/bio/seq/io/EmblLikeLocationParser.java:405-406 | on a blank the lexer goes round again without advancing | `1, 2` never returns | skip the blank | not executed | EmblLikeExamples.BlankNeverReturns | EmblLikeExamples.BlankSkipped |
| src/org/biojava/bio/seq/io/EmblLikeLocationParser.java:415 | a `.` looks at the next character even in the last place | `1.` reads past the end of the text | read a last `.` as a lone `.` | not executed | EmblLikeExamples.TrailingDotReadsPastEnd | EmblLikeExamples.TrailingDotRead |
| src/org/biojava/bio/seq/FeatureFilter.java:431-436 | a StrandFilter is disjoint from a StrandFilter of the same strand | a positive-strand feature passes `StrandFilter(+)`, which calls itself disjoint from itself | disjoint only for different strands | not executed | FeatureFilters.StrandDisjointFromItself | FeatureFilters.DisjointSound |
| src/org/biojava/bio/seq/FeatureFilter.java:1167-1172 | a FrameFilter is disjoint from a FrameFilter of the same frame | a frame-0 feature passes `FrameFilter(0)`, which calls itself disjoint from itself | disjoint only for different frames | not executed | FeatureFilters.FrameDisjointFromItself | FeatureFilters.DisjointSound |
| src/org/biojava/bio/seq/FeatureFilter.java:1159-1165 | `FrameFilter.equals` tests for a StrandFilter | `FrameFilter(0)` is not equal to itself but equal to `StrandFilter(-)`, and so a proper subset of it | equal to a FrameFilter of the same frame | not executed | FeatureFilters.FrameEqualsStrand | FeatureFilters.EqualsSound |
| src/org/biojava/bio/seq/FeatureFilter.java:1058-1070 | `ByDescendant.accept` walks up the parents, like `ByAncestor` | a top-level feature whose child has type exon is rejected by `ByDescendant(ByType("exon"))` | walk down the children | not executed | FeatureFilters.DescendantLooksUp | FeatureFilters.DescendantLooksDown |
| src/org/biojava/bio/seq/io/SeqFormatTools.java:141 | after a character-by-character copy the column is set to the token length modulo the wrap width | `x aaaaa bb` at width 4 gives the 5-column line `aa bb` | the column after the copy | not executed | SeqFormat.QualifierColumnResetOverflows | SeqFormat.QualifierColumn |
| src/org/biojava/bio/seq/io/SeqFormatTools.java:356 | the break before the last block of a join is inserted one character late | `join(1..2,3..4)` at width 14 gives `join(1..2,3` and `..4)` | the break before the whole last block | not executed | SeqFormat.LocationCloseAsWritten | SeqFormat.FormatLocationBlock |
| src/org/biojava/bio/symbol/IntegerAlphabet.java:423-438 | the iterator steps past `Integer.MAX_VALUE` to `Integer.MIN_VALUE`, which is still `<= max` | `SubIntegerAlphabet(0, Integer.MAX_VALUE)` | stop after `max` | not executed | IntegerAlphabets.WrappedIteratorOverruns | IntegerAlphabets.AllSymbols |
| src/org/biojava/bio/symbol/IntegerAlphabet.java:385-387 | `size()` is computed in 32 bits | `SubIntegerAlphabet(0, Integer.MAX_VALUE)` has size `Integer.MIN_VALUE` | the number of symbols, `max - min + 1` | not executed | IntegerAlphabets.SizeWraps | IntegerAlphabets.SubIntegerAlphabet.Count |
| src/org/biojava/bio/seq/io/ChunkedSymbolListFactory.java:148-155 | `symbolAt` moves the cache window before reading the chunk, which can fail | in a list of one 2-symbol chunk, built directly (the factory's chunks hold 16384 symbols), position 3 fails, and asked again it returns the symbol at position 1 | move the window only after the chunk is read | not executed | Chunked.StaleWindowAsWritten | Chunked.StaleWindowCorrected |
| src/org/biojava/bio/seq/io/ChunkedSymbolListFactory.java:102-104 | the cache window lives in the factory and is shared by every list it made | a list of b's reads an `a` from a list made before it | a window per list | not executed | Chunked.SharedWindowAsWritten | Chunked.SharedWindowCorrected |
| src/org/biojava/bio/seq/io/ChunkedSymbolListFactory.java:354-355 | `make` clears the state before making the list | a reader of one symbol gives the empty list | make the list, then clear | not executed | Chunked.MakeDropsSymbols | Chunked.ChunkedSymbolListFactory.MakeCorrected |
| src/org/biojava/bio/seq/impl/AssembledSymbolList.java:85-89 | `removeComponent` keeps the cached last location | read position 2 of component 1..4, remove it, read position 2 again: it fails | forget the cached location | not executed | Assembled.StaleCacheAsWritten | Assembled.StaleCacheCorrected |
| src/org/biojava/bio/seq/io/EmblFileFormer.java:164-175 | the last line's length is set to `length % 60` even when that is 0 | 60 symbols give the line lengths `[0]`: one sequence line is printed with no symbols and the count 0, and the 60 symbols are lost; 0 symbols index `lineLens[-1]` | a full last line when the length is a multiple of 60, no lines for an empty range | not executed | EmblFormer.SectionDropsLastLine | EmblFormer.SectionCorrected |
