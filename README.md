# Foldcessing, modelled in Dafny

Foldcessing is a build helper for Processing sketches that are spread over nested folders. Processing only compiles the `.pde` files at the top of a sketch folder. Foldcessing works around this in four steps:

1. It walks the sketch tree and collects every `.pde` file that no ignore pattern excludes. Each directory's sub-directories come first, sorted by name, and then its own files, sorted by name.
2. It writes all of those files, one after another, into a single `output/output.pde`. A `//>/>/>relative/path` header line goes before each file and a blank line after it. It records which output lines came from which file.
3. It runs `processing-java`.
4. In each line of the compiler's messages, it rewrites the first translatable `output.pde:<line>` reference back to `relative/path:<line>` in the original file. Because the Java class file keeps line numbers in 16 bits, a reported line may have wrapped modulo 65536. When several files could own the line, every candidate is listed.

This project models that core in Dafny and proves what it does. It has six modules:

- **`Text`** covers the C library behaviour the program relies on:
  - `tolower`;
  - the order `_stricmp` induces, proved to be a strict weak order;
  - `%d` rendering, proved to round-trip with a digits-only reading of `strtol`.
- **`Glob`** covers `wildcard_match`, `should_ignore`, `ends_with` and `trim`.
  - `wildcard_match` is written two ways: as a pair of functions that mirror the C loop, and as an independent reference glob. The two are proved equal.
  - On the reference glob, the module proves the meaning of `?` and `*`, the trailing-`*` rule, literal patterns and case-insensitivity.
- **`Collect`** covers `collect_files`.
  - The directory tree is a value: each directory's entries, in enumeration order.
  - The directory's arrays are filled by the enumeration loop and sorted in place by the exchange sort. The sort is proved to produce a sorted permutation.
  - The global `files` table is a class whose methods implement the depth-first walk and the `MAX_FILES` cap.
  - Every collected file is proved to be an admitted `.pde` file. No directory on its way down is `.`, `..`, `output` or ignored.
- **`Aggregate`** covers the concatenation loop of `main`. It writes the output lines and the line map.
  - The line map is proved to point at each file's header, lines and trailing blank line.
  - It is proved to cover the whole output with increasing ranges.
- **`Translate`** covers `translate_line`. Specifically, it models:
  - the wrapped tries;
  - the first-range search;
  - the candidate array of ten entries;
  - the three output forms.

  Several things are proved:
  - which candidates are found, in both directions;
  - how they are shaped;
  - the round trip from a file line through `output.pde` and back;
  - the recovery of a wrapped line.
- **`Rewrite`** covers `process_output_line` and the per-stream line reassembly of `main`. Reassembly means splitting on `\n`/`\r`, dropping empty lines, truncating at `MAX_LINE - 1` and the final flush.
  - The first translatable marker is characterised exactly.
  - A whole diagnostic line `prefix output.pde:L:C rest` is proved to print as `prefix relative:n:C rest`.
  - The byte-by-byte assembler is proved to hand `process_output_line` exactly the non-empty, truncated pieces between terminators, whatever chunk boundaries the pipe produces.

All line numbers below refer to `foldcessing.c`.

## Model

| member | source | states |
|---|---|---|
| Text.CaseOrder | foldcessing.c:64-66 | `_stricmp(a, b) > 0` is a strict weak order. It is irreflexive, asymmetric and transitive, and two names are either case-insensitively equal or ordered one way or the other. This is what makes the exchange sort's result sorted. |
| Text.LexLessTotal | foldcessing.c:64-66 | Any two strings are equal or ordered by the code-point comparison `_stricmp` applies after lower-casing. |
| Text.DecimalRoundTrip | foldcessing.c:373-374 | The `%d` rendering of a natural number is a non-empty run of digits, and reading it back as `strtol` does gives the same number. |
| Text.DigitsEnd | foldcessing.c:373-376 | Where `strtol` stops reading: only digits come before that point, and the character at it, if there is one, is not a digit. |
| Glob.MatchAgrees | foldcessing.c:83-103 | The C-loop transcription of `wildcard_match` agrees with an independent reference glob on every pattern and text. |
| Glob.ScanAgrees | foldcessing.c:86-93 | The inner scan after a `*` succeeds exactly when the rest of the pattern matches some non-empty suffix of the text. |
| Glob.QuestionConsumesOne | foldcessing.c:94-96 | `?` followed by `q` matches `s` exactly when `s` is non-empty and `q` matches the rest of `s`. |
| Glob.StarMatchesAnyRun | foldcessing.c:85-93 | A `*` followed by `q` matches `s` exactly when `q` matches some suffix of `s`, the empty suffix included. |
| Glob.GlobEmptyText | foldcessing.c:101-102 | A pattern matches the empty text exactly when it is all `*`. |
| Glob.GlobAllStars | foldcessing.c:85-87 | A non-empty pattern made only of `*` matches every text. |
| Glob.GlobStar | foldcessing.c:85-93 | Under the reference glob, a leading `*` means that the rest of the pattern matches some suffix. |
| Glob.TrailingStarsMatchEmpty | foldcessing.c:101-102 | Appending `*`s to a pattern never loses a match, and a non-empty pattern of only `*`s matches everything. |
| Glob.GlobTrailingStars | foldcessing.c:101-102 | The trailing-`*` rule under the reference glob. |
| Glob.LiteralMatchesEqualText | foldcessing.c:83-103 | A pattern without wildcards matches exactly the texts of its length that equal it ignoring case. |
| Glob.GlobLiteral | foldcessing.c:94-99 | The same, under the reference glob. |
| Glob.MatchIgnoresCase | foldcessing.c:94 | Matching is insensitive to the case of both the pattern and the text. |
| Glob.GlobCaseInsensitive | foldcessing.c:94 | The same, under the reference glob. |
| Glob.ShouldIgnore | foldcessing.c:105-112 | The result is true exactly when some configured pattern matches the relative path. |
| Glob.EndsWithIsStarGlob | foldcessing.c:187-192 | For a suffix without wildcards, `ends_with(s, suffix)` holds exactly when `s` matches the glob `*suffix`. |
| Glob.EndsWithPrefixed | foldcessing.c:187-192 | A name that ends with a suffix still does once a directory prefix is put before it. |
| Glob.Trim | foldcessing.c:69-81 | The result is the input with a run of white space removed from each end. The removed runs are all white space, and a non-empty result neither starts nor ends with white space. |
| Collect.LastOf | foldcessing.c:249-250 | `strrchr(path, sep)` finds the last separator, or reports that there is none. |
| Collect.LastOfJoin | foldcessing.c:220-229 | In `dir\name` (or `rel/name`), when the name has no such separator, the last separator is the joining one and the text after it is `name`. |
| Collect.GreaterStrict | foldcessing.c:246-260 | The exchange condition of the sort loops (both paths have a backslash and `_stricmp` of the base names is positive) is a strict partial order: asymmetric and transitive. It is not a weak order, since a path without a backslash is comparable to none. |
| Collect.PassLeavesLeast | foldcessing.c:247-259 | After the inner loop for position `i`, nothing after `i` is smaller than the entry at `i`. |
| Collect.SortFromPerm | foldcessing.c:246-260 | The exchange sort only permutes. |
| Collect.SortFromPrefix | foldcessing.c:246-260 | The outer loop never touches the positions it has passed. |
| Collect.SortFromSorted | foldcessing.c:246-260 | For any strict partial order, the outer loop leaves the tail from `i` on sorted. |
| Collect.ExchangeSortSorted | foldcessing.c:246-276 | When every path has a backslash, the exchange sort returns the same entries sorted by base name, case-insensitively. |
| Collect.SortByName | foldcessing.c:246-276 | The in-place sort of the two parallel arrays leaves the pairs equal to the exchange sort of the original pairs. Slots past the count are untouched. |
| Collect.InnerLoop | foldcessing.c:248-259 | The array form of one inner loop equals `Pass` on the pairs. |
| Collect.ExchangeStep | foldcessing.c:249-258 | One compare-and-swap on both arrays is one `Step` on the pairs. |
| Collect.ClassifyEntry | foldcessing.c:213-241 | The tests of the enumeration loop are run in the source's order. |
| Collect.Enumerate | foldcessing.c:197-244 | The enumeration loop fills the directory and `.pde` arrays with exactly the admitted sub-directories and the admitted `.pde` files, in enumeration order. |
| Collect.Distribute | foldcessing.c:233-241 | One enumerated entry is appended to the array of its kind, or to neither. |
| Collect.Push | foldcessing.c:234-240 | An `_strdup` pair is stored at the current count and the count is incremented. |
| Collect.ListedMembers | foldcessing.c:212-242 | An entry is in a directory's listing of one kind exactly when some enumerated child of that kind yields it. |
| Collect.ListedSound | foldcessing.c:212-242 | Every listed entry comes from an enumerated child of that kind. |
| Collect.ListedComplete | foldcessing.c:212-242 | Every enumerated child of a kind is in that kind's listing. |
| Collect.ListingsSorted | foldcessing.c:246-276 | The sorted listing of a directory is sorted by name and is a permutation of the listing. |
| Collect.FindIn | foldcessing.c:201-203 | Reopening a sub-directory by its path reaches a listable directory of that name among the children, or fails. |
| Collect.Capped | foldcessing.c:287-291 | The `files` table keeps the first `MAX_FILES` entries and drops the rest. |
| Collect.CappedAppend | foldcessing.c:285-294 | Capping after each append equals capping once at the end. |
| Collect.Collector.constructor | foldcessing.c:59 | The table starts empty. |
| Collect.Collector.AddFile | foldcessing.c:287-291 | An entry is added only while the table has room. |
| Collect.Collector.CollectFiles | foldcessing.c:195-298 | `collect_files` appends to the table, capped, the files of the sorted sub-directories depth-first, then the directory's sorted `.pde` files. A failed listing adds nothing. |
| Collect.Collector.VisitSubdirectories | foldcessing.c:278-283 | Each sorted sub-directory is visited in order, and its whole subtree is appended before the next one. |
| Collect.Collector.AddFiles | foldcessing.c:285-294 | The directory's sorted `.pde` files are appended, capped. |
| Collect.SubtreesAppend | foldcessing.c:278-283 | Visiting two runs of sub-directories one after the other gives the concatenation of their contributions. |
| Collect.VisitedDirectoryAdmitted | foldcessing.c:213-235 | A visited sub-directory is not `.`, `..` or `output` (ignoring case). Its name is a valid name, its relative path is the parent's joined with its name and is not ignored. Reopening it by name finds a directory entry of the parent with that name, classified as a sub-directory and giving the same path pair. |
| Collect.FindInFinds | foldcessing.c:199-203 | Looking a name up among entries that hold a directory of that name finds a directory entry of that name. |
| Collect.FindInDistinct | foldcessing.c:199-203 | When a directory's entry names are distinct, as a file system keeps them, looking up a directory's name finds that very entry. |
| Collect.SourceAdmitted | foldcessing.c:231-240 | A listed file is not ignored, ends with `.pde` ignoring case, and lies under the directory. |
| Collect.CollectedAdmitted | foldcessing.c:195-294 | Every file `collect_files` contributes, at any depth, is an admitted `.pde` file below the directory. When every entry name in the tree is a valid name, no such file lies under a `.`, `..`, `output` (any letter case) or ignored directory at any depth. |
| Collect.CollectedUnder | foldcessing.c:213-235 | When every entry name is a valid name, each collected file's relative path extends the walked directory's, and every prefix of it that ends before a `/` past that directory is an admitted directory: not `.`, `..` or `output` in any letter case, and not ignored. |
| Collect.SubtreesUnder | foldcessing.c:278-283 | The same for the files contributed by visiting admitted sub-directories. |
| Collect.StepBeneath | foldcessing.c:224-235 | A path below an admitted sub-directory, with all its directories admitted, is below the parent with all its directories admitted. |
| Collect.JoinRelativeShape | foldcessing.c:224-228 | A child's relative path extends the parent's with a `/`, has no other `/` past it, and ends in the child's name. |
| Collect.SubtreesAdmitted | foldcessing.c:278-283 | Every file contributed by visiting sub-directories lies below the parent directory. |
| Aggregate.Fold | foldcessing.c:553-585 | The concatenation loop writes exactly the folded output, fills `line_map[0..file_count)` with the mapping of each file, leaves the rest of the table alone, and sets `total_lines` to the number of output lines. |
| Aggregate.FoldFragment | foldcessing.c:557-579 | One turn of the loop appends one file's header, lines and blank line, and records its range. |
| Aggregate.WriteFragment | foldcessing.c:557-579 | For one file, the range runs from the line after its header to its last content line. The line counter advances by the block's length. |
| Aggregate.CopyLines | foldcessing.c:566-573 | The `fgets`/`fputs` loop copies the file's lines and counts them. |
| Aggregate.MappingAt | foldcessing.c:557-575 | Line-map entry `i` is stated in terms of the output written before file `i`. |
| Aggregate.MappingStep | foldcessing.c:557-579 | A range spans exactly the file's lines and names the file's relative path. The next range starts three lines later (blank line, header, first line). |
| Aggregate.FirstStart | foldcessing.c:553-557 | The first file's range starts at line 2. |
| Aggregate.TotalLines | foldcessing.c:575-585 | `total_lines` is the sum of each file's line count plus two. The last range ends just before the final blank line. |
| Aggregate.RangesIncrease | foldcessing.c:557-579 | Ranges of later files start strictly after earlier ones end, at least three lines later. |
| Aggregate.FoldedLines | foldcessing.c:553-579 | For each file, `output.pde` holds the file's header just before its range, the file's lines inside it, and a blank line just after it. |
| Aggregate.BlockInFolded | foldcessing.c:553-579 | Each file's block appears at its offset in the output. |
| Aggregate.RangeInside | foldcessing.c:557-585 | Every range lies within the output's lines. |
| Aggregate.LinesCovered | foldcessing.c:553-585 | Every output line belongs to some file's block: its header, a content line or the blank line after it. |
| Translate.FirstFrom | foldcessing.c:325-334 | The inner search returns the first range containing the line, or reports that no range contains it. |
| Translate.FindRange | foldcessing.c:325-334 | The array loop returns the first range holding the line. |
| Translate.CollectCandidates | foldcessing.c:317-335 | The candidate array ends up holding exactly the candidates of the wrapped tries, at most ten. |
| Translate.Record | foldcessing.c:326-332 | The candidate for one try is appended, when a range holds the line. |
| Translate.RenderCandidates | foldcessing.c:337-359 | The output is the literal `output.pde:N`, the single location, or the ` or `-joined list followed by ` (line wrapping)`. |
| Translate.JoinCandidates | foldcessing.c:348-357 | The `strncat` loop builds the parts joined with ` or `. |
| Translate.TranslateLine | foldcessing.c:303-360 | What `translate_line` writes is the rendering of the collected candidates. |
| Translate.TriedStable | foldcessing.c:320-322 | Once the loop's guard or its `break` stops it, later tries add nothing. |
| Translate.TriedWellFormed | foldcessing.c:320-335 | Each try adds at most one candidate. Each candidate lies in the first range that holds it, has its line inside that file counted from 1, is at most `total_lines` and is `N + w*65536` for a try `w`. Candidates are in strictly increasing order. |
| Translate.CandidatesShape | foldcessing.c:317-335 | The same for all ten tries. |
| Translate.TriedComplete | foldcessing.c:320-335 | A line is among the candidates of the first `k` tries exactly when it is `N + w*65536` for some `w < k`, is at most `total_lines` and is held by some range. |
| Translate.CandidatesComplete | foldcessing.c:317-335 | The same for the ten tries `translate_line` makes. |
| Translate.HasLineFound | foldcessing.c:325-334 | One try finds its own line exactly when some range holds it. |
| Translate.AlternativesJoin | foldcessing.c:348-357 | The text built after `j` parts is the first `j` locations joined with ` or `. |
| Translate.TranslationForms | foldcessing.c:337-359 | No candidate gives `output.pde:N`, one gives `relative:line`, and several give the ` or ` list with ` (line wrapping)`. |
| Translate.Unplaced | foldcessing.c:337-340 | A reported line that no try can place is printed literally. |
| Translate.OwnerFound | foldcessing.c:325-334 | In the line map the aggregation builds, a line inside file `i`'s range is found at entry `i`. |
| Translate.Unwrapped | foldcessing.c:320-346 | When `total_lines` is at most 65536, only the first try can succeed, and the report is that range's location. |
| Translate.RoundTrip | foldcessing.c:303-360 | When the output has at most 65536 lines, line `n` of file `i`, at its place in `output.pde`, translates back to exactly `relative:n`. |
| Translate.WrappedLineRecovered | foldcessing.c:317-335 | Take a line of file `i` fewer than ten wraps in, reported modulo 65536. Among the candidates for the reported number is one naming file `i` and the line's position in it. |
| Rewrite.FindFrom | foldcessing.c:370 | `strstr` finds the first `output.pde:` at or after the position, or reports that there is none. |
| Rewrite.NoOverlap | foldcessing.c:370-371 | Two occurrences of the marker never overlap, so skipping eleven characters loses none. |
| Rewrite.SkipPositions | foldcessing.c:391-397 | The skip loop consumes a run of `:` and digits that starts with `:` and ends with a digit. It never stops inside a number, and it stops where no `:digit` follows. |
| Rewrite.SkipPositionsRun | foldcessing.c:391-397 | Every `:` the skip loop consumes is followed by a digit, so it consumes whole `:<number>` fields only. |
| Rewrite.SkipPositionsUnique | foldcessing.c:391-397 | A run of whole `:<number>` fields, not stopped inside a number and with no `:digit` after it, can end at one point only: where the loop stops. |
| Rewrite.FieldsSkipped | foldcessing.c:391-397 | Given fields `:d1:d2...` of digit runs with no digit and no `:digit` after them, the loop stops right after the last field. |
| Rewrite.SkipPositionFields | foldcessing.c:391-397 | The loop computes that stopping point. |
| Rewrite.SearchFrom | foldcessing.c:370-376 | The search yields a marker followed by a positive number, or nothing. |
| Rewrite.SearchFirst | foldcessing.c:370-376 | The search yields the first marker followed by a positive number. |
| Rewrite.SearchFound | foldcessing.c:370-376 | Conversely, no marker before the one the search yields is followed by a positive number. |
| Rewrite.SearchNone | foldcessing.c:370-412 | A line with no marker followed by a positive number yields nothing. |
| Rewrite.Passthrough | foldcessing.c:411-412 | A line with no translatable marker is printed unchanged. |
| Rewrite.AtFirstAccepted | foldcessing.c:376-408 | The printed line is: the text before the FIRST marker of the line, the translation of the first accepted marker's number, the column, and the rest after the skipped fields. |
| Rewrite.ColonWithoutColumn | foldcessing.c:381-389 | A `:` after the line number with no digits after it still prints `:0`, and the `:` stays in the rest of the line. |
| Rewrite.ZeroColumn | foldcessing.c:383-389 | A `:` without digits after it gives column 0 and no skipped fields. |
| Rewrite.DigitsRun | foldcessing.c:373-374 | `strtol` on a maximal run of digits reads exactly that run, and its value. |
| Rewrite.ColumnRun | foldcessing.c:381-397 | A `:column` followed by any further `:<number>` fields, with no digit and no `:digit` after them, prints `:column` and skips the column and every field. |
| Rewrite.RewriteAt | foldcessing.c:376-408 | The printed line is stated for a first marker, given its number, its column text and its skip point. |
| Rewrite.DiagnosticLine | foldcessing.c:364-413 | `prefix output.pde:L:C:L2:C2... rest` prints as `prefix`, then the translation of `L`, then `:C`, then `rest`. The further position fields `:L2:C2...` are dropped. |
| Rewrite.DiagnosticReported | foldcessing.c:364-413 | End to end, when the output has at most 65536 lines: a compiler diagnostic at the `output.pde` line of line `n` of file `i` prints as `prefix relative:n:C rest`, with any further position fields dropped. |
| Rewrite.PrintTranslated | foldcessing.c:376-408 | The translating branch prints the prefix, the translation, the column and the rest. |
| Rewrite.ProcessOutputLine | foldcessing.c:364-413 | What `process_output_line` prints is the rewriting of its line. |
| Rewrite.CString | foldcessing.c:678-679 | The string handed on is the buffer up to its first NUL. |
| Rewrite.RunAppend | foldcessing.c:674-686 | Feeding two chunks in turn equals feeding their concatenation, so chunk boundaries do not matter. |
| Rewrite.RunBounded | foldcessing.c:683-685 | The pending line never exceeds `MAX_LINE - 1` characters, and completed lines are only ever appended. |
| Rewrite.KeptAppend | foldcessing.c:674-686 | Keeping non-empty pieces distributes over concatenation. |
| Rewrite.RunSplit | foldcessing.c:674-686 | From any pending line, feeding bytes and flushing gives the non-empty, truncated pieces of the pending text plus the bytes. |
| Rewrite.StreamLines | foldcessing.c:674-774 | One stream's reassembly, with the final flush, hands on exactly the non-empty pieces between `\n`/`\r`, each cut to `MAX_LINE - 1` characters. |
| Rewrite.StreamLinesShape | foldcessing.c:674-774 | Every buffered line is non-empty, holds no terminator and fits the buffer. Its C string, which is what `process_output_line` receives, may still be empty when the line starts with a NUL. |
| Rewrite.PrintAllAppend | foldcessing.c:677-681 | What is printed for two runs of lines is the concatenation of what is printed for each. |
| Rewrite.LineAssembler.constructor | foldcessing.c:658-661 | The line buffer starts empty. |
| Rewrite.LineAssembler.EmitLine | foldcessing.c:677-682 | A completed line is recorded and printed, rewritten and followed by a newline. |
| Rewrite.LineAssembler.Feed | foldcessing.c:675-685 | One byte advances the reassembly state as `Consume` says and prints any completed line. |
| Rewrite.LineAssembler.FeedChunk | foldcessing.c:674-686 | One chunk advances the state as `Run` says and prints each completed line. |
| Rewrite.LineAssembler.Flush | foldcessing.c:762-774 | A non-empty partial line is passed on and printed at the end. |
| Rewrite.Relay | foldcessing.c:666-774 | Over any sequence of chunks, the stream prints the rewriting of each non-empty, truncated piece of the concatenated bytes, each followed by a newline. |

## Left out

- `parse_config`, the console attachment, the `MessageBox` dialogs, `mklink`/`rmdir`, the command line and the exit codes are program setup, not the folding and translation core. The ignore patterns, the file contents and the directory tree are parameters instead.
- The run of `processing-java` (`CreateProcess`, pipes, `PeekNamedPipe` polling, `Sleep`, `GetExitCodeProcess`, `fflush`) is left out. The bytes read from a pipe are a parameter: a sequence of chunks.
- Interleaving of stdout and stderr: each stream is modelled by its own independent `LineAssembler`. The order in which the two streams' lines reach the console is not captured.
- File reading is a map from path to lines, and a missing path stands for `fopen` failing.
  - The model does not capture how `fgets` splits a line longer than `MAX_LINE - 1` into several lines.
  - Nor does it capture a last line without a newline.
- Collect.CollectedUnder: the ancestor property is proved for trees whose entry names are non-empty and hold no `\` or `/`. Windows never reports such names, and with them a name would not be one path component.
- A failing `FindFirstFile` is modelled as a directory entry that cannot be listed (`Locked`). Why it fails is not modelled.
- Collect.Enumerate: each directory's arrays have one slot per directory entry instead of the source's fixed 1000. The overflow past 1000 entries in one directory is undefined behaviour in the source and is not modelled.
- `MAX_PATH_LEN` truncation by `snprintf`/`strcpy` of paths is not modelled: paths are unbounded strings.
- Translate.TranslateLine: the truncation of the rendered text by `part[512]`, `temp[MAX_LINE]`, `strncat` and the `translated[MAX_PATH_LEN]` buffer is not modelled. The result is the untruncated text.
- Text.NumberAt: `strtol` is modelled on digits only. Leading white space, a sign and overflow to `LONG_MAX` or beyond `int` are not modelled. So a line, a column or a position field after the column written with a sign or leading blanks is outside the model.
- Integer overflow of `current_line`, `total_lines` and `k * LINE_WRAP` is not modelled: integers are unbounded. The source overflows only once the output reaches about 2^31 lines, since `line_num + k * 65536` can then pass `INT_MAX`.
- The `strcpy` of a line into `buffer[MAX_LINE]` in `process_output_line` is not modelled. The reassembly already keeps lines below `MAX_LINE` characters, as Rewrite.StreamLinesShape proves.
- `tolower`, `isspace` and `_stricmp` are modelled in the "C" locale, on code points. Locale-dependent case mapping is not modelled.
