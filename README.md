# rux_texts search core, modelled in Dafny

This project models the text-search core of `rux_texts` from the rubx
library, with proofs about it:

- the line scanner `text_file_find_any` / `text_file_find`, which searches one file
  for several literal patterns and writes one descriptor
  `(path)[row,col,pos,len]line` for the first occurrence of each pattern on
  each line;
- the descriptor decoder `text_file_founds`;
- the multi-file search `text_files_find_any` / `text_files_find`. Its workers pop
  paths from a shared pool and scan them. The partial lists are then joined in
  spawn order, and the call fails as a whole if any worker failed;
- the helpers `del`, `is_likely`, the character-class tests, `tocapital`,
  `find_bigger_line` / `find_smaller_line`, the `read_setup` settings parser
  and `is_truthy`.

Modules:

- `Text` (`text.dfy`) holds the string primitives the code takes from Rust:
  - UTF-8 byte lengths, because `str::len` and the offsets from `str::find` count bytes;
  - Unicode whitespace and `trim`;
  - first-occurrence `find`;
  - decimal printing;
  - ASCII case mapping.
- `Scanner` (`scanner.dfy`) is the line scanner. A file system is a value, `Disk`: a map from
  path to the file's lines (each with its terminator) and whether reading it fails.
  `ScanFile` is the specification, and `TextFileFindAny` is the loop of the source,
  proved equal to it.
- `ScanProperties` (`scan_properties.dfy`) holds what the records mean:
  - where they point in the file;
  - their order;
  - that every first occurrence is reported;
  - that "nothing found" is `None`, never `Some` of an empty list.
- `Founds` (`founds.dfy`) is the decoder as a state machine over characters, with its
  round trip against the scanner's encoding.
- `Distributor` (`distributor.dfy`) is the multi-file search. Workers run in an
  interleaving chosen by a `schedule` parameter. The pool is a `Pool` object whose
  `Pop` takes the last path.
- `Strings` (`strings.dfy`) and `Lines` (`lines.dfy`) are the helpers.

One might expect `pos` never to decrease within a file, and the decoder always
to return six fields. The code guarantees neither, and the model follows the code:

- within one line, records come in pattern order, so `pos` can decrease
  (`ScanProperties.PosMayDecreaseWithinRow`);
- a descriptor without `)` or with too few separators decodes to fewer fields
  (`Founds.DecodeNoClose`).

## Model

| member | source | states |
|---|---|---|
| Text.FindSpec | src/rux_texts.rs:265 | `str::find` yields an occurrence with no occurrence before it, and `None` only when the pattern occurs nowhere |
| Scanner.TextFileFindAny | src/rux_texts.rs:248-290 | the scan loop yields exactly `ScanFile`: an error when the file cannot be opened or a read fails, otherwise the encoded records of all lines in order, `None` when there are none, never `Some([])` |
| Scanner.TextFileFind | src/rux_texts.rs:243-246 | the single-pattern scan is the multi-pattern scan with one pattern |
| Scanner.MatchLine | src/rux_texts.rs:264-285 | the pattern loop of one line appends the descriptors of that line's records, in pattern order, to those gathered so far |
| Scanner.MatchPattern | src/rux_texts.rs:265-283 | one pattern appends the descriptor of its first occurrence, if any, and turns `None` into `Some` on the first hit |
| ScanProperties.HitForOccurs | src/rux_texts.rs:265-270 | a pattern gives a line no record when it occurs nowhere in it, and otherwise exactly one: at the byte column of an occurrence with no occurrence before it, with `pos = done + col` and `len` the pattern's byte length |
| ScanProperties.MatchesSound | src/rux_texts.rs:265-282 | every record has the file's path and a row within the file. Its line is that row's untrimmed text. `pos` is the byte count of the earlier lines plus `col`, and `col` is the first occurrence of a pattern whose byte length is `len` |
| ScanProperties.MatchInFile | src/rux_texts.rs:269-270 | `pos` is the byte offset in the whole file of an occurrence of a pattern whose byte length is `len` |
| ScanProperties.MatchesOrdered | src/rux_texts.rs:257-287 | rows never go back, and a record on an earlier row ends at or before the `pos` of any record on a later row |
| ScanProperties.PosMayDecreaseWithinRow | src/rux_texts.rs:264-269 | with patterns "b", "a" on the line "ab" the second record has the smaller `pos`, so within a row `pos` follows pattern order |
| ScanProperties.LineMatchesAt | src/rux_texts.rs:264-265 | the record of pattern `a` on a line comes after exactly the records of the earlier patterns that occur there |
| ScanProperties.MatchesComplete | src/rux_texts.rs:259-285 | the first occurrence of every pattern on every line is reported |
| ScanProperties.MatchesEmpty | src/rux_texts.rs:253-268 | a file has no records exactly when no pattern occurs on any line |
| ScanProperties.ScanOutcome | src/rux_texts.rs:253-289 | a scan fails exactly when the file is missing or a read fails. It yields `None` exactly when no pattern occurs anywhere, and never `Some` of an empty list |
| ScanProperties.EmptyPattern | src/rux_texts.rs:265-270 | an empty pattern yields a record at column 0, length 0, of every line |
| ScanProperties.AlphaExample | src/rux_texts.rs:257-287 | the file "alpha\nbeta alpha\n" searched for "alpha" yields records at (row 1, col 0, pos 0) and (row 2, col 5, pos 11) |
| ScanProperties.AlphaDescriptor | src/rux_texts.rs:275-282 | the first of those records is written "(path)[1,0,0,5]alpha", with the line trimmed |
| Founds.TextFileFounds | src/rux_texts.rs:366-397 | the character loop yields exactly `Decode`: one to six fields, the second to fifth made only of digits |
| Founds.DecodeShape | src/rux_texts.rs:366-397 | the decoder never fails: one to six fields, the numeric ones all digits |
| Founds.FeedGrows | src/rux_texts.rs:376-393 | a closed field is never changed again |
| Founds.DecodePath | src/rux_texts.rs:371-382 | the first field is everything between the first character and the first `)` |
| Founds.DecodeNoClose | src/rux_texts.rs:371-396 | without a `)` the whole input after the first character is one single field |
| Founds.RoundTrip | src/rux_texts.rs:275-282 | decoding a descriptor the scanner wrote gives its path, its four numbers in decimal and its trimmed line, if the path has no `)` |
| Founds.RoundTripNumbers | src/rux_texts.rs:383-390 | the four numeric fields of a decoded descriptor parse back to the record's row, col, pos and len |
| Founds.ParenInPath | src/rux_texts.rs:376-379 | a `)` inside the path cuts the decoded path short |
| Distributor.Pool.Pop | src/rux_texts.rs:314-317 | the pool hands out its last path and keeps the rest, or `None` when empty |
| Distributor.Work | src/rux_texts.rs:313-337 | one pass of a worker: pop a path. An empty pool finishes the worker, a failed scan stops it, and otherwise the file's descriptors are appended to the partial list |
| Distributor.WorkerStepOk | src/rux_texts.rs:322-336 | after a pass, a worker's partial list is still the scan of the paths it took, in the order it took them |
| Distributor.StepConsistent | src/rux_texts.rs:313-338 | each pass keeps the bookkeeping: the pool is what is left of `paths`, the popped paths are `paths` from the back, and the paths the workers took are exactly the popped ones |
| Distributor.AllDone | src/rux_texts.rs:313-319 | when every worker has finished, every path was popped once, from the end, and scanned without failure |
| Distributor.PanicCause | src/rux_texts.rs:322-324 | a worker that stopped on a failure did so because one of the paths could not be scanned |
| Distributor.CollectPermutation | src/rux_texts.rs:343-362 | scanning the same paths in another order yields the same descriptors, reordered |
| Distributor.MergedNone | src/rux_texts.rs:343-362 | the joined result is `None` exactly when every worker's partial result is `None` |
| Distributor.MergedCollect | src/rux_texts.rs:343-362 | joining the finished workers' lists in spawn order gives the scan of every path they took, worker after worker |
| Distributor.Join | src/rux_texts.rs:343-363 | the join in spawn order fails at the first worker, in spawn order, that failed: every worker before it finished. Otherwise it appends the partial lists in spawn order |
| Distributor.Step | src/rux_texts.rs:311-340 | a scheduled pass by a running worker keeps the bookkeeping |
| Distributor.Finish | src/rux_texts.rs:313-338 | a worker left running runs until the pool is empty or a scan fails |
| Distributor.TextFilesFindAny | src/rux_texts.rs:300-364 | the call fails exactly when some path cannot be scanned. Otherwise it returns the descriptors of the files taken in some order `order` that is a permutation of `paths`, `None` when there are none; the descriptors are a permutation of those of `paths` in their given order. With one worker or no interleaving, `order` is exactly `paths` reversed. `order` is worker after worker in spawn order, each worker's files in the order it popped them (`Distributor.MergedCollect`), which need not be the order of the pops |
| Distributor.TextFilesFind | src/rux_texts.rs:292-298 | the single-pattern search is the multi-pattern search with one pattern |
| Strings.Del | src/rux_texts.rs:70-87 | the characters with index in `[start, end)` are removed, after `start` is clamped to the byte length and `end` raised to `start`. `start >= end` changes nothing |
| Strings.IsLikely | src/rux_texts.rs:125-148 | true exactly when the lowercased non-whitespace characters of `text` are a prefix of those of `with`, so `with` running out first gives false |
| Strings.FoldedLower | src/rux_texts.rs:133-138 | case does not matter to `is_likely` |
| Strings.FoldedSpace | src/rux_texts.rs:131-140 | whitespace does not matter to `is_likely` |
| Strings.IsWhitespaceText | src/rux_texts.rs:150-153 | true exactly when the text trims to nothing |
| Strings.IsLinespace | src/rux_texts.rs:155-160 | as written, true only for the empty text |
| Strings.IsLinebreak | src/rux_texts.rs:162-167 | as written, true only for the empty text |
| Strings.IsBrackets | src/rux_texts.rs:169-174 | as written, true only for the empty text |
| Strings.IsQuotation | src/rux_texts.rs:176-181 | as written, true only for the empty text |
| Strings.LinespaceFinding | src/rux_texts.rs:155-167 | " \t" is not a line space and "\r\n" not a line break as written, though both are as intended |
| Strings.IsLinespaceIntended | src/rux_texts.rs:155-160 | the intended test: every character is a space or a tab |
| Strings.ToCapital | src/rux_texts.rs:193-203 | the same length, the first character upper-cased and the rest lower-cased |
| Strings.ToCapitalIdempotent | src/rux_texts.rs:193-203 | capitalising twice is capitalising once |
| Strings.ToCapitalIgnoresCase | src/rux_texts.rs:193-203 | the case the text arrives in does not matter |
| Strings.IsTruthy | src/rux_texts.rs:569-586 | true exactly when the lowercased value is one of "true", "t", "yes", "y", "on", "1" |
| Strings.TruthyIgnoresCase | src/rux_texts.rs:574 | truthiness does not depend on case |
| Strings.TruthyShape | src/rux_texts.rs:569-586 | a truthy value has one to four characters. Surrounding spaces are not trimmed (" true" is not truthy) |
| Lines.FindBiggerLine | src/rux_texts.rs:519-531 | `None` exactly for no lines, otherwise the first of the longest lines in bytes |
| Lines.FindSmallerLine | src/rux_texts.rs:533-545 | `None` exactly for no lines, otherwise the first of the shortest lines in bytes |
| Lines.LongestIsShortest | src/rux_texts.rs:519-545 | the first longest and the first shortest line are the same line exactly when all lines are equally long |
| Lines.Unterminated | src/rux_texts.rs:551-552 | a line as read loses a final `\r\n`, or else a final `\n`, and a line without a final `\n` is kept whole |
| Lines.Entry | src/rux_texts.rs:553-555 | an empty line or a comment gives no setting |
| Lines.EntrySplit | src/rux_texts.rs:556-563 | a setting line splits at its first `=` into a trimmed key and a trimmed value. Without `=` the whole untrimmed line is the key, with an empty value |
| Lines.SetupKeys | src/rux_texts.rs:550-565 | the keys of the settings are exactly the keys some line gives |
| Lines.SetupLastWins | src/rux_texts.rs:559-563 | a key holds the value of the last line that gives it |
| Lines.ReadSetup | src/rux_texts.rs:547-566 | an unopenable file and a failing read are errors. Otherwise the result is the settings of the file's lines, read in order |

## Left out

- File I/O, threads, the mutex, `num_cpus` and the `dbg_*` logging. A file system is
  the value `Disk`. The number of CPUs is a parameter, at least 1. Thread interleaving is
  the `schedule` parameter, followed by the remaining workers in spawn order. A panic is a
  worker state. A poisoned lock is not modelled.
- Distributor.TextFilesFindAny: interleavings are those a schedule of whole passes
  gives (one pop plus the scan of that file). A pass is atomic in the model, which
  does not change what any worker returns.
- Scanner.TextFileFindAny: a read error is modelled after the file's last given line.
  This is the same as an error after any prefix of lines, since the partial result is
  discarded.
- The rest of `rux_texts`: `ask*`, `len`, `trim`, `is_empty`, `is_ascii`, `is_equals`,
  `is_equally`, `tolower`, `toupper`, `contains`, `find`, `rfind`, `starts_with`,
  `ends_with`, `split*`, `del_rex`, `del_regex`, `read`, `write*` and `append*`. These are
  console or file I/O, regular expressions, or one-line wrappers of the standard library.
- Founds.Step: `char::is_numeric` is modelled as the ASCII digits `0`–`9`. The numerals of
  other scripts, which Rust also counts as numeric, are treated as non-digits.
- Strings.IsLikely: `to_lowercase` is modelled as ASCII lower-casing. Unicode case folding
  is not modelled.
- Strings.ToCapital: ASCII case mapping only. It requires an ASCII first character (or
  the empty text), because the source slices the first byte and panics otherwise.
- Strings.IsTruthy: ASCII lower-casing only.
- Founds.RoundTrip: only for paths without `)`. A path with `)` does not round-trip
  (`Founds.ParenInPath`).
- ScanProperties.MatchesOrdered: `pos` is ordered only across rows. Within a row it follows
  pattern order.
- Overflow is not modelled, because integers are unbounded. In the source `row` (src/rux_texts.rs:257) has no type annotation, so it is an `i32` and overflows after 2^31−1 lines. `done` and `pos` are `usize`.

## Findings

| source | as written | input that shows it | evidently intended | confidence | as-written member | corrected member |
|---|---|---|---|---|---|---|
| src/rux_texts.rs:155-181 | `is_linespace`, `is_linebreak`, `is_brackets` and `is_quotation` reject a text if any character differs from ANY member of the set. With two distinct members every character differs from one of them, so only "" passes | `is_linespace(" \t")` is false; `is_linebreak("\r\n")` is false | every character belongs to the set, as `is_whitespace` does for whitespace | not executed | Strings.LinespaceFinding | Strings.IsLinespaceIntended |
