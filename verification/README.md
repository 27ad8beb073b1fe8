# pubpeer-doi-checker, modelled in Dafny

The tool reads lists of DOIs from the `.txt` files in its working directory.
It looks up each DOI with the PubPeer search API and writes one report per
input file, `<stem> result.txt`. Each report line says whether PubPeer has
the DOI: `doi&да&<comments>&<title>`, `doi&нет` or `doi - error`.

This project models the pure core of `main.go`:

- `Discovery`: which directory entries are taken as inputs (`GetDOIFiles`).
- `Naming`: the report file name derived from an input name.
- `Records`: the record written for one DOI, given what the lookup returned (`CurlPubPeer` and the formatting in `PubPeerCheck`).
- `Buffer`: the per-file buffer of records.
- `Driver`: the loop over files, which stops at the first file-system failure.

`Strings` holds the two `strings` functions the code uses (`HasSuffix`,
`TrimSuffix`), plus `IndexOf` and `IndexOfAfter`, which only the read-back
parsers use. `Decimal` holds Go's `%d` rendering of an `int`, with a parser
that reads it back. `Wrappers` holds `Option`/`Result`.

The HTTP request, the body read and JSON decoding become one datatype,
`Records.FetchOutcome`. It is either `Failed` or `Decoded(pubs)`, where
`pubs` is `None` when `publications` is absent or null. The file system
becomes one `Driver.FileEnv` per input name: whether open, create and write
succeed, and the scanned lines paired with their lookup outcomes. The
directory listing is an `Option<seq<string>>`, where `None` means that
`os.ReadDir` failed.

Two details of the record format:

- A trailing period is removed only in the `да` record. For `10.1000/xyz.` with an empty list the record is `10.1000/xyz.&нет` (`Records.TrailingPeriodExamples`).
- Every scanned line is looked up, blank ones included.

## Model

| member | source | states |
|---|---|---|
| Strings.TrimSuffix | main.go:124 | one occurrence of the suffix is dropped from the end when present; otherwise the string is returned unchanged |
| Discovery.SelectInputs | main.go:166-175 | the selected names are exactly the listing's names that end in `.txt` and not in `result.txt`; there are never more of them than entries |
| Discovery.SelectionIsOrderedSubsequence | main.go:167-174 | selection is the subsequence at strictly increasing positions, and those positions are exactly the ones holding an input name: every input name is kept, nothing else is added, and listing order is preserved |
| Discovery.SelectAppend | main.go:167-174 | selection over two listings put together is the selection of the first followed by that of the second |
| Discovery.SelectNothing | main.go:168-171 | a listing that holds no input name selects nothing |
| Discovery.GetDOIFiles | main.go:160-176 | the scanning loop returns the selection of the listing, or no files when the directory read fails; every returned name is an input name |
| Naming.ResultName | main.go:124 | every report name ends in `result.txt` and in `.txt`, so it is never itself an input name |
| Naming.ResultNameStem | main.go:124 | at most one `.txt` is removed: a `.txt` input is the report name minus ` result.txt` plus `.txt`; any other name just gets ` result.txt` appended |
| Naming.ResultNameInjectiveOnInputs | main.go:124 | two input files with the same report name are the same file |
| Naming.OutputNames | main.go:124 | the report names of a list of inputs, one per input and in order |
| Naming.ReportsNeverReselected | main.go:168-171 | adding report names to a listing does not change what is selected from it |
| Records.Fetch | main.go:196-199 | a lookup is an error exactly when the request failed or `publications` is absent or null; a present list, even an empty one, is passed through |
| Records.Record | main.go:135-146 | every record ends in a newline |
| Records.ErrorRecordIff | main.go:135-138 | the record is `doi - error` with the DOI untouched exactly when the lookup is an error |
| Records.NotFoundRecordIff | main.go:143-144 | the record is `doi&нет` with the DOI untouched exactly when the list is present and empty |
| Records.FoundRecordShape | main.go:141-142 | a non-empty list gives the `да` record, built from the first publication, with at most one trailing period removed from the DOI |
| Records.TrailingPeriodExamples | main.go:141-145 | for the DOI `10.1000/xyz.`, the `нет` and error records keep the period and the `да` record drops it |
| Records.OnlyFirstPublicationMatters | main.go:142 | publications after the first do not affect the record |
| Records.FoundRecordRoundTrip | main.go:142 | the first publication's comment count and title can be read back from its `да` record |
| Records.RecordIsOneLine | main.go:137-144 | when neither the DOI nor the title used holds a newline, the record's only newline is its last character |
| Decimal.NatToString | main.go:142 | decimal digits of a natural number, never with a leading zero except for zero itself |
| Decimal.IntToString | main.go:142 | `%d` of an `int` is digits with a leading minus sign exactly for negative numbers |
| Decimal.IntToStringRoundTrip | main.go:142 | parsing a rendered integer gives the same integer |
| Buffer.RecordsOf | main.go:131-147 | one record per scanned line, and record `i` belongs to line `i` |
| Buffer.ContentsAppend | main.go:131-147 | the buffer for two runs of lines put together is the first run's buffer followed by the second's |
| Buffer.ContentsAround | main.go:131-147 | the buffer around any one line is the buffer before it, that line's record, then the buffer after it |
| Buffer.FailedLineContinues | main.go:135-138 | a failed lookup adds `doi - error` and the following lines are processed as if it had not happened |
| Buffer.FillBuffer | main.go:129-147 | the buffer loop ends holding the records of all lines concatenated in input order |
| Buffer.ReportLinesMatchInput | main.go:131-147 | when fields hold no newline, splitting the report into lines gives back exactly one record per input line, in input order |
| Buffer.MultiLineTitleSplitsRecord | main.go:142 | a title holding a newline (`"A\nB"`) makes one input line produce two report lines |
| Driver.ProcessFile | main.go:119-154 | a file succeeds exactly when open, create and write all succeed, and then its report is named after it and holds its whole buffer; open is checked before create, and create before write |
| Driver.ProcessOne | main.go:119-154 | the loop body with its early returns (open, create, buffer, write) yields exactly `ProcessFile`'s outcome |
| Driver.Run | main.go:118-157 | the written reports belong to a prefix of the files, each written in full; the run aborts at the first failing file and at the step where it fails; it completes only when all files are written; the created report files are the prefix's plus the failing file's when the write failed |
| Driver.RunSpecDeterminesRun | main.go:118-155 | at most one run meets `RunSpec`, the description stated for `Driver.Run` |
| Driver.CompletionIff | main.go:156-157 | the completion message is reached exactly when every file succeeds |
| Driver.AbortIgnoresLater | main.go:119-152 | once a file aborts the run, files listed after it have no effect on the result |
| Driver.PubPeerCheck | main.go:114-158 | the imperative loop with early returns meets `RunSpec` over the discovered files |
| Driver.RunOutputsNotReselected | main.go:124 | the report files a run creates are not picked up as inputs when the directory is scanned again |

## Left out

- The interactive menu, keyboard handling, the `uilive` writer and coloured output (main.go:64-112, 116, 156-157). These are terminal UI. The `2` branch is an empty stub. The completion message is modelled as `Driver.Completed`.
- The HTTP GET, reading the body, building the URL without escaping, and the fixed two-second sleep before each lookup. These are network and timing concerns, abstracted into `Records.FetchOutcome`.
- JSON decoding and the unused fields of the `Pubpeer` struct. Only each publication's comment count and title are kept, plus whether the list is present. A count too large for Go's `int` makes decoding fail. Such a lookup is simply a `Failed` outcome, so `Pub.commentsTotal` is an unbounded `int`.
- `bufio.Scanner` details: the 64 KiB token limit, CR stripping and the unchecked `scanner.Err()`. An input file is modelled as its already-split lines.
- Real file-system calls (`os.ReadDir`, `os.Open`, `os.Create`, `file.Write`) and the diagnostics printed on failure. They become success flags per file, and the listing becomes a parameter. The listing's order is whatever is given: the name-sorting done by `os.ReadDir` is not modelled.
- File handles left open on an early return are not modelled.
- One report line per input line holds only when DOIs and titles contain no newline. JSON allows a newline in a title, and then the record spans several report lines (`Buffer.MultiLineTitleSplitsRecord`).
- Strings are sequences of characters rather than UTF-8 bytes. The suffixes tested (`.txt`, `result.txt`, `.`) are ASCII, so byte-level and character-level suffix tests agree on them.
