# skpdiff comparison context, in Dafny

This project models `SkDiffContext`, the object at the centre of skpdiff. skpdiff takes
pairs of baseline and test images and runs an ordered list of image differs on each
pair. It keeps one record per pair whose two images decode, and writes the records as a
JSON (or JSONP) report or as a CSV table.

The model follows the C++ class member by member:

- `Context.DiffContext` is a class with the three fields the source updates: the record
  list, the differs and the difference directory. The record list is a sequence whose
  first element is the head of the linked list.
- `AddDiff`, `DiffDirectories`, `DiffPatterns`, `OutputRecords` and `OutputCsv` are
  methods with the source's loops. Each is proved against a specification function of
  its inputs and of the context's state.
- The lemmas in `CommonName`, `DiffScan`, `Pairing`, `JsonReport` and `CsvReport` say what
  those specification functions compute: the common name, the differs' data kept in a
  record, the single difference-image slot, the pairs that get dispatched, POI
  truncation, the "comma only between elements" shape of the JSON lists, CSV columns in
  first-seen order, the -1 cell for a missing result, and the CSV row key.

Everything the context cannot see is an input:

- Image decoding, the basename and path-join helpers, `sk_mkdir`, `sk_exists`,
  `sk_isdir`, directory listing, globbing and `get_absolute_path` are fields of a
  `Host` value.
- Number rendering (`writeScalarAsText`, `writeDecAsText`, `%f`) is a `Formatter`
  value.
- A differ is a value with a name, the answer of its `enablePOIAlphaMask`, and a
  `queue` function giving the diff id, result and points of interest it returns for a
  pair.
- The calls the context makes into the differs and into the PNG encoder
  (`enablePOIAlphaMask`, `queueDiff`, the mask `EncodeFile`, `deleteDiff`) are
  returned as a trace of `DifferCall` values.
- A stream is the sequence of strings passed to `writeText`, in order.
- A string is the C string's bytes, one `char` per byte. Comparisons and lengths are
  byte-wise, as in the C++ code, so a common name can end inside a multi-byte UTF-8
  character.

The thread pool of `diffDirectories` and `diffPatterns` is modelled as running each
pair at the moment it is queued. `Pairing.DispatchAddsPairs` states which records
result: one per decodable pair, as a multiset. `Pairing.DispatchOrderIndependent`
states that running the same pairs in any other order gives the same records, as a
multiset.

## Notes on the model

- The CSV row key scan starts at the last character of the baseline path
  (`tools/skpdiff/SkDiffContext.cpp:372-376`). A path ending in `/` therefore keeps that
  final `/` with the segment before it (`a/b/` gives `b/`), not an empty last segment.
  `CsvReport.FileKeyIsLastSegment` states the rule as the code applies it.
- Only the first qualifying differ draws a mask. `alphaMaskCreated` is set as soon as
  that differ is accepted (`tools/skpdiff/SkDiffContext.cpp:129-146`), even when its
  result is RESULT_CORRECT and no mask is encoded. A later differ whose images do differ
  then draws no mask, and the record's difference path stays empty.
  `DiffScan.ScanMask` and `DiffScan.EncodedAtMostOnce` state this.

## Model

| member | source | states |
|---|---|---|
| CommonName.CommonPrefix | tools/skpdiff/SkDiffContext.cpp:64-79 | the common name is a prefix of both names that either uses up one of them or stops at a position where the two differ |
| CommonName.CommonPrefixUnique | tools/skpdiff/SkDiffContext.cpp:64-79 | any string with those three properties is the common prefix, so the specification determines it |
| CommonName.CommonPrefixOfPrefix | tools/skpdiff/SkDiffContext.cpp:74-78 | when one name is a prefix of the other, the shorter name is the result |
| CommonName.CommonPrefixSymmetric | tools/skpdiff/SkDiffContext.cpp:64-79 | swapping the two names gives the same common name |
| CommonName.CommonPrefixStopsAtMismatch | tools/skpdiff/SkDiffContext.cpp:67-72 | at the first mismatching index x, the result is the first x characters |
| CommonName.CommonPrefixExample | tools/skpdiff/SkDiffContext.cpp:64-79 | a concrete pair of file names yields their shared stem |
| CommonName.GetCommonPrefix | tools/skpdiff/SkDiffContext.cpp:64-79 | the index loop with early return computes the common prefix; both names must be non-empty, and a name that is a prefix of the other is returned whole (the first name when the lengths are equal) |
| DiffScan.FirstQualifying | tools/skpdiff/SkDiffContext.cpp:113-146 | the index of the differ that claims the difference-image slot, if any, lies among the differs examined |
| DiffScan.FirstQualifyingIsFirst | tools/skpdiff/SkDiffContext.cpp:113-146 | the differ chosen is the first to have a difference directory set, the alpha mask enabled and an accepted pair; when none is chosen, no differ qualifies |
| DiffScan.Accepted | tools/skpdiff/SkDiffContext.cpp:116-117 | the accepting differs' indices lie among those examined |
| DiffScan.AcceptedIndices | tools/skpdiff/SkDiffContext.cpp:116-117 | an index is accepted exactly when its queueDiff id is non-negative; accepted indices are strictly increasing |
| DiffScan.ScanDiffs | tools/skpdiff/SkDiffContext.cpp:117-127 | the record's diffs are exactly one entry per accepting differ, in differ order, each copying that differ's name, result and full POI list |
| DiffScan.ScanMask | tools/skpdiff/SkDiffContext.cpp:106-146 | alphaMaskCreated becomes true exactly when some differ qualified; no mask stays pending once it is created; the difference path is the join of directory and common name when the first qualifying differ's result is not RESULT_CORRECT, and empty otherwise |
| DiffScan.ScanQueued | tools/skpdiff/SkDiffContext.cpp:110-116 | queueDiff is called on every differ and on no other index |
| DiffScan.QueuedOnce | tools/skpdiff/SkDiffContext.cpp:110-116 | queueDiff is called exactly once on each differ, and never on any other index |
| DiffScan.ScanDeleted | tools/skpdiff/SkDiffContext.cpp:117-150 | deleteDiff is called exactly with each accepting differ's own id and never for a negative id |
| DiffScan.DeletedOnce | tools/skpdiff/SkDiffContext.cpp:117-150 | each accepting differ's diff is deleted exactly once, with its own id; no other deletion happens |
| DiffScan.ScanMaskQueries | tools/skpdiff/SkDiffContext.cpp:113-115 | enablePOIAlphaMask is asked of a differ exactly when a difference directory is set and no earlier differ has claimed the slot; no later differ is asked |
| DiffScan.ScanMaskEncodes | tools/skpdiff/SkDiffContext.cpp:129-141 | the only encoder calls are by the first qualifying differ, to the join of directory and common name, and only when its result is not RESULT_CORRECT |
| DiffScan.EncodedAtMostOnce | tools/skpdiff/SkDiffContext.cpp:129-146 | the mask image is encoded exactly once when the first qualifying differ's result is not RESULT_CORRECT and never otherwise; no two different encoder calls occur |
| DiffScan.FlattenQueueCount | tools/skpdiff/SkDiffContext.cpp:110-116 | in any run of differ passes, each pass queues its own differ exactly once |
| DiffScan.FlattenDeleteCount | tools/skpdiff/SkDiffContext.cpp:117-150 | in any run of differ passes, a given id is deleted once by the pass that holds it, when it is non-negative, and never otherwise |
| DiffScan.FlattenEncodeCount | tools/skpdiff/SkDiffContext.cpp:129-141 | in any run of differ passes, a mask encode happens once for each pass that draws, always to the mask path |
| DiffScan.CallsArePasses | tools/skpdiff/SkDiffContext.cpp:108-150 | the differ loop's calls are its passes, one per differ, laid end to end |
| DiffScan.RecordOfPair | tools/skpdiff/SkDiffContext.cpp:85-151 | no record is added when either image fails to decode; otherwise exactly one record goes in front, with the input paths, the common prefix of the basenames, the mask path rule and the accepting differs' data |
| DiffScan.NoDifferenceDir | tools/skpdiff/SkDiffContext.cpp:113-141 | with no difference directory the difference path stays empty and no mask is ever enabled or encoded |
| Pairing.DirectoryPairsExact | tools/skpdiff/SkDiffContext.cpp:189-204 | a pair is dispatched exactly when it is the join of both roots with some baseline entry whose test path exists and is not a directory |
| Pairing.DirectoryPairsAllPresent | tools/skpdiff/SkDiffContext.cpp:189-204 | when every entry has its test file, every entry is dispatched, in listing order |
| Pairing.AddRecordFront | tools/skpdiff/SkDiffContext.cpp:85-99 | addDiff puts the new record, naming its own pair, at the head, or leaves the list alone when decoding fails |
| Pairing.DispatchKeepsRecords | tools/skpdiff/SkDiffContext.cpp:95-99 | dispatch keeps the existing records as the tail of the list and adds one record per decodable pair |
| Pairing.DispatchAddsPairs | tools/skpdiff/SkDiffContext.cpp:177-241 | the added records name exactly the decodable dispatched pairs, as a multiset |
| Pairing.DecodablePairsCount | tools/skpdiff/SkDiffContext.cpp:85-93 | a pair is kept as often as it is dispatched when both images decode, and never otherwise |
| Pairing.DispatchRecordCount | tools/skpdiff/SkDiffContext.cpp:81-155 | a record occurs in the list as often as before, plus once per dispatch of a decodable pair whose addDiff builds it |
| Pairing.DispatchOrderIndependent | tools/skpdiff/SkDiffContext.cpp:177-241 | dispatching the same pairs in any order gives the same records, as a multiset |
| Pairing.DispatchRecordsAreNew | tools/skpdiff/SkDiffContext.cpp:81-155 | every added record is the one addDiff builds for its own pair |
| JsonReport.ElementsUpToSeparated | tools/skpdiff/SkDiffContext.cpp:251-323 | after n elements the writes are those elements joined by a comma and line end, followed by a comma only if another element follows |
| JsonReport.ElementsAreSeparated | tools/skpdiff/SkDiffContext.cpp:298-321 | a whole list is its elements joined by separators, with no trailing comma |
| JsonReport.PoiListTruncated | tools/skpdiff/SkDiffContext.cpp:288-303 | at most kMaxPOI (100) points of interest are written, the first ones in order, with no trailing comma; points past the 100th change nothing |
| JsonReport.JsonShape | tools/skpdiff/SkDiffContext.cpp:245-329 | the document is the opening, the records key, the record list without trailing comma, the list end and the closing |
| JsonReport.JsonpWrapsJson | tools/skpdiff/SkDiffContext.cpp:243-330 | the JSONP document is the plain JSON document with its opening and closing braces replaced by the named assignment |
| JsonReport.RecordShape | tools/skpdiff/SkDiffContext.cpp:252-315 | a record is its four path fields, then its diffs without trailing comma, each diff its name, result and truncated POI list |
| JsonReport.WritePointsOfInterest | tools/skpdiff/SkDiffContext.cpp:288-303 | the POI loop writes the truncated point list |
| JsonReport.WriteDiff | tools/skpdiff/SkDiffContext.cpp:277-305 | one diff object is written as specified |
| JsonReport.WriteDiffs | tools/skpdiff/SkDiffContext.cpp:275-312 | the diffs loop writes the diff list with commas only between elements |
| JsonReport.WriteRecord | tools/skpdiff/SkDiffContext.cpp:252-315 | one record object is written as specified |
| JsonReport.WriteRecords | tools/skpdiff/SkDiffContext.cpp:251-323 | the records loop writes the record list, head first, with commas only between elements |
| CsvReport.FirstIndex | tools/skpdiff/SkDiffContext.cpp:341-352 | the position of a name's first occurrence |
| CsvReport.DistinctFirstSeen | tools/skpdiff/SkDiffContext.cpp:341-352 | the column list holds each name once, every name seen and no other, ordered by first occurrence |
| CsvReport.AllNamesContains | tools/skpdiff/SkDiffContext.cpp:341-352 | the names scanned are exactly the differ names of the records examined |
| CsvReport.ColumnsAreDifferNames | tools/skpdiff/SkDiffContext.cpp:336-353 | a name is a column exactly when some record has a diff with that name |
| CsvReport.CellAbsent | tools/skpdiff/SkDiffContext.cpp:360-370 | a column the record has no diff for holds -1 |
| CsvReport.CellLast | tools/skpdiff/SkDiffContext.cpp:364-370 | a column holds the result of the record's last diff of that name |
| CsvReport.KeyStart | tools/skpdiff/SkDiffContext.cpp:372-376 | the backward scan never moves past its starting character |
| CsvReport.KeyStartIsSegmentStart | tools/skpdiff/SkDiffContext.cpp:372-376 | the scan stops at the path's start or just after a '/', with no '/' between there and its starting point |
| CsvReport.KeyStartOfSegment | tools/skpdiff/SkDiffContext.cpp:372-376 | any position with those properties is where the scan stops |
| CsvReport.FileKeyIsLastSegment | tools/skpdiff/SkDiffContext.cpp:372-378 | the row key is the non-empty suffix that starts the last segment, not counting a final '/', and it is the only such suffix |
| CsvReport.FileKeyOfJoin | tools/skpdiff/SkDiffContext.cpp:372-378 | for a path formed by a directory, '/' and a plain file name, the key is the file name |
| CsvReport.HeaderShape | tools/skpdiff/SkDiffContext.cpp:346-347 | the header writes ", " and the name for each column, in column order |
| CsvReport.RowShape | tools/skpdiff/SkDiffContext.cpp:380-384 | a row writes exactly one formatted cell per column, in column order |
| CsvReport.FindFileKey | tools/skpdiff/SkDiffContext.cpp:372-376 | the backward pointer scan yields the row key |
| CsvReport.AddColumn | tools/skpdiff/SkDiffContext.cpp:344-349 | a name not yet in the column dictionary becomes the next numbered column and header cell; a known name changes nothing |
| CsvReport.AddColumns | tools/skpdiff/SkDiffContext.cpp:342-350 | after one record's diffs, the columns, their numbers and the header are those of the names seen so far plus this record's names |
| CsvReport.WriteHeader | tools/skpdiff/SkDiffContext.cpp:333-353 | the header loop writes "key", the distinct differ names in first-seen order and a line end, and numbers each column by its position |
| CsvReport.StoreResults | tools/skpdiff/SkDiffContext.cpp:364-370 | after the store loop each column's value is the record's cell for it, and the buffer entries past the columns are unchanged |
| CsvReport.WriteRow | tools/skpdiff/SkDiffContext.cpp:360-385 | one row is written as specified: the key, then one cell per column; the buffer ends holding the row's cells, with the entries past the columns unchanged |
| CsvReport.WriteRows | tools/skpdiff/SkDiffContext.cpp:355-388 | the rows loop, sharing one 100-entry value buffer, writes one row per record, head first |
| Context.DiffContext.constructor | tools/skpdiff/SkDiffContext.cpp:23-28 | a new context has no records, no differs and no difference directory |
| Context.DiffContext.SetDifferenceDir | tools/skpdiff/SkDiffContext.cpp:44-48 | the directory is adopted only when non-empty and mkdir succeeds; otherwise it is unchanged |
| Context.DiffContext.SetDiffers | tools/skpdiff/SkDiffContext.cpp:50-62 | the differs become a copy of the given ones, same count, same order |
| Context.DiffContext.AddDiff | tools/skpdiff/SkDiffContext.cpp:81-155 | the record list becomes the specified result of adding the pair, and the calls made are the specified trace |
| Context.DiffContext.DiffDirectories | tools/skpdiff/SkDiffContext.cpp:177-207 | nothing is dispatched when the directory cannot be listed; otherwise the dispatched pairs are those of the listing rule, and the records are those of running them |
| Context.DiffContext.DiffPatterns | tools/skpdiff/SkDiffContext.cpp:210-241 | nothing is dispatched when either glob fails or the counts differ; otherwise the pairs are the matches zipped by position |
| Context.DiffContext.OutputRecords | tools/skpdiff/SkDiffContext.cpp:243-330 | the writes are the specified JSON or JSONP document of the record list |
| Context.DiffContext.OutputCsv | tools/skpdiff/SkDiffContext.cpp:332-389 | the writes are the specified CSV document; requires fewer than 100 columns and non-empty baseline paths |

## Left out

- Image decoding and encoding, the alpha-mask bitmap copy and the PNG write: foreign codec calls. Decoding is a boolean of the host, and the mask write is a `DifferCall` in the trace.
- The thread pool and `SkThreadedDiff`: concurrency. Dispatch runs each pair in turn. The source's unsynchronised prepend to the list is a data race and is not modelled.
- Context.DiffContext.AddDiff: links the finished record into the list after the differ loop, not before it as at `tools/skpdiff/SkDiffContext.cpp:95-99`. With dispatch in turn nothing reads the list in between, so the resulting list is the same.
- The `SkDebugf` messages on failures: logging only.
- `fThreadCount` and the destructor: pool sizing and memory release, with no effect on results.
- The filesystem and path helpers (`sk_mkdir`, `sk_exists`, `sk_isdir`, `get_directory`, `glob_files`, `get_absolute_path`, `SkBasename`, `SkPathJoin`): their bodies are not part of this model, so they are uninterpreted fields of `Host`. The sorting of glob results is theirs.
- The value of `SkImageDiffer::RESULT_CORRECT`: SkImageDiffer.h is not part of this model, so `ResultCorrect` is a constant whose value is left open.
- Number formatting (`writeScalarAsText`, `writeDecAsText`, `%f` of a `double`) and the `float` cast of a result: floating point, rendered by uninterpreted `Formatter` fields.
- JSON string escaping: the source writes names and paths without escaping, and the model does the same. Decoding a report back is not modelled, since a name holding a quote would not round-trip.
- The concrete differ algorithms: only each differ's name, mask flag, id, result and points of interest matter to the context.
- Context.DiffContext.AddDiff: treats `enablePOIAlphaMask` as a fixed answer per differ, not a call that could change the differ's later behaviour.
- Context.DiffContext.AddDiff: requires non-empty basenames for decodable pairs, which the source asserts in `get_common_prefix` (`tools/skpdiff/SkDiffContext.cpp:66`); `DiffDirectories` and `DiffPatterns` require this for every decodable name.
- Context.DiffContext.OutputCsv: requires fewer than 100 columns (the source's assertion on its 100-entry buffer) and non-empty baseline paths (an empty path would make the source's key pointer start before the string).
- `SkTDict`: the column dictionary is a Dafny `map` from name to column number.
