/**
  SkDiffContext: the object that owns the differs, the difference directory and the list
  of records, builds a record per image pair and writes the reports.

  The record list is a sequence whose first element is the head of the linked list, so
  the most recently added record comes first. The thread pool that runs addDiff for each
  discovered pair is modelled as running each pair at the moment it is queued.
 */
module Context {
  import opened DiffTypes
  import opened CommonName
  import opened DiffScan
  import opened Pairing
  import opened JsonReport
  import opened CsvReport

  class DiffContext {
    /** fRecords, head first. */
    var records: seq<DiffRecord>
    /** fDiffers, in the order they run. */
    var differs: seq<Differ>
    /** fDifferenceDir; empty when no difference images are wanted. */
    var differenceDir: string

    constructor()
      ensures records == [] && differs == [] && differenceDir == []
    {
      records := [];
      differs := [];
      differenceDir := [];
    }

    /** The directory is adopted only when it is non-empty and sk_mkdir succeeds on it. */
    method SetDifferenceDir(host: Host, path: string)
      modifies this
      ensures differenceDir == if path != [] && host.mkdir(path) then path else old(differenceDir)
      ensures records == old(records) && differs == old(differs)
    {
      if path != [] && host.mkdir(path) {
        differenceDir := path;
      }
    }

    /** The previous differs are dropped and the new ones copied in, in order. */
    method SetDiffers(newDiffers: seq<Differ>)
      modifies this
      ensures differs == newDiffers
      ensures records == old(records) && differenceDir == old(differenceDir)
    {
      differs := newDiffers;
    }

    /**
      addDiff: when both images decode, run every differ on the pair and put the new
      record at the head of the list; the returned trace is the calls made into the
      differs and the image encoder.
     */
    method AddDiff(host: Host, baselinePath: string, testPath: string) returns (calls: seq<DifferCall>)
      requires Decodes(host, Pair(baselinePath, testPath)) ==> host.basename(baselinePath) != [] && host.basename(testPath) != []
      modifies this
      ensures records == AddRecord(host, differs, differenceDir, old(records), Pair(baselinePath, testPath))
      ensures calls == PairCalls(host, differs, differenceDir, Pair(baselinePath, testPath))
      ensures differs == old(differs) && differenceDir == old(differenceDir)
    {
      calls := [];
      if !host.decodes(baselinePath) {
        return;
      }
      if !host.decodes(testPath) {
        return;
      }
      var commonName := GetCommonPrefix(host.basename(baselinePath), host.basename(testPath));
      ghost var job := JobFor(host, differs, differenceDir, Pair(baselinePath, testPath));

      var diffs: seq<DiffData> := [];
      var differencePath := "";
      var alphaMaskPending := false;
      var alphaMaskCreated := false;
      var differIndex := 0;
      while differIndex < |differs|
        invariant differIndex <= |differs|
        invariant Scan(diffs, differencePath, alphaMaskPending, alphaMaskCreated, calls) == ScanUpTo(job, differIndex)
      {
        var differ := differs[differIndex];
        if !alphaMaskCreated && differenceDir != [] {
          alphaMaskPending := differ.enablesAlphaMask;
          calls := calls + [EnableAlphaMask(differIndex)];
        }
        var verdict := differ.queue(baselinePath, testPath);
        calls := calls + [QueueDiff(differIndex)];
        if verdict.id >= 0 {
          var data := DiffData(differ.name, verdict.result, verdict.pointsOfInterest);
          diffs := diffs + [data];
          if alphaMaskPending && ResultCorrect != data.result && differencePath == [] {
            differencePath := host.join(differenceDir, commonName);
            calls := calls + [EncodeAlphaMask(differIndex, differencePath)];
          }
          if alphaMaskPending {
            alphaMaskPending := false;
            alphaMaskCreated := true;
          }
          calls := calls + [DeleteDiff(differIndex, verdict.id)];
        }
        differIndex := differIndex + 1;
      }
      var record := DiffRecord(baselinePath, testPath, commonName, differencePath, diffs);
      assert NewRecord(host, differs, differenceDir, Pair(baselinePath, testPath)) == Some(record);
      records := [record] + records;
    }

    /**
      diffDirectories: for each entry of the baseline directory whose namesake in the test
      directory is an existing file, run addDiff on the joined pair. Nothing happens when
      the baseline directory cannot be listed. Returns the pairs handed to the pool.
     */
    method DiffDirectories(host: Host, baselinePath: string, testPath: string) returns (dispatched: seq<Pair>)
      requires host.DecodableNamesNonEmpty()
      modifies this
      ensures match host.listDirectory(baselinePath)
              case None => dispatched == []
              case Some(entries) => dispatched == DirectoryPairs(host, baselinePath, testPath, entries, |entries|)
      ensures records == Dispatch(host, differs, differenceDir, old(records), dispatched)
      ensures differs == old(differs) && differenceDir == old(differenceDir)
    {
      dispatched := [];
      var listing := host.listDirectory(baselinePath);
      if listing.None? {
        return;
      }
      var baselineEntries := listing.value;
      var x := 0;
      while x < |baselineEntries|
        invariant x <= |baselineEntries|
        invariant dispatched == DirectoryPairs(host, baselinePath, testPath, baselineEntries, x)
        invariant records == Dispatch(host, differs, differenceDir, old(records), dispatched)
        invariant differs == old(differs) && differenceDir == old(differenceDir)
      {
        var baselineFile := host.join(baselinePath, baselineEntries[x]);
        var testFile := host.join(testPath, baselineEntries[x]);
        if host.pathExists(testFile) && !host.isDirectory(testFile) {
          var pair := Pair(baselineFile, testFile);
          var _ := AddDiff(host, baselineFile, testFile);
          assert (dispatched + [pair])[..|dispatched|] == dispatched;
          dispatched := dispatched + [pair];
        }
        x := x + 1;
      }
    }

    /**
      diffPatterns: glob both patterns and pair the matches by position. Nothing happens
      when either pattern fails or the two yield different numbers of files.
     */
    method DiffPatterns(host: Host, baselinePattern: string, testPattern: string) returns (dispatched: seq<Pair>)
      requires host.DecodableNamesNonEmpty()
      modifies this
      ensures (host.glob(baselinePattern).None? || host.glob(testPattern).None? ||
               |host.glob(baselinePattern).value| != |host.glob(testPattern).value|) ==> dispatched == []
      ensures host.glob(baselinePattern).Some? && host.glob(testPattern).Some? &&
              |host.glob(baselinePattern).value| == |host.glob(testPattern).value| ==>
                && |dispatched| == |host.glob(baselinePattern).value|
                && forall i :: 0 <= i < |dispatched| ==>
                     dispatched[i] == Pair(host.glob(baselinePattern).value[i], host.glob(testPattern).value[i])
      ensures records == Dispatch(host, differs, differenceDir, old(records), dispatched)
      ensures differs == old(differs) && differenceDir == old(differenceDir)
    {
      dispatched := [];
      var baselineGlob := host.glob(baselinePattern);
      if baselineGlob.None? {
        return;
      }
      var testGlob := host.glob(testPattern);
      if testGlob.None? {
        return;
      }
      var baselineEntries, testEntries := baselineGlob.value, testGlob.value;
      if |baselineEntries| != |testEntries| {
        return;
      }
      var x := 0;
      while x < |baselineEntries|
        invariant x <= |baselineEntries| && |dispatched| == x
        invariant forall i :: 0 <= i < x ==> dispatched[i] == Pair(baselineEntries[i], testEntries[i])
        invariant records == Dispatch(host, differs, differenceDir, old(records), dispatched)
        invariant differs == old(differs) && differenceDir == old(differenceDir)
      {
        var pair := Pair(baselineEntries[x], testEntries[x]);
        var _ := AddDiff(host, baselineEntries[x], testEntries[x]);
        assert (dispatched + [pair])[..|dispatched|] == dispatched;
        dispatched := dispatched + [pair];
        x := x + 1;
      }
    }

    /** outputRecords: the JSON (or JSONP) report of the record list, head first. */
    method OutputRecords(useJSONP: bool, host: Host, fmt: Formatter) returns (written: seq<string>)
      ensures written == JsonDocument(records, useJSONP, host, fmt)
    {
      if useJSONP {
        written := [JsonpOpen];
      } else {
        written := [JsonOpen];
      }
      written := written + [RecordsKey];
      var list := WriteRecords(records, host, fmt);
      written := written + list;
      written := written + [RecordsEnd];
      if useJSONP {
        written := written + [JsonpClose];
      } else {
        written := written + [JsonClose];
      }
    }

    /**
      outputCsv: the header of distinct differ names, then a row per record. Demands, as
      the source asserts, fewer than 100 columns, and a non-empty baseline path per record.
     */
    method OutputCsv(fmt: Formatter) returns (written: seq<string>)
      requires |Columns(records)| < 100
      requires BaselinesNamed(records)
      ensures written == CsvDocument(records, fmt)
    {
      var columns, cntColumns;
      written, columns, cntColumns := WriteHeader(records);
      assert forall i, j :: 0 <= i < |records| && 0 <= j < |records[i].diffs| ==> records[i].diffs[j].differName in Columns(records) by {
        ColumnsAreDifferNames(records);
      }
      var rows := WriteRows(records, columns, Columns(records), cntColumns, fmt);
      written := written + rows;
    }
  }
}
