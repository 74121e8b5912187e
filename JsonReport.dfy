/**
  The JSON / JSONP report (outputRecords). The stream is modelled as the sequence of
  texts handed to writeText, in order; numbers are rendered by the Formatter's functions
  and paths made absolute by the Host's.

  Each list in the report (records, a record's diffs, a diff's points of interest) is
  written element by element, with a comma after an element exactly when another element
  follows. ElementsUpTo is that loop; Separated is the array grammar of sections 4 and 5 of
  RFC 8259 (values joined by value-separators), and ElementsAreSeparated ties the two.
 */
module JsonReport {
  import opened DiffTypes

  /** The writes for the first n elements of a list: each element, a comma when another element follows, then lineEnd. */
  function ElementsUpTo(items: seq<seq<string>>, n: nat, lineEnd: string): seq<string>
    requires n <= |items|
  {
    if n == 0 then []
    else
      ElementsUpTo(items, n - 1, lineEnd) + items[n - 1] +
      (if n < |items| then [","] else []) + [lineEnd]
  }

  /** Writing one more element, then a comma when another follows, then the line end, extends the prefix by that element. */
  lemma ElementsUpToStep(items: seq<seq<string>>, n: nat, lineEnd: string, written: seq<string>, item: seq<string>)
    requires n < |items| && written == ElementsUpTo(items, n, lineEnd) && item == items[n]
    ensures n + 1 < |items| ==> written + item + [","] + [lineEnd] == ElementsUpTo(items, n + 1, lineEnd)
    ensures n + 1 == |items| ==> written + item + [lineEnd] == ElementsUpTo(items, n + 1, lineEnd)
  {
  }

  function Elements(items: seq<seq<string>>, lineEnd: string): seq<string>
  {
    ElementsUpTo(items, |items|, lineEnd)
  }

  /** value *( value-separator value ): the elements with the separator between consecutive ones only. */
  function Separated(items: seq<seq<string>>, sep: seq<string>): seq<string>
  {
    if |items| == 0 then []
    else if |items| == 1 then items[0]
    else Separated(items[..|items| - 1], sep) + sep + items[|items| - 1]
  }

  /** A list as RFC 8259 allows it: empty, or the elements separated by "," and the line end, then a last line end. */
  function ListForm(items: seq<seq<string>>, lineEnd: string): seq<string>
  {
    if items == [] then [] else Separated(items, [",", lineEnd]) + [lineEnd]
  }

  // The fixed texts of the report, in the order they are written.
  const JsonpOpen := "var SkPDiffRecords = {\n"
  const JsonOpen := "{\n"
  const RecordsKey := "    \"records\": [\n"
  const RecordOpen := "        {\n"
  const CommonNameKey := "            \"commonName\": \""
  const DifferencePathKey := "            \"differencePath\": \""
  const BaselinePathKey := "            \"baselinePath\": \""
  const TestPathKey := "            \"testPath\": \""
  const TextEnd := "\",\n"
  const DiffsKey := "            \"diffs\": [\n"
  const DiffOpen := "                {\n"
  const DifferNameKey := "                    \"differName\": \""
  const ResultKey := "                    \"result\": "
  const NumberEnd := ",\n"
  const PoiKey := "                    \"pointsOfInterest\": [\n"
  const PointOpen := "                        ["
  const PoiEnd := "                    ]\n"
  const DiffClose := "                }"
  const DiffLineEnd := "                \n"
  const DiffsEnd := "            ]\n"
  const RecordClose := "        }"
  const RecordsEnd := "    ]\n"
  const JsonpClose := "};\n"
  const JsonClose := "}\n"

  /** The first write of the report: the JSONP assignment or a bare opening brace. */
  function Opening(useJSONP: bool): string
  {
    if useJSONP then JsonpOpen else JsonOpen
  }

  function Closing(useJSONP: bool): string
  {
    if useJSONP then JsonpClose else JsonClose
  }

  /** One point of interest, as "[x,y]". */
  function PointWrites(p: Point, fmt: Formatter): seq<string>
  {
    [PointOpen, fmt.decimalText(p.x), ",", fmt.decimalText(p.y), "]"]
  }

  function PointItems(points: seq<Point>, fmt: Formatter): seq<seq<string>>
  {
    seq(|points|, i requires 0 <= i < |points| => PointWrites(points[i], fmt))
  }

  /** The points-of-interest list of one diff: only its first kMaxPOI points. */
  function PoiWrites(points: seq<Point>, fmt: Formatter): seq<string>
  {
    Elements(PointItems(points[..Min(|points|, MaxPoi)], fmt), "\n")
  }

  /** The writes of one diff before its points of interest. */
  function DiffHead(d: DiffData, fmt: Formatter): seq<string>
  {
    [DiffOpen,
     DifferNameKey, d.differName, TextEnd,
     ResultKey, fmt.scalarText(d.result), NumberEnd,
     PoiKey]
  }

  const DiffTail := [PoiEnd, DiffClose]

  function DiffWrites(d: DiffData, fmt: Formatter): seq<string>
  {
    DiffHead(d, fmt) + PoiWrites(d.pointsOfInterest, fmt) + DiffTail
  }

  function DiffItems(diffs: seq<DiffData>, fmt: Formatter): seq<seq<string>>
  {
    seq(|diffs|, i requires 0 <= i < |diffs| => DiffWrites(diffs[i], fmt))
  }

  /** The writes of one record before its diffs: its common name and its three paths made absolute. */
  function RecordHead(r: DiffRecord, host: Host): seq<string>
  {
    [RecordOpen,
     CommonNameKey, r.commonName, TextEnd,
     DifferencePathKey, host.absolute(r.differencePath), TextEnd,
     BaselinePathKey, host.absolute(r.baselinePath), TextEnd,
     TestPathKey, host.absolute(r.testPath), TextEnd,
     DiffsKey]
  }

  const RecordTail := [DiffsEnd, RecordClose]

  function RecordWrites(r: DiffRecord, host: Host, fmt: Formatter): seq<string>
  {
    RecordHead(r, host) + Elements(DiffItems(r.diffs, fmt), DiffLineEnd) + RecordTail
  }

  function RecordItems(records: seq<DiffRecord>, host: Host, fmt: Formatter): seq<seq<string>>
  {
    seq(|records|, i requires 0 <= i < |records| => RecordWrites(records[i], host, fmt))
  }

  /** The whole report for a record list, in list order. */
  function JsonDocument(records: seq<DiffRecord>, useJSONP: bool, host: Host, fmt: Formatter): seq<string>
  {
    [Opening(useJSONP)] + [RecordsKey] + Elements(RecordItems(records, host, fmt), "\n") + [RecordsEnd] + [Closing(useJSONP)]
  }

  /**
    Writing elements with "a comma when another follows" yields, for any prefix, the
    separated list of that prefix, followed by a separator when more elements remain.
   */
  lemma {:induction false} ElementsUpToSeparated(items: seq<seq<string>>, n: nat, lineEnd: string)
    requires 0 < n <= |items|
    ensures ElementsUpTo(items, n, lineEnd) ==
            Separated(items[..n], [",", lineEnd]) + (if n < |items| then [",", lineEnd] else [lineEnd])
  {
    if n > 1 {
      ElementsUpToSeparated(items, n - 1, lineEnd);
      assert items[..n][..n - 1] == items[..n - 1];
    }
  }

  /** No trailing comma: every list of the report has the RFC 8259 array form. */
  lemma ElementsAreSeparated(items: seq<seq<string>>, lineEnd: string)
    ensures Elements(items, lineEnd) == ListForm(items, lineEnd)
  {
    if items != [] {
      ElementsUpToSeparated(items, |items|, lineEnd);
      assert items[..|items|] == items;
    }
  }

  /**
    A diff's points-of-interest list is the separated list of its first min(count, kMaxPOI)
    points, each written as [x,y]; the points beyond the cap are not written.
   */
  lemma PoiListTruncated(points: seq<Point>, fmt: Formatter)
    ensures |PointItems(points[..Min(|points|, MaxPoi)], fmt)| == Min(|points|, MaxPoi)
    ensures PoiWrites(points, fmt) == ListForm(PointItems(points[..Min(|points|, MaxPoi)], fmt), "\n")
    ensures forall k :: 0 <= k < Min(|points|, MaxPoi) ==>
              PointItems(points[..Min(|points|, MaxPoi)], fmt)[k] == PointWrites(points[k], fmt)
    ensures |points| > MaxPoi ==> PoiWrites(points, fmt) == PoiWrites(points[..MaxPoi], fmt)
  {
    ElementsAreSeparated(PointItems(points[..Min(|points|, MaxPoi)], fmt), "\n");
    if |points| > MaxPoi {
      assert points[..MaxPoi][..MaxPoi] == points[..MaxPoi];
    }
  }

  /** The report is the opening, the records key, the records in list order as a separated list, and the closing. */
  lemma JsonShape(records: seq<DiffRecord>, useJSONP: bool, host: Host, fmt: Formatter)
    ensures JsonDocument(records, useJSONP, host, fmt) ==
            [Opening(useJSONP)] + [RecordsKey] + ListForm(RecordItems(records, host, fmt), "\n") + [RecordsEnd] + [Closing(useJSONP)]
  {
    ElementsAreSeparated(RecordItems(records, host, fmt), "\n");
  }

  lemma Regroup(open: string, key: string, list: seq<string>, end: string, close: string)
    ensures [open] + [key] + list + [end] + [close] == [open] + ([key] + list + [end]) + [close]
  {
  }

  lemma Unwrap(first: string, middle: seq<string>, last: string)
    ensures var s := [first] + middle + [last];
            |s| == |middle| + 2 && s[0] == first && s[|s| - 1] == last && s[1..|s| - 1] == middle
  {
    var s := [first] + middle + [last];
    assert s[1..|s| - 1] == middle;
  }

  /** JSONP wraps exactly the plain JSON body in the SkPDiffRecords assignment. */
  lemma JsonpWrapsJson(records: seq<DiffRecord>, host: Host, fmt: Formatter)
    ensures var plain := JsonDocument(records, false, host, fmt);
            && 2 <= |plain| && plain[0] == JsonOpen && plain[|plain| - 1] == JsonClose
            && JsonDocument(records, true, host, fmt) == [JsonpOpen] + plain[1..|plain| - 1] + [JsonpClose]
  {
    var list := Elements(RecordItems(records, host, fmt), "\n");
    Regroup(JsonOpen, RecordsKey, list, RecordsEnd, JsonClose);
    Regroup(JsonpOpen, RecordsKey, list, RecordsEnd, JsonpClose);
    Unwrap(JsonOpen, [RecordsKey] + list + [RecordsEnd], JsonClose);
  }

  /** Within a record, the diffs are a separated list, and within a diff so are its points. */
  lemma RecordShape(r: DiffRecord, host: Host, fmt: Formatter)
    ensures RecordWrites(r, host, fmt) == RecordHead(r, host) + ListForm(DiffItems(r.diffs, fmt), DiffLineEnd) + RecordTail
    ensures forall d :: d in r.diffs ==>
              DiffWrites(d, fmt) ==
              DiffHead(d, fmt) + ListForm(PointItems(d.pointsOfInterest[..Min(|d.pointsOfInterest|, MaxPoi)], fmt), "\n") + DiffTail
  {
    ElementsAreSeparated(DiffItems(r.diffs, fmt), DiffLineEnd);
    forall d | d in r.diffs
      ensures DiffWrites(d, fmt) ==
              DiffHead(d, fmt) + ListForm(PointItems(d.pointsOfInterest[..Min(|d.pointsOfInterest|, MaxPoi)], fmt), "\n") + DiffTail
    {
      PoiListTruncated(d.pointsOfInterest, fmt);
    }
  }

  /**
    The points-of-interest loop of outputRecords: at most kMaxPOI points, a comma after a
    point when the next one is both present and under the cap.
   */
  method WritePointsOfInterest(points: seq<Point>, fmt: Formatter) returns (written: seq<string>)
    ensures written == PoiWrites(points, fmt)
  {
    ghost var items := PointItems(points[..Min(|points|, MaxPoi)], fmt);
    written := [];
    var poiIndex := 0;
    while poiIndex < |points| && poiIndex < MaxPoi
      invariant poiIndex <= Min(|points|, MaxPoi)
      invariant written == ElementsUpTo(items, poiIndex, "\n")
    {
      var poi := points[poiIndex];
      assert items[poiIndex] == PointWrites(poi, fmt);
      ElementsUpToStep(items, poiIndex, "\n", written, PointWrites(poi, fmt));
      written := written + [PointOpen, fmt.decimalText(poi.x), ",", fmt.decimalText(poi.y), "]"];
      if poiIndex + 1 < |points| && poiIndex + 1 < MaxPoi {
        written := written + [","];
      }
      written := written + ["\n"];
      poiIndex := poiIndex + 1;
    }
  }

  /** One diff of a record, as outputRecords writes it. */
  method WriteDiff(data: DiffData, fmt: Formatter) returns (item: seq<string>)
    ensures item == DiffWrites(data, fmt)
  {
    item := [DiffOpen];
    item := item + [DifferNameKey, data.differName, TextEnd];
    item := item + [ResultKey, fmt.scalarText(data.result), NumberEnd];
    item := item + [PoiKey];
    assert item == DiffHead(data, fmt);
    var points := WritePointsOfInterest(data.pointsOfInterest, fmt);
    item := item + points;
    item := item + [PoiEnd];
    item := item + [DiffClose];
  }

  /** The diffs loop of outputRecords for one record. */
  method WriteDiffs(diffs: seq<DiffData>, fmt: Formatter) returns (written: seq<string>)
    ensures written == Elements(DiffItems(diffs, fmt), DiffLineEnd)
  {
    written := [];
    var diffIndex := 0;
    while diffIndex < |diffs|
      invariant diffIndex <= |diffs|
      invariant written == ElementsUpTo(DiffItems(diffs, fmt), diffIndex, DiffLineEnd)
    {
      var item := WriteDiff(diffs[diffIndex], fmt);
      ElementsUpToStep(DiffItems(diffs, fmt), diffIndex, DiffLineEnd, written, item);
      written := written + item;
      if diffIndex + 1 < |diffs| {
        written := written + [","];
      }
      written := written + [DiffLineEnd];
      diffIndex := diffIndex + 1;
    }
  }

  /** One record, as outputRecords writes it, its paths made absolute. */
  method WriteRecord(r: DiffRecord, host: Host, fmt: Formatter) returns (item: seq<string>)
    ensures item == RecordWrites(r, host, fmt)
  {
    item := [RecordOpen];
    item := item + [CommonNameKey, r.commonName, TextEnd];
    item := item + [DifferencePathKey, host.absolute(r.differencePath), TextEnd];
    item := item + [BaselinePathKey, host.absolute(r.baselinePath), TextEnd];
    item := item + [TestPathKey, host.absolute(r.testPath), TextEnd];
    item := item + [DiffsKey];
    assert item == RecordHead(r, host);
    var diffsWritten := WriteDiffs(r.diffs, fmt);
    item := item + diffsWritten;
    item := item + [DiffsEnd];
    item := item + [RecordClose];
  }

  /** The records loop of outputRecords: each record, a comma when another record follows it in the list, a line end. */
  method WriteRecords(records: seq<DiffRecord>, host: Host, fmt: Formatter) returns (written: seq<string>)
    ensures written == Elements(RecordItems(records, host, fmt), "\n")
  {
    ghost var items := RecordItems(records, host, fmt);
    written := [];
    var i := 0;
    while i < |records|
      invariant i <= |records|
      invariant written == ElementsUpTo(items, i, "\n")
    {
      var item := WriteRecord(records[i], host, fmt);
      ElementsUpToStep(items, i, "\n", written, item);
      written := written + item;
      if i + 1 < |records| {
        written := written + [","];
      }
      written := written + ["\n"];
      i := i + 1;
    }
  }
}
