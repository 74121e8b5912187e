/**
  The CSV report (outputCsv). A header row "key" followed by every distinct differ name
  in the order first seen (records in list order, then diffs in order); then one row per
  record: the last path segment of its baseline path and one value per column, -1 where
  the record has no diff of that name. The stream is the sequence of written texts; the
  "%f" rendering of a value is the Formatter's fixedText.
 */
module CsvReport {
  import opened DiffTypes

  function DiffNames(diffs: seq<DiffData>): seq<string>
  {
    seq(|diffs|, i requires 0 <= i < |diffs| => diffs[i].differName)
  }

  /** The differ names of the first n records, records in list order and diffs in order. */
  function AllNames(records: seq<DiffRecord>, n: nat): seq<string>
    requires n <= |records|
  {
    if n == 0 then [] else AllNames(records, n - 1) + DiffNames(records[n - 1].diffs)
  }

  /** The names with only the first occurrence of each kept. */
  function Distinct(names: seq<string>): seq<string>
  {
    if names == [] then []
    else
      var d := Distinct(names[..|names| - 1]);
      if names[|names| - 1] in d then d else d + [names[|names| - 1]]
  }

  /** The CSV columns after "key". */
  function Columns(records: seq<DiffRecord>): seq<string>
  {
    Distinct(AllNames(records, |records|))
  }

  /** The position of the first occurrence of x in s. */
  function FirstIndex(s: seq<string>, x: string): (r: nat)
    requires x in s
    ensures r < |s| && s[r] == x
    ensures forall k :: 0 <= k < r ==> s[k] != x
  {
    if s[0] == x then 0 else 1 + FirstIndex(s[1..], x)
  }

  lemma FirstIndexAppend(s: seq<string>, x: string, y: string)
    requires y in s
    ensures FirstIndex(s + [x], y) == FirstIndex(s, y)
  {
    var a, b := FirstIndex(s + [x], y), FirstIndex(s, y);
    assert (s + [x])[b] == y;
    assert a <= b;
    assert s[a] == y;
  }

  /**
    Column discovery: the distinct names are exactly the names seen, each once, in the
    order of their first occurrence.
   */
  lemma {:induction false} DistinctFirstSeen(names: seq<string>)
    ensures forall x :: x in Distinct(names) <==> x in names
    ensures forall i, j :: 0 <= i < j < |Distinct(names)| ==> Distinct(names)[i] != Distinct(names)[j]
    ensures forall i, j :: 0 <= i < j < |Distinct(names)| ==>
              FirstIndex(names, Distinct(names)[i]) < FirstIndex(names, Distinct(names)[j])
  {
    if names != [] {
      var init := names[..|names| - 1];
      var x := names[|names| - 1];
      assert names == init + [x];
      DistinctFirstSeen(init);
      var d := Distinct(init);
      forall y | y in d
        ensures FirstIndex(names, y) == FirstIndex(init, y)
      {
        FirstIndexAppend(init, x, y);
      }
      if x !in d {
        assert FirstIndex(names, x) == |init|;
      }
    }
  }

  /** A name occurs among the first n records' names exactly when one of their diffs carries it. */
  lemma {:induction false} AllNamesContains(records: seq<DiffRecord>, n: nat)
    requires n <= |records|
    ensures forall i, j :: 0 <= i < n && 0 <= j < |records[i].diffs| ==> records[i].diffs[j].differName in AllNames(records, n)
    ensures forall x :: x in AllNames(records, n) ==>
              exists i, j :: 0 <= i < n && 0 <= j < |records[i].diffs| && records[i].diffs[j].differName == x
  {
    if n > 0 {
      AllNamesContains(records, n - 1);
      var last := DiffNames(records[n - 1].diffs);
      forall i, j | 0 <= i < n && 0 <= j < |records[i].diffs|
        ensures records[i].diffs[j].differName in AllNames(records, n)
      {
        if i == n - 1 {
          assert last[j] == records[i].diffs[j].differName;
        }
      }
      forall x | x in AllNames(records, n)
        ensures exists i, j :: 0 <= i < n && 0 <= j < |records[i].diffs| && records[i].diffs[j].differName == x
      {
        if x in last {
          var j :| 0 <= j < |last| && last[j] == x;
          assert records[n - 1].diffs[j].differName == x;
        }
      }
    }
  }

  /** The header names every differ name of every record, and only those. */
  lemma ColumnsAreDifferNames(records: seq<DiffRecord>)
    ensures forall i, j :: 0 <= i < |records| && 0 <= j < |records[i].diffs| ==> records[i].diffs[j].differName in Columns(records)
    ensures forall x :: x in Columns(records) ==>
              exists i, j :: 0 <= i < |records| && 0 <= j < |records[i].diffs| && records[i].diffs[j].differName == x
  {
    AllNamesContains(records, |records|);
    DistinctFirstSeen(AllNames(records, |records|));
  }

  /** The value a record's row holds in a column: the result of its last diff with that name, or -1 without one. */
  function Cell(diffs: seq<DiffData>, name: string): real
  {
    if diffs == [] then -1.0
    else if diffs[|diffs| - 1].differName == name then diffs[|diffs| - 1].result
    else Cell(diffs[..|diffs| - 1], name)
  }

  /** A record with no diff of a column's name holds -1 there. */
  lemma {:induction false} CellAbsent(diffs: seq<DiffData>, name: string)
    requires forall k :: 0 <= k < |diffs| ==> diffs[k].differName != name
    ensures Cell(diffs, name) == -1.0
  {
    if diffs != [] {
      CellAbsent(diffs[..|diffs| - 1], name);
    }
  }

  /** Otherwise it holds the result of its last diff of that name. */
  lemma {:induction false} CellLast(diffs: seq<DiffData>, name: string, k: nat)
    requires k < |diffs| && diffs[k].differName == name
    requires forall k2 :: k < k2 < |diffs| ==> diffs[k2].differName != name
    ensures Cell(diffs, name) == diffs[k].result
  {
    if k < |diffs| - 1 {
      CellLast(diffs[..|diffs| - 1], name, k);
    }
  }

  /** Where the file name starts when outputCsv scans back from character k: just after a '/', or at 0. */
  function KeyStart(path: string, k: nat): (start: nat)
    requires k < |path|
    ensures start <= k
  {
    if k > 0 && path[k - 1] != '/' then KeyStart(path, k - 1) else k
  }

  /** The first column of a record's row: the baseline path from just after its last '/' (the final character excluded from the search). */
  function FileKey(path: string): string
    requires path != []
  {
    path[KeyStart(path, |path| - 1)..]
  }

  lemma {:induction false} KeyStartIsSegmentStart(path: string, k: nat)
    requires k < |path|
    ensures KeyStart(path, k) == 0 || path[KeyStart(path, k) - 1] == '/'
    ensures forall j :: KeyStart(path, k) <= j < k ==> path[j] != '/'
  {
    if k > 0 && path[k - 1] != '/' {
      KeyStartIsSegmentStart(path, k - 1);
    }
  }

  lemma {:induction false} KeyStartOfSegment(path: string, start: nat, k: nat)
    requires start <= k < |path|
    requires start == 0 || path[start - 1] == '/'
    requires forall j :: start <= j < k ==> path[j] != '/'
    ensures KeyStart(path, k) == start
  {
    if k > start {
      KeyStartOfSegment(path, start, k - 1);
    }
  }

  /**
    The key is never empty, and is the suffix of the path that starts at 0 or just after
    a '/', with no '/' before the final character; and every such suffix is the key.
   */
  lemma FileKeyIsLastSegment(path: string, start: nat)
    requires path != []
    ensures 0 < |FileKey(path)| <= |path| && FileKey(path) == path[|path| - |FileKey(path)|..]
    ensures var s := |path| - |FileKey(path)|;
            (s == 0 || path[s - 1] == '/') && forall j :: s <= j < |path| - 1 ==> path[j] != '/'
    ensures (start < |path| && (start == 0 || path[start - 1] == '/') &&
             (forall j :: start <= j < |path| - 1 ==> path[j] != '/')) ==> FileKey(path) == path[start..]
  {
    KeyStartIsSegmentStart(path, |path| - 1);
    if start < |path| && (start == 0 || path[start - 1] == '/') &&
       (forall j :: start <= j < |path| - 1 ==> path[j] != '/') {
      KeyStartOfSegment(path, start, |path| - 1);
    }
  }

  /** For a path dir/name with a non-empty name free of '/', the key is the name. */
  lemma FileKeyOfJoin(dir: string, name: string)
    requires name != [] && forall j :: 0 <= j < |name| ==> name[j] != '/'
    ensures FileKey(dir + "/" + name) == name
  {
    var path := dir + "/" + name;
    assert forall j :: |dir| + 1 <= j < |path| ==> path[j] == name[j - |dir| - 1];
    FileKeyIsLastSegment(path, |dir| + 1);
    assert path[|dir| + 1..] == name;
  }

  /** The header cells: ", " and the column name, for each column. */
  function HeaderWrites(columns: seq<string>): seq<string>
  {
    if columns == [] then []
    else HeaderWrites(columns[..|columns| - 1]) + [", ", columns[|columns| - 1]]
  }

  /** The value cells of a row for the first n columns. */
  function CellWrites(diffs: seq<DiffData>, columns: seq<string>, fmt: Formatter, n: nat): seq<string>
    requires n <= |columns|
  {
    if n == 0 then []
    else CellWrites(diffs, columns, fmt, n - 1) + [", " + fmt.fixedText(Cell(diffs, columns[n - 1]))]
  }

  function RowWrites(r: DiffRecord, columns: seq<string>, fmt: Formatter): seq<string>
    requires r.baselinePath != []
  {
    [FileKey(r.baselinePath)] + CellWrites(r.diffs, columns, fmt, |columns|) + ["\n"]
  }

  predicate BaselinesNamed(records: seq<DiffRecord>)
  {
    forall i :: 0 <= i < |records| ==> records[i].baselinePath != []
  }

  /** The rows of the first n records, in list order. */
  function RowsWrites(records: seq<DiffRecord>, columns: seq<string>, fmt: Formatter, n: nat): seq<string>
    requires n <= |records| && BaselinesNamed(records)
  {
    if n == 0 then [] else RowsWrites(records, columns, fmt, n - 1) + RowWrites(records[n - 1], columns, fmt)
  }

  function CsvDocument(records: seq<DiffRecord>, fmt: Formatter): seq<string>
    requires BaselinesNamed(records)
  {
    ["key"] + HeaderWrites(Columns(records)) + ["\n"] + RowsWrites(records, Columns(records), fmt, |records|)
  }

  /** The header holds each column once, as ", " then its name. */
  lemma {:induction false} HeaderShape(columns: seq<string>)
    ensures |HeaderWrites(columns)| == 2 * |columns|
    ensures forall c :: 0 <= c < |columns| ==> HeaderWrites(columns)[2 * c] == ", " && HeaderWrites(columns)[2 * c + 1] == columns[c]
  {
    if columns != [] {
      HeaderShape(columns[..|columns| - 1]);
    }
  }

  /** A row holds exactly one value per column, the column's Cell. */
  lemma {:induction false} RowShape(diffs: seq<DiffData>, columns: seq<string>, fmt: Formatter, n: nat)
    requires n <= |columns|
    ensures |CellWrites(diffs, columns, fmt, n)| == n
    ensures forall c :: 0 <= c < n ==> CellWrites(diffs, columns, fmt, n)[c] == ", " + fmt.fixedText(Cell(diffs, columns[c]))
  {
    if n > 0 {
      RowShape(diffs, columns, fmt, n - 1);
    }
  }

  /** The scan of outputCsv that finds where the file name of a baseline path starts. */
  method FindFileKey(path: string) returns (key: string)
    requires path != []
    ensures key == FileKey(path)
  {
    var filename: nat := |path| - 1;
    while filename > 0 && path[filename - 1] != '/'
      invariant filename < |path|
      invariant KeyStart(path, filename) == KeyStart(path, |path| - 1)
    {
      filename := filename - 1;
    }
    key := path[filename..];
  }

  /** The column dictionary gives each column its position, and holds no other name. */
  ghost predicate Numbered(columns: map<string, int>, cols: seq<string>)
  {
    && (forall k :: 0 <= k < |cols| ==> cols[k] in columns && columns[cols[k]] == k)
    && (forall name :: name in columns ==> name in cols)
  }

  /** Seeing one more name adds it as the last column exactly when it is new. */
  lemma DistinctAppend(seen: seq<string>, name: string)
    ensures Distinct(seen + [name]) == if name in Distinct(seen) then Distinct(seen) else Distinct(seen) + [name]
  {
    assert (seen + [name])[..|seen|] == seen;
  }

  lemma HeaderAppend(written: seq<string>, cols: seq<string>, name: string)
    requires written == ["key"] + HeaderWrites(cols)
    ensures written + [", ", name] == ["key"] + HeaderWrites(cols + [name])
  {
    assert (cols + [name])[..|cols|] == cols;
    assert HeaderWrites(cols + [name]) == HeaderWrites(cols) + [", ", name];
  }

  /** The state of the header pass once the names seen have been read: the columns so far, numbered, and their header cells written after "key". */
  ghost predicate HeaderSoFar(seen: seq<string>, columns: map<string, int>, cntColumns: nat, written: seq<string>)
  {
    cntColumns == |Distinct(seen)| && Numbered(columns, Distinct(seen)) && written == ["key"] + HeaderWrites(Distinct(seen))
  }

  /** One name of the header pass: a new name becomes the next column and header cell; a known one changes nothing. */
  lemma AddColumnStep(prefix: seq<string>, columns: map<string, int>, name: string)
    requires Numbered(columns, Distinct(prefix))
    ensures name in columns <==> name in Distinct(prefix)
    ensures name in columns ==> Distinct(prefix + [name]) == Distinct(prefix)
    ensures name !in columns ==>
              && Distinct(prefix + [name]) == Distinct(prefix) + [name]
              && Numbered(columns[name := |Distinct(prefix)|], Distinct(prefix) + [name])
  {
    DistinctAppend(prefix, name);
  }

  lemma NamesStep(diffs: seq<DiffData>, i: nat)
    requires i < |diffs|
    ensures DiffNames(diffs)[..i + 1] == DiffNames(diffs)[..i] + [diffs[i].differName]
  {
  }

  /** One name of the header pass: a name not yet in the column dictionary gets the next column number and a header cell. */
  method AddColumn(name: string, ghost prefix: seq<string>, columns0: map<string, int>, cntColumns0: nat, written0: seq<string>)
    returns (columns: map<string, int>, cntColumns: nat, written: seq<string>)
    requires HeaderSoFar(prefix, columns0, cntColumns0, written0)
    ensures HeaderSoFar(prefix + [name], columns, cntColumns, written)
  {
    columns, cntColumns, written := columns0, cntColumns0, written0;
    AddColumnStep(prefix, columns, name);
    if name !in columns {
      HeaderAppend(written, Distinct(prefix), name);
      columns := columns[name := cntColumns];
      written := written + [", ", name];
      cntColumns := cntColumns + 1;
    }
  }

  /** The inner loop of the header pass, over one record's diffs. */
  method AddColumns(diffs: seq<DiffData>, ghost seen: seq<string>, columns0: map<string, int>, cntColumns0: nat, written0: seq<string>)
    returns (columns: map<string, int>, cntColumns: nat, written: seq<string>)
    requires HeaderSoFar(seen, columns0, cntColumns0, written0)
    ensures HeaderSoFar(seen + DiffNames(diffs), columns, cntColumns, written)
  {
    columns, cntColumns, written := columns0, cntColumns0, written0;
    ghost var names := DiffNames(diffs);
    ghost var prefix := seen;
    var diffIndex := 0;
    while diffIndex < |diffs|
      invariant diffIndex <= |diffs|
      invariant prefix == seen + names[..diffIndex]
      invariant HeaderSoFar(prefix, columns, cntColumns, written)
    {
      NamesStep(diffs, diffIndex);
      columns, cntColumns, written := AddColumn(diffs[diffIndex].differName, prefix, columns, cntColumns, written);
      prefix := prefix + [diffs[diffIndex].differName];
      diffIndex := diffIndex + 1;
    }
    assert names[..|diffs|] == names;
    assert prefix == seen + DiffNames(diffs);
  }

  /**
    The header pass of outputCsv: "key", then each differ name not yet in the column
    dictionary, which gets the next column number; then the line end.
   */
  method WriteHeader(records: seq<DiffRecord>) returns (written: seq<string>, columns: map<string, int>, cntColumns: nat)
    ensures cntColumns == |Columns(records)|
    ensures Numbered(columns, Columns(records))
    ensures written == ["key"] + HeaderWrites(Columns(records)) + ["\n"]
  {
    written := ["key"];
    columns := map[];
    cntColumns := 0;
    var i := 0;
    while i < |records|
      invariant i <= |records|
      invariant HeaderSoFar(AllNames(records, i), columns, cntColumns, written)
    {
      columns, cntColumns, written := AddColumns(records[i].diffs, AllNames(records, i), columns, cntColumns, written);
      i := i + 1;
    }
    written := written + ["\n"];
  }

  /** Store each diff's result under its column number, over values already reset to -1. */
  method StoreResults(diffs: seq<DiffData>, columns: map<string, int>, ghost cols: seq<string>, cntColumns: nat, values: array<real>)
    requires cntColumns == |cols| <= values.Length
    requires forall k :: 0 <= k < |cols| ==> cols[k] in columns && columns[cols[k]] == k
    requires forall j :: 0 <= j < |diffs| ==> diffs[j].differName in cols
    requires forall c :: 0 <= c < cntColumns ==> values[c] == -1.0
    modifies values
    ensures forall c :: 0 <= c < cntColumns ==> values[c] == Cell(diffs, cols[c])
    ensures forall c :: cntColumns <= c < values.Length ==> values[c] == old(values[c])
  {
    var diffIndex := 0;
    while diffIndex < |diffs|
      invariant diffIndex <= |diffs|
      invariant forall c :: 0 <= c < cntColumns ==> values[c] == Cell(diffs[..diffIndex], cols[c])
      invariant forall c :: cntColumns <= c < values.Length ==> values[c] == old(values[c])
    {
      var data := diffs[diffIndex];
      ghost var k :| 0 <= k < |cols| && cols[k] == data.differName;
      var index := columns[data.differName];
      assert index == k;
      assert diffs[..diffIndex + 1][..diffIndex] == diffs[..diffIndex];
      values[index] := data.result;
      diffIndex := diffIndex + 1;
    }
    assert diffs[..|diffs|] == diffs;
  }

  /**
    One row of outputCsv: reset the first cntColumns values to -1, store each diff's result
    under its column number, then write the file key and the values.
   */
  method WriteRow(r: DiffRecord, columns: map<string, int>, ghost cols: seq<string>, cntColumns: nat,
                  values: array<real>, fmt: Formatter) returns (written: seq<string>)
    requires r.baselinePath != []
    requires cntColumns == |cols| <= values.Length
    requires forall k :: 0 <= k < |cols| ==> cols[k] in columns && columns[cols[k]] == k
    requires forall j :: 0 <= j < |r.diffs| ==> r.diffs[j].differName in cols
    modifies values
    ensures written == RowWrites(r, cols, fmt)
    ensures forall c :: 0 <= c < cntColumns ==> values[c] == Cell(r.diffs, cols[c])
    ensures forall c :: cntColumns <= c < values.Length ==> values[c] == old(values[c])
  {
    var i := 0;
    while i < cntColumns
      invariant i <= cntColumns
      invariant forall c :: 0 <= c < i ==> values[c] == -1.0
      invariant forall c :: cntColumns <= c < values.Length ==> values[c] == old(values[c])
    {
      values[i] := -1.0;
      i := i + 1;
    }
    StoreResults(r.diffs, columns, cols, cntColumns, values);
    var key := FindFileKey(r.baselinePath);
    written := [key];
    i := 0;
    while i < cntColumns
      invariant i <= cntColumns
      invariant written == [key] + CellWrites(r.diffs, cols, fmt, i)
    {
      written := written + [", " + fmt.fixedText(values[i])];
      i := i + 1;
    }
    written := written + ["\n"];
  }

  /**
    The rows pass of outputCsv: a values buffer of 100 entries, then for each record in
    list order its row.
   */
  method WriteRows(records: seq<DiffRecord>, columns: map<string, int>, ghost cols: seq<string>, cntColumns: nat, fmt: Formatter)
    returns (written: seq<string>)
    requires BaselinesNamed(records)
    requires cntColumns == |cols| < 100
    requires forall k :: 0 <= k < |cols| ==> cols[k] in columns && columns[cols[k]] == k
    requires forall i, j :: 0 <= i < |records| && 0 <= j < |records[i].diffs| ==> records[i].diffs[j].differName in cols
    ensures written == RowsWrites(records, cols, fmt, |records|)
  {
    var values := new real[100];
    written := [];
    var i := 0;
    while i < |records|
      invariant i <= |records|
      invariant written == RowsWrites(records, cols, fmt, i)
    {
      var row := WriteRow(records[i], columns, cols, cntColumns, values, fmt);
      written := written + row;
      i := i + 1;
    }
  }
}
