/**
  Pair discovery (diffDirectories, diffPatterns) and the dispatch of each discovered pair
  to addDiff. The thread pool of SkDiffContext is modelled as dispatch in discovery order,
  one pair after the other; the lemmas about the resulting record list state what holds
  whatever order the pairs run in (which records exist, with which contents).
 */
module Pairing {
  import opened DiffTypes
  import opened DiffScan

  /** sk_exists and not sk_isdir: the test path names a file. */
  predicate IsTestFile(host: Host, path: string)
  {
    host.pathExists(path) && !host.isDirectory(path)
  }

  /** The pairs diffDirectories dispatches for the first n baseline entries, in listing order. */
  function DirectoryPairs(host: Host, baselineRoot: string, testRoot: string, entries: seq<string>, n: nat): seq<Pair>
    requires n <= |entries|
  {
    if n == 0 then []
    else
      var testFile := host.join(testRoot, entries[n - 1]);
      DirectoryPairs(host, baselineRoot, testRoot, entries, n - 1) +
      (if IsTestFile(host, testFile) then [Pair(host.join(baselineRoot, entries[n - 1]), testFile)] else [])
  }

  /** The record list after addDiff has run on each pair in turn. */
  function Dispatch(host: Host, differs: seq<Differ>, differenceDir: string, records: seq<DiffRecord>, pairs: seq<Pair>): seq<DiffRecord>
  {
    if pairs == [] then records
    else
      AddRecord(host, differs, differenceDir,
                Dispatch(host, differs, differenceDir, records, pairs[..|pairs| - 1]), pairs[|pairs| - 1])
  }

  /** The pairs whose two images both decode, in order. */
  function DecodablePairs(host: Host, pairs: seq<Pair>): seq<Pair>
  {
    if pairs == [] then []
    else
      DecodablePairs(host, pairs[..|pairs| - 1]) +
      (if Decodes(host, pairs[|pairs| - 1]) then [pairs[|pairs| - 1]] else [])
  }

  /** The (baseline, test) pair each record names. */
  function PairsOf(records: seq<DiffRecord>): seq<Pair>
  {
    seq(|records|, i requires 0 <= i < |records| => Pair(records[i].baselinePath, records[i].testPath))
  }

  /**
    diffDirectories dispatches the pair (join(baselineRoot, e), join(testRoot, e)) for a
    baseline entry e exactly when the joined test path is an existing file.
   */
  lemma {:induction false} DirectoryPairsExact(host: Host, baselineRoot: string, testRoot: string, entries: seq<string>, n: nat)
    requires n <= |entries|
    ensures forall p :: p in DirectoryPairs(host, baselineRoot, testRoot, entries, n) <==>
              exists k :: 0 <= k < n && IsTestFile(host, host.join(testRoot, entries[k])) &&
                          p == Pair(host.join(baselineRoot, entries[k]), host.join(testRoot, entries[k]))
  {
    if n > 0 {
      DirectoryPairsExact(host, baselineRoot, testRoot, entries, n - 1);
      forall p | exists k :: 0 <= k < n && IsTestFile(host, host.join(testRoot, entries[k])) &&
                             p == Pair(host.join(baselineRoot, entries[k]), host.join(testRoot, entries[k]))
        ensures p in DirectoryPairs(host, baselineRoot, testRoot, entries, n)
      {
        var k :| 0 <= k < n && IsTestFile(host, host.join(testRoot, entries[k])) &&
                 p == Pair(host.join(baselineRoot, entries[k]), host.join(testRoot, entries[k]));
        if k < n - 1 {
          assert p in DirectoryPairs(host, baselineRoot, testRoot, entries, n - 1);
        }
      }
    }
  }

  /** When every baseline entry has its test file, every entry is dispatched, in listing order. */
  lemma {:induction false} DirectoryPairsAllPresent(host: Host, baselineRoot: string, testRoot: string, entries: seq<string>, n: nat)
    requires n <= |entries|
    requires forall k :: 0 <= k < n ==> IsTestFile(host, host.join(testRoot, entries[k]))
    ensures |DirectoryPairs(host, baselineRoot, testRoot, entries, n)| == n
    ensures forall k :: 0 <= k < n ==>
              DirectoryPairs(host, baselineRoot, testRoot, entries, n)[k] ==
              Pair(host.join(baselineRoot, entries[k]), host.join(testRoot, entries[k]))
  {
    if n > 0 {
      DirectoryPairsAllPresent(host, baselineRoot, testRoot, entries, n - 1);
    }
  }

  /** addDiff on a decodable pair puts its record in front; on any other pair it changes nothing. */
  lemma AddRecordFront(host: Host, differs: seq<Differ>, differenceDir: string, records: seq<DiffRecord>, pair: Pair)
    ensures Decodes(host, pair) ==>
              && NewRecord(host, differs, differenceDir, pair).Some?
              && AddRecord(host, differs, differenceDir, records, pair) == [NewRecord(host, differs, differenceDir, pair).value] + records
              && NewRecord(host, differs, differenceDir, pair).value.baselinePath == pair.baseline
              && NewRecord(host, differs, differenceDir, pair).value.testPath == pair.test
    ensures !Decodes(host, pair) ==> AddRecord(host, differs, differenceDir, records, pair) == records
  {
  }

  lemma PairsOfFront(r: DiffRecord, rs: seq<DiffRecord>)
    ensures PairsOf([r] + rs) == [Pair(r.baselinePath, r.testPath)] + PairsOf(rs)
  {
    var front := [r] + rs;
    var expected := [Pair(r.baselinePath, r.testPath)] + PairsOf(rs);
    forall i | 0 <= i < |front|
      ensures PairsOf(front)[i] == expected[i]
    {
      if i > 0 {
        assert front[i] == rs[i - 1];
      }
    }
  }

  /**
    Dispatching pairs only adds records in front of the existing ones (the store is
    append-only), one per pair whose images decode.
   */
  lemma {:induction false} DispatchKeepsRecords(host: Host, differs: seq<Differ>, differenceDir: string, records: seq<DiffRecord>, pairs: seq<Pair>)
    ensures var out := Dispatch(host, differs, differenceDir, records, pairs);
            && |out| == |records| + |DecodablePairs(host, pairs)|
            && out[|out| - |records|..] == records
  {
    if pairs != [] {
      var init := pairs[..|pairs| - 1];
      DispatchKeepsRecords(host, differs, differenceDir, records, init);
      AddRecordFront(host, differs, differenceDir, Dispatch(host, differs, differenceDir, records, init), pairs[|pairs| - 1]);
    }
  }

  /**
    The added records name exactly the decodable pairs, none lost or duplicated (as a
    multiset, so whatever order the pairs were run in).
   */
  lemma {:induction false} DispatchAddsPairs(host: Host, differs: seq<Differ>, differenceDir: string, records: seq<DiffRecord>, pairs: seq<Pair>)
    ensures var out := Dispatch(host, differs, differenceDir, records, pairs);
            var added := |DecodablePairs(host, pairs)|;
            added <= |out| && multiset(PairsOf(out[..added])) == multiset(DecodablePairs(host, pairs))
  {
    DispatchKeepsRecords(host, differs, differenceDir, records, pairs);
    if pairs != [] {
      var init := pairs[..|pairs| - 1];
      var last := pairs[|pairs| - 1];
      DispatchAddsPairs(host, differs, differenceDir, records, init);
      DispatchKeepsRecords(host, differs, differenceDir, records, init);
      var before := Dispatch(host, differs, differenceDir, records, init);
      var out := Dispatch(host, differs, differenceDir, records, pairs);
      var k := |DecodablePairs(host, init)|;
      AddRecordFront(host, differs, differenceDir, before, last);
      if Decodes(host, last) {
        assert out[..k + 1] == [out[0]] + before[..k];
        PairsOfFront(out[0], before[..k]);
        assert PairsOf(out[..k + 1]) == [last] + PairsOf(before[..k]);
        assert DecodablePairs(host, pairs) == DecodablePairs(host, init) + [last];
        assert multiset(PairsOf(out[..k + 1])) == multiset([last]) + multiset(PairsOf(before[..k]));
      } else {
        assert out == before && DecodablePairs(host, pairs) == DecodablePairs(host, init);
      }
    }
  }

  /** Each added record is the one addDiff builds for its own pair. */
  lemma {:induction false} DispatchRecordsAreNew(host: Host, differs: seq<Differ>, differenceDir: string, records: seq<DiffRecord>, pairs: seq<Pair>, i: nat)
    requires i < |DecodablePairs(host, pairs)|
    ensures var out := Dispatch(host, differs, differenceDir, records, pairs);
            i < |out| && NewRecord(host, differs, differenceDir, Pair(out[i].baselinePath, out[i].testPath)) == Some(out[i])
  {
    DispatchKeepsRecords(host, differs, differenceDir, records, pairs);
    var init := pairs[..|pairs| - 1];
    var last := pairs[|pairs| - 1];
    var before := Dispatch(host, differs, differenceDir, records, init);
    AddRecordFront(host, differs, differenceDir, before, last);
    if Decodes(host, last) {
      if i > 0 {
        DispatchRecordsAreNew(host, differs, differenceDir, records, init, i - 1);
      }
    } else {
      DispatchRecordsAreNew(host, differs, differenceDir, records, init, i);
    }
  }

  /** A pair occurs among the decodable pairs as often as it was dispatched, if it decodes, and never otherwise. */
  lemma {:induction false} DecodablePairsCount(host: Host, pairs: seq<Pair>, x: Pair)
    ensures multiset(DecodablePairs(host, pairs))[x] == if Decodes(host, x) then multiset(pairs)[x] else 0
  {
    if pairs != [] {
      var init := pairs[..|pairs| - 1];
      var last := pairs[|pairs| - 1];
      DecodablePairsCount(host, init, x);
      assert pairs == init + [last];
      assert multiset(pairs) == multiset(init) + multiset([last]);
    }
  }

  /**
    How often a record r is in the list after dispatch: as often as before, plus, when r is
    the record addDiff builds for r's own pair, once per dispatch of that pair.
   */
  lemma {:induction false} DispatchRecordCount(host: Host, differs: seq<Differ>, differenceDir: string,
                                              records: seq<DiffRecord>, pairs: seq<Pair>, r: DiffRecord)
    ensures var pr := Pair(r.baselinePath, r.testPath);
            multiset(Dispatch(host, differs, differenceDir, records, pairs))[r] ==
              multiset(records)[r] +
              (if NewRecord(host, differs, differenceDir, pr) == Some(r) then multiset(DecodablePairs(host, pairs))[pr] else 0)
  {
    if pairs != [] {
      var pr := Pair(r.baselinePath, r.testPath);
      var init := pairs[..|pairs| - 1];
      var last := pairs[|pairs| - 1];
      var before := Dispatch(host, differs, differenceDir, records, init);
      DispatchRecordCount(host, differs, differenceDir, records, init, r);
      AddRecordFront(host, differs, differenceDir, before, last);
      if Decodes(host, last) {
        var nr := NewRecord(host, differs, differenceDir, last).value;
        assert DecodablePairs(host, pairs) == DecodablePairs(host, init) + [last];
        assert multiset(DecodablePairs(host, pairs)) == multiset(DecodablePairs(host, init)) + multiset([last]);
        assert multiset([nr] + before) == multiset([nr]) + multiset(before);
        if nr == r {
          assert last == pr;
        }
      }
    }
  }

  /**
    The record list after dispatch depends only on which pairs were dispatched, not on the
    order they ran in: dispatching a permutation of the pairs yields a permutation of the list.
   */
  lemma DispatchOrderIndependent(host: Host, differs: seq<Differ>, differenceDir: string,
                                 records: seq<DiffRecord>, pairs: seq<Pair>, reordered: seq<Pair>)
    requires multiset(pairs) == multiset(reordered)
    ensures multiset(Dispatch(host, differs, differenceDir, records, pairs)) ==
            multiset(Dispatch(host, differs, differenceDir, records, reordered))
  {
    forall r: DiffRecord
      ensures multiset(Dispatch(host, differs, differenceDir, records, pairs))[r] ==
              multiset(Dispatch(host, differs, differenceDir, records, reordered))[r]
    {
      var pr := Pair(r.baselinePath, r.testPath);
      DispatchRecordCount(host, differs, differenceDir, records, pairs, r);
      DispatchRecordCount(host, differs, differenceDir, records, reordered, r);
      DecodablePairsCount(host, pairs, pr);
      DecodablePairsCount(host, reordered, pr);
    }
  }
}
