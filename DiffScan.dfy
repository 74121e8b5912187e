/**
  What addDiff does with one decoded image pair: it runs every differ in order, keeps one
  DiffData per differ that accepted the pair, and lets the first differ that both enabled
  its alpha mask and accepted the pair decide whether a difference image is written.

  The loop of addDiff is specified here by a fold, ScanUpTo, whose state is the loop's
  variables; the lemmas below say what the fold computes without referring to the loop.
 */
module DiffScan {
  import opened DiffTypes
  import opened CommonName

  /** A call the context makes into a differ, or into the image encoder, while it builds a record. */
  datatype DifferCall =
    | EnableAlphaMask(differ: nat)
    | QueueDiff(differ: nat)
    | EncodeAlphaMask(differ: nat, path: string)
    | DeleteDiff(differ: nat, id: int)

  /**
    The fixed inputs of addDiff's differ loop for one pair; maskPath is the join of the
    difference directory and the record's common name.
   */
  datatype Job = Job(
    differs: seq<Differ>,
    differenceDir: string,
    maskPath: string,
    baselinePath: string,
    testPath: string)
  {
    function VerdictOf(i: nat): Verdict
      requires i < |differs|
    {
      differs[i].queue(baselinePath, testPath)
    }

    /** The DiffData that differ i contributes when it accepts the pair. */
    function DataOf(i: nat): DiffData
      requires i < |differs|
    {
      DiffData(differs[i].name, VerdictOf(i).result, VerdictOf(i).pointsOfInterest)
    }

    /** Differ i may claim the difference image: a difference dir is set, it enabled its mask, it accepted the pair. */
    predicate Qualifies(i: nat)
      requires i < |differs|
    {
      differenceDir != [] && differs[i].enablesAlphaMask && VerdictOf(i).id >= 0
    }
  }

  /**
    The variables of addDiff's loop: the diffs and difference path written into the new
    record so far, alphaMaskPending, alphaMaskCreated, and the calls made so far.
   */
  datatype Scan = Scan(
    diffs: seq<DiffData>,
    differencePath: string,
    maskPending: bool,
    maskCreated: bool,
    calls: seq<DifferCall>)

  /** One pass of addDiff's loop body, for differ i. */
  function Step(job: Job, s: Scan, i: nat): Scan
    requires i < |job.differs|
  {
    var asked := !s.maskCreated && job.differenceDir != [];
    var pending := if asked then job.differs[i].enablesAlphaMask else s.maskPending;
    var v := job.VerdictOf(i);
    var calls := s.calls + (if asked then [EnableAlphaMask(i)] else []) + [QueueDiff(i)];
    if v.id < 0 then
      Scan(s.diffs, s.differencePath, pending, s.maskCreated, calls)
    else
      var draw := pending && v.result != ResultCorrect && s.differencePath == [];
      var path := if draw then job.maskPath else s.differencePath;
      Scan(s.diffs + [job.DataOf(i)], path, false, s.maskCreated || pending,
           calls + (if draw then [EncodeAlphaMask(i, path)] else []) + [DeleteDiff(i, v.id)])
  }

  /** The loop's state after the first n differs. */
  function ScanUpTo(job: Job, n: nat): Scan
    requires n <= |job.differs|
  {
    if n == 0 then Scan([], [], false, false, [])
    else Step(job, ScanUpTo(job, n - 1), n - 1)
  }

  /** The first of the first n differs that qualifies for the difference image, if any. */
  function FirstQualifying(job: Job, n: nat): (r: Option<nat>)
    requires n <= |job.differs|
    ensures r.Some? ==> r.value < n
  {
    if n == 0 then None
    else
      var f := FirstQualifying(job, n - 1);
      if f.Some? then f
      else if job.Qualifies(n - 1) then Some(n - 1)
      else None
  }

  /** The indices, in increasing order, of the first n differs whose queueDiff returned an id >= 0. */
  function Accepted(job: Job, n: nat): (r: seq<nat>)
    requires n <= |job.differs|
    ensures forall k :: 0 <= k < |r| ==> r[k] < n
  {
    if n == 0 then []
    else Accepted(job, n - 1) + (if job.VerdictOf(n - 1).id >= 0 then [n - 1] else [])
  }

  /** The difference path the rule gives after the first n differs. */
  function MaskPathAfter(job: Job, n: nat): string
    requires n <= |job.differs|
  {
    match FirstQualifying(job, n)
    case Some(q) => if job.VerdictOf(q).result != ResultCorrect then job.maskPath else []
    case None => []
  }

  lemma {:induction false} FirstQualifyingIsFirst(job: Job, n: nat)
    requires n <= |job.differs|
    ensures match FirstQualifying(job, n)
            case None => forall k: nat :: k < n ==> !job.Qualifies(k)
            case Some(q) => q < n && job.Qualifies(q) && forall k: nat :: k < q ==> !job.Qualifies(k)
  {
    if n > 0 {
      FirstQualifyingIsFirst(job, n - 1);
    }
  }

  lemma {:induction false} AcceptedIndices(job: Job, n: nat)
    requires n <= |job.differs|
    ensures forall k: nat :: k in Accepted(job, n) <==> k < n && job.VerdictOf(k).id >= 0
    ensures forall a, b :: 0 <= a < b < |Accepted(job, n)| ==> Accepted(job, n)[a] < Accepted(job, n)[b]
  {
    if n > 0 {
      AcceptedIndices(job, n - 1);
    }
  }

  /** The record's diffs are exactly the accepting differs' data, in differ order. */
  lemma {:induction false} ScanDiffs(job: Job, n: nat)
    requires n <= |job.differs|
    ensures |ScanUpTo(job, n).diffs| == |Accepted(job, n)|
    ensures forall k :: 0 <= k < |Accepted(job, n)| ==>
              Accepted(job, n)[k] < n && ScanUpTo(job, n).diffs[k] == job.DataOf(Accepted(job, n)[k])
  {
    if n > 0 {
      ScanDiffs(job, n - 1);
    }
  }

  /**
    alphaMaskCreated is set exactly once a qualifying differ has run, alphaMaskPending is
    never left set once it is (or when no difference dir is set), and the difference path
    is the mask path exactly when the first qualifying differ found a difference.
   */
  lemma {:induction false} ScanMask(job: Job, n: nat)
    requires n <= |job.differs|
    ensures ScanUpTo(job, n).maskCreated == FirstQualifying(job, n).Some?
    ensures ScanUpTo(job, n).maskCreated || job.differenceDir == [] ==> !ScanUpTo(job, n).maskPending
    ensures ScanUpTo(job, n).differencePath == MaskPathAfter(job, n)
  {
    if n > 0 {
      ScanMask(job, n - 1);
    }
  }

  /** Every differ is queued, and no other index is (QueuedOnce counts the calls). */
  lemma {:induction false} ScanQueued(job: Job, n: nat, k: nat)
    requires n <= |job.differs|
    ensures QueueDiff(k) in ScanUpTo(job, n).calls <==> k < n
  {
    if n > 0 {
      ScanQueued(job, n - 1, k);
    }
  }

  /**
    deleteDiff is called exactly for the ids queueDiff returned that are >= 0, each with
    its own differ (DeletedOnce counts the calls).
   */
  lemma {:induction false} ScanDeleted(job: Job, n: nat, k: nat, id: int)
    requires n <= |job.differs|
    ensures DeleteDiff(k, id) in ScanUpTo(job, n).calls <==> k < n && id == job.VerdictOf(k).id && id >= 0
  {
    if n > 0 {
      ScanDeleted(job, n - 1, k, id);
    }
  }

  /** The mask calls of one pass: enablePOIAlphaMask while no mask is created, the encoder when this differ draws the mask. */
  lemma StepMaskCalls(job: Job, s: Scan, i: nat, k: nat, p: string)
    requires i < |job.differs|
    ensures EnableAlphaMask(k) in Step(job, s, i).calls <==>
              EnableAlphaMask(k) in s.calls || (k == i && !s.maskCreated && job.differenceDir != [])
    ensures var pending := if !s.maskCreated && job.differenceDir != [] then job.differs[i].enablesAlphaMask else s.maskPending;
            EncodeAlphaMask(k, p) in Step(job, s, i).calls <==>
              EncodeAlphaMask(k, p) in s.calls ||
              (k == i && job.VerdictOf(i).id >= 0 && pending && job.VerdictOf(i).result != ResultCorrect &&
               s.differencePath == [] && p == job.maskPath)
  {
  }

  /**
    When a difference dir is set, enablePOIAlphaMask is asked of every differ up to and
    including the first qualifying one, and of no later one; otherwise of none.
   */
  lemma {:induction false} ScanMaskQueries(job: Job, n: nat, k: nat)
    requires n <= |job.differs|
    ensures EnableAlphaMask(k) in ScanUpTo(job, n).calls <==>
              k < n && job.differenceDir != [] &&
              (FirstQualifying(job, n).None? || k <= FirstQualifying(job, n).value)
  {
    if n > 0 {
      ScanMaskQueries(job, n - 1, k);
      ScanMask(job, n - 1);
      StepMaskCalls(job, ScanUpTo(job, n - 1), n - 1, k, []);
    }
  }

  /**
    The only encoder calls are by the first qualifying differ, to the mask path, and only
    when its result is not RESULT_CORRECT (EncodedAtMostOnce counts them).
   */
  lemma {:induction false} ScanMaskEncodes(job: Job, n: nat, k: nat, p: string)
    requires n <= |job.differs|
    ensures EncodeAlphaMask(k, p) in ScanUpTo(job, n).calls <==>
              FirstQualifying(job, n) == Some(k) && job.VerdictOf(k).result != ResultCorrect && p == job.maskPath
  {
    if n > 0 {
      ScanMaskEncodes(job, n - 1, k, p);
      ScanMask(job, n - 1);
      StepMaskCalls(job, ScanUpTo(job, n - 1), n - 1, k, p);
    }
  }

  /** The calls of one pass for differ i: the mask query, the queue, the encoder call and the delete, each when it happens. */
  function PassCalls(i: nat, asked: bool, draw: bool, id: int, path: string): seq<DifferCall>
  {
    (if asked then [EnableAlphaMask(i)] else []) + [QueueDiff(i)] +
    (if draw then [EncodeAlphaMask(i, path)] else []) +
    (if id >= 0 then [DeleteDiff(i, id)] else [])
  }

  lemma PassMultiset(i: nat, asked: bool, draw: bool, id: int, path: string)
    ensures multiset(PassCalls(i, asked, draw, id, path)) ==
              multiset(if asked then [EnableAlphaMask(i)] else []) + multiset([QueueDiff(i)]) +
              multiset(if draw then [EncodeAlphaMask(i, path)] else []) + multiset(if id >= 0 then [DeleteDiff(i, id)] else [])
  {
    var ask: seq<DifferCall> := if asked then [EnableAlphaMask(i)] else [];
    var enc: seq<DifferCall> := if draw then [EncodeAlphaMask(i, path)] else [];
    var del: seq<DifferCall> := if id >= 0 then [DeleteDiff(i, id)] else [];
    var front := ask + [QueueDiff(i)];
    assert multiset(front) == multiset(ask) + multiset([QueueDiff(i)]);
    assert multiset(front + enc) == multiset(front) + multiset(enc);
    assert multiset(PassCalls(i, asked, draw, id, path)) == multiset(front + enc) + multiset(del);
  }

  /** One pass queues its own differ exactly once. */
  lemma PassQueueCount(i: nat, asked: bool, draw: bool, id: int, path: string, k: nat)
    ensures multiset(PassCalls(i, asked, draw, id, path))[QueueDiff(k)] == if k == i then 1 else 0
  {
    PassMultiset(i, asked, draw, id, path);
  }

  /** One pass deletes an accepted id exactly once, and nothing else. */
  lemma PassDeleteCount(i: nat, asked: bool, draw: bool, id: int, path: string, k: nat, id2: int)
    ensures multiset(PassCalls(i, asked, draw, id, path))[DeleteDiff(k, id2)] == if k == i && id2 == id && id >= 0 then 1 else 0
  {
    PassMultiset(i, asked, draw, id, path);
  }

  /** One pass encodes the mask once when it draws, and not otherwise. */
  lemma PassEncodeCount(i: nat, asked: bool, draw: bool, id: int, path: string, k: nat, p: string)
    ensures multiset(PassCalls(i, asked, draw, id, path))[EncodeAlphaMask(k, p)] == if draw && k == i && p == path then 1 else 0
  {
    PassMultiset(i, asked, draw, id, path);
  }

  /** What one pass of the loop does, as far as the calls go: whether it asks for the mask, whether it draws it, and the queued id. */
  datatype Pass = Pass(asked: bool, draw: bool, id: int)

  /** The pass the loop body makes for differ i from state s. */
  function PassAt(job: Job, s: Scan, i: nat): Pass
    requires i < |job.differs|
  {
    var asked := !s.maskCreated && job.differenceDir != [];
    var pending := if asked then job.differs[i].enablesAlphaMask else s.maskPending;
    var v := job.VerdictOf(i);
    Pass(asked, v.id >= 0 && pending && v.result != ResultCorrect && s.differencePath == [], v.id)
  }

  /** The calls of a sequence of passes, the i-th for differ i. */
  function Flatten(passes: seq<Pass>, path: string): seq<DifferCall>
  {
    if passes == [] then []
    else
      var last := passes[|passes| - 1];
      Flatten(passes[..|passes| - 1], path) + PassCalls(|passes| - 1, last.asked, last.draw, last.id, path)
  }

  /** The calls of a sequence of passes are those of all but the last, then the last one's. */
  lemma FlattenLast(passes: seq<Pass>, path: string)
    requires passes != []
    ensures var last := passes[|passes| - 1];
            multiset(Flatten(passes, path)) ==
              multiset(Flatten(passes[..|passes| - 1], path)) + multiset(PassCalls(|passes| - 1, last.asked, last.draw, last.id, path))
  {
  }

  /** Over any sequence of passes, each differ is queued exactly once. */
  lemma {:induction false} FlattenQueueCount(passes: seq<Pass>, path: string, k: nat)
    ensures multiset(Flatten(passes, path))[QueueDiff(k)] == if k < |passes| then 1 else 0
  {
    if passes != [] {
      var last := passes[|passes| - 1];
      FlattenLast(passes, path);
      FlattenQueueCount(passes[..|passes| - 1], path, k);
      PassQueueCount(|passes| - 1, last.asked, last.draw, last.id, path, k);
    }
  }

  /** Over any sequence of passes, deleteDiff is called once per accepted id, with its own differ. */
  lemma {:induction false} FlattenDeleteCount(passes: seq<Pass>, path: string, k: nat, id: int)
    ensures multiset(Flatten(passes, path))[DeleteDiff(k, id)] == if k < |passes| && passes[k].id == id && id >= 0 then 1 else 0
  {
    if passes != [] {
      var init := passes[..|passes| - 1];
      var last := passes[|passes| - 1];
      FlattenLast(passes, path);
      FlattenDeleteCount(init, path, k, id);
      PassDeleteCount(|passes| - 1, last.asked, last.draw, last.id, path, k, id);
      if k < |init| {
        assert passes[k] == init[k];
      }
    }
  }

  /** Over any sequence of passes, the encoder is called once per drawing pass, with the mask path. */
  lemma {:induction false} FlattenEncodeCount(passes: seq<Pass>, path: string, k: nat, p: string)
    ensures multiset(Flatten(passes, path))[EncodeAlphaMask(k, p)] == if k < |passes| && passes[k].draw && p == path then 1 else 0
  {
    if passes != [] {
      var init := passes[..|passes| - 1];
      var last := passes[|passes| - 1];
      FlattenLast(passes, path);
      FlattenEncodeCount(init, path, k, p);
      PassEncodeCount(|passes| - 1, last.asked, last.draw, last.id, path, k, p);
      if k < |init| {
        assert passes[k] == init[k];
      }
    }
  }

  /** One pass of the loop appends exactly the calls of its Pass to the trace. */
  lemma StepCalls(job: Job, s: Scan, i: nat)
    requires i < |job.differs|
    ensures var pass := PassAt(job, s, i);
            Step(job, s, i).calls == s.calls + PassCalls(i, pass.asked, pass.draw, pass.id, job.maskPath)
  {
    var asked := !s.maskCreated && job.differenceDir != [];
    var ask: seq<DifferCall> := if asked then [EnableAlphaMask(i)] else [];
    var v := job.VerdictOf(i);
    var calls := s.calls + ask + [QueueDiff(i)];
    if v.id >= 0 {
      var pending := if asked then job.differs[i].enablesAlphaMask else s.maskPending;
      var draw := pending && v.result != ResultCorrect && s.differencePath == [];
      var enc: seq<DifferCall> := if draw then [EncodeAlphaMask(i, job.maskPath)] else [];
      assert Step(job, s, i).calls == calls + enc + [DeleteDiff(i, v.id)];
      assert calls + enc + [DeleteDiff(i, v.id)] == s.calls + (ask + [QueueDiff(i)] + enc + [DeleteDiff(i, v.id)]);
    } else {
      assert Step(job, s, i).calls == calls;
      assert PassCalls(i, asked, false, v.id, job.maskPath) == ask + [QueueDiff(i)];
    }
  }

  /** The passes of the first n differs. */
  function Passes(job: Job, n: nat): (r: seq<Pass>)
    requires n <= |job.differs|
    ensures |r| == n
  {
    if n == 0 then [] else Passes(job, n - 1) + [PassAt(job, ScanUpTo(job, n - 1), n - 1)]
  }

  /** The loop's trace is the calls of its passes. */
  lemma {:induction false} CallsArePasses(job: Job, n: nat)
    requires n <= |job.differs|
    ensures ScanUpTo(job, n).calls == Flatten(Passes(job, n), job.maskPath)
    ensures forall k :: 0 <= k < n ==> Passes(job, n)[k] == PassAt(job, ScanUpTo(job, k), k)
  {
    if n > 0 {
      CallsArePasses(job, n - 1);
      StepCalls(job, ScanUpTo(job, n - 1), n - 1);
      assert Passes(job, n)[..n - 1] == Passes(job, n - 1);
    }
  }

  /** queueDiff is called exactly once per differ, and on no other index. */
  lemma QueuedOnce(job: Job, k: nat)
    ensures multiset(ScanUpTo(job, |job.differs|).calls)[QueueDiff(k)] == if k < |job.differs| then 1 else 0
  {
    CallsArePasses(job, |job.differs|);
    FlattenQueueCount(Passes(job, |job.differs|), job.maskPath, k);
  }

  /** deleteDiff is called exactly once for each accepted id, with its own differ, and never otherwise. */
  lemma DeletedOnce(job: Job, k: nat, id: int)
    ensures multiset(ScanUpTo(job, |job.differs|).calls)[DeleteDiff(k, id)] ==
              if k < |job.differs| && id == job.VerdictOf(k).id && id >= 0 then 1 else 0
  {
    CallsArePasses(job, |job.differs|);
    FlattenDeleteCount(Passes(job, |job.differs|), job.maskPath, k, id);
  }

  /**
    The mask image is encoded at most once per pair: the one encoder call the trace may
    hold occurs once, and any two encoder calls in the trace are the same call.
   */
  lemma EncodedAtMostOnce(job: Job, k: nat, p: string, k2: nat, p2: string)
    ensures multiset(ScanUpTo(job, |job.differs|).calls)[EncodeAlphaMask(k, p)] ==
              if FirstQualifying(job, |job.differs|) == Some(k) && job.VerdictOf(k).result != ResultCorrect && p == job.maskPath then 1 else 0
    ensures (EncodeAlphaMask(k, p) in ScanUpTo(job, |job.differs|).calls &&
             EncodeAlphaMask(k2, p2) in ScanUpTo(job, |job.differs|).calls) ==> k == k2 && p == p2
  {
    CallsArePasses(job, |job.differs|);
    FlattenEncodeCount(Passes(job, |job.differs|), job.maskPath, k, p);
    ScanMaskEncodes(job, |job.differs|, k, p);
    ScanMaskEncodes(job, |job.differs|, k2, p2);
  }

  /** The common name of a pair: the common prefix of the two basenames. */
  function PairName(host: Host, pair: Pair): string
  {
    CommonPrefix(host.basename(pair.baseline), host.basename(pair.test))
  }

  function JobFor(host: Host, differs: seq<Differ>, differenceDir: string, pair: Pair): Job
  {
    Job(differs, differenceDir, host.join(differenceDir, PairName(host, pair)), pair.baseline, pair.test)
  }

  predicate Decodes(host: Host, pair: Pair)
  {
    host.decodes(pair.baseline) && host.decodes(pair.test)
  }

  /** The record addDiff builds for a pair, or None when either image fails to decode. */
  function NewRecord(host: Host, differs: seq<Differ>, differenceDir: string, pair: Pair): Option<DiffRecord>
  {
    if !Decodes(host, pair) then None
    else
      var s := ScanUpTo(JobFor(host, differs, differenceDir, pair), |differs|);
      Some(DiffRecord(pair.baseline, pair.test, PairName(host, pair), s.differencePath, s.diffs))
  }

  /** The calls addDiff makes into the differs for a pair. */
  function PairCalls(host: Host, differs: seq<Differ>, differenceDir: string, pair: Pair): seq<DifferCall>
  {
    if !Decodes(host, pair) then []
    else ScanUpTo(JobFor(host, differs, differenceDir, pair), |differs|).calls
  }

  /** The record list after addDiff on a pair: the new record, if any, in front. */
  function AddRecord(host: Host, differs: seq<Differ>, differenceDir: string, records: seq<DiffRecord>, pair: Pair): seq<DiffRecord>
  {
    match NewRecord(host, differs, differenceDir, pair)
    case None => records
    case Some(r) => [r] + records
  }

  /**
    addDiff on a pair adds nothing when either image fails to decode, and otherwise adds
    exactly one record in front, naming the pair and its common name, whose diffs are the
    accepting differs' data in order and whose difference path follows the mask rule.
   */
  lemma RecordOfPair(host: Host, differs: seq<Differ>, differenceDir: string, records: seq<DiffRecord>, pair: Pair)
    ensures !Decodes(host, pair) ==> AddRecord(host, differs, differenceDir, records, pair) == records
    ensures Decodes(host, pair) ==>
              var added := AddRecord(host, differs, differenceDir, records, pair);
              var job := JobFor(host, differs, differenceDir, pair);
              var acc := Accepted(job, |differs|);
              && |added| == |records| + 1 && added[1..] == records
              && added[0].baselinePath == pair.baseline && added[0].testPath == pair.test
              && added[0].commonName == CommonPrefix(host.basename(pair.baseline), host.basename(pair.test))
              && added[0].differencePath == MaskPathAfter(job, |differs|)
              && |added[0].diffs| == |acc|
              && forall k :: 0 <= k < |acc| ==> acc[k] < |differs| && added[0].diffs[k] == job.DataOf(acc[k])
  {
    if Decodes(host, pair) {
      var job := JobFor(host, differs, differenceDir, pair);
      ScanDiffs(job, |differs|);
      ScanMask(job, |differs|);
    }
  }

  /** With no difference dir set, no record gets a difference path and no differ is asked for a mask. */
  lemma NoDifferenceDir(host: Host, differs: seq<Differ>, pair: Pair)
    ensures NewRecord(host, differs, [], pair).Some? ==> NewRecord(host, differs, [], pair).value.differencePath == []
    ensures forall i: nat :: EnableAlphaMask(i) !in PairCalls(host, differs, [], pair)
    ensures forall i: nat, p :: EncodeAlphaMask(i, p) !in PairCalls(host, differs, [], pair)
  {
    if Decodes(host, pair) {
      var job := JobFor(host, differs, [], pair);
      ScanMask(job, |differs|);
      FirstQualifyingIsFirst(job, |differs|);
      forall i: nat
        ensures EnableAlphaMask(i) !in PairCalls(host, differs, [], pair)
      {
        ScanMaskQueries(job, |differs|, i);
      }
      forall i: nat, p
        ensures EncodeAlphaMask(i, p) !in PairCalls(host, differs, [], pair)
      {
        ScanMaskEncodes(job, |differs|, i, p);
      }
    }
  }
}
