/**
  The data model of the skpdiff comparison context: the records it builds for each
  baseline/test image pair, the differs it runs on them, and the host services
  (codec, filesystem, path helpers, number formatting) it calls but does not define.

  A Dafny string here stands for the bytes of a C string, one char per byte, so
  comparing chars is comparing bytes as the C++ code does.
 */
module DiffTypes {

  datatype Option<+T> = None | Some(value: T)

  /** A pixel coordinate (SkIPoint) that a differ flagged as significant. */
  datatype Point = Point(x: int, y: int)

  /** One differ's outcome for one image pair (DiffData). */
  datatype DiffData = DiffData(differName: string, result: real, pointsOfInterest: seq<Point>)

  /** The outcome for one baseline/test pair (DiffRecord); an empty differencePath means none was written. */
  datatype DiffRecord = DiffRecord(
    baselinePath: string,
    testPath: string,
    commonName: string,
    differencePath: string,
    diffs: seq<DiffData>)

  /**
    What a differ answers for one pair: the id queueDiff returns (negative when the differ
    does not handle the pair), and what getResult and getPointsOfInterest return for that id.
   */
  datatype Verdict = Verdict(id: int, result: real, pointsOfInterest: seq<Point>)

  /**
    An SkImageDiffer as the context sees it: its name, its answer to enablePOIAlphaMask,
    and its answers to queueDiff for the images decoded from a baseline and a test path.
   */
  datatype Differ = Differ(name: string, enablesAlphaMask: bool, queue: (string, string) -> Verdict)

  /** A (baseline path, test path) pair handed to addDiff. */
  datatype Pair = Pair(baseline: string, test: string)

  /**
    The services the context calls but that are defined elsewhere: image decoding
    (SkImageDecoder::DecodeFile succeeds or not), SkOSPath::SkBasename, SkOSPath::SkPathJoin,
    sk_mkdir, sk_exists, sk_isdir, get_directory, glob_files and get_absolute_path.
   */
  datatype Host = Host(
    decodes: string -> bool,
    basename: string -> string,
    join: (string, string) -> string,
    mkdir: string -> bool,
    pathExists: string -> bool,
    isDirectory: string -> bool,
    listDirectory: string -> Option<seq<string>>,
    glob: string -> Option<seq<string>>,
    absolute: string -> string)
  {
    /** Every path that decodes has a non-empty basename, as get_common_prefix asserts of its inputs. */
    ghost predicate DecodableNamesNonEmpty()
    {
      forall p :: decodes(p) ==> basename(p) != []
    }
  }

  /**
    The number renderings the reports use: SkWStream::writeScalarAsText, SkWStream::writeDecAsText
    and printf's "%f".
   */
  datatype Formatter = Formatter(scalarText: real -> string, decimalText: int -> string, fixedText: real -> string)

  /** SkImageDiffer::RESULT_CORRECT, the result meaning "identical"; its value is set in SkImageDiffer.h. */
  const ResultCorrect: real

  /** kMaxPOI: the most points of interest the JSON report writes per diff. */
  const MaxPoi: nat := 100

  function Min(a: nat, b: nat): nat
  {
    if a < b then a else b
  }
}
