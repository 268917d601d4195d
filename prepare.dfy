/**
 * The dataset registry: the five benchmark datasets, the names they are
 * chosen by, and for each the raw files, element type and batch size its
 * conversion uses.
 */
module Prepare {
  import opened Wrappers
  import opened Number
  import opened Io
  import opened Standard
  import opened Raw

  /** The datasets the converter knows. */
  datatype Dataset = BigAnn | FbSSNpp | MsftSpaceV | MsftTuring | YandexDeep

  // ---------------------------------------------------------------------------
  // Names (`Dataset::names`, `FromStr for Dataset`)
  // ---------------------------------------------------------------------------

  /** `Dataset::names`: the names a dataset is chosen by, in declaration order. */
  function Names(): (r: seq<string>)
    ensures |r| == 5 && forall d: Dataset :: Name(d) in r
  {
    ["bigann", "fb_ssnnpp", "msft_spacev", "msft_turing", "yandex_deep"]
  }

  /** The name `FromStr` accepts for each dataset. */
  function Name(d: Dataset): string {
    match d
    case BigAnn => "bigann"
    case FbSSNpp => "fb_ssnnpp"
    case MsftSpaceV => "msft_spacev"
    case MsftTuring => "msft_turing"
    case YandexDeep => "yandex_deep"
  }

  /** A string as `{:?}` writes it: in double quotes (no name needs escaping). */
  function Quoted(s: string): string {
    "\"" + s + "\""
  }

  /** The quoted strings separated by `", "`. */
  function JoinQuoted(ns: seq<string>): string {
    if |ns| == 0 then ""
    else if |ns| == 1 then Quoted(ns[0])
    else Quoted(ns[0]) + ", " + JoinQuoted(ns[1..])
  }

  /** A list of strings as `{:?}` writes it: `["a", "b"]`. */
  function DebugList(ns: seq<string>): string {
    "[" + JoinQuoted(ns) + "]"
  }

  /** The text that opens the error for an unknown name. */
  const RejectionPrefix: string := "Dataset cannot be created from name "

  /** `Dataset::from_str`: the dataset of a known name, else an error naming the input and the known names. */
  function FromStr(s: string): (r: Result<Dataset, string>)
    ensures r.Ok? <==> s in Names()
    ensures r.Ok? ==> Name(r.value) == s
    ensures r.Err? ==> r.error == Rejection(s)
  {
    if s == "bigann" then Ok(BigAnn)
    else if s == "fb_ssnnpp" then Ok(FbSSNpp)
    else if s == "msft_spacev" then Ok(MsftSpaceV)
    else if s == "msft_turing" then Ok(MsftTuring)
    else if s == "yandex_deep" then Ok(YandexDeep)
    else Err(Rejection(s))
  }

  /** The error for the unknown name `s`. */
  function Rejection(s: string): string {
    RejectionPrefix + s + ". Try one of " + DebugList(Names())
  }

  /** Every dataset's name parses back to that dataset, and is one of `names()`. */
  lemma FromStrName(d: Dataset)
    ensures FromStr(Name(d)) == Ok(d)
    ensures Name(d) in Names()
  {
  }

  /** `names()` lists five distinct names, one per dataset, and each parses to its own dataset. */
  lemma NamesRoundTrip()
    ensures |Names()| == 5
    ensures forall a, b :: 0 <= a < b < |Names()| ==> Names()[a] != Names()[b]
    ensures forall k :: 0 <= k < |Names()| ==> FromStr(Names()[k]).Ok? && Name(FromStr(Names()[k]).value) == Names()[k]
  {
  }

  /** Distinct datasets have distinct names. */
  lemma NameInjective(d: Dataset, e: Dataset)
    requires Name(d) == Name(e)
    ensures d == e
  {
    FromStrName(d);
    FromStrName(e);
  }

  /** Each quoted name occurs in the joined list, at the offset returned. */
  lemma {:induction false} JoinQuotedHas(ns: seq<string>, k: nat) returns (at: nat)
    requires k < |ns|
    ensures at + |Quoted(ns[k])| <= |JoinQuoted(ns)|
    ensures JoinQuoted(ns)[at..at + |Quoted(ns[k])|] == Quoted(ns[k])
  {
    var q := Quoted(ns[k]);
    if |ns| == 1 || k == 0 {
      at := 0;
      var joined := JoinQuoted(ns);
      if |ns| > 1 {
        assert joined == q + (", " + JoinQuoted(ns[1..]));
      }
      assert joined[..|q|] == q;
    } else {
      var later := JoinQuotedHas(ns[1..], k - 1);
      assert ns[1..][k - 1] == ns[k];
      var head := Quoted(ns[0]) + ", ";
      var joined := JoinQuoted(ns);
      assert joined == head + JoinQuoted(ns[1..]);
      at := |head| + later;
      assert joined[at..at + |q|] == JoinQuoted(ns[1..])[later..later + |q|];
    }
  }

  /** Text followed by a debug-printed list holds the text, then each listed string in quotes. */
  lemma DebugListHas(head: string, ns: seq<string>, k: nat) returns (at: nat)
    requires k < |ns|
    ensures var m := head + DebugList(ns);
      && m[..|head|] == head
      && at + |Quoted(ns[k])| <= |m|
      && m[at..at + |Quoted(ns[k])|] == Quoted(ns[k])
  {
    var m := head + DebugList(ns);
    var inList := JoinQuotedHas(ns, k);
    var q := Quoted(ns[k]);
    assert m == (head + "[") + JoinQuoted(ns) + "]";
    at := |head| + 1 + inList;
    assert m[at..at + |q|] == JoinQuoted(ns)[inList..inList + |q|];
  }

  /**
   * The error for an unknown name holds the name itself, right after the
   * opening text, and every name of `names()` in quotes.
   */
  lemma RejectionNames(s: string, k: nat) returns (at: nat)
    requires k < |Names()|
    ensures var m := Rejection(s);
      && |RejectionPrefix| + |s| <= |m|
      && m[|RejectionPrefix|..|RejectionPrefix| + |s|] == s
      && at + |Quoted(Names()[k])| <= |m|
      && m[at..at + |Quoted(Names()[k])|] == Quoted(Names()[k])
  {
    var head := RejectionPrefix + s + ". Try one of ";
    at := DebugListHas(head, Names(), k);
    assert head[|RejectionPrefix|..|RejectionPrefix| + |s|] == s;
  }

  // ---------------------------------------------------------------------------
  // Per-dataset conversion (`Dataset::convert_*`)
  // ---------------------------------------------------------------------------

  /**
   * What one `convert_*` fixes: the output directory's name, the raw base,
   * query and ground-truth file names, the element type, and the batch size.
   */
  datatype Config = Config(
    outName: string,
    baseFile: string,
    queryFile: string,
    groundFile: string,
    elementType: ElementType,
    batchSize: nat)

  /** The element types the datasets are stored in. */
  predicate StoredType(t: ElementType) {
    t == U8 || t == I8 || t == F32
  }

  /** The suffix of a raw vector file of a stored element type. */
  function Suffix(t: ElementType): string
    requires StoredType(t)
  {
    match t
    case U8 => ".u8bin"
    case I8 => ".i8bin"
    case F32 => ".fbin"
  }

  predicate EndsWith(s: string, suffix: string) {
    |suffix| <= |s| && s[|s| - |suffix|..] == suffix
  }

  predicate StartsWith(s: string, prefix: string) {
    |prefix| <= |s| && s[..|prefix|] == prefix
  }

  /** The choices each `convert_*` makes. */
  function ConfigOf(d: Dataset): (c: Config)
    ensures c.elementType in {U8, I8, F32}
    ensures c.batchSize == if IsFloat(c.elementType) then 1_000_000 else 10_000_000
  {
    match d
    case BigAnn => Config("bigann", "bigann-1b.u8bin", "bigann-query.u8bin", "bigann-ground.bin", U8, 10_000_000)
    case FbSSNpp => Config("fb_ssnpp", "fb_ssnpp-1b.u8bin", "fb_ssnpp-query.u8bin", "fb_ssnpp-ground.rangeres", U8, 10_000_000)
    case MsftSpaceV => Config("msft_spacev", "msft_spacev-1b.i8bin", "msft_spacev-query.i8bin", "msft_spacev-ground.bin", I8, 10_000_000)
    case MsftTuring => Config("msft_turing", "msft_turing-1b.fbin", "msft_turing-query.fbin", "msft_turing-ground.bin", F32, 1_000_000)
    case YandexDeep => Config("yandex_deep", "yandex_deep-1b.fbin", "yandex_deep-query.fbin", "yandex_deep-ground.bin", F32, 1_000_000)
  }

  /**
   * The element type each dataset is converted with, and its batch size:
   * `u8` for BigANN and FB-SSNPP, `i8` for MSFT-SpaceV, `f32` for MSFT-Turing
   * and Yandex-Deep; ten million vectors a batch for the byte types, one
   * million for `f32`.
   */
  lemma ConfigTypes(d: Dataset)
    ensures var c := ConfigOf(d);
      && (d == BigAnn || d == FbSSNpp <==> c.elementType == U8)
      && (d == MsftSpaceV <==> c.elementType == I8)
      && (d == MsftTuring || d == YandexDeep <==> c.elementType == F32)
      && (c.batchSize == 10_000_000 <==> d in {BigAnn, FbSSNpp, MsftSpaceV})
      && (c.batchSize == 1_000_000 <==> d in {MsftTuring, YandexDeep})
  {
  }

  /**
   * A configuration's raw files carry its output name and a dash as their
   * prefix, and the base and query files the suffix of the element type they
   * are read as.
   */
  predicate WellNamed(c: Config) {
    && StartsWith(c.baseFile, c.outName + "-")
    && StartsWith(c.queryFile, c.outName + "-")
    && StartsWith(c.groundFile, c.outName + "-")
    && StoredType(c.elementType)
    && EndsWith(c.baseFile, Suffix(c.elementType))
    && EndsWith(c.queryFile, Suffix(c.elementType))
  }

  /** Every dataset's raw file names are relative, so they land inside the raw directory. */
  lemma ConfigFilesRelative(d: Dataset)
    ensures var c := ConfigOf(d);
      !Absolute(c.baseFile) && !Absolute(c.queryFile) && !Absolute(c.groundFile)
  {
  }

  /** Every dataset's file names agree with its output name and element type. */
  lemma ConfigFileNames(d: Dataset)
    ensures WellNamed(ConfigOf(d))
  {
    match d
    case BigAnn => BigAnnWellNamed();
    case FbSSNpp => FbSSNppWellNamed();
    case MsftSpaceV => MsftSpaceVWellNamed();
    case MsftTuring => MsftTuringWellNamed();
    case YandexDeep => YandexDeepWellNamed();
  }

  lemma BigAnnWellNamed()
    ensures WellNamed(ConfigOf(BigAnn))
  {
  }

  lemma FbSSNppWellNamed()
    ensures WellNamed(ConfigOf(FbSSNpp))
  {
  }

  lemma MsftSpaceVWellNamed()
    ensures WellNamed(ConfigOf(MsftSpaceV))
  {
  }

  lemma MsftTuringWellNamed()
    ensures WellNamed(ConfigOf(MsftTuring))
  {
  }

  lemma YandexDeepWellNamed()
    ensures WellNamed(ConfigOf(YandexDeep))
  {
  }

  /**
   * The output directory is named after the dataset's name, except for
   * FB-SSNPP: it is chosen as "fb_ssnnpp" but its files and output
   * directory are named "fb_ssnpp".
   */
  lemma OutNames(d: Dataset)
    ensures ConfigOf(d).outName == Name(d) <==> d != FbSSNpp
    ensures Name(FbSSNpp) == "fb_ssnnpp" && ConfigOf(FbSSNpp).outName == "fb_ssnpp"
  {
  }

  /** Distinct datasets write into distinct output directories. */
  lemma OutNamesDistinct(d: Dataset, e: Dataset)
    requires d != e
    ensures ConfigOf(d).outName != ConfigOf(e).outName
  {
  }

  /** `create_out_dir`'s path: the dataset's directory inside the standard directory. */
  function OutDirPath(name: string, standardDir: Path): Path {
    standardDir + [name]
  }

  /** The raw files of a dataset, inside the raw directory. */
  function RawFiles(d: Dataset, rawDir: Path): RawData {
    var c := ConfigOf(d);
    FromDir(rawDir, c.baseFile, c.queryFile, c.groundFile)
  }

  /**
   * What `Dataset::convert_*` does once the output directory exists: the raw
   * files converted with the dataset's element type and batch size into the
   * dataset's output directory.
   */
  function DatasetRun(d: Dataset, fs: FileSystem, rawDir: Path, standardDir: Path): (r: Run)
    ensures r.result.Ok? ==>
      && r.result.value.dataDir == standardDir + [ConfigOf(d).outName]
      && r.result.value.batchSize == ConfigOf(d).batchSize
  {
    var c := ConfigOf(d);
    ConvertSpec(fs, RawFiles(d, rawDir), c.elementType, OutDirPath(c.outName, standardDir), c.batchSize)
  }

  /**
   * `Dataset::convert_*`: converts the dataset's base and query files and
   * discards the summary; returns the outcome and the files written.
   */
  method ConvertDataset(d: Dataset, fs: FileSystem, rawDir: Path, standardDir: Path)
    returns (r: Result<(), Fault>, written: seq<ArrowFile>)
    ensures var run := DatasetRun(d, fs, rawDir, standardDir);
      && (r.Ok? <==> run.result.Ok?)
      && (r.Err? ==> r.error == run.result.error)
      && written == run.files
  {
    var c := ConfigOf(d);
    var raw := RawFiles(d, rawDir);
    var outDir := new OutputDir(OutDirPath(c.outName, standardDir));
    var converted := Convert(raw, fs, c.elementType, outDir, c.batchSize);
    written := outDir.written;
    if converted.Err? {
      return Err(converted.error), written;
    }
    r := Ok(());
  }

  /**
   * A dataset converts exactly when its base and query files are present
   * under `raw_dir/base` and `raw_dir/query` and each is convertible with
   * the dataset's element type and batch size; the summary then describes
   * the dataset's output directory and batch size.
   */
  lemma DatasetRunOutcome(d: Dataset, fs: FileSystem, rawDir: Path, standardDir: Path)
    ensures var c := ConfigOf(d);
      var run := DatasetRun(d, fs, rawDir, standardDir);
      var basePath := rawDir + ["base", c.baseFile];
      var queryPath := rawDir + ["query", c.queryFile];
      && (run.result.Ok? <==>
            && basePath in fs && Convertible(fs[basePath], c.elementType, c.batchSize)
            && queryPath in fs && Convertible(fs[queryPath], c.elementType, c.batchSize))
      && (run.result.Ok? ==> run.result.value.dataDir == standardDir + [c.outName] && run.result.value.batchSize == c.batchSize)
  {
    var c := ConfigOf(d);
    var raw := RawFiles(d, rawDir);
    ConfigFilesRelative(d);
    ConvertSucceeds(fs, raw, c.elementType, OutDirPath(c.outName, standardDir), c.batchSize, raw.groundPath);
  }

  /** Every file a dataset's conversion writes lies directly inside the dataset's output directory. */
  lemma DatasetRunFiles(d: Dataset, fs: FileSystem, rawDir: Path, standardDir: Path)
    ensures var out := standardDir + [ConfigOf(d).outName];
      var files := DatasetRun(d, fs, rawDir, standardDir).files;
      forall k :: 0 <= k < |files| ==> |files[k].path| == |out| + 1 && files[k].path[..|out|] == out
  {
    var c := ConfigOf(d);
    ConvertFilesInDir(fs, RawFiles(d, rawDir), c.elementType, OutDirPath(c.outName, standardDir), c.batchSize);
  }

  /** A path directly inside `dir + [a]` differs from one directly inside `dir + [b]` when `a != b`. */
  lemma InsideDistinct(dir: Path, a: string, b: string, p: Path, q: Path)
    requires a != b
    requires |p| == |dir| + 2 && p[..|dir| + 1] == dir + [a]
    requires |q| == |dir| + 2 && q[..|dir| + 1] == dir + [b]
    ensures p != q
  {
    assert p[|dir|] == p[..|dir| + 1][|dir|] == a;
    assert q[|dir|] == q[..|dir| + 1][|dir|] == b;
  }

  /** Two datasets converted into the same standard directory never write the same file. */
  lemma DatasetRunsDisjoint(d: Dataset, e: Dataset, fs: FileSystem, rawDir: Path, standardDir: Path)
    requires d != e
    ensures var fd := DatasetRun(d, fs, rawDir, standardDir).files;
      var fe := DatasetRun(e, fs, rawDir, standardDir).files;
      forall a, b :: 0 <= a < |fd| && 0 <= b < |fe| ==> fd[a].path != fe[b].path
  {
    DatasetRunFiles(d, fs, rawDir, standardDir);
    DatasetRunFiles(e, fs, rawDir, standardDir);
    OutNamesDistinct(d, e);
    var fd := DatasetRun(d, fs, rawDir, standardDir).files;
    var fe := DatasetRun(e, fs, rawDir, standardDir).files;
    FilesInsideDisjoint(standardDir, ConfigOf(d).outName, ConfigOf(e).outName, fd, fe);
  }

  /** Files directly inside `dir + [a]` and files directly inside `dir + [b]` never share a path when `a != b`. */
  lemma FilesInsideDisjoint(dir: Path, a: string, b: string, fd: seq<ArrowFile>, fe: seq<ArrowFile>)
    requires a != b
    requires forall k :: 0 <= k < |fd| ==> |fd[k].path| == |dir + [a]| + 1 && fd[k].path[..|dir + [a]|] == dir + [a]
    requires forall k :: 0 <= k < |fe| ==> |fe[k].path| == |dir + [b]| + 1 && fe[k].path[..|dir + [b]|] == dir + [b]
    ensures forall i, j :: 0 <= i < |fd| && 0 <= j < |fe| ==> fd[i].path != fe[j].path
  {
    forall i, j | 0 <= i < |fd| && 0 <= j < |fe|
      ensures fd[i].path != fe[j].path
    {
      InsideDistinct(dir, a, b, fd[i].path, fe[j].path);
    }
  }
}
