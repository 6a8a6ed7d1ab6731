/**
 * Reading the configuration: each option's lookup either fails, finds nothing
 * or yields a value; every required option that is missing (or has the wrong
 * number of values) is a configuration error, checked in a fixed order, and
 * only `-numPIRuns` (default 1) and the two output paths (default empty) may
 * be absent.
 */
module Options {
  import opened Wrappers

  /** The optimisation mode. */
  datatype Mode = MinCost | MaxReward

  /** The outcome of one option lookup: the lookup itself failed, the option is absent, or it has a value. */
  datatype Lookup<T> = Unreadable | Absent | Given(value: T)

  /**
   * The outcome of every lookup the generator makes, in the shape each option
   * is read in; an array option holds every value given for it.
   */
  datatype RawOptions = RawOptions(
    populationSize: Lookup<int>,
    discountFactor: Lookup<real>,
    hm: Lookup<seq<real>>,
    sd: Lookup<seq<int>>,
    hmCf: Lookup<seq<real>>,
    sdCf: Lookup<seq<real>>,
    hmCq: Lookup<seq<real>>,
    sdCq: Lookup<seq<real>>,
    weights: Lookup<seq<real>>,
    maxIterPI: Lookup<int>,
    maxIterKSP: Lookup<int>,
    numPIRuns: Lookup<int>,
    rtolKSP: Lookup<real>,
    atolPI: Lookup<real>,
    filePolicy: Lookup<string>,
    fileCost: Lookup<string>,
    fileStats: Lookup<string>,
    mode: Lookup<string>)

  /** A configuration error names the option: not given (or wrong count), unreadable, or an unknown mode. */
  datatype ConfigError = NotSpecified(option: string) | LookupFailed(option: string) | ModeNotRecognized(given: string)

  /** The resolved configuration. */
  datatype Config = Config(
    populationSize: int,
    discountFactor: real,
    r: seq<real>,
    lambda: seq<int>,
    cfA1: seq<real>,
    cfA2: seq<real>,
    cqA1: seq<real>,
    cqA2: seq<real>,
    weights: seq<real>,
    maxIterPI: int,
    maxIterKSP: int,
    numPIRuns: int,
    rtolKSP: real,
    atolPI: real,
    filePolicy: string,
    fileCost: string,
    fileStats: string,
    mode: Mode)

  /** The `-mode` value is read into a 20-character buffer: at most 19 characters survive. */
  const ModeBufferLength: nat := 20

  function Truncated(s: string, n: nat): (t: string)
    ensures |t| <= n && t <= s
    ensures |s| <= n ==> t == s
    ensures |s| > n ==> t == s[..n]
  {
    if |s| <= n then s else s[..n]
  }

  /** `"MINCOST"` and `"MAXREWARD"` name the two modes; every other string names none. */
  function ParseMode(s: string): (m: Option<Mode>)
    ensures m == Some(MinCost) <==> s == "MINCOST"
    ensures m == Some(MaxReward) <==> s == "MAXREWARD"
    ensures m == None <==> s != "MINCOST" && s != "MAXREWARD"
  {
    if s == "MINCOST" then Some(MinCost)
    else if s == "MAXREWARD" then Some(MaxReward)
    else None
  }

  /** The truncation to the mode buffer never changes which mode a string names. */
  lemma ModeTruncationHarmless(s: string)
    ensures ParseMode(Truncated(s, ModeBufferLength - 1)) == ParseMode(s)
  {
    var t := Truncated(s, ModeBufferLength - 1);
    if t != s {
      assert |t| == 19 && |s| >= 20;
      assert |"MINCOST"| == 7 && |"MAXREWARD"| == 9;
    }
  }

  /** A required scalar option. */
  function Required<T>(l: Lookup<T>, name: string): Result<T, ConfigError> {
    match l
    case Unreadable => Failure(LookupFailed(name))
    case Absent => Failure(NotSpecified(name))
    case Given(v) => Success(v)
  }

  /**
   * A required array option: the lookup retrieves at most `count` values, so
   * fewer values are an error and any beyond the first `count` are dropped.
   */
  function RequiredArray<T>(l: Lookup<seq<T>>, count: nat, name: string): (r: Result<seq<T>, ConfigError>)
    ensures r.Success? <==> l.Given? && |l.value| >= count
    ensures r.Success? ==> r.value == l.value[..count]
  {
    match l
    case Unreadable => Failure(LookupFailed(name))
    case Absent => Failure(NotSpecified(name))
    case Given(v) => if |v| < count then Failure(NotSpecified(name)) else Success(v[..count])
  }

  /** An option that falls back to `default` when absent. */
  function Defaulted<T>(l: Lookup<T>, default: T, name: string): Result<T, ConfigError> {
    match l
    case Unreadable => Failure(LookupFailed(name))
    case Absent => Success(default)
    case Given(v) => Success(v)
  }

  /** The `-mode` option, read into its buffer and parsed. */
  function ReadMode(l: Lookup<string>): Result<Mode, ConfigError> {
    match l
    case Unreadable => Failure(LookupFailed("-mode"))
    case Absent => Failure(NotSpecified("-mode"))
    case Given(s) =>
      var buffered := Truncated(s, ModeBufferLength - 1);
      match ParseMode(buffered)
      case Some(m) => Success(m)
      case None => Failure(ModeNotRecognized(buffered))
  }

  /** `setValuesFromOptions` up to the derived parameters: the first failing option decides the error. */
  function ReadConfig(opts: RawOptions, numA1: nat, numA2: nat): Result<Config, ConfigError> {
    var populationSize :- Required(opts.populationSize, "-populationSize");
    var discountFactor :- Required(opts.discountFactor, "-discountFactor");
    var r :- RequiredArray(opts.hm, numA1, "-HM");
    var lambda :- RequiredArray(opts.sd, numA2, "-SD");
    var cfA1 :- RequiredArray(opts.hmCf, numA1, "-HM-cf");
    var cfA2 :- RequiredArray(opts.sdCf, numA2, "-SD-cf");
    var cqA1 :- RequiredArray(opts.hmCq, numA1, "-HM-cq");
    var cqA2 :- RequiredArray(opts.sdCq, numA2, "-SD-cq");
    var weights :- RequiredArray(opts.weights, 3, "-weights");
    var maxIterPI :- Required(opts.maxIterPI, "-maxIter_PI");
    var maxIterKSP :- Required(opts.maxIterKSP, "-maxIter_KSP");
    var numPIRuns :- Defaulted(opts.numPIRuns, 1, "-numPIRuns");
    var rtolKSP :- Required(opts.rtolKSP, "-rtol_KSP");
    var atolPI :- Required(opts.atolPI, "-atol_PI");
    var filePolicy :- Defaulted(opts.filePolicy, "", "-file_policy");
    var fileCost :- Defaulted(opts.fileCost, "", "-file_cost");
    var fileStats :- Required(opts.fileStats, "-file_stats");
    var mode :- ReadMode(opts.mode);
    Success(Config(populationSize, discountFactor, r, lambda, cfA1, cfA2, cqA1, cqA2, weights,
                   maxIterPI, maxIterKSP, numPIRuns, rtolKSP, atolPI, filePolicy, fileCost, fileStats, mode))
  }

  predicate Readable<T>(l: Lookup<T>) {
    !l.Unreadable?
  }

  /** The array option is given with at least `count` values. */
  predicate HasValues<T>(l: Lookup<seq<T>>, count: nat) {
    l.Given? && |l.value| >= count
  }

  /**
   * Every option read before `-mode` that has no default is given, every array
   * has at least its count of values, and no lookup fails.
   */
  predicate AllButModeGiven(opts: RawOptions, numA1: nat, numA2: nat) {
    opts.populationSize.Given? && opts.discountFactor.Given? &&
    HasValues(opts.hm, numA1) && HasValues(opts.sd, numA2) &&
    HasValues(opts.hmCf, numA1) && HasValues(opts.sdCf, numA2) &&
    HasValues(opts.hmCq, numA1) && HasValues(opts.sdCq, numA2) &&
    HasValues(opts.weights, 3) &&
    opts.maxIterPI.Given? && opts.maxIterKSP.Given? && Readable(opts.numPIRuns) &&
    opts.rtolKSP.Given? && opts.atolPI.Given? &&
    Readable(opts.filePolicy) && Readable(opts.fileCost) && opts.fileStats.Given?
  }

  /** Every option that has no default is given, the mode included. */
  predicate AllRequiredGiven(opts: RawOptions, numA1: nat, numA2: nat) {
    AllButModeGiven(opts, numA1, numA2) && opts.mode.Given?
  }

  /**
   * The configuration is accepted exactly when every required option is given
   * with at least its count of values and the mode is `MINCOST` or `MAXREWARD`;
   * then the mode is the one named and each vector is the first values given,
   * as many as its action-set size.
   */
  lemma ConfigAcceptedIff(opts: RawOptions, numA1: nat, numA2: nat)
    ensures ReadConfig(opts, numA1, numA2).Success? <==>
            AllRequiredGiven(opts, numA1, numA2) && ParseMode(opts.mode.value).Some?
    ensures ReadConfig(opts, numA1, numA2).Success? ==>
            var c := ReadConfig(opts, numA1, numA2).value;
            Some(c.mode) == ParseMode(opts.mode.value) &&
            |c.r| == numA1 && |c.lambda| == numA2 && |c.cfA1| == numA1 && |c.cfA2| == numA2 &&
            |c.cqA1| == numA1 && |c.cqA2| == numA2 && |c.weights| == 3 &&
            c.r == opts.hm.value[..numA1] && c.lambda == opts.sd.value[..numA2] &&
            c.cfA1 == opts.hmCf.value[..numA1] && c.cfA2 == opts.sdCf.value[..numA2] &&
            c.cqA1 == opts.hmCq.value[..numA1] && c.cqA2 == opts.sdCq.value[..numA2] &&
            c.weights == opts.weights.value[..3]
  {
    if opts.mode.Given? {
      ModeTruncationHarmless(opts.mode.value);
    }
  }

  /** An absent `-numPIRuns` is not an error: it defaults to a single run. */
  lemma NumPIRunsDefaultsToOne(opts: RawOptions, numA1: nat, numA2: nat)
    requires opts.numPIRuns.Absent?
    requires ReadConfig(opts, numA1, numA2).Success?
    ensures ReadConfig(opts, numA1, numA2).value.numPIRuns == 1
  {
  }

  /** An absent or unrecognised `-mode` is an error even when everything else is given. */
  lemma ModeRequired(opts: RawOptions, numA1: nat, numA2: nat)
    requires opts.mode.Absent? || (opts.mode.Given? && ParseMode(opts.mode.value).None?)
    ensures ReadConfig(opts, numA1, numA2).Failure?
    ensures AllButModeGiven(opts, numA1, numA2) ==>
            ReadConfig(opts, numA1, numA2).error ==
              if opts.mode.Absent? then NotSpecified("-mode")
              else ModeNotRecognized(Truncated(opts.mode.value, ModeBufferLength - 1))
  {
    if opts.mode.Given? {
      ModeTruncationHarmless(opts.mode.value);
    }
  }
}
