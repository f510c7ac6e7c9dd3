/**
  The local-mode metric logger of rlbench/logger.py.

  A `Logger` is built from a log mode, the metric groups (group name to a
  step metric and a list of metric names) and the bin-size and sub-logger
  options. The filesystem is abstract. Each group's CSV file is held as the
  records whose rows were written to it, and `FileText` gives its text. The
  `files` directory is the set of names copied into it, and `status.txt`
  and `summary.json` are fields. The remote tracking backend (WANDB mode)
  is an external sink: in that mode the logger runs the same guards and
  leaves its own state unchanged.
 */
module Logging {
  import opened LoggerState
  import opened LoggerStateLemmas
  import opened Wrappers
  import opened Text
  import opened Utils
  import opened Rows

  /** `LogMode`: the backend selected at construction. */
  datatype LogMode = Disabled | Wandb | Local

  /** The exceptions the source raises, one constructor per raise site. */
  datatype Error =
    | InvalidLogMode(logMode: string)        // ValueError, log_mode not recognised
    | SubLoggerConflict                      // ValueError, is_sub_logger with sub_loggers
    | InvalidWandbMode(wandbMode: string)    // ValueError, wandb_mode not recognised
    | BinSizeKeysMismatch                    // ValueError, bin_size keys differ from the groups
    | BinSizeWrongType                        // TypeError, bin_size neither int nor dict
    | ReinitNotImplemented                    // NotImplementedError, reinit=False in local mode
    | RunDirTypeError                         // TypeError, os.path.join given None or nothing
    | EmptyMetricGroup(group: string)         // ValueError, no metric left in a group
    | UnknownGroup(group: string)             // ValueError, group not registered
    | InvalidKeys(keys: set<string>)          // ValueError, check_keys found unregistered keys
    | MissingStepMetric(stepMetric: string)   // ValueError, record lacks the step metric
    | WriteToClosedFile(group: string)        // ValueError, write after the files were closed
    | BinSizeUnset                            // ValueError, log_binned without a bin size
    | BinnedKeysMismatch                      // ValueError, log_binned record keys differ from the metrics
    | CounterTypeError                        // TypeError, dict + 1 in log_binned
    | SummaryNotSet                           // ValueError, log_summary before the summary exists
    | AlreadyFinished                         // RuntimeError, finish on a finished run

  /** What a logging call returns: nothing, or the exception it raised. */
  datatype Outcome = Pass | Fail(error: Error)

  /** One entry of the `metrics` argument: group name, step metric, metric names. */
  datatype GroupDecl = GroupDecl(name: string, stepMetric: string, metrics: seq<string>)

  /**
    The shapes `bin_size` can take. `IntBinSize` and `DictBinSize` are exactly
    `type(bin_size) == int` and `type(bin_size) == dict`; anything else, a
    `bool` or a dict subclass included, is `OtherBinSize`.
   */
  datatype BinSizeArg =
    | NoBinSize
    | IntBinSize(size: int)
    | DictBinSize(sizes: map<string, int>)
    | OtherBinSize

  /**
    The constructor arguments that decide its behaviour. The run name also
    names the run directory; only whether that directory's path can be
    joined is modelled. Job type, project, group, tags, entity, notes and
    config are not part of this model: in local mode they only feed
    `config.json` and `metadata.json`, and in wandb mode they go to the
    external `wandb.init`.
   */
  datatype Args = Args(
    logMode: string,
    metrics: seq<GroupDecl>,
    name: string,
    reinit: bool,
    binSize: BinSizeArg,
    wandbMode: string,
    localBaseDir: Option<string>,
    isSubLogger: bool,
    hasSubLoggers: bool)

  /** What validation hands on to the logger. */
  datatype Settings = Settings(mode: LogMode, binSizes: Option<map<string, int>>)

  function ModeName(m: LogMode): string
  {
    match m
    case Disabled => "disabled"
    case Wandb => "wandb"
    case Local => "local"
  }

  /** The log_mode check: exactly the three mode names are accepted. */
  function ParseLogMode(s: string): (r: Result<LogMode, Error>)
    ensures r.Success? <==> s == "disabled" || s == "wandb" || s == "local"
    ensures r.Success? ==> ModeName(r.value) == s
    ensures r.Failure? ==> r.error == InvalidLogMode(s)
  {
    if s == "disabled" then Success(Disabled)
    else if s == "wandb" then Success(Wandb)
    else if s == "local" then Success(Local)
    else Failure(InvalidLogMode(s))
  }

  predicate IsWandbMode(s: string)
  {
    s == "online" || s == "local" || s == "disabled"
  }

  function GroupNames(decls: seq<GroupDecl>): seq<string>
  {
    seq(|decls|, i requires 0 <= i < |decls| => decls[i].name)
  }

  /** The keys of a Python dict are distinct. */
  predicate DistinctNames(decls: seq<GroupDecl>)
  {
    forall i, j | 0 <= i < j < |decls| :: decls[i].name != decls[j].name
  }

  /** bin_size: None, an int given to every group, or a dict keyed by exactly the groups. */
  function ResolveBinSize(arg: BinSizeArg, groups: seq<string>): (r: Result<Option<map<string, int>>, Error>)
    ensures arg.NoBinSize? ==> r == Success(None)
    ensures arg.IntBinSize? ==>
      r.Success? && r.value.Some? && forall g | g in r.value.value :: r.value.value[g] == arg.size
    ensures arg.DictBinSize? ==>
      (r.Success? <==> arg.sizes.Keys == set g | g in groups)
      && (r.Success? ==> r.value == Some(arg.sizes))
      && (r.Failure? ==> r.error == BinSizeKeysMismatch)
    ensures arg.OtherBinSize? ==> r == Failure(BinSizeWrongType)
    ensures r.Success? && r.value.Some? ==> r.value.value.Keys == set g | g in groups
  {
    match arg
    case NoBinSize => Success(None)
    case IntBinSize(n) => Success(Some(map g | g in groups :: n))
    case DictBinSize(sizes) =>
      if sizes.Keys == set g | g in groups then Success(Some(sizes)) else Failure(BinSizeKeysMismatch)
    case OtherBinSize => Failure(BinSizeWrongType)
  }

  predicate BinSizeAccepted(arg: BinSizeArg, groups: seq<string>)
  {
    !arg.OtherBinSize? && (arg.DictBinSize? ==> arg.sizes.Keys == set g | g in groups)
  }

  /** A group keeps at least one metric once its step metric is removed. */
  predicate HasMetric(decl: GroupDecl)
  {
    exists m | m in decl.metrics :: m != decl.stepMetric
  }

  /** The first group, in the order given, that is left without metrics. */
  function FirstEmptyGroup(decls: seq<GroupDecl>): (r: Option<string>)
    ensures r.None? <==> forall i | 0 <= i < |decls| :: HasMetric(decls[i])
    ensures r.Some? ==>
      exists i | 0 <= i < |decls| ::
        decls[i].name == r.value && !HasMetric(decls[i]) && forall j | 0 <= j < i :: HasMetric(decls[j])
  {
    if |decls| == 0 then None
    else if !HasMetric(decls[0]) then Some(decls[0].name)
    else
      var rest := FirstEmptyGroup(decls[1..]);
      assert forall i | 1 <= i < |decls| :: decls[i] == decls[1..][i - 1];
      rest
  }

  /** The first three checks of the constructor pass: log_mode, sub-loggers and wandb_mode. */
  predicate PassesModeChecks(args: Args)
  {
    && ParseLogMode(args.logMode).Success?
    && !(args.isSubLogger && args.hasSubLoggers)
    && IsWandbMode(args.wandbMode)
  }

  /**
    `join_paths(local_base_dir, name)` at line 224 raises a TypeError inside
    `os.path.join`: a None base is passed on to it, and when both segments
    are "" the filter leaves it nothing to join.
   */
  predicate RunDirFails(base: Option<string>, name: string)
  {
    base.None? || DropEmpty([base.value, name]) == []
  }

  /** The run directory cannot be joined exactly when there is no base, or base and name are both "". */
  lemma RunDirFailsExactly(base: Option<string>, name: string)
    ensures RunDirFails(base, name) <==> base.None? || (base.value == "" && name == "")
  {
    if base.Some? {
      var segments := [base.value, name];
      if base.value == "" && name == "" {
        assert DropEmpty(segments[1..]) == [];
      } else {
        var kept := if base.value != "" then base.value else name;
        assert kept in segments && kept in DropEmpty(segments);
      }
    }
  }

  /**
    Every way the constructor can fail, in the order the source checks:
    log_mode, sub-loggers, wandb_mode, bin_size, then (local mode only) the
    reinit flag, the base directory and the first empty group.
   */
  function Validate(args: Args): (r: Result<Settings, Error>)
    ensures r.Success? <==>
      && ParseLogMode(args.logMode).Success?
      && !(args.isSubLogger && args.hasSubLoggers)
      && IsWandbMode(args.wandbMode)
      && BinSizeAccepted(args.binSize, GroupNames(args.metrics))
      && (args.logMode == "local" ==>
            args.reinit && !RunDirFails(args.localBaseDir, args.name) && FirstEmptyGroup(args.metrics).None?)
    ensures r.Success? ==> ModeName(r.value.mode) == args.logMode
    ensures r.Success? ==> r.value.binSizes == ResolveBinSize(args.binSize, GroupNames(args.metrics)).value
    ensures ParseLogMode(args.logMode).Failure? ==> r == Failure(InvalidLogMode(args.logMode))
    ensures ParseLogMode(args.logMode).Success? && args.isSubLogger && args.hasSubLoggers ==>
      r == Failure(SubLoggerConflict)
    ensures ParseLogMode(args.logMode).Success? && !(args.isSubLogger && args.hasSubLoggers)
            && !IsWandbMode(args.wandbMode) ==>
      r == Failure(InvalidWandbMode(args.wandbMode))
    ensures PassesModeChecks(args) && !BinSizeAccepted(args.binSize, GroupNames(args.metrics)) ==>
      r == Failure(ResolveBinSize(args.binSize, GroupNames(args.metrics)).error)
    ensures PassesModeChecks(args) && BinSizeAccepted(args.binSize, GroupNames(args.metrics))
            && args.logMode == "local" && !args.reinit ==>
      r == Failure(ReinitNotImplemented)
    ensures PassesModeChecks(args) && BinSizeAccepted(args.binSize, GroupNames(args.metrics))
            && args.logMode == "local" && args.reinit && RunDirFails(args.localBaseDir, args.name) ==>
      r == Failure(RunDirTypeError)
    ensures PassesModeChecks(args) && BinSizeAccepted(args.binSize, GroupNames(args.metrics))
            && args.logMode == "local" && args.reinit && !RunDirFails(args.localBaseDir, args.name)
            && FirstEmptyGroup(args.metrics).Some? ==>
      r == Failure(EmptyMetricGroup(FirstEmptyGroup(args.metrics).value))
  {
    match ParseLogMode(args.logMode)
    case Failure(e) => Failure(e)
    case Success(mode) =>
      if args.isSubLogger && args.hasSubLoggers then Failure(SubLoggerConflict)
      else if !IsWandbMode(args.wandbMode) then Failure(InvalidWandbMode(args.wandbMode))
      else
        match ResolveBinSize(args.binSize, GroupNames(args.metrics))
        case Failure(e) => Failure(e)
        case Success(bins) =>
          if mode == Local && !args.reinit then Failure(ReinitNotImplemented)
          else if mode == Local && RunDirFails(args.localBaseDir, args.name) then Failure(RunDirTypeError)
          else if mode == Local && FirstEmptyGroup(args.metrics).Some? then
            Failure(EmptyMetricGroup(FirstEmptyGroup(args.metrics).value))
          else Success(Settings(mode, bins))
  }

  /** `ms` is the metric list `names` normalises to: no duplicates, no step metric, nothing else lost. */
  ghost predicate Normalised(ms: seq<string>, names: seq<string>, stepMetric: string)
  {
    NoDuplicates(ms) && forall m :: m in ms <==> m in names && m != stepMetric
  }

  /**
    `list(set(names).difference({step}))`: the order of a Python set is not
    the caller's, so the loop takes the remaining names in an arbitrary order.
   */
  method NormaliseMetrics(names: seq<string>, stepMetric: string) returns (r: seq<string>)
    ensures NoDuplicates(r)
    ensures forall m :: m in r <==> m in names && m != stepMetric
  {
    var remaining := (set m | m in names) - {stepMetric};
    r := [];
    while remaining != {}
      invariant NoDuplicates(r)
      invariant forall m :: m in r ==> m in names && m != stepMetric
      invariant forall m :: m in remaining <==> m in names && m != stepMetric && m !in r
      decreases remaining
    {
      var m :| m in remaining;
      r := r + [m];
      remaining := remaining - {m};
    }
  }

  /** The schema fields `groups`, `steps` and `metrics` are what `decls` normalises to. */
  ghost predicate IsSchemaOf(decls: seq<GroupDecl>, groups: seq<string>,
                             steps: map<string, string>, metrics: map<string, seq<string>>)
  {
    && groups == GroupNames(decls)
    && steps.Keys == metrics.Keys
    && (forall g :: g in metrics <==> g in groups)
    && forall i | 0 <= i < |decls| ::
         && decls[i].name in metrics
         && steps[decls[i].name] == decls[i].stepMetric
         && Normalised(metrics[decls[i].name], decls[i].metrics, decls[i].stepMetric)
  }

  /** Lines 108-114: group list, step metric per group, normalised metric list per group. */
  method NormaliseSchema(decls: seq<GroupDecl>)
    returns (groups: seq<string>, steps: map<string, string>, metrics: map<string, seq<string>>)
    requires DistinctNames(decls)
    ensures IsSchemaOf(decls, groups, steps, metrics)
  {
    groups := GroupNames(decls);
    steps, metrics := map[], map[];
    for i := 0 to |decls|
      invariant steps.Keys == metrics.Keys
      invariant forall g :: g in metrics <==> g in groups[..i]
      invariant forall j | 0 <= j < i ::
        && decls[j].name in metrics
        && steps[decls[j].name] == decls[j].stepMetric
        && Normalised(metrics[decls[j].name], decls[j].metrics, decls[j].stepMetric)
    {
      var ms := NormaliseMetrics(decls[i].metrics, decls[i].stepMetric);
      steps := steps[decls[i].name := decls[i].stepMetric];
      metrics := metrics[decls[i].name := ms];
      assert groups[..i + 1] == groups[..i] + [decls[i].name];
    }
    assert groups[..|decls|] == groups;
  }

  /** The keys outside the schema that `check_keys` rejects: the record's keys less the step metric, less the metrics. */
  function UnregisteredKeys(d: Record, stepMetric: string, columns: seq<string>): (r: set<string>)
    ensures forall k :: k in r <==> k in d && k != stepMetric && k !in columns
  {
    d.Keys - {stepMetric} - set c | c in columns
  }

  /**
    A record passes `check_keys` exactly when cutting it down to the step
    metric and the registered metrics loses nothing, so every value it
    carries reaches the summary and, through the row, the file.
   */
  lemma NoUnregisteredKeys(d: Record, stepMetric: string, columns: seq<string>)
    ensures UnregisteredKeys(d, stepMetric, columns) == {}
            <==> Project(d, ColumnSet(columns, stepMetric)) == d
  {
    var kept := Project(d, ColumnSet(columns, stepMetric));
    if UnregisteredKeys(d, stepMetric, columns) == {} {
      forall k | k in d
        ensures k in kept
      {
        assert k !in UnregisteredKeys(d, stepMetric, columns);
      }
    } else {
      var k :| k in UnregisteredKeys(d, stepMetric, columns);
      assert k !in kept;
    }
  }

  /**
    The header loop of `_setup_local`: for each group, in order, its file is
    created holding the header line and no rows yet.
   */
  method WriteHeaders(groups: seq<string>, steps: map<string, string>, metrics: map<string, seq<string>>)
    returns (written: map<string, seq<Record>>)
    requires WellFormedSchema(groups, steps, metrics)
    ensures written.Keys == metrics.Keys
    ensures forall g | g in written :: written[g] == []
    ensures forall g | g in written :: Csv(steps[g], metrics[g], written[g]) == Header(steps[g], metrics[g])
  {
    written := map[];
    for i := 0 to |groups|
      invariant forall g :: g in written <==> g in groups[..i]
      invariant forall g | g in written :: g in metrics && written[g] == []
    {
      written := written[groups[i] := []];
      assert groups[..i + 1] == groups[..i] + [groups[i]];
    }
    assert groups[..|groups|] == groups;
  }

  /**
    Lines 120-124: a summary per group with each metric mapped to None,
    then each group's step metric set to None as well.
   */
  function InitialSummary(steps: map<string, string>, metrics: map<string, seq<string>>)
    : (s: map<string, map<string, Value>>)
    requires steps.Keys == metrics.Keys
    ensures s.Keys == metrics.Keys
    ensures forall g | g in s :: s[g].Keys == ColumnSet(metrics[g], steps[g])
    ensures forall g, k | g in s && k in s[g] :: s[g][k] == NoneValue
  {
    var perMetric := map g | g in metrics :: map m | m in metrics[g] :: NoneValue;
    map g | g in perMetric :: perMetric[g][steps[g] := NoneValue]
  }

  /** A file name counts as present in `files` if it is there or names a directory itself. */
  predicate IsPresent(filesDir: set<string>, name: string)
  {
    name in filesDir || name == "" || name == "." || name == ".."
  }

  /** The `files` directory after one copy-unless-present. */
  function Staged(filesDir: set<string>, name: string): (r: set<string>)
    ensures filesDir <= r && r - filesDir <= {name}
    ensures IsPresent(r, name)
    ensures r == filesDir <==> IsPresent(filesDir, name)
  {
    if IsPresent(filesDir, name) then filesDir else filesDir + {name}
  }

  /** Staging the same name twice is the same as staging it once. */
  lemma StagedIdempotent(filesDir: set<string>, name: string)
    ensures IsPresent(Staged(filesDir, name), name)
    ensures Staged(Staged(filesDir, name), name) == Staged(filesDir, name)
  {
  }

  /** `os.path.basename`: the text after the last '/'. */
  function Basename(path: string): (r: string)
    ensures '/' !in r
    ensures |r| <= |path|
    ensures forall i | 0 <= i < |r| :: r[i] == path[|path| - |r| + i]
    ensures |r| < |path| ==> path[|path| - |r| - 1] == '/'
  {
    if |path| == 0 || path[|path| - 1] == '/' then ""
    else Basename(path[..|path| - 1]) + [path[|path| - 1]]
  }

  /**
    What `_log_local(d, group)` does to the summaries and the group files:
    the summary always takes in the whole record; the record's row is
    appended only when the record has the step metric and the files are
    open, and otherwise the outcome names the first failing check.
   */
  predicate LocalLogged(step: string, filesOpen: bool, d: Record, group: string,
                        summary: map<string, map<string, Value>>, written: map<string, seq<Record>>,
                        r: Outcome,
                        summary': map<string, map<string, Value>>, written': map<string, seq<Record>>)
  {
    && group in summary && group in written
    && summary' == summary[group := Merged(summary[group], d)]
    && if step !in d then
         r == Fail(MissingStepMetric(step)) && written' == written
       else if !filesOpen then
         r == Fail(WriteToClosedFile(group)) && written' == written
       else
         r == Pass && written' == written[group := written[group] + [d]]
  }

  /**
    What a `_log_local` call leaves in the files: the group's file gains a
    line break and the record's row exactly when the call passes, and is
    unchanged otherwise; every other group's file and summary is untouched.
   */
  lemma LoggedFileText(step: string, columns: seq<string>, filesOpen: bool, d: Record, group: string,
                       summary: map<string, map<string, Value>>, written: map<string, seq<Record>>,
                       r: Outcome,
                       summary': map<string, map<string, Value>>, written': map<string, seq<Record>>)
    requires LocalLogged(step, filesOpen, d, group, summary, written, r, summary', written')
    requires AllHaveStep(written[group], step)
    ensures group in written' && AllHaveStep(written'[group], step)
    ensures r == Pass ==>
      && step in d
      && Csv(step, columns, written'[group]) == Csv(step, columns, written[group]) + "\n" + Row(d, step, columns)
    ensures r != Pass ==> Csv(step, columns, written'[group]) == Csv(step, columns, written[group])
    ensures r == Pass <==> step in d && filesOpen
    ensures forall g | g in written && g != group :: g in written' && written'[g] == written[g]
    ensures forall g | g in summary && g != group :: g in summary' && summary'[g] == summary[g]
  {
    if r == Pass {
      CsvSnoc(step, columns, written[group], d);
    }
  }

  class Logger {
    const mode: LogMode
    const groups: seq<string>
    const stepMetric: map<string, string>
    const metrics: map<string, seq<string>>
    const binSize: Option<map<string, int>>

    /** The latest value per key per group; present only in local mode. */
    var summary: Option<map<string, map<string, Value>>>
    /** The records whose rows were appended to each `metrics/<group>.csv`, in order. */
    var written: map<string, seq<Record>>
    var filesOpen: bool
    /** Names in the run's `files` directory. */
    var filesDir: set<string>
    /** The text of `status.txt`, once written. */
    var status: Option<string>
    /** The content of `summary.json`, once written. */
    var savedSummary: Option<map<string, map<string, Value>>>
    var isFinished: bool

    /**
      The schema fixed at construction: the groups in order, each once, with
      their step metrics and normalised metric lists, and a bin size per
      group when one is set. It reads only constants, so no update can
      break it.
     */
    ghost predicate Registered()
    {
      && WellFormedSchema(groups, stepMetric, metrics)
      && (binSize.Some? ==> binSize.value.Keys == metrics.Keys)
    }

    /**
      The invariant of the mutable state: in local mode there is a summary
      and a file per group, every record in a file carries the step metric,
      and `status.txt` reads "started" or "finished"; otherwise none of the
      local state exists.
     */
    ghost predicate Valid()
      reads this
    {
      && SchemaOk(mode == Local, stepMetric, metrics)
      && SummaryOk(mode == Local, stepMetric, metrics, summary)
      && FilesOk(mode == Local, stepMetric, metrics, written)
      && LifecycleOk(mode == Local, isFinished, status, filesOpen, filesDir, savedSummary)
    }

    /** The text of `metrics/<g>.csv`: the header line, then one line per row written. */
    function FileText(g: string): string
      reads this
      requires Valid() && mode == Local && g in metrics
    {
      Csv(stepMetric[g], metrics[g], written[g])
    }

    /** The state right after construction. */
    ghost predicate Initial()
      reads this
      requires Valid()
    {
      && filesDir == {} && savedSummary.None? && !isFinished
      && (mode == Local ==>
            && summary == Some(InitialSummary(stepMetric, metrics))
            && (forall g | g in metrics ::
                  written[g] == [] && FileText(g) == Header(stepMetric[g], metrics[g]))
            && filesOpen && status == Some("started"))
    }

    /**
      The successful end of `__init__`: the summary of lines 119-124, then
      `_setup`; in local mode `_setup_local` writes each group's header, in
      group order, and `status.txt`.
     */
    constructor (mode: LogMode, groups: seq<string>, steps: map<string, string>,
                 metrics: map<string, seq<string>>, binSize: Option<map<string, int>>)
      requires WellFormedSchema(groups, steps, metrics)
      requires binSize.Some? ==> binSize.value.Keys == metrics.Keys
      requires mode == Local ==> forall g | g in metrics :: |metrics[g]| > 0
      ensures Valid() && Registered() && Initial()
      ensures this.mode == mode && this.groups == groups && this.stepMetric == steps
      ensures this.metrics == metrics && this.binSize == binSize
    {
      var headers := map[];
      if mode == Local {
        headers := WriteHeaders(groups, steps, metrics);
      }
      this.mode := mode;
      this.groups := groups;
      this.stepMetric := steps;
      this.metrics := metrics;
      this.binSize := binSize;
      summary := if mode == Local then Some(InitialSummary(steps, metrics)) else None;
      written := headers;
      filesOpen := mode == Local;
      status := if mode == Local then Some("started") else None;
      filesDir, savedSummary, isFinished := {}, None, false;
    }

    /**
      `Logger(...)`: validate the arguments, normalise the schema, set up.
      Either the first error the source raises, or a logger in its initial state.
     */
    static method Create(args: Args) returns (r: Result<Logger, Error>)
      requires DistinctNames(args.metrics)
      ensures Validate(args).Failure? ==> r == Failure(Validate(args).error)
      ensures Validate(args).Success? ==>
        && r.Success? && fresh(r.value) && r.value.Valid() && r.value.Registered() && r.value.Initial()
        && r.value.mode == Validate(args).value.mode
        && r.value.binSize == Validate(args).value.binSizes
        && IsSchemaOf(args.metrics, r.value.groups, r.value.stepMetric, r.value.metrics)
    {
      var settings := Validate(args);
      if settings.Failure? {
        return Failure(settings.error);
      }
      var groups, steps, metrics := NormaliseSchema(args.metrics);
      SchemaIsWellFormed(args.metrics, groups, steps, metrics, settings.value.mode == Local);
      var logger := new Logger(settings.value.mode, groups, steps, metrics, settings.value.binSizes);
      return Success(logger);
    }

    /**
      The normalised schema is well formed, and when every declared group
      keeps a metric besides its step metric, so does every normalised one.
     */
    static lemma SchemaIsWellFormed(decls: seq<GroupDecl>, groups: seq<string>,
                                    steps: map<string, string>, metrics: map<string, seq<string>>, local: bool)
      requires DistinctNames(decls)
      requires IsSchemaOf(decls, groups, steps, metrics)
      requires local ==> FirstEmptyGroup(decls).None?
      ensures WellFormedSchema(groups, steps, metrics)
      ensures local ==> forall g | g in metrics :: |metrics[g]| > 0
    {
      forall g | g in metrics
        ensures exists i | 0 <= i < |decls| :: decls[i].name == g
        ensures local ==> |metrics[g]| > 0
      {
        var i :| 0 <= i < |groups| && groups[i] == g;
        assert decls[i].name == g;
        if local {
          var m :| m in decls[i].metrics && m != decls[i].stepMetric;
          assert m in metrics[g];
        }
      }
    }

    /**
      `_to_row`: the step metric must be in the record; the row has the step
      value and one field per registered metric, in header order.
     */
    function ToRow(d: Record, group: string): (r: Result<string, Error>)
      reads this
      requires Valid() && group in metrics
      ensures r.Failure? <==> stepMetric[group] !in d
      ensures r.Failure? ==> r.error == MissingStepMetric(stepMetric[group])
      ensures r.Success? ==> r.value == Row(d, stepMetric[group], metrics[group])
      ensures r.Success? && |metrics[group]| > 0 ==>
        Split(r.value, ',') == [Render(d[stepMetric[group]])] + Cells(d, metrics[group])
    {
      var step := stepMetric[group];
      if step !in d then Failure(MissingStepMetric(step))
      else
        assert |metrics[group]| > 0 ==>
          Split(Row(d, step, metrics[group]), ',') == [Render(d[step])] + Cells(d, metrics[group]) by {
          if |metrics[group]| > 0 { RowFields(d, step, metrics[group]); }
        }
        Success(Row(d, step, metrics[group]))
    }

    /**
      `_log_local`: merge the whole record into the group's summary, then
      build the row (which may fail) and append "\n" and the row to the file.
     */
    method LogLocal(d: Record, group: string) returns (r: Outcome)
      requires Valid() && mode == Local
      modifies this`summary, this`written
      ensures Valid()
      ensures group !in metrics ==>
        r == Fail(UnknownGroup(group)) && summary == old(summary) && written == old(written)
      ensures group in metrics ==>
        old(summary).Some? && summary.Some?
        && LocalLogged(stepMetric[group], filesOpen, d, group,
                       old(summary).value, old(written), r, summary.value, written)
    {
      if group !in metrics {
        return Fail(UnknownGroup(group));
      }
      MergeIntoSummary(d, group);
      var row := ToRow(d, group);
      if row.Failure? {
        return Fail(row.error);
      }
      r := WriteRow(d, group);
    }

    /** Line 520: `copy_to_dict` merges the whole record into the group's summary in place. */
    method MergeIntoSummary(d: Record, group: string)
      requires Valid() && mode == Local && group in metrics
      modifies this`summary
      ensures Valid()
      ensures old(summary).Some? && summary == Some(old(summary).value[group := Merged(old(summary).value[group], d)])
    {
      var merged := CopyToDict(Some(d), Some(summary.value[group]));
      SummaryOkAfterMerge(stepMetric, metrics, summary.value, group, merged.value);
      summary := Some(summary.value[group := merged.value]);
    }

    /**
      Line 523: write a line break and the record's row to the group file,
      which fails once the file has been closed. The file is held as the
      records written to it, so the record is appended (see `FileText`).
     */
    method WriteRow(d: Record, group: string) returns (r: Outcome)
      requires Valid() && mode == Local && group in metrics && stepMetric[group] in d
      modifies this`written
      ensures Valid()
      ensures !filesOpen ==> r == Fail(WriteToClosedFile(group)) && written == old(written)
      ensures filesOpen ==>
        r == Pass && written == old(written)[group := old(written)[group] + [d]]
    {
      if !filesOpen {
        return Fail(WriteToClosedFile(group));
      }
      FilesOkAfterAppend(stepMetric, metrics, written, group, d);
      written := written[group := written[group] + [d]];
      return Pass;
    }

    /**
      `log(d, group, check_keys)`: nothing when disabled; otherwise the group
      must be registered and, with `checkKeys`, every key but the step metric
      must be a registered metric, before anything changes.
     */
    method Log(d: Record, group: string, checkKeys: bool) returns (r: Outcome)
      requires Valid()
      modifies this`summary, this`written
      ensures Valid()
      ensures mode == Disabled ==> r == Pass && unchanged(this)
      ensures mode != Disabled && group !in metrics ==> r == Fail(UnknownGroup(group)) && unchanged(this)
      ensures mode != Disabled && group in metrics && checkKeys
              && UnregisteredKeys(d, stepMetric[group], metrics[group]) != {} ==>
        r == Fail(InvalidKeys(UnregisteredKeys(d, stepMetric[group], metrics[group]))) && unchanged(this)
      ensures mode == Wandb && group in metrics
              && !(checkKeys && UnregisteredKeys(d, stepMetric[group], metrics[group]) != {}) ==>
        r == Pass && unchanged(this)
      ensures mode == Local && group in metrics
              && !(checkKeys && UnregisteredKeys(d, stepMetric[group], metrics[group]) != {}) ==>
        old(summary).Some? && summary.Some?
        && LocalLogged(stepMetric[group], filesOpen, d, group,
                       old(summary).value, old(written), r, summary.value, written)
    {
      if mode == Disabled {
        return Pass;
      }
      if group !in metrics {
        return Fail(UnknownGroup(group));
      }
      if checkKeys {
        var extra := UnregisteredKeys(d, stepMetric[group], metrics[group]);
        if extra != {} {
          return Fail(InvalidKeys(extra));
        }
      }
      if mode == Local {
        r := LogLocal(d, group);
      } else {
        r := Pass;
      }
    }

    /**
      `log_binned`: the guards run in order; once they pass, line 441 adds 1
      to the per-group dict of counters and raises, so no state ever changes.
     */
    method LogBinned(d: Record, group: string) returns (r: Outcome)
      requires Valid()
      ensures mode == Disabled ==> r == Pass
      ensures mode != Disabled && binSize.None? ==> r == Fail(BinSizeUnset)
      ensures mode != Disabled && binSize.Some? && group !in metrics ==> r == Fail(UnknownGroup(group))
      ensures mode != Disabled && binSize.Some? && group in metrics ==>
        r == (if d.Keys == (set m | m in metrics[group]) then Fail(CounterTypeError)
              else Fail(BinnedKeysMismatch))
    {
      if mode == Disabled {
        return Pass;
      }
      if binSize.None? {
        return Fail(BinSizeUnset);
      }
      if group !in metrics {
        return Fail(UnknownGroup(group));
      }
      if d.Keys != (set m | m in metrics[group]) {
        return Fail(BinnedKeysMismatch);
      }
      return Fail(CounterTypeError);
    }

    /** `_log_file_local`: copy into `files` unless a file of that basename is already there. */
    method LogFileLocal(path: string)
      requires Valid() && mode == Local
      modifies this`filesDir
      ensures Valid()
      ensures filesDir == Staged(old(filesDir), Basename(path))
      ensures IsPresent(filesDir, Basename(path))
    {
      var name := Basename(path);
      if !IsPresent(filesDir, name) {
        filesDir := filesDir + {name};
      }
    }

    /** `log_file`: only local mode changes the model's state. */
    method LogFile(path: string)
      requires Valid()
      modifies this`filesDir
      ensures Valid()
      ensures mode != Local ==> unchanged(this)
      ensures mode == Local ==> filesDir == Staged(old(filesDir), Basename(path))
    {
      if mode == Local {
        LogFileLocal(path);
      }
    }

    /** `log_summary`: in local mode `summary.json` receives the current summary. */
    method LogSummary() returns (r: Outcome)
      requires Valid()
      modifies this`savedSummary
      ensures Valid()
      ensures r == Pass
      ensures mode != Local ==> unchanged(this)
      ensures mode == Local ==> savedSummary == summary
    {
      if mode == Local {
        if summary.None? {
          return Fail(SummaryNotSet);
        }
        savedSummary := summary;
      }
      return Pass;
    }

    /**
      `finish`: in local mode close the group files, write the summary and
      set the status to "finished". `isFinished` is never set, so the guard
      against a second call never fires and every call succeeds.
     */
    method Finish() returns (r: Outcome)
      requires Valid()
      modifies this`filesOpen, this`savedSummary, this`status
      ensures Valid()
      ensures r == Pass
      ensures mode != Local ==> unchanged(this)
      ensures mode == Local ==> !filesOpen && savedSummary == summary && status == Some("finished")
    {
      if mode == Disabled {
        return Pass;
      }
      if isFinished {
        return Fail(AlreadyFinished);
      }
      if mode == Local {
        filesOpen := false;
        r := LogSummary();
        if r.Fail? {
          return r;
        }
        status := Some("finished");
      }
      return Pass;
    }
  }

  /** Reading a group file of a local logger back: the header line, then one line per logged row. */
  lemma GroupFileLines(l: Logger, g: string)
    requires l.Valid() && l.mode == Local && g in l.metrics
    requires '\n' !in l.stepMetric[g]
    requires forall i | 0 <= i < |l.metrics[g]| :: '\n' !in l.metrics[g][i]
    ensures Split(l.FileText(g), '\n')
            == [Header(l.stepMetric[g], l.metrics[g])] + RowsOf(l.written[g], l.stepMetric[g], l.metrics[g])
    ensures |Split(l.FileText(g), '\n')| == |l.written[g]| + 1
  {
    CsvLines(l.stepMetric[g], l.metrics[g], l.written[g]);
  }

  /** Two calls to `finish` both succeed, and the status ends as "finished" in local mode. */
  method FinishTwice(l: Logger) returns (first: Outcome, second: Outcome)
    requires l.Valid()
    modifies l`filesOpen, l`savedSummary, l`status
    ensures l.Valid()
    ensures first == Pass && second == Pass
    ensures l.mode == Local ==> l.status == Some("finished") && !l.filesOpen
  {
    first := l.Finish();
    second := l.Finish();
  }
}
