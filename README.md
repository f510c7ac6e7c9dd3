# rl-bench logger, modelled in Dafny

This project models the metric `Logger` of rlbench/logger.py in local
mode, together with the two helpers of rlbench/utils.py that it relies on.

A `Logger` is constructed from three things:
- a log mode (`disabled`, `wandb` or `local`);
- metric groups, where each group name maps to a step metric and a list of
  metric names;
- bin-size and sub-logger options.

Construction validates these arguments in the order the source checks them.
It then normalises each group's metric list: duplicates and the step metric
are removed, and the remaining names come in some order that the header and
every row share. In local mode it also sets up the run:
- one CSV file per group, holding its header line;
- a summary holding every column of every group, each mapped to `None`;
- `status.txt` reading "started".

Afterwards:
- `log` merges a record into the group's summary and appends a row to the
  group's file;
- `log_file` copies a file into the run's `files` directory unless a file
  of that name is already there;
- `log_summary` writes `summary.json`;
- `finish` closes the files, writes the summary and sets the status to
  "finished".

The filesystem is abstract:
- A group file is held as the sequence of records whose rows were written
  to it. The function `Logger.FileText` gives its text: the header, then
  "\n" and a row for each record.
- The `files` directory is a set of names.
- `status.txt` and `summary.json` are fields.

The modules are:
- `Wrappers`: `Option` and `Result`.
- `Text`: Python's `sep.join`, `s.split(sep)` and `str` of an integer,
  with their inverse properties.
- `Utils`: `copy_to_dict` and the empty-segment filter of `join_paths`.
- `Rows`: the header, `_to_row` and the CSV text, with lemmas that read the
  text back.
- `LoggerState` and `LoggerStateLemmas`: the logger's invariant, stated on
  plain values, and how it survives each update.
- `Logging`: argument validation, schema normalisation and the `Logger`
  class.

Records hold Python `None` or integers. `str` of an integer is modelled
digit by digit, and `ParseDecimal` reads it back.

Some behaviour of the code is easy to misread; the model follows the code:
- `finish` never raises on a second call. Its guard reads `_is_finished`,
  which is only ever assigned `False` (rlbench/logger.py:179).
- `log_binned` never succeeds once its guards pass. Line 441 adds 1 to a
  dict and raises `TypeError`.
- The empty-metric-group check exists only in local setup
  (rlbench/logger.py:280-281). In the other modes an empty group is
  accepted.
- A local `log` after `finish` still merges the record into the summary.
  Only then does it fail, writing to a closed file.
- A `_to_row` failure (missing step metric) comes after the summary merge,
  so that merge stays.
- Local setup joins the base directory and the run name
  (rlbench/logger.py:224). This fails with a `TypeError` inside
  `os.path.join` when `local_base_dir` is `None`, and also when both it and
  the name are "": the empty-segment filter then leaves nothing to join.
  The model calls this `RunDirTypeError`.
- Basenames "", "." and ".." name directories that already exist, so
  `log_file` skips them.

## Model

| member | source | states |
|---|---|---|
| Logging.ParseLogMode | rlbench/logger.py:63-71 | exactly "disabled", "wandb" and "local" are accepted, each giving its mode; any other string fails with the invalid-log-mode error |
| Logging.ResolveBinSize | rlbench/logger.py:138-147 | no bin size gives none; an int gives that size to every group; a dict is accepted exactly when its keys are the group set; any other shape fails with the type error |
| Logging.FirstEmptyGroup | rlbench/logger.py:274-281 | none exactly when every group keeps a metric besides its step metric; otherwise the first group, in declaration order, left without a metric |
| Logging.Validate | rlbench/logger.py:63-147 | construction succeeds exactly when the log mode is known, a sub-logger is not given sub-loggers of its own, the wandb mode is one of "online"/"local"/"disabled", the bin size is accepted and, in local mode, reinit is set, the run directory can be joined and no group is empty; otherwise it fails with the error of the first check that fails, in source order: the log mode, the sub-logger conflict, the wandb mode, the bin size (its own error), then in local mode reinit (line 219), the run-directory join (line 224) and the first empty group (line 281) |
| Logging.RunDirFailsExactly | rlbench/logger.py:224 | joining the base directory and the run name fails exactly when the base is `None`, or when base and name are both "" and the filter of `join_paths` leaves nothing |
| Logging.NormaliseMetrics | rlbench/logger.py:112-114 | the result has no duplicates, and a name is in it exactly when it is an input name other than the step metric |
| Logging.NormaliseSchema | rlbench/logger.py:107-114 | groups in declaration order; each group has its declared step metric and a normalised metric list |
| Logging.UnregisteredKeys | rlbench/logger.py:411-412 | built as the record's keys less the step metric less the metrics; a key is rejected exactly when it is in the record, is not the step metric and is not a registered metric |
| Logging.NoUnregisteredKeys | rlbench/logger.py:411-414 | a record passes `check_keys` exactly when cutting it down to the step metric and the registered metrics leaves it unchanged |
| Logging.WriteHeaders | rlbench/logger.py:272-284 | every group gets a file with no rows, whose text is exactly the header line |
| Logging.InitialSummary | rlbench/logger.py:120-124 | built as each metric mapped to None, then the step metric added; the result has one entry per group, whose keys are exactly the group's metrics plus its step metric, all mapped to None |
| Logging.IsPresent | rlbench/logger.py:529-531 | defines when a name counts as already in the files directory: it is there, or it is "", "." or "..", which the joined, normalised path turns into an existing directory (no contract of its own) |
| Logging.Staged | rlbench/logger.py:529-534 | the files directory only grows, and by at most the name; afterwards the name is present; the directory is unchanged exactly when the name was already present |
| Logging.StagedIdempotent | rlbench/logger.py:525-534 | copying a file of the same name a second time leaves the files directory as the first copy left it |
| Logging.Basename | rlbench/logger.py:529 | the result contains no '/', is a suffix of the path, and is preceded by '/' when shorter than the path |
| Logging.LoggedFileText | rlbench/logger.py:520-523 | after a local log, the group file gains "\n" and the record's row exactly when the call passed, and is unchanged otherwise; every other group's file and summary is untouched; passing happens exactly when the step metric is present and the files are open |
| Logging.Logger.constructor | rlbench/logger.py:119-292 | the new logger is valid with the given schema; in local mode it has the initial summary, each file holds only its header, the files are open and the status is "started"; in the other modes there is no local state |
| Logging.Logger.Create | rlbench/logger.py:63-185 | fails with exactly the error validation reports; otherwise gives a fresh logger in its initial state, with the validated mode and bin sizes and the normalised schema |
| Logging.Logger.SchemaIsWellFormed | rlbench/logger.py:107-114 | the normalised schema is well formed, and in local mode with no empty declared group no normalised group is empty |
| Logging.Logger.ToRow | rlbench/logger.py:495-510 | fails with the missing-step-metric error exactly when the record lacks the step metric; otherwise the row splits at commas into the step value and one field per metric in header order |
| Logging.Logger.LogLocal | rlbench/logger.py:512-523 | an unregistered group fails and changes nothing; otherwise the whole record is merged into the group summary, then a record without the step metric fails, a closed file fails, and otherwise the record's row is appended to its group file alone |
| Logging.Logger.MergeIntoSummary | rlbench/logger.py:520 | the group summary becomes the old summary overwritten with the record; the other groups are unchanged and the invariant is kept |
| Logging.Logger.WriteRow | rlbench/logger.py:523 | a closed file fails and changes nothing; otherwise the record is appended to its group file and nothing else changes |
| Logging.Logger.Log | rlbench/logger.py:396-422 | disabled mode passes and changes nothing; an unregistered group, or with check_keys an unregistered key, fails before anything changes; wandb mode passes without changing local state; local mode behaves as the local log |
| Logging.Logger.LogBinned | rlbench/logger.py:424-441 | disabled mode passes; the missing-bin-size, unknown-group and keys-mismatch guards fail in that order; past them the call always fails with the type error of line 441; nothing changes |
| Logging.Logger.LogFileLocal | rlbench/logger.py:525-534 | the files directory gains the path's basename unless that name is already present, after which it is present |
| Logging.Logger.LogFile | rlbench/logger.py:461-469 | only local mode changes the files directory, by the copy-unless-present rule |
| Logging.Logger.LogSummary | rlbench/logger.py:480-484 | in local mode the saved summary becomes the current summary; the other modes change nothing; the call always passes |
| Logging.Logger.Finish | rlbench/logger.py:570-589 | always passes; in local mode the files are closed, the summary is saved and the status is "finished"; the other modes change nothing |
| Logging.GroupFileLines | rlbench/logger.py:283-284 | when neither the step metric nor any metric name contains a line break, splitting a group file at line breaks gives the header and then the rows of the written records in order, one line more than records |
| Logging.FinishTwice | rlbench/logger.py:572-573 | two calls to finish both pass, and the status stays "finished" |
| Text.Join | rlbench/logger.py:283 | defines `sep.join` of a list of strings, as used for the header and the row; `Text.SplitJoin` and `Text.JoinCons` state how it reads back (no contract of its own) |
| Rows.Cell | rlbench/logger.py:507-508 | defines one field of a row: `str` of the record's value, or "" when the record lacks that metric, as the `defaultdict(lambda: "")` lookup gives (no contract of its own) |
| Rows.Cells | rlbench/logger.py:508 | defines the fields of a row: one `Cell` per metric, in the group's metric order (no contract of its own) |
| Logging.LocalLogged | rlbench/logger.py:518-523 | defines the outcome and the summaries and files after `_log_local`: the summary takes in the whole record; then a missing step metric fails, a closed file fails, and otherwise the record is appended to its group's file; `LogLocal`, `Log` and `LoggedFileText` are stated through it (no contract of its own) |
| Rows.Header | rlbench/logger.py:283 | defines the header line: the step metric, ',' and the metric names joined by ','; `Rows.HeaderFields` reads it back (no contract of its own) |
| Rows.Row | rlbench/logger.py:507-509 | defines the row: the step value's text, ',' and each metric's text, or "" when absent, joined by ','; `Rows.RowFields` reads it back (no contract of its own) |
| Rows.Csv | rlbench/logger.py:523 | defines a group file's text: the header written at line 284, then "\n" and a row for each record written, in order; `Rows.CsvSnoc` and `Rows.CsvLines` state its shape (no contract of its own) |
| Logging.Logger.FileText | rlbench/logger.py:283-284 | the text of a group's file: the header written at line 284 and the rows appended at line 523, given by `Rows.Csv` over the records written to it (no contract of its own) |
| Rows.Render | rlbench/logger.py:508-509 | the text of a value has no comma or line break, and an integer's text reads back to the integer |
| Rows.HeaderFields | rlbench/logger.py:283 | when there is at least one metric and no name contains a comma, the header splits at commas into the step metric and then the metric names |
| Rows.HeaderIsOneLine | rlbench/logger.py:283 | the header is a single line |
| Rows.RowFields | rlbench/logger.py:507-509 | when there is at least one metric, a row splits at commas into the step value and then one field per metric in header order, empty where the record lacks the metric |
| Rows.RowIgnoresUnregistered | rlbench/logger.py:507-509 | a row is the same once every unregistered key is removed from the record |
| Rows.RowHasNoLineBreak | rlbench/logger.py:507-509 | a row is a single line |
| Rows.CsvSnoc | rlbench/logger.py:523 | writing one more record appends "\n" and its row to the file text |
| Rows.CsvLines | rlbench/logger.py:523 | when no name contains a line break, a file's lines are its header and then the rows of its records, in order |
| LoggerStateLemmas.SummaryOkAfterMerge | rlbench/logger.py:520 | merging into one group's summary keeps every group's columns |
| LoggerStateLemmas.FilesOkAfterAppend | rlbench/logger.py:523 | appending a record that has the step metric keeps every file's records well formed |
| Utils.CopyToDict | rlbench/utils.py:21-27 | a result exactly when both dictionaries are present; its keys are the old keys plus the source's; every source key has the source's value; every other key keeps its old value |
| Utils.MergedIdempotent | rlbench/utils.py:25-26 | merging the same dictionary twice gives the same result as once |
| Utils.DropEmpty | rlbench/utils.py:31 | no "" remains, and every other segment is kept |
| Utils.DropEmptyConcat | rlbench/utils.py:31 | the filter commutes with concatenation, so kept segments keep their order |
| Utils.DropEmptyKeepsNonEmpty | rlbench/utils.py:31 | segments that are all non-empty pass through unchanged |
| Text.IntToDecimal | rlbench/logger.py:509 | `str` of an integer is an optional leading '-' and then digits, with no leading zero except "0" itself and no "-0"; it reads back to the integer |
| Text.SplitJoin | rlbench/logger.py:283 | joining one or more fields that do not contain the separator, then splitting, gives the fields back |

## Left out

- The wandb backend is an external client: `_setup_wandb`, `_log_wandb`, `_log_file_wandb` and `wandb_run.finish`. In wandb mode the model runs the same guards and leaves its own state unchanged.
- Real filesystem work is not modelled: folder creation and clearing, `shutil.copy`, `open` and `close`, and the JSON files for config, metadata and summary. Files are values, and the summary file is the saved summary.
- The `files` directory holds names only. The copied contents are not modelled.
- A construction that fails partway through local setup may leave files on disk in the source. The model has no such effects.
- `os.path.join` and `os.path.normpath` inside `join_paths` are library behaviour. Only the empty-segment filter is modelled.
- The `print` warnings and `conv_to_json_d` are left out: they have no effect on state.
- Floating-point values are left out. Records hold `None` or integers.
- The averaging and flush of `log_binned` are left out, because line 441 always raises first.
- The bin counters set up in `_setup` are left out. Only `log_binned` uses them.
- `add_metrics`, `log_to_file_pkl` and `log_artifact` are stubs that raise `NotImplementedError`, so they are left out. The `reinit=False` path is modelled as its error.
- The `check_keys` branch inside `_to_row` is left out. `log` always calls `_log_local` with `check_keys=False` (rlbench/logger.py:417), so that branch cannot be reached from `log`.
- Sub-logger fields are left out: they are stored and never used. Only the conflict check is modelled.
- The run name also names the run directory (rlbench/logger.py:224). The model keeps it only to decide whether that directory's path can be joined. The paths themselves are not modelled.
- Job type, project, group, tags, entity, notes and config are left out. In local mode they only feed `config.json` and `metadata.json` (rlbench/logger.py:249-265). In wandb mode they go to the external `wandb.init` call (rlbench/logger.py:299-309), which is not modelled.
- Text.IntToDecimal: it always gives the text. Python 3.11 and later refuse `str` of an integer with more than 4300 digits and raise `ValueError`. In the source this would happen at rlbench/logger.py:509, after the summary merge, and no row would be written.
- Logging.Logger.LogFileLocal: the source file is assumed to exist and to copy without error. If `shutil.copy` (rlbench/logger.py:534) raises, for example `FileNotFoundError` for a missing path, the source adds no name, but the model adds it.
- Logging.Basename: paths are POSIX paths. Only '/' separates them, as in `posixpath.basename`; the Windows rules of `ntpath` (a '\\' separator, a drive prefix) are not modelled.
- rlbench/benchmarker/run.py and rlbench/benchmarker/experiment.py are not part of this model.
- Logging.Validate: in wandb mode the source's `_setup_wandb` unpacks every metric name as a pair (rlbench/logger.py:328), so wandb construction raises a `ValueError` for any metric name that is not exactly two characters long. That loop sits after the external `wandb.init` call, which is not modelled, so `Validate` and `Logger.Create` succeed there.
- Logging.Logger.WriteRow: its contract states the appended record, not the file text. `Logging.LoggedFileText` and `Rows.CsvSnoc` state that the text gains "\n" and the row.
- Logging.NormaliseMetrics: Python's set iteration order is not modelled. Any duplicate-free order of the right names is allowed, and the header and every row share it.
