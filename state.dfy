/**
  The invariant of a local-mode logger's state, stated on plain values so
  that each part can be carried across an update that leaves its arguments
  alone.
 */
module LoggerState {
  import opened Wrappers
  import opened Text
  import opened Utils
  import opened Rows

  /** The invariant of a registered schema. */
  ghost predicate WellFormedSchema(groups: seq<string>, steps: map<string, string>, metrics: map<string, seq<string>>)
  {
    && NoDuplicates(groups)
    && (forall g :: g in metrics <==> g in groups)
    && steps.Keys == metrics.Keys
    && forall g | g in metrics :: NoDuplicates(metrics[g]) && steps[g] !in metrics[g]
  }

  /** The metric names of a group together with its step metric. */
  function ColumnSet(columns: seq<string>, stepMetric: string): set<string>
  {
    (set m | m in columns) + {stepMetric}
  }

  /**
    What every operation needs of the schema: a step metric for every
    group, and in local mode no group without metrics.
   */
  ghost predicate SchemaOk(local: bool, steps: map<string, string>, metrics: map<string, seq<string>>)
  {
    && steps.Keys == metrics.Keys
    && (local ==> forall g | g in metrics :: |metrics[g]| > 0)
  }

  /** In local mode every group has a summary holding at least its columns. */
  ghost predicate SummaryOk(local: bool, steps: map<string, string>, metrics: map<string, seq<string>>,
                            summary: Option<map<string, map<string, Value>>>)
  {
    if local then
      && summary.Some? && summary.value.Keys == metrics.Keys
      && forall g {:trigger summary.value[g]} | g in metrics && g in steps ::
           ColumnSet(metrics[g], steps[g]) <= summary.value[g].Keys
    else summary.None?
  }

  /**
    In local mode every group has a file, held as the records whose rows it
    received, and each of those records has the group's step metric.
   */
  ghost predicate FilesOk(local: bool, steps: map<string, string>, metrics: map<string, seq<string>>,
                          written: map<string, seq<Record>>)
  {
    if local then
      && written.Keys == metrics.Keys
      && forall g {:trigger written[g]} | g in metrics && g in steps :: AllHaveStep(written[g], steps[g])
    else written == map[]
  }

  /** `status.txt` is "started" or "finished", and the files are closed once it is "finished". */
  ghost predicate LifecycleOk(local: bool, isFinished: bool, status: Option<string>, filesOpen: bool,
                              filesDir: set<string>, savedSummary: Option<map<string, map<string, Value>>>)
  {
    && !isFinished
    && if local then
         && (status == Some("started") || status == Some("finished"))
         && (status == Some("finished") ==> !filesOpen)
       else !filesOpen && filesDir == {} && status.None? && savedSummary.None?
  }
}

/**
  How the two parts of the invariant that `_log_local` touches survive its
  updates.
 */
module LoggerStateLemmas {
  import opened Wrappers
  import opened Rows
  import opened LoggerState

  /** Merging a record into one group's summary keeps every group's columns. */
  lemma SummaryOkAfterMerge(steps: map<string, string>, metrics: map<string, seq<string>>,
                            summary: map<string, map<string, Value>>, group: string, merged: map<string, Value>)
    requires SummaryOk(true, steps, metrics, Some(summary))
    requires group in metrics && summary[group].Keys <= merged.Keys
    ensures SummaryOk(true, steps, metrics, Some(summary[group := merged]))
  {
    forall g | g in metrics && g in steps
      ensures ColumnSet(metrics[g], steps[g]) <= summary[group := merged][g].Keys
    {
      if g != group {
        assert summary[group := merged][g] == summary[g];
      }
    }
  }

  /** Appending a record that has the step metric to one group file keeps every file well formed. */
  lemma FilesOkAfterAppend(steps: map<string, string>, metrics: map<string, seq<string>>,
                           written: map<string, seq<Record>>, group: string, d: Record)
    requires FilesOk(true, steps, metrics, written)
    requires group in metrics && group in steps && steps[group] in d
    ensures FilesOk(true, steps, metrics, written[group := written[group] + [d]])
  {
    var written' := written[group := written[group] + [d]];
    forall g | g in metrics && g in steps
      ensures AllHaveStep(written'[g], steps[g])
    {
      if g != group {
        assert written'[g] == written[g];
      }
    }
  }
}
