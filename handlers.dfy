/**
 * The experiment handlers of `utils/experiment.py` that decide what to ask
 * of the task database: `handle_new`, `handle_schedule`, `handle_delta` and
 * `handle_timeout`. The database calls themselves become the requests they
 * would receive, or updates of an experiment table.
 */
module Handlers {
  import opened Wrappers
  import opened Text
  import opened Records

  /** The default duration of the `new` and `schedule` actions. */
  const DefaultDuration: string := "1d"

  /** The arguments `handle_new` passes to `add_path`. */
  datatype AddPathRequest = AddPathRequest(
    filePath: string, timeout: int, tags: string, options: string,
    name: string, repeat: Repeat, delta: string)

  /**
   * `handle_new`. The timeout arrives already converted to seconds by
   * `time_duration`; the delta is passed on as the text it was given.
   */
  function HandleNew(name: string, path: string, timeout: int, delta: string, tags: string, options: string)
    : (req: AddPathRequest)
    ensures req.repeat == Recurrent
    ensures Split(req.tags, ',') == ["longterm"] + Split(tags, ',')
    ensures req.filePath == path && req.name == name && req.options == options
    ensures req.timeout == timeout && req.delta == delta
  {
    assert "longterm," + tags == "longterm" + [','] + tags;
    SplitCons("longterm", ',', tags);
    AddPathRequest(path, timeout, "longterm," + tags, options, name, Recurrent, delta)
  }

  /** With the default empty tags the tag list is `longterm` and one empty tag. */
  lemma NewDefaultTags(name: string, path: string, timeout: int)
    ensures Split(HandleNew(name, path, timeout, DefaultDuration, "", "").tags, ',') == ["longterm", ""]
  {
    assert ',' !in "";
  }

  /** The row of an experiment: its tasks (ids, in any order) and its stored settings. */
  datatype ExperimentRow = ExperimentRow(tasks: seq<TaskId>, delta: string, timeout: string)

  /** The arguments `handle_schedule` passes to `db.schedule`. */
  datatype ScheduleRequest = ScheduleRequest(lastTask: TaskId, delta: int, timeout: int)

  datatype ScheduleError =
    | ExperimentNotFound   // `view_experiment` gives None and `.tasks` raises
    | NoTasks              // "Tasks with experiment name ... not found", exit 1

  /** `handle_schedule`: schedule from the experiment's task with the highest id. */
  function HandleSchedule(experiments: map<string, ExperimentRow>, name: string, delta: int, timeout: int)
    : (r: Result<ScheduleRequest, ScheduleError>)
    ensures r == Err(ExperimentNotFound) <==> name !in experiments
    ensures r == Err(NoTasks) <==> name in experiments && experiments[name].tasks == []
    ensures r.Ok? ==>
      && r.value.lastTask in experiments[name].tasks
      && (forall t :: t in experiments[name].tasks ==> t <= r.value.lastTask)
      && r.value.delta == delta && r.value.timeout == timeout
  {
    if name !in experiments then Err(ExperimentNotFound)
    else if experiments[name].tasks == [] then Err(NoTasks)
    else Ok(ScheduleRequest(Max(experiments[name].tasks), delta, timeout))
  }

  /** `handle_delta`: with a value, `update_experiment(name, delta=...)`; without one, nothing. */
  function HandleDelta(experiments: map<string, ExperimentRow>, name: string, delta: Option<string>)
    : (r: map<string, ExperimentRow>)
    ensures r.Keys == experiments.Keys
    ensures forall n :: n in r && (n != name || delta.None?) ==> r[n] == experiments[n]
    ensures delta.Some? && name in r ==>
      r[name].delta == delta.value && r[name].timeout == experiments[name].timeout &&
      r[name].tasks == experiments[name].tasks
  {
    if delta.Some? && name in experiments then experiments[name := experiments[name].(delta := delta.value)]
    else experiments
  }

  /** `handle_timeout`: with a value, `update_experiment(name, timeout=...)`; without one, nothing. */
  function HandleTimeout(experiments: map<string, ExperimentRow>, name: string, timeout: Option<string>)
    : (r: map<string, ExperimentRow>)
    ensures r.Keys == experiments.Keys
    ensures forall n :: n in r && (n != name || timeout.None?) ==> r[n] == experiments[n]
    ensures timeout.Some? && name in r ==>
      r[name].timeout == timeout.value && r[name].delta == experiments[name].delta &&
      r[name].tasks == experiments[name].tasks
  {
    if timeout.Some? && name in experiments then experiments[name := experiments[name].(timeout := timeout.value)]
    else experiments
  }

  /** Setting the delta and setting the timeout do not interfere. */
  lemma DeltaTimeoutCommute(experiments: map<string, ExperimentRow>, a: string, d: Option<string>, b: string, t: Option<string>)
    ensures HandleDelta(HandleTimeout(experiments, b, t), a, d) == HandleTimeout(HandleDelta(experiments, a, d), b, t)
  {
  }

  /**
   * `handle_schedule` takes its delta and timeout from the command line (default
   * one day), so the settings stored by `handle_delta` and `handle_timeout` do
   * not change what it asks for.
   */
  lemma ScheduleIgnoresStoredSettings(experiments: map<string, ExperimentRow>, target: string, d: Option<string>,
                                      t: Option<string>, name: string, delta: int, timeout: int)
    ensures HandleSchedule(HandleTimeout(HandleDelta(experiments, target, d), target, t), name, delta, timeout)
         == HandleSchedule(experiments, name, delta, timeout)
  {
  }
}
