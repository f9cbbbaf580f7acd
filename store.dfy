/**
 * The task-lifecycle views of the web interface (`schedule`, `unschedule`,
 * `terminate`, `remove` in `web/analysis/views.py`) over an in-memory store
 * of tasks, experiments, machines and analysis records.
 *
 * Each view is first given as a function from a store value to the store
 * after the view and the page it renders; the class `TaskStore` then
 * performs the same view step by step through the database primitives the
 * source calls, and each of its methods is proved to end in the state the
 * function describes.
 */
module Lifecycle {
  import opened Wrappers
  import opened Records

  /** The state the lifecycle views read and change. */
  datatype Store = Store(
    tasks: map<TaskId, Task>,
    experiments: set<ExperimentId>,
    machines: seq<Machine>,
    analyses: multiset<TaskId>)     // `info.id` of every analysis record in the results database

  /** Why a view does not complete. */
  datatype ViewError =
    | TaskNotFound                  // `view_task` returned None and the view dereferenced it
    | AnalysisMissing               // no analysis record for the task
    | AnalysisDuplicated            // several analysis records for the task
    | UndefinedName(name: string)   // a Python NameError

  /** The rendered page: `success.html` with a message, or an error. */
  datatype Reply = Success(message: string) | Failure(error: ViewError)

  /** A view's effect: the store afterwards and the page it renders. */
  datatype Step = Step(after: Store, reply: Reply)

  const ScheduledMessage := "Task scheduled, thanks for all the fish."
  const UnscheduledMessage := "Task unscheduled, thanks for all the fish."
  const TerminatedMessage := "Task terminated, thanks for all the fish."
  const DeletedMessage := "Task deleted, thanks for all the fish."

  /** `list_tasks(experiment=e)`: the ids of the experiment's tasks. */
  function TasksOf(tasks: map<TaskId, Task>, e: ExperimentId): (ids: set<TaskId>)
    ensures forall t :: t in ids <==> t in tasks && tasks[t].experiment == e
  {
    set t | t in tasks && tasks[t].experiment == e
  }

  /** `list_tasks(experiment=e, status=TASK_RUNNING)`. */
  function RunningOf(tasks: map<TaskId, Task>, e: ExperimentId): (ids: set<TaskId>)
    ensures forall t :: t in ids <==> t in tasks && tasks[t].experiment == e && tasks[t].status == Running
    ensures ids <= TasksOf(tasks, e)
  {
    set t | t in tasks && tasks[t].experiment == e && tasks[t].status == Running
  }

  /** The experiment's running tasks switched to single-shot, every other task as it was. */
  function Demote(tasks: map<TaskId, Task>, e: ExperimentId): (r: map<TaskId, Task>)
    ensures r.Keys == tasks.Keys
    ensures forall t :: t in tasks ==>
      r[t].status == tasks[t].status && r[t].experiment == tasks[t].experiment &&
      r[t].repeat == (if t in RunningOf(tasks, e) then Single else tasks[t].repeat)
  {
    map t | t in tasks :: if t in RunningOf(tasks, e) then tasks[t].(repeat := Single) else tasks[t]
  }

  /** Demoting changes no task's experiment or status, so every listing stays as it was. */
  lemma DemoteKeepsListings(tasks: map<TaskId, Task>, e: ExperimentId, x: ExperimentId)
    ensures TasksOf(Demote(tasks, e), x) == TasksOf(tasks, x)
    ensures RunningOf(Demote(tasks, e), x) == RunningOf(tasks, x)
  {
  }

  /** Demoting a second time changes nothing. */
  lemma DemoteIdempotent(tasks: map<TaskId, Task>, e: ExperimentId)
    ensures Demote(Demote(tasks, e), e) == Demote(tasks, e)
  {
  }

  /** `unlock_machine_by_experiment(e)`: the machines the experiment holds become free. */
  function UnlockByExperiment(ms: seq<Machine>, e: ExperimentId): (r: seq<Machine>)
    ensures |r| == |ms|
    ensures forall i :: 0 <= i < |ms| ==>
      r[i].lock != Locked(Some(e)) &&
      r[i].name == ms[i].name && r[i].ip == ms[i].ip && r[i].tags == ms[i].tags &&
      (ms[i].lock == Locked(Some(e)) ==> r[i].lock == Free) &&
      (ms[i].lock != Locked(Some(e)) ==> r[i] == ms[i])
  {
    seq(|ms|, i requires 0 <= i < |ms| =>
      if ms[i].lock == Locked(Some(e)) then ms[i].(lock := Free) else ms[i])
  }

  /** Releasing a second time changes nothing. */
  lemma UnlockIdempotent(ms: seq<Machine>, e: ExperimentId)
    ensures UnlockByExperiment(UnlockByExperiment(ms, e), e) == UnlockByExperiment(ms, e)
  {
  }

  /** The number of machines locked by experiment `e`. */
  function HeldBy(ms: seq<Machine>, e: ExperimentId): nat
  {
    if ms == [] then 0
    else HeldBy(ms[..|ms| - 1], e) + (if ms[|ms| - 1].lock == Locked(Some(e)) then 1 else 0)
  }

  /**
   * Releasing makes exactly the machines the experiment held available, so
   * never fewer machines than before.
   */
  lemma {:induction false} UnlockKeepsAvailable(ms: seq<Machine>, e: ExperimentId)
    ensures CountAvailable(UnlockByExperiment(ms, e)) == CountAvailable(ms) + HeldBy(ms, e)
    ensures CountAvailable(UnlockByExperiment(ms, e)) >= CountAvailable(ms)
  {
    if ms != [] {
      var r := UnlockByExperiment(ms, e);
      UnlockKeepsAvailable(ms[..|ms| - 1], e);
      assert r[..|r| - 1] == UnlockByExperiment(ms[..|ms| - 1], e);
    }
  }

  /** Some id of a non-empty set. */
  lemma AnyTask(ids: set<TaskId>) returns (t: TaskId)
    requires ids != {}
    ensures t in ids
  {
    assert (forall u :: u !in ids) ==> ids == {};
    t :| t in ids;
  }

  // ---------------------------------------------------------------------
  // The views on store values

  /** `schedule`: an unscheduled task becomes scheduled; any other task is left as it is. */
  function ScheduleStep(s: Store, id: TaskId): Step
  {
    if id !in s.tasks then Step(s, Failure(TaskNotFound))
    else if s.tasks[id].status == Unscheduled then
      Step(s.(tasks := s.tasks[id := s.tasks[id].(status := Scheduled)]), Success(ScheduledMessage))
    else Step(s, Success(ScheduledMessage))
  }

  /** `unschedule`: a scheduled task becomes unscheduled; any other task is left as it is. */
  function UnscheduleStep(s: Store, id: TaskId): Step
  {
    if id !in s.tasks then Step(s, Failure(TaskNotFound))
    else if s.tasks[id].status == Scheduled then
      Step(s.(tasks := s.tasks[id := s.tasks[id].(status := Unscheduled)]), Success(UnscheduledMessage))
    else Step(s, Success(UnscheduledMessage))
  }

  /** The last step of `terminate`: an experiment without tasks is deleted. */
  function DropIfEmpty(s: Store, e: ExperimentId): Store
  {
    if TasksOf(s.tasks, e) == {} then s.(experiments := s.experiments - {e}) else s
  }

  /**
   * `terminate` as intended: delete the task; unless it was pending, demote
   * the experiment's other running tasks to single-shot, or release the
   * experiment's machine when none is running; delete the experiment when no
   * task is left.
   */
  function TerminateStep(s: Store, id: TaskId): Step
  {
    if id !in s.tasks then Step(s, Failure(TaskNotFound))
    else
      var task := s.tasks[id];
      var e := task.experiment;
      var s1 := s.(tasks := s.tasks - {id});
      var s2 :=
        if task.status == Pending then s1
        else if RunningOf(s1.tasks, e) != {} then s1.(tasks := Demote(s1.tasks, e))
        else s1.(machines := UnlockByExperiment(s1.machines, e));
      Step(DropIfEmpty(s2, e), Success(TerminatedMessage))
  }

  /**
   * `terminate` as the source has it: the demotion branch refers to
   * `TASK_SINGLE`, which the module never imports, so that branch raises a
   * NameError after the task was deleted — the machine stays locked, the
   * running tasks keep recurring and the experiment step is not reached.
   * The same line also assigns `repeat` to the list `list_tasks` returned,
   * not to the tasks in it, so even with the import the running tasks would
   * not be demoted (Python lists take no new attributes, so it would raise
   * an AttributeError instead).
   */
  function TerminateAsWrittenStep(s: Store, id: TaskId): Step
  {
    if id !in s.tasks then Step(s, Failure(TaskNotFound))
    else
      var task := s.tasks[id];
      var e := task.experiment;
      var s1 := s.(tasks := s.tasks - {id});
      if task.status == Pending then Step(DropIfEmpty(s1, e), Success(TerminatedMessage))
      else if RunningOf(s1.tasks, e) != {} then Step(s1, Failure(UndefinedName("TASK_SINGLE")))
      else Step(DropIfEmpty(s1.(machines := UnlockByExperiment(s1.machines, e)), e), Success(TerminatedMessage))
  }

  /** `remove`: the task is deleted only when exactly one analysis record carries its id. */
  function RemoveStep(s: Store, id: TaskId): Step
  {
    var n := s.analyses[id];
    if n == 1 then
      Step(s.(analyses := s.analyses[id := 0], tasks := s.tasks - {id}), Success(DeletedMessage))
    else if n == 0 then Step(s, Failure(AnalysisMissing))
    else Step(s, Failure(AnalysisDuplicated))
  }

  // ---------------------------------------------------------------------
  // Properties of the views

  /** Every task belongs to a recorded experiment, and no experiment holds two machines. */
  ghost predicate Valid(s: Store)
  {
    (forall t :: t in s.tasks ==> s.tasks[t].experiment in s.experiments) &&
    (forall i, j :: 0 <= i < j < |s.machines| && s.machines[i].lock.Locked? && s.machines[i].lock.owner.Some? ==>
       s.machines[j].lock != s.machines[i].lock)
  }

  /** `schedule` flips the status of the named task from UNSCHEDULED to SCHEDULED and changes nothing else. */
  lemma ScheduleOnlyFlipsUnscheduled(s: Store, id: TaskId)
    ensures var r := ScheduleStep(s, id);
      && (r.reply == Failure(TaskNotFound) <==> id !in s.tasks)
      && (id in s.tasks ==> r.reply == Success(ScheduledMessage))
      && r.after.tasks.Keys == s.tasks.Keys
      && (forall t :: t in s.tasks ==>
            r.after.tasks[t] ==
              if t == id && s.tasks[t].status == Unscheduled then s.tasks[t].(status := Scheduled) else s.tasks[t])
      && r.after.experiments == s.experiments && r.after.machines == s.machines && r.after.analyses == s.analyses
  {
  }

  /** `unschedule` flips the status of the named task from SCHEDULED to UNSCHEDULED and changes nothing else. */
  lemma UnscheduleOnlyFlipsScheduled(s: Store, id: TaskId)
    ensures var r := UnscheduleStep(s, id);
      && (r.reply == Failure(TaskNotFound) <==> id !in s.tasks)
      && (id in s.tasks ==> r.reply == Success(UnscheduledMessage))
      && r.after.tasks.Keys == s.tasks.Keys
      && (forall t :: t in s.tasks ==>
            r.after.tasks[t] ==
              if t == id && s.tasks[t].status == Scheduled then s.tasks[t].(status := Unscheduled) else s.tasks[t])
      && r.after.experiments == s.experiments && r.after.machines == s.machines && r.after.analyses == s.analyses
  {
  }

  /** Unscheduling an unscheduled task that was just scheduled restores the store. */
  lemma UnscheduleUndoesSchedule(s: Store, id: TaskId)
    requires id in s.tasks && s.tasks[id].status == Unscheduled
    ensures UnscheduleStep(ScheduleStep(s, id).after, id).after == s
  {
    var t := s.tasks[id];
    assert s.tasks[id := t.(status := Scheduled)][id := t] == s.tasks;
  }

  /** Scheduling and unscheduling are idempotent. */
  lemma ScheduleIdempotent(s: Store, id: TaskId)
    ensures ScheduleStep(ScheduleStep(s, id).after, id) == ScheduleStep(s, id)
    ensures UnscheduleStep(UnscheduleStep(s, id).after, id) == UnscheduleStep(s, id)
  {
  }

  /** `terminate` always removes the task it names, and fails without change on an unknown one. */
  lemma TerminateRemovesTask(s: Store, id: TaskId)
    ensures var r := TerminateStep(s, id);
      && (id !in s.tasks ==> r == Step(s, Failure(TaskNotFound)))
      && (id in s.tasks ==> r.reply == Success(TerminatedMessage) && r.after.tasks.Keys == s.tasks.Keys - {id})
      && r.after.analyses == s.analyses
  {
  }

  /** Terminating a pending task touches neither the machines nor the other tasks. */
  lemma TerminatePendingTouchesNothingElse(s: Store, id: TaskId)
    requires id in s.tasks && s.tasks[id].status == Pending
    ensures var r := TerminateStep(s, id);
      r.after.machines == s.machines && r.after.tasks == s.tasks - {id}
  {
  }

  /**
   * Terminating a task that is not pending releases the experiment's machine
   * exactly when no other task of the experiment is running; otherwise the
   * machine stays locked and the running tasks become single-shot.
   */
  lemma TerminateReleasesOrDemotes(s: Store, id: TaskId)
    requires id in s.tasks && s.tasks[id].status != Pending
    ensures var e := s.tasks[id].experiment;
      var rest := s.tasks - {id};
      var r := TerminateStep(s, id);
      && (RunningOf(rest, e) == {} ==> r.after.machines == UnlockByExperiment(s.machines, e) && r.after.tasks == rest)
      && (RunningOf(rest, e) != {} ==> r.after.machines == s.machines && r.after.tasks == Demote(rest, e))
  {
  }

  /** After `terminate` the task's experiment is gone exactly when none of its tasks is left; other experiments stay. */
  lemma TerminateDropsEmptyExperiment(s: Store, id: TaskId)
    requires id in s.tasks
    ensures var e := s.tasks[id].experiment;
      var r := TerminateStep(s, id);
      && r.after.experiments - {e} == s.experiments - {e}
      && (e in r.after.experiments <==> e in s.experiments && TasksOf(r.after.tasks, e) != {})
  {
  }

  /** The running check after deletion sees only the experiment's other tasks. */
  lemma TerminateIgnoresItself(s: Store, id: TaskId)
    requires id in s.tasks && s.tasks[id].status == Running
    requires forall t :: t in s.tasks && t != id ==> s.tasks[t].experiment != s.tasks[id].experiment
    ensures TerminateStep(s, id).after.machines == UnlockByExperiment(s.machines, s.tasks[id].experiment)
  {
    var e := s.tasks[id].experiment;
    assert forall t :: t !in RunningOf(s.tasks - {id}, e);
    assert (forall t :: t !in RunningOf(s.tasks - {id}, e)) ==> RunningOf(s.tasks - {id}, e) == {};
  }

  /** A second `terminate` of the same task finds nothing and changes nothing. */
  lemma TerminateTwice(s: Store, id: TaskId)
    ensures var once := TerminateStep(s, id).after;
      TerminateStep(once, id) == Step(once, Failure(TaskNotFound))
  {
  }

  /** `terminate` keeps the store valid. */
  lemma TerminatePreservesValid(s: Store, id: TaskId)
    requires Valid(s)
    ensures Valid(TerminateStep(s, id).after)
  {
    if id in s.tasks {
      var e := s.tasks[id].experiment;
      var r := TerminateStep(s, id).after;
      forall t | t in r.tasks ensures r.tasks[t].experiment in r.experiments {
        assert t in TasksOf(r.tasks, r.tasks[t].experiment);
      }
      forall i, j | 0 <= i < j < |r.machines| && r.machines[i].lock.Locked? && r.machines[i].lock.owner.Some?
        ensures r.machines[j].lock != r.machines[i].lock
      {
        assert r.machines[i] == s.machines[i] && (r.machines[j] == s.machines[j] || r.machines[j].lock == Free);
      }
    }
  }

  /** `remove` deletes the task exactly when one analysis record matches; otherwise the store is untouched. */
  lemma RemoveDecision(s: Store, id: TaskId)
    ensures var r := RemoveStep(s, id);
      && (r.reply == Success(DeletedMessage) <==> s.analyses[id] == 1)
      && (s.analyses[id] == 1 ==>
            r.after.tasks == s.tasks - {id} && r.after.analyses[id] == 0 &&
            r.after.machines == s.machines && r.after.experiments == s.experiments)
      && (s.analyses[id] == 0 <==> r.reply == Failure(AnalysisMissing))
      && (s.analyses[id] > 1 <==> r.reply == Failure(AnalysisDuplicated))
      && (s.analyses[id] != 1 ==> r.after == s)
  {
  }

  /**
   * The source and the intended `terminate` agree except when a task that is
   * not pending leaves running siblings: the source then fails after deleting
   * the task, releases nothing, demotes nothing, and still keeps the experiment.
   */
  lemma TerminateAsWrittenDiffers(s: Store, id: TaskId)
    ensures var w := TerminateAsWrittenStep(s, id);
      var c := TerminateStep(s, id);
      if id in s.tasks && s.tasks[id].status != Pending && RunningOf(s.tasks - {id}, s.tasks[id].experiment) != {}
      then
        && w.reply == Failure(UndefinedName("TASK_SINGLE")) && c.reply == Success(TerminatedMessage)
        && w.after.tasks == s.tasks - {id} && c.after.tasks == Demote(s.tasks - {id}, s.tasks[id].experiment)
        && w.after.machines == s.machines && w.after.experiments == c.after.experiments
      else w == c
  {
    if id in s.tasks && s.tasks[id].status != Pending {
      var e := s.tasks[id].experiment;
      var rest := s.tasks - {id};
      if RunningOf(rest, e) != {} {
        var running := RunningOf(rest, e);
        var t := AnyTask(running);
        assert t in TasksOf(Demote(rest, e), e);
      }
    }
  }

  /** Two running tasks of experiment 1, whose machine is locked; the first is terminated. */
  function TwoRunning(): Store
  {
    Store(map[1 := Task(Running, Recurrent, 1), 2 := Task(Running, Recurrent, 1)], {1},
          [Machine("egg01", "192.168.56.3", ["longterm"], Locked(Some(1)))], multiset{})
  }

  /** On that store the source errors out and task 2 keeps recurring; the intended view demotes it. */
  lemma TerminateAsWrittenKeepsRecurring()
    ensures TerminateAsWrittenStep(TwoRunning(), 1).reply == Failure(UndefinedName("TASK_SINGLE"))
    ensures TerminateAsWrittenStep(TwoRunning(), 1).after.tasks == map[2 := Task(Running, Recurrent, 1)]
    ensures TerminateStep(TwoRunning(), 1).after.tasks == map[2 := Task(Running, Single, 1)]
    ensures TerminateStep(TwoRunning(), 1).after.machines == TwoRunning().machines
  {
    var s := TwoRunning();
    var rest := s.tasks - {1};
    assert rest == map[2 := Task(Running, Recurrent, 1)];
    assert 2 in RunningOf(rest, 1);
    assert Demote(rest, 1) == map[2 := Task(Running, Single, 1)];
  }

  // ---------------------------------------------------------------------
  // The store as the views change it

  class TaskStore {
    var tasks: map<TaskId, Task>
    var experiments: set<ExperimentId>
    var machines: seq<Machine>
    var analyses: multiset<TaskId>

    function State(): Store
      reads this
    {
      Store(tasks, experiments, machines, analyses)
    }

    constructor(s: Store)
      ensures State() == s
    {
      tasks, experiments, machines, analyses := s.tasks, s.experiments, s.machines, s.analyses;
    }

    /** `view_task`. */
    method ViewTask(id: TaskId) returns (t: Option<Task>)
      ensures t.Some? <==> id in tasks
      ensures t.Some? ==> t.value == tasks[id]
    {
      t := if id in tasks then Some(tasks[id]) else None;
    }

    /** `set_status`. */
    method SetStatus(id: TaskId, status: Status)
      requires id in tasks
      modifies this
      ensures tasks == old(tasks)[id := old(tasks)[id].(status := status)]
      ensures experiments == old(experiments) && machines == old(machines) && analyses == old(analyses)
    {
      tasks := tasks[id := tasks[id].(status := status)];
    }

    /** Changing a task's repeat mode. */
    method SetRepeat(id: TaskId, repeat: Repeat)
      requires id in tasks
      modifies this
      ensures tasks == old(tasks)[id := old(tasks)[id].(repeat := repeat)]
      ensures experiments == old(experiments) && machines == old(machines) && analyses == old(analyses)
    {
      tasks := tasks[id := tasks[id].(repeat := repeat)];
    }

    /** `delete_task`. */
    method DeleteTask(id: TaskId)
      modifies this
      ensures tasks == old(tasks) - {id}
      ensures experiments == old(experiments) && machines == old(machines) && analyses == old(analyses)
    {
      tasks := tasks - {id};
    }

    /** `list_tasks(experiment=e)`, and with `status=TASK_RUNNING`. */
    method ListTasks(e: ExperimentId, runningOnly: bool) returns (ids: set<TaskId>)
      ensures ids == if runningOnly then RunningOf(tasks, e) else TasksOf(tasks, e)
    {
      ids := if runningOnly then RunningOf(tasks, e) else TasksOf(tasks, e);
    }

    /** `unlock_machine_by_experiment`. */
    method UnlockMachineByExperiment(e: ExperimentId)
      modifies this
      ensures machines == UnlockByExperiment(old(machines), e)
      ensures tasks == old(tasks) && experiments == old(experiments) && analyses == old(analyses)
    {
      machines := UnlockByExperiment(machines, e);
    }

    /** `delete_experiment`. */
    method DeleteExperiment(e: ExperimentId)
      modifies this
      ensures experiments == old(experiments) - {e}
      ensures tasks == old(tasks) && machines == old(machines) && analyses == old(analyses)
    {
      experiments := experiments - {e};
    }

    method Schedule(id: TaskId) returns (reply: Reply)
      modifies this
      ensures Step(State(), reply) == ScheduleStep(old(State()), id)
    {
      var task := ViewTask(id);
      if task.None? {
        return Failure(TaskNotFound);
      }
      if task.value.status == Unscheduled {
        SetStatus(id, Scheduled);
      }
      return Success(ScheduledMessage);
    }

    method Unschedule(id: TaskId) returns (reply: Reply)
      modifies this
      ensures Step(State(), reply) == UnscheduleStep(old(State()), id)
    {
      var task := ViewTask(id);
      if task.None? {
        return Failure(TaskNotFound);
      }
      if task.value.status == Scheduled {
        SetStatus(id, Unscheduled);
      }
      return Success(UnscheduledMessage);
    }

    /** Switches every task in `running` to single-shot, one at a time. */
    method DemoteAll(running: set<TaskId>, ghost e: ExperimentId)
      requires running == RunningOf(tasks, e)
      modifies this
      ensures tasks == Demote(old(tasks), e)
      ensures experiments == old(experiments) && machines == old(machines) && analyses == old(analyses)
    {
      var todo := running;
      while todo != {}
        invariant todo <= running
        invariant tasks.Keys == old(tasks).Keys
        invariant forall t :: t in tasks ==>
          tasks[t] == if t in running - todo then old(tasks)[t].(repeat := Single) else old(tasks)[t]
        invariant experiments == old(experiments) && machines == old(machines) && analyses == old(analyses)
        decreases todo
      {
        ghost var some := AnyTask(todo);
        var next :| next in todo;
        SetRepeat(next, Single);
        todo := todo - {next};
      }
      assert forall t :: t in tasks ==> tasks[t] == Demote(old(tasks), e)[t];
    }

    /** The view with the demotion carried out on each running task. */
    method Terminate(id: TaskId) returns (reply: Reply)
      modifies this
      ensures Step(State(), reply) == TerminateStep(old(State()), id)
    {
      var task := ViewTask(id);
      DeleteTask(id);
      if task.None? {
        return Failure(TaskNotFound);
      }
      var e := task.value.experiment;
      if task.value.status != Pending {
        var running := ListTasks(e, true);
        if running != {} {
          DemoteAll(running, e);
        } else {
          UnlockMachineByExperiment(e);
        }
      }
      var left := ListTasks(e, false);
      if left == {} {
        DeleteExperiment(e);
      }
      return Success(TerminatedMessage);
    }

    /** The view as the source runs it, stopping with a NameError in the demotion branch. */
    method TerminateAsWritten(id: TaskId) returns (reply: Reply)
      modifies this
      ensures Step(State(), reply) == TerminateAsWrittenStep(old(State()), id)
    {
      var task := ViewTask(id);
      DeleteTask(id);
      if task.None? {
        return Failure(TaskNotFound);
      }
      var e := task.value.experiment;
      if task.value.status != Pending {
        var running := ListTasks(e, true);
        if running != {} {
          return Failure(UndefinedName("TASK_SINGLE"));
        } else {
          UnlockMachineByExperiment(e);
        }
      }
      var left := ListTasks(e, false);
      if left == {} {
        DeleteExperiment(e);
      }
      return Success(TerminatedMessage);
    }

    method Remove(id: TaskId) returns (reply: Reply)
      modifies this
      ensures Step(State(), reply) == RemoveStep(old(State()), id)
    {
      var count := analyses[id];
      if count == 1 {
        analyses := analyses[id := 0];
      } else if count == 0 {
        return Failure(AnalysisMissing);
      } else {
        return Failure(AnalysisDuplicated);
      }
      DeleteTask(id);
      return Success(DeletedMessage);
    }
  }
}
