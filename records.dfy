/**
 * The persisted records the scheduler reads and writes: tasks, their
 * status and recurrence mode, and machines with their lock.
 */
module Records {
  import opened Wrappers

  type TaskId = int
  type ExperimentId = int

  /** The task states of the task table. */
  datatype Status = Pending | Scheduled | Unscheduled | Running | Completed | Reported | Failed

  /** `TASK_SINGLE` or `TASK_RECURRENT`. */
  datatype Repeat = Single | Recurrent

  /** The columns of a task row that the lifecycle views use. */
  datatype Task = Task(status: Status, repeat: Repeat, experiment: ExperimentId)

  /** A machine is free, or locked, by an experiment or by an ordinary analysis. */
  datatype Lock = Free | Locked(owner: Option<ExperimentId>)

  datatype Machine = Machine(name: string, ip: string, tags: seq<string>, lock: Lock)

  predicate Available(m: Machine) {
    m.lock == Free
  }

  /** `count_machines_available()`: the number of machines that are not locked. */
  function CountAvailable(ms: seq<Machine>): (n: nat)
    ensures n <= |ms|
  {
    if ms == [] then 0
    else CountAvailable(ms[..|ms| - 1]) + (if Available(ms[|ms| - 1]) then 1 else 0)
  }

  /** The addresses of the machines, in table order. */
  function Addresses(ms: seq<Machine>): (ips: seq<string>)
    ensures |ips| == |ms| && forall i :: 0 <= i < |ms| ==> ips[i] == ms[i].ip
  {
    seq(|ms|, i requires 0 <= i < |ms| => ms[i].ip)
  }

  /** Python's `max()` of a non-empty list. */
  function Max(s: seq<int>): (m: int)
    requires s != []
    ensures m in s && forall i :: 0 <= i < |s| ==> s[i] <= m
  {
    if |s| == 1 then s[0]
    else
      var m := Max(s[1..]);
      assert s[1..][0] in s;
      if s[0] >= m then s[0] else m
  }
}
