/** One call of `blocking` (Blocking.swift) as its own thread and its detached
    task change it: each method is one step of the scheduler's, and keeps what
    the scheduler's invariant says of a call. */
module BlockingCall {
  import opened Wrappers
  import opened Scheduler
  import opened SchedulerLaws

  /** What `blocking` throws: what its body threw, or `BridgeError.noOutcome`. */
  datatype Thrown = Own(error: nat) | NoOutcome

  class Blocking {
    const body: Body
    var pending: Option<Body>
    var taken: Option<Body>
    var outcome: Option<Outcome>
    var semaphore: nat
    var task: Task

    function View(): Call
      reads this
    {
      Call(body, pending, taken, outcome, semaphore, task)
    }

    ghost predicate Valid()
      reads this
    {
      ValidCall(View())
    }

    /** The shared variables are made, and the task detached. */
    constructor (body: Body)
      ensures this.body == body && Valid() && task == Queued
      ensures forall returned, threw ::
                ThreadStep(false, At(Closure.Blocking(body, returned, threw)), InBlocking(View(), returned, threw), 0)
    {
      this.body := body;
      pending := Some(body);
      taken := None;
      outcome := None;
      semaphore := 0;
      task := Queued;
    }

    /** A worker takes the task. */
    method Start()
      requires Valid() && task.Queued?
      modifies this
      ensures Valid() && CallStep(true, old(View()), View(), 0) && task == Started
    {
      task := Started;
    }

    /** `pending.take()`. Where there was nothing to take, the task would leave its
        scope without an outcome. */
    method TakeBody()
      requires Valid() && task.Started?
      modifies this
      ensures Valid() && CallStep(false, old(View()), View(), 0)
      ensures pending == None && taken == Some(body) && task == Working(Running(body))
    {
      taken := pending;
      pending := None;
      task := if taken.Some? then Working(Running(taken.value)) else Leaving;
    }

    /** Anything the awaited body does, or that is done for it. */
    method Await(ghost free: bool, job: Job, ghost exits: int)
      requires Valid() && task.Working? && JobStep(free, task.job, job, exits)
      modifies this
      ensures Valid() && CallStep(free, old(View()), View(), exits) && task == Working(job)
    {
      ghost var before := View();
      NotDone(free, task.job, job, exits);
      task := Working(job);
      hide JobStep, ValidCall;
      CallStepKeepsMeaning(free, before, View(), exits);
    }

    /** The body has ended, and what it came to is assigned. */
    method Assign()
      requires Valid() && task.Working? && task.job.Running? && task.job.rest.Done?
      modifies this
      ensures Valid() && CallStep(false, old(View()), View(), 0)
      ensures outcome == Some(Meaning(body)) && task == Leaving
    {
      outcome := Some(task.job.rest.outcome);
      task := Leaving;
    }

    /** The task leaves the scope of the body it took. */
    method Release()
      requires Valid() && task.Leaving?
      modifies this
      ensures Valid() && CallStep(false, old(View()), View(), 0) && taken == None && task == Released
    {
      taken := None;
      task := Released;
    }

    /** The one signal, when no variable has the body any more. */
    method Signal()
      requires Valid() && task.Released?
      modifies this
      ensures Valid() && CallStep(false, old(View()), View(), 0)
      ensures semaphore == 1 && pending == None && taken == None && outcome == Some(Meaning(body)) && task == Signalled
    {
      semaphore := semaphore + 1;
      task := Signalled;
    }

    /** The task ends. It may do so before the caller goes on, or after. */
    method Exit()
      requires Valid() && task.Signalled?
      modifies this
      ensures Valid() && CallStep(false, old(View()), View(), 0) && semaphore == old(semaphore)
    {
      task := Exited;
    }

    /** What the caller does once its wait returns. It takes the signal, and reads
        what its own body returned or threw: the guard is never taken. */
    method Wait() returns (r: Result<nat, Thrown>)
      requires Valid() && semaphore > 0
      modifies this
      ensures semaphore == 0 && pending == None && taken == None
      ensures Meaning(body).Success? ==> r == Ok(Meaning(body).value)
      ensures Meaning(body).Failure? ==> r == Err(Own(Meaning(body).error))
      ensures forall returned, threw ::
                ThreadStep(false, InBlocking(old(View()), returned, threw), At(if r.Ok? then returned else threw),
                           if old(task).Signalled? then 1 else 0)
    {
      semaphore := semaphore - 1;
      if outcome == None {
        return Err(NoOutcome);
      }
      r := match outcome.value
        case Success(value) => Ok(value)
        case Failure(error) => Err(Own(error));
    }
  }

  /** A body that has ended takes no step. */
  lemma NotDone(free: bool, j: Job, j': Job, exits: int)
    requires JobStep(free, j, j', exits)
    ensures !(j.Running? && j.rest.Done?)
  {
  }

  /** `jobs` is how the body went, from when the task took it to its end, with
      whatever workers were free and whatever exited at each step. */
  ghost predicate Goes(body: Body, jobs: seq<Job>) {
    && |jobs| > 0 && jobs[0] == Running(body)
    && (forall k | 0 <= k < |jobs| - 1 :: Moves(jobs[k], jobs[k + 1]))
    && jobs[|jobs| - 1].Running? && jobs[|jobs| - 1].rest.Done?
  }

  ghost predicate Moves(j: Job, j': Job) {
    exists free, exits :: JobStep(free, j, j', exits)
  }

  /** A whole call: however its body goes, it returns or throws what the body
      means, whether the task exits before the caller goes on or not. */
  method Run(body: Body, jobs: seq<Job>, exitsFirst: bool) returns (r: Result<nat, Thrown>)
    requires Goes(body, jobs)
    ensures Meaning(body).Success? ==> r == Ok(Meaning(body).value)
    ensures Meaning(body).Failure? ==> r == Err(Own(Meaning(body).error))
  {
    hide JobStep, ValidCall, CallStep, ThreadStep, Meaning;
    var call := new Blocking(body);
    call.Start();
    call.TakeBody();
    for k := 0 to |jobs| - 1
      invariant call.Valid() && call.body == body && call.task == Working(jobs[k])
    {
      ghost var free, exits :| JobStep(free, jobs[k], jobs[k + 1], exits);
      call.Await(free, jobs[k + 1], exits);
    }
    call.Assign();
    call.Release();
    call.Signal();
    if exitsFirst {
      call.Exit();
    }
    r := call.Wait();
  }
}
