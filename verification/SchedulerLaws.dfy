/**
 What every run of the scheduler keeps: each call returns what its own body
 means, runs are finite, and the pool jams exactly when every worker is parked.
 */
module SchedulerLaws {
  import opened Wrappers
  import opened Scheduler

  /******* The invariant *******/

  predicate ValidThread(t: Thread)
    decreases t
  {
    t.InBlocking? ==> ValidCall(t.call)
  }

  /** The shared variables at each point of the detached task. Once it has
      signalled, `outcome` is what the call's own body means. */
  predicate ValidCall(c: Call)
    decreases c
  {
    match c.task
    case Queued => c.pending == Some(c.body) && c.taken == None && c.outcome == None && c.signals == 0
    case Started => c.pending == Some(c.body) && c.taken == None && c.outcome == None && c.signals == 0
    case Working(job) =>
      && c.pending == None && c.taken == Some(c.body) && c.outcome == None && c.signals == 0
      && !job.Finished? && ValidJob(job) && JobMeaning(job) == Meaning(c.body)
    case Leaving =>
      c.pending == None && c.taken == Some(c.body) && c.outcome == Some(Meaning(c.body)) && c.signals == 0
    case Released => c.pending == None && c.taken == None && c.outcome == Some(Meaning(c.body)) && c.signals == 0
    case _ => c.pending == None && c.taken == None && c.outcome == Some(Meaning(c.body)) && c.signals == 1
  }

  predicate ValidJob(j: Job)
    decreases j
  {
    match j
    case Suspended(closure, _, _) => ValidThread(closure)
    case Inlined(closure, _, _) => ValidThread(closure)
    case Joining(children, _, _) => forall i | 0 <= i < |children| :: ValidJob(children[i])
    case _ => true
  }

  lemma {:induction false} ThreadStepKeepsMeaning(free: bool, t: Thread, t': Thread, exits: int)
    requires ValidThread(t) && ThreadStep(free, t, t', exits)
    ensures ValidThread(t') && ThreadMeaning(t') == ThreadMeaning(t)
    decreases t, 0
  {
    if t.InBlocking? && t'.InBlocking? {
      CallStepKeepsMeaning(free, t.call, t'.call, exits);
    }
  }

  lemma {:induction false} CallStepKeepsMeaning(free: bool, c: Call, c': Call, exits: int)
    requires ValidCall(c) && CallStep(free, c, c', exits)
    ensures ValidCall(c') && c'.body == c.body
    decreases c, 0
  {
    if c.task.Working? && c'.task.Working? {
      JobStepKeepsMeaning(free, c.task.job, c'.task.job, exits);
    }
  }

  lemma {:induction false} JobStepKeepsMeaning(free: bool, j: Job, j': Job, exits: int)
    requires ValidJob(j) && JobStep(free, j, j', exits)
    ensures ValidJob(j') && JobMeaning(j') == JobMeaning(j)
    decreases j, 0
  {
    match j
    case Running(Group(children, _, _)) =>
      assert forall i | 0 <= i < |children| :: JobMeaning(Readied(children)[i]) == Meaning(children[i]);
    case Suspended(closure, _, _) =>
      if j'.Suspended? { ThreadStepKeepsMeaning(free, closure, j'.closure, exits); }
    case Inlined(closure, _, _) =>
      if j'.Inlined? { ThreadStepKeepsMeaning(free, closure, j'.closure, exits); }
    case Joining(children, _, _) =>
      if j'.Joining? {
        var i :| 0 <= i < |children| && j'.children == children[i := j'.children[i]]
                 && ChildStep(free, children[i], j'.children[i], exits);
        if JobStep(free, children[i], j'.children[i], exits) {
          JobStepKeepsMeaning(free, children[i], j'.children[i], exits);
        }
        assert forall k | 0 <= k < |children| :: ValidJob(j'.children[k])
                                                 && JobMeaning(j'.children[k]) == JobMeaning(children[k]);
      }
    case _ =>
  }

  /******* Workers and work *******/

  lemma {:induction false} TotalUpdate(loads: seq<Load>, i: nat, load: Load)
    requires i < |loads|
    ensures Total(loads[i := load]).Plus(loads[i]) == Total(loads).Plus(load)
  {
    if i == 0 {
      assert loads[i := load][1..] == loads[1..];
    } else {
      TotalUpdate(loads[1..], i - 1, load);
      assert loads[i := load][1..] == loads[1..][i - 1 := load];
    }
  }

  lemma {:induction false} TotalIdle(loads: seq<Load>)
    requires forall i | 0 <= i < |loads| :: loads[i] == Load(0, 0, 0)
    ensures Total(loads) == Load(0, 0, 0)
  {
    if loads != [] {
      var rest := loads[1..];
      assert forall i | 0 <= i < |rest| :: rest[i] == loads[i + 1];
      TotalIdle(rest);
    }
  }

  lemma {:induction false} NoneHeld(loads: seq<Load>)
    requires forall i | 0 <= i < |loads| :: loads[i].Workers() == 0
    ensures Total(loads).Workers() == 0
  {
    if loads != [] {
      var rest := loads[1..];
      assert forall i | 0 <= i < |rest| :: rest[i] == loads[i + 1];
      NoneHeld(rest);
    }
  }

  lemma {:induction false} ReadiedLoad(bs: seq<Body>)
    ensures Total(JobLoads(Readied(bs))) == Load(0, 0, BodiesWork(bs))
  {
    if bs == [] {
      assert JobLoads(Readied(bs)) == [];
    } else {
      ReadiedLoad(bs[1..]);
      var loads := JobLoads(Readied(bs));
      assert loads[1..] == JobLoads(Readied(bs[1..]));
      assert loads[0] == JobLoad(Ready(bs[0])) == Load(0, 0, 1 + BodyWork(bs[0]));
    }
  }

  /** A step uses work up, takes a worker only when one is free, and, where
      every worker in use is parked, leaves every one of them parked. */
  ghost predicate LoadSteps(free: bool, before: Load, after: Load, exits: int) {
    && exits >= 0
    && after.work + exits < before.work
    && after.Workers() + exits <= before.Workers() + (if free then 1 else 0)
    && (!free && before.busy == 0 ==> after.busy == 0 && after.parked == before.parked && exits == 0)
  }

  lemma {:induction false} TotalSteps(free: bool, loads: seq<Load>, i: nat, load: Load, exits: int)
    requires i < |loads| && LoadSteps(free, loads[i], load, exits)
    ensures LoadSteps(free, Total(loads), Total(loads[i := load]), exits)
  {
    TotalUpdate(loads, i, load);
    TotalUpdate(loads, i, Load(0, 0, 0));
  }

  /** When a call returns, a task that has yet to exit keeps its worker. */
  lemma ReturnKeepsWorkers(free: bool, t: Thread, t': Thread, exits: int)
    requires ValidThread(t) && ThreadStep(free, t, t', exits) && t.InBlocking? && t'.At?
    ensures ThreadLoad(t).Workers() == ThreadLoad(t').Workers() + exits
    ensures exits == if t.call.task.Exited? then 0 else 1
  {
    hide TaskLoad, ClosureWork, CallStep;
    PlainLoads(t.call.pending);
    AtLoad(t'.closure);
  }

  lemma {:induction false} ThreadStepLoad(free: bool, t: Thread, t': Thread, exits: int)
    requires ValidThread(t) && ThreadStep(free, t, t', exits)
    ensures LoadSteps(free, ThreadLoad(t), ThreadLoad(t'), exits)
    ensures !free && ThreadLoad(t).busy == 0 && Waiting(t) ==> Waiting(t')
    decreases t, 0
  {
    if t.InBlocking? && t'.InBlocking? {
      CallStepLoad(free, t.call, t'.call, exits);
    }
  }

  lemma {:induction false} CallStepLoad(free: bool, c: Call, c': Call, exits: int)
    requires ValidCall(c) && CallStep(free, c, c', exits)
    ensures LoadSteps(free, TaskLoad(c.task, c.pending), TaskLoad(c'.task, c'.pending), exits)
    ensures c'.signals != c.signals ==> TaskLoad(c.task, c.pending).busy > 0
    decreases c, 1
  {
    if c.task.Working? {
      WorkingStepLoad(free, c, c', exits);
    } else {
      PlainStepLoad(free, c, c', exits);
    }
  }

  lemma PlainStepLoad(free: bool, c: Call, c': Call, exits: int)
    requires ValidCall(c) && CallStep(free, c, c', exits) && !c.task.Working?
    ensures LoadSteps(free, TaskLoad(c.task, c.pending), TaskLoad(c'.task, c'.pending), exits)
    ensures c'.signals != c.signals ==> TaskLoad(c.task, c.pending).busy > 0
  {
    hide TaskLoad, JobLoad, BodyWork, JobMeaning, Meaning, JobStep, ValidJob;
    PlainLoads(c.pending);
    if c.task.Started? {
      RunningLoad(c.body);
      WorkingLoad(Running(c.body), None);
    }
  }

  lemma PlainLoads(pending: Option<Body>)
    ensures var taken := if pending.Some? then BodyWork(pending.value) else 0;
            && TaskLoad(Queued, pending) == Load(0, 0, 5 + taken)
            && TaskLoad(Started, pending) == Load(1, 0, 4 + taken)
            && TaskLoad(Leaving, pending) == Load(1, 0, 3)
            && TaskLoad(Released, pending) == Load(1, 0, 2)
            && TaskLoad(Signalled, pending) == Load(1, 0, 1)
            && TaskLoad(Exited, pending) == Load(0, 0, 0)
  {
    hide BodyWork;
  }

  lemma RunningLoad(b: Body)
    ensures JobLoad(Running(b)) == Load(1, 0, BodyWork(b))
  {
  }

  lemma {:induction false} WorkingStepLoad(free: bool, c: Call, c': Call, exits: int)
    requires ValidCall(c) && CallStep(free, c, c', exits) && c.task.Working?
    ensures LoadSteps(free, TaskLoad(c.task, c.pending), TaskLoad(c'.task, c'.pending), exits)
    ensures c'.signals == c.signals
    decreases c, 0
  {
    hide TaskLoad, JobLoad, BodyWork, JobMeaning, Meaning, JobStep, ValidJob, LoadSteps;
    var job := c.task.job;
    if job.Running? && job.rest.Done? {
      DoneStepLoad(free, job, c'.pending);
    } else {
      JobStepLoad(free, job, c'.task.job, exits);
      TaskStepLoad(free, job, c'.task.job, c.pending, exits);
    }
  }

  lemma DoneStepLoad(free: bool, j: Job, pending: Option<Body>)
    requires j.Running? && j.rest.Done?
    ensures LoadSteps(free, TaskLoad(Working(j), pending), TaskLoad(Leaving, pending), 0)
  {
    hide TaskLoad, JobLoad;
    DoneLoad(j);
    WorkingLoad(j, pending);
    PlainLoads(pending);
  }

  lemma TaskStepLoad(free: bool, j: Job, j': Job, pending: Option<Body>, exits: int)
    requires LoadSteps(free, JobLoad(j), JobLoad(j'), exits)
    ensures LoadSteps(free, TaskLoad(Working(j), pending), TaskLoad(Working(j'), pending), exits)
  {
    hide TaskLoad, JobLoad, LoadSteps;
    WorkingLoad(j, pending);
    WorkingLoad(j', pending);
    PlusSteps(free, JobLoad(j), JobLoad(j'), Load(0, 0, 3), exits);
  }

  lemma WorkingLoad(j: Job, pending: Option<Body>)
    ensures TaskLoad(Working(j), pending) == JobLoad(j).Plus(Load(0, 0, 3))
  {
    hide JobLoad, BodyWork;
  }

  lemma PlusSteps(free: bool, before: Load, after: Load, other: Load, exits: int)
    requires LoadSteps(free, before, after, exits) && other.busy == 0
    ensures LoadSteps(free, before.Plus(other), after.Plus(other), exits)
  {
  }

  lemma DoneLoad(j: Job)
    requires j.Running? && j.rest.Done?
    ensures JobLoad(j) == Load(1, 0, 1) && JobLoad(Finished(j.rest.outcome)) == Load(0, 0, 0)
  {
  }

  lemma {:induction false} JobStepLoad(free: bool, j: Job, j': Job, exits: int)
    requires ValidJob(j) && JobStep(free, j, j', exits)
    ensures LoadSteps(free, JobLoad(j), JobLoad(j'), exits)
    decreases j, 1
  {
    if j.Suspended? || j.Inlined? {
      ClosureStepLoad(free, j, j', exits);
    } else if j.Joining? {
      JoiningStepLoad(free, j, j', exits);
    } else {
      BodyStepLoad(free, j, j', exits);
    }
    hide *;
  }

  lemma BodyStepLoad(free: bool, j: Job, j': Job, exits: int)
    requires JobStep(free, j, j', exits) && (j.Ready? || j.Running?)
    ensures LoadSteps(free, JobLoad(j), JobLoad(j'), exits)
  {
    hide Total, ThreadStep, ChildStep, ThreadLoad, JobLoad, ClosureWork;
    JobLoadIs(j);
    JobLoadIs(j');
    if j.Ready? {
      hide BodyWork;
    } else if j.rest.Group? {
      ReadiedLoad(j.rest.children);
    } else {
      AtLoad(j'.closure.closure);
    }
  }

  /** One unfolding of `JobLoad`, which is all that a step needs. */
  lemma JobLoadIs(j: Job)
    ensures match j
            case Ready(rest) => JobLoad(j) == Load(0, 0, 1 + BodyWork(rest))
            case Running(rest) => JobLoad(j) == Load(1, 0, BodyWork(rest))
            case Suspended(closure, f, t) =>
              JobLoad(j) == ThreadLoad(closure).Plus(Load(0, 0, 2 + BodyWork(f) + BodyWork(t)))
            case Inlined(closure, f, t) =>
              JobLoad(j) == ThreadLoad(closure).Plus(Held(Waiting(closure), 2 + BodyWork(f) + BodyWork(t)))
            case Joining(children, all, threw) =>
              JobLoad(j) == Total(JobLoads(children)).Plus(Load(0, 0, 2 + BodyWork(all) + BodyWork(threw)))
            case Finished(_) => JobLoad(j) == Load(0, 0, 0)
  {
    hide ThreadLoad, BodyWork, Total, JobLoads;
  }

  lemma AtLoad(c: Closure)
    ensures ThreadLoad(At(c)) == Load(0, 0, ClosureWork(c))
  {
    hide ClosureWork;
  }

  lemma {:induction false} ClosureStepLoad(free: bool, j: Job, j': Job, exits: int)
    requires ValidJob(j) && JobStep(free, j, j', exits) && (j.Suspended? || j.Inlined?)
    ensures LoadSteps(free, JobLoad(j), JobLoad(j'), exits)
    decreases j, 0
  {
    hide ThreadStep, ChildStep, BodyWork, Total, ThreadLoad, JobLoad, ValidThread;
    JobLoadIs(j);
    JobLoadIs(j');
    if j'.Suspended? {
      ThreadStepLoad(free, j.closure, j'.closure, exits);
      var rest := Load(0, 0, 2 + BodyWork(j.ifFalse) + BodyWork(j.ifTrue));
      PlusSteps(free, ThreadLoad(j.closure), ThreadLoad(j'.closure), rest, exits);
      hide LoadSteps;
    } else if j'.Inlined? {
      ThreadStepLoad(free, j.closure, j'.closure, exits);
      var rest := 2 + BodyWork(j.ifFalse) + BodyWork(j.ifTrue);
      InlinedSteps(free, ThreadLoad(j.closure), ThreadLoad(j'.closure), Waiting(j.closure), Waiting(j'.closure), rest, exits);
      hide LoadSteps;
    } else {
      AtLoad(j.closure.closure);
    }
  }

  /** The load of a job beside the closure its worker runs, which may be waiting. */
  function Held(waiting: bool, work: nat): Load {
    Load(if waiting then 0 else 1, if waiting then 1 else 0, work)
  }

  lemma InlinedSteps(free: bool, before: Load, after: Load, waiting: bool, waiting': bool, work: nat, exits: int)
    requires LoadSteps(free, before, after, exits)
    requires !free && before.busy == 0 && waiting ==> waiting'
    ensures LoadSteps(free, before.Plus(Held(waiting, work)), after.Plus(Held(waiting', work)), exits)
  {
  }

  lemma {:induction false} JoiningStepLoad(free: bool, j: Job, j': Job, exits: int)
    requires ValidJob(j) && JobStep(free, j, j', exits) && j.Joining?
    ensures LoadSteps(free, JobLoad(j), JobLoad(j'), exits)
    decreases j, 0
  {
    hide ThreadStep, ChildStep, BodyWork, Total, JobLoad;
    JobLoadIs(j);
    JobLoadIs(j');
    if j'.Joining? {
      ChildrenStepLoad(free, j.children, j'.children, exits);
    } else {
      forall i | 0 <= i < |j.children| ensures JobLoads(j.children)[i] == Load(0, 0, 0) {
        JobLoadIs(j.children[i]);
      }
      TotalIdle(JobLoads(j.children));
    }
  }

  lemma {:induction false} ChildrenStepLoad(free: bool, js: seq<Job>, js': seq<Job>, exits: int)
    requires |js'| == |js| && forall i | 0 <= i < |js| :: ValidJob(js[i])
    requires exists i | 0 <= i < |js| :: js' == js[i := js'[i]] && ChildStep(free, js[i], js'[i], exits)
    ensures LoadSteps(free, Total(JobLoads(js)), Total(JobLoads(js')), exits)
    decreases js, 0
  {
    var i :| 0 <= i < |js| && js' == js[i := js'[i]] && ChildStep(free, js[i], js'[i], exits);
    ChildStepLoad(free, js[i], js'[i], exits);
    hide JobLoad, ValidJob, ChildStep, Total;
    TotalSteps(free, JobLoads(js), i, JobLoad(js'[i]), exits);
    assert JobLoads(js') == JobLoads(js)[i := JobLoad(js'[i])];
  }

  lemma {:induction false} ChildStepLoad(free: bool, j: Job, j': Job, exits: int)
    requires ValidJob(j) && ChildStep(free, j, j', exits)
    ensures LoadSteps(free, JobLoad(j), JobLoad(j'), exits)
    decreases j, 2
  {
    hide JobLoad, JobStep, ValidJob;
    if j.Running? && j.rest.Done? {
      DoneLoad(j);
    } else {
      JobStepLoad(free, j, j', exits);
    }
  }

  /******* Something can always move, unless every worker is parked *******/

  lemma {:induction false} ThreadProgress(free: bool, t: Thread) returns (t': Thread, exits: int)
    requires ValidThread(t) && !Returned(t)
    requires free || ThreadLoad(t).busy > 0 || !Waiting(t)
    ensures ThreadStep(free, t, t', exits)
    decreases t, 0
  {
    match t
    case At(Blocking(body, returned, threw)) =>
      t', exits := InBlocking(Call(body, Some(body), None, None, 0, Queued), returned, threw), 0;
    case InBlocking(call, returned, threw) =>
      if call.signals > 0 {
        t' := At(if call.outcome.Some? && call.outcome.value.Success? then returned else threw);
        exits := if call.task.Signalled? then 1 else 0;
      } else {
        var call';
        call', exits := CallProgress(free, call);
        t' := InBlocking(call', returned, threw);
      }
  }

  lemma {:induction false} CallProgress(free: bool, c: Call) returns (c': Call, exits: int)
    requires ValidCall(c) && c.signals == 0
    requires free || TaskLoad(c.task, c.pending).busy > 0
    ensures CallStep(free, c, c', exits)
    decreases c, 0
  {
    exits := 0;
    match c.task
    case Queued => c' := c.(task := Started);
    case Started => c' := c.(pending := None, taken := c.pending, task := Working(Running(c.pending.value)));
    case Working(job) =>
      WorkingLoad(job, c.pending);
      if job.Running? && job.rest.Done? {
        c' := c.(outcome := Some(job.rest.outcome), task := Leaving);
      } else {
        var job';
        job', exits := JobProgress(free, job);
        c' := c.(task := Working(job'));
      }
    case Leaving => c' := c.(taken := None, task := Released);
    case Released => c' := c.(signals := c.signals + 1, task := Signalled);
  }

  lemma {:induction false} JobProgress(free: bool, j: Job) returns (j': Job, exits: int)
    requires ValidJob(j) && !j.Finished? && !(j.Running? && j.rest.Done?)
    requires free || JobLoad(j).busy > 0
    ensures JobStep(free, j, j', exits)
    decreases j, 0
  {
    exits := 0;
    match j
    case Ready(rest) => j' := Running(rest);
    case Running(Await(closure, f, t)) => j' := Suspended(At(closure), f, t);
    case Running(OnPool(closure, f, t)) => j' := Inlined(At(closure), f, t);
    case Running(Group(children, all, threw)) => j' := Joining(Readied(children), all, threw);
    case Suspended(closure, f, t) =>
      if Returned(closure) {
        j' := Ready(if closure.closure.answer then t else f);
      } else {
        var closure';
        closure', exits := ThreadProgress(free, closure);
        j' := Suspended(closure', f, t);
      }
    case Inlined(closure, f, t) =>
      if Returned(closure) {
        j' := Running(if closure.closure.answer then t else f);
      } else {
        var closure';
        closure', exits := ThreadProgress(free, closure);
        j' := Inlined(closure', f, t);
      }
    case Joining(children, all, threw) =>
      if AllFinished(children) {
        j' := Ready(if AllSucceed(children) then all else threw);
      } else {
        var i, child';
        i, child', exits := ChildrenProgress(free, children);
        j' := Joining(children[i := child'], all, threw);
      }
  }

  lemma {:induction false} ChildrenProgress(free: bool, js: seq<Job>) returns (i: nat, j': Job, exits: int)
    requires forall k | 0 <= k < |js| :: ValidJob(js[k])
    requires !AllFinished(js) && (free || Total(JobLoads(js)).busy > 0)
    ensures i < |js| && ChildStep(free, js[i], j', exits)
    decreases js, 0
  {
    if free {
      i :| 0 <= i < |js| && !js[i].Finished?;
    } else {
      i := SomeBusy(JobLoads(js));
    }
    var j := js[i];
    if j.Running? && j.rest.Done? {
      j', exits := Finished(j.rest.outcome), 0;
    } else {
      j', exits := JobProgress(free, j);
    }
  }

  lemma {:induction false} SomeBusy(loads: seq<Load>) returns (i: nat)
    requires Total(loads).busy > 0
    ensures i < |loads| && loads[i].busy > 0
  {
    if loads[0].busy > 0 {
      i := 0;
    } else {
      i := SomeBusy(loads[1..]);
      i := i + 1;
    }
  }
}
