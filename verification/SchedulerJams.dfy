/**
 How a program comes to its peak. One node's steps, with `m` workers for it and
 what it waits for, either run it to its end, or park as many workers as are
 wanted, and no more.
 */
module SchedulerJams {
  import opened Wrappers
  import opened Scheduler
  import opened SchedulerLaws
  import opened SchedulerPeaks

  /******* What one node can come to *******/

  predicate ThreadMoves(m: nat, t: Thread, t': Thread) {
    ThreadStep(ThreadLoad(t).Workers() < m, t, t', 0)
  }

  predicate JobMoves(m: nat, j: Job, j': Job) {
    JobStep(JobLoad(j).Workers() < m, j, j', 0)
  }

  /** `t` comes to `t'` in `k` steps of its own. */
  ghost predicate ThreadGoes(k: nat, m: nat, t: Thread, t': Thread) {
    if k == 0 then t == t' else exists u :: ThreadMoves(m, t, u) && ThreadGoes(k - 1, m, u, t')
  }

  ghost predicate JobGoes(k: nat, m: nat, j: Job, j': Job) {
    if k == 0 then j == j' else exists u :: JobMoves(m, j, u) && JobGoes(k - 1, m, u, j')
  }

  ghost predicate ThreadReaches(m: nat, t: Thread, t': Thread) {
    exists k: nat :: ThreadGoes(k, m, t, t')
  }

  ghost predicate JobReaches(m: nat, j: Job, j': Job) {
    exists k: nat :: JobGoes(k, m, j, j')
  }

  lemma {:induction false} ThreadGoesOn(k: nat, l: nat, m: nat, t: Thread, t': Thread, t'': Thread)
    requires ThreadGoes(k, m, t, t') && ThreadGoes(l, m, t', t'')
    ensures ThreadGoes(k + l, m, t, t'')
  {
    hide ThreadMoves;
    if k > 0 {
      var u :| ThreadMoves(m, t, u) && ThreadGoes(k - 1, m, u, t');
      ThreadGoesOn(k - 1, l, m, u, t', t'');
    }
  }

  lemma {:induction false} JobGoesOn(k: nat, l: nat, m: nat, j: Job, j': Job, j'': Job)
    requires JobGoes(k, m, j, j') && JobGoes(l, m, j', j'')
    ensures JobGoes(k + l, m, j, j'')
  {
    hide JobMoves;
    if k > 0 {
      var u :| JobMoves(m, j, u) && JobGoes(k - 1, m, u, j');
      JobGoesOn(k - 1, l, m, u, j', j'');
    }
  }

  lemma ThreadThen(m: nat, t: Thread, t': Thread, t'': Thread)
    requires ThreadReaches(m, t, t') && ThreadReaches(m, t', t'')
    ensures ThreadReaches(m, t, t'')
  {
    hide ThreadGoes;
    var k: nat :| ThreadGoes(k, m, t, t');
    var l: nat :| ThreadGoes(l, m, t', t'');
    ThreadGoesOn(k, l, m, t, t', t'');
  }

  lemma JobThen(m: nat, j: Job, j': Job, j'': Job)
    requires JobReaches(m, j, j') && JobReaches(m, j', j'')
    ensures JobReaches(m, j, j'')
  {
    hide JobGoes;
    var k: nat :| JobGoes(k, m, j, j');
    var l: nat :| JobGoes(l, m, j', j'');
    JobGoesOn(k, l, m, j, j', j'');
  }

  lemma ThreadStays(m: nat, t: Thread)
    ensures ThreadReaches(m, t, t)
  {
    assert ThreadGoes(0, m, t, t);
  }

  lemma JobStays(m: nat, j: Job)
    ensures JobReaches(m, j, j)
  {
    assert JobGoes(0, m, j, j);
  }

  lemma ThreadFirst(m: nat, t: Thread, t': Thread, t'': Thread)
    requires ThreadMoves(m, t, t') && ThreadReaches(m, t', t'')
    ensures ThreadReaches(m, t, t'')
  {
    hide ThreadMoves;
    var k: nat :| ThreadGoes(k, m, t', t'');
    assert ThreadGoes(k + 1, m, t, t'');
  }

  lemma JobFirst(m: nat, j: Job, j': Job, j'': Job)
    requires JobMoves(m, j, j') && JobReaches(m, j', j'')
    ensures JobReaches(m, j, j'')
  {
    hide JobMoves;
    var k: nat :| JobGoes(k, m, j', j'');
    assert JobGoes(k + 1, m, j, j'');
  }

  /******* A node's steps are its parent's *******/

  function AtWork(body: Body, job: Job, returned: Closure, threw: Closure): Thread {
    InBlocking(Call(body, None, Some(body), None, 0, Working(job)), returned, threw)
  }

  lemma AtWorkLoad(body: Body, job: Job, returned: Closure, threw: Closure)
    ensures ThreadLoad(AtWork(body, job, returned, threw)).busy == JobLoad(job).busy
    ensures ThreadLoad(AtWork(body, job, returned, threw)).parked == JobLoad(job).parked
  {
    WorkingLoad(job, None);
    hide JobLoad, TaskLoad, ClosureWork;
  }

  lemma TaskMoves(m: nat, body: Body, j: Job, j': Job, returned: Closure, threw: Closure)
    requires JobMoves(m, j, j')
    ensures ThreadMoves(m, AtWork(body, j, returned, threw), AtWork(body, j', returned, threw))
  {
    hide JobLoad, ThreadLoad;
    AtWorkLoad(body, j, returned, threw);
    assert !(j.Running? && j.rest.Done?);
    hide JobStep;
    assert CallStep(JobLoad(j).Workers() < m, AtWork(body, j, returned, threw).call, AtWork(body, j', returned, threw).call, 0);
  }

  lemma {:induction false} TaskGoes(k: nat, m: nat, body: Body, j: Job, j': Job, returned: Closure, threw: Closure)
    requires JobGoes(k, m, j, j')
    ensures ThreadGoes(k, m, AtWork(body, j, returned, threw), AtWork(body, j', returned, threw))
  {
    hide JobMoves, ThreadMoves;
    if k > 0 {
      var u :| JobMoves(m, j, u) && JobGoes(k - 1, m, u, j');
      TaskMoves(m, body, j, u, returned, threw);
      TaskGoes(k - 1, m, body, u, j', returned, threw);
    }
  }

  lemma TaskReaches(m: nat, body: Body, j: Job, j': Job, returned: Closure, threw: Closure)
    requires JobReaches(m, j, j')
    ensures ThreadReaches(m, AtWork(body, j, returned, threw), AtWork(body, j', returned, threw))
  {
    hide JobGoes, ThreadGoes;
    var k: nat :| JobGoes(k, m, j, j');
    TaskGoes(k, m, body, j, j', returned, threw);
  }

  lemma ClosureMoves(m: nat, t: Thread, t': Thread, ifFalse: Body, ifTrue: Body)
    requires ThreadMoves(m, t, t')
    ensures JobMoves(m, Suspended(t, ifFalse, ifTrue), Suspended(t', ifFalse, ifTrue))
    ensures JobMoves(m + 1, Inlined(t, ifFalse, ifTrue), Inlined(t', ifFalse, ifTrue))
  {
    hide ThreadStep, ThreadLoad, JobLoad, JobStep;
    ClosureWorkers(t, ifFalse, ifTrue);
    ClosureSteps(ThreadLoad(t).Workers() < m, t, t', ifFalse, ifTrue);
  }

  lemma ClosureWorkers(t: Thread, ifFalse: Body, ifTrue: Body)
    ensures JobLoad(Suspended(t, ifFalse, ifTrue)).Workers() == ThreadLoad(t).Workers()
    ensures JobLoad(Inlined(t, ifFalse, ifTrue)).Workers() == ThreadLoad(t).Workers() + 1
  {
    hide ThreadLoad, JobLoad;
    JobLoadIs(Suspended(t, ifFalse, ifTrue));
    JobLoadIs(Inlined(t, ifFalse, ifTrue));
  }

  lemma ClosureSteps(free: bool, t: Thread, t': Thread, ifFalse: Body, ifTrue: Body)
    requires ThreadStep(free, t, t', 0)
    ensures JobStep(free, Suspended(t, ifFalse, ifTrue), Suspended(t', ifFalse, ifTrue), 0)
    ensures JobStep(free, Inlined(t, ifFalse, ifTrue), Inlined(t', ifFalse, ifTrue), 0)
  {
    hide ThreadStep;
  }

  /** A closure that a job runs on its own worker leaves one fewer. */
  lemma {:induction false} ClosureGoes(k: nat, m: nat, t: Thread, t': Thread, ifFalse: Body, ifTrue: Body)
    requires ThreadGoes(k, m, t, t')
    ensures JobGoes(k, m, Suspended(t, ifFalse, ifTrue), Suspended(t', ifFalse, ifTrue))
    ensures JobGoes(k, m + 1, Inlined(t, ifFalse, ifTrue), Inlined(t', ifFalse, ifTrue))
  {
    hide JobMoves, ThreadMoves;
    if k > 0 {
      var u :| ThreadMoves(m, t, u) && ThreadGoes(k - 1, m, u, t');
      ClosureMoves(m, t, u, ifFalse, ifTrue);
      ClosureGoes(k - 1, m, u, t', ifFalse, ifTrue);
    }
  }

  lemma ClosureReaches(m: nat, t: Thread, t': Thread, ifFalse: Body, ifTrue: Body)
    requires ThreadReaches(m, t, t')
    ensures JobReaches(m, Suspended(t, ifFalse, ifTrue), Suspended(t', ifFalse, ifTrue))
    ensures JobReaches(m + 1, Inlined(t, ifFalse, ifTrue), Inlined(t', ifFalse, ifTrue))
  {
    hide JobGoes, ThreadGoes;
    var k: nat :| ThreadGoes(k, m, t, t');
    ClosureGoes(k, m, t, t', ifFalse, ifTrue);
  }

  /** The workers in use beside child `i`. */
  function Beside(js: seq<Job>, i: nat): int
    requires i < |js|
  {
    Total(JobLoads(js)).Workers() - JobLoad(js[i]).Workers()
  }

  lemma BesideSame(js: seq<Job>, i: nat, j: Job)
    requires i < |js|
    ensures Beside(js[i := j], i) == Beside(js, i) >= 0
    ensures Total(JobLoads(js[i := j])).busy == Total(JobLoads(js)).busy - JobLoad(js[i]).busy + JobLoad(j).busy
    ensures Total(JobLoads(js[i := j])).parked == Total(JobLoads(js)).parked - JobLoad(js[i]).parked + JobLoad(j).parked
  {
    hide JobLoad, Total;
    TotalUpdate(JobLoads(js), i, JobLoad(j));
    TotalUpdate(JobLoads(js), i, Load(0, 0, 0));
    assert JobLoads(js[i := j]) == JobLoads(js)[i := JobLoad(j)];
  }

  /** A child leaves as many fewer as its siblings hold. */
  lemma ChildMoves(m: nat, js: seq<Job>, i: nat, j: Job, j': Job, all: Body, threw: Body)
    requires i < |js| && Beside(js, i) >= 0
    requires JobMoves(m, j, j') || (j.Running? && j.rest.Done? && j' == Finished(j.rest.outcome))
    ensures JobMoves(m + Beside(js, i), Joining(js[i := j], all, threw), Joining(js[i := j'], all, threw))
  {
    hide JobLoad, Total, JobStep;
    BesideSame(js, i, j);
    JobLoadIs(Joining(js[i := j], all, threw));
    ChildSteps(JobLoad(j).Workers() < m, js[i := j], i, j', all, threw);
    assert js[i := j][i := j'] == js[i := j'];
  }

  lemma ChildSteps(free: bool, js: seq<Job>, i: nat, j': Job, all: Body, threw: Body)
    requires i < |js|
    requires JobStep(free, js[i], j', 0) || (js[i].Running? && js[i].rest.Done? && j' == Finished(js[i].rest.outcome))
    ensures JobStep(free, Joining(js, all, threw), Joining(js[i := j'], all, threw), 0)
  {
    assert ChildStep(free, js[i], j', 0);
    var next := js[i := j'];
    assert next == js[i := next[i]];
    hide ChildStep;
  }

  lemma {:induction false} ChildGoes(k: nat, m: nat, js: seq<Job>, i: nat, j: Job, j': Job, all: Body, threw: Body)
    requires i < |js| && Beside(js, i) >= 0 && JobGoes(k, m, j, j')
    ensures JobGoes(k, m + Beside(js, i), Joining(js[i := j], all, threw), Joining(js[i := j'], all, threw))
  {
    hide JobMoves, Beside;
    if k > 0 {
      var u :| JobMoves(m, j, u) && JobGoes(k - 1, m, u, j');
      ChildMoves(m, js, i, j, u, all, threw);
      ChildGoes(k - 1, m, js, i, u, j', all, threw);
    }
  }

  lemma ChildReaches(m: nat, js: seq<Job>, i: nat, j': Job, all: Body, threw: Body)
    requires i < |js| && 0 <= Beside(js, i) <= m && JobReaches(m - Beside(js, i), js[i], j')
    ensures JobReaches(m, Joining(js, all, threw), Joining(js[i := j'], all, threw))
  {
    hide JobGoes, Beside;
    var k: nat :| JobGoes(k, m - Beside(js, i), js[i], j');
    ChildGoes(k, m - Beside(js, i), js, i, js[i], j', all, threw);
    assert js[i := js[i]] == js;
  }

  /******* With more workers than its peak, a program finishes *******/

  /** A call takes a worker, and its task the body. */
  lemma CallOpens(m: nat, body: Body, returned: Closure, threw: Closure)
    requires m >= 1
    ensures ThreadReaches(m, At(Blocking(body, returned, threw)), AtWork(body, Running(body), returned, threw))
  {
    var queued := Call(body, Some(body), None, None, 0, Queued);
    var first, second := InBlocking(queued, returned, threw), InBlocking(queued.(task := Started), returned, threw);
    var third := AtWork(body, Running(body), returned, threw);
    QueuedLoad(queued, returned, threw);
    assert CallStep(true, queued, second.call, 0);
    assert CallStep(false, second.call, third.call, 0) && CallStep(true, second.call, third.call, 0);
    hide ThreadLoad, TaskLoad, CallStep;
    ThreadStays(m, third);
    ThreadFirst(m, second, third, third);
    ThreadFirst(m, first, second, third);
    ThreadFirst(m, At(Blocking(body, returned, threw)), first, third);
  }

  lemma QueuedLoad(c: Call, returned: Closure, threw: Closure)
    requires c.task.Queued?
    ensures ThreadLoad(InBlocking(c, returned, threw)).Workers() == 0
  {
    PlainLoads(c.pending);
    hide TaskLoad, ClosureWork;
  }

  /** The task of a body that has ended signals, and gives its worker back. */
  lemma CallCloses(m: nat, body: Body, o: Outcome, returned: Closure, threw: Closure)
    ensures ThreadReaches(m, AtWork(body, Running(Done(o)), returned, threw), At(if o.Success? then returned else threw))
  {
    var working := AtWork(body, Running(Done(o)), returned, threw);
    var leaving := working.(call := working.call.(outcome := Some(o), task := Leaving));
    var released := working.(call := Call(body, None, None, Some(o), 0, Released));
    var signalled := working.(call := Call(body, None, None, Some(o), 1, Signalled));
    var exited := working.(call := Call(body, None, None, Some(o), 1, Exited));
    var end := At(if o.Success? then returned else threw);
    TaskStep(m, working, leaving);
    TaskStep(m, leaving, released);
    TaskStep(m, released, signalled);
    TaskStep(m, signalled, exited);
    assert ThreadMoves(m, exited, end);
    hide ThreadMoves;
    ThreadStays(m, end);
    ThreadFirst(m, exited, end, end);
    ThreadFirst(m, signalled, exited, end);
    ThreadFirst(m, released, signalled, end);
    ThreadFirst(m, leaving, released, end);
    ThreadFirst(m, working, leaving, end);
  }

  /** A step of a call's task that needs no more workers. */
  lemma TaskStep(m: nat, t: Thread, t': Thread)
    requires t.InBlocking? && t'.InBlocking? && t' == t.(call := t'.call)
    requires CallStep(true, t.call, t'.call, 0) && CallStep(false, t.call, t'.call, 0)
    ensures ThreadMoves(m, t, t')
  {
    hide ThreadLoad, CallStep;
  }

  lemma CallReturns(m: nat, body: Body, returned: Closure, threw: Closure)
    requires m >= 1 && JobReaches(m, Running(body), Running(Done(Meaning(body))))
    ensures ThreadReaches(m, At(Blocking(body, returned, threw)), At(if Meaning(body).Success? then returned else threw))
  {
    hide ThreadReaches, JobReaches, Meaning;
    var start, end := At(Blocking(body, returned, threw)), At(if Meaning(body).Success? then returned else threw);
    var working, done := AtWork(body, Running(body), returned, threw), AtWork(body, Running(Done(Meaning(body))), returned, threw);
    CallOpens(m, body, returned, threw);
    TaskReaches(m, body, Running(body), Running(Done(Meaning(body))), returned, threw);
    CallCloses(m, body, Meaning(body), returned, threw);
    ThreadThen(m, start, working, done);
    ThreadThen(m, start, done, end);
  }

  /** What `b` goes on with once what it awaits first has ended. */
  function Then(b: Body): (rest: Body)
    requires !b.Done?
    ensures rest < b && Meaning(b) == Meaning(rest)
    ensures Peak(b) == Max(FirstPeak(b), Peak(rest))
  {
    match b
    case Await(closure, f, t) => if Answer(closure) then t else f
    case OnPool(closure, f, t) => if Answer(closure) then t else f
    case Group(children, all, threw) => if AllReturn(children) then all else threw
  }

  function FirstPeak(b: Body): nat
    requires !b.Done?
  {
    match b
    case Await(closure, _, _) => ClosurePeak(closure)
    case OnPool(closure, _, _) => if closure.Return? then 0 else 1 + ClosurePeak(closure)
    case Group(children, _, _) => Sum(Peaks(children))
  }

  lemma {:induction false} FinishClosure(c: Closure, m: nat)
    requires ClosurePeak(c) < m
    ensures ThreadReaches(m, At(c), At(Return(Answer(c))))
    decreases c
  {
    hide ThreadReaches, JobReaches;
    if c.Return? {
      ThreadStays(m, At(c));
    } else {
      var next := if Meaning(c.body).Success? then c.ifReturned else c.ifThrew;
      FinishBody(c.body, m);
      FinishClosure(next, m);
      CallReturns(m, c.body, c.ifReturned, c.ifThrew);
      ThreadThen(m, At(c), At(next), At(Return(Answer(c))));
    }
  }

  lemma {:induction false} FinishBody(b: Body, m: nat)
    requires Peak(b) < m
    ensures JobReaches(m, Running(b), Running(Done(Meaning(b))))
    decreases b, 1
  {
    hide ThreadReaches, JobReaches;
    if b.Done? {
      JobStays(m, Running(b));
    } else {
      var rest := Then(b);
      FinishFirst(b, m);
      FinishBody(rest, m);
      JobThen(m, Running(b), Running(rest), Running(Done(Meaning(b))));
    }
  }

  lemma {:induction false} FinishFirst(b: Body, m: nat)
    requires !b.Done? && FirstPeak(b) < m
    ensures JobReaches(m, Running(b), Running(Then(b)))
    decreases b, 0
  {
    hide ThreadReaches, JobReaches;
    match b
    case Await(closure, _, _) =>
      FinishClosure(closure, m);
      AwaitEnds(m, b);
    case OnPool(closure, _, _) =>
      if closure.Return? {
        ThreadStays(m - 1, At(closure));
      } else {
        FinishClosure(closure, m - 1);
      }
      OnPoolEnds(m, b);
    case Group(children, all, threw) =>
      forall i | 0 <= i < |children|
        ensures JobReaches(m, Running(children[i]), Running(Done(Meaning(children[i]))))
      {
        SumHas(Peaks(children), i);
        FinishBody(children[i], m);
      }
      FinishChildren(m, children, 0, all, threw);
      GroupEnds(m, b);
  }

  lemma {:induction false} SumHas(ns: seq<nat>, i: nat)
    requires i < |ns|
    ensures ns[i] <= Sum(ns)
  {
    if i > 0 {
      SumHas(ns[1..], i - 1);
    }
  }

  lemma ReadyRuns(m: nat, b: Body)
    requires m >= 1
    ensures JobMoves(m, Ready(b), Running(b))
  {
    JobLoadIs(Ready(b));
    hide JobLoad;
  }

  lemma AwaitEnds(m: nat, b: Body)
    requires m >= 1 && b.Await? && ThreadReaches(m, At(b.closure), At(Return(Answer(b.closure))))
    ensures JobReaches(m, Running(b), Running(Then(b)))
  {
    hide ThreadReaches, JobReaches, JobLoad, Answer;
    var waiting := Suspended(At(b.closure), b.ifFalse, b.ifTrue);
    var answered := Suspended(At(Return(Answer(b.closure))), b.ifFalse, b.ifTrue);
    var rest := Then(b);
    assert JobMoves(m, Running(b), waiting) && JobMoves(m, answered, Ready(rest));
    ReadyRuns(m, rest);
    hide JobMoves;
    ClosureReaches(m, At(b.closure), At(Return(Answer(b.closure))), b.ifFalse, b.ifTrue);
    JobStays(m, Running(rest));
    JobFirst(m, Ready(rest), Running(rest), Running(rest));
    JobFirst(m, answered, Ready(rest), Running(rest));
    JobThen(m, waiting, answered, Running(rest));
    JobFirst(m, Running(b), waiting, Running(rest));
  }

  lemma OnPoolEnds(m: nat, b: Body)
    requires m >= 1 && b.OnPool? && ThreadReaches(m - 1, At(b.closure), At(Return(Answer(b.closure))))
    ensures JobReaches(m, Running(b), Running(Then(b)))
  {
    hide ThreadReaches, JobReaches, JobLoad, Answer;
    var calling := Inlined(At(b.closure), b.ifFalse, b.ifTrue);
    var answered := Inlined(At(Return(Answer(b.closure))), b.ifFalse, b.ifTrue);
    var rest := Then(b);
    assert JobMoves(m, Running(b), calling) && JobMoves(m, answered, Running(rest));
    hide JobMoves;
    ClosureReaches(m - 1, At(b.closure), At(Return(Answer(b.closure))), b.ifFalse, b.ifTrue);
    JobStays(m, Running(rest));
    JobFirst(m, answered, Running(rest), Running(rest));
    JobThen(m, calling, answered, Running(rest));
    JobFirst(m, Running(b), calling, Running(rest));
  }

  /** `children`, of which the first `k` have ended. */
  function Ended(children: seq<Body>, k: nat): seq<Job> {
    seq(|children|, i requires 0 <= i < |children| => if i < k then Finished(Meaning(children[i])) else Ready(children[i]))
  }

  lemma EndedLoad(children: seq<Body>, k: nat)
    ensures Total(JobLoads(Ended(children, k))).Workers() == 0
  {
    hide JobLoad, Total, Meaning;
    forall i | 0 <= i < |children| ensures JobLoads(Ended(children, k))[i].Workers() == 0 {
      JobLoadIs(Ended(children, k)[i]);
    }
    NoneHeld(JobLoads(Ended(children, k)));
  }

  lemma {:induction false} FinishChildren(m: nat, children: seq<Body>, k: nat, all: Body, threw: Body)
    requires m >= 1 && k <= |children|
    requires forall i | 0 <= i < |children| ::
               JobReaches(m, Running(children[i]), Running(Done(Meaning(children[i]))))
    ensures JobReaches(m, Joining(Ended(children, k), all, threw), Joining(Ended(children, |children|), all, threw))
    decreases |children| - k
  {
    hide JobReaches;
    if k == |children| {
      JobStays(m, Joining(Ended(children, k), all, threw));
    } else {
      FinishChild(m, children, k, all, threw);
      FinishChildren(m, children, k + 1, all, threw);
      JobThen(m, Joining(Ended(children, k), all, threw), Joining(Ended(children, k + 1), all, threw),
              Joining(Ended(children, |children|), all, threw));
    }
  }

  lemma FinishChild(m: nat, children: seq<Body>, k: nat, all: Body, threw: Body)
    requires m >= 1 && k < |children|
    requires JobReaches(m, Running(children[k]), Running(Done(Meaning(children[k]))))
    ensures JobReaches(m, Joining(Ended(children, k), all, threw), Joining(Ended(children, k + 1), all, threw))
  {
    hide JobReaches, JobLoad, Total, Meaning, JobMoves;
    var b, js := children[k], Ended(children, k);
    var done := Running(Done(Meaning(b)));
    EndedLoad(children, k);
    BesideSame(js, k, js[k]);
    JobLoadIs(Ready(b));
    ReadyRuns(m, b);
    JobFirst(m, Ready(b), Running(b), done);
    ChildReaches(m, js, k, done, all, threw);
    ChildMoves(m, js, k, done, Finished(Meaning(b)), all, threw);
    assert js[k := Finished(Meaning(b))] == Ended(children, k + 1);
    var end := Joining(Ended(children, k + 1), all, threw);
    JobStays(m, end);
    JobFirst(m, Joining(js[k := done], all, threw), end, end);
    JobThen(m, Joining(js, all, threw), Joining(js[k := done], all, threw), end);
  }

  lemma GroupEnds(m: nat, b: Body)
    requires m >= 1 && b.Group?
    requires JobReaches(m, Joining(Ended(b.children, 0), b.ifAll, b.ifThrew),
                        Joining(Ended(b.children, |b.children|), b.ifAll, b.ifThrew))
    ensures JobReaches(m, Running(b), Running(Then(b)))
  {
    hide JobReaches, JobLoad, Meaning;
    var joining := Joining(Ended(b.children, 0), b.ifAll, b.ifThrew);
    var joined := Joining(Ended(b.children, |b.children|), b.ifAll, b.ifThrew);
    var rest := Then(b);
    assert Readied(b.children) == Ended(b.children, 0);
    EndedMeaning(b.children);
    assert JobMoves(m, Running(b), joining) && JobMoves(m, joined, Ready(rest));
    ReadyRuns(m, rest);
    hide JobMoves;
    JobStays(m, Running(rest));
    JobFirst(m, Ready(rest), Running(rest), Running(rest));
    JobFirst(m, joined, Ready(rest), Running(rest));
    JobThen(m, joining, joined, Running(rest));
    JobFirst(m, Running(b), joining, Running(rest));
  }

  lemma EndedMeaning(children: seq<Body>)
    ensures var js := Ended(children, |children|);
            AllFinished(js) && (AllSucceed(js) <==> AllReturn(children))
  {
    hide Meaning;
    var js := Ended(children, |children|);
    assert forall i | 0 <= i < |js| :: JobMeaning(js[i]) == Meaning(children[i]);
  }

  /******* With as many workers as its peak or fewer, it can park them all *******/

  /** `q` of its workers are parked, and nothing in it runs. */
  predicate Parked(load: Load, q: nat) {
    load.busy == 0 && load.parked == q
  }

  lemma {:induction false} ParkClosure(c: Closure, q: nat, m: nat) returns (t: Thread)
    requires 1 <= q <= ClosurePeak(c) && q <= m
    ensures ThreadReaches(m, At(c), t) && Parked(ThreadLoad(t), q) && Waiting(t)
    decreases c
  {
    hide ThreadReaches, JobReaches, ThreadLoad, JobLoad, Answer;
    var body, returned, threw := c.body, c.ifReturned, c.ifThrew;
    if q <= Peak(body) {
      var job := ParkBody(body, q, m);
      t := AtWork(body, job, returned, threw);
      AtWorkLoad(body, job, returned, threw);
      CallOpens(m, body, returned, threw);
      TaskReaches(m, body, Running(body), job, returned, threw);
      ThreadThen(m, At(c), AtWork(body, Running(body), returned, threw), t);
    } else {
      var next := if Meaning(body).Success? then returned else threw;
      FinishBody(body, m);
      CallReturns(m, body, returned, threw);
      t := ParkClosure(next, q, m);
      ThreadThen(m, At(c), At(next), t);
    }
  }

  lemma {:induction false} ParkBody(b: Body, q: nat, m: nat) returns (j: Job)
    requires 1 <= q <= Peak(b) && q <= m
    ensures JobReaches(m, Running(b), j) && Parked(JobLoad(j), q)
    decreases b, 1
  {
    hide JobReaches, JobLoad;
    if q <= FirstPeak(b) {
      j := ParkFirst(b, q, m);
    } else {
      FinishFirst(b, m);
      j := ParkBody(Then(b), q, m);
      JobThen(m, Running(b), Running(Then(b)), j);
    }
  }

  lemma {:induction false} ParkFirst(b: Body, q: nat, m: nat) returns (j: Job)
    requires !b.Done? && 1 <= q <= FirstPeak(b) && q <= m
    ensures JobReaches(m, Running(b), j) && Parked(JobLoad(j), q)
    decreases b, 0
  {
    hide ThreadReaches, JobReaches, ThreadLoad, JobLoad, ThreadStep, Total, Sum;
    var next: Job;
    match b
    case Await(closure, f, t) =>
      var thread := ParkClosure(closure, q, m);
      next, j := Suspended(At(closure), f, t), Suspended(thread, f, t);
      ClosureReaches(m, At(closure), thread, f, t);
      JobLoadIs(j);
      assert JobMoves(m, Running(b), next);
      JobFirst(m, Running(b), next, j);
    case OnPool(closure, f, t) =>
      var thread;
      if q == 1 {
        thread := ParkAlone(closure, m - 1);
      } else {
        thread := ParkClosure(closure, q - 1, m - 1);
      }
      next, j := Inlined(At(closure), f, t), Inlined(thread, f, t);
      ClosureReaches(m - 1, At(closure), thread, f, t);
      JobLoadIs(j);
      assert JobMoves(m, Running(b), next);
      JobFirst(m, Running(b), next, j);
    case Group(children, all, threw) =>
      ReadiedLoad(children);
      var js := ParkChildren(Readied(children), children, 0, q, m, all, threw);
      next, j := Joining(Readied(children), all, threw), Joining(js, all, threw);
      JobLoadIs(j);
      assert JobMoves(m, Running(b), next);
      JobFirst(m, Running(b), next, j);
  }

  /** A closure that calls `blocking` parks its own thread. */
  lemma ParkAlone(c: Closure, m: nat) returns (t: Thread)
    requires c.Blocking?
    ensures ThreadReaches(m, At(c), t) && Parked(ThreadLoad(t), 0) && Waiting(t)
  {
    hide ThreadLoad;
    var queued := Call(c.body, Some(c.body), None, None, 0, Queued);
    t := InBlocking(queued, c.ifReturned, c.ifThrew);
    QueuedLoad(queued, c.ifReturned, c.ifThrew);
    assert ThreadMoves(m, At(c), t);
    hide ThreadMoves;
    ThreadStays(m, t);
    ThreadFirst(m, At(c), t, t);
  }

  /** One child after another parks as many as it can and are still wanted. */
  lemma {:induction false} ParkChildren(js: seq<Job>, children: seq<Body>, k: nat, q: nat, m: nat,
                                        all: Body, threw: Body) returns (end: seq<Job>)
    requires |js| == |children| && k <= |js| && forall i | k <= i < |js| :: js[i] == Ready(children[i])
    requires var load := Total(JobLoads(js));
             load.busy == 0 && load.parked <= q <= m && q <= load.parked + Sum(Peaks(children)[k..])
    ensures JobReaches(m, Joining(js, all, threw), Joining(end, all, threw)) && Parked(Total(JobLoads(end)), q)
    decreases children, |children| - k
  {
    hide JobReaches, JobLoad, JobMoves, Total, Beside, Peak;
    var p := Total(JobLoads(js)).parked;
    if p == q {
      JobStays(m, Joining(js, all, threw));
      end := js;
    } else {
      assert Peaks(children)[k..][0] == Peak(children[k]) && Peaks(children)[k..][1..] == Peaks(children)[k + 1..];
      var wanted := if Peak(children[k]) < q - p then Peak(children[k]) else q - p;
      if wanted == 0 {
        end := ParkChildren(js, children, k + 1, q, m, all, threw);
      } else {
        var child := ParkBody(children[k], wanted, m - p);
        var js' := ChildParks(m, js, k, children[k], child, wanted, all, threw);
        end := ParkChildren(js', children, k + 1, q, m, all, threw);
        JobThen(m, Joining(js, all, threw), Joining(js', all, threw), Joining(end, all, threw));
      }
    }
  }

  lemma ChildParks(m: nat, js: seq<Job>, k: nat, b: Body, child: Job, q: nat, all: Body, threw: Body)
    returns (js': seq<Job>)
    requires k < |js| && js[k] == Ready(b) && 1 <= q && Parked(JobLoad(child), q)
    requires Total(JobLoads(js)).busy == 0 && Total(JobLoads(js)).parked + q <= m
    requires JobReaches(m - Total(JobLoads(js)).parked, Running(b), child)
    ensures js' == js[k := child] && Parked(Total(JobLoads(js')), Total(JobLoads(js)).parked + q)
    ensures JobReaches(m, Joining(js, all, threw), Joining(js', all, threw))
  {
    hide JobReaches, JobLoad, JobMoves, Total;
    js' := js[k := child];
    JobLoadIs(Ready(b));
    BesideSame(js, k, child);
    ReadyRuns(m - Beside(js, k), b);
    JobFirst(m - Beside(js, k), Ready(b), Running(b), child);
    ChildReaches(m, js, k, child, all, threw);
  }
}
