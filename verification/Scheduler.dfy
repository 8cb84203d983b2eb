/**
 The protocol of `blocking` and `offPool` (Blocking.swift) as a transition
 system over any number of Rust threads and a cooperative pool of `n` workers.

 A call of `blocking` parks its thread on a semaphore until a detached task has
 run the call's body on the pool. A body awaits Rust closures through `offPool`,
 which suspends the task, or calls them on the worker it holds, as Swift calls a
 configuration closure. A closure calls `blocking` again, to any depth.

 What waits for what is a tree: a thread for its call, the call for its task,
 the task for the closure or the child tasks it awaits. The state is that tree,
 and a step changes one node of it.
 */
module Scheduler {
  import opened Wrappers

  /******* Programs and what they mean *******/

  datatype Outcome = Success(value: nat) | Failure(error: nat)

  /** An async Swift body. */
  datatype Body =
    | Done(outcome: Outcome)
      // `await offPool(closure)`, and what follows either answer
    | Await(closure: Closure, ifFalse: Body, ifTrue: Body)
      // a synchronous closure, called on the worker
    | OnPool(closure: Closure, ifFalse: Body, ifTrue: Body)
      // child tasks that run at once; a throw in one is thrown once all are done
    | Group(children: seq<Body>, ifAll: Body, ifThrew: Body)

  /** A Rust closure, or what is left of one. */
  datatype Closure =
    | Return(answer: bool)
    | Blocking(body: Body, ifReturned: Closure, ifThrew: Closure)

  /** What a body returns or throws when nothing else runs. */
  function Meaning(b: Body): Outcome {
    match b
    case Done(outcome) => outcome
    case Await(closure, f, t) => if Answer(closure) then Meaning(t) else Meaning(f)
    case OnPool(closure, f, t) => if Answer(closure) then Meaning(t) else Meaning(f)
    case Group(children, all, threw) =>
      if forall i | 0 <= i < |children| :: Meaning(children[i]).Success? then Meaning(all) else Meaning(threw)
  }

  function Answer(c: Closure): bool {
    match c
    case Return(answer) => answer
    case Blocking(body, returned, threw) => if Meaning(body).Success? then Answer(returned) else Answer(threw)
  }

  /** An answer of true goes on with the last of the two, one child that throws is
      enough for its group to, and a call that returns or throws is told apart. */
  lemma MeaningFollows(closure: Closure, f: Body, t: Body, children: seq<Body>, i: nat, returned: Closure, threw: Closure)
    ensures Meaning(Await(Return(true), f, t)) == Meaning(OnPool(Return(true), f, t)) == Meaning(t)
    ensures Meaning(Await(Return(false), f, t)) == Meaning(OnPool(Return(false), f, t)) == Meaning(f)
    ensures Answer(closure) == Answer(Return(true)) ==> Meaning(Await(closure, f, t)) == Meaning(OnPool(closure, f, t)) == Meaning(t)
    ensures i < |children| && Meaning(children[i]).Failure? ==> Meaning(Group(children, t, f)) == Meaning(f)
    ensures (forall k | 0 <= k < |children| :: Meaning(children[k]).Success?) ==> Meaning(Group(children, t, f)) == Meaning(t)
    ensures forall value :: Answer(Blocking(Done(Success(value)), returned, threw)) == Answer(returned)
    ensures forall error :: Answer(Blocking(Done(Failure(error)), returned, threw)) == Answer(threw)
  {
  }

  /** No closure left on the pool calls `blocking`, at any depth. */
  predicate KeepsOffPool(b: Body) {
    match b
    case Done(_) => true
    case Await(closure, f, t) => CallsKeepOffPool(closure) && KeepsOffPool(f) && KeepsOffPool(t)
    case OnPool(closure, f, t) => closure.Return? && KeepsOffPool(f) && KeepsOffPool(t)
    case Group(children, all, threw) =>
      && (forall i | 0 <= i < |children| :: KeepsOffPool(children[i]))
      && KeepsOffPool(all) && KeepsOffPool(threw)
  }

  predicate CallsKeepOffPool(c: Closure) {
    match c
    case Return(_) => true
    case Blocking(body, returned, threw) =>
      KeepsOffPool(body) && CallsKeepOffPool(returned) && CallsKeepOffPool(threw)
  }

  /******* States *******/

  /** A thread outside the pool, or the stack of a closure a worker runs. */
  datatype Thread =
    | At(closure: Closure)
    | InBlocking(call: Call, ifReturned: Closure, ifThrew: Closure)

  /** One call of `blocking`: the body it was given, its shared variables, and its
      detached task, which has a variable of its own for the body it took. */
  datatype Call = Call(
    body: Body,
    pending: Option<Body>,
    taken: Option<Body>,
    outcome: Option<Outcome>,
    signals: nat,
    task: Task)

  datatype Task =
    | Queued            // detached, and waiting for a worker
    | Started           // about to take `pending`
    | Working(job: Job) // awaiting the body it took
    | Leaving           // about to leave the scope that has `taken`
    | Released          // about to signal
    | Signalled         // holds only its worker
    | Exited

  /** An async body in progress. */
  datatype Job =
    | Ready(rest: Body)   // waiting for a worker
    | Running(rest: Body) // on a worker
    | Suspended(closure: Thread, ifFalse: Body, ifTrue: Body) // on a Dispatch thread
    | Inlined(closure: Thread, ifFalse: Body, ifTrue: Body)   // on this job's worker
    | Joining(children: seq<Job>, ifAll: Body, ifThrew: Body)
    | Finished(outcome: Outcome)

  /** The Rust threads, and how many tasks have signalled a call that has since
      returned, but still hold a worker. */
  datatype State = State(threads: seq<Thread>, exiting: nat)

  function Start(programs: seq<Closure>): (s: State)
    ensures |s.threads| == |programs|
    ensures forall i | 0 <= i < |programs| :: s.threads[i] == At(programs[i])
  {
    State(seq(|programs|, i requires 0 <= i < |programs| => At(programs[i])), 0)
  }

  predicate Returned(t: Thread) {
    t.At? && t.closure.Return?
  }

  /** Every Rust thread has run its closure to the end. */
  predicate AllReturned(s: State) {
    forall i | 0 <= i < |s.threads| :: Returned(s.threads[i])
  }

  /** Parked on a semaphore nothing has signalled. */
  predicate Waiting(t: Thread) {
    t.InBlocking? && t.call.signals == 0
  }

  /******* Workers held, workers parked, and work left *******/

  /** `busy` workers run something, and `parked` ones are parked. */
  datatype Load = Load(busy: nat, parked: nat, work: nat) {
    function Plus(other: Load): Load {
      Load(busy + other.busy, parked + other.parked, work + other.work)
    }

    function Workers(): nat {
      busy + parked
    }
  }

  function BodyWork(b: Body): (w: nat)
    ensures w >= 1
  {
    match b
    case Done(_) => 1
    case Await(closure, f, t) => 3 + ClosureWork(closure) + BodyWork(f) + BodyWork(t)
    case OnPool(closure, f, t) => 3 + ClosureWork(closure) + BodyWork(f) + BodyWork(t)
    case Group(children, all, threw) => 3 + BodiesWork(children) + BodyWork(all) + BodyWork(threw)
  }

  function BodiesWork(bs: seq<Body>): nat {
    if bs == [] then 0 else 1 + BodyWork(bs[0]) + BodiesWork(bs[1..])
  }

  function ClosureWork(c: Closure): nat {
    match c
    case Return(_) => 0
    case Blocking(body, returned, threw) => 7 + BodyWork(body) + ClosureWork(returned) + ClosureWork(threw)
  }

  function ThreadLoad(t: Thread): Load {
    match t
    case At(closure) => Load(0, 0, ClosureWork(closure))
    case InBlocking(call, returned, threw) =>
      TaskLoad(call.task, call.pending).Plus(Load(0, 0, 1 + ClosureWork(returned) + ClosureWork(threw)))
  }

  function TaskLoad(task: Task, pending: Option<Body>): Load {
    var taken := if pending.Some? then BodyWork(pending.value) else 0;
    match task
    case Queued => Load(0, 0, 5 + taken)
    case Started => Load(1, 0, 4 + taken)
    case Working(job) => JobLoad(job).Plus(Load(0, 0, 3))
    case Leaving => Load(1, 0, 3)
    case Released => Load(1, 0, 2)
    case Signalled => Load(1, 0, 1)
    case Exited => Load(0, 0, 0)
  }

  function JobLoad(j: Job): Load {
    match j
    case Ready(rest) => Load(0, 0, 1 + BodyWork(rest))
    case Running(rest) => Load(1, 0, BodyWork(rest))
    case Suspended(closure, f, t) => ThreadLoad(closure).Plus(Load(0, 0, 2 + BodyWork(f) + BodyWork(t)))
    case Inlined(closure, f, t) =>
      ThreadLoad(closure).Plus(Load(if Waiting(closure) then 0 else 1, if Waiting(closure) then 1 else 0, 2 + BodyWork(f) + BodyWork(t)))
    case Joining(children, all, threw) => Total(JobLoads(children)).Plus(Load(0, 0, 2 + BodyWork(all) + BodyWork(threw)))
    case Finished(_) => Load(0, 0, 0)
  }

  function JobLoads(js: seq<Job>): seq<Load> {
    seq(|js|, i requires 0 <= i < |js| => JobLoad(js[i]))
  }

  function ThreadLoads(ts: seq<Thread>): seq<Load> {
    seq(|ts|, i requires 0 <= i < |ts| => ThreadLoad(ts[i]))
  }

  function Total(loads: seq<Load>): Load {
    if loads == [] then Load(0, 0, 0) else loads[0].Plus(Total(loads[1..]))
  }

  /** The pool workers in use. */
  function Workers(s: State): nat {
    Total(ThreadLoads(s.threads)).Workers() + s.exiting
  }

  /** The pool workers whose closure is parked in `blocking`. */
  function ParkedWorkers(s: State): nat {
    Total(ThreadLoads(s.threads)).parked
  }

  function Work(s: State): nat {
    Total(ThreadLoads(s.threads)).work + s.exiting
  }

  /******* Steps *******/

  /** The next thing `t` or anything it waits for does. `free` says whether the
      pool has a worker to spare, and `exits` counts the tasks left on one when
      the call they signalled returns. */
  predicate ThreadStep(free: bool, t: Thread, t': Thread, exits: int)
    decreases t, 0
  {
    match t
    case At(Return(_)) => false
    case At(Blocking(body, returned, threw)) =>
      exits == 0 && t' == InBlocking(Call(body, Some(body), None, None, 0, Queued), returned, threw)
    case InBlocking(call, returned, threw) =>
      || (t'.InBlocking? && t' == InBlocking(t'.call, returned, threw) && CallStep(free, call, t'.call, exits))
      // `semaphore.wait()` returns, and then the guard and `outcome.get()`
      || (call.signals > 0 && t' == At(if call.outcome.Some? && call.outcome.value.Success? then returned else threw)
          && exits == if call.task.Signalled? then 1 else 0)
  }

  predicate CallStep(free: bool, c: Call, c': Call, exits: int)
    decreases c, 0
  {
    match c.task
    case Queued => free && exits == 0 && c' == c.(task := Started)
    case Started =>
      && exits == 0
      && c' == c.(pending := None, taken := c.pending,
               task := if c.pending.Some? then Working(Running(c.pending.value)) else Leaving)
    case Working(job) =>
      if job.Running? && job.rest.Done? then
        exits == 0 && c' == c.(outcome := Some(job.rest.outcome), task := Leaving)
      else
        c'.task.Working? && c' == c.(task := c'.task) && JobStep(free, job, c'.task.job, exits)
    case Leaving => exits == 0 && c' == c.(taken := None, task := Released)
    case Released => exits == 0 && c' == c.(signals := c.signals + 1, task := Signalled)
    case Signalled => exits == 0 && c' == c.(task := Exited)
    case Exited => false
  }

  predicate JobStep(free: bool, j: Job, j': Job, exits: int)
    decreases j, 0
  {
    match j
    case Ready(rest) => free && exits == 0 && j' == Running(rest)
    case Running(Done(_)) => false // the task, or the group it is in, takes the outcome
    case Running(Await(closure, f, t)) => exits == 0 && j' == Suspended(At(closure), f, t)
    case Running(OnPool(closure, f, t)) => exits == 0 && j' == Inlined(At(closure), f, t)
    case Running(Group(children, all, threw)) => exits == 0 && j' == Joining(Readied(children), all, threw)
    case Suspended(closure, f, t) =>
      // `continuation.resume` queues the task for a worker
      || (Returned(closure) && exits == 0 && j' == Ready(if closure.closure.answer then t else f))
      || (j'.Suspended? && j' == Suspended(j'.closure, f, t) && ThreadStep(free, closure, j'.closure, exits))
    case Inlined(closure, f, t) =>
      || (Returned(closure) && exits == 0 && j' == Running(if closure.closure.answer then t else f))
      || (j'.Inlined? && j' == Inlined(j'.closure, f, t) && ThreadStep(free, closure, j'.closure, exits))
    case Joining(children, all, threw) =>
      || (AllFinished(children) && exits == 0 && j' == Ready(if AllSucceed(children) then all else threw))
      || (j'.Joining? && j' == Joining(j'.children, all, threw) && |j'.children| == |children|
          && exists i | 0 <= i < |children| ::
            && j'.children == children[i := j'.children[i]]
            && ChildStep(free, children[i], j'.children[i], exits))
    case Finished(_) => false
  }

  predicate ChildStep(free: bool, j: Job, j': Job, exits: int)
    decreases j, 1
  {
    if j.Running? && j.rest.Done? then
      exits == 0 && j' == Finished(j.rest.outcome)
    else
      JobStep(free, j, j', exits)
  }

  function Readied(bs: seq<Body>): seq<Job> {
    seq(|bs|, i requires 0 <= i < |bs| => Ready(bs[i]))
  }

  predicate AllFinished(js: seq<Job>) {
    forall i | 0 <= i < |js| :: js[i].Finished?
  }

  predicate AllSucceed(js: seq<Job>) {
    forall i | 0 <= i < |js| :: JobMeaning(js[i]).Success?
  }

  predicate Step(n: nat, s: State, s': State) {
    || (s.exiting > 0 && s' == s.(exiting := s.exiting - 1))
    || (|s'.threads| == |s.threads|
        && exists i | 0 <= i < |s.threads| ::
          && s'.threads == s.threads[i := s'.threads[i]]
          && ThreadStep(Workers(s) < n, s.threads[i], s'.threads[i], s'.exiting - s.exiting))
  }

  /** What the protocol is to compute for each node. */
  function ThreadMeaning(t: Thread): bool {
    match t
    case At(closure) => Answer(closure)
    case InBlocking(call, returned, threw) => if Meaning(call.body).Success? then Answer(returned) else Answer(threw)
  }

  function JobMeaning(j: Job): Outcome {
    match j
    case Ready(rest) => Meaning(rest)
    case Running(rest) => Meaning(rest)
    case Suspended(closure, f, t) => if ThreadMeaning(closure) then Meaning(t) else Meaning(f)
    case Inlined(closure, f, t) => if ThreadMeaning(closure) then Meaning(t) else Meaning(f)
    case Joining(children, all, threw) => if AllSucceed(children) then Meaning(all) else Meaning(threw)
    case Finished(outcome) => outcome
  }
}
