/**
 How many workers can be parked at once. A program's peak is found from what its
 bodies and closures mean, before anything runs. No step raises it, and no state
 has more workers parked than its peak.
 */
module SchedulerPeaks {
  import opened Wrappers
  import opened Scheduler
  import opened SchedulerLaws

  function Max(a: nat, b: nat): nat {
    if a > b then a else b
  }

  function Sum(ns: seq<nat>): nat {
    if ns == [] then 0 else ns[0] + Sum(ns[1..])
  }

  /******* The peak of a program *******/

  /** The most workers that a body can have parked at once. */
  function Peak(b: Body): nat {
    match b
    case Done(_) => 0
    case Await(closure, f, t) => Max(ClosurePeak(closure), if Answer(closure) then Peak(t) else Peak(f))
    case OnPool(closure, f, t) =>
      Max(if closure.Return? then 0 else 1 + ClosurePeak(closure), if Answer(closure) then Peak(t) else Peak(f))
    case Group(children, all, threw) =>
      Max(Sum(Peaks(children)), if AllReturn(children) then Peak(all) else Peak(threw))
  }

  function ClosurePeak(c: Closure): nat {
    match c
    case Return(_) => 0
    case Blocking(body, returned, threw) =>
      Max(Peak(body), if Meaning(body).Success? then ClosurePeak(returned) else ClosurePeak(threw))
  }

  function Peaks(bs: seq<Body>): seq<nat> {
    seq(|bs|, i requires 0 <= i < |bs| => Peak(bs[i]))
  }

  predicate AllReturn(bs: seq<Body>) {
    forall i | 0 <= i < |bs| :: Meaning(bs[i]).Success?
  }

  /** The most workers that `programs`, each on its own thread, can have parked. */
  function PeakOf(programs: seq<Closure>): nat {
    Sum(ClosurePeaks(programs))
  }

  function ClosurePeaks(programs: seq<Closure>): seq<nat> {
    seq(|programs|, i requires 0 <= i < |programs| => ClosurePeak(programs[i]))
  }

  /******* The closures on the pool that call back *******/

  /** How many closures left on the pool call `blocking`, whether or not they are
      ever reached. */
  function Callers(b: Body): nat {
    match b
    case Done(_) => 0
    case Await(closure, f, t) => ClosureCallers(closure) + Callers(f) + Callers(t)
    case OnPool(closure, f, t) =>
      (if closure.Return? then 0 else 1) + ClosureCallers(closure) + Callers(f) + Callers(t)
    case Group(children, all, threw) => Sum(CallersEach(children)) + Callers(all) + Callers(threw)
  }

  function ClosureCallers(c: Closure): nat {
    match c
    case Return(_) => 0
    case Blocking(body, returned, threw) => Callers(body) + ClosureCallers(returned) + ClosureCallers(threw)
  }

  function CallersEach(bs: seq<Body>): seq<nat> {
    seq(|bs|, i requires 0 <= i < |bs| => Callers(bs[i]))
  }

  function CallersOf(programs: seq<Closure>): nat {
    Sum(ClosureCallersEach(programs))
  }

  function ClosureCallersEach(programs: seq<Closure>): seq<nat> {
    seq(|programs|, i requires 0 <= i < |programs| => ClosureCallers(programs[i]))
  }

  /** Every closure that a body leaves on the pool, wherever it is written. */
  function OnPoolClosures(b: Body): seq<Closure> {
    match b
    case Done(_) => []
    case Await(closure, f, t) => WithinClosure(closure) + OnPoolClosures(f) + OnPoolClosures(t)
    case OnPool(closure, f, t) => [closure] + WithinClosure(closure) + OnPoolClosures(f) + OnPoolClosures(t)
    case Group(children, all, threw) => WithinEach(children) + OnPoolClosures(all) + OnPoolClosures(threw)
  }

  function WithinClosure(c: Closure): seq<Closure> {
    match c
    case Return(_) => []
    case Blocking(body, returned, threw) => OnPoolClosures(body) + WithinClosure(returned) + WithinClosure(threw)
  }

  function WithinEach(bs: seq<Body>): seq<Closure> {
    if bs == [] then [] else OnPoolClosures(bs[0]) + WithinEach(bs[1..])
  }

  /** Those of them that call `blocking`. */
  function Blockers(cs: seq<Closure>): (r: seq<Closure>)
    ensures forall c :: c in r <==> c in cs && c.Blocking?
  {
    if cs == [] then [] else (if cs[0].Blocking? then [cs[0]] else []) + Blockers(cs[1..])
  }

  lemma {:induction false} BlockersOfBoth(cs: seq<Closure>, ds: seq<Closure>)
    ensures |Blockers(cs + ds)| == |Blockers(cs)| + |Blockers(ds)|
  {
    if cs == [] {
      assert cs + ds == ds;
    } else {
      assert (cs + ds)[0] == cs[0] && (cs + ds)[1..] == cs[1..] + ds;
      BlockersOfBoth(cs[1..], ds);
    }
  }

  /** The count is that of the listing. */
  lemma {:induction false} CallersListed(b: Body)
    ensures Callers(b) == |Blockers(OnPoolClosures(b))|
    decreases b, 0
  {
    hide Blockers;
    match b
    case Done(_) => assert OnPoolClosures(b) == [];
    NoBlockers();
    case Await(closure, f, t) =>
      ClosureCallersListed(closure);
      CallersListed(f);
      CallersListed(t);
      BlockersOfBoth(WithinClosure(closure), OnPoolClosures(f));
      BlockersOfBoth(WithinClosure(closure) + OnPoolClosures(f), OnPoolClosures(t));
    case OnPool(closure, f, t) =>
      ClosureCallersListed(closure);
      CallersListed(f);
      CallersListed(t);
      OneBlocker(closure);
      BlockersOfBoth([closure], WithinClosure(closure));
      BlockersOfBoth([closure] + WithinClosure(closure), OnPoolClosures(f));
      BlockersOfBoth([closure] + WithinClosure(closure) + OnPoolClosures(f), OnPoolClosures(t));
    case Group(children, all, threw) =>
      EachCallersListed(children);
      CallersListed(all);
      CallersListed(threw);
      BlockersOfBoth(WithinEach(children), OnPoolClosures(all));
      BlockersOfBoth(WithinEach(children) + OnPoolClosures(all), OnPoolClosures(threw));
  }

  lemma NoBlockers()
    ensures Blockers([]) == []
  {
  }

  lemma OneBlocker(c: Closure)
    ensures |Blockers([c])| == if c.Blocking? then 1 else 0
  {
    assert [c][1..] == [];
  }

  lemma {:induction false} ClosureCallersListed(c: Closure)
    ensures ClosureCallers(c) == |Blockers(WithinClosure(c))|
    decreases c, 0
  {
    hide Blockers;
    if c.Return? {
      NoBlockers();
    } else {
      CallersListed(c.body);
      ClosureCallersListed(c.ifReturned);
      ClosureCallersListed(c.ifThrew);
      BlockersOfBoth(OnPoolClosures(c.body), WithinClosure(c.ifReturned));
      BlockersOfBoth(OnPoolClosures(c.body) + WithinClosure(c.ifReturned), WithinClosure(c.ifThrew));
    }
  }

  lemma {:induction false} EachCallersListed(bs: seq<Body>)
    ensures Sum(CallersEach(bs)) == |Blockers(WithinEach(bs))|
    decreases bs, 0
  {
    hide Blockers;
    if bs == [] {
      NoBlockers();
    } else {
      CallersListed(bs[0]);
      EachCallersListed(bs[1..]);
      assert CallersEach(bs)[1..] == CallersEach(bs[1..]);
      BlockersOfBoth(OnPoolClosures(bs[0]), WithinEach(bs[1..]));
    }
  }

  /** No more are parked at once than there are. */
  lemma {:induction false} PeakAtMostCallers(b: Body)
    ensures Peak(b) <= Callers(b)
    decreases b
  {
    match b
    case Done(_) =>
    case Await(closure, f, t) => {
      ClosurePeakAtMostCallers(closure);
      PeakAtMostCallers(f);
      PeakAtMostCallers(t);
    }
    case OnPool(closure, f, t) => {
      ClosurePeakAtMostCallers(closure);
      PeakAtMostCallers(f);
      PeakAtMostCallers(t);
    }
    case Group(children, all, threw) => {
      forall i | 0 <= i < |children| ensures Peaks(children)[i] <= CallersEach(children)[i] {
        PeakAtMostCallers(children[i]);
      }
      SumAtMost(Peaks(children), CallersEach(children));
      PeakAtMostCallers(all);
      PeakAtMostCallers(threw);
    }
  }

  lemma {:induction false} ClosurePeakAtMostCallers(c: Closure)
    ensures ClosurePeak(c) <= ClosureCallers(c)
    decreases c
  {
    if c.Blocking? {
      PeakAtMostCallers(c.body);
      ClosurePeakAtMostCallers(c.ifReturned);
      ClosurePeakAtMostCallers(c.ifThrew);
    }
  }

  lemma PeakOfAtMostCallers(programs: seq<Closure>)
    ensures PeakOf(programs) <= CallersOf(programs)
  {
    forall i | 0 <= i < |programs| ensures ClosurePeaks(programs)[i] <= ClosureCallersEach(programs)[i] {
      ClosurePeakAtMostCallers(programs[i]);
    }
    SumAtMost(ClosurePeaks(programs), ClosureCallersEach(programs));
  }

  /** There are none exactly where every closure that calls back is off the pool. */
  lemma {:induction false} NoCallersExactly(b: Body)
    ensures KeepsOffPool(b) <==> Callers(b) == 0
    decreases b
  {
    match b
    case Done(_) =>
    case Await(closure, f, t) => {
      ClosureNoCallersExactly(closure);
      NoCallersExactly(f);
      NoCallersExactly(t);
    }
    case OnPool(closure, f, t) => {
      NoCallersExactly(f);
      NoCallersExactly(t);
    }
    case Group(children, all, threw) => {
      SumZero(CallersEach(children));
      forall i | 0 <= i < |children| ensures KeepsOffPool(children[i]) <==> CallersEach(children)[i] == 0 {
        NoCallersExactly(children[i]);
      }
      NoCallersExactly(all);
      NoCallersExactly(threw);
    }
  }

  lemma {:induction false} ClosureNoCallersExactly(c: Closure)
    ensures CallsKeepOffPool(c) <==> ClosureCallers(c) == 0
    decreases c
  {
    if c.Blocking? {
      NoCallersExactly(c.body);
      ClosureNoCallersExactly(c.ifReturned);
      ClosureNoCallersExactly(c.ifThrew);
    }
  }

  lemma NoCallersOfExactly(programs: seq<Closure>)
    ensures (forall i | 0 <= i < |programs| :: CallsKeepOffPool(programs[i])) <==> CallersOf(programs) == 0
  {
    SumZero(ClosureCallersEach(programs));
    forall i | 0 <= i < |programs| ensures CallsKeepOffPool(programs[i]) <==> ClosureCallersEach(programs)[i] == 0 {
      ClosureNoCallersExactly(programs[i]);
    }
  }

  /******* Sums *******/

  lemma {:induction false} SumAtMost(ns: seq<nat>, ms: seq<nat>)
    requires |ns| == |ms| && forall i | 0 <= i < |ns| :: ns[i] <= ms[i]
    ensures Sum(ns) <= Sum(ms)
  {
    if ns != [] {
      SumAtMost(ns[1..], ms[1..]);
    }
  }

  lemma {:induction false} SumZero(ns: seq<nat>)
    ensures Sum(ns) == 0 <==> forall i | 0 <= i < |ns| :: ns[i] == 0
  {
    if ns != [] {
      var rest := ns[1..];
      SumZero(rest);
      assert forall i | 0 <= i < |rest| :: rest[i] == ns[i + 1];
      assert forall i | 1 <= i < |ns| :: ns[i] == rest[i - 1];
    }
  }

  /******* The peak of a state *******/

  function ThreadPeak(t: Thread): nat
    decreases t
  {
    match t
    case At(closure) => ClosurePeak(closure)
    case InBlocking(call, returned, threw) =>
      Max(CallPeak(call), if Meaning(call.body).Success? then ClosurePeak(returned) else ClosurePeak(threw))
  }

  function CallPeak(c: Call): nat
    decreases c
  {
    match c.task
    case Working(job) => JobPeak(job)
    case _ => if c.pending.Some? then Peak(c.pending.value) else 0
  }

  function JobPeak(j: Job): nat
    decreases j
  {
    match j
    case Ready(rest) => Peak(rest)
    case Running(rest) => Peak(rest)
    case Suspended(closure, f, t) => Max(ThreadPeak(closure), if ThreadMeaning(closure) then Peak(t) else Peak(f))
    case Inlined(closure, f, t) =>
      Max(if Returned(closure) then 0 else 1 + ThreadPeak(closure), if ThreadMeaning(closure) then Peak(t) else Peak(f))
    case Joining(children, all, threw) =>
      Max(Sum(JobPeaks(children)), if AllSucceed(children) then Peak(all) else Peak(threw))
    case Finished(_) => 0
  }

  function JobPeaks(js: seq<Job>): seq<nat> {
    seq(|js|, i requires 0 <= i < |js| => JobPeak(js[i]))
  }

  function ThreadPeaks(ts: seq<Thread>): seq<nat> {
    seq(|ts|, i requires 0 <= i < |ts| => ThreadPeak(ts[i]))
  }

  /******* No step raises it *******/

  lemma {:induction false} ThreadPeakFalls(free: bool, t: Thread, t': Thread, exits: int)
    requires ValidThread(t) && ThreadStep(free, t, t', exits)
    ensures ThreadPeak(t') <= ThreadPeak(t)
    decreases t, 0
  {
    if t.InBlocking? && t'.InBlocking? {
      CallPeakFalls(free, t.call, t'.call, exits);
    }
  }

  lemma {:induction false} CallPeakFalls(free: bool, c: Call, c': Call, exits: int)
    requires ValidCall(c) && CallStep(free, c, c', exits)
    ensures CallPeak(c') <= CallPeak(c) && c'.body == c.body
    decreases c, 0
  {
    hide JobPeak, Peak, JobStep, ValidJob, JobMeaning, Meaning;
    if c.task.Started? {
      JobPeakIs(Running(c.body));
    } else if c.task.Working? && c'.task.Working? {
      JobPeakFalls(free, c.task.job, c'.task.job, exits);
    }
  }

  /** One unfolding of `JobPeak`. */
  lemma JobPeakIs(j: Job)
    ensures match j
            case Ready(rest) => JobPeak(j) == Peak(rest)
            case Running(rest) => JobPeak(j) == Peak(rest)
            case Suspended(closure, f, t) =>
              JobPeak(j) == Max(ThreadPeak(closure), if ThreadMeaning(closure) then Peak(t) else Peak(f))
            case Inlined(closure, f, t) =>
              JobPeak(j) == Max(if Returned(closure) then 0 else 1 + ThreadPeak(closure),
                                if ThreadMeaning(closure) then Peak(t) else Peak(f))
            case Joining(children, all, threw) =>
              JobPeak(j) == Max(Sum(JobPeaks(children)), if AllSucceed(children) then Peak(all) else Peak(threw))
            case Finished(_) => JobPeak(j) == 0
  {
    hide ThreadPeak, Peak, Sum, JobPeaks, ThreadMeaning;
  }

  lemma AtPeak(c: Closure)
    ensures ThreadPeak(At(c)) == ClosurePeak(c) && ThreadMeaning(At(c)) == Answer(c)
  {
    hide ClosurePeak, Answer;
  }

  lemma {:induction false} JobPeakFalls(free: bool, j: Job, j': Job, exits: int)
    requires ValidJob(j) && JobStep(free, j, j', exits)
    ensures JobPeak(j') <= JobPeak(j)
    decreases j, 1
  {
    if j.Suspended? || j.Inlined? {
      ClosurePeakFalls(free, j, j', exits);
    } else if j.Joining? {
      JoiningPeakFalls(free, j, j', exits);
    } else {
      BodyPeakFalls(free, j, j', exits);
    }
    hide *;
  }

  lemma BodyPeakFalls(free: bool, j: Job, j': Job, exits: int)
    requires JobStep(free, j, j', exits) && (j.Ready? || j.Running?)
    ensures JobPeak(j') <= JobPeak(j)
  {
    hide JobPeak, ThreadPeak, ClosurePeak, ThreadStep, ChildStep, ThreadMeaning, Meaning, Answer, Sum;
    JobPeakIs(j);
    JobPeakIs(j');
    if j.Ready? {
      hide Peak;
    } else if j.rest.Group? {
      var children := j.rest.children;
      forall i | 0 <= i < |children|
        ensures JobPeaks(Readied(children))[i] == Peak(children[i])
        ensures JobMeaning(Readied(children)[i]) == Meaning(children[i])
      {
        JobPeakIs(Ready(children[i]));
      }
      assert JobPeaks(Readied(children)) == Peaks(children);
    } else {
      AtPeak(j'.closure.closure);
    }
  }

  lemma {:induction false} ClosurePeakFalls(free: bool, j: Job, j': Job, exits: int)
    requires ValidJob(j) && JobStep(free, j, j', exits) && (j.Suspended? || j.Inlined?)
    ensures JobPeak(j') <= JobPeak(j)
    decreases j, 0
  {
    hide ThreadStep, ChildStep, Peak, ThreadPeak, JobPeak, ValidThread, ThreadMeaning;
    JobPeakIs(j);
    JobPeakIs(j');
    if j'.Suspended? || j'.Inlined? {
      ThreadPeakFalls(free, j.closure, j'.closure, exits);
      ThreadStepKeepsMeaning(free, j.closure, j'.closure, exits);
      if Returned(j.closure) {
        assert false by { NoStepReturned(free, j.closure, j'.closure, exits); }
      }
    } else {
      AnswerIs(j.closure);
    }
  }

  lemma NoStepReturned(free: bool, t: Thread, t': Thread, exits: int)
    requires Returned(t)
    ensures !ThreadStep(free, t, t', exits)
  {
  }

  lemma AnswerIs(t: Thread)
    requires Returned(t)
    ensures ThreadMeaning(t) == t.closure.answer
  {
  }

  lemma {:induction false} JoiningPeakFalls(free: bool, j: Job, j': Job, exits: int)
    requires ValidJob(j) && JobStep(free, j, j', exits) && j.Joining?
    ensures JobPeak(j') <= JobPeak(j)
    decreases j, 0
  {
    hide ThreadStep, Peak, JobPeak, Sum, JobMeaning;
    JobPeakIs(j);
    JobPeakIs(j');
    if j'.Joining? {
      var i :| 0 <= i < |j.children| && j'.children == j.children[i := j'.children[i]]
               && ChildStep(free, j.children[i], j'.children[i], exits);
      ChildPeakFalls(free, j.children[i], j'.children[i], exits);
      assert forall k | 0 <= k < |j.children| :: JobMeaning(j'.children[k]) == JobMeaning(j.children[k]);
      SumAtMost(JobPeaks(j'.children), JobPeaks(j.children));
    }
  }

  lemma {:induction false} ChildPeakFalls(free: bool, j: Job, j': Job, exits: int)
    requires ValidJob(j) && ChildStep(free, j, j', exits)
    ensures JobPeak(j') <= JobPeak(j) && JobMeaning(j') == JobMeaning(j)
    decreases j, 2
  {
    if j.Running? && j.rest.Done? {
      JobPeakIs(j');
    } else {
      JobPeakFalls(free, j, j', exits);
      JobStepKeepsMeaning(free, j, j', exits);
    }
    hide JobPeak, JobStep, ValidJob;
  }

  /******* It bounds the workers parked *******/

  lemma {:induction false} ThreadParkedAtMostPeak(t: Thread)
    ensures ThreadLoad(t).parked <= ThreadPeak(t)
    decreases t
  {
    if t.At? {
      AtLoad(t.closure);
    } else if t.call.task.Working? {
      var job := t.call.task.job;
      JobParkedAtMostPeak(job);
      WorkingLoad(job, t.call.pending);
    } else {
      PlainLoads(t.call.pending);
    }
    hide JobLoad, TaskLoad, JobPeak, Peak, ClosurePeak;
  }

  lemma {:induction false} JobParkedAtMostPeak(j: Job)
    ensures JobLoad(j).parked <= JobPeak(j)
    decreases j
  {
    hide JobLoad, JobPeak, ThreadLoad, ThreadPeak, Peak, Total, Sum;
    JobLoadIs(j);
    JobPeakIs(j);
    match j
    case Suspended(closure, _, _) => ThreadParkedAtMostPeak(closure);
    case Inlined(closure, _, _) => {
      ThreadParkedAtMostPeak(closure);
      if closure.At? {
        AtLoad(closure.closure);
      }
    }
    case Joining(children, _, _) => {
      forall i | 0 <= i < |children| ensures JobLoads(children)[i].parked <= JobPeaks(children)[i] {
        JobParkedAtMostPeak(children[i]);
      }
      ParkedAtMostSum(JobLoads(children), JobPeaks(children));
    }
    case _ =>
  }

  lemma {:induction false} ParkedAtMostSum(loads: seq<Load>, peaks: seq<nat>)
    requires |loads| == |peaks| && forall i | 0 <= i < |loads| :: loads[i].parked <= peaks[i]
    ensures Total(loads).parked <= Sum(peaks)
  {
    if loads != [] {
      ParkedAtMostSum(loads[1..], peaks[1..]);
    }
  }
}
