/**
 `Progress::call` from any number of Swift threads at once, one step for each
 lock it takes: the check, the handler's run, and the keeping of its panic. Once
 Swift has returned, `progressing` takes the kept panic to resume it, and calls
 that Swift didn't wait for go on.
 */
module ProgressProtocol {
  import opened Wrappers

  type Payload = nat

  /** Where one call of `Progress::call` is. */
  datatype Phase =
    | Entered
    | Passed                      // saw no panic, and has yet to call the handler
    | Handling
    | Panicking(payload: Payload) // caught, and not yet kept
    | Left

  /** What one call does next, or that `progressing` resumes what is kept. */
  datatype Event =
    | Enter
    | Check(call: nat)
    | Begin(call: nat)
    | Finish(call: nat)
    | Unwind(call: nat, payload: Payload)
    | Keep(call: nat)
    | Resume

  /** What Swift's calls do. */
  type CallEvent = e: Event | e != Resume witness Enter

  /** The kept panic, every call Swift has made, and what `progressing` resumed,
      if it has. */
  datatype State = State(kept: Option<Payload>, calls: seq<Phase>, resumed: Option<Option<Payload>>)

  const INITIAL := State(None, [], None)

  predicate Enabled(s: State, e: Event) {
    match e
    case Enter => true
    case Check(i) => i < |s.calls| && s.calls[i] == Entered
    case Begin(i) => i < |s.calls| && s.calls[i] == Passed
    case Finish(i) => i < |s.calls| && s.calls[i] == Handling
    case Unwind(i, _) => i < |s.calls| && s.calls[i] == Handling
    case Keep(i) => i < |s.calls| && s.calls[i].Panicking?
    case Resume => s.resumed.None?
  }

  /** `handler` says whether Rust handed Swift one. */
  function Next(handler: bool, s: State, e: Event): State
    requires Enabled(s, e)
  {
    match e
    case Enter => s.(calls := s.calls + [Entered])
    case Check(i) => s.(calls := s.calls[i := if handler && s.kept.None? then Passed else Left])
    case Begin(i) => s.(calls := s.calls[i := Handling])
    case Finish(i) => s.(calls := s.calls[i := Left])
    case Unwind(i, payload) => s.(calls := s.calls[i := Panicking(payload)])
    case Keep(i) => s.(kept := if s.kept.Some? then s.kept else Some(s.calls[i].payload), calls := s.calls[i := Left])
    case Resume => s.(kept := None, resumed := Some(s.kept))
  }

  /** The state after a history, if each of its events could happen. */
  function After(handler: bool, history: seq<Event>): Option<State> {
    if history == [] then Some(INITIAL) else
    var e := history[|history| - 1];
    var before := After(handler, history[..|history| - 1]);
    if before.Some? && Enabled(before.value, e) then Some(Next(handler, before.value, e)) else None
  }

  predicate Happens(handler: bool, history: seq<Event>) {
    After(handler, history).Some?
  }

  /** Swift's call has returned from every handler it called. */
  predicate AllLeft(s: State) {
    forall i | 0 <= i < |s.calls| :: s.calls[i] == Left
  }

  lemma {:induction false} PrefixHappens(handler: bool, history: seq<Event>, n: nat)
    requires Happens(handler, history) && n <= |history|
    ensures Happens(handler, history[..n])
    decreases |history|
  {
    if n < |history| {
      var before := history[..|history| - 1];
      PrefixHappens(handler, before, n);
      assert before[..n] == history[..n];
    } else {
      assert history[..n] == history;
    }
  }

  lemma HappensAt(handler: bool, history: seq<Event>, k: nat)
    requires Happens(handler, history) && k < |history|
    ensures Happens(handler, history[..k]) && Enabled(After(handler, history[..k]).value, history[k])
    ensures After(handler, history[..k + 1]) == Some(Next(handler, After(handler, history[..k]).value, history[k]))
  {
    PrefixHappens(handler, history, k);
    PrefixHappens(handler, history, k + 1);
    assert history[..k + 1][..k] == history[..k];
  }

  /** The first kept panic is never replaced: it stays until it is what
      `progressing` resumes. */
  lemma {:induction false} NeverReplaced(handler: bool, history: seq<Event>, n: nat)
    requires Happens(handler, history) && n <= |history|
    requires After(handler, history[..n]).Some? && After(handler, history[..n]).value.kept.Some?
    ensures var was, end := After(handler, history[..n]).value, After(handler, history).value;
            if Resume in history[n..] then end.resumed == Some(was.kept) else end.kept == was.kept
    decreases |history| - n
  {
    if n == |history| {
      assert history[..n] == history;
    } else {
      HappensAt(handler, history, n);
      assert history[n..] == [history[n]] + history[n + 1..];
      if history[n] == Resume {
        ResumesOnce(handler, history, n + 1);
      } else {
        NeverReplaced(handler, history, n + 1);
      }
    }
  }

  lemma {:induction false} ResumesOnce(handler: bool, history: seq<Event>, n: nat)
    requires Happens(handler, history) && n <= |history|
    requires After(handler, history[..n]).Some? && After(handler, history[..n]).value.resumed.Some?
    ensures Resume !in history[n..]
    ensures After(handler, history).value.resumed == After(handler, history[..n]).value.resumed
    decreases |history| - n
  {
    if n == |history| {
      assert history[..n] == history;
    } else {
      HappensAt(handler, history, n);
      assert history[n..] == [history[n]] + history[n + 1..];
      ResumesOnce(handler, history, n + 1);
    }
  }

  /** A panic was kept at `k`, and nothing has been resumed since. */
  predicate Standing(history: seq<Event>, k: nat) {
    && k < |history| && history[k].Keep?
    && forall r | k < r < |history| :: history[r] != Resume
  }

  /** A panic is kept exactly when some call got as far as keeping one, and
      nothing has been resumed since. */
  lemma {:induction false} KeptExactly(handler: bool, history: seq<Event>)
    requires Happens(handler, history)
    ensures After(handler, history).value.kept.None? <==> forall k | 0 <= k < |history| :: !Standing(history, k)
    decreases |history|
  {
    if history != [] {
      var last := |history| - 1;
      HappensAt(handler, history, last);
      assert history[..|history|] == history;
      KeptExactly(handler, history[..last]);
      forall k | 0 <= k < last ensures Standing(history, k) <==> Standing(history[..last], k) && history[last] != Resume {
        StandingStep(history, k);
      }
      assert history[last].Keep? ==> Standing(history, last);
    }
  }

  lemma StandingStep(history: seq<Event>, k: nat)
    requires k < |history| - 1
    ensures Standing(history, k) <==> Standing(history[..|history| - 1], k) && history[|history| - 1] != Resume
  {
    var before := history[..|history| - 1];
    assert forall j | 0 <= j < |before| :: before[j] == history[j];
  }

  /** How a call came to the phase it is in. */
  lemma {:induction false} PhaseReached(handler: bool, history: seq<Event>, i: nat)
    requires Happens(handler, history) && i < |After(handler, history).value.calls|
    ensures var phase := After(handler, history).value.calls[i];
            && (phase == Passed || phase == Handling || phase.Panicking? ==> PassedCheck(history, i))
            && (phase == Entered || phase == Passed || phase == Handling || phase.Panicking? ==>
                  forall k | 0 <= k < |history| :: history[k] != Keep(i))
            && (phase == Entered || phase == Passed || phase == Handling ==>
                  forall k | 0 <= k < |history| :: !(history[k].Unwind? && history[k].call == i))
            && (phase.Panicking? ==> Unwind(i, phase.payload) in history)
            && (phase == Left ==> forall k | 0 <= k < |history| && history[k].Unwind? && history[k].call == i ::
                    Keep(i) in history)
    decreases |history|
  {
    var last := |history| - 1;
    var before, e := history[..last], history[last];
    HappensAt(handler, history, last);
    assert history[..|history|] == history;
    assert forall k | 0 <= k < last :: before[k] == history[k];
    hide After, Standing;
    if i < |After(handler, before).value.calls| {
      PhaseReached(handler, before, i);
      if PassedCheck(before, i) {
        PassedStays(history, i);
      }
      if e == Check(i) {
        KeptExactly(handler, before);
        assert history[last] == Check(i);
      }
    } else {
      NoEventBefore(handler, before, i);
    }
  }

  /** `i` checked when no panic was kept, or the one that was had been resumed. */
  predicate PassedCheck(history: seq<Event>, i: nat) {
    exists c | 0 <= c < |history| :: history[c] == Check(i) && forall k | 0 <= k < c :: !Standing(history[..c], k)
  }

  lemma PassedStays(history: seq<Event>, i: nat)
    requires history != [] && PassedCheck(history[..|history| - 1], i)
    ensures PassedCheck(history, i)
  {
    hide Standing;
    var before := history[..|history| - 1];
    var c :| 0 <= c < |before| && before[c] == Check(i) && forall k | 0 <= k < c :: !Standing(before[..c], k);
    assert before[..c] == history[..c] && history[c] == Check(i);
  }

  lemma {:induction false} NoEventBefore(handler: bool, history: seq<Event>, i: nat)
    requires Happens(handler, history) && i >= |After(handler, history).value.calls|
    ensures forall k | 0 <= k < |history| :: history[k] == Enter || history[k] == Resume || history[k].call != i
    decreases |history|
  {
    if history != [] {
      var last := |history| - 1;
      HappensAt(handler, history, last);
      assert history[..|history|] == history;
      NoEventBefore(handler, history[..last], i);
      assert forall k | 0 <= k < last :: history[..last][k] == history[k];
    }
  }

  /******* What one call goes through *******/

  predicate OfCall(e: Event, i: nat) {
    e != Enter && e != Resume && e.call == i
  }

  /** The events of one call, in order. */
  function TraceOf(history: seq<Event>, i: nat): seq<Event> {
    if history == [] then [] else
    var e := history[|history| - 1];
    TraceOf(history[..|history| - 1], i) + if OfCall(e, i) then [e] else []
  }

  lemma {:induction false} InTrace(history: seq<Event>, i: nat, e: Event)
    ensures e in TraceOf(history, i) <==> e in history && OfCall(e, i)
    decreases |history|
  {
    if history != [] {
      var last := |history| - 1;
      InTrace(history[..last], i, e);
      assert history == history[..last] + [history[last]];
    }
  }

  /** Each call checks, and if it goes on, runs the handler once, and then leaves,
      keeping the panic first if the handler panicked. */
  lemma {:induction false} CallTrace(handler: bool, history: seq<Event>, i: nat)
    requires Happens(handler, history) && i < |After(handler, history).value.calls|
    ensures var trace := TraceOf(history, i);
            match After(handler, history).value.calls[i]
            case Entered => trace == []
            case Passed => trace == [Check(i)]
            case Handling => trace == [Check(i), Begin(i)]
            case Panicking(payload) => trace == [Check(i), Begin(i), Unwind(i, payload)]
            case Left =>
              || trace == [Check(i)] || trace == [Check(i), Begin(i), Finish(i)]
              || exists payload :: trace == [Check(i), Begin(i), Unwind(i, payload), Keep(i)]
    decreases |history|
  {
    var last := |history| - 1;
    HappensAt(handler, history, last);
    assert history[..|history|] == history;
    if i < |After(handler, history[..last]).value.calls| {
      CallTrace(handler, history[..last], i);
      if history[last] == Keep(i) {
        var payload := After(handler, history[..last]).value.calls[i].payload;
        assert TraceOf(history, i) == [Check(i), Begin(i), Unwind(i, payload), Keep(i)];
      }
    } else {
      NoEventBefore(handler, history[..last], i);
      NoTrace(history[..last], i);
    }
  }

  lemma {:induction false} NoTrace(history: seq<Event>, i: nat)
    requires forall k | 0 <= k < |history| :: !OfCall(history[k], i)
    ensures TraceOf(history, i) == []
    decreases |history|
  {
    if history != [] {
      NoTrace(history[..|history| - 1], i);
    }
  }

  /** So no call runs the handler twice. */
  lemma BeginsOnce(handler: bool, history: seq<Event>, j: nat, k: nat)
    requires Happens(handler, history) && j < k < |history| && history[j].Begin?
    ensures history[k] != history[j]
  {
    var before, i := history[..k], history[j].call;
    HappensAt(handler, history, k);
    assert before[j] == history[j];
    CallStays(handler, before, j);
    CallTrace(handler, before, i);
    InTrace(before, i, history[j]);
  }

  /** And one whose handler returned, or whose panic was kept, has left for good. */
  lemma LeavesForGood(handler: bool, history: seq<Event>, k: nat)
    requires Happens(handler, history) && k < |history| && (history[k].Finish? || history[k].Keep?)
    ensures history[k].call < |After(handler, history).value.calls|
    ensures After(handler, history).value.calls[history[k].call] == Left
  {
    CallStays(handler, history, k);
    CallTrace(handler, history, history[k].call);
    InTrace(history, history[k].call, history[k]);
  }

  /** What can happen to a call next: it checks, it begins, its handler returns or
      panics, the panic is kept, and then nothing. A returned handler's call has
      left. */
  lemma CanGoOn(handler: bool, s: State, i: nat)
    requires i < |s.calls|
    ensures forall e | OfCall(e, i) ::
              Enabled(s, e) <==> match s.calls[i]
                                 case Entered => e == Check(i)
                                 case Passed => e == Begin(i)
                                 case Handling => e == Finish(i) || e.Unwind?
                                 case Panicking(_) => e == Keep(i)
                                 case Left => false
    ensures s.calls[i] == Handling ==>
              forall e | OfCall(e, i) :: Enabled(s, Finish(i)) && !Enabled(Next(handler, s, Finish(i)), e)
  {
  }

  /******* Who runs the handler *******/

  /** A call that checks goes on to the handler exactly where every panic that
      was kept before has been resumed. */
  lemma PassesExactly(handler: bool, history: seq<Event>, c: nat)
    requires Happens(handler, history) && c < |history| && history[c].Check?
    ensures Happens(handler, history[..c + 1]) && history[c].call < |After(handler, history[..c + 1]).value.calls|
    ensures After(handler, history[..c + 1]).value.calls[history[c].call] == Passed <==>
            handler && forall k | 0 <= k < c && history[k].Keep? :: exists r | k < r < c :: history[r] == Resume
  {
    HappensAt(handler, history, c);
    KeptExactly(handler, history[..c]);
    forall k | 0 <= k < c
      ensures Standing(history[..c], k) <==> history[k].Keep? && !exists r | k < r < c :: history[r] == Resume
    {
      StandingBefore(history, c, k);
    }
  }

  lemma StandingBefore(history: seq<Event>, c: nat, k: nat)
    requires k < c <= |history|
    ensures Standing(history[..c], k) <==> history[k].Keep? && !exists r | k < r < c :: history[r] == Resume
  {
    var before := history[..c];
    assert forall j | 0 <= j < c :: before[j] == history[j];
  }

  /** Once a panic is kept, a handler starts only where its call had already
      passed the check, or checked once a panic had been resumed. */
  lemma StartsOnlyIfPassed(handler: bool, history: seq<Event>, kept: nat, begun: nat)
    requires Happens(handler, history) && kept < begun < |history|
    requires history[kept].Keep? && history[begun].Begin?
    ensures handler
    ensures exists c | 0 <= c < begun ::
              && history[c] == Check(history[begun].call)
              && (c < kept || exists r | kept < r < c :: history[r] == Resume)
  {
    HappensAt(handler, history, begun);
    var before, i := history[..begun], history[begun].call;
    PhaseReached(handler, before, i);
    var c :| 0 <= c < |before| && before[c] == Check(i) && forall k | 0 <= k < c :: !Standing(before[..c], k);
    assert before[..c] == history[..c] && history[c] == Check(i) && before[kept] == history[kept];
    if kept < c {
      StandingBefore(history, c, kept);
    }
    if !handler {
      HandlerNeeded(handler, before, i);
    }
  }

  lemma {:induction false} HandlerNeeded(handler: bool, history: seq<Event>, i: nat)
    requires Happens(handler, history) && i < |After(handler, history).value.calls| && !handler
    ensures After(handler, history).value.calls[i] == Entered || After(handler, history).value.calls[i] == Left
    decreases |history|
  {
    var last := |history| - 1;
    HappensAt(handler, history, last);
    assert history[..|history|] == history;
    if i < |After(handler, history[..last]).value.calls| {
      HandlerNeeded(handler, history[..last], i);
    }
  }

  /** The kept panic is that of the first call to keep one since any was resumed. */
  lemma {:induction false} KeptIsFirst(handler: bool, history: seq<Event>) returns (k: nat)
    requires Happens(handler, history) && After(handler, history).value.kept.Some?
    ensures Standing(history, k) && forall j | 0 <= j < k :: !Standing(history, j)
    ensures Unwind(history[k].call, After(handler, history).value.kept.value) in history[..k]
    decreases |history|
  {
    var last := |history| - 1;
    var before := history[..last];
    HappensAt(handler, history, last);
    assert history[..|history|] == history;
    forall j | 0 <= j < last ensures Standing(history, j) <==> Standing(before, j) && history[last] != Resume {
      StandingStep(history, j);
    }
    if After(handler, before).value.kept.Some? {
      k := KeptIsFirst(handler, before);
      assert before[..k] == history[..k] && before[k] == history[k];
    } else {
      KeptExactly(handler, before);
      PhaseReached(handler, before, history[last].call);
      k := last;
    }
  }

  lemma {:induction false} CallStays(handler: bool, history: seq<Event>, k: nat)
    requires Happens(handler, history) && k < |history| && history[k] != Enter && history[k] != Resume
    ensures history[k].call < |After(handler, history).value.calls|
    decreases |history|
  {
    var last := |history| - 1;
    HappensAt(handler, history, last);
    assert history[..|history|] == history;
    if k < last {
      CallStays(handler, history[..last], k);
    }
  }

  predicate NoUnwind(history: seq<Event>) {
    forall k | 0 <= k < |history| :: !history[k].Unwind?
  }

  predicate NoEnter(history: seq<Event>) {
    forall k | 0 <= k < |history| :: history[k] != Enter
  }

  /** Up to Swift's return, a handler panicked and none is kept exactly where it
      is still unwinding. */
  lemma KeptOrUnwinding(handler: bool, history: seq<Event>)
    requires Happens(handler, history) && After(handler, history).value.resumed.None?
    ensures var at := After(handler, history).value;
            && (NoUnwind(history) ==> at.kept.None?)
            && (at.kept.None? && !NoUnwind(history) <==>
                at.kept.None? && exists i | 0 <= i < |at.calls| :: at.calls[i].Panicking?)
  {
    var at := After(handler, history).value;
    NotResumed(handler, history);
    KeptExactly(handler, history);
    if at.kept.Some? {
      var k := KeptIsFirst(handler, history);
      var u :| 0 <= u < k && history[..k][u] == Unwind(history[k].call, at.kept.value);
      assert history[u].Unwind?;
    } else {
      forall k | 0 <= k < |history| && history[k].Unwind?
        ensures exists i | 0 <= i < |at.calls| :: at.calls[i].Panicking?
      {
        CallStays(handler, history, k);
        PhaseReached(handler, history, history[k].call);
        if at.calls[history[k].call] == Left {
          var j :| 0 <= j < |history| && history[j] == Keep(history[k].call);
          assert Standing(history, j);
        }
        assert at.calls[history[k].call].Panicking?;
      }
      forall i | 0 <= i < |at.calls| && at.calls[i].Panicking?
        ensures exists k | 0 <= k < |history| :: history[k].Unwind?
      {
        PhaseReached(handler, history, i);
        var k :| 0 <= k < |history| && history[k] == Unwind(i, at.calls[i].payload);
        assert history[k].Unwind?;
      }
    }
  }

  lemma {:induction false} NotResumed(handler: bool, history: seq<Event>)
    requires Happens(handler, history) && After(handler, history).value.resumed.None?
    ensures Resume !in history
    decreases |history|
  {
    if history != [] {
      var last := |history| - 1;
      HappensAt(handler, history, last);
      assert history[..|history|] == history;
      assert history == history[..last] + [history[last]];
      NotResumed(handler, history[..last]);
    }
  }

  /******* What `progressing` resumes *******/

  /** `history` has `payload` kept by the first call to keep one, whose own
      handler panicked with it. */
  predicate FirstKept(history: seq<Event>, payload: Payload) {
    exists k | 0 <= k < |history| ::
      && history[k].Keep? && (forall j | 0 <= j < k :: !history[j].Keep?)
      && Unwind(history[k].call, payload) in history[..k]
  }

  /** Swift returns after `history`. However the calls that it has made go on,
      `progressing` resumes none exactly when no handler ever panics. */
  ghost predicate TellsAll(handler: bool, history: seq<Event>)
    requires Happens(handler, history)
  {
    forall more | Happens(handler, history + [Resume] + more) && NoEnter(more) ::
      After(handler, history).value.kept.None? <==> NoUnwind(history + [Resume] + more)
  }

  /** `progressing` resumes the panic of the first call to keep one, or none. It
      resumes none only where no handler ever panics, exactly where one is kept by
      then, or there is no handler, or Swift has waited for every call. */
  lemma ResumesExactly(handler: bool, history: seq<Event>)
    requires Happens(handler, history) && After(handler, history).value.resumed.None?
    ensures var at := After(handler, history).value;
            && After(handler, history + [Resume]) == Some(State(None, at.calls, Some(at.kept)))
            && (at.kept.Some? ==> FirstKept(history, at.kept.value))
            && (TellsAll(handler, history) <==> at.kept.Some? || !handler || AllLeft(at))
  {
    var at := After(handler, history).value;
    AfterStep(handler, history, Resume);
    KeptOrUnwinding(handler, history);
    if at.kept.Some? {
      var k := KeptIsFirst(handler, history);
      NotResumed(handler, history);
      forall j | 0 <= j < k ensures !history[j].Keep? {
        assert !Standing(history, j);
      }
    }
    if at.kept.Some? || !handler || AllLeft(at) {
      forall more | Happens(handler, history + [Resume] + more) && NoEnter(more)
        ensures at.kept.None? <==> NoUnwind(history + [Resume] + more)
      {
        NothingLost(handler, history, more);
      }
    } else {
      var i :| 0 <= i < |at.calls| && at.calls[i] != Left;
      var more := GoesOnToPanic(handler, history, i);
    }
  }

  lemma NothingLost(handler: bool, history: seq<Event>, more: seq<Event>)
    requires Happens(handler, history) && After(handler, history).value.resumed.None?
    requires Happens(handler, history + [Resume] + more)
    requires var at := After(handler, history).value; at.kept.Some? || !handler || (AllLeft(at) && NoEnter(more))
    ensures After(handler, history).value.kept.None? <==> NoUnwind(history + [Resume] + more)
  {
    var at, all := After(handler, history).value, history + [Resume] + more;
    KeptOrUnwinding(handler, history);
    if at.kept.Some? {
      var k :| 0 <= k < |history| && history[k].Unwind?;
      assert all[k].Unwind?;
    } else if !handler {
      forall k | 0 <= k < |all| ensures !all[k].Unwind? {
        if all[k].Unwind? {
          HappensAt(handler, all, k);
          HandlerNeeded(handler, all[..k], all[k].call);
        }
      }
    } else {
      NothingLeft(handler, history, more);
      assert all == history + [Resume];
    }
  }

  /** Once every call has left and no new ones come, nothing happens any more. */
  lemma NothingLeft(handler: bool, history: seq<Event>, more: seq<Event>)
    requires Happens(handler, history) && AllLeft(After(handler, history).value)
    requires After(handler, history).value.resumed.None?
    requires Happens(handler, history + [Resume] + more) && NoEnter(more)
    ensures more == []
  {
    if more != [] {
      var all, next := history + [Resume] + more, |history| + 1;
      AfterStep(handler, history, Resume);
      assert all[..next] == history + [Resume] && all[next] == more[0];
      HappensAt(handler, all, next);
    }
  }

  /** What a call that hasn't left can still do, once nothing is kept. */
  function ToPanic(phase: Phase, i: nat): seq<Event> {
    match phase
    case Entered => [Check(i), Begin(i), Unwind(i, 0)]
    case Passed => [Begin(i), Unwind(i, 0)]
    case Handling => [Unwind(i, 0)]
    case _ => []
  }

  lemma CanPanic(s: State, i: nat)
    requires s.kept.None? && i < |s.calls| && s.calls[i] != Left && !s.calls[i].Panicking?
    ensures Can(true, s, ToPanic(s.calls[i], i))
    decreases |ToPanic(s.calls[i], i)|
  {
    var more := ToPanic(s.calls[i], i);
    if s.calls[i] != Handling {
      var next := Next(true, s, more[0]);
      assert more[1..] == ToPanic(next.calls[i], i);
      CanPanic(next, i);
    }
  }

  lemma GoesOnToPanic(handler: bool, history: seq<Event>, i: nat) returns (more: seq<Event>)
    requires handler && Happens(handler, history)
    requires var at := After(handler, history).value;
             at.resumed.None? && at.kept.None? && i < |at.calls| && at.calls[i] != Left
    ensures Happens(handler, history + [Resume] + more) && NoEnter(more) && !NoUnwind(history + [Resume] + more)
  {
    var at := After(handler, history).value;
    more := ToPanic(at.calls[i], i);
    AfterStep(handler, history, Resume);
    if at.calls[i].Panicking? {
      KeptOrUnwinding(handler, history);
      var k :| 0 <= k < |history| && history[k].Unwind?;
      assert history + [Resume] + more == history + [Resume];
      assert (history + [Resume])[k].Unwind?;
    } else {
      CanPanic(After(handler, history + [Resume]).value, i);
      Continues(handler, history + [Resume], more);
      assert (history + [Resume] + more)[|history| + |more|].Unwind?;
    }
  }

  /** Each event of `more` in turn can happen. */
  predicate Can(handler: bool, s: State, more: seq<Event>)
    decreases |more|
  {
    more == [] || (Enabled(s, more[0]) && Can(handler, Next(handler, s, more[0]), more[1..]))
  }

  lemma {:induction false} Continues(handler: bool, history: seq<Event>, more: seq<Event>)
    requires Happens(handler, history) && Can(handler, After(handler, history).value, more)
    ensures Happens(handler, history + more)
    decreases |more|
  {
    if more == [] {
      assert history + more == history;
    } else {
      AfterStep(handler, history, more[0]);
      assert history + [more[0]] + more[1..] == history + more;
      Continues(handler, history + [more[0]], more[1..]);
    }
  }

  /** Where Swift may also make new calls after it returns, waiting for the others
      doesn't help. */
  lemma ResumesIfCalledLater(handler: bool, history: seq<Event>)
    requires Happens(handler, history) && After(handler, history).value.resumed.None?
    ensures var at := After(handler, history).value;
            (forall more | Happens(handler, history + [Resume] + more) ::
               at.kept.None? <==> NoUnwind(history + [Resume] + more)) <==>
            at.kept.Some? || !handler
  {
    var at := After(handler, history).value;
    if at.kept.Some? || !handler {
      forall more | Happens(handler, history + [Resume] + more)
        ensures at.kept.None? <==> NoUnwind(history + [Resume] + more)
      {
        NothingLost(handler, history, more);
      }
    } else {
      var i := |at.calls|;
      var more := [Enter] + ToPanic(Entered, i);
      AfterStep(handler, history, Resume);
      AfterStep(handler, history + [Resume], Enter);
      CanPanic(After(handler, history + [Resume] + [Enter]).value, i);
      Continues(handler, history + [Resume] + [Enter], ToPanic(Entered, i));
      assert history + [Resume] + [Enter] + ToPanic(Entered, i) == history + [Resume] + more;
      assert (history + [Resume] + more)[|history| + |more|].Unwind?;
    }
  }

  /** So where Swift waits for every handler it calls, `progressing` returns
      normally exactly when none panicked. */
  lemma ResumesIfAwaited(handler: bool, history: seq<Event>)
    requires Happens(handler, history) && AllLeft(After(handler, history).value)
    requires After(handler, history).value.resumed.None?
    ensures After(handler, history).value.kept.None? <==> NoUnwind(history)
  {
    KeptOrUnwinding(handler, history);
  }

  /******* Where Swift doesn't wait *******/

  /** `states` are what `history` goes through. */
  lemma {:induction false} Goes(handler: bool, history: seq<Event>, states: seq<State>)
    requires |states| == |history| + 1 && states[0] == INITIAL
    requires forall k | 0 <= k < |history| ::
               Enabled(states[k], history[k]) && states[k + 1] == Next(handler, states[k], history[k])
    ensures After(handler, history) == Some(states[|history|])
    decreases |history|
  {
    if history != [] {
      var last := |history| - 1;
      Goes(handler, history[..last], states[..last + 1]);
      AfterStep(handler, history[..last], history[last]);
      assert history[..last] + [history[last]] == history;
    }
  }

  /** Where Swift returns while a handler is still unwinding, its panic is lost. */
  lemma LostIfNotAwaited(payload: Payload)
    ensures var history := [Enter, Check(0), Begin(0), Unwind(0, payload)];
            Happens(true, history) && After(true, history).value.kept == None
  {
    hide After;
    Goes(true, [Enter, Check(0), Begin(0), Unwind(0, payload)],
         [INITIAL, State(None, [Entered], None), State(None, [Passed], None), State(None, [Handling], None),
          State(None, [Panicking(payload)], None)]);
  }

  /** So is the panic of a handler that is still running then. */
  lemma LostIfRunning(payload: Payload)
    ensures var history := [Enter, Check(0), Begin(0), Resume, Unwind(0, payload), Keep(0)];
            Happens(true, history) && After(true, history).value == State(Some(payload), [Left], Some(None))
  {
    hide After;
    Goes(true, [Enter, Check(0), Begin(0), Resume, Unwind(0, payload), Keep(0)],
         [INITIAL, State(None, [Entered], None), State(None, [Passed], None), State(None, [Handling], None),
          State(None, [Handling], Some(None)), State(None, [Panicking(payload)], Some(None)),
          State(Some(payload), [Left], Some(None))]);
  }

  /** A handler that panicked is called again, by a call that checks once its
      panic has been resumed. */
  lemma CalledAgain(payload: Payload)
    ensures var history := [Enter, Enter, Check(0), Begin(0), Unwind(0, payload), Keep(0), Resume, Check(1), Begin(1)];
            Happens(true, history) && After(true, history).value == State(None, [Left, Handling], Some(Some(payload)))
  {
    hide After;
    var first := [Enter, Enter, Check(0), Begin(0), Unwind(0, payload), Keep(0)];
    Goes(true, first,
         [INITIAL, State(None, [Entered], None), State(None, [Entered, Entered], None),
          State(None, [Passed, Entered], None), State(None, [Handling, Entered], None),
          State(None, [Panicking(payload), Entered], None), State(Some(payload), [Left, Entered], None)]);
    AfterStep(true, first, Resume);
    AfterStep(true, first + [Resume], Check(1));
    AfterStep(true, first + [Resume] + [Check(1)], Begin(1));
    assert first + [Resume] + [Check(1)] + [Begin(1)] ==
           [Enter, Enter, Check(0), Begin(0), Unwind(0, payload), Keep(0), Resume, Check(1), Begin(1)];
  }

  lemma AfterStep(handler: bool, history: seq<Event>, e: Event)
    requires Happens(handler, history)
    ensures After(handler, history + [e])
         == if Enabled(After(handler, history).value, e)
            then Some(Next(handler, After(handler, history).value, e)) else None
  {
    assert (history + [e])[..|history|] == history;
  }
}
