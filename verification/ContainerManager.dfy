/** `ContainerManager::create`, which hands Swift a progress handler and a
    configuration closure: `configured` nested in `progressing`. */
module ContainerManager {
  import opened Wrappers
  import opened Platform
  import P = ProgressProtocol

  /** What Swift does with the two closures, one step of either at a time. */
  datatype Event<T> =
    | Configuring(seeded: T)
    | Progressing(step: P.CallEvent)

  function ProgressOf<T>(script: seq<Event<T>>): seq<P.CallEvent> {
    if script == [] then [] else
    var before := ProgressOf(script[..|script| - 1]);
    match script[|script| - 1]
    case Configuring(_) => before
    case Progressing(step) => before + [step]
  }

  function ConfiguringsOf<T>(script: seq<Event<T>>): seq<T> {
    if script == [] then [] else
    var before := ConfiguringsOf(script[..|script| - 1]);
    match script[|script| - 1]
    case Configuring(seeded) => before + [seeded]
    case Progressing(_) => before
  }

  lemma PartOf<T>(e: Event<T>)
    ensures ProgressOf([e]) == if e.Progressing? then [e.step] else []
    ensures ConfiguringsOf([e]) == if e.Configuring? then [e.seeded] else []
  {
    assert [e][..0] == [];
  }

  /** Between them they have each part of a script once, in order. */
  lemma {:induction false} PartsOf<T>(script: seq<Event<T>>, more: seq<Event<T>>)
    ensures ProgressOf(script + more) == ProgressOf(script) + ProgressOf(more)
    ensures ConfiguringsOf(script + more) == ConfiguringsOf(script) + ConfiguringsOf(more)
    decreases |more|
  {
    if more == [] {
      assert script + more == script;
    } else {
      var last := |more| - 1;
      assert (script + more)[..|script| + last] == script + more[..last];
      PartsOf(script, more[..last]);
    }
  }

  /** How the configuration closure ended, if Swift called it. */
  function ConfigurationRan<T>(configuration: T -> (T, Ran), script: seq<Event<T>>): Ran {
    if ConfiguringsOf(script) == [] then Returned else configuration(ConfiguringsOf(script)[0]).1
  }

  /** It ended as its first call did, on what Swift seeded then, or wasn't called. */
  lemma {:induction false} RanFirst<T>(configuration: T -> (T, Ran), script: seq<Event<T>>)
    ensures (forall k | 0 <= k < |script| :: script[k].Progressing?) ==>
              ConfiguringsOf(script) == [] && ConfigurationRan(configuration, script) == Returned
    ensures forall k | 0 <= k < |script| && script[k].Configuring? && (forall j | 0 <= j < k :: script[j].Progressing?) ::
              ConfigurationRan(configuration, script) == configuration(script[k].seeded).1
    decreases |script|
  {
    if script != [] {
      var last := |script| - 1;
      var before := script[..last];
      RanFirst(configuration, before);
      assert forall k | 0 <= k < last :: before[k] == script[k];
      forall k | 0 <= k < last && script[k].Configuring? ensures ConfiguringsOf(before) != [] {
        HasConfiguring(script, k);
      }
    }
  }

  lemma {:induction false} HasConfiguring<T>(script: seq<Event<T>>, k: nat)
    requires k < |script| - 1 && script[k].Configuring?
    ensures ConfiguringsOf(script[..|script| - 1]) != []
    decreases |script|
  {
    var before := script[..|script| - 1];
    assert before[k] == script[k];
    if k < |before| - 1 {
      HasConfiguring(before, k);
    }
  }

  /** The handler's panic that is kept when Swift returns. */
  function HandlerPanic<T>(handler: bool, script: seq<Event<T>>): Option<Payload>
    requires P.Happens(handler, ProgressOf(script))
  {
    P.After(handler, ProgressOf(script)).value.kept
  }

  /** A `ProgressHandler?` on the Rust side. */
  class Progress {
    const handler: bool
    const panic: Panic

    constructor (handler: bool)
      ensures this.handler == handler && panic.payload == None && fresh(panic)
    {
      this.handler := handler;
      panic := new Panic();
    }

    /** One thread's next step, between the locks it takes. `s` is what the
        protocol has come to, whose kept panic is in the cell. */
    method Step(s: P.State, e: P.Event) returns (next: P.State)
      requires s.kept == panic.payload && P.Enabled(s, e)
      modifies panic
      ensures next == P.Next(handler, s, e) && next.kept == panic.payload
    {
      next := s;
      match e
      case Enter => next := s.(calls := s.calls + [P.Entered]);
      case Check(i) =>
        var caught := panic.Caught();
        next := s.(calls := s.calls[i := if handler && !caught then P.Passed else P.Left]);
      case Begin(i) => next := s.(calls := s.calls[i := P.Handling]);
      case Finish(i) => next := s.(calls := s.calls[i := P.Left]);
      case Unwind(i, payload) => next := s.(calls := s.calls[i := P.Panicking(payload)]);
      case Keep(i) =>
        var _ := panic.Catch(Panicked(s.calls[i].payload));
        next := s.(kept := panic.payload, calls := s.calls[i := P.Left]);
      case Resume =>
        var resumed := panic.Resume();
        next := s.(kept := panic.payload, resumed := Some(resumed));
    }
  }

  /** The first that applies of the configuration closure's panic, the progress
      handler's kept panic, the closure's own error, and Swift's failure or value. */
  function CreateEnds(ran: Ran, kept: Option<Payload>, returned: CzOutcome, action: string): Ended {
    if ran.Panicked? then Unwinds(ran.payload)
    else if kept.Some? then Unwinds(kept.value)
    else if ran.Errored? then Normally(Err(ran.error))
    else Normally(Outcome(returned, action))
  }

  /** What `progressing` ends as, when what it calls ends as `inner`: an unwinding
      panic goes through it, and otherwise it resumes the one that is kept. */
  function ProgressingEnds(inner: Ended, kept: Option<Payload>): Ended {
    if inner.Normally? && kept.Some? then Unwinds(kept.value) else inner
  }

  /** `create` is `configured` within `progressing`. */
  lemma CreateNests(ran: Ran, kept: Option<Payload>, returned: CzOutcome, action: string)
    ensures CreateEnds(ran, kept, returned, action)
         == ProgressingEnds(Read(KeptAfter([ran]), returned, action), kept)
  {
    assert KeptAfter([]) == NOTHING && [ran][..0] == [];
  }

  /** `create` ends with the first that applies of the configuration closure's
      panic, the progress handler's kept panic, the closure's own error, and
      Swift's failure or value. */
  method Create<T>(configuration: T -> (T, Ran), handler: bool, script: seq<Event<T>>, returned: CzOutcome,
                   action: string) returns (r: Ended)
    requires P.Happens(handler, ProgressOf(script))
    ensures r == CreateEnds(ConfigurationRan(configuration, script), HandlerPanic(handler, script), returned, action)
    ensures var ran, kept := ConfigurationRan(configuration, script), HandlerPanic(handler, script);
            && (ran.Panicked? ==> r == Unwinds(ran.payload))
            && (!ran.Panicked? && kept.Some? ==> r == Unwinds(kept.value))
            && (ran.Errored? && kept.None? ==> r == Normally(Err(ran.error)))
            && (ran == Returned && kept.None? && returned.Holding? ==> r == Normally(Ok(returned)))
            && (ran == Returned && kept.None? && returned.Threw? ==>
                  r == Normally(Err(Failed(action, returned.message))))
  {
    var progress := new Progress(handler);
    var s := P.INITIAL;
    var configure := new Configure(configuration);
    assert SoFar(configuration, handler, script[..0], s, configure.configure, configure.thrown.View());
    for i := 0 to |script|
      invariant fresh(progress) && fresh(progress.panic) && progress.handler == handler
      invariant fresh(configure) && fresh(configure.thrown) && fresh(configure.thrown.panic)
      invariant progress.panic != configure.thrown.panic && s.kept == progress.panic.payload
      invariant SoFar(configuration, handler, script[..i], s, configure.configure, configure.thrown.View())
    {
      hide *;
      ghost var kept := configure.thrown.View();
      match script[i]
      case Configuring(seeded) =>
        ConfiguringGoesOn(configuration, handler, script, i, s, configure.configure, kept);
        var _, _ := configure.Call(seeded);
      case Progressing(step) =>
        ProgressingGoesOn(configuration, handler, script, i, s, configure.configure, kept);
        s := progress.Step(s, step);
    }
    assert script[..|script|] == script;
    hide P.After, ProgressOf, ConfiguringsOf;
    r := configure.thrown.Ends(returned, action);
    if r.Unwinds? {
      // The panic unwinds through `progressing`, which then resumes none.
      return;
    }
    NoneResumed(handler, ProgressOf(script));
    s := progress.Step(s, P.Resume);
    if s.resumed.value.Some? {
      r := Unwinds(s.resumed.value.value);
    }
  }

  /** Nothing Swift does takes the kept panic. */
  lemma {:induction false} NoneResumed(handler: bool, history: seq<P.CallEvent>)
    requires P.Happens(handler, history)
    ensures P.After(handler, history).value.resumed == None
    decreases |history|
  {
    if history != [] {
      var last := |history| - 1;
      P.HappensAt(handler, history, last);
      assert history[..|history|] == history;
      NoneResumed(handler, history[..last]);
    }
  }

  /** What the protocol and the closure's cells have come to when Swift has done
      what is in `script`. */
  ghost predicate SoFar<T>(configuration: T -> (T, Ran), handler: bool, script: seq<Event<T>>, s: P.State,
                           configure: Option<T -> (T, Ran)>, kept: Kept) {
    && P.After(handler, ProgressOf(script)) == Some(s)
    && configure == (if ConfiguringsOf(script) == [] then Some(configuration) else None)
    && kept == Keep(NOTHING, ConfigurationRan(configuration, script))
  }

  lemma ConfiguringGoesOn<T>(configuration: T -> (T, Ran), handler: bool, script: seq<Event<T>>, i: nat, s: P.State,
                             configure: Option<T -> (T, Ran)>, kept: Kept)
    requires i < |script| && script[i].Configuring? && SoFar(configuration, handler, script[..i], s, configure, kept)
    ensures configure.Some? ==> configure.value == configuration
    ensures SoFar(configuration, handler, script[..i + 1], s, None,
                  if configure.None? then kept else Keep(kept, configuration(script[i].seeded).1))
  {
    ScriptStep(script, i);
    hide P.After, ProgressOf, ConfiguringsOf;
  }

  lemma ProgressingGoesOn<T>(configuration: T -> (T, Ran), handler: bool, script: seq<Event<T>>, i: nat, s: P.State,
                             configure: Option<T -> (T, Ran)>, kept: Kept)
    requires i < |script| && script[i].Progressing? && SoFar(configuration, handler, script[..i], s, configure, kept)
    requires P.Happens(handler, ProgressOf(script))
    ensures P.Enabled(s, script[i].step)
    ensures SoFar(configuration, handler, script[..i + 1], P.Next(handler, s, script[i].step), configure, kept)
  {
    ScriptStep(script, i);
    NextHappens(handler, script, i);
    hide P.After, ProgressOf, ConfiguringsOf, P.Next, P.Enabled;
  }

  lemma ScriptStep<T>(script: seq<Event<T>>, i: nat)
    requires i < |script|
    ensures ProgressOf(script[..i + 1])
         == if script[i].Progressing? then ProgressOf(script[..i]) + [script[i].step] else ProgressOf(script[..i])
    ensures ConfiguringsOf(script[..i + 1])
         == if script[i].Configuring? then ConfiguringsOf(script[..i]) + [script[i].seeded] else ConfiguringsOf(script[..i])
    ensures ConfiguringsOf(script[..i]) != [] ==> ConfiguringsOf(script[..i + 1])[0] == ConfiguringsOf(script[..i])[0]
  {
    assert script[..i + 1][..i] == script[..i];
  }

  lemma {:induction false} ProgressPrefix<T>(script: seq<Event<T>>, i: nat)
    requires i <= |script|
    ensures ProgressOf(script[..i]) <= ProgressOf(script)
    decreases |script| - i
  {
    if i == |script| {
      assert script[..i] == script;
    } else {
      ScriptStep(script, i);
      ProgressPrefix(script, i + 1);
    }
  }

  lemma NextHappens<T>(handler: bool, script: seq<Event<T>>, i: nat)
    requires i < |script| && script[i].Progressing? && P.Happens(handler, ProgressOf(script))
    ensures var history := ProgressOf(script[..i]);
            && P.Happens(handler, history)
            && P.Enabled(P.After(handler, history).value, script[i].step)
            && P.After(handler, history + [script[i].step])
               == Some(P.Next(handler, P.After(handler, history).value, script[i].step))
  {
    var history, all := ProgressOf(script[..i]), ProgressOf(script);
    ScriptStep(script, i);
    ProgressPrefix(script, i + 1);
    assert all[|history|] == script[i].step;
    P.HappensAt(handler, all, |history|);
    assert all[..|history|] == history && all[..|history| + 1] == history + [script[i].step];
  }

  /** The closure's own error reads as the failure that Swift returned. */
  predicate SameFailure(ran: Ran, returned: CzOutcome, action: string) {
    ran.Errored? && returned.Threw? && ran.error == Failed(action, returned.message)
  }

  /** `create` ends as Swift does. */
  predicate EndsAsSwift<T>(configuration: T -> (T, Ran), handler: bool, script: seq<Event<T>>,
                           returned: CzOutcome, action: string)
    requires P.Happens(handler, ProgressOf(script))
  {
    CreateEnds(ConfigurationRan(configuration, script), HandlerPanic(handler, script), returned, action)
    == Normally(Outcome(returned, action))
  }

  /** However the handlers that Swift has called go on once it has returned,
      `create` ends as Swift does exactly when the configuration closure returned,
      or failed just as Swift did, and no handler ever panics. */
  ghost predicate EndTellsAll<T>(configuration: T -> (T, Ran), handler: bool, script: seq<Event<T>>,
                                 returned: CzOutcome, action: string)
    requires P.Happens(handler, ProgressOf(script))
  {
    var ran := ConfigurationRan(configuration, script);
    forall more | P.Happens(handler, ProgressOf(script) + [P.Resume] + more) && P.NoEnter(more) ::
      EndsAsSwift(configuration, handler, script, returned, action) <==>
      (ran == Returned || SameFailure(ran, returned, action)) && P.NoUnwind(ProgressOf(script) + [P.Resume] + more)
  }

  /** That is so exactly where the closure threw something else, or a handler's
      panic is kept, or there is no handler, or Swift has waited for every call. */
  lemma EndsAsSwiftExactly<T>(configuration: T -> (T, Ran), handler: bool, script: seq<Event<T>>,
                              returned: CzOutcome, action: string)
    requires P.Happens(handler, ProgressOf(script))
    ensures var ran, at := ConfigurationRan(configuration, script), P.After(handler, ProgressOf(script)).value;
            EndTellsAll(configuration, handler, script, returned, action) <==>
            || (ran != Returned && !SameFailure(ran, returned, action))
            || at.kept.Some? || !handler || P.AllLeft(at)
  {
    var history := ProgressOf(script);
    NoneResumed(handler, history);
    P.ResumesExactly(handler, history);
    hide P.After, ProgressOf, P.NoUnwind, P.NoEnter;
    var ran := ConfigurationRan(configuration, script);
    if ran == Returned || SameFailure(ran, returned, action) {
      assert EndTellsAll(configuration, handler, script, returned, action) <==> P.TellsAll(handler, history);
    }
  }

  /** Where Swift waits for the handlers it calls, `create` ends as Swift does
      exactly when neither closure threw or panicked, but for an error of the
      closure's that reads as Swift's own failure. */
  lemma ReturnsSwiftsExactly<T>(configuration: T -> (T, Ran), handler: bool, script: seq<Event<T>>,
                                returned: CzOutcome, action: string)
    requires P.Happens(handler, ProgressOf(script)) && P.AllLeft(P.After(handler, ProgressOf(script)).value)
    ensures var ran := ConfigurationRan(configuration, script);
            EndsAsSwift(configuration, handler, script, returned, action) <==>
            P.NoUnwind(ProgressOf(script)) && (ran == Returned || SameFailure(ran, returned, action))
  {
    NoneResumed(handler, ProgressOf(script));
    P.ResumesIfAwaited(handler, ProgressOf(script));
    hide P.After;
  }
}
