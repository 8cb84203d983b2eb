/**
 How a Rust closure's error or panic crosses Swift and back (src/platform/mod.rs).
 A closure Swift calls only says whether it threw. Its own error and panic wait
 in cells shared with the thread that called Swift, which reads them when Swift
 returns. A call's cells are `Arc`s, so a clone is the same object here.
 */
module Platform {
  import opened Wrappers
  import P = ProgressProtocol

  type Payload = P.Payload

  /** An error a closure returned, or a failure of `action` that Swift reported. */
  datatype Error = Own(id: nat) | Failed(action: string, message: string)

  /** What a throwing Swift call returned. */
  datatype CzOutcome = Holding(value: nat) | Threw(message: string)

  /** How a Rust closure that Swift called ended. */
  datatype Ran = Returned | Errored(error: Error) | Panicked(payload: Payload)

  /** How a call of this crate ends: it returns, or a kept panic is resumed. */
  datatype Ended = Normally(result: Result<CzOutcome, Error>) | Unwinds(payload: Payload)

  /** `platform::outcome`. */
  function Outcome(returned: CzOutcome, action: string): Result<CzOutcome, Error> {
    match returned
    case Holding(_) => Ok(returned)
    case Threw(message) => Err(Failed(action, message))
  }

  /******* What the cells hold, and how it is read *******/

  datatype Kept = Kept(error: Option<Error>, panic: Option<Payload>)

  const NOTHING := Kept(None, None)

  function Keep(kept: Kept, ran: Ran): Kept {
    match ran
    case Returned => kept
    case Errored(error) => kept.(error := Some(error))
    case Panicked(payload) => if kept.panic.Some? then kept else kept.(panic := Some(payload))
  }

  function KeptAfter(rans: seq<Ran>): Kept {
    if rans == [] then NOTHING else Keep(KeptAfter(rans[..|rans| - 1]), rans[|rans| - 1])
  }

  function Read(kept: Kept, returned: CzOutcome, action: string): Ended {
    if kept.panic.Some? then Unwinds(kept.panic.value)
    else if kept.error.Some? then Normally(Err(kept.error.value))
    else Normally(Outcome(returned, action))
  }

  /** What a closure that threw means for its caller. */
  function OwnEnd(ran: Ran): Ended
    requires ran != Returned
  {
    match ran
    case Errored(error) => Normally(Err(error))
    case Panicked(payload) => Unwinds(payload)
  }

  /** The first panic is the one kept. */
  lemma {:induction false} KeepsFirstPanic(rans: seq<Ran>)
    ensures KeptAfter(rans).panic.None? <==> forall k | 0 <= k < |rans| :: !rans[k].Panicked?
    ensures forall k | 0 <= k < |rans| && rans[k].Panicked? && (forall j | 0 <= j < k :: !rans[j].Panicked?) ::
              KeptAfter(rans).panic == Some(rans[k].payload)
    decreases |rans|
  {
    if rans != [] {
      var before := rans[..|rans| - 1];
      KeepsFirstPanic(before);
      assert forall k | 0 <= k < |before| :: before[k] == rans[k];
    }
  }

  /** The last error is the one kept. */
  lemma {:induction false} KeepsLastError(rans: seq<Ran>)
    ensures KeptAfter(rans).error.None? <==> forall k | 0 <= k < |rans| :: !rans[k].Errored?
    ensures forall k | 0 <= k < |rans| && rans[k].Errored? && (forall j | k < j < |rans| :: !rans[j].Errored?) ::
              KeptAfter(rans).error == Some(rans[k].error)
    decreases |rans|
  {
    if rans != [] {
      var before := rans[..|rans| - 1];
      KeepsLastError(before);
      assert forall k | 0 <= k < |before| :: before[k] == rans[k];
    }
  }

  /** Where no call of the closure throws, the caller gets what Swift returned,
      or what it threw as a failure of `action`. */
  lemma {:induction false} NoThrowIsSwifts(rans: seq<Ran>, returned: CzOutcome, action: string)
    requires forall k | 0 <= k < |rans| :: rans[k] == Returned
    ensures Read(KeptAfter(rans), returned, action)
         == Normally(if returned.Threw? then Err(Failed(action, returned.message)) else Ok(returned))
  {
    KeepsFirstPanic(rans);
    KeepsLastError(rans);
  }

  /** Where Swift stops at the first throw, the caller gets exactly that. */
  lemma StopsAtFirstThrow(rans: seq<Ran>, returned: CzOutcome, action: string)
    requires rans != [] && rans[|rans| - 1] != Returned
    requires forall k | 0 <= k < |rans| - 1 :: rans[k] == Returned
    ensures var last, r := rans[|rans| - 1], Read(KeptAfter(rans), returned, action);
            && r == OwnEnd(last)
            && (last.Errored? ==> r == Normally(Err(last.error)))
            && (last.Panicked? ==> r == Unwinds(last.payload))
  {
    KeepsFirstPanic(rans);
    KeepsLastError(rans);
  }

  /** Where Swift goes on, the caller gets the first throw exactly when that is a
      panic, or an error that no later panic or different error follows last. */
  lemma FirstThrowExactly(rans: seq<Ran>, first: nat, returned: CzOutcome, action: string)
    requires first < |rans| && rans[first] != Returned && forall k | 0 <= k < first :: rans[k] == Returned
    ensures Read(KeptAfter(rans), returned, action) == OwnEnd(rans[first]) <==>
            || rans[first].Panicked?
            || forall k | first < k < |rans| ::
                 && !rans[k].Panicked?
                 && (rans[k].Errored? && (forall j | k < j < |rans| :: !rans[j].Errored?) ==> rans[k] == rans[first])
  {
    KeepsFirstPanic(rans);
    KeepsLastError(rans);
    if rans[first].Errored? {
      var last := LastError(rans, first);
      if exists k :: first < k < |rans| && rans[k].Panicked? {
        assert KeptAfter(rans).panic.Some?;
      }
    }
  }

  /** Two errors, of which the caller gets the second. */
  lemma LaterErrorWins(returned: CzOutcome, action: string)
    ensures Read(KeptAfter([Errored(Own(0)), Errored(Own(1))]), returned, action) == Normally(Err(Own(1)))
    ensures Read(KeptAfter([Errored(Own(0)), Errored(Own(1))]), returned, action) != OwnEnd(Errored(Own(0)))
  {
    KeepsFirstPanic([Errored(Own(0)), Errored(Own(1))]);
    KeepsLastError([Errored(Own(0)), Errored(Own(1))]);
  }

  lemma LastError(rans: seq<Ran>, first: nat) returns (last: nat)
    requires first < |rans| && rans[first].Errored?
    ensures first <= last < |rans| && rans[last].Errored? && forall j | last < j < |rans| :: !rans[j].Errored?
  {
    last := |rans| - 1;
    while !rans[last].Errored?
      invariant first <= last < |rans| && forall j | last < j < |rans| :: !rans[j].Errored?
      decreases last
    {
      last := last - 1;
    }
  }

  /******* The cells *******/

  class Panic {
    var payload: Option<Payload>

    constructor ()
      ensures payload == None
    {
      payload := None;
    }

    /** `catch`'s `get_or_insert`, for a body that ended as `ran`. */
    method Catch(ran: Ran) returns (caught: bool)
      modifies this
      ensures caught <==> ran.Panicked?
      ensures payload == if old(payload).Some? || !ran.Panicked? then old(payload) else Some(ran.payload)
    {
      caught := ran.Panicked?;
      if caught && payload.None? {
        payload := Some(ran.payload);
      }
    }

    method Caught() returns (caught: bool)
      ensures caught <==> payload.Some?
    {
      caught := payload.Some?;
    }

    /** Takes the panic to resume. */
    method Resume() returns (resumed: Option<Payload>)
      modifies this
      ensures resumed == old(payload) && payload == None
    {
      resumed := payload;
      payload := None;
    }
  }

  class Thrown {
    var error: Option<Error>
    const panic: Panic

    constructor ()
      ensures error == None && panic.payload == None && fresh(panic)
    {
      error := None;
      panic := new Panic();
    }

    function View(): Kept
      reads this, panic
    {
      Kept(error, panic.payload)
    }

    method Threw(ran: Ran) returns (threw: bool)
      modifies this, panic
      ensures threw <==> ran != Returned
      ensures View() == Keep(old(View()), ran)
    {
      threw := panic.Catch(ran);
      if ran.Errored? {
        error := Some(ran.error);
        threw := true;
      }
    }

    /** Once Swift has returned: the panic, or else the error, or else Swift's. */
    method Ends(returned: CzOutcome, action: string) returns (r: Ended)
      modifies this, panic
      ensures r == Read(old(View()), returned, action)
    {
      var resumed := panic.Resume();
      if resumed.Some? {
        return Unwinds(resumed.value);
      }
      if error.Some? {
        r := Normally(Err(error.value));
        error := None;
        return;
      }
      r := Normally(Outcome(returned, action));
    }
  }

  /** An `(inout T) throws -> Void` closure. */
  class Configure<T> {
    var configure: Option<T -> (T, Ran)>
    const thrown: Thrown

    constructor (configure: T -> (T, Ran))
      ensures this.configure == Some(configure) && thrown.View() == NOTHING && fresh(thrown) && fresh(thrown.panic)
    {
      this.configure := Some(configure);
      thrown := new Thrown();
    }

    /** Runs the closure the first time only. */
    method Call(value: T) returns (threw: bool, configured: T)
      modifies this, thrown, thrown.panic
      ensures configure == None
      ensures old(configure) == None ==>
                !threw && configured == value && thrown.View() == old(thrown.View())
      ensures old(configure).Some? ==>
                var (after, ran) := old(configure).value(value);
                && (threw <==> ran != Returned) && configured == after
                && thrown.View() == Keep(old(thrown.View()), ran)
    {
      var taken := configure;
      configure := None;
      threw, configured := false, value;
      if taken.Some? {
        var ran := taken.value(value);
        configured := ran.0;
        threw := thrown.Threw(ran.1);
      }
    }
  }

  /** A `(FileDescriptor) throws -> Void` closure. */
  class WithDescriptor {
    var body: Option<int -> Ran>
    const thrown: Thrown

    constructor (body: int -> Ran)
      ensures this.body == Some(body) && thrown.View() == NOTHING && fresh(thrown) && fresh(thrown.panic)
    {
      this.body := Some(body);
      thrown := new Thrown();
    }

    method Call(descriptor: int) returns (threw: bool)
      modifies this, thrown, thrown.panic
      ensures body == None
      ensures old(body) == None ==> !threw && thrown.View() == old(thrown.View())
      ensures old(body).Some? ==>
                && (threw <==> old(body).value(descriptor) != Returned)
                && thrown.View() == Keep(old(thrown.View()), old(body).value(descriptor))
    {
      var taken := body;
      body := None;
      threw := false;
      if taken.Some? {
        threw := thrown.Threw(taken.value(descriptor));
      }
    }
  }

  /** `enumerate`'s body, which changes what it captured each time it runs. */
  class Enumerate<S, E> {
    var captured: S
    const body: (S, E) -> (S, Ran)
    const thrown: Thrown

    constructor (body: (S, E) -> (S, Ran), captured: S)
      ensures this.body == body && this.captured == captured
      ensures thrown.View() == NOTHING && fresh(thrown) && fresh(thrown.panic)
    {
      this.body, this.captured := body, captured;
      thrown := new Thrown();
    }

    method Call(entry: E) returns (threw: bool)
      modifies this, thrown, thrown.panic
      ensures var (after, ran) := body(old(captured), entry);
              && captured == after && (threw <==> ran != Returned)
              && thrown.View() == Keep(old(thrown.View()), ran)
    {
      var ran := body(captured, entry);
      captured := ran.0;
      threw := thrown.Threw(ran.1);
    }
  }

  /******* The wrappers *******/

  /** What `configured` ends as when Swift calls the closure with each of
      `values` in turn and then returns. `answers` and `left` are what Swift sees
      of each call. */
  method Configured<T>(configure: T -> (T, Ran), values: seq<T>, returned: CzOutcome, action: string)
    returns (r: Ended, answers: seq<bool>, left: seq<T>)
    ensures |answers| == |left| == |values|
    ensures values != [] ==> answers[0] == (configure(values[0]).1 != Returned) && left[0] == configure(values[0]).0
    ensures forall k | 1 <= k < |values| :: !answers[k] && left[k] == values[k]
    ensures values == [] || configure(values[0]).1 == Returned ==>
              r == Normally(if returned.Threw? then Err(Failed(action, returned.message)) else Ok(returned))
    ensures values != [] && configure(values[0]).1.Errored? ==> r == Normally(Err(configure(values[0]).1.error))
    ensures values != [] && configure(values[0]).1.Panicked? ==> r == Unwinds(configure(values[0]).1.payload)
  {
    var closure := new Configure(configure);
    answers, left := [], [];
    for i := 0 to |values|
      invariant fresh(closure) && fresh(closure.thrown) && fresh(closure.thrown.panic)
      invariant |answers| == |left| == i
      invariant closure.configure == if i == 0 then Some(configure) else None
      invariant closure.thrown.View() == if i == 0 then NOTHING else Keep(NOTHING, configure(values[0]).1)
      invariant i > 0 ==> answers[0] == (configure(values[0]).1 != Returned) && left[0] == configure(values[0]).0
      invariant forall k | 1 <= k < i :: !answers[k] && left[k] == values[k]
    {
      var threw, configured := closure.Call(values[i]);
      answers, left := answers + [threw], left + [configured];
    }
    r := closure.thrown.Ends(returned, action);
  }

  /** `filled`, whose closure takes the value Swift filled, and leaves a default
      one in its place. The value crosses beside the slot that keeps it. */
  method Filled<T>(default: T, values: seq<T>) returns (filled: Option<T>, left: seq<T>)
    ensures filled == if values == [] then None else Some(values[0])
    ensures |left| == |values| && forall k | 0 <= k < |values| :: left[k] == if k == 0 then default else values[k]
  {
    var receive := new Configure((at: (T, Option<T>)) => ((default, Some(at.0)), Returned));
    filled, left := None, [];
    for i := 0 to |values|
      invariant fresh(receive) && fresh(receive.thrown) && fresh(receive.thrown.panic)
      invariant receive.configure == if i == 0 then Some((at: (T, Option<T>)) => ((default, Some(at.0)), Returned)) else None
      invariant filled == if i == 0 then None else Some(values[0])
      invariant |left| == i && forall k | 0 <= k < i :: left[k] == if k == 0 then default else values[k]
    {
      var _, after := receive.Call((values[i], filled));
      filled, left := after.1, left + [after.0];
    }
  }

  /** `with_descriptor`, the same way. */
  method WithDescriptors(body: int -> Ran, descriptors: seq<int>, returned: CzOutcome, action: string)
    returns (r: Ended, answers: seq<bool>)
    ensures |answers| == |descriptors|
    ensures forall k | 0 <= k < |descriptors| :: answers[k] == (k == 0 && body(descriptors[0]) != Returned)
    ensures descriptors == [] || body(descriptors[0]) == Returned ==>
              r == Normally(if returned.Threw? then Err(Failed(action, returned.message)) else Ok(returned))
    ensures descriptors != [] && body(descriptors[0]).Errored? ==> r == Normally(Err(body(descriptors[0]).error))
    ensures descriptors != [] && body(descriptors[0]).Panicked? ==> r == Unwinds(body(descriptors[0]).payload)
  {
    var closure := new WithDescriptor(body);
    answers := [];
    for i := 0 to |descriptors|
      invariant fresh(closure) && fresh(closure.thrown) && fresh(closure.thrown.panic)
      invariant |answers| == i && closure.body == if i == 0 then Some(body) else None
      invariant closure.thrown.View() == if i == 0 then NOTHING else Keep(NOTHING, body(descriptors[0]))
      invariant forall k | 0 <= k < i :: answers[k] == (k == 0 && body(descriptors[0]) != Returned)
    {
      var threw := closure.Call(descriptors[i]);
      answers := answers + [threw];
    }
    r := closure.thrown.Ends(returned, action);
  }

  /** What an `enumerate` body has captured before each entry, and after the last. */
  ghost predicate Captures<S(!new), E(!new)>(body: (S, E) -> (S, Ran), captured: S, entries: seq<E>, states: seq<S>) {
    && |states| == |entries| + 1 && states[0] == captured
    && forall k | 0 <= k < |entries| :: states[k + 1] == body(states[k], entries[k]).0
  }

  /** How each call of the body ends. */
  function RansOf<S, E>(body: (S, E) -> (S, Ran), entries: seq<E>, states: seq<S>): seq<Ran>
    requires |entries| <= |states|
  {
    seq(|entries|, k requires 0 <= k < |entries| => body(states[k], entries[k]).1)
  }

  /** `enumerating`, when Swift calls the body with each of `entries`. The body
      keeps what it captured from one to the next. Where Swift stops at the first
      throw, the caller gets that. */
  method Enumerating<S(!new), E(!new)>(body: (S, E) -> (S, Ran), captured: S, entries: seq<E>, returned: CzOutcome,
                                       action: string) returns (r: Ended, answers: seq<bool>, ghost states: seq<S>)
    ensures Captures(body, captured, entries, states) && |answers| == |entries|
    ensures forall k | 0 <= k < |entries| :: answers[k] == (body(states[k], entries[k]).1 != Returned)
    ensures r == Read(KeptAfter(RansOf(body, entries, states)), returned, action)
    ensures (forall k | 0 <= k < |entries| :: !answers[k]) ==>
              r == Normally(if returned.Threw? then Err(Failed(action, returned.message)) else Ok(returned))
    ensures entries != [] && (forall k | 0 <= k < |entries| :: answers[k] <==> k == |entries| - 1) ==>
              match body(states[|entries| - 1], entries[|entries| - 1]).1
              case Errored(error) => r == Normally(Err(error))
              case Panicked(payload) => r == Unwinds(payload)
              case Returned => false
  {
    var closure := new Enumerate(body, captured);
    answers, states := [], [captured];
    assert RansOf(body, entries[..0], states) == [];
    for i := 0 to |entries|
      invariant fresh(closure) && fresh(closure.thrown) && fresh(closure.thrown.panic)
      invariant |answers| == i && closure.body == body && |states| == i + 1
      invariant Captures(body, captured, entries[..i], states) && closure.captured == states[i]
      invariant closure.thrown.View() == KeptAfter(RansOf(body, entries[..i], states))
      invariant forall k | 0 <= k < i :: answers[k] == (body(states[k], entries[k]).1 != Returned)
    {
      var threw := closure.Call(entries[i]);
      RansOfNext(body, entries, i, states, closure.captured);
      answers, states := answers + [threw], states + [closure.captured];
    }
    assert entries[..|entries|] == entries;
    r := closure.thrown.Ends(returned, action);
    ghost var rans := RansOf(body, entries, states);
    if forall k | 0 <= k < |entries| :: !answers[k] {
      NoThrowIsSwifts(rans, returned, action);
    }
    if entries != [] && forall k | 0 <= k < |entries| :: answers[k] <==> k == |entries| - 1 {
      StopsAtFirstThrow(rans, returned, action);
    }
  }

  lemma RansOfNext<S, E>(body: (S, E) -> (S, Ran), entries: seq<E>, i: nat, states: seq<S>, next: S)
    requires i < |entries| && |states| == i + 1
    ensures RansOf(body, entries[..i + 1], states + [next])
         == RansOf(body, entries[..i], states) + [body(states[i], entries[i]).1]
    ensures KeptAfter(RansOf(body, entries[..i + 1], states + [next]))
         == Keep(KeptAfter(RansOf(body, entries[..i], states)), body(states[i], entries[i]).1)
  {
    var rans := RansOf(body, entries[..i], states);
    assert RansOf(body, entries[..i + 1], states + [next]) == rans + [body(states[i], entries[i]).1];
    assert (rans + [body(states[i], entries[i]).1])[..i] == rans;
  }

  /** `ingest`, whose body Swift calls with `directory`, if it gets that far.
      Swift's `ingest` throws if the body threw, and `returned` is what it returns
      in either case. */
  method Ingest(body: string -> Ran, directory: Option<string>, returned: bool -> CzOutcome, action: string)
    returns (r: Ended)
    ensures directory.None? || body(directory.value) == Returned ==>
              r == Normally(if returned(false).Threw? then Err(Failed(action, returned(false).message)) else Ok(returned(false)))
    ensures directory.Some? && body(directory.value).Errored? ==> r == Normally(Err(body(directory.value).error))
    ensures directory.Some? && body(directory.value).Panicked? ==> r == Unwinds(body(directory.value).payload)
  {
    var thrown := new Thrown();
    var threw := false;
    if directory.Some? {
      threw := thrown.Threw(body(directory.value));
    }
    r := thrown.Ends(returned(threw), action);
  }
}
