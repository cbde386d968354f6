/** The counting semaphore shared by nested concurrent fetches, as a step system: any
    finite tree of fetches, every interleaving, with cancellation at any moment. */
module Slots {
  import opened Retry
  import opened Integers

  /** What a fetch returns: no error, an error of the response, retries used up, an
      abort, or one result per function. */
  datatype Result = Ok | Failed(cause: string) | MaxRetries(cause: string) | Aborted | Many(results: seq<Result>)

  predicate Good(r: Result) {
    match r
    case Ok => true
    case Failed(_) => false
    case MaxRetries(_) => false
    case Aborted => false
    case Many(results) => forall i :: 0 <= i < |results| ==> Good(results[i])
  }

  /** A fetch function: a request, whose attempts will turn out as scripted; functions
      run concurrently and joined; or one step after another, the second only if the
      first went well. */
  datatype Task =
    | Request(id: nat, verb: string, script: seq<Attempt<Result>>)
    | Together(tasks: seq<Task>)
    | Then(first: Task, second: Task)

  /** How a round trip came back: with no response, with a status to try again, or with the
      response that decides. */
  datatype Exit = NoResponse | Retryable | Answer(reply: Result)

  /** What is left to do once it is back. */
  datatype Action = CloseBody | ReadBody | Release | CheckContext | TryAgain | Return

  /** The three ways out of a round trip, each with its own call of release. A body there is
      gets read or closed. */
  function Todo(exit: Exit): (rest: seq<Action>)
    ensures ReadBody in rest <==> exit.Answer?
    ensures CloseBody in rest <==> exit.Retryable?
  {
    match exit
    case NoResponse => [Release, CheckContext]
    case Retryable => [CloseBody, Release, TryAgain]
    case Answer(_) => [ReadBody, Release, Return]
  }

  /** A fetch in progress. Before attempt k of a request it sleeps and waits for a slot; it
      holds the slot for the round trip and until it calls release. `once` says that release
      has been called, after which further calls do nothing. */
  datatype Run =
    | Sleeping(id: nat, verb: string, script: seq<Attempt<Result>>, k: nat)
    | Waiting(id: nat, verb: string, script: seq<Attempt<Result>>, k: nat)
    | InFlight(id: nat, verb: string, script: seq<Attempt<Result>>, k: nat)
    | Returned(id: nat, verb: string, script: seq<Attempt<Result>>, k: nat, exit: Exit, rest: seq<Action>, once: bool)
    | Joining(runs: seq<Run>)
    | Chained(first: Run, second: Task)
    | Finished(result: Result)

  datatype Event = Quiet | Acquired(id: nat) | Released(id: nat)

  function Start(t: Task): Run {
    match t
    case Request(id, verb, script) =>
      if script == [] then Finished(Decided(verb, script, 0)) else Waiting(id, verb, script, 0)
    case Together(tasks) => Joining(seq(|tasks|, i requires 0 <= i < |tasks| => Start(tasks[i])))
    case Then(first, second) => Chained(Start(first), second)
  }

  /** The result of a request whose first k attempts decided nothing. */
  function Decided(verb: string, script: seq<Attempt<Result>>, k: nat): Result
    requires k <= |script|
  {
    match OutcomeFrom(verb, script, k)
    case Final(_, reply) => reply
    case Exhausted(cause) => MaxRetries(cause)
    case Crashed => Aborted
  }

  /** The next attempt after attempt k, if there is one. */
  function NextAttempt(id: nat, verb: string, script: seq<Attempt<Result>>, k: nat): Run
    requires k < |script|
  {
    if k + 1 == |script| then Finished(Decided(verb, script, k + 1)) else Sleeping(id, verb, script, k + 1)
  }

  /** How attempt k may come back: as scripted, or without a response once cancelled. */
  predicate ComesBack(cancelled: bool, verb: string, script: seq<Attempt<Result>>, k: nat, exit: Exit)
    requires k < |script|
  {
    match exit
    case NoResponse => script[k].Broken? || cancelled
    case Retryable => script[k].Answered? && !Decides(verb, script, k)
    case Answer(reply) => Decides(verb, script, k) && (reply == script[k].reply || (cancelled && reply == Aborted))
  }

  /** A call of release: it gives the slot back unless it was called before. */
  ghost predicate ReleaseCall(id: nat, once: bool, sem: int, e: Event, sem': int) {
    if once then e == Quiet && sem' == sem else e == Released(id) && sem > 0 && sem' == sem - 1
  }

  /** The next thing a request does once its round trip is back. */
  ghost predicate ActionStep(cancelled: bool, sem: int, r: Run, e: Event, sem': int, r': Run)
    requires r.Returned?
  {
    && r.rest != [] && r.k < |r.script|
    && match r.rest[0]
       case CloseBody => e == Quiet && sem' == sem && r' == r.(rest := r.rest[1..])
       case ReadBody =>
         && e == Quiet && sem' == sem
         && (r' == r.(rest := r.rest[1..]) || (cancelled && r.exit.Answer? && r' == r.(exit := Answer(Aborted), rest := r.rest[1..])))
       case Release => ReleaseCall(r.id, r.once, sem, e, sem') && r' == r.(rest := r.rest[1..], once := true)
       case CheckContext =>
         && e == Quiet && sem' == sem
         && r' == if cancelled then Finished(Aborted) else NextAttempt(r.id, r.verb, r.script, r.k)
       case TryAgain => e == Quiet && sem' == sem && r' == NextAttempt(r.id, r.verb, r.script, r.k)
       case Return => e == Quiet && sem' == sem && r.exit.Answer? && r' == Finished(r.exit.reply)
  }

  /** One step of a request, with `sem` slots taken before and sem' after. */
  ghost predicate RequestStep(cap: nat, cancelled: bool, sem: int, r: Run, e: Event, sem': int, r': Run) {
    match r
    case Sleeping(id, verb, script, k) =>
      e == Quiet && sem' == sem && (r' == Waiting(id, verb, script, k) || (cancelled && r' == Finished(Aborted)))
    case Waiting(id, verb, script, k) =>
      || (e == Acquired(id) && sem < cap && sem' == sem + 1 && r' == InFlight(id, verb, script, k))
      || (e == Quiet && cancelled && sem' == sem && r' == Finished(Aborted))
    case InFlight(id, verb, script, k) =>
      && e == Quiet && sem' == sem && k < |script|
      && r'.Returned? && ComesBack(cancelled, verb, script, k, r'.exit)
      && r' == Returned(id, verb, script, k, r'.exit, Todo(r'.exit), false)
    case Returned(_, _, _, _, _, _, _) => ActionStep(cancelled, sem, r, e, sem', r')
    case _ => false
  }

  /** One step of one goroutine in r. */
  ghost predicate Step(cap: nat, cancelled: bool, sem: int, r: Run, e: Event, sem': int, r': Run) {
    match r
    case Joining(runs) =>
      || (exists i, c :: 0 <= i < |runs| && Step(cap, cancelled, sem, runs[i], e, sem', c) && r' == Joining(runs[i := c]))
      || (e == Quiet && sem' == sem && AllFinished(runs) && r' == Finished(Many(Results(runs))))
    case Chained(first, second) =>
      || (exists c :: Step(cap, cancelled, sem, first, e, sem', c) && r' == Chained(c, second))
      || (e == Quiet && sem' == sem && first.Finished? && r' == if Good(first.result) then Start(second) else first)
    case _ => RequestStep(cap, cancelled, sem, r, e, sem', r')
  }

  predicate AllFinished(runs: seq<Run>) {
    forall i :: 0 <= i < |runs| ==> runs[i].Finished?
  }

  function Results(runs: seq<Run>): seq<Result>
    requires AllFinished(runs)
  {
    seq(|runs|, i requires 0 <= i < |runs| => runs[i].result)
  }

  predicate Leaves(a: Action) { a == CheckContext || a == TryAgain || a == Return }

  predicate HandlesBody(a: Action) { a == CloseBody || a == ReadBody }

  /** The body of the response is still to be read or closed. */
  predicate BodyIsOpen(rest: seq<Action>) { CloseBody in rest || ReadBody in rest }

  /** What is left to do ends by leaving, leaves only then, releases a slot that is still
      held, and is done with the body before it does. */
  predicate Orderly(rest: seq<Action>, once: bool) {
    && 0 < |rest| <= 3 && Leaves(rest[|rest| - 1])
    && (forall i :: 0 <= i < |rest| - 1 ==> !Leaves(rest[i]))
    && (once || Release in rest)
    && (once ==> !BodyIsOpen(rest))
    && (forall i, j :: 0 <= i < j < |rest| && rest[i] == Release ==> !HandlesBody(rest[j]))
  }

  /** How it leaves is how it came back. */
  predicate LeavesAs(exit: Exit, last: Action) {
    match exit
    case NoResponse => last == CheckContext
    case Retryable => last == TryAgain
    case Answer(_) => last == Return
  }

  /** Attempt numbers stay inside their scripts, round trips have come back as they may, and
      what is left to do is in order. */
  predicate Sound(cancelled: bool, r: Run) {
    match r
    case Sleeping(_, _, script, k) => k < |script|
    case Waiting(_, _, script, k) => k < |script|
    case InFlight(_, _, script, k) => k < |script|
    case Returned(_, verb, script, k, exit, rest, once) =>
      && k < |script| && ComesBack(cancelled, verb, script, k, exit)
      && Orderly(rest, once) && LeavesAs(exit, rest[|rest| - 1])
    case Joining(runs) => forall i :: 0 <= i < |runs| ==> Sound(cancelled, runs[i])
    case Chained(first, _) => Sound(cancelled, first)
    case Finished(_) => true
  }

  /** Cancelling leaves every run as sound as it was. */
  lemma {:induction false} SoundStays(cancelled: bool, r: Run)
    requires Sound(cancelled, r)
    ensures Sound(true, r)
  {
    match r
    case Joining(runs) =>
      forall i | 0 <= i < |runs| ensures Sound(true, runs[i]) {
        SoundStays(cancelled, runs[i]);
      }
    case Chained(first, _) => SoundStays(cancelled, first);
    case Sleeping(_, _, _, _) =>
    case Waiting(_, _, _, _) =>
    case InFlight(_, _, _, _) =>
    case Returned(_, _, _, _, _, _, _) =>
    case Finished(_) =>
  }

  // ----- Sums over a run -----

  /** What to add up: slots held, by anyone or by one request; how often a request
      appears; or the steps still to take, at most. */
  datatype Query = Held | HeldBy(id: nat) | Mentions(id: nat) | StepsLeft

  function InnerTally(q: Query): nat { if q.StepsLeft? then 1 else 0 }

  function RequestTally(q: Query, id: nat, holds: bool, left: int): (n: nat)
    requires left >= 0
  {
    match q
    case Held => if holds then 1 else 0
    case HeldBy(h) => if holds && h == id then 1 else 0
    case Mentions(m) => if m == id then 1 else 0
    case StepsLeft => left
  }

  function Tally(q: Query, r: Run): nat
    decreases r, 1
  {
    match r
    case Sleeping(id, _, script, k) => RequestTally(q, id, false, Left(script, k, 0))
    case Waiting(id, _, script, k) => RequestTally(q, id, false, Left(script, k, 1))
    case InFlight(id, _, script, k) => RequestTally(q, id, true, Left(script, k, 2))
    case Returned(id, _, script, k, _, rest, once) => RequestTally(q, id, !once, Left(script, k, 6 - Min(|rest|, 3)))
    case Joining(runs) => InnerTally(q) + TallyAll(q, runs)
    case Chained(first, second) => InnerTally(q) + Tally(q, first) + TaskTally(q, second)
    case Finished(_) => 0
  }

  /** The steps left when attempt k is in this phase; an attempt takes six at most. */
  function Left(script: seq<Attempt<Result>>, k: nat, phase: nat): nat {
    if k < |script| && phase < 6 then 6 * (|script| - k) - phase else 0
  }

  function TallyAll(q: Query, runs: seq<Run>): nat
    decreases runs, 0
  {
    if runs == [] then 0 else Tally(q, runs[0]) + TallyAll(q, runs[1..])
  }

  function TaskTally(q: Query, t: Task): nat
    decreases t, 1
  {
    match t
    case Request(id, _, script) => RequestTally(q, id, false, 6 * |script|)
    case Together(tasks) => InnerTally(q) + TaskTallyAll(q, tasks)
    case Then(first, second) => InnerTally(q) + TaskTally(q, first) + TaskTally(q, second)
  }

  function TaskTallyAll(q: Query, tasks: seq<Task>): nat
    decreases tasks, 0
  {
    if tasks == [] then 0 else TaskTally(q, tasks[0]) + TaskTallyAll(q, tasks[1..])
  }

  lemma {:induction false} TallySet(q: Query, runs: seq<Run>, i: nat, c: Run)
    requires i < |runs|
    ensures TallyAll(q, runs[i := c]) == TallyAll(q, runs) - Tally(q, runs[i]) + Tally(q, c)
  {
    if i == 0 {
      assert runs[i := c][1..] == runs[1..];
    } else {
      assert runs[i := c][1..] == runs[1..][i - 1 := c];
      TallySet(q, runs[1..], i - 1, c);
    }
  }

  lemma {:induction false} TallyMember(q: Query, runs: seq<Run>, i: nat)
    requires i < |runs|
    ensures Tally(q, runs[i]) <= TallyAll(q, runs)
  {
    if i == 0 {
    } else {
      TallyMember(q, runs[1..], i - 1);
    }
  }

  /** Starting a task takes no slot, mentions no new request and starts within budget. */
  lemma {:induction false} StartTally(q: Query, t: Task)
    ensures Sound(false, Start(t)) && Sound(true, Start(t)) && Tally(q, Start(t)) <= TaskTally(q, t)
    ensures q.Held? || q.HeldBy? ==> Tally(q, Start(t)) == 0
    decreases t, 1
  {
    match t
    case Request(_, _, _) =>
    case Together(tasks) =>
      StartTallyAll(q, tasks, Start(t).runs);
    case Then(first, second) =>
      StartTally(q, first);
      IdleTally(q, second);
  }

  lemma {:induction false} StartTallyAll(q: Query, tasks: seq<Task>, runs: seq<Run>)
    requires |runs| == |tasks| && forall i :: 0 <= i < |tasks| ==> runs[i] == Start(tasks[i])
    ensures forall i :: 0 <= i < |runs| ==> Sound(false, runs[i]) && Sound(true, runs[i])
    ensures TallyAll(q, runs) <= TaskTallyAll(q, tasks)
    ensures q.Held? || q.HeldBy? ==> TallyAll(q, runs) == 0
    decreases tasks, 0
  {
    if tasks == [] {
    } else {
      StartTally(q, tasks[0]);
      StartTallyAll(q, tasks[1..], runs[1..]);
      assert forall i :: 1 <= i < |runs| ==> runs[i] == runs[1..][i - 1];
    }
  }

  /** Tasks not started hold nothing. */
  lemma {:induction false} IdleTally(q: Query, t: Task)
    ensures q.Held? || q.HeldBy? ==> TaskTally(q, t) == 0
    decreases t, 1
  {
    match t
    case Request(_, _, _) =>
    case Together(tasks) =>
      IdleTallyAll(q, tasks);
    case Then(first, second) =>
      IdleTally(q, first);
      IdleTally(q, second);
  }

  lemma {:induction false} IdleTallyAll(q: Query, tasks: seq<Task>)
    ensures q.Held? || q.HeldBy? ==> TaskTallyAll(q, tasks) == 0
    decreases tasks, 0
  {
    if tasks == [] {
    } else {
      IdleTally(q, tasks[0]);
      IdleTallyAll(q, tasks[1..]);
    }
  }

  // ----- One step -----

  /** How an event changes the number of slots a query counts. */
  function Change(q: Query, e: Event): int {
    match e
    case Quiet => 0
    case Acquired(id) => if q == Held || q == HeldBy(id) then 1 else 0
    case Released(id) => if q == Held || q == HeldBy(id) then -1 else 0
  }

  /** What a step with event e may do to a sum. */
  predicate Moves(q: Query, e: Event, before: nat, after: nat) {
    match q
    case Held => after == before + Change(q, e)
    case HeldBy(_) => after == before + Change(q, e)
    case Mentions(_) => after <= before
    case StepsLeft => after < before
  }

  /** Every step keeps runs sound, moves the semaphore exactly as its event says, changes
      what is held accordingly, mentions no request anew, and comes nearer the end. */
  lemma {:induction false} StepTally(q: Query, cap: nat, cancelled: bool, sem: int, r: Run, e: Event, sem': int, r': Run)
    requires Sound(cancelled, r) && Step(cap, cancelled, sem, r, e, sem', r')
    ensures Sound(cancelled, r') && sem' == sem + Change(Held, e) && (e.Acquired? ==> sem < cap)
    ensures Moves(q, e, Tally(q, r), Tally(q, r'))
    decreases r, 1
  {
    if r.Joining? {
      JoinStepTally(q, cap, cancelled, sem, r, e, sem', r');
    } else if r.Chained? {
      ChainStepTally(q, cap, cancelled, sem, r, e, sem', r');
    } else {
      RequestStepTally(q, cap, cancelled, sem, r, e, sem', r');
    }
  }

  lemma {:induction false} JoinStepTally(q: Query, cap: nat, cancelled: bool, sem: int, r: Run, e: Event, sem': int, r': Run)
    requires r.Joining? && Sound(cancelled, r) && Step(cap, cancelled, sem, r, e, sem', r')
    ensures Sound(cancelled, r') && sem' == sem + Change(Held, e) && (e.Acquired? ==> sem < cap)
    ensures Moves(q, e, Tally(q, r), Tally(q, r'))
    decreases r, 0
  {
    if i, c :| 0 <= i < |r.runs| && Step(cap, cancelled, sem, r.runs[i], e, sem', c) && r' == Joining(r.runs[i := c]) {
      StepTally(q, cap, cancelled, sem, r.runs[i], e, sem', c);
      JoinTally(q, e, r.runs, i, c);
    } else {
      FinishedTally(q, r.runs);
    }
  }

  lemma {:induction false} ChainStepTally(q: Query, cap: nat, cancelled: bool, sem: int, r: Run, e: Event, sem': int, r': Run)
    requires r.Chained? && Sound(cancelled, r) && Step(cap, cancelled, sem, r, e, sem', r')
    ensures Sound(cancelled, r') && sem' == sem + Change(Held, e) && (e.Acquired? ==> sem < cap)
    ensures Moves(q, e, Tally(q, r), Tally(q, r'))
    decreases r, 0
  {
    if c :| Step(cap, cancelled, sem, r.first, e, sem', c) && r' == Chained(c, r.second) {
      StepTally(q, cap, cancelled, sem, r.first, e, sem', c);
      ChainTally(q, e, r.first, c, r.second);
    } else {
      PassTally(q, r.first, r.second);
    }
  }

  lemma {:induction false} JoinTally(q: Query, e: Event, runs: seq<Run>, i: nat, c: Run)
    requires i < |runs| && Moves(q, e, Tally(q, runs[i]), Tally(q, c))
    ensures Moves(q, e, Tally(q, Joining(runs)), Tally(q, Joining(runs[i := c])))
  {
    TallySet(q, runs, i, c);
    TallyMember(q, runs, i);
  }

  lemma {:induction false} ChainTally(q: Query, e: Event, r: Run, c: Run, second: Task)
    requires Moves(q, e, Tally(q, r), Tally(q, c))
    ensures Moves(q, e, Tally(q, Chained(r, second)), Tally(q, Chained(c, second)))
  {
  }

  lemma {:induction false} PassTally(q: Query, first: Run, second: Task)
    requires first.Finished?
    ensures Sound(false, Start(second)) && Sound(true, Start(second))
    ensures Moves(q, Quiet, Tally(q, Chained(first, second)), Tally(q, Start(second)))
    ensures Moves(q, Quiet, Tally(q, Chained(first, second)), Tally(q, first))
  {
    StartTally(q, second);
    IdleTally(q, second);
  }

  lemma {:induction false} RequestStepTally(q: Query, cap: nat, cancelled: bool, sem: int, r: Run, e: Event, sem': int, r': Run)
    requires Sound(cancelled, r) && RequestStep(cap, cancelled, sem, r, e, sem', r')
    ensures Sound(cancelled, r') && sem' == sem + Change(Held, e) && (e.Acquired? ==> sem < cap)
    ensures Moves(q, e, Tally(q, r), Tally(q, r'))
  {
    if r.InFlight? {
      FlightTally(q, cap, cancelled, sem, r, e, sem', r');
    } else if r.Returned? {
      ActionTally(q, cancelled, sem, r, e, sem', r');
    } else {
      QueueTally(q, cap, cancelled, sem, r, e, sem', r');
    }
  }

  lemma {:induction false} FlightTally(q: Query, cap: nat, cancelled: bool, sem: int, r: Run, e: Event, sem': int, r': Run)
    requires r.InFlight? && Sound(cancelled, r) && RequestStep(cap, cancelled, sem, r, e, sem', r')
    ensures Sound(cancelled, r') && sem' == sem && e == Quiet
    ensures Moves(q, e, Tally(q, r), Tally(q, r'))
  {
    BackTally(q, cancelled, r, r');
  }

  lemma {:induction false} QueueTally(q: Query, cap: nat, cancelled: bool, sem: int, r: Run, e: Event, sem': int, r': Run)
    requires (r.Sleeping? || r.Waiting?) && Sound(cancelled, r) && RequestStep(cap, cancelled, sem, r, e, sem', r')
    ensures Sound(cancelled, r') && sem' == sem + Change(Held, e) && (e.Acquired? ==> sem < cap)
    ensures Moves(q, e, Tally(q, r), Tally(q, r'))
  {
    if r'.Finished? {
      AbortTally(q, r);
    } else {
      ForwardTally(q, r.id, r.verb, r.script, r.k);
    }
  }

  /** A request that gives up before it has a slot holds none. */
  lemma {:induction false} AbortTally(q: Query, r: Run)
    requires (r.Sleeping? || r.Waiting?) && r.k < |r.script|
    ensures Moves(q, Quiet, Tally(q, r), 0)
  {
  }

  lemma {:induction false} ForwardTally(q: Query, id: nat, verb: string, script: seq<Attempt<Result>>, k: nat)
    requires k < |script|
    ensures Moves(q, Quiet, Tally(q, Sleeping(id, verb, script, k)), Tally(q, Waiting(id, verb, script, k)))
    ensures Moves(q, Acquired(id), Tally(q, Waiting(id, verb, script, k)), Tally(q, InFlight(id, verb, script, k)))
  {
  }

  /** Coming back keeps the slot and sets out a way to release it. */
  lemma {:induction false} BackTally(q: Query, cancelled: bool, r: Run, r': Run)
    requires r.InFlight? && r.k < |r.script| && r'.Returned? && ComesBack(cancelled, r.verb, r.script, r.k, r'.exit)
    requires r' == Returned(r.id, r.verb, r.script, r.k, r'.exit, Todo(r'.exit), false)
    ensures Sound(cancelled, r') && Moves(q, Quiet, Tally(q, r), Tally(q, r'))
  {
    var rest := Todo(r'.exit);
    assert Release in rest by { assert rest[|rest| - 2] == Release; }
    assert forall i :: 0 <= i < |rest| - 1 ==> !Leaves(rest[i]);
    assert forall i, j :: 0 <= i < j < |rest| && rest[i] == Release ==> !HandlesBody(rest[j]);
  }

  lemma {:induction false} ActionTally(q: Query, cancelled: bool, sem: int, r: Run, e: Event, sem': int, r': Run)
    requires r.Returned? && Sound(cancelled, r) && ActionStep(cancelled, sem, r, e, sem', r')
    ensures Sound(cancelled, r') && sem' == sem + Change(Held, e) && !e.Acquired?
    ensures Moves(q, e, Tally(q, r), Tally(q, r'))
  {
    if |r.rest| == 1 {
      LeaveTally(q, cancelled, sem, r, e, sem', r');
    } else {
      assert !Leaves(r.rest[0]);
      WorkTally(q, cancelled, sem, r, e, sem', r');
    }
  }

  /** A request that leaves has given its slot back. */
  lemma {:induction false} LeaveTally(q: Query, cancelled: bool, sem: int, r: Run, e: Event, sem': int, r': Run)
    requires r.Returned? && Sound(cancelled, r) && |r.rest| == 1 && ActionStep(cancelled, sem, r, e, sem', r')
    ensures Sound(cancelled, r') && sem' == sem && e == Quiet && r.once
    ensures Moves(q, e, Tally(q, r), Tally(q, r'))
  {
    assert Leaves(r.rest[0]) && r.rest == [r.rest[0]];
  }

  lemma {:induction false} WorkTally(q: Query, cancelled: bool, sem: int, r: Run, e: Event, sem': int, r': Run)
    requires r.Returned? && Sound(cancelled, r) && |r.rest| > 1 && !Leaves(r.rest[0]) && ActionStep(cancelled, sem, r, e, sem', r')
    ensures Sound(cancelled, r') && sem' == sem + Change(Held, e) && !e.Acquired?
    ensures Moves(q, e, Tally(q, r), Tally(q, r'))
  {
    var rest := r.rest[1..];
    assert r'.rest == rest && rest[|rest| - 1] == r.rest[|r.rest| - 1];
    assert forall i :: 0 <= i < |rest| - 1 ==> rest[i] == r.rest[i + 1];
    if !r'.once {
      assert Release in rest by { LaterAction(r.rest, Release); }
    }
    BodyComesFirst(r.rest, r.once);
  }

  /** Once released, nothing is left to do with the body. */
  lemma BodyComesFirst(rest: seq<Action>, once: bool)
    requires Orderly(rest, once)
    ensures once || rest[0] == Release ==> !BodyIsOpen(rest[1..])
    ensures forall i, j :: 0 <= i < j < |rest[1..]| && rest[1..][i] == Release ==> !HandlesBody(rest[1..][j])
  {
    forall a | a in rest[1..] ensures a in rest && (rest[0] == Release ==> !HandlesBody(a)) {
      var i :| 0 <= i < |rest[1..]| && rest[1..][i] == a;
      assert rest[i + 1] == a;
    }
  }

  lemma LaterAction(rest: seq<Action>, a: Action)
    requires rest != [] && a in rest && rest[0] != a
    ensures a in rest[1..]
  {
    var i :| 0 <= i < |rest| && rest[i] == a;
    assert rest[1..][i - 1] == a;
  }

  lemma {:induction false} FinishedTally(q: Query, runs: seq<Run>)
    requires AllFinished(runs)
    ensures TallyAll(q, runs) == 0
  {
    if runs == [] {
    } else {
      FinishedTally(q, runs[1..]);
    }
  }

  // ----- Whole executions -----

  datatype State = State(cancelled: bool, sem: int, root: Run)

  function Initial(t: Task): State { State(false, 0, Start(t)) }

  /** The context is cancelled, or some goroutine takes a step. */
  ghost predicate Next(cap: nat, s: State, e: Event, s': State) {
    || (!s.cancelled && e == Quiet && s' == s.(cancelled := true))
    || (s'.cancelled == s.cancelled && Step(cap, s.cancelled, s.sem, s.root, e, s'.sem, s'.root))
  }

  /** events[i] leads from states[i] to states[i + 1]. */
  ghost predicate Execution(cap: nat, t: Task, states: seq<State>, events: seq<Event>) {
    && |states| == |events| + 1 && states[0] == Initial(t)
    && forall i :: 0 <= i < |events| ==> NextAt(cap, states, events, i)
  }

  ghost predicate NextAt(cap: nat, states: seq<State>, events: seq<Event>, i: nat) {
    i < |events| && i + 1 < |states| && Next(cap, states[i], events[i], states[i + 1])
  }

  ghost predicate Inv(cap: nat, s: State) {
    Sound(s.cancelled, s.root) && s.sem == Tally(Held, s.root) && s.sem <= cap
  }

  lemma NextInv(cap: nat, s: State, e: Event, s': State)
    requires Inv(cap, s) && Next(cap, s, e, s')
    ensures Inv(cap, s')
  {
    if s'.cancelled == s.cancelled {
      StepTally(Held, cap, s.cancelled, s.sem, s.root, e, s'.sem, s'.root);
    } else {
      SoundStays(s.cancelled, s.root);
    }
  }

  /** The round trips under way, by phase alone: requests in flight, and those whose response
      is back with its body still to be read or closed. */
  function RoundTrips(r: Run): nat
    decreases r, 1
  {
    match r
    case Sleeping(_, _, _, _) => 0
    case Waiting(_, _, _, _) => 0
    case InFlight(_, _, _, _) => 1
    case Returned(_, _, _, _, _, rest, _) => if CloseBody in rest || ReadBody in rest then 1 else 0
    case Joining(runs) => RoundTripsAll(runs)
    case Chained(first, _) => RoundTrips(first)
    case Finished(_) => 0
  }

  function RoundTripsAll(runs: seq<Run>): nat
    decreases runs, 0
  {
    if runs == [] then 0 else RoundTrips(runs[0]) + RoundTripsAll(runs[1..])
  }

  /** Every round trip under way holds a slot. */
  lemma {:induction false} RoundTripsAreHeld(cancelled: bool, r: Run)
    requires Sound(cancelled, r)
    ensures RoundTrips(r) <= Tally(Held, r)
    decreases r, 1
  {
    match r
    case Joining(runs) => RoundTripsAllAreHeld(cancelled, runs);
    case Chained(first, _) => RoundTripsAreHeld(cancelled, first);
    case Sleeping(_, _, _, _) =>
    case Waiting(_, _, _, _) =>
    case InFlight(_, _, _, _) =>
    case Returned(_, _, _, _, _, _, _) =>
    case Finished(_) =>
  }

  lemma {:induction false} RoundTripsAllAreHeld(cancelled: bool, runs: seq<Run>)
    requires forall i :: 0 <= i < |runs| ==> Sound(cancelled, runs[i])
    ensures RoundTripsAll(runs) <= TallyAll(Held, runs)
    decreases runs, 0
  {
    if runs == [] {
    } else {
      RoundTripsAreHeld(cancelled, runs[0]);
      RoundTripsAllAreHeld(cancelled, runs[1..]);
    }
  }

  /** In every state of every execution the slots taken are those that requests hold, and
      neither they nor the round trips under way, from sending to the last byte of the body,
      are more than the cap. */
  lemma {:induction false} SlotsAreRequests(cap: nat, t: Task, states: seq<State>, events: seq<Event>, n: nat)
    requires Execution(cap, t, states, events) && n < |states|
    ensures Inv(cap, states[n])
    ensures states[n].sem == Tally(Held, states[n].root) <= cap
    ensures RoundTrips(states[n].root) <= cap
  {
    if n == 0 {
      StartTally(Held, t);
    } else {
      SlotsAreRequests(cap, t, states, events, n - 1);
      assert NextAt(cap, states, events, n - 1);
      NextInv(cap, states[n - 1], events[n - 1], states[n]);
    }
    RoundTripsAreHeld(states[n].cancelled, states[n].root);
  }

  /** Acquires minus releases by one request. */
  function Balance(id: nat, events: seq<Event>): int {
    if events == [] then 0
    else Balance(id, events[..|events| - 1]) + Change(HeldBy(id), events[|events| - 1])
  }

  lemma BalanceMore(id: nat, events: seq<Event>, n: nat)
    requires n < |events|
    ensures Balance(id, events[..n + 1]) == Balance(id, events[..n]) + Change(HeldBy(id), events[n])
  {
    assert events[..n + 1][..n] == events[..n];
  }

  lemma NextHeld(cap: nat, s: State, e: Event, s': State, id: nat)
    requires Inv(cap, s) && Next(cap, s, e, s')
    ensures Tally(HeldBy(id), s'.root) == Tally(HeldBy(id), s.root) + Change(HeldBy(id), e)
  {
    if s'.cancelled == s.cancelled {
      StepTally(HeldBy(id), cap, s.cancelled, s.sem, s.root, e, s'.sem, s'.root);
    }
  }

  lemma {:induction false} BalanceIsHeld(cap: nat, t: Task, states: seq<State>, events: seq<Event>, n: nat, id: nat)
    requires Execution(cap, t, states, events) && n < |states|
    ensures Balance(id, events[..n]) == Tally(HeldBy(id), states[n].root)
  {
    if n == 0 {
      StartTally(HeldBy(id), t);
    } else {
      BalanceIsHeld(cap, t, states, events, n - 1, id);
      SlotsAreRequests(cap, t, states, events, n - 1);
      assert NextAt(cap, states, events, n - 1);
      NextHeld(cap, states[n - 1], events[n - 1], states[n], id);
      BalanceMore(id, events, n - 1);
    }
  }

  /** Every slot a request acquires it releases exactly once: at each moment of each
      execution it has acquired as often as released, or once more, and then it is in
      flight; when all is done every slot is back. */
  lemma EachSlotIsReleasedOnce(cap: nat, t: Task, states: seq<State>, events: seq<Event>, n: nat, id: nat)
    requires Execution(cap, t, states, events) && n < |states|
    requires TaskTally(Mentions(id), t) <= 1
    ensures Balance(id, events[..n]) == Tally(HeldBy(id), states[n].root)
    ensures 0 <= Balance(id, events[..n]) <= 1
    ensures states[n].root.Finished? ==> states[n].sem == 0 && Balance(id, events[..n]) == 0
  {
    BalanceIsHeld(cap, t, states, events, n, id);
    OneSlotEach(cap, t, states, events, n, id);
    SlotsAreRequests(cap, t, states, events, n);
    HeldIsMentioned(id, states[n].root);
  }

  lemma {:induction false} OneSlotEach(cap: nat, t: Task, states: seq<State>, events: seq<Event>, n: nat, id: nat)
    requires Execution(cap, t, states, events) && n < |states|
    ensures Tally(Mentions(id), states[n].root) <= TaskTally(Mentions(id), t)
  {
    if n == 0 {
      StartTally(Mentions(id), t);
    } else {
      OneSlotEach(cap, t, states, events, n - 1, id);
      SlotsAreRequests(cap, t, states, events, n - 1);
      var s, s' := states[n - 1], states[n];
      assert NextAt(cap, states, events, n - 1);
      if s'.cancelled == s.cancelled {
        StepTally(Mentions(id), cap, s.cancelled, s.sem, s.root, events[n - 1], s'.sem, s'.root);
      }
    }
  }

  lemma {:induction false} HeldIsMentioned(id: nat, r: Run)
    ensures Tally(HeldBy(id), r) <= Tally(Mentions(id), r)
    decreases r, 1
  {
    match r
    case Sleeping(_, _, _, _) =>
    case Waiting(_, _, _, _) =>
    case InFlight(_, _, _, _) =>
    case Returned(_, _, _, _, _, _, _) =>
    case Joining(runs) => HeldIsMentionedAll(id, runs);
    case Chained(first, second) =>
      HeldIsMentioned(id, first);
      IdleTally(HeldBy(id), second);
    case Finished(_) =>
  }

  lemma {:induction false} HeldIsMentionedAll(id: nat, runs: seq<Run>)
    ensures TallyAll(HeldBy(id), runs) <= TallyAll(Mentions(id), runs)
    decreases runs, 0
  {
    if runs == [] {
    } else {
      HeldIsMentioned(id, runs[0]);
      HeldIsMentionedAll(id, runs[1..]);
    }
  }

  // ----- Progress -----

  /** A run that is not over can step whenever a slot is free, or one of its own
      requests is in flight. */
  lemma {:induction false} CanStep(cap: nat, cancelled: bool, sem: int, r: Run) returns (e: Event, sem': int, r': Run)
    requires Sound(cancelled, r) && !r.Finished?
    requires 0 <= sem && (sem < cap || Tally(Held, r) > 0) && Tally(Held, r) <= sem
    ensures Step(cap, cancelled, sem, r, e, sem', r')
    decreases r
  {
    match r
    case Sleeping(id, verb, script, k) =>
      e, sem', r' := Quiet, sem, Waiting(id, verb, script, k);
    case Waiting(id, verb, script, k) =>
      e, sem', r' := Acquired(id), sem + 1, InFlight(id, verb, script, k);
    case InFlight(id, verb, script, k) =>
      var exit := if script[k].Broken? then NoResponse else if Decides(verb, script, k) then Answer(script[k].reply) else Retryable;
      e, sem', r' := Quiet, sem, Returned(id, verb, script, k, exit, Todo(exit), false);
    case Returned(_, _, _, _, _, _, _) =>
      e, sem', r' := CanAct(cancelled, sem, r);
    case Joining(runs) =>
      if AllFinished(runs) {
        e, sem', r' := Quiet, sem, Finished(Many(Results(runs)));
      } else {
        var i := Movable(cap, sem, runs);
        TallyMember(Held, runs, i);
        var c;
        e, sem', c := CanStep(cap, cancelled, sem, runs[i]);
        r' := Joining(runs[i := c]);
      }
    case Chained(first, second) =>
      IdleTally(Held, second);
      if first.Finished? {
        e, sem', r' := Quiet, sem, if Good(first.result) then Start(second) else first;
      } else {
        var c;
        e, sem', c := CanStep(cap, cancelled, sem, first);
        r' := Chained(c, second);
      }
  }

  /** A request that is back can always go on. */
  lemma CanAct(cancelled: bool, sem: int, r: Run) returns (e: Event, sem': int, r': Run)
    requires r.Returned? && Sound(cancelled, r) && (!r.once ==> sem > 0)
    ensures ActionStep(cancelled, sem, r, e, sem', r')
  {
    var next := r.rest[1..];
    e, sem' := Quiet, sem;
    match r.rest[0]
    case CloseBody => r' := r.(rest := next);
    case ReadBody => r' := r.(rest := next);
    case Release =>
      r' := r.(rest := next, once := true);
      if !r.once {
        e, sem' := Released(r.id), sem - 1;
      }
    case CheckContext => r' := if cancelled then Finished(Aborted) else NextAttempt(r.id, r.verb, r.script, r.k);
    case TryAgain => r' := NextAttempt(r.id, r.verb, r.script, r.k);
    case Return =>
      assert |r.rest| == 1;
      r' := Finished(r.exit.reply);
  }

  /** Among runs not all over, one that is not over and can take a step. */
  lemma {:induction false} Movable(cap: nat, sem: int, runs: seq<Run>) returns (i: nat)
    requires !AllFinished(runs) && (sem < cap || TallyAll(Held, runs) > 0)
    ensures i < |runs| && !runs[i].Finished? && (sem < cap || Tally(Held, runs[i]) > 0)
  {
    if !runs[0].Finished? && (sem < cap || Tally(Held, runs[0]) > 0) {
      i := 0;
    } else {
      if AllFinished(runs[1..]) {
        FinishedTally(Held, runs[1..]);
      }
      i := Movable(cap, sem, runs[1..]);
      i := i + 1;
    }
  }

  /** With at least one slot nested fetches never deadlock: in every reachable state where
      not all is done, some goroutine can take a step, without any cancellation. */
  lemma SomeStepIsEnabled(cap: nat, t: Task, states: seq<State>, events: seq<Event>) returns (e: Event, s': State)
    requires cap >= 1 && Execution(cap, t, states, events)
    requires !states[|states| - 1].root.Finished?
    ensures var s := states[|states| - 1];
      s'.cancelled == s.cancelled && Step(cap, s.cancelled, s.sem, s.root, e, s'.sem, s'.root)
  {
    var s := states[|states| - 1];
    SlotsAreRequests(cap, t, states, events, |states| - 1);
    var sem', r';
    e, sem', r' := CanStep(cap, s.cancelled, s.sem, s.root);
    s' := State(s.cancelled, sem', r');
  }

  /** Without slots a request waits for ever: no goroutine can take a step. */
  lemma NoSlotsNoSteps(id: nat, verb: string, script: seq<Attempt<Result>>, e: Event, sem': int, r': Run)
    requires script != []
    ensures !Step(0, false, 0, Start(Request(id, verb, script)), e, sem', r')
  {
  }

  /** The steps still possible. */
  function Fuel(s: State): nat { Tally(StepsLeft, s.root) + (if s.cancelled then 0 else 1) }

  lemma NextFuel(cap: nat, s: State, e: Event, s': State)
    requires Inv(cap, s) && Next(cap, s, e, s')
    ensures Fuel(s') < Fuel(s)
  {
    if s'.cancelled == s.cancelled {
      StepTally(StepsLeft, cap, s.cancelled, s.sem, s.root, e, s'.sem, s'.root);
    }
  }

  /** Every step of every execution uses up fuel, so none runs forever. */
  lemma {:induction false} ExecutionsEnd(cap: nat, t: Task, states: seq<State>, events: seq<Event>, n: nat)
    requires Execution(cap, t, states, events) && n < |states|
    ensures Fuel(states[n]) + n <= Fuel(states[0]) <= TaskTally(StepsLeft, t) + 1
  {
    StartTally(StepsLeft, t);
    if n == 0 {
    } else {
      ExecutionsEnd(cap, t, states, events, n - 1);
      SlotsAreRequests(cap, t, states, events, n - 1);
      assert NextAt(cap, states, events, n - 1);
      NextFuel(cap, states[n - 1], events[n - 1], states[n]);
    }
  }

  // ----- Results -----

  /** What a task returns when nothing is cancelled. */
  function Eval(t: Task): Result {
    match t
    case Request(_, verb, script) => Decided(verb, script, 0)
    case Together(tasks) => Many(seq(|tasks|, i requires 0 <= i < |tasks| => Eval(tasks[i])))
    case Then(first, second) => if Good(Eval(first)) then Eval(second) else Eval(first)
  }

  /** What a task may return at all: each request its own outcome, or an abort. */
  ghost predicate MayReturn(t: Task, x: Result) {
    match t
    case Request(_, verb, script) => x == Decided(verb, script, 0) || x == Aborted
    case Together(tasks) =>
      && x.Many? && |x.results| == |tasks|
      && forall i :: 0 <= i < |tasks| ==> MayReturn(tasks[i], x.results[i])
    case Then(first, second) =>
      || (MayReturn(first, x) && !Good(x))
      || (exists y :: MayReturn(first, y) && Good(y) && MayReturn(second, x))
  }

  /** What a run may still return; `calm` when nothing is cancelled from here on. */
  ghost predicate MayEnd(calm: bool, r: Run, x: Result)
    requires Sound(true, r)
  {
    match r
    case Sleeping(_, verb, script, k) => x == Decided(verb, script, k) || (!calm && x == Aborted)
    case Waiting(_, verb, script, k) => x == Decided(verb, script, k) || (!calm && x == Aborted)
    case InFlight(_, verb, script, k) => x == Decided(verb, script, k) || (!calm && x == Aborted)
    case Returned(_, verb, script, k, _, _, _) => x == Decided(verb, script, k) || (!calm && x == Aborted)
    case Joining(runs) =>
      && x.Many? && |x.results| == |runs|
      && forall i :: 0 <= i < |runs| ==> MayEnd(calm, runs[i], x.results[i])
    case Chained(first, second) =>
      || (MayEnd(calm, first, x) && !Good(x))
      || (exists y :: MayEnd(calm, first, y) && Good(y) && TaskMayEnd(calm, second, x))
    case Finished(y) => x == y
  }

  ghost predicate TaskMayEnd(calm: bool, t: Task, x: Result) {
    if calm then x == Eval(t) else MayReturn(t, x)
  }

  lemma {:induction false} StartMayEnd(calm: bool, t: Task, x: Result)
    requires Sound(true, Start(t)) && MayEnd(calm, Start(t), x)
    ensures TaskMayEnd(calm, t, x)
  {
    match t
    case Request(_, _, _) =>
    case Together(tasks) =>
      forall i | 0 <= i < |tasks| ensures TaskMayEnd(calm, tasks[i], x.results[i]) {
        StartMayEnd(calm, tasks[i], x.results[i]);
      }
      if calm {
        assert x.results == Eval(t).results;
      }
    case Then(first, second) =>
      if MayEnd(calm, Start(first), x) && !Good(x) {
        StartMayEnd(calm, first, x);
      } else {
        var y :| MayEnd(calm, Start(first), y) && Good(y) && TaskMayEnd(calm, second, x);
        StartMayEnd(calm, first, y);
      }
  }

  /** Whatever is possible after a step was possible before it. */
  lemma {:induction false} StepMayEnd(calm: bool, cap: nat, cancelled: bool, sem: int, r: Run, e: Event, sem': int, r': Run, x: Result)
    requires Sound(cancelled, r) && Sound(true, r) && Sound(true, r') && Step(cap, cancelled, sem, r, e, sem', r')
    requires (cancelled ==> !calm) && MayEnd(calm, r', x)
    ensures MayEnd(calm, r, x)
    decreases r, 1
  {
    match r
    case Sleeping(_, _, _, _) =>
    case Waiting(_, _, _, _) =>
    case InFlight(_, _, _, _) =>
    case Returned(_, _, _, _, _, _, _) => ActionMayEnd(calm, cancelled, sem, r, e, sem', r', x);
    case Joining(_) => JoinMayEnd(calm, cap, cancelled, sem, r, e, sem', r', x);
    case Chained(_, _) => ChainMayEnd(calm, cap, cancelled, sem, r, e, sem', r', x);
  }

  lemma {:induction false} JoinMayEnd(calm: bool, cap: nat, cancelled: bool, sem: int, r: Run, e: Event, sem': int, r': Run, x: Result)
    requires r.Joining? && Sound(cancelled, r) && Sound(true, r) && Sound(true, r') && Step(cap, cancelled, sem, r, e, sem', r')
    requires (cancelled ==> !calm) && MayEnd(calm, r', x)
    ensures MayEnd(calm, r, x)
    decreases r, 0
  {
    var runs := r.runs;
    if r'.Joining? {
      var i, c :| 0 <= i < |runs| && Step(cap, cancelled, sem, runs[i], e, sem', c) && r' == Joining(runs[i := c]);
      assert r'.runs[i] == c;
      StepMayEnd(calm, cap, cancelled, sem, runs[i], e, sem', c, x.results[i]);
      forall j | 0 <= j < |runs| && j != i ensures MayEnd(calm, runs[j], x.results[j]) {
        assert r'.runs[j] == runs[j];
      }
    }
  }

  lemma {:induction false} ChainMayEnd(calm: bool, cap: nat, cancelled: bool, sem: int, r: Run, e: Event, sem': int, r': Run, x: Result)
    requires r.Chained? && Sound(cancelled, r) && Sound(true, r) && Sound(true, r') && Step(cap, cancelled, sem, r, e, sem', r')
    requires (cancelled ==> !calm) && MayEnd(calm, r', x)
    ensures MayEnd(calm, r, x)
    decreases r, 0
  {
    var first, second := r.first, r.second;
    if exists c :: Step(cap, cancelled, sem, first, e, sem', c) && r' == Chained(c, second) {
      var c :| Step(cap, cancelled, sem, first, e, sem', c) && r' == Chained(c, second);
      if MayEnd(calm, c, x) && !Good(x) {
        StepMayEnd(calm, cap, cancelled, sem, first, e, sem', c, x);
      } else {
        var y :| MayEnd(calm, c, y) && Good(y) && TaskMayEnd(calm, second, x);
        StepMayEnd(calm, cap, cancelled, sem, first, e, sem', c, y);
      }
    } else if Good(first.result) {
      StartMayEnd(calm, second, x);
      assert MayEnd(calm, first, first.result);
    }
  }

  lemma {:induction false} ActionMayEnd(calm: bool, cancelled: bool, sem: int, r: Run, e: Event, sem': int, r': Run, x: Result)
    requires r.Returned? && Sound(cancelled, r) && Sound(true, r) && Sound(true, r') && ActionStep(cancelled, sem, r, e, sem', r')
    requires (cancelled ==> !calm) && MayEnd(calm, r', x)
    ensures MayEnd(calm, r, x)
  {
    if Leaves(r.rest[0]) {
      assert |r.rest| == 1;
    }
  }

  lemma {:induction false} NextMayEnd(calm: bool, cap: nat, s: State, e: Event, s': State, x: Result)
    requires Sound(s.cancelled, s.root) && Sound(true, s.root) && Sound(true, s'.root) && Next(cap, s, e, s')
    requires calm ==> !s'.cancelled
    requires MayEnd(calm, s'.root, x)
    ensures MayEnd(calm, s.root, x) && (calm ==> !s.cancelled)
  {
    if s'.cancelled == s.cancelled {
      StepMayEnd(calm, cap, s.cancelled, s.sem, s.root, e, s'.sem, s'.root, x);
    }
  }

  lemma RunsAreSound(cap: nat, t: Task, states: seq<State>, events: seq<Event>, n: nat)
    requires Execution(cap, t, states, events) && n < |states|
    ensures Sound(states[n].cancelled, states[n].root) && Sound(true, states[n].root)
  {
    SlotsAreRequests(cap, t, states, events, n);
    SoundStays(states[n].cancelled, states[n].root);
  }

  lemma {:induction false} EndFromHere(calm: bool, cap: nat, t: Task, states: seq<State>, events: seq<Event>, n: nat, x: Result)
    requires Execution(cap, t, states, events) && n < |states|
    requires calm ==> !states[|states| - 1].cancelled
    requires states[|states| - 1].root == Finished(x)
    ensures Sound(true, states[n].root) && MayEnd(calm, states[n].root, x)
    ensures calm ==> !states[n].cancelled
    decreases |states| - n
  {
    RunsAreSound(cap, t, states, events, n);
    if n + 1 < |states| {
      RunsAreSound(cap, t, states, events, n + 1);
      EndFromHere(calm, cap, t, states, events, n + 1, x);
      assert NextAt(cap, states, events, n);
      NextMayEnd(calm, cap, states[n], events[n], states[n + 1], x);
    }
  }

  /** In every interleaving, result i of concurrent functions is a result of function i:
      its one outcome if nothing was cancelled, and otherwise one it can have. */
  lemma ResultsBelongToTheirFunctions(cap: nat, tasks: seq<Task>, states: seq<State>, events: seq<Event>, x: Result)
    requires Execution(cap, Together(tasks), states, events) && states[|states| - 1].root == Finished(x)
    ensures x.Many? && |x.results| == |tasks|
    ensures forall i :: 0 <= i < |tasks| ==> MayReturn(tasks[i], x.results[i])
    ensures !states[|states| - 1].cancelled ==> forall i :: 0 <= i < |tasks| ==> x.results[i] == Eval(tasks[i])
  {
    EndFromHere(false, cap, Together(tasks), states, events, 0, x);
    StartMayEnd(false, Together(tasks), x);
    if !states[|states| - 1].cancelled {
      EndFromHere(true, cap, Together(tasks), states, events, 0, x);
      StartMayEnd(true, Together(tasks), x);
    }
  }
}
