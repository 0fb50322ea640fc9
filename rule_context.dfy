/**
 * The per-action context of remote execution: a guard that is set once, either to "cancelled,
 * with a reason" or to "past the point of no return"; a FIFO queue of cancellation callbacks
 * that is drained when the action is cancelled; and the stage an action is in, which may only
 * move forward.
 *
 * `Ctx` is the context as a value, with one function per operation; the lemmas about `Run`
 * state what any interleaving of operations guarantees. `RuleContext` is the mutable object the
 * build pipeline shares, and each of its methods is proved to act on its fields as the
 * corresponding `Ctx` function does.
 */
module RuleContexts {
  import opened Wrappers

  /** The stages of an action, in the order the pipeline enters them. */
  datatype State =
    | Waiting
    | ComputingAction
    | UploadingInputs
    | UploadingAction
    | Executing
    | DeletingStaleOutputs
    | MaterializingOutputs

  /** `State.ordinal()`: the position of the constant in the enum declaration. */
  function Ordinal(s: State): nat {
    match s
    case Waiting => 0
    case ComputingAction => 1
    case UploadingInputs => 2
    case UploadingAction => 3
    case Executing => 4
    case DeletingStaleOutputs => 5
    case MaterializingOutputs => 6
  }

  /** The `Throwable` a cancellation carries. */
  type Reason = string

  /** The identity of a registered `Consumer<Throwable>` callback. */
  type CallbackId = nat

  /** The guard cell: null, a left value (cancelled, with the reason) or a right value. */
  datatype Guard = Unset | Cancelled(reason: Reason) | PastPointOfNoReturn

  /** One operation on a context, as a caller issues it. */
  datatype Event =
    | Cancel(reason: Reason)
    | TryStart
    | OnCancellation(callback: CallbackId)
    | EnterState(state: State)
    | CloseScope

  /** The invocations `callback.accept(reason)` made for each callback of `queue`, in order. */
  function Fire(queue: seq<CallbackId>, reason: Reason): (r: seq<(CallbackId, Reason)>)
    ensures |r| == |queue| && forall i | 0 <= i < |queue| :: r[i] == (queue[i], reason)
  {
    if queue == [] then [] else [(queue[0], reason)] + Fire(queue[1..], reason)
  }

  /** The callbacks, in order, that a list of invocations ran. */
  function CallbacksOf(fired: seq<(CallbackId, Reason)>): (r: seq<CallbackId>)
    ensures |r| == |fired| && forall i | 0 <= i < |fired| :: r[i] == fired[i].0
  {
    if fired == [] then [] else [fired[0].0] + CallbacksOf(fired[1..])
  }

  /**
   * The state of a context that decides its behaviour: the guard, the callback queue, the
   * callbacks already run (with the reason each got), the current stage and the last stage
   * whose scope was closed. The timing maps do not influence any decision and live only on
   * `RuleContext`.
   */
  datatype Ctx = Ctx(
    guard: Guard,
    callbackQueue: seq<CallbackId>,
    fired: seq<(CallbackId, Reason)>,
    actionState: State,
    prevState: State)
  {
    predicate IsCancelled() {
      guard.Cancelled?
    }

    /** processCallbackQueue: every queued callback runs once with the cancel reason, in order. */
    function Drain(): Ctx
      requires IsCancelled()
    {
      this.(callbackQueue := [], fired := fired + Fire(callbackQueue, guard.reason))
    }

    /** cancel: set the guard to cancelled if it is unset, then drain if the context is cancelled. */
    function Cancel(reason: Reason): Ctx {
      var c := if guard == Unset then this.(guard := Cancelled(reason)) else this;
      if c.IsCancelled() then c.Drain() else c
    }

    /** Whether tryStart wins: the compare-and-set from null succeeds. */
    predicate Starts() {
      guard == Unset
    }

    /** tryStart: set the guard past the point of no return if it is unset. */
    function TryStart(): Ctx {
      if guard == Unset then this.(guard := PastPointOfNoReturn) else this
    }

    /** onCancellation: queue the callback, then drain if the context is cancelled. */
    function OnCancellation(callback: CallbackId): Ctx {
      var c := this.(callbackQueue := callbackQueue + [callback]);
      if c.IsCancelled() then c.Drain() else c
    }

    /** The precondition enterState checks: strictly after the last closed stage. */
    predicate CanEnter(state: State) {
      Ordinal(state) > Ordinal(prevState)
    }

    /** enterState: move to `state` if allowed; a refused entry throws and changes nothing. */
    function EnterState(state: State): Ctx {
      if CanEnter(state) then this.(actionState := state) else this
    }

    /** Closing a scope: the current stage becomes the last closed one, unless it is Waiting. */
    function CloseScope(): Ctx {
      if actionState != Waiting then this.(prevState := actionState, actionState := Waiting) else this
    }

    function Step(e: Event): Ctx {
      match e
      case Cancel(reason) => Cancel(reason)
      case TryStart => TryStart()
      case OnCancellation(callback) => OnCancellation(callback)
      case EnterState(state) => EnterState(state)
      case CloseScope => CloseScope()
    }

    /**
     * The callbacks have run only if the context is cancelled, then all with its reason, and
     * once it is cancelled nothing waits in the queue.
     */
    predicate Consistent() {
      (IsCancelled() ==> callbackQueue == [] && forall i | 0 <= i < |fired| :: fired[i].1 == guard.reason)
      && (!IsCancelled() ==> fired == [])
    }

    /** The stage is Waiting or strictly after the last closed one. */
    predicate StagesOrdered() {
      actionState == Waiting || Ordinal(actionState) > Ordinal(prevState)
    }
  }

  /** A freshly constructed context. */
  const Initial: Ctx := Ctx(Unset, [], [], Waiting, Waiting)

  /** The context after the events of `h`, first to last. */
  function Run(c: Ctx, h: seq<Event>): Ctx
    decreases |h|
  {
    if h == [] then c else Run(c.Step(h[0]), h[1..])
  }

  /** The value the first Cancel or TryStart of `h` writes into an unset guard, if any. */
  function FirstDecision(h: seq<Event>): Option<Guard> {
    if h == [] then None
    else match h[0]
      case Cancel(reason) => Some(Cancelled(reason))
      case TryStart => Some(PastPointOfNoReturn)
      case _ => FirstDecision(h[1..])
  }

  /** The callbacks registered by the OnCancellation events of `h`, in order. */
  function Registered(h: seq<Event>): seq<CallbackId> {
    if h == [] then []
    else (if h[0].OnCancellation? then [h[0].callback] else []) + Registered(h[1..])
  }

  // ---------------------------------------------------------------------------------------------
  // The guard

  /** Once the guard is set, no later operation changes it. */
  lemma {:induction false} GuardSticks(c: Ctx, h: seq<Event>)
    requires c.guard != Unset
    ensures Run(c, h).guard == c.guard
    decreases |h|
  {
    if h != [] {
      GuardSticks(c.Step(h[0]), h[1..]);
    }
  }

  /**
   * The guard of an unset context ends up holding exactly what the first Cancel or TryStart
   * wrote: the first cancel reason, or past the point of no return; it stays unset if neither
   * came.
   */
  lemma {:induction false} GuardIsFirstDecision(c: Ctx, h: seq<Event>)
    requires c.guard == Unset
    ensures Run(c, h).guard == match FirstDecision(h) case None => Unset case Some(g) => g
    decreases |h|
  {
    if h != [] {
      var c1 := c.Step(h[0]);
      if h[0].Cancel? || h[0].TryStart? {
        GuardSticks(c1, h[1..]);
      } else {
        GuardIsFirstDecision(c1, h[1..]);
      }
    }
  }

  /**
   * After a cancel wins, every later tryStart loses, the context stays cancelled and the reason
   * stays the first one, whatever else happens (including further cancels).
   */
  lemma CancelWinsForever(c: Ctx, reason: Reason, h: seq<Event>)
    requires c.guard == Unset
    ensures var after := Run(c.Cancel(reason), h);
      !after.Starts() && after.IsCancelled() && after.guard.reason == reason
  {
    GuardSticks(c.Cancel(reason), h);
  }

  /** After tryStart wins, no later cancel makes the context cancelled. */
  lemma StartWinsForever(c: Ctx, h: seq<Event>)
    requires c.Starts()
    ensures var after := Run(c.TryStart(), h);
      !after.IsCancelled() && !after.Starts() && after.guard == PastPointOfNoReturn
  {
    GuardSticks(c.TryStart(), h);
  }

  // ---------------------------------------------------------------------------------------------
  // The callback queue

  lemma FireAppend(a: seq<CallbackId>, b: seq<CallbackId>, reason: Reason)
    ensures Fire(a + b, reason) == Fire(a, reason) + Fire(b, reason)
  {
  }

  lemma CallbacksOfAppend(a: seq<(CallbackId, Reason)>, b: seq<(CallbackId, Reason)>)
    ensures CallbacksOf(a + b) == CallbacksOf(a) + CallbacksOf(b)
  {
  }

  /** One step keeps the queue consistent and loses or duplicates no callback. */
  lemma StepKeepsCallbacks(c: Ctx, e: Event)
    requires c.Consistent()
    ensures var d := c.Step(e);
      d.Consistent()
      && CallbacksOf(d.fired) + d.callbackQueue
         == CallbacksOf(c.fired) + c.callbackQueue + (if e.OnCancellation? then [e.callback] else [])
  {
    match e {
      case Cancel(reason) => DrainKeepsCallbacks(if c.guard == Unset then c.(guard := Cancelled(reason)) else c);
      case OnCancellation(callback) => DrainKeepsCallbacks(c.(callbackQueue := c.callbackQueue + [callback]));
      case _ =>
    }
  }

  /** Draining runs the queue in order with the cancel reason and leaves nothing behind. */
  lemma DrainKeepsCallbacks(c: Ctx)
    requires c.IsCancelled() ==> forall i | 0 <= i < |c.fired| :: c.fired[i].1 == c.guard.reason
    requires !c.IsCancelled() ==> c.fired == []
    ensures var d := if c.IsCancelled() then c.Drain() else c;
      d.Consistent() && CallbacksOf(d.fired) + d.callbackQueue == CallbacksOf(c.fired) + c.callbackQueue
  {
    if c.IsCancelled() {
      var f := Fire(c.callbackQueue, c.guard.reason);
      CallbacksOfAppend(c.fired, f);
      assert CallbacksOf(f) == c.callbackQueue;
    }
  }

  /**
   * Across any history the context stays consistent, and the callbacks run followed by the ones
   * still queued are exactly the callbacks registered, each once, in registration order.
   */
  lemma {:induction false} RunKeepsCallbacks(c: Ctx, h: seq<Event>)
    requires c.Consistent()
    ensures var d := Run(c, h);
      d.Consistent() && CallbacksOf(d.fired) + d.callbackQueue == CallbacksOf(c.fired) + c.callbackQueue + Registered(h)
    decreases |h|
  {
    if h != [] {
      var c1, extra := c.Step(h[0]), if h[0].OnCancellation? then [h[0].callback] else [];
      var d := Run(c1, h[1..]);
      assert Run(c, h) == d;
      assert Registered(h) == extra + Registered(h[1..]);
      StepKeepsCallbacks(c, h[0]);
      RunKeepsCallbacks(c1, h[1..]);
      AppendChain(CallbacksOf(c.fired) + c.callbackQueue, CallbacksOf(c1.fired) + c1.callbackQueue,
                  CallbacksOf(d.fired) + d.callbackQueue, extra, Registered(h[1..]));
    }
  }

  lemma AppendChain(x: seq<CallbackId>, y: seq<CallbackId>, z: seq<CallbackId>, e: seq<CallbackId>, r: seq<CallbackId>)
    requires y == x + e && z == y + r
    ensures z == x + (e + r)
  {
  }

  /**
   * From a fresh context: if the history cancels the context, every registered callback has run
   * exactly once, in registration order, with the cancel reason, and the queue is empty; if it
   * does not, no callback has run and all of them wait in the queue.
   */
  lemma CallbacksRunOnceIffCancelled(h: seq<Event>)
    ensures var d := Run(Initial, h);
      (d.IsCancelled() ==>
        d.callbackQueue == [] && CallbacksOf(d.fired) == Registered(h)
        && forall i | 0 <= i < |d.fired| :: d.fired[i].1 == d.guard.reason)
      && (!d.IsCancelled() ==> d.fired == [] && d.callbackQueue == Registered(h))
  {
    RunKeepsCallbacks(Initial, h);
    var d := Run(Initial, h);
    assert CallbacksOf([]) + [] + Registered(h) == Registered(h);
    if d.IsCancelled() {
      assert CallbacksOf(d.fired) + d.callbackQueue == CallbacksOf(d.fired);
    } else {
      assert CallbacksOf(d.fired) == [];
    }
  }

  /** A callback registered on a cancelled context runs at once, with the cancel reason. */
  lemma LateCallbackRunsAtOnce(c: Ctx, callback: CallbackId)
    requires c.Consistent() && c.IsCancelled()
    ensures var d := c.OnCancellation(callback);
      d.callbackQueue == [] && d.fired == c.fired + [(callback, c.guard.reason)] && d.guard == c.guard
  {
    assert c.callbackQueue + [callback] == [callback];
  }

  // ---------------------------------------------------------------------------------------------
  // Stages

  /** No operation moves the last closed stage back, and the stage order is kept. */
  lemma StepKeepsStages(c: Ctx, e: Event)
    requires c.StagesOrdered()
    ensures var d := c.Step(e);
      d.StagesOrdered() && Ordinal(d.prevState) >= Ordinal(c.prevState)
      && (e.CloseScope? && c.actionState != Waiting ==> d.prevState == c.actionState && d.actionState == Waiting)
      && (e.CloseScope? && c.actionState == Waiting ==> d == c)
  {
  }

  /**
   * Over any history the stage order holds and the last closed stage never moves back; so once a
   * stage has been closed, neither it nor any earlier stage can be entered again.
   */
  lemma {:induction false} StagesNeverGoBack(c: Ctx, h: seq<Event>, s: State)
    requires c.StagesOrdered() && Ordinal(s) <= Ordinal(c.prevState)
    ensures var d := Run(c, h);
      d.StagesOrdered() && Ordinal(d.prevState) >= Ordinal(c.prevState) && !d.CanEnter(s)
    decreases |h|
  {
    if h != [] {
      StepKeepsStages(c, h[0]);
      StagesNeverGoBack(c.Step(h[0]), h[1..], s);
    }
  }

  // ---------------------------------------------------------------------------------------------
  // The mutable context

  /** The scope enterState hands out; closing it uses the time the stage was entered. */
  datatype Scope = Scope(startMs: int)

  datatype IllegalState = CannotEnterState(state: State, from: State)

  class RuleContext {
    var guard: Guard
    var callbackQueue: seq<CallbackId>
    /** The invocations of callbacks so far: which callback ran, with which reason. */
    var fired: seq<(CallbackId, Reason)>
    var actionState: State
    var prevState: State
    var timeMsInState: map<State, int>
    var timeMsAfterState: map<State, int>
    var prevStateTime: int

    function Snapshot(): Ctx
      reads this
    {
      Ctx(guard, callbackQueue, fired, actionState, prevState)
    }

    /** A new context at the clock reading `nowMs`. */
    constructor(nowMs: int)
      ensures Snapshot() == Initial
      ensures timeMsInState == map[] && timeMsAfterState == map[] && prevStateTime == nowMs
    {
      guard := Unset;
      callbackQueue := [];
      fired := [];
      actionState := Waiting;
      prevState := Waiting;
      timeMsInState := map[];
      timeMsAfterState := map[];
      prevStateTime := nowMs;
    }

    predicate IsCancelled()
      reads this
    {
      guard.Cancelled?
    }

    /** getCancelReason, which verifies that the context is cancelled. */
    function GetCancelReason(): Reason
      reads this
      requires IsCancelled()
    {
      guard.reason
    }

    method Cancel(reason: Reason)
      modifies this
      ensures Snapshot() == old(Snapshot()).Cancel(reason)
      ensures timeMsInState == old(timeMsInState) && timeMsAfterState == old(timeMsAfterState)
      ensures prevStateTime == old(prevStateTime)
    {
      if guard == Unset {
        guard := Cancelled(reason);
      }
      if IsCancelled() {
        ProcessCallbackQueue();
      }
    }

    method TryStart() returns (started: bool)
      modifies this
      ensures started == old(Snapshot()).Starts()
      ensures Snapshot() == old(Snapshot()).TryStart()
      ensures timeMsInState == old(timeMsInState) && timeMsAfterState == old(timeMsAfterState)
      ensures prevStateTime == old(prevStateTime)
    {
      started := guard == Unset;
      if started {
        guard := PastPointOfNoReturn;
      }
    }

    method OnCancellation(cancelCallback: CallbackId)
      modifies this
      ensures Snapshot() == old(Snapshot()).OnCancellation(cancelCallback)
      ensures timeMsInState == old(timeMsInState) && timeMsAfterState == old(timeMsAfterState)
      ensures prevStateTime == old(prevStateTime)
    {
      callbackQueue := callbackQueue + [cancelCallback];
      if IsCancelled() {
        ProcessCallbackQueue();
      }
    }

    /** Polls the queue until it is empty, running each callback with the cancel reason. */
    method ProcessCallbackQueue()
      requires IsCancelled()
      modifies this
      ensures Snapshot() == old(Snapshot()).Drain()
      ensures timeMsInState == old(timeMsInState) && timeMsAfterState == old(timeMsAfterState)
      ensures prevStateTime == old(prevStateTime)
    {
      var cancelReason := GetCancelReason();
      while callbackQueue != []
        invariant guard == old(guard) && actionState == old(actionState) && prevState == old(prevState)
        invariant timeMsInState == old(timeMsInState) && timeMsAfterState == old(timeMsAfterState)
        invariant prevStateTime == old(prevStateTime)
        invariant fired + Fire(callbackQueue, cancelReason) == old(fired) + Fire(old(callbackQueue), cancelReason)
        decreases |callbackQueue|
      {
        var callback := callbackQueue[0];
        assert Fire(callbackQueue, cancelReason) == [(callback, cancelReason)] + Fire(callbackQueue[1..], cancelReason);
        callbackQueue := callbackQueue[1..];
        fired := fired + [(callback, cancelReason)];
      }
    }

    /**
     * enterState at the clock reading `nowMs`: refused, with nothing changed, unless the stage is
     * strictly after the last closed one; otherwise records how long the context waited after
     * the last closed stage and moves to `state`.
     */
    method EnterState(state: State, nowMs: int) returns (r: Result<Scope, IllegalState>)
      modifies this
      ensures r.Err? <==> !old(Snapshot()).CanEnter(state)
      ensures r.Err? ==> r.error == CannotEnterState(state, old(actionState))
      ensures Snapshot() == old(Snapshot()).EnterState(state)
      ensures timeMsInState == old(timeMsInState) && prevStateTime == old(prevStateTime)
      ensures timeMsAfterState ==
        if r.Ok? then old(timeMsAfterState)[old(prevState) := nowMs - old(prevStateTime)] else old(timeMsAfterState)
      ensures r.Ok? ==> r.value.startMs == nowMs
    {
      if !(Ordinal(state) > Ordinal(prevState)) {
        return Err(CannotEnterState(state, actionState));
      }
      timeMsAfterState := timeMsAfterState[prevState := nowMs - prevStateTime];
      actionState := state;
      return Ok(Scope(nowMs));
    }

    /**
     * Closes a scope at the clock reading `nowMs`: unless the context is Waiting, records the
     * time spent in the current stage, makes it the last closed stage and returns to Waiting.
     */
    method CloseScope(scope: Scope, nowMs: int)
      modifies this
      ensures Snapshot() == old(Snapshot()).CloseScope()
      ensures if old(actionState) != Waiting then
          timeMsInState == old(timeMsInState)[old(actionState) := nowMs - scope.startMs] && prevStateTime == nowMs
        else timeMsInState == old(timeMsInState) && prevStateTime == old(prevStateTime)
      ensures timeMsAfterState == old(timeMsAfterState)
    {
      if actionState != Waiting {
        timeMsInState := timeMsInState[actionState := nowMs - scope.startMs];
        prevState := actionState;
        prevStateTime := nowMs;
        actionState := Waiting;
      }
    }

  }
}
