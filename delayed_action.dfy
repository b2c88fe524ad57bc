/**
 * The supersedable delayed action of src/main.js: a per-action debounce combined with
 * single-flight execution and replay of the last payload that arrived while an
 * invocation was running.
 *
 * Time, `setTimeout`/`clearTimeout` and promises are abstract events: a timeout is a slot
 * holding the payload its callback captured, its expiry is the event `Timeout`, and the
 * settlement of the promise returned by the action is `Fulfil` or `Reject`.
 */
module DelayedAction {
  import opened Options

  /** The record kept in `actionStates` for one action. `timer` is the armed timeout (with the
      payload its callback closes over), `inProgress` is `actionInProgress`, `pending` is
      `pendingPayload`. `unsettled` is not a field of the source: it is the promise returned by
      the action that has not settled yet, with the payload the action was called with. */
  datatype ActionState<P> = ActionState(
    timer: Option<P>,
    inProgress: bool,
    pending: Option<P>,
    unsettled: Option<P>)

  /** The empty record created on the first call for an action: no timeout armed, no call
      running, nothing pending. */
  function Initial<P>(): (s: ActionState<P>)
    ensures s.timer.None? && !s.inProgress && s.pending.None? && s.unsettled.None?
    ensures Consistent(s)
  {
    ActionState(None, false, None, None)
  }

  /** What every reachable record satisfies: a promise is outstanding, or a payload is
      pending, only while the in-progress flag is set. */
  predicate Consistent<P>(s: ActionState<P>)
  {
    && (s.unsettled.Some? ==> s.inProgress)
    && (s.pending.Some? ==> s.inProgress)
  }

  /** The record after an event, and the payload the action was called with, if it was. */
  datatype Step<P> = Step(state: ActionState<P>, invoked: Option<P>)

  /** A call of supersedableDelayedAction(delay, payload, action): any armed timeout is cleared
      and exactly one new timeout is armed, capturing `payload`. */
  function Scheduled<P>(s: ActionState<P>, payload: P): (r: ActionState<P>)
    ensures r.timer == Some(payload)
    ensures r.inProgress == s.inProgress && r.pending == s.pending && r.unsettled == s.unsettled
    ensures Consistent(s) ==> Consistent(r)
  {
    s.(timer := Some(payload))
  }

  /** `loop(payload)`: the flag is set, then the action is called with `payload`. */
  function Started<P>(s: ActionState<P>, payload: P): (r: Step<P>)
    ensures r.invoked == Some(payload) && r.state.unsettled == Some(payload)
    ensures r.state.inProgress
    ensures r.state.timer == s.timer && r.state.pending == s.pending
  {
    Step(s.(inProgress := true, unsettled := Some(payload)), Some(payload))
  }

  /** The armed timeout expires. With an invocation in progress the captured payload overwrites
      the pending slot and the action is not called; otherwise the action is called with it.
      Without an armed timeout nothing happens. */
  function Fired<P>(s: ActionState<P>): (r: Step<P>)
    ensures r.state.timer.None?
    ensures Consistent(s) ==> Consistent(r.state)
    // the action is called only with the payload of the timeout, and never while a call is running
    ensures r.invoked.Some? ==> Consistent(s) ==> s.unsettled.None? && !s.inProgress
    ensures r.invoked.Some? ==> s.timer == r.invoked && r.state.unsettled == r.invoked
    // last write wins: the fired payload replaces whatever was pending
    ensures s.timer.Some? && s.inProgress ==> r.invoked.None? && r.state.pending == s.timer
    ensures s.timer.Some? && !s.inProgress && Consistent(s) ==> r.invoked == s.timer
    // a call started by the expiry leaves nothing pending behind it
    ensures r.invoked.Some? && Consistent(s) ==> r.state.pending.None?
    ensures s.timer.None? ==> r == Step(s, None)
  {
    match s.timer
    case None => Step(s, None)
    case Some(payload) =>
      var s1 := s.(timer := None);
      if s1.inProgress then
        Step(s1.(pending := Some(payload)), None)
      else
        Started(s1, payload)
  }

  /** The promise returned by the running invocation settles. On fulfilment the flag is cleared
      and a pending payload, if any, is removed from the slot and run at once, without a timeout.
      On rejection nothing else happens: the source has no rejection handler, so the flag stays
      set. Without an outstanding promise nothing happens. */
  function Settled<P>(s: ActionState<P>, ok: bool): (r: Step<P>)
    ensures r.state.timer == s.timer
    ensures Consistent(s) ==> Consistent(r.state)
    ensures s.unsettled.None? ==> r == Step(s, None)
    // the drain: the pending payload runs next, and nothing runs when nothing is pending
    ensures s.unsettled.Some? && ok ==> r.invoked == s.pending && r.state.pending.None?
    ensures s.unsettled.Some? && ok ==> r.state.inProgress == s.pending.Some?
    // a rejection leaves the flag set and calls nothing
    ensures s.unsettled.Some? && !ok ==>
      r == Step(s.(unsettled := None), None) && (Consistent(s) ==> r.state.inProgress)
  {
    if s.unsettled.None? then Step(s, None)
    else
      var s1 := s.(unsettled := None);
      if !ok then Step(s1, None)
      else
        var s2 := s1.(inProgress := false);
        match s2.pending
        case None => Step(s2, None)
        case Some(payload) => Started(s2.(pending := None), payload)
  }

  // ---------------------------------------------------------------------------------------
  // Runs of events for one action

  datatype Event<P> = Call(payload: P) | Timeout | Fulfil | Reject

  /** The record after a run, the payloads the action was called with, in order, and how many
      outstanding promises settled during the run. */
  datatype Trace<P> = Trace(state: ActionState<P>, invoked: seq<P>, settled: nat)

  function Apply<P>(s: ActionState<P>, e: Event<P>): Step<P>
  {
    match e
    case Call(payload) => Step(Scheduled(s, payload), None)
    case Timeout => Fired(s)
    case Fulfil => Settled(s, true)
    case Reject => Settled(s, false)
  }

  /** One when the event settles an outstanding promise. */
  function SettleCount<P>(s: ActionState<P>, e: Event<P>): nat
  {
    if (e.Fulfil? || e.Reject?) && s.unsettled.Some? then 1 else 0
  }

  function Run<P>(s: ActionState<P>, events: seq<Event<P>>): Trace<P>
    decreases |events|
  {
    if events == [] then Trace(s, [], 0)
    else
      var step := Apply(s, events[0]);
      var rest := Run(step.state, events[1..]);
      Trace(rest.state, ToSeq(step.invoked) + rest.invoked, SettleCount(s, events[0]) + rest.settled)
  }

  /** One `Call` per payload, in order. */
  function Calls<P>(payloads: seq<P>): seq<Event<P>>
  {
    if payloads == [] then [] else [Call(payloads[0])] + Calls(payloads[1..])
  }

  /** A burst of calls within one delay window, then the expiry of the timeout. */
  function Burst<P>(payloads: seq<P>): seq<Event<P>>
  {
    Calls(payloads) + [Timeout]
  }

  function InFlight<P>(s: ActionState<P>): nat
  {
    if s.unsettled.Some? then 1 else 0
  }

  /** Running two runs one after the other is running their concatenation. */
  lemma {:induction false} RunAppend<P>(s: ActionState<P>, a: seq<Event<P>>, b: seq<Event<P>>)
    ensures var ra := Run(s, a); var rb := Run(ra.state, b);
      Run(s, a + b) == Trace(rb.state, ra.invoked + rb.invoked, ra.settled + rb.settled)
    decreases |a|
  {
    if a == [] {
      assert a + b == b;
    } else {
      assert (a + b)[0] == a[0];
      assert (a + b)[1..] == a[1..] + b;
      RunAppend(Apply(s, a[0]).state, a[1..], b);
    }
  }

  /** Every reachable record is valid, and invocations never overlap: each call of the action
      is matched by a settlement or is the one call still outstanding, and at most one call
      is outstanding at any time. */
  lemma {:induction false} InvocationsAreSerial<P>(s: ActionState<P>, events: seq<Event<P>>)
    requires Consistent(s)
    ensures var t := Run(s, events);
      && Consistent(t.state)
      && InFlight(s) + |t.invoked| == t.settled + InFlight(t.state)
    decreases |events|
  {
    if events != [] {
      InvocationsAreSerial(Apply(s, events[0]).state, events[1..]);
    }
  }

  /** Debounce: a burst of calls leaves one armed timeout, carrying the last payload, and
      nothing else changes. */
  lemma {:induction false} CallsCoalesce<P>(s: ActionState<P>, payloads: seq<P>)
    requires |payloads| > 0
    ensures Run(s, Calls(payloads)) == Trace(s.(timer := Some(payloads[|payloads| - 1])), [], 0)
    decreases |payloads|
  {
    if |payloads| > 1 {
      CallsCoalesce(Scheduled(s, payloads[0]), payloads[1..]);
    }
  }

  /** A burst of calls followed by the expiry of the timeout calls the action once, with the
      last payload, when no invocation is running; otherwise it only stores that payload. */
  lemma DebouncedFiring<P>(s: ActionState<P>, payloads: seq<P>)
    requires Consistent(s) && |payloads| > 0
    ensures var t := Run(s, Burst(payloads));
      var last := payloads[|payloads| - 1];
      && (!s.inProgress ==> t.invoked == [last] && t.state.unsettled == Some(last))
      && (s.inProgress ==> t.invoked == [] && t.state.pending == Some(last))
      && (s.inProgress ==> t.state.inProgress && t.state.unsettled == s.unsettled)
      && t.state.timer.None? && Consistent(t.state)
  {
    RunAppend(s, Calls(payloads), [Timeout]);
    CallsCoalesce(s, payloads);
  }

  /** Several bursts of calls, each followed by the expiry of its timeout. */
  function Bursts<P>(bursts: seq<seq<P>>): seq<Event<P>>
  {
    if bursts == [] then [] else Burst(bursts[0]) + Bursts(bursts[1..])
  }

  /** Last write wins: while a call is in progress (running, or blocked by a rejection), any
      number of bursts, each ending in an expiry, call nothing, leave the outstanding call as it
      is, and leave exactly the last payload of the last burst pending. A timeout may already be
      armed when the first burst begins. */
  lemma {:induction false} BurstsWhileBusy<P>(s: ActionState<P>, bursts: seq<seq<P>>)
    requires Consistent(s) && s.inProgress && |bursts| > 0
    requires forall k :: 0 <= k < |bursts| ==> |bursts[k]| > 0
    ensures var t := Run(s, Bursts(bursts));
      var lastBurst := bursts[|bursts| - 1];
      && t.invoked == []
      && t.state.inProgress && t.state.unsettled == s.unsettled
      && t.state.pending == Some(lastBurst[|lastBurst| - 1])
      && t.state.timer.None? && Consistent(t.state)
    decreases |bursts|
  {
    var first := bursts[0];
    var a, rest := Burst(first), Bursts(bursts[1..]);
    var ra := Run(s, a);
    assert ra.invoked == [] && ra.state.inProgress && ra.state.unsettled == s.unsettled
      && ra.state.pending == Some(first[|first| - 1]) && ra.state.timer.None?
      && Consistent(ra.state) by {
      DebouncedFiring(s, first);
    }
    var rr := Run(ra.state, rest);
    assert Run(s, Bursts(bursts)) == Trace(rr.state, ra.invoked + rr.invoked, ra.settled + rr.settled) by {
      RunAppend(s, a, rest);
    }
    if |bursts| > 1 {
      BurstsWhileBusy(ra.state, bursts[1..]);
      assert bursts[1..][|bursts| - 2] == bursts[|bursts| - 1];
    } else {
      assert rest == [];
    }
  }

  /** Single flight with replay: while a call is outstanding, any number of bursts of calls,
      each ending in an expiry, lead on its fulfilment to exactly one more call of the action,
      with the last payload of the last burst, made at once, with no timeout armed. */
  lemma LatestPayloadRunsNext<P>(s: ActionState<P>, bursts: seq<seq<P>>)
    requires Consistent(s) && s.unsettled.Some? && |bursts| > 0
    requires forall k :: 0 <= k < |bursts| ==> |bursts[k]| > 0
    ensures var t := Run(s, Bursts(bursts) + [Fulfil]);
      var lastBurst := bursts[|bursts| - 1];
      var last := lastBurst[|lastBurst| - 1];
      && t.invoked == [last]
      && t.state.unsettled == Some(last)
      && t.state.pending.None? && t.state.timer.None?
  {
    var lastBurst := bursts[|bursts| - 1];
    var last := lastBurst[|lastBurst| - 1];
    var a := Bursts(bursts);
    var ra := Run(s, a);
    assert ra.invoked == [] && ra.state.pending == Some(last) && ra.state.unsettled.Some?
      && ra.state.timer.None? by {
      BurstsWhileBusy(s, bursts);
    }
    var rc := Run(ra.state, [Fulfil]);
    assert rc.invoked == [last] && rc.state.unsettled == Some(last) && rc.state.pending.None?
      && rc.state.timer.None? by {
      var one: seq<Event<P>> := [Fulfil];
      assert one[1..] == [];
    }
    RunAppend(s, a, [Fulfil]);
  }

  /** A rejected invocation blocks the action for good: whatever happens afterwards, the action
      is never called again and the flag stays set. */
  lemma {:induction false} RejectionBlocksForever<P>(s: ActionState<P>, events: seq<Event<P>>)
    requires Consistent(s) && s.unsettled.Some?
    ensures var t := Run(s, [Reject] + events);
      t.invoked == [] && t.state.inProgress && t.state.unsettled.None?
  {
    var blocked := s.(unsettled := None);
    assert ([Reject] + events)[1..] == events;
    StaysBlocked(blocked, events);
  }

  lemma {:induction false} StaysBlocked<P>(s: ActionState<P>, events: seq<Event<P>>)
    requires s.inProgress && s.unsettled.None?
    ensures var t := Run(s, events);
      t.invoked == [] && t.state.inProgress && t.state.unsettled.None?
    decreases |events|
  {
    if events != [] {
      StaysBlocked(Apply(s, events[0]).state, events[1..]);
    }
  }

  /** The first scenario: two calls in one delay window fire once, with the second payload. */
  lemma TwoCallsOneInvocation<P>(a: P, b: P)
    ensures Run(Initial(), [Call(a), Call(b), Timeout]).invoked == [b]
  {
    DebouncedFiring(Initial(), [a, b]);
    assert Calls([a, b]) == [Call(a)] + Calls([b]);
    assert Burst([a, b]) == [Call(a), Call(b), Timeout];
  }

  /** The second scenario: a call made while the first invocation runs is run right after its
      fulfilment; then, with nothing pending, the next fulfilment runs nothing. */
  lemma QueuedCallRunsAfterCompletion<P>(x: P, y: P)
    ensures Run(Initial(), [Call(x), Timeout, Call(y), Timeout, Fulfil, Fulfil]).invoked == [x, y]
  {
    var events := [Call(x), Timeout, Call(y), Timeout, Fulfil, Fulfil];
    var s0: ActionState<P> := Initial();
    var s1 := Scheduled(s0, x);
    var s2 := Fired(s1).state;
    var s3 := Scheduled(s2, y);
    var s4 := Fired(s3).state;
    var s5 := Settled(s4, true).state;
    var s6 := Settled(s5, true).state;
    assert Run(s5, events[5..]).invoked == [];
    assert Run(s4, events[4..]).invoked == [y];
    assert Run(s3, events[3..]).invoked == [y];
    assert Run(s2, events[2..]).invoked == [y];
    assert Run(s1, events[1..]).invoked == [x, y];
  }

  // ---------------------------------------------------------------------------------------
  // The registry `actionStates`, updated in place

  /** `actionStates`: one record per action, created on the first call for that action. */
  class Registry<K(==), P> {
    var states: map<K, ActionState<P>>

    ghost predicate Valid()
      reads this
    {
      forall k :: k in states ==> Consistent(states[k])
    }

    constructor ()
      ensures Valid() && states == map[]
    {
      states := map[];
    }

    /** supersedableDelayedAction(delay, payload, action) for the action `key`. */
    method Schedule(key: K, payload: P)
      requires Valid()
      modifies this
      ensures Valid()
      ensures key in states
      ensures var before := if key in old(states) then old(states)[key] else Initial();
        states == old(states)[key := Scheduled(before, payload)]
    {
      if key !in states {
        states := states[key := Initial()];
      }
      var state := states[key];
      if state.timer.Some? {
        state := state.(timer := None);
      }
      state := state.(timer := Some(payload));
      states := states[key := state];
    }

    /** The timeout armed for `key` expires; returns the payload the action is called with. */
    method Fire(key: K) returns (invoked: Option<P>)
      requires Valid()
      modifies this
      ensures Valid()
      ensures key !in old(states) ==> states == old(states) && invoked.None?
      ensures key in old(states) ==>
        var step := Fired(old(states)[key]);
        states == old(states)[key := step.state] && invoked == step.invoked
    {
      invoked := None;
      if key in states {
        var state := states[key];
        if state.timer.Some? {
          var payload := state.timer.value;
          state := state.(timer := None);
          if state.inProgress {
            state := state.(pending := Some(payload));
          } else {
            var step := Started(state, payload);
            state, invoked := step.state, step.invoked;
          }
          states := states[key := state];
        }
      }
    }

    /** The promise of the outstanding invocation for `key` settles; returns the pending
        payload the action is called with next, if any. */
    method Settle(key: K, ok: bool) returns (invoked: Option<P>)
      requires Valid()
      modifies this
      ensures Valid()
      ensures key !in old(states) ==> states == old(states) && invoked.None?
      ensures key in old(states) ==>
        var step := Settled(old(states)[key], ok);
        states == old(states)[key := step.state] && invoked == step.invoked
    {
      invoked := None;
      if key in states && states[key].unsettled.Some? {
        var state := states[key].(unsettled := None);
        if ok {
          state := state.(inProgress := false);
          if state.pending.Some? {
            var payload := state.pending.value;
            state := state.(pending := None);
            var step := Started(state, payload);
            state, invoked := step.state, step.invoked;
          }
        }
        states := states[key := state];
      }
    }
  }
}
