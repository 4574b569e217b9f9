/** That the sync loop can always catch up with the store, and what ends it. */
module SyncProgress {
  import opened Options
  import opened SyncLoop
  import GatewayRouting

  lemma Then(t: Timing, s: State, step: Step, rest: seq<Step>, s': State)
    requires Enabled(t, s, step) && Reaches(t, Apply(t, s, step), rest, s')
    ensures Reaches(t, s, [step] + rest, s')
  {
    assert ([step] + rest)[1..] == rest;
  }

  /** A step of the loop, the channel or the clock, none of a client of the store; every sync goes well. */
  predicate Quiet(step: Step) {
    step.Send? || step.Tick? || step.Receive? || step.TimerFires? || step == Load(true) || step == Finish(Success)
  }

  predicate AllQuiet(steps: seq<Step>) {
    forall i | 0 <= i < |steps| :: Quiet(steps[i])
  }

  /** The loop has nothing more to do, and Caddy runs what the store holds. */
  predicate CaughtUp(s: State, store: GatewayRouting.Table) {
    && s.started && s.phase.Waiting? && !s.vars.pending
    && s.unsent == 0 && s.channel == []
    && s.store == store && s.live == Runs(store) && s.lastGood == Some(store)
  }

  /** How many steps the sync in hand, or the pending one, still needs. */
  function Work(t: Timing, s: State): nat {
    match s.phase
    case Stopped => 0
    case Applying(_) => 1
    case Loading => 2
    case Waiting => if !s.vars.pending then 0 else if s.now - s.vars.since >= t.debounce then 3 else 4
  }

  /** What the loop and its channel do when left alone. */
  function NextStep(t: Timing, s: State): Step {
    match s.phase
    case Loading => Load(true)
    case Applying(_) => Finish(Success)
    case _ =>
      if s.channel != [] then Receive
      else if s.unsent > 0 then Send
      else if s.now - s.vars.since >= t.debounce then TimerFires
      else Tick(t.debounce)
  }

  lemma NextStepProgresses(t: Timing, s: State)
    requires Inv(t, s) && !s.phase.Stopped? && Shutdown !in s.channel && !CaughtUp(s, s.store)
    ensures var step := NextStep(t, s);
            && Enabled(t, s, step) && Quiet(step)
            && var u := Apply(t, s, step);
               && !u.phase.Stopped? && Shutdown !in u.channel && u.store == s.store
               && 2 * u.unsent + |u.channel| <= 2 * s.unsent + |s.channel|
               && (2 * u.unsent + |u.channel| == 2 * s.unsent + |s.channel| ==> Work(t, u) < Work(t, s))
  {
    if s.channel != [] {
      assert s.channel[0] in s.channel;
      assert forall m | m in s.channel[1..] :: m in s.channel;
    }
  }

  /**
   No reachable state is a dead end: unless the loop was stopped or told to stop, it catches
   up with the store once the store rests and syncs go well, whatever has failed before.
   */
  lemma {:induction false} CanCatchUp(t: Timing, s: State) returns (steps: seq<Step>, s': State)
    requires Inv(t, s) && !s.phase.Stopped? && Shutdown !in s.channel
    ensures AllQuiet(steps) && Reaches(t, s, steps, s') && CaughtUp(s', s.store)
    decreases 2 * s.unsent + |s.channel|, Work(t, s)
  {
    hide Enabled, Apply, Inv, CaughtUp, Work;
    if CaughtUp(s, s.store) {
      steps, s' := [], s;
    } else {
      var step := NextStep(t, s);
      NextStepProgresses(t, s);
      StepKeepsInv(t, s, step);
      var rest;
      rest, s' := CanCatchUp(t, Apply(t, s, step));
      Then(t, s, step, rest, s');
      steps := [step] + rest;
    }
  }

  /** The same from the start of the loop: any run that has not been told to stop can be continued so. */
  lemma RunsCanCatchUp(t: Timing, store: GatewayRouting.Table, start: int, steps: seq<Step>, s: State)
    returns (more: seq<Step>, s': State)
    requires Reaches(t, Begin(store, start), steps, s)
    requires !s.phase.Stopped? && Shutdown !in s.channel
    ensures AllQuiet(more) && Reaches(t, s, more, s') && CaughtUp(s', s.store)
  {
    BeginInv(t, store, start);
    RunKeepsInv(t, Begin(store, start), steps, s);
    more, s' := CanCatchUp(t, s);
  }

  /** A sync that fails is tried again by the next timer, with the change pending. A failed first sync ends the loop. */
  lemma FailedSyncIsRetried(t: Timing, s: State, step: Step, elapsed: nat)
    requires Inv(t, s) && Enabled(t, s, step)
    requires step == Load(false) || (step.Finish? && step.result != Success)
    ensures var u := Apply(t, s, step);
            if !s.started then u.phase.Stopped?
            else
              && u.phase.Waiting? && u.vars.pending && u.vars.lastChange == s.vars.lastChange
              && var v := Apply(t, u, Tick(elapsed));
                 Enabled(t, v, TimerFires) <==> elapsed >= t.debounce
    ensures s.started && elapsed >= t.debounce ==>
              Apply(t, Apply(t, Apply(t, s, step), Tick(elapsed)), TimerFires).phase.Loading?
  {
  }

  /** The timer runs for the debounce interval while a change is pending, and else for the health check interval. */
  lemma TimerIsDueIff(t: Timing, s: State)
    requires s.phase.Waiting?
    ensures s.vars.pending ==> (Enabled(t, s, TimerFires) <==> s.now >= s.vars.since + t.debounce)
    ensures !s.vars.pending ==> (Enabled(t, s, TimerFires) <==> s.now >= s.vars.since + t.healthCheck)
  {
  }

  /** At most a hundred messages wait, and a sender waits only while there are a hundred. */
  lemma ChannelBounded(t: Timing, store: GatewayRouting.Table, start: int, steps: seq<Step>, s: State)
    requires Reaches(t, Begin(store, start), steps, s)
    ensures |s.channel| <= 100
    ensures Enabled(t, s, Send) <==> s.unsent > 0 && |s.channel| < 100
  {
    ChannelStaysBounded(t, Begin(store, start), steps, s);
  }

  lemma {:induction false} ChannelStaysBounded(t: Timing, s: State, steps: seq<Step>, s': State)
    requires |s.channel| <= 100 && Reaches(t, s, steps, s')
    ensures |s'.channel| <= 100
    decreases |steps|
  {
    if steps != [] {
      ChannelStaysBounded(t, Apply(t, s, steps[0]), steps[1..], s');
    }
  }

  // What ends the loop

  /** A message to shut down, or a channel whose senders are gone. */
  predicate Ending(e: Event) {
    e.Closed? || (e.Message? && e.message == Shutdown)
  }

  /** The loop ends exactly with the first such event, and nothing is attempted after it. */
  lemma {:induction false} EndsExactly(t: Timing, v: Vars, attempts: nat, events: seq<Event>)
    ensures HandleAll(t, Goes(v, attempts), events).Ends? <==> exists k :: 0 <= k < |events| && Ending(events[k])
    decreases |events|
  {
    if events != [] {
      var n := |events| - 1;
      EndsExactly(t, v, attempts, events[..n]);
      assert forall k | 0 <= k < n :: events[..n][k] == events[k];
      assert Ending(events[n]) ==> exists k :: 0 <= k < |events| && Ending(events[k]);
      assert (exists k :: 0 <= k < n && Ending(events[..n][k])) ==> exists k :: 0 <= k < |events| && Ending(events[k]);
    }
  }

  lemma NoAttemptAfterEnd(t: Timing, v: Vars, attempts: nat, events: seq<Event>, k: nat)
    requires k < |events| && Ending(events[k])
    ensures HandleAll(t, Goes(v, attempts), events).attempts == HandleAll(t, Goes(v, attempts), events[..k]).attempts
  {
    assert events[..k + 1][..k] == events[..k];
    assert HandleAll(t, Goes(v, attempts), events[..k + 1]).Ends?;
    EndsForGood(t, Goes(v, attempts), events, k + 1);
  }

  /** A stopped loop stays stopped and never touches Caddy again. */
  lemma {:induction false} StoppedForEver(t: Timing, s: State, steps: seq<Step>, s': State)
    requires s.phase.Stopped? && Reaches(t, s, steps, s')
    ensures s'.phase.Stopped? && s'.live == s.live && s'.lastGood == s.lastGood
    decreases |steps|
  {
    if steps != [] {
      StoppedForEver(t, Apply(t, s, steps[0]), steps[1..], s');
    }
  }
}
