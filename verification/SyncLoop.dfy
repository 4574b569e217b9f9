/**
 The gateway's sync loop together with the route store, the message channel and the clock,
 as a state machine: the store changes at any moment, a message about each change is sent
 later, and the loop debounces the messages into syncs that may fail.
 */
module SyncLoop {
  import opened Options
  import opened GatewayRouting
  import ConfigSnapshot

  datatype Timing = Timing(debounce: nat, maxWait: nat, healthCheck: nat)

  const CHANNEL_CAPACITY: nat := 100

  datatype Message = Changed | Shutdown

  /** What the loop is busy with. `started` is false until the initial sync is done. */
  datatype Phase = Waiting | Loading | Applying(table: Table) | Stopped

  /** What Caddy runs: the routes of a table, or one of several candidates after a failed rollback. */
  datatype Live = Runs(table: Table) | Unclear

  /** The loop's own variables. `since` is when the current turn of the loop began. */
  datatype Vars = Vars(pending: bool, lastChange: int, lastSync: int, since: int)

  datatype State = State(
    store: Table,
    unsent: nat,
    channel: seq<Message>,
    phase: Phase,
    started: bool,
    vars: Vars,
    live: Live,
    lastGood: Option<Table>,
    now: int)

  datatype SyncResult = Success | NotBuilt | RolledBack | RollbackFailed

  datatype Step =
    | Change(table: Table)
    | Send
    | SendShutdown
    | Tick(elapsed: nat)
    | Receive
    | TimerFires
    | Load(ok: bool)
    | Finish(result: SyncResult)

  function Timeout(t: Timing, v: Vars): nat {
    if v.pending then t.debounce else t.healthCheck
  }

  /** The test made when the timer fires. */
  predicate ShouldSync(t: Timing, v: Vars, now: int) {
    v.pending && (now - v.lastChange >= t.debounce || now - v.lastSync >= t.maxWait)
  }

  predicate Enabled(t: Timing, s: State, step: Step) {
    match step
    case Change(_) => true
    case Send => s.unsent > 0 && |s.channel| < CHANNEL_CAPACITY
    case SendShutdown => |s.channel| < CHANNEL_CAPACITY
    case Tick(_) => true
    case Receive => s.phase.Waiting? && s.channel != []
    case TimerFires => s.phase.Waiting? && s.now - s.vars.since >= Timeout(t, s.vars)
    case Load(_) => s.phase.Loading?
    case Finish(result) => s.phase.Applying? && (result.RolledBack? ==> s.lastGood.Some?)
  }

  /** A sync that fails leaves `pending` alone; before the loop has started it ends the loop. */
  function SyncFailed(s: State): State {
    if s.started then s.(phase := Waiting, vars := s.vars.(since := s.now)) else s.(phase := Stopped)
  }

  function Apply(t: Timing, s: State, step: Step): State
    requires Enabled(t, s, step)
  {
    match step
    case Change(table) => s.(store := table, unsent := s.unsent + 1)
    case Send => s.(unsent := s.unsent - 1, channel := s.channel + [Changed])
    case SendShutdown => s.(channel := s.channel + [Shutdown])
    case Tick(elapsed) => s.(now := s.now + elapsed)
    case Receive =>
      var rest := s.(channel := s.channel[1..]);
      if s.channel[0] == Shutdown then rest.(phase := Stopped)
      else rest.(vars := s.vars.(pending := true, lastChange := s.now, since := s.now))
    case TimerFires =>
      if ShouldSync(t, s.vars, s.now) then s.(phase := Loading)
      else s.(vars := s.vars.(since := s.now))
    case Load(ok) => if ok then s.(phase := Applying(s.store)) else SyncFailed(s)
    case Finish(Success) =>
      var vars := if s.started then s.vars.(pending := false, lastSync := s.now, since := s.now)
                  else Vars(false, s.now, s.now, s.now);
      s.(phase := Waiting, started := true, vars := vars,
         live := Runs(s.phase.table), lastGood := Some(s.phase.table))
    case Finish(NotBuilt) => SyncFailed(s)
    case Finish(RolledBack) => SyncFailed(s).(live := Runs(s.lastGood.value))
    case Finish(RollbackFailed) => SyncFailed(s).(live := Unclear)
  }

  /** The loop begins with a sync of whatever the store holds; messages may already be on their way. */
  function Begin(store: Table, now: int): State {
    State(store, 0, [], Loading, false, Vars(false, now, now, now), Unclear, None, now)
  }

  ghost predicate Reaches(t: Timing, s: State, steps: seq<Step>, s': State)
    decreases |steps|
  {
    if steps == [] then s' == s
    else Enabled(t, s, steps[0]) && Reaches(t, Apply(t, s, steps[0]), steps[1..], s')
  }

  /** The loop will hear of a change: it knows, or a message is queued or still to be sent. */
  predicate Announced(s: State) {
    s.unsent > 0 || Changed in s.channel
  }

  ghost predicate Inv(t: Timing, s: State) {
    && (s.phase.Applying? ==> s.phase.table == s.store || Announced(s))
    && (s.started && !s.phase.Stopped? && !s.vars.pending ==>
          s.phase.Waiting? && s.live.Runs? && (s.live.table == s.store || Announced(s)))
    && (s.vars.pending ==> s.started && s.vars.lastChange <= s.vars.since)
    && (s.vars.since <= s.now && s.vars.lastChange <= s.now && s.vars.lastSync <= s.now)
    && (!s.started ==> !s.phase.Waiting?)
    && (s.live.Runs? ==> s.lastGood == Some(s.live.table))
  }

  lemma BeginInv(t: Timing, store: Table, now: int)
    ensures Inv(t, Begin(store, now))
  {
  }

  lemma StepKeepsInv(t: Timing, s: State, step: Step)
    requires Inv(t, s) && Enabled(t, s, step)
    ensures Inv(t, Apply(t, s, step))
  {
    var s' := Apply(t, s, step);
    match step
    case Send => assert s'.channel[|s.channel|] == Changed;
    case SendShutdown =>
      assert forall m | m in s.channel :: m in s'.channel;
    case Receive =>
      assert s.channel == [s.channel[0]] + s.channel[1..];
    case _ =>
  }

  lemma {:induction false} RunKeepsInv(t: Timing, s: State, steps: seq<Step>, s': State)
    requires Inv(t, s) && Reaches(t, s, steps, s')
    ensures Inv(t, s')
    decreases |steps|
  {
    if steps != [] {
      StepKeepsInv(t, s, steps[0]);
      RunKeepsInv(t, Apply(t, s, steps[0]), steps[1..], s');
    }
  }

  /**
   No update is lost: in every reachable state in which the loop runs, nothing is in flight
   and no change is pending, Caddy runs the routes of the store as it is now.
   */
  lemma NoLostUpdate(t: Timing, store: Table, start: int, steps: seq<Step>, s: State)
    requires Reaches(t, Begin(store, start), steps, s)
    requires s.started && !s.phase.Stopped? && !Announced(s) && !s.vars.pending
    ensures s.live == Runs(s.store) && s.lastGood == Some(s.store)
  {
    BeginInv(t, store, start);
    RunKeepsInv(t, Begin(store, start), steps, s);
  }

  /** And so, in such a state, requests go where the store says, unless an entry for `*` comes first. */
  lemma QuiescentGatewayServesStore(t: Timing, store: Table, start: int, steps: seq<Step>, s: State,
                                    cfg: Config, order: seq<Route>, host: string)
    requires Reaches(t, Begin(store, start), steps, s)
    requires s.started && !s.phase.Stopped? && !Announced(s) && !s.vars.pending
    requires WellFiled(s.store)
    requires s.live.Runs? ==> Enumerates(order, s.live.table)
    ensures FirstMatch(BuiltRoutes(cfg, order), host) == Intended(cfg, s.store, host) <==> !StarComesFirst(order, host)
  {
    NoLostUpdate(t, store, start, steps, s);
    RoutesRefineTable(cfg, s.store, order, host);
  }

  /** Whenever the timer fires with a change pending, a sync is attempted. */
  lemma PendingTimerSyncs(t: Timing, store: Table, start: int, steps: seq<Step>, s: State)
    requires Reaches(t, Begin(store, start), steps, s)
    requires Enabled(t, s, TimerFires)
    ensures Apply(t, s, TimerFires).phase.Loading? <==> s.vars.pending
  {
    BeginInv(t, store, start);
    RunKeepsInv(t, Begin(store, start), steps, s);
  }

  function ResultOf(r: ConfigSnapshot.Outcome): SyncResult {
    match r
    case Applied => Success
    case NotBuilt => NotBuilt
    case LoadFailed => RolledBack
    case RollbackFailed(_) => RollbackFailed
  }

  /**
   Whatever the snapshot manager makes of a table is a Finish step: the same table is last
   good, and if the machine knows what runs then the manager's Caddy runs it.
   */
  lemma ManagerMakesFinish(t: Timing, s: State, r: ConfigSnapshot.Outcome, built: Option<Table>, live: Table,
                           live': Table, lastGood': Option<Table>)
    requires s.phase.Applying? && (built.Some? ==> built.value == s.phase.table)
    requires s.live.Runs? ==> s.live.table == live
    requires ConfigSnapshot.Ends(r, built, live, s.lastGood, live', lastGood')
    ensures Enabled(t, s, Finish(ResultOf(r)))
    ensures var s' := Apply(t, s, Finish(ResultOf(r)));
            s'.lastGood == lastGood' && (s'.live.Runs? ==> s'.live.table == live')
  {
  }

  // The promised maximum wait

  /** Timings that differ at most in the maximum wait. */
  predicate SameButMaxWait(t: Timing, u: Timing) {
    t.debounce == u.debounce && t.healthCheck == u.healthCheck
  }

  /** A due timer syncs when a change is pending and not otherwise, whatever the maximum wait is. */
  lemma MaxWaitNeverDecides(t: Timing, u: Timing, v: Vars, now: int)
    requires SameButMaxWait(t, u)
    requires now - v.since >= Timeout(t, v) && (v.pending ==> v.lastChange <= v.since)
    ensures ShouldSync(t, v, now) == ShouldSync(u, v, now) == v.pending
  {
  }

  /** `max_debounce_wait` has no effect on any run: with another value the loop has exactly the same runs. */
  lemma {:induction false} MaxWaitHasNoEffect(t: Timing, u: Timing, s: State, steps: seq<Step>, s': State)
    requires SameButMaxWait(t, u) && Inv(t, s)
    ensures Reaches(t, s, steps, s') <==> Reaches(u, s, steps, s')
    decreases |steps|
  {
    if steps != [] && Enabled(t, s, steps[0]) {
      StepKeepsInv(t, s, steps[0]);
      if steps[0].TimerFires? {
        MaxWaitNeverDecides(t, u, s.vars, s.now);
      }
      assert Apply(t, s, steps[0]) == Apply(u, s, steps[0]);
      MaxWaitHasNoEffect(t, u, Apply(t, s, steps[0]), steps[1..], s');
    }
  }

  /** One more change, heard just before the debounce interval is over. */
  function Round(table: Table, debounce: nat): seq<Step>
    requires debounce > 0
  {
    [Change(table), Send, Receive, Tick(debounce - 1)]
  }

  function Rounds(table: Table, debounce: nat, n: nat): seq<Step>
    requires debounce > 0
  {
    if n == 0 then [] else Round(table, debounce) + Rounds(table, debounce, n - 1)
  }

  function AfterRound(s: State, table: Table, debounce: nat): State
    requires debounce > 0
  {
    s.(store := table, now := s.now + debounce - 1,
       vars := s.vars.(pending := true, lastChange := s.now, since := s.now))
  }

  function AfterRounds(s: State, table: Table, debounce: nat, n: nat): State
    requires debounce > 0
    decreases n
  {
    if n == 0 then s else AfterRounds(AfterRound(s, table, debounce), table, debounce, n - 1)
  }

  lemma RoundRuns(t: Timing, s: State, table: Table, rest: seq<Step>, s': State)
    requires t.debounce > 0 && s.phase.Waiting? && s.unsent == 0 && s.channel == []
    requires Reaches(t, AfterRound(s, table, t.debounce), rest, s')
    ensures Reaches(t, s, Round(table, t.debounce) + rest, s')
  {
    var steps := Round(table, t.debounce) + rest;
    var s1 := Apply(t, s, Change(table));
    var s2 := Apply(t, s1, Send);
    assert s2.channel == [Changed];
    var s3 := Apply(t, s2, Receive);
    assert s3.channel == [];
    var s4 := Apply(t, s3, Tick(t.debounce - 1));
    assert s4 == AfterRound(s, table, t.debounce);
    assert steps[1..][1..][1..][1..] == rest;
    assert steps[0] == Change(table) && steps[1..][0] == Send && steps[1..][1..][0] == Receive;
    assert Reaches(t, s3, steps[1..][1..][1..], s');
    assert Reaches(t, s2, steps[1..][1..], s');
    assert Reaches(t, s1, steps[1..], s');
  }

  /**
   `max_debounce_wait` does not force a sync. Changes that keep coming in within the
   debounce interval restart the timer each time: for any number of rounds the loop is
   still waiting, its timer is not due, and no sync has happened since the last one.
   */
  lemma {:induction false} ChangesPostponeSync(t: Timing, s: State, table: Table, n: nat)
    requires t.debounce > 0 && s.phase.Waiting? && s.unsent == 0 && s.channel == []
    ensures var s' := AfterRounds(s, table, t.debounce, n);
            && Reaches(t, s, Rounds(table, t.debounce, n), s')
            && s'.phase.Waiting? && s'.vars.lastSync == s.vars.lastSync && s'.live == s.live
            && s'.now == s.now + n * (t.debounce - 1)
            && (n > 0 ==> s'.store == table && !Enabled(t, s', TimerFires))
    decreases n
  {
    if n > 0 {
      var s1 := AfterRound(s, table, t.debounce);
      ChangesPostponeSync(t, s1, table, n - 1);
      RoundRuns(t, s, table, Rounds(table, t.debounce, n - 1), AfterRounds(s1, table, t.debounce, n - 1));
      assert n * (t.debounce - 1) == (n - 1) * (t.debounce - 1) + (t.debounce - 1);
    }
  }

  /** With the default timing, eleven such rounds already exceed the maximum wait of a second. */
  lemma MaxWaitExceeded(s: State, table: Table)
    requires s.phase.Waiting? && s.unsent == 0 && s.channel == [] && s.vars.lastSync <= s.now
    ensures var t := Timing(100, 1000, 30000);
            var s' := AfterRounds(s, table, 100, 11);
            && Reaches(t, s, Rounds(table, 100, 11), s')
            && s'.now - s'.vars.lastSync >= t.maxWait
            && s'.vars.lastSync == s.vars.lastSync && !Enabled(t, s', TimerFires)
  {
    ChangesPostponeSync(Timing(100, 1000, 30000), s, table, 11);
  }

  // The loop itself

  /** What `select!` hands to the loop, with the time at which it does. */
  datatype Event =
    | Message(message: Message, at: int)
    | Closed
    | Timer(at: int, synced: bool, until: int)

  datatype Turn = Goes(vars: Vars, attempts: nat) | Ends(attempts: nat)

  /** One turn of the loop; `attempts` counts the syncs that were tried. */
  function Handle(t: Timing, turn: Turn, e: Event): Turn {
    match turn
    case Ends(_) => turn
    case Goes(v, attempts) =>
      match e
      case Message(Changed, at) => Goes(v.(pending := true, lastChange := at, since := at), attempts)
      case Message(Shutdown, _) => Ends(attempts)
      case Closed => Ends(attempts)
      case Timer(at, synced, until) =>
        if !ShouldSync(t, v, at) then Goes(v.(since := at), attempts)
        else if synced then Goes(v.(pending := false, lastSync := until, since := until), attempts + 1)
        else Goes(v.(since := until), attempts + 1)
  }

  function HandleAll(t: Timing, turn: Turn, events: seq<Event>): Turn {
    if events == [] then turn
    else Handle(t, HandleAll(t, turn, events[..|events| - 1]), events[|events| - 1])
  }

  lemma {:induction false} EndsForGood(t: Timing, turn: Turn, events: seq<Event>, k: nat)
    requires k <= |events| && HandleAll(t, turn, events[..k]).Ends?
    ensures HandleAll(t, turn, events) == HandleAll(t, turn, events[..k])
    decreases |events|
  {
    if k == |events| {
      assert events[..k] == events;
    } else {
      var n := |events| - 1;
      assert events[..n][..k] == events[..k];
      EndsForGood(t, turn, events[..n], k);
    }
  }

  // When a sync comes, and so when the maximum wait is kept

  /** A run that hears of changes only and whose timer is punctual: it fires when it is due, before anything later. */
  predicate Punctual(t: Timing, v: Vars, events: seq<Event>)
    decreases |events|
  {
    events == [] ||
    match events[0]
    case Message(message, at) =>
      message == Changed && v.since <= at <= v.since + Timeout(t, v) &&
      Punctual(t, Handle(t, Goes(v, 0), events[0]).vars, events[1..])
    case Timer(at, _, until) =>
      at == v.since + Timeout(t, v) && at <= until &&
      Punctual(t, Handle(t, Goes(v, 0), events[0]).vars, events[1..])
    case Closed => false
  }

  /** When the changes were received. */
  function Arrivals(events: seq<Event>): seq<int> {
    if events == [] then []
    else if events[0].Message? then [events[0].at] + Arrivals(events[1..])
    else Arrivals(events[1..])
  }

  /** When the first sync is attempted. */
  function FirstAttempt(t: Timing, v: Vars, events: seq<Event>): Option<int>
    requires Punctual(t, v, events)
    decreases |events|
  {
    if events == [] then None
    else if events[0].Timer? && ShouldSync(t, v, events[0].at) then Some(events[0].at)
    else FirstAttempt(t, Handle(t, Goes(v, 0), events[0]).vars, events[1..])
  }

  /** Some two changes in a row come at least `gap` apart. */
  predicate HasGap(a: seq<int>, gap: nat) {
    exists i | 0 <= i < |a| - 1 :: a[i + 1] - a[i] >= gap
  }

  /** The first change after which nothing comes for `gap`. */
  function FirstGap(a: seq<int>, gap: nat): (i: nat)
    requires a != []
    ensures i < |a|
    ensures i < |a| - 1 ==> a[i + 1] - a[i] >= gap
    ensures forall j | 0 <= j < i :: a[j + 1] - a[j] < gap
  {
    if |a| == 1 || a[1] - a[0] >= gap then 0 else 1 + FirstGap(a[1..], gap)
  }

  lemma {:induction false} ArrivalsLater(t: Timing, v: Vars, events: seq<Event>)
    requires Punctual(t, v, events)
    ensures forall i | 0 <= i < |Arrivals(events)| :: v.since <= Arrivals(events)[i]
    decreases |events|
  {
    if events != [] {
      ArrivalsLater(t, Handle(t, Goes(v, 0), events[0]).vars, events[1..]);
    }
  }

  lemma {:induction false} LastArrives(events: seq<Event>)
    requires events != [] && events[|events| - 1].Message?
    ensures Arrivals(events) != []
  {
    if |events| > 1 {
      LastArrives(events[1..]);
    }
  }

  lemma HasGapFrom(a: seq<int>, gap: nat)
    requires |a| > 1
    ensures HasGap(a, gap) <==> a[1] - a[0] >= gap || HasGap(a[1..], gap)
  {
    var rest := a[1..];
    if HasGap(a, gap) && a[1] - a[0] < gap {
      var i :| 0 <= i < |a| - 1 && a[i + 1] - a[i] >= gap;
      assert rest[i - 1 + 1] - rest[i - 1] >= gap;
    }
    if HasGap(rest, gap) {
      var i :| 0 <= i < |rest| - 1 && rest[i + 1] - rest[i] >= gap;
      assert a[i + 1 + 1] - a[i + 1] >= gap;
    }
  }

  function AfterChange(v: Vars, at: int): Vars {
    v.(pending := true, lastChange := at, since := at)
  }

  /** After a change comes another one, within the debounce interval, or else a sync. */
  lemma AfterOneChange(t: Timing, v: Vars, events: seq<Event>)
    requires |events| > 1 && events[0].Message? && Punctual(t, v, events)
    ensures var at, v1 := events[0].at, AfterChange(v, events[0].at);
            && Arrivals(events) == [at] + Arrivals(events[1..])
            && Punctual(t, v1, events[1..]) && FirstAttempt(t, v, events) == FirstAttempt(t, v1, events[1..])
            && (events[1].Message? ==> |Arrivals(events)| > 1 && Arrivals(events)[1] == events[1].at <= at + t.debounce)
            && (events[1].Timer? ==> FirstAttempt(t, v, events) == Some(at + t.debounce))
            && (events[1].Timer? && |Arrivals(events)| > 1 ==> Arrivals(events)[1] >= at + t.debounce)
  {
    var v1 := AfterChange(v, events[0].at);
    var rest := events[1..];
    assert Handle(t, Goes(v, 0), events[0]) == Goes(v1, 0);
    if rest[0].Timer? {
      assert ShouldSync(t, v1, rest[0].at);
      ArrivalsLater(t, Handle(t, Goes(v1, 0), rest[0]).vars, rest[1..]);
      assert Arrivals(rest) == Arrivals(rest[1..]);
    }
  }

  /** No two changes in a row come exactly `gap` apart, so that the timer and a message are never due together. */
  predicate NoTies(a: seq<int>, gap: nat) {
    forall i | 0 <= i < |a| - 1 :: a[i + 1] - a[i] != gap
  }

  lemma NoTiesAfter(a: seq<int>, gap: nat)
    requires NoTies(a, gap) && |a| > 1
    ensures NoTies(a[1..], gap) && a[1] - a[0] != gap
  {
    assert a[0 + 1] - a[0] != gap;
    forall i | 0 <= i < |a[1..]| - 1
      ensures a[1..][i + 1] - a[1..][i] != gap
    {
      assert a[i + 1 + 1] - a[i + 1] != gap;
    }
  }

  /**
   When the first sync after a change is attempted: once nothing has come for the debounce
   interval.
   */
  lemma {:induction false} SyncComesAtFirstGap(t: Timing, v: Vars, events: seq<Event>)
    requires events != [] && events[0].Message? && Punctual(t, v, events)
    requires NoTies(Arrivals(events), t.debounce) && FirstAttempt(t, v, events).Some?
    ensures var a := Arrivals(events);
            a != [] && FirstAttempt(t, v, events) == Some(a[FirstGap(a, t.debounce)] + t.debounce)
    decreases |events|
  {
    hide Punctual, FirstAttempt, Arrivals;
    if |events| == 1 {
      OneEventNoAttempt(t, v, events);
    }
    AfterOneChange(t, v, events);
    var a := Arrivals(events);
    if events[1].Message? {
      assert a[1..] == Arrivals(events[1..]);
      NoTiesAfter(a, t.debounce);
      SyncComesAtFirstGap(t, AfterChange(v, events[0].at), events[1..]);
    }
  }

  lemma OneEventNoAttempt(t: Timing, v: Vars, events: seq<Event>)
    requires |events| == 1 && events[0].Message? && Punctual(t, v, events)
    ensures FirstAttempt(t, v, events).None? && Arrivals(events) == [events[0].at]
  {
  }

  /**
   Between the first and the last of some changes a sync is attempted if two in a row come
   further apart than the debounce interval, and only if two come that far apart. (A change
   at the very instant when the timer is due may be taken before it or after it.)
   */
  lemma {:induction false} SyncBetweenChanges(t: Timing, v: Vars, events: seq<Event>)
    requires events != [] && events[0].Message? && events[|events| - 1].Message? && Punctual(t, v, events)
    ensures HasGap(Arrivals(events), t.debounce + 1) ==> FirstAttempt(t, v, events).Some?
    ensures FirstAttempt(t, v, events).Some? ==> HasGap(Arrivals(events), t.debounce)
    decreases |events|
  {
    hide Punctual, FirstAttempt, Arrivals, HasGap;
    if |events| == 1 {
      OneEventNoAttempt(t, v, events);
      NoGapAlone(events[0].at, t.debounce + 1);
    } else {
      AfterOneChange(t, v, events);
      var a := Arrivals(events);
      LastArrives(events[1..]);
      assert a[1..] == Arrivals(events[1..]);
      HasGapFrom(a, t.debounce);
      HasGapFrom(a, t.debounce + 1);
      if events[1].Message? {
        SyncBetweenChanges(t, AfterChange(v, events[0].at), events[1..]);
      } else {
        IsTimer(t, v, events);
      }
    }
  }

  lemma NoGapAlone(at: int, gap: nat)
    ensures !HasGap([at], gap)
  {
  }

  lemma IsTimer(t: Timing, v: Vars, events: seq<Event>)
    requires |events| > 1 && Punctual(t, v, events)
    ensures events[1].Message? || events[1].Timer?
  {
  }

  /**
   The promise of `max_debounce_wait`, that a change waits no longer than that for a sync, is
   kept exactly when among the changes that follow there is a gap of a debounce interval
   that begins early enough. A caller can tell from the spacing of its changes.
   */
  lemma MaxWaitKeptIff(t: Timing, v: Vars, events: seq<Event>)
    requires events != [] && events[0].Message? && events[|events| - 1].Message? && Punctual(t, v, events)
    requires NoTies(Arrivals(events), t.debounce)
    ensures var a, first := Arrivals(events), FirstAttempt(t, v, events);
            a != [] &&
            (first.Some? <==> HasGap(a, t.debounce)) &&
            (first.Some? && first.value - a[0] <= t.maxWait <==>
             HasGap(a, t.debounce) && a[FirstGap(a, t.debounce)] + t.debounce - a[0] <= t.maxWait)
  {
    hide Punctual, FirstAttempt, FirstGap;
    SyncBetweenChanges(t, v, events);
    var a := Arrivals(events);
    if HasGap(a, t.debounce) {
      var i :| 0 <= i < |a| - 1 && a[i + 1] - a[i] >= t.debounce;
      assert a[i + 1] - a[i] >= t.debounce + 1;
      SyncComesAtFirstGap(t, v, events);
    }
  }

  lemma {:induction false} HandleFirst(t: Timing, turn: Turn, events: seq<Event>)
    requires events != []
    ensures HandleAll(t, turn, events) == HandleAll(t, Handle(t, turn, events[0]), events[1..])
    decreases |events|
  {
    var n := |events| - 1;
    if n == 0 {
      assert events[..0] == [] && events[1..] == [];
    } else {
      HandleFirst(t, turn, events[..n]);
      assert events[..n][1..] == events[1..][..n - 1];
    }
  }

  lemma {:induction false} AttemptsShift(t: Timing, v: Vars, k: nat, events: seq<Event>)
    requires Punctual(t, v, events)
    ensures HandleAll(t, Goes(v, k), events).attempts >= k
    ensures HandleAll(t, Goes(v, k), events).attempts > k <==> FirstAttempt(t, v, events).Some?
    decreases |events|
  {
    if events != [] {
      HandleFirst(t, Goes(v, k), events);
      var next := Handle(t, Goes(v, k), events[0]);
      assert next.Goes? && next.vars == Handle(t, Goes(v, 0), events[0]).vars;
      AttemptsShift(t, next.vars, next.attempts, events[1..]);
    }
  }

  method RunLoop(t: Timing, start: int, events: seq<Event>) returns (running: bool, vars: Vars, attempts: nat)
    ensures var turn := HandleAll(t, Goes(Vars(false, start, start, start), 0), events);
            attempts == turn.attempts && running == turn.Goes? && (running ==> vars == turn.vars)
  {
    ghost var begin := Goes(Vars(false, start, start, start), 0);
    var pending := false;
    var lastChange, lastSync, since := start, start, start;
    attempts := 0;
    for i := 0 to |events|
      invariant HandleAll(t, begin, events[..i]) == Goes(Vars(pending, lastChange, lastSync, since), attempts)
    {
      assert events[..i + 1][..i] == events[..i];
      match events[i]
      case Message(message, at) =>
        if message == Shutdown {
          EndsForGood(t, begin, events, i + 1);
          return false, Vars(pending, lastChange, lastSync, since), attempts;
        }
        pending := true;
        lastChange := at;
        since := at;
      case Closed =>
        EndsForGood(t, begin, events, i + 1);
        return false, Vars(pending, lastChange, lastSync, since), attempts;
      case Timer(at, synced, until) =>
        var shouldSync := pending && (at - lastChange >= t.debounce || at - lastSync >= t.maxWait);
        since := at;
        if shouldSync {
          attempts := attempts + 1;
          since := until;
          if synced {
            pending := false;
            lastSync := until;
          }
        }
    }
    assert events[..|events|] == events;
    return true, Vars(pending, lastChange, lastSync, since), attempts;
  }

  /** The state machine's turns are the loop's turns. */
  lemma StepsAreTurns(t: Timing, s: State, attempts: nat)
    requires s.started && s.phase.Waiting?
    ensures Enabled(t, s, Receive) ==>
              var s' := Apply(t, s, Receive);
              Handle(t, Goes(s.vars, attempts), Message(s.channel[0], s.now)) ==
              if s'.phase.Stopped? then Ends(attempts) else Goes(s'.vars, attempts)
    ensures Enabled(t, s, TimerFires) && !ShouldSync(t, s.vars, s.now) ==>
              Handle(t, Goes(s.vars, attempts), Timer(s.now, false, s.now)) ==
              Goes(Apply(t, s, TimerFires).vars, attempts)
  {
  }

  /** The same for a turn that syncs: the load and the apply happen between two instants. */
  lemma SyncIsOneTurn(t: Timing, s: State, busy: State, result: SyncResult, attempts: nat)
    requires s.started && Enabled(t, s, TimerFires) && ShouldSync(t, s.vars, s.now)
    requires busy.started && busy.vars == s.vars && Enabled(t, busy, Finish(result))
    ensures Handle(t, Goes(s.vars, attempts), Timer(s.now, result.Success?, busy.now)) ==
            Goes(Apply(t, busy, Finish(result)).vars, attempts + 1)
  {
  }
}
