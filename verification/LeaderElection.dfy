/**
 Leader election by advisory locks over connection pools, as a state machine over the
 atomic steps of concurrent processes.

 The SQL calls that take and give back a lock each run on whichever pooled session is at
 hand. Between them a task is either in a process's `held_locks` map or in the hands of a
 call in progress, which the model keeps as a ticket.
 */
module LeaderElection {

  type Process = nat
  type Session = nat

  /** Which process each session belongs to, and the hash from task names to lock ids. */
  datatype Config = Config(owner: Session -> Process, lockId: string -> int)

  /** Session-level locks are reentrant: they count how often their session took them. */
  datatype Lock = Lock(session: Session, count: nat)

  datatype Ticket =
    | Granted(id: nat, process: Process, task: string)
    | Releasing(id: nat, process: Process, lock: int)

  datatype State = State(
    locks: map<int, Lock>,
    held: map<(Process, string), int>,
    tickets: set<Ticket>,
    next: nat)
  {
    /** What `is_leader` answers in a process. */
    predicate IsLeader(p: Process, task: string) {
      (p, task) in held
    }
  }

  datatype Step =
    | Take(session: Session, task: string)
    | Record(ticket: Ticket)
    | Forget(process: Process, task: string)
    | Unlock(session: Session, ticket: Ticket)
    | Lose(ticket: Ticket)
    | Close(session: Session)
    | Crash(process: Process)

  const Initial := State(map[], map[], {}, 0)

  predicate CanTake(s: State, session: Session, lock: int) {
    lock in s.locks ==> s.locks[lock].session == session
  }

  function TakenCount(s: State, lock: int): nat {
    if lock in s.locks then s.locks[lock].count else 0
  }

  /** A step that is not enabled changes nothing. */
  function Apply(cfg: Config, s: State, step: Step): State {
    match step
    case Take(session, task) =>
      var k := cfg.lockId(task);
      if CanTake(s, session, k) then
        s.(locks := s.locks[k := Lock(session, TakenCount(s, k) + 1)],
           tickets := s.tickets + {Granted(s.next, cfg.owner(session), task)},
           next := s.next + 1)
      else s
    case Record(t) =>
      if t in s.tickets && t.Granted? then
        s.(held := s.held[(t.process, t.task) := cfg.lockId(t.task)], tickets := s.tickets - {t})
      else s
    case Forget(p, task) =>
      if (p, task) in s.held then
        s.(held := s.held - {(p, task)},
           tickets := s.tickets + {Releasing(s.next, p, s.held[(p, task)])},
           next := s.next + 1)
      else s
    case Unlock(session, t) =>
      if t in s.tickets && t.Releasing? && cfg.owner(session) == t.process then
        s.(locks := GiveBack(s.locks, session, t.lock), tickets := s.tickets - {t})
      else s
    case Lose(t) => s.(tickets := s.tickets - {t})
    case Close(session) => s.(locks := map k | k in s.locks && s.locks[k].session != session :: s.locks[k])
    case Crash(p) =>
      s.(locks := map k | k in s.locks && cfg.owner(s.locks[k].session) != p :: s.locks[k],
         held := map key | key in s.held && key.0 != p :: s.held[key],
         tickets := set t | t in s.tickets && t.process != p)
  }

  /** `pg_advisory_unlock` on a session: it only counts down a lock that this session holds. */
  function GiveBack(locks: map<int, Lock>, session: Session, k: int): map<int, Lock> {
    if k in locks && locks[k].session == session then
      if locks[k].count <= 1 then locks - {k} else locks[k := Lock(session, locks[k].count - 1)]
    else locks
  }

  function Run(cfg: Config, steps: seq<Step>): State {
    if steps == [] then Initial else Apply(cfg, Run(cfg, steps[..|steps| - 1]), steps[|steps| - 1])
  }

  // The invariant

  function LockOf(cfg: Config, t: Ticket): int {
    match t
    case Granted(_, _, task) => cfg.lockId(task)
    case Releasing(_, _, lock) => lock
  }

  function Keys(s: State, p: Process, k: int): set<(Process, string)> {
    set key | key in s.held && key.0 == p && s.held[key] == k
  }

  function Tickets(cfg: Config, s: State, p: Process, k: int): set<Ticket> {
    set t | t in s.tickets && t.process == p && LockOf(cfg, t) == k
  }

  /** How many times process p believes it has taken lock k and not given it back. */
  function Claims(cfg: Config, s: State, p: Process, k: int): nat {
    |Keys(s, p, k)| + |Tickets(cfg, s, p, k)|
  }

  /** Every claim of a process is backed by one count of a lock that a session of its own holds. */
  predicate Backed(cfg: Config, s: State, p: Process, k: int) {
    Claims(cfg, s, p, k) > 0 ==>
      k in s.locks && cfg.owner(s.locks[k].session) == p && Claims(cfg, s, p, k) <= s.locks[k].count
  }

  /** What holds of a state whatever happens to it. */
  predicate Sane(cfg: Config, s: State) {
    && (forall key | key in s.held :: s.held[key] == cfg.lockId(key.1))
    && (forall t | t in s.tickets :: t.id < s.next)
    && (forall k | k in s.locks :: s.locks[k].count > 0)
  }

  /** Every claim on lock k is backed. */
  ghost predicate InvAt(cfg: Config, s: State, k: int) {
    Sane(cfg, s) && forall p :: Backed(cfg, s, p, k)
  }

  ghost predicate Inv(cfg: Config, s: State) {
    forall k :: InvAt(cfg, s, k)
  }

  /**
   If a session closes with lock k, its process has no claim on k left: it is not leader of a
   task of that lock, nor about to be, nor has it a lock to give back. A lock that has leaked
   may go down with its session.
   */
  predicate ClosesUnclaimed(cfg: Config, s: State, step: Step, k: int) {
    step.Close? && k in s.locks && s.locks[k].session == step.session ==>
      Claims(cfg, s, cfg.owner(step.session), k) == 0
  }

  predicate UnclaimedClosesOnly(cfg: Config, steps: seq<Step>, k: int) {
    forall i | 0 <= i < |steps| :: ClosesUnclaimed(cfg, Run(cfg, steps[..i]), steps[i], k)
  }

  // How each step moves claims

  predicate Fresh(s: State) {
    forall t | t in s.tickets :: t.id < s.next
  }

  lemma TakeClaims(cfg: Config, s: State, session: Session, task: string, p: Process, k: int)
    requires Fresh(s)
    ensures var taken := CanTake(s, session, cfg.lockId(task)) && p == cfg.owner(session) && k == cfg.lockId(task);
            Claims(cfg, Apply(cfg, s, Take(session, task)), p, k) == Claims(cfg, s, p, k) + if taken then 1 else 0
  {
    var s' := Apply(cfg, s, Take(session, task));
    var t := Granted(s.next, cfg.owner(session), task);
    assert Keys(s', p, k) == Keys(s, p, k);
    if CanTake(s, session, cfg.lockId(task)) && p == cfg.owner(session) && k == cfg.lockId(task) {
      assert Tickets(cfg, s', p, k) == Tickets(cfg, s, p, k) + {t};
    } else {
      assert Tickets(cfg, s', p, k) == Tickets(cfg, s, p, k);
    }
  }

  /** Recording a task that is already in the map merges two claims into one. */
  lemma RecordClaims(cfg: Config, s: State, t: Ticket, p: Process, k: int)
    requires forall key | key in s.held :: s.held[key] == cfg.lockId(key.1)
    ensures var merged := t in s.tickets && t.Granted? && (t.process, t.task) in s.held &&
                          p == t.process && k == cfg.lockId(t.task);
            Claims(cfg, Apply(cfg, s, Record(t)), p, k) == Claims(cfg, s, p, k) - if merged then 1 else 0
  {
    var s' := Apply(cfg, s, Record(t));
    if t in s.tickets && t.Granted? {
      var key := (t.process, t.task);
      RecordKeys(s, key, cfg.lockId(t.task), s', p, k);
      RecordTickets(cfg, s, t, s', p, k);
      if t.process == p && cfg.lockId(t.task) == k {
        if key in s.held {
          assert key in Keys(s, p, k) && Keys(s, p, k) + {key} == Keys(s, p, k);
        } else {
          assert key !in Keys(s, p, k) && |Keys(s, p, k) + {key}| == |Keys(s, p, k)| + 1;
        }
      }
    }
  }

  lemma RecordKeys(s: State, key: (Process, string), lock: int, s': State, p: Process, k: int)
    requires s'.held == s.held[key := lock] && (key in s.held ==> s.held[key] == lock)
    ensures Keys(s', p, k) == if key.0 == p && lock == k then Keys(s, p, k) + {key} else Keys(s, p, k)
  {
  }

  lemma RecordTickets(cfg: Config, s: State, t: Ticket, s': State, p: Process, k: int)
    requires t in s.tickets && s'.tickets == s.tickets - {t}
    ensures var counted := t.process == p && LockOf(cfg, t) == k;
            |Tickets(cfg, s', p, k)| == |Tickets(cfg, s, p, k)| - if counted then 1 else 0
  {
    if t.process == p && LockOf(cfg, t) == k {
      assert t in Tickets(cfg, s, p, k);
      assert Tickets(cfg, s', p, k) == Tickets(cfg, s, p, k) - {t};
    } else {
      assert Tickets(cfg, s', p, k) == Tickets(cfg, s, p, k);
    }
  }

  lemma ForgetClaims(cfg: Config, s: State, q: Process, task: string, p: Process, k: int)
    requires Fresh(s)
    ensures Claims(cfg, Apply(cfg, s, Forget(q, task)), p, k) == Claims(cfg, s, p, k)
  {
    var s' := Apply(cfg, s, Forget(q, task));
    var key := (q, task);
    if key in s.held {
      ForgetKeys(s, key, s', p, k);
      if q == p && s.held[key] == k {
        assert Tickets(cfg, s', p, k) == Tickets(cfg, s, p, k) + {Releasing(s.next, q, k)};
      } else {
        assert Tickets(cfg, s', p, k) == Tickets(cfg, s, p, k);
      }
    }
  }

  lemma ForgetKeys(s: State, key: (Process, string), s': State, p: Process, k: int)
    requires key in s.held && s'.held == s.held - {key}
    ensures key.0 == p && s.held[key] == k ==> key in Keys(s, p, k) && Keys(s', p, k) == Keys(s, p, k) - {key}
    ensures !(key.0 == p && s.held[key] == k) ==> Keys(s', p, k) == Keys(s, p, k)
  {
  }

  lemma DropClaims(cfg: Config, s: State, s': State, t: Ticket, p: Process, k: int)
    requires s'.held == s.held && s'.tickets == s.tickets - {t}
    ensures var counted := t in s.tickets && p == t.process && k == LockOf(cfg, t);
            Claims(cfg, s', p, k) == Claims(cfg, s, p, k) - if counted then 1 else 0
    ensures t in s.tickets ==> Claims(cfg, s, t.process, LockOf(cfg, t)) > 0
  {
    assert Keys(s', p, k) == Keys(s, p, k);
    if t in s.tickets {
      assert t in Tickets(cfg, s, t.process, LockOf(cfg, t));
    }
    if t in s.tickets && p == t.process && k == LockOf(cfg, t) {
      assert Tickets(cfg, s', p, k) == Tickets(cfg, s, p, k) - {t};
    } else {
      assert Tickets(cfg, s', p, k) == Tickets(cfg, s, p, k);
    }
  }

  lemma EndClaims(cfg: Config, s: State, step: Step, p: Process, k: int)
    requires step.Close? || step.Crash?
    ensures Claims(cfg, Apply(cfg, s, step), p, k) == if step == Crash(p) then 0 else Claims(cfg, s, p, k)
  {
    var s' := Apply(cfg, s, step);
    if step == Crash(p) {
      assert Keys(s', p, k) == {} && Tickets(cfg, s', p, k) == {};
    } else {
      assert Keys(s', p, k) == Keys(s, p, k);
      assert Tickets(cfg, s', p, k) == Tickets(cfg, s, p, k);
    }
  }

  lemma StepKeepsSane(cfg: Config, s: State, step: Step)
    requires Sane(cfg, s)
    ensures Sane(cfg, Apply(cfg, s, step))
  {
  }

  /** Every step of every process keeps a lock's invariant, unless it closes its session while it is claimed. */
  lemma StepKeepsInv(cfg: Config, s: State, step: Step, k: int)
    requires InvAt(cfg, s, k) && ClosesUnclaimed(cfg, s, step, k)
    ensures InvAt(cfg, Apply(cfg, s, step), k)
  {
    hide Claims, Sane;
    var s' := Apply(cfg, s, step);
    StepKeepsSane(cfg, s, step);
    forall p
      ensures Backed(cfg, s', p, k)
    {
      assert Backed(cfg, s, p, k);
      StepKeepsBacked(cfg, s, step, p, k);
    }
  }

  lemma StepKeepsBacked(cfg: Config, s: State, step: Step, p: Process, k: int)
    requires InvAt(cfg, s, k) && ClosesUnclaimed(cfg, s, step, k)
    ensures Backed(cfg, Apply(cfg, s, step), p, k)
  {
    hide Claims;
    var s' := Apply(cfg, s, step);
    assert Backed(cfg, s, p, k);
    match step
    case Take(session, task) => TakeClaims(cfg, s, session, task, p, k);
    case Record(t) => RecordClaims(cfg, s, t, p, k);
    case Forget(q, task) => ForgetClaims(cfg, s, q, task, p, k);
    case Unlock(session, t) =>
      if s' != s {
        assert Backed(cfg, s, t.process, k);
        DropClaims(cfg, s, s', t, p, k);
      }
    case Lose(t) => DropClaims(cfg, s, s', t, p, k);
    case Close(_) => EndClaims(cfg, s, step, p, k);
    case Crash(_) => EndClaims(cfg, s, step, p, k);
  }

  /** Exactly then: closing a session keeps the invariant if and only if no lock of it is claimed. */
  lemma CloseKeepsInvIff(cfg: Config, s: State, session: Session)
    requires Inv(cfg, s)
    ensures Inv(cfg, Apply(cfg, s, Close(session))) <==> forall k :: ClosesUnclaimed(cfg, s, Close(session), k)
  {
    hide Claims;
    var s' := Apply(cfg, s, Close(session));
    if forall k :: ClosesUnclaimed(cfg, s, Close(session), k) {
      forall k
        ensures InvAt(cfg, s', k)
      {
        assert InvAt(cfg, s, k) && ClosesUnclaimed(cfg, s, Close(session), k);
        StepKeepsInv(cfg, s, Close(session), k);
      }
    } else {
      var k :| !ClosesUnclaimed(cfg, s, Close(session), k);
      var p := cfg.owner(session);
      EndClaims(cfg, s, Close(session), p, k);
      assert !Backed(cfg, s', p, k);
      assert !InvAt(cfg, s', k);
    }
  }

  lemma InitialInv(cfg: Config, k: int)
    ensures InvAt(cfg, Initial, k)
  {
    forall p
      ensures Backed(cfg, Initial, p, k)
    {
      assert Keys(Initial, p, k) == {} && Tickets(cfg, Initial, p, k) == {};
    }
  }

  lemma {:induction false} RunKeepsInv(cfg: Config, steps: seq<Step>, k: int)
    requires UnclaimedClosesOnly(cfg, steps, k)
    ensures InvAt(cfg, Run(cfg, steps), k)
    decreases |steps|
  {
    hide InvAt, ClosesUnclaimed;
    if steps == [] {
      InitialInv(cfg, k);
    } else {
      var n := |steps| - 1;
      forall i | 0 <= i < n
        ensures ClosesUnclaimed(cfg, Run(cfg, steps[..n][..i]), steps[..n][i], k)
      {
        assert steps[..n][..i] == steps[..i];
      }
      RunKeepsInv(cfg, steps[..n], k);
      StepKeepsInv(cfg, Run(cfg, steps[..n]), steps[n], k);
    }
  }

  lemma OneLeader(cfg: Config, s: State, p: Process, t: string, q: Process, u: string)
    requires InvAt(cfg, s, cfg.lockId(t)) && cfg.lockId(t) == cfg.lockId(u)
    requires s.IsLeader(p, t) && s.IsLeader(q, u)
    ensures p == q && cfg.lockId(t) in s.locks && cfg.owner(s.locks[cfg.lockId(t)].session) == p
  {
    assert (p, t) in Keys(s, p, cfg.lockId(t)) && (q, u) in Keys(s, q, cfg.lockId(u));
    assert Backed(cfg, s, p, cfg.lockId(t)) && Backed(cfg, s, q, cfg.lockId(u));
  }

  /**
   Safety over all runs: at most one process is leader of a task, and of all tasks that
   hash to the same lock, provided that no session closes with that lock while the lock is
   claimed. What happens to other locks does not matter.
   */
  lemma AtMostOneLeader(cfg: Config, steps: seq<Step>, p: Process, t: string, q: Process, u: string)
    requires UnclaimedClosesOnly(cfg, steps, cfg.lockId(t)) && cfg.lockId(t) == cfg.lockId(u)
    requires Run(cfg, steps).IsLeader(p, t) && Run(cfg, steps).IsLeader(q, u)
    ensures p == q
  {
    RunKeepsInv(cfg, steps, cfg.lockId(t));
    OneLeader(cfg, Run(cfg, steps), p, t, q, u);
  }

  /**
   The premise is needed: whenever the session that holds a leader's lock closes under it,
   any other process can become leader beside it in two steps. Such a session is an idle
   connection of the pool, since no call keeps it.
   */
  lemma ClosingHolderBreaksExclusion(cfg: Config, s: State, p: Process, task: string, session: Session)
    requires InvAt(cfg, s, cfg.lockId(task)) && s.IsLeader(p, task) && cfg.owner(session) != p
    ensures cfg.lockId(task) in s.locks
    ensures var steps := [Close(s.locks[cfg.lockId(task)].session), Take(session, task),
                          Record(Granted(s.next, cfg.owner(session), task))];
            var s' := RunFrom(cfg, s, steps);
            s'.IsLeader(p, task) && s'.IsLeader(cfg.owner(session), task)
  {
    OneLeader(cfg, s, p, task, p, task);
    var k := cfg.lockId(task);
    var close, take := Close(s.locks[k].session), Take(session, task);
    var record := Record(Granted(s.next, cfg.owner(session), task));
    var steps := [close, take, record];
    var s1 := Apply(cfg, s, close);
    var s2 := Apply(cfg, s1, take);
    var s3 := Apply(cfg, s2, record);
    assert k !in s1.locks && s1.held == s.held && s1.next == s.next;
    assert s3.IsLeader(p, task) && s3.IsLeader(cfg.owner(session), task);
    assert steps[1..] == [take, record] && steps[1..][1..] == [record] && steps[1..][1..][1..] == [];
    assert RunFrom(cfg, s2, [record]) == s3;
    assert RunFrom(cfg, s1, [take, record]) == s3;
  }

  // Giving a lock back

  /** An unlock takes effect exactly when it runs on the session that holds the lock. */
  lemma UnlockWorksIff(cfg: Config, s: State, session: Session, t: Ticket)
    requires t in s.tickets && t.Releasing? && cfg.owner(session) == t.process && InvAt(cfg, s, t.lock)
    ensures t.lock in s.locks
    ensures TakenCount(Apply(cfg, s, Unlock(session, t)), t.lock) < TakenCount(s, t.lock) <==>
            s.locks[t.lock].session == session
  {
    assert Backed(cfg, s, t.process, t.lock);
    assert t in Tickets(cfg, s, t.process, t.lock);
  }

  /** Neither does the session that holds lock k close nor its process crash. */
  predicate HolderStays(cfg: Config, s: State, step: Step, k: int)
    requires k in s.locks
  {
    step != Close(s.locks[k].session) && step != Crash(cfg.owner(s.locks[k].session))
  }

  /** Counts of a lock that nobody will give back any more. */
  function Leaked(cfg: Config, s: State, k: int): int {
    if k in s.locks then s.locks[k].count - Claims(cfg, s, cfg.owner(s.locks[k].session), k) else 0
  }

  /**
   While its session stays open, what has leaked from a lock never comes back, whatever
   all processes do and whatever happens to all other sessions. The comment in the code
   promises a dedicated connection for each lock; an unlock on another pooled connection
   leaks the lock instead.
   */
  lemma LeaksNeverHeal(cfg: Config, s: State, step: Step, k: int)
    requires InvAt(cfg, s, k) && Leaked(cfg, s, k) > 0 && HolderStays(cfg, s, step, k)
    ensures var s' := Apply(cfg, s, step);
            k in s'.locks && s'.locks[k].session == s.locks[k].session && Leaked(cfg, s', k) >= Leaked(cfg, s, k)
  {
    hide Claims;
    var p := cfg.owner(s.locks[k].session);
    var s' := Apply(cfg, s, step);
    match step
    case Take(session, task) => TakeClaims(cfg, s, session, task, p, k);
    case Record(t) => RecordClaims(cfg, s, t, p, k);
    case Forget(q, task) => ForgetClaims(cfg, s, q, task, p, k);
    case Unlock(session, t) =>
      if t in s.tickets && t.Releasing? && cfg.owner(session) == t.process {
        assert Backed(cfg, s, t.process, k);
        DropClaims(cfg, s, s', t, p, k);
      }
    case Lose(t) => DropClaims(cfg, s, s', t, p, k);
    case Close(_) => EndClaims(cfg, s, step, p, k);
    case Crash(_) => EndClaims(cfg, s, step, p, k);
  }

  /** Exactly then: the leak is gone once its session closes or its process crashes. */
  lemma LeakHealsIff(cfg: Config, s: State, step: Step, k: int)
    requires InvAt(cfg, s, k) && Leaked(cfg, s, k) > 0
    ensures Leaked(cfg, Apply(cfg, s, step), k) > 0 <==> HolderStays(cfg, s, step, k)
  {
    if HolderStays(cfg, s, step, k) {
      LeaksNeverHeal(cfg, s, step, k);
    }
  }

  function RunFrom(cfg: Config, s: State, steps: seq<Step>): State
    decreases |steps|
  {
    if steps == [] then s else RunFrom(cfg, Apply(cfg, s, steps[0]), steps[1..])
  }

  /**
   A leaked lock shuts every other process out of its task, whatever all processes do, for
   as long as the session that holds it stays open.
   */
  lemma {:induction false} LeakExcludesOthers(cfg: Config, s: State, steps: seq<Step>, k: int, q: Process, task: string)
    requires InvAt(cfg, s, k) && Leaked(cfg, s, k) > 0
    requires forall i | 0 <= i < |steps| :: HolderStays(cfg, s, steps[i], k)
    requires cfg.owner(s.locks[k].session) != q && cfg.lockId(task) == k
    ensures !RunFrom(cfg, s, steps).IsLeader(q, task)
    decreases |steps|
  {
    if steps == [] {
      if s.IsLeader(q, task) {
        OneLeader(cfg, s, q, task, q, task);
      }
    } else {
      var s' := Apply(cfg, s, steps[0]);
      assert HolderStays(cfg, s, steps[0], k);
      LeaksNeverHeal(cfg, s, steps[0], k);
      StepKeepsInv(cfg, s, steps[0], k);
      forall i | 0 <= i < |steps[1..]|
        ensures HolderStays(cfg, s', steps[1..][i], k)
      {
        assert HolderStays(cfg, s, steps[i + 1], k);
      }
      LeakExcludesOthers(cfg, s', steps[1..], k, q, task);
    }
  }

  // When a lock leaks

  /**
   The three ways in which a lock leaks. An unlock runs on a session of the process other than
   the one that holds the lock; a task that is in the map already is acquired again, so that
   two counts are left with one key; or a call loses the lock that it has or should give back.
   */
  predicate Leaks(cfg: Config, s: State, step: Step, k: int) {
    k in s.locks &&
    match step
    case Unlock(session, t) =>
      t in s.tickets && t.Releasing? && t.lock == k && cfg.owner(session) == t.process && s.locks[k].session != session
    case Record(t) => t in s.tickets && t.Granted? && (t.process, t.task) in s.held && cfg.lockId(t.task) == k
    case Lose(t) => t in s.tickets && LockOf(cfg, t) == k
    case _ => false
  }

  lemma LeakIsNatural(cfg: Config, s: State, k: int)
    requires InvAt(cfg, s, k)
    ensures Leaked(cfg, s, k) >= 0
  {
    hide Claims;
    if k in s.locks {
      assert Backed(cfg, s, cfg.owner(s.locks[k].session), k);
    }
  }

  /** Whoever has a ticket for a lock owns the session that holds it. */
  lemma TicketHolder(cfg: Config, s: State, t: Ticket)
    requires t in s.tickets && InvAt(cfg, s, LockOf(cfg, t))
    ensures LockOf(cfg, t) in s.locks && cfg.owner(s.locks[LockOf(cfg, t)].session) == t.process
  {
    assert t in Tickets(cfg, s, t.process, LockOf(cfg, t));
    assert Backed(cfg, s, t.process, LockOf(cfg, t));
  }

  /** These are all: while its holder stays, a lock leaks at exactly these steps. */
  lemma LeakGrowsIff(cfg: Config, s: State, step: Step, k: int)
    requires InvAt(cfg, s, k) && (k in s.locks ==> HolderStays(cfg, s, step, k))
    ensures Leaked(cfg, Apply(cfg, s, step), k) == Leaked(cfg, s, k) + if Leaks(cfg, s, step, k) then 1 else 0
  {
    if k in s.locks {
      HeldLockLeaks(cfg, s, step, k);
    } else {
      FreeLockKeeps(cfg, s, step, k);
    }
  }

  /** A lock that nobody holds is unclaimed, and the first count of it is claimed. */
  lemma FreeLockKeeps(cfg: Config, s: State, step: Step, k: int)
    requires InvAt(cfg, s, k) && k !in s.locks
    ensures Leaked(cfg, Apply(cfg, s, step), k) == 0
  {
    hide Claims;
    if step.Take? && cfg.lockId(step.task) == k {
      var p := cfg.owner(step.session);
      assert Backed(cfg, s, p, k);
      TakeClaims(cfg, s, step.session, step.task, p, k);
    }
  }

  lemma HeldLockLeaks(cfg: Config, s: State, step: Step, k: int)
    requires InvAt(cfg, s, k) && k in s.locks && HolderStays(cfg, s, step, k)
    ensures Leaked(cfg, Apply(cfg, s, step), k) == Leaked(cfg, s, k) + if Leaks(cfg, s, step, k) then 1 else 0
  {
    hide Claims;
    var p := cfg.owner(s.locks[k].session);
    var s' := Apply(cfg, s, step);
    match step
    case Take(session, task) => TakeClaims(cfg, s, session, task, p, k);
    case Record(t) =>
      RecordClaims(cfg, s, t, p, k);
      if t in s.tickets && LockOf(cfg, t) == k { TicketHolder(cfg, s, t); }
    case Forget(q, task) => ForgetClaims(cfg, s, q, task, p, k);
    case Unlock(session, t) =>
      if t in s.tickets && t.Releasing? && cfg.owner(session) == t.process {
        UnlockLeaks(cfg, s, session, t, k);
      }
    case Lose(t) =>
      DropClaims(cfg, s, s', t, p, k);
      if t in s.tickets && LockOf(cfg, t) == k { TicketHolder(cfg, s, t); }
    case Close(_) => EndClaims(cfg, s, step, p, k);
    case Crash(_) => EndClaims(cfg, s, step, p, k);
  }

  lemma UnlockLeaks(cfg: Config, s: State, session: Session, t: Ticket, k: int)
    requires InvAt(cfg, s, k) && k in s.locks
    requires t in s.tickets && t.Releasing? && cfg.owner(session) == t.process
    ensures var s' := Apply(cfg, s, Unlock(session, t));
            Leaked(cfg, s', k) == Leaked(cfg, s, k) + if t.lock == k && s.locks[k].session != session then 1 else 0
  {
    hide Claims;
    var p := cfg.owner(s.locks[k].session);
    var s' := Apply(cfg, s, Unlock(session, t));
    DropClaims(cfg, s, s', t, p, k);
    assert Backed(cfg, s, p, k);
    if t.lock == k {
      TicketHolder(cfg, s, t);
    }
  }

  /** How often a lock leaks in a run. */
  function LeakCount(cfg: Config, steps: seq<Step>, k: int): nat {
    if steps == [] then 0
    else
      var n := |steps| - 1;
      LeakCount(cfg, steps[..n], k) + if Leaks(cfg, Run(cfg, steps[..n]), steps[n], k) then 1 else 0
  }

  /**
   Over all runs in which the lock's holders stay: what has leaked is the number of such steps.
   So nothing leaks as long as none of them occurs, and the first of them does leak.
   */
  lemma {:induction false} LeakedIsLeakCount(cfg: Config, steps: seq<Step>, k: int)
    requires forall i | 0 <= i < |steps| ::
               k in Run(cfg, steps[..i]).locks ==> HolderStays(cfg, Run(cfg, steps[..i]), steps[i], k)
    ensures InvAt(cfg, Run(cfg, steps), k) && Leaked(cfg, Run(cfg, steps), k) == LeakCount(cfg, steps, k)
    decreases |steps|
  {
    hide InvAt, Leaked, Leaks, Apply;
    if steps == [] {
      InitialInv(cfg, k);
      NothingLeakedYet(cfg, k);
    } else {
      var n := |steps| - 1;
      forall i | 0 <= i < n
        ensures k in Run(cfg, steps[..n][..i]).locks ==> HolderStays(cfg, Run(cfg, steps[..n][..i]), steps[..n][i], k)
      {
        assert steps[..n][..i] == steps[..i];
      }
      LeakedIsLeakCount(cfg, steps[..n], k);
      LeakGrowsIff(cfg, Run(cfg, steps[..n]), steps[n], k);
      StepKeepsInv(cfg, Run(cfg, steps[..n]), steps[n], k);
    }
  }

  lemma NothingLeakedYet(cfg: Config, k: int)
    ensures Leaked(cfg, Initial, k) == 0
  {
  }

  /** When a session closes unclaimed or a process crashes, what its lock had leaked goes with it. */
  lemma {:induction false} NothingLeaks(cfg: Config, steps: seq<Step>, k: int)
    requires UnclaimedClosesOnly(cfg, steps, k)
    requires forall i | 0 <= i < |steps| :: !Leaks(cfg, Run(cfg, steps[..i]), steps[i], k)
    ensures Leaked(cfg, Run(cfg, steps), k) == 0
    decreases |steps|
  {
    hide Leaked, Leaks, ClosesUnclaimed, Apply;
    if steps == [] {
      NothingLeakedYet(cfg, k);
    } else {
      var n := |steps| - 1;
      var s := Run(cfg, steps[..n]);
      forall i | 0 <= i < n
        ensures ClosesUnclaimed(cfg, Run(cfg, steps[..n][..i]), steps[..n][i], k)
        ensures !Leaks(cfg, Run(cfg, steps[..n][..i]), steps[..n][i], k)
      {
        assert steps[..n][..i] == steps[..i];
      }
      NothingLeaks(cfg, steps[..n], k);
      RunKeepsInv(cfg, steps[..n], k);
      if k in s.locks && !HolderStays(cfg, s, steps[n], k) {
        HolderGone(cfg, s, steps[n], k);
      } else {
        LeakGrowsIff(cfg, s, steps[n], k);
      }
    }
  }

  lemma HolderGone(cfg: Config, s: State, step: Step, k: int)
    requires k in s.locks && !HolderStays(cfg, s, step, k)
    ensures Leaked(cfg, Apply(cfg, s, step), k) == 0
  {
  }

  /** One release over a pool of two connections can be enough: then the lock has leaked. */
  lemma ReleaseOnOtherSessionLeaks(cfg: Config, task: string)
    requires cfg.owner(0) == cfg.owner(1) == 0
    ensures var steps := [Take(0, task), Record(Granted(0, 0, task)), Forget(0, task),
                          Unlock(1, Releasing(1, 0, cfg.lockId(task)))];
            UnclaimedClosesOnly(cfg, steps, cfg.lockId(task)) && Leaked(cfg, Run(cfg, steps), cfg.lockId(task)) == 1
  {
    hide Apply, Claims;
    var k := cfg.lockId(task);
    var release := [Forget(0, task), Unlock(1, Releasing(1, 0, k))];
    var steps := [Take(0, task), Record(Granted(0, 0, task)), Forget(0, task), Unlock(1, Releasing(1, 0, k))];
    assert steps == [Take(0, task), Record(Granted(0, 0, task))] + release;
    RunFromStart(cfg, steps);
    AcquireThen(cfg, Initial, task, release);
    ReleaseThen(cfg, task, 1, 1, 1);
    assert Run(cfg, steps) == State(map[k := Lock(0, 1)], map[], {}, 2);
    Unclaimed(cfg, map[k := Lock(0, 1)], 2, 0, k);
  }

  /**
   So is acquiring a task twice and releasing it once, every unlock on the holder's session:
   the lock was counted twice, but the map has one key for it.
   */
  lemma AcquiringTwiceLeaks(cfg: Config, task: string)
    requires cfg.owner(0) == 0
    ensures var steps := [Take(0, task), Record(Granted(0, 0, task)), Take(0, task), Record(Granted(1, 0, task)),
                          Forget(0, task), Unlock(0, Releasing(2, 0, cfg.lockId(task)))];
            UnclaimedClosesOnly(cfg, steps, cfg.lockId(task)) && Leaked(cfg, Run(cfg, steps), cfg.lockId(task)) == 1
  {
    hide Apply, Claims;
    var k := cfg.lockId(task);
    var release := [Forget(0, task), Unlock(0, Releasing(2, 0, k))];
    var again := [Take(0, task), Record(Granted(1, 0, task))] + release;
    var steps := [Take(0, task), Record(Granted(0, 0, task)), Take(0, task), Record(Granted(1, 0, task)),
                  Forget(0, task), Unlock(0, Releasing(2, 0, k))];
    assert steps == [Take(0, task), Record(Granted(0, 0, task))] + again;
    RunFromStart(cfg, steps);
    AcquireThen(cfg, Initial, task, again);
    var once := State(map[k := Lock(0, 1)], map[(0, task) := k], {}, 1);
    AcquireThen(cfg, once, task, release);
    assert once.locks[k := Lock(0, 2)] == map[k := Lock(0, 2)] && once.held[(0, task) := k] == once.held;
    ReleaseThen(cfg, task, 2, 2, 0);
    assert Run(cfg, steps) == State(map[k := Lock(0, 1)], map[], {}, 3);
    Unclaimed(cfg, map[k := Lock(0, 1)], 3, 0, k);
  }

  lemma {:induction false} RunFromStart(cfg: Config, steps: seq<Step>)
    ensures RunFrom(cfg, Initial, steps) == Run(cfg, steps)
  {
    RunFromRun(cfg, [], steps);
    assert [] + steps == steps;
  }

  lemma {:induction false} RunFromRun(cfg: Config, done: seq<Step>, steps: seq<Step>)
    ensures RunFrom(cfg, Run(cfg, done), steps) == Run(cfg, done + steps)
    decreases |steps|
  {
    if steps == [] {
      assert done + steps == done;
    } else {
      var more := done + [steps[0]];
      assert more[..|more| - 1] == done && more[|more| - 1] == steps[0];
      RunFromRun(cfg, more, steps[1..]);
      assert more + steps[1..] == done + steps;
    }
  }

  /** Session 0 takes a lock that it may have and the task is recorded. */
  lemma AcquireThen(cfg: Config, s: State, task: string, rest: seq<Step>)
    requires cfg.owner(0) == 0 && s.tickets == {} && CanTake(s, 0, cfg.lockId(task))
    ensures var k := cfg.lockId(task);
            var s' := State(s.locks[k := Lock(0, TakenCount(s, k) + 1)], s.held[(0, task) := k], {}, s.next + 1);
            RunFrom(cfg, s, [Take(0, task), Record(Granted(s.next, 0, task))] + rest) == RunFrom(cfg, s', rest)
  {
    var t := Granted(s.next, 0, task);
    var steps := [Take(0, task), Record(t)] + rest;
    var s1 := Apply(cfg, s, Take(0, task));
    assert s1.tickets == {t} && {t} - {t} == {};
    assert steps[1..] == [Record(t)] + rest && steps[1..][1..] == rest;
  }

  /** A task with `count` counts of its lock on session 0 is released on some session of its process. */
  lemma ReleaseThen(cfg: Config, task: string, count: nat, next: nat, session: Session)
    requires cfg.owner(session) == 0 && count > 0 && (session == 0 ==> count > 1)
    ensures var k := cfg.lockId(task);
            var s := State(map[k := Lock(0, count)], map[(0, task) := k], {}, next);
            RunFrom(cfg, s, [Forget(0, task), Unlock(session, Releasing(next, 0, k))]) ==
            State(map[k := Lock(0, if session == 0 then count - 1 else count)], map[], {}, next + 1)
  {
    var k := cfg.lockId(task);
    var s := State(map[k := Lock(0, count)], map[(0, task) := k], {}, next);
    var t := Releasing(next, 0, k);
    var steps := [Forget(0, task), Unlock(session, t)];
    var s1 := State(map[k := Lock(0, count)], map[], {t}, next + 1);
    assert map[(0, task) := k] - {(0, task)} == map[];
    assert Apply(cfg, s, Forget(0, task)) == s1;
    assert {t} - {t} == {};
    assert steps[1..] == [Unlock(session, t)] && steps[1..][1..] == [];
    assert RunFrom(cfg, s1, [Unlock(session, t)]) == Apply(cfg, s1, Unlock(session, t));
  }

  lemma Unclaimed(cfg: Config, locks: map<int, Lock>, next: nat, p: Process, k: int)
    ensures Claims(cfg, State(locks, map[], {}, next), p, k) == 0
  {
    var s := State(locks, map[], {}, next);
    assert Keys(s, p, k) == {} && Tickets(cfg, s, p, k) == {};
  }

  /**
   The calls of the election API as one process makes them, one atomic step after the
   other. `session` is whichever pooled connection the call was given.
   */
  class Cluster {
    const cfg: Config
    var locks: map<int, Lock>
    var held: map<(Process, string), int>
    var tickets: set<Ticket>
    var next: nat

    constructor (cfg: Config)
      ensures this.cfg == cfg && Now() == Initial
    {
      this.cfg := cfg;
      locks, held, tickets, next := map[], map[], {}, 0;
    }

    function Now(): State
      reads this
    {
      State(locks, held, tickets, next)
    }

    method TakeLock(session: Session, task: string) returns (granted: bool, ticket: Ticket)
      modifies this
      ensures Now() == Apply(cfg, old(Now()), Take(session, task))
      ensures granted == CanTake(old(Now()), session, cfg.lockId(task))
      ensures ticket == Granted(old(next), cfg.owner(session), task)
      ensures granted ==> ticket in tickets
    {
      var k := cfg.lockId(task);
      ticket := Granted(next, cfg.owner(session), task);
      granted := k !in locks || locks[k].session == session;
      if granted {
        var count := if k in locks then locks[k].count else 0;
        locks := locks[k := Lock(session, count + 1)];
        tickets := tickets + {ticket};
        next := next + 1;
      }
    }

    /** try_acquire: a refused lock changes nothing, a granted one makes the caller leader. */
    method TryAcquire(session: Session, task: string) returns (acquired: bool)
      modifies this
      ensures acquired <==>
              cfg.lockId(task) !in old(locks) || old(locks)[cfg.lockId(task)].session == session
      ensures !acquired ==> Now() == old(Now())
      ensures acquired ==> Now() == Apply(cfg, Apply(cfg, old(Now()), Take(session, task)),
                                          Record(Granted(old(next), cfg.owner(session), task)))
      ensures acquired ==> Now().IsLeader(cfg.owner(session), task)
    {
      var ticket;
      acquired, ticket := TakeLock(session, task);
      if acquired {
        held := held[(ticket.process, task) := cfg.lockId(task)];
        tickets := tickets - {ticket};
      }
    }

    /** release, and the guard's drop: the key goes first, then one unlock on some session. */
    method Release(p: Process, session: Session, task: string)
      requires cfg.owner(session) == p
      modifies this
      ensures (p, task) !in old(held) ==> Now() == old(Now())
      ensures (p, task) in old(held) ==>
                Now() == Apply(cfg, Apply(cfg, old(Now()), Forget(p, task)),
                               Unlock(session, Releasing(old(next), p, old(held)[(p, task)])))
      ensures (p, task) in old(held) ==>
                var k := old(held)[(p, task)];
                locks == if k in old(locks) && old(locks)[k].session == session then
                           if old(locks)[k].count <= 1 then old(locks) - {k}
                           else old(locks)[k := Lock(session, old(locks)[k].count - 1)]
                         else old(locks)
      ensures !Now().IsLeader(p, task)
    {
      if (p, task) in held {
        var k := held[(p, task)];
        var ticket := Releasing(next, p, k);
        held := held - {(p, task)};
        tickets := tickets + {ticket};
        next := next + 1;
        if k in locks && locks[k].session == session {
          if locks[k].count <= 1 {
            locks := locks - {k};
          } else {
            locks := locks[k := Lock(session, locks[k].count - 1)];
          }
        }
        tickets := tickets - {ticket};
      }
    }
  }
}
