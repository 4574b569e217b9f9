/**
 The Postgres-backed work queue: rows that are leased under a receipt, given back or
 deleted. Dequeues run concurrently. Each locks its rows first and updates them later.
 */
module LeaseQueue {
  import opened Options

  /** `$3 || '-' || id`: the prefix is fresh for every dequeue. */
  datatype Receipt = Receipt(prefix: nat, id: nat)

  datatype Row = Row(queue: string, data: string, visibleAt: int, attempt: nat, receipt: Option<Receipt>)

  type Table = map<nat, Row>

  // The statements, as functions on the table.

  predicate Visible(rows: Table, id: nat, queue: string, now: int) {
    id in rows && rows[id].queue == queue && rows[id].visibleAt <= now && rows[id].receipt.None?
  }

  /** FOR UPDATE SKIP LOCKED: the visible rows that nobody has locked. */
  function Unlocked(rows: Table, locked: set<nat>, queue: string, now: int): set<nat> {
    set id | id in rows && id !in locked && Visible(rows, id, queue, now)
  }

  function Holders(rows: Table, r: Receipt): set<nat> {
    set id | id in rows && rows[id].receipt == Some(r)
  }

  function Leased(rows: Table, ids: set<nat>, prefix: nat, until: int): Table {
    map id | id in rows ::
      if id in ids then
        rows[id].(receipt := Some(Receipt(prefix, id)), visibleAt := until, attempt := rows[id].attempt + 1)
      else rows[id]
  }

  function Acked(rows: Table, r: Receipt): Table {
    map id | id in rows && rows[id].receipt != Some(r) :: rows[id]
  }

  function Nacked(rows: Table, r: Receipt, visibleAt: int): Table {
    map id | id in rows ::
      if rows[id].receipt == Some(r) then rows[id].(receipt := None, visibleAt := visibleAt) else rows[id]
  }

  /** The oldest `count` of the candidates, by visibility: ORDER BY visible_at LIMIT count. */
  ghost predicate Picks(rows: Table, candidates: set<nat>, count: nat, ids: set<nat>) {
    && ids <= candidates <= rows.Keys
    && |ids| == (if |candidates| <= count then |candidates| else count)
    && forall i, j | i in ids && j in candidates - ids :: rows[i].visibleAt <= rows[j].visibleAt
  }

  /** The rows of a queue, leased or not. */
  function RowsOf(rows: Table, queue: string): set<nat> {
    set id | id in rows && rows[id].queue == queue
  }

  /** One connection's view of the table. Its methods make steps of the state machine below. */
  class PostgresQueue {
    var rows: Table
    var nextId: nat
    var nextPrefix: nat

    constructor ()
      ensures rows == map[] && nextId == 0 && nextPrefix == 0
    {
      rows, nextId, nextPrefix := map[], 0, 0;
    }

    ghost predicate Valid()
      reads this
    {
      && (forall id | id in rows :: id < nextId)
      && (forall id | id in rows && rows[id].receipt.Some? ::
            rows[id].receipt.value.id == id && rows[id].receipt.value.prefix < nextPrefix)
    }

    /** The table is the one of a state of the machine. */
    ghost predicate Shows(s: State)
      reads this
    {
      rows == s.rows && nextId == s.nextId && nextPrefix == s.nextPrefix
    }

    method Enqueue(queue: string, data: string, visibleAt: int, ghost s: State) returns (id: nat)
      requires Valid() && Shows(s)
      modifies this
      ensures Valid() && Shows(Apply(s, Step.Enqueue(queue, data, visibleAt)))
      ensures id !in old(rows) && rows == old(rows)[id := Row(queue, data, visibleAt, 0, None)]
    {
      id := nextId;
      nextId := nextId + 1;
      rows := rows[id := Row(queue, data, visibleAt, 0, None)];
    }

    /** Leases the oldest visible rows that no other dequeue has locked: a lock step and a commit step of `tx`. */
    method Dequeue(queue: string, count: nat, now: int, timeout: nat, locked: set<nat>, ghost s: State, ghost tx: nat)
      returns (ids: set<nat>)
      requires Valid() && Shows(s) && tx !in s.running && locked == LockedRows(s)
      modifies this
      ensures Valid()
      ensures var lock := LockRows(tx, queue, count, now, ids);
              Enabled(s, lock) && Shows(Apply(Apply(s, lock), Commit(tx, now + timeout)))
      ensures |ids| <= count
      ensures forall id | id in ids ::
                && id in old(rows) && id !in locked && old(rows)[id].queue == queue
                && old(rows)[id].visibleAt <= now && old(rows)[id].receipt == None
      ensures forall id, other | id in ids && other in old(rows) && other !in ids && other !in locked &&
                                 old(rows)[other].queue == queue && old(rows)[other].visibleAt <= now &&
                                 old(rows)[other].receipt == None ::
                old(rows)[id].visibleAt <= old(rows)[other].visibleAt
      ensures Picks(old(rows), Unlocked(old(rows), locked, queue, now), count, ids)
      ensures rows == Leased(old(rows), ids, old(nextPrefix), now + timeout)
    {
      ids := SelectOldest(rows, Unlocked(rows, locked, queue, now), count);
      rows := Leased(rows, ids, nextPrefix, now + timeout);
      nextPrefix := nextPrefix + 1;
    }

    static method SelectOldest(rows: Table, candidates: set<nat>, count: nat) returns (ids: set<nat>)
      requires candidates <= rows.Keys
      ensures Picks(rows, candidates, count, ids)
    {
      var left := candidates;
      ids := {};
      while left != {} && |ids| < count
        invariant ids + left == candidates && ids !! left
        invariant |ids| <= count
        invariant forall i, j | i in ids && j in left :: rows[i].visibleAt <= rows[j].visibleAt
        decreases left
      {
        var oldest := Oldest(rows, left);
        ids, left := ids + {oldest}, left - {oldest};
      }
      if left == {} {
        assert ids == candidates;
      } else {
        ProperSubsetIsSmaller(ids, candidates);
        assert candidates - ids == left;
      }
    }

    static method Oldest(rows: Table, among: set<nat>) returns (oldest: nat)
      requires among != {} && among <= rows.Keys
      ensures oldest in among
      ensures forall j | j in among :: rows[oldest].visibleAt <= rows[j].visibleAt
    {
      oldest :| oldest in among;
      var left := among - {oldest};
      while left != {}
        invariant left <= among && oldest in among
        invariant forall j | j in among - left :: rows[oldest].visibleAt <= rows[j].visibleAt
        decreases left
      {
        var other :| other in left;
        if rows[other].visibleAt < rows[oldest].visibleAt {
          oldest := other;
        }
        left := left - {other};
      }
    }

    /** Deletes the leased row; a receipt that no row holds is refused. */
    method Ack(r: Receipt, ghost s: State) returns (ok: bool)
      requires Valid() && Shows(s)
      modifies this
      ensures Valid() && Shows(Apply(s, Step.Ack(r)))
      ensures rows == Acked(old(rows), r)
      ensures ok <==> Holders(old(rows), r) != {}
      ensures ok ==> Holders(old(rows), r) == {r.id} && rows == old(rows) - {r.id}
    {
      var before := rows;
      rows := map id | id in rows && rows[id].receipt != Some(r) :: rows[id];
      ok := |rows| != |before|;
      AckCounts(before, r);
      if Holders(before, r) == {} {
        assert forall id | id in before :: id !in Holders(before, r);
        assert rows == before;
      }
    }

    /** Gives the leased row back, visible from `visibleAt`. */
    method Nack(r: Receipt, visibleAt: int, ghost s: State) returns (ok: bool)
      requires Valid() && Shows(s)
      modifies this
      ensures Valid() && Shows(Apply(s, Step.Nack(r, visibleAt)))
      ensures rows == Nacked(old(rows), r, visibleAt)
      ensures ok <==> Holders(old(rows), r) != {}
      ensures ok ==> Holders(old(rows), r) == {r.id} &&
                     rows == old(rows)[r.id := old(rows)[r.id].(receipt := None, visibleAt := visibleAt)]
    {
      ok := r.id in rows && rows[r.id].receipt == Some(r);
      assert ok ==> r.id in Holders(rows, r);
      if ok {
        rows := rows[r.id := rows[r.id].(receipt := None, visibleAt := visibleAt)];
      }
    }

    method QueueLen(queue: string) returns (n: nat)
      ensures n == |RowsOf(rows, queue)|
    {
      n := |RowsOf(rows, queue)|;
    }
  }

  lemma ProperSubsetIsSmaller<T>(a: set<T>, b: set<T>)
    requires a < b
    ensures |a| < |b|
  {
    assert a + (b - a) == b;
    assert |b| == |a| + |b - a|;
    assert b - a == {} ==> a + (b - a) == a;
  }

  /** Deleting changes the number of rows exactly when some row held the receipt. */
  lemma AckCounts(rows: Table, r: Receipt)
    ensures |Acked(rows, r)| == |rows| - |Holders(rows, r)|
  {
    assert rows.Keys == Acked(rows, r).Keys + Holders(rows, r);
    assert |rows.Keys| == |Acked(rows, r).Keys| + |Holders(rows, r)|;
    assert |rows| == |rows.Keys| && |Acked(rows, r)| == |Acked(rows, r).Keys|;
  }

  // All runs of concurrent clients

  datatype Dequeuing = Dequeuing(prefix: nat, ids: set<nat>)

  datatype Delivery = Delivery(receipt: Receipt, attempt: nat)

  /** The table, the dequeues in progress, and the history of what happened. */
  datatype State = State(
    rows: Table,
    running: map<nat, Dequeuing>,
    nextId: nat,
    nextPrefix: nat,
    enqueued: set<nat>,
    acked: set<nat>,
    deliveries: set<Delivery>,
    retired: set<Receipt>)

  const Initial := State(map[], map[], 0, 0, {}, {}, {}, {})

  datatype Step =
    | Enqueue(queue: string, data: string, visibleAt: int)
    | LockRows(tx: nat, queue: string, count: nat, now: int, ids: set<nat>)
    | Commit(tx: nat, until: int)
    | Abort(tx: nat)
    | Ack(receipt: Receipt)
    | Nack(receipt: Receipt, visibleAt: int)

  function LockedRows(s: State): set<nat> {
    set tx, id | tx in s.running && id in s.running[tx].ids :: id
  }

  ghost predicate Enabled(s: State, step: Step) {
    match step
    case LockRows(tx, queue, count, now, ids) =>
      tx !in s.running && Picks(s.rows, Unlocked(s.rows, LockedRows(s), queue, now), count, ids)
    case Commit(tx, _) => tx in s.running
    case Abort(tx) => tx in s.running
    case _ => true
  }

  function Delivered(rows: Table, prefix: nat, ids: set<nat>): set<Delivery> {
    set id | id in ids && id in rows :: Delivery(Receipt(prefix, id), rows[id].attempt + 1)
  }

  function Apply(s: State, step: Step): State {
    match step
    case Enqueue(queue, data, visibleAt) =>
      s.(rows := s.rows[s.nextId := Row(queue, data, visibleAt, 0, None)],
         nextId := s.nextId + 1,
         enqueued := s.enqueued + {s.nextId})
    case LockRows(tx, _, _, _, ids) =>
      s.(running := s.running[tx := Dequeuing(s.nextPrefix, ids)], nextPrefix := s.nextPrefix + 1)
    case Commit(tx, until) =>
      if tx in s.running then
        var d := s.running[tx];
        s.(rows := Leased(s.rows, d.ids, d.prefix, until),
           running := s.running - {tx},
           deliveries := s.deliveries + Delivered(s.rows, d.prefix, d.ids))
      else s
    case Abort(tx) => s.(running := s.running - {tx})
    case Ack(r) =>
      if Holders(s.rows, r) != {} then
        s.(rows := Acked(s.rows, r), acked := s.acked + Holders(s.rows, r), retired := s.retired + {r})
      else s
    case Nack(r, visibleAt) =>
      if Holders(s.rows, r) != {} then
        s.(rows := Nacked(s.rows, r, visibleAt), retired := s.retired + {r})
      else s
  }

  function Run(steps: seq<Step>): State {
    if steps == [] then Initial else Apply(Run(steps[..|steps| - 1]), steps[|steps| - 1])
  }

  ghost predicate Legal(steps: seq<Step>) {
    forall i | 0 <= i < |steps| :: Enabled(Run(steps[..i]), steps[i])
  }

  /** A receipt that was handed out and neither acked nor nacked. */
  predicate Outstanding(s: State, r: Receipt) {
    r !in s.retired && exists d | d in s.deliveries :: d.receipt == r
  }

  function DeliveriesOf(s: State, id: nat): set<Delivery> {
    set d | d in s.deliveries && d.receipt.id == id
  }

  ghost predicate RowsInv(s: State) {
    && s.enqueued == s.rows.Keys + s.acked
    && s.rows.Keys !! s.acked
    && (forall id | id in s.enqueued :: id < s.nextId)
    && (forall d | d in s.deliveries :: d.receipt.prefix < s.nextPrefix && d.receipt.id in s.enqueued)
    && (forall r | r in s.retired :: r.prefix < s.nextPrefix)
    && (forall id | id in s.rows :: RowInv(s, id))
  }

  ghost predicate RowInv(s: State, id: nat)
    requires id in s.rows
  {
    && s.rows[id].attempt == |DeliveriesOf(s, id)|
    && (s.rows[id].receipt.Some? ==>
          s.rows[id].receipt.value.id == id && Outstanding(s, s.rows[id].receipt.value))
  }

  /** Whoever holds an outstanding receipt holds the row. */
  ghost predicate LeaseInv(s: State) {
    forall d | d in s.deliveries && d.receipt !in s.retired ::
      d.receipt.id in s.rows && s.rows[d.receipt.id].receipt == Some(d.receipt)
  }

  /** Dequeues in progress hold disjoint sets of unleased rows, each under a prefix of its own. */
  ghost predicate RunningInv(s: State) {
    && (forall tx | tx in s.running :: Locking(s, s.running[tx]))
    && (forall tx, ty | tx in s.running && ty in s.running && tx != ty ::
          s.running[tx].ids !! s.running[ty].ids && s.running[tx].prefix != s.running[ty].prefix)
  }

  ghost predicate Locking(s: State, d: Dequeuing) {
    && d.prefix < s.nextPrefix
    && (forall id | id in d.ids :: id in s.rows && s.rows[id].receipt.None?)
    && (forall e | e in s.deliveries :: e.receipt.prefix != d.prefix)
    && (forall r | r in s.retired :: r.prefix != d.prefix)
  }

  ghost predicate Inv(s: State) {
    RowsInv(s) && LeaseInv(s) && RunningInv(s)
  }

  lemma EnqueueKeepsInv(s: State, queue: string, data: string, visibleAt: int)
    requires Inv(s)
    ensures Inv(Apply(s, Enqueue(queue, data, visibleAt)))
  {
    var s' := Apply(s, Enqueue(queue, data, visibleAt));
    assert DeliveriesOf(s, s.nextId) == {};
    forall id | id in s'.rows
      ensures RowInv(s', id)
    {
      assert DeliveriesOf(s', id) == DeliveriesOf(s, id);
      if id != s.nextId { assert RowInv(s, id); }
    }
    assert RowsInv(s');
  }

  lemma LockKeepsInv(s: State, tx: nat, queue: string, count: nat, now: int, ids: set<nat>)
    requires Inv(s) && Enabled(s, LockRows(tx, queue, count, now, ids))
    ensures Inv(Apply(s, LockRows(tx, queue, count, now, ids)))
  {
    var s' := Apply(s, LockRows(tx, queue, count, now, ids));
    forall id | id in s'.rows
      ensures RowInv(s', id)
    {
      assert RowInv(s, id);
      assert DeliveriesOf(s', id) == DeliveriesOf(s, id);
    }
    forall ty | ty in s.running
      ensures s.running[ty].ids !! ids
    {
      assert forall id | id in ids :: id !in LockedRows(s);
      assert forall id | id in s.running[ty].ids :: id in LockedRows(s);
    }
    assert Locking(s', Dequeuing(s.nextPrefix, ids));
    forall ty | ty in s.running
      ensures Locking(s', s.running[ty])
    {
      assert Locking(s, s.running[ty]);
    }
  }

  lemma AbortKeepsInv(s: State, tx: nat)
    requires Inv(s)
    ensures Inv(Apply(s, Abort(tx)))
  {
    var s' := Apply(s, Abort(tx));
    forall id | id in s'.rows
      ensures RowInv(s', id)
    {
      assert RowInv(s, id);
      assert DeliveriesOf(s', id) == DeliveriesOf(s, id);
    }
    forall ty | ty in s'.running
      ensures Locking(s', s'.running[ty])
    {
      assert Locking(s, s.running[ty]);
    }
  }

  /** The one row that holds a receipt, if any does, is the row that the receipt names. */
  lemma HoldersAre(s: State, r: Receipt)
    requires Inv(s)
    ensures Holders(s.rows, r) != {} ==>
            Holders(s.rows, r) == {r.id} && r.id in s.rows && s.rows[r.id].receipt == Some(r) && Outstanding(s, r)
  {
    if Holders(s.rows, r) != {} {
      var id :| id in Holders(s.rows, r);
      assert RowInv(s, id);
      forall other | other in Holders(s.rows, r)
        ensures other == r.id
      {
        assert RowInv(s, other);
      }
    }
  }

  lemma AckKeepsInv(s: State, r: Receipt)
    requires Inv(s)
    ensures Inv(Apply(s, Ack(r)))
  {
    HoldersAre(s, r);
    RetireKeepsInv(s, r, Apply(s, Ack(r)));
  }

  lemma NackKeepsInv(s: State, r: Receipt, visibleAt: int)
    requires Inv(s)
    ensures Inv(Apply(s, Nack(r, visibleAt)))
  {
    HoldersAre(s, r);
    RetireKeepsInv(s, r, Apply(s, Nack(r, visibleAt)));
  }

  /** Taking one receipt out of the table, by deleting its row or by clearing it. */
  lemma RetireKeepsInv(s: State, r: Receipt, s': State)
    requires Inv(s)
    requires s' == s || (
      && Holders(s.rows, r) == {r.id} && r.id in s.rows && s.rows[r.id].receipt == Some(r) && Outstanding(s, r)
      && s'.retired == s.retired + {r} && s'.running == s.running && s'.deliveries == s.deliveries
      && s'.nextId == s.nextId && s'.nextPrefix == s.nextPrefix && s'.enqueued == s.enqueued
      && s'.rows.Keys <= s.rows.Keys && s'.acked == s.acked + (s.rows.Keys - s'.rows.Keys)
      && (forall id | id in s.rows && id != r.id :: id in s'.rows && s'.rows[id] == s.rows[id])
      && (r.id in s'.rows ==> s'.rows[r.id].receipt.None? && s'.rows[r.id].attempt == s.rows[r.id].attempt))
    ensures Inv(s')
  {
    if s' != s {
      forall id | id in s'.rows
        ensures RowInv(s', id)
      {
        assert RowInv(s, id);
        assert DeliveriesOf(s', id) == DeliveriesOf(s, id);
        if id != r.id && s.rows[id].receipt.Some? {
          assert s.rows[id].receipt.value != r;
          assert Outstanding(s', s.rows[id].receipt.value);
        }
      }
      forall tx | tx in s'.running
        ensures Locking(s', s'.running[tx])
      {
        assert Locking(s, s.running[tx]);
        assert r.id !in s.running[tx].ids;
      }
    }
  }

  lemma CommitKeepsInv(s: State, tx: nat, until: int)
    requires Inv(s) && tx in s.running
    ensures Inv(Apply(s, Commit(tx, until)))
  {
    var s' := Apply(s, Commit(tx, until));
    var d := s.running[tx];
    assert Locking(s, d);
    assert s'.rows.Keys == s.rows.Keys;
    forall id | id in s'.rows
      ensures RowInv(s', id)
    {
      CommitRow(s, tx, until, id);
    }
    forall e | e in s'.deliveries
      ensures e.receipt.prefix < s'.nextPrefix && e.receipt.id in s'.enqueued
      ensures e.receipt !in s'.retired ==> e.receipt.id in s'.rows && s'.rows[e.receipt.id].receipt == Some(e.receipt)
    {
      if e !in s.deliveries {
        assert e in Delivered(s.rows, d.prefix, d.ids);
      }
    }
    forall ty | ty in s'.running
      ensures Locking(s', s'.running[ty])
    {
      CommitOther(s, tx, until, ty);
    }
  }

  lemma CommitOther(s: State, tx: nat, until: int, ty: nat)
    requires Inv(s) && tx in s.running && ty in s.running && tx != ty
    ensures Locking(Apply(s, Commit(tx, until)), s.running[ty])
  {
    var s' := Apply(s, Commit(tx, until));
    var d, other := s.running[tx], s.running[ty];
    assert Locking(s, other);
    assert d.ids !! other.ids;
    forall e | e in s'.deliveries
      ensures e.receipt.prefix != other.prefix
    {
      if e !in s.deliveries {
        assert e in Delivered(s.rows, d.prefix, d.ids);
      }
    }
  }

  lemma CommitRow(s: State, tx: nat, until: int, id: nat)
    requires Inv(s) && tx in s.running && id in s.rows
    ensures RowInv(Apply(s, Commit(tx, until)), id)
  {
    var s' := Apply(s, Commit(tx, until));
    var d := s.running[tx];
    assert Locking(s, d);
    assert RowInv(s, id);
    var r := Receipt(d.prefix, id);
    var e := Delivery(r, s.rows[id].attempt + 1);
    if id in d.ids {
      assert e in Delivered(s.rows, d.prefix, d.ids);
      assert e !in s.deliveries;
      assert DeliveriesOf(s', id) == DeliveriesOf(s, id) + {e};
      assert Outstanding(s', r);
    } else {
      assert DeliveriesOf(s', id) == DeliveriesOf(s, id);
      if s.rows[id].receipt.Some? {
        assert Outstanding(s', s.rows[id].receipt.value);
      }
    }
  }

  lemma StepKeepsInv(s: State, step: Step)
    requires Inv(s) && Enabled(s, step)
    ensures Inv(Apply(s, step))
  {
    match step
    case Enqueue(queue, data, visibleAt) => EnqueueKeepsInv(s, queue, data, visibleAt);
    case LockRows(tx, queue, count, now, ids) => LockKeepsInv(s, tx, queue, count, now, ids);
    case Commit(tx, until) => CommitKeepsInv(s, tx, until);
    case Abort(tx) => AbortKeepsInv(s, tx);
    case Ack(r) => AckKeepsInv(s, r);
    case Nack(r, visibleAt) => NackKeepsInv(s, r, visibleAt);
  }

  lemma {:induction false} RunKeepsInv(steps: seq<Step>)
    requires Legal(steps)
    ensures Inv(Run(steps))
    decreases |steps|
  {
    if steps != [] {
      var n := |steps| - 1;
      forall i | 0 <= i < n
        ensures Enabled(Run(steps[..n][..i]), steps[..n][i])
      {
        assert steps[..n][..i] == steps[..i];
      }
      RunKeepsInv(steps[..n]);
      StepKeepsInv(Run(steps[..n]), steps[n]);
    }
  }

  // Safety over all runs

  /** An item is in at most one outstanding lease, and its row carries exactly that receipt. */
  lemma OneLeasePerItem(steps: seq<Step>, a: Receipt, b: Receipt)
    requires Legal(steps)
    requires Outstanding(Run(steps), a) && Outstanding(Run(steps), b) && a.id == b.id
    ensures a == b && a.id in Run(steps).rows && Run(steps).rows[a.id].receipt == Some(a)
  {
    RunKeepsInv(steps);
  }

  /** A receipt works exactly while it is outstanding; once acked or nacked it never works again. */
  lemma ReceiptWorksIffOutstanding(steps: seq<Step>, r: Receipt)
    requires Legal(steps)
    ensures Holders(Run(steps).rows, r) != {} <==> Outstanding(Run(steps), r)
  {
    var s := Run(steps);
    RunKeepsInv(steps);
    HoldersAre(s, r);
    if Outstanding(s, r) {
      assert r.id in Holders(s.rows, r);
    }
  }

  lemma {:induction false} RetiredForEver(steps: seq<Step>, k: nat, r: Receipt)
    requires k <= |steps| && r in Run(steps[..k]).retired
    ensures r in Run(steps).retired
    decreases |steps|
  {
    if k == |steps| {
      assert steps[..k] == steps;
    } else {
      var n := |steps| - 1;
      assert steps[..n][..k] == steps[..k];
      RetiredForEver(steps[..n], k, r);
    }
  }

  /** `attempt` counts the deliveries of the item. */
  lemma AttemptCountsDeliveries(steps: seq<Step>, id: nat)
    requires Legal(steps) && id in Run(steps).rows
    ensures Run(steps).rows[id].attempt == |DeliveriesOf(Run(steps), id)|
  {
    RunKeepsInv(steps);
    assert RowInv(Run(steps), id);
  }

  /** Nothing is lost or made up: what was enqueued was acked or is still in the table. */
  lemma ItemsConserved(steps: seq<Step>)
    requires Legal(steps)
    ensures var s := Run(steps);
            s.enqueued == s.acked + s.rows.Keys && |s.enqueued| == |s.acked| + |s.rows|
  {
    RunKeepsInv(steps);
    var s := Run(steps);
    assert |s.rows.Keys| == |s.rows|;
  }

  // The length of a queue

  /** What a step adds to a queue's length: an enqueue one row, an ack that works on a row of it minus one. */
  function Growth(s: State, step: Step, queue: string): int {
    match step
    case Enqueue(q, _, _) => if q == queue then 1 else 0
    case Ack(r) => if Holders(s.rows, r) != {} && r.id in s.rows && s.rows[r.id].queue == queue then -1 else 0
    case _ => 0
  }

  function TotalGrowth(steps: seq<Step>, queue: string): int {
    if steps == [] then 0
    else
      var n := |steps| - 1;
      TotalGrowth(steps[..n], queue) + Growth(Run(steps[..n]), steps[n], queue)
  }

  lemma FreshId(s: State)
    requires Inv(s)
    ensures s.nextId !in s.rows
  {
  }

  lemma RowsAfter(rows: Table, r: Receipt, ids: set<nat>, prefix: nat, at: int, queue: string)
    ensures RowsOf(Acked(rows, r), queue) == RowsOf(rows, queue) - Holders(rows, r)
    ensures RowsOf(Nacked(rows, r, at), queue) == RowsOf(rows, queue)
    ensures RowsOf(Leased(rows, ids, prefix, at), queue) == RowsOf(rows, queue)
  {
  }

  lemma EnqueueGrows(rows: Table, id: nat, row: Row, queue: string)
    requires id !in rows
    ensures |RowsOf(rows[id := row], queue)| == |RowsOf(rows, queue)| + if row.queue == queue then 1 else 0
  {
    var before := RowsOf(rows, queue);
    assert RowsOf(rows[id := row], queue) == if row.queue == queue then before + {id} else before;
  }

  lemma AckGrows(rows: Table, r: Receipt, queue: string)
    requires Holders(rows, r) == {r.id}
    ensures |RowsOf(Acked(rows, r), queue)| == |RowsOf(rows, queue)| - if rows[r.id].queue == queue then 1 else 0
  {
    var before := RowsOf(rows, queue);
    assert r.id in Holders(rows, r);
    RowsAfter(rows, r, {}, 0, 0, queue);
    if rows[r.id].queue == queue {
      assert r.id in before;
    } else {
      assert before - {r.id} == before;
    }
  }

  lemma StepGrows(s: State, step: Step, queue: string)
    requires Inv(s) && Enabled(s, step)
    ensures |RowsOf(Apply(s, step).rows, queue)| == |RowsOf(s.rows, queue)| + Growth(s, step, queue)
  {
    hide Inv, Acked, Nacked, Leased, RowsOf, Delivered, Holders, Outstanding;
    match step
    case Enqueue(q, data, visibleAt) =>
      FreshId(s);
      EnqueueGrows(s.rows, s.nextId, Row(q, data, visibleAt, 0, None), queue);
    case Ack(r) =>
      HoldersAre(s, r);
      if Holders(s.rows, r) != {} {
        AckGrows(s.rows, r, queue);
      }
    case Nack(r, visibleAt) =>
      RowsAfter(s.rows, r, {}, 0, visibleAt, queue);
    case Commit(tx, until) =>
      RowsAfter(s.rows, Receipt(0, 0), s.running[tx].ids, s.running[tx].prefix, until, queue);
    case _ =>
  }

  /**
   What queue_len answers after any run: the items enqueued into the queue, less those acked
   from it. Leases, timeouts and nacks do not change it.
   */
  lemma {:induction false} QueueLenBalances(steps: seq<Step>, queue: string)
    requires Legal(steps)
    ensures |RowsOf(Run(steps).rows, queue)| == TotalGrowth(steps, queue)
    decreases |steps|
  {
    if steps == [] {
      assert RowsOf(Initial.rows, queue) == {};
    } else {
      var n := |steps| - 1;
      forall i | 0 <= i < n
        ensures Enabled(Run(steps[..n][..i]), steps[..n][i])
      {
        assert steps[..n][..i] == steps[..i];
      }
      QueueLenBalances(steps[..n], queue);
      RunKeepsInv(steps[..n]);
      StepGrows(Run(steps[..n]), steps[n], queue);
    }
  }

  /**
   The visibility timeout never ends a lease. Whatever the clock says, only an ack or a
   nack of its own receipt changes a leased row, and no dequeue picks it. The interface
   promises that items become invisible only for the duration of the timeout.
   */
  lemma LeaseOutlivesTimeout(s: State, step: Step, id: nat)
    requires Inv(s) && Enabled(s, step) && id in s.rows && s.rows[id].receipt.Some?
    ensures (id in Apply(s, step).rows && Apply(s, step).rows[id] == s.rows[id]) <==>
            !(step.Ack? || step.Nack?) || step.receipt != s.rows[id].receipt.value
    ensures step.LockRows? ==> id !in step.ids
  {
    assert RowInv(s, id);
    if step.Commit? {
      assert Locking(s, s.running[step.tx]);
    }
    if step.Ack? || step.Nack? {
      HoldersAre(s, step.receipt);
      if step.receipt == s.rows[id].receipt.value {
        assert id in Holders(s.rows, step.receipt);
      }
    }
  }
}
