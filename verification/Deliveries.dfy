/**
 What the work queue delivers: over every run, which rows a dequeue takes, in which order,
 for which queue, how early, and what the client then holds.
 */
module Deliveries {
  import opened Options
  import opened LeaseQueue

  /** What was asked of the queue about an item, and from when on it is due. */
  datatype Posted = Posted(queue: string, data: string, due: int)

  /** Read off the history alone: the enqueue of the item and the last nack that worked on it. */
  function PostedAt(steps: seq<Step>, id: nat): Option<Posted> {
    if steps == [] then None
    else
      var before := steps[..|steps| - 1];
      match steps[|steps| - 1]
      case Enqueue(queue, data, visibleAt) =>
        if id == Run(before).nextId then Some(Posted(queue, data, visibleAt)) else PostedAt(before, id)
      case Nack(r, visibleAt) =>
        var p := PostedAt(before, id);
        if p.Some? && r.id == id && id in Run(before).rows && Run(before).rows[id].receipt == Some(r)
        then Some(p.value.(due := visibleAt))
        else p
      case _ => PostedAt(before, id)
  }

  lemma LegalPrefix(steps: seq<Step>, k: nat)
    requires Legal(steps) && k <= |steps|
    ensures Legal(steps[..k])
  {
    forall i | 0 <= i < k
      ensures Enabled(Run(steps[..k][..i]), steps[..k][i])
    {
      assert steps[..k][..i] == steps[..i];
    }
  }

  lemma LastStep(steps: seq<Step>)
    requires Legal(steps) && steps != []
    ensures var n := |steps| - 1;
            && Legal(steps[..n]) && Inv(Run(steps[..n])) && Enabled(Run(steps[..n]), steps[n])
            && Run(steps) == Apply(Run(steps[..n]), steps[n])
  {
    var n := |steps| - 1;
    LegalPrefix(steps, n);
    RunKeepsInv(steps[..n]);
  }

  /** A row keeps the queue and the data it was posted with; while it is not leased it also keeps its due time. */
  lemma {:induction false} RowAsPosted(steps: seq<Step>, id: nat)
    requires Legal(steps) && id in Run(steps).rows
    ensures var p, row := PostedAt(steps, id), Run(steps).rows[id];
            p.Some? && row.queue == p.value.queue && row.data == p.value.data &&
            (row.receipt.None? ==> row.visibleAt == p.value.due)
    decreases |steps|
  {
    var n := |steps| - 1;
    assert steps != [];
    LastStep(steps);
    var s := Run(steps[..n]);
    if id in s.rows {
      RowAsPosted(steps[..n], id);
      assert RowInv(s, id);
      match steps[n]
      case Nack(r, _) => HoldersAre(s, r);
      case _ =>
    }
  }

  /**
   Which rows a dequeue takes, in any run: rows of its queue that are due, that nobody has
   leased and nobody else is taking; no more than it asked for; the oldest of them; and all
   of them if there are fewer than it asked for.
   */
  lemma DequeueTakes(steps: seq<Step>, i: nat)
    requires Legal(steps) && i < |steps| && steps[i].LockRows?
    ensures var s, step := Run(steps[..i]), steps[i];
            && |step.ids| <= step.count
            && (forall id | id in step.ids :: CanTake(s, id, step.queue, step.now))
            && (forall id, other | id in step.ids && other !in step.ids && CanTake(s, other, step.queue, step.now) ::
                  s.rows[id].visibleAt <= s.rows[other].visibleAt)
            && (|step.ids| < step.count ==>
                  forall id | CanTake(s, id, step.queue, step.now) :: id in step.ids)
  {
    var s, step := Run(steps[..i]), steps[i];
    assert Enabled(s, step);
    var candidates := Unlocked(s.rows, LockedRows(s), step.queue, step.now);
    forall id
      ensures CanTake(s, id, step.queue, step.now) <==> id in candidates
    {
      assert id in LockedRows(s) <==> exists tx :: tx in s.running && id in s.running[tx].ids;
    }
    if |step.ids| < step.count && step.ids != candidates {
      ProperSubsetIsSmaller(step.ids, candidates);
    }
  }

  /** The row is in the queue, due, not leased and not locked by another dequeue. */
  predicate CanTake(s: State, id: nat, queue: string, now: int) {
    && id in s.rows
    && s.rows[id].queue == queue
    && s.rows[id].visibleAt <= now
    && s.rows[id].receipt == None
    && forall tx | tx in s.running :: id !in s.running[tx].ids
  }

  /** No item is taken before it is due, or for another queue than the one it was put into. */
  lemma NeverEarly(steps: seq<Step>, i: nat, id: nat)
    requires Legal(steps) && i < |steps| && steps[i].LockRows? && id in steps[i].ids
    ensures var p := PostedAt(steps[..i], id);
            p.Some? && p.value.queue == steps[i].queue && p.value.due <= steps[i].now
  {
    DequeueTakes(steps, i);
    LegalPrefix(steps, i);
    RowAsPosted(steps[..i], id);
  }

  /** The last step with which the client began a dequeue. */
  function LockStep(steps: seq<Step>, tx: nat): nat {
    if steps == [] then 0
    else
      var n := |steps| - 1;
      if steps[n].LockRows? && steps[n].tx == tx then n else LockStep(steps[..n], tx)
  }

  /** Until it commits or aborts, nothing else touches the rows that a dequeue has locked. */
  lemma {:induction false} LockedRowsUntouched(steps: seq<Step>, tx: nat)
    requires Legal(steps) && tx in Run(steps).running
    ensures var i := LockStep(steps, tx);
            && i < |steps| && steps[i].LockRows? && steps[i].tx == tx
            && steps[i].ids == Run(steps).running[tx].ids
            && forall id | id in steps[i].ids ::
                 && id in Run(steps).rows && id in Run(steps[..i]).rows
                 && Run(steps).rows[id] == Run(steps[..i]).rows[id]
    decreases |steps|
  {
    var n := |steps| - 1;
    assert steps != [];
    LastStep(steps);
    var s, t := Run(steps[..n]), Run(steps);
    if steps[n].LockRows? && steps[n].tx == tx {
      DequeueTakes(steps, n);
    } else {
      LockedRowsUntouched(steps[..n], tx);
      var i := LockStep(steps[..n], tx);
      assert steps[..n][..i] == steps[..i];
      assert Locking(s, s.running[tx]);
      match steps[n]
      case Commit(ty, _) => assert ty in s.running ==> s.running[ty].ids !! s.running[tx].ids;
      case Ack(r) => HoldersAre(s, r);
      case Nack(r, _) => HoldersAre(s, r);
      case _ =>
    }
  }

  /**
   What a dequeue that commits hands out: each item with the queue and the data it was
   posted with, no earlier than it was due, under a receipt of its own, one attempt more
   than before, invisible until the time given. No other row changes.
   */
  lemma DeliveredAsPosted(steps: seq<Step>, j: nat)
    requires Legal(steps) && j < |steps| && steps[j].Commit?
    ensures var tx, until := steps[j].tx, steps[j].until;
            var s, t := Run(steps[..j]), Run(steps[..j + 1]);
            var i := LockStep(steps[..j], tx);
            && i < j && steps[i].LockRows? && steps[i].tx == tx
            && t.rows.Keys == s.rows.Keys
            && (forall id | id in s.rows && id !in steps[i].ids :: t.rows[id] == s.rows[id])
            && forall id | id in steps[i].ids ::
                 && id in s.rows && PostedAt(steps[..j], id).Some?
                 && var p := PostedAt(steps[..j], id).value;
                    && p.queue == steps[i].queue && p.due <= steps[i].now
                    && t.rows[id].queue == p.queue && t.rows[id].data == p.data
                    && t.rows[id].visibleAt == until && t.rows[id].attempt == s.rows[id].attempt + 1
                    && t.rows[id].receipt.Some? && t.rows[id].receipt.value.id == id
                    && Outstanding(t, t.rows[id].receipt.value)
                    && !Outstanding(s, t.rows[id].receipt.value)
  {
    var tx := steps[j].tx;
    var before, upto := steps[..j], steps[..j + 1];
    LegalPrefix(steps, j + 1);
    assert upto[..j] == before;
    LastStep(upto);
    var s, t := Run(before), Run(upto);
    LockedRowsUntouched(before, tx);
    var i := LockStep(before, tx);
    DequeueTakes(before, i);
    assert before[..i] == steps[..i];
    assert Locking(s, s.running[tx]);
    forall id | id in steps[i].ids
      ensures PostedAt(before, id).Some? && var p := PostedAt(before, id).value;
              && p.queue == steps[i].queue && p.due <= steps[i].now
              && t.rows[id].queue == p.queue && t.rows[id].data == p.data
      ensures Outstanding(t, Receipt(s.running[tx].prefix, id)) && !Outstanding(s, Receipt(s.running[tx].prefix, id))
    {
      RowAsPosted(before, id);
      var e := Delivery(Receipt(s.running[tx].prefix, id), s.rows[id].attempt + 1);
      assert e in Delivered(s.rows, s.running[tx].prefix, s.running[tx].ids);
      assert e in t.deliveries;
    }
  }
}
