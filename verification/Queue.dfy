/** The table of queued dispatches: claim, acknowledge, requeue. */
module Queue {
  import opened Text

  const ACK_TIMEOUT := 60_000   // milliseconds

  datatype Row = Row(node: string, run: string, spec: string, params: string,
                     inFlightAt: Option<nat>, attempts: nat)

  type Rows = map<nat, Row>

  // ---------------------------------------------------------------- the statements

  /** Never sent, requeued, or sent longer ago than the timeout. */
  predicate Claimable(row: Row, node: string, now: nat, timeout: nat) {
    row.node == node && (row.inFlightAt.None? || row.inFlightAt.value + timeout < now)
  }

  /** Ids below `n` that can be claimed, in id order. */
  function Available(rows: Rows, node: string, now: nat, timeout: nat, n: nat): seq<nat> {
    if n == 0 then []
    else
      Available(rows, node, now, timeout, n - 1)
      + (if n - 1 in rows && Claimable(rows[n - 1], node, now, timeout) then [n - 1] else [])
  }

  function ClaimRows(rows: Rows, ids: seq<nat>, now: nat): Rows {
    map id | id in rows ::
      if id in ids then rows[id].(inFlightAt := Some(now), attempts := rows[id].attempts + 1) else rows[id]
  }

  function AckRows(rows: Rows, node: string, run: string): Rows {
    map id | id in rows && !(rows[id].node == node && rows[id].run == run) :: rows[id]
  }

  function RequeueRows(rows: Rows, ids: set<nat>): Rows {
    map id | id in rows :: if id in ids then rows[id].(inFlightAt := None) else rows[id]
  }

  /** The rows of one run on one node. */
  function RunIds(rows: Rows, node: string, run: string): set<nat> {
    set id | id in rows && rows[id].node == node && rows[id].run == run
  }

  /** The listed rows were sent past the queue: in flight from now, one attempt more. */
  function MarkRows(rows: Rows, ids: set<nat>, now: nat): Rows {
    map id | id in rows ::
      if id in ids then rows[id].(inFlightAt := Some(now), attempts := rows[id].attempts + 1) else rows[id]
  }

  function InFlightIds(rows: Rows, node: string): set<nat> {
    set id | id in rows && rows[id].node == node && rows[id].inFlightAt.Some?
  }

  ghost predicate Ascending(ids: seq<nat>) {
    forall i, j :: 0 <= i < j < |ids| ==> ids[i] < ids[j]
  }

  /** A batch is exactly the claimable rows of the node, each once, oldest first. */
  lemma {:induction false} AvailableExact(rows: Rows, node: string, now: nat, timeout: nat, n: nat)
    ensures var ids := Available(rows, node, now, timeout, n);
      && Ascending(ids)
      && (forall id :: id in ids ==> id < n && id in rows && Claimable(rows[id], node, now, timeout))
      && (forall id :: id < n && id in rows && Claimable(rows[id], node, now, timeout) ==> id in ids)
  {
    if n > 0 {
      AvailableExact(rows, node, now, timeout, n - 1);
      var older := Available(rows, node, now, timeout, n - 1);
      assert forall i :: 0 <= i < |older| ==> older[i] in older;
    }
  }

  lemma AvailableAscends(rows: Rows, node: string, now: nat, timeout: nat, n: nat)
    ensures var ids := Available(rows, node, now, timeout, n);
      Ascending(ids) && forall i :: 0 <= i < |ids| ==> ids[i] in rows
  {
    AvailableExact(rows, node, now, timeout, n);
    var ids := Available(rows, node, now, timeout, n);
    assert forall i :: 0 <= i < |ids| ==> ids[i] in ids;
  }

  lemma ClaimOneMore(rows: Rows, ids: seq<nat>, id: nat, now: nat)
    requires id in rows && id !in ids
    ensures id in ClaimRows(rows, ids, now)
    ensures var marked := ClaimRows(rows, ids, now);
      ClaimRows(rows, ids + [id], now)
        == marked[id := marked[id].(inFlightAt := Some(now), attempts := marked[id].attempts + 1)]
  {
  }

  lemma ClaimNext(rows: Rows, selected: seq<nat>, i: nat, now: nat)
    requires i < |selected| && Ascending(selected) && selected[i] in rows
    ensures selected[i] in ClaimRows(rows, selected[..i], now)
    ensures var marked := ClaimRows(rows, selected[..i], now);
      ClaimRows(rows, selected[..i + 1], now) == marked[selected[i] :=
        marked[selected[i]].(inFlightAt := Some(now), attempts := marked[selected[i]].attempts + 1)]
  {
    assert selected[..i + 1] == selected[..i] + [selected[i]];
    ClaimOneMore(rows, selected[..i], selected[i], now);
  }

  // ---------------------------------------------------------------- the table

  class PendingQueue {
    var rows: Rows
    var nextId: nat

    ghost predicate Valid()
      reads this
    {
      forall id :: id in rows ==> id < nextId
    }

    constructor ()
      ensures Valid() && rows == map[]
    {
      rows := map[];
      nextId := 1;
    }

    method Enqueue(node: string, run: string, spec: string, params: string) returns (id: nat)
      requires Valid()
      modifies this
      ensures Valid() && id == old(nextId) && nextId == id + 1 && id !in old(rows)
      ensures rows == old(rows)[id := Row(node, run, spec, params, None, 0)]
    {
      id := nextId;
      rows := rows[id := Row(node, run, spec, params, None, 0)];
      nextId := nextId + 1;
    }

    /** Marks every claimable row of the node and returns their ids, oldest first. */
    method Claim(node: string, now: nat, timeout: nat) returns (ids: seq<nat>)
      requires Valid()
      modifies this`rows
      ensures Valid()
      ensures ids == Available(old(rows), node, now, timeout, nextId)
      ensures rows == ClaimRows(old(rows), ids, now)
    {
      var selected := Available(rows, node, now, timeout, nextId);
      AvailableAscends(rows, node, now, timeout, nextId);
      ids := [];
      for i := 0 to |selected|
        invariant ids == selected[..i]
        invariant rows == ClaimRows(old(rows), selected[..i], now)
      {
        var id := selected[i];
        ClaimNext(old(rows), selected, i, now);
        rows := rows[id := rows[id].(inFlightAt := Some(now), attempts := rows[id].attempts + 1)];
        ids := ids + [id];
      }
    }

    /** Removes every row of the run on that node, claimed or not, and no other. */
    method Ack(node: string, run: string)
      requires Valid()
      modifies this`rows
      ensures Valid() && rows == AckRows(old(rows), node, run)
      ensures forall id :: id in rows <==> id in old(rows) && !(old(rows)[id].node == node && old(rows)[id].run == run)
      ensures forall id :: id in rows ==> rows[id] == old(rows)[id]
    {
      rows := AckRows(rows, node, run);
    }

    /** After a live send: the rows of the run are held back for the timeout and count one attempt more,
        whether or not they were in flight; no other row changes. */
    method MarkLive(node: string, run: string, now: nat)
      requires Valid()
      modifies this`rows
      ensures Valid() && rows == MarkRows(old(rows), RunIds(old(rows), node, run), now)
      ensures rows.Keys == old(rows).Keys
      ensures forall id :: id in rows && !(rows[id].node == node && rows[id].run == run) ==> rows[id] == old(rows)[id]
      ensures forall id :: id in rows && rows[id].node == node && rows[id].run == run ==>
        rows[id].attempts == old(rows)[id].attempts + 1
      ensures forall id, at: nat, timeout: nat :: id in rows && rows[id].node == node && rows[id].run == run ==>
        (Claimable(rows[id], node, at, timeout) <==> at > now + timeout)
    {
      rows := MarkRows(rows, RunIds(rows, node, run), now);
    }

    /** Whatever the clock, the listed rows can be claimed again, the others as before; attempts stay counted. */
    method Requeue(ids: seq<nat>)
      requires Valid()
      modifies this`rows
      ensures Valid() && rows == RequeueRows(old(rows), set id | id in ids)
      ensures rows.Keys == old(rows).Keys
      ensures forall id :: id in rows ==> rows[id] == old(rows)[id].(inFlightAt := rows[id].inFlightAt)
      ensures forall id :: id in rows && id !in ids ==> rows[id] == old(rows)[id]
      ensures forall id, at, timeout :: id in rows && id in ids ==> Claimable(rows[id], rows[id].node, at, timeout)
    {
      if |ids| == 0 {
        return;
      }
      rows := RequeueRows(rows, set id | id in ids);
    }

    /** Whatever the clock, every row of the node can be claimed again; no other node's row changes. */
    method RequeueInFlightForNode(node: string)
      requires Valid()
      modifies this`rows
      ensures Valid() && rows == RequeueRows(old(rows), InFlightIds(old(rows), node))
      ensures rows.Keys == old(rows).Keys
      ensures forall id :: id in rows ==> rows[id] == old(rows)[id].(inFlightAt := rows[id].inFlightAt)
      ensures forall id :: id in rows && rows[id].node != node ==> rows[id] == old(rows)[id]
      ensures forall id, at, timeout :: id in rows && rows[id].node == node ==> Claimable(rows[id], node, at, timeout)
    {
      rows := RequeueRows(rows, InFlightIds(rows, node));
    }
  }

  // ---------------------------------------------------------------- delivery

  /** A session's reply stream, whose peer goes away after `accepts` more frames. */
  class Outbox {
    var sent: seq<nat>
    var accepts: nat

    constructor (accepts: nat)
      ensures sent == [] && this.accepts == accepts
    {
      sent := [];
      this.accepts := accepts;
    }

    method Send(id: nat) returns (ok: bool)
      modifies this
      ensures ok <==> old(accepts) > 0
      ensures sent == if ok then old(sent) + [id] else old(sent)
      ensures accepts == if ok then old(accepts) - 1 else 0
    {
      ok := accepts > 0;
      if ok {
        sent := sent + [id];
        accepts := accepts - 1;
      }
    }
  }

  /** The first `k` rows of the batch are in flight, the rest available; nothing else moved. */
  ghost predicate Flushed(before: Rows, after: Rows, batch: seq<nat>, k: nat, now: nat)
    requires k <= |batch|
  {
    && after.Keys == before.Keys
    && (forall id :: id in before && id !in batch ==> after[id] == before[id])
    && (forall i :: 0 <= i < |batch| ==>
          (batch[i] in before
           && after[batch[i]] == before[batch[i]].(
                inFlightAt := if i < k then Some(now) else None, attempts := before[batch[i]].attempts + 1)))
  }

  lemma FlushedAll(before: Rows, batch: seq<nat>, now: nat)
    requires Ascending(batch) && forall id :: id in batch ==> id in before
    ensures Flushed(before, ClaimRows(before, batch, now), batch, |batch|, now)
  {
  }

  lemma FlushedPart(before: Rows, batch: seq<nat>, k: nat, now: nat)
    requires Ascending(batch) && k <= |batch| && forall id :: id in batch ==> id in before
    ensures Flushed(before, RequeueRows(ClaimRows(before, batch, now), set id | id in batch[k..]), batch, k, now)
  {
    var rest := batch[k..];
    forall i | 0 <= i < |batch| ensures batch[i] in rest <==> k <= i {
      if k <= i {
        assert rest[i - k] == batch[i];
      }
    }
  }

  /** The send loop: on the first failed send the rest of the batch is given back. */
  method SendBatch(queue: PendingQueue, pending: seq<nat>, tx: Outbox) returns (flushed: nat)
    requires queue.Valid()
    modifies queue`rows, tx
    ensures queue.Valid()
    ensures flushed == (if |pending| <= old(tx.accepts) then |pending| else old(tx.accepts))
    ensures tx.sent == old(tx.sent) + pending[..flushed]
    ensures queue.rows ==
      if flushed == |pending| then old(queue.rows)
      else RequeueRows(old(queue.rows), set id | id in pending[flushed..])
  {
    flushed := 0;
    for i := 0 to |pending|
      invariant flushed == i <= old(tx.accepts)
      invariant tx.sent == old(tx.sent) + pending[..i]
      invariant tx.accepts == old(tx.accepts) - i
      invariant queue.Valid() && queue.rows == old(queue.rows)
    {
      var ok := tx.Send(pending[i]);
      if !ok {
        queue.Requeue(pending[i..]);
        return;
      }
      flushed := flushed + 1;
    }
  }

  /** Sends a prefix of the batch in order; exactly the unsent rest is available again. */
  method FlushPending(queue: PendingQueue, node: string, now: nat, tx: Outbox) returns (flushed: nat)
    requires queue.Valid()
    modifies queue`rows, tx
    ensures queue.Valid()
    ensures var batch := Available(old(queue.rows), node, now, ACK_TIMEOUT, queue.nextId);
      && flushed == (if |batch| <= old(tx.accepts) then |batch| else old(tx.accepts))
      && tx.sent == old(tx.sent) + batch[..flushed]
      && Flushed(old(queue.rows), queue.rows, batch, flushed, now)
  {
    AvailableExact(queue.rows, node, now, ACK_TIMEOUT, queue.nextId);
    var pending := queue.Claim(node, now, ACK_TIMEOUT);
    flushed := SendBatch(queue, pending, tx);
    FlushedAll(old(queue.rows), pending, now);
    FlushedPart(old(queue.rows), pending, flushed, now);
  }
}
