/** The queue with its history: what was enqueued, what was reported, and every claim,
    live mark and requeue in order. The laws here hold for any interleaving. */
module QueueHistory {
  import opened Text
  import opened Queue

  datatype Event =
    | Claimed(node: string, ids: seq<nat>, at: nat)
    | Marked(live: set<nat>, at: nat)      // sent past the queue
    | Requeued(freed: set<nat>)

  datatype Issue = Issue(node: string, run: string)

  datatype History = History(
    rows: Rows,
    nextId: nat,
    issued: map<nat, Issue>,
    results: seq<Issue>,
    log: seq<Event>)

  function Start(): History {
    History(map[], 1, map[], [], [])
  }

  // ---------------------------------------------------------------- operations

  function Enqueued(q: History, node: string, run: string, spec: string, params: string): History {
    q.(rows := q.rows[q.nextId := Row(node, run, spec, params, None, 0)],
       nextId := q.nextId + 1,
       issued := q.issued[q.nextId := Issue(node, run)])
  }

  function Batch(q: History, node: string, now: nat): seq<nat> {
    Available(q.rows, node, now, ACK_TIMEOUT, q.nextId)
  }

  function ClaimedBy(q: History, node: string, now: nat): History {
    q.(rows := ClaimRows(q.rows, Batch(q, node, now), now),
       log := q.log + [Claimed(node, Batch(q, node, now), now)])
  }

  function MarkedBy(q: History, node: string, run: string, now: nat): History {
    var ids := RunIds(q.rows, node, run);
    q.(rows := MarkRows(q.rows, ids, now), log := q.log + [Marked(ids, now)])
  }

  function Freed(q: History, ids: set<nat>): History {
    q.(rows := RequeueRows(q.rows, ids), log := q.log + [Requeued(ids)])
  }

  function FreedNode(q: History, node: string): History {
    Freed(q, InFlightIds(q.rows, node))
  }

  function Stored(q: History, node: string, run: string): History {
    q.(results := q.results + [Issue(node, run)])
  }

  function Acked(q: History, node: string, run: string): History {
    q.(rows := AckRows(q.rows, node, run))
  }

  datatype Operation =
    | Keep
    | Enq(node: string, run: string, spec: string, params: string)
    | Claim(node: string)
    | Mark(node: string, run: string)
    | Free(ids: set<nat>)
    | Store(node: string, run: string)
    | Ack(node: string, run: string)

  function Apply(q: History, op: Operation, now: nat): History {
    match op
    case Keep => q
    case Enq(node, run, spec, params) => Enqueued(q, node, run, spec, params)
    case Claim(node) => ClaimedBy(q, node, now)
    case Mark(node, run) => MarkedBy(q, node, run, now)
    case Free(ids) => Freed(q, ids)
    case Store(node, run) => Stored(q, node, run)
    case Ack(node, run) => Acked(q, node, run)
  }

  // ---------------------------------------------------------------- reading the log

  /** When the row was last sent, if it has not been requeued since. */
  function Flight(log: seq<Event>, id: nat): Option<nat> {
    if log == [] then None else FlightAfter(log[|log| - 1], id, Flight(log[..|log| - 1], id))
  }

  function FlightAfter(e: Event, id: nat, before: Option<nat>): Option<nat> {
    if Tries(e, id) then Some(e.at)
    else if e.Requeued? && id in e.freed then None
    else before
  }

  /** The event sends the row, from the queue or past it. */
  predicate Tries(e: Event, id: nat) {
    (e.Claimed? && id in e.ids) || (e.Marked? && id in e.live)
  }

  function ClaimCount(log: seq<Event>, id: nat): nat {
    if log == [] then 0
    else
      ClaimCount(log[..|log| - 1], id)
      + (if log[|log| - 1].Claimed? && id in log[|log| - 1].ids then 1 else 0)
  }

  function MarkCount(log: seq<Event>, id: nat): nat {
    if log == [] then 0
    else
      MarkCount(log[..|log| - 1], id)
      + (if log[|log| - 1].Marked? && id in log[|log| - 1].live then 1 else 0)
  }

  /** Claimed or marked at or before position `j`. */
  ghost predicate TriedBy(log: seq<Event>, j: nat, id: nat)
    requires j < |log|
  {
    exists k :: 0 <= k <= j && Tries(log[k], id)
  }

  predicate ClaimsAt(log: seq<Event>, i: nat, id: nat)
    requires i < |log|
  {
    log[i].Claimed? && id in log[i].ids
  }

  /** A claim takes only rows that are not in flight, or were sent too long ago. */
  ghost predicate ClaimLegal(log: seq<Event>, i: nat)
    requires i < |log|
  {
    log[i].Claimed? ==>
      && Ascending(log[i].ids)
      && forall id :: id in log[i].ids ==>
           (Flight(log[..i], id).None? || Flight(log[..i], id).value + ACK_TIMEOUT < log[i].at)
  }

  ghost predicate LogLegal(log: seq<Event>) {
    forall i :: 0 <= i < |log| ==> ClaimLegal(log, i)
  }

  /** The sends of the log are in time order. */
  ghost predicate InTime(log: seq<Event>) {
    forall i, j :: 0 <= i < j < |log| && !log[i].Requeued? && !log[j].Requeued? ==> log[i].at <= log[j].at
  }

  /** Sends are in time order, and none is later than now. */
  ghost predicate LogBefore(log: seq<Event>, now: nat) {
    && (forall i :: 0 <= i < |log| && !log[i].Requeued? ==> log[i].at <= now)
    && InTime(log)
  }

  /** Claims name only issued ids, each for its own node. */
  ghost predicate ClaimsOwnRows(q: History) {
    forall i, id :: 0 <= i < |q.log| && ClaimsAt(q.log, i, id) ==>
      id in q.issued && q.issued[id].node == q.log[i].node
  }

  // ---------------------------------------------------------------- the invariant

  ghost predicate RowsIssued(q: History) {
    && (forall id :: id in q.issued ==> id < q.nextId)
    && (forall id :: id in q.rows ==>
          id in q.issued && q.issued[id] == Issue(q.rows[id].node, q.rows[id].run))
  }

  /** No row is ever lost: it waits in the table or its result has been stored. */
  ghost predicate Conserved(q: History) {
    forall id :: id in q.issued ==> id in q.rows || q.issued[id] in q.results
  }

  ghost predicate RowsMatchLog(q: History) {
    forall id :: id in q.rows ==>
      && q.rows[id].inFlightAt == Flight(q.log, id)
      && q.rows[id].attempts == ClaimCount(q.log, id) + MarkCount(q.log, id)
  }

  /** When a row is claimed, every older one of the node that waits or is ever tried has been tried by then. */
  ghost predicate OldestFirst(q: History) {
    forall a: nat, b: nat, j :: 0 <= j < |q.log| && ClaimsAt(q.log, j, b) && Precedes(q, a, b) ==> TriedBy(q.log, j, a)
  }

  ghost predicate Precedes(q: History, a: nat, b: nat) {
    && a < b && a in q.issued && b in q.issued && q.issued[a].node == q.issued[b].node
    && (a in q.rows || Tried(q.log, a))
  }

  ghost predicate Tried(log: seq<Event>, id: nat) {
    exists k :: 0 <= k < |log| && Tries(log[k], id)
  }

  ghost predicate UntriedIsFree(q: History) {
    forall id :: id in q.rows && q.rows[id].attempts == 0 ==> q.rows[id].inFlightAt.None?
  }

  /** Ids not issued yet do not appear in the log. */
  ghost predicate LogFresh(q: History) {
    forall id :: id >= q.nextId ==> Flight(q.log, id).None? && ClaimCount(q.log, id) == 0 && MarkCount(q.log, id) == 0
  }

  ghost predicate Inv(q: History, now: nat) {
    && RowsIssued(q) && Conserved(q) && RowsMatchLog(q) && OldestFirst(q) && UntriedIsFree(q)
    && LogFresh(q) && LogLegal(q.log) && LogBefore(q.log, now) && ClaimsOwnRows(q)
  }

  // ---------------------------------------------------------------- preservation

  lemma LegalExtends(log: seq<Event>, e: Event)
    requires LogLegal(log)
    requires ClaimLegal(log + [e], |log|)
    ensures LogLegal(log + [e])
  {
    var longer := log + [e];
    forall i | 0 <= i < |longer| ensures ClaimLegal(longer, i) {
      if i < |log| {
        assert longer[..i] == log[..i];
        assert ClaimLegal(log, i);
      }
    }
  }

  lemma {:induction false} ReadExtended(log: seq<Event>, e: Event, id: nat)
    ensures Flight(log + [e], id) == FlightAfter(e, id, Flight(log, id))
    ensures ClaimCount(log + [e], id) == ClaimCount(log, id) + (if e.Claimed? && id in e.ids then 1 else 0)
    ensures MarkCount(log + [e], id) == MarkCount(log, id) + (if e.Marked? && id in e.live then 1 else 0)
  {
    assert (log + [e])[..|log|] == log;
  }

  /** A row has been tried exactly when its sends are counted. */
  lemma {:induction false} TriedIsCounted(log: seq<Event>, id: nat)
    ensures Tried(log, id) <==> ClaimCount(log, id) + MarkCount(log, id) > 0
    decreases |log|
  {
    if log != [] {
      var front := log[..|log| - 1];
      TriedIsCounted(front, id);
      TriedExtends(front, log[|log| - 1], id);
      assert log == front + [log[|log| - 1]];
    }
  }

  lemma TriedExtends(log: seq<Event>, e: Event, id: nat)
    ensures Tried(log + [e], id) <==> Tried(log, id) || Tries(e, id)
  {
    var longer := log + [e];
    assert longer[|log|] == e;
    if Tried(log, id) {
      var k :| 0 <= k < |log| && Tries(log[k], id);
      assert Tries(longer[k], id);
    }
  }

  lemma TriedByExtends(log: seq<Event>, e: Event, j: nat, id: nat)
    requires j < |log| && TriedBy(log, j, id)
    ensures TriedBy(log + [e], j, id)
  {
    var k :| 0 <= k <= j && Tries(log[k], id);
    assert Tries((log + [e])[k], id);
  }

  /** A send that tries only rows of the table keeps the order, if a claim leaves no older row untried. */
  lemma SendKeepsOrder(q: History, after: History, e: Event)
    requires RowsIssued(q) && OldestFirst(q)
    requires after.log == q.log + [e] && after.issued == q.issued && after.rows.Keys == q.rows.Keys
    requires forall id :: Tries(e, id) ==> id in q.rows
    requires forall a, b :: e.Claimed? && b in e.ids && Precedes(q, a, b) ==> Tries(e, a) || Tried(q.log, a)
    ensures OldestFirst(after)
  {
    forall a: nat, b: nat, j | 0 <= j < |after.log| && ClaimsAt(after.log, j, b) && Precedes(after, a, b)
      ensures TriedBy(after.log, j, a)
    {
      TriedExtends(q.log, e, a);
      assert Precedes(q, a, b);
      if j < |q.log| {
        assert ClaimsAt(q.log, j, b);
        TriedByExtends(q.log, e, j, a);
      } else if Tries(e, a) {
        assert Tries(after.log[j], a);
      } else {
        var k :| 0 <= k < |q.log| && Tries(q.log[k], a);
        assert Tries(after.log[k], a);
      }
    }
  }

  lemma EnqueueKeeps(q: History, now: nat, node: string, run: string, spec: string, params: string)
    requires Inv(q, now)
    ensures Inv(Enqueued(q, node, run, spec, params), now)
  {
    var after := Enqueued(q, node, run, spec, params);
    assert OldestFirst(after) by {
      forall a: nat, b: nat, j | 0 <= j < |after.log| && ClaimsAt(after.log, j, b) && Precedes(after, a, b)
        ensures TriedBy(after.log, j, a)
      {
        assert ClaimsAt(q.log, j, b);
        assert b in q.issued && b < q.nextId;
        assert Precedes(q, a, b);
      }
    }
  }

  lemma ClaimKeepsOrder(q: History, now: nat, node: string)
    requires RowsIssued(q) && OldestFirst(q) && UntriedIsFree(q) && RowsMatchLog(q)
    ensures OldestFirst(ClaimedBy(q, node, now)) && UntriedIsFree(ClaimedBy(q, node, now))
  {
    var ids := Batch(q, node, now);
    AvailableExact(q.rows, node, now, ACK_TIMEOUT, q.nextId);
    var e := Claimed(node, ids, now);
    forall a, b | b in e.ids && Precedes(q, a, b) ensures Tries(e, a) || Tried(q.log, a) {
      if a in q.rows {
        TriedIsCounted(q.log, a);
        assert Claimable(q.rows[b], node, now, ACK_TIMEOUT);
        if q.rows[a].attempts == 0 {
          assert Claimable(q.rows[a], node, now, ACK_TIMEOUT);
        }
      }
    }
    SendKeepsOrder(q, ClaimedBy(q, node, now), e);
  }

  lemma ClaimKeepsReads(q: History, now: nat, node: string)
    requires RowsIssued(q) && RowsMatchLog(q) && LogFresh(q)
    ensures RowsMatchLog(ClaimedBy(q, node, now)) && LogFresh(ClaimedBy(q, node, now))
  {
    var ids := Batch(q, node, now);
    AvailableExact(q.rows, node, now, ACK_TIMEOUT, q.nextId);
    forall id: nat ensures Flight(ClaimedBy(q, node, now).log, id) == (if id in ids then Some(now) else Flight(q.log, id))
      && ClaimCount(ClaimedBy(q, node, now).log, id) == ClaimCount(q.log, id) + (if id in ids then 1 else 0)
      && MarkCount(ClaimedBy(q, node, now).log, id) == MarkCount(q.log, id)
    {
      ReadExtended(q.log, Claimed(node, ids, now), id);
    }
  }

  lemma ClaimKeepsLegal(q: History, now: nat, node: string)
    requires RowsMatchLog(q) && LogLegal(q.log)
    ensures LogLegal(ClaimedBy(q, node, now).log)
  {
    var ids := Batch(q, node, now);
    AvailableExact(q.rows, node, now, ACK_TIMEOUT, q.nextId);
    var e := Claimed(node, ids, now);
    assert (q.log + [e])[..|q.log|] == q.log;
    forall id | id in ids
      ensures Flight(q.log, id).None? || Flight(q.log, id).value + ACK_TIMEOUT < now
    {
      assert Claimable(q.rows[id], node, now, ACK_TIMEOUT);
    }
    LegalExtends(q.log, e);
  }

  lemma ClaimKeeps(q: History, now: nat, node: string)
    requires Inv(q, now)
    ensures Inv(ClaimedBy(q, node, now), now)
  {
    ClaimKeepsOrder(q, now, node);
    ClaimKeepsReads(q, now, node);
    ClaimKeepsLegal(q, now, node);
    TimeOrder(q.log, Claimed(node, Batch(q, node, now), now), now);
    AvailableExact(q.rows, node, now, ACK_TIMEOUT, q.nextId);
    var after := ClaimedBy(q, node, now);
    forall i, id | 0 <= i < |after.log| && ClaimsAt(after.log, i, id)
      ensures id in after.issued && after.issued[id].node == after.log[i].node
    {
      if i < |q.log| {
        assert ClaimsAt(q.log, i, id);
      }
    }
  }

  lemma TimeOrder(log: seq<Event>, e: Event, now: nat)
    requires LogBefore(log, now) && (!e.Requeued? ==> e.at == now)
    ensures LogBefore(log + [e], now)
  {
  }

  /** An event that claims nothing keeps the laws about claims. */
  lemma NoClaimKeeps(q: History, after: History, e: Event)
    requires LogLegal(q.log) && ClaimsOwnRows(q)
    requires !e.Claimed? && after.log == q.log + [e] && after.issued == q.issued
    ensures LogLegal(after.log) && ClaimsOwnRows(after)
  {
    LegalExtends(q.log, e);
    forall i, id | 0 <= i < |after.log| && ClaimsAt(after.log, i, id)
      ensures id in after.issued && after.issued[id].node == after.log[i].node
    {
      assert ClaimsAt(q.log, i, id);
    }
  }

  lemma MarkKeepsReads(q: History, now: nat, node: string, run: string)
    requires RowsIssued(q) && RowsMatchLog(q) && LogFresh(q) && UntriedIsFree(q)
    ensures var after := MarkedBy(q, node, run, now); RowsMatchLog(after) && LogFresh(after) && UntriedIsFree(after)
  {
    var ids, after := RunIds(q.rows, node, run), MarkedBy(q, node, run, now);
    forall id: nat ensures Flight(after.log, id) == (if id in ids then Some(now) else Flight(q.log, id))
      && ClaimCount(after.log, id) == ClaimCount(q.log, id)
      && MarkCount(after.log, id) == MarkCount(q.log, id) + (if id in ids then 1 else 0)
    {
      ReadExtended(q.log, Marked(ids, now), id);
    }
  }

  lemma MarkKeeps(q: History, now: nat, node: string, run: string)
    requires Inv(q, now)
    ensures Inv(MarkedBy(q, node, run, now), now)
  {
    var e, after := Marked(RunIds(q.rows, node, run), now), MarkedBy(q, node, run, now);
    MarkKeepsReads(q, now, node, run);
    SendKeepsOrder(q, after, e);
    NoClaimKeeps(q, after, e);
    TimeOrder(q.log, e, now);
  }

  lemma FreeKeepsReads(q: History, freed: set<nat>)
    requires RowsMatchLog(q) && LogFresh(q) && UntriedIsFree(q)
    ensures RowsMatchLog(Freed(q, freed)) && LogFresh(Freed(q, freed)) && UntriedIsFree(Freed(q, freed))
  {
    forall id ensures Flight(Freed(q, freed).log, id) == (if id in freed then None else Flight(q.log, id))
      && ClaimCount(Freed(q, freed).log, id) == ClaimCount(q.log, id)
      && MarkCount(Freed(q, freed).log, id) == MarkCount(q.log, id)
    {
      ReadExtended(q.log, Requeued(freed), id);
    }
  }

  lemma FreeKeeps(q: History, now: nat, freed: set<nat>)
    requires Inv(q, now)
    ensures Inv(Freed(q, freed), now)
  {
    var e, after := Requeued(freed), Freed(q, freed);
    FreeKeepsReads(q, freed);
    SendKeepsOrder(q, after, e);
    NoClaimKeeps(q, after, e);
    TimeOrder(q.log, e, now);
  }

  lemma StoreKeeps(q: History, now: nat, node: string, run: string)
    requires Inv(q, now)
    ensures Inv(Stored(q, node, run), now)
  {
    SameLogKeepsOrder(q, Stored(q, node, run));
  }

  lemma SameLogKeepsOrder(q: History, after: History)
    requires OldestFirst(q) && after.log == q.log && after.issued == q.issued && after.rows.Keys <= q.rows.Keys
    ensures OldestFirst(after)
  {
    forall a: nat, b: nat, j | 0 <= j < |after.log| && ClaimsAt(after.log, j, b) && Precedes(after, a, b)
      ensures TriedBy(after.log, j, a)
    {
      assert ClaimsAt(q.log, j, b) && Precedes(q, a, b);
    }
  }

  lemma AckKeeps(q: History, now: nat, node: string, run: string)
    requires Inv(q, now) && Issue(node, run) in q.results
    ensures Inv(Acked(q, node, run), now)
  {
    SameLogKeepsOrder(q, Acked(q, node, run));
  }

  lemma LaterKeeps(q: History, now: nat, later: nat)
    requires Inv(q, now) && now <= later
    ensures Inv(q, later)
  {
    assert LogBefore(q.log, later);
  }

  lemma ApplyKeeps(q: History, op: Operation, now: nat)
    requires Inv(q, now)
    requires op.Ack? ==> Issue(op.node, op.run) in q.results
    ensures Inv(Apply(q, op, now), now)
  {
    match op
    case Keep =>
    case Enq(node, run, spec, params) => EnqueueKeeps(q, now, node, run, spec, params);
    case Claim(node) => ClaimKeeps(q, now, node);
    case Mark(node, run) => MarkKeeps(q, now, node, run);
    case Free(ids) => FreeKeeps(q, now, ids);
    case Store(node, run) => StoreKeeps(q, now, node, run);
    case Ack(node, run) => AckKeeps(q, now, node, run);
  }

  // ---------------------------------------------------------------- what the log shows

  /** Unless requeued since, a claimed row is in flight from that claim or from a later send. */
  lemma {:induction false} FlightSinceClaim(log: seq<Event>, i: nat, id: nat) returns (k: nat)
    requires i < |log| && ClaimsAt(log, i, id)
    requires forall m :: i < m < |log| && log[m].Requeued? ==> id !in log[m].freed
    ensures i <= k < |log| && !log[k].Requeued? && Flight(log, id) == Some(log[k].at)
  {
    var last := |log| - 1;
    if Tries(log[last], id) {
      k := last;
    } else {
      k := FlightSinceClaim(log[..last], i, id);
    }
  }

  /** Two claims of one row are separated by a requeue of it or by more than the timeout. */
  lemma ClaimsSeparated(log: seq<Event>, i: nat, j: nat, id: nat)
    requires LogLegal(log) && InTime(log) && i < j < |log| && ClaimsAt(log, i, id) && ClaimsAt(log, j, id)
    ensures (exists k :: i < k < j && log[k].Requeued? && id in log[k].freed)
      || log[j].at > log[i].at + ACK_TIMEOUT
  {
    assert ClaimLegal(log, j);
    if !exists k :: i < k < j && log[k].Requeued? && id in log[k].freed {
      var before := log[..j];
      assert ClaimsAt(before, i, id);
      var k := FlightSinceClaim(before, i, id);
      assert before[k] == log[k];
    }
  }
}
