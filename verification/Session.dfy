/** Control sessions as a transition system. Every database transaction, hub call
    and send is a step of its own, and steps of different sessions interleave freely. */
module Session {
  import opened Text
  import opened Gate
  import opened Queue
  import opened QueueHistory
  import Hub

  /** Where a session is between two awaits. `timer` marks a flush that the ready timer started. */
  datatype Pc =
    | Idle
    | Evicting(node: string)
    | RegisterRequeue(node: string)
    | Acking(node: string, run: string)
    | Unregistering(left: string, next: string)
    | LeaveRequeue(left: string, next: string)
    | Registering(timer: bool)
    | Claiming(timer: bool)
    | Sending(batch: seq<nat>, sent: nat, timer: bool)
    | Returning(unsent: seq<nat>, timer: bool)
    | Replying
    | Closing
    | ClosingRequeue(node: string)
    | Dead

  datatype Session = Session(bound: Option<string>, gate: GateState, binding: nat, pc: Pc)

  datatype Cause =
    | ByAck(acked: int, center: int, readOk: bool, current: int)
    | ByTimeout(boundAt: nat, at: nat)

  datatype Note =
    | Opened(session: nat, binding: nat, boundTo: Option<string>, cause: Cause)
    | Frame(session: nat, binding: nat, boundTo: Option<string>, id: nat, gateReady: bool)

  datatype State = State(
    now: nat,
    timeout: nat,
    sessions: map<nat, Session>,
    hub: map<string, nat>,
    q: History,
    generations: map<string, int>,
    trace: seq<Note>)

  datatype StoreOutcome = StoredOk | StoredThenFailed | NotStored

  datatype Message =
    | Register(node: string, accepted: bool)
    | Report(node: string, run: string, outcome: StoreOutcome)
    | NodeReady(node: string, acked: int, readOk: bool)
    | Other(who: Option<string>)           // heartbeat, pulls, state reports; an Ack names no node

  datatype Action =
    | Wait(ms: nat)
    | PutConfig(node: string)
    | Enqueue(node: string, run: string, spec: string, params: string)
    | MarkLive(node: string, run: string)  // a targeted dispatch, after the hub took its frame
    | Open(session: nat)
    | Receive(session: nat, msg: Message)
    | Advance(session: nat, ok: bool)      // ok: the database call or the send succeeded
    | TimerFires(session: nat)
    | StreamEnds(session: nat)
    | Restart

  function Init(timeout: nat): State {
    State(0, timeout, map[], map[], QueueHistory.Start(), map[], [])
  }

  // ---------------------------------------------------------------- steps

  function With(st: State, s: nat, x: Session): State {
    st.(sessions := st.sessions[s := x])
  }

  function Generation(st: State, node: string): int {
    if node in st.generations then st.generations[node] else 0
  }

  /** After the handler, when no (other) node id came back: flush if ready, then reply. */
  function FlushOrReply(x: Session): Session {
    x.(pc := if x.gate.ready && x.bound.Some? then Claiming(false) else Replying)
  }

  function BindTo(st: State, x: Session, node: string): Session {
    x.(bound := Some(node), gate := Bind(NewGate(st.timeout), st.now), binding := x.binding + 1, pc := Replying)
  }

  /** The handler returned `node`: stay, leave the old node first, or bind. */
  function Handled(st: State, x: Session, node: Option<string>): Session {
    if node.None? || x.bound == node then FlushOrReply(x)
    else if x.bound.Some? then x.(bound := None, pc := Unregistering(x.bound.value, node.value))
    else BindTo(st, x, node.value)
  }

  function Finish(x: Session, timer: bool): Session {
    x.(pc := if timer then Idle else Replying)
  }

  function OnMessage(st: State, s: nat, msg: Message): State
    requires s in st.sessions
  {
    var x := st.sessions[s];
    match msg
    case Register(node, accepted) =>
      if accepted then
        With(st, s, x.(pc := Evicting(node))).(
          generations := if node in st.generations then st.generations else st.generations[node := 1])
      else With(st, s, Handled(st, x, None))
    case Report(node, run, outcome) =>
      var stored := if outcome.NotStored? then st.q else Stored(st.q, node, run);
      With(st, s, if outcome.StoredOk? then x.(pc := Acking(node, run)) else Handled(st, x, Some(node))).(q := stored)
    case NodeReady(node, acked, readOk) =>
      var center := if readOk then Generation(st, node) else 0;
      if x.bound == Some(node) && OpensByAck(x.gate, acked, center) then
        With(st, s, x.(gate := x.gate.(ready := true), pc := Registering(false))).(
          trace := st.trace + [Opened(s, x.binding, x.bound, ByAck(acked, center, readOk, Generation(st, node)))])
      else With(st, s, FlushOrReply(x))
    case Other(who) =>
      With(st, s, Handled(st, x, who))
  }

  function OnAdvance(st: State, s: nat, ok: bool): State
    requires s in st.sessions
  {
    var x := st.sessions[s];
    match x.pc
    case Evicting(node) =>
      With(st, s, x.(pc := RegisterRequeue(node))).(hub := st.hub - {node})
    case RegisterRequeue(node) =>
      With(st, s, Handled(st, x, Some(node))).(q := if ok then FreedNode(st.q, node) else st.q)
    case Acking(node, run) =>
      With(st, s, Handled(st, x, Some(node))).(q := if ok then Acked(st.q, node, run) else st.q)
    case Unregistering(left, next) =>
      With(st, s, x.(pc := LeaveRequeue(left, next))).(hub := Hub.Unregistered(st.hub, left, s))
    case LeaveRequeue(left, next) =>
      With(st, s, BindTo(st, x, next)).(q := if ok then FreedNode(st.q, left) else st.q)
    case Registering(timer) =>
      if x.bound.None? then st
      else With(st, s, x.(pc := Claiming(timer))).(hub := st.hub[x.bound.value := s])
    case Claiming(timer) =>
      if x.bound.None? then st
      else if !ok then With(st, s, Finish(x, timer))
      else With(st, s, x.(pc := Sending(Batch(st.q, x.bound.value, st.now), 0, timer))).(
             q := ClaimedBy(st.q, x.bound.value, st.now))
    case Sending(batch, sent, timer) =>
      if sent >= |batch| then With(st, s, Finish(x, timer))
      else if ok then
        With(st, s, x.(pc := Sending(batch, sent + 1, timer))).(
          trace := st.trace + [Frame(s, x.binding, x.bound, batch[sent], x.gate.ready)])
      else With(st, s, x.(pc := Returning(batch[sent..], timer)))
    case Returning(unsent, timer) =>
      With(st, s, Finish(x, timer)).(q := if ok then Freed(st.q, set id | id in unsent) else st.q)
    case Replying =>
      With(st, s, x.(pc := if ok then Idle else Closing))
    case Closing =>
      if x.bound.None? then With(st, s, x.(pc := Dead))
      else With(st, s, x.(pc := ClosingRequeue(x.bound.value))).(hub := Hub.Unregistered(st.hub, x.bound.value, s))
    case ClosingRequeue(node) =>
      With(st, s, x.(pc := Dead)).(q := if ok then FreedNode(st.q, node) else st.q)
    case Idle => st
    case Dead => st
  }

  function OnTimer(st: State, s: nat): State
    requires s in st.sessions
  {
    var x := st.sessions[s];
    if OpensByTimeout(x.gate, st.now) then
      With(st, s, x.(gate := x.gate.(ready := true), pc := if x.bound.Some? then Registering(true) else Idle)).(
        trace := st.trace + [Opened(s, x.binding, x.bound, ByTimeout(x.gate.boundAt.value, st.now))])
    else st
  }

  predicate Waiting(st: State, s: nat) {
    s in st.sessions && st.sessions[s].pc.Idle?
  }

  function Next(st: State, a: Action): State {
    match a
    case Wait(ms) => st.(now := st.now + ms)
    case PutConfig(node) => st.(generations := st.generations[node := Generation(st, node) + 1])
    case Enqueue(node, run, spec, params) => st.(q := Enqueued(st.q, node, run, spec, params))
    case MarkLive(node, run) => st.(q := MarkedBy(st.q, node, run, st.now))
    case Open(s) => if s in st.sessions then st else With(st, s, Session(None, NewGate(st.timeout), 0, Idle))
    case Receive(s, msg) => if Waiting(st, s) then OnMessage(st, s, msg) else st
    case Advance(s, ok) => if s in st.sessions then OnAdvance(st, s, ok) else st
    case TimerFires(s) => if Waiting(st, s) then OnTimer(st, s) else st
    case StreamEnds(s) => if Waiting(st, s) then With(st, s, st.sessions[s].(pc := Closing)) else st
    case Restart => st.(hub := map[], sessions := map s | s in st.sessions :: st.sessions[s].(pc := Dead))
  }

  /** The state after any finite list of actions; an action that is not enabled does nothing. */
  function Run(st: State, actions: seq<Action>): State {
    if actions == [] then st else Next(Run(st, actions[..|actions| - 1]), actions[|actions| - 1])
  }

  // ---------------------------------------------------------------- invariants

  predicate Gone(pc: Pc) {
    pc.ClosingRequeue? || pc.Dead?
  }

  /** Session `x` still has the node as its own, or is about to give it up in the hub. */
  predicate Owns(x: Session, node: string) {
    (x.bound == Some(node) && !Gone(x.pc)) || (x.pc.Unregistering? && x.pc.left == node)
  }

  /** A registered sender belongs to a running session of that node whose gate is ready. */
  ghost predicate HubSafe(st: State) {
    forall n :: n in st.hub ==>
      st.hub[n] in st.sessions && st.sessions[st.hub[n]].gate.ready && Owns(st.sessions[st.hub[n]], n)
  }

  ghost predicate IdsOfNode(q: History, ids: seq<nat>, node: Option<string>) {
    forall id :: id in ids ==> id in q.issued && node == Some(q.issued[id].node)
  }

  ghost predicate SessionOk(st: State, x: Session) {
    && (x.bound.Some? ==> x.gate.boundAt.Some?)
    && (x.gate.ready || x.gate.boundAt.Some? ==> NodeOf(x).Some? || x.pc.Dead?)
    && x.gate.timeout == st.timeout
    && (match x.pc
        case Registering(_) => x.bound.Some? && x.gate.ready
        case Claiming(_) => x.bound.Some? && x.gate.ready
        case Sending(batch, sent, _) => x.bound.Some? && x.gate.ready && sent <= |batch| && IdsOfNode(st.q, batch, x.bound)
        case Returning(_, _) => x.bound.Some? && x.gate.ready
        case Unregistering(_, _) => x.bound.None?
        case LeaveRequeue(_, _) => x.bound.None?
        case Acking(node, run) => Issue(node, run) in st.q.results
        case _ => true)
  }

  ghost predicate CauseLegal(c: Cause, timeout: nat) {
    match c
    case ByAck(acked, center, readOk, current) => acked >= center && center == (if readOk then current else 0)
    case ByTimeout(boundAt, at) => at >= boundAt + timeout
  }

  ghost predicate NoteOk(st: State, n: Note) {
    match n
    case Opened(s, b, _, cause) =>
      && CauseLegal(cause, st.timeout)
      && s in st.sessions && b <= st.sessions[s].binding
      && (b == st.sessions[s].binding ==> st.sessions[s].gate.ready)
    case Frame(_, _, boundTo, id, gateReady) =>
      gateReady && id in st.q.issued && boundTo == Some(st.q.issued[id].node)
  }

  ghost predicate OpenedOnce(trace: seq<Note>) {
    forall i, j :: 0 <= i < j < |trace| && trace[i].Opened? && trace[j].Opened? ==>
      trace[i].session != trace[j].session || trace[i].binding != trace[j].binding
  }

  ghost predicate SessionInv(st: State) {
    && HubSafe(st)
    && (forall s :: s in st.sessions ==> SessionOk(st, st.sessions[s]))
    && (forall n :: n in st.trace ==> NoteOk(st, n))
    && OpenedOnce(st.trace)
  }

  ghost predicate Inv(st: State) {
    SessionInv(st) && QueueHistory.Inv(st.q, st.now)
  }

  // ---------------------------------------------------------------- one session moves

  ghost predicate Grows(q: History, r: History) {
    && (forall id :: id in q.issued ==> id in r.issued && r.issued[id] == q.issued[id])
    && (forall i :: i in q.results ==> i in r.results)
  }

  /** What the step of session `s` leaves of the other invariants, once its own part is shown. */
  lemma MoveKeeps(st: State, after: State, s: nat, x: Session)
    requires SessionInv(st) && s in st.sessions
    requires after.sessions == st.sessions[s := x] && after.timeout == st.timeout
    requires Grows(st.q, after.q)
    requires HubSafe(after) && SessionOk(after, x)
    requires x.binding >= st.sessions[s].binding
    requires x.binding == st.sessions[s].binding && st.sessions[s].gate.ready ==> x.gate.ready
    requires
      || after.trace == st.trace
      || exists n :: after.trace == st.trace + [n] && NoteOk(after, n)
           && (n.Opened? ==> n.session == s && n.binding == st.sessions[s].binding && !st.sessions[s].gate.ready)
    ensures SessionInv(after)
  {
    forall t | t in after.sessions ensures SessionOk(after, after.sessions[t]) {
      if t != s {
        assert SessionOk(st, st.sessions[t]);
      }
    }
    forall n | n in st.trace ensures NoteOk(after, n) {
      assert NoteOk(st, n);
    }
    if after.trace != st.trace {
      forall i | 0 <= i < |st.trace| ensures NoteOk(st, st.trace[i]) {
        assert st.trace[i] in st.trace;
      }
    }
  }

  lemma HandledOk(st: State, x: Session, node: Option<string>)
    requires SessionOk(st, x) && NodeOf(x) == x.bound && !x.pc.Dead?
    ensures SessionOk(st, Handled(st, x, node))
    ensures Handled(st, x, node).binding >= x.binding
    ensures Handled(st, x, node).binding == x.binding && x.gate.ready ==> Handled(st, x, node).gate.ready
  {
  }

  /** Handling a message keeps the session in charge of every node it is registered for. */
  lemma HandledHub(st: State, s: nat, hub: map<string, nat>, node: Option<string>)
    requires SessionInv(st) && s in st.sessions && !st.sessions[s].pc.Unregistering? && !Gone(st.sessions[s].pc)
    requires forall n :: n in hub ==> n in st.hub && hub[n] == st.hub[n]
    ensures HubSafe(With(st, s, Handled(st, st.sessions[s], node)).(hub := hub))
  {
  }

  lemma MessageKeeps(st: State, s: nat, msg: Message)
    requires SessionInv(st) && Waiting(st, s)
    ensures SessionInv(OnMessage(st, s, msg))
  {
    match msg
    case Register(node, accepted) =>
      HandledHub(st, s, st.hub, None);
      MoveKeeps(st, OnMessage(st, s, msg), s, OnMessage(st, s, msg).sessions[s]);
    case Report(node, run, outcome) => ReportKeeps(st, s, node, run, outcome);
    case NodeReady(node, acked, readOk) => NodeReadyKeeps(st, s, node, acked, readOk);
    case Other(who) =>
      HandledHub(st, s, st.hub, who);
      HandledOk(st, st.sessions[s], who);
      MoveKeeps(st, OnMessage(st, s, msg), s, OnMessage(st, s, msg).sessions[s]);
  }

  lemma ReportKeeps(st: State, s: nat, node: string, run: string, outcome: StoreOutcome)
    requires SessionInv(st) && Waiting(st, s)
    ensures SessionInv(OnMessage(st, s, Report(node, run, outcome)))
  {
    var after := OnMessage(st, s, Report(node, run, outcome));
    HandledHub(st, s, st.hub, Some(node));
    HandledOk(st, st.sessions[s], Some(node));
    assert SessionOk(st, st.sessions[s]);
    assert SessionOk(after, after.sessions[s]);
    assert HubSafe(after);
    MoveKeeps(st, after, s, after.sessions[s]);
  }

  lemma NodeReadyKeeps(st: State, s: nat, node: string, acked: int, readOk: bool)
    requires SessionInv(st) && Waiting(st, s)
    ensures SessionInv(OnMessage(st, s, Message.NodeReady(node, acked, readOk)))
  {
    var x := st.sessions[s];
    var after := OnMessage(st, s, Message.NodeReady(node, acked, readOk));
    assert SessionOk(st, x);
    if after.trace != st.trace {
      assert NoteOk(after, after.trace[|st.trace|]);
    }
    MoveKeeps(st, after, s, after.sessions[s]);
  }

  lemma TimerKeeps(st: State, s: nat)
    requires SessionInv(st) && Waiting(st, s)
    ensures SessionInv(OnTimer(st, s))
  {
    var x := st.sessions[s];
    var after := OnTimer(st, s);
    assert SessionOk(st, x);
    if OpensByTimeout(x.gate, st.now) {
      assert NoteOk(after, after.trace[|st.trace|]);
      MoveKeeps(st, after, s, after.sessions[s]);
    }
  }

  /** A hub call that only drops entries, by a session that keeps what it owns elsewhere. */
  lemma DropKeeps(st: State, s: nat, x: Session, hub: map<string, nat>)
    requires SessionInv(st) && s in st.sessions
    requires SessionOk(st, x) && x.gate == st.sessions[s].gate && x.binding == st.sessions[s].binding
    requires forall n :: n in hub ==> n in st.hub && hub[n] == st.hub[n]
    requires forall n :: n in hub && hub[n] == s ==> Owns(x, n)
    ensures SessionInv(With(st, s, x).(hub := hub))
  {
    MoveKeeps(st, With(st, s, x).(hub := hub), s, x);
  }

  /** A queue call that follows one of the handlers. */
  lemma HandledKeeps(st: State, s: nat, node: Option<string>, q: History)
    requires SessionInv(st) && s in st.sessions && !Gone(st.sessions[s].pc)
    requires !st.sessions[s].pc.Unregistering? && !st.sessions[s].pc.LeaveRequeue?
    requires Grows(st.q, q)
    ensures SessionInv(With(st, s, Handled(st, st.sessions[s], node)).(q := q))
  {
    var x := st.sessions[s];
    var after := With(st, s, Handled(st, x, node)).(q := q);
    assert SessionOk(st, x);
    HandledHub(st, s, st.hub, node);
    HandledOk(st, x, node);
    MoveKeeps(st, after, s, Handled(st, x, node));
  }

  /** A step that keeps the session's binding and leaves the hub alone. */
  lemma StayKeeps(st: State, s: nat, x: Session, q: History)
    requires SessionInv(st) && s in st.sessions && Grows(st.q, q)
    requires x.(pc := st.sessions[s].pc) == st.sessions[s]
    requires SessionOk(With(st, s, x).(q := q), x)
    requires !st.sessions[s].pc.Unregistering? && (Gone(x.pc) ==> Gone(st.sessions[s].pc) || x.bound.None?)
    ensures SessionInv(With(st, s, x).(q := q))
  {
    MoveKeeps(st, With(st, s, x).(q := q), s, x);
  }

  lemma LeaveKeeps(st: State, s: nat, ok: bool)
    requires SessionInv(st) && s in st.sessions && st.sessions[s].pc.LeaveRequeue?
    ensures SessionInv(OnAdvance(st, s, ok))
  {
    var after := OnAdvance(st, s, ok);
    assert SessionOk(st, st.sessions[s]);
    MoveKeeps(st, after, s, after.sessions[s]);
  }

  lemma RegisterKeeps(st: State, s: nat, ok: bool)
    requires SessionInv(st) && s in st.sessions && st.sessions[s].pc.Registering?
    ensures SessionInv(OnAdvance(st, s, ok))
  {
    var after := OnAdvance(st, s, ok);
    assert SessionOk(st, st.sessions[s]);
    MoveKeeps(st, after, s, after.sessions[s]);
  }

  lemma ClaimStepKeeps(st: State, s: nat, ok: bool)
    requires Inv(st) && s in st.sessions && st.sessions[s].pc.Claiming?
    ensures SessionInv(OnAdvance(st, s, ok))
  {
    var x := st.sessions[s];
    assert SessionOk(st, x);
    var after := OnAdvance(st, s, ok);
    AvailableExact(st.q.rows, x.bound.value, st.now, ACK_TIMEOUT, st.q.nextId);
    assert IdsOfNode(st.q, Batch(st.q, x.bound.value, st.now), x.bound);
    StayKeeps(st, s, after.sessions[s], after.q);
  }

  lemma SendKeeps(st: State, s: nat, ok: bool)
    requires SessionInv(st) && s in st.sessions && st.sessions[s].pc.Sending?
    ensures SessionInv(OnAdvance(st, s, ok))
  {
    var x := st.sessions[s];
    assert SessionOk(st, x);
    if x.pc.sent < |x.pc.batch| && ok {
      FrameKeeps(st, s);
    } else {
      var after := OnAdvance(st, s, ok);
      StayKeeps(st, s, after.sessions[s], st.q);
    }
  }

  lemma FrameKeeps(st: State, s: nat)
    requires SessionInv(st) && s in st.sessions && st.sessions[s].pc.Sending?
    requires st.sessions[s].pc.sent < |st.sessions[s].pc.batch|
    ensures SessionInv(OnAdvance(st, s, true))
  {
    var x := st.sessions[s];
    assert SessionOk(st, x);
    var after := OnAdvance(st, s, true);
    var frame := Frame(s, x.binding, x.bound, x.pc.batch[x.pc.sent], x.gate.ready);
    assert after.trace == st.trace + [frame];
    assert NoteOk(after, frame);
    MoveKeeps(st, after, s, after.sessions[s]);
  }

  lemma HubStepKeeps(st: State, s: nat, ok: bool)
    requires SessionInv(st) && s in st.sessions
    requires st.sessions[s].pc.Evicting? || st.sessions[s].pc.Unregistering? || st.sessions[s].pc.Closing?
    ensures SessionInv(OnAdvance(st, s, ok))
  {
    var after := OnAdvance(st, s, ok);
    assert SessionOk(st, st.sessions[s]);
    DropKeeps(st, s, after.sessions[s], after.hub);
  }

  lemma QueueStepKeeps(st: State, s: nat, ok: bool)
    requires SessionInv(st) && s in st.sessions
    requires st.sessions[s].pc.Returning? || st.sessions[s].pc.Replying? || st.sessions[s].pc.ClosingRequeue?
    ensures SessionInv(OnAdvance(st, s, ok))
  {
    var after := OnAdvance(st, s, ok);
    assert SessionOk(st, st.sessions[s]);
    StayKeeps(st, s, after.sessions[s], after.q);
  }

  lemma AdvanceKeeps(st: State, s: nat, ok: bool)
    requires Inv(st) && s in st.sessions
    ensures SessionInv(OnAdvance(st, s, ok))
  {
    match st.sessions[s].pc
    case RegisterRequeue(node) => HandledKeeps(st, s, Some(node), OnAdvance(st, s, ok).q);
    case Acking(node, run) => HandledKeeps(st, s, Some(node), OnAdvance(st, s, ok).q);
    case LeaveRequeue(left, next) => LeaveKeeps(st, s, ok);
    case Registering(timer) => RegisterKeeps(st, s, ok);
    case Claiming(timer) => ClaimStepKeeps(st, s, ok);
    case Sending(batch, sent, timer) => SendKeeps(st, s, ok);
    case Evicting(_) => HubStepKeeps(st, s, ok);
    case Unregistering(_, _) => HubStepKeeps(st, s, ok);
    case Closing => HubStepKeeps(st, s, ok);
    case Returning(_, _) => QueueStepKeeps(st, s, ok);
    case Replying => QueueStepKeeps(st, s, ok);
    case ClosingRequeue(_) => QueueStepKeeps(st, s, ok);
    case Idle =>
    case Dead =>
  }

  // ---------------------------------------------------------------- runs

  /** The queue operation an action performs. */
  function OperationOf(st: State, a: Action): Operation {
    match a
    case Enqueue(node, run, spec, params) => Enq(node, run, spec, params)
    case MarkLive(node, run) => Mark(node, run)
    case Receive(s, msg) =>
      if Waiting(st, s) && msg.Report? && !msg.outcome.NotStored? then Store(msg.node, msg.run) else Keep
    case Advance(s, ok) =>
      if s !in st.sessions || !ok then Keep
      else
        var x := st.sessions[s];
        (match x.pc
         case RegisterRequeue(node) => Free(InFlightIds(st.q.rows, node))
         case Acking(node, run) => Ack(node, run)
         case LeaveRequeue(left, _) => Free(InFlightIds(st.q.rows, left))
         case Claiming(_) => if x.bound.Some? then Claim(x.bound.value) else Keep
         case Returning(unsent, _) => Free(set id | id in unsent)
         case ClosingRequeue(node) => Free(InFlightIds(st.q.rows, node))
         case _ => Keep)
    case _ => Keep
  }

  lemma QueueMoves(st: State, a: Action)
    ensures Next(st, a).q == Apply(st.q, OperationOf(st, a), st.now)
    ensures st.now <= Next(st, a).now
  {
    match a
    case Advance(s, ok) =>
      if s in st.sessions {
        AdvanceMovesQueue(st, s, ok);
      }
    case Receive(s, msg) =>
      if Waiting(st, s) {
        MessageMovesQueue(st, s, msg);
      }
    case _ =>
  }

  lemma AdvanceMovesQueue(st: State, s: nat, ok: bool)
    requires s in st.sessions
    ensures OnAdvance(st, s, ok).q == Apply(st.q, OperationOf(st, Advance(s, ok)), st.now)
    ensures OnAdvance(st, s, ok).now == st.now
  {
  }

  lemma MessageMovesQueue(st: State, s: nat, msg: Message)
    requires Waiting(st, s)
    ensures OnMessage(st, s, msg).q == Apply(st.q, OperationOf(st, Receive(s, msg)), st.now)
    ensures OnMessage(st, s, msg).now == st.now
  {
  }

  lemma QueueKeeps(st: State, a: Action)
    requires Inv(st)
    ensures QueueHistory.Inv(Next(st, a).q, Next(st, a).now)
  {
    QueueMoves(st, a);
    var op := OperationOf(st, a);
    if op.Ack? {
      assert SessionOk(st, st.sessions[a.session]);
    }
    ApplyKeeps(st.q, op, st.now);
    LaterKeeps(Apply(st.q, op, st.now), st.now, Next(st, a).now);
  }

  lemma NextKeeps(st: State, a: Action)
    requires Inv(st)
    ensures Inv(Next(st, a))
  {
    QueueKeeps(st, a);
    match a
    case Receive(s, msg) =>
      if Waiting(st, s) {
        MessageKeeps(st, s, msg);
      }
    case Advance(s, ok) =>
      if s in st.sessions {
        AdvanceKeeps(st, s, ok);
      }
    case TimerFires(s) =>
      if Waiting(st, s) {
        TimerKeeps(st, s);
      }
    case StreamEnds(s) =>
      if Waiting(st, s) {
        assert SessionOk(st, st.sessions[s]);
        StayKeeps(st, s, st.sessions[s].(pc := Closing), st.q);
      }
    case _ => OtherKeeps(st, a);
  }

  lemma OtherKeeps(st: State, a: Action)
    requires SessionInv(st) && (a.Wait? || a.PutConfig? || a.Enqueue? || a.MarkLive? || a.Open? || a.Restart?)
    requires QueueHistory.RowsIssued(st.q)
    ensures SessionInv(Next(st, a))
  {
    var after := Next(st, a);
    forall s | s in after.sessions ensures SessionOk(after, after.sessions[s]) {
      if s in st.sessions {
        assert SessionOk(st, st.sessions[s]);
      }
    }
    forall n | n in st.trace ensures NoteOk(after, n) {
      assert NoteOk(st, n);
    }
  }

  // ---------------------------------------------------------------- an open gate was opened

  /** The node a session serves, or is just leaving. */
  function NodeOf(x: Session): Option<string> {
    match x.pc
    case Unregistering(left, _) => Some(left)
    case LeaveRequeue(left, _) => Some(left)
    case _ => x.bound
  }

  /** Before position `n` the gate was opened in this binding of the session, for this node. */
  ghost predicate WasOpened(trace: seq<Note>, n: nat, s: nat, binding: nat, node: Option<string>)
    requires n <= |trace|
  {
    exists i :: 0 <= i < n && Opens(trace[i], s, binding, node)
  }

  predicate Opens(n: Note, s: nat, binding: nat, node: Option<string>) {
    n.Opened? && n.session == s && n.binding == binding && n.boundTo == node
  }

  ghost predicate GateHistory(trace: seq<Note>, s: nat, x: Session) {
    x.gate.ready && NodeOf(x).Some? ==> WasOpened(trace, |trace|, s, x.binding, NodeOf(x))
  }

  ghost predicate FrameHistory(trace: seq<Note>, i: nat)
    requires i < |trace|
  {
    trace[i].Frame? ==> WasOpened(trace, i, trace[i].session, trace[i].binding, trace[i].boundTo)
  }

  /** No gate stands open, and no frame is sent, but after an opening in the same binding for the same node. */
  ghost predicate Openings(st: State) {
    && (forall s :: s in st.sessions ==> GateHistory(st.trace, s, st.sessions[s]))
    && (forall i :: 0 <= i < |st.trace| ==> FrameHistory(st.trace, i))
  }

  lemma OpenedStays(trace: seq<Note>, more: seq<Note>, n: nat, s: nat, binding: nat, node: Option<string>)
    requires n <= |trace| && WasOpened(trace, n, s, binding, node)
    ensures WasOpened(trace + more, n, s, binding, node) && WasOpened(trace + more, |trace + more|, s, binding, node)
  {
    var i :| 0 <= i < n && Opens(trace[i], s, binding, node);
    assert Opens((trace + more)[i], s, binding, node);
  }

  /** A step of session `s` that adds at most one note, keeps an open gate only for its node and
      binding or opens it, and sends frames only through an open gate. */
  lemma StepOpenings(st: State, after: State, s: nat, more: seq<Note>)
    requires Openings(st) && s in st.sessions && s in after.sessions
    requires after.sessions == st.sessions[s := after.sessions[s]] && after.trace == st.trace + more && |more| <= 1
    requires var x, y := st.sessions[s], after.sessions[s];
      y.gate.ready && NodeOf(y).Some? ==>
        || (x.gate.ready && y.binding == x.binding && NodeOf(y) == NodeOf(x))
        || (more != [] && Opens(more[0], s, y.binding, NodeOf(y)))
    requires more != [] && more[0].Frame? ==>
      var x := st.sessions[s];
      x.gate.ready && x.bound.Some? && NodeOf(x) == x.bound
      && more[0].session == s && more[0].binding == x.binding && more[0].boundTo == x.bound
    ensures Openings(after)
  {
    forall t | t in after.sessions ensures GateHistory(after.trace, t, after.sessions[t]) {
      var y := after.sessions[t];
      if y.gate.ready && NodeOf(y).Some? {
        if t == s && !(st.sessions[s].gate.ready && y.binding == st.sessions[s].binding && NodeOf(y) == NodeOf(st.sessions[s])) {
          assert Opens(after.trace[|st.trace|], s, y.binding, NodeOf(y));
        } else {
          assert GateHistory(st.trace, t, st.sessions[t]);
          OpenedStays(st.trace, more, |st.trace|, t, y.binding, NodeOf(y));
        }
      }
    }
    forall i | 0 <= i < |after.trace| && after.trace[i].Frame? ensures FrameHistory(after.trace, i) {
      var f := after.trace[i];
      if i < |st.trace| {
        assert FrameHistory(st.trace, i);
        OpenedStays(st.trace, more, i, f.session, f.binding, f.boundTo);
      } else {
        assert GateHistory(st.trace, s, st.sessions[s]);
        OpenedStays(st.trace, more, |st.trace|, f.session, f.binding, f.boundTo);
      }
    }
  }

  lemma HandledOpenings(st: State, x: Session, node: Option<string>)
    ensures var y := Handled(st, x.(pc := Idle), node);
      y.gate.ready && NodeOf(y).Some? ==> x.gate.ready && y.binding == x.binding && NodeOf(y) == x.bound
  {
  }

  lemma MessageOpenings(st: State, s: nat, msg: Message)
    requires Openings(st) && Waiting(st, s)
    ensures Openings(OnMessage(st, s, msg))
  {
    var x, after := st.sessions[s], OnMessage(st, s, msg);
    forall node ensures var y := Handled(st, x, node);
      y.gate.ready && NodeOf(y).Some? ==> x.gate.ready && y.binding == x.binding && NodeOf(y) == x.bound {
      assert x == x.(pc := Idle);
      HandledOpenings(st, x, node);
    }
    StepOpenings(st, after, s, after.trace[|st.trace|..]);
  }

  lemma TimerOpenings(st: State, s: nat)
    requires Openings(st) && Waiting(st, s)
    ensures Openings(OnTimer(st, s))
  {
    var after := OnTimer(st, s);
    if OpensByTimeout(st.sessions[s].gate, st.now) {
      StepOpenings(st, after, s, after.trace[|st.trace|..]);
    }
  }

  /** The steps after which the session may have left or changed its node. */
  lemma HandledStepOpenings(st: State, s: nat, ok: bool)
    requires Openings(st) && s in st.sessions && SessionOk(st, st.sessions[s])
    requires st.sessions[s].pc.RegisterRequeue? || st.sessions[s].pc.Acking? || st.sessions[s].pc.LeaveRequeue?
    ensures Openings(OnAdvance(st, s, ok))
  {
    var x, after := st.sessions[s], OnAdvance(st, s, ok);
    if !x.pc.LeaveRequeue? {
      var node := Some(if x.pc.RegisterRequeue? then x.pc.node else x.pc.node);
      assert Handled(st, x, node) == Handled(st, x.(pc := Idle), node);
      HandledOpenings(st, x, node);
    }
    StepOpenings(st, after, s, []);
  }

  lemma AdvanceOpenings(st: State, s: nat, ok: bool)
    requires Openings(st) && s in st.sessions && SessionOk(st, st.sessions[s])
    ensures Openings(OnAdvance(st, s, ok))
  {
    var x, after := st.sessions[s], OnAdvance(st, s, ok);
    if x.pc.RegisterRequeue? || x.pc.Acking? || x.pc.LeaveRequeue? {
      HandledStepOpenings(st, s, ok);
    } else if x.pc.Sending? {
      StepOpenings(st, after, s, after.trace[|st.trace|..]);
    } else {
      QuietStepOpenings(st, s, ok);
    }
  }

  lemma QuietStepOpenings(st: State, s: nat, ok: bool)
    requires Openings(st) && s in st.sessions && SessionOk(st, st.sessions[s])
    requires !st.sessions[s].pc.RegisterRequeue? && !st.sessions[s].pc.Acking? && !st.sessions[s].pc.LeaveRequeue?
    requires !st.sessions[s].pc.Sending?
    ensures Openings(OnAdvance(st, s, ok))
  {
    var x, after := st.sessions[s], OnAdvance(st, s, ok);
    assert after.trace == st.trace + [];
    assert after.sessions[s].gate == x.gate && after.sessions[s].binding == x.binding && NodeOf(after.sessions[s]) == NodeOf(x);
    StepOpenings(st, after, s, []);
  }

  lemma OtherOpenings(st: State, a: Action)
    requires Openings(st) && !a.Receive? && !a.Advance? && !a.TimerFires?
    requires a.StreamEnds? || a.Wait? || a.PutConfig? || a.Enqueue? || a.MarkLive? || a.Open? || a.Restart?
    requires forall s :: s in st.sessions ==> SessionOk(st, st.sessions[s])
    ensures Openings(Next(st, a))
  {
    var after := Next(st, a);
    forall s | s in after.sessions ensures GateHistory(after.trace, s, after.sessions[s]) {
      if s in st.sessions {
        assert GateHistory(st.trace, s, st.sessions[s]);
        assert SessionOk(st, st.sessions[s]);
      }
    }
    forall i | 0 <= i < |after.trace| ensures FrameHistory(after.trace, i) {
      assert FrameHistory(st.trace, i);
    }
  }

  lemma NextOpenings(st: State, a: Action)
    requires SessionInv(st) && Openings(st)
    ensures Openings(Next(st, a))
  {
    match a
    case Receive(s, msg) =>
      if Waiting(st, s) {
        MessageOpenings(st, s, msg);
      }
    case Advance(s, ok) =>
      if s in st.sessions {
        AdvanceOpenings(st, s, ok);
      }
    case TimerFires(s) =>
      if Waiting(st, s) {
        TimerOpenings(st, s);
      }
    case _ => OtherOpenings(st, a);
  }

  lemma {:induction false} RunOpenings(timeout: nat, actions: seq<Action>)
    ensures Openings(Run(Init(timeout), actions))
    decreases |actions|
  {
    if actions != [] {
      var front := actions[..|actions| - 1];
      RunOpenings(timeout, front);
      RunKeeps(Init(timeout), front);
      NextOpenings(Run(Init(timeout), front), actions[|actions| - 1]);
    }
  }

  lemma ReachableOpenings(st: State)
    requires Reachable(st)
    ensures Openings(st)
  {
    var timeout: nat, actions :| st == Run(Init(timeout), actions);
    RunOpenings(timeout, actions);
  }

  // ---------------------------------------------------------------- every run

  lemma {:induction false} RunKeeps(st: State, actions: seq<Action>)
    requires Inv(st)
    ensures Inv(Run(st, actions))
    decreases |actions|
  {
    if actions != [] {
      RunKeeps(st, actions[..|actions| - 1]);
      NextKeeps(Run(st, actions[..|actions| - 1]), actions[|actions| - 1]);
    }
  }

  ghost predicate Reachable(st: State) {
    exists timeout: nat, actions :: st == Run(Init(timeout), actions)
  }

  lemma ReachableInv(st: State)
    requires Reachable(st)
    ensures Inv(st)
  {
    var timeout: nat, actions :| st == Run(Init(timeout), actions);
    RunKeeps(Init(timeout), actions);
  }

  // ---------------------------------------------------------------- what always holds

  /** A node registered in the hub is served by a session with an open gate that is bound to exactly
      this node, or has just unbound it on a rebind. Unless its stream has ended it is running; then,
      and on a rebind, its next step drops the entry. The gate was opened for this node, in the
      session's present binding. */
  lemma HubServesReadyOwner(st: State, node: string)
    requires Reachable(st) && node in st.hub
    ensures st.hub[node] in st.sessions
    ensures var x := st.sessions[st.hub[node]];
      && x.gate.ready && !Gone(x.pc)
      && (if x.pc.Unregistering? then x.bound.None? && x.pc.left == node else x.bound == Some(node))
    ensures var x := st.sessions[st.hub[node]];
      x.pc.Unregistering? || x.pc.Closing? ==> forall ok :: node !in Next(st, Advance(st.hub[node], ok)).hub
    ensures WasOpened(st.trace, |st.trace|, st.hub[node], st.sessions[st.hub[node]].binding, Some(node))
  {
    ReachableInv(st);
    ReachableOpenings(st);
    assert SessionOk(st, st.sessions[st.hub[node]]);
    assert GateHistory(st.trace, st.hub[node], st.sessions[st.hub[node]]);
  }

  /** A session loses its hub entry only by its own step, by a Register for the node, by another
      ready session of the node taking over, or by a restart; never by a late unregister. */
  lemma OnlyTakeoverDisplaces(st: State, a: Action, node: string)
    requires Reachable(st) && node in st.hub
    requires !(node in Next(st, a).hub && Next(st, a).hub[node] == st.hub[node])
    ensures a.Restart? || (a.Advance? && a.session in st.sessions)
    ensures a.Advance? ==>
      var x := st.sessions[a.session];
      || a.session == st.hub[node]
      || x.pc == Evicting(node)
      || (x.pc.Registering? && x.bound == Some(node) && x.gate.ready)
  {
    ReachableInv(st);
    if a.Advance? && a.session in st.sessions {
      assert SessionOk(st, st.sessions[a.session]);
      AdvanceMovesHub(st, a.session, a.ok, node);
    } else {
      OnlyAdvanceMovesHub(st, a);
    }
  }

  lemma AdvanceMovesHub(st: State, s: nat, ok: bool, node: string)
    requires s in st.sessions && node in st.hub
    requires !(node in OnAdvance(st, s, ok).hub && OnAdvance(st, s, ok).hub[node] == st.hub[node])
    ensures var x := st.sessions[s];
      s == st.hub[node] || x.pc == Evicting(node) || (x.pc.Registering? && x.bound == Some(node))
  {
  }

  lemma OnlyAdvanceMovesHub(st: State, a: Action)
    ensures Next(st, a).hub == st.hub || a.Restart? || (a.Advance? && a.session in st.sessions)
  {
  }

  /** At the deadline, or on an acknowledgement that is current unless the generation could not be
      read, and not negative then. */
  ghost predicate OpenedRightly(c: Cause, timeout: nat) {
    match c
    case ByAck(acked, _, readOk, current) => if readOk then acked >= current else acked >= 0
    case ByTimeout(boundAt, at) => at >= boundAt + timeout
  }

  /** Every opening of a gate is right. */
  lemma GateOpensRightly(st: State, i: nat)
    requires Reachable(st) && i < |st.trace| && st.trace[i].Opened?
    ensures OpenedRightly(st.trace[i].cause, st.timeout)
  {
    ReachableInv(st);
    assert st.trace[i] in st.trace;
    assert NoteOk(st, st.trace[i]);
  }

  /** A gate opens at most once per binding, and rightly. */
  lemma GateOpensOncePerBinding(st: State, i: nat, j: nat)
    requires Reachable(st) && i < j < |st.trace| && st.trace[i].Opened? && st.trace[j].Opened?
    ensures st.trace[i].session != st.trace[j].session || st.trace[i].binding != st.trace[j].binding
    ensures OpenedRightly(st.trace[i].cause, st.timeout) && OpenedRightly(st.trace[j].cause, st.timeout)
  {
    ReachableInv(st);
    GateOpensRightly(st, i);
    GateOpensRightly(st, j);
  }

  /** A NodeReady opens the gate behind the center's generation exactly when that generation cannot
      be read, and the acknowledged one is not negative. */
  lemma OpensBehindOnlyUnread(st: State, s: nat, node: string, acked: int, readOk: bool)
    requires s in st.sessions
    ensures var x, after := st.sessions[s], OnMessage(st, s, Message.NodeReady(node, acked, readOk));
      (!x.gate.ready && after.sessions[s].gate.ready && acked < Generation(st, node))
      <==> (x.bound == Some(node) && !x.gate.ready && !readOk && 0 <= acked < Generation(st, node))
  {
  }

  /** Generation 1, a session bound to the node, an acknowledgement of 0 and a failed read: it opens. */
  lemma UnreadGenerationOpens(timeout: nat)
    ensures var st := Run(Init(timeout), [PutConfig("n"), Open(0), Receive(0, Other(Some("n"))), Advance(0, true)]);
      && Reachable(st) && Waiting(st, 0) && Generation(st, "n") == 1 && !st.sessions[0].gate.ready
      && Next(st, Receive(0, Message.NodeReady("n", 0, false))).sessions[0].gate.ready
  {
    var a1, a2, a3, a4 := PutConfig("n"), Open(0), Receive(0, Other(Some("n"))), Advance(0, true);
    OpenedSession(timeout);
    RunOne(Init(timeout), [a1, a2], a3);
    RunOne(Init(timeout), [a1, a2, a3], a4);
    assert [a1, a2] + [a3] == [a1, a2, a3] && [a1, a2, a3] + [a4] == [a1, a2, a3, a4];
    BoundSession(Run(Init(timeout), [a1, a2]));
  }

  lemma OpenedSession(timeout: nat)
    ensures Run(Init(timeout), [PutConfig("n"), Open(0)])
      == Init(timeout).(generations := map["n" := 1], sessions := map[0 := Session(None, NewGate(timeout), 0, Idle)])
  {
    var start, a1, a2 := Init(timeout), PutConfig("n"), Open(0);
    RunOne(start, [], a1);
    RunOne(start, [a1], a2);
    assert Run(start, []) == start;
    assert [] + [a1] == [a1] && [a1] + [a2] == [a1, a2];
  }

  lemma BoundSession(st: State)
    requires 0 in st.sessions && st.sessions[0] == Session(None, NewGate(st.timeout), 0, Idle)
    requires Generation(st, "n") == 1
    ensures var after := Next(Next(st, Receive(0, Other(Some("n")))), Advance(0, true));
      && Waiting(after, 0) && Generation(after, "n") == 1 && !after.sessions[0].gate.ready
      && Next(after, Receive(0, Message.NodeReady("n", 0, false))).sessions[0].gate.ready
  {
    var x := st.sessions[0];
    var bound := Next(st, Receive(0, Other(Some("n"))));
    assert bound == With(st, 0, BindTo(st, x, "n"));
    var after := Next(bound, Advance(0, true));
    assert after.sessions[0] == BindTo(st, x, "n").(pc := Idle);
    OpensBehindOnlyUnread(after, 0, "n", 0, false);
  }

  lemma RunOne(st: State, actions: seq<Action>, a: Action)
    ensures Run(st, actions + [a]) == Next(Run(st, actions), a)
  {
    assert (actions + [a])[..|actions|] == actions;
  }

  /** Every queued frame was sent by a session bound to the row's node, after its gate was opened in
      that very binding for that node. */
  lemma FramesGoToReadyOwner(st: State, i: nat)
    requires Reachable(st) && i < |st.trace| && st.trace[i].Frame?
    ensures var f := st.trace[i];
      && f.gateReady && f.id in st.q.issued && f.boundTo == Some(st.q.issued[f.id].node)
      && WasOpened(st.trace, i, f.session, f.binding, f.boundTo)
  {
    ReachableInv(st);
    ReachableOpenings(st);
    assert st.trace[i] in st.trace;
    assert NoteOk(st, st.trace[i]);
    assert FrameHistory(st.trace, i);
  }

  /** An open gate was opened in the session's present binding, for the node it has or is just leaving. */
  lemma OpenGateWasOpened(st: State, s: nat)
    requires Reachable(st) && s in st.sessions && st.sessions[s].gate.ready && !st.sessions[s].pc.Dead?
    ensures NodeOf(st.sessions[s]).Some?
    ensures WasOpened(st.trace, |st.trace|, s, st.sessions[s].binding, NodeOf(st.sessions[s]))
  {
    ReachableInv(st);
    ReachableOpenings(st);
    assert SessionOk(st, st.sessions[s]) && GateHistory(st.trace, s, st.sessions[s]);
  }

  // ---------------------------------------------------------------- what a message leads to

  /** A frame naming another node: the old one's entry and rows are given up, and the new binding
      starts with a closed gate and a wait of its own. */
  lemma RebindStartsOver(st: State, s: nat, was: string, node: string)
    requires Waiting(st, s) && st.sessions[s].bound == Some(was) && was != node
    ensures var a := Next(st, Receive(s, Other(Some(node))));
      var b := Next(a, Advance(s, true));
      var c := Next(b, Advance(s, true));
      var x := c.sessions[s];
      && x.bound == Some(node) && x.binding == st.sessions[s].binding + 1 && x.pc == Replying
      && x.gate == GateState(st.timeout, Some(st.now), false)
      && (was in c.hub ==> c.hub[was] != s)
      && (forall id :: id in c.q.rows && c.q.rows[id].node == was ==> c.q.rows[id].inFlightAt.None?)
      && c.trace == st.trace
  {
    var a := Next(st, Receive(s, Other(Some(node))));
    assert a.sessions[s].pc == Unregistering(was, node);
    var b := Next(a, Advance(s, true));
    assert b.sessions[s].pc == LeaveRequeue(was, node) && b.q == st.q;
    assert Next(b, Advance(s, true)).q == FreedNode(st.q, was);
  }

  /** A first frame naming a node binds the session to it, with a closed gate and the wait begun. */
  lemma FirstBindStartsWait(st: State, s: nat, node: string)
    requires Waiting(st, s) && st.sessions[s].bound.None?
    ensures var x := Next(st, Receive(s, Other(Some(node)))).sessions[s];
      x.bound == Some(node) && x.binding == st.sessions[s].binding + 1 && x.pc == Replying
      && x.gate == GateState(st.timeout, Some(st.now), false)
  {
  }

  /** Any other frame of the bound node claims for it exactly when the gate is open. */
  lemma MessageFlushesIfReady(st: State, s: nat, who: Option<string>)
    requires Waiting(st, s) && (who.None? || who == st.sessions[s].bound)
    ensures var x := Next(st, Receive(s, Other(who))).sessions[s];
      && x.bound == st.sessions[s].bound && x.gate == st.sessions[s].gate && x.binding == st.sessions[s].binding
      && (x.pc == Claiming(false) <==> x.gate.ready && x.bound.Some?)
      && (x.pc != Claiming(false) ==> x.pc == Replying)
  {
  }

  ghost predicate NoneInFlight(q: History, node: string) {
    forall id :: id in q.rows && q.rows[id].node == node ==> q.rows[id].inFlightAt.None?
  }

  /** A Register drops whatever session served the node, gives back what was in flight there, and then
      counts as any frame of the node. */
  lemma RegisterStartsClean(st: State, s: nat, node: string)
    requires Waiting(st, s)
    ensures var a := Next(st, Receive(s, Register(node, true)));
      var b := Next(a, Advance(s, true));
      var c := Next(b, Advance(s, true));
      && node !in b.hub && node !in c.hub && NoneInFlight(c.q, node)
      && Generation(c, node) == (if node in st.generations then st.generations[node] else 1)
      && c.sessions[s] == Handled(c, st.sessions[s].(pc := RegisterRequeue(node)), Some(node))
  {
    var a := Next(st, Receive(s, Register(node, true)));
    assert a.sessions[s].pc == Evicting(node) && a.q == st.q;
    var b := Next(a, Advance(s, true));
    assert b.sessions[s].pc == RegisterRequeue(node) && b.q == st.q;
    assert Next(b, Advance(s, true)).q == FreedNode(st.q, node);
  }

  /** When the stream ends, the session gives up its entry and gives back what was in flight for its node. */
  lemma EndGivesUp(st: State, s: nat, node: string)
    requires Waiting(st, s) && st.sessions[s].bound == Some(node)
    ensures var a := Next(st, StreamEnds(s));
      var b := Next(a, Advance(s, true));
      var c := Next(b, Advance(s, true));
      && (node in b.hub ==> b.hub[node] != s) && b.hub == c.hub
      && NoneInFlight(c.q, node) && c.sessions[s].pc == Dead
  {
    var a := Next(st, StreamEnds(s));
    assert a.sessions[s].pc == Closing && a.q == st.q;
    var b := Next(a, Advance(s, true));
    assert b.sessions[s].pc == ClosingRequeue(node) && b.q == st.q;
    assert Next(b, Advance(s, true)).q == FreedNode(st.q, node);
  }

  /** A gate that is due opens when the timer fires; the session registers and then claims. */
  lemma TimerOpensAndClaims(st: State, s: nat, node: string)
    requires Waiting(st, s) && st.sessions[s].bound == Some(node)
    requires !st.sessions[s].gate.ready && st.sessions[s].gate.boundAt.Some?
    requires st.now >= st.sessions[s].gate.boundAt.value + st.sessions[s].gate.timeout
    ensures var a := Next(st, TimerFires(s));
      var b := Next(a, Advance(s, true));
      a.sessions[s].gate.ready && b.hub == st.hub[node := s] && b.sessions[s].pc == Claiming(true)
  {
  }

  /** A current NodeReady of the bound node opens the gate; the session registers and then claims. */
  lemma ReadyOpensAndClaims(st: State, s: nat, node: string, acked: int)
    requires Waiting(st, s) && st.sessions[s].bound == Some(node) && !st.sessions[s].gate.ready
    requires acked >= Generation(st, node)
    ensures var a := Next(st, Receive(s, Message.NodeReady(node, acked, true)));
      var b := Next(a, Advance(s, true));
      a.sessions[s].gate.ready && b.hub == st.hub[node := s] && b.sessions[s].pc == Claiming(false)
  {
  }

  /** A reported result is stored; if that went through, its run leaves the queue in the next step. */
  lemma ReportStoresThenAcks(st: State, s: nat, node: string, run: string)
    requires Waiting(st, s)
    ensures var a := Next(st, Receive(s, Report(node, run, StoredOk)));
      var b := Next(a, Advance(s, true));
      && a.q.results == st.q.results + [Issue(node, run)] && a.q.rows == st.q.rows
      && b.q.results == a.q.results
      && (forall id :: id in b.q.rows <==> id in st.q.rows && !(st.q.rows[id].node == node && st.q.rows[id].run == run))
  {
  }

  /** A report whose storing failed, before or after the row was written, acknowledges nothing. */
  lemma FailedReportKeepsRows(st: State, s: nat, node: string, run: string, ok: bool)
    requires Waiting(st, s)
    ensures Next(st, Receive(s, Report(node, run, NotStored))).q == st.q
    ensures var a := Next(st, Receive(s, Report(node, run, StoredThenFailed)));
      a.q == st.q.(results := st.q.results + [Issue(node, run)]) && !a.sessions[s].pc.Acking?
  {
  }

  /** `k` successful steps of one session. */
  function Steps(st: State, s: nat, k: nat): State {
    if k == 0 then st else Next(Steps(st, s, k - 1), Advance(s, true))
  }

  function Frames(x: Session, s: nat, ids: seq<nat>): seq<Note> {
    seq(|ids|, i requires 0 <= i < |ids| => Frame(s, x.binding, x.bound, ids[i], x.gate.ready))
  }

  /** The state after a claim and `k` sends that succeeded. */
  ghost predicate SentSoFar(st: State, t: State, s: nat, k: nat)
    requires s in st.sessions && st.sessions[s].bound.Some? && st.sessions[s].pc.Claiming?
    requires k <= |Batch(st.q, st.sessions[s].bound.value, st.now)|
  {
    var x := st.sessions[s];
    var batch := Batch(st.q, x.bound.value, st.now);
    && t.trace == st.trace + Frames(x, s, batch[..k])
    && t.sessions == st.sessions[s := x.(pc := Sending(batch, k, x.pc.timer))]
    && t.q == ClaimedBy(st.q, x.bound.value, st.now) && t.now == st.now
  }

  /** A claim and `k` sends that succeed put the first `k` rows of the batch on the stream, in order. */
  lemma {:induction false} FlushSendsInOrder(st: State, s: nat, k: nat)
    requires s in st.sessions && st.sessions[s].bound.Some? && st.sessions[s].pc.Claiming?
    requires k <= |Batch(st.q, st.sessions[s].bound.value, st.now)|
    ensures SentSoFar(st, Steps(st, s, k + 1), s, k)
  {
    if k == 0 {
      FlushStarts(st, s);
    } else {
      FlushSendsInOrder(st, s, k - 1);
      FlushGoesOn(st, Steps(st, s, k), s, k - 1);
    }
  }

  lemma FlushStarts(st: State, s: nat)
    requires s in st.sessions && st.sessions[s].bound.Some? && st.sessions[s].pc.Claiming?
    ensures SentSoFar(st, Steps(st, s, 1), s, 0)
  {
    var x := st.sessions[s];
    OneClaim(st, s);
    assert Steps(st, s, 1) == Next(Steps(st, s, 0), Advance(s, true));
    assert Frames(x, s, Batch(st.q, x.bound.value, st.now)[..0]) == [];
  }

  lemma OneClaim(st: State, s: nat)
    requires s in st.sessions && st.sessions[s].bound.Some? && st.sessions[s].pc.Claiming?
    ensures var x := st.sessions[s];
      Next(st, Advance(s, true)) == With(st, s, x.(pc := Sending(Batch(st.q, x.bound.value, st.now), 0, x.pc.timer))).(
                                      q := ClaimedBy(st.q, x.bound.value, st.now))
  {
  }

  lemma FlushGoesOn(st: State, t: State, s: nat, k: nat)
    requires s in st.sessions && st.sessions[s].bound.Some? && st.sessions[s].pc.Claiming?
    requires k < |Batch(st.q, st.sessions[s].bound.value, st.now)| && SentSoFar(st, t, s, k)
    ensures SentSoFar(st, Next(t, Advance(s, true)), s, k + 1)
  {
    var x := st.sessions[s];
    var batch := Batch(st.q, x.bound.value, st.now);
    OneSend(t, s, batch, k);
    assert Frames(x, s, batch[..k + 1]) == Frames(x, s, batch[..k]) + [Frame(s, x.binding, x.bound, batch[k], x.gate.ready)];
  }

  lemma OneSend(st: State, s: nat, batch: seq<nat>, k: nat)
    requires s in st.sessions && st.sessions[s].pc.Sending? && st.sessions[s].pc.batch == batch && st.sessions[s].pc.sent == k
    requires k < |batch|
    ensures var x, t := st.sessions[s], Next(st, Advance(s, true));
      && t == With(st, s, x.(pc := Sending(batch, k + 1, x.pc.timer))).(
                trace := st.trace + [Frame(s, x.binding, x.bound, batch[k], x.gate.ready)])
  {
  }

  /** A send that fails after `k` gives exactly the rest back: those rows are in flight no more, the
      sent ones still are. */
  lemma FailedSendGivesBack(st: State, s: nat, k: nat)
    requires Reachable(st)
    requires s in st.sessions && st.sessions[s].bound.Some? && st.sessions[s].pc.Claiming?
    requires k < |Batch(st.q, st.sessions[s].bound.value, st.now)|
    ensures var node := st.sessions[s].bound.value;
      var batch := Batch(st.q, node, st.now);
      var t := Next(Next(Steps(st, s, k + 1), Advance(s, false)), Advance(s, true));
      && Flushed(st.q.rows, t.q.rows, batch, k, st.now)
      && t.trace == st.trace + Frames(st.sessions[s], s, batch[..k])
  {
    var node := st.sessions[s].bound.value;
    var batch := Batch(st.q, node, st.now);
    FlushSendsInOrder(st, s, k);
    AvailableExact(st.q.rows, node, st.now, ACK_TIMEOUT, st.q.nextId);
    FlushedPart(st.q.rows, batch, k, st.now);
    SendFails(Steps(st, s, k + 1), s, batch, k);
  }

  lemma SendFails(st: State, s: nat, batch: seq<nat>, k: nat)
    requires s in st.sessions && st.sessions[s].pc.Sending? && st.sessions[s].pc.batch == batch && st.sessions[s].pc.sent == k
    requires k < |batch|
    ensures var t := Next(Next(st, Advance(s, false)), Advance(s, true));
      t.q.rows == RequeueRows(st.q.rows, set id | id in batch[k..]) && t.trace == st.trace
  {
  }

  /** No queued dispatch is dropped by any interleaving. */
  lemma QueuedDispatchConserved(st: State, id: nat)
    requires Reachable(st) && id in st.q.issued
    ensures (id in st.q.rows && Issue(st.q.rows[id].node, st.q.rows[id].run) == st.q.issued[id])
      || st.q.issued[id] in st.q.results
  {
    ReachableInv(st);
  }

  /** Claims in any reachable state: with the live marks they make up `attempts`, they are spaced,
      and each takes its rows in id order. */
  lemma ClaimDiscipline(st: State, i: nat, j: nat, id: nat)
    requires Reachable(st)
    ensures id in st.q.rows ==> st.q.rows[id].attempts == ClaimCount(st.q.log, id) + MarkCount(st.q.log, id)
    ensures i < j < |st.q.log| && ClaimsAt(st.q.log, i, id) && ClaimsAt(st.q.log, j, id) ==>
      (exists k :: i < k < j && st.q.log[k].Requeued? && id in st.q.log[k].freed)
      || st.q.log[j].at > st.q.log[i].at + ACK_TIMEOUT
    ensures i < |st.q.log| && st.q.log[i].Claimed? ==> Ascending(st.q.log[i].ids)
  {
    ReachableInv(st);
    if i < j < |st.q.log| && ClaimsAt(st.q.log, i, id) && ClaimsAt(st.q.log, j, id) {
      ClaimsSeparated(st.q.log, i, j, id);
    }
    if i < |st.q.log| {
      assert ClaimLegal(st.q.log, i);
    }
  }

  /** At any claim of a row, every older row of its node that still waits or was ever sent has been
      claimed or marked by then; so the first claims of a node follow id order but for live marks. */
  lemma OlderTriedFirst(st: State, older: nat, younger: nat, j: nat)
    requires Reachable(st) && older < younger && older in st.q.issued && younger in st.q.issued
    requires st.q.issued[older].node == st.q.issued[younger].node
    requires j < |st.q.log| && ClaimsAt(st.q.log, j, younger)
    requires older in st.q.rows || Tried(st.q.log, older)
    ensures TriedBy(st.q.log, j, older)
    ensures ClaimCount(st.q.log, older) + MarkCount(st.q.log, older) > 0
  {
    ReachableInv(st);
    assert Precedes(st.q, older, younger);
    var k :| 0 <= k <= j && Tries(st.q.log[k], older);
    TriedIsCounted(st.q.log, older);
  }

  lemma ReachableNext(st: State, a: Action)
    requires Reachable(st)
    ensures Reachable(Next(st, a))
  {
    var timeout: nat, actions :| st == Run(Init(timeout), actions);
    RunOne(Init(timeout), actions, a);
    assert Next(st, a) == Run(Init(timeout), actions + [a]);
  }

  /** A session that has bound the node, opened its gate and registered, and is about to claim. */
  lemma SessionAboutToClaim(timeout: nat) returns (st: State)
    ensures Reachable(st) && st.q == QueueHistory.Start() && st.now == 0
    ensures 0 in st.sessions && st.sessions[0].bound == Some("n") && st.sessions[0].pc.Claiming? && st.hub == map["n" := 0]
  {
    var start := Init(timeout);
    assert Reachable(start) by {
      assert start == Run(start, []);
    }
    var unbound := Next(start, Open(0));
    ReachableNext(start, Open(0));
    var bound := Next(unbound, Receive(0, Other(Some("n"))));
    ReachableNext(unbound, Receive(0, Other(Some("n"))));
    assert bound == With(unbound, 0, BindTo(unbound, Session(None, NewGate(timeout), 0, Idle), "n"));
    var idle := Next(bound, Advance(0, true));
    ReachableNext(bound, Advance(0, true));
    st := RegisterOnReady(idle);
  }

  lemma RegisterOnReady(idle: State) returns (st: State)
    requires Reachable(idle) && Waiting(idle, 0) && idle.sessions[0].bound == Some("n") && !idle.sessions[0].gate.ready
    requires Generation(idle, "n") == 0 && idle.hub == map[]
    ensures Reachable(st) && st.q == idle.q && st.now == idle.now
    ensures 0 in st.sessions && st.sessions[0].bound == Some("n") && st.sessions[0].pc.Claiming? && st.hub == map["n" := 0]
  {
    var ready := Next(idle, Receive(0, Message.NodeReady("n", 0, true)));
    ReachableNext(idle, Receive(0, Message.NodeReady("n", 0, true)));
    assert ready.sessions[0].pc == Registering(false);
    st := Next(ready, Advance(0, true));
    ReachableNext(ready, Advance(0, true));
  }

  /** A targeted dispatch to a connected node leaves one attempt and no claim; a row queued after it is
      then claimed, and the older one still is not. */
  lemma MarkedRowIsOvertaken(timeout: nat, spec: string, params: string) returns (marked: State, claimed: State)
    ensures Reachable(marked) && 1 in marked.q.rows && "n" in marked.hub
    ensures marked.q.rows[1].attempts == 1 && ClaimCount(marked.q.log, 1) == 0
    ensures Reachable(claimed) && {1, 2} <= claimed.q.rows.Keys && claimed.q.rows[1].node == claimed.q.rows[2].node
    ensures ClaimCount(claimed.q.log, 2) == 1 && ClaimCount(claimed.q.log, 1) == 0
  {
    var st := SessionAboutToClaim(timeout);
    marked := DispatchMarked(st, spec, params);
    FirstRowMarked(spec, params);
    claimed := YoungerClaimed(marked, spec, params);
  }

  lemma DispatchMarked(st: State, spec: string, params: string) returns (marked: State)
    requires Reachable(st) && st.q == QueueHistory.Start() && st.now == 0
    ensures Reachable(marked) && marked.q == MarkedBy(Enqueued(QueueHistory.Start(), "n", "r", spec, params), "n", "r", 0)
    ensures marked.now == 0 && marked.sessions == st.sessions && marked.hub == st.hub
  {
    var queued := Next(st, Enqueue("n", "r", spec, params));
    ReachableNext(st, Enqueue("n", "r", spec, params));
    marked := Next(queued, MarkLive("n", "r"));
    ReachableNext(queued, MarkLive("n", "r"));
  }

  lemma YoungerClaimed(marked: State, spec: string, params: string) returns (claimed: State)
    requires Reachable(marked) && marked.now == 0
    requires 0 in marked.sessions && marked.sessions[0].bound == Some("n") && marked.sessions[0].pc.Claiming?
    requires marked.q.rows.Keys == {1} && marked.q.nextId == 2
    requires marked.q.rows[1].node == "n" && marked.q.rows[1].inFlightAt == Some(0)
    requires ClaimCount(marked.q.log, 1) == 0 && ClaimCount(marked.q.log, 2) == 0
    ensures Reachable(claimed) && {1, 2} <= claimed.q.rows.Keys && claimed.q.rows[1].node == claimed.q.rows[2].node
    ensures ClaimCount(claimed.q.log, 2) == 1 && ClaimCount(claimed.q.log, 1) == 0
  {
    var both := Next(marked, Enqueue("n", "s", spec, params));
    ReachableNext(marked, Enqueue("n", "s", spec, params));
    claimed := ClaimTaken(both);
    OnlyUnmarkedClaimed(both.q);
  }

  lemma ClaimTaken(st: State) returns (claimed: State)
    requires Reachable(st) && st.now == 0
    requires 0 in st.sessions && st.sessions[0].bound == Some("n") && st.sessions[0].pc.Claiming?
    ensures Reachable(claimed) && claimed.q == ClaimedBy(st.q, "n", 0)
  {
    claimed := Next(st, Advance(0, true));
    ReachableNext(st, Advance(0, true));
  }

  lemma FirstRowMarked(spec: string, params: string)
    ensures var q := MarkedBy(Enqueued(QueueHistory.Start(), "n", "r", spec, params), "n", "r", 0);
      && q.rows == map[1 := Row("n", "r", spec, params, Some(0), 1)] && q.nextId == 2
      && ClaimCount(q.log, 1) == 0 && ClaimCount(q.log, 2) == 0
  {
    var q0 := Enqueued(QueueHistory.Start(), "n", "r", spec, params);
    assert RunIds(q0.rows, "n", "r") == {1};
    ReadExtended(q0.log, Marked({1}, 0), 1);
    ReadExtended(q0.log, Marked({1}, 0), 2);
  }

  lemma OnlyUnmarkedClaimed(q: History)
    requires q.nextId == 3 && q.rows.Keys == {1, 2} && q.rows[1].node == q.rows[2].node == "n"
    requires q.rows[1].inFlightAt == Some(0) && q.rows[2].inFlightAt == None && q.rows[2].attempts == 0
    requires ClaimCount(q.log, 1) == 0 && ClaimCount(q.log, 2) == 0
    ensures var later := ClaimedBy(q, "n", 0);
      && later.rows.Keys == q.rows.Keys && later.rows[1].node == later.rows[2].node
      && ClaimCount(later.log, 2) == 1 && ClaimCount(later.log, 1) == 0
  {
    var ids := Batch(q, "n", 0);
    AvailableExact(q.rows, "n", 0, ACK_TIMEOUT, 3);
    assert Claimable(q.rows[2], "n", 0, ACK_TIMEOUT) && !Claimable(q.rows[1], "n", 0, ACK_TIMEOUT);
    assert 2 in ids && 1 !in ids;
    ReadExtended(q.log, Claimed("n", ids, 0), 1);
    ReadExtended(q.log, Claimed("n", ids, 0), 2);
  }

  // ---------------------------------------------------------------- a reused run id

  /** A session has stored a result for this run and not yet deleted the run's queue rows. */
  ghost predicate AckPending(st: State, node: string, run: string) {
    exists s :: s in st.sessions && st.sessions[s].pc == Acking(node, run)
  }

  /** The row still waits, or a result for it was stored after the first `base` results. */
  ghost predicate Answered(q: History, id: nat, base: nat, i: Issue) {
    id in q.rows || exists k :: base <= k < |q.results| && q.results[k] == i
  }

  ghost predicate NewResult(q: History, base: nat, i: Issue) {
    exists k :: base <= k < |q.results| && q.results[k] == i
  }

  ghost predicate Safe(st: State, id: nat, base: nat, i: Issue) {
    || NewResult(st.q, base, i)
    || (id in st.q.rows && Issue(st.q.rows[id].node, st.q.rows[id].run) == i
        && id < st.q.nextId && !AckPending(st, i.node, i.run))
  }

  lemma AdvanceNeverAcks(st: State, s: nat, ok: bool)
    requires s in st.sessions
    ensures var after := OnAdvance(st, s, ok).sessions;
      && after.Keys == st.sessions.Keys
      && !after[s].pc.Acking?
      && forall t :: t in st.sessions && t != s ==> after[t] == st.sessions[t]
  {
    var x := st.sessions[s];
    HandledNeverAcks(st, x);
    match x.pc {
      case Evicting(_) =>
      case RegisterRequeue(_) =>
      case Acking(_, _) =>
      case Unregistering(_, _) =>
      case LeaveRequeue(_, _) =>
      case Registering(_) =>
      case Claiming(_) =>
      case Sending(_, _, _) =>
      case Returning(_, _) =>
      case Replying =>
      case Closing =>
      case ClosingRequeue(_) =>
      case _ =>
    }
  }

  lemma HandledNeverAcks(st: State, x: Session)
    ensures forall node :: !Handled(st, x, node).pc.Acking?
  {
  }

  lemma MessageAcksStored(st: State, s: nat, msg: Message)
    requires Waiting(st, s)
    ensures var after := OnMessage(st, s, msg).sessions;
      && after.Keys == st.sessions.Keys
      && (after[s].pc.Acking? ==> msg.Report? && msg.outcome.StoredOk? && after[s].pc == Acking(msg.node, msg.run))
      && forall t :: t in st.sessions && t != s ==> after[t] == st.sessions[t]
  {
    var x := st.sessions[s];
    assert forall node :: !Handled(st, x, node).pc.Acking?;
  }

  /** An acknowledgement becomes pending only by storing the result. */
  lemma AckFollowsResult(st: State, a: Action, i: Issue)
    requires !AckPending(st, i.node, i.run) && AckPending(Next(st, a), i.node, i.run)
    ensures OperationOf(st, a) == Store(i.node, i.run)
  {
    var s :| s in Next(st, a).sessions && Next(st, a).sessions[s].pc == Acking(i.node, i.run);
    assert s in st.sessions ==> st.sessions[s].pc != Acking(i.node, i.run);
    match a
    case Advance(t, ok) =>
      if t in st.sessions {
        AdvanceNeverAcks(st, t, ok);
      }
    case Receive(t, msg) =>
      if Waiting(st, t) {
        MessageAcksStored(st, t, msg);
      }
    case _ =>
  }

  lemma AckOperation(st: State, a: Action)
    requires OperationOf(st, a).Ack?
    ensures AckPending(st, OperationOf(st, a).node, OperationOf(st, a).run)
  {
    assert a.session in st.sessions;
  }

  /** A queue operation other than acknowledging this run keeps the row and the results. */
  lemma RowSurvives(q: History, op: Operation, now: nat, id: nat, i: Issue)
    requires id in q.rows && Issue(q.rows[id].node, q.rows[id].run) == i && id < q.nextId
    requires op != Ack(i.node, i.run)
    ensures var r := Apply(q, op, now);
      id in r.rows && Issue(r.rows[id].node, r.rows[id].run) == i && id < r.nextId
  {
  }

  lemma ResultsGrow(q: History, op: Operation, now: nat)
    ensures q.results <= Apply(q, op, now).results
  {
  }

  lemma SafeStep(st: State, a: Action, id: nat, base: nat, i: Issue)
    requires Safe(st, id, base, i) && base <= |st.q.results|
    ensures Safe(Next(st, a), id, base, i) && base <= |Next(st, a).q.results|
  {
    var after := Next(st, a);
    var op := OperationOf(st, a);
    QueueMoves(st, a);
    ResultsGrow(st.q, op, st.now);
    if NewResult(st.q, base, i) {
      var k :| base <= k < |st.q.results| && st.q.results[k] == i;
      assert after.q.results[k] == i;
    } else if AckPending(after, i.node, i.run) {
      AckFollowsResult(st, a, i);
      assert after.q.results[|st.q.results|] == i;
    } else {
      if op.Ack? {
        AckOperation(st, a);
      }
      RowSurvives(st.q, op, st.now, id, i);
    }
  }

  lemma {:induction false} SafeRun(st: State, actions: seq<Action>, id: nat, base: nat, i: Issue)
    requires Safe(st, id, base, i) && base <= |st.q.results|
    ensures Safe(Run(st, actions), id, base, i) && base <= |Run(st, actions).q.results|
    decreases |actions|
  {
    if actions != [] {
      SafeRun(st, actions[..|actions| - 1], id, base, i);
      SafeStep(Run(st, actions[..|actions| - 1]), actions[|actions| - 1], id, base, i);
    }
  }

  /** In every continuation the row still waits or has a result newer than `base`. */
  ghost predicate AlwaysAnswered(st: State, id: nat, base: nat, i: Issue) {
    forall actions :: Answered(Run(st, actions).q, id, base, i)
  }

  lemma PendingAckDropsRow(st: State, id: nat, base: nat, i: Issue)
    requires AckPending(st, i.node, i.run) && base == |st.q.results|
    requires id in st.q.rows && Issue(st.q.rows[id].node, st.q.rows[id].run) == i
    ensures !AlwaysAnswered(st, id, base, i)
  {
    var s :| s in st.sessions && st.sessions[s].pc == Acking(i.node, i.run);
    var acked := [Advance(s, true)];
    assert acked[..0] == [];
    assert Run(st, acked) == Next(st, Advance(s, true)) by {
      assert Run(st, []) == st;
    }
    assert Run(st, acked).q == Acked(st.q, i.node, i.run);
    assert !Answered(Run(st, acked).q, id, base, i);
  }

  /** One session reports a result; before its acknowledgement the run id is queued again; the
      acknowledgement then removes the new row, which has no result of its own. */
  lemma ReusedRunIdLosesRow(timeout: nat, spec: string, params: string)
    ensures var st := Run(Init(timeout), [Open(0), Receive(0, Report("n", "r", StoredOk))]);
      var queued := Next(st, Enqueue("n", "r", spec, params));
      var acked := Next(queued, Advance(0, true));
      && Reachable(st) && AckPending(st, "n", "r")
      && st.q.nextId in queued.q.rows && st.q.nextId !in acked.q.rows && acked.q.results == st.q.results
      && !AlwaysAnswered(queued, st.q.nextId, |st.q.results|, Issue("n", "r"))
  {
    var start := Init(timeout);
    var a1, a2 := Open(0), Receive(0, Report("n", "r", StoredOk));
    RunOne(start, [], a1);
    RunOne(start, [a1], a2);
    assert Run(start, []) == start;
    assert [] + [a1] == [a1] && [a1] + [a2] == [a1, a2];
    var st := Run(start, [a1, a2]);
    assert st.sessions[0].pc == Acking("n", "r");
    AnsweredUnlessRunIdReused(st, "n", "r", spec, params);
  }

  /** A dispatch enqueued under run id `run` gets a result of its own in every continuation
      exactly when no session is between storing and acknowledging an earlier result of that run. */
  lemma AnsweredUnlessRunIdReused(st: State, node: string, run: string, spec: string, params: string)
    requires Reachable(st)
    ensures AlwaysAnswered(Next(st, Enqueue(node, run, spec, params)), st.q.nextId, |st.q.results|, Issue(node, run))
      <==> !AckPending(st, node, run)
  {
    ReachableInv(st);
    var queued := Next(st, Enqueue(node, run, spec, params));
    var id, base, i := st.q.nextId, |st.q.results|, Issue(node, run);
    if AckPending(st, node, run) {
      assert AckPending(queued, node, run);
      PendingAckDropsRow(queued, id, base, i);
    } else {
      assert Safe(queued, id, base, i);
      forall actions ensures Answered(Run(queued, actions).q, id, base, i) {
        SafeRun(queued, actions, id, base, i);
      }
    }
  }
}
