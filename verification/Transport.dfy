/**
  `StreamTransport` as a step system: any number of concurrent `callOnce`s share one
  connection at a time through a map from correlation ids to channels, a reader per
  connection delivers replies, and a teardown fails whatever the map still holds. The
  atomic steps are the regions that hold the transport's mutex, single channel
  operations, and single network events; they interleave in every order.

  `StreamTransport` below holds the fields the mutex guards. Its methods are the
  locked regions, proved against the functions that the steps are made of.
 */
module Transport {
  import opened Bytes
  import opened Errors
  import opened Retry

  type ConnId = nat
  type CallId = nat     // one per `callOnce`
  type ReqId = nat      // correlation id on the wire

  // ----- The guarded fields -----

  /** `pending` maps a correlation id to the call whose channel waits for it; `None` is Go's nil. */
  datatype Shared = Shared(conn: Option<ConnId>, pending: Option<map<ReqId, CallId>>, nextID: nat, closed: bool)

  datatype EnsureResult = UseConn(conn: ConnId) | NoConn(reason: IoErr)

  const CLOSED: IoErr := Plain("corndogs: transport closed")
  const LOST: IoErr := Plain("corndogs: connection lost")

  /** `ensureConn`: `dial` is the new connection, or why dialing failed. */
  function Ensured(sh: Shared, dial: EnsureResult): (Shared, EnsureResult) {
    if sh.closed then (sh, NoConn(CLOSED))
    else if sh.conn.Some? then (sh, UseConn(sh.conn.value))
    else if dial.NoConn? then (sh, dial)
    else (sh.(conn := Some(dial.conn), pending := Some(map[])), dial)
  }

  /** The locked region of `callOnce`: burn an id, and register it unless the connection is gone. */
  function Registered(sh: Shared, c: CallId): (Shared, Option<ReqId>) {
    var id := sh.nextID + 1;
    if sh.pending.None? then (sh.(nextID := id), None)
    else (sh.(nextID := id, pending := Some(sh.pending.value[id := c])), Some(id))
  }

  /** The locked region of `readLoop`: claim the waiter of `id` in the current map, whatever connection it is of. */
  function Claimed(sh: Shared, id: ReqId): (Shared, Option<CallId>) {
    if sh.pending.Some? && id in sh.pending.value
    then (sh.(pending := Some(sh.pending.value - {id})), Some(sh.pending.value[id]))
    else (sh, None)
  }

  /** The locked region of `teardown`: take the whole map, if `k` is still the connection. */
  function Detached(sh: Shared, k: ConnId): (Shared, Option<map<ReqId, CallId>>) {
    if sh.conn != Some(k) then (sh, None)
    else (sh.(conn := None, pending := None), Some(if sh.pending.Some? then sh.pending.value else map[]))
  }

  /** The locked region of a cancelled call. */
  function Forgotten(sh: Shared, id: ReqId): Shared {
    if sh.pending.Some? then sh.(pending := Some(sh.pending.value - {id})) else sh
  }

  /**
    The fields the mutex guards, with two histories: the ids ever registered, and those
    that have left the map, handed to a reader or a teardown or taken out by their call.
   */
  class StreamTransport {
    var conn: Option<ConnId>
    var pending: Option<map<ReqId, CallId>>
    var nextID: nat
    var closed: bool
    ghost var issued: set<ReqId>
    ghost var gone: set<ReqId>

    function View(): Shared
      reads this
    {
      Shared(conn, pending, nextID, closed)
    }

    ghost function WaitingIds(): set<ReqId>
      reads this
    {
      if pending.Some? then pending.value.Keys else {}
    }

    /** A connection exactly when there is a map, and every id ever registered is waiting or gone, never both. */
    ghost predicate Valid()
      reads this
    {
      && (conn.None? <==> pending.None?)
      && (forall id :: id in issued ==> 1 <= id <= nextID)
      && WaitingIds() + gone == issued && WaitingIds() !! gone
    }

    constructor ()
      ensures Valid() && View() == Shared(None, None, 0, false) && issued == {}
    {
      conn, pending, nextID, closed := None, None, 0, false;
      issued, gone := {}, {};
    }

    /** Never replaces a map, so no waiter is lost to a dial. */
    method EnsureConn(dial: EnsureResult) returns (r: EnsureResult)
      requires Valid()
      modifies this
      ensures Valid() && (View(), r) == Ensured(old(View()), dial)
      ensures r.UseConn? <==> !closed && (old(conn).Some? || dial.UseConn?)
      ensures r.UseConn? ==> conn == Some(r.conn)
      ensures r.NoConn? || old(conn).Some? ==> View() == old(View())
      ensures WaitingIds() == old(WaitingIds()) && issued == old(issued) && gone == old(gone)
    {
      if closed {
        return NoConn(CLOSED);
      }
      if conn.Some? {
        return UseConn(conn.value);
      }
      if dial.NoConn? {
        return dial;
      }
      conn := Some(dial.conn);
      pending := Some(map[]);
      return dial;
    }

    /** Yields an id that no call ever had, and keeps every waiter under its own. */
    method Register(c: CallId) returns (r: Option<ReqId>)
      requires Valid()
      modifies this
      ensures Valid() && (View(), r) == Registered(old(View()), c)
      ensures r.Some? <==> conn.Some?
      ensures r.Some? ==> r.value != 0 && r.value !in old(issued) && issued == old(issued) + {r.value}
      ensures r.Some? ==> WaitingIds() == old(WaitingIds()) + {r.value} && pending.value[r.value] == c
      ensures r.None? ==> issued == old(issued)
      ensures forall id :: id in old(WaitingIds()) ==> pending.value[id] == old(pending).value[id]
      ensures gone == old(gone)
    {
      var id := nextID + 1;
      nextID := id;
      if pending.None? {
        return None;
      }
      pending := Some(pending.value[id := c]);
      issued := issued + {id};
      return Some(id);
    }

    /** Hands a waiter out exactly if it is still waiting; it is then gone, so nobody can claim it again. */
    method Claim(id: ReqId) returns (r: Option<CallId>)
      requires Valid()
      modifies this
      ensures Valid() && (View(), r) == Claimed(old(View()), id)
      ensures r.Some? <==> id in old(WaitingIds())
      ensures r.Some? ==> r.value == old(pending).value[id] && id in gone
      ensures id == 0 || id in old(gone) ==> r.None?
      ensures WaitingIds() == old(WaitingIds()) - {id} && issued == old(issued)
      ensures forall other :: other in WaitingIds() ==> pending.value[other] == old(pending).value[other]
    {
      r := if pending.Some? && id in pending.value then Some(pending.value[id]) else None;
      if r.Some? {
        pending := Some(pending.value - {id});
        gone := gone + {id};
      }
    }

    /** Hands all waiters out at once, if `k` is still the connection; a second teardown of `k` gets nothing. */
    method Detach(k: ConnId) returns (r: Option<map<ReqId, CallId>>)
      requires Valid()
      modifies this
      ensures Valid() && (View(), r) == Detached(old(View()), k)
      ensures r.Some? <==> old(conn) == Some(k)
      ensures r.Some? ==> r == old(pending) && r.value.Keys !! old(gone)
      ensures r.Some? ==> WaitingIds() == {} && gone == issued
      ensures r.None? ==> View() == old(View()) && gone == old(gone)
      ensures conn != Some(k) && issued == old(issued)
    {
      if conn != Some(k) {
        return None;
      }
      r := Some(if pending.Some? then pending.value else map[]);
      conn := None;
      pending := None;
      gone := issued;
    }

    /** Takes one waiter out of the map, wherever it is, and no other. */
    method Forget(id: ReqId)
      requires Valid()
      modifies this
      ensures Valid() && View() == Forgotten(old(View()), id)
      ensures WaitingIds() == old(WaitingIds()) - {id} && issued == old(issued)
      ensures forall other :: other in WaitingIds() ==> pending.value[other] == old(pending).value[other]
    {
      if pending.Some? {
        if id in pending.value {
          gone := gone + {id};
        }
        pending := Some(pending.value - {id});
      }
    }

    /** `Close` with nobody in between: every waiter is handed out once, and no connection is ever made again. */
    method Close() returns (failed: map<ReqId, CallId>)
      requires Valid()
      modifies this
      ensures Valid() && closed && conn.None?
      ensures failed.Keys == old(WaitingIds()) && failed.Keys !! old(gone) && gone == issued == old(issued)
      ensures forall dial: EnsureResult :: Ensured(View(), dial) == (View(), NoConn(CLOSED))
    {
      closed := true;
      failed := map[];
      if conn.Some? {
        var taken := Detach(conn.value);
        failed := taken.value;
      }
    }
  }

  // ----- The whole system -----

  /** Where one `callOnce` is. */
  datatype Pc =
    | HaveConn(conn: ConnId)                                // between ensureConn and the next lock
    | HaveId(conn: ConnId, id: ReqId)                       // registered, about to write
    | WriteFailed(conn: ConnId, id: ReqId, cause: IoErr)    // about to tear down
    | Waiting(id: ReqId)                                    // in the select
    | Done(outcome: Outcome)

  /** A channel of capacity one: all that was ever sent on it, and how much was received. */
  datatype Chan = Chan(sent: seq<Outcome>, taken: nat)

  predicate Full(ch: Chan) { |ch.sent| > ch.taken }

  datatype Reader = Reading | Delivering(call: CallId, outcome: Outcome) | Exited

  /** A teardown that took the map and still owes these calls an error. */
  datatype Teardown = Teardown(owed: set<CallId>, cause: IoErr)

  /** A request frame: `call` stands for its operation and payload. */
  datatype Frame = Frame(conn: ConnId, id: ReqId, call: CallId)

  /**
    A response frame as `parseResponse` reads it. The client sees the id and the
    outcome; `call` records which request the server answered.
   */
  datatype Answer = Answer(conn: ConnId, id: ReqId, outcome: Outcome, call: Option<CallId>)

  /** History: where the right to send on a call's channel has got to. */
  datatype Place = InMap | AtReader(conn: ConnId) | AtTeardown(conn: ConnId) | Sent | Removed

  datatype State = State(
    sh: Shared,
    nextConn: ConnId,
    pcs: map<CallId, Pc>,
    chans: map<CallId, Chan>,
    readers: map<ConnId, Reader>,
    teardowns: map<ConnId, Teardown>,
    closing: set<ConnId>,            // teardowns that `Close` is about to run
    dropped: bool,                   // a teardown found a channel full
    inflight: set<Frame>,            // written, not yet read by the server
    handling: map<Frame, bool>,      // in a handler; whether it executed the operation
    executed: multiset<CallId>,
    answers: set<Answer>,
    ids: map<CallId, ReqId>,         // history: the id each call registered
    place: map<CallId, Place>,       // history
    sentOn: map<CallId, ConnId>)     // history: calls of which any part may have been sent

  const INIT := State(Shared(None, None, 0, false), 0, map[], map[], map[], map[], {}, false,
                      {}, map[], multiset{}, {}, map[], map[], map[])

  /** What a server may answer: a reply, a status, the ServiceError arm, or something unusable. */
  ghost predicate FromServer(out: Outcome) {
    || out.Reply?
    || IsStatusError(out.err) || IsServiceArm(out.err) || IsUnusable(out.err)
  }

  /** A server that executed a request does not answer that it was not applied. */
  ghost predicate Truthful(executed: bool, out: Outcome) {
    executed && out.Failed? ==> !Is(out.err, NotApplied)
  }

  datatype Step =
    | EnsureConn(call: CallId, dialError: Option<IoErr>)
    | Register(call: CallId)
    | Write(call: CallId)
    | WriteFails(call: CallId, cause: IoErr, delivered: bool)
    | TeardownAfterWrite(call: CallId)
    | Cancel(call: CallId, reason: Err)
    | Take(call: CallId)
    | ReadAnswer(conn: ConnId, answer: Answer)
    | Deliver(conn: ConnId)
    | ReadFails(conn: ConnId, cause: IoErr)
    | PayOne(conn: ConnId, call: CallId)
    | CloseStarts
    | CloseTeardown(conn: ConnId)
    | ServerReceives(frame: Frame)
    | Executes(frame: Frame)
    | Answers(frame: Frame, outcome: Outcome)
    | AnswersMalformed(conn: ConnId, outcome: Outcome)

  ghost predicate Enabled(s: State, st: Step) {
    match st
    case EnsureConn(c, _) => c !in s.pcs
    case Register(c) => c in s.pcs && s.pcs[c].HaveConn?
    case Write(c) => c in s.pcs && s.pcs[c].HaveId?
    case WriteFails(c, _, _) => c in s.pcs && s.pcs[c].HaveId?
    case TeardownAfterWrite(c) => c in s.pcs && s.pcs[c].WriteFailed?
    case Cancel(c, e) => c in s.pcs && s.pcs[c].Waiting? && (e == Canceled || e == DeadlineExceeded)
    case Take(c) => c in s.pcs && s.pcs[c].Waiting? && c in s.chans && Full(s.chans[c])
    case ReadAnswer(k, a) => k in s.readers && s.readers[k].Reading? && a in s.answers && a.conn == k
    case Deliver(k) =>
      && k in s.readers && s.readers[k].Delivering?
      && s.readers[k].call in s.chans && !Full(s.chans[s.readers[k].call])
    case ReadFails(k, _) => k in s.readers && s.readers[k].Reading?
    case PayOne(k, c) => k in s.teardowns && c in s.teardowns[k].owed && c in s.chans
    case CloseStarts => true
    case CloseTeardown(k) => k in s.closing
    case ServerReceives(f) => f in s.inflight
    case Executes(f) => f in s.handling && !s.handling[f]
    case Answers(f, out) => f in s.handling && FromServer(out) && Truthful(s.handling[f], out)
    case AnswersMalformed(_, out) => FromServer(out)
  }

  /** How `readLoop` words the end of a connection. */
  function ConnectionClosed(cause: IoErr): IoErr { Context("corndogs: connection closed", cause) }

  function Finish(s: State, c: CallId, out: Outcome): State { s.(pcs := s.pcs[c := Done(out)]) }

  /** `teardown(k, cause)` up to its first send. */
  function TornDown(s: State, k: ConnId, cause: IoErr): State {
    var (sh, taken) := Detached(s.sh, k);
    if taken.None? then s
    else
      var owed := taken.value.Values;
      s.(sh := sh, teardowns := s.teardowns[k := Teardown(owed, cause)],
         place := map c | c in s.place :: if c in owed then AtTeardown(k) else s.place[c])
  }

  function Push(s: State, c: CallId, out: Outcome): State
    requires c in s.chans
  {
    s.(chans := s.chans[c := s.chans[c].(sent := s.chans[c].sent + [out])], place := s.place[c := Sent])
  }

  ghost function Apply(s: State, st: Step): State
    requires Enabled(s, st)
  {
    match st
    case EnsureConn(c, dialError) => AfterEnsure(s, c, dialError)
    case Register(c) => AfterRegister(s, c)
    case Write(c) =>
      var pc := s.pcs[c];
      s.(pcs := s.pcs[c := Waiting(pc.id)], inflight := s.inflight + {Frame(pc.conn, pc.id, c)},
         sentOn := s.sentOn[c := pc.conn])
    case WriteFails(c, cause, delivered) =>
      var pc := s.pcs[c];
      s.(pcs := s.pcs[c := WriteFailed(pc.conn, pc.id, cause)],
         inflight := if delivered then s.inflight + {Frame(pc.conn, pc.id, c)} else s.inflight,
         sentOn := s.sentOn[c := pc.conn])
    case TeardownAfterWrite(c) =>
      Finish(TornDown(s, s.pcs[c].conn, s.pcs[c].cause), c, Failed(Uncertain(s.pcs[c].cause)))
    case Cancel(c, e) => AfterCancel(s, c, e)
    case Take(c) =>
      var ch := s.chans[c];
      Finish(s, c, ch.sent[ch.taken]).(chans := s.chans[c := ch.(taken := ch.taken + 1)])
    case ReadAnswer(k, a) => AfterRead(s, k, a)
    case Deliver(k) => Push(s, s.readers[k].call, s.readers[k].outcome).(readers := s.readers[k := Reading])
    case ReadFails(k, cause) =>
      TornDown(s, k, ConnectionClosed(cause)).(readers := s.readers[k := Exited])
    case PayOne(k, c) => AfterPay(s, k, c)
    case CloseStarts =>
      s.(sh := s.sh.(closed := true),
         closing := if s.sh.conn.Some? then s.closing + {s.sh.conn.value} else s.closing)
    case CloseTeardown(k) => TornDown(s, k, CLOSED).(closing := s.closing - {k})
    case ServerReceives(f) => s.(inflight := s.inflight - {f}, handling := s.handling[f := false])
    case Executes(f) => s.(handling := s.handling[f := true], executed := s.executed + multiset{f.call})
    case Answers(f, out) =>
      s.(handling := s.handling - {f}, answers := s.answers + {Answer(f.conn, f.id, out, Some(f.call))})
    case AnswersMalformed(k, out) => s.(answers := s.answers + {Answer(k, 0, out, None)})
  }

  function AfterEnsure(s: State, c: CallId, dialError: Option<IoErr>): State {
    var dial := if dialError.Some? then NoConn(dialError.value) else UseConn(s.nextConn);
    var (sh, r) := Ensured(s.sh, dial);
    var dialed := r.UseConn? && s.sh.conn.None?;
    s.(sh := sh,
       pcs := s.pcs[c := if r.UseConn? then HaveConn(r.conn) else Done(Failed(NotAppliedBecause(r.reason)))],
       nextConn := if dialed then s.nextConn + 1 else s.nextConn,
       readers := if dialed then s.readers[s.nextConn := Reading] else s.readers)
  }

  function AfterRegister(s: State, c: CallId): State
    requires c in s.pcs && s.pcs[c].HaveConn?
  {
    var (sh, id) := Registered(s.sh, c);
    var pc := if id.Some? then HaveId(s.pcs[c].conn, id.value) else Done(Failed(NotAppliedBecause(LOST)));
    s.(sh := sh, pcs := s.pcs[c := pc],
       chans := if id.Some? then s.chans[c := Chan([], 0)] else s.chans,
       ids := if id.Some? then s.ids[c := id.value] else s.ids,
       place := if id.Some? then s.place[c := InMap] else s.place)
  }

  function AfterCancel(s: State, c: CallId, e: Err): State
    requires c in s.pcs && s.pcs[c].Waiting?
  {
    var id := s.pcs[c].id;
    var held := s.sh.pending.Some? && id in s.sh.pending.value;
    Finish(s, c, Failed(Uncertain(e))).(
      sh := Forgotten(s.sh, id), place := if held then s.place[c := Removed] else s.place)
  }

  function AfterRead(s: State, k: ConnId, a: Answer): State {
    var (sh, waiter) := Claimed(s.sh, a.id);
    if waiter.None? then s
    else s.(sh := sh, readers := s.readers[k := Delivering(waiter.value, a.outcome)],
            place := s.place[waiter.value := AtReader(k)])
  }

  function AfterPay(s: State, k: ConnId, c: CallId): State
    requires k in s.teardowns && c in s.chans
  {
    var t := s.teardowns[k];
    var ch := s.chans[c];
    var full := Full(ch);
    s.(teardowns := s.teardowns[k := t.(owed := t.owed - {c})], place := s.place[c := Sent],
       dropped := s.dropped || full,
       chans := s.chans[c := if full then ch else ch.(sent := ch.sent + [Failed(Uncertain(t.cause))])])
  }

  /** The state after a run of steps, if each is enabled in its turn. */
  ghost function Exec(s: State, steps: seq<Step>): Option<State> {
    if steps == [] then Some(s)
    else
      var t := Exec(s, steps[..|steps| - 1]);
      if t.Some? && Enabled(t.value, steps[|steps| - 1]) then Some(Apply(t.value, steps[|steps| - 1])) else None
  }
}
