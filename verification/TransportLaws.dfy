/**
  What the transport promises over every interleaving of concurrent calls, handlers
  that finish in any order, cancellations, teardowns and re-dials.
 */
module TransportLaws {
  import opened Bytes
  import opened Errors
  import opened Retry
  import opened RetryLaws
  import opened Transport
  import opened TransportInvariant

  ghost predicate Reachable(s: State) { exists steps :: Exec(INIT, steps) == Some(s) }

  lemma ReachableInv(s: State)
    requires Reachable(s)
    ensures Inv(s)
  {
    hide Inv;
    var steps :| Exec(INIT, steps) == Some(s);
    RunKeeps(steps, s);
  }

  // ----- Replies go to the call that asked -----

  /** The server answered frame `f` with `out` in the course of the run. */
  ghost predicate ServerAnswered(steps: seq<Step>, f: Frame, out: Outcome) {
    exists i :: 0 <= i < |steps| && steps[i] == Answers(f, out)
  }

  lemma {:induction false} AnswersComeFromTheServer(steps: seq<Step>, s: State, a: Answer)
    requires Exec(INIT, steps) == Some(s) && a in s.answers && a.id != 0
    ensures a.call.Some? && ServerAnswered(steps, Frame(a.conn, a.id, a.call.value), a.outcome)
  {
    hide Enabled, Apply;
    if steps != [] {
      var n := |steps| - 1;
      var before := Exec(INIT, steps[..n]).value;
      if a in before.answers {
        AnswersComeFromTheServer(steps[..n], before, a);
        var i :| 0 <= i < n && steps[..n][i] == Answers(Frame(a.conn, a.id, a.call.value), a.outcome);
        assert steps[i] == steps[..n][i];
      } else {
        StepAnswers(before, steps[n], a);
      }
    }
  }

  /**
    Whatever payload a call returns, the server produced it in answer to the very frame
    that this call wrote: its own id, on the connection it wrote to.
   */
  lemma RepliesAreOwn(steps: seq<Step>, s: State, c: CallId, payload: bytes)
    requires Exec(INIT, steps) == Some(s) && c in s.pcs && s.pcs[c] == Done(Reply(payload))
    ensures c in s.ids && c in s.sentOn
    ensures ServerAnswered(steps, Frame(s.sentOn[c], s.ids[c], c), Reply(payload))
  {
    hide Exec, Inv, CallsInv, FromServer, Truthful;
    RunKeeps(steps, s);
    var a := AnswerOf(s, c);
    AnswersComeFromTheServer(steps, s, a);
  }

  lemma AnswerOf(s: State, c: CallId) returns (a: Answer)
    requires Inv(s) && c in s.pcs && s.pcs[c].Done? && s.pcs[c].outcome.Reply?
    ensures a in s.answers && a.id != 0 && a.call == Some(c) && a.outcome == s.pcs[c].outcome
    ensures c in s.ids && s.ids[c] == a.id && c in s.sentOn && s.sentOn[c] == a.conn
  {
    hide Live, Numbered, Calls, SameCalls, PcPlace, PcSent, PlacesInv, Frames, AtMostOnce, FromServer, Truthful;
    assert Ended(s.answers, s.sentOn, c, s.pcs[c].outcome);
    a :| a in s.answers && a.id != 0 && a.call == Some(c) && a.outcome == s.pcs[c].outcome;
    assert TrueAnswer(a, s.ids, s.sentOn, s.executed, s.inflight, s.handling);
  }

  // ----- One place, one send -----

  predicate InTheMap(s: State, c: CallId) {
    s.sh.pending.Some? && c in s.ids && s.ids[c] in s.sh.pending.value && s.sh.pending.value[s.ids[c]] == c
  }

  ghost function ReadersOf(s: State, c: CallId): set<ConnId> { set k | k in s.readers && Holds(s.readers, k, c) }

  ghost function TeardownsOf(s: State, c: CallId): set<ConnId> { set k | k in s.teardowns && Owes(s.teardowns, k, c) }

  /** A cancelled call took its own id out of the map. */
  ghost predicate TookItself(s: State, c: CallId) { c in s.place && s.place[c].Removed? }

  /**
    In every reachable state there is a connection exactly when there is a map, and each
    registered call is in exactly one place: the map, one reader, one teardown, already
    sent to (once), or removed by itself after it was cancelled.
   */
  lemma OnePlace(s: State, c: CallId)
    requires Reachable(s) && c in s.ids
    ensures s.sh.conn.None? <==> s.sh.pending.None?
    ensures c in s.chans
    ensures (if InTheMap(s, c) then 1 else 0) + |ReadersOf(s, c)| + |TeardownsOf(s, c)| + |s.chans[c].sent|
            + (if TookItself(s, c) then 1 else 0) == 1
    ensures c in s.pcs && (TookItself(s, c) ==> s.pcs[c].Done?)
  {
    hide Inv, Reachable, Exec, InTheMap, ReadersOf, TeardownsOf;
    ReachableInv(s);
    Basics(s, c);
    MapCount(s, c);
    ReaderCount(s, c);
    TeardownCount(s, c);
  }

  lemma Basics(s: State, c: CallId)
    requires Inv(s) && c in s.ids
    ensures s.sh.conn.None? <==> s.sh.pending.None?
    ensures c in s.chans && c in s.place && c in s.pcs
    ensures |s.chans[c].sent| == (if s.place[c].Sent? then 1 else 0)
    ensures TookItself(s, c) ==> s.pcs[c].Done?
  {
    hide Numbered, PcSent, DoneTrue, MapPlace, ReaderPlace, TeardownPlace, ReadersTrue, ChansTrue, NetworkInv, HasItsId;
  }

  lemma MapCount(s: State, c: CallId)
    requires Inv(s) && c in s.place && c in s.ids
    ensures InTheMap(s, c) <==> s.place[c].InMap?
  {
    hide Live, Calls, PcPlace, PcSent, DoneTrue, ReaderPlace, TeardownPlace, ChanPlace, ReadersTrue, ChansTrue,
         NetworkInv;
    if s.sh.pending.Some? && s.ids[c] in s.sh.pending.value {
      assert HeldRightly(s.sh.pending.value, s.ids[c], s.ids, s.place);
    }
  }

  lemma ReaderCount(s: State, c: CallId)
    requires Inv(s) && c in s.place
    ensures ReadersOf(s, c) == if s.place[c].AtReader? then {s.place[c].conn} else {}
  {
    hide Live, CallsInv, MapPlace, TeardownPlace, ChanPlace, ReadersTrue, ChansTrue, NetworkInv;
    forall k: ConnId ensures Holds(s.readers, k, c) <==> s.place[c] == AtReader(k) {
    }
  }

  lemma TeardownCount(s: State, c: CallId)
    requires Inv(s) && c in s.place
    ensures TeardownsOf(s, c) == if s.place[c].AtTeardown? then {s.place[c].conn} else {}
  {
    hide Live, CallsInv, MapPlace, ReaderPlace, ChanPlace, ReadersTrue, ChansTrue, NetworkInv;
    forall k: ConnId ensures Owes(s.teardowns, k, c) <==> s.place[c] == AtTeardown(k) {
    }
  }

  /** A reader that has claimed a call can always send to it: it never blocks. */
  lemma ReaderNeverBlocks(s: State, k: ConnId)
    requires Reachable(s) && k in s.readers && s.readers[k].Delivering?
    ensures Enabled(s, Deliver(k))
  {
    hide Inv, Reachable, Exec;
    ReachableInv(s);
    ReaderHolds(s, k);
    HasRoom(s, s.readers[k].call);
  }

  lemma ReaderHolds(s: State, k: ConnId)
    requires Inv(s) && k in s.readers && s.readers[k].Delivering?
    ensures s.readers[k].call in s.place && s.place[s.readers[k].call] == AtReader(k)
  {
    hide Live, CallsInv, MapPlace, ReaderPlace, TeardownPlace, ChanPlace, ReadersTrue, ChansTrue, NetworkInv;
    HeldByReader(s, k);
  }

  /** A teardown never finds a channel full: its default arm is dead. */
  lemma TeardownNeverDrops(s: State, k: ConnId, c: CallId)
    requires Reachable(s)
    ensures !s.dropped
    ensures k in s.teardowns && c in s.teardowns[k].owed ==> Enabled(s, PayOne(k, c)) && !Full(s.chans[c])
  {
    hide Reachable, Exec, Live, CallsInv, MapPlace, TeardownPlace, ReaderPlace, ChanPlace, ReadersTrue, ChansTrue,
         NetworkInv;
    ReachableInv(s);
    if k in s.teardowns && c in s.teardowns[k].owed {
      OwedByTeardown(s, k, c);
      HasRoom(s, c);
    }
  }

  /**
    No waiter is ever orphaned, by re-dialing or otherwise: it can take its result, or it
    is in the current map, or a reader or a teardown is about to send to it.
   */
  lemma NoWaiterIsForgotten(s: State, c: CallId)
    requires Reachable(s) && c in s.pcs && s.pcs[c].Waiting?
    ensures
      || Enabled(s, Take(c))
      || InTheMap(s, c)
      || (exists k :: Holds(s.readers, k, c) && Enabled(s, Deliver(k)))
      || (exists k :: Owes(s.teardowns, k, c) && Enabled(s, PayOne(k, c)))
  {
    hide Inv, Reachable, Exec, InTheMap;
    ReachableInv(s);
    WaiterIsPlaced(s, c);
    MapCount(s, c);
    match s.place[c]
    case InMap =>
    case AtReader(k) =>
      ReaderCount(s, c);
      assert k in ReadersOf(s, c);
      ReaderNeverBlocks(s, k);
      assert Holds(s.readers, k, c) && Enabled(s, Deliver(k));
    case AtTeardown(k) =>
      TeardownCount(s, c);
      assert k in TeardownsOf(s, c);
      TeardownNeverDrops(s, k, c);
      assert Owes(s.teardowns, k, c) && Enabled(s, PayOne(k, c));
    case Sent =>
    case Removed =>
  }

  lemma WaiterIsPlaced(s: State, c: CallId)
    requires Inv(s) && c in s.pcs && s.pcs[c].Waiting?
    ensures c in s.ids && c in s.place && c in s.chans && !s.place[c].Removed?
    ensures s.place[c].Sent? ==> Full(s.chans[c])
  {
    hide Live, Numbered, PcSent, DoneTrue, MapPlace, ReaderPlace, TeardownPlace, ReadersTrue, ChansTrue, NetworkInv;
    assert HasItsId(s.pcs[c], c, s.ids);
  }

  // ----- Runs that happen, among them the window between ensureConn and registration -----

  lemma Extend(s: State, st: Step)
    requires Reachable(s) && Enabled(s, st)
    ensures Reachable(Apply(s, st))
  {
    hide Enabled, Apply;
    var steps :| Exec(INIT, steps) == Some(s);
    var more := steps + [st];
    assert more[..|more| - 1] == steps;
    assert Exec(INIT, more) == Some(Apply(s, st));
  }

  /** Call 0 got connection 0; it was then lost, call 1 dialed connection 1, and call 0 registered there. */
  lemma LateRegistration() returns (s: State)
    ensures Reachable(s) && 0 in s.pcs && s.pcs[0] == HaveId(0, 1)
    ensures s.sh == Shared(Some(1), Some(map[1 := 0]), 1, false) && 0 in s.ids && s.ids[0] == 1
  {
    hide Reachable, NotAppliedBecause;
    InitReachable();
    Extend(INIT, EnsureConn(0, None));
    var s1 := AfterEnsure(INIT, 0, None);
    assert s1.sh == Shared(Some(0), Some(map[]), 0, false);
    Extend(s1, ReadFails(0, Plain("EOF")));
    var s2 := Apply(s1, ReadFails(0, Plain("EOF")));
    assert s2.sh == Shared(None, None, 0, false) && s2.pcs == map[0 := HaveConn(0)] && s2.nextConn == 1;
    Extend(s2, EnsureConn(1, None));
    var s3 := AfterEnsure(s2, 1, None);
    assert s3.sh == Shared(Some(1), Some(map[]), 0, false) && s3.pcs == map[0 := HaveConn(0), 1 := HaveConn(1)];
    Extend(s3, Register(0));
    s := AfterRegister(s3, 0);
  }

  lemma InitReachable()
    ensures Reachable(INIT)
  {
    assert Exec(INIT, []) == Some(INIT);
  }

  /** The ordinary course of one call: dial, register, write; */
  lemma RequestSent() returns (s: State)
    ensures Reachable(s) && s.pcs == map[0 := Waiting(1)] && s.sh == Shared(Some(0), Some(map[1 := 0]), 1, false)
    ensures s.readers == map[0 := Reading] && s.chans == map[0 := Chan([], 0)]
    ensures s.inflight == {Frame(0, 1, 0)} && s.handling == map[] && s.executed == multiset{}
  {
    hide Reachable, NotAppliedBecause;
    InitReachable();
    Extend(INIT, EnsureConn(0, None));
    var s1 := AfterEnsure(INIT, 0, None);
    assert s1.sh == Shared(Some(0), Some(map[]), 0, false) && s1.pcs == map[0 := HaveConn(0)];
    Extend(s1, Register(0));
    var s2 := AfterRegister(s1, 0);
    assert s2.pcs == map[0 := HaveId(0, 1)];
    Extend(s2, Write(0));
    s := Apply(s2, Write(0));
  }

  /** the server receives and executes */
  lemma RequestExecuted() returns (s: State)
    ensures Reachable(s) && s.pcs == map[0 := Waiting(1)] && s.sh == Shared(Some(0), Some(map[1 := 0]), 1, false)
    ensures s.readers == map[0 := Reading] && s.chans == map[0 := Chan([], 0)]
    ensures s.handling == map[Frame(0, 1, 0) := true] && s.executed == multiset{0}
  {
    hide Reachable, FromServer, Truthful;
    var f := Frame(0, 1, 0);
    var s0 := RequestSent();
    Extend(s0, ServerReceives(f));
    var s1 := Apply(s0, ServerReceives(f));
    assert s1.handling == map[f := false];
    Extend(s1, Executes(f));
    s := Apply(s1, Executes(f));
  }

  /** and answers; */
  lemma RequestAnswered(payload: bytes) returns (s: State)
    ensures Reachable(s) && s.pcs == map[0 := Waiting(1)] && s.sh == Shared(Some(0), Some(map[1 := 0]), 1, false)
    ensures s.readers == map[0 := Reading] && s.chans == map[0 := Chan([], 0)]
    ensures Answer(0, 1, Reply(payload), Some(0)) in s.answers && s.executed == multiset{0}
  {
    hide Reachable;
    var f := Frame(0, 1, 0);
    var s2 := RequestExecuted();
    Extend(s2, Answers(f, Reply(payload)));
    s := Apply(s2, Answers(f, Reply(payload)));
  }

  /** the reader claims the waiter */
  lemma ReplyClaimed(payload: bytes) returns (s: State)
    ensures Reachable(s) && s.pcs == map[0 := Waiting(1)] && s.executed == multiset{0}
    ensures s.readers == map[0 := Delivering(0, Reply(payload))] && s.chans == map[0 := Chan([], 0)]
  {
    hide Reachable, FromServer, Truthful;
    var s0 := RequestAnswered(payload);
    var a := Answer(0, 1, Reply(payload), Some(0));
    Extend(s0, ReadAnswer(0, a));
    s := AfterRead(s0, 0, a);
  }

  /** and delivers; */
  lemma ReplyDelivered(payload: bytes) returns (s: State)
    ensures Reachable(s) && s.pcs == map[0 := Waiting(1)] && s.executed == multiset{0}
    ensures 0 in s.chans && s.chans[0] == Chan([Reply(payload)], 0)
  {
    hide Reachable, FromServer, Truthful;
    var s1 := ReplyClaimed(payload);
    Extend(s1, Deliver(0));
    s := Apply(s1, Deliver(0));
    assert s.chans[0].sent == [] + [Reply(payload)];
  }

  /** and the call returns the payload. */
  lemma CallReturns(payload: bytes)
    ensures exists s :: Reachable(s) && Returned(s, 0, payload) && s.executed == multiset{0}
  {
    hide Reachable;
    var s := ReplyDelivered(payload);
    Extend(s, Take(0));
    assert Returned(Apply(s, Take(0)), 0, payload);
  }

  predicate Returned(s: State, c: CallId, payload: bytes) { c in s.pcs && s.pcs[c] == Done(Reply(payload)) }

  /** A waiter's id can be in the map of one connection while its frame went out on another. */
  lemma StaleWriteIsReachable()
    ensures exists s, c :: Reachable(s) && StaleWrite(s, c)
  {
    hide Reachable;
    var s := LateRegistration();
    Extend(s, Write(0));
    assert StaleWrite(Apply(s, Write(0)), 0);
  }

  predicate StaleWrite(s: State, c: CallId) {
    && c in s.pcs && s.pcs[c].Waiting? && InTheMap(s, c)
    && c in s.sentOn && s.sh.conn.Some? && s.sentOn[c] != s.sh.conn.value
  }

  /** If that write fails, its call ends and leaves its id in the map: the teardown it runs is not of that map. */
  lemma EndedCallCanStayInMap()
    ensures exists s, c :: Reachable(s) && Leaked(s, c)
  {
    hide Reachable, Uncertain;
    var s := LateRegistration();
    Extend(s, WriteFails(0, Plain("broken pipe"), false));
    var t := Apply(s, WriteFails(0, Plain("broken pipe"), false));
    Extend(t, TeardownAfterWrite(0));
    assert Leaked(Apply(t, TeardownAfterWrite(0)), 0);
  }

  predicate Leaked(s: State, c: CallId) { c in s.pcs && s.pcs[c].Done? && InTheMap(s, c) }

  // ----- Close -----

  /** A connection of a closed transport is one that a `Close` is about to tear down. */
  ghost predicate CloseHasIt(s: State) { s.sh.closed && s.sh.conn.Some? ==> s.sh.conn.value in s.closing }

  /** The same connection and the same `Close`s, or no connection any more. */
  ghost predicate GateKept(s: State, t: State) {
    && t.sh.closed == s.sh.closed && (t.sh.conn == s.sh.conn || t.sh.conn.None?)
    && forall k :: k in s.closing ==> k in t.closing
  }

  lemma EnsureGate(s: State, c: CallId, dialError: Option<IoErr>)
    requires CloseHasIt(s)
    ensures CloseHasIt(AfterEnsure(s, c, dialError)) && AfterEnsure(s, c, dialError).sh.closed == s.sh.closed
  {
    hide NotAppliedBecause;
  }

  lemma RegisterGate(s: State, c: CallId)
    requires c in s.pcs && s.pcs[c].HaveConn?
    ensures GateKept(s, AfterRegister(s, c))
  {
    hide NotAppliedBecause;
  }

  lemma CancelGate(s: State, c: CallId, e: Err)
    requires c in s.pcs && s.pcs[c].Waiting?
    ensures GateKept(s, AfterCancel(s, c, e))
  {
    hide Uncertain;
  }

  lemma ReadGate(s: State, k: ConnId, a: Answer)
    ensures GateKept(s, AfterRead(s, k, a))
  {
  }

  lemma SendGate(s: State, c: CallId, k: ConnId, out: Outcome)
    requires c in s.chans
    ensures GateKept(s, Push(s, c, out)) && (k in s.teardowns ==> GateKept(s, AfterPay(s, k, c)))
  {
    hide Uncertain;
  }

  lemma TeardownGate(s: State, k: ConnId, cause: IoErr)
    ensures GateKept(s, TornDown(s, k, cause)) && TornDown(s, k, cause).sh.conn != Some(k)
  {
    if s.sh.conn != Some(k) {
      assert TornDown(s, k, cause) == s;
    }
  }

  lemma CloseStep(s: State, st: Step)
    requires CloseHasIt(s) && Enabled(s, st)
    ensures CloseHasIt(Apply(s, st)) && (s.sh.closed ==> Apply(s, st).sh.closed)
  {
    hide FromServer, Truthful, Uncertain, Full, AfterEnsure, AfterRegister, AfterCancel, AfterRead, AfterPay, TornDown,
         Push;
    match st
    case EnsureConn(c, dialError) => EnsureGate(s, c, dialError);
    case Register(c) => RegisterGate(s, c);
    case Cancel(c, e) => CancelGate(s, c, e);
    case ReadAnswer(k, a) => ReadGate(s, k, a);
    case PayOne(k, c) => SendGate(s, c, k, Reply([]));
    case TeardownAfterWrite(c) => TeardownGate(s, s.pcs[c].conn, s.pcs[c].cause);
    case Deliver(k) => SendGate(s, s.readers[k].call, k, s.readers[k].outcome);
    case ReadFails(k, cause) => TeardownGate(s, k, ConnectionClosed(cause));
    case CloseTeardown(k) => TeardownGate(s, k, CLOSED);
    case _ =>
  }

  lemma {:induction false} CloseRun(steps: seq<Step>, s: State)
    requires Exec(INIT, steps) == Some(s)
    ensures CloseHasIt(s)
  {
    hide Enabled, Apply;
    if steps != [] {
      var n := |steps| - 1;
      var before := Exec(INIT, steps[..n]).value;
      CloseRun(steps[..n], before);
      hide CloseHasIt;
      CloseStep(before, steps[n]);
    }
  }

  /**
    In every interleaving: a closed transport has a connection only while a `Close` has
    still to tear it down. After that it has none, and no call is left in a map.
   */
  lemma ClosedHasNoConnection(s: State, c: CallId)
    requires Reachable(s) && s.sh.closed
    ensures s.sh.conn.Some? ==> s.sh.conn.value in s.closing && Enabled(s, CloseTeardown(s.sh.conn.value))
    ensures s.closing == {} ==> s.sh.conn.None? && !InTheMap(s, c)
  {
    hide Inv;
    var steps :| Exec(INIT, steps) == Some(s);
    CloseRun(steps, s);
    RunKeeps(steps, s);
    ConnIffMap(s);
  }

  lemma ConnIffMap(s: State)
    requires Inv(s)
    ensures s.sh.conn.None? <==> s.sh.pending.None?
  {
    hide CallsInv, PlacesInv, NetworkInv;
  }

  // ----- What an ended call may claim -----

  /** Every failed call ended with one of the errors that the retry rules were written for. */
  lemma ErrorsAreClassified(s: State, c: CallId)
    requires Reachable(s) && c in s.pcs && s.pcs[c].Done? && s.pcs[c].outcome.Failed?
    ensures FromCallOnce(s.pcs[c].outcome.err)
  {
    hide Reachable, Exec, Live, Numbered, Calls, SameCalls, PcPlace, PcSent, PlacesInv, Frames, AtMostOnce, Truthful;
    ReachableInv(s);
    var e := s.pcs[c].outcome.err;
    assert Ended(s.answers, s.sentOn, c, Failed(e));
    if AnsweredWith(s.answers, c, Failed(e)) {
      var a :| a in s.answers && a.id != 0 && a.call == Some(c) && a.outcome == Failed(e);
      assert TrueAnswer(a, s.ids, s.sentOn, s.executed, s.inflight, s.handling);
    }
  }

  /** A call that was told it was not applied did not execute. */
  lemma NotAppliedIsTrue(s: State, c: CallId)
    requires Inv(s) && c in s.pcs && s.pcs[c].Done? && s.pcs[c].outcome.Failed?
    requires Is(s.pcs[c].outcome.err, NotApplied)
    ensures s.executed[c] == 0
  {
    hide Is, Live, Numbered, Calls, SameCalls, PcPlace, PcSent, PlacesInv, Frames, FromServer, Uncertain;
    var e := s.pcs[c].outcome.err;
    assert Ended(s.answers, s.sentOn, c, Failed(e));
    if AnsweredWith(s.answers, c, Failed(e)) {
      var a :| a in s.answers && a.id != 0 && a.call == Some(c) && a.outcome == Failed(e);
      assert TrueAnswer(a, s.ids, s.sentOn, s.executed, s.inflight, s.handling);
    } else if x: IoErr :| e == Uncertain(x) {
      LocalKinds(x);
    }
  }

  /** A dial can fail with any I/O error, among them a timeout, and its call then ends as not applied. */
  lemma DialFailureIsReachable(x: IoErr)
    ensures exists s :: Reachable(s) && DialFailed(s, 0, x)
  {
    hide Reachable, NotAppliedBecause;
    InitReachable();
    Extend(INIT, EnsureConn(0, Some(x)));
    assert DialFailed(AfterEnsure(INIT, 0, Some(x)), 0, x);
  }

  predicate DialFailed(s: State, c: CallId, x: IoErr) {
    c in s.pcs && s.pcs[c] == Done(Failed(NotAppliedBecause(x))) && s.executed[c] == 0
  }

  lemma {:induction false} DoneIsFinal(s: State, steps: seq<Step>, t: State)
    requires Exec(s, steps) == Some(t)
    ensures KeepsDone(s.pcs, t.pcs)
  {
    hide Enabled, Apply;
    if steps != [] {
      var n := |steps| - 1;
      var before := Exec(s, steps[..n]).value;
      DoneIsFinal(s, steps[..n], before);
      StepKeepsDone(before, steps[n]);
    }
  }

  lemma {:induction false} ExecAppend(s: State, first: seq<Step>, more: seq<Step>)
    ensures Exec(s, first + more) ==
            if Exec(s, first).Some? then Exec(Exec(s, first).value, more) else None
  {
    hide Enabled, Apply;
    if more == [] {
      assert first + more == first;
    } else {
      var n := |more| - 1;
      ExecAppend(s, first, more[..n]);
      var all := first + more;
      assert all[..|all| - 1] == first + more[..n] && all[|all| - 1] == more[n];
    }
  }

  /**
    A call that was told it was not applied has not executed, and whatever happens next
    never will.
   */
  lemma NotAppliedForGood(s: State, more: seq<Step>, t: State, c: CallId)
    requires Reachable(s) && Exec(s, more) == Some(t)
    requires c in s.pcs && s.pcs[c].Done? && s.pcs[c].outcome.Failed? && Is(s.pcs[c].outcome.err, NotApplied)
    ensures s.executed[c] == 0 && t.executed[c] == 0
  {
    hide Inv, Exec, Is;
    var steps :| Exec(INIT, steps) == Some(s);
    ExecAppend(INIT, steps, more);
    RunKeeps(steps, s);
    RunKeeps(steps + more, t);
    DoneIsFinal(s, more, t);
    NotAppliedIsTrue(s, c);
    NotAppliedIsTrue(t, c);
  }

  /** No request frame executes twice, and none that was never sent. */
  lemma ExecutesAtMostOnce(s: State, c: CallId)
    requires Reachable(s)
    ensures s.executed[c] <= 1 && (c !in s.sentOn ==> s.executed[c] == 0)
  {
    hide Reachable, Exec, Live, CallsInv, PlacesInv, Frames, AnswersTrue;
    ReachableInv(s);
  }

  // ----- Whole calls over the step system -----

  /** How often the first `n` attempts executed; attempt `k` is call `calls(k)` of the transport in state `nodes(k)`. */
  ghost function TotalExecutions(nodes: nat -> State, calls: nat -> CallId, n: nat): nat {
    if n == 0 then 0 else TotalExecutions(nodes, calls, n - 1) + nodes(n - 1).executed[calls(n - 1)]
  }

  ghost predicate RanAs(node: State, c: CallId, out: Outcome) {
    Reachable(node) && c in node.pcs && node.pcs[c] == Done(out)
  }

  lemma ExecutedIsNotDenied(node: State, c: CallId, out: Outcome)
    requires RanAs(node, c, out) && node.executed[c] > 0 && out.Failed?
    ensures !Is(out.err, NotApplied)
  {
    hide Inv, Is, Reachable;
    ReachableInv(node);
    if Is(out.err, NotApplied) {
      NotAppliedIsTrue(node, c);
    }
  }

  lemma {:induction false} TotalIsCount(nodes: nat -> State, calls: nat -> CallId, applied: nat -> bool, n: nat)
    requires forall k :: 0 <= k < n ==> Reachable(nodes(k)) && (applied(k) <==> nodes(k).executed[calls(k)] > 0)
    ensures TotalExecutions(nodes, calls, n) == Executions(applied, n)
  {
    hide Reachable;
    if n > 0 {
      TotalIsCount(nodes, calls, applied, n - 1);
      ExecutesAtMostOnce(nodes(n - 1), calls(n - 1));
    }
  }

  /** Which of the first `n` attempts executed. */
  ghost function AppliedIn(nodes: nat -> State, calls: nat -> CallId, n: nat): nat -> bool {
    (k: nat) => k < n && nodes(k).executed[calls(k)] > 0
  }

  /** Attempts that ran as calls of some transport are truthful about not having been applied. */
  lemma RunsAreTruthful(w: World, nodes: nat -> State, calls: nat -> CallId, n: nat)
    requires forall k :: 0 <= k < n ==> RanAs(nodes(k), calls(k), w.outcome(k))
    ensures TruthfulStatus(w, AppliedIn(nodes, calls, n))
  {
    hide Is, RanAs;
    var applied := AppliedIn(nodes, calls, n);
    forall k | applied(k) && w.outcome(k).Failed? ensures !Is(w.outcome(k).err, NotApplied) {
      ExecutedIsNotDenied(nodes(k), calls(k), w.outcome(k));
    }
  }

  /** If at most the last attempt executed, then all of them together did as often as it. */
  lemma LastOneCounts(w: World, nodes: nat -> State, calls: nat -> CallId, n: nat)
    requires n >= 1 && forall k :: 0 <= k < n ==> RanAs(nodes(k), calls(k), w.outcome(k))
    requires Executions(AppliedIn(nodes, calls, n), n) == if AppliedIn(nodes, calls, n)(n - 1) then 1 else 0
    ensures TotalExecutions(nodes, calls, n) == nodes(n - 1).executed[calls(n - 1)] <= 1
  {
    hide Executions, TotalExecutions, Reachable;
    assert RanAs(nodes(n - 1), calls(n - 1), w.outcome(n - 1));
    TotalIsCount(nodes, calls, AppliedIn(nodes, calls, n), n);
    ExecutesAtMostOnce(nodes(n - 1), calls(n - 1));
  }

  /**
    `StreamTransport.Call` over the transport it runs on, in every interleaving with other
    calls: a legacy mutation executes at most once, and only in its last attempt.
   */
  lemma StreamCallExecutesOnce(
    addr: string, op: string, req: bytes, max: nat, w: World, nodes: nat -> State, calls: nat -> CallId)
    requires max >= 1 && !ReplaySafe(op)
    requires forall k :: 0 <= k < |StreamRun(addr, op, req, max, w, 0)| ==> RanAs(nodes(k), calls(k), w.outcome(k))
    ensures var n := |StreamRun(addr, op, req, max, w, 0)|;
            && n >= 1
            && TotalExecutions(nodes, calls, n) == nodes(n - 1).executed[calls(n - 1)] <= 1
  {
    hide StreamRun, ReplaySafe, RanAs, Executions, TotalExecutions, TruthfulStatus, GoesOn, AppliedIn;
    var n := |StreamRun(addr, op, req, max, w, 0)|;
    var applied := AppliedIn(nodes, calls, n);
    assert n >= 1 by { StreamRunShape(addr, op, req, max, w, 0); }
    RunsAreTruthful(w, nodes, calls, n);
    StreamAtMostOnce(addr, op, req, max, w, applied);
    LastOneCounts(w, nodes, calls, n);
  }

  /**
    `ClusterTransport.Call` over the transports of the nodes it tries. What executed on a
    node must not come back as text that reads as a redirect.
   */
  lemma ClusterCallExecutesOnce(
    seeds: seq<string>, op: string, req: bytes, w: World, route: Route, nodes: nat -> State, calls: nat -> CallId)
    requires !ReplaySafe(op)
    requires forall k :: 0 <= k < |ClusterRun(seeds, op, req, w, 0, route, Failed(NO_SEEDS)).log| ==>
               && RanAs(nodes(k), calls(k), w.outcome(k))
               && (nodes(k).executed[calls(k)] > 0 && w.outcome(k).Failed? ==> Redirect(w.outcome(k).err).None?)
    ensures var n := |ClusterRun(seeds, op, req, w, 0, route, Failed(NO_SEEDS)).log|;
            && TotalExecutions(nodes, calls, n) <= 1
            && (n > 0 ==> TotalExecutions(nodes, calls, n) == nodes(n - 1).executed[calls(n - 1)])
  {
    hide ClusterRun, ReplaySafe, Redirect, RanAs, Executions, TotalExecutions, TruthfulStatus, TruthfulText, AppliedIn;
    var n := |ClusterRun(seeds, op, req, w, 0, route, Failed(NO_SEEDS)).log|;
    RunsAreTruthful(w, nodes, calls, n);
    assert TruthfulText(w, AppliedIn(nodes, calls, n)) by { TextsAreTruthful(w, nodes, calls, n); }
    ClusterAtMostOnce(seeds, op, req, w, route, AppliedIn(nodes, calls, n));
    if n > 0 {
      LastOneCounts(w, nodes, calls, n);
    } else {
      NoAttempts(nodes, calls);
    }
  }

  lemma NoAttempts(nodes: nat -> State, calls: nat -> CallId)
    ensures TotalExecutions(nodes, calls, 0) == 0
  {
  }

  lemma TextsAreTruthful(w: World, nodes: nat -> State, calls: nat -> CallId, n: nat)
    requires forall k :: 0 <= k < n ==>
               (nodes(k).executed[calls(k)] > 0 && w.outcome(k).Failed? ==> Redirect(w.outcome(k).err).None?)
    ensures TruthfulText(w, AppliedIn(nodes, calls, n))
  {
    hide Redirect;
  }
}
