/**
  What the transport gets done: from every reachable state a call can get its request
  out, an answer that the reader takes reaches the call it is for, a teardown reaches
  every call in the map it takes, and each early end tells its own reason.
 */
module TransportProgress {
  import opened Bytes
  import opened Errors
  import opened Retry
  import opened Transport
  import opened TransportInvariant
  import opened TransportLaws

  /** The run of `steps` from `s` goes through, and leaves `c` ended with `out`. */
  ghost predicate EndsWith(s: State, steps: seq<Step>, c: CallId, out: Outcome) {
    var t := Exec(s, steps);
    t.Some? && c in t.value.pcs && t.value.pcs[c] == Done(out)
  }

  lemma ExecOne(s: State, a: Step)
    requires Enabled(s, a)
    ensures Exec(s, [a]) == Some(Apply(s, a))
  {
    hide Enabled, Apply;
    assert [a][..0] == [];
    assert Exec(s, []) == Some(s);
  }

  lemma ExecTwo(s: State, a: Step, b: Step)
    requires Enabled(s, a) && Enabled(Apply(s, a), b)
    ensures Exec(s, [a, b]) == Some(Apply(Apply(s, a), b))
  {
    hide Enabled, Apply;
    ExecOne(s, a);
    assert [a, b][..1] == [a];
  }

  lemma ExecThree(s: State, a: Step, b: Step, c: Step)
    requires Enabled(s, a) && Enabled(Apply(s, a), b) && Enabled(Apply(Apply(s, a), b), c)
    ensures Exec(s, [a, b, c]) == Some(Apply(Apply(Apply(s, a), b), c))
  {
    hide Enabled, Apply;
    ExecTwo(s, a, b);
    assert [a, b, c][..2] == [a, b];
  }

  // ----- Answers -----

  /** A reader that takes an answer claims the call that waits for its id, with that outcome, whatever it is. */
  lemma ReaderClaims(s: State, k: ConnId, a: Answer)
    requires Reachable(s) && k in s.readers && s.readers[k].Reading? && a in s.answers && a.conn == k
    requires s.sh.pending.Some? && a.id in s.sh.pending.value
    ensures Enabled(s, ReadAnswer(k, a))
    ensures var c, t := s.sh.pending.value[a.id], Apply(s, ReadAnswer(k, a));
            && a.call == Some(c) && Enabled(t, Deliver(k))
            && t.readers[k] == Delivering(c, a.outcome) && t.pcs == s.pcs && t.chans == s.chans
            && t.executed == s.executed
  {
    hide Inv, Reachable;
    var st := ReadAnswer(k, a);
    ReachableInv(s);
    AnswerIsForWaiter(s, a);
    Extend(s, st);
    ReaderNeverBlocks(AfterRead(s, k, a), k);
  }

  lemma AnswerIsForWaiter(s: State, a: Answer)
    requires Inv(s) && a in s.answers && s.sh.pending.Some? && a.id in s.sh.pending.value
    ensures a.call == Some(s.sh.pending.value[a.id])
  {
    hide Live, Calls, SameCalls, PcPlace, PcSent, DoneTrue, MapPlace, ReaderPlace, TeardownPlace, ChanPlace,
         ReadersTrue, ChansTrue, Frames, AtMostOnce, AnswersTrue, Numbered;
    IdMatches(s, a);
  }

  /** An answer to a waiting call ends it with exactly that outcome, be it a reply, a status or a service error. */
  lemma AnswerReachesWaiter(s: State, k: ConnId, a: Answer)
    requires Reachable(s) && k in s.readers && s.readers[k].Reading? && a in s.answers && a.conn == k
    requires s.sh.pending.Some? && a.id in s.sh.pending.value
    requires s.sh.pending.value[a.id] in s.pcs && s.pcs[s.sh.pending.value[a.id]].Waiting?
    ensures var c := s.sh.pending.value[a.id];
            var steps := [ReadAnswer(k, a), Deliver(k), Take(c)];
            EndsWith(s, steps, c, a.outcome) && Exec(s, steps).value.executed == s.executed
  {
    hide Inv, Reachable, Exec;
    var c := s.sh.pending.value[a.id];
    ReaderClaims(s, k, a);
    var t := Apply(s, ReadAnswer(k, a));
    Extend(s, ReadAnswer(k, a));
    ReachableInv(t);
    ReaderHolds(t, k);
    HasRoom(t, c);
    NothingTaken(t, c);
    DeliverThenTake(t, k, c);
    ExecThree(s, ReadAnswer(k, a), Deliver(k), Take(c));
  }

  lemma NothingTaken(s: State, c: CallId)
    requires Inv(s) && c in s.pcs && !s.pcs[c].Done? && c in s.place
    ensures c in s.chans && s.chans[c].taken == 0
  {
    hide Live, Numbered, Calls, PcSent, DoneTrue, MapPlace, ReaderPlace, TeardownPlace, ReadersTrue, ChansTrue,
         ChanPlace, NetworkInv;
  }

  lemma DeliverThenTake(t: State, k: ConnId, c: CallId)
    requires Enabled(t, Deliver(k)) && t.readers[k].call == c && c in t.pcs && t.pcs[c].Waiting?
    requires t.chans[c].sent == [] && t.chans[c].taken == 0
    ensures var u := Apply(t, Deliver(k));
            && Enabled(u, Take(c)) && Apply(u, Take(c)).executed == t.executed
            && c in Apply(u, Take(c)).pcs && Apply(u, Take(c)).pcs[c] == Done(t.readers[k].outcome)
  {
    var u := Apply(t, Deliver(k));
    assert u.chans[c].sent == [] + [t.readers[k].outcome];
  }

  // ----- Teardowns -----

  /** After a teardown of the current connection there is none, and every call in its map is owed the cause. */
  lemma TeardownTakesAll(s: State, k: ConnId, cause: IoErr, c: CallId)
    requires Reachable(s) && s.sh.conn == Some(k) && InTheMap(s, c)
    ensures var t := TornDown(s, k, cause);
            && t.sh.conn == None && t.sh.pending == None && t.pcs == s.pcs && t.chans == s.chans
            && k in t.teardowns && c in t.teardowns[k].owed && t.teardowns[k].cause == cause
  {
    hide Reachable, Inv;
    ReachableInv(s);
    assert s.ids[c] in s.sh.pending.value.Keys;
    assert c in s.sh.pending.value.Values;
  }

  /** A connection that fails ends every call that waits in its map, with the cause wrapped as uncertain. */
  lemma LostConnectionReachesWaiter(s: State, k: ConnId, cause: IoErr, c: CallId)
    requires Reachable(s) && s.sh.conn == Some(k) && k in s.readers && s.readers[k].Reading?
    requires InTheMap(s, c) && c in s.pcs && s.pcs[c].Waiting?
    ensures EndsWith(s, [ReadFails(k, cause), PayOne(k, c), Take(c)], c,
                     Failed(Uncertain(Context("corndogs: connection closed", cause))))
  {
    hide Inv, Reachable, Exec, InTheMap, TornDown, Uncertain;
    var st := ReadFails(k, cause);
    TeardownTakesAll(s, k, ConnectionClosed(cause), c);
    var t := Apply(s, st);
    Extend(s, st);
    PayThenTake(t, k, c);
    ExecThree(s, st, PayOne(k, c), Take(c));
  }

  /** So does `Close`, and so does a write that fails on the current connection. */
  lemma CloseReachesWaiter(s: State, k: ConnId, c: CallId)
    requires Reachable(s) && s.sh.conn == Some(k) && k in s.closing
    requires InTheMap(s, c) && c in s.pcs && s.pcs[c].Waiting?
    ensures EndsWith(s, [CloseTeardown(k), PayOne(k, c), Take(c)], c, Failed(Uncertain(CLOSED)))
  {
    hide Inv, Reachable, Exec, InTheMap, TornDown, Uncertain;
    var st := CloseTeardown(k);
    TeardownTakesAll(s, k, CLOSED, c);
    Extend(s, st);
    PayThenTake(Apply(s, st), k, c);
    ExecThree(s, st, PayOne(k, c), Take(c));
  }

  lemma FailedWriteReachesWaiter(s: State, d: CallId, c: CallId)
    requires Reachable(s) && d in s.pcs && s.pcs[d].WriteFailed? && s.sh.conn == Some(s.pcs[d].conn)
    requires InTheMap(s, c) && c in s.pcs && s.pcs[c].Waiting?
    ensures var k, cause := s.pcs[d].conn, s.pcs[d].cause;
            EndsWith(s, [TeardownAfterWrite(d), PayOne(k, c), Take(c)], c, Failed(Uncertain(cause)))
  {
    hide Inv, Reachable, Exec, InTheMap, TornDown, Uncertain;
    var k, st := s.pcs[d].conn, TeardownAfterWrite(d);
    TeardownTakesAll(s, k, s.pcs[d].cause, c);
    Extend(s, st);
    PayThenTake(Apply(s, st), k, c);
    ExecThree(s, st, PayOne(k, c), Take(c));
  }

  lemma PayThenTake(t: State, k: ConnId, c: CallId)
    requires Reachable(t) && k in t.teardowns && c in t.teardowns[k].owed && c in t.pcs && t.pcs[c].Waiting?
    ensures Enabled(t, PayOne(k, c))
    ensures var u := Apply(t, PayOne(k, c));
            && Enabled(u, Take(c))
            && c in Apply(u, Take(c)).pcs && Apply(u, Take(c)).pcs[c] == Done(Failed(Uncertain(t.teardowns[k].cause)))
  {
    hide Reachable, Inv, Uncertain;
    ReachableInv(t);
    WaiterIsPlaced(t, c);
    TeardownNeverDrops(t, k, c);
    NothingTaken(t, c);
    OwedHasRoom(t, k, c);
    var u := Apply(t, PayOne(k, c));
    assert u.chans[c].sent == [] + [Failed(Uncertain(t.teardowns[k].cause))];
  }

  lemma OwedHasRoom(s: State, k: ConnId, c: CallId)
    requires Inv(s) && k in s.teardowns && c in s.teardowns[k].owed
    ensures c in s.chans && s.chans[c].sent == []
  {
    hide Live, CallsInv, MapPlace, TeardownPlace, ReaderPlace, ChanPlace, ReadersTrue, ChansTrue, NetworkInv;
    OwedByTeardown(s, k, c);
    HasRoom(s, c);
  }

  // ----- Getting out -----

  /**
    On an open transport a new call gets its request out, dialing if need be: it then
    waits in the current map under an id that no call had, and its frame is on its way
    on the current connection.
   */
  lemma CallGetsOut(s: State, c: CallId)
    requires Reachable(s) && !s.sh.closed && c !in s.pcs
    ensures var r := Exec(s, [EnsureConn(c, None), Register(c), Write(c)]);
            && r.Some?
            && var t := r.value;
            && InTheMap(t, c) && t.sh.conn.Some? && c in t.pcs && t.pcs[c] == Waiting(t.ids[c])
            && Frame(t.sh.conn.value, t.ids[c], c) in t.inflight && t.executed == s.executed
            && (s.sh.conn.Some? ==> t.sh.conn == s.sh.conn)
            && forall d :: d in s.ids ==> s.ids[d] != t.ids[c]
  {
    hide Reachable, Exec, Inv, AfterEnsure, AfterRegister;
    ReachableInv(s);
    IdsAreOld(s);
    GetsConnection(s, c);
    var s1 := AfterEnsure(s, c, None);
    GetsId(s1, c);
    ExecThree(s, EnsureConn(c, None), Register(c), Write(c));
  }

  lemma GetsConnection(s: State, c: CallId)
    requires Inv(s) && !s.sh.closed
    ensures var t := AfterEnsure(s, c, None);
            && t.sh.conn.Some? && t.sh.pending.Some? && t.sh.nextID == s.sh.nextID
            && c in t.pcs && t.pcs[c] == HaveConn(t.sh.conn.value)
            && (s.sh.conn.Some? ==> t.sh.conn == s.sh.conn) && t.executed == s.executed
  {
    hide CallsInv, PlacesInv, NetworkInv, NotAppliedBecause;
  }

  lemma GetsId(s: State, c: CallId)
    requires c in s.pcs && s.pcs[c].HaveConn? && s.sh.pending.Some?
    ensures var t := AfterRegister(s, c);
            var id := s.sh.nextID + 1;
            && t.sh.conn == s.sh.conn && t.sh.pending == Some(s.sh.pending.value[id := c])
            && c in t.pcs && t.pcs[c] == HaveId(s.pcs[c].conn, id) && c in t.ids && t.ids[c] == id
            && t.executed == s.executed
  {
    hide NotAppliedBecause;
  }

  lemma IdsAreOld(s: State)
    requires Inv(s)
    ensures forall d :: d in s.ids ==> s.ids[d] <= s.sh.nextID
  {
    hide Live, Calls, PcPlace, PcSent, DoneTrue, PlacesInv, NetworkInv;
  }

  // ----- A whole call -----

  /** Some run goes from `s` to `t`. */
  ghost predicate Leads(s: State, t: State) { exists steps :: Exec(s, steps) == Some(t) }

  lemma LeadsBy(s: State, steps: seq<Step>, t: State)
    requires Exec(s, steps) == Some(t)
    ensures Leads(s, t)
  {
  }

  lemma {:induction false} ExecConcat(s: State, first: seq<Step>, t: State, second: seq<Step>)
    requires Exec(s, first) == Some(t)
    ensures Exec(s, first + second) == Exec(t, second)
    decreases |second|
  {
    hide Enabled, Apply;
    var n := |second| - 1;
    if second == [] {
      assert first + second == first;
    } else {
      ExecConcat(s, first, t, second[..n]);
      var all := first + second;
      assert all[..|all| - 1] == first + second[..n] && all[|all| - 1] == second[n];
    }
  }

  lemma LeadsOn(s: State, t: State, u: State)
    requires Leads(s, t) && Leads(t, u)
    ensures Leads(s, u)
    ensures Reachable(s) ==> Reachable(t) && Reachable(u)
  {
    hide Exec;
    var first :| Exec(s, first) == Some(t);
    var second :| Exec(t, second) == Some(u);
    ExecConcat(s, first, t, second);
    if Reachable(s) {
      var past :| Exec(INIT, past) == Some(s);
      ExecConcat(INIT, past, s, first);
      ExecConcat(INIT, past, s, first + second);
    }
  }

  lemma LeadsNowhere(s: State)
    ensures Leads(s, s)
  {
    assert Exec(s, []) == Some(s);
  }

  /** The current connection has a reader that has not given up. */
  ghost predicate ReaderRuns(s: State) {
    s.sh.conn.Some? ==> s.sh.conn.value in s.readers && !s.readers[s.sh.conn.value].Exited?
  }

  /** Readers untouched, and the same connection or none. */
  ghost predicate ReadersKept(s: State, t: State) {
    t.readers == s.readers && (t.sh.conn == s.sh.conn || t.sh.conn.None?)
  }

  lemma EnsureStartsReader(s: State, c: CallId, dialError: Option<IoErr>)
    requires ReaderRuns(s)
    ensures ReaderRuns(AfterEnsure(s, c, dialError))
  {
    hide NotAppliedBecause;
  }

  lemma RegisterKeepsReaders(s: State, c: CallId)
    requires c in s.pcs && s.pcs[c].HaveConn?
    ensures ReadersKept(s, AfterRegister(s, c))
  {
    hide NotAppliedBecause;
  }

  lemma CancelKeepsReaders(s: State, c: CallId, e: Err)
    requires c in s.pcs && s.pcs[c].Waiting?
    ensures ReadersKept(s, AfterCancel(s, c, e))
  {
    hide Uncertain;
  }

  lemma SendKeepsReaders(s: State, c: CallId, k: ConnId, out: Outcome)
    requires c in s.chans
    ensures ReadersKept(s, Push(s, c, out)) && (k in s.teardowns ==> ReadersKept(s, AfterPay(s, k, c)))
  {
    hide Uncertain;
  }

  lemma TeardownKeepsReaders(s: State, k: ConnId, cause: IoErr)
    ensures ReadersKept(s, TornDown(s, k, cause)) && TornDown(s, k, cause).sh.conn != Some(k)
  {
    TeardownGate(s, k, cause);
  }

  lemma ReadKeepsReader(s: State, k: ConnId, a: Answer)
    requires ReaderRuns(s)
    ensures ReaderRuns(AfterRead(s, k, a))
  {
  }

  lemma ReaderStep(s: State, st: Step)
    requires ReaderRuns(s) && Enabled(s, st)
    ensures ReaderRuns(Apply(s, st))
  {
    hide FromServer, Truthful, Uncertain, Full, AfterEnsure, AfterRegister, AfterCancel, AfterRead, AfterPay, TornDown,
         Push;
    match st
    case EnsureConn(c, dialError) => EnsureStartsReader(s, c, dialError);
    case Register(c) => RegisterKeepsReaders(s, c);
    case Cancel(c, e) => CancelKeepsReaders(s, c, e);
    case ReadAnswer(k, a) => ReadKeepsReader(s, k, a);
    case PayOne(k, c) => SendKeepsReaders(s, c, k, Reply([]));
    case TeardownAfterWrite(c) => TeardownKeepsReaders(s, s.pcs[c].conn, s.pcs[c].cause);
    case Deliver(k) => SendKeepsReaders(s, s.readers[k].call, k, s.readers[k].outcome);
    case ReadFails(k, cause) => TeardownKeepsReaders(s, k, ConnectionClosed(cause));
    case CloseTeardown(k) => TeardownKeepsReaders(s, k, CLOSED);
    case _ =>
  }

  lemma {:induction false} ReaderRun(steps: seq<Step>, s: State)
    requires Exec(INIT, steps) == Some(s)
    ensures ReaderRuns(s)
  {
    hide Enabled, Apply;
    if steps != [] {
      var n := |steps| - 1;
      var before := Exec(INIT, steps[..n]).value;
      ReaderRun(steps[..n], before);
      hide ReaderRuns;
      ReaderStep(before, steps[n]);
    }
  }

  /** In every interleaving the current connection has a running reader. */
  lemma ConnectionHasReader(s: State)
    requires Reachable(s) && s.sh.conn.Some?
    ensures s.sh.conn.value in s.readers && !s.readers[s.sh.conn.value].Exited?
  {
    hide Exec;
    var steps :| Exec(INIT, steps) == Some(s);
    ReaderRun(steps, s);
  }

  /** A reader that is busy gets free without anything else having to happen. */
  lemma ReaderGetsFree(s: State, k: ConnId) returns (t: State)
    requires Reachable(s) && s.sh.conn == Some(k)
    ensures Leads(s, t) && Reachable(t) && k in t.readers && t.readers[k].Reading?
    ensures t.sh == s.sh && t.pcs == s.pcs && t.ids == s.ids && t.inflight == s.inflight && t.executed == s.executed
  {
    hide Reachable, Exec, Leads;
    ConnectionHasReader(s);
    if s.readers[k].Reading? {
      LeadsNowhere(s);
      t := s;
    } else {
      ReaderNeverBlocks(s, k);
      t := Apply(s, Deliver(k));
      ExecOne(s, Deliver(k));
      LeadsBy(s, [Deliver(k)], t);
      Extend(s, Deliver(k));
    }
  }

  /** A server that has a request can execute it or not, and answer it with anything truthful under its own id. */
  lemma ServerAnswers(s: State, f: Frame, executes: bool, out: Outcome) returns (t: State)
    requires Reachable(s) && f in s.inflight && FromServer(out) && Truthful(executes, out)
    ensures Leads(s, t) && Reachable(t) && Answer(f.conn, f.id, out, Some(f.call)) in t.answers
    ensures t.sh == s.sh && t.pcs == s.pcs && t.ids == s.ids && t.readers == s.readers
    ensures t.executed == s.executed + if executes then multiset{f.call} else multiset{}
  {
    hide Reachable, Exec, Leads, FromServer, Truthful;
    var s1 := Apply(s, ServerReceives(f));
    Extend(s, ServerReceives(f));
    var s2 := if executes then Apply(s1, Executes(f)) else s1;
    t := Apply(s2, Answers(f, out));
    if executes {
      Extend(s1, Executes(f));
      ExecThree(s, ServerReceives(f), Executes(f), Answers(f, out));
      LeadsBy(s, [ServerReceives(f), Executes(f), Answers(f, out)], t);
    } else {
      ExecTwo(s, ServerReceives(f), Answers(f, out));
      LeadsBy(s, [ServerReceives(f), Answers(f, out)], t);
    }
    Extend(s2, Answers(f, out));
  }

  /**
    From every state that an open transport can get into, a new call can go all the way:
    for each truthful answer of the server there is a run that executes the request just
    as that answer supposes and ends the call with just that answer.
   */
  lemma CallCompletes(s: State, c: CallId, executes: bool, out: Outcome)
    requires Reachable(s) && !s.sh.closed && c !in s.pcs && FromServer(out) && Truthful(executes, out)
    ensures exists t :: Leads(s, t) && c in t.pcs && t.pcs[c] == Done(out)
              && t.executed == s.executed + if executes then multiset{c} else multiset{}
  {
    hide Reachable, Exec, Leads, FromServer, Truthful, Enabled;
    CallGetsOut(s, c);
    var out1 := [EnsureConn(c, None), Register(c), Write(c)];
    var t1 := Exec(s, out1).value;
    LeadsBy(s, out1, t1);
    LeadsNowhere(t1);
    LeadsOn(s, t1, t1);
    var k := t1.sh.conn.value;
    var f := Frame(k, t1.ids[c], c);
    var t2 := ReaderGetsFree(t1, k);
    var t3 := ServerAnswers(t2, f, executes, out);
    var a := Answer(k, f.id, out, Some(c));
    AnswerReachesWaiter(t3, k, a);
    var back := [ReadAnswer(k, a), Deliver(k), Take(c)];
    var t := Exec(t3, back).value;
    LeadsBy(t3, back, t);
    LeadsOn(s, t1, t2);
    LeadsOn(s, t2, t3);
    LeadsOn(s, t3, t);
  }

  // ----- Close -----

  /** Once `Close` has started, the transport is closed in every state that follows, and never dials again. */
  lemma CloseIsForGood(s: State, more: seq<Step>, t: State, c: CallId, dialError: Option<IoErr>)
    requires Reachable(s) && Exec(Apply(s, CloseStarts), more) == Some(t)
    ensures t.sh.closed && (s.sh.conn.Some? ==> s.sh.conn.value in Apply(s, CloseStarts).closing)
    ensures c !in t.pcs ==> EndsWith(t, [EnsureConn(c, dialError)], c, Failed(NotAppliedBecause(CLOSED)))
  {
    hide Exec, NotAppliedBecause;
    Extend(s, CloseStarts);
    StaysClosed(Apply(s, CloseStarts), more, t);
    if c !in t.pcs {
      NoConnectionEnds(t, c, if dialError.Some? then dialError.value else CLOSED);
    }
  }

  lemma {:induction false} StaysClosed(s: State, more: seq<Step>, t: State)
    requires Reachable(s) && s.sh.closed && Exec(s, more) == Some(t)
    ensures Reachable(t) && t.sh.closed
  {
    hide Enabled, Apply, Reachable;
    if more != [] {
      var n := |more| - 1;
      var before := Exec(s, more[..n]).value;
      StaysClosed(s, more[..n], before);
      assert CloseHasIt(before) by { ReachableCloses(before); }
      CloseStep(before, more[n]);
      Extend(before, more[n]);
    }
  }

  lemma ReachableCloses(s: State)
    requires Reachable(s)
    ensures CloseHasIt(s)
  {
    hide Exec;
    var steps :| Exec(INIT, steps) == Some(s);
    CloseRun(steps, s);
  }

  // ----- Early ends -----

  /** A call that cannot get a connection ends as not applied, with the reason: closed, or what dialing failed with. */
  lemma NoConnectionEnds(s: State, c: CallId, x: IoErr)
    requires c !in s.pcs
    ensures s.sh.closed ==> EndsWith(s, [EnsureConn(c, Some(x))], c, Failed(NotAppliedBecause(CLOSED)))
    ensures s.sh.closed ==> EndsWith(s, [EnsureConn(c, None)], c, Failed(NotAppliedBecause(CLOSED)))
    ensures !s.sh.closed && s.sh.conn == None ==> EndsWith(s, [EnsureConn(c, Some(x))], c, Failed(NotAppliedBecause(x)))
  {
    hide Exec, NotAppliedBecause;
    ExecOne(s, EnsureConn(c, Some(x)));
    ExecOne(s, EnsureConn(c, None));
  }

  /** So does one whose connection is lost before it registers. */
  lemma LostBeforeRegistering(s: State, c: CallId)
    requires c in s.pcs && s.pcs[c].HaveConn? && s.sh.pending.None?
    ensures EndsWith(s, [Register(c)], c, Failed(NotAppliedBecause(LOST)))
  {
    hide Exec, NotAppliedBecause;
    ExecOne(s, Register(c));
  }

  /** A failed write ends its call as uncertain with its own cause, delivered or not, current connection or not. */
  lemma FailedWriteEnds(s: State, c: CallId, cause: IoErr, delivered: bool)
    requires c in s.pcs && s.pcs[c].HaveId?
    ensures EndsWith(s, [WriteFails(c, cause, delivered), TeardownAfterWrite(c)], c, Failed(Uncertain(cause)))
  {
    hide Exec, Uncertain, TornDown;
    ExecTwo(s, WriteFails(c, cause, delivered), TeardownAfterWrite(c));
  }

  /** An ended context ends its call as uncertain with the context's reason, and takes it out of the map. */
  lemma CancelledWaitEnds(s: State, c: CallId, e: Err)
    requires Reachable(s) && c in s.pcs && s.pcs[c].Waiting? && (e == Canceled || e == DeadlineExceeded)
    ensures EndsWith(s, [Cancel(c, e)], c, Failed(Uncertain(e)))
    ensures !InTheMap(Apply(s, Cancel(c, e)), c)
  {
    hide Reachable, Exec, Uncertain, Inv;
    ReachableInv(s);
    WaiterHasItsId(s, c);
    ExecOne(s, Cancel(c, e));
  }

  lemma WaiterHasItsId(s: State, c: CallId)
    requires Inv(s) && c in s.pcs && s.pcs[c].Waiting?
    ensures c in s.ids && s.ids[c] == s.pcs[c].id
  {
    hide Live, Numbered, PcPlace, PcSent, DoneTrue, PlacesInv, NetworkInv;
    WaitsForItsId(s.pcs, s.ids, c);
  }
}
