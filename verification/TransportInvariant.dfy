/**
  The invariant of the transport's step system, and that every step keeps it.

  The invariant is a conjunction of small predicates, each over the parts of the state
  it is about, so that a step has to answer only for the parts it changes.
 */
module TransportInvariant {
  import opened Bytes
  import opened Errors
  import opened Retry
  import opened Transport

  // ----- The parts -----

  /** A connection exactly when there is a map, and connection numbers are not reused. */
  ghost predicate Live(
    sh: Shared, nextConn: ConnId, readers: map<ConnId, Reader>, teardowns: map<ConnId, Teardown>) {
    && (sh.conn.None? <==> sh.pending.None?)
    && (sh.conn.Some? ==> sh.conn.value < nextConn && sh.conn.value !in teardowns)
    && (forall k :: k in readers ==> k < nextConn)
    && (forall k :: k in teardowns ==> k < nextConn)
  }

  /** Registered ids are never 0 and never shared, whatever connection they were registered under. */
  ghost predicate Numbered(nextID: nat, ids: map<CallId, ReqId>) {
    && (forall c :: c in ids ==> 1 <= ids[c] <= nextID)
    && (forall c, d :: c in ids && d in ids && ids[c] == ids[d] ==> c == d)
  }

  ghost predicate HasItsId(pc: Pc, c: CallId, ids: map<CallId, ReqId>) {
    match pc
    case HaveConn(_) => c !in ids
    case HaveId(_, id) => c in ids && ids[c] == id
    case WriteFailed(_, id, _) => c in ids && ids[c] == id
    case Waiting(id) => c in ids && ids[c] == id
    case Done(_) => true
  }

  ghost predicate Calls(pcs: map<CallId, Pc>, ids: map<CallId, ReqId>) {
    && (forall c :: c in ids ==> c in pcs)
    && (forall c :: c in pcs ==> HasItsId(pcs[c], c, ids))
  }

  ghost predicate SameCalls(ids: map<CallId, ReqId>, chans: map<CallId, Chan>, place: map<CallId, Place>) {
    forall c :: (c in ids <==> c in place) && (c in ids <==> c in chans)
  }

  /** The map holds exactly the calls whose place is in the map, each under its own id. */
  ghost predicate MapPlace(pending: Option<map<ReqId, CallId>>, ids: map<CallId, ReqId>, place: map<CallId, Place>) {
    && (pending.Some? ==> forall id :: id in pending.value ==> HeldRightly(pending.value, id, ids, place))
    && (forall c :: c in place && place[c] == InMap ==> pending.Some? && c in ids && ids[c] in pending.value)
  }

  ghost predicate HeldRightly(m: map<ReqId, CallId>, id: ReqId, ids: map<CallId, ReqId>, place: map<CallId, Place>)
    requires id in m
  {
    m[id] in ids && ids[m[id]] == id && m[id] in place && place[m[id]] == InMap
  }

  ghost predicate Holds(readers: map<ConnId, Reader>, k: ConnId, c: CallId) {
    k in readers && readers[k].Delivering? && readers[k].call == c
  }

  /** A reader holds exactly the call whose place is at that reader. */
  ghost predicate ReaderPlace(readers: map<ConnId, Reader>, place: map<CallId, Place>) {
    forall k, c :: Holds(readers, k, c) <==> c in place && place[c] == AtReader(k)
  }

  ghost predicate Owes(teardowns: map<ConnId, Teardown>, k: ConnId, c: CallId) {
    k in teardowns && c in teardowns[k].owed
  }

  /** A teardown owes exactly the calls whose place is at that teardown. */
  ghost predicate TeardownPlace(teardowns: map<ConnId, Teardown>, place: map<CallId, Place>) {
    forall k, c :: Owes(teardowns, k, c) <==> c in place && place[c] == AtTeardown(k)
  }

  /** A channel has had one send if its call's place says so, and none otherwise. */
  ghost predicate ChanPlace(chans: map<CallId, Chan>, place: map<CallId, Place>) {
    forall c :: c in chans ==>
      && c in place
      && |chans[c].sent| == (if place[c] == Sent then 1 else 0)
      && chans[c].taken <= |chans[c].sent|
  }

  /** A call that has not ended has received nothing and was not removed. */
  ghost predicate PcPlace(pcs: map<CallId, Pc>, chans: map<CallId, Chan>, place: map<CallId, Place>) {
    forall c :: c in pcs && !pcs[c].Done? && c in place ==> c in chans && chans[c].taken == 0 && place[c] != Removed
  }

  /** A request frame is the one its call wrote. */
  ghost predicate Genuine(f: Frame, ids: map<CallId, ReqId>, sentOn: map<CallId, ConnId>) {
    f.call in ids && ids[f.call] == f.id && f.call in sentOn && sentOn[f.call] == f.conn
  }

  ghost predicate Frames(
    inflight: set<Frame>, handling: map<Frame, bool>, executed: multiset<CallId>,
    ids: map<CallId, ReqId>, sentOn: map<CallId, ConnId>) {
    && (forall f :: f in inflight ==> Genuine(f, ids, sentOn) && f !in handling && executed[f.call] == 0)
    && (forall f :: f in handling ==> Genuine(f, ids, sentOn) && executed[f.call] == if handling[f] then 1 else 0)
  }

  /** Nothing executes twice, and nothing executes that was not sent. */
  ghost predicate AtMostOnce(executed: multiset<CallId>, sentOn: map<CallId, ConnId>) {
    forall c :: executed[c] <= 1 && (c !in sentOn ==> executed[c] == 0)
  }

  ghost predicate PcSent(pcs: map<CallId, Pc>, sentOn: map<CallId, ConnId>) {
    forall c :: c in sentOn ==> c in pcs && !pcs[c].HaveConn? && !pcs[c].HaveId?
  }

  /** An answer with an id is the server's answer to the call that has that id, and settles whether it executed. */
  ghost predicate TrueAnswer(
    a: Answer, ids: map<CallId, ReqId>, sentOn: map<CallId, ConnId>, executed: multiset<CallId>,
    inflight: set<Frame>, handling: map<Frame, bool>) {
    && a.call.Some? && a.call.value in ids && ids[a.call.value] == a.id
    && a.call.value in sentOn && sentOn[a.call.value] == a.conn
    && FromServer(a.outcome) && Truthful(executed[a.call.value] > 0, a.outcome)
    && (forall f :: f in inflight || f in handling ==> f.call != a.call.value)
  }

  ghost predicate AnswersTrue(
    answers: set<Answer>, ids: map<CallId, ReqId>, sentOn: map<CallId, ConnId>, executed: multiset<CallId>,
    inflight: set<Frame>, handling: map<Frame, bool>) {
    forall a :: a in answers && a.id != 0 ==> TrueAnswer(a, ids, sentOn, executed, inflight, handling)
  }

  /** The server answered call `c` with `out`. */
  ghost predicate AnsweredWith(answers: set<Answer>, c: CallId, out: Outcome) {
    exists a :: a in answers && a.id != 0 && a.call == Some(c) && a.outcome == out
  }

  ghost predicate ReadersTrue(readers: map<ConnId, Reader>, answers: set<Answer>) {
    forall k :: k in readers && readers[k].Delivering? ==> AnsweredWith(answers, readers[k].call, readers[k].outcome)
  }

  /** What a teardown sends, and what a failed write or an ended context returns. */
  ghost predicate LostConnection(out: Outcome) { out.Failed? && SentAndLost(out.err) }

  /** What may be sent to `c`. */
  ghost predicate Earned(answers: set<Answer>, c: CallId, out: Outcome) {
    AnsweredWith(answers, c, out) || LostConnection(out)
  }

  ghost predicate ChansTrue(chans: map<CallId, Chan>, answers: set<Answer>) {
    forall c :: c in chans ==> forall i :: 0 <= i < |chans[c].sent| ==> Earned(answers, c, chans[c].sent[i])
  }

  /** How `c` may end. */
  ghost predicate Ended(answers: set<Answer>, sentOn: map<CallId, ConnId>, c: CallId, out: Outcome) {
    || Earned(answers, c, out)
    || (c !in sentOn && out.Failed? && NeverSent(out.err))
  }

  ghost predicate DoneTrue(pcs: map<CallId, Pc>, answers: set<Answer>, sentOn: map<CallId, ConnId>) {
    forall c :: c in pcs && pcs[c].Done? ==> Ended(answers, sentOn, c, pcs[c].outcome)
  }

  // ----- The whole -----

  /** Which calls there are and how far they got. */
  ghost predicate CallsInv(s: State) {
    && Numbered(s.sh.nextID, s.ids) && Calls(s.pcs, s.ids) && SameCalls(s.ids, s.chans, s.place)
    && PcPlace(s.pcs, s.chans, s.place) && PcSent(s.pcs, s.sentOn) && DoneTrue(s.pcs, s.answers, s.sentOn)
  }

  /** Who may send on each channel, and what was sent. */
  ghost predicate PlacesInv(s: State) {
    && MapPlace(s.sh.pending, s.ids, s.place) && ReaderPlace(s.readers, s.place)
    && TeardownPlace(s.teardowns, s.place) && ChanPlace(s.chans, s.place)
    && ReadersTrue(s.readers, s.answers) && ChansTrue(s.chans, s.answers)
  }

  /** What is on the wire and at the server. */
  ghost predicate NetworkInv(s: State) {
    && Frames(s.inflight, s.handling, s.executed, s.ids, s.sentOn) && AtMostOnce(s.executed, s.sentOn)
    && AnswersTrue(s.answers, s.ids, s.sentOn, s.executed, s.inflight, s.handling)
  }

  ghost predicate Inv(s: State) {
    Live(s.sh, s.nextConn, s.readers, s.teardowns) && !s.dropped && CallsInv(s) && PlacesInv(s) && NetworkInv(s)
  }

  lemma InitHolds()
    ensures Inv(INIT)
  {
  }

  // ----- Changes to one part -----

  /** A call that is new or under way ends. */
  lemma FinishKeeps(
    pcs: map<CallId, Pc>, c: CallId, out: Outcome, ids: map<CallId, ReqId>, chans: map<CallId, Chan>,
    place: map<CallId, Place>, answers: set<Answer>, sentOn: map<CallId, ConnId>)
    requires Calls(pcs, ids) && PcPlace(pcs, chans, place) && PcSent(pcs, sentOn) && DoneTrue(pcs, answers, sentOn)
    requires Ended(answers, sentOn, c, out)
    ensures var pcs' := pcs[c := Done(out)];
            Calls(pcs', ids) && PcPlace(pcs', chans, place) && PcSent(pcs', sentOn) && DoneTrue(pcs', answers, sentOn)
  {
    hide Ended;
  }

  lemma EndsLocally(answers: set<Answer>, sentOn: map<CallId, ConnId>, c: CallId, x: IoErr)
    ensures Ended(answers, sentOn, c, Failed(Uncertain(x)))
    ensures c !in sentOn ==> Ended(answers, sentOn, c, Failed(NotAppliedBecause(x)))
  {
    assert SentAndLost(Uncertain(x)) && NeverSent(NotAppliedBecause(x));
  }

  /** A call that is under way or new gets to its next point, with its id. */
  lemma MoveKeeps(
    pcs: map<CallId, Pc>, c: CallId, pc: Pc, ids: map<CallId, ReqId>, chans: map<CallId, Chan>,
    place: map<CallId, Place>, answers: set<Answer>, sentOn: map<CallId, ConnId>)
    requires Calls(pcs, ids) && PcPlace(pcs, chans, place) && PcSent(pcs, sentOn) && DoneTrue(pcs, answers, sentOn)
    requires if c in pcs then !pcs[c].Done? else c !in place
    requires !pc.Done? && HasItsId(pc, c, ids) && (pc.HaveConn? || pc.HaveId? ==> c !in sentOn)
    ensures var pcs' := pcs[c := pc];
            Calls(pcs', ids) && PcPlace(pcs', chans, place) && PcSent(pcs', sentOn) && DoneTrue(pcs', answers, sentOn)
  {
    hide Ended;
  }

  /** A call that has not ended has now been sent: no ended call was promised otherwise. */
  lemma SendKeeps(pcs: map<CallId, Pc>, c: CallId, pc: Pc, k: ConnId, answers: set<Answer>, sentOn: map<CallId, ConnId>)
    requires DoneTrue(pcs, answers, sentOn) && !pc.Done?
    ensures DoneTrue(pcs[c := pc], answers, sentOn[c := k])
  {
    forall d | d in pcs && d != c && pcs[d].Done? ensures Ended(answers, sentOn[c := k], d, pcs[d].outcome) {
      assert Ended(answers, sentOn, d, pcs[d].outcome);
    }
  }

  // ----- Steps of a call -----

  lemma EnsureKeeps(s: State, c: CallId, dialError: Option<IoErr>)
    requires Inv(s) && c !in s.pcs
    ensures Inv(AfterEnsure(s, c, dialError))
  {
    hide Inv, Ensured, NotAppliedBecause;
    var dial := if dialError.Some? then NoConn(dialError.value) else UseConn(s.nextConn);
    var (sh, r) := Ensured(s.sh, dial);
    EnsuredCases(s.sh, dial);
    if r.NoConn? {
      FailsEarly(s, c, r.reason);
    } else if s.sh.conn.Some? {
      GetsConn(s, c, r.conn);
    } else {
      DialKeeps(s);
      GetsConn(s.(sh := sh, nextConn := s.nextConn + 1, readers := s.readers[s.nextConn := Reading]), c, r.conn);
    }
  }

  /** `ensureConn` changes the guarded fields only to dial, and it dials only when there is no connection. */
  lemma EnsuredCases(sh: Shared, dial: EnsureResult)
    ensures var (sh', r) := Ensured(sh, dial);
            if r.NoConn? || sh.conn.Some? then sh' == sh
            else r == dial && sh' == sh.(conn := Some(dial.conn), pending := Some(map[]))
  {
  }

  lemma FailsEarly(s: State, c: CallId, reason: IoErr)
    requires Inv(s) && (c !in s.pcs || s.pcs[c].HaveConn?)
    ensures Inv(Finish(s, c, Failed(NotAppliedBecause(reason))))
  {
    hide Live, Numbered, Calls, SameCalls, PcPlace, PcSent, DoneTrue, MapPlace, ReaderPlace, TeardownPlace, ChanPlace,
         ReadersTrue, ChansTrue, Frames, AtMostOnce, AnswersTrue, Ended, NotAppliedBecause;
    NotYetSent(s.pcs, s.sentOn, c);
    EndsLocally(s.answers, s.sentOn, c, reason);
    FinishKeeps(s.pcs, c, Failed(NotAppliedBecause(reason)), s.ids, s.chans, s.place, s.answers, s.sentOn);
  }

  lemma NotYetSent(pcs: map<CallId, Pc>, sentOn: map<CallId, ConnId>, c: CallId)
    requires PcSent(pcs, sentOn) && (c !in pcs || pcs[c].HaveConn? || pcs[c].HaveId?)
    ensures c !in sentOn
  {
  }

  lemma GetsConn(s: State, c: CallId, k: ConnId)
    requires Inv(s) && c !in s.pcs
    ensures Inv(s.(pcs := s.pcs[c := HaveConn(k)]))
  {
    hide Live, Numbered, PcPlace, PcSent, DoneTrue, MapPlace, ReaderPlace, TeardownPlace, ChanPlace,
         ReadersTrue, ChansTrue, Frames, AtMostOnce, AnswersTrue;
    NotYetSent(s.pcs, s.sentOn, c);
    MoveKeeps(s.pcs, c, HaveConn(k), s.ids, s.chans, s.place, s.answers, s.sentOn);
  }

  /** Dialing drops no waiter: without a connection there is no map, and every waiter is with a reader or a teardown. */
  lemma DialKeeps(s: State)
    requires Inv(s) && s.sh.conn.None?
    ensures Inv(s.(sh := s.sh.(conn := Some(s.nextConn), pending := Some(map[])), nextConn := s.nextConn + 1,
                   readers := s.readers[s.nextConn := Reading]))
  {
    hide Numbered, Calls, SameCalls, PcPlace, PcSent, DoneTrue, Frames, AtMostOnce, AnswersTrue, MapPlace, ReaderPlace,
         TeardownPlace, ChanPlace, ReadersTrue, ChansTrue;
    EmptyMap(s.ids, s.place);
    IdleReader(s.readers, s.nextConn, Reading, s.place, s.answers);
  }

  /** A new connection starts with an empty map, and no waiter was in the old one. */
  lemma EmptyMap(ids: map<CallId, ReqId>, place: map<CallId, Place>)
    requires MapPlace(None, ids, place)
    ensures MapPlace(Some(map[]), ids, place)
  {
  }

  /** A reader that holds no call starts or stops. */
  lemma IdleReader(readers: map<ConnId, Reader>, k: ConnId, r: Reader, place: map<CallId, Place>, answers: set<Answer>)
    requires (k in readers ==> !readers[k].Delivering?) && !r.Delivering?
    requires ReaderPlace(readers, place) && ReadersTrue(readers, answers)
    ensures ReaderPlace(readers[k := r], place) && ReadersTrue(readers[k := r], answers)
  {
    var readers' := readers[k := r];
    forall j, c ensures Holds(readers', j, c) <==> Holds(readers, j, c) {
    }
  }

  lemma RegisterKeeps(s: State, c: CallId)
    requires Inv(s) && c in s.pcs && s.pcs[c].HaveConn?
    ensures Inv(AfterRegister(s, c))
  {
    hide Inv, NotAppliedBecause;
    BurnId(s);
    var t := s.(sh := s.sh.(nextID := s.sh.nextID + 1));
    if s.sh.pending.None? {
      FailsEarly(t, c, LOST);
    } else {
      Registers(s, c);
    }
  }

  lemma BurnId(s: State)
    requires Inv(s)
    ensures Inv(s.(sh := s.sh.(nextID := s.sh.nextID + 1)))
  {
    hide Calls, SameCalls, PcPlace, PcSent, DoneTrue, MapPlace, ReaderPlace, TeardownPlace, ChanPlace, ReadersTrue,
         ChansTrue, Frames, AtMostOnce, AnswersTrue;
  }

  lemma Registers(s: State, c: CallId)
    requires Inv(s) && c in s.pcs && s.pcs[c].HaveConn? && s.sh.pending.Some?
    ensures Inv(AfterRegister(s, c))
  {
    hide Live, Numbered, PcPlace, PcSent, DoneTrue, MapPlace, ReaderPlace, TeardownPlace, ChanPlace, ReadersTrue,
         ChansTrue, Frames, AtMostOnce, AnswersTrue, HasItsId;
    var id := s.sh.nextID + 1;
    assert Live(AfterRegister(s, c).sh, s.nextConn, s.readers, s.teardowns) by { LiveWithId(s, c); }
    assert c !in s.ids by { CallWithoutId(s.pcs, s.ids, c); }
    NotYetSent(s.pcs, s.sentOn, c);
    NewNumber(s.sh.nextID, s.ids, c);
    NewId(s, c, id);
    NewInMap(s.sh.pending.value, s.ids, s.place, c, s.sh.nextID);
    NewPlace(s.readers, s.teardowns, s.place, c);
    NewChan(s.chans, s.place, s.answers, c);
    NewIdOnWire(s, c, id);
  }

  lemma LiveWithId(s: State, c: CallId)
    requires Live(s.sh, s.nextConn, s.readers, s.teardowns)
    ensures Live(Registered(s.sh, c).0, s.nextConn, s.readers, s.teardowns)
  {
  }

  lemma CallWithoutId(pcs: map<CallId, Pc>, ids: map<CallId, ReqId>, c: CallId)
    requires Calls(pcs, ids) && c in pcs && pcs[c].HaveConn?
    ensures c !in ids
  {
  }

  lemma NewNumber(nextID: nat, ids: map<CallId, ReqId>, c: CallId)
    requires Numbered(nextID, ids)
    ensures Numbered(nextID + 1, ids[c := nextID + 1])
  {
  }

  lemma NewId(s: State, c: CallId, id: ReqId)
    requires Calls(s.pcs, s.ids) && PcPlace(s.pcs, s.chans, s.place) && PcSent(s.pcs, s.sentOn)
    requires DoneTrue(s.pcs, s.answers, s.sentOn)
    requires c in s.pcs && s.pcs[c].HaveConn? && c !in s.ids
    ensures var pcs' := s.pcs[c := HaveId(s.pcs[c].conn, id)];
            && Calls(pcs', s.ids[c := id])
            && PcPlace(pcs', s.chans[c := Chan([], 0)], s.place[c := InMap])
            && PcSent(pcs', s.sentOn) && DoneTrue(pcs', s.answers, s.sentOn)
  {
    hide Ended;
  }

  /** The new id is in nobody else's way, because it is larger than all before it. */
  lemma NewInMap(m: map<ReqId, CallId>, ids: map<CallId, ReqId>, place: map<CallId, Place>, c: CallId, nextID: nat)
    requires MapPlace(Some(m), ids, place) && Numbered(nextID, ids) && c !in ids && c !in place
    ensures MapPlace(Some(m[nextID + 1 := c]), ids[c := nextID + 1], place[c := InMap])
  {
    var m', ids', place' := m[nextID + 1 := c], ids[c := nextID + 1], place[c := InMap];
    forall id | id in m' ensures HeldRightly(m', id, ids', place') {
      if id != nextID + 1 {
        assert HeldRightly(m, id, ids, place);
      }
    }
  }

  lemma NewPlace(readers: map<ConnId, Reader>, teardowns: map<ConnId, Teardown>, place: map<CallId, Place>, c: CallId)
    requires ReaderPlace(readers, place) && TeardownPlace(teardowns, place) && c !in place
    ensures ReaderPlace(readers, place[c := InMap]) && TeardownPlace(teardowns, place[c := InMap])
  {
    hide Holds, Owes;
  }

  lemma NewChan(chans: map<CallId, Chan>, place: map<CallId, Place>, answers: set<Answer>, c: CallId)
    requires ChanPlace(chans, place) && ChansTrue(chans, answers)
    ensures ChanPlace(chans[c := Chan([], 0)], place[c := InMap]) && ChansTrue(chans[c := Chan([], 0)], answers)
  {
    hide Earned;
  }

  lemma NewIdOnWire(s: State, c: CallId, id: ReqId)
    requires NetworkInv(s) && c !in s.ids
    ensures Frames(s.inflight, s.handling, s.executed, s.ids[c := id], s.sentOn)
    ensures AnswersTrue(s.answers, s.ids[c := id], s.sentOn, s.executed, s.inflight, s.handling)
  {
    hide FromServer, Truthful;
  }

  // ----- Sending -----

  lemma WriteKeeps(s: State, c: CallId, pc: Pc, delivered: bool)
    requires Inv(s) && c in s.pcs && s.pcs[c].HaveId?
    requires pc == Waiting(s.pcs[c].id) || (pc.WriteFailed? && pc.id == s.pcs[c].id)
    ensures var k := s.pcs[c].conn;
            Inv(s.(pcs := s.pcs[c := pc], sentOn := s.sentOn[c := k],
                   inflight := if delivered then s.inflight + {Frame(k, s.pcs[c].id, c)} else s.inflight))
  {
    hide Live, Numbered, PcPlace, PcSent, DoneTrue, MapPlace, ReaderPlace, TeardownPlace, ChanPlace, ReadersTrue,
         ChansTrue, Frames, AtMostOnce, AnswersTrue, SameCalls;
    var k := s.pcs[c].conn;
    NotYetSent(s.pcs, s.sentOn, c);
    SendKeeps(s.pcs, c, pc, k, s.answers, s.sentOn);
    SentPcs(s.pcs, c, k, s.sentOn, pc);
    MoveKeeps(s.pcs, c, pc, s.ids, s.chans, s.place, s.answers, s.sentOn);
    FrameSent(s, c, k);
  }

  lemma SentPcs(pcs: map<CallId, Pc>, c: CallId, k: ConnId, sentOn: map<CallId, ConnId>, pc: Pc)
    requires PcSent(pcs, sentOn) && !pc.HaveConn? && !pc.HaveId?
    ensures PcSent(pcs[c := pc], sentOn[c := k])
  {
  }

  lemma FrameSent(s: State, c: CallId, k: ConnId)
    requires NetworkInv(s) && c in s.ids && c !in s.sentOn
    ensures var sentOn' := s.sentOn[c := k];
            var inflight' := s.inflight + {Frame(k, s.ids[c], c)};
            && Frames(s.inflight, s.handling, s.executed, s.ids, sentOn')
            && Frames(inflight', s.handling, s.executed, s.ids, sentOn')
            && AtMostOnce(s.executed, sentOn')
            && AnswersTrue(s.answers, s.ids, sentOn', s.executed, s.inflight, s.handling)
            && AnswersTrue(s.answers, s.ids, sentOn', s.executed, inflight', s.handling)
  {
    hide FromServer, Truthful;
  }

  // ----- Teardown -----

  /** Taking the map moves exactly its waiters to the teardown, which was not there before. */
  lemma TornDownKeeps(s: State, k: ConnId, cause: IoErr)
    requires Inv(s)
    ensures Inv(TornDown(s, k, cause))
    ensures TornDown(s, k, cause).pcs == s.pcs && TornDown(s, k, cause).readers == s.readers
  {
    hide Live, Numbered, Calls, PcPlace, PcSent, DoneTrue, MapPlace, ReaderPlace, TeardownPlace, ChanPlace, ReadersTrue,
         ChansTrue, Frames, AtMostOnce, AnswersTrue;
    if s.sh.conn == Some(k) {
      assert s.sh.pending.Some? && k !in s.teardowns by { LiveHasMap(s); }
      var owed := s.sh.pending.value.Values;
      var place' := TornDown(s, k, cause).place;
      OwedWereInMap(s.sh.pending.value, s.sh.nextID, s.ids, s.place);
      assert Moved(s.place, place', owed, k);
      MapGone(s.ids, place');
      DetachedPlaces(s, k, owed, cause, place');
      DetachedLive(s, k, owed, cause);
    }
  }

  lemma LiveHasMap(s: State)
    requires Live(s.sh, s.nextConn, s.readers, s.teardowns) && s.sh.conn.Some?
    ensures s.sh.pending.Some? && s.sh.conn.value !in s.teardowns
  {
  }

  lemma OwedWereInMap(m: map<ReqId, CallId>, nextID: nat, ids: map<CallId, ReqId>, place: map<CallId, Place>)
    requires MapPlace(Some(m), ids, place) && Numbered(nextID, ids)
    ensures forall c :: c in m.Values <==> c in place && place[c] == InMap
  {
    forall c ensures c in m.Values <==> c in place && place[c] == InMap {
      if c in m.Values {
        var id :| id in m && m[id] == c;
        assert HeldRightly(m, id, ids, place);
      }
      if c in place && place[c] == InMap {
        assert HeldRightly(m, ids[c], ids, place);
        assert m[ids[c]] == c;
      }
    }
  }

  lemma MapGone(ids: map<CallId, ReqId>, place: map<CallId, Place>)
    requires forall c :: c in place ==> place[c] != InMap
    ensures MapPlace(None, ids, place)
  {
  }

  /** The calls in `owed`, which were in the map, are now at the teardown of `k`; no other call moved. */
  ghost predicate Moved(place: map<CallId, Place>, place': map<CallId, Place>, owed: set<CallId>, k: ConnId) {
    && (forall c :: c in owed <==> c in place && place[c] == InMap)
    && (forall c :: c in place <==> c in place')
    && (forall c :: c in place' ==> place'[c] == if c in owed then AtTeardown(k) else place[c])
  }

  lemma DetachedPlaces(s: State, k: ConnId, owed: set<CallId>, cause: IoErr, place': map<CallId, Place>)
    requires Moved(s.place, place', owed, k) && k !in s.teardowns
    requires ReaderPlace(s.readers, s.place) && TeardownPlace(s.teardowns, s.place)
    requires ChanPlace(s.chans, s.place) && PcPlace(s.pcs, s.chans, s.place)
    ensures ReaderPlace(s.readers, place') && TeardownPlace(s.teardowns[k := Teardown(owed, cause)], place')
    ensures ChanPlace(s.chans, place') && PcPlace(s.pcs, s.chans, place')
  {
    var teardowns' := s.teardowns[k := Teardown(owed, cause)];
    forall j, c ensures Owes(teardowns', j, c) <==> c in place' && place'[c] == AtTeardown(j) {
      assert Owes(s.teardowns, j, c) <==> c in s.place && s.place[c] == AtTeardown(j);
    }
    forall j, c ensures Holds(s.readers, j, c) <==> c in place' && place'[c] == AtReader(j) {
      assert Holds(s.readers, j, c) <==> c in s.place && s.place[c] == AtReader(j);
    }
  }

  lemma DetachedLive(s: State, k: ConnId, owed: set<CallId>, cause: IoErr)
    requires Live(s.sh, s.nextConn, s.readers, s.teardowns) && s.sh.conn == Some(k)
    ensures Live(s.sh.(conn := None, pending := None), s.nextConn, s.readers, s.teardowns[k := Teardown(owed, cause)])
  {
  }

  lemma TeardownAfterWriteKeeps(s: State, c: CallId)
    requires Inv(s) && c in s.pcs && s.pcs[c].WriteFailed?
    ensures Inv(Finish(TornDown(s, s.pcs[c].conn, s.pcs[c].cause), c, Failed(Uncertain(s.pcs[c].cause))))
  {
    hide Inv, TornDown, Uncertain, Finish;
    TornDownKeeps(s, s.pcs[c].conn, s.pcs[c].cause);
    var t := TornDown(s, s.pcs[c].conn, s.pcs[c].cause);
    EndsLocally(t.answers, t.sentOn, c, s.pcs[c].cause);
    Ends(t, c, Failed(Uncertain(s.pcs[c].cause)));
  }

  lemma Ends(s: State, c: CallId, out: Outcome)
    requires Inv(s) && Ended(s.answers, s.sentOn, c, out)
    ensures Inv(Finish(s, c, out))
  {
    hide Live, Numbered, Calls, SameCalls, PcPlace, PcSent, DoneTrue, MapPlace, ReaderPlace, TeardownPlace, ChanPlace,
         ReadersTrue, ChansTrue, Frames, AtMostOnce, AnswersTrue, Ended;
    FinishKeeps(s.pcs, c, out, s.ids, s.chans, s.place, s.answers, s.sentOn);
  }

  // ----- The end of a wait -----

  lemma CancelKeeps(s: State, c: CallId, e: Err)
    requires Inv(s) && c in s.pcs && s.pcs[c].Waiting? && (e == Canceled || e == DeadlineExceeded)
    ensures Inv(AfterCancel(s, c, e))
  {
    hide Live, Numbered, Calls, PcPlace, PcSent, DoneTrue, MapPlace, ReaderPlace, TeardownPlace, ChanPlace,
         ReadersTrue, ChansTrue, Frames, AtMostOnce, AnswersTrue;
    var id := s.pcs[c].id;
    var t := Finish(s, c, Failed(Uncertain(e)));
    EndsLocally(s.answers, s.sentOn, c, e);
    Ends(s, c, Failed(Uncertain(e)));
    assert c in s.ids && s.ids[c] == id by { WaitsForItsId(s.pcs, s.ids, c); }
    if s.sh.pending.Some? && id in s.sh.pending.value {
      Leaves(s.sh.pending.value, s.sh.nextID, s.ids, s.place, c, Removed);
      LeavesForGood(t, c);
      LiveWithLess(s, id);
    } else if s.sh.pending.Some? {
      assert s.sh.pending.value - {id} == s.sh.pending.value;
      LiveWithLess(s, id);
    }
  }

  lemma WaitsForItsId(pcs: map<CallId, Pc>, ids: map<CallId, ReqId>, c: CallId)
    requires Calls(pcs, ids) && c in pcs && pcs[c].Waiting?
    ensures c in ids && ids[c] == pcs[c].id
  {
  }

  lemma LiveWithLess(s: State, id: ReqId)
    requires Live(s.sh, s.nextConn, s.readers, s.teardowns)
    ensures Live(Forgotten(s.sh, id), s.nextConn, s.readers, s.teardowns)
  {
  }

  /** One call leaves the map for `p`; the map goes on holding exactly the others. */
  lemma Leaves(
    m: map<ReqId, CallId>, nextID: nat, ids: map<CallId, ReqId>, place: map<CallId, Place>, c: CallId, p: Place)
    requires MapPlace(Some(m), ids, place) && Numbered(nextID, ids) && c in ids && ids[c] in m && p != InMap
    ensures m[ids[c]] == c && c in place && place[c] == InMap
    ensures MapPlace(Some(m - {ids[c]}), ids, place[c := p])
  {
    var m', place' := m - {ids[c]}, place[c := p];
    assert HeldRightly(m, ids[c], ids, place);
    forall id | id in m' ensures HeldRightly(m', id, ids, place') {
      assert HeldRightly(m, id, ids, place);
    }
    forall d | d in place' && place'[d] == InMap ensures d in ids && ids[d] in m' {
      assert place[d] == InMap;
    }
  }

  lemma LeavesForGood(s: State, c: CallId)
    requires c in s.place && s.place[c] == InMap && c in s.pcs && s.pcs[c].Done?
    requires ReaderPlace(s.readers, s.place) && TeardownPlace(s.teardowns, s.place)
    requires ChanPlace(s.chans, s.place) && PcPlace(s.pcs, s.chans, s.place)
    ensures var place' := s.place[c := Removed];
            && ReaderPlace(s.readers, place') && TeardownPlace(s.teardowns, place')
            && ChanPlace(s.chans, place') && PcPlace(s.pcs, s.chans, place')
  {
    hide Holds, Owes;
  }

  lemma TakeKeeps(s: State, c: CallId)
    requires Inv(s) && c in s.pcs && s.pcs[c].Waiting? && c in s.chans && Full(s.chans[c])
    ensures var ch := s.chans[c];
            Inv(Finish(s, c, ch.sent[ch.taken]).(chans := s.chans[c := ch.(taken := ch.taken + 1)]))
  {
    hide Live, Numbered, Calls, PcPlace, PcSent, DoneTrue, MapPlace, ReaderPlace, TeardownPlace, ChanPlace,
         ReadersTrue, ChansTrue, Frames, AtMostOnce, AnswersTrue, Ended;
    var ch := s.chans[c];
    var out := ch.sent[ch.taken];
    WasEarned(s, c);
    Ends(s, c, out);
    var t := Finish(s, c, out);
    Received(t.pcs, s.chans, s.place, s.answers, c);
  }

  lemma WasEarned(s: State, c: CallId)
    requires ChansTrue(s.chans, s.answers) && c in s.chans && Full(s.chans[c])
    ensures Ended(s.answers, s.sentOn, c, s.chans[c].sent[s.chans[c].taken])
  {
    hide Earned;
  }

  lemma Received(
    pcs: map<CallId, Pc>, chans: map<CallId, Chan>, place: map<CallId, Place>, answers: set<Answer>, c: CallId)
    requires PcPlace(pcs, chans, place) && ChanPlace(chans, place) && ChansTrue(chans, answers)
    requires c in chans && Full(chans[c]) && c in pcs && pcs[c].Done?
    ensures var chans' := chans[c := chans[c].(taken := chans[c].taken + 1)];
            PcPlace(pcs, chans', place) && ChanPlace(chans', place) && ChansTrue(chans', answers)
  {
    hide Earned;
  }

  // ----- The reader -----

  lemma ReadKeeps(s: State, k: ConnId, a: Answer)
    requires Inv(s) && k in s.readers && s.readers[k].Reading? && a in s.answers
    ensures Inv(AfterRead(s, k, a))
  {
    hide Live, Numbered, Calls, PcPlace, PcSent, DoneTrue, MapPlace, ReaderPlace, TeardownPlace, ChanPlace,
         ReadersTrue, ChansTrue, Frames, AtMostOnce, AnswersTrue;
    if s.sh.pending.Some? && a.id in s.sh.pending.value {
      var c := s.sh.pending.value[a.id];
      IdMatches(s, a);
      Leaves(s.sh.pending.value, s.sh.nextID, s.ids, s.place, c, AtReader(k));
      MovesToReader(s, k, c, a);
      LiveReader(s, k, Delivering(c, a.outcome));
      LiveWithLess(s.(readers := s.readers[k := Delivering(c, a.outcome)]), a.id);
    }
  }

  /**
    The heart of the matter: the waiter that an answer's id finds is the call that the
    server answered. Ids are never reused, and 0, the id of answers that could not be
    matched, is never registered; so it does not matter which connection either is of.
   */
  lemma IdMatches(s: State, a: Answer)
    requires a in s.answers && AnswersTrue(s.answers, s.ids, s.sentOn, s.executed, s.inflight, s.handling)
    requires s.sh.pending.Some? && MapPlace(s.sh.pending, s.ids, s.place) && Numbered(s.sh.nextID, s.ids)
    requires a.id in s.sh.pending.value
    ensures a.id != 0 && a.call == Some(s.sh.pending.value[a.id])
    ensures s.sh.pending.value[a.id] in s.ids && s.ids[s.sh.pending.value[a.id]] == a.id
    ensures AnsweredWith(s.answers, s.sh.pending.value[a.id], a.outcome)
  {
    hide FromServer, Truthful;
    assert HeldRightly(s.sh.pending.value, a.id, s.ids, s.place);
    assert TrueAnswer(a, s.ids, s.sentOn, s.executed, s.inflight, s.handling);
  }

  lemma MovesToReader(s: State, k: ConnId, c: CallId, a: Answer)
    requires k in s.readers && s.readers[k].Reading? && c in s.place && s.place[c] == InMap
    requires AnsweredWith(s.answers, c, a.outcome)
    requires ReaderPlace(s.readers, s.place) && TeardownPlace(s.teardowns, s.place)
    requires ChanPlace(s.chans, s.place) && PcPlace(s.pcs, s.chans, s.place) && ReadersTrue(s.readers, s.answers)
    ensures var readers', place' := s.readers[k := Delivering(c, a.outcome)], s.place[c := AtReader(k)];
            && ReaderPlace(readers', place') && TeardownPlace(s.teardowns, place')
            && ChanPlace(s.chans, place') && PcPlace(s.pcs, s.chans, place') && ReadersTrue(readers', s.answers)
  {
    hide AnsweredWith, Owes;
    var readers', place' := s.readers[k := Delivering(c, a.outcome)], s.place[c := AtReader(k)];
    forall j, d ensures Holds(readers', j, d) <==> d in place' && place'[d] == AtReader(j) {
      assert Holds(s.readers, j, d) <==> d in s.place && s.place[d] == AtReader(j);
    }
  }

  lemma LiveReader(s: State, k: ConnId, r: Reader)
    requires Live(s.sh, s.nextConn, s.readers, s.teardowns) && k in s.readers
    ensures Live(s.sh, s.nextConn, s.readers[k := r], s.teardowns)
  {
  }

  /** Nobody has sent to a call that a reader or a teardown still holds, so its channel is empty. */
  lemma HasRoom(s: State, c: CallId)
    requires Inv(s) && c in s.place && !s.place[c].Sent?
    ensures c in s.chans && !Full(s.chans[c]) && s.chans[c].sent == []
  {
    hide Live, Numbered, Calls, PcPlace, PcSent, DoneTrue, MapPlace, ReaderPlace, TeardownPlace, ReadersTrue, ChansTrue,
         Frames, AtMostOnce, AnswersTrue;
  }

  lemma DeliverKeeps(s: State, k: ConnId)
    requires Inv(s) && k in s.readers && s.readers[k].Delivering? && s.readers[k].call in s.chans
    ensures Inv(Push(s, s.readers[k].call, s.readers[k].outcome).(readers := s.readers[k := Reading]))
  {
    hide Live, Numbered, Calls, PcPlace, PcSent, DoneTrue, MapPlace, ReaderPlace, TeardownPlace, ChanPlace,
         ReadersTrue, ChansTrue, Frames, AtMostOnce, AnswersTrue, Earned;
    var c, out := s.readers[k].call, s.readers[k].outcome;
    HeldByReader(s, k);
    HasRoom(s, c);
    SentOnce(s, c, out);
    ReaderLetsGo(s.readers, k, s.place, s.answers);
    LiveReader(s, k, Reading);
    NoLongerOwed(s.teardowns, s.place, c);
  }

  lemma HeldByReader(s: State, k: ConnId)
    requires k in s.readers && s.readers[k].Delivering?
    requires ReaderPlace(s.readers, s.place) && ReadersTrue(s.readers, s.answers)
    ensures s.readers[k].call in s.place && s.place[s.readers[k].call] == AtReader(k)
    ensures Earned(s.answers, s.readers[k].call, s.readers[k].outcome)
  {
    hide AnsweredWith;
    assert Holds(s.readers, k, s.readers[k].call);
  }

  /** The one send on a channel. */
  lemma SentOnce(s: State, c: CallId, out: Outcome)
    requires c in s.chans && s.chans[c].sent == [] && c in s.place && !s.place[c].InMap?
    requires Earned(s.answers, c, out)
    requires ChanPlace(s.chans, s.place) && PcPlace(s.pcs, s.chans, s.place) && ChansTrue(s.chans, s.answers)
    requires MapPlace(s.sh.pending, s.ids, s.place)
    ensures var chans', place' := s.chans[c := s.chans[c].(sent := s.chans[c].sent + [out])], s.place[c := Sent];
            && ChanPlace(chans', place') && PcPlace(s.pcs, chans', place') && ChansTrue(chans', s.answers)
            && MapPlace(s.sh.pending, s.ids, place')
  {
    hide Earned;
    var place' := s.place[c := Sent];
    if s.sh.pending.Some? {
      forall id | id in s.sh.pending.value ensures HeldRightly(s.sh.pending.value, id, s.ids, place') {
        assert HeldRightly(s.sh.pending.value, id, s.ids, s.place);
      }
    }
  }

  lemma ReaderLetsGo(readers: map<ConnId, Reader>, k: ConnId, place: map<CallId, Place>, answers: set<Answer>)
    requires k in readers && readers[k].Delivering? && ReaderPlace(readers, place) && ReadersTrue(readers, answers)
    ensures ReaderPlace(readers[k := Reading], place[readers[k].call := Sent])
    ensures ReadersTrue(readers[k := Reading], answers)
  {
    hide AnsweredWith;
    var c := readers[k].call;
    var readers', place' := readers[k := Reading], place[c := Sent];
    assert Holds(readers, k, c);
    forall j, d ensures Holds(readers', j, d) <==> d in place' && place'[d] == AtReader(j) {
      assert Holds(readers, j, d) <==> d in place && place[d] == AtReader(j);
    }
  }

  lemma NoLongerOwed(teardowns: map<ConnId, Teardown>, place: map<CallId, Place>, c: CallId)
    requires TeardownPlace(teardowns, place) && c in place && !place[c].AtTeardown?
    ensures TeardownPlace(teardowns, place[c := Sent])
  {
    hide Owes;
  }

  lemma ReadFailsKeeps(s: State, k: ConnId, cause: IoErr)
    requires Inv(s) && k in s.readers && s.readers[k].Reading?
    ensures Inv(TornDown(s, k, cause).(readers := s.readers[k := Exited]))
  {
    hide Inv, TornDown;
    TornDownKeeps(s, k, cause);
    ReaderExits(TornDown(s, k, cause), k);
  }

  lemma ReaderExits(s: State, k: ConnId)
    requires Inv(s) && k in s.readers && s.readers[k].Reading?
    ensures Inv(s.(readers := s.readers[k := Exited]))
  {
    hide Live, Numbered, Calls, SameCalls, PcPlace, PcSent, DoneTrue, MapPlace, ReaderPlace, TeardownPlace, ChanPlace,
         ReadersTrue, ChansTrue, Frames, AtMostOnce, AnswersTrue;
    IdleReader(s.readers, k, Exited, s.place, s.answers);
    LiveReader(s, k, Exited);
  }

  // ----- The sends of a teardown -----

  lemma PayKeeps(s: State, k: ConnId, c: CallId)
    requires Inv(s) && k in s.teardowns && c in s.teardowns[k].owed && c in s.chans
    ensures Inv(AfterPay(s, k, c)) && !Full(s.chans[c])
  {
    hide Live, Numbered, Calls, PcPlace, PcSent, DoneTrue, MapPlace, ReaderPlace, TeardownPlace, ChanPlace,
         ReadersTrue, ChansTrue, Frames, AtMostOnce, AnswersTrue, Earned;
    assert s.place[c] == AtTeardown(k) && c in s.place by { OwedByTeardown(s, k, c); }
    HasRoom(s, c);
    var out := Failed(Uncertain(s.teardowns[k].cause));
    assert Earned(s.answers, c, out) by { IsLost(s.answers, c, s.teardowns[k].cause); }
    SentOnce(s, c, out);
    Paid(s, k, c);
  }

  lemma OwedByTeardown(s: State, k: ConnId, c: CallId)
    requires TeardownPlace(s.teardowns, s.place) && k in s.teardowns && c in s.teardowns[k].owed
    ensures c in s.place && s.place[c] == AtTeardown(k)
  {
    assert Owes(s.teardowns, k, c);
  }

  lemma IsLost(answers: set<Answer>, c: CallId, cause: IoErr)
    ensures Earned(answers, c, Failed(Uncertain(cause)))
  {
    assert SentAndLost(Uncertain(cause));
  }

  lemma Paid(s: State, k: ConnId, c: CallId)
    requires k in s.teardowns && c in s.place && s.place[c] == AtTeardown(k)
    requires Live(s.sh, s.nextConn, s.readers, s.teardowns)
    requires TeardownPlace(s.teardowns, s.place) && ReaderPlace(s.readers, s.place)
    ensures var teardowns' := s.teardowns[k := s.teardowns[k].(owed := s.teardowns[k].owed - {c})];
            var place' := s.place[c := Sent];
            && TeardownPlace(teardowns', place') && ReaderPlace(s.readers, place')
            && Live(s.sh, s.nextConn, s.readers, teardowns')
  {
    hide Holds;
    var teardowns' := s.teardowns[k := s.teardowns[k].(owed := s.teardowns[k].owed - {c})];
    var place' := s.place[c := Sent];
    forall j, d ensures Owes(teardowns', j, d) <==> d in place' && place'[d] == AtTeardown(j) {
      assert Owes(s.teardowns, j, d) <==> d in s.place && s.place[d] == AtTeardown(j);
    }
  }

  // ----- Close -----

  lemma CloseKeeps(s: State, closing: set<ConnId>)
    requires Inv(s)
    ensures Inv(s.(closing := closing)) && Inv(s.(sh := s.sh.(closed := true), closing := closing))
  {
    hide Numbered, Calls, SameCalls, PcPlace, PcSent, DoneTrue, MapPlace, ReaderPlace, TeardownPlace, ChanPlace,
         ReadersTrue, ChansTrue, Frames, AtMostOnce, AnswersTrue;
  }

  lemma CloseTeardownKeeps(s: State, k: ConnId)
    requires Inv(s)
    ensures Inv(TornDown(s, k, CLOSED).(closing := s.closing - {k}))
  {
    hide Inv, TornDown;
    TornDownKeeps(s, k, CLOSED);
    CloseKeeps(TornDown(s, k, CLOSED), s.closing - {k});
  }

  // ----- The server -----

  lemma ReceiveKeeps(s: State, f: Frame)
    requires Inv(s) && f in s.inflight
    ensures Inv(s.(inflight := s.inflight - {f}, handling := s.handling[f := false]))
  {
    hide Live, Numbered, Calls, SameCalls, PcPlace, PcSent, DoneTrue, MapPlace, ReaderPlace, TeardownPlace, ChanPlace,
         ReadersTrue, ChansTrue, AtMostOnce, FromServer, Truthful;
  }

  lemma ExecuteKeeps(s: State, f: Frame)
    requires Inv(s) && f in s.handling && !s.handling[f]
    ensures Inv(s.(handling := s.handling[f := true], executed := s.executed + multiset{f.call}))
  {
    hide Live, Numbered, Calls, SameCalls, PcPlace, PcSent, DoneTrue, MapPlace, ReaderPlace, TeardownPlace, ChanPlace,
         ReadersTrue, ChansTrue, FromServer, Truthful;
    OneFrame(s, f);
  }

  /** A call has one frame, and it is at one stage. */
  lemma OneFrame(s: State, f: Frame)
    requires Frames(s.inflight, s.handling, s.executed, s.ids, s.sentOn) && f in s.handling
    ensures forall g :: (g in s.inflight || g in s.handling) && g != f ==> g.call != f.call
  {
    forall g | (g in s.inflight || g in s.handling) && g != f ensures g.call != f.call {
      assert Genuine(g, s.ids, s.sentOn) && Genuine(f, s.ids, s.sentOn);
    }
  }

  lemma AnswerKeeps(s: State, f: Frame, out: Outcome)
    requires Inv(s) && f in s.handling && FromServer(out) && Truthful(s.handling[f], out)
    ensures Inv(s.(handling := s.handling - {f}, answers := s.answers + {Answer(f.conn, f.id, out, Some(f.call))}))
  {
    hide Live, Numbered, Calls, SameCalls, PcPlace, PcSent, DoneTrue, MapPlace, ReaderPlace, TeardownPlace, ChanPlace,
         ReadersTrue, ChansTrue, AtMostOnce, FromServer, Truthful, Frames, AnswersTrue;
    var a := Answer(f.conn, f.id, out, Some(f.call));
    MoreAnswers(s, a);
    HandlerEnds(s, f);
    NowAnswered(s, f, a);
  }

  lemma HandlerEnds(s: State, f: Frame)
    requires Frames(s.inflight, s.handling, s.executed, s.ids, s.sentOn)
    requires AnswersTrue(s.answers, s.ids, s.sentOn, s.executed, s.inflight, s.handling)
    ensures Frames(s.inflight, s.handling - {f}, s.executed, s.ids, s.sentOn)
    ensures AnswersTrue(s.answers, s.ids, s.sentOn, s.executed, s.inflight, s.handling - {f})
  {
    hide FromServer, Truthful;
  }

  lemma NowAnswered(s: State, f: Frame, a: Answer)
    requires Frames(s.inflight, s.handling, s.executed, s.ids, s.sentOn) && f in s.handling
    requires AnswersTrue(s.answers, s.ids, s.sentOn, s.executed, s.inflight, s.handling - {f})
    requires a == Answer(f.conn, f.id, a.outcome, Some(f.call))
    requires FromServer(a.outcome) && Truthful(s.handling[f], a.outcome)
    ensures AnswersTrue(s.answers + {a}, s.ids, s.sentOn, s.executed, s.inflight, s.handling - {f})
  {
    hide FromServer, Truthful;
    OneFrame(s, f);
    assert f !in s.inflight;
    assert (s.executed[f.call] > 0) == s.handling[f];
    assert TrueAnswer(a, s.ids, s.sentOn, s.executed, s.inflight, s.handling - {f});
  }

  /** What was attributed to an answer stays so when there are more. */
  lemma MoreAnswers(s: State, a: Answer)
    requires DoneTrue(s.pcs, s.answers, s.sentOn) && ReadersTrue(s.readers, s.answers) && ChansTrue(s.chans, s.answers)
    ensures var answers' := s.answers + {a};
            DoneTrue(s.pcs, answers', s.sentOn) && ReadersTrue(s.readers, answers') && ChansTrue(s.chans, answers')
  {
    hide LostConnection;
    var answers' := s.answers + {a};
    forall c: CallId, out | AnsweredWith(s.answers, c, out) ensures AnsweredWith(answers', c, out) {
      var b :| b in s.answers && b.id != 0 && b.call == Some(c) && b.outcome == out;
      assert b in answers';
    }
    forall c | c in s.pcs && s.pcs[c].Done? ensures Ended(answers', s.sentOn, c, s.pcs[c].outcome) {
      assert Ended(s.answers, s.sentOn, c, s.pcs[c].outcome);
    }
  }

  lemma MalformedKeeps(s: State, k: ConnId, out: Outcome)
    requires Inv(s)
    ensures Inv(s.(answers := s.answers + {Answer(k, 0, out, None)}))
  {
    hide Live, Numbered, Calls, SameCalls, PcPlace, PcSent, DoneTrue, MapPlace, ReaderPlace, TeardownPlace, ChanPlace,
         ReadersTrue, ChansTrue, AtMostOnce, Frames, TrueAnswer;
    MoreAnswers(s, Answer(k, 0, out, None));
  }

  // ----- Every step, every run -----

  lemma StepKeeps(s: State, st: Step)
    requires Inv(s) && Enabled(s, st)
    ensures Inv(Apply(s, st))
  {
    hide Inv, AfterEnsure, AfterRegister, AfterCancel, AfterRead, AfterPay, TornDown, Push, FromServer, Truthful, Full,
         Finish, Uncertain;
    match st
    case EnsureConn(c, dialError) => EnsureKeeps(s, c, dialError);
    case Register(c) => RegisterKeeps(s, c);
    case Write(c) => WriteKeeps(s, c, Waiting(s.pcs[c].id), true);
    case WriteFails(c, cause, delivered) =>
      WriteKeeps(s, c, WriteFailed(s.pcs[c].conn, s.pcs[c].id, cause), delivered);
    case TeardownAfterWrite(c) => TeardownAfterWriteKeeps(s, c);
    case Cancel(c, e) => CancelKeeps(s, c, e);
    case Take(c) => TakeKeeps(s, c);
    case ReadAnswer(k, a) => ReadKeeps(s, k, a);
    case Deliver(k) => DeliverKeeps(s, k);
    case ReadFails(k, cause) => ReadFailsKeeps(s, k, ConnectionClosed(cause));
    case PayOne(k, c) => PayKeeps(s, k, c);
    case CloseStarts => CloseKeeps(s, Apply(s, st).closing);
    case CloseTeardown(k) => CloseTeardownKeeps(s, k);
    case ServerReceives(f) => ReceiveKeeps(s, f);
    case Executes(f) => ExecuteKeeps(s, f);
    case Answers(f, out) => AnswerKeeps(s, f, out);
    case AnswersMalformed(k, out) => MalformedKeeps(s, k, out);
  }

  /** The invariant holds in every state that any interleaving reaches. */
  lemma {:induction false} RunKeeps(steps: seq<Step>, s: State)
    requires Exec(INIT, steps) == Some(s)
    ensures Inv(s)
  {
    hide Inv, Enabled, Apply;
    if steps == [] {
      InitHolds();
    } else {
      var before := Exec(INIT, steps[..|steps| - 1]).value;
      RunKeeps(steps[..|steps| - 1], before);
      StepKeeps(before, steps[|steps| - 1]);
    }
  }

  // ----- What a step leaves alone -----

  /** No ended call changed. */
  ghost predicate KeepsDone(pcs: map<CallId, Pc>, pcs': map<CallId, Pc>) {
    forall c :: c in pcs && pcs[c].Done? ==> c in pcs' && pcs'[c] == pcs[c]
  }

  lemma EnsureFrame(s: State, c: CallId, dialError: Option<IoErr>)
    requires c !in s.pcs
    ensures KeepsDone(s.pcs, AfterEnsure(s, c, dialError).pcs) && AfterEnsure(s, c, dialError).answers == s.answers
  {
    hide Ensured, NotAppliedBecause;
  }

  lemma RegisterFrame(s: State, c: CallId)
    requires c in s.pcs && s.pcs[c].HaveConn?
    ensures KeepsDone(s.pcs, AfterRegister(s, c).pcs) && AfterRegister(s, c).answers == s.answers
  {
    hide Registered, NotAppliedBecause;
  }

  lemma CancelFrame(s: State, c: CallId, e: Err)
    requires c in s.pcs && s.pcs[c].Waiting?
    ensures KeepsDone(s.pcs, AfterCancel(s, c, e).pcs) && AfterCancel(s, c, e).answers == s.answers
  {
    hide Uncertain, Forgotten;
  }

  lemma ReadFrame(s: State, k: ConnId, a: Answer)
    ensures AfterRead(s, k, a).pcs == s.pcs && AfterRead(s, k, a).answers == s.answers
  {
    hide Claimed;
  }

  lemma PayFrame(s: State, k: ConnId, c: CallId)
    requires k in s.teardowns && c in s.chans
    ensures AfterPay(s, k, c).pcs == s.pcs && AfterPay(s, k, c).answers == s.answers
  {
    hide Uncertain;
  }

  lemma TornDownFrame(s: State, k: ConnId, cause: IoErr)
    ensures TornDown(s, k, cause).pcs == s.pcs && TornDown(s, k, cause).answers == s.answers
  {
  }

  /** A step lets ended calls be. */
  lemma StepKeepsDone(s: State, st: Step)
    requires Enabled(s, st)
    ensures KeepsDone(s.pcs, Apply(s, st).pcs)
  {
    hide FromServer, Truthful, Uncertain, AfterEnsure, AfterRegister, AfterCancel, AfterRead, AfterPay, TornDown, Push;
    match st
    case EnsureConn(c, dialError) => EnsureFrame(s, c, dialError);
    case Register(c) => RegisterFrame(s, c);
    case Cancel(c, e) => CancelFrame(s, c, e);
    case ReadAnswer(k, a) => ReadFrame(s, k, a);
    case PayOne(k, c) => PayFrame(s, k, c);
    case TeardownAfterWrite(c) => TornDownFrame(s, s.pcs[c].conn, s.pcs[c].cause);
    case Deliver(k) => PushFrame(s, s.readers[k].call, s.readers[k].outcome);
    case ReadFails(k, cause) => TornDownFrame(s, k, ConnectionClosed(cause));
    case CloseTeardown(k) => TornDownFrame(s, k, CLOSED);
    case _ =>
  }

  /** A step adds an answer with an id only when the server answers that frame. */
  lemma StepAnswers(s: State, st: Step, a: Answer)
    requires Enabled(s, st) && a in Apply(s, st).answers && a.id != 0 && a !in s.answers
    ensures a.call.Some? && st == Answers(Frame(a.conn, a.id, a.call.value), a.outcome)
  {
    hide FromServer, Truthful, Uncertain, AfterEnsure, AfterRegister, AfterCancel, AfterRead, AfterPay, TornDown, Push;
    match st
    case EnsureConn(c, dialError) => EnsureFrame(s, c, dialError);
    case Register(c) => RegisterFrame(s, c);
    case Cancel(c, e) => CancelFrame(s, c, e);
    case ReadAnswer(k, b) => ReadFrame(s, k, b);
    case PayOne(k, c) => PayFrame(s, k, c);
    case TeardownAfterWrite(c) => TornDownFrame(s, s.pcs[c].conn, s.pcs[c].cause);
    case Deliver(k) => PushFrame(s, s.readers[k].call, s.readers[k].outcome);
    case ReadFails(k, cause) => TornDownFrame(s, k, ConnectionClosed(cause));
    case CloseTeardown(k) => TornDownFrame(s, k, CLOSED);
    case _ =>
  }

  lemma PushFrame(s: State, c: CallId, out: Outcome)
    requires c in s.chans
    ensures Push(s, c, out).pcs == s.pcs && Push(s, c, out).answers == s.answers
  {
  }
}
