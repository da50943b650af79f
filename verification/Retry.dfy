/**
  The two retry loops: `StreamTransport.Call` against one node and
  `ClusterTransport.Call`, which follows redirects and rotates over seeds.

  A run is driven by a `World`: how each attempt ends, whether the context
  outlives each backoff, and what concurrent calls do to the shared routing
  fields before each attempt. Every statement holds for every world.
 */
module Retry {
  import opened Bytes
  import opened Search
  import opened Errors

  datatype Outcome = Reply(payload: bytes) | Failed(err: Err)

  /** One send: where to, what, and how it ended. */
  datatype Attempt = Attempt(addr: string, op: string, req: bytes, outcome: Outcome)

  /** The routing fields of a `ClusterTransport`. */
  datatype Route = Route(leader: string, seedIdx: nat)

  datatype World = World(
    outcome: nat -> Outcome,
    alive: nat -> bool,
    others: nat -> Option<Route>)

  // ----- StreamTransport.Call -----

  const DEFAULT_ATTEMPTS := 3

  function MaxAttempts(configured: int): (n: nat)
    ensures n >= 1
  {
    if configured > 0 then configured else DEFAULT_ATTEMPTS
  }

  /** Attempts `k` and later of a stream call. */
  function StreamRun(addr: string, op: string, req: bytes, max: nat, w: World, k: nat): (log: seq<Attempt>)
    requires k < max
    decreases max - k
  {
    var a := Attempt(addr, op, req, w.outcome(k));
    if w.outcome(k).Failed? && Retryable(op, w.outcome(k).err) && k + 1 < max && w.alive(k)
    then [a] + StreamRun(addr, op, req, max, w, k + 1)
    else [a]
  }

  /** What a stream call still sends when it comes to attempt `k`. */
  ghost function StreamLeft(addr: string, op: string, req: bytes, max: nat, w: World, k: nat): seq<Attempt> {
    if k < max && (k == 0 || w.alive(k - 1)) then StreamRun(addr, op, req, max, w, k) else []
  }

  lemma StreamLeftStep(addr: string, op: string, req: bytes, max: nat, w: World, k: nat, log: seq<Attempt>)
    requires k < max && (k == 0 || w.alive(k - 1))
    ensures var out := w.outcome(k);
            var a := Attempt(addr, op, req, out);
            var left := if out.Failed? && Retryable(op, out.err) then StreamLeft(addr, op, req, max, w, k + 1) else [];
            log + StreamLeft(addr, op, req, max, w, k) == log + [a] + left
  {
    hide Retryable;
  }

  lemma StreamLeftEnds(addr: string, op: string, req: bytes, max: nat, w: World, k: nat)
    requires max > 0
    ensures StreamLeft(addr, op, req, max, w, 0) == StreamRun(addr, op, req, max, w, 0)
    ensures k >= max || (k > 0 && !w.alive(k - 1)) ==> StreamLeft(addr, op, req, max, w, k) == []
  {
  }

  /** `StreamTransport.Call`: the loop, with the sends it made. */
  method StreamCall(addr: string, op: string, req: bytes, configured: int, w: World)
    returns (r: Outcome, log: seq<Attempt>)
    ensures log == StreamRun(addr, op, req, MaxAttempts(configured), w, 0)
    ensures log != [] && r == log[|log| - 1].outcome
  {
    hide Retryable, StreamRun, StreamLeft;
    var max := MaxAttempts(configured);
    log := [];
    r := Failed(Plain(""));
    var k := 0;
    ghost var all := StreamRun(addr, op, req, max, w, 0);
    StreamLeftEnds(addr, op, req, max, w, 0);
    assert [] + all == all;
    while k < max
      invariant 0 <= k <= max && |log| == k && (k > 0 ==> r == log[k - 1].outcome)
      invariant all == log + StreamLeft(addr, op, req, max, w, k)
    {
      if k > 0 && !w.alive(k - 1) {
        break;
      }
      StreamLeftStep(addr, op, req, max, w, k, log);
      r := w.outcome(k);
      log := log + [Attempt(addr, op, req, r)];
      if r.Reply? || !Retryable(op, r.err) {
        assert log + [] == log;
        return;
      }
      k := k + 1;
    }
    StreamLeftEnds(addr, op, req, max, w, k);
    assert log + [] == log;
  }

  /** A stream call goes on after attempt `k`. */
  predicate GoesOn(op: string, w: World, k: nat) {
    w.outcome(k).Failed? && Retryable(op, w.outcome(k).err) && w.alive(k)
  }

  /**
    What a stream call sends: between one and `max` times the very same request,
    stopping at the first attempt that is final, and not before.
   */
  lemma {:induction false} StreamRunShape(addr: string, op: string, req: bytes, max: nat, w: World, k: nat)
    requires k < max
    ensures var log := StreamRun(addr, op, req, max, w, k);
            && 1 <= |log| <= max - k
            && (forall j :: 0 <= j < |log| ==> log[j] == Attempt(addr, op, req, w.outcome(k + j)))
            && (forall j :: k <= j < k + |log| - 1 ==> GoesOn(op, w, j))
            && (|log| < max - k ==> !GoesOn(op, w, k + |log| - 1))
    decreases max - k
  {
    hide Retryable;
    if k + 1 < max && GoesOn(op, w, k) {
      StreamRunShape(addr, op, req, max, w, k + 1);
    }
  }

  /**
    The limit on sends: as many as were configured, three if none were. A call whose
    every attempt fails retryably, with time left, uses it up; none exceeds it.
   */
  lemma AttemptsAreLimited(addr: string, op: string, req: bytes, configured: int, w: World)
    ensures var limit := if configured > 0 then configured else 3;
            var log := StreamRun(addr, op, req, MaxAttempts(configured), w, 0);
            && |log| <= limit
            && ((forall k: nat :: GoesOn(op, w, k)) ==> |log| == limit)
  {
    hide GoesOn, StreamRun;
    StreamRunShape(addr, op, req, MaxAttempts(configured), w, 0);
  }

  // ----- ClusterTransport.Call -----

  const NO_SEEDS: Err := Client(0, "", Some(Plain("cluster: no seeds configured")))

  /** What a cluster call does: its sends, what it returns, and the routing fields it leaves. */
  datatype Trace = Trace(log: seq<Attempt>, result: Outcome, route: Route)

  function Attempts(seeds: seq<string>): nat { |seeds| + 5 }

  /** `target`: the cached leader, else the next seed in rotation, else nothing. */
  function Target(seeds: seq<string>, r: Route): (string, Route) {
    if r.leader != "" then (r.leader, r)
    else if seeds == [] then ("", r)
    else (seeds[r.seedIdx % |seeds|], r.(seedIdx := r.seedIdx + 1))
  }

  function Shared(w: World, i: nat, r: Route): Route { if w.others(i).Some? then w.others(i).value else r }

  /** The routing fields after an attempt at `addr`. */
  function Learn(addr: string, out: Outcome, r: Route): Route {
    match out
    case Reply(_) => r.(leader := addr)
    case Failed(e) => r.(leader := if Redirect(e).Some? then Redirect(e).value else "")
  }

  /** Attempts `i` and later of a cluster call; `last` is the error so far. */
  function ClusterRun(seeds: seq<string>, op: string, req: bytes, w: World, i: nat, route: Route, last: Outcome): Trace
    requires i <= Attempts(seeds)
    decreases Attempts(seeds) - i
  {
    if i == Attempts(seeds) then Trace([], last, route)
    else
      var (addr, r) := Target(seeds, Shared(w, i, route));
      if addr == "" then Trace([], Failed(NO_SEEDS), r)
      else
        var out := w.outcome(i);
        var a := Attempt(addr, op, req, out);
        if out.Reply? then Trace([a], out, Learn(addr, out, r))
        else if Redirect(out.err).None? && !Retryable(op, out.err) then Trace([a], out, r)
        else if Redirect(out.err).None? && !w.alive(i) then Trace([a], out, Learn(addr, out, r))
        else
          var t := ClusterRun(seeds, op, req, w, i + 1, Learn(addr, out, r), out);
          t.(log := [a] + t.log)
  }

  class ClusterTransport {
    const seeds: seq<string>
    var leader: string
    var seedIdx: nat

    constructor (seeds: seq<string>)
      ensures this.seeds == seeds && leader == "" && seedIdx == 0
    {
      this.seeds := seeds;
      leader := "";
      seedIdx := 0;
    }

    function Routing(): Route
      reads this
    {
      Route(leader, seedIdx)
    }

    method NextTarget() returns (addr: string)
      modifies this
      ensures (addr, Routing()) == Target(seeds, old(Routing()))
    {
      if leader != "" {
        return leader;
      }
      if |seeds| == 0 {
        return "";
      }
      addr := seeds[seedIdx % |seeds|];
      seedIdx := seedIdx + 1;
    }

    method SetLeader(a: string)
      modifies this
      ensures Routing() == old(Routing()).(leader := a)
    {
      leader := a;
    }

    method ClearLeader()
      modifies this
      ensures Routing() == old(Routing()).(leader := "")
    {
      leader := "";
    }

    /** Other callers of this transport have moved the routing fields on. */
    method Interfere(w: World, i: nat)
      modifies this
      ensures Routing() == Shared(w, i, old(Routing()))
    {
      if w.others(i).Some? {
        leader, seedIdx := w.others(i).value.leader, w.others(i).value.seedIdx;
      }
    }

    /** `ClusterTransport.Call`: the loop, with the sends it made. */
    method Call(op: string, req: bytes, w: World) returns (r: Outcome, log: seq<Attempt>)
      modifies this
      ensures Trace(log, r, Routing()) == ClusterRun(seeds, op, req, w, 0, old(Routing()), Failed(NO_SEEDS))
    {
      hide Retryable, Redirect;
      log := [];
      var last := Failed(NO_SEEDS);
      ghost var all := ClusterRun(seeds, op, req, w, 0, Routing(), last);
      assert [] + all.log == all.log;
      var i := 0;
      while i < |seeds| + 5
        invariant 0 <= i <= |seeds| + 5
        invariant var t := ClusterRun(seeds, op, req, w, i, Routing(), last);
                  all == t.(log := log + t.log)
      {
        ghost var t := ClusterRun(seeds, op, req, w, i, Routing(), last);
        ghost var before := log;
        Interfere(w, i);
        var addr := NextTarget();
        if addr == "" {
          assert t.log == [];
          return Failed(NO_SEEDS), log;
        }
        r := w.outcome(i);
        log := log + [Attempt(addr, op, req, r)];
        if r.Reply? {
          SetLeader(addr);
          return;
        }
        last := r;
        var redir := Redirect(r.err);
        if redir.Some? {
          if redir.value != "" {
            SetLeader(redir.value);
          } else {
            ClearLeader();
          }
          assert before + t.log == log + t.log[1..];
          i := i + 1;
          continue;
        }
        if !Retryable(op, r.err) {
          return;
        }
        ClearLeader();
        if !w.alive(i) {
          return;
        }
        assert before + t.log == log + t.log[1..];
        i := i + 1;
      }
      r := last;
    }
  }
}
