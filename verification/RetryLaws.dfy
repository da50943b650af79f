/**
  What the two retry loops promise over every run: a request that is not safe to
  replay executes at most once, a resend carries the same bytes and has a reason,
  redirects are followed, and rotation reaches every seed.
 */
module RetryLaws {
  import opened Bytes
  import opened Search
  import opened Errors
  import opened Retry

  // ----- At most one execution -----

  /** How many of the first `n` attempts executed on the server. */
  function Executions(applied: nat -> bool, n: nat): nat {
    if n == 0 then 0 else Executions(applied, n - 1) + if applied(n - 1) then 1 else 0
  }

  lemma {:induction false} NoneApplied(applied: nat -> bool, n: nat)
    requires forall k :: 0 <= k < n ==> !applied(k)
    ensures Executions(applied, n) == 0
  {
    if n > 0 {
      NoneApplied(applied, n - 1);
    }
  }

  /** An attempt that executed never ends in an error that says it was not applied. */
  ghost predicate TruthfulStatus(w: World, applied: nat -> bool) {
    forall k :: applied(k) && w.outcome(k).Failed? ==> !Is(w.outcome(k).err, NotApplied)
  }

  /** Nor in one whose text is a redirect. */
  ghost predicate TruthfulText(w: World, applied: nat -> bool) {
    forall k :: applied(k) && w.outcome(k).Failed? ==> Redirect(w.outcome(k).err).None?
  }

  /** `StreamTransport.Call`: only the last attempt of a legacy mutation can have executed. */
  lemma StreamAtMostOnce(addr: string, op: string, req: bytes, max: nat, w: World, applied: nat -> bool)
    requires max >= 1 && !ReplaySafe(op) && TruthfulStatus(w, applied)
    ensures var log := StreamRun(addr, op, req, max, w, 0);
            && (forall k :: 0 <= k < |log| - 1 ==> !applied(k))
            && Executions(applied, |log|) == (if applied(|log| - 1) then 1 else 0)
  {
    hide Is, ReplaySafe, IsServiceError, StreamRun;
    StreamRunShape(addr, op, req, max, w, 0);
    var log := StreamRun(addr, op, req, max, w, 0);
    forall k: nat | k < |log| - 1 ensures !applied(k) {
      assert GoesOn(op, w, k);
    }
    NoneApplied(applied, |log| - 1);
  }

  /** `e` makes a cluster call send `op` again, given that the context lives on. */
  predicate Resent(op: string, e: Err) { Redirect(e).Some? || Retryable(op, e) }

  /** A cluster call goes on after attempt `k`. */
  predicate RotatesOn(op: string, w: World, k: nat) {
    w.outcome(k).Failed? && Resent(op, w.outcome(k).err) && (Redirect(w.outcome(k).err).Some? || w.alive(k))
  }

  /** An attempt ended in an error that is returned as it is. */
  predicate IsFinal(op: string, out: Outcome) { out.Failed? && !Resent(op, out.err) }

  /** One attempt of a cluster call, and what comes after it. */
  lemma ClusterRunStep(
    seeds: seq<string>, op: string, req: bytes, w: World, i: nat, route: Route, last: Outcome)
    requires i < Attempts(seeds)
    ensures var t := ClusterRun(seeds, op, req, w, i, route, last);
            var (addr, r) := Target(seeds, Shared(w, i, route));
            var a := Attempt(addr, op, req, w.outcome(i));
            if addr == "" then t.log == [] && t.result == Failed(NO_SEEDS)
            else if !RotatesOn(op, w, i) then
              && t.log == [a] && t.result == w.outcome(i)
              && t.route == if IsFinal(op, w.outcome(i)) then r else Learn(addr, w.outcome(i), r)
            else
              var u := ClusterRun(seeds, op, req, w, i + 1, Learn(addr, w.outcome(i), r), w.outcome(i));
              t == u.(log := [a] + u.log)
  {
    hide Redirect, Retryable, Target, Learn;
  }

  /** A seed or a cached leader is there to try. */
  lemma TargetIsThere(seeds: seq<string>, r: Route)
    requires seeds != [] && "" !in seeds
    ensures Target(seeds, r).0 != ""
  {
  }

  /**
    What a cluster call sends: at most five requests more than there are seeds, all
    with the same bytes, each but the last followed by another for a reason.
   */
  lemma {:induction false} ClusterRunShape(
    seeds: seq<string>, op: string, req: bytes, w: World, i: nat, route: Route, last: Outcome)
    requires i <= Attempts(seeds)
    ensures var t := ClusterRun(seeds, op, req, w, i, route, last);
            && |t.log| <= Attempts(seeds) - i
            && (forall j :: 0 <= j < |t.log| ==>
                  t.log[j].op == op && t.log[j].req == req && t.log[j].outcome == w.outcome(i + j))
            && (forall j :: i <= j < i + |t.log| - 1 ==> RotatesOn(op, w, j))
            && (t.log == [] ==> t.result == last || t.result == Failed(NO_SEEDS))
            && (t.log != [] ==> t.result == t.log[|t.log| - 1].outcome || t.result == Failed(NO_SEEDS))
    decreases Attempts(seeds) - i
  {
    hide ClusterRun, RotatesOn, Target, Learn;
    if i == Attempts(seeds) {
      ClusterRunEnds(seeds, op, req, w, route, last);
    } else {
      ClusterRunStep(seeds, op, req, w, i, route, last);
      var (addr, r) := Target(seeds, Shared(w, i, route));
      if addr != "" && RotatesOn(op, w, i) {
        ClusterRunShape(seeds, op, req, w, i + 1, Learn(addr, w.outcome(i), r), w.outcome(i));
      }
    }
  }

  lemma ClusterRunEnds(seeds: seq<string>, op: string, req: bytes, w: World, route: Route, last: Outcome)
    ensures ClusterRun(seeds, op, req, w, Attempts(seeds), route, last) == Trace([], last, route)
  {
  }

  /** With neither seeds nor a cached leader nothing is sent, and the call says why. */
  lemma WithoutSeeds(op: string, req: bytes, w: World, route: Route)
    requires route.leader == "" && w.others(0).None?
    ensures var t := ClusterRun([], op, req, w, 0, route, Failed(NO_SEEDS));
            t == Trace([], Failed(Client(0, "", Some(Plain("cluster: no seeds configured")))), route)
  {
    hide Redirect, Retryable;
  }

  /** A cached leader is tried first, whatever the seeds are and even if there are none. */
  lemma CachedLeaderFirst(seeds: seq<string>, op: string, req: bytes, w: World, route: Route)
    requires route.leader != "" && w.others(0).None?
    ensures var log := ClusterRun(seeds, op, req, w, 0, route, Failed(NO_SEEDS)).log;
            log != [] && log[0] == Attempt(route.leader, op, req, w.outcome(0))
  {
    hide ClusterRun, RotatesOn, Learn, IsFinal;
    ClusterRunStep(seeds, op, req, w, 0, route, Failed(NO_SEEDS));
  }

  /** With seeds to rotate over, the call returns how its last attempt ended. */
  lemma {:induction false} ReturnsLastOutcome(
    seeds: seq<string>, op: string, req: bytes, w: World, i: nat, route: Route, last: Outcome)
    requires i <= Attempts(seeds) && seeds != [] && "" !in seeds
    ensures var t := ClusterRun(seeds, op, req, w, i, route, last);
            && (i < Attempts(seeds) ==> t.log != [])
            && t.result == (if t.log == [] then last else t.log[|t.log| - 1].outcome)
    decreases Attempts(seeds) - i
  {
    hide ClusterRun, RotatesOn, Target, Learn;
    if i == Attempts(seeds) {
      ClusterRunEnds(seeds, op, req, w, route, last);
    } else {
      ClusterRunStep(seeds, op, req, w, i, route, last);
      TargetIsThere(seeds, Shared(w, i, route));
      var (addr, r) := Target(seeds, Shared(w, i, route));
      if RotatesOn(op, w, i) {
        ReturnsLastOutcome(seeds, op, req, w, i + 1, Learn(addr, w.outcome(i), r), w.outcome(i));
      }
    }
  }

  /** `ClusterTransport.Call`: only the last attempt of a legacy mutation can have executed. */
  lemma ClusterAtMostOnce(seeds: seq<string>, op: string, req: bytes, w: World, route: Route, applied: nat -> bool)
    requires !ReplaySafe(op) && TruthfulStatus(w, applied) && TruthfulText(w, applied)
    ensures var log := ClusterRun(seeds, op, req, w, 0, route, Failed(NO_SEEDS)).log;
            && (forall k :: 0 <= k < |log| - 1 ==> !applied(k))
            && (log != [] ==> Executions(applied, |log|) == (if applied(|log| - 1) then 1 else 0))
  {
    hide Is, Redirect, ReplaySafe, IsServiceError, ClusterRun;
    ClusterRunShape(seeds, op, req, w, 0, route, Failed(NO_SEEDS));
    var log := ClusterRun(seeds, op, req, w, 0, route, Failed(NO_SEEDS)).log;
    forall k: nat | k < |log| - 1 ensures !applied(k) {
      assert RotatesOn(op, w, k);
    }
    if log != [] {
      NoneApplied(applied, |log| - 1);
    }
  }

  /**
    What the documented rules let a client send again: what was not applied, or is
    uncertain but replay-safe. A service error and an unsupported operation are final.
   */
  predicate RulesAllow(op: string, e: Err) {
    && !IsServiceError(e) && !Is(e, Unsupported)
    && (Is(e, NotApplied) || (Is(e, OutcomeUncertain) && ReplaySafe(op)))
  }

  /**
    For every operation, an attempt that is followed by another was not applied, or
    was uncertain and is safe to replay, or was a redirect; and the next attempt
    carries identical bytes.
   */
  lemma ResendsHaveAReason(seeds: seq<string>, op: string, req: bytes, w: World, route: Route, k: nat)
    requires k + 1 < |ClusterRun(seeds, op, req, w, 0, route, Failed(NO_SEEDS)).log|
    ensures var log := ClusterRun(seeds, op, req, w, 0, route, Failed(NO_SEEDS)).log;
            && log[k].op == op && log[k].req == req && log[k + 1].op == op && log[k + 1].req == req
            && log[k].outcome.Failed?
            && (Redirect(log[k].outcome.err).Some? || RulesAllow(op, log[k].outcome.err))
  {
    hide Is, Redirect, ReplaySafe, IsServiceError, ClusterRun;
    ClusterRunShape(seeds, op, req, w, 0, route, Failed(NO_SEEDS));
    assert RotatesOn(op, w, k);
  }

  // ----- Where the promise depends on the wording of errors -----

  lemma ContainsSuffix(pre: string, t: string, sub: string)
    requires Contains(t, sub)
    ensures Contains(pre + t, sub)
  {
    var i := Find(t, sub);
    assert (pre + t)[|pre| + i..|pre| + i + |sub|] == t[i..i + |sub|];
    assert MatchAt(pre + t, sub, |pre| + i);
  }

  /** No occurrence of "not-leader" begins inside `pre`. */
  predicate NoStart(pre: string) {
    forall j :: 0 <= j < |pre| && pre[j] == 'n' ==>
      (|pre[j..]| > 1 && pre[j..][1] != 'o') || (|pre[j..]| > 3 && pre[j..][3] != '-')
  }

  lemma ContainsOnlySuffix(pre: string, t: string)
    requires NoStart(pre) && Contains(pre + t, NOT_LEADER)
    ensures Contains(t, NOT_LEADER)
  {
    var s := pre + t;
    var i := Find(s, NOT_LEADER);
    MatchStarts(s, i);
    if i < |pre| {
      StartInside(pre, t, i);
    } else {
      assert t[i - |pre|..i - |pre| + 10] == s[i..i + 10];
      assert MatchAt(t, NOT_LEADER, i - |pre|);
    }
  }

  lemma MatchStarts(s: string, i: nat)
    requires MatchAt(s, NOT_LEADER, i)
    ensures i + 10 <= |s| && s[i] == 'n' && s[i + 1] == 'o' && s[i + 3] == '-'
  {
    var found := s[i..i + 10];
    assert found == NOT_LEADER;
    assert found[0] == 'n' && found[1] == 'o' && found[3] == '-';
  }

  /** Where `pre` rules a start out, whatever follows it. */
  lemma StartInside(pre: string, t: string, i: nat)
    requires NoStart(pre) && i < |pre| && i + 4 <= |pre + t|
    ensures !((pre + t)[i] == 'n' && (pre + t)[i + 1] == 'o' && (pre + t)[i + 3] == '-')
  {
    var s := pre + t;
    if s[i] == 'n' {
      var rest := pre[i..];
      assert pre[i] == 'n';
      assert |rest| > 1 ==> rest[1] == s[i + 1];
      assert |rest| > 3 ==> rest[3] == s[i + 3];
    }
  }

  lemma NoStartConcat(a: string, b: string)
    requires NoStart(a) && NoStart(b)
    ensures NoStart(a + b)
  {
    var s := a + b;
    forall j | 0 <= j < |s| && s[j] == 'n'
      ensures (|s[j..]| > 1 && s[j..][1] != 'o') || (|s[j..]| > 3 && s[j..][3] != '-')
    {
      if j < |a| {
        var rest := a[j..];
        assert |rest| > 1 ==> rest[1] == s[j..][1];
        assert |rest| > 3 ==> rest[3] == s[j..][3];
      } else {
        assert s[j..] == b[j - |a|..];
      }
    }
  }

  lemma {:induction false} NoStartNatural(n: nat)
    ensures 'n' !in Natural(n)
  {
    if n >= 10 {
      NoStartNatural(n / 10);
    }
  }

  /** A transport status that reads as a redirect is one: the wrapping adds no such text. */
  lemma StatusRedirect(s: int, m: string)
    ensures var e := Client(0, "", Some(Status(s, m)));
            && (Redirect(e).Some? <==> Contains(m, NOT_LEADER))
            && (Redirect(Status(s, m)).Some? <==> Contains(m, NOT_LEADER))
            && (Redirect(e).Some? ==> Is(e, NotApplied))
  {
    hide Is, Natural, Contains;
    var e := Client(0, "", Some(Status(s, m)));
    var number := Decimal(s);
    NoStartNatural(if s < 0 then -s else s);
    var inner := "transport status " + number + ": ";
    var outer := "transport error: " + inner;
    assert TextOf(Status(s, m)) == inner + m;
    assert TextOf(e) == outer + m;
    assert NoStart(outer) by {
      assert forall j :: 0 <= j < |outer| && outer[j] == 'n' ==> j == 3 || j == 20;
    }
    assert NoStart(inner) by {
      assert forall j :: 0 <= j < |inner| && inner[j] == 'n' ==> j == 3;
    }
    if Contains(outer + m, NOT_LEADER) {
      ContainsOnlySuffix(outer, m);
    }
    if Contains(inner + m, NOT_LEADER) {
      ContainsOnlySuffix(inner, m);
    }
    if Contains(m, NOT_LEADER) {
      ContainsSuffix(outer, m, NOT_LEADER);
      ContainsSuffix(inner, m, NOT_LEADER);
    }
    IsStatus(s, m, NotApplied);
  }

  /**
    What each transport status means. Statuses 1 (malformed envelope), 2 (unknown
    operation) and 7 (unavailable), and a redirect in any status, say that the request
    was not applied; every other status leaves that open; and only 2 is unsupported.
   */
  lemma StatusTable(op: string, s: int, m: string)
    ensures var e := Client(0, "", Some(Status(s, m)));
            var notApplied := s == 1 || s == 2 || s == 7 || Contains(m, "not-leader");
            && (Is(e, NotApplied) <==> notApplied) && (Is(e, OutcomeUncertain) <==> !notApplied)
            && (Is(e, Unsupported) <==> s == 2)
            && (Retryable(op, e) <==> s != 2 && (notApplied || ReplaySafe(op)))
  {
    hide Is, Redirect, Contains, Retryable, ReplaySafe;
    StatusRedirect(s, m);
    StatusKinds(op, s, m);
    IsStatus(s, m, NotApplied);
    IsStatus(s, m, OutcomeUncertain);
    IsStatus(s, m, Unsupported);
  }

  /** The server does not know the operation. */
  ghost predicate IsUnknownOp(e: Err) { exists m :: e == Client(0, "", Some(Status(UNKNOWN_SERVICE_OR_OP, m))) }

  /**
    The kinds of error after which the rules never allow another attempt: a service
    error, an unknown operation, an unusable reply, a lost legacy mutation.
   */
  ghost predicate MustReturn(op: string, e: Err) {
    IsServiceArm(e) || IsUnknownOp(e) || IsUnusable(e) || (SentAndLost(e) && !ReplaySafe(op))
  }

  /**
    For every operation, a cluster call resends against the rules in exactly one case:
    such an error, if its text happens to contain "not-leader". For a legacy mutation
    these are the errors that prove nothing about whether it was applied.
   */
  lemma ResentWithoutProof(op: string, e: Err)
    requires FromCallOnce(e)
    ensures Resent(op, e) && !RulesAllow(op, e) <==> MustReturn(op, e) && Contains(TextOf(e), NOT_LEADER)
    ensures !ReplaySafe(op) ==>
              (Resent(op, e) && !Is(e, NotApplied) <==> Unproven(e) && Contains(TextOf(e), NOT_LEADER))
  {
    hide ReplaySafe, Contains, TextOf, Retryable, Is, IsServiceError;
    if Unproven(e) {
      UnprovenIsFinal(op, e);
      UnprovenAndRules(op, e);
    } else if x: IoErr :| e == NotAppliedBecause(x) {
      LocalKinds(x);
    } else {
      var s, m :| e == Client(0, "", Some(Status(s, m)));
      StatusIsProof(op, s, m);
      assert IsUnknownOp(e) <==> s == UNKNOWN_SERVICE_OR_OP;
    }
  }

  lemma UnprovenAndRules(op: string, e: Err)
    requires Unproven(e)
    ensures RulesAllow(op, e) <==> !MustReturn(op, e)
  {
    hide ReplaySafe, IsServiceError, Is;
    if x: IoErr :| e == Uncertain(x) {
      LocalKinds(x);
    } else if x: IoErr :| e == Client(0, "", Some(x)) {
      ReplyKinds(0, "", x);
    } else {
      ReplyKinds(e.clientCode, e.message, Plain(""));
    }
  }

  /**
    A transport status is resent only as the rules allow, unless it says that the
    operation is unknown: that is resent exactly when its message contains
    "not-leader". For a legacy mutation any status is resent only on proof.
   */
  lemma StatusIsProof(op: string, s: int, m: string)
    ensures var e := Client(0, "", Some(Status(s, m)));
            && (Resent(op, e) && !RulesAllow(op, e) <==> s == UNKNOWN_SERVICE_OR_OP && Contains(TextOf(e), NOT_LEADER))
            && (s == UNKNOWN_SERVICE_OR_OP ==> (Resent(op, e) <==> Contains(m, NOT_LEADER)))
            && (Resent(op, e) && !ReplaySafe(op) ==> Is(e, NotApplied))
  {
    hide ReplaySafe, Retryable, Is, Contains, IsServiceError, TextOf;
    StatusRedirect(s, m);
    StatusKinds(op, s, m);
    StatusIsOneOrTheOther(s, m);
    IsStatus(s, m, Unsupported);
    ServiceErrorWrapped(Status(s, m));
  }

  /** The answer to an unknown operation repeats its name; if that mentions a redirect, it is resent. */
  lemma UnknownOpIsResent(op: string)
    requires Contains(op, NOT_LEADER)
    ensures var e := Client(0, "", Some(Status(UNKNOWN_SERVICE_OR_OP, "unknown op: " + op)));
            Is(e, Unsupported) && !Retryable(op, e) && MustReturn(op, e) && Resent(op, e)
  {
    hide Contains, Is, Retryable;
    var m := "unknown op: " + op;
    ContainsSuffix("unknown op: ", op, NOT_LEADER);
    StatusIsProof(op, UNKNOWN_SERVICE_OR_OP, m);
    StatusKinds(op, UNKNOWN_SERVICE_OR_OP, m);
    IsStatus(UNKNOWN_SERVICE_OR_OP, m, Unsupported);
  }

  /** Attempt `k` failed with an error that is to be returned, but mentions a redirect. */
  ghost predicate Mentioned(op: string, w: World, k: nat) {
    w.outcome(k).Failed? && MustReturn(op, w.outcome(k).err) && Contains(TextOf(w.outcome(k).err), NOT_LEADER)
  }

  /** Attempt `k` failed with an error after which the rules allow another. */
  ghost predicate Allowed(op: string, w: World, k: nat) {
    w.outcome(k).Failed? && RulesAllow(op, w.outcome(k).err)
  }

  /**
    Over a whole run, for every operation: a resend follows the rules unless the error
    before it mentions a redirect. For a legacy mutation, following them means proof.
   */
  lemma ProofUnlessMentioned(seeds: seq<string>, op: string, req: bytes, w: World, route: Route)
    requires forall k :: w.outcome(k).Failed? ==> FromCallOnce(w.outcome(k).err)
    ensures var n := |ClusterRun(seeds, op, req, w, 0, route, Failed(NO_SEEDS)).log|;
            forall k :: 0 <= k < n - 1 ==>
              && (Allowed(op, w, k) <==> !Mentioned(op, w, k))
              && (Allowed(op, w, k) && !ReplaySafe(op) ==> Is(w.outcome(k).err, NotApplied))
  {
    hide ReplaySafe, Contains, TextOf, Retryable, Is, MustReturn, ClusterRun, FromCallOnce, IsServiceError;
    ClusterRunShape(seeds, op, req, w, 0, route, Failed(NO_SEEDS));
    var n := |ClusterRun(seeds, op, req, w, 0, route, Failed(NO_SEEDS)).log|;
    forall k: nat | k < n - 1
      ensures Allowed(op, w, k) <==> !Mentioned(op, w, k)
    {
      assert RotatesOn(op, w, k);
      ResentWithoutProof(op, w.outcome(k).err);
    }
  }

  // ----- A service error that reads as a redirect -----

  /** For every operation, a service error is resent exactly when its message contains "not-leader". */
  lemma ServiceErrorIsResent(op: string, c: int, m: string)
    ensures Resent(op, Client(c, m, None)) <==> Contains(m, NOT_LEADER)
  {
    hide Contains, Retryable, Natural;
    var e := Client(c, m, None);
    var pre := "service error " + Decimal(c) + ": ";
    NoStartNatural(if c < 0 then -c else c);
    assert 'n' !in pre;
    assert TextOf(e) == pre + m;
    assert Unproven(e);
    if Contains(pre + m, NOT_LEADER) {
      ContainsOnlySuffix(pre, m);
    }
    if Contains(m, NOT_LEADER) {
      ContainsSuffix(pre, m, NOT_LEADER);
    }
    ServiceArmIsFinal(op, c, m);
  }

  lemma ServiceArmIsFinal(op: string, c: int, m: string)
    ensures !Retryable(op, Client(c, m, None))
  {
    RetryableByKind(op, Plain(""), 0, m, c);
  }

  /** The message with which the server rejects a malformed uuid; `%q` leaves printable text as it is. */
  function InvalidUuid(uuid: string): string { "uuid \"" + uuid + "\" is not a valid UUID" }

  predicate Printable(s: string) {
    forall i :: 0 <= i < |s| ==> ' ' < s[i] <= '~' && s[i] !in DELIMITERS && s[i] != '\\'
  }

  const INVALID_ARGUMENT := 1

  /**
    Such a message echoes the caller. With "not-leader leader=" and any address for a
    uuid, the final error of every operation is not returned: the cluster call sends
    the request again, to that address.
   */
  lemma InvalidUuidIsFollowed(seeds: seq<string>, op: string, req: bytes, w: World, route: Route, addr: string)
    requires seeds != [] && "" !in seeds && w.others(0).None? && w.others(1).None?
    requires addr != "" && Printable(addr)
    requires w.outcome(0) == Failed(Client(INVALID_ARGUMENT, InvalidUuid("not-leader leader=" + addr), None))
    ensures IsServiceError(w.outcome(0).err) && MustReturn(op, w.outcome(0).err)
    ensures var log := ClusterRun(seeds, op, req, w, 0, route, Failed(NO_SEEDS)).log;
            |log| >= 2 && log[1].addr == addr && log[1].op == op && log[1].req == req
  {
    hide Redirect, Retryable, ClusterRun, InvalidUuid, Printable;
    assert Redirect(w.outcome(0).err) == Some(addr) by { InvalidUuidRedirects(addr); }
    NextAttemptGoes(seeds, op, req, w, 0, route, Failed(NO_SEEDS));
    RedirectGoesOn(seeds, op, req, w, route);
    ClusterRunShape(seeds, op, req, w, 0, route, Failed(NO_SEEDS));
  }

  const UUID_PREFIX := "service error 1: uuid \""
  const UUID_SUFFIX := "\" is not a valid UUID"

  lemma InvalidUuidRedirects(addr: string)
    requires Printable(addr)
    ensures Redirect(Client(INVALID_ARGUMENT, InvalidUuid("not-leader leader=" + addr), None)) == Some(addr)
  {
    hide RedirectLeader, InvalidUuid, TextOf;
    InvalidUuidText("not-leader leader=" + addr);
    Reassociate(UUID_PREFIX, "not-leader leader=" + addr, UUID_SUFFIX);
    RedirectBehind(UUID_PREFIX, addr, UUID_SUFFIX);
  }

  lemma InvalidUuidText(uuid: string)
    ensures TextOf(Client(INVALID_ARGUMENT, InvalidUuid(uuid), None)) == UUID_PREFIX + uuid + UUID_SUFFIX
  {
    var m := InvalidUuid(uuid);
    assert Decimal(1) == "1";
    assert TextOf(Client(INVALID_ARGUMENT, m, None)) == "service error 1: " + m;
    Reassociate("uuid \"", uuid, UUID_SUFFIX);
    Reassociate("service error 1: ", "uuid \"", uuid + UUID_SUFFIX);
    Reassociate(UUID_PREFIX, uuid, UUID_SUFFIX);
    assert "service error 1: " + "uuid \"" == UUID_PREFIX;
  }

  /** After a redirect there is a second attempt, whatever the context does. */
  lemma RedirectGoesOn(seeds: seq<string>, op: string, req: bytes, w: World, route: Route)
    requires seeds != [] && "" !in seeds && w.outcome(0).Failed? && Redirect(w.outcome(0).err).Some?
    ensures |ClusterRun(seeds, op, req, w, 0, route, Failed(NO_SEEDS)).log| >= 2
  {
    hide Redirect, Retryable;
    var (addr, r) := Target(seeds, Shared(w, 0, route));
    ReturnsLastOutcome(seeds, op, req, w, 1, Learn(addr, w.outcome(0), r), w.outcome(0));
  }

  // ----- A dial that fails -----

  /**
    When the first attempt fails to connect, a stream call tries again exactly if it has
    attempts and time left and the dial did not time out, for every operation.
   */
  lemma FailedDialInStream(addr: string, op: string, req: bytes, max: nat, w: World, x: IoErr)
    requires max >= 1 && w.outcome(0) == Failed(NotAppliedBecause(x))
    ensures Is(w.outcome(0).err, NotApplied)
    ensures |StreamRun(addr, op, req, max, w, 0)| > 1 <==> max > 1 && w.alive(0) && !TimedOut(x)
  {
    hide Is, Retryable, StreamRun, TimedOut, NotAppliedBecause;
    LocalKinds(x);
    RetryableByKind(op, x, 0, "", 0);
    StreamRunShape(addr, op, req, max, w, 0);
    if |StreamRun(addr, op, req, max, w, 0)| > 1 {
      assert GoesOn(op, w, 0);
    }
  }

  /** A cluster call goes on to the next seed exactly if the dial did not time out, or its error reads as a redirect. */
  lemma FailedDialInCluster(seeds: seq<string>, op: string, req: bytes, w: World, route: Route, x: IoErr)
    requires seeds != [] && "" !in seeds && w.outcome(0) == Failed(NotAppliedBecause(x))
    ensures |ClusterRun(seeds, op, req, w, 0, route, Failed(NO_SEEDS)).log| > 1 <==>
            Redirect(w.outcome(0).err).Some? || (w.alive(0) && !TimedOut(x))
  {
    hide Redirect, Retryable, TimedOut, NotAppliedBecause;
    RetryableByKind(op, x, 0, "", 0);
    var (addr, r) := Target(seeds, Shared(w, 0, route));
    ReturnsLastOutcome(seeds, op, req, w, 1, Learn(addr, w.outcome(0), r), w.outcome(0));
  }

  /**
    So a dial that times out ends either call at once, on the first node, although the
    request was not applied, unless its text happens to contain "not-leader".
   */
  lemma TimedOutDialIsFinal(
    addr: string, seeds: seq<string>, op: string, req: bytes, max: nat, w: World, route: Route, x: IoErr)
    requires max >= 1 && seeds != [] && "" !in seeds
    requires TimedOut(x) && !Contains(TextOf(x), NOT_LEADER)
    requires w.outcome(0) == Failed(NotAppliedBecause(x))
    ensures Is(w.outcome(0).err, NotApplied)
    ensures |StreamRun(addr, op, req, max, w, 0)| == 1
    ensures var t := ClusterRun(seeds, op, req, w, 0, route, Failed(NO_SEEDS));
            |t.log| == 1 && t.result == w.outcome(0)
  {
    hide Retryable, StreamRun, ClusterRun, Contains, Is, TextOf, NotAppliedBecause;
    NotAppliedRedirect(x);
    FailedDialInStream(addr, op, req, max, w, x);
    FailedDialInCluster(seeds, op, req, w, route, x);
    StreamRunShape(addr, op, req, max, w, 0);
    ReturnsLastOutcome(seeds, op, req, w, 0, route, Failed(NO_SEEDS));
    ClusterRunShape(seeds, op, req, w, 0, route, Failed(NO_SEEDS));
  }

  const NOT_APPLIED_PREFIX := "transport error: " + (TextOf(NotApplied) + ": ")

  /** The wrapping of a not-applied error adds no text that reads as a redirect. */
  lemma NotAppliedRedirect(x: Err)
    ensures Redirect(NotAppliedBecause(x)).Some? <==> Contains(TextOf(x), NOT_LEADER)
  {
    hide Contains;
    var inner := Both(NotApplied, x);
    assert TextOf(inner) == TextOf(NotApplied) + ": " + TextOf(x);
    Reassociate("transport error: ", TextOf(NotApplied) + ": ", TextOf(x));
    assert TextOf(Client(0, "", Some(inner))) == NOT_APPLIED_PREFIX + TextOf(x);
    NotAppliedPrefix();
    if Contains(NOT_APPLIED_PREFIX + TextOf(x), NOT_LEADER) {
      ContainsOnlySuffix(NOT_APPLIED_PREFIX, TextOf(x));
    }
    if Contains(TextOf(x), NOT_LEADER) {
      ContainsSuffix(NOT_APPLIED_PREFIX, TextOf(x), NOT_LEADER);
    }
  }

  lemma NotAppliedPrefix()
    ensures NoStart(NOT_APPLIED_PREFIX)
  {
    hide NoStart;
    NoStartPieces();
    NoStartConcat("corndogs: request ", "not applied");
    assert TextOf(NotApplied) == "corndogs: request " + "not applied";
    NoStartConcat(TextOf(NotApplied), ": ");
    NoStartConcat("transport error: ", TextOf(NotApplied) + ": ");
  }

  lemma NoStartPieces()
    ensures NoStart("transport error: ") && NoStart("corndogs: request ") && NoStart("not applied") && NoStart(": ")
  {
    var a, b, c := "transport error: ", "corndogs: request ", "not applied";
    assert forall j :: 0 <= j < |a| && a[j] == 'n' ==> j == 3;
    assert a[3..][1] == 's';
    assert forall j :: 0 <= j < |b| && b[j] == 'n' ==> j == 3;
    assert b[3..][1] == 'd';
    assert forall j :: 0 <= j < |c| && c[j] == 'n' ==> j == 0;
    assert c[0..][3] == ' ';
  }

  // ----- A lost legacy mutation whose cause reads as a redirect -----

  /** The world in which the first attempt fails with `e` and the second succeeds. */
  function FailsOnce(e: Err): World {
    World(k => if k == 0 then Failed(e) else Reply([]), k => true, k => None)
  }

  lemma RedirectIsResent(seeds: seq<string>, op: string, req: bytes, e: Err)
    requires seeds != [] && "" !in seeds && Redirect(e).Some?
    ensures |ClusterRun(seeds, op, req, FailsOnce(e), 0, Route("", 0), Failed(NO_SEEDS)).log| == 2
  {
    hide Redirect, Retryable;
    var w := FailsOnce(e);
    var (a0, r0) := Target(seeds, Route("", 0));
    assert a0 == seeds[0];
    var r1 := Learn(a0, Failed(e), r0);
    var (a1, r2) := Target(seeds, r1);
    assert a1 != "" by {
      if r1.leader == "" {
        assert a1 in seeds;
      }
    }
    var t1 := ClusterRun(seeds, op, req, w, 1, r1, Failed(e));
    assert t1.log == [Attempt(a1, op, req, Reply([]))];
  }

  /**
    What the text test does with an uncertain legacy mutation: if the cause of the lost
    connection read "not-leader", a submission that executed would be sent, and execute,
    a second time. No cause that the client makes up reads so; the texts that do come
    from elsewhere are those of `ServiceErrorIsResent` and `UnknownOpIsResent`.
   */
  lemma TextCanRunTwice(seeds: seq<string>, req: bytes, cause: string)
    requires seeds != [] && "" !in seeds && Contains(cause, NOT_LEADER)
    ensures var w := FailsOnce(Uncertain(Plain(cause)));
            var applied := (k: nat) => true;
            && !ReplaySafe("SubmitTask") && TruthfulStatus(w, applied)
            && var log := ClusterRun(seeds, "SubmitTask", req, w, 0, Route("", 0), Failed(NO_SEEDS)).log;
               |log| == 2 && Executions(applied, |log|) == 2
  {
    hide Contains, ClusterRun, Is;
    var e := Uncertain(Plain(cause));
    LocalKinds(Plain(cause));
    UncertainText(cause);
    ContainsSuffix(UNCERTAIN_PREFIX, cause, NOT_LEADER);
    RedirectIsResent(seeds, "SubmitTask", req, e);
  }

  const UNCERTAIN_PREFIX := "transport error: " + (TextOf(OutcomeUncertain) + ": ")

  lemma UncertainText(cause: string)
    ensures TextOf(Uncertain(Plain(cause))) == UNCERTAIN_PREFIX + cause
  {
    var inner := Both(OutcomeUncertain, Plain(cause));
    assert TextOf(inner) == TextOf(OutcomeUncertain) + ": " + cause;
    Reassociate("transport error: ", TextOf(OutcomeUncertain) + ": ", cause);
  }

  lemma Reassociate(a: string, b: string, c: string)
    ensures a + (b + c) == a + b + c
  {
  }

  // ----- Following redirects, caching the leader -----

  /**
    Without interference from other callers: a redirect to an address sends the next
    attempt there, any other failure sends it to the next seed, and a reply leaves the
    address that gave it as the cached leader.
   */
  lemma NextAttemptGoes(seeds: seq<string>, op: string, req: bytes, w: World, i: nat, route: Route, last: Outcome)
    requires i < Attempts(seeds) && seeds != [] && "" !in seeds && w.others(i).None? && w.others(i + 1).None?
    ensures var t := ClusterRun(seeds, op, req, w, i, route, last);
            && t.log != []
            && (t.log[0].outcome.Reply? ==> t.route.leader == t.log[0].addr)
            && (|t.log| > 1 ==>
                  && t.log[0].outcome.Failed?
                  && var redir := Redirect(t.log[0].outcome.err);
                     if redir.Some? && redir.value != "" then t.log[1].addr == redir.value
                     else
                       var next := if route.leader != "" then route.seedIdx else route.seedIdx + 1;
                       t.log[1].addr == seeds[next % |seeds|])
  {
    hide Redirect, Retryable;
    var (addr, r) := Target(seeds, route);
    if RotatesOn(op, w, i) && i + 1 < Attempts(seeds) {
      var r1 := Learn(addr, w.outcome(i), r);
      var t1 := ClusterRun(seeds, op, req, w, i + 1, r1, w.outcome(i));
      var (a1, r2) := Target(seeds, r1);
      assert a1 != "";
      assert t1.log[0].addr == a1;
    }
  }

  /** The leader that an attempt leaves behind if the call goes on or ends well. */
  function Left(a: Attempt): string {
    match a.outcome
    case Reply(_) => a.addr
    case Failed(e) => if Redirect(e).Some? then Redirect(e).value else ""
  }

  /** The leader cached when attempt `j` is made, given the one at the start. */
  function LeaderAt(leader: string, log: seq<Attempt>, j: nat): string
    requires j <= |log|
  {
    if j == 0 then leader else Left(log[j - 1])
  }

  /** How many of the first `j` attempts found no leader cached and took a seed. */
  function Turns(leader: string, log: seq<Attempt>, j: nat): nat
    requires j <= |log|
  {
    if j == 0 then 0 else Turns(leader, log, j - 1) + if LeaderAt(leader, log, j - 1) == "" then 1 else 0
  }

  lemma {:induction false} TurnsShift(leader: string, a: Attempt, rest: seq<Attempt>, j: nat)
    requires j <= |rest|
    ensures LeaderAt(leader, [a] + rest, j + 1) == LeaderAt(Left(a), rest, j)
    ensures Turns(leader, [a] + rest, j + 1) == (if leader == "" then 1 else 0) + Turns(Left(a), rest, j)
  {
    hide Left;
    if j > 0 {
      TurnsShift(leader, a, rest, j - 1);
    }
  }

  /** Where attempt `j` of a call goes: to the leader cached by then, else to the next seed in turn. */
  ghost predicate GoesWhereItShould(seeds: seq<string>, route: Route, log: seq<Attempt>, j: nat)
    requires seeds != [] && j < |log|
  {
    var leader := LeaderAt(route.leader, log, j);
    log[j].addr == if leader != "" then leader else Rotation(seeds, route.seedIdx + Turns(route.leader, log, j))
  }

  /**
    Routing over a whole run that nobody interferes with. Each attempt goes to the leader
    known by then or else to the next seed. At the end the rotation has moved on by the
    seeds taken; a reply has left its address cached, a redirect the address it named, a
    retryable failure none, and a final error the leader its attempt was made with.
   */
  lemma {:induction false} RoutingOfRun(
    seeds: seq<string>, op: string, req: bytes, w: World, i: nat, route: Route, last: Outcome)
    requires i < Attempts(seeds) && seeds != [] && "" !in seeds && forall k :: w.others(k).None?
    ensures var t := ClusterRun(seeds, op, req, w, i, route, last);
            var n := |t.log|;
            && n > 0
            && (forall j :: 0 <= j < n ==> GoesWhereItShould(seeds, route, t.log, j))
            && t.route.seedIdx == route.seedIdx + Turns(route.leader, t.log, n)
            && t.route.leader == LeaderAt(route.leader, t.log, if IsFinal(op, t.log[n - 1].outcome) then n - 1 else n)
    decreases Attempts(seeds) - i
  {
    hide ClusterRun, RotatesOn, IsFinal, Redirect, Turns;
    ClusterRunStep(seeds, op, req, w, i, route, last);
    TargetIsThere(seeds, route);
    var t := ClusterRun(seeds, op, req, w, i, route, last);
    var (addr, r) := Target(seeds, route);
    var a := Attempt(addr, op, req, w.outcome(i));
    OneTurn(route.leader, t.log);
    assert GoesWhereItShould(seeds, route, t.log, 0);
    if RotatesOn(op, w, i) {
      var r1 := Learn(addr, w.outcome(i), r);
      var u := ClusterRun(seeds, op, req, w, i + 1, r1, w.outcome(i));
      if i + 1 == Attempts(seeds) {
        ClusterRunEnds(seeds, op, req, w, r1, w.outcome(i));
        RotatingIsNotFinal(op, w, i);
      } else {
        RoutingOfRun(seeds, op, req, w, i + 1, r1, w.outcome(i));
        RoutingShifts(seeds, route, r1, a, u.log);
        TurnsShift(route.leader, a, u.log, |u.log|);
        TurnsShift(route.leader, a, u.log, |u.log| - 1);
      }
    }
  }

  lemma RotatingIsNotFinal(op: string, w: World, i: nat)
    requires RotatesOn(op, w, i)
    ensures !IsFinal(op, w.outcome(i))
  {
  }

  lemma OneTurn(leader: string, log: seq<Attempt>)
    requires |log| > 0
    ensures Turns(leader, log, 0) == 0 && Turns(leader, log, 1) == if leader == "" then 1 else 0
  {
    hide Left;
    assert Turns(leader, log, 0) == 0;
  }

  lemma RoutingShifts(seeds: seq<string>, route: Route, r1: Route, a: Attempt, rest: seq<Attempt>)
    requires seeds != [] && r1.leader == Left(a)
    requires r1.seedIdx == route.seedIdx + if route.leader == "" then 1 else 0
    requires forall j :: 0 <= j < |rest| ==> GoesWhereItShould(seeds, r1, rest, j)
    requires GoesWhereItShould(seeds, route, [a] + rest, 0)
    ensures forall j :: 0 <= j < |[a] + rest| ==> GoesWhereItShould(seeds, route, [a] + rest, j)
  {
    hide Turns, Left, LeaderAt;
    var log := [a] + rest;
    forall j | 0 < j < |log| ensures GoesWhereItShould(seeds, route, log, j) {
      TurnsShift(route.leader, a, rest, j - 1);
      assert log[j] == rest[j - 1] && GoesWhereItShould(seeds, r1, rest, j - 1);
    }
  }

  // ----- Rotation -----

  /** Every attempt fails retryably without a redirect, the context lives on, and nobody interferes. */
  ghost predicate AllFail(op: string, w: World) {
    forall k ::
      && w.outcome(k).Failed? && Redirect(w.outcome(k).err).None? && Retryable(op, w.outcome(k).err)
      && w.alive(k) && w.others(k).None?
  }

  /** The addresses a cluster call then tries: the stale leader, if any, and then the seeds in turn. */
  lemma {:induction false} RotationGoes(
    seeds: seq<string>, op: string, req: bytes, w: World, i: nat, seedIdx: nat, last: Outcome)
    requires i <= Attempts(seeds) && seeds != [] && "" !in seeds && AllFail(op, w)
    ensures var log := ClusterRun(seeds, op, req, w, i, Route("", seedIdx), last).log;
            && |log| == Attempts(seeds) - i
            && forall j :: 0 <= j < |log| ==> log[j].addr == Rotation(seeds, seedIdx + j)
    decreases Attempts(seeds) - i
  {
    hide Redirect, Retryable;
    if i < Attempts(seeds) {
      RotationGoes(seeds, op, req, w, i + 1, seedIdx + 1, w.outcome(i));
      var log := ClusterRun(seeds, op, req, w, i, Route("", seedIdx), last).log;
      var rest := ClusterRun(seeds, op, req, w, i + 1, Route("", seedIdx + 1), w.outcome(i)).log;
      assert log == [Attempt(seeds[seedIdx % |seeds|], op, req, w.outcome(i))] + rest;
      forall j | 0 <= j < |log| ensures log[j].addr == Rotation(seeds, seedIdx + j) {
        if j > 0 {
          assert log[j] == rest[j - 1];
          assert rest[j - 1].addr == Rotation(seeds, seedIdx + 1 + (j - 1));
        }
      }
    }
  }

  function Rotation(seeds: seq<string>, j: nat): string
    requires seeds != []
  {
    seeds[j % |seeds|]
  }

  /** The attempts among `log` that went to `addr`. */
  function Count(log: seq<Attempt>, addr: string): nat {
    if log == [] then 0 else Count(log[..|log| - 1], addr) + if log[|log| - 1].addr == addr then 1 else 0
  }

  lemma DivStep(x: int, n: int)
    requires n > 0
    ensures x / n == (x - 1) / n + (if x % n == 0 then 1 else 0)
  {
    var q, r := x / n, x % n;
    assert x == q * n + r;
    if r == 0 {
      assert x - 1 == (q - 1) * n + (n - 1);
      DivUnique(x - 1, n, q - 1, n - 1);
    } else {
      DivUnique(x - 1, n, q, r - 1);
    }
  }

  lemma DivUnique(x: int, n: int, q: int, r: int)
    requires n > 0 && 0 <= r < n && x == q * n + r
    ensures x / n == q
  {
    var d := x / n - q;
    assert d * n == r - x % n;
    assert (d >= 1 ==> d * n >= n) && (d <= -1 ==> d * n <= -n);
  }

  /** Counting one seed among consecutive rotation targets, in closed form. */
  lemma {:induction false} CountRotation(seeds: seq<string>, log: seq<Attempt>, s: nat, k: nat)
    requires k < |seeds|
    requires forall i, j :: 0 <= i < j < |seeds| ==> seeds[i] != seeds[j]
    requires forall j :: 0 <= j < |log| ==> log[j].addr == Rotation(seeds, s + j)
    ensures Count(log, seeds[k]) == (s + |log| - 1 - k) / |seeds| - (s - 1 - k) / |seeds|
  {
    var n := |seeds|;
    if log != [] {
      var m := |log| - 1;
      CountRotation(seeds, log[..m], s, k);
      DivStep(s + m - k, n);
      SameSlot(s + m, k, n);
      assert log[m].addr == Rotation(seeds, s + m);
      assert log[m].addr == seeds[k] <==> (s + m) % n == k;
    }
  }

  lemma SameSlot(x: nat, k: nat, n: nat)
    requires k < n
    ensures x % n == k <==> (x - k) % n == 0
  {
    var q, r := x / n, x % n;
    assert x == q * n + r;
    if r >= k {
      ModUnique(x - k, n, q, r - k);
    } else {
      assert x - k == (q - 1) * n + (n + r - k);
      ModUnique(x - k, n, q - 1, n + r - k);
    }
  }

  lemma ModUnique(x: int, n: int, q: int, r: int)
    requires n > 0 && 0 <= r < n && x == q * n + r
    ensures x % n == r
  {
    DivUnique(x, n, q, r);
  }

  /** The floors of two numbers `m` apart differ by `m / n`, give or take one. */
  lemma FloorGap(a: int, m: nat, n: int)
    requires n > 0
    ensures m / n <= (a + m) / n - a / n <= m / n + 1
  {
    var q, r, p, t := a / n, a % n, m / n, m % n;
    assert a + m == (q + p) * n + (r + t);
    if r + t < n {
      DivUnique(a + m, n, q + p, r + t);
    } else {
      assert a + m == (q + p + 1) * n + (r + t - n);
      DivUnique(a + m, n, q + p + 1, r + t - n);
    }
  }

  /**
    A cluster call in which every attempt fails retryably makes all its attempts,
    tries every seed, and tries no seed more than once more often than another,
    whether or not it began at a stale leader.
   */
  lemma RotationIsFair(seeds: seq<string>, op: string, req: bytes, w: World, route: Route)
    requires seeds != [] && "" !in seeds && AllFail(op, w)
    requires forall i, j :: 0 <= i < j < |seeds| ==> seeds[i] != seeds[j]
    ensures var log := ClusterRun(seeds, op, req, w, 0, route, Failed(NO_SEEDS)).log;
            var stale := if route.leader != "" then 1 else 0;
            && |log| == |seeds| + 5
            && (stale == 1 ==> log[0].addr == route.leader)
            && forall k :: 0 <= k < |seeds| ==>
                 var c := Count(log[stale..], seeds[k]);
                 1 <= (|log| - stale) / |seeds| <= c <= (|log| - stale) / |seeds| + 1
  {
    hide AllFail, Count, ClusterRun, Rotation;
    var log := ClusterRun(seeds, op, req, w, 0, route, Failed(NO_SEEDS)).log;
    var stale := if route.leader != "" then 1 else 0;
    StaleLeaderFirst(seeds, op, req, w, route);
    var turn := log[stale..];
    var n := |seeds|;
    forall k | 0 <= k < n
      ensures 1 <= |turn| / n <= Count(turn, seeds[k]) <= |turn| / n + 1
    {
      TurnIsFair(seeds, turn, route.seedIdx, k);
    }
  }

  /** A stretch of rotation that is at least as long as the seeds gives each of them its share. */
  lemma TurnIsFair(seeds: seq<string>, turn: seq<Attempt>, s: nat, k: nat)
    requires k < |seeds| <= |turn|
    requires forall i, j :: 0 <= i < j < |seeds| ==> seeds[i] != seeds[j]
    requires forall j :: 0 <= j < |turn| ==> turn[j].addr == Rotation(seeds, s + j)
    ensures 1 <= |turn| / |seeds| <= Count(turn, seeds[k]) <= |turn| / |seeds| + 1
  {
    hide Count, Rotation;
    CountRotation(seeds, turn, s, k);
    FloorGap(s - 1 - k, |turn|, |seeds|);
    AtLeastOnce(|turn|, |seeds|);
  }

  /** Every seed is reached, also when the same address is listed more than once. */
  lemma EverySeedIsTried(seeds: seq<string>, op: string, req: bytes, w: World, route: Route, k: nat)
    requires k < |seeds| && "" !in seeds && AllFail(op, w)
    ensures var log := ClusterRun(seeds, op, req, w, 0, route, Failed(NO_SEEDS)).log;
            exists j :: 0 <= j < |log| && log[j].addr == seeds[k]
  {
    hide Redirect, Retryable, ClusterRun;
    var log := ClusterRun(seeds, op, req, w, 0, route, Failed(NO_SEEDS)).log;
    var stale := if route.leader != "" then 1 else 0;
    StaleLeaderFirst(seeds, op, req, w, route);
    var n := |seeds|;
    var s := route.seedIdx;
    var j := (k - s) % n;
    var q := (k - s) / n;
    assert k - s == q * n + j;
    SameSlot(s + j, k, n);
    assert s + j - k == (-q) * n + 0;
    ModUnique(s + j - k, n, -q, 0);
    var turn := log[stale..];
    assert turn[j].addr == Rotation(seeds, s + j) == seeds[k];
    assert log[stale + j] == turn[j];
  }

  lemma AtLeastOnce(m: nat, n: nat)
    requires 0 < n <= m
    ensures m / n >= 1
  {
    var q := m / n;
    assert m == q * n + m % n;
    assert q <= 0 ==> q * n <= 0;
  }

  lemma StaleLeaderFirst(seeds: seq<string>, op: string, req: bytes, w: World, route: Route)
    requires seeds != [] && "" !in seeds && AllFail(op, w)
    ensures var log := ClusterRun(seeds, op, req, w, 0, route, Failed(NO_SEEDS)).log;
            var stale := if route.leader != "" then 1 else 0;
            && |log| == |seeds| + 5
            && (stale == 1 ==> log[0].addr == route.leader)
            && forall j :: 0 <= j < |log[stale..]| ==> log[stale..][j].addr == Rotation(seeds, route.seedIdx + j)
  {
    hide Redirect, Retryable;
    if route.leader == "" {
      RotationGoes(seeds, op, req, w, 0, route.seedIdx, Failed(NO_SEEDS));
      var log := ClusterRun(seeds, op, req, w, 0, route, Failed(NO_SEEDS)).log;
      assert route == Route("", route.seedIdx) && log[0..] == log;
    } else {
      RotationGoes(seeds, op, req, w, 1, route.seedIdx, w.outcome(0));
      var log := ClusterRun(seeds, op, req, w, 0, route, Failed(NO_SEEDS)).log;
      var rest := ClusterRun(seeds, op, req, w, 1, Route("", route.seedIdx), w.outcome(0)).log;
      assert log == [Attempt(route.leader, op, req, w.outcome(0))] + rest;
      assert log[1..] == rest;
    }
  }
}
