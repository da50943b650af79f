/**
  The errors of the Go client: how they are wrapped, what `errors.Is` and
  `errors.As` find in them, what they read as text, and which of them permit a
  request to be sent again.
 */
module Errors {
  import opened Bytes
  import opened Search

  datatype Err =
    | NotApplied                                            // ErrNotApplied
    | OutcomeUncertain                                      // ErrOutcomeUncertain
    | Unsupported                                           // ErrUnsupported
    | Canceled                                              // context.Canceled
    | DeadlineExceeded                                      // context.DeadlineExceeded
    | NetTimeout(text: string)                              // a net timeout; errors.Is finds DeadlineExceeded in it
    | Plain(text: string)                                   // any other error, such as an I/O failure
    | Status(status: int, message: string)                  // *TransportStatusError
    | Service(code: nat, message: string)                   // *ServiceError
    | Client(clientCode: int, message: string, cause: Option<Err>)  // *ClientError
    | Both(first: Err, second: Err)                         // fmt.Errorf("%w: %w", first, second)
    | Context(prefix: string, inner: Err)                   // fmt.Errorf("prefix: %w", inner)

  function Digit(d: nat): char
    requires d < 10
  {
    "0123456789"[d]
  }

  function Natural(n: nat): string {
    if n < 10 then [Digit(n)] else Natural(n / 10) + [Digit(n % 10)]
  }

  /** The number that a string of digits stands for. */
  function Numeral(s: string): int {
    if s == "" then 0 else 10 * Numeral(s[..|s| - 1]) + (s[|s| - 1] as int - '0' as int)
  }

  lemma DigitIs(d: nat)
    requires d < 10
    ensures Digit(d) as int - '0' as int == d
  {
  }

  lemma OneMoreDigit(s: string, d: nat)
    requires d < 10
    ensures Numeral(s + [Digit(d)]) == 10 * Numeral(s) + d
  {
    hide Digit;
    DigitIs(d);
    assert (s + [Digit(d)])[..|s|] == s;
  }

  /** `Natural` writes the number it is given. */
  lemma {:induction false} NaturalReadsBack(n: nat)
    ensures Numeral(Natural(n)) == n && Natural(n) != "" && (n > 0 ==> Natural(n)[0] != '0')
  {
    hide Digit, Numeral;
    DigitIs(n % 10);
    if n < 10 {
      OneMoreDigit("", n);
      EmptyNumeral();
      assert "" + [Digit(n)] == [Digit(n)];
    } else {
      NaturalReadsBack(n / 10);
      OneMoreDigit(Natural(n / 10), n % 10);
    }
  }

  lemma EmptyNumeral()
    ensures Numeral("") == 0
  {
  }

  /** `%d`. */
  function Decimal(n: int): string { if n < 0 then "-" + Natural(-n) else Natural(n) }

  /** `Error()`. */
  function TextOf(e: Err): string {
    match e
    case NotApplied => "corndogs: request not applied"
    case OutcomeUncertain => "corndogs: outcome uncertain"
    case Unsupported => "corndogs: operation not supported by server"
    case Canceled => "context canceled"
    case DeadlineExceeded => "context deadline exceeded"
    case NetTimeout(t) => t
    case Plain(t) => t
    case Status(s, m) => "transport status " + Decimal(s) + ": " + m
    case Service(c, m) => "corndogs service error " + Decimal(c) + ": " + m
    case Client(c, m, cause) =>
      if cause.Some? then "transport error: " + TextOf(cause.value)
      else "service error " + Decimal(c) + ": " + m
    case Both(a, b) => TextOf(a) + ": " + TextOf(b)
    case Context(p, x) => p + ": " + TextOf(x)
  }

  /** `redirectLeader(err)`. */
  function Redirect(e: Err): Option<string> { RedirectLeader(TextOf(e)) }

  const MALFORMED_ENVELOPE := 1
  const UNKNOWN_SERVICE_OR_OP := 2
  const UNAVAILABLE := 7

  /** `TransportStatusError.Is`. */
  predicate StatusIs(e: Err, target: Err)
    requires e.Status?
  {
    match target
    case Unsupported => e.status == UNKNOWN_SERVICE_OR_OP
    case NotApplied =>
      || Redirect(e).Some?
      || e.status == MALFORMED_ENVELOPE || e.status == UNAVAILABLE || e.status == UNKNOWN_SERVICE_OR_OP
    case OutcomeUncertain =>
      && Redirect(e).None?
      && e.status != MALFORMED_ENVELOPE && e.status != UNAVAILABLE && e.status != UNKNOWN_SERVICE_OR_OP
    case _ => false
  }

  /** `errors.Is`: `e` itself, its `Is` method, or anything it wraps. */
  predicate Is(e: Err, target: Err) {
    || e == target
    || match e
       case Status(_, _) => StatusIs(e, target)
       case NetTimeout(_) => target.DeadlineExceeded?
       case Client(_, _, cause) => cause.Some? && Is(cause.value, target)
       case Both(a, b) => Is(a, target) || Is(b, target)
       case Context(_, x) => Is(x, target)
       case _ => false
  }

  /** `e` and all it wraps, in the order in which `errors.Is` and `errors.As` visit them. */
  function Tree(e: Err): (r: seq<Err>)
    ensures |r| > 0 && r[0] == e
  {
    match e
    case Client(_, _, cause) => [e] + if cause.Some? then Tree(cause.value) else []
    case Both(a, b) => [e] + (Tree(a) + Tree(b))
    case Context(_, x) => [e] + Tree(x)
    case _ => [e]
  }

  /** What one error in the tree answers for itself. */
  predicate Answers(x: Err, target: Err) {
    x == target || (x.Status? && StatusIs(x, target)) || (x.NetTimeout? && target.DeadlineExceeded?)
  }

  ghost predicate AnyAnswers(xs: seq<Err>, target: Err) { exists x :: x in xs && Answers(x, target) }

  lemma AnyAnswersConcat(xs: seq<Err>, ys: seq<Err>, target: Err)
    ensures AnyAnswers(xs + ys, target) <==> AnyAnswers(xs, target) || AnyAnswers(ys, target)
  {
    hide Answers;
    if x :| x in xs + ys && Answers(x, target) {
      assert x in xs || x in ys;
    }
    if x :| x in xs && Answers(x, target) {
      assert x in xs + ys;
    }
    if x :| x in ys && Answers(x, target) {
      assert x in xs + ys;
    }
  }

  lemma OneAnswers(x: Err, target: Err)
    ensures AnyAnswers([x], target) <==> Answers(x, target)
  {
    assert x in [x];
  }

  /** `errors.Is` holds of an error exactly if something in its tree answers to the target. */
  lemma {:induction false} IsSearchesTree(e: Err, target: Err)
    ensures Is(e, target) <==> AnyAnswers(Tree(e), target)
  {
    hide StatusIs, AnyAnswers;
    OneAnswers(e, target);
    match e
    case Client(_, _, cause) =>
      if cause.Some? {
        IsSearchesTree(cause.value, target);
        AnyAnswersConcat([e], Tree(cause.value), target);
      } else {
        assert Tree(e) == [e];
      }
    case Both(a, b) =>
      IsSearchesTree(a, target);
      IsSearchesTree(b, target);
      AnyAnswersConcat(Tree(a), Tree(b), target);
      AnyAnswersConcat([e], Tree(a) + Tree(b), target);
    case Context(_, x) =>
      IsSearchesTree(x, target);
      AnyAnswersConcat([e], Tree(x), target);
    case _ =>
  }

  lemma MatchInside(pre: string, s: string, post: string, sub: string, i: nat)
    requires MatchAt(s, sub, i)
    ensures MatchAt(pre + s + post, sub, |pre| + i)
  {
    var k := |pre| + i;
    assert (pre + s + post)[k..k + |sub|] == s[i..i + |sub|];
  }

  lemma TextOfHolder(c: int, m: string, a: Err, b: Err, p: string)
    ensures exists pre :: TextOf(Client(c, m, Some(a))) == pre + TextOf(a)
    ensures TextOf(Both(a, b)) == TextOf(a) + ": " + TextOf(b)
    ensures TextOf(Context(p, a)) == p + ": " + TextOf(a)
  {
    assert TextOf(Client(c, m, Some(a))) == "transport error: " + TextOf(a);
  }

  lemma NothingAfter(pre: string, s: string)
    ensures pre + s + "" == pre + s
  {
  }

  lemma NothingBefore(a: string, colon: string, b: string)
    ensures "" + a + (colon + b) == a + colon + b
  {
  }

  /** Something that an error wraps lies in one of the errors it holds, whose text it shows. */
  lemma HeldBy(e: Err, x: Err) returns (pre: string, held: Err, post: string)
    requires x in Tree(e) && x != e
    ensures held < e && x in Tree(held) && TextOf(e) == pre + TextOf(held) + post
  {
    hide TextOf;
    post := "";
    match e {
      case Client(c, m, cause) =>
        held := cause.value;
        TextOfHolder(c, m, held, held, "");
        pre :| TextOf(e) == pre + TextOf(held);
      case Both(a, b) =>
        TextOfHolder(0, "", a, b, "");
        if x in Tree(a) {
          pre, held, post := "", a, ": " + TextOf(b);
          NothingBefore(TextOf(a), ": ", TextOf(b));
          return;
        }
        pre, held := TextOf(a) + ": ", b;
      case Context(p, i) =>
        TextOfHolder(0, "", i, i, p);
        pre, held := p + ": ", i;
    }
    NothingAfter(pre, TextOf(held));
  }

  /** An error that carries a message ends its text with it. */
  lemma MessageIsShown(c: nat, s: int, m: string, e: Err)
    requires e == Service(c, m) || e == Status(s, m) || e == Client(s, m, None)
    ensures var t := TextOf(e); |m| <= |t| && t[|t| - |m|..] == m
  {
    hide Natural;
  }

  /** The text of whatever an error wraps can be read in its own. */
  lemma {:induction false} TextIsKept(e: Err, x: Err) returns (at: nat)
    requires x in Tree(e)
    ensures MatchAt(TextOf(e), TextOf(x), at)
    decreases e
  {
    hide TextOf, Tree;
    if x == e {
      return 0;
    }
    var pre, held, post := HeldBy(e, x);
    at := TextIsKept(held, x);
    MatchInside(pre, TextOf(held), post, TextOf(x), at);
    at := |pre| + at;
  }

  /** The first `*ClientError` in `e`, as `errors.As` finds it. */
  function FirstClient(e: Err): (r: Option<Err>)
    ensures r.Some? ==> r.value.Client?
  {
    match e
    case Client(_, _, _) => Some(e)
    case Both(a, b) => if FirstClient(a).Some? then FirstClient(a) else FirstClient(b)
    case Context(_, x) => FirstClient(x)
    case _ => None
  }

  /** The first `*ClientError` in a list. */
  function FirstIn(xs: seq<Err>): Option<Err> {
    if xs == [] then None else if xs[0].Client? then Some(xs[0]) else FirstIn(xs[1..])
  }

  lemma {:induction false} FirstInConcat(xs: seq<Err>, ys: seq<Err>)
    ensures FirstIn(xs + ys) == if FirstIn(xs).Some? then FirstIn(xs) else FirstIn(ys)
  {
    if xs == [] {
      assert xs + ys == ys;
    } else {
      assert (xs + ys)[1..] == xs[1..] + ys;
      FirstInConcat(xs[1..], ys);
    }
  }

  /** What `errors.As` finds is the first that the tree has. */
  lemma {:induction false} FirstClientIsFirst(e: Err)
    ensures FirstClient(e) == FirstIn(Tree(e))
  {
    match e
    case Both(a, b) =>
      FirstClientIsFirst(a);
      FirstClientIsFirst(b);
      FirstInConcat(Tree(a), Tree(b));
      assert Tree(e)[1..] == Tree(a) + Tree(b);
    case Context(_, x) =>
      FirstClientIsFirst(x);
      assert Tree(e)[1..] == Tree(x);
    case Client(_, _, _) =>
    case _ =>
      assert Tree(e) == [e] && Tree(e)[1..] == [];
      assert FirstIn([]) == None;
  }

  /** `e` wraps a `*ServiceError`. */
  predicate HasService(e: Err) {
    match e
    case Service(_, _) => true
    case Client(_, _, cause) => cause.Some? && HasService(cause.value)
    case Both(a, b) => HasService(a) || HasService(b)
    case Context(_, x) => HasService(x)
    case _ => false
  }

  /** `ServiceErrorCode(err)` finds a code. */
  predicate IsServiceError(e: Err) {
    || (var c := FirstClient(e);
        c.Some? && c.value.cause.None? && (c.value.clientCode != 0 || c.value.message != ""))
    || HasService(e)
  }

  const REPLAY_SAFE_OPS: set<string> := {
    "GetTaskStateByID", "GetQueues", "GetQueueTaskCounts", "GetTaskStateCounts", "GetQueueAndStateCounts",
    "GetServerInfo", "SubmitKeyedTask", "LookupSubmission", "ClaimGuardedTask", "ClaimGuardedTaskGroup",
    "UpdateGuardedTask", "CompleteGuardedTask", "CancelGuardedTask", "GetGuardedTask", "LookupOperation"
  }

  predicate ReplaySafe(op: string) { op in REPLAY_SAFE_OPS }

  /** `retryable`. */
  predicate Retryable(op: string, e: Err) {
    && !IsServiceError(e)
    && !Is(e, Unsupported) && !Is(e, Canceled) && !Is(e, DeadlineExceeded)
    && (Is(e, NotApplied) || (Is(e, OutcomeUncertain) && ReplaySafe(op)))
  }

  /** Reads and lookups change nothing and may be sent twice. */
  lemma ReadsAreReplaySafe()
    ensures ReplaySafe("GetTaskStateByID") && ReplaySafe("GetQueues") && ReplaySafe("GetQueueTaskCounts")
    ensures ReplaySafe("GetTaskStateCounts") && ReplaySafe("GetQueueAndStateCounts") && ReplaySafe("GetServerInfo")
    ensures ReplaySafe("GetGuardedTask") && ReplaySafe("LookupSubmission") && ReplaySafe("LookupOperation")
  {
  }

  /** So may the mutations that carry a submission key or an operation id. */
  lemma KeyedIsReplaySafe()
    ensures ReplaySafe("SubmitKeyedTask") && ReplaySafe("ClaimGuardedTask") && ReplaySafe("ClaimGuardedTaskGroup")
    ensures ReplaySafe("UpdateGuardedTask") && ReplaySafe("CompleteGuardedTask") && ReplaySafe("CancelGuardedTask")
  {
  }

  /** Legacy mutations may not; claiming the next task is one, whatever its name. */
  lemma LegacyIsNotReplaySafe()
    ensures !ReplaySafe("SubmitTask") && !ReplaySafe("UpdateTask") && !ReplaySafe("CompleteTask")
    ensures !ReplaySafe("CancelTask") && !ReplaySafe("GetNextTask") && !ReplaySafe("GetNextTaskGroup")
    ensures !ReplaySafe("CleanUpTimedOut")
  {
    hide ReplaySafe;
    ShortNamesAreNot();
    ClaimGroupIsNot();
    CleanUpIsNot();
  }

  lemma ShortNamesAreNot()
    ensures !ReplaySafe("SubmitTask") && !ReplaySafe("UpdateTask") && !ReplaySafe("CompleteTask")
    ensures !ReplaySafe("CancelTask") && !ReplaySafe("GetNextTask")
  {
  }

  lemma ClaimGroupIsNot()
    ensures !ReplaySafe("GetNextTaskGroup")
  {
    assert "GetNextTaskGroup"[3] == 'N';
    assert "GetTaskStateByID"[3] == 'T';
  }

  lemma CleanUpIsNot()
    ensures !ReplaySafe("CleanUpTimedOut")
  {
  }

  function Uncertain(e: Err): Err { Client(0, "", Some(Both(OutcomeUncertain, e))) }

  function NotAppliedBecause(e: Err): Err { Client(0, "", Some(Both(NotApplied, e))) }

  /** The errors that callers test for with `errors.Is`. */
  predicate Sentinel(e: Err) {
    e.NotApplied? || e.OutcomeUncertain? || e.Unsupported? || e.Canceled? || e.DeadlineExceeded?
  }

  /** Wrapping a pair of errors in a `*ClientError` hides neither. */
  lemma IsWrapped(a: Err, b: Err, target: Err)
    requires Sentinel(target)
    ensures Is(Client(0, "", Some(Both(a, b))), target) <==> Is(a, target) || Is(b, target)
  {
    hide StatusIs;
    assert Is(Both(a, b), target) <==> Is(a, target) || Is(b, target);
  }

  lemma IsStatus(status: int, message: string, target: Err)
    requires Sentinel(target)
    ensures Is(Client(0, "", Some(Status(status, message))), target) <==> StatusIs(Status(status, message), target)
  {
    hide StatusIs;
    assert Is(Status(status, message), target) <==> StatusIs(Status(status, message), target);
  }

  /** The ServiceError arm counts as a service error unless it says nothing at all. */
  lemma ServiceArmCode(c: int, m: string)
    ensures IsServiceError(Client(c, m, None)) <==> c != 0 || m != ""
  {
  }

  lemma ServiceErrorWrapped(x: Err)
    ensures IsServiceError(Client(0, "", Some(x))) <==> HasService(x)
  {
    assert HasService(Client(0, "", Some(x))) <==> HasService(x);
  }

  /** A non-zero transport status is either proof that nothing was applied or no proof, never both. */
  lemma StatusIsOneOrTheOther(status: int, message: string)
    ensures var e := Client(0, "", Some(Status(status, message)));
            Is(e, NotApplied) <==> !Is(e, OutcomeUncertain)
  {
    hide Redirect, Is;
    IsStatus(status, message, NotApplied);
    IsStatus(status, message, OutcomeUncertain);
  }

  /** What dialing, reading and writing fail with. A dial has a timeout, so it can fail with a context error. */
  predicate IsIo(e: Err) {
    match e
    case Plain(_) => true
    case NetTimeout(_) => true
    case Canceled => true
    case DeadlineExceeded => true
    case Context(_, x) => IsIo(x)
    case _ => false
  }

  type IoErr = e: Err | IsIo(e) witness Plain("")

  /** `errors.Is` finds a context error in `e`. */
  predicate TimedOut(e: Err) { Is(e, Canceled) || Is(e, DeadlineExceeded) }

  /** What an I/O error wraps. */
  function Innermost(e: Err): Err { if e.Context? then Innermost(e.inner) else e }

  /** A timeout of the network counts as an ended context, however it is wrapped; other I/O errors do not. */
  lemma {:induction false} TimedOutIs(x: IoErr)
    ensures TimedOut(x) <==> Innermost(x) == Canceled || Innermost(x) == DeadlineExceeded || Innermost(x).NetTimeout?
  {
    hide StatusIs;
    if x.Context? {
      TimedOutIs(x.inner);
    }
  }

  lemma {:induction false} IoIsNothingElse(x: IoErr)
    ensures !Is(x, NotApplied) && !Is(x, OutcomeUncertain) && !Is(x, Unsupported) && !HasService(x)
  {
    hide StatusIs;
    if x.Context? {
      IoIsNothingElse(x.inner);
    }
  }

  /** The request was sent, in part or whole, and then the connection or the context ended. */
  ghost predicate SentAndLost(e: Err) { exists x: IoErr :: e == Uncertain(x) }

  /** There was no connection to send on. */
  ghost predicate NeverSent(e: Err) { exists x: IoErr :: e == NotAppliedBecause(x) }

  ghost predicate IsStatusError(e: Err) { exists s, m :: e == Client(0, "", Some(Status(s, m))) }

  /** The ServiceError arm of a reply. */
  predicate IsServiceArm(e: Err) { e.Client? && e.cause.None? }

  /** A reply that could not be used. */
  ghost predicate IsUnusable(e: Err) { exists x: IoErr :: e == Client(0, "", Some(x)) }

  /** The errors of one attempt that prove nothing about whether it was applied. */
  ghost predicate Unproven(e: Err) { SentAndLost(e) || IsServiceArm(e) || IsUnusable(e) }

  /** The errors that one attempt can end with. */
  ghost predicate FromCallOnce(e: Err) { NeverSent(e) || IsStatusError(e) || Unproven(e) }

  /**
    What `retryable` decides for each of them. A request that was never sent may be
    resent for every operation unless what stopped it was a timeout; a not-applied status
    for every operation; a request that was sent and lost, or an uncertain status, only
    for a replay-safe one; and nothing else ever.
   */
  lemma RetryableByKind(op: string, x: IoErr, s: int, m: string, c: int)
    ensures Retryable(op, NotAppliedBecause(x)) <==> !TimedOut(x)
    ensures Retryable(op, Uncertain(x)) <==> ReplaySafe(op) && !TimedOut(x)
    ensures var e := Client(0, "", Some(Status(s, m)));
            Retryable(op, e) <==> s != UNKNOWN_SERVICE_OR_OP && (Is(e, NotApplied) || ReplaySafe(op))
    ensures !Retryable(op, Client(c, m, None))
    ensures !Retryable(op, Client(0, "", Some(x)))
  {
    hide Redirect, ReplaySafe, TimedOut, Is, IsServiceError;
    IoIsNothingElse(x);
    NotAppliedRetryable(op, x);
    UncertainRetryable(op, x);
    StatusKinds(op, s, m);
    ReplyKinds(c, m, x);
  }

  /** `notApplied` of anything is retried unless that holds a service error, `ErrUnsupported` or a context error. */
  lemma NotAppliedRetryable(op: string, x: Err)
    ensures Retryable(op, NotAppliedBecause(x)) <==> !HasService(x) && !Is(x, Unsupported) && !TimedOut(x)
  {
    hide Redirect, ReplaySafe, Is, IsServiceError;
    WrappedKinds(NotApplied, x);
  }

  /** `uncertain` of anything, likewise, if it also holds `ErrNotApplied` or the operation is replay-safe. */
  lemma UncertainRetryable(op: string, x: Err)
    ensures Retryable(op, Uncertain(x)) <==>
            !HasService(x) && !Is(x, Unsupported) && !TimedOut(x) && (Is(x, NotApplied) || ReplaySafe(op))
  {
    hide Redirect, ReplaySafe, Is, IsServiceError;
    WrappedKinds(OutcomeUncertain, x);
  }

  /** What `errors.Is` and `errors.As` find in `uncertain(x)` and `notApplied(x)`. */
  lemma WrappedKinds(mark: Err, x: Err)
    requires mark == NotApplied || mark == OutcomeUncertain
    ensures var e := Client(0, "", Some(Both(mark, x)));
            && (forall t :: Sentinel(t) ==> (Is(e, t) <==> t == mark || Is(x, t)))
            && (IsServiceError(e) <==> HasService(x))
  {
    hide IsServiceError;
    var e := Client(0, "", Some(Both(mark, x)));
    forall t | Sentinel(t) ensures Is(e, t) <==> t == mark || Is(x, t) {
      IsWrapped(mark, x, t);
    }
    ServiceErrorWrapped(Both(mark, x));
  }

  lemma StatusKinds(op: string, s: int, m: string)
    ensures var e := Client(0, "", Some(Status(s, m)));
            Retryable(op, e) <==> s != UNKNOWN_SERVICE_OR_OP && (Is(e, NotApplied) || ReplaySafe(op))
  {
    hide Redirect, ReplaySafe, Is, IsServiceError;
    StatusIsOneOrTheOther(s, m);
    IsStatus(s, m, Unsupported);
    IsStatus(s, m, Canceled);
    IsStatus(s, m, DeadlineExceeded);
    ServiceErrorWrapped(Status(s, m));
  }

  /** The local errors of an attempt say what they were wrapped to say, and nothing else. */
  lemma LocalKinds(x: IoErr)
    ensures var e := NotAppliedBecause(x);
            Is(e, NotApplied) && !Is(e, OutcomeUncertain) && !Is(e, Unsupported) && !IsServiceError(e)
    ensures var e := Uncertain(x);
            Is(e, OutcomeUncertain) && !Is(e, NotApplied) && !Is(e, Unsupported) && !IsServiceError(e)
  {
    hide Is, IsServiceError;
    IoIsNothingElse(x);
    WrappedKinds(NotApplied, x);
    WrappedKinds(OutcomeUncertain, x);
  }

  /** Neither the ServiceError arm nor an unusable reply says anything about the request. */
  lemma ReplyKinds(c: int, m: string, x: IoErr)
    ensures !Is(Client(c, m, None), NotApplied) && !Is(Client(c, m, None), OutcomeUncertain)
    ensures !Is(Client(0, "", Some(x)), NotApplied) && !Is(Client(0, "", Some(x)), OutcomeUncertain)
  {
    hide StatusIs;
    IoIsNothingElse(x);
  }

  /** An unproven error never permits a legacy mutation to be resent. */
  lemma UnprovenIsFinal(op: string, e: Err)
    requires Unproven(e)
    ensures !Is(e, NotApplied)
    ensures !ReplaySafe(op) || !SentAndLost(e) ==> !Retryable(op, e)
  {
    hide ReplaySafe, IsServiceError, Redirect, Is;
    if x: IoErr :| e == Uncertain(x) {
      LocalKinds(x);
    } else if x: IoErr :| e == Client(0, "", Some(x)) {
      ReplyKinds(0, "", x);
    } else {
      ReplyKinds(e.clientCode, e.message, Plain(""));
    }
  }

  lemma {:induction false} NoEquals(n: nat)
    ensures '=' !in Natural(n)
  {
    if n >= 10 {
      NoEquals(n / 10);
    }
  }

  /** A redirect message behind any text without '=' gives its address. */
  lemma RedirectBehind(prefix: string, addr: string, rest: string)
    requires '=' !in prefix
    requires forall i :: 0 <= i < |addr| ==> addr[i] !in DELIMITERS
    requires rest == "" || rest[0] in DELIMITERS
    ensures RedirectLeader(prefix + ("not-leader leader=" + addr + rest)) == Some(addr)
  {
    hide RedirectLeader;
    NoMatchWithout(prefix, LEADER_IS, '=');
    RedirectRecovers(prefix, addr, rest);
    assert prefix + ("not-leader leader=" + addr + rest) == prefix + "not-leader leader=" + addr + rest;
  }

  /** The redirect a follower sends reaches the client intact through all the wrapping. */
  lemma RedirectThroughStatus(status: int, addr: string, rest: string)
    requires forall i :: 0 <= i < |addr| ==> addr[i] !in DELIMITERS
    requires rest == "" || rest[0] in DELIMITERS
    ensures var e := Client(0, "", Some(Status(status, "not-leader leader=" + addr + rest)));
            Redirect(e) == Some(addr) && Is(e, NotApplied) && !Is(e, OutcomeUncertain)
  {
    hide RedirectLeader, Is, Natural;
    var msg := "not-leader leader=" + addr + rest;
    NoEquals(if status < 0 then -status else status);
    var inner := "transport status " + Decimal(status) + ": ";
    RedirectBehind(inner, addr, rest);
    RedirectBehind("transport error: " + inner, addr, rest);
    assert TextOf(Status(status, msg)) == inner + msg;
    assert TextOf(Client(0, "", Some(Status(status, msg)))) == "transport error: " + inner + msg;
    IsStatus(status, msg, NotApplied);
    IsStatus(status, msg, OutcomeUncertain);
  }
}
