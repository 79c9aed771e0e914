/**
 The one-shot guard around an authorization callback: armed once with a fresh random state, it
 accepts at most one callback, in time, and only one that carries its own state.
 */
module OAuthGuard {
  import opened Wrappers
  import opened MachineWords
  import opened OAuthQuery
  import B = Base64Url

  const LOOPBACK_ADDRESS := "127.0.0.1"
  const LOOPBACK_PORT := 18080
  const CALLBACK_PATH := "/ctrader/oauth/callback"
  const CALLBACK_HOST := "127.0.0.1:18080"
  /** Sixty seconds in nanoseconds. */
  const LIFETIME := 60_000_000_000
  const ENTROPY_BYTES := 32

  type Entropy = e: seq<byte> | |e| == ENTROPY_BYTES witness seq(ENTROPY_BYTES, _ => 0)

  datatype Phase = NotArmed | IsArmed | Done

  datatype Guard = Guard(phase: Phase, last: Decision, armedAt: int, expiresAt: int, state: string)

  datatype Request = Request(remoteAddress: string, method_: string, host: string, path: string, rawQuery: string)

  datatype Operation =
    | Arm(address: string, port: nat, now: i64, entropy: Option<Entropy>)
    | Consume(request: Request, at: i64)
    | ExpireIfDue(due: i64)
    | Cancel

  const NEW_GUARD := Guard(NotArmed, Unarmed, 0, 0, "")

  function Finish(g: Guard, d: Decision): Guard {
    g.(phase := Done, last := d, state := "")
  }

  /** Arms once; a second attempt ends the guard. Entropy that could not be had is `None`. */
  function ArmGuard(g: Guard, address: string, port: nat, now: i64, entropy: Option<Entropy>): Guard {
    if g.phase == IsArmed then Finish(g, AlreadyTerminal)
    else if g.phase == Done then g.(last := AlreadyTerminal)
    else if entropy == None then g.(phase := Done, last := EntropyUnavailable)
    else if address != LOOPBACK_ADDRESS || port != LOOPBACK_PORT then g.(phase := Done, last := ListenerBindingRejected)
    else if now > MAX_I64 - LIFETIME then g.(phase := Done, last := CallbackExpired)
    else Guard(IsArmed, Armed, now, now + LIFETIME, B.Encode(entropy.value))
  }

  predicate IsCallback(r: Request) {
    r.remoteAddress == LOOPBACK_ADDRESS && r.method_ == "GET" && r.host == CALLBACK_HOST && r.path == CALLBACK_PATH
  }

  /** What a callback to an armed guard in time comes to. */
  function Judge(g: Guard, r: Request): Decision {
    if r.remoteAddress != LOOPBACK_ADDRESS then UnexpectedRemote
    else if r.method_ != "GET" then UnexpectedMethod
    else if r.host != CALLBACK_HOST then UnexpectedHost
    else if r.path != CALLBACK_PATH then UnexpectedPath
    else
      match ParseQuery(r.rawQuery)
      case Refused(d) => d
      case Matched(state) => if state == g.state then CorrelationMatched else StateMismatch
  }

  /** Every callback is the last one, whatever comes of it. */
  function ConsumeCallback(g: Guard, r: Request, now: i64): Guard {
    if g.phase == NotArmed then Finish(g, CallbackBeforeArming)
    else if g.phase == Done then g.(last := AlreadyTerminal)
    else if now < g.armedAt then Finish(g, CallbackBeforeArming)
    else if now >= g.expiresAt then Finish(g, CallbackExpired)
    else Finish(g, Judge(g, r))
  }

  function Expire(g: Guard, now: i64): Guard {
    if g.phase == NotArmed then Finish(g, CallbackBeforeArming)
    else if g.phase == Done then g.(last := AlreadyTerminal)
    else if now < g.armedAt then Finish(g, CallbackBeforeArming)
    else if now < g.expiresAt then g.(last := Armed)
    else Finish(g, CallbackExpired)
  }

  /** The state after an operation; the decision it returns is the last one recorded. */
  function Step(g: Guard, op: Operation): Guard {
    match op
    case Arm(address, port, now, entropy) => ArmGuard(g, address, port, now, entropy)
    case Consume(request, at) => ConsumeCallback(g, request, at)
    case ExpireIfDue(due) => Expire(g, due)
    case Cancel => if g.phase == Done then g.(last := AlreadyTerminal) else Finish(g, Cancelled)
  }

  function Run(ops: seq<Operation>): Guard {
    if ops == [] then NEW_GUARD else Step(Run(ops[..|ops| - 1]), ops[|ops| - 1])
  }

  /** The operation at `n` accepted its callback. */
  predicate AcceptsAt(ops: seq<Operation>, n: nat)
    requires n < |ops|
  {
    Step(Run(ops[..n]), ops[n]).last == CorrelationMatched
  }

  // ---------------------------------------------------------------------------
  // One callback
  // ---------------------------------------------------------------------------

  lemma {:induction false} RefusalIsNoMatch(parts: seq<string>, scan: Scan)
    ensures ParseFrom(parts, scan) != Refused(CorrelationMatched)
    decreases |parts|
  {
    hide ReadParameter;
    if parts != [] && |scan.names| != MAX_QUERY_PARAMETERS && ReadParameter(parts[0]).Some? {
      var next := Take(scan, ReadParameter(parts[0]).value);
      if next.Ok? {
        RefusalIsNoMatch(parts[1..], next.value);
      }
    }
  }

  /** A callback is accepted exactly when it reaches an armed guard in time as an authorization for its own state. */
  lemma AcceptedIff(g: Guard, r: Request, now: i64)
    ensures ConsumeCallback(g, r, now).last == CorrelationMatched <==>
            && g.phase == IsArmed && g.armedAt <= now < g.expiresAt
            && IsCallback(r) && IsAuthorization(r.rawQuery, g.state)
  {
    hide IsAuthorization, ParseFrom;
    QueryAcceptedIff(r.rawQuery, g.state);
    RefusalIsNoMatch(Split(r.rawQuery), NOTHING_READ);
  }

  /** A query carries only one state. */
  lemma OneState(query: string, s: string, t: string)
    requires IsAuthorization(query, s) && IsAuthorization(query, t)
    ensures s == t
  {
    QueryAcceptedIff(query, s);
    QueryAcceptedIff(query, t);
  }

  /** A state made from other random bytes is never accepted. */
  lemma OtherEntropyIsRefused(g: Guard, own: Entropy, other: Entropy, r: Request, now: i64)
    requires g.state == B.Encode(own) && own != other && IsAuthorization(r.rawQuery, B.Encode(other))
    ensures ConsumeCallback(g, r, now).last != CorrelationMatched
  {
    hide IsAuthorization;
    AcceptedIff(g, r, now);
    if IsAuthorization(r.rawQuery, g.state) {
      OneState(r.rawQuery, g.state, B.Encode(other));
      B.EncodeIsInjective(own, other);
    }
  }

  lemma SymbolsArePlain(c: char)
    requires B.IsSymbol(c)
    ensures c != '&' && c != '=' && c != '%' && !IsControl(c)
  {
  }

  lemma FindsAt(s: string, c: char, from: nat, at: nat)
    requires from <= at < |s| && s[at] == c && forall i :: from <= i < at ==> s[i] != c
    ensures FindFrom(s, c, from) == Some(at)
  {
  }

  lemma ReadsParameter(name: string, value: string)
    requires name != "" && '=' !in name && HasValidEncoding(name) && HasValidEncoding(value)
    ensures ReadParameter(name + "=" + value) == Some(Parameter(name, value))
  {
    hide HasValidEncoding;
    var part := name + "=" + value;
    FindsAt(part, '=', 0, |name|);
    assert part[..|name|] == name && part[|name| + 1..] == value;
  }

  lemma SplitsInTwo(a: string, b: string)
    requires '&' !in a && '&' !in b
    ensures Split(a + "&" + b) == [a, b]
  {
    var query := a + "&" + b;
    FindsAt(query, '&', 0, |a|);
    assert query[..|a|] == a && query[|a| + 1..] == b;
    assert FindFrom(b, '&', 0) == None;
  }

  /** The query of the callback the provider makes. */
  function CallbackQuery(code: string, state: string): string {
    ("code" + "=" + code) + "&" + ("state" + "=" + state)
  }

  lemma TwoPartsAuthorize(query: string, a: string, b: string, code: string, state: string)
    requires query != "" && query[0] != '?' && Split(query) == [a, b] && code != "" && state != ""
    requires ReadParameter(a) == Some(Parameter("code", code)) && ReadParameter(b) == Some(Parameter("state", state))
    ensures IsAuthorization(query, state)
  {
    hide ReadParameter, Split;
    var parts := Split(query);
    assert At(parts, 0) == Parameter("code", code) && At(parts, 1) == Parameter("state", state);
  }

  lemma SymbolsNeedNoEscape(s: string)
    requires forall i :: 0 <= i < |s| ==> B.IsSymbol(s[i])
    ensures HasValidEncoding(s) && '&' !in s
  {
    forall i | 0 <= i < |s| ensures s[i] != '&' && s[i] != '%' && !IsControl(s[i]) {
      SymbolsArePlain(s[i]);
    }
  }

  /** It is an authorization for the state it returns, with any well-encoded code. */
  lemma CallbackIsAuthorization(code: string, state: string)
    requires code != "" && '&' !in code && HasValidEncoding(code)
    requires state != "" && forall i :: 0 <= i < |state| ==> B.IsSymbol(state[i])
    ensures IsAuthorization(CallbackQuery(code, state), state)
  {
    SymbolsNeedNoEscape(state);
    assert HasValidEncoding("code") && HasValidEncoding("state");
    hide HasValidEncoding, ReadParameter, Split, IsAuthorization;
    var a, b := "code" + "=" + code, "state" + "=" + state;
    ReadsParameter("code", code);
    ReadsParameter("state", state);
    SplitsInTwo(a, b);
    var query := CallbackQuery(code, state);
    assert query[0] == a[0] == 'c';
    TwoPartsAuthorize(query, a, b, code, state);
  }

  /** A guard accepts its own state with any well-encoded code, as long as it is in time. */
  lemma OwnStateIsAccepted(g: Guard, own: Entropy, code: string, now: i64)
    requires g.phase == IsArmed && g.state == B.Encode(own) && g.armedAt <= now < g.expiresAt
    requires code != "" && '&' !in code && HasValidEncoding(code)
    ensures var r := Request(LOOPBACK_ADDRESS, "GET", CALLBACK_HOST, CALLBACK_PATH, CallbackQuery(code, g.state));
            ConsumeCallback(g, r, now).last == CorrelationMatched
  {
    hide IsAuthorization, HasValidEncoding, CallbackQuery;
    B.EncodeShape(own);
    var r := Request(LOOPBACK_ADDRESS, "GET", CALLBACK_HOST, CALLBACK_PATH, CallbackQuery(code, g.state));
    CallbackIsAuthorization(code, g.state);
    AcceptedIff(g, r, now);
  }

  // ---------------------------------------------------------------------------
  // Whole runs
  // ---------------------------------------------------------------------------

  lemma DoneIsPermanent(g: Guard, op: Operation)
    requires g.phase == Done
    ensures Step(g, op) == g.(last := AlreadyTerminal)
  {
  }

  lemma {:induction false} DoneRunsStayDone(ops: seq<Operation>, n: nat)
    requires n <= |ops| && Run(ops[..n]).phase == Done
    ensures Run(ops).phase == Done
  {
    hide Step;
    if n == |ops| {
      assert ops[..n] == ops;
    } else {
      var front := ops[..|ops| - 1];
      assert front[..n] == ops[..n];
      DoneRunsStayDone(front, n);
      DoneIsPermanent(Run(front), ops[|ops| - 1]);
    }
  }

  lemma AcceptingEnds(g: Guard, op: Operation)
    requires Step(g, op).last == CorrelationMatched && g.last != CorrelationMatched
    ensures op.Consume? && g.phase == IsArmed && Step(g, op).phase == Done
  {
    hide ParseQuery;
  }

  lemma {:induction false} ArmedHasNotAccepted(ops: seq<Operation>)
    ensures Run(ops).phase != Done ==> Run(ops).last == Armed || Run(ops).last == Unarmed
  {
    hide Judge;
    if ops != [] {
      ArmedHasNotAccepted(ops[..|ops| - 1]);
    }
  }

  lemma AcceptingStep(ops: seq<Operation>, n: nat)
    requires n < |ops| && AcceptsAt(ops, n)
    ensures ops[n].Consume? && Run(ops[..n]).phase == IsArmed && Run(ops[..n + 1]).phase == Done
  {
    hide Judge;
    var g := Run(ops[..n]);
    ArmedHasNotAccepted(ops[..n]);
    if g.phase == Done {
      DoneIsPermanent(g, ops[n]);
    } else {
      AcceptingEnds(g, ops[n]);
    }
    assert ops[..n + 1][..n] == ops[..n];
  }

  /** Over any run, a guard accepts at most one callback. */
  lemma AcceptsAtMostOnce(ops: seq<Operation>, i: nat, j: nat)
    requires i < |ops| && j < |ops| && AcceptsAt(ops, i) && AcceptsAt(ops, j)
    ensures i == j
  {
    hide AcceptsAt, Step;
    AcceptingStep(ops, i);
    AcceptingStep(ops, j);
    if i < j {
      assert ops[..j][..i + 1] == ops[..i + 1];
      DoneRunsStayDone(ops[..j], i + 1);
    } else if j < i {
      assert ops[..i][..j + 1] == ops[..j + 1];
      DoneRunsStayDone(ops[..i], j + 1);
    }
  }

  /** The operation `op` armed the guard as it now is. */
  predicate ArmedBy(g: Guard, op: Operation) {
    && op.Arm? && op.entropy.Some? && op.address == LOOPBACK_ADDRESS && op.port == LOOPBACK_PORT
    && g.armedAt == op.now && g.expiresAt == op.now + LIFETIME && g.state == B.Encode(op.entropy.value)
  }

  lemma {:induction false} ArmedGuardWasArmed(ops: seq<Operation>)
    ensures Run(ops).phase == IsArmed ==> exists i :: 0 <= i < |ops| && ArmedBy(Run(ops), ops[i])
  {
    hide Judge;
    if ops != [] {
      var front, last := ops[..|ops| - 1], ops[|ops| - 1];
      ArmedGuardWasArmed(front);
      if Run(ops).phase == IsArmed {
        if last.Arm? {
          assert ArmedBy(Run(ops), ops[|ops| - 1]);
        } else {
          var i :| 0 <= i < |front| && ArmedBy(Run(front), front[i]);
          assert ArmedBy(Run(ops), ops[i]);
        }
      }
    }
  }

  /**
   A callback is accepted only after the guard was armed in the same run, less than a lifetime
   earlier, and only when it carries the state made from the random bytes of that arming.
   */
  lemma AcceptedCallbackIsOwnAndInTime(ops: seq<Operation>, n: nat)
    requires n < |ops| && AcceptsAt(ops, n)
    ensures ops[n].Consume?
    ensures exists i :: 0 <= i < n && ops[i].Arm? && ops[i].entropy.Some?
                     && ops[i].now <= ops[n].at < ops[i].now + LIFETIME
                     && IsAuthorization(ops[n].request.rawQuery, B.Encode(ops[i].entropy.value))
  {
    AcceptingStep(ops, n);
    var g := Run(ops[..n]);
    AcceptedIff(g, ops[n].request, ops[n].at);
    hide IsAuthorization, Run, ConsumeCallback;
    ArmedGuardWasArmed(ops[..n]);
    var i :| 0 <= i < n && ArmedBy(g, ops[..n][i]);
    assert ops[..n][i] == ops[i];
  }
}
