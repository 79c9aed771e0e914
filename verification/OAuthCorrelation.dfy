/** The authorization guard as an object, with its encoder, query parser and comparison as loops. */
module OAuthCorrelation {
  import opened Wrappers
  import opened MachineWords
  import opened BitwiseXor
  import opened OAuthQuery
  import G = OAuthGuard
  import B = Base64Url

  method Base64UrlEncode(bytes: seq<byte>) returns (result: string)
    ensures result == B.Encode(bytes)
  {
    hide B.Symbol, B.Sextet, B.Block;
    result := "";
    var i := 0;
    while i + 3 <= |bytes|
      invariant 0 <= i <= |bytes|
      invariant result + B.Encode(bytes[i..]) == B.Encode(bytes)
    {
      var block := B.Block(bytes[i], bytes[i + 1], bytes[i + 2]);
      var four := [B.Symbol(B.Sextet(block, 0)), B.Symbol(B.Sextet(block, 1)),
                   B.Symbol(B.Sextet(block, 2)), B.Symbol(B.Sextet(block, 3))];
      assert bytes[i..][3..] == bytes[i + 3..];
      assert result + (four + B.Encode(bytes[i + 3..])) == (result + four) + B.Encode(bytes[i + 3..]);
      result := result + four;
      i := i + 3;
    }
    var remaining := |bytes| - i;
    if remaining == 1 {
      var block := B.Block(bytes[i], 0, 0);
      result := result + [B.Symbol(B.Sextet(block, 0)), B.Symbol(B.Sextet(block, 1))];
    } else if remaining == 2 {
      var block := B.Block(bytes[i], bytes[i + 1], 0);
      result := result + [B.Symbol(B.Sextet(block, 0)), B.Symbol(B.Sextet(block, 1)), B.Symbol(B.Sextet(block, 2))];
    }
  }

  lemma HexIsWellEncoded(s: string, i: nat)
    requires i < |s| && IsHex(s[i])
    ensures WellEncodedAt(s, i)
  {
  }

  method CheckEncoding(value: string) returns (ok: bool)
    ensures ok <==> HasValidEncoding(value)
  {
    hide IsHex, IsControl;
    var i := 0;
    while i < |value|
      invariant 0 <= i <= |value|
      invariant forall j :: 0 <= j < i ==> WellEncodedAt(value, j)
    {
      if IsControl(value[i]) {
        assert !WellEncodedAt(value, i);
        return false;
      }
      if value[i] == '%' {
        if i + 2 >= |value| || !IsHex(value[i + 1]) || !IsHex(value[i + 2]) {
          assert !WellEncodedAt(value, i);
          return false;
        }
        HexIsWellEncoded(value, i + 1);
        HexIsWellEncoded(value, i + 2);
        assert WellEncodedAt(value, i);
        i := i + 2;
      }
      i := i + 1;
    }
    ok := true;
  }

  /** Bitwise or, digit by digit. */
  function Or(a: nat, b: nat): nat {
    if a == 0 && b == 0 then 0 else (if a % 2 == 1 || b % 2 == 1 then 1 else 0) + 2 * Or(a / 2, b / 2)
  }

  lemma {:induction false} OrIsZero(a: nat, b: nat)
    ensures Or(a, b) == 0 <==> a == 0 && b == 0
  {
    if a != 0 || b != 0 {
      OrIsZero(a / 2, b / 2);
    }
  }

  lemma XorIsZero(a: nat, b: nat)
    ensures Xor(a, b) == 0 <==> a == b
  {
    XorTwice(a, b);
    if Xor(a, b) == 0 {
      XorSymmetric(0, b);
      XorTwice(0, b);
      XorZero(b);
    }
    if a == b {
      XorSelf(a);
    }
  }

  lemma {:induction false} XorZero(b: nat)
    ensures Xor(0, b) == b
  {
    if b != 0 {
      XorZero(b / 2);
    }
  }

  lemma {:induction false} XorSelf(a: nat)
    ensures Xor(a, a) == 0
  {
    if a != 0 {
      XorSelf(a / 2);
    }
  }

  /** Looks at every character whatever the earlier ones were. */
  method ConstantTimeEqual(expected: string, actual: string) returns (equal: bool)
    ensures equal <==> expected == actual
  {
    hide Xor, Or;
    if |expected| != |actual| {
      return false;
    }
    var difference: nat, i := 0, 0;
    while i < |expected|
      invariant 0 <= i <= |expected|
      invariant difference == 0 <==> expected[..i] == actual[..i]
    {
      var x, y := expected[i] as int, actual[i] as int;
      XorIsZero(x, y);
      OrIsZero(difference, Xor(x, y));
      assert expected[..i + 1] == expected[..i] + [expected[i]] && actual[..i + 1] == actual[..i] + [actual[i]];
      difference := Or(difference, Xor(x, y));
      i := i + 1;
    }
    assert expected[..i] == expected && actual[..i] == actual;
    equal := difference == 0;
  }

  lemma SplitAt(rest: string)
    ensures match FindFrom(rest, '&', 0)
            case None => Split(rest) == [rest]
            case Some(i) => Split(rest) == [rest[..i]] + Split(rest[i + 1..])
  {
  }

  lemma {:induction false} FindShifts(s: string, c: char, base: nat, from: nat)
    requires base <= from <= |s|
    ensures FindFrom(s, c, from) == match FindFrom(s[base..], c, from - base)
                                    case None => None
                                    case Some(i) => Some(base + i)
    decreases |s| - from
  {
    if from < |s| && s[from] != c {
      FindShifts(s, c, base, from + 1);
    }
  }

  method ReadPart(part: string) returns (p: Option<Parameter>)
    ensures p == ReadParameter(part)
  {
    hide HasValidEncoding;
    var equals := FindFrom(part, '=', 0);
    if equals == None || equals.value == 0 {
      return None;
    }
    var name, value := part[..equals.value], part[equals.value + 1..];
    var nameOk := CheckEncoding(name);
    if !nameOk {
      return None;
    }
    var valueOk := CheckEncoding(value);
    if !valueOk {
      return None;
    }
    p := Some(Parameter(name, value));
  }

  method ParseQueryString(query: string) returns (outcome: Outcome)
    ensures outcome == ParseQuery(query)
  {
    hide ReadParameter, Take, Split, Conclude;
    if query == "" || query[0] == '?' || query[|query| - 1] == '&' {
      return Refused(MalformedQuery);
    }
    assert query[0..] == query;
    var scan, start := NOTHING_READ, 0;
    while start < |query|
      invariant 0 <= start < |query|
      invariant ParseFrom(Split(query[start..]), scan) == ParseQuery(query)
      decreases |query| - start
    {
      var rest := query[start..];
      SplitAt(rest);
      if |scan.names| == MAX_QUERY_PARAMETERS {
        return Refused(MalformedQuery);
      }
      var separator := FindFrom(query, '&', start);
      FindShifts(query, '&', start, start);
      var end := if separator.Some? then separator.value else |query|;
      var part := query[start..end];
      assert part == if separator.Some? then rest[..end - start] else rest;
      var p := ReadPart(part);
      if p == None {
        return Refused(MalformedQuery);
      }
      var next := Take(scan, p.value);
      if next.Err? {
        return Refused(next.error);
      }
      scan := next.value;
      if separator == None {
        assert Split(rest)[1..] == [];
        break;
      }
      assert Split(rest)[1..] == Split(rest[end - start + 1..]) && rest[end - start + 1..] == query[end + 1..];
      start := end + 1;
      if start == |query| {
        EmptyPart(scan);
        return Refused(MalformedQuery);
      }
    }
    outcome := Conclude(scan);
  }

  lemma EmptyPart(scan: Scan)
    ensures ParseFrom(Split(""), scan) == Refused(MalformedQuery)
  {
    assert Split("") == [""];
  }

  class CTraderOAuthCorrelationGuard {
    var phase_: G.Phase
    var lastDecision_: Decision
    var armedAt_: int
    var expiresAt_: int
    var state_: string

    ghost function State(): G.Guard
      reads this
    {
      G.Guard(phase_, lastDecision_, armedAt_, expiresAt_, state_)
    }

    constructor ()
      ensures State() == G.NEW_GUARD
    {
      phase_, lastDecision_ := G.NotArmed, Unarmed;
      armedAt_, expiresAt_, state_ := 0, 0, "";
    }

    method FinishWith(d: Decision) returns (decision: Decision)
      modifies this
      ensures State() == G.Finish(old(State()), d) && decision == d
    {
      state_ := "";
      phase_, lastDecision_ := G.Done, d;
      decision := d;
    }

    /** `entropy` is what the operating system supplied, if it could. */
    method Arm(address: string, port: nat, now: i64, entropy: Option<G.Entropy>) returns (armed: bool)
      modifies this
      ensures State() == G.Step(old(State()), G.Arm(address, port, now, entropy))
      ensures armed <==> old(phase_) == G.NotArmed && phase_ == G.IsArmed
    {
      if phase_ != G.NotArmed {
        if phase_ == G.IsArmed {
          var _ := FinishWith(AlreadyTerminal);
        } else {
          lastDecision_ := AlreadyTerminal;
        }
        return false;
      }
      if entropy == None {
        phase_, lastDecision_ := G.Done, EntropyUnavailable;
        return false;
      }
      armed := ArmWithEntropy(address, port, now, entropy.value);
    }

    method ArmWithEntropy(address: string, port: nat, now: i64, entropy: G.Entropy) returns (armed: bool)
      requires phase_ == G.NotArmed
      modifies this
      ensures State() == G.Step(old(State()), G.Arm(address, port, now, Some(entropy)))
      ensures armed <==> phase_ == G.IsArmed
    {
      if address != G.LOOPBACK_ADDRESS || port != G.LOOPBACK_PORT {
        phase_, lastDecision_ := G.Done, ListenerBindingRejected;
        return false;
      }
      if now > MAX_I64 - G.LIFETIME {
        phase_, lastDecision_ := G.Done, CallbackExpired;
        return false;
      }
      var state := Base64UrlEncode(entropy);
      state_ := state;
      armedAt_, expiresAt_ := now, now + G.LIFETIME;
      phase_, lastDecision_ := G.IsArmed, Armed;
      armed := true;
    }

    method Consume(r: G.Request, now: i64) returns (decision: Decision)
      modifies this
      ensures State() == G.Step(old(State()), G.Consume(r, now)) && decision == State().last
    {
      hide ParseQuery;
      if phase_ == G.NotArmed {
        decision := FinishWith(CallbackBeforeArming);
        return;
      }
      if phase_ == G.Done {
        lastDecision_ := AlreadyTerminal;
        return lastDecision_;
      }
      if now < armedAt_ {
        decision := FinishWith(CallbackBeforeArming);
        return;
      }
      if now >= expiresAt_ {
        decision := FinishWith(CallbackExpired);
        return;
      }
      if r.remoteAddress != G.LOOPBACK_ADDRESS {
        decision := FinishWith(UnexpectedRemote);
        return;
      }
      if r.method_ != "GET" {
        decision := FinishWith(UnexpectedMethod);
        return;
      }
      if r.host != G.CALLBACK_HOST {
        decision := FinishWith(UnexpectedHost);
        return;
      }
      if r.path != G.CALLBACK_PATH {
        decision := FinishWith(UnexpectedPath);
        return;
      }
      var parsed := ParseQueryString(r.rawQuery);
      if parsed.Refused? {
        decision := FinishWith(parsed.decision);
        return;
      }
      var same := ConstantTimeEqual(state_, parsed.state);
      decision := FinishWith(if same then CorrelationMatched else StateMismatch);
    }

    method ExpireIfDue(now: i64) returns (decision: Decision)
      modifies this
      ensures State() == G.Step(old(State()), G.ExpireIfDue(now)) && decision == State().last
    {
      if phase_ == G.NotArmed {
        decision := FinishWith(CallbackBeforeArming);
        return;
      }
      if phase_ == G.Done {
        lastDecision_ := AlreadyTerminal;
        return lastDecision_;
      }
      if now < armedAt_ {
        decision := FinishWith(CallbackBeforeArming);
        return;
      }
      if now < expiresAt_ {
        lastDecision_ := Armed;
        return lastDecision_;
      }
      decision := FinishWith(CallbackExpired);
    }

    method Cancel() returns (decision: Decision)
      modifies this
      ensures State() == G.Step(old(State()), G.Cancel) && decision == State().last
    {
      if phase_ == G.Done {
        lastDecision_ := AlreadyTerminal;
        return lastDecision_;
      }
      decision := FinishWith(Cancelled);
    }
  }
}
