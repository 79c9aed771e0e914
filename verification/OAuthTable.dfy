/**
 How the pieces of a callback query are told apart, why a query is refused, and what each operation
 makes of the guard, written out in the operation's own arguments.
 */
module OAuthTable {
  import opened Wrappers
  import opened MachineWords
  import opened OAuthQuery
  import opened OAuthGuard
  import B = Base64Url

  // ---------------------------------------------------------------------------
  // Parts and parameters
  // ---------------------------------------------------------------------------

  /** The parts with an ampersand between each two. */
  function Joined(parts: seq<string>): string
    requires parts != []
  {
    if |parts| == 1 then parts[0] else parts[0] + "&" + Joined(parts[1..])
  }

  ghost predicate Unbroken(parts: seq<string>) {
    forall i :: 0 <= i < |parts| ==> '&' !in parts[i]
  }

  lemma UnbrokenHead(parts: seq<string>)
    requires parts != []
    ensures Unbroken(parts) <==> '&' !in parts[0] && Unbroken(parts[1..])
  {
    if '&' !in parts[0] && Unbroken(parts[1..]) {
      forall i | 0 <= i < |parts| ensures '&' !in parts[i] {
        if i > 0 {
          assert parts[i] == parts[1..][i - 1];
        }
      }
    }
  }

  lemma SplitUnfolds(query: string)
    ensures match FindFrom(query, '&', 0)
            case None => Split(query) == [query] && '&' !in query
            case Some(i) =>
              && Split(query) == [query[..i]] + Split(query[i + 1..])
              && '&' !in query[..i] && query == query[..i] + "&" + query[i + 1..]
  {
  }

  /** The parts of a query are the texts without ampersands that give it when joined by ampersands. */
  lemma {:induction false} SplitIff(query: string, parts: seq<string>)
    requires parts != []
    ensures Split(query) == parts <==> Joined(parts) == query && Unbroken(parts)
    decreases |query|
  {
    SplitUnfolds(query);
    UnbrokenHead(parts);
    hide Split;
    match FindFrom(query, '&', 0)
    case None =>
      if |parts| > 1 {
        assert Joined(parts)[|parts[0]|] == '&';
      }
    case Some(i) =>
      var first, rest := query[..i], query[i + 1..];
      if |parts| == 1 {
        assert query[i] == '&';
        assert |[first] + Split(rest)| > 1;
      } else {
        SplitIff(rest, parts[1..]);
        hide FindFrom, Unbroken;
        assert parts == [parts[0]] + parts[1..];
        if Joined(parts) == query && '&' !in parts[0] {
          SameFirstPart(parts[0], Joined(parts[1..]), first, rest);
        }
      }
  }

  lemma SameFirstPart(a: string, x: string, b: string, y: string)
    requires a + "&" + x == b + "&" + y && '&' !in a && '&' !in b
    ensures a == b && x == y
  {
    var s := a + "&" + x;
    assert s[|a|] == '&' && s[|b|] == '&';
    assert forall i :: 0 <= i < |b| ==> s[i] == b[i] != '&';
    assert forall i :: 0 <= i < |a| ==> s[i] == a[i] != '&';
    assert a == s[..|a|] && b == s[..|b|] && x == s[|a| + 1..] && y == s[|b| + 1..];
  }

  /** A part is a parameter if and only if it is a non-empty name, the first equals sign and a value, well encoded. */
  lemma ParameterIff(part: string, name: string, value: string)
    ensures ReadParameter(part) == Some(Parameter(name, value)) <==>
              && part == name + "=" + value && name != "" && '=' !in name
              && HasValidEncoding(name) && HasValidEncoding(value)
  {
    hide HasValidEncoding;
    if part == name + "=" + value && '=' !in name {
      assert part[|name|] == '=' && part[..|name|] == name && part[|name| + 1..] == value;
      assert FindFrom(part, '=', 0) == Some(|name|) by {
        assert forall i :: 0 <= i < |name| ==> part[i] == name[i];
      }
    }
    match FindFrom(part, '=', 0)
    case None =>
    case Some(e) =>
      assert part == part[..e] + "=" + part[e + 1..];
      assert '=' !in part[..e];
  }

  // ---------------------------------------------------------------------------
  // Why a query is refused
  // ---------------------------------------------------------------------------

  ghost predicate IsReadable(part: string) {
    ReadParameter(part).Some?
  }

  ghost function NameOf(part: string): string
    requires IsReadable(part)
  {
    ReadParameter(part).value.name
  }

  ghost function ValueOf(part: string): string
    requires IsReadable(part)
  {
    ReadParameter(part).value.value
  }

  /** Reading the part behind those before it is refused, for that reason. */
  ghost function PartFault(before: seq<string>, part: string): Option<Decision> {
    if |before| >= 16 || !IsReadable(part) then Some(MalformedQuery)
    else if exists p :: p in before && IsReadable(p) && NameOf(p) == NameOf(part) then Some(DuplicateParameter)
    else if ValueOf(part) == "" && NameOf(part) == "code" then Some(CodeMissing)
    else if ValueOf(part) == "" && NameOf(part) == "state" then Some(StateMissing)
    else if ValueOf(part) == "" && NameOf(part) == "error" then Some(MalformedQuery)
    else None
  }

  /** The first `k` parts are read without fault. */
  ghost predicate FaultlessTo(parts: seq<string>, k: nat)
    requires k <= |parts|
  {
    k > 0 ==> FaultlessTo(parts, k - 1) && PartFault(parts[..k - 1], parts[k - 1]) == None
  }

  ghost predicate FirstFault(parts: seq<string>, i: nat) {
    i < |parts| && FaultlessTo(parts, i) && PartFault(parts[..i], parts[i]).Some?
  }

  ghost predicate Names(parts: seq<string>, name: string) {
    exists p :: p in parts && IsReadable(p) && NameOf(p) == name
  }

  /** The scan has read these parts. */
  ghost predicate HasRead(scan: Scan, parts: seq<string>) {
    && (forall p :: p in parts ==> IsReadable(p))
    && |scan.names| == |parts|
    && (forall name :: name in scan.names <==> Names(parts, name))
    && (scan.hasCode <==> Names(parts, "code")) && (scan.hasError <==> Names(parts, "error"))
    && (if Names(parts, "state")
        then scan.state != "" && exists p :: p in parts && IsReadable(p) && NameOf(p) == "state"
                                             && ValueOf(p) == scan.state
        else scan.state == "")
  }

  /** Without a fault the query is refused for its error, or a missing state or code, and else carries its state. */
  ghost predicate IsConclusion(parts: seq<string>, outcome: Outcome) {
    if Names(parts, "error")
    then outcome == Refused(if Names(parts, "code") then MalformedQuery else AuthorizationRejected)
    else if !Names(parts, "state") then outcome == Refused(StateMissing)
    else if !Names(parts, "code") then outcome == Refused(CodeMissing)
    else
      && outcome.Matched?
      && exists p :: p in parts && IsReadable(p) && NameOf(p) == "state" && ValueOf(p) == outcome.state
  }

  lemma ReadConcludes(scan: Scan, parts: seq<string>)
    requires HasRead(scan, parts)
    ensures IsConclusion(parts, Conclude(scan))
  {
  }

  lemma NamesOneMore(parts: seq<string>, part: string, name: string)
    requires IsReadable(part)
    ensures Names(parts + [part], name) <==> Names(parts, name) || NameOf(part) == name
  {
    hide IsReadable, NameOf;
    var more := parts + [part];
    assert part in more && forall p :: p in parts ==> p in more;
  }

  lemma TakesIff(scan: Scan, before: seq<string>, part: string)
    requires HasRead(scan, before) && |before| < 16 && IsReadable(part)
    ensures match PartFault(before, part)
            case Some(d) => Take(scan, ReadParameter(part).value) == Err(d)
            case None => Take(scan, ReadParameter(part).value).Ok?
  {
    var name := NameOf(part);
    assert name in scan.names <==> Names(before, name);
    hide ReadParameter;
  }

  lemma TakenHasRead(scan: Scan, before: seq<string>, part: string, next: Scan)
    requires HasRead(scan, before) && IsReadable(part) && Take(scan, ReadParameter(part).value) == Ok(next)
    ensures HasRead(next, before + [part])
  {
    var p, more := ReadParameter(part).value, before + [part];
    hide ReadParameter;
    TakenScan(scan, p, next);
    hide Take;
    assert p.name == NameOf(part) && p.value == ValueOf(part);
    forall name ensures name in next.names <==> Names(more, name) {
      NamesOneMore(before, part, name);
    }
    NamesOneMore(before, part, "code");
    NamesOneMore(before, part, "error");
    NamesOneMore(before, part, "state");
    assert part in more && forall q :: q in before ==> q in more;
    hide Names, IsReadable, NameOf, ValueOf;
  }

  /** What the scan comes to, from any point it has reached without a fault. */
  lemma {:induction false} ScanEnds(parts: seq<string>, k: nat, scan: Scan)
    requires k <= |parts| && FaultlessTo(parts, k) && HasRead(scan, parts[..k])
    ensures var outcome := ParseFrom(parts[k..], scan);
            if FaultlessTo(parts, |parts|) then IsConclusion(parts, outcome)
            else exists i: nat :: k <= i && FirstFault(parts, i)
                              && outcome == Refused(PartFault(parts[..i], parts[i]).value)
    decreases |parts| - k
  {
    hide ReadParameter, HasRead, IsConclusion, Take, Conclude;
    if k == |parts| {
      assert parts[..k] == parts && parts[k..] == [];
      ReadConcludes(scan, parts);
    } else {
      assert parts[k..][0] == parts[k] && parts[k..][1..] == parts[k + 1..];
      ReadCount(scan, parts[..k]);
      if k >= 16 || !IsReadable(parts[k]) {
        FaultStays(parts, k);
      } else {
        TakesIff(scan, parts[..k], parts[k]);
        if PartFault(parts[..k], parts[k]).Some? {
          FaultStays(parts, k);
        } else {
          var next := Take(scan, ReadParameter(parts[k]).value).value;
          TakenHasRead(scan, parts[..k], parts[k], next);
          assert parts[..k] + [parts[k]] == parts[..k + 1];
          hide PartFault, FaultlessTo;
          NextFaultless(parts, k);
          ScanEnds(parts, k + 1, next);
        }
      }
    }
  }

  lemma NextFaultless(parts: seq<string>, k: nat)
    requires k < |parts| && FaultlessTo(parts, k) && PartFault(parts[..k], parts[k]) == None
    ensures FaultlessTo(parts, k + 1)
  {
  }

  lemma ReadCount(scan: Scan, parts: seq<string>)
    requires HasRead(scan, parts)
    ensures |scan.names| == |parts|
  {
  }

  lemma {:induction false} FaultStays(parts: seq<string>, k: nat)
    requires FirstFault(parts, k)
    ensures !FaultlessTo(parts, |parts|)
  {
    var n := |parts|;
    while n > k + 1
      invariant k < n <= |parts|
      invariant FaultlessTo(parts, |parts|) ==> FaultlessTo(parts, n)
    {
      n := n - 1;
    }
  }

  /**
   A query is refused for the first part that is malformed, repeated or empty where it must not be,
   and if there is none for its error, its missing state or its missing code, in that order.
   */
  lemma QueryOutcome(query: string)
    ensures var parts, outcome := Split(query), ParseQuery(query);
            if query == "" || query[0] == '?' || query[|query| - 1] == '&' then outcome == Refused(MalformedQuery)
            else if FaultlessTo(parts, |parts|) then IsConclusion(parts, outcome)
            else exists i: nat :: FirstFault(parts, i) && outcome == Refused(PartFault(parts[..i], parts[i]).value)
  {
    var parts := Split(query);
    assert HasRead(NOTHING_READ, parts[..0]);
    assert parts[0..] == parts;
    hide Split, ParseFrom, FaultlessTo, PartFault, IsConclusion, HasRead;
    FaultlessToNone(parts);
    ScanEnds(parts, 0, NOTHING_READ);
  }

  lemma FaultlessToNone(parts: seq<string>)
    ensures FaultlessTo(parts, 0)
  {
  }

  // ---------------------------------------------------------------------------
  // Percent encoding
  // ---------------------------------------------------------------------------

  /** A text of plain characters and escapes: a percent sign and two hexadecimal digits. */
  predicate IsEncoded(s: string) {
    s == ""
    || (s[0] != '%' && 0x20 <= s[0] as int != 0x7f && IsEncoded(s[1..]))
    || (|s| >= 3 && s[0] == '%' && s[1] in "0123456789abcdefABCDEF" && s[2] in "0123456789abcdefABCDEF"
        && IsEncoded(s[3..]))
  }

  lemma HexIff(c: char)
    ensures IsHex(c) <==> c in "0123456789abcdefABCDEF"
  {
    var digits := "0123456789abcdefABCDEF";
    if '0' <= c <= '9' {
      assert digits[c as int - '0' as int] == c;
    } else if 'a' <= c <= 'f' {
      assert digits[c as int - 'a' as int + 10] == c;
    } else if 'A' <= c <= 'F' {
      assert digits[c as int - 'A' as int + 16] == c;
    }
  }

  lemma WellEncodedShifts(s: string, k: nat)
    requires k <= |s|
    ensures forall i :: k <= i < |s| ==> (WellEncodedAt(s, i) <==> WellEncodedAt(s[k..], i - k))
  {
    hide IsHex, IsControl;
  }

  lemma PlainFirst(s: string)
    requires s != "" && s[0] != '%'
    ensures HasValidEncoding(s) <==> 0x20 <= s[0] as int != 0x7f && HasValidEncoding(s[1..])
  {
    WellEncodedShifts(s, 1);
    EncodedFrom(s, 1);
    ControlIff(s[0]);
    assert WellEncodedAt(s, 0) <==> !IsControl(s[0]);
    hide HasValidEncoding, WellEncodedAt, IsControl;
  }

  lemma EscapeFirst(s: string)
    requires |s| >= 3 && s[0] == '%'
    ensures HasValidEncoding(s) <==>
              s[1] in "0123456789abcdefABCDEF" && s[2] in "0123456789abcdefABCDEF" && HasValidEncoding(s[3..])
  {
    WellEncodedShifts(s, 3);
    EncodedFrom(s, 3);
    HexIff(s[1]);
    HexIff(s[2]);
    if IsHex(s[1]) && IsHex(s[2]) {
      HexIsPlain(s[1]);
      HexIsPlain(s[2]);
    }
    assert WellEncodedAt(s, 0) <==> IsHex(s[1]) && IsHex(s[2]);
    hide IsHex, HasValidEncoding, WellEncodedAt;
  }

  /** The encoding of a text is valid if and only if it is plain characters and escapes. */
  lemma {:induction false} EncodingIff(s: string)
    ensures HasValidEncoding(s) <==> IsEncoded(s)
    decreases |s|
  {
    if s == "" {
    } else if s[0] != '%' {
      PlainFirst(s);
      hide HasValidEncoding;
      EncodingIff(s[1..]);
    } else if |s| >= 3 {
      EscapeFirst(s);
      hide HasValidEncoding;
      EncodingIff(s[3..]);
    } else {
      assert !WellEncodedAt(s, 0);
    }
  }

  lemma ControlIff(c: char)
    ensures IsControl(c) <==> c as int < 0x20 || c as int == 0x7f
  {
  }

  lemma HexIsPlain(c: char)
    requires IsHex(c)
    ensures c != '%' && !IsControl(c)
  {
  }

  lemma EncodedFrom(s: string, k: nat)
    requires k <= |s| && forall i :: k <= i < |s| ==> (WellEncodedAt(s, i) <==> WellEncodedAt(s[k..], i - k))
    ensures HasValidEncoding(s) <==>
              HasValidEncoding(s[k..]) && forall i :: 0 <= i < k ==> WellEncodedAt(s, i)
  {
    hide WellEncodedAt;
    if HasValidEncoding(s) {
      forall i | 0 <= i < |s[k..]| ensures WellEncodedAt(s[k..], i) {
        assert WellEncodedAt(s, k + i);
      }
    }
    if HasValidEncoding(s[k..]) && forall i :: 0 <= i < k ==> WellEncodedAt(s, i) {
      forall i | 0 <= i < |s| ensures WellEncodedAt(s, i) {
        if i >= k {
          assert WellEncodedAt(s[k..], i - k);
        }
      }
    }
  }

  // ---------------------------------------------------------------------------
  // The guard
  // ---------------------------------------------------------------------------

  /** Ended with that decision; the state is forgotten. */
  predicate EndedWith(g: Guard, d: Decision, g': Guard) {
    g'.phase == Done && g'.last == d && g'.state == "" && g'.armedAt == g.armedAt && g'.expiresAt == g.expiresAt
  }

  /** An ended guard only says that it is. */
  lemma DoneIff(g: Guard, op: Operation)
    requires g.phase == Done
    ensures Step(g, op) == Guard(Done, AlreadyTerminal, g.armedAt, g.expiresAt, g.state)
  {
  }

  /**
   Arming succeeds if and only if the guard is new, entropy was had, the listener is bound to the
   loopback address and port, and the clock leaves room for sixty seconds; it then waits for those
   sixty seconds with the encoded entropy as state. Anything else ends the guard.
   */
  lemma ArmIff(g: Guard, address: string, port: nat, now: i64, entropy: Option<Entropy>)
    requires g.phase != Done
    ensures var g' := Step(g, Arm(address, port, now, entropy));
            && (g'.phase == IsArmed <==>
                  && g.phase == NotArmed && entropy.Some? && address == "127.0.0.1" && port == 18080
                  && now <= 0x7fff_ffff_ffff_ffff - 60_000_000_000)
            && (g'.phase == IsArmed ==>
                  && g'.last == Armed && g'.armedAt == now && g'.expiresAt == now + 60_000_000_000
                  && g'.state == B.Encode(entropy.value))
            && (g'.phase != IsArmed ==>
                  && g'.phase == Done && g'.armedAt == g.armedAt && g'.expiresAt == g.expiresAt
                  && g'.state == (if g.phase == IsArmed then "" else g.state)
                  && g'.last == (if g.phase == IsArmed then AlreadyTerminal
                                 else if entropy == None then EntropyUnavailable
                                 else if address != "127.0.0.1" || port != 18080 then ListenerBindingRejected
                                 else CallbackExpired))
  {
  }

  /** Why a callback in time is refused, or that it is accepted. */
  ghost predicate IsVerdict(g: Guard, r: Request, d: Decision) {
    if r.remoteAddress != "127.0.0.1" then d == UnexpectedRemote
    else if r.method_ != "GET" then d == UnexpectedMethod
    else if r.host != "127.0.0.1:18080" then d == UnexpectedHost
    else if r.path != "/ctrader/oauth/callback" then d == UnexpectedPath
    else
      match ParseQuery(r.rawQuery)
      case Refused(reason) => d == reason
      case Matched(state) => d == if state == g.state then CorrelationMatched else StateMismatch
  }

  /** Every callback ends the guard: before arming or outside its sixty seconds for that, and else with its verdict. */
  lemma ConsumeIff(g: Guard, r: Request, now: i64)
    requires g.phase != Done
    ensures var g' := Step(g, Consume(r, now));
            && EndedWith(g, g'.last, g')
            && (if g.phase == NotArmed || now < g.armedAt then g'.last == CallbackBeforeArming
                else if g.expiresAt <= now then g'.last == CallbackExpired
                else IsVerdict(g, r, g'.last))
  {
    hide ParseQuery;
  }

  /** A guard that is asked expires at its deadline and not before; a cancelled guard ends. */
  lemma ExpireIff(g: Guard, now: i64)
    requires g.phase != Done
    ensures var g' := Step(g, ExpireIfDue(now));
            && (g'.phase == IsArmed <==> g.phase == IsArmed && g.armedAt <= now < g.expiresAt)
            && (g'.phase == IsArmed ==> g' == g.(last := Armed))
            && (g'.phase != IsArmed ==>
                  EndedWith(g, if g.phase == IsArmed && g.expiresAt <= now && g.armedAt <= now then CallbackExpired
                               else CallbackBeforeArming, g'))
    ensures EndedWith(g, Cancelled, Step(g, Operation.Cancel))
  {
  }
}
