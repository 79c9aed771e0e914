/**
 The query string of an authorization response, section 4.1.2 of RFC 6749: parameters joined by
 ampersands, read from left to right, and exactly which queries are accepted.
 */
module OAuthQuery {
  import opened Wrappers

  datatype Decision =
    | Unarmed
    | Armed
    | ListenerBindingRejected
    | EntropyUnavailable
    | AlreadyTerminal
    | CallbackBeforeArming
    | CallbackExpired
    | Cancelled
    | UnexpectedRemote
    | UnexpectedMethod
    | UnexpectedHost
    | UnexpectedPath
    | MalformedQuery
    | DuplicateParameter
    | AuthorizationRejected
    | StateMissing
    | StateMismatch
    | CodeMissing
    | CorrelationMatched

  const MAX_QUERY_PARAMETERS := 16

  // ---------------------------------------------------------------------------
  // Pieces of a query
  // ---------------------------------------------------------------------------

  /** The first position of `c` at or after `from`. */
  function FindFrom(s: string, c: char, from: nat): (at: Option<nat>)
    requires from <= |s|
    ensures at.Some? ==> from <= at.value < |s| && s[at.value] == c
    ensures forall i :: from <= i < (if at.Some? then at.value else |s|) ==> s[i] != c
    decreases |s| - from
  {
    if from == |s| then None else if s[from] == c then Some(from) else FindFrom(s, c, from + 1)
  }

  /** The parts between ampersands; there is always at least one, possibly empty. */
  function Split(query: string): (parts: seq<string>)
    ensures |parts| > 0
  {
    match FindFrom(query, '&', 0)
    case None => [query]
    case Some(i) => [query[..i]] + Split(query[i + 1..])
  }

  predicate IsHex(c: char) {
    '0' <= c <= '9' || 'a' <= c <= 'f' || 'A' <= c <= 'F'
  }

  predicate IsControl(c: char) {
    c < ' ' || c as int == 0x7f
  }

  /** No control character, and if a percent sign then the start of a two-digit escape. */
  predicate WellEncodedAt(s: string, i: nat)
    requires i < |s|
  {
    !IsControl(s[i]) && (s[i] == '%' ==> i + 2 < |s| && IsHex(s[i + 1]) && IsHex(s[i + 2]))
  }

  predicate HasValidEncoding(s: string) {
    forall i :: 0 <= i < |s| ==> WellEncodedAt(s, i)
  }

  datatype Parameter = Parameter(name: string, value: string)

  /** A part with a non-empty name, an equals sign and valid encoding on both sides. */
  function ReadParameter(part: string): (p: Option<Parameter>)
    ensures p.Some? ==> p.value.name != ""
  {
    match FindFrom(part, '=', 0)
    case None => None
    case Some(e) =>
      if e == 0 || !HasValidEncoding(part[..e]) || !HasValidEncoding(part[e + 1..]) then None
      else Some(Parameter(part[..e], part[e + 1..]))
  }

  // ---------------------------------------------------------------------------
  // Reading from left to right
  // ---------------------------------------------------------------------------

  datatype Scan = Scan(names: seq<string>, hasCode: bool, hasError: bool, state: string)

  const NOTHING_READ := Scan([], false, false, "")

  datatype Outcome = Refused(decision: Decision) | Matched(state: string)

  function Conclude(scan: Scan): Outcome {
    if scan.hasError then Refused(if scan.hasCode then MalformedQuery else AuthorizationRejected)
    else if scan.state == "" then Refused(StateMissing)
    else if !scan.hasCode then Refused(CodeMissing)
    else Matched(scan.state)
  }

  /** What one parameter adds to the scan, or why the query is refused there. */
  function Take(scan: Scan, p: Parameter): Result<Scan, Decision> {
    var more := scan.(names := scan.names + [p.name]);
    if p.name in scan.names then Err(DuplicateParameter)
    else if p.name == "code" then if p.value == "" then Err(CodeMissing) else Ok(more.(hasCode := true))
    else if p.name == "state" then if p.value == "" then Err(StateMissing) else Ok(more.(state := p.value))
    else if p.name == "error" then if p.value == "" then Err(MalformedQuery) else Ok(more.(hasError := true))
    else Ok(more)
  }

  function ParseFrom(parts: seq<string>, scan: Scan): Outcome {
    if parts == [] then Conclude(scan)
    else if |scan.names| == MAX_QUERY_PARAMETERS then Refused(MalformedQuery)
    else
      match ReadParameter(parts[0])
      case None => Refused(MalformedQuery)
      case Some(p) =>
        match Take(scan, p)
        case Err(d) => Refused(d)
        case Ok(next) => ParseFrom(parts[1..], next)
  }

  function ParseQuery(query: string): Outcome {
    if query == "" || query[0] == '?' || query[|query| - 1] == '&' then Refused(MalformedQuery)
    else ParseFrom(Split(query), NOTHING_READ)
  }

  // ---------------------------------------------------------------------------
  // The accepted queries
  // ---------------------------------------------------------------------------

  ghost predicate Readable(parts: seq<string>) {
    forall i :: 0 <= i < |parts| ==> ReadParameter(parts[i]).Some?
  }

  ghost function At(parts: seq<string>, i: nat): Parameter
    requires Readable(parts) && i < |parts|
  {
    ReadParameter(parts[i]).value
  }

  ghost predicate DistinctNames(parts: seq<string>)
    requires Readable(parts)
  {
    forall i, j :: 0 <= i < j < |parts| ==> At(parts, i).name != At(parts, j).name
  }

  ghost predicate Holds(parts: seq<string>, name: string)
    requires Readable(parts)
  {
    exists i :: 0 <= i < |parts| && At(parts, i).name == name && At(parts, i).value != ""
  }

  ghost predicate HoldsValue(parts: seq<string>, name: string, value: string)
    requires Readable(parts)
  {
    exists i :: 0 <= i < |parts| && At(parts, i) == Parameter(name, value)
  }

  ghost predicate Mentions(parts: seq<string>, name: string)
    requires Readable(parts)
  {
    exists i :: 0 <= i < |parts| && At(parts, i).name == name
  }

  ghost predicate AbsentFrom(parts: seq<string>, names: seq<string>)
    requires Readable(parts)
  {
    forall i :: 0 <= i < |parts| ==> At(parts, i).name !in names
  }

  /**
   One to sixteen parameters with distinct names, a non-empty code, the given non-empty state and no
   error, not starting with a question mark.
   */
  ghost predicate IsAuthorization(query: string, state: string) {
    var parts := Split(query);
    && query != "" && query[0] != '?'
    && |parts| <= MAX_QUERY_PARAMETERS
    && Readable(parts) && DistinctNames(parts)
    && Holds(parts, "code")
    && state != "" && HoldsValue(parts, "state", state)
    && !Mentions(parts, "error")
  }

  ghost predicate Consistent(scan: Scan) {
    && |scan.names| <= MAX_QUERY_PARAMETERS
    && (scan.hasCode <==> "code" in scan.names)
    && (scan.hasError <==> "error" in scan.names)
    && (scan.state != "" <==> "state" in scan.names)
  }

  /** What the parts still to be read must be for the scan to end in acceptance of `state`. */
  ghost predicate CompletesTo(parts: seq<string>, scan: Scan, state: string) {
    && |scan.names| + |parts| <= MAX_QUERY_PARAMETERS
    && Readable(parts) && DistinctNames(parts)
    && AbsentFrom(parts, scan.names)
    && (scan.hasCode || Holds(parts, "code"))
    && state != "" && (scan.state == state || HoldsValue(parts, "state", state))
    && !scan.hasError && !Mentions(parts, "error")
  }

  lemma CompletesNow(scan: Scan, state: string)
    requires Consistent(scan)
    ensures CompletesTo([], scan, state) <==> Conclude(scan) == Matched(state)
  {
  }

  lemma ShiftParts(parts: seq<string>)
    requires parts != []
    ensures Readable(parts) <==> ReadParameter(parts[0]).Some? && Readable(parts[1..])
    ensures Readable(parts) ==> forall i :: 1 <= i < |parts| ==> At(parts, i) == At(parts[1..], i - 1)
  {
    hide ReadParameter;
    if ReadParameter(parts[0]).Some? && Readable(parts[1..]) {
      forall i | 0 <= i < |parts| ensures ReadParameter(parts[i]).Some? {
        if i > 0 {
          assert parts[i] == parts[1..][i - 1];
        }
      }
    }
    if Readable(parts) {
      forall i | 0 <= i < |parts| - 1 ensures ReadParameter(parts[1..][i]).Some? {
        assert parts[1..][i] == parts[i + 1];
      }
    }
  }

  /** What the first part adds to what the others hold, mention and name. */
  lemma ShiftHeld(parts: seq<string>, name: string, value: string)
    requires parts != [] && Readable(parts) && Readable(parts[1..])
    ensures var first, rest := At(parts, 0), parts[1..];
            && (Holds(parts, name) <==> (first.name == name && first.value != "") || Holds(rest, name))
            && (HoldsValue(parts, name, value) <==> first == Parameter(name, value) || HoldsValue(rest, name, value))
            && (Mentions(parts, name) <==> first.name == name || Mentions(rest, name))
  {
    ShiftParts(parts);
    hide ReadParameter, At;
    var rest := parts[1..];
    forall i | 0 <= i < |rest| ensures At(rest, i) == At(parts, i + 1) {
    }
  }

  lemma ShiftNames(parts: seq<string>, names: seq<string>)
    requires parts != [] && Readable(parts) && Readable(parts[1..])
    ensures var first, rest := At(parts, 0).name, parts[1..];
            && (DistinctNames(parts) <==> DistinctNames(rest) && AbsentFrom(rest, [first]))
            && (AbsentFrom(parts, names) <==> first !in names && AbsentFrom(rest, names))
            && (AbsentFrom(rest, names + [first]) <==> AbsentFrom(rest, names) && AbsentFrom(rest, [first]))
  {
    ShiftParts(parts);
    hide ReadParameter, At;
    var rest := parts[1..];
    assert forall i :: 0 <= i < |rest| ==> At(rest, i) == At(parts, i + 1);
    if DistinctNames(rest) && AbsentFrom(rest, [At(parts, 0).name]) {
      forall i, j | 0 <= i < j < |parts| ensures At(parts, i).name != At(parts, j).name {
        assert At(parts, j) == At(rest, j - 1);
        if i > 0 {
          assert At(parts, i) == At(rest, i - 1);
        }
      }
    }
  }

  lemma TakenScan(scan: Scan, p: Parameter, next: Scan)
    requires Take(scan, p) == Ok(next)
    ensures p.name !in scan.names && next.names == scan.names + [p.name]
    ensures next.hasCode <==> scan.hasCode || p.name == "code"
    ensures next.hasError <==> scan.hasError || p.name == "error"
    ensures next.state == if p.name == "state" then p.value else scan.state
    ensures p.name == "code" || p.name == "state" ==> p.value != ""
  {
  }

  lemma TakesOneMore(parts: seq<string>, scan: Scan, state: string, next: Scan)
    requires Consistent(scan) && parts != [] && |scan.names| < MAX_QUERY_PARAMETERS
    requires ReadParameter(parts[0]).Some? && Take(scan, ReadParameter(parts[0]).value) == Ok(next)
    ensures Consistent(next)
    ensures CompletesTo(parts, scan, state) <==> CompletesTo(parts[1..], next, state)
  {
    var p := ReadParameter(parts[0]).value;
    ShiftParts(parts);
    TakenScan(scan, p, next);
    hide ReadParameter, Take, Holds, HoldsValue, Mentions, DistinctNames, AbsentFrom, Readable;
    if Readable(parts) {
      assert At(parts, 0) == p;
      hide At;
      ShiftHeld(parts, "code", "");
      ShiftHeld(parts, "state", state);
      ShiftHeld(parts, "error", "");
      ShiftNames(parts, scan.names);
    }
  }

  lemma {:induction false} ScanAcceptsIff(parts: seq<string>, scan: Scan, state: string)
    requires Consistent(scan)
    ensures ParseFrom(parts, scan) == Matched(state) <==> CompletesTo(parts, scan, state)
    decreases |parts|
  {
    if parts == [] {
      CompletesNow(scan, state);
    } else if |scan.names| < MAX_QUERY_PARAMETERS {
      ShiftParts(parts);
      hide ReadParameter;
      if ReadParameter(parts[0]).Some? {
        var p := ReadParameter(parts[0]).value;
        match Take(scan, p)
        case Ok(next) =>
          TakesOneMore(parts, scan, state, next);
          ScanAcceptsIff(parts[1..], next, state);
        case Err(_) =>
          RefusedCannotComplete(parts, scan, state);
      }
    }
  }

  lemma RefusedCannotComplete(parts: seq<string>, scan: Scan, state: string)
    requires Consistent(scan) && parts != [] && ReadParameter(parts[0]).Some?
    requires Take(scan, ReadParameter(parts[0]).value).Err?
    ensures !CompletesTo(parts, scan, state)
  {
    hide ReadParameter;
    var p := ReadParameter(parts[0]).value;
    if Readable(parts) {
      assert At(parts, 0) == p;
      if Holds(parts, "code") && p.name == "code" && DistinctNames(parts) {
        var i :| 0 <= i < |parts| && At(parts, i).name == "code" && At(parts, i).value != "";
        assert i == 0;
      }
      if HoldsValue(parts, "state", state) && p.name == "state" && DistinctNames(parts) {
        var i :| 0 <= i < |parts| && At(parts, i) == Parameter("state", state);
        assert i == 0;
      }
    }
  }

  lemma {:induction false} TrailingAmpersand(query: string)
    requires query != "" && query[|query| - 1] == '&'
    ensures Split(query)[|Split(query)| - 1] == ""
    decreases |query|
  {
    var i := FindFrom(query, '&', 0).value;
    if i + 1 < |query| {
      TrailingAmpersand(query[i + 1..]);
    } else {
      assert Split(query[i + 1..]) == [""];
    }
  }

  /** A query is accepted, with the state it carries, exactly when it is an authorization for that state. */
  lemma QueryAcceptedIff(query: string, state: string)
    ensures ParseQuery(query) == Matched(state) <==> IsAuthorization(query, state)
  {
    ScanAcceptsIff(Split(query), NOTHING_READ, state);
    if query != "" && query[|query| - 1] == '&' {
      TrailingAmpersand(query);
      assert ReadParameter("") == None;
    }
  }
}
