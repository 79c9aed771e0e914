/**
 Finding the fields of the JSON envelope by text search, as the loader does. Quotation marks cut
 the envelope into segments, and a quoted key can only be found where a whole segment equals it.
 */
module EnvelopeText {
  import opened Wrappers
  import opened MachineWords

  // ---------------------------------------------------------------------------
  // Text search
  // ---------------------------------------------------------------------------

  predicate Occurs(text: string, pattern: string, at: nat) {
    at + |pattern| <= |text| && text[at..at + |pattern|] == pattern
  }

  /** The first occurrence at or after `from`. */
  function Find(text: string, pattern: string, from: nat): (at: Option<nat>)
    ensures at.Some? ==> from <= at.value && Occurs(text, pattern, at.value)
    ensures forall p | from <= p :: Occurs(text, pattern, p) ==> at.Some? && at.value <= p
    decreases |text| - from
  {
    if from + |pattern| > |text| then None
    else if Occurs(text, pattern, from) then Some(from)
    else if from == |text| then None
    else Find(text, pattern, from + 1)
  }

  function Marker(key: string): string {
    "\"" + key + "\""
  }

  /** The position just after the only quoted `key`. */
  function AfterKey(json: string, key: string): (k: Option<nat>)
    ensures k.Some? ==> k.value <= |json|
  {
    var keyPos :- Find(json, Marker(key), 0);
    if Find(json, Marker(key), keyPos + |Marker(key)|).Some? then None
    else Some(keyPos + |Marker(key)|)
  }

  /** The value between the first two quotation marks after the first colon. */
  function StringAfter(json: string, k: nat): Option<string> {
    var colon :- Find(json, ":", k);
    var quote :- Find(json, "\"", colon + 1);
    var end :- Find(json, "\"", quote + 1);
    Some(json[quote + 1..end])
  }

  function JsonString(json: string, key: string): Option<string> {
    var k :- AfterKey(json, key);
    StringAfter(json, k)
  }

  predicate IsSpace(c: char) {
    c == ' ' || '\t' <= c <= '\r'
  }

  lemma SpacesAre(c: char)
    ensures IsSpace(c) <==> c as int in {9, 10, 11, 12, 13, 32}
  {
  }

  predicate IsDigit(c: char) {
    '0' <= c <= '9'
  }

  function SkipSpaces(text: string, from: nat): (to: nat)
    requires from <= |text|
    ensures from <= to <= |text|
    ensures forall i :: from <= i < to ==> IsSpace(text[i])
    ensures to < |text| ==> !IsSpace(text[to])
    decreases |text| - from
  {
    if from < |text| && IsSpace(text[from]) then SkipSpaces(text, from + 1) else from
  }

  function SkipDigits(text: string, from: nat): (to: nat)
    requires from <= |text|
    ensures from <= to <= |text|
    ensures forall i :: from <= i < to ==> IsDigit(text[i])
    ensures to < |text| ==> !IsDigit(text[to])
    decreases |text| - from
  {
    if from < |text| && IsDigit(text[from]) then SkipDigits(text, from + 1) else from
  }

  function DigitValue(c: char): nat
    requires IsDigit(c)
  {
    c as int - '0' as int
  }

  function NumberOf(digits: string): nat
    requires forall i :: 0 <= i < |digits| ==> IsDigit(digits[i])
  {
    if digits == "" then 0
    else
      var last := |digits| - 1;
      10 * NumberOf(digits[..last]) + DigitValue(digits[last])
  }

  function NumberAfter(json: string, k: nat): Option<u64> {
    var colon :- Find(json, ":", k);
    NumberAt(json, SkipSpaces(json, colon + 1))
  }

  function JsonVersion(json: string): Option<u64> {
    var k :- AfterKey(json, "version");
    NumberAfter(json, k)
  }

  function NumberAt(text: string, start: nat): Option<u64>
    requires start <= |text|
  {
    var end := SkipDigits(text, start);
    if start == end || NumberOf(text[start..end]) >= TWO64 then None
    else Some(NumberOf(text[start..end]))
  }

  function Decimal(n: nat): string {
    if n < 10 then [(n + '0' as int) as char] else Decimal(n / 10) + [(n % 10 + '0' as int) as char]
  }

  lemma {:induction false} DecimalReadsBack(n: nat)
    ensures |Decimal(n)| > 0 && (forall i :: 0 <= i < |Decimal(n)| ==> IsDigit(Decimal(n)[i]))
    ensures NumberOf(Decimal(n)) == n
  {
    if n >= 10 {
      DecimalReadsBack(n / 10);
      assert Decimal(n)[..|Decimal(n)| - 1] == Decimal(n / 10);
    } else {
      assert Decimal(n)[..0] == "";
    }
  }

  // ---------------------------------------------------------------------------
  // Segments between quotation marks
  // ---------------------------------------------------------------------------

  const QUOTE := '\"'

  ghost predicate Unquoted(s: string) {
    forall i :: 0 <= i < |s| ==> s[i] != QUOTE
  }

  /** The segments with one quotation mark between each two. */
  function Quoted(segments: seq<string>): string {
    if segments == [] then ""
    else if |segments| == 1 then segments[0]
    else segments[0] + ("\"" + Quoted(segments[1..]))
  }

  lemma {:induction false} QuotedSplits(segments: seq<string>, i: nat)
    requires 0 < i < |segments|
    ensures Quoted(segments) == Quoted(segments[..i]) + "\"" + Quoted(segments[i..])
    decreases i
  {
    if i == 1 {
      assert Quoted(segments[..1]) == segments[0];
    } else {
      QuotedSplits(segments[1..], i - 1);
      assert segments[1..][..i - 1] == segments[..i][1..];
      assert segments[1..][i - 1..] == segments[i..];
      var front, back := Quoted(segments[..i][1..]), Quoted(segments[i..]);
      assert segments[..i][0] == segments[0];
      assert segments[0] + "\"" + (front + "\"" + back) == (segments[0] + "\"" + front) + "\"" + back;
    }
  }

  lemma Mismatch(text: string, pattern: string, at: nat, j: nat)
    requires j < |pattern| && at + j < |text| && text[at + j] != pattern[j]
    ensures !Occurs(text, pattern, at)
  {
    if at + |pattern| <= |text| {
      assert text[at..at + |pattern|][j] == text[at + j];
    }
  }

  lemma OccursFits(text: string, pattern: string, at: nat)
    ensures Occurs(text, pattern, at) ==> at + |pattern| <= |text|
  {
  }

  /** A quoted word that starts at the mark before `segment` fills the segment exactly. */
  lemma MarkerFillsSegment(segment: string, rest: Option<string>, key: string)
    requires Unquoted(segment) && Unquoted(key)
    ensures var text := "\"" + segment + (if rest.Some? then "\"" + rest.value else "");
            Occurs(text, Marker(key), 0) ==> segment == key && rest.Some?
  {
    var text := "\"" + segment + (if rest.Some? then "\"" + rest.value else "");
    var marker := Marker(key);
    assert forall k :: 0 <= k < |key| ==> marker[k + 1] == key[k];
    assert forall k :: 0 <= k < |segment| ==> text[k + 1] == segment[k];
    OccursFits(text, marker, 0);
    hide Occurs;
    if |key| < |segment| {
      assert text[|key| + 1] == segment[|key|];
      Mismatch(text, marker, 0, |key| + 1);
    } else if |segment| < |key| && rest.Some? {
      assert marker[|segment| + 1] == key[|segment|];
      Mismatch(text, marker, 0, |segment| + 1);
    } else if segment != key && |segment| == |key| {
      var k :| 0 <= k < |key| && segment[k] != key[k];
      Mismatch(text, marker, 0, k + 1);
    }
  }

  lemma NotInHead(text: string, head: string, marker: string)
    requires head <= text && Unquoted(head) && marker != "" && marker[0] == QUOTE
    ensures forall at | 0 <= at < |head| :: !Occurs(text, marker, at)
  {
    forall at | 0 <= at < |head| ensures !Occurs(text, marker, at) {
      assert text[at] == head[at];
      Mismatch(text, marker, at, 0);
    }
  }

  lemma OccursLater(head: string, tail: string, pattern: string, at: nat)
    requires at >= |head|
    ensures Occurs(head + tail, pattern, at) <==> Occurs(tail, pattern, at - |head|)
  {
    if at + |pattern| <= |head + tail| {
      assert (head + tail)[at..at + |pattern|] == tail[at - |head|..at - |head| + |pattern|];
    }
  }

  /** The mark after the first segment opens a quoted key only when the second segment is that key. */
  lemma MarkerAfterFirst(segments: seq<string>, key: string)
    requires |segments| > 1 && Unquoted(segments[1]) && Unquoted(key)
    requires Occurs(Quoted(segments), Marker(key), |segments[0]|)
    ensures |segments| > 2 && segments[1] == key
  {
    var rest := if |segments| == 2 then None else Some(Quoted(segments[2..]));
    assert segments[1..][1..] == segments[2..];
    var after := "\"" + segments[1] + (if rest.Some? then "\"" + rest.value else "");
    assert Quoted(segments) == segments[0] + after;
    hide Occurs, Quoted, Marker, Unquoted;
    OccursLater(segments[0], after, Marker(key), |segments[0]|);
    MarkerFillsSegment(segments[1], rest, key);
  }

  lemma QuotedPrefix(segments: seq<string>, i: nat)
    requires 0 < i < |segments| - 1
    ensures |Quoted(segments[..i + 1])| == |segments[0]| + 1 + |Quoted(segments[1..][..i])|
  {
    assert segments[1..][..i] == segments[..i + 1][1..];
  }

  /** A quoted key occurs only where a segment equals it. */
  lemma {:induction false} MarkersAreSegments(segments: seq<string>, key: string, at: nat)
    requires segments != [] && Unquoted(key) && forall i :: 0 <= i < |segments| ==> Unquoted(segments[i])
    requires Occurs(Quoted(segments), Marker(key), at)
    ensures exists i :: 0 < i < |segments| - 1 && segments[i] == key && at == |Quoted(segments[..i])|
    decreases |segments|
  {
    var text, marker := Quoted(segments), Marker(key);
    OccursFits(text, marker, at);
    NotInHead(text, segments[0], marker);
    hide Occurs, Unquoted;
    if |segments| > 1 {
      var head, tail := segments[0], Quoted(segments[1..]);
      if at == |head| {
        MarkerAfterFirst(segments, key);
        assert segments[..1] == [head];
      } else {
        assert text == (head + "\"") + tail;
        hide Quoted, Marker;
        OccursLater(head + "\"", tail, marker, at);
        MarkersAreSegments(segments[1..], key, at - |head| - 1);
        var i :| 0 < i < |segments| - 2 && segments[1..][i] == key && at - |head| - 1 == |Quoted(segments[1..][..i])|;
        QuotedPrefix(segments, i);
        assert segments[i + 1] == key;
      }
    }
  }

  ghost predicate OnlyAt(segments: seq<string>, key: string, i: nat) {
    && i < |segments| && segments[i] == key
    && (forall j :: 0 < j < |segments| && segments[j] == key ==> j == i)
  }

  /** The position just after the only quoted `key`. */
  lemma FindsOnlyKey(segments: seq<string>, key: string, i: nat)
    requires Unquoted(key) && forall j :: 0 <= j < |segments| ==> Unquoted(segments[j])
    requires 0 < i < |segments| - 1 && OnlyAt(segments, key, i)
    ensures var text, marker, at := Quoted(segments), Marker(key), |Quoted(segments[..i])|;
            && AfterKey(text, key) == Some(at + |marker|)
            && at + |marker| <= |text|
            && text[at + |marker|..] == Quoted(segments[i + 1..])
  {
    hide Occurs;
    var text, marker, at := Quoted(segments), Marker(key), |Quoted(segments[..i])|;
    assert Occurs(text, marker, at) && at + |marker| <= |text| && text[at + |marker|..] == Quoted(segments[i
        + 1..]) by {
      KeyStands(segments, key, i);
    }
    forall p | Occurs(text, marker, p) ensures p == at {
      MarkersAreSegments(segments, key, p);
      var j :| 0 < j < |segments| - 1 && segments[j] == key && p == |Quoted(segments[..j])|;
      assert j == i;
    }
  }

  lemma KeyStands(segments: seq<string>, key: string, i: nat)
    requires 0 < i < |segments| - 1 && segments[i] == key
    ensures var text, marker, at := Quoted(segments), Marker(key), |Quoted(segments[..i])|;
            && Occurs(text, marker, at)
            && at + |marker| <= |text|
            && text[at + |marker|..] == Quoted(segments[i + 1..])
  {
    QuotedSplits(segments, i);
    assert segments[i..][1..] == segments[i + 1..] && segments[i..][0] == key;
    assert Quoted(segments[i..]) == key + "\"" + Quoted(segments[i + 1..]);
    var before, after := Quoted(segments[..i]), Quoted(segments[i + 1..]);
    var marker := Marker(key);
    assert Quoted(segments) == before + marker + after;
  }

  /** A key followed by a colon, a space and a quoted value yields that value. */
  lemma ReadsStringField(segments: seq<string>, key: string, i: nat)
    requires Unquoted(key) && forall j :: 0 <= j < |segments| ==> Unquoted(segments[j])
    requires 0 < i < |segments| - 3 && OnlyAt(segments, key, i) && segments[i + 1] == ": "
    ensures JsonString(Quoted(segments), key) == Some(segments[i + 2])
  {
    hide Quoted, Find, Occurs, Marker, AfterKey, StringAfter;
    FindsOnlyKey(segments, key, i);
    var text, k := Quoted(segments), |Quoted(segments[..i])| + |Marker(key)|;
    TwoSegments(segments[i + 1..]);
    assert segments[i + 1..][2..] == segments[i + 3..];
    hide OnlyAt, Unquoted;
    ValueFollows(text, k, segments[i + 2], Quoted(segments[i + 3..]));
  }

  lemma TwoSegments(segments: seq<string>)
    requires |segments| > 2
    ensures Quoted(segments) == segments[0] + ("\"" + (segments[1] + ("\"" + Quoted(segments[2..]))))
    ensures Quoted(segments) == segments[0] + ("\"" + Quoted(segments[1..]))
  {
    assert segments[1..][1..] == segments[2..];
  }

  lemma ValueFollows(text: string, k: nat, value: string, rest: string)
    requires k <= |text| && text[k..] == ": " + ("\"" + (value + ("\"" + rest))) && Unquoted(value)
    ensures StringAfter(text, k) == Some(value)
  {
    ValueStands(text, k, value, rest);
    hide Occurs, Find, StringAfter;
    FindsFirst(text, ':', k, k);
    FindsFirst(text, QUOTE, k + 1, k + 2);
    FindsFirst(text, QUOTE, k + 3, k + 3 + |value|);
    StringAfterIs(text, k, value);
  }

  lemma ValueStands(text: string, k: nat, value: string, rest: string)
    requires k <= |text| && text[k..] == ": " + ("\"" + (value + ("\"" + rest))) && Unquoted(value)
    ensures k + 3 + |value| < |text| && text[k + 3..k + 3 + |value|] == value
    ensures text[k] == ':' && text[k + 1] == ' ' && text[k + 2] == QUOTE && text[k + 3 + |value|] == QUOTE
    ensures forall j :: k + 3 <= j < k + 3 + |value| ==> text[j] != QUOTE
  {
    var tail := text[k..];
    assert tail[0] == ':' && tail[1] == ' ' && tail[2] == QUOTE && tail[3 + |value|] == QUOTE;
    assert forall j :: 0 <= j < |value| ==> tail[3 + j] == value[j];
    Within(text, k);
    forall j | k + 3 <= j < k + 3 + |value| ensures text[j] == value[j - k - 3] {
      assert text[j] == tail[3 + (j - k - 3)];
    }
  }

  lemma StringAfterIs(text: string, k: nat, value: string)
    requires k + 3 + |value| <= |text| && text[k + 3..k + 3 + |value|] == value
    requires Find(text, ":", k) == Some(k) && Find(text, [QUOTE], k + 1) == Some(k + 2)
    requires Find(text, [QUOTE], k + 3) == Some(k + 3 + |value|)
    ensures StringAfter(text, k) == Some(value)
  {
    hide Find, Occurs;
    assert [QUOTE] == "\"";
  }

  lemma Within(text: string, k: nat)
    requires k <= |text|
    ensures forall j :: k <= j < |text| ==> text[j] == text[k..][j - k]
  {
  }

  lemma FindsFirst(text: string, c: char, from: nat, at: nat)
    requires from <= at < |text| && text[at] == c
    requires forall j :: from <= j < at ==> text[j] != c
    ensures Find(text, [c], from) == Some(at)
  {
    SingleOccurs(text, c);
    hide Occurs;
    assert Occurs(text, [c], at);
    assert Find(text, [c], from).Some?;
  }

  lemma SingleOccurs(text: string, c: char)
    ensures forall at: nat :: Occurs(text, [c], at) <==> at < |text| && text[at] == c
  {
    forall at: nat ensures Occurs(text, [c], at) <==> at < |text| && text[at] == c {
      if at < |text| {
        assert text[at..at + 1] == [text[at]];
      }
    }
  }

  lemma ReadsVersionField(segments: seq<string>, i: nat, version: u64)
    requires forall j :: 0 <= j < |segments| ==> Unquoted(segments[j])
    requires 0 < i < |segments| - 3 && OnlyAt(segments, "version", i)
    requires segments[i + 1] == ": " + Decimal(version) + ",\n  "
    ensures JsonVersion(Quoted(segments)) == Some(version)
  {
    hide Quoted, Find, Occurs, Marker, Decimal, NumberOf, IsDigit, AfterKey, NumberAfter;
    assert Unquoted("version");
    FindsOnlyKey(segments, "version", i);
    var text, k := Quoted(segments), |Quoted(segments[..i])| + |Marker("version")|;
    TwoSegments(segments[i + 1..]);
    DecimalReadsBack(version);
    hide OnlyAt, Unquoted;
    NumberFollows(text, k, Decimal(version), "\"" + Quoted(segments[i + 1..][1..]));
    NumberAtIs(text, k + 2, Decimal(version), version);
    NumberAfterIs(text, k, version);
  }

  lemma NumberAfterIs(text: string, k: nat, version: u64)
    requires Find(text, ":", k) == Some(k) && k + 2 <= |text|
    requires SkipSpaces(text, k + 1) == k + 2 && NumberAt(text, k + 2) == Some(version)
    ensures NumberAfter(text, k) == Some(version)
  {
    hide Find, Occurs, SkipSpaces, NumberAt;
  }

  lemma NumberAtIs(text: string, start: nat, digits: string, version: u64)
    requires digits != "" && forall i :: 0 <= i < |digits| ==> IsDigit(digits[i])
    requires NumberOf(digits) == version
    requires start + |digits| <= |text| && text[start..start + |digits|] == digits
    requires SkipDigits(text, start) == start + |digits|
    ensures NumberAt(text, start) == Some(version)
  {
    hide IsDigit, NumberOf, SkipDigits;
  }

  lemma NumberFollows(text: string, k: nat, digits: string, rest: string)
    requires k <= |text| && text[k..] == (": " + digits + ",\n  ") + rest
    requires digits != "" && forall i :: 0 <= i < |digits| ==> IsDigit(digits[i])
    ensures Find(text, ":", k) == Some(k)
    ensures SkipSpaces(text, k + 1) == k + 2 && SkipDigits(text, k + 2) == k + 2 + |digits|
    ensures k + 2 + |digits| <= |text| && text[k + 2..k + 2 + |digits|] == digits
  {
    var tail := text[k..];
    assert forall j :: 0 <= j < |tail| ==> text[k + j] == tail[j];
    assert tail[0] == ':' && tail[1] == ' ' && tail[2] == digits[0] && tail[2 + |digits|] == ',';
    assert forall j :: 0 <= j < |digits| ==> tail[2 + j] == digits[j];
    FindsFirst(text, ':', k, k);
    hide Find;
    var space, end := SkipSpaces(text, k + 1), SkipDigits(text, k + 2);
    assert text[k + 1] == ' ' && IsDigit(text[k + 2]) && !IsSpace(text[k + 2]);
    assert forall j :: k + 2 <= j < k + 2 + |digits| ==> text[j] == tail[2 + (j - k - 2)] == digits[j - k - 2];
    assert end >= k + 2 + |digits|;
    assert text[k + 2 + |digits|] == ',';
  }
}
