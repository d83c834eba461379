/**
 * The pure text helpers of utils.py: truncation with an ellipsis, a token
 * estimate, API-key validation and the plain-text rendering of a history.
 */
module Utils {
  import opened Wrappers
  import opened Conversation

  function Max(a: int, b: int): int { if a >= b then a else b }

  // ---------------------------------------------------------------------------
  // truncate_text

  /** Python's `s[:k]` for any integer `k`: a negative bound counts from the end. */
  function SliceTo(s: string, k: int): (r: string)
    ensures |r| == if k >= 0 then Min(k, |s|) else Max(0, |s| + k)
    ensures r == s[..|r|]
  {
    if k >= 0 then s[..Min(k, |s|)] else s[..Max(0, |s| + k)]
  }

  const Ellipsis: string := "..."

  /** Text longer than `maxLength` is cut and ends in "..."; shorter text is
      returned as it is. */
  function TruncateText(text: string, maxLength: int := 100): (r: string)
    ensures |text| <= maxLength ==> r == text
    ensures |text| > maxLength && maxLength >= 3 ==>
      |r| == maxLength && r[..maxLength - 3] == text[..maxLength - 3] && r[maxLength - 3..] == Ellipsis
  {
    if |text| <= maxLength then text else SliceTo(text, maxLength - 3) + Ellipsis
  }

  /** With a limit of at least 3 the result never exceeds the limit. */
  lemma TruncateWithinLimit(text: string, maxLength: int)
    requires maxLength >= 3
    ensures |TruncateText(text, maxLength)| <= maxLength
    ensures |TruncateText(text, maxLength)| == Min(|text|, maxLength)
  {
  }

  /** Truncating twice with the same limit is truncating once. */
  lemma TruncateIdempotent(text: string, maxLength: int)
    requires maxLength >= 3
    ensures TruncateText(TruncateText(text, maxLength), maxLength) == TruncateText(text, maxLength)
  {
    TruncateWithinLimit(text, maxLength);
  }

  /** Below 3 the slice bound `maxLength - 3` is negative and counts from the
      end, so text longer than the limit comes back longer than the limit. */
  lemma TruncateShortLimitOverflows(text: string, maxLength: int)
    requires maxLength < 3 && |text| > maxLength
    ensures |TruncateText(text, maxLength)| == Max(0, |text| + maxLength - 3) + 3
    ensures |TruncateText(text, maxLength)| > maxLength
  {
  }

  // ---------------------------------------------------------------------------
  // count_tokens_estimate

  /** Roughly four characters per token, rounded down. */
  function CountTokensEstimate(text: string): (r: nat)
    ensures 4 * r <= |text| < 4 * r + 4
  {
    |text| / 4
  }

  /** A longer text never has a smaller estimate. */
  lemma CountTokensMonotone(a: string, b: string)
    requires |a| <= |b|
    ensures CountTokensEstimate(a) <= CountTokensEstimate(b)
  {
  }

  // ---------------------------------------------------------------------------
  // validate_api_key

  /** Python's `str.isspace` for one character, by code point: the ASCII
      controls tab through carriage return, the separators 0x1C-0x1F, space,
      and the Unicode spaces and line/paragraph separators. */
  predicate IsSpace(c: char)
    ensures c == ' ' || c == '\t' || c == '\n' || c == '\r' ==> IsSpace(c)
    ensures 0x21 <= c as int <= 0x7E ==> !IsSpace(c)
    ensures IsSpace(c) ==> c as int <= 0x3000
  {
    var n := c as int;
    || 0x09 <= n <= 0x0D || 0x1C <= n <= 0x20 || n == 0x85 || n == 0xA0 || n == 0x1680
    || 0x2000 <= n <= 0x200A || n == 0x2028 || n == 0x2029 || n == 0x202F || n == 0x205F
    || n == 0x3000
  }

  /** `s` without its leading whitespace. */
  function StripLeading(s: string): (r: string)
    ensures |r| <= |s| && r == s[|s| - |r|..]
    ensures forall i :: 0 <= i < |s| - |r| ==> IsSpace(s[i])
    ensures r != [] ==> !IsSpace(r[0])
    decreases |s|
  {
    if s != [] && IsSpace(s[0]) then StripLeading(s[1..]) else s
  }

  /** `s` without its trailing whitespace. */
  function StripTrailing(s: string): (r: string)
    ensures |r| <= |s| && r == s[..|r|]
    ensures forall i :: |r| <= i < |s| ==> IsSpace(s[i])
    ensures r != [] ==> !IsSpace(r[|r| - 1])
    decreases |s|
  {
    if s != [] && IsSpace(s[|s| - 1]) then StripTrailing(s[..|s| - 1]) else s
  }

  /** Python's `str.strip()` with no argument: the slice of `s` between a
      whitespace prefix and a whitespace suffix, neither end of which is
      whitespace. */
  function Strip(s: string): (r: string)
    ensures var k := |s| - |StripLeading(s)|;
      && k + |r| <= |s| && r == s[k..k + |r|]
      && (forall i :: 0 <= i < k ==> IsSpace(s[i]))
      && (forall i :: k + |r| <= i < |s| ==> IsSpace(s[i]))
    ensures r != [] ==> !IsSpace(r[0]) && !IsSpace(r[|r| - 1])
  {
    StripTrailing(StripLeading(s))
  }

  /** Stripping leaves nothing exactly when the string is all whitespace. */
  lemma StripEmptyIffBlank(s: string)
    ensures Strip(s) == [] <==> forall i :: 0 <= i < |s| ==> IsSpace(s[i])
  {
    var a := StripLeading(s);
    if a != [] {
      // The first character kept is not whitespace, so trailing strip keeps it.
      assert a[0] == s[|s| - |a|] && !IsSpace(a[0]);
    }
  }

  /** A key is valid when it is present and not only whitespace; `None` and
      the empty string are rejected before stripping. */
  function ValidateApiKey(apiKey: Option<string>): (valid: bool)
    ensures apiKey.None? ==> !valid
    ensures apiKey == Some("") ==> !valid
    ensures apiKey.Some? ==>
      (valid <==> exists i :: 0 <= i < |apiKey.value| && !IsSpace(apiKey.value[i]))
  {
    match apiKey
    case None => false
    case Some(key) =>
      if key == "" then false
      else
        StripEmptyIffBlank(key);
        |Strip(key)| > 0
  }

  // ---------------------------------------------------------------------------
  // format_message_history

  /** The label of the message at position `i`: by position, not by kind. */
  function RoleLabel(i: nat): string
  {
    if i % 2 == 0 then "User" else "AI"
  }

  /** The rendering of the message at position `i`. */
  function Segment(i: nat, m: Msg): string
  {
    RoleLabel(i) + ": " + m.content
  }

  /** One rendering per message, in order. */
  function Segments(messages: seq<Msg>): (parts: seq<string>)
    ensures |parts| == |messages|
    ensures forall i :: 0 <= i < |messages| ==>
      parts[i] == (if i % 2 == 0 then "User: " else "AI: ") + messages[i].content
  {
    seq(|messages|, i requires 0 <= i < |messages| => Segment(i, messages[i]))
  }

  const Separator: string := "\n\n"

  function TotalLength(parts: seq<string>): nat
  {
    if parts == [] then 0 else |parts[0]| + TotalLength(parts[1..])
  }

  /** Python's `sep.join(parts)`: the parts with `sep` between neighbours. */
  function Join(parts: seq<string>, sep: string): (r: string)
    ensures parts == [] ==> r == ""
    ensures |parts| == 1 ==> r == parts[0]
    ensures |parts| >= 1 ==> |r| + |sep| == TotalLength(parts) + |sep| * |parts|
  {
    if parts == [] then ""
    else if |parts| == 1 then parts[0]
    else parts[0] + sep + Join(parts[1..], sep)
  }

  /** Joining a list grown by one part appends the separator and that part,
      which is how the rendering grows message by message. */
  lemma {:induction false} JoinSnoc(parts: seq<string>, p: string, sep: string)
    requires parts != []
    ensures Join(parts + [p], sep) == Join(parts, sep) + sep + p
    decreases |parts|
  {
    if |parts| == 1 {
      assert parts + [p] == [parts[0], p];
      assert [parts[0], p][1..] == [p];
    } else {
      assert (parts + [p])[1..] == parts[1..] + [p];
      JoinSnoc(parts[1..], p, sep);
    }
  }

  /** `format_message_history`: one "Role: content" segment per message,
      "User" at even positions and "AI" at odd ones, joined by blank lines. */
  method FormatMessageHistory(messages: seq<Msg>) returns (text: string)
    ensures text == Join(Segments(messages), Separator)
    ensures messages == [] ==> text == ""
    ensures |messages| == 1 ==> text == "User: " + messages[0].content
  {
    var formatted: seq<string> := [];
    for i := 0 to |messages|
      invariant |formatted| == i
      invariant forall j :: 0 <= j < i ==> formatted[j] == Segment(j, messages[j])
    {
      var role := if i % 2 == 0 then "User" else "AI";
      formatted := formatted + [role + ": " + messages[i].content];
    }
    assert formatted == Segments(messages);
    text := Join(formatted, Separator);
  }

  /** On an alternating history the positional labels name the speakers. */
  lemma {:induction false} SegmentsNameSpeakers(messages: seq<Msg>)
    requires Alternating(messages)
    ensures |Segments(messages)| == |messages|
    ensures forall i :: 0 <= i < |messages| ==>
      Segments(messages)[i] == (if messages[i].Human? then "User: " else "AI: ") + messages[i].content
  {
    forall i | 0 <= i < |messages|
      ensures Segments(messages)[i] == (if messages[i].Human? then "User: " else "AI: ") + messages[i].content
    {
      assert messages[i].Human? <==> i % 2 == 0;
    }
  }
}
