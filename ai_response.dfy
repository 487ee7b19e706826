/** `processCarImageWithAI` (actions/cars.js): the handling of the model's reply.
    The model call itself, the image encoding and `JSON.parse` are parameters. */
module AiResponse {
  import opened Envelope
  import opened Text
  import Ordering

  /** A value `JSON.parse` can produce. */
  datatype Json =
    | JNull
    | JBool(b: bool)
    | JNumber(n: real)
    | JString(s: string)
    | JArray(items: seq<Json>)
    | JObject(members: map<string, Json>)

  /** What the model call gave back: the reply text, or the message of the
      error raised by the call. */
  datatype ModelReply = ReplyText(text: string) | CallFailed(message: string)

  /** The keys a reply object must have; `seats` is asked for in the prompt but
      is not among them. */
  const RequiredFields: seq<string> := [
    "make", "model", "year", "color", "bodyType", "price",
    "mileage", "fuelType", "transmission", "description", "confidence"
  ]

  const ParseFailureMessage: string := "Failed to parse AI response"
  const MissingKeyMessage: string := "Gemini API key is not configured"
  const ApiErrorPrefix: string := "Gemini API error:"

  /** A triple backtick starts at position `k` of `s`. */
  predicate FenceAt(s: string, k: int) {
    0 <= k && k + 3 <= |s| && s[k] == '`' && s[k + 1] == '`' && s[k + 2] == '`'
  }

  predicate NoFence(s: string) {
    forall k :: 0 <= k < |s| ==> !FenceAt(s, k)
  }

  function SkipJson(s: string): (r: string)
    ensures |r| <= |s|
  {
    if StartsWith(s, "json") then s[4..] else s
  }

  function SkipNewline(s: string): (r: string)
    ensures |r| <= |s|
  {
    if s != [] && s[0] == '\n' then s[1..] else s
  }

  /** `s.replace(/```(?:json)?\n?/g, "")`: scanning from the left, every triple
      backtick is deleted together with a `json` right after it, if present,
      and then a newline right after that, if present. */
  function StripFenceMarkers(s: string): (r: string)
    ensures |r| <= |s|
    decreases |s|
  {
    if |s| < 3 then s
    else if FenceAt(s, 0) then StripFenceMarkers(SkipNewline(SkipJson(s[3..])))
    else [s[0]] + StripFenceMarkers(s[1..])
  }

  /** `text.replace(/```(?:json)?\n?/g, "").trim()`: no triple backtick is
      left anywhere in the cleaned text. */
  function CleanResponseText(text: string): (r: string)
    ensures NoFence(r)
  {
    TrimmedStripLeavesNoFence(text);
    Trim(StripFenceMarkers(text))
  }

  /** The required keys an object lacks, in the order they are listed. */
  function MissingFields(keys: set<string>): (r: seq<string>)
    ensures forall f :: f in r <==> f in RequiredFields && f !in keys
  {
    Ordering.Filter(RequiredFields, f => f !in keys)
  }

  /** An object passes the validation exactly when it lacks none of the required keys. */
  lemma MissingFieldsEmpty(keys: set<string>)
    ensures |MissingFields(keys)| == 0 <==> forall f :: f in RequiredFields ==> f in keys
  {
  }

  /** `!process.env.GEMINI_API_KEY` is false: the key is set and not empty. */
  predicate ApiKeyConfigured(apiKey: Option<string>) {
    apiKey.Some? && apiKey.value != ""
  }

  /** What `JSON.parse` gave is an object that has every required key. */
  predicate HasRequiredFields(parsed: Option<Json>) {
    parsed.Some? && parsed.value.JObject?
    && forall f :: f in RequiredFields ==> f in parsed.value.members
  }

  /** The reply handling of `processCarImageWithAI`. A missing key or a failed
      model call is thrown as `Gemini API error:<message>`. A reply is accepted
      exactly when its cleaned text parses to an object holding all eleven
      required keys (whatever their values); the object is handed back as it
      was parsed. Every other reply, whether it does not parse, is not an
      object or lacks a key, gets the same generic error, so the list of
      missing keys never reaches the caller. */
  function ProcessCarImageWithAI(apiKey: Option<string>, reply: ModelReply, parse: string -> Option<Json>)
    : (r: Response<map<string, Json>>)
    ensures r.Thrown? <==> !ApiKeyConfigured(apiKey) || reply.CallFailed?
    ensures !ApiKeyConfigured(apiKey) ==> r == Thrown(ApiErrorPrefix + MissingKeyMessage)
    ensures ApiKeyConfigured(apiKey) && reply.CallFailed? ==> r == Thrown(ApiErrorPrefix + reply.message)
    ensures r.Success? <==>
      ApiKeyConfigured(apiKey) && reply.ReplyText? && HasRequiredFields(parse(CleanResponseText(reply.text)))
    ensures r.Success? ==> parse(CleanResponseText(reply.text)) == Some(JObject(r.data))
    ensures r.Failure? ==> r.error == ParseFailureMessage
  {
    if !ApiKeyConfigured(apiKey) then Thrown(ApiErrorPrefix + MissingKeyMessage)
    else match reply
      case CallFailed(message) => Thrown(ApiErrorPrefix + message)
      case ReplyText(text) =>
        match parse(CleanResponseText(text))
        case Some(JObject(members)) =>
          MissingFieldsEmpty(members.Keys);
          if |MissingFields(members.Keys)| > 0 then Failure(ParseFailureMessage) else Success(members)
        case _ => Failure(ParseFailureMessage)
  }

  /** Text without a backtick passes the fence stripping unchanged. */
  lemma {:induction false} StripWithoutBackticks(s: string)
    requires '`' !in s
    ensures StripFenceMarkers(s) == s
  {
    if |s| >= 3 {
      assert s[0] in s;
      assert !FenceAt(s, 0);
      assert forall c :: c in s[1..] ==> c in s;
      StripWithoutBackticks(s[1..]);
      assert s == [s[0]] + s[1..];
    }
  }

  /** So the cleaned form of text without a backtick is its plain trim. */
  lemma CleanWithoutBackticks(text: string)
    requires '`' !in text
    ensures CleanResponseText(text) == Trim(text)
  {
    StripWithoutBackticks(text);
  }

  /** The closing fence of a reply goes, and the body before it stays. */
  lemma {:induction false} StripBeforeClosingFence(body: string)
    requires '`' !in body
    ensures StripFenceMarkers(body + "```") == body
    decreases |body|
  {
    var s := body + "```";
    if body == [] {
      assert FenceAt(s, 0);
      assert SkipNewline(SkipJson(s[3..])) == [];
    } else {
      assert body[0] in body;
      assert !FenceAt(s, 0);
      assert s[1..] == body[1..] + "```";
      assert forall c :: c in body[1..] ==> c in body;
      StripBeforeClosingFence(body[1..]);
      assert body == [body[0]] + body[1..];
    }
  }

  /** A reply wrapped in a ```json fence, as the model usually sends it, is
      cleaned to its trimmed body: the JSON between the fences is kept. */
  lemma CleanFencedReply(body: string)
    requires '`' !in body
    ensures CleanResponseText("```json\n" + body + "```") == Trim(body)
  {
    var s := "```json\n" + body + "```";
    assert FenceAt(s, 0);
    assert s[3..] == "json\n" + (body + "```");
    assert StartsWith(s[3..], "json");
    assert SkipJson(s[3..]) == "\n" + (body + "```");
    assert SkipNewline(SkipJson(s[3..])) == body + "```";
    StripBeforeClosingFence(body);
  }

  /** A character other than a backtick at the front survives the stripping. */
  lemma KeepsNonBacktickHead(t: string)
    requires t != [] && t[0] != '`'
    ensures StripFenceMarkers(t) == [t[0]] + StripFenceMarkers(t[1..])
  {
  }

  /** No triple backtick is left after the stripping. */
  lemma {:induction false} StripLeavesNoFence(s: string)
    ensures NoFence(StripFenceMarkers(s))
    decreases |s|
  {
    if |s| < 3 {
    } else if FenceAt(s, 0) {
      StripLeavesNoFence(SkipNewline(SkipJson(s[3..])));
    } else {
      var t := s[1..];
      var tail := StripFenceMarkers(t);
      StripLeavesNoFence(t);
      var r := [s[0]] + tail;
      // The only triple backtick `r` could hold starts at its first character,
      // which needs the stripped tail to begin with two backticks.
      if s[0] == '`' {
        if t[0] != '`' {
          KeepsNonBacktickHead(t);
        } else {
          assert t[1] != '`';
          KeepsNonBacktickHead(t[1..]);
          assert t == [t[0]] + t[1..];
          assert |t| < 3 || !FenceAt(t, 0);
          if |t| >= 3 {
            assert tail == [t[0]] + StripFenceMarkers(t[1..]);
          }
        }
        assert !FenceAt(r, 0);
      }
      forall k | 0 <= k < |r| ensures !FenceAt(r, k) {
        if k > 0 {
          assert !FenceAt(tail, k - 1);
        }
      }
    }
  }

  /** A slice of a fence-free string is fence-free. */
  lemma SliceKeepsNoFence(s: string, i: nat, j: nat)
    requires i <= j <= |s| && NoFence(s)
    ensures NoFence(s[i..j])
  {
    forall k | 0 <= k < j - i ensures !FenceAt(s[i..j], k) {
      assert !FenceAt(s, i + k);
    }
  }

  /** Trimming the stripped text keeps it free of triple backticks. */
  lemma TrimmedStripLeavesNoFence(text: string)
    ensures NoFence(Trim(StripFenceMarkers(text)))
  {
    var stripped := StripFenceMarkers(text);
    StripLeavesNoFence(text);
    var front := TrimStart(stripped);
    SliceKeepsNoFence(stripped, |stripped| - |front|, |stripped|);
    assert front == stripped[|stripped| - |front|..|stripped|];
    SliceKeepsNoFence(front, 0, |TrimEnd(front)|);
  }
}
