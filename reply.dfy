/**
  `generate_response` (app.py:124-157): one request to the hosted chat-completion service
  with a fixed persona prompt and the user's message prefixed by the detected mood, then
  either the trimmed completion text or one of two fixed fallback replies.

  The service itself is an oracle: a function from the request to either the completion
  text or the description of the error it raised.
 */
module Reply {
  import opened Text
  import M = MoodClassifier

  /** The request sent to the completion service. */
  datatype CompletionRequest = CompletionRequest(
    model: string,
    systemPrompt: string,
    userContent: string,
    temperature: real,
    maxTokens: nat)

  /** What the service call produced: the first choice's text, or `str(e)` of the exception raised. */
  datatype Completion = Completed(content: string) | Failed(description: string)

  /** The two kinds of failure the user can tell apart. */
  datatype FailureKind = RateLimited | OtherFailure

  const ModelName: string := "llama-3.3-70b-versatile"

  const SystemPrompt: string :=
    "You are MindMate, a kind and supportive mental health companion for students.\n\nRules:\n"
    + "- Be empathetic and calm\n- Never diagnose or provide medical advice\n"
    + "- Keep responses short (2-3 sentences)\n- Suggest gentle coping strategies when appropriate\n"
    + "- Be warm, supportive, and understanding\n- Validate their feelings"

  const Temperature: real := 0.7

  const MaxTokens: nat := 150

  const HighDemandReply: string :=
    "I'm experiencing high demand right now. Please try again in a moment. \U{1F499}"

  const GenericReply: string :=
    "I hear you. Remember, you're doing your best, and that's enough. Would you like to try our breathing exercise? \U{1F499}"

  const FeelingPrefix: string := "I'm feeling "

  const RateLimitMarker: string := "rate_limit"

  /** The user turn `f"I'm feeling {mood}. {user_text}"`. */
  function UserPayload(mood: M.Mood, userText: string): (p: string)
    ensures |p| == |FeelingPrefix| + |M.Label(mood)| + 2 + |userText|
    ensures p[..|FeelingPrefix|] == FeelingPrefix
    ensures p[|p| - |userText|..] == userText
    ensures p[|FeelingPrefix|..|p| - |userText|] == M.Label(mood) + ". "
  {
    FeelingPrefix + M.Label(mood) + ". " + userText
  }

  /** The payload loses nothing: the mood and the user's text can both be read back from it. */
  lemma PayloadDeterminesInput(m1: M.Mood, t1: string, m2: M.Mood, t2: string)
    requires UserPayload(m1, t1) == UserPayload(m2, t2)
    ensures m1 == m2 && t1 == t2
  {
    var p := UserPayload(m1, t1);
    var k := |FeelingPrefix|;
    assert p == UserPayload(m2, t2);
    assert p[k] == M.Label(m1)[0] && p[k] == M.Label(m2)[0];
    assert p[k + 7] == (if m1 == M.Neutral then '.' else M.Label(m1)[7]);
    assert p[k + 7] == (if m2 == M.Neutral then '.' else M.Label(m2)[7]);
    assert M.Label(m1) == M.Label(m2);
    var n := k + |M.Label(m1)| + 2;
    assert p[n..] == t1 && p[n..] == t2;
  }

  /** The request `generate_response` sends for one message. */
  function BuildRequest(mood: M.Mood, userText: string): (r: CompletionRequest)
    ensures r.userContent == UserPayload(mood, userText)
    ensures r.model == ModelName && r.systemPrompt == SystemPrompt
    ensures r.temperature == Temperature && r.maxTokens == MaxTokens
  {
    CompletionRequest(ModelName, SystemPrompt, UserPayload(mood, userText), Temperature, MaxTokens)
  }

  /** `"rate_limit" in str(e).lower()` decides the kind of failure. */
  function ClassifyFailure(description: string): (k: FailureKind)
    ensures k == RateLimited <==> Contains(Lower(description), RateLimitMarker)
  {
    if Contains(Lower(description), RateLimitMarker) then RateLimited else OtherFailure
  }

  /** The fixed reply for each kind of failure; the high-demand reply is used for rate limits and only for them. */
  function FallbackReply(k: FailureKind): (r: string)
    ensures r == HighDemandReply <==> k == RateLimited
    ensures r == HighDemandReply || r == GenericReply
  {
    FallbacksDiffer();
    match k
    case RateLimited => HighDemandReply
    case OtherFailure => GenericReply
  }

  /** The two fallbacks are different non-empty replies, so the user can tell a busy service from a broken one. */
  lemma FallbacksDiffer()
    ensures HighDemandReply != GenericReply
    ensures HighDemandReply != [] && GenericReply != []
  {
    assert |HighDemandReply| < |GenericReply|;
  }

  /** A description that mentions the marker in any letter case, anywhere, is a rate-limit failure. */
  lemma RateLimitMentionIsDetected(before: string, marker: string, after: string)
    requires Lower(marker) == RateLimitMarker
    ensures ClassifyFailure(before + marker + after) == RateLimited
  {
    LowerAppend(before + marker, after);
    LowerAppend(before, marker);
    assert Lower(before + marker + after) == Lower(before) + RateLimitMarker + Lower(after);
    assert OccursAt(RateLimitMarker, RateLimitMarker, 0);
    ContainsInContext(Lower(before), RateLimitMarker, Lower(after), RateLimitMarker);
  }

  /**
    `generate_response(user_text, mood)` given the service as `respond`: the stripped text on
    success; on failure the high-demand reply exactly when the lowercased error text mentions
    "rate_limit", the generic reply otherwise. It is total, so no failure reaches the caller.
   */
  function GenerateResponse(userText: string, mood: M.Mood, respond: CompletionRequest -> Completion): (reply: string)
    ensures var outcome := respond(BuildRequest(mood, userText));
      && (outcome.Completed? ==> IsStripOf(outcome.content, reply))
      && (outcome.Failed? ==> (reply == HighDemandReply <==> Contains(Lower(outcome.description), RateLimitMarker)))
      && (outcome.Failed? ==> reply == HighDemandReply || reply == GenericReply)
  {
    FallbacksDiffer();
    match respond(BuildRequest(mood, userText))
    case Completed(content) => Strip(content)
    case Failed(description) => FallbackReply(ClassifyFailure(description))
  }

  /** A completion that is already trimmed is passed through unchanged. */
  lemma TrimmedCompletionPassesThrough(userText: string, mood: M.Mood, respond: CompletionRequest -> Completion)
    requires respond(BuildRequest(mood, userText)).Completed?
    requires IsStripOf(respond(BuildRequest(mood, userText)).content, respond(BuildRequest(mood, userText)).content)
    ensures GenerateResponse(userText, mood, respond) == respond(BuildRequest(mood, userText)).content
  {
    var c := respond(BuildRequest(mood, userText)).content;
    StripUnique(c, GenerateResponse(userText, mood, respond), c);
  }
}
