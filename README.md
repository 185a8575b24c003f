# MindMate chat companion: mood, reply and session model

MindMate is a single Streamlit script (`app.py`) that chats with a student. It has three
parts that make decisions, and this project models and proves properties of each:

- **Mood classifier** (`detect_mood`). The message is lowercased. The classifier counts how
  many of ten positive cues and ten negative cues occur in it as substrings. Each cue counts
  once, however often it repeats. The mood is negative if the negative count is larger,
  positive if the positive count is larger, and neutral on a tie (0-0 included). The scores
  are -0.5, 0.5 and 0.0.
- **Reply** (`generate_response`). One request goes to the hosted completion service. It
  carries a fixed persona prompt and the user turn `"I'm feeling {mood}. {text}"`. If the
  call succeeds, the reply is the completion's text with surrounding whitespace stripped. If
  it fails, the reply is one of two fixed messages: the "high demand" message when the
  lowercased error text contains `rate_limit`, and the "breathing exercise" message otherwise.
- **Session state**. There are two lists: the transcript `messages` and the score list
  `mood_history`. A turn appends the user message with its mood, then the score, then the
  assistant's reply. Clearing empties both lists. The mood panel finds the latest user
  message by scanning the transcript from its end. The sidebar shows the average score and a
  band: Low below -0.2, Positive above 0.2, Neutral otherwise, and Neutral 0.00 when the
  history is empty.

Files and modules:

- `text.dfy` (module `Text`): Python's `lower()` on ASCII letters, the substring test
  `pat in text`, and `strip()`.
- `mood.dfy` (module `MoodClassifier`): `detect_mood` and the lemmas about its counts.
- `mood_examples.dfy` (module `MoodExamples`): classifications of particular messages.
- `cue_texts.dfy` (module `CueTexts`): messages made only of cue words. Each positive cue
  holds a two-letter part that no negative cue holds, and the other way round. So any message
  of cues from one list, separated by spaces, is classified by that list.
- `panel.dfy` (module `MoodPanel`): the mood-to-gauge/emoji/title/tip tables, and the
  average and band.
- `reply.dfy` (module `Reply`): the request, the payload format and the mapping from an error
  to a fallback reply.
- `session.dfy` (module `Session`): the class `ChatSession`. Its fields `messages` and
  `moodHistory` are sequences that its methods change in place.
- `scenario.dfy` (module `Scenario`): a client that runs one turn, reads the panel and clears
  the session, checked only against the contracts.
- `wrappers.dfy` (module `Wrappers`): `Option`.

The completion service is a parameter `respond: CompletionRequest -> Completion`. It returns
`Completed(text)` or `Failed(description)`, where `description` is the text of the exception.
The two clock readings of a turn are string parameters. Scores are exact `real`s.

The session invariant `ChatSession.Valid()` has two parts:

- the history is exactly the scores of the user messages, in order, so its length is the
  number of user messages;
- the transcript is whole turns: user and assistant messages alternate, starting with a user
  message, and only user messages carry a mood.

So a non-empty transcript always contains a user message, and the reverse scan at
app.py:223 cannot fail.

## Model

| member | source | states |
|---|---|---|
| `Text.Lower` | app.py:108 | the result has the input's length and holds each character lowercased (ASCII letters) |
| `Text.LowerIdempotent` | app.py:108 | lowercasing an already lowercased text changes nothing |
| `Text.Contains` | app.py:112-113 | `pat in text` holds exactly when `pat` occurs at some position of `text` |
| `Text.ContainsInContext` | app.py:112-113 | text added before or after never hides an occurrence |
| `Text.MissingCharRulesOut` | app.py:112-113 | a pattern with a character the text lacks does not occur in the text |
| `Text.PartRulesOut` | app.py:112-113 | a pattern with a part that the text lacks does not occur in the text |
| `Text.PairFreeFromIsAbsent` | app.py:112-113 | the position-by-position pair check is the same as the absence of the two-letter pattern |
| `Text.PairSearch` | app.py:112-113 | for a two-letter pattern, the pair check decides `pat in s` both ways |
| `Text.Strip` | app.py:150 | the result is a window of the input that neither starts nor ends with whitespace, and everything outside the window is whitespace (Python's `isspace` set) |
| `Text.StripUnique` | app.py:150 | that description has exactly one solution, so it defines `strip()` |
| `Text.StripIdempotent` | app.py:150 | stripping twice is stripping once |
| `Text.StripRemovesPadding` | app.py:150 | whitespace around a text without whitespace at its ends is exactly what is removed |
| `Text.SpacedLacksPart` | app.py:112-113 | a pattern without spaces found in neither of two texts is not found in the two joined by a space |
| `MoodClassifier.Label` | app.py:116-119 | each label is seven or eight characters, all small ASCII letters |
| `MoodClassifier.Score` | app.py:115-119 | the score is positive exactly for Positive, negative exactly for Negative, and lies in [-0.5, 0.5] |
| `MoodClassifier.CountPresent` | app.py:112-113 | a count is at most the number of cues |
| `MoodClassifier.CountIsPresentCues` | app.py:112-113 | the count is the number of distinct cue positions whose cue occurs, so a repeated cue counts once |
| `MoodClassifier.CountInContext` | app.py:112-113 | adding text around a message never lowers a count |
| `MoodClassifier.CountSplit` | app.py:112-113 | counting over two cue lists one after the other adds their counts |
| `MoodClassifier.NoCueFound` | app.py:112-113 | a text lacking a letter of every cue has count zero |
| `MoodClassifier.NoCuePartFound` | app.py:112-113 | a text lacking, for every cue, some part of that cue has count zero |
| `MoodClassifier.CueInContextIsCounted` | app.py:112-113 | any text that contains a cue has a count of at least one |
| `MoodClassifier.PositiveCount` | app.py:108-112 | the positive count of the lowercased text is between 0 and 10 |
| `MoodClassifier.NegativeCount` | app.py:108-113 | the negative count of the lowercased text is between 0 and 10 |
| `MoodClassifier.DetectMood` | app.py:107-119 | Negative exactly when neg > pos, Positive exactly when pos > neg, Neutral exactly on a tie; the score is the mood's score |
| `MoodClassifier.DetectMoodIgnoresCase` | app.py:108 | classifying the lowercased text gives the same result as classifying the text |
| `MoodClassifier.DetectMoodOfEmpty` | app.py:112-119 | the empty message is (neutral, 0.0) |
| `MoodExamples.HappySadPositiveCount` | app.py:109-112 | "happy sad" holds exactly one positive cue |
| `MoodExamples.HappySadNegativeCount` | app.py:110-113 | "happy sad" holds exactly one negative cue |
| `MoodExamples.AnxiousNegativeCount` | app.py:108-113 | "I'm so anxious about exams" holds at least one negative cue |
| `MoodExamples.AnxiousPositiveCount` | app.py:108-112 | "I'm so anxious about exams" holds no positive cue |
| `MoodExamples.GoodbyeNegativeCount` | app.py:110-113 | "goodbye" holds no negative cue |
| `MoodExamples.NotHappyNegativeCount` | app.py:110-113 | "not happy" holds no negative cue, since "not" is not a cue |
| `MoodExamples.HappySadIsNeutral` | app.py:109-119 | "happy sad" has one cue of each kind and is (neutral, 0.0) |
| `MoodExamples.ShoutingIsTheSame` | app.py:108 | "HAPPY" is classified as "happy" is |
| `MoodExamples.AnxiousIsNegative` | app.py:109-116 | "I'm so anxious about exams" is (negative, -0.5) |
| `MoodExamples.GoodbyeIsPositive` | app.py:109-118 | "goodbye" matches the cue "good" and is (positive, 0.5) |
| `MoodExamples.NotHappyIsPositive` | app.py:109-118 | "not happy" is (positive, 0.5): negation is not recognised |
| `CueTexts.JoinLacksPart` | app.py:112-113 | a part without spaces that no cue holds does not occur in spaced cues either, since no occurrence can span a space |
| `CueTexts.JoinIsLower` | app.py:108 | spaced lowercase cues are unchanged by lowercasing |
| `CueTexts.JoinHasFirstCue` | app.py:112-113 | the first cue of spaced cues is counted |
| `CueTexts.CuesAreLowerCase` | app.py:109-110 | every cue is already lowercase |
| `CueTexts.PartsLieInTheirCues` | app.py:109-110 | each chosen two-letter part lies in its own cue |
| `CueTexts.PositivePartsMissNegativeCues` | app.py:109-110 | no negative cue holds a positive cue's part |
| `CueTexts.NegativePartsMissPositiveCues` | app.py:109-110 | no positive cue holds a negative cue's part |
| `CueTexts.PositivePartsSeparate` | app.py:109-110 | every positive cue contains its part, and no negative cue contains any positive part |
| `CueTexts.NegativePartsSeparate` | app.py:109-110 | every negative cue contains its part, and no positive cue contains any negative part |
| `CueTexts.JoinCountsItsList` | app.py:108-113 | spaced cues of one list are unchanged by lowercasing and count at least one cue of that list |
| `CueTexts.NegativeJoinMissesPositiveCues` | app.py:109-112 | spaced negative cues hold no positive cue |
| `CueTexts.PositiveJoinMissesNegativeCues` | app.py:110-113 | spaced positive cues hold no negative cue |
| `CueTexts.OnlyNegativeCuesIsNegative` | app.py:107-119 | any non-empty message of negative cues separated by spaces is (negative, -0.5) |
| `CueTexts.OnlyPositiveCuesIsPositive` | app.py:107-119 | any non-empty message of positive cues separated by spaces is (positive, 0.5) |
| `CueTexts.EachCueAlone` | app.py:107-119 | each of the twenty cues on its own is classified by its list |
| `MoodPanel.GaugeValue` | app.py:235-239 | the gauge is 50 + 60 × score (20, 50, 80) and stays within 0-100 |
| `MoodPanel.GaugeFollowsScore` | app.py:235-239 | the gauge orders moods as their scores do and tells them apart |
| `MoodPanel.Emoji` | app.py:229-233 | each emoji is a single pictograph of the Emoticons block |
| `MoodPanel.Tip` | app.py:249-253 | each tip starts with a non-ASCII icon character, has no padding at either end and contains a space |
| `MoodPanel.Title` | app.py:242 | the title is the label with a capital first letter, and lowercases back to the label |
| `MoodPanel.TablesDistinguishMoods` | app.py:229-255 | different moods get different emoji, titles and tips |
| `MoodPanel.BandOf` | app.py:281-286 | Low exactly below -0.2, Positive exactly above 0.2, Neutral exactly on [-0.2, 0.2] |
| `MoodPanel.MoodJourney` | app.py:277-289 | empty history shows (0.0, Neutral); otherwise average × length = sum; the band is the average's band |
| `MoodPanel.Sum` | app.py:278 | the empty sum is 0, and a sum never has the opposite sign to all of its entries |
| `MoodPanel.SumAppend` | app.py:278 | the sum of a history split in two is the sum of the sums of the parts |
| `MoodPanel.SumBounds` | app.py:278 | a history of n scores sums to between -n/2 and n/2 |
| `MoodPanel.AverageBounds` | app.py:278 | the average of a history of scores lies in [-0.5, 0.5] |
| `MoodPanel.SteadyMoodJourney` | app.py:277-286 | a history of one repeated mood averages to that mood's score and shows the matching band |
| `MoodPanel.TwoUpOneDownJourney` | app.py:278-286 | the history [0.5, 0.5, -0.5] averages to 1/6 and is Neutral |
| `Reply.UserPayload` | app.py:143 | the payload starts with "I'm feeling ", ends with the user's text, and holds exactly the mood's label and ". " in between |
| `Reply.PayloadDeterminesInput` | app.py:143 | two equal payloads come from the same mood and the same text |
| `Reply.BuildRequest` | app.py:126-148 | the request carries the payload, the model name, the persona prompt, temperature 0.7 and 150 tokens |
| `Reply.ClassifyFailure` | app.py:154 | rate-limited exactly when the lowercased error text contains "rate_limit" |
| `Reply.FallbackReply` | app.py:154-157 | the high-demand reply is given for a rate limit and only then; otherwise the generic reply |
| `Reply.FallbacksDiffer` | app.py:154-157 | the two fallback replies are non-empty and different |
| `Reply.RateLimitMentionIsDetected` | app.py:154 | an error text that mentions "rate_limit" in any letter case, anywhere, is a rate-limit failure |
| `Reply.GenerateResponse` | app.py:124-157 | on success the reply is the stripped completion; on failure it is the high-demand reply exactly when the error mentions "rate_limit", and otherwise the generic reply; it is total, so no failure escapes |
| `Reply.TrimmedCompletionPassesThrough` | app.py:150 | a completion with no surrounding whitespace is returned unchanged |
| `Session.UserCount` | app.py:196-203 | there are never more user messages than messages |
| `Session.LatestUserMood` | app.py:223-227 | the mood of the user message after which only assistant messages follow; none when no user message exists |
| `Session.LatestUserMoodSkipsAssistant` | app.py:223-225 | an assistant message at the end is skipped by the backward scan |
| `Session.LatestUserMoodStopsAtUser` | app.py:223-225 | the backward scan stops at a user message and returns its mood |
| `Session.HistoryLengthIsUserCount` | app.py:196-203 | the history derived from a transcript has one entry per user message |
| `Session.HistoryHoldsScores` | app.py:194-203 | every history entry is -0.5, 0.0 or 0.5 |
| `Session.WholeTurnsExtend` | app.py:196-212 | appending a user message and then an assistant message keeps the transcript made of whole turns |
| `Session.UserScoresOfTurn` | app.py:196-212 | a turn adds exactly the user message's score to the history |
| `Session.LatestUserMoodAfterTurn` | app.py:222-227 | after a turn the latest user mood is that turn's mood |
| `Session.NonEmptyTranscriptHasUserMood` | app.py:222-225 | a non-empty transcript of whole turns has a latest user mood |
| `Session.ChatSession.constructor` | app.py:98-102 | a new session has both lists empty and satisfies the invariant |
| `Session.ChatSession.Submit` | app.py:193-212 | empty input changes nothing; otherwise the transcript gains exactly the user message (with the detected mood and time) and then the assistant reply, the history gains exactly the detected score, earlier entries are unchanged, and the invariant holds |
| `Session.ChatSession.Clear` | app.py:303-306 | both lists become empty, whatever their size, and the invariant holds |
| `Session.ChatSession.CurrentMood` | app.py:222-227 | the reverse scan returns the mood of the latest user message; it finds one exactly when the transcript is non-empty |
| `Session.ChatSession.Journey` | app.py:277-289 | the sidebar view of the session's history; its average lies in [-0.5, 0.5], and it is (0.0, Neutral) for an empty session |

## Left out

- Page setup, CSS, the HTML rendering of the transcript (app.py:175-189), columns, the slider widget, the spinner, expanders, `st.rerun` and the crisis-help text are presentation. Only the values they display are modelled.
- The Groq client and the network call (app.py:28, 126-148) are represented by the `respond` parameter. Any exception raised while reading the response (no choices, content `None`) shows up as the oracle's `Failed`, just as the script's `except Exception` catches it. Exceptions outside `Exception` (interrupts) are not modelled.
- Loading the API key and `st.stop()` (app.py:21-25) are start-up configuration.
- `datetime.now().strftime("%H:%M")` (app.py:200, 211) is not modelled: the two readings are string parameters of `Submit`.
- `print` logging of the error (app.py:153) is output only.
- The `:.2f` formatting of the average (app.py:279) is not modelled. Exact `real` arithmetic replaces Python floats. Sums of multiples of 0.5 are exact in binary floating point, and only the one division rounds. An exact quotient k/(2n) differs from ±0.2 by at least 1/(10n) unless it equals ±0.2, and then both sides round alike. For any history of fewer than 10¹⁵ entries that gap is far wider than the rounding error, so the band agrees with the float computation.
- Text.Lower: lowercases ASCII letters only, not all of Unicode as `str.lower()` does. Outside ASCII, only U+212A (to 'k') and U+0130 (to "i" followed by U+0307) lower to text containing ASCII letters. No cue and not "rate_limit" contains 'k' or ends in 'i'. So cue and marker matching give the same results.
- How `st.session_state` persists between reruns is not modelled. The session is an explicit `ChatSession` object instead.
- A Streamlit rerun that interrupts a turn between its appends is not modelled. A turn is modelled as completing all four steps, since `generate_response` catches every `Exception`.
- Failures are told apart by matching `"rate_limit"` in the lowercased error text, as the code does at app.py:154 (`Reply.ClassifyFailure`). The error's type and status code are not looked at.
