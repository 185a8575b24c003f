/**
  The session state of the chat (app.py:98-102): the transcript `messages` and the list
  `mood_history` of scores, changed in place by a chat turn (app.py:193-212) and by the
  clear button (app.py:303-306), and read by the mood panel's reverse scan for the most
  recent user message (app.py:222-227).
 */
module Session {
  import opened Wrappers
  import M = MoodClassifier
  import R = Reply
  import P = MoodPanel

  datatype Role = User | Assistant

  /** One transcript entry; only user entries carry a mood. The time is the "HH:MM" string shown. */
  datatype Message = Message(role: Role, text: string, mood: Option<M.Mood>, time: string)

  /** The score a user message contributed to the history. */
  function MessageScore(m: Message): real {
    match m.mood
    case Some(mood) => M.Score(mood)
    case None => 0.0
  }

  /** The scores of the user messages of a transcript, oldest first. */
  function UserScores(ms: seq<Message>): seq<real> {
    if ms == [] then []
    else UserScores(ms[..|ms| - 1]) + (if ms[|ms| - 1].role == User then [MessageScore(ms[|ms| - 1])] else [])
  }

  /** The number of user messages of a transcript. */
  function UserCount(ms: seq<Message>): (n: nat)
    ensures n <= |ms|
  {
    if ms == [] then 0
    else UserCount(ms[..|ms| - 1]) + (if ms[|ms| - 1].role == User then 1 else 0)
  }

  /** Position `i` holds a user message and every later message is the assistant's. */
  ghost predicate IsLastUserAt(ms: seq<Message>, i: int) {
    0 <= i < |ms| && ms[i].role == User && forall j :: i < j < |ms| ==> ms[j].role != User
  }

  /** The transcript holds no user message. */
  ghost predicate NoUserMessage(ms: seq<Message>) {
    forall i :: 0 <= i < |ms| ==> ms[i].role != User
  }

  /** The mood of the most recent user message, if there is one. */
  function LatestUserMood(ms: seq<Message>): (r: Option<M.Mood>)
    ensures NoUserMessage(ms) ==> r == None
    ensures forall i :: IsLastUserAt(ms, i) ==> r == ms[i].mood
  {
    if ms == [] then None
    else if ms[|ms| - 1].role == User then
      assert forall i :: IsLastUserAt(ms, i) ==> i == |ms| - 1;
      ms[|ms| - 1].mood
    else
      var front := ms[..|ms| - 1];
      assert forall i :: IsLastUserAt(ms, i) ==> IsLastUserAt(front, i);
      assert NoUserMessage(ms) ==> NoUserMessage(front);
      LatestUserMood(front)
  }

  /** The reverse scan steps over an assistant message at the end without changing its answer. */
  lemma LatestUserMoodSkipsAssistant(ms: seq<Message>, n: nat)
    requires 0 < n <= |ms| && ms[n - 1].role != User
    ensures LatestUserMood(ms[..n]) == LatestUserMood(ms[..n - 1])
  {
    assert ms[..n][..n - 1] == ms[..n - 1];
  }

  /** The reverse scan stops at a user message at the end and answers with its mood. */
  lemma LatestUserMoodStopsAtUser(ms: seq<Message>, n: nat)
    requires 0 < n <= |ms| && ms[n - 1].role == User
    ensures LatestUserMood(ms[..n]) == ms[n - 1].mood
  {
    var front := ms[..n];
    assert front[|front| - 1] == ms[n - 1];
  }

  /**
    The transcript is made of whole turns, each a user message followed by an assistant
    message, and exactly the user messages carry a mood.
   */
  ghost predicate WholeTurns(ms: seq<Message>) {
    && |ms| % 2 == 0
    && (forall i :: 0 <= i < |ms| ==> (ms[i].role == User <==> i % 2 == 0))
    && (forall i :: 0 <= i < |ms| ==> (ms[i].mood.Some? <==> ms[i].role == User))
  }

  /** There is one history entry per user message. */
  lemma {:induction false} HistoryLengthIsUserCount(ms: seq<Message>)
    ensures |UserScores(ms)| == UserCount(ms)
  {
    if ms != [] {
      HistoryLengthIsUserCount(ms[..|ms| - 1]);
    }
  }

  /** Every history entry is a score `detect_mood` can return. */
  lemma {:induction false} HistoryHoldsScores(ms: seq<Message>)
    ensures forall i :: 0 <= i < |UserScores(ms)| ==> M.IsScore(UserScores(ms)[i])
  {
    if ms != [] {
      HistoryHoldsScores(ms[..|ms| - 1]);
      var last := ms[|ms| - 1];
      assert M.IsScore(MessageScore(last)) by {
        match last.mood
        case Some(mood) =>
        case None =>
      }
    }
  }

  /** A turn appends one user and one assistant message, so the transcript stays made of whole turns. */
  lemma WholeTurnsExtend(ms: seq<Message>, u: Message, a: Message)
    requires WholeTurns(ms)
    requires u.role == User && u.mood.Some? && a.role == Assistant && a.mood.None?
    ensures WholeTurns(ms + [u, a])
  {
  }

  /** A turn adds exactly the user message's score to the history. */
  lemma UserScoresOfTurn(ms: seq<Message>, u: Message, a: Message)
    requires u.role == User && a.role == Assistant
    ensures UserScores(ms + [u, a]) == UserScores(ms) + [MessageScore(u)]
  {
    assert (ms + [u, a])[..|ms| + 1] == ms + [u];
    assert (ms + [u])[..|ms|] == ms;
  }

  /** After a turn the most recent user message is that turn's, however long the transcript. */
  lemma LatestUserMoodAfterTurn(ms: seq<Message>, u: Message, a: Message)
    requires u.role == User && a.role == Assistant
    ensures LatestUserMood(ms + [u, a]) == u.mood
  {
    assert (ms + [u, a])[..|ms| + 1] == ms + [u];
  }

  /** A non-empty transcript of whole turns has a user message with a mood, so the reverse scan always succeeds. */
  lemma NonEmptyTranscriptHasUserMood(ms: seq<Message>)
    requires WholeTurns(ms) && ms != []
    ensures LatestUserMood(ms).Some?
  {
    var n := |ms| - 2;
    assert ms[n].role == User && ms[n + 1].role == Assistant;
    assert ms == ms[..n] + [ms[n], ms[n + 1]];
    LatestUserMoodAfterTurn(ms[..n], ms[n], ms[n + 1]);
  }

  /** The conversation state of one browser session. */
  class ChatSession {
    var messages: seq<Message>
    var moodHistory: seq<real>

    /** The history is the scores of the user messages, in order, and the transcript is whole turns. */
    ghost predicate Valid()
      reads this
    {
      WholeTurns(messages) && moodHistory == UserScores(messages)
    }

    /** A new session starts with both lists empty. */
    constructor ()
      ensures Valid() && messages == [] && moodHistory == []
    {
      messages := [];
      moodHistory := [];
    }

    /**
      One chat turn. Empty input does nothing; otherwise the user message with its detected
      mood is appended, then its score, then the assistant's reply produced by the service
      `respond`. `userTime` and `replyTime` are the clock readings taken at the two appends.
     */
    method Submit(userInput: string, userTime: string, replyTime: string, respond: R.CompletionRequest -> R.Completion)
      requires Valid()
      modifies this
      ensures Valid()
      ensures userInput == [] ==> messages == old(messages) && moodHistory == old(moodHistory)
      ensures userInput != [] ==>
        var d := M.DetectMood(userInput);
        && messages == old(messages) + [
             Message(User, userInput, Some(d.mood), userTime),
             Message(Assistant, R.GenerateResponse(userInput, d.mood, respond), None, replyTime)]
        && moodHistory == old(moodHistory) + [d.score]
    {
      if userInput == [] {
        return;
      }
      var d := M.DetectMood(userInput);
      var user := Message(User, userInput, Some(d.mood), userTime);
      messages := messages + [user];
      moodHistory := moodHistory + [d.score];
      var reply := R.GenerateResponse(userInput, d.mood, respond);
      var assistant := Message(Assistant, reply, None, replyTime);
      ghost var before := messages[..|messages| - 1];
      messages := messages + [assistant];
      assert messages == before + [user, assistant];
      WholeTurnsExtend(before, user, assistant);
      UserScoresOfTurn(before, user, assistant);
    }

    /** The sidebar's "Mood Journey" for this session: 0.00 and Neutral when empty, and an average within [-0.5, 0.5]. */
    function Journey(): (j: P.Journey)
      reads this
      requires Valid()
      ensures j == P.MoodJourney(moodHistory)
      ensures -0.5 <= j.average <= 0.5
      ensures messages == [] ==> j == P.Journey(0.0, P.Neutral)
    {
      HistoryHoldsScores(messages);
      P.AverageBounds(moodHistory);
      P.MoodJourney(moodHistory)
    }

    /** The clear button: both lists become empty, whatever they held. */
    method Clear()
      requires Valid()
      modifies this
      ensures Valid() && messages == [] && moodHistory == []
    {
      messages := [];
      moodHistory := [];
    }

    /**
      The mood panel's current mood: the mood of the last user message, found by scanning the
      transcript from its end; none when the transcript is empty.
     */
    method CurrentMood() returns (mood: Option<M.Mood>)
      requires Valid()
      ensures mood == LatestUserMood(messages)
      ensures mood.Some? <==> messages != []
    {
      if messages == [] {
        return None;
      }
      NonEmptyTranscriptHasUserMood(messages);
      var i := |messages|;
      assert messages[..i] == messages;
      while messages[i - 1].role != User
        invariant 0 < i <= |messages|
        invariant LatestUserMood(messages[..i]) == LatestUserMood(messages)
        decreases i
      {
        LatestUserMoodSkipsAssistant(messages, i);
        i := i - 1;
      }
      LatestUserMoodStopsAtUser(messages, i);
      mood := messages[i - 1].mood;
    }
  }
}
