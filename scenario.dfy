/**
  A client of the session: a student writes that they are anxious about exams, the
  service answers with padded text, the mood panel and the sidebar are read, and the
  history is cleared. Everything asserted follows from the contracts of the session.
 */
module Scenario {
  import opened Wrappers
  import opened Text
  import M = MoodClassifier
  import R = Reply
  import P = MoodPanel
  import opened Session
  import MoodExamples

  /** The padded answer of the service, once stripped. */
  lemma PaddedAnswerIsStripped(answer: string)
    requires answer == "Exams can feel heavy."
    ensures Strip(" " + answer + " \n") == answer
  {
    StripRemovesPadding(" ", answer, " \n");
  }

  /** A history of one negative turn shows -0.5 and Low. */
  lemma OneAnxiousTurnJourney()
    ensures P.MoodJourney([-0.5]) == P.Journey(-0.5, P.Low)
  {
    P.SteadyMoodJourney([-0.5], M.Negative);
  }

  method AnxiousStudentTurn() {
    var session := new ChatSession();
    var input := "I'm so anxious about exams";
    var answer := "Exams can feel heavy.";
    var respond := (req: R.CompletionRequest) => R.Completed(" " + answer + " \n");
    MoodExamples.AnxiousIsNegative();
    session.Submit(input, "09:41", "09:42", respond);
    assert |session.messages| == 2 && session.moodHistory == [-0.5];
    assert session.messages[0].mood == Some(M.Negative);
    assert session.messages[1].text == answer by {
      PaddedAnswerIsStripped(answer);
    }
    var mood := session.CurrentMood();
    assert mood == Some(M.Negative);
    OneAnxiousTurnJourney();
    var journey := session.Journey();
    assert journey == P.Journey(-0.5, P.Low);
    session.Clear();
    mood := session.CurrentMood();
    assert mood == None;
    assert session.Journey() == P.Journey(0.0, P.Neutral);
  }
}
