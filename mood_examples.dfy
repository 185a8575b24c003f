/**
  Worked classifications of particular messages. Each fixes the two cue counts of
  `detect_mood` (app.py:107-119) for one text: cues that occur are located, and every
  other cue is ruled out by one of its letters that the text lacks. The letters chosen
  for a text are listed, position by position against the cues, in a lemma of their own.
 */
module MoodExamples {
  import opened Text
  import opened MoodClassifier

  /** The letters ruling out the positive cues after "happy" in "happy sad". */
  lemma HappySadPositiveLetters()
    ensures forall i :: 0 <= i < 9 ==> "ogelwmjfe"[i] in PositiveCues[i + 1]
    ensures forall i :: 0 <= i < 9 ==> "ogelwmjfe"[i] !in "happy sad"
  {
  }

  /** "happy sad" holds the positive cue "happy" and no other positive cue. */
  lemma HappySadPositiveCount()
    ensures PositiveCount("happy sad") == 1
  {
    var t := "happy sad";
    assert Lower(t) == t;
    assert OccursAt(t, "happy", 0);
    HappySadPositiveLetters();
    OnlyFirstCueFound(PositiveCues, "ogelwmjfe", t);
  }

  /** The letters ruling out the negative cues after "sad" in "happy sad". */
  lemma HappySadNegativeLetters()
    ensures forall i :: 0 <= i < 9 ==> "ntnweutlu"[i] in NegativeCues[i + 1]
    ensures forall i :: 0 <= i < 9 ==> "ntnweutlu"[i] !in "happy sad"
  {
  }

  /** "happy sad" holds the negative cue "sad" and no other negative cue. */
  lemma HappySadNegativeCount()
    ensures NegativeCount("happy sad") == 1
  {
    var t := "happy sad";
    assert Lower(t) == t;
    assert OccursAt(t, "sad", 6);
    HappySadNegativeLetters();
    OnlyFirstCueFound(NegativeCues, "ntnweutlu", t);
  }

  /** One positive and one negative cue tie, so "happy sad" is neutral. */
  lemma HappySadIsNeutral()
    ensures DetectMood("happy sad") == Detection(Neutral, 0.0)
  {
    HappySadPositiveCount();
    HappySadNegativeCount();
  }

  /** Capital letters make no difference: "HAPPY" is classified as "happy" is. */
  lemma ShoutingIsTheSame()
    ensures DetectMood("HAPPY") == DetectMood("happy")
  {
    assert Lower("HAPPY") == "happy";
    DetectMoodIgnoresCase("HAPPY");
  }

  /** The lowercased form of the exam message. */
  lemma AnxiousLowered()
    ensures Lower("I'm so anxious about exams") == "i'm so anxious about exams"
  {
  }

  /** "I'm so anxious about exams" holds the negative cue "anxious". */
  lemma AnxiousNegativeCount()
    ensures NegativeCount("I'm so anxious about exams") >= 1
  {
    var t := "i'm so anxious about exams";
    AnxiousLowered();
    assert t == "i'm so " + NegativeCues[1] + " about exams";
    CueInContextIsCounted(NegativeCues, 1, "i'm so ", " about exams");
  }

  /** The letters ruling out every positive cue in the lowercased exam message. */
  lemma AnxiousPositiveLetters()
    ensures forall i :: 0 <= i < 10 ==> "hggclwgjfc"[i] in PositiveCues[i]
    ensures forall i :: 0 <= i < 10 ==> "hggclwgjfc"[i] !in "i'm so anxious about exams"
  {
  }

  /** "I'm so anxious about exams" holds no positive cue. */
  lemma AnxiousPositiveCount()
    ensures PositiveCount("I'm so anxious about exams") == 0
  {
    AnxiousLowered();
    AnxiousPositiveLetters();
    NoCueFound(PositiveCues, "hggclwgjfc", "i'm so anxious about exams");
  }

  /** "I'm so anxious about exams" has a negative cue and no positive one, so it is negative. */
  lemma AnxiousIsNegative()
    ensures DetectMood("I'm so anxious about exams") == Detection(Negative, -0.5)
  {
    AnxiousNegativeCount();
    AnxiousPositiveCount();
  }

  /** The letters ruling out every negative cue in "goodbye". */
  lemma GoodbyeNegativeLetters()
    ensures forall i :: 0 <= i < 10 ==> "sasawputlh"[i] in NegativeCues[i]
    ensures forall i :: 0 <= i < 10 ==> "sasawputlh"[i] !in "goodbye"
  {
  }

  /** "goodbye" holds no negative cue. */
  lemma GoodbyeNegativeCount()
    ensures NegativeCount("goodbye") == 0
  {
    var t := "goodbye";
    assert Lower(t) == t;
    GoodbyeNegativeLetters();
    NoCueFound(NegativeCues, "sasawputlh", t);
  }

  /** Cues are matched as substrings, so "goodbye" counts as the positive cue "good". */
  lemma GoodbyeIsPositive()
    ensures DetectMood("goodbye") == Detection(Positive, 0.5)
  {
    var t := "goodbye";
    assert Lower(t) == t;
    assert PositiveCount(t) >= 1 by {
      assert t == "" + PositiveCues[1] + "bye";
      CueInContextIsCounted(PositiveCues, 1, "", "bye");
    }
    GoodbyeNegativeCount();
  }

  /** The letters ruling out every negative cue in "not happy". */
  lemma NotHappyNegativeLetters()
    ensures forall i :: 0 <= i < 10 ==> "sxsgwduilu"[i] in NegativeCues[i]
    ensures forall i :: 0 <= i < 10 ==> "sxsgwduilu"[i] !in "not happy"
  {
  }

  /** "not happy" holds no negative cue. */
  lemma NotHappyNegativeCount()
    ensures NegativeCount("not happy") == 0
  {
    var t := "not happy";
    assert Lower(t) == t;
    NotHappyNegativeLetters();
    NoCueFound(NegativeCues, "sxsgwduilu", t);
  }

  /** Negation is not understood: "not happy" still contains "happy" and is positive. */
  lemma NotHappyIsPositive()
    ensures DetectMood("not happy") == Detection(Positive, 0.5)
  {
    var t := "not happy";
    assert Lower(t) == t;
    assert PositiveCount(t) >= 1 by {
      assert t == "not " + PositiveCues[0] + "";
      CueInContextIsCounted(PositiveCues, 0, "not ", "");
    }
    NotHappyNegativeCount();
  }
}
