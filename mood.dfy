/**
  The mood classifier `detect_mood` (app.py:107-119): the text is lowercased and the
  classifier counts how many of ten positive and ten negative cue words occur in it as
  substrings. The larger count decides the mood; a tie (0-0 included) is neutral.
 */
module MoodClassifier {
  import opened Text

  datatype Mood = Positive | Neutral | Negative

  /** The label string the script stores and sends ("positive", "neutral", "negative"). */
  function Label(m: Mood): (l: string)
    ensures Lower(l) == l && 7 <= |l| <= 8
    ensures forall i :: 0 <= i < |l| ==> 'a' <= l[i] <= 'z'
  {
    match m
    case Positive => "positive"
    case Neutral => "neutral"
    case Negative => "negative"
  }

  /** The score appended to the mood history: positive above zero, negative below, neutral zero. */
  function Score(m: Mood): (r: real)
    ensures r > 0.0 <==> m == Positive
    ensures r < 0.0 <==> m == Negative
    ensures -0.5 <= r <= 0.5
  {
    match m
    case Positive => 0.5
    case Neutral => 0.0
    case Negative => -0.5
  }

  /** A value `detect_mood` can return as its score. */
  predicate IsScore(x: real) {
    x == -0.5 || x == 0.0 || x == 0.5
  }

  const PositiveCues: seq<string> :=
    ["happy", "good", "great", "excited", "love", "wonderful", "amazing", "joy", "fantastic", "excellent"]

  const NegativeCues: seq<string> :=
    ["sad", "anxious", "stressed", "angry", "worried", "depressed", "upset", "tired", "lonely", "hurt"]

  /** `sum(word in text for word in cues)`: one for each cue that occurs in `text`. */
  function CountPresent(cues: seq<string>, text: string): (n: nat)
    ensures n <= |cues|
  {
    if cues == [] then 0
    else CountPresent(cues[..|cues| - 1], text) + (if Contains(text, cues[|cues| - 1]) then 1 else 0)
  }

  /** The positions in `cues` of the cues that occur in `text`. */
  ghost function PresentCues(cues: seq<string>, text: string): set<nat> {
    set i: nat | i < |cues| && Contains(text, cues[i])
  }

  /** The count is the number of cues present, each counted once however often it repeats. */
  lemma {:induction false} CountIsPresentCues(cues: seq<string>, text: string)
    ensures CountPresent(cues, text) == |PresentCues(cues, text)|
  {
    if cues == [] {
      assert PresentCues(cues, text) == {};
    } else {
      var n := |cues| - 1;
      var front := cues[..n];
      CountIsPresentCues(front, text);
      var before := PresentCues(front, text);
      assert n !in before;
      if Contains(text, cues[n]) {
        assert PresentCues(cues, text) == before + {n};
      } else {
        assert PresentCues(cues, text) == before;
      }
    }
  }

  /** A text that occurs inside a longer text has no more cues than the longer one. */
  lemma {:induction false} CountInContext(cues: seq<string>, a: string, text: string, b: string)
    ensures CountPresent(cues, text) <= CountPresent(cues, a + text + b)
  {
    if cues != [] {
      var n := |cues| - 1;
      CountInContext(cues[..n], a, text, b);
      if Contains(text, cues[n]) {
        ContainsInContext(a, text, b, cues[n]);
      }
    }
  }

  /** With no empty cue, the empty text has no cue in it. */
  lemma {:induction false} CountOfEmptyText(cues: seq<string>)
    requires forall i :: 0 <= i < |cues| ==> cues[i] != []
    ensures CountPresent(cues, []) == 0
  {
    if cues != [] {
      CountOfEmptyText(cues[..|cues| - 1]);
      EmptyContainsNothing(cues[|cues| - 1]);
    }
  }

  /** `pos` of `detect_mood`: the number of positive cues in the lowercased text, at most ten. */
  function PositiveCount(text: string): (n: nat)
    ensures n <= 10
  {
    CountPresent(PositiveCues, Lower(text))
  }

  /** `neg` of `detect_mood`: the number of negative cues in the lowercased text, at most ten. */
  function NegativeCount(text: string): (n: nat)
    ensures n <= 10
  {
    CountPresent(NegativeCues, Lower(text))
  }

  /** The pair `(mood, score)` that `detect_mood` returns. */
  datatype Detection = Detection(mood: Mood, score: real)

  /** `detect_mood(text)`. */
  function DetectMood(text: string): (r: Detection)
    ensures r.score == Score(r.mood) && IsScore(r.score)
    ensures r.mood == Negative <==> NegativeCount(text) > PositiveCount(text)
    ensures r.mood == Positive <==> PositiveCount(text) > NegativeCount(text)
    ensures r.mood == Neutral <==> PositiveCount(text) == NegativeCount(text)
  {
    var pos := PositiveCount(text);
    var neg := NegativeCount(text);
    if neg > pos then Detection(Negative, -0.5)
    else if pos > neg then Detection(Positive, 0.5)
    else Detection(Neutral, 0.0)
  }

  /** Classification ignores letter case: the text is lowercased before any cue is looked for. */
  lemma DetectMoodIgnoresCase(text: string)
    ensures DetectMood(Lower(text)) == DetectMood(text)
  {
    LowerIdempotent(text);
  }

  /** The empty message is a 0-0 tie, so it is neutral with score 0. */
  lemma DetectMoodOfEmpty()
    ensures DetectMood("") == Detection(Neutral, 0.0)
  {
    CountOfEmptyText(PositiveCues);
    CountOfEmptyText(NegativeCues);
  }

  /**
    Matching is by substring and a cue counts once: a message made of one cue repeated,
    with any text around it, still sees that cue.
   */
  lemma CueInContextIsCounted(cues: seq<string>, i: nat, a: string, b: string)
    requires i < |cues|
    ensures CountPresent(cues, a + cues[i] + b) >= 1
  {
    var w := cues[i];
    assert OccursAt(a + w + b, w, |a|) by {
      assert (a + w + b)[|a|..|a| + |w|] == w;
    }
    CountIsPresentCues(cues, a + w + b);
    assert i in PresentCues(cues, a + w + b);
  }

  /** Counting over two cue lists one after the other adds their counts. */
  lemma {:induction false} CountSplit(first: seq<string>, second: seq<string>, text: string)
    ensures CountPresent(first + second, text) == CountPresent(first, text) + CountPresent(second, text)
  {
    if second == [] {
      assert first + second == first;
    } else {
      var n := |second| - 1;
      assert (first + second)[..|first| + n] == first + second[..n];
      assert (first + second)[|first| + n] == second[n];
      CountSplit(first, second[..n], text);
    }
  }

  /** A text lacking, for every cue, some letter of that cue (`letters[i]` for `cues[i]`) contains none of them. */
  lemma {:induction false} NoCueFound(cues: seq<string>, letters: string, text: string)
    requires |letters| == |cues|
    requires forall i :: 0 <= i < |cues| ==> letters[i] in cues[i]
    requires forall i :: 0 <= i < |letters| ==> letters[i] !in text
    ensures CountPresent(cues, text) == 0
  {
    if cues != [] {
      var n := |cues| - 1;
      MissingCharRulesOut(text, cues[n], letters[n]);
      NoCueFound(cues[..n], letters[..n], text);
    }
  }

  /** A text lacking, for every cue, some part of that cue (`parts[i]` of `cues[i]`) contains none of them. */
  lemma {:induction false} NoCuePartFound(cues: seq<string>, parts: seq<string>, text: string)
    requires |parts| == |cues|
    requires forall i :: 0 <= i < |cues| ==> Contains(cues[i], parts[i])
    requires forall i :: 0 <= i < |parts| ==> !Contains(text, parts[i])
    ensures CountPresent(cues, text) == 0
  {
    if cues != [] {
      var n := |cues| - 1;
      PartRulesOut(text, cues[n], parts[n]);
      NoCuePartFound(cues[..n], parts[..n], text);
    }
  }

  /** Exactly the first cue of the list occurs in `text`, so the count is one. */
  lemma OnlyFirstCueFound(cues: seq<string>, letters: string, text: string)
    requires cues != [] && Contains(text, cues[0])
    requires |letters| == |cues| - 1
    requires forall i :: 0 <= i < |letters| ==> letters[i] in cues[i + 1]
    requires forall i :: 0 <= i < |letters| ==> letters[i] !in text
    ensures CountPresent(cues, text) == 1
  {
    assert cues == [cues[0]] + cues[1..];
    CountSplit([cues[0]], cues[1..], text);
    assert [cues[0]][..0] == [];
    NoCueFound(cues[1..], letters, text);
  }
}
