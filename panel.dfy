/**
  What the mood panel and the "Mood Journey" sidebar show: the fixed tables from the
  current mood to a gauge value, an emoji, a title and a tip (app.py:229-255), and the
  average of the mood history with its band (app.py:277-289).
 */
module MoodPanel {
  import opened Text
  import M = MoodClassifier

  /** The disabled "Mood Level" slider: 20, 50 or 80 on a 0-100 scale, an affine image of the score. */
  function GaugeValue(m: M.Mood): (v: nat)
    ensures v <= 100
    ensures v as real == 50.0 + 60.0 * M.Score(m)
  {
    match m
    case Negative => 20
    case Neutral => 50
    case Positive => 80
  }

  /** The gauge orders moods as their scores do, so a happier mood always reads higher. */
  lemma GaugeFollowsScore(m1: M.Mood, m2: M.Mood)
    ensures GaugeValue(m1) < GaugeValue(m2) <==> M.Score(m1) < M.Score(m2)
    ensures GaugeValue(m1) == GaugeValue(m2) <==> m1 == m2
  {
  }

  /** The large emoji above the mood title: one pictograph of the Emoticons block. */
  function Emoji(m: M.Mood): (e: string)
    ensures |e| == 1 && '\U{1F600}' <= e[0] <= '\U{1F64F}'
  {
    match m
    case Positive => "\U{1F60A}"
    case Neutral => "\U{1F610}"
    case Negative => "\U{1F61F}"
  }

  /** `mood.title()`: the label with its first letter capitalised. */
  function Title(m: M.Mood): (t: string)
    ensures |t| == |M.Label(m)| && t[1..] == M.Label(m)[1..]
    ensures 'A' <= t[0] <= 'Z' && Lower(t) == M.Label(m)
  {
    match m
    case Positive => "Positive"
    case Neutral => "Neutral"
    case Negative => "Negative"
  }

  /** The "Quick Tip" for the current mood: an icon, a space and the advice, with no padding around it. */
  function Tip(m: M.Mood): (t: string)
    ensures |t| > 2 && !IsSpace(t[0]) && !IsSpace(t[|t| - 1]) && ' ' in t
    ensures t[0] > '\U{7F}'
  {
    match m
    case Negative => "\U{1F32C}\U{FE0F} Try slow breathing for one minute"
    case Neutral => "\U{1F9D8} Take a short mindful pause"
    case Positive => "\U{1F496} Share your happiness with someone"
  }

  /** Every table tells the three moods apart: no two moods share an emoji, title or tip. */
  lemma TablesDistinguishMoods(m1: M.Mood, m2: M.Mood)
    requires m1 != m2
    ensures Emoji(m1) != Emoji(m2) && Title(m1) != Title(m2) && Tip(m1) != Tip(m2)
  {
    assert Emoji(m1)[0] != Emoji(m2)[0];
    assert Tip(m1)[0] != Tip(m2)[0];
  }

  /** The overall-mood caption of the sidebar. */
  datatype Band = Low | Neutral | Positive

  /** The caption for an average: Low below -0.2, Positive above 0.2, Neutral in between (both ends included). */
  function BandOf(average: real): (b: Band)
    ensures b == Low <==> average < -0.2
    ensures b == Positive <==> average > 0.2
    ensures b == Neutral <==> -0.2 <= average <= 0.2
  {
    if average < -0.2 then Low
    else if average > 0.2 then Positive
    else Neutral
  }

  /** `sum(history)`: zero for no entries, and never of the opposite sign to all of its entries. */
  function Sum(history: seq<real>): (s: real)
    ensures history == [] ==> s == 0.0
    ensures (forall i :: 0 <= i < |history| ==> history[i] >= 0.0) ==> s >= 0.0
    ensures (forall i :: 0 <= i < |history| ==> history[i] <= 0.0) ==> s <= 0.0
  {
    if history == [] then 0.0 else Sum(history[..|history| - 1]) + history[|history| - 1]
  }

  /** The sum of a history does not depend on where it is split. */
  lemma {:induction false} SumAppend(a: seq<real>, b: seq<real>)
    ensures Sum(a + b) == Sum(a) + Sum(b)
  {
    if b == [] {
      assert a + b == a;
    } else {
      var n := |b| - 1;
      assert (a + b)[..|a| + n] == a + b[..n];
      assert (a + b)[|a| + n] == b[n];
      SumAppend(a, b[..n]);
    }
  }

  /** The average shown as "Average Mood" and the caption shown under it. */
  datatype Journey = Journey(average: real, band: Band)

  /** The sidebar: with no history it shows 0.00 and Neutral; otherwise the mean score and its band. */
  function MoodJourney(history: seq<real>): (j: Journey)
    ensures history == [] ==> j == Journey(0.0, Neutral)
    ensures history != [] ==> j.average * |history| as real == Sum(history)
    ensures j.band == BandOf(j.average)
  {
    if history == [] then Journey(0.0, Neutral)
    else
      var average := Sum(history) / |history| as real;
      Journey(average, BandOf(average))
  }

  /** Every entry is a score `detect_mood` can return. */
  ghost predicate AllScores(history: seq<real>) {
    forall i :: 0 <= i < |history| ==> M.IsScore(history[i])
  }

  /** A history of n scores sums to between -n/2 and n/2. */
  lemma {:induction false} SumBounds(history: seq<real>)
    requires AllScores(history)
    ensures -0.5 * |history| as real <= Sum(history) <= 0.5 * |history| as real
  {
    if history != [] {
      var n := |history| - 1;
      assert AllScores(history[..n]) by {
        forall i | 0 <= i < n ensures M.IsScore(history[..n][i]) {
          assert history[..n][i] == history[i];
        }
      }
      SumBounds(history[..n]);
      assert M.IsScore(history[n]);
    }
  }

  /** The average of a history of scores lies between -0.5 and 0.5. */
  lemma AverageBounds(history: seq<real>)
    requires AllScores(history)
    ensures -0.5 <= MoodJourney(history).average <= 0.5
  {
    if history != [] {
      SumBounds(history);
      QuotientBounds(Sum(history), |history| as real);
    }
  }

  /** With `n > 0` and `-n/2 <= s <= n/2`, the quotient `s / n` lies within [-0.5, 0.5]. */
  lemma QuotientBounds(s: real, n: real)
    requires n > 0.0 && -0.5 * n <= s <= 0.5 * n
    ensures -0.5 <= s / n <= 0.5
  {
  }

  /** A history of n copies of one score sums to n times that score. */
  lemma {:induction false} SumOfConstant(history: seq<real>, x: real)
    requires forall i :: 0 <= i < |history| ==> history[i] == x
    ensures Sum(history) == |history| as real * x
  {
    if history != [] {
      var n := |history| - 1;
      SumOfConstant(history[..n], x);
    }
  }

  /** When every turn had the same mood, the sidebar shows that mood's score and the matching band. */
  lemma SteadyMoodJourney(history: seq<real>, m: M.Mood)
    requires history != []
    requires forall i :: 0 <= i < |history| ==> history[i] == M.Score(m)
    ensures MoodJourney(history).average == M.Score(m)
    ensures MoodJourney(history).band == match m
      case Positive => Positive
      case Neutral => Neutral
      case Negative => Low
  {
    SumOfConstant(history, M.Score(m));
  }

  /** Two happy turns and one sad turn average to 1/6, which is within the Neutral band. */
  lemma TwoUpOneDownJourney()
    ensures MoodJourney([0.5, 0.5, -0.5]) == Journey(1.0 / 6.0, Neutral)
  {
    var h := [0.5, 0.5, -0.5];
    assert h[..2] == [0.5, 0.5] && h[..2][..1] == [0.5] && [0.5][..0] == [];
    assert Sum(h) == 0.5;
  }
}
