/**
  Messages made only of cue words. The two cue lists of `detect_mood` (app.py:109-110) are
  far enough apart that no cue of one list can be found in a message built from cues of the
  other, however the cues are combined: each positive cue holds a two-letter part that no
  negative cue holds, and the other way round. So a message of negative cues is negative and
  a message of positive cues is positive.
 */
module CueTexts {
  import opened Text
  import opened MoodClassifier

  /** Every entry of `ws` is a position in a list of `n` cues. */
  predicate AreIndices(ws: seq<nat>, n: nat) {
    forall k :: 0 <= k < |ws| ==> ws[k] < n
  }

  /** The message `cues[ws[0]] + " " + cues[ws[1]] + " " + …`. */
  function Join(cues: seq<string>, ws: seq<nat>): string
    requires ws != [] && AreIndices(ws, |cues|)
    decreases |ws|
  {
    if |ws| == 1 then cues[ws[0]] else cues[ws[0]] + " " + Join(cues, ws[1..])
  }

  /** A part without spaces that no cue holds does not occur in a join of those cues either. */
  lemma {:induction false} JoinLacksPart(cues: seq<string>, ws: seq<nat>, part: string)
    requires ws != [] && AreIndices(ws, |cues|)
    requires forall k :: 0 <= k < |part| ==> part[k] != ' '
    requires forall i :: 0 <= i < |cues| ==> !Contains(cues[i], part)
    ensures !Contains(Join(cues, ws), part)
  {
    if |ws| > 1 {
      JoinLacksPart(cues, ws[1..], part);
      SpacedLacksPart(cues[ws[0]], Join(cues, ws[1..]), part);
    }
  }

  /** Joining lowercase cues with spaces gives a lowercase message. */
  lemma {:induction false} JoinIsLower(cues: seq<string>, ws: seq<nat>)
    requires ws != [] && AreIndices(ws, |cues|)
    requires forall i :: 0 <= i < |cues| ==> Lower(cues[i]) == cues[i]
    ensures Lower(Join(cues, ws)) == Join(cues, ws)
  {
    if |ws| > 1 {
      var c := cues[ws[0]];
      JoinIsLower(cues, ws[1..]);
      LowerAppend(c + " ", Join(cues, ws[1..]));
      LowerAppend(c, " ");
      assert Lower(" ") == " ";
    }
  }

  /** The first cue of a join is found in it. */
  lemma JoinHasFirstCue(cues: seq<string>, ws: seq<nat>)
    requires ws != [] && AreIndices(ws, |cues|)
    ensures CountPresent(cues, Join(cues, ws)) >= 1
  {
    var tail := if |ws| == 1 then "" else " " + Join(cues, ws[1..]);
    assert Join(cues, ws) == "" + cues[ws[0]] + tail;
    CueInContextIsCounted(cues, ws[0], "", tail);
  }

  /** For each positive cue, a part of it that no negative cue holds. */
  const PositiveParts: seq<string> := ["pp", "oo", "ea", "xc", "ov", "rf", "ma", "jo", "fa", "xc"]

  /** For each negative cue, a part of it that no positive cue holds. */
  const NegativeParts: seq<string> := ["sa", "ou", "ss", "ry", "rr", "ss", "up", "ir", "ly", "hu"]

  /** The cues are written in small letters, so lowercasing leaves them alone. */
  lemma CuesAreLowerCase()
    ensures forall i :: 0 <= i < |PositiveCues| ==> Lower(PositiveCues[i]) == PositiveCues[i]
    ensures forall i :: 0 <= i < |NegativeCues| ==> Lower(NegativeCues[i]) == NegativeCues[i]
  {
  }

  /** Each part is a pair of letters lying in its own cue. */
  lemma PartsLieInTheirCues()
    ensures forall i :: 0 <= i < |PositiveParts| ==> |PositiveParts[i]| == 2
    ensures forall i :: 0 <= i < |NegativeParts| ==> |NegativeParts[i]| == 2
    ensures forall i :: 0 <= i < 10 ==> !PairFreeFrom(PositiveCues[i], PositiveParts[i][0], PositiveParts[i][1], 0)
    ensures forall i :: 0 <= i < 10 ==> !PairFreeFrom(NegativeCues[i], NegativeParts[i][0], NegativeParts[i][1], 0)
  {
  }

  /** No negative cue holds a positive part. */
  lemma PositivePartsMissNegativeCues()
    ensures forall i, j :: 0 <= i < 10 && 0 <= j < 10 ==> PairFreeFrom(NegativeCues[j], PositiveParts[i][0], PositiveParts[i][1], 0)
  {
  }

  /** No positive cue holds a negative part. */
  lemma NegativePartsMissPositiveCues()
    ensures forall i, j :: 0 <= i < 10 && 0 <= j < 10 ==> PairFreeFrom(PositiveCues[j], NegativeParts[i][0], NegativeParts[i][1], 0)
  {
  }

  /** Every positive cue holds its part, and no negative cue holds any positive part. */
  lemma PositivePartsSeparate()
    ensures forall i :: 0 <= i < |PositiveCues| ==> Contains(PositiveCues[i], PositiveParts[i])
    ensures forall i, j :: 0 <= i < |PositiveParts| && 0 <= j < |NegativeCues| ==> !Contains(NegativeCues[j], PositiveParts[i])
  {
    forall i | 0 <= i < 10
      ensures Contains(PositiveCues[i], PositiveParts[i])
    {
      PartsLieInTheirCues();
      PairSearch(PositiveCues[i], PositiveParts[i]);
    }
    forall i, j | 0 <= i < 10 && 0 <= j < 10
      ensures !Contains(NegativeCues[j], PositiveParts[i])
    {
      PartsLieInTheirCues();
      PositivePartsMissNegativeCues();
      PairSearch(NegativeCues[j], PositiveParts[i]);
    }
  }

  /** Every negative cue holds its part, and no positive cue holds any negative part. */
  lemma NegativePartsSeparate()
    ensures forall i :: 0 <= i < |NegativeCues| ==> Contains(NegativeCues[i], NegativeParts[i])
    ensures forall i, j :: 0 <= i < |NegativeParts| && 0 <= j < |PositiveCues| ==> !Contains(PositiveCues[j], NegativeParts[i])
  {
    forall i | 0 <= i < 10
      ensures Contains(NegativeCues[i], NegativeParts[i])
    {
      PartsLieInTheirCues();
      PairSearch(NegativeCues[i], NegativeParts[i]);
    }
    forall i, j | 0 <= i < 10 && 0 <= j < 10
      ensures !Contains(PositiveCues[j], NegativeParts[i])
    {
      PartsLieInTheirCues();
      NegativePartsMissPositiveCues();
      PairSearch(PositiveCues[j], NegativeParts[i]);
    }
  }

  /** Spaced cues of one list are their own lowercase form, and the first of them is counted. */
  lemma JoinCountsItsList(cues: seq<string>, ws: seq<nat>)
    requires ws != [] && AreIndices(ws, |cues|)
    requires cues == PositiveCues || cues == NegativeCues
    ensures Lower(Join(cues, ws)) == Join(cues, ws)
    ensures CountPresent(cues, Lower(Join(cues, ws))) >= 1
  {
    CuesAreLowerCase();
    JoinIsLower(cues, ws);
    JoinHasFirstCue(cues, ws);
  }

  /** Spaced negative cues hold no positive cue. */
  lemma NegativeJoinMissesPositiveCues(ws: seq<nat>)
    requires ws != [] && AreIndices(ws, |NegativeCues|)
    ensures CountPresent(PositiveCues, Join(NegativeCues, ws)) == 0
  {
    var t := Join(NegativeCues, ws);
    PositivePartsSeparate();
    forall i | 0 <= i < |PositiveParts|
      ensures !Contains(t, PositiveParts[i])
    {
      JoinLacksPart(NegativeCues, ws, PositiveParts[i]);
    }
    NoCuePartFound(PositiveCues, PositiveParts, t);
  }

  /** Spaced positive cues hold no negative cue. */
  lemma PositiveJoinMissesNegativeCues(ws: seq<nat>)
    requires ws != [] && AreIndices(ws, |PositiveCues|)
    ensures CountPresent(NegativeCues, Join(PositiveCues, ws)) == 0
  {
    var t := Join(PositiveCues, ws);
    NegativePartsSeparate();
    forall i | 0 <= i < |NegativeParts|
      ensures !Contains(t, NegativeParts[i])
    {
      JoinLacksPart(PositiveCues, ws, NegativeParts[i]);
    }
    NoCuePartFound(NegativeCues, NegativeParts, t);
  }

  /** A message made only of negative cues, separated by spaces, is (negative, -0.5). */
  lemma OnlyNegativeCuesIsNegative(ws: seq<nat>)
    requires ws != [] && AreIndices(ws, |NegativeCues|)
    ensures DetectMood(Join(NegativeCues, ws)) == Detection(Negative, -0.5)
  {
    JoinCountsItsList(NegativeCues, ws);
    NegativeJoinMissesPositiveCues(ws);
  }

  /** A message made only of positive cues, separated by spaces, is (positive, 0.5). */
  lemma OnlyPositiveCuesIsPositive(ws: seq<nat>)
    requires ws != [] && AreIndices(ws, |PositiveCues|)
    ensures DetectMood(Join(PositiveCues, ws)) == Detection(Positive, 0.5)
  {
    JoinCountsItsList(PositiveCues, ws);
    PositiveJoinMissesNegativeCues(ws);
  }

  /** Each cue on its own is classified by its list. */
  lemma EachCueAlone()
    ensures forall i :: 0 <= i < |NegativeCues| ==> DetectMood(NegativeCues[i]) == Detection(Negative, -0.5)
    ensures forall i :: 0 <= i < |PositiveCues| ==> DetectMood(PositiveCues[i]) == Detection(Positive, 0.5)
  {
    forall i | 0 <= i < 10
      ensures DetectMood(NegativeCues[i]) == Detection(Negative, -0.5)
      ensures DetectMood(PositiveCues[i]) == Detection(Positive, 0.5)
    {
      OnlyNegativeCuesIsNegative([i]);
      OnlyPositiveCuesIsPositive([i]);
    }
  }
}
