/** The dashboard's work-readiness meter: the colour of the arc and the word under the
    number, each chosen from the score by the same three thresholds. */
module ReadinessMeter {
  const ExcellentFrom: int := 90
  const GoodFrom: int := 75
  const FairFrom: int := 60

  /** `getScoreColor(score)`: green, blue, yellow, red. */
  function ScoreColor(score: int): (c: string)
    ensures c == "#10b981" <==> score >= ExcellentFrom
    ensures c == "#3b82f6" <==> GoodFrom <= score < ExcellentFrom
    ensures c == "#f59e0b" <==> FairFrom <= score < GoodFrom
    ensures c == "#ef4444" <==> score < FairFrom
  {
    if score >= 90 then "#10b981"
    else if score >= 75 then "#3b82f6"
    else if score >= 60 then "#f59e0b"
    else "#ef4444"
  }

  /** `getScoreLabel(score)`. */
  function ScoreLabel(score: int): (l: string)
    ensures l == "Excellent" <==> score >= ExcellentFrom
    ensures l == "Good" <==> GoodFrom <= score < ExcellentFrom
    ensures l == "Fair" <==> FairFrom <= score < GoodFrom
    ensures l == "Needs Work" <==> score < FairFrom
  {
    if score >= 90 then "Excellent"
    else if score >= 75 then "Good"
    else if score >= 60 then "Fair"
    else "Needs Work"
  }

  /** Position of a label from worst (0) to best (3). */
  function LabelRank(l: string): nat
  {
    if l == "Excellent" then 3 else if l == "Good" then 2 else if l == "Fair" then 1 else 0
  }

  /** The colour is a function of the label: two scores with the same label get the same
      colour, and two scores with different labels get different colours. */
  lemma LabelAndColorAgree(s: int, t: int)
    ensures ScoreLabel(s) == ScoreLabel(t) <==> ScoreColor(s) == ScoreColor(t)
  {
  }

  /** A higher score never shows a worse label. */
  lemma LabelMonotone(s: int, t: int)
    requires s <= t
    ensures LabelRank(ScoreLabel(s)) <= LabelRank(ScoreLabel(t))
  {
  }
}
