/** The shape of what `Predict` writes for one input line. */
module Scoring {
  import opened Text
  import opened NGramTables
  import opened Estimator

  /** One output line. The average and the sum of the log-probabilities are
      floating-point functions of `estimates`, and the window count is
      |estimates|; they are not computed here. */
  datatype LineScore =
    | Degenerate(text: string)                         // "0.000000<TAB>text"
    | Scored(estimates: seq<Estimate>, text: string)   // "avg<TAB>sum<TAB>count<TAB>text"

  /** The score of one line: the normalised text, and either the two-field
      degenerate result or the estimate of every window of the largest size. */
  ghost function ScoreLine(ms: TableSet, line: string): (r: LineScore)
    ensures r.text == ProcessLine(line)
    ensures r.Degenerate? <==> |ProcessLine(line)| < MaxKey(ms.Keys)
    ensures r.Scored? ==>
      && |r.estimates| == |r.text| - MaxKey(ms.Keys) + 1
      && forall i :: 0 <= i < |r.estimates| ==> r.estimates[i] == Backoff(ms, r.text[i..i + MaxKey(ms.Keys)])
  {
    var text := ProcessLine(line);
    var keys := Windows(text, MaxKey(ms.Keys));
    if |keys| == 0 then Degenerate(text)
    else Scored(seq(|keys|, i requires 0 <= i < |keys| => Backoff(ms, keys[i])), text)
  }

  /** With a set built by NewModels(n), a line is degenerate exactly when its
      normalised form is shorter than n; otherwise it has one estimate per
      window of length n. */
  lemma ScoreLineOrder(ms: TableSet, n: int, line: string)
    requires ms.Keys == Initial(n).Keys && n >= 1
    ensures ScoreLine(ms, line).Degenerate? <==> |ProcessLine(line)| < n
    ensures ScoreLine(ms, line).Scored? ==> |ScoreLine(ms, line).estimates| == |ProcessLine(line)| - n + 1
  {
    InitialShape(n);
    assert ms.Keys == Initial(n).Keys;
  }

  /** With no models the largest size is 0, so no line is degenerate: every
      line yields one empty window more than it has characters, each scored
      −∞. */
  lemma ScoreLineWithoutModels(line: string)
    ensures ScoreLine(map[], line) == Scored(seq(|ProcessLine(line)| + 1, i => NegInf), ProcessLine(line))
  {
  }
}
