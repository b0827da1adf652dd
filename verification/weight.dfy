/**
 * `formatWeight`, shared verbatim by the product detail page and the
 * checkout page: weights of a kilogram or more are shown in kilograms,
 * lighter ones as the gram count followed by " g".
 */
module WeightText {
  import opened Wrappers
  import opened Decimal

  /**
   * The label of a weight in grams. The kilogram text is
   * `(grams / 1000).toFixed(2) + " kg"`, a floating-point rendering that is
   * represented here only by the weight it shows.
   */
  datatype WeightLabel = Kilograms(grams: int) | Grams(text: string)

  function FormatWeight(grams: int): (r: WeightLabel)
    ensures r.Kilograms? <==> grams >= 1000
    ensures r.Kilograms? ==> r.grams == grams
  {
    if grams >= 1000 then Kilograms(grams) else Grams(IntToString(grams) + " g")
  }

  /** A gram label is the number unchanged: reading it back gives the weight, then " g" follows. */
  lemma GramLabelReadsBack(grams: int)
    requires grams < 1000
    ensures FormatWeight(grams).Grams?
    ensures ParseInt(FormatWeight(grams).text) == Some(grams)
    ensures var t := FormatWeight(grams).text; |t| >= 2 && t[|t| - 2..] == " g"
  {
    ParseIntToStringThen(grams, " g");
  }

  /** Distinct weights never share a gram label. */
  lemma GramLabelsDistinct(a: int, b: int)
    requires a < 1000 && b < 1000 && a != b
    ensures FormatWeight(a) != FormatWeight(b)
  {
    GramLabelReadsBack(a);
    GramLabelReadsBack(b);
  }
}
