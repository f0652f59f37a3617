/**
 * Two places where the buy merge departs from total-dollar accounting (the
 * cost basis is the dollars spent, and the old date is weighted by the
 * shares held before the purchase). Each is shown on concrete inputs,
 * next to the corrected merge with the intended properties proved about it.
 */
module Findings {
  import opened Types
  import opened Ledger

  /**
   * A first buy stores the dollar total as the cost basis, a second buy
   * reads it back as a per-share price: $100 of AAPL at $50, then $50 at
   * $25, ends with a cost basis of 62.5, which is neither the dollar total
   * (150) nor the average price per share (37.5).
   */
  lemma CostBasisMixesUnits()
    ensures var p0 := Portfolio(0, "Default", 0, 1000.0, []);
            var p1 := ApplyBuy(p0, "AAPL", 100.0, 50.0, 0.0);
            var p2 := ApplyBuy(p1, "AAPL", 50.0, 25.0, 0.0);
            && p1.cash == 900.0 && p1.holdings == [Holding("AAPL", 2.0, 100.0, 0.0)]
            && p2.cash == 850.0 && |p2.holdings| == 1
            && p2.holdings[0].quantity == 4.0
            && p2.holdings[0].costBasis == 62.5
            && p2.holdings[0].costBasis != 100.0 + 50.0
            && p2.holdings[0].costBasis != (100.0 + 50.0) / 4.0
  {

  }

  /**
   * The date average weights the old date by the already incremented
   * quantity: 2 shares dated 0 plus 2 shares bought at 300 are dated 100,
   * where weighting by the shares actually held before gives 150.
   */
  lemma DateWeightsIncrementedQuantity()
    ensures var m := Merge(Holding("AAPL", 2.0, 100.0, 0.0), 50.0, 2.0, 300.0);
            m.quantity == 4.0 && m.dateAcquired == 100.0
            && m.dateAcquired != (300.0 * 2.0 + 0.0 * 2.0) / (2.0 + 2.0)
  {
  }

  /**
   * The merge under total-dollar accounting: the cost basis stays a dollar
   * total and the new date is the average of the old date and `now`
   * weighted by the shares held before and the shares bought.
   */
  function MergeCorrected(h: Holding, value: real, quantity: real, now: real): (m: Holding)
    ensures m.symbol == h.symbol
    ensures m.quantity == h.quantity + quantity
    ensures m.costBasis == h.costBasis + value
    ensures h.quantity + quantity != 0.0 ==>
      (m.dateAcquired - h.dateAcquired) * h.quantity == (now - m.dateAcquired) * quantity
  {
    var date := Ratio(now * quantity + h.dateAcquired * h.quantity, quantity + h.quantity);
    Holding(h.symbol, h.quantity + quantity, h.costBasis + value, date)
  }

  /**
   * With the corrected merge, two purchases at the same moment give the
   * same holding in either order: same quantity, same dollar total, same
   * date.
   */
  lemma CorrectedMergeCommutes(h: Holding, v1: real, q1: real, v2: real, q2: real, now: real)
    requires h.quantity >= 0.0 && q1 > 0.0 && q2 > 0.0
    ensures MergeCorrected(MergeCorrected(h, v1, q1, now), v2, q2, now)
            == MergeCorrected(MergeCorrected(h, v2, q2, now), v1, q1, now)
  {

  }

  /** The corrected merge on the example above: quantity 4, total 150, and
      the date halfway between 0 and 300. */
  lemma CorrectedExample()
    ensures MergeCorrected(Holding("AAPL", 2.0, 100.0, 0.0), 50.0, 2.0, 300.0)
            == Holding("AAPL", 4.0, 150.0, 150.0)
  {
  }
}
