/**
 * The buy transition of the paper-trading ledger, as a pure function of a
 * portfolio snapshot, a dollar amount, a quote and the current time.
 * The arithmetic is the program's own, including the two places where it
 * departs from total-dollar, old-quantity-weighted accounting.
 */
module Ledger {
  import opened Optional
  import opened Types

  /** Why a buy was refused, checked in this order. */
  datatype Rejection = PortfolioNotFound | StockNotFound | InsufficientFunds

  /** The outcome of the buy guards: the updated portfolio, or the refusal. */
  datatype Checked = Accepted(portfolio: Portfolio) | Refused(reason: Rejection)

  /** Division, except that a zero divisor gives 0 where JavaScript gives
      Infinity or NaN. */
  function Ratio(a: real, b: real): (r: real)
    ensures b != 0.0 ==> r * b == a
  {
    if b == 0.0 then 0.0 else a / b
  }

  /** At most one holding per symbol. */
  ghost predicate UniqueSymbols(hs: seq<Holding>) {
    forall i, j :: 0 <= i < j < |hs| ==> hs[i].symbol != hs[j].symbol
  }

  /** `holdings.find(h => h.symbol === symbol)`: the position of the first
      holding in `symbol`. */
  function Find(hs: seq<Holding>, symbol: string): (r: Option<nat>)
    ensures r.Some? ==> r.value < |hs| && hs[r.value].symbol == symbol
    ensures r.Some? ==> forall j :: 0 <= j < r.value ==> hs[j].symbol != symbol
    ensures r.None? <==> forall j :: 0 <= j < |hs| ==> hs[j].symbol != symbol
  {
    if hs == [] then None
    else if hs[0].symbol == symbol then Some(0)
    else match Find(hs[1..], symbol)
      case None => None
      case Some(i) => Some(i + 1)
  }

  /** The quantity held in `symbol`, 0 when nothing is held. */
  function HeldQuantity(hs: seq<Holding>, symbol: string): real {
    match Find(hs, symbol)
    case None => 0.0
    case Some(i) => hs[i].quantity
  }

  /** `holdings.filter(h => h.symbol !== symbol)`: no survivor is in
      `symbol`, and when nothing is in `symbol` nothing is dropped. */
  function Without(hs: seq<Holding>, symbol: string): (r: seq<Holding>)
    ensures forall k :: 0 <= k < |r| ==> r[k].symbol != symbol
    ensures (forall k :: 0 <= k < |hs| ==> hs[k].symbol != symbol) <==> r == hs
  {
    if hs == [] then []
    else (if hs[0].symbol == symbol then [] else [hs[0]]) + Without(hs[1..], symbol)
  }

  /** The filter keeps exactly the holdings in other symbols. */
  lemma {:induction false} WithoutMembers(hs: seq<Holding>, symbol: string)
    ensures forall h :: h in Without(hs, symbol) <==> h in hs && h.symbol != symbol
  {
    if hs != [] {
      WithoutMembers(hs[1..], symbol);
      assert hs == [hs[0]] + hs[1..];
    }
  }

  /**
   * The merge of a purchase of `quantity` shares for `value` dollars into
   * `h`, in the program's order: cost basis first (reading the stored cost
   * basis as a per-share price), then the quantity, then the date, whose
   * weights are the purchased quantity and the ALREADY INCREMENTED holding
   * quantity.
   */
  function Merge(h: Holding, value: real, quantity: real, now: real): (m: Holding)
    ensures m.symbol == h.symbol
    ensures m.quantity == h.quantity + quantity
    ensures h.quantity + quantity != 0.0 ==>
      m.costBasis * (h.quantity + quantity) == h.quantity * h.costBasis + value
    ensures quantity + m.quantity != 0.0 ==>
      (m.dateAcquired - h.dateAcquired) * m.quantity == (now - m.dateAcquired) * quantity
  {
    var costBasis := Ratio(h.quantity * h.costBasis + value, h.quantity + quantity);
    var held := h.quantity + quantity;
    var date := Ratio(now * quantity + h.dateAcquired * held, quantity + held);
    Holding(h.symbol, held, costBasis, date)
  }

  function Last<T>(s: seq<T>): T
    requires |s| > 0
  {
    s[|s| - 1]
  }

  /**
   * A buy that has passed its guards: cash is debited and the purchase is
   * merged into the symbol's holding, which moves to the end, or appended
   * as a new holding whose cost basis is the dollar total.
   */
  function ApplyBuy(p: Portfolio, symbol: string, value: real, price: real, now: real): (r: Portfolio)
    requires price > 0.0
    ensures r.id == p.id && r.name == p.name && r.owner == p.owner
    ensures r.cash == p.cash - value
    ensures |r.holdings| > 0 && Last(r.holdings).symbol == symbol
    ensures Last(r.holdings).quantity == HeldQuantity(p.holdings, symbol) + value / price
    ensures forall h :: h in r.holdings[..|r.holdings| - 1] <==> h in p.holdings && h.symbol != symbol
  {
    WithoutMembers(p.holdings, symbol);
    var quantity := value / price;
    var holdings := match Find(p.holdings, symbol)
      case None => p.holdings + [Holding(symbol, quantity, value, now)]
      case Some(i) => Without(p.holdings, symbol) + [Merge(p.holdings[i], value, quantity, now)];
    assert holdings[..|holdings| - 1] == if Find(p.holdings, symbol).None? then p.holdings else Without(p.holdings, symbol);
    p.(cash := p.cash - value, holdings := holdings)
  }

  /**
   * The buy guards after the portfolio has been found: an absent quote,
   * then insufficient cash. A quote, when present, is a positive price.
   */
  function Buy(p: Portfolio, symbol: string, value: real, quote: Option<real>, now: real): (r: Checked)
    requires quote.Some? ==> quote.value > 0.0
    ensures quote.None? ==> r == Refused(StockNotFound)
    ensures quote.Some? && p.cash < value ==> r == Refused(InsufficientFunds)
    ensures r.Accepted? <==> quote.Some? && p.cash >= value
    ensures r.Accepted? ==> r.portfolio.cash == p.cash - value && r.portfolio.cash >= 0.0
    ensures r.Accepted? ==> r.portfolio == ApplyBuy(p, symbol, value, quote.value, now)
  {
    match quote
    case None => Refused(StockNotFound)
    case Some(price) =>
      if p.cash < value then Refused(InsufficientFunds)
      else Accepted(ApplyBuy(p, symbol, value, price, now))
  }
}
