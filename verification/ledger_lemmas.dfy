/** Properties of the buy transition and of the program's merge arithmetic. */
module LedgerLemmas {
  import opened Optional
  import opened Types
  import opened Ledger

  /** A first purchase of a symbol appends exactly one holding, worth the
      dollar total, after the untouched earlier holdings. */
  lemma BuyNewSymbol(p: Portfolio, symbol: string, value: real, price: real, now: real)
    requires price > 0.0
    requires forall j :: 0 <= j < |p.holdings| ==> p.holdings[j].symbol != symbol
    ensures ApplyBuy(p, symbol, value, price, now).holdings
            == p.holdings + [Holding(symbol, value / price, value, now)]
  {
  }

  /** Filtering distributes over concatenation, so it keeps relative order. */
  lemma {:induction false} WithoutAppend(a: seq<Holding>, b: seq<Holding>, symbol: string)
    ensures Without(a + b, symbol) == Without(a, symbol) + Without(b, symbol)
  {
    if a == [] {
      assert a + b == b;
    } else {
      assert (a + b)[1..] == a[1..] + b;
      WithoutAppend(a[1..], b, symbol);
    }
  }

  /** When only position `i` holds `symbol`, filtering out `symbol`
      removes exactly position `i`. */
  lemma {:induction false} WithoutOnly(hs: seq<Holding>, symbol: string, i: nat)
    requires i < |hs| && hs[i].symbol == symbol
    requires forall j :: 0 <= j < |hs| && j != i ==> hs[j].symbol != symbol
    ensures Without(hs, symbol) == hs[..i] + hs[i + 1..]
  {
    var tail := hs[1..];
    assert forall j :: 0 <= j < |tail| ==> tail[j] == hs[j + 1];
    if i == 0 {
      assert forall j :: 0 <= j < |tail| ==> tail[j].symbol != symbol;
      assert Without(tail, symbol) == tail;
    } else {
      WithoutOnly(tail, symbol, i - 1);
      var before, after := tail[..i - 1], tail[i..];
      assert hs[..i] == [hs[0]] + before;
      assert hs[i + 1..] == after;
      calc {
        Without(hs, symbol);
        [hs[0]] + Without(tail, symbol);
        [hs[0]] + (before + after);
        ([hs[0]] + before) + after;
      }
    }
  }

  /** With unique symbols, filtering out the symbol at `i` removes exactly
      position `i`. */
  lemma WithoutUnique(hs: seq<Holding>, symbol: string, i: nat)
    requires UniqueSymbols(hs)
    requires i < |hs| && hs[i].symbol == symbol
    ensures Without(hs, symbol) == hs[..i] + hs[i + 1..]
  {
    WithoutOnly(hs, symbol, i);
  }

  /** Buying a held symbol, with unique symbols: the merged holding moves
      to the end, every other holding keeps its value and relative order,
      and the number of holdings is unchanged. */
  lemma BuyExistingShape(p: Portfolio, symbol: string, value: real, price: real, now: real, i: nat)
    requires price > 0.0
    requires UniqueSymbols(p.holdings)
    requires i < |p.holdings| && p.holdings[i].symbol == symbol
    ensures ApplyBuy(p, symbol, value, price, now).holdings
            == p.holdings[..i] + p.holdings[i + 1..] + [Merge(p.holdings[i], value, value / price, now)]
    ensures |ApplyBuy(p, symbol, value, price, now).holdings| == |p.holdings|
  {
    assert Find(p.holdings, symbol) == Some(i);
    WithoutUnique(p.holdings, symbol, i);
  }

  /** Appending a holding in a symbol nobody holds keeps symbols unique. */
  lemma AppendKeepsUnique(hs: seq<Holding>, h: Holding)
    requires UniqueSymbols(hs)
    requires forall g :: g in hs ==> g.symbol != h.symbol
    ensures UniqueSymbols(hs + [h])
  {

  }

  /** Removing one position keeps symbols unique, and no remaining
      holding is in the removed holding's symbol. */
  lemma RemoveKeepsUnique(hs: seq<Holding>, i: nat)
    requires UniqueSymbols(hs) && i < |hs|
    ensures UniqueSymbols(hs[..i] + hs[i + 1..])
    ensures forall g :: g in hs[..i] + hs[i + 1..] ==> g.symbol != hs[i].symbol
  {

  }

  /** Buying keeps at most one holding per symbol. */
  lemma BuyPreservesUniqueSymbols(p: Portfolio, symbol: string, value: real, price: real, now: real)
    requires price > 0.0
    requires UniqueSymbols(p.holdings)
    ensures UniqueSymbols(ApplyBuy(p, symbol, value, price, now).holdings)
  {
    var hs := p.holdings;
    match Find(hs, symbol)
    case None =>
      AppendKeepsUnique(hs, Holding(symbol, value / price, value, now));
    case Some(i) =>
      BuyExistingShape(p, symbol, value, price, now, i);
      RemoveKeepsUnique(hs, i);
      AppendKeepsUnique(hs[..i] + hs[i + 1..], Merge(hs[i], value, value / price, now));
  }

  /** The quantity held after a buy is the quantity held before plus the
      purchased quantity. */
  lemma HeldAfterBuy(p: Portfolio, symbol: string, value: real, price: real, now: real)
    requires price > 0.0
    ensures HeldQuantity(ApplyBuy(p, symbol, value, price, now).holdings, symbol)
            == HeldQuantity(p.holdings, symbol) + value / price
  {

  }

  /** Two buys of one symbol leave the same cash and the same quantity held
      whichever runs first. */
  lemma BuyQuantityCommutes(p: Portfolio, symbol: string, v1: real, price1: real, v2: real, price2: real, now: real)
    requires price1 > 0.0 && price2 > 0.0
    ensures var a := ApplyBuy(ApplyBuy(p, symbol, v1, price1, now), symbol, v2, price2, now);
            var b := ApplyBuy(ApplyBuy(p, symbol, v2, price2, now), symbol, v1, price1, now);
            a.cash == b.cash && HeldQuantity(a.holdings, symbol) == HeldQuantity(b.holdings, symbol)
  {
    var h, q1, q2 := HeldQuantity(p.holdings, symbol), v1 / price1, v2 / price2;
    var a1 := ApplyBuy(p, symbol, v1, price1, now);
    var b1 := ApplyBuy(p, symbol, v2, price2, now);
    var a := ApplyBuy(a1, symbol, v2, price2, now);
    var b := ApplyBuy(b1, symbol, v1, price1, now);
    HeldAfterBuy(p, symbol, v1, price1, now);
    HeldAfterBuy(a1, symbol, v2, price2, now);
    assert HeldQuantity(a.holdings, symbol) == h + q1 + q2;
    HeldAfterBuy(p, symbol, v2, price2, now);
    HeldAfterBuy(b1, symbol, v1, price1, now);
    assert HeldQuantity(b.holdings, symbol) == h + q2 + q1;
  }

  /** A weighted mean with non-negative weights lies between its points. */
  lemma WeightedMeanBetween(x: real, wx: real, y: real, wy: real)
    requires wx >= 0.0 && wy >= 0.0 && wx + wy > 0.0
    ensures var m := (x * wx + y * wy) / (wx + wy);
            (x <= y ==> x <= m <= y) && (y <= x ==> y <= m <= x)
  {
    var m := (x * wx + y * wy) / (wx + wy);
    var w := wx + wy;
    assert m * w == x * wx + y * wy;
    assert (m - x) * w == (y - x) * wy;
    assert (y - m) * w == (y - x) * wx;
    SignOfQuotient(m - x, w, (y - x) * wy);
    SignOfQuotient(y - m, w, (y - x) * wx);
    ProductSign(y - x, wy);
    ProductSign(y - x, wx);
  }

  /** Multiplying by a non-negative factor keeps the sign. */
  lemma ProductSign(a: real, w: real)
    requires w >= 0.0
    ensures (a >= 0.0 ==> a * w >= 0.0) && (a <= 0.0 ==> a * w <= 0.0)
  {
  }

  /** A product with a positive factor has the sign of the other factor. */
  lemma SignOfQuotient(a: real, w: real, c: real)
    requires w > 0.0 && a * w == c
    ensures (c >= 0.0 ==> a >= 0.0) && (c <= 0.0 ==> a <= 0.0)
  {

  }

  /** A merge with a positive purchase into a positive holding dates the
      result between the old acquisition date and `now`. */
  lemma MergeDateBetween(h: Holding, value: real, quantity: real, now: real)
    requires h.quantity > 0.0 && quantity > 0.0
    ensures var d := Merge(h, value, quantity, now).dateAcquired;
            (h.dateAcquired <= now ==> h.dateAcquired <= d <= now)
            && (now <= h.dateAcquired ==> now <= d <= h.dateAcquired)
  {
    var held := h.quantity + quantity;
    assert quantity + held > 0.0;
    WeightedMeanBetween(now, quantity, h.dateAcquired, held);
  }

  /** Buying a positive amount keeps every holding quantity positive. */
  lemma BuyKeepsQuantitiesPositive(p: Portfolio, symbol: string, value: real, price: real, now: real)
    requires price > 0.0 && value > 0.0
    requires forall j :: 0 <= j < |p.holdings| ==> p.holdings[j].quantity > 0.0
    ensures var r := ApplyBuy(p, symbol, value, price, now).holdings;
            forall j :: 0 <= j < |r| ==> r[j].quantity > 0.0
  {

  }
}
