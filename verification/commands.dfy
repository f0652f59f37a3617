/**
 * The create-portfolio and buy commands as transitions of the store. The
 * chat options arrive as optional values, the market quote as an optional
 * price and the clock as a number; replies are the returned outcomes.
 */
module Commands {
  import opened Optional
  import opened Types
  import Symbols
  import Ledger
  import Db

  /** The portfolio name used when the command gives none. */
  const DefaultName: string := "Default"

  /** The starting cash used when the command gives none. */
  const DefaultCash: real := 1000.0

  datatype CreateOutcome = Created(portfolio: Portfolio) | AlreadyExists

  /**
   * create-portfolio: resolve the caller, refuse a name already in the
   * caller's index, otherwise insert the portfolio and record
   * name -> id in the caller's index.
   */
  function CreatePortfolio(s: Db.Store, discordId: string, name: Option<string>, cash: Option<real>): (r: (CreateOutcome, Db.Store))
    requires Db.Valid(s)
    ensures Db.Valid(r.1)
    ensures var user := Db.GetUserByDiscordId(s, discordId).0;
            r.0.AlreadyExists? <==> name.OrDefault(DefaultName) in user.portfolios
    ensures r.0.AlreadyExists? ==> r.1 == s
    ensures r.0.Created? ==>
      var p := r.0.portfolio;
      var (user, s1) := Db.GetUserByDiscordId(s, discordId);
      && p.name == name.OrDefault(DefaultName) && p.owner == user.id
      && p.cash == cash.OrDefault(DefaultCash) && p.holdings == []
      && p.id !in s.portfolios
      && r.1.portfolios == s.portfolios[p.id := p]
      && r.1.users.Keys == s1.users.Keys
      && r.1.users[user.id] == user.(portfolios := user.portfolios[p.name := p.id])
      && forall id :: id in s.users && id != user.id ==> r.1.users[id] == s.users[id]
  {
    var (user, s1) := Db.GetUserByDiscordId(s, discordId);
    var n := name.OrDefault(DefaultName);
    if n in user.portfolios then
      (AlreadyExists, s1)
    else
      var (p, s2) := Db.CreatePortfolio(s1, n, user.id, cash.OrDefault(DefaultCash));
      var s3 := Db.UpdateUser(s2, user.(portfolios := user.portfolios[n := p.id]));
      (Created(p), s3)
  }

  /** What the buy command replies: the fill, or why it was refused. */
  datatype BuyOutcome =
    | Bought(symbol: string, quantity: real, price: real, value: real, cash: real)
    | Rejected(reason: Ledger.Rejection)

  /**
   * buy: upper-case the symbol, load the named portfolio (resolving the
   * caller on the way), then refuse on a missing portfolio, a missing
   * quote or too little cash, in that order; otherwise apply the purchase
   * and replace the stored portfolio.
   */
  function Buy(s: Db.Store, discordId: string, symbol: string, value: real, portfolioName: Option<string>,
               quote: Option<real>, now: real): (r: (BuyOutcome, Db.Store))
    requires Db.Valid(s)
    requires quote.Some? ==> quote.value > 0.0
    ensures Db.Valid(r.1)
    ensures var (found, s1) := Db.GetPortfolioByOwnerAndName(s, discordId, portfolioName.OrDefault(DefaultName));
      && (found.None? ==> r.0 == Rejected(Ledger.PortfolioNotFound))
      && (found.Some? && quote.None? ==> r.0 == Rejected(Ledger.StockNotFound))
      && (found.Some? && quote.Some? && found.value.cash < value ==> r.0 == Rejected(Ledger.InsufficientFunds))
      && (r.0.Bought? <==> found.Some? && quote.Some? && found.value.cash >= value)
      && (r.0.Rejected? ==> r.1 == s1)
      && (r.0.Bought? ==>
            var p := found.value;
            var p' := Ledger.ApplyBuy(p, Symbols.ToUpper(symbol), value, quote.value, now);
            && p.id in s.portfolios
            && r.1.portfolios == s.portfolios[p.id := p']
            && r.1.users == s1.users
            && r.0 == Bought(Symbols.ToUpper(symbol), value / quote.value, quote.value, value, p.cash - value)
            && r.0.cash >= 0.0)
    ensures r.0.Rejected? ==> r.1.portfolios == s.portfolios
  {
    var sym := Symbols.ToUpper(symbol);
    var (found, s1) := Db.GetPortfolioByOwnerAndName(s, discordId, portfolioName.OrDefault(DefaultName));
    match found
    case None => (Rejected(Ledger.PortfolioNotFound), s1)
    case Some(p) =>
      match Ledger.Buy(p, sym, value, quote, now)
      case Refused(reason) => (Rejected(reason), s1)
      case Accepted(p') =>
        (Bought(sym, value / quote.value, quote.value, value, p'.cash), Db.UpdatePortfolio(s1, p'))
  }
}
