/** Properties of the commands over whole sessions. */
module CommandsLemmas {
  import opened Optional
  import opened Types
  import Symbols
  import Ledger
  import Db
  import Commands
  import LedgerLemmas

  /** Every stored portfolio holds at most one holding per symbol, and
      every holding symbol is upper-case. */
  ghost predicate HoldingsWellFormed(s: Db.Store) {
    forall id :: id in s.portfolios ==>
      && Ledger.UniqueSymbols(s.portfolios[id].holdings)
      && forall j :: 0 <= j < |s.portfolios[id].holdings| ==> Symbols.IsUpperCase(s.portfolios[id].holdings[j].symbol)
  }

  /** Creating a portfolio keeps the holdings well formed. */
  lemma CreateKeepsHoldingsWellFormed(s: Db.Store, discordId: string, name: Option<string>, cash: Option<real>)
    requires Db.Valid(s) && HoldingsWellFormed(s)
    ensures HoldingsWellFormed(Commands.CreatePortfolio(s, discordId, name, cash).1)
  {
  }

  /** Buying keeps the holdings well formed: the written symbol is
      upper-cased and merged into its holding rather than repeated. */
  lemma BuyKeepsHoldingsWellFormed(s: Db.Store, discordId: string, symbol: string, value: real,
                                   portfolioName: Option<string>, quote: Option<real>, now: real)
    requires Db.Valid(s) && HoldingsWellFormed(s)
    requires quote.Some? ==> quote.value > 0.0
    ensures HoldingsWellFormed(Commands.Buy(s, discordId, symbol, value, portfolioName, quote, now).1)
  {
    var (outcome, s') := Commands.Buy(s, discordId, symbol, value, portfolioName, quote, now);
    if outcome.Bought? {
      var (found, s1) := Db.GetPortfolioByOwnerAndName(s, discordId, portfolioName.OrDefault(Commands.DefaultName));
      var p := found.value;
      var sym := Symbols.ToUpper(symbol);
      var p' := Ledger.ApplyBuy(p, sym, value, quote.value, now);
      LedgerLemmas.BuyPreservesUniqueSymbols(p, sym, value, quote.value, now);
      forall id | id in s'.portfolios
        ensures Ledger.UniqueSymbols(s'.portfolios[id].holdings)
        ensures forall j :: 0 <= j < |s'.portfolios[id].holdings| ==> Symbols.IsUpperCase(s'.portfolios[id].holdings[j].symbol)
      {
        if id == p.id {
          var hs := p'.holdings;
          forall j | 0 <= j < |hs|
            ensures Symbols.IsUpperCase(hs[j].symbol)
          {
            if j < |hs| - 1 {
              assert hs[j] in hs[..|hs| - 1];
              assert hs[j] in p.holdings;
            }
          }
        }
      }
    }
  }

  /** Creating a portfolio keeps user handles unique. */
  lemma CreateKeepsUniqueHandles(s: Db.Store, discordId: string, name: Option<string>, cash: Option<real>)
    requires Db.Valid(s) && Db.UniqueHandles(s)
    ensures Db.UniqueHandles(Commands.CreatePortfolio(s, discordId, name, cash).1)
  {
  }

  /** Buying keeps user handles unique. */
  lemma BuyKeepsUniqueHandles(s: Db.Store, discordId: string, symbol: string, value: real,
                              portfolioName: Option<string>, quote: Option<real>, now: real)
    requires Db.Valid(s) && Db.UniqueHandles(s)
    requires quote.Some? ==> quote.value > 0.0
    ensures Db.UniqueHandles(Commands.Buy(s, discordId, symbol, value, portfolioName, quote, now).1)
  {
  }

  /** A name that was just created is refused the second time, and the
      refusal changes nothing. */
  lemma CreateTwiceRejected(s: Db.Store, discordId: string, name: Option<string>, c1: Option<real>, c2: Option<real>)
    requires Db.Valid(s)
    requires Commands.CreatePortfolio(s, discordId, name, c1).0.Created?
    ensures var s1 := Commands.CreatePortfolio(s, discordId, name, c1).1;
            Commands.CreatePortfolio(s1, discordId, name, c2) == (Commands.AlreadyExists, s1)
  {
    var (o, s1) := Commands.CreatePortfolio(s, discordId, name, c1);
    var (user, s0) := Db.GetUserByDiscordId(s, discordId);
    var (again, s2) := Db.GetUserByDiscordId(s1, discordId);
    assert user.id in s1.users && s1.users[user.id].discordId == discordId;
    assert again.id == user.id;
  }

  /** A portfolio just created is what the owner/name lookup then finds. */
  lemma CreateThenLookup(s: Db.Store, discordId: string, name: Option<string>, cash: Option<real>)
    requires Db.Valid(s)
    requires Commands.CreatePortfolio(s, discordId, name, cash).0.Created?
    ensures var (o, s1) := Commands.CreatePortfolio(s, discordId, name, cash);
            Db.GetPortfolioByOwnerAndName(s1, discordId, name.OrDefault(Commands.DefaultName)).0 == Some(o.portfolio)
  {
  }

  /**
   * A session from the empty store: "alice" creates the default
   * portfolio with the default cash, buys $100 of "aapl" at $50, then
   * asks for $1000 more and is refused for want of cash.
   */
  lemma ExampleSession()
    ensures var (created, s1) := Commands.CreatePortfolio(Db.Empty(), "alice", None, None);
            var (bought, s2) := Commands.Buy(s1, "alice", "aapl", 100.0, None, Some(50.0), 7.0);
            var (refused, s3) := Commands.Buy(s2, "alice", "aapl", 1000.0, None, Some(50.0), 8.0);
            && created.Created?
            && created.portfolio.name == "Default" && created.portfolio.cash == 1000.0
            && bought == Commands.Bought("AAPL", 2.0, 50.0, 100.0, 900.0)
            && s2.portfolios[created.portfolio.id].holdings == [Holding("AAPL", 2.0, 100.0, 7.0)]
            && refused == Commands.Rejected(Ledger.InsufficientFunds)
            && s3 == s2
  {
    var (created, s1) := Commands.CreatePortfolio(Db.Empty(), "alice", None, None);
    assert Symbols.ToUpper("aapl") == "AAPL";
    var (bought, s2) := Commands.Buy(s1, "alice", "aapl", 100.0, None, Some(50.0), 7.0);
  }
}
