# Stockbot paper-trading ledger, modelled in Dafny

Stockbot is a chat bot that keeps a paper-trading ledger. Users create named
portfolios with virtual cash and buy simulated stock positions at live market
prices. This project models the ledger core:

- the `create-portfolio` and `buy` commands, as pure transitions of a store
  (`Commands`);
- the arithmetic of a buy (`Ledger`). A buy debits the cash and either merges
  the purchase into the symbol's holding or appends a new holding;
- the two MongoDB collections, `users` and `portfolios`, as finite maps keyed
  by object id, with the repository's get-or-create, insert, replace-by-id,
  filter-by-owner and owner/name lookup (`Db`);
- upper-casing of ticker symbols (`Symbols`).

Conventions:

- Amounts are exact `real`s.
- Dates are abstract epoch numbers.
- The market quote is an `Option<real>` input, and the current time is a
  `real` input.
- Each command returns what it would reply together with the resulting store.
- Fresh object ids come from a counter `nextId` in the store. `Db.Valid` is
  the store's representation invariant: every document sits under its own
  id, and every id in use is below `nextId`. `Db.Empty` satisfies it, and
  every store operation and command requires it and re-establishes it. This
  is how the model expresses the uniqueness that `new ObjectId()` guarantees.
- `Db.UniqueHandles` says no two users share a chat handle. `Db.Empty`
  satisfies it, and get-or-create and both commands preserve it, because
  get-or-create inserts only when no user has the handle. In every store the
  commands reach, `findOne({ discordId })` therefore has at most one match.
  The model takes the match with the least id only so that the search is
  defined on arbitrary stores. MongoDB's natural order is unspecified, but
  the choice cannot matter in a reachable store.

The merge keeps the program's arithmetic, which departs from total-dollar
accounting in two places:

- A first buy stores the dollar total in `costBasis`, but a later buy reads
  `costBasis` back as a per-share price.
- The date average weights the old date by the already-incremented quantity.

Both are shown under "## Findings", each next to a corrected merge.

In several places a more careful ledger would behave differently. The model
follows the code as it is:

- A non-positive amount is not rejected.
- An update carries no version check, so it can overwrite a concurrent change.
- Get-or-create is check-then-insert, so handles stay unique only when
  requests do not interleave.
- `costBasis` mixes a dollar total with a per-share price, as described above.

## Model

| member | source | states |
|---|---|---|
| `Symbols.ToUpper` | src/commands.ts:168-170 | the symbol keeps its length, has no lower-case ASCII letter left, and every letter maps to its upper-case partner while every other character stays as it is |
| `Symbols.ToUpperIdempotent` | src/commands.ts:168-170 | upper-casing an already upper-cased symbol changes nothing |
| `Symbols.ToUpperFixesUpperCase` | src/commands.ts:168-170 | an upper-case symbol is its own upper-case form |
| `Ledger.Find` | src/commands.ts:204-206 | `find` returns the first position holding the symbol, and finds nothing exactly when no holding is in that symbol |
| `Ledger.Ratio` | src/commands.ts:209-221 | the two divisions of the merge: for a nonzero divisor the result times the divisor is the dividend |
| `Ledger.Without` | src/commands.ts:224-226 | no holding left by the filter is in the symbol, and the filter returns the holdings unchanged exactly when none of them is in the symbol |
| `Ledger.WithoutMembers` | src/commands.ts:224-226 | the filter keeps exactly the holdings in other symbols |
| `Ledger.Merge` | src/commands.ts:209-222 | the merged quantity is old plus bought; the new cost basis times the new quantity equals old quantity times stored cost basis plus the dollars spent (stored value read as per-share); the new date balances the old date weighted by the incremented quantity against `now` weighted by the bought quantity |
| `Ledger.ApplyBuy` | src/commands.ts:194-236 | cash drops by exactly the amount spent; id, name and owner are kept; the last holding is the bought symbol, whose quantity is the quantity held before plus value/price; the other holdings are exactly the old holdings in other symbols |
| `Ledger.Buy` | src/commands.ts:187-202 | a missing quote rejects with StockNotFound before the cash check, then cash below the amount rejects with InsufficientFunds; it succeeds exactly when a quote exists and cash covers the amount, and then cash afterwards is the old cash minus the amount and is never negative |
| `LedgerLemmas.BuyNewSymbol` | src/commands.ts:227-235 | buying a symbol not held appends exactly one holding, with quantity value/price, cost basis equal to the dollar total and date `now`, after the unchanged earlier holdings |
| `LedgerLemmas.WithoutAppend` | src/commands.ts:224-226 | the filter distributes over concatenation, so survivors keep their relative order |
| `LedgerLemmas.WithoutOnly` | src/commands.ts:224-226 | when only position i holds the symbol, the filter removes exactly position i |
| `LedgerLemmas.WithoutUnique` | src/commands.ts:224-226 | with unique symbols, filtering out a held symbol removes exactly its position |
| `LedgerLemmas.BuyExistingShape` | src/commands.ts:204-226 | with unique symbols, buying a held symbol moves the merged holding to the end, keeps every other holding with its value and relative order, and keeps the holding count |
| `LedgerLemmas.BuyPreservesUniqueSymbols` | src/commands.ts:204-235 | a buy keeps at most one holding per symbol |
| `LedgerLemmas.HeldAfterBuy` | src/commands.ts:195-212 | the quantity held in the symbol after a buy is the quantity before plus value/price |
| `LedgerLemmas.BuyQuantityCommutes` | src/commands.ts:195-212 | two buys of one symbol leave the same cash and the same quantity held in either order |
| `LedgerLemmas.MergeDateBetween` | src/commands.ts:214-222 | with positive quantities the averaged acquisition date lies between the old date and `now` |
| `LedgerLemmas.BuyKeepsQuantitiesPositive` | src/commands.ts:195-235 | buying a positive amount keeps every holding quantity positive |
| `Findings.CostBasisMixesUnits` | src/commands.ts:209-232 | $100 of AAPL at $50 then $50 at $25 leaves cash 850 and quantity 4 but a cost basis of 62.5, neither the dollar total 150 nor the average price 37.5 |
| `Findings.DateWeightsIncrementedQuantity` | src/commands.ts:212-222 | 2 shares dated 0 merged with 2 shares bought at 300 are dated 100, not the 150 that old-quantity weighting gives |
| `Findings.MergeCorrected` | src/commands.ts:209-222 | the corrected merge keeps the cost basis a dollar total (old plus spent), adds the quantities, and balances the old date weighted by the old quantity against `now` weighted by the bought quantity |
| `Findings.CorrectedMergeCommutes` | src/commands.ts:209-222 | with the corrected merge two purchases at one moment give the same holding in either order |
| `Findings.CorrectedExample` | src/commands.ts:209-222 | the corrected merge on the example gives quantity 4, cost basis 150 and the date halfway |
| `Db.FindUser` | src/db.ts:25 | the search returns the least id in range whose user has the handle, and returns nothing exactly when no user in range has it |
| `Db.GetUserByDiscordId` | src/db.ts:24-36 | if a user has the handle, it is returned (no smaller id has the handle) and the store is unchanged; otherwise a user with that handle, a fresh id and an empty portfolio index is inserted and returned, and nothing else changes |
| `Db.UpdateUser` | src/db.ts:38-40 | the user stored under the record's id is replaced, every other user and all portfolios are unchanged, and an unknown id changes nothing |
| `Db.CreatePortfolio` | src/db.ts:51-61 | exactly one portfolio is added, under an id not in use, with the given name, owner and cash and no holdings; users and existing portfolios are untouched |
| `Db.GetPortfolioById` | src/db.ts:63-67 | a portfolio is returned exactly when the id is stored, and it is the document under that id |
| `Db.UpdatePortfolio` | src/db.ts:87-92 | the portfolio under the document's id is replaced, every other portfolio and all users are unchanged, and an unknown id changes nothing |
| `Db.GetPortfolioByOwnerAndName` | src/db.ts:75-85 | the only store effect is the owner's get-or-create, after which the owner exists; a name missing from the owner's index gives nothing; otherwise the result is the stored portfolio under the indexed id, or nothing if that id is not stored |
| `Db.GetPortfoliosByOwner` | src/db.ts:69-73 | every returned portfolio is stored under its id and has that owner, every stored portfolio of that owner is returned, and ids strictly increase, so each appears once |
| `DbLemmas.GetUserIdempotent` | src/db.ts:24-36 | a second get-or-create with the same handle returns the same user and inserts nothing |
| `DbLemmas.GetUserKeepsUniqueHandles` | src/db.ts:24-36 | get-or-create keeps handles unique, and the user it returns is then the only user with that handle |
| `DbLemmas.UpdateUserKeepsUniqueHandles` | src/db.ts:38-40 | replacing a user record without changing its handle keeps handles unique |
| `DbLemmas.CreateThenGet` | src/db.ts:51-67 | a created portfolio is found under its id |
| `DbLemmas.UpdateThenGet` | src/db.ts:63-92 | after a replace the id holds the new document, and replacing twice is replacing once |
| `DbLemmas.CreateExtendsOwnerListing` | src/db.ts:51-73 | creating a portfolio adds its id to its owner's listing and to no one else's |
| `Commands.CreatePortfolio` | src/commands.ts:35-64 | the command is refused exactly when the name (default "Default") is already in the caller's index, and a refusal changes nothing; otherwise one portfolio with that name, the caller as owner, the cash (default 1000) and no holdings is inserted under a fresh id, the caller's index gains only name -> id, and other users are unchanged |
| `Commands.Buy` | src/commands.ts:165-243 | the guards fire in order: portfolio missing, then quote missing, then cash below the amount; a refusal persists no portfolio (only the owner's get-or-create); a success replaces just that portfolio with the upper-cased-symbol buy, replies with the quantity value/price, and leaves cash old minus value, never negative |
| `CommandsLemmas.CreateKeepsHoldingsWellFormed` | src/commands.ts:35-64 | creating a portfolio keeps every stored portfolio's holdings unique by symbol and upper-case |
| `CommandsLemmas.BuyKeepsHoldingsWellFormed` | src/commands.ts:168-238 | a buy keeps every stored portfolio's holdings unique by symbol and every holding symbol upper-case |
| `CommandsLemmas.CreateKeepsUniqueHandles` | src/commands.ts:35-64 | create-portfolio never gives two users the same handle |
| `CommandsLemmas.BuyKeepsUniqueHandles` | src/commands.ts:165-243 | buy never gives two users the same handle |
| `CommandsLemmas.CreateThenLookup` | src/db.ts:75-85 | after a successful create-portfolio (src/commands.ts:35-64), looking up the caller's portfolio by that name finds exactly the created portfolio |
| `CommandsLemmas.CreateTwiceRejected` | src/commands.ts:42-61 | creating a name the caller just created is refused, and the refusal leaves the store as it was |
| `CommandsLemmas.ExampleSession` | src/commands.ts:35-243 | from an empty store, a default portfolio gets 1000 cash; buying $100 of "aapl" at $50 gives one AAPL holding of 2 shares with cost basis 100 and 900 cash left; a further $1000 is refused for insufficient funds, and the store is unchanged |

## Left out

- Chat plumbing is not modelled because it is transport, not ledger logic: deferred replies, reply text and embeds, slash-command builders and registration (src/commands.ts:247-254), dispatch (src/commands.ts:256-277) and bot start-up (src/app.ts).
- `profile` and `view-portfolio` (src/commands.ts:67-138) are not modelled as commands. Their only effect on the store is a get-or-create that can insert a user record. `profile` calls `Db.GetUserByDiscordId` (src/commands.ts:83-84) for the caller or for the user named in its option. `view-portfolio` calls `Db.GetPortfolioByOwnerAndName` (src/commands.ts:116-118). Both of those preserve `Db.Valid` and `Db.UniqueHandles`. Everything else they do is rendering, which is not ledger logic: joining the index keys, `toLocaleString` and `toDateString`, and joining the holdings' Promises.
- The Yahoo Finance call is a foreign network call, so it is an `Option<real>` input. A quote whose `regularMarketPrice` is absent, and a lookup that throws instead of returning nothing, are not modelled. A present price is required to be positive.
- Floating point is not modelled: amounts are exact reals, so IEEE-754 rounding does not appear.
- `Ledger.Ratio` yields 0 for a zero divisor, where JavaScript yields Infinity or NaN. A merge divides by zero only when the quantities sum to zero, which needs a non-positive amount.
- `Date` and `toDateString` are replaced by abstract epoch numbers. The day truncation applied when a date is stored and parsed back is not modelled.
- The MongoDB client, connection and collection handles (src/db.ts:1-14, 95-112) are replaced by the map semantics. `Portfolio.fromDocument` and the `Portfolio` and `Holding` classes are not part of this model. A new portfolio is taken to start with no holdings, and `fromDocument` to return the stored document, or nothing for a missing one.
- The order of `getPortfoliosByOwner` results is an assumption. MongoDB leaves natural order unspecified; the model returns them by increasing id, which is insertion order.
- Concurrency is not modelled. Lost updates between separate read-modify-write requests, and duplicate users from the non-atomic get-or-create, cannot be expressed in a sequential model. The document `createdAt` timestamp carried by the object id is also left out.
- `Commands.CreatePortfolio`: checks a name only against the caller's own index entries. The program's `user.portfolios[name]` truthiness test also accepts names inherited from `Object.prototype`, such as "constructor" or "toString".
- `Db.GetPortfolioByOwnerAndName`: reads the owner's index as a map, so a name not entered there gives nothing. The program's `user.portfolios[name]` (src/db.ts:81-82) is a plain-object lookup. A name inherited from `Object.prototype`, such as "constructor", yields a function there, which passes the `!portfolioId` test and is passed to `getPortfolioById` as an id. The model does not cover that case, and so neither does the portfolio option of `Commands.Buy`, which the model refuses with `PortfolioNotFound` for such a name.
- `Symbols.ToUpper`: maps only ASCII letters. JavaScript's `toUpperCase` also maps other Unicode letters, and some of those change length.

## Findings

| source | as written | input that shows it | evidently intended | confidence | as-written member | corrected member |
|---|---|---|---|---|---|---|
| src/commands.ts:209-232 | a new holding stores the dollar total in `costBasis` (line 232), but the merge multiplies the stored value by the quantity as if it were a per-share price (lines 209-211) | $100 of AAPL at $50, then $50 at $25: cost basis 62.5 | cost basis stays a dollar total: 150 | high (not executed) | `Findings.CostBasisMixesUnits` | `Findings.MergeCorrected` |
| src/commands.ts:212-222 | the quantity is incremented (line 212) before the date average reads it (lines 218-221), so the old date is weighted by old plus bought shares | 2 shares dated 0, buy 2 more at time 300: date 100 | old date weighted by the 2 shares held before: 150 | medium (not executed) | `Findings.DateWeightsIncrementedQuantity` | `Findings.MergeCorrected` |

The command model (`Commands.Buy` through `Ledger.ApplyBuy`) keeps the
program's merge (`Ledger.Merge`) so that it describes what the bot does.
`Findings.MergeCorrected` is the corrected merge, and `Findings.CorrectedMergeCommutes`
and `Findings.CorrectedExample` are proved about it.
