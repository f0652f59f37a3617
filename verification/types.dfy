/**
 * The ledger's persisted records: holdings inside portfolios, portfolios
 * owned by users. Identifiers stand for MongoDB object ids; amounts are
 * exact reals and dates are abstract epoch numbers.
 */
module Types {

  /** An object id. Fresh ids come from the store's counter. */
  type Id = nat

  /** A position in one ticker symbol. `costBasis` is written as a dollar
      total by a first purchase and read back as a per-share price by a
      later one. */
  datatype Holding = Holding(symbol: string, quantity: real, costBasis: real, dateAcquired: real)

  /** A named account of cash and holdings, back-referencing its owner. */
  datatype Portfolio = Portfolio(id: Id, name: string, owner: Id, cash: real, holdings: seq<Holding>)

  /** A user record: the chat platform's handle and the user's
      portfolio-name to portfolio-id index. */
  datatype DbUser = DbUser(id: Id, discordId: string, portfolios: map<string, Id>)
}
