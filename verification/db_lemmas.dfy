/** Properties relating several store operations. */
module DbLemmas {
  import opened Optional
  import opened Types
  import opened Db

  /** Get-or-create is idempotent: a second call with the same handle
      returns the same user and inserts nothing. */
  lemma GetUserIdempotent(s: Store, discordId: string)
    requires Valid(s)
    ensures var (user, s1) := GetUserByDiscordId(s, discordId);
            GetUserByDiscordId(s1, discordId) == (user, s1)
  {

  }

  /** Get-or-create keeps handles unique, and with unique handles the
      user it returns is the only one with that handle, so which match
      `findOne` picks does not matter. */
  lemma GetUserKeepsUniqueHandles(s: Store, discordId: string)
    requires Valid(s) && UniqueHandles(s)
    ensures var (user, s1) := GetUserByDiscordId(s, discordId);
            && UniqueHandles(s1)
            && forall id :: id in s1.users && s1.users[id].discordId == discordId ==> id == user.id
  {
  }

  /** Replacing a user record without changing its handle keeps handles
      unique. */
  lemma UpdateUserKeepsUniqueHandles(s: Store, user: DbUser)
    requires Valid(s) && UniqueHandles(s)
    requires user.id in s.users ==> s.users[user.id].discordId == user.discordId
    ensures UniqueHandles(UpdateUser(s, user))
  {
  }

  /** A created portfolio is found under its id. */
  lemma CreateThenGet(s: Store, name: string, owner: Id, cash: real)
    requires Valid(s)
    ensures var (p, s1) := CreatePortfolio(s, name, owner, cash);
            GetPortfolioById(s1, p.id) == Some(p)
  {
  }

  /** After a replace, the id holds the new document; replacing twice is
      replacing once. */
  lemma UpdateThenGet(s: Store, p: Portfolio)
    requires Valid(s) && p.id in s.portfolios
    ensures GetPortfolioById(UpdatePortfolio(s, p), p.id) == Some(p)
    ensures UpdatePortfolio(UpdatePortfolio(s, p), p) == UpdatePortfolio(s, p)
  {
  }

  /** The ids of the portfolios whose owner is `owner`. */
  ghost function Owned(s: Store, owner: Id): set<Id> {
    set id | id in s.portfolios && s.portfolios[id].owner == owner
  }

  /** Creating a portfolio adds it to its owner's listing and to nobody
      else's. */
  lemma CreateExtendsOwnerListing(s: Store, name: string, owner: Id, cash: real, other: Id)
    requires Valid(s)
    ensures var (p, s1) := CreatePortfolio(s, name, owner, cash);
            && Owned(s1, owner) == Owned(s, owner) + {p.id}
            && (other != owner ==> Owned(s1, other) == Owned(s, other))
  {
  }
}
