/**
 * The two document collections as finite maps keyed by object id. Users
 * are also looked up by their chat handle; portfolios by owner. Fresh
 * object ids come from a counter that every insertion advances, so an id
 * handed out is never in use.
 */
module Db {
  import opened Optional
  import opened Types

  datatype Store = Store(users: map<Id, DbUser>, portfolios: map<Id, Portfolio>, nextId: Id)

  /** The store's representation invariant: every document sits under its
      own id, and every id in use is below the next one handed out. */
  ghost predicate Valid(s: Store) {
    && (forall id :: id in s.users ==> id < s.nextId && s.users[id].id == id)
    && (forall id :: id in s.portfolios ==> id < s.nextId && s.portfolios[id].id == id)
  }

  /** No two user records carry the same chat handle. Get-or-create
      inserts only when the handle is missing, so every store the
      commands reach keeps it, and `findOne` then has one candidate. */
  ghost predicate UniqueHandles(s: Store) {
    forall i, j :: i in s.users && j in s.users && s.users[i].discordId == s.users[j].discordId ==> i == j
  }

  /** The store before any interaction. */
  function Empty(): (s: Store)
    ensures Valid(s) && UniqueHandles(s) && s.users == map[] && s.portfolios == map[]
  {
    Store(map[], map[], 0)
  }

  /** `findOne({ discordId })`: the user with that handle inserted first
      (least id) among ids in [from, bound). */
  function FindUser(users: map<Id, DbUser>, discordId: string, from: nat, bound: nat): (r: Option<Id>)
    decreases bound - from
    ensures r.Some? ==> from <= r.value < bound && r.value in users && users[r.value].discordId == discordId
    ensures r.Some? ==> forall id :: from <= id < r.value && id in users ==> users[id].discordId != discordId
    ensures r.None? <==> forall id :: from <= id < bound && id in users ==> users[id].discordId != discordId
  {
    if from >= bound then None
    else if from in users && users[from].discordId == discordId then Some(from)
    else FindUser(users, discordId, from + 1, bound)
  }

  /** Some user record carries this handle. */
  ghost predicate HasUser(s: Store, discordId: string) {
    exists id :: id in s.users && s.users[id].discordId == discordId
  }

  /**
   * `Users.getUserByDiscordId`: the existing user with that handle, store
   * unchanged; otherwise a new user with that handle and no portfolios,
   * inserted under a fresh id.
   */
  function GetUserByDiscordId(s: Store, discordId: string): (r: (DbUser, Store))
    requires Valid(s)
    ensures Valid(r.1)
    ensures r.0.discordId == discordId && r.0.id in r.1.users && r.1.users[r.0.id] == r.0
    ensures forall id :: id in r.1.users && id < r.0.id ==> r.1.users[id].discordId != discordId
    ensures r.1.portfolios == s.portfolios
    ensures HasUser(s, discordId) ==> r.1 == s
    ensures !HasUser(s, discordId) ==>
      && r.0.id !in s.users && r.0.id !in s.portfolios
      && r.0.portfolios == map[]
      && r.1.users == s.users[r.0.id := r.0]
  {
    match FindUser(s.users, discordId, 0, s.nextId)
    case Some(id) => (s.users[id], s)
    case None =>
      var user := DbUser(s.nextId, discordId, map[]);
      (user, s.(users := s.users[s.nextId := user], nextId := s.nextId + 1))
  }

  /** `Users.updateUser`: replaces the user stored under the record's id. */
  function UpdateUser(s: Store, user: DbUser): (r: Store)
    requires Valid(s)
    ensures Valid(r)
    ensures r.users.Keys == s.users.Keys && r.portfolios == s.portfolios
    ensures user.id in s.users ==> r.users[user.id] == user
    ensures forall id :: id in s.users && id != user.id ==> r.users[id] == s.users[id]
    ensures user.id !in s.users ==> r == s
  {
    if user.id in s.users then s.(users := s.users[user.id := user]) else s
  }

  /** `Portfolios.createPortfolio`: inserts a portfolio with no holdings
      under a fresh id and returns it. */
  function CreatePortfolio(s: Store, name: string, owner: Id, cash: real): (r: (Portfolio, Store))
    requires Valid(s)
    ensures Valid(r.1)
    ensures r.0.name == name && r.0.owner == owner && r.0.cash == cash && r.0.holdings == []
    ensures r.0.id !in s.portfolios && r.0.id !in s.users
    ensures r.1.portfolios == s.portfolios[r.0.id := r.0]
    ensures r.1.users == s.users
  {
    var portfolio := Portfolio(s.nextId, name, owner, cash, []);
    (portfolio, s.(portfolios := s.portfolios[s.nextId := portfolio], nextId := s.nextId + 1))
  }

  /** `Portfolios.getPortfolioById`. */
  function GetPortfolioById(s: Store, id: Id): (r: Option<Portfolio>)
    requires Valid(s)
    ensures r.Some? <==> id in s.portfolios
    ensures r.Some? ==> r.value.id == id && r.value == s.portfolios[id]
  {
    if id in s.portfolios then Some(s.portfolios[id]) else None
  }

  /** `Portfolios.updatePortfolio`: replaces the portfolio stored under
      the document's id. */
  function UpdatePortfolio(s: Store, p: Portfolio): (r: Store)
    requires Valid(s)
    ensures Valid(r)
    ensures r.portfolios.Keys == s.portfolios.Keys && r.users == s.users
    ensures p.id in s.portfolios ==> r.portfolios[p.id] == p
    ensures forall id :: id in s.portfolios && id != p.id ==> r.portfolios[id] == s.portfolios[id]
    ensures p.id !in s.portfolios ==> r == s
  {
    if p.id in s.portfolios then s.(portfolios := s.portfolios[p.id := p]) else s
  }

  /**
   * `Portfolios.getPortfolioByOwnerAndName`: resolves (and if need be
   * creates) the owner, looks the name up in the owner's index, and loads
   * the portfolio under the indexed id. There is always a user after the
   * first step, so the program's "no user" branch cannot be taken.
   */
  function GetPortfolioByOwnerAndName(s: Store, ownerDiscordId: string, name: string): (r: (Option<Portfolio>, Store))
    requires Valid(s)
    ensures Valid(r.1)
    ensures r.1 == GetUserByDiscordId(s, ownerDiscordId).1
    ensures HasUser(r.1, ownerDiscordId)
    ensures var user := GetUserByDiscordId(s, ownerDiscordId).0;
            && (name !in user.portfolios ==> r.0.None?)
            && (name in user.portfolios ==> (r.0.Some? <==> user.portfolios[name] in s.portfolios))
            && (r.0.Some? ==> r.0.value == s.portfolios[user.portfolios[name]] && r.0.value.id == user.portfolios[name])
  {
    var (user, s1) := GetUserByDiscordId(s, ownerDiscordId);
    if name !in user.portfolios then (None, s1)
    else (GetPortfolioById(s1, user.portfolios[name]), s1)
  }

  /**
   * `Portfolios.getPortfoliosByOwner`: the portfolios whose owner is
   * `owner`, in strictly increasing id (insertion) order, so each once.
   */
  method GetPortfoliosByOwner(s: Store, owner: Id) returns (r: seq<Portfolio>)
    requires Valid(s)
    ensures forall k :: 0 <= k < |r| ==> r[k].id in s.portfolios && s.portfolios[r[k].id] == r[k] && r[k].owner == owner
    ensures forall id :: id in s.portfolios && s.portfolios[id].owner == owner ==> s.portfolios[id] in r
    ensures forall j, k :: 0 <= j < k < |r| ==> r[j].id < r[k].id
  {
    r := [];
    var i := 0;
    while i < s.nextId
      invariant 0 <= i <= s.nextId
      invariant forall k :: 0 <= k < |r| ==> r[k].id in s.portfolios && s.portfolios[r[k].id] == r[k] && r[k].owner == owner
      invariant forall k :: 0 <= k < |r| ==> r[k].id < i
      invariant forall id :: id in s.portfolios && id < i && s.portfolios[id].owner == owner ==> s.portfolios[id] in r
      invariant forall j, k :: 0 <= j < k < |r| ==> r[j].id < r[k].id
    {
      if i in s.portfolios && s.portfolios[i].owner == owner {
        var r' := r + [s.portfolios[i]];
        assert forall k :: 0 <= k < |r| ==> r'[k] == r[k];
        r := r';
      }
      i := i + 1;
    }
  }
}
