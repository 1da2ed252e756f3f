/**
 * The finance application's stored state and the route handlers that read
 * and change it: register, buy, sell, the portfolio page (index), the sell
 * form's list of holdings and the transaction history.
 *
 * The users and transactions tables are in-memory sequences; a user's id is
 * the index of the user's row. Money is counted in integer cents. The quote
 * service is a parameter: a quote that fails is `None` (buy, sell) or a
 * symbol missing from the `quotes` map (index).
 */
module Finance {
  import opened Wrappers
  import opened Holdings

  /** A row of the users table. */
  datatype User = User(username: string, hash: string, cash: int)

  /** The messages the handlers stop with instead of redirecting. */
  datatype Error =
    | MissingSymbol
    | MissingShares
    | UnknownSymbol
    | InsufficientCash
    | MissingUsername
    | PasswordMismatch
    | UsernameTaken

  /** One line of the portfolio page. */
  datatype Position = Position(symbol: string, shares: int, currentPrice: int, total: int)

  /** The line for a holding at its current price: net shares times that price. */
  function PositionOf(row: HoldingRow, price: int): Position
  {
    Position(row.symbol, row.net, price, row.net * price)
  }

  /** What the portfolio page shows: the positions, their total value and the cash balance. */
  datatype Portfolio = Portfolio(positions: seq<Position>, stockTotal: int, cash: int)

  /** One line of the history page; `kind` is "Buy" or "Sell". */
  datatype HistoryRow = HistoryRow(symbol: string, shares: int, price: int, total: int, kind: string)

  /** The id of the user called `name`, looked up as `SELECT id FROM users WHERE username = ...`. */
  function IdOf(users: seq<User>, name: string): (r: Option<UserId>)
    ensures r.Some? ==> r.value < |users| && users[r.value].username == name
    ensures r.None? <==> forall i :: 0 <= i < |users| ==> users[i].username != name
  {
    if users == [] then None
    else if Last(users).username == name then Some(|users| - 1)
    else
      var r := IdOf(Init(users), name);
      assert forall i :: 0 <= i < |users| - 1 ==> users[i] == Init(users)[i];
      r
  }

  /** The sum of the totals of portfolio lines. */
  function StockTotal(positions: seq<Position>): int
  {
    if positions == [] then 0 else StockTotal(Init(positions)) + Last(positions).total
  }

  /** Summing the portfolio lines gives the value of the holdings at the same quotes. */
  lemma {:induction false} PortfolioValue(positions: seq<Position>, rows: seq<HoldingRow>, quotes: map<string, int>)
    requires Quoted(rows, quotes) && |positions| == |rows|
    requires forall k :: 0 <= k < |rows| ==> positions[k] == PositionOf(rows[k], quotes[rows[k].symbol])
    ensures StockTotal(positions) == Value(rows, quotes)
  {
    if rows != [] {
      var n := |rows| - 1;
      assert forall k :: 0 <= k < n ==> Init(rows)[k] == rows[k] && Init(positions)[k] == positions[k];
      PortfolioValue(Init(positions), Init(rows), quotes);
      assert Last(positions) == PositionOf(Last(rows), quotes[Last(rows).symbol]);
    }
  }

  /**
   * The second loop of the portfolio page: looks up each holding's current
   * price, values the holding at it and adds the value to the stock total.
   * It fails at the first holding without a quote.
   */
  method Valuate(held: seq<HoldingRow>, quotes: map<string, int>, cash: int) returns (r: Result<Portfolio, Error>)
    ensures r.Failure? <==> !Quoted(held, quotes)
    ensures r.Failure? ==> r.error == UnknownSymbol
    ensures r.Success? ==>
              && r.value.cash == cash
              && |r.value.positions| == |held|
              && (forall k :: 0 <= k < |held| ==>
                    r.value.positions[k] == PositionOf(held[k], quotes[held[k].symbol]))
              && r.value.stockTotal == Value(held, quotes)
  {
    var positions: seq<Position> := [];
    var stockTotal := 0;
    for i := 0 to |held|
      invariant forall k :: 0 <= k < i ==> held[k].symbol in quotes
      invariant |positions| == i
      invariant forall k :: 0 <= k < i ==> positions[k] == PositionOf(held[k], quotes[held[k].symbol])
      invariant stockTotal == StockTotal(positions)
    {
      if held[i].symbol !in quotes {
        return Failure(UnknownSymbol);
      }
      var position := PositionOf(held[i], quotes[held[i].symbol]);
      InitOfAppend(positions, position);
      positions := positions + [position];
      stockTotal := stockTotal + position.total;
    }
    PortfolioValue(positions, held, quotes);
    r := Success(Portfolio(positions, stockTotal, cash));
  }

  /** The history line of a transaction. */
  function HistoryRowOf(t: Tx): HistoryRow
  {
    HistoryRow(t.symbol, t.shares, t.price, t.shares * t.price, if t.shares > 0 then "Buy" else "Sell")
  }

  /** The sum of the totals of history rows. */
  function TotalOf(rows: seq<HistoryRow>): int
  {
    if rows == [] then 0 else TotalOf(Init(rows)) + Last(rows).total
  }

  /** The history totals add up to the cash the transactions cost. */
  lemma {:induction false} HistoryTotal(rows: seq<HistoryRow>, txs: seq<Tx>)
    requires |rows| == |txs|
    requires forall k :: 0 <= k < |rows| ==> rows[k] == HistoryRowOf(txs[k])
    ensures TotalOf(rows) == CashFlow(txs)
  {
    if rows != [] {
      var n := |rows| - 1;
      assert forall k :: 0 <= k < n ==> Init(rows)[k] == rows[k] && Init(txs)[k] == txs[k];
      HistoryTotal(Init(rows), Init(txs));
      assert Last(rows) == HistoryRowOf(Last(txs));
    }
  }

  /** No two users share a username (the UNIQUE constraint on the users table). */
  ghost predicate UniqueNames(users: seq<User>)
  {
    forall i, j :: 0 <= i < j < |users| ==> users[i].username != users[j].username
  }

  /** Every transaction belongs to one of the first `count` users. */
  ghost predicate OwnersRegistered(txs: seq<Tx>, count: nat)
  {
    forall k :: 0 <= k < |txs| ==> txs[k].user < count
  }

  /** Each user's cash is the starting cash minus what the user's transactions cost. */
  ghost predicate CashBalanced(users: seq<User>, txs: seq<Tx>, startingCash: int)
  {
    forall u :: 0 <= u < |users| ==> users[u].cash == startingCash - CashFlow(OwnedBy(txs, u))
  }

  /**
   * Usernames are unique, every transaction belongs to a registered user,
   * and each user's cash is the starting cash minus what the user's
   * transactions cost.
   */
  ghost predicate Consistent(users: seq<User>, txs: seq<Tx>, startingCash: int)
  {
    UniqueNames(users) && OwnersRegistered(txs, |users|) && CashBalanced(users, txs, startingCash)
  }

  /**
   * A trade keeps the books consistent: appending the row and taking its
   * cost from the trader's cash, together.
   */
  lemma {:induction false} TradeKeepsConsistent(users: seq<User>, txs: seq<Tx>, startingCash: int, t: Tx)
    requires Consistent(users, txs, startingCash) && t.user < |users|
    ensures Consistent(users[t.user := users[t.user].(cash := users[t.user].cash - t.price * t.shares)],
                       txs + [t], startingCash)
  {
    var users' := users[t.user := users[t.user].(cash := users[t.user].cash - t.price * t.shares)];
    var txs' := txs + [t];
    assert forall i :: 0 <= i < |users'| ==> users'[i].username == users[i].username;
    forall k | 0 <= k < |txs'| ensures txs'[k].user < |users'| {
      if k < |txs| {
        assert txs'[k] == txs[k];
      }
    }
    TradeKeepsBalance(users, txs, startingCash, t);
  }

  /** The cash part of TradeKeepsConsistent. */
  lemma {:induction false} TradeKeepsBalance(users: seq<User>, txs: seq<Tx>, startingCash: int, t: Tx)
    requires CashBalanced(users, txs, startingCash) && t.user < |users|
    ensures CashBalanced(users[t.user := users[t.user].(cash := users[t.user].cash - t.price * t.shares)],
                         txs + [t], startingCash)
  {
    var users' := users[t.user := users[t.user].(cash := users[t.user].cash - t.price * t.shares)];
    forall u | 0 <= u < |users'| ensures users'[u].cash == startingCash - CashFlow(OwnedBy(txs + [t], u)) {
      OwnedByAppend(txs, t, u);
      CashFlowAppend(OwnedBy(txs, u), t);
    }
  }

  class Ledger {
    /** The cash a new account starts with (a default of the users table). */
    const startingCash: int
    var users: seq<User>
    var txs: seq<Tx>

    /** The books are consistent: see Consistent. */
    ghost predicate Valid()
      reads this
    {
      Consistent(users, txs, startingCash)
    }

    constructor (startingCash: int)
      ensures Valid()
      ensures this.startingCash == startingCash && users == [] && txs == []
    {
      this.startingCash := startingCash;
      users := [];
      txs := [];
    }

    /**
     * Creates an account. An empty username is refused first; then a
     * confirmation that differs from the password; then a username that is
     * already taken (the insert fails). On success the new user's id is
     * returned.
     */
    method Register(username: string, password: string, confirmation: string, hasher: string -> string)
      returns (r: Result<UserId, Error>)
      requires Valid()
      modifies this
      ensures Valid()
      ensures txs == old(txs)
      ensures username == [] ==> r == Failure(MissingUsername)
      ensures username != [] && password != confirmation ==> r == Failure(PasswordMismatch)
      ensures username != [] && password == confirmation && IdOf(old(users), username).Some? ==>
                r == Failure(UsernameTaken)
      ensures r.Success? <==> username != [] && password == confirmation && IdOf(old(users), username).None?
      ensures r.Failure? ==> users == old(users)
      ensures r.Success? ==> users == old(users) + [User(username, hasher(password), startingCash)]
      ensures r.Success? ==> r.value == |old(users)| && IdOf(users, username) == Some(r.value)
    {
      if username == [] {
        return Failure(MissingUsername);
      }
      if password != confirmation {
        return Failure(PasswordMismatch);
      }
      if IdOf(users, username).Some? {
        return Failure(UsernameTaken);
      }
      var account := User(username, hasher(password), startingCash);
      ghost var before := users;
      users := users + [account];
      forall u | 0 <= u < |users| ensures users[u].cash == startingCash - CashFlow(OwnedBy(txs, u)) {
        if u == |before| {
          OwnedByNobody(txs, u);
        } else {
          assert users[u] == before[u];
        }
      }
      InitOfAppend(before, account);
      r := Success(IdOf(users, username).value);
    }

    /**
     * Appends the row (user, symbol, shares, price) and takes shares times
     * price from the user's cash: the two writes a trade makes.
     */
    method Record(user: UserId, symbol: string, shares: int, price: int)
      requires Valid() && user < |users|
      modifies this
      ensures Valid()
      ensures txs == old(txs) + [Tx(user, symbol, shares, price)]
      ensures users == old(users)[user := old(users)[user].(cash := old(users)[user].cash - price * shares)]
    {
      var t := Tx(user, symbol, shares, price);
      TradeKeepsConsistent(users, txs, startingCash, t);
      txs := txs + [t];
      users := users[user := users[user].(cash := users[user].cash - price * shares)];
    }

    /**
     * Buys `shares` shares of `symbol` at the quoted price. Only an empty
     * symbol, a zero share count, a failed quote and a cost above the cash
     * balance are refused; a negative share count is accepted.
     */
    method Buy(user: UserId, symbol: string, shares: int, quote: Option<int>) returns (r: Outcome<Error>)
      requires Valid() && user < |users|
      modifies this
      ensures Valid()
      ensures symbol == [] ==> r == Fail(MissingSymbol)
      ensures symbol != [] && shares == 0 ==> r == Fail(MissingShares)
      ensures symbol != [] && shares != 0 && quote.None? ==> r == Fail(UnknownSymbol)
      ensures symbol != [] && shares != 0 && quote.Some? && quote.value * shares > old(users[user].cash) ==>
                r == Fail(InsufficientCash)
      ensures r.Pass? <==>
                symbol != [] && shares != 0 && quote.Some? && quote.value * shares <= old(users[user].cash)
      ensures r.Fail? ==> users == old(users) && txs == old(txs)
      ensures r.Pass? ==> txs == old(txs) + [Tx(user, symbol, shares, quote.value)]
      ensures r.Pass? ==>
                users == old(users)[user := old(users)[user].(cash := old(users)[user].cash - quote.value * shares)]
      ensures r.Pass? ==> users[user].cash >= 0
    {
      if symbol == [] {
        return Fail(MissingSymbol);
      }
      if shares == 0 {
        return Fail(MissingShares);
      }
      if quote.None? {
        return Fail(UnknownSymbol);
      }
      var price := quote.value;
      var cash := users[user].cash;
      if price * shares > cash {
        return Fail(InsufficientCash);
      }
      Record(user, symbol, shares, price);
      r := Pass;
    }

    /**
     * Sells `shares` shares of `symbol` at the quoted price: records
     * -shares and adds the proceeds to cash. Neither the holding nor the
     * sign of `shares` is checked, so a holding can go negative.
     */
    method Sell(user: UserId, symbol: string, shares: int, quote: Option<int>) returns (r: Outcome<Error>)
      requires Valid() && user < |users|
      modifies this
      ensures Valid()
      ensures symbol == [] ==> r == Fail(MissingSymbol)
      ensures symbol != [] && shares == 0 ==> r == Fail(MissingShares)
      ensures symbol != [] && shares != 0 && quote.None? ==> r == Fail(UnknownSymbol)
      ensures r.Pass? <==> symbol != [] && shares != 0 && quote.Some?
      ensures r.Fail? ==> users == old(users) && txs == old(txs)
      ensures r.Pass? ==> txs == old(txs) + [Tx(user, symbol, -shares, quote.value)]
      ensures r.Pass? ==>
                users == old(users)[user := old(users)[user].(cash := old(users)[user].cash - quote.value * -shares)]
      ensures r.Pass? ==> users[user].cash == old(users[user].cash) + quote.value * shares
      ensures r.Pass? ==>
                Holding(OwnedBy(txs, user), symbol) == old(Holding(OwnedBy(txs, user), symbol)) - shares
    {
      if symbol == [] {
        return Fail(MissingSymbol);
      }
      if shares == 0 {
        return Fail(MissingShares);
      }
      if quote.None? {
        return Fail(UnknownSymbol);
      }
      var price := quote.value;
      HoldingOfOwner(txs, Tx(user, symbol, -shares, price));
      Record(user, symbol, -shares, price);
      assert price * -shares == -(price * shares);
      r := Pass;
    }

    /**
     * The portfolio page: the holdings whose net share count is not zero,
     * each valued at its current quote, their total, and the cash balance.
     * It fails when a listed symbol has no quote.
     */
    method Index(user: UserId, quotes: map<string, int>) returns (r: Result<Portfolio, Error>)
      requires user < |users|
      ensures r.Failure? <==> !Quoted(Held(OwnedBy(txs, user)), quotes)
      ensures r.Failure? ==> r.error == UnknownSymbol
      ensures r.Success? ==> r.value.cash == users[user].cash
      ensures r.Success? ==>
                var held := Held(OwnedBy(txs, user));
                && |r.value.positions| == |held|
                && (forall k :: 0 <= k < |held| ==>
                      r.value.positions[k] == PositionOf(held[k], quotes[held[k].symbol]))
                && r.value.stockTotal == Value(held, quotes)
    {
      var rows := Aggregate(OwnedBy(txs, user));
      var held := KeepNonZero(rows);
      r := Valuate(held, quotes, users[user].cash);
    }

    /**
     * The holdings offered on the sell form: exactly the symbols whose
     * holding is not zero, once each, with that holding.
     */
    method SellForm(user: UserId) returns (stocks: seq<HoldingRow>)
      ensures forall i, j :: 0 <= i < j < |stocks| ==> stocks[i].symbol != stocks[j].symbol
      ensures forall row: HoldingRow ::
                row in stocks <==> row.net == Holding(OwnedBy(txs, user), row.symbol) != 0
    {
      var rows := Aggregate(OwnedBy(txs, user));
      stocks := KeepNonZero(rows);
      HeldIsNonZeroHoldings(OwnedBy(txs, user));
    }

    /**
     * The history page: the user's transactions in insertion order, each
     * with its total (signed shares times price) and the label "Buy" for a
     * positive share count and "Sell" otherwise. The totals add up to what
     * the user's cash has gone down by.
     */
    method History(user: UserId) returns (rows: seq<HistoryRow>)
      requires Valid() && user < |users|
      ensures |rows| == |OwnedBy(txs, user)|
      ensures forall k :: 0 <= k < |rows| ==>
                var t := OwnedBy(txs, user)[k];
                && rows[k].symbol == t.symbol && rows[k].shares == t.shares && rows[k].price == t.price
                && rows[k].total == t.shares * t.price
                && rows[k].kind == (if t.shares > 0 then "Buy" else "Sell")
      ensures users[user].cash == startingCash - TotalOf(rows)
    {
      var owned := OwnedBy(txs, user);
      rows := [];
      for i := 0 to |owned|
        invariant |rows| == i
        invariant forall k :: 0 <= k < i ==> rows[k] == HistoryRowOf(owned[k])
      {
        rows := rows + [HistoryRowOf(owned[i])];
      }
      HistoryTotal(rows, owned);
    }
  }
}
