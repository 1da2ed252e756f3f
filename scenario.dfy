/**
 * Worked runs of the ledger: a purchase followed by a partial sale, a
 * purchase that spends the balance exactly, and a sale of shares never
 * bought.
 */
module Scenarios {
  import opened Wrappers
  import opened Holdings
  import opened Finance

  /** Stands in for the password hashing primitive. */
  function Hasher(password: string): string
  {
    "hash:" + password
  }

  /** A ledger whose only account is `name`'s, opened with 10000.00. */
  method OpenAccount(name: string, password: string) returns (ledger: Ledger)
    requires name != []
    ensures fresh(ledger) && ledger.Valid() && ledger.startingCash == 1000000
    ensures ledger.users == [User(name, Hasher(password), 1000000)] && ledger.txs == []
  {
    ledger := new Ledger(1000000);
    var id := ledger.Register(name, password, password, Hasher);
    assert [] + [User(name, Hasher(password), 1000000)] == [User(name, Hasher(password), 1000000)];
  }

  /**
   * From 10000.00: buy 10 AAPL at 150.00, then sell 4 at 160.00. Returns
   * the ledger afterwards and the cash balance between the two trades.
   */
  method TradeAapl() returns (ledger: Ledger, afterBuy: int)
    ensures fresh(ledger) && ledger.Valid() && ledger.startingCash == 1000000
    ensures ledger.users == [User("alice", Hasher("secret"), 914000)]
    ensures ledger.txs == [Tx(0, "AAPL", 10, 15000)] + [Tx(0, "AAPL", -4, 16000)]
    ensures afterBuy == 850000
  {
    ledger := OpenAccount("alice", "secret");
    BuyAapl(ledger);
    afterBuy := ledger.users[0].cash;
    SellAapl(ledger);
  }

  /** Alice's purchase: 10 AAPL at 150.00 from 10000.00 is accepted. */
  method BuyAapl(ledger: Ledger)
    requires ledger.Valid() && ledger.startingCash == 1000000
    requires ledger.users == [User("alice", Hasher("secret"), 1000000)] && ledger.txs == []
    modifies ledger
    ensures ledger.Valid()
    ensures ledger.users == [User("alice", Hasher("secret"), 850000)]
    ensures ledger.txs == [Tx(0, "AAPL", 10, 15000)]
  {
    var bought := ledger.Buy(0, "AAPL", 10, Some(15000));
    assert bought == Pass;
  }

  /** Alice's sale: 4 AAPL at 160.00 is accepted and credits 640.00. */
  method SellAapl(ledger: Ledger)
    requires ledger.Valid() && ledger.startingCash == 1000000
    requires ledger.users == [User("alice", Hasher("secret"), 850000)]
    requires ledger.txs == [Tx(0, "AAPL", 10, 15000)]
    modifies ledger
    ensures ledger.Valid()
    ensures ledger.users == [User("alice", Hasher("secret"), 914000)]
    ensures ledger.txs == [Tx(0, "AAPL", 10, 15000)] + [Tx(0, "AAPL", -4, 16000)]
  {
    var sold := ledger.Sell(0, "AAPL", 4, Some(16000));
    assert sold == Pass;
  }

  /**
   * The run of TradeAapl: cash goes to 8500.00 and then 9140.00, 6 shares
   * remain, and the history shows a "Buy" row of 1500.00 and a "Sell" row
   * of -640.00 (a sale's total is negative, since its share count is).
   */
  method BuyThenSell() returns (afterBuy: int, afterSell: int, held: int, history: seq<HistoryRow>)
    ensures afterBuy == 850000 && afterSell == 914000 && held == 6
    ensures history == [HistoryRow("AAPL", 10, 15000, 150000, "Buy"),
                        HistoryRow("AAPL", -4, 16000, -64000, "Sell")]
  {
    var ledger;
    ledger, afterBuy := TradeAapl();
    afterSell := ledger.users[0].cash;
    AaplRows();
    held := Holding(OwnedBy(ledger.txs, 0), "AAPL");
    history := ledger.History(0);
  }

  /** The rows of the first run, seen from user 0. */
  lemma {:induction false} AaplRows()
    ensures var txs := [Tx(0, "AAPL", 10, 15000)] + [Tx(0, "AAPL", -4, 16000)];
            OwnedBy(txs, 0) == txs && Holding(txs, "AAPL") == 6
  {
    var t1, t2 := Tx(0, "AAPL", 10, 15000), Tx(0, "AAPL", -4, 16000);
    OwnedByAppend([], t1, 0);
    OwnedByAppend([t1], t2, 0);
    assert [] + [t1] == [t1];
    HoldingAppend([], t1, "AAPL");
    HoldingAppend([t1], t2, "AAPL");
  }

  /**
   * From 10000.00: a purchase costing exactly the balance is accepted and
   * leaves 0; one more share is then refused for lack of cash; a second
   * registration under the same name is refused.
   */
  method SpendEverything() returns (exact: Outcome<Error>, left: int, further: Outcome<Error>, again: Result<UserId, Error>)
    ensures exact == Pass && left == 0
    ensures further == Fail(InsufficientCash)
    ensures again == Failure(UsernameTaken)
  {
    var ledger := OpenAccount("bob", "pw");
    var user := 0;
    exact := ledger.Buy(user, "MSFT", 100, Some(10000));
    left := ledger.users[user].cash;
    further := ledger.Buy(user, "MSFT", 1, Some(10000));
    again := ledger.Register("bob", "other", "other", Hasher);
  }

  /**
   * Selling 5 shares of a symbol never bought is accepted: the holding
   * becomes -5 and the proceeds are added to cash.
   */
  method SellUnheld() returns (outcome: Outcome<Error>, cash: int, holding: int)
    ensures outcome == Pass && cash == 1050000 && holding == -5
  {
    var ledger := OpenAccount("carol", "pw");
    var user := 0;
    outcome := ledger.Sell(user, "IBM", 5, Some(10000));
    cash := ledger.users[user].cash;
    OwnedByAppend([], Tx(user, "IBM", -5, 10000), user);
    HoldingAppend([], Tx(user, "IBM", -5, 10000), "IBM");
    holding := Holding(OwnedBy(ledger.txs, user), "IBM");
  }
}
