# Portfolio ledger of cs50-finance

A model of the accounting core of the cs50-finance stock-trading simulator
(`application.py`). Users register and start with a cash balance. They buy
and sell shares at quoted prices. They see their portfolio and their
transaction history. Underneath the web handlers sits a small ledger:

- a users table: username, password hash and cash balance;
- an append-only transactions table: owner, symbol, **signed** share count
  (positive for a purchase, negative for a sale) and execution price;
- derived views: the per-symbol net holding (`SUM(num_shares) ... GROUP BY
  symbol`), the holdings with a non-zero net, their value at current quotes,
  and the history with a per-row total and a "Buy"/"Sell" label.

Files:

- `wrappers.dfy` — `Option`, `Result` and `Outcome`, the handlers' error returns.
- `holdings.dfy` (module `Holdings`) — the transaction row and the pure views
  over a sequence of rows. It also holds the proofs that grouping by symbol
  and dropping net-zero rows keep every holding, and that the portfolio
  total equals the whole ledger replayed at today's prices. The loop that
  keeps the non-zero rows is here too.
- `ledger.dfy` (module `Finance`) — class `Ledger` with the two tables as
  fields. `Register`, `Buy` and `Sell` change them. `Index`, `SellForm` and
  `History` are the read-only handlers with their loops. The class invariant
  `Valid()` (the predicate `Consistent` on the two tables) keeps usernames unique and keeps every transaction owned by a
  registered user. It also keeps, for every user, cash = starting cash −
  Σ(signed shares × price) over that user's transactions. `Buy` and `Sell`
  preserve it.
- `scenario.dfy` (module `Scenarios`) — worked runs: buy then sell, spending
  the balance exactly, and selling shares never bought.

Modelling choices:

- Money is integer cents. The source uses Python floats.
- A user's id is the index of the user's row. The database's ids start at 1.
- The quote service is a parameter. Buy and sell take an `Option<int>`
  price, and `None` is an unknown symbol. The portfolio takes a
  `map<string, int>`, and a missing key is an unknown symbol. In the source,
  an unknown symbol makes `stock["price"]` raise, and the request fails with
  no write. The model returns `UnknownSymbol` and leaves the state as it was.
- The password hashing primitive is a function parameter (`hasher`).
- The starting cash is a database default that the code does not show. It is
  the constructor's parameter.

The model follows the code as written:

- Buy and sell refuse only a zero share count (`not num_shares`), not a
  negative one. A negative purchase is accepted when its (negative) cost does
  not exceed cash. A negative sale is accepted unconditionally.
- Sell checks neither the holding nor the cash. A holding can go negative
  (`Scenarios.SellUnheld`).
- A sale's history total is signed shares × price, so it is negative
  (−640.00 in the worked run).
- The history query has no `ORDER BY`. Rows come in insertion order.
  Timestamps are not modelled.
- A trade is two separate statements (insert, then update cash). The model
  performs both together; see "Left out".

## Model

| member | source | states |
|---|---|---|
| Holdings.OwnedBy | application.py:88 | the `WHERE user_id = …` filter: a transaction is among a user's rows exactly when that user owns it; the definition keeps the rows in insertion order |
| Holdings.Holding | application.py:41 | the `SUM(num_shares)` of one symbol: the sum of the signed share counts of that symbol's rows (0 when there are none, see HoldingUntraded) |
| Holdings.HoldingUntraded | application.py:41 | a symbol with no rows has holding 0 |
| Holdings.Symbols | application.py:41 | the grouping keys are distinct and are exactly the traded symbols |
| Holdings.RowsForAt | application.py:41 | the k-th grouped row carries the k-th symbol and that symbol's summed share count |
| Holdings.Aggregate | application.py:41 | the GROUP BY result has one row per traded symbol and no other rows, and each row carries the sum of that symbol's signed share counts |
| Holdings.NonZero | application.py:42-45 | a row is kept exactly when it is an input row with a non-zero net |
| Holdings.KeepNonZero | application.py:196-198 | the filtering loop returns exactly the non-zero rows in their original order |
| Holdings.HeldIsNonZeroHoldings | application.py:194-198 | a symbol is listed exactly when its holding is non-zero, once, with that holding; fully unwound positions are excluded |
| Holdings.MarkToMarket | application.py:46-51 | the stock total of the listed holdings equals Σ(signed shares × current price) over all the user's transactions |
| Holdings.ValueOfRows | application.py:41 | grouping by any distinct list of symbols that covers the ledger loses no value |
| Holdings.ValueShift | application.py:41 | one more transaction moves the grouped value by exactly that transaction's shares × quote |
| Finance.IdOf | application.py:180 | the lookup by username finds a user with that name, and it finds none exactly when no user has that name |
| Finance.PortfolioValue | application.py:47-51 | the running stock total equals the value of the listed holdings at the quotes used |
| Finance.PositionOf | application.py:49-50 | one portfolio row: the symbol and net count of a grouped row, its current price, and net × price as its total |
| Finance.Valuate | application.py:46-51 | the valuation loop fails exactly when some listed symbol has no quote; otherwise each position is its row with the current price and net × price, and the running total equals the value of the rows |
| Finance.HistoryTotal | application.py:89-90 | the history totals sum to the cash the user's transactions cost |
| Finance.HistoryRowOf | application.py:90-94 | one history row: the transaction's symbol, signed count and price, total = signed count × price, and the label "Buy" when the count is positive and "Sell" otherwise |
| Finance.Consistent | application.py:76-79 | the ledger invariant: usernames are unique, every transaction belongs to a registered user, and each user's cash is the starting cash minus Σ(signed shares × price) over that user's transactions (the running effect of the cash updates at application.py:79 and :214) |
| Finance.TradeKeepsConsistent | application.py:76-79 | appending a trade row and debiting its cost from its owner together keep usernames unique, every row owned by a registered user, and every user's cash equal to the starting cash minus the cost of that user's rows |
| Finance.TradeKeepsBalance | application.py:76-79 | one trade row plus the debit of its cost keeps every user's cash equal to the starting cash minus the cost of that user's rows |
| Finance.Ledger.constructor | application.py:32 | the ledger starts with no users and no transactions and satisfies the invariant |
| Finance.Ledger.Register | application.py:170-184 | an empty username, then a mismatched confirmation, then a taken username are refused with the tables unchanged; otherwise exactly one user with the hashed password and the starting cash is appended, and its id is returned and found by name |
| Finance.Ledger.Record | application.py:76-79 | a trade appends exactly one row and subtracts price × signed shares from its owner's cash, nothing else changes, and cash = start − Σ(shares × price) is preserved |
| Finance.Ledger.Buy | application.py:62-82 | refused exactly for an empty symbol, a zero count, a failed quote, or cost > cash, with state unchanged; cost = cash is accepted; success appends (symbol, +n, price), debits price × n, leaves cash ≥ 0 and preserves the invariant |
| Finance.Ledger.Sell | application.py:201-217 | refused exactly for an empty symbol, a zero count or a failed quote; success appends (symbol, −n, price), credits price × n and lowers the holding by n with no holding or cash check |
| Finance.Ledger.Index | application.py:37-52 | the page lists exactly the non-zero holdings, each with current price and net × price, their sum as stock total and the cash balance; it fails exactly when a listed symbol has no quote |
| Finance.Ledger.SellForm | application.py:193-199 | the sell form offers each symbol with a non-zero holding exactly once, with that holding, and nothing else |
| Finance.Ledger.History | application.py:86-95 | one row per user transaction in insertion order, with total = signed shares × price and label "Buy" iff shares > 0, else "Sell"; the totals account for the cash spent |
| Scenarios.OpenAccount | application.py:170-184 | registering one user with a matching confirmation gives a consistent ledger holding just that user with the starting cash and no rows |
| Scenarios.TradeAapl | application.py:62-82 | from 10000.00, buying 10 at 150.00 leaves 8500.00, and selling 4 at 160.00 then leaves 9140.00 with two rows recorded |
| Scenarios.BuyAapl | application.py:62-82 | from 10000.00 with no rows, buying 10 AAPL at 150.00 is accepted, leaves 8500.00 and records one row (AAPL, 10, 150.00) |
| Scenarios.SellAapl | application.py:201-217 | then selling 4 AAPL at 160.00 is accepted, leaves 9140.00 and records (AAPL, −4, 160.00) after the purchase |
| Scenarios.BuyThenSell | application.py:201-217 | after that run the holding is 6 and the history is a Buy row of 1500.00 and a Sell row of −640.00 |
| Scenarios.SpendEverything | application.py:73-74 | a purchase costing exactly the balance succeeds and leaves 0, the next share is refused for cash, and a duplicate username is refused |
| Scenarios.SellUnheld | application.py:210-214 | selling 5 shares never bought succeeds, credits the proceeds and leaves a holding of −5 |

## Left out

- Flask routing, `render_template`, redirects, `apology` and the error handler, and the cache headers (application.py:14-20, 223-230): HTTP and UI plumbing.
- The cs50 `SQL` library and the SQL text: the tables are sequences in memory. The UNIQUE constraint on usernames, which the register handler relies on, is modelled as the lookup `IdOf`.
- `lookup` (the quote service over HTTP): the price is a parameter. The `quote` route (application.py:146-158) only shows a lookup result and is not modelled.
- Login, logout, `check_password_hash` and `generate_password_hash` (application.py:98-143): foreign crypto and session handling. The hash is an opaque function parameter.
- Sessions and `login_required`: the logged-in user is a parameter that must name a registered user.
- Floating point, `round(cash, 2)` and the `usd` filter: money is exact integer cents, so there is no rounding drift.
- `int()` parse errors on the share count, and form fields missing altogether: a missing field is treated as an empty string. This also covers the register case where password and confirmation are both missing, which the source lets through to the hasher.
- Concurrent requests: handlers are modelled one at a time, each running to completion. In the source, buy reads the cash (application.py:71-72), compares (:73) and later applies a relative update (:79) with no transaction around them, so two concurrent purchases can both pass the check and together leave cash below zero. The model does not capture this check-then-update race; `Buy`'s guarantee that cash stays non-negative holds only for requests handled one at a time.
- Partial failure between the insert and the cash update (application.py:77-81, 212-216): these paths depend on database failure modes. The model always performs both writes, so it does not capture the source's non-atomic write.
- The order of the GROUP BY rows, which SQL leaves unspecified: the model lists symbols in order of first appearance.
- Transaction timestamps: history order is insertion order.
- The unreachable `render_template("sell.html")` after the POST branch (application.py:219).
