/**
 * The transactions table of the finance application and the views derived
 * from it: a user's own rows, the per-symbol net share count (the
 * `SUM(num_shares) ... GROUP BY symbol` query), the rows whose net is not
 * zero, and the market value of a set of holdings.
 *
 * Money is counted in integer cents.
 */
module Holdings {

  /** Row id of a user in the users table. */
  type UserId = nat

  /**
   * One row of the transactions table: its owner, the ticker, the signed
   * share count (positive for a purchase, negative for a sale) and the
   * execution price in cents.
   */
  datatype Tx = Tx(user: UserId, symbol: string, shares: int, price: int)

  /** One row of the aggregation query: a symbol and its net share count. */
  datatype HoldingRow = HoldingRow(symbol: string, net: int)

  function Last<T>(s: seq<T>): T
    requires s != []
  {
    s[|s| - 1]
  }

  function Init<T>(s: seq<T>): seq<T>
    requires s != []
  {
    s[..|s| - 1]
  }

  lemma {:induction false} InitOfAppend<T>(s: seq<T>, x: T)
    ensures Init(s + [x]) == s && Last(s + [x]) == x
  {
    assert (s + [x])[..|s|] == s;
  }

  // ---------------------------------------------------------------------
  // The WHERE user_id = ... filter
  // ---------------------------------------------------------------------

  /**
   * The rows of `txs` that belong to `user`, in the order they were
   * inserted: a row is among them exactly when that user owns it.
   */
  function OwnedBy(txs: seq<Tx>, user: UserId): (r: seq<Tx>)
    ensures forall t: Tx {:trigger t in r} :: t in r <==> t in txs && t.user == user
  {
    if txs == [] then []
    else
      assert txs == Init(txs) + [Last(txs)];
      if Last(txs).user == user then OwnedBy(Init(txs), user) + [Last(txs)]
      else OwnedBy(Init(txs), user)
  }

  /**
   * The ledger is append-only: inserting a row extends its owner's rows at
   * the end and leaves every other user's rows as they were.
   */
  lemma {:induction false} OwnedByAppend(txs: seq<Tx>, t: Tx, user: UserId)
    ensures OwnedBy(txs + [t], user) ==
            if t.user == user then OwnedBy(txs, user) + [t] else OwnedBy(txs, user)
  {
    InitOfAppend(txs, t);
  }

  /** A user who owns no transaction has no rows. */
  lemma {:induction false} OwnedByNobody(txs: seq<Tx>, user: UserId)
    requires forall k :: 0 <= k < |txs| ==> txs[k].user != user
    ensures OwnedBy(txs, user) == []
  {
    if txs != [] {
      assert forall k :: 0 <= k < |txs| - 1 ==> Init(txs)[k] == txs[k];
      OwnedByNobody(Init(txs), user);
    }
  }

  // ---------------------------------------------------------------------
  // Holdings and cash flow
  // ---------------------------------------------------------------------

  /** Some row of `txs` is for `symbol`. */
  predicate Traded(txs: seq<Tx>, symbol: string)
  {
    exists i :: 0 <= i < |txs| && txs[i].symbol == symbol
  }

  /** The holding of `symbol`: the sum of the signed share counts of its rows. */
  function Holding(txs: seq<Tx>, symbol: string): int
  {
    if txs == [] then 0
    else Holding(Init(txs), symbol) + (if Last(txs).symbol == symbol then Last(txs).shares else 0)
  }

  lemma {:induction false} HoldingAppend(txs: seq<Tx>, t: Tx, symbol: string)
    ensures Holding(txs + [t], symbol) ==
            Holding(txs, symbol) + (if t.symbol == symbol then t.shares else 0)
  {
    InitOfAppend(txs, t);
  }

  /** A new row changes its owner's holding of its symbol by its signed share count. */
  lemma {:induction false} HoldingOfOwner(txs: seq<Tx>, t: Tx)
    ensures Holding(OwnedBy(txs + [t], t.user), t.symbol) == Holding(OwnedBy(txs, t.user), t.symbol) + t.shares
  {
    OwnedByAppend(txs, t, t.user);
    HoldingAppend(OwnedBy(txs, t.user), t, t.symbol);
  }

  /** A symbol that was never traded has holding zero. */
  lemma {:induction false} HoldingUntraded(txs: seq<Tx>, symbol: string)
    requires !Traded(txs, symbol)
    ensures Holding(txs, symbol) == 0
  {
    if txs != [] {
      var init := Init(txs);
      forall i | 0 <= i < |init| ensures init[i].symbol != symbol {
        assert init[i] == txs[i];
      }
      HoldingUntraded(init, symbol);
    }
  }

  /**
   * The net amount of cash the rows cost: the sum of signed shares times
   * price. A purchase adds its cost, a sale subtracts its proceeds.
   */
  function CashFlow(txs: seq<Tx>): int
  {
    if txs == [] then 0 else CashFlow(Init(txs)) + Last(txs).shares * Last(txs).price
  }

  lemma {:induction false} CashFlowAppend(txs: seq<Tx>, t: Tx)
    ensures CashFlow(txs + [t]) == CashFlow(txs) + t.shares * t.price
  {
    InitOfAppend(txs, t);
  }

  // ---------------------------------------------------------------------
  // The GROUP BY symbol aggregation
  // ---------------------------------------------------------------------

  /** The distinct symbols of `txs`, in order of first appearance. */
  function Symbols(txs: seq<Tx>): (r: seq<string>)
    ensures forall i, j :: 0 <= i < j < |r| ==> r[i] != r[j]
    ensures forall s :: s in r <==> Traded(txs, s)
  {
    if txs == [] then []
    else
      var init := Init(txs);
      var syms := Symbols(init);
      assert forall s :: Traded(txs, s) <==> Traded(init, s) || Last(txs).symbol == s by {
        forall s ensures Traded(txs, s) ==> Traded(init, s) || Last(txs).symbol == s {
          if Traded(txs, s) {
            var i :| 0 <= i < |txs| && txs[i].symbol == s;
            if i < |init| { assert init[i].symbol == s; }
          }
        }
        forall s | Traded(init, s) ensures Traded(txs, s) {
          var i :| 0 <= i < |init| && init[i].symbol == s;
          assert txs[i].symbol == s;
        }
      }
      if Last(txs).symbol in syms then syms else syms + [Last(txs).symbol]
  }

  /** One aggregation row per symbol of `syms`, in that order. */
  function RowsFor(txs: seq<Tx>, syms: seq<string>): seq<HoldingRow>
  {
    if syms == [] then []
    else RowsFor(txs, Init(syms)) + [HoldingRow(Last(syms), Holding(txs, Last(syms)))]
  }

  lemma {:induction false} RowsForAt(txs: seq<Tx>, syms: seq<string>)
    ensures |RowsFor(txs, syms)| == |syms|
    ensures forall i :: 0 <= i < |syms| ==> RowsFor(txs, syms)[i] == HoldingRow(syms[i], Holding(txs, syms[i]))
  {
    if syms != [] {
      RowsForAt(txs, Init(syms));
    }
  }

  /**
   * `SUM(num_shares) ... GROUP BY symbol`: exactly one row per traded
   * symbol, carrying that symbol's holding.
   */
  function Aggregate(txs: seq<Tx>): (r: seq<HoldingRow>)
    ensures forall i, j :: 0 <= i < j < |r| ==> r[i].symbol != r[j].symbol
    ensures forall row: HoldingRow :: row in r <==> Traded(txs, row.symbol) && row.net == Holding(txs, row.symbol)
  {
    var syms := Symbols(txs);
    var r := RowsFor(txs, syms);
    RowsForAt(txs, syms);
    assert forall row: HoldingRow :: Traded(txs, row.symbol) && row.net == Holding(txs, row.symbol) ==> row in r by {
      forall row: HoldingRow | Traded(txs, row.symbol) && row.net == Holding(txs, row.symbol) ensures row in r {
        var i :| 0 <= i < |syms| && syms[i] == row.symbol;
        assert r[i] == row;
      }
    }
    r
  }

  /** The rows whose net share count is not zero, in their original order. */
  function NonZero(rows: seq<HoldingRow>): (r: seq<HoldingRow>)
    ensures |r| <= |rows|
    ensures forall row: HoldingRow :: row in r <==> row in rows && row.net != 0
  {
    if rows == [] then []
    else if Last(rows).net != 0 then NonZero(Init(rows)) + [Last(rows)]
    else NonZero(Init(rows))
  }

  /** The holdings shown on the portfolio page and offered on the sell form. */
  function Held(txs: seq<Tx>): seq<HoldingRow>
  {
    NonZero(Aggregate(txs))
  }

  /**
   * A symbol is listed exactly when its holding is not zero, and then once,
   * with that holding; a fully unwound position is not listed.
   */
  lemma {:induction false} HeldIsNonZeroHoldings(txs: seq<Tx>)
    ensures forall i, j :: 0 <= i < j < |Held(txs)| ==> Held(txs)[i].symbol != Held(txs)[j].symbol
    ensures forall row: HoldingRow :: row in Held(txs) <==> row.net == Holding(txs, row.symbol) != 0
  {
    NonZeroKeepsDistinct(Aggregate(txs));
    forall row: HoldingRow | row.net == Holding(txs, row.symbol) != 0 ensures row in Held(txs) {
      if !Traded(txs, row.symbol) {
        HoldingUntraded(txs, row.symbol);
      }
    }
  }

  lemma {:induction false} NonZeroKeepsDistinct(rows: seq<HoldingRow>)
    requires forall i, j :: 0 <= i < j < |rows| ==> rows[i].symbol != rows[j].symbol
    ensures forall i, j :: 0 <= i < j < |NonZero(rows)| ==> NonZero(rows)[i].symbol != NonZero(rows)[j].symbol
  {
    if rows != [] {
      var init := Init(rows);
      NonZeroKeepsDistinct(init);
      var r := NonZero(rows);
      if Last(rows).net != 0 {
        forall i, j | 0 <= i < j < |r| ensures r[i].symbol != r[j].symbol {
          if j == |r| - 1 {
            assert r[i] in NonZero(init);
            var k :| 0 <= k < |init| && init[k] == r[i];
            assert rows[k] == r[i];
          } else {
            assert r[i] == NonZero(init)[i] && r[j] == NonZero(init)[j];
          }
        }
      }
    }
  }

  // ---------------------------------------------------------------------
  // Valuation
  // ---------------------------------------------------------------------

  /** Every row has a current quote. */
  predicate Quoted(rows: seq<HoldingRow>, quotes: map<string, int>)
  {
    forall i :: 0 <= i < |rows| ==> rows[i].symbol in quotes
  }

  /** Every transaction's symbol has a current quote. */
  predicate AllQuoted(txs: seq<Tx>, quotes: map<string, int>)
  {
    forall i :: 0 <= i < |txs| ==> txs[i].symbol in quotes
  }

  /** The value of holdings at the current quotes: the sum of net shares times price. */
  function Value(rows: seq<HoldingRow>, quotes: map<string, int>): int
    requires Quoted(rows, quotes)
  {
    if rows == [] then 0
    else Value(Init(rows), quotes) + Last(rows).net * quotes[Last(rows).symbol]
  }

  /** The rows replayed at the current quotes: signed shares times today's price. */
  function MarketValue(txs: seq<Tx>, quotes: map<string, int>): int
    requires AllQuoted(txs, quotes)
  {
    if txs == [] then 0
    else MarketValue(Init(txs), quotes) + Last(txs).shares * quotes[Last(txs).symbol]
  }

  /**
   * The portfolio's stock total equals the whole ledger replayed at today's
   * prices: dropping net-zero symbols and grouping by symbol lose nothing.
   */
  lemma {:induction false} MarkToMarket(txs: seq<Tx>, quotes: map<string, int>)
    requires AllQuoted(txs, quotes)
    ensures Quoted(Held(txs), quotes)
    ensures Value(Held(txs), quotes) == MarketValue(txs, quotes)
  {
    var syms := Symbols(txs);
    assert forall s :: s in syms ==> s in quotes;
    ValueOfNonZero(Aggregate(txs), quotes);
    ValueOfRows(txs, syms, quotes);
  }

  lemma {:induction false} ValueOfNonZero(rows: seq<HoldingRow>, quotes: map<string, int>)
    requires Quoted(rows, quotes)
    ensures Quoted(NonZero(rows), quotes)
    ensures Value(NonZero(rows), quotes) == Value(rows, quotes)
  {
    if rows != [] {
      var init := Init(rows);
      ValueOfNonZero(init, quotes);
      if Last(rows).net != 0 {
        InitOfAppend(NonZero(init), Last(rows));
      }
    }
  }

  /** The grouped rows of any distinct list of symbols covering the ledger value it fully. */
  lemma {:induction false} ValueOfRows(txs: seq<Tx>, syms: seq<string>, quotes: map<string, int>)
    requires AllQuoted(txs, quotes)
    requires forall i, j :: 0 <= i < j < |syms| ==> syms[i] != syms[j]
    requires forall s :: s in syms ==> s in quotes
    requires forall s :: Traded(txs, s) ==> s in syms
    ensures Quoted(RowsFor(txs, syms), quotes)
    ensures Value(RowsFor(txs, syms), quotes) == MarketValue(txs, quotes)
  {
    if txs == [] {
      ValueOfEmpty(syms, quotes);
    } else {
      var init, t := Init(txs), Last(txs);
      TradedInit(txs);
      ValueOfRows(init, syms, quotes);
      assert txs == init + [t];
      ValueShift(init, t, syms, quotes);
      assert t.symbol in syms by { assert txs[|txs| - 1].symbol == t.symbol; }
      assert Value(RowsFor(txs, syms), quotes) == MarketValue(init, quotes) + t.shares * quotes[t.symbol];
    }
  }

  lemma {:induction false} TradedInit(txs: seq<Tx>)
    requires txs != []
    ensures forall s :: Traded(Init(txs), s) ==> Traded(txs, s)
  {
    forall s | Traded(Init(txs), s) ensures Traded(txs, s) {
      var i :| 0 <= i < |txs| - 1 && Init(txs)[i].symbol == s;
      assert txs[i].symbol == s;
    }
  }

  lemma {:induction false} ValueOfEmpty(syms: seq<string>, quotes: map<string, int>)
    requires forall s :: s in syms ==> s in quotes
    ensures Quoted(RowsFor([], syms), quotes)
    ensures Value(RowsFor([], syms), quotes) == 0
  {
    if syms != [] {
      ValueOfEmpty(Init(syms), quotes);
      InitOfAppend(RowsFor([], Init(syms)), HoldingRow(Last(syms), 0));
    }
  }

  /** Appending one transaction moves the grouped value by that transaction's value. */
  lemma {:induction false} ValueShift(txs: seq<Tx>, t: Tx, syms: seq<string>, quotes: map<string, int>)
    requires forall i, j :: 0 <= i < j < |syms| ==> syms[i] != syms[j]
    requires forall s :: s in syms ==> s in quotes
    ensures Quoted(RowsFor(txs, syms), quotes) && Quoted(RowsFor(txs + [t], syms), quotes)
    ensures Value(RowsFor(txs + [t], syms), quotes) ==
            Value(RowsFor(txs, syms), quotes) + (if t.symbol in syms then t.shares * quotes[t.symbol] else 0)
  {
    if syms != [] {
      ValueShift(txs, t, Init(syms), quotes);
      ValueShiftStep(txs, t, syms, quotes);
    }
  }

  /** The inductive step of ValueShift: the last symbol of `syms` is added. */
  lemma {:induction false} ValueShiftStep(txs: seq<Tx>, t: Tx, syms: seq<string>, quotes: map<string, int>)
    requires syms != []
    requires forall i, j :: 0 <= i < j < |syms| ==> syms[i] != syms[j]
    requires forall s :: s in syms ==> s in quotes
    requires Quoted(RowsFor(txs, Init(syms)), quotes) && Quoted(RowsFor(txs + [t], Init(syms)), quotes)
    requires Value(RowsFor(txs + [t], Init(syms)), quotes) ==
             Value(RowsFor(txs, Init(syms)), quotes) + (if t.symbol in Init(syms) then t.shares * quotes[t.symbol] else 0)
    ensures Quoted(RowsFor(txs, syms), quotes) && Quoted(RowsFor(txs + [t], syms), quotes)
    ensures Value(RowsFor(txs + [t], syms), quotes) ==
            Value(RowsFor(txs, syms), quotes) + (if t.symbol in syms then t.shares * quotes[t.symbol] else 0)
  {
    var init, s := Init(syms), Last(syms);
    var q, h := quotes[s], Holding(txs, s);
    var d := if t.symbol == s then t.shares else 0;
    HoldingAppend(txs, t, s);
    ValueOfRowsStep(txs, syms, quotes);
    ValueOfRowsStep(txs + [t], syms, quotes);
    var e := if t.symbol in init then t.shares * quotes[t.symbol] else 0;
    var target := if t.symbol in syms then t.shares * quotes[t.symbol] else 0;
    LastNotInInit(syms);
    assert target == e + d * q by {
      if t.symbol == s {
        assert t.symbol !in init;
      } else {
        assert t.symbol in syms <==> t.symbol in init;
      }
    }
    Combine(Value(RowsFor(txs + [t], syms), quotes), Value(RowsFor(txs + [t], init), quotes),
            Value(RowsFor(txs, syms), quotes), Value(RowsFor(txs, init), quotes), h, d, q, e, target);
  }

  lemma {:induction false} Combine(va: int, vai: int, vb: int, vbi: int, h: int, d: int, q: int, e: int, target: int)
    requires va == vai + (h + d) * q && vb == vbi + h * q
    requires vai == vbi + e && target == e + d * q
    ensures va == vb + target
  {
    assert (h + d) * q == h * q + d * q;
  }

  lemma {:induction false} ValueOfRowsStep(txs: seq<Tx>, syms: seq<string>, quotes: map<string, int>)
    requires syms != []
    requires forall s :: s in syms ==> s in quotes
    ensures Quoted(RowsFor(txs, Init(syms)), quotes) && Quoted(RowsFor(txs, syms), quotes)
    ensures Value(RowsFor(txs, syms), quotes) ==
            Value(RowsFor(txs, Init(syms)), quotes) + Holding(txs, Last(syms)) * quotes[Last(syms)]
  {
    RowsForQuoted(txs, Init(syms), quotes);
    ValueAppendRow(RowsFor(txs, Init(syms)), HoldingRow(Last(syms), Holding(txs, Last(syms))), quotes);
  }

  lemma {:induction false} RowsForQuoted(txs: seq<Tx>, syms: seq<string>, quotes: map<string, int>)
    requires forall i :: 0 <= i < |syms| ==> syms[i] in quotes
    ensures Quoted(RowsFor(txs, syms), quotes)
  {
    RowsForAt(txs, syms);
  }

  lemma {:induction false} LastNotInInit<T>(s: seq<T>)
    requires s != []
    requires forall i, j :: 0 <= i < j < |s| ==> s[i] != s[j]
    ensures Last(s) !in Init(s)
  {
    forall k | 0 <= k < |s| - 1 ensures Init(s)[k] != Last(s) {
      assert Init(s)[k] == s[k];
    }
  }

  lemma {:induction false} ValueAppendRow(rows: seq<HoldingRow>, row: HoldingRow, quotes: map<string, int>)
    requires Quoted(rows, quotes) && row.symbol in quotes
    ensures Quoted(rows + [row], quotes)
    ensures Value(rows + [row], quotes) == Value(rows, quotes) + row.net * quotes[row.symbol]
  {
    InitOfAppend(rows, row);
  }

  // ---------------------------------------------------------------------
  // The loop that keeps the non-zero rows (index and the sell form)
  // ---------------------------------------------------------------------

  /** Copies the rows whose net share count is not zero, one by one. */
  method KeepNonZero(rows: seq<HoldingRow>) returns (kept: seq<HoldingRow>)
    ensures kept == NonZero(rows)
  {
    kept := [];
    for i := 0 to |rows|
      invariant kept == NonZero(rows[..i])
    {
      assert rows[..i + 1] == rows[..i] + [rows[i]];
      InitOfAppend(rows[..i], rows[i]);
      if rows[i].net != 0 {
        kept := kept + [rows[i]];
      }
    }
    assert rows[..|rows|] == rows;
  }
}
