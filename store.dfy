/**
 * The relational store the receipt service talks to, held in memory: the
 * client set, the coin balances, the receipts, the append-only
 * `receipts_process` rows with their serial ids and the append-only
 * `transactions` audit rows.
 */
module Store {
  import opened Wrappers

  /** A row of `clients_coins`; `coins_available` is a nullable column. */
  datatype Coins = Coins(available: Option<int>, spent: int)

  /** `Number(rows[0].coins_available)`: a NULL balance reads as 0. */
  function CoinsNumber(available: Option<int>): (n: int)
    ensures available.None? ==> n == 0
    ensures available.Some? ==> n == available.value
  {
    available.GetOr(0)
  }

  /** A row of `receipts` (its key, the identity, is kept as the map key). */
  datatype Receipt = Receipt(client: string, name: string, extension: string, route: string,
                             size: nat, width: nat, height: nat)

  /** A nullable text column: `None` is SQL NULL. */
  type Column = Option<string>

  /**
   * What a recognition stage inserts into `receipts_process`; the database
   * assigns the id. The first stage fills bank and version, the second the
   * amount; a column a stage leaves out is NULL.
   */
  datatype ProcessWrite = ProcessWrite(receipt: string, bank: Column, version: Column, amount: Column)

  /** A row of `receipts_process`. */
  datatype ProcessRow = ProcessRow(id: nat, receipt: string, bank: Column, version: Column, amount: Column)

  /** A row of `transactions`: the client, the linked process row and the status code, the last two nullable. */
  datatype Transaction = Transaction(client: string, receiptProcess: Option<nat>, code: Option<string>)

  /** The image had already been processed. */
  const DuplicateCode: string := "01"
  /** The request succeeded. */
  const SuccessCode: string := "00"

  datatype DbState = DbState(
    clients: set<string>,
    coins: map<string, Coins>,
    receipts: map<string, Receipt>,
    processRows: seq<ProcessRow>,
    nextProcessId: nat,
    transactions: seq<Transaction>)

  /** The `receipts_process` serial: ids strictly increase in insertion order. */
  predicate IdsIncreasing(rows: seq<ProcessRow>) {
    forall i, j :: 0 <= i < j < |rows| ==> rows[i].id < rows[j].id
  }

  /** The store's invariant: process rows are numbered by a serial that is ahead of every row. */
  predicate ValidState(s: DbState) {
    && IdsIncreasing(s.processRows)
    && forall i :: 0 <= i < |s.processRows| ==> s.processRows[i].id < s.nextProcessId
  }

  /** No balance is negative (a NULL balance is not negative either). */
  predicate NonNegativeBalances(s: DbState) {
    forall c :: c in s.coins && s.coins[c].available.Some? ==> s.coins[c].available.value >= 0
  }

  // ---------------------------------------------------------------------------
  // The statements the service runs, as functions on the store
  // ---------------------------------------------------------------------------

  /**
   * `UPDATE clients_coins SET coins_available = coins_available - 1,
   * coins_spent = coins_spent + 1 WHERE id_client = c` (NULL - 1 stays NULL).
   */
  function Deducted(s: DbState, c: string): (r: DbState)
    ensures r.(coins := s.coins) == s
    ensures r.coins.Keys == s.coins.Keys
    ensures forall d :: d in s.coins && d != c ==> r.coins[d] == s.coins[d]
    ensures c in s.coins ==> r.coins[c].spent == s.coins[c].spent + 1
    ensures c in s.coins ==> r.coins[c].available.Some? == s.coins[c].available.Some?
    ensures c in s.coins && s.coins[c].available.Some? ==>
      r.coins[c].available.value + r.coins[c].spent == s.coins[c].available.value + s.coins[c].spent
  {
    if c !in s.coins then s
    else
      var row := s.coins[c];
      var available := match row.available case Some(n) => Some(n - 1) case None => None;
      s.(coins := s.coins[c := Coins(available, row.spent + 1)])
  }

  /** `INSERT INTO transactions ...` */
  function WithTransaction(s: DbState, t: Transaction): (r: DbState)
    ensures |r.transactions| == |s.transactions| + 1 && r.transactions[|s.transactions|] == t
    ensures r.transactions[..|s.transactions|] == s.transactions
    ensures r.clients == s.clients && r.coins == s.coins && r.receipts == s.receipts
    ensures r.processRows == s.processRows && r.nextProcessId == s.nextProcessId
  {
    s.(transactions := s.transactions + [t])
  }

  /** `INSERT INTO receipts ...` of a receipt whose key is new. */
  function WithReceipt(s: DbState, key: string, r: Receipt): (s': DbState)
    ensures key in s'.receipts && s'.receipts[key] == r
    ensures forall k :: k in s.receipts && k != key ==> k in s'.receipts && s'.receipts[k] == s.receipts[k]
    ensures s'.clients == s.clients && s'.coins == s.coins && s'.transactions == s.transactions
    ensures s'.processRows == s.processRows && s'.nextProcessId == s.nextProcessId
  {
    s.(receipts := s.receipts[key := r])
  }

  /** The rows that the writes `ws` become when the serial stands at `first`. */
  function NumberedRows(ws: seq<ProcessWrite>, first: nat): (rows: seq<ProcessRow>)
    ensures |rows| == |ws|
    ensures forall i :: 0 <= i < |ws| ==> rows[i].id == first + i
    ensures forall i :: 0 <= i < |ws| ==>
      && rows[i].receipt == ws[i].receipt && rows[i].bank == ws[i].bank
      && rows[i].version == ws[i].version && rows[i].amount == ws[i].amount
  {
    seq(|ws|, i requires 0 <= i < |ws| =>
      ProcessRow(first + i, ws[i].receipt, ws[i].bank, ws[i].version, ws[i].amount))
  }

  /** One `INSERT INTO receipts_process ...` per write, in order. */
  function WithProcessRows(s: DbState, ws: seq<ProcessWrite>): (r: DbState)
    ensures r.(processRows := s.processRows, nextProcessId := s.nextProcessId) == s
    ensures s.processRows <= r.processRows && |r.processRows| == |s.processRows| + |ws|
    ensures r.nextProcessId == s.nextProcessId + |ws|
  {
    s.(processRows := s.processRows + NumberedRows(ws, s.nextProcessId),
       nextProcessId := s.nextProcessId + |ws|)
  }

  lemma WithProcessRowsKeepsValid(s: DbState, ws: seq<ProcessWrite>)
    requires ValidState(s)
    ensures ValidState(WithProcessRows(s, ws))
  {
    var rows := WithProcessRows(s, ws).processRows;
    var n := |s.processRows|;
    forall i, j | 0 <= i < j < |rows|
      ensures rows[i].id < rows[j].id
    {
      if j >= n {
        assert rows[j] == NumberedRows(ws, s.nextProcessId)[j - n];
        if i >= n {
          assert rows[i] == NumberedRows(ws, s.nextProcessId)[i - n];
        }
      }
    }
  }

  // ---------------------------------------------------------------------------
  // SELECT ... WHERE id_receipt = $1 ORDER BY id_receipt_process DESC LIMIT 1
  // ---------------------------------------------------------------------------

  /**
   * The row for `receipt` with the greatest id, if there is one. There is
   * none exactly when no row belongs to the receipt.
   */
  function Latest(rows: seq<ProcessRow>, receipt: string): (r: Option<ProcessRow>)
    ensures r.None? <==> forall i :: 0 <= i < |rows| ==> rows[i].receipt != receipt
    ensures r.Some? ==> r.value in rows && r.value.receipt == receipt
    ensures r.Some? ==> forall i :: 0 <= i < |rows| && rows[i].receipt == receipt ==> rows[i].id <= r.value.id
  {
    if rows == [] then None
    else Extend(Latest(rows[..|rows| - 1], receipt), rows[|rows| - 1], receipt)
  }

  /** The answer once `last` is added to rows whose answer was `earlier`. */
  function Extend(earlier: Option<ProcessRow>, last: ProcessRow, receipt: string): Option<ProcessRow> {
    if last.receipt != receipt then earlier
    else if earlier.Some? && earlier.value.id > last.id then earlier
    else Some(last)
  }

  /** With the serial's increasing ids, the greatest id is the row inserted last: latest wins. */
  lemma LatestIsLastInserted(rows: seq<ProcessRow>, receipt: string, k: nat)
    requires IdsIncreasing(rows)
    requires k < |rows| && rows[k].receipt == receipt
    requires forall j :: k < j < |rows| ==> rows[j].receipt != receipt
    ensures Latest(rows, receipt) == Some(rows[k])
  {
    var r := Latest(rows, receipt);
    var m :| 0 <= m < |rows| && rows[m] == r.value;
    assert rows[k].id <= rows[m].id;
  }

  /** Of two answers of the query, the one with the greater id; on a tie, the second. */
  function Later(first: Option<ProcessRow>, second: Option<ProcessRow>): Option<ProcessRow> {
    if second.None? then first
    else if first.Some? && first.value.id > second.value.id then first
    else second
  }

  /** The query over two batches of rows is the later of its answers over each. */
  lemma {:induction false} LatestOfConcat(a: seq<ProcessRow>, b: seq<ProcessRow>, receipt: string)
    ensures Latest(a + b, receipt) == Later(Latest(a, receipt), Latest(b, receipt))
  {
    if b == [] {
      assert a + b == a;
    } else {
      var ab, front, last := a + b, b[..|b| - 1], b[|b| - 1];
      assert ab[..|ab| - 1] == a + front;
      assert ab[|ab| - 1] == last;
      assert Latest(ab, receipt) == Extend(Latest(a + front, receipt), last, receipt);
      assert b[..|b| - 1] == front;
      assert Latest(b, receipt) == Extend(Latest(front, receipt), last, receipt);
      LatestOfConcat(a, front, receipt);
      ExtendLater(Latest(a, receipt), Latest(front, receipt), last, receipt);
    }
  }

  lemma ExtendLater(x: Option<ProcessRow>, y: Option<ProcessRow>, last: ProcessRow, receipt: string)
    ensures Extend(Later(x, y), last, receipt) == Later(x, Extend(y, last, receipt))
  {
  }

  /**
   * Appending rows: when the new rows hold one for `receipt`, the latest of
   * them wins over everything inserted before; otherwise the earlier answer stands.
   */
  lemma LatestAfterAppend(s: DbState, ws: seq<ProcessWrite>, receipt: string)
    requires ValidState(s)
    ensures var added := Latest(NumberedRows(ws, s.nextProcessId), receipt);
      Latest(WithProcessRows(s, ws).processRows, receipt)
        == if added.Some? then added else Latest(s.processRows, receipt)
  {
    var added := NumberedRows(ws, s.nextProcessId);
    LatestOfConcat(s.processRows, added, receipt);
    var before := Latest(s.processRows, receipt);
    if before.Some? && Latest(added, receipt).Some? {
      var m :| 0 <= m < |added| && added[m] == Latest(added, receipt).value;
      assert before.value.id < s.nextProcessId <= added[m].id;
    }
  }

  // ---------------------------------------------------------------------------
  // The database as the service sees it: one method per statement
  // ---------------------------------------------------------------------------

  /** How `INSERT INTO receipts` ends: a row, a unique violation (code 23505) or another error. */
  datatype InsertResult = Inserted | UniqueViolation | OtherError

  class Database {
    var clients: set<string>
    var coins: map<string, Coins>
    var receipts: map<string, Receipt>
    var processRows: seq<ProcessRow>
    var nextProcessId: nat
    var transactions: seq<Transaction>

    function State(): DbState
      reads this
    {
      DbState(clients, coins, receipts, processRows, nextProcessId, transactions)
    }

    constructor (initial: DbState)
      ensures State() == initial
    {
      clients, coins, receipts := initial.clients, initial.coins, initial.receipts;
      processRows, nextProcessId := initial.processRows, initial.nextProcessId;
      transactions := initial.transactions;
    }

    /** The coin `UPDATE` of one client. */
    method DeductCoin(c: string)
      modifies this
      ensures State() == Deducted(old(State()), c)
    {
      if c in coins {
        var row := coins[c];
        var available := match row.available case Some(n) => Some(n - 1) case None => None;
        coins := coins[c := Coins(available, row.spent + 1)];
      }
    }

    /** One audit row; `fails` stands for the insert throwing, which leaves the table as it was. */
    method InsertTransaction(t: Transaction, fails: bool) returns (ok: bool)
      modifies this
      ensures ok == !fails
      ensures State() == if ok then WithTransaction(old(State()), t) else old(State())
    {
      ok := !fails;
      if ok {
        transactions := transactions + [t];
      }
    }

    /**
     * The receipt insert: the primary key rejects a key already present;
     * `fails` stands for any other database error, which happens first.
     */
    method InsertReceipt(key: string, r: Receipt, fails: bool) returns (result: InsertResult)
      modifies this
      ensures result == if fails then OtherError else if key in old(receipts) then UniqueViolation else Inserted
      ensures State() == if result.Inserted? then WithReceipt(old(State()), key, r) else old(State())
    {
      if fails {
        result := OtherError;
      } else if key in receipts {
        result := UniqueViolation;
      } else {
        receipts := receipts[key := r];
        result := Inserted;
      }
    }

    /** What a recognition stage writes: one insert per row, each taking the next serial value. */
    method InsertProcessRows(ws: seq<ProcessWrite>)
      modifies this
      ensures State() == WithProcessRows(old(State()), ws)
    {
      for i := 0 to |ws|
        invariant processRows == old(processRows) + NumberedRows(ws[..i], old(nextProcessId))
        invariant nextProcessId == old(nextProcessId) + i
        invariant clients == old(clients) && coins == old(coins) && receipts == old(receipts)
        invariant transactions == old(transactions)
      {
        assert NumberedRows(ws[..i + 1], old(nextProcessId))
          == NumberedRows(ws[..i], old(nextProcessId))
             + [ProcessRow(nextProcessId, ws[i].receipt, ws[i].bank, ws[i].version, ws[i].amount)];
        processRows := processRows + [ProcessRow(nextProcessId, ws[i].receipt, ws[i].bank, ws[i].version, ws[i].amount)];
        nextProcessId := nextProcessId + 1;
      }
      assert ws[..|ws|] == ws;
    }
  }
}
