/**
 * What one request does to the store and what it answers: the gate order,
 * the non-refundable coin, best-effort audit rows, duplicate rejection,
 * the "latest row wins" reads and the shape of a successful answer.
 */
module ReceiptProperties {
  import opened Wrappers
  import opened Text
  import opened Store
  import opened Receipts

  /** The start-of-transaction row, unless its insert failed. */
  function StartRows(idClient: string, env: Environment): seq<Transaction> {
    if env.faults.startInsertFails then [] else [Transaction(idClient, None, None)]
  }

  /** The `'01'` row of a rejected duplicate, unless its insert failed. */
  function DuplicateRows(idClient: string, env: Environment): seq<Transaction> {
    if env.faults.duplicateInsertFails then [] else [Transaction(idClient, None, Some(DuplicateCode))]
  }

  /** The `'00'` row that closes a successful request. */
  function SuccessRows(idClient: string, run: Run): seq<Transaction> {
    if run.outcome.Ok? then [Transaction(idClient, Some(run.fields.idReceiptProcess), Some(SuccessCode))] else []
  }

  // ---------------------------------------------------------------------------
  // Frames of the later steps
  // ---------------------------------------------------------------------------

  /** Steps 7 to 12 only add process rows and, on success, the `'00'` row. */
  lemma RecognizeFrame(s: DbState, fields: Fields, idClient: string, filename: string, fullPath: string,
                       env: Environment)
    ensures var r := Recognize(s, fields, idClient, filename, fullPath, env);
      && s.processRows <= r.db.processRows
      && r.db.transactions == s.transactions + SuccessRows(idClient, r)
  {
    var id := fields.idNewReceipt;
    match env.recognizeBank(fullPath, id)
    case StageFailed(firstRows) =>
    case StageExited(firstRows) =>
      var s1 := WithProcessRows(s, firstRows);
      match Latest(s1.processRows, id)
      case None =>
      case Some(bankRow) =>
        match env.recognizeAmount(fullPath, bankRow.bank, bankRow.version, id)
        case StageFailed(secondRows) =>
          var s2 := WithProcessRows(s1, secondRows);
          assert s.processRows <= s1.processRows <= s2.processRows;
        case StageExited(secondRows) =>
          var s2 := WithProcessRows(s1, secondRows);
          assert s.processRows <= s1.processRows <= s2.processRows;
  }

  /** The receipt insert adds at most the new receipt, the `'01'` row and what steps 7 to 12 add. */
  lemma RegisterFrame(s: DbState, fields: Fields, idClient: string, image: StoredImage, env: Environment)
    ensures var r := Register(s, fields, idClient, image, env);
      && s.processRows <= r.db.processRows
      && (r.outcome == BadRequest(AlreadyProcessed) ==> r.db.transactions == s.transactions + DuplicateRows(idClient, env))
      && (r.outcome != BadRequest(AlreadyProcessed) ==> r.db.transactions == s.transactions + SuccessRows(idClient, r))
      && (r.db.receipts == s.receipts || (image.identity !in s.receipts && r.db.receipts
            == s.receipts[image.identity := Receipt(idClient, image.filename, "jpg", image.fullPath,
                                                    image.size, image.width, image.height)]))
  {
    if !env.faults.receiptInsertFails && image.identity !in s.receipts {
      var receipt := Receipt(idClient, image.filename, "jpg", image.fullPath, image.size, image.width, image.height);
      RecognizeFrame(WithReceipt(s, image.identity, receipt), fields.(idNewReceipt := image.identity),
                     idClient, image.filename, image.fullPath, env);
    }
  }

  // ---------------------------------------------------------------------------
  // Steps 1 to 3: the gate and the coin
  // ---------------------------------------------------------------------------

  /** A credential that is not 36 UTF-16 code units long, or not a known client: BadRequest, nothing changes. */
  lemma BadCredentialChangesNothing(s: DbState, dir: string, fields: Fields, idClient: string,
                                    image: string, env: Environment)
    requires Utf16Length(idClient) != CredentialLength || idClient !in s.clients
    ensures Process(s, dir, fields, idClient, image, env) == Run(BadRequest(WrongCredential), s, fields)
  {
  }

  /**
   * A known client without a coins row: NotFound; with fewer than one coin
   * (or a NULL balance): BadRequest. Either way nothing changes.
   */
  lemma CoinGateChangesNothing(s: DbState, dir: string, fields: Fields, idClient: string,
                               image: string, env: Environment)
    requires Utf16Length(idClient) == CredentialLength && idClient in s.clients
    ensures idClient !in s.coins ==>
      Process(s, dir, fields, idClient, image, env) == Run(NotFound(NoCoinsConfigured), s, fields)
    ensures idClient in s.coins && CoinsNumber(s.coins[idClient].available) < 1 ==>
      Process(s, dir, fields, idClient, image, env) == Run(BadRequest(NoCoinsLeft), s, fields)
  {
  }

  /**
   * Past the gate, whatever happens next, the client's balance is one coin
   * lower and one coin more is spent (their sum is kept), no other client's
   * row changes, and no coin is given back.
   */
  lemma AdmittedSpendsExactlyOneCoin(s: DbState, dir: string, fields: Fields, idClient: string,
                                     image: string, env: Environment)
    requires Gate(s, idClient).None?
    ensures var r := Process(s, dir, fields, idClient, image, env);
      var before := s.coins[idClient];
      && before.available.Some?
      && r.db.coins == s.coins[idClient := Coins(Some(before.available.value - 1), before.spent + 1)]
      && r.db.coins[idClient].available.value + r.db.coins[idClient].spent == before.available.value + before.spent
      && r.db.clients == s.clients
  {
    var started := Audit(Deducted(s, idClient), Transaction(idClient, None, None), env.faults.startInsertFails);
    var saved := SaveImage(dir, idClient, image, env);
    if saved.Some? {
      RegisterFrame(started, fields, idClient, saved.value, env);
    }
  }

  /** In a sequential run no balance goes below zero. */
  lemma BalancesStayNonNegative(s: DbState, dir: string, fields: Fields, idClient: string,
                                image: string, env: Environment)
    requires NonNegativeBalances(s)
    ensures NonNegativeBalances(Process(s, dir, fields, idClient, image, env).db)
  {
    if Gate(s, idClient).None? {
      AdmittedSpendsExactlyOneCoin(s, dir, fields, idClient, image, env);
    }
  }

  // ---------------------------------------------------------------------------
  // The audit trail
  // ---------------------------------------------------------------------------

  /**
   * The rows a request adds to `transactions`: none when the gate refuses
   * it; otherwise the start row, then the `'01'` row of a duplicate or the
   * `'00'` row of a success (each unless its insert failed).
   */
  lemma TransactionsAppended(s: DbState, dir: string, fields: Fields, idClient: string,
                             image: string, env: Environment)
    ensures var r := Process(s, dir, fields, idClient, image, env);
      && (Gate(s, idClient).Some? ==> r.db.transactions == s.transactions)
      && (Gate(s, idClient).None? && r.outcome == BadRequest(AlreadyProcessed) ==>
            r.db.transactions == s.transactions + StartRows(idClient, env) + DuplicateRows(idClient, env))
      && (Gate(s, idClient).None? && r.outcome != BadRequest(AlreadyProcessed) ==>
            r.db.transactions == s.transactions + StartRows(idClient, env) + SuccessRows(idClient, r))
  {
    if Gate(s, idClient).None? {
      var started := Audit(Deducted(s, idClient), Transaction(idClient, None, None), env.faults.startInsertFails);
      assert started.transactions == s.transactions + StartRows(idClient, env);
      var saved := SaveImage(dir, idClient, image, env);
      if saved.Some? {
        RegisterFrame(started, fields, idClient, saved.value, env);
      }
    }
  }

  /**
   * A `'00'` row is written exactly when the request succeeds: a request
   * that fails after paying its coin leaves the coin spent and no success row.
   */
  lemma SuccessRowOnlyOnSuccess(s: DbState, dir: string, fields: Fields, idClient: string,
                                image: string, env: Environment)
    ensures var r := Process(s, dir, fields, idClient, image, env);
      && s.transactions <= r.db.transactions
      && ((exists k :: |s.transactions| <= k < |r.db.transactions| && r.db.transactions[k].code == Some(SuccessCode))
          <==> r.outcome.Ok?)
  {
    var r := Process(s, dir, fields, idClient, image, env);
    TransactionsAppended(s, dir, fields, idClient, image, env);
    if r.outcome.Ok? {
      assert r.db.transactions[|r.db.transactions| - 1].code == Some(SuccessCode);
    }
  }

  /**
   * The start and `'01'` rows are best effort: whether their inserts fail
   * changes neither the answer nor the service's fields nor any table other
   * than `transactions`.
   */
  lemma BestEffortRowsDoNotDecide(s: DbState, dir: string, fields: Fields, idClient: string,
                                  image: string, env: Environment)
    ensures var quiet := env.(faults := env.faults.(startInsertFails := false, duplicateInsertFails := false));
      var r, r' := Process(s, dir, fields, idClient, image, env), Process(s, dir, fields, idClient, image, quiet);
      && r.outcome == r'.outcome
      && r.fields == r'.fields
      && r.db.(transactions := []) == r'.db.(transactions := [])
  {
    var quiet := env.(faults := env.faults.(startInsertFails := false, duplicateInsertFails := false));
    if Gate(s, idClient).None? {
      var paid := Deducted(s, idClient);
      var started := Audit(paid, Transaction(idClient, None, None), env.faults.startInsertFails);
      var started' := Audit(paid, Transaction(idClient, None, None), false);
      var saved := SaveImage(dir, idClient, image, env);
      assert saved == SaveImage(dir, idClient, image, quiet);
      if saved.Some? {
        RegisterIgnoresAuditTable(started, started'.transactions, fields, idClient, saved.value, env, quiet);
      }
    }
  }

  /** The receipt insert and the stages never read `transactions`. */
  lemma RegisterIgnoresAuditTable(s: DbState, t: seq<Transaction>, fields: Fields, idClient: string,
                                  image: StoredImage, env: Environment, env': Environment)
    requires env'.recognizeBank == env.recognizeBank && env'.recognizeAmount == env.recognizeAmount
    requires env'.faults.receiptInsertFails == env.faults.receiptInsertFails
    requires env'.faults.finalInsertFails == env.faults.finalInsertFails
    ensures var r, r' := Register(s, fields, idClient, image, env), Register(s.(transactions := t), fields, idClient, image, env');
      && r.outcome == r'.outcome && r.fields == r'.fields
      && r.db.(transactions := []) == r'.db.(transactions := [])
  {
    if !env.faults.receiptInsertFails && image.identity !in s.receipts {
      var receipt := Receipt(idClient, image.filename, "jpg", image.fullPath, image.size, image.width, image.height);
      var f := fields.(idNewReceipt := image.identity);
      RecognizeIgnoresAuditTable(WithReceipt(s, image.identity, receipt), t, f, idClient, image.filename,
                                 image.fullPath, env, env');
    }
  }

  lemma RecognizeIgnoresAuditTable(s: DbState, t: seq<Transaction>, fields: Fields, idClient: string,
                                   filename: string, fullPath: string, env: Environment, env': Environment)
    requires env'.recognizeBank == env.recognizeBank && env'.recognizeAmount == env.recognizeAmount
    requires env'.faults.finalInsertFails == env.faults.finalInsertFails
    ensures var r := Recognize(s, fields, idClient, filename, fullPath, env);
      var r' := Recognize(s.(transactions := t), fields, idClient, filename, fullPath, env');
      && r.outcome == r'.outcome && r.fields == r'.fields
      && r.db.(transactions := []) == r'.db.(transactions := [])
  {
    var id := fields.idNewReceipt;
    var s' := s.(transactions := t);
    match env.recognizeBank(fullPath, id)
    case StageFailed(firstRows) =>
      var s1, s1' := WithProcessRows(s, firstRows), WithProcessRows(s', firstRows);
      assert s1' == s1.(transactions := t);
    case StageExited(firstRows) =>
      var s1, s1' := WithProcessRows(s, firstRows), WithProcessRows(s', firstRows);
      assert s1' == s1.(transactions := t);
      match Latest(s1.processRows, id)
      case None =>
      case Some(bankRow) =>
        match env.recognizeAmount(fullPath, bankRow.bank, bankRow.version, id)
        case StageFailed(secondRows) =>
          var s2, s2' := WithProcessRows(s1, secondRows), WithProcessRows(s1', secondRows);
          assert s2' == s2.(transactions := t);
        case StageExited(secondRows) =>
          var s2, s2' := WithProcessRows(s1, secondRows), WithProcessRows(s1', secondRows);
          assert s2' == s2.(transactions := t);
  }

  /**
   * The `'00'` row is not best effort: a request that would succeed fails
   * with InternalError when that insert fails, and never succeeds then.
   */
  lemma FinalRowDecides(s: DbState, dir: string, fields: Fields, idClient: string,
                        image: string, env: Environment)
    ensures var closing := env.(faults := env.faults.(finalInsertFails := false));
      var failing := env.(faults := env.faults.(finalInsertFails := true));
      && !Process(s, dir, fields, idClient, image, failing).outcome.Ok?
      && (Process(s, dir, fields, idClient, image, closing).outcome.Ok? ==>
            Process(s, dir, fields, idClient, image, failing).outcome == InternalError(ServerError))
  {
    var closing := env.(faults := env.faults.(finalInsertFails := false));
    var failing := env.(faults := env.faults.(finalInsertFails := true));
    if Gate(s, idClient).None? {
      var paid := Deducted(s, idClient);
      var started := Audit(paid, Transaction(idClient, None, None), env.faults.startInsertFails);
      var saved := SaveImage(dir, idClient, image, env);
      assert saved == SaveImage(dir, idClient, image, closing) == SaveImage(dir, idClient, image, failing);
      if saved.Some? && !env.faults.receiptInsertFails && saved.value.identity !in started.receipts {
        var image := saved.value;
        var receipt := Receipt(idClient, image.filename, "jpg", image.fullPath, image.size, image.width, image.height);
        RecognizeFinalRow(WithReceipt(started, image.identity, receipt), fields.(idNewReceipt := image.identity),
                          idClient, image.filename, image.fullPath, env);
      }
    }
  }

  lemma RecognizeFinalRow(s: DbState, fields: Fields, idClient: string, filename: string, fullPath: string,
                          env: Environment)
    ensures var closing := env.(faults := env.faults.(finalInsertFails := false));
      var failing := env.(faults := env.faults.(finalInsertFails := true));
      && !Recognize(s, fields, idClient, filename, fullPath, failing).outcome.Ok?
      && (Recognize(s, fields, idClient, filename, fullPath, closing).outcome.Ok? ==>
            Recognize(s, fields, idClient, filename, fullPath, failing).outcome == InternalError(ServerError))
  {
    var id := fields.idNewReceipt;
    match env.recognizeBank(fullPath, id)
    case StageFailed(_) =>
    case StageExited(firstRows) =>
      var s1 := WithProcessRows(s, firstRows);
      match Latest(s1.processRows, id)
      case None =>
      case Some(bankRow) =>
        match env.recognizeAmount(fullPath, bankRow.bank, bankRow.version, id)
        case StageFailed(_) =>
        case StageExited(secondRows) =>
  }

  // ---------------------------------------------------------------------------
  // Receipts and duplicates
  // ---------------------------------------------------------------------------

  /** Registered receipts are never overwritten or removed; at most the request's own identity is added. */
  lemma ReceiptsOnlyGrow(s: DbState, dir: string, fields: Fields, idClient: string,
                         image: string, env: Environment)
    ensures var r := Process(s, dir, fields, idClient, image, env);
      && (forall k :: k in s.receipts ==> k in r.db.receipts && r.db.receipts[k] == s.receipts[k])
      && (forall k :: k in r.db.receipts && k !in s.receipts ==>
            SaveImage(dir, idClient, image, env).Some? && k == SaveImage(dir, idClient, image, env).value.identity)
  {
    if Gate(s, idClient).None? {
      var started := Audit(Deducted(s, idClient), Transaction(idClient, None, None), env.faults.startInsertFails);
      var saved := SaveImage(dir, idClient, image, env);
      if saved.Some? {
        RegisterFrame(started, fields, idClient, saved.value, env);
      }
    }
  }

  /**
   * An image whose identity is already registered: BadRequest ("already
   * processed"), the receipts are unchanged, the start row and exactly one
   * `'01'` row are appended (each unless its insert failed), and the coin
   * spent at the gate stays spent.
   */
  lemma DuplicateIsRejected(s: DbState, dir: string, fields: Fields, idClient: string,
                            image: string, env: Environment)
    requires Gate(s, idClient).None?
    requires SaveImage(dir, idClient, image, env).Some?
    requires SaveImage(dir, idClient, image, env).value.identity in s.receipts
    requires !env.faults.receiptInsertFails
    ensures var r := Process(s, dir, fields, idClient, image, env);
      && r.outcome == BadRequest(AlreadyProcessed)
      && r.db.receipts == s.receipts
      && r.db.transactions == s.transactions + StartRows(idClient, env) + DuplicateRows(idClient, env)
      && r.db.coins == Deducted(s, idClient).coins
      && r.fields == fields
  {
  }

  /**
   * The same client, byte size and dimensions always give the same identity
   * and any difference gives another: in particular two clients never share
   * a receipt.
   */
  lemma IdentityDeterminesImage(dir: string, c1: string, i1: string, e1: Environment,
                                c2: string, i2: string, e2: Environment)
    requires SaveImage(dir, c1, i1, e1).Some? && SaveImage(dir, c2, i2, e2).Some?
    ensures var a, b := SaveImage(dir, c1, i1, e1).value, SaveImage(dir, c2, i2, e2).value;
      a.identity == b.identity <==> c1 == c2 && a.size == b.size && a.width == b.width && a.height == b.height
  {
    var a, b := SaveImage(dir, c1, i1, e1).value, SaveImage(dir, c2, i2, e2).value;
    if a.identity == b.identity {
      ReceiptIdentityInjective(c1, a.size, a.width, a.height, c2, b.size, b.width, b.height);
    }
  }

  /**
   * Resubmitting the same image after a success, at any later time: the
   * second request pays another coin and is rejected as already processed
   * (the deduction comes before the receipt insert).
   */
  lemma ResubmissionIsRejected(s: DbState, dir: string, fields: Fields, idClient: string,
                               image: string, env: Environment, image2: string, env2: Environment)
    requires Process(s, dir, fields, idClient, image, env).outcome.Ok?
    requires Gate(Process(s, dir, fields, idClient, image, env).db, idClient).None?
    requires DecodeBase64Image(image2, env2) == DecodeBase64Image(image, env)
    requires env2.writeSucceeds && env2.probe == env.probe
    requires !env2.faults.receiptInsertFails
    ensures var first := Process(s, dir, fields, idClient, image, env);
      var second := Process(first.db, dir, first.fields, idClient, image2, env2);
      && second.outcome == BadRequest(AlreadyProcessed)
      && second.db.receipts == first.db.receipts
      && second.db.coins[idClient].available.value == first.db.coins[idClient].available.value - 1
  {
    var first := Process(s, dir, fields, idClient, image, env);
    SuccessRegistersReceipt(s, dir, fields, idClient, image, env);
    var saved, saved2 := SaveImage(dir, idClient, image, env), SaveImage(dir, idClient, image2, env2);
    assert saved2.Some? && saved2.value.identity == saved.value.identity;
    DuplicateIsRejected(first.db, dir, first.fields, idClient, image2, env2);
    AdmittedSpendsExactlyOneCoin(first.db, dir, first.fields, idClient, image2, env2);
  }

  /** A successful request has registered its image under the image's identity. */
  lemma SuccessRegistersReceipt(s: DbState, dir: string, fields: Fields, idClient: string,
                                image: string, env: Environment)
    requires Process(s, dir, fields, idClient, image, env).outcome.Ok?
    ensures var saved := SaveImage(dir, idClient, image, env);
      && saved.Some?
      && saved.value.identity !in s.receipts
      && Process(s, dir, fields, idClient, image, env).db.receipts
         == s.receipts[saved.value.identity := Receipt(idClient, saved.value.filename, "jpg", saved.value.fullPath,
                                                       saved.value.size, saved.value.width, saved.value.height)]
  {
    var started := Audit(Deducted(s, idClient), Transaction(idClient, None, None), env.faults.startInsertFails);
    var saved := SaveImage(dir, idClient, image, env).value;
    RegisterFrame(started, fields, idClient, saved, env);
  }

  // ---------------------------------------------------------------------------
  // The recognition stages and the answer
  // ---------------------------------------------------------------------------

  /**
   * A failing recognition stage is not caught: the request ends at that
   * stage, with the rows the stage committed before failing appended and the
   * fields as they stood. A request ends `Uncaught` only that way, and the
   * service itself then writes nothing: no `'00'` row, no receipt.
   */
  lemma StageFailureEndsRequest(s: DbState, fields: Fields, idClient: string, filename: string, fullPath: string,
                                env: Environment)
    ensures var first := env.recognizeBank(fullPath, fields.idNewReceipt);
      first.StageFailed? ==>
        Recognize(s, fields, idClient, filename, fullPath, env) == Run(Uncaught, WithProcessRows(s, first.inserted), fields)
    ensures var id := fields.idNewReceipt;
      var first := env.recognizeBank(fullPath, id);
      var s1 := WithProcessRows(s, first.inserted);
      var bankRow := Latest(s1.processRows, id);
      first.StageExited? && bankRow.Some? ==>
        var second := env.recognizeAmount(fullPath, bankRow.value.bank, bankRow.value.version, id);
        second.StageFailed? ==>
          Recognize(s, fields, idClient, filename, fullPath, env)
            == Run(Uncaught, WithProcessRows(s1, second.inserted),
                   fields.(bank := bankRow.value.bank, version := bankRow.value.version))
    ensures var r := Recognize(s, fields, idClient, filename, fullPath, env);
      var id := fields.idNewReceipt;
      var first := env.recognizeBank(fullPath, id);
      r.outcome == Uncaught ==>
        && r.db.transactions == s.transactions && r.db.receipts == s.receipts
        && (|| first.StageFailed?
            || (var bankRow := Latest(WithProcessRows(s, first.inserted).processRows, id);
                bankRow.Some? && env.recognizeAmount(fullPath, bankRow.value.bank, bankRow.value.version, id).StageFailed?))
  {
  }

  /**
   * Step 8 reads what step 7 wrote: when the first stage writes rows for
   * the receipt, bank and version are those of its last such write.
   */
  lemma FirstStageRowWins(s: DbState, fields: Fields, idClient: string, filename: string, fullPath: string,
                          env: Environment, k: nat)
    requires ValidState(s)
    requires env.recognizeBank(fullPath, fields.idNewReceipt).StageExited?
    requires var firstRows := env.recognizeBank(fullPath, fields.idNewReceipt).inserted;
      && k < |firstRows| && firstRows[k].receipt == fields.idNewReceipt
      && forall j :: k < j < |firstRows| ==> firstRows[j].receipt != fields.idNewReceipt
    ensures var r := Recognize(s, fields, idClient, filename, fullPath, env);
      var firstRows := env.recognizeBank(fullPath, fields.idNewReceipt).inserted;
      r.fields.bank == firstRows[k].bank && r.fields.version == firstRows[k].version
  {
    var id := fields.idNewReceipt;
    var firstRows := env.recognizeBank(fullPath, id).inserted;
    var added := NumberedRows(firstRows, s.nextProcessId);
    LatestAfterAppend(s, firstRows, id);
    forall i, j | 0 <= i < j < |added|
      ensures added[i].id < added[j].id
    {
    }
    LatestIsLastInserted(added, id, k);
    var s1 := WithProcessRows(s, firstRows);
    assert Latest(s1.processRows, id) == Some(added[k]);
    var row := added[k];
    match env.recognizeAmount(fullPath, row.bank, row.version, id)
    case StageFailed(_) =>
    case StageExited(secondRows) =>
      match Latest(WithProcessRows(s1, secondRows).processRows, id)
      case None =>
      case Some(amountRow) =>
  }

  /**
   * When the first stage writes no row for the receipt, step 8 falls back on
   * the receipt's newest earlier row, and with none at all the request is a
   * server error, with the coin already spent.
   */
  lemma FirstStageWithoutRow(s: DbState, fields: Fields, idClient: string, filename: string, fullPath: string,
                             env: Environment)
    requires ValidState(s)
    requires env.recognizeBank(fullPath, fields.idNewReceipt).StageExited?
    requires var firstRows := env.recognizeBank(fullPath, fields.idNewReceipt).inserted;
      forall j :: 0 <= j < |firstRows| ==> firstRows[j].receipt != fields.idNewReceipt
    ensures var r := Recognize(s, fields, idClient, filename, fullPath, env);
      var before := Latest(s.processRows, fields.idNewReceipt);
      && (before.None? ==> r.outcome == InternalError(ServerError))
      && (before.Some? ==> r.fields.bank == before.value.bank && r.fields.version == before.value.version)
  {
    var id := fields.idNewReceipt;
    var firstRows := env.recognizeBank(fullPath, id).inserted;
    var added := NumberedRows(firstRows, s.nextProcessId);
    LatestAfterAppend(s, firstRows, id);
    assert Latest(added, id).None?;
    var s1 := WithProcessRows(s, firstRows);
    match Latest(s1.processRows, id)
    case None =>
    case Some(bankRow) =>
      match env.recognizeAmount(fullPath, bankRow.bank, bankRow.version, id)
      case StageFailed(_) =>
      case StageExited(secondRows) =>
        match Latest(WithProcessRows(s1, secondRows).processRows, id)
        case None =>
        case Some(_) =>
  }

  /**
   * When the second stage writes no row for the receipt, step 10 reads the
   * row step 8 read: the answer carries that row's amount (NULL when only
   * the first stage wrote it) and the `'00'` row links to it.
   */
  lemma SecondStageWithoutRow(s: DbState, fields: Fields, idClient: string, filename: string, fullPath: string,
                              env: Environment)
    requires ValidState(s)
    requires env.recognizeBank(fullPath, fields.idNewReceipt).StageExited?
    requires var s1 := WithProcessRows(s, env.recognizeBank(fullPath, fields.idNewReceipt).inserted);
      var bankRow := Latest(s1.processRows, fields.idNewReceipt);
      && bankRow.Some?
      && env.recognizeAmount(fullPath, bankRow.value.bank, bankRow.value.version, fields.idNewReceipt).StageExited?
      && var secondRows := env.recognizeAmount(fullPath, bankRow.value.bank, bankRow.value.version,
                                               fields.idNewReceipt).inserted;
         forall j :: 0 <= j < |secondRows| ==> secondRows[j].receipt != fields.idNewReceipt
    requires !env.faults.finalInsertFails
    ensures var r := Recognize(s, fields, idClient, filename, fullPath, env);
      var s1 := WithProcessRows(s, env.recognizeBank(fullPath, fields.idNewReceipt).inserted);
      var bankRow := Latest(s1.processRows, fields.idNewReceipt).value;
      && r.outcome == Ok(bankRow.amount, filename)
      && r.fields.idReceiptProcess == bankRow.id
  {
    var id := fields.idNewReceipt;
    var s1 := WithProcessRows(s, env.recognizeBank(fullPath, id).inserted);
    WithProcessRowsKeepsValid(s, env.recognizeBank(fullPath, id).inserted);
    var bankRow := Latest(s1.processRows, id).value;
    var secondRows := env.recognizeAmount(fullPath, bankRow.bank, bankRow.version, id).inserted;
    LatestAfterAppend(s1, secondRows, id);
    assert Latest(NumberedRows(secondRows, s1.nextProcessId), id).None?;
  }

  /**
   * On success the answer is `{ monto, file }`: the amount of the latest row
   * of the new receipt, and `idClient_YYYYMMDDHHMMSS.jpg`; the last audit row
   * is `'00'`, linked to that latest row.
   */
  lemma SuccessAnswer(s: DbState, dir: string, fields: Fields, idClient: string,
                      image: string, env: Environment)
    requires Process(s, dir, fields, idClient, image, env).outcome.Ok?
    ensures var r := Process(s, dir, fields, idClient, image, env);
      var saved := SaveImage(dir, idClient, image, env);
      && saved.Some?
      && r.outcome.file == FileName(idClient, CompactTimestamp(env.nowIso))
      && Latest(r.db.processRows, saved.value.identity).Some?
      && r.outcome.monto == Latest(r.db.processRows, saved.value.identity).value.amount
      && |r.db.transactions| > 0
      && r.db.transactions[|r.db.transactions| - 1]
         == Transaction(idClient, Some(Latest(r.db.processRows, saved.value.identity).value.id), Some(SuccessCode))
  {
    SuccessRunsRecognize(s, dir, fields, idClient, image, env);
    var started := Audit(Deducted(s, idClient), Transaction(idClient, None, None), env.faults.startInsertFails);
    var img := SaveImage(dir, idClient, image, env).value;
    var receipt := Receipt(idClient, img.filename, "jpg", img.fullPath, img.size, img.width, img.height);
    RecognizeAnswer(WithReceipt(started, img.identity, receipt), fields.(idNewReceipt := img.identity),
                    idClient, img.filename, img.fullPath, env);
  }

  /** A successful request passed the gate, stored its image, registered it, and got its answer from steps 7 to 12. */
  lemma SuccessRunsRecognize(s: DbState, dir: string, fields: Fields, idClient: string,
                             image: string, env: Environment)
    requires Process(s, dir, fields, idClient, image, env).outcome.Ok?
    ensures Gate(s, idClient).None? && SaveImage(dir, idClient, image, env).Some?
    ensures var started := Audit(Deducted(s, idClient), Transaction(idClient, None, None), env.faults.startInsertFails);
      var img := SaveImage(dir, idClient, image, env).value;
      var receipt := Receipt(idClient, img.filename, "jpg", img.fullPath, img.size, img.width, img.height);
      && !env.faults.receiptInsertFails && img.identity !in started.receipts
      && Process(s, dir, fields, idClient, image, env)
         == Recognize(WithReceipt(started, img.identity, receipt), fields.(idNewReceipt := img.identity),
                      idClient, img.filename, img.fullPath, env)
  {
  }

  lemma RecognizeAnswer(s: DbState, fields: Fields, idClient: string, filename: string, fullPath: string,
                        env: Environment)
    requires Recognize(s, fields, idClient, filename, fullPath, env).outcome.Ok?
    ensures var r := Recognize(s, fields, idClient, filename, fullPath, env);
      var latest := Latest(r.db.processRows, fields.idNewReceipt);
      && latest.Some?
      && r.outcome.monto == latest.value.amount
      && |r.db.transactions| > 0
      && r.db.transactions[|r.db.transactions| - 1] == Transaction(idClient, Some(latest.value.id), Some(SuccessCode))
  {
    var id := fields.idNewReceipt;
    match env.recognizeBank(fullPath, id)
    case StageExited(firstRows) =>
      var s1 := WithProcessRows(s, firstRows);
      var bankRow := Latest(s1.processRows, id).value;
      match env.recognizeAmount(fullPath, bankRow.bank, bankRow.version, id)
      case StageExited(secondRows) =>
        var s2 := WithProcessRows(s1, secondRows);
        var amountRow := Latest(s2.processRows, id).value;
        var closed := WithTransaction(s2, Transaction(idClient, Some(amountRow.id), Some(SuccessCode)));
        assert closed.processRows == s2.processRows;
  }

  /**
   * When the second stage inserts rows for the receipt, the amount comes
   * from the last of them, whatever the first stage inserted.
   */
  lemma SecondStageRowWins(s: DbState, fields: Fields, idClient: string, filename: string, fullPath: string,
                           env: Environment, k: nat)
    requires ValidState(s)
    requires env.recognizeBank(fullPath, fields.idNewReceipt).StageExited?
    requires var s1 := WithProcessRows(s, env.recognizeBank(fullPath, fields.idNewReceipt).inserted);
      var bankRow := Latest(s1.processRows, fields.idNewReceipt);
      && bankRow.Some?
      && env.recognizeAmount(fullPath, bankRow.value.bank, bankRow.value.version, fields.idNewReceipt).StageExited?
      && var secondRows := env.recognizeAmount(fullPath, bankRow.value.bank, bankRow.value.version,
                                               fields.idNewReceipt).inserted;
         && k < |secondRows| && secondRows[k].receipt == fields.idNewReceipt
         && forall j :: k < j < |secondRows| ==> secondRows[j].receipt != fields.idNewReceipt
    ensures var r := Recognize(s, fields, idClient, filename, fullPath, env);
      var s1 := WithProcessRows(s, env.recognizeBank(fullPath, fields.idNewReceipt).inserted);
      var bankRow := Latest(s1.processRows, fields.idNewReceipt).value;
      var secondRows := env.recognizeAmount(fullPath, bankRow.bank, bankRow.version, fields.idNewReceipt).inserted;
      r.fields.monto == secondRows[k].amount
  {
    var id := fields.idNewReceipt;
    var s1 := WithProcessRows(s, env.recognizeBank(fullPath, id).inserted);
    WithProcessRowsKeepsValid(s, env.recognizeBank(fullPath, id).inserted);
    var bankRow := Latest(s1.processRows, id).value;
    var secondRows := env.recognizeAmount(fullPath, bankRow.bank, bankRow.version, id).inserted;
    var added := NumberedRows(secondRows, s1.nextProcessId);
    LatestAfterAppend(s1, secondRows, id);
    forall i, j | 0 <= i < j < |added|
      ensures added[i].id < added[j].id
    {
    }
    LatestIsLastInserted(added, id, k);
    var s2 := WithProcessRows(s1, secondRows);
    assert Latest(s2.processRows, id) == Some(added[k]);
  }

  /** A request keeps the store's serial invariant. */
  lemma ProcessKeepsValid(s: DbState, dir: string, fields: Fields, idClient: string,
                          image: string, env: Environment)
    requires ValidState(s)
    ensures ValidState(Process(s, dir, fields, idClient, image, env).db)
  {
    if Gate(s, idClient).None? {
      var started := Audit(Deducted(s, idClient), Transaction(idClient, None, None), env.faults.startInsertFails);
      var saved := SaveImage(dir, idClient, image, env);
      if saved.Some? && !env.faults.receiptInsertFails && saved.value.identity !in started.receipts {
        var image := saved.value;
        var receipt := Receipt(idClient, image.filename, "jpg", image.fullPath, image.size, image.width, image.height);
        var registered := WithReceipt(started, image.identity, receipt);
        var f := fields.(idNewReceipt := image.identity);
        RecognizeKeepsValid(registered, f, idClient, image.filename, image.fullPath, env);
      }
    }
  }

  lemma RecognizeKeepsValid(s: DbState, fields: Fields, idClient: string, filename: string, fullPath: string,
                            env: Environment)
    requires ValidState(s)
    ensures ValidState(Recognize(s, fields, idClient, filename, fullPath, env).db)
  {
    var id := fields.idNewReceipt;
    match env.recognizeBank(fullPath, id)
    case StageFailed(firstRows) =>
      WithProcessRowsKeepsValid(s, firstRows);
    case StageExited(firstRows) =>
      var s1 := WithProcessRows(s, firstRows);
      WithProcessRowsKeepsValid(s, firstRows);
      match Latest(s1.processRows, id)
      case None =>
      case Some(bankRow) =>
        match env.recognizeAmount(fullPath, bankRow.bank, bankRow.version, id)
        case StageFailed(secondRows) =>
          WithProcessRowsKeepsValid(s1, secondRows);
        case StageExited(secondRows) =>
          WithProcessRowsKeepsValid(s1, secondRows);
  }
}
