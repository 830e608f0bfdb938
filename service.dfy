/**
 * The receipt-processing orchestrator `ReceiptService.processReceipt`:
 * credential gate, coin gate and deduction, start-of-transaction audit row,
 * storing and measuring the image, registering the receipt under its
 * identity (rejecting duplicates), two recognition stages whose results are
 * read back "latest row wins", and the final `'00'` audit row.
 *
 * `Process` states what one request does to the store; the method
 * `ReceiptService.ProcessReceipt` runs it step by step and is proved equal to it.
 */
module Receipts {
  import opened Wrappers
  import opened Text
  import opened Store

  type Bytes = seq<bv8>

  /** What `image-size` reports; either dimension may be missing. */
  datatype Dimensions = Dimensions(width: Option<nat>, height: Option<nat>)

  /**
   * How a recognition subprocess ends, with the rows it inserted into
   * `receipts_process` on its own connection: it exits non-zero (so
   * `runExecutable` throws), or it exits normally. A failing subprocess may
   * already have committed some rows; they stay in the table.
   */
  datatype StageRun = StageFailed(inserted: seq<ProcessWrite>) | StageExited(inserted: seq<ProcessWrite>)

  /** The database writes that fail during this request (each of them throws when it fails). */
  datatype Faults = Faults(
    startInsertFails: bool,      // INSERT of the start-of-transaction row
    receiptInsertFails: bool,    // INSERT INTO receipts, with an error other than 23505
    duplicateInsertFails: bool,  // INSERT of the '01' row
    finalInsertFails: bool)      // INSERT of the '00' row

  /**
   * Everything the service gets from outside the store: the clock, the
   * base64 decoder, the file system, the image probe and the two
   * recognition subprocesses (as functions of the arguments they are given).
   */
  datatype Environment = Environment(
    nowIso: string,                                                // new Date().toISOString()
    decodeBase64: string -> Option<Bytes>,                         // Buffer.from(_, 'base64'); None: it throws
    writeSucceeds: bool,                                           // fs.writeFileSync
    probe: Bytes -> Option<Dimensions>,                            // statSync, readFileSync, imageSize; None: one throws
    recognizeBank: (string, string) -> StageRun,                   // (fullPath, idNewReceipt)
    recognizeAmount: (string, Column, Column, string) -> StageRun, // (fullPath, bank, version, idNewReceipt)
    faults: Faults)

  /**
   * How a request ends: the `{ monto, file }` answer, one of the HTTP
   * exceptions the service throws, or an exception it does not catch (a
   * failing recognition subprocess), which the framework answers as a server error.
   */
  datatype Outcome =
    | Ok(monto: Column, file: string)
    | BadRequest(message: string)
    | NotFound(message: string)
    | InternalError(message: string)
    | Uncaught

  const WrongCredential: string := "Clave incorrecta"
  const NoCoinsConfigured: string := "Error en servicio, contacte a soporte."
  const NoCoinsLeft: string := "Sin fichas disponibles, contacte a ventas al WhatsApp 8127278053 para adquirir más."
  const AlreadyProcessed: string := "La imagen ya fue procesada antes."
  const ServerError: string := "Error en servidor contacte a soporte."

  /** The length of a valid credential, in UTF-16 code units. */
  const CredentialLength: nat := 36

  /**
   * The service's instance fields that a request writes; the columns read
   * into `bank`, `version` and `monto` may be NULL.
   */
  datatype Fields = Fields(idNewReceipt: string, bank: Column, version: Column, monto: Column, idReceiptProcess: nat)

  /** The outcome of a request, the store after it, and the service's fields after it. */
  datatype Run = Run(outcome: Outcome, db: DbState, fields: Fields)

  // ---------------------------------------------------------------------------
  // The request, step by step, as functions
  // ---------------------------------------------------------------------------

  /** Steps 1 and 2: the rejection of a request that may not spend a coin, or None when it may. */
  function Gate(s: DbState, idClient: string): (rejection: Option<Outcome>)
    ensures rejection.None? <==>
      && Utf16Length(idClient) == 36 && idClient in s.clients && idClient in s.coins
      && s.coins[idClient].available.Some? && s.coins[idClient].available.value >= 1
    ensures rejection.Some? ==>
      rejection.value in {BadRequest(WrongCredential), NotFound(NoCoinsConfigured), BadRequest(NoCoinsLeft)}
  {
    if Utf16Length(idClient) != CredentialLength || idClient !in s.clients then Some(BadRequest(WrongCredential))
    else if idClient !in s.coins then Some(NotFound(NoCoinsConfigured))
    else if CoinsNumber(s.coins[idClient].available) < 1 then Some(BadRequest(NoCoinsLeft))
    else None
  }

  /** A best-effort audit insert: a failure leaves the table as it was and is not reported. */
  function Audit(s: DbState, t: Transaction, fails: bool): (r: DbState)
    ensures r.transactions == s.transactions + (if fails then [] else [t])
    ensures r.clients == s.clients && r.coins == s.coins && r.receipts == s.receipts
    ensures r.processRows == s.processRows && r.nextProcessId == s.nextProcessId
  {
    if fails then s else WithTransaction(s, t)
  }

  /** `decodeBase64Image`: strip the data-URL prefix, then decode. */
  function DecodeBase64Image(imageBase64: string, env: Environment): (buffer: Option<Bytes>)
    ensures !Includes(imageBase64, Marker) ==> buffer == env.decodeBase64(imageBase64)
  {
    env.decodeBase64(StripDataUrlPrefix(imageBase64))
  }

  /** What steps 5 and 6 learn about the stored image. */
  datatype StoredImage = StoredImage(filename: string, fullPath: string,
                                     size: nat, width: nat, height: nat, identity: string)

  /**
   * Steps 5 and 6 up to the identity: name and write the file, measure it
   * and derive the identity; None when decoding, writing or measuring throws.
   */
  function SaveImage(uploadDir: string, idClient: string, imageBase64: string, env: Environment): (saved: Option<StoredImage>)
    ensures saved.Some? <==>
      && DecodeBase64Image(imageBase64, env).Some? && env.writeSucceeds
      && env.probe(DecodeBase64Image(imageBase64, env).value).Some?
    ensures saved.Some? ==>
      && saved.value.filename == FileName(idClient, CompactTimestamp(env.nowIso))
      && saved.value.fullPath == JoinPath(uploadDir, saved.value.filename)
      && saved.value.size == |DecodeBase64Image(imageBase64, env).value|
      && (var d := env.probe(DecodeBase64Image(imageBase64, env).value).value;
          saved.value.width == d.width.GetOr(0) && saved.value.height == d.height.GetOr(0))
      && saved.value.identity == ReceiptIdentity(idClient, saved.value.size, saved.value.width, saved.value.height)
  {
    var filename := FileName(idClient, CompactTimestamp(env.nowIso));
    match DecodeBase64Image(imageBase64, env)
    case None => None
    case Some(buffer) =>
      if !env.writeSucceeds then None
      else match env.probe(buffer)
        case None => None
        case Some(dimensions) =>
          var width, height := dimensions.width.GetOr(0), dimensions.height.GetOr(0);
          Some(StoredImage(filename, JoinPath(uploadDir, filename), |buffer|, width, height,
                           ReceiptIdentity(idClient, |buffer|, width, height)))
  }

  /** The whole request. */
  function Process(s: DbState, uploadDir: string, fields: Fields,
                   idClient: string, imageBase64: string, env: Environment): (r: Run)
    ensures Gate(s, idClient).Some? ==> r.db == s && r.fields == fields
    ensures r.db.clients == s.clients
    ensures r.outcome.Ok? ==> Gate(s, idClient).None? && SaveImage(uploadDir, idClient, imageBase64, env).Some?
  {
    match Gate(s, idClient)
    case Some(rejection) => Run(rejection, s, fields)
    case None =>
      var paid := Deducted(s, idClient);
      var started := Audit(paid, Transaction(idClient, None, None), env.faults.startInsertFails);
      match SaveImage(uploadDir, idClient, imageBase64, env)
      case None => Run(InternalError(ServerError), started, fields)
      case Some(image) => Register(started, fields, idClient, image, env)
  }

  /** The receipt insert, with its duplicate path. */
  function Register(s: DbState, fields: Fields, idClient: string, image: StoredImage, env: Environment): (r: Run)
    ensures r.db.clients == s.clients && r.db.coins == s.coins
    ensures r.outcome == BadRequest(AlreadyProcessed) <==> !env.faults.receiptInsertFails && image.identity in s.receipts
    ensures r.outcome.Ok? ==> image.identity !in s.receipts && r.fields.idNewReceipt == image.identity
    ensures r.outcome.Ok? ==> r.db.receipts == s.receipts[image.identity := Receipt(idClient, image.filename, "jpg",
                                                  image.fullPath, image.size, image.width, image.height)]
  {
    if env.faults.receiptInsertFails then Run(InternalError(ServerError), s, fields)
    else if image.identity in s.receipts then
      var logged := Audit(s, Transaction(idClient, None, Some(DuplicateCode)), env.faults.duplicateInsertFails);
      Run(BadRequest(AlreadyProcessed), logged, fields)
    else
      var receipt := Receipt(idClient, image.filename, "jpg", image.fullPath, image.size, image.width, image.height);
      Recognize(WithReceipt(s, image.identity, receipt), fields.(idNewReceipt := image.identity),
                idClient, image.filename, image.fullPath, env)
  }

  /** Steps 7 to 12: the two stages, each read back "latest row wins", and the final audit row. */
  function Recognize(s: DbState, fields: Fields, idClient: string, filename: string, fullPath: string,
                     env: Environment): (r: Run)
    ensures r.outcome.Ok? || r.outcome == InternalError(ServerError) || r.outcome == Uncaught
    ensures r.outcome.Ok? ==> r.outcome.file == filename && r.outcome.monto == r.fields.monto
    ensures r.db.clients == s.clients && r.db.coins == s.coins && r.db.receipts == s.receipts
    ensures r.fields.idNewReceipt == fields.idNewReceipt
  {
    match env.recognizeBank(fullPath, fields.idNewReceipt)
    case StageFailed(partial) => Run(Uncaught, WithProcessRows(s, partial), fields)
    case StageExited(firstRows) =>
      var s1 := WithProcessRows(s, firstRows);
      match Latest(s1.processRows, fields.idNewReceipt)
      case None => Run(InternalError(ServerError), s1, fields)
      case Some(bankRow) =>
        var fields1 := fields.(bank := bankRow.bank, version := bankRow.version);
        match env.recognizeAmount(fullPath, fields1.bank, fields1.version, fields1.idNewReceipt)
        case StageFailed(partial) => Run(Uncaught, WithProcessRows(s1, partial), fields1)
        case StageExited(secondRows) =>
          var s2 := WithProcessRows(s1, secondRows);
          match Latest(s2.processRows, fields1.idNewReceipt)
          case None => Run(InternalError(ServerError), s2, fields1)
          case Some(amountRow) =>
            var fields2 := fields1.(idReceiptProcess := amountRow.id, monto := amountRow.amount);
            if env.faults.finalInsertFails then Run(InternalError(ServerError), s2, fields2)
            else
              var closed := WithTransaction(s2, Transaction(idClient, Some(amountRow.id), Some(SuccessCode)));
              Run(Ok(amountRow.amount, filename), closed, fields2)
  }

  // ---------------------------------------------------------------------------
  // The service
  // ---------------------------------------------------------------------------

  class ReceiptService {
    const uploadDir: string
    const db: Database
    var idNewReceipt: string
    var bank: Column
    var version: Column
    var monto: Column
    var idReceiptProcess: nat

    function Current(): Fields
      reads this
    {
      Fields(idNewReceipt, bank, version, monto, idReceiptProcess)
    }

    constructor (uploadDir: string, db: Database)
      ensures this.uploadDir == uploadDir && this.db == db
      ensures Current() == Fields("", None, None, None, 0)
    {
      this.uploadDir := uploadDir;
      this.db := db;
      idNewReceipt, bank, version, monto, idReceiptProcess := "", None, None, None, 0;
    }

    /** `processReceipt(idClient, imageBase64)`. */
    method ProcessReceipt(idClient: string, imageBase64: string, env: Environment) returns (outcome: Outcome)
      modifies this, db
      ensures Run(outcome, db.State(), Current())
        == Process(old(db.State()), uploadDir, old(Current()), idClient, imageBase64, env)
    {
      // Step 1: the credential must be 36 UTF-16 code units long and known
      if Utf16Length(idClient) != CredentialLength || idClient !in db.clients {
        return BadRequest(WrongCredential);
      }

      // Step 2: the client must have a coins row with at least one coin
      if idClient !in db.coins {
        return NotFound(NoCoinsConfigured);
      }
      var coins := CoinsNumber(db.coins[idClient].available);
      if coins < 1 {
        return BadRequest(NoCoinsLeft);
      }

      // Step 3: spend the coin; nothing below gives it back
      db.DeductCoin(idClient);

      // Step 4: start-of-transaction row, best effort
      var started := db.InsertTransaction(Transaction(idClient, None, None), env.faults.startInsertFails);

      // Step 5: name, decode and write the image
      var nowFormatted := CompactTimestamp(env.nowIso);
      var filename := FileName(idClient, nowFormatted);
      var fullPath := JoinPath(uploadDir, filename);
      var buffer := DecodeBase64Image(imageBase64, env);
      if buffer.None? || !env.writeSucceeds {
        return InternalError(ServerError);
      }

      // Step 6: measure the image, derive its identity and register it
      var size := |buffer.value|;
      var dimensions := env.probe(buffer.value);
      if dimensions.None? {
        return InternalError(ServerError);
      }
      var width := dimensions.value.width.GetOr(0);
      var height := dimensions.value.height.GetOr(0);
      var idReceiptInserts := ReceiptIdentity(idClient, size, width, height);
      var receipt := Receipt(idClient, filename, "jpg", fullPath, size, width, height);
      var inserted := db.InsertReceipt(idReceiptInserts, receipt, env.faults.receiptInsertFails);
      if inserted.OtherError? {
        return InternalError(ServerError);
      } else if inserted.UniqueViolation? {
        var logged := db.InsertTransaction(Transaction(idClient, None, Some(DuplicateCode)),
                                           env.faults.duplicateInsertFails);
        return BadRequest(AlreadyProcessed);
      }
      idNewReceipt := idReceiptInserts;
      outcome := RecognizeAndClose(idClient, filename, fullPath, env);
    }

    /** Steps 7 to 12, once the receipt is registered under `idNewReceipt`. */
    method RecognizeAndClose(idClient: string, filename: string, fullPath: string, env: Environment)
      returns (outcome: Outcome)
      modifies this, db
      ensures Run(outcome, db.State(), Current())
        == Recognize(old(db.State()), old(Current()), idClient, filename, fullPath, env)
    {
      // Step 7: first recognition stage; its rows are committed even when it
      // then fails, and a failure is not caught
      var stepOne := env.recognizeBank(fullPath, idNewReceipt);
      db.InsertProcessRows(stepOne.inserted);
      if stepOne.StageFailed? {
        return Uncaught;
      }

      // Step 8: bank and version from the latest row of the receipt
      var bankRow := Latest(db.processRows, idNewReceipt);
      if bankRow.None? {
        return InternalError(ServerError);
      }
      bank, version := bankRow.value.bank, bankRow.value.version;

      // Step 9: second recognition stage, likewise
      var stepTwo := env.recognizeAmount(fullPath, bank, version, idNewReceipt);
      db.InsertProcessRows(stepTwo.inserted);
      if stepTwo.StageFailed? {
        return Uncaught;
      }

      // Step 10: the amount from the latest row of the receipt
      var amountRow := Latest(db.processRows, idNewReceipt);
      if amountRow.None? {
        return InternalError(ServerError);
      }
      idReceiptProcess, monto := amountRow.value.id, amountRow.value.amount;

      // Step 11: the '00' row; unlike the other audit rows, its failure fails the request
      var closed := db.InsertTransaction(Transaction(idClient, Some(idReceiptProcess), Some(SuccessCode)),
                                         env.faults.finalInsertFails);
      if !closed {
        return InternalError(ServerError);
      }

      // Step 12
      return Ok(monto, filename);
    }
  }
}
