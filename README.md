# Receipt processing service, modelled in Dafny

The service takes a client credential and a base64 image of a bank-transfer
receipt and answers with the amount read from it. One request goes through
twelve steps:

1. check the credential (a `length` of 36 UTF-16 code units, a known client);
2. check that the client has a coin to spend;
3. spend it;
4. log the start of the transaction;
5. write the image to the upload directory;
6. register the receipt under an identity built from the client, the byte size
   and the dimensions;
7. run the bank-recognition stage;
8. read back the bank and version;
9. run the amount-recognition stage;
10. read back the amount;
11. log the success;
12. answer `{ monto, file }`.

A duplicate image is rejected. Each read-back takes the receipt's row with the
greatest process id. The `bank`, `version` and amount columns of those rows are
nullable. Their values are read without a null check, so the answer's `monto`
may be NULL.

The model has four modules:

- `Wrappers`: `Option`.
- `Text` (pure): the helpers.
  - the data-URL prefix strip of `decodeBase64Image`
  - the 14-digit timestamp
  - the file name `idClient_timestamp.jpg` and its path
  - the identity `idClient-size-width-height`
- `Store`: the database, held in memory.
  - the clients, the coin balances, the receipts keyed by identity, the
    append-only `receipts_process` rows with their serial ids, and the
    append-only `transactions` rows
  - the statements the service runs, as functions
  - "latest row wins" (`Latest`)
  - a `Database` class whose methods change those tables
- `Receipts`: the request as a pure function, `Process`. The imperative class
  `ReceiptService` has the same mutable fields as the source: `idNewReceipt`,
  `bank`, `version`, `monto` and `idReceiptProcess`. Its method `ProcessReceipt`
  is proved to do to the database and to those fields exactly what `Process`
  states.

`ReceiptProperties` proves what `Process` promises.

Everything the service cannot see is a parameter, an `Environment`:

- the clock's ISO string
- the base64 decoder
- whether the file write succeeds
- the image-size probe
- the two recognition executables, as functions of their arguments giving the
  rows they insert and whether they exit normally (a stage that fails may
  already have committed rows, which stay in the table)
- which of the four caught inserts fail

Two behaviours of the code are easy to misread:

- An undecodable image is a server error, not a client error.
  `decodeBase64Image` throws a `BadRequestException` (receipt.service.ts:59),
  but the call sits inside the step-5 `try`, whose handler (lines 133-135)
  replaces it with an `InternalServerErrorException`.
- Resubmitting an image that has already been processed still spends a coin
  before it is rejected. The deduction (step 3) comes before the receipt
  insert (step 6), and nothing gives the coin back.

## Model

| member | source | states |
|---|---|---|
| Text.FirstFrom | src/receipt/service/receipt.service.ts:53-54 | the search finds the first occurrence at or after the start position, and there is none before it |
| Text.Includes | src/receipt/service/receipt.service.ts:53 | `includes` holds exactly when the pattern occurs somewhere |
| Text.StripDataUrlPrefix | src/receipt/service/receipt.service.ts:51-55 | input without `base64,` passes unchanged; the result is never longer than the input |
| Text.StripTakesSecondSegment | src/receipt/service/receipt.service.ts:53-55 | with the first marker at `i`, the result is the text right after it up to the end or the next marker, and contains no marker: `split('base64,')[1]` |
| Text.StripUndoesDataUrlHeader | src/receipt/service/receipt.service.ts:52-55 | for a header and payload without the marker, stripping `header + "base64," + payload` gives back exactly the payload |
| Text.RemoveIsoPunctuation | src/receipt/service/receipt.service.ts:128 | the global replace leaves no `-`, `:`, `T`, `.` or `Z` and never grows the string; `RemoveDistributes` and `RemoveKeepsDigits` state what it keeps |
| Text.CompactTimestamp | src/receipt/service/receipt.service.ts:128 | the stripped, truncated ISO string has at most 14 characters and no `-`, `:`, `T`, `.`, `Z` |
| Text.RemoveDistributes | src/receipt/service/receipt.service.ts:128 | removing the ISO punctuation distributes over concatenation |
| Text.CompactTimestampOfIso | src/receipt/service/receipt.service.ts:128 | for a well-formed `YYYY-MM-DDTHH:MM:SS.mmmZ`, the timestamp is exactly `YYYYMMDDHHMMSS`: 14 digits |
| Text.FileName | src/receipt/service/receipt.service.ts:129 | the name is the client id, `_`, the timestamp and `.jpg`, each in its place |
| Text.FileNameInjective | src/receipt/service/receipt.service.ts:128-129 | for timestamps of equal length (14 digits for every ISO instant), equal file names mean the same client and the same timestamp |
| Text.JoinPath | src/receipt/service/receipt.service.ts:130 | the path ends with the file name |
| Text.NatToString | src/receipt/service/receipt.service.ts:148 | the decimal form of a number is non-empty, all digits, and one digit exactly below 10 |
| Text.NatToStringValue | src/receipt/service/receipt.service.ts:148 | the decimal form of `n` spells `n` in base 10, most significant digit first |
| Text.NatToStringInjective | src/receipt/service/receipt.service.ts:148 | different numbers print differently |
| Text.SplitAtLastDash | src/receipt/service/receipt.service.ts:148 | a string followed by `-digits` splits uniquely at its last dash |
| Text.ReceiptIdentity | src/receipt/service/receipt.service.ts:148 | the identity starts with the client id |
| Text.ReceiptIdentityInjective | src/receipt/service/receipt.service.ts:145-148 | equal identities mean the same client, size, width and height, even though the client id itself contains dashes |
| Text.Utf16Length | src/receipt/service/receipt.service.ts:82 | `length` counts UTF-16 code units: between one and two per character, and exactly one per character when none lies outside the Basic Multilingual Plane |
| Text.Utf16LengthOfConcat | src/receipt/service/receipt.service.ts:82 | code units add up over concatenation |
| Text.AppendCharLength | src/receipt/service/receipt.service.ts:82 | one more character adds one code unit, or two for a character outside the Basic Multilingual Plane |
| Store.CoinsNumber | src/receipt/service/receipt.service.ts:101 | a NULL balance reads as 0, any other as itself |
| Store.WithTransaction | src/receipt/service/receipt.service.ts:117-121 | an `INSERT INTO transactions` (also at 184-188 and 276-280) appends exactly its row and changes no other table; `TransactionsAppended` states the rows a whole request appends |
| Store.WithReceipt | src/receipt/service/receipt.service.ts:155-177 | the `INSERT INTO receipts` stores the receipt under its key, keeps every other receipt, and changes no other table; `RegisterFrame` and `ReceiptsOnlyGrow` state its effect on a request |
| Store.NumberedRows | src/receipt/service/receipt.service.ts:201-209 | each write of a stage becomes one row, with the write's receipt, bank, version and amount (NULLs kept), numbered consecutively from the serial's current value |
| Store.Deducted | src/receipt/service/receipt.service.ts:106-112 | the coin `UPDATE`: only the client's coins row changes; spent rises by one and available falls by one, so their sum is kept; a NULL balance stays NULL; no row means no change. `AdmittedSpendsExactlyOneCoin` states it for a request |
| Store.WithProcessRows | src/receipt/service/receipt.service.ts:201-209 | a stage's inserts only append to `receipts_process` and advance the serial by one per row; `WithProcessRowsKeepsValid` and `LatestAfterAppend` state what the appended rows mean |
| Store.WithProcessRowsKeepsValid | src/receipt/service/receipt.service.ts:201-209 | appending a stage's rows keeps the ids strictly increasing and below the serial |
| Store.Latest | src/receipt/service/receipt.service.ts:214-224 | no row exactly when no row belongs to the receipt; otherwise a row of that receipt whose id is at least every other such row's id |
| Store.LatestIsLastInserted | src/receipt/service/receipt.service.ts:253-263 | with serial ids, the answer is the receipt's last inserted row |
| Store.LatestOfConcat | src/receipt/service/receipt.service.ts:214-224 | the query over two batches is the later of its answers over each |
| Store.LatestAfterAppend | src/receipt/service/receipt.service.ts:237-263 | after a stage appends rows, one of them for the receipt wins over everything earlier; otherwise the earlier answer stands |
| Store.Database.constructor | src/db.service.ts:9-12 | the store starts in the given state |
| Store.Database.DeductCoin | src/receipt/service/receipt.service.ts:106-112 | the new state is the old one with one coin moved from available to spent (NULL stays NULL) |
| Store.Database.InsertTransaction | src/receipt/service/receipt.service.ts:116-124 | a failed insert leaves the table as it was; otherwise it appends exactly the row |
| Store.Database.InsertReceipt | src/receipt/service/receipt.service.ts:154-198 | another error, a unique violation on an existing key, or an insert of a new key, with the state changed only by the insert |
| Store.Database.InsertProcessRows | src/receipt/service/receipt.service.ts:201-209 | inserting row by row yields exactly the numbered rows appended and the serial advanced |
| Receipts.Audit | src/receipt/service/receipt.service.ts:116-124 | the best-effort audit insert (also at 183-191): a failure leaves the table as it was and is not reported, otherwise the row is appended; no other table changes. `BestEffortRowsDoNotDecide` states that its failure decides nothing |
| Receipts.Gate | src/receipt/service/receipt.service.ts:82-103 | a request passes steps 1 and 2 exactly when the id is 36 UTF-16 code units long, is known, and has a non-NULL balance of at least 1; otherwise it is one of the three rejections |
| Receipts.DecodeBase64Image | src/receipt/service/receipt.service.ts:51-61 | input without `base64,` goes to the decoder as it is; `StripUndoesDataUrlHeader` states the data-URL case |
| Receipts.SaveImage | src/receipt/service/receipt.service.ts:126-152 | an image is stored exactly when decoding, writing and measuring all succeed; it is then named `idClient_timestamp.jpg` under the upload directory, its size is the decoded length, its width and height are the probe's (0 when missing), and its identity is built from client, size, width and height |
| Receipts.Process | src/receipt/service/receipt.service.ts:64-287 | a refused request changes neither the store nor the fields; no request changes the clients; a success passed the gate and stored its image. `ReceiptProperties` states the rest |
| Receipts.Register | src/receipt/service/receipt.service.ts:154-198 | the answer is "already processed" exactly when the insert meets an existing identity; clients and coins never change; a success inserted the receipt (name, `jpg`, path, size, dimensions) under its new identity and keeps every other receipt |
| Receipts.Recognize | src/receipt/service/receipt.service.ts:200-287 | steps 7 to 12 end in `Ok`, a server error or an uncaught stage failure; `Ok` answers the file name and the `monto` field; clients, coins and receipts never change. A failing stage's committed rows are kept; `StageFailureEndsRequest` states when the request ends uncaught |
| Receipts.ReceiptService.constructor | src/receipt/service/receipt.service.ts:41-49 | the service keeps the upload directory and database, with empty fields |
| Receipts.ReceiptService.ProcessReceipt | src/receipt/service/receipt.service.ts:64-288 | the answer, the new database state and the new fields are exactly what `Process` gives for the old state |
| Receipts.ReceiptService.RecognizeAndClose | src/receipt/service/receipt.service.ts:200-287 | steps 7 to 12 do exactly what `Recognize` gives for the old state |
| ReceiptProperties.RecognizeFrame | src/receipt/service/receipt.service.ts:200-287 | steps 7 to 12 change only the process rows (by appending) and, on success, append the one `'00'` row |
| ReceiptProperties.RegisterFrame | src/receipt/service/receipt.service.ts:154-198 | the receipt insert adds at most the new receipt, the `'01'` row or what steps 7 to 12 add, and never touches clients or coins |
| ReceiptProperties.BadCredentialChangesNothing | src/receipt/service/receipt.service.ts:82-91 | a credential whose UTF-16 length is not 36, or that is unknown, is a BadRequest, with the store and the fields unchanged |
| ReceiptProperties.CoinGateChangesNothing | src/receipt/service/receipt.service.ts:94-103 | no coins row is a NotFound; fewer than one coin is a BadRequest; nothing changes either way |
| ReceiptProperties.AdmittedSpendsExactlyOneCoin | src/receipt/service/receipt.service.ts:106-112 | past the gate, whatever the outcome, exactly one coin moves from available to spent, other clients are untouched and nothing is refunded |
| ReceiptProperties.BalancesStayNonNegative | src/receipt/service/receipt.service.ts:101-113 | a request never makes a balance negative |
| ReceiptProperties.TransactionsAppended | src/receipt/service/receipt.service.ts:115-124 | `transactions` only grows: nothing when the gate refuses, else the start row and then the `'01'` or `'00'` row, each unless its insert failed |
| ReceiptProperties.SuccessRowOnlyOnSuccess | src/receipt/service/receipt.service.ts:274-284 | a `'00'` row is added if and only if the request succeeds |
| ReceiptProperties.BestEffortRowsDoNotDecide | src/receipt/service/receipt.service.ts:122-124 | failures of the start and `'01'` inserts change neither the answer, the fields nor any other table |
| ReceiptProperties.RegisterIgnoresAuditTable | src/receipt/service/receipt.service.ts:154-198 | the receipt insert and later steps never depend on the audit table |
| ReceiptProperties.RecognizeIgnoresAuditTable | src/receipt/service/receipt.service.ts:200-284 | the stages and read-backs never depend on the audit table |
| ReceiptProperties.FinalRowDecides | src/receipt/service/receipt.service.ts:281-284 | if the `'00'` insert fails the request never succeeds, and a request that would have succeeded becomes a server error |
| ReceiptProperties.RecognizeFinalRow | src/receipt/service/receipt.service.ts:274-287 | the same, for steps 7 to 12 |
| ReceiptProperties.ReceiptsOnlyGrow | src/receipt/service/receipt.service.ts:154-180 | registered receipts are never overwritten or removed; the only receipt added is under the request's own identity |
| ReceiptProperties.DuplicateIsRejected | src/receipt/service/receipt.service.ts:181-193 | an already registered identity is a BadRequest with the receipts unchanged, the start and `'01'` rows appended, and the coin still spent |
| ReceiptProperties.IdentityDeterminesImage | src/receipt/service/receipt.service.ts:145-148 | two stored images share an identity exactly when client, size, width and height agree |
| ReceiptProperties.ResubmissionIsRejected | src/receipt/service/receipt.service.ts:106-193 | the same image sent again after a success is rejected as already processed, and another coin is spent |
| ReceiptProperties.SuccessRegistersReceipt | src/receipt/service/receipt.service.ts:154-180 | a successful request registered a receipt under a new identity, holding its name, `jpg`, its path, size and dimensions |
| ReceiptProperties.StageFailureEndsRequest | src/receipt/utils/run-python.util.ts:13-27 | a stage that exits non-zero makes `runExecutable` throw, and nothing in the service catches it (receipt.service.ts:200-248): a failing bank stage ends the request with only the rows that stage committed appended; a failing amount stage ends it with both stages' committed rows and the bank and version read; a request ends uncaught only in those two ways, and the service itself then writes no `'00'` row and no receipt |
| ReceiptProperties.FirstStageRowWins | src/receipt/service/receipt.service.ts:200-227 | when the bank stage writes rows for the receipt, bank and version are those of its last such write, whatever older rows hold |
| ReceiptProperties.FirstStageWithoutRow | src/receipt/service/receipt.service.ts:212-232 | when the bank stage writes no row for the receipt, bank and version come from the receipt's newest earlier row; with none, the request is a server error |
| ReceiptProperties.SecondStageWithoutRow | src/receipt/service/receipt.service.ts:236-287 | when the amount stage writes no row for the receipt, the answer is `Ok` with the amount of the row step 8 read (NULL if the bank stage left it NULL), and that row's id goes into the `'00'` row |
| ReceiptProperties.SuccessAnswer | src/receipt/service/receipt.service.ts:274-287 | on success, `file` is `idClient_timestamp.jpg`, `monto` is the amount of the receipt's latest row, and the last audit row is `'00'` linked to that row |
| ReceiptProperties.SuccessRunsRecognize | src/receipt/service/receipt.service.ts:64-200 | a successful request passed the gate, stored its image, inserted its receipt without a fault or a duplicate, and took its answer from steps 7 to 12 |
| ReceiptProperties.RecognizeAnswer | src/receipt/service/receipt.service.ts:253-287 | when steps 7 to 12 succeed, the answer's `monto` is the amount of the receipt's latest row and the last audit row is `'00'` linked to that row's id |
| ReceiptProperties.SecondStageRowWins | src/receipt/service/receipt.service.ts:236-266 | when the amount stage writes rows for the receipt, the amount is that of its last write, whatever the first stage wrote |
| ReceiptProperties.ProcessKeepsValid | src/receipt/service/receipt.service.ts:200-271 | a request keeps the process ids increasing and below the serial |
| ReceiptProperties.RecognizeKeepsValid | src/receipt/service/receipt.service.ts:200-271 | the same, for steps 7 to 12 |

## Left out

- The receipt key is `md5(identity)::uuid`. The model keys receipts by the identity itself, which treats md5 as injective. `idNewReceipt` holds the identity.
- Base64 decoding (`Buffer.from`), the file system (write, `statSync`, `readFileSync`) and `image-size` are environment parameters. The size read back is taken as the length of the decoded buffer.
- Both recognition executables are functions giving the rows they insert and whether they exit normally. Their standard output, the database credentials passed to them and their own logic are not part of this model.
- A recognition executable that never exits is not modelled. No timeout is set, so in the source such a stage blocks the request forever; every modelled stage either fails or exits.
- The NULL `bank` and `version` are handed to the amount stage as they are. How `execFile` turns a null argument into text is left to that function.
- SELECT failures, UPDATE failures and the failure of the whole connection pool (steps 1 to 3, 8 and 10) are not modelled. The four caught inserts are.
- `console` logging is not modelled.
- Concurrent requests, including the race between two requests sharing the service's fields, are not modelled. Requests run one after the other.
- Text.JoinPath: `path.join` normalisation (`..`, repeated `/`) is not modelled. Only the separator between the directory and the name is.
- Text.CompactTimestampOfIso: covers four-digit years only. The extended `±YYYYYY` form of `toISOString` is not covered.
- Text.NatToString: JavaScript's exponent notation for very large numbers is not modelled.
- `coins_spent` is modelled as non-null.
- The constructor's `mkdirSync` of the upload directory is not modelled.
- An exception the service does not catch (a failing recognition stage) is the outcome `Uncaught`. The framework's mapping of it to an HTTP status is not modelled.
- src/receipt/controller/receipt.controller.ts, src/receipt/dto/create-receipt.dto.ts and src/app.module.ts (request validation, routing, wiring) are not part of this model.
