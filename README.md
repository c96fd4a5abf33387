# Event QR pipeline — a verified model

This project models the row pipeline of a small event-registration tool
that is driven by a spreadsheet. There are three scripts, and each one walks
the rows of one worksheet. The worksheet is a table of strings whose row 0
holds the headers.

- **Identifier assigner** (`add_unique_ids_to_sheet`):
  - locates the `unique_id` header, or appends it just past the last header;
  - draws one fresh identifier per data row;
  - writes them in one batch to the A1 range `L2:L<rows>`, where `L = chr(64 + column)`.
- **QR generator** (`generate_qr_codes_from_sheet`):
  - creates the `qr_codes` directory if it is missing;
  - for every data row with a non-empty identifier, saves an image that encodes the full identifier;
  - the image is saved under `qr_codes/qr_<first 8 characters>.png`.
- **Delivery dispatcher** (`send_emails_with_qr_codes`):
  - resolves the `unique_id`, `email` and `name` columns;
  - creates the `email_sent` column when it is missing;
  - walks the data rows of the snapshot it read. It skips rows whose marker reads "yes" and rows missing an identifier or address;
  - mails every other row with its QR image, and writes "yes" to that row right after a successful send;
  - counts sent and skipped rows.

The worksheet is a class, `Sheets.Sheet`. Its `cells` field is the table.
Its `log` field holds the write requests sent to the store, one entry per
round trip. `update_cell` and `batch_update` are methods that change both
fields. Four external effects are parameters of the model:

- **UUID source.** `uuid(k)` is the k-th identifier drawn.
- **Mail transport.** `transport(k, m)` says whether the k-th send of the run, of message `m`, succeeded.
- **QR file store.** This is the class `QrGenerator.FileStore`. It holds the set of existing directories and a map from path to saved payload.
- **Store answers.** `accept(k)`, a constant of `Sheets.Sheet`, says whether the k-th request of the session to the sheet went through. A request that fails changes no cell.

Modules:

- `Options`
- `Text`: Python's `strip`, `lower`, slicing, `replace` and `str(int)`.
- `Sheets`: the table, `update_cell`, A1 ranges and `batch_update`.
- `IdAssigner`: generate_uniqueId.py.
- `QrGenerator`: generate_QR.py.
- `Dispatcher`: send_email_with_QR.py.

When a request fails, the client raises, and the `except Exception` around
each script's body ends the run (send_email_with_QR.py:221-222,
generate_uniqueId.py:85-86). Earlier writes stay.

Behaviour of the code that a reader might not expect:

- **The assigner is not idempotent.** Every run draws a new identifier for every data row and overwrites the whole identifier column, whatever it held (`IdAssigner.BatchOverwritesEveryDataRow`, `IdAssigner.AssignEffect`).
- **Identifier columns 33 to 58 are spelled with a lower-case letter.** `chr(64 + col)` is then `a`..`z`, and A1 letters are read without regard to case. The batch therefore overwrites column `col - 32`, an existing column, and the identifier column only gets its header (`IdAssigner.LowerCaseLetterOverwrites`).
- **An empty name does not block a send.** Only the identifier and the stripped address must be non-empty (send_email_with_QR.py:193, `Dispatcher.ReadyIff`).
- **Delivery is at most once only for rows whose mark went through.** The "yes" mark is requested right after a successful send, before the next row is looked at. A later run sends none of the marked rows (`Dispatcher.RerunSkipsDelivered`). When the mark request fails, the run ends with that row mailed but unmarked. A later run plans it again and mails it again, unless that run itself stops at a failed mark before it reaches the row (`Dispatcher.FailedMarkIsResent`).

## Model

| member | source | states |
|---|---|---|
| Text.Strip | send_email_with_QR.py:171 | The result is a contiguous slice of the input. Everything cut off at either end is whitespace in Python's sense. The result neither starts nor ends with whitespace. |
| Text.StripEmptyIff | send_email_with_QR.py:190-193 | A stripped cell is empty exactly when the cell is all whitespace. |
| Text.LowerIsYesIff | send_email_with_QR.py:171-174 | The lowered text equals "yes" exactly when it is three characters: `y`/`Y`, `e`/`E`, `s`/`S`. |
| Text.Prefix | generate_QR.py:87 | `id[:8]` is a prefix of the identifier. It is the whole identifier when that is at most 8 characters long, and exactly 8 characters otherwise. |
| Text.ReplaceAbsent | send_email_with_QR.py:54 | `ReplaceAll` (`str.replace`) leaves a text without the pattern unchanged. |
| Text.OccurrencesZeroIff | send_email_with_QR.py:54 | No occurrence is counted exactly when the pattern does not occur. |
| Text.ReplaceLength | send_email_with_QR.py:54 | Counting only: the length of `ReplaceAll`'s result changes by one pattern-for-replacement swap per occurrence. Where the replacements go is stated by `Text.ReplaceFirst`. |
| Text.ReplaceFirst | send_email_with_QR.py:54 | `ReplaceAll` (`str.replace`) puts the replacement in place of the first occurrence. The text before it is kept as it was, and the text after it is replaced in the same way. |
| Text.FirstOccurrence | send_email_with_QR.py:54 | Every text in which the pattern occurs splits as `a + pattern + b`, where no occurrence starts inside `a` or overlaps the pattern's start. So `Text.ReplaceFirst` applies to every such text. |
| Text.Decimal | generate_uniqueId.py:71-72 | `str(n)` is a non-empty run of digits with no leading zero. |
| Text.DecimalRoundTrip | generate_uniqueId.py:71-72 | Reading the digits of `str(n)` back gives `n`. |
| Sheets.IndexOf | send_email_with_QR.py:147 | `list.index` returns the first position holding the value. |
| Sheets.IndexOfAppend | send_email_with_QR.py:153-158 | Appending a header moves no existing header's first position. |
| Sheets.SetCell | send_email_with_QR.py:203 | `update_cell(row, col, v)` sets exactly that 1-based cell. It pads the row, and the table, with empty cells as needed. Every other cell and every other row are unchanged. |
| Sheets.AppendHeader | send_email_with_QR.py:153-155 | Writing row 1, column `len(headers)+1` appends exactly one header and leaves the data rows as they were. |
| Sheets.ColumnOfIgnoresCase | generate_uniqueId.py:71-72 | A lower-case column letter names the same column as its upper-case partner. |
| Sheets.ColumnLettersOneToOne | generate_uniqueId.py:71-72 | `A`..`Z` name the columns 1 to 26 one each: two upper-case letters naming the same column are the same letter, and every column 1..26 is named by an upper-case letter. |
| Sheets.ParseRange | generate_uniqueId.py:71-73 | A range the store accepts names one column 1..26 and rows from 1 up. |
| Sheets.ParseColumnRange | generate_uniqueId.py:71-72 | A range built as letter, row, colon, letter, row reads back as the letter's column and those rows. |
| Sheets.RangeNeedsColumnLetter | generate_uniqueId.py:71-72 | A range whose first character is no column letter is rejected. |
| Sheets.CellAfterWriteRows | generate_uniqueId.py:73 | `WriteRows`, the effect of a column batch, sets exactly the cells of its rows in its column and keeps every other cell. |
| Sheets.WriteRowsKeepsHeader | generate_uniqueId.py:73 | `WriteRows` starting at row 2 leaves the header row unchanged. |
| Sheets.Sheet.UpdateCell | send_email_with_QR.py:203 | `ok` is the store's answer to this request. Only when it is true do the cells become `SetCell` of the old cells. The log gains the request either way. |
| Sheets.Sheet.BatchUpdate | generate_uniqueId.py:73 | The request succeeds exactly when the store answers yes and `ApplyBatch` accepts the range. Then the cells become `ApplyBatch`'s table; otherwise no cell changes. The log gains the request either way. |
| IdAssigner.IdColumn | generate_uniqueId.py:48-55 | The column is the first `unique_id` header's position plus one, or `len(headers)+1` when there is none. |
| IdAssigner.TargetColumnIs | generate_uniqueId.py:71-72 | The range `ColumnLetter`/`A1Range` spell with `chr(64 + col)` addresses column `col` for 1..26 and column `col - 32` for 33..58. It addresses no column otherwise. |
| IdAssigner.A1RangeNamesColumn | generate_uniqueId.py:71-72 | When `chr(64 + col)` is a column letter, `A1Range` names the column it addresses, rows 2 to `num_rows`. |
| IdAssigner.A1RangeWithoutColumn | generate_uniqueId.py:71-72 | When `chr(64 + col)` is no column letter, the store rejects the range `A1Range` spells. |
| IdAssigner.BatchOverwritesEveryDataRow | generate_uniqueId.py:65-73 | When the column is spelled with a column letter, the batch is accepted. Every data row's cell in the addressed column gets its new identifier, whatever it held. No other cell changes. |
| IdAssigner.IdHeaderStep | generate_uniqueId.py:48-55 | `WithIdHeader` appends the header at most once. Only the header cell of the identifier column can change. |
| IdAssigner.BatchAccepted | generate_uniqueId.py:71-73 | When the column is spelled with a column letter, the store accepts the run's batch, and the table it writes is `AssignedTable`. A range spelled with any other character is rejected. |
| IdAssigner.AssignEffect | generate_uniqueId.py:48-73 | `AssignedTable`, the table a successful run leaves, cell by cell: the header cell holds `unique_id`, and every data row of the addressed column holds its new identifier. All else is unchanged. |
| IdAssigner.LowerCaseLetterOverwrites | generate_uniqueId.py:53-73 | For an identifier column 33..58, every data row's cell in column `col - 32` is replaced by its new identifier. The identifier column's data cells keep what they held. |
| IdAssigner.EnsureIdHeader | generate_uniqueId.py:47-55 | The returned column is `IdColumn` of the headers. The header request is sent only when `unique_id` is missing, and `ok` is that request's answer. The table gains the header only when the request went through. |
| IdAssigner.DrawIds | generate_uniqueId.py:61-68 | The loop draws exactly the first `num_rows-1` identifiers (`FreshIds`), in call order. The batch (`IdBatch`) holds each in a row of its own. |
| IdAssigner.WriteIdBatch | generate_uniqueId.py:70-73 | The batch request is sent when `chr(64 + col)` exists. The run succeeds, and the table becomes `AssignedTable`, exactly when that character is a column letter and the store accepts the request. Otherwise the table keeps only the header step. |
| IdAssigner.AddUniqueIdsToSheet | generate_uniqueId.py:26-86 | An empty sheet gets no request. A failed header request ends the run before any identifier is drawn. Otherwise the identifiers are the draws, and the requests are the header request (if needed) and one batch. The sheet becomes `AssignedTable` exactly when the run reports success. |
| QrGenerator.QrFileNameCollision | generate_QR.py:87 | Two identifiers get the same `QrFileName` exactly when their 8-character prefixes agree. |
| QrGenerator.PathJoinInjective | generate_QR.py:42 | `PathJoin` (POSIX `os.path.join`) of relative file names onto one directory keeps distinct names distinct. |
| QrGenerator.QrPathCollision | generate_QR.py:42-43 | Two identifiers share a `QrPath` exactly when their 8-character prefixes agree. |
| QrGenerator.FileStore.MakeDirs | generate_QR.py:26 | The directory is added and no file changes. |
| QrGenerator.FileStore.SaveImage | generate_QR.py:43 | The path now holds the payload, and every other path is unchanged. |
| QrGenerator.CreateOutputDirectory | generate_QR.py:23-27 | The directory is created exactly when it does not already exist. |
| QrGenerator.GenerateQrCode | generate_QR.py:30-44 | The returned path is the output directory joined with the file name, and it now holds the data. |
| QrGenerator.IdRows | generate_QR.py:82-85 | The selected rows are data rows holding a non-empty identifier, in increasing order. |
| QrGenerator.IdRowsComplete | generate_QR.py:82-85 | Every data row holding a non-empty identifier is selected. |
| QrGenerator.LastWriteWins | generate_QR.py:86-89 | After `SaveAll`, an identifier whose file name no later identifier shares is saved, in full, at its path. |
| QrGenerator.LaterIdWins | generate_QR.py:87-89 | When two identifiers share a prefix, the later one's payload is what the shared path holds after `SaveAll`. |
| QrGenerator.SaveAllHasImage | generate_QR.py:82-91 | After `SaveAll`, every selected identifier's image path is among the saved paths. |
| QrGenerator.SaveAllKeepsPaths | generate_QR.py:82-91 | `SaveAll` never removes a file. |
| QrGenerator.SaveAllFrame | generate_QR.py:82-91 | A path no identifier maps to is present after `SaveAll` exactly when it was before, with its old content. |
| QrGenerator.SaveAllPaths | generate_QR.py:82-91 | The paths after `SaveAll` are the old ones plus one per selected identifier. Paths no identifier maps to keep their content. |
| QrGenerator.GenerateQrCodesFromSheet | generate_QR.py:47-95 | The directory is created if missing. Without data or without `unique_id`, no file is written. Otherwise the files become `SaveAll` of the full identifiers of the selected rows, in order, and `count` is the number of such rows. |
| Dispatcher.TemplateWithoutPlaceholder | send_email_with_QR.py:51-55 | `LoadEmailTemplate` uses a template file without `{name}` unchanged. |
| Dispatcher.TemplatePlacesName | send_email_with_QR.py:48-55 | `LoadEmailTemplate` puts the name where the template file's first `{name}` was. The text before it is kept, and the rest of the file is filled in the same way. |
| Dispatcher.TemplateSubstitutesEveryPlaceholder | send_email_with_QR.py:48-55 | Counting only: the body differs in length from the template file by one name-for-placeholder swap per `{name}`, and with none the template is unchanged. Where the names go is stated by `Dispatcher.TemplatePlacesName`. |
| Dispatcher.FallbackTemplate | send_email_with_QR.py:56-59 | Without a template file, `LoadEmailTemplate` returns one fixed page with the name inserted after "Hello ". The page is the same for every recipient apart from the name, and the name occurs in it. |
| Dispatcher.ResolveColumns | send_email_with_QR.py:144-150 | The columns resolve exactly when all three headers exist, each at its first position. Otherwise the first missing one, in the order `unique_id`, `email`, `name`, is reported. |
| Dispatcher.StatusColumn | send_email_with_QR.py:153-158 | The marker column is the first `email_sent` position plus one, or `len(headers)+1` when absent. |
| Dispatcher.StatusIsSentIff | send_email_with_QR.py:169-174 | `Status` reads a row as delivered exactly when its marker cell exists and strips to "yes" in any case. |
| Dispatcher.SentMarkReadsAsSent | send_email_with_QR.py:203 | The "yes" the dispatcher writes reads back as delivered. |
| Dispatcher.ReadyIff | send_email_with_QR.py:184-196 | `Classify` sends a row exactly when all of these hold: it is not delivered, its three cells exist, its identifier is non-empty, and its address is not all whitespace. An empty name does not block. The `Compose`d message goes to the stripped address and attaches `dir/qr_<id[:8]>.png`. |
| Dispatcher.PlanSound | send_email_with_QR.py:165-201 | `Plan`, the sends a run makes when every mark goes through: only ready data rows, in increasing row order. The k-th attempt's outcome is the transport's k-th answer. |
| Dispatcher.PlanRows | send_email_with_QR.py:165 | The attempted rows are data rows, in increasing order. |
| Dispatcher.PlanMessages | send_email_with_QR.py:184-201 | Each attempt sends the message its ready row composes. |
| Dispatcher.PlanOutcomes | send_email_with_QR.py:199-201 | The k-th attempt's outcome is the transport's answer to the k-th send. |
| Dispatcher.PlanAttemptsEveryReadyRow | send_email_with_QR.py:165-201 | Every ready data row is attempted. |
| Dispatcher.AlreadySentNeverAttempted | send_email_with_QR.py:173-177 | A row marked delivered is never sent. |
| Dispatcher.SkippedCounts | send_email_with_QR.py:163-177 | `skipped_count` (`Skipped`) is the number of data rows that read as delivered, each counted once. |
| Dispatcher.GatheredMember | send_email_with_QR.py:165-177 | A row is among those met as delivered exactly when it is a data row read so far whose status reads as delivered. |
| Dispatcher.DeliveredRowsIff | send_email_with_QR.py:199-205 | The rows due a mark are exactly the rows whose send succeeded. |
| Dispatcher.DeliveredRowsSound | send_email_with_QR.py:199-205 | Every row due a mark comes from a successful send. |
| Dispatcher.DeliveredRowsComplete | send_email_with_QR.py:199-205 | Every successful send's row is due a mark. |
| Dispatcher.MarkRowsKeepsOtherRows | send_email_with_QR.py:199-210 | `MarkRows` keeps every row not marked, the header row included, exactly. |
| Dispatcher.MarkRowsCells | send_email_with_QR.py:203 | `MarkRows` sets exactly the marker cell of each marked row. |
| Dispatcher.MarkedRowsReadAsSent | send_email_with_QR.py:203 | After `MarkRows`, every marked row reads as delivered. |
| Dispatcher.RunFollowsPlan | send_email_with_QR.py:165-205 | `Run`, the row loop with mark failures, stops exactly when one of the mark requests `Plan` calls for fails. Until then its sends are `Plan`'s, and its marked rows are exactly the rows of the successful sends. |
| Dispatcher.RunStaysHalted | send_email_with_QR.py:199-205 | Once a run has stopped, later rows change nothing. |
| Dispatcher.RunStopsAtFailedMark | send_email_with_QR.py:199-205 | A run that stopped did so right after a successful send whose mark request failed. Its sends are `Plan`'s up to that row. Every earlier successful send is marked, and that row is not. |
| Dispatcher.RunSound | send_email_with_QR.py:165-205 | However a run ended, it sent only ready data rows, in order, with the transport's answers. Its marked rows are exactly the successful sends except the one whose mark failed. |
| Dispatcher.RunMarksDelivered | send_email_with_QR.py:199-205 | A run that has not stopped has made `Plan`'s sends and marked exactly their successful rows. |
| Dispatcher.HandleRow | send_email_with_QR.py:166-212 | One row: skipped exactly when delivered, and sent exactly when ready. A mark request is sent exactly when the send succeeds, and `writeOk` is its answer. Only an accepted request marks the row; nothing else is written. |
| Dispatcher.DispatchRows | send_email_with_QR.py:162-212 | The loop is `Run` over the snapshot. It completes exactly when `Run` did not stop. The sends are `Run`'s, `sent` counts the marked rows, and a completed loop's `skipped` counts the delivered rows. The sheet gains exactly the accepted marks and the log every mark request. |
| Dispatcher.EnsureStatusHeader | send_email_with_QR.py:152-158 | The returned column is `StatusColumn` of the headers. The header request is sent only when `email_sent` is missing, and `ok` is its answer. The table gains the header only when it went through. |
| Dispatcher.DispatchResolved | send_email_with_QR.py:152-215 | A failed header request ends the run before any send. Otherwise the outcome, the sends, the table and the log are those of `Run`, after the header. |
| Dispatcher.SendEmailsWithQrCodes | send_email_with_QR.py:122-222 | An empty sheet, or a missing required header, means no request and no send. A failed header request means no send. Otherwise the run is `Run` over the snapshot: the sends are its sends, and the table gets the header and exactly the accepted marks. The run finishes with the counts or ends at the first failed mark. |
| Dispatcher.StatusHeaderKeepsColumns | send_email_with_QR.py:153-158 | Adding `email_sent` moves no required column, puts the marker column where the marks go and leaves data rows intact. |
| Dispatcher.InterruptedRunState | send_email_with_QR.py:199-205 | A run ended at any row, by a failed mark or not, leaves every marked row reading as delivered. Every other data row, including a mailed row whose mark failed, is exactly as it was, and the columns resolve as before. |
| Dispatcher.RerunSkipsDelivered | send_email_with_QR.py:169-177 | A later run, with any settings, transport and request outcomes, sends no row whose mark went through. |
| Dispatcher.FailedMarkIsResent | send_email_with_QR.py:199-222 | When a run ends on a failed mark, the mailed row is left unmarked and unchanged. A later run, with any settings, plans to send it again. If that run finishes, it sends the row. If it stops at a failed mark, it has sent the row whenever it stopped at that row or after it. |
| Dispatcher.StoppedRunReachesRow | send_email_with_QR.py:165-222 | A run that stops at a failed mark has sent every ready data row up to and including the row it stopped at. |
| Dispatcher.GeneratedImageOf | generate_QR.py:82-91 | After generation, the image path of a row's identifier holds that full identifier, unless a later row's identifier shares its 8-character prefix. |
| Dispatcher.ReadyAttachment | send_email_with_QR.py:193-196 | A ready row's message names the image path of its own identifier and carries what the store holds there. |
| Dispatcher.AttachmentIsOwnImage | send_email_with_QR.py:195-196 | With images generated from the same table into `qr_codes`, a ready row attaches the image of its own identifier. This holds unless a later identifier shares its 8-character prefix. |

## Left out

- Google authentication, opening the spreadsheet and worksheet, and their "not found" exceptions: the sheet is given as an object. The top-level `except` clauses only print.
- The SMTP session, STARTTLS, login and MIME assembly in `send_email_with_qr_and_pdf`: reduced to the message the model composes and the boolean the transport returns. The email subject read from the environment is not modelled.
- Whether the PDF exists on disk: the message carries only its path.
- QR image rendering and PNG encoding: a saved image is modelled as its payload string at its path.
- A failure while rendering or saving one image: not modelled. In the code such an exception leaves the loop and ends the batch; the model has every save succeed.
- `uuid.uuid4()` randomness: identifiers are whatever the oracle yields. Uniqueness is not assumed or proved.
- `time.sleep(1)` between sends, every `print`, and `.env.local` loading: left out. The check at send_email_with_QR.py:38-39 that aborts when sender credentials are missing is left out too, since it happens at import time.
- A template file that exists but cannot be read (other than not found): the model only has "found" and "not found".
- Text.Lower: only ASCII letters are lowered. Python's full Unicode lowering is not modelled; this is enough to decide whether a cell reads "yes".
- IdAssigner.ColumnLetter: Python's `chr` raises past U+10FFFF, and the model gives no letter there, so no batch request is sent and the run fails as in the source. For a surrogate code point (columns 55232 to 57279) Python yields a lone surrogate. The model gives no letter there either and sends no request; such columns lie far past any real sheet's width, and the run fails either way. Characters that are no column letter (columns 27 to 32, 59 and up) give a range the model store rejects; what the real service answers to such a range is not modelled beyond rejection.
- Sheets.ApplyBatch: only single-column ranges `L<a>:L<b>` are accepted, with `L` a column letter of either case. The service's other range syntaxes (several columns, whole columns, sheet-qualified ranges) are not modelled.
- Sheets.ColumnOfIgnoresCase: `Worksheet.batch_update` passes the range text to the service unchanged. Reading `a`..`z` as columns 1 to 26 is an assumption about the service's A1 parser, which is not part of this model.
- Values read back from the sheet are taken as stored; any trimming the service applies on read is not modelled.
- main.py (interactive menu), setup.py (installation) and demo.py (static text): not part of this model.
