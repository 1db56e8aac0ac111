# Image-processing-system, modelled in Dafny

The system takes a CSV upload of products. Each row has a serial number, a
product name and a comma-separated list of image locators. From it the system:

- validates the table;
- records a *request* with one *product* per row and one *image* per locator;
- queues background tasks that compress every image;
- recounts the request after each image finishes;
- once every image is `completed` or `failed`, writes a results file ordered
  by serial number and notifies an optional webhook, with signed headers and
  exponential backoff.

The model is split into these modules:

- `Models` (models.dfy) holds the records and their status enumerations. It
  also holds the table queries (`Image.query.join(Image.product)…`,
  `filter_by`, `query.get`) as functions over sequences, and the `Store`
  class. Its fields are the tables, the id generators and the task queue that
  the operations update in place.
- `Validation` (validation.dfy) models `validate_csv` and `process_csv_to_db`.
- `Intake` (intake.dfy) models the request that `upload_csv` creates and
  `enqueue_processing_task`.
- `Processor` (processor.dfy) models `process_request_images`,
  `process_image` and `check_request_completion`.
- `Report` (report.dfy) models `generate_results_csv`.
- `Webhook` (webhook.dfy) models `send_completion_webhook` and its retry
  chain.
- `Strings` (strings.dfy) defines Python's `str.strip`, `str.split(',')` and
  `','.join` for the other modules.
- `Wrappers` (wrappers.dfy) defines `Option`.

Things the program gets from outside are parameters:

- pandas' parse of the file is a `CsvFile` value. `Unreadable` is a file
  `read_csv` rejects. `Parsed` holds the header and rows, and an empty cell is
  `None` (NaN).
- Python's `int()` on a cell is an `IntParser` map. It lists the cells that
  parse and the integer each one gives.
- The `uuid4()` request id is a fresh `rid`.
- The outcome of downloading and compressing one image is a `FetchOutcome`.
- The HTTP answer to the webhook POST is a `Response`.
- The HMAC-SHA-256 function is `sign`. It returns a 64-character hex
  `Digest`.
- `BASE_URL`, `WEBHOOK_SECRET` and `updated_at.isoformat()` are string
  parameters.

Celery's `.delay(...)` and `self.retry(countdown=...)` append a `Task` to
`Store.queue`. Running a queued task means calling the method that models it.

## Model

| member | source | states |
|---|---|---|
| Models.FindProduct | services/image_processor.py:101-107 | the primary-key lookup behind `image.product`, which the joins at lines 35, 129 and 135 also match on: the result, if any, is a stored product with that id; none exactly when no stored product has it |
| Models.FindImage | services/image_processor.py:57 | `Image.query.get`: the position found holds an image with that id; none exactly when no stored image has it |
| Models.ImagesOfRequestMembers | services/image_processor.py:128-132 | the join query returns exactly the stored images whose product belongs to the request, each as many times as it is stored and no other |
| Models.ImagesOfRequestOnce | services/image_processor.py:128-132 | with the store's distinct image ids, `.count()` counts each stored image of the request exactly once |
| Models.ProductsOfRequest | services/webhook_service.py:108 | `filter_by(request_id=…)` returns exactly the stored products of the request, no more than are stored |
| Models.ProductsOfRequestCounts | services/webhook_service.py:108 | the query returns each stored product of the request as many times as it is stored, and no other product |
| Models.ProductsOfRequestOnce | services/webhook_service.py:108 | with the store's distinct product ids, each stored product of the request is returned exactly once |
| Models.CountTerminalBounded | services/image_processor.py:134-139 | the images counted as completed or failed never outnumber the request's images |
| Models.CountTerminalAll | services/image_processor.py:134-146 | the terminal count equals the image count exactly when every image is completed or failed |
| Models.FindProductAppend | services/image_processor.py:101-107 | a lookup in two concatenated tables finds the first part's product first |
| Models.Store.constructor | database/models.py:7-45 | an empty database and queue satisfy the store invariant |
| Strings.AllSpaceConcat | services/validation.py:52 | a concatenation is all whitespace exactly when both parts are |
| Strings.LeadingSpacesSpec | services/validation.py:52 | the stripped prefix is whitespace and is followed by a non-space or the end |
| Strings.TrailingSpacesSpec | services/validation.py:52 | the stripped suffix is whitespace and is preceded by a non-space or the start |
| Strings.StripSpec | services/validation.py:52 | `str.strip` keeps only characters of the input, is empty exactly when the input is all whitespace, otherwise starts and ends with a non-space, and is unchanged when the input has no surrounding whitespace |
| Strings.SpaceAtEnds | services/validation.py:52 | a non-empty all-whitespace string begins and ends with whitespace |
| Strings.Split | services/validation.py:52 | `split(',')` gives at least one piece, and no piece contains the separator |
| Strings.JoinSplit | services/validation.py:52 | splitting on the separator and joining back rebuilds the string |
| Strings.SplitPiece | services/validation.py:52 | a string without the separator splits into itself alone |
| Strings.SplitCons | services/validation.py:52 | how the split of a string grows by one leading character |
| Strings.SplitJoin | services/webhook_service.py:117-118 | joining separator-free pieces and splitting again gives the pieces back |
| Validation.Missing | services/validation.py:26-27 | the missing columns are exactly the required ones absent from the header, in required order |
| Validation.ImageUrls | services/validation.py:52 | one stripped entry per comma piece, so never an empty list |
| Validation.ImageUrlsPieces | services/validation.py:52 | entry i is the i-th comma piece stripped, and contains no comma |
| Validation.CheckRow | services/validation.py:37-58 | a row is rejected for empty fields exactly when something is NaN; for an invalid serial exactly otherwise when `int()` fails; never for "no image URLs" (that branch is dead); accepted rows count every comma piece |
| Validation.ValidateCsv | services/validation.py:15-79 | the file is valid exactly when no error is reported. An unreadable file gives one read error. Missing columns give one error naming them and count nothing. Otherwise the result has the row errors in row order and the total counted over the accepted rows |
| Validation.RowErrorsDescribeRows | services/validation.py:36-56 | every error names a 1-based row whose check failed with that problem, and errors come in increasing row order |
| Validation.RejectedRowsReported | services/validation.py:38-49 | every row that fails a check is reported under its 1-based number |
| Validation.TotalImagesCoversAcceptedRows | services/validation.py:52-58 | each accepted row adds at least one image to `total_images` |
| Validation.NonEmptyAppend | services/validation.py:107-108 | the filter `if url` distributes over concatenation and keeps one piece exactly when it is non-empty, so it drops the empty pieces and keeps the others in order, each as often as it occurs |
| Validation.NonEmptyKeeps | services/validation.py:107-108 | the filter keeps exactly the non-empty pieces, and keeps all of them only when none is empty |
| Validation.PendingInputs | services/validation.py:109-114 | the images created for a row carry its locators in order |
| Validation.RowUrlsStorable | services/validation.py:106-108 | every stored locator is non-empty and contains no comma |
| Validation.AssembleSucceeds | services/validation.py:94-103 | the first rows are added without raising exactly when each has a name and a serial that `int()` accepts and a 64-bit SQLite INTEGER can hold |
| Validation.DecomposeSucceeds | services/validation.py:94-120 | the whole decomposition succeeds exactly when every row can be stored |
| Validation.DecomposeProducts | services/validation.py:94-103 | a successful decomposition makes one product per row, in row order, with consecutive ids, the request id, the parsed serial and the name |
| Validation.DecomposeImages | services/validation.py:105-114 | each created image is `pending` with no output and a fresh id; the locators of product k's images are `RowUrls` of row k: its stripped pieces in split order with the empty ones dropped, as `NonEmptyAppend` pins down |
| Validation.AdmittedRowsAreStorable | services/validation.py:38-49 | on a table validation finds no row error in, every serial parses, and a row raises at the insert exactly when its serial does not fit the INTEGER column |
| Validation.RowUrlsCounted | services/validation.py:106-108 | a row yields no more images than its cell has comma pieces, and exactly as many when no piece is blank after stripping |
| Validation.SumCompare | services/validation.py:58 | sums compared term by term: no larger, and equal only when every term is equal |
| Validation.ImagesVersusTotal | services/validation.py:52-58 | on an admitted table that decomposes, the images created never exceed `total_images`, and equal it exactly when no comma piece is blank after stripping |
| Validation.CommitKeepsValid | services/validation.py:116 | committing a decomposed batch keeps the store invariant: fresh increasing ids, and every image attached to a stored product |
| Validation.StageImages | services/validation.py:106-114 | the inner loop appends exactly the pending images of the non-empty pieces and advances the image id by that many |
| Validation.StageRows | services/validation.py:94-114 | the row loop produces exactly the decomposition, or nothing when some row raises |
| Validation.ProcessCsvToDb | services/validation.py:81-120 | on success the products and images are appended and the id generators advanced; when some row raises the tables roll back unchanged; requests and queue are never touched; the invariant holds |
| Intake.AdmittedFileDecomposes | main.py:44-74 | a file validation admits decomposes exactly when every serial fits the INTEGER column, and then with one product per row and no more images than `total_images` |
| Intake.OversizedSerialAdmittedNotStored | services/validation.py:44-45 | a one-row file with serial 2^63 is admitted by validation but its insert raises |
| Intake.InitialRequest | main.py:55-66 | the new request is `pending` with the validated total and nothing processed; it has a webhook locator with status `not_sent` exactly when a non-empty `webhook_url` was posted |
| Intake.EnqueueProcessingTask | services/queue_manager.py:18-42 | a raising decomposition changes nothing; otherwise the batch is committed; for a known request the status becomes `processing` and one fan-out task is queued; for a missing request nothing more happens |
| Intake.Upload | main.py:44-80 | an invalid file is answered with its non-empty errors and changes nothing. An admitted one stores the initial request. When its rows store, the request moves to `processing` with its products and images, the id counters advance by their numbers, and its fan-out task is queued. When a row raises, the answer is a server error and the request stays `pending` with nothing else stored |
| Processor.PendingOfRequest | services/image_processor.py:34-39 | the pending query returns no more images than are stored |
| Processor.PendingOfRequestMembers | services/image_processor.py:34-39 | the query returns exactly the stored images that are `pending` and belong to the request |
| Processor.PendingOfRequestIncreasing | services/image_processor.py:34-39 | the query keeps stored order, so its ids are strictly increasing |
| Processor.NoImagesNoDispatch | services/image_processor.py:34-43 | a request with no stored image gets no `process_image` task, so the completion check, which only `process_image` runs, never happens for it |
| Processor.DispatchesExactlyPending | services/image_processor.py:34-43 | a stored image is dispatched exactly when it is pending and belongs to the request, and no image is dispatched twice |
| Processor.ProcessRequestImages | services/image_processor.py:22-43 | the queue grows by the tasks of the pending images of the request, in order; nothing else changes |
| Processor.RecountSpec | services/image_processor.py:141-148 | the recount writes the image count and the number of completed or failed images, which is no larger. The request becomes `completed` when every image is terminal and keeps its status otherwise, so a completed request never regresses. Id and webhook fields are untouched |
| Processor.CompletionTasksSpec | services/image_processor.py:146-152 | at most one webhook task is queued, exactly when every image is terminal and a webhook is configured and not yet sent |
| Processor.RecheckRequeues | services/image_processor.py:146-152 | a second check over the same images changes nothing more and queues the webhook again when the first one did |
| Processor.RecountKeepsValid | services/image_processor.py:141-143 | recounting a request keeps the store invariant |
| Processor.CheckRequestCompletion | services/image_processor.py:109-154 | an unknown request changes nothing; otherwise the request is recounted over its images and the webhook task queued when due; products and images are untouched |
| Processor.FinishedSpec | services/image_processor.py:95-106 | a processed image ends terminal and keeps its id, product and input. It is `completed` with the output locator exactly when the fetch succeeded, and `failed` without output otherwise |
| Processor.FindImageUpdate | services/image_processor.py:65-66 | updating an image in place does not change where the lookup finds any id |
| Processor.UpdateImageKeepsValid | services/image_processor.py:96-106 | turning a stored image into its finished form keeps the store invariant |
| Processor.ProcessImage | services/image_processor.py:45-107 | an unknown or non-pending image changes nothing. Otherwise the image is finished, its request checked, and the product table untouched |
| Processor.ProcessedImageNotPendingAgain | services/image_processor.py:57-61 | after processing the image is no longer pending, so a repeated task for it is ignored |
| Report.InsertBySerial | services/webhook_service.py:108 | inserting a product gives a rearrangement of the list plus that product |
| Report.InsertBySerialSorted | services/webhook_service.py:108 | inserting into a serial-sorted list keeps it sorted |
| Report.OrderBySerial | services/webhook_service.py:108 | `order_by(Product.serial_number)` is a rearrangement of the products |
| Report.OrderBySerialSorted | services/webhook_service.py:108 | the ordered products have non-decreasing serial numbers |
| Report.ReportRowsSpec | services/webhook_service.py:108-125 | the lines are those of a rearrangement of the request's products, with the same multiplicities and no other product, in non-decreasing serial order, each carrying its product's serial and name |
| Report.ReportOneLinePerProduct | services/webhook_service.py:108-125 | with the store's distinct product ids, each product of the request has exactly one line, and it is that product's line |
| Report.ImagesOfProductFrom | services/webhook_service.py:114 | `filter_by(product_id=…)` returns exactly the stored images of that product: none from elsewhere and none of the product's missed, so a report line covers all of them |
| Report.InputColumnSplits | services/webhook_service.py:117 | splitting a product's input column gives back its images' locators in order; it is empty when the product has no image |
| Report.OutputColumnSplits | services/webhook_service.py:118 | an output entry is non-empty only for a completed image; with comma-free outputs the column splits back into one entry per image |
| Report.ResultsUrlInjective | services/webhook_service.py:134-141 | two requests never share a results locator |
| Report.GenerateResultsCsv | services/webhook_service.py:94-141 | the lines built are the report lines of the request, and the locator returned is `BASE_URL/results/<id>_results.csv` |
| Webhook.BackoffSchedule | services/webhook_service.py:89-90 | the delay starts at 60 seconds and doubles per retry: 60, 120, 240 |
| Webhook.HeadersSpec | services/webhook_service.py:53-67 | the headers always carry the JSON content type first; a signature header follows exactly when a secret is configured, and it holds the digest of the secret and payload |
| Webhook.SendCompletionWebhook | services/webhook_service.py:20-92 | with no request or no webhook locator nothing happens. Otherwise the payload carries the request's fields and the results locator and the POST is made. An accepted answer marks the webhook `sent`. A failure marks it `failed` and queues the next retry with its backoff, below three retries |
| Webhook.AttemptsBounded | services/webhook_service.py:20 | a retry chain makes at most four attempts from the first run |
| Webhook.AllAttemptsFail | services/webhook_service.py:83-92 | when every answer fails there are exactly four attempts, retries after 60, 120 and 240 seconds, and the final status `failed` |
| Webhook.FirstAcceptedDelivers | services/webhook_service.py:77-81 | the chain stops at the first accepted answer, after that many attempts, with status `sent` |

A request with no images is never marked `completed`. That happens with a
table of no rows, or with rows whose locator pieces are all blank after
stripping. `process_request_images` queues nothing for such a request
(`Processor.NoImagesNoDispatch`). `check_request_completion` is only called
from `process_image`, so the request stays `processing` and its webhook is
never sent. A design where such a job completes at decomposition time would
differ here. The model follows the code.

Validation only checks that `int()` accepts a serial, not that it is small
enough. `serial_number` is an INTEGER column, and on the default SQLite
backend a value outside the signed 64-bit range makes the flush raise. Such a
file is admitted (`Intake.OversizedSerialAdmittedNotStored`), and
`process_csv_to_db` rolls back and re-raises. `upload_csv` then fails with a
server error, after recording the request as `pending`, and the request stays
`pending` with no products (`Intake.Upload`).

## Left out

- File I/O is not modelled. This covers saving the upload, `os.remove`,
  `read_csv`, writing the results file and the processed image. The parsed
  table is an input, and the results file is the list of `ReportRow` lines.
- Pandas is simplified. A cell with a value is its text, and NaN is `None`,
  whose `str()` is `"nan"`. Other dtype conversions are not modelled.
  `int()` is an arbitrary map from cell text to integer.
- The file is read twice, by `validate_csv` and by `process_csv_to_db`. The
  model assumes both reads give the same `CsvFile`.
- Downloading, decoding and re-encoding an image (requests, PIL) are not
  modelled. They become a `FetchOutcome`. The `uuid4()` output file name is
  part of the given output locator.
- HTTP is not modelled. A webhook POST's answer is a `Response`, and
  `raise_for_status` accepts any code outside 400-599.
- HMAC-SHA-256 and `json.dumps` are an uninterpreted `sign` function. Only
  its 64-character length is assumed.
- Celery, Redis and RQ are not modelled: no brokers, workers or
  concurrency. `.delay` and `retry` append to `Store.queue`, and tasks run
  one at a time when a caller invokes them. Interleavings of concurrent
  workers are not modelled.
- Ids are modelled as counters. The source's `uuid4()` ids for requests,
  products and images become a fresh request id supplied by the caller, and
  counters for products and images.
- Timestamps (`created_at`, `updated_at`) are not modelled. The completion
  time in the payload is a parameter.
- `completion_percentage` and the other Flask routes are not part of this
  model. That covers the status route, the downloads and upload's early
  answers for a missing or non-CSV file.
- `enqueue_image_task` is not part of this model. Nothing in the core calls
  it.
- `validate_csv` modelling: its read-error branch covers `read_csv`
  failures only. An exception from a row check other than `int()` is not
  modelled.
- `Processor.ProcessImage` is modelled partially:
  - Exceptions inside `check_request_completion` or during a commit are not
    modelled.
  - An image whose product is missing is not modelled either. The store
    invariant `ImagesAttached` rules it out. A product whose request is
    missing is allowed, and the completion check then does nothing.
- `Processor.ProcessRequestImages`: image_processor.py uses `Product`
  without importing it. The model follows the evident intent, the join
  query, and does not model the resulting `NameError`.
- `Processor.CheckRequestCompletion` and `Processor.ProcessImage`: the same
  missing import affects both join queries of `check_request_completion`.
  As written, the `NameError` would be raised inside `process_image`'s
  `try`. Its `except` would then turn a `completed` image into `failed`. The
  model uses the intended queries, so it does not capture that.
- `Webhook.SendCompletionWebhook`:
  - Only `requests.RequestException` is modelled, as a `TransportError` or
    an error status.
  - An exception raised by `generate_results_csv` is not modelled.
  - After the last allowed retry, `self.retry(exc=e, ...)` re-raises the
    request error instead of scheduling another attempt. The model queues
    nothing then.
- `Report.ReportRowsSpec`: `order_by` on equal serials depends on the
  database. The model keeps stored order for ties, and nothing is stated
  about it.
- The commented-out locator reachability check of `validate_csv` is not
  modelled. Its `not image_urls` branch is modelled, and `CheckRow` and
  `ValidateCsv` prove it unreachable.
- `Report.InputColumnSplits` and `Report.OutputColumnSplits`:
  `filter_by(product_id=…)` has no `order_by`, so the database decides the
  order of a product's images within a line. The model uses stored order.
- `Validation.Storable`: the INTEGER width is SQLite's, the default backend.
  Another `DATABASE_URL` backend may hold a different range of serials,
  and that is not modelled.
