/**
 * Intake of an uploaded batch (`upload_csv` in main.py and
 * `enqueue_processing_task` in services/queue_manager.py): the file is
 * validated, a `pending` request is recorded, the rows are decomposed into
 * products and images, the request becomes `processing` and the fan-out task
 * is queued.
 */
module Intake {
  import opened Wrappers
  import opened Models
  import opened Validation

  /** What `validate_csv` admits: a readable table with every required column and no row error. */
  predicate Admitted(file: CsvFile, parse: IntParser) {
    && file.Parsed?
    && Missing(RequiredColumns, file.table.columns) == []
    && RowErrors(file.table.rows, parse) == []
  }

  /**
   * A file validation admits decomposes, whatever the counters, exactly when
   * every serial fits the INTEGER column: the checks of `validate_csv` cover
   * every other way `process_csv_to_db` can raise.
   */
  lemma AdmittedFileDecomposes(rid: RequestId, file: CsvFile, parse: IntParser, firstPid: ProductId, firstIid: ImageId)
    requires Admitted(file, parse)
    ensures DecomposeFile(rid, file, parse, firstPid, firstIid).Some? <==>
      forall k :: 0 <= k < |file.table.rows| ==> SerialFits(file.table.rows[k], parse)
    ensures DecomposeFile(rid, file, parse, firstPid, firstIid).Some? ==>
      && |DecomposeFile(rid, file, parse, firstPid, firstIid).value.products| == |file.table.rows|
      && |DecomposeFile(rid, file, parse, firstPid, firstIid).value.images| <= TotalImages(file.table.rows, parse)
  {
    AdmittedRowsAreStorable(file.table.rows, parse);
    DecomposeSucceeds(rid, file.table.rows, parse, firstPid, firstIid);
    if DecomposeFile(rid, file, parse, firstPid, firstIid).Some? {
      ImagesVersusTotal(rid, file.table.rows, parse, firstPid, firstIid);
      DecomposeProducts(rid, file.table.rows, parse, firstPid, firstIid);
    }
  }

  /**
   * Validation does not look at the size of a serial: a one-row file whose
   * serial is 2^63 is admitted, and its insert then overflows.
   */
  lemma OversizedSerialAdmittedNotStored(rid: RequestId, firstPid: ProductId, firstIid: ImageId)
    ensures var file := Parsed(Table(RequiredColumns, [Row(Some("9223372036854775808"), Some("p"), Some("a"))]));
      var parse := map["9223372036854775808" := 0x8000_0000_0000_0000];
      Admitted(file, parse) && DecomposeFile(rid, file, parse, firstPid, firstIid).None?
  {
    var row := Row(Some("9223372036854775808"), Some("p"), Some("a"));
    var file := Parsed(Table(RequiredColumns, [row]));
    var parse := map["9223372036854775808" := 0x8000_0000_0000_0000];
    var cols := RequiredColumns;
    assert Missing(cols[3..], cols) == [];
    assert Missing(cols[2..], cols) == [] by { assert cols[2..][1..] == cols[3..]; }
    assert Missing(cols[1..], cols) == [] by { assert cols[1..][1..] == cols[2..]; }
    assert Missing(cols, cols) == [] by { assert cols[1..] == cols[0..][1..]; }
    assert CheckRow(row, parse).Accepted?;
    assert RowErrors([row], parse) == [];
    assert !SerialFits(row, parse);
    AdmittedFileDecomposes(rid, file, parse, firstPid, firstIid);
  }

  /**
   * The record `upload_csv` creates: `pending`, `total_images` from validation,
   * nothing processed, and a webhook locator with status `not_sent` only when a
   * non-empty `webhook_url` was posted.
   */
  function InitialRequest(rid: RequestId, totalImages: nat, webhookUrl: Option<string>): (r: Request)
    ensures r.id == rid && r.status == RequestStatus.Pending
    ensures r.totalImages == totalImages && r.processedImages == 0
    ensures HasWebhookUrl(r) <==> webhookUrl.Some? && webhookUrl.value != []
    ensures HasWebhookUrl(r) ==> r.webhookUrl == webhookUrl
    ensures r.webhookStatus == Some(NotSent) <==> HasWebhookUrl(r)
    ensures r.webhookStatus != Some(NotSent) ==> r.webhookStatus.None? && r.webhookUrl.None?
  {
    if webhookUrl.Some? && webhookUrl.value != [] then
      Request(rid, RequestStatus.Pending, totalImages, 0, webhookUrl, Some(NotSent))
    else
      Request(rid, RequestStatus.Pending, totalImages, 0, None, None)
  }

  /** How `enqueue_processing_task` ends. */
  datatype EnqueueOutcome =
    | Enqueued
    /** `process_csv_to_db` raised: nothing was stored and the request stays as it was. */
    | DecompositionFailed
    /** The batch was committed but `Request.query.get` found nothing, so `request.status` raised. */
    | RequestMissing

  /**
   * `enqueue_processing_task`: decompose the file into the store; if that
   * raises, nothing else happens. Otherwise the request becomes `processing`
   * and one `process_request_images` task is queued.
   */
  method EnqueueProcessingTask(db: Store, rid: RequestId, file: CsvFile, parse: IntParser) returns (outcome: EnqueueOutcome)
    requires db.Valid()
    modifies db
    ensures db.Valid()
    ensures outcome == DecompositionFailed <==> DecomposeFile(rid, file, parse, old(db.nextProductId), old(db.nextImageId)).None?
    ensures outcome == RequestMissing <==>
      DecomposeFile(rid, file, parse, old(db.nextProductId), old(db.nextImageId)).Some? && rid !in old(db.requests)
    ensures outcome != DecompositionFailed ==>
      && db.products == old(db.products) + DecomposeFile(rid, file, parse, old(db.nextProductId), old(db.nextImageId)).value.products
      && db.images == old(db.images) + DecomposeFile(rid, file, parse, old(db.nextProductId), old(db.nextImageId)).value.images
      && db.nextProductId == old(db.nextProductId) + |DecomposeFile(rid, file, parse, old(db.nextProductId), old(db.nextImageId)).value.products|
      && db.nextImageId == old(db.nextImageId) + |DecomposeFile(rid, file, parse, old(db.nextProductId), old(db.nextImageId)).value.images|
    ensures outcome == DecompositionFailed ==>
      && db.products == old(db.products) && db.images == old(db.images)
      && db.nextProductId == old(db.nextProductId) && db.nextImageId == old(db.nextImageId)
    ensures outcome == Enqueued ==>
      && db.requests == old(db.requests)[rid := old(db.requests)[rid].(status := RequestStatus.Processing)]
      && db.queue == old(db.queue) + [ProcessRequestImagesTask(rid)]
    ensures outcome != Enqueued ==> db.requests == old(db.requests) && db.queue == old(db.queue)
  {
    var ok := ProcessCsvToDb(db, rid, file, parse);
    if !ok {
      return DecompositionFailed;
    }
    if rid !in db.requests {
      return RequestMissing;
    }
    db.requests := db.requests[rid := db.requests[rid].(status := RequestStatus.Processing)];
    db.queue := db.queue + [ProcessRequestImagesTask(rid)];
    return Enqueued;
  }

  /** The answer of `upload_csv` to a file it could open. */
  datatype UploadOutcome =
    /** 400 with the validation errors. */
    | Invalid(errors: seq<ValidationError>)
    /** 202 with the new request's id. */
    | Accepted(requestId: RequestId)
    /** `enqueue_processing_task` raised, so Flask answers 500; the `pending` request stays recorded. */
    | ServerError

  /**
   * `upload_csv` from validation on: an invalid file is answered with its
   * errors and changes nothing. An admitted one gets a `pending` request under
   * the fresh id `rid` (the `uuid4()` of the source), with the `total_images`
   * validation counted. If the rows then store, the request gets its products
   * and images, the status `processing` and its fan-out task; if a row raises,
   * the request is left `pending` with nothing else stored.
   */
  method Upload(db: Store, rid: RequestId, file: CsvFile, parse: IntParser, webhookUrl: Option<string>) returns (outcome: UploadOutcome)
    requires db.Valid()
    requires rid !in db.requests
    modifies db
    ensures db.Valid()
    ensures outcome.Invalid? <==> !Admitted(file, parse)
    ensures outcome.Invalid? ==>
      && outcome.errors != []
      && db.requests == old(db.requests) && db.products == old(db.products) && db.images == old(db.images)
      && db.nextProductId == old(db.nextProductId) && db.nextImageId == old(db.nextImageId) && db.queue == old(db.queue)
    ensures outcome.ServerError? <==> Admitted(file, parse) && DecomposeFile(rid, file, parse, old(db.nextProductId), old(db.nextImageId)).None?
    ensures outcome.ServerError? ==>
      && db.requests == old(db.requests)[rid := InitialRequest(rid, TotalImages(file.table.rows, parse), webhookUrl)]
      && db.products == old(db.products) && db.images == old(db.images)
      && db.nextProductId == old(db.nextProductId) && db.nextImageId == old(db.nextImageId) && db.queue == old(db.queue)
    ensures outcome.Accepted? ==>
      && outcome.requestId == rid
      && DecomposeFile(rid, file, parse, old(db.nextProductId), old(db.nextImageId)).Some?
      && db.requests == old(db.requests)[rid := InitialRequest(rid, TotalImages(file.table.rows, parse), webhookUrl).(status := RequestStatus.Processing)]
      && db.products == old(db.products) + DecomposeFile(rid, file, parse, old(db.nextProductId), old(db.nextImageId)).value.products
      && db.images == old(db.images) + DecomposeFile(rid, file, parse, old(db.nextProductId), old(db.nextImageId)).value.images
      && db.nextProductId == old(db.nextProductId) + |DecomposeFile(rid, file, parse, old(db.nextProductId), old(db.nextImageId)).value.products|
      && db.nextImageId == old(db.nextImageId) + |DecomposeFile(rid, file, parse, old(db.nextProductId), old(db.nextImageId)).value.images|
      && db.queue == old(db.queue) + [ProcessRequestImagesTask(rid)]
  {
    var result := ValidateCsv(file, parse);
    if !result.valid {
      return Invalid(result.errors);
    }
    db.requests := db.requests[rid := InitialRequest(rid, result.totalImages, webhookUrl)];
    var enqueued := EnqueueProcessingTask(db, rid, file, parse);
    if enqueued == DecompositionFailed {
      return ServerError;
    }
    assert enqueued == Enqueued;
    return UploadOutcome.Accepted(rid);
  }
}
