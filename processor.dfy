/**
 * The image workers of services/image_processor.py: the per-request fan-out,
 * the per-image state machine and the completion check that recounts a
 * request's images and may queue its webhook.
 */
module Processor {
  import opened Wrappers
  import opened Models

  // ---------------------------------------------------------------------------
  // process_request_images
  // ---------------------------------------------------------------------------

  /** The request's images still `pending`, in stored order: the query of `process_request_images`. */
  function PendingOfRequest(products: seq<Product>, images: seq<Image>, rid: RequestId): (r: seq<Image>)
    ensures |r| <= |images|
    decreases |images|
  {
    if images == [] then []
    else
      var prev := PendingOfRequest(products, images[..|images| - 1], rid);
      var last := images[|images| - 1];
      if BelongsTo(products, last, rid) && last.status == ImageStatus.Pending then prev + [last] else prev
  }

  /** An image the fan-out query selects: of the request and still `pending`. */
  predicate PendingFor(products: seq<Product>, img: Image, rid: RequestId) {
    BelongsTo(products, img, rid) && img.status == ImageStatus.Pending
  }

  /** The query keeps exactly the pending images of the request. */
  lemma {:induction false} PendingOfRequestMembers(products: seq<Product>, images: seq<Image>, rid: RequestId)
    ensures forall img :: img in PendingOfRequest(products, images, rid) <==> img in images && PendingFor(products, img, rid)
    decreases |images|
  {
    if images != [] {
      var init := images[..|images| - 1];
      PendingOfRequestMembers(products, init, rid);
      assert images == init + [images[|images| - 1]];
    }
  }

  /** The query keeps the stored order, so ids stay strictly increasing. */
  lemma {:induction false} PendingOfRequestIncreasing(products: seq<Product>, images: seq<Image>, rid: RequestId, next: ImageId)
    requires ImageIdsFresh(images, next)
    ensures ImageIdsFresh(PendingOfRequest(products, images, rid), next)
    decreases |images|
  {
    if images != [] {
      var init := images[..|images| - 1];
      assert ImageIdsFresh(init, images[|images| - 1].id);
      PendingOfRequestIncreasing(products, init, rid, images[|images| - 1].id);
      PendingOfRequestMembers(products, init, rid);
      var prev := PendingOfRequest(products, init, rid);
      forall i | 0 <= i < |prev| ensures prev[i] in init {
      }
    }
  }

  /** One `process_image.delay(image.id)` per image, in order. */
  function ImageTasks(imgs: seq<Image>): (ts: seq<Task>)
    ensures |ts| == |imgs|
    ensures forall k :: 0 <= k < |imgs| ==> ts[k] == ProcessImageTask(imgs[k].id)
  {
    seq(|imgs|, k requires 0 <= k < |imgs| => ProcessImageTask(imgs[k].id))
  }

  /**
   * The fan-out queues exactly one task for each pending image of the request
   * and none for any other stored image, each at most once.
   */
  lemma DispatchesExactlyPending(products: seq<Product>, images: seq<Image>, rid: RequestId, next: ImageId)
    requires ImageIdsFresh(images, next)
    ensures forall i :: 0 <= i < |images| ==>
      (ProcessImageTask(images[i].id) in ImageTasks(PendingOfRequest(products, images, rid)) <==> PendingFor(products, images[i], rid))
    ensures var ts := ImageTasks(PendingOfRequest(products, images, rid));
      forall a, b :: 0 <= a < b < |ts| ==> ts[a] != ts[b]
  {
    var pending := PendingOfRequest(products, images, rid);
    var ts := ImageTasks(pending);
    PendingOfRequestMembers(products, images, rid);
    PendingOfRequestIncreasing(products, images, rid, next);
    forall i | 0 <= i < |images|
      ensures ProcessImageTask(images[i].id) in ts <==> PendingFor(products, images[i], rid)
    {
      if ProcessImageTask(images[i].id) in ts {
        var k :| 0 <= k < |ts| && ts[k] == ProcessImageTask(images[i].id);
        assert pending[k] in images;
        var j :| 0 <= j < |images| && images[j] == pending[k];
        assert images[j].id == images[i].id;
        assert j == i;
      }
      if PendingFor(products, images[i], rid) {
        assert images[i] in pending;
        var k :| 0 <= k < |pending| && pending[k] == images[i];
        assert ts[k] == ProcessImageTask(images[i].id);
      }
    }
  }

  /**
   * A request none of whose images is stored gets no `process_image` task at
   * all; since only `process_image` runs the completion check, such a request
   * is never recounted and keeps the status it had.
   */
  lemma NoImagesNoDispatch(products: seq<Product>, images: seq<Image>, rid: RequestId)
    requires ImagesOfRequest(products, images, rid) == []
    ensures PendingOfRequest(products, images, rid) == []
    ensures ImageTasks(PendingOfRequest(products, images, rid)) == []
  {
    var pending := PendingOfRequest(products, images, rid);
    PendingOfRequestMembers(products, images, rid);
    ImagesOfRequestMembers(products, images, rid);
    assert forall img :: img !in pending;
  }

  /** `process_request_images`: queue one `process_image` task per pending image of the request. */
  method ProcessRequestImages(db: Store, rid: RequestId)
    modifies db
    ensures db.queue == old(db.queue) + ImageTasks(PendingOfRequest(db.products, db.images, rid))
    ensures db.requests == old(db.requests) && db.products == old(db.products) && db.images == old(db.images)
    ensures db.nextProductId == old(db.nextProductId) && db.nextImageId == old(db.nextImageId)
  {
    var pending := PendingOfRequest(db.products, db.images, rid);
    for i := 0 to |pending|
      invariant db.queue == old(db.queue) + ImageTasks(pending[..i])
      invariant db.requests == old(db.requests) && db.products == old(db.products) && db.images == old(db.images)
      invariant db.nextProductId == old(db.nextProductId) && db.nextImageId == old(db.nextImageId)
    {
      assert ImageTasks(pending[..i + 1]) == ImageTasks(pending[..i]) + [ProcessImageTask(pending[i].id)];
      db.queue := db.queue + [ProcessImageTask(pending[i].id)];
    }
    assert pending[..|pending|] == pending;
  }

  // ---------------------------------------------------------------------------
  // check_request_completion
  // ---------------------------------------------------------------------------

  /** The counters `check_request_completion` writes, and `completed` once every image is terminal. */
  function Recount(r: Request, imgs: seq<Image>): Request
  {
    var total := |imgs|;
    var processed := CountTerminal(imgs);
    var counted := r.(totalImages := total, processedImages := processed);
    if processed == total then counted.(status := RequestStatus.Completed) else counted
  }

  /** `request.webhook_url and request.webhook_status == 'not_sent'`. */
  predicate AwaitsWebhook(r: Request) {
    HasWebhookUrl(r) && r.webhookStatus == Some(NotSent)
  }

  /** The webhook task the check queues: one, exactly when all images are terminal and a delivery is awaited. */
  function CompletionTasks(r: Request, imgs: seq<Image>): seq<Task>
  {
    if CountTerminal(imgs) == |imgs| && AwaitsWebhook(r) then [SendWebhookTask(r.id, 0, 0)] else []
  }

  /**
   * The recount makes `total_images` the number of the request's images and
   * `processed_images` the number of them that are completed or failed, so
   * never more; the status becomes `completed` exactly when every image is
   * terminal (no image at all included) and is otherwise left alone, so it
   * never moves backwards; the webhook fields are untouched.
   */
  lemma RecountSpec(r: Request, imgs: seq<Image>)
    ensures Recount(r, imgs).totalImages == |imgs|
    ensures Recount(r, imgs).processedImages == CountTerminal(imgs) <= Recount(r, imgs).totalImages
    ensures (forall i :: 0 <= i < |imgs| ==> IsTerminal(imgs[i].status)) ==> Recount(r, imgs).status == RequestStatus.Completed
    ensures !(forall i :: 0 <= i < |imgs| ==> IsTerminal(imgs[i].status)) ==> Recount(r, imgs).status == r.status
    ensures r.status == RequestStatus.Completed ==> Recount(r, imgs).status == RequestStatus.Completed
    ensures Recount(r, imgs).id == r.id
    ensures Recount(r, imgs).webhookUrl == r.webhookUrl && Recount(r, imgs).webhookStatus == r.webhookStatus
  {
    CountTerminalBounded(imgs);
    CountTerminalAll(imgs);
  }

  /**
   * The webhook is queued exactly when every image is terminal, a locator is
   * set and the status is still `not_sent`.
   */
  lemma CompletionTasksSpec(r: Request, imgs: seq<Image>)
    ensures |CompletionTasks(r, imgs)| <= 1
    ensures CompletionTasks(r, imgs) != [] <==>
      (forall i :: 0 <= i < |imgs| ==> IsTerminal(imgs[i].status)) && HasWebhookUrl(r) && r.webhookStatus == Some(NotSent)
    ensures CompletionTasks(r, imgs) != [] ==> CompletionTasks(r, imgs) == [SendWebhookTask(r.id, 0, 0)]
  {
    CountTerminalAll(imgs);
  }

  /**
   * The check does not mark the webhook as queued: checking again over the same
   * images leaves the request as it is and queues the webhook again.
   */
  lemma RecheckRequeues(r: Request, imgs: seq<Image>)
    ensures Recount(Recount(r, imgs), imgs) == Recount(r, imgs)
    ensures CompletionTasks(Recount(r, imgs), imgs) == CompletionTasks(r, imgs)
  {
  }

  /** Recounting one request keeps the store's invariant. */
  lemma RecountKeepsValid(requests: map<RequestId, Request>, products: seq<Product>, images: seq<Image>,
                          nextPid: ProductId, nextIid: ImageId, rid: RequestId, imgs: seq<Image>)
    requires StoreValid(requests, products, images, nextPid, nextIid) && rid in requests
    ensures StoreValid(requests[rid := Recount(requests[rid], imgs)], products, images, nextPid, nextIid)
  {
    RecountSpec(requests[rid], imgs);
  }

  /**
   * The request table and queue after `check_request_completion(rid)`, taken
   * before it ran, given the images it counts: unchanged for an unknown
   * request, otherwise recounted with the webhook task queued when due.
   */
  predicate CompletionChecked(requests: map<RequestId, Request>, queue: seq<Task>,
                              requests': map<RequestId, Request>, queue': seq<Task>, imgs: seq<Image>, rid: RequestId)
  {
    && (rid !in requests ==> requests' == requests && queue' == queue)
    && (rid in requests ==>
          && requests' == requests[rid := Recount(requests[rid], imgs)]
          && queue' == queue + CompletionTasks(requests[rid], imgs))
  }

  /**
   * `check_request_completion`: nothing happens for an unknown request;
   * otherwise its counters are recounted over its images, and the webhook
   * task is queued when the check says so.
   */
  method CheckRequestCompletion(db: Store, rid: RequestId)
    requires db.Valid()
    modifies db
    ensures db.Valid()
    ensures CompletionChecked(old(db.requests), old(db.queue), db.requests, db.queue, ImagesOfRequest(db.products, db.images, rid), rid)
    ensures db.products == old(db.products) && db.images == old(db.images)
    ensures db.nextProductId == old(db.nextProductId) && db.nextImageId == old(db.nextImageId)
  {
    if rid !in db.requests {
      return;
    }
    var request := db.requests[rid];
    var imgs := ImagesOfRequest(db.products, db.images, rid);
    var totalCount := |imgs|;
    var processedCount := CountTerminal(imgs);
    RecountKeepsValid(db.requests, db.products, db.images, db.nextProductId, db.nextImageId, rid, imgs);
    request := request.(totalImages := totalCount, processedImages := processedCount);
    if processedCount == totalCount {
      request := request.(status := RequestStatus.Completed);
      db.requests := db.requests[rid := request];
      if HasWebhookUrl(request) && request.webhookStatus == Some(NotSent) {
        db.queue := db.queue + [SendWebhookTask(rid, 0, 0)];
      }
    } else {
      db.requests := db.requests[rid := request];
    }
  }

  // ---------------------------------------------------------------------------
  // process_image
  // ---------------------------------------------------------------------------

  /**
   * What the download, recompression and write of `process_image` produce:
   * the locator of the written file, or an exception.
   */
  datatype FetchOutcome = Fetched(outputUrl: string) | FetchFailed

  /** The image once processing ends: `completed` with its output locator, or `failed` without one. */
  function Finished(img: Image, fetch: FetchOutcome): Image
  {
    match fetch
    case Fetched(url) => img.(outputUrl := Some(url), status := ImageStatus.Completed)
    case FetchFailed => img.(status := ImageStatus.Failed)
  }

  /**
   * A pending image ends terminal with its identity and locator kept; the
   * output locator is written only on the success path, and the failure path
   * leaves it unset.
   */
  lemma FinishedSpec(img: Image, fetch: FetchOutcome)
    requires WellFormedImage(img) && img.status == ImageStatus.Pending
    ensures IsTerminal(Finished(img, fetch).status)
    ensures WellFormedImage(Finished(img, fetch))
    ensures Finished(img, fetch).id == img.id && Finished(img, fetch).productId == img.productId
    ensures Finished(img, fetch).inputUrl == img.inputUrl
    ensures Finished(img, fetch).status == ImageStatus.Completed <==> fetch.Fetched?
    ensures Finished(img, fetch).outputUrl.Some? <==> fetch.Fetched?
    ensures fetch.Fetched? ==> Finished(img, fetch).outputUrl == Some(fetch.outputUrl)
  {
  }

  /** Replacing an image by one with the same id does not move the lookup. */
  lemma {:induction false} FindImageUpdate(images: seq<Image>, k: nat, img: Image, iid: ImageId)
    requires k < |images| && img.id == images[k].id
    ensures FindImage(images[k := img], iid) == FindImage(images, iid)
  {
    if k > 0 {
      assert images[k := img][1..] == images[1..][k - 1 := img];
      FindImageUpdate(images[1..], k - 1, img, iid);
    }
  }

  /** Turning stored image `k` into `img` keeps the store's invariant. */
  lemma UpdateImageKeepsValid(requests: map<RequestId, Request>, products: seq<Product>, images: seq<Image>,
                              nextPid: ProductId, nextIid: ImageId, k: nat, img: Image)
    requires StoreValid(requests, products, images, nextPid, nextIid)
    requires k < |images| && img.id == images[k].id && img.productId == images[k].productId
    requires WellFormedImage(img)
    ensures StoreValid(requests, products, images[k := img], nextPid, nextIid)
  {
    var updated := images[k := img];
    assert forall i :: 0 <= i < |updated| ==> updated[i].id == images[i].id && updated[i].productId == images[i].productId;
  }

  /** The guard of `process_image`: the image exists and is still `pending`. */
  predicate Processable(images: seq<Image>, iid: ImageId) {
    FindImage(images, iid).Some? && images[FindImage(images, iid).value].status == ImageStatus.Pending
  }

  /**
   * The tables and queue after `process_image(iid)` on a processable image:
   * the image finished with `fetch`, then the completion check of the request
   * its product belongs to, over the images as they are then.
   */
  predicate ImageProcessed(products: seq<Product>, images: seq<Image>, requests: map<RequestId, Request>, queue: seq<Task>,
                           iid: ImageId, fetch: FetchOutcome,
                           images': seq<Image>, requests': map<RequestId, Request>, queue': seq<Task>)
    requires Processable(images, iid)
  {
    var k := FindImage(images, iid).value;
    && images' == images[k := Finished(images[k], fetch)]
    && FindProduct(products, images[k].productId).Some?
    && var rid := FindProduct(products, images[k].productId).value.requestId;
       CompletionChecked(requests, queue, requests', queue', ImagesOfRequest(products, images', rid), rid)
  }

  /**
   * `process_image`: an unknown or non-pending image is left alone and the
   * check is not run. A pending image goes to `processing`, then to
   * `completed` with the output locator or to `failed`, and in both cases the
   * completion check runs for the request of its product.
   */
  method ProcessImage(db: Store, iid: ImageId, fetch: FetchOutcome)
    requires db.Valid()
    modifies db
    ensures db.Valid()
    ensures !Processable(old(db.images), iid) ==>
      && db.requests == old(db.requests) && db.images == old(db.images) && db.queue == old(db.queue)
    ensures Processable(old(db.images), iid) ==>
      ImageProcessed(db.products, old(db.images), old(db.requests), old(db.queue), iid, fetch, db.images, db.requests, db.queue)
    ensures db.products == old(db.products)
    ensures db.nextProductId == old(db.nextProductId) && db.nextImageId == old(db.nextImageId)
  {
    if !Processable(db.images, iid) {
      return;
    }
    var k := FindImage(db.images, iid).value;
    var image := db.images[k];
    var owner := FindProduct(db.products, image.productId);
    assert owner.Some?;
    var rid := owner.value.requestId;
    UpdateImageKeepsValid(db.requests, db.products, db.images, db.nextProductId, db.nextImageId, k, image.(status := ImageStatus.Processing));
    db.images := db.images[k := image.(status := ImageStatus.Processing)];
    FinishedSpec(image, fetch);
    UpdateImageKeepsValid(db.requests, db.products, db.images, db.nextProductId, db.nextImageId, k, Finished(image, fetch));
    match fetch {
      case Fetched(url) =>
        db.images := db.images[k := db.images[k].(outputUrl := Some(url), status := ImageStatus.Completed)];
      case FetchFailed =>
        db.images := db.images[k := db.images[k].(status := ImageStatus.Failed)];
    }
    assert db.images == old(db.images)[k := Finished(image, fetch)];
    CheckRequestCompletion(db, rid);
  }

  /**
   * The pending guard makes a second run of the same task a no-op: once
   * processed, the image is found at the same place and is no longer pending.
   */
  lemma ProcessedImageNotPendingAgain(images: seq<Image>, iid: ImageId, fetch: FetchOutcome)
    requires FindImage(images, iid).Some?
    requires images[FindImage(images, iid).value].status == ImageStatus.Pending
    ensures var k := FindImage(images, iid).value;
      var after := images[k := Finished(images[k], fetch)];
      FindImage(after, iid) == Some(k) && after[k].status != ImageStatus.Pending
  {
    var k := FindImage(images, iid).value;
    FindImageUpdate(images, k, Finished(images[k], fetch), iid);
  }
}
