/**
 * The three persisted records (a request, its products, their images), their
 * string-valued statuses as enumerations, the queries the services run against
 * them, and the store that holds them.
 */
module Models {
  import opened Wrappers

  type RequestId = string
  type ProductId = nat
  type ImageId = nat

  /** `requests.status`: 'pending', 'processing', 'completed', 'failed'. */
  datatype RequestStatus = Pending | Processing | Completed | Failed

  /** `images.status`: 'pending', 'processing', 'completed', 'failed'. */
  datatype ImageStatus = Pending | Processing | Completed | Failed

  /** `requests.webhook_status`: 'not_sent', 'sent', 'failed'. */
  datatype WebhookStatus = NotSent | Sent | Failed

  datatype Request = Request(
    id: RequestId,
    status: RequestStatus,
    totalImages: nat,
    processedImages: nat,
    webhookUrl: Option<string>,
    webhookStatus: Option<WebhookStatus>)

  datatype Product = Product(
    id: ProductId,
    requestId: RequestId,
    serialNumber: int,
    productName: string)

  datatype Image = Image(
    id: ImageId,
    productId: ProductId,
    inputUrl: string,
    outputUrl: Option<string>,
    status: ImageStatus)

  /** A unit of work put on the task queue; `.delay()` and `retry(countdown=...)` both append one. */
  datatype Task =
    | ProcessRequestImagesTask(requestId: RequestId)
    | ProcessImageTask(imageId: ImageId)
    | SendWebhookTask(requestId: RequestId, retries: nat, countdown: nat)

  /** Python truthiness of `request.webhook_url`: set and not the empty string. */
  predicate HasWebhookUrl(r: Request) {
    r.webhookUrl.Some? && r.webhookUrl.value != []
  }

  predicate IsTerminal(s: ImageStatus) {
    s == ImageStatus.Completed || s == ImageStatus.Failed
  }

  /**
   * The primary-key lookup of a product by id: what `image.product` follows
   * and what `join(Image.product)` matches on. The first product with that id.
   */
  function FindProduct(products: seq<Product>, pid: ProductId): (r: Option<Product>)
    ensures r.Some? ==> r.value in products && r.value.id == pid
    ensures r.None? <==> forall i :: 0 <= i < |products| ==> products[i].id != pid
  {
    if products == [] then None
    else if products[0].id == pid then Some(products[0])
    else FindProduct(products[1..], pid)
  }

  /** `Image.query.get(iid)`: the position of the first image with that id. */
  function FindImage(images: seq<Image>, iid: ImageId): (r: Option<nat>)
    ensures r.Some? ==> r.value < |images| && images[r.value].id == iid
    ensures r.None? <==> forall i :: 0 <= i < |images| ==> images[i].id != iid
  {
    if images == [] then None
    else if images[0].id == iid then Some(0)
    else match FindImage(images[1..], iid)
      case None => None
      case Some(k) => Some(k + 1)
  }

  /** `image.product.request_id == rid`, following the image's back-reference. */
  predicate BelongsTo(products: seq<Product>, img: Image, rid: RequestId) {
    var p := FindProduct(products, img.productId);
    p.Some? && p.value.requestId == rid
  }

  /** `Image.query.join(Image.product).filter(Product.request_id == rid)`, in stored order. */
  function ImagesOfRequest(products: seq<Product>, images: seq<Image>, rid: RequestId): (r: seq<Image>)
    ensures |r| <= |images|
    decreases |images|
  {
    if images == [] then []
    else
      var prev := ImagesOfRequest(products, images[..|images| - 1], rid);
      var last := images[|images| - 1];
      if BelongsTo(products, last, rid) then prev + [last] else prev
  }

  /**
   * The query keeps exactly the stored images whose product belongs to the
   * request, each as often as it is stored, so `.count()` counts them.
   */
  lemma {:induction false} ImagesOfRequestMembers(products: seq<Product>, images: seq<Image>, rid: RequestId)
    ensures forall img :: img in ImagesOfRequest(products, images, rid) <==> img in images && BelongsTo(products, img, rid)
    ensures forall img :: multiset(ImagesOfRequest(products, images, rid))[img] == if BelongsTo(products, img, rid) then multiset(images)[img] else 0
    decreases |images|
  {
    if images != [] {
      var init := images[..|images| - 1];
      ImagesOfRequestMembers(products, init, rid);
      assert images == init + [images[|images| - 1]];
    }
  }

  /** `Image.query.filter_by(product_id=pid)`, in stored order. */
  function ImagesOfProduct(images: seq<Image>, pid: ProductId): (r: seq<Image>)
    ensures |r| <= |images|
    decreases |images|
  {
    if images == [] then []
    else
      var prev := ImagesOfProduct(images[..|images| - 1], pid);
      var last := images[|images| - 1];
      assert images == images[..|images| - 1] + [last];
      if last.productId == pid then prev + [last] else prev
  }

  /** `Product.query.filter_by(request_id=rid)`, in stored order. */
  function ProductsOfRequest(products: seq<Product>, rid: RequestId): (r: seq<Product>)
    ensures |r| <= |products|
    ensures forall p :: p in r <==> p in products && p.requestId == rid
    decreases |products|
  {
    if products == [] then []
    else
      var prev := ProductsOfRequest(products[..|products| - 1], rid);
      var last := products[|products| - 1];
      assert products == products[..|products| - 1] + [last];
      if last.requestId == rid then prev + [last] else prev
  }

  /** The product query returns each stored product of the request as often as it is stored, and no other. */
  lemma {:induction false} ProductsOfRequestCounts(products: seq<Product>, rid: RequestId)
    ensures forall p :: multiset(ProductsOfRequest(products, rid))[p] == if p.requestId == rid then multiset(products)[p] else 0
    decreases |products|
  {
    if products != [] {
      var init := products[..|products| - 1];
      ProductsOfRequestCounts(init, rid);
      assert products == init + [products[|products| - 1]];
    }
  }

  /** A sequence without repeated elements holds each value at most once. */
  lemma {:induction false} NoRepeatsOnce<T>(s: seq<T>, x: T)
    requires forall i, j :: 0 <= i < j < |s| ==> s[i] != s[j]
    ensures multiset(s)[x] <= 1
    decreases |s|
  {
    if s != [] {
      var init := s[..|s| - 1];
      NoRepeatsOnce(init, x);
      assert s == init + [s[|s| - 1]];
      forall i | 0 <= i < |init| ensures init[i] != s[|s| - 1] {
        assert init[i] == s[i];
      }
    }
  }

  /** With the store's strictly increasing ids, each product of the request is returned exactly once. */
  lemma ProductsOfRequestOnce(products: seq<Product>, next: ProductId, rid: RequestId, p: Product)
    requires ProductIdsFresh(products, next)
    requires p in products && p.requestId == rid
    ensures multiset(ProductsOfRequest(products, rid))[p] == 1
  {
    ProductsOfRequestCounts(products, rid);
    NoRepeatsOnce(products, p);
  }

  /** With the store's strictly increasing ids, each image of the request is returned, and counted, exactly once. */
  lemma ImagesOfRequestOnce(products: seq<Product>, images: seq<Image>, next: ImageId, rid: RequestId, img: Image)
    requires ImageIdsFresh(images, next)
    requires img in images && BelongsTo(products, img, rid)
    ensures multiset(ImagesOfRequest(products, images, rid))[img] == 1
  {
    ImagesOfRequestMembers(products, images, rid);
    NoRepeatsOnce(images, img);
  }

  /** The number of images in a terminal state: `status.in_(['completed', 'failed'])`. */
  function CountTerminal(imgs: seq<Image>): nat
  {
    if imgs == [] then 0
    else CountTerminal(imgs[..|imgs| - 1]) + (if IsTerminal(imgs[|imgs| - 1].status) then 1 else 0)
  }

  /** The terminal images never outnumber the images. */
  lemma {:induction false} CountTerminalBounded(imgs: seq<Image>)
    ensures CountTerminal(imgs) <= |imgs|
  {
    if imgs != [] {
      CountTerminalBounded(imgs[..|imgs| - 1]);
    }
  }

  /** The terminal count reaches the image count exactly when every image is terminal. */
  lemma {:induction false} CountTerminalAll(imgs: seq<Image>)
    ensures CountTerminal(imgs) == |imgs| <==> forall i :: 0 <= i < |imgs| ==> IsTerminal(imgs[i].status)
  {
    if imgs != [] {
      var prefix := imgs[..|imgs| - 1];
      CountTerminalAll(prefix);
      CountTerminalBounded(prefix);
      assert forall i :: 0 <= i < |prefix| ==> prefix[i] == imgs[i];
    }
  }

  /** The input locators of some images, in order: `[img.input_url for img in images]`. */
  function InputUrls(imgs: seq<Image>): (urls: seq<string>)
    ensures |urls| == |imgs|
    ensures forall k :: 0 <= k < |imgs| ==> urls[k] == imgs[k].inputUrl
  {
    seq(|imgs|, k requires 0 <= k < |imgs| => imgs[k].inputUrl)
  }

  /** What every stored image satisfies: a non-empty, comma-free locator and an output only once completed. */
  predicate WellFormedImage(img: Image) {
    && img.inputUrl != []
    && ',' !in img.inputUrl
    && (img.outputUrl.Some? ==> img.status == ImageStatus.Completed)
  }

  /** Ids in stored order are strictly increasing and below the next id to hand out. */
  predicate ProductIdsFresh(products: seq<Product>, next: ProductId) {
    && (forall i :: 0 <= i < |products| ==> products[i].id < next)
    && (forall i, j :: 0 <= i < j < |products| ==> products[i].id < products[j].id)
  }

  predicate ImageIdsFresh(images: seq<Image>, next: ImageId) {
    && (forall i :: 0 <= i < |images| ==> images[i].id < next)
    && (forall i, j :: 0 <= i < j < |images| ==> images[i].id < images[j].id)
  }

  /** Every image refers to a stored product (the `product_id` foreign key) and is well formed. */
  predicate ImagesAttached(products: seq<Product>, images: seq<Image>) {
    forall i :: 0 <= i < |images| ==>
      WellFormedImage(images[i]) && FindProduct(products, images[i].productId).Some?
  }

  /** Every request is stored under its own id and has counted no more images than it holds. */
  predicate RequestsConsistent(requests: map<RequestId, Request>) {
    forall rid :: rid in requests ==>
      requests[rid].id == rid && requests[rid].processedImages <= requests[rid].totalImages
  }

  /** The invariant of the store's tables and id generators. */
  predicate StoreValid(requests: map<RequestId, Request>, products: seq<Product>, images: seq<Image>, nextProductId: ProductId, nextImageId: ImageId) {
    && RequestsConsistent(requests)
    && ProductIdsFresh(products, nextProductId)
    && ImageIdsFresh(images, nextImageId)
    && ImagesAttached(products, images)
  }

  /** Looking up a product in a concatenation looks in the first part, then in the second. */
  lemma {:induction false} FindProductAppend(a: seq<Product>, b: seq<Product>, pid: ProductId)
    ensures FindProduct(a + b, pid) == if FindProduct(a, pid).Some? then FindProduct(a, pid) else FindProduct(b, pid)
  {
    if a == [] {
      assert a + b == b;
    } else {
      assert (a + b)[1..] == a[1..] + b;
      FindProductAppend(a[1..], b, pid);
    }
  }

  /**
   * The in-memory database: the three tables, the id generator that stands in for
   * `uuid4()`, and the task queue onto which `.delay()` appends.
   */
  class Store {
    var requests: map<RequestId, Request>
    var products: seq<Product>
    var images: seq<Image>
    var nextProductId: ProductId
    var nextImageId: ImageId
    var queue: seq<Task>

    ghost predicate Valid()
      reads this
    {
      StoreValid(requests, products, images, nextProductId, nextImageId)
    }

    constructor ()
      ensures Valid()
      ensures requests == map[] && products == [] && images == [] && queue == []
    {
      requests := map[];
      products := [];
      images := [];
      nextProductId := 0;
      nextImageId := 0;
      queue := [];
    }
  }
}
