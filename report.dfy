/**
 * The results file of `generate_results_csv` (services/webhook_service.py):
 * one line per product of the request, ordered by serial number, with the
 * image locators of the product joined by commas.
 */
module Report {
  import opened Wrappers
  import opened Models
  import opened Strings

  /** A line of the results file: the columns `S. No.`, `Product Name`, `Input Image Urls`, `Output Image Urls`. */
  datatype ReportRow = ReportRow(serialNumber: int, productName: string, inputImageUrls: string, outputImageUrls: string)

  // ---------------------------------------------------------------------------
  // order_by(Product.serial_number)
  // ---------------------------------------------------------------------------

  predicate SortedBySerial(ps: seq<Product>) {
    forall i, j :: 0 <= i < j < |ps| ==> ps[i].serialNumber <= ps[j].serialNumber
  }

  /** Put `p` after every product whose serial is not larger. */
  function InsertBySerial(p: Product, sorted: seq<Product>): (r: seq<Product>)
    ensures |r| == |sorted| + 1
    ensures multiset(r) == multiset(sorted) + multiset{p}
  {
    if sorted == [] then [p]
    else if p.serialNumber < sorted[0].serialNumber then [p] + sorted
    else
      assert sorted == [sorted[0]] + sorted[1..];
      [sorted[0]] + InsertBySerial(p, sorted[1..])
  }

  lemma {:induction false} InsertBySerialSorted(p: Product, sorted: seq<Product>)
    requires SortedBySerial(sorted)
    ensures SortedBySerial(InsertBySerial(p, sorted))
    ensures InsertBySerial(p, sorted) != [] &&
      (InsertBySerial(p, sorted)[0] == p || (sorted != [] && InsertBySerial(p, sorted)[0] == sorted[0]))
  {
    if sorted != [] && p.serialNumber >= sorted[0].serialNumber {
      InsertBySerialSorted(p, sorted[1..]);
    }
  }

  /** The products in order of serial number; equal serials keep their stored order. */
  function OrderBySerial(ps: seq<Product>): (r: seq<Product>)
    ensures |r| == |ps|
    ensures multiset(r) == multiset(ps)
  {
    if ps == [] then []
    else
      assert ps == ps[..|ps| - 1] + [ps[|ps| - 1]];
      InsertBySerial(ps[|ps| - 1], OrderBySerial(ps[..|ps| - 1]))
  }

  /** The order is by non-decreasing serial. */
  lemma {:induction false} OrderBySerialSorted(ps: seq<Product>)
    ensures SortedBySerial(OrderBySerial(ps))
  {
    if ps != [] {
      OrderBySerialSorted(ps[..|ps| - 1]);
      InsertBySerialSorted(ps[|ps| - 1], OrderBySerial(ps[..|ps| - 1]));
    }
  }

  // ---------------------------------------------------------------------------
  // The lines
  // ---------------------------------------------------------------------------

  /** `img.output_url if img.output_url else ''`. */
  function OutputCell(img: Image): string {
    if img.outputUrl.Some? then img.outputUrl.value else ""
  }

  function OutputCells(imgs: seq<Image>): (cells: seq<string>)
    ensures |cells| == |imgs|
    ensures forall k :: 0 <= k < |imgs| ==> cells[k] == OutputCell(imgs[k])
  {
    seq(|imgs|, k requires 0 <= k < |imgs| => OutputCell(imgs[k]))
  }

  /** The line of one product, over the product's images in stored order. */
  function RowOf(p: Product, images: seq<Image>): ReportRow {
    var imgs := ImagesOfProduct(images, p.id);
    ReportRow(p.serialNumber, p.productName, Join(InputUrls(imgs), ','), Join(OutputCells(imgs), ','))
  }

  /** All the lines of the results file of request `rid`. */
  function ReportRows(products: seq<Product>, images: seq<Image>, rid: RequestId): (rows: seq<ReportRow>)
    ensures |rows| == |ProductsOfRequest(products, rid)|
  {
    var ordered := OrderBySerial(ProductsOfRequest(products, rid));
    seq(|ordered|, k requires 0 <= k < |ordered| => RowOf(ordered[k], images))
  }

  /** `BASE_URL/results/{request_id}_results.csv`. */
  function ResultsUrl(baseUrl: string, rid: RequestId): string {
    baseUrl + "/results/" + rid + "_results.csv"
  }

  /**
   * One line per product of the request and no other: the lines are those of
   * a rearrangement of the request's products, in non-decreasing serial order,
   * each carrying its product's serial number and name verbatim.
   */
  lemma ReportRowsSpec(products: seq<Product>, images: seq<Image>, rid: RequestId)
    ensures var rows := ReportRows(products, images, rid);
      var ordered := OrderBySerial(ProductsOfRequest(products, rid));
      && |rows| == |ordered|
      && multiset(ordered) == multiset(ProductsOfRequest(products, rid))
      && (forall p :: p in ordered <==> p in products && p.requestId == rid)
      && (forall k :: 0 <= k < |rows| ==> rows[k] == RowOf(ordered[k], images))
      && (forall k :: 0 <= k < |rows| ==> rows[k].serialNumber == ordered[k].serialNumber && rows[k].productName == ordered[k].productName)
      && (forall i, j :: 0 <= i < j < |rows| ==> rows[i].serialNumber <= rows[j].serialNumber)
  {
    var ordered := OrderBySerial(ProductsOfRequest(products, rid));
    OrderBySerialSorted(ProductsOfRequest(products, rid));
    forall p ensures p in ordered <==> p in ProductsOfRequest(products, rid) {
      assert p in ordered <==> p in multiset(ordered);
    }
  }

  /**
   * With the store's strictly increasing product ids, each product of the
   * request has exactly one line, carrying its serial number and name.
   */
  lemma ReportOneLinePerProduct(products: seq<Product>, next: ProductId, images: seq<Image>, rid: RequestId, p: Product)
    requires ProductIdsFresh(products, next)
    requires p in products && p.requestId == rid
    ensures multiset(OrderBySerial(ProductsOfRequest(products, rid)))[p] == 1
    ensures exists k :: 0 <= k < |ReportRows(products, images, rid)| && ReportRows(products, images, rid)[k] == RowOf(p, images)
  {
    ReportRowsSpec(products, images, rid);
    ProductsOfRequestOnce(products, next, rid, p);
    var ordered := OrderBySerial(ProductsOfRequest(products, rid));
    assert p in multiset(ordered);
    var k :| 0 <= k < |ordered| && ordered[k] == p;
    assert ReportRows(products, images, rid)[k] == RowOf(p, images);
  }

  /** `Image.query.filter_by(product_id=pid)` returns exactly the stored images of that product. */
  lemma {:induction false} ImagesOfProductFrom(images: seq<Image>, pid: ProductId)
    ensures forall img :: img in ImagesOfProduct(images, pid) <==> img in images && img.productId == pid
    decreases |images|
  {
    if images != [] {
      var init := images[..|images| - 1];
      ImagesOfProductFrom(init, pid);
      assert images == init + [images[|images| - 1]];
    }
  }

  /**
   * Stored input locators hold no comma, so splitting the input column of a
   * product that has images gives back its images' locators in order (with no
   * image the column is "", which splits to one empty piece).
   */
  lemma InputColumnSplits(p: Product, images: seq<Image>)
    requires forall i :: 0 <= i < |images| ==> WellFormedImage(images[i])
    ensures var imgs := ImagesOfProduct(images, p.id);
      imgs != [] ==> Split(RowOf(p, images).inputImageUrls, ',') == InputUrls(imgs)
    ensures ImagesOfProduct(images, p.id) == [] ==> RowOf(p, images).inputImageUrls == []
  {
    var imgs := ImagesOfProduct(images, p.id);
    ImagesOfProductFrom(images, p.id);
    if imgs != [] {
      forall k | 0 <= k < |imgs| ensures ',' !in InputUrls(imgs)[k] {
        assert imgs[k] in images;
      }
      SplitJoin(InputUrls(imgs), ',');
    }
  }

  /**
   * The output column has one entry per image, in the same order as the input
   * column: when the output locators hold no comma, splitting gives back
   * `OutputCells`; an entry is non-empty only for a `completed` image.
   */
  lemma OutputColumnSplits(p: Product, images: seq<Image>)
    requires forall i :: 0 <= i < |images| ==> WellFormedImage(images[i])
    ensures var imgs := ImagesOfProduct(images, p.id);
      forall k :: 0 <= k < |imgs| ==> OutputCells(imgs)[k] != [] ==> imgs[k].status == ImageStatus.Completed
    ensures var imgs := ImagesOfProduct(images, p.id);
      imgs != [] && (forall k :: 0 <= k < |imgs| ==> ',' !in OutputCell(imgs[k])) ==>
        Split(RowOf(p, images).outputImageUrls, ',') == OutputCells(imgs)
  {
    var imgs := ImagesOfProduct(images, p.id);
    ImagesOfProductFrom(images, p.id);
    forall k | 0 <= k < |imgs| && OutputCells(imgs)[k] != [] ensures imgs[k].status == ImageStatus.Completed {
      assert imgs[k] in images;
    }
    if imgs != [] && (forall k :: 0 <= k < |imgs| ==> ',' !in OutputCell(imgs[k])) {
      SplitJoin(OutputCells(imgs), ',');
    }
  }

  /** The locator names the request alone: two requests never share a results file. */
  lemma ResultsUrlInjective(baseUrl: string, a: RequestId, b: RequestId)
    requires ResultsUrl(baseUrl, a) == ResultsUrl(baseUrl, b)
    ensures a == b
  {
    var prefix := baseUrl + "/results/";
    var suffix := "_results.csv";
    assert ResultsUrl(baseUrl, a) == prefix + a + suffix;
    assert ResultsUrl(baseUrl, b) == prefix + b + suffix;
    assert |a| == |b|;
    assert a == ResultsUrl(baseUrl, a)[|prefix|..|prefix| + |a|];
    assert b == ResultsUrl(baseUrl, b)[|prefix|..|prefix| + |b|];
  }

  /**
   * `generate_results_csv`: the lines built product by product in serial
   * order, and the locator of the written file.
   */
  method GenerateResultsCsv(db: Store, rid: RequestId, baseUrl: string) returns (rows: seq<ReportRow>, url: string)
    ensures rows == ReportRows(db.products, db.images, rid)
    ensures url == ResultsUrl(baseUrl, rid)
  {
    var products := OrderBySerial(ProductsOfRequest(db.products, rid));
    rows := [];
    for i := 0 to |products|
      invariant |rows| == i
      invariant forall k :: 0 <= k < i ==> rows[k] == RowOf(products[k], db.images)
    {
      var product := products[i];
      var images := ImagesOfProduct(db.images, product.id);
      var inputUrls := Join(InputUrls(images), ',');
      var outputUrls := Join(OutputCells(images), ',');
      rows := rows + [ReportRow(product.serialNumber, product.productName, inputUrls, outputUrls)];
    }
    var filename := rid + "_results.csv";
    url := baseUrl + "/results/" + filename;
  }
}
