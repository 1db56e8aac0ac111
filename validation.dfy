/**
 * Batch intake (`validate_csv`) and batch decomposition (`process_csv_to_db`).
 *
 * A CSV file is either unreadable or a table: its column names and its rows,
 * each row holding the three required cells, `None` standing for a cell pandas
 * reads as NaN (an empty field). Whether a cell passes `int(...)` is left to the
 * parameter `parse`.
 */
module Validation {
  import opened Wrappers
  import opened Strings
  import opened Models

  const SerialColumn: string := "S. No."
  const NameColumn: string := "Product Name"
  const UrlsColumn: string := "Input Image Urls"
  const RequiredColumns: seq<string> := [SerialColumn, NameColumn, UrlsColumn]

  datatype Row = Row(serialNo: Option<string>, productName: Option<string>, inputImageUrls: Option<string>)
  datatype Table = Table(columns: seq<string>, rows: seq<Row>)
  datatype CsvFile = Unreadable(reason: string) | Parsed(table: Table)

  /** `int(cell)`: the cells it accepts, each with the integer it returns; on any other cell Python raises. */
  type IntParser = map<string, int>

  function IntOf(parse: IntParser, cell: string): Option<int>
  {
    if cell in parse then Some(parse[cell]) else None
  }

  datatype RowProblem = EmptyFields | InvalidSerial | NoImageUrls

  /** The entries of `result['errors']`, one constructor per message the source formats. */
  datatype ValidationError =
    | ReadError(reason: string)
    | MissingColumns(columns: seq<string>)
    | RowError(row: nat, problem: RowProblem)

  datatype ValidationResult = ValidationResult(valid: bool, errors: seq<ValidationError>, totalImages: nat)

  /** What the row loop decides about one row: an error, or the number of images it adds. */
  datatype RowVerdict = Rejected(problem: RowProblem) | Accepted(imageCount: nat)

  // ---------------------------------------------------------------------------
  // Column check
  // ---------------------------------------------------------------------------

  predicate IsSubsequence(a: seq<string>, b: seq<string>)
  {
    a == [] || (b != [] && if a[0] == b[0] then IsSubsequence(a[1..], b[1..]) else IsSubsequence(a, b[1..]))
  }

  /** `[col for col in required if col not in columns]`: the missing ones, in required order. */
  function Missing(required: seq<string>, columns: seq<string>): (r: seq<string>)
    ensures forall c :: c in r <==> c in required && c !in columns
    ensures IsSubsequence(r, required)
    ensures |r| <= |required|
  {
    if required == [] then []
    else if required[0] in columns then Missing(required[1..], columns)
    else [required[0]] + Missing(required[1..], columns)
  }

  // ---------------------------------------------------------------------------
  // Row checks
  // ---------------------------------------------------------------------------

  /** `[url.strip() for url in cell.split(',')]`: every piece, the empty ones included. */
  function ImageUrls(cell: string): (urls: seq<string>)
    ensures |urls| == |Split(cell, ',')| >= 1
  {
    var pieces := Split(cell, ',');
    seq(|pieces|, i requires 0 <= i < |pieces| => Strip(pieces[i]))
  }

  /** Piece i is the i-th comma piece, stripped, and holds no comma. */
  lemma ImageUrlsPieces(cell: string)
    ensures forall i :: 0 <= i < |ImageUrls(cell)| ==>
      ImageUrls(cell)[i] == Strip(Split(cell, ',')[i]) && ',' !in ImageUrls(cell)[i]
  {
    var pieces := Split(cell, ',');
    forall i | 0 <= i < |pieces| ensures ',' !in Strip(pieces[i]) {
      StripSpec(pieces[i]);
    }
  }

  /**
   * The body of the row loop as a decision: an empty field first, then a serial
   * that `int(...)` refuses; otherwise the row adds one image per comma piece.
   * The "no image URLs" case cannot arise, since a split always has a piece.
   */
  function CheckRow(row: Row, parse: IntParser): (v: RowVerdict)
    ensures v == Rejected(EmptyFields) <==>
      row.serialNo.None? || row.productName.None? || row.inputImageUrls.None?
    ensures v == Rejected(InvalidSerial) <==>
      row.serialNo.Some? && row.productName.Some? && row.inputImageUrls.Some? && IntOf(parse, row.serialNo.value).None?
    ensures v != Rejected(NoImageUrls)
    ensures v.Accepted? ==> v.imageCount == |Split(row.inputImageUrls.value, ',')| >= 1
  {
    if row.serialNo.None? || row.productName.None? || row.inputImageUrls.None? then Rejected(EmptyFields)
    else if IntOf(parse, row.serialNo.value).None? then Rejected(InvalidSerial)
    else
      var urls := ImageUrls(row.inputImageUrls.value);
      if |urls| == 0 then Rejected(NoImageUrls) else Accepted(|urls|)
  }

  function ErrorsOf(v: RowVerdict, rowNumber: nat): seq<ValidationError>
  {
    match v
    case Accepted(_) => []
    case Rejected(p) => [RowError(rowNumber, p)]
  }

  function ImagesOf(v: RowVerdict): nat
  {
    match v
    case Accepted(n) => n
    case Rejected(_) => 0
  }

  /** The errors the row loop appends, rows numbered from 1. */
  function RowErrors(rows: seq<Row>, parse: IntParser): seq<ValidationError>
    decreases |rows|
  {
    if rows == [] then []
    else RowErrors(rows[..|rows| - 1], parse) + ErrorsOf(CheckRow(rows[|rows| - 1], parse), |rows|)
  }

  /** The images the row loop counts, summed over the rows that pass the checks. */
  function TotalImages(rows: seq<Row>, parse: IntParser): nat
    decreases |rows|
  {
    if rows == [] then 0
    else TotalImages(rows[..|rows| - 1], parse) + ImagesOf(CheckRow(rows[|rows| - 1], parse))
  }

  /**
   * `validate_csv`. An unreadable file gives one read error; missing columns give
   * one error listing them and no row is looked at; otherwise the errors are the
   * row errors and `total_images` is recorded whether or not rows were rejected.
   * `valid` is false exactly when an error was reported.
   */
  method ValidateCsv(file: CsvFile, parse: IntParser) returns (result: ValidationResult)
    ensures result.valid <==> result.errors == []
    ensures file.Unreadable? ==> result == ValidationResult(false, [ReadError(file.reason)], 0)
    ensures file.Parsed? && Missing(RequiredColumns, file.table.columns) != [] ==>
      result == ValidationResult(false, [MissingColumns(Missing(RequiredColumns, file.table.columns))], 0)
    ensures file.Parsed? && Missing(RequiredColumns, file.table.columns) == [] ==>
      && result.errors == RowErrors(file.table.rows, parse)
      && result.totalImages == TotalImages(file.table.rows, parse)
  {
    result := ValidationResult(true, [], 0);
    if file.Unreadable? {
      result := result.(valid := false, errors := result.errors + [ReadError(file.reason)]);
      return;
    }
    var table := file.table;
    var missing := Missing(RequiredColumns, table.columns);
    if missing != [] {
      result := result.(valid := false, errors := result.errors + [MissingColumns(missing)]);
      return;
    }
    var rows := table.rows;
    var totalImages := 0;
    for i := 0 to |rows|
      invariant result.errors == RowErrors(rows[..i], parse)
      invariant result.valid <==> result.errors == []
      invariant result.totalImages == 0
      invariant totalImages == TotalImages(rows[..i], parse)
    {
      var row := rows[i];
      assert rows[..i + 1][..i] == rows[..i];
      if row.serialNo.None? || row.productName.None? || row.inputImageUrls.None? {
        result := result.(valid := false, errors := result.errors + [RowError(i + 1, EmptyFields)]);
        continue;
      }
      if IntOf(parse, row.serialNo.value).None? {
        result := result.(valid := false, errors := result.errors + [RowError(i + 1, InvalidSerial)]);
        continue;
      }
      var urls := ImageUrls(row.inputImageUrls.value);
      if |urls| == 0 {
        // `if not image_urls`: a split always yields a piece, so this is unreachable.
        assert false;
      }
      totalImages := totalImages + |urls|;
    }
    assert rows[..|rows|] == rows;
    result := result.(totalImages := totalImages);
  }

  /** An error that names a row (1-based) whose check failed with exactly that problem. */
  predicate ReportsRow(e: ValidationError, rows: seq<Row>, parse: IntParser) {
    e.RowError? && 1 <= e.row <= |rows| && CheckRow(rows[e.row - 1], parse) == Rejected(e.problem)
  }

  /**
   * The row errors are in row order, at most one per row, each naming a row
   * whose check failed with exactly that problem.
   */
  lemma {:induction false} RowErrorsDescribeRows(rows: seq<Row>, parse: IntParser)
    ensures forall i :: 0 <= i < |RowErrors(rows, parse)| ==> ReportsRow(RowErrors(rows, parse)[i], rows, parse)
    ensures forall i, j :: 0 <= i < j < |RowErrors(rows, parse)| ==>
      RowErrors(rows, parse)[i].RowError? && RowErrors(rows, parse)[j].RowError? && RowErrors(rows, parse)[i].row < RowErrors(rows, parse)[j].row
  {
    if rows != [] {
      var n := |rows|;
      var prefix := rows[..n - 1];
      RowErrorsDescribeRows(prefix, parse);
      var before := RowErrors(prefix, parse);
      var added := ErrorsOf(CheckRow(rows[n - 1], parse), n);
      var errs := before + added;
      assert RowErrors(rows, parse) == errs;
      forall i | 0 <= i < |errs|
        ensures ReportsRow(errs[i], rows, parse)
        ensures i < |before| ==> errs[i].row < n
      {
        if i < |before| {
          assert errs[i] == before[i];
          assert ReportsRow(before[i], prefix, parse);
          assert prefix[before[i].row - 1] == rows[before[i].row - 1];
        } else {
          assert errs[i] == added[i - |before|];
        }
      }
      assert |added| <= 1;
    }
  }

  /** Every row whose check fails is reported, under its 1-based number. */
  lemma {:induction false} RejectedRowsReported(rows: seq<Row>, parse: IntParser, k: nat)
    requires k < |rows| && CheckRow(rows[k], parse).Rejected?
    ensures RowError(k + 1, CheckRow(rows[k], parse).problem) in RowErrors(rows, parse)
  {
    var prefix := rows[..|rows| - 1];
    if k < |rows| - 1 {
      assert prefix[k] == rows[k];
      RejectedRowsReported(prefix, parse, k);
    }
  }

  /** Every row that passes the checks adds at least one image, so the count covers the accepted rows. */
  lemma {:induction false} TotalImagesCoversAcceptedRows(rows: seq<Row>, parse: IntParser)
    ensures TotalImages(rows, parse) >= |rows| - |RowErrors(rows, parse)|
  {
    if rows != [] {
      TotalImagesCoversAcceptedRows(rows[..|rows| - 1], parse);
    }
  }

  // ---------------------------------------------------------------------------
  // Decomposition
  // ---------------------------------------------------------------------------

  /** `str(cell)`: pandas reads an empty cell as NaN, whose string form is "nan". */
  function CellText(cell: Option<string>): string
  {
    match cell
    case None => "nan"
    case Some(t) => t
  }

  /** `[u for u in urls if u]`: the pieces that are not empty, in order. */
  function NonEmpty(urls: seq<string>): (r: seq<string>)
    ensures |r| <= |urls|
    decreases |urls|
  {
    if urls == [] then []
    else
      var last := urls[|urls| - 1];
      if last != [] then NonEmpty(urls[..|urls| - 1]) + [last] else NonEmpty(urls[..|urls| - 1])
  }

  /** The filter keeps exactly the non-empty pieces, and keeps all of them only when none is empty. */
  lemma {:induction false} NonEmptyKeeps(urls: seq<string>)
    ensures forall u :: u in NonEmpty(urls) <==> u in urls && u != []
    ensures |NonEmpty(urls)| == |urls| <==> forall i :: 0 <= i < |urls| ==> urls[i] != []
    decreases |urls|
  {
    if urls != [] {
      var prefix := urls[..|urls| - 1];
      var last := urls[|urls| - 1];
      NonEmptyKeeps(prefix);
      assert urls == prefix + [last];
      assert forall i :: 0 <= i < |prefix| ==> prefix[i] == urls[i];
    }
  }

  /**
   * The filter distributes over concatenation and keeps a single piece exactly
   * when it is not empty: it drops the empty pieces and keeps every other one,
   * in order and as often as it occurs.
   */
  lemma {:induction false} NonEmptyAppend(a: seq<string>, b: seq<string>)
    ensures NonEmpty(a + b) == NonEmpty(a) + NonEmpty(b)
    ensures forall u :: NonEmpty([u]) == if u != [] then [u] else []
    decreases |b|
  {
    if b != [] {
      var init := b[..|b| - 1];
      NonEmptyAppend(a, init);
      assert a + b == (a + init) + [b[|b| - 1]];
      assert (a + b)[..|a + b| - 1] == a + init;
    } else {
      assert a + b == a;
    }
    NonEmptyOne();
  }

  /** A single piece is kept exactly when it is not empty. */
  lemma NonEmptyOne()
    ensures forall u :: NonEmpty([u]) == if u != [] then [u] else []
  {
    forall u ensures NonEmpty([u]) == if u != [] then [u] else [] {
      assert [u][..0] == [];
    }
  }

  /** The filter over one more piece. */
  lemma NonEmptySnoc(urls: seq<string>, j: nat)
    requires j < |urls|
    ensures NonEmpty(urls[..j + 1]) == if urls[j] != [] then NonEmpty(urls[..j]) + [urls[j]] else NonEmpty(urls[..j])
  {
    assert urls[..j + 1][..j] == urls[..j];
  }

  /** One `pending` image with no output per locator, with consecutive added ids. */
  function PendingImages(pid: ProductId, urls: seq<string>, firstId: ImageId): (imgs: seq<Image>)
    ensures |imgs| == |urls|
    ensures forall k :: 0 <= k < |urls| ==> imgs[k] == Image(firstId + k, pid, urls[k], None, ImageStatus.Pending)
  {
    seq(|urls|, k requires 0 <= k < |urls| => Image(firstId + k, pid, urls[k], None, ImageStatus.Pending))
  }

  lemma PendingInputs(pid: ProductId, urls: seq<string>, firstId: ImageId)
    ensures InputUrls(PendingImages(pid, urls, firstId)) == urls
  {
  }

  /** The range of an SQLite INTEGER: binding a Python int outside it raises `OverflowError`. */
  const IntegerMin: int := -0x8000_0000_0000_0000
  const IntegerMax: int := 0x7FFF_FFFF_FFFF_FFFF

  /** `int(S. No.)` succeeds and the `serial_number` column can hold the result. */
  predicate SerialFits(row: Row, parse: IntParser) {
    && row.serialNo.Some?
    && IntOf(parse, row.serialNo.value).Some?
    && IntegerMin <= IntOf(parse, row.serialNo.value).value <= IntegerMax
  }

  /**
   * Whether a row can be stored: its serial must parse and fit the INTEGER
   * column, and the name column is NOT NULL, so a NaN name fails the insert
   * (SQLite stores a NaN as NULL).
   */
  predicate Storable(row: Row, parse: IntParser) {
    SerialFits(row, parse) && row.productName.Some?
  }

  /** The images a row yields: one per trimmed piece of its locator cell that is not empty. */
  function RowUrls(row: Row): seq<string>
  {
    NonEmpty(ImageUrls(CellText(row.inputImageUrls)))
  }

  /** The locators of every row, as `RowUrls` computes them. */
  function RowUrlsOf(rows: seq<Row>): (urls: seq<seq<string>>)
    ensures |urls| == |rows|
  {
    seq(|rows|, k requires 0 <= k < |rows| => RowUrls(rows[k]))
  }

  /** Locators that can be stored: non-empty and free of commas. */
  predicate StorableUrls(urls: seq<seq<string>>) {
    forall k, j :: 0 <= k < |urls| && 0 <= j < |urls[k]| ==> urls[k][j] != [] && ',' !in urls[k][j]
  }

  lemma RowUrlsStorable(rows: seq<Row>)
    ensures StorableUrls(RowUrlsOf(rows))
  {
    forall k, j | 0 <= k < |rows| && 0 <= j < |RowUrls(rows[k])|
      ensures RowUrls(rows[k])[j] != [] && ',' !in RowUrls(rows[k])[j]
    {
      var urls := RowUrls(rows[k]);
      var pieces := ImageUrls(CellText(rows[k].inputImageUrls));
      ImageUrlsPieces(CellText(rows[k].inputImageUrls));
      NonEmptyKeeps(pieces);
      assert urls[j] in NonEmpty(pieces);
      var i :| 0 <= i < |pieces| && pieces[i] == urls[j];
    }
  }

  datatype Batch = Batch(products: seq<Product>, images: seq<Image>)

  /**
   * What `process_csv_to_db` has added to the session after the first `count`
   * rows, when row k has the image locators `urls[k]`: product k gets id
   * `firstPid + k` and images are numbered from `firstIid` in creation order.
   * None once some row has raised.
   */
  function Assemble(rid: RequestId, rows: seq<Row>, parse: IntParser, urls: seq<seq<string>>, firstPid: ProductId, firstIid: ImageId, count: nat): Option<Batch>
    requires count <= |rows| == |urls|
    decreases count
  {
    if count == 0 then Some(Batch([], []))
    else
      var row := rows[count - 1];
      match Assemble(rid, rows, parse, urls, firstPid, firstIid, count - 1)
      case None => None
      case Some(prev) =>
        if !Storable(row, parse) then None
        else
          var p := Product(firstPid + count - 1, rid, IntOf(parse, row.serialNo.value).value, row.productName.value);
          Some(Batch(prev.products + [p], prev.images + PendingImages(p.id, urls[count - 1], firstIid + |prev.images|)))
  }

  /** The session contents for the given rows. */
  function Decompose(rid: RequestId, rows: seq<Row>, parse: IntParser, firstPid: ProductId, firstIid: ImageId): Option<Batch>
  {
    Assemble(rid, rows, parse, RowUrlsOf(rows), firstPid, firstIid, |rows|)
  }

  /** The whole file: unreadable, or a missing column met at the first row (a KeyError), raises. */
  function DecomposeFile(rid: RequestId, file: CsvFile, parse: IntParser, firstPid: ProductId, firstIid: ImageId): Option<Batch>
  {
    match file
    case Unreadable(_) => None
    case Parsed(table) =>
      if table.rows != [] && Missing(RequiredColumns, table.columns) != [] then None
      else Decompose(rid, table.rows, parse, firstPid, firstIid)
  }

  lemma {:induction false} AssembleSucceeds(rid: RequestId, rows: seq<Row>, parse: IntParser, urls: seq<seq<string>>, firstPid: ProductId, firstIid: ImageId, count: nat)
    requires count <= |rows| == |urls|
    ensures Assemble(rid, rows, parse, urls, firstPid, firstIid, count).Some? <==> forall k :: 0 <= k < count ==> Storable(rows[k], parse)
  {
    if count > 0 {
      AssembleSucceeds(rid, rows, parse, urls, firstPid, firstIid, count - 1);
    }
  }

  /** Decomposition succeeds exactly when every row can be stored. */
  lemma DecomposeSucceeds(rid: RequestId, rows: seq<Row>, parse: IntParser, firstPid: ProductId, firstIid: ImageId)
    ensures Decompose(rid, rows, parse, firstPid, firstIid).Some? <==> forall k :: 0 <= k < |rows| ==> Storable(rows[k], parse)
  {
    AssembleSucceeds(rid, rows, parse, RowUrlsOf(rows), firstPid, firstIid, |rows|);
  }

  lemma {:induction false} AssembleProducts(rid: RequestId, rows: seq<Row>, parse: IntParser, urls: seq<seq<string>>, firstPid: ProductId, firstIid: ImageId, count: nat)
    requires count <= |rows| == |urls|
    requires Assemble(rid, rows, parse, urls, firstPid, firstIid, count).Some?
    ensures var b := Assemble(rid, rows, parse, urls, firstPid, firstIid, count).value;
      && |b.products| == count
      && forall k :: 0 <= k < count ==>
           && Storable(rows[k], parse)
           && b.products[k] == Product(firstPid + k, rid, IntOf(parse, rows[k].serialNo.value).value, rows[k].productName.value)
  {
    if count > 0 {
      AssembleProducts(rid, rows, parse, urls, firstPid, firstIid, count - 1);
    }
  }

  /**
   * One product per row, in input order: product k is row k's, its serial is
   * `int(S. No.)` and its name is copied verbatim (equal serials are all kept).
   */
  lemma DecomposeProducts(rid: RequestId, rows: seq<Row>, parse: IntParser, firstPid: ProductId, firstIid: ImageId)
    requires Decompose(rid, rows, parse, firstPid, firstIid).Some?
    ensures var b := Decompose(rid, rows, parse, firstPid, firstIid).value;
      && |b.products| == |rows|
      && forall k :: 0 <= k < |rows| ==>
           && Storable(rows[k], parse)
           && b.products[k] == Product(firstPid + k, rid, IntOf(parse, rows[k].serialNo.value).value, rows[k].productName.value)
  {
    AssembleProducts(rid, rows, parse, RowUrlsOf(rows), firstPid, firstIid, |rows|);
  }

  /** The images of a batch: consecutive fresh ids, `pending`, no output, owned by one of the batch's products. */
  predicate FreshPendingImages(images: seq<Image>, firstPid: ProductId, count: nat, firstIid: ImageId) {
    forall j :: 0 <= j < |images| ==>
      && images[j].id == firstIid + j
      && images[j].status == ImageStatus.Pending
      && images[j].outputUrl == None
      && firstPid <= images[j].productId < firstPid + count
      && WellFormedImage(images[j])
  }

  /** The last step of `Assemble`, spelled out for the images. */
  lemma AssembleLast(rid: RequestId, rows: seq<Row>, parse: IntParser, urls: seq<seq<string>>, firstPid: ProductId, firstIid: ImageId, count: nat)
      returns (images: seq<Image>, prev: seq<Image>)
    requires 0 < count <= |rows| == |urls|
    requires Assemble(rid, rows, parse, urls, firstPid, firstIid, count).Some?
    ensures Assemble(rid, rows, parse, urls, firstPid, firstIid, count - 1).Some?
    ensures images == Assemble(rid, rows, parse, urls, firstPid, firstIid, count).value.images
    ensures prev == Assemble(rid, rows, parse, urls, firstPid, firstIid, count - 1).value.images
    ensures images == prev + PendingImages(firstPid + count - 1, urls[count - 1], firstIid + |prev|)
  {
    images := Assemble(rid, rows, parse, urls, firstPid, firstIid, count).value.images;
    prev := Assemble(rid, rows, parse, urls, firstPid, firstIid, count - 1).value.images;
  }

  lemma {:induction false} AssembleFresh(rid: RequestId, rows: seq<Row>, parse: IntParser, urls: seq<seq<string>>, firstPid: ProductId, firstIid: ImageId, count: nat)
    requires count <= |rows| == |urls| && StorableUrls(urls)
    requires Assemble(rid, rows, parse, urls, firstPid, firstIid, count).Some?
    ensures FreshPendingImages(Assemble(rid, rows, parse, urls, firstPid, firstIid, count).value.images, firstPid, count, firstIid)
  {
    if count > 0 {
      var images, prev := AssembleLast(rid, rows, parse, urls, firstPid, firstIid, count);
      AssembleFresh(rid, rows, parse, urls, firstPid, firstIid, count - 1);
      var added := PendingImages(firstPid + count - 1, urls[count - 1], firstIid + |prev|);
      forall j | 0 <= j < |images|
        ensures images[j].id == firstIid + j && images[j].status == ImageStatus.Pending && images[j].outputUrl == None
        ensures firstPid <= images[j].productId < firstPid + count && WellFormedImage(images[j])
      {
        if j < |prev| {
          assert images[j] == prev[j];
        } else {
          assert images[j] == added[j - |prev|];
        }
      }
    }
  }

  /** Every image a decomposition creates belongs to one of its products. */
  lemma {:induction false} AssembleOwners(rid: RequestId, rows: seq<Row>, parse: IntParser, urls: seq<seq<string>>, firstPid: ProductId, firstIid: ImageId, count: nat)
    requires count <= |rows| == |urls|
    requires Assemble(rid, rows, parse, urls, firstPid, firstIid, count).Some?
    ensures var images := Assemble(rid, rows, parse, urls, firstPid, firstIid, count).value.images;
      forall j :: 0 <= j < |images| ==> firstPid <= images[j].productId < firstPid + count
  {
    if count > 0 {
      var images, prev := AssembleLast(rid, rows, parse, urls, firstPid, firstIid, count);
      AssembleOwners(rid, rows, parse, urls, firstPid, firstIid, count - 1);
    }
  }

  lemma ImagesOfProductAppend(a: seq<Image>, b: seq<Image>, pid: ProductId)
    ensures ImagesOfProduct(a + b, pid) == ImagesOfProduct(a, pid) + ImagesOfProduct(b, pid)
    decreases |b|
  {
    if b == [] {
      assert a + b == a;
    } else {
      var b' := b[..|b| - 1];
      assert (a + b)[..|a + b| - 1] == a + b';
      ImagesOfProductAppend(a, b', pid);
    }
  }

  lemma {:induction false} ImagesOfOtherProduct(imgs: seq<Image>, pid: ProductId)
    requires forall j :: 0 <= j < |imgs| ==> imgs[j].productId != pid
    ensures ImagesOfProduct(imgs, pid) == []
  {
    if imgs != [] {
      ImagesOfOtherProduct(imgs[..|imgs| - 1], pid);
    }
  }

  lemma {:induction false} ImagesOfOnlyProduct(imgs: seq<Image>, pid: ProductId)
    requires forall j :: 0 <= j < |imgs| ==> imgs[j].productId == pid
    ensures ImagesOfProduct(imgs, pid) == imgs
  {
    if imgs != [] {
      ImagesOfOnlyProduct(imgs[..|imgs| - 1], pid);
    }
  }

  /** Appending images of a new product leaves the images of an earlier one alone. */
  lemma ImagesOfEarlierProduct(images: seq<Image>, prev: seq<Image>, added: seq<Image>, pid: ProductId, newPid: ProductId)
    requires images == prev + added && pid != newPid
    requires forall j :: 0 <= j < |added| ==> added[j].productId == newPid
    ensures ImagesOfProduct(images, pid) == ImagesOfProduct(prev, pid)
  {
    ImagesOfProductAppend(prev, added, pid);
    ImagesOfOtherProduct(added, pid);
    assert ImagesOfProduct(prev, pid) + [] == ImagesOfProduct(prev, pid);
  }

  /** The images of a product that is new to the list are exactly those appended for it. */
  lemma ImagesOfNewProduct(images: seq<Image>, prev: seq<Image>, added: seq<Image>, newPid: ProductId)
    requires images == prev + added
    requires forall j :: 0 <= j < |prev| ==> prev[j].productId != newPid
    requires forall j :: 0 <= j < |added| ==> added[j].productId == newPid
    ensures ImagesOfProduct(images, newPid) == added
  {
    ImagesOfProductAppend(prev, added, newPid);
    ImagesOfOtherProduct(prev, newPid);
    ImagesOfOnlyProduct(added, newPid);
    assert [] + added == added;
  }

  /** The images of product `firstPid + k` carry the locators `urls[k]`, for each of the first `count` rows. */
  predicate GroupedInputs(images: seq<Image>, firstPid: ProductId, urls: seq<seq<string>>, count: nat)
    requires count <= |urls|
  {
    forall k :: 0 <= k < count ==> InputUrls(ImagesOfProduct(images, firstPid + k)) == urls[k]
  }

  /** Appending the images of row `count - 1` keeps the earlier groups and adds its own. */
  lemma GroupedStep(images: seq<Image>, prev: seq<Image>, firstPid: ProductId, urls: seq<seq<string>>, count: nat, firstId: ImageId)
    requires 0 < count <= |urls|
    requires images == prev + PendingImages(firstPid + count - 1, urls[count - 1], firstId)
    requires forall j :: 0 <= j < |prev| ==> firstPid <= prev[j].productId < firstPid + count - 1
    requires GroupedInputs(prev, firstPid, urls, count - 1)
    ensures GroupedInputs(images, firstPid, urls, count)
  {
    var added := PendingImages(firstPid + count - 1, urls[count - 1], firstId);
    forall k | 0 <= k < count ensures InputUrls(ImagesOfProduct(images, firstPid + k)) == urls[k] {
      if k < count - 1 {
        ImagesOfEarlierProduct(images, prev, added, firstPid + k, firstPid + count - 1);
      } else {
        ImagesOfNewProduct(images, prev, added, firstPid + count - 1);
        PendingInputs(firstPid + count - 1, urls[count - 1], firstId);
      }
    }
  }

  lemma {:induction false} AssembleInputs(rid: RequestId, rows: seq<Row>, parse: IntParser, urls: seq<seq<string>>, firstPid: ProductId, firstIid: ImageId, count: nat)
    requires count <= |rows| == |urls|
    requires Assemble(rid, rows, parse, urls, firstPid, firstIid, count).Some?
    ensures GroupedInputs(Assemble(rid, rows, parse, urls, firstPid, firstIid, count).value.images, firstPid, urls, count)
  {
    if count > 0 {
      var images, prev := AssembleLast(rid, rows, parse, urls, firstPid, firstIid, count);
      AssembleOwners(rid, rows, parse, urls, firstPid, firstIid, count - 1);
      AssembleInputs(rid, rows, parse, urls, firstPid, firstIid, count - 1);
      GroupedStep(images, prev, firstPid, urls, count, firstIid + |prev|);
    }
  }

  /**
   * The images of a successful decomposition: each is `pending` with no output,
   * and the images of product k are, in split order, the trimmed non-empty
   * pieces of row k's locator cell (`RowUrls`, whose filter `NonEmptyAppend`
   * characterises).
   */
  lemma DecomposeImages(rid: RequestId, rows: seq<Row>, parse: IntParser, firstPid: ProductId, firstIid: ImageId)
    requires Decompose(rid, rows, parse, firstPid, firstIid).Some?
    ensures var b := Decompose(rid, rows, parse, firstPid, firstIid).value;
      && FreshPendingImages(b.images, firstPid, |rows|, firstIid)
      && forall k :: 0 <= k < |rows| ==> InputUrls(ImagesOfProduct(b.images, firstPid + k)) == RowUrls(rows[k])
  {
    RowUrlsStorable(rows);
    AssembleFresh(rid, rows, parse, RowUrlsOf(rows), firstPid, firstIid, |rows|);
    AssembleInputs(rid, rows, parse, RowUrlsOf(rows), firstPid, firstIid, |rows|);
    var images := Decompose(rid, rows, parse, firstPid, firstIid).value.images;
    forall k | 0 <= k < |rows| ensures InputUrls(ImagesOfProduct(images, firstPid + k)) == RowUrls(rows[k]) {
      assert InputUrls(ImagesOfProduct(images, firstPid + k)) == RowUrlsOf(rows)[k];
    }
  }

  /**
   * On a table validation admits, a row raises at the insert exactly when its
   * serial does not fit the INTEGER column: validation checks that `int()`
   * succeeds, never how large the result is.
   */
  lemma AdmittedRowsAreStorable(rows: seq<Row>, parse: IntParser)
    requires RowErrors(rows, parse) == []
    ensures forall k :: 0 <= k < |rows| ==> rows[k].serialNo.Some? && IntOf(parse, rows[k].serialNo.value).Some?
    ensures forall k :: 0 <= k < |rows| ==> (Storable(rows[k], parse) <==> SerialFits(rows[k], parse))
  {
    forall k | 0 <= k < |rows| ensures CheckRow(rows[k], parse).Accepted? {
      if CheckRow(rows[k], parse).Rejected? {
        RejectedRowsReported(rows, parse, k);
      }
    }
  }

  /** The sum of the first `count` numbers. */
  function Sum(xs: seq<nat>, count: nat): nat
    requires count <= |xs|
  {
    if count == 0 then 0 else Sum(xs, count - 1) + xs[count - 1]
  }

  /** Term by term no larger gives a sum no larger, and an equal sum only when every term is equal. */
  lemma {:induction false} SumCompare(small: seq<nat>, large: seq<nat>, count: nat)
    requires count <= |small| == |large|
    requires forall k :: 0 <= k < count ==> small[k] <= large[k]
    ensures Sum(small, count) <= Sum(large, count)
    ensures Sum(small, count) == Sum(large, count) <==> forall k :: 0 <= k < count ==> small[k] == large[k]
  {
    if count > 0 {
      SumCompare(small, large, count - 1);
    }
  }

  /** The length of each list. */
  function LengthsOf(urls: seq<seq<string>>): (counts: seq<nat>)
    ensures |counts| == |urls|
  {
    seq(|urls|, k requires 0 <= k < |urls| => |urls[k]|)
  }

  /** How many comma pieces each row's locator cell has. */
  function PieceCounts(rows: seq<Row>): (counts: seq<nat>)
    ensures |counts| == |rows|
  {
    seq(|rows|, k requires 0 <= k < |rows| => |Split(CellText(rows[k].inputImageUrls), ',')|)
  }

  lemma {:induction false} AssembleCount(rid: RequestId, rows: seq<Row>, parse: IntParser, urls: seq<seq<string>>, firstPid: ProductId, firstIid: ImageId, count: nat)
    requires count <= |rows| == |urls|
    requires Assemble(rid, rows, parse, urls, firstPid, firstIid, count).Some?
    ensures |Assemble(rid, rows, parse, urls, firstPid, firstIid, count).value.images| == Sum(LengthsOf(urls), count)
  {
    if count > 0 {
      var images, prev := AssembleLast(rid, rows, parse, urls, firstPid, firstIid, count);
      AssembleCount(rid, rows, parse, urls, firstPid, firstIid, count - 1);
    }
  }

  /** One row: the kept locators against its comma pieces. */
  lemma RowUrlsCounted(row: Row)
    ensures |RowUrls(row)| <= |Split(CellText(row.inputImageUrls), ',')|
    ensures |RowUrls(row)| == |Split(CellText(row.inputImageUrls), ',')| <==>
      forall i :: 0 <= i < |Split(CellText(row.inputImageUrls), ',')| ==> Strip(Split(CellText(row.inputImageUrls), ',')[i]) != []
  {
    var pieces := ImageUrls(CellText(row.inputImageUrls));
    ImageUrlsPieces(CellText(row.inputImageUrls));
    NonEmptyKeeps(pieces);
    assert |RowUrls(row)| == |pieces| <==> forall i :: 0 <= i < |pieces| ==> pieces[i] != [];
  }

  /** Whether no comma piece of the row's locator cell is blank after stripping. */
  predicate NoBlankPiece(row: Row) {
    forall i :: 0 <= i < |Split(CellText(row.inputImageUrls), ',')| ==> Strip(Split(CellText(row.inputImageUrls), ',')[i]) != []
  }

  lemma {:induction false} TotalImagesPieces(rows: seq<Row>, parse: IntParser, count: nat)
    requires count <= |rows|
    requires forall k :: 0 <= k < count ==> CheckRow(rows[k], parse).Accepted?
    ensures TotalImages(rows[..count], parse) == Sum(PieceCounts(rows), count)
  {
    if count > 0 {
      TotalImagesPieces(rows, parse, count - 1);
      assert rows[..count][..count - 1] == rows[..count - 1];
      assert ImagesOf(CheckRow(rows[count - 1], parse)) == PieceCounts(rows)[count - 1];
    }
  }

  /**
   * Validation counts every comma piece, decomposition skips the empty ones: on
   * an admitted table that decomposes, the images created never exceed
   * `total_images`, and match it exactly when no piece is empty after trimming.
   */
  lemma ImagesVersusTotal(rid: RequestId, rows: seq<Row>, parse: IntParser, firstPid: ProductId, firstIid: ImageId)
    requires RowErrors(rows, parse) == []
    requires Decompose(rid, rows, parse, firstPid, firstIid).Some?
    ensures |Decompose(rid, rows, parse, firstPid, firstIid).value.images| <= TotalImages(rows, parse)
    ensures |Decompose(rid, rows, parse, firstPid, firstIid).value.images| == TotalImages(rows, parse) <==>
      forall k :: 0 <= k < |rows| ==> NoBlankPiece(rows[k])
  {
    AssembleCount(rid, rows, parse, RowUrlsOf(rows), firstPid, firstIid, |rows|);
    forall k | 0 <= k < |rows| ensures CheckRow(rows[k], parse).Accepted? {
      if CheckRow(rows[k], parse).Rejected? {
        RejectedRowsReported(rows, parse, k);
      }
    }
    TotalImagesPieces(rows, parse, |rows|);
    assert rows[..|rows|] == rows;
    var kept := LengthsOf(RowUrlsOf(rows));
    var pieces := PieceCounts(rows);
    forall k | 0 <= k < |rows| ensures kept[k] <= pieces[k] && (kept[k] == pieces[k] <==> NoBlankPiece(rows[k])) {
      assert kept[k] == |RowUrls(rows[k])|;
      RowUrlsCounted(rows[k]);
    }
    SumCompare(kept, pieces, |rows|);
  }

  // ---------------------------------------------------------------------------
  // Storing the batch
  // ---------------------------------------------------------------------------

  lemma PendingImagesSnoc(pid: ProductId, urls: seq<string>, url: string, firstId: ImageId)
    ensures PendingImages(pid, urls + [url], firstId) ==
      PendingImages(pid, urls, firstId) + [Image(firstId + |urls|, pid, url, None, ImageStatus.Pending)]
  {
  }

  lemma NumberedProductFound(products: seq<Product>, first: ProductId, pid: ProductId)
    requires forall k :: 0 <= k < |products| ==> products[k].id == first + k
    requires first <= pid < first + |products|
    ensures FindProduct(products, pid).Some?
  {
    assert products[pid - first].id == pid;
  }

  lemma ProductIdsAppend(products: seq<Product>, next: ProductId, added: seq<Product>)
    requires ProductIdsFresh(products, next)
    requires forall k :: 0 <= k < |added| ==> added[k].id == next + k
    ensures ProductIdsFresh(products + added, next + |added|)
  {
  }

  lemma ImageIdsAppend(images: seq<Image>, next: ImageId, added: seq<Image>)
    requires ImageIdsFresh(images, next)
    requires forall k :: 0 <= k < |added| ==> added[k].id == next + k
    ensures ImageIdsFresh(images + added, next + |added|)
  {
  }

  lemma ImagesAttachedAppend(products: seq<Product>, images: seq<Image>, addedProducts: seq<Product>, addedImages: seq<Image>, next: ProductId)
    requires ImagesAttached(products, images)
    requires forall k :: 0 <= k < |addedProducts| ==> addedProducts[k].id == next + k
    requires forall j :: 0 <= j < |addedImages| ==>
      WellFormedImage(addedImages[j]) && next <= addedImages[j].productId < next + |addedProducts|
    ensures ImagesAttached(products + addedProducts, images + addedImages)
  {
    var ps := products + addedProducts;
    var imgs := images + addedImages;
    forall i | 0 <= i < |imgs| ensures WellFormedImage(imgs[i]) && FindProduct(ps, imgs[i].productId).Some? {
      FindProductAppend(products, addedProducts, imgs[i].productId);
      if i >= |images| {
        assert imgs[i] == addedImages[i - |images|];
        NumberedProductFound(addedProducts, next, imgs[i].productId);
      }
    }
  }

  /**
   * Committing a decomposed batch keeps the store's invariant: the new ids are
   * above every stored one, and every new image refers to a new product.
   */
  lemma CommitKeepsValid(requests: map<RequestId, Request>, products: seq<Product>, images: seq<Image>,
                         nextPid: ProductId, nextIid: ImageId, rid: RequestId, rows: seq<Row>, parse: IntParser, b: Batch)
    requires StoreValid(requests, products, images, nextPid, nextIid)
    requires Decompose(rid, rows, parse, nextPid, nextIid) == Some(b)
    ensures |b.products| == |rows|
    ensures StoreValid(requests, products + b.products, images + b.images, nextPid + |b.products|, nextIid + |b.images|)
  {
    DecomposeProducts(rid, rows, parse, nextPid, nextIid);
    RowUrlsStorable(rows);
    AssembleFresh(rid, rows, parse, RowUrlsOf(rows), nextPid, nextIid, |rows|);
    ProductIdsAppend(products, nextPid, b.products);
    ImageIdsAppend(images, nextIid, b.images);
    ImagesAttachedAppend(products, images, b.products, b.images, nextPid);
  }

  /** One more stored row: its product, then its pending images. */
  lemma AssembleStep(rid: RequestId, rows: seq<Row>, parse: IntParser, urls: seq<seq<string>>, firstPid: ProductId, firstIid: ImageId, i: nat, b: Batch)
    requires i < |rows| == |urls|
    requires Assemble(rid, rows, parse, urls, firstPid, firstIid, i) == Some(b)
    requires Storable(rows[i], parse)
    ensures Assemble(rid, rows, parse, urls, firstPid, firstIid, i + 1) == Some(Batch(
      b.products + [Product(firstPid + i, rid, IntOf(parse, rows[i].serialNo.value).value, rows[i].productName.value)],
      b.images + PendingImages(firstPid + i, urls[i], firstIid + |b.images|)))
  {
  }

  /** The session after row i, as the loop of `process_csv_to_db` builds it. */
  lemma RowStored(rid: RequestId, rows: seq<Row>, parse: IntParser, urls: seq<seq<string>>, firstPid: ProductId, firstIid: ImageId, i: nat,
                  b: Batch, product: Product, pieces: seq<string>, before: seq<Image>, firstId: ImageId, images: seq<Image>)
    requires i < |rows| == |urls| && urls[i] == NonEmpty(pieces)
    requires Assemble(rid, rows, parse, urls, firstPid, firstIid, i) == Some(b)
    requires Storable(rows[i], parse)
    requires product == Product(firstPid + i, rid, IntOf(parse, rows[i].serialNo.value).value, rows[i].productName.value)
    requires before == b.images && firstId == firstIid + |b.images|
    requires images == before + PendingImages(product.id, NonEmpty(pieces), firstId)
    ensures Assemble(rid, rows, parse, urls, firstPid, firstIid, i + 1) == Some(Batch(b.products + [product], images))
  {
    AssembleStep(rid, rows, parse, urls, firstPid, firstIid, i, b);
  }

  /** `RowStored` for the locators of the rows themselves. */
  lemma RowStoredOf(rid: RequestId, rows: seq<Row>, parse: IntParser, firstPid: ProductId, firstIid: ImageId, i: nat,
                    b: Batch, product: Product, pieces: seq<string>, before: seq<Image>, firstId: ImageId, images: seq<Image>)
    requires i < |rows|
    requires Assemble(rid, rows, parse, RowUrlsOf(rows), firstPid, firstIid, i) == Some(b)
    requires Storable(rows[i], parse)
    requires product == Product(firstPid + i, rid, IntOf(parse, rows[i].serialNo.value).value, rows[i].productName.value)
    requires pieces == ImageUrls(CellText(rows[i].inputImageUrls))
    requires before == b.images && firstId == firstIid + |b.images|
    requires images == before + PendingImages(product.id, NonEmpty(pieces), firstId)
    ensures Assemble(rid, rows, parse, RowUrlsOf(rows), firstPid, firstIid, i + 1) == Some(Batch(b.products + [product], images))
  {
    var urls := RowUrlsOf(rows);
    assert urls[i] == NonEmpty(pieces);
    RowStored(rid, rows, parse, urls, firstPid, firstIid, i, b, product, pieces, before, firstId, images);
  }

  /** The image list after one more piece has been looked at. */
  lemma KeepPiece(before: seq<Image>, images: seq<Image>, pid: ProductId, pieces: seq<string>, j: nat, firstId: ImageId)
    requires j < |pieces|
    requires images == before + PendingImages(pid, NonEmpty(pieces[..j]), firstId)
    ensures (if pieces[j] != [] then images + [Image(firstId + |NonEmpty(pieces[..j])|, pid, pieces[j], None, ImageStatus.Pending)] else images)
      == before + PendingImages(pid, NonEmpty(pieces[..j + 1]), firstId)
  {
    NonEmptySnoc(pieces, j);
    if pieces[j] != [] {
      PendingImagesSnoc(pid, NonEmpty(pieces[..j]), pieces[j], firstId);
    }
  }

  /**
   * The inner loop of `process_csv_to_db`: one `pending` image for every
   * trimmed piece that is not empty, numbered from `firstId` on.
   */
  method StageImages(pid: ProductId, pieces: seq<string>, before: seq<Image>, firstId: ImageId) returns (images: seq<Image>, nextId: ImageId)
    ensures images == before + PendingImages(pid, NonEmpty(pieces), firstId)
    ensures nextId == firstId + |NonEmpty(pieces)|
  {
    images := before;
    nextId := firstId;
    for j := 0 to |pieces|
      invariant images == before + PendingImages(pid, NonEmpty(pieces[..j]), firstId)
      invariant nextId == firstId + |NonEmpty(pieces[..j])|
    {
      KeepPiece(before, images, pid, pieces, j, firstId);
      if pieces[j] != [] {
        images := images + [Image(nextId, pid, pieces[j], None, ImageStatus.Pending)];
        nextId := nextId + 1;
      }
    }
    assert pieces[..|pieces|] == pieces;
  }

  /**
   * The loop of `process_csv_to_db` over the rows of a readable file: the
   * products and images the session accumulates, numbered from the store's
   * counters, or `None` once a row that cannot be stored raises.
   */
  method StageRows(rid: RequestId, rows: seq<Row>, parse: IntParser, firstPid: ProductId, firstIid: ImageId) returns (staged: Option<Batch>)
    ensures staged == Decompose(rid, rows, parse, firstPid, firstIid)
  {
    var products: seq<Product> := [];
    var images: seq<Image> := [];
    var pid, iid := firstPid, firstIid;
    for i := 0 to |rows|
      invariant Assemble(rid, rows, parse, RowUrlsOf(rows), firstPid, firstIid, i) == Some(Batch(products, images))
      invariant pid == firstPid + i && iid == firstIid + |images|
    {
      var row := rows[i];
      if row.serialNo.None? || IntOf(parse, row.serialNo.value).None? || row.productName.None?
        || !(IntegerMin <= IntOf(parse, row.serialNo.value).value <= IntegerMax)
      {
        AssembleSucceeds(rid, rows, parse, RowUrlsOf(rows), firstPid, firstIid, |rows|);
        return None;
      }
      ghost var prev, before, firstId := Batch(products, images), images, iid;
      var product := Product(pid, rid, IntOf(parse, row.serialNo.value).value, row.productName.value);
      var pieces := ImageUrls(CellText(row.inputImageUrls));
      products := products + [product];
      pid := pid + 1;
      images, iid := StageImages(product.id, pieces, images, iid);
      RowStoredOf(rid, rows, parse, firstPid, firstIid, i, prev, product, pieces, before, firstId, images);
    }
    return Some(Batch(products, images));
  }

  /**
   * `process_csv_to_db`. Rows are read in order; each adds its product, then one
   * pending image per non-empty trimmed locator. An unreadable file, a missing
   * column, a serial `int(...)` refuses or the INTEGER column cannot hold, or a
   * NaN name raises, and the session is rolled back: the store is left as it
   * was. Otherwise the batch is committed.
   */
  method ProcessCsvToDb(db: Store, rid: RequestId, file: CsvFile, parse: IntParser) returns (ok: bool)
    requires db.Valid()
    modifies db
    ensures db.Valid()
    ensures ok <==> DecomposeFile(rid, file, parse, old(db.nextProductId), old(db.nextImageId)).Some?
    ensures ok ==>
      && db.products == old(db.products) + DecomposeFile(rid, file, parse, old(db.nextProductId), old(db.nextImageId)).value.products
      && db.images == old(db.images) + DecomposeFile(rid, file, parse, old(db.nextProductId), old(db.nextImageId)).value.images
      && db.nextProductId == old(db.nextProductId) + |DecomposeFile(rid, file, parse, old(db.nextProductId), old(db.nextImageId)).value.products|
      && db.nextImageId == old(db.nextImageId) + |DecomposeFile(rid, file, parse, old(db.nextProductId), old(db.nextImageId)).value.images|
    ensures !ok ==>
      && db.products == old(db.products) && db.images == old(db.images)
      && db.nextProductId == old(db.nextProductId) && db.nextImageId == old(db.nextImageId)
    ensures db.requests == old(db.requests) && db.queue == old(db.queue)
  {
    if file.Unreadable? {
      return false;
    }
    var rows := file.table.rows;
    if rows != [] && Missing(RequiredColumns, file.table.columns) != [] {
      return false;
    }
    var staged := StageRows(rid, rows, parse, db.nextProductId, db.nextImageId);
    if staged.None? {
      return false;
    }
    var batch := staged.value;
    CommitKeepsValid(db.requests, db.products, db.images, db.nextProductId, db.nextImageId, rid, rows, parse, batch);
    db.products := db.products + batch.products;
    db.images := db.images + batch.images;
    db.nextProductId := db.nextProductId + |batch.products|;
    db.nextImageId := db.nextImageId + |batch.images|;
    return true;
  }

}
