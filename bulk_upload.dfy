/** `uploadProducts` of api/controllers/productBulkController.js: every CSV row is
    checked in turn, failures are collected with their row numbers, and only a file
    without a failing row is handed to `Product.insertMany`. */
module BulkUpload {
  import opened Common
  import opened Text
  import opened Tables
  import opened Schemas
  import opened Store

  /** A numeric cell after `parseFloat`: a falsy (absent or empty) cell, a number,
      or `NaN`. */
  datatype NumberCell<T> = Missing | Parsed(value: T) | NotANumber

  /** One parsed CSV row, its keys being the trimmed, lower-cased headers. */
  datatype CsvRow = CsvRow(
    name: Option<string>,
    barcode: Option<string>,
    category: Option<string>,
    description: Option<string>,
    price: NumberCell<real>,
    purchaseprice: NumberCell<real>,
    stock: NumberCell<int>,
    unit: Option<string>,
    minstock: NumberCell<int>,
    isactive: Option<string>,
    imageurl: Option<string>)

  /** What the row handler makes of one row: a document pushed onto `results`, or the
      reason pushed onto `errors`. */
  datatype Checked = Accepted(doc: ProductDoc) | Rejected(problem: RowProblem)

  /* ----------------------------------------------------------- row checks */

  /** `if (row.category)` and the `Category.findOne` that must then succeed. */
  predicate CategoryKnown(cats: Table<Category>, row: CsvRow) {
    Blank(row.category) || FindCategoryByName(cats, row.category.value).Some?
  }

  /** `row.name`, `row.price`, `row.purchaseprice` and `row.unit` are all truthy. */
  predicate RequiredPresent(row: CsvRow) {
    !Blank(row.name) && !row.price.Missing? && !row.purchaseprice.Missing? && !Blank(row.unit)
  }

  /** No numeric cell parsed to `NaN`; a missing stock or minimum stock is 0, not `NaN`. */
  predicate NumbersValid(row: CsvRow) {
    !row.price.NotANumber? && !row.purchaseprice.NotANumber?
    && !row.stock.NotANumber? && !row.minstock.NotANumber?
  }

  /** `validUnits.includes(row.unit.toLowerCase())`. */
  predicate UnitValid(row: CsvRow)
    requires !Blank(row.unit)
  {
    ToLower(row.unit.value) in ["adet", "kg", "lt", "mt"]
  }

  /** A truthy barcode that some stored product already carries. */
  predicate BarcodeInStore(t: Table<Product>, row: CsvRow) {
    !Blank(row.barcode) && FindByBarcode(t, row.barcode.value).Some?
  }

  function CellOr<T>(c: NumberCell<T>, default: T): T {
    if c.Parsed? then c.value else default
  }

  function Falsy(s: Option<string>): Option<string> {
    if Blank(s) then None else s
  }

  /** The document the handler builds from an accepted row; an empty barcode cell
      becomes an explicit `null`. */
  function RowDoc(cats: Table<Category>, row: CsvRow): (d: ProductDoc)
    requires CategoryKnown(cats, row) && RequiredPresent(row)
    ensures d.unit == Some(ToLower(row.unit.value))
    ensures d.isActive == Some(row.isactive == Some("true"))
    ensures d.stock == Some(CellOr(row.stock, 0)) && d.minStock == Some(CellOr(row.minstock, 0))
    ensures d.barcode.Code? <==> !Blank(row.barcode)
    ensures d.barcode.Code? ==> d.barcode.code == row.barcode.value
    ensures !d.barcode.NoBarcode?
    ensures d.category.Some? <==> !Blank(row.category)
    ensures d.category.Some? ==> d.category.value in cats.rows
    ensures d.woocommerceId.None?
  {
    ProductDoc(
      row.name,
      if Blank(row.barcode) then NullBarcode else Code(row.barcode.value),
      if Blank(row.category) then None else FindCategoryByName(cats, row.category.value),
      Some(if Blank(row.description) then "" else row.description.value),
      Some(CellOr(row.price, 0.0)),
      Some(CellOr(row.purchaseprice, 0.0)),
      Some(CellOr(row.stock, 0)),
      Some(ToLower(row.unit.value)),
      Some(CellOr(row.minstock, 0)),
      Some(row.isactive == Some("true")),
      Falsy(row.imageurl),
      None)
  }

  /** The row handler as written: the category, the required fields, the numbers,
      the unit and the barcode are checked in that order, and the first failure is
      the row's error. */
  function ValidateRowAsWritten(cats: Table<Category>, t: Table<Product>, row: CsvRow): (c: Checked)
    ensures !CategoryKnown(cats, row) ==> c == Rejected(UnknownCategory(row.category.value))
    ensures CategoryKnown(cats, row) && !RequiredPresent(row) ==> c == Rejected(MissingRequiredFields)
    ensures CategoryKnown(cats, row) && RequiredPresent(row) && !NumbersValid(row)
            ==> c == Rejected(InvalidNumber)
    ensures CategoryKnown(cats, row) && RequiredPresent(row) && NumbersValid(row) && !UnitValid(row)
            ==> c == Rejected(InvalidUnit)
    ensures && CategoryKnown(cats, row) && RequiredPresent(row) && NumbersValid(row) && UnitValid(row)
            && BarcodeInStore(t, row)
            ==> c == Rejected(BarcodeExists(row.barcode.value))
    ensures c.Accepted? <==> && CategoryKnown(cats, row) && RequiredPresent(row) && NumbersValid(row)
                             && UnitValid(row) && !BarcodeInStore(t, row)
    ensures c.Accepted? ==> c.doc == RowDoc(cats, row)
  {
    if !CategoryKnown(cats, row) then Rejected(UnknownCategory(row.category.value))
    else if !RequiredPresent(row) then Rejected(MissingRequiredFields)
    else if !NumbersValid(row) then Rejected(InvalidNumber)
    else if !UnitValid(row) then Rejected(InvalidUnit)
    else if BarcodeInStore(t, row) then Rejected(BarcodeExists(row.barcode.value))
    else Accepted(RowDoc(cats, row))
  }

  /** An earlier accepted document of the same file stores the same barcode string. */
  predicate RepeatsBarcode(seen: seq<ProductDoc>, d: ProductDoc) {
    d.barcode.Code? && exists j :: 0 <= j < |seen| && TrimBarcode(seen[j].barcode) == TrimBarcode(d.barcode)
  }

  /** The document with a `null` barcode left out, so that the sparse index skips it. */
  function OmitNullBarcode(d: ProductDoc): (e: ProductDoc)
    ensures !e.barcode.NullBarcode?
    ensures e.barcode.Code? <==> d.barcode.Code?
    ensures e.barcode.Code? ==> e.barcode == d.barcode
    ensures e.(barcode := d.barcode) == d
  {
    if d.barcode.NullBarcode? then d.(barcode := NoBarcode) else d
  }

  /** The row handler with the barcode also checked against the rows accepted before
      it, and an empty barcode cell left out of the document rather than stored as
      `null`; this is the one the rest of the model uses. Every other outcome is as
      written. */
  function ValidateRow(cats: Table<Category>, t: Table<Product>, seen: seq<ProductDoc>, row: CsvRow): (c: Checked)
    ensures ValidateRowAsWritten(cats, t, row).Rejected? ==> c == ValidateRowAsWritten(cats, t, row)
    ensures c.Accepted? <==> ValidateRowAsWritten(cats, t, row).Accepted?
                             && !RepeatsBarcode(seen, ValidateRowAsWritten(cats, t, row).doc)
    ensures c.Accepted? ==> c.doc == OmitNullBarcode(ValidateRowAsWritten(cats, t, row).doc)
    ensures c.Rejected? && ValidateRowAsWritten(cats, t, row).Accepted?
            ==> c.problem == BarcodeRepeated(row.barcode.value)
  {
    var written := ValidateRowAsWritten(cats, t, row);
    if written.Accepted? && RepeatsBarcode(seen, written.doc) then Rejected(BarcodeRepeated(row.barcode.value))
    else if written.Accepted? then Accepted(OmitNullBarcode(written.doc))
    else written
  }

  /* ---------------------------------------------------- collecting rows */

  /** The `results` and `errors` arrays after the handler has seen the first `n` rows.
      `rowNumber` starts at 1 and is bumped before each row, so row `j` reports `j + 2`.
      `rejectRepeats` chooses the corrected handler over the one as written. */
  function Collect(cats: Table<Category>, t: Table<Product>, rows: seq<CsvRow>, n: nat,
                   rejectRepeats: bool): (r: (seq<ProductDoc>, seq<RowError>))
    requires n <= |rows|
    ensures |r.0| + |r.1| == n
    ensures forall k :: 0 <= k < |r.1| ==> 2 <= r.1[k].row <= n + 1
    ensures forall k, k' :: 0 <= k < k' < |r.1| ==> r.1[k].row < r.1[k'].row
  {
    if n == 0 then ([], [])
    else
      var prev := Collect(cats, t, rows, n - 1, rejectRepeats);
      match (if rejectRepeats then ValidateRow(cats, t, prev.0, rows[n - 1])
             else ValidateRowAsWritten(cats, t, rows[n - 1]))
      case Accepted(d) => (prev.0 + [d], prev.1)
      case Rejected(p) => (prev.0, prev.1 + [RowError(n + 1, p)])
  }

  /* ------------------------------------------------------------ inserting */

  /** The sparse unique index on `barcode` already holds `b`; a document without the
      path is not indexed, one with `null` is. */
  predicate BarcodeTaken(t: Table<Product>, b: Barcode) {
    !b.NoBarcode? && exists k :: k in t.rows && t.rows[k].barcode == b
  }

  /** `insertMany` first runs the schema's validation on every document and, ordered
      as it is, refuses the whole batch when one fails. */
  function ValidateAll(docs: seq<ProductDoc>, n: nat): (r: Result<seq<Product>>)
    requires n <= |docs|
    ensures r.Err? ==> r.error == Unexpected(ValidationFailed)
    ensures r.Ok? ==> |r.value| == n
  {
    if n == 0 then Ok([])
    else
      var prev := ValidateAll(docs, n - 1);
      var last := NewProduct(docs[n - 1]);
      if prev.Err? then prev
      else if last.Err? then Err(last.error)
      else Ok(prev.value + [last.value])
  }

  /** The batch passes exactly when every document does. */
  lemma {:induction false} ValidateAllOk(docs: seq<ProductDoc>, n: nat)
    requires n <= |docs|
    ensures ValidateAll(docs, n).Ok? <==> forall j :: 0 <= j < n ==> NewProduct(docs[j]).Ok?
  {
    if n > 0 {
      ValidateAllOk(docs, n - 1);
    }
  }

  /** A batch that passes holds the validated documents in order. */
  lemma {:induction false} ValidateAllValues(docs: seq<ProductDoc>, n: nat)
    requires n <= |docs| && ValidateAll(docs, n).Ok?
    ensures forall j :: 0 <= j < n ==> Ok(ValidateAll(docs, n).value[j]) == NewProduct(docs[j])
  {
    if n > 0 {
      var prev := ValidateAll(docs, n - 1);
      ValidateAllValues(docs, n - 1);
      var ps := ValidateAll(docs, n).value;
      assert ps == prev.value + [NewProduct(docs[n - 1]).value];
      assert forall j :: 0 <= j < n - 1 ==> ps[j] == prev.value[j];
    }
  }

  /** How far an ordered `insertMany` got: the collection afterwards, the number of
      documents written, and the failure that stopped it, if any. */
  datatype Insertion = Insertion(products: Table<Product>, inserted: nat, failure: Option<Failure>)

  /** The server side of an ordered `insertMany` from document `i` on: each document
      is written in turn until one collides with an `_id` or a barcode already stored;
      the documents before it stay written. */
  function InsertFrom(t: Table<Product>, ps: seq<Product>, ids: seq<ProductId>, i: nat): (r: Insertion)
    requires i <= |ps| <= |ids|
    decreases |ps| - i
    ensures i <= r.inserted <= |ps|
    ensures r.failure.None? <==> r.inserted == |ps|
    ensures r.failure.Some? ==> r.failure.value == DuplicateKey
  {
    if i == |ps| then Insertion(t, i, None)
    else if ids[i] in t.rows || BarcodeTaken(t, ps[i].barcode) then Insertion(t, i, Some(DuplicateKey))
    else InsertFrom(t.Insert(ids[i], ps[i]), ps, ids, i + 1)
  }

  /** What the ordered insert leaves behind: the written documents follow the old ones
      in the natural order, each under its id, and the old ones are untouched. */
  lemma InsertFromEffect(t: Table<Product>, ps: seq<Product>, ids: seq<ProductId>, i: nat)
    requires i <= |ps| <= |ids|
    ensures var r := InsertFrom(t, ps, ids, i);
            && r.products.order == t.order + ids[i..r.inserted]
            && (forall k :: k in t.rows ==> k in r.products.rows && r.products.rows[k] == t.rows[k])
            && (forall j :: i <= j < r.inserted ==> ids[j] in r.products.rows && r.products.rows[ids[j]] == ps[j])
  {
    InsertFromOrder(t, ps, ids, i);
    InsertFromRows(t, ps, ids, i);
  }

  lemma {:induction false} InsertFromOrder(t: Table<Product>, ps: seq<Product>, ids: seq<ProductId>, i: nat)
    requires i <= |ps| <= |ids|
    decreases |ps| - i
    ensures var r := InsertFrom(t, ps, ids, i); r.products.order == t.order + ids[i..r.inserted]
  {
    if i < |ps| && ids[i] !in t.rows && !BarcodeTaken(t, ps[i].barcode) {
      var t' := t.Insert(ids[i], ps[i]);
      InsertFromOrder(t', ps, ids, i + 1);
      var r := InsertFrom(t', ps, ids, i + 1);
      assert ids[i..r.inserted] == [ids[i]] + ids[i + 1..r.inserted];
    }
  }

  lemma {:induction false} InsertFromRows(t: Table<Product>, ps: seq<Product>, ids: seq<ProductId>, i: nat)
    requires i <= |ps| <= |ids|
    decreases |ps| - i
    ensures var r := InsertFrom(t, ps, ids, i);
            && (forall k :: k in t.rows ==> k in r.products.rows && r.products.rows[k] == t.rows[k])
            && (forall j :: i <= j < r.inserted ==> ids[j] in r.products.rows && r.products.rows[ids[j]] == ps[j])
  {
    if i < |ps| && ids[i] !in t.rows && !BarcodeTaken(t, ps[i].barcode) {
      var t' := t.Insert(ids[i], ps[i]);
      InsertFromRows(t', ps, ids, i + 1);
    }
  }

  /* --------------------------------------------------------------- upload */

  /** The collection after the upload, and the response: the number of products written,
      or the error. */
  datatype Upload = Upload(products: Table<Product>, response: Result<nat>)

  function UploadWith(cats: Table<Category>, t: Table<Product>, file: Option<seq<CsvRow>>,
                      ids: seq<ProductId>, rejectRepeats: bool): (u: Upload)
    requires file.Some? ==> |file.value| <= |ids|
  {
    if file.None? then Upload(t, Err(NoFile))
    else
      var collected := Collect(cats, t, file.value, |file.value|, rejectRepeats);
      if |collected.1| > 0 then Upload(t, Err(RowErrors(collected.1)))
      else
        match ValidateAll(collected.0, |collected.0|)
        case Err(e) => Upload(t, Err(e))
        case Ok(ps) =>
          var ins := InsertFrom(t, ps, ids, 0);
          if ins.failure.Some? then Upload(ins.products, Err(Unexpected(ins.failure.value)))
          else Upload(ins.products, Ok(|ps|))
  }

  /** `uploadProducts` as written: a barcode repeated inside the file is not caught
      before the insert. */
  function UploadAsWritten(cats: Table<Category>, t: Table<Product>, file: Option<seq<CsvRow>>,
                           ids: seq<ProductId>): (u: Upload)
    requires file.Some? ==> |file.value| <= |ids|
    ensures file.None? ==> u == Upload(t, Err(NoFile))
    ensures u.response.Err? && u.response.error != Unexpected(DuplicateKey) ==> u.products == t
    ensures u.response.Ok? ==> && file.Some? && u.response.value == |file.value|
                               && u.products.order == t.order + ids[..|file.value|]
    ensures u.response.Ok? ==> forall j :: 0 <= j < |file.value| ==>
              && ValidateRowAsWritten(cats, t, file.value[j]).Accepted? && ids[j] in u.products.rows
              && NewProduct(RowDoc(cats, file.value[j])) == Ok(u.products.rows[ids[j]])
  {
    UploadAsWrittenWrites(cats, t, file, ids);
    UploadWith(cats, t, file, ids, false)
  }

  /** `uploadProducts` with repeated barcodes reported as row errors. */
  function UploadProducts(cats: Table<Category>, t: Table<Product>, file: Option<seq<CsvRow>>,
                          ids: seq<ProductId>): (u: Upload)
    requires file.Some? ==> |file.value| <= |ids|
    ensures file.None? ==> u == Upload(t, Err(NoFile))
    ensures u.response.Err? && u.response.error != Unexpected(DuplicateKey) ==> u.products == t
  {
    UploadWith(cats, t, file, ids, true)
  }

  /** Ids handed out for new documents: none is stored yet and no two are alike. */
  ghost predicate FreshIds(t: Table<Product>, ids: seq<ProductId>) {
    && (forall j :: 0 <= j < |ids| ==> ids[j] !in t.rows)
    && (forall j, j' :: 0 <= j < j' < |ids| ==> ids[j] != ids[j'])
  }

  /* --------------------------------------------------------------- lemmas */

  /** A row with an error keeps every row out of the collection. */
  lemma RowErrorInsertsNothing(cats: Table<Category>, t: Table<Product>, rows: seq<CsvRow>,
                               ids: seq<ProductId>, rejectRepeats: bool)
    requires |rows| <= |ids|
    requires |Collect(cats, t, rows, |rows|, rejectRepeats).1| > 0
    ensures UploadWith(cats, t, Some(rows), ids, rejectRepeats)
            == Upload(t, Err(RowErrors(Collect(cats, t, rows, |rows|, rejectRepeats).1)))
  {
  }

  /** Inserting one document that passed validation under a fresh id and an unused
      barcode keeps the product invariant. */
  lemma InsertKeepsProductsInv(t: Table<Product>, id: ProductId, p: Product)
    requires ProductsInv(t) && id !in t.rows && ValidProduct(p) && !BarcodeTaken(t, p.barcode)
    ensures ProductsInv(t.Insert(id, p))
  {
    var t' := t.Insert(id, p);
    forall a, b | a in t'.rows && b in t'.rows && a != b && !t'.rows[a].barcode.NoBarcode?
      ensures t'.rows[a].barcode != t'.rows[b].barcode
    {
      if a == id {
        assert b in t.rows;
      } else if b == id {
        assert a in t.rows;
      }
    }
  }

  /** Whatever an ordered insert gets through, the collection still satisfies the
      schema and the unique index. */
  lemma {:induction false} InsertFromKeepsProductsInv(t: Table<Product>, ps: seq<Product>, ids: seq<ProductId>, i: nat)
    requires i <= |ps| <= |ids|
    requires ProductsInv(t) && forall j :: i <= j < |ps| ==> ValidProduct(ps[j])
    ensures ProductsInv(InsertFrom(t, ps, ids, i).products)
    decreases |ps| - i
  {
    if i < |ps| && ids[i] !in t.rows && !BarcodeTaken(t, ps[i].barcode) {
      InsertKeepsProductsInv(t, ids[i], ps[i]);
      InsertFromKeepsProductsInv(t.Insert(ids[i], ps[i]), ps, ids, i + 1);
    }
  }

  /** Fresh ids and barcodes used neither in the collection nor twice in the batch:
      the ordered insert writes every document. */
  lemma {:induction false} InsertFromCompletes(t: Table<Product>, ps: seq<Product>, ids: seq<ProductId>, i: nat)
    requires i <= |ps| <= |ids|
    requires forall j :: i <= j < |ps| ==> ids[j] !in t.rows && !BarcodeTaken(t, ps[j].barcode)
    requires forall j, j' :: i <= j < j' < |ps| ==> ids[j] != ids[j']
    requires forall j, j' :: i <= j < j' < |ps| && !ps[j'].barcode.NoBarcode? ==> ps[j].barcode != ps[j'].barcode
    ensures InsertFrom(t, ps, ids, i).failure.None?
    decreases |ps| - i
  {
    if i < |ps| {
      var t' := t.Insert(ids[i], ps[i]);
      assert forall j :: i + 1 <= j < |ps| ==> ids[j] !in t'.rows && !BarcodeTaken(t', ps[j].barcode);
      InsertFromCompletes(t', ps, ids, i + 1);
    }
  }

  /** No accepted document stores `null` as barcode, nor a barcode already stored. */
  ghost predicate BarcodesFresh(t: Table<Product>, rs: seq<ProductDoc>) {
    forall j :: 0 <= j < |rs| ==>
      && !rs[j].barcode.NullBarcode?
      && (rs[j].barcode.Code? ==> forall k :: k in t.rows ==> t.rows[k].barcode != TrimBarcode(rs[j].barcode))
  }

  /** No two accepted documents store the same barcode. */
  ghost predicate BarcodesDistinct(rs: seq<ProductDoc>) {
    forall j, j' :: 0 <= j < j' < |rs| && rs[j'].barcode.Code? ==>
      TrimBarcode(rs[j].barcode) != TrimBarcode(rs[j'].barcode)
  }

  /** A row the handler accepts carries no barcode string already stored. */
  lemma AcceptedBarcodeFresh(cats: Table<Category>, t: Table<Product>, row: CsvRow)
    requires t.Wf() && ValidateRowAsWritten(cats, t, row).Accepted?
    ensures var d := ValidateRowAsWritten(cats, t, row).doc;
            d.barcode.Code? ==> forall k :: k in t.rows ==> t.rows[k].barcode != TrimBarcode(d.barcode)
  {
  }

  lemma AcceptKeepsBarcodesUnique(t: Table<Product>, prev: seq<ProductDoc>, d: ProductDoc)
    requires BarcodesFresh(t, prev) && BarcodesDistinct(prev) && BarcodeNew(t, prev, d)
    ensures BarcodesFresh(t, prev + [d]) && BarcodesDistinct(prev + [d])
  {
    var rs := prev + [d];
    forall j | 0 <= j < |rs|
      ensures && !rs[j].barcode.NullBarcode?
              && (rs[j].barcode.Code? ==> forall k :: k in t.rows ==> t.rows[k].barcode != TrimBarcode(rs[j].barcode))
    {
      if j < |prev| {
        assert rs[j] == prev[j];
      }
    }
    forall j, j' | 0 <= j < j' < |rs| && rs[j'].barcode.Code?
      ensures TrimBarcode(rs[j].barcode) != TrimBarcode(rs[j'].barcode)
    {
      if j' == |prev| {
        assert rs[j] == prev[j];
      } else {
        assert rs[j] == prev[j] && rs[j'] == prev[j'];
      }
    }
  }

  /** `d` stores no `null`, repeats no barcode of `prev` and carries none already stored. */
  ghost predicate BarcodeNew(t: Table<Product>, prev: seq<ProductDoc>, d: ProductDoc) {
    && !d.barcode.NullBarcode?
    && !RepeatsBarcode(prev, d)
    && (d.barcode.Code? ==> forall k :: k in t.rows ==> t.rows[k].barcode != TrimBarcode(d.barcode))
  }

  /** Every accepted document's barcode was new when it was accepted. */
  ghost predicate BarcodesUnique(t: Table<Product>, rs: seq<ProductDoc>)
    decreases |rs|
  {
    rs == [] || (BarcodesUnique(t, rs[..|rs| - 1]) && BarcodeNew(t, rs[..|rs| - 1], rs[|rs| - 1]))
  }

  /** Barcodes new at each acceptance are fresh and pairwise distinct. */
  lemma {:induction false} BarcodesUniqueMeans(t: Table<Product>, rs: seq<ProductDoc>)
    requires BarcodesUnique(t, rs)
    ensures BarcodesFresh(t, rs) && BarcodesDistinct(rs)
    decreases |rs|
  {
    if rs != [] {
      var prev := rs[..|rs| - 1];
      BarcodesUniqueMeans(t, prev);
      AcceptKeepsBarcodesUnique(t, prev, rs[|rs| - 1]);
      assert prev + [rs[|rs| - 1]] == rs;
    }
  }

  /** The corrected handler accepts no barcode twice and none already stored. */
  lemma {:induction false} CollectBarcodesUnique(cats: Table<Category>, t: Table<Product>, rows: seq<CsvRow>, n: nat)
    requires t.Wf() && n <= |rows|
    ensures BarcodesUnique(t, Collect(cats, t, rows, n, true).0)
  {
    if n > 0 {
      CollectBarcodesUnique(cats, t, rows, n - 1);
      var prev := Collect(cats, t, rows, n - 1, true);
      var c := ValidateRow(cats, t, prev.0, rows[n - 1]);
      if c.Accepted? {
        var rs := prev.0 + [c.doc];
        assert Collect(cats, t, rows, n, true).0 == rs;
        assert rs[..|rs| - 1] == prev.0;
        AcceptedBarcodeFresh(cats, t, rows[n - 1]);
      } else {
        assert Collect(cats, t, rows, n, true).0 == prev.0;
      }
    }
  }

  /** With no row error, the `j`-th document is the one the handler built from the
      `j`-th row, with an empty barcode left out. */
  lemma {:induction false} CollectAllAccepted(cats: Table<Category>, t: Table<Product>, rows: seq<CsvRow>, n: nat)
    requires n <= |rows| && |Collect(cats, t, rows, n, true).1| == 0
    ensures var rs := Collect(cats, t, rows, n, true).0;
            && |rs| == n
            && forall j :: 0 <= j < n ==>
                 && ValidateRowAsWritten(cats, t, rows[j]).Accepted?
                 && rs[j] == OmitNullBarcode(ValidateRowAsWritten(cats, t, rows[j]).doc)
  {
    if n > 0 {
      var prev := Collect(cats, t, rows, n - 1, true);
      var c := ValidateRow(cats, t, prev.0, rows[n - 1]);
      assert c.Accepted?;
      var rs := prev.0 + [c.doc];
      assert Collect(cats, t, rows, n, true).0 == rs;
      CollectAllAccepted(cats, t, rows, n - 1);
      assert forall j :: 0 <= j < n - 1 ==> rs[j] == prev.0[j];
    }
  }

  /** As written, with no row error the `j`-th document is the one built from the
      `j`-th row. */
  lemma {:induction false} CollectAllAcceptedAsWritten(cats: Table<Category>, t: Table<Product>, rows: seq<CsvRow>, n: nat)
    requires n <= |rows| && |Collect(cats, t, rows, n, false).1| == 0
    ensures var rs := Collect(cats, t, rows, n, false).0;
            |rs| == n && forall j :: 0 <= j < n ==> ValidateRowAsWritten(cats, t, rows[j]) == Accepted(rs[j])
  {
    if n > 0 {
      var prev := Collect(cats, t, rows, n - 1, false);
      var c := ValidateRowAsWritten(cats, t, rows[n - 1]);
      assert c.Accepted?;
      var rs := prev.0 + [c.doc];
      assert Collect(cats, t, rows, n, false).0 == rs;
      CollectAllAcceptedAsWritten(cats, t, rows, n - 1);
      assert forall j :: 0 <= j < n - 1 ==> rs[j] == prev.0[j];
    }
  }

  /** Validated documents store their barcodes trimmed, and pass the schema. */
  lemma {:induction false} ValidatedBarcodes(docs: seq<ProductDoc>, ps: seq<Product>)
    requires ValidateAll(docs, |docs|) == Ok(ps)
    ensures |ps| == |docs|
    ensures forall j :: 0 <= j < |ps| ==> ps[j].barcode == TrimBarcode(docs[j].barcode) && ValidProduct(ps[j])
  {
    ValidateAllValues(docs, |docs|);
    forall j | 0 <= j < |ps| ensures ps[j].barcode == TrimBarcode(docs[j].barcode) && ValidProduct(ps[j]) {
      assert Ok(ps[j]) == NewProduct(docs[j]);
      NewProductValid(docs[j]);
    }
  }

  /** A batch whose barcodes are fresh and distinct, under fresh ids, is written whole
      and keeps the product invariant. */
  lemma BatchInsertsWhole(t: Table<Product>, docs: seq<ProductDoc>, ps: seq<Product>, ids: seq<ProductId>)
    requires ProductsInv(t) && FreshIds(t, ids) && |docs| <= |ids|
    requires BarcodesFresh(t, docs) && BarcodesDistinct(docs)
    requires ValidateAll(docs, |docs|) == Ok(ps)
    ensures InsertFrom(t, ps, ids, 0).failure.None?
    ensures ProductsInv(InsertFrom(t, ps, ids, 0).products)
  {
    ValidatedBarcodes(docs, ps);
    assert forall j :: 0 <= j < |ps| ==> !BarcodeTaken(t, ps[j].barcode);
    InsertFromCompletes(t, ps, ids, 0);
    InsertFromKeepsProductsInv(t, ps, ids, 0);
  }

  /** All or nothing: with a barcode repeated inside the file reported as a row error,
      and fresh ids, the upload either answers an error and leaves the collection as it
      was, or answers the number of rows and has written one product per row, in row
      order, each the schema's reading of the document built from its row with an empty
      barcode left out, so that none stores `null`. Either way the collection keeps the
      schema and the unique index. It answers the number of rows exactly when no row
      is refused and the documents of the rows validate as one batch. */
  lemma UploadAllOrNothing(cats: Table<Category>, t: Table<Product>, rows: seq<CsvRow>, ids: seq<ProductId>)
    requires |rows| <= |ids| && ProductsInv(t) && FreshIds(t, ids)
    ensures var u := UploadProducts(cats, t, Some(rows), ids);
            var collected := Collect(cats, t, rows, |rows|, true);
            && (u.response == Ok(|rows|) <==> |collected.1| == 0 && ValidateAll(collected.0, |rows|).Ok?)
            && ProductsInv(u.products)
            && (u.response.Err? ==> u.products == t)
            && (u.response.Ok? ==> u.response.value == |rows| && u.products.order == t.order + ids[..|rows|])
            && (u.response.Ok? ==> forall j :: 0 <= j < |rows| ==>
                  && ValidateRowAsWritten(cats, t, rows[j]).Accepted? && ids[j] in u.products.rows
                  && NewProduct(OmitNullBarcode(ValidateRowAsWritten(cats, t, rows[j]).doc))
                     == Ok(u.products.rows[ids[j]])
                  && !u.products.rows[ids[j]].barcode.NullBarcode?)
  {
    var collected := Collect(cats, t, rows, |rows|, true);
    if |collected.1| == 0 {
      var v := ValidateAll(collected.0, |collected.0|);
      if v.Ok? {
        CollectBarcodesUnique(cats, t, rows, |rows|);
        BarcodesUniqueMeans(t, collected.0);
        BatchInsertsWhole(t, collected.0, v.value, ids);
        CollectAllAccepted(cats, t, rows, |rows|);
        UploadWrites(t, collected.0, v.value, ids);
        forall j | 0 <= j < |rows| ensures NewProduct(collected.0[j]).Ok? {
        }
        forall j | 0 <= j < |rows| ensures TrimBarcode(collected.0[j].barcode) == NewProduct(collected.0[j]).value.barcode {
          NewProductValid(collected.0[j]);
        }
      }
    }
  }

  /** As written, an upload that answers success has written one product per row, in
      row order, each the schema's reading of the document built from its row. */
  lemma UploadAsWrittenWrites(cats: Table<Category>, t: Table<Product>, file: Option<seq<CsvRow>>,
                              ids: seq<ProductId>)
    requires file.Some? ==> |file.value| <= |ids|
    ensures var u := UploadWith(cats, t, file, ids, false);
            u.response.Ok? ==> && file.Some? && u.response.value == |file.value|
                               && u.products.order == t.order + ids[..|file.value|]
                               && forall j :: 0 <= j < |file.value| ==>
                                    && ValidateRowAsWritten(cats, t, file.value[j]).Accepted? && ids[j] in u.products.rows
                                    && NewProduct(RowDoc(cats, file.value[j])) == Ok(u.products.rows[ids[j]])
  {
    if file.Some? {
      var collected := Collect(cats, t, file.value, |file.value|, false);
      if |collected.1| == 0 {
        var v := ValidateAll(collected.0, |collected.0|);
        if v.Ok? && InsertFrom(t, v.value, ids, 0).failure.None? {
          CollectAllAcceptedAsWritten(cats, t, file.value, |file.value|);
          UploadWrites(t, collected.0, v.value, ids);
        }
      }
    }
  }

  /** The written products, document by document. */
  lemma UploadWrites(t: Table<Product>, docs: seq<ProductDoc>, ps: seq<Product>, ids: seq<ProductId>)
    requires |docs| <= |ids|
    requires ValidateAll(docs, |docs|) == Ok(ps)
    requires InsertFrom(t, ps, ids, 0).failure.None?
    ensures var r := InsertFrom(t, ps, ids, 0);
            && r.products.order == t.order + ids[..|docs|]
            && forall j :: 0 <= j < |docs| ==> ids[j] in r.products.rows && NewProduct(docs[j]) == Ok(r.products.rows[ids[j]])
  {
    ValidateAllValues(docs, |docs|);
    InsertFromOrder(t, ps, ids, 0);
    InsertFromRows(t, ps, ids, 0);
  }

  /** As written, the collection satisfies the schema and the unique index after any
      upload, even the one that fails half-way. */
  lemma UploadAsWrittenKeepsProductsInv(cats: Table<Category>, t: Table<Product>, file: Option<seq<CsvRow>>,
                                        ids: seq<ProductId>)
    requires file.Some? ==> |file.value| <= |ids|
    requires ProductsInv(t)
    ensures ProductsInv(UploadAsWritten(cats, t, file, ids).products)
  {
    if file.Some? {
      var collected := Collect(cats, t, file.value, |file.value|, false);
      var v := ValidateAll(collected.0, |collected.0|);
      if |collected.1| == 0 && v.Ok? {
        ValidatedBarcodes(collected.0, v.value);
        InsertFromKeepsProductsInv(t, v.value, ids, 0);
      }
    }
  }

  /* --------------------------------------- repeated barcode in one file */

  /** A well-formed row for a product with barcode `869`. */
  function Aspirin(): CsvRow {
    CsvRow(Some("Aspirin"), Some("869"), None, None, Parsed(10.0), Parsed(8.0), Parsed(5), Some("adet"),
           Missing, Some("true"), None)
  }

  /** The same row twice in one file. */
  function TwinRows(): seq<CsvRow> {
    [Aspirin(), Aspirin()]
  }

  lemma AspirinAccepted(cats: Table<Category>)
    ensures ValidateRowAsWritten(cats, EmptyTable(), Aspirin()) == Accepted(RowDoc(cats, Aspirin()))
  {
    assert ToLower("adet") == "adet";
  }

  lemma AspirinValid(cats: Table<Category>) returns (p: Product)
    ensures NewProduct(RowDoc(cats, Aspirin())) == Ok(p) && p.barcode == Code("869")
  {
    assert ToLower("adet") == "adet";
    assert Trim("Aspirin") != "" by { assert !IsWhitespace('A') && !IsWhitespace('n'); }
    assert Trim("869") == "869" by { assert !IsWhitespace('8') && !IsWhitespace('9'); }
    NewProductValid(RowDoc(cats, Aspirin()));
    p := NewProduct(RowDoc(cats, Aspirin())).value;
  }

  /** As written, both copies of a row the handler accepts are accepted. */
  lemma TwinsCollected(cats: Table<Category>, row: CsvRow)
    requires ValidateRowAsWritten(cats, EmptyTable(), row).Accepted?
    ensures var d := RowDoc(cats, row); Collect(cats, EmptyTable(), [row, row], 2, false) == ([d, d], [])
  {
    var t: Table<Product> := EmptyTable();
    var d := RowDoc(cats, row);
    assert Collect(cats, t, [row, row], 0, false) == ([], []);
    assert [] + [d] == [d] && [d] + [d] == [d, d];
    assert Collect(cats, t, [row, row], 1, false) == ([d], []);
  }

  /** Two copies of a document that passes the schema pass it together. */
  lemma TwinsValidated(d: ProductDoc) returns (p: Product)
    requires NewProduct(d).Ok?
    ensures ValidateAll([d, d], 2) == Ok([p, p]) && p == NewProduct(d).value
  {
    p := NewProduct(d).value;
    assert ValidateAll([d, d], 0) == Ok([]);
    assert [] + [p] == [p] && [p] + [p] == [p, p];
    assert ValidateAll([d, d], 1) == Ok([p]);
  }

  /** With a barcode path present, even `null`, the ordered insert writes the first
      copy and stops at the second. */
  lemma TwinsHalfInserted(p: Product)
    requires !p.barcode.NoBarcode?
    ensures InsertFrom(EmptyTable(), [p, p], ["p1", "p2"], 0)
            == Insertion(EmptyTable().Insert("p1", p), 1, Some(DuplicateKey))
  {
    var t: Table<Product> := EmptyTable();
    var t1 := t.Insert("p1", p);
    assert BarcodeTaken(t1, p.barcode) by { assert t1.rows["p1"].barcode == p.barcode; }
    assert InsertFrom(t1, [p, p], ["p1", "p2"], 1) == Insertion(t1, 1, Some(DuplicateKey));
  }

  /** As written, both rows pass, the first product is written, and the unique index
      rejects the second: the answer is an error, yet the collection has changed. */
  lemma RepeatedBarcodeInsertsHalf(cats: Table<Category>)
    ensures var u := UploadAsWritten(cats, EmptyTable(), Some(TwinRows()), ["p1", "p2"]);
            && u.response == Err(Unexpected(DuplicateKey))
            && u.products.order == ["p1"]
  {
    AspirinAccepted(cats);
    TwinsCollected(cats, Aspirin());
    var p := AspirinValid(cats);
    var p' := TwinsValidated(RowDoc(cats, Aspirin()));
    TwinsHalfInserted(p);
  }

  /** The corrected handler reports the second row, CSV row 3, and writes nothing. */
  lemma RepeatedBarcodeRejected(cats: Table<Category>)
    ensures UploadProducts(cats, EmptyTable(), Some(TwinRows()), ["p1", "p2"])
            == Upload(EmptyTable(), Err(RowErrors([RowError(3, BarcodeRepeated("869"))])))
  {
    var t: Table<Product> := EmptyTable();
    var d := RowDoc(cats, Aspirin());
    AspirinAccepted(cats);
    assert ValidateRow(cats, t, [], Aspirin()) == Accepted(d);
    assert TwinRows()[0] == Aspirin() && TwinRows()[1] == Aspirin();
    assert Collect(cats, t, TwinRows(), 0, true) == ([], []);
    assert [] + [d] == [d] && [] + [RowError(3, BarcodeRepeated("869"))] == [RowError(3, BarcodeRepeated("869"))];
    assert Collect(cats, t, TwinRows(), 1, true) == ([d], []);
    assert RepeatsBarcode([d], d) by { assert TrimBarcode([d][0].barcode) == TrimBarcode(d.barcode); }
    assert ValidateRow(cats, t, [d], Aspirin()) == Rejected(BarcodeRepeated("869"));
    assert Collect(cats, t, TwinRows(), 2, true) == ([d], [RowError(3, BarcodeRepeated("869"))]);
  }

  /* ------------------------------------------ two rows without a barcode */

  /** A well-formed row whose barcode cell is empty. */
  function Gauze(): CsvRow {
    CsvRow(Some("Gauze"), Some(""), None, None, Parsed(3.0), Parsed(2.0), Parsed(20), Some("adet"),
           Missing, Some("true"), None)
  }

  /** Two products without a barcode in one file. */
  function BlankTwinRows(): seq<CsvRow> {
    [Gauze(), Gauze()]
  }

  lemma GauzeAccepted(cats: Table<Category>)
    ensures ValidateRowAsWritten(cats, EmptyTable(), Gauze()) == Accepted(RowDoc(cats, Gauze()))
    ensures RowDoc(cats, Gauze()).barcode == NullBarcode
  {
    assert ToLower("adet") == "adet";
  }

  /** The document passes the schema with its `null` barcode, and passes it as well
      with the barcode left out. */
  lemma GauzeValid(cats: Table<Category>) returns (p: Product, q: Product)
    ensures NewProduct(RowDoc(cats, Gauze())) == Ok(p) && p.barcode == NullBarcode
    ensures NewProduct(OmitNullBarcode(RowDoc(cats, Gauze()))) == Ok(q) && q.barcode == NoBarcode
  {
    assert ToLower("adet") == "adet";
    assert Trim("Gauze") != "" by { assert !IsWhitespace('G') && !IsWhitespace('e'); }
    NewProductValid(RowDoc(cats, Gauze()));
    NewProductValid(OmitNullBarcode(RowDoc(cats, Gauze())));
    p := NewProduct(RowDoc(cats, Gauze())).value;
    q := NewProduct(OmitNullBarcode(RowDoc(cats, Gauze()))).value;
  }

  /** As written, both barcode-less rows pass and store `null`, the first product is
      written, and the unique index rejects the second `null`: the answer is an error,
      yet the collection has changed. */
  lemma NullBarcodesInsertHalf(cats: Table<Category>)
    ensures var u := UploadAsWritten(cats, EmptyTable(), Some(BlankTwinRows()), ["p1", "p2"]);
            && u.response == Err(Unexpected(DuplicateKey))
            && u.products.order == ["p1"]
  {
    GauzeAccepted(cats);
    TwinsCollected(cats, Gauze());
    var p, q := GauzeValid(cats);
    var p' := TwinsValidated(RowDoc(cats, Gauze()));
    TwinsHalfInserted(p);
  }

  /** The corrected handler leaves the barcode out of both documents and writes both. */
  lemma BlankBarcodesInserted(cats: Table<Category>)
    ensures var u := UploadProducts(cats, EmptyTable(), Some(BlankTwinRows()), ["p1", "p2"]);
            && u.response == Ok(2)
            && u.products.order == ["p1", "p2"]
  {
    var t: Table<Product> := EmptyTable();
    var e := OmitNullBarcode(RowDoc(cats, Gauze()));
    GauzeAccepted(cats);
    assert ValidateRow(cats, t, [], Gauze()) == Accepted(e);
    assert ValidateRow(cats, t, [e], Gauze()) == Accepted(e);
    assert Collect(cats, t, BlankTwinRows(), 0, true) == ([], []);
    assert [] + [e] == [e] && [e] + [e] == [e, e];
    assert Collect(cats, t, BlankTwinRows(), 1, true) == ([e], []);
    assert Collect(cats, t, BlankTwinRows(), 2, true) == ([e, e], []);
    var p, q := GauzeValid(cats);
    var q' := TwinsValidated(e);
    var t1 := t.Insert("p1", q);
    assert "p1" !in t.rows && !BarcodeTaken(t, q.barcode);
    assert InsertFrom(t, [q, q], ["p1", "p2"], 0) == InsertFrom(t1, [q, q], ["p1", "p2"], 1);
    assert "p2" !in t1.rows && !BarcodeTaken(t1, q.barcode);
    assert InsertFrom(t1, [q, q], ["p1", "p2"], 1) == Insertion(t1.Insert("p2", q), 2, None);
  }

  /* --------------------------------------------------------------- method */

  /** The handler: the row loop collects `results` and `errors`; a file with an error
      changes nothing; otherwise the batch is validated and inserted in order. */
  method PostUpload(db: Database, file: Option<seq<CsvRow>>, ids: seq<ProductId>) returns (r: Result<nat>)
    requires file.Some? ==> |file.value| <= |ids|
    modifies db
    ensures var u := UploadProducts(old(db.categories), old(db.products), file, ids);
            r == u.response && db.products == u.products
    ensures db.sales == old(db.sales) && db.sessions == old(db.sessions) && db.categories == old(db.categories)
  {
    if file.None? {
      return Err(NoFile);
    }
    var results, errors := CheckRows(db.categories, db.products, file.value);
    if |errors| > 0 {
      return Err(RowErrors(errors));
    }
    var validated := ValidateAll(results, |results|);
    if validated.Err? {
      return Err(validated.error);
    }
    r := InsertMany(db, validated.value, ids);
  }

  /** The row loop: `rowNumber` is bumped before each row, and each row's verdict goes
      to `results` or, with its row number, to `errors`. */
  method CheckRows(cats: Table<Category>, t: Table<Product>, rows: seq<CsvRow>)
    returns (results: seq<ProductDoc>, errors: seq<RowError>)
    ensures (results, errors) == Collect(cats, t, rows, |rows|, true)
  {
    results, errors := [], [];
    var rowNumber := 1;
    var i := 0;
    while i < |rows|
      invariant 0 <= i <= |rows| && rowNumber == i + 1
      invariant (results, errors) == Collect(cats, t, rows, i, true)
    {
      rowNumber := rowNumber + 1;
      var checked := ValidateRow(cats, t, results, rows[i]);
      if checked.Accepted? {
        results := results + [checked.doc];
      } else {
        errors := errors + [RowError(rowNumber, checked.problem)];
      }
      i := i + 1;
    }
  }

  /** The ordered insert: documents are written one by one until one collides. */
  method InsertMany(db: Database, ps: seq<Product>, ids: seq<ProductId>) returns (r: Result<nat>)
    requires |ps| <= |ids|
    modifies db
    ensures var ins := InsertFrom(old(db.products), ps, ids, 0);
            && db.products == ins.products
            && r == (if ins.failure.Some? then Err(Unexpected(ins.failure.value)) else Ok(|ps|))
    ensures db.sales == old(db.sales) && db.sessions == old(db.sessions) && db.categories == old(db.categories)
  {
    var i := 0;
    while i < |ps|
      invariant 0 <= i <= |ps|
      invariant InsertFrom(old(db.products), ps, ids, 0) == InsertFrom(db.products, ps, ids, i)
      invariant db.sales == old(db.sales) && db.sessions == old(db.sessions) && db.categories == old(db.categories)
    {
      if ids[i] in db.products.rows || BarcodeTaken(db.products, ps[i].barcode) {
        return Err(Unexpected(DuplicateKey));
      }
      db.products := db.products.Insert(ids[i], ps[i]);
      i := i + 1;
    }
    return Ok(|ps|);
  }
}
