/** The four Mongoose models of the backend (the files under api/models): the record each
    collection holds, its enumerations, and the defaults, setters and validators
    that `new Model(doc)` / `save()` apply. */
module Schemas {
  import opened Common
  import opened Text
  import opened Tables

  type ProductId = string
  type SaleId = string
  type SessionId = string
  type CategoryId = string

  predicate IsTrimmedOpt(s: Option<string>) {
    s.None? || IsTrimmed(s.value)
  }

  /* ---------------------------------------------------------------- Product */

  /** The `unit` enumeration of api/models/Product.js. */
  datatype Unit = Adet | Kg | Lt | Mt

  function UnitName(u: Unit): string {
    match u
    case Adet => "adet"
    case Kg => "kg"
    case Lt => "lt"
    case Mt => "mt"
  }

  /** The `enum` validator of `unit`: exactly one of the four names, case-sensitively. */
  function ParseUnit(s: string): (r: Option<Unit>)
    ensures r.Some? <==> s in {"adet", "kg", "lt", "mt"}
    ensures r.Some? ==> UnitName(r.value) == s
    ensures forall u :: s == UnitName(u) ==> r == Some(u)
  {
    if s == "adet" then Some(Adet)
    else if s == "kg" then Some(Kg)
    else if s == "lt" then Some(Lt)
    else if s == "mt" then Some(Mt)
    else None
  }

  /** A document's `barcode` path: absent, an explicit `null`, or a string. The index on
      it is sparse, which skips only the documents that lack the path: `null` is a key
      like any string. */
  datatype Barcode = NoBarcode | NullBarcode | Code(code: string)

  /** The `trim` setter of `barcode`, which leaves `null` alone. */
  function TrimBarcode(b: Barcode): (r: Barcode)
    ensures r.NoBarcode? <==> b.NoBarcode?
    ensures r.NullBarcode? <==> b.NullBarcode?
    ensures r.Code? ==> IsTrimmed(r.code)
  {
    match b
    case Code(s) => TrimIsCore(s); Code(Trim(s))
    case _ => b
  }

  /** A stored product document. Prices are opaque amounts. */
  datatype Product = Product(
    name: string,
    barcode: Barcode,
    category: Option<CategoryId>,
    description: Option<string>,
    price: real,
    purchasePrice: real,
    stock: int,
    unit: Unit,
    minStock: int,
    isActive: bool,
    imageUrl: Option<string>,
    woocommerceId: Option<string>)

  /** What the product schema's validators and setters guarantee of a saved document. */
  ghost predicate ValidProduct(p: Product) {
    && p.name != "" && IsTrimmed(p.name)
    && (p.barcode.Code? ==> IsTrimmed(p.barcode.code)) && IsTrimmedOpt(p.description)
    && p.price >= 0.0 && p.purchasePrice >= 0.0
    && p.stock >= 0 && p.minStock >= 0
  }

  /** The plain object handed to `new Product(doc)` / `insertMany`; absent fields are `None`. */
  datatype ProductDoc = ProductDoc(
    name: Option<string>,
    barcode: Barcode,
    category: Option<CategoryId>,
    description: Option<string>,
    price: Option<real>,
    purchasePrice: Option<real>,
    stock: Option<int>,
    unit: Option<string>,
    minStock: Option<int>,
    isActive: Option<bool>,
    imageUrl: Option<string>,
    woocommerceId: Option<string>)

  function TrimOpt(s: Option<string>): (r: Option<string>)
    ensures r.Some? <==> s.Some?
    ensures IsTrimmedOpt(r)
  {
    match s
    case None => None
    case Some(v) => TrimIsCore(v); Some(Trim(v))
  }

  /** The validators of api/models/Product.js: a required, non-blank name; required
      prices and, like `stock` and `minStock`, not below 0; a required unit from the enum. */
  predicate ProductDocAcceptable(d: ProductDoc) {
    && d.name.Some? && Trim(d.name.value) != ""
    && d.price.Some? && d.price.value >= 0.0
    && d.purchasePrice.Some? && d.purchasePrice.value >= 0.0
    && d.stock.GetOr(0) >= 0
    && d.unit.Some? && ParseUnit(d.unit.value).Some?
    && d.minStock.GetOr(0) >= 0
  }

  /** `new Product(doc)` followed by validation: the setters trim the string fields,
      `stock` and `minStock` default to 0 and `isActive` to true; a document that
      breaks a validator is refused with a validation error. */
  function NewProduct(d: ProductDoc): (r: Result<Product>)
    ensures r.Ok? <==> ProductDocAcceptable(d)
    ensures r.Err? ==> r.error == Unexpected(ValidationFailed)
  {
    if !ProductDocAcceptable(d) then Err(Unexpected(ValidationFailed))
    else
      Ok(Product(Trim(d.name.value), TrimBarcode(d.barcode), d.category, TrimOpt(d.description),
                 d.price.value, d.purchasePrice.value, d.stock.GetOr(0),
                 ParseUnit(d.unit.value).value, d.minStock.GetOr(0), d.isActive.GetOr(true),
                 d.imageUrl, d.woocommerceId))
  }

  /** A product the schema accepts passes its validators, and holds the document's
      fields trimmed, with the defaults filled in. */
  lemma NewProductValid(d: ProductDoc)
    requires NewProduct(d).Ok?
    ensures var p := NewProduct(d).value;
            && ValidProduct(p)
            && p.name == Trim(d.name.value)
            && p.barcode == TrimBarcode(d.barcode)
            && p.description == TrimOpt(d.description)
            && p.category == d.category
            && p.stock == d.stock.GetOr(0)
            && p.minStock == d.minStock.GetOr(0)
            && p.isActive == d.isActive.GetOr(true)
            && UnitName(p.unit) == d.unit.value
            && p.woocommerceId == d.woocommerceId
  {
    TrimIsCore(d.name.value);
  }

  /** The sparse unique index on `barcode`: no two products that have the path share
      its value, `null` included. */
  ghost predicate UniqueBarcodes(t: Table<Product>) {
    forall a, b :: a in t.rows && b in t.rows && a != b && !t.rows[a].barcode.NoBarcode? ==>
      t.rows[a].barcode != t.rows[b].barcode
  }

  ghost predicate NonNegativeStock(t: Table<Product>) {
    forall k :: k in t.rows ==> t.rows[k].stock >= 0
  }

  /** `Product.findOne({ barcode: b })`; the query goes through the `trim` setter too. */
  function FindByBarcode(t: Table<Product>, b: string): (r: Option<ProductId>)
    ensures r.Some? ==> r.value in t.rows && t.rows[r.value].barcode == Code(Trim(b))
    ensures r.None? && t.Wf() ==> forall k :: k in t.rows ==> t.rows[k].barcode != Code(Trim(b))
  {
    t.Find((p: Product) => p.barcode == Code(Trim(b)))
  }

  /** `Product.findOne({ woocommerceId: w })`: the first product in natural order
      mapped to that store product. */
  function FindByWooId(t: Table<Product>, w: string): (r: Option<ProductId>)
    ensures r.Some? ==> r.value in t.rows && t.rows[r.value].woocommerceId == Some(w)
    ensures r.None? && t.Wf() ==> forall k :: k in t.rows ==> t.rows[k].woocommerceId != Some(w)
  {
    t.Find((p: Product) => p.woocommerceId == Some(w))
  }

  /* ------------------------------------------------------------------- Sale */

  /** The `platform` enumeration of api/models/Sale.js. */
  datatype Platform = Pharmacy | Farmazon | WooCommerce

  function PlatformName(p: Platform): string {
    match p
    case Pharmacy => "pharmacy"
    case Farmazon => "farmazon"
    case WooCommerce => "woocommerce"
  }

  function ParsePlatform(s: string): (r: Option<Platform>)
    ensures r.Some? <==> s in {"pharmacy", "farmazon", "woocommerce"}
    ensures r.Some? ==> PlatformName(r.value) == s
    ensures forall p :: s == PlatformName(p) ==> r == Some(p)
  {
    if s == "pharmacy" then Some(Pharmacy)
    else if s == "farmazon" then Some(Farmazon)
    else if s == "woocommerce" then Some(WooCommerce)
    else None
  }

  /** A stored sale. The schema puts no sign constraint on `quantity`. */
  datatype Sale = Sale(
    product: ProductId,
    platform: Platform,
    quantity: int,
    date: Time,
    isCancelled: bool,
    cancelledAt: Option<Time>,
    cancelReason: Option<string>,
    woocommerceOrderId: Option<string>)

  /** The cancellation fields agree: a timestamp and a reason exactly when cancelled. */
  ghost predicate SaleConsistent(s: Sale) {
    && (s.isCancelled <==> s.cancelledAt.Some?)
    && (s.isCancelled <==> s.cancelReason.Some?)
    && IsTrimmedOpt(s.cancelReason)
  }

  /** `new Sale({...})` followed by validation: the platform must be in the enum;
      `isCancelled` defaults to false and `cancelledAt` to null. */
  function NewSale(product: ProductId, platform: string, quantity: int, date: Time,
                   woocommerceOrderId: Option<string>): (r: Result<Sale>)
    ensures r.Ok? <==> ParsePlatform(platform).Some?
    ensures r.Err? ==> r.error == Unexpected(ValidationFailed)
    ensures r.Ok? ==> && SaleConsistent(r.value) && !r.value.isCancelled
                      && r.value.product == product && PlatformName(r.value.platform) == platform
                      && r.value.quantity == quantity && r.value.date == date
                      && r.value.woocommerceOrderId == woocommerceOrderId
  {
    match ParsePlatform(platform)
    case None => Err(Unexpected(ValidationFailed))
    case Some(p) => Ok(Sale(product, p, quantity, date, false, None, None, woocommerceOrderId))
  }

  /* --------------------------------------------------------- InventoryCount */

  /** The `status` enumeration of api/models/Inventory.js. */
  datatype Status = Draft | InProgress | Completed

  /** One product's line in a count session. */
  datatype CountItem = CountItem(
    product: ProductId,
    systemQuantity: int,
    countedQuantity: int,
    difference: int,
    counted: bool,
    countedAt: Option<Time>)

  /** The invariant the routes maintain: `difference = countedQuantity - systemQuantity`. */
  predicate ItemConsistent(it: CountItem) {
    it.difference == it.countedQuantity - it.systemQuantity
  }

  predicate ItemsConsistent(items: seq<CountItem>) {
    forall i :: 0 <= i < |items| ==> ItemConsistent(items[i])
  }

  /** An item built from the schema's defaults: nothing counted yet. */
  function NewCountItem(product: ProductId, systemQuantity: int): (it: CountItem)
    ensures it.product == product && it.systemQuantity == systemQuantity
    ensures !it.counted && it.countedAt.None? && it.countedQuantity == 0
    ensures it.difference == 0
    ensures ItemConsistent(it) <==> systemQuantity == 0
  {
    CountItem(product, systemQuantity, 0, 0, false, None)
  }

  /** A stored count session. */
  datatype InventoryCount = InventoryCount(
    name: string,
    date: Time,
    status: Status,
    items: seq<CountItem>,
    notes: Option<string>,
    completedAt: Option<Time>,
    createdBy: Option<string>)

  /** `new InventoryCount({...})` followed by validation: `name` is required (a
      non-empty string; this schema has no `trim`); `status` defaults to draft,
      `date` to now, and `completedAt` is absent. */
  function NewInventoryCount(name: Option<string>, notes: Option<string>, createdBy: Option<string>,
                             items: seq<CountItem>, now: Time): (r: Result<InventoryCount>)
    ensures r.Ok? <==> !Blank(name)
    ensures r.Err? ==> r.error == Unexpected(ValidationFailed)
    ensures r.Ok? ==> && r.value.status == Draft && r.value.completedAt.None?
                      && r.value.items == items && r.value.name == name.value && r.value.date == now
                      && r.value.notes == notes && r.value.createdBy == createdBy
  {
    if Blank(name) then Err(Unexpected(ValidationFailed))
    else Ok(InventoryCount(name.value, now, Draft, items, notes, None, createdBy))
  }

  /* --------------------------------------------------------------- Category */

  /** A stored category; `parentCategory` links to another category. */
  datatype Category = Category(
    name: string,
    description: Option<string>,
    parentCategory: Option<CategoryId>,
    isActive: bool)

  /** `new Category({...})` followed by validation: the `trim` setters run on `name`
      and `description`, `name` is required (non-empty after the trim), `isActive`
      defaults to true and `parentCategory` is kept. */
  function NewCategory(name: string, description: Option<string>, parentCategory: Option<CategoryId>): (r: Result<Category>)
    ensures r.Ok? <==> Trim(name) != ""
    ensures r.Err? ==> r.error == Unexpected(ValidationFailed)
    ensures r.Ok? ==> && r.value.name == Trim(name) && IsTrimmed(r.value.name)
                      && r.value.description == TrimOpt(description) && IsTrimmedOpt(r.value.description)
                      && r.value.parentCategory == parentCategory && r.value.isActive
  {
    if Trim(name) == "" then Err(Unexpected(ValidationFailed))
    else
      TrimIsCore(name);
      Ok(Category(Trim(name), TrimOpt(description), parentCategory, true))
  }

  /** The virtual `subCategories`: the categories whose `parentCategory` is `id`. */
  function SubCategories(t: Table<Category>, id: CategoryId): set<CategoryId> {
    set c | c in t.rows && t.rows[c].parentCategory == Some(id)
  }

  /** `Category.findOne({ name: n })`; the query goes through the `trim` setter. */
  function FindCategoryByName(t: Table<Category>, n: string): (r: Option<CategoryId>)
    ensures r.Some? ==> r.value in t.rows && t.rows[r.value].name == Trim(n)
    ensures r.None? && t.Wf() ==> forall k :: k in t.rows ==> t.rows[k].name != Trim(n)
  {
    t.Find((c: Category) => c.name == Trim(n))
  }
}
