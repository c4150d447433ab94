/** `migrateStocks` of api/migrate-stock.js: the one-off script that turns the stock
    of products saved in the older layout, one count per sales channel, into the
    single number the current product schema holds. */
module Migration {
  import opened Common
  import opened Schemas

  /** A product's `stock` field as the script may find it: absent, a number, or the
      legacy object with one optional count per channel. */
  datatype StockField =
    | Unset
    | Amount(n: int)
    | PerChannel(pharmacy: Option<int>, farmazon: Option<int>, woocommerce: Option<int>)

  /** A product document loaded by `Product.find({})`: its `stock` as stored, and every
      other path of the document (whose own `stock` is not consulted). The script reads
      only `stock`. */
  datatype LegacyProduct = LegacyProduct(rest: ProductDoc, stock: StockField)

  /** `if (product.stock && typeof product.stock === 'object')`: only the legacy object
      passes; an absent stock, 0 and every other number do not. */
  predicate IsLegacy(s: StockField) {
    s.PerChannel?
  }

  /** `if (c) totalStock += c`: an absent channel, like a zero one, adds nothing. */
  function Channel(c: Option<int>): int {
    if c.Some? && c.value != 0 then c.value else 0
  }

  /** The sum of the three channels. */
  function Total(s: StockField): int
    requires IsLegacy(s)
  {
    Channel(s.pharmacy) + Channel(s.farmazon) + Channel(s.woocommerce)
  }

  /** The document `product.save()` validates once the sum is assigned to `stock`. */
  function SavedDoc(p: LegacyProduct): (d: ProductDoc)
    requires IsLegacy(p.stock)
    ensures d.stock == Some(Total(p.stock)) && d.(stock := p.rest.stock) == p.rest
  {
    p.rest.(stock := Some(Total(p.stock)))
  }

  /** The validators of the product schema on a loaded document. Loading runs no
      setter, and `save` runs none on the paths it did not assign, so `required` sees
      the stored name as it is: any non-empty string passes, even one of blanks. */
  predicate StoredDocAcceptable(d: ProductDoc) {
    && d.name.Some? && d.name.value != ""
    && d.price.Some? && d.price.value >= 0.0
    && d.purchasePrice.Some? && d.purchasePrice.value >= 0.0
    && d.stock.GetOr(0) >= 0
    && d.unit.Some? && ParseUnit(d.unit.value).Some?
    && d.minStock.GetOr(0) >= 0
  }

  /** A document that a new `Product` would accept passes as a loaded one too. */
  lemma NewAcceptableIsStoredAcceptable(d: ProductDoc)
    requires ProductDocAcceptable(d)
    ensures StoredDocAcceptable(d)
  {
  }

  /** `product.save()` runs every validator of the product schema on the whole document:
      the new stock must not be below 0, and the loaded paths must pass as well (a
      non-empty name, prices and unit, a known unit, a minimum stock not below 0). */
  predicate SaveFails(p: LegacyProduct) {
    IsLegacy(p.stock) && !StoredDocAcceptable(SavedDoc(p))
  }

  /** A save is refused for its new stock, or for a loaded path the schema refuses. */
  lemma SaveFailsWhen(p: LegacyProduct)
    requires IsLegacy(p.stock)
    ensures SaveFails(p) <==> Total(p.stock) < 0 || !StoredDocAcceptable(p.rest.(stock := None))
  {
  }

  /** The product after its iteration of the loop. */
  function Migrated(p: LegacyProduct): (q: LegacyProduct)
    ensures q.(stock := p.stock) == p
    ensures !IsLegacy(p.stock) ==> q == p
    ensures IsLegacy(p.stock) ==> q.stock == Amount(Total(p.stock))
    ensures !IsLegacy(q.stock)
  {
    if IsLegacy(p.stock) then p.(stock := Amount(Total(p.stock))) else p
  }

  /** How a run ends: every product visited, or stopped by the catch block at the
      product whose save failed (`process.exit(1)`), with the products before it saved. */
  datatype Run = Completed(products: seq<LegacyProduct>) | Aborted(products: seq<LegacyProduct>, at: nat)

  /** The loop from product `i` on, over the products as they stand. */
  function MigrateFrom(ps: seq<LegacyProduct>, i: nat): (r: Run)
    requires i <= |ps|
    decreases |ps| - i
    ensures |r.products| == |ps|
    ensures r.Aborted? ==> i <= r.at < |ps|
  {
    if i == |ps| then Run.Completed(ps)
    else if SaveFails(ps[i]) then Aborted(ps, i)
    else MigrateFrom(ps[i := Migrated(ps[i])], i + 1)
  }

  /** The position the run stops at: the first failing save, or the end. */
  function Stop(r: Run, n: nat): nat {
    if r.Aborted? then r.at else n
  }

  /** The run migrates exactly the products it visits before it stops: each of them
      has its per-channel counts replaced by their sum, the failing one and those after
      it are as they were, and so are those before `i`. */
  lemma {:induction false} MigrateFromEffect(ps: seq<LegacyProduct>, i: nat)
    requires i <= |ps|
    decreases |ps| - i
    ensures var r := MigrateFrom(ps, i);
            && (forall j :: i <= j < Stop(r, |ps|) ==> r.products[j] == Migrated(ps[j]) && !SaveFails(ps[j]))
            && (forall j :: 0 <= j < |ps| && !(i <= j < Stop(r, |ps|)) ==> r.products[j] == ps[j])
            && (r.Aborted? ==> SaveFails(ps[r.at]))
  {
    if i < |ps| && !SaveFails(ps[i]) {
      MigrateFromEffect(ps[i := Migrated(ps[i])], i + 1);
    }
  }

  /** Only `stock` is ever assigned. */
  lemma OnlyStockChanges(ps: seq<LegacyProduct>)
    ensures var r := MigrateFrom(ps, 0);
            forall j :: 0 <= j < |ps| ==> r.products[j].(stock := ps[j].stock) == ps[j]
  {
    MigrateFromEffect(ps, 0);
  }

  /** A product whose stock already is a number, or absent, is left as it is. */
  lemma ScalarStockUntouched(ps: seq<LegacyProduct>, j: nat)
    requires j < |ps| && !IsLegacy(ps[j].stock)
    ensures MigrateFrom(ps, 0).products[j] == ps[j]
  {
    MigrateFromEffect(ps, 0);
  }

  /** A completed run leaves no legacy stock behind, and every product it saved is one
      the schema accepts, with the non-negative sum of the channels as its stock. */
  lemma CompletedLeavesScalars(ps: seq<LegacyProduct>)
    requires MigrateFrom(ps, 0).Completed?
    ensures var qs := MigrateFrom(ps, 0).products;
            && (forall j :: 0 <= j < |qs| ==> !IsLegacy(qs[j].stock))
            && (forall j :: 0 <= j < |qs| && IsLegacy(ps[j].stock) ==>
                  && qs[j].stock == Amount(Total(ps[j].stock)) && Total(ps[j].stock) >= 0
                  && StoredDocAcceptable(SavedDoc(ps[j])))
  {
    MigrateFromEffect(ps, 0);
  }

  /** Visiting products that need no migration changes nothing. */
  lemma {:induction false} NothingToMigrate(ps: seq<LegacyProduct>, i: nat, stop: nat)
    requires i <= stop <= |ps|
    requires forall j :: i <= j < stop ==> !IsLegacy(ps[j].stock)
    requires stop == |ps| || SaveFails(ps[stop])
    ensures MigrateFrom(ps, i) == if stop == |ps| then Run.Completed(ps) else Aborted(ps, stop)
    decreases |ps| - i
  {
    if i < stop {
      assert ps[i := Migrated(ps[i])] == ps;
      NothingToMigrate(ps, i + 1, stop);
    }
  }

  /** Running the migration a second time gives what the first run gave: a completed
      run left only numbers, and an aborted one left numbers before the product
      whose save fails again. */
  lemma MigrationIdempotent(ps: seq<LegacyProduct>)
    ensures var r := MigrateFrom(ps, 0); MigrateFrom(r.products, 0) == r
  {
    var r := MigrateFrom(ps, 0);
    MigrateFromEffect(ps, 0);
    var stop := Stop(r, |ps|);
    assert forall j :: 0 <= j < stop ==> !IsLegacy(r.products[j].stock);
    if r.Aborted? {
      assert r.products[stop] == ps[stop];
    }
    NothingToMigrate(r.products, 0, stop);
  }

  /** A legacy product whose stored name is a single blank. */
  function BlankNamed(): LegacyProduct {
    LegacyProduct(ProductDoc(Some(" "), NoBarcode, None, None, Some(1.0), Some(1.0), None, Some("adet"), None, None,
                             None, None),
                  PerChannel(Some(2), None, None))
  }

  /** Its save goes through, as the name is not trimmed again: the run completes and
      stores the stock 2. */
  lemma BlankNameSaved()
    ensures MigrateFrom([BlankNamed()], 0) == Run.Completed([BlankNamed().(stock := Amount(2))])
  {
    var p := BlankNamed();
    assert ParseUnit("adet").Some?;
    assert !SaveFails(p);
    assert [p][0 := Migrated(p)] == [p.(stock := Amount(2))];
  }

  /** The script's loop over the loaded products, assigning each legacy stock in place. */
  method MigrateStocks(products: array<LegacyProduct>) returns (r: Result<()>)
    modifies products
    ensures var run := MigrateFrom(old(products[..]), 0);
            && products[..] == run.products
            && (r.Ok? <==> run.Completed?)
            && (r.Err? ==> r.error == Unexpected(ValidationFailed))
  {
    var i := 0;
    while i < products.Length
      invariant 0 <= i <= products.Length
      invariant MigrateFrom(old(products[..]), 0) == MigrateFrom(products[..], i)
    {
      var product := products[i];
      ghost var before := products[..];
      if IsLegacy(product.stock) {
        var totalStock := 0;
        if product.stock.pharmacy.Some? && product.stock.pharmacy.value != 0 {
          totalStock := totalStock + product.stock.pharmacy.value;
        }
        if product.stock.farmazon.Some? && product.stock.farmazon.value != 0 {
          totalStock := totalStock + product.stock.farmazon.value;
        }
        if product.stock.woocommerce.Some? && product.stock.woocommerce.value != 0 {
          totalStock := totalStock + product.stock.woocommerce.value;
        }
        assert totalStock == Total(product.stock);
        if !StoredDocAcceptable(product.rest.(stock := Some(totalStock))) {
          return Err(Unexpected(ValidationFailed));
        }
        products[i] := product.(stock := Amount(totalStock));
        assert products[..] == before[i := Migrated(before[i])];
      } else {
        assert before[i := Migrated(before[i])] == before;
      }
      i := i + 1;
    }
    return Ok(());
  }
}
