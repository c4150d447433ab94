/** api/routes/saleRoutes.js: recording a sale, which takes its quantity off the
    product's stock, and cancelling one, which puts it back. Both run inside one
    MongoDB transaction over the product and sale collections. */
module SaleRoutes {
  import opened Common
  import opened Text
  import opened Tables
  import opened Schemas
  import opened Store
  import opened Ledger

  /** The fields of the JSON body of `POST /api/sales`; absent fields are `None`. */
  datatype SaleRequest = SaleRequest(product: Option<ProductId>, platform: Option<string>, quantity: Option<int>)

  /** The guard `!product || !platform || !quantity`: a missing or empty field, or a zero quantity. */
  predicate MissingFields(req: SaleRequest) {
    Blank(req.product) || Blank(req.platform) || req.quantity.None? || req.quantity.value == 0
  }

  /** The product `p` with `q` units more on the shelf (negative `q` takes units off). */
  function Restock(p: Product, q: int): (r: Product)
    ensures r.stock == p.stock + q
    ensures r.(stock := p.stock) == p
  {
    p.(stock := p.stock + q)
  }

  /** `POST /api/sales`, checks in the handler's order: the required fields, a positive
      quantity, an existing product, enough stock; then the stock is decreased and the
      sale saved, whose validation rejects an unknown platform and whose insert fails
      on a taken id, both of which abort the transaction. */
  function CreateSale(l: Ledger, req: SaleRequest, saleId: SaleId, now: Time): (r: Result<Ledger>)
    ensures MissingFields(req) ==> r == Err(MissingSaleFields)
    ensures !MissingFields(req) && req.quantity.value < 0 ==> r == Err(NonPositiveQuantity)
    ensures !MissingFields(req) && req.quantity.value > 0 && IdKey(req.product.value) !in l.products.rows
            ==> r == Err(ProductNotFound)
    ensures !MissingFields(req) && req.quantity.value > 0 && IdKey(req.product.value) in l.products.rows
            && l.products.rows[IdKey(req.product.value)].stock < req.quantity.value
            ==> r == Err(InsufficientStock(l.products.rows[IdKey(req.product.value)].stock))
    ensures r.Ok? <==> && !MissingFields(req) && req.quantity.value > 0
                       && IdKey(req.product.value) in l.products.rows
                       && l.products.rows[IdKey(req.product.value)].stock >= req.quantity.value
                       && ParsePlatform(req.platform.value).Some? && saleId !in l.sales
  {
    if MissingFields(req) then Err(MissingSaleFields)
    else if req.quantity.value <= 0 then Err(NonPositiveQuantity)
    else
      var pid, q := IdKey(req.product.value), req.quantity.value;
      if pid !in l.products.rows then Err(ProductNotFound)
      else
        var p := l.products.rows[pid];
        if p.stock < q then Err(InsufficientStock(p.stock))
        else
          var products := l.products.Update(pid, Restock(p, -q));
          match NewSale(pid, req.platform.value, q, now, None)
          case Err(e) => Err(e)
          case Ok(s) =>
            if saleId in l.sales then Err(Unexpected(DuplicateKey))
            else Ok(Ledger(products, l.sales[saleId := s]))
  }

  /** The body of a successful cancellation: the new ledger and the stock it reports. */
  datatype Cancelled = Cancelled(ledger: Ledger, updatedStock: int)

  /** `POST /api/sales/:id/cancel`: a reason is required, the sale must exist and not be
      cancelled already, and its product must exist; then the quantity goes back on
      the product's stock and the sale is marked cancelled now, with the reason
      trimmed by the schema's setter. */
  function CancelSale(l: Ledger, id: SaleId, reason: Option<string>, now: Time): (r: Result<Cancelled>)
    ensures Blank(reason) ==> r == Err(MissingCancelReason)
    ensures !Blank(reason) && IdKey(id) !in l.sales ==> r == Err(SaleNotFound)
    ensures !Blank(reason) && IdKey(id) in l.sales && l.sales[IdKey(id)].isCancelled ==> r == Err(SaleAlreadyCancelled)
    ensures r.Ok? <==> && !Blank(reason) && IdKey(id) in l.sales && !l.sales[IdKey(id)].isCancelled
                       && l.sales[IdKey(id)].product in l.products.rows
    ensures r.Err? && !Blank(reason) && IdKey(id) in l.sales && !l.sales[IdKey(id)].isCancelled ==> r == Err(ProductNotFound)
  {
    if Blank(reason) then Err(MissingCancelReason)
    else if IdKey(id) !in l.sales then Err(SaleNotFound)
    else
      var s := l.sales[IdKey(id)];
      if s.isCancelled then Err(SaleAlreadyCancelled)
      else if s.product !in l.products.rows then Err(ProductNotFound)
      else
        var p := Restock(l.products.rows[s.product], s.quantity);
        var cancelled := s.(isCancelled := true, cancelledAt := Some(now), cancelReason := Some(Trim(reason.value)));
        Ok(Cancelled(Ledger(l.products.Update(s.product, p), l.sales[IdKey(id) := cancelled]), p.stock))
  }

  /* ------------------------------------------------------------ properties */

  /** What a recorded sale writes: the product's stock goes down by the quantity and
      stays at or above zero, nothing else in the product collection changes, and
      exactly one sale is added, uncancelled, for that product, quantity, platform and time. */
  lemma CreateSaleEffect(l: Ledger, req: SaleRequest, saleId: SaleId, now: Time)
    requires CreateSale(l, req, saleId, now).Ok?
    ensures
      var pid, q := IdKey(req.product.value), req.quantity.value;
      var l' := CreateSale(l, req, saleId, now).value;
      && l'.products.order == l.products.order
      && l'.products.rows.Keys == l.products.rows.Keys
      && l'.products.rows[pid] == Restock(l.products.rows[pid], -q)
      && l'.products.rows[pid].stock >= 0
      && (forall k :: k in l.products.rows && k != pid ==> l'.products.rows[k] == l.products.rows[k])
      && l'.sales.Keys == l.sales.Keys + {saleId}
      && (forall k :: k in l.sales ==> l'.sales[k] == l.sales[k])
      && var s := l'.sales[saleId];
         s.product == pid && s.quantity == q && s.date == now && !s.isCancelled
         && PlatformName(s.platform) == req.platform.value && s.woocommerceOrderId.None?
  {
  }

  /** What a cancellation writes: the sale's quantity goes back on its product's
      stock, which is the stock reported, and only that sale changes: it is marked
      cancelled now with the trimmed reason. */
  lemma CancelSaleEffect(l: Ledger, id: SaleId, reason: Option<string>, now: Time)
    requires CancelSale(l, id, reason, now).Ok?
    ensures
      var s := l.sales[IdKey(id)];
      var l' := CancelSale(l, id, reason, now).value.ledger;
      && l'.products.order == l.products.order
      && l'.products.rows == l.products.rows[s.product := Restock(l.products.rows[s.product], s.quantity)]
      && CancelSale(l, id, reason, now).value.updatedStock == l.products.rows[s.product].stock + s.quantity
      && l'.sales.Keys == l.sales.Keys
      && (forall k :: k in l.sales && k != IdKey(id) ==> l'.sales[k] == l.sales[k])
      && l'.sales[IdKey(id)] == s.(isCancelled := true, cancelledAt := Some(now), cancelReason := Some(Trim(reason.value)))
  {
  }

  /** Cancelling a sale right after recording it gives the product collection back
      exactly as it was. */
  lemma CancelUndoesCreate(l: Ledger, req: SaleRequest, saleId: SaleId, now: Time,
                            id: SaleId, reason: string, later: Time)
    requires CreateSale(l, req, saleId, now).Ok?
    requires IdKey(id) == saleId && reason != ""
    ensures var c := CancelSale(CreateSale(l, req, saleId, now).value, id, Some(reason), later);
            c.Ok? && c.value.ledger.products == l.products
            && c.value.updatedStock == l.products.rows[IdKey(req.product.value)].stock
  {
    var l1 := CreateSale(l, req, saleId, now).value;
    var pid := IdKey(req.product.value);
    var c := CancelSale(l1, id, Some(reason), later);
    assert c.Ok?;
    assert l1.products.rows[pid := Restock(l1.products.rows[pid], req.quantity.value)] == l.products.rows by {
      assert Restock(l1.products.rows[pid], req.quantity.value) == l.products.rows[pid];
    }
  }

  /** A sale is cancelled at most once. */
  lemma CancelTwiceRefused(l: Ledger, id: SaleId, reason: Option<string>, now: Time, reason2: Option<string>, later: Time)
    requires CancelSale(l, id, reason, now).Ok? && !Blank(reason2)
    ensures CancelSale(CancelSale(l, id, reason, now).value.ledger, id, reason2, later) == Err(SaleAlreadyCancelled)
  {
  }

  /** Recording a sale keeps every product's balance: the units leaving the shelf
      are the units the new sale holds. */
  lemma CreateSaleKeepsBalance(l: Ledger, req: SaleRequest, saleId: SaleId, now: Time)
    requires CreateSale(l, req, saleId, now).Ok?
    ensures forall id :: Balance(CreateSale(l, req, saleId, now).value, id) == Balance(l, id)
  {
    var l1 := CreateSale(l, req, saleId, now).value;
    var pid := IdKey(req.product.value);
    SellKeepsBalance(l, pid, req.quantity.value, saleId, l1.sales[saleId]);
    assert l1 == Ledger(l.products.Update(pid, l.products.rows[pid].(stock := l.products.rows[pid].stock - req.quantity.value)),
                        l.sales[saleId := l1.sales[saleId]]);
  }

  /** Cancelling a sale keeps every product's balance: the units coming back to the
      shelf are the units the sale no longer holds. */
  lemma CancelSaleKeepsBalance(l: Ledger, id: SaleId, reason: Option<string>, now: Time)
    requires CancelSale(l, id, reason, now).Ok?
    ensures forall pid :: Balance(CancelSale(l, id, reason, now).value.ledger, pid) == Balance(l, pid)
  {
    var l1 := CancelSale(l, id, reason, now).value.ledger;
    forall pid ensures Balance(l1, pid) == Balance(l, pid) {
      SoldAfterPut(l.sales, IdKey(id), l1.sales[IdKey(id)], pid);
      assert l1.sales == l.sales[IdKey(id) := l1.sales[IdKey(id)]];
    }
  }

  /** Recording a sale keeps the stored documents valid, and the stock of the product
      sold does not go below zero. */
  lemma {:induction false} CreateSaleKeepsInvariants(l: Ledger, req: SaleRequest, saleId: SaleId, now: Time)
    requires ProductsInv(l.products) && SalesInv(l.sales)
    requires CreateSale(l, req, saleId, now).Ok?
    ensures ProductsInv(CreateSale(l, req, saleId, now).value.products)
    ensures SalesInv(CreateSale(l, req, saleId, now).value.sales)
  {
    CreateSaleKeepsProducts(l, req, saleId, now);
    CreateSaleKeepsSales(l, req, saleId, now);
  }

  lemma {:induction false} CreateSaleKeepsProducts(l: Ledger, req: SaleRequest, saleId: SaleId, now: Time)
    requires ProductsInv(l.products)
    requires CreateSale(l, req, saleId, now).Ok?
    ensures ProductsInv(CreateSale(l, req, saleId, now).value.products)
  {
    var pid := IdKey(req.product.value);
    var p := l.products.rows[pid];
    CreateSaleWrites(l, req, saleId, now);
    SetStockKeepsProductsInv(l.products, CreateSale(l, req, saleId, now).value.products, pid, p.stock - req.quantity.value);
  }

  lemma {:induction false} CreateSaleKeepsSales(l: Ledger, req: SaleRequest, saleId: SaleId, now: Time)
    requires SalesInv(l.sales)
    requires CreateSale(l, req, saleId, now).Ok?
    ensures SalesInv(CreateSale(l, req, saleId, now).value.sales)
  {
    var l1 := CreateSale(l, req, saleId, now).value;
    CreateSaleWrites(l, req, saleId, now);
    PutKeepsSalesInv(l.sales, saleId, l1.sales[saleId]);
  }

  /** The two writes of a recorded sale, as whole collections. */
  lemma {:induction false} CreateSaleWrites(l: Ledger, req: SaleRequest, saleId: SaleId, now: Time)
    requires CreateSale(l, req, saleId, now).Ok?
    ensures var l1 := CreateSale(l, req, saleId, now).value;
            var p := l.products.rows[IdKey(req.product.value)];
            && l1.products == l.products.Update(IdKey(req.product.value), p.(stock := p.stock - req.quantity.value))
            && l1.sales == l.sales[saleId := l1.sales[saleId]]
  {
  }

  /** Cancelling a sale keeps the stored documents valid: the stock only grows, and
      the cancellation fields are filled in together. */
  lemma {:induction false} CancelSaleKeepsInvariants(l: Ledger, id: SaleId, reason: Option<string>, now: Time)
    requires ProductsInv(l.products) && SalesInv(l.sales)
    requires CancelSale(l, id, reason, now).Ok?
    ensures ProductsInv(CancelSale(l, id, reason, now).value.ledger.products)
    ensures SalesInv(CancelSale(l, id, reason, now).value.ledger.sales)
  {
    var s := l.sales[IdKey(id)];
    assert s.quantity > 0;
    CancelSaleKeepsProducts(l, id, reason, now);
    CancelSaleKeepsSales(l, id, reason, now);
  }

  lemma {:induction false} CancelSaleKeepsProducts(l: Ledger, id: SaleId, reason: Option<string>, now: Time)
    requires ProductsInv(l.products)
    requires CancelSale(l, id, reason, now).Ok? && l.sales[IdKey(id)].quantity >= 0
    ensures ProductsInv(CancelSale(l, id, reason, now).value.ledger.products)
  {
    var s := l.sales[IdKey(id)];
    var p := l.products.rows[s.product];
    CancelSaleWrites(l, id, reason, now);
    SetStockKeepsProductsInv(l.products, CancelSale(l, id, reason, now).value.ledger.products, s.product, p.stock + s.quantity);
  }

  lemma {:induction false} CancelSaleKeepsSales(l: Ledger, id: SaleId, reason: Option<string>, now: Time)
    requires SalesInv(l.sales)
    requires CancelSale(l, id, reason, now).Ok?
    ensures SalesInv(CancelSale(l, id, reason, now).value.ledger.sales)
  {
    var l1 := CancelSale(l, id, reason, now).value.ledger;
    CancelSaleWrites(l, id, reason, now);
    TrimIsCore(reason.value);
    assert SaleConsistent(l1.sales[IdKey(id)]);
    PutKeepsSalesInv(l.sales, IdKey(id), l1.sales[IdKey(id)]);
  }

  /** The two writes of a cancellation, as whole collections. */
  lemma {:induction false} CancelSaleWrites(l: Ledger, id: SaleId, reason: Option<string>, now: Time)
    requires CancelSale(l, id, reason, now).Ok?
    ensures var l1 := CancelSale(l, id, reason, now).value.ledger;
            var s := l.sales[IdKey(id)];
            var p := l.products.rows[s.product];
            && l1.products == l.products.Update(s.product, p.(stock := p.stock + s.quantity))
            && l1.sales == l.sales[IdKey(id) := l1.sales[IdKey(id)]]
  {
  }

  /* ------------------------------------------------------------ the handlers */

  /** The handler of `POST /api/sales`, step by step; an early exit after the
      transaction started aborts it. Answers the saved sale. */
  method PostSale(db: Database, req: SaleRequest, saleId: SaleId, now: Time) returns (r: Result<Sale>)
    modifies db
    ensures var spec := CreateSale(old(Ledger(db.products, db.sales)), req, saleId, now);
            && (spec.Ok? ==> Ledger(db.products, db.sales) == spec.value && r == Ok(db.sales[saleId]))
            && (spec.Err? ==> r == Err(spec.error) && db.products == old(db.products) && db.sales == old(db.sales))
    ensures db.sessions == old(db.sessions) && db.categories == old(db.categories)
  {
    var savedProducts, savedSales := db.products, db.sales;
    if MissingFields(req) {
      return Err(MissingSaleFields);
    }
    var q := req.quantity.value;
    if q <= 0 {
      return Err(NonPositiveQuantity);
    }
    var pid := IdKey(req.product.value);
    if pid !in db.products.rows {
      db.Rollback(savedProducts, savedSales);
      return Err(ProductNotFound);
    }
    var found := db.products.rows[pid];
    if found.stock < q {
      db.Rollback(savedProducts, savedSales);
      return Err(InsufficientStock(found.stock));
    }
    found := found.(stock := found.stock - q);
    db.products := db.products.Update(pid, found);
    var sale := NewSale(pid, req.platform.value, q, now, None);
    if sale.Err? {
      db.Rollback(savedProducts, savedSales);
      return Err(sale.error);
    }
    if saleId in db.sales {
      db.Rollback(savedProducts, savedSales);
      return Err(Unexpected(DuplicateKey));
    }
    db.sales := db.sales[saleId := sale.value];
    r := Ok(sale.value);
  }

  /** The handler of `POST /api/sales/:id/cancel`, step by step. Answers the cancelled
      sale and the product's new stock. */
  method PostCancel(db: Database, id: SaleId, reason: Option<string>, now: Time) returns (r: Result<(Sale, int)>)
    modifies db
    ensures var spec := CancelSale(old(Ledger(db.products, db.sales)), id, reason, now);
            && (spec.Ok? ==> Ledger(db.products, db.sales) == spec.value.ledger
                             && r == Ok((db.sales[IdKey(id)], spec.value.updatedStock)))
            && (spec.Err? ==> r == Err(spec.error) && db.products == old(db.products) && db.sales == old(db.sales))
    ensures db.sessions == old(db.sessions) && db.categories == old(db.categories)
  {
    var savedProducts, savedSales := db.products, db.sales;
    if Blank(reason) {
      return Err(MissingCancelReason);
    }
    var key := IdKey(id);
    if key !in db.sales {
      db.Rollback(savedProducts, savedSales);
      return Err(SaleNotFound);
    }
    var sale := db.sales[key];
    if sale.isCancelled {
      db.Rollback(savedProducts, savedSales);
      return Err(SaleAlreadyCancelled);
    }
    if sale.product !in db.products.rows {
      db.Rollback(savedProducts, savedSales);
      return Err(ProductNotFound);
    }
    var product := db.products.rows[sale.product];
    product := product.(stock := product.stock + sale.quantity);
    db.products := db.products.Update(sale.product, product);
    sale := sale.(isCancelled := true, cancelledAt := Some(now), cancelReason := Some(Trim(reason.value)));
    db.sales := db.sales[key := sale];
    r := Ok((sale, product.stock));
  }
}
