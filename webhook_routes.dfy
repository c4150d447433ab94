/** api/routes/webhookRoutes.js: the WooCommerce order webhook. A signed
    `processing` order takes each matched line's quantity off its product's stock
    and records a sale for it, all in one transaction. */
module WebhookRoutes {
  import opened Common
  import opened Tables
  import opened Schemas
  import opened Store
  import opened Ledger

  /** A line of the order: the store's product id, as `toString` writes it, and a quantity. */
  datatype LineItem = LineItem(productId: string, quantity: int)

  /** The order body; `lineItems` is `None` when the field is absent. */
  datatype Order = Order(id: string, status: string, lineItems: Option<seq<LineItem>>)

  /** The two successful answers: the order was not processing, or it was processed. */
  datatype Outcome = Ignored | Processed

  datatype Handled = Handled(ledger: Ledger, outcome: Outcome)

  /** `verifyWooCommerceWebhook`: the header must equal the HMAC computed over the
      body, which is a parameter here. */
  predicate SignatureMatches(computed: string, header: Option<string>) {
    header == Some(computed)
  }

  /** The sale recorded for a line of product `pid`: what `new Sale` makes of the
      platform `woocommerce`, which the schema's enumeration accepts. */
  function OrderSale(pid: ProductId, line: LineItem, orderId: string, now: Time): (s: Sale)
    ensures NewSale(pid, "woocommerce", line.quantity, now, Some(orderId)) == Ok(s)
    ensures SaleConsistent(s) && !s.isCancelled && s.platform == WooCommerce
    ensures s.product == pid && s.quantity == line.quantity && s.woocommerceOrderId == Some(orderId)
  {
    Sale(pid, WooCommerce, line.quantity, now, false, None, None, Some(orderId))
  }

  /** One pass of the loop body: a line of an unknown product is skipped; a line
      asking for more than the stock aborts; otherwise the stock drops by the line's
      quantity and a sale is saved under `saleId`. */
  function Step(l: Ledger, orderId: string, line: LineItem, saleId: SaleId, now: Time): (r: Result<Ledger>)
    ensures FindByWooId(l.products, line.productId).None? ==> r == Ok(l)
    ensures var found := FindByWooId(l.products, line.productId);
            found.Some? ==>
              var p := l.products.rows[found.value];
              && (p.stock < line.quantity ==> r == Err(OutOfStock(p.name)))
              && (p.stock >= line.quantity && saleId in l.sales ==> r == Err(Unexpected(DuplicateKey)))
              && (r.Ok? <==> p.stock >= line.quantity && saleId !in l.sales)
              && (r.Ok? ==> && r.value.products == l.products.Update(found.value, p.(stock := p.stock - line.quantity))
                            && r.value.sales == l.sales[saleId := OrderSale(found.value, line, orderId, now)])
  {
    match FindByWooId(l.products, line.productId)
    case None => Ok(l)
    case Some(pid) =>
      var p := l.products.rows[pid];
      if p.stock < line.quantity then Err(OutOfStock(p.name))
      else
        var products := l.products.Update(pid, p.(stock := p.stock - line.quantity));
        if saleId in l.sales then Err(Unexpected(DuplicateKey))
        else Ok(Ledger(products, l.sales[saleId := OrderSale(pid, line, orderId, now)]))
  }

  /** The loop from line `i` on, line `j` stamped with `times[j]` (each sale takes its
      own `new Date()`): the first failing line aborts the whole order, which fails
      only for want of stock or a clashing sale id; a processed order keeps the
      products and their natural order, and loses no sale. */
  function ProcessFrom(l: Ledger, orderId: string, lines: seq<LineItem>, ids: seq<SaleId>, times: seq<Time>, i: nat)
    : (r: Result<Ledger>)
    requires |ids| == |lines| && |times| == |lines| && i <= |lines|
    decreases |lines| - i
    ensures r.Err? ==> r.error.OutOfStock? || r.error == Unexpected(DuplicateKey)
    ensures r.Ok? ==> r.value.products.order == l.products.order && r.value.products.rows.Keys == l.products.rows.Keys
    ensures r.Ok? ==> l.sales.Keys <= r.value.sales.Keys
  {
    if i == |lines| then Ok(l)
    else
      match Step(l, orderId, lines[i], ids[i], times[i])
      case Err(e) => Err(e)
      case Ok(next) => ProcessFrom(next, orderId, lines, ids, times, i + 1)
  }

  /** `POST /api/webhook/woocommerce/order`; `ids` are the `_id`s the sales of the
      lines would get and `times` the instants they would be stamped with, one per line. */
  function Webhook(l: Ledger, computed: string, header: Option<string>, order: Order, ids: seq<SaleId>,
                   times: seq<Time>)
    : (r: Result<Handled>)
    requires order.lineItems.Some? ==> |ids| == |order.lineItems.value| == |times|
    ensures !SignatureMatches(computed, header) ==> r == Err(InvalidSignature)
    ensures SignatureMatches(computed, header) && order.status != "processing" ==> r == Ok(Handled(l, Ignored))
    ensures r.Ok? && r.value.outcome == Ignored ==> r.value.ledger == l
    ensures r.Ok? <==> SignatureMatches(computed, header)
                       && (order.status != "processing"
                           || (order.lineItems.Some? && ProcessFrom(l, order.id, order.lineItems.value, ids, times, 0).Ok?))
  {
    if !SignatureMatches(computed, header) then Err(InvalidSignature)
    else if order.status != "processing" then Ok(Handled(l, Ignored))
    else if order.lineItems.None? then Err(Unexpected(TypeFailure))
    else
      match ProcessFrom(l, order.id, order.lineItems.value, ids, times, 0)
      case Err(e) => Err(e)
      case Ok(l') => Ok(Handled(l', Processed))
  }

  /* ------------------------------------------------------------------ demand */

  /** The quantity the lines from `i` on ask of product `pid`, each line going to the
      product its store id resolves to in `t`. */
  function DemandFrom(t: Table<Product>, lines: seq<LineItem>, i: nat, pid: ProductId): int
    requires i <= |lines|
    decreases |lines| - i
  {
    if i == |lines| then 0 else LineDemand(t, lines[i], pid) + DemandFrom(t, lines, i + 1, pid)
  }

  /** What one line asks of product `pid`. */
  function LineDemand(t: Table<Product>, line: LineItem, pid: ProductId): int {
    if FindByWooId(t, line.productId) == Some(pid) then line.quantity else 0
  }

  /** Two collections that differ in stocks only. */
  ghost predicate SameButStock(t: Table<Product>, t': Table<Product>) {
    && t'.order == t.order && t'.rows.Keys == t.rows.Keys
    && forall k :: k in t.rows ==> t'.rows[k].(stock := t.rows[k].stock) == t.rows[k]
  }

  /** Changing a stock does not change which product a store id resolves to. */
  lemma WooIdAfterStock(t: Table<Product>, pid: ProductId, n: int, w: string)
    requires pid in t.rows
    ensures FindByWooId(t.Update(pid, t.rows[pid].(stock := n)), w) == FindByWooId(t, w)
  {
    t.FindAfterUpdate(pid, t.rows[pid].(stock := n), (p: Product) => p.woocommerceId == Some(w));
  }

  lemma {:induction false} DemandAfterStock(t: Table<Product>, pid: ProductId, n: int,
                                            lines: seq<LineItem>, i: nat, x: ProductId)
    requires pid in t.rows && i <= |lines|
    ensures DemandFrom(t.Update(pid, t.rows[pid].(stock := n)), lines, i, x) == DemandFrom(t, lines, i, x)
    decreases |lines| - i
  {
    if i < |lines| {
      WooIdAfterStock(t, pid, n, lines[i].productId);
      DemandAfterStock(t, pid, n, lines, i + 1, x);
    }
  }

  /* --------------------------------------------------------------- the effect */

  /** One step takes its line's demand off the stock, changes nothing else of the
      products, and leaves what the later lines ask unchanged. */
  lemma StepTakesDemand(l: Ledger, orderId: string, lines: seq<LineItem>, ids: seq<SaleId>, times: seq<Time>,
                        i: nat, next: Ledger)
    requires |ids| == |lines| && |times| == |lines| && i < |lines|
    requires Step(l, orderId, lines[i], ids[i], times[i]) == Ok(next)
    ensures SameButStock(l.products, next.products)
    ensures forall x :: StockOf(next.products, x) == StockOf(l.products, x) - LineDemand(l.products, lines[i], x)
    ensures forall k: nat, x :: k <= |lines| ==> DemandFrom(next.products, lines, k, x) == DemandFrom(l.products, lines, k, x)
  {
    match FindByWooId(l.products, lines[i].productId)
    case None =>
    case Some(pid) =>
      var p := l.products.rows[pid];
      TakeStock(l.products, pid, p.stock - lines[i].quantity, lines, next.products);
      assert forall x :: LineDemand(l.products, lines[i], x) == if x == pid then lines[i].quantity else 0;
  }

  /** Setting one product's stock changes no other stock, no other field, and no demand. */
  lemma TakeStock(t: Table<Product>, pid: ProductId, n: int, lines: seq<LineItem>, t': Table<Product>)
    requires pid in t.rows
    requires t' == t.Update(pid, t.rows[pid].(stock := n))
    ensures SameButStock(t, t')
    ensures forall x :: StockOf(t', x) == if x == pid then n else StockOf(t, x)
    ensures forall k: nat, x :: k <= |lines| ==> DemandFrom(t', lines, k, x) == DemandFrom(t, lines, k, x)
  {
    forall k: nat, x | k <= |lines|
      ensures DemandFrom(t', lines, k, x) == DemandFrom(t, lines, k, x)
    {
      DemandAfterStock(t, pid, n, lines, k, x);
    }
  }

  lemma SameButStockTrans(t1: Table<Product>, t2: Table<Product>, t3: Table<Product>)
    requires SameButStock(t1, t2) && SameButStock(t2, t3)
    ensures SameButStock(t1, t3)
  {
    forall k | k in t1.rows ensures t3.rows[k].(stock := t1.rows[k].stock) == t1.rows[k] {
      assert t2.rows[k].(stock := t1.rows[k].stock) == t1.rows[k];
      assert t3.rows[k].(stock := t2.rows[k].stock) == t2.rows[k];
    }
  }

  /** A processed order leaves every product's other fields and the natural order
      alone and takes exactly its demand off each product's stock. */
  lemma {:induction false} ProcessTakesDemand(l: Ledger, orderId: string, lines: seq<LineItem>, ids: seq<SaleId>,
                                              times: seq<Time>, i: nat)
    requires |ids| == |lines| && |times| == |lines| && i <= |lines|
    requires ProcessFrom(l, orderId, lines, ids, times, i).Ok?
    ensures SameButStock(l.products, ProcessFrom(l, orderId, lines, ids, times, i).value.products)
    ensures forall x :: StockOf(ProcessFrom(l, orderId, lines, ids, times, i).value.products, x)
                        == StockOf(l.products, x) - DemandFrom(l.products, lines, i, x)
    decreases |lines| - i
  {
    if i < |lines| {
      var next := Step(l, orderId, lines[i], ids[i], times[i]).value;
      var done := ProcessFrom(l, orderId, lines, ids, times, i).value;
      assert ProcessFrom(next, orderId, lines, ids, times, i + 1) == Ok(done);
      ProcessTakesDemand(next, orderId, lines, ids, times, i + 1);
      StepTakesDemand(l, orderId, lines, ids, times, i, next);
      SameButStockTrans(l.products, next.products, done.products);
    }
  }

  /** Each step of the loop keeps every product's balance of stock and sold units. */
  lemma {:induction false} ProcessKeepsBalance(l: Ledger, orderId: string, lines: seq<LineItem>, ids: seq<SaleId>,
                                               times: seq<Time>, i: nat)
    requires |ids| == |lines| && |times| == |lines| && i <= |lines|
    requires ProcessFrom(l, orderId, lines, ids, times, i).Ok?
    ensures forall x :: Balance(ProcessFrom(l, orderId, lines, ids, times, i).value, x) == Balance(l, x)
    decreases |lines| - i
  {
    if i < |lines| {
      var next := Step(l, orderId, lines[i], ids[i], times[i]).value;
      ProcessKeepsBalance(next, orderId, lines, ids, times, i + 1);
      match FindByWooId(l.products, lines[i].productId)
      case None =>
      case Some(pid) =>
        SellKeepsBalance(l, pid, lines[i].quantity, ids[i], OrderSale(pid, lines[i], orderId, times[i]));
    }
  }

  /** With no stock below zero, every line asking for a positive quantity and fresh,
      distinct sale ids, the order goes through exactly when no product is asked for
      more than its stock. */
  lemma {:induction false} ProcessSucceedsIff(l: Ledger, orderId: string, lines: seq<LineItem>, ids: seq<SaleId>,
                                              times: seq<Time>, i: nat)
    requires |ids| == |lines| && |times| == |lines| && i <= |lines|
    requires NonNegativeStock(l.products)
    requires forall j :: i <= j < |lines| ==> lines[j].quantity > 0
    requires forall j :: i <= j < |lines| ==> ids[j] !in l.sales
    requires forall j, k :: i <= j < k < |lines| ==> ids[j] != ids[k]
    ensures ProcessFrom(l, orderId, lines, ids, times, i).Ok?
            <==> forall x :: DemandFrom(l.products, lines, i, x) <= StockOf(l.products, x)
    decreases |lines| - i
  {
    if i < |lines| {
      var j := i + 1;
      var step := Step(l, orderId, lines[i], ids[i], times[i]);
      assert forall x :: DemandFrom(l.products, lines, i, x) == LineDemand(l.products, lines[i], x) + DemandFrom(l.products, lines, j, x);
      if step.Ok? {
        var next := step.value;
        StepTakesDemand(l, orderId, lines, ids, times, i, next);
        assert forall k :: j <= k < |lines| ==> ids[k] !in next.sales;
        assert NonNegativeStock(next.products) by {
          forall k | k in next.products.rows ensures next.products.rows[k].stock >= 0 {
            assert StockOf(next.products, k) == StockOf(l.products, k) - LineDemand(l.products, lines[i], k);
          }
        }
        ProcessSucceedsIff(next, orderId, lines, ids, times, j);
        assert ProcessFrom(l, orderId, lines, ids, times, i) == ProcessFrom(next, orderId, lines, ids, times, j);
        forall x ensures (DemandFrom(l.products, lines, i, x) <= StockOf(l.products, x))
                         == (DemandFrom(next.products, lines, j, x) <= StockOf(next.products, x)) {
          assert DemandFrom(next.products, lines, j, x) == DemandFrom(l.products, lines, j, x);
        }
        assert (forall x :: DemandFrom(l.products, lines, i, x) <= StockOf(l.products, x))
               == (forall x :: DemandFrom(next.products, lines, j, x) <= StockOf(next.products, x));
      } else {
        var pid := FindByWooId(l.products, lines[i].productId).value;
        DemandPositive(l.products, lines, j, pid);
        assert LineDemand(l.products, lines[i], pid) == lines[i].quantity > StockOf(l.products, pid);
        assert DemandFrom(l.products, lines, i, pid) > StockOf(l.products, pid);
        assert ProcessFrom(l, orderId, lines, ids, times, i).Err?;
      }
    }
  }

  lemma {:induction false} DemandPositive(t: Table<Product>, lines: seq<LineItem>, i: nat, pid: ProductId)
    requires i <= |lines|
    requires forall j :: i <= j < |lines| ==> lines[j].quantity > 0
    ensures DemandFrom(t, lines, i, pid) >= 0
    decreases |lines| - i
  {
    if i < |lines| {
      DemandPositive(t, lines, i + 1, pid);
    }
  }

  /** A processed order keeps the product invariant: no stock goes below zero, whatever
      the quantities the lines ask for. */
  lemma {:induction false} ProcessKeepsProductsInv(l: Ledger, orderId: string, lines: seq<LineItem>,
                                                   ids: seq<SaleId>, times: seq<Time>, i: nat)
    requires |ids| == |lines| && |times| == |lines| && i <= |lines|
    requires ProductsInv(l.products)
    requires ProcessFrom(l, orderId, lines, ids, times, i).Ok?
    ensures ProductsInv(ProcessFrom(l, orderId, lines, ids, times, i).value.products)
    decreases |lines| - i
  {
    if i < |lines| {
      var next := Step(l, orderId, lines[i], ids[i], times[i]).value;
      StepKeepsProductsInv(l, orderId, lines[i], ids[i], times[i], next);
      ProcessKeepsProductsInv(next, orderId, lines, ids, times, i + 1);
    }
  }

  /** When every line asks for a positive quantity, a processed order keeps the sale
      invariant. */
  lemma {:induction false} ProcessKeepsSalesInv(l: Ledger, orderId: string, lines: seq<LineItem>,
                                                ids: seq<SaleId>, times: seq<Time>, i: nat)
    requires |ids| == |lines| && |times| == |lines| && i <= |lines|
    requires SalesInv(l.sales)
    requires forall j :: i <= j < |lines| ==> lines[j].quantity > 0
    requires ProcessFrom(l, orderId, lines, ids, times, i).Ok?
    ensures SalesInv(ProcessFrom(l, orderId, lines, ids, times, i).value.sales)
    decreases |lines| - i
  {
    if i < |lines| {
      var next := Step(l, orderId, lines[i], ids[i], times[i]).value;
      var found := FindByWooId(l.products, lines[i].productId);
      if found.Some? {
        PutKeepsSalesInv(l.sales, ids[i], OrderSale(found.value, lines[i], orderId, times[i]));
      }
      ProcessKeepsSalesInv(next, orderId, lines, ids, times, i + 1);
    }
  }

  /** A step that goes through leaves the stock it lowered at zero or above. */
  lemma StepKeepsProductsInv(l: Ledger, orderId: string, line: LineItem, saleId: SaleId, now: Time, next: Ledger)
    requires ProductsInv(l.products)
    requires Step(l, orderId, line, saleId, now) == Ok(next)
    ensures ProductsInv(next.products)
  {
    match FindByWooId(l.products, line.productId)
    case None =>
    case Some(pid) =>
      var p := l.products.rows[pid];
      SetStockKeepsProductsInv(l.products, next.products, pid, p.stock - line.quantity);
  }

  /* ------------------------------------------------------------- the handler */

  /** The signature middleware and the handler. */
  method PostOrder(db: Database, computed: string, header: Option<string>, order: Order, ids: seq<SaleId>,
                   times: seq<Time>)
    returns (r: Result<Outcome>)
    requires order.lineItems.Some? ==> |ids| == |order.lineItems.value| == |times|
    modifies db
    ensures var spec := Webhook(Ledger(old(db.products), old(db.sales)), computed, header, order, ids, times);
            && (spec.Err? ==> r == Err(spec.error) && db.products == old(db.products) && db.sales == old(db.sales))
            && (spec.Ok? ==> r == Ok(spec.value.outcome) && Ledger(db.products, db.sales) == spec.value.ledger)
    ensures db.sessions == old(db.sessions) && db.categories == old(db.categories)
  {
    if !SignatureMatches(computed, header) {
      return Err(InvalidSignature);
    }
    if order.status != "processing" {
      return Ok(Ignored);
    }
    if order.lineItems.None? {
      return Err(Unexpected(TypeFailure));
    }
    var done := ProcessLines(db, order.id, order.lineItems.value, ids, times);
    if done.Err? {
      return Err(done.error);
    }
    r := Ok(Processed);
  }

  /** The line loop inside one transaction over the product and sale collections,
      rolled back when a line fails. */
  method ProcessLines(db: Database, orderId: string, lines: seq<LineItem>, ids: seq<SaleId>, times: seq<Time>)
    returns (r: Result<()>)
    requires |ids| == |lines| && |times| == |lines|
    modifies db
    ensures var spec := ProcessFrom(Ledger(old(db.products), old(db.sales)), orderId, lines, ids, times, 0);
            && (spec.Err? ==> r == Err(spec.error) && db.products == old(db.products) && db.sales == old(db.sales))
            && (spec.Ok? ==> r.Ok? && Ledger(db.products, db.sales) == spec.value)
    ensures db.sessions == old(db.sessions) && db.categories == old(db.categories)
  {
    var savedProducts, savedSales := db.products, db.sales;
    var i := 0;
    while i < |lines|
      invariant 0 <= i <= |lines|
      invariant ProcessFrom(Ledger(savedProducts, savedSales), orderId, lines, ids, times, 0)
                == ProcessFrom(Ledger(db.products, db.sales), orderId, lines, ids, times, i)
      invariant db.sessions == old(db.sessions) && db.categories == old(db.categories)
    {
      r := ApplyLine(db, orderId, lines[i], ids[i], times[i]);
      if r.Err? {
        db.Rollback(savedProducts, savedSales);
        return;
      }
      i := i + 1;
    }
    r := Ok(());
  }

  /** One iteration of the loop: the product's stock is decremented and saved, then the
      sale is created; the caller aborts the transaction when this fails. */
  method ApplyLine(db: Database, orderId: string, line: LineItem, saleId: SaleId, now: Time)
    returns (r: Result<()>)
    modifies db
    ensures var step := Step(Ledger(old(db.products), old(db.sales)), orderId, line, saleId, now);
            && (step.Err? ==> r == Err(step.error))
            && (step.Ok? ==> r.Ok? && Ledger(db.products, db.sales) == step.value)
    ensures db.sessions == old(db.sessions) && db.categories == old(db.categories)
  {
    var found := FindByWooId(db.products, line.productId);
    if found.None? {
      return Ok(());
    }
    var pid := found.value;
    var p := db.products.rows[pid];
    if p.stock < line.quantity {
      return Err(OutOfStock(p.name));
    }
    db.products := db.products.Update(pid, p.(stock := p.stock - line.quantity));
    var sale := NewSale(pid, "woocommerce", line.quantity, now, Some(orderId)).value;
    if saleId in db.sales {
      return Err(Unexpected(DuplicateKey));
    }
    db.sales := db.sales[saleId := sale];
    r := Ok(());
  }
}
