/** The stock ledger: the product and sale collections that the sale routes and
    the order webhook change together inside one transaction, and the audit
    quantity they conserve. */
module Ledger {
  import opened Common
  import opened Tables
  import opened Schemas

  datatype Ledger = Ledger(products: Table<Product>, sales: map<SaleId, Sale>)

  /** A product's stock, or 0 for an unknown id. */
  function StockOf(t: Table<Product>, id: ProductId): int {
    if id in t.rows then t.rows[id].stock else 0
  }

  /** What a sale still holds of a product's stock: its quantity while it is not cancelled. */
  function Held(s: Sale, id: ProductId): int {
    if s.product == id && !s.isCancelled then s.quantity else 0
  }

  ghost function HeldBy(keys: set<SaleId>, sales: map<SaleId, Sale>, id: ProductId): int
    requires keys <= sales.Keys
    decreases keys
  {
    if keys == {} then 0
    else
      var k :| k in keys;
      Held(sales[k], id) + HeldBy(keys - {k}, sales, id)
  }

  /** The quantity of a product held by the uncancelled sales. */
  ghost function SoldQuantity(sales: map<SaleId, Sale>, id: ProductId): int {
    HeldBy(sales.Keys, sales, id)
  }

  /** What the ledger accounts for a product: stock on hand plus stock sold. */
  ghost function Balance(l: Ledger, id: ProductId): int {
    StockOf(l.products, id) + SoldQuantity(l.sales, id)
  }

  lemma {:induction false} HeldByRemove(keys: set<SaleId>, sales: map<SaleId, Sale>, id: ProductId, k: SaleId)
    requires keys <= sales.Keys && k in keys
    ensures HeldBy(keys, sales, id) == Held(sales[k], id) + HeldBy(keys - {k}, sales, id)
    decreases keys
  {
    var x :| x in keys && HeldBy(keys, sales, id) == Held(sales[x], id) + HeldBy(keys - {x}, sales, id);
    if x != k {
      HeldByRemove(keys - {x}, sales, id, k);
      HeldByRemove(keys - {k}, sales, id, x);
      assert keys - {x} - {k} == keys - {k} - {x};
    }
  }

  lemma {:induction false} HeldByFrame(keys: set<SaleId>, s1: map<SaleId, Sale>, s2: map<SaleId, Sale>, id: ProductId)
    requires keys <= s1.Keys && keys <= s2.Keys
    requires forall k :: k in keys ==> Held(s1[k], id) == Held(s2[k], id)
    ensures HeldBy(keys, s1, id) == HeldBy(keys, s2, id)
    decreases keys
  {
    if keys != {} {
      var x :| x in keys;
      HeldByRemove(keys, s1, id, x);
      HeldByRemove(keys, s2, id, x);
      HeldByFrame(keys - {x}, s1, s2, id);
    }
  }

  /** Writing one sale changes the sold quantity by what that sale holds now
      minus what the document it replaces held. */
  lemma SoldAfterPut(sales: map<SaleId, Sale>, k: SaleId, s: Sale, id: ProductId)
    ensures SoldQuantity(sales[k := s], id)
         == SoldQuantity(sales, id) - (if k in sales then Held(sales[k], id) else 0) + Held(s, id)
  {
    var after := sales[k := s];
    var rest := sales.Keys - {k};
    HeldByRemove(after.Keys, after, id, k);
    assert after.Keys - {k} == rest;
    HeldByFrame(rest, after, sales, id);
    if k in sales {
      HeldByRemove(sales.Keys, sales, id, k);
    } else {
      assert rest == sales.Keys;
    }
  }

  /** Taking `q` units of product `p` off the shelf while recording an uncancelled
      sale of `q` units of `p` under a fresh id keeps every product's balance. */
  lemma SellKeepsBalance(l: Ledger, p: ProductId, q: int, k: SaleId, s: Sale)
    requires p in l.products.rows && k !in l.sales
    requires s.product == p && s.quantity == q && !s.isCancelled
    ensures forall id :: Balance(Ledger(l.products.Update(p, l.products.rows[p].(stock := l.products.rows[p].stock - q)),
                                            l.sales[k := s]), id)
                         == Balance(l, id)
  {
    forall id ensures Balance(Ledger(l.products.Update(p, l.products.rows[p].(stock := l.products.rows[p].stock - q)),
                                     l.sales[k := s]), id)
                      == Balance(l, id)
    {
      SoldAfterPut(l.sales, k, s, id);
    }
  }
}
